/**
 * The two `BaseModel` methods that reach the store: construction without
 * keyword arguments, which registers the new object, and `save`, which stamps
 * the object and flushes the whole table. The store holds objects by value, so
 * "the object `o`" is the object stored under its key.
 */
module Lifecycle {
  import opened Wrappers
  import opened Dicts
  import opened Timestamps
  import opened PyValues
  import opened Registry
  import opened Models
  import opened Storage

  /** `cls()`: a fresh id and two clock readings, then `storage.new(self)`. */
  method Init(store: Store, cls: ClassName, id: string, created: Stamp, updated: Stamp)
    returns (o: Obj)
    requires store.Valid()
    modifies store
    ensures o == Fresh(cls, id, created, updated)
    ensures store.objects == Set(old(store.objects), Name(cls) + "." + id, o)
    ensures store.file == old(store.file) && store.saveCount == old(store.saveCount)
    ensures store.Valid() && (old(store.Consistent()) ==> store.Consistent())
  {
    o := Fresh(cls, id, created, updated);
    store.New(o);
  }

  /** An assignment that keeps the object's class keeps every key in agreement. */
  lemma KeysAgreeSet(objs: Dict<Obj>, key: string, o: Obj, o': Obj)
    requires KeysAgree(objs) && Get(objs, key) == Some(o) && o'.cls == o.cls
    ensures KeysAgree(Set(objs, key, o'))
  {
    var i := Find(objs, key).value;
    assert objs[i] == (key, o);
  }

  /** An attribute assignment on the object stored under `key`: the entry now holds `o`, of the
      same class; nothing is saved. */
  method Replace(store: Store, key: string, o: Obj)
    requires store.Valid() && Has(store.objects, key) && o.cls == Get(store.objects, key).value.cls
    modifies store
    ensures store.objects == Set(old(store.objects), key, o)
    ensures store.file == old(store.file) && store.saveCount == old(store.saveCount)
    ensures store.Valid() && (old(store.Consistent()) ==> store.Consistent())
  {
    SetDistinct(store.objects, key, o);
    if store.Consistent() {
      KeysAgreeSet(store.objects, key, Get(store.objects, key).value, o);
    }
    store.objects := Set(store.objects, key, o);
  }

  /** `save()` on the object stored under `key`: `updated_at` becomes `now`, then the whole
      table is written out. Answers whether the call completed. An instance attribute `save`
      hides the method, and calling it raises `TypeError` (no attribute value is callable)
      before anything changes. */
  method SaveModel(store: Store, key: string, now: Stamp) returns (ok: bool)
    requires store.Valid() && Has(store.objects, key)
    modifies store
    ensures Has(Get(old(store.objects), key).value.attrs, "save") ==>
      !ok && store.objects == old(store.objects) &&
      store.file == old(store.file) && store.saveCount == old(store.saveCount)
    ensures !Has(Get(old(store.objects), key).value.attrs, "save") ==>
      store.objects == Set(old(store.objects), key, Touch(Get(old(store.objects), key).value, now)) &&
      store.file == Flushed(store.objects) && (ok <==> store.file.Written?) &&
      store.saveCount == old(store.saveCount) + 1
    ensures store.Valid() && (old(store.Consistent()) ==> store.Consistent())
  {
    var o := Get(store.objects, key).value;
    if Has(o.attrs, "save") {
      return false;
    }
    SetDistinct(store.objects, key, Touch(o, now));
    if store.Consistent() {
      KeysAgreeSet(store.objects, key, o, Touch(o, now));
    }
    store.objects := Set(store.objects, key, Touch(o, now));
    ok := store.Save();
  }

  /** `save` under a clock that does not run backwards keeps `created_at <= updated_at`:
      the new `updated_at` is `now`, and the id, `created_at` and class are untouched. */
  lemma SaveMonotone(o: Obj, created: Stamp, before: Stamp, now: Stamp)
    requires Get(o.attrs, "created_at") == Some(Time(created))
    requires Get(o.attrs, "updated_at") == Some(Time(before))
    requires Le(created, before) && Le(before, now)
    ensures var t := Touch(o, now);
      Get(t.attrs, "created_at") == Some(Time(created)) &&
      Get(t.attrs, "updated_at") == Some(Time(now)) && Le(created, now) &&
      Get(t.attrs, "id") == Get(o.attrs, "id") && t.cls == o.cls
  {
    TouchKeeps(o, now);
    LeTransitive(created, before, now);
  }
}
