/**
 * `FileStorage`: the object table, keyed `"<Type>.<id>"` in insertion order,
 * and the JSON document it is flushed to and reloaded from. The document is
 * kept as the mapping `json.dump` writes; the file either does not exist, holds
 * such a document, or is corrupt (truncated by a flush that raised).
 */
module Storage {
  import opened Wrappers
  import opened Dicts
  import opened PyValues
  import opened Registry
  import opened Models

  /** The state of `file.json`. */
  datatype FileState = Absent | Corrupt | Written(doc: Dict<Dict<Value>>)

  datatype ReloadOutcome = NoFile | Loaded | Failed

  /** `{k: v.to_dict() for k, v in objects.items()}`; `None` where some `to_dict` raises. */
  function DocOf(objs: Dict<Obj>): (r: Option<Dict<Dict<Value>>>)
    ensures r.Some? ==> |r.value| == |objs|
    ensures r.Some? ==> forall i :: 0 <= i < |objs| ==>
      r.value[i].0 == objs[i].0 && ToDict(objs[i].1) == Some(r.value[i].1)
    ensures r.None? ==> exists i :: 0 <= i < |objs| && ToDict(objs[i].1).None?
  {
    if objs == [] then Some([])
    else
      var d, rest := ToDict(objs[0].1), DocOf(objs[1..]);
      assert forall i :: 1 <= i < |objs| ==> objs[1..][i - 1] == objs[i];
      if d.Some? && rest.Some? then Some([(objs[0].0, d.value)] + rest.value) else None
  }

  /** Whether `json.dump` can write every value of the document. */
  predicate DocEncodable(doc: Dict<Dict<Value>>)
  {
    forall i, j :: 0 <= i < |doc| && 0 <= j < |doc[i].1| ==> Encodable(doc[i].1[j].1)
  }

  /** The file after `save()`: the file is opened for writing (truncated) before the mapping is
      built and dumped, so a `to_dict` that raises or a value `json.dump` cannot write leaves
      it corrupt. */
  function Flushed(objs: Dict<Obj>): FileState
  {
    match DocOf(objs)
    case Some(doc) => if DocEncodable(doc) then Written(doc) else Corrupt
    case None => Corrupt
  }

  /** The class a document entry names under `"__class__"`; `None` where
      `classes()[v["__class__"]]` raises. */
  function ClassOfEntry(v: Dict<Value>): Option<ClassName>
  {
    var tag: Option<Value> := Get(v, "__class__");
    if tag.Some? && tag.value.Str? then ClassNamed(tag.value.s) else None
  }

  /** One entry of the reload comprehension: `classes()[v["__class__"]](**v)`. */
  function LoadEntry(v: Dict<Value>): Option<Obj>
  {
    match ClassOfEntry(v)
    case Some(c) => FromKwargs(c, v)
    case None => None
  }

  /** `{k: classes()[v["__class__"]](**v) for k, v in doc.items()}`; `None` where any entry
      raises, in which case no table is produced at all. */
  function LoadDoc(doc: Dict<Dict<Value>>): (r: Option<Dict<Obj>>)
    ensures r.Some? ==> |r.value| == |doc|
    ensures r.Some? ==> forall i :: 0 <= i < |doc| ==>
      r.value[i].0 == doc[i].0 && LoadEntry(doc[i].1) == Some(r.value[i].1)
    ensures r.None? <==> exists i :: 0 <= i < |doc| && LoadEntry(doc[i].1).None?
  {
    if doc == [] then Some([])
    else
      var rest := LoadDoc(doc[1..]);
      assert forall i :: 1 <= i < |doc| ==> doc[1..][i - 1] == doc[i];
      match LoadEntry(doc[0].1)
      case Some(o) => (match rest case Some(t) => Some([(doc[0].0, o)] + t) case None => None)
      case None => None
  }

  predicate HasPrefix(s: string, p: string)
  {
    |p| <= |s| && s[..|p|] == p
  }

  /** Every key starts with the name of its object's class and a dot. */
  predicate KeysAgree(objs: Dict<Obj>)
  {
    forall i :: 0 <= i < |objs| ==> HasPrefix(objs[i].0, Name(objs[i].1.cls) + ".")
  }

  /** Every document entry names a registered class under `"__class__"` and its key starts with
      that name and a dot. */
  predicate DocAgrees(doc: Dict<Dict<Value>>)
  {
    forall i :: 0 <= i < |doc| ==>
      ClassOfEntry(doc[i].1).Some? && HasPrefix(doc[i].0, Name(ClassOfEntry(doc[i].1).value) + ".")
  }

  /** The class name tagged onto every saved entry is the class of the saved object. */
  lemma ClassOfSaved(o: Obj)
    requires ToDict(o).Some?
    ensures ClassOfEntry(ToDict(o).value) == Some(o.cls)
  {
    ToDictContents(o);
  }

  /** Saving a table whose keys agree with their classes writes a document that agrees too. */
  lemma SaveAgrees(objs: Dict<Obj>)
    requires KeysAgree(objs) && DocOf(objs).Some?
    ensures DocAgrees(DocOf(objs).value)
  {
    var doc := DocOf(objs).value;
    forall i | 0 <= i < |doc| ensures ClassOfEntry(doc[i].1) == Some(objs[i].1.cls) {
      ClassOfSaved(objs[i].1);
    }
  }

  /** Reloading a document that agrees gives a table whose keys agree. */
  lemma LoadAgrees(doc: Dict<Dict<Value>>)
    requires DocAgrees(doc) && LoadDoc(doc).Some?
    ensures KeysAgree(LoadDoc(doc).value)
  {
  }

  class Store {
    /** `FileStorage.__objects` */
    var objects: Dict<Obj>
    /** `file.json` */
    var file: FileState
    /** How many times `save()` has run. */
    ghost var saveCount: nat

    /** The table and the document never repeat a key (both are Python dictionaries). */
    ghost predicate Valid()
      reads this
    {
      Distinct(objects) && (file.Written? ==> Distinct(file.doc))
    }

    /** Keys agree with classes, in the table and in the document on disk. */
    ghost predicate Consistent()
      reads this
    {
      KeysAgree(objects) && (file.Written? ==> DocAgrees(file.doc))
    }

    /** A store at start-up, before `reload()`: no objects, and whatever file is on disk. */
    constructor (onDisk: FileState)
      requires onDisk.Written? ==> Distinct(onDisk.doc)
      ensures Valid() && objects == [] && file == onDisk && saveCount == 0
    {
      objects := [];
      file := onDisk;
      saveCount := 0;
    }

    /** `all()`: the live table itself; handlers read it and change it through this store. */
    function All(): Dict<Obj>
      reads this
    {
      objects
    }

    /** `new(obj)`: store `obj` under `"<Type>.<id>"`, replacing any object already there. */
    method New(o: Obj)
      requires Valid() && StoreKey(o).Some?
      modifies this
      ensures Valid()
      ensures objects == Set(old(objects), StoreKey(o).value, o)
      ensures file == old(file) && saveCount == old(saveCount)
      ensures old(Consistent()) ==> Consistent()
    {
      var key := StoreKey(o).value;
      SetDistinct(objects, key, o);
      SetGet(objects, key, o);
      objects := Set(objects, key, o);
      assert HasPrefix(key, Name(o.cls) + ".");
    }

    /** `save()`: write `{k: v.to_dict()}` over the file. Answers whether it completed without
        raising; the table itself is not touched. */
    method Save() returns (ok: bool)
      requires Valid()
      modifies this
      ensures Valid()
      ensures objects == old(objects) && file == Flushed(objects)
      ensures saveCount == old(saveCount) + 1
      ensures ok <==> file.Written?
      ensures old(Consistent()) ==> Consistent()
    {
      file := Flushed(objects);
      saveCount := saveCount + 1;
      if file.Written? {
        DocDistinct(objects);
        if KeysAgree(objects) {
          SaveAgrees(objects);
        }
      }
      ok := file.Written?;
    }

    /** `reload()`: no file is a no-op; otherwise the whole document is rebuilt into objects and
        replaces the table wholesale. A corrupt file (`json.load` raises) or an entry that
        cannot be rebuilt aborts before the table is assigned, so the table is untouched. */
    method Reload() returns (r: ReloadOutcome)
      requires Valid()
      modifies this
      ensures Valid()
      ensures file == old(file) && saveCount == old(saveCount)
      ensures file.Absent? ==> r == NoFile && objects == old(objects)
      ensures file.Corrupt? ==> r == Failed && objects == old(objects)
      ensures file.Written? && LoadDoc(file.doc).None? ==> r == Failed && objects == old(objects)
      ensures file.Written? && LoadDoc(file.doc).Some? ==> r == Loaded && objects == LoadDoc(file.doc).value
      ensures old(Consistent()) ==> Consistent()
    {
      match file
      case Absent => r := NoFile;
      case Corrupt => r := Failed;
      case Written(doc) =>
        var loaded := LoadDoc(doc);
        if loaded.None? {
          r := Failed;
        } else {
          LoadDistinct(doc);
          if DocAgrees(doc) {
            LoadAgrees(doc);
          }
          objects := loaded.value;
          r := Loaded;
        }
    }
  }

  /** A saved document has the table's keys. */
  lemma DocDistinct(objs: Dict<Obj>)
    requires Distinct(objs) && DocOf(objs).Some?
    ensures Distinct(DocOf(objs).value) && Keys(DocOf(objs).value) == Keys(objs)
  {
  }

  /** A reloaded table has the document's keys. */
  lemma LoadDistinct(doc: Dict<Dict<Value>>)
    requires Distinct(doc) && LoadDoc(doc).Some?
    ensures Distinct(LoadDoc(doc).value) && Keys(LoadDoc(doc).value) == Keys(doc)
  {
  }

  /** An object that survives a save and a reload: persistable, and holding no datetime
      outside its two timestamps. */
  predicate Savable(o: Obj)
  {
    Persistable(o) && forall i :: 0 <= i < |o.attrs| && !IsStamp(o.attrs[i].0) ==> Encodable(o.attrs[i].1)
  }

  /** Every object of the table with its class name recorded as `"__class__"`. */
  function TaggedAll(objs: Dict<Obj>): (r: Dict<Obj>)
    ensures |r| == |objs| && forall i :: 0 <= i < |objs| ==> r[i] == (objs[i].0, Tagged(objs[i].1))
  {
    seq(|objs|, i requires 0 <= i < |objs| => (objs[i].0, Tagged(objs[i].1)))
  }

  /** `to_dict` of a savable object holds only values `json.dump` can write. */
  lemma SavedEncodable(o: Obj)
    requires Savable(o)
    ensures ToDict(o).Some? && forall j :: 0 <= j < |ToDict(o).value| ==> Encodable(ToDict(o).value[j].1)
  {
    ToDictRoundTrip(o);
    ToDictContents(o);
    ToDictDistinct(o);
    var d := ToDict(o).value;
    forall j | 0 <= j < |d| ensures Encodable(d[j].1) {
      EncodableAt(o, d, j);
    }
  }

  /** One entry of the `to_dict` of a savable object: the class name and the two timestamps
      are strings, and every other entry comes from the instance dictionary. */
  lemma EncodableAt(o: Obj, d: Dict<Value>, j: nat)
    requires Savable(o) && Distinct(d) && j < |d|
    requires Get(d, "__class__") == Some(Str(Name(o.cls)))
    requires Get(d, "created_at").Some? && Get(d, "created_at").value.Str?
    requires Get(d, "updated_at").Some? && Get(d, "updated_at").value.Str?
    requires forall k :: k != "__class__" && !IsStamp(k) ==> Get(d, k) == Get(o.attrs, k)
    ensures Encodable(d[j].1)
  {
    var k := d[j].0;
    GetAt(d, j);
    if k != "__class__" && !IsStamp(k) {
      var m := Find(o.attrs, k).value;
      assert o.attrs[m].1 == d[j].1;
    }
  }

  /** Saving a table of savable objects completes and writes its document. */
  lemma SaveWrites(objs: Dict<Obj>)
    requires forall i :: 0 <= i < |objs| ==> Savable(objs[i].1)
    ensures DocOf(objs).Some? && Flushed(objs) == Written(DocOf(objs).value)
  {
    forall i | 0 <= i < |objs| ensures ToDict(objs[i].1).Some? {
      ToDictRoundTrip(objs[i].1);
    }
    var doc := DocOf(objs).value;
    forall i, j | 0 <= i < |doc| && 0 <= j < |doc[i].1| ensures Encodable(doc[i].1[j].1) {
      SavedEncodable(objs[i].1);
    }
  }

  /** Round trip of persistence: saving a table of savable objects writes a document, reloading
      that document rebuilds exactly those keys in the same order, each object with the same
      class, id, timestamps and fields (plus its `"__class__"` attribute), and saving the
      reloaded table writes the same document again. */
  lemma SaveReloadRoundTrip(objs: Dict<Obj>)
    requires forall i :: 0 <= i < |objs| ==> Savable(objs[i].1)
    ensures DocOf(objs).Some? && Flushed(objs) == Written(DocOf(objs).value)
    ensures LoadDoc(DocOf(objs).value) == Some(TaggedAll(objs))
    ensures DocOf(TaggedAll(objs)) == DocOf(objs)
  {
    SaveWrites(objs);
    var doc := DocOf(objs).value;
    forall i | 0 <= i < |doc| ensures LoadEntry(doc[i].1) == Some(Tagged(objs[i].1)) {
      ClassOfSaved(objs[i].1);
      ToDictRoundTrip(objs[i].1);
    }
    ReloadedIsTagged(objs, doc);
    SaveTaggedSame(objs);
  }

  lemma ReloadedIsTagged(objs: Dict<Obj>, doc: Dict<Dict<Value>>)
    requires |doc| == |objs|
    requires forall i :: 0 <= i < |doc| ==> doc[i].0 == objs[i].0 && LoadEntry(doc[i].1) == Some(Tagged(objs[i].1))
    ensures LoadDoc(doc) == Some(TaggedAll(objs))
  {
    var t := TaggedAll(objs);
    forall i | 0 <= i < |doc| ensures doc[i].0 == t[i].0 && LoadEntry(doc[i].1) == Some(t[i].1) {
      assert t[i] == (objs[i].0, Tagged(objs[i].1));
    }
    LoadDocOf(doc, t);
  }

  /** A document whose entries each rebuild into the matching entry of `t` reloads as `t`. */
  lemma {:induction false} LoadDocOf(doc: Dict<Dict<Value>>, t: Dict<Obj>)
    requires |doc| == |t|
    requires forall i :: 0 <= i < |doc| ==> doc[i].0 == t[i].0 && LoadEntry(doc[i].1) == Some(t[i].1)
    ensures LoadDoc(doc) == Some(t)
  {
    if doc != [] {
      LoadDocOf(doc[1..], t[1..]);
      assert t == [(doc[0].0, t[0].1)] + t[1..];
    }
  }

  /** Tables with the same keys whose objects have the same `to_dict` save the same document. */
  lemma {:induction false} DocOfSame(a: Dict<Obj>, b: Dict<Obj>)
    requires |a| == |b|
    requires forall i :: 0 <= i < |a| ==> a[i].0 == b[i].0 && ToDict(a[i].1) == ToDict(b[i].1)
    ensures DocOf(a) == DocOf(b)
  {
    if a != [] {
      DocOfSame(a[1..], b[1..]);
    }
  }

  /** Saving the reloaded table writes the document the original table wrote. */
  lemma SaveTaggedSame(objs: Dict<Obj>)
    requires forall i :: 0 <= i < |objs| ==> Savable(objs[i].1)
    ensures DocOf(TaggedAll(objs)) == DocOf(objs)
  {
    var tagged := TaggedAll(objs);
    forall i | 0 <= i < |tagged| ensures ToDict(tagged[i].1) == ToDict(objs[i].1) {
      ToDictRoundTrip(objs[i].1);
    }
    DocOfSame(tagged, objs);
  }
}
