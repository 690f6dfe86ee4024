/**
 * The object contract of `BaseModel`: an object is its class and its instance
 * dictionary `__dict__`, in insertion order. Class-level defaults of the
 * entity classes are not part of `__dict__` and so appear nowhere here.
 */
module Models {
  import opened Wrappers
  import opened Dicts
  import opened Timestamps
  import opened PyValues
  import opened Registry

  /** `type(self)` and `self.__dict__` */
  datatype Obj = Obj(cls: ClassName, attrs: Dict<Value>)

  predicate IsStamp(key: string)
  {
    key == "created_at" || key == "updated_at"
  }

  /** `"{}".format(obj.id)`; `None` where `obj.id` raises `AttributeError`. */
  function IdText(o: Obj): Option<string>
  {
    match Get(o.attrs, "id")
    case Some(v) => Some(StrOf(v))
    case None => None
  }

  /** `"{}.{}".format(type(obj).__name__, obj.id)`, the key `FileStorage.new` stores it under. */
  function StoreKey(o: Obj): Option<string>
  {
    match IdText(o)
    case Some(id) => Some(Name(o.cls) + "." + id)
    case None => None
  }

  /** `__init__` without keyword arguments: a minted id and two clock readings, in that order. */
  function Fresh(cls: ClassName, id: string, created: Stamp, updated: Stamp): (o: Obj)
    ensures o.cls == cls && Distinct(o.attrs)
    ensures Keys(o.attrs) == ["id", "created_at", "updated_at"]
    ensures Get(o.attrs, "id") == Some(Str(id)) && StoreKey(o) == Some(Name(cls) + "." + id)
    ensures Get(o.attrs, "created_at") == Some(Time(created))
    ensures Get(o.attrs, "updated_at") == Some(Time(updated))
    ensures !Has(o.attrs, "save") && !Has(o.attrs, "to_dict") && !Has(o.attrs, "self")
  {
    Obj(cls, [("id", Str(id)), ("created_at", Time(created)), ("updated_at", Time(updated))])
  }

  /** `BaseModel.save`'s first step: `self.updated_at = datetime.now()`. */
  function Touch(o: Obj, now: Stamp): Obj
  {
    Obj(o.cls, Set(o.attrs, "updated_at", Time(now)))
  }

  /** `save` moves `updated_at` to `now` and leaves every other attribute, the class and the
      store key alone. */
  lemma TouchKeeps(o: Obj, now: Stamp)
    ensures Touch(o, now).cls == o.cls
    ensures Get(Touch(o, now).attrs, "updated_at") == Some(Time(now))
    ensures forall k :: k != "updated_at" ==> Get(Touch(o, now).attrs, k) == Get(o.attrs, k)
    ensures StoreKey(Touch(o, now)) == StoreKey(o)
  {
    SetGet(o.attrs, "updated_at", Time(now));
  }

  /** `o.to_dict()`: a copy of `__dict__` with `"__class__"` set to the class name and both
      timestamps replaced by their `isoformat()`; `None` where a timestamp is missing
      (`KeyError`) or is not a datetime (`AttributeError`). An instance attribute `to_dict`
      hides the method, and calling it raises `TypeError`: no attribute value is callable. */
  function ToDict(o: Obj): Option<Dict<Value>>
  {
    if Has(o.attrs, "to_dict") then None
    else
      var d: Dict<Value> := Set(o.attrs, "__class__", Str(Name(o.cls)));
      var c, u := Get(d, "created_at"), Get(d, "updated_at");
      if c.Some? && c.value.Time? && u.Some? && u.value.Time? then
        Some(Set(Set(d, "created_at", Str(IsoFormat(c.value.t, 'T'))), "updated_at", Str(IsoFormat(u.value.t, 'T'))))
      else None
  }

  /** What `to_dict` puts under each key: the class name under `"__class__"`, isoformat text
      under the timestamps, the instance's own value under every other key; it fails exactly
      when an instance attribute hides `to_dict` or a timestamp is missing or not a datetime. */
  lemma ToDictContents(o: Obj)
    ensures ToDict(o).Some? <==>
      (!Has(o.attrs, "to_dict") && Get(o.attrs, "created_at").Some? && Get(o.attrs, "created_at").value.Time?
       && Get(o.attrs, "updated_at").Some? && Get(o.attrs, "updated_at").value.Time?)
    ensures ToDict(o).Some? ==>
      var d := ToDict(o).value;
      && Keys(d) == (if Has(o.attrs, "__class__") then Keys(o.attrs) else Keys(o.attrs) + ["__class__"])
      && Get(d, "__class__") == Some(Str(Name(o.cls)))
      && Get(d, "created_at") == Some(Str(IsoFormat(Get(o.attrs, "created_at").value.t, 'T')))
      && Get(d, "updated_at") == Some(Str(IsoFormat(Get(o.attrs, "updated_at").value.t, 'T')))
      && forall k :: k != "__class__" && !IsStamp(k) ==> Get(d, k) == Get(o.attrs, k)
  {
    var d := Set(o.attrs, "__class__", Str(Name(o.cls)));
    SetGet(o.attrs, "__class__", Str(Name(o.cls)));
    if ToDict(o).Some? {
      var c, u := Get(d, "created_at").value.t, Get(d, "updated_at").value.t;
      StampsReplaced(d, IsoFormat(c, 'T'), IsoFormat(u, 'T'));
    }
  }

  /** Overwriting both timestamps keeps the keys and every other entry. */
  lemma StampsReplaced(d: Dict<Value>, cs: string, us: string)
    requires Has(d, "created_at") && Has(d, "updated_at")
    ensures var e := Set(Set(d, "created_at", Str(cs)), "updated_at", Str(us));
      && Keys(e) == Keys(d)
      && Get(e, "created_at") == Some(Str(cs)) && Get(e, "updated_at") == Some(Str(us))
      && forall k :: !IsStamp(k) ==> Get(e, k) == Get(d, k)
  {
    var d1 := Set(d, "created_at", Str(cs));
    SetGet(d, "created_at", Str(cs));
    SetGet(d1, "updated_at", Str(us));
  }

  /** `to_dict` repeats no key when the instance dictionary does not. */
  lemma ToDictDistinct(o: Obj)
    requires Distinct(o.attrs) && ToDict(o).Some?
    ensures Distinct(ToDict(o).value)
  {
    var d := Set(o.attrs, "__class__", Str(Name(o.cls)));
    SetDistinct(o.attrs, "__class__", Str(Name(o.cls)));
    var c, u := Get(d, "created_at").value.t, Get(d, "updated_at").value.t;
    SetDistinct(d, "created_at", Str(IsoFormat(c, 'T')));
    SetDistinct(Set(d, "created_at", Str(IsoFormat(c, 'T'))), "updated_at", Str(IsoFormat(u, 'T')));
  }

  /** `__str__`: `"[<class>] (<id>) <repr of __dict__>"`; `None` where `self.id` raises. */
  function Describe(o: Obj): Option<string>
  {
    match IdText(o)
    case Some(id) => Some("[" + Name(o.cls) + "] (" + id + ") " + Repr(Map(o.attrs)))
    case None => None
  }

  /** The class name a description starts with: the text between the leading `[` and the
      first `]`. */
  function DescribedClass(s: string): Option<string>
  {
    if |s| == 0 || s[0] != '[' then None else ClassPrefix(s[1..])
  }

  function ClassPrefix(s: string): Option<string>
  {
    if s == [] then None
    else if s[0] == ']' then Some("")
    else match ClassPrefix(s[1..])
      case Some(p) => Some([s[0]] + p)
      case None => None
  }

  /** A description names the class of the object it describes. */
  lemma DescribedClassOf(o: Obj)
    requires Describe(o).Some?
    ensures DescribedClass(Describe(o).value) == Some(Name(o.cls))
  {
    var n := Name(o.cls);
    var rest := "] (" + IdText(o).value + ") " + Repr(Map(o.attrs));
    NamePlain(o.cls);
    DescribeShape(n, IdText(o).value, Repr(Map(o.attrs)));
    ClassPrefixOf(n, rest);
    BracketedClass("[" + n + rest, n, rest);
  }

  lemma DescribeShape(n: string, id: string, r: string)
    ensures "[" + n + "] (" + id + ") " + r == "[" + n + ("] (" + id + ") " + r)
  {
  }

  lemma BracketedClass(s: string, n: string, rest: string)
    requires s == "[" + n + rest && ClassPrefix(n + rest) == Some(n)
    ensures DescribedClass(s) == Some(n)
  {
    assert s[1..] == n + rest;
  }

  lemma {:induction false} ClassPrefixOf(n: string, rest: string)
    requires ']' !in n && |rest| > 0 && rest[0] == ']'
    ensures ClassPrefix(n + rest) == Some(n)
  {
    if n != [] {
      assert (n + rest)[0] == n[0] && n[0] != ']';
      assert (n + rest)[1..] == n[1..] + rest;
      ClassPrefixOf(n[1..], rest);
      assert [n[0]] + n[1..] == n;
    } else {
      assert n + rest == rest;
    }
  }

  /** What `__init__` stores for one keyword argument: the two timestamps parsed with
      `strptime`, anything else as given. `None` where `strptime` raises (`TypeError` for
      a non-string, `ValueError` for text that does not match the format). */
  function Adopted(key: string, v: Value): Option<Value>
  {
    if IsStamp(key) then
      match v
      case Str(s) => (match ParseTimestamp(s) case Some(t) => Some(Time(t)) case None => None)
      case _ => None
    else Some(v)
  }

  /** The instance dictionary after `__init__` has walked the first `|kwargs|` keyword
      arguments, in order. */
  function AdoptAll(kwargs: Dict<Value>): Option<Dict<Value>>
  {
    if kwargs == [] then Some([])
    else
      var last := kwargs[|kwargs| - 1];
      match AdoptAll(kwargs[..|kwargs| - 1])
      case None => None
      case Some(acc) =>
        match Adopted(last.0, last.1)
        case None => None
        case Some(v) => Some(Set(acc, last.0, v))
  }

  /** The body of `__init__` for a non-empty `kwargs` (an empty one takes the fresh path). */
  function Initialized(cls: ClassName, kwargs: Dict<Value>): Option<Obj>
    requires kwargs != []
  {
    match AdoptAll(kwargs)
    case Some(a) => Some(Obj(cls, a))
    case None => None
  }

  /** The call `cls(**kwargs)` for a non-empty `kwargs`. Binding the arguments against
      `__init__(self, *args, **kwargs)` raises `TypeError` for a key `self` (a second value
      for `self`) before the body runs. */
  function FromKwargs(cls: ClassName, kwargs: Dict<Value>): Option<Obj>
    requires kwargs != []
  {
    if Has(kwargs, "self") then None else Initialized(cls, kwargs)
  }

  /** `__init__` with keyword arguments (the loop over `kwargs`). It mints no id and does not
      register the object. */
  method Reconstruct(cls: ClassName, kwargs: Dict<Value>) returns (r: Option<Obj>)
    requires kwargs != []
    ensures r == Initialized(cls, kwargs)
  {
    var acc: Dict<Value> := [];
    var i := 0;
    while i < |kwargs|
      invariant 0 <= i <= |kwargs|
      invariant AdoptAll(kwargs[..i]) == Some(acc)
    {
      var (key, v) := kwargs[i];
      var value: Value;
      if key == "created_at" || key == "updated_at" {
        if !v.Str? || ParseTimestamp(v.s).None? {
          AdoptAllFailsAt(kwargs, i);
          return None;
        }
        value := Time(ParseTimestamp(v.s).value);
      } else {
        value := v;
      }
      AdoptAllNext(kwargs, i, acc, value);
      acc := Set(acc, key, value);
      i := i + 1;
    }
    assert kwargs[..i] == kwargs;
    r := Some(Obj(cls, acc));
  }

  /** One more keyword argument: adopt it into what the preceding ones built. */
  lemma AdoptAllStep(kwargs: Dict<Value>, i: nat)
    requires i < |kwargs| && AdoptAll(kwargs[..i]).Some?
    ensures Adopted(kwargs[i].0, kwargs[i].1).None? ==> AdoptAll(kwargs[..i + 1]).None?
    ensures Adopted(kwargs[i].0, kwargs[i].1).Some? ==>
      AdoptAll(kwargs[..i + 1]) ==
        Some(Set(AdoptAll(kwargs[..i]).value, kwargs[i].0, Adopted(kwargs[i].0, kwargs[i].1).value))
  {
    assert kwargs[..i + 1][..i] == kwargs[..i];
  }

  /** The loop step of `Reconstruct`: the argument at `i` is adopted as `value`. */
  lemma AdoptAllNext(kwargs: Dict<Value>, i: nat, acc: Dict<Value>, value: Value)
    requires i < |kwargs| && AdoptAll(kwargs[..i]) == Some(acc)
    requires Adopted(kwargs[i].0, kwargs[i].1) == Some(value)
    ensures AdoptAll(kwargs[..i + 1]) == Some(Set(acc, kwargs[i].0, value))
  {
    AdoptAllStep(kwargs, i);
  }

  /** The failing step of `Reconstruct`: the argument at `i` is a timestamp that does not
      parse. */
  lemma AdoptAllFailsAt(kwargs: Dict<Value>, i: nat)
    requires i < |kwargs| && AdoptAll(kwargs[..i]).Some?
    requires kwargs[i].0 == "created_at" || kwargs[i].0 == "updated_at"
    requires !kwargs[i].1.Str? || ParseTimestamp(kwargs[i].1.s).None?
    ensures AdoptAll(kwargs).None?
  {
    AdoptAllStep(kwargs, i);
    AdoptAllPrefixFails(kwargs, i + 1);
  }

  /** Once one keyword argument fails, construction fails whatever follows it. */
  lemma {:induction false} AdoptAllPrefixFails(kwargs: Dict<Value>, i: nat)
    requires i <= |kwargs| && AdoptAll(kwargs[..i]).None?
    ensures AdoptAll(kwargs).None?
  {
    if i < |kwargs| {
      var n := |kwargs| - 1;
      assert kwargs[..n][..i] == kwargs[..i];
      AdoptAllPrefixFails(kwargs[..n], i);
    } else {
      assert kwargs[..i] == kwargs;
    }
  }

  /** Construction from keyword arguments without repeated keys keeps them in order, one
      attribute per argument, each adopted verbatim except the two parsed timestamps; it
      fails exactly when one of those does not parse. */
  lemma {:induction false} AdoptAllEntries(kwargs: Dict<Value>)
    requires Distinct(kwargs)
    ensures AdoptAll(kwargs).Some? <==> forall i :: 0 <= i < |kwargs| ==> Adopted(kwargs[i].0, kwargs[i].1).Some?
    ensures AdoptAll(kwargs).Some? ==>
      var a := AdoptAll(kwargs).value;
      |a| == |kwargs| && forall i :: 0 <= i < |a| ==> a[i] == (kwargs[i].0, Adopted(kwargs[i].0, kwargs[i].1).value)
  {
    AdoptAllSucceeds(kwargs);
    if AdoptAll(kwargs).Some? {
      AdoptAllContents(kwargs);
    }
  }

  /** Construction fails exactly when some keyword argument cannot be adopted. */
  lemma {:induction false} AdoptAllSucceeds(kwargs: Dict<Value>)
    ensures AdoptAll(kwargs).Some? <==> forall i :: 0 <= i < |kwargs| ==> Adopted(kwargs[i].0, kwargs[i].1).Some?
  {
    if kwargs != [] {
      var n := |kwargs| - 1;
      AdoptAllSucceeds(kwargs[..n]);
      assert forall i :: 0 <= i < n ==> kwargs[..n][i] == kwargs[i];
    }
  }

  /** Without repeated keys, each keyword argument becomes the attribute at its own position. */
  lemma {:induction false} AdoptAllContents(kwargs: Dict<Value>)
    requires Distinct(kwargs) && AdoptAll(kwargs).Some?
    ensures var a := AdoptAll(kwargs).value;
      |a| == |kwargs| &&
      forall i :: 0 <= i < |a| ==> a[i].0 == kwargs[i].0 && Adopted(kwargs[i].0, kwargs[i].1) == Some(a[i].1)
  {
    if kwargs != [] {
      var n := |kwargs| - 1;
      var pre := kwargs[..n];
      assert Distinct(pre) by {
        assert forall i :: 0 <= i < n ==> pre[i] == kwargs[i];
      }
      assert AdoptAll(pre).Some?;
      AdoptAllContents(pre);
      var acc := AdoptAll(pre).value;
      var (k, x) := kwargs[n];
      var v := Adopted(k, x).value;
      AdoptAllStep(kwargs, n);
      assert kwargs[..n + 1] == kwargs;
      assert forall j :: 0 <= j < |acc| ==> acc[j].0 != k;
      SetAbsent(acc, k, v);
      AppendedEntries(kwargs, acc, v);
    }
  }

  /** The last keyword argument appended to what the others built. */
  lemma AppendedEntries(kwargs: Dict<Value>, acc: Dict<Value>, v: Value)
    requires |kwargs| == |acc| + 1 && Adopted(kwargs[|acc|].0, kwargs[|acc|].1) == Some(v)
    requires forall i :: 0 <= i < |acc| ==>
      acc[i].0 == kwargs[i].0 && Adopted(kwargs[i].0, kwargs[i].1) == Some(acc[i].1)
    ensures var a := acc + [(kwargs[|acc|].0, v)];
      forall i :: 0 <= i < |a| ==> a[i].0 == kwargs[i].0 && Adopted(kwargs[i].0, kwargs[i].1) == Some(a[i].1)
  {
  }

  /** An object `to_dict` can write and `cls(**d)` can read back: no repeated attribute, both
      timestamps datetimes with non-zero microseconds (`isoformat` drops a zero fraction,
      which `strptime` with `.%f` then rejects), no `"__class__"` attribute other than its
      own class name, no attribute `to_dict` (which would hide the method) and no attribute
      `self` (which the call cannot bind). */
  predicate Persistable(o: Obj)
  {
    && Distinct(o.attrs)
    && Get(o.attrs, "created_at").Some? && Get(o.attrs, "created_at").value.Time?
    && Get(o.attrs, "created_at").value.t.micro != 0
    && Get(o.attrs, "updated_at").Some? && Get(o.attrs, "updated_at").value.Time?
    && Get(o.attrs, "updated_at").value.t.micro != 0
    && Get(o.attrs, "__class__") in {None, Some(Str(Name(o.cls)))}
    && !Has(o.attrs, "to_dict") && !Has(o.attrs, "self")
  }

  /** The object with its class name recorded as the `"__class__"` attribute, which is what
      construction from a `to_dict` mapping yields. */
  function Tagged(o: Obj): Obj
  {
    Obj(o.cls, Set(o.attrs, "__class__", Str(Name(o.cls))))
  }

  /** Round trip of the object contract: constructing from `to_dict(o)` gives `o` back with
      the same id, timestamps and fields (plus its `"__class__"` attribute), and that object's
      `to_dict` is `to_dict(o)` again. */
  lemma ToDictRoundTrip(o: Obj)
    requires Persistable(o)
    ensures ToDict(o).Some? && Has(ToDict(o).value, "__class__")
    ensures FromKwargs(o.cls, ToDict(o).value) == Some(Tagged(o))
    ensures ToDict(Tagged(o)) == ToDict(o)
  {
    var t := Tagged(o).attrs;
    SetGet(o.attrs, "__class__", Str(Name(o.cls)));
    SetDistinct(o.attrs, "__class__", Str(Name(o.cls)));
    StampsReadBack(t);
    SetSame(t, "__class__", Str(Name(o.cls)));
    ToDictNames(o);
  }

  /** `to_dict` adds `"__class__"` and no other key: a key `self` is there only when the
      instance has one. */
  lemma ToDictNames(o: Obj)
    requires ToDict(o).Some? && !Has(o.attrs, "self")
    ensures Has(ToDict(o).value, "__class__") && !Has(ToDict(o).value, "self")
  {
    var d := Set(o.attrs, "__class__", Str(Name(o.cls)));
    var c, u := Get(d, "created_at").value.t, Get(d, "updated_at").value.t;
    StampedNames(o.attrs, Str(Name(o.cls)), Str(IsoFormat(c, 'T')), Str(IsoFormat(u, 'T')));
  }

  /** The keys `to_dict` assigns are `"__class__"` and the two timestamps. */
  lemma StampedNames(d: Dict<Value>, a: Value, b: Value, c: Value)
    ensures var e := Set(Set(Set(d, "__class__", a), "created_at", b), "updated_at", c);
      Has(e, "__class__") && (Has(e, "self") <==> Has(d, "self"))
  {
    var d1 := Set(d, "__class__", a);
    var d2 := Set(d1, "created_at", b);
    SetHas(d, "__class__", a, "__class__");
    SetHas(d1, "created_at", b, "__class__");
    SetHas(d2, "updated_at", c, "__class__");
    SetHas(d, "__class__", a, "self");
    SetHas(d1, "created_at", b, "self");
    SetHas(d2, "updated_at", c, "self");
  }

  /** Replacing both datetimes of an instance dictionary by their `isoformat` text and
      adopting the result as keyword arguments restores the dictionary. */
  lemma StampsReadBack(t: Dict<Value>)
    requires Distinct(t)
    requires Get(t, "created_at").Some? && Get(t, "created_at").value.Time?
    requires Get(t, "created_at").value.t.micro != 0
    requires Get(t, "updated_at").Some? && Get(t, "updated_at").value.Time?
    requires Get(t, "updated_at").value.t.micro != 0
    ensures AdoptAll(Set(Set(t, "created_at", Str(IsoFormat(Get(t, "created_at").value.t, 'T'))),
                         "updated_at", Str(IsoFormat(Get(t, "updated_at").value.t, 'T')))) == Some(t)
  {
    var c, u := Get(t, "created_at").value.t, Get(t, "updated_at").value.t;
    var ic, iu := Find(t, "created_at").value, Find(t, "updated_at").value;
    var d1 := Set(t, "created_at", Str(IsoFormat(c, 'T')));
    var d := Set(d1, "updated_at", Str(IsoFormat(u, 'T')));
    assert d1 == t[ic := ("created_at", Str(IsoFormat(c, 'T')))];
    FindAt(d1, "updated_at", iu);
    assert d == d1[iu := ("updated_at", Str(IsoFormat(u, 'T')))];
    IsoFormatRoundTrip(c);
    IsoFormatRoundTrip(u);
    forall i | 0 <= i < |d| ensures d[i].0 == t[i].0 && Adopted(d[i].0, d[i].1) == Some(t[i].1) {
      if i != ic && i != iu {
        assert d[i] == t[i];
        assert t[i].0 != t[ic].0 && t[i].0 != t[iu].0;
      }
    }
    SetDistinct(t, "created_at", Str(IsoFormat(c, 'T')));
    SetDistinct(d1, "updated_at", Str(IsoFormat(u, 'T')));
    AdoptAllIs(d, t);
  }

  /** Keyword arguments that adopt, key by key, into the entries of `t` construct `t`. */
  lemma AdoptAllIs(d: Dict<Value>, t: Dict<Value>)
    requires Distinct(d) && |d| == |t|
    requires forall i :: 0 <= i < |d| ==> d[i].0 == t[i].0 && Adopted(d[i].0, d[i].1) == Some(t[i].1)
    ensures AdoptAll(d) == Some(t)
  {
    AdoptAllSucceeds(d);
    AdoptAllContents(d);
    var a := AdoptAll(d).value;
    forall i | 0 <= i < |a| ensures a[i] == t[i] {
      assert a[i].0 == t[i].0;
      assert Some(a[i].1) == Some(t[i].1);
    }
    assert a == t;
  }
}
