/**
 * The command interpreter `HBNBCommand`: the verb handlers `create`, `show`,
 * `destroy`, `all`, `count` and `update`, `update_dict`, and the path from an
 * input line through `onecmd`, `default` and `_precmd` to a handler.
 *
 * A handler's effect is what it prints and how it leaves the store; an
 * exception that escapes a handler ends the command loop and is the outcome
 * `Crash`.
 */
module Console {
  import opened Wrappers
  import opened Dicts
  import opened Decimal
  import opened Timestamps
  import opened PyValues
  import opened Registry
  import opened Models
  import opened Storage
  import opened Lifecycle
  import opened Parsing

  /** The six messages a handler prints when a check fails. */
  datatype Error = ClassNameMissing | NoSuchClass | IdMissing | NoSuchInstance | AttrNameMissing
                 | ValueMissing

  function Message(e: Error): string
  {
    match e
    case ClassNameMissing => "** class name missing **"
    case NoSuchClass => "** class doesn't exist **"
    case IdMissing => "** instance id missing **"
    case NoSuchInstance => "** no instance found **"
    case AttrNameMissing => "** attribute name missing **"
    case ValueMissing => "** value missing **"
  }

  /** What one command does: the lines it prints, the loop going on; an exception, which ends
      the loop; the lines it prints, the loop stopping (`EOF`, `quit`); or `help` on a topic,
      which `cmd.Cmd` answers. */
  datatype Outcome = Done(printed: seq<string>) | Crash | Stop(printed: seq<string>) | Help(topic: string)

  function Report(e: Error): Outcome
  {
    Done([Message(e)])
  }

  /** Whether a word is a key of `classes()` (the same test, by `RegistryKeys`). */
  predicate IsClass(w: string)
  {
    ClassNamed(w).Some?
  }

  // ---------------------------------------------------------------- show and destroy

  /** The result of the checks `show` and `destroy` share. */
  datatype Lookup = Rejected(e: Error) | Found(key: string)

  /** The chain of checks in `do_show` and `do_destroy`, in order: class name missing, class
      doesn't exist, instance id missing, no instance found; otherwise the key
      `"<class>.<id>"` of the first two words, which is in the table. */
  function Locate(objs: Dict<Obj>, line: string): (r: Lookup)
    ensures r == Rejected(ClassNameMissing) <==> line == ""
    ensures r == Rejected(NoSuchClass) <==> line != "" && !IsClass(SplitSpace(line)[0])
    ensures r == Rejected(IdMissing) <==>
      line != "" && IsClass(SplitSpace(line)[0]) && |SplitSpace(line)| < 2
    ensures r == Rejected(NoSuchInstance) <==>
      line != "" && IsClass(SplitSpace(line)[0]) && |SplitSpace(line)| >= 2 &&
      !Has(objs, SplitSpace(line)[0] + "." + SplitSpace(line)[1])
    ensures r.Found? ==>
      |SplitSpace(line)| >= 2 && IsClass(SplitSpace(line)[0]) &&
      r.key == SplitSpace(line)[0] + "." + SplitSpace(line)[1] && Has(objs, r.key)
    ensures r.Rejected? ==> r.e in {ClassNameMissing, NoSuchClass, IdMissing, NoSuchInstance}
  {
    if line == "" then Rejected(ClassNameMissing)
    else
      var words := SplitSpace(line);
      if !IsClass(words[0]) then Rejected(NoSuchClass)
      else if |words| < 2 then Rejected(IdMissing)
      else
        var key := words[0] + "." + words[1];
        if !Has(objs, key) then Rejected(NoSuchInstance) else Found(key)
  }

  /** `do_show`: the failed check's message, or `str()` of the object found. */
  function Show(objs: Dict<Obj>, line: string): (out: Outcome)
    ensures Locate(objs, line).Rejected? ==> out == Report(Locate(objs, line).e)
    ensures Locate(objs, line).Found? ==>
      var o := Get(objs, Locate(objs, line).key).value;
      out == if Describe(o).Some? then Done([Describe(o).value]) else Crash
  {
    match Locate(objs, line)
    case Rejected(e) => Report(e)
    case Found(key) =>
      match Describe(Get(objs, key).value)
      case Some(s) => Done([s])
      case None => Crash
  }

  // ---------------------------------------------------------------- all and count

  /** The entries whose object is of the class named `name`, in table order. */
  function OfType(objs: Dict<Obj>, name: string): (r: Dict<Obj>)
    ensures |r| <= |objs|
    ensures forall i :: 0 <= i < |r| ==> Name(r[i].1.cls) == name
    ensures (forall i :: 0 <= i < |objs| ==> Name(objs[i].1.cls) == name) ==> r == objs
  {
    if objs == [] then []
    else (if Name(objs[0].1.cls) == name then [objs[0]] else []) + OfType(objs[1..], name)
  }

  /** The filter keeps every entry of the class and only entries of the table. */
  lemma {:induction false} OfTypeMembers(objs: Dict<Obj>, name: string)
    ensures forall i :: 0 <= i < |objs| && Name(objs[i].1.cls) == name ==> objs[i] in OfType(objs, name)
    ensures forall e :: e in OfType(objs, name) ==> e in objs
    decreases |objs|
  {
    if objs != [] {
      OfTypeMembers(objs[1..], name);
      assert forall i :: 1 <= i < |objs| ==> objs[1..][i - 1] == objs[i];
    }
  }

  /** The filter keeps table order: on two runs of entries it is the filter of the first run
      followed by the filter of the second. */
  lemma {:induction false} OfTypeAppend(xs: Dict<Obj>, ys: Dict<Obj>, name: string)
    ensures OfType(xs + ys, name) == OfType(xs, name) + OfType(ys, name)
    decreases |xs|
  {
    if xs == [] {
      assert xs + ys == ys;
    } else {
      var e, rest := xs[0], xs[1..];
      assert xs == [e] + rest;
      assert xs + ys == [e] + (rest + ys);
      OfTypeCons(e, rest + ys, name);
      OfTypeCons(e, rest, name);
      OfTypeAppend(rest, ys, name);
      Associative(OfType([e], name), OfType(rest, name), OfType(ys, name));
    }
  }

  /** The filter of a table with one more entry in front. */
  lemma OfTypeCons(e: (string, Obj), rest: Dict<Obj>, name: string)
    ensures OfType([e] + rest, name) == OfType([e], name) + OfType(rest, name)
  {
    assert ([e] + rest)[0] == e && ([e] + rest)[1..] == rest;
    assert [e][1..] == [];
  }

  lemma Associative<T>(a: seq<T>, b: seq<T>, c: seq<T>)
    ensures a + (b + c) == (a + b) + c
  {
  }

  /** On one entry the filter keeps that entry exactly when its object is of the class. */
  lemma OfTypeOne(e: (string, Obj), name: string)
    ensures OfType([e], name) == if Name(e.1.cls) == name then [e] else []
  {
    assert [e][1..] == [];
  }

  /** `[str(obj) for obj in objs.values()]`; `None` where some `str()` raises. */
  function DescribeAll(objs: Dict<Obj>): (r: Option<seq<string>>)
    ensures r.Some? ==> |r.value| == |objs|
    ensures r.Some? ==> forall i :: 0 <= i < |objs| ==> Describe(objs[i].1) == Some(r.value[i])
    ensures r.None? ==> exists i :: 0 <= i < |objs| && Describe(objs[i].1).None?
  {
    if objs == [] then Some([])
    else
      var d, rest := Describe(objs[0].1), DescribeAll(objs[1..]);
      assert forall i :: 1 <= i < |objs| ==> objs[1..][i - 1] == objs[i];
      if d.Some? && rest.Some? then Some([d.value] + rest.value) else None
  }

  /** `print(lst)` of a list of strings: its `repr`. */
  function PrintList(objs: Dict<Obj>): Outcome
  {
    match DescribeAll(objs)
    case Some(ss) => Done([Repr(List(seq(|ss|, i requires 0 <= i < |ss| => Str(ss[i]))))])
    case None => Crash
  }

  /** `do_all`: with an argument, only the objects of the class its first word names (or the
      message that no such class exists); without one, every object. */
  function All(objs: Dict<Obj>, line: string): (out: Outcome)
    ensures line == "" ==> out == PrintList(objs)
    ensures line != "" && !IsClass(SplitSpace(line)[0]) ==> out == Report(NoSuchClass)
    ensures line != "" && IsClass(SplitSpace(line)[0]) ==>
      out == PrintList(OfType(objs, SplitSpace(line)[0]))
  {
    if line != "" then
      var words := SplitSpace(line);
      if !IsClass(words[0]) then Report(NoSuchClass) else PrintList(OfType(objs, words[0]))
    else PrintList(objs)
  }

  /** The number of keys that start with `p`. */
  function CountPrefix(objs: Dict<Obj>, p: string): (n: nat)
    ensures n <= |objs|
  {
    if objs == [] then 0
    else (if HasPrefix(objs[0].0, p) then 1 else 0) + CountPrefix(objs[1..], p)
  }

  /** `do_count`: class name missing when the first word is empty, class doesn't exist when it
      names no class, otherwise the number of keys that start with that word and a dot. */
  function Count(objs: Dict<Obj>, line: string): (out: Outcome)
    ensures SplitSpace(line)[0] == "" ==> out == Report(ClassNameMissing)
    ensures SplitSpace(line)[0] != "" && !IsClass(SplitSpace(line)[0]) ==> out == Report(NoSuchClass)
    ensures IsClass(SplitSpace(line)[0]) ==>
      out == Done([NatToString(CountPrefix(objs, SplitSpace(line)[0] + "."))])
  {
    var words := SplitSpace(line);
    if words[0] == "" then Report(ClassNameMissing)
    else if !IsClass(words[0]) then Report(NoSuchClass)
    else Done([NatToString(CountPrefix(objs, words[0] + "."))])
  }

  /** Two class names followed by a dot cannot both start the same key unless they are the
      same name, since no class name holds a dot. */
  lemma DotPrefixUnique(key: string, a: string, b: string)
    requires '.' !in a && '.' !in b
    requires HasPrefix(key, a + ".") && HasPrefix(key, b + ".")
    ensures a == b
  {
    BeforeDot(key, a);
    BeforeDot(key, b);
  }

  /** A name without a dot, followed by a dot, is what precedes a key's first dot. */
  lemma BeforeDot(key: string, a: string)
    requires '.' !in a && HasPrefix(key, a + ".")
    ensures IndexOf(key, '.', 0) == |a| && key[..|a|] == a
  {
    assert key[..|a| + 1] == a + ".";
    assert forall i :: 0 <= i <= |a| ==> key[i] == (a + ".")[i];
    IndexOfFirst(key, '.', 0, |a|);
    assert key[..|a|] == (a + ".")[..|a|];
  }

  /** Under the key invariant a key starts with `"<C>."` exactly when its object is a `C`. */
  lemma KeyNamesClass(key: string, o: Obj, c: ClassName)
    requires HasPrefix(key, Name(o.cls) + ".")
    ensures HasPrefix(key, Name(c) + ".") <==> o.cls == c
  {
    NamePlain(c);
    NamePlain(o.cls);
    if HasPrefix(key, Name(c) + ".") {
      DotPrefixUnique(key, Name(c), Name(o.cls));
    }
  }

  /** Given the key invariant, `count C` counts exactly the objects `all C` lists. */
  lemma {:induction false} CountIsAll(objs: Dict<Obj>, c: ClassName)
    requires KeysAgree(objs)
    ensures CountPrefix(objs, Name(c) + ".") == |OfType(objs, Name(c))|
  {
    if objs != [] {
      KeyNamesClass(objs[0].0, objs[0].1, c);
      assert KeysAgree(objs[1..]) by {
        assert forall i :: 1 <= i < |objs| ==> objs[1..][i - 1] == objs[i];
      }
      CountIsAll(objs[1..], c);
    }
  }

  // ---------------------------------------------------------------- create and destroy

  /** `do_create`: class name missing, class doesn't exist, or a new object built with the
      minted `id` and clock readings `t1`, `t2`, registered, then saved (a third reading `t3`
      becomes its `updated_at`), and its id printed. */
  method Create(store: Store, line: string, id: string, t1: Stamp, t2: Stamp, t3: Stamp)
    returns (out: Outcome)
    requires store.Valid()
    modifies store
    ensures store.Valid() && (old(store.Consistent()) ==> store.Consistent())
    ensures line == "" ==>
      out == Report(ClassNameMissing) && store.objects == old(store.objects) &&
      store.file == old(store.file) && store.saveCount == old(store.saveCount)
    ensures line != "" && !IsClass(line) ==>
      out == Report(NoSuchClass) && store.objects == old(store.objects) &&
      store.file == old(store.file) && store.saveCount == old(store.saveCount)
    ensures IsClass(line) ==>
      var o := Touch(Fresh(ClassNamed(line).value, id, t1, t2), t3);
      store.objects == Set(old(store.objects), line + "." + id, o) &&
      store.file == Flushed(store.objects) && store.saveCount == old(store.saveCount) + 1 &&
      out == if store.file.Written? then Done([id]) else Crash
  {
    if line == "" {
      out := Report(ClassNameMissing);
    } else if !IsClass(line) {
      out := Report(NoSuchClass);
    } else {
      var cls := ClassNamed(line).value;
      var b := Init(store, cls, id, t1, t2);
      var key := Name(cls) + "." + id;
      SetGet(old(store.objects), key, b);
      SetTwice(old(store.objects), key, b, Touch(b, t3));
      var ok := SaveModel(store, key, t3);
      out := if ok then Done([id]) else Crash;
    }
  }

  /** When the id is new, `create` adds exactly one key, `"<C>.<id>"`, at the end of the table,
      and every other key keeps its object. */
  lemma CreateAddsOne(objs: Dict<Obj>, key: string, o: Obj)
    requires !Has(objs, key)
    ensures Keys(Set(objs, key, o)) == Keys(objs) + [key] && |Set(objs, key, o)| == |objs| + 1
    ensures Get(Set(objs, key, o), key) == Some(o)
    ensures forall k :: k != key ==> Get(Set(objs, key, o), k) == Get(objs, k)
  {
    SetGet(objs, key, o);
  }

  /** After `create C` with a new id that holds no space, `show C <id>` finds the object. */
  lemma CreateThenShow(objs: Dict<Obj>, c: ClassName, id: string, o: Obj)
    requires id != "" && NoneIs(id, ' ')
    ensures Show(Set(objs, Name(c) + "." + id, o), Name(c) + " " + id) ==
      if Describe(o).Some? then Done([Describe(o).value]) else Crash
  {
    var line := Name(c) + " " + id;
    NamePlain(c);
    assert NoneIs(Name(c), ' ');
    JoinSplit([Name(c), id]);
    assert JoinSpace([Name(c), id]) == line;
    SetGet(objs, Name(c) + "." + id, o);
  }

  /** Deleting an entry keeps every key in agreement with its class. */
  lemma KeysAgreeRemove(objs: Dict<Obj>, key: string)
    requires KeysAgree(objs)
    ensures KeysAgree(Remove(objs, key))
  {
    var r := Remove(objs, key);
    match Find(objs, key)
    case None =>
    case Some(i) =>
      assert forall j :: 0 <= j < |r| ==> r[j] == (if j < i then objs[j] else objs[j + 1]);
  }

  /** `do_destroy`: the failed check's message with nothing changed, or the entry found is
      deleted from the live table and the table saved. */
  method Destroy(store: Store, line: string) returns (out: Outcome)
    requires store.Valid()
    modifies store
    ensures store.Valid() && (old(store.Consistent()) ==> store.Consistent())
    ensures Locate(old(store.objects), line).Rejected? ==>
      out == Report(Locate(old(store.objects), line).e) && store.objects == old(store.objects) &&
      store.file == old(store.file) && store.saveCount == old(store.saveCount)
    ensures Locate(old(store.objects), line).Found? ==>
      store.objects == Remove(old(store.objects), Locate(old(store.objects), line).key) &&
      store.file == Flushed(store.objects) && store.saveCount == old(store.saveCount) + 1 &&
      out == if store.file.Written? then Done([]) else Crash
  {
    match Locate(store.objects, line)
    case Rejected(e) =>
      out := Report(e);
    case Found(key) =>
      RemoveGet(store.objects, key);
      if store.Consistent() {
        KeysAgreeRemove(store.objects, key);
      }
      store.objects := Remove(store.objects, key);
      var ok := store.Save();
      out := if ok then Done([]) else Crash;
  }

  /** After a successful `destroy`, the same `show` finds no instance, the table is one entry
      shorter, and every other key keeps its object. */
  lemma DestroyThenShow(objs: Dict<Obj>, line: string)
    requires Distinct(objs) && Locate(objs, line).Found?
    ensures var rest := Remove(objs, Locate(objs, line).key);
      Show(rest, line) == Report(NoSuchInstance) && |rest| == |objs| - 1 &&
      forall k :: k != Locate(objs, line).key ==> Get(rest, k) == Get(objs, k)
  {
    RemoveGet(objs, Locate(objs, line).key);
  }

  // ---------------------------------------------------------------- update

  /** Where `do_update`'s checks end: the failed check, or the entry to change, the class the
      command names, the attribute name and the value text. */
  datatype Plan = Refused(e: Error) | Assign(key: string, cls: ClassName, attr: string, value: string)

  /** The chain of checks in `do_update`, in order: the pattern does not match (an empty line
      or one that opens with whitespace), class doesn't exist, instance id missing, no
      instance found, attribute name missing, value missing. */
  function UpdatePlan(objs: Dict<Obj>, line: string): (p: Plan)
    ensures p == Refused(ClassNameMissing) <==> UpdateArgs(line).None?
    ensures p == Refused(NoSuchClass) <==> UpdateArgs(line).Some? && !IsClass(UpdateArgs(line).value.cls)
    ensures p == Refused(IdMissing) <==>
      UpdateArgs(line).Some? && IsClass(UpdateArgs(line).value.cls) && UpdateArgs(line).value.uid.None?
    ensures p == Refused(NoSuchInstance) <==>
      var w := UpdateArgs(line);
      w.Some? && IsClass(w.value.cls) && w.value.uid.Some? &&
      !Has(objs, w.value.cls + "." + w.value.uid.value)
    ensures p == Refused(AttrNameMissing) <==>
      var w := UpdateArgs(line);
      w.Some? && IsClass(w.value.cls) && w.value.uid.Some? &&
      Has(objs, w.value.cls + "." + w.value.uid.value) && w.value.attr.None?
    ensures p.Assign? ==>
      var w := UpdateArgs(line).value;
      Name(p.cls) == w.cls && w.uid.Some? && p.key == w.cls + "." + w.uid.value && Has(objs, p.key) &&
      w.attr == Some(p.attr) && w.value == Some(p.value)
    ensures p.Refused? && p.e == ValueMissing <==>
      var w := UpdateArgs(line);
      w.Some? && IsClass(w.value.cls) && w.value.uid.Some? &&
      Has(objs, w.value.cls + "." + w.value.uid.value) && w.value.attr.Some? && w.value.value.None?
  {
    match UpdateArgs(line)
    case None => Refused(ClassNameMissing)
    case Some(w) =>
      if !IsClass(w.cls) then Refused(NoSuchClass)
      else if w.uid.None? then Refused(IdMissing)
      else
        var key := w.cls + "." + w.uid.value;
        if !Has(objs, key) then Refused(NoSuchInstance)
        else if w.attr.None? then Refused(AttrNameMissing)
        else if w.value.None? then Refused(ValueMissing)
        else Assign(key, ClassNamed(w.cls).value, w.attr.value, w.value.value)
  }

  /** The value `do_update` assigns: a quoted literal loses its quotes; a registered
      attribute takes its class's coercion (which may raise); any other value becomes a
      `float` when it holds a dot and an `int` otherwise, staying text where that conversion
      raises `ValueError`. `None` where the command raises. */
  function UpdateValue(rt: Runtime, cls: ClassName, attr: string, value: string): (r: Option<Value>)
    ensures r.None? ==> Has(Coercions(cls), attr)
    ensures Has(Coercions(cls), attr) ==>
      r == Coerce(rt, Get(Coercions(cls), attr).value, Str(if QuotedLiteral(value) then RemoveQuotes(value) else value))
    ensures Get(Coercions(cls), attr) == Some(ToStr) ==>
      r == Some(Str(if QuotedLiteral(value) then RemoveQuotes(value) else value))
    ensures Get(Coercions(cls), attr) == Some(ToDateTime) ==> r.None?
    ensures !Has(Coercions(cls), attr) && QuotedLiteral(value) ==> r == Some(Str(RemoveQuotes(value)))
    ensures !Has(Coercions(cls), attr) && !QuotedLiteral(value) && '.' in value ==>
      r == Some(if rt.toFloat(Str(value)).Some? then Float(rt.toFloat(Str(value)).value) else Str(value))
    ensures !Has(Coercions(cls), attr) && !QuotedLiteral(value) && '.' !in value ==>
      r == Some(if rt.toInt(Str(value)).Some? then Int(rt.toInt(Str(value)).value) else Str(value))
  {
    var quoted := QuotedLiteral(value);
    var text := if quoted then RemoveQuotes(value) else value;
    match Get(Coercions(cls), attr)
    case Some(k) => Coerce(rt, k, Str(text))
    case None =>
      if quoted then Some(Str(text))
      else if '.' in value then
        match rt.toFloat(Str(text))
        case Some(f) => Some(Float(f))
        case None => Some(Str(text))
      else
        match rt.toInt(Str(text))
        case Some(i) => Some(Int(i))
        case None => Some(Str(text))
  }

  /** `setattr(obj, attr, v)` */
  function Assigned(o: Obj, attr: string, v: Value): Obj
  {
    Obj(o.cls, Set(o.attrs, attr, v))
  }

  /** `do_update`: the failed check's message with nothing changed; an exception from the
      coercion with nothing changed; or the attribute set on the object found, which is then
      saved, unless the object now has an attribute `save`, whose call raises. */
  method Update(store: Store, rt: Runtime, line: string, now: Stamp) returns (out: Outcome)
    requires store.Valid()
    modifies store
    ensures store.Valid() && (old(store.Consistent()) ==> store.Consistent())
    ensures UpdatePlan(old(store.objects), line).Refused? ==>
      out == Report(UpdatePlan(old(store.objects), line).e) && store.objects == old(store.objects) &&
      store.file == old(store.file) && store.saveCount == old(store.saveCount)
    ensures UpdatePlan(old(store.objects), line).Assign? ==>
      var p := UpdatePlan(old(store.objects), line);
      var v := UpdateValue(rt, p.cls, p.attr, p.value);
      if v.None? then
        out == Crash && store.objects == old(store.objects) &&
        store.file == old(store.file) && store.saveCount == old(store.saveCount)
      else
        var o := Assigned(Get(old(store.objects), p.key).value, p.attr, v.value);
        if Has(o.attrs, "save") then
          out == Crash && store.objects == Set(old(store.objects), p.key, o) &&
          store.file == old(store.file) && store.saveCount == old(store.saveCount)
        else
          store.objects == Set(old(store.objects), p.key, Touch(o, now)) &&
          store.file == Flushed(store.objects) && store.saveCount == old(store.saveCount) + 1 &&
          out == if store.file.Written? then Done([]) else Crash
  {
    match UpdatePlan(store.objects, line)
    case Refused(e) =>
      out := Report(e);
    case Assign(key, cls, attr, value) =>
      match UpdateValue(rt, cls, attr, value)
      case None =>
        out := Crash;
      case Some(v) =>
        var objs := store.objects;
        var o' := Assigned(Get(objs, key).value, attr, v);
        Replace(store, key, o');
        SetGet(objs, key, o');
        SetTwice(objs, key, o', Touch(o', now));
        var ok := SaveModel(store, key, now);
        out := if ok then Done([]) else Crash;
  }

  /** After `update`, the object keeps its class, the attribute holds the value assigned
      (unless it is `updated_at`, which `save` then moves to `now`), and every other attribute
      is as it was. */
  lemma UpdatedObject(o: Obj, attr: string, v: Value, now: Stamp)
    ensures var t := Touch(Assigned(o, attr, v), now);
      t.cls == o.cls &&
      Get(t.attrs, "updated_at") == Some(Time(now)) &&
      (attr != "updated_at" ==> Get(t.attrs, attr) == Some(v)) &&
      forall k :: k != attr && k != "updated_at" ==> Get(t.attrs, k) == Get(o.attrs, k)
  {
    SetGet(o.attrs, attr, v);
    TouchKeeps(Assigned(o, attr, v), now);
  }

  /** A class name is a token. */
  lemma NameToken(c: ClassName)
    ensures Token(Name(c))
  {
  }

  /** `update <C> <id> <name> "<text>"` for an existing object and an attribute the registry
      does not list stores the text between the quotes as a string. */
  lemma UpdateQuotedText(objs: Dict<Obj>, rt: Runtime, c: ClassName, uid: string, name: string, x: string, rest: string)
    requires Token(uid) && Token(name) && NoneIs(x, '"') && NoneIs(x, '\n')
    requires Has(objs, Name(c) + "." + uid) && !Has(Coercions(c), name)
    ensures var line := Name(c) + " " + uid + " " + name + " \"" + x + "\"" + rest;
      UpdatePlan(objs, line) == Assign(Name(c) + "." + uid, c, name, "\"" + x + "\"") &&
      UpdateValue(rt, c, name, "\"" + x + "\"") == Some(Str(x))
  {
    NameToken(c);
    UpdateArgsQuoted(Name(c), uid, name, x, rest);
    QuotedValue(x);
  }

  /** `update <C> <id> <name> <value>` with an unquoted value for an existing object is planned
      with that value, and an unregistered attribute gets a number where `int` or `float`
      accepts the text, the text itself otherwise. */
  lemma UpdateBareValue(objs: Dict<Obj>, rt: Runtime, c: ClassName, uid: string, name: string,
                        value: string, rest: string)
    requires Token(uid) && Token(name) && Token(value) && value[0] != '"'
    requires rest == [] || IsSpace(rest[0])
    requires Has(objs, Name(c) + "." + uid) && !Has(Coercions(c), name)
    ensures var line := Name(c) + " " + uid + " " + name + " " + value + rest;
      UpdatePlan(objs, line) == Assign(Name(c) + "." + uid, c, name, value)
    ensures var v := UpdateValue(rt, c, name, value);
      v.Some? && ('.' in value ==> v.value.Float? || v.value == Str(value)) &&
      ('.' !in value ==> v.value.Int? || v.value == Str(value))
  {
    NameToken(c);
    UpdateArgsBare(Name(c), uid, name, value, rest);
  }

  // ---------------------------------------------------------------- update_dict

  /** `s.replace("'", '"')` */
  function Requote(s: string): (r: string)
    ensures |r| == |s|
    ensures forall i :: 0 <= i < |s| ==> r[i] == if s[i] == '\'' then '"' else s[i]
    ensures NoneIs(r, '\'')
  {
    if s == [] then [] else [if s[0] == '\'' then '"' else s[0]] + Requote(s[1..])
  }

  /** `attributes[attribute](value)` when the registry lists the attribute, the value itself
      otherwise; `None` where the coercion raises. */
  function Convert(rt: Runtime, co: Dict<Coercion>, k: string, v: Value): (r: Option<Value>)
    ensures !Has(co, k) ==> r == Some(v)
    ensures Has(co, k) ==> r == Coerce(rt, Get(co, k).value, v)
  {
    match Get(co, k)
    case Some(c) => Coerce(rt, c, v)
    case None => Some(v)
  }

  /** The loop of `update_dict` over the decoded items, each converted and assigned in turn:
      the attributes it leaves and whether it ran to the end (`false` where a conversion
      raised, with the assignments before it in place). */
  function AssignItems(rt: Runtime, co: Dict<Coercion>, attrs: Dict<Value>, items: Dict<Value>)
    : (r: (Dict<Value>, bool))
    ensures items == [] ==> r == (attrs, true)
    decreases |items|
  {
    if items == [] then (attrs, true)
    else match Convert(rt, co, items[0].0, items[0].1)
      case None => (attrs, false)
      case Some(w) => AssignItems(rt, co, Set(attrs, items[0].0, w), items[1..])
  }

  /** Running the loop over `xs + ys` is running it over `xs`, then, if that completed, over
      `ys`. */
  lemma {:induction false} AssignItemsSplit(rt: Runtime, co: Dict<Coercion>, attrs: Dict<Value>,
                                            xs: Dict<Value>, ys: Dict<Value>)
    ensures AssignItems(rt, co, attrs, xs + ys) ==
      var r := AssignItems(rt, co, attrs, xs);
      if r.1 then AssignItems(rt, co, r.0, ys) else r
    decreases |xs|
  {
    if xs != [] {
      assert (xs + ys)[0] == xs[0] && (xs + ys)[1..] == xs[1..] + ys;
      match Convert(rt, co, xs[0].0, xs[0].1)
      case None =>
      case Some(w) => AssignItemsSplit(rt, co, Set(attrs, xs[0].0, w), xs[1..], ys);
    } else {
      assert xs + ys == ys;
    }
  }

  /** One more turn of the loop after `i` items have completed. */
  lemma AssignItemsStep(rt: Runtime, co: Dict<Coercion>, attrs: Dict<Value>, items: Dict<Value>,
                        i: nat, cur: Dict<Value>)
    requires i < |items| && AssignItems(rt, co, attrs, items[..i]) == (cur, true)
    ensures Convert(rt, co, items[i].0, items[i].1).None? ==> AssignItems(rt, co, attrs, items) == (cur, false)
    ensures Convert(rt, co, items[i].0, items[i].1).Some? ==>
      AssignItems(rt, co, attrs, items[..i + 1]) ==
        (Set(cur, items[i].0, Convert(rt, co, items[i].0, items[i].1).value), true)
  {
    var pre, rest := items[..i], items[i..];
    AssignItemsSplit(rt, co, attrs, pre, rest);
    assert pre + rest == items;
    AssignItemsHead(rt, co, cur, rest);
    AssignItemsSplit(rt, co, attrs, pre, [items[i]]);
    assert items[..i + 1] == pre + [items[i]];
    AssignItemsHead(rt, co, cur, [items[i]]);
  }

  /** One turn of the loop on the first item. */
  lemma AssignItemsHead(rt: Runtime, co: Dict<Coercion>, attrs: Dict<Value>, items: Dict<Value>)
    requires items != []
    ensures Convert(rt, co, items[0].0, items[0].1).None? ==> AssignItems(rt, co, attrs, items) == (attrs, false)
    ensures Convert(rt, co, items[0].0, items[0].1).Some? ==>
      AssignItems(rt, co, attrs, items) ==
        AssignItems(rt, co, Set(attrs, items[0].0, Convert(rt, co, items[0].0, items[0].1).value), items[1..])
  {
  }

  /** The loop completes exactly when every item converts. */
  lemma {:induction false} AssignItemsCompletes(rt: Runtime, co: Dict<Coercion>, attrs: Dict<Value>,
                                                items: Dict<Value>)
    ensures AssignItems(rt, co, attrs, items).1 <==>
      forall i :: 0 <= i < |items| ==> Convert(rt, co, items[i].0, items[i].1).Some?
    decreases |items|
  {
    if items != [] {
      assert forall i :: 1 <= i < |items| ==> items[1..][i - 1] == items[i];
      match Convert(rt, co, items[0].0, items[0].1)
      case None =>
      case Some(w) => AssignItemsCompletes(rt, co, Set(attrs, items[0].0, w), items[1..]);
    }
  }

  /** When the loop completes over items without repeated keys, each item's key holds its
      converted value and every other attribute is as it was. */
  lemma {:induction false} AssignItemsGet(rt: Runtime, co: Dict<Coercion>, attrs: Dict<Value>,
                                          items: Dict<Value>, k: string)
    requires Distinct(items) && AssignItems(rt, co, attrs, items).1
    ensures Has(items, k) ==>
      Get(AssignItems(rt, co, attrs, items).0, k) == Convert(rt, co, k, Get(items, k).value)
    ensures !Has(items, k) ==> Get(AssignItems(rt, co, attrs, items).0, k) == Get(attrs, k)
    decreases |items|
  {
    if items != [] {
      var (k0, v0) := items[0];
      var w := Convert(rt, co, k0, v0).value;
      var rest := items[1..];
      assert Distinct(rest);
      AssignItemsGet(rt, co, Set(attrs, k0, w), rest, k);
      SetGet(attrs, k0, w);
      if k == k0 {
        assert !Has(rest, k0);
        assert Find(items, k) == Some(0);
      } else {
        assert Find(items, k).Some? <==> Find(rest, k).Some?;
        if Has(rest, k) {
          assert Get(items, k) == Get(rest, k);
        }
      }
    }
  }

  /** The loop of `update_dict`: each item of `items`, converted, is set in turn on the object
      stored under `key`; stops at the first conversion that raises and answers whether none
      did. Nothing is saved. */
  method AssignLoop(store: Store, rt: Runtime, co: Dict<Coercion>, key: string, items: Dict<Value>)
    returns (ok: bool)
    requires store.Valid() && Has(store.objects, key)
    modifies store
    ensures store.Valid() && (old(store.Consistent()) ==> store.Consistent())
    ensures var o := Get(old(store.objects), key).value;
      var r := AssignItems(rt, co, o.attrs, items);
      store.objects == Set(old(store.objects), key, Obj(o.cls, r.0)) && ok == r.1
    ensures store.file == old(store.file) && store.saveCount == old(store.saveCount)
  {
    var objs := store.objects;
    var o := Get(objs, key).value;
    SetSame(objs, key, o);
    var cur := o.attrs;
    var i := 0;
    while i < |items|
      invariant 0 <= i <= |items|
      invariant AssignItems(rt, co, o.attrs, items[..i]) == (cur, true)
      invariant store.objects == Set(objs, key, Obj(o.cls, cur))
      invariant store.Valid() && (old(store.Consistent()) ==> store.Consistent())
      invariant store.file == old(store.file) && store.saveCount == old(store.saveCount)
    {
      AssignItemsStep(rt, co, o.attrs, items, i, cur);
      match Convert(rt, co, items[i].0, items[i].1)
      case None =>
        return false;
      case Some(w) =>
        var next := Set(cur, items[i].0, w);
        SetGet(objs, key, Obj(o.cls, cur));
        SetTwice(objs, key, Obj(o.cls, cur), Obj(o.cls, next));
        Replace(store, key, Obj(o.cls, next));
        cur := next;
        i := i + 1;
    }
    assert items[..i] == items;
    ok := true;
  }

  /** `update_dict`: an exception when the literal is not JSON once its single quotes are
      double quotes; then the checks (class name missing, class doesn't exist, no instance
      found) with nothing changed; then each decoded item is converted and set on the object
      found, which is then saved. A conversion that raises, or a final `save()` hidden by an
      attribute `save`, leaves the assignments made in the table and nothing saved. */
  method UpdateDict(store: Store, rt: Runtime, cls: string, uid: string, literal: string, now: Stamp)
    returns (out: Outcome)
    requires store.Valid()
    modifies store
    ensures store.Valid() && (old(store.Consistent()) ==> store.Consistent())
    ensures var d := rt.json(Requote(literal));
      (d.None? || cls == "" || !IsClass(cls) || !Has(old(store.objects), cls + "." + uid)) ==>
      store.objects == old(store.objects) &&
      store.file == old(store.file) && store.saveCount == old(store.saveCount)
    ensures rt.json(Requote(literal)).None? ==> out == Crash
    ensures rt.json(Requote(literal)).Some? && cls == "" ==> out == Report(ClassNameMissing)
    ensures rt.json(Requote(literal)).Some? && cls != "" && !IsClass(cls) ==> out == Report(NoSuchClass)
    ensures rt.json(Requote(literal)).Some? && IsClass(cls) && !Has(old(store.objects), cls + "." + uid) ==>
      out == Report(NoSuchInstance)
    ensures var d := rt.json(Requote(literal));
      var key := cls + "." + uid;
      d.Some? && IsClass(cls) && Has(old(store.objects), key) ==>
      var o := Get(old(store.objects), key).value;
      var r := AssignItems(rt, Coercions(ClassNamed(cls).value), o.attrs, d.value);
      if r.1 && !Has(r.0, "save") then
        store.objects == Set(old(store.objects), key, Touch(Obj(o.cls, r.0), now)) &&
        store.file == Flushed(store.objects) && store.saveCount == old(store.saveCount) + 1 &&
        out == (if store.file.Written? then Done([]) else Crash)
      else
        store.objects == Set(old(store.objects), key, Obj(o.cls, r.0)) && out == Crash &&
        store.file == old(store.file) && store.saveCount == old(store.saveCount)
  {
    var d := rt.json(Requote(literal));
    if d.None? {
      return Crash;
    }
    if cls == "" {
      return Report(ClassNameMissing);
    }
    if !IsClass(cls) {
      return Report(NoSuchClass);
    }
    var key := cls + "." + uid;
    if !Has(store.objects, key) {
      return Report(NoSuchInstance);
    }
    var objs := store.objects;
    var o := Get(objs, key).value;
    var co := Coercions(ClassNamed(cls).value);
    var r := AssignItems(rt, co, o.attrs, d.value);
    var completed := AssignLoop(store, rt, co, key, d.value);
    if !completed {
      return Crash;
    }
    SetGet(objs, key, Obj(o.cls, r.0));
    SetTwice(objs, key, Obj(o.cls, r.0), Touch(Obj(o.cls, r.0), now));
    var ok := SaveModel(store, key, now);
    out := if ok then Done([]) else Crash;
  }

  // ---------------------------------------------------------------- onecmd

  /** The readings a command may take from outside: the id `uuid4()` mints for a new object,
      the clock at `created_at`, at `updated_at`, and at the `save` that follows. */
  datatype Env = Env(id: string, created: Stamp, updated: Stamp, saved: Stamp)

  /** The `do_` methods `onecmd` can run. */
  datatype Verb = DoEOF | DoQuit | DoHelp | DoCreate | DoShow | DoDestroy | DoAll | DoCount | DoUpdate
  {
    /** The verbs that only read the store. */
    predicate Reads()
    {
      this in {DoEOF, DoQuit, DoHelp, DoShow, DoAll, DoCount}
    }
  }

  /** The handler `do_<name>`, when there is one. */
  function VerbNamed(name: string): (r: Option<Verb>)
    ensures r.Some? <==> name in Handlers
    ensures r == Some(DoEOF) <==> name == "EOF"
    ensures r == Some(DoQuit) <==> name == "quit"
  {
    if name == "EOF" then Some(DoEOF)
    else if name == "quit" then Some(DoQuit)
    else if name == "help" then Some(DoHelp)
    else if name == "create" then Some(DoCreate)
    else if name == "show" then Some(DoShow)
    else if name == "destroy" then Some(DoDestroy)
    else if name == "all" then Some(DoAll)
    else if name == "count" then Some(DoCount)
    else if name == "update" then Some(DoUpdate)
    else None
  }

  /** `do_<verb>(arg)`. */
  method Handle(store: Store, rt: Runtime, env: Env, verb: Verb, arg: string) returns (out: Outcome)
    requires store.Valid()
    modifies store
    ensures store.Valid() && (old(store.Consistent()) ==> store.Consistent())
    ensures store.saveCount == old(store.saveCount) || store.saveCount == old(store.saveCount) + 1
    ensures verb.Reads() ==>
      store.objects == old(store.objects) && store.file == old(store.file) &&
      store.saveCount == old(store.saveCount)
    ensures out.Stop? <==> verb in {DoEOF, DoQuit}
    ensures verb == DoEOF ==> out == Stop([""])
    ensures verb == DoQuit ==> out == Stop([])
    ensures verb == DoHelp ==> out == Help(arg)
    ensures verb == DoShow ==> out == Show(old(store.objects), arg)
    ensures verb == DoAll ==> out == All(old(store.objects), arg)
    ensures verb == DoCount ==> out == Count(old(store.objects), arg)
  {
    if verb.Reads() {
      out := Answer(store.objects, verb, arg);
    } else {
      out := Change(store, rt, env, verb, arg);
    }
  }

  /** What the handlers that only look at the store print. */
  function Answer(objs: Dict<Obj>, verb: Verb, arg: string): Outcome
    requires verb.Reads()
  {
    match verb
    case DoEOF => Stop([""])
    case DoQuit => Stop([])
    case DoHelp => Help(arg)
    case DoShow => Show(objs, arg)
    case DoAll => All(objs, arg)
    case DoCount => Count(objs, arg)
  }

  /** The handlers that change the store: `create`, `destroy` and `update`. */
  method Change(store: Store, rt: Runtime, env: Env, verb: Verb, arg: string) returns (out: Outcome)
    requires store.Valid() && !verb.Reads()
    modifies store
    ensures store.Valid() && (old(store.Consistent()) ==> store.Consistent())
    ensures store.saveCount == old(store.saveCount) || store.saveCount == old(store.saveCount) + 1
    ensures !out.Stop?
  {
    match verb
    case DoCreate => out := Create(store, arg, env.id, env.created, env.updated, env.saved);
    case DoDestroy => out := Destroy(store, arg);
    case DoUpdate => out := Update(store, rt, arg, env.saved);
  }

  /** `onecmd(line)`: an empty line does nothing (`emptyline`); a line with a handler runs it;
      any other line goes to `default`. Whatever the line, the store is saved at most once, and
      only `EOF` and `quit` given directly stop the loop. */
  method OneCmd(store: Store, rt: Runtime, env: Env, raw: string) returns (out: Outcome)
    requires store.Valid()
    modifies store
    ensures store.Valid() && (old(store.Consistent()) ==> store.Consistent())
    ensures store.saveCount == old(store.saveCount) || store.saveCount == old(store.saveCount) + 1
    ensures Dispatch(raw).EmptyLine? || (Dispatch(raw).Default? && Precmd(Dispatch(raw).line).NoMatch?) ==>
      out == Done([]) && store.objects == old(store.objects) && store.file == old(store.file) &&
      store.saveCount == old(store.saveCount)
    ensures Dispatch(raw).Run? && VerbNamed(Dispatch(raw).name).value.Reads() ==>
      store.objects == old(store.objects) && store.file == old(store.file) &&
      store.saveCount == old(store.saveCount)
    ensures out.Stop? <==> Dispatch(raw).Run? && Dispatch(raw).name in {"EOF", "quit"}
  {
    match Dispatch(raw)
    case EmptyLine =>
      out := Done([]);
    case Run(name, arg) =>
      out := Handle(store, rt, env, VerbNamed(name).value, arg);
    case Default(line) =>
      out := Default(store, rt, env, line);
  }

  /** `default(line)`, that is `_precmd(line)`: nothing for a line it does not match; an
      `update` with a dictionary handed to `update_dict`; anything else it matched rewritten
      and run through `onecmd` once more. `default` returns nothing, so what the inner
      `onecmd` returns is dropped: a rewritten `quit` or `EOF` prints but does not stop the
      loop. */
  method Default(store: Store, rt: Runtime, env: Env, line: string) returns (out: Outcome)
    requires store.Valid()
    modifies store
    ensures store.Valid() && (old(store.Consistent()) ==> store.Consistent())
    ensures store.saveCount == old(store.saveCount) || store.saveCount == old(store.saveCount) + 1
    ensures !out.Stop?
    ensures Precmd(line).NoMatch? ==>
      out == Done([]) && store.objects == old(store.objects) && store.file == old(store.file) &&
      store.saveCount == old(store.saveCount)
    ensures Precmd(line).DictUpdate? ==>
      var p := Precmd(line);
      var d := rt.json(Requote(p.literal));
      (d.None? ==> out == Crash) &&
      ((d.None? || p.cls == "" || !IsClass(p.cls) || !Has(old(store.objects), p.cls + "." + p.uid)) ==>
         store.objects == old(store.objects) && store.file == old(store.file) &&
         store.saveCount == old(store.saveCount))
    ensures Precmd(line).Rewritten? ==>
      var a := Dispatch(Precmd(line).command);
      (a.Default? ==>
         out == Done([]) && store.objects == old(store.objects) && store.file == old(store.file) &&
         store.saveCount == old(store.saveCount)) &&
      (a.Run? && VerbNamed(a.name).value.Reads() ==>
         store.objects == old(store.objects) && store.file == old(store.file) &&
         store.saveCount == old(store.saveCount))
  {
    match Precmd(line)
    case NoMatch =>
      out := Done([]);
    case DictUpdate(cls, uid, literal) =>
      out := UpdateDict(store, rt, cls, uid, literal, env.saved);
    case Rewritten(command) =>
      PrecmdSettles(line);
      match Dispatch(command)
      case Run(name, arg) =>
        out := Handle(store, rt, env, VerbNamed(name).value, arg);
        if out.Stop? {
          out := Done(out.printed);
        }
      case Default(_) =>
        out := Done([]);
  }
}
