/**
 * The text side of the console: `cmd.Cmd.parseline`, Python's `str.strip` and
 * `str.split(' ')`, and the regular expressions of `_precmd` and `do_update`,
 * each as the exact match Python's `re.search` finds.
 *
 * Two conventions of Python's `re` matter here: `.` matches anything but a
 * newline, and `$` matches at the end of the text or just before a newline that
 * ends it.
 */
module Parsing {
  import opened Wrappers

  /** Python's `str.isspace()`, which is also what `\s` and `str.strip()` use. */
  predicate IsSpace(c: char)
  {
    var n := c as int;
    (9 <= n <= 13) || (28 <= n <= 32) || n == 0x85 || n == 0xa0 || n == 0x1680 ||
    (0x2000 <= n <= 0x200a) || n == 0x2028 || n == 0x2029 || n == 0x202f || n == 0x205f ||
    n == 0x3000
  }

  /** `cmd.Cmd.identchars` (letters, digits, underscore), also used for `\w`. */
  predicate IsWordChar(c: char)
  {
    ('a' <= c <= 'z') || ('A' <= c <= 'Z') || ('0' <= c <= '9') || c == '_'
  }

  predicate AllWord(s: string)
  {
    forall i :: 0 <= i < |s| ==> IsWordChar(s[i])
  }

  predicate AllSpace(s: string)
  {
    forall i :: 0 <= i < |s| ==> IsSpace(s[i])
  }

  predicate NoneIs(s: string, c: char)
  {
    forall i :: 0 <= i < |s| ==> s[i] != c
  }

  /** `"<x>", <r>` holds `ch` only where `x` or `r` does. */
  lemma NoneIsQuoted(x: string, r: string, ch: char)
    requires NoneIs(x, ch) && NoneIs(r, ch) && ch != '"' && ch != ',' && ch != ' '
    ensures NoneIs("\"" + x + "\", " + r, ch)
  {
    var s := "\"" + x + "\", " + r;
    forall i | 0 <= i < |s| ensures s[i] != ch {
      if 1 <= i <= |x| {
        assert s[i] == x[i - 1];
      } else if i >= |x| + 4 {
        assert s[i] == r[i - |x| - 4];
      }
    }
  }

  /** `{<x>}` holds `ch` only where `x` does. */
  lemma NoneIsBraced(x: string, ch: char)
    requires NoneIs(x, ch) && ch != '{' && ch != '}'
    ensures NoneIs("{" + x + "}", ch)
  {
    var s := "{" + x + "}";
    forall i | 0 <= i < |s| ensures s[i] != ch {
      if 1 <= i <= |x| {
        assert s[i] == x[i - 1];
      }
    }
  }

  /** The first index at or after `from` holding `c`, or `|s|` when there is none. */
  function IndexOf(s: string, c: char, from: nat): (r: nat)
    requires from <= |s|
    ensures from <= r <= |s| && (r < |s| ==> s[r] == c)
    ensures forall i :: from <= i < r ==> s[i] != c
    decreases |s| - from
  {
    if from == |s| || s[from] == c then from else IndexOf(s, c, from + 1)
  }

  /** The end of the run of word characters that starts at `from`. */
  function WordEnd(s: string, from: nat): (r: nat)
    requires from <= |s|
    ensures from <= r <= |s| && (r < |s| ==> !IsWordChar(s[r]))
    ensures forall i :: from <= i < r ==> IsWordChar(s[i])
    decreases |s| - from
  {
    if from == |s| || !IsWordChar(s[from]) then from else WordEnd(s, from + 1)
  }

  /** The end of the run of non-whitespace characters that starts at `from`. */
  function SpaceAt(s: string, from: nat): (r: nat)
    requires from <= |s|
    ensures from <= r <= |s| && (r < |s| ==> IsSpace(s[r]))
    ensures forall i :: from <= i < r ==> !IsSpace(s[i])
    decreases |s| - from
  {
    if from == |s| || IsSpace(s[from]) then from else SpaceAt(s, from + 1)
  }

  /** Where `$` matches: at the end, or before a final newline. */
  predicate EndAt(s: string, p: nat)
  {
    p == |s| || (p + 1 == |s| && s[p] == '\n')
  }

  // ---------------------------------------------------------------- strip and split

  /** `s.lstrip()` */
  function LStrip(s: string): (r: string)
    ensures |r| <= |s| && r == s[|s| - |r|..]
    ensures r == [] || !IsSpace(r[0])
    ensures forall i :: 0 <= i < |s| - |r| ==> IsSpace(s[i])
  {
    if s != [] && IsSpace(s[0]) then LStrip(s[1..]) else s
  }

  /** `s.rstrip()` */
  function RStrip(s: string): (r: string)
    ensures |r| <= |s| && r == s[..|r|]
    ensures r == [] || !IsSpace(r[|r| - 1])
    ensures forall i :: |r| <= i < |s| ==> IsSpace(s[i])
  {
    if s != [] && IsSpace(s[|s| - 1]) then RStrip(s[..|s| - 1]) else s
  }

  /** `s.strip()` */
  function Strip(s: string): string
  {
    RStrip(LStrip(s))
  }

  /** What `strip` keeps is `s` less a run of whitespace at each end, and it neither starts
      nor ends with whitespace. */
  lemma StripShape(s: string)
    ensures var i := |s| - |LStrip(s)|; var j := i + |Strip(s)|;
      j <= |s| && Strip(s) == s[i..j] &&
      (forall k :: 0 <= k < i ==> IsSpace(s[k])) && (forall k :: j <= k < |s| ==> IsSpace(s[k]))
    ensures Strip(s) == [] || (!IsSpace(Strip(s)[0]) && !IsSpace(Strip(s)[|Strip(s)| - 1]))
  {
    StripSlice(s);
    StripTail(s);
    StripEnds(s);
  }

  lemma StripSlice(s: string)
    ensures var i := |s| - |LStrip(s)|; i + |Strip(s)| <= |s| && Strip(s) == s[i..i + |Strip(s)|]
  {
    var l := LStrip(s);
    var i := |s| - |l|;
    assert l == s[i..];
    assert RStrip(l) == l[..|RStrip(l)|];
  }

  lemma StripTail(s: string)
    ensures var j := |s| - |LStrip(s)| + |Strip(s)|;
      j <= |s| && forall k :: j <= k < |s| ==> IsSpace(s[k])
  {
    var l := LStrip(s);
    var i := |s| - |l|;
    var j := i + |RStrip(l)|;
    assert l == s[i..];
    forall k | j <= k < |s| ensures IsSpace(s[k]) {
      assert s[k] == l[k - i];
    }
  }

  lemma StripEnds(s: string)
    ensures Strip(s) == [] || (!IsSpace(Strip(s)[0]) && !IsSpace(Strip(s)[|Strip(s)| - 1]))
  {
    var l := LStrip(s);
    var r := RStrip(l);
    if r != [] {
      assert r[0] == l[0];
    }
  }

  /** Stripping twice is stripping once. */
  lemma StripIdempotent(s: string)
    ensures Strip(Strip(s)) == Strip(s)
  {
    var r := Strip(s);
    StripShape(s);
    assert LStrip(r) == r;
  }

  /** `s.split(' ')`: the pieces between single spaces; `[""]` for the empty string. */
  function SplitSpace(s: string): (r: seq<string>)
    ensures |r| >= 1
    ensures forall k :: 0 <= k < |r| ==> NoneIs(r[k], ' ')
    decreases |s|
  {
    var i := IndexOf(s, ' ', 0);
    if i == |s| then [s] else [s[..i]] + SplitSpace(s[i + 1..])
  }

  /** `' '.join(parts)` */
  function JoinSpace(parts: seq<string>): string
    requires |parts| >= 1
  {
    if |parts| == 1 then parts[0] else parts[0] + " " + JoinSpace(parts[1..])
  }

  /** `split(' ')` loses nothing: joining the pieces with single spaces gives the text back. */
  lemma {:induction false} SplitJoin(s: string)
    ensures JoinSpace(SplitSpace(s)) == s
    decreases |s|
  {
    var i := IndexOf(s, ' ', 0);
    if i < |s| {
      SplitJoin(s[i + 1..]);
      assert s == s[..i] + " " + s[i + 1..];
    }
  }

  /** and the other way: pieces without spaces split back into themselves. */
  lemma {:induction false} JoinSplit(parts: seq<string>)
    requires |parts| >= 1 && forall k :: 0 <= k < |parts| ==> NoneIs(parts[k], ' ')
    ensures SplitSpace(JoinSpace(parts)) == parts
  {
    var s := JoinSpace(parts);
    if |parts| == 1 {
      assert IndexOf(s, ' ', 0) == |s|;
    } else {
      var p := parts[0];
      var rest := JoinSpace(parts[1..]);
      SplitHead(s, p, rest);
      JoinSplit(parts[1..]);
      assert parts == [p] + parts[1..];
    }
  }

  /** Splitting a text that starts with a space-free piece and a space. */
  lemma SplitHead(s: string, p: string, rest: string)
    requires s == p + " " + rest && NoneIs(p, ' ')
    ensures SplitSpace(s) == [p] + SplitSpace(rest)
  {
    assert s[|p|] == ' ';
    assert IndexOf(s, ' ', 0) == |p| by {
      assert forall i :: 0 <= i < |p| ==> s[i] == p[i];
      IndexOfFirst(s, ' ', 0, |p|);
    }
    assert s[..|p|] == p && s[|p| + 1..] == rest;
  }

  /** `IndexOf` finds a given position when nothing before it holds the character. */
  lemma IndexOfFirst(s: string, c: char, from: nat, at: nat)
    requires from <= at < |s| && s[at] == c
    requires forall i :: from <= i < at ==> s[i] != c
    ensures IndexOf(s, c, from) == at
  {
  }

  /** Whitespace around a text with no whitespace at its edges is what `strip` removes. */
  lemma {:induction false} LStripPad(pad: string, x: string)
    requires AllSpace(pad)
    requires x == [] || !IsSpace(x[0])
    ensures LStrip(pad + x) == x
  {
    if pad != [] {
      assert (pad + x)[1..] == pad[1..] + x;
      LStripPad(pad[1..], x);
    }
  }

  lemma {:induction false} RStripPad(x: string, pad: string)
    requires AllSpace(pad)
    requires x == [] || !IsSpace(x[|x| - 1])
    ensures RStrip(x + pad) == x
  {
    if pad != [] {
      assert (x + pad)[..|x + pad| - 1] == x + pad[..|pad| - 1];
      RStripPad(x, pad[..|pad| - 1]);
    }
  }

  // ---------------------------------------------------------------- cmd.Cmd.onecmd

  /** `parseline`'s `(cmd, arg, line)`. */
  datatype Parsed = Parsed(cmd: Option<string>, arg: Option<string>, line: string)

  /** `cmd.Cmd.parseline`: strip the line; `?` stands for `help`; `!` would stand for `shell`,
      which this console does not define, so such a line has no command; otherwise the
      command is the longest run of identifier characters and the argument the stripped
      rest. */
  function ParseLine(raw: string): (p: Parsed)
    ensures p.line == [] ==> p.cmd.None?
    ensures p.cmd.Some? ==> p.arg.Some?
  {
    ParseStripped(Strip(raw))
  }

  /** `parseline` once the line is stripped. */
  function ParseStripped(line: string): (p: Parsed)
    ensures p.line == [] ==> p.cmd.None?
    ensures p.cmd.Some? ==> p.arg.Some?
  {
    if line == [] || line[0] == '!' then Parsed(None, None, line)
    else if line[0] == '?' then SplitCommand("help " + line[1..])
    else SplitCommand(line)
  }

  /** The command of a line is its leading run of identifier characters, the argument the
      stripped rest. */
  function SplitCommand(l: string): (p: Parsed)
    ensures p.line == l && p.cmd.Some? && p.arg.Some?
  {
    var i := WordEnd(l, 0);
    Parsed(Some(l[..i]), Some(Strip(l[i..])), l)
  }

  /** The `do_*` methods of the console, plus `do_help` from `cmd.Cmd`. */
  const Handlers: set<string> :=
    {"EOF", "quit", "create", "show", "destroy", "all", "count", "update", "help"}

  /** What `onecmd` does with a line. */
  datatype Action = EmptyLine | Default(line: string) | Run(name: string, arg: string)

  /** `cmd.Cmd.onecmd`: an empty line goes to `emptyline`; a line without a command, with an
      empty command or with one that has no `do_` method goes to `default` (whole, stripped);
      otherwise `do_<cmd>(arg)` runs. */
  function Dispatch(raw: string): (a: Action)
    ensures a.Run? ==> a.name in Handlers && a.name != ""
    ensures a.EmptyLine? <==> Strip(raw) == []
  {
    var p := ParseLine(raw);
    if p.line == [] then EmptyLine
    else if p.cmd.None? || p.cmd.value == "" || p.cmd.value !in Handlers then Default(p.line)
    else Run(p.cmd.value, p.arg.value)
  }

  // ---------------------------------------------------------------- _precmd

  /** `re.search(r"^(\w*)\.(\w+)(?:\(([^)]*)\))$", line)`: class, method and argument
      text of `<class>.<method>(<args>)`. */
  function Dotted(s: string): (r: Option<(string, string, string)>)
    ensures r.Some? ==> AllWord(r.value.0) && r.value.1 != [] && AllWord(r.value.1)
  {
    var i := WordEnd(s, 0);
    if i == |s| || s[i] != '.' then None
    else
      var j := WordEnd(s, i + 1);
      if j == i + 1 || j == |s| || s[j] != '(' then None
      else
        var k := IndexOf(s, ')', j + 1);
        if k < |s| && EndAt(s, k + 1) then Some((s[..i], s[i + 1..j], s[j + 1..k])) else None
  }

  /** The trailing `(?:, (.*))?$` of two of the patterns, tried at `p`: `Some(Some(rest))`
      when `, ` and a newline-free rest follow, `Some(None)` when the text ends at `p`,
      `None` when neither holds. */
  function Tail(s: string, p: nat): (r: Option<Option<string>>)
    requires p <= |s|
    ensures r.Some? && r.value.Some? ==> NoneIs(r.value.value, '\n')
  {
    var m := if p + 2 <= |s| then IndexOf(s, '\n', p + 2) else |s|;
    if p + 2 <= |s| && s[p] == ',' && s[p + 1] == ' ' && EndAt(s, m) then Some(Some(s[p + 2..m]))
    else if EndAt(s, p) then Some(None)
    else None
  }

  /** `re.search(r'^"([^"]*)"(?:, (.*))?$', args)` with `_precmd`'s fallback: the quoted id
      and what follows it, or the whole argument text as the id and nothing after it. */
  function UidArgs(args: string): (r: (string, Option<string>))
    ensures r.1.Some? ==> NoneIs(r.1.value, '\n')
    ensures (args == [] || args[0] != '"') ==> r == (args, None)
  {
    if args != [] && args[0] == '"' && IndexOf(args, '"', 1) < |args| &&
       Tail(args, IndexOf(args, '"', 1) + 1).Some?
    then (args[1..IndexOf(args, '"', 1)], Tail(args, IndexOf(args, '"', 1) + 1).value)
    else (args, None)
  }

  /** `re.search(r'^<open>.*<close>$', s)`, the group being the whole match. */
  function Enclosed(s: string, open: char, close: char): Option<string>
  {
    if |s| < 2 || s[0] != open then None
    else
      var m := IndexOf(s, '\n', 1);
      if m == |s| && s[|s| - 1] == close then Some(s)
      else if m + 1 == |s| && |s| >= 3 && s[|s| - 2] == close then Some(s[..|s| - 1])
      else None
  }

  /** `re.search(r'^(?:"([^"]*)")?(?:, (.*))?$', s)`: the optional quoted attribute name and
      the optional value text after it. */
  function AttrValue(s: string): Option<(Option<string>, Option<string>)>
  {
    var q := if s != [] then IndexOf(s, '"', 1) else 0;
    if s != [] && s[0] == '"' && q < |s| && Tail(s, q + 1).Some? then
      Some((Some(s[1..q]), Tail(s, q + 1).value))
    else match Tail(s, 0)
      case Some(t) => Some((None, t))
      case None => None
  }

  function OrEmpty(s: Option<string>): string
  {
    match s
    case Some(t) => t
    case None => ""
  }

  /** What `_precmd` does with a line `default` hands it. */
  datatype Rewrite =
    | NoMatch
    | DictUpdate(cls: string, uid: string, literal: string)
    | Rewritten(command: string)

  /** `_precmd`: a line of the form `<class>.<method>(<args>)` becomes the command
      `"<method> <class> <uid> <attr_and_value>"` for `onecmd`, except that `update` with a
      `{...}` literal after the id goes to `update_dict` instead. */
  function Precmd(line: string): Rewrite
  {
    match Dotted(line)
    case None => NoMatch
    case Some((cls, op, args)) =>
      var (uid, rest) := UidArgs(args);
      if op == "update" && rest.Some? && rest.value != "" then
        match Enclosed(rest.value, '{', '}')
        case Some(literal) => DictUpdate(cls, uid, literal)
        case None =>
          var av := match AttrValue(rest.value)
            case Some((name, value)) => OrEmpty(name) + " " + OrEmpty(value)
            case None => "";
          Rewritten(op + " " + cls + " " + uid + " " + av)
      else Rewritten(op + " " + cls + " " + uid + " ")
  }

  lemma WordEndAt(s: string, from: nat, at: nat)
    requires from <= at <= |s| && (at < |s| ==> !IsWordChar(s[at]))
    requires forall i :: from <= i < at ==> IsWordChar(s[i])
    ensures WordEnd(s, from) == at
    decreases at - from
  {
    if from < at {
      WordEndAt(s, from + 1, at);
    }
  }

  /** `<class>.<method>(<args>)` (with or without a final newline) is matched, and gives back
      its three parts, whenever the class and method are identifiers, the method is not
      empty and the arguments hold no `)`. */
  lemma DottedParses(c: string, m: string, a: string, nl: string)
    requires AllWord(c) && m != [] && AllWord(m) && NoneIs(a, ')')
    requires nl == [] || nl == "\n"
    ensures Dotted(c + "." + m + "(" + a + ")" + nl) == Some((c, m, a))
  {
    var s := c + "." + m + "(" + a + ")" + nl;
    CallParts(s, c, m, a, nl);
    DottedAt(s, |c|, |c| + 1 + |m|, |c| + 2 + |m| + |a|);
  }

  /** `Dotted` on a text with `.`, `(` and `)` at `i < j < k`, identifier characters
      before the first two and no `)` before the third. */
  lemma DottedAt(s: string, i: nat, j: nat, k: nat)
    requires i < j < k < |s| && EndAt(s, k + 1) && s[i] == '.' && s[j] == '(' && s[k] == ')'
    requires i + 1 < j
    requires forall p :: 0 <= p < i ==> IsWordChar(s[p])
    requires forall p :: i + 1 <= p < j ==> IsWordChar(s[p])
    requires forall p :: j + 1 <= p < k ==> s[p] != ')'
    ensures Dotted(s) == Some((s[..i], s[i + 1..j], s[j + 1..k]))
  {
    WordEndAt(s, 0, i);
    WordEndAt(s, i + 1, j);
    IndexOfFirst(s, ')', j + 1, k);
  }

  /** Where the parts of `<class>.<method>(<args>)` sit in the line. */
  lemma CallParts(s: string, c: string, m: string, a: string, nl: string)
    requires s == c + "." + m + "(" + a + ")" + nl && (nl == [] || nl == "\n")
    requires AllWord(c) && AllWord(m) && NoneIs(a, ')')
    ensures var i, j, k := |c|, |c| + 1 + |m|, |c| + 2 + |m| + |a|;
      k < |s| && EndAt(s, k + 1) && s[i] == '.' && s[j] == '(' && s[k] == ')' &&
      s[..i] == c && s[i + 1..j] == m && s[j + 1..k] == a &&
      (forall p :: 0 <= p < i ==> IsWordChar(s[p])) &&
      (forall p :: i + 1 <= p < j ==> IsWordChar(s[p])) &&
      (forall p :: j + 1 <= p < k ==> s[p] != ')')
  {
    var i, j, k := |c|, |c| + 1 + |m|, |c| + 2 + |m| + |a|;
    forall p | 0 <= p < i ensures IsWordChar(s[p]) {
      assert s[p] == c[p];
    }
    forall p | i + 1 <= p < j ensures IsWordChar(s[p]) {
      assert s[p] == m[p - i - 1];
    }
    forall p | j + 1 <= p < k ensures s[p] != ')' {
      assert s[p] == a[p - j - 1];
    }
  }

  /** Conversely, a line `Dotted` accepts is exactly such a line. */
  lemma DottedShape(s: string)
    requires Dotted(s).Some?
    ensures var (c, m, a) := Dotted(s).value;
      AllWord(c) && m != [] && AllWord(m) && NoneIs(a, ')') &&
      (s == c + "." + m + "(" + a + ")" || s == c + "." + m + "(" + a + ")" + "\n")
  {
    var i := WordEnd(s, 0);
    var j := WordEnd(s, i + 1);
    var k := IndexOf(s, ')', j + 1);
    assert Dotted(s).value == (s[..i], s[i + 1..j], s[j + 1..k]);
    var a := s[j + 1..k];
    forall p | 0 <= p < |a| ensures a[p] != ')' {
      assert a[p] == s[j + 1 + p];
    }
    CallSplit(s, i, j, k);
    if k + 1 < |s| {
      assert s == s[..k + 1] + "\n";
    } else {
      assert s == s[..k + 1];
    }
  }

  /** A text with `.`, `(` and `)` at `i < j < k` is its three pieces around them. */
  lemma CallSplit(s: string, i: nat, j: nat, k: nat)
    requires i < j < k < |s| && s[i] == '.' && s[j] == '(' && s[k] == ')'
    ensures s[..k + 1] == s[..i] + "." + s[i + 1..j] + "(" + s[j + 1..k] + ")"
  {
    assert s[..j] == s[..i] + "." + s[i + 1..j];
    assert s[..k] == s[..j] + "(" + s[j + 1..k];
    assert s[..k + 1] == s[..k] + ")";
  }

  /** A quoted id not followed by anything is the id, with nothing after it. */
  lemma UidQuotedAlone(u: string)
    requires NoneIs(u, '"')
    ensures UidArgs("\"" + u + "\"") == (u, None)
  {
    var s := "\"" + u + "\"";
    IndexOfFirst(s, '"', 1, |u| + 1);
    assert s[1..|u| + 1] == u;
  }

  /** A quoted id followed by `, ` and a line is the id, with that line after it. */
  lemma UidQuotedRest(u: string, r: string)
    requires NoneIs(u, '"') && NoneIs(r, '\n')
    ensures UidArgs("\"" + u + "\", " + r) == (u, Some(r))
  {
    var s := "\"" + u + "\", " + r;
    var p := |u| + 2;
    IndexOfFirst(s, '"', 1, p - 1);
    assert s[1..p - 1] == u;
    assert s[p] == ',' && s[p + 1] == ' ';
    assert IndexOf(s, '\n', p + 2) == |s| by {
      assert forall i :: p + 2 <= i < |s| ==> s[i] == r[i - p - 2];
    }
    assert s[p + 2..] == r;
    var m := IndexOf(s, '\n', p + 2);
    assert s[p + 2..m] == r;
    assert EndAt(s, m);
    assert s[p] == ',' && s[p + 1] == ' ';
    assert Tail(s, p) == Some(Some(s[p + 2..m]));
  }

  /** The text `"<x>", <r>`: the quote that closes `x` and the `, <r>` after it. */
  lemma QuotedThenRest(x: string, r: string)
    requires NoneIs(x, '"') && NoneIs(r, '\n')
    ensures var s := "\"" + x + "\", " + r;
      IndexOf(s, '"', 1) == |x| + 1 && s[1..|x| + 1] == x && Tail(s, |x| + 2) == Some(Some(r))
  {
    var s := "\"" + x + "\", " + r;
    var p := |x| + 2;
    IndexOfFirst(s, '"', 1, p - 1);
    assert s[1..p - 1] == x;
    assert IndexOf(s, '\n', p + 2) == |s| by {
      assert forall i :: p + 2 <= i < |s| ==> s[i] == r[i - p - 2];
    }
    var m := IndexOf(s, '\n', p + 2);
    assert s[p + 2..m] == r;
    assert EndAt(s, m);
    assert s[p] == ',' && s[p + 1] == ' ';
    assert Tail(s, p) == Some(Some(s[p + 2..m]));
  }

  /** `"<name>", <value>` names the attribute and gives the value text. */
  lemma AttrValueQuoted(name: string, value: string)
    requires NoneIs(name, '"') && NoneIs(value, '\n')
    ensures AttrValue("\"" + name + "\", " + value) == Some((Some(name), Some(value)))
  {
    QuotedThenRest(name, value);
  }

  /** A `{...}` on one line is a dictionary literal. */
  lemma EnclosedBraces(x: string)
    requires NoneIs(x, '\n')
    ensures Enclosed("{" + x + "}", '{', '}') == Some("{" + x + "}")
  {
    var s := "{" + x + "}";
    assert IndexOf(s, '\n', 1) == |s| by {
      assert forall i :: 1 <= i < |s| - 1 ==> s[i] == x[i - 1];
    }
  }

  /** `<Class>.<method>()` becomes `"<method> <Class>  "`. */
  lemma PrecmdNoArgs(c: string, m: string)
    requires AllWord(c) && m != [] && AllWord(m)
    ensures Precmd(c + "." + m + "()") == Rewritten(m + " " + c + " " + " ")
  {
    DottedParses(c, m, "", "");
    NoArgsShape(c, m);
  }

  lemma NoArgsShape(c: string, m: string)
    ensures c + "." + m + "(" + "" + ")" + "" == c + "." + m + "()"
  {
  }

  /** `<Class>.<method>("<id>")` becomes `"<method> <Class> <id> "`. */
  lemma PrecmdById(c: string, m: string, u: string)
    requires AllWord(c) && m != [] && AllWord(m) && NoneIs(u, '"') && NoneIs(u, ')')
    ensures Precmd(c + "." + m + "(\"" + u + "\")") == Rewritten(m + " " + c + " " + u + " ")
  {
    var a := "\"" + u + "\"";
    DottedParses(c, m, a, "");
    assert c + "." + m + "(" + a + ")" + "" == c + "." + m + "(\"" + u + "\")";
    UidQuotedAlone(u);
  }

  /** `<Class>.<method>("<id>", <rest>)` splits into its parts. */
  lemma DottedQuoted(c: string, m: string, u: string, r: string)
    requires AllWord(c) && m != [] && AllWord(m) && NoneIs(u, '"') && NoneIs(u, ')')
    requires NoneIs(r, ')') && NoneIs(r, '\n')
    ensures var a := "\"" + u + "\", " + r;
      Dotted(c + "." + m + "(\"" + u + "\", " + r + ")") == Some((c, m, a)) &&
      UidArgs(a) == (u, Some(r))
  {
    var a := "\"" + u + "\", " + r;
    NoneIsQuoted(u, r, ')');
    DottedParses(c, m, a, "");
    assert c + "." + m + "(" + a + ")" + "" == c + "." + m + "(\"" + u + "\", " + r + ")";
    UidQuotedRest(u, r);
  }

  /** `<Class>.update("<id>", "<name>", <value>)` becomes
      `"update <Class> <id> <name> <value>"`. */
  lemma PrecmdUpdate(c: string, u: string, name: string, value: string)
    requires AllWord(c) && NoneIs(u, '"') && NoneIs(u, ')')
    requires NoneIs(name, '"') && NoneIs(name, ')') && NoneIs(name, '\n')
    requires NoneIs(value, ')') && NoneIs(value, '\n')
    ensures Precmd(c + ".update(\"" + u + "\", \"" + name + "\", " + value + ")") ==
      Rewritten("update " + c + " " + u + " " + name + " " + value)
  {
    NoneIsQuoted(name, value, ')');
    NoneIsQuoted(name, value, '\n');
    PrecmdUpdateQuoted(c, u, name, value, "\"" + name + "\", " + value);
  }

  lemma PrecmdUpdateQuoted(c: string, u: string, name: string, value: string, r: string)
    requires AllWord(c) && NoneIs(u, '"') && NoneIs(u, ')')
    requires NoneIs(name, '"') && NoneIs(value, '\n')
    requires r == "\"" + name + "\", " + value && NoneIs(r, ')') && NoneIs(r, '\n')
    ensures Precmd(c + ".update(\"" + u + "\", \"" + name + "\", " + value + ")") ==
      Rewritten("update " + c + " " + u + " " + name + " " + value)
  {
    var line := c + ".update(\"" + u + "\", \"" + name + "\", " + value + ")";
    DottedQuoted(c, "update", u, r);
    QuotedCallShape(c, u, name, value);
    AttrValueQuoted(name, value);
    PrecmdAttr(line, c, "\"" + u + "\", " + r, u, r, name, value);
  }

  lemma QuotedCallShape(c: string, u: string, name: string, value: string)
    ensures c + "." + "update" + "(\"" + u + "\", " + ("\"" + name + "\", " + value) + ")" ==
      c + ".update(\"" + u + "\", \"" + name + "\", " + value + ")"
  {
  }

  lemma DictCallShape(c: string, u: string, x: string)
    ensures c + "." + "update" + "(\"" + u + "\", " + ("{" + x + "}") + ")" ==
      c + ".update(\"" + u + "\", {" + x + "})"
  {
  }

  lemma PrecmdAttr(line: string, c: string, a: string, u: string, r: string, name: string, value: string)
    requires Dotted(line) == Some((c, "update", a)) && UidArgs(a) == (u, Some(r))
    requires r != [] && r[0] == '"' && AttrValue(r) == Some((Some(name), Some(value)))
    ensures Precmd(line) == Rewritten("update " + c + " " + u + " " + name + " " + value)
  {
    assert Enclosed(r, '{', '}').None?;
    var av := OrEmpty(Some(name)) + " " + OrEmpty(Some(value));
    assert Precmd(line) == Rewritten("update" + " " + c + " " + u + " " + av);
    UpdateCommandShape(c, u, name, value);
  }

  lemma UpdateCommandShape(c: string, u: string, name: string, value: string)
    ensures "update" + " " + c + " " + u + " " + (name + " " + value) ==
      "update " + c + " " + u + " " + name + " " + value
  {
  }

  /** `<Class>.update("<id>", {...})` goes to `update_dict` with the literal. */
  lemma PrecmdUpdateDict(c: string, u: string, x: string)
    requires AllWord(c) && NoneIs(u, '"') && NoneIs(u, ')')
    requires NoneIs(x, ')') && NoneIs(x, '\n')
    ensures Precmd(c + ".update(\"" + u + "\", {" + x + "})") == DictUpdate(c, u, "{" + x + "}")
  {
    var d := "{" + x + "}";
    NoneIsBraced(x, ')');
    NoneIsBraced(x, '\n');
    var line := c + ".update(\"" + u + "\", {" + x + "})";
    DottedQuoted(c, "update", u, d);
    DictCallShape(c, u, x);
    EnclosedBraces(x);
    PrecmdDict(line, c, "\"" + u + "\", " + d, u, d);
  }

  lemma PrecmdDict(line: string, c: string, a: string, u: string, d: string)
    requires Dotted(line) == Some((c, "update", a)) && UidArgs(a) == (u, Some(d))
    requires d != [] && Enclosed(d, '{', '}') == Some(d)
    ensures Precmd(line) == DictUpdate(c, u, d)
  {
  }

  /** `onecmd` on a rewritten command `"<method> <rest>"`: when the method has a `do_` handler
      it runs with the stripped rest; otherwise `default` gets the stripped line. */
  lemma RewrittenDispatch(m: string, lead: string, mid: string, pad: string)
    requires m != [] && AllWord(m) && lead != [] && AllSpace(lead) && AllSpace(pad)
    requires mid == [] || (!IsSpace(mid[0]) && !IsSpace(mid[|mid| - 1]))
    ensures var line := if mid == [] then m else m + lead + mid;
      Dispatch(m + lead + mid + pad) == (if m in Handlers then Run(m, mid) else Default(line))
  {
    var line := if mid == [] then m else m + lead + mid;
    StripRewritten(m, lead, mid, pad);
    RewrittenParts(m, lead, mid);
    DispatchOfLine(m + lead + mid + pad, line, m, mid);
  }

  /** ... and `_precmd` does not match that line again, so the rewriting never recurses. */
  lemma RewrittenNoRematch(m: string, lead: string, mid: string)
    requires m != [] && AllWord(m) && lead != [] && AllSpace(lead)
    requires mid == [] || (!IsSpace(mid[0]) && !IsSpace(mid[|mid| - 1]))
    ensures Precmd(if mid == [] then m else m + lead + mid) == NoMatch
  {
    var line := if mid == [] then m else m + lead + mid;
    RewrittenParts(m, lead, mid);
    if mid != [] {
      assert line[|m|] == lead[0];
    }
    NoRematch(line, m);
  }

  /** `onecmd` on `"<method> <rest>"`, whatever the rest: the handler runs with the stripped
      rest when there is one, and otherwise `default` gets a line `_precmd` does not match. */
  lemma RewrittenSettles(m: string, x: string)
    requires m != [] && AllWord(m)
    ensures m in Handlers ==> Dispatch(m + " " + x) == Run(m, Strip(x))
    ensures Dispatch(m + " " + x).Run? <==> m in Handlers
    ensures Dispatch(m + " " + x).Run? || Dispatch(m + " " + x).Default?
    ensures Dispatch(m + " " + x).Default? ==> Precmd(Dispatch(m + " " + x).line) == NoMatch
  {
    var pre, pad := StripPieces(x);
    StripEnds(x);
    SettlesSplit(m, x, pre, Strip(x), pad);
  }

  lemma SettlesSplit(m: string, x: string, pre: string, mid: string, pad: string)
    requires m != [] && AllWord(m) && AllSpace(pre) && AllSpace(pad) && x == pre + mid + pad
    requires mid == [] || (!IsSpace(mid[0]) && !IsSpace(mid[|mid| - 1]))
    ensures m in Handlers ==> Dispatch(m + " " + x) == Run(m, mid)
    ensures Dispatch(m + " " + x).Run? <==> m in Handlers
    ensures Dispatch(m + " " + x).Run? || Dispatch(m + " " + x).Default?
    ensures Dispatch(m + " " + x).Default? ==> Precmd(Dispatch(m + " " + x).line) == NoMatch
  {
    var lead := " " + pre;
    SpaceThen(pre);
    var c := m + " " + x;
    assert c == m + lead + mid + pad;
    SettlesOf(c, m, lead, mid, pad);
  }

  lemma SpaceThen(pre: string)
    requires AllSpace(pre)
    ensures AllSpace(" " + pre)
  {
    var lead := " " + pre;
    forall k | 1 <= k < |lead| ensures IsSpace(lead[k]) {
      assert lead[k] == pre[k - 1];
    }
  }

  lemma SettlesOf(c: string, m: string, lead: string, mid: string, pad: string)
    requires m != [] && AllWord(m) && lead != [] && AllSpace(lead) && AllSpace(pad)
    requires mid == [] || (!IsSpace(mid[0]) && !IsSpace(mid[|mid| - 1]))
    requires c == m + lead + mid + pad
    ensures m in Handlers ==> Dispatch(c) == Run(m, mid)
    ensures Dispatch(c).Run? <==> m in Handlers
    ensures Dispatch(c).Run? || Dispatch(c).Default?
    ensures Dispatch(c).Default? ==> Precmd(Dispatch(c).line) == NoMatch
  {
    RewrittenDispatch(m, lead, mid, pad);
    RewrittenNoRematch(m, lead, mid);
  }

  /** A text is its stripped self between two runs of whitespace. */
  lemma StripPieces(x: string) returns (pre: string, pad: string)
    ensures AllSpace(pre) && AllSpace(pad) && x == pre + Strip(x) + pad
  {
    StripSlice(x);
    StripTail(x);
    var i := |x| - |LStrip(x)|;
    var j := i + |Strip(x)|;
    pre, pad := x[..i], x[j..];
    assert AllSpace(pre) by {
      forall k | 0 <= k < |pre| ensures IsSpace(pre[k]) {
        assert pre[k] == x[k];
      }
    }
    assert AllSpace(pad) by {
      forall k | 0 <= k < |pad| ensures IsSpace(pad[k]) {
        assert pad[k] == x[j + k];
      }
    }
    ThreeParts(x, i, j);
  }

  /** Cutting a sequence at two points and gluing the three parts back gives it again. */
  lemma ThreeParts(x: string, i: nat, j: nat)
    requires i <= j <= |x|
    ensures x == x[..i] + x[i..j] + x[j..]
  {
    assert x[..j] == x[..i] + x[i..j];
    assert x == x[..j] + x[j..];
  }

  /** A command `_precmd` builds starts with its method name and a space, so `onecmd` on it
      never sees an empty line and never hands `_precmd` a line it matches. */
  lemma PrecmdSettles(line: string)
    requires Precmd(line).Rewritten?
    ensures var a := Dispatch(Precmd(line).command);
      !a.EmptyLine? && (a.Default? ==> Precmd(a.line) == NoMatch)
  {
    var op, tail := RewrittenHead(line);
    RewrittenSettles(op, tail);
  }

  /** A command `_precmd` builds is its method name, a space and the rest. */
  lemma RewrittenHead(line: string) returns (op: string, tail: string)
    requires Precmd(line).Rewritten?
    ensures op != [] && AllWord(op) && Precmd(line).command == op + " " + tail
  {
    var (cls, o, args) := Dotted(line).value;
    var (uid, rest) := UidArgs(args);
    op := o;
    if o == "update" && rest.Some? && rest.value != "" {
      var av := match AttrValue(rest.value)
        case Some((name, value)) => OrEmpty(name) + " " + OrEmpty(value)
        case None => "";
      tail := cls + " " + uid + " " + av;
      assert Precmd(line) == Rewritten(op + " " + cls + " " + uid + " " + av);
      CommandShape(op, cls, uid, av);
    } else {
      tail := cls + " " + uid + " ";
      assert Precmd(line) == Rewritten(op + " " + cls + " " + uid + " ");
      CommandShape(op, cls, uid, "");
    }
  }

  lemma CommandShape(op: string, cls: string, uid: string, av: string)
    ensures op + " " + cls + " " + uid + " " + av == op + " " + (cls + " " + uid + " " + av)
    ensures op + " " + cls + " " + uid + " " == op + " " + (cls + " " + uid + " ")
  {
  }

  lemma DispatchOfLine(raw: string, line: string, m: string, mid: string)
    requires Strip(raw) == line && m != [] && |m| <= |line| && line[0] == m[0] && IsWordChar(m[0])
    requires WordEnd(line, 0) == |m| && line[..|m|] == m && Strip(line[|m|..]) == mid
    ensures Dispatch(raw) == if m in Handlers then Run(m, mid) else Default(line)
  {
    ParseOfLine(raw, line, m, mid);
  }

  lemma ParseOfLine(raw: string, line: string, m: string, mid: string)
    requires Strip(raw) == line && m != [] && |m| <= |line| && line[0] == m[0] && IsWordChar(m[0])
    requires WordEnd(line, 0) == |m| && line[..|m|] == m && Strip(line[|m|..]) == mid
    ensures ParseLine(raw) == Parsed(Some(m), Some(mid), line)
  {
    WordLine(line);
    SplitWord(line, m, mid);
  }

  /** A line that starts with an identifier character is split into command and argument. */
  lemma WordLine(line: string)
    requires line != [] && IsWordChar(line[0])
    ensures ParseStripped(line) == SplitCommand(line)
  {
  }

  lemma SplitWord(line: string, m: string, mid: string)
    requires |m| <= |line| && WordEnd(line, 0) == |m| && line[..|m|] == m && Strip(line[|m|..]) == mid
    ensures SplitCommand(line) == Parsed(Some(m), Some(mid), line)
  {
  }

  lemma NoRematch(line: string, m: string)
    requires WordEnd(line, 0) == |m| && (|m| == |line| || IsSpace(line[|m|]))
    ensures Precmd(line) == NoMatch
  {
  }

  lemma StripRewritten(m: string, lead: string, mid: string, pad: string)
    requires m != [] && AllWord(m) && lead != [] && AllSpace(lead) && AllSpace(pad)
    requires mid == [] || (!IsSpace(mid[0]) && !IsSpace(mid[|mid| - 1]))
    ensures Strip(m + lead + mid + pad) == if mid == [] then m else m + lead + mid
  {
    var s := m + lead + mid + pad;
    assert !IsSpace(m[0]);
    assert s[0] == m[0];
    assert LStrip(s) == s;
    if mid == [] {
      assert s == m + (lead + pad);
      RStripPad(m, lead + pad);
    } else {
      RStripPad(m + lead + mid, pad);
    }
  }

  lemma RewrittenParts(m: string, lead: string, mid: string)
    requires m != [] && AllWord(m) && lead != [] && AllSpace(lead)
    requires mid == [] || (!IsSpace(mid[0]) && !IsSpace(mid[|mid| - 1]))
    ensures var line := if mid == [] then m else m + lead + mid;
      line[0] == m[0] && WordEnd(line, 0) == |m| && line[..|m|] == m && Strip(line[|m|..]) == mid
  {
    var line := if mid == [] then m else m + lead + mid;
    assert line[0] == m[0];
    WordEndAt(line, 0, |m|);
    assert line[..|m|] == m;
    if mid == [] {
      assert line[|m|..] == [];
    } else {
      assert line[|m|..] == lead + mid;
      LStripPad(lead, mid);
      RStripPad(mid, []);
      assert mid + [] == mid;
    }
  }

  // ---------------------------------------------------------------- do_update

  /** A run of one or more non-whitespace characters. */
  predicate Token(s: string)
  {
    s != [] && forall i :: 0 <= i < |s| ==> !IsSpace(s[i])
  }

  /** The groups of `do_update`'s pattern: class, id, attribute name and value text. */
  datatype UpdateWords = UpdateWords(cls: string, uid: Option<string>, attr: Option<string>,
                                     value: Option<string>)

  /** `\s(\S+)` at `p`: the token after one whitespace character, and where it ends. */
  function NextToken(s: string, p: nat): (r: Option<(string, nat)>)
    requires p <= |s|
    ensures r.Some? ==> p < r.value.1 <= |s| && Token(r.value.0)
  {
    if p + 1 < |s| && IsSpace(s[p]) && !IsSpace(s[p + 1]) then
      var e := SpaceAt(s, p + 1);
      Some((s[p + 1..e], e))
    else None
  }

  /** `\s((?:"[^"]*")|(?:(\S)+))` at `p`: a quoted text (which may hold spaces) in preference
      to a token. */
  function NextValue(s: string, p: nat): Option<string>
    requires p <= |s|
  {
    if p + 1 < |s| && IsSpace(s[p]) && s[p + 1] == '"' && IndexOf(s, '"', p + 2) < |s| then
      Some(s[p + 1..IndexOf(s, '"', p + 2) + 1])
    else match NextToken(s, p)
      case Some((t, _)) => Some(t)
      case None => None
  }

  /** `re.search(r'^(\S+)(?:\s(\S+)(?:\s(\S+)(?:\s((?:"[^"]*")|(?:(\S)+)))?)?)?', line)`:
      no match when the line is empty or opens with whitespace; otherwise as many of the
      four groups as the line supplies, in order. */
  function UpdateArgs(s: string): (r: Option<UpdateWords>)
    ensures r.Some? <==> s != [] && !IsSpace(s[0])
    ensures r.Some? ==> Token(r.value.cls)
    ensures r.Some? && r.value.uid.None? ==> r.value.attr.None?
    ensures r.Some? && r.value.attr.None? ==> r.value.value.None?
  {
    if s == [] || IsSpace(s[0]) then None
    else
      var a := SpaceAt(s, 0);
      match NextToken(s, a)
      case None => Some(UpdateWords(s[..a], None, None, None))
      case Some((uid, b)) =>
        match NextToken(s, b)
        case None => Some(UpdateWords(s[..a], Some(uid), None, None))
        case Some((attr, c)) => Some(UpdateWords(s[..a], Some(uid), Some(attr), NextValue(s, c)))
  }

  lemma SpaceAtEnd(s: string, from: nat, at: nat)
    requires from <= at <= |s| && (at < |s| ==> IsSpace(s[at]))
    requires forall i :: from <= i < at ==> !IsSpace(s[i])
    ensures SpaceAt(s, from) == at
    decreases at - from
  {
    if from < at {
      SpaceAtEnd(s, from + 1, at);
    }
  }

  /** A token ends where whitespace (or the text) begins. */
  lemma TokenThen(pre: string, t: string, post: string)
    requires Token(t) && (post == [] || IsSpace(post[0]))
    ensures var s := pre + t + post;
      SpaceAt(s, |pre|) == |pre| + |t| && s[|pre|..|pre| + |t|] == t
  {
    var s := pre + t + post;
    assert forall i :: |pre| <= i < |pre| + |t| ==> s[i] == t[i - |pre|];
    SpaceAtEnd(s, |pre|, |pre| + |t|);
  }

  /** `\s(\S+)` after `pre` finds the token that follows one space. */
  lemma NextTokenThen(pre: string, t: string, post: string)
    requires Token(t) && (post == [] || IsSpace(post[0]))
    ensures NextToken(pre + " " + t + post, |pre|) == Some((t, |pre| + 1 + |t|))
  {
    var s := pre + " " + t + post;
    assert s == (pre + " ") + t + post;
    TokenThen(pre + " ", t, post);
    assert s[|pre|] == ' ' && s[|pre| + 1] == t[0];
  }

  /** The three leading words of `"<Class> <id> <name> ..."`. */
  lemma UpdateArgsHead(cls: string, uid: string, name: string, tail: string)
    requires Token(cls) && Token(uid) && Token(name) && (tail == [] || IsSpace(tail[0]))
    ensures var s := cls + " " + uid + " " + name + tail;
      UpdateArgs(s) == Some(UpdateWords(cls, Some(uid), Some(name), NextValue(s, |s| - |tail|)))
  {
    HeadClass(cls, uid, name, tail);
    HeadId(cls, uid, name, tail);
    HeadName(cls, uid, name, tail);
    var s := cls + " " + uid + " " + name + tail;
    UpdateArgsOf(s, cls, uid, |cls| + 1 + |uid|, name, |s| - |tail|);
  }

  lemma HeadClass(cls: string, uid: string, name: string, tail: string)
    requires Token(cls) && Token(uid) && Token(name) && (tail == [] || IsSpace(tail[0]))
    ensures var s := cls + " " + uid + " " + name + tail;
      s != [] && !IsSpace(s[0]) && SpaceAt(s, 0) == |cls| && s[..|cls|] == cls
  {
    var s := cls + " " + uid + " " + name + tail;
    assert s[0] == cls[0];
    assert s == [] + cls + (" " + uid + " " + name + tail);
    TokenThen([], cls, " " + uid + " " + name + tail);
  }

  lemma HeadId(cls: string, uid: string, name: string, tail: string)
    requires Token(cls) && Token(uid) && Token(name) && (tail == [] || IsSpace(tail[0]))
    ensures var s := cls + " " + uid + " " + name + tail;
      NextToken(s, |cls|) == Some((uid, |cls| + 1 + |uid|))
  {
    var s := cls + " " + uid + " " + name + tail;
    assert s == cls + " " + uid + (" " + name + tail);
    NextTokenThen(cls, uid, " " + name + tail);
  }

  lemma HeadName(cls: string, uid: string, name: string, tail: string)
    requires Token(cls) && Token(uid) && Token(name) && (tail == [] || IsSpace(tail[0]))
    ensures var s := cls + " " + uid + " " + name + tail;
      NextToken(s, |cls| + 1 + |uid|) == Some((name, |s| - |tail|))
  {
    NextTokenThen(cls + " " + uid, name, tail);
  }

  lemma UpdateArgsOf(s: string, cls: string, uid: string, b: nat, name: string, c: nat)
    requires s != [] && !IsSpace(s[0]) && |cls| <= b <= c <= |s| && SpaceAt(s, 0) == |cls|
    requires s[..|cls|] == cls
    requires NextToken(s, |cls|) == Some((uid, b)) && NextToken(s, b) == Some((name, c))
    ensures UpdateArgs(s) == Some(UpdateWords(cls, Some(uid), Some(name), NextValue(s, c)))
  {
  }

  /** `update <Class> <id> <name> <value>` with a bare value: the value is its token, and
      anything after further whitespace is ignored. */
  lemma UpdateArgsBare(cls: string, uid: string, name: string, value: string, rest: string)
    requires Token(cls) && Token(uid) && Token(name) && Token(value) && value[0] != '"'
    requires rest == [] || IsSpace(rest[0])
    ensures UpdateArgs(cls + " " + uid + " " + name + " " + value + rest) ==
      Some(UpdateWords(cls, Some(uid), Some(name), Some(value)))
  {
    var tail := " " + value + rest;
    BareTailShape(cls + " " + uid + " " + name, value, rest);
    UpdateArgsBareValue(cls + " " + uid + " " + name + " " + value + rest, cls, uid, name, value, rest, tail);
  }

  lemma BareTailShape(pre: string, value: string, rest: string)
    ensures pre + " " + value + rest == pre + (" " + value + rest)
  {
  }

  lemma UpdateArgsBareValue(s: string, cls: string, uid: string, name: string, value: string, rest: string, tail: string)
    requires Token(cls) && Token(uid) && Token(name) && Token(value) && value[0] != '"'
    requires (rest == [] || IsSpace(rest[0])) && tail == " " + value + rest
    requires s == cls + " " + uid + " " + name + tail
    ensures UpdateArgs(s) == Some(UpdateWords(cls, Some(uid), Some(name), Some(value)))
  {
    UpdateArgsHead(cls, uid, name, tail);
    NextValueBare(cls + " " + uid + " " + name, value, rest, tail);
  }

  lemma NextValueBare(pre: string, value: string, rest: string, tail: string)
    requires Token(value) && value[0] != '"' && (rest == [] || IsSpace(rest[0]))
    requires tail == " " + value + rest
    ensures NextValue(pre + tail, |pre|) == Some(value)
  {
    var s := pre + tail;
    var c := |pre|;
    assert s[c] == ' ' && s[c + 1] == value[0];
    forall i | c + 1 <= i < c + 1 + |value| ensures !IsSpace(s[i]) {
      assert s[i] == value[i - c - 1];
    }
    if c + 1 + |value| < |s| {
      assert s[c + 1 + |value|] == rest[0];
    }
    SpaceAtEnd(s, c + 1, c + 1 + |value|);
    assert s[c + 1..c + 1 + |value|] == value;
  }

  /** ... and with a quoted value the value is the quoted text, spaces and all. */
  lemma UpdateArgsQuoted(cls: string, uid: string, name: string, x: string, rest: string)
    requires Token(cls) && Token(uid) && Token(name) && NoneIs(x, '"')
    ensures UpdateArgs(cls + " " + uid + " " + name + " \"" + x + "\"" + rest) ==
      Some(UpdateWords(cls, Some(uid), Some(name), Some("\"" + x + "\"")))
  {
    var tail := " \"" + x + "\"" + rest;
    QuotedTailShape(cls + " " + uid + " " + name, x, rest);
    UpdateArgsValue(cls + " " + uid + " " + name + " \"" + x + "\"" + rest, cls, uid, name, x, rest, tail);
  }

  lemma QuotedTailShape(pre: string, x: string, rest: string)
    ensures pre + " \"" + x + "\"" + rest == pre + (" \"" + x + "\"" + rest)
  {
  }

  lemma UpdateArgsValue(s: string, cls: string, uid: string, name: string, x: string, rest: string, tail: string)
    requires Token(cls) && Token(uid) && Token(name) && NoneIs(x, '"')
    requires tail == " \"" + x + "\"" + rest && s == cls + " " + uid + " " + name + tail
    ensures UpdateArgs(s) == Some(UpdateWords(cls, Some(uid), Some(name), Some("\"" + x + "\"")))
  {
    UpdateArgsHead(cls, uid, name, tail);
    NextValueQuoted(cls + " " + uid + " " + name, x, rest, tail);
  }

  lemma NextValueQuoted(pre: string, x: string, rest: string, tail: string)
    requires NoneIs(x, '"') && tail == " \"" + x + "\"" + rest
    ensures NextValue(pre + tail, |pre|) == Some("\"" + x + "\"")
  {
    var s := pre + tail;
    var c := |pre|;
    assert s[c] == ' ' && s[c + 1] == '"' && s[c + 2 + |x|] == '"';
    assert forall i :: c + 2 <= i < c + 2 + |x| ==> s[i] == x[i - c - 2];
    IndexOfFirst(s, '"', c + 2, c + 2 + |x|);
    assert s[c + 1..c + 3 + |x|] == "\"" + x + "\"";
  }

  /** `re.search(r'^".*"$', value)`: the value is a quoted literal. */
  predicate QuotedLiteral(v: string)
  {
    Enclosed(v, '"', '"').Some?
  }

  /** `value.replace('"', '')` */
  function RemoveQuotes(s: string): (r: string)
    ensures NoneIs(r, '"') && |r| <= |s|
  {
    if s == [] then [] else (if s[0] == '"' then [] else [s[0]]) + RemoveQuotes(s[1..])
  }

  lemma {:induction false} RemoveQuotesNone(s: string)
    requires NoneIs(s, '"')
    ensures RemoveQuotes(s) == s
  {
    if s != [] {
      RemoveQuotesNone(s[1..]);
    }
  }

  /** A quoted value on one line is a quoted literal, and dropping the quotes gives the text
      between them. */
  lemma QuotedValue(x: string)
    requires NoneIs(x, '"') && NoneIs(x, '\n')
    ensures QuotedLiteral("\"" + x + "\"") && RemoveQuotes("\"" + x + "\"") == x
  {
    var v := "\"" + x + "\"";
    assert IndexOf(v, '\n', 1) == |v| by {
      assert forall i :: 1 <= i < |v| - 1 ==> v[i] == x[i - 1];
    }
    RemoveQuotesNone(x);
    assert v[1..] == x + "\"";
    RemoveQuotesAppend(x);
  }

  lemma {:induction false} RemoveQuotesAppend(x: string)
    requires NoneIs(x, '"')
    ensures RemoveQuotes(x + "\"") == x
  {
    if x == [] {
      assert RemoveQuotes("\"") == [];
    } else {
      assert (x + "\"")[1..] == x[1..] + "\"";
      RemoveQuotesAppend(x[1..]);
    }
  }
}
