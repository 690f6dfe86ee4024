/**
 * The Python values an object's attributes can hold, with Python's `str()`
 * and `repr()` of them. `repr` is what `print` shows for a dictionary or a
 * list, so it is how `BaseModel.__str__` and `do_all` render objects.
 */
module PyValues {
  import opened Decimal
  import opened Timestamps

  /** `str`, `int`, `float` (kept as its `repr` text), `bool`, `None`, `list`, `dict` and
      `datetime.datetime`. */
  datatype Value =
    | Str(s: string)
    | Int(i: int)
    | Float(text: string)
    | Bool(b: bool)
    | Null
    | List(items: seq<Value>)
    | Map(entries: seq<(string, Value)>)
    | Time(t: Stamp)

  /** `sep.join(parts)` */
  function Join(parts: seq<string>, sep: string): string
  {
    if parts == [] then "" else if |parts| == 1 then parts[0] else parts[0] + sep + Join(parts[1..], sep)
  }

  /** Two hexadecimal digits of a value below 256, as `\xNN` escapes print them. */
  function Hex2(n: nat): string
    requires n < 256
  {
    [HexDigit(n / 16), HexDigit(n % 16)]
  }

  function HexDigit(n: nat): char
    requires n < 16
  {
    if n < 10 then DigitChar(n) else ('a' as int + (n - 10)) as char
  }

  /** Characters `repr` writes as `\xNN`: the C0 controls other than tab, newline and carriage
      return, DEL, the C1 controls, no-break space and soft hyphen. */
  predicate HexEscaped(c: char)
  {
    var n := c as int;
    (n < 0x20 && c != '\t' && c != '\n' && c != '\r') || (0x7f <= n <= 0xa0) || n == 0xad
  }

  /** One character inside a string literal delimited by `q`. */
  function EscapeChar(c: char, q: char): string
  {
    if c == '\\' then "\\\\"
    else if c == q then ['\\', q]
    else if c == '\t' then "\\t"
    else if c == '\n' then "\\n"
    else if c == '\r' then "\\r"
    else if HexEscaped(c) then "\\x" + Hex2(c as int)
    else [c]
  }

  function Escape(s: string, q: char): string
  {
    if s == [] then "" else EscapeChar(s[0], q) + Escape(s[1..], q)
  }

  /** The quote `repr` chooses: double quotes when the text holds a single quote and no
      double quote, single quotes otherwise. */
  function QuoteFor(s: string): char
  {
    if '\'' in s && '"' !in s then '"' else '\''
  }

  /** `repr(s)` for a string. */
  function ReprString(s: string): string
  {
    var q := QuoteFor(s);
    [q] + Escape(s, q) + [q]
  }

  /** `repr(t)` for a datetime: `datetime.datetime(Y, M, D, h, m[, s[, us]])`, dropping the
      microseconds when zero and then the seconds when zero. */
  function ReprDateTime(t: DateTime): string
  {
    var fields := [t.year, t.month, t.day, t.hour, t.minute]
      + (if t.micro != 0 then [t.second, t.micro] else if t.second != 0 then [t.second] else []);
    "datetime.datetime(" + Join(seq(|fields|, i requires 0 <= i < |fields| => IntToString(fields[i])), ", ") + ")"
  }

  /** `repr(v)` */
  function Repr(v: Value): string
  {
    match v
    case Str(s) => ReprString(s)
    case Int(i) => IntToString(i)
    case Float(text) => text
    case Bool(b) => if b then "True" else "False"
    case Null => "None"
    case List(xs) => "[" + Join(seq(|xs|, i requires 0 <= i < |xs| => Repr(xs[i])), ", ") + "]"
    case Map(es) => "{" + Join(seq(|es|, i requires 0 <= i < |es| => ReprString(es[i].0) + ": " + Repr(es[i].1)), ", ") + "}"
    case Time(t) => ReprDateTime(t)
  }

  /** `str(v)`: the text itself for a string, `isoformat(' ')` for a datetime, `repr` otherwise. */
  function StrOf(v: Value): string
  {
    match v
    case Str(s) => s
    case Time(t) => IsoFormat(t, ' ')
    case _ => Repr(v)
  }

  /** Whether `json.dump` can write the value: everything but a datetime, at any depth. */
  predicate Encodable(v: Value)
  {
    match v
    case Time(_) => false
    case List(xs) => forall i :: 0 <= i < |xs| ==> Encodable(xs[i])
    case Map(es) => forall i :: 0 <= i < |es| ==> Encodable(es[i].1)
    case _ => true
  }
}
