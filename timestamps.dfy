/**
 * The `datetime.datetime` values the objects carry as `created_at` and
 * `updated_at`, their `isoformat()` text, and `datetime.strptime` with the
 * format `"%Y-%m-%dT%H:%M:%S.%f"` that reads that text back.
 */
module Timestamps {
  import opened Wrappers
  import opened Decimal

  datatype DateTime = DateTime(year: int, month: int, day: int,
                               hour: int, minute: int, second: int, micro: int)

  predicate IsLeap(y: int)
  {
    y % 4 == 0 && (y % 100 != 0 || y % 400 == 0)
  }

  function DaysInMonth(y: int, m: int): int
  {
    if m == 2 then (if IsLeap(y) then 29 else 28)
    else if m == 4 || m == 6 || m == 9 || m == 11 then 30
    else 31
  }

  /** The field ranges that `datetime.datetime` enforces. */
  predicate Valid(t: DateTime)
  {
    && 1 <= t.year <= 9999
    && 1 <= t.month <= 12
    && 1 <= t.day <= DaysInMonth(t.year, t.month)
    && 0 <= t.hour < 24
    && 0 <= t.minute < 60
    && 0 <= t.second < 60
    && 0 <= t.micro < 1000000
  }

  /** The datetimes Python can hold. */
  type Stamp = t: DateTime | Valid(t) witness DateTime(1, 1, 1, 0, 0, 0, 0)

  /** `a <= b` on datetimes: chronological, that is lexicographic on the fields. */
  predicate Le(a: DateTime, b: DateTime)
  {
    a.year < b.year || (a.year == b.year &&
    (a.month < b.month || (a.month == b.month &&
    (a.day < b.day || (a.day == b.day &&
    (a.hour < b.hour || (a.hour == b.hour &&
    (a.minute < b.minute || (a.minute == b.minute &&
    (a.second < b.second || (a.second == b.second &&
    a.micro <= b.micro)))))))))))
  }

  lemma LeTransitive(a: DateTime, b: DateTime, c: DateTime)
    requires Le(a, b) && Le(b, c)
    ensures Le(a, c)
  {
  }

  /** `YYYY-MM-DD` */
  function DatePart(t: DateTime): string
    requires Valid(t)
  {
    Pad(t.year, 4) + "-" + Pad(t.month, 2) + "-" + Pad(t.day, 2)
  }

  /** `HH:MM:SS` */
  function ClockPart(t: DateTime): string
    requires Valid(t)
  {
    Pad(t.hour, 2) + ":" + Pad(t.minute, 2) + ":" + Pad(t.second, 2)
  }

  /** `t.isoformat(sep)`: `YYYY-MM-DD<sep>HH:MM:SS`, followed by `.ffffff` only when the
      microseconds are not zero. */
  function IsoFormat(t: DateTime, sep: char): string
    requires Valid(t)
  {
    DatePart(t) + [sep] + ClockPart(t) + (if t.micro != 0 then "." + Pad(t.micro, 6) else "")
  }

  /** Three digit fields of widths `w1`, `w2`, `w3` separated by `sep`. */
  function ParseFields(s: string, w1: nat, w2: nat, w3: nat, sep: char): Option<(nat, nat, nat)>
    requires |s| == w1 + w2 + w3 + 2
  {
    var a, b, c := s[..w1], s[w1 + 1..w1 + 1 + w2], s[w1 + w2 + 2..];
    if AllDigits(a) && s[w1] == sep && AllDigits(b) && s[w1 + 1 + w2] == sep && AllDigits(c)
    then Some((Value(a), Value(b), Value(c)))
    else None
  }

  /** `datetime.strptime(s, "%Y-%m-%dT%H:%M:%S.%f")`; `None` where Python raises `ValueError`.
      The fraction takes one to six digits and is read as a fraction of a second. */
  function ParseTimestamp(s: string): (r: Option<DateTime>)
    ensures r.Some? ==> Valid(r.value)
  {
    if |s| < 21 || |s| > 26 || s[10] != 'T' || s[19] != '.' || !AllDigits(s[20..]) then None
    else match (ParseFields(s[..10], 4, 2, 2, '-'), ParseFields(s[11..19], 2, 2, 2, ':'))
      case (Some((y, mo, d)), Some((h, mi, sec))) =>
        var t := DateTime(y, mo, d, h, mi, sec, Value(s[20..]) * Pow10(26 - |s|));
        if Valid(t) then Some(t) else None
      case _ => None
  }

  /** The three padded fields read back. */
  lemma FieldsRoundTrip(a: nat, b: nat, c: nat, w1: nat, w2: nat, w3: nat, sep: char)
    requires a < Pow10(w1) && b < Pow10(w2) && c < Pow10(w3) && !IsDigit(sep)
    ensures |Pad(a, w1) + [sep] + Pad(b, w2) + [sep] + Pad(c, w3)| == w1 + w2 + w3 + 2
    ensures ParseFields(Pad(a, w1) + [sep] + Pad(b, w2) + [sep] + Pad(c, w3), w1, w2, w3, sep)
            == Some((a, b, c))
  {
    PadValue(a, w1);
    PadValue(b, w2);
    PadValue(c, w3);
    FieldsOf(Pad(a, w1), Pad(b, w2), Pad(c, w3), sep);
  }

  /** Three digit strings joined by `sep` read back as their values. */
  lemma FieldsOf(x: string, y: string, z: string, sep: char)
    requires AllDigits(x) && AllDigits(y) && AllDigits(z)
    ensures ParseFields(x + [sep] + y + [sep] + z, |x|, |y|, |z|, sep) == Some((Value(x), Value(y), Value(z)))
  {
    FieldsAt(x + [sep] + y + [sep] + z, x, y, z, sep);
  }

  lemma FieldsAt(s: string, x: string, y: string, z: string, sep: char)
    requires s == x + [sep] + y + [sep] + z
    ensures |s| == |x| + |y| + |z| + 2 && s[|x|] == sep && s[|x| + 1 + |y|] == sep
    ensures s[..|x|] == x && s[|x| + 1..|x| + 1 + |y|] == y && s[|x| + |y| + 2..] == z
  {
    assert s[..|x|] == x;
    assert s[|x| + 1..|x| + 1 + |y|] == y;
    assert s[|x| + |y| + 2..] == z;
  }

  /** Fields that parse are the padded texts of their values. */
  lemma FieldsCanonical(s: string, w1: nat, w2: nat, w3: nat, sep: char)
    requires |s| == w1 + w2 + w3 + 2 && ParseFields(s, w1, w2, w3, sep).Some?
    ensures s == Pad(ParseFields(s, w1, w2, w3, sep).value.0, w1) + [sep]
               + Pad(ParseFields(s, w1, w2, w3, sep).value.1, w2) + [sep]
               + Pad(ParseFields(s, w1, w2, w3, sep).value.2, w3)
  {
    var a, b, c := s[..w1], s[w1 + 1..w1 + 1 + w2], s[w1 + w2 + 2..];
    assert AllDigits(a) && AllDigits(b) && AllDigits(c);
    PadOfValue(a);
    PadOfValue(b);
    PadOfValue(c);
    FieldsSplit(s, w1, w2, sep);
  }

  /** A text with `sep` at `w1` and at `w1 + 1 + w2` is its three pieces joined by `sep`. */
  lemma FieldsSplit(s: string, w1: nat, w2: nat, sep: char)
    requires w1 + w2 + 2 <= |s| && s[w1] == sep && s[w1 + 1 + w2] == sep
    ensures s == s[..w1] + [sep] + s[w1 + 1..w1 + 1 + w2] + [sep] + s[w1 + w2 + 2..]
  {
    assert s[..w1 + 1 + w2] == s[..w1] + [sep] + s[w1 + 1..w1 + 1 + w2];
    assert s == s[..w1 + 1 + w2] + [sep] + s[w1 + w2 + 2..];
  }

  /** `strptime(t.isoformat(), ...)` gives back `t` whenever the microseconds are not zero. */
  lemma IsoFormatRoundTrip(t: DateTime)
    requires Valid(t) && t.micro != 0
    ensures ParseTimestamp(IsoFormat(t, 'T')) == Some(t)
  {
    FieldsRoundTrip(t.year, t.month, t.day, 4, 2, 2, '-');
    FieldsRoundTrip(t.hour, t.minute, t.second, 2, 2, 2, ':');
    PadValue(t.micro, 6);
    var s := IsoFormat(t, 'T');
    StampAt(s, DatePart(t), ClockPart(t), Pad(t.micro, 6));
    ParseOfParts(s, t);
  }

  /** Where the date, the clock and the fraction sit in a stamp. */
  lemma StampAt(s: string, d: string, c: string, f: string)
    requires |d| == 10 && |c| == 8 && s == d + ['T'] + c + ("." + f)
    ensures |s| == 20 + |f| && s[10] == 'T' && s[19] == '.'
    ensures s[..10] == d && s[11..19] == c && s[20..] == f
  {
    assert s[..10] == d;
    assert s[11..19] == c;
    assert s[20..] == f;
  }

  /** `ParseTimestamp` on a text whose parts read as the fields of a valid `t`. */
  lemma ParseOfParts(s: string, t: DateTime)
    requires Valid(t) && |s| == 26 && s[10] == 'T' && s[19] == '.'
    requires AllDigits(s[20..]) && Value(s[20..]) == t.micro
    requires ParseFields(s[..10], 4, 2, 2, '-') == Some((t.year, t.month, t.day))
    requires ParseFields(s[11..19], 2, 2, 2, ':') == Some((t.hour, t.minute, t.second))
    ensures ParseTimestamp(s) == Some(t)
  {
    assert Pow10(0) == 1;
  }

  /** When the microseconds are zero, `isoformat()` omits the fraction and `strptime` with
      `.%f` rejects its own output. */
  lemma IsoFormatZeroMicroRejected(t: DateTime)
    requires Valid(t) && t.micro == 0
    ensures ParseTimestamp(IsoFormat(t, 'T')).None?
  {
    FieldsRoundTrip(t.year, t.month, t.day, 4, 2, 2, '-');
    FieldsRoundTrip(t.hour, t.minute, t.second, 2, 2, 2, ':');
    assert |IsoFormat(t, 'T')| == 19;
  }

  /** A stamp with a six-digit fraction that parses is exactly the `isoformat()` of what it
      parses to, unless that fraction is zero. */
  lemma ParseTimestampCanonical(s: string)
    requires |s| == 26 && ParseTimestamp(s).Some? && ParseTimestamp(s).value.micro != 0
    ensures IsoFormat(ParseTimestamp(s).value, 'T') == s
  {
    var t := ParseTimestamp(s).value;
    PartsOfParse(s);
    FieldsCanonical(s[..10], 4, 2, 2, '-');
    FieldsCanonical(s[11..19], 2, 2, 2, ':');
    PadOfValue(s[20..]);
    StampSplit(s);
  }

  /** What a successful parse of a 26-character stamp read from each part. */
  lemma PartsOfParse(s: string)
    requires |s| == 26 && ParseTimestamp(s).Some?
    ensures var t := ParseTimestamp(s).value;
      s[10] == 'T' && s[19] == '.' && AllDigits(s[20..]) && t.micro == Value(s[20..]) &&
      ParseFields(s[..10], 4, 2, 2, '-') == Some((t.year, t.month, t.day)) &&
      ParseFields(s[11..19], 2, 2, 2, ':') == Some((t.hour, t.minute, t.second))
  {
    assert Pow10(0) == 1;
  }

  /** A stamp is its date, `T`, its clock, `.` and its fraction. */
  lemma StampSplit(s: string)
    requires |s| == 26 && s[19] == '.'
    ensures s == s[..10] + [s[10]] + s[11..19] + ("." + s[20..])
  {
    assert s[11..] == s[11..19] + ("." + s[20..]);
    assert s == s[..10] + [s[10]] + s[11..];
  }

  /** Padding the value of a digit string to its own length gives the string back. */
  lemma {:induction false} PadOfValue(s: string)
    requires AllDigits(s)
    ensures Value(s) < Pow10(|s|) && Pad(Value(s), |s|) == s
  {
    if s != [] {
      var p := s[..|s| - 1];
      PadOfValue(p);
      assert (10 * Value(p) + DigitValue(s[|s| - 1])) / 10 == Value(p);
      assert (10 * Value(p) + DigitValue(s[|s| - 1])) % 10 == DigitValue(s[|s| - 1]);
      assert s == p + [s[|s| - 1]];
    }
  }
}
