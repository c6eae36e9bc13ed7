/** The handful of Python string operations the report helpers use on omit paths and keys:
    `str.split('.', 1)`, `str.split('.')`, `'.'.join`, `str(int)`, `str.isdigit()` with
    `int(str)`, `str.replace(' ', '_')` and the ASCII part of `str.lower()`. */
module Text {
  import opened Wrappers

  const Dot: char := '.'

  /** Python's `s.split('.', 1)`: the text before the first dot and, when there is a dot,
      the text after it. */
  function SplitFirst(s: string): (r: (string, Option<string>))
    ensures r.1.None? ==> r.0 == s && Dot !in s
    ensures r.1.Some? ==> s == r.0 + [Dot] + r.1.value && Dot !in r.0
    ensures r.1.Some? ==> |r.1.value| < |s|
  {
    if |s| == 0 then ("", None)
    else if s[0] == Dot then ("", Some(s[1..]))
    else
      var (h, t) := SplitFirst(s[1..]);
      assert s == [s[0]] + s[1..];
      ([s[0]] + h, t)
  }

  /** Splitting at the first dot of `a + "." + b` gives back `a` and `b` when `a` has no dot. */
  lemma {:induction false} SplitFirstAt(a: string, b: string)
    requires Dot !in a
    ensures SplitFirst(a + [Dot] + b) == (a, Some(b))
  {
    if |a| == 0 {
      assert a + [Dot] + b == [Dot] + b;
    } else {
      assert (a + [Dot] + b)[1..] == a[1..] + [Dot] + b;
      SplitFirstAt(a[1..], b);
      assert [a[0]] + a[1..] == a;
    }
  }

  /** A dot-free string does not split. */
  lemma SplitFirstNoDot(s: string)
    requires Dot !in s
    ensures SplitFirst(s) == (s, None)
  {
  }

  /** Python's `s.split('.')`. */
  function Split(s: string): (parts: seq<string>)
    ensures |parts| >= 1
    ensures forall i :: 0 <= i < |parts| ==> Dot !in parts[i]
    ensures SplitFirst(s).1.None? <==> |parts| == 1
    decreases |s|
  {
    match SplitFirst(s)
    case (h, None) => [h]
    case (h, Some(t)) => [h] + Split(t)
  }

  /** Python's `'.'.join(parts)`. */
  function Join(parts: seq<string>): string
  {
    if |parts| == 0 then ""
    else if |parts| == 1 then parts[0]
    else parts[0] + [Dot] + Join(parts[1..])
  }

  /** Joining the pieces of a split gives back the original string. */
  lemma {:induction false} JoinSplit(s: string)
    ensures Join(Split(s)) == s
    decreases |s|
  {
    match SplitFirst(s)
    case (h, None) =>
    case (h, Some(t)) =>
      JoinSplit(t);
  }

  /** Splitting a join of dot-free pieces gives back the pieces. */
  lemma {:induction false} SplitJoin(parts: seq<string>)
    requires |parts| >= 1
    requires forall i :: 0 <= i < |parts| ==> Dot !in parts[i]
    ensures Split(Join(parts)) == parts
    decreases |parts|
  {
    if |parts| == 1 {
      SplitFirstNoDot(parts[0]);
    } else {
      SplitFirstAt(parts[0], Join(parts[1..]));
      SplitJoin(parts[1..]);
      assert [parts[0]] + parts[1..] == parts;
    }
  }

  function DigitChar(d: nat): char
    requires d < 10
  {
    "0123456789"[d]
  }

  /** Decimal digits of a natural number, most significant first, without leading zeros. */
  function NatToDigits(n: nat): (s: string)
    ensures |s| >= 1
    ensures forall i :: 0 <= i < |s| ==> '0' <= s[i] <= '9'
    decreases n
  {
    if n < 10 then [DigitChar(n)] else NatToDigits(n / 10) + [DigitChar(n % 10)]
  }

  /** Python's `str(i)` for an int. */
  function IntToStr(i: int): (s: string)
    ensures |s| >= 1 && Dot !in s && s != "*"
  {
    if i < 0 then "-" + NatToDigits(-i) else NatToDigits(i)
  }

  /** Python's `s.isdigit()`, restricted to ASCII digits. */
  predicate IsDigits(s: string)
  {
    |s| > 0 && forall i :: 0 <= i < |s| ==> '0' <= s[i] <= '9'
  }

  /** Python's `int(s)` on a digit string; leading zeros are allowed. */
  function DigitsValue(s: string): nat
    requires forall i :: 0 <= i < |s| ==> '0' <= s[i] <= '9'
    decreases |s|
  {
    if |s| == 0 then 0 else DigitsValue(s[..|s| - 1]) * 10 + (s[|s| - 1] as int - '0' as int)
  }

  /** `int(str(n)) == n` for a natural number, and `str(n).isdigit()`. */
  lemma {:induction false} DigitsRoundTrip(n: nat)
    ensures IsDigits(IntToStr(n))
    ensures DigitsValue(IntToStr(n)) == n
    decreases n
  {
    if n >= 10 {
      DigitsRoundTrip(n / 10);
      var s := NatToDigits(n);
      assert s[..|s| - 1] == NatToDigits(n / 10);
    }
  }

  /** `str(i)` of a negative number starts with `-`, so it never passes `isdigit()`. */
  lemma NegativeNotDigits(i: int)
    requires i < 0
    ensures !IsDigits(IntToStr(i))
  {
    assert IntToStr(i)[0] == '-';
  }

  /** Python's `s.replace(' ', '_')`. */
  function ReplaceSpaces(s: string): (r: string)
    ensures |r| == |s|
    ensures ' ' !in r
    ensures forall i :: 0 <= i < |s| && s[i] == ' ' ==> r[i] == '_'
    ensures forall i :: 0 <= i < |s| && s[i] != ' ' ==> r[i] == s[i]
  {
    if |s| == 0 then "" else [if s[0] == ' ' then '_' else s[0]] + ReplaceSpaces(s[1..])
  }

  /** `str.lower()` on ASCII letters; other characters are left alone. */
  function LowerAscii(s: string): (r: string)
    ensures |r| == |s|
    ensures forall i :: 0 <= i < |s| ==> !('A' <= r[i] <= 'Z')
    ensures forall i :: 0 <= i < |s| && 'A' <= s[i] <= 'Z' ==> r[i] as int == s[i] as int + 32
    ensures forall i :: 0 <= i < |s| && !('A' <= s[i] <= 'Z') ==> r[i] == s[i]
  {
    if |s| == 0 then ""
    else [if 'A' <= s[0] <= 'Z' then (s[0] as int + 32) as char else s[0]] + LowerAscii(s[1..])
  }
}
