/** The few JavaScript number and string operations the application relies on, written out:
    truncated `%`, `Math.min`/`Math.max`, `parseInt(...) || d`, `toString`, `padStart(2, '0')`
    and `trim`. */
module Js {
  import opened Types

  function Abs(x: int): (r: int)
    ensures r >= 0
  {
    if x < 0 then -x else x
  }

  function Min(a: int, b: int): int { if a <= b then a else b }

  function Max(a: int, b: int): int { if a >= b then a else b }

  /** JavaScript `%` on integers: the quotient is truncated toward zero, so the remainder has
      the sign of the dividend (Dafny's own `%` is Euclidean). */
  function Rem(a: int, b: int): (r: int)
    requires b != 0
    ensures a >= 0 ==> r == a % b
    ensures a >= 0 ==> 0 <= r < Abs(b)
    ensures a < 0 ==> -Abs(b) < r <= 0
    ensures (a - r) % b == 0
  {
    if a >= 0 then
      NonNegativeRem(a, b);
      a % b
    else
      var m := (-a) % b;
      NegativeRem(a, b);
      assert a - (-m) == a + m;
      -m
  }

  /** A multiple of `b` leaves no remainder. */
  lemma MultipleRem(b: int, k: int)
    requires b != 0
    ensures (b * k) % b == 0
  {
    var x := b * k;
    var m := k - x / b;
    assert x % b == b * m by {
      assert x == b * (x / b) + x % b;
      assert b * m == b * k - b * (x / b);
    }
    SmallMultiple(b, m);
  }

  /** The only multiple of `b` in `[0, |b|)` is 0. */
  lemma SmallMultiple(b: int, m: int)
    requires b != 0 && 0 <= b * m < Abs(b)
    ensures m == 0
  {
  }

  /** For a non-negative dividend the remainder differs from it by a multiple of the divisor. */
  lemma NonNegativeRem(a: int, b: int)
    requires b != 0 && a >= 0
    ensures (a - a % b) % b == 0
  {
    assert a == b * (a / b) + a % b;
    assert a - a % b == b * (a / b);
    MultipleRem(b, a / b);
  }

  /** For a negative dividend the truncated remainder differs from the dividend by a multiple
      of the divisor. */
  lemma NegativeRem(a: int, b: int)
    requires b != 0 && a < 0
    ensures (a + (-a) % b) % b == 0
  {
    var q := (-a) / b;
    assert -a == b * q + (-a) % b;
    assert a + (-a) % b == b * (-q);
    MultipleRem(b, -q);
  }

  /** `parseInt(text) || d`, given the parsed number (`None` for NaN): NaN and 0 are falsy. */
  function OrDefault(parsed: Option<int>, d: int): (r: int)
    ensures parsed.None? ==> r == d
    ensures parsed == Some(0) ==> r == d
    ensures parsed.Some? && parsed.value != 0 ==> r == parsed.value
  {
    match parsed
    case None => d
    case Some(v) => if v == 0 then d else v
  }

  predicate IsDigit(c: char) { '0' <= c <= '9' }

  function DigitChar(d: int): (c: char)
    requires 0 <= d < 10
    ensures IsDigit(c)
  {
    ('0' as int + d) as char
  }

  function DigitValue(c: char): int { c as int - '0' as int }

  /** The decimal digits of a natural number, most significant first, no leading zeros. */
  function Digits(n: nat): (s: string)
    ensures 1 <= |s|
    ensures forall i :: 0 <= i < |s| ==> IsDigit(s[i])
    ensures n < 100 ==> |s| <= 2
    decreases n
  {
    if n < 10 then [DigitChar(n)] else Digits(n / 10) + [DigitChar(n % 10)]
  }

  /** `Number.prototype.toString()` on an integer. */
  function ToString(n: int): string
  {
    if n < 0 then "-" + Digits(-n) else Digits(n)
  }

  /** `padStart(2, '0')`. */
  function PadStart2(s: string): (r: string)
    ensures |r| == if |s| >= 2 then |s| else 2
    ensures r[|r| - |s|..] == s
    ensures forall i :: 0 <= i < |r| - |s| ==> r[i] == '0'
  {
    if |s| >= 2 then s else if |s| == 1 then "0" + s else "00"
  }

  /** The `MM:SS` and `HH:MM` displays: the floored quotient by 60 and the remainder,
      each padded to two digits, joined by a colon. */
  function FormatColon(n: int): string
  {
    PadStart2(ToString(n / 60)) + ":" + PadStart2(ToString(Rem(n, 60)))
  }

  /** The number a string of decimal digits denotes. */
  function ValueOf(s: string): int
    decreases |s|
  {
    if s == [] then 0 else 10 * ValueOf(s[..|s| - 1]) + DigitValue(s[|s| - 1])
  }

  /** Reads a display back: the digits before the last three characters count sixties, the
      last two characters are the remainder. */
  function ParseColon(s: string): int
  {
    if |s| < 3 then 0 else ValueOf(s[..|s| - 3]) * 60 + ValueOf(s[|s| - 2..])
  }

  lemma {:induction false} DigitsValue(n: nat)
    ensures ValueOf(Digits(n)) == n
    decreases n
  {
    if n >= 10 {
      var s := Digits(n);
      assert s[..|s| - 1] == Digits(n / 10);
      DigitsValue(n / 10);
    }
  }

  lemma {:induction false} LeadingZero(s: string)
    ensures ValueOf("0" + s) == ValueOf(s)
    decreases |s|
  {
    if s != [] {
      var t := "0" + s;
      assert t[..|t| - 1] == "0" + s[..|s| - 1];
      LeadingZero(s[..|s| - 1]);
    }
  }

  /** Padding a natural number's digits to two places keeps its value. */
  lemma PaddedValue(n: nat)
    ensures ValueOf(PadStart2(ToString(n))) == n
    ensures forall i :: 0 <= i < |PadStart2(ToString(n))| ==> IsDigit(PadStart2(ToString(n))[i])
  {
    DigitsValue(n);
    if |Digits(n)| == 1 {
      LeadingZero(Digits(n));
    }
  }

  /** A run of digits, a colon and two digits reads back as the first part times sixty plus
      the second. */
  lemma JoinedValue(hi: string, lo: string)
    requires |lo| == 2
    ensures var r := hi + ":" + lo;
      |r| == |hi| + 3 && r[|r| - 3] == ':' && r[..|r| - 3] == hi && r[|r| - 2..] == lo &&
      ParseColon(r) == ValueOf(hi) * 60 + ValueOf(lo)
  {
    var r := hi + ":" + lo;
    assert r[..|r| - 3] == hi;
    assert r[|r| - 2..] == lo;
  }

  /** The characters of `hi + ":" + lo` other than the colon are those of `hi` and `lo`. */
  lemma JoinedDigits(hi: string, lo: string)
    requires |lo| == 2
    requires forall i :: 0 <= i < |hi| ==> IsDigit(hi[i])
    requires forall i :: 0 <= i < |lo| ==> IsDigit(lo[i])
    ensures var r := hi + ":" + lo;
      forall i :: 0 <= i < |r| && i != |r| - 3 ==> IsDigit(r[i])
  {
    var r := hi + ":" + lo;
    forall i | 0 <= i < |r| && i != |r| - 3
      ensures IsDigit(r[i])
    {
      if i < |hi| {
        assert r[i] == hi[i];
      } else {
        assert r[i] == lo[i - |hi| - 1];
      }
    }
  }

  /** `r` shows the count `n` as a display: the quotient's digits padded to two, a colon and
      exactly two digits; the part before the colon is the floored quotient by 60, the part after it the
      remainder, which is below 60, and the whole reads back as `n`. */
  predicate IsColonDisplay(r: string, n: int)
  {
    |r| >= 5 && r[|r| - 3] == ':' &&
    (forall i :: 0 <= i < |r| && i != |r| - 3 ==> IsDigit(r[i])) &&
    n >= 0 && |r| - 3 == Max(2, |Digits(n / 60)|) && ValueOf(r[..|r| - 3]) == n / 60 &&
    ValueOf(r[|r| - 2..]) == Rem(n, 60) && Rem(n, 60) < 60 &&
    ParseColon(r) == n
  }

  /** For a non-negative count, the display is digits, a colon and exactly two digits, its two
      fields are the quotient and the remainder by 60, and reading it back gives the count:
      nothing is lost by the formatting. */
  lemma FormatColonRoundTrip(n: int)
    requires n >= 0
    ensures IsColonDisplay(FormatColon(n), n)
  {
    var hi, lo := PadStart2(ToString(n / 60)), PadStart2(ToString(Rem(n, 60)));
    PaddedValue(n / 60);
    PaddedValue(n % 60);
    JoinedValue(hi, lo);
    JoinedDigits(hi, lo);
    var r := FormatColon(n);
    assert r[..|r| - 3] == hi && r[|r| - 2..] == lo;
  }

  /** The two parts of the display split the count: the remainder is below 60. */
  lemma FormatColonParts(n: int)
    requires n >= 0
    ensures (n / 60) * 60 + Rem(n, 60) == n
    ensures 0 <= Rem(n, 60) < 60
  {
  }

  /** The characters `String.prototype.trim` removes: white space and line terminators. */
  predicate IsWhitespace(c: char)
  {
    var k := c as int;
    k == 9 || k == 10 || k == 11 || k == 12 || k == 13 || k == 32 || k == 0xA0 || k == 0x1680 ||
    (0x2000 <= k <= 0x200A) || k == 0x2028 || k == 0x2029 || k == 0x202F || k == 0x205F ||
    k == 0x3000 || k == 0xFEFF
  }

  /** The suffix left after dropping leading white space. */
  function TrimStart(s: string): (r: string)
    ensures |r| <= |s| && r == s[|s| - |r|..]
    ensures forall i :: 0 <= i < |s| - |r| ==> IsWhitespace(s[i])
    ensures r != [] ==> !IsWhitespace(r[0])
    decreases |s|
  {
    if s != [] && IsWhitespace(s[0]) then TrimStart(s[1..]) else s
  }

  /** The prefix left after dropping trailing white space. */
  function TrimEnd(s: string): (r: string)
    ensures |r| <= |s| && r == s[..|r|]
    ensures forall i :: |r| <= i < |s| ==> IsWhitespace(s[i])
    ensures r != [] ==> !IsWhitespace(r[|r| - 1])
    decreases |s|
  {
    if s != [] && IsWhitespace(s[|s| - 1]) then TrimEnd(s[..|s| - 1]) else s
  }

  /** `String.prototype.trim`. */
  function Trim(s: string): (r: string)
    ensures |r| <= |TrimStart(s)| <= |s|
    ensures r == s[|s| - |TrimStart(s)|..][..|r|]
    ensures r != [] ==> !IsWhitespace(r[0]) && !IsWhitespace(r[|r| - 1])
    ensures r == [] <==> forall i :: 0 <= i < |s| ==> IsWhitespace(s[i])
    ensures forall i :: 0 <= i < |s| - |TrimStart(s)| ==> IsWhitespace(s[i])
    ensures forall i :: |s| - |TrimStart(s)| + |r| <= i < |s| ==> IsWhitespace(s[i])
  {
    var t := TrimStart(s);
    var r := TrimEnd(t);
    assert r != [] ==> r[0] == t[0];
    assert r == [] ==> t == [];
    r
  }

  /** Trimming twice is trimming once. */
  lemma TrimIdempotent(s: string)
    ensures Trim(Trim(s)) == Trim(s)
  {
    var r := Trim(s);
    if r != [] {
      assert TrimStart(r) == r;
      assert TrimEnd(r) == r;
    }
  }
}
