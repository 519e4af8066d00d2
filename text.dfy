/**
 * String helpers shared by the client and the backend: the truthiness test
 * that both JavaScript and Python apply to an optional string, substring
 * search, ASCII lower-casing, joining with a separator, and fixed-point
 * decimal formatting.
 */
module Text {
  import opened Wrappers

  /** A value that may be missing (`null`, `undefined`, `None`) or a string;
      it is truthy when present and non-empty, in JavaScript and in Python alike. */
  predicate Truthy(s: Option<string>) {
    s.Some? && s.value != ""
  }

  // ---------------------------------------------------------------------
  // Substrings

  predicate StartsWith(s: string, prefix: string) {
    |prefix| <= |s| && s[..|prefix|] == prefix
  }

  /** `needle` occurs in `hay` starting at index `i`. */
  predicate InfixAt(hay: string, needle: string, i: nat) {
    i + |needle| <= |hay| && hay[i..i + |needle|] == needle
  }

  /** `hay.includes(needle)` in JavaScript, `needle in hay` in Python. */
  predicate Contains(hay: string, needle: string)
    decreases |hay|
  {
    |needle| <= |hay| && (StartsWith(hay, needle) || (|hay| > 0 && Contains(hay[1..], needle)))
  }

  lemma {:induction false} ContainsIffInfix(hay: string, needle: string)
    ensures Contains(hay, needle) <==> exists i: nat :: InfixAt(hay, needle, i)
    decreases |hay|
  {
    if |needle| > |hay| {
      forall i: nat ensures !InfixAt(hay, needle, i) { }
    } else if StartsWith(hay, needle) {
      assert InfixAt(hay, needle, 0);
    } else {
      assert |hay| > 0;
      ContainsIffInfix(hay[1..], needle);
      if Contains(hay[1..], needle) {
        var j: nat :| InfixAt(hay[1..], needle, j);
        assert hay[1..][j..j + |needle|] == hay[j + 1..j + 1 + |needle|];
        assert InfixAt(hay, needle, j + 1);
      } else {
        forall i: nat | InfixAt(hay, needle, i) ensures false {
          if i > 0 {
            assert hay[1..][i - 1..i - 1 + |needle|] == hay[i..i + |needle|];
            assert InfixAt(hay[1..], needle, i - 1);
          }
        }
      }
    }
  }

  /** Every string contains itself, and a string that has `needle` as a prefix contains it. */
  lemma PrefixIsContained(hay: string, needle: string)
    requires StartsWith(hay, needle)
    ensures Contains(hay, needle)
  {
  }

  // ---------------------------------------------------------------------
  // Lower-casing (ASCII letters only)

  function LowerChar(c: char): char {
    if 'A' <= c <= 'Z' then (c as int + 32) as char else c
  }

  /** `str.lower()` / `toLowerCase()` restricted to the ASCII letters. */
  function Lower(s: string): string {
    seq(|s|, i requires 0 <= i < |s| => LowerChar(s[i]))
  }

  lemma LowerIdempotent(s: string)
    ensures Lower(Lower(s)) == Lower(s)
  {
  }

  /** Python's `icontains` / SQL `ILIKE '%needle%'`, restricted to ASCII letters. */
  predicate ContainsIgnoringCase(hay: string, needle: string) {
    Contains(Lower(hay), Lower(needle))
  }

  // ---------------------------------------------------------------------
  // Dropping falsy values and joining

  /** The first truthy alternative of `a || b || ...` (JavaScript) or
      `a or b or ...` (Python); `None` when there is none. When every
      alternative is falsy the source returns the last one, which is falsy
      as well and is dropped by every caller, so `None` stands for it. */
  function FirstTruthy(alts: seq<Option<string>>): (r: Option<string>)
    ensures r.Some? <==> exists i :: 0 <= i < |alts| && Truthy(alts[i])
    ensures r.Some? ==> r.value != ""
    ensures r.Some? ==> exists i :: 0 <= i < |alts| && alts[i] == r && forall j :: 0 <= j < i ==> !Truthy(alts[j])
  {
    if alts == [] then None
    else if Truthy(alts[0]) then alts[0]
    else
      var r := FirstTruthy(alts[1..]);
      assert forall i :: 1 <= i < |alts| ==> alts[i] == alts[1..][i - 1];
      if r.Some? then
        var k :| 0 <= k < |alts[1..]| && alts[1..][k] == r && forall j :: 0 <= j < k ==> !Truthy(alts[1..][j]);
        assert alts[k + 1] == r;
        r
      else r
  }

  /** `[p for p in parts if p]` (Python) and `parts.filter(Boolean)` (JavaScript). */
  function KeepTruthy(parts: seq<Option<string>>): (r: seq<string>)
    ensures |r| <= |parts|
    ensures forall k :: 0 <= k < |r| ==> r[k] != ""
    ensures forall s :: s in r <==> s != "" && Some(s) in parts
  {
    if parts == [] then []
    else
      var rest := KeepTruthy(parts[1..]);
      assert forall s :: Some(s) in parts <==> Some(s) == parts[0] || Some(s) in parts[1..];
      if Truthy(parts[0]) then [parts[0].value] + rest else rest
  }

  lemma {:induction false} KeepTruthyEmpty(parts: seq<Option<string>>)
    ensures KeepTruthy(parts) == [] <==> forall i :: 0 <= i < |parts| ==> !Truthy(parts[i])
  {
    if parts != [] {
      KeepTruthyEmpty(parts[1..]);
      assert forall i :: 1 <= i < |parts| ==> parts[i] == parts[1..][i - 1];
    }
  }

  /** `sep.join(parts)` (Python) and `parts.join(sep)` (JavaScript). */
  function Join(parts: seq<string>, sep: string): string {
    if parts == [] then ""
    else if |parts| == 1 then parts[0]
    else parts[0] + sep + Join(parts[1..], sep)
  }

  /** Joining non-empty parts gives the empty string exactly when there are no parts,
      and the result starts with the first part. */
  lemma {:induction false} JoinEmptyIff(parts: seq<string>, sep: string)
    requires forall k :: 0 <= k < |parts| ==> parts[k] != ""
    ensures Join(parts, sep) == "" <==> parts == []
    ensures parts != [] ==> StartsWith(Join(parts, sep), parts[0])
  {
    if |parts| > 1 {
      var j := Join(parts, sep);
      assert j == parts[0] + (sep + Join(parts[1..], sep));
      assert j[..|parts[0]|] == parts[0];
    }
  }

  // ---------------------------------------------------------------------
  // Decimal numerals

  function DigitChar(d: nat): char
    requires d < 10
  {
    "0123456789"[d]
  }

  predicate IsDigit(c: char) {
    '0' <= c <= '9'
  }

  predicate AllDigits(s: string) {
    forall k :: 0 <= k < |s| ==> IsDigit(s[k])
  }

  /** The decimal numeral of `n`, without leading zeros. */
  function NatToDecimal(n: nat): (s: string)
    ensures |s| >= 1 && AllDigits(s)
    decreases n
  {
    if n < 10 then [DigitChar(n)] else NatToDecimal(n / 10) + [DigitChar(n % 10)]
  }

  /** The number a string of decimal digits denotes (the reading of a numeral). */
  function DecimalValue(s: string): nat
    requires AllDigits(s)
  {
    if s == [] then 0 else DecimalValue(s[..|s| - 1]) * 10 + (s[|s| - 1] as int - '0' as int)
  }

  lemma {:induction false} DecimalRoundTrip(n: nat)
    ensures DecimalValue(NatToDecimal(n)) == n
    decreases n
  {
    if n >= 10 {
      var s := NatToDecimal(n);
      assert s[..|s| - 1] == NatToDecimal(n / 10);
      DecimalRoundTrip(n / 10);
    }
  }

  function Zeros(k: nat): (z: string)
    ensures |z| == k && AllDigits(z)
  {
    seq(k, _ => '0')
  }

  /** Leading zeros do not change the number a numeral denotes. */
  lemma {:induction false} LeadingZeros(k: nat, s: string)
    requires AllDigits(s)
    ensures AllDigits(Zeros(k) + s) && DecimalValue(Zeros(k) + s) == DecimalValue(s)
    decreases |s|, k
  {
    if s == [] {
      assert Zeros(k) + s == Zeros(k);
      if k > 0 {
        assert Zeros(k)[..k - 1] == Zeros(k - 1) == Zeros(k - 1) + s;
        LeadingZeros(k - 1, s);
        assert DecimalValue(Zeros(k)) == DecimalValue(Zeros(k - 1)) * 10;
      }
    } else {
      var t := Zeros(k) + s;
      assert t[..|t| - 1] == Zeros(k) + s[..|s| - 1];
      LeadingZeros(k, s[..|s| - 1]);
    }
  }

  /** `s` left-padded with zeros to width `w`. */
  function PadZeros(s: string, w: nat): (r: string)
    requires AllDigits(s)
    ensures AllDigits(r) && |r| == if |s| < w then w else |s|
    ensures DecimalValue(r) == DecimalValue(s)
  {
    LeadingZeros(if |s| < w then w - |s| else 0, s);
    Zeros(if |s| < w then w - |s| else 0) + s
  }

  function Abs(m: int): nat {
    if m < 0 then -m else m
  }

  /** The digits before the decimal point of `m` millionths. */
  function IntDigits(m: int): string {
    NatToDecimal(Abs(m) / 1000000)
  }

  /** The six digits after the decimal point of `m` millionths. */
  function FracDigits(m: int): string {
    PadZeros(NatToDecimal(Abs(m) % 1000000), 6)
  }

  /** JavaScript's `x.toFixed(6)` for a value given exactly in millionths `m`
      (x = m / 1000000): a minus sign for negative values, the integer part
      without leading zeros, a point and exactly six fraction digits. */
  function FixedMicro(m: int): string {
    (if m < 0 then "-" else "") + IntDigits(m) + "." + FracDigits(m)
  }

  /** What the formatted text denotes: the six fraction digits and the
      integer digits read back give `|m|`, and the sign is shown exactly for
      negative values. */
  lemma FixedMicroDenotes(m: int)
    ensures AllDigits(IntDigits(m)) && AllDigits(FracDigits(m)) && |FracDigits(m)| == 6
    ensures DecimalValue(IntDigits(m)) * 1000000 + DecimalValue(FracDigits(m)) == Abs(m)
    ensures (FixedMicro(m)[0] == '-') <==> m < 0
  {
    DecimalRoundTrip(Abs(m) / 1000000);
    DecimalRoundTrip(Abs(m) % 1000000);
    assert |NatToDecimal(Abs(m) % 1000000)| <= 6 by {
      SmallNumeralLength(Abs(m) % 1000000);
    }
    if m >= 0 {
      assert FixedMicro(m)[0] == IntDigits(m)[0];
    }
  }

  /** A number below 10^6 has at most six digits. */
  lemma {:induction false} SmallNumeralLength(n: nat)
    requires n < 1000000
    ensures |NatToDecimal(n)| <= 6
  {
    if n >= 10 {
      SmallNumeralBound(n / 10, 100000, 5);
    }
  }

  lemma {:induction false} SmallNumeralBound(n: nat, bound: nat, digits: nat)
    requires bound == Pow10(digits) && n < bound
    ensures |NatToDecimal(n)| <= digits + (if digits == 0 then 1 else 0)
    decreases digits
  {
    if digits > 0 && n >= 10 {
      SmallNumeralBound(n / 10, Pow10(digits - 1), digits - 1);
    }
  }

  function Pow10(k: nat): nat {
    if k == 0 then 1 else 10 * Pow10(k - 1)
  }
}
