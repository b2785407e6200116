/** Numbers as FIX text: how the builder's streams print them and how src/fix_parser.cpp reads
    them back.  Integers and reals are exact. */
module FixText {

  predicate IsDigit(c: char) { '0' <= c <= '9' }

  function DigitOf(c: char): (d: nat)
    requires IsDigit(c)
    ensures d < 10
  {
    c as int - '0' as int
  }

  function CharOf(d: nat): (c: char)
    requires d < 10
    ensures IsDigit(c) && DigitOf(c) == d
  {
    ('0' as int + d) as char
  }

  // ----- printing -----

  function Decimal(n: nat): (s: string)
    ensures s != "" && forall i :: 0 <= i < |s| ==> IsDigit(s[i])
  {
    if n < 10 then [CharOf(n)] else Decimal(n / 10) + [CharOf(n % 10)]
  }

  function IntText(n: int): string {
    if n < 0 then "-" + Decimal(-n) else Decimal(n)
  }

  /** setw(3) with fill '0'. */
  function Pad3(n: nat): (s: string)
    requires n < 1000
    ensures |s| == 3 && forall i :: 0 <= i < 3 ==> IsDigit(s[i])
  {
    [CharOf(n / 100), CharOf(n / 10 % 10), CharOf(n % 10)]
  }

  type digit = d: int | 0 <= d < 10

  /** A number whose stream form is fixed notation: sign, whole part, and the digits after the
      point, if any. */
  datatype FixedNumber = FixedNumber(negative: bool, whole: nat, fraction: seq<digit>)

  function DigitText(ds: seq<digit>): string {
    seq(|ds|, i requires 0 <= i < |ds| => CharOf(ds[i]))
  }

  function Tail(fraction: seq<digit>): string {
    if fraction == [] then "" else "." + DigitText(fraction)
  }

  function NumberText(x: FixedNumber): string {
    (if x.negative then "-" else "") + Decimal(x.whole) + Tail(x.fraction)
  }

  /** The value of digits after the point. */
  function FractionValue(ds: seq<digit>): real {
    if ds == [] then 0.0 else (ds[0] as real + FractionValue(ds[1..])) / 10.0
  }

  function NumberValue(x: FixedNumber): real {
    var magnitude := x.whole as real + FractionValue(x.fraction);
    if x.negative then -magnitude else magnitude
  }

  // ----- reading integers -----

  /** Digits are accumulated until the first other character. */
  function DigitRun(s: string, acc: nat): nat {
    if s == "" || !IsDigit(s[0]) then acc else DigitRun(s[1..], acc * 10 + DigitOf(s[0]))
  }

  function ParsedInt(s: string): int {
    if s != "" && s[0] == '-' then 0 - DigitRun(s[1..], 0) else DigitRun(s, 0)
  }

  method ParseInt(s: string) returns (n: int)
    ensures n == ParsedInt(s)
  {
    var result := 0;
    var negative := s != "" && s[0] == '-';
    var i := if negative then 1 else 0;
    ghost var digits := if negative then s[1..] else s;
    while i < |s| && IsDigit(s[i])
      invariant i <= |s| && 0 <= result
      invariant DigitRun(s[i..], result) == DigitRun(digits, 0)
    {
      assert s[i..][1..] == s[i + 1..];
      result := result * 10 + DigitOf(s[i]);
      i := i + 1;
    }
    n := if negative then -result else result;
  }

  lemma {:induction false} DigitRunAppend(s: string, c: char, acc: nat)
    requires (forall i :: 0 <= i < |s| ==> IsDigit(s[i])) && IsDigit(c)
    ensures DigitRun(s + [c], acc) == DigitRun(s, acc) * 10 + DigitOf(c)
  {
    if s == "" {
      assert s + [c] == [c] && [c][1..] == "";
    } else {
      assert (s + [c])[1..] == s[1..] + [c];
      DigitRunAppend(s[1..], c, acc * 10 + DigitOf(s[0]));
    }
  }

  lemma {:induction false} DecimalReads(n: nat)
    ensures DigitRun(Decimal(n), 0) == n
  {
    if n < 10 {
      assert [CharOf(n)][1..] == "";
    } else {
      DecimalReads(n / 10);
      DigitRunAppend(Decimal(n / 10), CharOf(n % 10), 0);
    }
  }

  /** Printing then parsing an integer gives it back. */
  lemma IntRoundTrip(n: int)
    ensures ParsedInt(IntText(n)) == n
  {
    if n < 0 {
      DecimalReads(-n);
      assert IntText(n)[1..] == Decimal(-n);
    } else {
      DecimalReads(n);
    }
  }

  const INT_MAX: nat := 0x7FFF_FFFF

  lemma {:induction false} DigitRunGrows(s: string, acc: nat)
    ensures DigitRun(s, acc) >= acc
  {
    if s != "" && IsDigit(s[0]) { DigitRunGrows(s[1..], acc * 10 + DigitOf(s[0])); }
  }

  lemma {:induction false} PrefixRun(s: string, k: nat, acc: nat)
    requires k <= |s|
    ensures DigitRun(s[..k], acc) <= DigitRun(s, acc)
  {
    if k == 0 {
      DigitRunGrows(s, acc);
    } else if IsDigit(s[0]) {
      assert s[..k][1..] == s[1..][..k - 1];
      PrefixRun(s[1..], k - 1, acc * 10 + DigitOf(s[0]));
    }
  }

  /** The accumulator of parse_int is a 32-bit int that counts up even for a negative number.
      Reading a text, it stays in range throughout exactly if the magnitude read is in range. */
  lemma AccumulatorFitsIff(digits: string)
    ensures (forall k: nat :: k <= |digits| ==> DigitRun(digits[..k], 0) <= INT_MAX) <==> DigitRun(digits, 0) <= INT_MAX
  {
    assert digits[..|digits|] == digits;
    forall k: nat | k <= |digits|
      ensures DigitRun(digits[..k], 0) <= DigitRun(digits, 0)
    {
      PrefixRun(digits, k, 0);
    }
  }

  /** So of the printed ints only the least one, whose magnitude is one too large, overflows. */
  lemma OnlyLeastIntOverflows(n: int)
    requires -(INT_MAX as int) - 1 <= n <= INT_MAX
    ensures var digits := Decimal(if n < 0 then -n else n);
            (forall k: nat :: k <= |digits| ==> DigitRun(digits[..k], 0) <= INT_MAX) <==> n != -(INT_MAX as int) - 1
  {
    var magnitude := if n < 0 then -n else n;
    AccumulatorFitsIff(Decimal(magnitude));
    DecimalReads(magnitude);
  }

  lemma Pad3Reads(n: nat)
    requires n < 1000
    ensures ParsedInt(Pad3(n)) == n
  {
    var a, b, c := CharOf(n / 100), CharOf(n / 10 % 10), CharOf(n % 10);
    assert [a, b, c][1..] == [b, c] && [b, c][1..] == [c] && [c][1..] == "";
    assert DigitRun([c], (n / 100) * 10 + n / 10 % 10) == ((n / 100) * 10 + n / 10 % 10) * 10 + n % 10;
    assert DigitRun([b, c], n / 100) == DigitRun([c], (n / 100) * 10 + n / 10 % 10);
    assert DigitRun([a, b, c], 0) == DigitRun([b, c], n / 100);
  }

  // ----- reading decimals -----

  /** The digits after the point, weighted by a factor that shrinks tenfold. */
  function FractionRun(s: string, factor: real): real {
    if s == "" || !IsDigit(s[0]) then 0.0
    else DigitOf(s[0]) as real * factor + FractionRun(s[1..], factor * 0.1)
  }

  /** What is left of s after its leading digits. */
  function AfterDigits(s: string): string {
    if s == "" || !IsDigit(s[0]) then s else AfterDigits(s[1..])
  }

  function Magnitude(s: string): real {
    var rest := AfterDigits(s);
    DigitRun(s, 0) as real + if rest != "" && rest[0] == '.' then FractionRun(rest[1..], 0.1) else 0.0
  }

  function ParsedDouble(s: string): real {
    if s != "" && s[0] == '-' then -Magnitude(s[1..]) else Magnitude(s)
  }

  /** One digit of the fraction read. */
  lemma FractionStep(s: string, i: nat, factor: real)
    requires i < |s| && IsDigit(s[i])
    ensures FractionRun(s[i..], factor) == DigitOf(s[i]) as real * factor + FractionRun(s[i + 1..], factor * 0.1)
  {
    assert s[i..][1..] == s[i + 1..];
  }

  /** The digits from position i on, and where they end. */
  method ReadWhole(s: string, i: nat) returns (whole: nat, stop: nat)
    requires i <= |s|
    ensures whole == DigitRun(s[i..], 0) && i <= stop <= |s| && s[stop..] == AfterDigits(s[i..])
  {
    whole, stop := 0, i;
    while stop < |s| && s[stop] != '.' && IsDigit(s[stop])
      invariant i <= stop <= |s|
      invariant DigitRun(s[stop..], whole) == DigitRun(s[i..], 0)
      invariant AfterDigits(s[stop..]) == AfterDigits(s[i..])
    {
      assert s[stop..][1..] == s[stop + 1..];
      whole := whole * 10 + DigitOf(s[stop]);
      stop := stop + 1;
    }
  }

  method ReadFraction(s: string, start: nat) returns (result: real)
    requires start <= |s|
    ensures result == FractionRun(s[start..], 0.1)
  {
    result := 0.0;
    var i, factor := start, 0.1;
    while i < |s| && IsDigit(s[i])
      invariant i <= |s|
      invariant result + FractionRun(s[i..], factor) == FractionRun(s[start..], 0.1)
    {
      FractionStep(s, i, factor);
      result := result + DigitOf(s[i]) as real * factor;
      factor := factor * 0.1;
      i := i + 1;
    }
  }

  method ParseDouble(s: string) returns (x: real)
    ensures x == ParsedDouble(s)
  {
    var negative := s != "" && s[0] == '-';
    var whole, i := ReadWhole(s, if negative then 1 else 0);
    var result := whole as real;
    if i < |s| && s[i] == '.' {
      var fraction := ReadFraction(s, i + 1);
      assert s[i..][1..] == s[i + 1..];
      result := result + fraction;
    }
    assert !negative ==> s[0..] == s;
    x := if negative then -result else result;
  }

  lemma {:induction false} FractionReads(ds: seq<digit>, factor: real)
    ensures FractionRun(DigitText(ds), factor) == FractionValue(ds) * 10.0 * factor
  {
    if ds != [] {
      assert DigitText(ds)[1..] == DigitText(ds[1..]);
      FractionReads(ds[1..], factor * 0.1);
      var d, rest := ds[0] as real, FractionValue(ds[1..]);
      assert rest * 10.0 * (factor * 0.1) == rest * factor;
      assert FractionValue(ds) * 10.0 == d + rest;
      assert (d + rest) * factor == d * factor + rest * factor;
    }
  }

  lemma {:induction false} DigitsThen(s: string, t: string, acc: nat)
    requires forall i :: 0 <= i < |s| ==> IsDigit(s[i])
    requires t == "" || !IsDigit(t[0])
    ensures DigitRun(s + t, acc) == DigitRun(s, acc) && AfterDigits(s + t) == t
  {
    if s == "" {
      assert s + t == t;
    } else {
      assert (s + t)[1..] == s[1..] + t;
      DigitsThen(s[1..], t, acc * 10 + DigitOf(s[0]));
    }
  }

  lemma MagnitudeReads(whole: nat, fraction: seq<digit>)
    ensures Magnitude(Decimal(whole) + Tail(fraction)) == whole as real + FractionValue(fraction)
  {
    DigitsThen(Decimal(whole), Tail(fraction), 0);
    DecimalReads(whole);
    if fraction != [] {
      assert Tail(fraction)[1..] == DigitText(fraction);
      FractionReads(fraction, 0.1);
    }
  }

  /** Printing then parsing a decimal number gives its exact value. */
  lemma NumberRoundTrip(x: FixedNumber)
    ensures ParsedDouble(NumberText(x)) == NumberValue(x)
  {
    var body := Decimal(x.whole) + Tail(x.fraction);
    MagnitudeReads(x.whole, x.fraction);
    if x.negative {
      assert NumberText(x) == "-" + body;
      assert ("-" + body)[1..] == body;
    } else {
      assert NumberText(x) == body;
      assert IsDigit(body[0]);
    }
  }

  // ----- text behind a number -----

  /** A whole number is read up to the first character that is no digit; without digits it is 0. */
  lemma IntThenText(n: int, more: string)
    requires more == "" || !IsDigit(more[0])
    ensures ParsedInt(IntText(n) + more) == n
    ensures more == "" || more[0] != '-' ==> ParsedInt(more) == 0
  {
    var digits := Decimal(if n < 0 then -n else n);
    DigitsThen(digits, more, 0);
    DecimalReads(if n < 0 then -n else n);
    if n < 0 {
      assert (IntText(n) + more)[1..] == digits + more;
    } else {
      assert IsDigit((digits + more)[0]);
    }
  }

  lemma {:induction false} FractionThen(s: string, more: string, factor: real)
    requires forall i :: 0 <= i < |s| ==> IsDigit(s[i])
    requires more == "" || !IsDigit(more[0])
    ensures FractionRun(s + more, factor) == FractionRun(s, factor)
  {
    if s == "" {
      assert s + more == more;
    } else {
      assert (s + more)[1..] == s[1..] + more;
      FractionThen(s[1..], more, factor * 0.1);
    }
  }

  lemma AfterPoint(s: string, more: string)
    ensures ("." + s)[1..] == s && ("." + s + more)[1..] == s + more
  {
  }

  lemma MagnitudeThen(whole: nat, fraction: seq<digit>, more: string)
    requires more == "" || (!IsDigit(more[0]) && (fraction == [] ==> more[0] != '.'))
    ensures Magnitude(Decimal(whole) + Tail(fraction) + more) == Magnitude(Decimal(whole) + Tail(fraction))
  {
    DigitsThen(Decimal(whole), Tail(fraction), 0);
    DigitsThen(Decimal(whole), Tail(fraction) + more, 0);
    assert Decimal(whole) + Tail(fraction) + more == Decimal(whole) + (Tail(fraction) + more);
    if fraction != [] {
      AfterPoint(DigitText(fraction), more);
      FractionThen(DigitText(fraction), more, 0.1);
    }
  }

  /** A decimal number is read up to the first character that cannot continue it. */
  lemma NumberThenText(x: FixedNumber, more: string)
    requires more == "" || (!IsDigit(more[0]) && (x.fraction == [] ==> more[0] != '.'))
    ensures ParsedDouble(NumberText(x) + more) == NumberValue(x)
  {
    NumberRoundTrip(x);
    MagnitudeThen(x.whole, x.fraction, more);
    var body := Decimal(x.whole) + Tail(x.fraction);
    if x.negative {
      assert NumberText(x) == "-" + body && (NumberText(x) + more)[1..] == body + more && NumberText(x)[1..] == body;
    } else {
      assert NumberText(x) == body && IsDigit(body[0]);
    }
  }
}
