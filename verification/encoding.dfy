/** The serialisation under the access tokens: natural numbers as canonical
    decimal strings, strings framed as length-prefixed fields
    (`<length>:<characters>`), and sequences of such fields. Every encoder has
    a parser that inverts it, and every string a parser accepts is the encoding
    of what it returns, so an encoded value can be read back in exactly one way. */
module Encoding {
  import opened Wrappers

  predicate IsDigit(c: char) {
    '0' <= c <= '9'
  }

  function DigitValue(c: char): (d: nat)
    requires IsDigit(c)
    ensures d < 10
  {
    (c as int) - ('0' as int)
  }

  function DigitChar(d: nat): (c: char)
    requires d < 10
    ensures IsDigit(c) && DigitValue(c) == d
  {
    (d + '0' as int) as char
  }

  predicate AllDigits(s: string) {
    forall i :: 0 <= i < |s| ==> IsDigit(s[i])
  }

  /** A non-empty digit string without a leading zero, or "0" itself. */
  predicate Canonical(s: string) {
    |s| > 0 && AllDigits(s) && (s[0] != '0' || |s| == 1)
  }

  /** The decimal spelling of `n`. */
  function NatToDecimal(n: nat): (s: string)
    ensures Canonical(s)
    ensures s[0] == '0' <==> n == 0
    decreases n
  {
    if n < 10 then [DigitChar(n)] else NatToDecimal(n / 10) + [DigitChar(n % 10)]
  }

  /** The value of a digit string, most significant digit first. */
  function DecimalToNat(s: string): nat
    requires AllDigits(s)
  {
    if |s| == 0 then 0 else DecimalToNat(s[..|s| - 1]) * 10 + DigitValue(s[|s| - 1])
  }

  lemma {:induction false} DecimalRoundTrip(n: nat)
    ensures DecimalToNat(NatToDecimal(n)) == n
    decreases n
  {
    if n >= 10 {
      var s := NatToDecimal(n);
      assert s[..|s| - 1] == NatToDecimal(n / 10);
      DecimalRoundTrip(n / 10);
    }
  }

  lemma {:induction false} LeadingNonzeroIsPositive(s: string)
    requires Canonical(s) && s[0] != '0'
    ensures DecimalToNat(s) > 0
    decreases |s|
  {
    if |s| > 1 {
      LeadingNonzeroIsPositive(s[..|s| - 1]);
    }
  }

  /** Canonical digit strings are exactly the images of `NatToDecimal`. */
  lemma {:induction false} CanonicalRoundTrip(s: string)
    requires Canonical(s)
    ensures NatToDecimal(DecimalToNat(s)) == s
    decreases |s|
  {
    var last := s[|s| - 1];
    if |s| == 1 {
      assert DigitChar(DigitValue(last)) == last;
    } else {
      var p := s[..|s| - 1];
      LeadingNonzeroIsPositive(p);
      CanonicalRoundTrip(p);
      var v, d := DecimalToNat(p), DigitValue(last);
      assert DecimalToNat(s) == v * 10 + d;
      ShiftDigit(v, d);
      assert DigitChar(d) == last;
      assert NatToDecimal(v * 10 + d) == NatToDecimal(v) + [DigitChar(d)];
      assert s == p + [last];
    }
  }

  /** Appending digit `d` to the decimal spelling of `v` multiplies by ten. */
  lemma ShiftDigit(v: nat, d: nat)
    requires v > 0 && d < 10
    ensures v * 10 + d >= 10 && (v * 10 + d) / 10 == v && (v * 10 + d) % 10 == d
  {
  }

  /** Reads a natural number, refusing leading zeros and non-digits. */
  function ParseNat(s: string): (r: Option<nat>)
    ensures r.Some? <==> Canonical(s)
    ensures r.Some? ==> s == NatToDecimal(r.value)
  {
    if Canonical(s) then CanonicalRoundTrip(s); Some(DecimalToNat(s)) else None
  }

  lemma ParseNatRoundTrip(n: nat)
    ensures ParseNat(NatToDecimal(n)) == Some(n)
  {
    DecimalRoundTrip(n);
  }

  /** The length of the longest all-digit prefix of `t`. */
  function LeadingDigits(t: string): (k: nat)
    ensures k <= |t|
    ensures AllDigits(t[..k])
    ensures k < |t| ==> !IsDigit(t[k])
  {
    if |t| == 0 || !IsDigit(t[0]) then 0
    else
      var k := 1 + LeadingDigits(t[1..]);
      assert t[..k] == [t[0]] + t[1..][..k - 1];
      k
  }

  lemma {:induction false} LeadingDigitsOf(d: string, x: string)
    requires AllDigits(d) && |x| > 0 && !IsDigit(x[0])
    ensures LeadingDigits(d + x) == |d|
    decreases |d|
  {
    if |d| == 0 {
      assert d + x == x;
    } else {
      assert (d + x)[1..] == d[1..] + x;
      LeadingDigitsOf(d[1..], x);
    }
  }

  /** A string framed with its length: `<length>:<characters>`. */
  function Field(s: string): string {
    NatToDecimal(|s|) + ":" + s
  }

  /** Reads one framed field off the front of `t`, returning it and what follows. */
  function ParseField(t: string): (r: Option<(string, string)>)
    ensures r.Some? ==> |r.value.1| < |t|
  {
    var k := LeadingDigits(t);
    if k < |t| && t[k] == ':' && Canonical(t[..k]) && DecimalToNat(t[..k]) <= |t| - k - 1 then
      var n := DecimalToNat(t[..k]);
      Some((t[k + 1..k + 1 + n], t[k + 1 + n..]))
    else
      None
  }

  lemma FieldRoundTrip(s: string, rest: string)
    ensures ParseField(Field(s) + rest) == Some((s, rest))
  {
    var d := NatToDecimal(|s|);
    var t := Field(s) + rest;
    assert t == d + (":" + s + rest);
    LeadingDigitsOf(d, ":" + s + rest);
    assert t[..|d|] == d;
    DecimalRoundTrip(|s|);
    assert t[|d| + 1..] == s + rest;
  }

  lemma ParseFieldInverse(t: string)
    requires ParseField(t).Some?
    ensures t == Field(ParseField(t).value.0) + ParseField(t).value.1
  {
    var k := LeadingDigits(t);
    var n := DecimalToNat(t[..k]);
    CanonicalRoundTrip(t[..k]);
    assert t == t[..k] + ":" + t[k + 1..k + 1 + n] + t[k + 1 + n..];
  }

  /** The concatenation of the framed fields, in order. */
  function EncodeFields(fs: seq<string>): string {
    if |fs| == 0 then "" else Field(fs[0]) + EncodeFields(fs[1..])
  }

  /** Reads exactly `n` framed fields off the front of `t`. */
  function ParseFields(t: string, n: nat): (r: Option<(seq<string>, string)>)
    ensures r.Some? ==> |r.value.0| == n
    decreases n
  {
    if n == 0 then Some(([], t))
    else
      match ParseField(t)
      case None => None
      case Some((f, rest)) =>
        match ParseFields(rest, n - 1)
        case None => None
        case Some((fs, rest')) => Some(([f] + fs, rest'))
  }

  lemma {:induction false} FieldsRoundTrip(fs: seq<string>, rest: string)
    ensures ParseFields(EncodeFields(fs) + rest, |fs|) == Some((fs, rest))
    decreases |fs|
  {
    if |fs| > 0 {
      var tail := EncodeFields(fs[1..]) + rest;
      assert EncodeFields(fs) + rest == Field(fs[0]) + tail;
      FieldRoundTrip(fs[0], tail);
      FieldsRoundTrip(fs[1..], rest);
      assert ParseField(EncodeFields(fs) + rest) == Some((fs[0], tail));
      assert ParseFields(tail, |fs| - 1) == Some((fs[1..], rest));
      assert [fs[0]] + fs[1..] == fs;
    } else {
      assert EncodeFields(fs) + rest == rest;
    }
  }

  lemma {:induction false} ParseFieldsInverse(t: string, n: nat)
    requires ParseFields(t, n).Some?
    ensures t == EncodeFields(ParseFields(t, n).value.0) + ParseFields(t, n).value.1
    decreases n
  {
    if n > 0 {
      var (f, rest) := ParseField(t).value;
      ParseFieldInverse(t);
      ParseFieldsInverse(rest, n - 1);
      var (fs, rest') := ParseFields(rest, n - 1).value;
      assert ([f] + fs)[1..] == fs;
    }
  }
}
