/** The PostgreSQL `uuid` type, as the store's uuid columns
    (shared/schema.ts:18-19, 31, 39-40, 50-51, 62) see the text a query binds
    to them. The type's input routine reads sixteen bytes as pairs of
    hexadecimal digits in either letter case, optionally inside braces, with
    one hyphen allowed after any group of four digits but the last; any other
    text is a syntax error. A stored value reads back in the one output form:
    lower-case digits grouped 8-4-4-4-12. So two texts name the same row
    exactly when they parse to the same value, and a comparison of the raw
    texts is not the same thing. */
module Uuids {
  import opened Wrappers

  predicate IsHexDigit(c: char) {
    '0' <= c <= '9' || 'a' <= c <= 'f' || 'A' <= c <= 'F'
  }

  predicate IsLowerHexDigit(c: char) {
    '0' <= c <= '9' || 'a' <= c <= 'f'
  }

  predicate AllLowerHex(ds: seq<char>) {
    forall i :: 0 <= i < |ds| ==> IsLowerHexDigit(ds[i])
  }

  /** A digit as the output form writes it; every other character is left as
      it is. */
  function LowerHex(c: char): (d: char)
    ensures IsHexDigit(c) ==> IsLowerHexDigit(d)
    ensures IsLowerHexDigit(c) ==> d == c
    ensures d == c || 'A' <= c <= 'F'
  {
    if 'A' <= c <= 'F' then (c as int + 32) as char else c
  }

  /** The positions of the output form's four hyphens. */
  predicate IsHyphenAt(i: int) {
    i == 8 || i == 13 || i == 18 || i == 23
  }

  /** How many hyphens of the output form come before position `i`. */
  function HyphensBefore(i: int): nat {
    if i <= 8 then 0 else if i <= 13 then 1 else if i <= 18 then 2 else if i <= 23 then 3 else 4
  }

  /** The position of digit `d` (of 32) in the output form. */
  function DigitPos(d: int): int {
    d + (if d < 8 then 0 else if d < 12 then 1 else if d < 16 then 2 else if d < 20 then 3 else 4)
  }

  /** The output form: 36 characters, lower-case digits, hyphens at 8, 13, 18
      and 23. */
  predicate IsCanonical(s: string) {
    && |s| == 36
    && forall i :: 0 <= i < 36 ==> if IsHyphenAt(i) then s[i] == '-' else IsLowerHexDigit(s[i])
  }

  /** A value of a uuid column, in its output form. */
  type Uuid = s: string | IsCanonical(s) witness "00000000-0000-0000-0000-000000000000"

  /** The output form of 32 lower-case digits. */
  function Format(ds: seq<char>): (s: string)
    requires |ds| == 32 && AllLowerHex(ds)
    ensures IsCanonical(s)
    ensures forall d :: 0 <= d < 32 ==> s[DigitPos(d)] == ds[d]
  {
    seq(36, i requires 0 <= i < 36 => if IsHyphenAt(i) then '-' else ds[i - HyphensBefore(i)])
  }

  /** The 32 digits of a value in output form. */
  function Digits(u: Uuid): (ds: seq<char>)
    ensures |ds| == 32 && AllLowerHex(ds)
    ensures Format(ds) == u
  {
    var ds := seq(32, d requires 0 <= d < 32 => u[DigitPos(d)]);
    assert forall i :: 0 <= i < 36 && !IsHyphenAt(i) ==> DigitPos(i - HyphensBefore(i)) == i;
    ds
  }

  /** Reads bytes `n` to 15 from the front of `s`: two digits a byte, and after
      an odd-numbered byte other than the last, one hyphen if there is one.
      Returns the digits in lower case and the text left unread. */
  function ReadBytes(s: string, n: nat): (r: Option<(seq<char>, string)>)
    requires n <= 16
    ensures r.Some? ==> |r.value.0| == 2 * (16 - n) && AllLowerHex(r.value.0)
    ensures r.Some? ==> |r.value.1| + 2 * (16 - n) <= |s|
    decreases 16 - n
  {
    if n == 16 then Some(([], s))
    else if |s| < 2 || !IsHexDigit(s[0]) || !IsHexDigit(s[1]) then None
    else
      var rest := if n % 2 == 1 && n < 15 && |s| > 2 && s[2] == '-' then s[3..] else s[2..];
      match ReadBytes(rest, n + 1)
      case None => None
      case Some((ds, tail)) => Some(([LowerHex(s[0]), LowerHex(s[1])] + ds, tail))
  }

  /** The type's input routine: the value a text names, or `None` for the
      syntax error. An opening brace must be matched by a closing one that
      ends the text; without braces the sixteenth byte must end it. */
  function Parse(s: string): (r: Option<Uuid>)
    ensures r.Some? ==> 32 <= |s|
  {
    var braced := |s| > 0 && s[0] == '{';
    match ReadBytes(if braced then s[1..] else s, 0)
    case None => None
    case Some((ds, tail)) => if tail == (if braced then "}" else "") then Some(Format(ds)) else None
  }

  /** The text `s`, bound to a uuid column, names the value `u`. */
  predicate Denotes(s: string, u: Uuid) {
    Parse(s) == Some(u)
  }

  /** Where byte `n`'s digits sit in the output form, and whether a hyphen
      follows them. */
  lemma BytePositions(n: nat)
    requires n < 16
    ensures DigitPos(2 * n + 1) == DigitPos(2 * n) + 1
    ensures DigitPos(2 * n + 2) == DigitPos(2 * n) + 2 + (if n == 3 || n == 5 || n == 7 || n == 9 then 1 else 0)
    ensures n < 15 ==> (IsHyphenAt(DigitPos(2 * n) + 2) <==> n == 3 || n == 5 || n == 7 || n == 9)
  {
  }

  lemma DropFront(a: string, p: nat, k: nat, tail: string)
    requires p + k <= |a|
    ensures (a[p..] + tail)[k..] == a[p + k..] + tail
  {
  }

  lemma PairThenRest(ds: seq<char>, i: nat)
    requires i + 2 <= |ds|
    ensures [ds[i], ds[i + 1]] + ds[i + 2..] == ds[i..]
  {
  }

  /** The output form of a value, followed by anything, reads back as that
      value's digits with the rest unread. */
  lemma {:induction false} FormatReads(ds: seq<char>, n: nat, tail: string)
    requires |ds| == 32 && AllLowerHex(ds) && n <= 16
    ensures ReadBytes(Format(ds)[DigitPos(2 * n)..] + tail, n) == Some((ds[2 * n..], tail))
    decreases 16 - n
  {
    var f := Format(ds);
    var p := DigitPos(2 * n);
    var s := f[p..] + tail;
    if n < 16 {
      BytePositions(n);
      var hyphen := n == 3 || n == 5 || n == 7 || n == 9;
      assert s[0] == ds[2 * n] && s[1] == ds[2 * n + 1];
      if n < 15 {
        assert s[2] == f[p + 2];
        assert s[2] == '-' <==> hyphen;
      }
      var k := if hyphen then 3 else 2;
      DropFront(f, p, k, tail);
      assert s[k..] == f[DigitPos(2 * n + 2)..] + tail;
      FormatReads(ds, n + 1, tail);
      assert ReadBytes(s[k..], n + 1) == Some((ds[2 * n + 2..], tail));
      assert (n % 2 == 1 && n < 15 && |s| > 2 && s[2] == '-') <==> hyphen;
      assert LowerHex(s[0]) == ds[2 * n] && LowerHex(s[1]) == ds[2 * n + 1];
      assert ReadBytes(s, n) == Some(([ds[2 * n], ds[2 * n + 1]] + ds[2 * n + 2..], tail));
      PairThenRest(ds, 2 * n);
    } else {
      assert s == tail;
    }
  }

  /** The output form parses to itself, bare or in braces: a stored value
      read back and bound again names the same row. */
  lemma ParseCanonical(u: Uuid)
    ensures Parse(u) == Some(u)
    ensures Parse("{" + u + "}") == Some(u)
  {
    ParseBare(u);
    ParseBraced(u);
  }

  lemma ParseBare(u: Uuid)
    ensures Parse(u) == Some(u)
  {
    var ds := Digits(u);
    FormatReads(ds, 0, "");
    assert u[DigitPos(0)..] + "" == u;
    assert ReadBytes(u, 0) == Some((ds, ""));
    assert IsLowerHexDigit(u[0]);
  }

  lemma ParseBraced(u: Uuid)
    ensures Parse("{" + u + "}") == Some(u)
  {
    var ds := Digits(u);
    var s := "{" + u + "}";
    FormatReads(ds, 0, "}");
    assert s[1..] == u[DigitPos(0)..] + "}";
    assert ReadBytes(s[1..], 0) == Some((ds, "}"));
  }

  /** Parsing is idempotent: whatever a text names, the output form of that
      value names it too. */
  lemma ParseIdempotent(s: string)
    requires Parse(s).Some?
    ensures Parse(Parse(s).value) == Parse(s)
  {
    ParseCanonical(Parse(s).value);
  }

  /** The two texts differ at most in the letter case of hexadecimal digits. */
  predicate SameUpToCase(s: string, t: string) {
    |s| == |t| && forall i :: 0 <= i < |s| ==> LowerHex(s[i]) == LowerHex(t[i])
  }

  lemma {:induction false} ReadBytesIgnoresCase(s: string, t: string, n: nat)
    requires SameUpToCase(s, t) && n <= 16
    ensures ReadBytes(s, n).Some? <==> ReadBytes(t, n).Some?
    ensures ReadBytes(s, n).Some? ==>
              ReadBytes(s, n).value.0 == ReadBytes(t, n).value.0
              && SameUpToCase(ReadBytes(s, n).value.1, ReadBytes(t, n).value.1)
    decreases 16 - n
  {
    if n < 16 && |s| >= 2 {
      assert IsHexDigit(s[0]) <==> IsHexDigit(t[0]);
      assert IsHexDigit(s[1]) <==> IsHexDigit(t[1]);
      if |s| > 2 {
        assert s[2] == '-' <==> t[2] == '-';
      }
      var skip := n % 2 == 1 && n < 15 && |s| > 2 && s[2] == '-';
      var k := if skip then 3 else 2;
      assert SameUpToCase(s[k..], t[k..]) by {
        forall i | 0 <= i < |s[k..]|
          ensures LowerHex(s[k..][i]) == LowerHex(t[k..][i])
        {
          assert s[k..][i] == s[i + k] && t[k..][i] == t[i + k];
        }
      }
      ReadBytesIgnoresCase(s[k..], t[k..], n + 1);
    }
  }

  /** Letter case never matters to the input routine: texts that differ only
      in the case of their digits name the same value, or are both refused. */
  lemma ParseIgnoresCase(s: string, t: string)
    requires SameUpToCase(s, t)
    ensures Parse(s) == Parse(t)
  {
    if |s| > 0 {
      assert s[0] == '{' <==> t[0] == '{';
    }
    var braced := |s| > 0 && s[0] == '{';
    var s', t' := if braced then s[1..] else s, if braced then t[1..] else t;
    assert SameUpToCase(s', t') by {
      forall i | 0 <= i < |s'|
        ensures LowerHex(s'[i]) == LowerHex(t'[i])
      {
        if braced {
          assert s'[i] == s[i + 1] && t'[i] == t[i + 1];
        }
      }
    }
    ReadBytesIgnoresCase(s', t', 0);
    if ReadBytes(s', 0).Some? {
      var a, b := ReadBytes(s', 0).value.1, ReadBytes(t', 0).value.1;
      if |a| == 1 {
        assert a[0] == '}' <==> b[0] == '}';
      }
      assert a == "}" <==> b == "}";
      assert a == "" <==> b == "";
    }
  }

  /** A digit in upper case; every other character is left as it is. */
  function UpperHex(c: char): (d: char)
    ensures LowerHex(d) == LowerHex(c)
  {
    if 'a' <= c <= 'f' then (c as int - 32) as char else c
  }

  /** The upper-case spelling of a text. */
  function UpperCase(s: string): (t: string)
    ensures SameUpToCase(s, t)
  {
    seq(|s|, i requires 0 <= i < |s| => UpperHex(s[i]))
  }

  /** Besides the output form itself, a value has other spellings the
      database accepts for it: in braces, and in upper case. The braced one
      always differs from the output form. */
  lemma OtherSpellings(u: Uuid)
    ensures Denotes("{" + u + "}", u) && "{" + u + "}" != u
    ensures Denotes(UpperCase(u), u)
  {
    ParseCanonical(u);
    ParseIgnoresCase(u, UpperCase(u));
    assert |"{" + u + "}"| != |u|;
  }
}
