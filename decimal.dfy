/**
  Base-10 text of integers, as Bencode writes it in integers and in the
  length prefix of byte strings: digits only, most significant first, no
  leading zero except for zero itself, and a leading '-' only for a
  negative number (so never "-0").  The reading side (DigitsValue,
  ParseNat, ParseInteger) is the partner each writer is proved against.
*/
module Decimal {
  import opened Wrappers
  import opened Bytes
  import opened Concat

  function DigitByte(d: nat): (b: Byte)
    requires d < 10
    ensures IsDigit(b)
  {
    Zero + d as Byte
  }

  function DigitOf(b: Byte): (d: nat)
    requires IsDigit(b)
    ensures d < 10 && DigitByte(d) == b
  {
    (b - Zero) as nat
  }

  /** The shape of a natural number's text: at least one digit, no leading zero unless it is "0". */
  predicate CanonicalDigits(s: seq<Byte>) {
    |s| >= 1 && AllDigits(s) && (|s| > 1 ==> s[0] != Zero)
  }

  /** The shape of an integer's text: a natural number's text, or '-' and a positive one's. */
  predicate CanonicalInteger(s: seq<Byte>) {
    CanonicalDigits(s) || (|s| >= 2 && s[0] == Minus && CanonicalDigits(s[1..]) && s[1..] != [Zero])
  }

  /** The number a run of digits denotes, read most significant first. */
  function DigitsValue(s: seq<Byte>): nat
    requires AllDigits(s)
  {
    if s == [] then 0 else 10 * DigitsValue(s[..|s| - 1]) + DigitOf(s[|s| - 1])
  }

  /** The decimal text of n, most significant digit first. */
  function NatDigits(n: nat): (s: seq<Byte>)
    ensures CanonicalDigits(s)
  {
    if n < 10 then [DigitByte(n)] else NatDigits(n / 10) + [DigitByte(n % 10)]
  }

  /** The decimal text of i, with '-' in front when i is negative. */
  function IntDecimal(i: int): (s: seq<Byte>)
    ensures CanonicalInteger(s)
    ensures s[0] == Minus <==> i < 0
  {
    if i < 0 then [Minus] + NatDigits(-i) else NatDigits(i)
  }

  /** Reading back the text of n gives n. */
  lemma {:induction false} NatDigitsValue(n: nat)
    ensures DigitsValue(NatDigits(n)) == n
  {
    if n >= 10 {
      NatDigitsValue(n / 10);
      var s := NatDigits(n);
      assert s[..|s| - 1] == NatDigits(n / 10);
    }
  }

  lemma {:induction false} LeadingDigitBound(s: seq<Byte>)
    requires AllDigits(s) && |s| >= 1 && s[0] != Zero
    ensures DigitsValue(s) >= 1
  {
    if |s| > 1 {
      LeadingDigitBound(s[..|s| - 1]);
    }
  }

  /** Every canonical digit string is the text of the number it denotes. */
  lemma {:induction false} CanonicalDigitsUnique(s: seq<Byte>)
    requires CanonicalDigits(s)
    ensures NatDigits(DigitsValue(s)) == s
  {
    if |s| > 1 {
      var init := s[..|s| - 1];
      LeadingDigitBound(init);
      CanonicalDigitsUnique(init);
      assert s == init + [s[|s| - 1]];
    }
  }

  /** The two texts of two numbers are equal only if the numbers are. */
  lemma IntDecimalInjective(i: int, j: int)
    requires IntDecimal(i) == IntDecimal(j)
    ensures i == j
  {
    if i < 0 {
      assert NatDigits(-i) == IntDecimal(i)[1..] == NatDigits(-j);
      NatDigitsValue(-i);
      NatDigitsValue(-j);
    } else {
      NatDigitsValue(i);
      NatDigitsValue(j);
    }
  }

  /** The length of the run of digits that starts s. */
  function DigitRun(s: seq<Byte>): (k: nat)
    ensures k <= |s| && AllDigits(s[..k])
    ensures k < |s| ==> !IsDigit(s[k])
  {
    if s == [] || !IsDigit(s[0]) then 0 else 1 + DigitRun(s[1..])
  }

  lemma {:induction false} DigitRunAppend(ds: seq<Byte>, t: seq<Byte>)
    requires AllDigits(ds)
    requires t == [] || !IsDigit(t[0])
    ensures DigitRun(ds + t) == |ds|
  {
    if ds != [] {
      assert (ds + t)[1..] == ds[1..] + t;
      DigitRunAppend(ds[1..], t);
    }
  }

  /**
    Reads a natural number written canonically at the start of s: the whole
    run of digits, which must not start with a superfluous zero.
  */
  function ParseNat(s: seq<Byte>): (r: Option<(nat, seq<Byte>)>)
    ensures r.Some? ==> |r.value.1| < |s|
  {
    var k := DigitRun(s);
    if k == 0 || (k > 1 && s[0] == Zero) then None
    else Some((DigitsValue(s[..k]), s[k..]))
  }

  /** The text of n, followed by anything that is not a digit, reads back as n. */
  lemma NatRoundTrip(n: nat, t: seq<Byte>)
    requires t == [] || !IsDigit(t[0])
    ensures ParseNat(NatDigits(n) + t) == Some((n, t))
  {
    var ds := NatDigits(n);
    DigitRunAppend(ds, t);
    assert (ds + t)[..|ds|] == ds && (ds + t)[|ds|..] == t;
    NatDigitsValue(n);
  }

  /** Whatever ParseNat accepts is exactly the text of the number it returns. */
  lemma ParseNatExact(s: seq<Byte>)
    requires ParseNat(s).Some?
    ensures var (n, t) := ParseNat(s).value;
      s == NatDigits(n) + t && (t == [] || !IsDigit(t[0]))
  {
    var k := DigitRun(s);
    CanonicalDigitsUnique(s[..k]);
    assert s == s[..k] + s[k..];
  }

  /** Reads an integer written canonically at the start of s (no "-0", no leading zero). */
  function ParseInteger(s: seq<Byte>): (r: Option<(int, seq<Byte>)>)
    ensures r.Some? ==> |r.value.1| < |s|
  {
    if s != [] && s[0] == Minus then
      match ParseNat(s[1..])
      case Some((n, t)) => if n == 0 then None else Some((0 - n as int, t))
      case None => None
    else
      match ParseNat(s)
      case Some((n, t)) => Some((n, t))
      case None => None
  }

  /** The text of i, followed by anything that is not a digit, reads back as i. */
  lemma IntegerRoundTrip(i: int, t: seq<Byte>)
    requires t == [] || !IsDigit(t[0])
    ensures ParseInteger(IntDecimal(i) + t) == Some((i, t))
  {
    if i < 0 {
      NegativeRoundTrip(i, t);
    } else {
      NonNegativeRoundTrip(i, t);
    }
  }

  lemma NegativeRoundTrip(i: int, t: seq<Byte>)
    requires i < 0 && (t == [] || !IsDigit(t[0]))
    ensures ParseInteger(IntDecimal(i) + t) == Some((i, t))
  {
    var n: nat := -i;
    var s := IntDecimal(i) + t;
    assert IntDecimal(i) == [Minus] + NatDigits(n);
    Assoc3([Minus], NatDigits(n), t);
    assert s == [Minus] + (NatDigits(n) + t);
    ReadNegative(n, t);
    assert ParseInteger(s) == Some((-(n as int), t));
    assert -(n as int) == i;
  }

  /** '-' followed by the text of a positive n, then anything that is not a digit, reads as -n. */
  lemma ReadNegative(n: nat, t: seq<Byte>)
    requires n != 0 && (t == [] || !IsDigit(t[0]))
    ensures ParseInteger([Minus] + (NatDigits(n) + t)) == Some((-(n as int), t))
  {
    var s := [Minus] + (NatDigits(n) + t);
    assert s[0] == Minus && s[1..] == NatDigits(n) + t;
    NatRoundTrip(n, t);
  }

  lemma NonNegativeRoundTrip(i: int, t: seq<Byte>)
    requires i >= 0 && (t == [] || !IsDigit(t[0]))
    ensures ParseInteger(IntDecimal(i) + t) == Some((i, t))
  {
    var s := IntDecimal(i) + t;
    assert s == NatDigits(i) + t;
    assert s[0] == NatDigits(i)[0] != Minus;
    NatRoundTrip(i, t);
  }

  /** Whatever ParseInteger accepts is exactly the text of the integer it returns. */
  lemma ParseIntegerExact(s: seq<Byte>)
    requires ParseInteger(s).Some?
    ensures var (i, t) := ParseInteger(s).value;
      s == IntDecimal(i) + t && (t == [] || !IsDigit(t[0]))
  {
    if s != [] && s[0] == Minus {
      var (n, t) := ParseNat(s[1..]).value;
      ParseNatExact(s[1..]);
      assert n != 0 && s[1..] == NatDigits(n) + t;
      assert IntDecimal(0 - n as int) == [Minus] + NatDigits(n);
      assert s == [Minus] + s[1..];
      Assoc3([Minus], NatDigits(n), t);
    } else {
      ParseNatExact(s);
    }
  }
}
