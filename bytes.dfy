/**
  Bytes and byte strings: the alphabet of the Bencode wire format, the
  ASCII bytes that delimit its productions, and the byte-wise
  lexicographic order in which dictionary keys are emitted.
*/
module Bytes {

  newtype Byte = b: int | 0 <= b < 256

  const IntTag: Byte := 105   // 'i', opens an integer
  const ListTag: Byte := 108  // 'l', opens a list
  const DictTag: Byte := 100  // 'd', opens a dictionary
  const EndTag: Byte := 101   // 'e', closes an integer, a list or a dictionary
  const Colon: Byte := 58     // ':', separates a byte string's length from its bytes
  const Minus: Byte := 45     // '-', sign of a negative integer
  const Zero: Byte := 48      // '0'

  predicate IsDigit(b: Byte) {
    Zero <= b <= Zero + 9
  }

  predicate AllDigits(s: seq<Byte>) {
    forall i | 0 <= i < |s| :: IsDigit(s[i])
  }

  /**
    The bytes of a text written one byte per character, each character's
    code taken modulo 256; for an ASCII text these are its bytes.
  */
  function Ascii(s: string): (r: seq<Byte>)
    ensures |r| == |s| && forall i | 0 <= i < |s| :: r[i] as int == s[i] as int % 256
  {
    seq(|s|, i requires 0 <= i < |s| => (s[i] as int % 256) as Byte)
  }

  /**
    Strict byte-wise lexicographic order, the order Go's string comparison
    uses: at the first position where the two differ the smaller byte comes
    first, and a proper prefix comes before its extensions.
  */
  predicate Below(a: seq<Byte>, b: seq<Byte>) {
    if a == [] then b != []
    else if b == [] then false
    else a[0] < b[0] || (a[0] == b[0] && Below(a[1..], b[1..]))
  }

  /** The same order stated without recursion: a proper prefix, or a smaller byte at the first difference. */
  ghost predicate LexLess(a: seq<Byte>, b: seq<Byte>) {
    (|a| < |b| && a == b[..|a|]) ||
    exists k | 0 <= k < |a| && k < |b| :: a[..k] == b[..k] && a[k] < b[k]
  }

  lemma {:induction false} BelowIsLexLess(a: seq<Byte>, b: seq<Byte>)
    ensures Below(a, b) <==> LexLess(a, b)
  {
    if a == [] || b == [] {
    } else {
      BelowIsLexLess(a[1..], b[1..]);
      if Below(a, b) {
        if a[0] < b[0] {
          assert a[..0] == b[..0];
        } else if |a[1..]| < |b[1..]| && a[1..] == b[1..][..|a[1..]|] {
          assert a == [a[0]] + a[1..] && b[..|a|] == [b[0]] + b[1..][..|a[1..]|];
        } else {
          var k :| 0 <= k < |a[1..]| && k < |b[1..]| && a[1..][..k] == b[1..][..k] && a[1..][k] < b[1..][k];
          assert a[..k + 1] == [a[0]] + a[1..][..k] && b[..k + 1] == [b[0]] + b[1..][..k];
          assert a[k + 1] < b[k + 1];
        }
      }
      if LexLess(a, b) {
        if |a| < |b| && a == b[..|a|] {
          assert a[0] == b[0];
          assert a[1..] == b[1..][..|a[1..]|];
        } else {
          var k :| 0 <= k < |a| && k < |b| && a[..k] == b[..k] && a[k] < b[k];
          if k > 0 {
            assert a[0] == a[..k][0] == b[..k][0] == b[0];
            assert a[1..][..k - 1] == a[1..k] == a[..k][1..] && b[1..][..k - 1] == b[1..k] == b[..k][1..];
            assert a[1..][k - 1] < b[1..][k - 1];
          }
        }
      }
    }
  }

  lemma {:induction false} BelowIrreflexive(a: seq<Byte>)
    ensures !Below(a, a)
  {
    if a != [] {
      BelowIrreflexive(a[1..]);
    }
  }

  lemma {:induction false} BelowAsymmetric(a: seq<Byte>, b: seq<Byte>)
    requires Below(a, b)
    ensures !Below(b, a)
  {
    if a != [] && b != [] && a[0] == b[0] {
      BelowAsymmetric(a[1..], b[1..]);
    }
  }

  lemma {:induction false} BelowTransitive(a: seq<Byte>, b: seq<Byte>, c: seq<Byte>)
    requires Below(a, b) && Below(b, c)
    ensures Below(a, c)
  {
    if a != [] && a[0] == b[0] && b[0] == c[0] {
      BelowTransitive(a[1..], b[1..], c[1..]);
    }
  }

  /** Any two distinct byte strings are ordered one way or the other. */
  lemma {:induction false} BelowTotal(a: seq<Byte>, b: seq<Byte>)
    requires a != b
    ensures Below(a, b) || Below(b, a)
  {
    if a != [] && b != [] && a[0] == b[0] {
      assert a == [a[0]] + a[1..] && b == [b[0]] + b[1..];
      BelowTotal(a[1..], b[1..]);
    }
  }
}
