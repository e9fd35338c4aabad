/**
  The canonical writer: the Bencode bytes of a value.
    integer      'i' decimal 'e'
    byte string  length ':' bytes
    list         'l' items 'e'
    dictionary   'd' (key value)* 'e', keys in strictly increasing byte order
*/
module Encoding {
  import opened Bytes
  import opened Decimal
  import opened KeySort
  import opened Values

  /** A byte string: its exact length in decimal, a colon, then the bytes verbatim. */
  function EncodeString(b: seq<Byte>): seq<Byte> {
    NatDigits(|b|) + [Colon] + b
  }

  /** The first byte of an encoding tells which production follows, and is never the end tag. */
  function Encode(v: Value): (r: seq<Byte>)
    ensures |r| >= 2
    ensures r[0] == IntTag <==> v.Int?
    ensures r[0] == ListTag <==> v.List?
    ensures r[0] == DictTag <==> v.Dict?
    ensures IsDigit(r[0]) <==> v.Str?
    decreases v, 1
  {
    match v
    case Int(n) => [IntTag] + IntDecimal(n) + [EndTag]
    case Str(b) => EncodeString(b)
    case List(items) => [ListTag] + EncodeItems(items) + [EndTag]
    case Dict(entries) =>
      var sorted := SortByKey(entries);
      assert forall e | e in sorted :: e in entries by {
        forall e | e in sorted ensures e in entries {
          SortByKeyMembers(entries, e);
        }
      }
      [DictTag] + EncodeEntries(sorted, v) + [EndTag]
  }

  /** The items of a list, one encoding after the other, in list order. */
  function EncodeItems(items: seq<Value>): seq<Byte>
    decreases items
  {
    if items == [] then [] else Encode(items[0]) + EncodeItems(items[1..])
  }

  /**
    Entries of the dictionary owner, each as its key's byte string followed by
    its value's encoding, in the order given.  (The ghost owner only carries
    the termination argument: every entry is one of the owner's.)
  */
  function EncodeEntries(es: seq<Entry<Value>>, ghost owner: Value): seq<Byte>
    requires owner.Dict? && forall e | e in es :: e in owner.entries
    decreases owner, 0, |es|
  {
    if es == [] then []
    else
      assert es[0] in owner.entries;
      EncodeString(es[0].0) + Encode(es[0].1) + EncodeEntries(es[1..], owner)
  }

  /** Which dictionary the entries belong to does not change their bytes. */
  lemma {:induction false} EncodeEntriesOwner(es: seq<Entry<Value>>, o1: Value, o2: Value)
    requires o1.Dict? && forall e | e in es :: e in o1.entries
    requires o2.Dict? && forall e | e in es :: e in o2.entries
    ensures EncodeEntries(es, o1) == EncodeEntries(es, o2)
    decreases |es|
  {
    if es != [] {
      EncodeEntriesOwner(es[1..], o1, o2);
    }
  }

  /** Encoding a list is encoding its parts one after the other. */
  lemma {:induction false} EncodeItemsAppend(a: seq<Value>, b: seq<Value>)
    ensures EncodeItems(a + b) == EncodeItems(a) + EncodeItems(b)
  {
    if a != [] {
      assert (a + b)[1..] == a[1..] + b;
      EncodeItemsAppend(a[1..], b);
    } else {
      assert a + b == b;
    }
  }

  lemma {:induction false} EncodeEntriesAppend(a: seq<Entry<Value>>, b: seq<Entry<Value>>, owner: Value)
    requires owner.Dict? && forall e | e in a + b :: e in owner.entries
    ensures EncodeEntries(a + b, owner) == EncodeEntries(a, owner) + EncodeEntries(b, owner)
    decreases |a|
  {
    if a != [] {
      assert (a + b)[1..] == a[1..] + b;
      EncodeEntriesAppend(a[1..], b, owner);
    } else {
      assert a + b == b;
    }
  }

  /** The encoding of a list grows item by item. */
  lemma EncodeItemsStep(items: seq<Value>, i: int)
    requires 0 <= i < |items|
    ensures EncodeItems(items[..i + 1]) == EncodeItems(items[..i]) + Encode(items[i])
  {
    EncodeItemsAppend(items[..i], [items[i]]);
    assert items[..i + 1] == items[..i] + [items[i]];
    assert EncodeItems([items[i]]) == Encode(items[i]) + EncodeItems([]);
  }

  /** The encoding of a dictionary's entries grows entry by entry, each key then its value. */
  lemma EncodeEntriesStep(es: seq<Entry<Value>>, i: int, owner: Value)
    requires owner.Dict? && forall e | e in es :: e in owner.entries
    requires 0 <= i < |es|
    ensures EncodeEntries(es[..i + 1], owner) == EncodeEntries(es[..i], owner) + EncodeString(es[i].0) + Encode(es[i].1)
  {
    assert es[..i + 1] == es[..i] + [es[i]];
    EncodeEntriesAppend(es[..i], [es[i]], owner);
    assert [es[i]][1..] == [];
    var a, b, c := EncodeEntries(es[..i], owner), EncodeString(es[i].0), Encode(es[i].1);
    assert EncodeEntries([es[i]], owner) == b + c + [];
    assert a + (b + c + []) == a + b + c;
  }

  /** A list is 'l', its items in order, 'e'. */
  lemma EncodeList(items: seq<Value>)
    ensures Encode(List(items)) == [ListTag] + EncodeItems(items) + [EndTag]
  {
  }

  /** A dictionary is 'd', its entries in the order SortByKey gives, 'e'. */
  lemma EncodeDictSorted(entries: seq<Entry<Value>>)
    ensures forall e | e in SortByKey(entries) :: e in entries
    ensures Encode(Dict(entries)) == [DictTag] + EncodeEntries(SortByKey(entries), Dict(entries)) + [EndTag]
  {
    forall e | e in SortByKey(entries) ensures e in entries {
      SortByKeyMembers(entries, e);
    }
  }

  /**
    A dictionary is written as 'd', its entries in strictly increasing key
    order, then 'e': for any arrangement p of the same entries with strictly
    increasing keys, the encoding is exactly p's entries between the tags.
  */
  lemma EncodeDictInKeyOrder(es: seq<Entry<Value>>, p: seq<Entry<Value>>)
    requires DistinctKeys(es)
    requires StrictlySorted(p) && forall x :: x in p <==> x in es
    ensures Encode(Dict(es)) == [DictTag] + EncodeEntries(p, Dict(es)) + [EndTag]
  {
    var sorted := SortByKey(es);
    forall x ensures x in sorted <==> x in p {
      SortByKeyMembers(es, x);
    }
    StrictlySortedUnique(sorted, p);
  }

  /**
    The bytes of a dictionary do not depend on the order in which its
    entries are enumerated: two enumerations of the same mapping encode
    identically.
  */
  lemma EncodeDictDeterministic(a: seq<Entry<Value>>, b: seq<Entry<Value>>)
    requires DistinctKeys(a) && DistinctKeys(b)
    requires forall x :: x in a <==> x in b
    ensures Encode(Dict(a)) == Encode(Dict(b))
  {
    var p := SortByKey(a);
    forall x ensures x in p <==> x in a {
      SortByKeyMembers(a, x);
    }
    EncodeDictInKeyOrder(a, p);
    EncodeDictInKeyOrder(b, p);
    EncodeEntriesOwner(p, Dict(a), Dict(b));
  }

  /**
    Normalizing first changes nothing on the wire: a value with unique keys
    and its canonical form have the same encoding.
  */
  lemma {:induction false} EncodeNormalize(v: Value)
    requires WellFormed(v)
    ensures Encode(Normalize(v)) == Encode(v)
    decreases v, 1
  {
    match v
    case Int(_) =>
    case Str(_) =>
    case List(items) =>
      EncodeNormalizedItems(items);
    case Dict(entries) =>
      var sorted := SortByKey(entries);
      forall e | e in sorted ensures e in entries {
        SortByKeyMembers(entries, e);
      }
      var normal := NormalizeEntries(sorted, v);
      assert Normalize(v) == Dict(normal);
      assert StrictlySorted(normal);
      StrictlySortedDistinct(normal);
      EncodeDictInKeyOrder(normal, normal);
      EncodeNormalizedEntries(sorted, v, Dict(normal));
  }

  lemma {:induction false} EncodeNormalizedItems(items: seq<Value>)
    requires forall x | x in items :: WellFormed(x)
    ensures EncodeItems(NormalizeItems(items)) == EncodeItems(items)
    decreases items
  {
    if items != [] {
      EncodeNormalize(items[0]);
      EncodeNormalizedItems(items[1..]);
    }
  }

  lemma {:induction false} EncodeNormalizedEntries(es: seq<Entry<Value>>, owner: Value, target: Value)
    requires owner.Dict? && forall e | e in es :: e in owner.entries
    requires forall e | e in es :: WellFormed(e.1)
    requires target.Dict? && forall e | e in NormalizeEntries(es, owner) :: e in target.entries
    ensures EncodeEntries(NormalizeEntries(es, owner), target) == EncodeEntries(es, owner)
    decreases owner, 0, |es|
  {
    if es != [] {
      assert es[0] in owner.entries;
      var normal := NormalizeEntries(es, owner);
      assert normal[1..] == NormalizeEntries(es[1..], owner);
      EncodeNormalize(es[0].1);
      EncodeNormalizedEntries(es[1..], owner, target);
    }
  }
}
