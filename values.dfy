/**
  The four Bencode productions, as a closed datatype: an integer of any
  size, a byte string, a list, and a dictionary.  A dictionary keeps its
  entries in whatever order the in-memory mapping enumerated them; the
  encoder, not the value, puts them in key order.
*/
module Values {
  import opened Bytes
  import opened KeySort

  datatype Value =
    | Int(n: int)
    | Str(bytes: seq<Byte>)
    | List(items: seq<Value>)
    | Dict(entries: seq<Entry<Value>>)

  /** Every dictionary, at any depth, has unique keys, as a mapping does. */
  predicate WellFormed(v: Value) {
    match v
    case Int(_) => true
    case Str(_) => true
    case List(items) => forall x | x in items :: WellFormed(x)
    case Dict(entries) => DistinctKeys(entries) && forall e | e in entries :: WellFormed(e.1)
  }

  /**
    Every dictionary, at any depth, already holds its entries in strictly
    increasing key order: the form a value has when it is read back from
    its encoding.
  */
  predicate Canonical(v: Value) {
    match v
    case Int(_) => true
    case Str(_) => true
    case List(items) => forall x | x in items :: Canonical(x)
    case Dict(entries) => StrictlySorted(entries) && forall e | e in entries :: Canonical(e.1)
  }

  lemma {:induction false} CanonicalIsWellFormed(v: Value)
    requires Canonical(v)
    ensures WellFormed(v)
  {
    match v
    case Int(_) =>
    case Str(_) =>
    case List(items) =>
      forall x | x in items ensures WellFormed(x) {
        CanonicalIsWellFormed(x);
      }
    case Dict(entries) =>
      StrictlySortedDistinct(entries);
      forall e | e in entries ensures WellFormed(e.1) {
        CanonicalIsWellFormed(e.1);
      }
  }

  /**
    The canonical form of a value: every dictionary's entries put in key
    order, at every depth.  It is the value a reader recovers from the
    value's encoding.
  */
  function Normalize(v: Value): Value
    decreases v, 1
  {
    match v
    case Int(_) => v
    case Str(_) => v
    case List(items) => List(NormalizeItems(items))
    case Dict(entries) =>
      var sorted := SortByKey(entries);
      assert forall e | e in sorted :: e in entries by {
        forall e | e in sorted ensures e in entries {
          SortByKeyMembers(entries, e);
        }
      }
      Dict(NormalizeEntries(sorted, v))
  }

  function NormalizeItems(items: seq<Value>): (r: seq<Value>)
    ensures |r| == |items|
    decreases items
  {
    if items == [] then [] else [Normalize(items[0])] + NormalizeItems(items[1..])
  }

  /** Normalizes each value of the owner's entries, keeping the keys where they are. */
  function NormalizeEntries(es: seq<Entry<Value>>, ghost owner: Value): (r: seq<Entry<Value>>)
    requires owner.Dict? && forall e | e in es :: e in owner.entries
    ensures |r| == |es| && forall i | 0 <= i < |es| :: r[i].0 == es[i].0
    decreases owner, 0, |es|
  {
    if es == [] then []
    else
      assert es[0] in owner.entries;
      [(es[0].0, Normalize(es[0].1))] + NormalizeEntries(es[1..], owner)
  }

  /** Normalizing a value whose dictionaries have unique keys yields a canonical value. */
  lemma {:induction false} NormalizeIsCanonical(v: Value)
    requires WellFormed(v)
    ensures Canonical(Normalize(v))
    decreases v, 1
  {
    match v
    case Int(_) =>
    case Str(_) =>
    case List(items) =>
      NormalizeItemsCanonical(items);
    case Dict(entries) =>
      var sorted := SortByKey(entries);
      forall e | e in sorted ensures e in entries {
        SortByKeyMembers(entries, e);
      }
      NormalizeEntriesCanonical(sorted, v);
  }

  lemma {:induction false} NormalizeItemsCanonical(items: seq<Value>)
    requires forall x | x in items :: WellFormed(x)
    ensures forall x | x in NormalizeItems(items) :: Canonical(x)
    decreases items
  {
    if items != [] {
      NormalizeIsCanonical(items[0]);
      NormalizeItemsCanonical(items[1..]);
    }
  }

  lemma {:induction false} NormalizeEntriesCanonical(es: seq<Entry<Value>>, owner: Value)
    requires owner.Dict? && forall e | e in es :: e in owner.entries
    requires StrictlySorted(es) && forall e | e in es :: WellFormed(e.1)
    ensures StrictlySorted(NormalizeEntries(es, owner))
    ensures forall e | e in NormalizeEntries(es, owner) :: Canonical(e.1)
    decreases owner, 0, |es|
  {
    if es != [] {
      assert es[0] in owner.entries;
      NormalizeIsCanonical(es[0].1);
      NormalizeEntriesCanonical(es[1..], owner);
    }
  }
}
