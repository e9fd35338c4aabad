/**
  Ordering of dictionary entries by key.  Bencode emits a dictionary's
  entries with their keys in strictly increasing byte order, whatever order
  the in-memory mapping enumerated them in; SortByKey is that reordering,
  and the lemmas here show it is a permutation, that its result is sorted,
  and that it depends only on the set of entries, not on their input order.
*/
module KeySort {
  import opened Bytes

  /** One dictionary entry: a byte-string key and its value. */
  type Entry<V> = (seq<Byte>, V)

  /** No two positions hold the same key (a mapping's keys are unique). */
  predicate DistinctKeys<V>(es: seq<Entry<V>>) {
    forall i, j | 0 <= i < j < |es| :: es[i].0 != es[j].0
  }

  /** Keys in non-decreasing byte order. */
  predicate Sorted<V>(es: seq<Entry<V>>) {
    forall i, j | 0 <= i < j < |es| :: !Below(es[j].0, es[i].0)
  }

  /** Keys in strictly increasing byte order. */
  predicate StrictlySorted<V>(es: seq<Entry<V>>) {
    forall i, j | 0 <= i < j < |es| :: Below(es[i].0, es[j].0)
  }

  lemma NotBelowTransitive(a: seq<Byte>, b: seq<Byte>, c: seq<Byte>)
    requires !Below(b, a) && !Below(c, b)
    ensures !Below(c, a)
  {
    if a != b && b != c {
      BelowTotal(a, b);
      BelowTotal(b, c);
      BelowTransitive(a, b, c);
      BelowAsymmetric(a, c);
    }
  }

  /** Inserts e in front of the first entry whose key is not below e's. */
  function Insert<V>(e: Entry<V>, es: seq<Entry<V>>): (r: seq<Entry<V>>)
    ensures multiset(r) == multiset(es) + multiset{e}
  {
    if es == [] || !Below(es[0].0, e.0) then [e] + es
    else
      assert es == [es[0]] + es[1..];
      [es[0]] + Insert(e, es[1..])
  }

  lemma {:induction false} InsertSorted<V>(e: Entry<V>, es: seq<Entry<V>>)
    requires Sorted(es)
    ensures Sorted(Insert(e, es))
  {
    if es == [] || !Below(es[0].0, e.0) {
      forall k | 0 <= k < |es| ensures !Below(es[k].0, e.0) {
        if k == 0 { BelowIrreflexive(es[0].0); }
        NotBelowTransitive(e.0, es[0].0, es[k].0);
      }
    } else {
      InsertSorted(e, es[1..]);
      var rest := Insert(e, es[1..]);
      BelowAsymmetric(es[0].0, e.0);
      forall k | 0 <= k < |rest| ensures !Below(rest[k].0, es[0].0) {
        assert rest[k] in multiset(es[1..]) + multiset{e};
      }
    }
  }

  lemma {:induction false} InsertStrictlySorted<V>(e: Entry<V>, es: seq<Entry<V>>)
    requires StrictlySorted(es)
    requires forall x | x in es :: x.0 != e.0
    ensures StrictlySorted(Insert(e, es))
  {
    if es == [] || !Below(es[0].0, e.0) {
      forall k | 0 <= k < |es| ensures Below(e.0, es[k].0) {
        BelowTotal(e.0, es[0].0);
        if k > 0 { BelowTransitive(e.0, es[0].0, es[k].0); }
      }
    } else {
      InsertStrictlySorted(e, es[1..]);
      var rest := Insert(e, es[1..]);
      forall k | 0 <= k < |rest| ensures Below(es[0].0, rest[k].0) {
        assert rest[k] in multiset(es[1..]) + multiset{e};
      }
    }
  }

  /** Insertion sort of entries by key. */
  function SortByKey<V>(es: seq<Entry<V>>): (r: seq<Entry<V>>)
    ensures Sorted(r)
    ensures multiset(r) == multiset(es)
    ensures DistinctKeys(es) ==> StrictlySorted(r)
  {
    if es == [] then []
    else
      var rest := SortByKey(es[1..]);
      assert es == [es[0]] + es[1..];
      InsertSorted(es[0], rest);
      assert DistinctKeys(es) ==> StrictlySorted(Insert(es[0], rest)) by {
        if DistinctKeys(es) {
          FirstKeyNotInRest(es, rest);
          InsertStrictlySorted(es[0], rest);
        }
      }
      Insert(es[0], rest)
  }

  /** With distinct keys, the first key is found nowhere in a permutation of the others. */
  lemma FirstKeyNotInRest<V>(es: seq<Entry<V>>, rest: seq<Entry<V>>)
    requires es != [] && DistinctKeys(es) && multiset(rest) == multiset(es[1..])
    ensures DistinctKeys(es[1..])
    ensures forall x | x in rest :: x.0 != es[0].0
  {
    forall x | x in rest ensures x.0 != es[0].0 {
      assert x in multiset(es[1..]);
      var k :| 0 <= k < |es[1..]| && es[1..][k] == x;
      assert es[k + 1] == x;
    }
  }

  /** A sorted result holds the same entries as its input. */
  lemma SortByKeyMembers<V>(es: seq<Entry<V>>, x: Entry<V>)
    ensures x in SortByKey(es) <==> x in es
  {
    assert x in SortByKey(es) <==> x in multiset(SortByKey(es));
    assert x in es <==> x in multiset(es);
  }

  lemma StrictlySortedDistinct<V>(es: seq<Entry<V>>)
    requires StrictlySorted(es)
    ensures DistinctKeys(es)
  {
    forall i, j | 0 <= i < j < |es| ensures es[i].0 != es[j].0 {
      BelowIrreflexive(es[i].0);
    }
  }

  lemma ElementIsMember<T>(s: seq<T>, i: int)
    requires 0 <= i < |s|
    ensures s[i] in s
  {
  }

  /** Two strictly sorted entry sequences with the same members are the same sequence. */
  lemma {:induction false} StrictlySortedUnique<V>(p: seq<Entry<V>>, q: seq<Entry<V>>)
    requires StrictlySorted(p) && StrictlySorted(q)
    requires forall x :: x in p <==> x in q
    ensures p == q
  {
    if p == [] && q == [] {
    } else if p == [] {
      ElementIsMember(q, 0);
      assert false;
    } else if q == [] {
      ElementIsMember(p, 0);
      assert false;
    } else {
      var x, y := p[0], q[0];
      assert x in q;
      assert y in p;
      var k :| 0 <= k < |q| && q[k] == x;
      var j :| 0 <= j < |p| && p[j] == y;
      if k > 0 && j > 0 {
        BelowAsymmetric(y.0, x.0);
      }
      assert x == y;
      forall z ensures z in p[1..] <==> z in q[1..] {
        if z in p[1..] {
          var a :| 0 <= a < |p[1..]| && p[1..][a] == z;
          BelowIrreflexive(x.0);
          assert z != x by { assert Below(p[0].0, p[a + 1].0); }
          assert z in q;
        }
        if z in q[1..] {
          var a :| 0 <= a < |q[1..]| && q[1..][a] == z;
          BelowIrreflexive(y.0);
          assert z != y by { assert Below(q[0].0, q[a + 1].0); }
          assert z in p;
        }
      }
      StrictlySortedUnique(p[1..], q[1..]);
      assert p == [x] + p[1..] && q == [y] + q[1..];
    }
  }

  /**
    The sorted order depends only on which entries there are: two
    enumerations of one mapping (distinct keys, same entries, any order)
    sort to the same sequence.
  */
  lemma SortByKeyDeterministic<V>(a: seq<Entry<V>>, b: seq<Entry<V>>)
    requires DistinctKeys(a) && DistinctKeys(b)
    requires forall x :: x in a <==> x in b
    ensures SortByKey(a) == SortByKey(b)
  {
    forall x ensures x in SortByKey(a) <==> x in SortByKey(b) {
      SortByKeyMembers(a, x);
      SortByKeyMembers(b, x);
    }
    StrictlySortedUnique(SortByKey(a), SortByKey(b));
  }

  /** Entries already in strictly increasing key order are left as they are. */
  lemma SortByKeySortedIdentity<V>(es: seq<Entry<V>>)
    requires StrictlySorted(es)
    ensures SortByKey(es) == es
  {
    StrictlySortedDistinct(es);
    forall x ensures x in SortByKey(es) <==> x in es {
      SortByKeyMembers(es, x);
    }
    StrictlySortedUnique(SortByKey(es), es);
  }
}
