/**
  A strict reader of Bencode, the partner the writer is proved against.  It
  accepts only the canonical form (no leading zeros, no "-0", dictionary
  keys strictly increasing), so that reading and writing are inverse to
  each other in both directions: every canonical value reads back from its
  encoding, and every accepted input is the encoding of what it reads as.
*/
module Decoding {
  import opened Wrappers
  import opened Bytes
  import opened Concat
  import opened Decimal
  import opened KeySort
  import opened Values
  import opened Encoding

  /** Reads length ':' bytes. */
  function ParseString(s: seq<Byte>): (r: Option<(seq<Byte>, seq<Byte>)>)
    ensures r.Some? ==> |r.value.1| < |s|
  {
    match ParseNat(s)
    case None => None
    case Some((n, t)) =>
      if |t| >= 1 + n && t[0] == Colon then Some((t[1..1 + n], t[1 + n..])) else None
  }

  /** Reads the rest of an integer after its 'i': the decimal text, then 'e'. */
  function ParseIntBody(s: seq<Byte>): (r: Option<(Value, seq<Byte>)>)
    ensures r.Some? ==> |r.value.1| < |s|
  {
    match ParseInteger(s)
    case Some((n, t)) => if t != [] && t[0] == EndTag then Some((Int(n), t[1..])) else None
    case None => None
  }

  /** Reads a byte string as a value. */
  function ParseStr(s: seq<Byte>): (r: Option<(Value, seq<Byte>)>)
    ensures r.Some? ==> |r.value.1| < |s|
  {
    match ParseString(s)
    case Some((b, t)) => Some((Str(b), t))
    case None => None
  }

  /** Reads one value from the front of s and returns it with the bytes after it. */
  function ParseValue(s: seq<Byte>): (r: Option<(Value, seq<Byte>)>)
    ensures r.Some? ==> |r.value.1| < |s|
    decreases |s|, 0
  {
    if s == [] then None
    else if s[0] == IntTag then ParseIntBody(s[1..])
    else if s[0] == ListTag then ParseItems(s[1..], [])
    else if s[0] == DictTag then ParseEntries(s[1..], [])
    else ParseStr(s)
  }

  /** Reads list items until the end tag; acc holds the items read so far. */
  function ParseItems(s: seq<Byte>, acc: seq<Value>): (r: Option<(Value, seq<Byte>)>)
    ensures r.Some? ==> |r.value.1| < |s|
    decreases |s|, 1
  {
    if s == [] then None
    else if s[0] == EndTag then Some((List(acc), s[1..]))
    else
      match ParseValue(s)
      case None => None
      case Some((v, t)) => ParseItems(t, acc + [v])
  }

  /** Reads dictionary entries until the end tag, refusing a key that does not follow the previous one. */
  function ParseEntries(s: seq<Byte>, acc: seq<Entry<Value>>): (r: Option<(Value, seq<Byte>)>)
    ensures r.Some? ==> |r.value.1| < |s|
    decreases |s|, 1
  {
    if s == [] then None
    else if s[0] == EndTag then Some((Dict(acc), s[1..]))
    else
      match ParseString(s)
      case None => None
      case Some((k, t)) =>
        if acc != [] && !Below(acc[|acc| - 1].0, k) then None
        else
          match ParseValue(t)
          case None => None
          case Some((v, u)) => ParseEntries(u, acc + [(k, v)])
  }

  /** A whole input that is exactly one encoded value. */
  function Decode(s: seq<Byte>): Option<Value> {
    match ParseValue(s)
    case Some((v, t)) => if t == [] then Some(v) else None
    case None => None
  }

  lemma StringRoundTrip(b: seq<Byte>, rest: seq<Byte>)
    ensures ParseString(EncodeString(b) + rest) == Some((b, rest))
  {
    var t := [Colon] + b + rest;
    assert EncodeString(b) + rest == NatDigits(|b|) + t;
    NatRoundTrip(|b|, t);
    assert t[1..1 + |b|] == b && t[1 + |b|..] == rest;
  }

  lemma ParseStringExact(s: seq<Byte>)
    requires ParseString(s).Some?
    ensures var (b, t) := ParseString(s).value; s == EncodeString(b) + t
  {
    ParseNatExact(s);
    var (n, t) := ParseNat(s).value;
    var b, rest := t[1..1 + n], t[1 + n..];
    assert t == [Colon] + b + rest;
    Assoc4(NatDigits(n), [Colon], b, rest);
  }

  lemma IntRoundTrip(n: int, rest: seq<Byte>)
    ensures ParseValue(Encode(Int(n)) + rest) == Some((Int(n), rest))
  {
    var s := Encode(Int(n)) + rest;
    assert s[1..] == IntDecimal(n) + ([EndTag] + rest);
    IntegerRoundTrip(n, [EndTag] + rest);
  }

  lemma ListOpens(items: seq<Value>, rest: seq<Byte>)
    ensures ParseValue(Encode(List(items)) + rest) == ParseItems(EncodeItems(items) + [EndTag] + rest, [])
  {
    assert (Encode(List(items)) + rest)[1..] == EncodeItems(items) + [EndTag] + rest;
  }

  lemma DictOpens(entries: seq<Entry<Value>>, rest: seq<Byte>)
    requires StrictlySorted(entries)
    ensures ParseValue(Encode(Dict(entries)) + rest) == ParseEntries(EncodeEntries(entries, Dict(entries)) + [EndTag] + rest, [])
  {
    StrictlySortedDistinct(entries);
    EncodeDictInKeyOrder(entries, entries);
    var body := EncodeEntries(entries, Dict(entries));
    var s := Encode(Dict(entries)) + rest;
    Assoc4([DictTag], body, [EndTag], rest);
    assert s == [DictTag] + (body + [EndTag] + rest);
    assert s[1..] == body + [EndTag] + rest;
  }

  /** A canonical value's encoding, followed by anything, reads back as that value. */
  lemma {:induction false} ValueRoundTrip(v: Value, rest: seq<Byte>)
    requires Canonical(v)
    ensures ParseValue(Encode(v) + rest) == Some((v, rest))
    decreases v, 1
  {
    match v
    case Int(n) =>
      IntRoundTrip(n, rest);
    case Str(b) =>
      StringRoundTrip(b, rest);
    case List(items) =>
      ListOpens(items, rest);
      ItemsRoundTrip(items, [], rest);
      assert [] + items == items;
    case Dict(entries) =>
      DictOpens(entries, rest);
      EntriesRoundTrip(entries, v, [], rest);
      assert [] + entries == entries;
  }

  lemma {:induction false} ItemsRoundTrip(items: seq<Value>, acc: seq<Value>, rest: seq<Byte>)
    requires forall x | x in items :: Canonical(x)
    ensures ParseItems(EncodeItems(items) + [EndTag] + rest, acc) == Some((List(acc + items), rest))
    decreases items
  {
    if items == [] {
      ItemsEnd(items, acc, rest);
    } else {
      var tail := EncodeItems(items[1..]) + [EndTag] + rest;
      ItemsCons(items, rest);
      ValueRoundTrip(items[0], tail);
      ItemStep(items[0], tail, acc);
      ShiftHead(acc, items);
      ItemsRoundTrip(items[1..], acc + [items[0]], rest);
    }
  }

  /** The reader stops at the end tag of a list. */
  lemma ItemsEnd(items: seq<Value>, acc: seq<Value>, rest: seq<Byte>)
    requires items == []
    ensures ParseItems(EncodeItems(items) + [EndTag] + rest, acc) == Some((List(acc + items), rest))
  {
    assert EncodeItems(items) + [EndTag] + rest == [EndTag] + rest;
    assert ([EndTag] + rest)[1..] == rest;
    assert acc + items == acc;
  }

  lemma ItemsCons(items: seq<Value>, rest: seq<Byte>)
    requires items != []
    ensures EncodeItems(items) + [EndTag] + rest == Encode(items[0]) + (EncodeItems(items[1..]) + [EndTag] + rest)
  {
    assert EncodeItems(items) == Encode(items[0]) + EncodeItems(items[1..]);
    Assoc4(Encode(items[0]), EncodeItems(items[1..]), [EndTag], rest);
  }

  /** One item step of the reader: a value that is not the end tag. */
  lemma ItemStep(v: Value, after: seq<Byte>, acc: seq<Value>)
    requires ParseValue(Encode(v) + after) == Some((v, after))
    ensures ParseItems(Encode(v) + after, acc) == ParseItems(after, acc + [v])
  {
    var s := Encode(v) + after;
    assert s[0] == Encode(v)[0];
  }

  /** One entry step of the reader: a key that follows the previous one, then a value. */
  lemma EntryStep(k: seq<Byte>, val: Value, after: seq<Byte>, acc: seq<Entry<Value>>)
    requires acc == [] || Below(acc[|acc| - 1].0, k)
    requires ParseValue(Encode(val) + after) == Some((val, after))
    ensures ParseEntries(EncodeString(k) + (Encode(val) + after), acc) == ParseEntries(after, acc + [(k, val)])
  {
    var s := EncodeString(k) + (Encode(val) + after);
    StringRoundTrip(k, Encode(val) + after);
    assert s[0] == NatDigits(|k|)[0];
  }

  lemma ShiftHead<T>(acc: seq<T>, xs: seq<T>)
    requires xs != []
    ensures acc + [xs[0]] + xs[1..] == acc + xs
  {
    assert xs == [xs[0]] + xs[1..];
  }

  lemma {:induction false} EntriesRoundTrip(es: seq<Entry<Value>>, owner: Value, acc: seq<Entry<Value>>, rest: seq<Byte>)
    requires owner.Dict? && forall e | e in es :: e in owner.entries
    requires StrictlySorted(acc + es)
    requires forall e | e in es :: Canonical(e.1)
    ensures ParseEntries(EncodeEntries(es, owner) + [EndTag] + rest, acc) == Some((Dict(acc + es), rest))
    decreases owner, 0, |es|
  {
    if es == [] {
      EntriesEnd(es, owner, acc, rest);
    } else {
      var k, val := es[0].0, es[0].1;
      var after := EncodeEntries(es[1..], owner) + [EndTag] + rest;
      EntriesConsBytes(es, owner, rest);
      KeyFollows(acc, es);
      ValueRoundTrip(val, after);
      EntryStep(k, val, after, acc);
      ShiftHead(acc, es);
      EntriesRoundTrip(es[1..], owner, acc + [es[0]], rest);
    }
  }

  /** The reader stops at the end tag of a dictionary. */
  lemma EntriesEnd(es: seq<Entry<Value>>, owner: Value, acc: seq<Entry<Value>>, rest: seq<Byte>)
    requires es == [] && owner.Dict?
    ensures ParseEntries(EncodeEntries(es, owner) + [EndTag] + rest, acc) == Some((Dict(acc + es), rest))
  {
    assert EncodeEntries(es, owner) + [EndTag] + rest == [EndTag] + rest;
    assert ([EndTag] + rest)[1..] == rest;
    assert acc + es == acc;
  }

  lemma EntriesConsBytes(es: seq<Entry<Value>>, owner: Value, rest: seq<Byte>)
    requires es != [] && owner.Dict? && forall e | e in es :: e in owner.entries
    ensures EncodeEntries(es, owner) + [EndTag] + rest
      == EncodeString(es[0].0) + (Encode(es[0].1) + (EncodeEntries(es[1..], owner) + [EndTag] + rest))
  {
    EncodeEntriesCons(es, owner);
    Nest5(EncodeString(es[0].0), Encode(es[0].1), EncodeEntries(es[1..], owner), [EndTag], rest);
  }

  /** In a strictly sorted sequence, the first of es follows the last of acc. */
  lemma KeyFollows(acc: seq<Entry<Value>>, es: seq<Entry<Value>>)
    requires es != [] && StrictlySorted(acc + es)
    ensures acc == [] || Below(acc[|acc| - 1].0, es[0].0)
  {
    if acc != [] {
      assert (acc + es)[|acc| - 1] == acc[|acc| - 1] && (acc + es)[|acc|] == es[0];
    }
  }

  lemma ParsedIntIsEncoding(s: seq<Byte>)
    requires ParseIntBody(s).Some?
    ensures ParseIntBody(s).value.0.Int?
    ensures [IntTag] + s == Encode(ParseIntBody(s).value.0) + ParseIntBody(s).value.1
  {
    var n, t := IntBodyParts(s);
    ParseIntegerExact(s);
    assert t == [EndTag] + t[1..];
    assert s == IntDecimal(n) + ([EndTag] + t[1..]);
    Nest4([IntTag], IntDecimal(n), [EndTag], t[1..]);
  }

  /** The integer ParseIntBody reads, and the bytes after its text, the first of which is the end tag. */
  lemma IntBodyParts(s: seq<Byte>) returns (n: int, t: seq<Byte>)
    requires ParseIntBody(s).Some?
    ensures ParseInteger(s) == Some((n, t)) && t != [] && t[0] == EndTag
    ensures ParseIntBody(s) == Some((Int(n), t[1..]))
    ensures Encode(Int(n)) == [IntTag] + IntDecimal(n) + [EndTag]
  {
    n, t := ParseInteger(s).value.0, ParseInteger(s).value.1;
  }

  lemma ParsedStrIsEncoding(s: seq<Byte>)
    requires ParseStr(s).Some?
    ensures ParseStr(s).value.0.Str?
    ensures s == Encode(ParseStr(s).value.0) + ParseStr(s).value.1
  {
    ParseStringExact(s);
  }

  /** Whatever ParseValue accepts is a canonical value's encoding, followed by what it leaves. */
  lemma {:induction false} ParsedIsEncoding(s: seq<Byte>)
    requires ParseValue(s).Some?
    ensures Canonical(ParseValue(s).value.0)
    ensures s == Encode(ParseValue(s).value.0) + ParseValue(s).value.1
    decreases |s|, 0
  {
    assert s == [s[0]] + s[1..];
    if s[0] == IntTag {
      ParsedIntIsEncoding(s[1..]);
    } else if s[0] == ListTag {
      ParsedItemsAreEncoding(s[1..], []);
    } else if s[0] == DictTag {
      ParsedEntriesAreEncoding(s[1..], []);
      SortByKeySortedIdentity(ParseValue(s).value.0.entries);
    } else {
      assert ParseValue(s) == ParseStr(s);
      ParsedStrIsEncoding(s);
    }
  }

  lemma {:induction false} ParsedItemsAreEncoding(s: seq<Byte>, acc: seq<Value>)
    requires ParseItems(s, acc).Some?
    requires forall x | x in acc :: Canonical(x)
    ensures ParseItems(s, acc).value.0.List?
    ensures Canonical(ParseItems(s, acc).value.0)
    ensures var items := ParseItems(s, acc).value.0.items;
      |items| >= |acc| && items[..|acc|] == acc &&
      s == EncodeItems(items[|acc|..]) + [EndTag] + ParseItems(s, acc).value.1
    decreases |s|, 1
  {
    if s[0] == EndTag {
      ItemsEndRead(s, acc);
    } else {
      var r := ParseItems(s, acc).value;
      var x, u := ItemsStep(s, acc);
      ParsedIsEncoding(s);
      ParsedItemsAreEncoding(u, acc + [x]);
      var items := r.0.items;
      PrefixStep(items, acc, x);
      ItemsCons(items[|acc|..], r.1);
    }
  }

  lemma ItemsEndRead(s: seq<Byte>, acc: seq<Value>)
    requires ParseItems(s, acc).Some? && s[0] == EndTag
    requires forall x | x in acc :: Canonical(x)
    ensures ParseItems(s, acc) == Some((List(acc), s[1..]))
    ensures Canonical(List(acc))
    ensures acc[..|acc|] == acc && acc[|acc|..] == []
    ensures s == EncodeItems([]) + [EndTag] + s[1..]
  {
    assert s == [EndTag] + s[1..];
  }

  /** A sequence that extends acc by x: its first |acc| elements are acc, and the rest starts with x. */
  lemma PrefixStep<T>(xs: seq<T>, acc: seq<T>, x: T)
    requires |xs| >= |acc| + 1 && xs[..|acc| + 1] == acc + [x]
    ensures xs[..|acc|] == acc
    ensures xs[|acc|..] != [] && xs[|acc|..][0] == x && xs[|acc|..][1..] == xs[|acc| + 1..]
  {
    assert xs[..|acc|] == xs[..|acc| + 1][..|acc|];
  }

  /** One item step of the reader, taken apart: the value read, and what is read after it. */
  lemma ItemsStep(s: seq<Byte>, acc: seq<Value>) returns (x: Value, u: seq<Byte>)
    requires ParseItems(s, acc).Some? && s[0] != EndTag
    ensures ParseValue(s) == Some((x, u))
    ensures ParseItems(s, acc) == ParseItems(u, acc + [x])
  {
    x, u := ParseValue(s).value.0, ParseValue(s).value.1;
  }

  lemma KeyStepSorted(acc: seq<Entry<Value>>, e: Entry<Value>)
    requires StrictlySorted(acc)
    requires acc == [] || Below(acc[|acc| - 1].0, e.0)
    ensures StrictlySorted(acc + [e])
  {
    var acc' := acc + [e];
    forall i, j | 0 <= i < j < |acc'| ensures Below(acc'[i].0, acc'[j].0) {
      if j == |acc| && i < |acc| - 1 {
        BelowTransitive(acc[i].0, acc[|acc| - 1].0, e.0);
      }
    }
  }

  /** One entry step of the reader, taken apart: the key, the value, and what is read after them. */
  lemma EntriesStep(s: seq<Byte>, acc: seq<Entry<Value>>) returns (k: seq<Byte>, t: seq<Byte>, x: Value, u: seq<Byte>)
    requires ParseEntries(s, acc).Some? && s[0] != EndTag
    ensures ParseString(s) == Some((k, t))
    ensures acc == [] || Below(acc[|acc| - 1].0, k)
    ensures ParseValue(t) == Some((x, u))
    ensures ParseEntries(s, acc) == ParseEntries(u, acc + [(k, x)])
  {
    k, t := ParseString(s).value.0, ParseString(s).value.1;
    x, u := ParseValue(t).value.0, ParseValue(t).value.1;
  }

  lemma EncodeEntriesCons(es: seq<Entry<Value>>, owner: Value)
    requires es != [] && owner.Dict? && forall e | e in es :: e in owner.entries
    ensures EncodeEntries(es, owner) == EncodeString(es[0].0) + Encode(es[0].1) + EncodeEntries(es[1..], owner)
  {
  }

  lemma {:induction false} ParsedEntriesAreEncoding(s: seq<Byte>, acc: seq<Entry<Value>>)
    requires ParseEntries(s, acc).Some?
    requires StrictlySorted(acc) && forall e | e in acc :: Canonical(e.1)
    ensures ParseEntries(s, acc).value.0.Dict?
    ensures Canonical(ParseEntries(s, acc).value.0)
    ensures var v := ParseEntries(s, acc).value.0;
      |v.entries| >= |acc| && v.entries[..|acc|] == acc &&
      s == EncodeEntries(v.entries[|acc|..], v) + [EndTag] + ParseEntries(s, acc).value.1
    decreases |s|, 1
  {
    if s[0] == EndTag {
      EntriesEndRead(s, acc);
    } else {
      var r := ParseEntries(s, acc).value;
      var k, t, x, u := EntriesStep(s, acc);
      ParseStringExact(s);
      ParsedIsEncoding(t);
      var e := (k, x);
      KeyStepSorted(acc, e);
      ParsedEntriesAreEncoding(u, acc + [e]);
      var v := r.0;
      PrefixStep(v.entries, acc, e);
      SuffixMembers(v.entries, |acc|);
      EntriesConsBytes(v.entries[|acc|..], v, r.1);
    }
  }

  lemma EntriesEndRead(s: seq<Byte>, acc: seq<Entry<Value>>)
    requires ParseEntries(s, acc).Some? && s[0] == EndTag
    requires StrictlySorted(acc) && forall e | e in acc :: Canonical(e.1)
    ensures ParseEntries(s, acc) == Some((Dict(acc), s[1..]))
    ensures Canonical(Dict(acc))
    ensures acc[..|acc|] == acc && acc[|acc|..] == []
    ensures s == EncodeEntries([], Dict(acc)) + [EndTag] + s[1..]
  {
    assert s == [EndTag] + s[1..];
  }

  lemma SuffixMembers<T>(xs: seq<T>, i: nat)
    requires i <= |xs|
    ensures forall y | y in xs[i..] :: y in xs
  {
    forall y | y in xs[i..] ensures y in xs {
      var j :| 0 <= j < |xs[i..]| && xs[i..][j] == y;
      assert xs[i + j] == y;
    }
  }

  /** Reading an encoding gives back the canonical value that was written. */
  lemma DecodeEncode(v: Value)
    requires Canonical(v)
    ensures Decode(Encode(v)) == Some(v)
  {
    ValueRoundTrip(v, []);
    assert Encode(v) + [] == Encode(v);
  }

  /**
    Bencode is canonical: an input that reads as a value is byte for byte
    that value's encoding, so re-encoding what was read reproduces the input.
  */
  lemma EncodeDecode(s: seq<Byte>)
    requires Decode(s).Some?
    ensures Canonical(Decode(s).value) && Encode(Decode(s).value) == s
  {
    ParsedIsEncoding(s);
    assert s == Encode(Decode(s).value) + [];
  }

  /** Distinct canonical values have distinct encodings, and no encoding is a proper prefix of another. */
  lemma EncodeSelfDelimiting(v: Value, w: Value, rest1: seq<Byte>, rest2: seq<Byte>)
    requires Canonical(v) && Canonical(w)
    requires Encode(v) + rest1 == Encode(w) + rest2
    ensures v == w && rest1 == rest2
  {
    ValueRoundTrip(v, rest1);
    ValueRoundTrip(w, rest2);
  }

  /**
    Any value whose dictionaries have unique keys round-trips to its
    canonical form: reading its encoding back gives the same lists and
    dictionaries, with every dictionary's entries in key order.
  */
  lemma DecodeEncodeWellFormed(v: Value)
    requires WellFormed(v)
    ensures Decode(Encode(v)) == Some(Normalize(v))
  {
    EncodeNormalize(v);
    NormalizeIsCanonical(v);
    DecodeEncode(Normalize(v));
  }
}
