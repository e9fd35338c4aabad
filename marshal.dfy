/**
  Marshal: the entry point that takes a Go value of one of the shapes the
  encoder accepts, classifies it into one of the four Bencode productions,
  and writes it.  Go's run-time type switch over interface{} becomes one
  constructor of GoValue per accepted Go kind.
*/
module Marshaling {
  import opened Wrappers
  import opened Bytes
  import opened Decimal
  import opened KeySort
  import Values
  import opened Encoding
  import opened Decoding

  /** Go's built-in integer kinds (int and uint are taken to be 64 bits wide). */
  datatype IntKind = Int | Int8 | Int16 | Int32 | Int64 | Uint | Uint8 | Uint16 | Uint32 | Uint64

  function MinOf(k: IntKind): int {
    match k
    case Int | Int64 => -0x8000_0000_0000_0000
    case Int8 => -0x80
    case Int16 => -0x8000
    case Int32 => -0x8000_0000
    case Uint | Uint8 | Uint16 | Uint32 | Uint64 => 0
  }

  function MaxOf(k: IntKind): int {
    match k
    case Int | Int64 => 0x7fff_ffff_ffff_ffff
    case Int8 => 0x7f
    case Int16 => 0x7fff
    case Int32 => 0x7fff_ffff
    case Uint | Uint64 => 0xffff_ffff_ffff_ffff
    case Uint8 => 0xff
    case Uint16 => 0xffff
    case Uint32 => 0xffff_ffff
  }

  /** The Go values handed to Marshal, one constructor per kind the type switch distinguishes. */
  datatype GoValue =
    | Integer(kind: IntKind, n: int)           // int, int8, ..., uint64
    | Duration(seconds: int)                   // time.Duration, taken in whole seconds
    | Text(text: seq<Byte>)                    // string, as its bytes
    | ByteSlice(bytes: seq<Byte>)              // []byte
    | StringSlice(strings: seq<seq<Byte>>)     // []string
    | Slice(elems: seq<GoValue>)               // []interface{} and other slices of encodable values
    | StringMap(entries: seq<Entry<GoValue>>)  // map[string]T (or a named map type such as Dict), in its iteration order
    | Float(x: real)                           // float32, float64: no Bencode production
    | Bool(b: bool)                            // bool: no Bencode production
    | Nil                                      // nil: no Bencode production

  datatype UnsupportedKind = FloatKind | BoolKind | NilKind

  datatype Error = UnsupportedType(kind: UnsupportedKind)

  /**
    What the Go type system guarantees of a value: each integer lies in the
    range of its kind, and a map enumerates each of its keys once.
  */
  predicate Representable(g: GoValue) {
    match g
    case Integer(k, n) => MinOf(k) <= n <= MaxOf(k)
    case Slice(elems) => forall x | x in elems :: Representable(x)
    case StringMap(entries) => DistinctKeys(entries) && forall e | e in entries :: Representable(e.1)
    case _ => true
  }

  /** Nothing at any depth is a float, a bool or nil. */
  predicate Supported(g: GoValue) {
    match g
    case Float(_) => false
    case Bool(_) => false
    case Nil => false
    case Slice(elems) => forall x | x in elems :: Supported(x)
    case StringMap(entries) => forall e | e in entries :: Supported(e.1)
    case _ => true
  }

  /**
    The value classifier: the Bencode production for a Go value.  Every
    integer kind and a duration become an integer holding the same number;
    a string and a byte slice become the same byte string; every slice
    becomes a list in slice order; a map becomes a dictionary whose entries
    keep the map's keys.  A float, a bool or nil is refused.
  */
  function Classify(g: GoValue): (r: Result<Values.Value, Error>)
    ensures r.Ok? <==> Supported(g)
    decreases g, 1
  {
    match g
    case Integer(_, n) => Ok(Values.Int(n))
    case Duration(seconds) => Ok(Values.Int(seconds))
    case Text(text) => Ok(Values.Str(text))
    case ByteSlice(bytes) => Ok(Values.Str(bytes))
    case StringSlice(strings) => Ok(Values.List(seq(|strings|, i requires 0 <= i < |strings| => Values.Str(strings[i]))))
    case Slice(elems) =>
      (match ClassifyItems(elems)
       case Ok(items) =>
         assert forall x | x in elems :: Supported(x) by {
           forall x | x in elems ensures Supported(x) {
             var i :| 0 <= i < |elems| && elems[i] == x;
             assert Classify(elems[i]).Ok?;
           }
         }
         Ok(Values.List(items))
       case Err(e) =>
         ghost var i :| 0 <= i < |elems| && Classify(elems[i]) == Err(e);
         assert elems[i] in elems;
         Err(e))
    case StringMap(entries) =>
      (match ClassifyEntries(entries, g)
       case Ok(es) => Ok(Values.Dict(es))
       case Err(e) => Err(e))
    case Float(_) => Err(UnsupportedType(FloatKind))
    case Bool(_) => Err(UnsupportedType(BoolKind))
    case Nil => Err(UnsupportedType(NilKind))
  }

  /** Classifies the elements in order; the first element that is refused decides the error. */
  function ClassifyItems(elems: seq<GoValue>): (r: Result<seq<Values.Value>, Error>)
    ensures r.Ok? ==> |r.value| == |elems| && forall i | 0 <= i < |elems| :: Classify(elems[i]) == Ok(r.value[i])
    ensures r.Err? ==> exists i | 0 <= i < |elems| ::
      Classify(elems[i]) == Err(r.error) && forall j | 0 <= j < i :: Classify(elems[j]).Ok?
    decreases elems
  {
    if elems == [] then Ok([])
    else
      match Classify(elems[0])
      case Err(e) => Err(e)
      case Ok(v) =>
        match ClassifyItems(elems[1..])
        case Err(e) =>
          ghost var i :| 0 <= i < |elems[1..]| && Classify(elems[1..][i]) == Err(e)
            && forall j | 0 <= j < i :: Classify(elems[1..][j]).Ok?;
          assert Classify(elems[i + 1]) == Err(e);
          Err(e)
        case Ok(vs) => Ok([v] + vs)
  }

  /**
    Classifies the values of a map's entries in iteration order, keeping each
    key.  (The ghost owner, the map the entries belong to, carries the
    termination argument.)
  */
  function ClassifyEntries(entries: seq<Entry<GoValue>>, ghost owner: GoValue): (r: Result<seq<Entry<Values.Value>>, Error>)
    requires owner.StringMap? && forall e | e in entries :: e in owner.entries
    ensures r.Ok? ==> |r.value| == |entries| && forall i | 0 <= i < |entries| :: r.value[i].0 == entries[i].0
    ensures r.Ok? <==> forall e | e in entries :: Supported(e.1)
    decreases owner, 0, |entries|
  {
    if entries == [] then Ok([])
    else
      assert entries[0] in owner.entries;
      match Classify(entries[0].1)
      case Err(e) => Err(e)
      case Ok(v) =>
        match ClassifyEntries(entries[1..], owner)
        case Err(e) => Err(e)
        case Ok(es) => Ok([(entries[0].0, v)] + es)
  }

  /** Each classified entry's value is the classification of the map's value under the same key. */
  lemma {:induction false} ClassifyEntriesPointwise(entries: seq<Entry<GoValue>>, owner: GoValue)
    requires owner.StringMap? && forall e | e in entries :: e in owner.entries
    ensures var r := ClassifyEntries(entries, owner);
      r.Ok? ==> forall i | 0 <= i < |entries| :: Classify(entries[i].1) == Ok(r.value[i].1)
    ensures var r := ClassifyEntries(entries, owner);
      r.Err? ==> exists i | 0 <= i < |entries| ::
        Classify(entries[i].1) == Err(r.error) && forall j | 0 <= j < i :: Classify(entries[j].1).Ok?
    decreases |entries|
  {
    if entries != [] {
      assert entries[0] in owner.entries;
      ClassifyEntriesPointwise(entries[1..], owner);
      var r := ClassifyEntries(entries, owner);
      var tail := ClassifyEntries(entries[1..], owner);
      match Classify(entries[0].1)
      case Err(e) =>
        assert r == Err(e);
      case Ok(v) =>
        if tail.Ok? {
          assert r == Ok([(entries[0].0, v)] + tail.value);
          forall i | 0 <= i < |entries| ensures Classify(entries[i].1) == Ok(r.value[i].1) {
            if i > 0 {
              assert entries[i] == entries[1..][i - 1] && r.value[i] == tail.value[i - 1];
            }
          }
        } else {
          assert r == Err(tail.error);
          var i :| 0 <= i < |entries[1..]| && Classify(entries[1..][i].1) == Err(tail.error)
            && forall j | 0 <= j < i :: Classify(entries[1..][j].1).Ok?;
          assert Classify(entries[i + 1].1) == Err(r.error);
          forall j | 0 <= j < i + 1 ensures Classify(entries[j].1).Ok? {
            if j > 0 {
              assert entries[j] == entries[1..][j - 1];
            }
          }
        }
    }
  }

  /**
    Marshal: the Bencode bytes of a Go value, or the error that refuses it.
    It fails exactly on a value holding a float, a bool or nil somewhere,
    and then returns no bytes.
  */
  function Marshal(g: GoValue): (r: Result<seq<Byte>, Error>)
    ensures r.Ok? <==> Supported(g)
  {
    match Classify(g)
    case Ok(v) => Ok(Encode(v))
    case Err(e) => Err(e)
  }

  /**
    An integer of any kind is written as 'i', its decimal text, 'e'; the
    kind does not matter (a duration of the same number of seconds gives
    the same bytes), and the number read back is exactly n, not truncated.
  */
  lemma MarshalInteger(k: IntKind, n: int)
    ensures Marshal(Integer(k, n)) == Ok([IntTag] + IntDecimal(n) + [EndTag])
    ensures Marshal(Integer(k, n)) == Marshal(Duration(n))
    ensures Decode(Marshal(Integer(k, n)).value) == Some(Values.Int(n))
  {
    IntegerBytes(k, n);
    DecodeEncode(Values.Int(n));
  }

  lemma IntegerBytes(k: IntKind, n: int)
    ensures Marshal(Integer(k, n)) == Marshal(Duration(n)) == Ok([IntTag] + IntDecimal(n) + [EndTag])
  {
  }

  /**
    A string and a byte slice with the same bytes are written identically:
    the exact byte count in decimal, ':', then the bytes verbatim.
  */
  lemma MarshalTextAsBytes(b: seq<Byte>)
    ensures Marshal(Text(b)) == Marshal(ByteSlice(b)) == Ok(NatDigits(|b|) + [Colon] + b)
    ensures DigitsValue(NatDigits(|b|)) == |b|
    ensures Decode(Marshal(Text(b)).value) == Some(Values.Str(b))
  {
    MarshalText(b);
    EncodeStr(b);
    NatDigitsValue(|b|);
    DecodeEncode(Values.Str(b));
  }

  lemma MarshalText(b: seq<Byte>)
    ensures Marshal(Text(b)) == Marshal(ByteSlice(b)) == Ok(Encode(Values.Str(b)))
  {
  }

  lemma EncodeStr(b: seq<Byte>)
    ensures Encode(Values.Str(b)) == NatDigits(|b|) + [Colon] + b
  {
  }

  /** The strings of a []string as a []interface{}. */
  function Texts(strings: seq<seq<Byte>>): (r: seq<GoValue>)
    ensures |r| == |strings| && forall i | 0 <= i < |r| :: r[i] == Text(strings[i])
  {
    seq(|strings|, i requires 0 <= i < |strings| => Text(strings[i]))
  }

  /** A typed []string and an untyped []interface{} holding the same strings give the same bytes. */
  lemma MarshalStringSlice(strings: seq<seq<Byte>>)
    ensures Marshal(StringSlice(strings)) == Marshal(Slice(Texts(strings)))
  {
    var elems := Texts(strings);
    var r := ClassifyItems(elems);
    assert r.value == seq(|strings|, i requires 0 <= i < |strings| => Values.Str(strings[i]));
  }

  /** The concatenated encodings of the elements, in slice order. */
  function MarshalAll(elems: seq<GoValue>): seq<Byte>
    requires forall x | x in elems :: Marshal(x).Ok?
  {
    if elems == [] then [] else Marshal(elems[0]).value + MarshalAll(elems[1..])
  }

  /** A slice is written as 'l', each element's own encoding in slice order, then 'e'. */
  lemma {:induction false} MarshalSliceInOrder(elems: seq<GoValue>)
    requires forall x | x in elems :: Marshal(x).Ok?
    ensures Marshal(Slice(elems)) == Ok([ListTag] + MarshalAll(elems) + [EndTag])
  {
    var r := ClassifyItems(elems);
    if r.Err? {
      var i :| 0 <= i < |elems| && Classify(elems[i]) == Err(r.error);
      ElementIsMember(elems, i);
      assert false;
    }
    ItemsEncodeAsMarshalAll(elems, r.value);
  }

  lemma {:induction false} ItemsEncodeAsMarshalAll(elems: seq<GoValue>, items: seq<Values.Value>)
    requires forall x | x in elems :: Marshal(x).Ok?
    requires |items| == |elems| && forall i | 0 <= i < |elems| :: Classify(elems[i]) == Ok(items[i])
    ensures EncodeItems(items) == MarshalAll(elems)
  {
    if elems != [] {
      ItemsEncodeAsMarshalAll(elems[1..], items[1..]);
    }
  }

  /** The key-value pairs of a map, each key as a byte string then its value's bytes, in the order given. */
  function MarshalEntries(entries: seq<Entry<GoValue>>): seq<Byte>
    requires forall e | e in entries :: Marshal(e.1).Ok?
  {
    if entries == [] then []
    else EncodeString(entries[0].0) + Marshal(entries[0].1).value + MarshalEntries(entries[1..])
  }

  /** The key-value bytes of a map's entries: those of the first entry, then those of the rest. */
  lemma MarshalEntriesHead(es: seq<Entry<GoValue>>)
    requires es != [] && forall e | e in es :: Marshal(e.1).Ok?
    ensures forall e | e in es[1..] :: Marshal(e.1).Ok?
    ensures MarshalEntries(es) == EncodeString(es[0].0) + Marshal(es[0].1).value + MarshalEntries(es[1..])
  {
    forall e | e in es[1..] ensures Marshal(e.1).Ok? {
      assert e in es;
    }
  }

  /**
    A map enumerated in increasing key order is written as 'd', each key
    followed by its value's own encoding in that order, then 'e'.
  */
  lemma MarshalMapInKeyOrder(entries: seq<Entry<GoValue>>)
    requires StrictlySorted(entries) && forall e | e in entries :: Marshal(e.1).Ok?
    ensures Marshal(StringMap(entries)) == Ok([DictTag] + MarshalEntries(entries) + [EndTag])
  {
    var es := ClassifiedMap(entries);
    assert StrictlySorted(es) by {
      forall i, j | 0 <= i < j < |es| ensures Below(es[i].0, es[j].0) {
        assert es[i].0 == entries[i].0 && es[j].0 == entries[j].0;
      }
    }
    StrictlySortedDistinct(es);
    EncodeDictInKeyOrder(es, es);
    EntriesEncodeAsMarshalEntries(entries, es, Values.Dict(es));
  }

  /** A map all of whose values are accepted classifies entry by entry, keeping its keys. */
  lemma ClassifiedMap(entries: seq<Entry<GoValue>>) returns (es: seq<Entry<Values.Value>>)
    requires forall e | e in entries :: Marshal(e.1).Ok?
    ensures Classify(StringMap(entries)) == Ok(Values.Dict(es))
    ensures |es| == |entries|
    ensures forall i | 0 <= i < |es| :: es[i].0 == entries[i].0 && Classify(entries[i].1) == Ok(es[i].1)
  {
    var g := StringMap(entries);
    forall e | e in entries ensures Classify(e.1).Ok? {
      assert Marshal(e.1).Ok?;
    }
    ClassifyEntriesOk(entries, g);
    ClassifyEntriesPointwise(entries, g);
    es := ClassifyEntries(entries, g).value;
  }

  lemma {:induction false} EntriesEncodeAsMarshalEntries(entries: seq<Entry<GoValue>>, es: seq<Entry<Values.Value>>, owner: Values.Value)
    requires forall e | e in entries :: Marshal(e.1).Ok?
    requires |es| == |entries| && forall i | 0 <= i < |es| :: es[i].0 == entries[i].0 && Classify(entries[i].1) == Ok(es[i].1)
    requires owner.Dict? && forall e | e in es :: e in owner.entries
    ensures EncodeEntries(es, owner) == MarshalEntries(entries)
    decreases |es|
  {
    if es != [] {
      assert es[0] in owner.entries;
      EntriesEncodeAsMarshalEntries(entries[1..], es[1..], owner);
    }
  }

  /**
    Whatever order a map is enumerated in, it is written with its entries
    sorted by key: 'd', each key and its value's encoding in increasing key
    order, 'e'.
  */
  lemma MarshalMapSortsKeys(entries: seq<Entry<GoValue>>)
    requires DistinctKeys(entries) && forall e | e in entries :: Marshal(e.1).Ok?
    ensures forall e | e in SortByKey(entries) :: Marshal(e.1).Ok?
    ensures Marshal(StringMap(entries)) == Ok([DictTag] + MarshalEntries(SortByKey(entries)) + [EndTag])
  {
    var sorted := SortByKey(entries);
    forall x ensures x in sorted <==> x in entries {
      SortByKeyMembers(entries, x);
    }
    StrictlySortedDistinct(sorted);
    MarshalMapInKeyOrder(sorted);
    MarshalMapOrderIrrelevant(entries, sorted);
  }

  /** A map classifies when every value in it does. */
  lemma ClassifyEntriesOk(entries: seq<Entry<GoValue>>, owner: GoValue)
    requires owner.StringMap? && forall e | e in entries :: e in owner.entries
    ensures ClassifyEntries(entries, owner).Ok? <==> forall e | e in entries :: Classify(e.1).Ok?
  {
    ClassifyEntriesPointwise(entries, owner);
    var r := ClassifyEntries(entries, owner);
    if r.Err? {
      var i :| 0 <= i < |entries| && Classify(entries[i].1) == Err(r.error);
      assert entries[i] in entries;
    } else {
      forall e | e in entries ensures Classify(e.1).Ok? {
        var i :| 0 <= i < |entries| && entries[i] == e;
      }
    }
  }

  /** Two enumerations of the same entries classify to the same entries. */
  lemma ClassifiedEntriesMembers(a: seq<Entry<GoValue>>, b: seq<Entry<GoValue>>, ca: seq<Entry<Values.Value>>, cb: seq<Entry<Values.Value>>)
    requires forall x :: x in a <==> x in b
    requires ClassifyEntries(a, StringMap(a)) == Ok(ca)
    requires ClassifyEntries(b, StringMap(b)) == Ok(cb)
    ensures forall x :: x in ca <==> x in cb
  {
    ClassifiedEntriesSubset(a, b, ca, cb);
    ClassifiedEntriesSubset(b, a, cb, ca);
  }

  lemma ClassifiedEntriesSubset(a: seq<Entry<GoValue>>, b: seq<Entry<GoValue>>, ca: seq<Entry<Values.Value>>, cb: seq<Entry<Values.Value>>)
    requires forall x | x in a :: x in b
    requires ClassifyEntries(a, StringMap(a)) == Ok(ca)
    requires ClassifyEntries(b, StringMap(b)) == Ok(cb)
    ensures forall x | x in ca :: x in cb
  {
    ClassifyEntriesPointwise(a, StringMap(a));
    ClassifyEntriesPointwise(b, StringMap(b));
    forall x | x in ca ensures x in cb {
      var i :| 0 <= i < |ca| && ca[i] == x;
      assert a[i] in b;
      var j :| 0 <= j < |b| && b[j] == a[i];
      assert cb[j] == x;
    }
  }

  /**
    Two iteration orders of one Go map (the same entries, each key once)
    marshal alike: both fail or both give byte-identical output.
  */
  lemma MarshalMapOrderIrrelevant(a: seq<Entry<GoValue>>, b: seq<Entry<GoValue>>)
    requires DistinctKeys(a) && DistinctKeys(b)
    requires forall x :: x in a <==> x in b
    ensures Marshal(StringMap(a)).Ok? <==> Marshal(StringMap(b)).Ok?
    ensures Marshal(StringMap(a)).Ok? ==> Marshal(StringMap(a)) == Marshal(StringMap(b))
  {
    ClassifyEntriesOk(a, StringMap(a));
    ClassifyEntriesOk(b, StringMap(b));
    MarshalMapClassified(a);
    MarshalMapClassified(b);
    var ra, rb := ClassifyEntries(a, StringMap(a)), ClassifyEntries(b, StringMap(b));
    if ra.Ok? {
      assert rb.Ok?;
      ClassifiedEntriesMembers(a, b, ra.value, rb.value);
      EncodeDictDeterministic(ra.value, rb.value);
    }
  }

  /** A map marshals exactly when its entries classify, and is then written as the dictionary they form. */
  lemma MarshalMapClassified(entries: seq<Entry<GoValue>>)
    ensures var r := ClassifyEntries(entries, StringMap(entries));
      (Marshal(StringMap(entries)).Ok? <==> r.Ok?) &&
      (r.Ok? ==> Marshal(StringMap(entries)) == Ok(Encode(Values.Dict(r.value))))
  {
  }

  /** A representable Go value classifies to a value whose dictionaries have unique keys. */
  lemma {:induction false} ClassifyWellFormed(g: GoValue)
    requires Representable(g) && Classify(g).Ok?
    ensures Values.WellFormed(Classify(g).value)
    decreases g, 1
  {
    match g
    case Slice(elems) =>
      var items := ClassifyItems(elems).value;
      forall x | x in items ensures Values.WellFormed(x) {
        var i :| 0 <= i < |items| && items[i] == x;
        assert elems[i] in elems;
        ClassifyWellFormed(elems[i]);
      }
    case StringMap(entries) =>
      var es := ClassifyEntries(entries, g).value;
      ClassifyEntriesPointwise(entries, g);
      forall e | e in es ensures Values.WellFormed(e.1) {
        var i :| 0 <= i < |es| && es[i] == e;
        assert entries[i] in entries;
        ClassifyWellFormed(entries[i].1);
      }
    case _ =>
  }

  /**
    Whatever Marshal accepts it writes as valid Bencode: a strict reader
    takes the bytes back to exactly the classified value, with each
    dictionary's entries in key order.
  */
  lemma MarshalIsBencode(g: GoValue)
    requires Representable(g) && Supported(g)
    ensures Marshal(g).Ok?
    ensures Decode(Marshal(g).value) == Some(Values.Normalize(Classify(g).value))
  {
    ClassifyWellFormed(g);
    DecodeEncodeWellFormed(Classify(g).value);
  }
}
