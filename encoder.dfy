/**
  The streaming encoder: an Encoder bound to a byte sink writes the
  encoding of each value handed to Encode after whatever the sink already
  holds.  The sink is a growable byte buffer, as bytes.Buffer is; the
  encoder writes a value piece by piece (tags, lengths, keys and nested
  values), and the pieces add up to exactly the bytes Marshal returns.
*/
module Streaming {
  import opened Wrappers
  import opened Bytes
  import opened Concat
  import opened Decimal
  import opened KeySort
  import opened Values
  import opened Encoding
  import opened Marshaling

  /** A growable byte buffer: every write appends. */
  class Buffer {
    var data: seq<Byte>

    constructor()
      ensures data == []
    {
      data := [];
    }

    method Write(p: seq<Byte>)
      modifies this
      ensures data == old(data) + p
    {
      data := data + p;
    }
  }

  class Encoder {
    /** The sink every call to Encode appends to. */
    const w: Buffer

    constructor(w: Buffer)
      ensures this.w == w
    {
      this.w := w;
    }

    /**
      Appends the Bencode bytes of g to the sink and reports no error; a
      value holding a float, a bool or nil is refused before anything is
      written, and the sink is left as it was.
    */
    method Encode(g: GoValue) returns (err: Option<Error>)
      modifies w
      ensures Marshal(g).Ok? ==> err == None && w.data == old(w.data) + Marshal(g).value
      ensures Marshal(g).Err? ==> err == Some(Marshal(g).error) && w.data == old(w.data)
    {
      match Classify(g)
      case Err(e) =>
        return Some(e);
      case Ok(v) =>
        WriteValue(v);
        return None;
    }

    /** Writes one value: its tag, its parts in order, its end tag. */
    method WriteValue(v: Value)
      modifies w
      ensures w.data == old(w.data) + Encoding.Encode(v)
      decreases v, 2
    {
      match v
      case Int(n) =>
        w.Write([IntTag] + IntDecimal(n) + [EndTag]);
      case Str(b) =>
        WriteString(b);
      case List(items) =>
        WriteList(items, v);
      case Dict(entries) =>
        WriteDict(entries, v);
    }

    /** Writes a list: 'l', the items in order, 'e'. */
    method WriteList(items: seq<Value>, ghost owner: Value)
      requires owner == List(items)
      modifies w
      ensures w.data == old(w.data) + Encoding.Encode(owner)
      decreases owner, 1
    {
      EncodeList(items);
      w.Write([ListTag]);
      WriteItems(items, owner);
      w.Write([EndTag]);
      Assoc4(old(w.data), [ListTag], EncodeItems(items), [EndTag]);
    }

    /** Writes a dictionary: 'd', the entries in increasing key order, 'e'. */
    method WriteDict(entries: seq<Entry<Value>>, ghost owner: Value)
      requires owner == Dict(entries)
      modifies w
      ensures w.data == old(w.data) + Encoding.Encode(owner)
      decreases owner, 1
    {
      var sorted := SortByKey(entries);
      EncodeDictSorted(entries);
      w.Write([DictTag]);
      WriteEntries(sorted, owner);
      w.Write([EndTag]);
      Assoc4(old(w.data), [DictTag], EncodeEntries(sorted, owner), [EndTag]);
    }

    /** Writes the items of the list owner one after the other. */
    method WriteItems(items: seq<Value>, ghost owner: Value)
      requires owner == List(items)
      modifies w
      ensures w.data == old(w.data) + EncodeItems(items)
      decreases owner, 0
    {
      var i := 0;
      while i < |items|
        invariant 0 <= i <= |items|
        invariant w.data == old(w.data) + EncodeItems(items[..i])
      {
        ghost var done := EncodeItems(items[..i]);
        WriteValue(items[i]);
        EncodeItemsStep(items, i);
        Assoc3(old(w.data), done, Encoding.Encode(items[i]));
        i := i + 1;
      }
      assert items[..i] == items;
    }

    /** Writes entries of the dictionary owner, each key then its value, in the order given. */
    method WriteEntries(es: seq<Entry<Value>>, ghost owner: Value)
      requires owner.Dict? && forall e | e in es :: e in owner.entries
      modifies w
      ensures w.data == old(w.data) + EncodeEntries(es, owner)
      decreases owner, 0
    {
      var i := 0;
      while i < |es|
        invariant 0 <= i <= |es|
        invariant w.data == old(w.data) + EncodeEntries(es[..i], owner)
      {
        assert es[i] in owner.entries;
        ghost var done := EncodeEntries(es[..i], owner);
        WriteString(es[i].0);
        WriteValue(es[i].1);
        EncodeEntriesStep(es, i, owner);
        Assoc4(old(w.data), done, EncodeString(es[i].0), Encoding.Encode(es[i].1));
        i := i + 1;
      }
      assert es[..i] == es;
    }

    /** Writes a byte string: its length in decimal, ':', the bytes. */
    method WriteString(b: seq<Byte>)
      modifies w
      ensures w.data == old(w.data) + EncodeString(b)
    {
      w.Write(NatDigits(|b|));
      w.Write([Colon]);
      w.Write(b);
    }
  }

  /** What one call to Encode leaves in the sink: the bytes of g, or nothing when g is refused. */
  function Emitted(g: GoValue): (r: seq<Byte>)
    ensures Marshal(g).Ok? ==> r == Marshal(g).value
    ensures Marshal(g).Err? ==> r == []
  {
    match Marshal(g)
    case Ok(b) => b
    case Err(_) => []
  }

  /** What encoding each of gs in turn leaves in the sink. */
  function Written(gs: seq<GoValue>): seq<Byte> {
    if gs == [] then [] else Written(gs[..|gs| - 1]) + Emitted(gs[|gs| - 1])
  }

  /** n copies of s, one after the other. */
  function Repeat(s: seq<Byte>, n: nat): seq<Byte> {
    if n == 0 then [] else Repeat(s, n - 1) + s
  }

  /** Encodes each of round in turn through encoder, ignoring the errors it reports. */
  method EncodeRound(encoder: Encoder, round: seq<GoValue>)
    modifies encoder.w
    ensures encoder.w.data == old(encoder.w.data) + Written(round)
  {
    var j := 0;
    while j < |round|
      invariant 0 <= j <= |round|
      invariant encoder.w.data == old(encoder.w.data) + Written(round[..j])
    {
      ghost var done := Written(round[..j]);
      var _ := encoder.Encode(round[j]);
      WrittenStep(round, j);
      Assoc3(old(encoder.w.data), done, Emitted(round[j]));
      j := j + 1;
    }
    assert round[..j] == round;
  }

  /**
    The benchmarks' loop: one encoder over a fresh buffer encodes the
    values of round, in order, n times over; the buffer then holds n
    copies of what one round writes.
  */
  method EncodeRounds(round: seq<GoValue>, n: nat) returns (out: seq<Byte>)
    ensures out == Repeat(Written(round), n)
  {
    var buf := new Buffer();
    var encoder := new Encoder(buf);
    var i := 0;
    while i < n
      invariant 0 <= i <= n
      invariant buf.data == Repeat(Written(round), i)
    {
      EncodeRound(encoder, round);
      i := i + 1;
    }
    out := buf.data;
  }

  lemma WrittenStep(gs: seq<GoValue>, j: int)
    requires 0 <= j < |gs|
    ensures Written(gs[..j + 1]) == Written(gs[..j]) + Emitted(gs[j])
  {
    assert gs[..j + 1][..j] == gs[..j];
  }
}
