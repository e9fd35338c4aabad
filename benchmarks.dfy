/**
  The two benchmark loops of the encoder's tests, as clients of the
  streaming encoder: each encodes the same values through one encoder into
  one fresh buffer, round after round, and the buffer ends up holding the
  bytes of one round repeated once per round.
*/
module Benchmarks {
  import opened Wrappers
  import opened Bytes
  import opened KeySort
  import opened Encoding
  import opened Marshaling
  import opened Streaming
  import opened MarshalExamples

  /** The scalar benchmark: "test" then 123, n times: n copies of "4:testi123e". */
  method MarshalScalar(n: nat) returns (out: seq<Byte>)
    ensures out == Repeat(Ascii("4:testi123e"), n)
  {
    ScalarRound();
    out := EncodeRounds([Text(Ascii("test")), Integer(Int, 123)], n);
  }

  lemma ScalarRound()
    ensures Written([Text(Ascii("test")), Integer(Int, 123)]) == Ascii("4:testi123e")
  {
    ShortText("test", "4:test");
    IntegerRow(Int, 123, "123", "i123e");
    ScalarText();
    TwoValueRound(Text(Ascii("test")), Integer(Int, 123), "4:test", "i123e", "4:testi123e");
  }

  lemma ScalarText()
    ensures "4:testi123e" == "4:test" + "i123e"
  {
  }

  /** One round of two values, written as the texts r1 and r2. */
  lemma TwoValueRound(x: GoValue, y: GoValue, r1: string, r2: string, row: string)
    requires Marshal(x) == Ok(Ascii(r1)) && Marshal(y) == Ok(Ascii(r2))
    requires row == r1 + r2
    ensures Written([x, y]) == Ascii(row)
  {
    assert [x, y][..1] == [x] && [x][..0] == [];
    assert Written([x]) == Emitted(x);
    AsciiAppend(r1, r2);
  }

  /** The map of the large benchmark, enumerated in key order. */
  const LargeData: GoValue := StringMap([
    (Ascii("k1"), StringSlice([Ascii("a"), Ascii("b"), Ascii("c")])),
    (Ascii("k2"), Integer(Int, 42)),
    (Ascii("k3"), Text(Ascii("val"))),
    (Ascii("k4"), Integer(Uint, 42))
  ])

  /** The large benchmark: the map, n times over, each copy with its keys in order. */
  method MarshalLarge(n: nat) returns (out: seq<Byte>)
    ensures out == Repeat(Ascii("d2:k1l1:a1:b1:ce2:k2i42e2:k33:val2:k4i42ee"), n)
  {
    LargeBytes();
    assert [LargeData][..0] == [];
    assert Written([LargeData]) == Emitted(LargeData);
    out := EncodeRounds([LargeData], n);
  }

  lemma LargeBytes()
    ensures Marshal(LargeData) == Ok(Ascii("d2:k1l1:a1:b1:ce2:k2i42e2:k33:val2:k4i42ee"))
  {
    LargeEntries();
    LargeKeysInOrder();
    LargeText();
    FourEntryMapRow(
      Ascii("k1"), StringSlice([Ascii("a"), Ascii("b"), Ascii("c")]),
      Ascii("k2"), Integer(Int, 42),
      Ascii("k3"), Text(Ascii("val")),
      Ascii("k4"), Integer(Uint, 42),
      "2:k1l1:a1:b1:ce", "2:k2i42e", "2:k33:val", "2:k4i42e",
      "d2:k1l1:a1:b1:ce2:k2i42e2:k33:val2:k4i42ee");
  }

  /** The entry (k, x) is written as the text t: k's byte string, then x's bytes. */
  predicate EntryWrittenAs(k: seq<Byte>, x: GoValue, t: string) {
    Marshal(x).Ok? && EncodeString(k) + Marshal(x).value == Ascii(t)
  }

  /** A map of four entries, keys in increasing order, whose entries are written as the texts t1 to t4. */
  lemma FourEntryMapRow(
    k1: seq<Byte>, x1: GoValue, k2: seq<Byte>, x2: GoValue,
    k3: seq<Byte>, x3: GoValue, k4: seq<Byte>, x4: GoValue,
    t1: string, t2: string, t3: string, t4: string, row: string)
    requires Below(k1, k2) && Below(k2, k3) && Below(k3, k4)
    requires EntryWrittenAs(k1, x1, t1) && EntryWrittenAs(k2, x2, t2)
    requires EntryWrittenAs(k3, x3, t3) && EntryWrittenAs(k4, x4, t4)
    requires row == "d" + t1 + t2 + t3 + t4 + "e"
    ensures Marshal(StringMap([(k1, x1), (k2, x2), (k3, x3), (k4, x4)])) == Ok(Ascii(row))
  {
    FourEntryMap(k1, x1, k2, x2, k3, x3, k4, x4);
    DictFrame(t1, t2, t3, t4, row);
  }

  /** The text 'd', four parts, 'e' is the dictionary tags around the parts' bytes. */
  lemma DictFrame(t1: string, t2: string, t3: string, t4: string, row: string)
    requires row == "d" + t1 + t2 + t3 + t4 + "e"
    ensures Ascii(row) == [DictTag] + Ascii(t1) + Ascii(t2) + Ascii(t3) + Ascii(t4) + [EndTag]
  {
    Framed("d", t1, t2, t3, t4, "e");
    TagTexts();
  }

  /** Each entry of the large map: its key's bytes then its value's bytes. */
  lemma LargeEntries()
    ensures EntryWrittenAs(Ascii("k1"), StringSlice([Ascii("a"), Ascii("b"), Ascii("c")]), "2:k1l1:a1:b1:ce")
    ensures EntryWrittenAs(Ascii("k2"), Integer(Int, 42), "2:k2i42e")
    ensures EntryWrittenAs(Ascii("k3"), Text(Ascii("val")), "2:k33:val")
    ensures EntryWrittenAs(Ascii("k4"), Integer(Uint, 42), "2:k4i42e")
  {
    ShortText("k1", "2:k1");
    ShortText("k2", "2:k2");
    ShortText("k3", "2:k3");
    ShortText("k4", "2:k4");
    ShortText("val", "3:val");
    IntegerRow(Int, 42, "42", "i42e");
    IntegerRow(Uint, 42, "42", "i42e");
    LetterList();
    EntryTexts();
    EntryText(Ascii("k1"), StringSlice([Ascii("a"), Ascii("b"), Ascii("c")]), "2:k1", "l1:a1:b1:ce", "2:k1l1:a1:b1:ce");
    EntryText(Ascii("k2"), Integer(Int, 42), "2:k2", "i42e", "2:k2i42e");
    EntryText(Ascii("k3"), Text(Ascii("val")), "2:k3", "3:val", "2:k33:val");
    EntryText(Ascii("k4"), Integer(Uint, 42), "2:k4", "i42e", "2:k4i42e");
  }

  lemma EntryTexts()
    ensures "2:k1l1:a1:b1:ce" == "2:k1" + "l1:a1:b1:ce"
    ensures "2:k2i42e" == "2:k2" + "i42e"
    ensures "2:k33:val" == "2:k3" + "3:val"
    ensures "2:k4i42e" == "2:k4" + "i42e"
  {
  }

  /** An entry whose key is written as the text rk and whose value as rx. */
  lemma EntryText(k: seq<Byte>, x: GoValue, rk: string, rx: string, row: string)
    requires EncodeString(k) == Ascii(rk) && Marshal(x) == Ok(Ascii(rx))
    requires row == rk + rx
    ensures EntryWrittenAs(k, x, row)
  {
    AsciiAppend(rk, rx);
  }

  lemma LargeText()
    ensures "d2:k1l1:a1:b1:ce2:k2i42e2:k33:val2:k4i42ee"
      == "d" + "2:k1l1:a1:b1:ce" + "2:k2i42e" + "2:k33:val" + "2:k4i42e" + "e"
  {
    LargeTextHead();
    LargeTextTail();
    Regroup6("d", "2:k1l1:a1:b1:ce", "2:k2i42e", "2:k33:val", "2:k4i42e", "e");
  }

  lemma LargeTextHead()
    ensures "d2:k1l1:a1:b1:ce2:k2i42e2:k33:val2:k4i42ee"
      == "d2:k1l1:a1:b1:ce" + "2:k2i42e2:k33:val2:k4i42ee"
  {
  }

  lemma LargeTextTail()
    ensures "2:k2i42e2:k33:val2:k4i42ee" == "2:k2i42e" + ("2:k33:val" + ("2:k4i42e" + "e"))
  {
  }

  lemma Regroup6<T>(a: seq<T>, b: seq<T>, c: seq<T>, d: seq<T>, e: seq<T>, f: seq<T>)
    ensures (a + b) + (c + (d + (e + f))) == a + b + c + d + e + f
  {
  }

  lemma LargeKeysInOrder()
    ensures Below(Ascii("k1"), Ascii("k2")) && Below(Ascii("k2"), Ascii("k3")) && Below(Ascii("k3"), Ascii("k4"))
  {
    assert Ascii("k1")[1..] == Ascii("1") && Ascii("k2")[1..] == Ascii("2");
    assert Ascii("k3")[1..] == Ascii("3") && Ascii("k4")[1..] == Ascii("4");
  }

  /** The []string {"a", "b", "c"}: a list of three one-byte strings. */
  lemma LetterList()
    ensures Marshal(StringSlice([Ascii("a"), Ascii("b"), Ascii("c")])) == Ok(Ascii("l1:a1:b1:ce"))
  {
    ShortText("a", "1:a");
    ShortText("b", "1:b");
    ShortText("c", "1:c");
    LetterListText();
    TripleSliceRow(Ascii("a"), Ascii("b"), Ascii("c"), "1:a", "1:b", "1:c", "l1:a1:b1:ce");
  }

  lemma LetterListText()
    ensures "l1:a1:b1:ce" == "l" + "1:a" + "1:b" + "1:c" + "e"
  {
  }

  /** A []string of three strings written as the texts r1, r2 and r3. */
  lemma TripleSliceRow(a: seq<Byte>, b: seq<Byte>, c: seq<Byte>, r1: string, r2: string, r3: string, row: string)
    requires Marshal(Text(a)) == Ok(Ascii(r1)) && Marshal(Text(b)) == Ok(Ascii(r2)) && Marshal(Text(c)) == Ok(Ascii(r3))
    requires row == "l" + r1 + r2 + r3 + "e"
    ensures Marshal(StringSlice([a, b, c])) == Ok(Ascii(row))
  {
    MarshalStringSlice([a, b, c]);
    assert Texts([a, b, c]) == [Text(a), Text(b), Text(c)];
    TripleSlice(Text(a), Text(b), Text(c));
    Framed2("l" + r1, r2, r3, "e");
    AsciiAppend("l", r1);
    TagTexts();
  }

  /** A three-element slice: 'l', each element's bytes in slice order, 'e'. */
  lemma TripleSlice(x: GoValue, y: GoValue, z: GoValue)
    requires Marshal(x).Ok? && Marshal(y).Ok? && Marshal(z).Ok?
    ensures Marshal(Slice([x, y, z])) == Ok([ListTag] + Marshal(x).value + Marshal(y).value + Marshal(z).value + [EndTag])
  {
    var m1, m2, m3 := Marshal(x).value, Marshal(y).value, Marshal(z).value;
    var elems := [x, y, z];
    MarshalSliceInOrder(elems);
    assert elems[1..] == [y, z];
    assert MarshalAll(elems) == m1 + MarshalAll([y, z]);
    assert [y, z][1..] == [z];
    assert MarshalAll([y, z]) == m2 + MarshalAll([z]);
    assert [z][1..] == [];
    assert MarshalAll([z]) == m3;
    Regroup5([ListTag], m1, m2, m3, [EndTag]);
  }

  lemma Regroup5<T>(a: seq<T>, b: seq<T>, c: seq<T>, d: seq<T>, e: seq<T>)
    ensures a + (b + (c + d)) + e == a + b + c + d + e
  {
  }

  /** A map of four entries whose keys are in increasing order: 'd', each key then its value, 'e'. */
  lemma FourEntryMap(
    k1: seq<Byte>, x1: GoValue, k2: seq<Byte>, x2: GoValue,
    k3: seq<Byte>, x3: GoValue, k4: seq<Byte>, x4: GoValue)
    requires Below(k1, k2) && Below(k2, k3) && Below(k3, k4)
    requires Marshal(x1).Ok? && Marshal(x2).Ok? && Marshal(x3).Ok? && Marshal(x4).Ok?
    ensures Marshal(StringMap([(k1, x1), (k2, x2), (k3, x3), (k4, x4)])) == Ok([DictTag]
      + (EncodeString(k1) + Marshal(x1).value) + (EncodeString(k2) + Marshal(x2).value)
      + (EncodeString(k3) + Marshal(x3).value) + (EncodeString(k4) + Marshal(x4).value) + [EndTag])
  {
    var es := [(k1, x1), (k2, x2), (k3, x3), (k4, x4)];
    FourKeysInOrder(k1, x1, k2, x2, k3, x3, k4, x4);
    FourValuesAccepted(k1, x1, k2, x2, k3, x3, k4, x4);
    MarshalMapInKeyOrder(es);
    var e1, e2 := EncodeString(k1) + Marshal(x1).value, EncodeString(k2) + Marshal(x2).value;
    var e3, e4 := EncodeString(k3) + Marshal(x3).value, EncodeString(k4) + Marshal(x4).value;
    FourEntries((k1, x1), (k2, x2), (k3, x3), (k4, x4));
    Flatten4([DictTag], e1, e2, e3, e4, [EndTag]);
  }

  lemma FourKeysInOrder(
    k1: seq<Byte>, x1: GoValue, k2: seq<Byte>, x2: GoValue,
    k3: seq<Byte>, x3: GoValue, k4: seq<Byte>, x4: GoValue)
    requires Below(k1, k2) && Below(k2, k3) && Below(k3, k4)
    ensures StrictlySorted([(k1, x1), (k2, x2), (k3, x3), (k4, x4)])
  {
    BelowTransitive(k1, k2, k3);
    BelowTransitive(k2, k3, k4);
    BelowTransitive(k1, k3, k4);
  }

  lemma FourValuesAccepted(
    k1: seq<Byte>, x1: GoValue, k2: seq<Byte>, x2: GoValue,
    k3: seq<Byte>, x3: GoValue, k4: seq<Byte>, x4: GoValue)
    requires Marshal(x1).Ok? && Marshal(x2).Ok? && Marshal(x3).Ok? && Marshal(x4).Ok?
    ensures forall e | e in [(k1, x1), (k2, x2), (k3, x3), (k4, x4)] :: Marshal(e.1).Ok?
  {
    forall e | e in [(k1, x1), (k2, x2), (k3, x3), (k4, x4)] ensures Marshal(e.1).Ok? {
      assert e.1 == x1 || e.1 == x2 || e.1 == x3 || e.1 == x4;
    }
  }

  lemma FourEntries(a: Entry<GoValue>, b: Entry<GoValue>, c: Entry<GoValue>, d: Entry<GoValue>)
    requires forall e | e in [a, b, c, d] :: Marshal(e.1).Ok?
    ensures MarshalEntries([a, b, c, d]) == EncodeString(a.0) + Marshal(a.1).value
      + (EncodeString(b.0) + Marshal(b.1).value + (EncodeString(c.0) + Marshal(c.1).value
      + (EncodeString(d.0) + Marshal(d.1).value + [])))
  {
    var s0 := [a, b, c, d];
    MarshalEntriesHead(s0);
    var s1 := s0[1..];
    MarshalEntriesHead(s1);
    var s2 := s1[1..];
    MarshalEntriesHead(s2);
    var s3 := s2[1..];
    MarshalEntriesHead(s3);
    assert s1[0] == b && s2[0] == c && s3[0] == d && s3[1..] == [];
  }

  lemma Flatten4<T>(h: seq<T>, a: seq<T>, b: seq<T>, c: seq<T>, d: seq<T>, t: seq<T>)
    ensures h + (a + (b + (c + (d + [])))) + t == h + a + b + c + d + t
  {
    assert d + [] == d;
    assert a + (b + (c + d)) == a + b + c + d;
  }
}
