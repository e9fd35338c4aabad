/**
  The marshalling table of the encoder's tests, row by row: each input, as
  a Go value, marshals without error to the bytes the table expects.  Where
  the table accepts two permutations, the model pins down one of them: a
  slice keeps its order, and a map's entries are written in key order
  whichever way the map enumerates them.
*/
module MarshalExamples {
  import opened Wrappers
  import opened Bytes
  import opened Decimal
  import opened KeySort
  import opened Encoding
  import opened Marshaling

  /** The one-letter texts of the four tags. */
  lemma TagTexts()
    ensures Ascii("i") == [IntTag] && Ascii("l") == [ListTag]
    ensures Ascii("d") == [DictTag] && Ascii("e") == [EndTag]
  {
  }

  lemma IntegerRows()
    ensures Marshal(Integer(Int, 42)) == Ok(Ascii("i42e"))
    ensures Marshal(Integer(Int, -42)) == Ok(Ascii("i-42e"))
    ensures Marshal(Integer(Uint, 43)) == Ok(Ascii("i43e"))
    ensures Marshal(Integer(Int64, 44)) == Ok(Ascii("i44e"))
    ensures Marshal(Integer(Uint64, 45)) == Ok(Ascii("i45e"))
    ensures Marshal(Integer(Int16, 44)) == Ok(Ascii("i44e"))
    ensures Marshal(Integer(Uint16, 45)) == Ok(Ascii("i45e"))
  {
    PlainIntegerRows();
    SizedIntegerRows();
  }

  /** The rows for int and uint. */
  lemma PlainIntegerRows()
    ensures Marshal(Integer(Int, 42)) == Ok(Ascii("i42e"))
    ensures Marshal(Integer(Int, -42)) == Ok(Ascii("i-42e"))
    ensures Marshal(Integer(Uint, 43)) == Ok(Ascii("i43e"))
  {
    IntegerRow(Int, 42, "42", "i42e");
    IntegerRow(Int, -42, "-42", "i-42e");
    IntegerRow(Uint, 43, "43", "i43e");
  }

  /** The rows for the sized integer kinds. */
  lemma SizedIntegerRows()
    ensures Marshal(Integer(Int64, 44)) == Ok(Ascii("i44e"))
    ensures Marshal(Integer(Uint64, 45)) == Ok(Ascii("i45e"))
    ensures Marshal(Integer(Int16, 44)) == Ok(Ascii("i44e"))
    ensures Marshal(Integer(Uint16, 45)) == Ok(Ascii("i45e"))
  {
    IntegerRow(Int64, 44, "44", "i44e");
    IntegerRow(Uint64, 45, "45", "i45e");
    IntegerRow(Int16, 44, "44", "i44e");
    IntegerRow(Uint16, 45, "45", "i45e");
  }

  /** An integer row: the bytes are 'i', the decimal text, 'e'. */
  lemma IntegerRow(k: IntKind, n: int, digits: string, row: string)
    requires IntDecimal(n) == Ascii(digits)
    requires row == "i" + digits + "e"
    ensures Marshal(Integer(k, n)) == Ok(Ascii(row))
  {
    IntegerBytes(k, n);
    AsciiAppend("i", digits);
    AsciiAppend("i" + digits, "e");
    TagTexts();
  }

  /** The bytes of a text joined to another are the two texts' bytes joined. */
  lemma AsciiAppend(a: string, b: string)
    ensures Ascii(a + b) == Ascii(a) + Ascii(b)
  {
    forall i | |a| <= i < |a + b| ensures Ascii(a + b)[i] == Ascii(b)[i - |a|] {
      assert (a + b)[i] == b[i - |a|];
    }
  }

  /**
    A text shorter than ten bytes is written as its one-digit length, ':',
    then the text: row is that rendering.
  */
  lemma ShortText(t: string, row: string)
    requires |t| < 10
    requires row == [('0' as int + |t|) as char, ':'] + t
    ensures EncodeString(Ascii(t)) == Ascii(row)
    ensures Marshal(Text(Ascii(t))) == Ok(Ascii(row))
  {
    var b := Ascii(t);
    MarshalText(b);
    EncodeStr(b);
    assert |b| == |t|;
    assert NatDigits(|b|) == [Zero + |t| as Byte];
    forall i | 2 <= i < |row| ensures Ascii(row)[i] == b[i - 2] {
      assert row[i] == t[i - 2];
    }
    assert Ascii(row) == [Zero + |t| as Byte] + [Colon] + b;
  }

  lemma StringRows()
    ensures Marshal(Text(Ascii("example"))) == Ok(Ascii("7:example"))
    ensures Marshal(ByteSlice(Ascii("example"))) == Ok(Ascii("7:example"))
    ensures Marshal(Duration(30 * 60)) == Ok(Ascii("i1800e"))
  {
    TextRow();
    MarshalText(Ascii("example"));
    DurationRow();
  }

  lemma TextRow()
    ensures Marshal(Text(Ascii("example"))) == Ok(Ascii("7:example"))
  {
    ShortText("example", "7:example");
  }

  /** Thirty minutes, taken as a count of seconds, is written as an integer. */
  lemma DurationRow()
    ensures Marshal(Duration(30 * 60)) == Ok(Ascii("i1800e"))
  {
    IntegerBytes(Int64, 1800);
    IntegerRow(Int64, 1800, "1800", "i1800e");
  }

  /** A two-element slice: 'l', each element's bytes in slice order, 'e'. */
  lemma PairSlice(x: GoValue, y: GoValue)
    requires Marshal(x).Ok? && Marshal(y).Ok?
    ensures Marshal(Slice([x, y])) == Ok([ListTag] + Marshal(x).value + Marshal(y).value + [EndTag])
  {
    MarshalSliceInOrder([x, y]);
    assert [x, y][1..] == [y] && [y][1..] == [];
    assert MarshalAll([y]) == Marshal(y).value;
    assert MarshalAll([x, y]) == Marshal(x).value + Marshal(y).value;
    Flatten1([ListTag], Marshal(x).value, Marshal(y).value, [EndTag]);
  }

  lemma Flatten1<T>(h: seq<T>, a: seq<T>, b: seq<T>, t: seq<T>)
    ensures h + (a + b) + t == h + a + b + t
  {
  }

  /** Two parts between an opening and a closing character. */
  lemma Framed2(open: string, a: string, b: string, close: string)
    ensures Ascii(open + a + b + close) == Ascii(open) + Ascii(a) + Ascii(b) + Ascii(close)
  {
    AsciiAppend(open, a);
    AsciiAppend(open + a, b);
    AsciiAppend(open + a + b, close);
  }

  /** Four parts between an opening and a closing character. */
  lemma Framed(open: string, a: string, b: string, c: string, d: string, close: string)
    ensures Ascii(open + a + b + c + d + close)
      == Ascii(open) + Ascii(a) + Ascii(b) + Ascii(c) + Ascii(d) + Ascii(close)
  {
    AsciiAppend(open, a);
    AsciiAppend(open + a, b);
    AsciiAppend(open + a + b, c);
    AsciiAppend(open + a + b + c, d);
    AsciiAppend(open + a + b + c + d, close);
  }

  /**
    A slice of strings keeps its order: ["one", "two"] is written with
    "one" first, whether it is a []interface{} or a []string.
  */
  lemma ListRow()
    ensures Marshal(Slice([Text(Ascii("one")), Text(Ascii("two"))])) == Ok(Ascii("l3:one3:twoe"))
  {
    ShortText("one", "3:one");
    ShortText("two", "3:two");
    ListRowText();
    PairSliceRow(Text(Ascii("one")), Text(Ascii("two")), "3:one", "3:two", "l3:one3:twoe");
  }

  lemma ListRowText()
    ensures "l3:one3:twoe" == "l" + "3:one" + "3:two" + "e"
  {
  }

  lemma StringSliceRows()
    ensures Marshal(StringSlice([Ascii("one"), Ascii("two")])) == Ok(Ascii("l3:one3:twoe"))
    ensures Marshal(StringSlice([])) == Ok(Ascii("le"))
  {
    var strings := [Ascii("one"), Ascii("two")];
    ListRow();
    MarshalStringSlice(strings);
    assert Texts(strings) == [Text(Ascii("one")), Text(Ascii("two"))];
    EmptyStringSliceRow();
  }

  /** An empty []string is the empty list. */
  lemma EmptyStringSliceRow()
    ensures Marshal(StringSlice([])) == Ok(Ascii("le"))
  {
    MarshalStringSlice([]);
    assert Texts([]) == [];
    MarshalSliceInOrder([]);
    assert Ascii("le") == [ListTag] + [] + [EndTag];
  }

  /** A one-entry map: 'd', the key as a byte string, the value's bytes, 'e'. */
  lemma SingleMap(k: seq<Byte>, x: GoValue)
    requires Marshal(x).Ok?
    ensures Marshal(StringMap([(k, x)])) == Ok([DictTag] + EncodeString(k) + Marshal(x).value + [EndTag])
  {
    MarshalMapInKeyOrder([(k, x)]);
    assert [(k, x)][1..] == [];
    var a, b := EncodeString(k), Marshal(x).value;
    assert MarshalEntries([(k, x)]) == a + b;
    assert [DictTag] + (a + b) + [EndTag] == [DictTag] + a + b + [EndTag];
  }

  /** A two-entry map whose keys are given in increasing order. */
  lemma PairMap(k1: seq<Byte>, x: GoValue, k2: seq<Byte>, y: GoValue)
    requires Below(k1, k2)
    requires Marshal(x).Ok? && Marshal(y).Ok?
    ensures Marshal(StringMap([(k1, x), (k2, y)]))
      == Ok([DictTag] + EncodeString(k1) + Marshal(x).value + EncodeString(k2) + Marshal(y).value + [EndTag])
  {
    var es := [(k1, x), (k2, y)];
    MarshalMapInKeyOrder(es);
    MarshalEntriesHead(es);
    var rest := es[1..];
    MarshalEntriesHead(rest);
    assert rest[0] == (k2, y) && rest[1..] == [];
    Flatten2([DictTag], EncodeString(k1), Marshal(x).value, EncodeString(k2), Marshal(y).value, [EndTag]);
  }

  lemma Flatten2<T>(h: seq<T>, a: seq<T>, b: seq<T>, c: seq<T>, d: seq<T>, t: seq<T>)
    ensures h + (a + b + (c + d + [])) + t == h + a + b + c + d + t
  {
    assert c + d + [] == c + d;
  }

  /**
    A map with the two entries "one": "aa" and "two": "bb" is written in key
    order from either iteration order.
  */
  lemma MapRows()
    ensures Marshal(StringMap([(Ascii("one"), Text(Ascii("aa"))), (Ascii("two"), Text(Ascii("bb")))]))
      == Ok(Ascii("d3:one2:aa3:two2:bbe"))
    ensures Marshal(StringMap([(Ascii("two"), Text(Ascii("bb"))), (Ascii("one"), Text(Ascii("aa")))]))
      == Ok(Ascii("d3:one2:aa3:two2:bbe"))
  {
    assert Below(Ascii("one"), Ascii("two"));
    PairMapRow("one", "aa", "two", "bb", "d3:one2:aa3:two2:bbe");
  }

  /**
    A map of two short keys to short texts, keys k1 below k2: row is its
    rendering, and both iteration orders give it.
  */
  lemma PairMapRow(k1: string, x1: string, k2: string, x2: string, row: string)
    requires |k1| < 10
    requires |x1| < 10
    requires |k2| < 10
    requires |x2| < 10
    requires Below(Ascii(k1), Ascii(k2))
    requires row == "d" + ([('0' as int + |k1|) as char, ':'] + k1) + ([('0' as int + |x1|) as char, ':'] + x1)
      + ([('0' as int + |k2|) as char, ':'] + k2) + ([('0' as int + |x2|) as char, ':'] + x2) + "e"
    ensures Marshal(StringMap([(Ascii(k1), Text(Ascii(x1))), (Ascii(k2), Text(Ascii(x2)))])) == Ok(Ascii(row))
    ensures Marshal(StringMap([(Ascii(k2), Text(Ascii(x2))), (Ascii(k1), Text(Ascii(x1)))])) == Ok(Ascii(row))
  {
    var r1, r2 := [('0' as int + |k1|) as char, ':'] + k1, [('0' as int + |x1|) as char, ':'] + x1;
    var r3, r4 := [('0' as int + |k2|) as char, ':'] + k2, [('0' as int + |x2|) as char, ':'] + x2;
    ShortText(k1, r1);
    ShortText(x1, r2);
    ShortText(k2, r3);
    ShortText(x2, r4);
    PairMap(Ascii(k1), Text(Ascii(x1)), Ascii(k2), Text(Ascii(x2)));
    Framed("d", r1, r2, r3, r4, "e");
    TagTexts();
    BelowIrreflexive(Ascii(k1));
    SwappedPair((Ascii(k1), Text(Ascii(x1))), (Ascii(k2), Text(Ascii(x2))));
  }

  /** A two-entry map gives the same bytes from either iteration order. */
  lemma SwappedPair(a: Entry<GoValue>, b: Entry<GoValue>)
    requires a.0 != b.0 && Marshal(StringMap([a, b])).Ok?
    ensures Marshal(StringMap([b, a])) == Marshal(StringMap([a, b]))
  {
    forall x ensures x in [a, b] <==> x in [b, a] {
    }
    MarshalMapOrderIrrelevant([a, b], [b, a]);
  }

  lemma EmptyMapRow()
    ensures Marshal(StringMap([])) == Ok(Ascii("de"))
  {
    MarshalMapInKeyOrder([]);
    assert Ascii("de") == [DictTag] + [] + [EndTag];
  }

  lemma SingleMapRow(k: string, x: string, row: string)
    requires |k| < 10
    requires |x| < 10
    requires row == "d" + ([('0' as int + |k|) as char, ':'] + k) + ([('0' as int + |x|) as char, ':'] + x) + "e"
    ensures Marshal(StringMap([(Ascii(k), Text(Ascii(x)))])) == Ok(Ascii(row))
  {
    var kr, xr := [('0' as int + |k|) as char, ':'] + k, [('0' as int + |x|) as char, ':'] + x;
    ShortText(k, kr);
    ShortText(x, xr);
    SingleMap(Ascii(k), Text(Ascii(x)));
    Framed2("d", kr, xr, "e");
    TagTexts();
  }

  /**
    A slice of maps keeps slice order, and each map is written in full in
    its place: [{"a": "b"}, {"c": "d"}] gives the {"a": "b"} map first.
  */
  lemma NestedRow()
    ensures Marshal(Slice([StringMap([(Ascii("a"), Text(Ascii("b")))]), StringMap([(Ascii("c"), Text(Ascii("d")))])]))
      == Ok(Ascii("ld1:a1:bed1:c1:dee"))
  {
    SingleMapRow("a", "b", "d1:a1:be");
    SingleMapRow("c", "d", "d1:c1:de");
    NestedRowText();
    PairSliceRow(StringMap([(Ascii("a"), Text(Ascii("b")))]), StringMap([(Ascii("c"), Text(Ascii("d")))]),
      "d1:a1:be", "d1:c1:de", "ld1:a1:bed1:c1:dee");
  }

  lemma NestedRowText()
    ensures "ld1:a1:bed1:c1:dee" == "l" + "d1:a1:be" + "d1:c1:de" + "e"
  {
  }

  /** A two-element slice whose elements are written as the texts r1 and r2. */
  lemma PairSliceRow(x: GoValue, y: GoValue, r1: string, r2: string, row: string)
    requires Marshal(x) == Ok(Ascii(r1)) && Marshal(y) == Ok(Ascii(r2))
    requires row == "l" + r1 + r2 + "e"
    ensures Marshal(Slice([x, y])) == Ok(Ascii(row))
  {
    PairSlice(x, y);
    Framed2("l", r1, r2, "e");
    TagTexts();
  }
}
