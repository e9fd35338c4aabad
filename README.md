# Bencode encoder (lajide/bencode), modelled in Dafny

This project models the Bencode encoder of the Go package `bencode`. It
covers the one-shot `Marshal(v) ([]byte, error)` and the streaming
`Encoder.Encode(v) error`, which appends to the `bytes.Buffer` it was created
with. Bencode is the serialisation of BitTorrent metainfo. Its form is
described in the "bencoding" section of BEP 3, the BitTorrent Protocol
Specification. It has four productions:

- an integer `i<decimal>e`, with no leading zeros and no `-0`
- a byte string `<length>:<bytes>`
- a list `l<items>e`
- a dictionary `d<key><value>...e`, keys strictly increasing in byte order

The encoder's implementation file is not part of this model. Its behaviour
comes from the table-driven test and the two benchmarks in
`encoder_test.go`. Each table row is proved as a lemma about the model.

The pipeline follows the encoder's design:

- `Marshaling.GoValue` is the closed set of Go values the encoder's type
  switch tells apart: every integer kind, `time.Duration`, `string`,
  `[]byte`, `[]string`, other slices, string-keyed maps, and the refused
  kinds float, bool and nil. A map is given as its entries in the order the
  Go map enumerates them.
- `Marshaling.Classify` is the value classifier. It turns a `GoValue` into
  one of the four productions (`Values.Value`), or into an `UnsupportedType`
  error.
- `Encoding.Encode` is the canonical writer. It sorts each dictionary's
  entries by key (`KeySort.SortByKey`) and writes every production.
- `Marshaling.Marshal` is `Classify` followed by `Encode`.
- `Streaming.Encoder` is a class bound to a `Streaming.Buffer` sink. Its
  `Encode` method writes a value piece by piece: tags, length prefixes, keys
  and nested values. Its contract ties the new buffer contents to `Marshal`.
- `Decoding` is a strict Bencode reader. It is the partner the writer is
  proved against: decoding an encoding gives back the value, and every input
  the reader accepts is the encoding of what it reads.

Files:

- `bytes.dfy`: bytes, tags, byte-wise key order
- `decimal.dfy`: decimal text and its reader
- `keysort.dfy`: entry sorting
- `values.dfy`: productions and the normal form
- `encoding.dfy`: the writer
- `decoding.dfy`: the reader and round trips
- `marshal.dfy`: Go values, the classifier and `Marshal`
- `encoder.dfy`: the streaming encoder
- `examples.dfy`: the test table
- `benchmarks.dfy`: the benchmark loops
- `wrappers.dfy`, `concat.dfy`: `Option`/`Result` and sequence regrouping

## Model

| member | source | states |
|---|---|---|
| Marshaling.MarshalInteger | encoder_test.go:16-22 | An integer of any kind is written as `i`, its canonical decimal text, `e`. The kind does not change the bytes, a duration of the same number gives the same bytes, and the bytes decode to exactly that number. |
| Marshaling.IntegerBytes | encoder_test.go:18-22 | Integers of every width and signedness, and durations, give the same `i<decimal>e` bytes for the same number. |
| Marshaling.MarshalTextAsBytes | encoder_test.go:24-25 | A string and a byte slice with the same bytes marshal identically. The output is the byte count in decimal, `:`, then the bytes verbatim. The prefix reads back as the exact length, and the output decodes to that byte string. |
| Marshaling.MarshalText | encoder_test.go:24-25 | A string and a byte slice with equal bytes marshal to the same byte-string encoding. |
| Marshaling.MarshalStringSlice | encoder_test.go:28-29 | A typed `[]string` and an untyped `[]interface{}` holding the same strings give the same bytes. |
| Marshaling.MarshalSliceInOrder | encoder_test.go:28-30 | A slice of accepted values is written as `l`, each element's own encoding in slice order, `e`. |
| Marshaling.ItemsEncodeAsMarshalAll | encoder_test.go:29 | The items of a classified slice encode to the concatenation of each element's own `Marshal` output. |
| Marshaling.Classify | encoder_test.go:41-42 | The classifier accepts a value if and only if nothing inside it, at any depth, is a float, a bool or nil. The proof rests on the contracts of the recursive calls for slice elements and map values. |
| Marshaling.Marshal | encoder_test.go:41-42 | `Marshal` returns bytes with no error if and only if the value holds no float, bool or nil anywhere. Otherwise it returns an error and no bytes. |
| Marshaling.ClassifyItems | encoder_test.go:41-42 | Classifying a slice succeeds with one classified item per element, position by position. Otherwise it fails with the error of the first refused element. |
| Marshaling.ClassifyEntries | encoder_test.go:32-33 | Classifying a map's entries keeps every key in place and yields one entry per input entry. It succeeds if and only if every value in the map is accepted. |
| Marshaling.ClassifyEntriesPointwise | encoder_test.go:32-33 | Each classified entry's value is the classification of the map's value under the same key. On failure, the error is that of the first refused value. |
| Marshaling.ClassifyEntriesOk | encoder_test.go:32-33 | A map's entries classify exactly when every value in it does. |
| Marshaling.ClassifiedMap | encoder_test.go:32 | A map whose values are all accepted becomes a dictionary entry by entry, each key kept with its value's classification. |
| Marshaling.EntriesEncodeAsMarshalEntries | encoder_test.go:32 | The classified entries of a map encode to each key's byte string followed by that value's own `Marshal` output, in the same order. |
| Marshaling.MarshalMapInKeyOrder | encoder_test.go:32 | A map enumerated in increasing key order is written as `d`, each key then its value's encoding in that order, `e`. |
| Marshaling.MarshalMapSortsKeys | encoder_test.go:32 | Whatever order a map is enumerated in, it is written with its entries in increasing key order. |
| Marshaling.ClassifiedEntriesMembers | encoder_test.go:32 | Two enumerations of the same map entries classify to the same set of entries, in both directions. |
| Marshaling.MarshalMapOrderIrrelevant | encoder_test.go:32 | Any two enumeration orders of one map either both fail or give byte-identical output. |
| Marshaling.ClassifyWellFormed | encoder_test.go:41-43 | A representable Go value classifies to a value whose every dictionary has unique keys. |
| Marshaling.MarshalIsBencode | encoder_test.go:41-43 | Every representable value with no float, bool or nil marshals without error. A strict Bencode reader takes its bytes back to the classified value, with every dictionary in key order. |
| Encoding.Encode | encoder_test.go:16-35 | The first byte of every encoding names its production: `i`, `l`, `d`, or a digit for a byte string. Every encoding is at least two bytes long. |
| Encoding.EncodeItemsAppend | encoder_test.go:35 | The encoding of a sequence of items splits at any point into the encodings of the two parts. |
| Encoding.EncodeEntriesAppend | encoder_test.go:32 | The encoding of a sequence of entries splits at any point into the encodings of the two parts. |
| Encoding.EncodeDictInKeyOrder | encoder_test.go:32 | A dictionary is written as `d`, then the strictly key-ordered arrangement of its entries, then `e`. |
| Encoding.EncodeDictDeterministic | encoder_test.go:32 | Two dictionaries holding the same entries in different orders encode identically. |
| Encoding.EncodeNormalize | encoder_test.go:35 | Putting every dictionary, at every depth, into key order does not change the bytes written. |
| Values.CanonicalIsWellFormed | encoder_test.go:32-35 | A value whose dictionaries are all strictly key-ordered has unique keys in every dictionary. |
| Values.NormalizeIsCanonical | encoder_test.go:35 | Normalising a value with unique keys sorts every nested dictionary strictly by key. |
| Values.NormalizeEntries | encoder_test.go:32 | Normalising a dictionary's entries keeps each key in its place. |
| KeySort.Insert | encoder_test.go:32 | Inserting an entry adds exactly that entry to the multiset of entries. |
| KeySort.InsertSorted | encoder_test.go:32 | Inserting into a key-ordered sequence keeps it key-ordered. |
| KeySort.InsertStrictlySorted | encoder_test.go:32 | Inserting a new key into a strictly key-ordered sequence keeps it strictly ordered. |
| KeySort.SortByKey | encoder_test.go:32-33 | The sorted entries are a permutation of the input, ordered by key. They are strictly ordered when the keys are distinct. |
| KeySort.SortByKeyMembers | encoder_test.go:32 | Sorting neither adds nor drops an entry. |
| KeySort.StrictlySortedDistinct | encoder_test.go:32 | Strictly key-ordered entries have distinct keys. |
| KeySort.StrictlySortedUnique | encoder_test.go:32 | Two strictly key-ordered sequences with the same entries are equal. |
| KeySort.SortByKeyDeterministic | encoder_test.go:32 | The sorted order depends only on which entries a map holds, not on its enumeration order. |
| KeySort.SortByKeySortedIdentity | encoder_test.go:32 | Entries already in strict key order are left as they are. |
| Bytes.BelowIsLexLess | encoder_test.go:32 | The key order is byte-wise lexicographic order: a proper prefix first, otherwise the smaller byte at the first difference. |
| Bytes.BelowIrreflexive | encoder_test.go:32 | No key sorts before itself. |
| Bytes.BelowAsymmetric | encoder_test.go:32 | Two keys never each sort before the other. |
| Bytes.BelowTransitive | encoder_test.go:32 | The key order is transitive. |
| Bytes.BelowTotal | encoder_test.go:32 | Of two different keys, one sorts before the other. |
| Decimal.NatDigits | encoder_test.go:24 | The decimal text of a length is non-empty, all digits, with no leading zero. |
| Decimal.IntDecimal | encoder_test.go:16-17 | The decimal text of an integer is canonical and starts with `-` exactly when the integer is negative. |
| Decimal.NatDigitsValue | encoder_test.go:24 | The decimal text of a number reads back as that number. |
| Decimal.CanonicalDigitsUnique | encoder_test.go:16-22 | Every canonical digit string is the text of the number it denotes. |
| Decimal.IntDecimalInjective | encoder_test.go:16-22 | Different integers have different texts. |
| Decimal.NatRoundTrip | encoder_test.go:24 | A length prefix followed by a non-digit reads back as that length, leaving the rest. |
| Decimal.ParseNatExact | encoder_test.go:24 | Whatever the length reader accepts is exactly the canonical text of the length it returns. |
| Decimal.IntegerRoundTrip | encoder_test.go:16-17 | The text of any integer, followed by a non-digit, reads back as that integer. |
| Decimal.NegativeRoundTrip | encoder_test.go:17 | The text of a negative integer reads back as that integer. |
| Decimal.NonNegativeRoundTrip | encoder_test.go:16 | The text of a non-negative integer reads back as that integer. |
| Decimal.ParseIntegerExact | encoder_test.go:16-22 | Whatever the integer reader accepts is exactly the canonical text of the integer it returns. |
| Decoding.StringRoundTrip | encoder_test.go:24-25 | A byte string written by `EncodeString` reads back as the same bytes, leaving what follows. |
| Decoding.ParseStringExact | encoder_test.go:24-25 | Every byte string the reader accepts is the `EncodeString` of the bytes it returns. |
| Decoding.IntRoundTrip | encoder_test.go:16-22 | A written integer reads back as the same integer, leaving what follows. |
| Decoding.ValueRoundTrip | encoder_test.go:43 | Any canonical value reads back from its encoding, leaving what follows. |
| Decoding.ItemsRoundTrip | encoder_test.go:28-30 | List items written by `EncodeItems`, followed by `e`, read back as those items in order. |
| Decoding.EntriesRoundTrip | encoder_test.go:32-33 | Key-ordered dictionary entries written by `EncodeEntries`, followed by `e`, read back as those entries. |
| Decoding.ParsedIsEncoding | encoder_test.go:43 | Every value the reader accepts is canonical, and the bytes it consumed are exactly that value's encoding. |
| Decoding.ParsedItemsAreEncoding | encoder_test.go:28-30 | Every list body the reader accepts is the encoding of the items it returns, then `e`. |
| Decoding.ParsedEntriesAreEncoding | encoder_test.go:32-33 | Every dictionary body the reader accepts is strictly key-ordered and is the encoding of the entries it returns, then `e`. |
| Decoding.DecodeEncode | encoder_test.go:43 | Decoding the encoding of a canonical value gives that value. |
| Decoding.EncodeDecode | encoder_test.go:43 | Any input the reader accepts is canonical Bencode: encoding what it decodes gives the input back. |
| Decoding.EncodeSelfDelimiting | encoder_test.go:35 | An encoding determines where it ends: two canonical values whose encodings start two equal byte sequences are equal, and so are the tails. |
| Decoding.DecodeEncodeWellFormed | encoder_test.go:43 | Decoding the encoding of any value with unique keys gives that value with every dictionary in key order. |
| Streaming.Buffer.constructor | encoder_test.go:49 | A new buffer is empty. |
| Streaming.Buffer.Write | encoder_test.go:49 | Writing appends the bytes to the buffer's contents. |
| Streaming.Encoder.constructor | encoder_test.go:50 | A new encoder is bound to the given sink. |
| Streaming.Encoder.Encode | encoder_test.go:53-54 | Encoding an accepted value appends exactly its `Marshal` bytes to the sink and reports no error. A refused value is reported with the same error as `Marshal` and leaves the sink as it was. |
| Streaming.Encoder.WriteValue | encoder_test.go:53-54 | Writing a production appends exactly its encoding. |
| Streaming.Encoder.WriteList | encoder_test.go:60 | Writing a list piece by piece appends exactly its encoding. |
| Streaming.Encoder.WriteDict | encoder_test.go:70 | Writing a dictionary piece by piece, in sorted key order, appends exactly its encoding. |
| Streaming.Encoder.WriteItems | encoder_test.go:60 | Writing the items one after another appends their encodings in order. |
| Streaming.Encoder.WriteEntries | encoder_test.go:59-64 | Writing the entries one after another appends each key and value's encoding in order. |
| Streaming.Encoder.WriteString | encoder_test.go:53 | Writing a byte string appends its length prefix, `:` and its bytes. |
| Streaming.EncodeRound | encoder_test.go:53-54 | Encoding a series of values through one encoder appends what each call emits, in order. |
| Streaming.EncodeRounds | encoder_test.go:66-71 | One encoder over a fresh buffer, run for n rounds, leaves n copies of one round's bytes. |
| MarshalExamples.IntegerRows | encoder_test.go:16-22 | Each integer row marshals to its expected text, e.g. `int(-42)` to `i-42e` and `uint16(45)` to `i45e`. |
| MarshalExamples.PlainIntegerRows | encoder_test.go:16-18 | The `int` and `uint` rows marshal to `i42e`, `i-42e` and `i43e`. |
| MarshalExamples.SizedIntegerRows | encoder_test.go:19-22 | The `int64`, `uint64`, `int16` and `uint16` rows marshal to their expected texts. |
| MarshalExamples.IntegerRow | encoder_test.go:16-22 | An integer whose decimal text is given marshals to `i`, that text, `e`, whatever its kind. |
| MarshalExamples.ShortText | encoder_test.go:24 | A string shorter than ten bytes is written with its one-digit length, `:`, then the string. |
| MarshalExamples.StringRows | encoder_test.go:24-26 | `"example"` and `[]byte("example")` both marshal to `7:example`. Thirty minutes marshals to `i1800e`. |
| MarshalExamples.TextRow | encoder_test.go:24 | `"example"` marshals to `7:example`. |
| MarshalExamples.DurationRow | encoder_test.go:26 | A thirty-minute duration marshals to `i1800e`. |
| MarshalExamples.PairSlice | encoder_test.go:29 | A two-element slice is written as `l`, the two encodings in slice order, `e`. |
| MarshalExamples.PairSliceRow | encoder_test.go:29 | A two-element slice whose elements have known texts marshals to `l`, those texts in order, `e`. |
| MarshalExamples.ListRow | encoder_test.go:29 | `[]interface{}{"one", "two"}` marshals to `l3:one3:twoe`, one of the accepted outputs. |
| MarshalExamples.StringSliceRows | encoder_test.go:28-30 | `[]string{"one", "two"}` marshals to `l3:one3:twoe`, and the empty `[]string` marshals to `le`. |
| MarshalExamples.EmptyStringSliceRow | encoder_test.go:30 | The empty `[]string` marshals to `le`. |
| MarshalExamples.SingleMap | encoder_test.go:35 | A one-key map is written as `d`, the key, its value's encoding, `e`. |
| MarshalExamples.SingleMapRow | encoder_test.go:35 | A one-key map of short strings marshals to its expected text, e.g. `d1:a1:be`. |
| MarshalExamples.PairMap | encoder_test.go:32 | A two-key map enumerated in key order is written as `d`, each key and value in that order, `e`. |
| MarshalExamples.PairMapRow | encoder_test.go:32 | A two-key map of short strings marshals to the key-ordered text in both enumeration orders. |
| MarshalExamples.SwappedPair | encoder_test.go:32 | Swapping the enumeration order of a two-key map does not change its bytes. |
| MarshalExamples.MapRows | encoder_test.go:32 | `{"one": "aa", "two": "bb"}` marshals to `d3:one2:aa3:two2:bbe` in either enumeration order. That is one of the accepted outputs. |
| MarshalExamples.EmptyMapRow | encoder_test.go:33 | The empty map marshals to `de`. |
| MarshalExamples.NestedRow | encoder_test.go:35 | `[]Dict{{"a": "b"}, {"c": "d"}}` marshals to `ld1:a1:bed1:c1:dee`. |
| Benchmarks.MarshalScalar | encoder_test.go:48-56 | Encoding `"test"` then `123` through one encoder n times leaves n copies of `4:testi123e` in the buffer. |
| Benchmarks.ScalarRound | encoder_test.go:53-54 | One round of the scalar benchmark writes `4:testi123e`. |
| Benchmarks.TwoValueRound | encoder_test.go:53-54 | Encoding two accepted values in turn writes their texts one after the other. |
| Benchmarks.MarshalLarge | encoder_test.go:58-72 | Encoding the benchmark map n times leaves n copies of `d2:k1l1:a1:b1:ce2:k2i42e2:k33:val2:k4i42ee`. |
| Benchmarks.LargeBytes | encoder_test.go:59-64 | The benchmark map marshals to `d2:k1l1:a1:b1:ce2:k2i42e2:k33:val2:k4i42ee`. |
| Benchmarks.LargeEntries | encoder_test.go:60-63 | Each key of the benchmark map followed by its value is written as its expected text. The `int` and `uint` values 42 are both written as `i42e`. |
| Benchmarks.EntryText | encoder_test.go:60-63 | A key with a known text followed by a value with a known text is written as the two texts in turn. |
| Benchmarks.LargeKeysInOrder | encoder_test.go:59-64 | The keys `k1` to `k4` are in increasing byte order. |
| Benchmarks.LetterList | encoder_test.go:60 | `[]string{"a", "b", "c"}` marshals to `l1:a1:b1:ce`. |
| Benchmarks.TripleSlice | encoder_test.go:60 | A three-element slice is written as `l`, the three encodings in order, `e`. |
| Benchmarks.TripleSliceRow | encoder_test.go:60 | A three-string `[]string` with known texts marshals to `l`, those texts in order, `e`. |
| Benchmarks.FourEntryMap | encoder_test.go:59-64 | A four-key map enumerated in key order is written as `d`, each key then its value in that order, `e`. |
| Benchmarks.FourEntryMapRow | encoder_test.go:59-64 | A four-key map whose entries have known texts marshals to `d`, those texts in key order, `e`. |

## Left out

- The encoder's implementation file is not part of this model. Go reflection and the run-time type switch over `interface{}` become the closed datatype `GoValue`. Other shapes are not modelled: structs, pointers, other map key types, functions and channels.
- `time.Duration` is taken as a whole number of seconds. The conversion from nanosecond ticks, and the rounding of fractions of a second, are not modelled.
- `int` and `uint` are taken as 64 bits wide (`MinOf`/`MaxOf`). Integers are unbounded in the model, so no conversion can truncate.
- Go strings are taken as their bytes. There is no UTF-8 validation or decoding. `Bytes.Ascii` maps each character of a literal to its code modulo 256; every literal used is plain ASCII.
- Marshaling.Classify: classification is eager. The whole value is classified before any byte is written. Where several values inside a refused value are unsupported, the first in slice or enumeration order decides the error. The Go encoder classifies lazily while it writes, so another value may decide which error is reported.
- Streaming.Encoder.Encode: a refused value leaves the sink unchanged. The Go encoder may already have written part of the value when it meets the unsupported part, and that partial output is not modelled.
- Cyclic structures cannot be built from a datatype, so unbounded recursion on a cycle is not modelled.
- Duplicate keys cannot occur in a Go map. The model states this as `Representable`, which the properties that need unique keys require.
- Write errors from the `io.Writer` sink are not modelled. The sink is an in-memory buffer that always accepts the bytes.
- Concurrent use of one `Encoder` is not modelled.
- A Go map's random iteration order is a parameter: the order of the `StringMap` entries. The map's properties are proved for every order. The benchmark map `LargeData` is given in one fixed order.
- The test accepts either order for lists (lines 28-29 and 35). The model keeps slice order, and the lemmas prove the first of each pair of accepted outputs.
- The testify assertions, the `fmt.Sprintf` test names and the benchmark timer are not modelled. `b.N` becomes the round count `n` of `EncodeRounds`.
- The Bencode reader in `Decoding` is a reference the writer is proved against. It is not an operation of the encoder.
