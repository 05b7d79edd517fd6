/** String tensors in Go: byteSizeOfEncodedStrings, stringEncoder and stringDecoder of
    tensorflow/go/tensor.go, writing and reading the layout of the C API. */
module GoStrings {
  import opened Collections
  import opened Bytes
  import opened Words
  import opened StringTensor
  import opened GoValues
  import opened GoTensor

  /** C.GoStringN takes its length as a 32-bit int. */
  const INT32_LIMIT := 0x8000_0000

  function Texts(vs: seq<Value>): (r: seq<StringTensor.Text>)
    ensures |r| == |vs|
  {
    seq(|vs|, i requires 0 <= i < |vs| => if vs[i].TextValue? then vs[i].s else [])
  }

  function TextsOf(v: Value): seq<StringTensor.Text> {
    Texts(Flatten(v))
  }

  lemma {:induction false} TextsConcat(a: seq<Value>, b: seq<Value>)
    ensures Texts(a + b) == Texts(a) + Texts(b)
  {
  }

  lemma {:induction false} TextsStep(vs: seq<Value>, i: nat)
    requires i < |vs|
    ensures Texts(FlattenAll(vs[..i + 1])) == Texts(FlattenAll(vs[..i])) + TextsOf(vs[i])
    ensures |Data(Texts(FlattenAll(vs[..i])))| + |Data(TextsOf(vs[i]))| == |Data(Texts(FlattenAll(vs[..i + 1])))|
    ensures |Data(Texts(FlattenAll(vs[..i + 1])))| <= |Data(Texts(FlattenAll(vs)))|
  {
    hide Texts, Flatten, FlattenAll, Data;
    FlattenAllStep(vs, i);
    TextsConcat(FlattenAll(vs[..i]), Flatten(vs[i]));
    DataConcat(Texts(FlattenAll(vs[..i])), TextsOf(vs[i]));
    assert vs == vs[..i + 1] + vs[i + 1..];
    FlattenAllConcat(vs[..i + 1], vs[i + 1..]);
    TextsConcat(FlattenAll(vs[..i + 1]), FlattenAll(vs[i + 1..]));
    DataConcat(Texts(FlattenAll(vs[..i + 1])), Texts(FlattenAll(vs[i + 1..])));
  }

  lemma {:induction false} NoTexts()
    ensures Texts(FlattenAll([])) == [] && Data([]) == []
  {
  }

  lemma {:induction false} OneText(s: StringTensor.Text)
    ensures TextsOf(TextValue(s)) == [s] && Data([s]) == Encoded(s) && |s| < |Encoded(s)|
  {
    assert [s][..0] == [] && Data([]) == [];
    assert Data([s]) == Data([s][..0]) + Encoded(s);
  }

  /** Lines 285-298: exactly the bytes the strings will take. */
  method ByteSizeOfEncodedStrings(v: Value, t: Type) returns (size: nat)
    requires HasType(v, t) && ElemKind(t).Text? && |Data(TextsOf(v))| < UINT64_LIMIT
    ensures size == |Data(TextsOf(v))|
    decreases t
  {
    hide Data, Encoded, EncodedSize, Texts, FlattenAll;
    if t.Elem? {
      OneText(v.s);
      size := StringEncodedSize(|v.s|);
      return;
    }
    size := 0;
    NoTexts();
    assert v.elems[..0] == [];
    for i := 0 to |v.elems|
      invariant size == |Data(Texts(FlattenAll(v.elems[..i])))|
    {
      TextsStep(v.elems, i);
      var one := ByteSizeOfEncodedStrings(v.elems[i], t.of);
      size := size + one;
    }
    assert v.elems[..|v.elems|] == v.elems;
  }

  // ---- stringEncoder ----

  lemma {:induction false} OffsetsGrow(strings: seq<StringTensor.Text>, s: StringTensor.Text, count: nat,
                                       bigEndian: bool)
    requires count <= |strings|
    ensures Offsets(strings + [s], count, bigEndian) == Offsets(strings, count, bigEndian)
  {
    hide WordBytes, Data;
    if count > 0 {
      OffsetsGrow(strings, s, count - 1, bigEndian);
      assert (strings + [s])[..count - 1] == strings[..count - 1];
    }
  }

  /** The offsets stand at the front and the strings from dataStart on. */
  ghost predicate Holds(raw: seq<Byte>, dataStart: nat, strings: seq<StringTensor.Text>, bigEndian: bool) {
    && 8 * |strings| <= dataStart && dataStart + |Data(strings)| <= |raw|
    && raw[..8 * |strings|] == Offsets(strings, |strings|, bigEndian)
    && raw[dataStart..dataStart + |Data(strings)|] == Data(strings)
  }

  lemma {:induction false} HoldsOneMore(b0: seq<Byte>, b1: seq<Byte>, b2: seq<Byte>, dataStart: nat,
                                        strings: seq<StringTensor.Text>, s: StringTensor.Text, bigEndian: bool)
    requires Holds(b0, dataStart, strings, bigEndian) && 8 * |strings| + 8 <= dataStart
    requires Written(b0, b1, 8 * |strings|, WordBytes(|Data(strings)|, 8, bigEndian))
    requires Written(b1, b2, dataStart + |Data(strings)|, Encoded(s))
    ensures Holds(b2, dataStart, strings + [s], bigEndian) && Data(strings + [s]) == Data(strings) + Encoded(s)
  {
    hide Encoded, WordBytes, Data, Offsets;
    var k, at := 8 * |strings|, dataStart + |Data(strings)|;
    var word := WordBytes(|Data(strings)|, 8, bigEndian);
    OneText(s);
    DataConcat(strings, [s]);
    OffsetsNext(strings, s, bigEndian);
    WrittenThere(b0, b1, k, word);
    WrittenElsewhere(b0, b1, k, word, 0, k);
    WrittenElsewhere(b0, b1, k, word, dataStart, at);
    WrittenThere(b1, b2, at, Encoded(s));
    WrittenElsewhere(b1, b2, at, Encoded(s), 0, k + 8);
    WrittenElsewhere(b1, b2, at, Encoded(s), dataStart, at);
    assert b1[0..k + 8] == b1[0..k] + b1[k..k + 8];
    assert b2[dataStart..at + |Encoded(s)|] == b2[dataStart..at] + b2[at..at + |Encoded(s)|];
  }

  lemma {:induction false} OffsetsNext(strings: seq<StringTensor.Text>, s: StringTensor.Text, bigEndian: bool)
    ensures Offsets(strings + [s], |strings| + 1, bigEndian)
            == Offsets(strings, |strings|, bigEndian) + WordBytes(|Data(strings)|, 8, bigEndian)
  {
    hide WordBytes, Data;
    OffsetsGrow(strings, s, |strings|, bigEndian);
    assert (strings + [s])[..|strings|] == strings;
  }

  class StringEncoder {
    const raw: array<Byte>
    const dataStart: nat
    const bigEndian: bool
    var offsetsLen: nat
    var offset: nat
    ghost var strings: seq<StringTensor.Text>

    ghost predicate Valid()
      reads this, raw
    {
      && raw.Length < UINT64_LIMIT && offsetsLen == 8 * |strings| && offset == |Data(strings)|
      && Holds(raw[..], dataStart, strings, bigEndian)
    }

    constructor (raw: array<Byte>, dataStart: nat, bigEndian: bool)
      requires dataStart <= raw.Length < UINT64_LIMIT
      ensures Valid() && strings == []
      ensures this.raw == raw && this.dataStart == dataStart && this.bigEndian == bigEndian
    {
      this.raw, this.dataStart, this.bigEndian := raw, dataStart, bigEndian;
      offsetsLen, offset, strings := 0, 0, [];
    }

    /** Lines 396-411: the string always fits. */
    method EncodeText(s: StringTensor.Text)
      requires Valid() && 8 * |strings| + 8 <= dataStart && dataStart + offset + |Encoded(s)| <= raw.Length
      modifies this, raw
      ensures Valid() && strings == old(strings) + [s] && offset == old(offset) + |Encoded(s)|
    {
      hide Data, Encoded, EncodedSize, WordBytes, Holds;
      OneText(s);
      ghost var b0 := raw[..];
      Store(raw, offsetsLen, WordBytes(offset, 8, bigEndian));
      ghost var b1 := raw[..];
      var r := StringEncode(s, raw, dataStart + offset, raw.Length - dataStart - offset);
      if r.InvalidArgument? {
        assert false;
      }
      HoldsOneMore(b0, b1, raw[..], dataStart, strings, s, bigEndian);
      strings := strings + [s];
      offsetsLen, offset := offsetsLen + 8, offset + r.value;
    }

    /** Lines 395-426: succeeds exactly on values of the shape. */
    method Encode(v: Value, t: Type, shape: seq<nat>) returns (ok: bool)
      requires Valid() && HasType(v, t) && Agrees(t, shape) && ElemKind(t).Text?
      requires 8 * (|strings| + Product(shape)) <= dataStart && dataStart + offset + |Data(TextsOf(v))| <= raw.Length
      modifies this, raw
      ensures Valid() && (ok <==> Rectangular(v, shape))
      ensures ok ==> strings == old(strings) + TextsOf(v) && offset == old(offset) + |Data(TextsOf(v))|
      decreases t
    {
      hide Data, Encoded, Texts, FlattenAll, Holds;
      if t.Elem? {
        OneText(v.s);
        EncodeText(v.s);
        return true;
      }
      if t.Slice? && |v.elems| != shape[0] {
        return false;
      }
      ghost var before, used, p := strings, offset, Product(shape[1..]);
      NoTexts();
      assert v.elems[..0] == [];
      for i := 0 to |v.elems|
        invariant Valid() && forall j :: 0 <= j < i ==> Rectangular(v.elems[j], shape[1..])
        invariant strings == before + Texts(FlattenAll(v.elems[..i])) && |strings| == |before| + i * p
        invariant offset == used + |Data(Texts(FlattenAll(v.elems[..i])))|
      {
        TextsStep(v.elems, i);
        SliceFits(shape[0], i, p);
        var done := Encode(v.elems[i], t.of, shape[1..]);
        if !done {
          return false;
        }
        LeafCount(v.elems[i], shape[1..]);
        MulAdd(i, 1, p);
      }
      assert v.elems[..|v.elems|] == v.elems;
      return true;
    }
  }

  // ---- stringDecoder ----

  /** Lines 440-455: indexing past the data panics; errors and panics are both not Ok. */
  function GoDecodeAt(data: seq<Byte>, offset: nat): Result<StringTensor.Text> {
    if offset >= |data| then OutOfBounds
    else
      match DecodeString(data[offset..])
      case Ok(s) => if |s| < INT32_LIMIT then Ok(s) else OutOfBounds
      case InvalidArgument => InvalidArgument
      case OutOfBounds => OutOfBounds
  }

  /** The string behind entry k of the offset table. */
  function Entry(table: seq<Byte>, data: seq<Byte>, k: nat, bigEndian: bool): Result<StringTensor.Text>
    requires 8 * k + 8 <= |table|
  {
    GoDecodeAt(data, OffsetAt(table, k, bigEndian))
  }

  ghost predicate EntriesOk(table: seq<Byte>, data: seq<Byte>, k: nat, count: nat, bigEndian: bool)
    requires 8 * (k + count) <= |table|
  {
    forall i: nat :: k <= i < k + count ==> Entry(table, data, i, bigEndian).Ok?
  }

  function TextLeaves(table: seq<Byte>, data: seq<Byte>, k: nat, count: nat, bigEndian: bool): (vs: seq<Value>)
    requires 8 * (k + count) <= |table|
    ensures |vs| == count
  {
    seq(count, i requires 0 <= i < count =>
      var e := Entry(table, data, k + i, bigEndian);
      TextValue(if e.Ok? then e.value else []))
  }

  /** v is the value of the shape whose strings start at entry k. */
  ghost predicate TextDecoded(table: seq<Byte>, data: seq<Byte>, k: nat, shape: seq<nat>, bigEndian: bool, v: Value) {
    8 * (k + Product(shape)) <= |table| && v == Unflatten(TextLeaves(table, data, k, Product(shape), bigEndian), shape)
  }

  lemma {:induction false} TextSlice(table: seq<Byte>, data: seq<Byte>, k: nat, count: nat, at: nat, n: nat,
                                     bigEndian: bool)
    requires 8 * (k + count) <= |table| && at + n <= count
    ensures TextLeaves(table, data, k, count, bigEndian)[at..at + n] ==
            TextLeaves(table, data, k + at, n, bigEndian)
  {
    hide Entry;
    var left := TextLeaves(table, data, k, count, bigEndian)[at..at + n];
    var right := TextLeaves(table, data, k + at, n, bigEndian);
    assert forall i :: 0 <= i < n ==> left[i] == right[i];
  }

  lemma {:induction false} TextElements(table: seq<Byte>, data: seq<Byte>, k: nat, shape: seq<nat>, bigEndian: bool,
                                        elems: seq<Value>)
    requires shape != [] && |elems| == shape[0] && 8 * (k + Product(shape)) <= |table|
    requires var p := Product(shape[1..]);
      forall i :: 0 <= i < shape[0] ==> TextDecoded(table, data, k + i * p, shape[1..], bigEndian, elems[i])
    ensures TextDecoded(table, data, k, shape, bigEndian, List(elems))
  {
    hide TextLeaves;
    var p := Product(shape[1..]);
    var leaves := TextLeaves(table, data, k, Product(shape), bigEndian);
    var u := Unflatten(leaves, shape);
    forall i | 0 <= i < shape[0] ensures u.elems[i] == elems[i] {
      SliceFits(shape[0], i, p);
      TextSlice(table, data, k, Product(shape), i * p, p, bigEndian);
      assert TextDecoded(table, data, k + i * p, shape[1..], bigEndian, elems[i]);
    }
    assert u.elems == elems;
  }

  class StringDecoder {
    const offsets: ByteReader
    const data: seq<Byte>
    const bigEndian: bool

    constructor (offsets: ByteReader, data: seq<Byte>, bigEndian: bool)
      ensures this.offsets == offsets && this.data == data && this.bigEndian == bigEndian
    {
      this.offsets, this.data, this.bigEndian := offsets, data, bigEndian;
    }

    /** Lines 435-456. */
    method DecodeText(ghost k: nat) returns (v: Option<Value>)
      requires offsets.pos == 8 * k && 8 * (k + 1) <= |offsets.data|
      modifies offsets`pos
      ensures v.Some? <==> Entry(offsets.data, data, k, bigEndian).Ok?
      ensures v.Some? ==> TextDecoded(offsets.data, data, k, [], bigEndian, v.value) && offsets.pos == 8 * (k + 1)
    {
      hide DecodeString, WordOf;
      var word := offsets.ReadFull(8);
      var offset := WordOf(word.value, bigEndian);
      if offset >= |data| {
        return None;
      }
      var s := StringDecode(data, offset);
      if !s.Ok? || |s.value| >= INT32_LIMIT {
        return None;
      }
      return Some(TextValue(s.value));
    }

    /** Lines 434-465: fails exactly when some entry does. */
    method Decode(shape: seq<nat>, ghost k: nat) returns (v: Option<Value>)
      requires offsets.pos == 8 * k && 8 * (k + Product(shape)) <= |offsets.data|
      modifies offsets`pos
      ensures v.Some? <==> EntriesOk(offsets.data, data, k, Product(shape), bigEndian)
      ensures v.Some? ==>
              TextDecoded(offsets.data, data, k, shape, bigEndian, v.value) && offsets.pos == 8 * (k + Product(shape))
      decreases |shape|
    {
      hide Entry, TextDecoded;
      if shape == [] {
        v := DecodeText(k);
        return;
      }
      var elems: seq<Value> := [];
      ghost var p := Product(shape[1..]);
      for i := 0 to shape[0]
        invariant |elems| == i && offsets.pos == 8 * (k + i * p) <= |offsets.data|
        invariant EntriesOk(offsets.data, data, k, i * p, bigEndian)
        invariant forall j :: 0 <= j < i ==> TextDecoded(offsets.data, data, k + j * p, shape[1..], bigEndian, elems[j])
      {
        SliceFits(shape[0], i, p);
        MulAdd(i, 1, p);
        var e := Decode(shape[1..], k + i * p);
        if e.None? {
          return None;
        }
        elems := elems + [e.value];
      }
      TextElements(offsets.data, data, k, shape, bigEndian, elems);
      return Some(List(elems));
    }
  }

  // ---- Interoperation ----

  /** On what the encoder wrote, Go reads every string that fits a 32-bit length, as C does. */
  lemma {:induction false} EntryOfLayout(strings: seq<StringTensor.Text>, bigEndian: bool, i: nat)
    requires i < |strings| && |Layout(strings, bigEndian)| < INT64_LIMIT && |strings[i]| < INT32_LIMIT
    ensures var raw, n := Layout(strings, bigEndian), |strings|;
            Entry(raw[..8 * n], raw[8 * n..], i, bigEndian) == Ok(strings[i])
  {
    hide Data, Encoded, DecodeString, WordOf, WordBytes;
    var raw, n := Layout(strings, bigEndian), |strings|;
    assert raw[8 * n..] == Data(strings);
    DataFrom(strings, i);
    OffsetIs(strings, bigEndian, i);
    assert raw[..8 * n][8 * i..8 * i + 8] == raw[8 * i..8 * i + 8];
    DataStep(strings, i);
    DecodeEncoded(strings[i], Data(strings[i + 1..]));
  }

  /** For every rectangular nested value the bytes fill the computed size; Go and C both read it back. */
  lemma {:induction false} StringsInteroperate(v: Value, t: Type, shape: seq<nat>, bigEndian: bool)
    requires HasType(v, t) && ElemKind(t).Text? && Rectangular(v, shape)
    requires 8 * Product(shape) + |Data(TextsOf(v))| < INT32_LIMIT
    ensures var raw, n := Layout(TextsOf(v), bigEndian), Product(shape);
            && |raw| == 8 * n + |Data(TextsOf(v))| && |TextsOf(v)| == n
            && EntriesOk(raw[..8 * n], raw[8 * n..], 0, n, bigEndian)
            && TextDecoded(raw[..8 * n], raw[8 * n..], 0, shape, bigEndian, v)
            && DecodeAll(raw, n, bigEndian, n) == StringTensor.Ok(TextsOf(v))
  {
    hide Data, Layout, Entry, DecodeAll, Unflatten, HasType;
    var strings := TextsOf(v);
    LeafCount(v, shape);
    LayoutLength(strings, bigEndian);
    StringsRoundTrip(strings, bigEndian, |strings|);
    assert strings[..|strings|] == strings;
    FlattenRoundTrip(v, shape);
    FlattenGivesLeaves(v, t);
    var raw, n := Layout(strings, bigEndian), Product(shape);
    forall i: nat | i < n ensures Entry(raw[..8 * n], raw[8 * n..], i, bigEndian) == StringTensor.Ok(strings[i]) {
      DataStep(strings, i);
      EntryOfLayout(strings, bigEndian, i);
    }
    assert TextLeaves(raw[..8 * n], raw[8 * n..], 0, n, bigEndian) == Flatten(v);
  }

  /** Whatever the buffer: an entry is sound iff its unsigned offset points into the data, where a varint tells
      the length of a string that fits there and into a C int. */
  lemma {:induction false} EntryIff(table: seq<Byte>, data: seq<Byte>, k: nat, bigEndian: bool, s: StringTensor.Text)
    requires 8 * k + 8 <= |table|
    ensures Entry(table, data, k, bigEndian) == Ok(s) <==>
              exists offset: nat :: offset < |data| && offset < UINT64_LIMIT && |s| < INT32_LIMIT
                && table[8 * k..8 * k + 8] == WordBytes(offset, 8, bigEndian) && HoldsString(data, offset, s)
  {
    var word := table[8 * k..8 * k + 8];
    var offset := OffsetAt(table, k, bigEndian);
    BytesRoundTrip(word, bigEndian);
    WordLimit64();
    hide WordBytes, WordOf, WordLimit, HoldsString, DecodeString;
    if offset < |data| {
      DecodeStringIff(data, offset, s);
    }
    forall o: nat | o < UINT64_LIMIT && word == WordBytes(o, 8, bigEndian) ensures o == offset {
      WordRoundTrip(o, 8, bigEndian);
    }
  }
}
