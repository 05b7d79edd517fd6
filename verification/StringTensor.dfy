/** TF_STRING tensors as the C API lays them out: a table of 64-bit offsets followed by
    varint-prefixed strings. TF_StringEncode, TF_StringDecode_Impl, TF_TensorFromTensor and
    TF_TensorToTensor of tensorflow/c/c_api.cc. */
module StringTensor {
  import opened Bytes
  import opened Words
  import opened Varints

  type Text = seq<Byte>

  /** OutOfBounds: the code would read outside the buffer. */
  datatype Result<+T> = Ok(value: T) | InvalidArgument | OutOfBounds

  /** The bound a pointer difference has to stay below. */
  const INT64_LIMIT := 0x8000_0000_0000_0000

  function EncodedSize(length: nat): nat {
    |Varint(length)| + length
  }

  function Encoded(s: Text): (r: seq<Byte>)
    ensures |r| == EncodedSize(|s|) > 0
  {
    Varint(|s|) + s
  }

  function Data(strings: seq<Text>): seq<Byte> {
    if strings == [] then [] else Data(strings[..|strings| - 1]) + Encoded(strings[|strings| - 1])
  }

  /** The first `count` entries of the offset table. */
  function Offsets(strings: seq<Text>, count: nat, bigEndian: bool): (s: seq<Byte>)
    requires count <= |strings|
    ensures |s| == 8 * count
  {
    if count == 0 then [] else
      Offsets(strings, count - 1, bigEndian) + WordBytes(|Data(strings[..count - 1])|, 8, bigEndian)
  }

  function Layout(strings: seq<Text>, bigEndian: bool): seq<Byte> {
    Offsets(strings, |strings|, bigEndian) + Data(strings)
  }

  lemma {:induction false} DataConcat(a: seq<Text>, b: seq<Text>)
    ensures Data(a + b) == Data(a) + Data(b)
  {
    if b == [] {
      assert a + b == a;
    } else {
      var last := |b| - 1;
      assert (a + b)[..|a + b| - 1] == a + b[..last];
      DataConcat(a, b[..last]);
      assert Data(a) + Data(b[..last]) + Encoded(b[last]) == Data(a) + (Data(b[..last]) + Encoded(b[last]));
    }
  }

  lemma {:induction false} DataStep(strings: seq<Text>, i: nat)
    requires i < |strings|
    ensures Data(strings[..i + 1]) == Data(strings[..i]) + Encoded(strings[i])
    ensures |Data(strings[..i])| + EncodedSize(|strings[i]|) <= |Data(strings)|
    ensures |strings[i]| < EncodedSize(|strings[i]|) == |Encoded(strings[i])|
  {
    assert strings[..i + 1][..i] == strings[..i];
    assert strings == strings[..i + 1] + strings[i + 1..];
    DataConcat(strings[..i + 1], strings[i + 1..]);
  }

  // ---- Encoding ----

  /** The bytes `word` now stand at `at`, and nothing else changed. */
  ghost predicate Written(before: seq<Byte>, after: seq<Byte>, at: nat, word: seq<Byte>) {
    at + |word| <= |before| && after == before[..at] + word + before[at + |word|..]
  }

  lemma {:induction false} WrittenThere(before: seq<Byte>, after: seq<Byte>, at: nat, word: seq<Byte>)
    requires Written(before, after, at, word)
    ensures |after| == |before| && after[at..at + |word|] == word
  {
  }

  lemma {:induction false} WrittenElsewhere(before: seq<Byte>, after: seq<Byte>, at: nat, word: seq<Byte>, lo: nat,
                                            hi: nat)
    requires Written(before, after, at, word) && lo <= hi <= |before| && (hi <= at || at + |word| <= lo)
    ensures |after| == |before| && after[lo..hi] == before[lo..hi]
  {
  }

  method Store(dst: array<Byte>, at: nat, bytes: seq<Byte>)
    requires at + |bytes| <= dst.Length
    modifies dst
    ensures Written(old(dst[..]), dst[..], at, bytes)
  {
    for i := 0 to |bytes|
      invariant forall j :: 0 <= j < dst.Length ==>
                  dst[j] == if at <= j < at + i then bytes[j - at] else old(dst[j])
    {
      dst[at + i] := bytes[i];
    }
    assert dst[..] == old(dst[..at]) + bytes + old(dst[at + |bytes|..]);
    assert old(dst[..])[..at] == old(dst[..at]) && old(dst[..])[at + |bytes|..] == old(dst[at + |bytes|..]);
  }

  /** Lines 371-373, on 64-bit sizes. */
  method StringEncodedSize(length: nat) returns (size: nat)
    ensures size == EncodedSize(length) % UINT64_LIMIT
  {
    var prefix := VarintLength(length);
    size := (prefix + length) % UINT64_LIMIT;
  }

  /** Comparing the wrapped size with the length detects exactly the sizes that wrap. */
  lemma {:induction false} WrapIsDetected(length: nat)
    requires length < UINT64_LIMIT
    ensures EncodedSize(length) % UINT64_LIMIT < length <==> EncodedSize(length) >= UINT64_LIMIT
  {
    Power128At10();
    VarintIsShort(length, 10);
  }

  /** Lines 330-346: fails exactly when the size wraps or does not fit, and then writes nothing. */
  method StringEncode(src: Text, dst: array<Byte>, at: nat, dstLen: nat) returns (r: Result<nat>)
    requires |src| < UINT64_LIMIT && at + dstLen <= dst.Length
    modifies dst
    ensures r == if EncodedSize(|src|) < UINT64_LIMIT && EncodedSize(|src|) <= dstLen then Ok(EncodedSize(|src|))
            else InvalidArgument
    ensures r.Ok? ==> Written(old(dst[..]), dst[..], at, Encoded(src))
    ensures !r.Ok? ==> dst[..] == old(dst[..])
  {
    WrapIsDetected(|src|);
    var size := StringEncodedSize(|src|);
    if size < |src| {
      return InvalidArgument;
    }
    if dstLen < size {
      return InvalidArgument;
    }
    var next := EncodeVarint64(dst, at, |src|);
    ghost var middle := dst[..];
    Store(dst, next, src);
    hide Varint;
    WrittenTwice(old(dst[..]), middle, dst[..], at, Varint(|src|), src);
    return Ok(size);
  }

  lemma {:induction false} WrittenTwice(before: seq<Byte>, middle: seq<Byte>, after: seq<Byte>, at: nat,
                                        first: seq<Byte>, second: seq<Byte>)
    requires at + |first| + |second| <= |before|
    requires middle == before[..at] + first + before[at + |first|..]
    requires Written(middle, after, at + |first|, second)
    ensures Written(before, after, at, first + second)
  {
    assert middle[..at + |first|] == before[..at] + first;
    assert middle[at + |first| + |second|..] == before[at + |first| + |second|..];
  }

  /** What the encoding loop has done after i strings. */
  ghost predicate EncodedUpTo(base: seq<Byte>, strings: seq<Text>, bigEndian: bool, i: nat) {
    && i <= |strings| && |base| == 8 * |strings| + |Data(strings)|
    && |Data(strings[..i])| <= |Data(strings)|
    && base[..8 * i] == Offsets(strings, i, bigEndian)
    && base[8 * |strings|..8 * |strings| + |Data(strings[..i])|] == Data(strings[..i])
  }

  lemma {:induction false} EncodeStep(b0: seq<Byte>, b1: seq<Byte>, b2: seq<Byte>, strings: seq<Text>,
                                      bigEndian: bool, i: nat)
    requires i < |strings| && EncodedUpTo(b0, strings, bigEndian, i)
    requires Written(b0, b1, 8 * i, WordBytes(|Data(strings[..i])|, 8, bigEndian))
    requires Written(b1, b2, 8 * |strings| + |Data(strings[..i])|, Encoded(strings[i]))
    ensures EncodedUpTo(b2, strings, bigEndian, i + 1)
  {
    hide Encoded, EncodedSize, WordBytes;
    DataStep(strings, i);
    var start, used := 8 * |strings|, |Data(strings[..i])|;
    var word := WordBytes(used, 8, bigEndian);
    var at := start + used;
    WrittenThere(b0, b1, 8 * i, word);
    WrittenElsewhere(b0, b1, 8 * i, word, 0, 8 * i);
    WrittenElsewhere(b0, b1, 8 * i, word, start, at);
    WrittenThere(b1, b2, at, Encoded(strings[i]));
    WrittenElsewhere(b1, b2, at, Encoded(strings[i]), 0, 8 * i + 8);
    WrittenElsewhere(b1, b2, at, Encoded(strings[i]), start, at);
    assert b1[..8 * i + 8] == b1[0..8 * i] + b1[8 * i..8 * i + 8];
    assert b2[..8 * (i + 1)] == b2[0..8 * i + 8];
    assert b2[start..at + |Encoded(strings[i])|] == b2[start..at] + b2[at..at + |Encoded(strings[i])|];
  }

  /** Lines 594-601, on 64-bit sizes. */
  method LayoutSize(strings: seq<Text>) returns (size: nat)
    requires 8 * |strings| + |Data(strings)| < UINT64_LIMIT
    ensures size == 8 * |strings| + |Data(strings)|
  {
    hide Data, EncodedSize, Encoded;
    size := 0;
    assert strings[..0] == [] && |Data([])| == 0 by { EmptyData(); }
    for i := 0 to |strings|
      invariant size == 8 * i + |Data(strings[..i])|
    {
      DataStep(strings, i);
      var one := StringEncodedSize(|strings[i]|);
      size := (size + 8 + one) % UINT64_LIMIT;
    }
    assert strings[..|strings|] == strings;
  }

  lemma {:induction false} EmptyData()
    ensures Data([]) == []
  {
  }

  lemma {:induction false} EncodeStart(base: seq<Byte>, strings: seq<Text>, bigEndian: bool)
    requires |base| == 8 * |strings| + |Data(strings)|
    ensures EncodedUpTo(base, strings, bigEndian, 0) && |Data(strings[..0])| == 0
  {
  }

  lemma {:induction false} EncodeEnd(base: seq<Byte>, strings: seq<Text>, bigEndian: bool)
    requires EncodedUpTo(base, strings, bigEndian, |strings|)
    ensures base == Layout(strings, bigEndian)
  {
    assert strings[..|strings|] == strings;
    assert base == base[..8 * |strings|] + base[8 * |strings|..];
  }

  lemma {:induction false} LayoutLength(strings: seq<Text>, bigEndian: bool)
    ensures |Layout(strings, bigEndian)| == 8 * |strings| + |Data(strings)|
  {
  }

  /** Lines 609-623: one pass of the encoding loop; the string always fits. */
  method EncodeOne(base: array<Byte>, strings: seq<Text>, bigEndian: bool, i: nat, dst: nat, dstLen: nat)
    returns (consumed: nat)
    requires i < |strings| && base.Length < INT64_LIMIT && EncodedUpTo(base[..], strings, bigEndian, i)
    requires base.Length == dst + dstLen == 8 * |strings| + |Data(strings)|
    requires dst == 8 * |strings| + |Data(strings[..i])|
    modifies base
    ensures EncodedUpTo(base[..], strings, bigEndian, i + 1)
    ensures consumed <= dstLen && dst + consumed == 8 * |strings| + |Data(strings[..i + 1])|
  {
    hide Data, Offsets, Encoded, EncodedSize, WordBytes, EncodedUpTo;
    DataStep(strings, i);
    ghost var b0 := base[..];
    Store(base, 8 * i, WordBytes(dst - 8 * |strings|, 8, bigEndian));
    ghost var b1 := base[..];
    var r := StringEncode(strings[i], base, dst, dstLen);
    if r.InvalidArgument? {
      assert false;
    }
    EncodeStep(b0, b1, base[..], strings, bigEndian, i);
    consumed := r.value;
  }

  /** Lines 594-642 for strings: the buffer is exactly the layout, whose size was computed up front. */
  method TensorFromTensor(strings: seq<Text>, bigEndian: bool) returns (base: array<Byte>)
    requires |Layout(strings, bigEndian)| < INT64_LIMIT
    ensures base[..] == Layout(strings, bigEndian)
  {
    hide Data, Layout, EncodedUpTo;
    LayoutLength(strings, bigEndian);
    var size := LayoutSize(strings);
    base := new Byte[size];
    EncodeStart(base[..], strings, bigEndian);
    var dst, dstLen := 8 * |strings|, size - 8 * |strings|;
    for i := 0 to |strings|
      invariant EncodedUpTo(base[..], strings, bigEndian, i)
      invariant dst == 8 * |strings| + |Data(strings[..i])| && dst + dstLen == size && 0 <= dstLen
    {
      var consumed := EncodeOne(base, strings, bigEndian, i, dst, dstLen);
      dst, dstLen := dst + consumed, dstLen - consumed;
    }
    assert strings[..|strings|] == strings;
    if dst != size {
      assert false;
    }
    EncodeEnd(base[..], strings, bigEndian);
  }

  // ---- Decoding ----

  /** A 64-bit word as a signed pointer difference. */
  function Signed(word: nat): int {
    if word < INT64_LIMIT then word else word - UINT64_LIMIT
  }

  /** Lines 348-362: the string encoded at the start of the bytes. */
  function DecodeString(bytes: seq<Byte>): Result<Text> {
    match ReadVarint(bytes, 0)
    case None => InvalidArgument
    case Some(d) => if d.length + d.value > |bytes| then OutOfBounds else Ok(bytes[d.length..d.length + d.value])
  }

  /** Lines 523-534: only offsets past the end are rejected; a negative one points into the table
      or before the buffer. */
  function DecodeAt(src: seq<Byte>, dataStart: nat, offset: int): Result<Text>
    requires dataStart <= |src|
  {
    if offset >= |src| - dataStart then InvalidArgument
    else if dataStart + offset < 0 then OutOfBounds
    else DecodeString(src[dataStart + offset..])
  }

  function OffsetAt(src: seq<Byte>, i: nat, bigEndian: bool): nat
    requires 8 * i + 8 <= |src|
  {
    WordOf(src[8 * i..8 * i + 8], bigEndian)
  }

  /** The first `count` of `n` strings, or the first error. */
  function DecodeAll(src: seq<Byte>, n: nat, bigEndian: bool, count: nat): Result<seq<Text>>
    requires count <= n && 8 * n <= |src|
  {
    if count == 0 then Ok([])
    else
      match DecodeAll(src, n, bigEndian, count - 1)
      case InvalidArgument => InvalidArgument
      case OutOfBounds => OutOfBounds
      case Ok(strings) =>
        match DecodeAt(src, 8 * n, Signed(OffsetAt(src, count - 1, bigEndian)))
        case InvalidArgument => InvalidArgument
        case OutOfBounds => OutOfBounds
        case Ok(s) => Ok(strings + [s])
  }

  lemma {:induction false} FirstErrorStays(src: seq<Byte>, n: nat, bigEndian: bool, i: nat, count: nat)
    requires i <= count <= n && 8 * n <= |src| && !DecodeAll(src, n, bigEndian, i).Ok?
    ensures DecodeAll(src, n, bigEndian, count) == DecodeAll(src, n, bigEndian, i)
  {
    if i < count {
      FirstErrorStays(src, n, bigEndian, i, count - 1);
    }
  }

  /** Lines 348-362 and the copy at 534, on the bytes from `start` on. */
  method StringDecode(src: seq<Byte>, start: nat) returns (r: Result<Text>)
    requires start <= |src|
    ensures r == DecodeString(src[start..])
  {
    var d := GetVarint64Ptr(src, start, |src|);
    assert src[start..|src|] == src[start..];
    if d.None? {
      return InvalidArgument;
    }
    var p := start + d.value.length;
    if p + d.value.value > |src| {
      return OutOfBounds;
    }
    assert src[start..][d.value.length..d.value.length + d.value.value] == src[p..p + d.value.value];
    return Ok(src[p..p + d.value.value]);
  }

  /** Lines 523-534. */
  method DecodeElement(src: seq<Byte>, dataStart: nat, offset: int) returns (r: Result<Text>)
    requires dataStart <= |src|
    ensures r == DecodeAt(src, dataStart, offset)
  {
    hide DecodeString;
    if offset >= |src| - dataStart {
      return InvalidArgument;
    }
    if dataStart + offset < 0 {
      return OutOfBounds;
    }
    r := StringDecode(src, dataStart + offset);
  }

  /** Lines 503-536 for strings. */
  method TensorToTensor(src: seq<Byte>, numElements: nat, bigEndian: bool) returns (r: Result<seq<Text>>)
    ensures |src| / 8 < numElements ==> r == InvalidArgument
    ensures |src| / 8 >= numElements ==> r == DecodeAll(src, numElements, bigEndian, numElements)
  {
    hide DecodeAt, WordOf;
    if |src| / 8 < numElements {
      return InvalidArgument;
    }
    var dataStart := 8 * numElements;
    var dst: seq<Text> := [];
    for i := 0 to numElements
      invariant DecodeAll(src, numElements, bigEndian, i) == Ok(dst)
    {
      var offset := OffsetAt(src, i, bigEndian);
      var s := DecodeElement(src, dataStart, Signed(offset));
      if !s.Ok? {
        FirstErrorStays(src, numElements, bigEndian, i + 1, numElements);
        return if s.InvalidArgument? then InvalidArgument else OutOfBounds;
      }
      dst := dst + [s.value];
    }
    return Ok(dst);
  }

  // ---- Round trip ----

  lemma {:induction false} DecodeEncoded(s: Text, rest: seq<Byte>)
    requires |s| < UINT64_LIMIT
    ensures DecodeString(Encoded(s) + rest) == Ok(s)
  {
    VarintRoundTrip(|s|, 0, s + rest);
    assert Encoded(s) + rest == Varint(|s|) + (s + rest);
    assert (Encoded(s) + rest)[|Varint(|s|)|..|Varint(|s|)| + |s|] == s;
  }

  lemma {:induction false} OffsetOf(strings: seq<Text>, bigEndian: bool, count: nat, i: nat)
    requires i < count <= |strings|
    ensures Offsets(strings, count, bigEndian)[8 * i..8 * i + 8] == WordBytes(|Data(strings[..i])|, 8, bigEndian)
  {
    hide WordBytes;
    if i < count - 1 {
      OffsetOf(strings, bigEndian, count - 1, i);
      assert Offsets(strings, count, bigEndian)[8 * i..8 * i + 8]
        == Offsets(strings, count - 1, bigEndian)[8 * i..8 * i + 8];
    }
  }

  lemma {:induction false} OffsetIs(strings: seq<Text>, bigEndian: bool, i: nat)
    requires i < |strings| && |Data(strings[..i])| < UINT64_LIMIT
    ensures OffsetAt(Layout(strings, bigEndian), i, bigEndian) == |Data(strings[..i])|
  {
    hide Data, WordBytes, WordOf;
    var src := Layout(strings, bigEndian);
    OffsetOf(strings, bigEndian, |strings|, i);
    assert src[8 * i..8 * i + 8] == Offsets(strings, |strings|, bigEndian)[8 * i..8 * i + 8];
    WordLimit64();
    WordRoundTrip(|Data(strings[..i])|, 8, bigEndian);
  }

  lemma {:induction false} DataFrom(strings: seq<Text>, i: nat)
    requires i < |strings|
    ensures |Data(strings[..i])| < |Data(strings)|
    ensures Data(strings)[|Data(strings[..i])|..] == Encoded(strings[i]) + Data(strings[i + 1..])
  {
    hide Data, Encoded;
    DataStep(strings, i);
    assert strings == strings[..i + 1] + strings[i + 1..];
    DataConcat(strings[..i + 1], strings[i + 1..]);
  }

  lemma {:induction false} ElementDecodes(strings: seq<Text>, bigEndian: bool, i: nat)
    requires i < |strings| && |Layout(strings, bigEndian)| < INT64_LIMIT
    ensures var src := Layout(strings, bigEndian);
            DecodeAt(src, 8 * |strings|, Signed(OffsetAt(src, i, bigEndian))) == Ok(strings[i])
  {
    hide Data, Encoded, OffsetAt, DecodeString;
    var src, n := Layout(strings, bigEndian), |strings|;
    LayoutLength(strings, bigEndian);
    assert src[8 * n..] == Data(strings);
    assert src[8 * n + |Data(strings[..i])|..] == Data(strings)[|Data(strings[..i])|..] by {
      DataFrom(strings, i);
    }
    DataFrom(strings, i);
    OffsetIs(strings, bigEndian, i);
    DataStep(strings, i);
    DecodeEncoded(strings[i], Data(strings[i + 1..]));
  }

  /** Whatever the strings, decoding their layout gives them back. */
  lemma {:induction false} StringsRoundTrip(strings: seq<Text>, bigEndian: bool, count: nat)
    requires count <= |strings| && |Layout(strings, bigEndian)| < INT64_LIMIT
    ensures DecodeAll(Layout(strings, bigEndian), |strings|, bigEndian, count) == Ok(strings[..count])
  {
    hide DecodeAt, Layout, OffsetAt, Signed;
    if count > 0 {
      StringsRoundTrip(strings, bigEndian, count - 1);
      ElementDecodes(strings, bigEndian, count - 1);
      assert strings[..count] == strings[..count - 1] + [strings[count - 1]];
    }
  }

  // ---- Byte by byte ----

  /** The encoded sizes of the strings, summed up. */
  function Sizes(lengths: seq<nat>): nat {
    if lengths == [] then 0 else Sizes(lengths[..|lengths| - 1]) + EncodedSize(lengths[|lengths| - 1])
  }

  function Lengths(strings: seq<Text>): seq<nat> {
    seq(|strings|, i requires 0 <= i < |strings| => |strings[i]|)
  }

  lemma {:induction false} DataSize(strings: seq<Text>)
    ensures |Data(strings)| == Sizes(Lengths(strings))
  {
    hide Encoded, EncodedSize;
    if strings != [] {
      DataSize(strings[..|strings| - 1]);
      assert Lengths(strings)[..|strings| - 1] == Lengths(strings[..|strings| - 1]);
    }
  }

  /** Entry i of the table is, byte by byte, the size of all strings before string i. */
  lemma {:induction false} TableByteAt(strings: seq<Text>, bigEndian: bool, i: nat, j: nat)
    requires i < |strings| && j < 8
    ensures |Layout(strings, bigEndian)| == 8 * |strings| + Sizes(Lengths(strings)) && WordLimit(j) > 0
    ensures Layout(strings, bigEndian)[8 * i + if bigEndian then 7 - j else j] ==
            Sizes(Lengths(strings[..i])) / WordLimit(j) % 256
  {
    var layout, table := Layout(strings, bigEndian), Offsets(strings, |strings|, bigEndian);
    hide Data, WordBytes, Offsets, WordLimit, Sizes, Lengths;
    DataSize(strings);
    DataSize(strings[..i]);
    OffsetOf(strings, bigEndian, |strings|, i);
    WordByteAt(|Data(strings[..i])|, 8, bigEndian, j);
    var in0 := if bigEndian then 7 - j else j;
    assert layout == table + Data(strings);
    hide Layout;
    assert table[8 * i..8 * i + 8][in0] == table[8 * i + in0] == layout[8 * i + in0];
  }

  /** There, behind the table, come the length of string i as a varint and its bytes. */
  lemma {:induction false} StringAt(strings: seq<Text>, bigEndian: bool, i: nat)
    requires i < |strings|
    ensures var layout, length := Layout(strings, bigEndian), |strings[i]|;
            var start := 8 * |strings| + Sizes(Lengths(strings[..i]));
            && start + |Varint(length)| + length <= |layout|
            && layout[start..start + |Varint(length)|] == Varint(length)
            && layout[start + |Varint(length)|..start + |Varint(length)| + length] == strings[i]
  {
    hide Data, Offsets, Varint, Sizes, Lengths;
    var layout, offset := Layout(strings, bigEndian), |Data(strings[..i])|;
    DataSize(strings[..i]);
    DataFrom(strings, i);
    var rest := Data(strings)[offset..];
    assert layout[8 * |strings| + offset..] == rest;
    assert rest == Varint(|strings[i]|) + strings[i] + Data(strings[i + 1..]);
    SlicesOf(layout, 8 * |strings| + offset, Varint(|strings[i]|), strings[i], Data(strings[i + 1..]));
  }

  lemma {:induction false} SlicesOf(s: seq<Byte>, at: nat, a: seq<Byte>, b: seq<Byte>, c: seq<Byte>)
    requires at <= |s| && s[at..] == a + b + c
    ensures at + |a| + |b| <= |s| && s[at..at + |a|] == a && s[at + |a|..at + |a| + |b|] == b
  {
    assert forall k :: 0 <= k < |a + b + c| ==> s[at + k] == (a + b + c)[k];
  }

  // ---- Any buffer ----

  /** A 64-bit word stands for the signed number it is congruent to. */
  lemma {:induction false} SignedIs(word: nat)
    requires word < UINT64_LIMIT
    ensures -INT64_LIMIT <= Signed(word) < INT64_LIMIT
    ensures Signed(word) == word || Signed(word) == word - UINT64_LIMIT
  {
  }

  /** At p the buffer holds a varint and then s. */
  ghost predicate HoldsString(src: seq<Byte>, p: int, s: Text) {
    && 0 <= p < |src|
    && exists m: nat :: IsVarint(src[p..], 0, m) && |s| == GroupSum(src[p..][..m]) % UINT64_LIMIT
                        && p + m + |s| <= |src| && s == src[p + m..p + m + |s|]
  }

  lemma {:induction false} DecodedIsHeld(src: seq<Byte>, p: nat, s: Text)
    requires p < |src| && DecodeString(src[p..]) == Ok(s)
    ensures HoldsString(src, p, s)
  {
    var bytes := src[p..];
    hide ReadVarint, GroupSum;
    var d := ReadVarint(bytes, 0).value;
    ReadVarintIff(bytes, d.value, d.length);
    assert bytes[d.length..d.length + d.value] == src[p + d.length..p + d.length + d.value];
  }

  lemma {:induction false} HeldIsDecoded(src: seq<Byte>, p: nat, s: Text)
    requires p < |src| && HoldsString(src, p, s)
    ensures DecodeString(src[p..]) == Ok(s)
  {
    var bytes := src[p..];
    var m: nat :| IsVarint(bytes, 0, m) && |s| == GroupSum(bytes[..m]) % UINT64_LIMIT
                  && p + m + |s| <= |src| && s == src[p + m..p + m + |s|];
    hide ReadVarint, IsVarint, GroupSum, HoldsString, DecodeString;
    ReadVarintIff(bytes, |s|, m);
    HeldAt(src, p, s, m);
  }

  lemma {:induction false} HeldAt(src: seq<Byte>, p: nat, s: Text, m: nat)
    requires p + m + |s| <= |src| && s == src[p + m..p + m + |s|]
    requires ReadVarint(src[p..], 0).Some? && ReadVarint(src[p..], 0).value == Decoded(|s|, m)
    ensures DecodeString(src[p..]) == Ok(s)
  {
    hide ReadVarint;
    assert src[p..][m..m + |s|] == src[p + m..p + m + |s|];
  }

  lemma {:induction false} DecodeStringIff(src: seq<Byte>, p: nat, s: Text)
    requires p < |src|
    ensures DecodeString(src[p..]) == Ok(s) <==> HoldsString(src, p, s)
  {
    hide DecodeString, HoldsString;
    if DecodeString(src[p..]) == Ok(s) {
      DecodedIsHeld(src, p, s);
    }
    if HoldsString(src, p, s) {
      HeldIsDecoded(src, p, s);
    }
  }

  /** Entry i of the table, as a signed offset from behind the table. */
  ghost predicate IsOffset(src: seq<Byte>, i: nat, bigEndian: bool, offset: int) {
    && -INT64_LIMIT <= offset < INT64_LIMIT && 8 * i + 8 <= |src|
    && src[8 * i..8 * i + 8] == WordBytes(if offset < 0 then offset + UINT64_LIMIT else offset, 8, bigEndian)
  }

  lemma {:induction false} OffsetIff(src: seq<Byte>, i: nat, bigEndian: bool, offset: int)
    requires 8 * i + 8 <= |src|
    ensures Signed(OffsetAt(src, i, bigEndian)) == offset <==> IsOffset(src, i, bigEndian, offset)
  {
    BytesRoundTrip(src[8 * i..8 * i + 8], bigEndian);
    WordLimit64();
    SignedIs(OffsetAt(src, i, bigEndian));
    hide WordBytes, WordOf, WordLimit;
    if IsOffset(src, i, bigEndian, offset) {
      WordRoundTrip(if offset < 0 then offset + UINT64_LIMIT else offset, 8, bigEndian);
    }
  }

  /** Entry i of the table points to s. */
  ghost predicate EntryHolds(src: seq<Byte>, n: nat, bigEndian: bool, i: nat, s: Text) {
    exists offset :: IsOffset(src, i, bigEndian, offset) && HoldsString(src, 8 * n + offset, s)
  }

  lemma {:induction false} DecodeAtHolds(src: seq<Byte>, dataStart: nat, offset: int, s: Text)
    requires dataStart <= |src|
    ensures DecodeAt(src, dataStart, offset) == Ok(s) <==> HoldsString(src, dataStart + offset, s)
  {
    hide DecodeString;
    if 0 <= dataStart + offset < |src| {
      DecodeStringIff(src, dataStart + offset, s);
    }
  }

  lemma {:induction false} DecodeAtIff(src: seq<Byte>, n: nat, bigEndian: bool, i: nat, s: Text)
    requires 8 * n <= |src| && i < n
    ensures DecodeAt(src, 8 * n, Signed(OffsetAt(src, i, bigEndian))) == Ok(s) <==>
              EntryHolds(src, n, bigEndian, i, s)
  {
    hide IsOffset, HoldsString, DecodeAt, OffsetAt, Signed;
    var offset := Signed(OffsetAt(src, i, bigEndian));
    OffsetIff(src, i, bigEndian, offset);
    DecodeAtHolds(src, 8 * n, offset, s);
    forall o | IsOffset(src, i, bigEndian, o) ensures o == offset {
      OffsetIff(src, i, bigEndian, o);
    }
  }

  /** Whatever the buffer: decoding gives the strings iff each of them stands, behind a varint that tells its
      length, where the signed entry of the table points to. */
  lemma {:induction false} DecodeAllIff(src: seq<Byte>, n: nat, bigEndian: bool, count: nat, strings: seq<Text>)
    requires 8 * n <= |src| && count <= n
    ensures DecodeAll(src, n, bigEndian, count) == Ok(strings) <==>
              |strings| == count && forall i :: 0 <= i < count ==> EntryHolds(src, n, bigEndian, i, strings[i])
  {
    hide EntryHolds, DecodeAt, Signed, OffsetAt;
    if count > 0 {
      var last := count - 1;
      if DecodeAll(src, n, bigEndian, count) == Ok(strings) {
        var before := DecodeAll(src, n, bigEndian, last).value;
        DecodeAllIff(src, n, bigEndian, last, before);
        assert strings == before + [strings[|strings| - 1]];
        DecodeAtIff(src, n, bigEndian, last, strings[|strings| - 1]);
      }
      if |strings| == count && forall i :: 0 <= i < count ==> EntryHolds(src, n, bigEndian, i, strings[i]) {
        DecodeAllIff(src, n, bigEndian, last, strings[..last]);
        DecodeAtIff(src, n, bigEndian, last, strings[last]);
        assert strings == strings[..last] + [strings[last]];
      }
    }
  }
}
