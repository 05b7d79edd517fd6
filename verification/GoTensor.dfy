/** The recursive row-major codec for tensors of bools and numbers: encodeTensor and decodeTensor of
    tensorflow/go/tensor.go. */
module GoTensor {
  import opened Collections
  import opened Bytes
  import opened Words
  import opened GoValues

  /** Kinds whose elements all take the same number of bytes. */
  predicate Fixed(kind: Kind) {
    kind.Bool? || (kind.Number? && kind.wordSize > 0 && kind.words > 0)
  }

  function ElemSize(kind: Kind): (size: nat)
    requires Fixed(kind)
    ensures size > 0
  {
    if kind.Bool? then 1 else MulPositive(kind.words, kind.wordSize); kind.words * kind.wordSize
  }

  lemma {:induction false} MulPositive(a: nat, b: nat)
    requires a > 0 && b > 0
    ensures a * b > 0
  {
  }

  // ---- One element ----

  function WordsBytes(words: seq<nat>, size: nat, bigEndian: bool): seq<Byte> {
    if words == [] then [] else
      WordsBytes(words[..|words| - 1], size, bigEndian) + WordBytes(words[|words| - 1], size, bigEndian)
  }

  function LeafBytes(v: Value, kind: Kind, bigEndian: bool): seq<Byte> {
    match v
    case BoolValue(b) => [if b then 1 else 0]
    case NumberValue(words) => if kind.Number? then WordsBytes(words, kind.wordSize, bigEndian) else []
    case _ => []
  }

  function LeafOf(bytes: seq<Byte>, kind: Kind, bigEndian: bool): Value
    requires Fixed(kind) && |bytes| == ElemSize(kind)
  {
    if kind.Bool? then BoolValue(bytes[0] == 1)
    else
      var w := kind.wordSize;
      NumberValue(seq(kind.words, i requires 0 <= i < kind.words =>
        SliceFits(kind.words, i, w);
        WordOf(bytes[i * w..i * w + w], bigEndian)))
  }

  lemma {:induction false} WordsBytesLength(words: seq<nat>, size: nat, bigEndian: bool)
    ensures |WordsBytes(words, size, bigEndian)| == |words| * size
  {
    if words != [] {
      WordsBytesLength(words[..|words| - 1], size, bigEndian);
      MulAdd(|words| - 1, 1, size);
    }
  }

  lemma {:induction false} WordAt(words: seq<nat>, size: nat, bigEndian: bool, i: nat)
    requires i < |words|
    ensures 0 <= i * size <= i * size + size <= |WordsBytes(words, size, bigEndian)|
    ensures WordsBytes(words, size, bigEndian)[i * size..i * size + size] == WordBytes(words[i], size, bigEndian)
  {
    hide WordBytes;
    var last := |words| - 1;
    WordsBytesLength(words, size, bigEndian);
    WordsBytesLength(words[..last], size, bigEndian);
    SliceFits(|words|, i, size);
    if i < last {
      WordAt(words[..last], size, bigEndian, i);
    }
  }

  lemma {:induction false} NumberRoundTrip(v: Value, kind: Kind, bigEndian: bool)
    requires Fixed(kind) && kind.Number? && IsLeafOf(v, kind)
    ensures |LeafBytes(v, kind, bigEndian)| == ElemSize(kind)
    ensures LeafOf(LeafBytes(v, kind, bigEndian), kind, bigEndian) == v
  {
    hide WordBytes, WordOf, WordsBytes, WordLimit;
    WordsBytesLength(v.words, kind.wordSize, bigEndian);
    var bytes := WordsBytes(v.words, kind.wordSize, bigEndian);
    assert LeafBytes(v, kind, bigEndian) == bytes;
    var u := LeafOf(bytes, kind, bigEndian);
    forall i | 0 <= i < kind.words ensures u.words[i] == v.words[i] {
      WordAt(v.words, kind.wordSize, bigEndian, i);
      WordRoundTrip(v.words[i], kind.wordSize, bigEndian);
    }
    assert u.words == v.words;
  }

  lemma {:induction false} LeafRoundTrip(v: Value, kind: Kind, bigEndian: bool)
    requires Fixed(kind) && IsLeafOf(v, kind)
    ensures |LeafBytes(v, kind, bigEndian)| == ElemSize(kind)
    ensures LeafOf(LeafBytes(v, kind, bigEndian), kind, bigEndian) == v
  {
    if kind.Number? {
      NumberRoundTrip(v, kind, bigEndian);
    }
  }

  // ---- Many elements ----

  function LeavesBytes(vs: seq<Value>, kind: Kind, bigEndian: bool): seq<Byte> {
    if vs == [] then [] else
      LeavesBytes(vs[..|vs| - 1], kind, bigEndian) + LeafBytes(vs[|vs| - 1], kind, bigEndian)
  }

  lemma {:induction false} LeavesBytesConcat(a: seq<Value>, b: seq<Value>, kind: Kind, bigEndian: bool)
    ensures LeavesBytes(a + b, kind, bigEndian) == LeavesBytes(a, kind, bigEndian) + LeavesBytes(b, kind, bigEndian)
  {
    hide LeafBytes;
    if b == [] {
      assert a + b == a;
    } else {
      assert (a + b)[..|a + b| - 1] == a + b[..|b| - 1];
      LeavesBytesConcat(a, b[..|b| - 1], kind, bigEndian);
    }
  }

  ghost predicate AreLeavesOf(vs: seq<Value>, kind: Kind) {
    forall i :: 0 <= i < |vs| ==> IsLeafOf(vs[i], kind)
  }

  lemma {:induction false} LeavesBytesLength(vs: seq<Value>, kind: Kind, bigEndian: bool)
    requires Fixed(kind) && AreLeavesOf(vs, kind)
    ensures |LeavesBytes(vs, kind, bigEndian)| == |vs| * ElemSize(kind)
  {
    if vs != [] {
      hide LeafBytes, IsLeafOf, ElemSize;
      LeavesBytesLength(vs[..|vs| - 1], kind, bigEndian);
      LeafRoundTrip(vs[|vs| - 1], kind, bigEndian);
      MulAdd(|vs| - 1, 1, ElemSize(kind));
    }
  }

  lemma {:induction false} LeafAt(vs: seq<Value>, kind: Kind, bigEndian: bool, i: nat)
    requires Fixed(kind) && AreLeavesOf(vs, kind) && i < |vs|
    ensures var size := ElemSize(kind);
            && 0 <= i * size <= i * size + size <= |LeavesBytes(vs, kind, bigEndian)|
            && LeavesBytes(vs, kind, bigEndian)[i * size..i * size + size] == LeafBytes(vs[i], kind, bigEndian)
  {
    hide LeafBytes, IsLeafOf, ElemSize;
    var last, size := |vs| - 1, ElemSize(kind);
    LeavesBytesLength(vs, kind, bigEndian);
    LeavesBytesLength(vs[..last], kind, bigEndian);
    SliceFits(|vs|, i, size);
    if i < last {
      LeafAt(vs[..last], kind, bigEndian, i);
    }
  }

  /** `count` elements of the data from the k-th on. */
  function Leaves(data: seq<Byte>, k: nat, count: nat, kind: Kind, bigEndian: bool): (vs: seq<Value>)
    requires Fixed(kind) && (k + count) * ElemSize(kind) <= |data|
    ensures |vs| == count
  {
    var size := ElemSize(kind);
    seq(count, i requires 0 <= i < count =>
      SliceFits(k + count, k + i, size);
      LeafOf(data[(k + i) * size..(k + i) * size + size], kind, bigEndian))
  }

  lemma {:induction false} LeavesRoundTrip(vs: seq<Value>, kind: Kind, bigEndian: bool)
    requires Fixed(kind) && AreLeavesOf(vs, kind)
    ensures var data := LeavesBytes(vs, kind, bigEndian);
            |data| == |vs| * ElemSize(kind) && Leaves(data, 0, |vs|, kind, bigEndian) == vs
  {
    hide LeavesBytes, LeafBytes, LeafOf, ElemSize, IsLeafOf;
    var data, size := LeavesBytes(vs, kind, bigEndian), ElemSize(kind);
    LeavesBytesLength(vs, kind, bigEndian);
    forall i | 0 <= i < |vs| ensures Leaves(data, 0, |vs|, kind, bigEndian)[i] == vs[i] {
      LeafAt(vs, kind, bigEndian, i);
      LeafRoundTrip(vs[i], kind, bigEndian);
    }
  }

  lemma {:induction false} FlattenGivesLeaves(v: Value, t: Type)
    requires HasType(v, t)
    ensures AreLeavesOf(Flatten(v), ElemKind(t))
    decreases t, 0
  {
    if !t.Elem? {
      FlattenAllGivesLeaves(v.elems, t.of);
    }
  }

  lemma {:induction false} FlattenAllGivesLeaves(vs: seq<Value>, t: Type)
    requires forall i :: 0 <= i < |vs| ==> HasType(vs[i], t)
    ensures AreLeavesOf(FlattenAll(vs), ElemKind(t))
    decreases t, 1, vs
  {
    if vs != [] {
      FlattenGivesLeaves(vs[0], t);
      FlattenAllGivesLeaves(vs[1..], t);
    }
  }

  /** The promise: the bytes of a rectangular value have the computed size and decode to it. */
  lemma {:induction false} NumbersRoundTrip(v: Value, t: Type, shape: seq<nat>, bigEndian: bool)
    requires HasType(v, t) && Rectangular(v, shape) && Fixed(ElemKind(t))
    ensures var data := LeavesBytes(Flatten(v), ElemKind(t), bigEndian);
            && |data| == Product(shape) * ElemSize(ElemKind(t))
            && Unflatten(Leaves(data, 0, Product(shape), ElemKind(t), bigEndian), shape) == v
  {
    hide Leaves, LeavesBytes, HasType, Unflatten, Product;
    FlattenGivesLeaves(v, t);
    FlattenRoundTrip(v, shape);
    LeavesRoundTrip(Flatten(v), ElemKind(t), bigEndian);
  }

  // ---- Byte by byte ----

  /** Where byte j of word i of the element at position `at` lies, bytes counted from the lowest. */
  function ByteIndex(kind: Kind, at: nat, i: nat, j: nat, bigEndian: bool): int
    requires kind.Number?
  {
    (at * kind.words + i) * kind.wordSize + if bigEndian then kind.wordSize - 1 - j else j
  }

  /** The same, element first. */
  lemma {:induction false} IndexSplits(kind: Kind, at: nat, i: nat, j: nat, bigEndian: bool)
    requires kind.Number? && Fixed(kind) && i < kind.words && j < kind.wordSize
    ensures var in0 := if bigEndian then kind.wordSize - 1 - j else j;
            && ByteIndex(kind, at, i, j, bigEndian) == at * ElemSize(kind) + i * kind.wordSize + in0
            && 0 <= i * kind.wordSize <= i * kind.wordSize + in0 < i * kind.wordSize + kind.wordSize <= ElemSize(kind)
  {
    var n, w := kind.words, kind.wordSize;
    MulAdd(at * n, i, w);
    MulAssociates(at, n, w);
    SliceFits(n, i, w);
  }

  lemma {:induction false} WordsByteAt(words: seq<nat>, w: nat, bigEndian: bool, i: nat, j: nat)
    requires i < |words| && j < w
    ensures var at := i * w + if bigEndian then w - 1 - j else j;
            && 0 <= at < |WordsBytes(words, w, bigEndian)| && WordLimit(j) > 0
            && WordsBytes(words, w, bigEndian)[at] == words[i] / WordLimit(j) % 256
  {
    hide *;
    WordAt(words, w, bigEndian, i);
    WordByteAt(words[i], w, bigEndian, j);
    ByteOfSlice(WordsBytes(words, w, bigEndian), i * w, w, if bigEndian then w - 1 - j else j);
  }

  lemma {:induction false} LeafByteAt(v: Value, kind: Kind, bigEndian: bool, i: nat, j: nat)
    requires Fixed(kind) && kind.Number? && IsLeafOf(v, kind) && i < kind.words && j < kind.wordSize
    ensures var at := i * kind.wordSize + if bigEndian then kind.wordSize - 1 - j else j;
            && 0 <= at < |LeafBytes(v, kind, bigEndian)| && WordLimit(j) > 0
            && LeafBytes(v, kind, bigEndian)[at] == v.words[i] / WordLimit(j) % 256
  {
    hide WordsBytes, WordLimit;
    WordsByteAt(v.words, kind.wordSize, bigEndian, i, j);
  }

  lemma {:induction false} ElementAt(v: Value, t: Type, shape: seq<nat>, index: seq<nat>, bigEndian: bool)
    requires HasType(v, t) && Rectangular(v, shape) && InShape(index, shape) && Fixed(ElemKind(t))
    ensures var data, at, size :=
              LeavesBytes(Flatten(v), ElemKind(t), bigEndian), Position(index, shape), ElemSize(ElemKind(t));
            && 0 <= at < Product(shape) && |data| == Product(shape) * size
            && 0 <= at * size <= at * size + size <= |data| && IsLeafOf(At(v, index, shape), ElemKind(t))
            && data[at * size..at * size + size] == LeafBytes(At(v, index, shape), ElemKind(t), bigEndian)
  {
    hide LeavesBytes, LeafBytes, HasType, Product, ElemSize, IsLeafOf, Leaves, Unflatten;
    FlattenGivesLeaves(v, t);
    FlattenIsRowMajor(v, index, shape);
    LeafCount(v, shape);
    NumbersRoundTrip(v, t, shape, bigEndian);
    LeafAt(Flatten(v), ElemKind(t), bigEndian, Position(index, shape));
  }

  lemma {:induction false} ByteOfSlice(s: seq<Byte>, from: nat, size: nat, i: nat)
    requires from + size <= |s| && i < size
    ensures s[from..from + size][i] == s[from + i]
  {
  }

  lemma {:induction false} ElementByte(v: Value, t: Type, shape: seq<nat>, index: seq<nat>, bigEndian: bool, i: nat)
    requires HasType(v, t) && Rectangular(v, shape) && InShape(index, shape) && Fixed(ElemKind(t))
    requires i < ElemSize(ElemKind(t))
    ensures var data, at := LeavesBytes(Flatten(v), ElemKind(t), bigEndian),
            Position(index, shape) * ElemSize(ElemKind(t));
            && IsLeafOf(At(v, index, shape), ElemKind(t)) && |data| == Product(shape) * ElemSize(ElemKind(t))
            && 0 <= at + i < |data| && i < |LeafBytes(At(v, index, shape), ElemKind(t), bigEndian)|
            && data[at + i] == LeafBytes(At(v, index, shape), ElemKind(t), bigEndian)[i]
  {
    hide *;
    ElementAt(v, t, shape, index, bigEndian);
    var size := ElemSize(ElemKind(t));
    ByteOfSlice(LeavesBytes(Flatten(v), ElemKind(t), bigEndian), Position(index, shape) * size, size, i);
  }

  /** A bool is one byte, 1 or 0, at its row-major position. */
  lemma {:induction false} BoolByte(v: Value, t: Type, shape: seq<nat>, index: seq<nat>, bigEndian: bool)
    requires HasType(v, t) && Rectangular(v, shape) && InShape(index, shape) && ElemKind(t).Bool?
    ensures var data, at := LeavesBytes(Flatten(v), ElemKind(t), bigEndian), Position(index, shape);
            && at < |data| == Product(shape) && At(v, index, shape).BoolValue?
            && data[at] == if At(v, index, shape).b then 1 else 0
  {
    hide LeavesBytes, HasType, Product, Flatten;
    ElementAt(v, t, shape, index, bigEndian);
    var data, at := LeavesBytes(Flatten(v), ElemKind(t), bigEndian), Position(index, shape);
    assert data[at * 1..at * 1 + 1][0] == data[at];
  }

  /** Byte j of word i of a number, counted from the lowest, is the j-th base 256 digit of the word. */
  lemma {:induction false} NumberByte(v: Value, t: Type, shape: seq<nat>, index: seq<nat>, bigEndian: bool,
                                      i: nat, j: nat)
    requires HasType(v, t) && Rectangular(v, shape) && InShape(index, shape) && Fixed(ElemKind(t))
    requires ElemKind(t).Number? && i < ElemKind(t).words && j < ElemKind(t).wordSize
    ensures var data := LeavesBytes(Flatten(v), ElemKind(t), bigEndian);
            var at := ByteIndex(ElemKind(t), Position(index, shape), i, j, bigEndian);
            && |data| == Product(shape) * (ElemKind(t).words * ElemKind(t).wordSize)
            && 0 <= at < |data| && At(v, index, shape).NumberValue? && i < |At(v, index, shape).words|
            && WordLimit(j) > 0 && data[at] == At(v, index, shape).words[i] / WordLimit(j) % 256
  {
    var kind := ElemKind(t);
    assert ElemSize(kind) == kind.words * kind.wordSize;
    assert forall u :: IsLeafOf(u, kind) ==> u.NumberValue? && |u.words| == kind.words;
    hide *;
    IndexSplits(kind, Position(index, shape), i, j, bigEndian);
    ElementByte(v, t, shape, index, bigEndian, i * kind.wordSize + if bigEndian then kind.wordSize - 1 - j else j);
    LeafByteAt(At(v, index, shape), kind, bigEndian, i, j);
  }

  lemma {:induction false} UnflattenAt(leaves: seq<Value>, shape: seq<nat>, index: seq<nat>)
    requires |leaves| == Product(shape) && InShape(index, shape)
    requires forall i :: 0 <= i < |leaves| ==> !leaves[i].List?
    ensures Rectangular(Unflatten(leaves, shape), shape) && Position(index, shape) < |leaves|
    ensures At(Unflatten(leaves, shape), index, shape) == leaves[Position(index, shape)]
    decreases |shape|
  {
    if shape != [] {
      var p, u := Product(shape[1..]), Unflatten(leaves, shape);
      forall i | 0 <= i < shape[0] ensures Rectangular(u.elems[i], shape[1..]) {
        SliceFits(shape[0], i, p);
        UnflattenAt(leaves[i * p..i * p + p], shape[1..], index[1..]);
      }
      var k := index[0];
      SliceFits(shape[0], k, p);
      UnflattenAt(leaves[k * p..k * p + p], shape[1..], index[1..]);
    }
  }

  /** Conversely, whatever the bytes: a bool is true iff its byte is 1, and a word is the number whose
      base 256 digits are its bytes. */
  lemma {:induction false} DecodedElement(data: seq<Byte>, shape: seq<nat>, kind: Kind, index: seq<nat>,
                                          bigEndian: bool)
    requires Fixed(kind) && Product(shape) * ElemSize(kind) <= |data| && InShape(index, shape)
    ensures var v, at := Unflatten(Leaves(data, 0, Product(shape), kind, bigEndian), shape), Position(index, shape);
            && Rectangular(v, shape) && 0 <= at * ElemSize(kind) <= at * ElemSize(kind) + ElemSize(kind) <= |data|
            && var bytes := data[at * ElemSize(kind)..at * ElemSize(kind) + ElemSize(kind)];
            && (kind.Bool? ==> At(v, index, shape) == BoolValue(bytes[0] == 1))
            && (kind.Number? ==> DecodesTo(bytes, kind, bigEndian, At(v, index, shape)))
  {
    var n, size := Product(shape), ElemSize(kind);
    var leaves := Leaves(data, 0, n, kind, bigEndian);
    var at := Position(index, shape);
    forall i | 0 <= i < |leaves| ensures !leaves[i].List? {
      SliceFits(n, i, size);
      assert leaves[i] == LeafOf(data[(0 + i) * size..(0 + i) * size + size], kind, bigEndian);
    }
    UnflattenAt(leaves, shape, index);
    SliceFits(n, at, size);
    assert leaves[at] == LeafOf(data[at * size..at * size + size], kind, bigEndian);
    hide Unflatten, Product, ElemSize, Rectangular;
    if kind.Number? {
      LeafDecodes(data[at * size..at * size + size], kind, bigEndian);
    }
  }

  /** The words of v have the given bytes. */
  ghost predicate DecodesTo(bytes: seq<Byte>, kind: Kind, bigEndian: bool, v: Value) {
    && kind.Number? && v.NumberValue? && |v.words| == kind.words
    && WordsBytes(v.words, kind.wordSize, bigEndian) == bytes
    && (forall i :: 0 <= i < kind.words ==> v.words[i] < WordLimit(kind.wordSize))
  }

  lemma {:induction false} WordDecodes(bytes: seq<Byte>, kind: Kind, bigEndian: bool, i: nat)
    requires Fixed(kind) && kind.Number? && |bytes| == ElemSize(kind) && i < kind.words
    ensures var v, w := LeafOf(bytes, kind, bigEndian), kind.wordSize;
            && v.NumberValue? && |v.words| == kind.words
            && 0 <= i * w <= i * w + w <= |bytes| && v.words[i] < WordLimit(w)
            && WordBytes(v.words[i], w, bigEndian) == bytes[i * w..i * w + w]
  {
    hide WordBytes, WordLimit, WordOf;
    SliceFits(kind.words, i, kind.wordSize);
    BytesRoundTrip(bytes[i * kind.wordSize..i * kind.wordSize + kind.wordSize], bigEndian);
  }

  lemma {:induction false} LeafDecodes(bytes: seq<Byte>, kind: Kind, bigEndian: bool)
    requires Fixed(kind) && kind.Number? && |bytes| == ElemSize(kind)
    ensures DecodesTo(bytes, kind, bigEndian, LeafOf(bytes, kind, bigEndian))
  {
    var v, w := LeafOf(bytes, kind, bigEndian), kind.wordSize;
    assert v.NumberValue? && |v.words| == kind.words && ElemSize(kind) == kind.words * w;
    hide WordBytes, WordLimit, LeafOf, ElemSize;
    forall i | 0 <= i < kind.words
      ensures v.words[i] < WordLimit(w) && StandsAt(v.words[i], bytes, w, bigEndian, i)
    {
      WordDecodes(bytes, kind, bigEndian, i);
    }
    WordsGather(v.words, bytes, w, bigEndian, |v.words|);
    assert v.words[..|v.words|] == v.words;
    assert bytes[..|v.words| * w] == bytes;
  }

  ghost predicate StandsAt(word: nat, bytes: seq<Byte>, w: nat, bigEndian: bool, i: nat) {
    0 <= i * w <= i * w + w <= |bytes| && WordBytes(word, w, bigEndian) == bytes[i * w..i * w + w]
  }

  lemma {:induction false} WordsGather(words: seq<nat>, bytes: seq<Byte>, w: nat, bigEndian: bool, n: nat)
    requires n <= |words| && |words| * w == |bytes|
    requires forall i :: 0 <= i < |words| ==> StandsAt(words[i], bytes, w, bigEndian, i)
    ensures 0 <= n * w <= |bytes| && WordsBytes(words[..n], w, bigEndian) == bytes[..n * w]
  {
    hide WordBytes;
    MulAdd(n, |words| - n, w);
    MulNonNegative(|words| - n, w);
    MulNonNegative(n, w);
    if n > 0 {
      WordsGather(words, bytes, w, bigEndian, n - 1);
      MulAdd(n - 1, 1, w);
      assert words[..n][..n - 1] == words[..n - 1];
      assert StandsAt(words[n - 1], bytes, w, bigEndian, n - 1);
      var from := (n - 1) * w;
      assert bytes[..from + w] == bytes[..from] + bytes[from..from + w];
    }
  }

  // ---- encodeTensor ----

  class ByteBuffer {
    var contents: seq<Byte>

    constructor ()
      ensures contents == []
    {
      contents := [];
    }

    method Write(bytes: seq<Byte>)
      modifies this
      ensures contents == old(contents) + bytes
    {
      contents := contents + bytes;
    }
  }

  /** binary.Write of a slice of numbers: encodes all elements, then writes once. */
  method BulkWrite(w: ByteBuffer, elems: seq<Value>, kind: Kind, bigEndian: bool)
    modifies w
    ensures w.contents == old(w.contents) + LeavesBytes(elems, kind, bigEndian)
  {
    hide LeafBytes;
    var bytes: seq<Byte> := [];
    for i := 0 to |elems|
      invariant bytes == LeavesBytes(elems[..i], kind, bigEndian) && w.contents == old(w.contents)
    {
      assert elems[..i + 1][..i] == elems[..i];
      bytes := bytes + LeafBytes(elems[i], kind, bigEndian);
    }
    assert elems[..|elems|] == elems;
    w.Write(bytes);
  }

  lemma {:induction false} FlattenScalars(vs: seq<Value>)
    requires forall i :: 0 <= i < |vs| ==> !vs[i].List?
    ensures FlattenAll(vs) == vs
  {
    if vs != [] {
      FlattenScalars(vs[1..]);
    }
  }

  lemma {:induction false} EncodedElement(elems: seq<Value>, i: nat, before: seq<Byte>, kind: Kind, bigEndian: bool)
    requires i < |elems|
    ensures before + LeavesBytes(FlattenAll(elems[..i]), kind, bigEndian)
            + LeavesBytes(Flatten(elems[i]), kind, bigEndian)
            == before + LeavesBytes(FlattenAll(elems[..i + 1]), kind, bigEndian)
  {
    hide LeavesBytes;
    FlattenAllStep(elems, i);
    LeavesBytesConcat(FlattenAll(elems[..i]), Flatten(elems[i]), kind, bigEndian);
  }

  /** Lines 302-347: succeeds exactly on values of the shape, and appends their leaves in row-major order. */
  method EncodeTensor(w: ByteBuffer, v: Value, t: Type, shape: seq<nat>, bigEndian: bool) returns (ok: bool)
    requires HasType(v, t) && Agrees(t, shape) && Fixed(ElemKind(t))
    modifies w
    ensures ok <==> Rectangular(v, shape)
    ensures ok ==> w.contents == old(w.contents) + LeavesBytes(Flatten(v), ElemKind(t), bigEndian)
    decreases t
  {
    hide LeafBytes, LeavesBytes, FlattenAll;
    ghost var before := w.contents;
    if t.Elem? {
      w.Write(LeafBytes(v, t.kind, bigEndian));
      OneLeaf(v, t.kind, bigEndian);
      return true;
    }
    if t.Slice? && |v.elems| != shape[0] {
      return false;
    }
    if |shape| == 1 && |v.elems| > 0 && ElemKind(t).Number? {
      assert forall i :: 0 <= i < |v.elems| ==> HasType(v.elems[i], t.of) && !v.elems[i].List?;
      BulkWrite(w, v.elems, ElemKind(t), bigEndian);
      FlattenScalars(v.elems);
      return true;
    }
    NoLeaves(ElemKind(t), bigEndian);
    assert v.elems[..0] == [];
    for i := 0 to |v.elems|
      invariant forall j :: 0 <= j < i ==> Rectangular(v.elems[j], shape[1..])
      invariant w.contents == before + LeavesBytes(FlattenAll(v.elems[..i]), ElemKind(t), bigEndian)
    {
      var done := EncodeTensor(w, v.elems[i], t.of, shape[1..], bigEndian);
      if !done {
        return false;
      }
      EncodedElement(v.elems, i, before, ElemKind(t), bigEndian);
    }
    assert v.elems[..|v.elems|] == v.elems;
    return true;
  }

  lemma {:induction false} OneLeaf(v: Value, kind: Kind, bigEndian: bool)
    ensures LeavesBytes([v], kind, bigEndian) == LeafBytes(v, kind, bigEndian)
  {
    assert [v][..0] == [];
  }

  lemma {:induction false} NoLeaves(kind: Kind, bigEndian: bool)
    ensures FlattenAll([]) == [] && LeavesBytes([], kind, bigEndian) == []
  {
  }

  // ---- decodeTensor ----

  class ByteReader {
    const data: seq<Byte>
    var pos: nat

    constructor (data: seq<Byte>)
      ensures this.data == data && pos == 0
    {
      this.data, pos := data, 0;
    }

    /** io.ReadFull: all of `size` bytes, or an error. */
    method ReadFull(size: nat) returns (r: Option<seq<Byte>>)
      requires pos <= |data|
      modifies `pos
      ensures r.Some? <==> old(pos) + size <= |data|
      ensures r.Some? ==> r.value == data[old(pos)..old(pos) + size] && pos == old(pos) + size
      ensures r.None? ==> pos == |data|
    {
      if pos + size <= |data| {
        r := Some(data[pos..pos + size]);
        pos := pos + size;
      } else {
        r := None;
        pos := |data|;
      }
    }
  }

  /** The leaves of element i of a value of n elements with p leaves each. */
  lemma {:induction false} LeavesSlice(data: seq<Byte>, k: nat, n: nat, p: nat, i: nat, kind: Kind, bigEndian: bool)
    requires Fixed(kind) && (k + n * p) * ElemSize(kind) <= |data| && i < n
    ensures i * p + p <= n * p && (k + i * p + p) * ElemSize(kind) <= |data|
    ensures Leaves(data, k, n * p, kind, bigEndian)[i * p..i * p + p] == Leaves(data, k + i * p, p, kind, bigEndian)
  {
    hide LeafOf, ElemSize;
    SliceFits(n, i, p);
    MulMonotone(k + i * p + p, k + n * p, ElemSize(kind));
  }

  lemma {:induction false} MulMonotone(a: nat, b: nat, c: nat)
    requires a <= b
    ensures a * c <= b * c
  {
    assert b * c == a * c + (b - a) * c;
  }

  /** Elements decoded one by one make up the value of the whole shape. */
  lemma {:induction false} UnflattenElements(data: seq<Byte>, k: nat, shape: seq<nat>, kind: Kind, bigEndian: bool,
                                             elems: seq<Value>)
    requires Fixed(kind) && shape != [] && |elems| == shape[0] && (k + Product(shape)) * ElemSize(kind) <= |data|
    requires var p := Product(shape[1..]);
      forall i :: 0 <= i < shape[0] ==> Decoded(data, k + i * p, shape[1..], kind, bigEndian, elems[i])
    ensures Decoded(data, k, shape, kind, bigEndian, List(elems))
  {
    hide Leaves, ElemSize;
    var p := Product(shape[1..]);
    var u := Unflatten(Leaves(data, k, Product(shape), kind, bigEndian), shape);
    forall i | 0 <= i < shape[0] ensures u.elems[i] == elems[i] {
      LeavesSlice(data, k, shape[0], p, i, kind, bigEndian);
      assert Decoded(data, k + i * p, shape[1..], kind, bigEndian, elems[i]);
    }
    assert u.elems == elems;
  }

  /** v is the value of the given shape whose leaves start at the k-th element of the data. */
  ghost predicate Decoded(data: seq<Byte>, k: nat, shape: seq<nat>, kind: Kind, bigEndian: bool, v: Value)
    requires Fixed(kind)
  {
    (k + Product(shape)) * ElemSize(kind) <= |data|
      && v == Unflatten(Leaves(data, k, Product(shape), kind, bigEndian), shape)
  }

  method DecodeBytes(bytes: seq<Byte>, n: nat, kind: Kind, bigEndian: bool) returns (elems: seq<Value>)
    requires Fixed(kind) && |bytes| == n * ElemSize(kind)
    ensures elems == Leaves(bytes, 0, n, kind, bigEndian)
  {
    hide LeafOf, ElemSize;
    var size := ElemSize(kind);
    elems := [];
    ghost var leaves := Leaves(bytes, 0, n, kind, bigEndian);
    for i := 0 to n
      invariant elems == leaves[..i]
    {
      SliceFits(n, i, size);
      elems := elems + [LeafOf(bytes[i * size..i * size + size], kind, bigEndian)];
    }
  }

  lemma {:induction false} SliceOfSlice<T>(s: seq<T>, lo: nat, hi: nat, a: nat, b: nat)
    requires lo <= hi <= |s| && a <= b <= hi - lo
    ensures s[lo..hi][a..b] == s[lo + a..lo + b]
  {
    var left, right := s[lo..hi][a..b], s[lo + a..lo + b];
    assert |left| == |right| && forall i :: 0 <= i < |left| ==> left[i] == right[i];
  }

  lemma {:induction false} LeavesFrom(data: seq<Byte>, k: nat, n: nat, kind: Kind, bigEndian: bool)
    requires Fixed(kind) && (k + n) * ElemSize(kind) <= |data|
    ensures var size := ElemSize(kind);
            && k * size + n * size <= |data|
            && Leaves(data[k * size..k * size + n * size], 0, n, kind, bigEndian) == Leaves(data, k, n, kind, bigEndian)
  {
    hide LeafOf, ElemSize;
    var size := ElemSize(kind);
    MulAdd(k, n, size);
    var bytes := data[k * size..k * size + n * size];
    forall i | 0 <= i < n ensures Leaves(bytes, 0, n, kind, bigEndian)[i] == Leaves(data, k, n, kind, bigEndian)[i] {
      SliceFits(n, i, size);
      MulAdd(k, i, size);
      SliceOfSlice(data, k * size, k * size + n * size, i * size, i * size + size);
    }
  }

  /** binary.Read into a slice of n numbers: reads all the bytes, then decodes them. */
  method BulkRead(r: ByteReader, n: nat, kind: Kind, bigEndian: bool, ghost k: nat) returns (v: Option<Value>)
    requires Fixed(kind) && r.pos == k * ElemSize(kind) <= |r.data|
    modifies r`pos
    ensures v.Some? <==> (k + n) * ElemSize(kind) <= |r.data|
    ensures v.Some? ==> Decoded(r.data, k, [n], kind, bigEndian, v.value) && r.pos == (k + n) * ElemSize(kind)
  {
    hide LeafOf, ElemSize, Leaves, Unflatten;
    var size := ElemSize(kind);
    MulAdd(k, n, size);
    var bytes := r.ReadFull(n * size);
    if bytes.None? {
      return None;
    }
    var elems := DecodeBytes(bytes.value, n, kind, bigEndian);
    LeavesFrom(r.data, k, n, kind, bigEndian);
    UnflattenRow(elems);
    return Some(List(elems));
  }

  lemma {:induction false} UnflattenRow(leaves: seq<Value>)
    ensures Product([|leaves|]) == |leaves| && Unflatten(leaves, [|leaves|]) == List(leaves)
  {
    var shape := [|leaves|];
    assert shape[1..] == [] && Product([]) == 1;
    assert Product(shape) == |leaves| * 1;
    var u := Unflatten(leaves, shape);
    forall i | 0 <= i < |leaves| ensures u.elems[i] == leaves[i] {
      var p := Product(shape[1..]);
      assert i * p == i;
      assert leaves[i * p..i * p + p] == [leaves[i]];
      assert u.elems[i] == Unflatten(leaves[i * p..i * p + p], shape[1..]) == leaves[i];
    }
    assert u.elems == leaves;
  }

  /** Lines 351-386: fails exactly when the reader holds too few bytes. */
  method DecodeTensor(r: ByteReader, shape: seq<nat>, kind: Kind, bigEndian: bool, ghost k: nat)
    returns (v: Option<Value>)
    requires Fixed(kind) && r.pos == k * ElemSize(kind) <= |r.data|
    modifies r`pos
    ensures v.Some? <==> (k + Product(shape)) * ElemSize(kind) <= |r.data|
    ensures v.Some? ==>
            Decoded(r.data, k, shape, kind, bigEndian, v.value) && r.pos == (k + Product(shape)) * ElemSize(kind)
    decreases |shape|, 1
  {
    hide Decoded, ElemSize;
    if shape == [] {
      v := ReadLeaf(r, kind, bigEndian, k);
    } else if |shape| == 1 && shape[0] > 0 && kind.Number? {
      assert shape == [shape[0]];
      ProductOfOne(shape[0]);
      v := BulkRead(r, shape[0], kind, bigEndian, k);
    } else {
      v := DecodeElements(r, shape, kind, bigEndian, k);
    }
  }

  lemma {:induction false} ProductOfOne(n: nat)
    ensures Product([n]) == n
  {
    assert Product([]) == 1;
  }

  /** Lines 364-380, without the bulk read. */
  method DecodeElements(r: ByteReader, shape: seq<nat>, kind: Kind, bigEndian: bool, ghost k: nat)
    returns (v: Option<Value>)
    requires shape != [] && Fixed(kind) && r.pos == k * ElemSize(kind) <= |r.data|
    modifies r`pos
    ensures v.Some? <==> (k + Product(shape)) * ElemSize(kind) <= |r.data|
    ensures v.Some? ==>
            Decoded(r.data, k, shape, kind, bigEndian, v.value) && r.pos == (k + Product(shape)) * ElemSize(kind)
    decreases |shape|, 0
  {
    hide Decoded, ElemSize, Leaves, Unflatten;
    var size := ElemSize(kind);
    var elems: seq<Value> := [];
    ghost var p := Product(shape[1..]);
    for i := 0 to shape[0]
      invariant |elems| == i && r.pos == (k + i * p) * size <= |r.data|
      invariant forall j :: 0 <= j < i ==> Decoded(r.data, k + j * p, shape[1..], kind, bigEndian, elems[j])
    {
      SliceFits(shape[0], i, p);
      MulMonotone(k + i * p + p, k + shape[0] * p, size);
      MulAdd(i, 1, p);
      var e := DecodeTensor(r, shape[1..], kind, bigEndian, k + i * p);
      if e.None? {
        return None;
      }
      elems := elems + [e.value];
    }
    UnflattenElements(r.data, k, shape, kind, bigEndian, elems);
    return Some(List(elems));
  }

  method ReadLeaf(r: ByteReader, kind: Kind, bigEndian: bool, ghost k: nat) returns (v: Option<Value>)
    requires Fixed(kind) && r.pos == k * ElemSize(kind) <= |r.data|
    modifies r`pos
    ensures v.Some? <==> (k + 1) * ElemSize(kind) <= |r.data|
    ensures v.Some? ==> Decoded(r.data, k, [], kind, bigEndian, v.value) && r.pos == (k + 1) * ElemSize(kind)
  {
    hide LeafOf, ElemSize;
    MulAdd(k, 1, ElemSize(kind));
    var bytes := r.ReadFull(ElemSize(kind));
    if bytes.None? {
      return None;
    }
    return Some(LeafOf(bytes.value, kind, bigEndian));
  }
}
