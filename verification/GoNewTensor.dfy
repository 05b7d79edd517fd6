/** NewTensor and Tensor.Value of tensorflow/go/tensor.go: a Go value becomes a tensor and back. */
module GoNewTensor {
  import opened Collections
  import opened Bytes
  import opened Words
  import opened StringTensor
  import opened GoValues
  import opened GoTensor
  import opened GoStrings

  /** tensorData views the tensor as an array of this many bytes; a longer one panics. */
  const MAX_TENSOR_BYTES := 0x4000_0000

  datatype Outcome<+T> = Success(value: T) | Error | Panic

  datatype Tensor = Tensor(kind: Kind, shape: seq<nat>, raw: seq<Byte>)

  ghost predicate Supported(kind: Kind) {
    kind.Text? || Fixed(kind)
  }

  /** The size NewTensor allocates. */
  ghost function TensorSize(v: Value, t: Type): nat
    requires HasType(v, t) && Supported(ElemKind(t))
  {
    var n := Product(FirstShape(v, t));
    if ElemKind(t).Text? then n * 8 + |Data(TextsOf(v))| else n * ElemSize(ElemKind(t))
  }

  /** The tensor of a rectangular value. */
  ghost function TensorOf(v: Value, t: Type, bigEndian: bool): Tensor
    requires HasType(v, t)
  {
    Tensor(ElemKind(t), FirstShape(v, t),
           if ElemKind(t).Text? then Layout(TextsOf(v), bigEndian) else LeavesBytes(Flatten(v), ElemKind(t), bigEndian))
  }

  /** The value Tensor.Value gives, or None if it panics. */
  ghost function ValueOf(tensor: Tensor, bigEndian: bool): Option<Value>
    requires Supported(tensor.kind)
  {
    var n := Product(tensor.shape);
    if |tensor.raw| > MAX_TENSOR_BYTES then None
    else if tensor.kind.Text? then
      if 8 * n > |tensor.raw| || !EntriesOk(tensor.raw[..8 * n], tensor.raw[8 * n..], 0, n, bigEndian) then None
      else Some(Unflatten(TextLeaves(tensor.raw[..8 * n], tensor.raw[8 * n..], 0, n, bigEndian), tensor.shape))
    else
      if n * ElemSize(tensor.kind) > |tensor.raw| then None
      else Some(Unflatten(Leaves(tensor.raw, 0, n, tensor.kind, bigEndian), tensor.shape))
  }

  /** Lines 96-102. */
  method NewNumberTensor(v: Value, t: Type, shape: seq<nat>, nbytes: nat, bigEndian: bool) returns (r: Outcome<Tensor>)
    requires HasType(v, t) && Fixed(ElemKind(t)) && shape == FirstShape(v, t) && nbytes == TensorSize(v, t)
    ensures r == if Rectangular(v, shape) then Success(TensorOf(v, t, bigEndian)) else Error
  {
    hide HasType, FirstShape, LeavesBytes, Leaves, Unflatten, ElemSize;
    FirstShapeFitsType(v, t);
    var buf := new ByteBuffer();
    var ok := EncodeTensor(buf, v, t, shape, bigEndian);
    if !ok {
      return Error;
    }
    NumbersRoundTrip(v, t, shape, bigEndian);
    assert buf.contents == TensorOf(v, t, bigEndian).raw;
    if |buf.contents| != nbytes {
      assert false;
    }
    return Success(Tensor(ElemKind(t), shape, buf.contents));
  }

  /** Lines 103-111. */
  method NewStringTensor(v: Value, t: Type, shape: seq<nat>, nflattened: nat, nbytes: nat, bigEndian: bool)
    returns (r: Outcome<Tensor>)
    requires HasType(v, t) && ElemKind(t).Text? && shape == FirstShape(v, t) && nflattened == Product(shape)
    requires nbytes == TensorSize(v, t) <= MAX_TENSOR_BYTES
    ensures r == if Rectangular(v, shape) then Success(TensorOf(v, t, bigEndian)) else Error
  {
    hide HasType, FirstShape, Data, Offsets, Holds, Flatten, Product;
    FirstShapeFitsType(v, t);
    var raw := new Byte[nbytes];
    var e := new StringEncoder(raw, nflattened * 8, bigEndian);
    EmptyData();
    var ok := e.Encode(v, t, shape);
    if !ok {
      return Error;
    }
    LeafCount(v, shape);
    assert e.strings == TextsOf(v);
    if e.offsetsLen != nflattened * 8 {
      assert false;
    }
    HoldsAll(raw[..], TextsOf(v), bigEndian);
    return Success(Tensor(Kind.Text, shape, raw[..]));
  }

  lemma {:induction false} HoldsAll(raw: seq<Byte>, strings: seq<StringTensor.Text>, bigEndian: bool)
    requires Holds(raw, 8 * |strings|, strings, bigEndian) && |raw| == 8 * |strings| + |Data(strings)|
    ensures raw == Layout(strings, bigEndian)
  {
    assert raw == raw[..8 * |strings|] + raw[8 * |strings|..];
  }

  /** Lines 72-113: an unsupported element type or a value that is not rectangular is an error, and
      the computed sizes are always met. */
  method NewTensor(v: Value, t: Type, bigEndian: bool) returns (r: Outcome<Tensor>)
    requires HasType(v, t) && (Supported(ElemKind(t)) || ElemKind(t).Unsupported?) && |Data(TextsOf(v))| < UINT64_LIMIT
    ensures r == if ElemKind(t).Unsupported? then Error
                 else if TensorSize(v, t) > MAX_TENSOR_BYTES then Panic
                 else if Rectangular(v, FirstShape(v, t)) then Success(TensorOf(v, t, bigEndian))
                 else Error
  {
    hide HasType, FirstShape, Data, TextsOf, TensorOf, Rectangular;
    var shape, kind := ShapeAndDataTypeOf(v, t);
    if kind.Unsupported? {
      return Error;
    }
    var nflattened := NumElements(shape);
    var nbytes;
    if kind.Text? {
      var size := ByteSizeOfEncodedStrings(v, t);
      nbytes := nflattened * 8 + size;
    } else {
      nbytes := nflattened * ElemSize(kind);
    }
    if nbytes > MAX_TENSOR_BYTES {
      return Panic;
    }
    if kind.Text? {
      r := NewStringTensor(v, t, shape, nflattened, nbytes, bigEndian);
    } else {
      r := NewNumberTensor(v, t, shape, nbytes, bigEndian);
    }
  }

  /** Lines 170-186. */
  method ValueOfTensor(tensor: Tensor, bigEndian: bool) returns (v: Option<Value>)
    requires Supported(tensor.kind)
    ensures v == ValueOf(tensor, bigEndian)
  {
    hide Leaves, TextLeaves, Unflatten, EntriesOk, ElemSize, Product;
    if |tensor.raw| > MAX_TENSOR_BYTES {
      return None;
    }
    var n := NumElements(tensor.shape);
    if !tensor.kind.Text? {
      var r := new ByteReader(tensor.raw);
      v := DecodeTensor(r, tensor.shape, tensor.kind, bigEndian, 0);
    } else {
      if 8 * n > |tensor.raw| {
        return None;
      }
      var offsets := new ByteReader(tensor.raw[..8 * n]);
      var d := new StringDecoder(offsets, tensor.raw[8 * n..], bigEndian);
      v := d.Decode(tensor.shape, 0);
    }
  }

  /** What NewTensor makes of a value, Value gives back; and C reads the same strings in row-major order. */
  lemma {:induction false} NewTensorRoundTrip(v: Value, t: Type, bigEndian: bool)
    requires HasType(v, t) && Supported(ElemKind(t)) && TensorSize(v, t) <= MAX_TENSOR_BYTES
    requires Rectangular(v, FirstShape(v, t))
    ensures var tensor := TensorOf(v, t, bigEndian);
            && |tensor.raw| == TensorSize(v, t)
            && ValueOf(tensor, bigEndian) == Some(v)
    ensures ElemKind(t).Text? ==>
              var raw, n := TensorOf(v, t, bigEndian).raw, Product(FirstShape(v, t));
              8 * n <= |raw| && DecodeAll(raw, n, bigEndian, n) == Ok(TextsOf(v))
  {
    hide HasType, FirstShape, Leaves, TextLeaves, Unflatten, EntriesOk, ElemSize, Product, Layout, LeavesBytes,
      DecodeAll, Data, TextsOf;
    if ElemKind(t).Text? {
      StringsInteroperate(v, t, FirstShape(v, t), bigEndian);
    } else {
      NumbersRoundTrip(v, t, FirstShape(v, t), bigEndian);
    }
  }

  /** The bytes of a tensor of bools or numbers, at the row-major position of each element: a bool is 1 or 0,
      and byte j of word i, counted from the lowest, is the j-th base 256 digit of the word. */
  lemma {:induction false} TensorBytes(v: Value, t: Type, index: seq<nat>, bigEndian: bool, i: nat, j: nat)
    requires HasType(v, t) && Fixed(ElemKind(t)) && Rectangular(v, FirstShape(v, t))
    requires InShape(index, FirstShape(v, t))
    requires ElemKind(t).Number? ==> i < ElemKind(t).words && j < ElemKind(t).wordSize
    ensures var raw, at := TensorOf(v, t, bigEndian).raw, Position(index, FirstShape(v, t));
            var element := At(v, index, FirstShape(v, t));
            match ElemKind(t)
            case Bool => element.BoolValue? && at < |raw| && raw[at] == if element.b then 1 else 0
            case Number(size, words) =>
              var k := (at * words + i) * size + if bigEndian then size - 1 - j else j;
              && element.NumberValue? && i < |element.words| && 0 <= k < |raw| && WordLimit(j) > 0
              && raw[k] == element.words[i] / WordLimit(j) % 256
  {
    hide HasType, FirstShape, LeavesBytes, WordLimit, Rectangular, Position, At;
    if ElemKind(t).Bool? {
      BoolByte(v, t, FirstShape(v, t), index, bigEndian);
    } else {
      NumberByte(v, t, FirstShape(v, t), index, bigEndian, i, j);
    }
  }

  /** More bools than tensorData can view. */
  ghost function TooMany(): Value {
    List(seq(MAX_TENSOR_BYTES + 1, _ => BoolValue(false)))
  }

  /** So NewTensor panics on this rectangular value. */
  lemma {:induction false} TooManyBytes()
    ensures HasType(TooMany(), Slice(Elem(Bool))) && Supported(Bool)
    ensures TensorSize(TooMany(), Slice(Elem(Bool))) > MAX_TENSOR_BYTES
    ensures Rectangular(TooMany(), FirstShape(TooMany(), Slice(Elem(Bool))))
  {
    var v, t := TooMany(), Slice(Elem(Bool));
    assert forall i :: 0 <= i < |v.elems| ==> v.elems[i] == BoolValue(false);
    assert FirstShape(v.elems[0], t.of) == [];
    var shape := FirstShape(v, t);
    assert shape == [MAX_TENSOR_BYTES + 1] && shape[1..] == [];
    ProductOfOne(MAX_TENSOR_BYTES + 1);
  }
}
