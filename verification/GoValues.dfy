/** Go values that NewTensor accepts: scalars and nested slices or arrays of one static type, their
    shapes, and their leaves in row-major order. shapeAndDataTypeOf and numElements of
    tensorflow/go/tensor.go. */
module GoValues {
  import opened Bytes
  import opened Words

  /** Kinds of elements: numbers are one or (complex) two words of a fixed size. */
  datatype Kind = Bool | Number(wordSize: nat, words: nat) | Text | Unsupported

  datatype Type = Elem(kind: Kind) | Slice(of: Type) | Array(length: nat, of: Type)

  datatype Value =
    BoolValue(b: bool) | NumberValue(words: seq<nat>) | TextValue(s: seq<Byte>) | OtherValue | List(elems: seq<Value>)

  ghost predicate IsLeafOf(v: Value, kind: Kind) {
    match kind
    case Bool => v.BoolValue?
    case Number(size, words) =>
      v.NumberValue? && |v.words| == words && forall i :: 0 <= i < words ==> v.words[i] < WordLimit(size)
    case Text => v.TextValue?
    case Unsupported => v.OtherValue?
  }

  ghost predicate HasType(v: Value, t: Type) {
    match t
    case Elem(kind) => IsLeafOf(v, kind)
    case Slice(of) => v.List? && forall i :: 0 <= i < |v.elems| ==> HasType(v.elems[i], of)
    case Array(n, of) => v.List? && |v.elems| == n && forall i :: 0 <= i < |v.elems| ==> HasType(v.elems[i], of)
  }

  function Depth(t: Type): nat {
    if t.Elem? then 0 else 1 + Depth(t.of)
  }

  function ElemKind(t: Type): Kind {
    if t.Elem? then t.kind else ElemKind(t.of)
  }

  function Zeros(n: nat): (s: seq<nat>)
    ensures |s| == n
  {
    seq(n, _ => 0)
  }

  /** Lengths along the first elements; every dimension below an empty one counts as empty. */
  ghost function FirstShape(v: Value, t: Type): (shape: seq<nat>)
    requires HasType(v, t)
    ensures |shape| == Depth(t)
  {
    if t.Elem? then []
    else if v.elems == [] then Zeros(Depth(t))
    else [|v.elems|] + FirstShape(v.elems[0], t.of)
  }

  /** What remains of the shape while walking down the first elements. */
  ghost predicate Descending(v: Value, t: Type, shape: seq<nat>, val: Value, typ: Type)
    requires HasType(v, t)
  {
    || (HasType(val, typ) && FirstShape(v, t) == shape + FirstShape(val, typ))
    || (val == List([]) && FirstShape(v, t) == shape + Zeros(Depth(typ)))
  }

  lemma {:induction false} DescendStep(v: Value, t: Type, shape: seq<nat>, val: Value, typ: Type)
    requires HasType(v, t) && Descending(v, t, shape, val, typ) && !typ.Elem?
    ensures val.List?
    ensures Descending(v, t, shape + [|val.elems|], if |val.elems| > 0 then val.elems[0] else val, typ.of)
  {
    if HasType(val, typ) && FirstShape(v, t) == shape + FirstShape(val, typ) {
      DescendTyped(shape, val, typ);
    } else {
      assert Zeros(Depth(typ)) == [0] + Zeros(Depth(typ.of));
      assert shape + Zeros(Depth(typ)) == shape + [0] + Zeros(Depth(typ.of));
    }
  }

  lemma {:induction false} DescendTyped(shape: seq<nat>, val: Value, typ: Type)
    requires HasType(val, typ) && !typ.Elem?
    ensures if |val.elems| > 0
            then HasType(val.elems[0], typ.of)
              && shape + FirstShape(val, typ) == shape + [|val.elems|] + FirstShape(val.elems[0], typ.of)
            else val == List([]) && shape + FirstShape(val, typ) == shape + [|val.elems|] + Zeros(Depth(typ.of))
  {
    assert Zeros(Depth(typ)) == [0] + Zeros(Depth(typ.of));
  }

  /** Lines 238-257; the kind of an unsupported element type is an error. */
  method ShapeAndDataTypeOf(v: Value, t: Type) returns (shape: seq<nat>, kind: Kind)
    requires HasType(v, t)
    ensures shape == FirstShape(v, t) && kind == ElemKind(t)
  {
    hide HasType, FirstShape;
    var val, typ := v, t;
    shape := [];
    assert [] + FirstShape(v, t) == FirstShape(v, t);
    while !typ.Elem?
      invariant ElemKind(typ) == ElemKind(t) && Descending(v, t, shape, val, typ)
      decreases typ
    {
      hide Descending;
      DescendStep(v, t, shape, val, typ);
      shape := shape + [|val.elems|];
      if |val.elems| > 0 {
        val := val.elems[0];
      }
      typ := typ.of;
    }
    kind := typ.kind;
  }

  /** v has the lengths of `shape` everywhere. */
  predicate Rectangular(v: Value, shape: seq<nat>)
    decreases |shape|
  {
    if v.List? then
      shape != [] && |v.elems| == shape[0] && forall i :: 0 <= i < |v.elems| ==> Rectangular(v.elems[i], shape[1..])
    else shape == []
  }

  /** The same lengths up to the first empty dimension. */
  ghost predicate SameUpToEmpty(a: seq<nat>, b: seq<nat>) {
    |a| == |b| && (a != [] ==> a[0] == b[0] && (a[0] == 0 || SameUpToEmpty(a[1..], b[1..])))
  }

  lemma {:induction false} RectangularUpToEmpty(v: Value, a: seq<nat>, b: seq<nat>)
    requires Rectangular(v, a) && SameUpToEmpty(a, b)
    ensures Rectangular(v, b)
    decreases |a|
  {
    if v.List? {
      forall i | 0 <= i < |v.elems| ensures Rectangular(v.elems[i], b[1..]) {
        RectangularUpToEmpty(v.elems[i], a[1..], b[1..]);
      }
    }
  }

  lemma {:induction false} FirstShapeAgrees(v: Value, t: Type, shape: seq<nat>)
    requires HasType(v, t) && Rectangular(v, shape) && |shape| == Depth(t)
    ensures SameUpToEmpty(shape, FirstShape(v, t))
    decreases t
  {
    if !t.Elem? && v.elems != [] {
      FirstShapeAgrees(v.elems[0], t.of, shape[1..]);
    }
  }

  /** A value is rectangular at all exactly when it is for the shape read off its first elements. */
  lemma {:induction false} FirstShapeDecides(v: Value, t: Type)
    requires HasType(v, t)
    ensures Rectangular(v, FirstShape(v, t)) <==> exists shape :: |shape| == Depth(t) && Rectangular(v, shape)
  {
    if shape :| |shape| == Depth(t) && Rectangular(v, shape) {
      FirstShapeAgrees(v, t, shape);
      RectangularUpToEmpty(v, shape, FirstShape(v, t));
    }
  }

  /** Below an empty dimension every dimension is empty. */
  lemma {:induction false} EmptyBelowEmpty(v: Value, t: Type, d: nat, e: nat)
    requires HasType(v, t) && d <= e < Depth(t) && FirstShape(v, t)[d] == 0
    ensures FirstShape(v, t)[e] == 0
    decreases t
  {
    if v.elems != [] {
      EmptyBelowEmpty(v.elems[0], t.of, d - 1, e - 1);
    }
  }

  /** What Go's type system guarantees about array lengths in a shape, as far as it is not empty. */
  ghost predicate Agrees(t: Type, shape: seq<nat>)
    decreases t
  {
    && |shape| == Depth(t)
    && (!t.Elem? ==> (t.Array? ==> shape[0] == t.length) && (shape[0] > 0 ==> Agrees(t.of, shape[1..])))
  }

  lemma {:induction false} FirstShapeFitsType(v: Value, t: Type)
    requires HasType(v, t)
    ensures Agrees(t, FirstShape(v, t))
    decreases t
  {
    if !t.Elem? && v.elems != [] {
      FirstShapeFitsType(v.elems[0], t.of);
    }
  }

  // ---- Leaves in row-major order ----

  function Product(shape: seq<nat>): nat {
    if shape == [] then 1 else shape[0] * Product(shape[1..])
  }

  /** Lines 277-283. */
  method NumElements(shape: seq<nat>) returns (n: nat)
    ensures n == Product(shape)
  {
    n := 1;
    for i := 0 to |shape|
      invariant n * Product(shape[i..]) == Product(shape)
    {
      assert shape[i..][1..] == shape[i + 1..];
      var p := Product(shape[i + 1..]);
      MulAssociates(n, shape[i], p);
      n := n * shape[i];
    }
  }

  lemma {:induction false} MulAssociates(a: nat, b: nat, c: nat)
    ensures a * (b * c) == a * b * c
  {
  }

  function Flatten(v: Value): seq<Value>
    decreases v, 0
  {
    if v.List? then FlattenAll(v.elems) else [v]
  }

  function FlattenAll(vs: seq<Value>): seq<Value>
    decreases vs, 1
  {
    if vs == [] then [] else Flatten(vs[0]) + FlattenAll(vs[1..])
  }

  lemma {:induction false} FlattenAllConcat(a: seq<Value>, b: seq<Value>)
    ensures FlattenAll(a + b) == FlattenAll(a) + FlattenAll(b)
  {
    if a == [] {
      assert a + b == b;
    } else {
      assert (a + b)[1..] == a[1..] + b;
      FlattenAllConcat(a[1..], b);
    }
  }

  lemma {:induction false} FlattenAllStep(vs: seq<Value>, i: nat)
    requires i < |vs|
    ensures FlattenAll(vs[..i + 1]) == FlattenAll(vs[..i]) + Flatten(vs[i])
  {
    assert vs[..i + 1] == vs[..i] + [vs[i]];
    FlattenAllConcat(vs[..i], [vs[i]]);
    assert FlattenAll([vs[i]]) == Flatten(vs[i]) + FlattenAll([]);
  }

  lemma {:induction false} LeafCount(v: Value, shape: seq<nat>)
    requires Rectangular(v, shape)
    ensures |Flatten(v)| == Product(shape)
    decreases |shape|, 0
  {
    if v.List? {
      LeafCountAll(v.elems, shape[1..], |v.elems|);
      assert v.elems[..|v.elems|] == v.elems;
    }
  }

  lemma {:induction false} LeafCountAll(vs: seq<Value>, shape: seq<nat>, i: nat)
    requires i <= |vs| && forall j :: 0 <= j < |vs| ==> Rectangular(vs[j], shape)
    ensures |FlattenAll(vs[..i])| == i * Product(shape)
    decreases |shape|, 1, i
  {
    if i > 0 {
      LeafCountAll(vs, shape, i - 1);
      LeafCount(vs[i - 1], shape);
      FlattenAllStep(vs, i - 1);
      assert (i - 1) * Product(shape) + Product(shape) == i * Product(shape);
    }
  }

  /** The leaves of element i stand together, in order. */
  lemma {:induction false} LeavesOfElement(vs: seq<Value>, shape: seq<nat>, i: nat)
    requires i < |vs| && forall j :: 0 <= j < |vs| ==> Rectangular(vs[j], shape)
    ensures var p := Product(shape);
            0 <= i * p <= i * p + p <= |FlattenAll(vs)| && FlattenAll(vs)[i * p..i * p + p] == Flatten(vs[i])
  {
    var p := Product(shape);
    LeafCountAll(vs, shape, i);
    LeafCount(vs[i], shape);
    FlattenAllStep(vs, i);
    assert vs == vs[..i + 1] + vs[i + 1..];
    FlattenAllConcat(vs[..i + 1], vs[i + 1..]);
    assert FlattenAll(vs)[..i * p + p] == FlattenAll(vs[..i]) + Flatten(vs[i]);
  }

  lemma {:induction false} MulAdd(a: nat, b: nat, c: nat)
    ensures a * c + b * c == (a + b) * c && 1 * c == c
  {
  }

  lemma {:induction false} MulNonNegative(a: nat, b: nat)
    ensures a * b >= 0
  {
  }

  lemma {:induction false} SliceFits(n: nat, i: nat, p: nat)
    requires i < n
    ensures 0 <= i * p <= i * p + p <= n * p
  {
    MulAdd(i, n - i, p);
    MulAdd(1, n - i - 1, p);
    MulNonNegative(i, p);
    MulNonNegative(n - i - 1, p);
  }

  /** The value of a shape with the given leaves in row-major order. */
  function Unflatten(leaves: seq<Value>, shape: seq<nat>): Value
    requires |leaves| == Product(shape)
    decreases |shape|
  {
    if shape == [] then leaves[0]
    else
      var p := Product(shape[1..]);
      List(seq(shape[0], i requires 0 <= i < shape[0] =>
        SliceFits(shape[0], i, p);
        Unflatten(leaves[i * p..i * p + p], shape[1..])))
  }

  lemma {:induction false} FlattenRoundTrip(v: Value, shape: seq<nat>)
    requires Rectangular(v, shape)
    ensures |Flatten(v)| == Product(shape) && Unflatten(Flatten(v), shape) == v
    decreases |shape|
  {
    LeafCount(v, shape);
    if v.List? {
      var p := Product(shape[1..]);
      var u := Unflatten(Flatten(v), shape);
      forall i | 0 <= i < |v.elems| ensures u.elems[i] == v.elems[i] {
        LeavesOfElement(v.elems, shape[1..], i);
        FlattenRoundTrip(v.elems[i], shape[1..]);
      }
      assert u.elems == v.elems;
    }
  }

  // ---- Row-major order ----

  /** The element at a multi-index, and its position among the leaves. */
  ghost predicate InShape(index: seq<nat>, shape: seq<nat>) {
    |index| == |shape| && forall d :: 0 <= d < |shape| ==> index[d] < shape[d]
  }

  ghost function At(v: Value, index: seq<nat>, shape: seq<nat>): Value
    requires Rectangular(v, shape) && InShape(index, shape)
    decreases |shape|
  {
    if shape == [] then v else At(v.elems[index[0]], index[1..], shape[1..])
  }

  ghost function Position(index: seq<nat>, shape: seq<nat>): nat
    requires InShape(index, shape)
  {
    if shape == [] then 0 else index[0] * Product(shape[1..]) + Position(index[1..], shape[1..])
  }

  lemma {:induction false} FlattenIsRowMajor(v: Value, index: seq<nat>, shape: seq<nat>)
    requires Rectangular(v, shape) && InShape(index, shape)
    ensures Position(index, shape) < |Flatten(v)| && Flatten(v)[Position(index, shape)] == At(v, index, shape)
    decreases |shape|
  {
    if shape != [] {
      LeavesOfElement(v.elems, shape[1..], index[0]);
      FlattenIsRowMajor(v.elems[index[0]], index[1..], shape[1..]);
    }
  }
}
