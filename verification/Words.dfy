/** Unsigned machine words and their bytes in memory, for either byte order. */
module Words {
  import opened Bytes

  const UINT64_LIMIT := 0x1_0000_0000_0000_0000

  function WordLimit(size: nat): nat {
    if size == 0 then 1 else 256 * WordLimit(size - 1)
  }

  function LittleEndian(v: nat, size: nat): (s: seq<Byte>)
    ensures |s| == size
  {
    if size == 0 then [] else [v % 256] + LittleEndian(v / 256, size - 1)
  }

  function FromLittleEndian(s: seq<Byte>): nat {
    if s == [] then 0 else s[0] + 256 * FromLittleEndian(s[1..])
  }

  function Reversed(s: seq<Byte>): (r: seq<Byte>)
    ensures |r| == |s|
  {
    seq(|s|, i requires 0 <= i < |s| => s[|s| - 1 - i])
  }

  /** The bytes of a word as the machine stores it. */
  function WordBytes(v: nat, size: nat, bigEndian: bool): (s: seq<Byte>)
    ensures |s| == size
  {
    if bigEndian then Reversed(LittleEndian(v, size)) else LittleEndian(v, size)
  }

  function WordOf(s: seq<Byte>, bigEndian: bool): nat {
    FromLittleEndian(if bigEndian then Reversed(s) else s)
  }

  lemma {:induction false} LittleEndianRoundTrip(v: nat, size: nat)
    requires v < WordLimit(size)
    ensures FromLittleEndian(LittleEndian(v, size)) == v
  {
    if size > 0 {
      LittleEndianRoundTrip(v / 256, size - 1);
      assert LittleEndian(v, size)[1..] == LittleEndian(v / 256, size - 1);
    }
  }

  lemma {:induction false} WordRoundTrip(v: nat, size: nat, bigEndian: bool)
    requires v < WordLimit(size)
    ensures WordOf(WordBytes(v, size, bigEndian), bigEndian) == v
  {
    LittleEndianRoundTrip(v, size);
    assert Reversed(Reversed(LittleEndian(v, size))) == LittleEndian(v, size);
  }

  // ---- Byte by byte ----

  lemma {:induction false} QuotientIs(v: nat, d: nat, q: nat, r: nat)
    requires v == d * q + r && r < d
    ensures v / d == q
  {
    var x := v / d;
    assert v == d * x + v % d;
    if x < q {
      assert d * q == d * x + d * (q - x);
      AtLeastOnce(d, q - x);
    } else if q < x {
      assert d * x == d * q + d * (x - q);
      AtLeastOnce(d, x - q);
    }
  }

  lemma {:induction false} AtLeastOnce(d: nat, k: nat)
    requires k >= 1
    ensures d * k >= d
  {
    assert d * k == d * (k - 1) + d;
  }

  /** Dividing twice is dividing by the product. */
  lemma {:induction false} RemaindersFit(a: nat, b: nat, r1: nat, r2: nat)
    requires r1 < a && r2 < b
    ensures a * r2 + r1 < a * b
  {
    assert a * b == a * r2 + a * (b - r2);
    AtLeastOnce(a, b - r2);
  }

  lemma {:induction false} QuotientTwice(a: nat, b: nat, y: nat, r1: nat, r2: nat)
    requires r1 < a && r2 < b
    ensures a * b > 0 && (a * (b * y + r2) + r1) / (a * b) == y
  {
    AtLeastOnce(a, b);
    RemaindersFit(a, b, r1, r2);
    assert a * (b * y) == a * b * y;
    assert a * (b * y + r2) == a * (b * y) + a * r2;
    QuotientIs(a * (b * y + r2) + r1, a * b, y, a * r2 + r1);
  }

  lemma {:induction false} DivideTwice(v: nat, a: nat, b: nat)
    requires a > 0 && b > 0
    ensures a * b > 0 && v / a / b == v / (a * b)
  {
    var x := v / a;
    assert v == a * x + v % a;
    assert x == b * (x / b) + x % b;
    QuotientTwice(a, b, x / b, v % a, x % b);
  }

  lemma {:induction false} LittleEndianAt(v: nat, size: nat, j: nat)
    requires j < size
    ensures WordLimit(j) > 0 && LittleEndian(v, size)[j] == v / WordLimit(j) % 256
  {
    if j > 0 {
      LittleEndianAt(v / 256, size - 1, j - 1);
      DivideTwice(v, 256, WordLimit(j - 1));
    }
  }

  /** Byte j of a word, counted from the lowest, comes j-th in little-endian and j-th from the end in
      big-endian order. WordLimit(j) is 256 to the power j. */
  lemma {:induction false} WordByteAt(v: nat, size: nat, bigEndian: bool, j: nat)
    requires j < size
    ensures WordLimit(j) > 0
    ensures WordBytes(v, size, bigEndian)[if bigEndian then size - 1 - j else j] == v / WordLimit(j) % 256
  {
    LittleEndianAt(v, size, j);
    var s := LittleEndian(v, size);
    hide LittleEndian, WordLimit;
    assert Reversed(s)[size - 1 - j] == s[j];
  }

  lemma {:induction false} LowByte(b: Byte, rest: nat)
    ensures (b + 256 * rest) % 256 == b && (b + 256 * rest) / 256 == rest
  {
  }

  lemma {:induction false} LittleEndianOf(s: seq<Byte>)
    ensures FromLittleEndian(s) < WordLimit(|s|) && LittleEndian(FromLittleEndian(s), |s|) == s
  {
    if s != [] {
      LittleEndianOf(s[1..]);
      var rest := FromLittleEndian(s[1..]);
      LowByte(s[0], rest);
      assert s == [s[0]] + s[1..];
    }
  }

  /** Any bytes are those of the word they stand for. */
  lemma {:induction false} BytesRoundTrip(s: seq<Byte>, bigEndian: bool)
    ensures WordOf(s, bigEndian) < WordLimit(|s|) && WordBytes(WordOf(s, bigEndian), |s|, bigEndian) == s
  {
    LittleEndianOf(s);
    LittleEndianOf(Reversed(s));
    assert Reversed(Reversed(s)) == s;
  }

  lemma {:induction false} WordLimit64()
    ensures WordLimit(8) == UINT64_LIMIT
  {
    assert WordLimit(4) == 0x1_0000_0000;
  }
}
