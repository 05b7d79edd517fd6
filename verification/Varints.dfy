/** Base 128 varints: EncodeVarint64, VarintLength and GetVarint64Ptr of
    tensorflow/core/lib/core/coding.cc. Shifts by 7 are divisions by 128, and the groups of seven
    bits that `|` combines do not overlap, so it is written as addition. */
module Varints {
  import opened Collections
  import opened Bytes
  import opened Words

  datatype Decoded = Decoded(value: nat, length: nat)

  /** Seven bits a byte, lowest first; the high bit marks that more bytes follow. */
  function Varint(v: nat): (s: seq<Byte>)
    ensures |s| > 0
  {
    if v < 128 then [v] else [v % 128 + 128] + Varint(v / 128)
  }

  function Power128(k: nat): (p: nat)
    ensures p > 0
  {
    if k == 0 then 1 else 128 * Power128(k - 1)
  }

  /** `bits << 7 * k` on 64-bit words. */
  function Shifted(bits: nat, k: nat): nat {
    bits * Power128(k) % UINT64_LIMIT
  }

  /** The varint at the start of s, whose first byte is group k; at most ten groups. */
  function ReadVarint(s: seq<Byte>, k: nat): (r: Option<Decoded>)
    ensures r.Some? ==> r.value.length <= |s|
    decreases |s|
  {
    if k > 9 || s == [] then None
    else if s[0] < 128 then Some(Decoded(Shifted(s[0], k), 1))
    else
      match ReadVarint(s[1..], k + 1)
      case None => None
      case Some(d) => Some(Decoded(Shifted(s[0] - 128, k) + d.value, d.length + 1))
  }

  lemma {:induction false} Power128At10()
    ensures Power128(9) * 2 == UINT64_LIMIT && Power128(10) > UINT64_LIMIT
  {
    assert Power128(2) == 16384;
    assert Power128(4) == 268435456;
    assert Power128(6) == 0x400_0000_0000;
    assert Power128(8) == 0x100_0000_0000_0000;
  }

  lemma {:induction false} Power128Grows(j: nat, k: nat)
    requires j <= k
    ensures Power128(j) <= Power128(k)
  {
    if j < k {
      Power128Grows(j, k - 1);
    }
  }

  /** A 64-bit value takes at most ten bytes. */
  lemma {:induction false} VarintIsShort(v: nat, k: nat)
    requires v < Power128(k) && k > 0
    ensures |Varint(v)| <= k
  {
    assert Power128(1) == 128;
    if v >= 128 {
      VarintIsShort(v / 128, k - 1);
    }
  }

  lemma {:induction false} Regroup(v: nat, p: nat)
    ensures v % 128 * p + v / 128 * (128 * p) == v * p
    ensures v / 128 * (128 * p) <= v * p && v % 128 * p <= v * p
  {
    assert v == v % 128 + 128 * (v / 128);
    calc {
      v * p;
      (v % 128 + 128 * (v / 128)) * p;
      v % 128 * p + 128 * (v / 128) * p;
      v % 128 * p + v / 128 * (128 * p);
    }
  }

  /** Decoding undoes encoding and leaves what follows alone. */
  lemma {:induction false} VarintRoundTrip(v: nat, k: nat, rest: seq<Byte>)
    requires v * Power128(k) < UINT64_LIMIT && k <= 9
    ensures ReadVarint(Varint(v) + rest, k) == Some(Decoded(v * Power128(k), |Varint(v)|))
  {
    var p := Power128(k);
    assert Power128(k + 1) == 128 * p;
    hide Power128, Shifted, ReadVarint, Varint;
    VarintStep(v);
    if v < 128 {
      SmallShift(v, k);
      ReadLast(v, rest, k);
    } else {
      Regroup(v, p);
      GroupsLeft(v / 128, k + 1);
      VarintRoundTrip(v / 128, k + 1, rest);
      SmallShift(v % 128, k);
      ReadMore(v % 128, Varint(v / 128), rest, k);
    }
  }

  /** A byte without the high bit ends the varint. */
  lemma {:induction false} ReadLast(bits: nat, rest: seq<Byte>, k: nat)
    requires bits < 128 && k <= 9
    ensures ReadVarint([bits] + rest, k) == Some(Decoded(Shifted(bits, k), 1))
  {
    hide Shifted;
  }

  /** A byte with the high bit adds its group to what follows. */
  lemma {:induction false} ReadMore(bits: nat, more: seq<Byte>, rest: seq<Byte>, k: nat)
    requires bits < 128 && k <= 9 && ReadVarint(more + rest, k + 1).Some?
    ensures var d := ReadVarint(more + rest, k + 1).value;
            ReadVarint([bits + 128] + more + rest, k) == Some(Decoded(Shifted(bits, k) + d.value, d.length + 1))
  {
    hide Shifted;
    var s := [bits + 128] + more + rest;
    assert s[1..] == more + rest && s[0] == bits + 128;
  }

  lemma {:induction false} SmallShift(bits: nat, k: nat)
    requires bits * Power128(k) < UINT64_LIMIT
    ensures Shifted(bits, k) == bits * Power128(k)
  {
    hide Power128;
  }

  lemma {:induction false} GroupsLeft(v: nat, k: nat)
    requires v > 0 && v * Power128(k) < UINT64_LIMIT
    ensures k <= 9
  {
    hide Power128;
    MultipleIsAtLeast(v, Power128(k));
    if k >= 10 {
      Power128At10();
      Power128Grows(10, k);
    }
  }

  lemma {:induction false} MultipleIsAtLeast(v: nat, p: nat)
    requires v > 0
    ensures p <= v * p
  {
  }

  /** Lines 127-134. */
  method VarintLength(v: nat) returns (length: nat)
    ensures length == |Varint(v)|
  {
    length := 1;
    var rest := v;
    while rest >= 128
      invariant length - 1 + |Varint(rest)| == |Varint(v)|
    {
      rest := rest / 128;
      length := length + 1;
    }
  }

  /** Lines 110-119: overwrites exactly the bytes of the varint. */
  method EncodeVarint64(dst: array<Byte>, at: nat, v: nat) returns (next: nat)
    requires at + |Varint(v)| <= dst.Length
    modifies dst
    ensures next == at + |Varint(v)|
    ensures dst[..] == old(dst[..at]) + Varint(v) + old(dst[next..])
  {
    hide Varint;
    next := at;
    var rest := v;
    while rest >= 128
      invariant at <= next <= at + |Varint(v)| && Varint(v)[next - at..] == Varint(rest)
      invariant forall j :: 0 <= j < dst.Length ==>
                  dst[j] == if at <= j < next then Varint(v)[j - at] else old(dst[j])
    {
      VarintStep(rest);
      assert Varint(rest)[1..] == Varint(rest / 128);
      assert Varint(v)[next - at..][0] == Varint(v)[next - at];
      dst[next] := rest % 128 + 128;
      next, rest := next + 1, rest / 128;
    }
    VarintStep(rest);
    assert Varint(v)[next - at..][0] == Varint(v)[next - at];
    dst[next] := rest;
    next := next + 1;
    assert dst[..] == old(dst[..at]) + Varint(v) + old(dst[next..]);
  }

  lemma {:induction false} VarintStep(v: nat)
    ensures v < 128 ==> Varint(v) == [v]
    ensures v >= 128 ==> Varint(v) == [v % 128 + 128] + Varint(v / 128)
  {
  }

  /** Lines 166-181: the value and the index after it, reading below `limit` only. */
  method GetVarint64Ptr(src: seq<Byte>, start: nat, limit: nat) returns (r: Option<Decoded>)
    requires start <= limit <= |src|
    ensures r == ReadVarint(src[start..limit], 0)
  {
    hide Shifted;
    var result: nat, k, p := 0, 0, start;
    while k <= 9 && p < limit
      invariant start <= p <= limit && k == p - start <= 10
      invariant ReadVarint(src[start..limit], 0) ==
                match ReadVarint(src[p..limit], k)
                case None => None
                case Some(d) => Some(Decoded(result + d.value, d.length + k))
      decreases limit - p
    {
      var byte := src[p];
      assert src[p..limit][1..] == src[p + 1..limit];
      p := p + 1;
      if byte >= 128 {
        result := result + Shifted(byte - 128, k);
      } else {
        return Some(Decoded(result + Shifted(byte, k), p - start));
      }
      k := k + 1;
    }
    return None;
  }

  // ---- Byte by byte ----

  lemma {:induction false} VarintBounds(v: nat)
    ensures v < Power128(|Varint(v)|) && (|Varint(v)| > 1 ==> Power128(|Varint(v)| - 1) <= v)
  {
    assert Power128(0) == 1 && Power128(1) == 128;
    if v >= 128 {
      VarintBounds(v / 128);
      var n := |Varint(v / 128)|;
      assert |Varint(v)| == n + 1;
      hide Varint;
      assert Power128(n + 1) == 128 * Power128(n);
      assert n > 1 ==> Power128(n) == 128 * Power128(n - 1);
    }
  }

  /** A varint has as many bytes as its value has groups of seven bits, lowest first, and all but the last
      have the high bit. */
  lemma {:induction false} VarintByteAt(v: nat, i: nat)
    requires i < |Varint(v)|
    ensures Varint(v)[i] == v / Power128(i) % 128 + if i + 1 < |Varint(v)| then 128 else 0
    ensures v < Power128(|Varint(v)|) && (|Varint(v)| > 1 ==> Power128(|Varint(v)| - 1) <= v)
  {
    VarintBounds(v);
    if i == 0 {
      assert Power128(0) == 1;
      hide Power128;
    } else {
      assert Varint(v)[i] == Varint(v / 128)[i - 1] && |Varint(v)| == |Varint(v / 128)| + 1;
      assert Power128(i) == 128 * Power128(i - 1);
      hide Varint, Power128;
      VarintByteAt(v / 128, i - 1);
      DivideTwice(v, 128, Power128(i - 1));
    }
  }

  // ---- Any bytes ----

  /** The groups of seven bits, lowest first, as a number of any size. */
  function GroupSum(s: seq<Byte>): nat {
    if s == [] then 0 else s[0] % 128 + 128 * GroupSum(s[1..])
  }

  /** The first m bytes of s are a varint whose first group has index k: the last byte, and no byte before it,
      is below 128, and there are at most ten groups. */
  ghost predicate IsVarint(s: seq<Byte>, k: nat, m: nat) {
    1 <= m <= |s| && k + m <= 10 && s[m - 1] < 128 && forall i :: 0 <= i < m - 1 ==> s[i] >= 128
  }

  lemma {:induction false} SplitMultiple(a: nat, q: nat, z: nat)
    requires q > 0
    ensures a * z == a * q * (z / q) + a * (z % q)
  {
    var y, r := z / q, z % q;
    assert z == q * y + r;
    assert a * (q * y) == a * q * y;
  }

  lemma {:induction false} MultipleModulo(a: nat, z: nat, q: nat)
    requires a > 0 && q > 0
    ensures a * q > 0 && (a * z) % (a * q) == a * (z % q)
  {
    AtLeastOnce(a, q);
    SplitMultiple(a, q, z);
    RemaindersFit(a, q, 0, z % q);
    RemainderIs(a * z, a * q, z / q, a * (z % q));
  }

  lemma {:induction false} RemainderIs(v: nat, d: nat, q: nat, r: nat)
    requires v == d * q + r && r < d
    ensures v % d == r
  {
    QuotientIs(v, d, q, r);
    assert v == d * (v / d) + v % d;
  }

  /** Adding a low group to a multiple of the next power does not wrap around. */
  lemma {:induction false} AddLowGroup(x: nat, a: nat, z: nat, q: nat)
    requires x < a && q > 0
    ensures a * q > 0 && (x + a * z) % (a * q) == x + (a * z) % (a * q)
  {
    MultipleModulo(a, z, q);
    var y, r := z / q, z % q;
    SplitMultiple(a, q, z);
    RemaindersFit(a, q, x, r);
    RemainderIs(x + a * z, a * q, y, x + a * r);
  }

  lemma {:induction false} PowerDivides(k: nat) returns (q: nat)
    requires k <= 9
    ensures q > 0 && Power128(k) * q == UINT64_LIMIT
    decreases 9 - k
  {
    if k == 9 {
      Power128At10();
      q := 2;
    } else {
      var p := PowerDivides(k + 1);
      q := 128 * p;
      assert Power128(k) * (128 * p) == 128 * Power128(k) * p;
    }
  }

  lemma {:induction false} LowBits(bits: nat, p: nat)
    requires bits < 128 && p > 0
    ensures bits * p < 128 * p
  {
    assert 128 * p == bits * p + (128 - bits) * p;
    AtLeastOnce(p, 128 - bits);
    assert (128 - bits) * p == p * (128 - bits);
  }

  lemma {:induction false} ShiftedSum(bits: nat, sum: nat, k: nat)
    requires bits < 128 && k <= 8
    ensures Shifted(bits + 128 * sum, k) == Shifted(bits, k) + Shifted(sum, k + 1)
  {
    var p, a := Power128(k), Power128(k + 1);
    assert a == 128 * p;
    hide Power128;
    var q := PowerDivides(k + 1);
    LowBits(bits, p);
    assert bits * p < UINT64_LIMIT by {
      AtLeastOnce(a, q);
    }
    SmallShift(bits, k);
    assert (bits + 128 * sum) * p == bits * p + a * sum;
    AddLowGroup(bits * p, a, sum, q);
    assert sum * a == a * sum;
  }

  lemma {:induction false} ReadsVarint(s: seq<Byte>, k: nat, m: nat)
    requires IsVarint(s, k, m)
    ensures ReadVarint(s, k) == Some(Decoded(Shifted(GroupSum(s[..m]), k), m))
    decreases m
  {
    hide Shifted;
    assert s[..m][1..] == s[1..][..m - 1];
    var rest := GroupSum(s[1..][..m - 1]);
    assert GroupSum(s[..m]) == s[0] % 128 + 128 * rest;
    if m == 1 {
      assert rest == 0;
    } else {
      assert IsVarint(s[1..], k + 1, m - 1);
      hide GroupSum;
      ReadsVarint(s[1..], k + 1, m - 1);
      ShiftedSum(s[0] - 128, rest, k);
    }
  }

  lemma {:induction false} ReadIsVarint(s: seq<Byte>, k: nat)
    requires ReadVarint(s, k).Some?
    ensures IsVarint(s, k, ReadVarint(s, k).value.length)
    decreases |s|
  {
    if s[0] >= 128 {
      ReadIsVarint(s[1..], k + 1);
    }
  }

  /** Whatever the bytes: decoding succeeds iff they start with a varint of at most ten groups, and then
      gives its groups as a number, modulo 2^64. */
  lemma {:induction false} ReadVarintIff(s: seq<Byte>, v: nat, m: nat)
    ensures ReadVarint(s, 0) == Some(Decoded(v, m)) <==>
              IsVarint(s, 0, m) && v == GroupSum(s[..m]) % UINT64_LIMIT
  {
    assert Power128(0) == 1;
    if ReadVarint(s, 0).Some? {
      ReadIsVarint(s, 0);
      ReadsVarint(s, 0, ReadVarint(s, 0).value.length);
    }
    if IsVarint(s, 0, m) {
      ReadsVarint(s, 0, m);
    }
  }
}
