/** The best-fit arena allocator of tensorflow/lite/simple_memory_arena.cc. */
module MemoryArena {
  import opened Collections
  import opened Bytes

  datatype ArenaAlloc = ArenaAlloc(offset: nat, size: nat)

  function End(a: ArenaAlloc): nat {
    a.offset + a.size
  }

  /** The live blocks are nonempty, in address order, and do not overlap. */
  ghost predicate Packed(allocs: seq<ArenaAlloc>) {
    && (forall i :: 0 <= i < |allocs| ==> allocs[i].size > 0)
    && (forall i, j :: 0 <= i < j < |allocs| ==> End(allocs[i]) <= allocs[j].offset)
  }

  ghost predicate Disjoint(a: ArenaAlloc, b: ArenaAlloc) {
    End(a) <= b.offset || End(b) <= a.offset
  }

  /** Lines 25-28. */
  function AlignTo(alignment: nat, offset: nat): (r: nat)
    requires alignment > 0
    ensures r % alignment == 0 && offset <= r < offset + alignment
  {
    if offset % alignment == 0 then offset
    else
      AlignUp(alignment, offset);
      offset + (alignment - offset % alignment)
  }

  /** What std::memcpy leaves in the destination. */
  function Copied(dest: seq<Byte>, to: nat, source: seq<Byte>, from: nat, amount: nat): (r: seq<Byte>)
    requires to + amount <= |dest| && from + amount <= |source|
    ensures |r| == |dest|
    ensures forall k :: to <= k < to + amount ==> r[k] == source[from + k - to]
    ensures forall k :: 0 <= k < to || to + amount <= k < |dest| ==> r[k] == dest[k]
  {
    dest[..to] + source[from..from + amount] + dest[to + amount..]
  }

  lemma {:induction false} AlignUp(alignment: nat, offset: nat)
    requires alignment > 0
    ensures (offset + (alignment - offset % alignment)) % alignment == 0
  {
    var q, r := offset / alignment, offset % alignment;
    assert offset == alignment * q + r;
    assert alignment * (q + 1) == alignment * q + alignment;
    MultipleIsZero(alignment, q + 1);
  }

  lemma {:induction false} MultipleIsZero(d: nat, q: nat)
    requires d > 0
    ensures (d * q) % d == 0
  {
    var y := d * q;
    var q', r' := y / d, y % d;
    assert y == d * q' + r';
    assert d * (q - q') == d * q - d * q';
    if q > q' {
      AtLeast(d, q - q');
    } else if q < q' {
      AtLeast(d, q' - q);
    }
  }

  lemma {:induction false} AtLeast(d: nat, x: nat)
    requires x >= 1
    ensures d * x >= d
  {
    assert d * x == d * (x - 1) + d;
  }

  /** The gap in front of block i starts here and ends at the block's offset. */
  function GapStart(allocs: seq<ArenaAlloc>, i: nat): nat
    requires i <= |allocs|
  {
    if i == 0 then 0 else End(allocs[i - 1])
  }

  predicate Fits(allocs: seq<ArenaAlloc>, alignment: nat, size: nat, i: nat)
    requires i < |allocs| && alignment > 0
  {
    AlignTo(alignment, GapStart(allocs, i)) + size <= allocs[i].offset
  }

  function Slack(allocs: seq<ArenaAlloc>, i: nat): int
    requires i < |allocs|
  {
    allocs[i].offset - GapStart(allocs, i)
  }

  /** The first narrowest of the gaps before block n that can hold the request, or n if none can. */
  ghost predicate IsBestGap(allocs: seq<ArenaAlloc>, alignment: nat, size: nat, n: nat, best: nat)
    requires n <= |allocs| && alignment > 0
  {
    && best <= n
    && (best == n ==> forall i :: 0 <= i < n ==> !Fits(allocs, alignment, size, i))
    && (best < n ==>
          && Fits(allocs, alignment, size, best)
          && (forall i :: 0 <= i < n && Fits(allocs, alignment, size, i) ==> Slack(allocs, best) <= Slack(allocs, i))
          && (forall i :: 0 <= i < best && Fits(allocs, alignment, size, i) ==> Slack(allocs, best) < Slack(allocs, i)))
  }

  /** At most one gap is best, so the allocator is deterministic. */
  lemma {:induction false} BestGapUnique(allocs: seq<ArenaAlloc>, alignment: nat, size: nat, a: nat, b: nat)
    requires alignment > 0
    requires IsBestGap(allocs, alignment, size, |allocs|, a) && IsBestGap(allocs, alignment, size, |allocs|, b)
    ensures a == b
  {
  }

  function BestGap(allocs: seq<ArenaAlloc>, alignment: nat, size: nat, n: nat): (best: nat)
    requires n <= |allocs| && alignment > 0
    ensures IsBestGap(allocs, alignment, size, n, best)
  {
    if n == 0 then 0
    else
      var b := BestGap(allocs, alignment, size, n - 1);
      if Fits(allocs, alignment, size, n - 1) && (b == n - 1 || Slack(allocs, n - 1) < Slack(allocs, b)) then n - 1
      else if b == n - 1 then n
      else b
  }

  /** Where a nonempty request goes. */
  function Placement(allocs: seq<ArenaAlloc>, alignment: nat, size: nat): ArenaAlloc
    requires alignment > 0
  {
    ArenaAlloc(AlignTo(alignment, GapStart(allocs, BestGap(allocs, alignment, size, |allocs|))), size)
  }

  function WithPlacement(allocs: seq<ArenaAlloc>, alignment: nat, size: nat): seq<ArenaAlloc>
    requires alignment > 0
  {
    var b := BestGap(allocs, alignment, size, |allocs|);
    allocs[..b] + [Placement(allocs, alignment, size)] + allocs[b..]
  }

  /** The new block is aligned, overlaps no live block and keeps the list packed. */
  lemma {:induction false} PlacementIsSafe(allocs: seq<ArenaAlloc>, alignment: nat, size: nat)
    requires Packed(allocs) && alignment > 0 && size > 0
    ensures Packed(WithPlacement(allocs, alignment, size))
    ensures Placement(allocs, alignment, size).offset % alignment == 0
    ensures forall a :: a in allocs ==> Disjoint(a, Placement(allocs, alignment, size))
    ensures forall a :: a in WithPlacement(allocs, alignment, size) <==>
            a in allocs || a == Placement(allocs, alignment, size)
  {
    var b := BestGap(allocs, alignment, size, |allocs|);
    var p := Placement(allocs, alignment, size);
    InsertIsPacked(allocs, b, p);
    assert allocs == allocs[..b] + allocs[b..];
    forall a | a in allocs ensures Disjoint(a, p) {
      var i :| 0 <= i < |allocs| && allocs[i] == a;
      InsertBetween(allocs, b, p, i);
    }
  }

  lemma {:induction false} InsertBetween(allocs: seq<ArenaAlloc>, b: nat, p: ArenaAlloc, i: nat)
    requires Packed(allocs) && b <= |allocs| && i < |allocs|
    requires GapStart(allocs, b) <= p.offset && (b < |allocs| ==> End(p) <= allocs[b].offset)
    ensures i < b ==> End(allocs[i]) <= p.offset
    ensures i >= b ==> End(p) <= allocs[i].offset
  {
  }

  lemma {:induction false} InsertIsPacked(allocs: seq<ArenaAlloc>, b: nat, p: ArenaAlloc)
    requires Packed(allocs) && b <= |allocs| && p.size > 0
    requires GapStart(allocs, b) <= p.offset && (b < |allocs| ==> End(p) <= allocs[b].offset)
    ensures Packed(allocs[..b] + [p] + allocs[b..])
  {
    var r := allocs[..b] + [p] + allocs[b..];
    forall i, j | 0 <= i < j < |r| ensures End(r[i]) <= r[j].offset {
      if i == b {
        InsertBetween(allocs, b, p, j - 1);
      } else if j == b {
        InsertBetween(allocs, b, p, i);
      }
    }
  }

  /** The blocks without those at a given offset; in a packed list there is at most one. */
  function Without(allocs: seq<ArenaAlloc>, a: ArenaAlloc): seq<ArenaAlloc> {
    if allocs == [] then []
    else if allocs[0].offset == a.offset then Without(allocs[1..], a)
    else [allocs[0]] + Without(allocs[1..], a)
  }

  lemma {:induction false} AddInFront(head: ArenaAlloc, rest: seq<ArenaAlloc>)
    requires Packed(rest) && head.size > 0 && forall b :: b in rest ==> End(head) <= b.offset
    ensures Packed([head] + rest)
    ensures forall b :: b in [head] + rest <==> b == head || b in rest
  {
  }

  /** Freeing a live block removes it and nothing else. */
  lemma {:induction false} WithoutIsSafe(allocs: seq<ArenaAlloc>, a: ArenaAlloc)
    requires Packed(allocs)
    ensures Packed(Without(allocs, a))
    ensures forall b :: b in Without(allocs, a) <==> b in allocs && b.offset != a.offset
    ensures forall b :: b in Without(allocs, a) && allocs != [] ==> allocs[0].offset <= b.offset
  {
    if allocs != [] {
      var head, rest := allocs[0], Without(allocs[1..], a);
      WithoutIsSafe(allocs[1..], a);
      assert forall b :: b in allocs <==> b == head || b in allocs[1..];
      assert forall b :: b in allocs[1..] ==> End(head) <= b.offset;
      assert Without(allocs, a) == if head.offset == a.offset then rest else [head] + rest;
      hide Without;
      AddInFront(head, rest);
    }
  }

  class SimpleMemoryArena {
    const arenaAlignment: nat
    var committed: bool
    var highWaterMark: nat
    var allocs: seq<ArenaAlloc>
    var buffer: nat       // address of the underlying buffer
    var bytes: seq<Byte>  // what it holds
    var base: nat         // its first aligned address

    constructor (arenaAlignment: nat)
      requires arenaAlignment > 0
      ensures this.arenaAlignment == arenaAlignment && Buffered()
      ensures !committed && highWaterMark == 0 && bytes == [] && allocs == []
    {
      this.arenaAlignment := arenaAlignment;
      committed, highWaterMark, allocs := false, 0, [];
      buffer, bytes, base := 0, [], 0;
    }

    /** A buffer, once there is one, has room for an arena that starts at its first aligned address. */
    ghost predicate Buffered()
      reads this
    {
      arenaAlignment > 0 && (bytes != [] ==>
        base % arenaAlignment == 0 && buffer <= base < buffer + arenaAlignment <= buffer + |bytes|)
    }

    /** What lies `offset` bytes behind the start of the arena. */
    ghost function ByteAt(offset: nat): Byte
      requires buffer <= base && base + offset < buffer + |bytes|
      reads this
    {
      bytes[base + offset - buffer]
    }

    /** Lines 35-81. */
    method Allocate(alignment: nat, size: nat) returns (ok: bool, alloc: ArenaAlloc)
      requires alignment > 0 && Packed(allocs)
      modifies this`highWaterMark, this`allocs
      ensures ok <==> alignment <= arenaAlignment
      ensures ok && size > 0 ==>
                && alloc == Placement(old(allocs), alignment, size)
                && allocs == WithPlacement(old(allocs), alignment, size)
                && highWaterMark == if old(highWaterMark) < End(alloc) then End(alloc) else old(highWaterMark)
      ensures !ok || size == 0 ==> allocs == old(allocs) && highWaterMark == old(highWaterMark)
      ensures ok && size == 0 ==> alloc == ArenaAlloc(0, 0)
      ensures Packed(allocs)
    {
      if alignment > arenaAlignment {
        return false, ArenaAlloc(0, 0);
      }
      if size == 0 {
        return true, ArenaAlloc(0, 0);
      }
      var bestIndex, bestOffset := Search(alignment, size);
      PlacementIsSafe(allocs, alignment, size);
      highWaterMark := if highWaterMark < bestOffset + size then bestOffset + size else highWaterMark;
      alloc := ArenaAlloc(bestOffset, size);
      allocs := allocs[..bestIndex] + [alloc] + allocs[bestIndex..];
      return true, alloc;
    }

    /** Lines 46-71: go through the gaps and keep the first narrowest that fits. */
    method Search(alignment: nat, size: nat) returns (bestIndex: nat, bestOffset: nat)
      requires alignment > 0
      ensures bestIndex == BestGap(allocs, alignment, size, |allocs|)
      ensures bestOffset == AlignTo(alignment, GapStart(allocs, bestIndex))
    {
      var currentTop := 0;
      if allocs != [] {
        var last := allocs[|allocs| - 1];
        currentTop := last.offset + last.size;
      }
      bestOffset := AlignTo(alignment, currentTop);
      var found, bestFit := false, 0;
      bestIndex := |allocs|;
      var currentOffset := 0;
      var i := 0;
      while i < |allocs|
        invariant 0 <= i <= |allocs| && currentOffset == GapStart(allocs, i)
        invariant bestIndex == if found then BestGap(allocs, alignment, size, i) else |allocs|
        invariant found <==> BestGap(allocs, alignment, size, i) < i
        invariant bestOffset == AlignTo(alignment, GapStart(allocs, bestIndex))
        invariant found ==> bestFit == Slack(allocs, bestIndex)
      {
        var aligned := AlignTo(alignment, currentOffset);
        if aligned + size <= allocs[i].offset && (!found || allocs[i].offset - currentOffset < bestFit) {
          bestOffset := aligned;
          found, bestFit := true, allocs[i].offset - currentOffset;
          bestIndex := i;
        }
        currentOffset := allocs[i].offset + allocs[i].size;
        i := i + 1;
      }
    }

    /** Lines 83-102.  Every block at the offset is erased, and there must be exactly one. */
    method Deallocate(alloc: ArenaAlloc) returns (ok: bool)
      requires Packed(allocs)
      modifies this`allocs
      ensures Packed(allocs)
      ensures ok <==> alloc.size == 0 || alloc in old(allocs)
      ensures ok && alloc.size > 0 ==> allocs == Without(old(allocs), alloc)
      ensures !ok || alloc.size == 0 ==> allocs == old(allocs)
    {
      if alloc.size == 0 {
        return true;
      }
      var erased := 0;
      var kept: seq<ArenaAlloc> := [];
      var i := 0;
      ghost var hit := -1;
      while i < |allocs|
        invariant 0 <= i <= |allocs| && allocs == old(allocs)
        invariant kept == Without(allocs[..i], alloc)
        invariant -1 <= hit < i && erased == (if hit == -1 then 0 else 1)
        invariant hit != -1 ==> allocs[hit] == alloc
        invariant hit == -1 ==> forall j :: 0 <= j < i ==> allocs[j].offset != alloc.offset
      {
        WithoutSnoc(allocs[..i], allocs[i], alloc);
        assert allocs[..i + 1] == allocs[..i] + [allocs[i]];
        if allocs[i].offset == alloc.offset {
          SameOffset(allocs, i, alloc);
          if allocs[i].size != alloc.size {
            return false;
          }
          erased, hit := erased + 1, i;
        } else {
          kept := kept + [allocs[i]];
        }
        i := i + 1;
      }
      assert allocs[..i] == allocs;
      if erased != 1 {
        return false;
      }
      assert allocs[hit] in allocs;
      WithoutIsSafe(allocs, alloc);
      allocs := kept;
      return true;
    }

    /** What the buffer held below the high-water mark is still there, wherever the buffer is now. */
    twostate predicate Keeps()
      requires Buffered() && old(Buffered()) && bytes != [] && base + highWaterMark <= buffer + |bytes|
      reads this
    {
      old(bytes) != [] ==>
        forall x: nat :: x < highWaterMark && old(base + x < buffer + |bytes|) ==> ByteAt(x) == old(ByteAt(x))
    }

    /** Lines 104-129 and RequiredBufferSize.  A larger buffer comes from operator new at some address,
        with arbitrary contents; everything the arena held below the high-water mark is copied. */
    method Commit(newBuffer: nat) returns (ok: bool)
      requires Buffered()
      modifies this`committed, this`buffer, this`bytes, this`base
      ensures ok && committed && Buffered() && bytes != []
      ensures base + highWaterMark < buffer + |bytes|
      ensures |bytes| == if old(|bytes|) < 2 * arenaAlignment + highWaterMark
                         then 2 * arenaAlignment + highWaterMark else old(|bytes|)
      ensures if |bytes| == old(|bytes|) then buffer == old(buffer) && base == old(base) && bytes == old(bytes)
              else buffer == newBuffer
      ensures Keeps()
    {
      var required := arenaAlignment + highWaterMark + arenaAlignment;
      if required > |bytes| {
        var uninitialized := new Byte[required];
        var newBytes := uninitialized[..];
        var newBase := AlignTo(arenaAlignment, newBuffer);
        var to := newBase - newBuffer;
        if highWaterMark > 0 && bytes != [] {
          var from := base - buffer;
          var amount := if |bytes| - from < required - to then |bytes| - from else required - to;
          newBytes := Copied(newBytes, to, bytes, from, amount);
        }
        buffer, bytes, base := newBuffer, newBytes, newBase;
      }
      committed := true;
      ok := bytes != [];
    }

    /** Lines 131-142: an address is an offset from the aligned start of the buffer. */
    method ResolveAlloc(alloc: ArenaAlloc) returns (ok: bool, address: Option<nat>)
      ensures ok <==> committed
      ensures ok ==> address == if alloc.size == 0 then None else Some(base + alloc.offset)
    {
      address := None;
      if !committed {
        return false, address;
      }
      if alloc.size != 0 {
        address := Some(base + alloc.offset);
      }
      ok := true;
    }

    /** Lines 144-149. */
    method Clear()
      modifies this`committed, this`highWaterMark, this`allocs
      ensures !committed && highWaterMark == 0 && allocs == []
    {
      committed, highWaterMark, allocs := false, 0, [];
    }
  }

  lemma {:induction false} WithoutSnoc(s: seq<ArenaAlloc>, x: ArenaAlloc, a: ArenaAlloc)
    ensures Without(s + [x], a) == Without(s, a) + if x.offset == a.offset then [] else [x]
  {
    if s != [] {
      assert (s + [x])[1..] == s[1..] + [x];
      WithoutSnoc(s[1..], x, a);
    }
  }

  lemma {:induction false} SameOffset(allocs: seq<ArenaAlloc>, i: nat, a: ArenaAlloc)
    requires Packed(allocs) && i < |allocs| && allocs[i].offset == a.offset
    ensures forall j :: 0 <= j < |allocs| && allocs[j].offset == a.offset ==> j == i
    ensures a in allocs ==> allocs[i] == a
  {
    forall j | 0 <= j < |allocs| && j != i ensures allocs[j].offset != a.offset {
      if j < i {
        assert End(allocs[j]) <= allocs[i].offset;
      } else {
        assert End(allocs[i]) <= allocs[j].offset;
      }
    }
  }
}
