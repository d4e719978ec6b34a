/** `fuse_buf_copy` of buffer.c between vectors of memory buffers. Memory is one array, so buffers may
    overlap; a buffer is a region of it. */
module BufferCopy {

  const SIZE_LIMIT := 0x1_0000_0000_0000_0000
  const SIZE_MAX := SIZE_LIMIT - 1

  datatype Buf = Buf(pos: nat, size: nat)

  // ---------------------------------------------------------------- what is left of a vector

  /** The addresses of a buffer from an offset on. */
  function Span(b: Buf, off: nat): (r: seq<nat>)
    requires off <= b.size
  {
    seq(b.size - off, k requires 0 <= k => b.pos + off + k)
  }

  /** The addresses of a vector from a cursor on, as one stream. */
  function Left(bufs: seq<Buf>, idx: nat, off: nat): (r: seq<nat>)
    requires idx < |bufs| ==> off <= bufs[idx].size
    decreases |bufs| - idx
  {
    if idx >= |bufs| then [] else Span(bufs[idx], off) + Left(bufs, idx + 1, 0)
  }

  /** How much of the last buffer lies after the cursor. */
  function LastLeft(bufs: seq<Buf>, idx: nat, off: nat): (n: nat)
    requires idx < |bufs| ==> off <= bufs[idx].size
  {
    if idx >= |bufs| then 0
    else if idx == |bufs| - 1 then bufs[idx].size - off
    else bufs[|bufs| - 1].size
  }

  lemma {:induction false} LastIsLeft(bufs: seq<Buf>, idx: nat, off: nat)
    requires idx < |bufs| ==> off <= bufs[idx].size
    ensures LastLeft(bufs, idx, off) <= |Left(bufs, idx, off)|
    decreases |bufs| - idx
  {
    if idx < |bufs| {
      LastIsLeft(bufs, idx + 1, 0);
    }
  }

  lemma LeftAdvances(bufs: seq<Buf>, idx: nat, off: nat, len: nat)
    requires idx < |bufs| && off + len <= bufs[idx].size
    ensures |Left(bufs, idx, off)| >= len
    ensures Left(bufs, idx, off)[len..] == Left(bufs, idx, off + len)
    ensures forall k :: 0 <= k < len ==> Left(bufs, idx, off)[k] == bufs[idx].pos + off + k
    ensures off + len == bufs[idx].size ==> Left(bufs, idx, off + len) == Left(bufs, idx + 1, 0)
  {
    var span, rest := Span(bufs[idx], off), Left(bufs, idx + 1, 0);
    assert span[len..] == Span(bufs[idx], off + len);
    assert (span + rest)[len..] == span[len..] + rest;
    if off + len == bufs[idx].size {
      assert [] + rest == rest;
    }
  }

  ghost predicate InMemory(bufs: seq<Buf>, n: nat) {
    forall i :: 0 <= i < |bufs| ==> bufs[i].pos + bufs[i].size <= n
  }

  lemma {:induction false} LeftInMemory(bufs: seq<Buf>, idx: nat, off: nat, n: nat)
    requires idx < |bufs| ==> off <= bufs[idx].size
    requires InMemory(bufs, n)
    ensures forall k :: 0 <= k < |Left(bufs, idx, off)| ==> Left(bufs, idx, off)[k] < n
    decreases |bufs| - idx
  {
    if idx < |bufs| {
      LeftInMemory(bufs, idx + 1, 0, n);
      assert bufs[idx].pos + bufs[idx].size <= n;
    }
  }

  // ---------------------------------------------------------------- sizes

  function Total(bufs: seq<Buf>): (n: nat) {
    if bufs == [] then 0 else Total(bufs[..|bufs| - 1]) + bufs[|bufs| - 1].size
  }

  /** Without a cursor, everything is left. */
  lemma {:induction false} LeftIsTotal(bufs: seq<Buf>, idx: nat)
    requires idx <= |bufs|
    ensures |Left(bufs, idx, 0)| == Total(bufs) - Total(bufs[..idx])
    decreases |bufs| - idx
  {
    if idx == |bufs| {
      assert bufs[..idx] == bufs;
    } else {
      LeftIsTotal(bufs, idx + 1);
      assert bufs[..idx + 1][..idx] == bufs[..idx];
    }
  }

  /** The buffers after the last one of unknown size. */
  function Known(bufs: seq<Buf>): (r: seq<Buf>) {
    if bufs == [] || bufs[|bufs| - 1].size == SIZE_MAX then []
    else Known(bufs[..|bufs| - 1]) + [bufs[|bufs| - 1]]
  }

  ghost predicate AllKnown(bufs: seq<Buf>) {
    forall i :: 0 <= i < |bufs| ==> bufs[i].size != SIZE_MAX
  }

  /** `fuse_buf_size` in 64-bit arithmetic. */
  function SizeOf(bufs: seq<Buf>): (n: nat) {
    if bufs == [] then 0
    else if bufs[|bufs| - 1].size == SIZE_MAX then SIZE_MAX
    else (SizeOf(bufs[..|bufs| - 1]) + bufs[|bufs| - 1].size) % SIZE_LIMIT
  }

  /** The same without wrapping. */
  function SizeSum(bufs: seq<Buf>): (n: nat) {
    if bufs == [] then 0
    else if bufs[|bufs| - 1].size == SIZE_MAX then SIZE_MAX
    else SizeSum(bufs[..|bufs| - 1]) + bufs[|bufs| - 1].size
  }

  lemma {:induction false} SizeWraps(bufs: seq<Buf>)
    ensures SizeOf(bufs) == SizeSum(bufs) % SIZE_LIMIT
  {
    if bufs != [] {
      SizeWraps(bufs[..|bufs| - 1]);
      WrapAdd(SizeSum(bufs[..|bufs| - 1]), bufs[|bufs| - 1].size);
    }
  }

  lemma TotalSnoc(init: seq<Buf>, last: Buf)
    ensures Total(init + [last]) == Total(init) + last.size
  {
    assert (init + [last])[..|init|] == init;
  }

  lemma AllKnownSnoc(init: seq<Buf>, last: Buf)
    ensures AllKnown(init + [last]) <==> AllKnown(init) && last.size != SIZE_MAX
  {
    assert (init + [last])[|init|] == last && forall i :: 0 <= i < |init| ==> (init + [last])[i] == init[i];
  }

  lemma {:induction false} SizeSumIs(bufs: seq<Buf>)
    ensures SizeSum(bufs) == Total(Known(bufs)) + if AllKnown(bufs) then 0 else SIZE_MAX
    ensures AllKnown(bufs) ==> Known(bufs) == bufs
  {
    if bufs != [] {
      var init, last := bufs[..|bufs| - 1], bufs[|bufs| - 1];
      assert bufs == init + [last];
      AllKnownSnoc(init, last);
      if last.size != SIZE_MAX {
        SizeSumIs(init);
        TotalSnoc(Known(init), last);
      }
    }
  }

  lemma WrapAdd(a: nat, b: nat)
    ensures (a % SIZE_LIMIT + b) % SIZE_LIMIT == (a + b) % SIZE_LIMIT
  {
    assert a + b == (a % SIZE_LIMIT + b) + SIZE_LIMIT * (a / SIZE_LIMIT);
  }

  lemma BelowLimit(a: nat)
    requires a < SIZE_LIMIT
    ensures a % SIZE_LIMIT == a && (a + SIZE_LIMIT) % SIZE_LIMIT == a
  {
  }

  lemma WrapMax(a: nat)
    ensures (a + SIZE_MAX) % SIZE_LIMIT == SIZE_MAX <==> a % SIZE_LIMIT == 0
  {
    var r := a % SIZE_LIMIT;
    WrapAdd(a, SIZE_MAX);
    if r == 0 {
      BelowLimit(SIZE_MAX);
    } else {
      BelowLimit(r - 1);
      assert r + SIZE_MAX == r - 1 + SIZE_LIMIT;
    }
  }

  /** The total when every size is known and it fits. When some size is unknown the answer says so
      only if the sizes after it add up to nothing. */
  lemma SizeMeans(bufs: seq<Buf>)
    ensures AllKnown(bufs) && Total(bufs) < SIZE_LIMIT ==> SizeOf(bufs) == Total(bufs)
    ensures !AllKnown(bufs) ==> (SizeOf(bufs) == SIZE_MAX <==> Total(Known(bufs)) % SIZE_LIMIT == 0)
  {
    SizeWraps(bufs);
    SizeSumIs(bufs);
    WrapMax(Total(Known(bufs)));
    if AllKnown(bufs) && Total(bufs) < SIZE_LIMIT {
      BelowLimit(Total(bufs));
    }
  }

  /** An unknown size can get lost. */
  lemma UnknownSizeLost()
    ensures SizeOf([Buf(0, SIZE_MAX), Buf(0, 1)]) == 0
  {
    assert [Buf(0, SIZE_MAX), Buf(0, 1)][..1] == [Buf(0, SIZE_MAX)];
  }

  method FuseBufSize(bufs: seq<Buf>) returns (size: nat)
    ensures size == SizeOf(bufs)
  {
    size := 0;
    for i := 0 to |bufs|
      invariant size == SizeOf(bufs[..i])
    {
      assert bufs[..i + 1][..i] == bufs[..i];
      if bufs[i].size == SIZE_MAX {
        size := SIZE_MAX;
      } else {
        size := (size + bufs[i].size) % SIZE_LIMIT;
      }
    }
    assert bufs[..|bufs|] == bufs;
  }

  // ---------------------------------------------------------------- the copy

  /** `fuse_buf_copy_one` between memory buffers: right also where the regions overlap. */
  method CopyOne(mem: array<int>, dst: nat, src: nat, len: nat)
    requires dst + len <= mem.Length && src + len <= mem.Length
    modifies mem
    ensures forall a :: dst <= a < dst + len ==> mem[a] == old(mem[a - dst + src])
    ensures forall a :: 0 <= a < mem.Length && !(dst <= a < dst + len) ==> mem[a] == old(mem[a])
  {
    if dst != src {
      if dst < src || src + len <= dst {
        var i := 0;
        while i < len
          invariant i <= len
          invariant forall a :: dst <= a < dst + i ==> mem[a] == old(mem[a - dst + src])
          invariant forall a :: 0 <= a < mem.Length && !(dst <= a < dst + i) ==> mem[a] == old(mem[a])
        {
          mem[dst + i] := mem[src + i];
          i := i + 1;
        }
      } else {
        var i := len;
        while i > 0
          invariant 0 <= i <= len
          invariant forall a :: dst + i <= a < dst + len ==> mem[a] == old(mem[a - dst + src])
          invariant forall a :: 0 <= a < mem.Length && !(dst + i <= a < dst + len) ==> mem[a] == old(mem[a])
        {
          i := i - 1;
          mem[dst + i] := mem[src + i];
        }
      }
    }
  }

  class BufVec {
    const buf: seq<Buf>
    var idx: nat
    var off: nat

    constructor (buf: seq<Buf>)
      ensures this.buf == buf && idx == 0 && off == 0
    {
      this.buf := buf;
      idx, off := 0, 0;
    }

    ghost predicate Valid(n: nat)
      reads this
    {
      idx <= |buf| && (idx < |buf| ==> off <= buf[idx].size) && InMemory(buf, n)
    }

    ghost predicate AtStart()
      reads this
    {
      idx == 0 && off == 0
    }

    ghost function Rest(): (r: seq<nat>)
      requires idx < |buf| ==> off <= buf[idx].size
      reads this
    {
      Left(buf, idx, off)
    }

    ghost function Last(): (r: nat)
      requires idx < |buf| ==> off <= buf[idx].size
      reads this
    {
      LastLeft(buf, idx, off)
    }

    /** `fuse_bufvec_advance`, whose two assertions hold. */
    method Advance(len: nat, ghost n: nat) returns (more: bool)
      requires Valid(n) && idx < |buf| && off + len <= buf[idx].size
      modifies this
      ensures Valid(n) && len <= |old(Rest())| && Rest() == old(Rest())[len..]
      ensures more <==> idx < |buf|
      ensures idx == old(idx) + if old(off) + len == buf[old(idx)].size then 1 else 0
      ensures more ==> (Last() > 0 <==> old(Last()) > 0)
      ensures !more ==> (len > 0 <==> old(Last()) > 0)
    {
      LeftAdvances(buf, idx, off, len);
      off := off + len;
      assert off <= buf[idx].size;
      if off == buf[idx].size {
        assert idx < |buf|;
        idx := idx + 1;
        if idx == |buf| {
          return false;
        }
        off := 0;
      }
      return true;
    }
  }

  /** Destination addresses are told apart, and are not read. */
  ghost predicate Apart(src: seq<nat>, dst: seq<nat>) {
    && (forall i, j :: 0 <= i < j < |dst| ==> dst[i] != dst[j])
    && forall i, j :: 0 <= i < |src| && 0 <= j < |dst| ==> src[i] != dst[j]
  }

  ghost predicate CopiedTo(before: seq<int>, after: seq<int>, src: seq<nat>, dst: seq<nat>, n: nat)
    requires n <= |src| && n <= |dst| && |before| == |after|
    requires forall k :: 0 <= k < |src| ==> src[k] < |before|
    requires forall k :: 0 <= k < |dst| ==> dst[k] < |before|
  {
    forall k :: 0 <= k < n ==> after[dst[k]] == before[src[k]]
  }

  /** Only the first `n` destination addresses have changed. */
  ghost predicate Only(before: seq<int>, after: seq<int>, dst: seq<nat>, n: nat)
    requires n <= |dst| && |before| == |after|
  {
    forall a :: 0 <= a < |before| && a !in dst[..n] ==> after[a] == before[a]
  }

  /** One chunk further. */
  lemma ChunkCopied(before: seq<int>, mid: seq<int>, after: seq<int>, src: seq<nat>, dst: seq<nat>, n: nat, len: nat)
    requires n + len <= |src| && n + len <= |dst| && |before| == |mid| == |after|
    requires forall k :: 0 <= k < |src| ==> src[k] < |before|
    requires forall k :: 0 <= k < |dst| ==> dst[k] < |before|
    requires Only(before, mid, dst, n) && CopiedTo(mid, after, src[n..], dst[n..], len)
    requires Only(mid, after, dst[n..], len)
    ensures Only(before, after, dst, n + len)
    ensures Apart(src, dst) && CopiedTo(before, mid, src, dst, n) ==> CopiedTo(before, after, src, dst, n + len)
  {
    forall a | 0 <= a < |before| && a !in dst[..n + len]
      ensures after[a] == before[a]
    {
      assert forall k :: 0 <= k < n ==> dst[..n][k] == dst[..n + len][k];
      assert forall k :: 0 <= k < len ==> dst[n..][..len][k] == dst[..n + len][n + k];
    }
    if Apart(src, dst) && CopiedTo(before, mid, src, dst, n) {
      forall k | 0 <= k < n + len
        ensures after[dst[k]] == before[src[k]]
      {
        if k < n {
          assert dst[k] !in dst[n..][..len];
        } else {
          assert src[n..][k - n] == src[k] && dst[n..][k - n] == dst[k];
          assert src[k] !in dst[..n];
        }
      }
    }
  }

  /** A chunk of contiguous memory is a chunk of the two streams. */
  lemma ChunkAt(mid: seq<int>, after: seq<int>, src: seq<nat>, dst: seq<nat>, s: nat, d: nat, len: nat)
    requires |mid| == |after| && s + len <= |mid| && d + len <= |mid| && len <= |src| && len <= |dst|
    requires forall k :: 0 <= k < |src| ==> src[k] < |mid|
    requires forall k :: 0 <= k < |dst| ==> dst[k] < |mid|
    requires forall k :: 0 <= k < len ==> src[k] == s + k
    requires forall k :: 0 <= k < len ==> dst[k] == d + k
    requires forall a :: d <= a < d + len ==> after[a] == mid[a - d + s]
    requires forall a :: 0 <= a < |mid| && !(d <= a < d + len) ==> after[a] == mid[a]
    ensures CopiedTo(mid, after, src, dst, len) && Only(mid, after, dst, len)
  {
    forall a | d <= a < d + len
      ensures a in dst[..len]
    {
      assert dst[..len][a - d] == a;
    }
  }

  /** Copy one chunk between the cursors, without moving them. */
  method CopyChunk(mem: array<int>, dstv: BufVec, srcv: BufVec, ghost src: seq<nat>, ghost dst: seq<nat>)
    returns (len: nat)
    requires dstv.Valid(mem.Length) && srcv.Valid(mem.Length)
    requires dstv.idx < |dstv.buf| && srcv.idx < |srcv.buf|
    requires src == srcv.Rest() && dst == dstv.Rest()
    requires forall k :: 0 <= k < |src| ==> src[k] < mem.Length
    requires forall k :: 0 <= k < |dst| ==> dst[k] < mem.Length
    modifies mem
    ensures srcv.off + len <= srcv.buf[srcv.idx].size && dstv.off + len <= dstv.buf[dstv.idx].size
    ensures srcv.off + len == srcv.buf[srcv.idx].size || dstv.off + len == dstv.buf[dstv.idx].size
    ensures len <= |src| && len <= |dst|
    ensures CopiedTo(old(mem[..]), mem[..], src, dst, len) && Only(old(mem[..]), mem[..], dst, len)
  {
    var s, d := srcv.buf[srcv.idx], dstv.buf[dstv.idx];
    var srcLen, dstLen := s.size - srcv.off, d.size - dstv.off;
    len := if srcLen < dstLen then srcLen else dstLen;
    LeftAdvances(srcv.buf, srcv.idx, srcv.off, len);
    LeftAdvances(dstv.buf, dstv.idx, dstv.off, len);
    CopyOne(mem, d.pos + dstv.off, s.pos + srcv.off, len);
    ChunkAt(old(mem[..]), mem[..], src, dst, s.pos + srcv.off, d.pos + dstv.off, len);
  }

  /** One round of the loop. */
  method Step(mem: array<int>, dstv: BufVec, srcv: BufVec, ghost src: seq<nat>, ghost dst: seq<nat>)
    returns (len: nat)
    requires dstv != srcv && dstv.Valid(mem.Length) && srcv.Valid(mem.Length)
    requires dstv.idx < |dstv.buf| && srcv.idx < |srcv.buf|
    requires src == srcv.Rest() && dst == dstv.Rest()
    requires forall k :: 0 <= k < |src| ==> src[k] < mem.Length
    requires forall k :: 0 <= k < |dst| ==> dst[k] < mem.Length
    modifies mem, dstv, srcv
    ensures dstv.Valid(mem.Length) && srcv.Valid(mem.Length)
    ensures len <= |src| && len <= |dst|
    ensures CopiedTo(old(mem[..]), mem[..], src, dst, len) && Only(old(mem[..]), mem[..], dst, len)
    ensures srcv.Rest() == src[len..] && dstv.Rest() == if srcv.idx < |srcv.buf| then dst[len..] else dst
    ensures srcv.idx < |srcv.buf| ==> (srcv.Last() > 0 <==> old(srcv.Last()) > 0)
    ensures srcv.idx == |srcv.buf| ==> (len > 0 <==> old(srcv.Last()) > 0)
    ensures srcv.idx >= old(srcv.idx) && dstv.idx >= old(dstv.idx)
    ensures srcv.idx + dstv.idx > old(srcv.idx + dstv.idx)
  {
    len := CopyChunk(mem, dstv, srcv, src, dst);
    var more := srcv.Advance(len, mem.Length);
    if more {
      more := dstv.Advance(len, mem.Length);
    }
  }

  ghost predicate Inside(src: seq<nat>, dst: seq<nat>, n: nat) {
    && (forall k :: 0 <= k < |src| ==> src[k] < n)
    && forall k :: 0 <= k < |dst| ==> dst[k] < n
  }

  /** The state of memory after `n` bytes. */
  ghost predicate Moved(before: seq<int>, after: seq<int>, src: seq<nat>, dst: seq<nat>, n: nat)
    requires n <= |src| && n <= |dst| && |before| == |after| && Inside(src, dst, |before|)
  {
    Only(before, after, dst, n) && (Apart(src, dst) ==> CopiedTo(before, after, src, dst, n))
  }

  /** The same, counted from the beginning of the copy. */
  method Round(mem: array<int>, dstv: BufVec, srcv: BufVec, copied: nat,
               ghost before: seq<int>, ghost src: seq<nat>, ghost dst: seq<nat>)
    returns (len: nat)
    requires dstv != srcv && dstv.Valid(mem.Length) && srcv.Valid(mem.Length)
    requires dstv.idx < |dstv.buf| && srcv.idx < |srcv.buf|
    requires copied <= |src| && copied <= |dst| && srcv.Rest() == src[copied..] && dstv.Rest() == dst[copied..]
    requires |before| == mem.Length && Inside(src, dst, |before|) && Moved(before, mem[..], src, dst, copied)
    modifies mem, dstv, srcv
    ensures dstv.Valid(mem.Length) && srcv.Valid(mem.Length)
    ensures copied + len <= |src| && copied + len <= |dst| && Moved(before, mem[..], src, dst, copied + len)
    ensures srcv.Rest() == src[copied + len..]
    ensures dstv.Rest() == dst[if srcv.idx < |srcv.buf| then copied + len else copied..]
    ensures srcv.idx < |srcv.buf| ==> (srcv.Last() > 0 <==> old(srcv.Last()) > 0)
    ensures srcv.idx == |srcv.buf| ==> (len > 0 <==> old(srcv.Last()) > 0)
    ensures srcv.idx >= old(srcv.idx) && dstv.idx >= old(dstv.idx)
    ensures srcv.idx + dstv.idx > old(srcv.idx + dstv.idx)
  {
    len := Step(mem, dstv, srcv, src[copied..], dst[copied..]);
    ChunkCopied(before, old(mem[..]), mem[..], src, dst, copied, len);
    assert src[copied..][len..] == src[copied + len..] && dst[copied..][len..] == dst[copied + len..];
  }

  /** Where the copy stands: `copied` bytes have been moved and the source cursor has passed them; the
      destination cursor has passed the first `at` of them, all of them while there is more to read. */
  ghost predicate Along(mem: array<int>, dstv: BufVec, srcv: BufVec, before: seq<int>, src: seq<nat>, dst: seq<nat>,
                        last: nat, copied: nat, at: nat)
    reads mem, dstv, srcv
  {
    && dstv.Valid(mem.Length) && srcv.Valid(mem.Length)
    && at <= copied <= |src| && copied <= |dst|
    && srcv.Rest() == src[copied..] && dstv.Rest() == dst[at..]
    && |before| == mem.Length && Inside(src, dst, |before|) && Moved(before, mem[..], src, dst, copied)
    && (srcv.idx < |srcv.buf| ==> at == copied && (srcv.Last() > 0 <==> last > 0))
    && (srcv.idx == |srcv.buf| ==> (at < copied <==> last > 0))
  }

  method FurtherAlong(mem: array<int>, dstv: BufVec, srcv: BufVec, done: nat,
                      ghost before: seq<int>, ghost src: seq<nat>, ghost dst: seq<nat>, ghost last: nat, ghost was: nat)
    returns (copied: nat, ghost at: nat)
    requires dstv != srcv && dstv.idx < |dstv.buf| && srcv.idx < |srcv.buf|
    requires Along(mem, dstv, srcv, before, src, dst, last, done, was)
    modifies mem, dstv, srcv
    ensures Along(mem, dstv, srcv, before, src, dst, last, copied, at)
    ensures srcv.idx <= |srcv.buf| && dstv.idx <= |dstv.buf| && srcv.idx >= old(srcv.idx) && dstv.idx >= old(dstv.idx)
    ensures srcv.idx + dstv.idx > old(srcv.idx + dstv.idx)
  {
    var len := Round(mem, dstv, srcv, done, before, src, dst);
    copied := done + len;
    at := if srcv.idx == |srcv.buf| then was else copied;
  }

  /** The loop, from the first chunk to the end of either side. */
  method CopyStream(mem: array<int>, dstv: BufVec, srcv: BufVec,
                    ghost before: seq<int>, ghost src: seq<nat>, ghost dst: seq<nat>, ghost last: nat)
    returns (copied: nat, ghost at: nat)
    requires dstv != srcv && Along(mem, dstv, srcv, before, src, dst, last, 0, 0)
    modifies mem, dstv, srcv
    ensures Along(mem, dstv, srcv, before, src, dst, last, copied, at)
    ensures srcv.idx >= |srcv.buf| || dstv.idx >= |dstv.buf|
  {
    copied, at := 0, 0;
    while srcv.idx < |srcv.buf| && dstv.idx < |dstv.buf|
      invariant Along(mem, dstv, srcv, before, src, dst, last, copied, at)
      decreases |srcv.buf| - srcv.idx + |dstv.buf| - dstv.idx
    {
      copied, at := FurtherAlong(mem, dstv, srcv, copied, before, src, dst, last, at);
    }
  }

  /** The source ends inside its last buffer before the destination does. */
  ghost predicate Lags(srcv: BufVec, dstv: BufVec)
    requires srcv.idx < |srcv.buf| ==> srcv.off <= srcv.buf[srcv.idx].size
    requires dstv.idx < |dstv.buf| ==> dstv.off <= dstv.buf[dstv.idx].size
    reads srcv, dstv
  {
    srcv.Last() > 0 && |srcv.Rest()| <= |dstv.Rest()|
  }

  /** From cursors at the beginning the copy moves as much as the smaller vector holds. */
  lemma FreshRest(bufs: seq<Buf>)
    ensures |Left(bufs, 0, 0)| == Total(bufs)
  {
    LeftIsTotal(bufs, 0);
  }

  /** The copy between different vectors. */
  method CopyBetween(mem: array<int>, dstv: BufVec, srcv: BufVec) returns (copied: nat)
    requires dstv != srcv && dstv.Valid(mem.Length) && srcv.Valid(mem.Length)
    modifies mem, dstv, srcv
    ensures dstv.Valid(mem.Length) && srcv.Valid(mem.Length)
    ensures var src, dst := old(srcv.Rest()), old(dstv.Rest());
      && copied == (if |src| < |dst| then |src| else |dst|)
      && Inside(src, dst, mem.Length) && Moved(old(mem[..]), mem[..], src, dst, copied)
      && srcv.Rest() == src[copied..]
      && (dstv.Rest() == dst[copied..] <==> !old(Lags(srcv, dstv)))
  {
    ghost var src, dst, last := srcv.Rest(), dstv.Rest(), srcv.Last();
    LeftInMemory(srcv.buf, srcv.idx, srcv.off, mem.Length);
    LeftInMemory(dstv.buf, dstv.idx, dstv.off, mem.Length);
    LastIsLeft(srcv.buf, srcv.idx, srcv.off);
    ghost var at;
    copied, at := CopyStream(mem, dstv, srcv, mem[..], src, dst, last);
    LastIsLeft(srcv.buf, srcv.idx, srcv.off);
    WhereItEnds(src, dst, copied, at, srcv.idx == |srcv.buf|, last, srcv.Last());
  }

  /** `fuse_buf_copy`. Between two vectors it moves as much as both sides have, byte for byte and
      changing nothing else, and the source cursor moves by that much. The destination cursor does so
      too except when the source runs out in a non-empty last buffer: then it misses the last chunk.
      A vector is copied to itself by doing nothing. */
  method FuseBufCopy(mem: array<int>, dstv: BufVec, srcv: BufVec) returns (copied: nat)
    requires dstv.Valid(mem.Length) && srcv.Valid(mem.Length)
    modifies mem, dstv, srcv
    ensures dstv.Valid(mem.Length) && srcv.Valid(mem.Length)
    ensures dstv == srcv ==> copied == SizeOf(srcv.buf) && mem[..] == old(mem[..]) && srcv.Rest() == old(srcv.Rest())
    ensures dstv != srcv ==>
              var src, dst := old(srcv.Rest()), old(dstv.Rest());
              && copied == (if |src| < |dst| then |src| else |dst|)
              && Inside(src, dst, mem.Length) && Moved(old(mem[..]), mem[..], src, dst, copied)
              && srcv.Rest() == src[copied..]
              && (dstv.Rest() == dst[copied..] <==> !old(Lags(srcv, dstv)))
    ensures dstv != srcv && old(srcv.AtStart()) && old(dstv.AtStart()) ==>
              copied == if Total(srcv.buf) < Total(dstv.buf) then Total(srcv.buf) else Total(dstv.buf)
  {
    if dstv == srcv {
      copied := FuseBufSize(srcv.buf);
      return;
    }
    FreshRest(srcv.buf);
    FreshRest(dstv.buf);
    copied := CopyBetween(mem, dstv, srcv);
  }

  /** Either side may be the one that ran out. */
  lemma WhereItEnds(src: seq<nat>, dst: seq<nat>, copied: nat, at: nat, srcEnded: bool, last: nat, left: nat)
    requires at <= copied <= |src| && copied <= |dst| && last <= |src| && left <= |src| - copied
    requires srcEnded ==> copied == |src| && (at < copied <==> last > 0)
    requires !srcEnded ==> at == copied == |dst| && (left > 0 <==> last > 0)
    ensures copied == if |src| < |dst| then |src| else |dst|
    ensures dst[at..] == dst[copied..] <==> !(last > 0 && |src| <= |dst|)
  {
    assert dst[at..] == dst[copied..] <==> at == copied;
  }

  /** One byte each side: the byte arrives, and the destination cursor still stands before it. */
  method CursorLeftBehind() returns (copied: nat, at: nat)
    ensures copied == 1 && at == 0
  {
    var mem := new int[2];
    var dstv := new BufVec([Buf(0, 1)]);
    var srcv := new BufVec([Buf(1, 1)]);
    assert dstv.Rest() == [0] && srcv.Rest() == [1];
    copied := FuseBufCopy(mem, dstv, srcv);
    assert dstv.idx == 0;
    at := dstv.off;
  }
}
