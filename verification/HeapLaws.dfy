/**
 * What kmalloc finds and what kfree gives back, in bytes: the first block that fits is used, the
 * blocks around a freed one become one block of all their bytes and headers, and nothing else of
 * the list changes.
 */
module HeapLaws {
  import opened Util
  import opened HeapSpec
  import opened HeapRuns
  import opened HeapFaults

  // ---------- bytes ----------

  function Sizes(bs: Blocks): nat { if bs == [] then 0 else bs[0].size + Sizes(bs[1..]) }

  /** What these blocks take up, headers included. */
  function Sum(bs: Blocks): nat { Sizes(bs) + HDR * |bs| }

  /** What can be handed out. */
  function FreeBytes(bs: Blocks): nat {
    if bs == [] then 0 else (if bs[0].avail then bs[0].size else 0) + FreeBytes(bs[1..])
  }

  lemma {:induction false} BytesJoined(a: Blocks, b: Blocks)
    ensures Sizes(a + b) == Sizes(a) + Sizes(b) && FreeBytes(a + b) == FreeBytes(a) + FreeBytes(b)
    ensures Sum(a + b) == Sum(a) + Sum(b)
    decreases |a|
  {
    if a == [] {
      assert a + b == b;
    } else {
      assert (a + b)[1..] == a[1..] + b;
      BytesJoined(a[1..], b);
    }
  }

  lemma {:induction false} AllFree(bs: Blocks)
    requires forall b :: b in bs ==> b.avail
    ensures FreeBytes(bs) == Sizes(bs)
    decreases |bs|
  {
    if bs != [] {
      assert bs[0] in bs && forall b :: b in bs[1..] ==> b in bs;
      AllFree(bs[1..]);
    }
  }

  lemma OneByte(b: Block)
    ensures Sizes([b]) == b.size && FreeBytes([b]) == (if b.avail then b.size else 0) && Sum([b]) == b.size + HDR
  {
    assert [b][1..] == [];
  }

  // ---------- what kfree makes of the list ----------

  /** `r` is `bs` with the blocks `lo` to `hi` made one. */
  ghost predicate Fused(bs: Blocks, r: Blocks, lo: nat, hi: nat) {
    && lo <= hi < |bs|
    && r == bs[..lo] + [Block(bs[lo].addr, Sum(bs[lo..hi+1]) - HDR, true)] + bs[hi+1..]
  }

  lemma SumPositive(bs: Blocks, lo: nat, hi: nat)
    requires lo <= hi < |bs|
    ensures Sum(bs[lo..hi+1]) >= HDR
  {
  }

  lemma {:induction false} BackFuses(bs: Blocks, i: nat)
    requires i < |bs| && bs[i].avail
    ensures var (r, k) := MergeBack(bs, i);
      && k <= i && Fused(bs, r, k, i) && (forall j :: k <= j < i ==> bs[j].avail) && (k == 0 || !bs[k-1].avail)
    decreases i
  {
    hide Fused;
    if i > 0 && bs[i-1].avail {
      var j := Join(bs, i - 1);
      BackFuses(j, i - 1);
      var (r, k) := MergeBack(j, i - 1);
      FusedMore(bs, j, r, k, i);
      forall x | k <= x < i ensures bs[x].avail { assert x < i - 1 ==> j[x] == bs[x]; }
      assert k < i && (k > 0 ==> j[k-1] == bs[k-1]);
    } else {
      Alone(bs, i);
    }
  }

  lemma Alone(bs: Blocks, i: nat)
    requires i < |bs| && bs[i].avail
    ensures Fused(bs, bs, i, i)
  {
    OneByte(bs[i]);
    assert bs[i..i+1] == [bs[i]];
    assert bs == bs[..i] + [bs[i]] + bs[i+1..];
  }

  lemma FusedMore(bs: Blocks, j: Blocks, r: Blocks, k: nat, i: nat)
    requires 0 < i < |bs| && k < i && j == Join(bs, i - 1) && bs[i-1].avail && Fused(j, r, k, i - 1)
    ensures Fused(bs, r, k, i)
  {
    var x := j[i-1];
    assert j[k..i] == bs[k..i-1] + [x];
    assert bs[k..i+1] == bs[k..i-1] + ([bs[i-1]] + [bs[i]]);
    BytesJoined(bs[k..i-1], [x]);
    BytesJoined([bs[i-1]], [bs[i]]);
    BytesJoined(bs[k..i-1], [bs[i-1]] + [bs[i]]);
    OneByte(x);
    OneByte(bs[i-1]);
    OneByte(bs[i]);
    assert j[..k] == bs[..k] && j[i..] == bs[i+1..] && j[k].addr == bs[k].addr;
  }

  /** The block that would be merged next has bytes, or is the last. */
  predicate Mergeworthy(bs: Blocks, j: nat)
    requires j < |bs|
  {
    bs[j].avail && (bs[j].size > 0 || j == |bs| - 1)
  }

  lemma {:induction false} FrontFuses(bs: Blocks, i: nat) returns (hi: nat)
    requires i < |bs| && bs[i].avail
    ensures i <= hi && Fused(bs, MergeFront(bs, i), i, hi)
    ensures forall j :: i < j <= hi ==> Mergeworthy(bs, j)
    ensures hi + 1 == |bs| || !Mergeworthy(bs, hi + 1)
    decreases |bs|
  {
    if Mergeable(bs, i) {
      var j := Join(bs, i);
      var h := FrontFuses(j, i);
      hi := h + 1;
      FusedFront(bs, j, MergeFront(j, i), i, h);
      forall x | i < x <= hi ensures Mergeworthy(bs, x) {
        if x > i + 1 { assert Mergeworthy(j, x - 1); }
      }
    } else {
      hi := i;
      Alone(bs, i);
    }
  }

  lemma FusedFront(bs: Blocks, j: Blocks, r: Blocks, i: nat, h: nat)
    requires i + 1 < |bs| && j == Join(bs, i) && bs[i].avail && Fused(j, r, i, h)
    ensures Fused(bs, r, i, h + 1)
  {
    var x := j[i];
    assert j[i..h+1] == [x] + bs[i+2..h+2];
    assert bs[i..h+2] == [bs[i]] + [bs[i+1]] + bs[i+2..h+2];
    BytesJoined([x], bs[i+2..h+2]);
    BytesJoined([bs[i]], [bs[i+1]]);
    BytesJoined([bs[i]] + [bs[i+1]], bs[i+2..h+2]);
    OneByte(x);
    OneByte(bs[i]);
    OneByte(bs[i+1]);
    assert j[..i] == bs[..i] && j[h+1..] == bs[h+2..];
  }

  /** kfree makes one block of the freed one, of all available blocks right before it, and of those
      after it that have bytes or are the last, and leaves the rest of the list as it is. */
  lemma FreedFuses(bs: Blocks, i: nat) returns (lo: nat, hi: nat)
    requires i < |bs|
    ensures lo <= i <= hi < |bs| && Fused(bs, Freed(bs, i).0, lo, hi) && Freed(bs, i).1 == lo
    ensures forall j :: lo <= j < i ==> bs[j].avail
    ensures forall j :: i < j <= hi ==> Mergeworthy(bs, j)
    ensures lo == 0 || !bs[lo-1].avail
    ensures hi + 1 == |bs| || !Mergeworthy(bs, hi + 1)
  {
    hide MergeBack, MergeFront, Mergeable, Sum, Sizes, Mergeworthy;
    var s := bs[i := bs[i].(avail := true)];
    BackFuses(s, i);
    var (m, k) := MergeBack(s, i);
    var h := FrontFuses(m, k);
    lo, hi := k, h + (i - k);
    FusedTwice(s, m, MergeFront(m, k), k, i, h);
    SameSizes(bs, s, lo, hi);
    assert s[..lo] == bs[..lo] && s[hi+1..] == bs[hi+1..];
    forall j | i < j < |bs| ensures Mergeworthy(bs, j) <==> Mergeworthy(m, j - (i - k)) {
      SameWorth(bs, m, j, j - (i - k));
    }
    forall j | i < j <= hi ensures Mergeworthy(bs, j) { assert Mergeworthy(m, j - (i - k)); }
  }

  lemma SameWorth(a: Blocks, b: Blocks, i: nat, j: nat)
    requires i < |a| && j < |b| && a[i] == b[j] && |a| - i == |b| - j
    ensures Mergeworthy(a, i) <==> Mergeworthy(b, j)
  {
  }

  lemma FusedTwice(s: Blocks, m: Blocks, r: Blocks, lo: nat, i: nat, h: nat)
    requires Fused(s, m, lo, i) && Fused(m, r, lo, h)
    ensures h + (i - lo) < |s| && Fused(s, r, lo, h + (i - lo))
    ensures |m| == |s| - (i - lo) && forall j :: i < j < |s| ==> m[j - (i - lo)] == s[j]
  {
    var hi := h + (i - lo);
    assert m[lo..h+1] == [m[lo]] + s[i+1..hi+1];
    assert s[lo..hi+1] == s[lo..i+1] + s[i+1..hi+1];
    BytesJoined([m[lo]], s[i+1..hi+1]);
    BytesJoined(s[lo..i+1], s[i+1..hi+1]);
    SumPositive(s, lo, i);
    OneByte(m[lo]);
    assert m[..lo] == s[..lo] && m[h+1..] == s[hi+1..];
  }

  lemma SameSizes(bs: Blocks, s: Blocks, lo: nat, hi: nat)
    requires |s| == |bs| && lo <= hi < |bs| && forall j :: 0 <= j < |bs| ==> s[j].size == bs[j].size
    ensures Sum(s[lo..hi+1]) == Sum(bs[lo..hi+1])
  {
    EqualSizes(bs[lo..hi+1], s[lo..hi+1]);
  }

  lemma {:induction false} EqualSizes(a: Blocks, b: Blocks)
    requires |a| == |b| && forall j :: 0 <= j < |a| ==> a[j].size == b[j].size
    ensures Sizes(a) == Sizes(b)
    decreases |a|
  {
    if a != [] { EqualSizes(a[1..], b[1..]); }
  }

  /** Of the blocks `lo` to `hi` only `i` is in use. */
  ghost predicate OneInUse(bs: Blocks, lo: nat, i: nat, hi: nat) {
    lo <= i <= hi < |bs| && !bs[i].avail && forall j :: lo <= j <= hi && j != i ==> bs[j].avail
  }

  lemma FusedBytes(bs: Blocks, r: Blocks, lo: nat, i: nat, hi: nat)
    requires Fused(bs, r, lo, hi) && OneInUse(bs, lo, i, hi) && i < |bs|
    ensures FreeBytes(r) == FreeBytes(bs) + bs[i].size + HDR * (hi - lo) && |bs| - |r| == hi - lo && Sum(r) == Sum(bs)
  {
    hide FreeBytes, Sizes, Sum, OneInUse, Fused;
    var before, seg, x, after := Segment(bs, r, lo, i, hi);
    SegmentBytes(before, seg, x, after, i - lo);
  }

  lemma Segment(bs: Blocks, r: Blocks, lo: nat, i: nat, hi: nat)
    returns (before: Blocks, seg: Blocks, x: Block, after: Blocks)
    requires Fused(bs, r, lo, hi) && OneInUse(bs, lo, i, hi)
    ensures lo <= i <= hi < |bs| && bs == before + seg + after && r == before + [x] + after && |seg| == hi - lo + 1
    ensures OneInUse(seg, 0, i - lo, hi - lo) && seg[i-lo].size == bs[i].size && x.avail && x.size == Sum(seg) - HDR
  {
    SumPositive(bs, lo, hi);
    before, seg, x, after := bs[..lo], bs[lo..hi+1], Block(bs[lo].addr, Sum(bs[lo..hi+1]) - HDR, true), bs[hi+1..];
    forall j | 0 <= j < |seg| && j != i - lo ensures seg[j].avail { assert seg[j] == bs[lo + j]; }
  }

  lemma SegmentBytes(before: Blocks, seg: Blocks, x: Block, after: Blocks, i: nat)
    requires seg != [] && OneInUse(seg, 0, i, |seg| - 1) && x.avail && x.size == Sum(seg) - HDR
    ensures FreeBytes(before + [x] + after) == FreeBytes(before + seg + after) + seg[i].size + HDR * (|seg| - 1)
    ensures Sum(before + [x] + after) == Sum(before + seg + after)
  {
    hide FreeBytes, Sizes;
    AllFreeButOne(seg, i);
    Swapped(before, seg, x, after);
  }

  lemma AllFreeButOne(seg: Blocks, i: nat)
    requires i < |seg| && !seg[i].avail && forall j :: 0 <= j < |seg| && j != i ==> seg[j].avail
    ensures FreeBytes(seg) + seg[i].size == Sizes(seg)
  {
    hide FreeBytes, Sizes;
    assert seg == seg[..i] + [seg[i]] + seg[i+1..];
    AllFree(seg[..i]);
    AllFree(seg[i+1..]);
    BytesJoined(seg[..i], [seg[i]]);
    BytesJoined(seg[..i] + [seg[i]], seg[i+1..]);
    OneByte(seg[i]);
  }

  lemma Swapped(a: Blocks, seg: Blocks, x: Block, c: Blocks)
    ensures FreeBytes(a + [x] + c) == FreeBytes(a + seg + c) - FreeBytes(seg) + if x.avail then x.size else 0
    ensures Sum(a + [x] + c) == Sum(a + seg + c) - Sum(seg) + x.size + HDR
  {
    hide FreeBytes, Sizes, Sum;
    BytesJoined(a, seg);
    BytesJoined(a + seg, c);
    BytesJoined(a, [x]);
    BytesJoined(a + [x], c);
    OneByte(x);
  }

  // ---------- kfree ----------

  /** The free bytes grow by exactly what was given back and by the headers merged away, and no
      byte of the list is lost. The merged block begins at or before the freed one; the bytes it
      has are those of the blocks merged, which are named. */
  lemma FreeReturns(h: HeapState, p: nat) returns (lo: nat, i: nat, hi: nat)
    requires Inv(h) && p in h.live
    ensures h.bs != [] && lo <= i <= hi < |h.bs| && h.bs[i].addr + HDR == p && h.bs[i].size == h.live[p]
    ensures var r := Step(h, Free(p)).bs;
      && Fused(h.bs, r, lo, hi)
      && FreeBytes(r) == FreeBytes(h.bs) + h.live[p] + HDR * (|h.bs| - |r|) && Sum(r) == Sum(h.bs)
    ensures (forall j :: lo <= j < i ==> h.bs[j].avail) && (lo == 0 || !h.bs[lo-1].avail)
    ensures (forall j :: i < j <= hi ==> Mergeworthy(h.bs, j)) && (hi + 1 == |h.bs| || !Mergeworthy(h.bs, hi + 1))
  {
    hide Ordered, Coalesced, Resident, RoomToAppend, Held1, HeadersMapped, Freed, Held;
    HasHead(h.bs);
    LiveIndex(h, p);
    i := IndexAt(h.bs, p, 0);
    lo, hi := FreedFuses(h.bs, i);
    forall j | lo <= j <= hi && j != i ensures h.bs[j].avail { if j > i { assert Mergeworthy(h.bs, j); } }
    FusedBytes(h.bs, Freed(h.bs, i).0, lo, i, hi);
  }

  /** The slack that allocations have left between these blocks. */
  function Slack(bs: Blocks, lo: nat, i: nat): int
    requires lo <= i < |bs|
  {
    bs[i].addr - bs[lo].addr - Sum(bs[lo..i])
  }

  /** The merged block covers the freed one to its last byte if and only if the slack before it is
      no more than what was merged after it. */
  lemma CoversIff(bs: Blocks, r: Blocks, lo: nat, i: nat, hi: nat)
    requires Fused(bs, r, lo, hi) && lo <= i <= hi
    ensures r[lo].addr == bs[lo].addr
    ensures bs[i].End() <= r[lo].End() <==> Slack(bs, lo, i) <= Sum(bs[i+1..hi+1])
    ensures lo == i ==> Slack(bs, lo, i) == 0
  {
    assert bs[lo..hi+1] == bs[lo..i] + [bs[i]] + bs[i+1..hi+1];
    BytesJoined(bs[lo..i], [bs[i]]);
    BytesJoined(bs[lo..i] + [bs[i]], bs[i+1..hi+1]);
    OneByte(bs[i]);
    SumPositive(bs, lo, hi);
    if lo == i { assert bs[lo..i] == []; }
  }

  /** So kfree gives back every byte of the block at `p` unless allocations have left slack before it. */
  lemma FreeCovers(h: HeapState, p: nat) returns (lo: nat, i: nat, hi: nat)
    requires Inv(h) && p in h.live
    ensures lo <= i <= hi < |h.bs| && h.bs[i].addr + HDR == p
    ensures var r := Step(h, Free(p)).bs;
      && Fused(h.bs, r, lo, hi) && lo < |r| && r[lo].avail && r[lo].addr <= p - HDR
      && (p + h.live[p] <= r[lo].End() <==> Slack(h.bs, lo, i) <= Sum(h.bs[i+1..hi+1]))
  {
    hide Inv, Ordered, Step;
    lo, i, hi := FreeReturns(h, p);
    InvOrdered(h);
    if lo < i { InOrder2(h.bs, lo, i); }
    CoversIff(h.bs, Step(h, Free(p)).bs, lo, i, hi);
  }

  // ---------- kmalloc ----------

  /** An available block with room for `n` bytes, or the last one, which grows. */
  predicate Fits(bs: Blocks, j: nat, n: nat, a: nat)
    requires j < |bs| && a > 0
  {
    bs[j].avail && (n <= bs[j].size || j == |bs| - 1) && (bs[j].addr + HDR) % a == 0
  }

  function Alignment(op: Op): nat
    requires !op.Free?
  {
    if op.Malloc? then 1 else op.a
  }

  /** If any block fits, the lowest that does is handed out: it keeps its place, and what it has
      left becomes the next block if a header fits; no other block changes. */
  lemma FirstFit(h: HeapState, op: Op, k: nat)
    requires Inv(h) && !op.Free? && Legal(h, op)
    requires h.bs != [] && Alignment(op) > 0 && k < |h.bs| && Fits(h.bs, k, Align4(op.sz), Alignment(op))
    requires forall j: nat :: j < k ==> !Fits(h.bs, j, Align4(op.sz), Alignment(op))
    ensures var b, n, r := h.bs[k], Align4(op.sz), Step(h, op).bs;
      && Result(h, op) == b.addr + HDR
      && r == h.bs[..k] + [Block(b.addr, n, false)]
              + (if n + HDR <= b.size then [Block(b.addr + HDR + n, b.size - n - HDR, true)] else [])
              + h.bs[k+1..]
      && FreeBytes(r) == FreeBytes(h.bs) - (if n + HDR <= b.size then n + HDR else b.size)
  {
    hide Ordered, Coalesced, Resident, RoomToAppend, Held1, HeadersMapped, AppendAligned, Append;
    LowestFound(h.bs, Align4(op.sz), Alignment(op), k, 0);
    TakenList(h.bs, k, Align4(op.sz));
    TakenBytes(h.bs, k, Align4(op.sz));
  }

  function Left(b: Block, n: nat): Blocks {
    if n + HDR <= b.size then [Block(b.addr + HDR + n, b.size - n - HDR, true)] else []
  }

  lemma TakenList(bs: Blocks, k: nat, n: nat)
    requires k < |bs|
    ensures Take(bs, k, n) == bs[..k] + [Block(bs[k].addr, n, false)] + Left(bs[k], n) + bs[k+1..]
  {
  }

  lemma TakenBytes(bs: Blocks, k: nat, n: nat)
    requires k < |bs| && bs[k].avail
    ensures var b := bs[k];
      FreeBytes(bs[..k] + [Block(b.addr, n, false)] + Left(b, n) + bs[k+1..])
        == FreeBytes(bs) - (if n + HDR <= b.size then n + HDR else b.size)
  {
    hide FreeBytes, Sizes;
    var b, t, rest := bs[k], Block(bs[k].addr, n, false), Left(bs[k], n);
    assert bs == bs[..k] + [b] + bs[k+1..];
    BytesJoined(bs[..k], [b]);
    BytesJoined(bs[..k] + [b], bs[k+1..]);
    BytesJoined(bs[..k], [t]);
    BytesJoined(bs[..k] + [t], rest);
    BytesJoined(bs[..k] + [t] + rest, bs[k+1..]);
    OneByte(b);
    OneByte(t);
    if rest != [] { OneByte(rest[0]); } else { NoBytes(); }
  }

  lemma NoBytes()
    ensures FreeBytes([]) == 0
  {
  }

  lemma {:induction false} LowestFound(bs: Blocks, n: nat, a: nat, k: nat, i: nat)
    requires a > 0 && i <= k < |bs| && Fits(bs, k, n, a) && forall j: nat :: j < k ==> !Fits(bs, j, n, a)
    ensures FirstUsable(bs, n, a, i) == k
    decreases k - i
  {
    assert Fits(bs, i, n, a) <==> UsableAligned(bs, i, n, a);
    if i < k { LowestFound(bs, n, a, k, i + 1); }
  }

  lemma {:induction false} NoneFound(bs: Blocks, n: nat, a: nat, i: nat)
    requires a > 0 && i <= |bs| && forall j: nat :: j < |bs| ==> !Fits(bs, j, n, a)
    ensures FirstUsable(bs, n, a, i) == |bs|
    decreases |bs| - i
  {
    if i < |bs| {
      assert Fits(bs, i, n, a) <==> UsableAligned(bs, i, n, a);
      NoneFound(bs, n, a, i + 1);
    }
  }

  /** Only if none does is the list extended: by a block right after the last one, or by one at the
      first aligned address that leaves room for a header. The room before that one goes to the last
      block if that is available, and else to a block of its own if a header fits. */
  lemma NothingFits(h: HeapState, op: Op)
    requires Inv(h) && !op.Free? && Legal(h, op) && h.bs != [] && Alignment(op) > 0
    requires forall j: nat :: j < |h.bs| ==> !Fits(h.bs, j, Align4(op.sz), Alignment(op))
    ensures var l, n, r, q := h.bs[|h.bs|-1], Align4(op.sz), Step(h, op).bs, Result(h, op);
      && |r| > |h.bs| && r[|r|-1] == Block(q - HDR, n, false)
      && l.End() <= q - HDR < l.End() + Alignment(op) && q % Alignment(op) == 0
      && (op.Malloc? ==> q == l.End() + HDR)
      && r == (if l.avail then h.bs[..|h.bs|-1] + [Block(l.addr, q - HDR - (l.addr + HDR), true)]
               else if q - HDR >= l.End() + HDR then h.bs + [Block(l.End(), q - HDR - (l.End() + HDR), true)]
               else h.bs)
              + [Block(q - HDR, n, false)]
  {
    hide Ordered, Coalesced, Resident, RoomToAppend, Held1, HeadersMapped, AlignUp;
    var l, n, a := h.bs[|h.bs|-1], Align4(op.sz), Alignment(op);
    NoneFound(h.bs, n, a, 0);
    if op.Malloc? {
      assert Step(h, op).bs == h.bs + [Block(l.End(), n, false)];
    } else {
      AlignUpFacts(l.End() + HDR, a);
      AlignedTail(h.bs, a, n);
    }
  }

  lemma AlignedTail(bs: Blocks, a: nat, n: nat)
    requires bs != [] && a > 0
    ensures var g := AppendAligned(bs, a); var r := Take(g, |g| - 1, n);
      r == g[..|g|-1] + [Block(AlignedAddr(bs[|bs|-1], a), n, false)]
    ensures var l, p := bs[|bs|-1], AlignedAddr(bs[|bs|-1], a);
      AppendAligned(bs, a) == (if l.avail then bs[..|bs|-1] + [Block(l.addr, p - (l.addr + HDR), true)]
                               else if p >= l.End() + HDR then bs + [Block(l.End(), p - (l.End() + HDR), true)]
                               else bs)
                              + [Block(p, 0, true)]
  {
    hide AlignedAddr;
  }

  /** What was given back is used again: as much as that, or less, is found at or below it. */
  lemma FreedIsReused(h: HeapState, p: nat, sz: nat)
    requires Inv(h) && p in h.live && Safe(h, Free(p)) && Align4(sz) <= h.live[p]
    ensures var r := Step(h, Free(p)); Inv(r) && r.bs != [] && Result(r, Malloc(sz)) <= p
  {
    hide Inv, Ordered, Coalesced, Resident, RoomToAppend, Held1, HeadersMapped, Step, Safe;
    StepKeeps(h, Free(p));
    var lo, i, hi := FreeReturns(h, p);
    var r := Step(h, Free(p));
    InvOrdered(h);
    InvOrdered(r);
    FusedSize(h.bs, r.bs, lo, i, hi);
    if lo < i { InOrder2(h.bs, lo, i); }
    assert Fits(r.bs, lo, Align4(sz), 1);
    var k := Lowest(r.bs, Align4(sz), 1, lo);
    FirstFit(r, Malloc(sz), k);
    if k < lo { InOrder2(r.bs, k, lo); }
  }

  lemma InvOrdered(h: HeapState)
    requires Inv(h)
    ensures Ordered(h.bs) && h.bs != []
  {
  }

  lemma InOrder2(bs: Blocks, i: nat, j: nat)
    requires Ordered(bs) && i < j < |bs|
    ensures bs[i].addr < bs[j].addr
  {
    assert bs[i].End() <= bs[j].addr;
  }

  lemma FusedSize(bs: Blocks, r: Blocks, lo: nat, i: nat, hi: nat)
    requires Fused(bs, r, lo, hi) && lo <= i <= hi
    ensures lo < |r| && r[lo].avail && r[lo].size >= bs[i].size && r[lo].addr == bs[lo].addr
  {
    assert bs[lo..hi+1] == bs[lo..i] + [bs[i]] + bs[i+1..hi+1];
    BytesJoined(bs[lo..i], [bs[i]]);
    BytesJoined(bs[lo..i] + [bs[i]], bs[i+1..hi+1]);
    OneByte(bs[i]);
  }

  lemma {:induction false} Lowest(bs: Blocks, n: nat, a: nat, i: nat) returns (k: nat)
    requires a > 0 && i < |bs| && Fits(bs, i, n, a)
    ensures k <= i && Fits(bs, k, n, a) && forall j: nat :: j < k ==> !Fits(bs, j, n, a)
    decreases i
  {
    if j: nat :| j < i && Fits(bs, j, n, a) { k := Lowest(bs, n, a, j); } else { k := i; }
  }

  // ---------- a run that loses bytes between blocks ----------

  /** Three blocks; the first is given back, taken again with 12 bytes less, and given back with the
      second one. */
  const SLACKENS := [Malloc(100), Malloc(100), Malloc(100), Free(4136), Malloc(88), Free(4136), Free(4256)]

  const H := Block(4096, 0, false)
  const A := Block(4116, 100, false)
  const B := Block(4236, 100, false)
  const C := Block(4356, 100, false)

  predicate Is(h: HeapState, bs: Blocks, live: map<nat, nat>) { h.bs == bs && h.live == live }

  lemma Fills(h: HeapState, sz: nat)
    requires h.bs != [] && (forall b :: b in h.bs ==> !b.avail)
    ensures var e, n := h.bs[|h.bs|-1].End(), Align4(sz);
      Legal(h, Malloc(sz)) && Is(Step(h, Malloc(sz)), h.bs + [Block(e, n, false)], h.live[e + HDR := n])
  {
    GrowsAtEnd(h, sz);
  }

  lemma FillsThree() returns (h: HeapState)
    ensures var ops := SLACKENS[..3]; Runs(Start(1), ops) && AllSafe(Start(1), ops) && h == Run(Start(1), ops)
    ensures Is(h, [H, A, B, C], map[4136 := 100, 4256 := 100, 4376 := 100])
  {
    hide Step, Runs, Run, AllSafe;
    var h0 := Start(1);
    NoCalls(h0);
    Fills(h0, 100);
    Extend(h0, [], Malloc(100));
    var h1 := Step(h0, Malloc(100));
    assert h1.bs == [H, A];
    Fills(h1, 100);
    Extend(h0, [] + [Malloc(100)], Malloc(100));
    var h2 := Step(h1, Malloc(100));
    assert h2.bs == [H, A, B];
    Fills(h2, 100);
    Extend(h0, [] + [Malloc(100)] + [Malloc(100)], Malloc(100));
    h := Step(h2, Malloc(100));
    assert h.bs == [H, A, B, C];
    assert SLACKENS[..3] == [] + [Malloc(100)] + [Malloc(100)] + [Malloc(100)];
  }

  lemma NoCalls(h: HeapState)
    ensures Runs(h, []) && AllSafe(h, []) && Run(h, []) == h
  {
  }

  lemma GivesFirst(h: HeapState, n: nat)
    requires Is(h, [H, A.(size := n), B, C], map[4136 := n, 4256 := 100, 4376 := 100])
    ensures Legal(h, Free(4136)) && Safe(h, Free(4136))
    ensures Is(Step(h, Free(4136)), [H, A.(size := n, avail := true), B, C], map[4256 := 100, 4376 := 100])
  {
    assert IndexAt(h.bs, 4136, 1) == 1;
    var s := h.bs[1 := h.bs[1].(avail := true)];
    assert MergeBack(s, 1) == (s, 1) && MergeFront(s, 1) == s;
    assert h.live - {4136} == map[4256 := 100, 4376 := 100];
  }

  lemma TakesLess(h: HeapState)
    requires Is(h, [H, A.(avail := true), B, C], map[4256 := 100, 4376 := 100])
    ensures Legal(h, Malloc(88)) && Safe(h, Malloc(88))
    ensures Is(Step(h, Malloc(88)), [H, A.(size := 88), B, C], map[4136 := 88, 4256 := 100, 4376 := 100])
  {
    assert FirstUsable(h.bs, 88, 1, 1) == 1;
    assert Align4(88) == 88;
  }

  lemma GivesSecond(h: HeapState)
    requires Is(h, [H, A.(size := 88, avail := true), B, C], map[4256 := 100, 4376 := 100])
    ensures Legal(h, Free(4256)) && Safe(h, Free(4256))
    ensures Is(Step(h, Free(4256)), [H, A.(size := 208, avail := true), C], map[4376 := 100])
  {
    assert IndexAt(h.bs, 4256, 1) == 2 && IndexAt(h.bs, 4256, 2) == 2;
    var s := h.bs[2 := h.bs[2].(avail := true)];
    var j := Join(s, 1);
    assert j == [H, A.(size := 208, avail := true), C];
    assert MergeBack(j, 1) == (j, 1);
    assert MergeBack(s, 2) == (j, 1) && MergeFront(j, 1) == j;
    assert h.live - {4256} == map[4376 := 100];
  }

  /** In the end 208 bytes are available where 220 were, between blocks that never moved: the
      merged block ends 12 bytes before the freed one did, and a request for all of them goes to
      the end of the heap. */
  lemma SlackIsLost()
    ensures Runs(Start(1), SLACKENS) && AllSafe(Start(1), SLACKENS)
    ensures var r := Run(Start(1), SLACKENS);
      && r.bs == [H, A.(size := 208, avail := true), C] && r.bs[1].End() == B.End() - 12
      && Legal(r, Malloc(220)) && Result(r, Malloc(220)) == C.End() + HDR
  {
    hide Step, Runs, Run, AllSafe, Legal, Safe;
    var h0, three := Start(1), SLACKENS[..3];
    var h3 := FillsThree();
    assert [H, A, B, C] == [H, A.(size := 100), B, C];
    GivesFirst(h3, 100);
    Extend(h0, three, Free(4136));
    var h4 := Step(h3, Free(4136));
    TakesLess(h4);
    Extend(h0, three + [Free(4136)], Malloc(88));
    var h5 := Step(h4, Malloc(88));
    GivesFirst(h5, 88);
    Extend(h0, three + [Free(4136)] + [Malloc(88)], Free(4136));
    var h6 := Step(h5, Free(4136));
    GivesSecond(h6);
    Extend(h0, three + [Free(4136)] + [Malloc(88)] + [Free(4136)], Free(4256));
    assert SLACKENS == three + [Free(4136)] + [Malloc(88)] + [Free(4136)] + [Free(4256)];
    GoesToEnd(Step(h6, Free(4256)));
  }

  lemma GoesToEnd(r: HeapState)
    requires r.bs == [H, A.(size := 208, avail := true), C]
    ensures Legal(r, Malloc(220)) && Result(r, Malloc(220)) == C.End() + HDR
  {
    assert Align4(220) == 220;
    assert FirstUsable(r.bs, 220, 1, 3) == 3 && FirstUsable(r.bs, 220, 1, 2) == 3 && FirstUsable(r.bs, 220, 1, 1) == 3;
  }
}
