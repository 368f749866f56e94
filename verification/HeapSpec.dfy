/**
 * The kernel heap of kernel/mm/heap.c on values: the address-ordered list of blocks and the
 * set of mapped pages. `Heaps.Heap` (Heaps.dfy) is the in-place version.
 */
module HeapSpec {
  import opened Util

  const HDR := 20     // sizeof(heap_block_t) on i386
  const PAGE := 4096

  datatype Block = Block(addr: nat, size: nat, avail: bool) {
    /** The first address after the payload. */
    function End(): nat { addr + HDR + size }
  }

  type Blocks = seq<Block>

  function Align4(sz: nat): nat { (sz + 3) / 4 * 4 }

  // ---------- the operations ----------

  /** What heap_find accepts: an available block that is large enough, or the last one. */
  predicate Usable(bs: Blocks, i: nat, sz: nat)
    requires i < |bs|
  {
    (bs[i].size >= sz || i == |bs| - 1) && bs[i].avail
  }

  predicate UsableAligned(bs: Blocks, i: nat, sz: nat, a: nat)
    requires i < |bs| && a > 0
  {
    Usable(bs, i, sz) && (bs[i].addr + HDR) % a == 0
  }

  /** The first usable block, or the number of blocks; `a == 1` is heap_find. */
  function FirstUsable(bs: Blocks, sz: nat, a: nat, i: nat): (k: nat)
    requires i <= |bs| && a > 0
    ensures i <= k <= |bs| && (k < |bs| ==> UsableAligned(bs, k, sz, a))
    ensures forall j :: i <= j < k ==> !UsableAligned(bs, j, sz, a)
    decreases |bs| - i
  {
    if i == |bs| || UsableAligned(bs, i, sz, a) then i else FirstUsable(bs, sz, a, i + 1)
  }

  function Insert(bs: Blocks, i: nat, b: Block): Blocks
    requires i < |bs|
  {
    bs[..i+1] + [b] + bs[i+1..]
  }

  /** heap_find when nothing is usable: an empty block right after the last one. */
  function Append(bs: Blocks): Blocks
    requires bs != []
  {
    bs + [Block(bs[|bs|-1].End(), 0, true)]
  }

  /** Where heap_find_aligned puts a new block: its payload is the first aligned address that
      leaves room for a header. */
  function AlignedAddr(l: Block, a: nat): (r: nat)
    requires a > 0
    ensures r >= l.End() && (r + HDR) % a == 0
  {
    AlignUpFacts(l.End() + HDR, a);
    AlignUp(l.End() + HDR, a) - HDR
  }

  /** The room before the new block goes to the last block if that is available, else to a
      filler block if one fits. */
  function AppendAligned(bs: Blocks, a: nat): Blocks
    requires bs != [] && a > 0
  {
    var n, l := |bs| - 1, bs[|bs|-1];
    var p := AlignedAddr(l, a);
    var b := Block(p, 0, true);
    if l.avail then bs[n := l.(size := p - l.addr - HDR)] + [b]
    else if p - l.End() >= HDR then bs + [Block(l.End(), p - l.End() - HDR, true), b]
    else bs + [b]
  }

  function Found(bs: Blocks, sz: nat): (r: (Blocks, nat))
    requires bs != []
    ensures r.1 < |r.0| && Usable(r.0, r.1, sz)
  {
    var k := FirstUsable(bs, sz, 1, 0);
    if k < |bs| then (bs, k) else (Append(bs), |bs|)
  }

  function FoundAligned(bs: Blocks, sz: nat, a: nat): (r: (Blocks, nat))
    requires bs != [] && a > 0
    ensures r.1 < |r.0| && UsableAligned(r.0, r.1, sz, a)
  {
    var k := FirstUsable(bs, sz, a, 0);
    if k < |bs| then (bs, k) else (AppendAligned(bs, a), |AppendAligned(bs, a)| - 1)
  }

  /** Block `i` is handed out with size `sz`: what is left becomes a block of its own if it can
      hold a header; otherwise it is dropped. A last block that is too small just grows. */
  function Take(bs: Blocks, i: nat, sz: nat): Blocks
    requires i < |bs|
  {
    var b := bs[i];
    var taken := bs[i := Block(b.addr, sz, false)];
    if b.size < sz + HDR then taken
    else Insert(taken, i, Block(b.addr + HDR + sz, b.size - sz - HDR, true))
  }

  /** Block `i + 1` is merged into block `i`. */
  function Join(bs: Blocks, i: nat): Blocks
    requires i + 1 < |bs|
  {
    bs[..i] + [bs[i].(size := bs[i].size + HDR + bs[i+1].size)] + bs[i+2..]
  }

  function MergeBack(bs: Blocks, i: nat): (r: (Blocks, nat))
    requires i < |bs|
    ensures r.1 < |r.0| && r.1 <= i
    decreases i
  {
    if i > 0 && bs[i-1].avail then MergeBack(Join(bs, i - 1), i - 1) else (bs, i)
  }

  predicate Mergeable(bs: Blocks, i: nat) {
    i + 1 < |bs| && bs[i+1].avail && (bs[i+1].size > 0 || i + 2 == |bs|)
  }

  function MergeFront(bs: Blocks, i: nat): (r: Blocks)
    requires i < |bs|
    ensures i < |r|
    decreases |bs|
  {
    if Mergeable(bs, i) then MergeFront(Join(bs, i), i) else bs
  }

  function Freed(bs: Blocks, i: nat): (r: (Blocks, nat))
    requires i < |bs|
    ensures r.1 < |r.0|
  {
    var m := MergeBack(bs[i := bs[i].(avail := true)], i);
    (MergeFront(m.0, m.1), m.1)
  }

  // ---------- pages ----------

  function PageOf(a: nat): nat { a / PAGE }

  function NextAddr(bs: Blocks, i: nat): nat { if i + 1 < |bs| then bs[i+1].addr else 0 }

  /** Page `g` holds some of the bytes `lo` to `hi`. */
  predicate Touches(g: nat, lo: nat, hi: nat) { PageOf(lo) <= g <= PageOf(hi) }

  /** The pages kmalloc maps: up to the one that holds the end of the header that would follow. */
  function Mapped(b: nat, sz: nat): (r: set<nat>)
    ensures forall g :: g in r <==> Touches(g, b, b + sz + 2 * HDR)
  {
    var e := b + sz + 2 * HDR;
    set g: nat | g <= PageOf(e) && Touches(g, b, e) :: g
  }

  /** Page `g` is after the one of `b` and wholly before `next`. */
  predicate Between(g: nat, b: nat, next: nat) { PageOf(b) + 1 <= g && (g + 1) * PAGE < next }

  /** The pages kfree unmaps. */
  function Unmapped(b: nat, next: nat): (r: set<nat>)
    ensures forall g :: g in r <==> Between(g, b, next)
  {
    set g: nat | g < next && Between(g, b, next) :: g
  }

  // ---------- the invariant ----------

  /** Strict address order with no overlap, 4-aligned, and a head that is never handed out. */
  ghost predicate Ordered(bs: Blocks) {
    && bs != [] && !bs[0].avail && bs[0].size == 0
    && (forall i :: 0 <= i < |bs| ==> bs[i].addr > 0 && bs[i].addr % 4 == 0 && bs[i].size % 4 == 0)
    && (forall i, j :: 0 <= i < j < |bs| ==> bs[i].End() <= bs[j].addr)
  }

  /** An available block after an available one is empty and not last. */
  predicate Settled(bs: Blocks, i: int) {
    0 < i < |bs| && bs[i-1].avail && bs[i].avail ==> bs[i].size == 0 && i < |bs| - 1
  }

  ghost predicate Coalesced(bs: Blocks) { forall i :: Settled(bs, i) }

  /** `p` is the payload of a block of `n` bytes that is not available. */
  predicate Held(bs: Blocks, p: int, n: nat) {
    p >= HDR && Block(p - HDR, n, false) in bs
  }

  ghost predicate Resident(bs: Blocks, pages: set<nat>) {
    forall b, g :: b in bs && !b.avail && Touches(g, b.addr, b.End() - 1) ==> g in pages
  }

  /** The header that heap_find would write after a last block that is in use is mapped. */
  ghost predicate RoomToAppend(bs: Blocks, pages: set<nat>)
    requires bs != []
  {
    var l := bs[|bs|-1];
    !l.avail ==> forall g :: Touches(g, l.addr, l.End() + HDR - 1) ==> g in pages
  }

  /** A header lies on mapped pages; it has 20 bytes and so meets two pages at most. */
  predicate HeaderOn(a: nat, pages: set<nat>) { PageOf(a) in pages && PageOf(a + HDR - 1) in pages }

  lemma HeaderBytes(a: nat, pages: set<nat>)
    ensures HeaderOn(a, pages) <==> forall x: nat :: a <= x < a + HDR ==> PageOf(x) in pages
  {
    forall x: nat | a <= x < a + HDR ensures PageOf(x) == PageOf(a) || PageOf(x) == PageOf(a + HDR - 1) {}
  }

  /** Every header of the list can be read. */
  ghost predicate HeadersMapped(bs: Blocks, pages: set<nat>) { forall b :: b in bs ==> HeaderOn(b.addr, pages) }

  /** kfree's unmapping leaves the header at `b` alone: it is within one page, or the second one
      is not wholly before the next block. */
  predicate KeepsHeader(b: nat, next: nat) { b % PAGE <= PAGE - HDR || (PageOf(b) + 2) * PAGE >= next }

  // ---------- handing out ----------

  lemma Align4Facts(sz: nat)
    ensures sz <= Align4(sz) < sz + 4 && Align4(sz) % 4 == 0
  {
  }

  /** A block may change in size as long as it ends before the next one. */
  lemma ResizeOrdered(bs: Blocks, i: nat, b: Block)
    requires Ordered(bs) && i < |bs| && b.addr == bs[i].addr && b.size % 4 == 0 && (i == 0 ==> b == bs[0])
    requires i + 1 < |bs| ==> b.End() <= bs[i+1].addr
    ensures Ordered(bs[i := b])
  {
    var r := bs[i := b];
    forall j, k | 0 <= j < k < |r| ensures r[j].End() <= r[k].addr {
      assert bs[j].End() <= bs[k].addr;
      if j == i && k > i + 1 { assert bs[i+1].End() <= bs[k].addr; }
    }
  }

  /** A new block may go where it overlaps nothing. */
  lemma InsertOrdered(bs: Blocks, i: nat, b: Block)
    requires Ordered(bs) && i < |bs| && bs[i].End() <= b.addr && b.addr % 4 == 0 && b.size % 4 == 0
    requires i + 1 < |bs| ==> b.End() <= bs[i+1].addr
    ensures Ordered(Insert(bs, i, b))
  {
    var r := Insert(bs, i, b);
    forall j, k | 0 <= j < k < |r| ensures r[j].End() <= r[k].addr {
      var x, y := if j <= i then j else j - 1, if k <= i then k else k - 1;
      if x < y { assert bs[x].End() <= bs[y].addr; }
      if j < i && k == i + 1 { assert bs[j].End() <= bs[i].addr; }
      if j == i + 1 && k > i + 2 { assert bs[i+1].End() <= bs[k-1].addr; }
    }
  }

  lemma Sums4(x: nat, y: nat)
    requires y % 4 == 0
    ensures (x + y) % 4 == x % 4
  {
  }

  lemma NeighbourFacts(bs: Blocks, i: nat)
    requires Ordered(bs) && i < |bs|
    ensures i + 1 < |bs| ==> bs[i].End() <= bs[i+1].addr
    ensures bs[i].avail ==> i > 0
    ensures bs[i].addr > 0 && bs[i].addr % 4 == 0 && bs[i].size % 4 == 0
  {
  }

  lemma TakeOrdered(bs: Blocks, i: nat, sz: nat)
    requires Ordered(bs) && i < |bs| && Usable(bs, i, sz) && sz % 4 == 0
    ensures Ordered(Take(bs, i, sz))
  {
    hide Ordered;
    var b := bs[i];
    NeighbourFacts(bs, i);
    ResizeOrdered(bs, i, Block(b.addr, sz, false));
    if b.size >= sz + HDR {
      Sums4(b.addr + HDR, sz);
      Sums4(b.size - sz - HDR, sz + HDR);
      InsertOrdered(bs[i := Block(b.addr, sz, false)], i, Block(b.addr + HDR + sz, b.size - sz - HDR, true));
    }
  }

  /** Taking repairs whatever was unsettled before the block it takes. */
  lemma TakeCoalesced(bs: Blocks, i: nat, sz: nat)
    requires i < |bs| && Usable(bs, i, sz) && forall j :: j == i || Settled(bs, j)
    ensures Coalesced(Take(bs, i, sz))
  {
    var r := Take(bs, i, sz);
    forall j ensures Settled(r, j) {
      if 0 < j < |r| && r[j-1].avail && r[j].avail {
        if j < i { assert Settled(bs, j); }
        else { assert Settled(bs, j - (|r| - |bs|)); }
      }
    }
  }

  /** Handing out adds one held block and leaves every other one alone. */
  lemma TakeHeld(bs: Blocks, i: nat, sz: nat, p: int, n: nat)
    requires i < |bs| && Usable(bs, i, sz)
    ensures Held(Take(bs, i, sz), p, n) <==> Held(bs, p, n) || (p == bs[i].addr + HDR && n == sz)
  {
    var b, r := bs[i], Take(bs, i, sz);
    var rest := if b.size < sz + HDR then bs[i+1..]
      else [Block(b.addr + HDR + sz, b.size - sz - HDR, true)] + bs[i+1..];
    assert bs == bs[..i] + [b] + bs[i+1..];
    assert r == bs[..i] + [Block(b.addr, sz, false)] + rest;
  }

  lemma TakeResident(bs: Blocks, i: nat, sz: nat, pages: set<nat>)
    requires i < |bs| && Usable(bs, i, sz) && Resident(bs, pages)
    ensures Resident(Take(bs, i, sz), pages + Mapped(bs[i].addr, sz))
  {
    forall b, g | b in Take(bs, i, sz) && !b.avail && Touches(g, b.addr, b.End() - 1)
      ensures g in pages + Mapped(bs[i].addr, sz)
    {
      assert Held(Take(bs, i, sz), b.addr + HDR, b.size);
      TakeHeld(bs, i, sz, b.addr + HDR, b.size);
    }
  }

  lemma TakeRoom(bs: Blocks, i: nat, sz: nat, pages: set<nat>)
    requires i < |bs| && Usable(bs, i, sz) && (i == |bs| - 1 || RoomToAppend(bs, pages))
    ensures RoomToAppend(Take(bs, i, sz), pages + Mapped(bs[i].addr, sz))
  {
  }

  // ---------- growing the list ----------

  lemma AppendOrdered(bs: Blocks)
    requires bs != [] && Ordered(bs)
    ensures Ordered(Append(bs)) && Append(bs) == Insert(bs, |bs| - 1, Block(bs[|bs|-1].End(), 0, true))
  {
    hide Ordered;
    NeighbourFacts(bs, |bs| - 1);
    EndBy4(bs[|bs|-1]);
    InsertOrdered(bs, |bs| - 1, Block(bs[|bs|-1].End(), 0, true));
    assert Append(bs) == Insert(bs, |bs| - 1, Block(bs[|bs|-1].End(), 0, true));
  }

  lemma AppendKeeps(bs: Blocks)
    requires bs != [] && Ordered(bs) && Coalesced(bs) && !bs[|bs|-1].avail
    ensures Ordered(Append(bs)) && (forall j :: j == |bs| || Settled(Append(bs), j))
    ensures forall p, n :: Held(Append(bs), p, n) <==> Held(bs, p, n)
  {
    hide Ordered;
    AppendOrdered(bs);
    forall j | j != |bs| ensures Settled(Append(bs), j) {
      assert Settled(bs, j);
    }
  }

  lemma AlignedAddrFacts(l: Block, a: nat)
    requires PowerOfTwo(a) && l.addr % 4 == 0 && l.size % 4 == 0
    ensures AlignedAddr(l, a) % 4 == 0
  {
    hide AlignUp, PowerOfTwo;
    PowerPositive(a);
    Sums4(l.addr + 2 * HDR, l.size);
    AlignUpBy4(l.End() + HDR, a);
    HeaderBefore(AlignUp(l.End() + HDR, a), AlignedAddr(l, a));
  }

  lemma PowerPositive(a: nat)
    requires PowerOfTwo(a)
    ensures a > 0
  {
  }

  lemma HeaderBefore(u: nat, p: nat)
    requires u % 4 == 0 && p + HDR == u
    ensures p % 4 == 0
  {
  }

  lemma EndBy4(l: Block)
    requires l.addr % 4 == 0 && l.size % 4 == 0
    ensures l.End() % 4 == 0
  {
  }

  lemma AppendAlignedOrdered(bs: Blocks, a: nat)
    requires bs != [] && Ordered(bs) && a > 0 && PowerOfTwo(a)
    ensures Ordered(AppendAligned(bs, a))
  {
    hide Ordered, AlignUp, PowerOfTwo, AlignedAddr;
    NeighbourFacts(bs, |bs| - 1);
    AlignedAddrFacts(bs[|bs|-1], a);
    TailOrdered(bs, AlignedAddr(bs[|bs|-1], a), AppendAligned(bs, a));
  }

  lemma TailOrdered(bs: Blocks, p: nat, r: Blocks)
    requires bs != [] && Ordered(bs) && p >= bs[|bs|-1].End() && p % 4 == 0
    requires var n, l, b := |bs| - 1, bs[|bs|-1], Block(p, 0, true);
      r == if l.avail then bs[n := l.(size := p - l.addr - HDR)] + [b]
           else if p - l.End() >= HDR then bs + [Block(l.End(), p - l.End() - HDR, true), b]
           else bs + [b]
    ensures Ordered(r)
  {
    hide Ordered;
    var n, l := |bs| - 1, bs[|bs|-1];
    NeighbourFacts(bs, n);
    EndBy4(l);
    if l.avail {
      Diffs4(p, l.addr + HDR);
      var s := bs[n := l.(size := p - l.addr - HDR)];
      ResizeOrdered(bs, n, s[n]);
      PushOrdered(s, Block(p, 0, true));
    } else if p - l.End() >= HDR {
      Diffs4(p - l.End(), HDR);
      var f := Block(l.End(), p - l.End() - HDR, true);
      PushOrdered(bs, f);
      PushOrdered(bs + [f], Block(p, 0, true));
      assert r == bs + [f] + [Block(p, 0, true)];
    } else {
      PushOrdered(bs, Block(p, 0, true));
    }
  }

  lemma PushOrdered(bs: Blocks, b: Block)
    requires bs != [] && Ordered(bs) && bs[|bs|-1].End() <= b.addr && b.addr % 4 == 0 && b.size % 4 == 0
    ensures Ordered(bs + [b])
  {
    hide Ordered;
    InsertOrdered(bs, |bs| - 1, b);
    assert Insert(bs, |bs| - 1, b) == bs + [b];
  }

  lemma Diffs4(x: int, y: int)
    requires x >= y && x % 4 == 0 && y % 4 == 0
    ensures (x - y) % 4 == 0
  {
  }

  lemma AppendAlignedKeeps(bs: Blocks, a: nat)
    requires bs != [] && Ordered(bs) && Coalesced(bs) && a > 0
    ensures forall j :: j == |AppendAligned(bs, a)| - 1 || Settled(AppendAligned(bs, a), j)
    ensures forall p, n :: Held(AppendAligned(bs, a), p, n) <==> Held(bs, p, n)
  {
    hide Ordered, AlignedAddr;
    var r := AppendAligned(bs, a);
    var n, l := |bs| - 1, bs[|bs|-1];
    assert bs == bs[..n] + [l];
    assert l.avail ==> r[..n+1] == bs[..n] + [r[n]];
    forall j | j != |r| - 1 ensures Settled(r, j) {
      assert Settled(bs, j);
    }
  }

  // ---------- giving back ----------

  lemma JoinOrdered(bs: Blocks, i: nat)
    requires Ordered(bs) && i + 1 < |bs| && bs[i].avail
    ensures Ordered(Join(bs, i))
  {
    var r := Join(bs, i);
    NeighbourFacts(bs, i);
    NeighbourFacts(bs, i + 1);
    Sums4(bs[i].size + HDR, bs[i+1].size);
    forall j, k | 0 <= j < k < |r| ensures r[j].End() <= r[k].addr { JoinGap(bs, i, j, k); }
    forall j | 0 <= j < |r| ensures r[j].addr > 0 && r[j].addr % 4 == 0 && r[j].size % 4 == 0 {
      if j != i { NeighbourFacts(bs, if j < i then j else j + 1); }
    }
  }

  lemma JoinGap(bs: Blocks, i: nat, j: nat, k: nat)
    requires Ordered(bs) && i + 1 < |bs| && j < k < |Join(bs, i)|
    ensures Join(bs, i)[j].End() <= Join(bs, i)[k].addr
  {
    var x, y := if j <= i then j else j + 1, if k <= i then k else k + 1;
    assert bs[x].End() <= bs[y].addr;
    if j == i { assert bs[i+1].End() <= bs[y].addr; }
  }

  lemma JoinHeld(bs: Blocks, i: nat)
    requires i + 1 < |bs| && bs[i].avail && bs[i+1].avail
    ensures forall p, n :: Held(Join(bs, i), p, n) <==> Held(bs, p, n)
    ensures var r := Join(bs, i); !r[|r|-1].avail ==> r[|r|-1] == bs[|bs|-1]
  {
    assert bs == bs[..i] + [bs[i], bs[i+1]] + bs[i+2..];
  }

  /** Only what touches block `i` may be unsettled. */
  ghost predicate SettledBut(bs: Blocks, i: nat) { forall j :: j == i || j == i + 1 || Settled(bs, j) }

  lemma JoinSettled(bs: Blocks, i: nat, hole: nat)
    requires i + 1 < |bs| && (hole == i || hole == i + 1) && SettledBut(bs, hole)
    requires hole == i ==> (0 < i ==> !bs[i-1].avail) && Mergeable(bs, i)
    ensures SettledBut(Join(bs, i), i)
  {
    var r := Join(bs, i);
    forall j | j != i && j != i + 1 ensures Settled(r, j) {
      if j < i { assert Settled(bs, j); } else { assert Settled(bs, j + 1); }
    }
  }

  /** What merging keeps, taking `bs` to `r` and block `i` to block `k`. */
  ghost predicate Merged(bs: Blocks, r: Blocks) {
    && Ordered(r) && bs != []
    && (forall p, n :: Held(r, p, n) <==> Held(bs, p, n))
    && (!r[|r|-1].avail ==> r[|r|-1] == bs[|bs|-1])
    && r[0].addr == bs[0].addr
  }

  lemma MergedJoin(bs: Blocks, i: nat)
    requires Ordered(bs) && i + 1 < |bs| && bs[i].avail && bs[i+1].avail
    ensures Merged(bs, Join(bs, i))
  {
    hide Ordered, Held;
    JoinOrdered(bs, i);
    JoinHeld(bs, i);
    NeighbourFacts(bs, i);
  }

  lemma MergedOn(a: Blocks, b: Blocks, c: Blocks)
    requires Merged(a, b) && Merged(b, c)
    ensures Merged(a, c)
  {
    hide Ordered, Held;
  }

  lemma MergedNot(bs: Blocks)
    requires Ordered(bs)
    ensures Merged(bs, bs)
  {
  }

  lemma JoinAddrs(bs: Blocks, i: nat)
    requires Ordered(bs) && i < |bs|
    ensures bs[i].avail ==> i > 0
    ensures i > 0 ==> bs[i-1].addr < bs[i].addr
    ensures i + 1 < |bs| ==> 0 < NextAddr(bs, i)
    ensures i + 2 < |bs| ==> NextAddr(bs, i) <= NextAddr(bs, i + 1) == NextAddr(Join(bs, i), i)
  {
    if i > 0 { assert bs[i-1].End() <= bs[i].addr; }
    if i + 2 < |bs| { assert bs[i+1].End() <= bs[i+2].addr; }
  }

  lemma {:induction false} MergeBackKeeps(bs: Blocks, i: nat)
    requires Ordered(bs) && i < |bs| && bs[i].avail && SettledBut(bs, i)
    ensures var (r, k) := MergeBack(bs, i);
      && Merged(bs, r) && r[k].avail && SettledBut(r, k) && 0 < k && !r[k-1].avail
      && r[k].addr <= bs[i].addr && NextAddr(r, k) == NextAddr(bs, i)
    decreases i
  {
    hide Ordered, Merged, SettledBut, Mergeable;
    JoinAddrs(bs, i);
    if i > 0 && bs[i-1].avail {
      var j := Join(bs, i - 1);
      JoinAddrs(bs, i - 1);
      JoinOrdered(bs, i - 1);
      MergedJoin(bs, i - 1);
      JoinSettled(bs, i - 1, i);
      MergeBackKeeps(j, i - 1);
      MergedOn(bs, j, MergeBack(j, i - 1).0);
    } else {
      MergedNot(bs);
    }
  }

  lemma {:induction false} MergeFrontKeeps(bs: Blocks, i: nat)
    requires Ordered(bs) && i < |bs| && bs[i].avail && SettledBut(bs, i) && 0 < i && !bs[i-1].avail
    ensures var r := MergeFront(bs, i);
      && Merged(bs, r) && r[i].avail && Coalesced(r) && !r[i-1].avail && !Mergeable(r, i)
      && r[i].addr == bs[i].addr && (NextAddr(r, i) == 0 || NextAddr(r, i) >= NextAddr(bs, i) > 0)
    decreases |bs|
  {
    hide Ordered, Merged;
    if Mergeable(bs, i) {
      var j := Join(bs, i);
      JoinAddrs(bs, i);
      JoinOrdered(bs, i);
      MergedJoin(bs, i);
      JoinSettled(bs, i, i);
      MergeFrontKeeps(j, i);
      MergedOn(bs, j, MergeFront(j, i));
    } else {
      MergedNot(bs);
      forall j ensures Settled(bs, j) {
        if j == i || j == i + 1 {}
      }
    }
  }

  lemma OneBlock(bs: Blocks, b: Block, c: Block)
    requires Ordered(bs) && b in bs && c in bs && b.addr == c.addr
    ensures b == c
  {
  }

  lemma ReleaseKeeps(bs: Blocks, i: nat)
    requires Ordered(bs) && Coalesced(bs) && 0 < i < |bs|
    ensures var r := bs[i := bs[i].(avail := true)];
      Ordered(r) && SettledBut(r, i) && (forall p, n :: Held(r, p, n) <==> Held(bs, p, n) && p != bs[i].addr + HDR)
  {
    var r := bs[i := bs[i].(avail := true)];
    NeighbourFacts(bs, i);
    ResizeOrdered(bs, i, r[i]);
    forall j | j != i && j != i + 1 ensures Settled(r, j) {
      assert Settled(bs, j);
    }
    forall p, n ensures Held(r, p, n) <==> Held(bs, p, n) && p != bs[i].addr + HDR {
      if p >= HDR {
        var b := Block(p - HDR, n, false);
        if b in r { OneBlockMiss(bs, i, b); }
        if b in bs && b.addr != bs[i].addr {
          var j :| 0 <= j < |bs| && bs[j] == b;
          assert r[j] == b;
        }
      }
    }
  }

  lemma OneBlockMiss(bs: Blocks, i: nat, b: Block)
    requires Ordered(bs) && i < |bs| && !b.avail && b in bs[i := bs[i].(avail := true)]
    ensures b in bs && b.addr != bs[i].addr
  {
  }

  /** After kfree the merged block has no available predecessor and no mergeable successor. */
  lemma FreedKeeps(bs: Blocks, i: nat)
    requires Ordered(bs) && Coalesced(bs) && 0 < i < |bs|
    ensures var (r, k) := Freed(bs, i);
      && Ordered(r) && Coalesced(r) && 0 < k && r[k].avail && !r[k-1].avail && !Mergeable(r, k)
      && (forall p, n :: Held(r, p, n) <==> Held(bs, p, n) && p != bs[i].addr + HDR)
      && (!r[|r|-1].avail ==> r[|r|-1] == bs[|bs|-1]) && r[0].addr == bs[0].addr
      && r[k].addr <= bs[i].addr && (NextAddr(r, k) == 0 || NextAddr(r, k) >= NextAddr(bs, i) > 0)
  {
    hide Ordered, Coalesced, SettledBut, Held, MergeBack, MergeFront, Mergeable;
    var s := bs[i := bs[i].(avail := true)];
    ReleaseKeeps(bs, i);
    MergeBackKeeps(s, i);
    var (m, k) := MergeBack(s, i);
    MergeFrontKeeps(m, k);
  }

  /** Unmapping after kfree touches no page of a block in use. */
  lemma FreedResident(bs: Blocks, r: Blocks, k: nat, pages: set<nat>)
    requires Ordered(r) && k < |r| && r[k].avail && Resident(bs, pages) && bs != [] && RoomToAppend(bs, pages)
    requires forall b :: b in r && !b.avail ==> b in bs
    requires !r[|r|-1].avail ==> r[|r|-1] == bs[|bs|-1]
    ensures var g := pages - Unmapped(r[k].addr, NextAddr(r, k)); Resident(r, g) && RoomToAppend(r, g)
  {
    var left := pages - Unmapped(r[k].addr, NextAddr(r, k));
    forall b, g | b in r && !b.avail && Touches(g, b.addr, b.End() - 1) ensures g in left {
      var j :| 0 <= j < |r| && r[j] == b;
      ApartFromFreed(r, k, j, g);
    }
    if !r[|r|-1].avail {
      forall g | Touches(g, r[|r|-1].addr, r[|r|-1].End() + HDR - 1) ensures g in left {
        ApartFromFreed(r, k, |r| - 1, g);
      }
    }
  }

  lemma ApartFromFreed(r: Blocks, k: nat, j: nat, g: nat)
    requires Ordered(r) && k < |r| && j < |r| && j != k
    requires Touches(g, r[j].addr, r[j].End() + (if j < k then 0 else HDR) - 1)
    ensures !Between(g, r[k].addr, NextAddr(r, k))
  {
    if j < k { assert r[j].End() <= r[k].addr; }
    else if k + 1 < j { assert r[k+1].End() <= r[j].addr; }
  }

  // ---------- headers ----------

  lemma TakeHeaders(bs: Blocks, i: nat, sz: nat, pages: set<nat>)
    requires i < |bs| && HeadersMapped(bs, pages)
    ensures HeadersMapped(Take(bs, i, sz), pages + Mapped(bs[i].addr, sz))
  {
    var r, e := Take(bs, i, sz), bs[i].addr + HDR + sz;
    assert Touches(PageOf(e), bs[i].addr, bs[i].addr + sz + 2 * HDR);
    assert Touches(PageOf(e + HDR - 1), bs[i].addr, bs[i].addr + sz + 2 * HDR);
    forall b | b in r ensures b.addr == e || exists c :: c in bs && c.addr == b.addr {
      assert bs[i] in bs;
    }
  }

  /** heap_find's new header is mapped: kmalloc mapped room for it. */
  lemma AppendHeaders(bs: Blocks, pages: set<nat>)
    requires bs != [] && HeadersMapped(bs, pages) && RoomToAppend(bs, pages) && !bs[|bs|-1].avail
    ensures HeadersMapped(Append(bs), pages)
  {
    var l := bs[|bs|-1];
    assert Touches(PageOf(l.End()), l.addr, l.End() + HDR - 1)
      && Touches(PageOf(l.End() + HDR - 1), l.addr, l.End() + HDR - 1);
  }

  /** heap_find_aligned's new header may be anywhere. */
  lemma AppendAlignedHeaders(bs: Blocks, a: nat, pages: set<nat>)
    requires bs != [] && a > 0 && HeadersMapped(bs, pages) && RoomToAppend(bs, pages)
    ensures HeadersMapped(AppendAligned(bs, a), pages) <==> HeaderOn(AlignedAddr(bs[|bs|-1], a), pages)
  {
    hide AlignedAddr;
    var l, p, r := bs[|bs|-1], AlignedAddr(bs[|bs|-1], a), AppendAligned(bs, a);
    assert r[|r|-1] == Block(p, 0, true) && r[|r|-1] in r;
    if !l.avail { AppendHeaders(bs, pages); }
    assert Append(bs)[|bs|] in Append(bs) && l in bs;
    forall b | b in r ensures b.addr == p || HeaderOn(b.addr, pages) {
      if b !in bs && b.addr != p { assert b.addr == l.addr || (!l.avail && b.addr == l.End()); }
    }
  }

  lemma JoinHeaders(bs: Blocks, i: nat, pages: set<nat>)
    requires i + 1 < |bs| && HeadersMapped(bs, pages)
    ensures HeadersMapped(Join(bs, i), pages)
  {
    assert bs[i] in bs;
  }

  lemma {:induction false} MergeBackHeaders(bs: Blocks, i: nat, pages: set<nat>)
    requires i < |bs| && HeadersMapped(bs, pages)
    ensures HeadersMapped(MergeBack(bs, i).0, pages)
    decreases i
  {
    hide HeadersMapped;
    if i > 0 && bs[i-1].avail {
      JoinHeaders(bs, i - 1, pages);
      MergeBackHeaders(Join(bs, i - 1), i - 1, pages);
    }
  }

  lemma {:induction false} MergeFrontHeaders(bs: Blocks, i: nat, pages: set<nat>)
    requires i < |bs| && HeadersMapped(bs, pages)
    ensures HeadersMapped(MergeFront(bs, i), pages)
    decreases |bs|
  {
    hide HeadersMapped;
    if Mergeable(bs, i) {
      JoinHeaders(bs, i, pages);
      MergeFrontHeaders(Join(bs, i), i, pages);
    }
  }

  lemma FreedHeaders(bs: Blocks, i: nat, pages: set<nat>)
    requires i < |bs| && HeadersMapped(bs, pages)
    ensures HeadersMapped(Freed(bs, i).0, pages)
  {
    var s := bs[i := bs[i].(avail := true)];
    assert HeadersMapped(s, pages) by { assert bs[i] in bs; }
    var m := MergeBack(s, i);
    MergeBackHeaders(s, i, pages);
    MergeFrontHeaders(m.0, m.1, pages);
  }

  /** A header that straddles a page boundary survives kfree's unmapping if and only if its
      second page is not wholly before the next block. */
  lemma FreeHeaderMapped(b: nat, next: nat, pages: set<nat>)
    requires HeaderOn(b, pages)
    ensures HeaderOn(b, pages - Unmapped(b, next)) <==> KeepsHeader(b, next)
  {
    var g := PageOf(b);
    assert !Between(g, b, next);
    if b % PAGE > PAGE - HDR {
      assert PageOf(b + HDR - 1) == g + 1;
      assert Between(g + 1, b, next) <==> (g + 2) * PAGE < next;
    } else {
      assert PageOf(b + HDR - 1) == g;
    }
  }

  /** Of all headers only that of the freed block itself can be unmapped. */
  lemma FreedHeadersIff(r: Blocks, k: nat, pages: set<nat>)
    requires Ordered(r) && k < |r| && HeadersMapped(r, pages)
    ensures HeadersMapped(r, pages - Unmapped(r[k].addr, NextAddr(r, k))) <==> KeepsHeader(r[k].addr, NextAddr(r, k))
  {
    hide Ordered, KeepsHeader, Unmapped, NextAddr;
    var left := pages - Unmapped(r[k].addr, NextAddr(r, k));
    assert r[k] in r;
    FreeHeaderMapped(r[k].addr, NextAddr(r, k), pages);
    forall b | b in r && b != r[k] ensures HeaderOn(b.addr, left) {
      var j :| 0 <= j < |r| && r[j] == b;
      HeaderApart(r, k, j, PageOf(b.addr));
      HeaderApart(r, k, j, PageOf(b.addr + HDR - 1));
    }
  }

  lemma HeaderApart(r: Blocks, k: nat, j: nat, g: nat)
    requires Ordered(r) && k < |r| && j < |r| && j != k && Touches(g, r[j].addr, r[j].addr + HDR - 1)
    ensures !Between(g, r[k].addr, NextAddr(r, k))
  {
    ApartFromFreed(r, k, j, g);
  }
}
