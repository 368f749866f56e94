/**
 * Any sequence of kmalloc, kmalloca and kfree on the heap of HeapSpec. Two of them can touch a
 * header on a page that is not mapped, which is a page fault in the kernel; `Safe` says when
 * they do not, and the runs in which every step is safe are those that keep the heap in order.
 */
module HeapRuns {
  import opened Util
  import opened HeapSpec

  /** `live` is what the callers hold: payload address to size. */
  datatype HeapState = HeapState(bs: Blocks, pages: set<nat>, live: map<nat, nat>)

  datatype Op = Malloc(sz: nat) | MallocAligned(sz: nat, a: nat) | Free(p: nat)

  /** heap_init: a head block of size 0 at the start of one mapped page. */
  function Start(page: nat): HeapState {
    HeapState([Block(page * PAGE, 0, false)], {page}, map[])
  }

  /** kfree is called with NULL or with an address that was handed out and not given back. */
  predicate Legal(h: HeapState, op: Op) {
    match op
    case Malloc(_) => true
    case MallocAligned(_, a) => PowerOfTwo(a)
    case Free(p) => p == 0 || p in h.live
  }

  function Place(h: HeapState, op: Op): (r: (Blocks, nat))
    requires h.bs != [] && !op.Free? && Legal(h, op)
    ensures r.1 < |r.0|
  {
    if op.Malloc? then Found(h.bs, Align4(op.sz)) else FoundAligned(h.bs, Align4(op.sz), op.a)
  }

  /** The address handed out. */
  function Result(h: HeapState, op: Op): nat
    requires h.bs != [] && !op.Free? && Legal(h, op)
  {
    Place(h, op).0[Place(h, op).1].addr + HDR
  }

  function Alloc(h: HeapState, op: Op): HeapState
    requires h.bs != [] && !op.Free? && Legal(h, op)
  {
    var (bs, i) := Place(h, op);
    var sz := Align4(op.sz);
    HeapState(Take(bs, i, sz), h.pages + Mapped(bs[i].addr, sz), h.live[bs[i].addr + HDR := sz])
  }

  /** The block in front of payload `p`. */
  function IndexAt(bs: Blocks, p: nat, i: nat): (k: nat)
    requires i <= |bs|
    ensures i <= k <= |bs| && (k < |bs| ==> bs[k].addr + HDR == p)
    ensures forall j :: i <= j < k ==> bs[j].addr + HDR != p
    decreases |bs| - i
  {
    if i == |bs| || bs[i].addr + HDR == p then i else IndexAt(bs, p, i + 1)
  }

  function Release(h: HeapState, p: nat): HeapState {
    var i := IndexAt(h.bs, p, 0);
    if i == |h.bs| then h
    else
      var (bs, k) := Freed(h.bs, i);
      HeapState(bs, h.pages - Unmapped(bs[k].addr, NextAddr(bs, k)), h.live - {p})
  }

  function Step(h: HeapState, op: Op): HeapState
    requires h.bs != [] && Legal(h, op)
  {
    if !op.Free? then Alloc(h, op) else if op.p == 0 then h else Release(h, op.p)
  }

  // ---------- the invariant ----------

  /** The blocks in use are the head and exactly what the callers hold, at the size they asked for. */
  ghost predicate Held1(h: HeapState)
    requires h.bs != []
  {
    && h.bs[0].addr + HDR !in h.live
    && (forall p :: p in h.live ==> Held(h.bs, p, h.live[p]))
    && forall p, n :: Held(h.bs, p, n) <==> (p in h.live && h.live[p] == n) || (p == h.bs[0].addr + HDR && n == 0)
  }

  ghost predicate Inv(h: HeapState) {
    && Ordered(h.bs) && Coalesced(h.bs) && Resident(h.bs, h.pages) && RoomToAppend(h.bs, h.pages) && Held1(h)
    && HeadersMapped(h.bs, h.pages)
  }

  /** A call that touches no unmapped header: kmalloca finds a block, or the place of its new
      header is mapped already; kfree's merged block keeps its own header. */
  predicate Safe(h: HeapState, op: Op)
    requires h.bs != [] && Legal(h, op)
  {
    match op
    case Malloc(_) => true
    case MallocAligned(sz, a) =>
      FirstUsable(h.bs, Align4(sz), a, 0) < |h.bs| || HeaderOn(AlignedAddr(h.bs[|h.bs|-1], a), h.pages)
    case Free(p) =>
      var i := IndexAt(h.bs, p, 0);
      i == |h.bs| || var (bs, k) := Freed(h.bs, i); KeepsHeader(bs[k].addr, NextAddr(bs, k))
  }

  /** The headers of the list can be read before a call, once it has found its block and put new
      headers around it, and when it is done. */
  ghost predicate AccessOk(h: HeapState, op: Op)
    requires h.bs != [] && Legal(h, op)
  {
    && HeadersMapped(h.bs, h.pages)
    && (!op.Free? ==> HeadersMapped(Place(h, op).0, h.pages))
    && HeadersMapped(Step(h, op).bs, Step(h, op).pages)
  }

  lemma StartInv(page: nat)
    requires page > 0
    ensures Inv(Start(page))
  {
    hide Ordered, Coalesced, Held1, Resident, RoomToAppend, HeadersMapped;
    StartOrdered(page);
    StartMapped(page);
    StartHeld(page);
  }

  lemma StartOrdered(page: nat)
    requires page > 0
    ensures Ordered(Start(page).bs) && Coalesced(Start(page).bs)
  {
    var bs := Start(page).bs;
    By4(page, PAGE / 4);
    forall i ensures Settled(bs, i) { assert !(0 < i < |bs|); }
  }

  lemma StartMapped(page: nat)
    ensures Resident(Start(page).bs, {page}) && RoomToAppend(Start(page).bs, {page})
            && HeadersMapped(Start(page).bs, {page})
  {
  }

  lemma StartHeld(page: nat)
    ensures Held1(Start(page))
  {
    var bs := Start(page).bs;
    forall p, n ensures Held(bs, p, n) <==> p == page * PAGE + HDR && n == 0 {
      StartHas(page, p, n);
    }
  }

  lemma StartHas(page: nat, p: int, n: nat)
    ensures Held(Start(page).bs, p, n) <==> p == page * PAGE + HDR && n == 0
  {
    if p >= HDR {
      assert Block(p - HDR, n, false) in Start(page).bs <==> Block(p - HDR, n, false) == Start(page).bs[0];
    }
  }

  /** What finding a place leaves: everything in order but the place itself. */
  ghost predicate Placed(bs: Blocks, r: Blocks, i: nat) {
    && bs != [] && i < |r| && Ordered(r) && (forall j :: j == i || Settled(r, j))
    && (forall p, n :: Held(r, p, n) <==> Held(bs, p, n))
    && (i == |r| - 1 || r == bs) && r[0] == bs[0]
  }

  lemma PlaceShape(h: HeapState, op: Op)
    requires h.bs != [] && !op.Free? && Legal(h, op)
    ensures var n, sz, (r, i) := |h.bs|, Align4(op.sz), Place(h, op);
      || (i < n && r == h.bs)
      || (op.Malloc? && !h.bs[n-1].avail && r == Append(h.bs) && i == n == |r| - 1)
      || (op.MallocAligned? && r == AppendAligned(h.bs, op.a) && i == |r| - 1)
  {
    assert op.Malloc? && FirstUsable(h.bs, Align4(op.sz), 1, 0) == |h.bs| ==>
      !UsableAligned(h.bs, |h.bs| - 1, Align4(op.sz), 1);
  }

  lemma PlaceKeeps(h: HeapState, op: Op)
    requires Inv(h) && !op.Free? && Legal(h, op)
    ensures Placed(h.bs, Place(h, op).0, Place(h, op).1)
  {
    hide Ordered, Held, AppendAligned, Append, Place;
    var bs := h.bs;
    HasHead(bs);
    PlaceShape(h, op);
    if Place(h, op).0 != bs {
      if op.Malloc? {
        AppendKeeps(bs);
        HeadStays(bs, 1);
      } else {
        AppendAlignedOrdered(bs, op.a);
        AppendAlignedKeeps(bs, op.a);
        HeadStays(bs, op.a);
      }
    }
  }

  lemma HasHead(bs: Blocks)
    requires Ordered(bs)
    ensures bs != [] && !bs[0].avail && bs[0].size == 0
  {
  }

  lemma HeadStays(bs: Blocks, a: nat)
    requires Ordered(bs) && a > 0
    ensures Append(bs)[0] == bs[0] && AppendAligned(bs, a)[0] == bs[0]
  {
  }

  /** Finding a place touches mapped pages only, if and only if the call is safe. */
  lemma PlaceHeaders(h: HeapState, op: Op)
    requires Inv(h) && !op.Free? && Legal(h, op)
    ensures HeadersMapped(Place(h, op).0, h.pages) <==> Safe(h, op)
  {
    hide Ordered, Held, Coalesced, Resident, HeadersMapped, RoomToAppend, AppendAligned, Append, AlignedAddr, Held1;
    HasHead(h.bs);
    PlaceShape(h, op);
    if op.MallocAligned? {
      AppendAlignedHeaders(h.bs, op.a, h.pages);
    } else if Place(h, op).0 != h.bs {
      AppendHeaders(h.bs, h.pages);
    }
  }

  lemma AllocKeeps(h: HeapState, op: Op)
    requires Inv(h) && !op.Free? && Legal(h, op) && Safe(h, op)
    ensures Inv(Alloc(h, op))
  {
    hide Ordered, Held, FirstUsable, Found, FoundAligned, AppendAligned, Append, Take, Safe, HeadersMapped,
      Coalesced, Held1;
    HasHead(h.bs);
    PlaceKeeps(h, op);
    var (bs, i) := Place(h, op);
    var sz := Align4(op.sz);
    PlaceFits(h, op);
    Align4Facts(op.sz);
    TakeOrdered(bs, i, sz);
    TakeCoalesced(bs, i, sz);
    PlacedResident(h.bs, bs, i, h.pages);
    TakeResident(bs, i, sz, h.pages);
    TakeRoom(bs, i, sz, h.pages);
    PlaceHeaders(h, op);
    TakeHeaders(bs, i, sz, h.pages);
    AllocHeld(h, op);
  }

  lemma PlaceFits(h: HeapState, op: Op)
    requires h.bs != [] && !op.Free? && Legal(h, op)
    ensures Usable(Place(h, op).0, Place(h, op).1, Align4(op.sz))
  {
  }

  lemma PlacedResident(bs: Blocks, r: Blocks, i: nat, pages: set<nat>)
    requires Placed(bs, r, i) && Resident(bs, pages) && RoomToAppend(bs, pages)
    ensures Resident(r, pages) && (i == |r| - 1 || RoomToAppend(r, pages))
  {
    forall b | b in r && !b.avail ensures b in bs {
      assert Held(r, b.addr + HDR, b.size);
    }
  }

  lemma AllocHeld(h: HeapState, op: Op)
    requires h.bs != [] && Held1(h) && !op.Free? && Legal(h, op) && Placed(h.bs, Place(h, op).0, Place(h, op).1)
    ensures Alloc(h, op).bs != [] && Held1(Alloc(h, op)) && Result(h, op) !in h.live
  {
    hide Ordered, Held, Take, Settled, Found, FoundAligned;
    var (bs, i) := Place(h, op);
    var sz := Align4(op.sz);
    PlaceFits(h, op);
    TakenAddr(bs, i, sz);
    NotHeld(bs, i);
    var q := bs[i].addr + HDR;
    assert forall n :: !Held(h.bs, q, n);
    forall p, n ensures Held(Take(bs, i, sz), p, n) <==> Held(h.bs, p, n) || (p == q && n == sz) {
      TakeHeld(bs, i, sz, p, n);
    }
  }

  lemma TakenAddr(bs: Blocks, i: nat, sz: nat)
    requires i < |bs| && bs[i].avail && Ordered(bs)
    ensures Take(bs, i, sz) != [] && Take(bs, i, sz)[0] == bs[0] && bs[i].addr != bs[0].addr
  {
  }

  lemma NotHeld(bs: Blocks, i: nat)
    requires Ordered(bs) && i < |bs| && bs[i].avail
    ensures forall p, n :: p == bs[i].addr + HDR ==> !Held(bs, p, n)
  {
  }

  lemma LiveIndex(h: HeapState, p: nat)
    requires Inv(h) && p in h.live
    ensures var i := IndexAt(h.bs, p, 0);
      0 < i < |h.bs| && !h.bs[i].avail && h.bs[i].size == h.live[p] && h.bs[i].addr + HDR == p
  {
    assert Held(h.bs, p, h.live[p]);
    var b := Block(p - HDR, h.live[p], false);
    var j :| 0 <= j < |h.bs| && h.bs[j] == b;
    var i := IndexAt(h.bs, p, 0);
    assert i <= j && h.bs[i].addr == h.bs[j].addr;
    OneBlock(h.bs, h.bs[i], b);
  }

  lemma FreeKeeps(h: HeapState, p: nat)
    requires Inv(h) && p in h.live
    ensures HeadersMapped(Release(h, p).bs, Release(h, p).pages) <==> Safe(h, Free(p))
    ensures Safe(h, Free(p)) ==> Inv(Release(h, p))
  {
    hide Ordered, Held, Freed, Coalesced, Resident, RoomToAppend, HeadersMapped, KeepsHeader;
    HasHead(h.bs);
    LiveIndex(h, p);
    var i := IndexAt(h.bs, p, 0);
    FreedKeeps(h.bs, i);
    var (bs, k) := Freed(h.bs, i);
    StillThere(h.bs, bs, p);
    FreedResident(h.bs, bs, k, h.pages);
    FreedHeaders(h.bs, i, h.pages);
    FreedHeadersIff(bs, k, h.pages);
  }

  lemma StillThere(bs: Blocks, r: Blocks, q: nat)
    requires forall p, n :: Held(r, p, n) <==> Held(bs, p, n) && p != q
    ensures forall b :: b in r && !b.avail ==> b in bs
  {
    forall b | b in r && !b.avail ensures b in bs {
      assert Held(r, b.addr + HDR, b.size);
    }
  }

  lemma StepKeeps(h: HeapState, op: Op)
    requires Inv(h) && Legal(h, op) && Safe(h, op)
    ensures Inv(Step(h, op))
  {
    hide Inv, Alloc, Release;
    if !op.Free? { AllocKeeps(h, op); } else if op.p != 0 { FreeKeeps(h, op.p); }
  }

  /** A call touches no unmapped header if and only if it is safe. */
  lemma AccessIff(h: HeapState, op: Op)
    requires Inv(h) && Legal(h, op)
    ensures AccessOk(h, op) <==> Safe(h, op)
  {
    hide Ordered, Held, Coalesced, Resident, RoomToAppend, HeadersMapped, Held1, Alloc, Release, Place;
    HasHead(h.bs);
    if !op.Free? {
      PlaceHeaders(h, op);
      if Safe(h, op) { AllocKeeps(h, op); }
    } else if op.p != 0 {
      FreeKeeps(h, op.p);
    } else {
      NoNullPayload(h.bs);
    }
  }

  /** kfree(NULL) finds no block. */
  lemma NoNullPayload(bs: Blocks)
    ensures IndexAt(bs, 0, 0) == |bs|
  {
  }

  predicate Runs(h: HeapState, ops: seq<Op>)
    decreases |ops|
  {
    ops == [] || (h.bs != [] && Legal(h, ops[0]) && Runs(Step(h, ops[0]), ops[1..]))
  }

  function Run(h: HeapState, ops: seq<Op>): HeapState
    requires Runs(h, ops)
    decreases |ops|
  {
    if ops == [] then h else Run(Step(h, ops[0]), ops[1..])
  }

  predicate AllSafe(h: HeapState, ops: seq<Op>)
    requires Runs(h, ops)
    decreases |ops|
  {
    ops == [] || (Safe(h, ops[0]) && AllSafe(Step(h, ops[0]), ops[1..]))
  }

  ghost predicate AlwaysAccessOk(h: HeapState, ops: seq<Op>)
    requires Runs(h, ops)
    decreases |ops|
  {
    ops == [] || (AccessOk(h, ops[0]) && AlwaysAccessOk(Step(h, ops[0]), ops[1..]))
  }

  /** A run never touches an unmapped header if and only if each of its calls is safe, and then
      it keeps the heap in order. */
  lemma {:induction false} RunIff(h: HeapState, ops: seq<Op>)
    requires Inv(h) && Runs(h, ops)
    ensures AlwaysAccessOk(h, ops) <==> AllSafe(h, ops)
    ensures AllSafe(h, ops) ==> Inv(Run(h, ops))
    decreases |ops|
  {
    hide Inv, Safe, AccessOk, Step;
    if ops != [] {
      AccessIff(h, ops[0]);
      if Safe(h, ops[0]) {
        StepKeeps(h, ops[0]);
        RunIff(Step(h, ops[0]), ops[1..]);
      }
    }
  }

  // ---------- what callers get ----------

  /** Two live payloads never overlap, nor does either's header overlap the other. */
  lemma LiveDisjoint(h: HeapState, p: nat, q: nat)
    requires Inv(h) && p in h.live && q in h.live && p < q
    ensures p + h.live[p] <= q - HDR
  {
    LiveIndex(h, p);
    LiveIndex(h, q);
    InOrder(h.bs, IndexAt(h.bs, p, 0), IndexAt(h.bs, q, 0));
  }

  lemma InOrder(bs: Blocks, i: nat, j: nat)
    requires Ordered(bs) && i < |bs| && j < |bs| && bs[i].addr < bs[j].addr
    ensures bs[i].End() <= bs[j].addr
  {
  }

  /** Every byte of a live block, header and payload, is on a mapped page. */
  lemma LiveMapped(h: HeapState, p: nat, a: nat)
    requires Inv(h) && p in h.live && p - HDR <= a < p + h.live[p]
    ensures a / PAGE in h.pages
  {
    LiveIndex(h, p);
    var b := h.bs[IndexAt(h.bs, p, 0)];
    assert b in h.bs && Touches(PageOf(a), b.addr, b.End() - 1);
  }

  /** What is handed out is new, holds what was asked for, and is aligned; nothing else that
      is live moves or changes size, not even when slack is dropped or the last block grows. */
  lemma AllocGives(h: HeapState, op: Op)
    requires Inv(h) && !op.Free? && Legal(h, op)
    ensures h.bs != []
    ensures var p, r := Result(h, op), Step(h, op);
      && p !in h.live && r.live == h.live[p := Align4(op.sz)] && op.sz <= r.live[p]
      && p % 4 == 0 && (op.MallocAligned? ==> p % op.a == 0)
  {
    hide Ordered, Held, FirstUsable, AppendAligned, Append, Take, Coalesced, Resident, RoomToAppend, Held1;
    HasHead(h.bs);
    PlaceKeeps(h, op);
    AllocHeld(h, op);
    var (bs, i) := Place(h, op);
    NeighbourFacts(bs, i);
    Sums4(HDR, bs[i].addr);
  }

  /** kfree takes away exactly the block it is given; the block around it is then available,
      with no available predecessor and no mergeable successor. */
  lemma FreeGives(h: HeapState, p: nat)
    requires Inv(h) && p in h.live
    ensures h.bs != [] && Step(h, Free(p)).live == h.live - {p}
    ensures var bs, k := Step(h, Free(p)).bs, Freed(h.bs, IndexAt(h.bs, p, 0)).1;
      && 0 < k < |bs| && bs[k].avail && bs[k].addr < p && (k + 1 < |bs| ==> p <= bs[k+1].addr)
      && !bs[k-1].avail && !Mergeable(bs, k)
  {
    hide Held, Freed, Coalesced, Resident, RoomToAppend, Held1, Mergeable;
    HasHead(h.bs);
    LiveIndex(h, p);
    var i := IndexAt(h.bs, p, 0);
    FreedKeeps(h.bs, i);
    var (bs, k) := Freed(h.bs, i);
    NeighbourFacts(h.bs, i);
    if k + 1 < |bs| { NeighbourFacts(bs, k + 1); }
  }
}
