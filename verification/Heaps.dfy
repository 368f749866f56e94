/**
 * kernel/mm/heap.c in place: block headers in memory, linked by address, updated field by
 * field. Each operation is proved equal to the step of the same name in HeapRuns, and to meet
 * a page fault exactly when that step is not safe.
 */
module Heaps {
  import opened Util
  import opened HeapSpec
  import opened HeapRuns

  /** A header; address 0 is NULL. */
  datatype Header = Header(size: nat, avail: bool, page: nat, prev: nat, next: nat)

  /** The headers that can be read: those on mapped pages. */
  type Memory = map<nat, Header>

  ghost predicate Backed(m: Memory, pages: set<nat>) { forall x :: x in m ==> HeaderOn(x, pages) }

  /** What is left when only `pages` are mapped. */
  function Left(m: Memory, pages: set<nat>): Memory { map x | x in m && HeaderOn(x, pages) :: m[x] }

  lemma LinkedLeft(m: Memory, bs: Blocks, pages: set<nat>)
    requires Linked(m, bs) && HeadersMapped(bs, pages)
    ensures Linked(Left(m, pages), bs)
  {
    forall i ensures LinkAt(Left(m, pages), bs, i) {
      assert LinkAt(m, bs, i);
    }
  }

  lemma ChainMapped(m: Memory, bs: Blocks, pages: set<nat>)
    requires Linked(m, bs) && Backed(m, pages)
    ensures HeadersMapped(bs, pages)
  {
    forall b | b in bs ensures HeaderOn(b.addr, pages) {
      var i :| 0 <= i < |bs| && bs[i] == b;
      assert LinkAt(m, bs, i);
    }
  }

  /** The field `next`, the last one, is wholly on the second page of a header that meets two. */
  lemma NextOnSecondPage(b: nat)
    requires b % 4 == 0 && PageOf(b + HDR - 1) != PageOf(b)
    ensures PageOf(b + HDR - 4) == PageOf(b) + 1 == PageOf(b + HDR - 1)
  {
    var q, w := b / PAGE, b / 4 - b / PAGE * (PAGE / 4);
    assert b == PAGE * q + 4 * w;
    assert 4 * w + HDR - 1 >= PAGE;
    assert w >= 1020;
  }

  function PrevAddr(bs: Blocks, i: nat): nat
    requires i < |bs|
  {
    if i == 0 then 0 else bs[i-1].addr
  }

  /** Memory holds the header of block `i` of `bs`. */
  ghost predicate LinkAt(m: Memory, bs: Blocks, i: int) {
    0 <= i < |bs| ==>
      var x := bs[i].addr;
      x in m && m[x] == Header(bs[i].size, bs[i].avail, PageOf(x), PrevAddr(bs, i), NextAddr(bs, i))
  }

  ghost predicate Linked(m: Memory, bs: Blocks) { forall i :: LinkAt(m, bs, i) }

  /** The stores that put a new header `n` after header `x`. */
  function PutAfter(m: Memory, x: nat, n: nat, size: nat): Memory
    requires x in m && (m[x].next != 0 ==> m[x].next in m) && n !in {x, m[x].next}
  {
    var y := m[x].next;
    var m1 := m[n := Header(size, true, PageOf(n), x, y)][x := m[x].(next := n)];
    if y == 0 then m1 else m1[y := m1[y].(prev := n)]
  }

  /** The stores that merge header `x` with the one after it. */
  function Swallow(m: Memory, x: nat): Memory
    requires x in m && m[x].next in m && (m[m[x].next].next != 0 ==> m[m[x].next].next in m)
  {
    var y := m[x].next;
    var z := m[y].next;
    var m1 := m[x := m[x].(size := m[x].size + HDR + m[y].size, next := z)];
    if z == 0 then m1 else m1[z := m1[z].(prev := x)]
  }

  lemma Facts(m: Memory, bs: Blocks, i: nat)
    requires Ordered(bs) && Linked(m, bs) && i < |bs|
    ensures LinkAt(m, bs, i) && bs[i].addr > 0
    ensures i + 1 < |bs| ==> bs[i].addr < bs[i+1].addr && LinkAt(m, bs, i + 1)
    ensures i > 0 ==> bs[i-1].addr < bs[i].addr && LinkAt(m, bs, i - 1)
    ensures i + 2 < |bs| ==> bs[i+1].addr < bs[i+2].addr && LinkAt(m, bs, i + 2)
    ensures NextAddr(bs, i) == 0 <==> i == |bs| - 1
  {
  }

  /** Different positions have different addresses. */
  lemma Apart(bs: Blocks, i: nat, j: nat)
    requires Ordered(bs) && i < |bs| && j < |bs| && i != j
    ensures bs[i].addr != bs[j].addr
  {
  }

  lemma LinkInsert(m: Memory, bs: Blocks, i: nat, b: Block)
    requires Ordered(bs) && Linked(m, bs) && i < |bs| && Ordered(Insert(bs, i, b)) && b.avail
    ensures bs[i].addr in m && (NextAddr(bs, i) != 0 ==> NextAddr(bs, i) in m) && m[bs[i].addr].next == NextAddr(bs, i)
    ensures b.addr !in {bs[i].addr, NextAddr(bs, i)}
    ensures Linked(PutAfter(m, bs[i].addr, b.addr, b.size), Insert(bs, i, b))
  {
    hide Ordered;
    var r := Insert(bs, i, b);
    Facts(m, bs, i);
    Apart(r, i, i + 1);
    if i + 1 < |bs| { Apart(r, i + 1, i + 2); }
    NoNull(r, i + 1);
    var m' := PutAfter(m, bs[i].addr, b.addr, b.size);
    forall j ensures LinkAt(m', r, j) {
      if 0 <= j < |r| && j != i + 1 {
        var k := if j <= i then j else j - 1;
        assert LinkAt(m, bs, k);
        Apart(r, j, i + 1);
        if k != i { Apart(bs, k, i); }
        if i + 1 < |bs| && k != i + 1 { Apart(bs, k, i + 1); }
      }
    }
  }

  lemma NoNull(bs: Blocks, i: nat)
    requires Ordered(bs) && i < |bs|
    ensures bs[i].addr > 0
  {
  }

  lemma LinkResize(m: Memory, bs: Blocks, i: nat, b: Block)
    requires Ordered(bs) && Linked(m, bs) && i < |bs| && b.addr == bs[i].addr
    ensures b.addr in m && Linked(m[b.addr := m[b.addr].(size := b.size, avail := b.avail)], bs[i := b])
  {
    hide Ordered;
    var m', r := m[b.addr := (Facts(m, bs, i); m[b.addr]).(size := b.size, avail := b.avail)], bs[i := b];
    forall j ensures LinkAt(m', r, j) {
      assert LinkAt(m, bs, j);
      if 0 <= j < |bs| && j != i { Apart(bs, i, j); }
    }
  }

  lemma LinkJoin(m: Memory, bs: Blocks, i: nat)
    requires Ordered(bs) && Linked(m, bs) && i + 1 < |bs|
    ensures var x, y := bs[i].addr, bs[i+1].addr;
      && x in m && m[x].next == y && y in m && m[y].next == NextAddr(bs, i + 1)
      && (NextAddr(bs, i + 1) != 0 ==> NextAddr(bs, i + 1) in m)
      && NextAddr(bs, i + 1) != x && Linked(Swallow(m, x), Join(bs, i))
  {
    hide Ordered;
    Facts(m, bs, i);
    Facts(m, bs, i + 1);
    var m', r := Swallow(m, bs[i].addr), Join(bs, i);
    if i + 2 < |bs| { Apart(bs, i, i + 2); }
    forall j ensures LinkAt(m', r, j) {
      if 0 <= j < |r| {
        var k := if j <= i then j else j + 1;
        assert LinkAt(m, bs, k);
        if k != i { Apart(bs, k, i); }
        if i + 2 < |bs| && k != i + 2 { Apart(bs, k, i + 2); }
      }
    }
  }

  /** Where a walk along the list stands. */
  ghost predicate Stands(bs: Blocks, p: nat, l: nat, i: nat) {
    && i <= |bs| && (p == 0 <==> i == |bs|) && (i < |bs| ==> p == bs[i].addr)
    && (i > 0 ==> l == bs[i-1].addr)
  }

  lemma Walks(m: Memory, bs: Blocks, p: nat, l: nat, i: nat)
    requires Ordered(bs) && Linked(m, bs) && Stands(bs, p, l, i) && i < |bs|
    ensures LinkAt(m, bs, i) && p in m && m[p].size == bs[i].size && m[p].avail == bs[i].avail
    ensures (m[p].next == 0 <==> i == |bs| - 1) && Stands(bs, m[p].next, p, i + 1)
  {
    Facts(m, bs, i);
  }

  class Heap {
    var mem: Memory
    var head: nat
    var last: nat
    var pages: set<nat>
    ghost var blocks: Blocks
    ghost var live: map<nat, nat>

    ghost function Model(): HeapRuns.HeapState
      reads this
    {
      HeapRuns.HeapState(blocks, pages, live)
    }

    ghost predicate Chained()
      reads this
    {
      blocks != [] && Ordered(blocks) && Linked(mem, blocks) && head == blocks[0].addr && Backed(mem, pages)
    }

    ghost predicate Valid()
      reads this
    {
      Chained() && Inv(Model())
    }

    /** heap_init, on the page the caller has mapped. */
    constructor (page: nat)
      requires page > 0
      ensures Valid() && Model() == Start(page)
    {
      mem := map[page * PAGE := Header(0, false, page, 0, 0)];
      head, last, pages := page * PAGE, 0, {page};
      blocks, live := Start(page).bs, map[];
      new;
      StartInv(page);
      forall i ensures LinkAt(mem, blocks, i) {}
    }

    /** A new available header `n` after `x`. */
    method Put(x: nat, n: nat, size: nat, ghost i: nat)
      requires Chained() && i < |blocks| && x == blocks[i].addr && Ordered(Insert(blocks, i, Block(n, size, true)))
      requires HeaderOn(n, pages)
      modifies this`mem, this`blocks
      ensures Chained() && blocks == Insert(old(blocks), i, Block(n, size, true))
    {
      hide Ordered, Linked, LinkAt;
      LinkInsert(mem, blocks, i, Block(n, size, true));
      var y := mem[x].next;
      mem := mem[n := Header(size, true, PageOf(n), x, y)];
      mem := mem[x := mem[x].(next := n)];
      if y != 0 { mem := mem[y := mem[y].(prev := n)]; }
      blocks := Insert(blocks, i, Block(n, size, true));
    }

    method Set(x: nat, size: nat, avail: bool, ghost i: nat)
      requires Chained() && i < |blocks| && x == blocks[i].addr && Ordered(blocks[i := Block(x, size, avail)])
      modifies this`mem, this`blocks
      ensures Chained() && blocks == old(blocks)[i := Block(x, size, avail)]
    {
      hide Ordered, Linked, LinkAt;
      LinkResize(mem, blocks, i, Block(x, size, avail));
      mem := mem[x := mem[x].(size := size, avail := avail)];
      blocks := blocks[i := Block(x, size, avail)];
    }

    /** heap_find: walks to the first usable block, or puts an empty one after the last. */
    method Find(sz: nat) returns (p: nat, ghost i: nat)
      requires Chained() && HeadersMapped(Found(blocks, sz).0, pages)
      modifies this`mem, this`blocks
      ensures Chained() && (blocks, i) == Found(old(blocks), sz) && p == blocks[i].addr
    {
      hide Ordered, Linked, LinkAt, Backed, HeadersMapped;
      var l: nat := 0;
      p := head;
      i := 0;
      NoNull(blocks, 0);
      while p != 0
        invariant Chained() && blocks == old(blocks) && mem == old(mem) && Stands(blocks, p, l, i)
        invariant FirstUsable(blocks, sz, 1, 0) == FirstUsable(blocks, sz, 1, i)
        decreases |blocks| - i
      {
        Walks(mem, blocks, p, l, i);
        var b := mem[p];
        if (b.size >= sz || b.next == 0) && b.avail { return; }
        l := p;
        p := b.next;
        i := i + 1;
      }
      Reads(mem, blocks, i - 1);
      AppendOrdered(blocks);
      LastMapped(Append(blocks), pages);
      p := l + HDR + mem[l].size;
      Put(l, p, 0, i - 1);
    }

    /** heap_find_aligned: the room before a new aligned block goes to the last block if that is
        available, else to a filler block if one fits. */
    method FindAligned(sz: nat, a: nat) returns (fault: bool, p: nat, ghost i: nat)
      requires Chained() && a > 0 && PowerOfTwo(a) && RoomToAppend(blocks, pages)
      modifies this`mem, this`blocks
      ensures fault <==> !HeadersMapped(FoundAligned(old(blocks), sz, a).0, pages)
      ensures !fault ==> Chained() && (blocks, i) == FoundAligned(old(blocks), sz, a) && p == blocks[i].addr
    {
      hide Ordered, Linked, LinkAt, Backed, HeadersMapped, PowerOfTwo, AlignUp, AppendAligned, RoomToAppend;
      ChainMapped(mem, blocks, pages);
      var l: nat;
      fault := false;
      p, l, i := SeekAligned(sz, a);
      if p != 0 { return; }
      Reads(mem, blocks, i - 1);
      AppendAlignedHeaders(blocks, a, pages);
      AlignUpFacts(l + HDR + mem[l].size + HDR, a);
      var pl := AlignUp(l + HDR + mem[l].size + HDR, a) - (l + HDR) - HDR;
      p := l + HDR + pl;
      if p / PAGE !in pages || (p + HDR - 1) / PAGE !in pages { fault := true; return; }
      Extend(l, pl, a, i - 1);
      i := |blocks| - 1;
    }

    /** The walk of heap_find_aligned: a usable block, or NULL and the last block. */
    method SeekAligned(sz: nat, a: nat) returns (p: nat, l: nat, ghost i: nat)
      requires Chained() && a > 0
      ensures i == FirstUsable(blocks, sz, a, 0) && Stands(blocks, p, l, i)
    {
      hide Ordered, Linked, LinkAt, Backed;
      p, l, i := head, 0, 0;
      NoNull(blocks, 0);
      while p != 0
        invariant Stands(blocks, p, l, i) && FirstUsable(blocks, sz, a, 0) == FirstUsable(blocks, sz, a, i)
        decreases |blocks| - i
      {
        Walks(mem, blocks, p, l, i);
        var b := mem[p];
        if (b.size >= sz || b.next == 0) && b.avail && (p + HDR) % a == 0 { return; }
        l := p;
        p := b.next;
        i := i + 1;
      }
    }

    /** The stores of heap_find_aligned that put a block `pl` bytes after the last one's payload
        starts, and give the room before it to that block or to a filler. */
    method Extend(l: nat, pl: nat, a: nat, ghost n: nat)
      requires Chained() && a > 0 && PowerOfTwo(a) && n == |blocks| - 1 && l == blocks[n].addr
      requires l + HDR + pl == AlignedAddr(blocks[n], a) && HeadersMapped(AppendAligned(blocks, a), pages)
      modifies this`mem, this`blocks
      ensures Chained() && blocks == AppendAligned(old(blocks), a) && blocks[|blocks|-1].addr == l + HDR + pl
    {
      hide Ordered, Linked, LinkAt, Backed, HeadersMapped, PowerOfTwo, AlignUp, AlignedAddr;
      Reads(mem, blocks, n);
      AppendAlignedSteps(blocks, a);
      LastMapped(AppendAligned(blocks, a), pages);
      ghost var was := blocks;
      var size, avail := mem[l].size, mem[l].avail;
      Put(l, l + HDR + pl, 0, n);
      var nsz := pl - size;
      if avail {
        Set(l, pl, true, n);
      } else if nsz >= HDR {
        FillerMapped(was, a, pages);
        Put(l, l + HDR + size, nsz - HDR, n);
      }
    }

    /** heap_split. */
    method Split(b: nat, sz: nat, ghost i: nat)
      requires Chained() && i < |blocks| && b == blocks[i].addr && sz % 4 == 0 && HeaderOn(b + HDR + sz, pages)
      modifies this`mem, this`blocks
      ensures Chained() && blocks == SplitAt(old(blocks), i, sz)
    {
      hide Ordered, Linked, LinkAt, HeaderOn;
      Reads(mem, blocks, i);
      if mem[b].size < sz + HDR { return; }
      SplitOrdered(blocks, i, sz);
      var rest := mem[b].size - sz - HDR;
      Set(b, sz, mem[b].avail, i);
      Put(b, b + HDR + sz, rest, i);
    }

    /** Maps the pages a block of `sz` bytes at `b` needs, and those of the header after it. */
    method MapPages(b: nat, sz: nat, ghost i: nat)
      requires Chained() && i < |blocks| && b == blocks[i].addr
      modifies this`pages
      ensures Chained() && pages == old(pages) + Mapped(b, sz) && HeaderOn(b + HDR + sz, pages)
    {
      hide Ordered, Linked, LinkAt;
      Reads(mem, blocks, i);
      var page := mem[b].page;
      var boff := b - page * PAGE;
      var pagel := (boff + sz + HDR * 2) / PAGE + 1;
      assert page + pagel - 1 == PageOf(b + sz + 2 * HDR);
      var k := page;
      while k < page + pagel
        invariant page <= k <= page + pagel
        invariant forall g :: g in pages <==> g in old(pages) || page <= g < k
      {
        if k !in pages { pages := pages + {k}; }
        k := k + 1;
      }
    }

    /** The common tail of kmalloc and kmalloca. */
    method Hand(b: nat, sz: nat, ghost i: nat)
      requires Chained() && i < |blocks| && b == blocks[i].addr && sz % 4 == 0 && Usable(blocks, i, sz)
      requires HeaderOn(b + HDR + sz, pages)
      modifies this`mem, this`blocks
      ensures Chained() && blocks == Take(old(blocks), i, sz)
    {
      hide Ordered, Linked, LinkAt, Backed, HeaderOn;
      ghost var was := blocks;
      Reads(mem, blocks, i);
      HandOrdered(blocks, i, sz);
      Set(b, mem[b].size, false, i);
      Split(b, sz, i);
      Reads(mem, blocks, i);
      Set(b, sz, false, i);
    }

    method Kmalloc(sz: nat) returns (p: nat)
      requires Valid()
      modifies this
      ensures Valid() && Model() == Step(old(Model()), Malloc(sz)) && p == Result(old(Model()), Malloc(sz))
    {
      hide Inv, Linked, Ordered, Backed, HeadersMapped, Take, Found;
      var size := (sz + 3) / 4 * 4;
      PlaceHeaders(Model(), Malloc(sz));
      AllocKeeps(Model(), Malloc(sz));
      Align4Facts(sz);
      var b, i := Find(size);
      MapPages(b, size, i);
      Hand(b, size, i);
      last := b;
      p := b + HDR;
      live := live[p := size];
    }

    /** The second result is the address, if no page fault ended the call. */
    method Kmalloca(sz: nat, a: nat) returns (fault: bool, p: nat)
      requires Valid() && PowerOfTwo(a)
      modifies this
      ensures fault <==> !Safe(old(Model()), MallocAligned(sz, a))
      ensures !fault ==> Valid() && Model() == Step(old(Model()), MallocAligned(sz, a))
      ensures !fault ==> p == Result(old(Model()), MallocAligned(sz, a))
    {
      hide Linked, Ordered, Backed, HeadersMapped, Take, FoundAligned, Coalesced, Resident, RoomToAppend, Held1,
        PowerOfTwo, Safe;
      var size := (sz + 3) / 4 * 4;
      ghost var h := Model();
      PowerPositive(a);
      PlaceHeaders(h, MallocAligned(sz, a));
      Align4Facts(sz);
      var b;
      ghost var i;
      fault, b, i := FindAligned(size, a);
      p := b + HDR;
      if fault { return; }
      AllocKeeps(h, MallocAligned(sz, a));
      MapPages(b, size, i);
      Hand(b, size, i);
      last := b;
      live := live[p := size];
    }

    /** The stores that merge `x` with the block after it. */
    method Absorb(x: nat, ghost i: nat)
      requires Chained() && i + 1 < |blocks| && x == blocks[i].addr && blocks[i].avail
      modifies this`mem, this`blocks
      ensures Chained() && blocks == Join(old(blocks), i)
    {
      hide Ordered, Linked, LinkAt;
      LinkJoin(mem, blocks, i);
      JoinOrdered(blocks, i);
      var y := mem[x].next;
      var z := mem[y].next;
      mem := mem[x := mem[x].(size := mem[x].size + HDR + mem[y].size)];
      mem := mem[x := mem[x].(next := z)];
      if z != 0 { mem := mem[z := mem[z].(prev := x)]; }
      assert mem == Swallow(old(mem), x);
      blocks := Join(blocks, i);
    }

    /** heap_merge_back. */
    method MergeBack(p: nat, ghost i: nat) returns (b: nat, ghost k: nat)
      requires Chained() && i < |blocks| && p == blocks[i].addr && blocks[i].avail
      modifies this`mem, this`blocks
      ensures Chained() && k < |blocks| && blocks[k].avail && (blocks, k) == HeapSpec.MergeBack(old(blocks), i)
      ensures b == blocks[k].addr
    {
      hide Ordered, Linked, LinkAt;
      b, k := p, i;
      Reads(mem, blocks, k);
      while mem[b].prev != 0 && mem[mem[b].prev].avail
        invariant Chained() && k < |blocks| && b == blocks[k].addr && blocks[k].avail && ReadsAt(mem, blocks, k)
        invariant HeapSpec.MergeBack(blocks, k) == HeapSpec.MergeBack(old(blocks), i)
        decreases k
      {
        var prev := mem[b].prev;
        Absorb(prev, k - 1);
        b, k := prev, k - 1;
        Reads(mem, blocks, k);
      }
    }

    /** heap_merge_front. */
    method MergeFront(b: nat, ghost k: nat)
      requires Chained() && k < |blocks| && b == blocks[k].addr && blocks[k].avail
      modifies this`mem, this`blocks
      ensures Chained() && blocks == HeapSpec.MergeFront(old(blocks), k) && k < |blocks| && b == blocks[k].addr
    {
      hide Ordered, Linked, LinkAt;
      Reads(mem, blocks, k);
      while mem[b].next != 0 && mem[mem[b].next].avail && (mem[mem[b].next].size > 0 || mem[mem[b].next].next == 0)
        invariant Chained() && k < |blocks| && b == blocks[k].addr && blocks[k].avail && ReadsAt(mem, blocks, k)
        invariant HeapSpec.MergeFront(blocks, k) == HeapSpec.MergeFront(old(blocks), k)
        decreases |blocks|
      {
        Absorb(b, k);
        Reads(mem, blocks, k);
      }
    }

    /** The loop at the end of kfree. It reads `b->next` on every turn, and `b` may be on the
        page that the turn before has unmapped. */
    method UnmapPages(b: nat, ghost next: nat) returns (fault: bool)
      requires b in mem && mem[b].page == PageOf(b) && mem[b].next == next && Backed(mem, pages)
      modifies this`pages, this`mem
      ensures fault <==> !KeepsHeader(b, next)
      ensures !fault ==> pages == old(pages) - Unmapped(b, next) && mem == Left(old(mem), pages) && Backed(mem, pages)
    {
      hide KeepsHeader, HeaderOn;
      FreeHeaderMapped(b, next, pages);
      fault := false;
      var pg := mem[b].page + 1;
      LeftAll(mem, pages);
      while (pg + 1) * PAGE < mem[b].next
        invariant PageOf(b) + 1 <= pg && mem == Left(old(mem), pages) && b in mem
        invariant forall g :: g in pages <==> g in old(pages) && !(PageOf(b) + 1 <= g < pg)
        invariant forall g :: PageOf(b) + 1 <= g < pg ==> Between(g, b, next)
        decreases next - pg
      {
        LeftLeft(old(mem), pages, pages - {pg});
        pages := pages - {pg};
        mem := Left(mem, pages);
        pg := pg + 1;
        if b !in mem {
          FewerPages(b, old(pages) - Unmapped(b, next), pages);
          fault := true;
          return;
        }
      }
      assert pages == old(pages) - Unmapped(b, next);
    }

    /** Ends in a page fault exactly when the block's own header gets unmapped. */
    method Kfree(p: nat) returns (fault: bool)
      requires Valid() && Legal(Model(), Free(p))
      modifies this
      ensures fault <==> !Safe(old(Model()), Free(p))
      ensures !fault ==> Valid() && Model() == Step(old(Model()), Free(p))
    {
      hide Inv, Linked, LinkAt, Ordered, Backed, KeepsHeader, HeaderOn, Freed;
      if p == 0 {
        NoNullPayload(blocks);
        return false;
      }
      ghost var i, h := IndexAt(blocks, p, 0), Model();
      LiveIndex(h, p);
      FreeKeeps(h, p);
      FreedIs(blocks, i);
      var b := p - HDR;
      FreeOrdered(blocks, i);
      Reads(mem, blocks, i);
      Set(b, mem[b].size, true, i);
      ghost var k;
      b, k := MergeBack(b, i);
      MergeFront(b, k);
      Reads(mem, blocks, k);
      ghost var m := mem;
      fault := UnmapPages(b, mem[b].next);
      live := live - {p};
      if !fault { LinkedLeft(m, blocks, pages); }
    }
  }

  lemma FreedIs(bs: Blocks, i: nat)
    requires i < |bs|
    ensures var m := HeapSpec.MergeBack(bs[i := bs[i].(avail := true)], i);
      Freed(bs, i) == (HeapSpec.MergeFront(m.0, m.1), m.1)
  {
  }

  lemma LeftAll(m: Memory, pages: set<nat>)
    requires Backed(m, pages)
    ensures Left(m, pages) == m
  {
  }

  lemma LeftLeft(m: Memory, more: set<nat>, pages: set<nat>)
    requires pages <= more
    ensures Left(Left(m, more), pages) == Left(m, pages)
  {
  }

  lemma FewerPages(b: nat, fewer: set<nat>, pages: set<nat>)
    requires fewer <= pages
    ensures HeaderOn(b, fewer) ==> HeaderOn(b, pages)
  {
  }

  lemma LastMapped(bs: Blocks, pages: set<nat>)
    requires bs != [] && HeadersMapped(bs, pages)
    ensures HeaderOn(bs[|bs|-1].addr, pages)
  {
    assert bs[|bs|-1] in bs;
  }

  lemma FillerMapped(bs: Blocks, a: nat, pages: set<nat>)
    requires bs != [] && a > 0 && HeadersMapped(AppendAligned(bs, a), pages)
    ensures var l := bs[|bs|-1];
      !l.avail && AlignedAddr(l, a) - l.End() >= HDR ==> HeaderOn(l.End(), pages)
  {
    var r := AppendAligned(bs, a);
    assert |r| == |bs| + 2 ==> r[|bs|] in r;
  }

  /** What the stores of block `i` and of its neighbours' headers hold. */
  ghost predicate ReadsAt(m: Memory, bs: Blocks, i: nat)
    requires i < |bs|
  {
    var x := bs[i].addr;
    && x in m && m[x] == Header(bs[i].size, bs[i].avail, PageOf(x), PrevAddr(bs, i), NextAddr(bs, i))
    && (m[x].next == 0 <==> i == |bs| - 1) && (m[x].prev == 0 <==> i == 0)
    && (i > 0 ==> m[x].prev in m && m[m[x].prev].avail == bs[i-1].avail)
    && (i + 1 < |bs| ==> m[x].next in m && m[m[x].next].avail == bs[i+1].avail && m[m[x].next].size == bs[i+1].size
                         && (m[m[x].next].next == 0 <==> i + 2 == |bs|))
  }

  lemma Reads(m: Memory, bs: Blocks, i: nat)
    requires Ordered(bs) && Linked(m, bs) && i < |bs|
    ensures ReadsAt(m, bs, i)
  {
    Facts(m, bs, i);
    if i > 0 { NoNull(bs, i - 1); }
    if i + 1 < |bs| { Facts(m, bs, i + 1); NoNull(bs, i + 1); }
  }

  function SplitAt(bs: Blocks, i: nat, sz: nat): Blocks
    requires i < |bs|
  {
    var b := bs[i];
    if b.size < sz + HDR then bs
    else Insert(bs[i := Block(b.addr, sz, b.avail)], i, Block(b.addr + HDR + sz, b.size - sz - HDR, true))
  }

  lemma SplitOrdered(bs: Blocks, i: nat, sz: nat)
    requires Ordered(bs) && i < |bs| && sz % 4 == 0 && bs[i].size >= sz + HDR
    ensures Ordered(bs[i := Block(bs[i].addr, sz, bs[i].avail)]) && Ordered(SplitAt(bs, i, sz))
  {
    hide Ordered;
    var b := bs[i];
    NeighbourFacts(bs, i);
    HeadIsEmpty(bs, i);
    ResizeOrdered(bs, i, Block(b.addr, sz, b.avail));
    Diffs4(b.size - sz, HDR);
    EndBy4(Block(b.addr, sz, b.avail));
    InsertOrdered(bs[i := Block(b.addr, sz, b.avail)], i, Block(b.addr + HDR + sz, b.size - sz - HDR, true));
  }

  lemma HeadIsEmpty(bs: Blocks, i: nat)
    requires Ordered(bs) && i < |bs| && (bs[i].size > 0 || bs[i].avail)
    ensures i > 0
  {
  }

  lemma HandOrdered(bs: Blocks, i: nat, sz: nat)
    requires Ordered(bs) && i < |bs| && Usable(bs, i, sz) && sz % 4 == 0
    ensures var s := bs[i := bs[i].(avail := false)];
      && Ordered(s) && Ordered(SplitAt(s, i, sz)) && Ordered(Take(bs, i, sz))
      && SplitAt(s, i, sz)[i := Block(bs[i].addr, sz, false)] == Take(bs, i, sz)
  {
    hide Ordered;
    var s := bs[i := bs[i].(avail := false)];
    NeighbourFacts(bs, i);
    ResizeOrdered(bs, i, s[i]);
    if s[i].size >= sz + HDR { SplitOrdered(s, i, sz); }
    TakeOrdered(bs, i, sz);
  }

  lemma FreeOrdered(bs: Blocks, i: nat)
    requires Ordered(bs) && 0 < i < |bs|
    ensures Ordered(bs[i := bs[i].(avail := true)])
  {
    hide Ordered;
    NeighbourFacts(bs, i);
    ResizeOrdered(bs, i, bs[i].(avail := true));
  }

  /** The lists heap_find_aligned goes through when it adds a block. */
  lemma AppendAlignedSteps(bs: Blocks, a: nat)
    requires bs != [] && Ordered(bs) && a > 0 && PowerOfTwo(a)
    ensures var n, l, p := |bs| - 1, bs[|bs|-1], AlignedAddr(bs[|bs|-1], a);
      var s := Insert(bs, n, Block(p, 0, true));
      && Ordered(s)
      && AppendAligned(bs, a) == (if l.avail then s[n := Block(l.addr, p - l.addr - HDR, true)]
         else if p - l.End() >= HDR then Insert(s, n, Block(l.End(), p - l.End() - HDR, true))
         else s)
      && Ordered(AppendAligned(bs, a))
  {
    hide Ordered, AlignUp, PowerOfTwo, AlignedAddr;
    var n, l, p := |bs| - 1, bs[|bs|-1], AlignedAddr(bs[|bs|-1], a);
    NeighbourFacts(bs, n);
    AlignedAddrFacts(l, a);
    InsertOrdered(bs, n, Block(p, 0, true));
    AppendAlignedOrdered(bs, a);
    assert Insert(bs, n, Block(p, 0, true)) == bs + [Block(p, 0, true)];
  }
}
