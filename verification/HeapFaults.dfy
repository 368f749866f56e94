/** The two ways in which the heap meets a header that is not mapped, each with a legal run. */
module HeapFaults {
  import opened Util
  import opened HeapSpec
  import opened HeapRuns

  /** With every block in use, kmalloc puts its block after the last one. */
  lemma GrowsAtEnd(h: HeapState, sz: nat)
    requires h.bs != [] && (forall b :: b in h.bs ==> !b.avail)
    ensures var e, n := h.bs[|h.bs|-1].End(), Align4(sz);
      Step(h, Malloc(sz)) == HeapState(h.bs + [Block(e, n, false)], h.pages + Mapped(e, n), h.live[e + HDR := n])
  {
    assert FirstUsable(h.bs, Align4(sz), 1, 0) == |h.bs|;
  }

  const NEXT := 16 // offset of the field `next` in a header

  const FIRST := [Malloc(4040), Malloc(8192), Malloc(4)]

  const FULL := [Block(4096, 0, false), Block(4116, 4040, false), Block(8176, 8192, false), Block(16388, 4, false)]

  lemma ThreeBlocks()
    ensures Runs(Start(1), FIRST) && AllSafe(Start(1), FIRST)
    ensures Run(Start(1), FIRST) == HeapState(FULL, {1, 2, 3, 4}, map[4136 := 4040, 8196 := 8192, 16408 := 4])
  {
    hide Step, Mapped;
    var h0 := Start(1);
    GrowsAtEnd(h0, 4040);
    var h1 := Step(h0, Malloc(4040));
    assert Mapped(4116, 4040) == {1, 2} by { PagesFrom(4116, 4040, {1, 2}); }
    assert h1 == HeapState([Block(4096, 0, false), Block(4116, 4040, false)], {1, 2}, map[4136 := 4040]);
    GrowsAtEnd(h1, 8192);
    var h2 := Step(h1, Malloc(8192));
    assert Mapped(8176, 8192) == {1, 2, 3, 4} by { PagesFrom(8176, 8192, {1, 2, 3, 4}); }
    GrowsAtEnd(h2, 4);
    var h3 := Step(h2, Malloc(4));
    assert Mapped(16388, 4) == {4} by { PagesFrom(16388, 4, {4}); }
    assert h3.bs == FULL;
    assert FIRST[1..] == [Malloc(8192), Malloc(4)] && FIRST[1..][1..] == [Malloc(4)] && FIRST[1..][1..][1..] == [];
    assert Runs(h3, []) && Runs(h2, [Malloc(4)]) && Runs(h1, [Malloc(8192), Malloc(4)]);
  }

  lemma PagesFrom(b: nat, sz: nat, s: set<nat>)
    requires forall g: nat :: g in s <==> Touches(g, b, b + sz + 2 * HDR)
    ensures Mapped(b, sz) == s
  {
  }

  lemma SecondFreed()
    ensures Freed(FULL, 2) == (FULL[2 := Block(8176, 8192, true)], 2)
    ensures IndexAt(FULL, 8196, 0) == 2
  {
    var s := FULL[2 := Block(8176, 8192, true)];
    assert MergeBack(s, 2) == (s, 2) && MergeFront(s, 2) == s;
    assert IndexAt(FULL, 8196, 2) == 2 && IndexAt(FULL, 8196, 1) == 2;
  }

  /** After three allocations the second block's header is at 8176, its last four bytes on the
      next page. Freeing it unmaps that page, whose first bytes hold the link to the next block
      that kfree reads again on the following turn of its loop. */
  lemma FreeUnmapsItsHeader()
    ensures var ops := FIRST + [Free(8196)];
      && Runs(Start(1), ops) && !AllSafe(Start(1), ops) && !AlwaysAccessOk(Start(1), ops)
      && Block(8176, 8192, true) in Run(Start(1), ops).bs && 2 !in Run(Start(1), ops).pages
      && PageOf(8176 + NEXT) == 2
  {
    hide Step, Runs, Run, AllSafe, AlwaysAccessOk, Inv, Freed, Safe;
    ThreeBlocks();
    var h := Run(Start(1), FIRST);
    SecondFreed();
    var r := FreeSecond(h);
    Extend(Start(1), FIRST, Free(8196));
    StartInv(1);
    RunIff(Start(1), FIRST + [Free(8196)]);
  }

  lemma FreeSecond(h: HeapState) returns (r: HeapState)
    requires h == HeapState(FULL, {1, 2, 3, 4}, map[4136 := 4040, 8196 := 8192, 16408 := 4])
    ensures Legal(h, Free(8196)) && !Safe(h, Free(8196)) && r == Step(h, Free(8196))
    ensures Block(8176, 8192, true) in r.bs && 2 !in r.pages
  {
    SecondFreed();
    r := Step(h, Free(8196));
    assert r.bs[2] == Block(8176, 8192, true);
    assert Between(2, 8176, 16388);
  }

  lemma {:induction false} Extend(h: HeapState, ops: seq<Op>, op: Op)
    requires Runs(h, ops) && Run(h, ops).bs != [] && Legal(Run(h, ops), op)
    ensures Runs(h, ops + [op]) && Run(h, ops + [op]) == Step(Run(h, ops), op)
    ensures AllSafe(h, ops + [op]) <==> AllSafe(h, ops) && Safe(Run(h, ops), op)
    decreases |ops|
  {
    hide Step, Safe, Legal;
    if ops == [] {
      assert ops + [op] == [op] && [op][1..] == [];
      assert Runs(Step(h, op), []);
    } else {
      Extend(Step(h, ops[0]), ops[1..], op);
      assert (ops + [op])[1..] == ops[1..] + [op];
    }
  }

  /** Right after heap_init a block aligned to four pages gets its header on page 3, which
      kmalloca has not mapped when heap_find_aligned fills that header in. */
  lemma AlignedHeaderUnmapped()
    ensures var ops := [MallocAligned(4, 16384)];
      && Runs(Start(1), ops) && !AllSafe(Start(1), ops) && !AlwaysAccessOk(Start(1), ops)
      && AlignedAddr(Start(1).bs[0], 16384) == 16364 && PageOf(16364) == 3 && Start(1).pages == {1}
  {
    hide Inv, AlwaysAccessOk, Step, PowerOfTwo, AlignedAddr, Safe;
    Power(16384);
    var h, op := Start(1), MallocAligned(4, 16384);
    FirstUnsafe();
    assert [op][1..] == [] && Runs(Step(h, op), []);
    StartInv(1);
    RunIff(h, [op]);
  }

  lemma FirstUnsafe()
    requires PowerOfTwo(16384)
    ensures !Safe(Start(1), MallocAligned(4, 16384)) && AlignedAddr(Start(1).bs[0], 16384) == 16364
  {
    hide PowerOfTwo;
    assert FirstUsable(Start(1).bs, 4, 16384, 0) == 1;
    assert AlignUp(4136, 16384) == 16384;
  }

  lemma Power(n: nat)
    requires n == 4096 || n == 16384
    ensures PowerOfTwo(n)
  {
    assert PowerOfTwo(16) && PowerOfTwo(32);
    assert PowerOfTwo(64) && PowerOfTwo(128);
    assert PowerOfTwo(256) && PowerOfTwo(512);
    assert PowerOfTwo(1024) && PowerOfTwo(2048);
    assert PowerOfTwo(4096) && PowerOfTwo(8192);
  }

  // ---------- when it cannot happen ----------

  /** A power of two divides every larger one. */
  lemma {:induction false} Divides(a: nat, n: nat) returns (q: nat)
    requires PowerOfTwo(a) && PowerOfTwo(n) && a <= n
    ensures n == q * a
    decreases a
  {
    if a == 1 {
      q := n;
    } else {
      q := Divides(a / 2, n / 2);
    }
  }

  lemma Order(k: nat, q: nat, a: nat)
    requires a > 0 && k > q
    ensures k * a >= q * a + a
  {
    AtLeast(k - q, a);
    assert k * a == q * a + (k - q) * a;
  }

  /** The first multiple of `a` from `x` on is not above any other one. */
  lemma NextMultiple(x: nat, a: nat, q: nat)
    requires a > 0 && x <= q * a
    ensures AlignUp(x, a) <= q * a
  {
    AlignUpFacts(x, a);
    var k := (x + a - 1) / a;
    if k > q {
      Order(k, q, a);
      assert false;
    } else if k < q {
      Order(q, k, a);
    }
  }

  /** An aligned address at or after `x` is not past the end of the page of the byte before it. */
  lemma WithinThePage(x: nat, a: nat)
    requires x > 0 && PowerOfTwo(a) && 0 < a <= PAGE
    ensures x <= AlignUp(x, a) <= (PageOf(x - 1) + 1) * PAGE
  {
    hide PowerOfTwo, AlignUp;
    Power(PAGE);
    AlignUpFacts(x, a);
    var q := Divides(a, PAGE);
    var n := PageOf(x - 1) + 1;
    assert n * PAGE == (n * q) * a;
    NextMultiple(x, a, n * q);
  }

  /** With the last block in use, blocks aligned to at most a page get a mapped header: the room
      for a header that kmalloc maps behind each block ends on the page where it will be. */
  lemma WithinAPageIsSafe(h: HeapState, sz: nat, a: nat)
    requires Inv(h) && PowerOfTwo(a) && a <= PAGE && !h.bs[|h.bs|-1].avail
    ensures Safe(h, MallocAligned(sz, a))
  {
    hide Ordered, Coalesced, Held1, Resident, HeadersMapped, PowerOfTwo, AlignUp, FirstUsable;
    PowerPositive(a);
    HasHead(h.bs);
    var l := h.bs[|h.bs|-1];
    WithinThePage(l.End() + HDR, a);
    InPage(AlignedAddr(l, a) + HDR, PageOf(l.End() + HDR - 1));
    assert Touches(PageOf(AlignedAddr(l, a)), l.addr, l.End() + HDR - 1);
    assert Touches(PageOf(AlignedAddr(l, a) + HDR - 1), l.addr, l.End() + HDR - 1);
  }

  lemma InPage(x: nat, g: nat)
    requires 0 < x <= (g + 1) * PAGE
    ensures PageOf(x - 1) <= g
  {
  }
}
