/**
 * Frames and one user address space on values: the bitmap allocator of kernel/mm/paging.c,
 * the two-level tables above it, and the places that map and free user memory (kernel/elf.c,
 * kernel/task.c). `Frames` (Frames.dfy) has the in-place versions.
 */
module FrameSpec {
  import opened Util
  import Bits

  const NFRAMES: nat := 1048576     // BITMAP_SIZE * 8
  const PAGE: nat := 4096
  const MINBRK: nat := 0x80_0000
  const MAXBRK: nat := 0xB000_0000
  const WORD: nat := 0x1_0000_0000
  const PROG: nat := 2048           // first page of the program area
  const STACK: nat := 8
  const ENV: nat := 40
  const SIGH: nat := 7
  const FIXED: nat := 33            // stack pages and the signal trampoline

  /** How far task_entry is. It maps its pages one by one with interrupts on: `k` are done;
      `seen` is a frame whose bit was found clear but is not set yet; `hand` is the frame of
      page `k` while that page's table is still missing. `n` is the number of argument pages. */
  datatype Entry = Before | At(k: nat, n: nat, hand: Option<nat>, seen: Option<nat>) | After

  /** `brk` is the break, `peak` the highest it ever was. */
  datatype Space = Space(tables: map<nat, nat>, pages: map<nat, nat>, brk: nat, peak: nat, entry: Entry)

  /** The frames in use, and the address space on the CPU. */
  datatype Mem = Mem(used: set<nat>, sp: Space)

  /** Pages up to the break, and page tables for `pg` pages. */
  function Pg(brk: nat): nat { (brk + 4095) / 4096 }

  function Tb(pg: nat): nat { (pg + 1023) / 1024 }

  function Max(a: nat, b: nat): nat { if a < b then b else a }

  const EMPTY: Space := Space(map[], map[], MINBRK, MINBRK, Before)

  /** The lowest frame from `i` on that is not in use, or NFRAMES. */
  function Lowest(used: set<nat>, i: nat): (f: nat)
    requires i <= NFRAMES
    ensures i <= f <= NFRAMES && (f < NFRAMES ==> f !in used)
    ensures forall g :: i <= g < f ==> g in used
  {
    Bits.LowestClear(used, i, NFRAMES)
  }

  lemma LowestStep(used: set<nat>, i: nat)
    requires i <= NFRAMES
    ensures i < NFRAMES && i in used ==> Lowest(used, i) == Lowest(used, i + 1)
    ensures i == NFRAMES || i !in used ==> Lowest(used, i) == i
  {
  }

  /** page_frame_alloc: frame 0 when memory is full. */
  function Alloc(used: set<nat>): (set<nat>, nat) {
    var f := Lowest(used, 0);
    if f == NFRAMES then (used, 0) else (used + {f}, f)
  }

  predicate Full(used: set<nat>) { Lowest(used, 0) == NFRAMES }

  /** page_map_flags(p, page_frame_alloc(), ..): the page's frame comes first, then its table's. */
  function MapNew(m: Mem, p: nat): Mem {
    var (u, f) := Alloc(m.used);
    var pages := m.sp.pages[p := f];
    if p / 1024 in m.sp.tables then Mem(u, m.sp.(pages := pages))
    else
      var (v, g) := Alloc(u);
      Mem(v, m.sp.(pages := pages, tables := m.sp.tables[p / 1024 := g]))
  }

  /** Memory does not run out in the middle. */
  predicate Fits(m: Mem, p: nat) {
    !Full(m.used) && (p / 1024 in m.sp.tables || !Full(Alloc(m.used).0))
  }

  /** Maps those pages from `lo` to `hi` that are not mapped yet. */
  function MapRange(m: Mem, lo: nat, hi: nat): Mem
    decreases hi - lo
  {
    if lo >= hi then m else MapRange(if lo !in m.sp.pages then MapNew(m, lo) else m, lo + 1, hi)
  }

  predicate RangeFits(m: Mem, lo: nat, hi: nat)
    decreases hi - lo
  {
    lo >= hi
    || if lo !in m.sp.pages then Fits(m, lo) && RangeFits(MapNew(m, lo), lo + 1, hi)
       else RangeFits(m, lo + 1, hi)
  }

  function FreePage(m: Mem, p: nat): Mem {
    if p in m.sp.pages && m.sp.pages[p] != 0
    then Mem(m.used - {m.sp.pages[p]}, m.sp.(pages := m.sp.pages - {p}))
    else m
  }

  function FreeRange(m: Mem, lo: nat, hi: nat): Mem
    decreases hi - lo
  {
    if lo >= hi then m else FreeRange(FreePage(m, lo), lo + 1, hi)
  }

  // ---------- loading, entering, moving the break, leaving ----------

  /** One PT_LOAD segment that ends at `end`. */
  function Load(m: Mem, end: nat): Mem {
    if end <= m.sp.brk then m
    else
      var r := MapRange(m, m.sp.brk / 4096, Pg(end));
      Mem(r.used, r.sp.(brk := end, peak := Max(r.sp.peak, end)))
  }

  /** The pages of task_entry in the order it maps them: stack, trampoline, arguments. */
  function EntryPage(k: nat): nat {
    if k < FIXED - 1 then STACK + k else if k == FIXED - 1 then SIGH else ENV + k - FIXED
  }

  predicate Entering(sp: Space) { sp.entry.At? }

  function Begin(sp: Space, n: nat): Space { sp.(entry := At(0, n, None, None)) }

  /** A clear bit was found. */
  function Scanned(sp: Space, f: nat): Space
    requires Entering(sp)
  {
    sp.(entry := sp.entry.(seen := Some(f)))
  }

  function NextPage(k: nat, n: nat): Entry { if k + 1 < FIXED + n then At(k + 1, n, None, None) else After }

  /** The bit is set, and the frame is put to use: as the page, to wait for the page's table,
      or as that table, upon which the page follows. */
  function Committed(m: Mem): Mem
    requires Entering(m.sp) && m.sp.entry.seen.Some?
  {
    var sp, e := m.sp, m.sp.entry;
    var p, f := EntryPage(e.k), e.seen.value;
    Mem(m.used + {f},
        if e.hand.Some?
        then sp.(tables := sp.tables[p / 1024 := f], pages := sp.pages[p := e.hand.value], entry := NextPage(e.k, e.n))
        else if p / 1024 in sp.tables then sp.(pages := sp.pages[p := f], entry := NextPage(e.k, e.n))
        else sp.(entry := e.(hand := Some(f), seen := None)))
  }

  /** Frames that task_entry has yet to ask for, at most. */
  function Work(e: Entry): nat {
    match e
    case At(k, n, hand, _) => (if k < FIXED + n then 2 * (FIXED + n - k) else 0) + (if hand.None? then 2 else 1)
    case _ => 0
  }

  /** task_entry without interruption: each scan finds the lowest clear bit. */
  function EnterAll(m: Mem): Mem
    requires Entering(m.sp) ==> m.sp.entry.seen.None?
    decreases Work(m.sp.entry)
  {
    if !Entering(m.sp) then m else EnterAll(Committed(Mem(m.used, Scanned(m.sp, Alloc(m.used).1))))
  }

  /** Without interruption a page of task_entry is mapped as any other. */
  lemma EnterPage(m: Mem, k: nat, n: nat)
    requires m.sp.entry == At(k, n, None, None) && k < FIXED + n
    ensures var r := MapNew(m, EntryPage(k)); EnterAll(m) == EnterAll(Mem(r.used, r.sp.(entry := NextPage(k, n))))
  {
    hide Lowest;
    var p := EntryPage(k);
    var (u, f) := Alloc(m.used);
    var c := Committed(Mem(m.used, Scanned(m.sp, f)));
    AllocUses(m.used);
    assert EnterAll(m) == EnterAll(c);
    if p / 1024 !in m.sp.tables {
      AllocUses(u);
      var d := Committed(Mem(u, Scanned(c.sp, Alloc(u).1)));
      assert EnterAll(c) == EnterAll(d);
      assert d.sp == MapNew(m, p).sp.(entry := NextPage(k, n));
    } else {
      assert c.sp == MapNew(m, p).sp.(entry := NextPage(k, n));
    }
  }

  lemma AllocUses(used: set<nat>)
    ensures Alloc(used).0 == used + {Alloc(used).1}
  {
  }

  /** The new break in 32-bit arithmetic. */
  function Moved(brk: nat, inc: int): nat { (brk + inc) % WORD }

  /** task_sbrk. */
  function Sbrk(m: Mem, inc: int): Mem {
    var brk := Moved(m.sp.brk, inc);
    if brk < MINBRK || brk >= MAXBRK then m
    else
      var r := if brk > m.sp.brk then MapRange(m, Pg(m.sp.brk), Pg(brk))
               else FreeRange(m, Pg(brk), Pg(m.sp.brk));
      Mem(r.used, r.sp.(brk := brk, peak := Max(r.sp.peak, brk)))
  }

  predicate SbrkFits(m: Mem, inc: int) {
    var brk := Moved(m.sp.brk, inc);
    MINBRK <= brk < MAXBRK && brk > m.sp.brk ==> RangeFits(m, Pg(m.sp.brk), Pg(brk))
  }

  /** What task_free gives back: pages below the break, and the tables that cover them. */
  function Returned(sp: Space): set<nat> {
    (set p | p in sp.pages && p < Pg(sp.brk) && sp.pages[p] != 0 :: sp.pages[p])
    + (set i | i in sp.tables && i < Tb(Pg(sp.brk)) && sp.tables[i] != 0 :: sp.tables[i])
  }

  // ---------- which pages and tables there are ----------

  /** Every mapped page has its table and lies below the break; from the program area on all
      do; and tables exist exactly as far as the break ever went. Below the program area,
      exactly the pages that task_entry has done are mapped. */
  ghost predicate Shape(sp: Space) {
    && MINBRK <= sp.brk <= sp.peak <= MAXBRK
    && (forall p :: p in sp.pages ==> p < Pg(sp.brk) && p / 1024 in sp.tables)
    && (forall p :: PROG <= p < Pg(sp.brk) ==> p in sp.pages)
    && (forall i :: i in sp.tables ==> i < Tb(Pg(sp.peak)))
    && (forall p :: PROG <= p < Pg(sp.peak) ==> p / 1024 in sp.tables)
    && match sp.entry
       case Before => forall p :: p in sp.pages ==> p >= PROG
       case At(k, n, hand, seen) =>
         && k < FIXED + n && ENV + n <= PROG
         && (forall p: nat :: p < PROG ==> (p in sp.pages <==> SIGH <= p && PageIndex(p) < k))
         && (hand.Some? ==> EntryPage(k) / 1024 !in sp.tables)
       case After => true
  }

  /** The place of a page in that order. */
  function PageIndex(p: nat): nat
    requires p >= SIGH
  {
    if p == SIGH then FIXED - 1 else if p < ENV then p - STACK else p - ENV + FIXED
  }

  /** What mapping a range adds. */
  ghost predicate Mapped(a: Space, b: Space, lo: nat, hi: nat) {
    && b == a.(pages := b.pages, tables := b.tables)
    && (forall p :: p in b.pages <==> p in a.pages || lo <= p < hi)
    && (forall i :: i in a.tables ==> i in b.tables)
    && (forall i :: i in b.tables ==> i in a.tables || lo / 1024 <= i <= (hi - 1) / 1024)
    && (forall p :: lo <= p < hi ==> p / 1024 in b.tables)
  }

  lemma OneMaps(m: Mem, p: nat)
    requires forall q :: q in m.sp.pages ==> q / 1024 in m.sp.tables
    ensures Mapped(m.sp, (if p !in m.sp.pages then MapNew(m, p) else m).sp, p, p + 1)
  {
  }

  lemma MapsOn(a: Space, b: Space, c: Space, lo: nat, mid: nat, hi: nat)
    requires Mapped(a, b, lo, mid) && Mapped(b, c, mid, hi) && lo < mid <= hi
    ensures Mapped(a, c, lo, hi)
  {
    forall i | i in c.tables ensures i in a.tables || lo / 1024 <= i <= (hi - 1) / 1024 {
      if i in b.tables {} else { assert mid / 1024 <= i; }
    }
  }

  lemma {:induction false} RangeMaps(m: Mem, lo: nat, hi: nat)
    requires forall p :: p in m.sp.pages ==> p / 1024 in m.sp.tables
    ensures Mapped(m.sp, MapRange(m, lo, hi).sp, lo, hi)
    decreases hi - lo
  {
    if lo < hi {
      var n := if lo !in m.sp.pages then MapNew(m, lo) else m;
      OneMaps(m, lo);
      RangeMaps(n, lo + 1, hi);
      MapsOn(m.sp, n.sp, MapRange(n, lo + 1, hi).sp, lo, lo + 1, hi);
    }
  }

  lemma LoadShape(m: Mem, end: nat)
    requires Shape(m.sp) && m.sp.entry.Before? && end <= MAXBRK
    ensures Shape(Load(m, end).sp)
  {
    if end > m.sp.brk {
      RangeMaps(m, m.sp.brk / 4096, Pg(end));
      var a, b := m.sp, Load(m, end).sp;
      assert Pg(a.brk) <= Pg(end) && a.brk / 4096 <= Pg(a.brk) <= a.brk / 4096 + 1;
      PeakGrows(a, b, a.brk / 4096);
    }
  }

  /** Tables up to the peak, after the pages from `lo` (not above the old break) to `b.brk` were mapped. */
  lemma PeakGrows(a: Space, b: Space, lo: nat)
    requires Shape(a) && Mapped(a, b.(brk := a.brk, peak := a.peak), lo, Pg(b.brk))
    requires PROG <= lo <= Pg(a.brk) && a.brk <= b.brk && b.peak == Max(a.peak, b.brk)
    requires b.brk <= MAXBRK && !Entering(a)
    ensures Shape(b)
  {
    forall i | i in b.tables ensures i < Tb(Pg(b.peak)) {
      assert i in a.tables || i <= (Pg(b.brk) - 1) / 1024;
    }
    forall p | PROG <= p < Pg(b.peak) ensures p / 1024 in b.tables {
      assert p < Pg(a.peak) || lo <= p < Pg(b.brk);
    }
  }

  lemma BeginShape(sp: Space, n: nat)
    requires Shape(sp) && sp.entry.Before? && ENV + n <= PROG
    ensures Shape(Begin(sp, n))
  {
  }

  /** The order of the pages is one-to-one. */
  lemma EntryOrder(k: nat)
    requires k < FIXED + PROG - ENV
    ensures var p := EntryPage(k); SIGH <= p < PROG && PageIndex(p) == k
    ensures forall p: nat :: SIGH <= p < PROG && PageIndex(p) == k ==> p == EntryPage(k)
  {
  }

  lemma CommitShape(m: Mem)
    requires Shape(m.sp) && Entering(m.sp) && m.sp.entry.seen.Some?
    ensures Shape(Committed(m).sp)
  {
    EntryOrder(m.sp.entry.k);
  }

  /** Entering without interruption maps exactly the stack, the trampoline and the arguments. */
  lemma {:induction false} EnterMaps(m: Mem, k: nat, n: nat, hand: Option<nat>)
    requires Shape(m.sp) && m.sp.entry == At(k, n, hand, None)
    ensures var r := EnterAll(m).sp;
      && Shape(r) && r.entry == After && r.brk == m.sp.brk && r.peak == m.sp.peak
      && forall p: nat :: p in r.pages <==> SIGH <= p < ENV + n || PROG <= p < Pg(r.brk)
    decreases Work(m.sp.entry)
  {
    var s := Mem(m.used, Scanned(m.sp, Alloc(m.used).1));
    CommitShape(s);
    EntryOrder(k);
    var c := Committed(s);
    if Entering(c.sp) {
      EnterMaps(c, c.sp.entry.k, n, c.sp.entry.hand);
    } else {
      LastPage(s.sp, c.sp, n);
    }
    assert EnterAll(m) == EnterAll(c);
  }

  lemma LastPage(a: Space, b: Space, n: nat)
    requires Shape(a) && a.entry.At? && a.entry.n == n && a.entry.k + 1 == FIXED + n
    requires b.pages.Keys == a.pages.Keys + {EntryPage(a.entry.k)} && b.brk == a.brk
    ensures forall p: nat :: p in b.pages <==> SIGH <= p < ENV + n || PROG <= p < Pg(b.brk)
  {
    EntryOrder(a.entry.k);
  }

  lemma {:induction false} RangeFrees(m: Mem, lo: nat, hi: nat)
    requires forall p :: p in m.sp.pages ==> m.sp.pages[p] != 0
    ensures var r := FreeRange(m, lo, hi).sp;
      r == m.sp.(pages := r.pages) && r.pages == map p | p in m.sp.pages && !(lo <= p < hi) :: m.sp.pages[p]
    decreases hi - lo
  {
    if lo < hi { RangeFrees(FreePage(m, lo), lo + 1, hi); }
    else { assert m.sp.pages == map p | p in m.sp.pages && !(lo <= p < hi) :: m.sp.pages[p]; }
  }

  lemma SbrkShape(m: Mem, inc: int)
    requires Shape(m.sp) && (forall p :: p in m.sp.pages ==> m.sp.pages[p] != 0) && !Entering(m.sp)
    requires m.sp.entry.After?
    ensures Shape(Sbrk(m, inc).sp)
  {
    var brk := Moved(m.sp.brk, inc);
    if MINBRK <= brk < MAXBRK {
      if brk > m.sp.brk {
        RangeMaps(m, Pg(m.sp.brk), Pg(brk));
        PeakGrows(m.sp, Sbrk(m, inc).sp, Pg(m.sp.brk));
      } else {
        RangeFrees(m, Pg(brk), Pg(m.sp.brk));
      }
    }
  }

  // ---------- what sbrk does to the memory a task sees ----------

  /** The program area byte by byte: each byte below the break is on a mapped page, and no mapped
      page lies wholly above it. */
  lemma BytesMapped(sp: Space)
    requires Shape(sp)
    ensures forall b :: MINBRK <= b < sp.brk ==> b / 4096 in sp.pages
    ensures forall p :: p in sp.pages && p >= PROG ==> p * 4096 < sp.brk
  {
  }

  predicate BreakMoves(m: Mem, inc: int, r: Mem) {
    var want := m.sp.brk + inc;
    && (MINBRK <= want < MAXBRK ==> r.sp.brk == want)
    && (want < 0 && MINBRK <= want + WORD < MAXBRK ==> r.sp.brk == want + WORD > m.sp.brk)
    && (WORD + MINBRK <= want ==> r.sp.brk == want - WORD < m.sp.brk)
    && (want < MINBRK && !(want < 0 && MINBRK <= want + WORD < MAXBRK) ==> r == m)
    && (MAXBRK <= want < WORD + MINBRK ==> r == m)
  }

  /** task_sbrk with an increment of 32 bits: the break moves by it when that stays within bounds.
      Out of bounds nothing changes, unless the sum wraps around and comes back into them: then
      the break goes there, against the sign of the increment. */
  lemma SbrkMoves(m: Mem, inc: int)
    requires Shape(m.sp) && m.sp.entry.After? && -0x8000_0000 <= inc < 0x8000_0000
    requires forall p :: p in m.sp.pages ==> m.sp.pages[p] != 0
    ensures BreakMoves(m, inc, Sbrk(m, inc)) && Shape(Sbrk(m, inc).sp) && Sbrk(m, inc).sp.entry.After?
  {
    hide Shape, MapRange, FreeRange;
    SbrkShape(m, inc);
    WithinBounds(m.sp);
    SbrkIs(m, inc);
  }

  lemma WithinBounds(sp: Space)
    requires Shape(sp)
    ensures MINBRK <= sp.brk <= MAXBRK
  {
  }

  lemma SbrkIs(m: Mem, inc: int)
    requires MINBRK <= m.sp.brk <= MAXBRK && -0x8000_0000 <= inc < 0x8000_0000 && m.sp.entry.After?
    requires forall p :: p in m.sp.pages ==> m.sp.pages[p] != 0
    ensures BreakMoves(m, inc, Sbrk(m, inc)) && Sbrk(m, inc).sp.entry.After?
  {
    hide MapRange, FreeRange;
    var want := m.sp.brk + inc;
    assert want % WORD == if want < 0 then want + WORD else if want >= WORD then want - WORD else want;
    MapRangeKeeps(m, Pg(m.sp.brk), Pg(want % WORD));
    FreeRangeKeeps(m, Pg(want % WORD), Pg(m.sp.brk));
  }

  lemma {:induction false} MapRangeKeeps(m: Mem, lo: nat, hi: nat)
    ensures var r := MapRange(m, lo, hi);
      r.sp == m.sp.(pages := r.sp.pages, tables := r.sp.tables) && m.used <= r.used
    ensures var r := MapRange(m, lo, hi).sp.pages; forall p :: p in m.sp.pages ==> p in r && r[p] == m.sp.pages[p]
    decreases hi - lo
  {
    hide Lowest;
    if lo < hi { MapRangeKeeps(if lo !in m.sp.pages then MapNew(m, lo) else m, lo + 1, hi); }
  }

  lemma {:induction false} FreeRangeKeeps(m: Mem, lo: nat, hi: nat)
    ensures var r := FreeRange(m, lo, hi); r.sp == m.sp.(pages := r.sp.pages) && r.used <= m.used
    ensures var r := FreeRange(m, lo, hi).sp.pages;
      forall p :: p in m.sp.pages && !(lo <= p < hi) ==> p in r && r[p] == m.sp.pages[p]
    decreases hi - lo
  {
    if lo < hi { FreeRangeKeeps(FreePage(m, lo), lo + 1, hi); }
  }

  /** What the task had below both breaks stays where it was, in the same frames. */
  lemma SbrkPreserves(m: Mem, inc: int, b: nat)
    requires Shape(m.sp) && b / 4096 in m.sp.pages && b < m.sp.brk && b < Sbrk(m, inc).sp.brk
    ensures b / 4096 in Sbrk(m, inc).sp.pages && Sbrk(m, inc).sp.pages[b / 4096] == m.sp.pages[b / 4096]
  {
    hide Shape, MapRange, FreeRange;
    var brk := (m.sp.brk + inc) % WORD;
    MapRangeKeeps(m, Pg(m.sp.brk), Pg(brk));
    FreeRangeKeeps(m, Pg(brk), Pg(m.sp.brk));
  }

  /** Two calls in a row move the break by the sum, and giving back what was taken restores it. */
  lemma SbrkAddsUp(m: Mem, a: int, b: int)
    requires Shape(m.sp) && m.sp.entry.After? && (forall p :: p in m.sp.pages ==> m.sp.pages[p] != 0)
    requires -0x8000_0000 <= a < 0x8000_0000 && -0x8000_0000 <= b < 0x8000_0000
    requires MINBRK <= m.sp.brk + a < MAXBRK && MINBRK <= m.sp.brk + a + b < MAXBRK
    requires forall p :: p in Sbrk(m, a).sp.pages ==> Sbrk(m, a).sp.pages[p] != 0
    ensures Sbrk(Sbrk(m, a), b).sp.brk == m.sp.brk + a + b
    ensures a + b == 0 ==> Sbrk(Sbrk(m, a), b).sp.brk == m.sp.brk
  {
    SbrkMoves(m, a);
    SbrkMoves(Sbrk(m, a), b);
  }

  /** sbrk(-2 GiB) from the lowest break succeeds, and gives the task 2 GiB. */
  lemma SbrkWrapsUp(m: Mem)
    requires Shape(m.sp) && m.sp.entry.After? && m.sp.brk == MINBRK
    requires forall p :: p in m.sp.pages ==> m.sp.pages[p] != 0
    ensures var r := Sbrk(m, -0x8000_0000).sp;
      r.brk == 0x8080_0000 && forall b :: MINBRK <= b < r.brk ==> b / 4096 in r.pages
  {
    SbrkMoves(m, -0x8000_0000);
    BytesMapped(Sbrk(m, -0x8000_0000).sp);
  }

  // ---------- enough frames ----------

  /** With fewer frames in use than there are, one is free. */
  lemma Unfull(used: set<nat>)
    requires |used| < NFRAMES
    ensures !Full(used)
  {
    if Full(used) { FullSize(used, NFRAMES); }
  }

  lemma FullSize(used: set<nat>, n: nat)
    requires forall f: nat :: f < n ==> f in used
    ensures |used| >= n
  {
    if n > 0 {
      FullSize(used - {n - 1}, n - 1);
      assert used == (used - {n - 1}) + {n - 1};
    }
  }

  lemma TwoFrames(m: Mem, p: nat)
    requires |m.used| + 2 <= NFRAMES
    ensures Fits(m, p) && |MapNew(m, p).used| <= |m.used| + 2
  {
    hide Lowest;
    Unfull(m.used);
    Unfull(Alloc(m.used).0);
  }

  /** Two free frames for each page are always enough. */
  lemma {:induction false} RoomFits(m: Mem, lo: nat, hi: nat)
    requires lo <= hi && |m.used| + 2 * (hi - lo) <= NFRAMES
    ensures RangeFits(m, lo, hi) && |MapRange(m, lo, hi).used| <= |m.used| + 2 * (hi - lo)
    decreases hi - lo
  {
    hide Full, Lowest;
    if lo < hi {
      TwoFrames(m, lo);
      RoomFits(if lo !in m.sp.pages then MapNew(m, lo) else m, lo + 1, hi);
    }
  }
}
