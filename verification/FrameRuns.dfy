/**
 * All user tasks together: who owns which frame, over any interleaving of task creation,
 * loading, entry, sbrk, exit and kernel allocations, as long as memory does not run out.
 * Loading, sbrk and exit run under the interrupt lock and are one event each. task_entry does
 * not: each of its frames is found (`EScan`) in one event and taken (`ECommit`) in a later one,
 * and any event of any other task may fall between them. So it is with kernel code that
 * allocates with interrupts on (`EKernelScan`, `EKernelCommit`).
 */
module FrameRuns {
  import opened Util
  import opened FrameSpec

  type Pid = nat

  /** `kernel` is what the kernel holds and `nkernel` how many frames it was given; `leaked` is
      what no one holds although its bit is set, until a late store takes it; `pending` are the
      frames that unfinished kernel allocations have found; `dying` are the address spaces of
      tasks that have freed their frames and have yet to give up the CPU. */
  datatype World = World(used: set<nat>, kernel: set<nat>, nkernel: nat, leaked: set<nat>,
                         spaces: map<Pid, Space>, pending: map<nat, nat>, dying: map<Pid, Space>)

  datatype Event =
    | EStart(t: Pid)               // task_new
    | ELoad(t: Pid, end: nat)      // one segment, in load_entry
    | EEnter(t: Pid, n: nat)       // task_entry drops the lock; `n` pages of arguments follow
    | EScan(t: Pid, f: nat)        // page_frame_alloc in task_entry comes upon clear bit `f`
    | ECommit(t: Pid)              // it sets the bit, and the frame is mapped
    | ESbrk(t: Pid, inc: int)
    | EExit(t: Pid)                // task_free
    | EGone(t: Pid)                // the final task_block
    | EKernelAlloc | EKernelFree(f: nat)
    | EKernelScan(i: nat, f: nat) | EKernelCommit(i: nat)

  // ---------- who holds a frame ----------

  datatype Slot = TableOf(t: Pid, i: nat) | PageOf(t: Pid, p: nat) | HandOf(t: Pid)

  predicate Holds(ss: map<Pid, Space>, s: Slot, f: nat) {
    s.t in ss && match s
      case TableOf(t, i) => i in ss[t].tables && ss[t].tables[i] == f
      case PageOf(t, p) => p in ss[t].pages && ss[t].pages[p] == f
      case HandOf(t) => ss[t].entry.At? && ss[t].entry.hand == Some(f)
  }

  /** Every frame in use is the kernel's, leaked, or in exactly one slot of one task. */
  ghost predicate Owners(w: World) {
    && 0 in w.kernel && |w.kernel| == w.nkernel && w.kernel <= w.used && w.leaked <= w.used && w.kernel !! w.leaked
    && (forall s, f :: Holds(w.spaces, s, f) ==> f in w.used && f !in w.kernel && f !in w.leaked)
    && (forall s, r, f :: Holds(w.spaces, s, f) && Holds(w.spaces, r, f) ==> s == r)
    && (forall f :: f in w.used ==> f in w.kernel || f in w.leaked || exists s :: Holds(w.spaces, s, f))
  }

  ghost predicate Inv(w: World) {
    Owners(w) && forall t :: t in w.spaces ==> Shape(w.spaces[t])
  }

  // ---------- the events ----------

  function On(w: World, t: Pid): Mem
    requires t in w.spaces
  {
    Mem(w.used, w.spaces[t])
  }

  function Put(w: World, t: Pid, m: Mem): World { w.(used := m.used, spaces := w.spaces[t := m.sp]) }

  /** Segments end in user memory, arguments below the program area, and memory suffices. A
      scan ends at a bit that is clear at that moment; bits it passed may have been cleared since. */
  predicate Enabled(w: World, e: Event) {
    match e
    case EStart(t) => t !in w.spaces && t !in w.dying
    case ELoad(t, end) =>
      && t in w.spaces && w.spaces[t].entry.Before? && end <= MAXBRK
      && (end > w.spaces[t].brk ==> RangeFits(On(w, t), w.spaces[t].brk / 4096, Pg(end)))
    case EEnter(t, n) => t in w.spaces && w.spaces[t].entry.Before? && ENV + n <= PROG
    case EScan(t, f) =>
      t in w.spaces && Entering(w.spaces[t]) && w.spaces[t].entry.seen.None? && f !in w.used && f < NFRAMES
    case ECommit(t) => t in w.spaces && Entering(w.spaces[t]) && w.spaces[t].entry.seen.Some?
    case ESbrk(t, inc) => t in w.spaces && w.spaces[t].entry.After? && SbrkFits(On(w, t), inc)
    case EExit(t) => t in w.spaces && !Entering(w.spaces[t])
    case EGone(t) => t in w.dying
    case EKernelAlloc => !Full(w.used)
    case EKernelFree(f) => f in w.kernel && f != 0
    case EKernelScan(i, f) => i !in w.pending && f !in w.used && f < NFRAMES
    case EKernelCommit(i) => i in w.pending
  }

  /** The tables an exit does not give back: those above the break it ends with. */
  function Lost(sp: Space): set<nat> {
    set i | i in sp.tables && i >= Tb(Pg(sp.brk)) :: sp.tables[i]
  }

  function Given(w: World, f: nat): World {
    w.(used := w.used + {f}, kernel := w.kernel + {f}, nkernel := w.nkernel + 1)
  }

  function Step(w: World, e: Event): World
    requires Enabled(w, e)
  {
    match e
    case EStart(t) => w.(spaces := w.spaces[t := EMPTY])
    case ELoad(t, end) => Put(w, t, Load(On(w, t), end))
    case EEnter(t, n) => w.(spaces := w.spaces[t := Begin(w.spaces[t], n)])
    case EScan(t, f) => w.(spaces := w.spaces[t := Scanned(w.spaces[t], f)])
    case ECommit(t) => Put(w, t, Committed(On(w, t))).(leaked := w.leaked - {w.spaces[t].entry.seen.value})
    case ESbrk(t, inc) => Put(w, t, Sbrk(On(w, t), inc))
    case EExit(t) =>
      var sp := w.spaces[t];
      w.(used := w.used - Returned(sp), leaked := w.leaked + Lost(sp), spaces := w.spaces - {t},
        dying := w.dying[t := sp])
    case EGone(t) => w.(dying := w.dying - {t})
    case EKernelAlloc => Given(w, Alloc(w.used).1)
    case EKernelFree(f) => w.(used := w.used - {f}, kernel := w.kernel - {f}, nkernel := |w.kernel - {f}|)
    case EKernelScan(i, f) => w.(pending := w.pending[i := f])
    case EKernelCommit(i) => Given(w, w.pending[i]).(pending := w.pending - {i}, leaked := w.leaked - {w.pending[i]})
  }

  /** Somebody took the frame between an allocation's scan and its store. */
  predicate Overtaken(w: World, e: Event)
    requires Enabled(w, e)
  {
    match e
    case ECommit(t) => w.spaces[t].entry.seen.value in w.used
    case EKernelCommit(i) => w.pending[i] in w.used
    case _ => false
  }

  ghost predicate InSlot(ss: map<Pid, Space>, f: nat) { exists s :: Holds(ss, s, f) }

  /** Somebody still holds that frame when it is stored. */
  ghost predicate Doubles(w: World, e: Event)
    requires Enabled(w, e)
  {
    match e
    case ECommit(t) => var f := w.spaces[t].entry.seen.value; f in w.kernel || InSlot(w.spaces, f)
    case EKernelCommit(i) => w.pending[i] in w.kernel || InSlot(w.spaces, w.pending[i])
    case _ => false
  }

  /** Whoever took the frame may have lost it again: an overtaken allocation doubles unless the
      frame has leaked meanwhile. */
  lemma DoublesWhen(w: World, e: Event)
    requires Owners(w) && Enabled(w, e)
    ensures e.ECommit? ==> (Doubles(w, e) <==> Overtaken(w, e) && w.spaces[e.t].entry.seen.value !in w.leaked)
    ensures e.EKernelCommit? ==> (Doubles(w, e) <==> Overtaken(w, e) && w.pending[e.i] !in w.leaked)
    ensures Doubles(w, e) ==> Overtaken(w, e)
  {
    match e
    case ECommit(t) => UsedIs(w, w.spaces[t].entry.seen.value);
    case EKernelCommit(i) => UsedIs(w, w.pending[i]);
    case _ =>
  }

  /** In use and not leaked is the kernel's or a task's. */
  lemma UsedIs(w: World, f: nat)
    requires Owners(w)
    ensures f in w.used && f !in w.leaked <==> f in w.kernel || InSlot(w.spaces, f)
  {
  }

  // ---------- owners are kept ----------

  /** A frame that was free goes into a slot that was empty. */
  lemma SlotGains(w: World, w': World, s: Slot, f: nat)
    requires Owners(w) && f !in w.used && (forall g :: !Holds(w.spaces, s, g))
    requires w' == w.(used := w.used + {f}, spaces := w'.spaces)
    requires forall r, g :: Holds(w'.spaces, r, g) <==> Holds(w.spaces, r, g) || (r == s && g == f)
    ensures Owners(w')
  {
    forall g | g in w'.used ensures g in w'.kernel || g in w'.leaked || exists r :: Holds(w'.spaces, r, g) {
      if g == f { assert Holds(w'.spaces, s, f); }
      else if g !in w.kernel && g !in w.leaked { var r :| Holds(w.spaces, r, g); assert Holds(w'.spaces, r, g); }
    }
  }

  lemma AllocFree(used: set<nat>)
    requires !Full(used)
    ensures Alloc(used).1 !in used && Alloc(used).0 == used + {Alloc(used).1}
  {
  }

  lemma PageGains(w: World, t: Pid, p: nat, f: nat)
    requires Owners(w) && t in w.spaces && p !in w.spaces[t].pages && f !in w.used
    ensures var sp := w.spaces[t];
      Owners(w.(used := w.used + {f}, spaces := w.spaces[t := sp.(pages := sp.pages[p := f])]))
  {
    var sp := w.spaces[t];
    SlotGains(w, w.(used := w.used + {f}, spaces := w.spaces[t := sp.(pages := sp.pages[p := f])]), PageOf(t, p), f);
  }

  lemma TableGains(w: World, t: Pid, i: nat, f: nat)
    requires Owners(w) && t in w.spaces && i !in w.spaces[t].tables && f !in w.used
    ensures var sp := w.spaces[t];
      Owners(w.(used := w.used + {f}, spaces := w.spaces[t := sp.(tables := sp.tables[i := f])]))
  {
    var sp := w.spaces[t];
    SlotGains(w, w.(used := w.used + {f}, spaces := w.spaces[t := sp.(tables := sp.tables[i := f])]), TableOf(t, i), f);
  }

  lemma MapNewOwners(w: World, t: Pid, p: nat)
    requires Owners(w) && t in w.spaces && p !in w.spaces[t].pages && Fits(On(w, t), p)
    ensures Owners(Put(w, t, MapNew(On(w, t), p)))
  {
    hide Owners;
    AllocFree(w.used);
    var (u, f) := Alloc(w.used);
    PageGains(w, t, p, f);
    var sp := w.spaces[t];
    var w1 := w.(used := u, spaces := w.spaces[t := sp.(pages := sp.pages[p := f])]);
    if p / 1024 in sp.tables {
      assert Put(w, t, MapNew(On(w, t), p)) == w1;
    } else {
      AllocFree(u);
      TableGains(w1, t, p / 1024, Alloc(u).1);
      assert Put(w, t, MapNew(On(w, t), p)).spaces ==
        w1.spaces[t := w1.spaces[t].(tables := sp.tables[p / 1024 := Alloc(u).1])];
    }
  }

  lemma {:induction false} RangeOwners(w: World, t: Pid, lo: nat, hi: nat)
    requires Owners(w) && t in w.spaces && RangeFits(On(w, t), lo, hi)
    ensures Owners(Put(w, t, MapRange(On(w, t), lo, hi)))
    decreases hi - lo
  {
    hide Owners;
    if lo < hi {
      var w1 := w;
      if lo !in w.spaces[t].pages {
        MapNewOwners(w, t, lo);
        w1 := Put(w, t, MapNew(On(w, t), lo));
      }
      RangeOwners(w1, t, lo + 1, hi);
      assert Put(w1, t, MapRange(On(w1, t), lo + 1, hi)) == Put(w, t, MapRange(On(w, t), lo, hi));
    } else {
      assert Put(w, t, On(w, t)) == w;
    }
  }

  /** Slots of `t` are emptied and the frames in them are given back or leaked. */
  lemma SlotsLose(w: World, w': World, back: set<nat>, lost: set<nat>)
    requires Owners(w) && back !! lost
    requires w' == w.(used := w.used - back, leaked := w.leaked + lost, spaces := w'.spaces, dying := w'.dying)
    requires forall s, f :: Holds(w'.spaces, s, f) <==> Holds(w.spaces, s, f) && f !in back && f !in lost
    requires forall f :: f in back || f in lost ==> exists s :: Holds(w.spaces, s, f)
    ensures Owners(w')
  {
    forall f | f in back || f in lost ensures f in w.used && f !in w.kernel && f !in w.leaked {
      var s :| Holds(w.spaces, s, f);
    }
    forall f | f in w'.used ensures f in w'.kernel || f in w'.leaked || exists s :: Holds(w'.spaces, s, f) {
      if f !in w.kernel && f !in w.leaked && f !in lost {
        var s :| Holds(w.spaces, s, f);
        assert Holds(w'.spaces, s, f);
      }
    }
  }

  /** Frames in slots are never frame 0, so every mapped page is really given back. */
  lemma NoZero(w: World, t: Pid)
    requires Owners(w) && t in w.spaces
    ensures forall p :: p in w.spaces[t].pages ==> w.spaces[t].pages[p] != 0
    ensures forall i :: i in w.spaces[t].tables ==> w.spaces[t].tables[i] != 0
  {
    forall p | p in w.spaces[t].pages ensures w.spaces[t].pages[p] != 0 {
      assert Holds(w.spaces, PageOf(t, p), w.spaces[t].pages[p]);
    }
    forall i | i in w.spaces[t].tables ensures w.spaces[t].tables[i] != 0 {
      assert Holds(w.spaces, TableOf(t, i), w.spaces[t].tables[i]);
    }
  }

  lemma FreePageOwners(w: World, t: Pid, p: nat)
    requires Owners(w) && t in w.spaces
    ensures Owners(Put(w, t, FreePage(On(w, t), p)))
  {
    var w' := Put(w, t, FreePage(On(w, t), p));
    NoZero(w, t);
    if p in w.spaces[t].pages {
      var f := w.spaces[t].pages[p];
      assert Holds(w.spaces, PageOf(t, p), f);
      forall s, g ensures Holds(w'.spaces, s, g) <==> Holds(w.spaces, s, g) && g != f {
        PageDropped(w.spaces, t, p, s, g);
      }
      SlotsLose(w, w', {f}, {});
    } else {
      assert w' == w;
    }
  }

  lemma PageDropped(ss: map<Pid, Space>, t: Pid, p: nat, s: Slot, g: nat)
    requires t in ss && p in ss[t].pages
    ensures var r := ss[t := ss[t].(pages := ss[t].pages - {p})];
      Holds(r, s, g) <==> Holds(ss, s, g) && s != PageOf(t, p)
  {
  }

  lemma {:induction false} FreeRangeOwners(w: World, t: Pid, lo: nat, hi: nat)
    requires Owners(w) && t in w.spaces
    ensures Owners(Put(w, t, FreeRange(On(w, t), lo, hi)))
    decreases hi - lo
  {
    hide Owners;
    if lo < hi {
      FreePageOwners(w, t, lo);
      var w1 := Put(w, t, FreePage(On(w, t), lo));
      FreeRangeOwners(w1, t, lo + 1, hi);
      assert Put(w1, t, FreeRange(On(w1, t), lo + 1, hi)) == Put(w, t, FreeRange(On(w, t), lo, hi));
    } else {
      assert Put(w, t, On(w, t)) == w;
    }
  }

  predicate SameHand(a: Entry, b: Entry) {
    (if a.At? then a.hand else None) == (if b.At? then b.hand else None)
  }

  lemma SameFrames(w: World, t: Pid, a: Space)
    requires Owners(w) && t in w.spaces && a.tables == w.spaces[t].tables && a.pages == w.spaces[t].pages
    requires SameHand(a.entry, w.spaces[t].entry)
    ensures Owners(w.(spaces := w.spaces[t := a]))
  {
    var r := w.spaces[t := a];
    assert forall s, f :: Holds(r, s, f) <==> Holds(w.spaces, s, f);
    forall f | f in w.used ensures f in w.kernel || f in w.leaked || exists s :: Holds(r, s, f) {
      if f !in w.kernel && f !in w.leaked { var s :| Holds(w.spaces, s, f); assert Holds(r, s, f); }
    }
  }

  lemma ExitOwners(w: World, t: Pid)
    requires Inv(w) && Enabled(w, EExit(t))
    ensures Owners(Step(w, EExit(t)))
  {
    var sp, w' := w.spaces[t], Step(w, EExit(t));
    var back, lost := Returned(sp), Lost(sp);
    NoZero(w, t);
    forall f | f in back || f in lost ensures exists s :: Holds(w.spaces, s, f) && s.t == t {
      BackOrLost(sp, f);
      if p :| p in sp.pages && sp.pages[p] == f { assert Holds(w.spaces, PageOf(t, p), f); }
      else if i :| i in sp.tables && sp.tables[i] == f { assert Holds(w.spaces, TableOf(t, i), f); }
    }
    forall s, f ensures Holds(w'.spaces, s, f) <==> Holds(w.spaces, s, f) && f !in back && f !in lost {
      if Holds(w.spaces, s, f) && s.t == t { GivenOrLost(sp, s, f); }
    }
    forall f | f in back && f in lost ensures false {
      BackIsNotLost(w, t, f);
    }
    SlotsLose(w, w', back, lost);
  }

  lemma BackOrLost(sp: Space, f: nat)
    requires f in Returned(sp) || f in Lost(sp)
    ensures (exists p :: p in sp.pages && sp.pages[p] == f) || (exists i :: i in sp.tables && sp.tables[i] == f)
  {
  }

  lemma GivenOrLost(sp: Space, s: Slot, f: nat)
    requires Shape(sp) && !Entering(sp) && f != 0 && Holds(map[s.t := sp], s, f)
    ensures f in Returned(sp) || f in Lost(sp)
  {
  }

  lemma ReturnedSlot(w: World, t: Pid, f: nat) returns (s: Slot)
    requires t in w.spaces && f in Returned(w.spaces[t])
    ensures Holds(w.spaces, s, f) && (s.TableOf? ==> s.i < Tb(Pg(w.spaces[t].brk)))
  {
    var sp := w.spaces[t];
    if p :| p in sp.pages && sp.pages[p] == f {
      s := PageOf(t, p);
    } else {
      var i :| i in sp.tables && i < Tb(Pg(sp.brk)) && sp.tables[i] == f;
      s := TableOf(t, i);
    }
  }

  lemma LostSlot(w: World, t: Pid, f: nat) returns (s: Slot)
    requires t in w.spaces && f in Lost(w.spaces[t])
    ensures Holds(w.spaces, s, f) && s.TableOf? && s.i >= Tb(Pg(w.spaces[t].brk))
  {
    var sp := w.spaces[t];
    var i :| i in sp.tables && i >= Tb(Pg(sp.brk)) && sp.tables[i] == f;
    s := TableOf(t, i);
  }

  lemma BackIsNotLost(w: World, t: Pid, f: nat)
    requires Owners(w) && t in w.spaces && f in Returned(w.spaces[t])
    ensures f !in Lost(w.spaces[t])
  {
    if f in Lost(w.spaces[t]) {
      var s := ReturnedSlot(w, t, f);
      var r := LostSlot(w, t, f);
      assert false;
    }
  }

  // ---------- every step ----------

  lemma StartOwners(w: World, t: Pid)
    requires Owners(w) && t !in w.spaces
    ensures Owners(w.(spaces := w.spaces[t := EMPTY]))
  {
    var r := w.spaces[t := EMPTY];
    assert forall s, f :: Holds(r, s, f) <==> Holds(w.spaces, s, f);
    forall f | f in w.used ensures f in w.kernel || f in w.leaked || exists s :: Holds(r, s, f) {
      if f !in w.kernel && f !in w.leaked { var s :| Holds(w.spaces, s, f); assert Holds(r, s, f); }
    }
  }

  lemma LoadOwners(w: World, t: Pid, end: nat)
    requires Owners(w) && Enabled(w, ELoad(t, end))
    ensures Owners(Step(w, ELoad(t, end)))
  {
    hide Owners, MapRange;
    var m := On(w, t);
    if end > m.sp.brk {
      RangeOwners(w, t, m.sp.brk / 4096, Pg(end));
      var w1 := Put(w, t, MapRange(m, m.sp.brk / 4096, Pg(end)));
      SameFrames(w1, t, Load(m, end).sp);
      assert Put(w, t, Load(m, end)) == w1.(spaces := w1.spaces[t := Load(m, end).sp]);
    } else {
      assert Put(w, t, m) == w;
    }
  }

  lemma SbrkOwners(w: World, t: Pid, inc: int)
    requires Owners(w) && Enabled(w, ESbrk(t, inc))
    ensures Owners(Step(w, ESbrk(t, inc)))
  {
    hide Owners, MapRange, FreeRange;
    var m, brk := On(w, t), Moved(w.spaces[t].brk, inc);
    if MINBRK <= brk < MAXBRK {
      var r := if brk > m.sp.brk then MapRange(m, Pg(m.sp.brk), Pg(brk))
               else FreeRange(m, Pg(brk), Pg(m.sp.brk));
      if brk > m.sp.brk { RangeOwners(w, t, Pg(m.sp.brk), Pg(brk)); }
      else { FreeRangeOwners(w, t, Pg(brk), Pg(m.sp.brk)); }
      SameFrames(Put(w, t, r), t, Sbrk(m, inc).sp);
      assert Put(w, t, Sbrk(m, inc)) == Put(w, t, r).(spaces := Put(w, t, r).spaces[t := Sbrk(m, inc).sp]);
    } else {
      assert Put(w, t, m) == w;
    }
  }

  /** A frame moves from one slot to another that was empty. */
  lemma SlotMoves(w: World, ss: map<Pid, Space>, s: Slot, r: Slot, f: nat)
    requires Owners(w) && Holds(w.spaces, s, f) && (forall g :: !Holds(w.spaces, r, g))
    requires forall x, g :: Holds(ss, x, g) <==> (Holds(w.spaces, x, g) && x != s) || (x == r && g == f)
    ensures Owners(w.(spaces := ss))
  {
    forall g | g in w.used ensures g in w.kernel || g in w.leaked || exists x :: Holds(ss, x, g) {
      if g == f { assert Holds(ss, r, f); }
      else if g !in w.kernel && g !in w.leaked { var x :| Holds(w.spaces, x, g); assert Holds(ss, x, g); }
    }
  }

  lemma HandGains(w: World, t: Pid, f: nat)
    requires Owners(w) && t in w.spaces && w.spaces[t].entry.At? && w.spaces[t].entry.hand.None? && f !in w.used
    ensures var sp := w.spaces[t];
      Owners(w.(used := w.used + {f}, spaces := w.spaces[t := sp.(entry := sp.entry.(hand := Some(f), seen := None))]))
  {
    var sp := w.spaces[t];
    var ss := w.spaces[t := sp.(entry := sp.entry.(hand := Some(f), seen := None))];
    SlotGains(w, w.(used := w.used + {f}, spaces := ss), HandOf(t), f);
  }

  lemma HandToPage(w: World, t: Pid, p: nat, e: Entry)
    requires Owners(w) && t in w.spaces && w.spaces[t].entry.At? && w.spaces[t].entry.hand.Some?
    requires p !in w.spaces[t].pages && !(e.At? && e.hand.Some?)
    ensures var sp := w.spaces[t];
      Owners(w.(spaces := w.spaces[t := sp.(pages := sp.pages[p := sp.entry.hand.value], entry := e)]))
  {
    var sp, f := w.spaces[t], w.spaces[t].entry.hand.value;
    SlotMoves(w, w.spaces[t := sp.(pages := sp.pages[p := f], entry := e)], HandOf(t), PageOf(t, p), f);
  }

  lemma EntryPageNew(sp: Space)
    requires Shape(sp) && Entering(sp)
    ensures EntryPage(sp.entry.k) !in sp.pages
    ensures sp.entry.hand.Some? ==> EntryPage(sp.entry.k) / 1024 !in sp.tables
  {
    EntryOrder(sp.entry.k);
  }

  /** The frame just found goes into the page, the hand or the table. */
  lemma FreshOwners(w: World, t: Pid)
    requires Inv(w) && Enabled(w, ECommit(t)) && !Overtaken(w, ECommit(t))
    requires w.spaces[t].entry.seen.value !in w.leaked
    ensures Owners(Step(w, ECommit(t)))
  {
    hide Owners, Shape, EntryPage;
    var sp, e := w.spaces[t], w.spaces[t].entry;
    EntryPageNew(sp);
    var p, f, u := EntryPage(e.k), e.seen.value, w.used + {e.seen.value};
    var w' := Step(w, ECommit(t));
    if e.hand.Some? {
      TableGains(w, t, p / 1024, f);
      var w1 := w.(used := u, spaces := w.spaces[t := sp.(tables := sp.tables[p / 1024 := f])]);
      HandToPage(w1, t, p, NextPage(e.k, e.n));
      assert w' == w1.(spaces := w1.spaces[t := w'.spaces[t]]);
    } else if p / 1024 in sp.tables {
      PageGains(w, t, p, f);
      var w1 := w.(used := u, spaces := w.spaces[t := sp.(pages := sp.pages[p := f])]);
      SameFrames(w1, t, w'.spaces[t]);
      assert w' == w1.(spaces := w1.spaces[t := w'.spaces[t]]);
    } else {
      HandGains(w, t, f);
      assert w' == w.(used := u, spaces := w.spaces[t := w'.spaces[t]]);
    }
  }

  /** A leaked frame may as well be free. */
  lemma Forget(w: World, f: nat)
    requires Owners(w) && f !in w.kernel && !InSlot(w.spaces, f)
    ensures Owners(w.(used := w.used - {f}, leaked := w.leaked - {f}))
  {
  }

  lemma CommitOwners(w: World, t: Pid)
    requires Inv(w) && Enabled(w, ECommit(t)) && !Doubles(w, ECommit(t))
    ensures Owners(Step(w, ECommit(t)))
  {
    hide Owners, Shape, InSlot;
    var f := w.spaces[t].entry.seen.value;
    var w0 := w.(used := w.used - {f}, leaked := w.leaked - {f});
    Forget(w, f);
    FreshOwners(w0, t);
    assert w0.used + {f} == w.used + {f} && w0.leaked - {f} == w.leaked - {f};
    assert Step(w0, ECommit(t)) == Step(w, ECommit(t));
  }

  lemma Grown(s: set<nat>, x: nat)
    ensures |s + {x}| == if x in s then |s| else |s| + 1
  {
    if x in s { assert s + {x} == s; }
  }

  lemma KernelOwners(w: World, e: Event)
    requires Owners(w) && Enabled(w, e) && !Doubles(w, e)
    requires e.EKernelAlloc? || e.EKernelFree? || e.EKernelScan? || e.EKernelCommit? || e.EGone?
    ensures Owners(Step(w, e))
  {
    if e.EKernelAlloc? {
      AllocFree(w.used);
      Grown(w.kernel, Alloc(w.used).1);
    } else if e.EKernelCommit? {
      Grown(w.kernel, w.pending[e.i]);
    }
    assert Step(w, e).spaces == w.spaces;
  }

  lemma StepShapes(w: World, e: Event)
    requires Inv(w) && Enabled(w, e)
    ensures forall t :: t in Step(w, e).spaces ==> Shape(Step(w, e).spaces[t])
  {
    hide Owners, MapRange, FreeRange, RangeFits, Shape;
    match e
    case ELoad(t, end) => LoadShape(On(w, t), end);
    case EEnter(t, n) => BeginShape(w.spaces[t], n);
    case EScan(t, f) => ScanShape(w.spaces[t], f);
    case ECommit(t) => CommitShape(On(w, t));
    case ESbrk(t, inc) => NoZero(w, t); SbrkShape(On(w, t), inc);
    case EStart(t) => EmptyShape();
    case _ =>
  }

  lemma ScanShape(sp: Space, f: nat)
    requires Shape(sp) && Entering(sp)
    ensures Shape(Scanned(sp, f))
  {
  }

  lemma EmptyShape()
    ensures Shape(EMPTY)
  {
  }

  lemma StepKeeps(w: World, e: Event)
    requires Inv(w) && Enabled(w, e) && !Doubles(w, e)
    ensures Inv(Step(w, e))
  {
    hide Owners, Shape, Holds, InSlot;
    StepShapes(w, e);
    match e
    case EStart(t) => StartOwners(w, t);
    case ELoad(t, end) => LoadOwners(w, t, end);
    case EEnter(t, n) => SameFrames(w, t, Begin(w.spaces[t], n));
    case EScan(t, f) => SameFrames(w, t, Scanned(w.spaces[t], f));
    case ECommit(t) => CommitOwners(w, t);
    case ESbrk(t, inc) => SbrkOwners(w, t, inc);
    case EExit(t) => ExitOwners(w, t);
    case _ => KernelOwners(w, e);
  }

  lemma FreshKeeps(w: World, e: Event)
    requires Inv(w) && Enabled(w, e) && !Overtaken(w, e)
    ensures Inv(Step(w, e)) && !Doubles(w, e)
  {
    hide Owners, Shape, Holds, Doubles, Overtaken;
    DoublesWhen(w, e);
    StepKeeps(w, e);
  }

  // ---------- owners are lost ----------

  /** Nobody shares a frame with another task or the kernel, and the kernel got no frame twice. */
  ghost predicate Unshared(w: World) {
    && |w.kernel| == w.nkernel
    && (forall s, f :: Holds(w.spaces, s, f) ==> f !in w.kernel)
    && (forall s, r, f :: Holds(w.spaces, s, f) && Holds(w.spaces, r, f) ==> s == r)
  }

  /** An allocation that doubles gives one frame to two holders. */
  lemma DoublesShares(w: World, e: Event)
    requires Inv(w) && Enabled(w, e) && Doubles(w, e)
    ensures !Unshared(Step(w, e))
  {
    hide Unshared;
    if e.EKernelCommit? { KernelTwice(w, e.i); } else { TaskTwice(w, e.t); }
  }

  lemma KernelTwice(w: World, i: nat)
    requires Inv(w) && Enabled(w, EKernelCommit(i)) && Doubles(w, EKernelCommit(i))
    ensures !Unshared(Step(w, EKernelCommit(i)))
  {
    var r, f := Step(w, EKernelCommit(i)), w.pending[i];
    Grown(w.kernel, f);
    if f !in w.kernel {
      var s :| Holds(w.spaces, s, f);
      assert Holds(r.spaces, s, f);
    }
  }

  /** The slot a commit fills. */
  function Filled(sp: Space, t: Pid): Slot
    requires Entering(sp)
  {
    var p := EntryPage(sp.entry.k);
    if sp.entry.hand.Some? then TableOf(t, p / 1024) else if p / 1024 in sp.tables then PageOf(t, p) else HandOf(t)
  }

  /** A frame held before a commit is still held after it, by a slot the commit does not fill. */
  lemma StillHeld(w: World, t: Pid, s: Slot, f: nat) returns (r: Slot)
    requires Inv(w) && Enabled(w, ECommit(t)) && Holds(w.spaces, s, f)
    ensures Holds(Step(w, ECommit(t)).spaces, r, f) && r != Filled(w.spaces[t], t)
  {
    var sp, e := w.spaces[t], w.spaces[t].entry;
    assert Shape(sp);
    EntryOrder(e.k);
    r := if s == HandOf(t) then PageOf(t, EntryPage(e.k)) else s;
  }

  lemma TaskTwice(w: World, t: Pid)
    requires Inv(w) && Enabled(w, ECommit(t)) && Doubles(w, ECommit(t))
    ensures !Unshared(Step(w, ECommit(t)))
  {
    var f, n, r := w.spaces[t].entry.seen.value, Filled(w.spaces[t], t), Step(w, ECommit(t));
    assert Holds(r.spaces, n, f);
    if f !in w.kernel {
      var s :| Holds(w.spaces, s, f);
      var x := StillHeld(w, t, s, f);
    }
  }

  // ---------- every run ----------

  predicate Runs(w: World, es: seq<Event>)
    decreases |es|
  {
    es == [] || (Enabled(w, es[0]) && Runs(Step(w, es[0]), es[1..]))
  }

  function Run(w: World, es: seq<Event>): World
    requires Runs(w, es)
    decreases |es|
  {
    if es == [] then w else Run(Step(w, es[0]), es[1..])
  }

  ghost predicate AlwaysInv(w: World, es: seq<Event>)
    requires Runs(w, es)
    decreases |es|
  {
    Inv(w) && (es == [] || AlwaysInv(Step(w, es[0]), es[1..]))
  }

  /** Whenever a bit is set, it is still clear: nobody took the frame since the scan. */
  predicate NoneOvertaken(w: World, es: seq<Event>)
    requires Runs(w, es)
    decreases |es|
  {
    es == [] || (!Overtaken(w, es[0]) && NoneOvertaken(Step(w, es[0]), es[1..]))
  }

  /** Whenever a frame is stored, nobody holds it. */
  ghost predicate NoneDoubled(w: World, es: seq<Event>)
    requires Runs(w, es)
    decreases |es|
  {
    es == [] || (!Doubles(w, es[0]) && NoneDoubled(Step(w, es[0]), es[1..]))
  }

  ghost predicate AlwaysUnshared(w: World, es: seq<Event>)
    requires Runs(w, es)
    decreases |es|
  {
    Unshared(w) && (es == [] || AlwaysUnshared(Step(w, es[0]), es[1..]))
  }

  /** Through every interleaving each frame keeps exactly one holder, and nobody shares a frame,
      if and only if no allocation stores a frame that somebody holds by then. Taking none that
      was overtaken between its scan and its store is enough. */
  lemma {:induction false} InvIff(w: World, es: seq<Event>)
    requires Inv(w) && Runs(w, es)
    ensures AlwaysInv(w, es) <==> NoneDoubled(w, es)
    ensures AlwaysUnshared(w, es) <==> NoneDoubled(w, es)
    ensures NoneDoubled(w, es) ==> Inv(Run(w, es))
    ensures NoneOvertaken(w, es) ==> NoneDoubled(w, es)
    decreases |es|
  {
    hide Inv, Unshared, Overtaken, Doubles;
    InvUnshared(w);
    if es != [] {
      var r := Step(w, es[0]);
      if Doubles(w, es[0]) {
        DoublesShares(w, es[0]);
        if Inv(r) { InvUnshared(r); }
        if !Overtaken(w, es[0]) { FreshKeeps(w, es[0]); }
      } else {
        StepKeeps(w, es[0]);
        InvIff(r, es[1..]);
      }
    }
  }

  lemma InvUnshared(w: World)
    requires Inv(w)
    ensures Unshared(w)
  {
  }

  /** Nobody's mappings yet; the kernel holds everything that is in use. */
  function Boot(kernel: set<nat>): World { World(kernel, kernel, |kernel|, {}, map[], map[], map[]) }

  lemma BootInv(kernel: set<nat>)
    requires 0 in kernel
    ensures Inv(Boot(kernel))
  {
  }

  /** No allocation is half done. */
  ghost predicate Quiet(w: World) {
    w.pending == map[] && forall t :: t in w.spaces && Entering(w.spaces[t]) ==> w.spaces[t].entry.seen.None?
  }

  /** Every scan is followed at once by its store, as it is when both are done under the lock. */
  predicate Locked(es: seq<Event>)
    decreases |es|
  {
    if es == [] then true
    else if es[0].EScan? then |es| > 1 && es[1] == ECommit(es[0].t) && Locked(es[2..])
    else if es[0].EKernelScan? then |es| > 1 && es[1] == EKernelCommit(es[0].i) && Locked(es[2..])
    else Locked(es[1..])
  }

  /** Under the lock nothing is ever overtaken. */
  lemma {:induction false} LockedNeverOvertaken(w: World, es: seq<Event>)
    requires Inv(w) && Quiet(w) && Runs(w, es) && Locked(es)
    ensures NoneOvertaken(w, es) && AlwaysInv(w, es)
    decreases |es|
  {
    hide Owners, Shape;
    if es != [] {
      var w1 := Step(w, es[0]);
      if es[0].EScan? || es[0].EKernelScan? {
        PairRuns(w, es);
        FreshKeeps(w, es[0]);
        FreshKeeps(w1, es[1]);
        LockedNeverOvertaken(Step(w1, es[1]), es[2..]);
      } else {
        QuietStays(w, es[0]);
        FreshKeeps(w, es[0]);
        LockedNeverOvertaken(w1, es[1..]);
      }
    }
  }

  lemma PairRuns(w: World, es: seq<Event>)
    requires Quiet(w) && Runs(w, es) && Locked(es) && es != [] && (es[0].EScan? || es[0].EKernelScan?)
    ensures |es| > 1 && Enabled(Step(w, es[0]), es[1]) && !Overtaken(Step(w, es[0]), es[1])
    ensures es[1..][1..] == es[2..] && Quiet(Step(Step(w, es[0]), es[1])) && Runs(Step(Step(w, es[0]), es[1]), es[2..])
    ensures NoneOvertaken(w, es) <==> NoneOvertaken(Step(Step(w, es[0]), es[1]), es[2..])
    ensures AlwaysInv(w, es) <==> Inv(w) && Inv(Step(w, es[0])) && AlwaysInv(Step(Step(w, es[0]), es[1]), es[2..])
  {
    hide Inv;
    assert es[1..][0] == es[1] && es[1..][1..] == es[2..];
  }

  lemma QuietStays(w: World, e: Event)
    requires Quiet(w) && Enabled(w, e) && !e.EScan? && !e.EKernelScan?
    ensures Quiet(Step(w, e)) && !Overtaken(w, e)
  {
    hide MapRange, FreeRange, RangeFits;
    match e
    case ELoad(t, end) => LoadEntry(On(w, t), end);
    case ESbrk(t, inc) => SbrkEntry(On(w, t), inc);
    case _ =>
  }

  lemma LoadEntry(m: Mem, end: nat)
    ensures var r := Load(m, end).sp;
      && r.entry == m.sp.entry && r.brk == Max(m.sp.brk, end)
      && r.peak == Max(m.sp.peak, if end > m.sp.brk then end else 0)
  {
    MapRangeKeeps(m, m.sp.brk / 4096, Pg(end));
  }

  lemma SbrkEntry(m: Mem, inc: int)
    ensures var r, brk := Sbrk(m, inc).sp, Moved(m.sp.brk, inc);
      && r.entry == m.sp.entry
      && (MINBRK <= brk < MAXBRK ==> r.brk == brk && r.peak == Max(m.sp.peak, brk))
  {
    MapRangeKeeps(m, Pg(m.sp.brk), Pg(Moved(m.sp.brk, inc)));
    FreeRangeKeeps(m, Pg(Moved(m.sp.brk, inc)), Pg(m.sp.brk));
  }
}
