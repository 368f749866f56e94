/**
 * Runs of FrameRuns: two tasks that get one frame, and what an exit gives back, with its exact
 * condition and a run from boot that violates it.
 */
module FrameTheorems {
  import opened Util
  import opened FrameSpec
  import opened FrameRuns

  // ---------- putting runs together ----------

  lemma {:induction false} Concat(w: World, a: seq<Event>, b: seq<Event>)
    requires Runs(w, a) && Runs(Run(w, a), b)
    ensures Runs(w, a + b) && Run(w, a + b) == Run(Run(w, a), b)
    ensures NoneOvertaken(w, a + b) <==> NoneOvertaken(w, a) && NoneOvertaken(Run(w, a), b)
    ensures NoneDoubled(w, a + b) <==> NoneDoubled(w, a) && NoneDoubled(Run(w, a), b)
    ensures ExitsHigh(w, a + b) <==> ExitsHigh(w, a) && ExitsHigh(Run(w, a), b)
    decreases |a|
  {
    hide Doubles, Overtaken, Step, Enabled;
    if a == [] {
      assert a + b == b;
    } else {
      Concat(Step(w, a[0]), a[1..], b);
      assert (a + b)[1..] == a[1..] + b;
    }
  }

  lemma One(w: World, e: Event)
    requires Enabled(w, e)
    ensures Runs(w, [e]) && Run(w, [e]) == Step(w, e)
    ensures NoneOvertaken(w, [e]) <==> !Overtaken(w, e)
    ensures NoneDoubled(w, [e]) <==> !Doubles(w, e)
    ensures !e.EExit? ==> ExitsHigh(w, [e])
  {
    assert [e][1..] == [];
    assert Runs(Step(w, e), []);
  }

  lemma Two(w: World, e: Event, f: Event)
    requires Enabled(w, e) && Enabled(Step(w, e), f)
    ensures Runs(w, [e, f]) && Run(w, [e, f]) == Step(Step(w, e), f)
    ensures NoneOvertaken(w, [e, f]) <==> !Overtaken(w, e) && !Overtaken(Step(w, e), f)
    ensures NoneDoubled(w, [e, f]) <==> !Doubles(w, e) && !Doubles(Step(w, e), f)
    ensures !e.EExit? && !f.EExit? ==> ExitsHigh(w, [e, f])
  {
    One(w, e);
    One(Step(w, e), f);
    Concat(w, [e], [f]);
    assert [e] + [f] == [e, f];
  }

  lemma Four(w: World, e: Event, f: Event, g: Event, h: Event)
    requires Enabled(w, e) && Enabled(Step(w, e), f)
    requires var x := Step(Step(w, e), f); Enabled(x, g) && Enabled(Step(x, g), h)
    ensures var x := Step(Step(w, e), f);
      Runs(w, [e, f, g, h]) && Run(w, [e, f, g, h]) == Step(Step(x, g), h)
    ensures Doubles(Step(Step(Step(w, e), f), g), h) ==> !NoneDoubled(w, [e, f, g, h])
  {
    var x := Step(Step(w, e), f);
    Two(w, e, f);
    Two(x, g, h);
    Concat(w, [e, f], [g, h]);
    assert [e, f] + [g, h] == [e, f, g, h];
  }

  // ---------- two tasks, one frame ----------

  /** Two tasks that enter at once, both scanning before either stores. */
  function BothScan(f: nat): seq<Event> { [EScan(1, f), EScan(2, f), ECommit(1), ECommit(2)] }

  const BOTH_ENTER := [EStart(1), EStart(2), EEnter(1, 0), EEnter(2, 0)]

  /** Whatever the kernel holds: when two tasks enter at once, and each scan finds the lowest
      clear bit, both may get the same frame for the first page of their stacks. */
  lemma TwoEntriesCollide(kernel: set<nat>) returns (es: seq<Event>, f: nat)
    requires 0 in kernel && |kernel| + 3 <= NFRAMES
    ensures Runs(Boot(kernel), es) && !AlwaysUnshared(Boot(kernel), es) && f == Alloc(kernel).1 && f != 0
    ensures Holds(Run(Boot(kernel), es).spaces, PageOf(1, STACK), f)
    ensures Holds(Run(Boot(kernel), es).spaces, PageOf(2, STACK), f)
  {
    hide Runs, AlwaysInv, AlwaysUnshared, NoneDoubled, NoneOvertaken, Run, Inv;
    var w := Boot(kernel);
    Unfull(kernel);
    f := Alloc(kernel).1;
    var w4 := w.(spaces := map[1 := Begin(EMPTY, 0), 2 := Begin(EMPTY, 0)]);
    BothEnter(w);
    var w8 := BothHold(w4, f);
    Unfull(w8.used);
    var g := Alloc(w8.used).1;
    Unfull(w8.used + {g});
    var h := Alloc(w8.used + {g}).1;
    BothMap(w8, f, g, h);
    var last := [EScan(1, g), ECommit(1), EScan(2, h), ECommit(2)];
    Concat(w4, BothScan(f), last);
    Concat(w, BOTH_ENTER, BothScan(f) + last);
    es := BOTH_ENTER + (BothScan(f) + last);
    BootInv(kernel);
    InvIff(w, es);
  }

  lemma BothEnter(w: World)
    requires w.spaces == map[] && w.dying == map[]
    ensures Runs(w, BOTH_ENTER)
    ensures Run(w, BOTH_ENTER) == w.(spaces := map[1 := Begin(EMPTY, 0), 2 := Begin(EMPTY, 0)])
  {
    hide Runs, Run;
    Four(w, EStart(1), EStart(2), EEnter(1, 0), EEnter(2, 0));
  }

  function Holding(hand: Option<nat>): Space { EMPTY.(entry := At(0, 0, hand, None)) }

  lemma BothHold(w: World, f: nat) returns (r: World)
    requires w.spaces == map[1 := Begin(EMPTY, 0), 2 := Begin(EMPTY, 0)] && f !in w.used && f < NFRAMES
    requires w.leaked == {}
    ensures r == w.(used := w.used + {f}, spaces := map[1 := Holding(Some(f)), 2 := Holding(Some(f))])
    ensures Runs(w, BothScan(f)) && Run(w, BothScan(f)) == r && !NoneDoubled(w, BothScan(f))
    ensures |r.used| == |w.used| + 1
  {
    hide Runs, Run, NoneDoubled;
    var x := Step(Step(Step(w, EScan(1, f)), EScan(2, f)), ECommit(1));
    assert Holds(x.spaces, HandOf(1), f);
    Four(w, EScan(1, f), EScan(2, f), ECommit(1), ECommit(2));
    r := w.(used := w.used + {f}, spaces := map[1 := Holding(Some(f)), 2 := Holding(Some(f))]);
  }

  lemma BothMap(w: World, f: nat, g: nat, h: nat)
    requires w.spaces == map[1 := Holding(Some(f)), 2 := Holding(Some(f))]
    requires g !in w.used && h !in w.used + {g} && g < NFRAMES && h < NFRAMES
    ensures var es := [EScan(1, g), ECommit(1), EScan(2, h), ECommit(2)];
      && Runs(w, es) && Holds(Run(w, es).spaces, PageOf(1, STACK), f) && Holds(Run(w, es).spaces, PageOf(2, STACK), f)
  {
    hide Runs, Run;
    Four(w, EScan(1, g), ECommit(1), EScan(2, h), ECommit(2));
  }

  // ---------- what a task gets from sbrk ----------

  /** Every byte it asked for is on a page whose frame nobody else holds, and what it and every
      other task had stays where it was. */
  lemma SbrkGives(w: World, t: Pid, inc: nat)
    requires Inv(w) && Enabled(w, ESbrk(t, inc)) && inc < 0x8000_0000 && w.spaces[t].brk + inc < MAXBRK
    ensures var a, r := w.spaces[t], Step(w, ESbrk(t, inc));
      && Inv(r) && t in r.spaces && r.spaces[t].brk == a.brk + inc && r.spaces == w.spaces[t := r.spaces[t]]
      && (forall b :: a.brk <= b < a.brk + inc ==> b / 4096 in r.spaces[t].pages)
      && (forall b :: b / 4096 in r.spaces[t].pages ==>
            var f := r.spaces[t].pages[b / 4096];
            f != 0 && f in r.used && f !in r.kernel && forall s :: Holds(r.spaces, s, f) ==> s == PageOf(t, b / 4096))
      && (forall b :: 0 <= b < a.brk && b / 4096 in a.pages ==>
            b / 4096 in r.spaces[t].pages && r.spaces[t].pages[b / 4096] == a.pages[b / 4096])
  {
    hide Inv, Shape, Sbrk, MapRange, FreeRange, RangeFits, Holds;
    var m, r := On(w, t), Step(w, ESbrk(t, inc));
    FreshKeeps(w, ESbrk(t, inc));
    assert Shape(m.sp) && Owners(w) by { ShapeOf(w, t); InvOwners(w); }
    NoZero(w, t);
    WithinBounds(m.sp);
    SbrkMoves(m, inc);
    BytesMapped(r.spaces[t]);
    forall b | 0 <= b < m.sp.brk && b / 4096 in m.sp.pages
      ensures b / 4096 in r.spaces[t].pages && r.spaces[t].pages[b / 4096] == m.sp.pages[b / 4096]
    {
      SbrkPreserves(m, inc, b);
    }
    InvOwners(r);
    forall b | b / 4096 in r.spaces[t].pages ensures var f := r.spaces[t].pages[b / 4096];
      f != 0 && f in r.used && f !in r.kernel && forall s :: Holds(r.spaces, s, f) ==> s == PageOf(t, b / 4096)
    {
      OnlyHolder(r, t, b / 4096);
    }
  }

  lemma InvOwners(w: World)
    requires Inv(w)
    ensures Owners(w)
  {
  }

  lemma OnlyHolder(w: World, t: Pid, p: nat)
    requires Owners(w) && t in w.spaces && p in w.spaces[t].pages
    ensures var f := w.spaces[t].pages[p];
      f != 0 && f in w.used && f !in w.kernel && forall s :: Holds(w.spaces, s, f) ==> s == PageOf(t, p)
  {
    assert Holds(w.spaces, PageOf(t, p), w.spaces[t].pages[p]);
  }

  // ---------- conservation ----------

  /** An exit leaves nothing behind if and only if the break ends under the highest table it
      ever reached, which it does when it ends at its highest. */
  lemma ExitLeaks(w: World, t: Pid)
    requires Inv(w) && t in w.spaces && !Entering(w.spaces[t])
    ensures var sp := w.spaces[t];
      && (Lost(sp) == {} <==> Tb(Pg(sp.peak)) <= Tb(Pg(sp.brk)))
      && (sp.brk == sp.peak ==> Lost(sp) == {})
      && Lost(sp) !! w.leaked
  {
    var sp := w.spaces[t];
    assert Shape(sp);
    if Tb(Pg(sp.peak)) > Tb(Pg(sp.brk)) {
      var p, i := Pg(sp.peak) - 1, Tb(Pg(sp.peak)) - 1;
      assert PROG <= p && p / 1024 == i;
      assert sp.tables[i] in Lost(sp);
    }
    forall f | f in Lost(sp) ensures f !in w.leaked {
      var s := LostSlot(w, t, f);
    }
  }

  /** Every exit of the run ends at its highest page table. */
  predicate ExitsHigh(w: World, es: seq<Event>)
    requires Runs(w, es)
    decreases |es|
  {
    es == [] || ((es[0].EExit? ==> Tb(Pg(w.spaces[es[0].t].peak)) <= Tb(Pg(w.spaces[es[0].t].brk)))
                 && ExitsHigh(Step(w, es[0]), es[1..]))
  }

  lemma {:induction false} LeakGrows(w: World, es: seq<Event>)
    requires Inv(w) && Runs(w, es) && NoneOvertaken(w, es)
    ensures w.leaked <= Run(w, es).leaked && (Run(w, es).leaked == w.leaked <==> ExitsHigh(w, es))
    decreases |es|
  {
    hide Owners, Shape, Lost, Returned;
    if es != [] {
      LeakStays(w, es[0]);
      FreshKeeps(w, es[0]);
      LeakGrows(Step(w, es[0]), es[1..]);
      if es[0].EExit? { ExitLeaks(w, es[0].t); }
    }
  }

  lemma LeakStays(w: World, e: Event)
    requires Owners(w) && Enabled(w, e) && !Overtaken(w, e)
    ensures Step(w, e).leaked == if e.EExit? then w.leaked + Lost(w.spaces[e.t]) else w.leaked
  {
    hide Holds, Lost, Returned, MapRange, FreeRange, RangeFits;
  }

  /** With the same tasks and the same kernel frames, used frames differ by what leaked. */
  lemma SameUsed(w: World, r: World)
    requires Inv(w) && Inv(r) && r.spaces == w.spaces && r.kernel == w.kernel && w.leaked <= r.leaked
    ensures w.used <= r.used && (r.used == w.used <==> r.leaked == w.leaked)
  {
    forall f | f in w.used ensures f in r.used {
      if f !in w.kernel && f !in w.leaked { var s :| Holds(w.spaces, s, f); assert Holds(r.spaces, s, f); }
    }
    forall f | f in r.used && f !in r.leaked ensures f in w.used {
      if f !in r.kernel { var s :| Holds(r.spaces, s, f); assert Holds(w.spaces, s, f); }
    }
    forall f | f in r.leaked && f in w.used ensures f in w.leaked {}
  }

  /** Whatever tasks are started, run and freed in between: once the same tasks are left, the
      used frames, data and page tables alike, are back to what they were if and only if every
      task that exited did so at its highest page table. */
  lemma ConservationIff(w: World, es: seq<Event>)
    requires Inv(w) && Runs(w, es) && NoneOvertaken(w, es)
    requires Run(w, es).spaces == w.spaces && Run(w, es).kernel == w.kernel
    ensures |Run(w, es).used| == |w.used| <==> ExitsHigh(w, es)
    ensures Run(w, es).used == w.used <==> ExitsHigh(w, es)
  {
    hide Owners, Shape, Lost, Returned, Overtaken, Run, Runs, NoneOvertaken, ExitsHigh;
    LeakGrows(w, es);
    InvIff(w, es);
    SameUsed(w, Run(w, es));
    SubsetEqual(w.used, Run(w, es).used);
  }

  // ---------- a run that loses a frame ----------

  /** One frame of it. */
  lemma EntryStep(w: World, t: Pid) returns (f: nat, r: World)
    requires t in w.spaces && Entering(w.spaces[t]) && w.spaces[t].entry.seen.None? && |w.used| < NFRAMES
    ensures var es := [EScan(t, f), ECommit(t)];
      Runs(w, es) && Run(w, es) == r && NoneOvertaken(w, es) && ExitsHigh(w, es)
    ensures t in r.spaces && (Entering(r.spaces[t]) ==> r.spaces[t].entry.seen.None?)
    ensures Work(r.spaces[t].entry) < Work(w.spaces[t].entry) && |r.used| == |w.used| + 1
    ensures EnterAll(On(w, t)) == EnterAll(On(r, t)) && r == Put(w, t, On(r, t)).(leaked := r.leaked)
    ensures w.leaked <= w.used ==> r.leaked == w.leaked && r.leaked <= r.used
  {
    hide Runs, Run, NoneOvertaken, ExitsHigh, Full, Lowest;
    Unfull(w.used);
    AllocFree(w.used);
    f := Alloc(w.used).1;
    r := Step(Step(w, EScan(t, f)), ECommit(t));
    Two(w, EScan(t, f), ECommit(t));
  }

  /** task_entry without interruption, as events. */
  lemma {:induction false} EntryRun(w: World, t: Pid) returns (es: seq<Event>)
    requires t in w.spaces && (Entering(w.spaces[t]) ==> w.spaces[t].entry.seen.None?)
    requires |w.used| + Work(w.spaces[t].entry) <= NFRAMES
    ensures Runs(w, es) && NoneOvertaken(w, es) && ExitsHigh(w, es)
    ensures Run(w, es) == Put(w, t, EnterAll(On(w, t))).(leaked := Run(w, es).leaked)
    ensures w.leaked <= w.used ==> Run(w, es).leaked == w.leaked
    ensures |Run(w, es).used| <= |w.used| + Work(w.spaces[t].entry)
    ensures forall e :: e in es ==> e.EScan? || e.ECommit?
    decreases Work(w.spaces[t].entry)
  {
    hide Runs, Run, NoneOvertaken, ExitsHigh, Committed, Scanned, Lowest;
    if Entering(w.spaces[t]) {
      var f, r := EntryStep(w, t);
      var rest := EntryRun(r, t);
      Concat(w, [EScan(t, f), ECommit(t)], rest);
      es := [EScan(t, f), ECommit(t)] + rest;
      var x := Run(w, es).leaked;
      assert Put(w, t, EnterAll(On(w, t))).(leaked := x) == Put(r, t, EnterAll(On(r, t))).(leaked := x);
    } else {
      es := [];
      Nothing(w);
      assert Put(w, t, On(w, t)) == w;
    }
  }

  lemma Nothing(w: World)
    ensures Runs(w, []) && Run(w, []) == w && NoneOvertaken(w, []) && ExitsHigh(w, [])
  {
  }

  lemma Three(w: World, e: Event, f: Event, g: Event)
    requires Enabled(w, e) && Enabled(Step(w, e), f) && Enabled(Step(Step(w, e), f), g)
    ensures Runs(w, [e, f, g]) && Run(w, [e, f, g]) == Step(Step(Step(w, e), f), g)
    ensures !e.ECommit? && !f.ECommit? && !g.ECommit? && !e.EKernelCommit? && !f.EKernelCommit? && !g.EKernelCommit?
            ==> NoneOvertaken(w, [e, f, g])
  {
    Two(w, e, f);
    One(Step(Step(w, e), f), g);
    Concat(w, [e, f], [g]);
    assert [e, f] + [g] == [e, f, g];
  }

  const MIB4: int := 0x40_0000

  lemma LoadsAndBegins(kernel: set<nat>) returns (r: World)
    requires 0 in kernel && |kernel| + 2 <= NFRAMES
    ensures var w, es := Boot(kernel), [EStart(1), ELoad(1, MINBRK + 1), EEnter(1, 0)];
      && Runs(w, es) && NoneOvertaken(w, es) && r == Run(w, es)
    ensures r.spaces.Keys == {1} && r.spaces[1].entry == At(0, 0, None, None)
    ensures r.spaces[1].brk == MINBRK + 1 && r.spaces[1].peak == MINBRK + 1
    ensures r.kernel == kernel && r.leaked == {} && |r.used| <= |kernel| + 2
  {
    hide Runs, Run, NoneOvertaken, MapRange, RangeFits;
    var w := Boot(kernel);
    var w1 := Step(w, EStart(1));
    var m := On(w1, 1);
    RoomFits(m, MINBRK / 4096, Pg(MINBRK + 1));
    LoadEntry(m, MINBRK + 1);
    var w2 := Step(w1, ELoad(1, MINBRK + 1));
    r := Step(w2, EEnter(1, 0));
    Three(w, EStart(1), ELoad(1, MINBRK + 1), EEnter(1, 0));
  }

  /** The one task moves its break. */
  lemma Moves(w: World, inc: int) returns (r: World)
    requires Inv(w) && w.spaces.Keys == {1} && w.spaces[1].entry.After? && SbrkFits(On(w, 1), inc)
    requires MINBRK <= Moved(w.spaces[1].brk, inc) < MAXBRK
    ensures Enabled(w, ESbrk(1, inc)) && r == Step(w, ESbrk(1, inc)) && Inv(r) && !Overtaken(w, ESbrk(1, inc))
    ensures r.spaces.Keys == {1} && r.spaces[1].entry.After? && r.kernel == w.kernel
    ensures r.spaces[1].brk == Moved(w.spaces[1].brk, inc)
    ensures r.spaces[1].peak == Max(w.spaces[1].peak, r.spaces[1].brk)
  {
    hide MapRange, FreeRange, RangeFits, Inv, Sbrk;
    SbrkEntry(On(w, 1), inc);
    FreshKeeps(w, ESbrk(1, inc));
    r := Step(w, ESbrk(1, inc));
  }

  lemma UpAndDown(w: World) returns (r: World)
    requires Inv(w) && w.spaces.Keys == {1} && w.spaces[1].entry.After? && |w.used| + 2048 <= NFRAMES
    requires w.spaces[1].brk == MINBRK + 1 && w.spaces[1].peak == MINBRK + 1
    ensures var es := [ESbrk(1, MIB4), ESbrk(1, -MIB4), EExit(1)];
      && Runs(w, es) && NoneOvertaken(w, es) && r == Run(w, es)
    ensures r.spaces == map[] && r.kernel == w.kernel && r.leaked != {}
  {
    hide Runs, Run, NoneOvertaken, MapRange, FreeRange, RangeFits, Inv, Lost, Returned, Sbrk, Owners, Shape;
    RoomFits(On(w, 1), Pg(MINBRK + 1), Pg(MINBRK + 1 + MIB4));
    var w1 := Moves(w, MIB4);
    var w2 := Moves(w1, -MIB4);
    ExitLeaks(w2, 1);
    r := Step(w2, EExit(1));
    Three(w, ESbrk(1, MIB4), ESbrk(1, -MIB4), EExit(1));
  }

  /** A task loads a byte, enters, moves its break 4 MiB up and back down, and exits: then the
      page table above its break stays in use for good. */
  lemma LosesATable(kernel: set<nat>) returns (es: seq<Event>, entry: seq<Event>)
    requires 0 in kernel && |kernel| + 4096 <= NFRAMES
    ensures es == [EStart(1), ELoad(1, MINBRK + 1), EEnter(1, 0)] + entry + [ESbrk(1, MIB4), ESbrk(1, -MIB4), EExit(1)]
    ensures forall e :: e in entry ==> e.EScan? || e.ECommit?
    ensures Runs(Boot(kernel), es) && NoneOvertaken(Boot(kernel), es)
    ensures var r := Run(Boot(kernel), es);
      r.spaces == map[] && r.kernel == kernel && r.leaked != {} && |r.used| > |kernel|
  {
    hide Runs, Run, NoneOvertaken, NoneDoubled, AlwaysInv, AlwaysUnshared, ExitsHigh, Inv, Shape, EnterAll, Enabled;
    var w := Boot(kernel);
    BootInv(kernel);
    var first := [EStart(1), ELoad(1, MINBRK + 1), EEnter(1, 0)];
    var last := [ESbrk(1, MIB4), ESbrk(1, -MIB4), EExit(1)];
    var w3 := LoadsAndBegins(kernel);
    InvIff(w, first);
    entry := EntryRun(w3, 1);
    var w4 := Run(w3, entry);
    InvIff(w3, entry);
    assert Shape(w3.spaces[1]) by { ShapeOf(w3, 1); }
    EnterMaps(On(w3, 1), 0, 0, None);
    var r := UpAndDown(w4);
    InvIff(w4, last);
    Concat(w3, entry, last);
    Concat(w, first, entry + last);
    es := first + entry + last;
    assert es == first + (entry + last);
    MoreUsed(w, r);
  }

  lemma ShapeOf(w: World, t: Pid)
    requires Inv(w) && t in w.spaces
    ensures Shape(w.spaces[t])
  {
  }

  lemma MoreUsed(w: World, r: World)
    requires Inv(w) && Inv(r) && r.spaces == w.spaces && r.kernel == w.kernel && w.leaked == {} && r.leaked != {}
    ensures |r.used| > |w.used|
  {
    SameUsed(w, r);
    SubsetEqual(w.used, r.used);
    SubsetSize(w.used, r.used);
  }
}
