/**
 * What the owners of FrameRuns mean for the tasks that are not terminated, those included that
 * have freed their frames and still map them: nobody shares a frame, and exactly when.
 */
module FrameIsolation {
  import opened Util
  import opened FrameSpec
  import opened FrameRuns
  import opened FrameTheorems

  // ---------- between an exit and the end of the task ----------

  /** A task that has freed its frames still maps one that is in use again. */
  ghost predicate Exposed(w: World) {
    exists t, f :: t in w.dying && f in Returned(w.dying[t]) && f in w.used
  }

  /** The event takes a frame that such a task still maps, and goes on mapping. */
  ghost predicate Retakes(w: World, e: Event)
    requires Enabled(w, e)
  {
    var r := Step(w, e);
    exists t, f :: t in w.dying && t in r.dying && f in Returned(w.dying[t]) && f !in w.used && f in r.used
  }

  /** Nothing else exposes a task: an exit gives back whatever its task maps. */
  lemma ExposedStep(w: World, e: Event)
    requires Enabled(w, e) && !Exposed(w)
    ensures Exposed(Step(w, e)) <==> Retakes(w, e)
  {
    hide Returned, Lost, MapRange, FreeRange, RangeFits;
    var r := Step(w, e);
    if Exposed(r) {
      var t, f :| t in r.dying && f in Returned(r.dying[t]) && f in r.used;
      assert t in w.dying && r.dying[t] == w.dying[t];
    }
    if Retakes(w, e) {
      var t, f :| t in w.dying && t in r.dying && f in Returned(w.dying[t]) && f !in w.used && f in r.used;
      assert r.dying[t] == w.dying[t];
    }
  }

  ghost predicate EverExposed(w: World, es: seq<Event>)
    requires Runs(w, es)
    decreases |es|
  {
    Exposed(w) || (es != [] && EverExposed(Step(w, es[0]), es[1..]))
  }

  ghost predicate EverRetakes(w: World, es: seq<Event>)
    requires Runs(w, es)
    decreases |es|
  {
    es != [] && (Retakes(w, es[0]) || EverRetakes(Step(w, es[0]), es[1..]))
  }

  /** In any run, a frame is seen through a task that has freed it if and only if some event
      takes it before that task gives up the CPU. */
  lemma {:induction false} ExposedIff(w: World, es: seq<Event>)
    requires Runs(w, es) && !Exposed(w)
    ensures EverExposed(w, es) <==> EverRetakes(w, es)
    decreases |es|
  {
    hide Exposed, Retakes, Step, Enabled;
    if es != [] {
      ExposedStep(w, es[0]);
      if !Retakes(w, es[0]) { ExposedIff(Step(w, es[0]), es[1..]); }
    }
  }

  // ---------- isolation of every task that is not terminated ----------

  /** All tasks that are not terminated. */
  function Everyone(w: World): map<Pid, Space> { w.spaces + w.dying }

  /** What is left of a task that has freed its frames. */
  ghost predicate Spent(w: World, sp: Space) {
    && Shape(sp) && !Entering(sp) && Lost(sp) <= w.leaked
    && (forall p :: p in sp.pages ==> sp.pages[p] != 0) && (forall i :: i in sp.tables ==> sp.tables[i] != 0)
  }

  /** Each frame has at most one holder among them, and none is the kernel's too. */
  ghost predicate Apart(w: World) {
    && Inv(w) && w.spaces.Keys !! w.dying.Keys
    && (forall t :: t in w.dying ==> Spent(w, w.dying[t]))
    && (forall s, f :: Holds(w.dying, s, f) ==> f !in w.kernel && !InSlot(w.spaces, f))
    && (forall s, r, f :: Holds(w.dying, s, f) && Holds(w.dying, r, f) ==> s == r)
  }

  /** No frame backs two user pages, of one task or of two; none is both a page and a page table;
      none belongs to the kernel, which was given none twice; and the bit of each is set until its
      task has freed it. */
  ghost predicate Isolation(w: World) {
    && |w.kernel| == w.nkernel
    && (forall s, f :: Holds(Everyone(w), s, f) ==>
          f !in w.kernel && f != 0 && (s.t in w.spaces && s.t !in w.dying ==> f in w.used && f !in w.leaked))
    && (forall s, r, f :: Holds(Everyone(w), s, f) && Holds(Everyone(w), r, f) ==> s == r)
  }

  lemma Isolated(w: World)
    requires Apart(w)
    ensures Isolation(w)
  {
    forall s, f | Holds(Everyone(w), s, f)
      ensures f !in w.kernel && f != 0 && (s.t in w.spaces ==> f in w.used && f !in w.leaked)
    {
      EitherHolds(w, s, f);
    }
    forall s, r, f | Holds(Everyone(w), s, f) && Holds(Everyone(w), r, f) ensures s == r {
      EitherHolds(w, s, f);
      EitherHolds(w, r, f);
    }
  }

  lemma EitherHolds(w: World, s: Slot, f: nat)
    requires w.spaces.Keys !! w.dying.Keys && Holds(Everyone(w), s, f)
    ensures if s.t in w.spaces then Holds(w.spaces, s, f) else Holds(w.dying, s, f)
  {
  }

  lemma BootApart(kernel: set<nat>)
    requires 0 in kernel
    ensures Apart(Boot(kernel))
  {
    BootInv(kernel);
  }

  /** A frame that a spent task holds was given back or is leaked. */
  lemma SpentHolds(w: World, s: Slot, f: nat)
    requires Holds(w.dying, s, f) && Spent(w, w.dying[s.t])
    ensures f in Returned(w.dying[s.t]) || f in w.leaked
    ensures f != 0
  {
    GivenOrLost(w.dying[s.t], s, f);
  }

  lemma ReturnedHeld(ss: map<Pid, Space>, t: Pid, f: nat) returns (s: Slot)
    requires t in ss && f in Returned(ss[t])
    ensures Holds(ss, s, f) && s.t == t
  {
    BackOrLost(ss[t], f);
    if p :| p in ss[t].pages && ss[t].pages[p] == f { s := PageOf(t, p); }
    else { var i :| i in ss[t].tables && ss[t].tables[i] == f; s := TableOf(t, i); }
  }

  // ---------- what harms it ----------

  /** The frames an event takes: a store sets its bit whatever the bit is by then. */
  function Takes(w: World, e: Event): set<nat>
    requires Enabled(w, e)
  {
    match e
    case ECommit(t) => {w.spaces[t].entry.seen.value}
    case EKernelCommit(i) => {w.pending[i]}
    case _ => Step(w, e).used - w.used
  }

  /** The event takes a frame of the kernel or of a task that is not terminated, the page tables
      that a task in the middle of its exit leaves behind included. */
  ghost predicate Harmful(w: World, e: Event)
    requires Enabled(w, e)
  {
    exists f :: f in Takes(w, e) && (f in w.kernel || InSlot(Everyone(w), f))
  }

  lemma SlotOf(w: World, f: nat)
    requires w.spaces.Keys !! w.dying.Keys
    ensures InSlot(Everyone(w), f) <==> InSlot(w.spaces, f) || InSlot(w.dying, f)
  {
    if s :| Holds(w.spaces, s, f) { assert Holds(Everyone(w), s, f); }
    if s :| Holds(w.dying, s, f) { assert Holds(Everyone(w), s, f); }
    if s :| Holds(Everyone(w), s, f) { EitherHolds(w, s, f); }
  }

  /** An event that is no store takes frames that are free. */
  lemma TakesFree(w: World, e: Event)
    requires Owners(w) && Enabled(w, e) && !e.ECommit? && !e.EKernelCommit?
    ensures Takes(w, e) !! w.used && !Doubles(w, e)
    ensures forall f :: f in Takes(w, e) ==> f !in w.kernel && !InSlot(w.spaces, f)
  {
    hide MapRange, FreeRange, RangeFits, Lost, Returned;
    forall f | f in Takes(w, e) ensures f !in w.kernel && !InSlot(w.spaces, f) { UsedIs(w, f); }
  }

  /** A store harms a task that has not freed its frames, or the kernel, exactly when it doubles. */
  lemma HarmIs(w: World, e: Event)
    requires Apart(w) && Enabled(w, e)
    ensures Harmful(w, e) <==> Doubles(w, e) || exists f :: f in Takes(w, e) && InSlot(w.dying, f)
  {
    hide Apart, Owners, Holds, InSlot;
    ApartInv(w);
    if !e.ECommit? && !e.EKernelCommit? { TakesFree(w, e); }
    forall f ensures InSlot(Everyone(w), f) <==> InSlot(w.spaces, f) || InSlot(w.dying, f) { SlotOf(w, f); }
  }

  /** After any other event the frames it took are held. */
  lemma StillApart(w: World, e: Event)
    requires w.spaces.Keys !! w.dying.Keys && Enabled(w, e) && !e.EExit? && !e.EGone?
    requires w.leaked <= w.used
    ensures var r := Step(w, e);
      && r.dying == w.dying && r.leaked == w.leaked - Takes(w, e) && r.spaces.Keys !! r.dying.Keys
      && Takes(w, e) <= r.used <= w.used + Takes(w, e)
  {
    hide MapRange, FreeRange, RangeFits;
  }

  lemma StaysApart(w: World, r: World, took: set<nat>)
    requires Apart(w) && Inv(r) && r.dying == w.dying && r.leaked == w.leaked - took
    requires r.spaces.Keys !! r.dying.Keys && took <= r.used <= w.used + took
    ensures (exists f :: f in took && InSlot(w.dying, f)) ==> !Isolation(r)
    ensures !(exists f :: f in took && InSlot(w.dying, f)) ==> Apart(r)
  {
    if f :| f in took && InSlot(w.dying, f) {
      TakenFromDying(w, r, f);
    } else {
      forall t | t in r.dying ensures Spent(r, r.dying[t]) {
        forall f | f in Lost(r.dying[t]) ensures f in r.leaked { LostHeld(w, t, f); }
      }
      forall s, f | Holds(r.dying, s, f) ensures f !in r.kernel && !InSlot(r.spaces, f) {
        assert InSlot(w.dying, f);
        UsedIs(w, f);
        UsedIs(r, f);
      }
    }
  }

  lemma LostHeld(w: World, t: Pid, f: nat)
    requires t in w.dying && f in Lost(w.dying[t])
    ensures InSlot(w.dying, f)
  {
    var i :| i in w.dying[t].tables && w.dying[t].tables[i] == f;
    assert Holds(w.dying, TableOf(t, i), f);
  }

  lemma TakenFromDying(w: World, r: World, f: nat)
    requires Owners(r) && r.dying == w.dying && r.spaces.Keys !! r.dying.Keys
    requires InSlot(w.dying, f) && f in r.used && f !in r.leaked
    ensures !Isolation(r)
  {
    hide Owners;
    var s :| Holds(r.dying, s, f);
    assert Holds(Everyone(r), s, f);
    UsedIs(r, f);
    if f !in r.kernel {
      var q :| Holds(r.spaces, q, f);
      assert Holds(Everyone(r), q, f) && q.t != s.t;
    }
  }

  /** Who shares among the tasks that have not freed their frames shares among all. */
  lemma SharedIsShared(w: World)
    requires w.spaces.Keys !! w.dying.Keys && !Unshared(w)
    ensures !Isolation(w)
  {
    if |w.kernel| == w.nkernel {
      if s, f :| Holds(w.spaces, s, f) && f in w.kernel {
        assert Holds(Everyone(w), s, f);
      } else {
        var s, r, f :| Holds(w.spaces, s, f) && Holds(w.spaces, r, f) && s != r;
        assert Holds(Everyone(w), s, f) && Holds(Everyone(w), r, f);
      }
    }
  }

  lemma ExitStaysApart(w: World, t: Pid)
    requires Apart(w) && Enabled(w, EExit(t)) && Inv(Step(w, EExit(t)))
    ensures Apart(Step(w, EExit(t)))
  {
    hide Shape;
    var sp, r := w.spaces[t], Step(w, EExit(t));
    NoZero(w, t);
    assert r.dying == w.dying[t := sp] && r.spaces == w.spaces - {t};
    assert Shape(sp) by { ShapeOf(w, t); }
    forall u | u in r.dying ensures Spent(r, r.dying[u]) {}
    forall s, f | Holds(r.dying, s, f) ensures f !in r.kernel && !InSlot(r.spaces, f) {
      DiesOrDied(w, t, s, f);
      LessUsed(w, t, s, f);
    }
    forall s, q, f | Holds(r.dying, s, f) && Holds(r.dying, q, f) ensures s == q {
      DiesOrDied(w, t, s, f);
      DiesOrDied(w, t, q, f);
    }
  }

  lemma DiesOrDied(w: World, t: Pid, s: Slot, f: nat)
    requires t in w.spaces && t !in w.dying && Holds(w.dying[t := w.spaces[t]], s, f)
    ensures if s.t == t then Holds(w.spaces, s, f) else Holds(w.dying, s, f)
  {
  }

  /** Whoever still holds `f` after the exit held it before, in another slot. */
  lemma LessUsed(w: World, t: Pid, s: Slot, f: nat)
    requires Apart(w) && t in w.spaces && (if s.t == t then Holds(w.spaces, s, f) else Holds(w.dying, s, f))
    ensures f !in w.kernel && !exists q :: Holds(w.spaces - {t}, q, f)
  {
    forall q | Holds(w.spaces - {t}, q, f) ensures false {
      assert Holds(w.spaces, q, f);
    }
  }

  /** A step leaves the tasks apart if it takes nobody's frame, and otherwise two share one. */
  lemma ApartStep(w: World, e: Event)
    requires Apart(w) && Enabled(w, e)
    ensures !Harmful(w, e) ==> Apart(Step(w, e))
    ensures Harmful(w, e) ==> !Isolation(Step(w, e))
  {
    hide Inv, Spent, InSlot, Holds, Returned, Lost, MapRange, FreeRange, RangeFits, Doubles, Isolation, Apart, Step;
    ApartInv(w);
    HarmIs(w, e);
    if Doubles(w, e) {
      DoublesApart(w, e);
    } else {
      StepKeeps(w, e);
      match e
      case EExit(t) => ExitStaysApart(w, t); ExitTakes(w, e);
      case EGone(t) => GoneStaysApart(w, t); ExitTakes(w, e);
      case _ =>
        StillApart(w, e);
        StaysApart(w, Step(w, e), Takes(w, e));
    }
  }

  lemma ExitTakes(w: World, e: Event)
    requires Enabled(w, e) && (e.EExit? || e.EGone?)
    ensures Takes(w, e) == {}
  {
  }

  lemma DoublesApart(w: World, e: Event)
    requires Apart(w) && Enabled(w, e) && Doubles(w, e)
    ensures !Isolation(Step(w, e))
  {
    hide Inv, Spent, InSlot, Holds, Returned, Lost, Isolation, Unshared;
    ApartInv(w);
    DoublesShares(w, e);
    StillApart(w, e);
    SharedIsShared(Step(w, e));
  }

  lemma GoneStaysApart(w: World, t: Pid)
    requires Apart(w) && Enabled(w, EGone(t)) && Inv(Step(w, EGone(t)))
    ensures Apart(Step(w, EGone(t)))
  {
    hide Shape;
    var r := Step(w, EGone(t));
    forall s, f | Holds(r.dying, s, f) ensures Holds(w.dying, s, f) {}
    assert r.spaces == w.spaces && r.leaked == w.leaked && r.kernel == w.kernel;
  }

  ghost predicate AlwaysIsolated(w: World, es: seq<Event>)
    requires Runs(w, es)
    decreases |es|
  {
    Isolation(w) && (es == [] || AlwaysIsolated(Step(w, es[0]), es[1..]))
  }

  ghost predicate NeverHarmful(w: World, es: seq<Event>)
    requires Runs(w, es)
    decreases |es|
  {
    es == [] || (!Harmful(w, es[0]) && NeverHarmful(Step(w, es[0]), es[1..]))
  }

  /** Through every interleaving no task that is not terminated shares a frame with another, or
      with the kernel, if and only if no event takes a frame that one of them holds by then. As
      long as no allocation is overtaken, only tasks in the middle of their exits can be met. */
  lemma {:induction false} IsolationIff(w: World, es: seq<Event>)
    requires Apart(w) && Runs(w, es)
    ensures AlwaysIsolated(w, es) <==> NeverHarmful(w, es)
    ensures NeverHarmful(w, es) ==> Apart(Run(w, es))
    ensures NoneOvertaken(w, es) ==> (NeverHarmful(w, es) <==> !EverRetakes(w, es))
    decreases |es|
  {
    hide Apart, Isolation, Harmful, Retakes, Overtaken, Step, Enabled;
    Isolated(w);
    if es != [] {
      ApartStep(w, es[0]);
      if !Overtaken(w, es[0]) { HarmRetakes(w, es[0]); }
      if !Harmful(w, es[0]) { IsolationIff(Step(w, es[0]), es[1..]); }
    }
  }

  /** An allocation that is not overtaken harms only a task in the middle of its exit. */
  lemma HarmRetakes(w: World, e: Event)
    requires Apart(w) && Enabled(w, e) && !Overtaken(w, e)
    ensures Harmful(w, e) <==> Retakes(w, e)
  {
    hide Inv, Apart, Holds, Returned, Lost, MapRange, FreeRange, RangeFits, Harmful;
    var r := Step(w, e);
    ApartInv(w);
    HarmIs(w, e);
    FreshKeeps(w, e);
    if Retakes(w, e) {
      var t, f :| t in w.dying && t in r.dying && f in Returned(w.dying[t]) && f !in w.used && f in r.used;
      var s := ReturnedHeld(w.dying, t, f);
      assert f in Takes(w, e) && InSlot(w.dying, f);
    }
    if f :| f in Takes(w, e) && InSlot(w.dying, f) {
      var t := FreeOfDying(w, f);
      assert t in r.dying && f in r.used;
    }
  }

  lemma FreeOfDying(w: World, f: nat) returns (t: Pid)
    requires Apart(w) && f !in w.used && InSlot(w.dying, f)
    ensures t in w.dying && f in Returned(w.dying[t])
  {
    var s :| Holds(w.dying, s, f);
    t := s.t;
    SpentHolds(w, s, f);
  }

  /** One that is overtaken harms nobody if the frame has leaked meanwhile and its last holder is
      gone: then the late store makes it the frame of one task again. */
  lemma LateStore(w: World, t: Pid)
    requires Apart(w) && Enabled(w, ECommit(t))
    requires var f := w.spaces[t].entry.seen.value; f in w.leaked && !InSlot(w.dying, f)
    ensures Overtaken(w, ECommit(t)) && !Harmful(w, ECommit(t)) && Apart(Step(w, ECommit(t)))
  {
    hide Apart, Owners, Inv, Harmful;
    ApartInv(w);
    DoublesWhen(w, ECommit(t));
    HarmIs(w, ECommit(t));
    ApartStep(w, ECommit(t));
  }

  lemma ApartInv(w: World)
    requires Apart(w)
    ensures Inv(w) && Owners(w) && w.spaces.Keys !! w.dying.Keys && w.leaked <= w.used
  {
  }

  // ---------- when nothing comes between, and when something does ----------

  /** Every task_free is followed at once by the final task_block. */
  predicate GoneAtOnce(es: seq<Event>)
    decreases |es|
  {
    if es == [] then true
    else if es[0].EExit? then |es| > 1 && es[1] == EGone(es[0].t) && GoneAtOnce(es[2..])
    else GoneAtOnce(es[1..])
  }

  /** No frame is seen through a dead task if nothing comes between the two calls. */
  lemma {:induction false} NeverExposed(w: World, es: seq<Event>)
    requires w.dying == map[] && Runs(w, es) && GoneAtOnce(es)
    ensures !EverExposed(w, es)
    decreases |es|
  {
    if es == [] {
    } else if es[0].EExit? {
      var w1 := Step(w, es[0]);
      assert es[1..][0] == es[1] && es[1..][1..] == es[2..];
      var w2 := Step(w1, es[1]);
      assert w1.dying.Keys == {es[0].t};
      assert w2.dying == map[];
      NeverExposed(w2, es[2..]);
    } else {
      NeverExposed(Step(w, es[0]), es[1..]);
    }
  }

  /** Otherwise any page of the dead task can be met by a task that is entering: it may take the
      frame while the dead task still maps it, until that task gives up the CPU. */
  lemma ExitExposes(w: World, t: Pid, p: nat, u: Pid)
    requires Inv(w) && Enabled(w, EExit(t)) && p in w.spaces[t].pages
    requires u in w.spaces && u != t && Entering(w.spaces[u]) && w.spaces[u].entry.seen.None? && t !in w.dying
    requires w.spaces[t].pages[p] < NFRAMES
    ensures var f, es := w.spaces[t].pages[p], [EExit(t), EScan(u, w.spaces[t].pages[p]), ECommit(u)];
      && Runs(w, es) && NoneOvertaken(w, es)
      && var r := Run(w, es);
      && r.dying == w.dying[t := w.spaces[t]] && Exposed(r)
      && (exists s: Slot :: s.t == u && Holds(r.spaces, s, f))
      && Enabled(r, EGone(t)) && t !in Step(r, EGone(t)).dying
  {
    hide Runs, Run, NoneOvertaken, NoneDoubled, Inv, Exposed, ExitsHigh, Doubles, Returned, Lost;
    var f := w.spaces[t].pages[p];
    var w1 := Step(w, EExit(t));
    assert f in Returned(w.spaces[t]) by { PageReturned(w, t, p); }
    One(w, EExit(t));
    Two(w1, EScan(u, f), ECommit(u));
    Concat(w, [EExit(t)], [EScan(u, f), ECommit(u)]);
    assert [EExit(t)] + [EScan(u, f), ECommit(u)] == [EExit(t), EScan(u, f), ECommit(u)];
    var r := Step(Step(w1, EScan(u, f)), ECommit(u));
    assert Holds(r.spaces, Filled(w1.spaces[u], u), f);
    assert Exposed(r) by { Exposes(r, t, f); }
  }

  lemma Exposes(w: World, t: Pid, f: nat)
    requires t in w.dying && f in Returned(w.dying[t]) && f in w.used
    ensures Exposed(w)
  {
  }

  lemma PageReturned(w: World, t: Pid, p: nat)
    requires Inv(w) && t in w.spaces && p in w.spaces[t].pages
    ensures w.spaces[t].pages[p] in Returned(w.spaces[t])
  {
    NoZero(w, t);
    assert Shape(w.spaces[t]);
  }
}
