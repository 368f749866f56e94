/**
 * What the timed calls and the time slice promise, said of the argument of the call and of the
 * clock: a task that asks to sleep until `T` sleeps through every tick before `T` and no other,
 * a waiter's deadline is the clock at the call plus its timeout, and a running task keeps the
 * CPU for its slice.
 */
module TaskCalls {
  import opened Util
  import opened TaskSpec
  import opened TaskOwners
  import opened TaskRuns
  import opened TaskTheorems

  // ---------- what an event does to a task that does not act ----------

  /** At most the CPU was taken or given. */
  predicate Kept(c: Tcb, d: Tcb) {
    && (d == c || (c.state in {READY, RUNNING} && d.state in {READY, RUNNING}))
    && d.waketime == c.waketime && d.pwait == c.pwait && d.wstatus == c.wstatus && d.res == c.res
  }

  /** Nothing but ticks, its own calls, a poke and task_cleanup ever touches more of a task. */
  lemma OthersKept(w: World, e: Event, t: Pid)
    requires Shape(w) && Enabled(w, e) && !e.ETick? && e != EPoke(t)
    requires t in w.pc && t != w.sys.active && w.sys.tcb[t].state != TERMINATED
    ensures var r := Step(w, e);
      t in r.sys.tcb && t in r.pc && Kept(w.sys.tcb[t], r.sys.tcb[t]) && r.pc[t] == w.pc[t]
  {
    hide WF, Settled, PcOk, Block, Tick, Cleanup;
    ActiveRuns(w);
    if e.EYield? { YieldKept(w, t); }
    else if e.ECleanup? { CleanKept(w, t); }
  }

  lemma CleanKept(w: World, t: Pid)
    requires Shape(w) && Enabled(w, ECleanup) && t in w.pc && w.sys.tcb[t].state != TERMINATED
    ensures var r := Step(w, ECleanup);
      t in r.sys.tcb && t in r.pc && r.sys.tcb[t] == w.sys.tcb[t] && r.pc[t] == w.pc[t]
  {
    CleanupRemoves(w.sys);
  }

  lemma YieldKept(w: World, t: Pid)
    requires Shape(w) && Enabled(w, EYield) && t in w.pc && t != w.sys.active
    ensures var r := Step(w, EYield);
      t in r.sys.tcb && t in r.pc && Kept(w.sys.tcb[t], r.sys.tcb[t]) && r.pc[t] == w.pc[t]
  {
    hide PcOk;
    YieldStep(w, w.sys.tcb[w.sys.active].(resume := InBlock), Reason(Me(w)));
    assert w.sys.tcb[w.sys.q[READY][0]].state == READY;
  }

  lemma TickKept(w: World, busy: set<nat>, t: Pid)
    requires Shape(w) && Enabled(w, ETick(busy)) && t in w.pc
    ensures var r, c := Step(w, ETick(busy)), w.sys.tcb[t];
      t in r.sys.tcb && r.pc == w.pc
      && (c.state in {READY, RUNNING} || r.sys.tcb[t].state == c.state ==> Kept(c, r.sys.tcb[t]))
  {
    TickAt(w, busy, t);
  }

  // ---------- sleeping ----------

  /** `a` asked to sleep until `T`, and does or is about to. */
  ghost predicate Naps(w: World, a: Pid, T: nat) {
    && a in w.pc && a in w.sys.tcb && w.sys.tcb[a].waketime == T
    && (w.pc[a] == ToSleep || (w.pc[a] == User && w.sys.tcb[a].state == SLEEPING))
  }

  function ClockAfterTick(w: World): nat { (w.sys.now + TICK_NS) % CLOCK_MOD }

  /** A tick finds it asleep and the clock at its time. */
  predicate Wakes(w: World, e: Event, a: Pid, T: nat)
    requires a in w.sys.tcb
  {
    e.ETick? && w.sys.tcb[a].state == SLEEPING && ClockAfterTick(w) >= T
  }

  /** Every other task is as it was. */
  ghost predicate OthersSame(w: World, r: World, a: Pid) {
    && r.sys.tcb.Keys == w.sys.tcb.Keys && r.sys.now == w.sys.now && r.sys.held == w.sys.held
    && (forall t :: t in w.sys.tcb && t != a ==> r.sys.tcb[t] == w.sys.tcb[t])
    && (forall t :: t in w.pc && t != a ==> t in r.pc && r.pc[t] == w.pc[t])
  }

  /** task_nano_sleep_until: a time before the clock changes nothing; any other is recorded, and
      then the caller is queued with it, while every other task is left as it was. */
  lemma SleepRecords(w: World, T: nat)
    requires Shape(w) && Enabled(w, ESleep(T))
    ensures var a, r := w.sys.active, Step(w, ESleep(T));
      && (T < w.sys.now ==> r == w)
      && (T >= w.sys.now ==> OthersSame(w, r, a) && r.sys.active == a && Naps(r, a, T) && r.pc[a] == ToSleep)
  {
    hide PcOk, WF;
    ActiveRuns(w);
  }

  /** The block of a sleeper queues it with its time; the task that takes the CPU is the only other
      one that changes, by that alone. */
  lemma SleepQueues(w: World, T: nat)
    requires Shape(w) && Naps(w, w.sys.active, T) && Enabled(w, EYield)
    ensures var a, r := w.sys.active, Step(w, EYield);
      && Naps(r, a, T) && r.sys.tcb[a].state == SLEEPING && r.sys.q[SLEEPING] == w.sys.q[SLEEPING] + [a]
      && r.sys.active != a && r.sys.now == w.sys.now
      && (forall t :: t in w.sys.tcb && t != a ==> t in r.sys.tcb && Kept(w.sys.tcb[t], r.sys.tcb[t]))
      && (forall t :: t in w.sys.tcb && t != a && t != r.sys.active ==> r.sys.tcb[t] == w.sys.tcb[t])
  {
    hide PcOk, WF, Settled;
    ActiveRuns(w);
    var a, c := w.sys.active, w.sys.tcb[w.sys.active].(resume := InBlock);
    PcSleeps(a, w.sys.tcb[a], w.pc[a]);
    YieldStep(w, c, SLEEPING);
    YieldHead(w);
  }

  lemma PcSleeps(t: Pid, c: Tcb, pc: Pc)
    requires PcOk(t, c, pc)
    ensures pc == ToSleep ==> c.state in {READY, RUNNING}
    ensures pc.ToWait? ==> c.state in {READY, RUNNING}
    ensures c.state == SLEEPING ==> pc == User
    ensures c.state == PWAIT ==> pc.Waiting? || pc == Late
  {
  }

  /** Whatever happens, it goes on sleeping, with its time, until such a tick, which makes it
      ready. Only a poke shortens it. */
  lemma StepNaps(w: World, e: Event, a: Pid, T: nat)
    requires Shape(w) && Enabled(w, e) && Naps(w, a, T) && e != EPoke(a)
    ensures a in Step(w, e).sys.tcb && a in Step(w, e).pc
    ensures if Wakes(w, e, a, T) then Step(w, e).sys.tcb[a].state in {READY, RUNNING} && !Naps(Step(w, e), a, T)
            else Naps(Step(w, e), a, T)
  {
    hide Step, WF;
    PcSleeps(a, w.sys.tcb[a], w.pc[a]);
    if e.ETick? {
      TickKept(w, e.busy, a);
      TimersExact(w, e.busy, a);
      TickSleeper(w, e.busy, a);
    } else if a == w.sys.active {
      ActiveRuns(w);
      NapActs(w, e, T);
    } else {
      OthersKept(w, e, a);
    }
  }

  lemma TickSleeper(w: World, busy: set<nat>, t: Pid)
    requires Shape(w) && Enabled(w, ETick(busy)) && t in w.pc
    ensures var r, c := Step(w, ETick(busy)).sys, w.sys.tcb[t];
      t in r.tcb && (c.state in {SLEEPING, PWAIT} && r.tcb[t].state != c.state ==> r.tcb[t].state in {READY, RUNNING})
  {
    TickAt(w, busy, t);
  }

  lemma NapActs(w: World, e: Event, T: nat)
    requires Shape(w) && Enabled(w, e) && Naps(w, w.sys.active, T) && w.pc[w.sys.active] == ToSleep && !e.ETick?
    ensures Naps(Step(w, e), w.sys.active, T)
  {
    hide WF, Cleanup, Block, Tick;
    var a := w.sys.active;
    ActiveRuns(w);
    assert PcOk(a, w.sys.tcb[a], w.pc[a]);
    if e.EYield? { SleepQueues(w, T); }
  }

  ghost predicate AlwaysNaps(w: World, es: seq<Event>, a: Pid, T: nat)
    requires Inv(w) && Runs(w, es)
    decreases |es|
  {
    Naps(w, a, T) && (es == [] || (StepKeeps(w, es[0]); AlwaysNaps(Step(w, es[0]), es[1..], a, T)))
  }

  ghost predicate NeverWakes(w: World, es: seq<Event>, a: Pid, T: nat)
    requires Inv(w) && Runs(w, es)
    decreases |es|
  {
    && a in w.sys.tcb
    && (es == []
        || (!Wakes(w, es[0], a, T) && (StepKeeps(w, es[0]); NeverWakes(Step(w, es[0]), es[1..], a, T))))
  }

  /** Over every run without a poke: it sleeps, or is about to, up to exactly the first tick that
      finds it queued with the clock at its time or past it. */
  lemma {:induction false} SleepIff(w: World, es: seq<Event>, a: Pid, T: nat)
    requires Inv(w) && Runs(w, es) && Naps(w, a, T) && EPoke(a) !in es
    ensures AlwaysNaps(w, es, a, T) <==> NeverWakes(w, es, a, T)
    ensures NeverWakes(w, es, a, T) ==> Naps(Run(w, es), a, T)
    decreases |es|
  {
    hide Inv, Step, Naps, Wakes, Enabled;
    InNap(w, a, T);
    ShapeOf(w);
    if es != [] {
      var r := Step(w, es[0]);
      StepKeeps(w, es[0]);
      StepNaps(w, es[0], a, T);
      if !Wakes(w, es[0], a, T) { SleepIff(r, es[1..], a, T); }
    }
  }

  lemma ShapeOf(w: World)
    requires Inv(w)
    ensures Shape(w)
  {
  }

  lemma InNap(w: World, a: Pid, T: nat)
    requires Naps(w, a, T)
    ensures a in w.sys.tcb
  {
  }

  /** A queued sleeper wakes once enough ticks have been delivered for the clock to pass its time. */
  lemma {:induction false} WakesInTime(w: World, es: seq<Event>, a: Pid, T: nat)
    requires Inv(w) && Runs(w, es) && Naps(w, a, T) && w.sys.tcb[a].state == SLEEPING && EPoke(a) !in es
    requires Ticks(es) >= 1 && T <= w.sys.now + Ticks(es) * TICK_NS < CLOCK_MOD
    ensures !NeverWakes(w, es, a, T)
    decreases |es|
  {
    hide Inv, Naps, Step, Enabled, Wakes;
    ShapeOf(w);
    InNap(w, a, T);
    StepKeeps(w, es[0]);
    SleepGoesOn(w, es[0], a, T);
    if !Wakes(w, es[0], a, T) { WakesInTime(Step(w, es[0]), es[1..], a, T); }
  }

  lemma SleepGoesOn(w: World, e: Event, a: Pid, T: nat)
    requires Shape(w) && Enabled(w, e) && Naps(w, a, T) && w.sys.tcb[a].state == SLEEPING && e != EPoke(a)
    requires w.sys.now + (if e.ETick? then TICK_NS else 0) < CLOCK_MOD
    ensures var r := Step(w, e);
      && (!Wakes(w, e, a, T) ==> Naps(r, a, T) && a in r.sys.tcb && r.sys.tcb[a].state == SLEEPING)
      && r.sys.now == w.sys.now + (if e.ETick? then TICK_NS else 0)
      && (!Wakes(w, e, a, T) && e.ETick? ==> r.sys.now < T)
  {
    hide Shape, Step, Enabled;
    StepNaps(w, e, a, T);
    ClockTicks(w, e);
    if !Wakes(w, e, a, T) { StaysAsleep(w, e, a, T); }
  }

  lemma ClockTicks(w: World, e: Event)
    requires Shape(w) && Enabled(w, e)
    ensures Step(w, e).sys.now == if e.ETick? then ClockAfterTick(w) else w.sys.now
  {
    hide WF, Settled, PcOk, Tick, Cleanup, Block, NewTask;
    ActiveRuns(w);
    if e.ETick? { TickClock(w, e.busy); }
    else if e.EYield? { YieldStep(w, w.sys.tcb[w.sys.active].(resume := InBlock), Reason(Me(w))); }
    else if e.ESpawn? { NewTaskClock(w.sys); }
    else if e.ECleanup? { CleanupRemoves(w.sys); }
  }

  lemma TickClock(w: World, busy: set<nat>)
    requires Shape(w) && Enabled(w, ETick(busy))
    ensures Step(w, ETick(busy)).sys.now == ClockAfterTick(w)
  {
    hide PcOk, Tick, TickOutcome;
    TickTheorem(w.sys, busy);
  }

  lemma NewTaskClock(s: Sys)
    ensures NewTask(s).now == s.now
  {
  }

  lemma StaysAsleep(w: World, e: Event, a: Pid, T: nat)
    requires Shape(w) && Enabled(w, e) && Naps(w, a, T) && w.sys.tcb[a].state == SLEEPING && e != EPoke(a)
    requires !Wakes(w, e, a, T)
    ensures a in Step(w, e).sys.tcb && Step(w, e).sys.tcb[a].state == SLEEPING
  {
    hide Step, WF;
    if e.ETick? { TimersExact(w, e.busy, a); } else { OnlyTicksWake(w, e, a); }
  }

  /** A poke sets the time to 0, so that the very next tick wakes it. */
  lemma PokeShortens(w: World, a: Pid, T: nat, busy: set<nat>)
    requires Inv(w) && Naps(w, a, T) && Enabled(w, EPoke(a))
    ensures var r := Step(w, EPoke(a)); Inv(r) && OthersSame(w, r, a) && Naps(r, a, 0) && Wakes(r, ETick(busy), a, 0)
  {
    hide Inv, WF, PcOk;
    ShapeOf(w);
    StepKeeps(w, EPoke(a));
    Poked(w, a, T, busy);
  }

  lemma Poked(w: World, a: Pid, T: nat, busy: set<nat>)
    requires Shape(w) && Naps(w, a, T) && Enabled(w, EPoke(a))
    ensures var r := Step(w, EPoke(a)); OthersSame(w, r, a) && Naps(r, a, 0) && Wakes(r, ETick(busy), a, 0)
  {
    PcSleeps(a, w.sys.tcb[a], w.pc[a]);
  }

  // ---------- waiting with a deadline ----------

  /** `a` asked to wait for id `p` with deadline `D`, and does or is about to. */
  ghost predicate Waits(w: World, a: Pid, p: int, D: nat) {
    && a in w.pc && a in w.sys.tcb && w.sys.tcb[a].pwait == p && w.sys.tcb[a].waketime == D
    && (w.pc[a].ToWait? || ((w.pc[a].Waiting? || w.pc[a] == Late) && w.sys.tcb[a].state == PWAIT))
  }

  /** A deadline of 0 is none. */
  predicate TimesOut(w: World, e: Event, D: nat) { e.ETick? && D != 0 && ClockAfterTick(w) >= D }

  /** A tick finds it queued, and its deadline reached or its target gone. */
  predicate WaitEnds(w: World, e: Event, a: Pid, p: int, D: nat)
    requires a in w.sys.tcb
  {
    e.ETick? && w.sys.tcb[a].state == PWAIT && (TimesOut(w, e, D) || Gone(w.sys, p))
  }

  /** task_pwait: nothing changes when the target is gone; otherwise target and deadline, the clock
      plus the timeout modulo 2^64, are recorded, and every other task is left as it was. */
  lemma WaitRecords(w: World, p: int, timeout: nat)
    requires Shape(w) && Enabled(w, EWait(p, timeout))
    ensures var a, r, gone := w.sys.active, Step(w, EWait(p, timeout)),
                              !(0 <= p < NTASKS && p in w.sys.tcb && w.sys.tcb[p].state != TERMINATED);
      && (gone ==> r == w)
      && (!gone ==> OthersSame(w, r, a) && r.sys.active == a && Waits(r, a, p, (w.sys.now + timeout) % CLOCK_MOD))
      && (!gone ==> r.pc[a].ToWait? && r.sys.tcb[a].wstatus == 0)
  {
    hide PcOk, WF;
    ActiveRuns(w);
  }

  /** It goes on waiting until exactly such a tick, and then has a timeout or the target's result. */
  lemma StepWaits(w: World, e: Event, a: Pid, p: int, D: nat)
    requires Shape(w) && Enabled(w, e) && Waits(w, a, p, D)
    ensures a in Step(w, e).sys.tcb && a in Step(w, e).pc
    ensures WaitEnds(w, e, a, p, D) ==> !Waits(Step(w, e), a, p, D)
    ensures WaitEnds(w, e, a, p, D) ==> var d := Step(w, e).sys.tcb[a];
      d.state in {READY, RUNNING} && d.wstatus == if TimesOut(w, e, D) then ECW_TIMEOUT else ResultOf(w.sys, p)
    ensures !WaitEnds(w, e, a, p, D) ==> Waits(Step(w, e), a, p, D)
  {
    hide Step, WF;
    PcSleeps(a, w.sys.tcb[a], w.pc[a]);
    if e.ETick? {
      TickKept(w, e.busy, a);
      TickWaiter(w, e.busy, a);
      TickSleeper(w, e.busy, a);
    } else if a == w.sys.active {
      ActiveRuns(w);
      WaitActs(w, e, p, D);
    } else {
      NotPoked(w, e, a);
      OthersKept(w, e, a);
    }
  }

  lemma NotPoked(w: World, e: Event, a: Pid)
    requires Shape(w) && Enabled(w, e) && a in w.sys.tcb && w.sys.tcb[a].state != SLEEPING
    ensures e != EPoke(a)
  {
  }

  lemma TickWaiter(w: World, busy: set<nat>, t: Pid)
    requires Shape(w) && Enabled(w, ETick(busy)) && t in w.pc
    ensures var r, c := Step(w, ETick(busy)).sys, w.sys.tcb[t];
      t in r.tcb && (c.state == PWAIT ==>
        if TimesOut(w, ETick(busy), c.waketime) then r.tcb[t].state != PWAIT && r.tcb[t].wstatus == ECW_TIMEOUT
        else if Gone(w.sys, c.pwait) then r.tcb[t].state != PWAIT && r.tcb[t].wstatus == ResultOf(w.sys, c.pwait)
        else r.tcb[t] == c)
  {
    hide WF, PcOk, Tick, ResultOf, Gone;
    TickAt(w, busy, t);
  }

  lemma WaitActs(w: World, e: Event, p: int, D: nat)
    requires Shape(w) && Enabled(w, e) && Waits(w, w.sys.active, p, D) && w.pc[w.sys.active].ToWait? && !e.ETick?
    ensures Waits(Step(w, e), w.sys.active, p, D)
  {
    hide WF, Cleanup, Block, Tick;
    var a := w.sys.active;
    ActiveRuns(w);
    assert PcOk(a, w.sys.tcb[a], w.pc[a]);
    if e.EYield? { WaitQueues(w, p, D); }
  }

  lemma WaitQueues(w: World, p: int, D: nat)
    requires Shape(w) && Waits(w, w.sys.active, p, D) && Enabled(w, EYield)
    ensures var a, r := w.sys.active, Step(w, EYield);
      Waits(r, a, p, D) && r.sys.tcb[a].state == PWAIT && r.sys.q[PWAIT] == w.sys.q[PWAIT] + [a]
  {
    hide PcOk, WF, Settled;
    ActiveRuns(w);
    var a, c := w.sys.active, w.sys.tcb[w.sys.active].(resume := InBlock);
    PcSleeps(a, w.sys.tcb[a], w.pc[a]);
    YieldStep(w, c, PWAIT);
    YieldHead(w);
  }

  ghost predicate AlwaysWaits(w: World, es: seq<Event>, a: Pid, p: int, D: nat)
    requires Inv(w) && Runs(w, es)
    decreases |es|
  {
    Waits(w, a, p, D) && (es == [] || (StepKeeps(w, es[0]); AlwaysWaits(Step(w, es[0]), es[1..], a, p, D)))
  }

  ghost predicate NeverEnds(w: World, es: seq<Event>, a: Pid, p: int, D: nat)
    requires Inv(w) && Runs(w, es)
    decreases |es|
  {
    && a in w.sys.tcb
    && (es == []
        || (!WaitEnds(w, es[0], a, p, D) && (StepKeeps(w, es[0]); NeverEnds(Step(w, es[0]), es[1..], a, p, D))))
  }

  /** Over every run: it waits up to exactly the first tick that finds it queued with its deadline
      reached or its target gone. */
  lemma {:induction false} WaitIff(w: World, es: seq<Event>, a: Pid, p: int, D: nat)
    requires Inv(w) && Runs(w, es) && Waits(w, a, p, D)
    ensures AlwaysWaits(w, es, a, p, D) <==> NeverEnds(w, es, a, p, D)
    ensures NeverEnds(w, es, a, p, D) ==> Waits(Run(w, es), a, p, D)
    decreases |es|
  {
    hide Inv, Step, Waits, WaitEnds, Enabled;
    InWait(w, a, p, D);
    ShapeOf(w);
    if es != [] {
      var r := Step(w, es[0]);
      StepKeeps(w, es[0]);
      StepWaits(w, es[0], a, p, D);
      if !WaitEnds(w, es[0], a, p, D) { WaitIff(r, es[1..], a, p, D); }
    }
  }

  lemma InWait(w: World, a: Pid, p: int, D: nat)
    requires Waits(w, a, p, D)
    ensures a in w.sys.tcb
  {
  }

  // ---------- results and nodes ----------

  /** What task_pwait returns at once: the target's exit code if the target has just exited, and
      the flag alone for an id that cannot exist. */
  lemma GoneGives(w: World, p: int)
    requires Inv(w) && Gone(w.sys, p)
    ensures !(0 <= p < NTASKS) ==> ResultOf(w.sys, p) == ECW_EXITED
    ensures p in w.birth ==> w.birth[p] in w.exits && ResultOf(w.sys, p) == w.exits[w.birth[p]] + ECW_EXITED
  {
    hide OwnInv, WF;
    SmallIds(w);
    if p in w.birth {
      assert ExitOk(w, p) && PcOk(p, w.sys.tcb[p], w.pc[p]);
    }
  }

  /** The code is in the block of `a`, and its low byte in the table under its id. */
  ghost predicate Recorded(w: World, r: World, a: Pid, code: int) {
    && a < NTASKS && a in w.sys.tcb && a in r.sys.tcb && r.sys.tcb[a] == w.sys.tcb[a].(exitcode := code)
    && 0 <= r.sys.taskres[a] < 256 && (code - r.sys.taskres[a]) % 256 == 0
    && (forall t :: 0 <= t < NTASKS && t != a ==> r.sys.taskres[t] == w.sys.taskres[t])
  }

  /** task_terminate records the code before it gives up the CPU, and changes nothing else. */
  lemma ExitRecords(w: World, code: int)
    requires Shape(w) && Enabled(w, EExit(code))
    ensures var a, r := w.sys.active, Step(w, EExit(code));
      OthersSame(w, r, a) && r.sys.active == a && Recorded(w, r, a, code) && a in r.pc && r.pc[a] == Exiting
  {
    hide PcOk, WF, Settled, OthersSame, Recorded;
    ActiveRuns(w);
    SmallIds(w);
    LeftRecords(w, code);
  }

  lemma SmallIds(w: World)
    requires Shape(w)
    ensures forall t :: t in w.sys.tcb ==> t < NTASKS
  {
  }

  lemma LeftRecords(w: World, code: int)
    requires Running(w.sys) && w.sys.active < NTASKS && w.sys.active in w.birth
    ensures var a, r := w.sys.active, Left(w, code);
      OthersSame(w, r, a) && r.sys.active == a && Recorded(w, r, a, code) && a in r.pc && r.pc[a] == Exiting
  {
  }

  /** task_acquire: the caller owns the node at once exactly when neither a task nor the node's own
      driver holds it; otherwise it is about to pause for it. */
  lemma TakeIff(w: World, n: nat, busy: set<nat>)
    requires Shape(w) && Enabled(w, ETake(n, busy))
    ensures var a, r := w.sys.active, Step(w, ETake(n, busy));
      && r.sys.active == a && r.sys.tcb.Keys == w.sys.tcb.Keys && a in r.pc
      && (forall t :: t in w.sys.tcb && t != a ==> r.sys.tcb[t] == w.sys.tcb[t])
      && (Owner(r.pc[a]) == Some(n) <==> n !in w.sys.held + busy)
      && (r.pc[a] == ToPause(n) <==> n in w.sys.held + busy)
      && r.sys.held == (if n in w.sys.held + busy then w.sys.held else w.sys.held + {n})
  {
    hide PcOk, WF;
    ActiveRuns(w);
  }

  /** A tick gives a paused task its node exactly if it wakes it, which it does not while a task or
      the node's own driver holds it; a node that nobody holds wakes somebody. */
  lemma PauseEnds(w: World, busy: set<nat>, t: Pid)
    requires Inv(w) && Enabled(w, ETick(busy)) && t in w.pc && w.sys.tcb[t].state == PAUSED
    ensures var n, r := w.sys.tcb[t].res, Step(w, ETick(busy));
      && n.Some? && t in r.sys.tcb && Owner(w.pc[t]) == n && Inv(r)
      && (r.sys.tcb[t].state != PAUSED <==> Owns(r.sys, Claims(r.pc), t, n.value))
      && (r.sys.tcb[t].state != PAUSED ==> n.value !in w.sys.held + busy)
      && (n.value !in w.sys.held + busy ==> exists u :: Owns(r.sys, Claims(r.pc), u, n.value))
  {
    hide WF, Tick, Births, Histories;
    StepKeeps(w, ETick(busy));
    TickAt(w, busy, t);
    PcPauses(t, w.sys.tcb[t], w.pc[t]);
  }

  lemma PcPauses(t: Pid, c: Tcb, pc: Pc)
    requires PcOk(t, c, pc) && c.state == PAUSED
    ensures c.res.Some? && Owner(pc) == c.res
  {
  }

  /** A pause queues behind those that paused before. */
  lemma PauseQueues(w: World)
    requires Shape(w) && Enabled(w, EYield) && Me(w).ToPause?
    ensures var a, r := w.sys.active, Step(w, EYield).sys;
      && a in r.tcb && r.tcb[a].state == PAUSED && r.tcb[a].res == Some(Me(w).node)
      && r.q[PAUSED] == w.sys.q[PAUSED] + [a]
  {
    hide PcOk, NoDup;
    var a, c := w.sys.active, w.sys.tcb[w.sys.active].(resume := InBlock);
    assert PcOk(a, w.sys.tcb[a], w.pc[a]);
    PcNoted(a, w.sys.tcb[a], w.pc[a]);
    YieldStep(w, c, PAUSED);
    assert w.sys.tcb[w.sys.q[READY][0]].state == READY;
  }

  lemma PcNoted(t: Pid, c: Tcb, pc: Pc)
    requires PcOk(t, c, pc) && pc.ToPause?
    ensures c.res == Some(pc.node)
  {
  }

  /** In the loop over the paused, the first one that waits for a free node gets it. */
  lemma {:induction false} FirstWoken(s: Sys, busy: set<nat>, l: seq<Pid>, i: nat, n: nat)
    requires WF(s) && s.npost > 0 && NoDup(l) && (forall x :: x in l ==> x in s.tcb && s.tcb[x].state == PAUSED)
    requires i < |l| && s.tcb[l[i]].res == Some(n) && n !in s.held + busy
    requires forall j :: 0 <= j < i ==> s.tcb[l[j]].res != Some(n)
    ensures Awake(s, l) && WakeAll(s, Paused(busy), l).tcb[l[i]].state == READY
    decreases |l|
  {
    hide WF, Unblock, Frame;
    ActiveIn(s);
    assert Awake(s, [l[0]]) && Awake(s, l);
    var s1 := StepLoop(s, Paused(busy), l[0]);
    StepLoopWF(s, Paused(busy), l[0]);
    StepLoopFrame(s, Paused(busy), l[0]);
    StepPausedHeld(s, busy, l[0], n);
    forall x | x in l[1..] ensures x in s1.tcb && s1.tcb[x] == s.tcb[x] { assert x in l && x != l[0]; }
    if i == 0 {
      StepLoopDecides(s, Paused(busy), l[0]);
      assert Awake(s1, l[1..]);
      WakeAllFrame(s1, Paused(busy), l[1..]);
      assert l[0] !in l[1..];
    } else {
      FirstWoken(s1, busy, l[1..], i - 1, n);
    }
  }

  lemma StepPausedHeld(s: Sys, busy: set<nat>, t: Pid, n: nat)
    requires WF(s) && Awake(s, [t]) && t in s.tcb && s.tcb[t].state == PAUSED && n !in s.held + busy
    ensures var r := StepLoop(s, Paused(busy), t);
      && (s.tcb[t].res != Some(n) ==> n !in r.held) && r.npost == s.npost
      && (s.tcb[t].res == Some(n) ==> r.tcb[t].state == READY)
  {
    hide Remove, IndexOf;
    assert t != s.active;
  }

  /** The other lists are left alone. */
  lemma {:induction false} SleepersLeave(s: Sys, l: seq<Pid>)
    requires WF(s) && s.npost > 0 && NoDup(l) && forall x :: x in l ==> x in s.tcb && s.tcb[x].state == SLEEPING
    ensures Awake(s, l) && WakeAll(s, Sleepers, l).q[PAUSED] == s.q[PAUSED]
    decreases |l|
  {
    hide WF, Frame;
    ActiveIn(s);
    assert Awake(s, l);
    if l != [] {
      assert Awake(s, [l[0]]);
      var s1 := StepLoop(s, Sleepers, l[0]);
      StepLoopWF(s, Sleepers, l[0]);
      StepLoopFrame(s, Sleepers, l[0]);
      assert l[0] !in l[1..];
      forall x | x in l[1..] ensures x in s1.tcb && s1.tcb[x].state == SLEEPING { assert x in l && x != l[0]; }
      SleepersLeave(s1, l[1..]);
    }
  }

  /** So nodes are handed on in the order of the queue: after a tick, the first task that was queued
      for a node that neither a task nor its driver held is no longer paused. */
  lemma FirstWaiterGets(s: Sys, busy: set<nat>, i: nat, n: nat)
    requires WF(s) && s.npost == 0 && s.ncli == 0
    requires i < |s.q[PAUSED]| && s.q[PAUSED][i] in s.tcb
    requires s.tcb[s.q[PAUSED][i]].res == Some(n) && n !in s.held + busy
    requires forall j :: 0 <= j < i ==> s.q[PAUSED][j] in s.tcb && s.tcb[s.q[PAUSED][j]].res != Some(n)
    ensures var t := s.q[PAUSED][i]; t in Tick(s, busy).tcb && Tick(s, busy).tcb[t].state in {READY, RUNNING}
  {
    hide WF, WakeAll, Frame, TickOutcome, AfterTick;
    var t, s0 := s.q[PAUSED][i], Clock(s);
    ClockWF(s);
    ListFacts(s0, SLEEPING);
    ListFacts(s0, PAUSED);
    SleepersLeave(s0, s0.q[SLEEPING]);
    WakeLoopDecides(s0, Sleepers);
    var s1 := WakeLoop(s0, Sleepers);
    forall x | x in s0.q[PAUSED] ensures x in s1.tcb && s1.tcb[x] == s0.tcb[x] { assert LoopOn(s0, Sleepers, s1, x); }
    assert s1.held == s0.held by { FrameHeld(s0, s1); }
    FirstWoken(s1, busy, s1.q[PAUSED], i, n);
    var s2 := WakeLoop(s1, Paused(busy));
    WakeLoopDecides(s2, Signaled);
    var s3 := WakeLoop(s2, Signaled);
    WakeLoopDecides(s3, Pwaiters);
    var s4 := WakeLoop(s3, Pwaiters);
    assert LoopOn(s2, Signaled, s3, t) && LoopOn(s3, Pwaiters, s4, t);
    TicksOn(s, busy, s4, t);
  }

  lemma ListFacts(s: Sys, l: State)
    requires WF(s)
    ensures NoDup(s.q[l]) && forall x :: x in s.q[l] ==> x in s.tcb && s.tcb[x].state == l
  {
  }

  lemma FrameHeld(s: Sys, r: Sys)
    requires Frame(s, r, Sleepers)
    ensures r.held == s.held
  {
  }

  lemma TicksOn(s: Sys, busy: set<nat>, l: Sys, t: Pid)
    requires WF(s) && s.npost == 0 && s.ncli == 0 && l == TickLoops(s, busy) && t in l.tcb && l.tcb[t].state == READY
    ensures t in Tick(s, busy).tcb && Tick(s, busy).tcb[t].state in {READY, RUNNING}
  {
    hide WF, TickLoops;
    UnlockPostSwitches(TickBody(s, busy));
    ActiveIn(l);
  }

  // ---------- the time slice ----------

  /** Since `s`, a switch has been asked for exactly if a task was woken while none was ready. */
  ghost predicate Asked(ready: seq<Pid>, r: Sys) {
    && (r.postponed <==> ready == [] && r.q[READY] != [])
    && (ready != [] ==> r.q[READY] != [])
  }

  lemma StepAsked(ready: seq<Pid>, s: Sys, k: Loop, t: Pid)
    requires Asked(ready, s) && Awake(s, [t])
    ensures Asked(ready, StepLoop(s, k, t))
  {
    hide Remove, Gone, ResultOf, IndexOf;
    assert t in [t];
  }

  lemma {:induction false} AllAsked(ready: seq<Pid>, s: Sys, k: Loop, l: seq<Pid>)
    requires Asked(ready, s) && Awake(s, l) && WF(s)
    ensures Asked(ready, WakeAll(s, k, l))
    decreases |l|
  {
    hide Asked, WF, StepLoop;
    if l != [] {
      assert Awake(s, [l[0]]);
      StepAsked(ready, s, k, l[0]);
      StepLoopWF(s, k, l[0]);
      AllAsked(ready, StepLoop(s, k, l[0]), k, l[1..]);
    }
  }

  lemma LoopAsked(ready: seq<Pid>, s: Sys, k: Loop)
    requires Asked(ready, s) && WF(s) && s.npost > 0
    ensures Asked(ready, WakeLoop(s, k))
  {
    hide Asked, WakeAll;
    var l := s.q[ListOf(k)];
    assert Awake(s, l);
    AllAsked(ready, s, k, l);
  }

  lemma LoopsAsked(s: Sys, busy: set<nat>)
    requires WF(s) && s.npost == 0 && !s.postponed
    ensures Asked(s.q[READY], TickLoops(s, busy))
  {
    hide WakeLoop, WF;
    var q, s0 := s.q[READY], Clock(s);
    assert WF(s0) && Asked(q, s0) by { ClockWF(s); }
    LoopAsked(q, s0, Sleepers);
    var s1 := WakeLoop(s0, Sleepers);
    LoopAsked(q, s1, Paused(busy));
    var s2 := WakeLoop(s1, Paused(busy));
    LoopAsked(q, s2, Signaled);
    LoopAsked(q, WakeLoop(s2, Signaled), Pwaiters);
  }

  lemma ClockWF(s: Sys)
    requires WF(s)
    ensures WF(Clock(s))
  {
  }

  /** A tick takes the CPU from the running task exactly when another task is ready, and its slice
      ends or nobody was ready before: then the first of them is entered with a full slice.
      Otherwise its slice gets one tick shorter. */
  lemma TickPreempts(s: Sys, busy: set<nat>)
    requires WF(s) && s.npost == 0 && s.ncli == 0 && !s.postponed
    ensures var a, n, r := s.active, s.tcb[s.active].nticks, Tick(s, busy);
      && a in r.tcb && r.active in r.tcb
      && (r.active != a <==> if s.q[READY] != [] then n <= 1
                             else exists u :: u in s.tcb && u != a && u in r.tcb && r.tcb[u].state != s.tcb[u].state)
      && r.tcb[r.active].nticks == (if r.active != a then NTICKS else if n == 0 then 0 else n - 1)
      && (s.q[READY] != [] ==> r.q[READY] != [])
      && (s.q[READY] != [] && r.active != a ==> r.active == s.q[READY][0])
  {
    hide WF, Asked;
    TickLoopsOutcome(s, busy);
    LoopsAsked(s, busy);
    EndSliceWF(TickLoops(s, busy));
    UnlockPostSwitches(TickBody(s, busy));
    Preempts(s, busy, TickLoops(s, busy));
  }

  lemma Preempts(s: Sys, busy: set<nat>, l: Sys)
    requires WF(s) && WF(l) && l.npost == 1 && l.ncli == 1 && Outcome(s, busy, l) && Asked(s.q[READY], l)
    requires l.tcb[l.active].nticks == s.tcb[s.active].nticks
    ensures var a, n, r := s.active, s.tcb[s.active].nticks, AfterTick(EndSlice(l));
      && a in r.tcb && r.active in r.tcb
      && (r.active != a <==> if s.q[READY] != [] then n <= 1
                             else exists u :: u in s.tcb && u != a && u in r.tcb && r.tcb[u].state != s.tcb[u].state)
      && r.tcb[r.active].nticks == (if r.active != a then NTICKS else if n == 0 then 0 else n - 1)
      && (s.q[READY] != [] ==> r.q[READY] != [])
      && (s.q[READY] != [] && r.active != a ==> r.active == s.q[READY][0])
  {
    hide TickOutcome;
    var a, m, r := s.active, EndSlice(l), AfterTick(EndSlice(l));
    if l.q[READY] != [] {
      var t := l.q[READY][0];
      assert t in l.tcb && l.tcb[t].state == READY && t != a;
      if s.q[READY] == [] { assert s.tcb[t].state != READY; }
    } else {
      forall u | u in s.tcb && u != a ensures r.tcb[u].state == s.tcb[u].state {
        NobodyWoke(s, busy, l, u);
      }
    }
  }

  lemma NobodyWoke(s: Sys, busy: set<nat>, l: Sys, u: Pid)
    requires WF(l) && Outcome(s, busy, l) && l.q[READY] == [] && u in s.tcb && u != s.active
    ensures l.tcb[u].state == s.tcb[u].state
  {
    assert TickOutcome(s, busy, l, u);
    assert u in l.q[l.tcb[u].state];
  }

  /** Whoever is given the CPU is given a full slice. */
  lemma FullSlice(w: World, e: Event)
    requires Inv(w) && Enabled(w, e)
    ensures var a, r := w.sys.active, Step(w, e).sys;
      r.active != a ==> (e.ETick? || e.EYield?) && r.active in r.tcb && r.tcb[r.active].nticks == NTICKS
  {
    hide Step, Inv, WF, PcOk;
    ShapeOf(w);
    if e.ETick? { TickFullSlice(w, e.busy); }
    else if e.EYield? { YieldFullSlice(w); }
    else { SameCpu(w, e); }
  }

  lemma SameCpu(w: World, e: Event)
    requires Shape(w) && Enabled(w, e) && !e.ETick? && !e.EYield?
    ensures Step(w, e).sys.active == w.sys.active
  {
    hide WF, PcOk, Cleanup, Settled;
    ActiveRuns(w);
    if e.ECleanup? { CleanupRemoves(w.sys); }
  }

  lemma TickFullSlice(w: World, busy: set<nat>)
    requires Shape(w) && Enabled(w, ETick(busy))
    ensures var r := Step(w, ETick(busy)).sys;
      r.active != w.sys.active ==> r.active in r.tcb && r.tcb[r.active].nticks == NTICKS
  {
    hide WF, PcOk, Tick;
    TickPreempts(w.sys, busy);
  }

  lemma YieldFullSlice(w: World)
    requires Shape(w) && Enabled(w, EYield)
    ensures var r := Step(w, EYield).sys; r.active in r.tcb && r.tcb[r.active].nticks == NTICKS
  {
    hide PcOk, NoDup;
    YieldStep(w, w.sys.tcb[w.sys.active].(resume := InBlock), Reason(Me(w)));
    assert w.sys.q[READY][0] in w.sys.tcb;
  }

  ghost predicate KeepsCpu(w: World, es: seq<Event>, a: Pid)
    requires Inv(w) && Runs(w, es)
    decreases |es|
  {
    w.sys.active == a && (es == [] || (StepKeeps(w, es[0]); KeepsCpu(Step(w, es[0]), es[1..], a)))
  }

  function Slice(n: nat): nat { if n == 0 then 1 else n }

  /** A task that does not block keeps the CPU for exactly the ticks left of its slice, however
      many others are ready. */
  lemma {:induction false} SliceIff(w: World, es: seq<Event>)
    requires Inv(w) && Runs(w, es) && EYield !in es && w.sys.q[READY] != [] && w.sys.active in w.sys.tcb
    ensures KeepsCpu(w, es, w.sys.active) <==> Ticks(es) < Slice(w.sys.tcb[w.sys.active].nticks)
    decreases |es|
  {
    hide Inv, Enabled, Step;
    ShapeOf(w);
    if es != [] {
      var e, r := es[0], Step(w, es[0]);
      StepKeeps(w, e);
      SliceStep(w, e);
      if r.sys.active == w.sys.active { SliceIff(r, es[1..]); }
    }
  }

  lemma SliceStep(w: World, e: Event)
    requires Inv(w) && Enabled(w, e) && e != EYield && w.sys.q[READY] != []
    ensures var a, r := w.sys.active, Step(w, e).sys;
      && a in w.sys.tcb && a in r.tcb && r.q[READY] != []
      && (r.active == a <==> !e.ETick? || w.sys.tcb[a].nticks > 1)
      && (r.active == a ==> r.tcb[a].nticks == w.sys.tcb[a].nticks - if e.ETick? then 1 else 0)
  {
    hide Inv, WF, PcOk, Step, Enabled;
    ActiveRunsInv(w, e);
    if e.ETick? { TickSlice(w, e.busy); } else { OthersKeepPlace(w, e, 0); }
  }

  lemma ActiveRunsInv(w: World, e: Event)
    requires Inv(w)
    ensures Shape(w) && w.sys.active in w.sys.tcb
  {
  }

  lemma TickSlice(w: World, busy: set<nat>)
    requires Shape(w) && Enabled(w, ETick(busy)) && w.sys.q[READY] != []
    ensures var a, r := w.sys.active, Step(w, ETick(busy)).sys;
      && a in r.tcb && r.q[READY] != [] && (r.active == a <==> w.sys.tcb[a].nticks > 1)
      && (r.active == a ==> r.tcb[a].nticks == w.sys.tcb[a].nticks - 1)
  {
    hide WF, PcOk, Tick;
    TickPreempts(w.sys, busy);
  }
}
