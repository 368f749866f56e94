/** What holds in every signal-free run of the scheduler from the end of boot. */
module TaskTheorems {
  import opened Util
  import opened TaskSpec
  import opened TaskOwners
  import opened TaskRuns

  /** The end of boot: the kernel task runs and init (id 1) has been loaded and is ready. The
      clock, and what is left of either task's slice, are whatever loading init has left them at. */
  function Boot(now: nat, kslice: nat, slice: nat): World {
    var k := FRESH.(state := RUNNING, resume := InUnlockPost, nticks := kslice);
    var init := FRESH.(resume := InUnlockPost, nticks := slice);
    World(Sys(map[KTASK := k, 1 := init], [[1], [], [], [], [], [], []], KTASK, now, {}, seq(NTASKS, i => 0), 0, 0,
              false),
          map[KTASK := User, 1 := User], map[KTASK := 0, 1 := 1], 2, 0, map[1 := 1], map[])
  }

  /** A clock that has not wrapped around, and no more than a full slice left. */
  predicate Booted(now: nat, kslice: nat, slice: nat) { now < CLOCK_MOD && kslice <= NTICKS && slice <= NTICKS }

  lemma BootWF(now: nat, kslice: nat, slice: nat)
    requires Booted(now, kslice, slice)
    ensures WF(Boot(now, kslice, slice).sys)
  {
    var s := Boot(now, kslice, slice).sys;
    assert s.q[READY] == [1] && s.tcb[1].state == READY;
  }

  lemma BootShape(now: nat, kslice: nat, slice: nat)
    requires Booted(now, kslice, slice)
    ensures Shape(Boot(now, kslice, slice))
  {
    BootWF(now, kslice, slice);
  }

  lemma BootOwners(now: nat, kslice: nat, slice: nat)
    ensures OwnInv(Boot(now, kslice, slice).sys, Claims(Boot(now, kslice, slice).pc))
  {
    assert Claims(Boot(now, kslice, slice).pc) == map[];
  }

  lemma BootHistories(now: nat, kslice: nat, slice: nat)
    ensures Births(Boot(now, kslice, slice)) && Histories(Boot(now, kslice, slice))
  {
  }

  lemma BootInv(now: nat, kslice: nat, slice: nat)
    requires Booted(now, kslice, slice)
    ensures Inv(Boot(now, kslice, slice))
  {
    BootShape(now, kslice, slice);
    BootOwners(now, kslice, slice);
    BootHistories(now, kslice, slice);
  }

  /** `es` can happen from `w`, one after the other. */
  ghost predicate Runs(w: World, es: seq<Event>)
    requires Inv(w)
    decreases |es|
  {
    es == [] || (Enabled(w, es[0]) && (StepKeeps(w, es[0]); Runs(Step(w, es[0]), es[1..])))
  }

  ghost function Run(w: World, es: seq<Event>): (r: World)
    requires Inv(w) && Runs(w, es)
    ensures Inv(r)
    decreases |es|
  {
    if es == [] then w else StepKeeps(w, es[0]); Run(Step(w, es[0]), es[1..])
  }

  /** Every world a run can reach satisfies the invariant that the theorems below assume. */
  lemma EveryRunKeeps(now: nat, kslice: nat, slice: nat, es: seq<Event>)
    requires Booted(now, kslice, slice)
    ensures var w := Boot(now, kslice, slice); Inv(w) && (Runs(w, es) ==> Inv(Run(w, es)))
  {
    BootInv(now, kslice, slice);
  }

  /** No world is stuck: a freshly entered child can load, anyone else can be interrupted. */
  lemma NeverStuck(w: World)
    requires Inv(w)
    ensures Enabled(w, ELoad(1)) || forall busy :: Enabled(w, ETick(busy))
  {
    assert PcOk(w.sys.active, w.sys.tcb[w.sys.active], Me(w));
  }

  // ---------- the lists ----------

  /** How often `t` occurs in the seven lists together. */
  function Places(q: Lists, t: Pid): nat {
    multiset(q[0])[t] + multiset(q[1])[t] + multiset(q[2])[t] + multiset(q[3])[t]
    + multiset(q[4])[t] + multiset(q[5])[t] + multiset(q[6])[t]
  }

  lemma {:induction false} CountNoDup<T>(l: seq<T>, x: T)
    requires NoDup(l)
    ensures multiset(l)[x] == if x in l then 1 else 0
  {
    if l != [] {
      assert l == l[..|l|-1] + [l[|l|-1]];
      CountNoDup(l[..|l|-1], x);
    }
  }

  lemma CountIn(s: Sys, l: State, t: Pid)
    requires WF(s) && t in s.tcb
    ensures multiset(s.q[l])[t] == if t != s.active && s.tcb[t].state == l then 1 else 0
  {
    CountNoDup(s.q[l], t);
  }

  /** At every step boundary the lists partition the tasks: each one but the active task is
      queued exactly once, on the list of its state; the active one is RUNNING and on no list. */
  lemma ListsPartition(w: World)
    requires Inv(w)
    ensures var s := w.sys;
      && s.active in s.tcb && s.tcb[s.active].state == RUNNING
      && (forall t :: t in s.tcb ==> Places(s.q, t) == if t == s.active then 0 else 1)
      && (forall t :: t in s.tcb && t != s.active ==> t in s.q[s.tcb[t].state])
      && (forall l, x :: 0 <= l < NSTATES && x in s.q[l] ==> x in s.tcb)
  {
    var s := w.sys;
    assert WF(s);
    forall t | t in s.tcb ensures Places(s.q, t) == if t == s.active then 0 else 1 {
      CountIn(s, 0, t); CountIn(s, 1, t); CountIn(s, 2, t); CountIn(s, 3, t);
      CountIn(s, 4, t); CountIn(s, 5, t); CountIn(s, 6, t);
    }
  }

  // ---------- locks ----------

  /** The lock counter is not saved per task: it is 1 exactly while a task that was just
      entered has not yet left its first entry, and 0 otherwise. */
  lemma LockDiscipline(w: World)
    requires Inv(w)
    ensures
      && w.sys.ncli == (if Me(w) == Loading then 1 else 0) && w.sys.npost == 0 && !w.sys.postponed
      && (Me(w) != Loading ==> Free(w))
  {
    assert PcOk(w.sys.active, w.sys.tcb[w.sys.active], Me(w));
  }

  /** A blocking task always loses the CPU, and the switch happens with the counter at 1. */
  lemma BlockingSwitches(w: World)
    requires Inv(w) && Enabled(w, EYield)
    ensures Step(w, EYield).sys.active != w.sys.active
    ensures CanSchedule(Calling(Park(LockCli(w.sys), Reason(Me(w))), InBlock))
    ensures Calling(Park(LockCli(w.sys), Reason(Me(w))), InBlock).ncli == 1
  {
    hide WF, OwnInv, Births, Histories, HandOver;
    assert PcOk(w.sys.active, w.sys.tcb[w.sys.active], Me(w));
    BlockSwitches(w.sys, Reason(Me(w)));
  }

  // ---------- resources ----------

  /** `held` is set exactly while exactly one task owns the node. */
  lemma OneOwner(w: World, n: nat)
    requires Inv(w)
    ensures
      && (n in w.sys.held <==> exists t :: Owns(w.sys, Claims(w.pc), t, n))
      && forall t, u :: Owns(w.sys, Claims(w.pc), t, n) && Owns(w.sys, Claims(w.pc), u, n) ==> t == u
  {
    assert OwnInv(w.sys, Claims(w.pc));
  }

  lemma TickAtSys(s: Sys, busy: set<nat>, t: Pid)
    requires WF(s) && s.ncli == 0 && s.npost == 0 && s.tcb[s.active].resume != Entry && t in s.tcb
    ensures var r := Tick(s, busy);
      r.tcb.Keys == s.tcb.Keys && t in r.tcb && TickOutcome(s, busy, r, t) && r.now == (s.now + TICK_NS) % CLOCK_MOD
  {
    TickTheorem(s, busy);
  }

  /** What a tick does to one task, next to where that task stands. */
  lemma TickAt(w: World, busy: set<nat>, t: Pid)
    requires Shape(w) && Enabled(w, ETick(busy)) && t in w.pc
    ensures var r := Step(w, ETick(busy)).sys;
      r.tcb.Keys == w.sys.tcb.Keys && t in r.tcb && TickOutcome(w.sys, busy, r, t)
        && r.now == (w.sys.now + TICK_NS) % CLOCK_MOD
    ensures PcOk(t, w.sys.tcb[t], w.pc[t])
  {
    TickAtSys(w.sys, busy, t);
  }

  /** After a tick nobody is left paused for a node that was free when the tick looked. */
  lemma NoIdleWait(w: World, busy: set<nat>, t: Pid)
    requires Shape(w) && Enabled(w, ETick(busy)) && t in w.pc
    ensures var s := Step(w, ETick(busy)).sys;
      t in s.tcb && (s.tcb[t].state == PAUSED ==> s.tcb[t].res.Some? && IsHeld(s, busy, s.tcb[t].res.value))
  {
    TickAt(w, busy, t);
  }

  // ---------- timers ----------

  /** Wake-up is exact to one tick: a sleeper leaves its list at the first tick whose clock
      reaches its wake time and not before; timed waiters likewise. */
  lemma TimersExact(w: World, busy: set<nat>, t: Pid)
    requires Shape(w) && Enabled(w, ETick(busy)) && t in w.pc
    ensures var s, c := Step(w, ETick(busy)).sys, w.sys.tcb[t];
      && s.now == (w.sys.now + TICK_NS) % CLOCK_MOD && t in s.tcb
      && (c.state == SLEEPING ==> (s.tcb[t].state == SLEEPING <==> s.now < c.waketime))
      && (s.tcb[t].state == SLEEPING ==> s.now < s.tcb[t].waketime)
      && (s.tcb[t].state == PWAIT && s.tcb[t].waketime != 0 ==> s.now < s.tcb[t].waketime)
  {
    TickAt(w, busy, t);
  }

  lemma YieldLeaves(w: World, t: Pid)
    requires Shape(w) && Enabled(w, EYield) && t in w.pc && t != w.sys.active && w.sys.tcb[t].state != READY
    ensures var s := Step(w, EYield).sys; t in s.tcb && s.tcb[t].state == w.sys.tcb[t].state
  {
    hide PcOk;
    YieldStep(w, w.sys.tcb[w.sys.active].(resume := InBlock), Reason(Me(w)));
    assert w.sys.tcb[w.sys.q[READY][0]].state == READY;
  }

  lemma CleanLeaves(w: World, t: Pid)
    requires Shape(w) && Enabled(w, ECleanup) && t in w.pc && w.sys.tcb[t].state != TERMINATED
    ensures var s := Step(w, ECleanup).sys; t in s.tcb && s.tcb[t].state == w.sys.tcb[t].state
  {
    CleanupRemoves(w.sys);
  }

  lemma OthersLeave(w: World, e: Event, t: Pid)
    requires Shape(w) && Enabled(w, e) && !e.ETick? && !e.EYield? && !e.ECleanup? && t in w.pc && t != w.sys.active
    ensures var s := Step(w, e).sys; t in s.tcb && s.tcb[t].state == w.sys.tcb[t].state
  {
    hide WF, Settled, PcOk, Block, Tick, Cleanup, OwnInv;
    ActiveRuns(w);
  }

  /** Only ticks wake: between ticks a queued task stays queued where it is. */
  lemma OnlyTicksWake(w: World, e: Event, t: Pid)
    requires Shape(w) && Enabled(w, e) && !e.ETick? && t in w.pc && w.sys.tcb[t].state in {SLEEPING, PWAIT, PAUSED}
    ensures var s := Step(w, e).sys; t in s.tcb && s.tcb[t].state == w.sys.tcb[t].state
  {
    hide Step, PcOk, NoDup;
    if e.EYield? { YieldLeaves(w, t); }
    else if e.ECleanup? { CleanLeaves(w, t); }
    else { OthersLeave(w, e, t); }
  }

  // ---------- waiting for an exit ----------

  /** A waiter queued in time is woken by a timeout or with its own target's exit code; while
      it is queued the target's id is still the target's, or not yet given to anyone. */
  lemma WaiterGetsExitCode(w: World, t: Pid)
    requires Inv(w)
    ensures
      t in w.pc && w.pc[t].Waiting? ==>
        var c, b := w.sys.tcb[t], w.pc[t].target;
        if c.state == PWAIT then c.pwait in w.birth ==> w.birth[c.pwait] == b
        else c.wstatus == ECW_TIMEOUT || (b in w.exits && c.wstatus == w.exits[b] + ECW_EXITED)
  {
    assert WaitOk(w, t);
  }

  /** The tick after the target has exited finds every such waiter; before that only the
      timeout does. */
  lemma ExitWakesWaiters(w: World, busy: set<nat>, t: Pid)
    requires Shape(w) && Births(w) && Histories(w) && Enabled(w, ETick(busy))
    requires t in w.pc && w.pc[t].Waiting? && w.sys.tcb[t].state == PWAIT
    ensures var s, b, c := Step(w, ETick(busy)).sys, w.pc[t].target, w.sys.tcb[t];
      t in s.tcb && var d := s.tcb[t];
        if c.waketime != 0 && s.now >= c.waketime then d.wstatus == ECW_TIMEOUT && d.state != PWAIT
        else if Gone(w.sys, c.pwait) then b in w.exits && d.wstatus == w.exits[b] + ECW_EXITED && d.state != PWAIT
        else d.state == PWAIT && c.pwait in w.birth && w.birth[c.pwait] == b
  {
    TickAt(w, busy, t);
    assert WaitOk(w, t);
    var p := w.sys.tcb[t].pwait;
    if p in w.birth { assert ExitOk(w, p) && PcOk(p, w.sys.tcb[p], w.pc[p]); }
    WaiterOutcome(w, busy, Step(w, ETick(busy)).sys, t);
  }

  lemma WaiterOutcome(w: World, busy: set<nat>, r: Sys, t: Pid)
    requires t in w.pc && t in w.sys.tcb && t in r.tcb && TickOutcome(w.sys, busy, r, t) && WaitOk(w, t)
    requires w.birth.Keys == w.pc.Keys == w.sys.tcb.Keys && (forall b :: b in w.exits ==> 0 <= w.exits[b] < 256)
    requires var p := w.sys.tcb[t].pwait; p in w.birth ==> ExitOk(w, p) && PcOk(p, w.sys.tcb[p], w.pc[p])
    requires w.pc[t].Waiting? && w.sys.tcb[t].state == PWAIT
    ensures var b, c, d := w.pc[t].target, w.sys.tcb[t], r.tcb[t];
      if c.waketime != 0 && r.now >= c.waketime then d.wstatus == ECW_TIMEOUT && d.state != PWAIT
      else if Gone(w.sys, c.pwait) then b in w.exits && d.wstatus == w.exits[b] + ECW_EXITED && d.state != PWAIT
      else d.state == PWAIT && c.pwait in w.birth && w.birth[c.pwait] == b
  {
    if Gone(w.sys, w.sys.tcb[t].pwait) {
      var p, b := w.sys.tcb[t].pwait, w.pc[t].target;
      assert Target(w, p, b);
      assert b in w.exits && w.sys.taskres[p] == w.exits[b];
    }
  }

  // ---------- the loader ----------

  /** With any number of callers sharing one `res`, each reads what its own child wrote. */
  lemma OwnChildsVerdict(w: World, t: Pid)
    requires Inv(w)
    ensures
      t in w.pc && w.pc[t].ElfGot? ==> w.pc[t].birth in w.verdict && w.pc[t].verdict == w.verdict[w.pc[t].birth]
  {
    assert ElfOk(w, t);
  }

  /** A spinning creator's child is still to be entered, or `res` already holds its verdict. */
  lemma SpinnerSeesOwnChild(w: World, t: Pid)
    requires Inv(w)
    ensures
      t in w.pc && w.pc[t].ElfSpin? ==>
        var c, b := w.pc[t].child, w.pc[t].birth;
        if w.elfres == 0 then c in w.pc && w.pc[c] == Loading && w.birth[c] == b
        else b in w.verdict && w.elfres == w.verdict[b]
  {
    assert ElfOk(w, t);
    if t in w.pc && w.pc[t].ElfSpin? && w.pc[t].birth in w.verdict { assert Births(w); }
  }

  /** Verdicts and exit codes are written once: no later event changes or drops an entry. */
  lemma {:induction false} HistoriesOnlyGrow(w: World, es: seq<Event>)
    requires Inv(w) && Runs(w, es)
    ensures var r := Run(w, es);
      && (forall b :: b in w.verdict ==> b in r.verdict && r.verdict[b] == w.verdict[b])
      && (forall b :: b in w.exits ==> b in r.exits && r.exits[b] == w.exits[b])
    decreases |es|
  {
    if es != [] {
      StepKeeps(w, es[0]);
      StepGrows(w, es[0]);
      HistoriesOnlyGrow(Step(w, es[0]), es[1..]);
    }
  }

  lemma StepGrows(w: World, e: Event)
    requires Inv(w) && Enabled(w, e)
    ensures var r := Step(w, e);
      && (forall b :: b in w.verdict ==> b in r.verdict && r.verdict[b] == w.verdict[b])
      && (forall b :: b in w.exits ==> b in r.exits && r.exits[b] == w.exits[b])
  {
    hide OwnInv, Histories, Births, WF, PcOk;
    if e.ELoad? {
      NoVerdictYet(w);
    } else if e.EExit? {
      NoCodeYet(w, e);
    } else {
      OthersRecordNothing(w, e);
    }
  }

  lemma OthersRecordNothing(w: World, e: Event)
    requires Shape(w) && Enabled(w, e) && !e.ELoad? && !e.EExit?
    ensures Step(w, e).verdict == w.verdict && Step(w, e).exits == w.exits
  {
    hide Shape, WF;
  }

  lemma NoVerdictYet(w: World)
    requires Inv(w) && Me(w) == Loading
    ensures w.sys.active in w.birth && w.birth[w.sys.active] !in w.verdict
  {
    assert ElfOk(w, w.sys.active);
  }

  lemma NoCodeYet(w: World, e: Event)
    requires Inv(w) && e.EExit? && Enabled(w, e)
    ensures w.sys.active in w.birth && w.birth[w.sys.active] !in w.exits
  {
    assert ExitOk(w, w.sys.active);
  }

  // ---------- bounded waiting ----------

  function Ticks(es: seq<Event>): nat {
    if es == [] then 0 else (if es[0].ETick? then 1 else 0) + Ticks(es[1..])
  }

  /** `t` has the CPU at some point of the run. */
  ghost predicate GetsCpu(w: World, es: seq<Event>, t: Pid)
    requires Inv(w) && Runs(w, es)
    decreases |es|
  {
    w.sys.active == t || (es != [] && (StepKeeps(w, es[0]); GetsCpu(Step(w, es[0]), es[1..], t)))
  }

  lemma StepAdvances(w: World, e: Event, k: nat)
    requires Shape(w) && Enabled(w, e) && k < |w.sys.q[READY]|
    ensures Closer(w.sys, k, Step(w, e).sys, e.ETick?)
  {
    if e.ETick? {
      TickAdvances(w.sys, e.busy, k);
    } else if e.EYield? {
      assert PcOk(w.sys.active, w.sys.tcb[w.sys.active], Me(w));
      BlockAdvances(w.sys, Reason(Me(w)), k);
    } else {
      OthersAdvance(w, e, k);
    }
  }

  /** Every other event leaves the ready tasks, the CPU and the slice where they are. */
  lemma OthersKeepPlace(w: World, e: Event, k: nat)
    requires Shape(w) && Enabled(w, e) && k < |w.sys.q[READY]| && !e.ETick? && !e.EYield?
    ensures var a, r := w.sys.active, Step(w, e).sys;
      && k < |r.q[READY]| && r.q[READY][k] == w.sys.q[READY][k]
      && r.active == a && a in r.tcb && r.tcb[a].nticks == w.sys.tcb[a].nticks
  {
    hide PcOk, NoDup, Cleanup, WF;
    ActiveIsIn(w);
    if e.ECleanup? { CleanupKeepsPlace(w, k); }
  }

  lemma ActiveIsIn(w: World)
    requires Shape(w)
    ensures w.sys.active in w.sys.tcb && w.sys.active in w.pc && w.sys.active < NTASKS
    ensures forall x :: x in w.sys.q[READY] ==> x in w.sys.tcb && x != w.sys.active
  {
  }

  lemma CleanupKeepsPlace(w: World, k: nat)
    requires Shape(w) && Enabled(w, ECleanup) && k < |w.sys.q[READY]|
    ensures var a, r := w.sys.active, Step(w, ECleanup).sys;
      && r.q[READY] == w.sys.q[READY] && r.active == a && a in r.tcb && r.tcb[a] == w.sys.tcb[a]
  {
    hide PcOk, NoDup;
    CleanupRemoves(w.sys);
  }

  lemma OthersAdvance(w: World, e: Event, k: nat)
    requires Shape(w) && Enabled(w, e) && k < |w.sys.q[READY]| && !e.ETick? && !e.EYield?
    ensures Closer(w.sys, k, Step(w, e).sys, false)
  {
    hide Step, WF, PcOk;
    OthersKeepPlace(w, e, k);
    var r := Step(w, e).sys;
    assert r.q[READY][k] == w.sys.q[READY][k] && Delay(r, k) == Delay(w.sys, k);
  }

  lemma {:induction false} WaitsAtMostDelay(w: World, es: seq<Event>, k: nat)
    requires Inv(w) && Runs(w, es) && k < |w.sys.q[READY]| && Ticks(es) >= Delay(w.sys, k)
    ensures GetsCpu(w, es, w.sys.q[READY][k])
    decreases |es|
  {
    if es != [] {
      var t, w' := w.sys.q[READY][k], Step(w, es[0]);
      StepKeeps(w, es[0]);
      StepAdvances(w, es[0], k);
      if w'.sys.active != t {
        var i: nat :| i <= k && i < |w'.sys.q[READY]| && w'.sys.q[READY][i] == t
          && (if es[0].ETick? then Delay(w'.sys, i) < Delay(w.sys, k) else Delay(w'.sys, i) <= Delay(w.sys, k));
        WaitsAtMostDelay(w', es[1..], i);
      }
    }
  }

  /** A task at index `k` of the ready list runs within 5 * (k + 1) delivered ticks. */
  lemma BoundedWaiting(w: World, es: seq<Event>, k: nat)
    requires Inv(w) && Runs(w, es) && k < |w.sys.q[READY]| && Ticks(es) >= NTICKS * (k + 1)
    ensures GetsCpu(w, es, w.sys.q[READY][k])
  {
    assert PcOk(w.sys.active, w.sys.tcb[w.sys.active], Me(w));
    WaitsAtMostDelay(w, es, k);
  }
}
