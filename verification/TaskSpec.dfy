/**
 * The scheduler of kernel/task.c as functions on values: one function per C routine,
 * same branches, same order of effects. `Tasks.Scheduler` (Tasks.dfy) is the in-place
 * version over linked task blocks and is proved equal to these functions;
 * `TaskRuns` interleaves them and proves what every run keeps.
 */
module TaskSpec {
  import opened Util

  const READY := 0
  const RUNNING := 1
  const PAUSED := 2
  const SLEEPING := 3
  const TERMINATED := 4
  const SIGNALED := 5
  const PWAIT := 6
  const NSTATES := 7

  const NTICKS := 5
  const NTASKS := 128
  const TICK_NS := 1_000_000              // 1000000000 / FREQ_HZ with FREQ_HZ == 1000
  const CLOCK_MOD := 0x1_0000_0000_0000_0000 // timens is a 64-bit counter
  const ECW_EXITED := 0x100
  const ECW_TIMEOUT := 0x200
  const KTASK := 0                        // the kernel task is the first one created

  type Pid = nat
  type State = n: nat | n < NSTATES
  type Lists = q: seq<seq<Pid>> | |q| == NSTATES witness seq(NSTATES, i => [])
  type Results = r: seq<int> | |r| == NTASKS witness seq(NTASKS, i => 0)

  /** Where a task that is not on the CPU continues: the return address on its saved stack. */
  datatype Resume = Entry | InBlock | InUnlockPost

  datatype Tcb = Tcb(state: State, waketime: nat, nticks: nat, res: Option<nat>,
                     pwait: int, wstatus: int, exitcode: int, resume: Resume)

  /** `tcb` is the task map (a free id is absent), `q` the seven lists by state. */
  datatype Sys = Sys(tcb: map<Pid, Tcb>, q: Lists, active: Pid, now: nat, held: set<nat>,
                     taskres: Results, ncli: nat, npost: nat, postponed: bool)

  const FRESH: Tcb := Tcb(READY, 0, NTICKS, None, 0, 0, 0, Entry)

  /** After task_init only the kernel task exists, and it runs. */
  function Initial(): Sys {
    Sys(map[KTASK := FRESH.(state := RUNNING, resume := InUnlockPost)],
        [[], [], [], [], [], [], []], KTASK, 0, {}, seq(NTASKS, i => 0), 0, 0, false)
  }

  // ---------- locks ----------

  function LockCli(s: Sys): Sys { s.(ncli := s.ncli + 1) }

  function UnlockCli(s: Sys): Sys
    requires s.ncli > 0
  {
    s.(ncli := s.ncli - 1)
  }

  function LockPost(s: Sys): Sys { s.(ncli := s.ncli + 1, npost := s.npost + 1) }

  // ---------- switching ----------

  /** task_switch: the precondition is the lock discipline every call site must meet. */
  function Switch(s: Sys, next: Pid): Sys
    requires s.ncli == 1 && s.npost == 0
  {
    s.(active := next)
  }

  function ToBack(s: Sys): Sys
    requires s.active in s.tcb
  {
    s.(q := s.q[READY := s.q[READY] + [s.active]],
       tcb := s.tcb[s.active := s.tcb[s.active].(state := READY, nticks := NTICKS)])
  }

  function PopReady(s: Sys): Sys
    requires s.q[READY] != [] && s.q[READY][0] in s.tcb
  {
    var next := s.q[READY][0];
    s.(q := s.q[READY := s.q[READY][1..]],
       tcb := s.tcb[next := s.tcb[next].(state := RUNNING, nticks := NTICKS)])
  }

  predicate CanSchedule(s: Sys) {
    && s.active in s.tcb
    && (s.q[READY] != [] ==> s.q[READY][0] in s.tcb)
    && (s.npost == 0 && s.q[READY] != [] ==> s.ncli == 1)
  }

  function Schedule(s: Sys): Sys
    requires CanSchedule(s)
  {
    if s.npost > 0 then s.(postponed := true)
    else if s.q[READY] == [] then s
    else
      var next := s.q[READY][0];
      var s1 := PopReady(s);
      var s2 := if s1.tcb[s1.active].state == RUNNING then ToBack(s1) else s1;
      Switch(s2, next)
  }

  /** The return address pushed by the call to task_schedule. */
  function Calling(s: Sys, at: Resume): Sys
    requires s.active in s.tcb
  {
    s.(tcb := s.tcb[s.active := s.tcb[s.active].(resume := at)])
  }

  /** What the task now on the CPU does first: the tail of task_block or task_unlockpost
      drops the lock; a task entered for the first time still holds it. */
  function Leave(s: Sys): Sys
    requires s.active in s.tcb && s.ncli > 0
  {
    if s.tcb[s.active].resume == Entry then s else UnlockCli(s)
  }

  // ---------- block and unblock ----------

  function Park(s: Sys, reason: State): Sys
    requires s.active in s.tcb
  {
    s.(tcb := s.tcb[s.active := s.tcb[s.active].(state := reason)],
       q := s.q[reason := s.q[reason] + [s.active]])
  }

  predicate CanBlock(s: Sys, reason: State) {
    && s.active in s.tcb && s.ncli == 0 && s.npost == 0
    && (forall x :: x in s.q[READY] ==> x in s.tcb)
  }

  function Block(s: Sys, reason: State): Sys
    requires CanBlock(s, reason)
  {
    Leave(Schedule(Calling(Park(LockCli(s), reason), InBlock)))
  }

  /** Task `t` leaves list `from` for the end of the ready list. */
  function MakeReady(s: Sys, t: Pid, from: State): Sys
    requires t in s.tcb
  {
    var q1 := s.q[from := Remove(s.q[from], t)];
    s.(q := q1[READY := q1[READY] + [t]], tcb := s.tcb[t := s.tcb[t].(state := READY)])
  }

  /** task_unblock, which is only called while task switches are postponed. */
  function Unblock(s: Sys, t: Pid): Sys
    requires t in s.tcb && s.npost > 0 && s.active in s.tcb
  {
    if t == s.active || s.tcb[t].state == READY then s
    else
      var s1 := MakeReady(s, t, s.tcb[t].state);
      if s.q[READY] == [] then s1.(postponed := true) else s1
  }

  // ---------- the timer interrupt ----------

  ghost predicate Awake(s: Sys, l: seq<Pid>) {
    s.npost > 0 && s.active in s.tcb && forall x :: x in l ==> x in s.tcb
  }

  function StepSleeper(s: Sys, t: Pid): Sys
    requires Awake(s, [t])
  {
    assert t in [t];
    if s.now >= s.tcb[t].waketime
    then Unblock(s.(tcb := s.tcb[t := s.tcb[t].(waketime := 0)]), t)
    else s
  }

  predicate IsHeld(s: Sys, busy: set<nat>, n: nat) { n in s.held || n in busy }

  function StepPaused(s: Sys, busy: set<nat>, t: Pid): Sys
    requires Awake(s, [t])
  {
    assert t in [t];
    var r := s.tcb[t].res;
    if r.Some? && !IsHeld(s, busy, r.value)
    then Unblock(s.(held := s.held + {r.value}), t)
    else s
  }

  function StepSignaled(s: Sys, t: Pid): Sys
    requires Awake(s, [t])
  {
    assert t in [t];
    Unblock(s, t)
  }

  /** `res | ECW_EXITED` on a non-negative result. */
  function OrExited(res: int): int {
    if (res / ECW_EXITED) % 2 == 1 then res else res + ECW_EXITED
  }

  function ResultOf(s: Sys, pid: int): int {
    OrExited(if 0 <= pid < NTASKS then s.taskres[pid] else 0)
  }

  predicate Gone(s: Sys, pid: int) {
    pid < 0 || pid >= NTASKS || pid !in s.tcb || s.tcb[pid].state == TERMINATED
  }

  function Wake(s: Sys, t: Pid, waketime: nat, wstatus: int): Sys
    requires Awake(s, [t])
  {
    assert t in [t];
    Unblock(s.(tcb := s.tcb[t := s.tcb[t].(waketime := waketime, wstatus := wstatus)]), t)
  }

  function StepPwaiter(s: Sys, t: Pid): Sys
    requires Awake(s, [t])
  {
    assert t in [t];
    var c := s.tcb[t];
    if c.waketime != 0 && s.now >= c.waketime then Wake(s, t, 0, ECW_TIMEOUT)
    else if Gone(s, c.pwait) then Wake(s, t, c.waketime, ResultOf(s, c.pwait))
    else s
  }

  /** Which of the four wake-up loops; `busy` is what the nodes' own isheld hooks report. */
  datatype Loop = Sleepers | Paused(busy: set<nat>) | Signaled | Pwaiters

  function StepLoop(s: Sys, k: Loop, t: Pid): (r: Sys)
    requires Awake(s, [t])
    ensures r.tcb.Keys == s.tcb.Keys && r.npost == s.npost && r.active == s.active
  {
    assert t in [t];
    match k
    case Sleepers => StepSleeper(s, t)
    case Paused(busy) => StepPaused(s, busy, t)
    case Signaled => StepSignaled(s, t)
    case Pwaiters => StepPwaiter(s, t)
  }

  function ListOf(k: Loop): State {
    match k
    case Sleepers => SLEEPING
    case Paused(_) => PAUSED
    case Signaled => SIGNALED
    case Pwaiters => PWAIT
  }

  /** The loop visits the tasks `l` that were queued when it started, each exactly once. */
  function WakeAll(s: Sys, k: Loop, l: seq<Pid>): (r: Sys)
    requires Awake(s, l)
    ensures r.tcb.Keys == s.tcb.Keys && r.npost == s.npost && r.active == s.active
    decreases |l|
  {
    if l == [] then s else WakeAll(StepLoop(s, k, l[0]), k, l[1..])
  }

  function EndSlice(s: Sys): Sys
    requires s.active in s.tcb && s.npost > 0
  {
    var n := s.tcb[s.active].nticks;
    var s1 := if n == 0 then s else s.(tcb := s.tcb[s.active := s.tcb[s.active].(nticks := n - 1)]);
    if n <= 1 then s1.(postponed := true) else s1
  }

  predicate CanUnlockPost(s: Sys) {
    && s.active in s.tcb && s.ncli == 1 && s.npost == 1
    && (forall x :: x in s.q[READY] ==> x in s.tcb)
  }

  function UnlockPost(s: Sys): Sys
    requires CanUnlockPost(s)
  {
    var s1 := Calling(s.(npost := 0), InUnlockPost);
    Leave(if s1.postponed then Schedule(s1.(postponed := false)) else s1)
  }

  // ---------- well-formed systems ----------

  /** The seven lists partition the tasks; the running task is on none of them. */
  ghost predicate WF(s: Sys) {
    && s.active in s.tcb && s.tcb[s.active].state == RUNNING
    && s.q[RUNNING] == []
    && (forall l, i :: 0 <= l < NSTATES && 0 <= i < |s.q[l]| ==>
          s.q[l][i] in s.tcb && s.tcb[s.q[l][i]].state == l)
    && (forall l :: 0 <= l < NSTATES ==> NoDup(s.q[l]))
    && (forall t :: t in s.tcb ==> t == s.active || t in s.q[s.tcb[t].state])
    && (forall t :: t in s.tcb ==> t < NTASKS)
    && KTASK in s.tcb && s.tcb[KTASK].state in {READY, RUNNING}
  }

  /** List `l` holds exactly the waiting tasks in that state. */
  ghost predicate Rolled(s: Sys, l: State) {
    NoDup(s.q[l]) && forall x :: x in s.q[l] <==> x in s.tcb && x != s.active && s.tcb[x].state == l
  }

  lemma WFLists(s: Sys)
    requires WF(s)
    ensures forall l: State :: Rolled(s, l)
  {
  }

  lemma ListsWF(s: Sys)
    requires s.active in s.tcb && s.tcb[s.active].state == RUNNING && s.q[RUNNING] == []
    requires forall l: State :: Rolled(s, l)
    requires (forall t :: t in s.tcb ==> t < NTASKS) && KTASK in s.tcb && s.tcb[KTASK].state in {READY, RUNNING}
    ensures WF(s)
  {
    forall t | t in s.tcb && t != s.active ensures t in s.q[s.tcb[t].state] {
      assert Rolled(s, s.tcb[t].state);
    }
    forall l, i | 0 <= l < NSTATES && 0 <= i < |s.q[l]| ensures s.q[l][i] in s.tcb && s.tcb[s.q[l][i]].state == l {
      assert Rolled(s, l) && s.q[l][i] in s.q[l];
    }
    forall l | 0 <= l < NSTATES ensures NoDup(s.q[l]) { assert Rolled(s, l); }
  }

  lemma AddLast(l: seq<Pid>, t: Pid)
    requires NoDup(l) && t !in l
    ensures NoDup(l + [t]) && forall x :: x in l + [t] <==> x in l || x == t
  {
    assert (l + [t])[|l|] == t;
  }

  lemma WithoutOne(l: seq<Pid>, t: Pid)
    requires NoDup(l)
    ensures NoDup(Remove(l, t)) && forall x :: x in Remove(l, t) <==> x in l && x != t
  {
    RemoveNoDup(l, t);
  }

  lemma MakeReadyWF(s: Sys, t: Pid)
    requires WF(s) && t in s.tcb && t != s.active && s.tcb[t].state != READY
    ensures WF(MakeReady(s, t, s.tcb[t].state))
  {
    hide Remove, IndexOf, NoDup, WF;
    var st, r := s.tcb[t].state, MakeReady(s, t, s.tcb[t].state);
    WFLists(s);
    WFRest(s);
    assert Rolled(s, READY) && Rolled(s, st);
    WithoutOne(s.q[st], t);
    AddLast(s.q[READY], t);
    forall l: State ensures Rolled(r, l) {
      assert Rolled(s, l);
    }
    ListsWF(r);
  }

  lemma WFRest(s: Sys)
    requires WF(s)
    ensures s.active in s.tcb && s.tcb[s.active].state == RUNNING && s.q[RUNNING] == []
    ensures (forall t :: t in s.tcb ==> t < NTASKS) && KTASK in s.tcb && s.tcb[KTASK].state in {READY, RUNNING}
    ensures forall t :: t in s.tcb && t != s.active ==> s.tcb[t].state != RUNNING
  {
  }

  lemma UnblockWF(s: Sys, t: Pid)
    requires WF(s) && s.npost > 0 && t in s.tcb
    ensures WF(Unblock(s, t))
  {
    if t != s.active && s.tcb[t].state != READY { MakeReadyWF(s, t); }
  }

  lemma ActiveIn(s: Sys)
    requires WF(s)
    ensures s.active in s.tcb
  {
  }

  /** Fields other than the state are free. */
  lemma FieldsWF(s: Sys, t: Pid, c: Tcb, h: set<nat>)
    requires WF(s) && t in s.tcb && c.state == s.tcb[t].state
    ensures WF(s.(tcb := s.tcb[t := c])) && WF(s.(held := h))
  {
  }

  lemma StepLoopWF(s: Sys, k: Loop, t: Pid)
    requires WF(s) && s.npost > 0 && t in s.tcb
    ensures s.active in s.tcb && WF(StepLoop(s, k, t))
  {
    hide WF, Unblock, ResultOf, Gone, NoDup;
    ActiveIn(s);
    assert Awake(s, [t]);
    var c := s.tcb[t];
    match k
    case Sleepers =>
      FieldsWF(s, t, c.(waketime := 0), s.held);
      UnblockWF(s.(tcb := s.tcb[t := c.(waketime := 0)]), t);
    case Paused(busy) =>
      if c.res.Some? {
        FieldsWF(s, t, c, s.held + {c.res.value});
        UnblockWF(s.(held := s.held + {c.res.value}), t);
      }
    case Signaled => UnblockWF(s, t);
    case Pwaiters =>
      FieldsWF(s, t, c.(waketime := 0, wstatus := ECW_TIMEOUT), s.held);
      FieldsWF(s, t, c.(waketime := c.waketime, wstatus := ResultOf(s, c.pwait)), s.held);
      UnblockWF(s.(tcb := s.tcb[t := c.(waketime := 0, wstatus := ECW_TIMEOUT)]), t);
      UnblockWF(s.(tcb := s.tcb[t := c.(waketime := c.waketime, wstatus := ResultOf(s, c.pwait))]), t);
  }

  lemma {:induction false} WakeAllWF(s: Sys, k: Loop, l: seq<Pid>)
    requires WF(s) && Awake(s, l)
    ensures WF(WakeAll(s, k, l))
    decreases |l|
  {
    if l != [] {
      assert Awake(s, [l[0]]);
      StepLoopWF(s, k, l[0]);
      WakeAllWF(StepLoop(s, k, l[0]), k, l[1..]);
    }
  }

  /** What no wake-up step changes. */
  ghost predicate Frame(s: Sys, r: Sys, k: Loop) {
    && r.now == s.now && r.taskres == s.taskres && r.ncli == s.ncli
    && s.held <= r.held && (!k.Paused? ==> r.held == s.held)
    && s.q[READY] <= r.q[READY]
  }

  lemma StepLoopFrame(s: Sys, k: Loop, t: Pid)
    requires WF(s) && Awake(s, [t])
    ensures var r := StepLoop(s, k, t);
      Frame(s, r, k) && (forall u :: u in s.tcb && u != t ==> r.tcb[u] == s.tcb[u])
  {
    hide WF, Remove, IndexOf, OrExited, ResultOf, Gone;
    assert t in [t];
  }

  lemma {:induction false} WakeAllFrame(s: Sys, k: Loop, l: seq<Pid>)
    requires WF(s) && Awake(s, l)
    ensures var r := WakeAll(s, k, l);
      Frame(s, r, k) && (forall u :: u in s.tcb && u !in l ==> r.tcb[u] == s.tcb[u])
    decreases |l|
  {
    if l != [] {
      assert Awake(s, [l[0]]);
      StepLoopFrame(s, k, l[0]);
      StepLoopWF(s, k, l[0]);
      var s1 := StepLoop(s, k, l[0]);
      WakeAllFrame(s1, k, l[1..]);
      var r := WakeAll(s1, k, l[1..]);
      assert WakeAll(s, k, l) == r;
      forall u | u in s.tcb && u !in l ensures r.tcb[u] == s.tcb[u] {
        assert u !in l[1..] && u != l[0];
      }
    }
  }

  /** One wake-up loop over the list as it stands when the loop starts. */
  function WakeLoop(s: Sys, k: Loop): (r: Sys)
    requires WF(s) && s.npost > 0
    ensures WF(r) && r.ncli == s.ncli && r.npost == s.npost && r.tcb.Keys == s.tcb.Keys && r.active == s.active
  {
    var l := s.q[ListOf(k)];
    assert Awake(s, l);
    WakeAllWF(s, k, l);
    WakeAllFrame(s, k, l);
    WakeAll(s, k, l)
  }

  lemma EndSliceWF(s: Sys)
    requires WF(s) && s.npost > 0
    ensures WF(EndSlice(s)) && EndSlice(s).ncli == s.ncli
  {
  }

  // ---------- the whole interrupt ----------

  function Clock(s: Sys): Sys { LockPost(s).(now := (s.now + TICK_NS) % CLOCK_MOD) }

  /** Time, then the four loops; switches stay postponed throughout. */
  function TickLoops(s: Sys, busy: set<nat>): (r: Sys)
    requires WF(s) && s.npost == 0
    ensures WF(r) && r.ncli == s.ncli + 1 && r.npost == 1
  {
    WakeLoop(WakeLoop(WakeLoop(WakeLoop(Clock(s), Sleepers), Paused(busy)), Signaled), Pwaiters)
  }

  function TickBody(s: Sys, busy: set<nat>): (r: Sys)
    requires WF(s) && s.npost == 0
    ensures WF(r) && r.ncli == s.ncli + 1 && r.npost == 1
  {
    EndSliceWF(TickLoops(s, busy));
    EndSlice(TickLoops(s, busy))
  }

  function Tick(s: Sys, busy: set<nat>): Sys
    requires WF(s) && s.npost == 0 && s.ncli == 0
  {
    UnlockPost(TickBody(s, busy))
  }

  // ---------- what one wake-up loop decides for each task ----------

  /** `c` before and `d` after loop `k` ran with clock, results and targets as in `s`;
      `h` is the set of held nodes afterwards. */
  ghost predicate Decided(s: Sys, k: Loop, c: Tcb, d: Tcb, h: set<nat>) {
    match k
    case Sleepers => d == if s.now >= c.waketime then c.(state := READY, waketime := 0) else c
    case Paused(busy) =>
      || (d == c.(state := READY) && c.res.Some? && c.res.value in h && c.res.value !in s.held + busy)
      || (d == c && (c.res.Some? ==> c.res.value in h + busy))
    case Signaled => d == c.(state := READY)
    case Pwaiters =>
      if c.waketime != 0 && s.now >= c.waketime then d == c.(state := READY, waketime := 0, wstatus := ECW_TIMEOUT)
      else if Gone(s, c.pwait) then d == c.(state := READY, wstatus := ResultOf(s, c.pwait))
      else d == c
  }

  lemma StepLoopDecides(s: Sys, k: Loop, t: Pid)
    requires WF(s) && Awake(s, [t]) && t in s.tcb && s.tcb[t].state == ListOf(k)
    ensures var r := StepLoop(s, k, t);
      Decided(s, k, s.tcb[t], r.tcb[t], r.held) && (forall p :: Gone(r, p) == Gone(s, p))
  {
    assert t != s.active;
  }

  /** Deciding after other tasks were visited is deciding at the start. */
  lemma DecidedLater(s: Sys, s1: Sys, k: Loop, c: Tcb, d: Tcb, h: set<nat>)
    requires s1.now == s.now && s1.taskres == s.taskres && (forall p :: Gone(s1, p) == Gone(s, p))
    requires s.held <= s1.held
    ensures Decided(s1, k, c, d, h) ==> Decided(s, k, c, d, h)
  {
    assert forall p :: ResultOf(s1, p) == ResultOf(s, p);
    assert Gone(s1, c.pwait) == Gone(s, c.pwait);
  }

  /** No task is skipped and none is decided twice. */
  lemma {:induction false} WakeAllDecides(s: Sys, k: Loop, l: seq<Pid>)
    requires WF(s) && s.npost > 0 && NoDup(l)
    requires forall x :: x in l ==> x in s.tcb && s.tcb[x].state == ListOf(k)
    ensures Awake(s, l)
    ensures var r := WakeAll(s, k, l);
      forall u :: u in l ==> Decided(s, k, s.tcb[u], r.tcb[u], r.held)
    decreases |l|
  {
    if l != [] {
      var t := l[0];
      assert Awake(s, [t]) && Awake(s, l);
      var s1 := StepLoop(s, k, t);
      StepLoopWF(s, k, t);
      StepLoopFrame(s, k, t);
      StepLoopDecides(s, k, t);
      assert t !in l[1..];
      forall x | x in l[1..] ensures x in s1.tcb && s1.tcb[x].state == ListOf(k) {
        assert x in l && x != t;
      }
      WakeAllDecides(s1, k, l[1..]);
      WakeAllFrame(s1, k, l[1..]);
      var r := WakeAll(s1, k, l[1..]);
      assert r == WakeAll(s, k, l);
      forall u | u in l ensures Decided(s, k, s.tcb[u], r.tcb[u], r.held) {
        if u != t {
          assert u in l[1..] && s1.tcb[u] == s.tcb[u];
          DecidedLater(s, s1, k, s.tcb[u], r.tcb[u], r.held);
        } else {
          DecidedGrows(s, k, s.tcb[t], s1.tcb[t], s1.held, r.held);
        }
      }
    }
  }

  lemma DecidedGrows(s: Sys, k: Loop, c: Tcb, d: Tcb, h: set<nat>, h': set<nat>)
    requires Decided(s, k, c, d, h) && h <= h'
    ensures Decided(s, k, c, d, h')
  {
  }

  /** What loop `k`, taking `s` to `r`, does to task `u`. */
  ghost predicate LoopOn(s: Sys, k: Loop, r: Sys, u: Pid) {
    && u in s.tcb && u in r.tcb
    && if s.tcb[u].state == ListOf(k) then Decided(s, k, s.tcb[u], r.tcb[u], r.held) else r.tcb[u] == s.tcb[u]
  }

  lemma GoneSame(s: Sys, k: Loop, r: Sys)
    requires r.tcb.Keys == s.tcb.Keys && forall u :: u in s.tcb ==> LoopOn(s, k, r, u)
    ensures forall p :: Gone(r, p) == Gone(s, p)
  {
  }

  /** One whole loop: its list is decided, every other task is left alone. */
  lemma WakeLoopDecides(s: Sys, k: Loop)
    requires WF(s) && s.npost > 0
    ensures Looped(s, k, WakeLoop(s, k))
  {
    hide StepLoop, WakeAll, Decided, NoDup, Frame, Gone;
    var l := s.q[ListOf(k)];
    assert Awake(s, l);
    WakeAllDecides(s, k, l);
    WakeAllFrame(s, k, l);
    forall u | u in s.tcb && s.tcb[u].state == ListOf(k) ensures u in l {
      assert u != s.active;
    }
    GoneSame(s, k, WakeLoop(s, k));
  }

  // ---------- the effect of one tick ----------

  /** What a task can be turned into by other tasks' blocks and by ticks. */
  ghost predicate Moved(c: Tcb, d: Tcb) {
    && d.res == c.res && d.pwait == c.pwait && d.exitcode == c.exitcode
    && (d.resume == Entry <==> c.resume == Entry)
    && (d.state == c.state || d.state in {READY, RUNNING})
    && (c.state == TERMINATED ==> d.state == TERMINATED)
    && (c.state in {READY, RUNNING} ==> d.wstatus == c.wstatus && d.waketime == c.waketime)
    && (c.state !in {READY, RUNNING} && d.state == c.state ==> d == c)
    && (c.nticks <= NTICKS ==> d.nticks <= NTICKS)
  }

  /** The part of a tick's outcome that the timers, nodes and exits depend on. */
  ghost predicate TickOutcome(s: Sys, busy: set<nat>, r: Sys, u: Pid)
    requires u in s.tcb && u in r.tcb
  {
    var c, d := s.tcb[u], r.tcb[u];
    && Moved(c, d)
    && (c.state == SLEEPING ==> (d.state == SLEEPING <==> r.now < c.waketime) && (d.state == SLEEPING ==> d == c))
    && (c.state == PAUSED && c.res.Some? ==>
          if d.state == PAUSED then c.res.value in r.held + busy
          else c.res.value in r.held && c.res.value !in s.held + busy)
    && (c.state == SIGNALED ==> d.state != SIGNALED)
    && (c.state == PWAIT ==>
          if c.waketime != 0 && r.now >= c.waketime then d.state != PWAIT && d.wstatus == ECW_TIMEOUT
          else if Gone(s, c.pwait) then d.state != PWAIT && d.wstatus == ResultOf(s, c.pwait)
          else d == c)
  }

  lemma OneTaskOutcome(s: Sys, busy: set<nat>, s0: Sys, s1: Sys, s2: Sys, s3: Sys, s4: Sys, u: Pid)
    requires u in s.tcb && s0.tcb == s.tcb && s.taskres == s0.taskres && s.held == s0.held
    requires LoopOn(s0, Sleepers, s1, u) && Frame(s0, s1, Sleepers)
    requires LoopOn(s1, Paused(busy), s2, u) && Frame(s1, s2, Paused(busy))
    requires LoopOn(s2, Signaled, s3, u) && Frame(s2, s3, Signaled)
    requires LoopOn(s3, Pwaiters, s4, u) && Frame(s3, s4, Pwaiters)
    requires forall p :: Gone(s3, p) == Gone(s, p)
    ensures TickOutcome(s, busy, s4, u)
    ensures s4.tcb[u].nticks == s.tcb[u].nticks && s4.tcb[u].resume == s.tcb[u].resume
  {
    var c := s.tcb[u];
    assert s3.taskres == s.taskres && s4.held == s2.held && s3.now == s4.now;
    assert ResultOf(s3, c.pwait) == ResultOf(s, c.pwait);
    assert Gone(s3, c.pwait) == Gone(s, c.pwait);
  }

  /** Loop `k` takes `s` to `r`. */
  ghost predicate Looped(s: Sys, k: Loop, r: Sys) {
    && r.tcb.Keys == s.tcb.Keys && r.active == s.active && Frame(s, r, k)
    && (forall u :: u in s.tcb ==> LoopOn(s, k, r, u))
    && (forall p :: Gone(r, p) == Gone(s, p))
  }

  /** The part of the outcome that concerns the whole system. */
  ghost predicate Outcome(s: Sys, busy: set<nat>, r: Sys) {
    && r.tcb.Keys == s.tcb.Keys && r.active == s.active && r.taskres == s.taskres && s.held <= r.held
    && r.now == (s.now + TICK_NS) % CLOCK_MOD
    && s.q[READY] <= r.q[READY]
    && (forall u :: u in s.tcb ==> TickOutcome(s, busy, r, u))
    && (forall u :: u in s.tcb && u != s.active ==>
         r.tcb[u].nticks == s.tcb[u].nticks && r.tcb[u].resume == s.tcb[u].resume)
  }

  lemma LoopsChain(s: Sys, busy: set<nat>, s0: Sys, s1: Sys, s2: Sys, s3: Sys, s4: Sys)
    requires s0 == Clock(s)
    requires Looped(s0, Sleepers, s1) && Looped(s1, Paused(busy), s2) && Looped(s2, Signaled, s3)
    requires Looped(s3, Pwaiters, s4)
    ensures Outcome(s, busy, s4)
    ensures s.active in s.tcb ==> s4.tcb[s.active].nticks == s.tcb[s.active].nticks
  {
    forall p ensures Gone(s3, p) == Gone(s, p) {
      assert Gone(s0, p) == Gone(s, p) && Gone(s1, p) == Gone(s0, p) && Gone(s2, p) == Gone(s1, p);
    }
    forall u | u in s.tcb
      ensures TickOutcome(s, busy, s4, u)
      ensures s4.tcb[u].nticks == s.tcb[u].nticks && s4.tcb[u].resume == s.tcb[u].resume
    {
      OneTaskOutcome(s, busy, s0, s1, s2, s3, s4, u);
    }
  }

  lemma TickLoopsOutcome(s: Sys, busy: set<nat>)
    requires WF(s) && s.npost == 0
    ensures Outcome(s, busy, TickLoops(s, busy))
    ensures TickLoops(s, busy).tcb[s.active].nticks == s.tcb[s.active].nticks
  {
    var s0 := Clock(s);
    assert WF(s0);
    WakeLoopDecides(s0, Sleepers);
    var s1 := WakeLoop(s0, Sleepers);
    WakeLoopDecides(s1, Paused(busy));
    var s2 := WakeLoop(s1, Paused(busy));
    WakeLoopDecides(s2, Signaled);
    var s3 := WakeLoop(s2, Signaled);
    WakeLoopDecides(s3, Pwaiters);
    var s4 := WakeLoop(s3, Pwaiters);
    LoopsChain(s, busy, s0, s1, s2, s3, s4);
  }

  /** Ending the slice touches one counter. */
  lemma EndSliceOutcome(s: Sys, busy: set<nat>, m: Sys)
    requires Outcome(s, busy, m) && s.active in s.tcb && s.tcb[s.active].state == RUNNING && m.npost > 0
    ensures Outcome(s, busy, EndSlice(m))
  {
    hide Gone, ResultOf, OrExited;
    var r := EndSlice(m);
    assert TickOutcome(s, busy, m, s.active);
    forall u | u in s.tcb ensures TickOutcome(s, busy, r, u) {
      assert TickOutcome(s, busy, m, u);
    }
  }

  lemma TickBodyOutcome(s: Sys, busy: set<nat>)
    requires WF(s) && s.npost == 0
    ensures Outcome(s, busy, TickBody(s, busy))
  {
    TickLoopsOutcome(s, busy);
    EndSliceOutcome(s, busy, TickLoops(s, busy));
  }

  // ---------- switching away ----------

  /** The lock state between steps: held only by a task that was just entered. */
  ghost predicate Settled(s: Sys) {
    && s.active in s.tcb && s.npost == 0 && !s.postponed
    && s.ncli == (if s.tcb[s.active].resume == Entry then 1 else 0)
  }

  function LockFor(s: Sys): nat
    requires s.active in s.tcb
  {
    if s.tcb[s.active].resume == Entry then 1 else 0
  }

  /** `t` takes the CPU from the active task, which keeps record `c` and moves to list `l`. */
  function HandOver(s: Sys, c: Tcb, l: State): Sys
    requires s.q[READY] != []
  {
    var a, t, q1 := s.active, s.q[READY][0], s.q[READY := s.q[READY][1..]];
    var next := if t in s.tcb then s.tcb[t].(state := RUNNING, nticks := NTICKS) else c;
    var r := s.(tcb := s.tcb[a := c.(state := l)][t := next], q := q1[l := q1[l] + [a]], active := t, npost := 0,
      postponed := false);
    r.(ncli := LockFor(r))
  }

  lemma HandOverWF(s: Sys, c: Tcb, l: State)
    requires WF(s) && s.q[READY] != [] && l != RUNNING && (s.active == KTASK ==> l == READY)
    ensures WF(HandOver(s, c, l)) && Settled(HandOver(s, c, l))
    ensures s.q[READY][0] in s.tcb && s.q[READY][0] != s.active
  {
    hide NoDup, WF;
    var a, t, r := s.active, s.q[READY][0], HandOver(s, c, l);
    WFLists(s);
    WFRest(s);
    assert Rolled(s, READY) && Rolled(s, l);
    FirstOff(s.q[READY]);
    var q1 := s.q[READY := s.q[READY][1..]];
    AddLast(q1[l], a);
    forall x: State ensures Rolled(r, x) {
      assert Rolled(s, x);
    }
    ListsWF(r);
  }

  lemma FirstOff(l: seq<Pid>)
    requires NoDup(l) && l != []
    ensures NoDup(l[1..]) && l[0] in l && forall x :: x in l[1..] <==> x in l && x != l[0]
  {
    assert l == [l[0]] + l[1..];
  }

  lemma KernelReady(s: Sys)
    requires WF(s) && s.active != KTASK
    ensures s.q[READY] != []
  {
    assert s.tcb[KTASK].state == READY;
  }

  /** A blocking task really gives up the CPU, because the kernel task is always ready. */
  lemma BlockSwitches(s: Sys, reason: State)
    requires WF(s) && s.active != KTASK && reason !in {READY, RUNNING}
    requires s.ncli == 0 && s.npost == 0 && !s.postponed
    ensures s.q[READY] != [] && CanBlock(s, reason)
    ensures Block(s, reason) == HandOver(s, s.tcb[s.active].(resume := InBlock), reason)
    ensures WF(Block(s, reason)) && Settled(Block(s, reason)) && Block(s, reason).active != s.active
  {
    KernelReady(s);
    HandOverWF(s, s.tcb[s.active].(resume := InBlock), reason);
    var p := Park(LockCli(s), reason);
    assert p.q[READY] == s.q[READY];
    assert forall x :: x in s.q[READY] ==> x in s.tcb;
    BlockIsHandOver(s, reason);
  }

  lemma BlockIsHandOver(s: Sys, reason: State)
    requires CanBlock(s, reason) && !s.postponed && reason !in {READY, RUNNING}
    requires s.q[READY] != [] && s.q[READY][0] != s.active
    ensures Block(s, reason) == HandOver(s, s.tcb[s.active].(resume := InBlock), reason)
  {
    var r, h := Block(s, reason), HandOver(s, s.tcb[s.active].(resume := InBlock), reason);
    assert r.tcb == h.tcb;
    assert r.q == h.q;
  }

  /** The end of the interrupt: either nobody moves, or the first ready task takes the CPU
      and the interrupted one goes to the back with a full slice. */
  function AfterTick(m: Sys): Sys
    requires m.active in m.tcb && m.ncli > 0
  {
    var c := m.tcb[m.active].(resume := InUnlockPost);
    if m.postponed && m.q[READY] != [] then HandOver(m, c.(nticks := NTICKS), READY)
    else m.(tcb := m.tcb[m.active := c], ncli := m.ncli - 1, npost := 0, postponed := false)
  }

  lemma UnlockPostSwitches(m: Sys)
    requires WF(m) && m.ncli == 1 && m.npost == 1
    ensures CanUnlockPost(m) && UnlockPost(m) == AfterTick(m) && WF(AfterTick(m)) && Settled(AfterTick(m))
  {
    assert forall x :: x in m.q[READY] ==> x in m.tcb;
    var c := m.tcb[m.active].(resume := InUnlockPost, nticks := NTICKS);
    if m.postponed && m.q[READY] != [] {
      HandOverWF(m, c, READY);
      UnlockPostIsHandOver(m);
    } else {
      assert UnlockPost(m).tcb == AfterTick(m).tcb;
    }
  }

  lemma UnlockPostIsHandOver(m: Sys)
    requires CanUnlockPost(m) && m.postponed && m.tcb[m.active].state == RUNNING
    requires m.q[READY] != [] && m.q[READY][0] != m.active
    ensures UnlockPost(m) == HandOver(m, m.tcb[m.active].(resume := InUnlockPost, nticks := NTICKS), READY)
  {
    var r, h := UnlockPost(m), HandOver(m, m.tcb[m.active].(resume := InUnlockPost, nticks := NTICKS), READY);
    assert r.tcb == h.tcb;
    assert r.q == h.q;
  }

  /** The outcome of a whole tick, switch included. */
  ghost predicate TickEnds(s: Sys, busy: set<nat>, r: Sys) {
    && WF(r) && Settled(r)
    && r.tcb.Keys == s.tcb.Keys && r.taskres == s.taskres && s.held <= r.held
    && r.now == (s.now + TICK_NS) % CLOCK_MOD
    && (forall u :: u in s.tcb ==> TickOutcome(s, busy, r, u))
  }

  /** The switch at the end only changes slices, return addresses and READY/RUNNING. */
  lemma AfterTickKeepsOutcome(s: Sys, busy: set<nat>, m: Sys, u: Pid)
    requires u in s.tcb && u in m.tcb && TickOutcome(s, busy, m, u)
    requires m.active in m.tcb && m.ncli > 0 && m.tcb[m.active].resume != Entry && m.tcb[m.active].state == RUNNING
    requires m.q[READY] != [] ==> m.q[READY][0] in m.tcb && m.tcb[m.q[READY][0]].state == READY
    ensures TickOutcome(s, busy, AfterTick(m), u)
  {
    var c, d := m.tcb[u], AfterTick(m).tcb[u];
    assert d == c || c.state in {READY, RUNNING};
  }

  lemma TickTheorem(s: Sys, busy: set<nat>)
    requires WF(s) && s.ncli == 0 && s.npost == 0 && s.tcb[s.active].resume != Entry
    ensures TickEnds(s, busy, Tick(s, busy))
  {
    TickBodyOutcome(s, busy);
    var m := TickBody(s, busy);
    UnlockPostSwitches(m);
    assert TickOutcome(s, busy, m, s.active);
    forall u | u in s.tcb ensures TickOutcome(s, busy, AfterTick(m), u) {
      assert TickOutcome(s, busy, m, u);
      AfterTickKeepsOutcome(s, busy, m, u);
    }
    AfterTickKeys(m);
  }

  lemma AfterTickKeys(m: Sys)
    requires WF(m) && m.ncli > 0
    ensures AfterTick(m).tcb.Keys == m.tcb.Keys
  {
  }

  // ---------- bounded waiting ----------

  /** Ticks until the task at index `k` of the ready list runs, at most. */
  function Delay(s: Sys, k: nat): nat
    requires s.active in s.tcb
  {
    NTICKS * k + if s.tcb[s.active].nticks == 0 then 1 else s.tcb[s.active].nticks
  }

  /** A tick brings every ready task strictly closer to the CPU. */
  lemma TickAdvances(s: Sys, busy: set<nat>, k: nat)
    requires WF(s) && s.ncli == 0 && s.npost == 0 && k < |s.q[READY]|
    ensures Closer(s, k, Tick(s, busy), true)
  {
    TickLoopsOutcome(s, busy);
    EndSliceAdvances(s, k, TickLoops(s, busy));
    UnlockPostSwitches(TickBody(s, busy));
  }

  /** Task number `k` of the ready list of `s` is still waiting in `r`, no longer (or less) than before, or runs. */
  ghost predicate Closer(s: Sys, k: nat, r: Sys, strictly: bool)
    requires s.active in s.tcb && k < |s.q[READY]|
  {
    || r.active == s.q[READY][k]
    || (r.active in r.tcb
        && exists i: nat {:trigger r.q[READY][i]} ::
             (i <= k && i < |r.q[READY]| && r.q[READY][i] == s.q[READY][k]
              && (if strictly then Delay(r, i) < Delay(s, k) else Delay(r, i) <= Delay(s, k))))
  }

  lemma EndSliceAdvances(s: Sys, k: nat, l: Sys)
    requires WF(l) && s.active in s.tcb && k < |s.q[READY]| && s.q[READY] <= l.q[READY] && l.active == s.active
    requires l.tcb[l.active].nticks == s.tcb[s.active].nticks && l.npost > 0 && l.ncli > 0
    ensures Closer(s, k, AfterTick(EndSlice(l)), true)
  {
    var m := EndSlice(l);
    var r, t := AfterTick(m), s.q[READY][k];
    assert l.q[READY][k] == t;
    if m.postponed {
      assert m.q[READY] != [];
      if k > 0 { assert r.q[READY][k-1] == t; }
    } else {
      assert r.q[READY][k] == t;
    }
  }

  /** Blocking never makes a ready task wait longer. */
  lemma BlockAdvances(s: Sys, reason: State, k: nat)
    requires WF(s) && s.active != KTASK && reason !in {READY, RUNNING}
    requires s.ncli == 0 && s.npost == 0 && !s.postponed && k < |s.q[READY]|
    ensures CanBlock(s, reason) && Closer(s, k, Block(s, reason), false)
  {
    BlockSwitches(s, reason);
    var r := Block(s, reason);
    assert r.q[READY] == s.q[READY][1..];
    if k > 0 { assert r.q[READY][k-1] == s.q[READY][k]; }
  }

  // ---------- creating and removing tasks ----------

  /** The first id not below `i` whose slot is empty, or NTASKS. */
  function FreeId(m: map<Pid, Tcb>, i: nat): (id: nat)
    requires i <= NTASKS
    ensures i <= id <= NTASKS && (id < NTASKS ==> id !in m)
    ensures forall j :: i <= j < id ==> j in m
    decreases NTASKS - i
  {
    if i < NTASKS && i in m then FreeId(m, i + 1) else i
  }

  /** task_new; the id found equals NTASKS when the map is full, and then nothing changes. */
  function NewTask(s: Sys): Sys {
    var id := FreeId(s.tcb, 0);
    if id >= NTASKS then s
    else s.(tcb := s.tcb[id := FRESH], q := s.q[READY := s.q[READY] + [id]])
  }

  lemma NewTaskWF(s: Sys)
    requires WF(s)
    ensures WF(NewTask(s))
  {
    var id, r := FreeId(s.tcb, 0), NewTask(s);
    if id < NTASKS {
      forall u | u in r.tcb ensures u == r.active || u in r.q[r.tcb[u].state] {
        if u == id { assert r.q[READY][|s.q[READY]|] == id; }
      }
    }
  }

  /** One turn of the loop in task_cleanup. */
  function Reap(s: Sys): Sys
    requires s.q[TERMINATED] != []
  {
    s.(tcb := s.tcb - {s.q[TERMINATED][0]}, q := s.q[TERMINATED := s.q[TERMINATED][1..]])
  }

  function Cleanup(s: Sys): Sys
    decreases |s.q[TERMINATED]|
  {
    if s.q[TERMINATED] == [] then s else Cleanup(Reap(s))
  }

  lemma ReapWF(s: Sys)
    requires WF(s) && s.q[TERMINATED] != []
    ensures WF(Reap(s))
  {
    var t, r := s.q[TERMINATED][0], Reap(s);
    assert s.tcb[t].state == TERMINATED;
    forall u | u in r.tcb ensures u == r.active || u in r.q[r.tcb[u].state] {
      if u != r.active && s.tcb[u].state == TERMINATED { assert u in s.q[TERMINATED][1..]; }
    }
    assert forall l: State :: l != TERMINATED ==> r.q[l] == s.q[l];
    assert t !in s.q[TERMINATED][1..];
  }

  /** Cleaning up frees exactly the ids of the terminated tasks. */
  lemma {:induction false} CleanupRemoves(s: Sys)
    requires WF(s)
    ensures var r := Cleanup(s);
      && WF(r) && r == s.(tcb := r.tcb, q := s.q[TERMINATED := []])
      && r.tcb == map u | u in s.tcb && s.tcb[u].state != TERMINATED :: s.tcb[u]
    decreases |s.q[TERMINATED]|
  {
    if s.q[TERMINATED] == [] {
      assert s.q == s.q[TERMINATED := []];
      forall u | u in s.tcb ensures s.tcb[u].state != TERMINATED {}
    } else {
      ReapWF(s);
      CleanupRemoves(Reap(s));
      var t, p, r := s.q[TERMINATED][0], Reap(s), Cleanup(s);
      assert s.tcb[t].state == TERMINATED;
      assert p.q[TERMINATED := []] == s.q[TERMINATED := []];
    }
  }

  // ---------- what system calls do to the active task ----------

  predicate Running(s: Sys) { s.active in s.tcb }

  function Edit(s: Sys, c: Tcb): Sys
    requires Running(s)
  {
    s.(tcb := s.tcb[s.active := c])
  }

  /** The locked part of task_acquire; the caller blocks next when the node is busy. */
  function Acquire(s: Sys, n: nat, busy: set<nat>): Sys
    requires Running(s)
  {
    var s1 := Edit(s, s.tcb[s.active].(res := Some(n)));
    if IsHeld(s, busy, n) then s1 else s1.(held := s.held + {n})
  }

  function Release(s: Sys): Sys
    requires Running(s)
  {
    var r := s.tcb[s.active].res;
    if r.None? then s else Edit(s, s.tcb[s.active].(res := None)).(held := s.held - {r.value})
  }

  /** task_nano_sleep_until up to the block: None when the time is already past. */
  function SleepUntil(s: Sys, waketime: nat): Option<Sys>
    requires Running(s)
  {
    if waketime < s.now then None else Some(Edit(s, s.tcb[s.active].(waketime := waketime)))
  }

  /** task_pwait up to the block: None when the call returns `ResultOf(s, pid)` at once. */
  function PwaitFor(s: Sys, pid: int, timeout: nat): Option<Sys>
    requires Running(s)
  {
    if Gone(s, pid) then None
    else Some(Edit(s, s.tcb[s.active].(pwait := pid, wstatus := 0, waketime := (timeout + s.now) % CLOCK_MOD)))
  }

  /** The unlocked first step of task_terminate. */
  function Leaving(s: Sys, code: int): Sys
    requires Running(s) && s.active < NTASKS
  {
    Edit(s, s.tcb[s.active].(exitcode := code)).(taskres := s.taskres[s.active := code % 256])
  }
}
