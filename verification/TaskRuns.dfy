/**
 * Every signal-free run of the scheduler. A world is the kernel state of TaskSpec plus, per
 * task, how far it is inside a system call, and three history maps keyed by a task's birth
 * number: the verdict its loader wrote, the code it exited with, and (in `pc`) what a
 * creator or waiter saw. An event is one stretch of code between two points where the timer
 * interrupt can arrive; `Tick` is that interrupt.
 */
module TaskRuns {
  import opened Util
  import opened TaskSpec
  import opened TaskOwners

  const DUMMY := 0 // the node elf_load_task serialises its callers with

  datatype Pc =
    | User                                     // outside the calls below
    | ToPause(node: nat)                       // saw a busy node, has yet to block
    | Holding(node: nat)                       // past task_acquire (or queued in it)
    | ToSleep
    | ToWait(target: nat)                      // task_pwait: checked the target, has yet to block
    | Waiting(target: nat)                     // queued while the target's id was still the target's
    | Late                                     // queued too late: the id was already given up
    | Exiting | Exited
    | Loading                                  // created, not yet entered
    | LoadFailed
    | ElfHold | ElfCleared                     // elf_load_task: acquired dummy; cleared `res`
    | ElfSpin(child: Pid, birth: nat)          // created the child, spins on `res`
    | ElfGot(child: Pid, birth: nat, verdict: int)

  datatype World = World(sys: Sys, pc: map<Pid, Pc>, birth: map<Pid, nat>, next: nat,
                         elfres: int, verdict: map<nat, int>, exits: map<nat, int>)

  datatype Event =
    | ETick(busy: set<nat>)
    | ETake(node: nat, busy: set<nat>)         // task_acquire up to its unlock
    | EYield                                   // task_block
    | ERelease
    | ESleep(waketime: nat)
    | EWait(pid: int, timeout: nat)
    | EWaitDone
    | EExit(code: int)
    | EClear | ESpawn | ERead                  // elf_load_task: res = 0; task_new; pres = res
    | ELoad(verdict: int)                      // load_entry in the child, up to its unlock
    | ECleanup
    | EPoke(task: Pid)                         // a channel write hurries a sleeping reader

  function Owner(pc: Pc): Option<nat> {
    match pc
    case Holding(n) => Some(n)
    case ElfHold => Some(DUMMY)
    case ElfCleared => Some(DUMMY)
    case ElfSpin(_, _) => Some(DUMMY)
    case ElfGot(_, _, _) => Some(DUMMY)
    case _ => None
  }

  function Claims(pc: map<Pid, Pc>): Claim {
    map t | t in pc && Owner(pc[t]).Some? :: Owner(pc[t]).value
  }

  // ---------- the invariant ----------

  /** The active task may be interrupted and acts for itself. */
  predicate Free(w: World) { w.sys.ncli == 0 && w.sys.active in w.pc }

  function Me(w: World): Pc
    requires w.sys.active in w.pc
  {
    w.pc[w.sys.active]
  }

  /** A task's record agrees with where it stands in its system call. */
  ghost predicate PcOk(t: Pid, c: Tcb, pc: Pc) {
    && c.nticks <= NTICKS
    && (c.resume == Entry <==> pc == Loading)
    && (t == KTASK ==> pc == User && c.state in {READY, RUNNING})
    && match pc
       case User => c.res == None && c.state in {READY, RUNNING, SLEEPING}
       case ToPause(n) => c.res == Some(n) && c.state in {READY, RUNNING}
       case Holding(n) => n != DUMMY && c.res == Some(n) && c.state in {READY, RUNNING, PAUSED}
       case ElfHold => c.res == Some(DUMMY) && c.state in {READY, RUNNING, PAUSED}
       case ElfCleared => c.res == Some(DUMMY) && c.state in {READY, RUNNING}
       case ElfSpin(_, _) => c.res == Some(DUMMY) && c.state in {READY, RUNNING}
       case ElfGot(_, _, _) => c.res == Some(DUMMY) && c.state in {READY, RUNNING}
       case Waiting(_) => c.res == None && c.state in {READY, RUNNING, PWAIT}
       case Late => c.res == None && c.state in {READY, RUNNING, PWAIT}
       case Exited => c.state == TERMINATED
       case _ => c.res == None && c.state in {READY, RUNNING}
  }

  ghost predicate Shape(w: World) {
    && WF(w.sys) && Settled(w.sys)
    && w.pc.Keys == w.sys.tcb.Keys && w.birth.Keys == w.sys.tcb.Keys
    && (forall t :: t in w.pc ==> PcOk(t, w.sys.tcb[t], w.pc[t]))
  }

  ghost predicate Births(w: World) {
    && (forall t :: t in w.birth ==> w.birth[t] < w.next)
    && (forall t, u :: t in w.birth && u in w.birth && w.birth[t] == w.birth[u] ==> t == u)
    && (forall b :: b in w.verdict ==> b < w.next && w.verdict[b] != 0)
    && (forall b :: b in w.exits ==> b < w.next && 0 <= w.exits[b] < 256)
  }

  /** A task's exit code is recorded once, and stays in the result table while its id is taken. */
  ghost predicate ExitOk(w: World, t: Pid) {
    t in w.pc && t in w.birth ==>
      if w.pc[t] in {Exiting, Exited}
      then t < NTASKS && w.birth[t] in w.exits && w.sys.taskres[t] == w.exits[w.birth[t]]
      else w.birth[t] !in w.exits
  }

  /** The id `p` is still that of the target, or was given up with no tick since. */
  ghost predicate Target(w: World, p: int, b: nat) {
    && 0 <= p < NTASKS
    && ((p in w.birth && w.birth[p] == b)
        || (p !in w.birth && w.sys.active == KTASK && b in w.exits && w.sys.taskres[p] == w.exits[b]))
  }

  ghost predicate WaitOk(w: World, t: Pid) {
    t in w.pc && t in w.sys.tcb && w.pc[t].Waiting? ==>
      var c, b := w.sys.tcb[t], w.pc[t].target;
      if c.state == PWAIT then Target(w, c.pwait, b)
      else c.wstatus == ECW_TIMEOUT || (b in w.exits && c.wstatus == w.exits[b] + ECW_EXITED)
  }

  /** The loader handshake through the one global `res`. */
  ghost predicate ElfOk(w: World, t: Pid) {
    t in w.pc && t in w.birth ==>
      match w.pc[t]
      case Loading => w.birth[t] !in w.verdict && exists u :: u in w.pc && w.pc[u] == ElfSpin(t, w.birth[t])
      case ElfCleared => w.elfres == 0
      case ElfSpin(c, b) =>
        if b in w.verdict then w.elfres == w.verdict[b]
        else w.elfres == 0 && c in w.pc && c in w.birth && w.birth[c] == b && w.pc[c] == Loading
      case ElfGot(_, b, v) => b in w.verdict && w.verdict[b] == v
      case _ => true
  }

  ghost predicate Histories(w: World) {
    forall t :: ExitOk(w, t) && WaitOk(w, t) && ElfOk(w, t)
  }

  ghost predicate Inv(w: World) {
    Shape(w) && Births(w) && OwnInv(w.sys, Claims(w.pc)) && Histories(w)
  }

  // ---------- the events ----------

  ghost predicate Enabled(w: World, e: Event)
    requires Shape(w)
  {
    if e.ELoad? then Me(w) == Loading && e.verdict in {1, -1}
    else
      && Free(w) && Me(w) != Loading
      && var user := w.sys.active != KTASK && Me(w) == User;
         match e
         case ETick(_) => true
         case ETake(_, _) => user
         case EYield => Me(w).ToPause? || Me(w).ToSleep? || Me(w).ToWait? || Me(w).Exiting?
         case ERelease => Me(w).Holding? || Me(w).ElfGot?
         case ESleep(_) => user
         case EWait(_, _) => user
         case EWaitDone => Me(w).Waiting? || Me(w).Late?
         case EExit(_) => user || (Me(w) == LoadFailed && e.code == 0)
         case EClear => Me(w) == ElfHold
         case ESpawn => Me(w) == ElfCleared && FreeId(w.sys.tcb, 0) < NTASKS
         case ERead => Me(w).ElfSpin? && w.elfres != 0
         case ECleanup => w.sys.active == KTASK
         case EPoke(t) => w.sys.active != KTASK && t in w.sys.tcb && w.sys.tcb[t].state == SLEEPING
  }

  function At(w: World, s: Sys, pc: Pc): World { w.(sys := s, pc := w.pc[w.sys.active := pc]) }

  function Reason(pc: Pc): State {
    if pc.ToPause? then PAUSED else if pc.ToSleep? then SLEEPING else if pc.ToWait? then PWAIT else TERMINATED
  }

  /** Where a task stands once it is queued. */
  function Queued(w: World): Pc
    requires w.sys.active in w.pc && w.sys.active in w.sys.tcb
  {
    var p := w.sys.tcb[w.sys.active].pwait;
    match Me(w)
    case ToPause(n) => if n == DUMMY then ElfHold else Holding(n)
    case ToSleep => User
    case ToWait(b) => if 0 <= p < NTASKS && p in w.birth && w.birth[p] == b then Waiting(b) else Late
    case _ => Exited
  }

  ghost function Yield(w: World): World
    requires Shape(w) && Enabled(w, EYield)
  {
    BlockSwitches(w.sys, Reason(Me(w)));
    At(w, Block(w.sys, Reason(Me(w))), Queued(w))
  }

  function Spawn(w: World): World
    requires w.sys.active in w.pc
  {
    var id := FreeId(w.sys.tcb, 0);
    w.(sys := NewTask(w.sys), pc := w.pc[w.sys.active := ElfSpin(id, w.next)][id := Loading],
       birth := w.birth[id := w.next], next := w.next + 1)
  }

  function Poke(w: World, t: Pid): World
    requires t in w.sys.tcb
  {
    w.(sys := w.sys.(tcb := w.sys.tcb[t := w.sys.tcb[t].(waketime := 0)]))
  }

  /** task_cleanup frees the ids of the terminated tasks. */
  function Cleaned(w: World): World {
    var r := Cleanup(w.sys);
    w.(sys := r, pc := map t | t in w.pc && t in r.tcb :: w.pc[t],
       birth := map t | t in w.birth && t in r.tcb :: w.birth[t])
  }

  function Left(w: World, code: int): World
    requires Running(w.sys) && w.sys.active < NTASKS && w.sys.active in w.birth
  {
    At(w, Leaving(w.sys, code), Exiting).(exits := w.exits[w.birth[w.sys.active] := code % 256])
  }

  function Loaded(w: World, v: int): World
    requires w.sys.active in w.pc && w.sys.active in w.sys.tcb && w.sys.active in w.birth && w.sys.ncli > 0
  {
    At(w, UnlockCli(Calling(w.sys, InUnlockPost)), if v > 0 then User else LoadFailed)
      .(elfres := v, verdict := w.verdict[w.birth[w.sys.active] := v])
  }

  ghost function Step(w: World, e: Event): World
    requires Shape(w) && Enabled(w, e)
  {
    var s := w.sys;
    match e
    case ETick(busy) => w.(sys := Tick(s, busy))
    case ETake(n, busy) =>
      At(w, Acquire(s, n, busy), if IsHeld(s, busy, n) then ToPause(n) else if n == DUMMY then ElfHold else Holding(n))
    case EYield => Yield(w)
    case ERelease => At(w, Release(s), User)
    case ESleep(t) => if SleepUntil(s, t).Some? then At(w, SleepUntil(s, t).value, ToSleep) else w
    case EWait(p, timeout) =>
      var r := PwaitFor(s, p, timeout);
      if r.None? then w else At(w, r.value, ToWait(w.birth[p]))
    case EWaitDone => At(w, s, User)
    case EExit(code) => Left(w, code)
    case EClear => At(w, s, ElfCleared).(elfres := 0)
    case ESpawn => Spawn(w)
    case ERead => At(w, s, ElfGot(Me(w).child, Me(w).birth, w.elfres)).(elfres := 0)
    case ELoad(v) => Loaded(w, v)
    case ECleanup => Cleaned(w)
    case EPoke(t) => Poke(w, t)
  }

  // ---------- every event keeps the invariant ----------

  lemma Unclaimed(pc: map<Pid, Pc>, t: Pid, p: Pc)
    requires t in pc && Owner(p) == Owner(pc[t])
    ensures Claims(pc[t := p]) == Claims(pc)
  {
  }

  lemma TickKeeps(w: World, busy: set<nat>)
    requires Inv(w) && Enabled(w, ETick(busy))
    ensures Inv(Step(w, ETick(busy)))
  {
    hide WF, OwnInv, Histories, Claims, TickEnds, Tick;
    TickTheorem(w.sys, busy);
    TickOwners(w.sys, busy, Claims(w.pc));
    TickShape(w, busy);
    TickHistories(w, busy);
  }

  lemma TickShape(w: World, busy: set<nat>)
    requires Shape(w) && Enabled(w, ETick(busy)) && TickEnds(w.sys, busy, Tick(w.sys, busy))
    ensures Shape(Step(w, ETick(busy)))
  {
    hide Tick, WF, Settled, PcOk, TickOutcome;
    var s, w' := w.sys, Step(w, ETick(busy));
    forall t | t in w.pc ensures PcOk(t, w'.sys.tcb[t], w'.pc[t]) {
      TickPc(s, busy, w'.sys, t, w.pc[t]);
    }
  }

  lemma TickPc(s: Sys, busy: set<nat>, r: Sys, t: Pid, pc: Pc)
    requires t in s.tcb && t in r.tcb && TickOutcome(s, busy, r, t) && PcOk(t, s.tcb[t], pc)
    ensures PcOk(t, r.tcb[t], pc)
  {
  }

  lemma TickHistories(w: World, busy: set<nat>)
    requires Shape(w) && Births(w) && Histories(w) && Enabled(w, ETick(busy))
    requires TickEnds(w.sys, busy, Tick(w.sys, busy))
    ensures Histories(Step(w, ETick(busy)))
  {
    hide Tick, WF, Settled, PcOk, TickOutcome, ExitOk, WaitOk, ElfOk;
    var w' := Step(w, ETick(busy));
    forall t ensures ExitOk(w', t) && WaitOk(w', t) && ElfOk(w', t) {
      assert ExitOk(w, t) && WaitOk(w, t) && ElfOk(w, t);
      if t in w.pc {
        var p := w.sys.tcb[t].pwait;
        assert p in w.birth ==> ExitOk(w, p) && PcOk(p, w.sys.tcb[p], w.pc[p]);
      }
      TickHistory(w, busy, w'.sys, t);
    }
  }

  lemma TickHistory(w: World, busy: set<nat>, r: Sys, t: Pid)
    requires w.birth.Keys == w.pc.Keys == w.sys.tcb.Keys == r.tcb.Keys && r.taskres == w.sys.taskres
    requires ExitOk(w, t) && WaitOk(w, t) && ElfOk(w, t)
    requires t in w.pc ==> PcOk(t, w.sys.tcb[t], w.pc[t]) && TickOutcome(w.sys, busy, r, t)
    requires forall b :: b in w.exits ==> 0 <= w.exits[b] < 256
    requires t in w.pc ==>
      var p := w.sys.tcb[t].pwait; p in w.birth ==> ExitOk(w, p) && PcOk(p, w.sys.tcb[p], w.pc[p])
    ensures var w' := w.(sys := r); ExitOk(w', t) && WaitOk(w', t) && ElfOk(w', t)
  {
    hide PcOk, TickOutcome, WaitOk;
    if t in w.pc { TickWaits(w, busy, r, t); } else { NoWait(w.(sys := r), t); }
  }

  lemma NoWait(w: World, t: Pid)
    requires t !in w.pc
    ensures WaitOk(w, t)
  {
  }

  /** A queued waiter whose target is gone is woken with the target's exit code. */
  lemma TickWaits(w: World, busy: set<nat>, r: Sys, t: Pid)
    requires t in w.pc && t in w.sys.tcb && t in r.tcb && WaitOk(w, t) && w.birth.Keys == w.pc.Keys == w.sys.tcb.Keys
    requires PcOk(t, w.sys.tcb[t], w.pc[t]) && TickOutcome(w.sys, busy, r, t)
    requires forall b :: b in w.exits ==> 0 <= w.exits[b] < 256
    requires var p := w.sys.tcb[t].pwait; p in w.birth ==> ExitOk(w, p) && PcOk(p, w.sys.tcb[p], w.pc[p])
    ensures WaitOk(w.(sys := r), t)
  {
    if w.pc[t].Waiting? {
      var c, d := w.sys.tcb[t], r.tcb[t];
      var p, b := c.pwait, w.pc[t].target;
      if c.state == PWAIT {
        assert Target(w, p, b);
        if c.waketime != 0 && r.now >= c.waketime {
          assert d.wstatus == ECW_TIMEOUT;
        } else if Gone(w.sys, p) {
          assert b in w.exits && w.sys.taskres[p] == w.exits[b];
          assert d.wstatus == w.exits[b] + ECW_EXITED;
        } else {
          assert d == c && p in w.birth;
        }
      }
    }
  }

  /** A step of the active task alone: new record `c`, new stand `p`, new held set `h`. */
  function Act(w: World, c: Tcb, p: Pc, h: set<nat>): World
    requires Running(w.sys)
  {
    At(w, Edit(w.sys, c).(held := h), p)
  }

  lemma ActShape(w: World, c: Tcb, p: Pc, h: set<nat>)
    requires Shape(w) && c.state == RUNNING && PcOk(w.sys.active, c, p)
    requires c.resume == Entry <==> w.sys.tcb[w.sys.active].resume == Entry
    ensures Shape(Act(w, c, p, h))
  {
    hide WF, PcOk;
    ActWF(w.sys, c, h);
  }

  lemma ActWF(s: Sys, c: Tcb, h: set<nat>)
    requires WF(s) && c.state == RUNNING
    ensures WF(Edit(s, c).(held := h)) && s.active in s.tcb
  {
  }

  /** Ownership when only the active task's claim and its node change. */
  lemma ActOwners(s: Sys, r: Sys, claim: Claim, claim': Claim, a: Pid)
    requires OwnInv(s, claim) && r.tcb.Keys == s.tcb.Keys && a in s.tcb
    requires s.tcb[a].state != PAUSED && r.tcb[a].state != PAUSED
    requires forall t :: t in s.tcb && t != a ==> r.tcb[t] == s.tcb[t]
    requires forall t :: t != a ==> (t in claim <==> t in claim') && (t in claim ==> claim'[t] == claim[t])
    requires r.held == s.held - (if a in claim then {claim[a]} else {}) + (if a in claim' then {claim'[a]} else {})
    requires a in claim' && a !in claim ==> claim'[a] !in s.held
    requires a in claim' && a in claim ==> claim'[a] == claim[a]
    ensures OwnInv(r, claim')
  {
    assert forall t, n :: t != a ==> (Owns(r, claim', t, n) <==> Owns(s, claim, t, n));
    assert a in claim ==> Owns(s, claim, a, claim[a]);
    forall n | n in r.held ensures exists t :: Owns(r, claim', t, n) {
      if a in claim' && n == claim'[a] {
        assert Owns(r, claim', a, n);
      } else {
        var t :| Owns(s, claim, t, n);
        assert Owns(r, claim', t, n);
      }
    }
  }

  /** What happens to the other tasks' histories: nothing, if the active one keeps out of them. */
  lemma ActHistory(w: World, c: Tcb, p: Pc, h: set<nat>, t: Pid)
    requires Running(w.sys) && w.sys.active in w.pc && w.sys.active in w.birth
    requires ExitOk(w, t) && WaitOk(w, t) && ElfOk(w, t)
    requires var o := w.pc[w.sys.active];
      !o.Loading? && !o.ElfSpin? && o !in {Exiting, Exited}
      && (p.User? || p.ToPause? || p.Holding? || p.ToSleep? || p.ToWait? || p.ElfHold?)
    ensures ExitOk(Act(w, c, p, h), t) && WaitOk(Act(w, c, p, h), t) && ElfOk(Act(w, c, p, h), t)
  {
    var w' := Act(w, c, p, h);
    if t in w.pc && t in w.birth && w.pc[t] == Loading {
      var u :| u in w.pc && w.pc[u] == ElfSpin(t, w.birth[t]);
      assert w'.pc[u] == w.pc[u];
    }
  }

  lemma ActClaims(w: World, c: Tcb, p: Pc, h: set<nat>)
    requires Running(w.sys) && w.sys.active in w.pc && OwnInv(w.sys, Claims(w.pc))
    requires c.state == RUNNING && w.sys.tcb[w.sys.active].state == RUNNING
    requires var o := w.pc[w.sys.active];
      && (Owner(o).Some? ==> Owner(p) in {None, Owner(o)})
      && h == w.sys.held - (if Owner(o).Some? then {Owner(o).value} else {})
              + (if Owner(p).Some? then {Owner(p).value} else {})
      && (Owner(o).None? && Owner(p).Some? ==> Owner(p).value !in w.sys.held)
    ensures OwnInv(Act(w, c, p, h).sys, Claims(Act(w, c, p, h).pc))
  {
    hide OwnInv, Owner;
    var w' := Act(w, c, p, h);
    ActOwners(w.sys, w'.sys, Claims(w.pc), Claims(w'.pc), w.sys.active);
  }

  lemma ActiveRuns(w: World)
    requires Shape(w)
    ensures Running(w.sys) && w.sys.tcb[w.sys.active].state == RUNNING && w.sys.active in w.pc
    ensures w.sys.active in w.birth
  {
  }

  lemma ActKeeps(w: World, c: Tcb, p: Pc, h: set<nat>)
    requires Inv(w) && c.state == RUNNING && PcOk(w.sys.active, c, p)
    requires c.resume == Entry <==> w.sys.tcb[w.sys.active].resume == Entry
    requires var o := w.pc[w.sys.active];
      !o.Loading? && !o.ElfSpin? && o !in {Exiting, Exited}
      && (p.User? || p.ToPause? || p.Holding? || p.ToSleep? || p.ToWait? || p.ElfHold?)
      && (Owner(o).Some? ==> Owner(p) in {None, Owner(o)})
      && h == w.sys.held - (if Owner(o).Some? then {Owner(o).value} else {})
              + (if Owner(p).Some? then {Owner(p).value} else {})
      && (Owner(o).None? && Owner(p).Some? ==> Owner(p).value !in w.sys.held)
    ensures Inv(Act(w, c, p, h))
  {
    hide WF, PcOk, OwnInv, Claims, ExitOk, WaitOk, ElfOk;
    var w' := Act(w, c, p, h);
    ActiveRuns(w);
    ActShape(w, c, p, h);
    ActClaims(w, c, p, h);
    forall t ensures ExitOk(w', t) && WaitOk(w', t) && ElfOk(w', t) {
      assert ExitOk(w, t) && WaitOk(w, t) && ElfOk(w, t);
      ActHistory(w, c, p, h, t);
    }
  }

  lemma TakeKeeps(w: World, n: nat, busy: set<nat>)
    requires Inv(w) && Enabled(w, ETake(n, busy))
    ensures Inv(Step(w, ETake(n, busy)))
  {
    hide OwnInv, Histories, Births;
    var s, a, w' := w.sys, w.sys.active, Step(w, ETake(n, busy));
    assert PcOk(a, s.tcb[a], w.pc[a]);
    ActKeeps(w, s.tcb[a].(res := Some(n)), w'.pc[a], w'.sys.held);
  }

  lemma ReleaseKeeps(w: World)
    requires Inv(w) && Enabled(w, ERelease)
    ensures Inv(Step(w, ERelease))
  {
    hide WF, OwnInv, Histories, Births, Claims, Settled;
    ActiveRuns(w);
    var s, a := w.sys, w.sys.active;
    assert PcOk(a, s.tcb[a], w.pc[a]);
    var n := Owner(w.pc[a]).value;
    assert s.tcb[a].res == Some(n);
    assert s.held - {n} == s.held - {n} + {};
    ActKeeps(w, s.tcb[a].(res := None), User, s.held - {n});
    assert Step(w, ERelease) == Act(w, s.tcb[a].(res := None), User, s.held - {n});
  }

  lemma SleepKeeps(w: World, t: nat)
    requires Inv(w) && Enabled(w, ESleep(t))
    ensures Inv(Step(w, ESleep(t)))
  {
    var s, a := w.sys, w.sys.active;
    assert PcOk(a, s.tcb[a], w.pc[a]);
    if SleepUntil(s, t).Some? { ActKeeps(w, s.tcb[a].(waketime := t), ToSleep, s.held); }
  }

  lemma WaitKeeps(w: World, p: int, timeout: nat)
    requires Inv(w) && Enabled(w, EWait(p, timeout))
    ensures Inv(Step(w, EWait(p, timeout)))
  {
    var s, a := w.sys, w.sys.active;
    assert PcOk(a, s.tcb[a], w.pc[a]);
    if PwaitFor(s, p, timeout).Some? {
      ActKeeps(w, PwaitFor(s, p, timeout).value.tcb[a], ToWait(w.birth[p]), s.held);
    }
  }

  lemma WaitDoneKeeps(w: World)
    requires Inv(w) && Enabled(w, EWaitDone)
    ensures Inv(Step(w, EWaitDone))
  {
    hide WF, OwnInv, Histories, Births, Claims, Settled;
    ActiveRuns(w);
    var s, a := w.sys, w.sys.active;
    assert PcOk(a, s.tcb[a], w.pc[a]);
    assert s.tcb[a := s.tcb[a]] == s.tcb;
    ActKeeps(w, s.tcb[a], User, s.held);
  }

  lemma PokeHistories(w: World, t: Pid)
    requires t in w.sys.tcb && Histories(w)
    ensures Histories(Poke(w, t))
  {
    forall u ensures var w' := Poke(w, t); ExitOk(w', u) && WaitOk(w', u) && ElfOk(w', u) {
      assert ExitOk(w, u) && WaitOk(w, u) && ElfOk(w, u);
      PokeHistory(w, t, u);
    }
  }

  lemma PokeKeeps(w: World, t: Pid)
    requires Inv(w) && Enabled(w, EPoke(t))
    ensures Inv(Step(w, EPoke(t)))
  {
    PokeShape(w, t);
    PokeOwners(w.sys, Poke(w, t).sys, Claims(w.pc), t);
    PokeHistories(w, t);
    SameBirths(w, Poke(w, t));
  }

  lemma PokeOwners(s: Sys, r: Sys, claim: Claim, t: Pid)
    requires OwnInv(s, claim) && t in s.tcb && r == s.(tcb := s.tcb[t := s.tcb[t].(waketime := 0)])
    ensures OwnInv(r, claim)
  {
    SamePausedKeeps(s, r, claim);
  }

  lemma PokeHistory(w: World, t: Pid, u: Pid)
    requires t in w.sys.tcb && ExitOk(w, u) && WaitOk(w, u) && ElfOk(w, u)
    ensures var w' := Poke(w, t);
      ExitOk(w', u) && WaitOk(w', u) && ElfOk(w', u)
  {
  }

  lemma PokeShape(w: World, t: Pid)
    requires Shape(w) && t in w.sys.tcb && t != w.sys.active
    ensures Shape(Poke(w, t))
  {
    hide WF, PcOk;
    PokeWF(w.sys, t);
    forall u | u in w.pc ensures PcOk(u, Poke(w, t).sys.tcb[u], w.pc[u]) {
      assert PcOk(u, w.sys.tcb[u], w.pc[u]);
      PokePc(u, w.sys.tcb[u], w.pc[u]);
    }
  }

  lemma PokeWF(s: Sys, t: Pid)
    requires WF(s) && t in s.tcb
    ensures WF(s.(tcb := s.tcb[t := s.tcb[t].(waketime := 0)]))
  {
  }

  lemma PokePc(t: Pid, c: Tcb, p: Pc)
    requires PcOk(t, c, p)
    ensures PcOk(t, c.(waketime := 0), p)
  {
  }

  // ---------- blocking ----------

  function Handed(w: World, c: Tcb, l: State, p: Pc): World
    requires w.sys.q[READY] != []
  {
    At(w, HandOver(w.sys, c, l), p)
  }

  lemma HandOverPc(w: World, c: Tcb, l: State, p: Pc, t: Pid)
    requires w.sys.active in w.pc && w.sys.q[READY] != []
    requires var n := w.sys.q[READY][0]; n in w.sys.tcb && w.sys.tcb[n].state == READY && n != w.sys.active
    requires t == w.sys.active || (t in w.pc && t in w.sys.tcb && PcOk(t, w.sys.tcb[t], w.pc[t]))
    requires PcOk(w.sys.active, c.(state := l), p)
    ensures PcOk(t, Handed(w, c, l, p).sys.tcb[t], Handed(w, c, l, p).pc[t])
  {
  }

  lemma YieldPcs(w: World, c: Tcb, l: State, p: Pc)
    requires Shape(w) && w.sys.q[READY] != [] && l !in {READY, RUNNING} && w.sys.active != KTASK
    requires PcOk(w.sys.active, c.(state := l), p)
    ensures Shape(Handed(w, c, l, p))
  {
    hide PcOk;
    HandOverWF(w.sys, c, l);
    var w' := Handed(w, c, l, p);
    assert w.sys.tcb[w.sys.q[READY][0]].state == READY;
    forall t | t in w'.pc ensures PcOk(t, w'.sys.tcb[t], w'.pc[t]) {
      assert t == w.sys.active || PcOk(t, w.sys.tcb[t], w.pc[t]);
      HandOverPc(w, c, l, p, t);
    }
    HandOverKeys(w.sys, c, l);
  }

  lemma HandOverKeys(s: Sys, c: Tcb, l: State)
    requires s.active in s.tcb && s.q[READY] != [] && s.q[READY][0] in s.tcb
    ensures HandOver(s, c, l).tcb.Keys == s.tcb.Keys
  {
  }

  /** Blocking hands no node over: who owned what still does. */
  lemma YieldClaims(w: World, c: Tcb, l: State, p: Pc)
    requires Shape(w) && OwnInv(w.sys, Claims(w.pc)) && w.sys.q[READY] != [] && l !in {READY, RUNNING}
    requires Owner(w.pc[w.sys.active]) == None && (Owner(p).Some? <==> l == PAUSED)
    requires (l == PAUSED ==> c.res == Owner(p))
    ensures var r, k, k' := Handed(w, c, l, p).sys, Claims(w.pc), Claims(Handed(w, c, l, p).pc);
      && (forall t, m :: Owns(r, k', t, m) <==> Owns(w.sys, k, t, m)) && r.held == w.sys.held
      && (forall t :: t in r.tcb && r.tcb[t].state == PAUSED ==> t in k' && r.tcb[t].res == Some(k'[t]))
  {
    hide PcOk, WF, Settled;
    YieldHead(w);
  }

  lemma YieldHead(w: World)
    requires Shape(w) && w.sys.q[READY] != []
    ensures var n := w.sys.q[READY][0]; n in w.sys.tcb && w.sys.tcb[n].state == READY && n != w.sys.active
    ensures w.sys.active in w.pc && w.sys.tcb[w.sys.active].state == RUNNING
  {
  }

  lemma YieldOwners(w: World, c: Tcb, l: State, p: Pc)
    requires Shape(w) && OwnInv(w.sys, Claims(w.pc)) && w.sys.q[READY] != [] && l !in {READY, RUNNING}
    requires Owner(w.pc[w.sys.active]) == None && (Owner(p).Some? <==> l == PAUSED)
    requires (l == PAUSED ==> c.res == Owner(p))
    ensures OwnInv(Handed(w, c, l, p).sys, Claims(Handed(w, c, l, p).pc))
  {
    hide PcOk, Claims, HandOver;
    var w' := Handed(w, c, l, p);
    var s, r, k, k' := w.sys, w'.sys, Claims(w.pc), Claims(w'.pc);
    YieldClaims(w, c, l, p);
    forall m | m in r.held ensures exists t :: Owns(r, k', t, m) {
      var t :| Owns(s, k, t, m);
      assert Owns(r, k', t, m);
    }
  }

  lemma YieldHistory(w: World, c: Tcb, l: State, t: Pid)
    requires w.sys.active in w.pc && w.sys.active in w.sys.tcb && w.sys.q[READY] != [] && w.sys.active != KTASK
    requires var n := w.sys.q[READY][0]; n in w.sys.tcb && w.sys.tcb[n].state == READY && n != w.sys.active
    requires w.pc.Keys == w.sys.tcb.Keys
    requires Me(w).ToPause? || Me(w).ToSleep? || Me(w).ToWait? || Me(w).Exiting?
    requires l == Reason(Me(w)) && c == w.sys.tcb[w.sys.active].(resume := InBlock)
    requires ExitOk(w, t) && WaitOk(w, t) && ElfOk(w, t)
    ensures var w' := Handed(w, c, l, Queued(w)); ExitOk(w', t) && WaitOk(w', t) && ElfOk(w', t)
  {
    var w' := Handed(w, c, l, Queued(w));
    if t in w.pc && t in w.birth && w.pc[t] == Loading {
      var u :| u in w.pc && w.pc[u] == ElfSpin(t, w.birth[t]);
      assert w'.pc[u] == w.pc[u];
    }
  }

  lemma YieldHistories(w: World, c: Tcb, l: State)
    requires Shape(w) && Histories(w) && Enabled(w, EYield)
    requires l == Reason(Me(w)) && c == w.sys.tcb[w.sys.active].(resume := InBlock)
    ensures w.sys.q[READY] != [] && Histories(Handed(w, c, l, Queued(w)))
  {
    assert PcOk(w.sys.active, w.sys.tcb[w.sys.active], Me(w));
    KernelReady(w.sys);
    var n := w.sys.q[READY][0];
    assert w.sys.tcb[n].state == READY;
    forall t ensures var w' := Handed(w, c, l, Queued(w)); ExitOk(w', t) && WaitOk(w', t) && ElfOk(w', t) {
      assert ExitOk(w, t) && WaitOk(w, t) && ElfOk(w, t);
      YieldHistory(w, c, l, t);
    }
  }

  lemma YieldStep(w: World, c: Tcb, l: State)
    requires Shape(w) && Enabled(w, EYield)
    requires l == Reason(Me(w)) && c == w.sys.tcb[w.sys.active].(resume := InBlock)
    ensures w.sys.q[READY] != [] && w.sys.active != KTASK && l !in {READY, RUNNING}
    ensures Step(w, EYield) == Handed(w, c, l, Queued(w))
  {
    assert PcOk(w.sys.active, w.sys.tcb[w.sys.active], Me(w));
    BlockSwitches(w.sys, l);
  }

  lemma YieldFits(w: World, c: Tcb, l: State)
    requires Shape(w) && Enabled(w, EYield)
    requires l == Reason(Me(w)) && c == w.sys.tcb[w.sys.active].(resume := InBlock)
    ensures var p := Queued(w);
      && PcOk(w.sys.active, c.(state := l), p)
      && Owner(Me(w)) == None && (Owner(p).Some? <==> l == PAUSED) && (l == PAUSED ==> c.res == Owner(p))
  {
    assert PcOk(w.sys.active, w.sys.tcb[w.sys.active], Me(w));
  }

  lemma YieldKeeps(w: World)
    requires Inv(w) && Enabled(w, EYield)
    ensures Inv(Step(w, EYield))
  {
    var l := Reason(Me(w));
    var c := w.sys.tcb[w.sys.active].(resume := InBlock);
    YieldStep(w, c, l);
    YieldFits(w, c, l);
    YieldPcs(w, c, l, Queued(w));
    YieldOwners(w, c, l, Queued(w));
    YieldHistories(w, c, l);
    SameBirths(w, Handed(w, c, l, Queued(w)));
  }

  lemma SameBirths(w: World, w': World)
    requires Births(w) && w'.birth == w.birth && w'.next == w.next && w'.verdict == w.verdict && w'.exits == w.exits
    ensures Births(w')
  {
  }

  // ---------- leaving, loading, creating, cleaning up ----------

  lemma ExitHistory(w: World, code: int, t: Pid)
    requires Running(w.sys) && w.sys.active in w.pc && w.sys.active in w.birth && w.sys.active < NTASKS
    requires w.sys.active != KTASK
    requires w.birth.Keys == w.pc.Keys
    requires t in w.birth && w.birth[t] == w.birth[w.sys.active] ==> t == w.sys.active
    requires ExitOk(w, t) && WaitOk(w, t) && ElfOk(w, t) && ExitOk(w, w.sys.active)
    requires Me(w) in {User, LoadFailed}
    ensures var w' := Left(w, code); ExitOk(w', t) && WaitOk(w', t) && ElfOk(w', t)
  {
    var w' := Left(w, code);
    if t in w.pc && w.pc[t] == Loading {
      var u :| u in w.pc && w.pc[u] == ElfSpin(t, w.birth[t]);
      assert w'.pc[u] == w.pc[u];
    }
  }

  lemma ExitShape(w: World, code: int)
    requires Shape(w) && Me(w) in {User, LoadFailed} && w.sys.active != KTASK && w.sys.active < NTASKS
    ensures Shape(At(w, Leaving(w.sys, code), Exiting))
  {
    var a := w.sys.active;
    assert PcOk(a, w.sys.tcb[a], w.pc[a]);
    var c := w.sys.tcb[a].(exitcode := code);
    ActShape(w, c, Exiting, w.sys.held);
    ResultsShape(Act(w, c, Exiting, w.sys.held), Leaving(w.sys, code).taskres);
    assert w.sys.(held := w.sys.held) == w.sys;
  }

  lemma ExitOwners(w: World, code: int)
    requires Running(w.sys) && w.sys.active in w.pc && w.sys.active < NTASKS && OwnInv(w.sys, Claims(w.pc))
    requires Me(w) in {User, LoadFailed}
    ensures OwnInv(Leaving(w.sys, code), Claims(w.pc[w.sys.active := Exiting]))
  {
    SamePausedKeeps(w.sys, Leaving(w.sys, code), Claims(w.pc));
    Unclaimed(w.pc, w.sys.active, Exiting);
  }

  lemma ResultsShape(w: World, r: Results)
    requires Shape(w)
    ensures Shape(w.(sys := w.sys.(taskres := r)))
  {
    assert WF(w.sys.(taskres := r));
  }

  lemma ExitHistories(w: World, code: int)
    requires Shape(w) && Births(w) && Histories(w) && Me(w) in {User, LoadFailed} && w.sys.active != KTASK
    ensures w.sys.active < NTASKS && Histories(Left(w, code))
  {
    var w' := Left(w, code);
    assert ExitOk(w, w.sys.active);
    forall t ensures ExitOk(w', t) && WaitOk(w', t) && ElfOk(w', t) {
      assert ExitOk(w, t) && WaitOk(w, t) && ElfOk(w, t);
      ExitHistory(w, code, t);
    }
  }

  lemma ExitKeeps(w: World, code: int)
    requires Inv(w) && Enabled(w, EExit(code))
    ensures Inv(Step(w, EExit(code)))
  {
    ExitHistories(w, code);
    ExitShape(w, code);
    ExitOwners(w, code);
    SameShape(At(w, Leaving(w.sys, code), Exiting), Left(w, code));
    ExitBirths(w, code);
  }

  lemma ExitBirths(w: World, code: int)
    requires Births(w) && Running(w.sys) && w.sys.active < NTASKS && w.sys.active in w.birth
    ensures Births(Left(w, code))
  {
  }

  lemma SameShape(w: World, w': World)
    requires Shape(w) && w'.sys == w.sys && w'.pc == w.pc && w'.birth == w.birth
    ensures Shape(w')
  {
  }

  /** dummy serialises its callers. */
  lemma OneElf(w: World, t: Pid, u: Pid)
    requires Shape(w) && OwnInv(w.sys, Claims(w.pc)) && t in w.pc && u in w.pc
    requires Owner(w.pc[t]) == Owner(w.pc[u]) == Some(DUMMY)
    requires w.sys.tcb[t].state != PAUSED && w.sys.tcb[u].state != PAUSED
    ensures t == u
  {
    assert Owns(w.sys, Claims(w.pc), t, DUMMY) && Owns(w.sys, Claims(w.pc), u, DUMMY);
  }

  /** While one task is inside elf_load_task past its acquire, no other task is. */
  lemma OnlyElf(w: World, a: Pid, t: Pid)
    requires Shape(w) && OwnInv(w.sys, Claims(w.pc)) && a in w.pc && t in w.pc && t != a
    requires Owner(w.pc[a]) == Some(DUMMY) && w.sys.tcb[a].state != PAUSED
    ensures !w.pc[t].ElfCleared? && !w.pc[t].ElfSpin? && !w.pc[t].ElfGot?
  {
    assert PcOk(t, w.sys.tcb[t], w.pc[t]);
    if w.pc[t].ElfCleared? || w.pc[t].ElfSpin? || w.pc[t].ElfGot? { OneElf(w, t, a); }
  }

  /** A child waits to be entered only while its creator spins. */
  lemma NoChild(w: World, a: Pid, t: Pid)
    requires Shape(w) && OwnInv(w.sys, Claims(w.pc)) && ElfOk(w, t) && a in w.pc && t in w.pc
    requires Owner(w.pc[a]) == Some(DUMMY) && w.sys.tcb[a].state != PAUSED && w.pc[t] == Loading
    ensures w.pc[a] == ElfSpin(t, w.birth[t])
  {
    var u :| u in w.pc && w.pc[u] == ElfSpin(t, w.birth[t]);
    if u != a { OnlyElf(w, a, u); }
  }

  lemma ElfStepShape(w: World, p: Pc, r: int)
    requires Shape(w) && OwnInv(w.sys, Claims(w.pc)) && w.sys.active != KTASK
    requires Owner(Me(w)) == Some(DUMMY) && Owner(p) == Some(DUMMY) && !p.Holding? && !Me(w).Holding?
    ensures var w' := At(w, w.sys, p).(elfres := r); Shape(w') && OwnInv(w'.sys, Claims(w'.pc))
  {
    var a := w.sys.active;
    assert PcOk(a, w.sys.tcb[a], w.pc[a]);
    var c := w.sys.tcb[a];
    assert w.sys.tcb[a := c] == w.sys.tcb;
    ActShape(w, c, p, w.sys.held);
    Unclaimed(w.pc, a, p);
    assert Act(w, c, p, w.sys.held) == At(w, w.sys, p);
  }

  lemma ElfStepHistories(w: World, p: Pc, r: int)
    requires Shape(w) && OwnInv(w.sys, Claims(w.pc)) && Histories(w)
    requires (Me(w) == ElfHold && p == ElfCleared && r == 0)
          || (Me(w).ElfSpin? && w.elfres != 0 && p == ElfGot(Me(w).child, Me(w).birth, w.elfres) && r == 0)
    ensures Histories(At(w, w.sys, p).(elfres := r))
  {
    hide WF, OwnInv, Settled, PcOk;
    ActiveRuns(w);
    var w', a := At(w, w.sys, p).(elfres := r), w.sys.active;
    forall t ensures ExitOk(w', t) && WaitOk(w', t) && ElfOk(w', t) {
      assert ExitOk(w, t) && WaitOk(w, t) && ElfOk(w, t) && ElfOk(w, a);
      if t in w.pc && t != a {
        OnlyElf(w, a, t);
        if w.pc[t] == Loading { NoChild(w, a, t); }
      }
    }
  }

  lemma ClearKeeps(w: World)
    requires Inv(w) && Enabled(w, EClear)
    ensures Inv(Step(w, EClear))
  {
    hide WF, OwnInv, Histories, Births, Claims;
    assert PcOk(w.sys.active, w.sys.tcb[w.sys.active], Me(w));
    ElfStepShape(w, ElfCleared, 0);
    ElfStepHistories(w, ElfCleared, 0);
    SameBirths(w, At(w, w.sys, ElfCleared).(elfres := 0));
  }

  /** The creator reads the verdict its own child wrote. */
  lemma ReadKeeps(w: World)
    requires Inv(w) && Enabled(w, ERead)
    ensures Inv(Step(w, ERead))
  {
    hide WF, OwnInv, Histories, Births, Claims;
    assert PcOk(w.sys.active, w.sys.tcb[w.sys.active], Me(w));
    var p := ElfGot(Me(w).child, Me(w).birth, w.elfres);
    ElfStepShape(w, p, 0);
    ElfStepHistories(w, p, 0);
    SameBirths(w, At(w, w.sys, p).(elfres := 0));
  }

  lemma LoadHistory(w: World, v: int, t: Pid)
    requires w.sys.active in w.pc && w.sys.active in w.sys.tcb && w.sys.active in w.birth && w.birth.Keys == w.pc.Keys
    requires Me(w) == Loading && w.sys.ncli > 0 && w.sys.active != KTASK && v in {1, -1}
    requires t in w.birth && w.birth[t] == w.birth[w.sys.active] ==> t == w.sys.active
    requires ExitOk(w, t) && WaitOk(w, t) && ElfOk(w, t) && ElfOk(w, w.sys.active)
    requires t in w.pc && t != w.sys.active ==> w.pc[t] != Loading && !w.pc[t].ElfCleared?
    requires t in w.pc && w.pc[t].ElfSpin? ==> w.pc[t] == ElfSpin(w.sys.active, w.birth[w.sys.active])
    requires t in w.pc && w.pc[t].ElfGot? ==> w.pc[t].birth != w.birth[w.sys.active]
    ensures var w' := Loaded(w, v); ExitOk(w', t) && WaitOk(w', t) && ElfOk(w', t)
  {
  }

  lemma LoadPc(w: World, v: int, t: Pid)
    requires t in w.pc && t in w.sys.tcb && w.sys.active in w.pc && w.sys.active in w.sys.tcb && w.sys.active in w.birth
    requires PcOk(t, w.sys.tcb[t], w.pc[t]) && w.sys.ncli > 0 && Me(w) == Loading
    requires w.sys.tcb[w.sys.active].state == RUNNING
    ensures PcOk(t, Loaded(w, v).sys.tcb[t], Loaded(w, v).pc[t])
  {
  }

  lemma LoadShape(w: World, v: int)
    requires Shape(w) && Me(w) == Loading
    ensures Shape(Loaded(w, v))
  {
    hide PcOk, NoDup;
    LoadingIsEntry(w);
    var a, w' := w.sys.active, Loaded(w, v);
    forall t | t in w.pc ensures PcOk(t, w'.sys.tcb[t], w'.pc[t]) {
      assert PcOk(t, w.sys.tcb[t], w.pc[t]);
      LoadPc(w, v, t);
    }
    assert WF(w'.sys);
  }

  lemma LoadingIsEntry(w: World)
    requires Shape(w) && Me(w) == Loading
    ensures w.sys.tcb[w.sys.active].resume == Entry && w.sys.ncli == 1 && w.sys.active != KTASK
  {
    assert PcOk(w.sys.active, w.sys.tcb[w.sys.active], Me(w));
  }

  lemma LoadOwners(w: World, v: int)
    requires Shape(w) && Me(w) == Loading && OwnInv(w.sys, Claims(w.pc))
    ensures OwnInv(Loaded(w, v).sys, Claims(Loaded(w, v).pc))
  {
    hide WF, OwnInv, PcOk;
    ActiveRuns(w);
    LoadingIsEntry(w);
    Unclaimed(w.pc, w.sys.active, Loaded(w, v).pc[w.sys.active]);
    SamePausedKeeps(w.sys, Loaded(w, v).sys, Claims(w.pc));
  }

  /** A child that is being loaded has a creator that spins for it. */
  lemma Spinner(w: World) returns (u: Pid)
    requires Shape(w) && Me(w) == Loading && ElfOk(w, w.sys.active)
    ensures u in w.pc && w.pc[u] == ElfSpin(w.sys.active, w.birth[w.sys.active]) && w.sys.tcb[u].state != PAUSED
  {
    hide WF, Settled;
    ActiveRuns(w);
    var a := w.sys.active;
    u :| u in w.pc && w.pc[u] == ElfSpin(a, w.birth[a]);
    assert PcOk(u, w.sys.tcb[u], w.pc[u]);
  }

  lemma LoadHistories(w: World, v: int)
    requires Shape(w) && Births(w) && OwnInv(w.sys, Claims(w.pc)) && Histories(w)
    requires Me(w) == Loading && v in {1, -1}
    ensures Histories(Loaded(w, v))
  {
    hide WF, PcOk, OwnInv, Claims, ExitOk, WaitOk, Loaded;
    ActiveRuns(w);
    LoadingIsEntry(w);
    assert ElfOk(w, w.sys.active);
    var u := Spinner(w);
    forall t ensures ExitOk(Loaded(w, v), t) && WaitOk(Loaded(w, v), t) && ElfOk(Loaded(w, v), t) {
      assert ExitOk(w, t) && WaitOk(w, t) && ElfOk(w, t);
      if t in w.pc && t != u {
        OnlyElf(w, u, t);
        if w.pc[t] == Loading { NoChild(w, u, t); }
      }
      LoadHistory(w, v, t);
    }
  }

  /** The child, still holding the lock, writes its verdict: the only write to its slot. */
  lemma LoadKeeps(w: World, v: int)
    requires Inv(w) && Enabled(w, ELoad(v))
    ensures Inv(Step(w, ELoad(v)))
  {
    LoadShape(w, v);
    LoadOwners(w, v);
    LoadHistories(w, v);
    LoadBirths(w, v);
  }

  lemma LoadBirths(w: World, v: int)
    requires Births(w) && w.sys.active in w.pc && w.sys.active in w.sys.tcb && w.sys.active in w.birth
    requires w.sys.ncli > 0 && v != 0
    ensures Births(Loaded(w, v))
  {
  }

  lemma SpawnHistory(w: World, t: Pid)
    requires w.sys.active in w.pc && w.sys.active in w.birth && w.sys.active in w.sys.tcb
    requires w.birth.Keys == w.pc.Keys == w.sys.tcb.Keys && w.sys.active != KTASK
    requires Me(w) == ElfCleared && FreeId(w.sys.tcb, 0) < NTASKS
    requires w.next !in w.verdict && w.next !in w.exits
    requires ExitOk(w, t) && WaitOk(w, t) && ElfOk(w, t) && ElfOk(w, w.sys.active)
    requires t in w.pc && t != w.sys.active ==> w.pc[t] != Loading && !w.pc[t].ElfSpin? && !w.pc[t].ElfCleared?
    ensures ExitOk(Spawn(w), t) && WaitOk(Spawn(w), t) && ElfOk(Spawn(w), t)
  {
    var w', id := Spawn(w), FreeId(w.sys.tcb, 0);
    if t == id { assert w'.pc[w.sys.active] == ElfSpin(id, w.next); }
  }

  lemma SpawnShape(w: World)
    requires Shape(w) && Me(w) == ElfCleared && FreeId(w.sys.tcb, 0) < NTASKS
    ensures Shape(Spawn(w))
  {
    var w', a := Spawn(w), w.sys.active;
    NewTaskWF(w.sys);
    forall t | t in w'.pc ensures PcOk(t, w'.sys.tcb[t], w'.pc[t]) {
      if t in w.pc { assert PcOk(t, w.sys.tcb[t], w.pc[t]); SpawnPc(w, t); }
      else { assert t == FreeId(w.sys.tcb, 0); }
    }
  }

  lemma SpawnPc(w: World, t: Pid)
    requires t in w.pc && t in w.sys.tcb && w.sys.active in w.pc && PcOk(t, w.sys.tcb[t], w.pc[t])
    requires Me(w) == ElfCleared
    requires FreeId(w.sys.tcb, 0) < NTASKS
    ensures PcOk(t, Spawn(w).sys.tcb[t], Spawn(w).pc[t])
  {
  }

  lemma SpawnOwners(w: World)
    requires w.sys.active in w.pc && w.pc.Keys == w.sys.tcb.Keys
    requires Me(w) == ElfCleared && FreeId(w.sys.tcb, 0) < NTASKS && OwnInv(w.sys, Claims(w.pc))
    ensures OwnInv(Spawn(w).sys, Claims(Spawn(w).pc))
  {
    var s, r, k, k' := w.sys, Spawn(w).sys, Claims(w.pc), Claims(Spawn(w).pc);
    forall t, m ensures Owns(r, k', t, m) <==> Owns(s, k, t, m) {}
    forall m | m in r.held ensures exists t :: Owns(r, k', t, m) {
      var t :| Owns(s, k, t, m);
      assert Owns(r, k', t, m);
    }
  }

  lemma SpawnHistories(w: World)
    requires Shape(w) && Births(w) && OwnInv(w.sys, Claims(w.pc)) && Histories(w)
    requires Me(w) == ElfCleared && FreeId(w.sys.tcb, 0) < NTASKS
    ensures Histories(Spawn(w))
  {
    var a := w.sys.active;
    assert PcOk(a, w.sys.tcb[a], w.pc[a]) && ElfOk(w, a);
    forall t ensures ExitOk(Spawn(w), t) && WaitOk(Spawn(w), t) && ElfOk(Spawn(w), t) {
      assert ExitOk(w, t) && WaitOk(w, t) && ElfOk(w, t);
      if t in w.pc && t != a {
        OnlyElf(w, a, t);
        if w.pc[t] == Loading { NoChild(w, a, t); }
      }
      SpawnHistory(w, t);
    }
  }

  lemma SpawnKeeps(w: World)
    requires Inv(w) && Enabled(w, ESpawn)
    ensures Inv(Step(w, ESpawn))
  {
    SpawnShape(w);
    SpawnOwners(w);
    SpawnHistories(w);
    SpawnBirths(w);
  }

  lemma SpawnBirths(w: World)
    requires Births(w) && w.sys.active in w.pc
    ensures Births(Spawn(w))
  {
  }

  ghost predicate Pcs(w: World) {
    && w.pc.Keys == w.sys.tcb.Keys && w.birth.Keys == w.sys.tcb.Keys
    && (forall t :: t in w.pc ==> PcOk(t, w.sys.tcb[t], w.pc[t]))
  }

  lemma CleanWait(w: World, t: Pid)
    requires Pcs(w) && w.sys.active == KTASK && WaitOk(w, t) && CleanSys(w.sys, Cleanup(w.sys))
    requires t in w.pc && w.sys.tcb[t].pwait in w.birth ==> ExitOk(w, w.sys.tcb[t].pwait)
    ensures WaitOk(Cleaned(w), t)
  {
    if t in Cleaned(w).pc && w.pc[t].Waiting? {
      var p := w.sys.tcb[t].pwait;
      if p in w.birth { assert PcOk(p, w.sys.tcb[p], w.pc[p]); }
    }
  }

  lemma CleanKept(w: World, t: Pid)
    requires Pcs(w) && CleanSys(w.sys, Cleanup(w.sys)) && t in w.pc && w.pc[t] != Exited
    ensures t in Cleaned(w).pc && Cleaned(w).pc[t] == w.pc[t]
  {
    assert PcOk(t, w.sys.tcb[t], w.pc[t]);
  }

  lemma CleanElf(w: World, t: Pid)
    requires Pcs(w) && ElfOk(w, t) && CleanSys(w.sys, Cleanup(w.sys))
    ensures ElfOk(Cleaned(w), t)
  {
    var w' := Cleaned(w);
    if t in w'.pc {
      match w.pc[t]
      case Loading =>
        var u :| u in w.pc && w.pc[u] == ElfSpin(t, w.birth[t]);
        CleanKept(w, u);
      case ElfSpin(c, b) =>
        if b !in w.verdict { CleanKept(w, c); }
      case _ =>
    }
  }

  ghost predicate CleanSys(s: Sys, r: Sys) {
    && r == s.(tcb := r.tcb, q := r.q)
    && r.tcb == map u | u in s.tcb && s.tcb[u].state != TERMINATED :: s.tcb[u]
  }

  lemma CleanOwners(s: Sys, r: Sys, claim: Claim, claim': Claim)
    requires OwnInv(s, claim) && CleanSys(s, r)
    requires forall t :: t in s.tcb && t in claim ==> s.tcb[t].state != TERMINATED
    requires forall t :: t in r.tcb ==> (t in claim <==> t in claim') && (t in claim ==> claim'[t] == claim[t])
    ensures OwnInv(r, claim')
  {
    assert forall t, n :: Owns(r, claim', t, n) <==> Owns(s, claim, t, n);
    forall n | n in r.held ensures exists t :: Owns(r, claim', t, n) {
      var t :| Owns(s, claim, t, n);
      assert Owns(r, claim', t, n);
    }
  }

  lemma CleanSettled(s: Sys)
    requires WF(s) && Settled(s)
    ensures WF(Cleanup(s)) && Settled(Cleanup(s)) && CleanSys(s, Cleanup(s))
  {
    hide Cleanup;
    CleanupRemoves(s);
  }

  lemma CleanShape(w: World)
    requires Shape(w)
    ensures Shape(Cleaned(w)) && CleanSys(w.sys, Cleanup(w.sys))
  {
    hide PcOk, WF, Settled, Cleanup;
    CleanSettled(w.sys);
    forall t | t in Cleaned(w).pc ensures PcOk(t, Cleaned(w).sys.tcb[t], Cleaned(w).pc[t]) {
      assert PcOk(t, w.sys.tcb[t], w.pc[t]);
    }
  }

  lemma CleanClaims(w: World)
    requires Shape(w) && OwnInv(w.sys, Claims(w.pc)) && CleanSys(w.sys, Cleanup(w.sys))
    ensures OwnInv(Cleaned(w).sys, Claims(Cleaned(w).pc))
  {
    hide WF, OwnInv, Cleanup;
    forall t | t in w.pc ensures Owner(w.pc[t]).Some? ==> w.sys.tcb[t].state != TERMINATED {
      assert PcOk(t, w.sys.tcb[t], w.pc[t]);
    }
    CleanOwners(w.sys, Cleanup(w.sys), Claims(w.pc), Claims(Cleaned(w).pc));
  }

  lemma CleanHistories(w: World)
    requires Shape(w) && Histories(w) && w.sys.active == KTASK && w.sys.ncli == 0
    requires CleanSys(w.sys, Cleanup(w.sys))
    ensures Histories(Cleaned(w))
  {
    forall t ensures ExitOk(Cleaned(w), t) && WaitOk(Cleaned(w), t) && ElfOk(Cleaned(w), t) {
      assert ExitOk(w, t) && WaitOk(w, t) && ElfOk(w, t);
      if t in w.pc && w.sys.tcb[t].pwait in w.birth { assert ExitOk(w, w.sys.tcb[t].pwait); }
      CleanWait(w, t);
      CleanElf(w, t);
    }
  }

  lemma CleanBirths(w: World)
    requires Births(w)
    ensures Births(Cleaned(w))
  {
  }

  /** Freeing an id while someone waits for its exit code loses nothing: the kernel task frees
      it, and cannot leave the CPU without a tick. */
  lemma CleanKeeps(w: World)
    requires Inv(w) && Enabled(w, ECleanup)
    ensures Inv(Step(w, ECleanup))
  {
    CleanShape(w);
    CleanClaims(w);
    CleanHistories(w);
    CleanBirths(w);
  }

  /** Every event keeps the invariant. */
  lemma StepKeeps(w: World, e: Event)
    requires Inv(w) && Enabled(w, e)
    ensures Inv(Step(w, e))
  {
    hide Step, Inv;
    match e
    case ETick(busy) => TickKeeps(w, busy);
    case ETake(n, busy) => TakeKeeps(w, n, busy);
    case EYield => YieldKeeps(w);
    case ERelease => ReleaseKeeps(w);
    case ESleep(t) => SleepKeeps(w, t);
    case EWait(p, t) => WaitKeeps(w, p, t);
    case EWaitDone => WaitDoneKeeps(w);
    case EExit(code) => ExitKeeps(w, code);
    case EClear => ClearKeeps(w);
    case ESpawn => SpawnKeeps(w);
    case ERead => ReadKeeps(w);
    case ELoad(v) => LoadKeeps(w, v);
    case ECleanup => CleanKeeps(w);
    case EPoke(t) => PokeKeeps(w, t);
  }
}
