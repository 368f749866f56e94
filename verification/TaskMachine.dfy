/**
 * Runs of TaskRuns on the scheduler in place. `Machine` holds the linked lists and task blocks of
 * kernel/task.c and the loader's global of kernel/elf.c, and carries out any run event by event;
 * what TaskTheorems says of runs therefore holds of the in-place code.
 */
module TaskMachine {
  import opened Util
  import opened TaskSpec
  import opened TaskOwners
  import opened TaskRuns
  import opened TaskTheorems
  import opened Tasks

  /** The list that a call is about to block on, should it have to. */
  function Aim(e: Event): Option<State> {
    match e
    case ETake(_, _) => Some(PAUSED)
    case ESleep(_) => Some(SLEEPING)
    case EWait(_, _) => Some(PWAIT)
    case EExit(_) => Some(TERMINATED)
    case _ => None
  }

  function Aimed(aims: map<Pid, State>, t: Pid, e: Event): map<Pid, State> {
    if Aim(e).Some? then aims[t := Aim(e).value] else aims
  }

  predicate Blocking(pc: Pc) { pc.ToPause? || pc.ToSleep? || pc.ToWait? || pc.Exiting? }

  /** Each task that has yet to block knows where. */
  ghost predicate Aims(w: World, aims: map<Pid, State>) {
    forall t :: t in w.pc && Blocking(w.pc[t]) ==> t in aims && aims[t] == Reason(w.pc[t])
  }

  lemma AimsKept(w: World, e: Event, aims: map<Pid, State>)
    requires Shape(w) && Enabled(w, e) && Aims(w, aims)
    ensures Aims(Step(w, e), Aimed(aims, w.sys.active, e))
  {
    hide Shape, Enabled, Step, Reason;
    forall t | t in Step(w, e).pc && Blocking(Step(w, e).pc[t])
      ensures t in Aimed(aims, w.sys.active, e) && Aimed(aims, w.sys.active, e)[t] == Reason(Step(w, e).pc[t])
    {
      AimKept(w, e, t);
    }
  }

  lemma AimKept(w: World, e: Event, t: Pid)
    requires Shape(w) && Enabled(w, e) && t in Step(w, e).pc && Blocking(Step(w, e).pc[t])
    ensures if Aim(e).Some? && t == w.sys.active then Aim(e).value == Reason(Step(w, e).pc[t])
            else t in w.pc && w.pc[t] == Step(w, e).pc[t]
  {
    hide WF, Settled, PcOk, Tick, Block, Cleanup, NewTask, Leaving, Acquire, Release, SleepUntil, PwaitFor, Calling,
      UnlockCli, FreeId;
  }

  lemma YieldAims(w: World, aims: map<Pid, State>)
    requires Shape(w) && Enabled(w, EYield) && Aims(w, aims)
    ensures w.sys.active in aims && aims[w.sys.active] == Reason(Me(w)) && Reason(Me(w)) !in {READY, RUNNING}
    ensures CanBlock(w.sys, Reason(Me(w)))
  {
    BlockSwitches(w.sys, Reason(Me(w)));
  }

  lemma LoadLocked(w: World)
    requires Shape(w) && Me(w) == Loading
    ensures w.sys.ncli > 0
  {
    assert PcOk(w.sys.active, w.sys.tcb[w.sys.active], Me(w));
  }

  lemma Alive(s: Sys, t: Pid)
    requires WF(s) && t in s.tcb && s.tcb[t].state == SLEEPING
    ensures !Gone(s, t)
  {
  }

  lemma BootSteps(now: nat, kslice: nat, slice: nat)
    ensures var s := NewTask(Initial());
      && s.tcb.Keys == {KTASK, 1} && s.active == KTASK && FreeId(Initial().tcb, 0) == 1 && 1 < NTASKS
      && var i := s.tcb[1].(resume := InUnlockPost, nticks := slice);
      && var k := s.tcb[KTASK].(resume := InUnlockPost, nticks := kslice);
      Boot(now, kslice, slice).sys == s.(tcb := s.tcb[1 := i][KTASK := k], now := now)
  {
    assert FreeId(Initial().tcb, 1) == 1;
    assert NewTask(Initial()).q[READY] == [1];
  }

  class Machine {
    const sched: Scheduler
    var res: int                  // the global of kernel/elf.c
    var aims: map<Pid, State>     // for each task, the argument of the task_block call ahead of it
    ghost var world: World

    ghost predicate Valid()
      reads this, sched, sched.taskmap, sched.taskres, sched.lists, sched.tasks
    {
      sched.Valid() && Inv(world) && Aims(world, aims) && world.sys == sched.abs && world.elfres == res
    }

    /** The end of boot: a scheduler with its kernel task and init. */
    static method Booting(now: nat, kslice: nat, slice: nat) returns (s: Scheduler)
      ensures s.Valid() && s.abs == Boot(now, kslice, slice).sys && fresh(s) && fresh(s.tasks)
      ensures fresh(s.taskmap) && fresh(s.taskres) && fresh(s.lists)
    {
      hide Scheduler.Valid, Initial, NewTask, Boot;
      BootSteps(now, kslice, slice);
      s := new Scheduler();
      var t := s.NewTask();
      s.Prepare(t, slice);
      s.ActiveFacts();
      s.Prepare(s.active, kslice);
      s.SetTime(now);
    }

    constructor (now: nat, kslice: nat, slice: nat)
      requires Booted(now, kslice, slice)
      ensures Valid() && world == Boot(now, kslice, slice) && fresh(sched) && fresh(sched.tasks)
      ensures fresh(sched.taskmap) && fresh(sched.taskres) && fresh(sched.lists)
    {
      hide Scheduler.Valid, Inv, Boot;
      BootInv(now, kslice, slice);
      BootAims(now, kslice, slice);
      var s := Booting(now, kslice, slice);
      sched, res, aims, world := s, 0, map[], Boot(now, kslice, slice);
    }

    static lemma BootAims(now: nat, kslice: nat, slice: nat)
      ensures Aims(Boot(now, kslice, slice), map[]) && Boot(now, kslice, slice).elfres == 0
    {
    }

    /** What one event does to the scheduler and to `res`. */
    method Apply(e: Event, ghost w: World, aims: map<Pid, State>)
      requires sched.Valid() && Shape(w) && Enabled(w, e) && Aims(w, aims) && w.sys == sched.abs && w.elfres == res
      modifies this`res, sched, sched.taskmap, sched.taskres, sched.lists, sched.tasks
      ensures sched.Valid() && sched.abs == Step(w, e).sys && res == Step(w, e).elfres
      ensures fresh(sched.tasks - old(sched.tasks))
    {
      hide Scheduler.Valid, WF, PcOk, Tick, Block, Cleanup, NewTask, Leaving, Acquire, Release, UnlockCli, Aims;
      match e
      case ETick(busy) => sched.Tick(busy);
      case EYield =>
        sched.ActiveFacts();
        YieldAims(w, aims);
        sched.Block(aims[sched.active.id]);
      case ESpawn => var _ := sched.NewTask();
      case ECleanup => sched.Cleanup();
      case EPoke(t) =>
        Alive(w.sys, t);
        var task := sched.Get(t);
        sched.SetWake(task, 0, task.wstatus);
      case EClear => res := 0;
      case ERead => res := 0;
      case EWaitDone =>
      case _ => ApplyOwn(e, w);
    }

    /** The events that touch the active task's own block. */
    method ApplyOwn(e: Event, ghost w: World)
      requires sched.Valid() && Shape(w) && Enabled(w, e) && w.sys == sched.abs && w.elfres == res
      requires e.ETake? || e.ERelease? || e.ESleep? || e.EWait? || e.EExit? || e.ELoad?
      modifies this`res, sched, sched.taskmap, sched.taskres, sched.lists, sched.tasks
      ensures sched.Valid() && sched.abs == Step(w, e).sys && res == Step(w, e).elfres
              && sched.tasks == old(sched.tasks)
    {
      hide Scheduler.Valid, WF, PcOk, Leaving, Acquire, Release, UnlockCli;
      sched.ActiveFacts();
      match e
      case ETake(n, busy) => var _ := sched.Acquire(n, busy);
      case ERelease => sched.Release();
      case ESleep(t) => var _ := sched.SleepUntil(t);
      case EWait(p, timeout) => var _, _ := sched.Pwait(p, timeout);
      case EExit(code) => sched.Terminate(code);
      case ELoad(v) =>
        LoadLocked(w);
        res := v;
        sched.Calling(InUnlockPost);
        sched.UnlockCli();
    }

    method Do(e: Event)
      requires Valid() && Enabled(world, e)
      modifies this, sched, sched.taskmap, sched.taskres, sched.lists, sched.tasks
      ensures Valid() && world == Step(old(world), e) && fresh(sched.tasks - old(sched.tasks))
    {
      hide Scheduler.Valid, WF, PcOk, Step, Births, OwnInv, Histories;
      ghost var w := world;
      StepKeeps(w, e);
      AimsKept(w, e, aims);
      sched.ActiveFacts();
      var a := sched.active.id;
      Apply(e, w, aims);
      aims := Aimed(aims, a, e);
      world := Step(w, e);
    }

    /** Any run, in place. */
    method Play(es: seq<Event>)
      requires Valid() && Runs(world, es)
      modifies this, sched, sched.taskmap, sched.taskres, sched.lists, sched.tasks
      ensures Valid() && world == Run(old(world), es) && fresh(sched.tasks - old(sched.tasks))
    {
      hide Scheduler.Valid, Shape, Step, Births, OwnInv, Histories, Aims;
      var i := 0;
      Whole(es);
      while i < |es|
        invariant i <= |es| && Valid() && fresh(sched.tasks - old(sched.tasks))
        invariant Runs(world, es[i..]) && Run(world, es[i..]) == Run(old(world), es)
      {
        Next(world, es, i);
        Do(es[i]);
        i := i + 1;
      }
      assert es[i..] == [];
    }
  }

  lemma Whole(es: seq<Event>)
    ensures es[0..] == es
  {
  }

  lemma Next(w: World, es: seq<Event>, i: nat)
    requires Inv(w) && i < |es| && Runs(w, es[i..])
    ensures Enabled(w, es[i]) && Inv(Step(w, es[i])) && Runs(Step(w, es[i]), es[i+1..])
    ensures Run(w, es[i..]) == Run(Step(w, es[i]), es[i+1..])
  {
    hide Shape, Step, Births, OwnInv, Histories;
    assert es[i..][0] == es[i] && es[i..][1..] == es[i+1..];
    StepKeeps(w, es[i]);
  }
}
