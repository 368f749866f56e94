/**
 * The scheduler of kernel/task.c in place: task blocks linked into seven lists through their
 * own `prev` and `next` fields, a task map, and the lock counters. Every method is proved
 * equal to the function of the same step in TaskSpec, so all that is proved there and in
 * TaskTheorems about those functions holds of these methods.
 */
module Tasks {
  import opened Util
  import opened TaskSpec

  class Task {
    const id: Pid
    var prev: Task?
    var next: Task?
    var state: State
    var waketime: nat
    var nticks: nat
    var res: Option<nat>
    var pwait: int
    var wstatus: int
    var exitcode: int
    var resume: Resume

    constructor (id: Pid)
      ensures this.id == id && Rec() == FRESH
    {
      this.id := id;
      prev, next := null, null;
      state, waketime, nticks := READY, 0, NTICKS;
      res, pwait, wstatus, exitcode, resume := None, 0, 0, 0, Entry;
    }

    function Rec(): Tcb
      reads this
    {
      Tcb(state, waketime, nticks, res, pwait, wstatus, exitcode, resume)
    }
  }

  function Ids(l: seq<Task>): (r: seq<Pid>)
    ensures |r| == |l| && forall i :: 0 <= i < |l| ==> r[i] == l[i].id
  {
    seq(|l|, i requires 0 <= i < |l| => l[i].id)
  }

  lemma IdsAppend(l: seq<Task>, t: Task)
    ensures Ids(l + [t]) == Ids(l) + [t.id]
  {
  }

  ghost function Before(l: seq<Task>, i: int): Task?
    requires 0 <= i < |l|
  {
    if i == 0 then null else l[i-1]
  }

  ghost function After(l: seq<Task>, i: int): Task?
    requires 0 <= i < |l|
  {
    if i == |l| - 1 then null else l[i+1]
  }

  ghost function Cut<T>(l: seq<T>, k: nat): (r: seq<T>)
    requires k < |l|
    ensures |r| == |l| - 1
    ensures forall i {:trigger r[i]} :: 0 <= i < |r| ==> r[i] == if i < k then l[i] else l[i+1]
  {
    l[..k] + l[k+1..]
  }

  lemma CutFacts(l: seq<Task>, k: nat)
    requires NoDup(l) && k < |l|
    ensures NoDup(Cut(l, k))
    ensures var p, n := Before(l, k), After(l, k);
      p != l[k] && n != l[k] && (p != n || p == null) && (p == null || p in l) && (n == null || n in l)
    ensures forall i :: 0 <= i < |l| && i != k ==> l[i] != l[k]
  {
  }

  /** Neighbours after cutting out position `k`: only those of the cut block change. */
  lemma CutNeighbours(l: seq<Task>, k: nat, i: nat)
    requires NoDup(l) && k < |l| && i < |l| - 1
    ensures var c, t, p, n, j := Cut(l, k), l[k], Before(l, k), After(l, k), if i < k then i else i + 1;
      && c[i] == l[j] && c[i] != t
      && After(c, i) == (if c[i] == p then n else After(l, j))
      && Before(c, i) == (if c[i] == n then p else Before(l, j))
  {
  }

  /** One of the seven lists, linked through the blocks on it. */
  class TaskList {
    var first: Task?
    var last: Task?
    ghost var items: seq<Task>

    ghost predicate Valid()
      reads this, items`prev, items`next
    {
      && NoDup(items)
      && first == (if items == [] then null else items[0])
      && last == (if items == [] then null else items[|items|-1])
      && (forall i {:trigger items[i].prev} :: 0 <= i < |items| ==> items[i].prev == Before(items, i))
      && (forall i {:trigger items[i].next} :: 0 <= i < |items| ==> items[i].next == After(items, i))
    }

    constructor ()
      ensures Valid() && items == []
    {
      first, last, items := null, null, [];
    }

    lemma Distinct()
      requires Valid()
      ensures NoDup(items)
    {
    }

    method Add(t: Task)
      requires Valid() && t !in items
      modifies this, items`next, t`prev, t`next
      ensures Valid() && items == old(items) + [t]
    {
      ghost var was := items;
      t.prev := last;
      t.next := null;
      if first == null { first := t; }
      if last != null { last.next := t; }
      last := t;
      items := items + [t];
      assert forall i :: 0 <= i < |was| ==> items[i] == was[i] && was[i] != t;
    }

    /** The neighbours of `t` are linked to each other. */
    static method Detach(t: Task)
      requires t.prev != t && t.next != t && (t.prev != t.next || t.prev == null)
      modifies {t}`prev, {t}`next
      modifies (if t.prev == null then {} else {t.prev})`next, (if t.next == null then {} else {t.next})`prev
      ensures t.prev == null && t.next == null
      ensures old(t.prev) != null ==> old(t.prev).next == old(t.next)
      ensures old(t.next) != null ==> old(t.next).prev == old(t.prev)
    {
      if t.prev != null { t.prev.next := t.next; }
      if t.next != null { t.next.prev := t.prev; }
      t.prev := null;
      t.next := null;
    }

    method Remove(t: Task) returns (ghost k: nat)
      requires Valid() && t in items
      modifies this, items`prev, items`next
      ensures Valid() && k < |old(items)| && old(items)[k] == t && items == Cut(old(items), k)
    {
      hide NoDup, Cut, Before, After;
      k :| 0 <= k < |items| && items[k] == t;
      ghost var was := items;
      CutFacts(was, k);
      assert t.prev == Before(was, k) && t.next == After(was, k);
      CutEnds(was, k);
      if last == t { last := t.prev; }
      if first == t { first := t.next; }
      Detach(t);
      items := Cut(was, k);
      Bypassed(was, k);
    }
  }

  lemma CutEnds(l: seq<Task>, k: nat)
    requires NoDup(l) && k < |l|
    ensures var c, p, n := Cut(l, k), Before(l, k), After(l, k);
      && (if c == [] then null else c[0]) == (if l[0] == l[k] then n else l[0])
      && (if c == [] then null else c[|c|-1]) == (if l[|l|-1] == l[k] then p else l[|l|-1])
  {
  }

  /** Once the neighbours of block `k` skip it, the rest are linked. */
  lemma Bypassed(was: seq<Task>, k: nat)
    requires NoDup(was) && k < |was|
    requires forall i :: 0 <= i < |was| && i != k ==>
            was[i].next == if was[i] == Before(was, k) then After(was, k) else After(was, i)
    requires forall i :: 0 <= i < |was| && i != k ==>
            was[i].prev == if was[i] == After(was, k) then Before(was, k) else Before(was, i)
    ensures forall i {:trigger Cut(was, k)[i].prev} :: 0 <= i < |was| - 1 ==>
            Cut(was, k)[i].prev == Before(Cut(was, k), i)
    ensures forall i {:trigger Cut(was, k)[i].next} :: 0 <= i < |was| - 1 ==>
            Cut(was, k)[i].next == After(Cut(was, k), i)
  {
    hide NoDup, Cut, Before, After;
    forall i | 0 <= i < |was| - 1
      ensures Cut(was, k)[i].prev == Before(Cut(was, k), i) && Cut(was, k)[i].next == After(Cut(was, k), i)
    {
      CutNeighbours(was, k, i);
      assert Cut(was, k)[i] == was[if i < k then i else i + 1];
    }
  }

  /** Among tasks with distinct ids, cutting out a task removes its id. */
  lemma IdsCut(l: seq<Task>, k: nat)
    requires NoDup(Ids(l)) && k < |l|
    ensures Ids(Cut(l, k)) == Util.Remove(Ids(l), l[k].id)
  {
    hide NoDup;
    RemoveAt(Ids(l), k);
    assert Ids(Cut(l, k)) == Ids(l)[..k] + Ids(l)[k+1..];
  }

  lemma RemoveHead<T>(l: seq<T>)
    requires NoDup(l) && l != []
    ensures Util.Remove(l, l[0]) == l[1..]
  {
    RemoveAt(l, 0);
  }

  class Scheduler {
    const lists: seq<TaskList>
    const taskmap: array<Task?>
    const taskres: array<int>
    var active: Task
    var timens: nat
    var held: set<nat>
    var nlockcli: nat
    var nlockpost: nat
    var postponed: bool
    ghost var tasks: set<Task>
    ghost var abs: Sys // the abstract state

    ghost predicate Owned()
      reads this`tasks, taskmap
    {
      && taskmap.Length == NTASKS && |lists| == NSTATES
      && (forall t :: t in tasks ==> t.id < NTASKS && taskmap[t.id] == t)
      && (forall i :: 0 <= i < NTASKS && taskmap[i] != null ==> taskmap[i] in tasks && taskmap[i].id == i)
    }

    /** The task map and the counters are those of `abs`. */
    ghost predicate Mapped()
      reads this, taskmap, taskres
    {
      && taskmap.Length == NTASKS && taskres.Length == NTASKS && active in tasks
      && (forall i :: i in abs.tcb <==> 0 <= i < NTASKS && taskmap[i] != null)
      && abs.active == active.id && abs.now == timens && abs.held == held && abs.taskres == taskres[..]
      && abs.ncli == nlockcli && abs.npost == nlockpost && abs.postponed == postponed
    }

    /** The links spell out seven lists without a common block. */
    ghost predicate Structure()
      reads this`tasks, lists, tasks`prev, tasks`next
    {
      && |lists| == NSTATES
      && (forall l, m :: 0 <= l < m < NSTATES ==> lists[l] != lists[m])
      && (forall l, x :: 0 <= l < NSTATES && x in lists[l].items ==> x in tasks)
      && (forall l, m, x :: 0 <= l < NSTATES && 0 <= m < NSTATES && l != m && x in lists[l].items ==>
           x !in lists[m].items)
      && (forall l :: 0 <= l < NSTATES ==> lists[l].Valid())
    }

    /** They are the lists of `abs`. */
    ghost predicate Queued()
      reads this`abs, lists
    {
      |lists| == NSTATES && forall l :: 0 <= l < NSTATES ==> Ids(lists[l].items) == abs.q[l]
    }

    ghost predicate Recorded(t: Task)
      reads this, t
    {
      t.id in abs.tcb && abs.tcb[t.id] == t.Rec()
    }

    /** Everything but the task blocks' own fields. */
    ghost predicate Core()
      reads this, taskmap, taskres, lists, tasks`prev, tasks`next
    {
      Owned() && Mapped() && Structure() && Queued()
    }

    ghost predicate Valid()
      reads this, taskmap, taskres, lists, tasks
    {
      Core() && forall t :: t in tasks ==> Recorded(t)
    }

    /** task_init: only the kernel task exists, and it runs. */
    constructor ()
      ensures Valid() && abs == Initial()
      ensures fresh(tasks) && fresh(taskmap) && fresh(taskres) && fresh(lists)
    {
      var k := new Task(KTASK);
      k.state := RUNNING;
      k.resume := InUnlockPost;
      var m := new Task?[NTASKS](i => if i == KTASK then k else null);
      var r := new int[NTASKS](i => 0);
      var ls := EmptyLists();
      taskmap, taskres, lists := m, r, ls;
      active, timens, held, nlockcli, nlockpost, postponed := k, 0, {}, 0, 0, false;
      tasks := {k};
      abs := Initial();
      new;
      assert taskres[..] == Initial().taskres;
      Starts(k);
    }

    lemma Starts(k: Task)
      requires tasks == {k} && active == k && k.id == KTASK
      requires k.Rec() == FRESH.(state := RUNNING, resume := InUnlockPost)
      requires taskmap.Length == NTASKS && taskres.Length == NTASKS && |lists| == NSTATES
      requires taskres[..] == Initial().taskres
      requires forall i :: 0 <= i < NTASKS ==> taskmap[i] == if i == KTASK then k else null
      requires forall l :: 0 <= l < NSTATES ==> lists[l].Valid() && lists[l].items == []
      requires forall l, m :: 0 <= l < m < NSTATES ==> lists[l] != lists[m]
      requires timens == 0 && held == {} && nlockcli == nlockpost == 0 && !postponed && abs == Initial()
      ensures Valid()
    {
      assert forall l :: 0 <= l < NSTATES ==> Ids(lists[l].items) == [] == Initial().q[l];
    }

    static method EmptyLists() returns (ls: seq<TaskList>)
      ensures |ls| == NSTATES && fresh(ls)
      ensures forall l :: 0 <= l < NSTATES ==> ls[l].Valid() && ls[l].items == []
      ensures forall l, m :: 0 <= l < m < NSTATES ==> ls[l] != ls[m]
    {
      ls := [];
      while |ls| < NSTATES
        invariant |ls| <= NSTATES && fresh(ls)
        invariant forall l :: 0 <= l < |ls| ==> ls[l].Valid() && ls[l].items == []
        invariant forall l, m :: 0 <= l < m < |ls| ==> ls[l] != ls[m]
      {
        var n := new TaskList();
        ls := ls + [n];
      }
    }

    // ---------- the intrusive lists ----------

    ghost predicate Loose(t: Task)
      requires |lists| == NSTATES
      reads lists
    {
      forall l :: 0 <= l < NSTATES ==> t !in lists[l].items
    }

    method Unlink(l: State, t: Task) returns (ghost k: nat)
      requires Structure() && t in lists[l].items
      modifies lists, tasks`prev, tasks`next
      ensures Structure() && Loose(t)
      ensures k < |old(lists[l].items)| && old(lists[l].items)[k] == t && lists[l].items == Cut(old(lists[l].items), k)
      ensures forall m :: 0 <= m < NSTATES && m != l ==> lists[m].items == old(lists[m].items)
    {
      hide TaskList.Valid;
      ghost var was := lists[l].items;
      lists[l].Distinct();
      k := lists[l].Remove(t);
      CutFacts(was, k);
      forall m | 0 <= m < NSTATES && m != l ensures lists[m].items == old(lists[m].items) && lists[m].Valid() {
        assert old(lists[m].Valid());
        assert forall i :: 0 <= i < |lists[m].items| ==> lists[m].items[i] !in was;
      }
      assert forall x :: x in lists[l].items ==> x in was && x != t;
    }

    method Link(l: State, t: Task)
      requires Structure() && t in tasks && Loose(t)
      modifies lists, tasks`prev, tasks`next
      ensures Structure() && lists[l].items == old(lists[l].items) + [t]
      ensures forall m :: 0 <= m < NSTATES && m != l ==> lists[m].items == old(lists[m].items)
    {
      ghost var was := lists[l].items;
      lists[l].Add(t);
      forall m | 0 <= m < NSTATES && m != l ensures lists[m].items == old(lists[m].items) && lists[m].Valid() {
        assert old(lists[m].Valid());
        assert forall i :: 0 <= i < |lists[m].items| ==> lists[m].items[i] != t && lists[m].items[i] !in was;
      }
    }

    /** Bring `abs` up to date with list `l`. */
    ghost method SetQueue(l: State)
      requires Owned() && Mapped() && Structure() && forall t :: t in tasks ==> Recorded(t)
      requires forall m :: 0 <= m < NSTATES && m != l ==> Ids(lists[m].items) == abs.q[m]
      modifies this`abs
      ensures Valid() && abs == old(abs).(q := old(abs).q[l := Ids(lists[l].items)])
    {
      hide Structure;
      abs := abs.(q := abs.q[l := Ids(lists[l].items)]);
    }

    /** Bring `abs` up to date with the fields of `t`. */
    ghost method SetRecord(t: Task)
      requires Core() && t in tasks && (forall x :: x in tasks && x != t ==> Recorded(x))
      modifies this`abs
      ensures Valid() && t.id in old(abs).tcb && abs == old(abs).(tcb := old(abs).tcb[t.id := t.Rec()])
    {
      hide Structure;
      assert taskmap[t.id] == t;
      abs := abs.(tcb := abs.tcb[t.id := t.Rec()]);
      forall x | x in tasks && x != t ensures Recorded(x) {
        assert taskmap[x.id] == x;
      }
    }

    lemma IdsDistinct(l: seq<Task>)
      requires Owned() && NoDup(l) && forall x :: x in l ==> x in tasks
      ensures NoDup(Ids(l))
    {
      forall i, j | 0 <= i < j < |l| ensures Ids(l)[i] != Ids(l)[j] {
        assert taskmap[l[i].id] == l[i] && taskmap[l[j].id] == l[j];
      }
    }

    lemma QueueFacts(l: State)
      requires Valid()
      ensures |lists| == NSTATES && Ids(lists[l].items) == abs.q[l] && NoDup(abs.q[l]) && NoDup(lists[l].items)
      ensures lists[l].first == (if lists[l].items == [] then null else lists[l].items[0])
      ensures forall x :: x in lists[l].items ==> x in tasks
    {
      assert lists[l].Valid();
      IdsDistinct(lists[l].items);
    }

    lemma TaskFacts(t: Task)
      requires Valid() && t in tasks
      ensures t.id in abs.tcb && abs.tcb[t.id] == t.Rec() && (t.id == abs.active <==> t == active)
    {
      assert Recorded(t) && taskmap[t.id] == t && taskmap[active.id] == active;
    }

    /** task_remove_from_list. */
    method RemoveFromList(l: State, t: Task)
      requires Valid() && |lists| == NSTATES && t in lists[l].items
      modifies this`abs, lists, tasks`prev, tasks`next
      ensures Valid() && |lists| == NSTATES && Loose(t) && t in tasks
      ensures abs == old(abs).(q := old(abs).q[l := Util.Remove(old(abs).q[l], t.id)])
    {
      hide Structure;
      ghost var was := lists[l].items;
      QueueFacts(l);
      ghost var k := Unlink(l, t);
      IdsCut(was, k);
      SetQueue(l);
    }

    /** task_add_to_list. */
    method AddToList(l: State, t: Task)
      requires Valid() && t in tasks && |lists| == NSTATES && Loose(t)
      modifies this`abs, lists, tasks`prev, tasks`next
      ensures Valid() && |lists| == NSTATES && lists[l].items == old(lists[l].items) + [t]
      ensures forall m :: 0 <= m < NSTATES && m != l ==> lists[m].items == old(lists[m].items)
      ensures abs == old(abs).(q := old(abs).q[l := old(abs).q[l] + [t.id]])
    {
      hide Structure;
      QueueFacts(l);
      IdsAppend(lists[l].items, t);
      Link(l, t);
      SetQueue(l);
    }

    // ---------- locks and switching ----------

    method LockCli()
      requires Valid()
      modifies this`nlockcli, this`abs
      ensures Valid() && abs == TaskSpec.LockCli(old(abs))
    {
      hide Structure;
      nlockcli := nlockcli + 1;
      abs := TaskSpec.LockCli(abs);
    }

    method UnlockCli()
      requires Valid() && abs.ncli > 0
      modifies this`nlockcli, this`abs
      ensures Valid() && abs == TaskSpec.UnlockCli(old(abs))
    {
      hide Structure;
      nlockcli := nlockcli - 1;
      abs := TaskSpec.UnlockCli(abs);
    }

    /** task_switch: may only be reached with the lock counter at exactly one. */
    method Switch(next: Task)
      requires Valid() && next in tasks && abs.ncli == 1 && abs.npost == 0
      modifies this`active, this`abs
      ensures Valid() && active == next && abs == TaskSpec.Switch(old(abs), next.id)
    {
      hide Structure;
      active := next;
      abs := TaskSpec.Switch(abs, next.id);
    }

    /** task_schedule while switches are postponed. */
    method Postpone()
      requires Valid()
      modifies this`abs, this`postponed
      ensures Valid() && abs == old(abs).(postponed := true)
    {
      hide Structure;
      postponed := true;
      abs := abs.(postponed := true);
    }

    // ---------- scheduling ----------

    method SetState(t: Task, st: State)
      requires Valid() && t in tasks
      modifies this`abs, t`state
      ensures Valid() && t.state == st && t.id in old(abs).tcb
      ensures abs == old(abs).(tcb := old(abs).tcb[t.id := old(abs).tcb[t.id].(state := st)])
    {
      hide Core, Recorded;
      TaskFacts(t);
      t.state := st;
      SetRecord(t);
    }

    method FullSlice(t: Task)
      requires Valid() && t in tasks
      modifies this`abs, t`nticks
      ensures Valid() && t.id in old(abs).tcb
      ensures abs == old(abs).(tcb := old(abs).tcb[t.id := old(abs).tcb[t.id].(nticks := NTICKS)])
    {
      hide Core, Recorded;
      TaskFacts(t);
      t.nticks := NTICKS;
      SetRecord(t);
    }

    /** From list `from` to the ready list, with the state to match. */
    method MakeReady(t: Task, from: State)
      requires Valid() && |lists| == NSTATES && t in lists[from].items
      modifies this`abs, lists, tasks`prev, tasks`next, t`state
      ensures Valid() && t.id in old(abs).tcb
      ensures abs == TaskSpec.MakeReady(old(abs), t.id, from)
    {
      hide Valid, Core, Recorded, Loose, Remove;
      QueueFacts(from);
      TaskFacts(t);
      RemoveFromList(from, t);
      SetState(t, READY);
      AddToList(READY, t);
    }

    /** The interrupted task goes to the back of the ready list. */
    method ToBack()
      requires Valid() && |lists| == NSTATES && Loose(active) && active in tasks
      modifies this`abs, lists, tasks`prev, tasks`next, active`state, active`nticks
      ensures Valid() && active.id == old(abs).active && active.id in old(abs).tcb && abs == TaskSpec.ToBack(old(abs))
    {
      hide Valid, Core, Recorded, Loose;
      TaskFacts(active);
      AddToList(READY, active);
      SetState(active, READY);
      FullSlice(active);
    }

    lemma LooseFacts(t: Task)
      requires Valid() && t in tasks
      ensures |lists| == NSTATES && (Loose(t) <==> forall l: State :: t.id !in abs.q[l])
    {
      forall l: State ensures t in lists[l].items <==> t.id in abs.q[l] {
        QueueFacts(l);
        if t in lists[l].items {
          var i :| 0 <= i < |lists[l].items| && lists[l].items[i] == t;
          assert abs.q[l][i] == t.id;
        }
        if t.id in abs.q[l] {
          var i :| 0 <= i < |abs.q[l]| && abs.q[l][i] == t.id;
          assert taskmap[lists[l].items[i].id] == lists[l].items[i];
        }
      }
    }

    lemma CounterFacts()
      requires Valid()
      ensures abs.npost == nlockpost && abs.ncli == nlockcli && abs.postponed == postponed && abs.now == timens
      ensures abs.held == held
      ensures |lists| == NSTATES && taskmap.Length == taskres.Length == NTASKS
    {
    }

    lemma ActiveFacts()
      requires Valid()
      ensures active in tasks && active.id == abs.active && active.id in abs.tcb
      ensures abs.tcb[active.id] == active.Rec() && active.id < NTASKS
    {
      assert Recorded(active);
    }

    method PopReady() returns (next: Task)
      requires Valid() && abs.q[READY] != []
      modifies this`abs, lists, tasks`prev, tasks`next, tasks`state, tasks`nticks
      ensures Valid() && next in tasks && next.id == old(abs).q[READY][0] && next.id in old(abs).tcb
      ensures abs == TaskSpec.PopReady(old(abs))
    {
      hide Valid, Core, Recorded, Loose, Remove, NoDup;
      QueueFacts(READY);
      next := lists[READY].first;
      RemoveHead(abs.q[READY]);
      TaskFacts(next);
      RemoveFromList(READY, next);
      SetState(next, RUNNING);
      FullSlice(next);
    }

    method Schedule()
      requires Valid() && CanSchedule(abs)
      requires abs.npost == 0 ==> abs.active !in abs.q[READY]
      requires abs.npost == 0 && abs.tcb[abs.active].state == RUNNING ==> forall l: State :: abs.active !in abs.q[l]
      modifies this`abs, this`active, this`postponed, lists, tasks`prev, tasks`next, tasks`state, tasks`nticks
      ensures Valid() && abs == TaskSpec.Schedule(old(abs))
      ensures old(abs).npost > 0 ==> active == old(active)
    {
      hide Valid, Core, Recorded, Loose;
      ActiveFacts();
      QueueFacts(READY);
      CounterFacts();
      if nlockpost > 0 { Postpone(); return; }
      if lists[READY].first != null {
        var next := PopReady();
        ActiveFacts();
        if active.state == RUNNING {
          LooseFacts(active);
          ToBack();
        }
        Switch(next);
      }
    }

    // ---------- block and unblock ----------

    /** The return address pushed by a call to task_schedule. */
    method Calling(at: Resume)
      requires Valid()
      modifies this`abs, active`resume
      ensures Valid() && old(abs).active in old(abs).tcb && abs == TaskSpec.Calling(old(abs), at)
    {
      hide Core, Recorded;
      ActiveFacts();
      active.resume := at;
      SetRecord(active);
    }

    /** What the task now on the CPU does on returning from task_schedule. */
    method Leave()
      requires Valid() && abs.ncli > 0
      modifies this`abs, this`nlockcli
      ensures Valid() && old(abs).active in old(abs).tcb && abs == TaskSpec.Leave(old(abs))
    {
      hide Valid, Core, Recorded;
      ActiveFacts();
      if active.resume != Entry { UnlockCli(); }
    }

    /** task_block. */
    method Block(reason: State)
      requires Valid() && WF(abs) && CanBlock(abs, reason) && reason !in {READY, RUNNING}
      modifies this`abs, this`active, this`postponed, this`nlockcli, lists, tasks`prev, tasks`next, tasks`state,
              tasks`nticks, tasks`resume
      ensures Valid() && abs == TaskSpec.Block(old(abs), reason)
    {
      hide Valid, Core, Recorded, Loose;
      ActiveFacts();
      assert forall l: State :: abs.active !in abs.q[l];
      hide WF, NoDup;
      LockCli();
      LooseFacts(active);
      SetState(active, reason);
      AddToList(reason, active);
      Calling(InBlock);
      Schedule();
      Leave();
    }

    /** task_unblock, called by the interrupt handler only. */
    method Unblock(t: Task)
      requires Valid() && t in tasks && abs.npost > 0
      requires t == active || (t.id in abs.tcb && t.id in abs.q[abs.tcb[t.id].state])
      modifies this`abs, this`active, this`postponed, this`nlockcli, lists, tasks`prev, tasks`next, tasks`state,
              tasks`nticks
      ensures Valid() && active == old(active) && t.id in old(abs).tcb && old(abs).active in old(abs).tcb
      ensures abs == TaskSpec.Unblock(old(abs), t.id)
    {
      hide Valid, Core, Recorded, Loose, Remove, NoDup;
      ActiveFacts();
      TaskFacts(t);
      if t == active || t.state == READY { return; }
      OnList(t);
      LockCli();
      QueueFacts(READY);
      var first := lists[READY].first;
      MakeReady(t, t.state);
      if first == null { Schedule(); }
      UnlockCli();
    }

    lemma OnList(t: Task)
      requires Valid() && t in tasks && t.id in abs.tcb && t.id in abs.q[abs.tcb[t.id].state]
      ensures |lists| == NSTATES && t in lists[t.state].items
    {
      TaskFacts(t);
      QueueFacts(t.state);
      var i :| 0 <= i < |abs.q[t.state]| && abs.q[t.state][i] == t.id;
      assert taskmap[lists[t.state].items[i].id] == lists[t.state].items[i] && taskmap[t.id] == t;
    }

    // ---------- the timer interrupt ----------

    method SetWake(t: Task, waketime: nat, wstatus: int)
      requires Valid() && t in tasks
      modifies this`abs, t`waketime, t`wstatus
      ensures Valid() && t.id in old(abs).tcb
      ensures var c := old(abs).tcb[t.id].(waketime := waketime, wstatus := wstatus);
        abs == old(abs).(tcb := old(abs).tcb[t.id := c])
    {
      hide Core, Recorded;
      TaskFacts(t);
      t.waketime := waketime;
      t.wstatus := wstatus;
      SetRecord(t);
    }

    method SetHeld(n: nat, h: bool)
      requires Valid()
      modifies this`abs, this`held
      ensures Valid() && abs == old(abs).(held := if h then old(abs).held + {n} else old(abs).held - {n})
    {
      hide Structure;
      held := if h then held + {n} else held - {n};
      abs := abs.(held := held);
    }

    /** One turn of one of the four wake-up loops, for the block the loop stands on. */
    method WakeStep(k: Loop, t: Task)
      requires Valid() && t in tasks && abs.npost > 0 && t.id in abs.tcb && abs.active in abs.tcb
      requires t.id in abs.q[abs.tcb[t.id].state] && t.id != abs.active
      modifies this`abs, this`active, this`postponed, this`nlockcli, this`held, lists, tasks
      ensures Valid() && active == old(active) && Awake(old(abs), [t.id]) && abs == TaskSpec.StepLoop(old(abs), k, t.id)
    {
      hide Valid, Core, Recorded, Loose, Remove, NoDup;
      ActiveFacts();
      TaskFacts(t);
      CounterFacts();
      match k {
        case Sleepers =>
          if timens >= t.waketime {
            SetWake(t, 0, t.wstatus);
            Unblock(t);
          }
        case Paused(busy) =>
          if t.res.Some? && t.res.value !in held && t.res.value !in busy {
            SetHeld(t.res.value, true);
            Unblock(t);
          }
        case Signaled => Unblock(t);
        case Pwaiters => WakePwaiter(t);
      }
    }

    method WakePwaiter(t: Task)
      requires Valid() && t in tasks && abs.npost > 0 && t.id in abs.tcb && abs.active in abs.tcb
      requires t.id in abs.q[abs.tcb[t.id].state] && t.id != abs.active
      modifies this`abs, this`active, this`postponed, this`nlockcli, lists, tasks
      ensures Valid() && active == old(active) && Awake(old(abs), [t.id]) && abs == TaskSpec.StepPwaiter(old(abs), t.id)
    {
      hide Valid, Core, Recorded, Loose, Remove, NoDup;
      ActiveFacts();
      TaskFacts(t);
      CounterFacts();
      if t.waketime != 0 && timens >= t.waketime {
        SetWake(t, 0, ECW_TIMEOUT);
        Unblock(t);
      } else {
        var wtask := Get(t.pwait);
        if wtask == null || wtask.state == TERMINATED {
          var res := if t.pwait < 0 || t.pwait >= NTASKS then 0 else taskres[t.pwait];
          ResultFacts();
          SetWake(t, t.waketime, OrExited(res));
          Unblock(t);
        }
      }
    }

    lemma ResultFacts()
      requires Valid()
      ensures taskres.Length == NTASKS && abs.taskres == taskres[..]
    {
    }

    /** task_get. */
    method Get(pid: int) returns (t: Task?)
      requires Valid()
      ensures t == null || (t in tasks && t.id == pid && pid in abs.tcb && abs.tcb[pid] == t.Rec())
      ensures t == null || t.state == TERMINATED <==> Gone(abs, pid)
    {
      if pid < 0 || pid >= NTASKS { return null; }
      t := taskmap[pid];
      if t != null { TaskFacts(t); }
    }

    /** Where the loop stands: block `cur` is at position `j` of its list. */
    lemma NextFacts(l: State, j: nat, cur: Task)
      requires Valid() && cur in tasks && j < |abs.q[l]| && abs.q[l][j] == cur.id
      ensures cur.next == null <==> j == |abs.q[l]| - 1
      ensures cur.next != null ==> cur.next in tasks && cur.next.id == abs.q[l][j+1]
    {
      QueueFacts(l);
      assert taskmap[lists[l].items[j].id] == lists[l].items[j] && taskmap[cur.id] == cur;
      assert lists[l].Valid() && lists[l].items[j].next == After(lists[l].items, j);
    }

    lemma FirstFacts(l: State)
      requires Valid()
      ensures |lists| == NSTATES && (lists[l].first == null <==> abs.q[l] == [])
      ensures lists[l].first != null ==> lists[l].first in tasks && lists[l].first.id == abs.q[l][0]
    {
      QueueFacts(l);
    }

    /** One wake-up loop: it walks the list while waking unlinks the block it stands on. */
    method WakeLoop(k: Loop)
      requires Valid() && WF(abs) && abs.npost > 0
      modifies this`abs, this`active, this`postponed, this`nlockcli, this`held, lists, tasks
      ensures Valid() && active == old(active) && abs == TaskSpec.WakeLoop(old(abs), k)
    {
      hide Valid, Core, Recorded, Loose, Remove, WF, NoDup, StepLoop, Midway, Awake;
      ghost var s, l := abs, abs.q[ListOf(k)];
      ghost var kept, i := [], 0;
      FirstFacts(ListOf(k));
      LoopStarts(s, k);
      var cur := lists[ListOf(k)].first;
      while cur != null
        invariant Valid() && active == old(active) && tasks == old(tasks)
        invariant Midway(s, k, l, abs, kept, i) && (cur == null <==> i == |l|)
        invariant cur != null ==> cur in tasks && i < |l| && cur.id == l[i]
        decreases |l| - i
      {
        var next := cur.next;
        LoopTurns(s, k, l, abs, kept, i);
        NextFacts(ListOf(k), |kept|, cur);
        kept := LoopKept(abs, k, kept, l[i]);
        WakeStep(k, cur);
        cur := next;
        i := i + 1;
      }
      LoopEnds(s, k, l, abs, kept);
    }

    /** The end of the time slice. */
    method EndSlice()
      requires Valid() && abs.active in abs.tcb && abs.npost > 0
      modifies this`abs, this`active, this`postponed, lists, tasks
      ensures Valid() && old(abs).active in old(abs).tcb && abs == TaskSpec.EndSlice(old(abs))
    {
      hide Core, Recorded, Loose;
      ActiveFacts();
      var expired := active.nticks <= 1;
      if active.nticks > 0 {
        active.nticks := active.nticks - 1;
        SetRecord(active);
      }
      if expired { Postpone(); }
    }

    lemma NowhereQueued()
      requires WF(abs)
      ensures forall l: State :: abs.active !in abs.q[l]
    {
    }

    method LockPost()
      requires Valid()
      modifies this`nlockcli, this`nlockpost, this`abs
      ensures Valid() && abs == TaskSpec.LockPost(old(abs))
    {
      hide Structure;
      nlockcli := nlockcli + 1;
      nlockpost := nlockpost + 1;
      abs := TaskSpec.LockPost(abs);
    }

    method SetTime(now: nat)
      requires Valid()
      modifies this`timens, this`abs
      ensures Valid() && abs == old(abs).(now := now)
    {
      hide Structure;
      timens := now;
      abs := abs.(now := now);
    }

    /** The first half of task_unlockpost: tells whether a postponed switch is due. */
    method DropPost() returns (due: bool)
      requires Valid() && abs.npost == 1
      modifies this`nlockpost, this`postponed, this`abs
      ensures Valid() && abs == old(abs).(npost := 0, postponed := false) && due == old(abs).postponed
    {
      hide Structure;
      nlockpost := nlockpost - 1;
      due := postponed;
      postponed := false;
      abs := abs.(npost := 0, postponed := false);
    }

    method UnlockPost()
      requires Valid() && WF(abs) && CanUnlockPost(abs)
      modifies this`abs, this`active, this`postponed, this`nlockcli, this`nlockpost, lists, tasks
      ensures Valid() && CanUnlockPost(old(abs)) && abs == TaskSpec.UnlockPost(old(abs))
    {
      hide Valid, Core, Recorded, Loose, WF;
      NowhereQueued();
      var due := DropPost();
      ActiveFacts();
      Calling(InUnlockPost);
      if due { Schedule(); }
      Leave();
    }

    /** task_irq: the timer interrupt, which can arrive whenever no lock is held. */
    method Tick(busy: set<nat>)
      requires Valid() && WF(abs) && abs.ncli == 0 && abs.npost == 0
      modifies this`abs, this`active, this`postponed, this`nlockcli, this`nlockpost, this`timens, this`held, lists,
              tasks
      ensures Valid() && abs == TaskSpec.Tick(old(abs), busy)
    {
      hide Valid, Core, Recorded, Loose, WF, WakeAll, TaskSpec.EndSlice, TaskSpec.UnlockPost;
      ghost var s := abs;
      CounterFacts();
      LockPost();
      SetTime((timens + TICK_NS) % CLOCK_MOD);
      ClockFacts(s, abs);
      WakeLoop(Sleepers);
      WakeLoop(Paused(busy));
      WakeLoop(Signaled);
      WakeLoop(Pwaiters);
      ActiveFacts();
      EndSlice();
      assert abs == TickBody(s, busy);
      UnlockPostSwitches(abs);
      UnlockPost();
    }

    /** What loading leaves in a task's block: it has been entered, with `n` ticks of its slice left. */
    method Prepare(t: Task, n: nat)
      requires Valid() && t in tasks
      modifies this`abs, t`resume, t`nticks
      ensures Valid() && t.id in old(abs).tcb
      ensures abs == old(abs).(tcb := old(abs).tcb[t.id := old(abs).tcb[t.id].(resume := InUnlockPost, nticks := n)])
    {
      hide Core, Recorded;
      TaskFacts(t);
      t.resume, t.nticks := InUnlockPost, n;
      SetRecord(t);
    }

    // ---------- creating and removing tasks ----------

    /** task_new, for the part that concerns the task map and the lists. */
    method NewTask() returns (t: Task?)
      requires Valid()
      modifies this`abs, this`tasks, taskmap, lists, tasks`prev, tasks`next
      ensures Valid() && abs == TaskSpec.NewTask(old(abs))
      ensures if FreeId(old(abs).tcb, 0) < NTASKS then t != null && t.id == FreeId(old(abs).tcb, 0) && fresh(t)
              else t == null
      ensures tasks == if t == null then old(tasks) else old(tasks) + {t}
    {
      hide Structure, Recorded;
      var id := 0;
      while id < NTASKS && taskmap[id] != null
        invariant id <= NTASKS && FreeId(abs.tcb, 0) == FreeId(abs.tcb, id)
      {
        id := id + 1;
      }
      if id >= NTASKS { return null; }
      t := new Task(id);
      Enter(t);
      AddToList(READY, t);
    }

    ghost method SetTasks(ts: set<Task>)
      requires Structure() && forall l, x :: 0 <= l < NSTATES && x in lists[l].items ==> x in ts
      modifies this`tasks
      ensures Structure() && tasks == ts
    {
      tasks := ts;
    }

    lemma ItemFacts()
      requires Valid()
      ensures Structure() && forall l, x :: 0 <= l < NSTATES && x in lists[l].items ==> x in tasks
    {
    }

    /** taskmap[id] = task. */
    method TakeSlot(t: Task)
      requires Valid() && t.id < NTASKS && taskmap.Length == NTASKS && taskmap[t.id] == null
      modifies this`tasks, taskmap
      ensures Owned() && Structure() && tasks == old(tasks) + {t} && t !in old(tasks) && Loose(t)
      ensures forall i :: 0 <= i < NTASKS ==> taskmap[i] == if i == t.id then t else old(taskmap[i])
    {
      hide Structure, Loose, Queued, Recorded;
      NewIsLoose(t);
      SetTasks(tasks + {t});
      taskmap[t.id] := t;
    }

    method Enter(t: Task)
      requires Valid() && t.id < NTASKS && taskmap.Length == NTASKS && taskmap[t.id] == null && t.Rec() == FRESH
      modifies this`abs, this`tasks, taskmap
      ensures Valid() && tasks == old(tasks) + {t} && |lists| == NSTATES && Loose(t)
      ensures abs == old(abs).(tcb := old(abs).tcb[t.id := FRESH])
    {
      hide Structure, Loose, Queued;
      NewIsLoose(t);
      TakeSlot(t);
      abs := abs.(tcb := abs.tcb[t.id := FRESH]);
      SameQueues(old(abs));
    }

    lemma SameQueues(s: Sys)
      requires |lists| == NSTATES && abs.q == s.q && forall l: State :: Ids(lists[l].items) == s.q[l]
      ensures Queued()
    {
    }

    lemma NewIsLoose(t: Task)
      requires Valid() && t.id < NTASKS && taskmap[t.id] == null
      ensures t !in tasks && Loose(t) && Structure() && forall l: State, x :: x in lists[l].items ==> x in tasks
      ensures forall l: State :: Ids(lists[l].items) == abs.q[l]
    {
      ItemFacts();
    }

    method Drop(t: Task)
      requires Valid() && t in tasks && t != active && |lists| == NSTATES && Loose(t)
      modifies this`abs, this`tasks, taskmap
      ensures Valid() && tasks == old(tasks) - {t} && abs == old(abs).(tcb := old(abs).tcb - {t.id})
    {
      hide Structure, Loose, Queued, Owned;
      OffTheLists(t);
      LeaveSlot(t);
      abs := abs.(tcb := abs.tcb - {t.id});
      assert forall x :: x in tasks ==> Recorded(x);
      SameQueues(old(abs));
    }

    /** taskmap[id] = NULL. */
    method LeaveSlot(t: Task)
      requires Owned() && Structure() && t in tasks && forall l: State, x :: x in lists[l].items ==> x in tasks - {t}
      modifies this`tasks, taskmap
      ensures Owned() && Structure() && tasks == old(tasks) - {t} && t.id < NTASKS == taskmap.Length
      ensures forall i :: 0 <= i < NTASKS ==> taskmap[i] == if i == t.id then null else old(taskmap[i])
      ensures forall x :: x in tasks ==> x.id != t.id
    {
      hide Structure;
      SetTasks(tasks - {t});
      taskmap[t.id] := null;
    }

    lemma OffTheLists(t: Task)
      requires Valid() && |lists| == NSTATES && Loose(t)
      ensures Owned() && Structure() && forall l: State, x :: x in lists[l].items ==> x in tasks - {t}
      ensures forall l: State :: Ids(lists[l].items) == abs.q[l]
    {
    }

    /** task_cleanup: the ids of the terminated tasks become free. */
    method Cleanup()
      requires Valid() && WF(abs)
      modifies this`abs, this`tasks, taskmap, lists, tasks`prev, tasks`next
      ensures Valid() && WF(abs) && abs == TaskSpec.Cleanup(old(abs)) && tasks <= old(tasks)
    {
      hide Valid, Core, Recorded, Loose, Remove, WF, NoDup;
      FirstFacts(TERMINATED);
      while lists[TERMINATED].first != null
        invariant Valid() && WF(abs) && |lists| == NSTATES && tasks <= old(tasks)
        invariant lists[TERMINATED].first == null <==> abs.q[TERMINATED] == []
        invariant TaskSpec.Cleanup(abs) == TaskSpec.Cleanup(old(abs))
        decreases |abs.q[TERMINATED]|
      {
        var t := lists[TERMINATED].first;
        QueueFacts(TERMINATED);
        FirstFacts(TERMINATED);
        ReapFacts(abs);
        ReapWF(abs);
        RemoveHead(abs.q[TERMINATED]);
        ActiveFacts();
        RemoveFromList(TERMINATED, t);
        Drop(t);
        FirstFacts(TERMINATED);
      }
    }

    // ---------- what system calls do to the active task ----------

    method SetRes(r: Option<nat>)
      requires Valid()
      modifies this`abs, active`res
      ensures Valid() && Running(old(abs)) && abs == Edit(old(abs), old(abs).tcb[old(abs).active].(res := r))
    {
      hide Core, Recorded;
      ActiveFacts();
      active.res := r;
      SetRecord(active);
    }

    /** task_acquire up to its unlock: tells whether the caller must block. */
    method Acquire(n: nat, busy: set<nat>) returns (wait: bool)
      requires Valid()
      modifies this`abs, this`held, active`res
      ensures Valid() && Running(old(abs)) && abs == TaskSpec.Acquire(old(abs), n, busy)
      ensures wait == IsHeld(old(abs), busy, n)
    {
      hide Valid, Core, Recorded;
      CounterFacts();
      ActiveFacts();
      SetRes(Some(n));
      wait := n in held || n in busy;
      if !wait { SetHeld(n, true); }
    }

    /** task_release. */
    method Release()
      requires Valid()
      modifies this`abs, this`held, active`res
      ensures Valid() && Running(old(abs)) && abs == TaskSpec.Release(old(abs))
    {
      hide Valid, Core, Recorded;
      ActiveFacts();
      if active.res.None? { return; }
      SetHeld(active.res.value, false);
      ActiveFacts();
      SetRes(None);
    }

    /** task_nano_sleep_until up to the block: tells whether the caller must block. */
    method SleepUntil(waketime: nat) returns (wait: bool)
      requires Valid()
      modifies this`abs, active`waketime, active`wstatus
      ensures Valid() && Running(old(abs))
      ensures var r := TaskSpec.SleepUntil(old(abs), waketime);
        wait == r.Some? && abs == if wait then r.value else old(abs)
    {
      hide Valid, Core, Recorded;
      CounterFacts();
      ActiveFacts();
      if waketime < timens { return false; }
      SetWake(active, waketime, active.wstatus);
      wait := true;
    }

    method SetPwait(pid: int)
      requires Valid()
      modifies this`abs, active`pwait
      ensures Valid() && Running(old(abs)) && abs == Edit(old(abs), old(abs).tcb[old(abs).active].(pwait := pid))
    {
      hide Core, Recorded;
      ActiveFacts();
      active.pwait := pid;
      SetRecord(active);
    }

    /** task_pwait up to the block; `status` is the result when it returns at once. */
    method Pwait(pid: int, timeout: nat) returns (wait: bool, status: int)
      requires Valid()
      modifies this`abs, active`pwait, active`waketime, active`wstatus
      ensures Valid() && Running(old(abs))
      ensures var r := PwaitFor(old(abs), pid, timeout);
        wait == r.Some? && abs == if wait then r.value else old(abs)
      ensures !wait ==> status == ResultOf(old(abs), pid)
    {
      hide Valid, Core, Recorded;
      CounterFacts();
      ResultFacts();
      ActiveFacts();
      var task := Get(pid);
      if task == null || task.state == TERMINATED {
        return false, OrExited(if pid < 0 || pid >= NTASKS then 0 else taskres[pid]);
      }
      SetPwait(pid);
      ActiveFacts();
      SetWake(active, (timeout + timens) % CLOCK_MOD, 0);
      wait, status := true, 0;
    }

    method SetExit(code: int)
      requires Valid()
      modifies this`abs, active`exitcode
      ensures Valid() && Running(old(abs)) && abs == Edit(old(abs), old(abs).tcb[old(abs).active].(exitcode := code))
    {
      hide Core, Recorded;
      ActiveFacts();
      active.exitcode := code;
      SetRecord(active);
    }

    method SetResult(i: Pid, r: int)
      requires Valid() && i < NTASKS
      modifies this`abs, taskres
      ensures Valid() && abs == old(abs).(taskres := old(abs).taskres[i := r])
    {
      hide Structure;
      taskres[i] := r;
      abs := abs.(taskres := abs.taskres[i := r]);
    }

    /** The first step of task_terminate: the result is stored before anything is freed. */
    method Terminate(code: int)
      requires Valid()
      modifies this`abs, active`exitcode, taskres
      ensures Valid() && Running(old(abs)) && old(abs).active < NTASKS && abs == Leaving(old(abs), code)
    {
      hide Core, Recorded;
      ActiveFacts();
      SetExit(code);
      ActiveFacts();
      SetResult(active.id, code % 256);
    }
  }

  lemma ClockFacts(s: Sys, r: Sys)
    requires WF(s) && r == Clock(s)
    ensures WF(r) && r.npost > 0
  {
  }

  lemma ReapFacts(s: Sys)
    requires WF(s) && s.q[TERMINATED] != []
    ensures s.q[TERMINATED][0] != s.active
  {
  }

  /** Loop `k`, started in `s` on list `l`, has visited the first `i` tasks and reached `r`;
      of these `kept` are still queued. */
  ghost predicate Midway(s: Sys, k: Loop, l: seq<Pid>, r: Sys, kept: seq<Pid>, i: nat) {
    && i <= |l| && Awake(s, l) && WF(r) && r.npost > 0 && Awake(r, l[i..])
    && r.q[ListOf(k)] == kept + l[i..] && WakeAll(r, k, l[i..]) == WakeAll(s, k, l)
  }

  lemma LoopStarts(s: Sys, k: Loop)
    requires WF(s) && s.npost > 0
    ensures Midway(s, k, s.q[ListOf(k)], s, [], 0)
  {
    var l := s.q[ListOf(k)];
    assert l[0..] == l && [] + l == l;
  }

  lemma LoopEnds(s: Sys, k: Loop, l: seq<Pid>, r: Sys, kept: seq<Pid>)
    requires Midway(s, k, l, r, kept, |l|) && WF(s) && s.npost > 0 && l == s.q[ListOf(k)]
    ensures r == TaskSpec.WakeLoop(s, k)
  {
  }

  /** The blocks already passed that stay queued. */
  ghost function LoopKept(s: Sys, k: Loop, kept: seq<Pid>, t: Pid): seq<Pid>
    requires Awake(s, [t])
  {
    if StepLoop(s, k, t).q[ListOf(k)] == s.q[ListOf(k)] then kept + [t] else kept
  }

  /** One turn removes the block it stands on from its list or leaves the list alone. */
  lemma TurnEdits(s: Sys, k: Loop, t: Pid)
    requires Awake(s, [t]) && t in s.tcb && s.tcb[t].state == ListOf(k)
    ensures var q, r := s.q[ListOf(k)], StepLoop(s, k, t).q[ListOf(k)]; r == q || r == Remove(q, t)
  {
    hide Remove, IndexOf, OrExited, ResultOf, Gone;
    if !k.Paused? { assert t in [t]; }
  }

  lemma TurnFacts(s: Sys, k: Loop, t: Pid)
    requires WF(s) && s.npost > 0 && t in s.q[ListOf(k)]
    ensures t in s.tcb && s.tcb[t].state == ListOf(k) && t != s.active && s.active in s.tcb && Awake(s, [t])
    ensures NoDup(s.q[ListOf(k)])
  {
    assert s.q[RUNNING] == [];
  }

  /** Position `|kept|` of the list is `t`; cutting it out leaves the rest unmoved. */
  lemma CutAt(q: seq<Pid>, kept: seq<Pid>, l: seq<Pid>, i: nat)
    requires NoDup(q) && i < |l| && q == kept + l[i..]
    ensures var n := |kept|;
      n < |q| && q[n] == l[i] && (n == |q| - 1 <==> i == |l| - 1) && (i < |l| - 1 ==> q[n+1] == l[i+1])
    ensures Remove(q, l[i]) == kept + l[i+1..] && q == (kept + [l[i]]) + l[i+1..]
    ensures l[i..][1..] == l[i+1..] && l[i..][0] == l[i] && l[i] in q
  {
    var n := |kept|;
    assert q[n] == l[i];
    RemoveAt(q, n);
    assert q[..n] + q[n+1..] == kept + l[i+1..];
  }

  /** The rest of the list is unmoved, so the loop goes on where it would have gone. */
  lemma LoopTurns(s: Sys, k: Loop, l: seq<Pid>, r: Sys, kept: seq<Pid>, i: nat)
    requires Midway(s, k, l, r, kept, i) && i < |l|
    ensures var t, q, n := l[i], r.q[ListOf(k)], |kept|;
      && Awake(r, [t]) && t in r.tcb && t in r.q[r.tcb[t].state] && t != r.active && r.active in r.tcb && r.npost > 0
      && n < |q| && q[n] == t && (n == |q| - 1 <==> i == |l| - 1) && (i < |l| - 1 ==> q[n+1] == l[i+1])
      && Midway(s, k, l, StepLoop(r, k, t), LoopKept(r, k, kept, t), i + 1)
  {
    hide WF, StepLoop, Remove, IndexOf, NoDup, ListOf;
    var t, q := l[i], r.q[ListOf(k)];
    ListNoDup(r, ListOf(k));
    CutAt(q, kept, l, i);
    TurnFacts(r, k, t);
    StepLoopWF(r, k, t);
    TurnEdits(r, k, t);
    AwakeLater(r, StepLoop(r, k, t), l[i..]);
  }

  lemma AwakeLater(s: Sys, r: Sys, l: seq<Pid>)
    requires Awake(s, l) && l != [] && r.tcb.Keys == s.tcb.Keys && r.npost == s.npost && r.active == s.active
    ensures Awake(r, l[1..])
  {
  }

  lemma ListNoDup(s: Sys, l: State)
    requires WF(s)
    ensures NoDup(s.q[l])
  {
  }
}
