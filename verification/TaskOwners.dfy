/**
 * Resource ownership in the scheduler: `claim` says which node each task inside an
 * acquire/release bracket is after. A task owns the node it claims once it is not
 * PAUSED. The tick hands nodes over without ever creating a second owner.
 */
module TaskOwners {
  import opened Util
  import opened TaskSpec

  type Claim = map<Pid, nat>

  ghost predicate Owns(s: Sys, claim: Claim, t: Pid, n: nat) {
    t in s.tcb && t in claim && claim[t] == n && s.tcb[t].state != PAUSED
  }

  /** `held` is true exactly when one task owns the node, and no two tasks do. */
  ghost predicate OwnInv(s: Sys, claim: Claim) {
    && (forall n :: n in s.held ==> exists t :: Owns(s, claim, t, n))
    && (forall t, n :: Owns(s, claim, t, n) ==> n in s.held)
    && (forall t, u, n :: Owns(s, claim, t, n) && Owns(s, claim, u, n) ==> t == u)
    && (forall t :: t in s.tcb && s.tcb[t].state == PAUSED ==> t in claim && s.tcb[t].res == Some(claim[t]))
  }

  /** Nothing in `r` that ownership depends on differs from `s`. */
  ghost predicate SamePaused(s: Sys, r: Sys) {
    && r.tcb.Keys == s.tcb.Keys && r.held == s.held
    && forall u :: u in s.tcb ==>
         r.tcb[u].res == s.tcb[u].res && (r.tcb[u].state == PAUSED <==> s.tcb[u].state == PAUSED)
  }

  lemma SamePausedKeeps(s: Sys, r: Sys, claim: Claim)
    requires OwnInv(s, claim) && SamePaused(s, r)
    ensures OwnInv(r, claim)
  {
    assert forall t, n :: Owns(r, claim, t, n) <==> Owns(s, claim, t, n);
    forall n | n in r.held ensures exists t :: Owns(r, claim, t, n) {
      var t :| Owns(s, claim, t, n);
      assert Owns(r, claim, t, n);
    }
  }

  /** The waking tick sets `held` on behalf of exactly the task it wakes. */
  lemma StepPausedOwners(s: Sys, claim: Claim, busy: set<nat>, t: Pid)
    requires WF(s) && s.npost > 0 && OwnInv(s, claim) && t in s.tcb && s.tcb[t].state == PAUSED
    ensures Awake(s, [t]) && OwnInv(StepLoop(s, Paused(busy), t), claim)
  {
    assert Awake(s, [t]);
    var r, n := StepLoop(s, Paused(busy), t), claim[t];
    if !IsHeld(s, busy, n) {
      assert t != s.active;
      assert forall u, m :: u != t ==> (Owns(r, claim, u, m) <==> Owns(s, claim, u, m));
      assert Owns(r, claim, t, n);
      forall m | m in r.held ensures exists u :: Owns(r, claim, u, m) {
        if m != n {
          var u :| Owns(s, claim, u, m);
          assert Owns(r, claim, u, m);
        }
      }
    }
  }

  lemma {:induction false} PausedLoopOwners(s: Sys, claim: Claim, busy: set<nat>, l: seq<Pid>)
    requires WF(s) && s.npost > 0 && OwnInv(s, claim) && NoDup(l)
    requires forall x :: x in l ==> x in s.tcb && s.tcb[x].state == PAUSED
    ensures Awake(s, l) && OwnInv(WakeAll(s, Paused(busy), l), claim)
    decreases |l|
  {
    if l != [] {
      var t := l[0];
      StepPausedOwners(s, claim, busy, t);
      StepLoopWF(s, Paused(busy), t);
      StepLoopFrame(s, Paused(busy), t);
      var s1 := StepLoop(s, Paused(busy), t);
      forall x | x in l[1..] ensures x in s1.tcb && s1.tcb[x].state == PAUSED {
        assert x in l && x != t;
      }
      PausedLoopOwners(s1, claim, busy, l[1..]);
    }
  }

  lemma LoopSamePaused(s: Sys, k: Loop, claim: Claim)
    requires WF(s) && s.npost > 0 && OwnInv(s, claim)
    ensures OwnInv(WakeLoop(s, k), claim)
  {
    hide OwnInv;
    WakeLoopDecides(s, k);
    var r := WakeLoop(s, k);
    if k.Paused? {
      PausedLoopOwners(s, claim, k.busy, s.q[PAUSED]);
    } else {
      assert forall u :: u in s.tcb ==> LoopOn(s, k, r, u);
      SamePausedKeeps(s, r, claim);
    }
  }

  lemma AfterTickOwners(m: Sys, claim: Claim)
    requires WF(m) && m.npost > 0 && m.ncli > 0 && OwnInv(m, claim)
    ensures OwnInv(AfterTick(m), claim)
  {
    var r := AfterTick(m);
    if m.q[READY] != [] { assert m.tcb[m.q[READY][0]].state == READY; }
    SamePausedKeeps(m, r, claim);
  }

  lemma LoopsOwners(s0: Sys, busy: set<nat>, claim: Claim)
    requires WF(s0) && s0.npost > 0 && OwnInv(s0, claim)
    ensures OwnInv(WakeLoop(WakeLoop(WakeLoop(WakeLoop(s0, Sleepers), Paused(busy)), Signaled), Pwaiters), claim)
  {
    LoopSamePaused(s0, Sleepers, claim);
    var s1 := WakeLoop(s0, Sleepers);
    LoopSamePaused(s1, Paused(busy), claim);
    var s2 := WakeLoop(s1, Paused(busy));
    LoopSamePaused(s2, Signaled, claim);
    LoopSamePaused(WakeLoop(s2, Signaled), Pwaiters, claim);
  }

  lemma EndSliceOwners(s: Sys, claim: Claim)
    requires s.active in s.tcb && s.npost > 0 && OwnInv(s, claim)
    ensures OwnInv(EndSlice(s), claim)
  {
    SamePausedKeeps(s, EndSlice(s), claim);
  }

  lemma ClockOwners(s: Sys, claim: Claim)
    requires WF(s) && OwnInv(s, claim)
    ensures WF(Clock(s)) && OwnInv(Clock(s), claim)
  {
    SamePausedKeeps(s, Clock(s), claim);
  }

  /** A whole tick keeps one owner per held node. */
  lemma TickOwners(s: Sys, busy: set<nat>, claim: Claim)
    requires WF(s) && s.ncli == 0 && s.npost == 0 && OwnInv(s, claim)
    ensures OwnInv(Tick(s, busy), claim)
  {
    ClockOwners(s, claim);
    LoopsOwners(Clock(s), busy, claim);
    EndSliceOwners(TickLoops(s, busy), claim);
    UnlockPostSwitches(TickBody(s, busy));
    AfterTickOwners(TickBody(s, busy), claim);
  }
}
