/**
 * The two ends of the protocol as procedures on one channel in place: send_message of lib/wm.c
 * and the request part of server_update of bin/wm/server.c. Between any two of its system calls
 * the procedure is away while the other participants run; `others` says what they do each time.
 */
module WindowManager {
  import opened Util
  import opened ChannelSpec
  import opened Channels
  import R = ChannelRuns
  import X = ChannelCalls

  class System {
    const chan: Channel
    const server: R.Pid
    var clients: map<R.Pid, R.Client>  // how far each client is in send_message
    var srv: R.Server                  // and the server in server_update
    ghost var asked: map<R.Pid, Bytes>
    ghost var heard: map<R.Pid, Bytes>
    ghost var reply: map<R.Pid, Bytes>

    ghost const init: R.World
    ghost var log: seq<R.Event>        // every call made so far

    /** The log is a run of the protocol that has led here. */
    ghost predicate Valid()
      reads this, chan, chan.buf
    {
      && chan.Valid() && R.Inv(init) && server !in clients
      && R.Runs(init, log) && View() == R.After(init, log)
    }

    ghost function View(): R.World
      requires chan.Valid()
      reads this, chan, chan.buf
    {
      R.World(server, chan.View(), clients, srv, asked, heard, reply)
    }

    /** No client has read before the server's answer to it was written. */
    ghost predicate Orderly(log: seq<R.Event>)
      reads this
    {
      R.Runs(init, log) && !R.ReadsEarly(init, log)
    }

    /** The server opens the channel first. */
    constructor (server: R.Pid, clients: set<R.Pid>)
      requires server !in clients
      ensures Valid() && View() == R.Start(server, clients) && log == [] && fresh(chan) && fresh(chan.buf)
    {
      chan := new Channel(server);
      this.server, srv, asked, heard, reply := server, R.Waiting, map[], map[], map[];
      this.clients := map c | c in clients :: R.Idle;
      init, log := R.Start(server, clients), [];
    }

    /** Where everybody stands; what is in the channel does not matter for whose turn it can be. */
    function Here(): R.World
      reads this
    {
      R.World(server, Chan(0, 0, 0, 0, []), clients, srv, map[], map[], map[])
    }

    lemma HereFacts(e: R.Event)
      requires Valid()
      ensures R.Enabled(Here(), e) <==> R.Enabled(View(), e)
      ensures R.Actor(Here(), e) == R.Actor(View(), e)
    {
      hide R.Inv, R.Runs, R.After;
    }

    /** One system call of whoever's turn it is. */
    method Call(e: R.Event) returns (data: Bytes)
      requires Valid() && R.Enabled(View(), e)
      modifies this, chan, chan.buf
      ensures Valid() && View() == R.Step(old(View()), e) && log == old(log) + [e]
      ensures Orderly(log) ==> old(Orderly(log))
      ensures data == if e.CRead? then ChannelSpec.Read(old(chan.View()), e.pid, BUFSZ).1 else []
    {
      hide R.Inv, R.Step, R.Runs, R.After, R.Enabled;
      ghost var w := View();
      R.Appended(init, log, e);
      SameServer(w, e);
      data := [];
      if R.ByClient(e) { data := ClientCall(e); } else { ServerCall(e); }
      log := log + [e];
    }

    static lemma SameServer(w: R.World, e: R.Event)
      requires R.Enabled(w, e)
      ensures R.Step(w, e).server == w.server && R.Step(w, e).clients.Keys == w.clients.Keys
      ensures e.CRead? ==> R.ByClient(e)
    {
    }

    method ClientCall(e: R.Event) returns (data: Bytes)
      requires chan.Valid() && R.ByClient(e) && R.Enabled(View(), e)
      modifies this`clients, this`srv, this`asked, this`heard, this`reply, chan, chan.buf
      ensures chan.Valid() && View() == R.Step(old(View()), e)
      ensures data == if e.CRead? then ChannelSpec.Read(old(chan.View()), e.pid, BUFSZ).1 else []
    {
      data := [];
      match e
      case CWrite(c, request) =>
        var code, d := chan.Write(c, request);
        if code.Done? {
          if d >= 0 && d in clients && clients[d].Asleep? { clients := clients[d := R.Asleep(true)]; }
          clients := clients[c := R.Sent];
          asked, reply := asked[c := Clip(request)], reply - {c};
        }
      case CCheck(c) =>
        var mine := chan.Addressed(c);
        clients := clients[c := if mine then R.Cleared else R.Drowsy];
      case CSleep(c) =>
        clients := clients[c := R.Asleep(false)];
      case CWake(c) =>
        clients := clients[c := R.Cleared];
      case CRead(c) =>
        var b := chan.Read(c, BUFSZ);
        data := b[..];
        clients := clients[c := R.Idle];
    }

    method ServerCall(e: R.Event)
      requires chan.Valid() && !R.ByClient(e) && R.Enabled(View(), e)
      modifies this`clients, this`srv, this`asked, this`heard, this`reply, chan, chan.buf
      ensures chan.Valid() && View() == R.Step(old(View()), e)
    {
      match e
      case SCheck =>
        var mine := chan.Addressed(server);
        if mine { srv := R.Seen; }
      case SSource =>
        var pid := chan.GetSource();
        srv := R.Knows(pid);
      case SLock =>
        var _ := chan.LockW(server);
        srv := R.Locked(srv.pid);
      case SRead =>
        var b := chan.Read(server, BUFSZ);
        srv := R.Got(srv.pid, b[..]);
      case SAddress =>
        var _ := chan.SetDest(server, srv.pid);
        srv := R.Addressed(srv.pid, srv.req);
      case SAnswer(response) =>
        var code, d := chan.Write(server, response);
        if code.Done? && d >= 0 && d in clients && clients[d].Asleep? { clients := clients[d := R.Asleep(true)]; }
        if srv.pid >= 0 { heard, reply := heard[srv.pid := srv.req], reply[srv.pid := Clip(response)]; }
        srv := R.Answered;
      case SUnlock =>
        var _ := chan.UnlockW(server);
        srv := R.Waiting;
    }

    /** What the others do while `me` is away: those of the calls in `es` that are their turn. */
    method Away(me: R.Pid, es: seq<R.Event>)
      requires Valid()
      modifies this, chan, chan.buf
      ensures Valid() && log == old(log) + X.Played(old(View()), me, es) && R.Others(me, old(View()), View())
      ensures var p := X.Played(old(View()), me, es); R.Runs(old(View()), p) && View() == R.After(old(View()), p)
      ensures Orderly(log) ==> old(Orderly(log))
    {
      hide R.Inv, R.Step, R.Enabled, R.Actor, R.Runs, R.After;
      NothingYet(me);
      var i := 0;
      while i < |es|
        invariant i <= |es| && Valid() && R.Others(me, old(View()), View())
        invariant log + X.Played(View(), me, es[i..]) == old(log) + X.Played(old(View()), me, es)
        invariant Orderly(log) ==> old(Orderly(log))
      {
        HereFacts(es[i]);
        if R.Enabled(Here(), es[i]) && R.Actor(Here(), es[i]) != me {
          ghost var w := View();
          R.OthersStep(me, w, es[i]);
          R.OthersOn(me, old(View()), w, R.Step(w, es[i]));
          var _ := Call(es[i]);
        }
        i := i + 1;
      }
      X.PlayedRuns(old(View()), me, es);
      R.Joined(init, old(log), X.Played(old(View()), me, es));
    }

    lemma NothingYet(me: R.Pid)
      requires Valid()
      ensures R.Others(me, View(), View())
    {
    }

    lemma InOrder()
      requires Valid() && Orderly(log)
      ensures R.Inv(View())
    {
      R.InvAfter(init, log);
    }

    static function Turn(others: seq<seq<R.Event>>, k: nat): seq<R.Event> {
      if k < |others| then others[k] else []
    }

    static function From(others: seq<seq<R.Event>>, k: nat): (r: seq<seq<R.Event>>)
      ensures X.First(r) == Turn(others, k)
      ensures X.Rest(r) == if k < |others| then others[k+1..] else []
    {
      if k < |others| then others[k..] else []
    }

    /** All that is going to have happened when send_message of `me` is over, and whether it ends
        with its read. */
    ghost function Ahead(me: R.Pid, request: Bytes, turns: seq<seq<R.Event>>): (seq<R.Event>, bool)
      requires Valid() && me in clients && request != []
      reads this, chan, chan.buf
    {
      (log + X.Exchange(View(), me, request, turns), X.EndsInRead(View(), me, request, turns))
    }

    /** send_message, up to the end of its read; None if `others` ends before the call does. What
        has happened by then is the exchange of `ChannelCalls`. As long as no read of anybody came
        early, what the caller takes for the response is empty exactly if the server has addressed
        it and has yet to write, and otherwise it is the server's answer to this very request. */
    method SendMessage(me: R.Pid, request: Bytes, others: seq<seq<R.Event>>) returns (rsp: Option<Bytes>)
      requires Valid() && R.At(View(), me, R.Idle) && request != []
      modifies this, chan, chan.buf
      ensures Valid() && log == old(log) + X.Exchange(old(View()), me, request, others)
      ensures rsp.Some? <==> R.CRead(me) in X.Exchange(old(View()), me, request, others)
      ensures rsp.None? ==> R.At(View(), me, R.Idle) || R.At(View(), me, R.Asleep(false))
      ensures rsp.Some? ==> |log| > |old(log)| && log[|log|-1] == R.CRead(me) && R.At(View(), me, R.Idle)
      ensures rsp.Some? && Orderly(log[..|log|-1]) ==>
        && (rsp.value == [] <==> srv.Addressed? && srv.pid == me)
        && (rsp.value != [] ==> me in heard && heard[me] == Clip(request) && me in reply && rsp.value == reply[me])
    {
      hide R.Inv, R.Step, R.Enabled, R.Runs, R.After, R.ReadsEarly, Orderly, X.Exchange, X.EndsInRead, X.Played;
      X.EndsIff(View(), me, request, others);
      assert others == From(others, 0);
      var sent, k := WriteLoop(me, request, others);
      if !sent { Over(me, request); return None; }
      var returned;
      returned, k := WaitRead(me, request, others, k);
      if !returned { Over(me, request); return None; }
      var data := ReadResponse(me, request, Turn(others, k), From(others, k));
      rsp := Some(data);
    }

    /** The write is tried again until it is taken, or nobody has a turn left. */
    method WriteLoop(me: R.Pid, request: Bytes, others: seq<seq<R.Event>>) returns (sent: bool, k: nat)
      requires Valid() && R.At(View(), me, R.Idle) && request != []
      modifies this, chan, chan.buf
      ensures Valid() && me in clients
      ensures Ahead(me, request, From(others, k)) == old(Ahead(me, request, From(others, 0)))
      ensures if sent then R.At(View(), me, R.Sent) && me in asked && asked[me] == Clip(request)
              else R.At(View(), me, R.Idle) && k >= |others|
    {
      hide R.Inv, R.Step, R.Enabled, R.Runs, R.After, R.ReadsEarly, Orderly, X.Exchange, X.EndsInRead, X.Played;
      k := 0;
      while clients[me].Idle?
        invariant Valid() && me in clients
        invariant Ahead(me, request, From(others, k)) == old(Ahead(me, request, From(others, 0)))
        invariant clients[me] == R.Idle || (clients[me] == R.Sent && me in asked && asked[me] == Clip(request))
        decreases |others| - k
      {
        if k >= |others| { return false, k; }
        var _ := Then(me, request, others[k], R.CWrite(me, request), From(others, k));
        k := k + 1;
      }
      sent := true;
    }

    /** It can only wait, and nobody has a turn left. */
    lemma Over(me: R.Pid, request: Bytes)
      requires Valid() && me in clients && request != [] && (clients[me].Idle? || clients[me] == R.Asleep(false))
      ensures Ahead(me, request, []) == (log, false)
    {
      assert log + [] == log;
    }

    static lemma ReadLeaves(w: R.World, me: R.Pid)
      requires R.Enabled(w, R.CRead(me))
      ensures var r := R.Step(w, R.CRead(me));
        r.srv == w.srv && r.heard == w.heard && r.reply == w.reply && R.At(r, me, R.Idle)
    {
    }

    /** The others take a turn, and then `me` makes its next call, which is no read. */
    method Then(me: R.Pid, request: Bytes, turn: seq<R.Event>, c: R.Event, ghost turns: seq<seq<R.Event>>)
      returns (data: Bytes)
      requires Valid() && me in clients && request != [] && !clients[me].Asleep? && !c.CRead?
      requires X.NextCall(clients[me], me, request) == Some(c)
      requires turn == X.First(turns) && (turns == [] ==> !clients[me].Idle?)
      modifies this, chan, chan.buf
      ensures Valid() && me in clients && Ahead(me, request, X.Rest(turns)) == old(Ahead(me, request, turns))
      ensures c.CWrite? ==>
        clients[me] == R.Idle || (clients[me] == R.Sent && me in asked && asked[me] == Clip(request))
      ensures c.CCheck? ==> clients[me] in {R.Cleared, R.Drowsy}
      ensures c.CSleep? ==> clients[me] == R.Asleep(false)
      ensures !c.CWrite? && me in old(asked) ==> me in asked && asked[me] == old(asked[me])
    {
      hide R.Inv, R.Step, R.Runs, R.After, R.Enabled, X.Played, X.Exchange, X.EndsInRead;
      ghost var w := View();
      Away(me, turn);
      X.CallMoves(View(), me, request);
      X.ExchangeCalls(w, me, request, turns, View(), c);
      data := Call(c);
      Regrouped(old(log), X.Played(w, me, turn), [c], X.Exchange(View(), me, request, X.Rest(turns)));
    }

    static lemma Regrouped<T>(a: seq<T>, b: seq<T>, c: seq<T>, d: seq<T>)
      ensures a + (b + c + d) == a + b + c + d
    {
    }

    /** The WAITREAD of send_message: it returns at once if the message is there, else it sleeps. */
    method WaitRead(me: R.Pid, request: Bytes, others: seq<seq<R.Event>>, from: nat) returns (returned: bool, k: nat)
      requires Valid() && R.At(View(), me, R.Sent) && me in asked && request != [] && asked[me] == Clip(request)
      modifies this, chan, chan.buf
      ensures Valid() && me in clients && me in asked && asked[me] == Clip(request)
      ensures Ahead(me, request, From(others, k)) == old(Ahead(me, request, From(others, from)))
      ensures if returned then R.At(View(), me, R.Cleared) else R.At(View(), me, R.Asleep(false)) && k >= |others|
    {
      hide R.Inv, R.Runs, R.After, R.ReadsEarly, Orderly, X.Exchange, X.EndsInRead;
      var _ := Then(me, request, Turn(others, from), R.CCheck(me), From(others, from));
      k := from + 1;
      returned := true;
      if clients[me].Drowsy? {
        returned, k := Sleep(me, request, others, k);
      }
    }

    /** It sleeps until a write cuts the sleep short. */
    method Sleep(me: R.Pid, request: Bytes, others: seq<seq<R.Event>>, from: nat) returns (woken: bool, k: nat)
      requires Valid() && R.At(View(), me, R.Drowsy) && me in asked && request != [] && asked[me] == Clip(request)
      modifies this, chan, chan.buf
      ensures Valid() && me in clients && me in asked && asked[me] == Clip(request)
      ensures Ahead(me, request, From(others, k)) == old(Ahead(me, request, From(others, from)))
      ensures if woken then R.At(View(), me, R.Cleared) else R.At(View(), me, R.Asleep(false)) && k >= |others|
    {
      hide R.Inv, R.Runs, R.After, R.ReadsEarly, Orderly, X.Exchange, X.EndsInRead;
      var _ := Then(me, request, Turn(others, from), R.CSleep(me), From(others, from));
      k := from + 1;
      while clients[me].Asleep?
        invariant Valid() && me in clients && me in asked && asked[me] == Clip(request)
        invariant clients[me] in {R.Asleep(false), R.Cleared}
        invariant Ahead(me, request, From(others, k)) == old(Ahead(me, request, From(others, from)))
        decreases |others| - k
      {
        if k >= |others| { return false, k; }
        MayWake(me, request, others[k], From(others, k));
        k := k + 1;
      }
      woken := true;
    }

    /** A turn during the sleep. */
    method MayWake(me: R.Pid, request: Bytes, turn: seq<R.Event>, ghost turns: seq<seq<R.Event>>)
      requires Valid() && R.At(View(), me, R.Asleep(false)) && request != [] && turns != [] && turn == turns[0]
      requires me in asked
      modifies this, chan, chan.buf
      ensures Valid() && me in clients && clients[me] in {R.Asleep(false), R.Cleared}
      ensures me in asked && asked[me] == old(asked[me])
      ensures Ahead(me, request, X.Rest(turns)) == old(Ahead(me, request, turns))
    {
      hide R.Inv, R.Step, R.Runs, R.After, R.Enabled, X.Played, X.Exchange, X.EndsInRead;
      ghost var w := View();
      Away(me, turn);
      if clients[me] == R.Asleep(true) {
        X.CallMoves(View(), me, request);
        X.ExchangeCalls(w, me, request, turns, View(), R.CWake(me));
        var _ := Call(R.CWake(me));
        Regrouped(old(log), X.Played(w, me, turn), [R.CWake(me)], X.Exchange(View(), me, request, X.Rest(turns)));
      } else {
        X.ExchangeWaits(w, me, request, turns, View());
        ghost var p, more := X.Played(w, me, turn), X.Exchange(View(), me, request, X.Rest(turns));
        assert old(log) + (p + more) == old(log) + p + more;
      }
    }

    /** The last turn and the read. */
    method ReadResponse(me: R.Pid, request: Bytes, turn: seq<R.Event>, ghost turns: seq<seq<R.Event>>)
      returns (data: Bytes)
      requires Valid() && R.At(View(), me, R.Cleared) && request != [] && turn == X.First(turns)
      requires me in asked && asked[me] == Clip(request)
      modifies this, chan, chan.buf
      ensures Valid() && (log, true) == old(Ahead(me, request, turns)) && R.At(View(), me, R.Idle)
      ensures |log| > |old(log)| && log[|log|-1] == R.CRead(me)
      ensures Orderly(log[..|log|-1]) ==>
        && (data == [] <==> srv.Addressed? && srv.pid == me)
        && (data != [] ==> me in heard && heard[me] == Clip(request) && me in reply && data == reply[me])
    {
      hide R.Inv, R.Step, R.Runs, R.After, R.ReadsEarly, R.Enabled, X.Played, X.Exchange, X.EndsInRead;
      ghost var w := View();
      Away(me, turn);
      X.CallMoves(View(), me, request);
      X.ExchangeCalls(w, me, request, turns, View(), R.CRead(me));
      ghost var v, before := View(), log;
      if Orderly(log) {
        InOrder();
        R.EarlyWindow(v, me);
      }
      ReadLeaves(v, me);
      data := Call(R.CRead(me));
      assert log[..|log|-1] == before;
      assert log == old(log) + (X.Played(w, me, turn) + [R.CRead(me)] + []);
    }

    /** All that is going to have happened when the server has dealt with the message it has seen. */
    ghost function Coming(answer: Bytes -> Bytes, turns: seq<seq<R.Event>>): seq<R.Event>
      requires Valid() && forall m :: answer(m) != []
      reads this, chan, chan.buf
    {
      log + X.Answering(View(), answer, turns)
    }

    /** The request part of server_update: the message is received under the write lock, and what
        `answer` makes of it is sent back. None if no message came in time. What has happened by then
        is the serving of `ChannelCalls`. As long as no read of anybody came early, the task served
        got the answer to what it asked last, and the lock keeps both as they are until the end. */
    method ServerUpdate(answer: Bytes -> Bytes, others: seq<seq<R.Event>>) returns (served: Option<int>)
      requires Valid() && srv.Waiting? && forall m :: answer(m) != []
      modifies this, chan, chan.buf
      ensures Valid() && log == old(log) + X.Serving(old(View()), answer, others) && srv.Waiting?
      ensures served.Some? <==> X.Found(old(View()), others)
      ensures served.None? ==> chan.dest != server
      ensures served.Some? && Orderly(log) ==>
        && served.value >= 0 && served.value in asked && served.value in heard && served.value in reply
        && heard[served.value] == asked[served.value] && reply[served.value] == Clip(answer(asked[served.value]))
    {
      hide R.Inv, R.Runs, R.After, R.ReadsEarly, R.Step, R.Enabled, Orderly, X.Answering, X.Serving, X.Found, X.Played;
      var mine := Poll(answer, Turn(others, 0), From(others, 0));
      if !mine {
        NothingComing(answer, From(others, 1));
        return None;
      }
      Take(answer, others);
      var pid := srv.pid;
      Respond(answer, others);
      Follow(answer, Turn(others, 6), R.SUnlock, From(others, 6));
      NothingComing(answer, From(others, 7));
      served := Some(pid);
    }

    lemma NothingComing(answer: Bytes -> Bytes, turns: seq<seq<R.Event>>)
      requires Valid() && srv.Waiting? && forall m :: answer(m) != []
      ensures Coming(answer, turns) == log
    {
      assert log + [] == log;
    }

    /** The server's WAITREAD: a message that is there, or that came by the end of the timeout. */
    method Poll(ghost answer: Bytes -> Bytes, meanwhile: seq<R.Event>, ghost turns: seq<seq<R.Event>>)
      returns (mine: bool)
      requires Valid() && srv.Waiting? && meanwhile == X.First(turns) && forall m :: answer(m) != []
      modifies this, chan, chan.buf
      ensures Valid() && srv == (if mine then R.Seen else R.Waiting) && (mine <==> X.Found(old(View()), turns))
      ensures !mine ==> chan.dest != server
      ensures Coming(answer, X.Rest(turns)) == old(log) + X.Serving(old(View()), answer, turns)
    {
      hide R.Inv, R.Runs, R.After, R.ReadsEarly, Orderly, X.Answering, X.Played;
      ghost var w := View();
      var _ := Call(R.SCheck);
      ghost var looked := [R.SCheck];
      if srv.Waiting? {
        ghost var p := X.Played(View(), server, meanwhile);
        Away(server, meanwhile);
        var _ := Call(R.SCheck);
        looked := [R.SCheck] + p + [R.SCheck];
      }
      mine := srv.Seen?;
      ghost var more := X.Answering(View(), answer, X.Rest(turns));
      assert log == old(log) + looked && X.Serving(w, answer, turns) == looked + more;
      assert old(log) + (looked + more) == old(log) + looked + more;
    }

    /** The others take a turn, and then the server makes its next call `c`. */
    method Follow(answer: Bytes -> Bytes, turn: seq<R.Event>, c: R.Event, ghost turns: seq<seq<R.Event>>)
      requires Valid() && !srv.Waiting? && (forall m :: answer(m) != []) && turn == X.First(turns)
      requires c == X.ServerCall(srv, answer)
      modifies this, chan, chan.buf
      ensures Valid() && X.Next(old(srv), srv) && (Orderly(log) ==> old(Orderly(log)))
      ensures Coming(answer, X.Rest(turns)) == old(Coming(answer, turns))
      ensures old(srv.Answered?) && old(chan.lockw) == server ==>
        asked == old(asked) && heard == old(heard) && reply == old(reply)
      ensures var k := old(srv); k.Addressed? && Orderly(log) ==>
        && k.pid >= 0 && k.pid in asked && k.pid in heard && k.pid in reply
        && heard[k.pid] == asked[k.pid] == k.req && reply[k.pid] == Clip(answer(k.req)) && chan.lockw == server
    {
      hide R.Inv, R.Step, R.Runs, R.After, R.ReadsEarly, Orderly, X.Played, X.Answering;
      ghost var w := View();
      Away(server, turn);
      ghost var v := View();
      X.ServerMoves(v, answer);
      X.ServerNext(v, answer);
      if srv.Addressed? && Orderly(log) {
        InOrder();
        R.AnswerGives(v, answer(srv.req));
      }
      if srv.Answered? { X.UnlockLeaves(v); }
      X.AnsweringCalls(w, answer, turns, v);
      var _ := Call(c);
      Regrouped(old(log), X.Played(w, server, turn), [c], X.Answering(View(), answer, X.Rest(turns)));
    }

    /** GETSOURCE, LOCKW and the read. */
    method Take(answer: Bytes -> Bytes, others: seq<seq<R.Event>>)
      requires Valid() && srv.Seen? && forall m :: answer(m) != []
      modifies this, chan, chan.buf
      ensures Valid() && srv.Got? && Coming(answer, From(others, 4)) == old(Coming(answer, From(others, 1)))
    {
      hide R.Inv, R.Step, R.Enabled, R.Runs, R.After, R.ReadsEarly, Orderly, X.Answering;
      Follow(answer, Turn(others, 1), R.SSource, From(others, 1));
      Follow(answer, Turn(others, 2), R.SLock, From(others, 2));
      Follow(answer, Turn(others, 3), R.SRead, From(others, 3));
    }

    /** send_response. */
    method Respond(answer: Bytes -> Bytes, others: seq<seq<R.Event>>)
      requires Valid() && srv.Got? && forall m :: answer(m) != []
      modifies this, chan, chan.buf
      ensures Valid() && srv.Answered? && Coming(answer, From(others, 6)) == old(Coming(answer, From(others, 4)))
      ensures var p, req := old(srv.pid), old(srv.req);
        Orderly(log) ==> p >= 0 && p in asked && p in heard && p in reply
                         && heard[p] == asked[p] == req && reply[p] == Clip(answer(req)) && chan.lockw == server
    {
      hide R.Inv, R.Runs, R.After, R.ReadsEarly, Orderly, X.Answering;
      ghost var k := srv;
      Follow(answer, Turn(others, 4), R.SAddress, From(others, 4));
      assert srv == R.Addressed(k.pid, k.req);
      Follow(answer, Turn(others, 5), R.SAnswer(answer(srv.req)), From(others, 5));
    }
  }
}
