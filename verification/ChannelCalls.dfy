/**
 * Whole exchanges over the channel, call by call, and the one way in which an answer is never
 * read: a client that goes to sleep although its answer is already there.
 */
module ChannelCalls {
  import opened Util
  import opened ChannelSpec
  import opened ChannelRuns

  // ---------- taking turns ----------

  /** Those of the calls in `es` that are possible when their turn comes, but for those of `me`. */
  function Played(w: World, me: Pid, es: seq<Event>): (r: seq<Event>)
    decreases |es|
  {
    if es == [] then []
    else if Enabled(w, es[0]) && Actor(w, es[0]) != me then [es[0]] + Played(Step(w, es[0]), me, es[1..])
    else Played(w, me, es[1..])
  }

  lemma StepHome(w: World, e: Event)
    requires Enabled(w, e)
    ensures Step(w, e).server == w.server && Step(w, e).clients.Keys == w.clients.Keys
  {
  }

  lemma {:induction false} PlayedRuns(w: World, me: Pid, es: seq<Event>)
    requires w.server !in w.clients
    ensures var p := Played(w, me, es);
      && Runs(w, p) && After(w, p).server == w.server && After(w, p).clients.Keys == w.clients.Keys
      && Others(me, w, After(w, p))
    decreases |es|
  {
    hide Step, Enabled, Actor;
    if es != [] {
      if Enabled(w, es[0]) && Actor(w, es[0]) != me {
        var w1 := Step(w, es[0]);
        StepHome(w, es[0]);
        OthersStep(me, w, es[0]);
        PlayedRuns(w1, me, es[1..]);
        var p := Played(w1, me, es[1..]);
        assert ([es[0]] + p)[1..] == p;
        OthersOn(me, w, w1, After(w1, p));
      } else {
        PlayedRuns(w, me, es[1..]);
      }
    }
  }

  function First(turns: seq<seq<Event>>): seq<Event> { if turns == [] then [] else turns[0] }

  function Rest(turns: seq<seq<Event>>): seq<seq<Event>> { if turns == [] then [] else turns[1..] }

  // ---------- a client ----------

  /** What send_message does next; nothing while it sleeps. */
  function NextCall(s: Client, me: Pid, request: Bytes): Option<Event> {
    match s
    case Idle => Some(CWrite(me, request))
    case Sent => Some(CCheck(me))
    case Drowsy => Some(CSleep(me))
    case Asleep(woken) => if woken then Some(CWake(me)) else None
    case Cleared => Some(CRead(me))
  }

  function Rank(s: Client): nat {
    match s
    case Sent => 4
    case Drowsy => 3
    case Asleep(woken) => if woken then 2 else 0
    case Cleared => 1
    case Idle => 0
  }

  /** Everything that happens during send_message, when before each of its calls the others take
      the next turn: it ends with its read, or when it can only wait and nobody has a turn left. */
  function Exchange(w: World, me: Pid, request: Bytes, turns: seq<seq<Event>>): seq<Event>
    requires w.server !in w.clients && me in w.clients && request != []
    decreases |turns|, Rank(w.clients[me])
  {
    if turns == [] && (w.clients[me].Idle? || w.clients[me] == Asleep(false)) then []
    else
      var p := Played(w, me, First(turns));
      PlayedRuns(w, me, First(turns));
      var v := After(w, p);
      var c := NextCall(v.clients[me], me, request);
      if c.None? then p + Exchange(v, me, request, Rest(turns))
      else if c.value.CRead? then p + [c.value]
      else StepHome(v, c.value); p + [c.value] + Exchange(Step(v, c.value), me, request, Rest(turns))
  }

  /** It ends with the read. */
  predicate EndsInRead(w: World, me: Pid, request: Bytes, turns: seq<seq<Event>>)
    requires w.server !in w.clients && me in w.clients && request != []
    decreases |turns|, Rank(w.clients[me])
  {
    !(turns == [] && (w.clients[me].Idle? || w.clients[me] == Asleep(false)))
    && (PlayedRuns(w, me, First(turns));
        var v := After(w, Played(w, me, First(turns)));
        var c := NextCall(v.clients[me], me, request);
        if c.None? then EndsInRead(v, me, request, Rest(turns))
        else c.value.CRead? || (StepHome(v, c.value); EndsInRead(Step(v, c.value), me, request, Rest(turns))))
  }

  /** One turn with a call after it. */
  lemma ExchangeCalls(w: World, me: Pid, request: Bytes, turns: seq<seq<Event>>, v: World, c: Event)
    requires w.server !in w.clients && me in w.clients && request != []
    requires !(turns == [] && (w.clients[me].Idle? || w.clients[me] == Asleep(false)))
    requires Runs(w, Played(w, me, First(turns))) && v == After(w, Played(w, me, First(turns))) && me in v.clients
    requires NextCall(v.clients[me], me, request) == Some(c) && Enabled(v, c) && v.server !in v.clients
    ensures var p := Played(w, me, First(turns));
      && me in Step(v, c).clients && Step(v, c).server !in Step(v, c).clients
      && Exchange(w, me, request, turns)
           == p + [c] + (if c.CRead? then [] else Exchange(Step(v, c), me, request, Rest(turns)))
      && (EndsInRead(w, me, request, turns) <==> c.CRead? || EndsInRead(Step(v, c), me, request, Rest(turns)))
  {
    hide Step, Enabled, Played;
    StepHome(v, c);
  }

  /** And one that leaves it asleep. */
  lemma ExchangeWaits(w: World, me: Pid, request: Bytes, turns: seq<seq<Event>>, v: World)
    requires w.server !in w.clients && me in w.clients && request != [] && turns != []
    requires Runs(w, Played(w, me, First(turns))) && v == After(w, Played(w, me, First(turns)))
    requires me in v.clients && v.clients[me] == Asleep(false) && v.server !in v.clients
    ensures Exchange(w, me, request, turns) == Played(w, me, First(turns)) + Exchange(v, me, request, Rest(turns))
    ensures EndsInRead(w, me, request, turns) <==> EndsInRead(v, me, request, Rest(turns))
  {
    hide Step, Enabled, Played;
  }

  lemma {:induction false} EndsIff(w: World, me: Pid, request: Bytes, turns: seq<seq<Event>>)
    requires w.server !in w.clients && me in w.clients && request != []
    ensures EndsInRead(w, me, request, turns) <==> CRead(me) in Exchange(w, me, request, turns)
    decreases |turns|, Rank(w.clients[me])
  {
    hide Step, Enabled, Played;
    if !(turns == [] && (w.clients[me].Idle? || w.clients[me] == Asleep(false))) {
      PlayedRuns(w, me, First(turns));
      PlayedByOthers(w, me, First(turns));
      var v := After(w, Played(w, me, First(turns)));
      var c := NextCall(v.clients[me], me, request);
      if c.None? {
        EndsIff(v, me, request, Rest(turns));
      } else if !c.value.CRead? {
        CallMoves(v, me, request);
        StepHome(v, c.value);
        if turns == [] { NoTurn(w, me); }
        EndsIff(Step(v, c.value), me, request, Rest(turns));
      }
    }
  }

  /** `me` makes no call in `es`. */
  ghost predicate NoneOf(es: seq<Event>, me: Pid) { forall e :: e in es && ByClient(e) ==> e.pid != me }

  lemma {:induction false} PlayedByOthers(w: World, me: Pid, es: seq<Event>)
    ensures NoneOf(Played(w, me, es), me)
    decreases |es|
  {
    hide Step, Enabled;
    if es != [] {
      if Enabled(w, es[0]) && Actor(w, es[0]) != me { PlayedByOthers(Step(w, es[0]), me, es[1..]); }
      else { PlayedByOthers(w, me, es[1..]); }
    }
  }

  /** How often `me` writes in `es`. */
  function Writes(es: seq<Event>, me: Pid): nat {
    if es == [] then 0 else (if es[0].CWrite? && es[0].pid == me then 1 else 0) + Writes(es[1..], me)
  }

  /** And how many of these writes are not refused. */
  function Taken(w: World, es: seq<Event>, me: Pid): nat
    requires Runs(w, es)
    decreases |es|
  {
    if es == [] then 0
    else (if es[0].CWrite? && es[0].pid == me && MayWrite(w.chan, me) then 1 else 0)
         + Taken(Step(w, es[0]), es[1..], me)
  }

  lemma {:induction false} CountsJoined(w: World, a: seq<Event>, b: seq<Event>, me: Pid)
    requires Runs(w, a) && Runs(After(w, a), b)
    ensures Runs(w, a + b) && After(w, a + b) == After(After(w, a), b)
    ensures Writes(a + b, me) == Writes(a, me) + Writes(b, me)
    ensures Taken(w, a + b, me) == Taken(w, a, me) + Taken(After(w, a), b, me)
    decreases |a|
  {
    hide Step, Enabled, MayWrite;
    if a == [] {
      assert a + b == b;
    } else {
      assert (a + b)[1..] == a[1..] + b;
      CountsJoined(Step(w, a[0]), a[1..], b, me);
    }
  }

  lemma {:induction false} CountsNone(w: World, es: seq<Event>, me: Pid)
    requires Runs(w, es) && NoneOf(es, me)
    ensures Writes(es, me) == 0 && Taken(w, es, me) == 0
    decreases |es|
  {
    hide Step, Enabled, MayWrite;
    if es != [] {
      assert es[0] in es && forall e :: e in es[1..] ==> e in es;
      CountsNone(Step(w, es[0]), es[1..], me);
    }
  }

  /** A turn of the others and then one call. */
  lemma TurnAndCall(w: World, me: Pid, turn: seq<Event>, c: Event)
    requires w.server !in w.clients && me in w.clients
    ensures Runs(w, Played(w, me, turn))
    ensures var p := Played(w, me, turn); var v := After(w, p);
      && NoneOf(p, me) && Writes(p, me) == 0 && Taken(w, p, me) == 0
      && me in v.clients && v.server == w.server && v.clients.Keys == w.clients.Keys
      && (v.clients[me] == w.clients[me] || (v.clients[me].Asleep? && w.clients[me].Asleep?))
      && (me in w.asked ==> me in v.asked && v.asked[me] == w.asked[me])
      && (Enabled(v, c) ==>
            && Runs(w, p + [c]) && After(w, p + [c]) == Step(v, c)
            && Writes(p + [c], me) == (if c.CWrite? && c.pid == me then 1 else 0)
            && Taken(w, p + [c], me) == (if c.CWrite? && c.pid == me && MayWrite(v.chan, me) then 1 else 0))
  {
    hide Step, Enabled, MayWrite;
    var p := Played(w, me, turn);
    PlayedRuns(w, me, turn);
    PlayedByOthers(w, me, turn);
    CountsNone(w, p, me);
    var v := After(w, p);
    if Enabled(v, c) {
      Appended(w, p, c);
      assert [c][1..] == [] && Runs(Step(v, c), []);
      Unfold(v, [c]);
      CountsJoined(w, p, [c], me);
    }
  }

  /** What its next call leads to. */
  lemma CallMoves(v: World, me: Pid, request: Bytes)
    requires me in v.clients && request != [] && NextCall(v.clients[me], me, request).Some?
    ensures var c := NextCall(v.clients[me], me, request).value; Enabled(v, c) && ByClient(c) && c.pid == me
    ensures var c := NextCall(v.clients[me], me, request).value; var r := Step(v, c); var s := v.clients[me];
      && me in r.clients && r.server == v.server
      && (s == Idle ==> r.clients[me] == (if MayWrite(v.chan, me) then Sent else Idle))
      && (s == Idle && MayWrite(v.chan, me) ==> me in r.asked && r.asked[me] == Clip(request))
      && (s == Sent ==> r.clients[me] in {Cleared, Drowsy}) && (s == Drowsy ==> r.clients[me] == Asleep(false))
      && (s.Asleep? ==> r.clients[me] == Cleared) && (s == Cleared ==> r.clients[me] == Idle)
      && (s != Idle && me in v.asked ==> me in r.asked && r.asked[me] == v.asked[me])
  {
  }

  /** `es` takes send_message from where it stands, with `n` turns of the others left, to its read,
      or to where it can only wait and no turn is left. */
  ghost predicate Meaning(w: World, me: Pid, request: Bytes, n: nat, es: seq<Event>)
    requires Runs(w, es) && me in w.clients
  {
    var r, begun, once := After(w, es), w.clients[me] != Idle, if w.clients[me] != Idle then 0 else 1;
    && r.server == w.server && r.clients.Keys == w.clients.Keys
    && (CRead(me) in es <==> es != [] && es[|es|-1] == CRead(me))
    && (CRead(me) in es ==> r.clients[me] == Idle && Taken(w, es, me) == once)
    && (CRead(me) !in es && r.clients[me] == Idle ==> !begun && Writes(es, me) == n && Taken(w, es, me) == 0)
    && (CRead(me) !in es && r.clients[me] != Idle ==> r.clients[me] == Asleep(false) && Taken(w, es, me) == once)
    && (Taken(w, es, me) == 1 || (begun && me in w.asked && w.asked[me] == Clip(request)) ==>
          me in r.asked && r.asked[me] == Clip(request))
  }

  /** It sleeps through a turn. */
  lemma MeansWaiting(w: World, me: Pid, request: Bytes, turn: seq<Event>, n: nat, k: nat, es: seq<Event>)
    requires w.server !in w.clients && me in w.clients && Runs(w, Played(w, me, turn))
    requires var v := After(w, Played(w, me, turn));
      me in v.clients && v.clients[me] == Asleep(false) && Runs(v, es) && Meaning(v, me, request, n, es)
    ensures Runs(w, Played(w, me, turn) + es) && Meaning(w, me, request, k, Played(w, me, turn) + es)
  {
    hide Step, Enabled, MayWrite, Played;
    TurnAndCall(w, me, turn, CCheck(me));
    CountsJoined(w, Played(w, me, turn), es, me);
  }

  lemma MeansReading(w: World, me: Pid, request: Bytes, turn: seq<Event>, n: nat)
    requires w.server !in w.clients && me in w.clients && Runs(w, Played(w, me, turn)) && request != []
    requires var v := After(w, Played(w, me, turn)); me in v.clients && v.clients[me] == Cleared
    ensures var es := Played(w, me, turn) + [CRead(me)]; Runs(w, es) && Meaning(w, me, request, n, es)
  {
    hide Step, Enabled, MayWrite, Played;
    var v := After(w, Played(w, me, turn));
    CallMoves(v, me, request);
    StepHome(v, CRead(me));
    TurnAndCall(w, me, turn, CRead(me));
  }

  lemma MeansCalling(w: World, me: Pid, request: Bytes, turn: seq<Event>, c: Event, n: nat, k: nat, es: seq<Event>)
    requires w.server !in w.clients && me in w.clients && Runs(w, Played(w, me, turn)) && request != []
    requires var v := After(w, Played(w, me, turn));
      && me in v.clients && NextCall(v.clients[me], me, request) == Some(c) && !c.CRead? && Enabled(v, c)
      && me in Step(v, c).clients && Runs(Step(v, c), es) && Meaning(Step(v, c), me, request, n, es)
    requires w.clients[me] == Idle ==> k == n + 1
    ensures var all := Played(w, me, turn) + [c] + es;
      Runs(w, all) && Meaning(w, me, request, k, all)
  {
    hide Step, Enabled, MayWrite, Played;
    var v := After(w, Played(w, me, turn));
    CallMoves(v, me, request);
    StepHome(v, c);
    TurnAndCall(w, me, turn, c);
    CountsJoined(w, Played(w, me, turn) + [c], es, me);
  }

  /** What send_message comes to. Either it ends with its read; then its request was taken exactly
      once. Or it waits when the turns run out: still trying to write, having tried once a turn and
      been refused every time; or asleep, its request taken exactly once. */
  lemma {:induction false} ExchangeMeans(w: World, me: Pid, request: Bytes, turns: seq<seq<Event>>)
    requires w.server !in w.clients && me in w.clients && request != []
    ensures var es := Exchange(w, me, request, turns); Runs(w, es) && Meaning(w, me, request, |turns|, es)
    decreases |turns|, Rank(w.clients[me])
  {
    hide Step, Enabled, MayWrite, Played, Meaning;
    var turn, rest := First(turns), Rest(turns);
    if turns == [] && (w.clients[me].Idle? || w.clients[me] == Asleep(false)) {
      MeansNothing(w, me, request);
    } else {
      PlayedRuns(w, me, turn);
      var v := After(w, Played(w, me, turn));
      var c := NextCall(v.clients[me], me, request);
      if c.None? {
        ExchangeMeans(v, me, request, rest);
        MeansWaiting(w, me, request, turn, |rest|, |turns|, Exchange(v, me, request, rest));
      } else if c.value.CRead? {
        MeansReading(w, me, request, turn, |turns|);
      } else {
        CallMoves(v, me, request);
        StepHome(v, c.value);
        if turns == [] { NoTurn(w, me); }
        var r := Step(v, c.value);
        ExchangeMeans(r, me, request, rest);
        MeansCalling(w, me, request, turn, c.value, |rest|, |turns|, Exchange(r, me, request, rest));
      }
    }
  }

  lemma NoTurn(w: World, me: Pid)
    ensures Runs(w, Played(w, me, [])) && After(w, Played(w, me, [])) == w
  {
  }

  lemma MeansNothing(w: World, me: Pid, request: Bytes)
    requires me in w.clients && (w.clients[me].Idle? || w.clients[me] == Asleep(false))
    ensures Meaning(w, me, request, 0, [])
  {
  }

  // ---------- the server ----------

  /** What server_update does next once it has a message. */
  function ServerCall(k: Server, answer: Bytes -> Bytes): Event {
    match k
    case Waiting => SCheck
    case Seen => SSource
    case Knows(_) => SLock
    case Locked(_) => SRead
    case Got(_, _) => SAddress
    case Addressed(_, req) => SAnswer(answer(req))
    case Answered => SUnlock
  }

  function Stage(k: Server): nat {
    match k
    case Waiting => 0
    case Seen => 6
    case Knows(_) => 5
    case Locked(_) => 4
    case Got(_, _) => 3
    case Addressed(_, _) => 2
    case Answered => 1
  }

  lemma ServerMoves(v: World, answer: Bytes -> Bytes)
    requires forall m :: answer(m) != []
    ensures var c := ServerCall(v.srv, answer);
      Enabled(v, c) && !ByClient(c) && (!v.srv.Waiting? ==> Stage(Step(v, c).srv) == Stage(v.srv) - 1)
  {
  }

  /** Everything that happens from there to the end of the request. */
  function Answering(w: World, answer: Bytes -> Bytes, turns: seq<seq<Event>>): seq<Event>
    requires w.server !in w.clients && forall m :: answer(m) != []
    decreases Stage(w.srv)
  {
    if w.srv.Waiting? then []
    else
      var p := Played(w, w.server, First(turns));
      PlayedRuns(w, w.server, First(turns));
      var v := After(w, p);
      var c := ServerCall(v.srv, answer);
      ServerMoves(v, answer);
      StepHome(v, c);
      p + [c] + Answering(Step(v, c), answer, Rest(turns))
  }

  lemma UnlockLeaves(v: World)
    requires Enabled(v, SUnlock)
    ensures var r := Step(v, SUnlock); r.asked == v.asked && r.heard == v.heard && r.reply == v.reply
  {
  }

  lemma AnsweringCalls(w: World, answer: Bytes -> Bytes, turns: seq<seq<Event>>, v: World)
    requires w.server !in w.clients && !w.srv.Waiting? && forall m :: answer(m) != []
    requires Runs(w, Played(w, w.server, First(turns))) && v == After(w, Played(w, w.server, First(turns)))
    ensures var c := ServerCall(v.srv, answer);
      && Enabled(v, c) && Step(v, c).server !in Step(v, c).clients
      && Answering(w, answer, turns)
           == Played(w, w.server, First(turns)) + [c] + Answering(Step(v, c), answer, Rest(turns))
  {
    hide Step, Enabled, Played;
    PlayedRuns(w, w.server, First(turns));
    ServerMoves(v, answer);
    StepHome(v, ServerCall(v.srv, answer));
  }

  /** The server looks once, and once more after its timeout. */
  function Serving(w: World, answer: Bytes -> Bytes, turns: seq<seq<Event>>): seq<Event>
    requires w.server !in w.clients && w.srv.Waiting? && forall m :: answer(m) != []
  {
    var w1 := Step(w, SCheck);
    if w1.srv.Seen? then [SCheck] + Answering(w1, answer, Rest(turns))
    else
      var p := Played(w1, w.server, First(turns));
      PlayedRuns(w1, w.server, First(turns));
      var v := After(w1, p);
      StepHome(v, SCheck);
      [SCheck] + p + [SCheck] + Answering(Step(v, SCheck), answer, Rest(turns))
  }

  /** A message is addressed to the server at its first look, or after one turn of the others at
      its second. */
  predicate Found(w: World, turns: seq<seq<Event>>)
    requires w.server !in w.clients
  {
    w.chan.dest == w.server
    || (PlayedRuns(w, w.server, First(turns)); After(w, Played(w, w.server, First(turns))).chan.dest == w.server)
  }

  /** The calls of the server in `es`. */
  function OfServer(es: seq<Event>): seq<Event> {
    if es == [] then [] else (if ByClient(es[0]) then [] else [es[0]]) + OfServer(es[1..])
  }

  lemma {:induction false} OfServerJoined(a: seq<Event>, b: seq<Event>)
    ensures OfServer(a + b) == OfServer(a) + OfServer(b)
    decreases |a|
  {
    if a == [] {
      assert a + b == b;
    } else {
      assert (a + b)[1..] == a[1..] + b;
      OfServerJoined(a[1..], b);
    }
  }

  lemma {:induction false} PlayedByClients(w: World, es: seq<Event>)
    ensures OfServer(Played(w, w.server, es)) == []
    decreases |es|
  {
    hide Step, Enabled;
    if es != [] {
      if Enabled(w, es[0]) && Actor(w, es[0]) != w.server {
        StepHome(w, es[0]);
        var p := Played(Step(w, es[0]), w.server, es[1..]);
        PlayedByClients(Step(w, es[0]), es[1..]);
        assert ([es[0]] + p)[1..] == p;
      } else {
        PlayedByClients(w, es[1..]);
      }
    }
  }

  /** The rest of the calls, with the answer to the request in hand. */
  function Script(k: Server, req: Bytes, answer: Bytes -> Bytes): seq<Event> {
    match k
    case Waiting => []
    case Seen => [SSource, SLock, SRead, SAddress, SAnswer(answer(req)), SUnlock]
    case Knows(_) => [SLock, SRead, SAddress, SAnswer(answer(req)), SUnlock]
    case Locked(_) => [SRead, SAddress, SAnswer(answer(req)), SUnlock]
    case Got(_, _) => [SAddress, SAnswer(answer(req)), SUnlock]
    case Addressed(_, _) => [SAnswer(answer(req)), SUnlock]
    case Answered => [SUnlock]
  }

  predicate HasRequest(k: Server, req: Bytes) { (k.Got? || k.Addressed?) ==> k.req == req }

  predicate Next(k: Server, r: Server) {
    match k
    case Waiting => true
    case Seen => r.Knows?
    case Knows(pid) => r == Locked(pid)
    case Locked(pid) => r.Got? && r.pid == pid
    case Got(pid, req) => r == Addressed(pid, req)
    case Addressed(_, _) => r.Answered?
    case Answered => r.Waiting?
  }

  lemma ServerNext(v: World, answer: Bytes -> Bytes)
    requires Enabled(v, ServerCall(v.srv, answer))
    ensures Next(v.srv, Step(v, ServerCall(v.srv, answer)).srv)
  {
  }

  lemma ScriptStep(k: Server, r: Server, answer: Bytes -> Bytes, next: Bytes) returns (req: Bytes)
    requires !k.Waiting? && Next(k, r) && HasRequest(r, next)
    ensures HasRequest(k, req) && Script(k, req, answer) == [ServerCall(k, answer)] + Script(r, next, answer)
  {
    req := if k.Addressed? then k.req else next;
  }

  /** The server's own calls from there on, whatever the others do in between. */
  lemma {:induction false} AnsweringMeans(w: World, answer: Bytes -> Bytes, turns: seq<seq<Event>>) returns (req: Bytes)
    requires w.server !in w.clients && forall m :: answer(m) != []
    ensures var es := Answering(w, answer, turns);
      && Runs(w, es) && After(w, es).srv.Waiting? && HasRequest(w.srv, req)
      && OfServer(es) == Script(w.srv, req, answer)
    decreases Stage(w.srv)
  {
    hide Step, Enabled, Played, Script;
    if w.srv.Waiting? {
      req := [];
      NoScript([], answer);
    } else {
      var p := Played(w, w.server, First(turns));
      PlayedRuns(w, w.server, First(turns));
      PlayedByClients(w, First(turns));
      var v := After(w, p);
      var c := ServerCall(v.srv, answer);
      ServerMoves(v, answer);
      StepHome(v, c);
      var more := Answering(Step(v, c), answer, Rest(turns));
      var next := AnsweringMeans(Step(v, c), answer, Rest(turns));
      ServerNext(v, answer);
      req := ScriptStep(v.srv, Step(v, c).srv, answer, next);
      Appended(w, p, c);
      Joined(w, p + [c], more);
      OfServerJoined(p, [c]);
      OfServerJoined(p + [c], more);
      assert OfServer([c]) == [c] by { assert [c][1..] == []; }
    }
  }

  lemma NoScript(req: Bytes, answer: Bytes -> Bytes)
    ensures Script(Waiting, req, answer) == []
  {
  }

  /** What server_update comes to: one look or two, and if they find a message, GETSOURCE, LOCKW, read,
      SETDEST, the write of the answer and UNLOCKW, once each. */
  lemma ServingMeans(w: World, answer: Bytes -> Bytes, turns: seq<seq<Event>>) returns (req: Bytes)
    requires w.server !in w.clients && w.srv.Waiting? && forall m :: answer(m) != []
    ensures var es := Serving(w, answer, turns);
      && Runs(w, es) && After(w, es).srv.Waiting?
      && OfServer(es) == (if w.chan.dest == w.server then [SCheck] else [SCheck, SCheck])
                         + if Found(w, turns) then Script(Seen, req, answer) else []
  {
    hide Played, Answering, Script, Runs, After, OfServer;
    var w1 := Step(w, SCheck);
    OneCall(w, SCheck);
    if w.chan.dest == w.server {
      req := AnsweringMeans(w1, answer, Rest(turns));
      Joined(w, [SCheck], Answering(w1, answer, Rest(turns)));
      OfServerJoined([SCheck], Answering(w1, answer, Rest(turns)));
    } else {
      assert w1 == w;
      var es;
      req, es := SecondLook(w, answer, turns);
      Joined(w, [SCheck], es);
      OfServerJoined([SCheck], es);
      var p := Played(w, w.server, First(turns));
      assert Serving(w, answer, turns) == [SCheck] + es;
    }
  }

  lemma OneCall(w: World, c: Event)
    requires Enabled(w, c) && !ByClient(c)
    ensures Runs(w, [c]) && After(w, [c]) == Step(w, c) && OfServer([c]) == [c]
  {
    hide Enabled, Step;
    assert [c][1..] == [] && Runs(Step(w, c), []);
    Unfold(w, [c]);
  }

  lemma SecondLook(w: World, answer: Bytes -> Bytes, turns: seq<seq<Event>>) returns (req: Bytes, es: seq<Event>)
    requires w.server !in w.clients && w.srv.Waiting? && forall m :: answer(m) != []
    ensures var p := Played(w, w.server, First(turns));
      Runs(w, p) &&
      var v := After(w, p);
      && v.server == w.server && v.server !in v.clients && v.srv.Waiting?
      && Step(v, SCheck).server !in Step(v, SCheck).clients
      && es == p + [SCheck] + Answering(Step(v, SCheck), answer, Rest(turns))
      && Runs(w, es) && After(w, es).srv.Waiting?
      && OfServer(es) == [SCheck] + if v.chan.dest == w.server then Script(Seen, req, answer) else []
  {
    hide Played, Answering, Script, Runs, After, OfServer;
    var p := Played(w, w.server, First(turns));
    PlayedRuns(w, w.server, First(turns));
    PlayedByClients(w, First(turns));
    var v := After(w, p);
    StepHome(v, SCheck);
    Appended(w, p, SCheck);
    OneCall(v, SCheck);
    var w2 := Step(v, SCheck);
    req := AnsweringMeans(w2, answer, Rest(turns));
    NoScript(req, answer);
    var more := Answering(w2, answer, Rest(turns));
    Joined(w, p + [SCheck], more);
    OfServerJoined(p, [SCheck]);
    OfServerJoined(p + [SCheck], more);
    es := p + [SCheck] + more;
  }

  // ---------- a client that is never woken ----------

  /** It sleeps, and its answer waits for it. */
  predicate Lost(w: World, c: Pid) { At(w, c, Asleep(false)) && w.chan.dest == c && w.chan.msg != [] }

  /** It goes to sleep on a check that came before the answer. */
  predicate Oversleeps(w: World, e: Event) { e.CSleep? && w.chan.dest == e.pid && w.chan.msg != [] }

  /** No other step leaves a sleeper with its answer unread: the write that brings it wakes it. */
  lemma StepLost(w: World, e: Event, c: Pid)
    requires Inv(w) && Enabled(w, e) && !Early(w, e)
    ensures Lost(Step(w, e), c) <==> Lost(w, c) || (Oversleeps(w, e) && e == CSleep(c))
  {
  }

  /** All that still changes is that the server lets go of the lock: it has nothing to read, and
      every write is refused. */
  lemma StepStuck(w: World, e: Event, c: Pid)
    requires Inv(w) && Lost(w, c) && Enabled(w, e)
    ensures Stuck(w, Step(w, e)) && !Early(w, e) && (e.CWrite? ==> Step(w, e) == w) && !e.CRead?
  {
  }

  predicate Stuck(w: World, r: World) {
    && r == w.(chan := r.chan, srv := r.srv) && r.chan == w.chan.(lockw := r.chan.lockw)
    && (r.srv == w.srv || r.srv.Waiting?)
  }

  /** Then it sleeps for ever, and nobody is served again, whatever anybody does. */
  lemma {:induction false} StuckForever(w: World, es: seq<Event>, c: Pid)
    requires Inv(w) && Lost(w, c) && Runs(w, es)
    ensures Stuck(w, After(w, es)) && Lost(After(w, es), c) && !ReadsEarly(w, es)
    ensures forall e :: e in es ==> !e.CRead? && !e.SAnswer?
    decreases |es|
  {
    hide Inv, Step, Enabled, Early, Oversleeps;
    if es != [] {
      StepStuck(w, es[0], c);
      StepLost(w, es[0], c);
      StepKeeps(w, es[0]);
      NoAnswer(w, es[0], c);
      StuckForever(Step(w, es[0]), es[1..], c);
    }
  }

  lemma NoAnswer(w: World, e: Event, c: Pid)
    requires Inv(w) && Lost(w, c) && Enabled(w, e)
    ensures !e.SAnswer?
  {
  }

  predicate EverOversleeps(w: World, es: seq<Event>)
    requires Runs(w, es)
    decreases |es|
  {
    es != [] && (Oversleeps(w, es[0]) || EverOversleeps(Step(w, es[0]), es[1..]))
  }

  /** A run without an early read ends with such a client if and only if one has gone to sleep
      with its answer already there. */
  lemma {:induction false} LostIff(w: World, es: seq<Event>)
    requires Inv(w) && Runs(w, es) && !ReadsEarly(w, es)
    ensures SomeLost(After(w, es)) <==> SomeLost(w) || EverOversleeps(w, es)
    decreases |es|
  {
    hide Inv, Step, Enabled, Early, SomeLost, Oversleeps;
    if es != [] {
      StepKeeps(w, es[0]);
      StepSomeLost(w, es[0]);
      LostIff(Step(w, es[0]), es[1..]);
    }
  }

  ghost predicate SomeLost(w: World) { exists c :: Lost(w, c) }

  lemma StepSomeLost(w: World, e: Event)
    requires Inv(w) && Enabled(w, e) && !Early(w, e)
    ensures SomeLost(Step(w, e)) <==> SomeLost(w) || Oversleeps(w, e)
  {
    hide Inv, Step, Enabled, Early, Lost;
    if c :| Lost(w, c) { StepLost(w, e, c); }
    if c :| Lost(Step(w, e), c) { StepLost(w, e, c); }
    if Oversleeps(w, e) { StepLost(w, e, e.pid); }
  }

  /** So of a client that sleeps: its request has been answered exactly if it is lost. */
  lemma SleepersAnswer(w: World, c: Pid)
    requires Inv(w) && At(w, c, Asleep(false))
    ensures c in w.reply <==> Lost(w, c)
  {
  }

  /** The end of send_message without a response, over every run without an early read: its request
      was never taken, or it has not been answered, or it is lost. */
  lemma Unanswered(w: World, me: Pid, request: Bytes, turns: seq<seq<Event>>)
    requires Inv(w) && At(w, me, Idle) && request != []
    ensures var es := Exchange(w, me, request, turns);
      Runs(w, es) &&
      (CRead(me) !in es && !ReadsEarly(w, es) ==>
        || (Taken(w, es, me) == 0 && Writes(es, me) == |turns|)
        || (Taken(w, es, me) == 1 && (me !in After(w, es).reply || Lost(After(w, es), me))))
  {
    hide Inv, Exchange;
    Apart(w);
    ExchangeMeans(w, me, request, turns);
    var es := Exchange(w, me, request, turns);
    if CRead(me) !in es && !ReadsEarly(w, es) && After(w, es).clients[me] != Idle {
      InvAfter(w, es);
      SleepersAnswer(After(w, es), me);
    }
  }

  /** If the slot is free for it when its first turn comes, its request is taken; and once that has
      been answered in time, it returns with a response. */
  lemma TakenAndAnswered(w: World, me: Pid, request: Bytes, turns: seq<seq<Event>>)
    requires Inv(w) && At(w, me, Idle) && request != [] && turns != [] && w.server !in w.clients
    requires Runs(w, Played(w, me, turns[0])) && MayWrite(After(w, Played(w, me, turns[0])).chan, me)
    ensures var es := Exchange(w, me, request, turns);
      Runs(w, es) && Taken(w, es, me) == 1 &&
      (!ReadsEarly(w, es) && me in After(w, es).reply && !Lost(After(w, es), me) ==> CRead(me) in es)
  {
    hide Inv, Step, Enabled, MayWrite, Played, Exchange, Lost;
    var es, p, c := Exchange(w, me, request, turns), Played(w, me, turns[0]), CWrite(me, request);
    PlayedRuns(w, me, turns[0]);
    var v := After(w, p);
    TurnAndCall(w, me, turns[0], c);
    CallMoves(v, me, request);
    ExchangeCalls(w, me, request, turns, v, c);
    var r, rest := Step(v, c), Exchange(Step(v, c), me, request, Rest(turns));
    ExchangeMeans(r, me, request, Rest(turns));
    CountsJoined(w, p + [c], rest, me);
    Unanswered(w, me, request, turns);
  }

  lemma Apart(w: World)
    requires Inv(w)
    ensures w.server !in w.clients
  {
  }

  const DROWSES: seq<Event> := [CWrite(7, [1]), CCheck(7), SCheck, SSource]
  const OVERSLEEPS: seq<Event> := [SLock, SRead, SAddress, SAnswer([2]), SUnlock, CSleep(7)]

  function Drowses(): World {
    World(3, Chan(3, 7, 3, -1, [1]), map[7 := Drowsy], Knows(7), map[7 := [1]], map[], map[])
  }

  /** One client whose check comes before the server's SETDEST, and whose sleep comes after the
      server's write. */
  lemma AnswerMissed()
    ensures var w, es := Start(3, {7}), DROWSES + OVERSLEEPS;
      && Runs(w, es) && !ReadsEarly(w, es) && Lost(After(w, es), 7) && After(w, es).chan.msg == [2]
  {
    hide Runs, After, ReadsEarly;
    FirstHalf();
    SecondHalf();
    Joined(Start(3, {7}), DROWSES, OVERSLEEPS);
    NoEarly(Start(3, {7}), DROWSES + OVERSLEEPS);
  }

  lemma FirstHalf()
    ensures Runs(Start(3, {7}), DROWSES) && After(Start(3, {7}), DROWSES) == Drowses()
  {
    hide Runs, After;
    assert Clip([1]) == [1];
    var w := Start(3, {7});
    assert w.clients == map[7 := Idle];
    var w2 := World(3, Chan(3, 7, 3, -1, [1]), map[7 := Drowsy], Waiting, map[7 := [1]], map[], map[]);
    assert Step(Step(w, CWrite(7, [1])), CCheck(7)) == w2;
    Last(w, [CWrite(7, [1]), CCheck(7)]);
    Last(w2, [SCheck, SSource]);
    Joined(w, [CWrite(7, [1]), CCheck(7)], [SCheck, SSource]);
    assert [CWrite(7, [1]), CCheck(7)] + [SCheck, SSource] == DROWSES;
  }

  lemma SecondHalf()
    ensures var w := Drowses();
      Runs(w, OVERSLEEPS) && Lost(After(w, OVERSLEEPS), 7) && After(w, OVERSLEEPS).chan.msg == [2]
  {
    hide Runs, After;
    assert Clip([2]) == [2];
    var w := Drowses();
    var w2 := World(3, Chan(3, -1, -1, 3, []), map[7 := Drowsy], Got(7, [1]), map[7 := [1]], map[], map[]);
    assert Step(Step(w, SLock), SRead) == w2;
    Last(w, [SLock, SRead]);
    var w4 := Step(Step(w2, SAddress), SAnswer([2]));
    Last(w2, [SAddress, SAnswer([2])]);
    Last(w4, [SUnlock, CSleep(7)]);
    Joined(w2, [SAddress, SAnswer([2])], [SUnlock, CSleep(7)]);
    Joined(w, [SLock, SRead], [SAddress, SAnswer([2])] + [SUnlock, CSleep(7)]);
    assert [SLock, SRead] + ([SAddress, SAnswer([2])] + [SUnlock, CSleep(7)]) == OVERSLEEPS;
  }

  lemma {:induction false} NoEarly(w: World, es: seq<Event>)
    requires Runs(w, es) && forall e :: e in es ==> !e.CRead?
    ensures !ReadsEarly(w, es)
    decreases |es|
  {
    hide Step, Enabled;
    if es != [] {
      assert es[0] in es && forall e :: e in es[1..] ==> e in es;
      NoEarly(Step(w, es[0]), es[1..]);
    }
  }

  // ---------- the slot by itself ----------

  /** The slot after these openers, one after the other. */
  function Opened(c: Chan, refcnt: nat, openers: seq<int>): Chan
    decreases |openers|
  {
    if openers == [] then c else Opened(Open(c, refcnt, openers[0]), refcnt + 1, openers[1..])
  }

  /** Whoever opens it first owns it, and finds nobody's lock, source or destination; whoever opens
      it while it is open changes nothing, not even in the middle of an exchange. */
  lemma {:induction false} FirstOpens(c: Chan, refcnt: nat, openers: seq<int>)
    requires openers != []
    ensures refcnt > 0 ==> Opened(c, refcnt, openers) == c
    ensures refcnt == 0 ==> Opened(c, refcnt, openers) == Chan(openers[0], -1, -1, -1, c.msg)
    decreases |openers|
  {
    if |openers| > 1 { FirstOpens(Open(c, refcnt, openers[0]), refcnt + 1, openers[1..]); }
  }

  /** Nobody but its holder gets past the write lock, or takes it away. */
  lemma LockKept(c: Chan, holder: int, me: int, data: Bytes, n: nat, pid: int, refcnt: nat)
    requires c.lockw == holder >= 0 && me != holder
    ensures Write(c, me, data) == c && LockW(c, me) == c && UnlockW(c, me) == c
    ensures Read(c, me, n).0.lockw == SetDest(c, me, pid).lockw == holder
    ensures refcnt > 0 ==> Open(c, refcnt, me) == c
    ensures UnlockW(c, holder) == c.(lockw := -1) && LockW(UnlockW(c, holder), me) == c.(lockw := me)
  {
  }

  /** Whoever may write becomes the source, with a destination that was set before or else the owner,
      and with what fits of its data; a destination that is set stays. */
  lemma Addressing(c: Chan, me: int, data: Bytes, pid: int)
    ensures (c.source < 0 || c.source == me) && (c.lockw < 0 || c.lockw == me) ==>
              Write(c, me, data)
                == Chan(c.owner, me, if c.dest < 0 then c.owner else c.dest, c.lockw, data[..Min(|data|, 65536)])
    ensures !((c.source < 0 || c.source == me) && (c.lockw < 0 || c.lockw == me)) ==> Write(c, me, data) == c
    ensures SetDest(c, me, pid) == if c.dest < 0 then Chan(c.owner, me, pid, c.lockw, c.msg) else c
    ensures pid >= 0 ==> SetDest(SetDest(c, me, pid), me, pid) == SetDest(c, me, pid)
  {
  }

  /** A message read in two pieces comes whole if and only if the first piece is all of it, or its
      beginning repeats: the buffer is not moved. */
  lemma PiecesIff(c: Chan, me: int, n: nat)
    requires c.dest == me && me >= 0 && |c.msg| <= BUFSZ
    ensures var (c1, a) := Read(c, me, n);
      var (c2, b) := Read(c1, me, BUFSZ);
      a + b == c.msg <==> n >= |c.msg| || c.msg[..|c.msg|-n] == c.msg[n..]
  {
    var m := c.msg;
    if n < |m| {
      assert m[..n] + m[n..] == m;
      assert Read(c, me, n).1 == m[..n] && Read(Read(c, me, n).0, me, BUFSZ).1 == m[..|m|-n];
      Pieces(m, m[..n], m[..|m|-n], n);
    }
  }

  lemma Pieces(m: Bytes, a: Bytes, b: Bytes, n: nat)
    requires n <= |m| && a == m[..n] && |b| == |m| - n
    ensures a + b == m <==> b == m[n..]
  {
    if a + b == m { assert (a + b)[n..] == b; }
  }
}
