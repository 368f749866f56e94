/**
 * The window manager's request/response protocol over one channel: any number of clients
 * (lib/wm.c) and one server (bin/wm/server.c), each system call on the node one step.
 * `asked`, `heard` and `reply` are history: what each client asked last, what the server
 * read of it, and what it answered to it.
 */
module ChannelRuns {
  import opened Util
  import opened ChannelSpec

  type Pid = nat

  /** send_message: write, WAITREAD (which may sleep), read. */
  datatype Client = Idle | Sent | Drowsy | Asleep(woken: bool) | Cleared

  /** server_update: WAITREAD, GETSOURCE, LOCKW, read, SETDEST, write, UNLOCKW. */
  datatype Server =
    | Waiting
    | Seen
    | Knows(pid: int)
    | Locked(pid: int)
    | Got(pid: int, req: Bytes)
    | Addressed(pid: int, req: Bytes)
    | Answered

  datatype World = World(server: Pid, chan: Chan, clients: map<Pid, Client>, srv: Server,
                         asked: map<Pid, Bytes>, heard: map<Pid, Bytes>, reply: map<Pid, Bytes>)

  datatype Event =
    | CWrite(pid: Pid, request: Bytes)
    | CCheck(pid: Pid)    // the check WAITREAD starts with
    | CSleep(pid: Pid)
    | CWake(pid: Pid)     // WAITREAD returns after a sleep that a write cut short
    | CRead(pid: Pid)
    | SCheck | SSource | SLock | SRead | SAddress
    | SAnswer(response: Bytes)
    | SUnlock

  /** The server opened the channel first; clients open it after that, in any number. */
  function Start(server: Pid, clients: set<Pid>): World {
    World(server, Open(Chan(-1, -1, -1, -1, []), 0, server), map c | c in clients :: Idle, Waiting, map[], map[], map[])
  }

  predicate At(w: World, c: Pid, s: Client) { c in w.clients && w.clients[c] == s }

  predicate Enabled(w: World, e: Event) {
    match e
    case CWrite(c, request) => At(w, c, Idle) && request != []
    case CCheck(c) => At(w, c, Sent)
    case CSleep(c) => At(w, c, Drowsy)
    case CWake(c) => At(w, c, Asleep(true))
    case CRead(c) => At(w, c, Cleared)
    case SCheck => w.srv.Waiting?
    case SSource => w.srv.Seen?
    case SLock => w.srv.Knows?
    case SRead => w.srv.Locked?
    case SAddress => w.srv.Got?
    case SAnswer(response) => w.srv.Addressed? && response != []
    case SUnlock => w.srv.Answered?
  }

  /** The write system call as any task makes it: a sleeping destination is hurried. */
  function Wrote(w: World, me: int, data: Bytes): World {
    var c := Write(w.chan, me, data);
    var d := c.dest;
    w.(chan := c, clients := if MayWrite(w.chan, me) && d >= 0 && d in w.clients && w.clients[d].Asleep?
                             then w.clients[d := Asleep(true)] else w.clients)
  }

  function Move(w: World, c: Pid, s: Client): World { w.(clients := w.clients[c := s]) }

  function Step(w: World, e: Event): World
    requires Enabled(w, e)
  {
    match e
    case CWrite(c, request) =>
      if !MayWrite(w.chan, c) then w // EAGAIN: the client tries again
      else Move(Wrote(w, c, request), c, Sent).(asked := w.asked[c := Clip(request)], reply := w.reply - {c})
    case CCheck(c) => Move(w, c, if w.chan.dest == c then Cleared else Drowsy)
    case CSleep(c) => Move(w, c, Asleep(false))
    case CWake(c) => Move(w, c, Cleared)
    case CRead(c) => Move(w, c, Idle).(chan := Read(w.chan, c, BUFSZ).0)
    case SCheck => if w.chan.dest == w.server then w.(srv := Seen) else w
    case SSource => w.(srv := Knows(w.chan.source))
    case SLock => w.(chan := LockW(w.chan, w.server), srv := Locked(w.srv.pid))
    case SRead => w.(chan := Read(w.chan, w.server, BUFSZ).0, srv := Got(w.srv.pid, Read(w.chan, w.server, BUFSZ).1))
    case SAddress => w.(chan := SetDest(w.chan, w.server, w.srv.pid), srv := Addressed(w.srv.pid, w.srv.req))
    case SAnswer(response) =>
      var p := w.srv.pid;
      Wrote(w, w.server, response).(srv := Answered,
        heard := if p >= 0 then w.heard[p := w.srv.req] else w.heard,
        reply := if p >= 0 then w.reply[p := Clip(response)] else w.reply)
    case SUnlock => w.(chan := UnlockW(w.chan, w.server), srv := Waiting)
  }

  predicate Runs(w: World, es: seq<Event>)
    decreases |es|
  {
    es == [] || (Enabled(w, es[0]) && Runs(Step(w, es[0]), es[1..]))
  }

  // ---------- what the protocol promises ----------

  /** Nobody overwrites an unread message; one answer per request; a client reads exactly the
      answer to its own last request, and that answer was computed from that request. */
  predicate GoodStep(w: World, e: Event)
    requires Enabled(w, e)
  {
    match e
    case CWrite(c, request) => MayWrite(w.chan, c) ==> w.chan.msg == []
    case CRead(c) =>
      && c in w.asked && c in w.heard && c in w.reply
      && Read(w.chan, c, BUFSZ).1 == w.reply[c] && w.heard[c] == w.asked[c]
    case SAnswer(response) =>
      && w.chan.msg == [] && MayWrite(w.chan, w.server) && w.chan.dest == w.srv.pid
      && w.srv.pid >= 0 && w.srv.pid in w.clients && w.srv.pid !in w.reply
    case _ => true
  }

  ghost predicate OneInFlight(w: World) {
    forall c, d :: c in w.clients && d in w.clients && w.clients[c] != Idle && w.clients[d] != Idle ==> c == d
  }

  ghost predicate Good(w: World, es: seq<Event>)
    requires Runs(w, es)
    decreases |es|
  {
    OneInFlight(w) && (es == [] || (GoodStep(w, es[0]) && Good(Step(w, es[0]), es[1..])))
  }

  /** A client reads between the server's SETDEST for it and the server's write. */
  predicate Early(w: World, e: Event) { e.CRead? && w.srv.Addressed? && w.srv.pid == e.pid }

  predicate ReadsEarly(w: World, es: seq<Event>)
    requires Runs(w, es)
    decreases |es|
  {
    es != [] && (Early(w, es[0]) || ReadsEarly(Step(w, es[0]), es[1..]))
  }

  // ---------- the invariant of runs without an early read ----------

  /** Who is being served. */
  function Served(w: World): int {
    if w.chan.source >= 0 && w.chan.source != w.server then w.chan.source
    else if w.chan.dest >= 0 && w.chan.dest != w.server then w.chan.dest
    else if w.srv.Got? then w.srv.pid
    else -1
  }

  predicate InWait(s: Client) { s.Sent? || s.Drowsy? || s == Asleep(false) }

  ghost predicate Phase(w: World) {
    var c, p, k := w.chan, Served(w), w.srv;
    if p < 0 then // the slot is free
      c.source == -1 && c.dest == -1 && c.msg == [] && k in {Waiting, Answered}
    else
      && p in w.clients && p in w.asked && w.asked[p] != []
      && if c.source == p then // a request waits
           c.dest == w.server && c.msg == w.asked[p] && InWait(w.clients[p]) && p !in w.reply
           && k in {Waiting, Seen, Knows(p), Locked(p)}
         else if c.dest != p then // the server works on it
           c.source == -1 && c.dest == -1 && c.msg == [] && InWait(w.clients[p]) && p !in w.reply
           && k == Got(p, w.asked[p])
         else if k.Addressed? then // SETDEST done, nothing written yet
           c.source == w.server && c.msg == [] && (InWait(w.clients[p]) || w.clients[p] == Cleared) && p !in w.reply
           && k == Addressed(p, w.asked[p])
         else // the answer waits
           c.source == w.server && w.clients[p] != Idle && k in {Waiting, Answered}
           && p in w.reply && p in w.heard && c.msg == w.reply[p] != [] && w.heard[p] == w.asked[p]
  }

  ghost predicate Inv(w: World) {
    && w.chan.owner == w.server && w.server !in w.clients
    && w.chan.lockw == (if w.srv.Locked? || w.srv.Got? || w.srv.Addressed? || w.srv.Answered? then w.server else -1)
    && |w.chan.msg| <= BUFSZ
    && (forall c :: c in w.clients && w.clients[c] != Idle ==> c == Served(w))
    && Phase(w)
  }

  lemma ClientKeeps(w: World, e: Event)
    requires Inv(w) && Enabled(w, e) && (e.CWrite? || e.CCheck? || e.CSleep? || e.CWake?)
    ensures GoodStep(w, e) && Inv(Step(w, e))
  {
  }

  lemma ReadKeeps(w: World, c: Pid)
    requires Inv(w) && Enabled(w, CRead(c))
    ensures GoodStep(w, CRead(c)) <==> !Early(w, CRead(c))
    ensures !Early(w, CRead(c)) ==> Inv(Step(w, CRead(c)))
  {
  }

  lemma ServerKeeps(w: World, e: Event)
    requires Inv(w) && Enabled(w, e)
    requires (e.SCheck? || e.SSource? || e.SLock? || e.SRead? || e.SAddress? || e.SAnswer? || e.SUnlock?)
    ensures GoodStep(w, e) && Inv(Step(w, e))
  {
  }

  lemma StepKeeps(w: World, e: Event)
    requires Inv(w) && Enabled(w, e)
    ensures GoodStep(w, e) <==> !Early(w, e)
    ensures !Early(w, e) ==> Inv(Step(w, e))
  {
    match e
    case CRead(c) => ReadKeeps(w, c);
    case CWrite(_, _) => ClientKeeps(w, e);
    case CCheck(_) => ClientKeeps(w, e);
    case CSleep(_) => ClientKeeps(w, e);
    case CWake(_) => ClientKeeps(w, e);
    case _ => ServerKeeps(w, e);
  }

  lemma {:induction false} GoodFrom(w: World, es: seq<Event>)
    requires Inv(w) && Runs(w, es)
    ensures Good(w, es) <==> !ReadsEarly(w, es)
    decreases |es|
  {
    if es != [] {
      StepKeeps(w, es[0]);
      if !Early(w, es[0]) { GoodFrom(Step(w, es[0]), es[1..]); }
    }
  }

  /** With any number of clients, a run keeps the protocol's promise if and only if no client
      reads after the server has addressed the channel to it and before the server has written. */
  lemma ProtocolIff(server: Pid, clients: set<Pid>, es: seq<Event>)
    requires server !in clients && Runs(Start(server, clients), es)
    ensures Good(Start(server, clients), es) <==> !ReadsEarly(Start(server, clients), es)
  {
    GoodFrom(Start(server, clients), es);
  }

  /** What a client's read returns: nothing exactly in that window, and otherwise the answer to
      its last request. */
  lemma EarlyWindow(w: World, c: Pid)
    requires Inv(w) && Enabled(w, CRead(c))
    ensures Read(w.chan, c, BUFSZ).1 == [] <==> Early(w, CRead(c))
    ensures Early(w, CRead(c)) ==> w.chan.msg == [] && w.chan.dest == c && w.chan.lockw == w.server
    ensures !Early(w, CRead(c)) ==> c in w.asked && c in w.heard && c in w.reply
                                    && Read(w.chan, c, BUFSZ).1 == w.reply[c] && w.heard[c] == w.asked[c]
  {
  }

  /** What the server's write leaves: the served task's last request has been heard as it was
      sent, and its answer is in the channel. */
  lemma AnswerGives(w: World, response: Bytes)
    requires Inv(w) && Enabled(w, SAnswer(response))
    ensures var r, p, req := Step(w, SAnswer(response)), w.srv.pid, w.srv.req;
      && p >= 0 && p in r.asked && p in r.heard && p in r.reply && r.srv.Answered?
      && r.heard[p] == r.asked[p] == req && r.reply[p] == Clip(response) == r.chan.msg
      && r.chan.dest == p && r.chan.lockw == w.server
  {
  }

  /** After an early read the client has nothing, and the answer, whatever it is, goes to the
      server itself, which will take it for a request. */
  lemma EarlyReadLosesAnswer(w: World, c: Pid, response: Bytes)
    requires Inv(w) && Enabled(w, CRead(c)) && Early(w, CRead(c)) && response != []
    ensures Read(w.chan, c, BUFSZ).1 == [] && Enabled(Step(w, CRead(c)), SAnswer(response))
    ensures var r := Step(Step(w, CRead(c)), SAnswer(response));
      r.clients[c] == Idle && r.chan.dest == r.chan.source == w.server && r.chan.msg == Clip(response)
  {
    EarlyWindow(w, c);
  }

  /** What the other participants leave alone while `me` is between two of its system calls. */
  ghost predicate Others(me: Pid, a: World, b: World) {
    && b.server == a.server && b.clients.Keys == a.clients.Keys
    && (me in a.clients ==>
          && (b.clients[me] == a.clients[me] || (a.clients[me].Asleep? && b.clients[me].Asleep?))
          && (me in a.asked ==> me in b.asked && b.asked[me] == a.asked[me]))
    && (me == a.server ==> b.srv == a.srv)
    && (me == a.server && a.chan.lockw == me ==>
          b.chan.lockw == me && b.asked == a.asked && b.heard == a.heard && b.reply == a.reply)
  }

  predicate ByClient(e: Event) { e.CWrite? || e.CCheck? || e.CSleep? || e.CWake? || e.CRead? }

  function Actor(w: World, e: Event): Pid { if ByClient(e) then e.pid else w.server }

  lemma OthersStep(me: Pid, a: World, e: Event)
    requires Enabled(a, e) && Actor(a, e) != me && a.server !in a.clients
    ensures Others(me, a, Step(a, e))
  {
  }

  lemma OthersOn(me: Pid, a: World, b: World, c: World)
    requires Others(me, a, b) && Others(me, b, c)
    ensures Others(me, a, c)
  {
  }

  function After(w: World, es: seq<Event>): World
    requires Runs(w, es)
    decreases |es|
  {
    if es == [] then w else After(Step(w, es[0]), es[1..])
  }

  lemma Appended(w: World, es: seq<Event>, e: Event)
    requires Runs(w, es) && Enabled(After(w, es), e)
    ensures Runs(w, es + [e]) && After(w, es + [e]) == Step(After(w, es), e)
    ensures ReadsEarly(w, es + [e]) <==> ReadsEarly(w, es) || Early(After(w, es), e)
  {
    hide Step, Enabled, Early;
    var v := After(w, es);
    assert [e][1..] == [] && Runs(Step(v, e), []);
    Unfold(v, [e]);
    Joined(w, es, [e]);
  }

  lemma {:induction false} InvAfter(w: World, es: seq<Event>)
    requires Inv(w) && Runs(w, es) && !ReadsEarly(w, es)
    ensures Inv(After(w, es))
    decreases |es|
  {
    hide Inv, Step, Enabled, Early;
    if es != [] {
      StepKeeps(w, es[0]);
      InvAfter(Step(w, es[0]), es[1..]);
    }
  }

  /** One client whose check falls between SETDEST and the answer. */
  const MEETS: seq<Event> := [CWrite(7, [1]), SCheck, SSource, SLock, SRead, SAddress, CCheck(7)]
  const MISSES: seq<Event> := [CRead(7), SAnswer([2]), SUnlock, SCheck]

  lemma Unfold(w: World, es: seq<Event>)
    requires es != [] && Enabled(w, es[0])
    ensures Runs(w, es) <==> Runs(Step(w, es[0]), es[1..])
    ensures Runs(w, es) ==> After(w, es) == After(Step(w, es[0]), es[1..])
    ensures Runs(w, es) ==> (ReadsEarly(w, es) <==> Early(w, es[0]) || ReadsEarly(Step(w, es[0]), es[1..]))
  {
  }

  lemma {:induction false} Joined(w: World, es: seq<Event>, fs: seq<Event>)
    requires Runs(w, es) && Runs(After(w, es), fs)
    ensures Runs(w, es + fs) && After(w, es + fs) == After(After(w, es), fs)
    ensures ReadsEarly(w, es + fs) <==> ReadsEarly(w, es) || ReadsEarly(After(w, es), fs)
    decreases |es|
  {
    if es == [] {
      assert es + fs == fs;
    } else {
      assert (es + fs)[1..] == es[1..] + fs;
      Joined(Step(w, es[0]), es[1..], fs);
    }
  }

  function Met(): World {
    World(3, Chan(3, 3, 7, 3, []), map[7 := Cleared], Addressed(7, [1]), map[7 := [1]], map[], map[])
  }

  lemma MeetsEarly()
    ensures Runs(Start(3, {7}), MEETS) && After(Start(3, {7}), MEETS) == Met()
  {
    assert Clip([1]) == [1];
    var w, es := Start(3, {7}), MEETS;
    assert w.clients == map[7 := Idle];
    var w1 := World(3, Chan(3, 7, 3, -1, [1]), map[7 := Sent], Waiting, map[7 := [1]], map[], map[]);
    assert Step(w, es[0]) == w1;
    var w5 := World(3, Chan(3, -1, -1, 3, []), map[7 := Sent], Got(7, [1]), map[7 := [1]], map[], map[]);
    ServerTakes(w1, es[1..5]);
    assert es[1..5] == [SCheck, SSource, SLock, SRead];
    assert Step(Step(w5, SAddress), CCheck(7)) == Met();
    assert [es[0]] + es[1..5] + [SAddress, CCheck(7)] == es;
    Last(w5, [SAddress, CCheck(7)]);
    Joined(w1, es[1..5], [SAddress, CCheck(7)]);
    assert es[1..5] + [SAddress, CCheck(7)] == es[1..];
    Unfold(w, es);
  }

  lemma Last(w: World, es: seq<Event>)
    requires |es| == 2 && Enabled(w, es[0]) && Enabled(Step(w, es[0]), es[1])
    ensures Runs(w, es) && After(w, es) == Step(Step(w, es[0]), es[1])
  {
    assert es[1..] == [es[1]];
    Unfold(Step(w, es[0]), es[1..]);
    Unfold(w, es);
  }

  lemma ServerTakes(w: World, es: seq<Event>)
    requires w == World(3, Chan(3, 7, 3, -1, [1]), map[7 := Sent], Waiting, map[7 := [1]], map[], map[])
    requires es == [SCheck, SSource, SLock, SRead]
    ensures Runs(w, es)
    ensures After(w, es) == World(3, Chan(3, -1, -1, 3, []), map[7 := Sent], Got(7, [1]), map[7 := [1]], map[], map[])
  {
    var w2 := Step(Step(w, es[0]), es[1]);
    Last(w, [SCheck, SSource]);
    Last(w2, [SLock, SRead]);
    assert es == [SCheck, SSource] + [SLock, SRead];
    Joined(w, [SCheck, SSource], [SLock, SRead]);
  }

  /** The promise is not kept by every run: here the server ends up reading its own answer. */
  lemma NotEveryRunIsGood()
    ensures var w, es := Start(3, {7}), MEETS + MISSES;
      && Runs(w, es) && ReadsEarly(w, es) && !Good(w, es)
      && After(w, es).srv == Seen && After(w, es).chan.source == 3 && After(w, es).chan.msg == [2]
  {
    var w, m := Start(3, {7}), Met();
    MeetsEarly();
    assert Clip([2]) == [2];
    var n := Step(Step(m, MISSES[0]), MISSES[1]);
    Last(m, [CRead(7), SAnswer([2])]);
    Last(n, [SUnlock, SCheck]);
    assert MISSES == [CRead(7), SAnswer([2])] + [SUnlock, SCheck];
    Joined(m, [CRead(7), SAnswer([2])], [SUnlock, SCheck]);
    assert ReadsEarly(m, MISSES);
    Joined(w, MEETS, MISSES);
    GoodFrom(w, MEETS + MISSES);
  }
}
