/**
 * Whole calls on a ramfs file as runs of events, what they return when nothing comes between,
 * and runs in which something does.
 */
module RamFileCalls {
  import opened Util
  import opened RamFileSpec
  import opened RamFileRuns

  // ---------- putting runs together ----------

  lemma {:induction false} Joined(f: File, a: seq<Op>, b: seq<Op>)
    requires Sized(f) && Runs(f, a) && Runs(Run(f, a), b)
    ensures Runs(f, a + b) && Run(f, a + b) == Run(Run(f, a), b)
    ensures Undisturbed(f, a + b) <==> Undisturbed(f, a) && Undisturbed(Run(f, a), b)
    ensures NeverHitOrMissed(f, a + b) <==> NeverHitOrMissed(f, a) && NeverHitOrMissed(Run(f, a), b)
    decreases |a|
  {
    hide Sized, Legal, Step, Disturbs, Hit, Miss;
    if a == [] {
      assert a + b == b;
    } else {
      StepKeeps(f, a[0]);
      Joined(Step(f, a[0]), a[1..], b);
      assert (a + b)[1..] == a[1..] + b;
    }
  }

  lemma One(f: File, op: Op)
    requires Sized(f) && Legal(f, op)
    ensures Runs(f, [op]) && Run(f, [op]) == Step(f, op) && (Undisturbed(f, [op]) <==> !Disturbs(f, op))
    ensures NeverHitOrMissed(f, [op]) <==> !Hit(f, op) && !Miss(f, op)
  {
    hide Sized, Legal, Step, Disturbs, Hit, Miss;
    StepKeeps(f, op);
    assert [op][1..] == [];
  }

  /** One more event at the end. */
  lemma Then(f: File, ops: seq<Op>, op: Op)
    requires Sized(f) && Runs(f, ops) && Legal(Run(f, ops), op)
    ensures Runs(f, ops + [op]) && Run(f, ops + [op]) == Step(Run(f, ops), op)
    ensures Undisturbed(f, ops + [op]) <==> Undisturbed(f, ops) && !Disturbs(Run(f, ops), op)
    ensures NeverHitOrMissed(f, ops + [op]) <==>
              NeverHitOrMissed(f, ops) && !Hit(Run(f, ops), op) && !Miss(Run(f, ops), op)
  {
    hide Sized, Legal, Step, Disturbs, Hit, Miss, Runs, Run, Undisturbed, NeverHitOrMissed;
    One(Run(f, ops), op);
    Joined(f, ops, [op]);
  }

  function Times(op: Op, n: nat): (r: seq<Op>)
    ensures |r| == n && forall i :: 0 <= i < n ==> r[i] == op
  {
    seq(n, i => op)
  }

  /** The file after `n` turns of the loop of ramfs_write. */
  function Filled(f: File, n: nat): File
    requires |f.store| == CAPACITY && f.call.Writing? && f.call.fd in f.fds
    requires f.call.k + n <= |f.call.bytes| && Cursor(f) + f.call.k + n <= CAPACITY
  {
    var k := f.call.k;
    f.(store := Splice(f.store, Cursor(f) + k, f.call.bytes[k..k + n]), call := f.call.(k := k + n))
  }

  lemma {:induction false} Puts(f: File, n: nat)
    requires Sized(f) && f.call.Writing? && f.call.k + n <= |f.call.bytes| && Cursor(f) + f.call.k + n <= CAPACITY
    ensures Runs(f, Times(Put, n)) && Undisturbed(f, Times(Put, n)) && Run(f, Times(Put, n)) == Filled(f, n)
    decreases n
  {
    hide Runs, Run, Undisturbed, Step, Legal, Splice;
    if n == 0 {
      Nothing(f);
      SpliceNothing(f.store, Cursor(f) + f.call.k);
      assert f.call.bytes[f.call.k..f.call.k + 0] == [];
      assert Times(Put, 0) == [];
    } else {
      Puts(f, n - 1);
      MorePut(f, n);
      Then(f, Times(Put, n - 1), Put);
      assert Times(Put, n) == Times(Put, n - 1) + [Put];
    }
  }

  lemma MorePut(f: File, n: nat)
    requires Sized(f) && f.call.Writing? && n > 0
    requires f.call.k + n <= |f.call.bytes| && Cursor(f) + f.call.k + n <= CAPACITY
    ensures Sized(Filled(f, n - 1)) && Legal(Filled(f, n - 1), Put) && Step(Filled(f, n - 1), Put) == Filled(f, n)
    ensures !Disturbs(Filled(f, n - 1), Put)
  {
    hide Splice;
    SpliceMore(f.store, Cursor(f) + f.call.k, f.call.bytes, f.call.k, n);
  }

  lemma SpliceNothing(s: Bytes, pos: nat)
    ensures Splice(s, pos, []) == s
  {
  }

  /** The file after `n` turns of the loop of ramfs_read. */
  function Fetched(f: File, n: nat): File
    requires |f.store| == CAPACITY && f.call.Reading? && f.call.fd in f.fds && Cursor(f) + |f.call.got| + n <= CAPACITY
  {
    var p := Cursor(f) + |f.call.got|;
    f.(call := f.call.(got := f.call.got + f.store[p..p + n]))
  }

  lemma {:induction false} Gets(f: File, n: nat)
    requires Sized(f) && f.call.Reading? && |f.call.got| + n <= f.call.n
    ensures Runs(f, Times(Get, n)) && Undisturbed(f, Times(Get, n)) && Run(f, Times(Get, n)) == Fetched(f, n)
    decreases n
  {
    hide Runs, Run, Undisturbed, Step, Legal;
    if n == 0 {
      Nothing(f);
      assert Times(Get, 0) == [];
      assert f.call.got + [] == f.call.got;
    } else {
      Gets(f, n - 1);
      MoreGet(f, n);
      Then(f, Times(Get, n - 1), Get);
      assert Times(Get, n) == Times(Get, n - 1) + [Get];
    }
  }

  lemma MoreGet(f: File, n: nat)
    requires Sized(f) && f.call.Reading? && |f.call.got| + n <= f.call.n && n > 0
    ensures Sized(Fetched(f, n - 1)) && Legal(Fetched(f, n - 1), Get) && Step(Fetched(f, n - 1), Get) == Fetched(f, n)
    ensures !Disturbs(Fetched(f, n - 1), Get)
  {
    var p, got := Cursor(f) + |f.call.got|, f.call.got;
    assert got + f.store[p..p + n] == got + f.store[p..p + n - 1] + [f.store[p + n - 1]];
  }

  lemma Nothing(f: File)
    requires Sized(f)
    ensures Runs(f, []) && Run(f, []) == f && Undisturbed(f, [])
  {
  }

  lemma SpliceMore(s: Bytes, pos: nat, bytes: Bytes, k: nat, n: nat)
    requires n > 0 && k + n <= |bytes| && pos + n <= |s|
    ensures Splice(s, pos, bytes[k..k + n - 1])[pos + n - 1 := bytes[k + n - 1]] == Splice(s, pos, bytes[k..k + n])
  {
    SpliceElements(s, pos, bytes[k..k + n - 1]);
    SpliceElements(s, pos, bytes[k..k + n]);
  }

  lemma SpliceElements(s: Bytes, pos: nat, bytes: Bytes)
    requires pos + |bytes| <= |s|
    ensures forall i :: 0 <= i < |s| ==>
              Splice(s, pos, bytes)[i] == if pos <= i < pos + |bytes| then bytes[i - pos] else s[i]
  {
  }

  /** A write changes exactly the range it covers. */
  lemma SpliceAt(data: Bytes, pos: nat, bytes: Bytes, i: nat)
    requires pos + |bytes| <= |data| && i < |data|
    ensures Splice(data, pos, bytes)[i] == if pos <= i < pos + |bytes| then bytes[i - pos] else data[i]
  {
    SpliceElements(data, pos, bytes);
  }

  // ---------- whole calls ----------

  /** task_fs_write when nothing comes between, as events. */
  lemma WriteRun(f: File, fd: Fd, bytes: Bytes) returns (ops: seq<Op>)
    requires Sized(f) && f.call.Idle? && Free(f, fd.task) && CanWrite(f, fd)
    ensures ops == [Write(fd, bytes)] + Times(Put, Accepted(f.fds[fd].pos, |bytes|)) + [Grow, Advance(fd)]
    ensures Runs(f, ops) && Run(f, ops) == WriteCall(f, fd, bytes).0 && Undisturbed(f, ops)
  {
    hide Runs, Run, Undisturbed, Splice;
    var k := Accepted(f.fds[fd].pos, |bytes|);
    One(f, Write(fd, bytes));
    var f1 := Step(f, Write(fd, bytes));
    StepKeeps(f, Write(fd, bytes));
    Puts(f1, k);
    Joined(f, [Write(fd, bytes)], Times(Put, k));
    var begun := [Write(fd, bytes)] + Times(Put, k);
    assert bytes[0..k] == bytes[..k];
    Then(f, begun, Grow);
    Then(f, begun + [Grow], Advance(fd));
    ops := begun + [Grow, Advance(fd)];
    assert ops == begun + [Grow] + [Advance(fd)];
  }

  /** task_fs_read likewise. */
  lemma ReadRun(f: File, fd: Fd, n: nat) returns (ops: seq<Op>)
    requires Sized(f) && f.call.Idle? && Free(f, fd.task) && CanRead(f, fd) && ReadCall(f, fd, n).1.Got?
    ensures ops == [Read(fd, n)] + Times(Get, |ReadCall(f, fd, n).1.bytes|) + [Done, Advance(fd)]
    ensures Runs(f, ops) && Run(f, ops) == ReadCall(f, fd, n).0 && Undisturbed(f, ops)
  {
    hide Runs, Run, Undisturbed, Wanted;
    var k := |ReadCall(f, fd, n).1.bytes|;
    One(f, Read(fd, n));
    var f1 := Step(f, Read(fd, n));
    StepKeeps(f, Read(fd, n));
    Gets(f1, k);
    Joined(f, [Read(fd, n)], Times(Get, k));
    var begun := [Read(fd, n)] + Times(Get, k);
    Then(f, begun, Done);
    Then(f, begun + [Done], Advance(fd));
    ops := begun + [Done, Advance(fd)];
    assert ops == begun + [Done] + [Advance(fd)];
  }

  /** task_fs_open likewise. */
  lemma OpenRun(f: File, fd: Fd, flags: Flags)
    requires Sized(f) && f.call.Idle? && Free(f, fd.task) && fd !in f.fds && !Refused(f)
    ensures Runs(f, [Check(fd, flags), Commit]) && Run(f, [Check(fd, flags), Commit]) == OpenCall(f, fd, flags).0
    ensures Undisturbed(f, [Check(fd, flags), Commit])
  {
    hide Runs, Run, Undisturbed;
    One(f, Check(fd, flags));
    Then(f, [Check(fd, flags)], Commit);
    assert [Check(fd, flags)] + [Commit] == [Check(fd, flags), Commit];
  }

  /** A call that reads returns the content from the cursor on, and no more, if and only if the
      cursor is within the file or nothing is asked for. */
  lemma ReadsContent(f: File, fd: Fd, n: nat)
    requires Sized(f) && CanRead(f, fd)
    ensures ReadCall(f, fd, n).1 == Got(Slice(Data(f), f.fds[fd].pos, n)) <==> f.fds[fd].pos <= f.size || n == 0
  {
    var pos := f.fds[fd].pos;
    if pos <= f.size {
      assert (f.size - pos) % WORD == f.size - pos;
      Inside(f.store, f.size, pos, Min(pos + n, f.size));
    } else {
      assert (f.size - pos) % WORD == f.size - pos + WORD;
    }
  }

  function Slice(data: Bytes, pos: nat, n: nat): Bytes {
    if pos > |data| then [] else data[pos..Min(pos + n, |data|)]
  }

  lemma SpliceRange(data: Bytes, pos: nat, bytes: Bytes, size: nat)
    requires pos + |bytes| <= size <= |data|
    ensures Splice(data, pos, bytes)[..size][pos..pos + |bytes|] == bytes
  {
    var r := Splice(data, pos, bytes);
    Inside(r, size, pos, pos + |bytes|);
    SpliceElements(data, pos, bytes);
    assert r[pos..pos + |bytes|] == bytes;
  }

  /** Write, seek back, read, with nothing in between: the accepted prefix comes back, and the
      cursor is where it was. */
  lemma RoundTrip(f: File, fd: Fd, bytes: Bytes)
    requires Sized(f) && f.call.Idle? && CanRead(f, fd) && CanWrite(f, fd) && f.fds[fd].due == 0
    ensures var pos, k := f.fds[fd].pos, Accepted(f.fds[fd].pos, |bytes|);
      var (f1, r1) := WriteCall(f, fd, bytes);
      Sized(f1) && r1 == Wrote(k) &&
      var (f2, r2) := SeekCall(f1, fd, pos, Set);
      Sized(f2) && r2 == At(pos) &&
      var (f3, r3) := ReadCall(f2, fd, k);
      r3 == Got(bytes[..k]) && f3 == f1
  {
    hide Splice;
    var pos, k := f.fds[fd].pos, Accepted(f.fds[fd].pos, |bytes|);
    var f1 := WriteCall(f, fd, bytes).0;
    var f2 := SeekCall(f1, fd, pos, Set).0;
    assert f2.store == Splice(f.store, pos, bytes[..k]) && f2.size >= pos + k;
    ReadsContent(f2, fd, k);
    SpliceRange(f.store, pos, bytes[..k], f2.size);
    assert ReadCall(f2, fd, k).0.fds == f1.fds;
  }

  // ---------- a close at exit in the middle of a write ----------

  const RW: Flags := Flags(true, true, false)

  /** The file opened by two tasks for reading and writing. */
  function Shared(a: Fd, c: Fd): File {
    NEW.(refcnt := 2, oflags := RW, fds := map[a := Desc(RW, 0, 0), c := Desc(RW, 0, 0)])
  }

  lemma SharedRun(a: Fd, c: Fd)
    requires a.task != c.task
    ensures Sized(NEW) && Runs(NEW, [Check(a, RW), Commit] + [Check(c, RW), Commit])
    ensures Run(NEW, [Check(a, RW), Commit] + [Check(c, RW), Commit]) == Shared(a, c)
    ensures Undisturbed(NEW, [Check(a, RW), Commit] + [Check(c, RW), Commit])
  {
    hide Runs, Run, Undisturbed, Zeros;
    OpenRun(NEW, a, RW);
    var f := Run(NEW, [Check(a, RW), Commit]);
    OpenRun(f, c, RW);
    Joined(NEW, [Check(a, RW), Commit], [Check(c, RW), Commit]);
    assert f.fds == map[a := Desc(RW, 0, 0)];
  }

  /** The events of a write of 2048 bytes, with the exit of `c` after 1100 of them. */
  function Interrupted(a: Fd, c: Fd, bytes: Bytes): seq<Op> {
    [Write(a, bytes)] + Times(Put, 1100) + [Exit(c)] + Times(Put, 948) + [Grow]
  }

  lemma HalfWritten(a: Fd, c: Fd, bytes: Bytes) returns (f: File)
    requires a.task != c.task && |bytes| == 2048
    ensures Sized(Shared(a, c)) && Runs(Shared(a, c), [Write(a, bytes)] + Times(Put, 1100))
    ensures f == Run(Shared(a, c), [Write(a, bytes)] + Times(Put, 1100))
    ensures f == Shared(a, c).(store := f.store, call := Writing(a, bytes, 1100)) && |f.store| == CAPACITY
  {
    hide Runs, Run, Undisturbed, Zeros, Splice, Step, Legal;
    var s := Shared(a, c);
    WriteBegins(a, c, bytes);
    One(s, Write(a, bytes));
    var f1 := Step(s, Write(a, bytes));
    Puts(f1, 1100);
    Joined(s, [Write(a, bytes)], Times(Put, 1100));
    f := Filled(f1, 1100);
  }

  lemma WriteBegins(a: Fd, c: Fd, bytes: Bytes)
    requires a.task != c.task
    ensures var s := Shared(a, c);
      && Sized(s) && Legal(s, Write(a, bytes))
      && Step(s, Write(a, bytes)) == s.(call := Writing(a, bytes, 0)) && Sized(s.(call := Writing(a, bytes, 0)))
  {
    hide Zeros;
  }

  /** After the exit every block is gone, and the write goes on where it was. */
  lemma Trimmed(a: Fd, c: Fd, f: File, bytes: Bytes) returns (g: File)
    requires a.task != c.task && |bytes| == 2048 && |f.store| == CAPACITY
    requires f == Shared(a, c).(store := f.store, call := Writing(a, bytes, 1100))
    ensures Sized(f) && Legal(f, Exit(c)) && g == Step(f, Exit(c)) && Sized(g)
    ensures g.call == f.call && g.size == 0 && g.fds == map[a := Desc(RW, 0, 0)] && g.store == Zeros(CAPACITY)
  {
    hide Trim;
    g := Step(f, Exit(c));
    StepKeeps(f, Exit(c));
    forall i | 0 <= i < CAPACITY ensures g.store[i] == 0 { TrimAt(f.store, 0, i); }
    assert g.fds == map[a := Desc(RW, 0, 0)];
    AllZeros(g.store);
  }

  lemma AllZeros(s: Bytes)
    requires forall i :: 0 <= i < |s| ==> s[i] == 0
    ensures s == Zeros(|s|)
  {
  }

  /** Two tasks open an empty file. One writes 2048 bytes; when 1100 of them are stored the other
      exits, and its close frees both blocks. The write ends as if nothing had happened, and the
      first 1100 bytes of the file are zeros that nobody wrote. */
  lemma ExitCutsWrite(a: Fd, c: Fd, bytes: Bytes)
    requires a.task != c.task && |bytes| == 2048
    ensures var ops := [Check(a, RW), Commit] + [Check(c, RW), Commit] + Interrupted(a, c, bytes);
      && Sized(NEW) && Runs(NEW, ops) && NeverHitOrMissed(NEW, ops)
      && var r := Run(NEW, ops);
      r.call.Idle? && r.size == 2048 && Data(r) == Zeros(1100) + bytes[1100..]
  {
    hide Runs, Run, NeverHitOrMissed, Zeros, Splice, Step, Legal, Hit, Miss;
    var s := Shared(a, c);
    SharedRun(a, c);
    var f := HalfWritten(a, c, bytes);
    var g := Trimmed(a, c, f, bytes);
    Puts(g, 948);
    var h := Filled(g, 948);
    var begun := [Write(a, bytes)] + Times(Put, 1100);
    Then(s, begun, Exit(c));
    Joined(s, begun + [Exit(c)], Times(Put, 948));
    var r := Ended(a, h, bytes);
    Then(s, begun + [Exit(c)] + Times(Put, 948), Grow);
    Calm(NEW, [Check(a, RW), Commit] + [Check(c, RW), Commit]);
    NoLoads(s, Interrupted(a, c, bytes));
    Joined(NEW, [Check(a, RW), Commit] + [Check(c, RW), Commit], Interrupted(a, c, bytes));
  }

  lemma Ended(a: Fd, h: File, bytes: Bytes) returns (r: File)
    requires |bytes| == 2048 && Sized(h) && h.call == Writing(a, bytes, 2048) && h.size == 0
    requires h.fds == map[a := Desc(RW, 0, 0)] && h.store == Splice(Zeros(CAPACITY), 1100, bytes[1100..2048])
    ensures Legal(h, Grow) && r == Step(h, Grow) && Sized(r)
    ensures r.call.Idle? && r.size == 2048 && Data(r) == Zeros(1100) + bytes[1100..]
  {
    hide Splice;
    r := Step(h, Grow);
    StepKeeps(h, Grow);
    SpliceElements(Zeros(CAPACITY), 1100, bytes[1100..2048]);
    forall i | 0 <= i < 2048 ensures Data(r)[i] == (Zeros(1100) + bytes[1100..])[i] {}
  }

  lemma {:induction false} Calm(f: File, ops: seq<Op>)
    requires Sized(f) && Runs(f, ops) && Undisturbed(f, ops)
    ensures NeverHitOrMissed(f, ops)
    decreases |ops|
  {
    hide Sized, Legal, Step, Hit, Miss, Cut;
    if ops != [] {
      StepKeeps(f, ops[0]);
      Calm(Step(f, ops[0]), ops[1..]);
    }
  }

  lemma {:induction false} NoLoads(f: File, ops: seq<Op>)
    requires Sized(f) && Runs(f, ops) && forall op :: op in ops ==> !op.Load? && !op.Commit?
    ensures NeverHitOrMissed(f, ops)
    decreases |ops|
  {
    hide Sized, Legal, Step;
    if ops != [] {
      StepKeeps(f, ops[0]);
      NoLoads(Step(f, ops[0]), ops[1..]);
    }
  }

  // ---------- a load of a file that is open ----------

  /** When the loader has truncated the file under a cursor, a descriptor that can read gets back
      whatever the blocks still hold there: what the file held before, as far as it went. */
  lemma HitExposes(f: File, fd: Fd, n: nat)
    requires Sized(f) && fd in f.fds && f.fds[fd].flags.read && LoadTruncates(f)
    requires 0 < f.fds[fd].pos && f.fds[fd].pos + n <= CAPACITY
    ensures Hit(f, Load(true)) && Step(f, Load(true)) == Step(f, Load(false))
    ensures var g, pos := Step(f, Load(true)), f.fds[fd].pos;
      && Sized(g) && Data(g) == [] && ReadCall(g, fd, n).1 == Got(f.store[pos..pos + n])
      && (pos + n <= f.size ==> f.store[pos..pos + n] == Data(f)[pos..pos + n])
  {
    StepKeeps(f, Load(true));
    var g, pos := Step(f, Load(true)), f.fds[fd].pos;
    assert (g.size - pos) % WORD == WORD - pos;
    if pos + n <= f.size { Inside(f.store, f.size, pos, pos + n); }
  }

  const ALL: Flags := Flags(true, true, true)

  /** The file after its first opener wrote 200 bytes and went back to the middle. */
  function Halfway(fd: Fd, bytes: Bytes): File
    requires |bytes| == 200
  {
    File(Splice(Zeros(CAPACITY), 0, bytes), 200, 1, ALL, map[fd := Desc(ALL, 100, 0)], 0, Idle)
  }

  lemma HalfwayRun(fd: Fd, bytes: Bytes) returns (ops: seq<Op>)
    requires |bytes| == 200
    ensures ops == [Check(fd, ALL), Commit] + ([Write(fd, bytes)] + Times(Put, 200) + [Grow, Advance(fd)])
            + [Seek(fd, 100, Set)]
    ensures Sized(NEW) && Runs(NEW, ops) && Run(NEW, ops) == Halfway(fd, bytes)
  {
    hide Runs, Run, Undisturbed, Zeros, Splice;
    OpenRun(NEW, fd, ALL);
    var opening := [Check(fd, ALL), Commit];
    var f := Run(NEW, opening);
    assert f.fds == map[fd := Desc(ALL, 0, 0)];
    var writing := WriteRun(f, fd, bytes);
    assert bytes[..200] == bytes;
    Joined(NEW, opening, writing);
    Then(NEW, opening + writing, Seek(fd, 100, Set));
    ops := opening + writing + [Seek(fd, 100, Set)];
  }

  /** One task, one file: open for truncation, write, seek, run the file as a program, read. */
  lemma LoaderTruncatesOpenFile(fd: Fd, bytes: Bytes) returns (ops: seq<Op>)
    requires |bytes| == 200
    ensures ops == [Check(fd, ALL), Commit] + ([Write(fd, bytes)] + Times(Put, 200) + [Grow, Advance(fd)])
                   + [Seek(fd, 100, Set)] + [Load(true)]
    ensures Sized(NEW) && Runs(NEW, ops) && !NeverHitOrMissed(NEW, ops)
    ensures var f := Run(NEW, ops);
      && f.size == 0 && f.fds == map[fd := Desc(ALL, 100, 0)] && f.refcnt == 2
      && ReadCall(f, fd, 50).1 == Got(bytes[100..150])
  {
    hide Runs, Run, NeverHitOrMissed, Zeros, Splice;
    var begun := HalfwayRun(fd, bytes);
    var f := Halfway(fd, bytes);
    HitExposes(f, fd, 50);
    Then(NEW, begun, Load(true));
    ops := begun + [Load(true)];
    SpliceElements(Zeros(CAPACITY), 0, bytes);
    forall i | 0 <= i < 50 ensures f.store[100..150][i] == bytes[100..150][i] {}
  }

  /** A load between an open's check and its fs_open: the open is ignored but not refused, and
      nobody counts it. */
  lemma OpenIsMissed(fd: Fd)
    ensures var ops := [Check(fd, RW), Load(true), Commit];
      && Sized(NEW) && Runs(NEW, ops)
      && var r := Run(NEW, ops);
      && r.fds == map[fd := Desc(RW, 0, 0)] && r.refcnt == 1 && r.stuck == 1 && !Counted(r)
      && forall bytes :: WriteCall(r, fd, bytes) == (r, Wrote(0))
  {
    hide Runs, Run, Undisturbed, NeverHitOrMissed, Zeros;
    One(NEW, Check(fd, RW));
    Then(NEW, [Check(fd, RW)], Load(true));
    var f := Step(Step(NEW, Check(fd, RW)), Load(true));
    Then(NEW, [Check(fd, RW)] + [Load(true)], Commit);
    assert [Check(fd, RW)] + [Load(true)] + [Commit] == [Check(fd, RW), Load(true), Commit];
    assert Step(f, Commit).fds == map[fd := Desc(RW, 0, 0)];
  }

  // ---------- files that can never be opened again ----------

  /** Some run gives a task a descriptor of the file. */
  ghost predicate CanBeOpened(f: File)
    requires Sized(f)
  {
    exists ops :: Runs(f, ops) && Run(f, ops).fds != map[]
  }

  lemma StepRefused(f: File, op: Op)
    requires Sized(f) && Legal(f, op) && Refused(f) && f.fds == map[] && !f.call.Opening?
    ensures var r := Step(f, op); Sized(r) && Refused(r) && r.fds == map[] && !r.call.Opening?
  {
    hide Trim, Wanted, Target;
    StepKeeps(f, op);
  }

  /** A file that is refused with no descriptor left stays so: nobody is left to close it. */
  lemma {:induction false} RefusedForever(f: File, ops: seq<Op>)
    requires Sized(f) && Runs(f, ops) && Refused(f) && f.fds == map[] && !f.call.Opening?
    ensures Refused(Run(f, ops)) && Run(f, ops).fds == map[]
    decreases |ops|
  {
    hide Sized, Legal, Step, Refused;
    if ops != [] {
      StepRefused(f, ops[0]);
      RefusedForever(Step(f, ops[0]), ops[1..]);
    }
  }

  /** Whenever a run leaves a file without a descriptor and without a call under way, some task can
      ever open it again if and only if an open is not refused at that moment. */
  lemma OpensAgainIff(f: File, ops: seq<Op>)
    requires Sized(f) && Runs(f, ops) && Run(f, ops).fds == map[] && Run(f, ops).call.Idle?
    ensures CanBeOpened(Run(f, ops)) <==> !Refused(Run(f, ops))
  {
    hide Runs, Run;
    var r := Run(f, ops);
    if Refused(r) {
      forall more | Runs(r, more) ensures Run(r, more).fds == map[] { RefusedForever(r, more); }
    } else {
      var fd := Fd(0, 0);
      OpenRun(r, fd, RW);
      assert fd in Run(r, [Check(fd, RW), Commit]).fds;
    }
  }

  /** A failed load has left the file open, in a mode that nobody can join. */
  predicate Sticks(f: File) { f.stuck > 0 && Exclusive(f.oflags) }

  /** While the node counts its openers, that is what refuses an open with no descriptor left. */
  lemma RefusedIff(f: File)
    requires Counted(f) && f.fds == map[]
    ensures Refused(f) <==> Sticks(f)
  {
  }

  ghost predicate NeverMissed(f: File, ops: seq<Op>)
    requires Sized(f) && Runs(f, ops)
    decreases |ops|
  {
    ops == [] || (!Miss(f, ops[0]) && (StepKeeps(f, ops[0]); NeverMissed(Step(f, ops[0]), ops[1..])))
  }

  lemma {:induction false} StaysCounted(f: File, ops: seq<Op>)
    requires Sized(f) && Runs(f, ops) && Counted(f) && NeverMissed(f, ops)
    ensures Counted(Run(f, ops))
    decreases |ops|
  {
    hide Sized, Legal, Step, Counted, Miss;
    if ops != [] {
      StepKeeps(f, ops[0]);
      StepCounted(f, ops[0]);
      StaysCounted(Step(f, ops[0]), ops[1..]);
    }
  }

  /** So in a run that misses no open, truncating loads included, a file left without a descriptor
      can be opened again if and only if no load has left it open in such a mode. */
  lemma SticksIff(f: File, ops: seq<Op>)
    requires Sized(f) && Counted(f) && Runs(f, ops) && NeverMissed(f, ops)
    requires Run(f, ops).fds == map[] && Run(f, ops).call.Idle?
    ensures CanBeOpened(Run(f, ops)) <==> !Sticks(Run(f, ops))
  {
    hide Runs, Run, Sticks, Counted, NeverMissed;
    StaysCounted(f, ops);
    OpensAgainIff(f, ops);
    RefusedIff(Run(f, ops));
  }

  /** A missed open breaks that: its close takes away the count of the load that failed, and the
      file opens again although that load has left it in such a mode. */
  lemma MissedOpenReopens(fd: Fd)
    ensures var ops := [Check(fd, RW), Load(true), Commit, Close(fd)];
      && Sized(NEW) && Runs(NEW, ops)
      && var r := Run(NEW, ops); r.fds == map[] && Sticks(r) && !Refused(r) && CanBeOpened(r)
  {
    hide Runs, Run, Undisturbed, NeverHitOrMissed, Zeros, Trim;
    OpenIsMissed(fd);
    var ops := [Check(fd, RW), Load(true), Commit];
    var f := Run(NEW, ops);
    MissedIdle(fd);
    Then(NEW, ops, Close(fd));
    assert ops + [Close(fd)] == [Check(fd, RW), Load(true), Commit, Close(fd)];
    OpensAgainIff(NEW, ops + [Close(fd)]);
  }

  lemma MissedIdle(fd: Fd)
    ensures var ops := [Check(fd, RW), Load(true), Commit];
      && Sized(NEW) && Runs(NEW, ops)
      && var r := Run(NEW, ops); r.call.Idle? && r.oflags == READ
  {
    hide Runs, Run, Undisturbed, NeverHitOrMissed, Zeros;
    One(NEW, Check(fd, RW));
    Then(NEW, [Check(fd, RW)], Load(true));
    Then(NEW, [Check(fd, RW)] + [Load(true)], Commit);
    assert [Check(fd, RW)] + [Load(true)] + [Commit] == [Check(fd, RW), Load(true), Commit];
  }

  /** The file that was open for truncation when it was run as a program: once it is closed no run
      opens it again. */
  lemma TruncatedStaysShut(fd: Fd, bytes: Bytes) returns (ops: seq<Op>)
    requires |bytes| == 200
    ensures ops == [Check(fd, ALL), Commit] + ([Write(fd, bytes)] + Times(Put, 200) + [Grow, Advance(fd)])
                   + [Seek(fd, 100, Set)] + [Load(true)] + [Close(fd)]
    ensures Sized(NEW) && Runs(NEW, ops) && Run(NEW, ops).fds == map[] && !CanBeOpened(Run(NEW, ops))
  {
    hide Runs, Run, NeverHitOrMissed, Zeros, Splice, Trim;
    var begun := HalfwayRun(fd, bytes);
    Then(NEW, begun, Load(true));
    Then(NEW, begun + [Load(true)], Close(fd));
    ops := begun + [Load(true)] + [Close(fd)];
    OpensAgainIff(NEW, ops);
  }

  lemma StepSticks(f: File, op: Op)
    requires Sized(f) && Legal(f, op) && Counted(f) && Sticks(f) && !f.call.Opening?
    ensures var r := Step(f, op); Sized(r) && Counted(r) && Sticks(r) && !r.call.Opening? && r.fds.Keys <= f.fds.Keys
  {
    hide Sized, Legal, Step;
    StepKeeps(f, op);
    StepCounted(f, op);
    if op.Load? { LoadSticks(f, op.accepts); }
    else if op.Close? || op.Exit? { ClosedSticks(f, op); }
    else { NoCommit(f, op); StepKeys(f, op); }
  }

  lemma NoCommit(f: File, op: Op)
    requires Sized(f) && Legal(f, op) && !f.call.Opening?
    ensures !op.Commit?
  {
  }

  lemma LoadSticks(f: File, accepts: bool)
    requires Sized(f) && Counted(f) && Sticks(f)
    ensures var r := Step(f, Load(accepts)); Sticks(r) && r.fds == f.fds && r.call == f.call
  {
    hide Sized, Trim;
  }

  lemma ClosedSticks(f: File, op: Op)
    requires Sized(f) && Legal(f, op) && Sticks(f) && (op.Close? || op.Exit?)
    ensures var r := Step(f, op); Sticks(r) && r.fds.Keys <= f.fds.Keys && r.call == f.call
  {
    hide Sized, Trim, Legal;
  }

  /** And so it stays, whatever happens, with descriptors left or not. */
  lemma {:induction false} StuckForever(f: File, ops: seq<Op>)
    requires Sized(f) && Runs(f, ops) && Counted(f) && Sticks(f) && !f.call.Opening?
    ensures var r := Run(f, ops); Sticks(r) && Counted(r) && Refused(r) && r.fds.Keys <= f.fds.Keys
    decreases |ops|
  {
    hide Sized, Legal, Step;
    if ops != [] {
      StepKeeps(f, ops[0]);
      StepSticks(f, ops[0]);
      StuckForever(Step(f, ops[0]), ops[1..]);
    }
  }

  /** A load that fails after opening the file leaves it so exactly unless the file was open for
      both reading and writing and not for truncation. */
  lemma FailedLoadSticks(f: File, accepts: bool)
    requires Sized(f) && Counted(f) && !LoadRefused(f) && !LoadSucceeds(f, accepts)
    ensures Sticks(Step(f, Load(accepts))) <==> !(f.refcnt > 0 && f.oflags == RW)
  {
  }
}
