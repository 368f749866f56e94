/**
 * What descriptors promise, said with the flags and the numbers of the calls themselves: which of
 * them read and write, where they put the cursor, and that calls one after the other add up.
 */
module RamFileLaws {
  import opened Util
  import opened RamFileSpec
  import opened RamFileRuns
  import opened RamFileCalls

  // ---------- which descriptors read and write ----------

  /** An open is refused exactly if others have the file open for reading alone, for writing alone or
      for truncation; otherwise it counts, and only a first opener's flags become the node's. */
  lemma OpenIff(f: File, fd: Fd, flags: Flags)
    ensures var (r, result), o := OpenCall(f, fd, flags), f.oflags;
      && (result == Busy <==>
            f.refcnt > 0 && o !in {Flags(true, true, false), Flags(false, false, false)})
      && (result == Busy ==> r == f)
      && (result != Busy ==> result == Opened && r.refcnt == f.refcnt + 1 && r.fds == f.fds[fd := Desc(flags, 0, 0)])
      && (result != Busy ==> r.oflags == (if f.refcnt == 0 then flags else f.oflags) && r.store == f.store)
  {
  }

  /** A load succeeds exactly if nobody has the file open, or somebody has for reading and nobody for
      truncation, and the loader accepts at least a header; then it leaves the node as open as it
      was. A load that is refused changes nothing, and any other failed one stays counted. */
  lemma LoadIff(f: File, accepts: bool)
    requires Sized(f)
    ensures var (r, result), free := LoadCall(f, accepts), f.refcnt == 0;
      && (result == Loaded(true) <==>
            (free || (f.oflags.read && !f.oflags.trunc)) && accepts && f.size >= 52)
      && (result == Loaded(true) ==> r.refcnt == f.refcnt && Data(r) == Data(f) && r.stuck == f.stuck)
      && (!free && !f.oflags.read ==> r == f)
      && (result == Loaded(false) && (free || f.oflags.read) ==> r.refcnt == f.refcnt + 1 && r.stuck == f.stuck + 1)
      && (free ==> r.oflags == READ) && (!free ==> r.oflags == f.oflags) && r.fds == f.fds && r.call == f.call
  {
    var g := FsOpen(f, OpenFlags(f, READ));
    if LoadSucceeds(f, accepts) { KeepsContent(g.store, g.size); }
  }

  /** Closing leaves the content, and of the bytes past it those in the last block that has any. */
  lemma CloseKeeps(f: File, fd: Fd, i: nat)
    requires Sized(f)
    ensures var r := FsClose(f);
      && Data(r) == Data(f) && r.refcnt == (if f.refcnt == 0 then 0 else f.refcnt - 1)
      && (i < CAPACITY && f.refcnt > 0 ==> r.store[i] == if i / 1024 * 1024 < f.size then f.store[i] else 0)
      && (fd in f.fds ==> CloseCall(f, fd) == (r.(fds := f.fds - {fd}), Closed))
      && (fd !in f.fds ==> CloseCall(f, fd) == (f, BadFd))
  {
    assert i < Keep(f.size) <==> i / 1024 * 1024 < f.size;
  }

  /** What an opener finds: nothing if it is the first and asks for truncation. */
  function Found(f: File, flags: Flags): Bytes
    requires Sized(f)
  {
    if f.refcnt == 0 && flags.trunc then [] else Data(f)
  }

  /** A write right after an open: it is refused without the write flag; nothing is written if
      others have the file open for neither reading nor writing; otherwise the prefix that fits
      replaces the beginning of the content, whether the file is open for reading or not. */
  lemma OpenWrites(f: File, fd: Fd, flags: Flags, bytes: Bytes)
    requires Sized(f) && fd !in f.fds && f.call.Idle? && !Refused(f)
    ensures var k := Min(|bytes|, CAPACITY);
      var g := OpenCall(f, fd, flags).0;
      Sized(g) && Data(g) == Found(f, flags) &&
      var (r, result) := WriteCall(g, fd, bytes);
      Sized(r) &&
      if !flags.write then result == BadFd && r == g
      else if f.refcnt > 0 && !f.oflags.write then result == Wrote(0) && r == g
      else result == Wrote(k) && Data(r) == bytes[..k] + Found(f, flags)[Min(k, |Found(f, flags)|)..]
           && r.fds == g.fds[fd := Desc(flags, k, 0)]
  {
    hide Splice;
    var g, k := OpenCall(f, fd, flags).0, Min(|bytes|, CAPACITY);
    var r := WriteCall(g, fd, bytes).0;
    if CanWrite(g, fd) { SpliceData(g.store, g.size, 0, bytes[..k]); }
  }

  /** A read right after an open likewise. */
  lemma OpenReads(f: File, fd: Fd, flags: Flags, n: nat)
    requires Sized(f) && fd !in f.fds && f.call.Idle? && !Refused(f)
    ensures var g := OpenCall(f, fd, flags).0;
      Sized(g) &&
      var (r, result) := ReadCall(g, fd, n);
      if !flags.read then result == BadFd && r == g
      else if f.refcnt > 0 && !f.oflags.read then result == Got([]) && r == g
      else var k := Min(n, |Found(f, flags)|);
        result == Got(Found(f, flags)[..k]) && r == g.(fds := g.fds[fd := Desc(flags, k, 0)])
  {
    var g := OpenCall(f, fd, flags).0;
    if CanRead(g, fd) { ReadsContent(g, fd, n); }
  }

  /** The content after a write at `pos` within it. */
  lemma SpliceData(store: Bytes, size: nat, pos: nat, bytes: Bytes)
    requires pos <= size <= |store| && pos + |bytes| <= |store|
    ensures var end := pos + |bytes|;
      Splice(store, pos, bytes)[..if end > size then end else size]
        == store[..pos] + bytes + store[..size][Min(end, size)..]
  {
    SpliceElements(store, pos, bytes);
  }

  /** The same as a run of events, from the open on. */
  lemma OpenWriteRun(f: File, fd: Fd, flags: Flags, bytes: Bytes) returns (ops: seq<Op>)
    requires Sized(f) && fd !in f.fds && f.call.Idle? && Free(f, fd.task) && !Refused(f)
    requires flags.write && (f.refcnt == 0 || f.oflags.write)
    ensures var k := Min(|bytes|, CAPACITY);
      && ops == [Check(fd, flags), Commit] + ([Write(fd, bytes)] + Times(Put, k) + [Grow, Advance(fd)])
      && Runs(f, ops) && Undisturbed(f, ops)
      && var r := Run(f, ops);
      && Data(r) == bytes[..k] + Found(f, flags)[Min(k, |Found(f, flags)|)..]
      && r.fds == f.fds[fd := Desc(flags, k, 0)] && r.call.Idle?
  {
    hide Runs, Run, Undisturbed, Splice, Data, Found;
    OpenWrites(f, fd, flags, bytes);
    OpenRun(f, fd, flags);
    var g := Run(f, [Check(fd, flags), Commit]);
    var writing := WriteRun(g, fd, bytes);
    Joined(f, [Check(fd, flags), Commit], writing);
    ops := [Check(fd, flags), Commit] + writing;
    assert g.fds[fd := Desc(flags, Min(|bytes|, CAPACITY), 0)] == f.fds[fd := Desc(flags, Min(|bytes|, CAPACITY), 0)];
  }

  /** What a descriptor may do, by its own flags and those that the node was opened with. */
  predicate Rights(f: File, fd: Fd, flags: Flags, node: Flags) {
    fd in f.fds && f.fds[fd].flags == flags && f.refcnt > 0 && f.oflags == node
  }

  /** Any write through a descriptor: its length is the part that fits, if both allow it. */
  lemma WriteReturns(f: File, fd: Fd, bytes: Bytes, flags: Flags, node: Flags)
    requires Sized(f) && Rights(f, fd, flags, node)
    ensures var pos, result := f.fds[fd].pos, WriteCall(f, fd, bytes).1;
      && (result == BadFd <==> !flags.write)
      && (flags.write && !node.write ==> result == Wrote(0) && WriteCall(f, fd, bytes).0 == f)
      && (flags.write && node.write ==> result == Wrote(Min(|bytes|, CAPACITY - pos)))
  {
  }

  lemma ReadReturns(f: File, fd: Fd, n: nat, flags: Flags, node: Flags)
    requires Sized(f) && Rights(f, fd, flags, node) && f.fds[fd].pos <= f.size
    ensures var pos, result := f.fds[fd].pos, ReadCall(f, fd, n).1;
      && ReadCall(f, fd, n).0.store == f.store && ReadCall(f, fd, n).0.size == f.size
      && (result == BadFd <==> !flags.read)
      && (flags.read && !node.read ==> result == Got([]) && ReadCall(f, fd, n).0 == f)
      && (flags.read && node.read ==> result == Got(Data(f)[pos..Min(pos + n, f.size)]))
  {
    if CanRead(f, fd) { ReadsContent(f, fd, n); }
  }

  /** And it is by these alone that a call which takes the node begins or is turned away. */
  lemma CallsBegin(f: File, fd: Fd, bytes: Bytes, n: nat, flags: Flags, node: Flags)
    requires Sized(f) && Rights(f, fd, flags, node) && f.call.Idle? && Free(f, fd.task) && f.fds[fd].pos <= f.size
    ensures var r := Step(f, Write(fd, bytes));
      if flags.write && node.write then r == f.(call := Writing(fd, bytes, 0)) else r == f
    ensures var r, k := Step(f, Read(fd, n)), Min(n, f.size - f.fds[fd].pos);
      if flags.read && node.read
      then r == f.(fds := f.fds[fd := Desc(flags, f.fds[fd].pos, k)], call := Reading(fd, k, [])) else r == f
  {
    hide Wanted;
    WantedIs(f.size, f.fds[fd].pos, n);
  }

  lemma StepRights(f: File, op: Op, fd: Fd, flags: Flags, node: Flags)
    requires Sized(f) && Legal(f, op) && Counted(f) && Rights(f, fd, flags, node) && op != Close(fd) && op != Exit(fd)
    ensures Rights(Step(f, op), fd, flags, node)
  {
    hide Trim, Wanted, Target;
    if op.Close? || op.Exit? { if op.fd in f.fds { TwoOpen(f, fd, op.fd); } }
  }

  lemma TwoOpen(f: File, a: Fd, b: Fd)
    requires Counted(f) && a in f.fds && b in f.fds && a != b
    ensures f.refcnt > 1
  {
    assert {a, b} <= f.fds.Keys;
    SubsetSize({a, b}, f.fds.Keys);
  }

  /** They stay what they are until it is closed, whatever other tasks and the loader do, as long
      as no open is missed. */
  lemma {:induction false} RightsKept(f: File, ops: seq<Op>, fd: Fd, flags: Flags, node: Flags)
    requires Sized(f) && Runs(f, ops) && Counted(f) && NeverMissed(f, ops) && Rights(f, fd, flags, node)
    requires Close(fd) !in ops && Exit(fd) !in ops
    ensures Rights(Run(f, ops), fd, flags, node)
    decreases |ops|
  {
    hide Sized, Legal, Step, Counted, Miss, Rights;
    if ops != [] {
      StepKeeps(f, ops[0]);
      StepCounted(f, ops[0]);
      StepRights(f, ops[0], fd, flags, node);
      RightsKept(Step(f, ops[0]), ops[1..], fd, flags, node);
    }
  }

  // ---------- where the cursor goes ----------

  /** From the beginning, from the cursor, or back from the end; below 0 means 0 and past the
      end means the end. Nothing else changes. */
  lemma SeekLands(f: File, fd: Fd, off: int, whence: Whence)
    requires Sized(f) && fd in f.fds
    ensures var (r, result) := SeekCall(f, fd, off, whence);
      && result.At? && r == f.(fds := f.fds[fd := f.fds[fd].(pos := result.pos)])
      && (Legal(f, Seek(fd, off, whence)) ==> Step(f, Seek(fd, off, whence)) == r)
      && (whence == Set && 0 <= off <= f.size ==> result.pos == off)
      && (whence == Cur && 0 <= f.fds[fd].pos + off <= f.size ==> result.pos == f.fds[fd].pos + off)
      && (whence == End && 0 <= off <= f.size ==> result.pos == f.size - off)
      && (whence == Set && off < 0 ==> result.pos == 0) && (whence == Set && off > f.size ==> result.pos == f.size)
      && (whence == Cur && f.fds[fd].pos + off < 0 ==> result.pos == 0)
      && (whence == Cur && f.fds[fd].pos + off > f.size ==> result.pos == f.size)
      && (whence == End && off > f.size ==> result.pos == 0) && (whence == End && off < 0 ==> result.pos == f.size)
  {
  }

  /** Seeking to the end and writing appends. */
  lemma Appends(f: File, fd: Fd, bytes: Bytes)
    requires Sized(f) && f.call.Idle? && CanWrite(f, fd) && f.fds[fd].due == 0
    ensures var g := SeekCall(f, fd, 0, End).0;
      Sized(g) &&
      var (r, result) := WriteCall(g, fd, bytes);
      var k := Min(|bytes|, CAPACITY - f.size);
      Sized(r) && result == Wrote(k) && Data(r) == Data(f) + bytes[..k]
  {
    hide Splice;
    var g, k := SeekCall(f, fd, 0, End).0, Min(|bytes|, CAPACITY - f.size);
    SpliceData(g.store, g.size, g.size, bytes[..k]);
  }

  // ---------- calls one after the other ----------

  /** Two writes in a row write what one write of both does. */
  lemma WritesAddUp(f: File, fd: Fd, a: Bytes, b: Bytes)
    requires Sized(f) && f.call.Idle? && CanWrite(f, fd) && f.fds[fd].due == 0
    ensures var (f1, r1) := WriteCall(f, fd, a);
      Sized(f1) &&
      var (f2, r2) := WriteCall(f1, fd, b);
      r1.Wrote? && r2.Wrote? && (f2, Wrote(r1.n + r2.n)) == WriteCall(f, fd, a + b)
  {
    hide Splice;
    var pos := f.fds[fd].pos;
    var k := Accepted(pos, |a|);
    var l := Accepted(pos + k, |b|);
    assert (a + b)[..k + l] == a[..k] + b[..l];
    SpliceTwice(f.store, pos, a[..k], b[..l]);
    var f1 := WriteCall(f, fd, a).0;
    assert WriteCall(f1, fd, b).0.fds == WriteCall(f, fd, a + b).0.fds;
  }

  lemma SpliceTwice(s: Bytes, pos: nat, a: Bytes, b: Bytes)
    requires pos + |a| + |b| <= |s|
    ensures Splice(Splice(s, pos, a), pos + |a|, b) == Splice(s, pos, a + b)
  {
    hide Splice;
    var twice, once := Splice(Splice(s, pos, a), pos + |a|, b), Splice(s, pos, a + b);
    SpliceElements(s, pos, a);
    SpliceElements(Splice(s, pos, a), pos + |a|, b);
    SpliceElements(s, pos, a + b);
    forall i | 0 <= i < |s| ensures twice[i] == once[i] {}
  }

  /** And two reads in a row return what one read of both does. */
  lemma ReadsAddUp(f: File, fd: Fd, n: nat, m: nat)
    requires Sized(f) && f.call.Idle? && CanRead(f, fd) && f.fds[fd].due == 0 && f.fds[fd].pos <= f.size
    ensures var (f1, r1) := ReadCall(f, fd, n);
      Sized(f1) &&
      var (f2, r2) := ReadCall(f1, fd, m);
      r1.Got? && r2.Got? && (f2, Got(r1.bytes + r2.bytes)) == ReadCall(f, fd, n + m)
  {
    hide Wanted;
    var pos := f.fds[fd].pos;
    var p1, p2 := pos + Min(n, f.size - pos), pos + Min(n + m, f.size - pos);
    WantedIs(f.size, pos, n);
    WantedIs(f.size, p1, m);
    WantedIs(f.size, pos, n + m);
    var f1 := ReadCall(f, fd, n).0;
    assert ReadCall(f1, fd, m).0.fds == ReadCall(f, fd, n + m).0.fds;
    assert f.store[pos..p1] + f.store[p1..p2] == f.store[pos..p2];
  }

  lemma WantedIs(size: nat, pos: nat, n: nat)
    requires pos <= size <= CAPACITY
    ensures Wanted(size, pos, n) == Min(n, size - pos)
  {
  }
}
