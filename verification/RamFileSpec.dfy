/**
 * A ramfs file behind the descriptor layer and the program loader: the bytes its blocks hold,
 * its size, and the cursors. Calls that acquire the node run with interrupts on, so each is a
 * series of events; a close at exit and a load acquire nothing and can come between any two.
 * `RamFiles` (RamFiles.dfy) has the block structure.
 */
module RamFileSpec {
  import opened Util

  const BLOCK: nat := 1024
  const CAPACITY: nat := 65536 // MAX_BLOCKS * BLOCK_SIZE
  const WORD: nat := 0x1_0000_0000
  const EHDR: nat := 52        // sizeof(elf32_header_t)

  datatype Flags = Flags(read: bool, write: bool, trunc: bool)

  const READ: Flags := Flags(true, false, false)

  /** `due` is what a read or write has still to add to the cursor: that is done after the node
      has been released. */
  datatype Desc = Desc(flags: Flags, pos: nat, due: nat)

  /** A descriptor number of one task. */
  datatype Fd = Fd(task: nat, number: nat)

  /** What the task that holds the node is in the middle of: an open past its check, with the
      node flags it is going to use; a read of `n` bytes; a write that has stored `k` bytes. */
  datatype Call =
    | Idle
    | Opening(fd: Fd, flags: Flags, with: Flags)
    | Reading(fd: Fd, n: nat, got: Bytes)
    | Writing(fd: Fd, bytes: Bytes, k: nat)

  /** `store` is every byte a block holds, with 0 where there is no block; the first `size` are
      the content. `refcnt` and `oflags` are the node's, `fds` the open descriptors, and `stuck`
      counts the loads that failed after opening the node, which never close it. */
  datatype File = File(store: Bytes, size: nat, refcnt: nat, oflags: Flags, fds: map<Fd, Desc>, stuck: nat, call: Call)

  datatype Whence = Set | Cur | End

  /** `accepts` is what the loader makes of a file whose header it can read. */
  datatype Op =
    | Check(fd: Fd, flags: Flags) | Commit           // task_fs_open
    | Read(fd: Fd, n: nat) | Get | Done              // task_fs_read: one byte is one event
    | Write(fd: Fd, bytes: Bytes) | Put | Grow       // task_fs_write: so is one byte here
    | Advance(fd: Fd)                                // the cursor follows
    | Seek(fd: Fd, off: int, whence: Whence)
    | Close(fd: Fd)
    | Exit(fd: Fd)                                   // the close in task_free
    | Load(accepts: bool)

  datatype Result =
    | Opened | Busy | BadFd | Got(bytes: Bytes) | Wild | Wrote(n: nat) | At(pos: nat) | Closed | Loaded(ok: bool)

  function Data(f: File): Bytes
    requires f.size <= |f.store|
  {
    f.store[..f.size]
  }

  // ---------- the driver and the node ----------

  /** How many bytes ramfs_read goes for: the rest of the file, in 32-bit arithmetic. */
  function Wanted(size: nat, pos: nat, n: nat): nat { Min(n, (size - pos) % WORD) }

  /** How much of a write at `pos` fits. */
  function Accepted(pos: nat, n: nat): (k: nat)
    ensures k <= n && (pos <= CAPACITY ==> pos + k <= CAPACITY)
  {
    if pos > CAPACITY then 0 else Min(n, CAPACITY - pos)
  }

  function Splice(data: Bytes, pos: nat, bytes: Bytes): (r: Bytes)
    requires bytes == [] || pos + |bytes| <= |data|
    ensures |r| == |data|
  {
    if bytes == [] then data else data[..pos] + bytes + data[pos + |bytes|..]
  }

  /** Where the blocks end that ramfs_close keeps. */
  function Keep(size: nat): nat { (size + BLOCK - 1) / BLOCK * BLOCK }

  /** What ramfs_close leaves: no block wholly past the end. */
  function Trim(store: Bytes, size: nat): (r: Bytes)
    ensures |r| == |store|
  {
    seq(|store|, i requires 0 <= i < |store| => if i < Keep(size) then store[i] else 0)
  }

  function Clamp(x: int, hi: nat): nat { if x < 0 then 0 else if x > hi then hi else x }

  /** task_fs_open compares the node's flags with none at all, so a node that is open can be
      opened again only if it is open for both reading and writing (or for neither), and not
      for truncation; and then it keeps its flags. */
  predicate Refused(f: File) { f.refcnt > 0 && Exclusive(f.oflags) }

  predicate Exclusive(o: Flags) { o.read != o.write || o.trunc }

  /** fs_open: a node that is open with other flags is left alone. */
  function FsOpen(f: File, o: Flags): File {
    if f.refcnt > 0 && f.oflags != o then f
    else f.(size := if o.trunc then 0 else f.size, refcnt := f.refcnt + 1, oflags := o)
  }

  /** fs_close. */
  function FsClose(f: File): File {
    if f.refcnt == 0 then f else f.(store := Trim(f.store, f.size), refcnt := f.refcnt - 1)
  }

  /** The flags a task opens the node with. */
  function OpenFlags(f: File, flags: Flags): Flags { if f.refcnt > 0 then f.oflags else flags }

  /** The loader does so too, truncation included. */
  predicate LoadRefused(f: File) { f.refcnt > 0 && !f.oflags.read }

  predicate LoadTruncates(f: File) { f.refcnt > 0 && f.oflags.read && f.oflags.trunc }

  predicate LoadSucceeds(f: File, accepts: bool) {
    !LoadRefused(f) && !LoadTruncates(f) && accepts && f.size >= EHDR
  }

  function Loading(f: File, accepts: bool): File {
    if LoadRefused(f) then f
    else
      var g := FsOpen(f, OpenFlags(f, READ));
      if accepts && g.size >= EHDR then FsClose(g) else g.(stuck := g.stuck + 1)
  }

  // ---------- the events ----------

  /** Sizes and cursors fit the blocks; a node that is open for truncation is not so because of
      an open that is under way. */
  ghost predicate Sized(f: File) {
    && |f.store| == CAPACITY && f.size <= CAPACITY
    && (forall d :: d in f.fds ==> f.fds[d].pos + f.fds[d].due <= CAPACITY)
    && match f.call
       case Idle => true
       case Opening(fd, _, with) => fd !in f.fds && (with.trunc && f.refcnt > 0 ==> !f.oflags.trunc)
       case Reading(fd, n, got) => fd in f.fds && |got| <= n && f.fds[fd].due == n
       case Writing(fd, bytes, k) => fd in f.fds && k <= |bytes| && f.fds[fd].due == 0 && f.fds[fd].pos + k <= CAPACITY
  }

  /** A task is not in the middle of a call. */
  ghost predicate Free(f: File, task: nat) {
    (f.call.Idle? || f.call.fd.task != task) && forall d :: d in f.fds && d.task == task ==> f.fds[d].due == 0
  }

  /** Calls that acquire the node wait for the one that holds it. Each task does one thing at a
      time, and opens the file under a descriptor number it does not use. */
  ghost predicate Legal(f: File, op: Op)
    requires Sized(f)
  {
    match op
    case Check(fd, _) => f.call.Idle? && Free(f, fd.task) && fd !in f.fds
    case Commit => f.call.Opening?
    case Read(fd, _) => f.call.Idle? && Free(f, fd.task)
    case Get => f.call.Reading? && |f.call.got| < f.call.n
    case Done => f.call.Reading? && |f.call.got| == f.call.n
    case Write(fd, _) => f.call.Idle? && Free(f, fd.task)
    case Put => f.call.Writing? && f.call.k < |f.call.bytes| && Cursor(f) + f.call.k < CAPACITY
    case Grow => f.call.Writing? && (f.call.k == |f.call.bytes| || Cursor(f) + f.call.k == CAPACITY)
    case Advance(fd) => fd in f.fds && (f.call.Idle? || f.call.fd.task != fd.task)
    case Seek(fd, _, _) => Free(f, fd.task)
    case Close(fd) => f.call.Idle? && Free(f, fd.task)
    case Exit(fd) => Free(f, fd.task)
    case Load(_) => true
  }

  /** The cursor of the read or write in progress. */
  function Cursor(f: File): nat
    requires (f.call.Reading? || f.call.Writing?) && f.call.fd in f.fds
  {
    f.fds[f.call.fd].pos
  }

  predicate CanRead(f: File, fd: Fd) { fd in f.fds && f.fds[fd].flags.read && f.refcnt > 0 && f.oflags.read }

  predicate CanWrite(f: File, fd: Fd) { fd in f.fds && f.fds[fd].flags.write && f.refcnt > 0 && f.oflags.write }

  function Closed1(f: File, fd: Fd): File {
    if fd in f.fds then FsClose(f).(fds := f.fds - {fd}) else f
  }

  function Target(f: File, d: Desc, off: int, whence: Whence): nat {
    Clamp(match whence case Set => off case Cur => d.pos + off case End => f.size - off, f.size)
  }

  /** A read that runs past the table of blocks is wild, and after it the model says nothing. */
  function Step(f: File, op: Op): File
    requires Sized(f) && Legal(f, op)
  {
    match op
    case Check(fd, flags) => if Refused(f) then f else f.(call := Opening(fd, flags, OpenFlags(f, flags)))
    case Commit =>
      FsOpen(f, f.call.with).(fds := f.fds[f.call.fd := Desc(f.call.flags, 0, 0)], call := Idle)
    case Read(fd, n) =>
      if !CanRead(f, fd) then f
      else
        var d := f.fds[fd];
        var k := Wanted(f.size, d.pos, n);
        if d.pos + k > CAPACITY then f else f.(fds := f.fds[fd := d.(due := k)], call := Reading(fd, k, []))
    case Get => f.(call := f.call.(got := f.call.got + [f.store[Cursor(f) + |f.call.got|]]))
    case Done => f.(call := Idle)
    case Write(fd, bytes) => if CanWrite(f, fd) then f.(call := Writing(fd, bytes, 0)) else f
    case Put => f.(store := f.store[Cursor(f) + f.call.k := f.call.bytes[f.call.k]], call := f.call.(k := f.call.k + 1))
    case Grow =>
      var d, end := f.fds[f.call.fd], Cursor(f) + f.call.k;
      f.(size := if end > f.size then end else f.size, fds := f.fds[f.call.fd := d.(due := f.call.k)], call := Idle)
    case Advance(fd) =>
      var d := f.fds[fd];
      f.(fds := f.fds[fd := d.(pos := d.pos + d.due, due := 0)])
    case Seek(fd, off, whence) =>
      if fd in f.fds then f.(fds := f.fds[fd := f.fds[fd].(pos := Target(f, f.fds[fd], off, whence))]) else f
    case Close(fd) => Closed1(f, fd)
    case Exit(fd) => Closed1(f, fd)
    case Load(accepts) => Loading(f, accepts)
  }

  lemma StepKeeps(f: File, op: Op)
    requires Sized(f) && Legal(f, op)
    ensures Sized(Step(f, op))
  {
    hide Trim, Wanted;
  }

  // ---------- whole calls, when nothing comes between ----------

  function OpenCall(f: File, fd: Fd, flags: Flags): (File, Result) {
    if Refused(f) then (f, Busy)
    else (FsOpen(f, OpenFlags(f, flags)).(fds := f.fds[fd := Desc(flags, 0, 0)]), Opened)
  }

  function ReadCall(f: File, fd: Fd, n: nat): (File, Result)
    requires |f.store| == CAPACITY
  {
    if fd !in f.fds || !f.fds[fd].flags.read then (f, BadFd)
    else if !CanRead(f, fd) then (f, Got([]))
    else
      var d := f.fds[fd];
      var k := Wanted(f.size, d.pos, n);
      if d.pos + k > CAPACITY then (f, Wild)
      else (f.(fds := f.fds[fd := d.(pos := d.pos + k)]), Got(f.store[d.pos..d.pos + k]))
  }

  function WriteCall(f: File, fd: Fd, bytes: Bytes): (File, Result)
    requires Sized(f)
  {
    if fd !in f.fds || !f.fds[fd].flags.write then (f, BadFd)
    else if !CanWrite(f, fd) then (f, Wrote(0))
    else
      var d := f.fds[fd];
      var k := Accepted(d.pos, |bytes|);
      (f.(store := Splice(f.store, d.pos, bytes[..k]), size := if d.pos + k > f.size then d.pos + k else f.size,
          fds := f.fds[fd := d.(pos := d.pos + k)]), Wrote(k))
  }

  function SeekCall(f: File, fd: Fd, off: int, whence: Whence): (File, Result)
  {
    if fd !in f.fds then (f, BadFd)
    else
      var to := Target(f, f.fds[fd], off, whence);
      (f.(fds := f.fds[fd := f.fds[fd].(pos := to)]), At(to))
  }

  function CloseCall(f: File, fd: Fd): (File, Result) { (Closed1(f, fd), if fd in f.fds then Closed else BadFd) }

  function LoadCall(f: File, accepts: bool): (File, Result) { (Loading(f, accepts), Loaded(LoadSucceeds(f, accepts))) }

  function Zeros(n: nat): (r: Bytes)
    ensures |r| == n
  {
    seq(n, i => 0)
  }

  /** ramfs_create. */
  const NEW: File := File(Zeros(CAPACITY), 0, 0, Flags(false, false, false), map[], 0, Idle)
}
