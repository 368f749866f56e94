/**
 * kernel/vfs/ramfs.c, the descriptor calls of kernel/task.c and the program loader's use of a
 * node in place: a file of up to 64 blocks, allocated as they are written to and freed on close.
 * `Node` is proved to behave as the flat file of RamFileSpec, whose theorems hold of it: call by
 * call when nothing comes between, and event by event in any run.
 */
module RamFiles {
  import opened Util
  import S = RamFileSpec
  import Q = RamFileRuns

  const BLOCK: nat := S.BLOCK
  const MAX_BLOCKS: nat := 64

  class RamFile {
    const blocks: array<array?<Byte>>
    var size: nat
    var len: nat                  // the node's copy of the size
    ghost var held: set<array<Byte>>
    ghost var store: Bytes        // every byte a block holds, whether or not it is in the file

    ghost predicate Valid()
      reads this, blocks, held
    {
      && blocks.Length == MAX_BLOCKS && |store| == S.CAPACITY && len == size
      && (forall i :: 0 <= i < MAX_BLOCKS && blocks[i] != null ==> blocks[i] in held && blocks[i].Length == BLOCK)
      && (forall i, j :: 0 <= i < j < MAX_BLOCKS && blocks[i] != null ==> blocks[i] != blocks[j])
      && (forall b :: b in held ==> (b as object) != blocks)
      && (forall p :: 0 <= p < S.CAPACITY ==> store[p] == ByteAt(p))
    }

    ghost function ByteAt(p: nat): Byte
      requires p < S.CAPACITY && blocks.Length == MAX_BLOCKS
      requires forall i :: 0 <= i < MAX_BLOCKS && blocks[i] != null ==> blocks[i] in held && blocks[i].Length == BLOCK
      reads this, blocks, held
    {
      if blocks[p / BLOCK] == null then 0 else blocks[p / BLOCK][p % BLOCK]
    }

    /** ramfs_create: no blocks, size 0. */
    constructor ()
      ensures Valid() && fresh(blocks) && held == {} && store == S.Zeros(S.CAPACITY) && size == 0
    {
      blocks := new array?<Byte>[MAX_BLOCKS](i => null);
      size, len, held := 0, 0, {};
      store := S.Zeros(S.CAPACITY);
    }

    /** ramfs_open. */
    method Open(trunc: bool)
      requires Valid()
      modifies this`size, this`len
      ensures Valid() && size == if trunc then 0 else old(size)
    {
      if trunc { size, len := 0, 0; }
    }

    method Get(p: nat) returns (v: Byte)
      requires Valid() && p < S.CAPACITY
      ensures |store| == S.CAPACITY && v == store[p]
    {
      assert store[p] == ByteAt(p);
      v := if blocks[p / BLOCK] == null then 0 else blocks[p / BLOCK][p % BLOCK];
    }

    lemma Sizes()
      requires Valid()
      ensures |store| == S.CAPACITY && len == size
    {
    }

    /** ramfs_read. For an offset past the end the subtraction wraps around; a read that would
        then pass the table of blocks is wild, and nothing is said about it. */
    method Read(offset: nat, size: nat) returns (wild: bool, buffer: array<Byte>)
      requires Valid()
      ensures Valid() && fresh(buffer)
      ensures wild <==> offset + S.Wanted(this.size, offset, size) > S.CAPACITY
      ensures !wild ==> buffer[..] == store[offset..offset + S.Wanted(this.size, offset, size)]
    {
      hide Valid;
      Sizes();
      var left := (this.size - offset) % S.WORD;
      var n := if size > left then left else size;
      buffer := new Byte[n];
      wild := offset + n > S.CAPACITY;
      if wild { return; }
      var count := 0;
      while count < n
        invariant count <= n && Valid()
        invariant forall k :: 0 <= k < count ==> buffer[k] == store[offset + k]
        modifies buffer
      {
        var v := Get(offset + count);
        buffer[count] := v;
        count := count + 1;
      }
    }

    /** The block that holds `position`, cleared when it is new. */
    method Need(block: nat)
      requires Valid() && block < MAX_BLOCKS
      modifies this`held, blocks
      ensures Valid() && blocks[block] != null && blocks[block] in held && fresh(held - old(held)) && old(held) <= held
    {
      if blocks[block] == null {
        var b := new Byte[BLOCK](i => 0);
        blocks[block] := b;
        held := held + {b};
      }
    }

    method Put(p: nat, v: Byte)
      requires Valid() && p < S.CAPACITY
      modifies this`held, this`store, blocks, held
      ensures Valid() && store == old(store)[p := v] && fresh(held - old(held)) && old(held) <= held
    {
      Need(p / BLOCK);
      blocks[p / BLOCK][p % BLOCK] := v;
      store := store[p := v];
    }

    method Grow(n: nat)
      requires Valid()
      modifies this`size, this`len
      ensures Valid() && size == n
    {
      size := n;
      len := n;
    }

    /** ramfs_write: stops at the last block. At an offset past it nothing is stored, and the size
        follows all the same. */
    method Write(offset: nat, buffer: seq<Byte>) returns (count: nat)
      requires Valid()
      modifies this, blocks, held
      ensures Valid() && count == S.Accepted(offset, |buffer|) && fresh(held - old(held))
      ensures |old(store)| == S.CAPACITY && store == S.Splice(old(store), offset, buffer[..count])
      ensures size == if offset + count > old(size) then offset + count else old(size)
    {
      hide Valid;
      Sizes();
      count := 0;
      while count < |buffer|
        invariant count <= |buffer| && (count == 0 || offset + count <= S.CAPACITY) && Valid()
        invariant size == old(size) && fresh(held - old(held)) && old(held) <= held && |store| == S.CAPACITY
        invariant forall p :: 0 <= p < S.CAPACITY ==>
                    store[p] == if offset <= p < offset + count then buffer[p - offset] else old(store)[p]
      {
        if (offset + count) / BLOCK >= MAX_BLOCKS { break; }
        Put(offset + count, buffer[count]);
        count := count + 1;
      }
      if offset + count > size { Grow(offset + count); }
      Sizes();
      assert store == S.Splice(old(store), offset, buffer[..count]);
    }

    /** ramfs_close: blocks wholly past the end are given back. */
    method Close()
      requires Valid()
      modifies this`store, blocks
      ensures Valid() && store == S.Trim(old(store), size)
    {
      var first := (size + BLOCK - 1) / BLOCK;
      var i := first;
      while i < MAX_BLOCKS
        invariant first <= i && (i == first || i <= MAX_BLOCKS) && Valid()
        invariant forall p :: 0 <= p < S.CAPACITY ==>
                store[p] == if BLOCK * first <= p < BLOCK * i then 0 else old(store)[p]
      {
        ghost var was := store;
        blocks[i] := null;
        store := seq(S.CAPACITY, p requires 0 <= p < S.CAPACITY => if p / BLOCK == i then 0 else was[p]);
        i := i + 1;
      }
      assert first * BLOCK == S.Keep(size) && |store| == S.CAPACITY == |old(store)|;
      forall p | 0 <= p < S.CAPACITY ensures store[p] == if p < S.Keep(size) then old(store)[p] else 0 {}
      assert store == S.Trim(old(store), size);
    }
  }

  /** The node of a file with its descriptors: fs_open, fs_close and the calls of task.c. */
  class Node {
    const file: RamFile
    var refcnt: nat
    var oflags: S.Flags
    var fds: map<S.Fd, S.Desc>
    var call: S.Call          // what the task that holds the node is in the middle of
    ghost var stuck: nat

    ghost predicate Valid()
      reads this, file, file.blocks, file.held
    {
      && file.Valid() && S.Sized(View())
    }

    ghost function View(): S.File
      reads this, file
    {
      S.File(file.store, file.size, refcnt, oflags, fds, stuck, call)
    }

    constructor ()
      ensures Valid() && View() == S.NEW && fresh(file) && fresh(file.blocks) && fresh(file.held)
    {
      file := new RamFile();
      refcnt, oflags, fds, call, stuck := 0, S.Flags(false, false, false), map[], S.Idle, 0;
    }

    /** No call is under way on the node, or on any descriptor of this task. */
    ghost predicate Ready(task: nat)
      reads this, file
    {
      call.Idle? && S.Free(View(), task)
    }

    lemma Cursors()
      requires Valid()
      ensures |file.store| == S.CAPACITY && file.size <= S.CAPACITY && file.len == file.size
      ensures forall d :: d in fds ==> fds[d].pos + fds[d].due <= S.CAPACITY
    {
      assert View().fds == fds;
    }

    /** fs_open: a node that is open with other flags is left alone. */
    method FsOpen(o: S.Flags)
      requires file.Valid()
      modifies this`refcnt, this`oflags, file`size, file`len
      ensures file.Valid() && View() == S.FsOpen(old(View()), o)
    {
      if refcnt > 0 && oflags != o { return; }
      file.Open(o.trunc);
      oflags := o;
      refcnt := refcnt + 1;
    }

    /** fs_close. */
    method FsClose()
      requires file.Valid()
      modifies this`refcnt, file`store, file.blocks
      ensures file.Valid() && View() == S.FsClose(old(View()))
    {
      if refcnt == 0 { return; }
      file.Close();
      refcnt := refcnt - 1;
    }

    /** The comparison of flags in task_fs_open. */
    method Refused() returns (b: bool)
      ensures b <==> S.Refused(View())
    {
      b := false;
      if refcnt > 0 {
        if !(oflags.read && oflags.write) {
          if oflags.read { b := true; }
          if oflags.write { b := true; }
        }
        if oflags.trunc { b := true; }
      }
    }

    // ---------- whole calls, when nothing comes between ----------

    /** task_fs_open of a file that exists and may be opened. */
    method Open(fd: S.Fd, flags: S.Flags) returns (r: S.Result)
      requires Valid() && Ready(fd.task) && fd !in fds
      modifies this`refcnt, this`oflags, this`fds, file`size, file`len
      ensures Valid() && (View(), r) == S.OpenCall(old(View()), fd, flags)
    {
      var refused := Refused();
      if refused { return S.Busy; }
      FsOpen(if refcnt > 0 then oflags else flags);
      fds := fds[fd := S.Desc(flags, 0, 0)];
      r := S.Opened;
    }

    /** task_fs_read. */
    method Read(fd: S.Fd, cnt: nat) returns (r: S.Result)
      requires Valid() && Ready(fd.task)
      modifies this`fds
      ensures Valid() && (View(), r) == S.ReadCall(old(View()), fd, cnt)
    {
      Cursors();
      if fd !in fds || !fds[fd].flags.read { return S.BadFd; }
      if refcnt == 0 || !oflags.read { return S.Got([]); }
      var wild, b := file.Read(fds[fd].pos, cnt);
      if wild { return S.Wild; }
      fds := fds[fd := fds[fd].(pos := fds[fd].pos + b.Length)];
      r := S.Got(b[..]);
    }

    /** task_fs_write. */
    method Write(fd: S.Fd, buf: seq<Byte>) returns (r: S.Result)
      requires Valid() && Ready(fd.task)
      modifies this`fds, file, file.blocks, file.held
      ensures Valid() && (View(), r) == S.WriteCall(old(View()), fd, buf) && fresh(file.held - old(file.held))
    {
      Cursors();
      if fd !in fds || !fds[fd].flags.write { return S.BadFd; }
      if refcnt == 0 || !oflags.write { return S.Wrote(0); }
      var n := file.Write(fds[fd].pos, buf);
      fds := fds[fd := fds[fd].(pos := fds[fd].pos + n)];
      r := S.Wrote(n);
    }

    /** task_fs_seek. */
    method Seek(fd: S.Fd, off: int, whence: S.Whence) returns (r: S.Result)
      requires Valid() && S.Free(View(), fd.task)
      modifies this`fds
      ensures Valid() && (View(), r) == S.SeekCall(old(View()), fd, off, whence)
    {
      Cursors();
      if fd !in fds { return S.BadFd; }
      var pos := match whence case Set => off case Cur => fds[fd].pos + off case End => file.len - off;
      var to := if pos < 0 then 0 else if pos > file.len then file.len else pos;
      fds := fds[fd := fds[fd].(pos := to)];
      r := S.At(to);
    }

    /** task_fs_close: with the lock held, as in task_free, it does not wait for the node. */
    method Close(fd: S.Fd) returns (r: S.Result)
      requires Valid() && S.Free(View(), fd.task)
      modifies this`refcnt, this`fds, file`store, file.blocks
      ensures Valid() && (View(), r) == S.CloseCall(old(View()), fd)
    {
      ClosedKeeps(fd);
      if fd !in fds { return S.BadFd; }
      FsClose();
      fds := fds - {fd};
      r := S.Closed;
    }

    lemma ClosedKeeps(fd: S.Fd)
      requires Valid() && S.Free(View(), fd.task)
      ensures S.Sized(S.Closed1(View(), fd))
    {
      assert S.Step(View(), S.Exit(fd)) == S.Closed1(View(), fd);
      S.StepKeeps(View(), S.Exit(fd));
    }

    /** What load_entry does with its node: the failing paths leave it open. `accepts` says that
        the header and all that follows are in order. */
    method Load(accepts: bool) returns (r: S.Result)
      requires Valid()
      modifies this`refcnt, this`oflags, this`stuck, file`size, file`len, file`store, file.blocks
      ensures Valid() && (View(), r) == S.LoadCall(old(View()), accepts)
    {
      S.StepKeeps(View(), S.Load(accepts));
      Cursors();
      if refcnt > 0 && !oflags.read { return S.Loaded(false); }
      if refcnt > 0 { FsOpen(oflags); } else { FsOpen(S.READ); }
      var wild, ehdr := file.Read(0, S.EHDR);
      FirstBytes(file.size, S.EHDR);
      if wild || ehdr.Length != S.EHDR || !accepts {
        stuck := stuck + 1;
        return S.Loaded(false);
      }
      FsClose();
      r := S.Loaded(true);
    }

    static lemma FirstBytes(size: nat, n: nat)
      requires size <= S.CAPACITY
      ensures S.Wanted(size, 0, n) == Min(n, size)
    {
    }

    // ---------- event by event ----------

    /** One event of whoever's turn it is. */
    method Do(op: S.Op)
      requires Valid() && S.Legal(View(), op)
      modifies this, file, file.blocks, file.held
      ensures Valid() && View() == S.Step(old(View()), op) && fresh(file.held - old(file.held))
    {
      hide S.Sized, S.Legal, S.Step, RamFile.Valid;
      S.StepKeeps(View(), op);
      if op.Check? || op.Commit? || op.Close? || op.Exit? || op.Load? || op.Seek? { DoNode(op); } else { DoBytes(op); }
    }

    method DoNode(op: S.Op)
      requires Valid() && S.Legal(View(), op)
      requires op.Check? || op.Commit? || op.Close? || op.Exit? || op.Load? || op.Seek?
      modifies this, file`size, file`len, file`store, file.blocks
      ensures file.Valid() && View() == S.Step(old(View()), op)
    {
      match op
      case Check(fd, flags) =>
        var refused := Refused();
        if !refused { call := S.Opening(fd, flags, if refcnt > 0 then oflags else flags); }
      case Commit =>
        FsOpen(call.with);
        fds := fds[call.fd := S.Desc(call.flags, 0, 0)];
        call := S.Idle;
      case Seek(fd, off, whence) => var _ := Seek(fd, off, whence);
      case Close(fd) => var _ := Close(fd);
      case Exit(fd) => var _ := Close(fd);
      case Load(accepts) => var _ := Load(accepts);
    }

    /** The turns of the two loops, and what is around them. */
    method DoBytes(op: S.Op)
      requires Valid() && S.Legal(View(), op)
      requires op.Read? || op.Get? || op.Done? || op.Write? || op.Put? || op.Grow? || op.Advance?
      modifies this`fds, this`call, file, file.blocks, file.held
      ensures file.Valid() && View() == S.Step(old(View()), op) && fresh(file.held - old(file.held))
    {
      hide RamFile.Valid;
      Cursors();
      match op
      case Read(fd, n) =>
        if fd in fds && fds[fd].flags.read && refcnt > 0 && oflags.read {
          var left := (file.size - fds[fd].pos) % S.WORD;
          var k := if n > left then left else n;
          if fds[fd].pos + k <= S.CAPACITY {
            fds, call := fds[fd := fds[fd].(due := k)], S.Reading(fd, k, []);
          }
        }
      case Get =>
        var v := file.Get(fds[call.fd].pos + |call.got|);
        call := call.(got := call.got + [v]);
      case Done => call := S.Idle;
      case Write(fd, bytes) =>
        if fd in fds && fds[fd].flags.write && refcnt > 0 && oflags.write { call := S.Writing(fd, bytes, 0); }
      case Put =>
        file.Put(fds[call.fd].pos + call.k, call.bytes[call.k]);
        call := call.(k := call.k + 1);
      case Grow =>
        var end := fds[call.fd].pos + call.k;
        if end > file.size { file.Grow(end); }
        fds, call := fds[call.fd := fds[call.fd].(due := call.k)], S.Idle;
      case Advance(fd) => fds := fds[fd := fds[fd].(pos := fds[fd].pos + fds[fd].due, due := 0)];
    }

    /** Any run, in place: with closes at exit and loads between the bytes of a call. */
    method Play(ops: seq<S.Op>)
      requires Valid() && Q.Runs(View(), ops)
      modifies this, file, file.blocks, file.held
      ensures Valid() && View() == Q.Run(old(View()), ops) && fresh(file.held - old(file.held))
    {
      hide S.Sized, S.Legal, S.Step, RamFile.Valid;
      var i := 0;
      assert ops[0..] == ops;
      while i < |ops|
        invariant i <= |ops| && Valid() && fresh(file.held - old(file.held))
        invariant Q.Runs(View(), ops[i..]) && Q.Run(View(), ops[i..]) == Q.Run(old(View()), ops)
      {
        Next(View(), ops, i);
        Do(ops[i]);
        i := i + 1;
      }
      assert ops[i..] == [];
    }

    static lemma Next(f: S.File, ops: seq<S.Op>, i: nat)
      requires S.Sized(f) && i < |ops| && Q.Runs(f, ops[i..])
      ensures S.Legal(f, ops[i]) && S.Sized(S.Step(f, ops[i])) && Q.Runs(S.Step(f, ops[i]), ops[i+1..])
      ensures Q.Run(f, ops[i..]) == Q.Run(S.Step(f, ops[i]), ops[i+1..])
    {
      hide S.Sized, S.Legal, S.Step;
      assert ops[i..][0] == ops[i] && ops[i..][1..] == ops[i+1..];
      S.StepKeeps(f, ops[i]);
    }
  }
}
