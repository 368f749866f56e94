/** Runs of a ramfs file's events, by any number of tasks, with closes at exit and loads anywhere. */
module RamFileRuns {
  import opened Util
  import opened RamFileSpec

  // ---------- runs ----------

  ghost predicate Runs(f: File, ops: seq<Op>)
    requires Sized(f)
    decreases |ops|
  {
    ops == [] || (Legal(f, ops[0]) && (StepKeeps(f, ops[0]); Runs(Step(f, ops[0]), ops[1..])))
  }

  ghost function Run(f: File, ops: seq<Op>): (r: File)
    requires Sized(f) && Runs(f, ops)
    ensures Sized(r)
    decreases |ops|
  {
    if ops == [] then f else StepKeeps(f, ops[0]); Run(Step(f, ops[0]), ops[1..])
  }

  // ---------- what disturbs a call ----------

  /** The loader truncates the file under a cursor that is, or is about to be, past the start. */
  ghost predicate Hit(f: File, op: Op) {
    op.Load? && LoadTruncates(f) && exists d :: d in f.fds && f.fds[d].pos + f.fds[d].due > 0
  }

  /** fs_open finds the node open with flags other than those that task_fs_open has settled on. */
  predicate Miss(f: File, op: Op) { op.Commit? && f.call.Opening? && f.refcnt > 0 && f.oflags != f.call.with }

  /** A close that waits for nobody, or a load, gives blocks back. */
  predicate Trims(f: File, op: Op) {
    (op.Exit? && op.fd in f.fds && f.refcnt > 0) || (op.Load? && LoadSucceeds(f, op.accepts))
  }

  /** And an unfinished write has stored something in them. */
  ghost predicate Cut(f: File, op: Op)
    requires Sized(f)
  {
    Trims(f, op) && f.call.Writing?
    && exists i :: 0 <= i < f.call.k && Cursor(f) + i >= Keep(f.size) && f.call.bytes[i] != 0
  }

  ghost predicate Disturbs(f: File, op: Op)
    requires Sized(f)
  {
    Hit(f, op) || Miss(f, op) || Cut(f, op)
  }

  ghost predicate Undisturbed(f: File, ops: seq<Op>)
    requires Sized(f) && Runs(f, ops)
    decreases |ops|
  {
    ops == [] || (!Disturbs(f, ops[0]) && (StepKeeps(f, ops[0]); Undisturbed(Step(f, ops[0]), ops[1..])))
  }

  // ---------- what is promised ----------

  /** The node counts its descriptors and the loads that failed. */
  ghost predicate Counted(f: File) { f.refcnt == |f.fds| + f.stuck }

  /** No cursor is past the end, what is due to it included. */
  ghost predicate Within(f: File) { forall d :: d in f.fds ==> f.fds[d].pos + f.fds[d].due <= f.size }

  /** Each position's last written byte since the last truncation, by the events alone. A write
      in progress counts as after the truncation: its size is set later. */
  ghost function Noted(f: File, op: Op, w: map<nat, Byte>): map<nat, Byte>
    requires Sized(f) && Legal(f, op)
  {
    match op
    case Commit => if f.call.with.trunc && !Miss(f, op) then map[] else w
    case Put => w[Cursor(f) + f.call.k := f.call.bytes[f.call.k]]
    case Load(_) =>
      if !LoadTruncates(f) then w
      else if f.call.Writing? then Note(map[], Cursor(f), f.call.bytes[..f.call.k])
      else map[]
    case _ => w
  }

  function Note(w: map<nat, Byte>, pos: nat, bytes: Bytes): (r: map<nat, Byte>)
    ensures forall p :: p in r <==> p in w || pos <= p < pos + |bytes|
    ensures forall p :: p in r ==> r[p] == if pos <= p < pos + |bytes| then bytes[p - pos] else w[p]
    decreases |bytes|
  {
    if bytes == [] then w else Note(w[pos := bytes[0]], pos + 1, bytes[1..])
  }

  ghost predicate AllWritten(data: Bytes, w: map<nat, Byte>) {
    forall i :: 0 <= i < |data| ==> i in w && w[i] == data[i]
  }

  /** A read in progress has returned content. */
  ghost predicate ReadOk(f: File)
    requires Sized(f)
  {
    f.call.Reading? ==>
      var pos := Cursor(f);
      pos + |f.call.got| <= f.size && f.call.got == Data(f)[pos..pos + |f.call.got|]
  }

  /** Every readable byte is the last one written there since the last truncation, reads return
      nothing else, no cursor is past the end, and the node counts its openers. */
  ghost predicate Sound(f: File, w: map<nat, Byte>)
    requires Sized(f)
  {
    Counted(f) && Within(f) && AllWritten(Data(f), w) && ReadOk(f)
  }

  ghost predicate AlwaysSound(f: File, ops: seq<Op>, w: map<nat, Byte>)
    requires Sized(f) && Runs(f, ops)
    decreases |ops|
  {
    Sound(f, w)
    && (ops == [] || (StepKeeps(f, ops[0]); AlwaysSound(Step(f, ops[0]), ops[1..], Noted(f, ops[0], w))))
  }

  /** The bytes that a write in progress has stored are still there, and noted. */
  ghost predicate Intact(f: File, w: map<nat, Byte>)
    requires Sized(f)
  {
    f.call.Writing? ==>
      forall i :: 0 <= i < f.call.k ==> StoredAt(f, w, i)
  }

  predicate StoredAt(f: File, w: map<nat, Byte>, i: nat)
    requires |f.store| == CAPACITY && f.call.Writing? && f.call.fd in f.fds && i < |f.call.bytes|
  {
    var p := Cursor(f) + i;
    p < CAPACITY && f.store[p] == f.call.bytes[i] && p in w && w[p] == f.call.bytes[i]
  }

  // ---------- one event ----------

  lemma Count<K, V>(m: map<K, V>, k: K, v: V)
    ensures |m[k := v]| == (if k in m then |m| else |m| + 1)
    ensures |m - {k}| == (if k in m then |m| - 1 else |m|)
  {
    assert m[k := v].Keys == m.Keys + {k};
    assert (m - {k}).Keys == m.Keys - {k};
    if k in m { assert m.Keys + {k} == m.Keys; } else { assert m.Keys - {k} == m.Keys; }
  }

  lemma NoFds(f: File)
    requires Counted(f) && f.refcnt == 0
    ensures f.fds == map[] && f.stuck == 0
  {
  }

  lemma SameCount<K, V>(a: map<K, V>, b: map<K, V>)
    requires a.Keys == b.Keys
    ensures |a| == |b|
  {
    assert |a| == |a.Keys| && |b| == |b.Keys|;
  }

  lemma StepKeys(f: File, op: Op)
    requires Sized(f) && Legal(f, op) && !op.Commit? && !op.Close? && !op.Exit? && !op.Load?
    ensures var r := Step(f, op);
      && r.fds.Keys == f.fds.Keys && r.refcnt == f.refcnt && r.stuck == f.stuck && r.oflags == f.oflags
      && (r.call.Opening? ==> f.call.Opening? || (op.Check? && !Refused(f)))
  {
    hide Wanted, Target;
  }

  lemma CommitCounted(f: File)
    requires Sized(f) && Legal(f, Commit) && Counted(f)
    ensures Counted(Step(f, Commit)) <==> !Miss(f, Commit)
  {
    Count(f.fds, f.call.fd, Desc(f.call.flags, 0, 0));
  }

  lemma ClosedCounted(f: File, op: Op)
    requires Sized(f) && Legal(f, op) && Counted(f) && (op.Close? || op.Exit?)
    ensures Counted(Step(f, op))
  {
    hide Trim, Sized, Legal;
    if op.fd in f.fds { Count(f.fds, op.fd, f.fds[op.fd]); }
  }

  lemma LoadCounted(f: File, accepts: bool)
    requires Sized(f) && Counted(f)
    ensures Counted(Step(f, Load(accepts)))
  {
    hide Trim, Sized;
  }

  /** The count is lost exactly by an open that fs_open ignores. */
  lemma StepCounted(f: File, op: Op)
    requires Sized(f) && Legal(f, op) && Counted(f)
    ensures Counted(Step(f, op)) <==> !Miss(f, op)
  {
    hide Step, Sized;
    if op.Commit? {
      CommitCounted(f);
    } else if op.Close? || op.Exit? {
      ClosedCounted(f, op);
    } else if op.Load? {
      LoadCounted(f, op.accepts);
    } else {
      StepKeys(f, op);
      SameCount(f.fds, Step(f, op).fds);
    }
  }

  /** A cursor passes the end exactly when the loader truncates the file under one. */
  lemma StepWithin(f: File, op: Op)
    requires Sized(f) && Legal(f, op) && Counted(f) && Within(f)
    ensures Within(Step(f, op)) <==> !Hit(f, op)
  {
    hide Trim, Keep;
    if f.refcnt == 0 { NoFds(f); }
  }

  lemma TrimAt(store: Bytes, size: nat, i: nat)
    requires i < |store|
    ensures Trim(store, size)[i] == if i < Keep(size) then store[i] else 0
  {
  }

  lemma KeepsContent(store: Bytes, size: nat)
    requires size <= |store|
    ensures size <= Keep(size) && Trim(store, size)[..size] == store[..size]
  {
    KeepFacts(size);
  }

  lemma KeepFacts(size: nat)
    ensures size <= Keep(size)
  {
  }

  /** A call or a load leaves the rest of the descriptors alone. */
  lemma OthersStay(f: File, op: Op)
    requires Sized(f) && Legal(f, op) && (f.call.Reading? || f.call.Writing?) && (op.Seek? || op.Advance? || op.Exit?)
    ensures var r := Step(f, op);
      r.call == f.call && f.call.fd in r.fds && r.fds[f.call.fd] == f.fds[f.call.fd] && r.size == f.size
  {
    hide Trim, Target;
  }

  /** The content stays what was last written, as long as no cursor passes the end. */
  lemma StepWritten(f: File, op: Op, w: map<nat, Byte>)
    requires Sized(f) && Legal(f, op) && Within(f) && AllWritten(Data(f), w) && Intact(f, w)
    ensures Sized(Step(f, op)) && AllWritten(Data(Step(f, op)), Noted(f, op, w))
  {
    hide Trim, Keep, Wanted, Target;
    StepKeeps(f, op);
    KeepsContent(f.store, f.size);
    if op.Put? { PutWritten(f, w); }
    else if op.Grow? { GrowWritten(f, w); }
  }

  lemma PutWritten(f: File, w: map<nat, Byte>)
    requires Sized(f) && Legal(f, Put) && AllWritten(Data(f), w)
    ensures Sized(Step(f, Put)) && AllWritten(Data(Step(f, Put)), Noted(f, Put, w))
  {
    StepKeeps(f, Put);
    var r := Step(f, Put);
    forall i | 0 <= i < |Data(r)| ensures i in Noted(f, Put, w) && Noted(f, Put, w)[i] == Data(r)[i] {
      assert Data(f)[i] == f.store[i] && Data(r)[i] == r.store[i];
    }
  }

  lemma GrowWritten(f: File, w: map<nat, Byte>)
    requires Sized(f) && Legal(f, Grow) && Within(f) && AllWritten(Data(f), w) && Intact(f, w)
    ensures Sized(Step(f, Grow)) && AllWritten(Data(Step(f, Grow)), w)
  {
    StepKeeps(f, Grow);
    var r := Step(f, Grow);
    forall i | 0 <= i < |Data(r)| ensures i in w && w[i] == Data(r)[i] {
      assert Data(r)[i] == f.store[i];
      if i < f.size { assert Data(f)[i] == f.store[i]; }
      else { assert StoredAt(f, w, i - Cursor(f)); }
    }
  }

  /** What an unfinished write has stored goes exactly when a trim cuts it. */
  lemma StepIntact(f: File, op: Op, w: map<nat, Byte>)
    requires Sized(f) && Legal(f, op) && Intact(f, w)
    ensures Sized(Step(f, op)) && (Intact(Step(f, op), Noted(f, op, w)) <==> !Cut(f, op))
    ensures Cut(f, op) ==> Broken(Step(f, op), Noted(f, op, w))
  {
    hide Trim, Keep, Wanted, Target, Cut, Intact, Broken;
    StepKeeps(f, op);
    if f.call.Writing? {
      if op.Put? { PutIntact(f, w); }
      else if Trims(f, op) { TrimIntact(f, op, w); }
      else if op.Load? { LoadIntact(f, op.accepts, w); }
      else { OtherIntact(f, op, w); }
    } else {
      NotWriting(f, op, w);
    }
  }

  /** A byte of an unfinished write has been lost. */
  ghost predicate Broken(f: File, w: map<nat, Byte>)
    requires Sized(f)
  {
    f.call.Writing? && exists i :: 0 <= i < f.call.k && LostAt(f, w, i)
  }

  predicate LostAt(f: File, w: map<nat, Byte>, i: nat)
    requires |f.store| == CAPACITY && f.call.Writing? && f.call.fd in f.fds && i < |f.call.bytes|
  {
    var p := Cursor(f) + i;
    p < CAPACITY && f.store[p] == 0 && f.call.bytes[i] != 0 && p in w && w[p] == f.call.bytes[i]
  }

  lemma NotWriting(f: File, op: Op, w: map<nat, Byte>)
    requires Sized(f) && Legal(f, op) && !f.call.Writing?
    ensures Sized(Step(f, op)) && Intact(Step(f, op), Noted(f, op, w)) && !Cut(f, op)
  {
    hide Trim, Keep, Wanted, Target;
    StepKeeps(f, op);
  }

  lemma PutIntact(f: File, w: map<nat, Byte>)
    requires Sized(f) && Legal(f, Put) && Intact(f, w)
    ensures Sized(Step(f, Put)) && Intact(Step(f, Put), Noted(f, Put, w)) && !Cut(f, Put)
  {
    StepKeeps(f, Put);
    var r, v := Step(f, Put), Noted(f, Put, w);
    forall i | 0 <= i < r.call.k ensures StoredAt(r, v, i) {
      if i < f.call.k { assert StoredAt(f, w, i); }
    }
  }

  lemma TrimIntact(f: File, op: Op, w: map<nat, Byte>)
    requires Sized(f) && Legal(f, op) && Intact(f, w) && f.call.Writing? && Trims(f, op)
    ensures Sized(Step(f, op)) && (Intact(Step(f, op), Noted(f, op, w)) <==> !Cut(f, op))
    ensures Cut(f, op) ==> Broken(Step(f, op), Noted(f, op, w))
  {
    hide Trim, Keep;
    StepKeeps(f, op);
    var r := Step(f, op);
    TrimStep(f, op);
    assert Noted(f, op, w) == w;
    forall i | 0 <= i < f.call.k
      ensures StoredAt(r, w, i) <==> Cursor(f) + i < Keep(f.size) || f.call.bytes[i] == 0
      ensures !StoredAt(r, w, i) ==> LostAt(r, w, i)
    {
      assert StoredAt(f, w, i);
      TrimAt(f.store, f.size, Cursor(f) + i);
    }
    if Cut(f, op) {
      var i :| 0 <= i < f.call.k && Cursor(f) + i >= Keep(f.size) && f.call.bytes[i] != 0;
      assert !StoredAt(r, w, i) && LostAt(r, w, i);
    }
  }

  lemma TrimStep(f: File, op: Op)
    requires Sized(f) && Legal(f, op) && f.call.Writing? && Trims(f, op)
    ensures var r := Step(f, op);
      && r.store == Trim(f.store, f.size) && r.size == f.size && r.call == f.call
      && f.call.fd in r.fds && r.fds[f.call.fd] == f.fds[f.call.fd]
  {
    hide Trim;
  }

  lemma LoadIntact(f: File, accepts: bool, w: map<nat, Byte>)
    requires Sized(f) && Intact(f, w) && f.call.Writing? && !Trims(f, Load(accepts))
    ensures var op := Load(accepts);
      Sized(Step(f, op)) && Intact(Step(f, op), Noted(f, op, w)) && !Cut(f, op)
  {
    hide Trim;
    var op := Load(accepts);
    StepKeeps(f, op);
    var r, v := Step(f, op), Noted(f, op, w);
    assert r.store == f.store && r.call == f.call && r.fds == f.fds;
    forall i | 0 <= i < f.call.k ensures StoredAt(r, v, i) {
      assert StoredAt(f, w, i);
    }
  }

  lemma OtherIntact(f: File, op: Op, w: map<nat, Byte>)
    requires Sized(f) && Legal(f, op) && Intact(f, w) && f.call.Writing? && !Trims(f, op) && !op.Put? && !op.Load?
    ensures Sized(Step(f, op)) && Intact(Step(f, op), Noted(f, op, w)) && !Cut(f, op)
  {
    hide Trim, Target;
    StepKeeps(f, op);
    if !op.Grow? {
      OthersStay(f, op);
      var r := Step(f, op);
      assert r.store == f.store;
      forall i | 0 <= i < f.call.k ensures StoredAt(r, w, i) {
        assert StoredAt(f, w, i);
      }
    }
  }

  /** A read in progress goes on returning content, as long as no cursor passes the end. */
  lemma StepReads(f: File, op: Op)
    requires Sized(f) && Legal(f, op) && Within(f) && ReadOk(f) && !Hit(f, op)
    ensures Sized(Step(f, op)) && ReadOk(Step(f, op))
  {
    hide Trim, Keep, Wanted, Target;
    StepKeeps(f, op);
    KeepsContent(f.store, f.size);
    if f.call.Reading? {
      if op.Get? { GetReads(f); }
      else if op.Load? { LoadReads(f, op.accepts); }
      else if !op.Done? { OthersStay(f, op); }
    }
  }

  lemma GetReads(f: File)
    requires Sized(f) && Legal(f, Get) && Within(f) && ReadOk(f)
    ensures Sized(Step(f, Get)) && ReadOk(Step(f, Get))
  {
    StepKeeps(f, Get);
    var pos, n := Cursor(f), |f.call.got|;
    assert Data(f)[pos..pos + n + 1] == Data(f)[pos..pos + n] + [f.store[pos + n]];
  }

  lemma LoadReads(f: File, accepts: bool)
    requires Sized(f) && f.call.Reading? && Within(f) && ReadOk(f) && !Hit(f, Load(accepts))
    ensures Sized(Step(f, Load(accepts))) && ReadOk(Step(f, Load(accepts)))
  {
    hide Trim, Keep;
    StepKeeps(f, Load(accepts));
    KeepsContent(f.store, f.size);
    var r := Step(f, Load(accepts));
    assert r.call == f.call && r.fds == f.fds;
    if LoadTruncates(f) {
      assert f.fds[f.call.fd].pos + f.fds[f.call.fd].due == 0;
    } else {
      assert Data(r) == Data(f);
    }
  }

  /** Nothing brings a lost byte back, and when the write ends it can be read. */
  lemma StepBroken(f: File, op: Op, w: map<nat, Byte>)
    requires Sized(f) && Legal(f, op) && Broken(f, w)
    ensures var r, v := Step(f, op), Noted(f, op, w);
      Sized(r) && if op.Grow? then !AllWritten(Data(r), v) else Broken(r, v)
  {
    hide Trim, Keep, Target;
    StepKeeps(f, op);
    var r, v := Step(f, op), Noted(f, op, w);
    var i :| 0 <= i < f.call.k && LostAt(f, w, i);
    if op.Grow? {
      assert Data(r)[Cursor(f) + i] == 0;
    } else if op.Put? {
      assert LostAt(r, v, i);
    } else if op.Load? {
      TrimAt(f.store, f.size, Cursor(f) + i);
      assert LostAt(r, v, i);
    } else {
      OthersStay(f, op);
      TrimAt(f.store, f.size, Cursor(f) + i);
      assert LostAt(r, v, i);
    }
  }

  lemma {:induction false} BrokenShows(f: File, ops: seq<Op>, w: map<nat, Byte>)
    requires Sized(f) && Runs(f, ops) && Broken(f, w) && !Run(f, ops).call.Writing?
    ensures !AlwaysSound(f, ops, w)
    decreases |ops|
  {
    hide Legal, Step, Noted, Sized;
    if ops != [] {
      StepKeeps(f, ops[0]);
      StepBroken(f, ops[0], w);
      if Broken(Step(f, ops[0]), Noted(f, ops[0], w)) {
        BrokenShows(Step(f, ops[0]), ops[1..], Noted(f, ops[0], w));
      } else {
        assert !AlwaysSound(Step(f, ops[0]), ops[1..], Noted(f, ops[0], w));
      }
    }
  }

  lemma StepSound(f: File, op: Op, w: map<nat, Byte>)
    requires Sized(f) && Legal(f, op) && Sound(f, w) && Intact(f, w)
    ensures Sized(Step(f, op))
    ensures !Disturbs(f, op) ==> Sound(Step(f, op), Noted(f, op, w)) && Intact(Step(f, op), Noted(f, op, w))
    ensures Hit(f, op) || Miss(f, op) ==> !Sound(Step(f, op), Noted(f, op, w))
    ensures Cut(f, op) ==> Broken(Step(f, op), Noted(f, op, w))
  {
    hide Sized, Legal, Step, Noted, Hit, Miss, Cut, Counted, Within, AllWritten, ReadOk, Intact, Broken;
    StepKeeps(f, op);
    StepCounted(f, op);
    StepWithin(f, op);
    StepWritten(f, op, w);
    StepIntact(f, op, w);
    if !Hit(f, op) { StepReads(f, op); }
  }

  /** In every run that ends with no write in progress, by any number of tasks and with closes at
      exit and loads anywhere: every readable byte is at all times the last one written there since
      the last truncation, reads return nothing else, no cursor passes the end and the node counts
      its openers, if and only if no load truncates the file under a cursor, no load comes between
      an open's check and its fs_open with other flags, and no close at exit or load frees a block
      in which an unfinished write has stored something. */
  lemma {:induction false} SoundIff(f: File, ops: seq<Op>, w: map<nat, Byte>)
    requires Sized(f) && Runs(f, ops) && Sound(f, w) && Intact(f, w) && !Run(f, ops).call.Writing?
    ensures AlwaysSound(f, ops, w) <==> Undisturbed(f, ops)
    decreases |ops|
  {
    hide Legal, Step, Noted, Sound, Sized, Intact, Hit, Miss, Cut, Broken;
    if ops != [] {
      var r, v := Step(f, ops[0]), Noted(f, ops[0], w);
      StepKeeps(f, ops[0]);
      StepSound(f, ops[0], w);
      if !Disturbs(f, ops[0]) {
        SoundIff(r, ops[1..], v);
      } else if Cut(f, ops[0]) {
        BrokenShows(r, ops[1..], v);
      } else {
        assert !AlwaysSound(r, ops[1..], v);
      }
    }
  }

  /** Before any of it happens no byte from before a truncation, and none that nobody wrote, can be
      read, whatever is in progress. */
  lemma {:induction false} NeverStale(f: File, ops: seq<Op>, w: map<nat, Byte>)
    requires Sized(f) && Runs(f, ops) && Sound(f, w) && Intact(f, w) && Undisturbed(f, ops)
    ensures AlwaysSound(f, ops, w)
    decreases |ops|
  {
    hide Legal, Step, Noted, Sound, Sized, Intact, Hit, Miss, Cut, Broken;
    if ops != [] {
      StepKeeps(f, ops[0]);
      StepSound(f, ops[0], w);
      NeverStale(Step(f, ops[0]), ops[1..], Noted(f, ops[0], w));
    }
  }

  lemma NewSound()
    ensures Sized(NEW) && Sound(NEW, map[]) && Intact(NEW, map[])
  {
  }

  // ---------- cursors ----------

  ghost predicate AlwaysWithin(f: File, ops: seq<Op>)
    requires Sized(f) && Runs(f, ops)
    decreases |ops|
  {
    Counted(f) && Within(f) && (ops == [] || (StepKeeps(f, ops[0]); AlwaysWithin(Step(f, ops[0]), ops[1..])))
  }

  ghost predicate NeverHitOrMissed(f: File, ops: seq<Op>)
    requires Sized(f) && Runs(f, ops)
    decreases |ops|
  {
    ops == []
    || (!Hit(f, ops[0]) && !Miss(f, ops[0]) && (StepKeeps(f, ops[0]); NeverHitOrMissed(Step(f, ops[0]), ops[1..])))
  }

  /** In a run by any number of tasks no cursor ever passes the end of the file and the node counts
      its openers, if and only if no load truncates the file under a cursor or comes between an
      open's check and its fs_open. */
  lemma {:induction false} WithinIff(f: File, ops: seq<Op>)
    requires Sized(f) && Runs(f, ops) && Counted(f) && Within(f)
    ensures AlwaysWithin(f, ops) <==> NeverHitOrMissed(f, ops)
    decreases |ops|
  {
    hide Counted, Within, Hit, Miss, Legal, Step, Sized;
    if ops != [] {
      StepKeeps(f, ops[0]);
      StepCounted(f, ops[0]);
      StepWithin(f, ops[0]);
      var r := Step(f, ops[0]);
      if Counted(r) && Within(r) { WithinIff(r, ops[1..]); } else { assert !AlwaysWithin(r, ops[1..]); }
    }
  }

  /** The file shrinks only to nothing: for its first opener, or for a load. */
  lemma ShrinksWhen(f: File, op: Op)
    requires Sized(f) && Legal(f, op) && Counted(f) && Step(f, op).size < f.size
    ensures Step(f, op).size == 0
    ensures (op.Commit? && f.call.with.trunc && f.fds == map[]) || (op.Load? && LoadTruncates(f))
  {
    hide Trim, Keep, Wanted;
    if f.refcnt == 0 { NoFds(f); }
  }

  // ---------- one write, whatever comes between its bytes ----------

  /** All that the write has stored is there. */
  ghost predicate Kept(f: File)
    requires Sized(f) && f.call.Writing?
  {
    forall i :: 0 <= i < f.call.k ==> f.store[Cursor(f) + i] == f.call.bytes[i]
  }

  ghost predicate NeverCut(f: File, ops: seq<Op>)
    requires Sized(f) && Runs(f, ops)
    decreases |ops|
  {
    ops == [] || (!Cut(f, ops[0]) && (StepKeeps(f, ops[0]); NeverCut(Step(f, ops[0]), ops[1..])))
  }

  lemma StepSameWrite(f: File, op: Op)
    requires Sized(f) && Legal(f, op) && f.call.Writing? && !op.Grow?
    ensures var r := Step(f, op);
      && Sized(r) && r.call.Writing? && r.call.fd == f.call.fd && r.call.bytes == f.call.bytes && Cursor(r) == Cursor(f)
  {
    hide Trim, Target;
    StepKeeps(f, op);
    if op.Seek? || op.Advance? || op.Exit? { OthersStay(f, op); }
  }

  lemma {:induction false} BrokenStays(f: File, ops: seq<Op>, w: map<nat, Byte>)
    requires Sized(f) && Runs(f, ops) && Broken(f, w) && forall op :: op in ops ==> !op.Grow?
    ensures var r := Run(f, ops); r.call.Writing? && !Kept(r)
    decreases |ops|
  {
    hide Legal, Step, Noted, Sized;
    if ops != [] {
      StepKeeps(f, ops[0]);
      StepBroken(f, ops[0], w);
      BrokenStays(Step(f, ops[0]), ops[1..], Noted(f, ops[0], w));
    } else {
      LostIsNotKept(f, w);
    }
  }

  lemma LostIsNotKept(f: File, w: map<nat, Byte>)
    requires Sized(f) && Broken(f, w)
    ensures f.call.Writing? && !Kept(f)
  {
    var i :| 0 <= i < f.call.k && LostAt(f, w, i);
    assert f.store[Cursor(f) + i] != f.call.bytes[i];
  }

  lemma IntactIsKept(f: File, w: map<nat, Byte>)
    requires Sized(f) && f.call.Writing? && Intact(f, w)
    ensures Kept(f)
  {
    forall i | 0 <= i < f.call.k ensures f.store[Cursor(f) + i] == f.call.bytes[i] {
      assert StoredAt(f, w, i);
    }
  }

  lemma {:induction false} KeptIff(f: File, ops: seq<Op>, w: map<nat, Byte>)
    requires Sized(f) && Runs(f, ops) && f.call.Writing? && Intact(f, w) && forall op :: op in ops ==> !op.Grow?
    ensures var r := Run(f, ops);
      && r.call.Writing? && r.call.fd == f.call.fd && r.call.bytes == f.call.bytes && Cursor(r) == Cursor(f)
      && (Kept(r) <==> NeverCut(f, ops))
    decreases |ops|
  {
    hide Legal, Step, Noted, Sized, Intact, Cut, Broken, Kept;
    if ops == [] {
      IntactIsKept(f, w);
    } else {
      StepKeeps(f, ops[0]);
      StepSameWrite(f, ops[0]);
      StepIntact(f, ops[0], w);
      if Cut(f, ops[0]) {
        BrokenStays(Step(f, ops[0]), ops[1..], Noted(f, ops[0], w));
        SameWrite(Step(f, ops[0]), ops[1..]);
      } else {
        KeptIff(Step(f, ops[0]), ops[1..], Noted(f, ops[0], w));
      }
    }
  }

  lemma {:induction false} SameWrite(f: File, ops: seq<Op>)
    requires Sized(f) && Runs(f, ops) && f.call.Writing? && forall op :: op in ops ==> !op.Grow?
    ensures var r := Run(f, ops);
      r.call.Writing? && r.call.fd == f.call.fd && r.call.bytes == f.call.bytes && Cursor(r) == Cursor(f)
    decreases |ops|
  {
    hide Legal, Step, Sized;
    if ops != [] {
      StepKeeps(f, ops[0]);
      StepSameWrite(f, ops[0]);
      SameWrite(Step(f, ops[0]), ops[1..]);
    }
  }

  /** When a write has ended, the prefix that fits is in the file if and only if no close at exit
      and no load in between has freed a block in which it had stored something. */
  lemma WriteLandsIff(f: File, ops: seq<Op>)
    requires Sized(f) && Runs(f, ops) && f.call.Writing? && f.call.k == 0 && forall op :: op in ops ==> !op.Grow?
    requires Legal(Run(f, ops), Grow)
    ensures var g, pos, k := Step(Run(f, ops), Grow), Cursor(f), Accepted(Cursor(f), |f.call.bytes|);
      && Sized(g) && pos + k <= g.size && g.call.Idle? && f.call.fd in g.fds && g.fds[f.call.fd].due == k
      && (Data(g)[pos..pos + k] == f.call.bytes[..k] <==> NeverCut(f, ops))
  {
    hide Cut, NeverCut, Runs, Run, Noted;
    KeptIff(f, ops, map[]);
    var r := Run(f, ops);
    StepKeeps(r, Grow);
    var g, pos, k := Step(r, Grow), Cursor(f), r.call.k;
    Inside(g.store, g.size, pos, pos + k);
    SameBytes(g.store, pos, r.call.bytes, k);
  }

  lemma Inside(s: Bytes, size: nat, lo: nat, hi: nat)
    requires lo <= hi <= size <= |s|
    ensures s[..size][lo..hi] == s[lo..hi]
  {
  }

  lemma SameBytes(s: Bytes, pos: nat, bytes: Bytes, k: nat)
    requires pos + k <= |s| && k <= |bytes|
    ensures s[pos..pos + k] == bytes[..k] <==> forall i :: 0 <= i < k ==> s[pos + i] == bytes[i]
  {
    if s[pos..pos + k] == bytes[..k] {
      forall i | 0 <= i < k ensures s[pos + i] == bytes[i] { assert s[pos..pos + k][i] == bytes[..k][i]; }
    }
  }
}
