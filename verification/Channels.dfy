/**
 * One slot of kernel/vfs/chnlfs.c: a mailbox for a single message, with source, destination
 * and write lock. `ChannelSpec` gives each system call as a function on values,
 * `Channels.Channel` is the slot updated in place.
 */
module ChannelSpec {
  import opened Util

  const BUFSZ := 65536

  datatype Code = Done | Again | NotPermitted

  /** `msg` is the unread part of the buffer: `buf[..size]`. */
  datatype Chan = Chan(owner: int, source: int, dest: int, lockw: int, msg: Bytes)

  function Clip(data: Bytes): (r: Bytes)
    ensures |r| == Min(|data|, BUFSZ) && r <= data
  {
    data[..Min(|data|, BUFSZ)]
  }

  /** Only the first opener resets the slot; an unread size stays. */
  function Open(c: Chan, refcnt: nat, me: int): Chan {
    if refcnt > 0 then c else Chan(me, -1, -1, -1, c.msg)
  }

  /** Reading less than the whole message keeps its head, not its tail: the buffer is not moved. */
  function Read(c: Chan, me: int, n: nat): (r: (Chan, Bytes))
    ensures me != c.dest ==> r == (c, [])
    ensures me == c.dest && n >= |c.msg| ==> r == (c.(source := -1, dest := -1, msg := []), c.msg)
  {
    if me != c.dest then (c, [])
    else
      var k := Min(n, |c.msg|);
      var rest := c.msg[..|c.msg| - k];
      assert k == |c.msg| ==> c.msg[..k] == c.msg;
      (if rest == [] then c.(source := -1, dest := -1, msg := []) else c.(msg := rest), c.msg[..k])
  }

  predicate MayWrite(c: Chan, me: int) {
    (c.source < 0 || c.source == me) && (c.lockw < 0 || c.lockw == me)
  }

  function Write(c: Chan, me: int, data: Bytes): Chan {
    if !MayWrite(c, me) then c
    else c.(dest := if c.dest < 0 then c.owner else c.dest, source := me, msg := Clip(data))
  }

  function SetDest(c: Chan, me: int, pid: int): Chan {
    if c.dest >= 0 then c else c.(source := me, dest := pid)
  }

  function LockW(c: Chan, me: int): Chan { if c.lockw >= 0 then c else c.(lockw := me) }

  function UnlockW(c: Chan, me: int): Chan { if c.lockw != me then c else c.(lockw := -1) }
}

module Channels {
  import opened Util
  import opened ChannelSpec

  class Channel {
    var owner: int
    var source: int
    var dest: int
    var lockw: int
    const buf: array<Byte>
    var size: nat

    ghost predicate Valid()
      reads this
    {
      buf.Length == BUFSZ && size <= BUFSZ
    }

    ghost function View(): Chan
      requires Valid()
      reads this, buf
    {
      Chan(owner, source, dest, lockw, buf[..size])
    }

    /** open_fs by the first opener: the buffer is allocated here. */
    constructor (me: int)
      ensures Valid() && fresh(buf) && View() == Chan(me, -1, -1, -1, [])
    {
      owner, source, dest, lockw, size := me, -1, -1, -1, 0;
      buf := new Byte[BUFSZ](i => 0);
    }

    method Open(refcnt: nat, me: int)
      requires Valid()
      modifies this
      ensures Valid() && View() == ChannelSpec.Open(old(View()), refcnt, me)
    {
      if refcnt > 0 { return; }
      owner := me;
      source, dest, lockw := -1, -1, -1;
    }

    /** read_fs. */
    method Read(me: int, nbytes: nat) returns (data: array<Byte>)
      requires Valid()
      modifies this
      ensures Valid() && fresh(data) && (View(), data[..]) == ChannelSpec.Read(old(View()), me, nbytes)
    {
      if me != dest {
        data := new Byte[0];
        assert data[..] == [];
        return;
      }
      var n := nbytes;
      if n > size {
        n := size;
        size := 0;
      } else {
        size := size - n;
      }
      data := new Byte[n];
      var i := 0;
      while i < n
        invariant i <= n && data[..i] == buf[..i]
        modifies data
      {
        data[i] := buf[i];
        i := i + 1;
      }
      if size == 0 { source, dest := -1, -1; }
      assert data[..] == data[..n] == old(buf[..size])[..n];
      assert buf[..size] == old(buf[..size])[..size];
    }

    /** write_fs; `hurry` is the task whose sleep is to be cut short. */
    method Write(me: int, data: seq<Byte>) returns (code: Code, hurry: int)
      requires Valid()
      modifies this, buf
      ensures Valid() && View() == ChannelSpec.Write(old(View()), me, data)
      ensures code == (if MayWrite(old(View()), me) then Done else Again)
      ensures hurry == if code == Done then dest else -1
    {
      if (source >= 0 && source != me) || (lockw >= 0 && lockw != me) { return Again, -1; }
      if dest < 0 { dest := owner; }
      source := me;
      var n := if |data| > BUFSZ then BUFSZ else |data|;
      var i := 0;
      while i < n
        invariant i <= n && buf[..i] == data[..i]
        modifies buf
      {
        buf[i] := data[i];
        i := i + 1;
      }
      size := n;
      return Done, dest;
    }

    method SetDest(me: int, pid: int) returns (code: Code)
      requires Valid()
      modifies this
      ensures Valid() && View() == ChannelSpec.SetDest(old(View()), me, pid)
      ensures code == if old(dest) >= 0 then Again else Done
    {
      if dest >= 0 { return Again; }
      source := me;
      dest := pid;
      code := Done;
    }

    /** The check with which WAITREAD starts, and with which it ends after sleeping. */
    method Addressed(me: int) returns (b: bool)
      requires Valid()
      ensures b <==> View().dest == me
    {
      b := dest == me;
    }

    method GetSource() returns (pid: int)
      requires Valid()
      ensures pid == View().source
    {
      pid := source;
    }

    method LockW(me: int) returns (code: Code)
      requires Valid()
      modifies this
      ensures Valid() && View() == ChannelSpec.LockW(old(View()), me)
      ensures code == if old(lockw) >= 0 then Again else Done
    {
      if lockw >= 0 { return Again; }
      lockw := me;
      code := Done;
    }

    method UnlockW(me: int) returns (code: Code)
      requires Valid()
      modifies this
      ensures Valid() && View() == ChannelSpec.UnlockW(old(View()), me)
      ensures code == if old(lockw) != me then NotPermitted else Done
    {
      if lockw != me { return NotPermitted; }
      lockw := -1;
      code := Done;
    }
  }
}
