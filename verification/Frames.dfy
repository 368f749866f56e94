/**
 * kernel/mm/paging.c in place: the frame bitmap with its counter, and an address space of a
 * directory and page tables. `UserMemory` holds the loops of kernel/elf.c and kernel/task.c
 * that map and free user pages; each is proved equal to its function in FrameSpec.
 */
module Frames {
  import opened Bits
  import opened Util
  import opened FrameSpec

  const BYTES: nat := NFRAMES / 8

  class FrameBitmap {
    const bitmap: array<bv8>
    var nused: nat
    ghost var used: set<nat>

    /** The counter always equals the number of set bits. */
    ghost predicate Valid()
      reads this, bitmap
    {
      && bitmap.Length == BYTES && nused == |used|
      && Shows(bitmap[..], used)
    }

    constructor ()
      ensures Valid() && used == {}
    {
      bitmap := new bv8[BYTES](i => 0);
      nused, used := 0, {};
      new;
      assert forall f: nat :: !On(bitmap[..], f);
    }

    lemma Counts(s: set<nat>, x: nat)
      ensures |s + {x}| == (if x in s then |s| else |s| + 1) && |s - {x}| == (if x in s then |s| - 1 else |s|)
    {
      if x in s { assert s + {x} == s; } else { assert s - {x} == s; }
    }

    method Test(id: nat) returns (b: bool)
      requires Valid() && id < NFRAMES
      ensures b <==> id in used
    {
      hide Bit, With, Without, Shows;
      ShowsSet(bitmap[..], used, id);
      b := Bit(bitmap[id / 8], id % 8);
    }

    /** page_frame_use. */
    method Use(id: nat)
      requires Valid() && id < NFRAMES
      modifies this, bitmap
      ensures Valid() && used == old(used) + {id}
    {
      hide Bit, With, Without, Shows;
      ShowsSet(bitmap[..], used, id);
      Counts(used, id);
      var byte, bit := id / 8, id % 8;
      if !Bit(bitmap[byte], bit) { nused := nused + 1; }
      bitmap[byte] := With(bitmap[byte], bit);
      used := used + {id};
      assert bitmap[..] == old(bitmap[..])[byte := With(old(bitmap[..])[byte], bit)];
    }

    /** page_frame_free. */
    method Free(id: nat)
      requires Valid() && id < NFRAMES
      modifies this, bitmap
      ensures Valid() && used == old(used) - {id}
    {
      hide Bit, With, Without, Shows;
      ShowsClear(bitmap[..], used, id);
      Counts(used, id);
      var byte, bit := id / 8, id % 8;
      if Bit(bitmap[byte], bit) { nused := nused - 1; }
      bitmap[byte] := Without(bitmap[byte], bit);
      used := used - {id};
      assert bitmap[..] == old(bitmap[..])[byte := Without(old(bitmap[..])[byte], bit)];
    }

    /** The search of page_frame_alloc: the lowest clear bit, or NFRAMES when there is none. */
    method Scan() returns (p: nat)
      requires Valid()
      ensures p == Lowest(used, 0)
    {
      hide Valid, Lowest;
      LowestStep(used, NFRAMES);
      var i := 0;
      while i < BYTES
        invariant i <= BYTES && Lowest(used, 0) == Lowest(used, 8 * i)
      {
        var j := 0;
        while j < 8
          invariant j <= 8 && Lowest(used, 0) == Lowest(used, 8 * i + j)
        {
          LowestStep(used, i * 8 + j);
          var taken := Test(i * 8 + j);
          if !taken { return i * 8 + j; }
          j := j + 1;
        }
        i := i + 1;
      }
      p := NFRAMES;
    }

    /** page_frame_alloc: the lowest clear bit is set, or 0 is returned when there is none. */
    method Alloc() returns (p: nat)
      requires Valid()
      modifies this, bitmap
      ensures Valid() && (used, p) == FrameSpec.Alloc(old(used))
    {
      hide Valid, Lowest;
      p := Scan();
      if p == NFRAMES { return 0; }
      Use(p);
    }
  }

  /** A directory or table entry: absent, or present with a frame. */
  datatype PageEntry = Absent | Present(frame: nat)

  const TABLES: nat := 1024
  const PAGES: nat := 1024 * 1024

  class UserMemory {
    const frames: FrameBitmap
    const dir: array<PageEntry>
    const table: array<PageEntry>  // the window through which the tables on the CPU are seen
    var brkp: nat
    ghost var sp: Space

    ghost predicate Valid()
      reads this, frames, frames.bitmap, dir, table
    {
      && frames.Valid() && dir.Length == TABLES && table.Length == PAGES && dir != table
      && (dir as object) != frames.bitmap && (table as object) != frames.bitmap
      && (forall i: nat :: i in sp.tables <==> i < TABLES && dir[i].Present?)
      && (forall i: nat :: i in sp.tables ==> dir[i].frame == sp.tables[i] < NFRAMES)
      && (forall p: nat :: p in sp.pages <==> p < PAGES && p / 1024 in sp.tables && table[p].Present?)
      && (forall p: nat :: p in sp.pages ==> table[p].frame == sp.pages[p] < NFRAMES)
      && brkp == sp.brk
    }

    ghost function View(): Mem
      reads this, frames
    {
      Mem(frames.used, sp)
    }

    /** task_new: the user half of the cloned directory is empty. */
    constructor (frames: FrameBitmap)
      requires frames.Valid()
      ensures Valid() && this.frames == frames && View() == Mem(frames.used, EMPTY) && fresh(dir) && fresh(table)
    {
      this.frames := frames;
      dir := new PageEntry[TABLES](i => Absent);
      table := new PageEntry[PAGES](i => Absent);
      brkp, sp := MINBRK, EMPTY;
    }

    method IsMapped(p: nat) returns (b: bool)
      requires Valid() && p < PAGES
      ensures b <==> p in sp.pages
    {
      b := dir[p / 1024].Present? && table[p].Present?;
    }

    /** page_get_frame: 0 for a page that is not mapped. */
    method GetFrame(p: nat) returns (f: nat)
      requires Valid() && p < PAGES
      ensures f == if p in sp.pages then sp.pages[p] else 0
    {
      if dir[p / 1024].Absent? { return 0; }
      f := if table[p].Present? then table[p].frame else 0;
    }

    /** page_map_table_flags: a new table has no entries. */
    method MapTable(i: nat, f: nat)
      requires Valid() && i < TABLES && i !in sp.tables && f < NFRAMES
      modifies this`sp, dir, table
      ensures Valid() && sp == old(sp).(tables := old(sp).tables[i := f])
    {
      ClearTable(i);
      dir[i] := Present(f);
      sp := sp.(tables := sp.tables[i := f]);
    }

    method ClearTable(i: nat)
      requires table.Length == PAGES && i < TABLES
      modifies table
      ensures forall p: nat :: p < PAGES ==> table[p] == if p / 1024 == i then Absent else old(table[p])
    {
      var k := 0;
      while k < 1024
        invariant k <= 1024
        invariant forall p: nat :: p < PAGES ==>
                    table[p] == if 1024 * i <= p < 1024 * i + k then Absent else old(table[p])
      {
        table[i * 1024 + k] := Absent;
        k := k + 1;
      }
    }

    method SetBrk(brk: nat)
      requires Valid()
      modifies this`brkp, this`sp
      ensures Valid() && View() == Mem(old(frames.used), old(sp).(brk := brk, peak := Max(old(sp.peak), brk)))
    {
      brkp := brk;
      sp := sp.(brk := brk, peak := Max(sp.peak, brk));
    }

    static lemma PgBound(brk: nat)
      requires brk <= MAXBRK
      ensures Pg(brk) <= PAGES
    {
    }

    lemma Brk()
      requires Valid()
      ensures brkp == sp.brk
    {
    }

    method FreePage(i: nat)
      requires Valid() && i < PAGES
      modifies this`sp, table, frames, frames.bitmap
      ensures Valid() && View() == FrameSpec.FreePage(old(View()), i)
    {
      hide FrameBitmap.Valid;
      var fr := GetFrame(i);
      if fr != 0 {
        frames.Free(fr);
        table[i] := Absent;
        sp := sp.(pages := sp.pages - {i});
      }
    }

    /** page_map_flags(p, page_frame_alloc(), ..) */
    method MapNew(p: nat)
      requires Valid() && p < PAGES
      modifies this`sp, dir, table, frames, frames.bitmap
      ensures Valid() && View() == FrameSpec.MapNew(old(View()), p)
    {
      hide FrameBitmap.Valid;
      var f := frames.Alloc();
      var pt := p / 1024;
      if dir[pt].Absent? {
        var fr := frames.Alloc();
        MapTable(pt, fr);
      }
      SetEntry(p, f);
    }

    method SetEntry(p: nat, f: nat)
      requires Valid() && p < PAGES && p / 1024 in sp.tables && f < NFRAMES
      modifies this`sp, table
      ensures Valid() && sp == old(sp).(pages := old(sp).pages[p := f])
    {
      hide FrameBitmap.Valid;
      table[p] := Present(f);
      sp := sp.(pages := sp.pages[p := f]);
    }

    /** The mapping loops of load_entry and task_sbrk, over pages not yet mapped. */
    method MapRange(lo: nat, hi: nat)
      requires Valid() && hi <= PAGES
      modifies this`sp, dir, table, frames, frames.bitmap
      ensures Valid() && View() == FrameSpec.MapRange(old(View()), lo, hi)
    {
      hide Valid;
      var i := lo;
      while i < hi
        invariant Valid() && FrameSpec.MapRange(View(), i, hi) == FrameSpec.MapRange(old(View()), lo, hi)
        decreases hi - i
      {
        var mapped := IsMapped(i);
        if !mapped { MapNew(i); }
        i := i + 1;
      }
    }

    /** The freeing loop of task_sbrk. */
    method FreeRange(lo: nat, hi: nat)
      requires Valid() && hi <= PAGES
      modifies this`sp, table, frames, frames.bitmap
      ensures Valid() && View() == FrameSpec.FreeRange(old(View()), lo, hi)
    {
      hide Valid;
      var i := lo;
      while i < hi
        invariant Valid() && FrameSpec.FreeRange(View(), i, hi) == FrameSpec.FreeRange(old(View()), lo, hi)
        decreases hi - i
      {
        FreePage(i);
        i := i + 1;
      }
    }

    /** The part of load_entry that makes room for a segment. */
    method Load(end: nat)
      requires Valid() && end <= MAXBRK
      modifies this, dir, table, frames, frames.bitmap
      ensures Valid() && View() == FrameSpec.Load(old(View()), end)
    {
      hide Valid;
      Brk();
      if end > brkp {
        MapRange(brkp / 4096, (end + 4095) / 4096);
        SetBrk(end);
      }
    }

    /** One turn of task_entry's loops, when nothing comes between. */
    method EnterOne(p: nat, ghost k: nat, ghost n: nat)
      requires Valid() && p < PAGES && p == EntryPage(k) && k < FIXED + n && sp.entry == At(k, n, None, None)
      modifies this`sp, dir, table, frames, frames.bitmap
      ensures Valid() && sp.entry == NextPage(k, n) && EnterAll(View()) == EnterAll(old(View()))
    {
      EnterPage(View(), k, n);
      MapNew(p);
      Rest(k, n);
    }

    ghost method Rest(k: nat, n: nat)
      requires Valid()
      modifies this`sp
      ensures Valid() && View() == Mem(frames.used, old(sp).(entry := NextPage(k, n)))
    {
      sp := sp.(entry := NextPage(k, n));
    }

    ghost method Start(n: nat)
      requires Valid()
      modifies this`sp
      ensures Valid() && View() == Mem(frames.used, Begin(old(sp), n))
    {
      sp := Begin(sp, n);
    }

    /** The mappings of task_entry: the stack, the signal trampoline, and `npages` pages of
        arguments and environment. */
    method Enter(npages: nat)
      requires Valid() && ENV + npages <= PAGES
      modifies this, dir, table, frames, frames.bitmap
      ensures Valid() && View() == EnterAll(Mem(old(frames.used), Begin(old(sp), npages)))
    {
      hide Valid, EnterAll, FrameSpec.MapNew;
      Start(npages);
      ghost var m := View();
      var i := STACK;
      while i < ENV
        invariant Valid() && STACK <= i <= ENV
        invariant sp.entry == At(i - STACK, npages, None, None)
        invariant EnterAll(View()) == EnterAll(m)
      {
        EnterOne(i, i - STACK, npages);
        i := i + 1;
      }
      i := SIGH;
      while i < SIGH + 1
        invariant Valid() && SIGH <= i <= SIGH + 1
        invariant sp.entry == if i == SIGH then At(FIXED - 1, npages, None, None) else NextPage(FIXED - 1, npages)
        invariant EnterAll(View()) == EnterAll(m)
      {
        EnterOne(i, FIXED - 1, npages);
        i := i + 1;
      }
      var j := ENV;
      while j < ENV + npages
        invariant Valid() && ENV <= j <= ENV + npages
        invariant sp.entry == if j < ENV + npages then At(FIXED + j - ENV, npages, None, None) else After
        invariant EnterAll(View()) == EnterAll(m)
      {
        EnterOne(j, FIXED + j - ENV, npages);
        j := j + 1;
      }
      Done(View());
    }

    static lemma Done(m: Mem)
      requires m.sp.entry.After?
      ensures EnterAll(m) == m
    {
    }

    /** task_sbrk: the old break, or NULL when the new one is out of bounds. */
    method Sbrk(inc: int) returns (ptr: nat)
      requires Valid() && brkp <= MAXBRK
      modifies this, dir, table, frames, frames.bitmap
      ensures Valid() && View() == FrameSpec.Sbrk(old(View()), inc)
      ensures var brk := (old(brkp) + inc) % WORD;
        if MINBRK <= brk < MAXBRK then brkp == brk && ptr == old(brkp) else ptr == 0 && View() == old(View())
    {
      hide Valid, FrameSpec.MapRange, FrameSpec.FreeRange, Pg;
      Brk();
      ptr := brkp;
      var brk := (brkp + inc) % WORD;
      if brk < MINBRK || brk >= MAXBRK { return 0; }
      var obrk := brkp;
      PgBound(brk);
      PgBound(obrk);
      if brk > obrk {
        MapRange(Pg(obrk), Pg(brk));
      } else {
        FreeRange(Pg(brk), Pg(obrk));
      }
      SetBrk(brk);
    }

    /** task_free: data frames up to the break, then the frames of the tables that cover it. */
    method Free()
      requires Valid() && brkp <= MAXBRK
      modifies frames, frames.bitmap
      ensures Valid() && frames.used == old(frames.used) - Returned(sp)
    {
      hide Valid;
      Brk();
      ghost var back := {};
      var n := (brkp + 4095) / 4096;
      var i := 0;
      while i < n
        invariant i <= n && Valid() && frames.used == old(frames.used) - back
        invariant forall f :: f in back <==> exists p :: p in sp.pages && p < i && sp.pages[p] == f != 0
      {
        var f := FreeFrameOf(i);
        if f != 0 { back := back + {f}; }
        i := i + 1;
      }
      ghost var data := back;
      n := (n + 1023) / 1024;
      i := 0;
      while i < n
        invariant i <= n && Valid() && frames.used == old(frames.used) - back
        invariant forall f :: f in back <==> f in data || exists k :: k in sp.tables && k < i && sp.tables[k] == f != 0
      {
        var f := FreeTable(i);
        if f != 0 { back := back + {f}; }
        i := i + 1;
      }
      assert back == Returned(sp);
    }

    /** Frees the frame of page `i` and leaves the dying table as it is. */
    method FreeFrameOf(i: nat) returns (f: nat)
      requires Valid() && i < PAGES
      modifies frames, frames.bitmap
      ensures Valid() && f == (if i in sp.pages then sp.pages[i] else 0)
      ensures frames.used == if f != 0 then old(frames.used) - {f} else old(frames.used)
    {
      hide FrameBitmap.Valid;
      f := GetFrame(i);
      if f != 0 { frames.Free(f); }
    }

    method FreeTable(i: nat) returns (f: nat)
      requires Valid() && i < TABLES
      modifies frames, frames.bitmap
      ensures Valid() && f == (if i in sp.tables then sp.tables[i] else 0)
      ensures frames.used == if f != 0 then old(frames.used) - {f} else old(frames.used)
    {
      hide FrameBitmap.Valid;
      f := if dir[i].Present? then dir[i].frame else 0;
      if f != 0 { frames.Free(f); }
    }
  }
}
