/**
 * The loops of tools/mkecfs.c that format a volume, and of tools/mntecfs.c that allocates
 * blocks of a mounted one and writes what it changed back. Both are proved against EcfsSpec.
 */
module Ecfs {
  import opened Util
  import opened Bits
  import E = EcfsSpec

  // ---------- checking the block size ----------

  function Ones(v: nat): nat { if v == 0 then 0 else v % 2 + Ones(v / 2) }

  lemma NoOnes(v: nat)
    ensures Ones(v) == 0 <==> v == 0
  {
  }

  lemma {:induction false} OneIffPower(v: nat)
    ensures Ones(v) == 1 <==> PowerOfTwo(v)
  {
    if v > 0 {
      OneIffPower(v / 2);
      NoOnes(v / 2);
    }
  }

  function Pow2(n: nat): nat { if n == 0 then 1 else 2 * Pow2(n - 1) }

  lemma Halves(v: nat, b: nat)
    requires b > 0
    ensures v / (2 * b) == (v / b) / 2
  {
    var q, r := v / b, v % b;
    assert v == q * b + r;
    var d, e := q / 2, q % 2;
    assert q == 2 * d + e;
    assert q * b == d * (2 * b) + e * b by { assert (2 * d + e) * b == 2 * d * b + e * b; }
    E.DivIs(v, 2 * b, d);
  }

  lemma OnesFrom(v: nat, b: nat)
    requires b > 0
    ensures v / b >= 0 && v / (2 * b) >= 0 && Ones(v / b) == (v / b) % 2 + Ones(v / (2 * b))
  {
    NotNegative(v, b);
    Halves(v, b);
  }

  lemma Pow32()
    ensures Pow2(32) == 0x1_0000_0000
  {
    assert Pow2(8) == 256;
    assert Pow2(16) == 65536;
    assert Pow2(24) == 0x100_0000;
  }

  /** count_ones; a block size passes exactly when the result is 1. */
  method CountOnes(v: nat) returns (n: nat)
    requires v < 0x1_0000_0000
    ensures n == Ones(v) && (n == 1 <==> PowerOfTwo(v))
  {
    hide Ones, PowerOfTwo;
    n := 0;
    var bit := 1;
    for i := 0 to 32
      invariant bit == Pow2(i) && bit > 0 && v / bit >= 0 && n + Ones(v / bit) == Ones(v)
    {
      OnesFrom(v, bit);
      if v / bit % 2 == 1 { n := n + 1; }
      bit := 2 * bit;
    }
    Pow32();
    NoOnes(v / bit);
    OneIffPower(v);
  }

  // ---------- the disk ----------

  datatype Head = Head(blk_tlrm: nat, nblk_tlrm: nat, blk_brb: nat, nblk_brb: nat, blk_root: nat,
                       blksz: nat, nblk: nat, nblk_alloc: nat, nblk_rsvd: nat)

  const TWO_TO_THE_32 := 0x1_0000_0000
  const FLAG_DIR := 2
  const OWNER_WRITES := 420 // 0644

  /** 64 bits in two words. */
  datatype Stamp = Stamp(lo: nat, hi: nat) {
    function Time(): nat { lo + hi * TWO_TO_THE_32 }
  }

  /** A file entry without name, owner or blocks. */
  datatype Entry = Entry(flags: nat, mask: nat, atime: Stamp, mtime: Stamp, ctime: Stamp, fsz: nat, nblk: nat)

  datatype Block = Words(words: seq<nat>) | Bytes(bytes: seq<bv8>) | File(entry: Entry)

  class Device {
    const nblk: nat
    var head: Head
    var blocks: map<nat, Block>

    constructor (nblk: nat)
      ensures this.nblk == nblk && blocks == map[]
    {
      this.nblk := nblk;
      head := Head(0, 0, 0, 0, 0, 0, 0, 0, 0);
      blocks := map[];
    }

    /** write_blk: writes outside the volume are dropped. */
    method Write(index: nat, b: Block)
      modifies this`blocks
      ensures blocks == if index < nblk then old(blocks)[index := b] else old(blocks)
    {
      if index >= nblk { return; }
      blocks := blocks[index := b];
    }
  }

  /** Piece `k` of `s` when it is cut into pieces of `w`. */
  function Piece<T>(s: seq<T>, k: nat, w: nat): seq<T> {
    if (k + 1) * w <= |s| && k * w <= (k + 1) * w then s[k * w..(k + 1) * w] else []
  }

  function HeadOf(g: E.Geo): Head
    requires g.blksz >= 4
  {
    Head(g.Base(), g.Tlrm(), g.Base() + g.Tlrm(), g.Brb(), g.Base() + g.Tlrm() + g.Brb(), g.blksz, g.nblk,
      g.Rsvd(), g.Rsvd())
  }

  // ---------- formatting ----------

  /** One TLRM block; `cnt` is what is left of the reserved blocks. */
  method TlrmBlock(w: nat, cnt: nat) returns (arr: array<nat>, left: nat)
    requires w > 0
    ensures fresh(arr) && arr.Length == w && arr[..] == seq(w, j requires j >= 0 => E.Chunk(cnt, w, j))
    ensures left == if cnt <= w * w then 0 else cnt - w * w
  {
    arr := new nat[w](i => 0);
    left := cnt;
    var j := 0;
    E.Grows(w, w);
    while j < w
      invariant j <= w && left == if cnt <= j * w then 0 else cnt - j * w
      invariant forall i :: 0 <= i < j ==> arr[i] == E.Chunk(cnt, w, i)
      invariant forall i :: j <= i < w ==> arr[i] == 0
    {
      assert (j + 1) * w == j * w + w;
      if left > 0 {
        var k := Min(left, w);
        left := left - k;
        arr[j] := arr[j] + k;
      }
      j := j + 1;
    }
  }

  /** One BRB block: the bits of area `i`. */
  method BrbBlock(blksz: nat, rsvd: nat, i: nat) returns (arr: array<bv8>)
    requires blksz > 0
    ensures fresh(arr) && arr.Length == blksz
    ensures forall j: nat :: j < 8 * blksz ==> (On(arr[..], j) <==> i * (blksz * 8) + j < rsvd)
  {
    hide Bit, With, On;
    arr := new bv8[blksz](_ => 0);
    Zeros(arr[..]);
    var j, first := 0, i * (blksz * 8);
    while j < blksz * 8
      invariant j <= 8 * blksz
      invariant forall k: nat :: k < 8 * blksz ==> (On(arr[..], k) <==> k < j && first + k < rsvd)
    {
      var p := first + j;
      if p < rsvd {
        ghost var m := arr[..];
        arr[j / 8] := With(arr[j / 8], j % 8);
        assert arr[..] == m[j / 8 := With(m[j / 8], j % 8)];
        SetOn(m, j, arr[..]);
      }
      j := j + 1;
    }
  }

  lemma Zeros(m: seq<bv8>)
    requires forall i :: 0 <= i < |m| ==> m[i] == 0
    ensures forall f: nat :: !On(m, f)
  {
  }

  lemma PieceKept<T>(s: seq<T>, t: seq<T>, k: nat, n: nat, w: nat)
    requires |s| == n * w && k < n
    ensures Piece(s + t, k, w) == Piece(s, k, w) && k * w <= (k + 1) * w <= |s|
  {
    E.Grows(k, 1);
    assert (k + 1) * w == k * w + w && n * w == (k + 1) * w + (n - k - 1) * w;
    NotNegative(n - k - 1, w);
  }

  lemma PieceLast<T>(s: seq<T>, t: seq<T>, n: nat, w: nat)
    requires |s| == n * w && |t| == w
    ensures Piece(s + t, n, w) == t
  {
    assert (n + 1) * w == n * w + w;
  }

  /** Changing one element changes one piece. */
  lemma PieceUpdate<T>(s: seq<T>, i: nat, x: T, k: nat, w: nat)
    requires i < |s| && w > 0 && i / w != k
    ensures Piece(s[i := x], k, w) == Piece(s, k, w)
  {
    assert (k + 1) * w == k * w + w;
    if k * w <= i < (k + 1) * w { E.DivIs(i, w, k); }
  }

  lemma OnAppend(s: seq<bv8>, t: seq<bv8>, p: nat)
    ensures On(s + t, p) <==> if p < 8 * |s| then On(s, p) else On(t, p - 8 * |s|)
  {
    if p >= 8 * |s| {
      assert p / 8 == |s| + (p - 8 * |s|) / 8 && p % 8 == (p - 8 * |s|) % 8;
    }
  }

  /** `n` pieces of `s` are on the disk from block `at` on. */
  ghost predicate WordsAt(m: map<nat, Block>, at: nat, n: nat, s: seq<nat>, w: nat) {
    forall k: nat :: k < n ==> OnDisk(m, at + k, Words(Piece(s, k, w)))
  }

  ghost predicate BytesAt(m: map<nat, Block>, at: nat, n: nat, s: seq<bv8>, w: nat) {
    forall k: nat :: k < n ==> OnDisk(m, at + k, Bytes(Piece(s, k, w)))
  }

  /** The head block and the two maps are on the disk as they are in memory. */
  ghost predicate Synced(dev: Device, head: Head, tlrm: seq<nat>, brb: seq<bv8>)
    reads dev
  {
    && dev.head == head
    && WordsAt(dev.blocks, head.blk_tlrm, head.nblk_tlrm, tlrm, head.blksz / 4)
    && BytesAt(dev.blocks, head.blk_brb, head.nblk_brb, brb, head.blksz)
  }

  predicate OnDisk(m: map<nat, Block>, at: nat, b: Block) { at in m && m[at] == b }

  /** genfs, the TLRM part. */
  method WriteTlrm(dev: Device, g: E.Geo)
    requires E.Valid(g) && dev.nblk == g.nblk
    modifies dev`blocks
    ensures WordsAt(dev.blocks, g.Base(), g.Tlrm(), E.Formatted(g).tlrm, g.Words())
  {
    hide Piece, E.Formatted, E.Chunk, PowerOfTwo;
    E.LayoutFits(g);
    ghost var all, rsvd := E.Formatted(g).tlrm, g.Rsvd();
    var w, base, n := g.Words(), g.Base(), g.Tlrm();
    var cnt := g.Rsvd();
    var i := 0;
    while i < n
      invariant i <= n && cnt == if rsvd <= i * (w * w) then 0 else rsvd - i * (w * w)
      invariant forall k: nat :: k < i ==> OnDisk(dev.blocks, base + k, Words(Piece(all, k, w)))
    {
      var arr;
      ghost var was := cnt;
      arr, cnt := TlrmBlock(w, cnt);
      TlrmPiece(g, i, was);
      NextSquare(i, w);
      dev.Write(base + i, Words(arr[..]));
      i := i + 1;
    }
  }

  lemma TlrmPiece(g: E.Geo, i: nat, cnt: nat)
    requires E.Valid(g) && i < g.Tlrm()
    requires var w := g.Words(); cnt == if g.Rsvd() <= i * (w * w) then 0 else g.Rsvd() - i * (w * w)
    ensures Piece(E.Formatted(g).tlrm, i, g.Words()) == seq(g.Words(), j requires j >= 0 => E.Chunk(cnt, g.Words(), j))
  {
    hide E.Chunk, PowerOfTwo;
    var w, n := g.Words(), g.Tlrm();
    ChunkPiece(g.Rsvd(), w, n, i, cnt, E.Formatted(g).tlrm);
  }

  lemma ChunkPiece(r: nat, w: nat, n: nat, i: nat, cnt: nat, all: seq<nat>)
    requires w > 0 && i < n && |all| == n * w && (forall a: nat :: a < |all| ==> all[a] == E.Chunk(r, w, a))
    requires cnt == if r <= i * (w * w) then 0 else r - i * (w * w)
    ensures Piece(all, i, w) == seq(w, j requires j >= 0 => E.Chunk(cnt, w, j))
  {
    hide E.Chunk;
    PieceKept(all, [], i, n, w);
    assert all + [] == all;
    var lo, hi := i * w, (i + 1) * w;
    assert hi == lo + w;
    forall j: nat | j < w ensures all[lo + j] == E.Chunk(cnt, w, j) {
      Split(i, w, j);
      NotNegative(j, w);
      ChunkShift(r, w, lo + j, i * (w * w), j, cnt);
    }
    assert Piece(all, i, w) == all[lo..hi];
  }

  lemma Split(i: nat, w: nat, j: nat)
    ensures (i * w + j) * w == i * (w * w) + j * w
  {
  }

  lemma ChunkShift(r: nat, w: nat, a: nat, x: int, j: nat, cnt: nat)
    requires a * w == x + j * w && j * w >= 0 && cnt == if r <= x then 0 else r - x
    ensures E.Chunk(r, w, a) == E.Chunk(cnt, w, j)
  {
  }

  /** genfs, the BRB part. */
  method WriteBrb(dev: Device, g: E.Geo) returns (ghost brb: seq<bv8>)
    requires E.Valid(g) && dev.nblk == g.nblk
    modifies dev`blocks
    ensures |brb| == g.BrbBytes() && Shows(brb, E.Formatted(g).used)
    ensures BytesAt(dev.blocks, g.Base() + g.Tlrm(), g.Brb(), brb, g.blksz)
    ensures forall a :: a < g.Base() + g.Tlrm() && a in old(dev.blocks) ==> OnDisk(dev.blocks, a, old(dev.blocks)[a])
  {
    hide On, Piece, PowerOfTwo, E.Formatted, E.Chunk;
    E.LayoutFits(g);
    var rsvd, first, n, blksz := g.Rsvd(), g.Base() + g.Tlrm(), g.Brb(), g.blksz;
    brb := [];
    var i := 0;
    while i < n
      invariant i <= n && |brb| == i * blksz
      invariant forall p: nat :: p < 8 * |brb| ==> (On(brb, p) <==> p < rsvd)
      invariant forall k: nat :: k < i ==> OnDisk(dev.blocks, first + k, Bytes(Piece(brb, k, blksz)))
      invariant forall a :: a < first && a in old(dev.blocks) ==> OnDisk(dev.blocks, a, old(dev.blocks)[a])
    {
      var arr := BrbBlock(blksz, rsvd, i);
      ghost var was := brb;
      brb := brb + arr[..];
      NextBlock(i, blksz);
      forall p: nat | p < 8 * |brb| ensures On(brb, p) <==> p < rsvd {
        OnAppend(was, arr[..], p);
      }
      forall k: nat | k < i ensures Piece(brb, k, blksz) == Piece(was, k, blksz) {
        PieceKept(was, arr[..], k, i, blksz);
      }
      PieceLast(was, arr[..], i, blksz);
      dev.Write(first + i, Bytes(arr[..]));
      i := i + 1;
    }
    BrbShows(g, brb);
  }

  lemma NextSquare(i: nat, w: nat)
    ensures (i + 1) * (w * w) == i * (w * w) + w * w
  {
  }

  lemma NextBlock(i: nat, b: nat)
    ensures i * (b * 8) == 8 * (i * b) && (i + 1) * b == i * b + b
  {
  }

  lemma BrbShows(g: E.Geo, brb: seq<bv8>)
    requires E.Valid(g) && |brb| == g.BrbBytes()
    requires forall p: nat :: p < 8 * |brb| ==> (On(brb, p) <==> p < g.Rsvd())
    ensures Shows(brb, E.Formatted(g).used)
  {
    E.LayoutFits(g);
  }

  /** genfs, the root entry: an empty directory, made at `now`. */
  method RootEntry(now: nat) returns (e: Entry)
    requires now < TWO_TO_THE_32 * TWO_TO_THE_32
    ensures e.flags == FLAG_DIR && e.mask == OWNER_WRITES && e.fsz == 0 && e.nblk == 0
    ensures e.atime == e.mtime == e.ctime && e.ctime.Time() == now
    ensures e.ctime.lo < TWO_TO_THE_32 && e.ctime.hi < TWO_TO_THE_32
  {
    var t := Stamp(now % TWO_TO_THE_32, now / TWO_TO_THE_32 % TWO_TO_THE_32);
    e := Entry(FLAG_DIR, OWNER_WRITES, t, t, t, 0, 0);
  }

  /** genfs: what ends up on the disk is the formatted volume, and the root entry. */
  method GenFs(dev: Device, g: E.Geo, now: nat) returns (ghost brb: seq<bv8>, root: Entry)
    requires E.Valid(g) && dev.nblk == g.nblk && now < TWO_TO_THE_32 * TWO_TO_THE_32
    modifies dev
    ensures |brb| == g.BrbBytes() && Shows(brb, E.Formatted(g).used)
    ensures Synced(dev, HeadOf(g), E.Formatted(g).tlrm, brb) && OnDisk(dev.blocks, HeadOf(g).blk_root, File(root))
    ensures root.flags == FLAG_DIR && root.mask == OWNER_WRITES && root.fsz == 0 && root.nblk == 0
    ensures root.atime.Time() == root.mtime.Time() == root.ctime.Time() == now
  {
    hide Piece, Shows, E.Formatted, PowerOfTwo;
    E.LayoutFits(g);
    dev.head := HeadOf(g);
    WriteTlrm(dev, g);
    ghost var after := dev.blocks;
    brb := WriteBrb(dev, g);
    var base, n := g.Base(), g.Tlrm();
    forall k: nat | k < n ensures OnDisk(dev.blocks, base + k, Words(Piece(E.Formatted(g).tlrm, k, g.Words()))) {
      assert OnDisk(after, base + k, Words(Piece(E.Formatted(g).tlrm, k, g.Words())));
    }
    root := RootEntry(now);
    dev.Write(base + n + g.Brb(), File(root));
  }

  // ---------- allocating in a mounted volume ----------

  class Volume {
    const g: E.Geo
    const dev: Device
    const tlrm: array<nat>
    const brb: array<bv8>
    var head: Head
    ghost var vol: E.Vol

    /** Memory holds `vol`, and the disk holds what memory does. */
    ghost predicate Valid()
      reads this, dev, tlrm, brb
    {
      && vol.g == g && E.Sized(vol) && dev.nblk == g.nblk
      && brb.Length == g.BrbBytes() && Shows(brb[..], vol.used) && tlrm[..] == vol.tlrm && (tlrm as object) != brb
      && head == HeadOf(g).(nblk_alloc := vol.nalloc)
      && Synced(dev, head, tlrm[..], brb[..])
    }

    /** Mounting reads both maps from the disk. */
    constructor (dev: Device, g: E.Geo, tlrm: seq<nat>, brb: seq<bv8>, ghost vol: E.Vol)
      requires vol.g == g && E.Sized(vol) && dev.nblk == g.nblk && |brb| == g.BrbBytes()
      requires Shows(brb, vol.used) && tlrm == vol.tlrm
      requires Synced(dev, HeadOf(g).(nblk_alloc := vol.nalloc), tlrm, brb)
      ensures Valid() && this.vol == vol && this.dev == dev
    {
      this.g, this.dev, this.vol := g, dev, vol;
      this.tlrm := new nat[|tlrm|](i requires 0 <= i < |tlrm| => tlrm[i]);
      this.brb := new bv8[|brb|](i requires 0 <= i < |brb| => brb[i]);
      head := dev.head;
      new;
      assert this.tlrm[..] == tlrm && this.brb[..] == brb;
    }

    /** The search: the byte and the bit of the lowest clear bit, or a byte past the end. */
    method Find() returns (i: nat, j: nat)
      requires Valid()
      ensures i <= brb.Length && 8 * brb.Length == g.Bits()
      ensures i < brb.Length ==> j < 8 && i * 8 + j == LowestClear(vol.used, 0, 8 * brb.Length)
      ensures i == brb.Length ==> LowestClear(vol.used, 0, 8 * brb.Length) == 8 * brb.Length
    {
      hide Shows, E.Sized, Synced, Bit, LowestClear, E.Geo.Brb, E.Geo.Tlrm, E.Geo.BrbBytes, E.Geo.Counters, PowerOfTwo;
      j := 0;
      i := 0;
      while i < brb.Length
        invariant i <= brb.Length
        invariant LowestClear(vol.used, 0, 8 * brb.Length) == LowestClear(vol.used, 8 * i, 8 * brb.Length)
      {
        j := 0;
        while j < 8
          invariant j <= 8
          invariant LowestClear(vol.used, 0, 8 * brb.Length) == LowestClear(vol.used, 8 * i + j, 8 * brb.Length)
        {
          ShowsSet(brb[..], vol.used, 8 * i + j);
          if !Bit(brb[i], j) { return; }
          j := j + 1;
        }
        i := i + 1;
      }
    }

    /** Set the bit and write the BRB block it is in. */
    method StoreBit(i: nat, j: nat)
      requires Valid() && i < brb.Length && j < 8
      modifies brb, dev`blocks
      ensures brb[..] == old(brb[..])[i := With(old(brb[..])[i], j)]
      ensures BytesAt(dev.blocks, head.blk_brb, head.nblk_brb, brb[..], head.blksz)
      ensures WordsAt(dev.blocks, head.blk_tlrm, head.nblk_tlrm, tlrm[..], head.blksz / 4)
    {
      hide Shows, E.Sized, Piece, With, BytesAt, WordsAt, E.Geo.Brb, E.Geo.Tlrm, E.Geo.BrbBytes, E.Geo.Counters,
        PowerOfTwo;
      ghost var m, was, x := brb[..], dev.blocks, With(brb[i], j);
      Fits();
      InPieces(i, g.Brb(), g.blksz);
      brb[i] := With(brb[i], j);
      assert brb[..] == m[i := x];
      var blk := i / g.blksz;
      dev.Write(head.blk_brb + blk, Bytes(Piece(brb[..], blk, g.blksz)));
      BytesStored(was, head.blk_brb, g.Brb(), m, i, x, g.blksz);
      WordsElsewhere(was, head.blk_tlrm, g.Tlrm(), tlrm[..], g.Words(), head.blk_brb + blk, dev.blocks);
    }

    lemma Fits()
      requires Valid()
      ensures E.Valid(g) && g.Rsvd() <= g.nblk == dev.nblk && tlrm.Length == g.Counters()
      ensures g.BrbBytes() == g.Brb() * g.blksz && g.Counters() == g.Tlrm() * g.Words()
    {
      E.LayoutFits(g);
    }

    /** Count one more block in area `a` and write the TLRM block it is in. */
    method StoreCount(a: nat)
      requires E.Valid(g) && g.Rsvd() <= g.nblk == dev.nblk && tlrm.Length == g.Counters() && a < tlrm.Length
      requires g.Counters() == g.Tlrm() * g.Words()
      requires head == HeadOf(g).(nblk_alloc := head.nblk_alloc) && (tlrm as object) != brb
      requires BytesAt(dev.blocks, head.blk_brb, head.nblk_brb, brb[..], head.blksz)
      requires WordsAt(dev.blocks, head.blk_tlrm, head.nblk_tlrm, tlrm[..], head.blksz / 4)
      modifies tlrm, dev`blocks
      ensures tlrm[..] == E.Bump(old(tlrm[..]), a)
      ensures BytesAt(dev.blocks, head.blk_brb, head.nblk_brb, brb[..], head.blksz)
      ensures WordsAt(dev.blocks, head.blk_tlrm, head.nblk_tlrm, tlrm[..], head.blksz / 4)
    {
      hide Piece, BytesAt, WordsAt, E.Geo.Brb, E.Geo.Tlrm, E.Geo.BrbBytes, E.Geo.Counters, PowerOfTwo;
      ghost var m, was := tlrm[..], dev.blocks;
      tlrm[a] := tlrm[a] + 1;
      assert tlrm[..] == m[a := m[a] + 1];
      var blk := a / (g.blksz / 4);
      InPieces(a, g.Tlrm(), g.Words());
      dev.Write(head.blk_tlrm + blk, Words(Piece(tlrm[..], blk, g.Words())));
      WordsStored(was, head.blk_tlrm, g.Tlrm(), m, a, m[a] + 1, g.Words());
      BytesElsewhere(was, head.blk_brb, g.Brb(), brb[..], g.blksz, head.blk_tlrm + blk, dev.blocks);
    }

    /** alloc_blk. */
    method AllocBlk() returns (b: nat)
      requires Valid()
      modifies this, tlrm, brb, dev
      ensures Valid() && (vol, b) == E.Alloc(old(vol))
    {
      hide Shows, E.Sized, BytesAt, WordsAt, LowestClear, E.Geo.Brb, E.Geo.Tlrm, E.Geo.BrbBytes, E.Geo.Counters,
        PowerOfTwo;
      Fits();
      var i, j := Find();
      if i >= brb.Length { return 0; }
      b := i * 8 + j;
      ShowsSet(brb[..], vol.used, b);
      AreaOfByte(g, i, j);
      SizedAfter(vol, b);
      StoreBit(i, j);
      StoreCount(i / g.blksz);
      head := head.(nblk_alloc := head.nblk_alloc + 1);
      dev.head := head;
      vol := E.Alloc(vol).0;
    }
  }

  lemma SizedAfter(v: E.Vol, b: nat)
    requires E.Sized(v) && b == LowestClear(v.used, 0, v.g.Bits()) < v.g.Bits()
    ensures E.Sized(E.Alloc(v).0) && E.AreaOf(v.g, b) < |v.tlrm|
  {
    E.LayoutFits(v.g);
    E.AreaInRange(v.g, b);
    E.AllocDrift(v, E.AreaOf(v.g, b));
  }

  /** The area of a block is found from the byte its bit is in. */
  lemma AreaOfByte(g: E.Geo, i: nat, j: nat)
    requires g.blksz > 0 && j < 8
    ensures E.AreaOf(g, i * 8 + j) == i / g.blksz
  {
    var q, r := i / g.blksz, i % g.blksz;
    assert i == q * g.blksz + r;
    assert q * g.Area() == 8 * (q * g.blksz);
    NotNegative(i, g.blksz);
    E.DivIs(i * 8 + j, g.Area(), q);
  }

  lemma InPieces(i: nat, n: nat, w: nat)
    requires w > 0 && i < n * w
    ensures 0 <= i / w < n
  {
    NotNegative(i, w);
    E.FewerBlocks(i, w, n);
  }

  lemma BytesStored(m: map<nat, Block>, at: nat, n: nat, s: seq<bv8>, i: nat, x: bv8, w: nat)
    requires BytesAt(m, at, n, s, w) && w > 0 && i < |s| && 0 <= i / w
    ensures BytesAt(m[at + i / w := Bytes(Piece(s[i := x], i / w, w))], at, n, s[i := x], w)
  {
    hide Piece;
    var r := m[at + i / w := Bytes(Piece(s[i := x], i / w, w))];
    var t := s[i := x];
    forall k: nat | k < n ensures OnDisk(r, at + k, Bytes(Piece(t, k, w))) {
      assert OnDisk(m, at + k, Bytes(Piece(s, k, w)));
      if k != i / w { PieceUpdate(s, i, x, k, w); }
    }
  }

  lemma WordsStored(m: map<nat, Block>, at: nat, n: nat, s: seq<nat>, i: nat, x: nat, w: nat)
    requires WordsAt(m, at, n, s, w) && w > 0 && i < |s| && 0 <= i / w
    ensures WordsAt(m[at + i / w := Words(Piece(s[i := x], i / w, w))], at, n, s[i := x], w)
  {
    hide Piece;
    var r := m[at + i / w := Words(Piece(s[i := x], i / w, w))];
    var t := s[i := x];
    forall k: nat | k < n ensures OnDisk(r, at + k, Words(Piece(t, k, w))) {
      assert OnDisk(m, at + k, Words(Piece(s, k, w)));
      if k != i / w { PieceUpdate(s, i, x, k, w); }
    }
  }

  lemma WordsElsewhere(m: map<nat, Block>, at: nat, n: nat, s: seq<nat>, w: nat, a: nat, r: map<nat, Block>)
    requires WordsAt(m, at, n, s, w) && (a < at || a >= at + n) && a in r && r == m[a := r[a]]
    ensures WordsAt(r, at, n, s, w)
  {
    forall k: nat | k < n ensures OnDisk(r, at + k, Words(Piece(s, k, w))) {
      assert OnDisk(m, at + k, Words(Piece(s, k, w)));
    }
  }

  lemma BytesElsewhere(m: map<nat, Block>, at: nat, n: nat, s: seq<bv8>, w: nat, a: nat, r: map<nat, Block>)
    requires BytesAt(m, at, n, s, w) && (a < at || a >= at + n) && a in r && r == m[a := r[a]]
    ensures BytesAt(r, at, n, s, w)
  {
    forall k: nat | k < n ensures OnDisk(r, at + k, Bytes(Piece(s, k, w))) {
      assert OnDisk(m, at + k, Bytes(Piece(s, k, w)));
    }
  }
}
