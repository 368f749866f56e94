/**
 * An EcFS volume on values: the layout tools/mkecfs.c gives it and the block allocator of
 * tools/mntecfs.c. `Ecfs` (Ecfs.dfy) has the loops and the disk.
 */
module EcfsSpec {
  import opened Util
  import opened Bits

  /** `blksz` is the block size, `nblk` the number of blocks in the volume. */
  datatype Geo = Geo(blksz: nat, nblk: nat) {
    function Base(): nat { if blksz == 1024 then 2 else 1 }         // blocks up to and with the head block
    function Area(): nat { blksz * 8 }                              // blocks one BRB block stands for
    function Words(): nat { blksz / 4 }                             // counters in one TLRM block
    function Brb(): nat requires blksz > 0 { (nblk + Area() - 1) / Area() }
    function Tlrm(): nat requires blksz >= 4 { (Brb() + Words() - 1) / Words() }
    function Rsvd(): nat requires blksz >= 4 { Base() + Tlrm() + Brb() + 1 }
    function BrbBytes(): nat requires blksz > 0 { Brb() * blksz }
    function Bits(): nat requires blksz > 0 { 8 * BrbBytes() }
    function Counters(): nat requires blksz >= 4 { Tlrm() * Words() }
  }

  /** What main of mkecfs lets through: see `Accepts`. */
  ghost predicate Valid(g: Geo) { PowerOfTwo(g.blksz) && g.blksz >= 1024 && g.nblk >= g.Base() + 3 }

  /** The checks of main: block size, size of the device `fsz`, and the partition start. */
  predicate Accepts(blksz: nat, fsz: nat, mbr: bool, start: nat) {
    var nreq := (if blksz == 1024 then 2 else 1) + 3;
    && blksz >= 1024 && PowerOfTwo(blksz)
    && (mbr ==> start > 0) && (!mbr ==> start == 0)
    && fsz >= blksz * nreq && fsz < blksz * 0x1_0000_0000
    && (mbr ==> (start + nreq) * blksz <= fsz)
  }

  /** The formula of genfs rounds up to whole areas, and whole TLRM blocks. */
  lemma RoundsUp(x: nat, a: nat)
    requires a > 0
    ensures AlignUp(x, a) / a == (x + a - 1) / a
  {
    var q := (x + a - 1) / a;
    MultipleMod(q, a);
    assert q * a == (q * a) / a * a + (q * a) % a;
    Multiples(q, (q * a) / a, a);
  }

  lemma CeilFacts(x: nat, a: nat)
    requires a > 0
    ensures var c := (x + a - 1) / a; x <= c * a && (x > 0 ==> c > 0 && (c - 1) * a < x)
  {
    var c := (x + a - 1) / a;
    assert x + a - 1 == c * a + (x + a - 1) % a;
    assert (c - 1) * a == c * a - a;
  }

  /** mkecfs accepts a device exactly if, after the start of the partition, it has at least the
      minimum of blocks, and fewer than 2^32 in all. */
  lemma AcceptsIff(blksz: nat, fsz: nat, mbr: bool, start: nat)
    requires blksz > 0
    ensures Accepts(blksz, fsz, mbr, start) <==>
              && (mbr <==> start > 0) && start <= fsz / blksz < 0x1_0000_0000
              && Valid(Geo(blksz, fsz / blksz - start))
  {
    hide PowerOfTwo;
    var nreq := (if blksz == 1024 then 2 else 1) + 3;
    QuotientIff(fsz, blksz, start + nreq);
    QuotientIff(fsz, blksz, nreq);
    QuotientIff(fsz, blksz, 0x1_0000_0000);
  }

  lemma QuotientIff(x: nat, a: nat, k: nat)
    requires a > 0
    ensures k * a <= x <==> k <= x / a
  {
    if k * a <= x { AtLeastBlocks(x, a, k); }
    else { FewerBlocks(x, a, k); }
  }

  /** In particular the volume that follows has room for what genfs puts there. */
  lemma AcceptedIsValid(blksz: nat, fsz: nat, mbr: bool, start: nat)
    requires Accepts(blksz, fsz, mbr, start)
    ensures start <= fsz / blksz && Valid(Geo(blksz, fsz / blksz - start)) && fsz / blksz < 0x1_0000_0000
  {
    AcceptsIff(blksz, fsz, mbr, start);
  }

  /** The quotient is the one number that fits. */
  lemma DivIs(x: nat, a: nat, q: nat)
    requires a > 0 && q * a <= x < q * a + a
    ensures x / a == q
  {
    assert x == x / a * a + x % a;
    if x / a > q { AtLeast(x / a - q, a); }
    if x / a < q { AtLeast(q - x / a, a); }
  }

  lemma AtLeastBlocks(x: nat, a: nat, k: nat)
    requires a > 0 && k * a <= x
    ensures k <= x / a
  {
    if x / a < k {
      assert x == x / a * a + x % a;
      AtLeast(k - x / a, a);
    }
  }

  lemma FewerBlocks(x: nat, a: nat, k: nat)
    requires a > 0 && x < k * a
    ensures x / a < k
  {
  }

  // ---------- the layout ----------

  /** Head, TLRM, BRB and root follow each other without gap or overlap and fit in the volume,
      and the BRB has a bit for every block, the TLRM a counter for every area. */
  lemma LayoutFits(g: Geo)
    requires Valid(g)
    ensures g.Rsvd() <= g.nblk && g.nblk <= g.Bits() && g.Brb() <= g.Counters()
    ensures g.Tlrm() > 0 && g.Brb() > 0
    ensures g.Rsvd() == (g.Base() + g.Tlrm()) + g.Brb() + 1
  {
    CeilFacts(g.nblk, g.Area());
    assert g.Bits() == g.Brb() * g.Area();
    CeilFacts(g.Brb(), g.Words());
    FewTables(g.Brb(), g.Words());
    FewAreas(g);
  }

  lemma FewTables(n: nat, w: nat)
    requires n > 0 && w > 0
    ensures (n + w - 1) / w <= n
  {
    var c := (n + w - 1) / w;
    CeilFacts(n, w);
    if c > n {
      AtLeast(w, 1);
      assert (c - 1) * w >= c - 1 by { Grows(c - 1, w); }
    }
  }

  lemma Grows(k: nat, w: nat)
    requires w > 0
    ensures k * w >= k
  {
    if k > 0 {
      Grows(k - 1, w);
      assert k * w == (k - 1) * w + w;
    }
  }

  /** Areas are so large that the maps stay small. */
  lemma FewAreas(g: Geo)
    requires Valid(g)
    ensures g.Brb() == 1 || 2 * g.Brb() + 3 <= g.nblk
  {
    CeilFacts(g.nblk, g.Area());
    var c := g.Brb();
    if c > 1 {
      Larger(c - 1, g.Area());
    }
  }

  lemma Larger(k: nat, a: nat)
    requires k >= 1 && a >= 8192
    ensures k * a >= 8192 * k
  {
    if k > 1 {
      Larger(k - 1, a);
      assert k * a == (k - 1) * a + a;
    }
  }

  // ---------- formatting ----------

  datatype Vol = Vol(g: Geo, used: set<nat>, tlrm: seq<nat>, nalloc: nat)

  /** The countdown of genfs gives each counter at most `w` of the reserved blocks. */
  function Chunk(rsvd: nat, w: nat, a: nat): nat { if rsvd <= a * w then 0 else Min(rsvd - a * w, w) }

  function Below(n: nat): (s: set<nat>)
    ensures forall p: nat :: p in s <==> p < n
    ensures |s| == n
  {
    if n == 0 then {} else Below(n - 1) + {n - 1}
  }

  function Formatted(g: Geo): Vol
    requires Valid(g)
  {
    var r := g.Rsvd();
    Vol(g, Below(r), seq(g.Counters(), a requires a >= 0 => Chunk(r, g.Words(), a)), r)
  }

  // ---------- what the three structures should say ----------

  /** The area block `f` is in. */
  function AreaOf(g: Geo, f: nat): nat
    requires g.blksz > 0
  {
    NotNegative(f, g.Area());
    f / g.Area()
  }

  /** The allocated blocks of area `a`. */
  function InArea(g: Geo, used: set<nat>, a: nat): set<nat>
    requires g.blksz > 0
  {
    set p | p in used && AreaOf(g, p) == a
  }

  /** How far TLRM[a] is off. */
  function Drift(v: Vol, a: nat): int
    requires v.g.blksz > 0 && a < |v.tlrm|
  {
    v.tlrm[a] - |InArea(v.g, v.used, a)|
  }

  /** The maps have their sizes, nblk_alloc counts all bits, and no bit is outside. */
  ghost predicate Sized(v: Vol) {
    && Valid(v.g) && v.nalloc == |v.used| && |v.tlrm| == v.g.Counters()
    && (forall p :: p in v.used ==> p < v.g.Bits())
  }

  /** And TLRM[a] counts the bits of area `a`. */
  ghost predicate Counted(v: Vol) {
    Sized(v) && forall a: nat :: a < |v.tlrm| ==> Drift(v, a) == 0
  }

  lemma FirstArea(p: nat, a: nat)
    requires a > 0
    ensures p / a == 0 <==> p < a
  {
    var q := p / a;
    assert p == q * a + p % a;
    if p < a { Multiples(q, 0, a); } else { Whole(q, a, p); }
  }

  lemma Whole(q: nat, a: nat, p: nat)
    requires a > 0 && a <= p < q * a + a
    ensures q > 0
  {
  }

  lemma AreaBelow(g: Geo, r: nat)
    requires Valid(g) && r <= g.Area()
    ensures InArea(g, Below(r), 0) == Below(r)
    ensures forall a :: a > 0 ==> InArea(g, Below(r), a) == {}
  {
    forall p | p in Below(r) ensures AreaOf(g, p) == 0 { FirstArea(p, g.Area()); }
  }

  lemma AreaFull(g: Geo, r: nat)
    requires Valid(g) && r >= g.Area()
    ensures |InArea(g, Below(r), 0)| >= g.Area()
  {
    forall p | p in Below(g.Area()) ensures p in InArea(g, Below(r), 0) { FirstArea(p, g.Area()); }
    SubsetSize(Below(g.Area()), InArea(g, Below(r), 0));
  }

  lemma ChunkZero(r: nat, w: nat, a: nat)
    requires r <= w && a > 0
    ensures Chunk(r, w, a) == 0
  {
    AtLeast(a, w);
  }

  /** The freshly formatted maps count correctly if and only if the reserved blocks do not
      exceed the number of counters in a TLRM block: the countdown uses that number where it
      should use the size of an area. */
  lemma FormattedIff(g: Geo)
    requires Valid(g)
    ensures Sized(Formatted(g)) && |Formatted(g).tlrm| > 0
    ensures Drift(Formatted(g), 0) == 0 <==> g.Rsvd() <= g.Words()
    ensures Counted(Formatted(g)) <==> g.Rsvd() <= g.Words()
  {
    var v, r, w := Formatted(g), g.Rsvd(), g.Words();
    LayoutFits(g);
    Grows(g.Tlrm(), w);
    assert v.tlrm[0] == Chunk(r, w, 0);
    if r <= w {
      AreaBelow(g, r);
      forall a: nat | a < |v.tlrm| ensures Drift(v, a) == 0 {
        if a > 0 { ChunkZero(r, w, a); }
      }
    } else {
      if r >= g.Area() { AreaFull(g, r); } else { AreaBelow(g, r); }
      assert Drift(v, 0) != 0;
    }
  }

  // ---------- allocating ----------

  function Bump(s: seq<nat>, i: nat): seq<nat> { if i < |s| then s[i := s[i] + 1] else s }

  /** alloc_blk: block 0 means the bitmap is full. */
  function Alloc(v: Vol): (Vol, nat)
    requires v.g.blksz > 0
  {
    var n := v.g.Bits();
    var f := LowestClear(v.used, 0, n);
    if f == n then (v, 0)
    else (Vol(v.g, v.used + {f}, Bump(v.tlrm, AreaOf(v.g, f)), v.nalloc + 1), f)
  }

  lemma AreaInRange(g: Geo, f: nat)
    requires Valid(g) && f < g.Bits()
    ensures AreaOf(g, f) < g.Brb() <= g.Counters()
  {
    LayoutFits(g);
    assert g.Bits() == g.Brb() * g.Area();
    FewerBlocks(f, g.Area(), g.Brb());
  }

  lemma AreaGains(g: Geo, used: set<nat>, f: nat, a: nat)
    requires g.blksz > 0 && f !in used
    ensures |InArea(g, used + {f}, a)| == |InArea(g, used, a)| + if AreaOf(g, f) == a then 1 else 0
  {
    assert InArea(g, used + {f}, a) == if AreaOf(g, f) == a then InArea(g, used, a) + {f} else InArea(g, used, a);
  }

  /** Allocating never moves a counter away from its area, nor back. */
  lemma AllocDrift(v: Vol, a: nat)
    requires Sized(v) && a < |v.tlrm|
    ensures Sized(Alloc(v).0) && |Alloc(v).0.tlrm| == |v.tlrm| && Drift(Alloc(v).0, a) == Drift(v, a)
  {
    hide InArea;
    var f := LowestClear(v.used, 0, v.g.Bits());
    if f < v.g.Bits() {
      AreaInRange(v.g, f);
      AreaGains(v.g, v.used, f, a);
    }
  }

  /** An allocation returns the lowest block whose bit is clear, and keeps the counts. */
  lemma AllocKeeps(v: Vol)
    requires Counted(v)
    ensures var n, (r, f) := v.g.Bits(), Alloc(v);
      && Counted(r) && r.g == v.g
      && (if r == v then f == 0 && forall p: nat :: p < n ==> p in v.used
          else f < n && f !in v.used && r.used == v.used + {f} && forall p: nat :: p < f ==> p in v.used)
  {
    hide Drift;
    LayoutFits(v.g);
    Grows(v.g.Tlrm(), v.g.Words());
    AllocDrift(v, 0);
    forall a: nat | a < |v.tlrm| ensures Drift(Alloc(v).0, a) == Drift(v, a) { AllocDrift(v, a); }
  }

  /** The block returned is one of the volume's if and only if one of them is still free. */
  lemma AllocInVolume(v: Vol)
    requires Counted(v) && (forall p :: p in v.used ==> p < v.g.nblk)
    ensures var (r, f) := Alloc(v); r != v && f < v.g.nblk <==> v.nalloc < v.g.nblk
  {
    LayoutFits(v.g);
    var n := v.g.Bits();
    var f := LowestClear(v.used, 0, n);
    SubsetSize(v.used, Below(v.g.nblk));
    if v.nalloc < v.g.nblk {
      if f >= v.g.nblk {
        SubsetSize(Below(v.g.nblk), v.used);
        assert false;
      }
    } else {
      SubsetEqual(v.used, Below(v.g.nblk));
    }
  }

  /** `n` allocations in a row. */
  function AllocMany(v: Vol, n: nat): Vol
    requires v.g.blksz > 0
    decreases n
  {
    if n == 0 then v else AllocMany(Alloc(v).0, n - 1)
  }

  lemma {:induction false} ManyDrift(v: Vol, n: nat, a: nat)
    requires Sized(v) && a < |v.tlrm|
    ensures var r := AllocMany(v, n); Sized(r) && |r.tlrm| == |v.tlrm| && Drift(r, a) == Drift(v, a)
    decreases n
  {
    if n > 0 {
      AllocDrift(v, a);
      ManyDrift(Alloc(v).0, n - 1, a);
    }
  }

  /** After formatting and any number of allocations the three structures agree if and only if
      the reserved blocks fit the counters of one TLRM block. */
  lemma FormatThenAllocate(g: Geo, n: nat)
    requires Valid(g)
    ensures Sized(AllocMany(Formatted(g), n))
    ensures Counted(AllocMany(Formatted(g), n)) <==> g.Rsvd() <= g.Words()
  {
    hide Drift;
    FormattedIff(g);
    var v, r := Formatted(g), AllocMany(Formatted(g), n);
    ManyDrift(v, n, 0);
    forall a: nat | a < |v.tlrm| ensures Drift(r, a) == Drift(v, a) { ManyDrift(v, n, a); }
  }

  lemma K1024()
    ensures PowerOfTwo(1024)
  {
    assert PowerOfTwo(16) && PowerOfTwo(64);
    assert PowerOfTwo(256) && PowerOfTwo(1024);
  }

  /** A device just under 2 GiB with 1024-byte blocks is accepted, and its reserved blocks do not
      fit the one counter block that mkecfs fills in: its first counter is wrong from the start. */
  lemma MiscountedDevice()
    ensures Accepts(1024, 1024 * 2064385, false, 0)
    ensures var g := Geo(1024, 1024 * 2064385 / 1024); Valid(g) && g.Rsvd() == 257 > g.Words() && !Counted(Formatted(g))
  {
    hide PowerOfTwo, Counted, Formatted, Drift;
    K1024();
    var g := Geo(1024, 2064385);
    FormattedIff(g);
    assert g.Brb() == 253 && g.Tlrm() == 1;
  }
}
