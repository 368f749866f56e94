/** Bytes of eight bits, as the frame bitmap and the EcFS block bitmap use them. */
module Bits {
  /** 1 << j */
  function Mask(j: nat): bv8
    requires j < 8
  {
    match j
    case 0 => 1
    case 1 => 2
    case 2 => 4
    case 3 => 8
    case 4 => 16
    case 5 => 32
    case 6 => 64
    case _ => 128
  }

  function With(b: bv8, j: nat): bv8
    requires j < 8
  {
    b | Mask(j)
  }

  function Without(b: bv8, j: nat): bv8
    requires j < 8
  {
    b & !Mask(j)
  }

  predicate Bit(b: bv8, j: nat)
    requires j < 8
  {
    b & Mask(j) != 0
  }

  lemma SetBit(b: bv8, j: nat, k: nat)
    requires j < 8 && k < 8
    ensures Bit(With(b, j), k) <==> k == j || Bit(b, k)
  {
  }

  lemma ClearBit(b: bv8, j: nat, k: nat)
    requires j < 8 && k < 8
    ensures Bit(Without(b, j), k) <==> k != j && Bit(b, k)
  {
  }

  /** Bit `f` of a bitmap. */
  predicate On(m: seq<bv8>, f: nat) { f / 8 < |m| && Bit(m[f / 8], f % 8) }

  lemma SetOn(m: seq<bv8>, f: nat, r: seq<bv8>)
    requires f / 8 < |m| && r == m[f / 8 := With(m[f / 8], f % 8)]
    ensures forall g: nat :: On(r, g) <==> g == f || On(m, g)
  {
    hide With, Bit;
    forall g: nat ensures On(r, g) <==> g == f || On(m, g) {
      if g / 8 == f / 8 { SetBit(m[f / 8], f % 8, g % 8); }
    }
  }

  lemma ClearOn(m: seq<bv8>, f: nat, r: seq<bv8>)
    requires f / 8 < |m| && r == m[f / 8 := Without(m[f / 8], f % 8)]
    ensures forall g: nat :: On(r, g) <==> g != f && On(m, g)
  {
    hide Without, Bit;
    forall g: nat ensures On(r, g) <==> g != f && On(m, g) {
      if g / 8 == f / 8 { ClearBit(m[f / 8], f % 8, g % 8); }
    }
  }

  /** The bitmap shows exactly the set `s`. */
  ghost predicate Shows(m: seq<bv8>, s: set<nat>) { forall f: nat :: f in s <==> On(m, f) }

  lemma ShowsSet(m: seq<bv8>, s: set<nat>, f: nat)
    requires Shows(m, s) && f / 8 < |m|
    ensures Shows(m[f / 8 := With(m[f / 8], f % 8)], s + {f})
    ensures f in s <==> Bit(m[f / 8], f % 8)
  {
    hide Bit, With, Without;
    SetOn(m, f, m[f / 8 := With(m[f / 8], f % 8)]);
    assert f in s <==> On(m, f);
  }

  lemma ShowsClear(m: seq<bv8>, s: set<nat>, f: nat)
    requires Shows(m, s) && f / 8 < |m|
    ensures Shows(m[f / 8 := Without(m[f / 8], f % 8)], s - {f})
    ensures f in s <==> Bit(m[f / 8], f % 8)
  {
    hide Bit, With, Without;
    ClearOn(m, f, m[f / 8 := Without(m[f / 8], f % 8)]);
    assert f in s <==> On(m, f);
  }

  /** The lowest number from `i` on that is not in `s`, or `n`. */
  function LowestClear(s: set<nat>, i: nat, n: nat): (f: nat)
    requires i <= n
    ensures i <= f <= n && (f < n ==> f !in s)
    ensures forall g :: i <= g < f ==> g in s
    decreases n - i
  {
    if i == n || i !in s then i else LowestClear(s, i + 1, n)
  }
}
