/** Small datatypes and list helpers shared by the models. */
module Util {
  type Byte = b: int | 0 <= b < 256
  type Bytes = seq<Byte>

  function Min(a: nat, b: nat): nat { if a < b then a else b }

  predicate PowerOfTwo(a: nat) {
    a == 1 || (a % 2 == 0 && a > 0 && PowerOfTwo(a / 2))
  }

  /** ALIGN(x, a) for a power of two `a`: the least multiple of `a` not below `x`. */
  function AlignUp(x: nat, a: nat): nat
    requires a > 0
  {
    (x + a - 1) / a * a
  }

  lemma AlignUpFacts(x: nat, a: nat)
    requires a > 0
    ensures x <= AlignUp(x, a) < x + a && AlignUp(x, a) % a == 0
  {
    var q := (x + a - 1) / a;
    assert x + a - 1 == q * a + (x + a - 1) % a;
    MultipleMod(q, a);
  }

  lemma PowersBy4(a: nat)
    requires PowerOfTwo(a)
    ensures a == 1 || a == 2 || a == 4 * (a / 4)
  {
    if a > 2 { assert PowerOfTwo(a / 2); }
  }

  lemma AlignUpBy4(x: nat, a: nat)
    requires a > 0 && PowerOfTwo(a) && x % 4 == 0
    ensures AlignUp(x, a) % 4 == 0
  {
    hide PowerOfTwo;
    PowersBy4(a);
    if a == 1 {
      assert AlignUp(x, 1) == x;
    } else if a == 2 {
      assert AlignUp(x, 2) == x;
    } else {
      By4((x + a - 1) / a, a / 4);
    }
  }

  lemma By4(q: nat, m: nat)
    ensures (q * (4 * m)) % 4 == 0
  {
    var k := q * m;
    assert q * (4 * m) == 4 * k;
  }

  lemma MultipleMod(q: nat, a: nat)
    requires a > 0
    ensures (q * a) % a == 0
  {
    var d, r := (q * a) / a, (q * a) % a;
    assert q * a == d * a + r;
    Multiples(q, d, a);
  }

  lemma Multiples(q: int, d: int, a: nat)
    requires a > 0 && 0 <= q * a - d * a < a
    ensures q == d
  {
    if q > d {
      AtLeast(q - d, a);
    } else if q < d {
      AtLeast(d - q, a);
    }
  }

  lemma AtLeast(k: nat, a: nat)
    requires k >= 1
    ensures k * a >= a
  {
    if k > 1 {
      AtLeast(k - 1, a);
      assert k * a == (k - 1) * a + a;
    }
  }

  lemma NotNegative(k: nat, a: nat)
    ensures k * a >= 0 && (a > 0 ==> k / a >= 0)
  {
    if a > 0 { assert k == k / a * a + k % a; }
  }

  lemma SubsetSize<T>(a: set<T>, b: set<T>)
    requires a <= b
    ensures |a| <= |b|
  {
    assert b == a + (b - a);
  }

  lemma SubsetEqual<T>(a: set<T>, b: set<T>)
    requires a <= b
    ensures |a| == |b| <==> a == b
  {
    assert b == a + (b - a);
  }

  datatype Option<+T> = None | Some(value: T)

  /** The first position at or after `i` that holds `x`, or the length. */
  function IndexOf<T(==)>(l: seq<T>, x: T, i: nat): (k: nat)
    requires i <= |l|
    ensures i <= k <= |l| && (k < |l| ==> l[k] == x)
    ensures forall j :: i <= j < k ==> l[j] != x
    decreases |l| - i
  {
    if i == |l| || l[i] == x then i else IndexOf(l, x, i + 1)
  }

  /** The list without the first occurrence of `x`. */
  function Remove<T(==)>(l: seq<T>, x: T): (r: seq<T>)
    ensures |r| == if x in l then |l| - 1 else |l|
    ensures forall y :: y in r ==> y in l
    ensures forall y :: y in l && y != x ==> y in r
  {
    var k := IndexOf(l, x, 0);
    if k == |l| then l
    else
      assert forall j :: 0 <= j < |l| && j != k ==> l[j] in l[..k] + l[k+1..] by {
        forall j | 0 <= j < |l| && j != k ensures l[j] in l[..k] + l[k+1..] {
          assert l[j] == (l[..k] + l[k+1..])[if j < k then j else j - 1];
        }
      }
      l[..k] + l[k+1..]
  }

  ghost predicate NoDup<T>(l: seq<T>) {
    forall i, j :: 0 <= i < j < |l| ==> l[i] != l[j]
  }

  /** In a list without repetition, removal cuts out exactly one position. */
  lemma RemoveAt<T>(l: seq<T>, i: nat)
    requires NoDup(l) && i < |l|
    ensures Remove(l, l[i]) == l[..i] + l[i+1..]
  {
    assert IndexOf(l, l[i], 0) == i;
  }

  lemma RemoveNoDup<T>(l: seq<T>, x: T)
    requires NoDup(l)
    ensures NoDup(Remove(l, x)) && x !in Remove(l, x)
  {
  }
}
