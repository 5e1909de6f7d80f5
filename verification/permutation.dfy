/**
 * The `IndexedPermutation` mixing primitive of rng/indexed_permutaion.rs.
 * The trait's one required member, `permute_index`, is a `Permuter`; its
 * two implementors are `Knomul` and `Ksink`. The trait defaults `stir`,
 * `mix` and `hash` take the `Permuter` as their first argument, so they are
 * shared by both variants exactly as in the trait. All arithmetic is on
 * 64-bit words and wraps.
 */
module Permutation {

  /**
   * The constants of rng/constant.rs, which is not part of this model.
   * The values used here are the 64-bit fractional parts of the square
   * roots of 3, 5 and 19; no proof depends on them except `SQRT5 != 0`.
   */
  const SQRT3: bv64 := 0xBB67_AE85_84CA_A73B
  const SQRT5: bv64 := 0x3C6E_F372_FE94_F82B
  const SQRT19: bv64 := 0x5BE0_CD19_137E_2179

  /** A `permute_index(x, c)` implementation. */
  type Permuter = (bv64, bv64) -> bv64

  /** One round of `KNOMUL::permute_index`, `i` being the round number. */
  function KnomulRound(x: bv64, c: bv64, i: bv64): (bv64, bv64)
  {
    var x1 := x ^ (x.RotateRight(25) ^ x.RotateRight(49));
    var c1 := c + (SQRT3 + (c << 15) + (c << 7) + i);
    var c2 := c1 ^ ((c1 >> 47) ^ (c1 >> 23));
    var x2 := x1 + c2;
    (x2 ^ ((x2 >> 11) ^ (x2 >> 3)), c2)
  }

  /** One round of `KSINK::permute_index`. */
  function KsinkRound(x: bv64, c: bv64): (bv64, bv64)
  {
    var c1 := c + SQRT3;
    var c2 := c1 ^ (c1.RotateRight(49) ^ c1.RotateRight(25));
    var x1 := x ^ ((x >> 47) ^ (x >> 29));
    var x2 := x1 + c2;
    (x2 * SQRT19, c2 * SQRT5)
  }

  /** `KNOMUL::permute_index`: rounds 0 to 4. */
  function Knomul(x: bv64, c: bv64): bv64
  {
    var r0 := KnomulRound(x, c, 0);
    var r1 := KnomulRound(r0.0, r0.1, 1);
    var r2 := KnomulRound(r1.0, r1.1, 2);
    var r3 := KnomulRound(r2.0, r2.1, 3);
    KnomulRound(r3.0, r3.1, 4).0
  }

  /** `KSINK::permute_index`: three rounds. */
  function Ksink(x: bv64, c: bv64): bv64
  {
    var r0 := KsinkRound(x, c);
    var r1 := KsinkRound(r0.0, r0.1);
    KsinkRound(r1.0, r1.1).0
  }

  // ---------------------------------------------------------------------------
  // Bitwise AND on machine indices
  // ---------------------------------------------------------------------------

  /** Bitwise AND of two non-negative integers, bit by bit from the lowest. */
  function BitAnd(a: nat, b: nat): (r: nat)
    ensures r <= a && r <= b
    decreases a
  {
    if a == 0 || b == 0 then 0
    else 2 * BitAnd(a / 2, b / 2) + (if a % 2 == 1 && b % 2 == 1 then 1 else 0)
  }

  lemma {:induction false} BitAndSelf(a: nat)
    ensures BitAnd(a, a) == a
    decreases a
  {
    if a != 0 {
      BitAndSelf(a / 2);
    }
  }

  lemma DoubleMod(x: nat, m: nat)
    requires m >= 1
    ensures 2 * ((x / 2) % m) + x % 2 == x % (2 * m)
  {
    var q := x / 2;
    var k := q / m;
    var r := q % m;
    assert q == m * k + r;
    assert x == 2 * q + x % 2;
    assert x == (2 * m) * k + (2 * r + x % 2);
    assert 0 <= 2 * r + x % 2 < 2 * m;
    ModUnique(x, 2 * m, k, 2 * r + x % 2);
  }

  lemma MulAtLeast(d: nat, e: nat)
    requires e >= 1
    ensures d * e >= d
  {
  }

  /** The remainder is the unique `rem < d` with `x == d * k + rem`. */
  lemma ModUnique(x: nat, d: nat, k: nat, rem: nat)
    requires d >= 1 && rem < d && x == d * k + rem
    ensures x % d == rem
  {
    var q := x / d;
    assert x == d * q + x % d;
    if k > q {
      MulAtLeast(d, k - q);
      assert false;
    } else if k < q {
      MulAtLeast(d, q - k);
      assert false;
    }
  }

  /**
   * When `n & (n - 1) == 0` (n is a power of two), masking with `n - 1` is
   * reduction modulo `n`.
   */
  lemma {:induction false} MaskIsMod(n: nat, x: nat)
    requires n >= 1 && BitAnd(n, n - 1) == 0
    ensures BitAnd(x, n - 1) == x % n
    decreases n
  {
    if n == 1 {
    } else if n % 2 == 1 {
      OddMask(n);
      assert false;
    } else {
      var m := n / 2;
      HalfOfOddBelow(n);
      AndOdd(n, n - 1);
      AndOdd(x, n - 1);
      MaskIsMod(m, x / 2);
      DoubleMod(x, m);
    }
  }

  /** An odd `n >= 3` shares its top bits with `n - 1`, so the two overlap. */
  lemma OddMask(n: nat)
    requires n >= 3 && n % 2 == 1
    ensures BitAnd(n, n - 1) != 0
  {
    var m := n / 2;
    assert BitAnd(n, n - 1) == 2 * BitAnd(m, m);
    BitAndSelf(m);
  }

  /** Below an even `n` lies an odd number whose half is one less than half of `n`. */
  lemma HalfOfOddBelow(n: nat)
    requires n >= 2 && n % 2 == 0
    ensures (n - 1) % 2 == 1 && (n - 1) / 2 == n / 2 - 1
  {
    var m := n / 2;
    assert n == 2 * m;
    ModUnique(n - 1, 2, m - 1, 1);
  }

  /** Masking with an odd `k` keeps the low bit and masks the rest with `k / 2`. */
  lemma AndOdd(x: nat, k: nat)
    requires k % 2 == 1
    ensures BitAnd(x, k) == 2 * BitAnd(x / 2, k / 2) + x % 2
  {
    if x == 0 {
      assert BitAnd(0, k / 2) == 0;
    } else {
      assert BitAnd(x, k) == 2 * BitAnd(x / 2, k / 2) + (if x % 2 == 1 && k % 2 == 1 then 1 else 0);
    }
  }

  // ---------------------------------------------------------------------------
  // stir
  // ---------------------------------------------------------------------------

  /**
   * The index of the left neighbour of slot `i` in a slice of length `n`,
   * computed as `stir` does: `% n` in general, `& (n - 1)` when n is a
   * power of two.
   */
  function LeftIndex(i: nat, n: nat): (r: nat)
    requires n >= 2
    ensures r < n
  {
    if BitAnd(n, n - 1) != 0 then (i + n - 1) % n else BitAnd(i + n - 1, n - 1)
  }

  /** Both branches of `LeftIndex` agree: the neighbour is `(i + n - 1) mod n`. */
  lemma LeftIndexIsMod(i: nat, n: nat)
    requires n >= 2
    ensures LeftIndex(i, n) == (i + n - 1) % n
  {
    if BitAnd(n, n - 1) == 0 {
      MaskIsMod(n, i + n - 1);
    }
  }

  /** Slot 0's left neighbour is the last slot, slot i's is slot i - 1. */
  lemma LeftNeighbour(i: nat, n: nat)
    requires 2 <= n && i < n
    ensures LeftIndex(i, n) == if i == 0 then n - 1 else i - 1
  {
    LeftIndexIsMod(i, n);
    if i == 0 {
      ModUnique(n - 1, n, 0, n - 1);
    } else {
      ModUnique(i + n - 1, n, 1, i - 1);
    }
  }

  /** Slots `i ..` of one in-place pass: slot i is permuted against its left neighbour. */
  function PassFrom(perm: Permuter, s: seq<bv64>, i: nat): (r: seq<bv64>)
    requires |s| >= 2 && i <= |s|
    ensures |r| == |s|
    decreases |s| - i
  {
    if i == |s| then s
    else PassFrom(perm, s[i := perm(s[i], s[LeftIndex(i, |s|)])], i + 1)
  }

  predicate AllZero(s: seq<bv64>)
  {
    forall k :: 0 <= k < |s| ==> s[k] == 0
  }

  /** One of the two passes of `stir` for `n >= 2`, with its all-zero safeguard. */
  function StirPass(perm: Permuter, s: seq<bv64>, disallowAllZeros: bool): (r: seq<bv64>)
    requires |s| >= 2
    ensures |r| == |s|
    ensures disallowAllZeros ==> !AllZero(r)
  {
    var p := PassFrom(perm, s, 0);
    if disallowAllZeros && AllZero(p) then
      assert p[0 := SQRT5][0] != 0;
      p[0 := SQRT5]
    else p
  }

  /** `stir(s, dissallow_all_zeros)`. */
  function Stir(perm: Permuter, s: seq<bv64>, disallowAllZeros: bool): (r: seq<bv64>)
    ensures |r| == |s|
    ensures |s| >= 2 && disallowAllZeros ==> !AllZero(r)
  {
    if |s| == 0 then s
    else if |s| == 1 then
      var t := perm(s[0], SQRT19);
      [if disallowAllZeros && t == 0 then perm(0, SQRT5) else t]
    else StirPass(perm, StirPass(perm, s, disallowAllZeros), disallowAllZeros)
  }

  /**
   * A one-word slice is permuted against `SQRT19`; with the guard on, a
   * zero result is replaced by the permutation of 0 against `SQRT5`.
   */
  lemma StirOne(perm: Permuter, x: bv64, disallowAllZeros: bool)
    ensures |Stir(perm, [x], disallowAllZeros)| == 1
    ensures !(disallowAllZeros && perm(x, SQRT19) == 0) ==> Stir(perm, [x], disallowAllZeros)[0] == perm(x, SQRT19)
    ensures disallowAllZeros && perm(x, SQRT19) == 0 ==> Stir(perm, [x], disallowAllZeros)[0] == perm(0, SQRT5)
  {
  }

  /** The effect of the sequential pass from slot `i` on a partly updated slice. */
  lemma {:induction false} PassFromEffect(perm: Permuter, t: seq<bv64>, i: nat)
    requires |t| >= 2 && i <= |t|
    ensures forall k :: 0 <= k < i ==> PassFrom(perm, t, i)[k] == t[k]
    ensures i == 0 ==> PassFrom(perm, t, i)[0] == perm(t[0], t[|t| - 1])
    ensures forall k {:trigger t[k]} :: i <= k < |t| && 1 <= k ==>
      PassFrom(perm, t, i)[k] == perm(t[k], PassFrom(perm, t, i)[k - 1])
    decreases |t| - i
  {
    var n := |t|;
    if i < n {
      LeftNeighbour(i, n);
      var l := LeftIndex(i, n);
      var t' := t[i := perm(t[i], t[l])];
      PassFromEffect(perm, t', i + 1);
      var r := PassFrom(perm, t', i + 1);
      assert PassFrom(perm, t, i) == r;
      assert r[i] == t'[i];
      if i == 0 {
        assert l == n - 1;
      } else {
        assert l == i - 1;
        assert r[i - 1] == t'[i - 1];
      }
      forall k | i + 1 <= k < n
        ensures r[k] == perm(t[k], r[k - 1])
      {
        assert t'[k] == t[k];
        assert r[k] == perm(t'[k], r[k - 1]);
      }
    }
  }

  /**
   * One pass of `stir`: slot 0 is permuted against the old last slot, and
   * each later slot against the already updated slot before it.
   */
  lemma PassSpec(perm: Permuter, s: seq<bv64>)
    requires |s| >= 2
    ensures PassFrom(perm, s, 0)[0] == perm(s[0], s[|s| - 1])
    ensures forall k {:trigger s[k]} :: 1 <= k < |s| ==>
      PassFrom(perm, s, 0)[k] == perm(s[k], PassFrom(perm, s, 0)[k - 1])
  {
    PassFromEffect(perm, s, 0);
  }

  /** `stir` on the empty slice leaves it unchanged. */
  lemma StirEmpty(perm: Permuter, disallowAllZeros: bool)
    ensures Stir(perm, [], disallowAllZeros) == []
  {
  }

  // ---------------------------------------------------------------------------
  // mix and hash
  // ---------------------------------------------------------------------------

  /** The slice `mix` writes before stirring: `x, x + 1, x + 2, ...` (wrapping). */
  function Counting(x: bv64, n: nat): (r: seq<bv64>)
    ensures |r| == n
    ensures n > 0 ==> r[0] == x
    ensures forall i :: 0 <= i < n - 1 ==> r[i + 1] == WrappingInc(r[i])
    decreases n
  {
    if n == 0 then [] else [x] + Counting(WrappingInc(x), n - 1)
  }

  /** `x + 1` on a 64-bit word, wrapping. */
  function WrappingInc(x: bv64): bv64
  {
    x + 1
  }

  /** `mix(s, seed)` for a slice of length `n`. */
  function Mix(perm: Permuter, n: nat, seed: bv64): (r: seq<bv64>)
    ensures |r| == n
    ensures n >= 2 ==> !AllZero(r)
  {
    Stir(perm, Counting(seed, n), true)
  }

  /** A three-word mix has a non-zero word. */
  lemma MixThreeNonZero(perm: Permuter, seed: bv64)
    ensures var s := Mix(perm, 3, seed); s[0] != 0 || s[1] != 0 || s[2] != 0
  {
    var s := Mix(perm, 3, seed);
    assert !AllZero(s);
  }

  /** `hash(seed, bytes)`: a left fold of `permute_index(byte, acc)` from `seed`. */
  function Hash(perm: Permuter, seed: bv64, bytes: seq<bv8>): (r: bv64)
    ensures |bytes| == 0 ==> r == seed
    decreases |bytes|
  {
    if |bytes| == 0 then seed
    else Hash(perm, perm(bytes[0] as bv64, seed), bytes[1..])
  }

  /** Hashing a concatenation continues from the hash of the first part. */
  lemma {:induction false} HashAppend(perm: Permuter, seed: bv64, a: seq<bv8>, b: seq<bv8>)
    ensures Hash(perm, seed, a + b) == Hash(perm, Hash(perm, seed, a), b)
    decreases |a|
  {
    if |a| != 0 {
      assert (a + b)[1..] == a[1..] + b;
      HashAppend(perm, perm(a[0] as bv64, seed), a[1..], b);
    } else {
      assert a + b == b;
    }
  }

  /** Each further byte is folded in as `permute_index(byte, accumulator)`. */
  lemma HashSnoc(perm: Permuter, seed: bv64, a: seq<bv8>, x: bv8)
    ensures Hash(perm, seed, a + [x]) == perm(x as bv64, Hash(perm, seed, a))
  {
    HashAppend(perm, seed, a, [x]);
  }
}
