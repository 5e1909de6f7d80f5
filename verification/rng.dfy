/**
 * The Konadare192PxPlusPlus generator of rng/konadare192pxplusplus.rs: a
 * three-word state seeded through `KNOMUL::mix`, a 64-bit output step, and
 * the Lemire/Evensen multiply-shift draw below an upper bound.
 */
module Konadare {
  import opened Permutation

  /** `KONADARE192_INC`, the odd increment of the `a` word. */
  const INC: bv64 := 0xBB67_AE85_84CA_A73B

  /** 2^32: the modulus of the source's `u32` arithmetic. */
  const U32: nat := 0x1_0000_0000

  /** 2^31: candidates are the low 31 bits of an output. */
  const U31: nat := 0x8000_0000

  /**
   * How many redraws the model performs before accepting the current
   * candidate; the source redraws without bound.
   */
  const REDRAW_LIMIT: nat := 0x1_0000_0000_0000_0000

  datatype Rng = Rng(a: bv64, b: bv64, c: bv64)

  /** An output of `next` and the state after it. */
  datatype Draw = Draw(value: bv64, rng: Rng)

  /** An output of `next_with_upper_bound` and the state after it. */
  datatype Bounded = Bounded(value: nat, rng: Rng)

  /** `from_seed`: the state words are `KNOMUL::mix` of a three-word slice. */
  function FromSeed(seed: bv64): (r: Rng)
    ensures var s := Mix(Knomul, 3, seed); r.a == s[0] && r.b == s[1] && r.c == s[2]
    ensures r.a != 0 || r.b != 0 || r.c != 0
  {
    var s := Mix(Knomul, 3, seed);
    MixThreeNonZero(Knomul, seed);
    Rng(s[0], s[1], s[2])
  }

  function XorHigh(a: bv64): bv64
  {
    a ^ (a >> 32)
  }

  function AddRotate11(x: bv64, y: bv64): bv64
  {
    (x + y).RotateRight(11)
  }

  function AddRotate56(x: bv64, y: bv64): bv64
  {
    (x + y).RotateRight(56)
  }

  /** `next`: the output is `b ^ c` of the state before the update. */
  function Next(r: Rng): (d: Draw)
    ensures d.value == r.b ^ r.c
    ensures d.rng.a == r.a + INC
    ensures d.rng.b == AddRotate11(r.b, XorHigh(r.a))
    ensures d.rng.c == AddRotate56(r.c, d.rng.b)
  {
    var b := AddRotate11(r.b, XorHigh(r.a));
    Draw(r.b ^ r.c, Rng(r.a + INC, b, AddRotate56(r.c, b)))
  }

  /**
   * A generator step, as `next` is one.  The stream and rejection-loop
   * functions below are written over the step they draw with and are used
   * with `Next`.
   */
  type Step = Rng -> Draw

  /** The state after `n` steps. */
  function Advance(step: Step, r: Rng, n: nat): Rng
    decreases n
  {
    if n == 0 then r else Advance(step, step(r).rng, n - 1)
  }

  /** The first `n` outputs. */
  function Stream(step: Step, r: Rng, n: nat): (s: seq<bv64>)
    ensures |s| == n
    decreases n
  {
    if n == 0 then [] else [step(r).value] + Stream(step, step(r).rng, n - 1)
  }

  /** Running `n + m` steps is running `n` steps and then `m`. */
  lemma {:induction false} AdvanceSplit(step: Step, r: Rng, n: nat, m: nat)
    ensures Advance(step, r, n + m) == Advance(step, Advance(step, r, n), m)
    decreases n
  {
    if n != 0 {
      AdvanceSplit(step, step(r).rng, n - 1, m);
    }
  }

  /**
   * The output stream is a function of the state and the call count: the
   * first `n + m` outputs are the first `n`, then the first `m` of the
   * state `n` calls later.
   */
  lemma {:induction false} StreamSplit(step: Step, r: Rng, n: nat, m: nat)
    ensures Stream(step, r, n + m) == Stream(step, r, n) + Stream(step, Advance(step, r, n), m)
    decreases n
  {
    if n != 0 {
      StreamSplit(step, step(r).rng, n - 1, m);
    }
  }

  // ---------------------------------------------------------------------------
  // next_with_upper_bound
  // ---------------------------------------------------------------------------

  /** A candidate: the low 31 bits of an output, `next() & ((1 << 31) - 1)`. */
  function Candidate(out: bv64): (x: nat)
    ensures x < U31
  {
    (out as int) % U31
  }

  /** `l = x * upper_bound` as a wrapped `u32` product. */
  function Low(x: nat, ub: nat): nat
  {
    (x * ub) % U32
  }

  /** `(m >> 32)` where `m = x as u64 * ((upper_bound as u64) << 1)`. */
  function High(x: nat, ub: nat): nat
  {
    (x * (2 * ub)) / U32
  }

  /** The rejection threshold `(!upper_bound + 1) % upper_bound`, i.e. `(2^32 - ub) mod ub`. */
  function Threshold(ub: nat): (t: nat)
    requires 1 <= ub < U32
    ensures t < ub
  {
    (U32 - ub) % ub
  }

  lemma HighBelow(x: nat, ub: nat)
    requires x < U31
    ensures ub >= 1 ==> High(x, ub) < ub
    ensures ub == 0 ==> High(x, ub) == 0
  {
    if ub >= 1 {
      assert x * (2 * ub) < U31 * (2 * ub) by {
        MulStrict(x, U31, 2 * ub);
      }
      assert U31 * (2 * ub) == ub * U32;
      DivBelow(x * (2 * ub), ub, U32);
    }
  }

  lemma MulStrict(x: nat, y: nat, k: nat)
    requires x < y && k >= 1
    ensures x * k < y * k
  {
  }

  lemma DivBelow(m: nat, q: nat, d: nat)
    requires d >= 1 && m < q * d
    ensures m / d < q
  {
    if m / d >= q {
      assert d * (m / d) >= d * q by {
        MulMono(d, q, m / d);
      }
      assert false;
    }
  }

  lemma MulMono(d: nat, a: nat, b: nat)
    requires a <= b
    ensures d * a <= d * b
  {
  }

  /** The rejection loop: redraw while `l < t`, then return the high half. */
  function Redraw(step: Step, r: Rng, ub: nat, x: nat, t: nat, fuel: nat): (d: Bounded)
    requires 1 <= ub < U32 && x < U31
    ensures d.value < ub
    decreases fuel
  {
    HighBelow(x, ub);
    if Low(x, ub) >= t || fuel == 0 then Bounded(High(x, ub), r)
    else
      var n := step(r);
      Redraw(step, n.rng, ub, Candidate(n.value), t, fuel - 1)
  }

  /**
   * The body of `next_with_upper_bound` over a generator step: a value
   * below `ub` for every `ub >= 1`; for `ub == 0` the product is 0.
   */
  function BoundedDraw(step: Step, r: Rng, ub: nat): (d: Bounded)
    requires ub < U32
    ensures ub >= 1 ==> d.value < ub
    ensures ub == 0 ==> d.value == 0
  {
    var n := step(r);
    var x := Candidate(n.value);
    HighBelow(x, ub);
    if Low(x, ub) < ub then Redraw(step, n.rng, ub, x, Threshold(ub), REDRAW_LIMIT)
    else Bounded(High(x, ub), n.rng)
  }

  /** `next_with_upper_bound` itself. */
  function NextWithUpperBound(r: Rng, ub: nat): (d: Bounded)
    requires ub < U32
    ensures ub >= 1 ==> d.value < ub
    ensures ub == 0 ==> d.value == 0
  {
    BoundedDraw(Next, r, ub)
  }

  /**
   * The Lemire reference: scan the output stream for the first candidate
   * whose low product is at least the threshold, and return its high half
   * (accepting the last one once `fuel` runs out).
   */
  function FirstAccepted(step: Step, r: Rng, ub: nat, fuel: nat): (d: Bounded)
    requires 1 <= ub < U32
    decreases fuel
  {
    var n := step(r);
    var x := Candidate(n.value);
    if Low(x, ub) >= Threshold(ub) || fuel == 0 then Bounded(High(x, ub), n.rng)
    else FirstAccepted(step, n.rng, ub, fuel - 1)
  }

  lemma {:induction false} RedrawIsFirstAccepted(step: Step, r: Rng, ub: nat, x: nat, fuel: nat)
    requires 1 <= ub < U32 && x < U31 && fuel >= 1
    requires Low(x, ub) < Threshold(ub)
    ensures Redraw(step, r, ub, x, Threshold(ub), fuel) == FirstAccepted(step, r, ub, fuel - 1)
    decreases fuel
  {
    var n := step(r);
    var x' := Candidate(n.value);
    if Low(x', ub) < Threshold(ub) && fuel - 1 != 0 {
      RedrawIsFirstAccepted(step, n.rng, ub, x', fuel - 1);
    }
  }

  /**
   * The bounded draw is the Lemire method: the pre-check `l < ub` only skips
   * the modulo, every candidate is a fresh output, and the accepted one is
   * the first whose low product reaches the threshold.
   */
  lemma BoundedDrawIsLemire(step: Step, r: Rng, ub: nat)
    requires 1 <= ub < U32
    ensures BoundedDraw(step, r, ub) == FirstAccepted(step, r, ub, REDRAW_LIMIT)
  {
    var n := step(r);
    var x := Candidate(n.value);
    if Low(x, ub) < ub && Low(x, ub) < Threshold(ub) {
      RedrawIsFirstAccepted(step, n.rng, ub, x, REDRAW_LIMIT);
    }
  }

  lemma NextWithUpperBoundIsLemire(r: Rng, ub: nat)
    requires 1 <= ub < U32
    ensures NextWithUpperBound(r, ub) == FirstAccepted(Next, r, ub, REDRAW_LIMIT)
  {
    BoundedDrawIsLemire(Next, r, ub);
  }

  // ---------------------------------------------------------------------------
  // The draw callers make
  // ---------------------------------------------------------------------------

  /**
   * A bounded draw as its callers use it: for every bound `n >= 1` the value
   * is below `n`.  Pool and game are written over such a draw.
   */
  type Drawer = f: (Rng, nat) -> Bounded | forall r, n :: 1 <= n ==> f(r, n).value < n
    witness (r: Rng, n: nat) => Bounded(0, r)

  /**
   * `next_with_upper_bound(n as u32)`: both callers truncate a `usize`
   * bound to `u32`; a bound that truncates to 0 yields 0.
   */
  function Below(r: Rng, n: nat): (d: Bounded)
    ensures 1 <= n ==> d.value < n
    ensures n % U32 == 0 ==> d.value == 0
  {
    NextWithUpperBound(r, n % U32)
  }

  /** The engine's draw. */
  const KONADARE: Drawer := Below
}
