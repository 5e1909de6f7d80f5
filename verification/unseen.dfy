/**
 * The `Unseen` pool of game/unseen.rs: a sparse Fisher–Yates sampler that
 * draws backing indices without replacement.  Drawn slot `i` is recorded in
 * `remap` as pointing at the last live slot; a draw follows the chain of
 * `remap` entries from the random slot until it leaves the map.
 */
module Unseen {
  import opened Wrappers
  import opened Konadare

  datatype Pool<T> = Pool(data: seq<T>, size: nat, remap: map<nat, nat>)

  /** One `poll`: the element, its backing index, and the states after it. */
  datatype Polled<T> = Polled(item: Option<T>, index: Option<nat>, pool: Pool<T>, rng: Rng)

  /**
   * The shape of a remap over `n` backing slots: entries stay below `n`,
   * never point downwards, and no two keys share a target.
   */
  predicate Chains(m: map<nat, nat>, n: nat)
  {
    && (forall k :: k in m ==> k < n && k <= m[k] < n)
    && (forall j, k :: j in m && k in m && j != k ==> m[j] != m[k])
  }

  /** The invariant of every pool reachable from `New`. */
  predicate Valid<T>(p: Pool<T>)
  {
    && p.size <= |p.data|
    && Chains(p.remap, |p.data|)
    && (forall k :: k in p.remap ==> p.size <= p.remap[k])
  }

  /** A pool as the engine holds one: built by `New` and changed only by `Poll` and `Reset`. */
  type LivePool<T> = p: Pool<T> | Valid(p) witness Pool([], 0, map[])

  /**
   * Chains climb strictly: once a walk has moved to a mapped slot, that slot
   * maps strictly above itself, and any self-loop sits at or above `size`.
   */
  lemma ChainsClimb<T>(p: Pool<T>, j: nat)
    requires Valid(p) && j in p.remap && p.remap[j] != j && p.remap[j] in p.remap
    ensures p.remap[j] < p.remap[p.remap[j]]
  {
  }

  lemma SelfLoopsAboveSize<T>(p: Pool<T>, k: nat)
    requires Valid(p) && k in p.remap && p.remap[k] == k
    ensures p.size <= k
  {
  }

  /** The chain walk of `poll`: follow `m` from `j` until a slot has no entry. */
  function Walk(m: map<nat, nat>, n: nat, j: nat): (r: nat)
    requires Chains(m, n) && j < n
    requires j in m ==> j < m[j]
    ensures r < n && r !in m
    ensures j !in m ==> r == j
    decreases n - j
  {
    if j in m then Walk(m, n, m[j]) else j
  }

  /** `Unseen::new`: every backing element is live and nothing is remapped. */
  function New<T>(data: seq<T>): (p: Pool<T>)
    ensures p.size == |p.data| && p.data == data && p.remap == map[]
    ensures Valid(p)
  {
    Pool(data, |data|, map[])
  }

  /** `reset`: back to the state `New` builds from the same data. */
  function Reset<T>(p: Pool<T>): (r: Pool<T>)
    ensures r.data == p.data && r.size == |p.data| && r.remap == map[]
    ensures Valid(r)
  {
    New(p.data)
  }

  /** The slot a draw below `size` resolves to. */
  function Resolve<T>(p: Pool<T>, i: nat): (j: nat)
    requires Valid(p) && i < p.size
    ensures j < |p.data| && j !in p.remap
  {
    Walk(p.remap, |p.data|, i)
  }

  /** The state change of a draw of slot `i`: shrink and point `i` at the old last slot. */
  function Retire<T>(p: Pool<T>, i: nat): (r: Pool<T>)
    requires Valid(p) && i < p.size
    ensures Valid(r) && r.data == p.data
    ensures r.size == p.size - 1 && r.remap == p.remap[i := p.size - 1]
  {
    Pool(p.data, p.size - 1, p.remap[i := p.size - 1])
  }

  /** The slot `poll` draws: `next_with_upper_bound(size as u32)`. */
  function Slot<T>(draw: Drawer, p: Pool<T>, rng: Rng): (i: nat)
    requires 0 < p.size
    ensures i < p.size
  {
    draw(rng, p.size).value
  }

  /**
   * `poll`: `None` with nothing changed on an empty pool; otherwise a slot
   * `i` below `size` is drawn (with `size` truncated to `u32`), resolved
   * through the remap, and retired.
   */
  function Poll<T>(draw: Drawer, p: Pool<T>, rng: Rng): (q: Polled<T>)
    requires Valid(p)
    ensures Valid(q.pool) && q.pool.data == p.data
    ensures p.size == 0 ==> q == Polled(None, None, p, rng)
    ensures p.size > 0 ==>
      && q.index.Some? && q.index.value < |p.data|
      && q.item == Some(p.data[q.index.value])
      && q.pool.size == p.size - 1
      && q.pool == Retire(p, Slot(draw, p, rng))
      && q.index.value == Resolve(p, Slot(draw, p, rng))
  {
    if p.size == 0 then Polled(None, None, p, rng)
    else
      var i := Slot(draw, p, rng);
      var j := Resolve(p, i);
      Polled(Some(p.data[j]), Some(j), Retire(p, i), draw(rng, p.size).rng)
  }

  /** The source's loop form of the chain walk. */
  method WalkLoop(m: map<nat, nat>, n: nat, i: nat) returns (j: nat)
    requires Chains(m, n) && i < n
    requires i in m ==> i < m[i]
    ensures j == Walk(m, n, i)
  {
    j := i;
    while j in m
      invariant j < n
      invariant j in m ==> j < m[j]
      invariant Walk(m, n, j) == Walk(m, n, i)
      decreases n - j
    {
      j := m[j];
    }
  }

  // ---------------------------------------------------------------------------
  // The live slots and the exactly-once theorem
  // ---------------------------------------------------------------------------

  /** The resolutions of the first `k` live slots. */
  function Prefix<T>(p: Pool<T>, k: nat): (v: seq<nat>)
    requires Valid(p) && k <= p.size
    ensures |v| == k
    decreases k
  {
    if k == 0 then [] else Prefix(p, k - 1) + [Resolve(p, k - 1)]
  }

  lemma {:induction false} PrefixAt<T>(p: Pool<T>, k: nat, j: nat)
    requires Valid(p) && j < k <= p.size
    ensures Prefix(p, k)[j] == Resolve(p, j)
    decreases k
  {
    if j < k - 1 {
      PrefixAt(p, k - 1, j);
    }
  }

  /** The live slots, in virtual-array order: slot `k` resolves to `View(p)[k]`. */
  function View<T>(p: Pool<T>): (v: seq<nat>)
    requires Valid(p)
    ensures |v| == p.size
  {
    Prefix(p, p.size)
  }

  lemma ViewAt<T>(p: Pool<T>, k: nat)
    requires Valid(p) && k < p.size
    ensures View(p)[k] == Resolve(p, k)
  {
    PrefixAt(p, p.size, k);
  }

  function Range(n: nat): (r: seq<nat>)
    ensures |r| == n && forall k :: 0 <= k < n ==> r[k] == k
  {
    seq(n, k => k)
  }

  lemma ViewOfNew<T>(data: seq<T>)
    ensures View(New(data)) == Range(|data|)
  {
    forall k | 0 <= k < |data|
      ensures View(New(data))[k] == k
    {
      ViewAt(New(data), k);
    }
  }

  /**
   * Retiring slot `i` leaves every walk that starts elsewhere unchanged: such
   * a walk only moves to entries at or above `size`, never through `i`.
   */
  lemma {:induction false} WalkFrame<T>(p: Pool<T>, i: nat, j: nat)
    requires Valid(p) && i < p.size && j < |p.data| && j != i
    requires j in p.remap ==> j < p.remap[j]
    ensures Walk(Retire(p, i).remap, |p.data|, j) == Walk(p.remap, |p.data|, j)
    decreases |p.data| - j
  {
    if j in p.remap {
      WalkFrame(p, i, p.remap[j]);
    }
  }

  /**
   * Drawing slot `i` moves the last live slot into position `i` and drops
   * the last position: the classic Fisher–Yates swap-remove.
   */
  lemma RetireView<T>(p: Pool<T>, i: nat)
    requires Valid(p) && i < p.size
    ensures View(Retire(p, i)) == View(p)[i := View(p)[p.size - 1]][..p.size - 1]
  {
    var last := p.size - 1;
    var v := View(p);
    var v' := View(Retire(p, i));
    forall k | 0 <= k < last
      ensures v'[k] == v[i := v[last]][k]
    {
      RetireViewAt(p, i, k);
    }
  }

  lemma RetireViewAt<T>(p: Pool<T>, i: nat, k: nat)
    requires Valid(p) && i < p.size && k < p.size - 1
    ensures View(Retire(p, i))[k] == if k == i then View(p)[p.size - 1] else View(p)[k]
  {
    var r := Retire(p, i);
    var last := p.size - 1;
    ViewAt(r, k);
    if k == i {
      ViewAt(p, last);
      WalkFrame(p, i, last);
    } else {
      ViewAt(p, k);
      WalkFrame(p, i, k);
    }
  }

  lemma SwapRemoveMultiset(s: seq<nat>, i: nat)
    requires i < |s|
    ensures multiset(s[i := s[|s| - 1]][..|s| - 1]) + multiset{s[i]} == multiset(s)
  {
    var last := |s| - 1;
    assert s == s[..last] + [s[last]];
    if i < last {
      assert s[i := s[last]][..last] == s[..last][i := s[last]];
    }
  }

  /** The outcome of `n` successive polls. */
  datatype Drain<T> = Drain(indices: seq<nat>, items: seq<T>, pool: Pool<T>, rng: Rng)

  /** Each item is the backing element at the index drawn with it. */
  ghost predicate Fetched<T>(data: seq<T>, indices: seq<nat>, items: seq<T>)
  {
    && |indices| == |items|
    && forall k :: 0 <= k < |indices| ==> indices[k] < |data| && items[k] == data[indices[k]]
  }

  lemma FetchedCons<T>(data: seq<T>, x: nat, item: T, indices: seq<nat>, items: seq<T>)
    requires x < |data| && item == data[x] && Fetched(data, indices, items)
    ensures Fetched(data, [x] + indices, [item] + items)
  {
  }

  /** `n` polls on a pool with at least `n` live slots; each one draws. */
  function PollN<T>(draw: Drawer, p: Pool<T>, rng: Rng, n: nat): (d: Drain<T>)
    requires Valid(p) && n <= p.size
    ensures Valid(d.pool) && d.pool.data == p.data && d.pool.size == p.size - n
    ensures |d.indices| == n && |d.items| == n
    ensures Fetched(p.data, d.indices, d.items)
    decreases n
  {
    if n == 0 then Drain([], [], p, rng)
    else
      var q := Poll(draw, p, rng);
      var rest := PollN(draw, q.pool, q.rng, n - 1);
      FetchedCons(p.data, q.index.value, q.item.value, rest.indices, rest.items);
      Drain([q.index.value] + rest.indices, [q.item.value] + rest.items, rest.pool, rest.rng)
  }

  /** Polls draw exactly the live slots they remove from the view. */
  lemma {:induction false} PollNDrawsView<T>(draw: Drawer, p: Pool<T>, rng: Rng, n: nat)
    requires Valid(p) && n <= p.size
    ensures multiset(PollN(draw, p, rng, n).indices) + multiset(View(PollN(draw, p, rng, n).pool)) == multiset(View(p))
    decreases n
  {
    if n > 0 {
      var q := Poll(draw, p, rng);
      PollNDrawsView(draw, q.pool, q.rng, n - 1);
      DrainStep(draw, p, rng, n);
    }
  }

  lemma DrainStep<T>(draw: Drawer, p: Pool<T>, rng: Rng, n: nat)
    requires Valid(p) && 0 < n <= p.size
    requires var q := Poll(draw, p, rng);
      var rest := PollN(draw, q.pool, q.rng, n - 1);
      multiset(rest.indices) + multiset(View(rest.pool)) == multiset(View(q.pool))
    ensures multiset(PollN(draw, p, rng, n).indices) + multiset(View(PollN(draw, p, rng, n).pool)) == multiset(View(p))
  {
    var q := Poll(draw, p, rng);
    var rest := PollN(draw, q.pool, q.rng, n - 1);
    var d := PollN(draw, p, rng, n);
    PollRemovesDrawn(draw, p, rng);
    PollNStep(draw, p, rng, n);
    PrependCounts(q.index.value, rest.indices, d.indices, View(d.pool), View(q.pool), View(p));
  }

  /** A draw removes exactly the drawn index from the live slots. */
  lemma PollRemovesDrawn<T>(draw: Drawer, p: Pool<T>, rng: Rng)
    requires Valid(p) && 0 < p.size
    ensures multiset(View(Poll(draw, p, rng).pool)) + multiset{Poll(draw, p, rng).index.value} == multiset(View(p))
  {
    var i := Slot(draw, p, rng);
    ViewAt(p, i);
    RetireView(p, i);
    SwapRemoveMultiset(View(p), i);
  }

  lemma PollNStep<T>(draw: Drawer, p: Pool<T>, rng: Rng, n: nat)
    requires Valid(p) && 0 < n <= p.size
    ensures var q := Poll(draw, p, rng);
      var rest := PollN(draw, q.pool, q.rng, n - 1);
      && PollN(draw, p, rng, n).indices == [q.index.value] + rest.indices
      && PollN(draw, p, rng, n).pool == rest.pool
  {
  }

  lemma PrependCounts(x: nat, drawn: seq<nat>, full: seq<nat>, left: seq<nat>, mid: seq<nat>, all: seq<nat>)
    requires full == [x] + drawn
    requires multiset(drawn) + multiset(left) == multiset(mid)
    requires multiset(mid) + multiset{x} == multiset(all)
    ensures multiset(full) + multiset(left) == multiset(all)
  {
    assert multiset([x] + drawn) == multiset{x} + multiset(drawn);
  }

  lemma RangeCount(n: nat, x: nat)
    ensures multiset(Range(n))[x] == if x < n then 1 else 0
  {
    if n > 0 {
      assert Range(n) == Range(n - 1) + [n - 1];
      RangeCount(n - 1, x);
    }
  }

  lemma RepeatCount(s: seq<nat>, a: nat, b: nat)
    requires a < b < |s| && s[a] == s[b]
    ensures multiset(s)[s[a]] >= 2
  {
    assert s == s[..a] + [s[a]] + s[a + 1..b] + [s[b]] + s[b + 1..];
  }

  /**
   * On a fresh pool of `N` elements, `N` polls draw every backing index
   * exactly once, each with its element, and the next poll returns `None`.
   */
  lemma ExactlyOnce<T>(draw: Drawer, data: seq<T>, rng: Rng)
    ensures var d := PollN(draw, New(data), rng, |data|);
      && multiset(d.indices) == multiset(Range(|data|))
      && (forall a, b :: 0 <= a < b < |data| ==> d.indices[a] != d.indices[b])
      && Fetched(data, d.indices, d.items)
      && Poll(draw, d.pool, d.rng).item == None
  {
    var d := PollN(draw, New(data), rng, |data|);
    PollNDrawsView(draw, New(data), rng, |data|);
    ViewOfNew(data);
    assert View(d.pool) == [];
    forall a, b | 0 <= a < b < |data|
      ensures d.indices[a] != d.indices[b]
    {
      if d.indices[a] == d.indices[b] {
        RepeatCount(d.indices, a, b);
        RangeCount(|data|, d.indices[a]);
        assert false;
      }
    }
  }

  /** A reset pool replays, on an equal stream, exactly the draws of a fresh one. */
  lemma ResetReplays<T>(draw: Drawer, p: Pool<T>, rng: Rng, n: nat)
    requires Valid(p) && n <= |p.data|
    ensures PollN(draw, Reset(p), rng, n) == PollN(draw, New(p.data), rng, n)
  {
  }

  /** `clone` shares the backing data and copies the size and the remap. */
  function Clone<T>(p: Pool<T>): (r: Pool<T>)
    ensures r.data == p.data && r.size == p.size && r.remap == p.remap
  {
    Pool(p.data, p.size, p.remap)
  }

  /** A clone, polled on an equal stream, draws exactly what the original draws. */
  lemma CloneReplays<T>(draw: Drawer, p: Pool<T>, rng: Rng, n: nat)
    requires Valid(p) && n <= p.size
    ensures Valid(Clone(p)) && PollN(draw, Clone(p), rng, n) == PollN(draw, p, rng, n)
  {
  }
}
