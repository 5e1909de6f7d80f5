/**
 * The quiz state machine of game/game.rs: elements are revealed one at a
 * time (`Next`), each is committed as seen or unseen (`Commit`), a wrong
 * commit fills one of three strike slots, and the third strike ends the
 * game.  Every operation returns the new game together with the outcome the
 * source's `&mut self` method returns.
 */
module Game {
  import opened Wrappers
  import opened Permutation
  import opened Konadare
  import Unseen

  /** An element, compared and hashed as its bytes (`AsRef<[u8]>`). */
  type Element = seq<bv8>

  const DEFAULT_ELEMENT_CHECKSUM: bv64 := 2636128771936786712

  /** The draw bound of the seen/unseen decision. */
  const THRESHOLD_MAX: nat := 1_000_000_000

  const INITIAL_LIVES_AMOUNT: nat := 3

  /**
   * How many seen draws the model makes before taking the first seen
   * element that differs from the previous one; the source draws without
   * bound.
   */
  const SEEN_RETRY_LIMIT: nat := 0x1_0000_0000_0000_0000

  /** `SeenThreshold`: `THRESHOLD_MAX` times a ratio in [0, 1]. */
  type SeenThreshold = t: nat | t <= THRESHOLD_MAX

  /** `IncorrectCommits`: the commit counts of the wrong commits, in order. */
  type Slots = s: seq<Option<nat>> | |s| == INITIAL_LIVES_AMOUNT witness [None, None, None]

  datatype GameError = UnseenEmpty | EmptyCommit | NextCalledWithUncommitedResult | GameOver

  /**
   * The three engine primitives a game uses: the generator constructor
   * `from_seed`, the bounded draw, and the permutation of the element
   * checksum.  The game is written over them; `DEJA_VU` is the engine's own.
   */
  datatype Engine = Engine(start: bv64 -> Rng, draw: Drawer, permute: Permuter)

  const DEJA_VU: Engine := Engine(FromSeed, KONADARE, Ksink)

  datatype Game = Game(
    seed: bv64,
    unseen: Unseen.LivePool<Element>,
    seen: seq<Element>,
    current: Option<Element>,
    previous: Option<Element>,
    incorrect: Slots,
    rng: Rng,
    threshold: SeenThreshold,
    count: nat,
    checksum: bv64)

  /** The game after a call and what the call returned. */
  datatype Outcome<R> = Outcome(game: Game, result: Result<R, GameError>)

  // ---------------------------------------------------------------------------
  // Construction and derived quantities
  // ---------------------------------------------------------------------------

  /** Pairwise distinct elements. */
  ghost predicate Distinct(s: seq<Element>)
  {
    forall i, j :: 0 <= i < j < |s| ==> s[i] != s[j]
  }

  /**
   * The strike slots of a game with `count` commits: a filled prefix of
   * strictly increasing commit counts, each below `count`.
   */
  ghost predicate Strikes(s: Slots, count: nat)
  {
    && (s[1].Some? ==> s[0].Some? && s[0].value < s[1].value)
    && (s[2].Some? ==> s[1].Some? && s[1].value < s[2].value)
    && (forall i :: 0 <= i < 3 && s[i].Some? ==> s[i].value < count)
  }

  /** The invariant of every game reachable from `New`. */
  ghost predicate Inv(g: Game)
  {
    && Distinct(g.seen)
    && Strikes(g.incorrect, g.count)
    && (g.previous.Some? ==> g.previous.value in g.seen)
  }

  function Spare(x: Option<nat>): nat
  {
    if x.None? then 1 else 0
  }

  /** `lives`: the number of empty strike slots. */
  function Lives(g: Game): (n: nat)
    ensures n <= INITIAL_LIVES_AMOUNT
    ensures n == 0 <==> (g.incorrect[0].Some? && g.incorrect[1].Some? && g.incorrect[2].Some?)
  {
    Spare(g.incorrect[0]) + Spare(g.incorrect[1]) + Spare(g.incorrect[2])
  }

  /**
   * `score`: the commit count less the strikes, a `usize` subtraction;
   * `ScoreNonNegative` shows it never underflows.
   */
  function Score(g: Game): int
  {
    g.count - (INITIAL_LIVES_AMOUNT - Lives(g))
  }

  /** `finished`: the third strike slot is filled. */
  function Finished(g: Game): bool
  {
    g.incorrect[2].Some?
  }

  function New(e: Engine, seed: bv64, threshold: SeenThreshold, data: seq<Element>): (g: Game)
    ensures g.seed == seed && g.threshold == threshold && g.unseen == Unseen.New(data)
    ensures g.seen == [] && g.current.None? && g.previous.None?
    ensures g.rng == e.start(seed) && g.checksum == DEFAULT_ELEMENT_CHECKSUM
    ensures g.count == 0 && Lives(g) == INITIAL_LIVES_AMOUNT && Score(g) == 0 && !Finished(g)
    ensures Inv(g)
  {
    Game(seed, Unseen.New(data), [], None, None, [None, None, None],
         e.start(seed), threshold, 0, DEFAULT_ELEMENT_CHECKSUM)
  }

  /** `reset`: every field but the seed, threshold and data goes back to its initial value. */
  function Reset(e: Engine, g: Game): (r: Game)
    ensures r == New(e, g.seed, g.threshold, g.unseen.data)
  {
    g.(unseen := Unseen.Reset(g.unseen), seen := [], current := None, previous := None,
       incorrect := [None, None, None], rng := e.start(g.seed), count := 0,
       checksum := DEFAULT_ELEMENT_CHECKSUM)
  }

  /** Lives and score of a reachable game: score is at least 0 and at most the commit count. */
  lemma ScoreNonNegative(g: Game)
    requires Inv(g)
    ensures 0 <= Score(g) <= g.count
  {
  }

  /** A reachable game is finished exactly when it has no lives left. */
  lemma FinishedIffNoLives(g: Game)
    requires Inv(g)
    ensures Finished(g) <==> Lives(g) == 0
  {
  }

  // ---------------------------------------------------------------------------
  // next
  // ---------------------------------------------------------------------------

  /** The fields `next` leaves alone. */
  predicate SameHistory(g: Game, h: Game)
  {
    && h.seed == g.seed && h.threshold == g.threshold && h.unseen.data == g.unseen.data
    && h.seen == g.seen && h.previous == g.previous && h.incorrect == g.incorrect
    && h.count == g.count
  }

  /** A seen element may be offered: it is not the previous element. */
  predicate Avoids(x: Element, previous: Option<Element>)
  {
    previous.None? || previous.value != x
  }

  /** The drawn index and the generator after the seen-draw loop. */
  datatype Pick = Pick(index: nat, rng: Rng)

  /** The first seen element that avoids `previous`, or 0 if there is none. */
  function FirstAvoiding(seen: seq<Element>, previous: Option<Element>, from: nat): (i: nat)
    requires from < |seen|
    ensures from <= i < |seen|
    ensures (exists k :: from <= k < |seen| && Avoids(seen[k], previous)) ==> Avoids(seen[i], previous)
    decreases |seen| - from
  {
    if Avoids(seen[from], previous) || from == |seen| - 1 then from
    else FirstAvoiding(seen, previous, from + 1)
  }

  /**
   * The loop of `next_seen`: draw an index below `|seen|` until the element
   * there avoids `previous`.
   */
  function SeenPick(draw: Drawer, seen: seq<Element>, previous: Option<Element>, rng: Rng, fuel: nat): (p: Pick)
    requires |seen| >= 1
    ensures p.index < |seen|
    ensures (exists k :: 0 <= k < |seen| && Avoids(seen[k], previous)) ==> Avoids(seen[p.index], previous)
    decreases fuel
  {
    if fuel == 0 then Pick(FirstAvoiding(seen, previous, 0), rng)
    else
      var d := draw(rng, |seen|);
      if Avoids(seen[d.value], previous) then Pick(d.value, d.rng)
      else SeenPick(draw, seen, previous, d.rng, fuel - 1)
  }

  /** Among two distinct elements at least one differs from any given one. */
  lemma DistinctHasAvoider(seen: seq<Element>, previous: Option<Element>)
    requires |seen| >= 2
    ensures Distinct(seen) ==> exists k :: 0 <= k < |seen| && Avoids(seen[k], previous)
  {
    if Distinct(seen) {
      if !Avoids(seen[0], previous) {
        assert seen[0] != seen[1];
        assert Avoids(seen[1], previous);
      } else {
        assert Avoids(seen[0], previous);
      }
    }
  }

  /** The new checksum after offering `x`: `KSINK::hash(checksum, x)`. */
  function Offer(e: Engine, g: Game, x: Element): (h: Game)
  {
    g.(current := Some(x), checksum := Hash(e.permute, g.checksum, x))
  }

  /** `next_unseen`: poll the pool; an empty pool leaves everything as it was. */
  function NextUnseen(e: Engine, g: Game): (o: Outcome<Element>)
    ensures SameHistory(g, o.game) && o.game.seed == g.seed
    ensures o.result == Failure(UnseenEmpty) <==> g.unseen.size == 0
    ensures o.result.Failure? ==> o.game == g
    ensures o.result.Success? ==>
      && o.result.value in g.unseen.data
      && o.game.unseen.size == g.unseen.size - 1
      && o.game.current == Some(o.result.value)
      && o.game.checksum == Hash(e.permute, g.checksum, o.result.value)
  {
    var q := Unseen.Poll(e.draw, g.unseen, g.rng);
    if q.item.None? then Outcome(g, Failure(UnseenEmpty))
    else Outcome(Offer(e, g.(unseen := q.pool, rng := q.rng), q.item.value), Success(q.item.value))
  }

  /** `next_seen`: offer a seen element other than the previous one. */
  function NextSeen(e: Engine, g: Game): (o: Outcome<Element>)
    requires |g.seen| >= 2
    ensures SameHistory(g, o.game) && o.game.unseen == g.unseen
    ensures o.result.Success?
    ensures o.result.value in g.seen
    ensures Distinct(g.seen) ==> Avoids(o.result.value, g.previous)
    ensures o.game.current == Some(o.result.value)
    ensures o.game.checksum == Hash(e.permute, g.checksum, o.result.value)
  {
    var p := SeenPick(e.draw, g.seen, g.previous, g.rng, SEEN_RETRY_LIMIT);
    var x := g.seen[p.index];
    DistinctHasAvoider(g.seen, g.previous);
    Outcome(Offer(e, g.(rng := p.rng), x), Success(x))
  }

  /**
   * `next`: refuse a finished game, then a pending element; otherwise offer
   * an unseen element while fewer than two are seen or when a draw below
   * `THRESHOLD_MAX` exceeds the threshold, and a seen one otherwise.
   */
  function Next(e: Engine, g: Game): (o: Outcome<Element>)
    ensures Finished(g) ==> o == Outcome(g, Failure(GameOver))
    ensures !Finished(g) && g.current.Some? ==> o == Outcome(g, Failure(NextCalledWithUncommitedResult))
    ensures !Finished(g) && g.current.None? && |g.seen| < 2 ==> o == NextUnseen(e, g)
    ensures SameHistory(g, o.game)
    ensures o.result.Failure? ==> o.game == g.(rng := o.game.rng)
    ensures o.result == Failure(UnseenEmpty) ==> o.game.unseen.size == 0
    ensures !Finished(g) && g.current.None? && o.result.Failure? ==> o.result.error == UnseenEmpty
    ensures o.result.Success? ==>
      && !Finished(g) && g.current.None?
      && o.game.current == Some(o.result.value)
      && o.game.checksum == Hash(e.permute, g.checksum, o.result.value)
      && ((o.result.value in g.unseen.data && o.game.unseen.size == g.unseen.size - 1)
          || (o.result.value in g.seen && o.game.unseen == g.unseen
              && (Distinct(g.seen) ==> Avoids(o.result.value, g.previous))))
    ensures !Finished(g) && g.current.None? && |g.seen| >= 2 ==>
      var d := e.draw(g.rng, THRESHOLD_MAX);
      && (d.value > g.threshold ==>
            && o == NextUnseen(e, g.(rng := d.rng))
            && (o.result == Failure(UnseenEmpty) <==> g.unseen.size == 0)
            && (o.result.Success? ==> o.result.value in g.unseen.data && o.game.unseen.size == g.unseen.size - 1))
      && (d.value <= g.threshold ==>
            && o == NextSeen(e, g.(rng := d.rng))
            && o.result.Success? && o.result.value in g.seen && o.game.unseen == g.unseen)
  {
    if Finished(g) then Outcome(g, Failure(GameOver))
    else if g.current.Some? then Outcome(g, Failure(NextCalledWithUncommitedResult))
    else if |g.seen| < 2 then NextUnseen(e, g)
    else
      var d := e.draw(g.rng, THRESHOLD_MAX);
      if d.value > g.threshold then NextUnseen(e, g.(rng := d.rng))
      else NextSeen(e, g.(rng := d.rng))
  }

  lemma NextKeepsInv(e: Engine, g: Game)
    requires Inv(g)
    ensures Inv(Next(e, g).game)
  {
  }

  // ---------------------------------------------------------------------------
  // commit
  // ---------------------------------------------------------------------------

  /** The slot `x` was written into, if any slot was empty. */
  datatype Pushed = Pushed(slots: Slots, placed: Option<nat>)

  /** `k` is the first empty slot. */
  predicate FirstFree(s: Slots, k: nat)
  {
    k < 3 && s[k].None? && forall j :: 0 <= j < k ==> s[j].Some?
  }

  /** `push_incorrect_commit`: write `x` into the first empty slot. */
  function PushIncorrect(s: Slots, x: nat): (r: Pushed)
    ensures r.placed.None? <==> (s[0].Some? && s[1].Some? && s[2].Some?)
    ensures r.placed.None? ==> r.slots == s
    ensures r.placed.Some? ==>
      r.placed == Some(x) && exists k: nat :: FirstFree(s, k) && r.slots == s[k := Some(x)]
  {
    if s[0].None? then assert FirstFree(s, 0); Pushed(s[0 := Some(x)], Some(x))
    else if s[1].None? then assert FirstFree(s, 1); Pushed(s[1 := Some(x)], Some(x))
    else if s[2].None? then assert FirstFree(s, 2); Pushed(s[2 := Some(x)], Some(x))
    else Pushed(s, None)
  }

  /**
   * A strike below every recorded one keeps the slots a strictly
   * increasing filled prefix and costs one life.
   */
  lemma PushKeepsStrikes(s: Slots, count: nat)
    requires Strikes(s, count) && s[2].None?
    ensures Strikes(PushIncorrect(s, count).slots, count + 1)
    ensures var t := PushIncorrect(s, count).slots;
      Spare(t[0]) + Spare(t[1]) + Spare(t[2]) + 1 == Spare(s[0]) + Spare(s[1]) + Spare(s[2])
  {
  }

  /**
   * `commit(guess_seen)`: refuse a finished game, then an empty commit;
   * otherwise the result says whether the guess matched "already seen", a
   * new element joins `seen`, the element becomes `previous`, a wrong guess
   * is recorded at the current count, and the count goes up.
   */
  function Commit(e: Engine, g: Game, guessSeen: bool): (o: Outcome<bool>)
    ensures Finished(g) ==> o == Outcome(g, Failure(GameOver))
    ensures !Finished(g) && g.current.None? ==> o == Outcome(g, Failure(EmptyCommit))
    ensures !Finished(g) && g.current.Some? ==>
      var x := g.current.value;
      && o.result == Success(guessSeen == (x in g.seen))
      && o.game.seen == (if x in g.seen then g.seen else g.seen + [x])
      && o.game.current.None? && o.game.previous == Some(x) && o.game.count == g.count + 1
      && o.game.incorrect == (if o.result.value then g.incorrect else PushIncorrect(g.incorrect, g.count).slots)
      && o.game == g.(seen := o.game.seen, current := None, previous := Some(x),
                      incorrect := o.game.incorrect, count := g.count + 1)
  {
    if Finished(g) then Outcome(g, Failure(GameOver))
    else if g.current.None? then Outcome(g, Failure(EmptyCommit))
    else
      var x := g.current.value;
      var isNew := x !in g.seen;
      var seen := if isNew then g.seen + [x] else g.seen;
      var r := isNew != guessSeen;
      var incorrect := if !r then PushIncorrect(g.incorrect, g.count).slots else g.incorrect;
      Outcome(g.(seen := seen, current := None, previous := Some(x), incorrect := incorrect,
                 count := g.count + 1), Success(r))
  }

  lemma CommitKeepsInv(e: Engine, g: Game, guessSeen: bool)
    requires Inv(g)
    ensures Inv(Commit(e, g, guessSeen).game)
  {
    var o := Commit(e, g, guessSeen);
    if !Finished(g) && g.current.Some? {
      var x := g.current.value;
      if x !in g.seen {
        assert o.game.seen == g.seen + [x];
        assert Distinct(o.game.seen) by {
          forall i, j | 0 <= i < j < |o.game.seen|
            ensures o.game.seen[i] != o.game.seen[j]
          {
            if j == |g.seen| {
              assert o.game.seen[i] == g.seen[i];
            }
          }
        }
      }
      if !o.result.value {
        PushKeepsStrikes(g.incorrect, g.count);
      }
    }
  }

  /** A commit that follows a successful `next` always succeeds. */
  lemma CommitAfterNext(e: Engine, g: Game, guessSeen: bool)
    requires Next(e, g).result.Success?
    ensures Commit(e, Next(e, g).game, guessSeen).result.Success?
  {
  }

  // ---------------------------------------------------------------------------
  // Playing rounds
  // ---------------------------------------------------------------------------

  /** One offered element and whether its commit was right. */
  datatype Round = Round(element: Element, correct: bool)

  /** The game after a sequence of rounds, the rounds played, and the error that stopped play. */
  datatype Played = Played(game: Game, rounds: seq<Round>, stop: Option<GameError>)

  /** Play `next` then `commit(guess)` for each guess, stopping at the first error. */
  function Play(e: Engine, g: Game, guesses: seq<bool>): (p: Played)
    ensures |p.rounds| <= |guesses|
    ensures p.stop.None? ==> |p.rounds| == |guesses|
    decreases |guesses|
  {
    if |guesses| == 0 then Played(g, [], None)
    else
      var n := Next(e, g);
      if n.result.Failure? then Played(n.game, [], Some(n.result.error))
      else
        var c := Commit(e, n.game, guesses[0]);
        var rest := Play(e, c.game, guesses[1..]);
        Played(rest.game, [Round(n.result.value, c.result.value)] + rest.rounds, rest.stop)
  }

  function Corrects(rounds: seq<Round>): (n: nat)
    ensures n <= |rounds|
  {
    if |rounds| == 0 then 0 else (if rounds[0].correct then 1 else 0) + Corrects(rounds[1..])
  }

  /** One round adds one to the score if it was right and takes one life otherwise. */
  lemma RoundScore(e: Engine, g: Game, guessSeen: bool)
    requires Inv(g) && Next(e, g).result.Success?
    ensures var c := Commit(e, Next(e, g).game, guessSeen);
      && c.result.Success?
      && Inv(c.game)
      && Score(c.game) == Score(g) + (if c.result.value then 1 else 0)
      && Lives(c.game) == Lives(g) - (if c.result.value then 0 else 1)
  {
    var n := Next(e, g);
    NextKeepsInv(e, g);
    CommitKeepsInv(e, n.game, guessSeen);
    var c := Commit(e, n.game, guessSeen);
    if !c.result.value {
      PushKeepsStrikes(n.game.incorrect, n.game.count);
    }
  }

  /**
   * The score is the number of right commits and the lives lost are the
   * wrong ones: from a reachable game, the score grows by the right rounds
   * played.
   */
  lemma {:induction false} PlayScore(e: Engine, g: Game, guesses: seq<bool>)
    requires Inv(g)
    ensures var p := Play(e, g, guesses);
      && Inv(p.game)
      && Score(p.game) == Score(g) + Corrects(p.rounds)
      && Lives(p.game) == Lives(g) - (|p.rounds| - Corrects(p.rounds))
    decreases |guesses|
  {
    if |guesses| != 0 {
      var n := Next(e, g);
      if n.result.Success? {
        RoundScore(e, g, guesses[0]);
        var c := Commit(e, n.game, guesses[0]);
        PlayScore(e, c.game, guesses[1..]);
        var rest := Play(e, c.game, guesses[1..]);
        assert Play(e, g, guesses).rounds == [Round(n.result.value, c.result.value)] + rest.rounds;
        assert ([Round(n.result.value, c.result.value)] + rest.rounds)[1..] == rest.rounds;
      } else {
        NextKeepsInv(e, g);
      }
    }
  }

  /** From a new game the score is exactly the number of right commits. */
  lemma NewGameScore(e: Engine, seed: bv64, threshold: SeenThreshold, data: seq<Element>, guesses: seq<bool>)
    ensures var p := Play(e, New(e, seed, threshold, data), guesses);
      Score(p.game) == Corrects(p.rounds) && Lives(p.game) + |p.rounds| == INITIAL_LIVES_AMOUNT + Corrects(p.rounds)
  {
    PlayScore(e, New(e, seed, threshold, data), guesses);
  }

  /** Each slot of `after` is the one of `before` or newly filled with a count of at least `count`. */
  ghost predicate Grows(before: Slots, after: Slots, count: nat)
  {
    forall k :: 0 <= k < 3 ==>
      after[k] == before[k] || (before[k].None? && after[k].Some? && after[k].value >= count)
  }

  /** A round leaves every strike slot as it was or fills an empty one with the commit count. */
  lemma RoundStrikes(e: Engine, g: Game, guessSeen: bool)
    requires Inv(g) && Next(e, g).result.Success?
    ensures var c := Commit(e, Next(e, g).game, guessSeen).game;
      forall k :: 0 <= k < 3 ==>
        c.incorrect[k] == g.incorrect[k] || (g.incorrect[k].None? && c.incorrect[k] == Some(g.count))
  {
    var n := Next(e, g);
    var c := Commit(e, n.game, guessSeen);
    if !c.result.value {
      var p := PushIncorrect(g.incorrect, g.count);
      if p.placed.Some? {
        var k: nat :| FirstFree(g.incorrect, k) && p.slots == g.incorrect[k := Some(g.count)];
      }
    }
  }

  /**
   * Strikes are never rewritten: over any play a filled slot keeps its
   * value, and a slot filled later holds a count from later on.
   */
  lemma {:induction false} PlayStrikesGrow(e: Engine, g: Game, guesses: seq<bool>)
    requires Inv(g)
    ensures var f := Play(e, g, guesses).game;
      f.count >= g.count && Grows(g.incorrect, f.incorrect, g.count)
    decreases |guesses|
  {
    if |guesses| != 0 {
      var n := Next(e, g);
      if n.result.Success? {
        RoundScore(e, g, guesses[0]);
        RoundStrikes(e, g, guesses[0]);
        var c := Commit(e, n.game, guesses[0]);
        PlayStrikesGrow(e, c.game, guesses[1..]);
      }
    }
  }

  /** A reset game replays exactly what the fresh game with its seed, threshold and data plays. */
  lemma ResetReplays(e: Engine, g: Game, guesses: seq<bool>)
    ensures Play(e, Reset(e, g), guesses) == Play(e, New(e, g.seed, g.threshold, g.unseen.data), guesses)
  {
  }
}
