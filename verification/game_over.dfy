/**
 * The replay of game_over/game_over.rs: a finished game is stored as its
 * seed, threshold and strike positions, and rebuilt by replaying the game
 * with a commit at every step that is wrong exactly at the stored
 * positions.
 */
module Replay {
  import opened Wrappers
  import opened SetId
  import Game

  datatype SeenUnseen = Seen | Unseen

  /** One replayed commit: the element, whether it had been seen, and the guess made. */
  datatype Commit = Commit(element: Game.Element, actual: SeenUnseen, guess: SeenUnseen)

  /** `correct`: the guess matches the actual state. */
  predicate Correct(c: Commit)
  {
    c.actual == c.guess
  }

  /** A played game, with the set it was played on; its threshold is part of the game. */
  datatype GameOver = GameOver(game: Game.Game, setId: UnseenSetId)

  /** `GameOverIterator`: the game being replayed, the step index, the strike positions and the elements seen so far. */
  datatype Iterator = Iterator(game: Game.Game, index: nat, incorrect: Game.Slots, seen: seq<Game.Element>)

  /** What a step of the iterator does: stop, yield a commit, or panic on a failed `next`. */
  datatype Yield = Done | Yielded(commit: Commit, next: Iterator) | Panic(error: Game.GameError)

  /** The parts of a game a replay never changes. */
  predicate SameSetup(g: Game.Game, h: Game.Game)
  {
    h.seed == g.seed && h.threshold == g.threshold && h.unseen.data == g.unseen.data
  }

  /** `into_iter`: keep the strike positions, reset the game, start at index 0 with nothing seen. */
  function IntoIter(e: Game.Engine, go: GameOver): (it: Iterator)
    ensures it.game == Game.New(e, go.game.seed, go.game.threshold, go.game.unseen.data)
    ensures it.index == 0 && it.incorrect == go.game.incorrect && it.seen == []
  {
    Iterator(Game.Reset(e, go.game), 0, go.game.incorrect, [])
  }

  /**
   * The iterator's `next`: nothing once the game is finished; otherwise
   * draw the next element, call it seen when this replay has met it
   * before, and commit the matching guess unless the step index is a
   * stored strike position, where the opposite guess is committed.
   */
  function IterNext(e: Game.Engine, it: Iterator): (y: Yield)
    ensures y.Done? <==> Game.Finished(it.game)
    ensures y.Panic? ==> Game.Next(e, it.game).result == Failure(y.error)
    ensures y.Yielded? ==>
      && Game.Next(e, it.game).result == Success(y.commit.element)
      && y.next.game == Game.Commit(e, Game.Next(e, it.game).game, y.commit.guess == Seen).game
      && y.next.index == it.index + 1 && y.next.incorrect == it.incorrect
      && (y.commit.actual == Seen <==> y.commit.element in it.seen)
      && (Correct(y.commit) <==> Some(it.index) !in it.incorrect)
      && y.next.seen == (if y.commit.element in it.seen then it.seen else it.seen + [y.commit.element])
      && SameSetup(it.game, y.next.game)
  {
    if Game.Finished(it.game) then Done
    else
      var n := Game.Next(e, it.game);
      if n.result.Failure? then Panic(n.result.error)
      else
        var x := n.result.value;
        var wrong := Some(it.index) in it.incorrect;
        if x in it.seen then
          var guess := if wrong then Unseen else Seen;
          Yielded(Commit(x, Seen, guess),
                  Iterator(Game.Commit(e, n.game, guess == Seen).game, it.index + 1, it.incorrect, it.seen))
        else
          var guess := if wrong then Seen else Unseen;
          Yielded(Commit(x, Unseen, guess),
                  Iterator(Game.Commit(e, n.game, guess == Seen).game, it.index + 1, it.incorrect, it.seen + [x]))
  }

  /**
   * An iterator in step with its game: the same seen list, nothing
   * pending, one commit per step, and a reachable game.
   */
  ghost predicate Tracks(it: Iterator)
  {
    && it.game.seen == it.seen && it.game.current.None? && it.game.count == it.index
    && Game.Inv(it.game)
  }

  /**
   * In step, the commit the iterator issues is right exactly when it means
   * to be (so its `unwrap` never fails), the iterator stays in step, and the
   * only panic is an exhausted pool.
   */
  lemma TrackedStep(e: Game.Engine, it: Iterator)
    requires Tracks(it)
    ensures var y := IterNext(e, it);
      && (y.Panic? ==> y.error == Game.UnseenEmpty)
      && (y.Yielded? ==>
            && Game.Commit(e, Game.Next(e, it.game).game, y.commit.guess == Seen).result == Success(Correct(y.commit))
            && Tracks(y.next))
  {
    var y := IterNext(e, it);
    if y.Yielded? {
      Game.NextKeepsInv(e, it.game);
      var n := Game.Next(e, it.game);
      Game.CommitKeepsInv(e, n.game, y.commit.guess == Seen);
    }
  }

  // ---------------------------------------------------------------------------
  // Running the replay
  // ---------------------------------------------------------------------------

  /** Why `GameOver::new` does not return: a failed `next` panics, or the replay never finishes. */
  datatype ReplayError = Panicked(error: Game.GameError) | NeverFinishes

  /** The iterator where a run stopped and why, `None` meaning the game finished. */
  datatype Ran = Ran(last: Iterator, stop: Option<ReplayError>)

  /** Step with `step` until it is done, allowing `fuel` yields. */
  function Steps(step: Iterator -> Yield, it: Iterator, fuel: nat): Ran
    decreases fuel
  {
    match step(it)
    case Done => Ran(it, None)
    case Panic(err) => Ran(it, Some(Panicked(err)))
    case Yielded(_, next) => if fuel == 0 then Ran(it, Some(NeverFinishes)) else Steps(step, next, fuel - 1)
  }

  /** The iterator's own step, as a value. */
  function Stepper(e: Game.Engine): Iterator -> Yield
  {
    it => IterNext(e, it)
  }

  /** `keep` survives every yielded step, and a yielded step moves the index on by one. */
  ghost predicate Keeps(step: Iterator -> Yield, keep: Iterator -> bool)
  {
    forall i :: keep(i) && step(i).Yielded? ==> keep(step(i).next) && step(i).next.index == i.index + 1
  }

  /**
   * A run stops where a property kept by every step still holds, at most
   * `fuel` steps on, and for the reason its last step gives: done, a
   * panic, or one more yield with the fuel used up.
   */
  lemma {:induction false} StepsKeep(step: Iterator -> Yield, keep: Iterator -> bool, it: Iterator, fuel: nat)
    requires keep(it) && Keeps(step, keep)
    ensures var r := Steps(step, it, fuel);
      && keep(r.last) && it.index <= r.last.index <= it.index + fuel
      && (r.stop.None? <==> step(r.last).Done?)
      && (r.stop.Some? && r.stop.value.Panicked? ==> step(r.last) == Panic(r.stop.value.error))
      && (r.stop == Some(NeverFinishes) ==> step(r.last).Yielded? && r.last.index == it.index + fuel)
    decreases fuel
  {
    match step(it)
    case Done =>
    case Panic(_) =>
    case Yielded(_, next) =>
      if fuel != 0 {
        StepsKeep(step, keep, next, fuel - 1);
      }
  }

  /**
   * A run finishes when, wherever the kept property holds and the step is
   * not done, the step yields short of the fuel bound.
   */
  lemma StepsFinish(step: Iterator -> Yield, keep: Iterator -> bool, it: Iterator, fuel: nat)
    requires keep(it) && Keeps(step, keep)
    requires forall i :: keep(i) && !step(i).Done? ==> step(i).Yielded? && i.index < it.index + fuel
    ensures var r := Steps(step, it, fuel); r.stop.None? && keep(r.last)
  {
    StepsKeep(step, keep, it, fuel);
  }

  /** The setup of `start` and its strike positions survive every step. */
  lemma KeepsSetup(e: Game.Engine, start: Iterator)
    ensures Keeps(Stepper(e), (i: Iterator) => i.incorrect == start.incorrect && SameSetup(start.game, i.game))
  {
  }

  /** `GameOver::new`'s loop: step the iterator until it is done, allowing `fuel` yields. */
  function Run(e: Game.Engine, it: Iterator, fuel: nat): (r: Ran)
    ensures r.stop.None? ==> Game.Finished(r.last.game)
    ensures r.stop == Some(NeverFinishes) ==>
      !Game.Finished(r.last.game) && r.last.index == it.index + fuel
    ensures r.last.incorrect == it.incorrect && SameSetup(it.game, r.last.game)
  {
    KeepsSetup(e, it);
    StepsKeep(Stepper(e), (i: Iterator) => i.incorrect == it.incorrect && SameSetup(it.game, i.game), it, fuel);
    Steps(Stepper(e), it, fuel)
  }

  /** Being in step survives every step. */
  lemma KeepsTracks(e: Game.Engine)
    ensures Keeps(Stepper(e), (i: Iterator) => Tracks(i))
  {
    forall i | Tracks(i) && IterNext(e, i).Yielded?
      ensures Tracks(IterNext(e, i).next)
    {
      TrackedStep(e, i);
    }
  }

  lemma RunTracks(e: Game.Engine, it: Iterator, fuel: nat)
    requires Tracks(it)
    ensures Tracks(Run(e, it, fuel).last)
  {
    KeepsTracks(e);
    StepsKeep(Stepper(e), (i: Iterator) => Tracks(i), it, fuel);
  }

  /** One more than the largest stored strike position, 0 for none. */
  function Bound(s: Game.Slots): (b: nat)
    ensures forall k :: 0 <= k < 3 && s[k].Some? ==> s[k].value < b
  {
    var b0 := if s[0].Some? then s[0].value + 1 else 0;
    var b1 := if s[1].Some? then s[1].value + 1 else 0;
    var b2 := if s[2].Some? then s[2].value + 1 else 0;
    var m := if b0 < b1 then b1 else b0;
    if m < b2 then b2 else m
  }

  /** The iterator `GameOver::new` runs: a fresh game's iterator given the strike positions. */
  function Start(e: Game.Engine, seed: bv64, setId: UnseenSetId, data: seq<Game.Element>,
                 threshold: Game.SeenThreshold, incorrect: Game.Slots): (it: Iterator)
  {
    IntoIter(e, GameOver(Game.New(e, seed, threshold, data), setId)).(incorrect := incorrect)
  }

  /**
   * `GameOver::new`: replay a fresh game with the given strike positions
   * until it finishes.  Past the last stored position no commit can be
   * wrong, so a replay not finished by then never finishes
   * (`NeverFinishesIsFinal`).
   */
  function New(e: Game.Engine, seed: bv64, setId: UnseenSetId, data: seq<Game.Element>,
               threshold: Game.SeenThreshold, incorrect: Game.Slots): (r: Result<GameOver, ReplayError>)
    ensures r.Success? ==>
      && Game.Finished(r.value.game) && r.value.setId == setId
      && r.value.game.seed == seed && r.value.game.threshold == threshold && r.value.game.unseen.data == data
  {
    var ran := Run(e, Start(e, seed, setId, data, threshold, incorrect), Bound(incorrect));
    if ran.stop.Some? then Failure(ran.stop.value) else Success(GameOver(ran.last.game, setId))
  }

  /** The starting iterator is in step with its game. */
  lemma StartTracks(e: Game.Engine, seed: bv64, setId: UnseenSetId, data: seq<Game.Element>,
                    threshold: Game.SeenThreshold, incorrect: Game.Slots)
    ensures var it := Start(e, seed, setId, data, threshold, incorrect);
      Tracks(it) && it.index == 0 && it.incorrect == incorrect
      && it.game == Game.New(e, seed, threshold, data)
  {
  }

  // ---------------------------------------------------------------------------
  // A strictly increasing triple of strike positions
  // ---------------------------------------------------------------------------

  /** Three filled, strictly increasing strike positions. */
  predicate Ascending(s: Game.Slots)
  {
    s[0].Some? && s[1].Some? && s[2].Some? && s[0].value < s[1].value < s[2].value
  }

  /** The game's strikes after `index` steps: exactly the stored positions below `index`. */
  ghost predicate Recorded(slots: Game.Slots, s: Game.Slots, index: nat)
    requires Ascending(s)
  {
    forall k :: 0 <= k < 3 ==> slots[k] == (if s[k].value < index then s[k] else None)
  }

  /** A wrong commit at a stored position fills the slot that position belongs in. */
  lemma RecordedStrike(slots: Game.Slots, s: Game.Slots, index: nat)
    requires Ascending(s) && Recorded(slots, s, index) && Some(index) in s
    ensures Recorded(Game.PushIncorrect(slots, index).slots, s, index + 1)
  {
    var k :| 0 <= k < 3 && s[k] == Some(index);
    var p := Game.PushIncorrect(slots, index);
    assert slots[k].None?;
    var k': nat :| Game.FirstFree(slots, k') && p.slots == slots[k' := Some(index)];
    assert k' == k;
  }

  /** A right commit away from the stored positions leaves the record as it is. */
  lemma RecordedPass(slots: Game.Slots, s: Game.Slots, index: nat)
    requires Ascending(s) && Recorded(slots, s, index) && Some(index) !in s
    ensures Recorded(slots, s, index + 1)
  {
    forall k | 0 <= k < 3
      ensures s[k].value < index + 1 <==> s[k].value < index
    {
      assert s[k] != Some(index);
    }
  }

  /** A step records a strike exactly at a stored position. */
  lemma RecordedStep(e: Game.Engine, it: Iterator)
    requires Tracks(it) && Ascending(it.incorrect)
    requires Recorded(it.game.incorrect, it.incorrect, it.index)
    requires IterNext(e, it).Yielded?
    ensures Recorded(IterNext(e, it).next.game.incorrect, it.incorrect, it.index + 1)
  {
    TrackedStep(e, it);
    if Some(it.index) in it.incorrect {
      RecordedStrike(it.game.incorrect, it.incorrect, it.index);
    } else {
      RecordedPass(it.game.incorrect, it.incorrect, it.index);
    }
  }

  /** Once the last slot is filled, the record holds every stored position. */
  lemma RecordedFull(slots: Game.Slots, s: Game.Slots, index: nat)
    requires Ascending(s) && Recorded(slots, s, index) && slots[2].Some?
    ensures slots == s && s[2].value < index
  {
  }

  /** While the last slot is empty, the step index has not passed the last stored position. */
  lemma RecordedPending(slots: Game.Slots, s: Game.Slots, index: nat)
    requires Ascending(s) && Recorded(slots, s, index) && slots[2].None?
    ensures index <= s[2].value
  {
  }

  /** In step, with the strikes after `index` steps those of `s` below `index`. */
  ghost predicate RecordedAt(s: Game.Slots, it: Iterator)
  {
    && Tracks(it) && it.incorrect == s && Ascending(s)
    && Recorded(it.game.incorrect, s, it.index) && it.index <= s[2].value + 1
  }

  lemma KeepsRecorded(e: Game.Engine, s: Game.Slots)
    ensures Keeps(Stepper(e), (i: Iterator) => RecordedAt(s, i))
  {
    forall i | RecordedAt(s, i) && IterNext(e, i).Yielded?
      ensures RecordedAt(s, IterNext(e, i).next)
    {
      TrackedStep(e, i);
      RecordedStep(e, i);
      RecordedPending(i.game.incorrect, s, i.index);
    }
  }

  /**
   * A replay in step with strikes `s` recorded so far, given fuel to reach
   * the last stored position, ends finished with exactly the strikes `s`
   * or panics because the pool ran out.
   */
  lemma RunRecorded(e: Game.Engine, it: Iterator, fuel: nat)
    requires Tracks(it) && Ascending(it.incorrect)
    requires Recorded(it.game.incorrect, it.incorrect, it.index)
    requires it.index + fuel == it.incorrect[2].value + 1
    ensures var r := Run(e, it, fuel);
      && (r.stop.None? ==> r.last.game.incorrect == it.incorrect && r.last.game.count == it.index + fuel)
      && (r.stop.Some? ==> r.stop.value == Panicked(Game.UnseenEmpty))
  {
    var s := it.incorrect;
    KeepsRecorded(e, s);
    StepsKeep(Stepper(e), (i: Iterator) => RecordedAt(s, i), it, fuel);
    var r := Run(e, it, fuel);
    if r.stop.None? {
      RecordedFull(r.last.game.incorrect, s, r.last.index);
    } else if r.stop == Some(NeverFinishes) {
      RecordedPending(r.last.game.incorrect, s, r.last.index);
      assert false;
    } else {
      TrackedStep(e, r.last);
    }
  }

  /**
   * `GameOver::new` with a strictly increasing triple `[p0, p1, p2]` either
   * panics because the pool ran out or ends finished after `p2 + 1`
   * commits, with exactly those strikes, no lives and score `p2 + 1 - 3`.
   */
  lemma NewEndsFinished(e: Game.Engine, seed: bv64, setId: UnseenSetId, data: seq<Game.Element>,
                        threshold: Game.SeenThreshold, incorrect: Game.Slots)
    requires Ascending(incorrect)
    ensures var r := New(e, seed, setId, data, threshold, incorrect);
      && (r.Failure? ==> r.error == Panicked(Game.UnseenEmpty))
      && (r.Success? ==>
            && r.value.game.incorrect == incorrect
            && r.value.game.count == incorrect[2].value + 1
            && Game.Lives(r.value.game) == 0
            && Game.Score(r.value.game) == incorrect[2].value + 1 - 3)
  {
    StartTracks(e, seed, setId, data, threshold, incorrect);
    RunRecorded(e, Start(e, seed, setId, data, threshold, incorrect), Bound(incorrect));
  }

  /** In step, unfinished, and past every stored position. */
  ghost predicate Late(it: Iterator)
  {
    Tracks(it) && !Game.Finished(it.game) && it.index >= Bound(it.incorrect)
  }

  /** Past every stored position a step commits right, so the game stays unfinished. */
  lemma KeepsLate(e: Game.Engine)
    ensures Keeps(Stepper(e), (i: Iterator) => Late(i))
  {
    forall i | Late(i) && IterNext(e, i).Yielded?
      ensures Late(IterNext(e, i).next)
    {
      TrackedStep(e, i);
      assert Correct(IterNext(e, i).commit);
    }
  }

  /** Past every stored position the iterator never finishes. */
  lemma NoLateStrike(e: Game.Engine, it: Iterator, fuel: nat)
    requires Tracks(it) && !Game.Finished(it.game) && it.index >= Bound(it.incorrect)
    ensures Run(e, it, fuel).stop.Some?
  {
    KeepsLate(e);
    StepsKeep(Stepper(e), (i: Iterator) => Late(i), it, fuel);
  }

  /**
   * When `GameOver::new` reports `NeverFinishes`, no amount of further
   * stepping finishes the replay: the fuel bound loses nothing.
   */
  lemma NeverFinishesIsFinal(e: Game.Engine, seed: bv64, setId: UnseenSetId, data: seq<Game.Element>,
                             threshold: Game.SeenThreshold, incorrect: Game.Slots)
    ensures var ran := Run(e, Start(e, seed, setId, data, threshold, incorrect), Bound(incorrect));
      ran.stop == Some(NeverFinishes) ==> forall fuel :: Run(e, ran.last, fuel).stop.Some?
  {
    var it := Start(e, seed, setId, data, threshold, incorrect);
    var ran := Run(e, it, Bound(incorrect));
    if ran.stop == Some(NeverFinishes) {
      StartTracks(e, seed, setId, data, threshold, incorrect);
      RunTracks(e, it, Bound(incorrect));
      forall fuel: nat
        ensures Run(e, ran.last, fuel).stop.Some?
      {
        NoLateStrike(e, ran.last, fuel);
      }
    }
  }

  /**
   * Iterating a rebuilt game replays exactly the run that rebuilt it: its
   * iterator is the one `GameOver::new` started from.
   */
  lemma IterReplaysNew(e: Game.Engine, seed: bv64, setId: UnseenSetId, data: seq<Game.Element>,
                       threshold: Game.SeenThreshold, incorrect: Game.Slots)
    requires Ascending(incorrect)
    ensures var r := New(e, seed, setId, data, threshold, incorrect);
      r.Success? ==> IntoIter(e, r.value) == Start(e, seed, setId, data, threshold, incorrect)
  {
    NewEndsFinished(e, seed, setId, data, threshold, incorrect);
  }

  // ---------------------------------------------------------------------------
  // Rebuilding a played game
  // ---------------------------------------------------------------------------

  /** A finished reachable game's strikes are a strictly increasing triple. */
  lemma FinishedAscending(g: Game.Game)
    requires Game.Inv(g) && Game.Finished(g)
    ensures Ascending(g.incorrect)
  {
  }

  /** The facts a lockstep step needs about the play it follows. */
  ghost predicate InStep(e: Game.Engine, it: Iterator, guesses: seq<bool>)
  {
    && Tracks(it)
    && Game.Finished(Game.Play(e, it.game, guesses).game)
    && it.incorrect == Game.Play(e, it.game, guesses).game.incorrect
    && Ascending(it.incorrect) && Recorded(it.game.incorrect, it.incorrect, it.index)
    && it.index <= it.incorrect[2].value + 1
  }

  /** A finished game ends the play. */
  lemma LockstepDone(e: Game.Engine, it: Iterator, guesses: seq<bool>)
    requires Game.Finished(it.game)
    ensures Game.Play(e, it.game, guesses).game == it.game
  {
  }

  /** One step of the replay follows one round of the play and stays in step. */
  lemma LockstepStep(e: Game.Engine, it: Iterator, guesses: seq<bool>)
    requires InStep(e, it, guesses) && !Game.Finished(it.game)
    ensures |guesses| != 0 && IterNext(e, it).Yielded? && it.index <= it.incorrect[2].value
    ensures InStep(e, IterNext(e, it).next, guesses[1..])
    ensures Game.Play(e, IterNext(e, it).next.game, guesses[1..]).game == Game.Play(e, it.game, guesses).game
  {
    var g := it.game;
    var n := Game.Next(e, g);
    assert |guesses| != 0 && n.result.Success?;
    assert g.incorrect[2] == None;
    var c := Game.Commit(e, n.game, guesses[0]);
    Game.RoundScore(e, g, guesses[0]);
    Game.RoundStrikes(e, g, guesses[0]);
    Game.PlayStrikesGrow(e, c.game, guesses[1..]);
    assert Game.Play(e, g, guesses).game == Game.Play(e, c.game, guesses[1..]).game;
    LockstepGuess(e, it, guesses[0], guesses[1..]);
    RecordedStep(e, it);
    TrackedStep(e, it);
  }

  /** The guess the replay commits at a step is the guess the play made there. */
  lemma LockstepGuess(e: Game.Engine, it: Iterator, guess: bool, rest: seq<bool>)
    requires Tracks(it) && !Game.Finished(it.game) && Game.Next(e, it.game).result.Success?
    requires Ascending(it.incorrect) && Recorded(it.game.incorrect, it.incorrect, it.index)
    requires var c := Game.Commit(e, Game.Next(e, it.game).game, guess).game;
      && Game.Inv(c)
      && (forall k :: 0 <= k < 3 ==>
           c.incorrect[k] == it.game.incorrect[k] || (it.game.incorrect[k].None? && c.incorrect[k] == Some(it.game.count)))
      && Game.Grows(c.incorrect, it.incorrect, c.count)
    ensures IterNext(e, it).Yielded?
    ensures IterNext(e, it).next.game == Game.Commit(e, Game.Next(e, it.game).game, guess).game
  {
    var g := it.game;
    var n := Game.Next(e, g);
    var c := Game.Commit(e, n.game, guess);
    var s := it.incorrect;
    if !c.result.value {
      assert exists k :: 0 <= k < 3 && c.game.incorrect[k] != g.incorrect[k];
      var k :| 0 <= k < 3 && c.game.incorrect[k] != g.incorrect[k];
      assert s[k] == Some(it.index);
    }
  }

  /**
   * `GameOver::new` rebuilds any finished game from its seed, threshold,
   * data and strike positions: the replay reaches the very game the play
   * ended in.
   */
  lemma RebuildsPlayed(e: Game.Engine, seed: bv64, setId: UnseenSetId, data: seq<Game.Element>,
                       threshold: Game.SeenThreshold, guesses: seq<bool>)
    requires Game.Finished(Game.Play(e, Game.New(e, seed, threshold, data), guesses).game)
    ensures var f := Game.Play(e, Game.New(e, seed, threshold, data), guesses).game;
      New(e, seed, setId, data, threshold, f.incorrect) == Success(GameOver(f, setId))
  {
    var f := Game.Play(e, Game.New(e, seed, threshold, data), guesses).game;
    var it := Start(e, seed, setId, data, threshold, f.incorrect);
    StartInStep(e, seed, setId, data, threshold, guesses);
    RebuildFrom(e, it, guesses);
  }

  /** In step with the rest of `guesses` after `index` steps, that play ending in `f`. */
  ghost predicate Follows(e: Game.Engine, guesses: seq<bool>, f: Game.Game, it: Iterator)
  {
    && it.index <= |guesses| && InStep(e, it, guesses[it.index..])
    && Game.Play(e, it.game, guesses[it.index..]).game == f
  }

  /** One step of the replay follows the next round of the play. */
  lemma FollowStep(e: Game.Engine, guesses: seq<bool>, f: Game.Game, it: Iterator)
    requires Follows(e, guesses, f, it) && IterNext(e, it).Yielded?
    ensures Follows(e, guesses, f, IterNext(e, it).next)
  {
    var rest := guesses[it.index..];
    LockstepStep(e, it, rest);
    assert rest[1..] == guesses[it.index + 1..];
  }

  /** In step and unfinished, the replay yields, short of its fuel bound. */
  lemma FollowsYields(e: Game.Engine, guesses: seq<bool>, f: Game.Game, it: Iterator)
    requires Follows(e, guesses, f, it) && !Game.Finished(it.game)
    ensures Stepper(e)(it).Yielded? && it.index < Bound(f.incorrect)
  {
    LockstepStep(e, it, guesses[it.index..]);
  }

  lemma KeepsFollows(e: Game.Engine, guesses: seq<bool>, f: Game.Game)
    ensures Keeps(Stepper(e), (i: Iterator) => Follows(e, guesses, f, i))
  {
    forall i | Follows(e, guesses, f, i) && IterNext(e, i).Yielded?
      ensures Follows(e, guesses, f, IterNext(e, i).next)
    {
      FollowStep(e, guesses, f, i);
    }
  }

  /**
   * Replaying in step with a play that ends finished: at every step the
   * replay's commit is wrong exactly where the play's was, so within the
   * fuel `GameOver::new` gives it the replay ends in the play's last game.
   */
  lemma RebuildFrom(e: Game.Engine, it: Iterator, guesses: seq<bool>)
    requires InStep(e, it, guesses) && it.index == 0
    ensures var ran := Run(e, it, Bound(it.incorrect));
      ran.stop.None? && ran.last.game == Game.Play(e, it.game, guesses).game
  {
    var f := Game.Play(e, it.game, guesses).game;
    var fuel := Bound(it.incorrect);
    assert guesses[0..] == guesses;
    KeepsFollows(e, guesses, f);
    forall i | Follows(e, guesses, f, i) && !Stepper(e)(i).Done?
      ensures Stepper(e)(i).Yielded? && i.index < it.index + fuel
    {
      FollowsYields(e, guesses, f, i);
    }
    StepsFinish(Stepper(e), (i: Iterator) => Follows(e, guesses, f, i), it, fuel);
    var r := Run(e, it, fuel);
    LockstepDone(e, r.last, guesses[r.last.index..]);
  }

  /** The replay of a finished play's strikes starts in step with that play. */
  lemma StartInStep(e: Game.Engine, seed: bv64, setId: UnseenSetId, data: seq<Game.Element>,
                    threshold: Game.SeenThreshold, guesses: seq<bool>)
    requires Game.Finished(Game.Play(e, Game.New(e, seed, threshold, data), guesses).game)
    ensures var f := Game.Play(e, Game.New(e, seed, threshold, data), guesses).game;
      var it := Start(e, seed, setId, data, threshold, f.incorrect);
      && InStep(e, it, guesses) && it.index == 0 && it.incorrect == f.incorrect
      && it.game == Game.New(e, seed, threshold, data)
  {
    var g := Game.New(e, seed, threshold, data);
    var f := Game.Play(e, g, guesses).game;
    Game.PlayScore(e, g, guesses);
    FinishedAscending(f);
    StartTracks(e, seed, setId, data, threshold, f.incorrect);
  }

  // ---------------------------------------------------------------------------
  // Games a stored record rebuilds
  // ---------------------------------------------------------------------------

  /**
   * `go` is what `GameOver::new` rebuilds from its own seed, set, threshold
   * and strike positions over `data`: the records the coders store are
   * enough to restore it.
   */
  ghost predicate Rebuilds(e: Game.Engine, go: GameOver, data: seq<Game.Element>)
  {
    New(e, go.game.seed, go.setId, data, go.game.threshold, go.game.incorrect) == Success(go)
  }

  /** A rebuilt game is finished with its three strike slots filled and strictly increasing. */
  lemma NewFilled(e: Game.Engine, seed: bv64, setId: UnseenSetId, data: seq<Game.Element>,
                  threshold: Game.SeenThreshold, incorrect: Game.Slots)
    ensures var r := New(e, seed, setId, data, threshold, incorrect);
      r.Success? ==> Ascending(r.value.game.incorrect)
  {
    StartTracks(e, seed, setId, data, threshold, incorrect);
    RunTracks(e, Start(e, seed, setId, data, threshold, incorrect), Bound(incorrect));
  }

  /** What `GameOver::new` builds from a strictly increasing triple rebuilds itself. */
  lemma NewRebuilds(e: Game.Engine, seed: bv64, setId: UnseenSetId, data: seq<Game.Element>,
                    threshold: Game.SeenThreshold, incorrect: Game.Slots)
    requires Ascending(incorrect) && New(e, seed, setId, data, threshold, incorrect).Success?
    ensures Rebuilds(e, New(e, seed, setId, data, threshold, incorrect).value, data)
  {
    NewEndsFinished(e, seed, setId, data, threshold, incorrect);
  }

  /** A finished play from a fresh game, stored with any set, rebuilds itself. */
  lemma PlayedRebuilds(e: Game.Engine, seed: bv64, setId: UnseenSetId, data: seq<Game.Element>,
                       threshold: Game.SeenThreshold, guesses: seq<bool>)
    requires Game.Finished(Game.Play(e, Game.New(e, seed, threshold, data), guesses).game)
    ensures Rebuilds(e, GameOver(Game.Play(e, Game.New(e, seed, threshold, data), guesses).game, setId), data)
  {
    RebuildsPlayed(e, seed, setId, data, threshold, guesses);
  }

  /** A rebuilt game has all three strike slots filled, in increasing order. */
  lemma RebuildsFilled(e: Game.Engine, go: GameOver, data: seq<Game.Element>)
    requires Rebuilds(e, go, data)
    ensures Ascending(go.game.incorrect) && go.game.unseen.data == data
  {
    NewFilled(e, go.game.seed, go.setId, data, go.game.threshold, go.game.incorrect);
  }
}
