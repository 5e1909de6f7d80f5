# deja-vu recall quiz: a Dafny model of the engine and its codecs

deja-vu is a memory quiz. The player is shown elements one at a time, drawn
from a word list. For each element they say whether they have seen it
before in this game. A wrong answer costs one of three lives, and the third
wrong answer ends the game. A finished game is stored as a short record:
its seed, its seen threshold and the positions of its three wrong answers.
A stored record rebuilds the whole game by replaying it, because every
draw is a deterministic function of the seed.

This project models that core and proves what it promises:

- `Permutation`: the `IndexedPermutation` mixing primitive, with the
  `KNOMUL` and `KSINK` permutations and the shared `stir`, `mix` and `hash`.
- `Konadare`: the Konadare192PxPlusPlus generator, its seeding, its output
  step, and the Lemire/Evensen bounded draw.
- `Unseen`: the sparse Fisher–Yates pool that draws each element at most
  once.
- `Game`: the quiz state machine (`next`, `commit`, lives, score, reset).
- `Replay`: `GameOver`, its commit iterator, and `GameOver::new`, which
  rebuilds a game from its record.
- `Version`, `SetId`, `Coding00`, `CoderV01`, `Envelope`, `Encoded`: the
  versioned envelope and its two codecs, "00" and "goc-v01".
- `Path` and `History`: the web client's URL path builder and its answer
  history.
- `Tokens` and `Utf8`: the payload text and the bytes its checksum is
  computed over.
- `Wrappers`: `Option` and `Result`.

Every `&mut self` operation is a pure function that returns the new state
together with the method's result. The engine is written over three
primitives: the generator constructor, the bounded draw and the element
permutation (`Game.Engine`). `Game.DEJA_VU` instantiates them with
`Konadare.FromSeed`, `Konadare.Below` and `Permutation.Ksink`. The
generator is a pure function of its seed, so equal seeds give equal
streams by construction. The pool and
the game are proved for every bounded draw, so each result holds for the
real generator in particular.

All 64-bit arithmetic (`+`, `*`, shifts, rotations) wraps, as in a release
build; the model uses `bv64`. The 32-bit products of the bounded draw are
computed on integers, reduced modulo 2^32. Both callers of the bounded
draw cast a `usize` bound to `u32`, and the model applies that truncation
explicitly (`Konadare.Below`).

Where the source panics, the model returns an error:

- `GameOver::new` panics through `unwrap` when the pool runs dry. The model
  returns `Replay.Panicked(UnseenEmpty)`.
- When the stored positions cannot finish the game, the source keeps
  drawing past the last position: it panics once the pool runs dry, or
  loops forever when every draw picks a seen element. The model returns
  `Replay.NeverFinishes` for both.
- The "00" encoder panics on an empty strike slot. The model returns
  `Coding00.Unfilled`.
- The "00" decoder indexes past a short position list. The model returns
  `Coding00.TooFewIncorrectCommits`.
- Setting `answer` on an empty history dereferences `undefined`. The model
  returns `History.NoEntries`.

The source's `GameOver` pairs the game with the set it was played on:
`SealedEncodedGameOver::new` reads `unseen_set_id()`, and the coders
pass a set to `GameOver::new`. The model's `Replay.GameOver` therefore
carries a `setId` beside the game. The coders read the seen threshold and
the element checksum of a game over directly from its game.

## Model

| member | source | states |
|---|---|---|
| Permutation.Stir | src/wasm/src/rng/indexed_permutaion.rs:7-34 | `stir` keeps the slice length; with the guard on, a slice of two or more words never ends all zero |
| Permutation.StirPass | src/wasm/src/rng/indexed_permutaion.rs:18-31 | one pass of `stir` with its safeguard: with the guard on, the pass never leaves all words zero |
| Permutation.PassSpec | src/wasm/src/rng/indexed_permutaion.rs:20-26 | in one in-place pass, slot 0 is permuted against the old last slot and every later slot against the already updated slot before it |
| Permutation.LeftIndexIsMod | src/wasm/src/rng/indexed_permutaion.rs:19-26 | the masked index used for power-of-two lengths and the modulo index used otherwise are the same neighbour, `(i + n - 1) mod n` |
| Permutation.MaskIsMod | src/wasm/src/rng/indexed_permutaion.rs:19-25 | when `n & (n - 1) == 0`, masking with `n - 1` is reduction modulo `n` |
| Permutation.LeftNeighbour | src/wasm/src/rng/indexed_permutaion.rs:21-25 | slot 0's neighbour is the last slot; slot `i`'s is slot `i - 1` |
| Permutation.StirEmpty | src/wasm/src/rng/indexed_permutaion.rs:9-10 | `stir` of an empty slice returns it unchanged |
| Permutation.StirOne | src/wasm/src/rng/indexed_permutaion.rs:11-16 | a one-word slice is permuted against `SQRT19`; with the guard on, a zero result becomes the permutation of 0 against `SQRT5` |
| Permutation.Counting | src/wasm/src/rng/indexed_permutaion.rs:38-40 | the slice `mix` fills before stirring starts at the seed and goes up by one (wrapping) per slot |
| Permutation.Mix | src/wasm/src/rng/indexed_permutaion.rs:36-42 | `mix` fills a slice of the given length, and a slice of two or more words is never all zero |
| Permutation.MixThreeNonZero | src/wasm/src/rng/indexed_permutaion.rs:36-42 | the three-word mix that seeds the generator has a non-zero word |
| Permutation.Hash | src/wasm/src/rng/indexed_permutaion.rs:44-49 | `hash` of no bytes is the seed; this and the fold lemmas hold for any `permute_index`, in particular `Permutation.Knomul` and `Permutation.Ksink` (lines 56-93), which only compute the mixing rounds |
| Permutation.HashAppend | src/wasm/src/rng/indexed_permutaion.rs:44-49 | hashing a concatenation continues from the hash of the first part (the fold is a left fold) |
| Permutation.HashSnoc | src/wasm/src/rng/indexed_permutaion.rs:48 | each further byte is folded in as `permute_index(byte, accumulator)` |
| Konadare.FromSeed | src/wasm/src/rng/konadare192pxplusplus.rs:16-26 | the state words are the three words of `KNOMUL::mix` from the seed, and they are never all zero |
| Konadare.Next | src/wasm/src/rng/konadare192pxplusplus.rs:29-38 | the output is `b ^ c` of the state before the step; `a` moves on by the increment; `b` and `c` are updated as add-rotate steps |
| Konadare.StreamSplit | src/wasm/src/rng/konadare192pxplusplus.rs:29-38 | the outputs are a function of the state and the call count: the first `n + m` outputs are the first `n` followed by the first `m` from the state `n` calls later |
| Konadare.AdvanceSplit | src/wasm/src/rng/konadare192pxplusplus.rs:29-38 | running `n + m` steps is running `n` steps and then `m` |
| Konadare.Candidate | src/wasm/src/rng/konadare192pxplusplus.rs:48 | a candidate is below 2^31 (the low 31 bits of an output) |
| Konadare.Threshold | src/wasm/src/rng/konadare192pxplusplus.rs:52 | the rejection threshold is below the bound |
| Konadare.HighBelow | src/wasm/src/rng/konadare192pxplusplus.rs:49-59 | the high half `m >> 32` of a candidate's product is below the bound, and 0 for a bound of 0 |
| Konadare.Redraw | src/wasm/src/rng/konadare192pxplusplus.rs:53-58 | the rejection loop returns a value below the bound |
| Konadare.BoundedDraw | src/wasm/src/rng/konadare192pxplusplus.rs:46-60 | the bounded draw is below every bound of at least 1, and 0 for the bound 0 |
| Konadare.NextWithUpperBound | src/wasm/src/rng/konadare192pxplusplus.rs:46-60 | `next_with_upper_bound` is below every bound of at least 1, and 0 for the bound 0 |
| Konadare.RedrawIsFirstAccepted | src/wasm/src/rng/konadare192pxplusplus.rs:53-58 | the rejection loop returns the first later candidate whose low product reaches the threshold |
| Konadare.BoundedDrawIsLemire | src/wasm/src/rng/konadare192pxplusplus.rs:46-60 | the bounded draw equals the Lemire reference (the first candidate whose low product reaches the threshold); the pre-check `l < ub` only skips computing the threshold |
| Konadare.NextWithUpperBoundIsLemire | src/wasm/src/rng/konadare192pxplusplus.rs:46-60 | `next_with_upper_bound` on the real generator equals the Lemire reference |
| Konadare.Below | src/wasm/src/game/unseen.rs:49 | a draw for a `usize` bound truncated to `u32` is below every bound of at least 1, and 0 when the bound truncates to 0 |
| Unseen.New | src/wasm/src/game/unseen.rs:32-40 | a new pool has every element live and nothing remapped, and satisfies the pool invariant |
| Unseen.Reset | src/wasm/src/game/unseen.rs:61-65 | `reset` restores the full size and an empty map over the same data |
| Unseen.Clone | src/wasm/src/game/unseen.rs:17-27 | `clone` shares the data and copies the size and the map |
| Unseen.CloneReplays | src/wasm/src/game/unseen.rs:17-27 | a clone polled on an equal stream draws exactly what the original draws |
| Unseen.Walk | src/wasm/src/game/unseen.rs:52-54 | the chain walk ends at an in-range slot that has no map entry, and a slot without an entry is its own result |
| Unseen.WalkLoop | src/wasm/src/game/unseen.rs:50-54 | the source's `while let` loop computes the chain walk and terminates |
| Unseen.Resolve | src/wasm/src/game/unseen.rs:50-54 | a slot drawn below `size` resolves to a backing index that is not remapped |
| Unseen.Retire | src/wasm/src/game/unseen.rs:55-56 | a draw shrinks the size by one and maps the drawn slot to the old last live slot, keeping the invariant |
| Unseen.Slot | src/wasm/src/game/unseen.rs:49 | the slot drawn is below `size` |
| Unseen.ChainsClimb | src/wasm/src/game/unseen.rs:52-56 | after the first step of the walk, every map entry points strictly upwards, so the walk terminates |
| Unseen.SelfLoopsAboveSize | src/wasm/src/game/unseen.rs:55-56 | a slot mapped to itself is no longer live |
| Unseen.Poll | src/wasm/src/game/unseen.rs:44-59 | an empty pool returns `None` and changes nothing; otherwise `poll` returns the element at the resolved index of the drawn slot, and the pool shrinks by one and keeps its invariant |
| Unseen.ViewOfNew | src/wasm/src/game/unseen.rs:32-40 | in a new pool, live slot `k` resolves to index `k` |
| Unseen.WalkFrame | src/wasm/src/game/unseen.rs:52-56 | retiring slot `i` leaves every walk that starts at another slot unchanged |
| Unseen.RetireView | src/wasm/src/game/unseen.rs:49-56 | a draw is the Fisher–Yates swap-remove on the live slots: the last live slot moves into the drawn position and the last position goes |
| Unseen.RetireViewAt | src/wasm/src/game/unseen.rs:49-56 | after drawing slot `i`, live slot `i` resolves to what the last live slot resolved to, and every other live slot resolves as before |
| Unseen.PollRemovesDrawn | src/wasm/src/game/unseen.rs:44-59 | a poll removes exactly the drawn index from the multiset of live indices |
| Unseen.PollN | src/wasm/src/game/unseen.rs:44-59 | `n` polls on a pool with `n` live slots each return the element at the index they drew, and leave `n` fewer live slots |
| Unseen.PollNDrawsView | src/wasm/src/game/unseen.rs:42-59 | the indices drawn by successive polls plus the live indices left are the live indices at the start, as multisets |
| Unseen.ExactlyOnce | src/wasm/src/game/unseen.rs:42-59 | `N` polls on a new pool of `N` elements draw every index exactly once, each with its element, and the next poll returns `None` |
| Unseen.ResetReplays | src/wasm/src/game/unseen.rs:61-65 | a reset pool draws, on an equal stream, exactly what a new pool over the same data draws |
| Game.New | src/wasm/src/game/game.rs:82-96 | a new game holds the given seed, threshold and data, and has nothing seen, nothing pending, no strikes, three lives, score 0 and the default element checksum |
| Game.Reset | src/wasm/src/game/game.rs:99-111 | `reset` gives exactly the game `new` builds from the same seed, threshold and data |
| Game.ResetReplays | src/wasm/src/game/game.rs:98-111 | a reset game plays any sequence of answers exactly as a new game with the same seed, threshold and data |
| Game.Lives | src/wasm/src/game/game.rs:114-121 | `lives` counts the empty strike slots, at most three, and is 0 exactly when all three are filled |
| Game.ScoreNonNegative | src/wasm/src/game/game.rs:124-127 | the `usize` subtraction in `score` never underflows: the score lies between 0 and the commit count |
| Game.FinishedIffNoLives | src/wasm/src/game/game.rs:142-145 | a reachable game is finished exactly when it has no lives left |
| Game.SeenPick | src/wasm/src/game/game.rs:206-214 | the seen-draw loop picks an index below the number of seen elements, at an element other than the previous one whenever one exists |
| Game.DistinctHasAvoider | src/wasm/src/game/game.rs:204-214 | with two or more distinct seen elements, some seen element differs from the previous one, so the loop has something to find |
| Game.NextUnseen | src/wasm/src/game/game.rs:190-202 | `next_unseen` fails with `UnseenEmpty` exactly when the pool is empty, and then changes nothing; otherwise it offers an element of the data, shrinks the pool by one and folds the element into the checksum |
| Game.NextSeen | src/wasm/src/game/game.rs:204-220 | `next_seen` offers a seen element other than the previous one, leaves the pool alone and folds the element into the checksum |
| Game.Next | src/wasm/src/game/game.rs:169-188 | `next` refuses a finished game, then a pending element; with fewer than two seen elements it offers an unseen one; otherwise it draws below `THRESHOLD_MAX` and offers an unseen element (failing with `UnseenEmpty` exactly when the pool is empty) when the draw exceeds the threshold, and a seen element with the pool untouched when it does not; a success offers an element from the pool or a seen one other than the previous, and records it in the checksum |
| Game.NextKeepsInv | src/wasm/src/game/game.rs:169-220 | `next` keeps the game invariant: seen elements distinct, strikes increasing and below the count, the previous element among the seen |
| Game.PushIncorrect | src/wasm/src/game/game.rs:222-231 | `push_incorrect_commit` writes into the first empty slot, and changes nothing when no slot is empty |
| Game.PushKeepsStrikes | src/wasm/src/game/game.rs:222-231 | recording a strike at the current count keeps the slots an increasing filled prefix and costs exactly one life |
| Game.Commit | src/wasm/src/game/game.rs:245-266 | `commit` refuses a finished game, then an empty commit; otherwise it is right exactly when the guess matches "already seen", adds a new element to the seen list, makes the element the previous one, records a wrong guess at the current count, and counts the commit |
| Game.CommitKeepsInv | src/wasm/src/game/game.rs:245-266 | `commit` keeps the game invariant |
| Game.CommitAfterNext | src/wasm/src/game/game.rs:245-266 | a commit after a successful `next` always succeeds |
| Game.RoundScore | src/wasm/src/game/game.rs:245-266 | a round of `next` then `commit` raises the score by one when right, and costs one life when wrong |
| Game.PlayScore | src/wasm/src/game/game.rs:123-127 | over any sequence of rounds, the score grows by the number of right commits and the lives fall by the number of wrong ones |
| Game.NewGameScore | src/wasm/src/game/game.rs:123-127 | from a new game, the score is exactly the number of right commits |
| Game.RoundStrikes | src/wasm/src/game/game.rs:222-231 | a round leaves each strike slot as it was or fills an empty one with the commit count |
| Game.PlayStrikesGrow | src/wasm/src/game/game.rs:222-231 | strikes are never rewritten: over any play, a filled slot keeps its value and a later strike records a later count |
| SetId.UniqueNumberInjective | src/wasm/src/coder/unseen_set_id.rs:22-32 | distinct sets have distinct unique numbers |
| SetId.FromSetNameSetName | src/wasm/src/coder/unseen_set_id.rs:8-18 | a stored set name reads back as its set, and only the three names read as sets |
| Replay.IntoIter | src/wasm/src/game_over/game_over.rs:194-204 | `into_iter` keeps the strike positions, resets the game to the one `new` builds, and starts at index 0 with nothing seen |
| Replay.IterNext | src/wasm/src/game_over/game_over.rs:142-182 | the iterator ends exactly when the game is finished; a commit's actual state is "seen" exactly when this replay met the element before, and the commit is right (`Replay.Correct`, `Commit::correct` at lines 52-55: the guess equals the actual state) exactly when its index is not a stored position |
| Replay.TrackedStep | src/wasm/src/game_over/game_over.rs:149-179 | in step with its game, the iterator's `commit(..).unwrap()` never fails and its commit is right exactly as intended; the only failing `next().unwrap()` is an empty pool |
| Replay.Run | src/wasm/src/game_over/game_over.rs:88 | the `iterator.all` loop stops only at a finished game, or after the fuel with the game unfinished; it keeps the strike positions and the setup |
| Replay.New | src/wasm/src/game_over/game_over.rs:78-91 | a rebuilt game is finished and holds the given seed, set, threshold and data |
| Replay.StartTracks | src/wasm/src/game_over/game_over.rs:85-87 | the iterator `new` runs starts at index 0 in step with a new game, holding the given positions |
| Replay.RecordedStep | src/wasm/src/game_over/game_over.rs:151-179 | each replayed commit records a strike exactly at a stored position |
| Replay.RunRecorded | src/wasm/src/game_over/game_over.rs:88 | a replay from strictly increasing positions ends with exactly those strikes after one commit past the last position, unless the pool runs out |
| Replay.NewEndsFinished | src/wasm/src/game_over/game_over.rs:78-91 | with strictly increasing positions `p0 < p1 < p2`, `new` panics only on an empty pool, or ends after `p2 + 1` commits with exactly those strikes, no lives and score `p2 + 1 - 3` |
| Replay.NeverFinishesIsFinal | src/wasm/src/game_over/game_over.rs:88 | when the bounded replay stops unfinished, no amount of further stepping would finish it |
| Replay.IterReplaysNew | src/wasm/src/game_over/game_over.rs:189-204 | iterating a rebuilt game replays the same run that rebuilt it |
| Replay.FinishedAscending | src/wasm/src/game/game.rs:222-231 | a finished reachable game has its three strikes filled and strictly increasing |
| Replay.LockstepStep | src/wasm/src/game_over/game_over.rs:142-182 | one replayed commit follows one round of a play that ended finished, reaching the same game |
| Replay.LockstepGuess | src/wasm/src/game_over/game_over.rs:151-179 | the guess the replay commits at a step is the guess the play made there |
| Replay.RebuildFrom | src/wasm/src/game_over/game_over.rs:88 | a replay in step with a finished play finishes within the fuel, in the play's final game |
| Replay.RebuildsPlayed | src/wasm/src/game_over/game_over.rs:78-91 | `new` from a finished game's seed, threshold, data and strike positions rebuilds exactly that game |
| Replay.PlayedRebuilds | src/wasm/src/game_over/game_over.rs:78-91 | every finished play from a new game, stored with any set, is rebuilt from its own record |
| Replay.NewRebuilds | src/wasm/src/game_over/game_over.rs:78-91 | what `new` builds from strictly increasing positions is rebuilt from its own record |
| Replay.NewFilled | src/wasm/src/game_over/game_over.rs:78-91 | a rebuilt game has its three strike slots filled and strictly increasing |
| Replay.RebuildsFilled | src/wasm/src/game_over/game_over.rs:78-91 | a game rebuilt from its record has three increasing strikes over the given data |
| Version.Parse | src/wasm/src/coder/version.rs:13-27 | parsing a tag refuses any string but the two known tags, returning that string in the error |
| Version.ParseFormat | src/wasm/src/coder/version.rs:49-60 | the tag written for a version parses back as that version |
| Version.ParseExactlyFormat | src/wasm/src/coder/version.rs:21-24 | a string parses as a version exactly when it is that version's tag |
| Version.FormatInjective | src/wasm/src/coder/version.rs:55-58 | distinct versions write distinct tags |
| Tokens.ParseWrite | src/wasm/src/coder/version/version_00.rs:41-49 | a written payload of valid tokens parses back to the same tokens, as the serialization the codecs use reads back what it wrote |
| Utf8.BytesAppend | src/wasm/src/coder/encoded_game_over.rs:101 | the bytes of a concatenation are the concatenated bytes |
| Coding00.CoderVersion | src/wasm/src/coder/coder/version00coding.rs:41-47 | the "00" codec writes the tag "00" |
| Coding00.Deserialize | src/wasm/src/coder/coder/version00coding.rs:87 | a payload that is not a record fails as corrupt |
| Coding00.DeserializeSerialize | src/wasm/src/coder/coder/version00coding.rs:61-99 | a serialized payload reads back unchanged |
| Coding00.Encode | src/wasm/src/coder/coder/version00coding.rs:61-72 | `encode` succeeds exactly when all three strike slots are filled, and its payload reads back as the dictionary set, the seed and the three positions |
| Coding00.Decode | src/wasm/src/coder/coder/version00coding.rs:81-99 | `decode` fails on a corrupt payload and on fewer than three positions; otherwise its result is `GameOver::new` on the stored seed, the dictionary set, the given data, threshold 0.4 and the first three stored positions, a failure of which is passed on as `Rebuild`; a success is a finished game |
| Coding00.DecodeIgnoresSetId | src/wasm/src/coder/coder/version00coding.rs:81-85 | `decode` ignores the set id it is given |
| Coding00.DecodeEncode | src/wasm/src/coder/coder/version00coding.rs:61-99 | a game on the dictionary set with threshold 0.4 that its record rebuilds encodes and decodes back to itself |
| Coding00.NewRoundTrip | src/wasm/src/coder/coder/version00coding.rs:61-99 | a game `new` builds on the dictionary set with threshold 0.4 from increasing positions survives the round trip, and made `p2 + 1` commits |
| CoderV01.CoderVersion | src/wasm/src/coder/coder/game_over_coder_v01.rs:39-45 | the "goc-v01" codec writes the tag "goc-v01" |
| CoderV01.Record | src/wasm/src/coder/coder/game_over_coder_v01.rs:62-67 | the stored record holds the game's seed, threshold, strike slots and element checksum |
| CoderV01.Encode | src/wasm/src/coder/coder/game_over_coder_v01.rs:59-69 | `encode`'s payload reads back as exactly the game's record |
| CoderV01.Deserialize | src/wasm/src/coder/coder/game_over_coder_v01.rs:84-85 | a payload that is not a record fails as corrupt |
| CoderV01.DeserializeSerialize | src/wasm/src/coder/coder/game_over_coder_v01.rs:105-112 | a serialized record reads back unchanged |
| CoderV01.Decode | src/wasm/src/coder/coder/game_over_coder_v01.rs:78-98 | `decode` fails on a corrupt payload; otherwise it runs `GameOver::new` on the stored seed, threshold and slots on the given set, passes a failure on as `Rebuild`, and returns the rebuilt game exactly when its element checksum is the stored one, `BadElementChecksum` otherwise |
| CoderV01.DecodeEncode | src/wasm/src/coder/coder/game_over_coder_v01.rs:59-98 | a game that its record rebuilds encodes and decodes, on its own set, back to itself |
| CoderV01.NewRoundTrip | src/wasm/src/coder/coder/game_over_coder_v01.rs:59-98 | a game `new` builds from increasing positions survives the round trip on its own set |
| Envelope.FromFields | src/wasm/src/coder/encoded_game_over.rs:80-89 | an envelope stored without a set id reads with the default set, `DictionaryFr01` |
| Envelope.Encode | src/wasm/src/coder/encoded_game_over.rs:99 | each version runs its own codec's `encode`; only the "00" codec can fail |
| Envelope.New | src/wasm/src/coder/encoded_game_over.rs:95-105 | `new` stores the codec's tag, the codec's checksum of the payload bytes, the payload and the game's set, and passes an encoding failure on |
| Envelope.Check | src/wasm/src/coder/encoded_game_over.rs:112-133 | an unknown tag is refused and returned in the error, whatever the checksum; a known tag is accepted exactly when the checksum is that codec's checksum of the data bytes, and the envelope is kept unchanged |
| Envelope.Decode | src/wasm/src/coder/encoded_game_over.rs:142-161 | decoding fails exactly as `Check` does before any codec runs; then "00" runs its codec on the dictionary set and "goc-v01" runs its codec on the envelope's set, passing codec errors on |
| Envelope.NewChecks | src/wasm/src/coder/encoded_game_over.rs:95-133 | an envelope `new` makes passes the check unchanged |
| Envelope.TamperedChecksum | src/wasm/src/coder/encoded_game_over.rs:146-157 | an envelope `new` makes, given any other checksum, is refused as corrupted |
| Envelope.Decode00IgnoresSet | src/wasm/src/coder/encoded_game_over.rs:146-151 | the "00" branch gives the same result whatever set the envelope names |
| Envelope.RoundTrip00 | src/wasm/src/coder/encoded_game_over.rs:146-151 | a game on the dictionary set with threshold 0.4 that its record rebuilds survives a "00" envelope |
| Envelope.RoundTripV01 | src/wasm/src/coder/encoded_game_over.rs:152-157 | a game that its record rebuilds survives a "goc-v01" envelope |
| Encoded.Data | src/wasm/src/coder/encoded.rs:27-30 | `data` is the stored payload text |
| Encoded.Gate | src/wasm/src/coder/encoded.rs:51-62 | a tag other than "00" is refused first, whatever the checksum; then a checksum other than the "00" checksum of the data bytes; otherwise the envelope is kept as it is |
| Encoded.Seal | src/wasm/src/coder/version/version_00.rs:58-78 | `encode` writes the tag "00", the "00" payload and its checksum, and fails exactly when a strike slot is empty |
| Encoded.Open | src/wasm/src/coder/version/version_00.rs:82-97 | `decode` of a checked envelope fails as corrupt on an unreadable payload and on fewer than three positions; otherwise its result is `GameOver::new` on the payload's stored seed and first three stored positions, the dictionary set, the given data and threshold 0.4, a failure of which is passed on as `Rebuild`; a success is finished |
| Encoded.SealPassesGate | src/wasm/src/coder/encoded.rs:51-62 | an envelope `encode` makes passes the gate |
| Encoded.TamperedChecksum | src/wasm/src/coder/encoded.rs:57-58 | a sealed envelope with any other checksum is refused as corrupted |
| Encoded.WrongVersion | src/wasm/src/coder/encoded.rs:55-56 | a sealed envelope under any other tag is refused for its tag, whatever its checksum and data |
| Encoded.OpenSeal | src/wasm/src/coder/version/version_00.rs:58-97 | a game on the dictionary set with threshold 0.4 that its record rebuilds is sealed, passes the gate and opens back to itself |
| Path.Trim | src/service/path.ts:3-6 | `trim` removes at most one leading and at most one trailing slash, and nothing else |
| Path.TrimWrapped | src/service/path.ts:3-6 | a part wrapped in one slash on each side trims back to the part |
| Path.TrimPlain | src/service/path.ts:3-6 | a part with no slash at either end is left as it is |
| Path.NonEmpty | src/service/path.ts:12 | the filter keeps only non-empty parts, and keeps a list of non-empty parts whole |
| Path.NonEmptyAppend | src/service/path.ts:12 | filtering a concatenation filters each side |
| Path.Trims | src/service/path.ts:11 | `map(trim)` trims each part in place |
| Path.JoinSlashSnoc | src/service/path.ts:13 | `join("/")` of one more part adds a slash and the part, or only the part when the list was empty |
| Path.Join | src/service/path.ts:1-18 | the path always starts with a slash; no arguments give "/"; one argument gives exactly the part trimmed between two slashes; more arguments start that way |
| Path.JoinSkipsEmpty | src/service/path.ts:9-13 | a later part that trims to nothing leaves the path unchanged |
| Path.JoinAddsPart | src/service/path.ts:9-13 | a later part that does not trim to nothing is appended trimmed, after a slash when an earlier later part was kept |
| Path.JoinKeepsFirst | src/service/path.ts:8 | the first part is kept even when it trims to nothing, giving "//" |
| History.NewEntry | src/service/history.ts:12-16 | a new entry holds its value and actual state, and no answer |
| History.Includes | src/service/history.ts:24 | `some` holds exactly when an entry has the value |
| History.SetCurrent | src/service/history.ts:23-29 | the `current` setter appends exactly one unanswered entry with the value, marked seen exactly when an earlier entry holds it, and keeps the earlier entries |
| History.SetAnswer | src/service/history.ts:31-33 | the `answer` setter fails exactly on an empty history; otherwise it sets the last entry's answer and changes nothing else |
| History.CurrentKeeps | src/service/history.ts:23-29 | the `current` setter keeps every mark right and every existing entry in place |
| History.AnswerKeeps | src/service/history.ts:31-33 | the `answer` setter keeps every entry's value and mark |
| History.ApplyMarks | src/service/history.ts:20-34 | from a history whose marks are right, any successful sequence of setter calls keeps the old entries, appends one entry per shown value in order, and keeps every mark right |
| History.Empty | src/service/history.ts:21 | a new tracker has no entries |
| History.EmptyApplyMarks | src/service/history.ts:20-34 | from a new tracker, the entries hold exactly the shown values in order, each marked seen exactly when shown before |

## Left out

- The constants `SQRT3`, `SQRT5` and `SQRT19` come from rng/constant.rs, which is not part of this model. `Permutation` uses the 64-bit fractional parts of the square roots of 3, 5 and 19 in their place. No proof depends on their values except `SQRT5 != 0`.
- Konadare.Redraw: the source redraws without bound. The model redraws at most `REDRAW_LIMIT` (2^64) times and then accepts the current candidate. `BoundedDrawIsLemire` states the same bound on the reference side.
- Game.SeenPick: the source draws seen indices without bound. The model draws at most `SEEN_RETRY_LIMIT` (2^64) times and then takes the first seen element other than the previous one.
- Replay.New: `GameOver::new` panics through `unwrap` when the pool runs dry. When the positions cannot finish the game, it draws on past the last position and panics once the pool runs dry, or loops forever if every draw picks a seen element. The model allows one step past the largest stored position: it returns `Panicked(UnseenEmpty)` when the pool runs dry within that bound, and `NeverFinishes` when the bound is reached, which stands for both outcomes of the source. `NeverFinishesIsFinal` shows that more steps would never finish the game.
- Base64 and serde_json in the codecs are replaced by the comma-separated token text of `Tokens`. It has the one property the codecs rely on: reading back what was written gives the written values. Malformed text fails as `Corrupt`.
- The `f64` conversion `SeenThreshold::try_from` is left out. Thresholds are integers in `[0, THRESHOLD_MAX]`, and 0.4 is `Coding00.THRESHOLD` = 400 000 000.
- CoderV01.Deserialize: refuses a stored threshold above `THRESHOLD_MAX` as corrupt. The source's `SeenThreshold` has no range check on deserialization, but it has no type for such a value either.
- encoded_game_over.rs calls the "00" decoder with the envelope and the data only. The model passes it the default set, and `Coding00.DecodeIgnoresSetId` shows the set makes no difference.
- The set id does not feed into the element checksum or the generator, matching the source.
- `GameOver::iter` clones and then calls `into_iter`. In a value model the two are the same function, `Replay.IntoIter`.
- `commit_seen` and `commit_unseen` are `Game.Commit(e, g, true)` and `Game.Commit(e, g, false)`.
- The accessors `seed`, `incorrect_commits`, `score`, `lives`, `seen_threshold` and `element_checksum` of `GameOver`, and the getters of `Game`, are field reads on the model's records.
- `SealedEncodedError` appears in both coder/encoded.rs and coder/encoded_game_over.rs with the same variants. It is defined once, in `Envelope`.
- The history tracker compares values with JavaScript's loose `==`. The model uses Dafny equality, which agrees on values of one type.
- An empty-pool `next` keeps the threshold draw's advance of the generator, as the code does. Only the pool draw is skipped.
- CoderV01.Decode: a record whose candidate list was reordered is refused with `BadElementChecksum` exactly when the rebuilt element checksum differs from the stored one, as its contract states for any list. No all-inputs lemma says a reordered list is always refused: reordering candidates the game never draws rebuilds the same game, checksum included. Stored positions in another order are accepted, in the source as in the model, because the replay looks them up with `contains`.
- Coding00.Deserialize: reads the strike positions as unbounded numbers. The source reads them as `usize`, and serde refuses a larger number, which the model would report as `Corrupt`; here such a record goes on to the rebuild. The model's commit counter is unbounded too, so refusing large positions would break the round trip for games the model can play.
- CoderV01.Deserialize: reads the strike slots as unbounded numbers, where the source reads `Option<usize>`, for the same reason as `Coding00.Deserialize`.
- The superseded coder/version_00.rs, the unseen_id.rs it imports, history/history.rs, rng/knomul.rs and the draft coder/version/game_over_coder_v01.rs and coder/version/game_over_coding_v01.rs are not part of this model. The web API bindings, the store and the Vue pages are not part of this model either.
- Element lists, I/O and the browser storage are parameters: a game receives its data as a sequence of byte strings.
