/**
 * The "00" codec, `Version00Coding`: it stores a finished game as its seed
 * and its three strike positions, and rebuilds it on the French dictionary
 * with the threshold 0.4.  coder/coder/version00coding.rs and
 * coder/version/version_00.rs are two stages of this one codec.
 */
module Coding00 {
  import opened Wrappers
  import opened SetId
  import opened Tokens
  import Permutation
  import Game
  import Replay
  import Version

  /** The seed of the "00" checksum, `hash_seed`. */
  const SEED: bv64 := 4997987866499591411

  /** The threshold the codec rebuilds with: 0.4 of `THRESHOLD_MAX`. */
  const THRESHOLD: Game.SeenThreshold := 400_000_000

  const TWO_TO_64: nat := 0x1_0000_0000_0000_0000

  /** The stored record: a set id, the seed, and the strike positions. */
  datatype Payload = Payload(unseenId: UnseenSetId, seed: bv64, incorrectCommits: seq<nat>)

  /**
   * Why the codec fails: a slot to encode is empty, the payload is not a
   * record, it holds fewer than three positions, or the rebuild fails.
   */
  datatype Coding00Error = Unfilled | Corrupt | TooFewIncorrectCommits | Rebuild(error: Replay.ReplayError)

  /** The version tag the codec writes. */
  function CoderVersion(): (v: Version.CoderVersion)
    ensures Version.Format(v) == "00"
  {
    Version.Version00Coding
  }

  /** `checksum`: the `KNOMUL` hash of the data bytes from `SEED`. */
  function Checksum(bytes: seq<bv8>): bv64
  {
    Permutation.Hash(Permutation.Knomul, SEED, bytes)
  }

  /** Numbers as tokens, in order. */
  function Nums(ns: seq<nat>): (ts: seq<Token>)
    ensures |ts| == |ns| && forall i :: 0 <= i < |ns| ==> ts[i] == Num(ns[i])
    decreases |ns|
  {
    if |ns| == 0 then [] else [Num(ns[0])] + Nums(ns[1..])
  }

  predicate AllNums(ts: seq<Token>)
  {
    forall i :: 0 <= i < |ts| ==> ts[i].Num?
  }

  /** The numbers of number tokens, in order. */
  function Values(ts: seq<Token>): (ns: seq<nat>)
    requires AllNums(ts)
    ensures |ns| == |ts| && forall i :: 0 <= i < |ts| ==> ns[i] == ts[i].n
    decreases |ts|
  {
    if |ts| == 0 then [] else [ts[0].n] + Values(ts[1..])
  }

  /** Every set is stored under a valid name. */
  lemma SetNameValid(id: UnseenSetId)
    ensures ValidName(SetName(id))
  {
    var s := SetName(id);
    forall i | 0 <= i < |s|
      ensures IsLetter(s[i]) || IsDigit(s[i])
    {
    }
  }

  /** The payload's tokens: the set's name, the seed, then the positions. */
  function PayloadTokens(p: Payload): (ts: seq<Token>)
    ensures |ts| == 2 + |p.incorrectCommits| && forall i :: 0 <= i < |ts| ==> ValidToken(ts[i])
  {
    SetNameValid(p.unseenId);
    [Name(SetName(p.unseenId)), Num(p.seed as int)] + Nums(p.incorrectCommits)
  }

  /** The payload text, standing in for the base64 of its JSON. */
  function Serialize(p: Payload): string
  {
    Write(PayloadTokens(p))
  }

  /** Reading a payload text: a set name, a 64-bit seed, then numbers; anything else is corrupt. */
  function Deserialize(s: string): (r: Result<Payload, Coding00Error>)
    ensures r.Failure? ==> r.error == Corrupt
  {
    match Parse(s)
    case Failure(_) => Failure(Corrupt)
    case Success(ts) =>
      if |ts| < 2 || !ts[0].Name? || FromSetName(ts[0].s).None? || !ts[1].Num? || ts[1].n >= TWO_TO_64
         || !AllNums(ts[2..])
      then Failure(Corrupt)
      else Success(Payload(FromSetName(ts[0].s).value, ts[1].n as bv64, Values(ts[2..])))
  }

  /** A serialized payload is read back unchanged. */
  lemma DeserializeSerialize(p: Payload)
    ensures Deserialize(Serialize(p)) == Success(p)
  {
    var ts := PayloadTokens(p);
    ParseWrite(ts);
    FromSetNameSetName(p.unseenId, SetName(p.unseenId));
    assert ts[2..] == Nums(p.incorrectCommits);
    assert Values(ts[2..]) == p.incorrectCommits;
  }

  /** All three strike slots are filled, as the `unwrap`s of `encode` need. */
  predicate Filled(go: Replay.GameOver)
  {
    var s := go.game.incorrect;
    s[0].Some? && s[1].Some? && s[2].Some?
  }

  /**
   * `encode`: the payload of the dictionary set, the seed and the three
   * strike positions; an empty slot fails (the source's `unwrap` panics).
   */
  function Encode(go: Replay.GameOver): (r: Result<string, Coding00Error>)
    ensures r.Success? <==> Filled(go)
    ensures r.Failure? ==> r.error == Unfilled
    ensures var s := go.game.incorrect;
      r.Success? ==> Deserialize(r.value) == Success(Payload(DictionaryFr01, go.game.seed, [s[0].value, s[1].value, s[2].value]))
  {
    var s := go.game.incorrect;
    if s[0].None? || s[1].None? || s[2].None? then Failure(Unfilled)
    else
      var p := Payload(DictionaryFr01, go.game.seed, [s[0].value, s[1].value, s[2].value]);
      DeserializeSerialize(p);
      Success(Serialize(p))
  }

  /**
   * `decode`: read the payload and rebuild with `GameOver::new` on the
   * dictionary set, the threshold 0.4 and the first three positions.  The
   * set id passed in is not used.
   */
  function Decode(e: Game.Engine, data: string, unseenSetId: UnseenSetId, unseen: seq<Game.Element>)
    : (r: Result<Replay.GameOver, Coding00Error>)
    ensures Deserialize(data).Failure? ==> r == Failure(Corrupt)
    ensures Deserialize(data).Success? && |Deserialize(data).value.incorrectCommits| < 3 ==>
      r == Failure(TooFewIncorrectCommits)
    ensures r.Failure? && r.error.Rebuild? ==> Deserialize(data).Success?
    ensures r.Success? ==>
      && Game.Finished(r.value.game) && r.value.setId == DictionaryFr01
      && r.value.game.threshold == THRESHOLD && r.value.game.unseen.data == unseen
      && Deserialize(data).Success? && r.value.game.seed == Deserialize(data).value.seed
    ensures Deserialize(data).Success? && |Deserialize(data).value.incorrectCommits| >= 3 ==>
      var p := Deserialize(data).value;
      var ps := p.incorrectCommits;
      match Replay.New(e, p.seed, DictionaryFr01, unseen, THRESHOLD, [Some(ps[0]), Some(ps[1]), Some(ps[2])])
      case Success(go) => r == Success(go)
      case Failure(err) => r == Failure(Rebuild(err))
  {
    match Deserialize(data)
    case Failure(err) => Failure(err)
    case Success(p) =>
      if |p.incorrectCommits| < 3 then Failure(TooFewIncorrectCommits)
      else
        var ps := p.incorrectCommits;
        match Replay.New(e, p.seed, DictionaryFr01, unseen, THRESHOLD, [Some(ps[0]), Some(ps[1]), Some(ps[2])])
        case Failure(err) => Failure(Rebuild(err))
        case Success(go) => Success(go)
  }

  /** Decoding does not depend on the set id it is given. */
  lemma DecodeIgnoresSetId(e: Game.Engine, data: string, a: UnseenSetId, b: UnseenSetId, unseen: seq<Game.Element>)
    ensures Decode(e, data, a, unseen) == Decode(e, data, b, unseen)
  {
  }

  /**
   * A game the codec can store, on the dictionary set with threshold 0.4
   * and rebuilt from its own record, is encoded and decoded back to itself.
   */
  lemma DecodeEncode(e: Game.Engine, go: Replay.GameOver, unseenSetId: UnseenSetId, unseen: seq<Game.Element>)
    requires Replay.Rebuilds(e, go, unseen) && go.setId == DictionaryFr01 && go.game.threshold == THRESHOLD
    ensures Encode(go).Success? && Decode(e, Encode(go).value, unseenSetId, unseen) == Success(go)
  {
    Replay.RebuildsFilled(e, go, unseen);
    var s := go.game.incorrect;
    assert [Some(s[0].value), Some(s[1].value), Some(s[2].value)] == s;
  }

  /**
   * `GameOver::new` on the dictionary set with threshold 0.4 and strictly
   * increasing positions `[p0, p1, p2]`, when it succeeds, survives
   * encoding and decoding, and the decoded game made `p2 + 1` commits.
   */
  lemma NewRoundTrip(e: Game.Engine, seed: bv64, unseen: seq<Game.Element>, incorrect: Game.Slots)
    requires Replay.Ascending(incorrect)
    requires Replay.New(e, seed, DictionaryFr01, unseen, THRESHOLD, incorrect).Success?
    ensures var go := Replay.New(e, seed, DictionaryFr01, unseen, THRESHOLD, incorrect).value;
      && Encode(go).Success? && Decode(e, Encode(go).value, DictionaryFr01, unseen) == Success(go)
      && go.game.count == incorrect[2].value + 1
  {
    Replay.NewRebuilds(e, seed, DictionaryFr01, unseen, THRESHOLD, incorrect);
    Replay.NewEndsFinished(e, seed, DictionaryFr01, unseen, THRESHOLD, incorrect);
    DecodeEncode(e, Replay.New(e, seed, DictionaryFr01, unseen, THRESHOLD, incorrect).value, DictionaryFr01, unseen);
  }
}
