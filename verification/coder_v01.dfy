/**
 * The "goc-v01" codec of coder/coder/game_over_coder_v01.rs: it stores a
 * game's seed, threshold, strike slots and element checksum, rebuilds the
 * game on the set the envelope names, and refuses a rebuild whose element
 * checksum differs from the stored one.
 */
module CoderV01 {
  import opened Wrappers
  import opened SetId
  import opened Tokens
  import Permutation
  import Game
  import Replay
  import Version

  /** The seed of the "goc-v01" checksum. */
  const SEED: bv64 := 9375103332589136009

  const TWO_TO_64: nat := 0x1_0000_0000_0000_0000

  /** `GameOverCoderV01Data`: the stored record. */
  datatype Data = Data(seed: bv64, seenThreshold: Game.SeenThreshold, incorrectCommits: Game.Slots, elementChecksum: bv64)

  /**
   * Why decoding fails: the payload is not a record, the rebuild fails, or
   * the rebuilt game's element checksum is not the stored one.
   */
  datatype CoderV01Error = Corrupt | Rebuild(error: Replay.ReplayError) | BadElementChecksum

  /** The version tag the codec writes. */
  function CoderVersion(): (v: Version.CoderVersion)
    ensures Version.Format(v) == "goc-v01"
  {
    Version.GameOverCoderV01
  }

  /** `checksum`: the `KSINK` hash of the data bytes from `SEED`. */
  function Checksum(bytes: seq<bv8>): bv64
  {
    Permutation.Hash(Permutation.Ksink, SEED, bytes)
  }

  /** The name an empty slot is stored as, JSON's `null`. */
  const NULL: string := "null"

  function SlotToken(x: Option<nat>): (t: Token)
    ensures ValidToken(t)
  {
    match x
    case None =>
      assert NULL[0] == 'n' && forall i :: 0 <= i < |NULL| ==> IsLetter(NULL[i]);
      Name(NULL)
    case Some(p) => Num(p)
  }

  /** A stored slot: a number, or the empty-slot name. */
  function ReadSlot(t: Token): (r: Option<Option<nat>>)
    ensures r.Some? ==> SlotToken(r.value) == t
  {
    match t
    case Num(n) => Some(Some(n))
    case Name(s) => if s == NULL then Some(None) else None
  }

  /** The record's tokens: seed, threshold, the three slots, element checksum. */
  function DataTokens(d: Data): (ts: seq<Token>)
    ensures |ts| == 6 && forall i :: 0 <= i < |ts| ==> ValidToken(ts[i])
  {
    var s := d.incorrectCommits;
    [Num(d.seed as int), Num(d.seenThreshold), SlotToken(s[0]), SlotToken(s[1]), SlotToken(s[2]),
     Num(d.elementChecksum as int)]
  }

  /** The payload text, standing in for the base64 of its JSON. */
  function Serialize(d: Data): string
  {
    Write(DataTokens(d))
  }

  /**
   * Reading a payload text: six tokens, 64-bit seed and checksum, a
   * threshold within `THRESHOLD_MAX`, and three slots; anything else is
   * corrupt.
   */
  function Deserialize(s: string): (r: Result<Data, CoderV01Error>)
    ensures r.Failure? ==> r.error == Corrupt
  {
    match Parse(s)
    case Failure(_) => Failure(Corrupt)
    case Success(ts) =>
      if |ts| != 6 || !ts[0].Num? || ts[0].n >= TWO_TO_64 || !ts[1].Num? || ts[1].n > Game.THRESHOLD_MAX
         || ReadSlot(ts[2]).None? || ReadSlot(ts[3]).None? || ReadSlot(ts[4]).None?
         || !ts[5].Num? || ts[5].n >= TWO_TO_64
      then Failure(Corrupt)
      else
        var slots: Game.Slots := [ReadSlot(ts[2]).value, ReadSlot(ts[3]).value, ReadSlot(ts[4]).value];
        Success(Data(ts[0].n as bv64, ts[1].n, slots, ts[5].n as bv64))
  }

  /** A serialized record is read back unchanged. */
  lemma DeserializeSerialize(d: Data)
    ensures Deserialize(Serialize(d)) == Success(d)
  {
    var ts := DataTokens(d);
    ParseWrite(ts);
    var s := d.incorrectCommits;
    assert ReadSlot(SlotToken(s[0])) == Some(s[0]);
    assert ReadSlot(SlotToken(s[1])) == Some(s[1]);
    assert ReadSlot(SlotToken(s[2])) == Some(s[2]);
    assert [s[0], s[1], s[2]] == s;
  }

  /** The record `encode` stores for a game over. */
  function Record(go: Replay.GameOver): (d: Data)
    ensures d.seed == go.game.seed && d.seenThreshold == go.game.threshold
    ensures d.incorrectCommits == go.game.incorrect && d.elementChecksum == go.game.checksum
  {
    Data(go.game.seed, go.game.threshold, go.game.incorrect, go.game.checksum)
  }

  /** `encode`: the payload of exactly the seed, threshold, strike slots and element checksum. */
  function Encode(go: Replay.GameOver): (s: string)
    ensures Deserialize(s) == Success(Record(go))
  {
    DeserializeSerialize(Record(go));
    Serialize(Record(go))
  }

  /**
   * `decode`: read the record, rebuild with `GameOver::new` on the given
   * set, and accept the rebuild only when its element checksum is the
   * stored one.
   */
  function Decode(e: Game.Engine, data: string, unseenSetId: UnseenSetId, unseen: seq<Game.Element>)
    : (r: Result<Replay.GameOver, CoderV01Error>)
    ensures Deserialize(data).Failure? ==> r == Failure(Corrupt)
    ensures r == Failure(BadElementChecksum) <==>
      && Deserialize(data).Success?
      && var d := Deserialize(data).value;
         var rebuilt := Replay.New(e, d.seed, unseenSetId, unseen, d.seenThreshold, d.incorrectCommits);
         rebuilt.Success? && rebuilt.value.game.checksum != d.elementChecksum
    ensures r.Success? ==>
      && Deserialize(data).Success?
      && var d := Deserialize(data).value;
         && Replay.New(e, d.seed, unseenSetId, unseen, d.seenThreshold, d.incorrectCommits) == Success(r.value)
         && r.value.game.checksum == d.elementChecksum && r.value.setId == unseenSetId
    ensures Deserialize(data).Success? ==>
      var d := Deserialize(data).value;
      match Replay.New(e, d.seed, unseenSetId, unseen, d.seenThreshold, d.incorrectCommits)
      case Failure(err) => r == Failure(Rebuild(err))
      case Success(go) => r == (if go.game.checksum == d.elementChecksum then Success(go) else Failure(BadElementChecksum))
  {
    match Deserialize(data)
    case Failure(err) => Failure(err)
    case Success(d) =>
      match Replay.New(e, d.seed, unseenSetId, unseen, d.seenThreshold, d.incorrectCommits)
      case Failure(err) => Failure(Rebuild(err))
      case Success(go) =>
        if d.elementChecksum != go.game.checksum then Failure(BadElementChecksum) else Success(go)
  }

  /** A game rebuilt from its own record is encoded and decoded, on its own set, back to itself. */
  lemma DecodeEncode(e: Game.Engine, go: Replay.GameOver, unseen: seq<Game.Element>)
    requires Replay.Rebuilds(e, go, unseen)
    ensures Decode(e, Encode(go), go.setId, unseen) == Success(go)
  {
  }

  /**
   * `GameOver::new` with strictly increasing positions, when it succeeds,
   * survives encoding and decoding on its own set.
   */
  lemma NewRoundTrip(e: Game.Engine, seed: bv64, setId: UnseenSetId, unseen: seq<Game.Element>,
                     threshold: Game.SeenThreshold, incorrect: Game.Slots)
    requires Replay.Ascending(incorrect)
    requires Replay.New(e, seed, setId, unseen, threshold, incorrect).Success?
    ensures var go := Replay.New(e, seed, setId, unseen, threshold, incorrect).value;
      Decode(e, Encode(go), setId, unseen) == Success(go)
  {
    Replay.NewRebuilds(e, seed, setId, unseen, threshold, incorrect);
    DecodeEncode(e, Replay.New(e, seed, setId, unseen, threshold, incorrect).value, unseen);
  }
}
