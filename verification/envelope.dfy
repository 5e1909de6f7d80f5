/**
 * The envelope of coder/encoded_game_over.rs: a version tag, a checksum
 * of the payload's bytes, the payload, and the set the game was played
 * on.  Opening an envelope checks, in this order, that the version is
 * known and that the checksum matches, and only then runs the codec the
 * version names.
 */
module Envelope {
  import opened Wrappers
  import opened SetId
  import Utf8
  import Game
  import Replay
  import Version
  import Coding00
  import CoderV01

  /** `SealedEncodedGameOver`: an envelope as it is stored. */
  datatype SealedEncodedGameOver = SealedEncodedGameOver(version: string, checksum: bv64, data: string, unseenSetId: UnseenSetId)

  /** `EncodedGameOver`: an envelope whose version and checksum have been checked. */
  datatype EncodedGameOver = EncodedGameOver(sealed: SealedEncodedGameOver)

  datatype SealedEncodedError = InvalidChecksum | UnrecognisedVersion(version: string)

  /** A codec's failure, tagged with the codec. */
  datatype CoderError = Coding00Error(e00: Coding00.Coding00Error) | CoderV01Error(e01: CoderV01.CoderV01Error)

  /** Why opening an envelope into a game over fails. */
  datatype DecodeError = Sealed(sealed: SealedEncodedError) | Coder(coder: CoderError)

  /** `default_unseen_set_id`: the set of an envelope stored without one. */
  const DEFAULT_UNSEEN_SET_ID: UnseenSetId := DictionaryFr01

  /** Deserializing an envelope's fields; a missing set id is the default one. */
  function FromFields(version: string, checksum: bv64, data: string, unseenSetId: Option<UnseenSetId>)
    : (s: SealedEncodedGameOver)
    ensures s.version == version && s.checksum == checksum && s.data == data
    ensures unseenSetId.None? ==> s.unseenSetId == DictionaryFr01
    ensures unseenSetId.Some? ==> s.unseenSetId == unseenSetId.value
  {
    SealedEncodedGameOver(version, checksum, data, if unseenSetId.Some? then unseenSetId.value else DEFAULT_UNSEEN_SET_ID)
  }

  /** The checksum a codec puts on payload bytes. */
  function Checksum(v: Version.CoderVersion, bytes: seq<bv8>): bv64
  {
    match v
    case Version00Coding => Coding00.Checksum(bytes)
    case GameOverCoderV01 => CoderV01.Checksum(bytes)
  }

  /** A codec's `encode`; only the "00" codec can fail. */
  function Encode(v: Version.CoderVersion, go: Replay.GameOver): (r: Result<string, CoderError>)
    ensures v == Version.GameOverCoderV01 ==> r == Success(CoderV01.Encode(go))
    ensures v == Version.Version00Coding ==>
      (r.Success? <==> Coding00.Encode(go).Success?) && (r.Success? ==> r.value == Coding00.Encode(go).value)
  {
    match v
    case Version00Coding =>
      (match Coding00.Encode(go)
       case Failure(err) => Failure(Coding00Error(err))
       case Success(data) => Success(data))
    case GameOverCoderV01 => Success(CoderV01.Encode(go))
  }

  /**
   * `SealedEncodedGameOver::new`: the codec's tag, the checksum of the
   * payload's bytes, the payload, and the game's set; an encoding failure
   * is passed on.
   */
  function New(v: Version.CoderVersion, go: Replay.GameOver): (r: Result<SealedEncodedGameOver, CoderError>)
    ensures r.Success? <==> Encode(v, go).Success?
    ensures r.Success? ==>
      && r.value.version == Version.Format(v) && r.value.data == Encode(v, go).value
      && r.value.checksum == Checksum(v, Utf8.Bytes(r.value.data)) && r.value.unseenSetId == go.setId
  {
    match Encode(v, go)
    case Failure(err) => Failure(err)
    case Success(data) => Success(SealedEncodedGameOver(Version.Format(v), Checksum(v, Utf8.Bytes(data)), data, go.setId))
  }

  /**
   * `TryFrom<SealedEncodedGameOver> for EncodedGameOver`: an unknown
   * version is refused as it is, whatever the checksum and data; a known
   * one is accepted exactly when the checksum is that codec's checksum of
   * the data bytes.
   */
  function Check(s: SealedEncodedGameOver): (r: Result<EncodedGameOver, SealedEncodedError>)
    ensures Version.Parse(s.version).Failure? ==> r == Failure(UnrecognisedVersion(s.version))
    ensures Version.Parse(s.version).Success? ==>
      (r.Success? <==> s.checksum == Checksum(Version.Parse(s.version).value, Utf8.Bytes(s.data)))
    ensures Version.Parse(s.version).Success? && r.Failure? ==> r.error == InvalidChecksum
    ensures r.Success? ==> r.value.sealed == s
  {
    if s.version == Version.Format(Coding00.CoderVersion()) then
      if s.checksum == Coding00.Checksum(Utf8.Bytes(s.data)) then Success(EncodedGameOver(s)) else Failure(InvalidChecksum)
    else if s.version == Version.Format(CoderV01.CoderVersion()) then
      if s.checksum == CoderV01.Checksum(Utf8.Bytes(s.data)) then Success(EncodedGameOver(s)) else Failure(InvalidChecksum)
    else Failure(UnrecognisedVersion(s.version))
  }

  /**
   * `TryFrom<(SealedEncodedGameOver, Vec<T>)> for GameOver<T>`: the same
   * checks as `Check`, then the codec the version names; the "00" codec is
   * not given the envelope's set, the "goc-v01" codec is.
   */
  function Decode(e: Game.Engine, s: SealedEncodedGameOver, unseen: seq<Game.Element>)
    : (r: Result<Replay.GameOver, DecodeError>)
    ensures Check(s).Failure? ==> r == Failure(Sealed(Check(s).error))
    ensures r.Failure? && r.error.Sealed? ==> Check(s).Failure?
    ensures Check(s).Success? && s.version == "00" ==>
      match Coding00.Decode(e, s.data, DEFAULT_UNSEEN_SET_ID, unseen)
      case Success(go) => r == Success(go)
      case Failure(err) => r == Failure(Coder(Coding00Error(err)))
    ensures Check(s).Success? && s.version == "goc-v01" ==>
      match CoderV01.Decode(e, s.data, s.unseenSetId, unseen)
      case Success(go) => r == Success(go)
      case Failure(err) => r == Failure(Coder(CoderV01Error(err)))
  {
    if s.version == Version.Format(Coding00.CoderVersion()) then
      if s.checksum == Coding00.Checksum(Utf8.Bytes(s.data)) then
        Coding00.DecodeIgnoresSetId(e, s.data, s.unseenSetId, DEFAULT_UNSEEN_SET_ID, unseen);
        match Coding00.Decode(e, s.data, s.unseenSetId, unseen)
        case Failure(err) => Failure(Coder(Coding00Error(err)))
        case Success(go) => Success(go)
      else Failure(Sealed(InvalidChecksum))
    else if s.version == Version.Format(CoderV01.CoderVersion()) then
      if s.checksum == CoderV01.Checksum(Utf8.Bytes(s.data)) then
        match CoderV01.Decode(e, s.data, s.unseenSetId, unseen)
        case Failure(err) => Failure(Coder(CoderV01Error(err)))
        case Success(go) => Success(go)
      else Failure(Sealed(InvalidChecksum))
    else Failure(Sealed(UnrecognisedVersion(s.version)))
  }

  /** An envelope `New` makes passes `Check` unchanged. */
  lemma NewChecks(v: Version.CoderVersion, go: Replay.GameOver)
    requires v == Version.GameOverCoderV01 || Coding00.Filled(go)
    ensures New(v, go).Success? && Check(New(v, go).value) == Success(EncodedGameOver(New(v, go).value))
  {
    Version.ParseFormat(v);
  }

  /**
   * An envelope `New` makes with any other checksum is refused as
   * corrupted, and its codec is not run.
   */
  lemma TamperedChecksum(e: Game.Engine, v: Version.CoderVersion, go: Replay.GameOver, checksum: bv64,
                         unseen: seq<Game.Element>)
    requires v == Version.GameOverCoderV01 || Coding00.Filled(go)
    ensures New(v, go).Success?
    ensures checksum != New(v, go).value.checksum ==>
      Decode(e, New(v, go).value.(checksum := checksum), unseen) == Failure(Sealed(InvalidChecksum))
  {
    Version.ParseFormat(v);
  }

  /** The "00" branch gives the same result whatever set the envelope names. */
  lemma Decode00IgnoresSet(e: Game.Engine, s: SealedEncodedGameOver, id: UnseenSetId, unseen: seq<Game.Element>)
    requires s.version == "00"
    ensures Decode(e, s, unseen) == Decode(e, s.(unseenSetId := id), unseen)
  {
    Coding00.DecodeIgnoresSetId(e, s.data, s.unseenSetId, id, unseen);
  }

  /**
   * A game on the dictionary set with threshold 0.4 that rebuilds from its
   * record goes through a "00" envelope and comes back equal.
   */
  lemma RoundTrip00(e: Game.Engine, go: Replay.GameOver, unseen: seq<Game.Element>)
    requires Replay.Rebuilds(e, go, unseen) && go.setId == DictionaryFr01 && go.game.threshold == Coding00.THRESHOLD
    ensures New(Version.Version00Coding, go).Success?
    ensures Decode(e, New(Version.Version00Coding, go).value, unseen) == Success(go)
  {
    Coding00.DecodeEncode(e, go, DEFAULT_UNSEEN_SET_ID, unseen);
    NewChecks(Version.Version00Coding, go);
  }

  /** A game that rebuilds from its record goes through a "goc-v01" envelope and comes back equal. */
  lemma RoundTripV01(e: Game.Engine, go: Replay.GameOver, unseen: seq<Game.Element>)
    ensures Replay.Rebuilds(e, go, unseen) ==>
      Decode(e, New(Version.GameOverCoderV01, go).value, unseen) == Success(go)
  {
    if Replay.Rebuilds(e, go, unseen) {
      CoderV01.DecodeEncode(e, go, unseen);
      NewChecks(Version.GameOverCoderV01, go);
    }
  }
}
