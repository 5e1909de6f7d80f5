/**
 * The older envelope of coder/encoded.rs, which knows only the "00"
 * codec: a gate checks the version tag and then the checksum before the
 * payload can be read.  The envelope is built and opened by the stage of
 * the "00" codec in coder/version/version_00.rs.
 */
module Encoded {
  import opened Wrappers
  import opened SetId
  import Utf8
  import Game
  import Replay
  import Version
  import Coding00
  import Envelope

  /** `SealedEncoded`: an envelope as it is stored. */
  datatype SealedEncoded = SealedEncoded(version: string, checksum: bv64, data: string)

  /** `Encoded`: an envelope that passed the gate. */
  datatype Encoded = Encoded(sealed: SealedEncoded)

  /** `data`: the payload text of a checked envelope. */
  function Data(enc: Encoded): (d: string)
    ensures d == enc.sealed.data
  {
    enc.sealed.data
  }

  /**
   * `TryFrom<SealedEncoded> for Encoded`: a tag other than "00" is refused
   * first, whatever the checksum and data; then a checksum other than the
   * "00" checksum of the data bytes; otherwise the envelope is kept as it is.
   */
  function Gate(s: SealedEncoded): (r: Result<Encoded, Envelope.SealedEncodedError>)
    ensures s.version != "00" ==> r == Failure(Envelope.UnrecognisedVersion(s.version))
    ensures s.version == "00" && s.checksum != Coding00.Checksum(Utf8.Bytes(s.data)) ==> r == Failure(Envelope.InvalidChecksum)
    ensures r.Success? <==> s.version == "00" && s.checksum == Coding00.Checksum(Utf8.Bytes(s.data))
    ensures r.Success? ==> Data(r.value) == s.data && r.value.sealed == s
  {
    if s.version != Version.Format(Coding00.CoderVersion()) then Failure(Envelope.UnrecognisedVersion(s.version))
    else if s.checksum != Coding00.Checksum(Utf8.Bytes(s.data)) then Failure(Envelope.InvalidChecksum)
    else Success(Encoded(s))
  }

  /**
   * `Version00Coding::encode` of coder/version/version_00.rs: the "00"
   * payload under the tag "00" and its checksum; an empty strike slot fails
   * (the source's `unwrap` panics).
   */
  function Seal(go: Replay.GameOver): (r: Result<SealedEncoded, Coding00.Coding00Error>)
    ensures r.Success? <==> Coding00.Encode(go).Success?
    ensures r.Failure? ==> r.error == Coding00.Unfilled
    ensures r.Success? ==>
      && r.value.version == "00" && r.value.data == Coding00.Encode(go).value
      && r.value.checksum == Coding00.Checksum(Utf8.Bytes(r.value.data))
  {
    match Coding00.Encode(go)
    case Failure(err) => Failure(err)
    case Success(data) =>
      Success(SealedEncoded(Version.Format(Coding00.CoderVersion()), Coding00.Checksum(Utf8.Bytes(data)), data))
  }

  /**
   * `Version00Coding::decode` of coder/version/version_00.rs: the "00"
   * payload of a checked envelope, rebuilt on the dictionary set with the
   * threshold 0.4.
   */
  function Open(e: Game.Engine, enc: Encoded, unseen: seq<Game.Element>)
    : (r: Result<Replay.GameOver, Coding00.Coding00Error>)
    ensures r.Success? ==> r.value.setId == DictionaryFr01 && r.value.game.threshold == Coding00.THRESHOLD
    ensures r.Success? ==> Game.Finished(r.value.game) && r.value.game.unseen.data == unseen
    ensures Coding00.Deserialize(Data(enc)).Failure? ==> r == Failure(Coding00.Corrupt)
    ensures Coding00.Deserialize(Data(enc)).Success? && |Coding00.Deserialize(Data(enc)).value.incorrectCommits| < 3 ==>
      r == Failure(Coding00.TooFewIncorrectCommits)
    ensures Coding00.Deserialize(Data(enc)).Success? && |Coding00.Deserialize(Data(enc)).value.incorrectCommits| >= 3 ==>
      var p := Coding00.Deserialize(Data(enc)).value;
      var ps := p.incorrectCommits;
      match Replay.New(e, p.seed, DictionaryFr01, unseen, Coding00.THRESHOLD, [Some(ps[0]), Some(ps[1]), Some(ps[2])])
      case Success(go) => r == Success(go)
      case Failure(err) => r == Failure(Coding00.Rebuild(err))
    ensures r.Success? ==>
      && Coding00.Deserialize(Data(enc)).Success?
      && var p := Coding00.Deserialize(Data(enc)).value;
         var ps := p.incorrectCommits;
         && r.value.game.seed == p.seed && |ps| >= 3
         && Replay.New(e, p.seed, DictionaryFr01, unseen, Coding00.THRESHOLD, [Some(ps[0]), Some(ps[1]), Some(ps[2])])
            == Success(r.value)
  {
    Coding00.Decode(e, Data(enc), DictionaryFr01, unseen)
  }

  /** An envelope `Seal` makes always passes the gate. */
  lemma SealPassesGate(go: Replay.GameOver)
    requires Coding00.Filled(go)
    ensures Seal(go).Success? && Gate(Seal(go).value) == Success(Encoded(Seal(go).value))
  {
  }

  /** A sealed envelope whose checksum is replaced by any other value is refused as corrupted. */
  lemma TamperedChecksum(go: Replay.GameOver, checksum: bv64)
    requires Coding00.Filled(go)
    ensures Seal(go).Success?
    ensures checksum != Seal(go).value.checksum ==>
      Gate(Seal(go).value.(checksum := checksum)) == Failure(Envelope.InvalidChecksum)
  {
  }

  /** A sealed envelope under any other tag is refused for its tag, whatever its checksum and data. */
  lemma WrongVersion(go: Replay.GameOver, version: string, checksum: bv64, data: string)
    requires Coding00.Filled(go) && version != "00"
    ensures Seal(go).Success?
    ensures Gate(Seal(go).value.(version := version, checksum := checksum, data := data))
            == Failure(Envelope.UnrecognisedVersion(version))
  {
  }

  /**
   * A game on the dictionary set with threshold 0.4 that rebuilds from its
   * record is sealed, passes the gate, and opens back to itself.
   */
  lemma OpenSeal(e: Game.Engine, go: Replay.GameOver, unseen: seq<Game.Element>)
    requires Replay.Rebuilds(e, go, unseen) && go.setId == DictionaryFr01 && go.game.threshold == Coding00.THRESHOLD
    ensures Seal(go).Success? && Gate(Seal(go).value).Success?
    ensures Open(e, Gate(Seal(go).value).value, unseen) == Success(go)
  {
    Coding00.DecodeEncode(e, go, DictionaryFr01, unseen);
  }
}
