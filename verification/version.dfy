/**
 * The coder version tags of coder/version.rs: the string an envelope
 * carries to name the codec that wrote it.
 */
module Version {
  import opened Wrappers

  datatype CoderVersion = Version00Coding | GameOverCoderV01

  datatype VersionError = UnrecognisedVersion(version: string)

  /** The tag written for a version; the `&str` and `String` forms are the same string. */
  function Format(v: CoderVersion): (s: string)
    ensures |s| > 0
  {
    match v
    case Version00Coding => "00"
    case GameOverCoderV01 => "goc-v01"
  }

  /** Reading a tag: the two known tags, and any other string refused as it is. */
  function Parse(s: string): (r: Result<CoderVersion, VersionError>)
    ensures r.Failure? ==> r.error == UnrecognisedVersion(s)
  {
    if s == "00" then Success(Version00Coding)
    else if s == "goc-v01" then Success(GameOverCoderV01)
    else Failure(UnrecognisedVersion(s))
  }

  /** A tag is read back as the version that wrote it. */
  lemma ParseFormat(v: CoderVersion)
    ensures Parse(Format(v)) == Success(v)
  {
  }

  /** Exactly the written tags are read as versions, each as the one that wrote it. */
  lemma ParseExactlyFormat(s: string, v: CoderVersion)
    ensures Parse(s) == Success(v) <==> s == Format(v)
  {
  }

  /** Distinct versions write distinct tags. */
  lemma FormatInjective(v: CoderVersion, w: CoderVersion)
    ensures Format(v) == Format(w) <==> v == w
  {
    assert Format(Version00Coding)[0] != Format(GameOverCoderV01)[0];
  }
}
