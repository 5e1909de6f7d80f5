/** The word-list identifiers of coder/unseen_set_id.rs. */
module SetId {
  import opened Wrappers

  /** `UnseenSetID`: which set of elements a game was played on. */
  datatype UnseenSetId = Unspecified | DictionaryFr01 | Top999WiktionaryFr

  /** `unique_number`: a fixed 64-bit number per set. */
  function UniqueNumber(id: UnseenSetId): (n: bv64)
  {
    match id
    case Unspecified => 7359453237177161485
    case DictionaryFr01 => 16775286842649692529
    case Top999WiktionaryFr => 4682054772874934823
  }

  /** Distinct sets have distinct numbers. */
  lemma UniqueNumberInjective(a: UnseenSetId, b: UnseenSetId)
    ensures UniqueNumber(a) == UniqueNumber(b) <==> a == b
  {
  }

  /** The name a payload stores a set under: the variant's own name. */
  function SetName(id: UnseenSetId): (s: string)
    ensures |s| > 0
  {
    match id
    case Unspecified => "Unspecified"
    case DictionaryFr01 => "DictionaryFr01"
    case Top999WiktionaryFr => "Top999WiktionaryFr"
  }

  /** The set a stored name denotes, if any. */
  function FromSetName(s: string): (r: Option<UnseenSetId>)
    ensures r.Some? ==> SetName(r.value) == s
  {
    if s == "Unspecified" then Some(Unspecified)
    else if s == "DictionaryFr01" then Some(DictionaryFr01)
    else if s == "Top999WiktionaryFr" then Some(Top999WiktionaryFr)
    else None
  }

  /** A stored name is read back as its set, and only the three names are read as sets. */
  lemma FromSetNameSetName(id: UnseenSetId, s: string)
    ensures FromSetName(SetName(id)) == Some(id)
    ensures FromSetName(s) == Some(id) <==> s == SetName(id)
  {
  }
}
