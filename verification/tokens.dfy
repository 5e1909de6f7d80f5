/**
 * The text of a codec payload.  A payload is a comma-separated list of
 * tokens, each a decimal number or a name (a letter followed by letters
 * and digits); this stands in for the base64-wrapped JSON the codecs
 * write, with the same property the codecs rely on: reading back what was
 * written gives the written values.
 */
module Tokens {
  import opened Wrappers

  datatype Token = Num(n: nat) | Name(s: string)

  /** Why a payload text is not a token list. */
  datatype TokenError = Malformed

  predicate IsDigit(c: char)
  {
    '0' <= c <= '9'
  }

  predicate IsLetter(c: char)
  {
    ('a' <= c <= 'z') || ('A' <= c <= 'Z')
  }

  predicate AllDigits(s: string)
  {
    forall i :: 0 <= i < |s| ==> IsDigit(s[i])
  }

  /** A name: a letter, then letters and digits. */
  predicate ValidName(s: string)
  {
    |s| > 0 && IsLetter(s[0]) && forall i :: 0 <= i < |s| ==> IsLetter(s[i]) || IsDigit(s[i])
  }

  predicate ValidToken(t: Token)
  {
    t.Name? ==> ValidName(t.s)
  }

  function DigitChar(d: nat): (c: char)
    requires d < 10
    ensures IsDigit(c)
  {
    "0123456789"[d]
  }

  function DigitValue(c: char): (d: nat)
    requires IsDigit(c)
    ensures d < 10
  {
    (c as int) - ('0' as int)
  }

  /** The decimal digits of `n`, most significant first, without leading zeros. */
  function Digits(n: nat): (s: string)
    ensures |s| > 0 && AllDigits(s)
    decreases n
  {
    if n < 10 then [DigitChar(n)] else Digits(n / 10) + [DigitChar(n % 10)]
  }

  /** The number a string of decimal digits denotes. */
  function Value(s: string): nat
    requires AllDigits(s)
    decreases |s|
  {
    if |s| == 0 then 0 else 10 * Value(s[..|s| - 1]) + DigitValue(s[|s| - 1])
  }

  /** Reading the digits of a number gives the number. */
  lemma {:induction false} ValueDigits(n: nat)
    ensures Value(Digits(n)) == n
    decreases n
  {
    var s := Digits(n);
    if n >= 10 {
      ValueDigits(n / 10);
      assert s[..|s| - 1] == Digits(n / 10);
    }
  }

  /** The text of a token. */
  function Show(t: Token): (s: string)
    ensures ValidToken(t) ==> |s| > 0 && ',' !in s
  {
    match t
    case Num(n) => Digits(n)
    case Name(w) => w
  }

  /** Reading one token: all digits is a number, a valid name is a name, anything else is malformed. */
  function Read(s: string): (r: Result<Token, TokenError>)
    ensures r.Success? ==> ValidToken(r.value) && Show(r.value) != "" && (r.value.Name? ==> Show(r.value) == s)
    ensures r.Success? && r.value.Num? ==> AllDigits(s) && r.value.n == Value(s)
  {
    if |s| > 0 && AllDigits(s) then Success(Num(Value(s)))
    else if ValidName(s) then Success(Name(s))
    else Failure(Malformed)
  }

  /** A valid token is read back as itself. */
  lemma ReadShow(t: Token)
    requires ValidToken(t)
    ensures Read(Show(t)) == Success(t)
  {
    match t
    case Num(n) =>
      ValueDigits(n);
    case Name(w) =>
      assert !IsDigit(w[0]);
  }

  /** The pieces joined with commas. */
  function Join(pieces: seq<string>): (s: string)
    requires |pieces| > 0
    decreases |pieces|
  {
    if |pieces| == 1 then pieces[0] else pieces[0] + "," + Join(pieces[1..])
  }

  /** The pieces between the commas, left to right; a text without commas is one piece. */
  function Split(s: string): (pieces: seq<string>)
    ensures |pieces| > 0
    decreases |s|
  {
    if |s| == 0 then [""]
    else
      var rest := Split(s[1..]);
      if s[0] == ',' then [""] + rest else [[s[0]] + rest[0]] + rest[1..]
  }

  /** A comma-free text stays at the head of the first piece. */
  lemma {:induction false} SplitPrefix(a: string, s: string)
    requires ',' !in a
    ensures Split(a + s) == [a + Split(s)[0]] + Split(s)[1..]
    decreases |a|
  {
    if |a| != 0 {
      assert (a + s)[0] == a[0] && (a + s)[1..] == a[1..] + s;
      assert a[0] != ',';
      SplitPrefix(a[1..], s);
      var rest := Split(a[1..] + s);
      assert rest[0] == a[1..] + Split(s)[0] && rest[1..] == Split(s)[1..];
      assert [a[0]] + (a[1..] + Split(s)[0]) == a + Split(s)[0];
    } else {
      assert a + s == s;
      assert a + Split(s)[0] == Split(s)[0];
      assert [Split(s)[0]] + Split(s)[1..] == Split(s);
    }
  }

  /** Splitting comma-free pieces joined with commas gives the pieces. */
  lemma {:induction false} SplitJoin(pieces: seq<string>)
    requires |pieces| > 0 && forall i :: 0 <= i < |pieces| ==> ',' !in pieces[i]
    ensures Split(Join(pieces)) == pieces
    decreases |pieces|
  {
    var a := pieces[0];
    if |pieces| == 1 {
      SplitPrefix(a, "");
      assert a + "" == a;
    } else {
      var rest := Join(pieces[1..]);
      SplitJoin(pieces[1..]);
      assert a + "," + rest == a + ("," + rest);
      SplitPrefix(a, "," + rest);
      assert ("," + rest)[1..] == rest;
      assert Split("," + rest) == [""] + Split(rest);
      assert a + "" == a;
      assert [a] + pieces[1..] == pieces;
    }
  }

  /** The texts of the tokens, in order. */
  function Shows(ts: seq<Token>): (pieces: seq<string>)
    ensures |pieces| == |ts| && forall i :: 0 <= i < |ts| ==> pieces[i] == Show(ts[i])
    decreases |ts|
  {
    if |ts| == 0 then [] else [Show(ts[0])] + Shows(ts[1..])
  }

  /** Reading every piece, failing on the first malformed one. */
  function Reads(pieces: seq<string>): (r: Result<seq<Token>, TokenError>)
    ensures r.Success? ==> |r.value| == |pieces| && forall i :: 0 <= i < |pieces| ==> Read(pieces[i]) == Success(r.value[i])
    ensures r.Failure? ==> exists i :: 0 <= i < |pieces| && Read(pieces[i]).Failure?
    decreases |pieces|
  {
    if |pieces| == 0 then Success([])
    else
      match Read(pieces[0])
      case Failure(err) => Failure(err)
      case Success(t) =>
        match Reads(pieces[1..])
        case Failure(err) => Failure(err)
        case Success(ts) => Success([t] + ts)
  }

  /** Writing a payload: the tokens' texts joined with commas. */
  function Write(ts: seq<Token>): string
    requires |ts| > 0
  {
    Join(Shows(ts))
  }

  /** Parsing a payload: split at the commas and read each piece as a token. */
  function Parse(s: string): (r: Result<seq<Token>, TokenError>)
    ensures r.Success? ==> |r.value| > 0 && forall i :: 0 <= i < |r.value| ==> ValidToken(r.value[i])
  {
    Reads(Split(s))
  }

  /** Reading back the texts of valid tokens gives the tokens. */
  lemma {:induction false} ReadsShows(ts: seq<Token>)
    requires forall i :: 0 <= i < |ts| ==> ValidToken(ts[i])
    ensures Reads(Shows(ts)) == Success(ts)
    decreases |ts|
  {
    if |ts| != 0 {
      ReadShow(ts[0]);
      ReadsShows(ts[1..]);
      assert Shows(ts)[1..] == Shows(ts[1..]);
      assert [ts[0]] + ts[1..] == ts;
    }
  }

  /** A written payload of valid tokens parses back to the same tokens. */
  lemma ParseWrite(ts: seq<Token>)
    requires |ts| > 0 && forall i :: 0 <= i < |ts| ==> ValidToken(ts[i])
    ensures Parse(Write(ts)) == Success(ts)
  {
    SplitJoin(Shows(ts));
    ReadsShows(ts);
  }
}
