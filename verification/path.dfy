/**
 * The URL path builder of src/service/path.ts: each part loses one leading
 * and one trailing slash, the first part is always kept between two
 * slashes, and the remaining non-empty parts follow, separated by slashes.
 */
module Path {
  predicate StartsWithSlash(s: string)
  {
    |s| > 0 && s[0] == '/'
  }

  predicate EndsWithSlash(s: string)
  {
    |s| > 0 && s[|s| - 1] == '/'
  }

  /** `trim`: drop at most one leading slash, then at most one trailing slash. */
  function Trim(s: string): (t: string)
    ensures StartsWithSlash(s) ==> s[1..] == t || s[1..] == t + "/"
    ensures !StartsWithSlash(s) ==> s == t || s == t + "/"
    ensures |s| - 2 <= |t| <= |s|
  {
    var s1 := if StartsWithSlash(s) then s[1..] else s;
    if EndsWithSlash(s1) then s1[..|s1| - 1] else s1
  }

  /** A part wrapped in one slash on each side trims back to the part. */
  lemma TrimWrapped(t: string)
    ensures Trim("/" + t + "/") == t
  {
    assert ("/" + t + "/")[1..] == t + "/";
  }

  /** A part without a slash at either end is left as it is. */
  lemma TrimPlain(t: string)
    requires !StartsWithSlash(t) && !EndsWithSlash(t)
    ensures Trim(t) == t
  {
  }

  /** The parts that are not empty, in order (`filter`). */
  function NonEmpty(parts: seq<string>): (r: seq<string>)
    ensures |r| <= |parts|
    ensures forall i :: 0 <= i < |r| ==> |r[i]| > 0
    ensures (forall i :: 0 <= i < |parts| ==> |parts[i]| > 0) ==> r == parts
    decreases |parts|
  {
    if |parts| == 0 then []
    else if |parts[0]| > 0 then [parts[0]] + NonEmpty(parts[1..])
    else NonEmpty(parts[1..])
  }

  /** Filtering a concatenation filters each side. */
  lemma {:induction false} NonEmptyAppend(a: seq<string>, b: seq<string>)
    ensures NonEmpty(a + b) == NonEmpty(a) + NonEmpty(b)
    decreases |a|
  {
    if |a| == 0 {
      assert a + b == b;
    } else {
      assert (a + b)[1..] == a[1..] + b;
      NonEmptyAppend(a[1..], b);
    }
  }

  /** Every part trimmed (`map(trim)`). */
  function Trims(parts: seq<string>): (r: seq<string>)
    ensures |r| == |parts| && forall i :: 0 <= i < |parts| ==> r[i] == Trim(parts[i])
    decreases |parts|
  {
    if |parts| == 0 then [] else [Trim(parts[0])] + Trims(parts[1..])
  }

  /** The parts separated by slashes (`join("/")`); no parts give the empty string. */
  function JoinSlash(parts: seq<string>): (s: string)
    decreases |parts|
  {
    if |parts| == 0 then ""
    else if |parts| == 1 then parts[0]
    else parts[0] + "/" + JoinSlash(parts[1..])
  }

  /** Joining one more part adds a slash and the part, unless nothing was there before. */
  lemma {:induction false} JoinSlashSnoc(parts: seq<string>, x: string)
    ensures JoinSlash(parts + [x]) == if |parts| == 0 then x else JoinSlash(parts) + "/" + x
    decreases |parts|
  {
    if |parts| == 1 {
      assert parts + [x] == [parts[0], x];
    } else if |parts| > 1 {
      assert (parts + [x])[1..] == parts[1..] + [x];
      JoinSlashSnoc(parts[1..], x);
    }
  }

  /** The default export of src/service/path.ts. */
  function Join(args: seq<string>): (r: string)
    ensures StartsWithSlash(r)
    ensures |args| == 0 ==> r == "/"
    ensures |args| == 1 ==> r == "/" + Trim(args[0]) + "/"
    ensures |args| > 0 ==> |r| >= |Trim(args[0])| + 2 && r[..|Trim(args[0])| + 2] == "/" + Trim(args[0]) + "/"
  {
    if |args| > 0 then
      var head := "/" + Trim(args[0]) + "/";
      assert (head + Tail(args[1..]))[..|head|] == head;
      head + Tail(args[1..])
    else "/"
  }

  /** Trimming one more part appends its trimmed form. */
  lemma TrimsSnoc(parts: seq<string>, x: string)
    ensures Trims(parts + [x]) == Trims(parts) + [Trim(x)]
  {
  }

  /** A later part that trims to nothing adds nothing. */
  lemma JoinSkipsEmpty(args: seq<string>, x: string)
    requires |args| > 0 && Trim(x) == ""
    ensures Join(args + [x]) == Join(args)
  {
    assert (args + [x])[0] == args[0] && (args + [x])[1..] == args[1..] + [x];
    TrimsSnoc(args[1..], x);
    NonEmptyAppend(Trims(args[1..]), [Trim(x)]);
    assert NonEmpty([Trim(x)]) == [];
    assert NonEmpty(Trims(args[1..])) + [] == NonEmpty(Trims(args[1..]));
  }

  /** The later parts trimmed, the empty ones dropped, the rest joined with slashes. */
  function Tail(rest: seq<string>): string
  {
    JoinSlash(NonEmpty(Trims(rest)))
  }

  /** One more later part that does not trim to nothing extends the tail. */
  lemma TailSnoc(rest: seq<string>, x: string)
    requires Trim(x) != ""
    ensures Tail(rest + [x]) == Tail(rest) + (if |NonEmpty(Trims(rest))| == 0 then "" else "/") + Trim(x)
  {
    var kept := NonEmpty(Trims(rest));
    var t := Trim(x);
    TrimsSnoc(rest, x);
    NonEmptyAppend(Trims(rest), [t]);
    assert NonEmpty([t]) == [t];
    JoinSlashSnoc(kept, t);
    if |kept| == 0 {
      assert Tail(rest) + "" + t == t;
    }
  }

  /**
   * A later part that does not trim to nothing is added trimmed, after a
   * slash when an earlier later part was kept.
   */
  lemma JoinAddsPart(args: seq<string>, x: string)
    requires |args| > 0 && Trim(x) != ""
    ensures var kept := NonEmpty(Trims(args[1..]));
      Join(args + [x]) == Join(args) + (if |kept| == 0 then "" else "/") + Trim(x)
  {
    var rest := args[1..];
    var head := "/" + Trim(args[0]) + "/";
    assert (args + [x])[0] == args[0] && (args + [x])[1..] == rest + [x];
    assert Join(args + [x]) == head + Tail(rest + [x]);
    assert Join(args) == head + Tail(rest);
    TailSnoc(rest, x);
    var sep := if |NonEmpty(Trims(rest))| == 0 then "" else "/";
    Regroup(head, Tail(rest), sep, Trim(x));
  }

  lemma Regroup(a: string, b: string, c: string, d: string)
    ensures a + (b + c + d) == a + b + c + d
  {
  }

  /** The first part is kept even when it trims to nothing. */
  lemma JoinKeepsFirst(first: string)
    requires Trim(first) == ""
    ensures Join([first]) == "//"
  {
  }
}
