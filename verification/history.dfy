/**
 * The answer history of src/service/history.ts: one entry per element
 * shown, recording whether the element had been shown before and, once
 * given, the player's answer.
 */
module History {
  import opened Wrappers

  datatype EntryState = Unseen | Seen

  /** `History.Entry`: a shown value, whether it was seen before, and the answer given. */
  datatype Entry<T> = Entry(value: T, actualState: EntryState, answeredState: Option<EntryState>)

  /** The `Entry` constructor: no answer yet. */
  function NewEntry<T>(value: T, actualState: EntryState): (e: Entry<T>)
    ensures e.value == value && e.actualState == actualState && e.answeredState == None
  {
    Entry(value, actualState, None)
  }

  /** `HistoryTracker`: the entries, oldest first; a new tracker has none. */
  datatype HistoryTracker<T> = HistoryTracker(entries: seq<Entry<T>>)

  /** Setting `answer` on a tracker without entries fails (the source dereferences `undefined`). */
  datatype HistoryError = NoEntries

  /** Some entry holds `value` (`entries.some`). */
  function Includes<T(==)>(entries: seq<Entry<T>>, value: T): (b: bool)
    ensures b <==> exists i :: 0 <= i < |entries| && entries[i].value == value
    decreases |entries|
  {
    if |entries| == 0 then false
    else entries[0].value == value || Includes(entries[1..], value)
  }

  /** The `current` setter: append the value, marked seen exactly when an earlier entry holds it. */
  function SetCurrent<T(==)>(h: HistoryTracker<T>, value: T): (r: HistoryTracker<T>)
    ensures |r.entries| == |h.entries| + 1 && r.entries[..|h.entries|] == h.entries
    ensures r.entries[|h.entries|].value == value && r.entries[|h.entries|].answeredState == None
    ensures r.entries[|h.entries|].actualState == Seen <==>
      exists i :: 0 <= i < |h.entries| && h.entries[i].value == value
  {
    if Includes(h.entries, value) then HistoryTracker(h.entries + [NewEntry(value, Seen)])
    else HistoryTracker(h.entries + [NewEntry(value, Unseen)])
  }

  /** The `answer` setter: record the answer on the last entry, and change nothing else. */
  function SetAnswer<T>(h: HistoryTracker<T>, state: EntryState): (r: Result<HistoryTracker<T>, HistoryError>)
    ensures r.Failure? <==> |h.entries| == 0
    ensures r.Success? ==>
      && |r.value.entries| == |h.entries|
      && r.value.entries[..|h.entries| - 1] == h.entries[..|h.entries| - 1]
      && var last := r.value.entries[|h.entries| - 1];
         last.value == h.entries[|h.entries| - 1].value && last.actualState == h.entries[|h.entries| - 1].actualState
         && last.answeredState == Some(state)
  {
    if |h.entries| == 0 then Failure(NoEntries)
    else
      var n := |h.entries| - 1;
      Success(HistoryTracker(h.entries[n := h.entries[n].(answeredState := Some(state))]))
  }

  /** A use of the tracker: show a value, or answer the last one shown. */
  datatype Step<T> = Current(value: T) | Answer(state: EntryState)

  /** The tracker after the steps in order; the first failing answer stops it. */
  function Apply<T(==)>(h: HistoryTracker<T>, steps: seq<Step<T>>): Result<HistoryTracker<T>, HistoryError>
    decreases |steps|
  {
    if |steps| == 0 then Success(h)
    else
      match steps[0]
      case Current(v) => Apply(SetCurrent(h, v), steps[1..])
      case Answer(s) =>
        match SetAnswer(h, s)
        case Failure(err) => Failure(err)
        case Success(h1) => Apply(h1, steps[1..])
  }

  /** The values shown by the steps, in order. */
  function Shown<T>(steps: seq<Step<T>>): (vs: seq<T>)
    decreases |steps|
  {
    if |steps| == 0 then []
    else if steps[0].Current? then [steps[0].value] + Shown(steps[1..])
    else Shown(steps[1..])
  }

  /** The values of the entries, oldest first. */
  function Values<T>(entries: seq<Entry<T>>): (vs: seq<T>)
    ensures |vs| == |entries| && forall i :: 0 <= i < |entries| ==> vs[i] == entries[i].value
    decreases |entries|
  {
    if |entries| == 0 then [] else [entries[0].value] + Values(entries[1..])
  }

  /** Each entry is marked seen exactly when an earlier entry holds its value. */
  ghost predicate Marked<T>(entries: seq<Entry<T>>)
  {
    forall k :: 0 <= k < |entries| ==>
      (entries[k].actualState == Seen <==> exists i :: 0 <= i < k && entries[i].value == entries[k].value)
  }

  /** An entry of `a` keeps its value and seen mark in `b`. */
  ghost predicate Kept<T>(a: seq<Entry<T>>, b: seq<Entry<T>>)
  {
    |a| <= |b| && forall k :: 0 <= k < |a| ==> b[k].value == a[k].value && b[k].actualState == a[k].actualState
  }

  /** `current` keeps the marks right and keeps every existing entry in place. */
  lemma CurrentKeeps<T>(h: HistoryTracker<T>, value: T)
    requires Marked(h.entries)
    ensures Marked(SetCurrent(h, value).entries) && Kept(h.entries, SetCurrent(h, value).entries)
  {
    var a := h.entries;
    var b := SetCurrent(h, value).entries;
    forall k | 0 <= k < |a|
      ensures b[k] == a[k]
    {
      assert b[k] == b[..|a|][k];
    }
    forall k | 0 <= k < |b|
      ensures b[k].actualState == Seen <==> exists i :: 0 <= i < k && b[i].value == b[k].value
    {
      if k < |a| {
        if b[k].actualState == Seen {
          var i :| 0 <= i < k && a[i].value == a[k].value;
          assert b[i].value == b[k].value;
        }
      } else {
        if exists i :: 0 <= i < k && b[i].value == b[k].value {
          var i :| 0 <= i < k && b[i].value == b[k].value;
          assert a[i].value == value;
        }
      }
    }
  }

  /** `answer` keeps the marks right and keeps every entry's value and mark. */
  lemma AnswerKeeps<T>(h: HistoryTracker<T>, state: EntryState)
    requires Marked(h.entries) && SetAnswer(h, state).Success?
    ensures Marked(SetAnswer(h, state).value.entries) && Kept(h.entries, SetAnswer(h, state).value.entries)
  {
    var a := h.entries;
    var b := SetAnswer(h, state).value.entries;
    forall k | 0 <= k < |b|
      ensures b[k].value == a[k].value && b[k].actualState == a[k].actualState
    {
      if k < |b| - 1 {
        assert b[k] == b[..|b| - 1][k] && a[k] == a[..|b| - 1][k];
      }
    }
    MarkedKept(a, b);
  }

  /** Entries of the same length with the same values and marks are marked right together. */
  lemma MarkedKept<T>(a: seq<Entry<T>>, b: seq<Entry<T>>)
    requires Marked(a) && Kept(a, b) && |b| == |a|
    ensures Marked(b)
  {
    forall k | 0 <= k < |b|
      ensures b[k].actualState == Seen <==> exists i :: 0 <= i < k && b[i].value == b[k].value
    {
      if b[k].actualState == Seen {
        var i :| 0 <= i < k && a[i].value == a[k].value;
        assert b[i].value == b[k].value;
      }
      if exists i :: 0 <= i < k && b[i].value == b[k].value {
        var i :| 0 <= i < k && b[i].value == b[k].value;
        assert a[i].value == a[k].value;
      }
    }
  }

  /**
   * From a tracker whose marks are right, any steps that succeed keep every
   * existing entry's value and mark in place, append one entry per shown
   * value in the order shown, and leave every mark right: seen exactly when
   * an earlier entry holds the same value.
   */
  lemma {:induction false} ApplyMarks<T>(h: HistoryTracker<T>, steps: seq<Step<T>>)
    requires Marked(h.entries)
    ensures Apply(h, steps).Success? ==> Grows(h, steps, Apply(h, steps).value)
    decreases |steps|
  {
    if |steps| == 0 {
      assert Values(h.entries) + [] == Values(h.entries);
    } else if Apply(h, steps).Success? {
      var r := Apply(h, steps).value;
      match steps[0]
      case Current(v) =>
        var h1 := SetCurrent(h, v);
        assert Apply(h, steps) == Apply(h1, steps[1..]);
        CurrentKeeps(h, v);
        ValuesSnoc(h.entries, h1.entries);
        ApplyMarks(h1, steps[1..]);
        GrowsTrans(h, h1, steps, r);
      case Answer(state) =>
        var h1 := SetAnswer(h, state).value;
        assert Apply(h, steps) == Apply(h1, steps[1..]);
        AnswerKeeps(h, state);
        ValuesSame(h.entries, h1.entries);
        ApplyMarks(h1, steps[1..]);
        GrowsTrans(h, h1, steps, r);
    }
  }

  /**
   * `r` is what `steps` can make of `h`: the marks are right, the old
   * entries are kept, and the shown values follow the old ones.
   */
  ghost predicate Grows<T>(h: HistoryTracker<T>, steps: seq<Step<T>>, r: HistoryTracker<T>)
  {
    Marked(r.entries) && Kept(h.entries, r.entries) && Values(r.entries) == Values(h.entries) + Shown(steps)
  }

  /** One step that shows what it shows, then the rest. */
  lemma GrowsTrans<T>(h: HistoryTracker<T>, h1: HistoryTracker<T>, steps: seq<Step<T>>, r: HistoryTracker<T>)
    requires |steps| > 0 && Kept(h.entries, h1.entries) && Grows(h1, steps[1..], r)
    requires Values(h1.entries) == Values(h.entries) + (if steps[0].Current? then [steps[0].value] else [])
    ensures Grows(h, steps, r)
  {
    KeptTrans(h.entries, h1.entries, r.entries);
    ShownCons(steps);
    Assoc(Values(h.entries), if steps[0].Current? then [steps[0].value] else [], Shown(steps[1..]));
  }

  /** The first step shows its value, if any, ahead of the rest. */
  lemma ShownCons<T>(steps: seq<Step<T>>)
    requires |steps| > 0
    ensures Shown(steps) == (if steps[0].Current? then [steps[0].value] else []) + Shown(steps[1..])
  {
    if !steps[0].Current? {
      assert [] + Shown(steps[1..]) == Shown(steps[1..]);
    }
  }

  lemma Assoc<T>(a: seq<T>, b: seq<T>, c: seq<T>)
    ensures (a + b) + c == a + (b + c)
  {
  }

  lemma KeptTrans<T>(a: seq<Entry<T>>, b: seq<Entry<T>>, c: seq<Entry<T>>)
    requires Kept(a, b) && Kept(b, c)
    ensures Kept(a, c)
  {
  }

  /** One more entry at the end adds its value at the end. */
  lemma ValuesSnoc<T>(a: seq<Entry<T>>, b: seq<Entry<T>>)
    requires Kept(a, b) && |b| == |a| + 1
    ensures Values(b) == Values(a) + [b[|a|].value]
  {
    assert Values(b) == Values(a) + [b[|a|].value] by {
      forall k | 0 <= k < |b|
        ensures Values(b)[k] == (Values(a) + [b[|a|].value])[k]
      {
      }
    }
  }

  /** Entries with the same values, one by one, have the same values. */
  lemma ValuesSame<T>(a: seq<Entry<T>>, b: seq<Entry<T>>)
    requires Kept(a, b) && |b| == |a|
    ensures Values(b) == Values(a)
  {
    assert forall k :: 0 <= k < |b| ==> Values(b)[k] == Values(a)[k];
  }

  /** A new tracker: no entries. */
  function Empty<T>(): (h: HistoryTracker<T>)
    ensures |h.entries| == 0
  {
    HistoryTracker([])
  }

  /** From a new tracker, the entries hold exactly the shown values, each marked as `current` promises. */
  lemma EmptyApplyMarks<T>(steps: seq<Step<T>>)
    ensures var r := Apply(Empty<T>(), steps);
      r.Success? ==> Marked(r.value.entries) && Values(r.value.entries) == Shown(steps)
  {
    ApplyMarks(Empty<T>(), steps);
    assert Values(Empty<T>().entries) == [];
  }
}
