/** The depth loop of `_extract_section` read as counting: the tags it meets
    after a section's open tag form a trace, and the section ends at the first
    close tag of its kind where close tags outnumber the open tags met so far by
    the starting depth. */
module TemplateDepth {
  import opened Wrappers
  import opened Templates
  import opened TemplateNesting

  /** The tags the depth loop meets from `idx` on, in order, until no close tag
      follows: open tags of either kind and close tags of the section's kind,
      each with the position just past it. */
  function Trace(s: string, close: string, idx: nat): (t: seq<Event>)
    requires idx <= |s| && |close| > 0
    ensures forall i :: 0 <= i < |t| ==> !t[i].NoClose? && idx < t[i].end <= |s|
    decreases |s| - idx
  {
    match NextEvent(s, close, idx)
    case NoClose => []
    case OpenEnd(n) => [OpenEnd(n)] + Trace(s, close, n)
    case CloseEnd(n) => [CloseEnd(n)] + Trace(s, close, n)
  }

  /** What one tag does to the count: a close tag adds one, an open tag takes
      one away. */
  function Step(e: Event): int {
    match e
    case CloseEnd(_) => 1
    case OpenEnd(_) => -1
    case NoClose => 0
  }

  /** Close tags minus open tags. */
  function Balance(t: seq<Event>): int
    decreases |t|
  {
    if |t| == 0 then 0 else Step(t[0]) + Balance(t[1..])
  }

  /** The count over the first `j` tags. */
  function Level(t: seq<Event>, j: nat): int
    requires j <= |t|
  {
    Balance(t[..j])
  }

  /** Counting the first tag apart from the rest. */
  lemma LevelStep(t: seq<Event>)
    requires |t| > 0
    ensures forall j :: 1 <= j <= |t| ==> Level(t, j) == Step(t[0]) + Level(t[1..], j - 1)
  {
    forall j | 1 <= j <= |t| ensures Level(t, j) == Step(t[0]) + Level(t[1..], j - 1) {
      assert t[..j][1..] == t[1..][..j - 1];
    }
  }

  /** The position of the first tag after which close tags outnumber open tags
      by `d`, or `|t|` when the count never gets there. The count moves by one
      per tag, so that tag is a close tag and the count is exactly `d`. */
  function Reach(t: seq<Event>, d: int): (k: nat)
    requires d >= 1 && forall i :: 0 <= i < |t| ==> !t[i].NoClose?
    ensures k <= |t|
    ensures k < |t| ==> t[k].CloseEnd? && Level(t, k + 1) == d
    ensures forall j :: 1 <= j <= k ==> Level(t, j) < d
    decreases |t|
  {
    if |t| == 0 then 0
    else
      LevelStep(t);
      assert Level(t, 1) == Step(t[0]) by {
        assert t[..1][1..] == [];
      }
      if t[0].CloseEnd? && d == 1 then 0
      else
        assert forall i :: 0 <= i < |t| - 1 ==> t[1..][i] == t[i + 1];
        1 + Reach(t[1..], d - Step(t[0]))
  }

  /** After an open tag, the trace goes on from its end. */
  lemma TraceOpen(s: string, close: string, idx: nat, n: nat)
    requires idx <= |s| && |close| > 0 && NextEvent(s, close, idx) == OpenEnd(n)
    ensures Trace(s, close, idx) == [OpenEnd(n)] + Trace(s, close, n)
  {
  }

  /** After a close tag, the trace goes on from its end. */
  lemma TraceClose(s: string, close: string, idx: nat, n: nat)
    requires idx <= |s| && |close| > 0 && NextEvent(s, close, idx) == CloseEnd(n)
    ensures Trace(s, close, idx) == [CloseEnd(n)] + Trace(s, close, n)
  {
  }

  /** The loop's answer read off a trace at depth `d`. */
  function Stop(t: seq<Event>, d: int): Option<nat>
    requires d >= 1 && forall i :: 0 <= i < |t| ==> !t[i].NoClose?
  {
    if Reach(t, d) < |t| then Some(t[Reach(t, d)].end) else None
  }

  /** A trace that starts with a tag other than the final one stops where the
      rest stops, one level further in or out. */
  lemma StopStep(e: Event, rest: seq<Event>, d: int)
    requires d >= 1 && !e.NoClose? && forall i :: 0 <= i < |rest| ==> !rest[i].NoClose?
    requires e.OpenEnd? || d > 1
    ensures Stop([e] + rest, d) == Stop(rest, d - Step(e))
  {
    assert ([e] + rest)[1..] == rest;
  }

  /** A trace that starts with a close tag at depth one stops there. */
  lemma StopHere(n: nat, rest: seq<Event>)
    requires forall i :: 0 <= i < |rest| ==> !rest[i].NoClose?
    ensures Stop([CloseEnd(n)] + rest, 1) == Some(n)
  {
  }

  /** The depth loop replayed on a trace: an open tag goes one level in, a
      close tag one level out, and the close tag that leaves level one ends the
      section. */
  function Walk(t: seq<Event>, d: nat): Option<nat>
    requires d >= 1
    decreases |t|
  {
    if |t| == 0 then None
    else match t[0]
      case NoClose => None
      case OpenEnd(_) => Walk(t[1..], d + 1)
      case CloseEnd(n) => if d == 1 then Some(n) else Walk(t[1..], d - 1)
  }

  /** Replaying an open tag goes one level in. */
  lemma WalkOpen(n: nat, rest: seq<Event>, d: nat)
    requires d >= 1
    ensures Walk([OpenEnd(n)] + rest, d) == Walk(rest, d + 1)
  {
    assert ([OpenEnd(n)] + rest)[1..] == rest;
  }

  /** Replaying a close tag stops at level one and goes one level out below. */
  lemma WalkClose(n: nat, rest: seq<Event>, d: nat)
    requires d >= 1
    ensures Walk([CloseEnd(n)] + rest, d) == if d == 1 then Some(n) else Walk(rest, d - 1)
  {
    assert ([CloseEnd(n)] + rest)[1..] == rest;
  }

  /** An open tag: the loop and the replay both go one level in. */
  lemma WalkOpenStep(s: string, close: string, idx: nat, d: nat, n: nat)
    requires idx <= |s| && |close| > 0 && d >= 1 && NextEvent(s, close, idx) == OpenEnd(n)
    requires ExtractFrom(s, close, n, d + 1) == Walk(Trace(s, close, n), d + 1)
    ensures ExtractFrom(s, close, idx, d) == Walk(Trace(s, close, idx), d)
  {
    ExtractFromOpenStep(s, close, idx, d, n);
    TraceOpen(s, close, idx, n);
    WalkOpen(n, Trace(s, close, n), d);
  }

  /** A close tag below level one: both go one level out. */
  lemma WalkCloseStep(s: string, close: string, idx: nat, d: nat, n: nat)
    requires idx <= |s| && |close| > 0 && d > 1 && NextEvent(s, close, idx) == CloseEnd(n)
    requires ExtractFrom(s, close, n, d - 1) == Walk(Trace(s, close, n), d - 1)
    ensures ExtractFrom(s, close, idx, d) == Walk(Trace(s, close, idx), d)
  {
    ExtractFromCloseStep(s, close, idx, d, n);
    TraceClose(s, close, idx, n);
    WalkClose(n, Trace(s, close, n), d);
  }

  /** A close tag at level one: both stop at its end. */
  lemma WalkFirstClose(s: string, close: string, idx: nat, n: nat)
    requires idx <= |s| && |close| > 0 && NextEvent(s, close, idx) == CloseEnd(n)
    ensures ExtractFrom(s, close, idx, 1) == Walk(Trace(s, close, idx), 1)
  {
    ExtractFromCloseFirst(s, close, idx, n);
    TraceClose(s, close, idx, n);
    WalkClose(n, Trace(s, close, n), 1);
  }

  /** The depth loop from `idx` at depth `d` is the replay of the trace from
      `idx`. */
  lemma {:induction false} ExtractFromWalk(s: string, close: string, idx: nat, d: nat)
    requires idx <= |s| && |close| > 0 && d >= 1
    ensures ExtractFrom(s, close, idx, d) == Walk(Trace(s, close, idx), d)
    decreases |s| - idx, 1
  {
    match NextEvent(s, close, idx)
    case NoClose =>
      ExtractFromNoCloseStep(s, close, idx, d);
    case OpenEnd(n) =>
      ExtractFromWalkOpen(s, close, idx, d, n);
    case CloseEnd(n) =>
      if d > 1 {
        ExtractFromWalkClose(s, close, idx, d, n);
      } else {
        WalkFirstClose(s, close, idx, n);
      }
  }

  /** The inductive step of `ExtractFromWalk` at an open tag. */
  lemma {:induction false} ExtractFromWalkOpen(s: string, close: string, idx: nat, d: nat, n: nat)
    requires idx <= |s| && |close| > 0 && d >= 1 && NextEvent(s, close, idx) == OpenEnd(n)
    ensures ExtractFrom(s, close, idx, d) == Walk(Trace(s, close, idx), d)
    decreases |s| - idx, 0
  {
    ExtractFromWalk(s, close, n, d + 1);
    WalkOpenStep(s, close, idx, d, n);
  }

  /** The inductive step of `ExtractFromWalk` at a close tag below level one. */
  lemma {:induction false} ExtractFromWalkClose(s: string, close: string, idx: nat, d: nat, n: nat)
    requires idx <= |s| && |close| > 0 && d > 1 && NextEvent(s, close, idx) == CloseEnd(n)
    ensures ExtractFrom(s, close, idx, d) == Walk(Trace(s, close, idx), d)
    decreases |s| - idx, 0
  {
    ExtractFromWalk(s, close, n, d - 1);
    WalkCloseStep(s, close, idx, d, n);
  }

  /** Replaying a trace of tags stops at the tag `Reach` picks: the first one
      after which the count gets to `d`. */
  lemma {:induction false} WalkStop(t: seq<Event>, d: nat)
    requires d >= 1 && forall i :: 0 <= i < |t| ==> !t[i].NoClose?
    ensures Walk(t, d) == Stop(t, d)
    decreases |t|
  {
    if |t| > 0 {
      var rest := t[1..];
      assert t == [t[0]] + rest;
      if t[0].CloseEnd? && d == 1 {
        StopHere(t[0].end, rest);
      } else {
        WalkStop(rest, d - Step(t[0]));
        StopStep(t[0], rest, d);
      }
    }
  }

  /** The depth loop from `idx` at depth `d` stops at the end of the tag `Reach`
      picks from the trace, and finds nothing exactly when the count never gets
      to `d`. */
  lemma ExtractFromReach(s: string, close: string, idx: nat, d: nat)
    requires idx <= |s| && |close| > 0 && d >= 1
    ensures ExtractFrom(s, close, idx, d) == Stop(Trace(s, close, idx), d)
  {
    ExtractFromWalk(s, close, idx, d);
    WalkStop(Trace(s, close, idx), d);
  }

  /** `_extract_section` ends the section at the first close tag of its kind
      after which close tags outnumber the open tags of either kind by one; the
      body is everything before that close tag, and the section is unclosed
      exactly when there is no such tag. */
  lemma ExtractByCount(s: string, kind: Kind)
    ensures var close := CloseTag(kind);
            var t := Trace(s, close, 0);
            var k := Reach(t, 1);
            && (Extract(s, kind).Failure? <==> k == |t|)
            && (k < |t| ==> t[k].end >= |close|
                            && Extract(s, kind) == Success(Section(s[..t[k].end - |close|], t[k].end)))
  {
    SectionBeforeByCount(s, CloseTag(kind));
  }

  /** `ExtractByCount` for any close tag. */
  lemma SectionBeforeByCount(s: string, close: string)
    requires |close| > 0
    ensures var t := Trace(s, close, 0);
            var k := Reach(t, 1);
            && (SectionBefore(s, close).None? <==> k == |t|)
            && (k < |t| ==> t[k].end >= |close|
                            && SectionBefore(s, close) == Some(Section(s[..t[k].end - |close|], t[k].end)))
  {
    var t := Trace(s, close, 0);
    var k := Reach(t, 1);
    assert ExtractFrom(s, close, 0, 1) == Stop(t, 1) by {
      ExtractFromReach(s, close, 0, 1);
    }
    if k < |t| {
      SectionBeforeEnds(s, close, t[k].end);
    }
  }
}
