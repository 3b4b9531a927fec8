/** The bookkeeping of the playback server `agent_server.py`: which image each
    agent is shown with, which participant the page puts in the spotlight, and
    what `handle_speech` records. The module-level dicts, the last speaker and
    the version counter become an explicit `ServerState`; the image directory,
    the files that exist on disk and the random picks are parameters. Flask,
    the speech itself and the fallback chain after a failed playback are not
    modelled. */
module PlaybackServer {
  import opened Wrappers
  import opened Text
  import opened Dicts
  import opened Sorting
  import VoiceRegistry

  // ---------------------------------------------------------------------------
  // Images

  /** An image file: its file name and its stem (the name without suffix). */
  datatype Image = Image(name: string, stem: string)

  /** `_normalize(value)`: lower-cased, with spaces and underscores removed. */
  function Normalize(v: string): (r: string)
    ensures ' ' !in r && '_' !in r
    ensures |r| <= |v|
  {
    RemoveChar(RemoveChar(Lower(v), ' '), '_')
  }

  /** Every character is its own lower case. */
  predicate IsLowered(s: string) {
    forall i :: 0 <= i < |s| ==> LowerChar(s[i]) == s[i]
  }

  /** Removing a character that is not there changes nothing. */
  lemma {:induction false} RemoveAbsent(s: string, c: char)
    requires c !in s
    ensures RemoveChar(s, c) == s
    decreases |s|
  {
    if |s| > 0 {
      RemoveAbsent(s[1..], c);
      assert s == [s[0]] + s[1..];
    }
  }

  /** Normalising twice is normalising once. */
  lemma NormalizeIdempotent(v: string)
    ensures Normalize(Normalize(v)) == Normalize(v)
  {
    var n := Normalize(v);
    var l := Lower(v);
    assert forall x :: x in n ==> x in RemoveChar(l, ' ') && x in l;
    assert IsLowered(n) by {
      forall i | 0 <= i < |n| ensures LowerChar(n[i]) == n[i] {
        assert n[i] in l;
      }
    }
    assert Lower(n) == n;
    RemoveAbsent(n, ' ');
    RemoveAbsent(n, '_');
  }

  /** `_score(path)` for a normalised stem and a normalised agent id: 3 for the
      same name, 2 when the id is non-empty and occurs in the stem, else 1. */
  function Score(stem: string, normalized: string): (r: int)
    ensures 1 <= r <= 3
    ensures r == 3 <==> stem == normalized
    ensures r == 2 <==> stem != normalized && normalized != "" && Contains(stem, normalized)
  {
    if stem == normalized then 3
    else if normalized != "" && Contains(stem, normalized) then 2
    else 1
  }

  /** The score of an image for the normalised agent id. */
  function ImageScore(img: Image, normalized: string): int {
    Score(Normalize(img.stem), normalized)
  }

  /** The candidate order `(-score, name.lower())`: a higher score first, then
      the lower-cased name. */
  predicate CandidateLe(a: Image, b: Image, normalized: string) {
    var sa := ImageScore(a, normalized);
    var sb := ImageScore(b, normalized);
    sa > sb || (sa == sb && StrLe(Lower(a.name), Lower(b.name)))
  }

  /** The candidate order is a total preorder, so sorting by it is meaningful. */
  lemma CandidateOrder(normalized: string)
    ensures Total((a: Image, b: Image) => CandidateLe(a, b, normalized))
    ensures Transitive((a: Image, b: Image) => CandidateLe(a, b, normalized))
  {
    forall a: Image, b: Image ensures CandidateLe(a, b, normalized) || CandidateLe(b, a, normalized) {
      StrLeTotal(Lower(a.name), Lower(b.name));
    }
    forall a: Image, b: Image, c: Image | CandidateLe(a, b, normalized) && CandidateLe(b, c, normalized)
      ensures CandidateLe(a, c, normalized)
    {
      if ImageScore(a, normalized) == ImageScore(b, normalized) == ImageScore(c, normalized) {
        StrLeTrans(Lower(a.name), Lower(b.name), Lower(c.name));
      }
    }
  }

  /** `sorted(available, key=lambda p: (-_score(p), p.name.lower()))` */
  function Candidates(available: seq<Image>, normalized: string): seq<Image> {
    SortBy(available, (a: Image, b: Image) => CandidateLe(a, b, normalized))
  }

  /** The images currently assigned to someone whose files exist. */
  function ExistingImages(assignments: Dict<Image>, onDisk: set<Image>): set<Image> {
    set i | 0 <= i < |assignments| && assignments[i].1 in onDisk :: assignments[i].1
  }

  /** A candidate the loop accepts: not assigned to anyone yet, or an exact
      name match. */
  predicate Eligible(img: Image, existing: set<Image>, normalized: string) {
    !(img in existing && ImageScore(img, normalized) < 3)
  }

  /** Index of the first element from `from` on satisfying `p`, or -1. */
  function FirstWhere<T>(xs: seq<T>, p: T -> bool, from: nat): (i: int)
    requires from <= |xs|
    ensures -1 <= i < |xs|
    ensures i >= 0 ==> from <= i && p(xs[i])
    ensures forall j :: from <= j < |xs| && (i < 0 || j < i) ==> !p(xs[j])
    decreases |xs| - from
  {
    if from == |xs| then -1
    else if p(xs[from]) then from
    else FirstWhere(xs, p, from + 1)
  }

  /** The first element of a sorted sequence satisfying `p` is `le` every
      element satisfying `p`. */
  lemma FirstWhereIsLeast<T(!new)>(xs: seq<T>, p: T -> bool, le: (T, T) -> bool, x: T)
    requires Total(le) && SortedBy(xs, le)
    requires x in xs && p(x)
    ensures FirstWhere(xs, p, 0) >= 0
    ensures le(xs[FirstWhere(xs, p, 0)], x)
  {
    var k :| 0 <= k < |xs| && xs[k] == x;
    var i := FirstWhere(xs, p, 0);
    assert i >= 0 && i <= k;
    if i == k {
      assert le(x, x) || le(x, x);
    }
  }

  /** `get_or_assign_image(agent_id)`. An assignment whose file still exists is
      returned with nothing changed. Otherwise the image directory must exist
      and hold images (`RuntimeError` if not); the candidates are ranked, and the
      first that is free or an exact match is taken, else a random image
      (`pick`). The result is recorded under the agent id. */
  function GetOrAssignImage(assignments: Dict<Image>, onDisk: set<Image>, dirExists: bool,
                            available: seq<Image>, agentId: string, pick: nat): (r: Result<(Dict<Image>, Image)>)
    requires UniqueKeys(assignments)
    ensures var a := Get(assignments, agentId);
            a.Some? && a.value in onDisk ==> r == Success((assignments, a.value))
    ensures var a := Get(assignments, agentId);
            !(a.Some? && a.value in onDisk) ==>
              && (r.Failure? <==> !dirExists || |available| == 0)
              && (r.Failure? ==> r.error.RuntimeError?)
              && (r.Success? ==> r.value.1 in available)
    ensures r.Success? ==> UniqueKeys(r.value.0)
    ensures r.Success? ==> Get(r.value.0, agentId) == Some(r.value.1)
    ensures r.Success? ==> forall k :: k != agentId ==> Get(r.value.0, k) == Get(assignments, k)
  {
    var a := Get(assignments, agentId);
    if a.Some? && a.value in onDisk then
      Success((assignments, a.value))
    else if !dirExists then
      Failure(RuntimeError("Image directory not found"))
    else if |available| == 0 then
      Failure(RuntimeError("No image files found"))
    else
      var n := Normalize(agentId);
      var existing := ExistingImages(assignments, onDisk);
      var candidates := Candidates(available, n);
      SortByElements(available, (a: Image, b: Image) => CandidateLe(a, b, n));
      var i := FirstWhere(candidates, (img: Image) => Eligible(img, existing, n), 0);
      var img := if i >= 0 then candidates[i] else available[pick % |available|];
      SetUnique(assignments, agentId, img);
      Success((Set(assignments, agentId, img), img))
  }

  /** The choice is the best free image: when the agent had no usable image and
      some available image is free or an exact match, the chosen one is such an
      image and comes first in the candidate order among them; when none is,
      the random pick is used. */
  lemma ChosenIsBest(assignments: Dict<Image>, onDisk: set<Image>, available: seq<Image>,
                     agentId: string, pick: nat)
    requires UniqueKeys(assignments)
    requires var a := Get(assignments, agentId); !(a.Some? && a.value in onDisk)
    ensures var r := GetOrAssignImage(assignments, onDisk, true, available, agentId, pick);
            var n := Normalize(agentId);
            var existing := ExistingImages(assignments, onDisk);
            r.Success? ==>
              && ((exists e :: e in available && Eligible(e, existing, n)) ==>
                    && Eligible(r.value.1, existing, n)
                    && forall e :: e in available && Eligible(e, existing, n) ==> CandidateLe(r.value.1, e, n))
              && ((forall e :: e in available ==> !Eligible(e, existing, n)) ==>
                    r.value.1 == available[pick % |available|])
  {
    var n := Normalize(agentId);
    var existing := ExistingImages(assignments, onDisk);
    var le := (a: Image, b: Image) => CandidateLe(a, b, n);
    var p := (img: Image) => Eligible(img, existing, n);
    var candidates := Candidates(available, n);
    SortByElements(available, le);
    CandidateOrder(n);
    SortBySorted(available, le);
    var i := FirstWhere(candidates, p, 0);
    forall e | e in available && Eligible(e, existing, n) ensures i >= 0 && CandidateLe(candidates[i], e, n) {
      FirstWhereIsLeast(candidates, p, le, e);
    }
    if i < 0 {
      forall e | e in available ensures !Eligible(e, existing, n) {
        var k :| 0 <= k < |candidates| && candidates[k] == e;
      }
    }
  }

  /** An agent with an image named after it gets that image, even when another
      agent already has it. */
  lemma ExactMatchWins(assignments: Dict<Image>, onDisk: set<Image>, available: seq<Image>,
                       agentId: string, pick: nat, exact: Image)
    requires UniqueKeys(assignments)
    requires var a := Get(assignments, agentId); !(a.Some? && a.value in onDisk)
    requires exact in available && Normalize(exact.stem) == Normalize(agentId)
    ensures var r := GetOrAssignImage(assignments, onDisk, true, available, agentId, pick);
            r.Success? && Normalize(r.value.1.stem) == Normalize(agentId)
  {
    ChosenIsBest(assignments, onDisk, available, agentId, pick);
    assert Eligible(exact, ExistingImages(assignments, onDisk), Normalize(agentId));
  }

  // ---------------------------------------------------------------------------
  // Participants

  /** What the server remembers of an agent's last utterance. */
  datatype AgentState = AgentState(text: string, voiceId: string)

  /** A participant tile: `voice_id` and `text` are absent for an agent that
      has an image but has not spoken. */
  datatype Participant = Participant(agentId: string, voiceId: Option<string>, text: Option<string>)

  /** `p.get("text")` is truthy. */
  predicate HasText(p: Participant) {
    p.text.Some? && p.text.value != ""
  }

  /** The tile of agent `id` given its recorded state. */
  function TileOf(id: string, states: Dict<AgentState>): (p: Participant)
    ensures p.agentId == id
    ensures Get(states, id).Some? ==> p.text == Some(Get(states, id).value.text)
    ensures Get(states, id).None? ==> p.text.None? && p.voiceId.None?
  {
    match Get(states, id)
    case Some(s) => Participant(id, Some(s.voiceId), Some(s.text))
    case None => Participant(id, None, None)
  }

  /** The tiles of the assigned agents whose images exist, in assignment
      order. */
  function Tiles(images: Dict<Image>, onDisk: set<Image>, states: Dict<AgentState>): (r: seq<Participant>)
    ensures forall p :: p in r <==> exists i :: 0 <= i < |images| && images[i].1 in onDisk
                                                && p == TileOf(images[i].0, states)
    decreases |images|
  {
    if |images| == 0 then []
    else
      var rest := Tiles(images[1..], onDisk, states);
      assert forall i :: 1 <= i < |images| ==> images[i] == images[1..][i - 1];
      assert forall i :: 0 <= i < |images[1..]| ==> images[1..][i] == images[i + 1];
      (if images[0].1 in onDisk then [TileOf(images[0].0, states)] else []) + rest
  }

  /** The participants order: by agent id. */
  predicate IdLe(p: Participant, q: Participant) {
    StrLe(p.agentId, q.agentId)
  }

  /** The participant list of `build_participant_context`: the tiles sorted by
      agent id. */
  function Participants(images: Dict<Image>, onDisk: set<Image>, states: Dict<AgentState>): seq<Participant> {
    SortBy(Tiles(images, onDisk, states), IdLe)
  }

  /** The participants are sorted by agent id and are exactly the tiles. */
  lemma ParticipantsSorted(images: Dict<Image>, onDisk: set<Image>, states: Dict<AgentState>)
    ensures SortedBy(Participants(images, onDisk, states), IdLe)
    ensures forall p :: p in Participants(images, onDisk, states) <==> p in Tiles(images, onDisk, states)
  {
    forall p: Participant, q: Participant ensures IdLe(p, q) || IdLe(q, p) {
      StrLeTotal(p.agentId, q.agentId);
    }
    forall p: Participant, q: Participant, s: Participant | IdLe(p, q) && IdLe(q, s) ensures IdLe(p, s) {
      StrLeTrans(p.agentId, q.agentId, s.agentId);
    }
    SortBySorted(Tiles(images, onDisk, states), IdLe);
    SortByElements(Tiles(images, onDisk, states), IdLe);
  }

  /** `(active_query_agent or "").strip() or LAST_AGENT_ID` */
  function ActiveId(query: string, last: Option<string>): (r: Option<string>)
    ensures Strip(query) != "" ==> r == Some(Strip(query))
    ensures Strip(query) == "" ==> r == last
  {
    var q := Strip(query);
    if q != "" then Some(q) else last
  }

  /** The spotlight of `build_participant_context`, as a position in `ps`: the
      first participant with the active id and some text, else the first with
      text, else the first; none when there are no participants. */
  function SelectActive(ps: seq<Participant>, activeId: Option<string>): (r: Option<nat>)
    ensures r.None? <==> |ps| == 0
    ensures r.Some? ==> r.value < |ps|
    ensures activeId.Some? && activeId.value != "" && r.Some? && ps[r.value].agentId == activeId.value
            && HasText(ps[r.value]) ==>
              forall j :: 0 <= j < r.value ==> !(ps[j].agentId == activeId.value && HasText(ps[j]))
    ensures (exists j :: 0 <= j < |ps| && HasText(ps[j])) ==> r.Some? && HasText(ps[r.value])
    ensures activeId.Some? && activeId.value != "" && (exists j :: 0 <= j < |ps| && ps[j].agentId == activeId.value && HasText(ps[j]))
            ==> r.Some? && ps[r.value].agentId == activeId.value && HasText(ps[r.value])
    ensures !(activeId.Some? && activeId.value != "" && (exists j :: 0 <= j < |ps| && ps[j].agentId == activeId.value && HasText(ps[j])))
            && r.Some? && HasText(ps[r.value]) ==>
              forall j :: 0 <= j < r.value ==> !HasText(ps[j])
    ensures |ps| > 0 && (forall j :: 0 <= j < |ps| ==> !HasText(ps[j])) ==> r == Some(0)
  {
    var byId := if activeId.Some? && activeId.value != ""
                then FirstWhere(ps, (p: Participant) => p.agentId == activeId.value && HasText(p), 0)
                else -1;
    if byId >= 0 then Some(byId)
    else
      var withText := FirstWhere(ps, HasText, 0);
      if withText >= 0 then Some(withText)
      else if |ps| > 0 then Some(0)
      else None
  }

  /** `[p for p in participants if p is not active_participant]`: every
      participant but the one at the active position. */
  function Others(ps: seq<Participant>, active: Option<nat>): (r: seq<Participant>)
    requires active.Some? ==> active.value < |ps|
    ensures active.None? ==> r == ps
    ensures active.Some? ==> |r| == |ps| - 1 && multiset(r) + multiset{ps[active.value]} == multiset(ps)
  {
    if active.None? then ps
    else
      var i := active.value;
      assert ps == ps[..i] + [ps[i]] + ps[i + 1..];
      ps[..i] + ps[i + 1..]
  }

  /** The page context of `build_participant_context`. */
  datatype Context = Context(participants: seq<Participant>, active: Option<Participant>,
                             others: seq<Participant>, activeText: Option<string>, stateVersion: int)

  // ---------------------------------------------------------------------------
  // Server state and speech

  /** The module-level state of the server. */
  datatype ServerState = ServerState(voices: VoiceRegistry.Registry, images: Dict<Image>,
                                     states: Dict<AgentState>, last: Option<string>, version: int)

  /** The dicts have one entry per key, as Python dicts do. */
  predicate Valid(st: ServerState) {
    UniqueKeys(st.voices.assignments) && UniqueKeys(st.images) && UniqueKeys(st.states)
  }

  /** What the server reads from outside: the voices of the speech provider,
      the image files, which files exist, and the random picks. */
  datatype World = World(voices: seq<string>, voicePick: nat, onDisk: set<Image>, dirExists: bool,
                         imageFiles: seq<Image>, imagePick: nat)

  /** `build_participant_context(active_query_agent)` */
  function BuildParticipantContext(st: ServerState, w: World, query: string): (c: Context)
    ensures c.stateVersion == st.version
    ensures c.active.Some? <==> |c.participants| > 0
    ensures c.active.Some? ==> c.activeText == c.active.value.text && c.active.value in c.participants
    ensures c.active.None? ==> c.others == c.participants && c.activeText.None?
    ensures c.active.Some? ==> multiset(c.others) + multiset{c.active.value} == multiset(c.participants)
  {
    var ps := Participants(st.images, w.onDisk, st.states);
    var a := SelectActive(ps, ActiveId(query, st.last));
    var active := if a.Some? then Some(ps[a.value]) else None;
    Context(ps, active, Others(ps, a), if a.Some? then ps[a.value].text else None, st.version)
  }

  /** The result of a request: the state afterwards (changes made before a
      failure stay) and the voice or the error. */
  datatype Outcome = Outcome(state: ServerState, result: Result<string>)

  /** `handle_speech(agent_id, text)` when the playback succeeds. Empty text is
      refused with `ValueError` and changes nothing. Otherwise a voice and an
      image are obtained (a failure of either ends the call, keeping what was
      done before it), the utterance is recorded, the agent becomes the last
      speaker and the version goes up by one. */
  function HandleSpeech(st: ServerState, w: World, agentId: string, text: string): (o: Outcome)
    requires Valid(st)
    ensures Valid(o.state)
    ensures text == "" ==> o == Outcome(st, Failure(ValueError("Text must be non-empty")))
    ensures o.result.Failure? ==> o.state.version == st.version && o.state.last == st.last
                                  && o.state.states == st.states && o.state.images == st.images
    ensures o.result.Success? <==> text != ""
                                   && VoiceRegistry.GetOrAssignVoice(st.voices, agentId, w.voices, w.voicePick).Success?
                                   && GetOrAssignImage(st.images, w.onDisk, w.dirExists, w.imageFiles, agentId, w.imagePick).Success?
    ensures o.result.Success? ==>
              && o.result.value == VoiceRegistry.GetOrAssignVoice(st.voices, agentId, w.voices, w.voicePick).value.1
              && o.state.version == st.version + 1
              && o.state.last == Some(agentId)
              && Get(o.state.states, agentId) == Some(AgentState(text, o.result.value))
              && Get(o.state.voices.assignments, agentId) == Some(o.result.value)
              && Get(o.state.images, agentId).Some?
              && (forall k :: k != agentId ==> Get(o.state.states, k) == Get(st.states, k))
              && (forall k :: k != agentId ==> Get(o.state.images, k) == Get(st.images, k))
  {
    if text == "" then Outcome(st, Failure(ValueError("Text must be non-empty")))
    else
      var v := VoiceRegistry.GetOrAssignVoice(st.voices, agentId, w.voices, w.voicePick);
      if v.Failure? then Outcome(st, Failure(v.error))
      else
        var (reg, voice) := v.value;
        var img := GetOrAssignImage(st.images, w.onDisk, w.dirExists, w.imageFiles, agentId, w.imagePick);
        if img.Failure? then Outcome(st.(voices := reg), Failure(img.error))
        else
          SetUnique(reg.assignments, agentId, voice);
          SetUnique(st.states, agentId, AgentState(text, voice));
          var reg' := VoiceRegistry.Registry(Set(reg.assignments, agentId, voice), reg.unusable);
          var st' := ServerState(reg', img.value.0, Set(st.states, agentId, AgentState(text, voice)),
                                 Some(agentId), st.version + 1);
          Outcome(st', Success(voice))
  }

  /** When the last speaker has an image on disk and something said, the page
      opened without a query puts it in the spotlight with what it said. */
  lemma LastSpeakerActive(st: ServerState, w: World, agentId: string, text: string)
    requires agentId != "" && text != ""
    requires Get(st.images, agentId).Some? && Get(st.images, agentId).value in w.onDisk
    requires Get(st.states, agentId).Some? && Get(st.states, agentId).value.text == text
    requires st.last == Some(agentId)
    ensures var c := BuildParticipantContext(st, w, "");
            c.active.Some? && c.active.value.agentId == agentId && c.activeText == Some(text)
  {
    var i := KeyIndex(st.images, agentId);
    KeyIndexIs(st.images, agentId, i);
    var tile := TileOf(agentId, st.states);
    assert tile.text == Some(text);
    assert tile in Tiles(st.images, w.onDisk, st.states);
    ParticipantsSorted(st.images, w.onDisk, st.states);
    var ps := Participants(st.images, w.onDisk, st.states);
    var j :| 0 <= j < |ps| && ps[j] == tile;
    assert Strip("") == "";
    var a := SelectActive(ps, ActiveId("", st.last)).value;
    assert ps[a] in Tiles(st.images, w.onDisk, st.states);
  }

  /** After an agent speaks, the page opened without a query puts that agent in
      the spotlight with what it said, provided the listed image files exist. */
  lemma SpeakerTakesSpotlight(st: ServerState, w: World, agentId: string, text: string)
    requires Valid(st) && agentId != ""
    requires forall x :: x in w.imageFiles ==> x in w.onDisk
    requires HandleSpeech(st, w, agentId, text).result.Success?
    ensures var c := BuildParticipantContext(HandleSpeech(st, w, agentId, text).state, w, "");
            c.active.Some? && c.active.value.agentId == agentId && c.activeText == Some(text)
  {
    var st' := HandleSpeech(st, w, agentId, text).state;
    var img := GetOrAssignImage(st.images, w.onDisk, w.dirExists, w.imageFiles, agentId, w.imagePick);
    assert st'.images == img.value.0;
    assert Get(st'.images, agentId).value in w.onDisk by {
      var a := Get(st.images, agentId);
      if !(a.Some? && a.value in w.onDisk) {
        assert Get(st'.images, agentId).value in w.imageFiles;
      }
    }
    LastSpeakerActive(st', w, agentId, text);
  }

  /** A run of requests, each with the world it meets. */
  function HandleAll(st: ServerState, reqs: seq<(World, string, string)>): (o: (ServerState, seq<Result<string>>))
    requires Valid(st)
    ensures Valid(o.0)
    ensures |o.1| == |reqs|
    ensures o.0.version == st.version + Successes(o.1)
    decreases |reqs|
  {
    if |reqs| == 0 then (st, [])
    else
      var first := HandleSpeech(st, reqs[0].0, reqs[0].1, reqs[0].2);
      var rest := HandleAll(first.state, reqs[1..]);
      assert Successes([first.result] + rest.1) == (if first.result.Success? then 1 else 0) + Successes(rest.1) by {
        assert ([first.result] + rest.1)[1..] == rest.1;
      }
      (rest.0, [first.result] + rest.1)
  }

  /** The number of successful results. */
  function Successes(rs: seq<Result<string>>): nat
    decreases |rs|
  {
    if |rs| == 0 then 0 else (if rs[0].Success? then 1 else 0) + Successes(rs[1..])
  }
}
