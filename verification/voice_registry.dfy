/** The voice registry behind `speak_agent.py`: which voice each agent speaks
    with, the voices known to fail, and how a voice is picked for a newcomer.
    The module-level dict and set become an explicit `Registry` value; the
    provider's voice list and the random pick are parameters. */
module VoiceRegistry {
  import opened Wrappers
  import opened Text
  import opened Dicts

  /** The assignments (agent id to voice id, in insertion order) and the voices
      marked unusable. */
  datatype Registry = Registry(assignments: Dict<string>, unusable: set<string>)

  /** `_normalize_agent(agent_id)`: stripped and lower-cased. */
  function NormalizeAgent(id: string): string {
    Lower(Strip(id))
  }

  /** Normalising a normalised id changes nothing. */
  lemma NormalizeAgentIdempotent(id: string)
    ensures NormalizeAgent(NormalizeAgent(id)) == NormalizeAgent(id)
  {
    var n := NormalizeAgent(id);
    LowerStripped(Strip(id));
    StripStripped(n);
    LowerIdempotent(Strip(id));
  }

  /** Whether a registry key belongs to the agent `id`. */
  predicate SameAgent(key: string, id: string) {
    NormalizeAgent(key) == NormalizeAgent(id)
  }

  /** Index of the first entry from `from` on whose key belongs to `id`, or -1. */
  function FirstMatch(d: Dict<string>, id: string, from: nat): (i: int)
    requires from <= |d|
    ensures -1 <= i < |d|
    ensures i >= 0 ==> from <= i && SameAgent(d[i].0, id)
    ensures forall j :: from <= j < |d| && (i < 0 || j < i) ==> !SameAgent(d[j].0, id)
    decreases |d| - from
  {
    if from == |d| then -1
    else if SameAgent(d[from].0, id) then from
    else FirstMatch(d, id, from + 1)
  }

  /** `_find_existing_assignment(agent_id)`: the first entry whose key matches
      after normalisation, or none. */
  function FindExisting(d: Dict<string>, id: string): (r: Option<(string, string)>)
    ensures r.None? <==> forall j :: 0 <= j < |d| ==> !SameAgent(d[j].0, id)
    ensures r.Some? ==> exists i :: 0 <= i < |d| && d[i] == r.value && SameAgent(d[i].0, id)
                                    && forall j :: 0 <= j < i ==> !SameAgent(d[j].0, id)
  {
    var i := FirstMatch(d, id, 0);
    if i < 0 then None
    else
      assert forall j :: 0 <= j < i ==> !SameAgent(d[j].0, id);
      Some(d[i])
  }

  /** Ids that normalise alike match the same entries. */
  lemma {:induction false} FirstMatchAlike(d: Dict<string>, id: string, id': string, from: nat)
    requires from <= |d| && NormalizeAgent(id) == NormalizeAgent(id')
    ensures FirstMatch(d, id, from) == FirstMatch(d, id', from)
    decreases |d| - from
  {
    if from < |d| {
      FirstMatchAlike(d, id, id', from + 1);
    }
  }

  /** Ids that normalise alike find the same assignment. */
  lemma FindExistingCaseInsensitive(d: Dict<string>, id: string, id': string)
    requires NormalizeAgent(id) == NormalizeAgent(id')
    ensures FindExisting(d, id) == FindExisting(d, id')
  {
    FirstMatchAlike(d, id, id', 0);
  }

  /** The voices of `xs` outside `s`, in order. */
  function Without(xs: seq<string>, s: set<string>): (r: seq<string>)
    ensures forall x :: x in r <==> x in xs && x !in s
    decreases |xs|
  {
    if |xs| == 0 then []
    else (if xs[0] in s then [] else [xs[0]]) + Without(xs[1..], s)
  }

  /** The voices currently assigned to someone. */
  function AssignedVoices(d: Dict<string>): set<string> {
    set i | 0 <= i < |d| :: d[i].1
  }

  /** `get_or_assign_voice(agent_id)` with `available` the provider's voices and
      `pick` the random draw. An existing non-empty voice is reused and also
      recorded under the exact id; otherwise a usable voice nobody has is
      preferred, then any usable voice; with no usable voice, `RuntimeError`. */
  function GetOrAssignVoice(reg: Registry, id: string, available: seq<string>, pick: nat)
    : (r: Result<(Registry, string)>)
    requires UniqueKeys(reg.assignments)
    ensures r.Success? ==> UniqueKeys(r.value.0.assignments)
    ensures r.Success? ==> Get(r.value.0.assignments, id) == Some(r.value.1)
    ensures r.Success? ==> forall k :: k != id ==> Get(r.value.0.assignments, k) == Get(reg.assignments, k)
    ensures r.Success? ==> r.value.0.unusable == reg.unusable
    ensures var e := FindExisting(reg.assignments, id);
            e.Some? && e.value.1 != "" ==> r.Success? && r.value.1 == e.value.1
    ensures var e := FindExisting(reg.assignments, id);
            !(e.Some? && e.value.1 != "") ==>
              && (r.Failure? <==> forall x :: x in available ==> x in reg.unusable)
              && (r.Success? ==> r.value.1 in available && r.value.1 !in reg.unusable)
              && (r.Success? && (exists x :: x in available && x !in reg.unusable
                                            && x !in AssignedVoices(reg.assignments))
                  ==> r.value.1 !in AssignedVoices(reg.assignments))
  {
    var d := reg.assignments;
    var e := FindExisting(d, id);
    if e.Some? && e.value.1 != "" then
      var voice := e.value.1;
      if e.value.0 != id then
        SetUnique(d, id, voice);
        Success((Registry(Set(d, id, voice), reg.unusable), voice))
      else
        var i :| 0 <= i < |d| && d[i] == e.value;
        UniqueGet(d, i);
        Success((reg, voice))
    else
      var usable := Without(available, reg.unusable);
      if |usable| == 0 then
        Failure(RuntimeError("No voices available from the active TTS provider."))
      else
        var choices := Without(usable, AssignedVoices(d));
        var pool := if |choices| > 0 then choices else usable;
        var voice := pool[pick % |pool|];
        assert voice in pool;
        SetUnique(d, id, voice);
        Success((Registry(Set(d, id, voice), reg.unusable), voice))
  }

  /** `speak_for_agent(agent_id, text)` up to the speech itself: empty text is
      refused with `ValueError` before any assignment is made. */
  function SpeakForAgent(reg: Registry, id: string, text: string, available: seq<string>, pick: nat)
    : (r: Result<(Registry, string)>)
    requires UniqueKeys(reg.assignments)
    ensures text == "" ==> r.Failure? && r.error.ValueError?
    ensures text != "" ==> r == GetOrAssignVoice(reg, id, available, pick)
  {
    if text == "" then Failure(ValueError("Text to speak must be non-empty."))
    else GetOrAssignVoice(reg, id, available, pick)
  }

  /** `clear_voice_assignment(agent_id)`: the first key matching after
      normalisation is popped; nothing else changes. */
  function ClearVoiceAssignment(reg: Registry, id: string): (r: Registry)
    ensures r.unusable == reg.unusable
    ensures FindExisting(reg.assignments, id).None? ==> r == reg
    ensures FindExisting(reg.assignments, id).Some? ==>
              var k := FindExisting(reg.assignments, id).value.0;
              && !HasKey(r.assignments, k)
              && forall k' :: k' != k ==> Get(r.assignments, k') == Get(reg.assignments, k')
    ensures UniqueKeys(reg.assignments) ==> UniqueKeys(r.assignments)
  {
    var e := FindExisting(reg.assignments, id);
    if e.None? then reg
    else
      RemoveUnique(reg.assignments, e.value.0);
      Registry(Remove(reg.assignments, e.value.0), reg.unusable)
  }

  /** The assignments that are not to `v`, in order. */
  function DropVoice(d: Dict<string>, v: string): (r: Dict<string>)
    ensures forall e :: e in r <==> e in d && e.1 != v
    decreases |d|
  {
    if |d| == 0 then []
    else (if d[0].1 == v then [] else [d[0]]) + DropVoice(d[1..], v)
  }

  /** `mark_voice_unusable(voice_id)`: the voice joins the unusable set and
      every assignment to it is dropped; the other assignments stay. */
  function MarkVoiceUnusable(reg: Registry, v: string): (r: Registry)
    ensures r.unusable == reg.unusable + {v}
    ensures forall e :: e in r.assignments <==> e in reg.assignments && e.1 != v
    ensures v !in AssignedVoices(r.assignments)
  {
    var d := DropVoice(reg.assignments, v);
    assert forall i :: 0 <= i < |d| ==> d[i] in d;
    Registry(d, reg.unusable + {v})
  }

  /** No agent is assigned a voice marked unusable. */
  predicate NoUnusableAssigned(reg: Registry) {
    forall i :: 0 <= i < |reg.assignments| ==> reg.assignments[i].1 !in reg.unusable
  }

  /** A voice marked unusable is never handed out again. */
  lemma MarkedVoiceNeverAssigned(reg: Registry, v: string, id: string, available: seq<string>, pick: nat)
    requires UniqueKeys(reg.assignments)
    ensures UniqueKeys(MarkVoiceUnusable(reg, v).assignments)
    ensures var r := GetOrAssignVoice(MarkVoiceUnusable(reg, v), id, available, pick);
            r.Success? ==> r.value.1 != v
  {
    var m := MarkVoiceUnusable(reg, v);
    DropVoiceUnique(reg.assignments, v);
    var e := FindExisting(m.assignments, id);
    if e.Some? {
      var i :| 0 <= i < |m.assignments| && m.assignments[i] == e.value;
      assert m.assignments[i] in m.assignments;
    }
  }

  /** Every registry operation keeps unusable voices unassigned. */
  lemma OperationsKeepUnusableUnassigned(reg: Registry, id: string, v: string, available: seq<string>, pick: nat)
    requires UniqueKeys(reg.assignments) && NoUnusableAssigned(reg)
    ensures NoUnusableAssigned(MarkVoiceUnusable(reg, v))
    ensures NoUnusableAssigned(ClearVoiceAssignment(reg, id))
    ensures var r := GetOrAssignVoice(reg, id, available, pick);
            r.Success? ==> NoUnusableAssigned(r.value.0)
  {
    var m := MarkVoiceUnusable(reg, v);
    forall i | 0 <= i < |m.assignments| ensures m.assignments[i].1 !in m.unusable {
      assert m.assignments[i] in m.assignments;
      var j :| 0 <= j < |reg.assignments| && reg.assignments[j] == m.assignments[i];
    }
    var c := ClearVoiceAssignment(reg, id);
    forall i | 0 <= i < |c.assignments| ensures c.assignments[i].1 !in c.unusable {
      UniqueGet(c.assignments, i);
      var k := c.assignments[i].0;
      var j := KeyIndex(reg.assignments, k);
      assert j >= 0;
    }
    var r := GetOrAssignVoice(reg, id, available, pick);
    if r.Success? {
      var n := r.value.0;
      forall i | 0 <= i < |n.assignments| ensures n.assignments[i].1 !in n.unusable {
        UniqueGet(n.assignments, i);
        var k := n.assignments[i].0;
        if k != id {
          var j := KeyIndex(reg.assignments, k);
          assert j >= 0;
        } else {
          var e := FindExisting(reg.assignments, id);
          if e.Some? && e.value.1 != "" {
            var j :| 0 <= j < |reg.assignments| && reg.assignments[j] == e.value;
          }
        }
      }
    }
  }

  lemma DropVoiceUnique(d: Dict<string>, v: string)
    requires UniqueKeys(d)
    ensures UniqueKeys(DropVoice(d, v))
    decreases |d|
  {
    if |d| > 0 {
      DropVoiceUnique(d[1..], v);
      var rest := DropVoice(d[1..], v);
      if d[0].1 != v {
        var r := [d[0]] + rest;
        forall i, j | 0 <= i < j < |r| ensures r[i].0 != r[j].0 {
          if i == 0 {
            assert r[j] in rest;
            assert r[j] in d[1..];
          }
        }
      }
    }
  }
}
