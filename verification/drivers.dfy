/** The conversation drivers `demo_conversation.py` and `async_conversation.py`:
    their argument checks, the history they preload, and the round loop in which
    every selected agent speaks once per round, in the order given. Printing,
    hooks, the playback requests and the delays are not modelled. */
module Drivers {
  import opened Wrappers
  import opened Text
  import opened Dicts
  import opened Values
  import opened Engine
  import History
  import LlmSetup

  // ---------------------------------------------------------------------------
  // Rounds

  /** The speakers of some turns, in order. */
  function Speakers(turns: seq<Turn>): (r: seq<Value>)
    ensures |r| == |turns| && forall i :: 0 <= i < |turns| ==> r[i] == turns[i].speaker
  {
    seq(|turns|, i requires 0 <= i < |turns| => turns[i].speaker)
  }

  /** The speakers of two stretches of turns, one after the other. */
  lemma SpeakersConcat(a: seq<Turn>, b: seq<Turn>)
    ensures Speakers(a + b) == Speakers(a) + Speakers(b)
  {
    assert forall i :: 0 <= i < |a + b| ==> Speakers(a + b)[i] == (Speakers(a) + Speakers(b))[i];
  }

  /** The speaker each agent's turns carry: its persona's key. */
  function AgentSpeakers(agents: seq<Agent>): (r: seq<Value>)
    ensures |r| == |agents| && forall j :: 0 <= j < |agents| ==> r[j] == Str(agents[j].persona.key)
  {
    seq(|agents|, j requires 0 <= j < |agents| => Str(agents[j].persona.key))
  }

  /** Copy `r` of `s` inside `Repeat(s, n)` starts at `r * |s|`, so position
      `r * |s| + j` holds `s[j]`. */
  lemma {:induction false} RepeatAt<T>(s: seq<T>, n: nat, r: nat, j: nat)
    requires r < n && j < |s|
    ensures |Repeat(s, n)| == n * |s|
    ensures r * |s| + j < n * |s| && Repeat(s, n)[r * |s| + j] == s[j]
    decreases n
  {
    var m := |s|;
    assert n * m == m + (n - 1) * m;
    if r > 0 {
      RepeatAt(s, n - 1, r - 1, j);
      assert r * m + j == m + ((r - 1) * m + j);
    } else if n > 1 {
      RepeatAt(s, n - 1, 0, j);
    }
  }

  /** How an agent takes a turn: the new conversation and the turn it added. */
  type Stepper = (Conversation, Agent) -> Result<(Conversation, Turn)>

  /** A successful step appends one turn, spoken by the agent's persona, and
      keeps the topic. */
  ghost predicate Appends(step: Stepper) {
    forall c: Conversation, a: Agent :: step(c, a).Success? ==>
      && step(c, a).value.0 == Conversation(c.topic, c.turns + [step(c, a).value.1])
      && step(c, a).value.1.speaker == Str(a.persona.key)
  }

  /** `conversation.step(agent, round_rule=…, length_limit=…)` with no extra
      options, as the drivers call it. */
  function EngineStep(roundRule: Value, lengthLimit: Value): Stepper {
    (c: Conversation, a: Agent) => Step(c, a, roundRule, lengthLimit, [])
  }

  /** The engine's step is one that appends. */
  lemma EngineStepAppends(roundRule: Value, lengthLimit: Value)
    ensures Appends(EngineStep(roundRule, lengthLimit))
  {
    forall c: Conversation, a: Agent | EngineStep(roundRule, lengthLimit)(c, a).Success?
      ensures EngineStep(roundRule, lengthLimit)(c, a).value.1.speaker == Str(a.persona.key)
    {
      var t := Step(c, a, roundRule, lengthLimit, []).value.1;
      assert t == Respond(a, c.turns, c.topic, roundRule, lengthLimit, []).value;
    }
  }

  /** One round: each agent steps in turn, and the first failure ends the
      round. The result is the conversation and the turns the round added. */
  function RunRound(c: Conversation, agents: seq<Agent>, step: Stepper): (r: Result<(Conversation, seq<Turn>)>)
    requires Appends(step)
    ensures r.Success? ==> r.value.0 == Conversation(c.topic, c.turns + r.value.1)
    ensures r.Success? ==> Speakers(r.value.1) == AgentSpeakers(agents)
    ensures r.Failure? && |agents| > 0 && step(c, agents[0]).Failure? ==> r.error == step(c, agents[0]).error
    decreases |agents|
  {
    if |agents| == 0 then Success((c, []))
    else
      var (c1, turn) :- step(c, agents[0]);
      var (c2, more) :- RunRound(c1, agents[1..], step);
      assert c2.turns == c.turns + ([turn] + more);
      SpeakersConcat([turn], more);
      assert AgentSpeakers(agents) == [Str(agents[0].persona.key)] + AgentSpeakers(agents[1..]);
      Success((c2, [turn] + more))
  }

  /** `for round_index in range(rounds): for agent in agents: conversation.step(agent,
      round_rule=…, length_limit=…)`: the transcript grows by one turn per agent
      per round, spoken in the order of the agents, round after round. */
  function RunRounds(c: Conversation, agents: seq<Agent>, rounds: nat, step: Stepper)
    : (r: Result<(Conversation, seq<Turn>)>)
    requires Appends(step)
    ensures r.Success? ==> r.value.0 == Conversation(c.topic, c.turns + r.value.1)
    ensures r.Success? ==> Speakers(r.value.1) == Repeat(AgentSpeakers(agents), rounds)
    decreases rounds
  {
    if rounds == 0 then Success((c, []))
    else
      var one := RunRound(c, agents, step);
      if one.Failure? then Failure(one.error)
      else
        var more := RunRounds(one.value.0, agents, rounds - 1, step);
        if more.Failure? then more
        else
          RoundsJoin(c, one.value.0, more.value.0, one.value.1, more.value.1, AgentSpeakers(agents), rounds);
          Success((more.value.0, one.value.1 + more.value.1))
  }

  /** Gluing a round onto the rounds after it. */
  lemma RoundsJoin(c: Conversation, c1: Conversation, c2: Conversation, first: seq<Turn>, rest: seq<Turn>,
                   order: seq<Value>, rounds: nat)
    requires rounds > 0
    requires c1 == Conversation(c.topic, c.turns + first) && c2 == Conversation(c1.topic, c1.turns + rest)
    requires Speakers(first) == order && Speakers(rest) == Repeat(order, rounds - 1)
    ensures c2 == Conversation(c.topic, c.turns + (first + rest))
    ensures Speakers(first + rest) == Repeat(order, rounds)
  {
    SpeakersConcat(first, rest);
    assert c.turns + first + rest == c.turns + (first + rest);
  }

  /** Turns appended in the order `order`, `rounds` times over, after `pre`:
      turn `j` of round `r` is spoken by `order[j]`. */
  lemma TurnAt(t: seq<Turn>, pre: seq<Turn>, added: seq<Turn>, order: seq<Value>, rounds: nat, r: nat, j: nat)
    requires t == pre + added && Speakers(added) == Repeat(order, rounds)
    requires r < rounds && j < |order|
    ensures |t| == |pre| + rounds * |order|
    ensures |pre| + r * |order| + j < |t| && t[|pre| + r * |order| + j].speaker == order[j]
  {
    RepeatAt(order, rounds, r, j);
    var k := r * |order| + j;
    assert Speakers(added)[k] == added[k].speaker;
    assert t[|pre| + k] == added[k];
  }

  /** After a run the transcript holds `rounds × |agents|` new turns after the
      earlier ones, and turn `j` of round `r` is the j-th agent's. */
  lemma RoundsInOrder(c: Conversation, agents: seq<Agent>, rounds: nat, step: Stepper, r: nat, j: nat)
    requires Appends(step)
    requires RunRounds(c, agents, rounds, step).Success?
    requires r < rounds && j < |agents|
    ensures var t := RunRounds(c, agents, rounds, step).value.0.turns;
            && |t| == |c.turns| + rounds * |agents|
            && |c.turns| + r * |agents| + j < |t|
            && t[|c.turns| + r * |agents| + j].speaker == Str(agents[j].persona.key)
  {
    var res := RunRounds(c, agents, rounds, step).value;
    TurnAt(res.0.turns, c.turns, res.1, AgentSpeakers(agents), rounds, r, j);
  }

  // ---------------------------------------------------------------------------
  // Argument checks

  /** `[key for key in agents if key not in personas]` */
  function MissingKeys(keys: seq<string>, known: Dict<Persona>): (r: seq<string>)
    ensures forall x :: x in r <==> x in keys && !HasKey(known, x)
    ensures |r| <= |keys|
    decreases |keys|
  {
    if |keys| == 0 then []
    else (if HasKey(known, keys[0]) then [] else [keys[0]]) + MissingKeys(keys[1..], known)
  }

  const RoundsError: Error := SystemExit("--rounds must be at least 1")

  /** The error naming every unknown persona key, in the order given. */
  function UnknownKeysError(missing: seq<string>): Error {
    SystemExit("Unknown persona keys: " + Join(missing, ", "))
  }

  /** `[personas[key] for key in keys]` after the check for unknown keys:
      every unknown key, in the order given, is named in the error. */
  function SelectPersonas(personas: Dict<Persona>, keys: seq<string>): (r: Result<seq<Persona>>)
    ensures r.Failure? <==> |MissingKeys(keys, personas)| > 0
    ensures r.Failure? ==> r.error == UnknownKeysError(MissingKeys(keys, personas))
    ensures r.Success? ==> |r.value| == |keys|
    ensures r.Success? ==> forall i :: 0 <= i < |keys| ==>
              HasKey(personas, keys[i]) && r.value[i] == Get(personas, keys[i]).value
  {
    var missing := MissingKeys(keys, personas);
    if |missing| > 0 then Failure(UnknownKeysError(missing))
    else
      assert forall i :: 0 <= i < |keys| ==> keys[i] in keys && HasKey(personas, keys[i]);
      Success(seq(|keys|, i requires 0 <= i < |keys| => Get(personas, keys[i]).value))
  }

  /** The speaker each persona's turns carry: its key. */
  function PersonaSpeakers(ps: seq<Persona>): (r: seq<Value>)
    ensures |r| == |ps| && forall i :: 0 <= i < |ps| ==> r[i] == Str(ps[i].key)
  {
    seq(|ps|, i requires 0 <= i < |ps| => Str(ps[i].key))
  }

  // ---------------------------------------------------------------------------
  // The demo

  /** The agents of the demo: `build_agent` passes no round rule or length
      limit, so every agent has the defaults of `Agent`. */
  function DemoAgents(personas: seq<Persona>, keys: seq<string>, prompts: PromptSet, llm: Client): (r: seq<Agent>)
    requires |personas| == |keys|
    ensures |r| == |keys|
    ensures forall i :: 0 <= i < |keys| ==> r[i] == NewAgent(keys[i], personas[i], prompts, llm)
    ensures forall i :: 0 <= i < |keys| ==>
              r[i].defaultRoundRule == "Keep the banter friendly." && r[i].defaultLengthLimit == 280
    ensures AgentSpeakers(r) == PersonaSpeakers(personas)
  {
    seq(|keys|, i requires 0 <= i < |keys| => NewAgent(keys[i], personas[i], prompts, llm))
  }

  const NoOpenAiKey: Error := SystemExit("Set OPENAI_API_KEY before running this script.")

  /** `main()` of the demo after parsing: `history` is the parsed history file
      when one is given, `llm` the OpenAI client. The checks come in order:
      rounds, then the API key, then the persona keys; the history is loaded
      before any step. The result is the final transcript. */
  method DemoMain(personas: Dict<Persona>, keys: seq<string>, rounds: int, env: map<string, string>,
                  topic: string, history: Option<Value>, prompts: PromptSet, llm: Client,
                  roundRule: Value, lengthLimit: Value) returns (r: Result<Conversation>)
    ensures rounds < 1 ==> r == Failure(RoundsError)
    ensures rounds >= 1 && ("OPENAI_API_KEY" !in env || env["OPENAI_API_KEY"] == "") ==> r == Failure(NoOpenAiKey)
    ensures rounds >= 1 && "OPENAI_API_KEY" in env && env["OPENAI_API_KEY"] != "" && |MissingKeys(keys, personas)| > 0 ==>
              r == Failure(UnknownKeysError(MissingKeys(keys, personas)))
    ensures r.Success? ==> rounds >= 1 && SelectPersonas(personas, keys).Success?
    ensures r.Success? && history.Some? ==> History.DemoLoadHistory(history.value).Success?
    ensures r.Success? ==>
              var pre := if history.Some? then History.DemoLoadHistory(history.value).value else [];
              && r.value.topic == topic
              && |r.value.turns| >= |pre| && r.value.turns[..|pre|] == pre
              && Speakers(r.value.turns[|pre|..]) == Repeat(PersonaSpeakers(SelectPersonas(personas, keys).value), rounds)
  {
    if rounds < 1 {
      return Failure(RoundsError);
    }
    if "OPENAI_API_KEY" !in env || env["OPENAI_API_KEY"] == "" {
      return Failure(NoOpenAiKey);
    }
    var selected := SelectPersonas(personas, keys);
    if selected.Failure? {
      return Failure(selected.error);
    }
    var agents := DemoAgents(selected.value, keys, prompts, llm);
    var pre: seq<Turn> := [];
    if history.Some? {
      var loaded := History.DemoLoadHistory(history.value);
      if loaded.Failure? {
        return Failure(loaded.error);
      }
      pre := loaded.value;
    }
    EngineStepAppends(roundRule, lengthLimit);
    var run := RunRounds(Conversation(topic, pre), agents, rounds, EngineStep(roundRule, lengthLimit));
    if run.Failure? {
      return Failure(run.error);
    }
    var (c, added) := run.value;
    assert c.turns[|pre|..] == added;
    r := Success(c);
  }

  // ---------------------------------------------------------------------------
  // The async script

  /** An agent of the async script with the label and parameters
      `build_agent` gives it. */
  datatype LabelledAgent = LabelledAgent(agent: Agent, llmDisplay: string, parameters: Dict<Value>)

  /** Whether every key resolved to a client in the cache. */
  predicate Resolves(clients: LlmSetup.Clients, keys: seq<string>) {
    forall i :: 0 <= i < |keys| ==>
      Get(clients.resolved, keys[i]).Some? && Get(clients.resolved, keys[i]).value.client < |clients.cache|
  }

  /** The agents of `run_async`, each with the client its persona resolved to
      (`connect` turns a client description into the model it talks to). */
  function AsyncAgents(personas: seq<Persona>, keys: seq<string>, prompts: PromptSet,
                       clients: LlmSetup.Clients, connect: LlmSetup.ClientSpec -> Client): (r: seq<LabelledAgent>)
    requires |personas| == |keys| && Resolves(clients, keys)
    ensures |r| == |keys|
    ensures forall i :: 0 <= i < |keys| ==>
              var e := Get(clients.resolved, keys[i]).value;
              && r[i].agent == NewAgent(keys[i], personas[i], prompts, connect(clients.cache[e.client].1))
              && r[i].llmDisplay == e.display
              && r[i].parameters == LlmSetup.AgentParameters(personas[i], e.params)
  {
    seq(|keys|, i requires 0 <= i < |keys| =>
      var e := Get(clients.resolved, keys[i]).value;
      LabelledAgent(NewAgent(keys[i], personas[i], prompts, connect(clients.cache[e.client].1)),
                    e.display, LlmSetup.AgentParameters(personas[i], e.params)))
  }

  /** The plain agents of labelled ones. */
  function AgentsOf(las: seq<LabelledAgent>): (r: seq<Agent>)
    ensures |r| == |las| && forall i :: 0 <= i < |las| ==> r[i] == las[i].agent
  {
    seq(|las|, i requires 0 <= i < |las| => las[i].agent)
  }

  /** A line of the async script's transcript. */
  datatype Record = Record(agent: Value, llm: Value, text: Value, parameters: Value)

  /** `personas[speaker].llm`: the speaker must be a persona key (a list or a
      dict cannot even be looked up), and `.get` needs the settings to be a
      dict. */
  function SpeakerSettings(s: LlmSetup.Setup, speaker: Value): (r: Result<Dict<Value>>)
    ensures r.Success? <==> speaker.Str? && HasKey(s.personas, speaker.s) && LlmSetup.LlmOf(s, speaker.s).Map?
    ensures r.Success? ==> r.value == LlmSetup.LlmOf(s, speaker.s).entries
    ensures !Hashable(speaker) ==> r == Failure(UnhashableError(speaker))
    ensures speaker.Str? && !HasKey(s.personas, speaker.s) ==> r == Failure(KeyError(speaker.s))
  {
    if !Hashable(speaker) then Failure(UnhashableError(speaker))
    else if !speaker.Str? then Failure(KeyError(Repr(speaker)))
    else if !HasKey(s.personas, speaker.s) then Failure(KeyError(speaker.s))
    else
      var llm := LlmSetup.LlmOf(s, speaker.s);
      if llm.Map? then Success(llm.entries)
      else Failure(AttributeError("'" + TypeName(llm) + "' object has no attribute 'get'"))
  }

  /** The label of a loaded history entry: its own `llm_display`, else the
      speaker's configured `display`, else its `provider` or `""`. The persona
      is looked up only when the entry has no label of its own. */
  function HistoryLabel(s: LlmSetup.Setup, e: History.HistoryEntry): (r: Result<Value>)
    ensures Truthy(e.llmDisplay) ==> r == Success(e.llmDisplay)
    ensures !Truthy(e.llmDisplay) ==>
              (r.Success? <==> SpeakerSettings(s, e.turn.speaker).Success?)
    ensures !Truthy(e.llmDisplay) && r.Failure? ==> r.error == SpeakerSettings(s, e.turn.speaker).error
    ensures !Truthy(e.llmDisplay) && r.Success? ==>
              var llm := SpeakerSettings(s, e.turn.speaker).value;
              && (Truthy(Lookup(llm, "display")) ==> r.value == Lookup(llm, "display"))
              && (!Truthy(Lookup(llm, "display")) ==> r.value == GetOr(llm, "provider", Str("")))
  {
    if Truthy(e.llmDisplay) then Success(e.llmDisplay)
    else
      var llm :- SpeakerSettings(s, e.turn.speaker);
      Success(Or(Lookup(llm, "display"), GetOr(llm, "provider", Str(""))))
  }

  /** The `parameters` of a history record: the entry's own, else those
      `build_llm_clients` recorded for the speaker (`params` looks them up),
      else `{}`. Looking up a list or a dict raises. */
  function RecordParameters(params: string -> Option<Dict<Value>>, e: History.HistoryEntry): (r: Result<Value>)
    ensures Truthy(e.parameters) ==> r == Success(e.parameters)
    ensures !Truthy(e.parameters) ==> (r.Success? <==> Hashable(e.turn.speaker))
    ensures !Truthy(e.parameters) && r.Success? ==>
              r.value == (if e.turn.speaker.Str? && params(e.turn.speaker.s).Some?
                          then Map(params(e.turn.speaker.s).value) else Map([]))
  {
    if Truthy(e.parameters) then Success(e.parameters)
    else if !Hashable(e.turn.speaker) then Failure(UnhashableError(e.turn.speaker))
    else if e.turn.speaker.Str? && params(e.turn.speaker.s).Some? then Success(Map(params(e.turn.speaker.s).value))
    else Success(Map([]))
  }

  /** The record `run_async` writes for a loaded history entry. */
  function HistoryRecord(s: LlmSetup.Setup, params: string -> Option<Dict<Value>>, e: History.HistoryEntry)
    : (r: Result<Record>)
    ensures r.Success? <==> HistoryLabel(s, e).Success? && RecordParameters(params, e).Success?
    ensures r.Success? ==> r.value == Record(e.turn.speaker, HistoryLabel(s, e).value, e.turn.text,
                                             RecordParameters(params, e).value)
    ensures HistoryLabel(s, e).Failure? ==> r == Failure(HistoryLabel(s, e).error)
  {
    var shown :- HistoryLabel(s, e);
    var ps :- RecordParameters(params, e);
    Success(Record(e.turn.speaker, shown, e.turn.text, ps))
  }

  /** The loop of `run_async` over the loaded history: one record per entry,
      stopping at the first entry whose record cannot be made. */
  function HistoryRecords(s: LlmSetup.Setup, params: string -> Option<Dict<Value>>, es: seq<History.HistoryEntry>)
    : (r: Result<seq<Record>>)
    ensures r.Success? <==> forall i :: 0 <= i < |es| ==> HistoryRecord(s, params, es[i]).Success?
    ensures r.Success? ==> |r.value| == |es|
    ensures r.Success? ==> forall i :: 0 <= i < |es| ==> r.value[i] == HistoryRecord(s, params, es[i]).value
    decreases |es|
  {
    if |es| == 0 then Success([])
    else
      var first :- HistoryRecord(s, params, es[0]);
      var rest :- HistoryRecords(s, params, es[1..]);
      assert forall i :: 1 <= i < |es| ==> es[i] == es[1..][i - 1];
      Success([first] + rest)
  }

  /** The loop stops at the first entry without a label of its own whose
      speaker is not a persona, with `KeyError`. */
  lemma {:induction false} HistoryUnknownSpeaker(s: LlmSetup.Setup, params: string -> Option<Dict<Value>>,
                                                 es: seq<History.HistoryEntry>, i: nat)
    requires i < |es| && forall j :: 0 <= j < i ==> HistoryRecord(s, params, es[j]).Success?
    requires !Truthy(es[i].llmDisplay) && es[i].turn.speaker.Str? && !HasKey(s.personas, es[i].turn.speaker.s)
    ensures HistoryRecords(s, params, es) == Failure(KeyError(es[i].turn.speaker.s))
    decreases i
  {
    if i > 0 {
      HistoryUnknownSpeaker(s, params, es[1..], i - 1);
    }
  }

  /** Entries carrying their own label and parameters are written as they are,
      whatever the personas. */
  lemma HistoryOwnLabels(s: LlmSetup.Setup, params: string -> Option<Dict<Value>>, es: seq<History.HistoryEntry>)
    requires forall i :: 0 <= i < |es| ==> Truthy(es[i].llmDisplay) && Truthy(es[i].parameters)
    ensures var r := HistoryRecords(s, params, es);
            && r.Success? && |r.value| == |es|
            && forall i :: 0 <= i < |es| ==>
                 r.value[i] == Record(es[i].turn.speaker, es[i].llmDisplay, es[i].turn.text, es[i].parameters)
  {
  }

  /** The parameters `build_llm_clients` records for the selected personas,
      worked out from their settings. */
  function SelectedParams(s: LlmSetup.Setup, keys: seq<string>): string -> Option<Dict<Value>> {
    k => if k in keys && LlmSetup.ResolveSettings(s, k).Success? then Some(LlmSetup.ResolveSettings(s, k).value.params)
         else None
  }

  /** The parameters a client map records. */
  function ResolvedParams(c: LlmSetup.Clients): string -> Option<Dict<Value>> {
    k => if Get(c.resolved, k).Some? then Some(Get(c.resolved, k).value.params) else None
  }

  /** Records depend only on what `params` returns. */
  lemma {:induction false} HistoryRecordsSameParams(s: LlmSetup.Setup, f: string -> Option<Dict<Value>>,
                                                    g: string -> Option<Dict<Value>>, es: seq<History.HistoryEntry>)
    requires forall k :: f(k) == g(k)
    ensures HistoryRecords(s, f, es) == HistoryRecords(s, g, es)
    decreases |es|
  {
    if |es| > 0 {
      HistoryRecordsSameParams(s, f, g, es[1..]);
      assert HistoryRecord(s, f, es[0]) == HistoryRecord(s, g, es[0]);
    }
  }

  /** The clients `build_llm_clients` returns record the parameters the
      selected personas' settings give. */
  lemma ClientParams(s: LlmSetup.Setup, keys: seq<string>, c: LlmSetup.Clients)
    requires LlmSetup.WellLinked(LlmSetup.Resolver(s), c)
    requires forall i :: 0 <= i < |keys| ==> Get(c.resolved, keys[i]).Some?
    requires forall k :: Get(c.resolved, k).Some? ==> k in keys
    ensures forall k :: ResolvedParams(c)(k) == SelectedParams(s, keys)(k)
  {
    forall k ensures ResolvedParams(c)(k) == SelectedParams(s, keys)(k) {
      if k in keys {
        var i :| 0 <= i < |keys| && keys[i] == k;
      }
    }
  }

  /** The checks `run_async` makes before the history: the number of rounds,
      the persona keys, and the clients of the selected personas. */
  method StartAsync(s: LlmSetup.Setup, keys: seq<string>, rounds: int)
    returns (r: Result<(seq<Persona>, LlmSetup.Clients)>)
    ensures rounds < 1 ==> r == Failure(RoundsError)
    ensures rounds >= 1 && SelectPersonas(s.personas, keys).Failure? ==>
              r == Failure(SelectPersonas(s.personas, keys).error)
    ensures rounds >= 1 && SelectPersonas(s.personas, keys).Success?
            && !(forall i :: 0 <= i < |keys| ==> LlmSetup.Buildable(LlmSetup.Resolver(s), keys[i])) ==>
              var p := LlmSetup.FirstUnbuildable(LlmSetup.Resolver(s), keys, 0);
              p < |keys| && r == Failure(LlmSetup.BuildError(LlmSetup.Resolver(s), keys[p]))
    ensures r.Success? <==> rounds >= 1 && SelectPersonas(s.personas, keys).Success?
                            && forall i :: 0 <= i < |keys| ==> LlmSetup.Buildable(LlmSetup.Resolver(s), keys[i])
    ensures r.Success? ==> SelectPersonas(s.personas, keys) == Success(r.value.0)
    ensures r.Success? ==> LlmSetup.WellLinked(LlmSetup.Resolver(s), r.value.1) && Resolves(r.value.1, keys)
    ensures r.Success? ==> forall k :: Get(r.value.1.resolved, k).Some? ==> k in keys
  {
    if rounds < 1 {
      return Failure(RoundsError);
    }
    var selected := SelectPersonas(s.personas, keys);
    if selected.Failure? {
      return Failure(selected.error);
    }
    var clients := LlmSetup.BuildLlmClients(s, keys);
    if clients.Failure? {
      return Failure(clients.error);
    }
    r := Success((selected.value, clients.value));
  }

  /** The preloading step of `run_async`: the history is loaded and each entry
      written out as a record, with the parameters the built clients hold. */
  method Preload(s: LlmSetup.Setup, keys: seq<string>, clients: LlmSetup.Clients, history: Option<Value>)
    returns (r: Result<(seq<Turn>, seq<Record>)>)
    requires LlmSetup.WellLinked(LlmSetup.Resolver(s), clients)
    requires forall i :: 0 <= i < |keys| ==> Get(clients.resolved, keys[i]).Some?
    requires forall k :: Get(clients.resolved, k).Some? ==> k in keys
    ensures history.None? ==> r == Success(([], []))
    ensures history.Some? && History.AsyncLoadHistory(history.value).Failure? ==>
              r == Failure(History.AsyncLoadHistory(history.value).error)
    ensures history.Some? && History.AsyncLoadHistory(history.value).Success? ==>
              var loaded := History.AsyncLoadHistory(history.value).value;
              var written := HistoryRecords(s, SelectedParams(s, keys), loaded);
              && (written.Failure? ==> r == Failure(written.error))
              && (written.Success? ==> r == Success((History.EntryTurns(loaded), written.value)))
  {
    if history.None? {
      return Success(([], []));
    }
    var loaded := History.AsyncLoadHistory(history.value);
    if loaded.Failure? {
      return Failure(loaded.error);
    }
    ClientParams(s, keys, clients);
    HistoryRecordsSameParams(s, ResolvedParams(clients), SelectedParams(s, keys), loaded.value);
    var written := HistoryRecords(s, ResolvedParams(clients), loaded.value);
    if written.Failure? {
      return Failure(written.error);
    }
    r := Success((History.EntryTurns(loaded.value), written.value));
  }

  /** `run_async(args)` up to the end of the round loop: the rounds and the
      persona keys are checked before anything else, the clients are built, the
      history is preloaded and written out as records, and the rounds run.
      `Conversation` defines no `astep`, so each turn is taken with `step`. */
  method RunAsync(s: LlmSetup.Setup, keys: seq<string>, rounds: int, topic: string, history: Option<Value>,
                  prompts: PromptSet, connect: LlmSetup.ClientSpec -> Client, roundRule: Value, lengthLimit: Value)
    returns (r: Result<(Conversation, seq<Record>)>)
    ensures rounds < 1 ==> r == Failure(RoundsError)
    ensures rounds >= 1 && |MissingKeys(keys, s.personas)| > 0 ==>
              r == Failure(UnknownKeysError(MissingKeys(keys, s.personas)))
    ensures rounds >= 1 && SelectPersonas(s.personas, keys).Success?
            && !(forall i :: 0 <= i < |keys| ==> LlmSetup.Buildable(LlmSetup.Resolver(s), keys[i])) ==>
              var p := LlmSetup.FirstUnbuildable(LlmSetup.Resolver(s), keys, 0);
              p < |keys| && r == Failure(LlmSetup.BuildError(LlmSetup.Resolver(s), keys[p]))
    ensures rounds >= 1 && SelectPersonas(s.personas, keys).Success?
            && (forall i :: 0 <= i < |keys| ==> LlmSetup.Buildable(LlmSetup.Resolver(s), keys[i]))
            && history.Some? && History.AsyncLoadHistory(history.value).Failure? ==>
              r == Failure(History.AsyncLoadHistory(history.value).error)
    ensures r.Success? ==> rounds >= 1 && SelectPersonas(s.personas, keys).Success?
    ensures r.Success? ==> forall i :: 0 <= i < |keys| ==> LlmSetup.Buildable(LlmSetup.Resolver(s), keys[i])
    ensures r.Success? && history.Some? ==> History.AsyncLoadHistory(history.value).Success?
    ensures history.Some? && History.AsyncLoadHistory(history.value).Success?
            && HistoryRecords(s, SelectedParams(s, keys), History.AsyncLoadHistory(history.value).value).Failure?
            && rounds >= 1 && SelectPersonas(s.personas, keys).Success?
            && (forall i :: 0 <= i < |keys| ==> LlmSetup.Buildable(LlmSetup.Resolver(s), keys[i])) ==>
              r == Failure(HistoryRecords(s, SelectedParams(s, keys), History.AsyncLoadHistory(history.value).value).error)
    ensures r.Success? ==>
              r.value.1 == (if history.Some?
                            then HistoryRecords(s, SelectedParams(s, keys), History.AsyncLoadHistory(history.value).value).value
                            else [])
    ensures r.Success? ==>
              var pre := if history.Some? then History.EntryTurns(History.AsyncLoadHistory(history.value).value) else [];
              && r.value.0.topic == topic
              && |r.value.0.turns| >= |pre| && r.value.0.turns[..|pre|] == pre
              && Speakers(r.value.0.turns[|pre|..]) == Repeat(PersonaSpeakers(SelectPersonas(s.personas, keys).value), rounds)
  {
    var start := StartAsync(s, keys, rounds);
    if start.Failure? {
      return Failure(start.error);
    }
    var (selected, clients) := start.value;
    var labelled := AsyncAgents(selected, keys, prompts, clients, connect);
    var agents := AgentsOf(labelled);
    assert AgentSpeakers(agents) == PersonaSpeakers(selected);
    var preload := Preload(s, keys, clients, history);
    if preload.Failure? {
      return Failure(preload.error);
    }
    var (pre, records) := preload.value;
    EngineStepAppends(roundRule, lengthLimit);
    var run := RunRounds(Conversation(topic, pre), agents, rounds, EngineStep(roundRule, lengthLimit));
    if run.Failure? {
      return Failure(run.error);
    }
    var (c, added) := run.value;
    assert c.turns[|pre|..] == added;
    r := Success((c, records));
  }
}
