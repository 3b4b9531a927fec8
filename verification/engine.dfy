/** The conversation engine around the template renderer: personas and the
    context they expose to templates, prompt sets, turns, one agent's reply and the
    append-only transcript. The language model behind an agent is a parameter: a
    function from the chat messages and call options to the text it returns, or
    the exception it raises. */
module Engine {
  import opened Wrappers
  import opened Text
  import opened Dicts
  import opened Values
  import opened Templates

  // ---------------------------------------------------------------------------
  // Personas

  /** A persona's configuration. Every field but `key` is whatever the persona
      file held, so it is an arbitrary value. */
  datatype Persona = Persona(key: string, name: Value, role: Value,
                             worldview: Value, style: Value, examples: Value)

  /** The six fields a persona exposes to templates, in this order. */
  const PersonaFields: set<string> := {"key", "name", "role", "worldview", "style", "examples"}

  /** `Persona.from_dict(key, raw)`: the key is the argument; every other field is
      read from `raw`, with the name defaulting to the key, the role to "", the
      worldview and style to `{}` and the examples to `[]`. */
  function PersonaFromDict(key: string, raw: Dict<Value>): (p: Persona)
    ensures p.key == key
    ensures p.name == if HasKey(raw, "name") then Get(raw, "name").value else Str(key)
    ensures p.role == if HasKey(raw, "role") then Get(raw, "role").value else Str("")
    ensures p.worldview == if HasKey(raw, "worldview") then Get(raw, "worldview").value else Map([])
    ensures p.style == if HasKey(raw, "style") then Get(raw, "style").value else Map([])
    ensures p.examples == if HasKey(raw, "examples") then Get(raw, "examples").value else List([])
  {
    Persona(key,
            GetOr(raw, "name", Str(key)),
            GetOr(raw, "role", Str("")),
            GetOr(raw, "worldview", Map([])),
            GetOr(raw, "style", Map([])),
            GetOr(raw, "examples", List([])))
  }

  /** `Persona.to_template_context()` */
  function ToTemplateContext(p: Persona): (ctx: Layer)
    ensures Keys(ctx) == PersonaFields
    ensures Get(ctx, "key") == Some(Str(p.key)) && Get(ctx, "name") == Some(p.name)
    ensures Get(ctx, "role") == Some(p.role) && Get(ctx, "worldview") == Some(p.worldview)
    ensures Get(ctx, "style") == Some(p.style) && Get(ctx, "examples") == Some(p.examples)
  {
    var ctx := [("key", Str(p.key)), ("name", p.name), ("role", p.role),
                ("worldview", p.worldview), ("style", p.style), ("examples", p.examples)];
    KeyIndexIs(ctx, "key", 0);
    KeyIndexIs(ctx, "name", 1);
    KeyIndexIs(ctx, "role", 2);
    KeyIndexIs(ctx, "worldview", 3);
    KeyIndexIs(ctx, "style", 4);
    KeyIndexIs(ctx, "examples", 5);
    KeysOfSix(ctx, "key", "name", "role", "worldview", "style", "examples");
    ctx
  }

  /** Building a persona back from its template context gives the same persona. */
  lemma PersonaContextRoundTrip(p: Persona)
    ensures PersonaFromDict(p.key, ToTemplateContext(p)) == p
  {
    var ctx := ToTemplateContext(p);
    HasKeyIffInKeys(ctx, "name");
    HasKeyIffInKeys(ctx, "role");
    HasKeyIffInKeys(ctx, "worldview");
    HasKeyIffInKeys(ctx, "style");
    HasKeyIffInKeys(ctx, "examples");
  }

  /** A `key` entry in the raw record plays no part: the key is the argument. */
  lemma FromDictIgnoresRawKey(key: string, raw: Dict<Value>)
    ensures PersonaFromDict(key, Remove(raw, "key")) == PersonaFromDict(key, raw)
  {
    var r := Remove(raw, "key");
    assert Get(r, "name") == Get(raw, "name") && Get(r, "role") == Get(raw, "role");
    assert Get(r, "worldview") == Get(raw, "worldview") && Get(r, "style") == Get(raw, "style");
    assert Get(r, "examples") == Get(raw, "examples");
  }

  // ---------------------------------------------------------------------------
  // Prompts, turns and messages

  /** The three templates rendered for one reply. */
  datatype PromptSet = PromptSet(system: string, developer: string, user: string)

  /** One line of the transcript. Turns loaded from a history file carry whatever
      values the file held, so both fields are values. */
  datatype Turn = Turn(speaker: Value, text: Value)

  /** `ConversationTurn.as_dict()` */
  function TurnAsDict(t: Turn): (v: Value)
    ensures v.Map? && Keys(v.entries) == {"speaker", "text"}
    ensures Get(v.entries, "speaker") == Some(t.speaker) && Get(v.entries, "text") == Some(t.text)
  {
    var d := [("speaker", t.speaker), ("text", t.text)];
    KeyIndexIs(d, "speaker", 0);
    KeyIndexIs(d, "text", 1);
    assert Keys(d) == {"speaker", "text"} by {
      assert d[0].0 == "speaker" && d[1].0 == "text";
    }
    Map(d)
  }

  /** `[turn.as_dict() for turn in turns]` */
  function AsHistory(turns: seq<Turn>): (h: seq<Value>)
    ensures |h| == |turns|
    ensures forall i :: 0 <= i < |turns| ==> h[i] == TurnAsDict(turns[i])
  {
    seq(|turns|, i requires 0 <= i < |turns| => TurnAsDict(turns[i]))
  }

  /** A chat message `{"role": role, "content": content}`. */
  function Message(role: string, content: string): Dict<Value> {
    [("role", Str(role)), ("content", Str(content))]
  }

  /** The language model: chat messages and call options in, the returned value
      or the raised exception out. */
  type Client = (seq<Dict<Value>>, Dict<Value>) -> Result<Value>

  // ---------------------------------------------------------------------------
  // Agents

  const DefaultRoundRule: string := "Keep the banter friendly."
  const DefaultLengthLimit: int := 280

  /** An agent with the dataclass's default round rule and length limit. */
  datatype Agent = Agent(key: string, persona: Persona, prompts: PromptSet, llm: Client,
                         defaultRoundRule: string, defaultLengthLimit: int)

  /** `Agent(key=…, persona=…, prompts=…, renderer=…, llm=…)` with the defaults. */
  function NewAgent(key: string, persona: Persona, prompts: PromptSet, llm: Client): (a: Agent)
    ensures a.key == key && a.persona == persona && a.prompts == prompts && a.llm == llm
    ensures a.defaultRoundRule == "Keep the banter friendly." && a.defaultLengthLimit == 280
  {
    Agent(key, persona, prompts, llm, DefaultRoundRule, DefaultLengthLimit)
  }

  /** The context all three templates of one reply are rendered with. */
  function RespondContext(agent: Agent, turns: seq<Turn>, topic: string,
                          roundRule: Value, lengthLimit: Value): (ctx: Layer)
    ensures Keys(ctx) == {"persona", "round_rule", "length_limit", "topic", "history"}
    ensures Get(ctx, "persona") == Some(Map(ToTemplateContext(agent.persona)))
    ensures Get(ctx, "round_rule") == Some(Or(roundRule, Str(agent.defaultRoundRule)))
    ensures Get(ctx, "length_limit") == Some(Or(lengthLimit, Int(agent.defaultLengthLimit)))
    ensures Get(ctx, "topic") == Some(Str(topic))
    ensures Get(ctx, "history") == Some(List(AsHistory(turns)))
  {
    var persona := Map(ToTemplateContext(agent.persona));
    var rule := Or(roundRule, Str(agent.defaultRoundRule));
    var limit := Or(lengthLimit, Int(agent.defaultLengthLimit));
    var history := List(AsHistory(turns));
    var ctx := [("persona", persona), ("round_rule", rule), ("length_limit", limit),
                ("topic", Str(topic)), ("history", history)];
    KeyIndexIs(ctx, "persona", 0);
    KeyIndexIs(ctx, "round_rule", 1);
    KeyIndexIs(ctx, "length_limit", 2);
    KeyIndexIs(ctx, "topic", 3);
    KeyIndexIs(ctx, "history", 4);
    KeysOfFive(ctx, "persona", "round_rule", "length_limit", "topic", "history");
    ctx
  }

  /** A missing (`None`) or falsy round rule or length limit falls back to the
      agent's default; a truthy one is used as given. */
  lemma RespondContextFallbacks(agent: Agent, turns: seq<Turn>, topic: string,
                                roundRule: Value, lengthLimit: Value)
    ensures var ctx := RespondContext(agent, turns, topic, roundRule, lengthLimit);
            && (!Truthy(roundRule) ==> Get(ctx, "round_rule") == Some(Str(agent.defaultRoundRule)))
            && (Truthy(roundRule) ==> Get(ctx, "round_rule") == Some(roundRule))
            && (!Truthy(lengthLimit) ==> Get(ctx, "length_limit") == Some(Int(agent.defaultLengthLimit)))
            && (Truthy(lengthLimit) ==> Get(ctx, "length_limit") == Some(lengthLimit))
  {
  }

  /** The three chat messages of one reply: the system and developer templates as
      system messages, then the user template, all rendered with `ctx`. */
  function RenderMessages(prompts: PromptSet, ctx: Layer): (r: Result<seq<Dict<Value>>>)
    ensures r.Success? <==> RenderTemplate(prompts.system, ctx).Success?
                            && RenderTemplate(prompts.developer, ctx).Success?
                            && RenderTemplate(prompts.user, ctx).Success?
    ensures r.Success? ==> r.value == [Message("system", RenderTemplate(prompts.system, ctx).value),
                                       Message("system", RenderTemplate(prompts.developer, ctx).value),
                                       Message("user", RenderTemplate(prompts.user, ctx).value)]
    ensures r.Failure? ==> IsRenderError(r.error)
  {
    var system :- RenderTemplate(prompts.system, ctx);
    var developer :- RenderTemplate(prompts.developer, ctx);
    var user :- RenderTemplate(prompts.user, ctx);
    Success([Message("system", system), Message("system", developer), Message("user", user)])
  }

  /** `Agent.respond(conversation, topic=…, round_rule=…, length_limit=…,
      llm_options=…)`; `None` options are passed as the empty dict. The reply is
      stripped; a reply that is not a string cannot be stripped. */
  function Respond(agent: Agent, turns: seq<Turn>, topic: string, roundRule: Value,
                   lengthLimit: Value, options: Dict<Value>): (r: Result<Turn>)
    ensures r.Success? ==> r.value.speaker == Str(agent.persona.key)
    ensures r.Success? ==> r.value.text.Str? && IsStripped(r.value.text.s)
  {
    var ctx := RespondContext(agent, turns, topic, roundRule, lengthLimit);
    var messages :- RenderMessages(agent.prompts, ctx);
    var payload :- agent.llm(messages, options);
    if payload.Str? then Success(Turn(Str(agent.persona.key), Str(Strip(payload.s))))
    else Failure(AttributeError("'" + TypeName(payload) + "' object has no attribute 'strip'"))
  }

  /** A successful reply is the stripped text the model returned for exactly the
      three rendered messages and the given options; a failure is the renderer's
      error, the model's exception, or a non-string reply. */
  lemma RespondOutcome(agent: Agent, turns: seq<Turn>, topic: string, roundRule: Value,
                       lengthLimit: Value, options: Dict<Value>)
    ensures var ctx := RespondContext(agent, turns, topic, roundRule, lengthLimit);
            var r := Respond(agent, turns, topic, roundRule, lengthLimit, options);
            var m := RenderMessages(agent.prompts, ctx);
            && (m.Failure? ==> r == Failure(m.error))
            && (m.Success? && agent.llm(m.value, options).Failure? ==> r == Failure(agent.llm(m.value, options).error))
            && (r.Success? <==> m.Success? && agent.llm(m.value, options).Success?
                                && agent.llm(m.value, options).value.Str?)
            && (r.Success? ==> r.value.text == Str(Strip(agent.llm(m.value, options).value.s)))
  {
  }

  // ---------------------------------------------------------------------------
  // Conversations

  /** The shared transcript. */
  datatype Conversation = Conversation(topic: string, turns: seq<Turn>)

  /** `Conversation.step(agent, …)`: the new conversation and the returned turn.
      When the reply fails, the exception propagates before anything is appended,
      so the caller's conversation is unchanged. */
  function Step(c: Conversation, agent: Agent, roundRule: Value, lengthLimit: Value,
                options: Dict<Value>): (r: Result<(Conversation, Turn)>)
    ensures r.Success? ==> r.value.0.topic == c.topic && r.value.0.turns == c.turns + [r.value.1]
    ensures r.Success? <==> Respond(agent, c.turns, c.topic, roundRule, lengthLimit, options).Success?
    ensures r.Success? ==> r.value.1 == Respond(agent, c.turns, c.topic, roundRule, lengthLimit, options).value
    ensures r.Failure? ==> r.error == Respond(agent, c.turns, c.topic, roundRule, lengthLimit, options).error
  {
    var turn :- Respond(agent, c.turns, c.topic, roundRule, lengthLimit, options);
    Success((Conversation(c.topic, c.turns + [turn]), turn))
  }

  /** `Conversation.as_history()` */
  function ConversationHistory(c: Conversation): (h: seq<Value>)
    ensures |h| == |c.turns|
    ensures forall i :: 0 <= i < |h| ==> h[i] == TurnAsDict(c.turns[i])
  {
    AsHistory(c.turns)
  }

  /** A step keeps the earlier history and adds the new turn's record last. */
  lemma StepExtendsHistory(c: Conversation, agent: Agent, roundRule: Value, lengthLimit: Value,
                           options: Dict<Value>)
    requires Step(c, agent, roundRule, lengthLimit, options).Success?
    ensures ConversationHistory(Step(c, agent, roundRule, lengthLimit, options).value.0)
            == ConversationHistory(c) + [TurnAsDict(Step(c, agent, roundRule, lengthLimit, options).value.1)]
  {
    var (c', t) := Step(c, agent, roundRule, lengthLimit, options).value;
    assert c'.turns == c.turns + [t];
    var h := ConversationHistory(c) + [TurnAsDict(t)];
    assert forall i :: 0 <= i < |c'.turns| ==> ConversationHistory(c')[i] == h[i];
  }
}
