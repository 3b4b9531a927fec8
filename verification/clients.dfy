/** The pure parts of the three language-model adapters: how each turns chat
    messages into a request payload, how options are merged, and how the reply
    text is dug out of a response. The HTTP calls and SDK objects in between are
    not modelled; a response is the decoded JSON value (for OpenAI, the contents
    of its choices). */
module Clients {
  import opened Wrappers
  import opened Text
  import opened Dicts
  import opened Values

  /** A chat message as the adapters receive it. */
  type Message = Dict<Value>

  // ---------------------------------------------------------------------------
  // OpenAI

  /** `OpenAILLMClient._merge_options(overrides)`: the defaults updated with the
      call's keyword arguments. */
  function MergeOptions(defaults: Dict<Value>, overrides: Dict<Value>): (r: Dict<Value>)
    ensures Keys(r) == Keys(defaults) + Keys(overrides)
    ensures forall k :: HasKey(overrides, k) ==> Get(r, k) == Get(overrides, k)
    ensures forall k :: !HasKey(overrides, k) ==> Get(r, k) == Get(defaults, k)
  {
    Update(defaults, overrides)
  }

  /** Every default survives a merge, under its own value unless overridden. */
  lemma MergeKeepsDefaults(defaults: Dict<Value>, overrides: Dict<Value>, k: string)
    requires HasKey(defaults, k)
    ensures HasKey(MergeOptions(defaults, overrides), k)
    ensures !HasKey(overrides, k) ==> Get(MergeOptions(defaults, overrides), k) == Get(defaults, k)
  {
    HasKeyIffInKeys(defaults, k);
    HasKeyIffInKeys(MergeOptions(defaults, overrides), k);
  }

  /** `msg[k]`: a missing key raises `KeyError`. */
  function Required(m: Message, k: string): (r: Result<Value>)
    ensures r.Success? <==> HasKey(m, k)
    ensures r.Success? ==> Get(m, k) == Some(r.value)
  {
    if HasKey(m, k) then Success(Get(m, k).value) else Failure(KeyError("'" + k + "'"))
  }

  /** A message cut down to its role and content. */
  function RoleContent(m: Message): (r: Message)
    requires HasKey(m, "role") && HasKey(m, "content")
    ensures Keys(r) == {"role", "content"}
    ensures Get(r, "role") == Get(m, "role") && Get(r, "content") == Get(m, "content")
  {
    var r := [("role", Get(m, "role").value), ("content", Get(m, "content").value)];
    KeyIndexIs(r, "role", 0);
    KeyIndexIs(r, "content", 1);
    assert Keys(r) == {"role", "content"} by {
      assert r[0].0 == "role" && r[1].0 == "content";
    }
    r
  }

  /** Every message has both a role and a content. */
  predicate AllHaveRoleContent(ms: seq<Message>) {
    forall i :: 0 <= i < |ms| ==> HasKey(ms[i], "role") && HasKey(ms[i], "content")
  }

  /** `OpenAILLMClient._format_messages(messages)` */
  function FormatMessages(ms: seq<Message>): (r: Result<seq<Message>>)
    ensures r.Success? <==> AllHaveRoleContent(ms)
    ensures r.Success? ==> |r.value| == |ms|
    ensures r.Success? ==> forall i :: 0 <= i < |ms| ==> r.value[i] == RoleContent(ms[i])
    decreases |ms|
  {
    if |ms| == 0 then Success([])
    else
      var role :- Required(ms[0], "role");
      var content :- Required(ms[0], "content");
      var rest :- FormatMessages(ms[1..]);
      assert forall i :: 1 <= i < |ms| ==> ms[i] == ms[1..][i - 1];
      Success([RoleContent(ms[0])] + rest)
  }

  /** Formatting keeps exactly the role and the content of every message. */
  lemma FormatKeepsRoleContent(ms: seq<Message>, i: nat)
    requires FormatMessages(ms).Success? && i < |ms|
    ensures Keys(FormatMessages(ms).value[i]) == {"role", "content"}
    ensures Get(FormatMessages(ms).value[i], "role") == Get(ms[i], "role")
    ensures Get(FormatMessages(ms).value[i], "content") == Get(ms[i], "content")
  {
  }

  /** Formatting formatted messages changes nothing. */
  lemma FormatIdempotent(ms: seq<Message>)
    requires FormatMessages(ms).Success?
    ensures FormatMessages(FormatMessages(ms).value) == FormatMessages(ms)
  {
    var f := FormatMessages(ms).value;
    forall i | 0 <= i < |f| ensures HasKey(f[i], "role") && HasKey(f[i], "content") {
      HasKeyIffInKeys(f[i], "role");
      HasKeyIffInKeys(f[i], "content");
    }
    var g := FormatMessages(f).value;
    forall i | 0 <= i < |f| ensures g[i] == f[i] {
      assert Get(g[i], "role") == Get(f[i], "role");
    }
  }

  /** `OpenAILLMClient._extract_text(response)` over the contents of the
      response's choices: the first choice's content, `""` for none; a response
      without choices raises `IndexError`. */
  function OpenAIExtractText(choices: seq<Option<string>>): (r: Result<string>)
    ensures r.Failure? <==> |choices| == 0
    ensures r.Success? && choices[0].Some? ==> r.value == choices[0].value
    ensures r.Success? && choices[0].None? ==> r.value == ""
  {
    if |choices| == 0 then Failure(IndexError("list index out of range"))
    else Success(choices[0].GetOr(""))
  }

  /** Only the first choice matters. */
  lemma OpenAIFirstChoiceOnly(c: Option<string>, rest: seq<Option<string>>)
    ensures OpenAIExtractText([c] + rest) == OpenAIExtractText([c])
  {
  }

  // ---------------------------------------------------------------------------
  // Gemini

  /** What `GeminiLLMClient.__init__` keeps of its arguments. */
  datatype GeminiConfig = GeminiConfig(model: string, generationConfig: Value,
                                       safetySettings: Value, timeout: Value)

  /** `GeminiLLMClient(model=…, api_key=…, client_options=…)`; a missing API key
      is the empty string and missing client options the empty dict. */
  function GeminiInit(model: string, apiKey: string, clientOptions: Dict<Value>): (r: Result<GeminiConfig>)
    ensures r.Success? <==> apiKey != ""
    ensures r.Success? ==> r.value.model == model
    ensures r.Success? ==> r.value.generationConfig == Lookup(clientOptions, "generation_config")
    ensures r.Success? ==> r.value.safetySettings == Lookup(clientOptions, "safety_settings")
    ensures r.Success? ==> r.value.timeout == GetOr(clientOptions, "timeout", Int(30))
  {
    if apiKey == "" then Failure(RuntimeError("GeminiLLMClient requires an API key"))
    else Success(GeminiConfig(model, Lookup(clientOptions, "generation_config"),
                              Lookup(clientOptions, "safety_settings"),
                              GetOr(clientOptions, "timeout", Int(30))))
  }

  /** `message.get("role", "user")`: only an absent role defaults. */
  function GeminiRoleOf(m: Message): Value {
    GetOr(m, "role", Str("user"))
  }

  /** `message.get("content", "")` */
  function GeminiTextOf(m: Message): Value {
    GetOr(m, "content", Str(""))
  }

  /** A message whose content is falsy is skipped. */
  predicate GeminiKept(m: Message) {
    Truthy(GeminiTextOf(m))
  }

  predicate GeminiIsSystem(m: Message) {
    GeminiKept(m) && GeminiRoleOf(m) == Str("system")
  }

  predicate GeminiIsChat(m: Message) {
    GeminiKept(m) && GeminiRoleOf(m) != Str("system")
  }

  /** The texts of the kept system messages, in order. */
  function SystemTexts(ms: seq<Message>): seq<Value>
    decreases |ms|
  {
    if |ms| == 0 then []
    else (if GeminiIsSystem(ms[0]) then [GeminiTextOf(ms[0])] else []) + SystemTexts(ms[1..])
  }

  /** The kept messages that are not system messages, in order. */
  function ChatMessages(ms: seq<Message>): (r: seq<Message>)
    ensures forall i :: 0 <= i < |r| ==> GeminiIsChat(r[i])
    ensures forall m :: m in r <==> m in ms && GeminiIsChat(m)
    ensures |r| <= |ms|
    decreases |ms|
  {
    if |ms| == 0 then []
    else (if GeminiIsChat(ms[0]) then [ms[0]] else []) + ChatMessages(ms[1..])
  }

  /** The chat messages of two runs of messages are those of the first run
      followed by those of the second: the order is kept. */
  lemma {:induction false} ChatMessagesSplit(a: seq<Message>, b: seq<Message>)
    ensures ChatMessages(a + b) == ChatMessages(a) + ChatMessages(b)
    decreases |a|
  {
    if |a| > 0 {
      assert (a + b)[1..] == a[1..] + b;
      ChatMessagesSplit(a[1..], b);
    } else {
      assert a + b == b;
    }
  }

  /** One message is kept exactly when it has text and is not a system message. */
  lemma ChatMessagesOne(m: Message)
    ensures ChatMessages([m]) == if GeminiIsChat(m) then [m] else []
  {
    assert [m][1..] == [];
  }

  /** Role `"user"` stays `"user"`; every other role is the model's. */
  function GeminiRole(role: Value): string {
    if role == Str("user") then "user" else "model"
  }

  function GeminiPart(text: Value): Value {
    Map([("text", text)])
  }

  function GeminiEntry(role: string, text: Value): Value {
    Map([("role", Str(role)), ("parts", List([GeminiPart(text)]))])
  }

  /** The `contents` entry a chat message becomes. */
  function GeminiContent(m: Message): Value {
    GeminiEntry(GeminiRole(GeminiRoleOf(m)), GeminiTextOf(m))
  }

  /** Every chat message's role can be looked up in a set. */
  predicate ChatRolesHashable(ms: seq<Message>) {
    forall i :: 0 <= i < |ms| && GeminiIsChat(ms[i]) ==> Hashable(GeminiRoleOf(ms[i]))
  }

  /** The `contents` entries of the given chat messages, one each, in order. */
  function ContentsOf(cs: seq<Message>): (r: seq<Value>)
    ensures |r| == |cs|
    ensures forall i :: 0 <= i < |cs| ==> r[i] == GeminiContent(cs[i])
    decreases |cs|
  {
    if |cs| == 0 then [] else [GeminiContent(cs[0])] + ContentsOf(cs[1..])
  }

  /** The `contents` half of the loop of `_build_payload`: one entry per chat
      message, in order; a role that cannot be hashed raises `TypeError` when it
      is tested against the set of system roles. */
  function GeminiChatContents(ms: seq<Message>): (r: Result<seq<Value>>)
    ensures r.Success? <==> ChatRolesHashable(ms)
    ensures r.Success? ==> r.value == ContentsOf(ChatMessages(ms))
    decreases |ms|
  {
    if |ms| == 0 then Success([])
    else
      var m := ms[0];
      var tail := ms[1..];
      assert forall i :: 1 <= i < |ms| ==> ms[i] == tail[i - 1];
      if !GeminiIsChat(m) then
        assert ChatMessages(ms) == ChatMessages(tail);
        GeminiChatContents(tail)
      else if !Hashable(GeminiRoleOf(m)) then
        Failure(UnhashableError(GeminiRoleOf(m)))
      else
        var rest :- GeminiChatContents(tail);
        assert ChatMessages(ms) == [m] + ChatMessages(tail);
        assert ([m] + ChatMessages(tail))[1..] == ChatMessages(tail);
        Success([GeminiContent(m)] + rest)
  }

  /** The `system_instruction` entry for the joined system text. */
  function SystemInstruction(text: string): Value {
    Map([("parts", List([GeminiPart(Str(text))]))])
  }

  /** The keys a Gemini payload may hold. */
  const GeminiPayloadKeys: set<string> :=
    {"contents", "system_instruction", "generation_config", "safety_settings"}

  /** A Gemini request payload, entry by entry; an absent optional entry is
      `None`. */
  datatype GeminiPayload = GeminiPayload(contents: seq<Value>, systemInstruction: Option<Value>,
                                         generationConfig: Option<Value>, safetySettings: Option<Value>)

  /** The entry of the payload dict under key `k`. */
  function PayloadEntry(p: GeminiPayload, k: string): Option<Value> {
    if k == "contents" then Some(List(p.contents))
    else if k == "system_instruction" then p.systemInstruction
    else if k == "generation_config" then p.generationConfig
    else if k == "safety_settings" then p.safetySettings
    else None
  }

  /** `payload[k] = v` when there is a `v`. */
  function SetIfSome(d: Dict<Value>, k: string, v: Option<Value>): (r: Dict<Value>)
    ensures Get(r, k) == if v.Some? then v else Get(d, k)
    ensures forall k' :: k' != k ==> Get(r, k') == Get(d, k')
  {
    if v.Some? then Set(d, k, v.value) else d
  }

  /** A dict with a first entry and up to three optional ones after it, under
      distinct keys. */
  function Assemble(k0: string, v0: Value, k1: string, v1: Option<Value>,
                    k2: string, v2: Option<Value>, k3: string, v3: Option<Value>): (r: Dict<Value>)
    requires k0 != k1 && k0 != k2 && k0 != k3 && k1 != k2 && k1 != k3 && k2 != k3
    ensures forall k :: Get(r, k) == if k == k0 then Some(v0) else if k == k1 then v1
                                     else if k == k2 then v2 else if k == k3 then v3 else None
  {
    var d0 := [(k0, v0)];
    assert forall k :: Get(d0, k) == if k == k0 then Some(v0) else None by {
      forall k ensures Get(d0, k) == if k == k0 then Some(v0) else None {
        KeyIndexIs(d0, k, if k == k0 then 0 else -1);
      }
    }
    SetIfSome(SetIfSome(SetIfSome(d0, k1, v1), k2, v2), k3, v3)
  }

  /** The payload as the dict sent over the wire: `contents` first, then the
      optional entries in the order `_build_payload` adds them. */
  function PayloadDict(p: GeminiPayload): (r: Dict<Value>)
    ensures forall k :: Get(r, k) == PayloadEntry(p, k)
  {
    Assemble("contents", List(p.contents), "system_instruction", p.systemInstruction,
             "generation_config", p.generationConfig, "safety_settings", p.safetySettings)
  }

  /** The payload dict holds no keys but the four Gemini ones, and always
      `contents`. */
  lemma PayloadDictKeys(p: GeminiPayload)
    ensures "contents" in Keys(PayloadDict(p))
    ensures Keys(PayloadDict(p)) <= GeminiPayloadKeys
  {
    var d := PayloadDict(p);
    HasKeyIffInKeys(d, "contents");
    KeysWithin(d, GeminiPayloadKeys);
  }

  /** The `contents` list of a payload: the chat entries, or a single empty
      user part when there are none; never empty. */
  function PayloadContents(ms: seq<Message>): (r: seq<Value>)
    ensures |r| >= 1
    ensures |ChatMessages(ms)| > 0 ==> r == ContentsOf(ChatMessages(ms))
    ensures |ChatMessages(ms)| == 0 ==> r == [GeminiEntry("user", Str(""))]
  {
    var cs := ChatMessages(ms);
    if |cs| == 0 then [GeminiEntry("user", Str(""))] else ContentsOf(cs)
  }

  /** `payload[k] = v` for a truthy `v`, as an optional entry. */
  function IfTruthy(v: Value): (r: Option<Value>)
    ensures r.Some? <==> Truthy(v)
    ensures r.Some? ==> r.value == v
  {
    if Truthy(v) then Some(v) else None
  }

  /** `GeminiLLMClient._build_payload(messages)`: `system_instruction` exactly
      when some kept message is a system message, holding their texts joined by
      a blank line, in order; `generation_config` and `safety_settings` exactly
      when configured. A non-string system text fails the join with `TypeError`. */
  function GeminiBuildPayload(cfg: GeminiConfig, ms: seq<Message>): (r: Result<GeminiPayload>)
    ensures r.Success? <==> ChatRolesHashable(ms) && AllStr(SystemTexts(ms))
    ensures r.Success? ==> r.value.contents == PayloadContents(ms)
    ensures r.Success? ==> (r.value.systemInstruction.Some? <==> |SystemTexts(ms)| > 0)
    ensures r.Success? && |SystemTexts(ms)| > 0 ==>
              r.value.systemInstruction == Some(SystemInstruction(JoinValues(SystemTexts(ms), "\n\n")))
    ensures r.Success? ==> (r.value.generationConfig.Some? <==> Truthy(cfg.generationConfig))
    ensures r.Success? ==> (r.value.safetySettings.Some? <==> Truthy(cfg.safetySettings))
    ensures r.Success? && Truthy(cfg.generationConfig) ==> r.value.generationConfig == Some(cfg.generationConfig)
    ensures r.Success? && Truthy(cfg.safetySettings) ==> r.value.safetySettings == Some(cfg.safetySettings)
  {
    var chat :- GeminiChatContents(ms);
    var system := SystemTexts(ms);
    var instruction :-
      if |system| == 0 then Success(None)
      else
        var text :- JoinStrs(system, "\n\n");
        Success(Some(SystemInstruction(text)));
    Success(GeminiPayload(PayloadContents(ms), instruction,
                          IfTruthy(cfg.generationConfig), IfTruthy(cfg.safetySettings)))
  }

  // ---------------------------------------------------------------------------
  // Reading a reply: shared by Gemini and Grok

  /** The first element that `f` decides on: the first result other than
      `Success(None)` (a text found, or an error raised), or `Success(None)`
      when `f` decides on none. */
  function FirstDecided(xs: seq<Value>, f: Value -> Result<Option<Value>>): (r: Result<Option<Value>>)
    ensures r == Success(None) <==> forall i :: 0 <= i < |xs| ==> f(xs[i]) == Success(None)
    ensures r != Success(None) ==>
              exists i :: 0 <= i < |xs| && f(xs[i]) == r && forall j :: 0 <= j < i ==> f(xs[j]) == Success(None)
    decreases |xs|
  {
    if |xs| == 0 then Success(None)
    else if f(xs[0]) != Success(None) then f(xs[0])
    else
      var r := FirstDecided(xs[1..], f);
      assert forall i :: 1 <= i < |xs| ==> xs[i] == xs[1..][i - 1];
      if r != Success(None) then
        var i :| 0 <= i < |xs[1..]| && f(xs[1..][i]) == r
                 && forall j :: 0 <= j < i ==> f(xs[1..][j]) == Success(None);
        assert f(xs[i + 1]) == r;
        r
      else r
  }

  /** Deciding on element `i` means `FirstDecided` returns what `f` said there. */
  lemma FirstDecidedAt(xs: seq<Value>, f: Value -> Result<Option<Value>>, i: nat)
    requires i < |xs| && f(xs[i]) != Success(None)
    requires forall j :: 0 <= j < i ==> f(xs[j]) == Success(None)
    ensures FirstDecided(xs, f) == f(xs[i])
  {
    var r := FirstDecided(xs, f);
    var i' :| 0 <= i' < |xs| && f(xs[i']) == r && forall j :: 0 <= j < i' ==> f(xs[j]) == Success(None);
    assert !(i' < i) && !(i < i');
  }

  /** The shape of `_extract_text` in both adapters: `data.get(listKey) or []`
      is walked for the first entry `f` finds a text in; failing that the reply
      is `data.get(fallbackKey) or ""`. */
  function ExtractFirst(data: Value, listKey: string, fallbackKey: string,
                        f: Value -> Result<Option<Value>>): (r: Result<Value>)
    ensures r.Success? ==> data.Map? && ListedEntries(data, listKey).Success?
    ensures r.Success? ==> r.value == Or(Lookup(data.entries, fallbackKey), Str(""))
                           || exists x :: f(x) == Success(Some(r.value))
  {
    var listed :- DictGet(data, listKey, Null);
    var entries :- Iterate(Or(listed, List([])));
    var found :- FirstDecided(entries, f);
    if found.Some? then Success(found.value) else Success(Or(Lookup(data.entries, fallbackKey), Str("")))
  }

  /** The entries `_extract_text` walks through, when it gets that far. */
  function ListedEntries(data: Value, listKey: string): Result<seq<Value>>
    requires data.Map?
  {
    Iterate(Or(Lookup(data.entries, listKey), List([])))
  }

  /** The first entry with a text gives the reply. */
  lemma ExtractFirstFound(data: Value, listKey: string, fallbackKey: string,
                          f: Value -> Result<Option<Value>>, i: nat)
    requires data.Map? && ListedEntries(data, listKey).Success?
    requires i < |ListedEntries(data, listKey).value|
    requires f(ListedEntries(data, listKey).value[i]).Success?
    requires f(ListedEntries(data, listKey).value[i]).value.Some?
    requires forall j :: 0 <= j < i ==> f(ListedEntries(data, listKey).value[j]) == Success(None)
    ensures ExtractFirst(data, listKey, fallbackKey, f)
            == Success(f(ListedEntries(data, listKey).value[i]).value.value)
  {
    FirstDecidedAt(ListedEntries(data, listKey).value, f, i);
  }

  /** With no entry holding a text, the reply is the fallback entry or `""`. */
  lemma ExtractFirstFallback(data: Value, listKey: string, fallbackKey: string,
                             f: Value -> Result<Option<Value>>)
    requires data.Map? && ListedEntries(data, listKey).Success?
    requires forall j :: 0 <= j < |ListedEntries(data, listKey).value| ==>
               f(ListedEntries(data, listKey).value[j]) == Success(None)
    ensures ExtractFirst(data, listKey, fallbackKey, f)
            == Success(Or(Lookup(data.entries, fallbackKey), Str("")))
  {
  }

  // ---------------------------------------------------------------------------
  // Gemini replies

  /** `[part.get("text") for part in parts if part.get("text")]`: a part that is
      not a dict raises `AttributeError`. */
  function GeminiPartTexts(parts: seq<Value>): (r: Result<seq<Value>>)
    ensures r.Success? <==> forall i :: 0 <= i < |parts| ==> parts[i].Map?
    ensures r.Success? ==> forall i :: 0 <= i < |r.value| ==> Truthy(r.value[i])
    ensures r.Success? ==> (|r.value| == 0 <==>
              forall i :: 0 <= i < |parts| ==> !Truthy(Lookup(parts[i].entries, "text")))
    ensures r.Success? && |r.value| > 0 ==>
              exists i :: 0 <= i < |parts| && r.value[0] == Lookup(parts[i].entries, "text")
    decreases |parts|
  {
    if |parts| == 0 then Success([])
    else
      var t :- DictGet(parts[0], "text", Null);
      var rest :- GeminiPartTexts(parts[1..]);
      assert forall i :: 1 <= i < |parts| ==> parts[i] == parts[1..][i - 1];
      if Truthy(t) then Success([t] + rest) else Success(rest)
  }

  /** The join of two runs of texts, or the first error. */
  function JoinTexts(ra: Result<seq<Value>>, rb: Result<seq<Value>>): Result<seq<Value>> {
    if ra.Failure? then ra else if rb.Failure? then rb else Success(ra.value + rb.value)
  }

  /** One step of the comprehension: the first part's text, when truthy, goes
      in front of the texts of the rest. */
  lemma GeminiPartTextsCons(p: Value, rest: seq<Value>)
    requires p.Map?
    ensures var t := Lookup(p.entries, "text");
            GeminiPartTexts([p] + rest) == JoinTexts(Success(if Truthy(t) then [t] else []), GeminiPartTexts(rest))
  {
    var ps := [p] + rest;
    assert ps[0] == p && ps[1..] == rest;
    var t := Lookup(p.entries, "text");
    assert DictGet(ps[0], "text", Null) == Success(t);
    var rr := GeminiPartTexts(rest);
    if rr.Success? && !Truthy(t) {
      assert [] + rr.value == rr.value;
    }
  }

  /** One part contributes its text exactly when the text is truthy. */
  lemma GeminiPartTextsOne(p: Value)
    requires p.Map?
    ensures GeminiPartTexts([p]) == Success(if Truthy(Lookup(p.entries, "text")) then [Lookup(p.entries, "text")] else [])
  {
    GeminiPartTextsCons(p, []);
    assert [p] + [] == [p];
    var t := Lookup(p.entries, "text");
    assert (if Truthy(t) then [t] else []) + [] == (if Truthy(t) then [t] else []);
  }

  /** A first part that is not a dict raises, whatever follows it. */
  lemma GeminiPartTextsConsFail(p: Value, rest: seq<Value>)
    requires !p.Map?
    ensures GeminiPartTexts([p] + rest) == Failure(DictGet(p, "text", Null).error)
  {
    assert ([p] + rest)[0] == p;
  }

  /** One step of `GeminiPartTextsSplit`: from the rest of the first run to all of it. */
  lemma GeminiPartTextsSplitStep(p: Value, tail: seq<Value>, b: seq<Value>)
    requires GeminiPartTexts(tail + b) == JoinTexts(GeminiPartTexts(tail), GeminiPartTexts(b))
    ensures GeminiPartTexts([p] + tail + b) == JoinTexts(GeminiPartTexts([p] + tail), GeminiPartTexts(b))
  {
    assert [p] + tail + b == [p] + (tail + b);
    if !p.Map? {
      GeminiPartTextsConsFail(p, tail);
      GeminiPartTextsConsFail(p, tail + b);
    } else {
      GeminiPartTextsCons(p, tail);
      GeminiPartTextsCons(p, tail + b);
      var t := Lookup(p.entries, "text");
      JoinTextsAssoc(if Truthy(t) then [t] else [], GeminiPartTexts(tail), GeminiPartTexts(b));
    }
  }

  lemma JoinTextsAssoc(h: seq<Value>, rt: Result<seq<Value>>, rb: Result<seq<Value>>)
    ensures JoinTexts(Success(h), JoinTexts(rt, rb)) == JoinTexts(JoinTexts(Success(h), rt), rb)
  {
    if rt.Success? && rb.Success? {
      assert h + (rt.value + rb.value) == (h + rt.value) + rb.value;
    }
  }

  /** The texts of two runs of parts are those of the first run followed by
      those of the second; the first part that is not a dict raises. */
  lemma {:induction false} GeminiPartTextsSplit(a: seq<Value>, b: seq<Value>)
    ensures GeminiPartTexts(a + b) == JoinTexts(GeminiPartTexts(a), GeminiPartTexts(b))
    decreases |a|
  {
    if |a| == 0 {
      assert a + b == b;
      if GeminiPartTexts(b).Success? {
        assert [] + GeminiPartTexts(b).value == GeminiPartTexts(b).value;
      }
    } else {
      GeminiPartTextsSplit(a[1..], b);
      GeminiPartTextsSplitStep(a[0], a[1..], b);
      assert [a[0]] + a[1..] == a;
    }
  }

  /** The parts of a candidate: `(candidate.get("content") or {}).get("parts") or []`. */
  function CandidateParts(candidate: Value): Result<seq<Value>> {
    var content :- DictGet(candidate, "content", Null);
    var parts :- DictGet(Or(content, Map([])), "parts", Null);
    Iterate(Or(parts, List([])))
  }

  /** The texts a candidate offers. */
  function CandidateTexts(candidate: Value): Result<seq<Value>> {
    var items :- CandidateParts(candidate);
    GeminiPartTexts(items)
  }

  /** The joined text of one candidate, `None` when it has no text: the texts
      its parts offer, joined with nothing between them. */
  function GeminiCandidateText(candidate: Value): (r: Result<Option<Value>>)
    ensures r.Success? <==> CandidateTexts(candidate).Success? && AllStr(CandidateTexts(candidate).value)
    ensures r.Success? ==> (r.value.Some? <==> |CandidateTexts(candidate).value| > 0)
    ensures r.Success? && r.value.Some? ==> r.value.value == Str(JoinValues(CandidateTexts(candidate).value, ""))
    ensures r.Success? && r.value.Some? ==> r.value.value.Str? && |r.value.value.s| > 0
  {
    var texts :- CandidateTexts(candidate);
    if |texts| == 0 then Success(None)
    else
      var s :- JoinStrs(texts, "");
      JoinValuesFirst(texts, "");
      Success(Some(Str(s)))
  }

  /** `GeminiLLMClient._extract_text(data)`: the joined text of the first
      candidate that has one, else the response's own `text` or `""`. */
  function GeminiExtractText(data: Value): (r: Result<Value>)
    ensures r.Success? ==> data.Map? && ListedEntries(data, "candidates").Success?
    ensures r.Success? ==> (r.value.Str? && |r.value.s| > 0) || r.value == Or(Lookup(data.entries, "text"), Str(""))
  {
    ExtractFirst(data, "candidates", "text", GeminiCandidateText)
  }

  /** The first candidate with text gives the reply: the join of its part texts. */
  lemma GeminiReplyFromCandidate(data: Value, i: nat)
    requires data.Map? && ListedEntries(data, "candidates").Success?
    requires i < |ListedEntries(data, "candidates").value|
    requires GeminiCandidateText(ListedEntries(data, "candidates").value[i]).Success?
    requires GeminiCandidateText(ListedEntries(data, "candidates").value[i]).value.Some?
    requires forall j :: 0 <= j < i ==>
               GeminiCandidateText(ListedEntries(data, "candidates").value[j]) == Success(None)
    ensures var texts := CandidateTexts(ListedEntries(data, "candidates").value[i]);
            && texts.Success? && AllStr(texts.value) && |texts.value| > 0
            && GeminiExtractText(data) == Success(Str(JoinValues(texts.value, "")))
    ensures GeminiExtractText(data).Success?
    ensures GeminiExtractText(data).value.Str? && |GeminiExtractText(data).value.s| > 0
  {
    ExtractFirstFound(data, "candidates", "text", GeminiCandidateText, i);
  }

  /** With no candidate holding text, the reply is the response's `text` or `""`. */
  lemma GeminiReplyFallback(data: Value)
    requires data.Map? && ListedEntries(data, "candidates").Success?
    requires forall j :: 0 <= j < |ListedEntries(data, "candidates").value| ==>
               GeminiCandidateText(ListedEntries(data, "candidates").value[j]) == Success(None)
    ensures GeminiExtractText(data) == Success(Or(Lookup(data.entries, "text"), Str("")))
  {
    ExtractFirstFallback(data, "candidates", "text", GeminiCandidateText);
  }

  // ---------------------------------------------------------------------------
  // Grok

  /** What `GrokLLMClient.__init__` keeps of its arguments. */
  datatype GrokConfig = GrokConfig(model: string, timeout: Value, defaults: Dict<Value>)

  /** `GrokLLMClient(model=…, api_key=…, client_options=…)`: the `timeout` option
      is popped out of the defaults sent with every request. */
  function GrokInit(model: string, apiKey: string, clientOptions: Dict<Value>): (r: Result<GrokConfig>)
    ensures r.Success? <==> apiKey != ""
    ensures r.Success? ==> r.value.model == model
    ensures r.Success? ==> r.value.timeout == GetOr(clientOptions, "timeout", Int(30))
    ensures r.Success? ==> !HasKey(r.value.defaults, "timeout")
    ensures r.Success? ==> forall k :: k != "timeout" ==> Get(r.value.defaults, k) == Get(clientOptions, k)
  {
    if apiKey == "" then Failure(RuntimeError("GrokLLMClient requires an API key"))
    else Success(GrokConfig(model, GetOr(clientOptions, "timeout", Int(30)), Remove(clientOptions, "timeout")))
  }

  /** `{"role": message.get("role") or "user", "content": message.get("content") or ""}` */
  function GrokMessage(m: Message): Value {
    Map([("role", Or(Lookup(m, "role"), Str("user"))), ("content", Or(Lookup(m, "content"), Str("")))])
  }

  /** The formatted messages, one per message, in order. */
  function GrokMessages(ms: seq<Message>): (r: seq<Value>)
    ensures |r| == |ms| && forall i :: 0 <= i < |ms| ==> r[i] == GrokMessage(ms[i])
    decreases |ms|
  {
    if |ms| == 0 then [] else [GrokMessage(ms[0])] + GrokMessages(ms[1..])
  }

  /** `GrokLLMClient._build_payload(messages)`: the model and the formatted
      messages, with a single empty user message standing in for none. */
  function GrokBuildPayload(model: string, ms: seq<Message>): (r: Dict<Value>)
    ensures Keys(r) == {"model", "messages"}
    ensures Get(r, "model") == Some(Str(model))
    ensures |ms| > 0 ==> Get(r, "messages") == Some(List(GrokMessages(ms)))
    ensures |ms| == 0 ==> Get(r, "messages") == Some(List([GrokMessage([])]))
  {
    var formatted := if |ms| == 0 then [GrokMessage([])] else GrokMessages(ms);
    var r := [("model", Str(model)), ("messages", List(formatted))];
    KeyIndexIs(r, "model", 0);
    KeyIndexIs(r, "messages", 1);
    assert Keys(r) == {"model", "messages"} by {
      assert r[0].0 == "model" && r[1].0 == "messages";
    }
    r
  }

  /** `{key: value for key, value in d.items() if value is not None}` */
  function NonNull(d: Dict<Value>): (r: Dict<Value>)
    ensures forall k :: Get(r, k) == if Get(d, k).Some? && Get(d, k).value != Null then Get(d, k) else None
    decreases |d|
  {
    if |d| == 0 then []
    else
      var rest := NonNull(d[1..]);
      var r := if !HasKey(d[1..], d[0].0) && d[0].1 != Null then [d[0]] + rest else rest;
      assert d == [d[0]] + d[1..];
      forall k ensures Get(r, k) == if Get(d, k).Some? && Get(d, k).value != Null then Get(d, k) else None {
        GetCons(d[0], d[1..], k);
        GetCons(d[0], rest, k);
      }
      r
  }

  /** What `GrokLLMClient.complete` posts: the built payload updated with the
      defaults and the call's options, leaving out those that are `None`. */
  function GrokRequestPayload(cfg: GrokConfig, ms: seq<Message>, options: Dict<Value>): (r: Dict<Value>)
    ensures forall k :: Get(r, k) == GrokEntry(cfg, ms, options, k)
  {
    Update(GrokBuildPayload(cfg.model, ms), NonNull(MergeOptions(cfg.defaults, options)))
  }

  /** The entry under `k` in a posted payload: a non-`None` option wins, even
      over `model` and `messages`; otherwise the built payload's entry. */
  function GrokEntry(cfg: GrokConfig, ms: seq<Message>, options: Dict<Value>, k: string): Option<Value> {
    var opt := if HasKey(options, k) then Get(options, k) else Get(cfg.defaults, k);
    if opt.Some? && opt.value != Null then opt else Get(GrokBuildPayload(cfg.model, ms), k)
  }

  /** An option set to `None` leaves the model and the messages alone. */
  lemma GrokNullOptionIgnored(cfg: GrokConfig, ms: seq<Message>, options: Dict<Value>, k: string)
    requires Get(options, k) == Some(Null)
    ensures Get(GrokRequestPayload(cfg, ms, options), k) == Get(GrokBuildPayload(cfg.model, ms), k)
  {
  }

  /** Grok replies: a string `content` is the reply as it stands, even `""`;
      a list `content` gives the joined texts of its dict parts. */
  function GrokPieces(parts: seq<Value>): (r: seq<Value>)
    ensures forall i :: 0 <= i < |r| ==> Truthy(r[i])
    ensures |r| == 0 <==> forall i :: 0 <= i < |parts| ==> !(parts[i].Map? && Truthy(Lookup(parts[i].entries, "text")))
    decreases |parts|
  {
    if |parts| == 0 then []
    else
      var rest := GrokPieces(parts[1..]);
      assert forall i :: 1 <= i < |parts| ==> parts[i] == parts[1..][i - 1];
      if parts[0].Map? && Truthy(Lookup(parts[0].entries, "text")) then [Lookup(parts[0].entries, "text")] + rest
      else rest
  }

  /** One part gives a piece exactly when it is a dict with a truthy text. */
  lemma GrokPiecesOne(p: Value)
    ensures GrokPieces([p]) == if p.Map? && Truthy(Lookup(p.entries, "text")) then [Lookup(p.entries, "text")] else []
  {
    assert [p][1..] == [];
  }

  /** The pieces of two runs of parts are those of the first run followed by
      those of the second: the order is kept. */
  lemma {:induction false} GrokPiecesSplit(a: seq<Value>, b: seq<Value>)
    ensures GrokPieces(a + b) == GrokPieces(a) + GrokPieces(b)
    decreases |a|
  {
    if |a| == 0 {
      assert a + b == b;
    } else {
      assert (a + b)[0] == a[0];
      assert (a + b)[1..] == a[1..] + b;
      GrokPiecesSplit(a[1..], b);
    }
  }

  /** `(choice.get("message") or {}).get("content")` */
  function ChoiceContent(choice: Value): Result<Value> {
    var message :- DictGet(choice, "message", Null);
    DictGet(Or(message, Map([])), "content", Null)
  }

  /** The text of one choice, `None` when it has none: a string content as it
      stands, the joined pieces of a list content, nothing otherwise. */
  function GrokChoiceText(choice: Value): (r: Result<Option<Value>>)
    ensures r.Success? <==> (ChoiceContent(choice).Success?
                             && (ChoiceContent(choice).value.List? ==> AllStr(GrokPieces(ChoiceContent(choice).value.items))))
    ensures r.Success? && ChoiceContent(choice).value.Str? ==> r.value == Some(ChoiceContent(choice).value)
    ensures r.Success? && ChoiceContent(choice).value.List? ==>
              var pieces := GrokPieces(ChoiceContent(choice).value.items);
              && (r.value.Some? <==> |pieces| > 0)
              && (r.value.Some? ==> r.value.value == Str(JoinValues(pieces, "")))
    ensures r.Success? && !ChoiceContent(choice).value.Str? && !ChoiceContent(choice).value.List? ==> r.value == None
    ensures r.Success? && r.value.Some? ==> r.value.value.Str?
  {
    var content :- ChoiceContent(choice);
    if content.Str? then Success(Some(content))
    else if content.List? then
      var pieces := GrokPieces(content.items);
      if |pieces| == 0 then Success(None)
      else
        var s :- JoinStrs(pieces, "");
        Success(Some(Str(s)))
    else Success(None)
  }

  /** `GrokLLMClient._extract_text(data)`: the text of the first choice that has
      one, else the response's own `output` or `""`. */
  function GrokExtractText(data: Value): (r: Result<Value>)
    ensures r.Success? ==> data.Map? && ListedEntries(data, "choices").Success?
    ensures r.Success? ==> r.value.Str? || r.value == Or(Lookup(data.entries, "output"), Str(""))
  {
    ExtractFirst(data, "choices", "output", GrokChoiceText)
  }

  /** The first choice with a text gives the reply. */
  lemma GrokReplyFromChoice(data: Value, i: nat)
    requires data.Map? && ListedEntries(data, "choices").Success?
    requires i < |ListedEntries(data, "choices").value|
    requires GrokChoiceText(ListedEntries(data, "choices").value[i]).Success?
    requires GrokChoiceText(ListedEntries(data, "choices").value[i]).value.Some?
    requires forall j :: 0 <= j < i ==> GrokChoiceText(ListedEntries(data, "choices").value[j]) == Success(None)
    ensures GrokExtractText(data) == Success(GrokChoiceText(ListedEntries(data, "choices").value[i]).value.value)
  {
    ExtractFirstFound(data, "choices", "output", GrokChoiceText, i);
  }

  /** With no choice holding a text, the reply is the response's `output` or `""`. */
  lemma GrokReplyFallback(data: Value)
    requires data.Map? && ListedEntries(data, "choices").Success?
    requires forall j :: 0 <= j < |ListedEntries(data, "choices").value| ==>
               GrokChoiceText(ListedEntries(data, "choices").value[j]) == Success(None)
    ensures GrokExtractText(data) == Success(Or(Lookup(data.entries, "output"), Str("")))
  {
    ExtractFirstFallback(data, "choices", "output", GrokChoiceText);
  }

  /** A first choice whose message content is a string is the reply verbatim,
      whatever else the message holds and whatever follows it. */
  lemma GrokStringContentVerbatim(data: Value, s: string)
    requires data.Map? && ListedEntries(data, "choices").Success?
    requires |ListedEntries(data, "choices").value| > 0
    requires ListedEntries(data, "choices").value[0].Map?
    requires Lookup(ListedEntries(data, "choices").value[0].entries, "message").Map?
    requires Lookup(Lookup(ListedEntries(data, "choices").value[0].entries, "message").entries, "content") == Str(s)
    ensures GrokExtractText(data) == Success(Str(s))
  {
    var c := ListedEntries(data, "choices").value[0];
    assert Truthy(Lookup(c.entries, "message"));
    assert GrokChoiceText(c) == Success(Some(Str(s)));
    ExtractFirstFound(data, "choices", "output", GrokChoiceText, 0);
  }
}
