/** How `async_conversation.py` gives each selected persona a language model:
    where the API key comes from (`get_api_key`), which provider, model and
    display label apply, and which personas share one client
    (`build_llm_clients`); and the call parameters `build_agent` hands an
    agent. The environment is a map, `hash(api_key)` a parameter, and a client
    is the description it is built from. */
module LlmSetup {
  import opened Wrappers
  import opened Text
  import opened Dicts
  import opened Values
  import opened Engine

  // ---------------------------------------------------------------------------
  // API keys

  /** The environment variable a provider's key is read from by default. */
  function DefaultKeyEnv(provider: string): (r: Option<string>)
    ensures r.Some? <==> provider == "openai" || provider == "gemini" || provider == "grok"
  {
    if provider == "openai" then Some("OPENAI_API_KEY")
    else if provider == "gemini" then Some("GEMINI_API_KEY")
    else if provider == "grok" then Some("GROK_API_KEY")
    else None
  }

  /** The variable `get_api_key` reads when no key is given explicitly: the
      configured non-empty `api_key_env`, else the provider's default. */
  function KeyEnvName(provider: string, config: Dict<Value>): Option<string> {
    var keyEnv := Lookup(config, "api_key_env");
    if keyEnv.Str? && keyEnv.s != "" then Some(keyEnv.s) else DefaultKeyEnv(provider)
  }

  /** `get_api_key(provider, config, persona_key)`: the key and the name it is
      cached under. A truthy explicit `api_key` must be a string and is used as
      it is, with `api_key_env` as the name when that is a string. Otherwise the
      key is read from the environment variable `KeyEnvName`; an unknown
      provider without `api_key_env`, or an unset or empty variable, ends the
      program. */
  function GetApiKey(provider: string, config: Dict<Value>, personaKey: string, env: map<string, string>)
    : (r: Result<(string, string)>)
    ensures r.Failure? ==> r.error.SystemExit?
    ensures var explicit := Lookup(config, "api_key");
            var keyEnv := Lookup(config, "api_key_env");
            Truthy(explicit) ==>
              && (r.Success? <==> explicit.Str?)
              && (r.Success? ==> r.value == (explicit.s, if keyEnv.Str? then keyEnv.s else ""))
    ensures var name := KeyEnvName(provider, config);
            !Truthy(Lookup(config, "api_key")) ==>
              && (r.Success? <==> name.Some? && name.value in env && env[name.value] != "")
              && (r.Success? ==> r.value == (env[name.value], name.value))
  {
    var explicit := Lookup(config, "api_key");
    var keyEnv := Lookup(config, "api_key_env");
    if Truthy(explicit) then
      if !explicit.Str? then
        Failure(SystemExit("Persona " + personaKey + " llm.api_key must be a string if provided"))
      else
        Success((explicit.s, if keyEnv.Str? then keyEnv.s else ""))
    else
      var name := KeyEnvName(provider, config);
      if name.None? then
        Failure(SystemExit("Unknown provider '" + provider + "' for persona " + personaKey + " - specify llm.api_key_env"))
      else if name.value !in env || env[name.value] == "" then
        Failure(SystemExit("Persona " + personaKey + " requires environment variable " + name.value + " to be set"))
      else
        Success((env[name.value], name.value))
  }

  /** Without an explicit key, a known provider's key comes from its own
      variable. */
  lemma DefaultKeyVariables(config: Dict<Value>, personaKey: string, env: map<string, string>)
    requires !Truthy(Lookup(config, "api_key")) && !Lookup(config, "api_key_env").Str?
    ensures var r := GetApiKey("openai", config, personaKey, env);
            r.Success? ==> r.value == (env["OPENAI_API_KEY"], "OPENAI_API_KEY")
    ensures var r := GetApiKey("gemini", config, personaKey, env);
            r.Success? ==> r.value == (env["GEMINI_API_KEY"], "GEMINI_API_KEY")
    ensures var r := GetApiKey("grok", config, personaKey, env);
            r.Success? ==> r.value == (env["GROK_API_KEY"], "GROK_API_KEY")
    ensures GetApiKey("other", config, personaKey, env).Failure?
  {
  }

  /** The key `get_api_key` hands back is never empty, and one read from the
      environment is the value of the variable it names. */
  lemma ApiKeyShape(provider: string, config: Dict<Value>, personaKey: string, env: map<string, string>)
    ensures var r := GetApiKey(provider, config, personaKey, env);
            r.Success? ==> r.value.0 != ""
    ensures var r := GetApiKey(provider, config, personaKey, env);
            r.Success? && !Truthy(Lookup(config, "api_key")) ==>
              r.value.1 != "" && r.value.1 in env && env[r.value.1] == r.value.0
  {
  }

  /** `get_api_key` reads at most one environment variable: two environments
      that agree on the variable `KeyEnvName` names give the same outcome, and
      with a truthy explicit key the environment does not matter at all. */
  lemma ApiKeyFrame(provider: string, config: Dict<Value>, personaKey: string,
                    env1: map<string, string>, env2: map<string, string>)
    requires var name := KeyEnvName(provider, config);
             !Truthy(Lookup(config, "api_key")) && name.Some? ==>
               && (name.value in env1 <==> name.value in env2)
               && (name.value in env1 ==> env1[name.value] == env2[name.value])
    ensures GetApiKey(provider, config, personaKey, env1) == GetApiKey(provider, config, personaKey, env2)
  {
  }

  // ---------------------------------------------------------------------------
  // Per-persona settings

  /** What the script is given: the personas, each persona's `llm` settings
      (absent for a persona without any), the default provider and model, the
      environment, and `hash`. */
  datatype Setup = Setup(personas: Dict<Persona>, llmConfigs: Dict<Value>, defaultProvider: string,
                         defaultModel: string, env: map<string, string>, hash: string -> int)

  /** `persona.llm`: the persona's `llm` settings, `{}` when it has none. */
  function LlmOf(s: Setup, key: string): Value {
    GetOr(s.llmConfigs, key, Map([]))
  }

  /** `persona.llm or {}` */
  function ConfigOf(s: Setup, key: string): Value {
    Or(LlmOf(s, key), Map([]))
  }

  /** The persona's `style.voice` when `style` is a dict and the voice a
      non-empty string. */
  function StyleVoice(p: Persona): (r: Option<string>)
    ensures r.Some? ==> r.value != ""
  {
    if p.style.Map? && Lookup(p.style.entries, "voice").Str? && Lookup(p.style.entries, "voice").s != ""
    then Some(Lookup(p.style.entries, "voice").s)
    else None
  }

  /** The parameters `build_llm_clients` records for a persona:
      `{"style": {"voice": voice}}` when it has a voice, else `{}`. */
  function VoiceParameters(p: Persona): Dict<Value> {
    if StyleVoice(p).Some? then [("style", Map([("voice", Str(StyleVoice(p).value))]))] else []
  }

  /** Everything `build_llm_clients` works out for one persona. */
  datatype Settings = Settings(provider: string, model: Value, apiKey: string, cacheId: string,
                               options: Value, display: string, params: Dict<Value>)

  /** Clients are shared by provider, model and the cache identifier. */
  datatype CacheKey = CacheKey(provider: string, model: Value, id: string)

  function KeyOf(st: Settings): CacheKey {
    CacheKey(st.provider, st.model, st.cacheId)
  }

  /** `config.get("provider") or default_provider`, before lower-casing. */
  function ProviderOf(s: Setup, key: string): Value
    requires ConfigOf(s, key).Map?
  {
    Or(Lookup(ConfigOf(s, key).entries, "provider"), Str(s.defaultProvider))
  }

  /** `config.get("model") or default_model` */
  function ModelOf(s: Setup, key: string): Value
    requires ConfigOf(s, key).Map?
  {
    Or(Lookup(ConfigOf(s, key).entries, "model"), Str(s.defaultModel))
  }

  /** The body of the loop of `build_llm_clients` for `key`, before the cache:
      the persona must exist (`KeyError`) and its `llm` settings must be a dict
      whose provider is a string (`AttributeError`). The provider is the
      configured one or the default, lower-cased; the model the configured one
      or the default, and a falsy model ends the program; the display label is
      the configured non-empty string, else the provider. The cache identifier
      is the key's variable name, else `key:` and the key's hash. */
  function ResolveSettings(s: Setup, key: string): (r: Result<Settings>)
    ensures r.Success? ==> HasKey(s.personas, key) && ConfigOf(s, key).Map?
    ensures r.Success? ==>
              var config := ConfigOf(s, key).entries;
              var provider := Or(Lookup(config, "provider"), Str(s.defaultProvider));
              var display := Lookup(config, "display");
              && provider.Str? && r.value.provider == Lower(provider.s)
              && r.value.model == Or(Lookup(config, "model"), Str(s.defaultModel))
              && Truthy(r.value.model) && Hashable(r.value.model)
              && r.value.display == (if display.Str? && display.s != "" then display.s else r.value.provider)
              && var k := GetApiKey(r.value.provider, config, key, s.env);
              && k.Success? && r.value.apiKey == k.value.0
              && r.value.cacheId == (if k.value.1 != "" then k.value.1 else "key:" + IntToString(s.hash(k.value.0)))
              && r.value.params == VoiceParameters(Get(s.personas, key).value)
    ensures !HasKey(s.personas, key) ==> r.Failure? && r.error.KeyError?
    ensures HasKey(s.personas, key) && ConfigOf(s, key).Map?
            && Or(Lookup(ConfigOf(s, key).entries, "provider"), Str(s.defaultProvider)).Str?
            && !Truthy(Or(Lookup(ConfigOf(s, key).entries, "model"), Str(s.defaultModel))) ==>
              r == Failure(SystemExit("Persona " + key + " needs an llm.model or specify --default-model"))
    ensures HasKey(s.personas, key) && ConfigOf(s, key).Map?
            && ProviderOf(s, key).Str? && Truthy(ModelOf(s, key))
            && GetApiKey(Lower(ProviderOf(s, key).s), ConfigOf(s, key).entries, key, s.env).Success?
            && !Hashable(ModelOf(s, key)) ==>
              r == Failure(UnhashableError(ModelOf(s, key)))
  {
    if !HasKey(s.personas, key) then Failure(KeyError(key))
    else
      var persona := Get(s.personas, key).value;
      var config := ConfigOf(s, key);
      if !config.Map? then Failure(AttributeError("'" + TypeName(config) + "' object has no attribute 'get'"))
      else
        var providerV := Or(Lookup(config.entries, "provider"), Str(s.defaultProvider));
        if !providerV.Str? then Failure(AttributeError("'" + TypeName(providerV) + "' object has no attribute 'lower'"))
        else
          var provider := Lower(providerV.s);
          var model := Or(Lookup(config.entries, "model"), Str(s.defaultModel));
          if !Truthy(model) then Failure(SystemExit("Persona " + key + " needs an llm.model or specify --default-model"))
          else
            var (apiKey, cacheEnv) :- GetApiKey(provider, config.entries, key, s.env);
            // `cache_key not in cache` hashes the model inside the cache key.
            if !Hashable(model) then Failure(UnhashableError(model))
            else
            var options := Lookup(config.entries, "client_options");
            var displayV := Lookup(config.entries, "display");
            Success(Settings(provider, model, apiKey,
                             if cacheEnv != "" then cacheEnv else "key:" + IntToString(s.hash(apiKey)),
                             if options.Map? then options else Map([]),
                             if displayV.Str? && displayV.s != "" then displayV.s else provider,
                             VoiceParameters(persona)))
  }

  /** The providers a client can be built for. */
  predicate Supported(provider: string) {
    provider == "openai" || provider == "gemini" || provider == "grok"
  }

  /** `ResolveSettings` for the given setup, as a function of the key. */
  function Resolver(s: Setup): string -> Result<Settings> {
    key => ResolveSettings(s, key)
  }

  /** A persona the loop gets through. */
  predicate Buildable(resolve: string -> Result<Settings>, key: string) {
    resolve(key).Success? && Supported(resolve(key).value.provider)
  }

  // ---------------------------------------------------------------------------
  // Client sharing

  /** The arguments a client is constructed with. */
  datatype ClientSpec = ClientSpec(provider: string, model: Value, apiKey: string, options: Value)

  /** What a persona resolves to: the position of its client in the cache, the
      display label and the parameters. */
  datatype Resolved = Resolved(client: nat, display: string, params: Dict<Value>)

  /** The client cache, in order of creation, and the per-persona results. */
  datatype Clients = Clients(cache: seq<(CacheKey, ClientSpec)>, resolved: Dict<Resolved>)

  /** No two cached clients have the same cache key. */
  predicate UniqueCache(cache: seq<(CacheKey, ClientSpec)>) {
    forall i, j :: 0 <= i < j < |cache| ==> cache[i].0 != cache[j].0
  }

  /** Every cached client is for a supported provider, and every resolved
      persona points at the client with its own cache key, with its own label
      and parameters. */
  ghost predicate WellLinked(resolve: string -> Result<Settings>, c: Clients) {
    && UniqueCache(c.cache)
    && (forall i :: 0 <= i < |c.cache| ==> Supported(c.cache[i].0.provider))
    && forall k :: Get(c.resolved, k).Some? ==>
         && Buildable(resolve, k)
         && Get(c.resolved, k).value.client < |c.cache|
         && c.cache[Get(c.resolved, k).value.client].0 == KeyOf(resolve(k).value)
         && Get(c.resolved, k).value.display == resolve(k).value.display
         && Get(c.resolved, k).value.params == resolve(k).value.params
  }

  /** Position from `from` on of the client cached under `ck`, or `|cache|`. */
  function CacheIndex(cache: seq<(CacheKey, ClientSpec)>, ck: CacheKey, from: nat): (i: nat)
    requires from <= |cache|
    ensures from <= i <= |cache|
    ensures i < |cache| ==> cache[i].0 == ck
    ensures i == |cache| ==> forall j :: from <= j < |cache| ==> cache[j].0 != ck
    decreases |cache| - from
  {
    if from == |cache| then from
    else if cache[from].0 == ck then from
    else CacheIndex(cache, ck, from + 1)
  }

  /** The arguments a client for these settings is constructed with. */
  function SpecOf(st: Settings): ClientSpec {
    ClientSpec(st.provider, st.model, st.apiKey, st.options)
  }

  /** `key` resolves to settings with cache key `ck`. */
  predicate HasCacheKey(resolve: string -> Result<Settings>, key: string, ck: CacheKey) {
    resolve(key).Success? && KeyOf(resolve(key).value) == ck
  }

  /** Position of the first of `selected[from..]` resolving to the cache key
      `ck`, or `|selected|` when there is none. */
  function FirstWithKey(resolve: string -> Result<Settings>, selected: seq<string>, ck: CacheKey, from: nat)
    : (p: nat)
    requires from <= |selected|
    ensures from <= p <= |selected|
    ensures p < |selected| ==> HasCacheKey(resolve, selected[p], ck)
    ensures forall j :: from <= j < p ==> !HasCacheKey(resolve, selected[j], ck)
    decreases |selected| - from
  {
    if from == |selected| || HasCacheKey(resolve, selected[from], ck) then from
    else FirstWithKey(resolve, selected, ck, from + 1)
  }

  /** Position of the first of `selected[from..]` the loop cannot get
      through, or `|selected|` when there is none. */
  function FirstUnbuildable(resolve: string -> Result<Settings>, selected: seq<string>, from: nat): (p: nat)
    requires from <= |selected|
    ensures from <= p <= |selected|
    ensures p < |selected| ==> !Buildable(resolve, selected[p])
    ensures forall j :: from <= j < p ==> Buildable(resolve, selected[j])
    decreases |selected| - from
  {
    if from == |selected| || !Buildable(resolve, selected[from]) then from
    else FirstUnbuildable(resolve, selected, from + 1)
  }

  /** The exception the loop raises at a persona it cannot get through: the
      one resolving its settings raised, else the one for a provider without
      a client class. */
  function BuildError(resolve: string -> Result<Settings>, key: string): Error {
    if resolve(key).Failure? then resolve(key).error
    else SystemExit("Unsupported LLM provider '" + resolve(key).value.provider + "' for persona " + key)
  }

  /** Every cached client was built from the settings of the first selected
      persona with its cache key. */
  ghost predicate FirstSpecs(resolve: string -> Result<Settings>, selected: seq<string>,
                             cache: seq<(CacheKey, ClientSpec)>) {
    forall t :: 0 <= t < |cache| ==>
      && FirstWithKey(resolve, selected, cache[t].0, 0) < |selected|
      && cache[t].1 == SpecOf(resolve(selected[FirstWithKey(resolve, selected, cache[t].0, 0)]).value)
  }

  /** Exactly the first `i` personas are recorded, and each can be built. */
  ghost predicate Covered(resolve: string -> Result<Settings>, selected: seq<string>, i: nat, resolved: Dict<Resolved>)
    requires i <= |selected|
  {
    && (forall j :: 0 <= j < i ==> Buildable(resolve, selected[j]) && Get(resolved, selected[j]).Some?)
    && (forall k :: Get(resolved, k).Some? ==> k in selected[..i])
  }

  /** What the loop of `build_llm_clients` keeps after the first `i` personas. */
  ghost predicate Shared(resolve: string -> Result<Settings>, selected: seq<string>, i: nat, c: Clients)
    requires i <= |selected|
  {
    Covered(resolve, selected, i, c.resolved) && WellLinked(resolve, c) && FirstSpecs(resolve, selected, c.cache)
  }

  /** One turn of the loop for a persona it gets through: its client is
      looked up by cache key and made when missing, and the persona is
      recorded with that client, its label and its parameters. */
  function AddPersona(c: Clients, key: string, st: Settings): (r: Clients)
    ensures |c.cache| <= |r.cache| && r.cache[..|c.cache|] == c.cache
    ensures Get(r.resolved, key).Some? && Get(r.resolved, key).value.client < |r.cache|
    ensures r.cache[Get(r.resolved, key).value.client].0 == KeyOf(st)
    ensures forall k :: k != key ==> Get(r.resolved, k) == Get(c.resolved, k)
  {
    var ck := KeyOf(st);
    var idx := CacheIndex(c.cache, ck, 0);
    var cache := if idx == |c.cache| then c.cache + [(ck, SpecOf(st))] else c.cache;
    Clients(cache, Set(c.resolved, key, Resolved(idx, st.display, st.params)))
  }

  /** Adding a persona keeps the cache linked. */
  lemma AddPersonaLinked(resolve: string -> Result<Settings>, c: Clients, key: string)
    requires WellLinked(resolve, c) && Buildable(resolve, key)
    ensures WellLinked(resolve, AddPersona(c, key, resolve(key).value))
  {
    var st := resolve(key).value;
    var r := AddPersona(c, key, st);
    var idx := CacheIndex(c.cache, KeyOf(st), 0);
    assert UniqueCache(r.cache) by {
      if idx == |c.cache| {
        assert forall j :: 0 <= j < |c.cache| ==> r.cache[j] == c.cache[j];
      }
    }
    assert forall k :: Get(r.resolved, k).Some? && k != key ==>
             Get(r.resolved, k).value.client < |c.cache| && r.cache[Get(r.resolved, k).value.client] == c.cache[Get(c.resolved, k).value.client];
  }

  /** Adding a persona keeps every cached client the first one's. */
  lemma AddPersonaFirst(resolve: string -> Result<Settings>, selected: seq<string>, i: nat, c: Clients)
    requires i < |selected| && Shared(resolve, selected, i, c) && Buildable(resolve, selected[i])
    ensures FirstSpecs(resolve, selected, AddPersona(c, selected[i], resolve(selected[i]).value).cache)
  {
    var st := resolve(selected[i]).value;
    var r := AddPersona(c, selected[i], st);
    if CacheIndex(c.cache, KeyOf(st), 0) == |c.cache| {
      forall j | 0 <= j < i
        ensures !HasCacheKey(resolve, selected[j], KeyOf(st))
      {
        var e := Get(c.resolved, selected[j]).value;
        assert c.cache[e.client].0 == KeyOf(resolve(selected[j]).value);
      }
      assert FirstWithKey(resolve, selected, KeyOf(st), 0) == i;
      assert r.cache == c.cache + [(KeyOf(st), SpecOf(st))];
    }
  }

  /** Adding the next persona keeps everything the loop keeps. */
  lemma AddPersonaKeeps(resolve: string -> Result<Settings>, selected: seq<string>, i: nat, c: Clients)
    requires i < |selected| && Shared(resolve, selected, i, c) && Buildable(resolve, selected[i])
    ensures Shared(resolve, selected, i + 1, AddPersona(c, selected[i], resolve(selected[i]).value))
  {
    AddPersonaLinked(resolve, c, selected[i]);
    AddPersonaFirst(resolve, selected, i, c);
    AddPersonaCovered(resolve, selected, i, c, resolve(selected[i]).value);
  }

  /** Recording the next persona covers one persona more. */
  lemma AddPersonaCovered(resolve: string -> Result<Settings>, selected: seq<string>, i: nat,
                          c: Clients, st: Settings)
    requires i < |selected| && Covered(resolve, selected, i, c.resolved) && Buildable(resolve, selected[i])
    ensures Covered(resolve, selected, i + 1, AddPersona(c, selected[i], st).resolved)
  {
    assert selected[..i + 1] == selected[..i] + [selected[i]];
  }

  /** The loop of `build_llm_clients` over `selected`, with `resolve` working
      out each persona's settings: a new client is made for a cache key not
      seen before, when its provider has one. It stops at the first persona it
      cannot get through, with that persona's exception. */
  method ShareClients(selected: seq<string>, resolve: string -> Result<Settings>) returns (r: Result<Clients>)
    ensures r.Success? <==> forall i :: 0 <= i < |selected| ==> Buildable(resolve, selected[i])
    ensures r.Success? ==> forall i :: 0 <= i < |selected| ==> Get(r.value.resolved, selected[i]).Some?
    ensures r.Success? ==> forall k :: Get(r.value.resolved, k).Some? ==> k in selected
    ensures r.Success? ==> WellLinked(resolve, r.value)
    ensures r.Success? ==> FirstSpecs(resolve, selected, r.value.cache)
    ensures r.Failure? ==> var p := FirstUnbuildable(resolve, selected, 0);
                           p < |selected| && r.error == BuildError(resolve, selected[p])
  {
    var c := Clients([], []);
    for i := 0 to |selected|
      invariant Shared(resolve, selected, i, c)
    {
      var key := selected[i];
      var st := resolve(key);
      if st.Failure? {
        assert FirstUnbuildable(resolve, selected, 0) == i;
        return Failure(st.error);
      }
      var idx := CacheIndex(c.cache, KeyOf(st.value), 0);
      if idx == |c.cache| && !Supported(st.value.provider) {
        assert FirstUnbuildable(resolve, selected, 0) == i;
        return Failure(SystemExit("Unsupported LLM provider '" + st.value.provider + "' for persona " + key));
      }
      AddPersonaKeeps(resolve, selected, i, c);
      c := AddPersona(c, key, st.value);
    }
    assert selected[..|selected|] == selected;
    return Success(c);
  }

  /** `build_llm_clients(persona_map, selected_keys, default_provider,
      default_model)`. It fails exactly when some selected persona cannot be
      resolved or names a provider no client exists for; otherwise every
      selected persona is resolved, to one shared client per cache key. */
  method BuildLlmClients(s: Setup, selected: seq<string>) returns (r: Result<Clients>)
    ensures r.Success? <==> forall i :: 0 <= i < |selected| ==> Buildable(Resolver(s), selected[i])
    ensures r.Success? ==> forall i :: 0 <= i < |selected| ==> Get(r.value.resolved, selected[i]).Some?
    ensures r.Success? ==> forall k :: Get(r.value.resolved, k).Some? ==> k in selected
    ensures r.Success? ==> WellLinked(Resolver(s), r.value)
    ensures r.Success? ==> FirstSpecs(Resolver(s), selected, r.value.cache)
    ensures r.Failure? ==> var p := FirstUnbuildable(Resolver(s), selected, 0);
                           p < |selected| && r.error == BuildError(Resolver(s), selected[p])
  {
    r := ShareClients(selected, Resolver(s));
  }

  /** Two selected personas share a client exactly when they agree on provider,
      model and cache identifier. */
  lemma SharedClients(resolve: string -> Result<Settings>, c: Clients, a: string, b: string)
    requires WellLinked(resolve, c)
    requires Get(c.resolved, a).Some? && Get(c.resolved, b).Some?
    ensures Get(c.resolved, a).value.client == Get(c.resolved, b).value.client
            <==> KeyOf(resolve(a).value) == KeyOf(resolve(b).value)
  {
    var i := Get(c.resolved, a).value.client;
    var j := Get(c.resolved, b).value.client;
    if i != j {
      if i < j {
        assert c.cache[i].0 != c.cache[j].0;
      } else {
        assert c.cache[j].0 != c.cache[i].0;
      }
    }
  }

  // ---------------------------------------------------------------------------
  // Agent parameters

  /** The `parameters` `build_agent` gives an agent: a copy of `base` where a
      persona with a voice gets it as `style.voice` unless the style already
      names one. A `style` entry that is there but is not a dict is left as it
      is. */
  function AgentParameters(p: Persona, base: Dict<Value>): (r: Dict<Value>)
    ensures StyleVoice(p).None? ==> r == base
    ensures forall k :: k != "style" ==> Get(r, k) == Get(base, k)
    ensures Get(base, "style").Some? && !Get(base, "style").value.Map? ==> r == base
    ensures StyleVoice(p).Some? && Get(base, "style").None? ==>
              Get(r, "style") == Some(Map([("voice", Str(StyleVoice(p).value))]))
    ensures StyleVoice(p).Some? && Get(base, "style").Some? && Get(base, "style").value.Map? ==>
              var prior := Get(base, "style").value.entries;
              && Get(r, "style").Some? && Get(r, "style").value.Map?
              && Get(Get(r, "style").value.entries, "voice")
                 == (if HasKey(prior, "voice") then Get(prior, "voice") else Some(Str(StyleVoice(p).value)))
              && forall k :: k != "voice" ==> Get(Get(r, "style").value.entries, k) == Get(prior, k)
  {
    var voice := StyleVoice(p);
    if voice.None? then base
    else
      var style := Get(base, "style");
      if style.None? then Set(base, "style", Map([("voice", Str(voice.value))]))
      else if !style.value.Map? then base
      else
        var prior := style.value.entries;
        var merged := SetDefault(prior, "voice", Str(voice.value));
        var r := Set(base, "style", Map(merged));
        assert Get(r, "style") == Some(Map(merged));
        assert Get(merged, "voice") == (if HasKey(prior, "voice") then Get(prior, "voice") else Some(Str(voice.value)));
        r
  }

  /** The parameters `build_llm_clients` records already carry the persona's
      voice, so `build_agent` adds nothing to them. */
  lemma AgentParametersStable(p: Persona)
    ensures AgentParameters(p, VoiceParameters(p)) == VoiceParameters(p)
  {
    if StyleVoice(p).Some? {
      var d := VoiceParameters(p);
      var style := [("voice", Str(StyleVoice(p).value))];
      KeyIndexIs(d, "style", 0);
      KeyIndexIs(style, "voice", 0);
    }
  }
}
