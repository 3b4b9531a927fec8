# banter-agents in Dafny

A Dafny model of the conversation engine of banter-agents and of the pure logic
around it in the same repository.

The engine (`banter-agents/engine/simulation.py`) has four parts:

- **Template renderer.** A small Handlebars-like language with `{{expr}}`,
  `{{#each e}}…{{/each}}` and `{{#if e}}…{{/if}}`. Names are resolved against a
  stack of scopes, innermost first.
- **Personas and prompts.** The persona record and its template context.
- **`Agent.respond`.** It renders three prompts from one context, calls the
  language model and wraps the stripped reply as a turn.
- **`Conversation.step`.** It appends that turn to an append-only transcript.

Around the engine, the model covers:

- the three language-model adapters of `banter-agents/engine/clients.py`
  (option merging, payload building, reply extraction);
- the two conversation drivers: history loading, API-key resolution, client
  sharing, agent parameters, argument checks and the round loop;
- the voice registry of `speak_agent.py`;
- the image ranking, participant selection and request counter of the
  playback server `agent_server.py`;
- the gender filter of the ElevenLabs voice list;
- comment flattening and voice assignment in the Reddit and Twitter readers.

## How the model is built

- **Python values** are the datatype `Values.Value`: `None`, `bool`, `int`,
  `str`, `list`, `dict`, and the `(key, value)` pairs that `dict.items()` yields.
  Truthiness is the predicate `Values.Truthy`.
- **Dicts** are insertion-ordered lists of entries (`Dicts.Dict`). Assignment
  keeps a key's place; a new key goes last.
- **The regular expressions** of the renderer (simulation.py lines 85-87) are
  hand-written anchored scanners (`Templates.TagAt`, `Templates.VarAt`).
  `search(t, i)` is a scan from position `i`.
- **Exceptions** are the `Failure` case of `Wrappers.Result`. The `Error`
  datatype names the Python exception class (`ValueError`, `KeyError`,
  `TypeError`, `SystemExit`, …).
- **The language model** is a function from the chat messages and call options
  to a result (`Engine.Client`).
- **Inputs from outside are parameters:**
  - environment variables are a `map<string, string>`;
  - the parsed JSON or YAML is a `Value`;
  - the voices the speech provider lists are a sequence;
  - which image files exist is a set;
  - `hash(api_key)` is a function parameter.
- **Randomness.** `random.choice` is an index parameter. `random.shuffle` is
  an arbitrary permutation, taken with `:|` or given as a parameter
  constrained to be one.
- **Module-level mutable state** becomes an explicit value that operations take
  and return: `VOICE_ASSIGNMENTS` and `_UNUSABLE_VOICES` in speak_agent.py;
  the image assignments, agent states, last speaker and `STATE_VERSION` in
  agent_server.py.

Two features of the code shape the model:

- **Section matching.** In `_extract_section` (simulation.py lines 151-168) an
  open tag of either kind raises the depth, and only the outer kind's close tag
  lowers it. So `{{#each xs}}{{#if a}}b{{/if}}{{/each}}` raises "Unclosed
  section for each". The model keeps this behaviour and proves it
  (`TemplateNesting.MixedNestingUnclosed`, `TemplateNesting.RenderMixedNesting`).
- **Turn fields.** `ConversationTurn` and `Agent` (simulation.py lines 58-63,
  190-199) have no `llm_display` or `parameters` field, and `Conversation` has
  no `astep`. The model's turn has only `speaker` and `text`. What the async
  driver attaches to a turn is carried beside it (see "## Left out").

## Model

| member | source | states |
|---|---|---|
| Text.Strip | banter-agents/engine/simulation.py:145 | `strip()` yields an infix of the input that neither starts nor ends with whitespace. |
| Text.StripIsInfix | banter-agents/engine/simulation.py:145 | The stripped text is what lies between the leading and the trailing whitespace. |
| Text.StripIdempotent | banter-agents/engine/simulation.py:225 | Stripping twice is stripping once. |
| Text.Lower | speak_agent.py:16 | Lower-casing keeps the length. |
| Text.LowerIdempotent | speak_agent.py:16 | Lower-casing twice is lower-casing once. |
| Text.Find | banter-agents/engine/simulation.py:157 | `find` returns the first position where the pattern occurs, or -1 when it occurs nowhere. |
| Text.Split | banter-agents/engine/simulation.py:171 | `split('.')` is never empty, no piece holds the separator, and joining the pieces with it gives the input back. |
| Text.SplitJoin | banter-agents/engine/simulation.py:171 | Splitting undoes joining pieces that are free of the separator. |
| Text.ParseNatToString | banter-agents/engine/simulation.py:147 | The decimal text `str` gives a natural number reads back as that number. |
| Text.NatToString | banter-agents/engine/simulation.py:147 | `str` of a natural number is a non-empty run of decimal digits. |
| Dicts.Set | speak_agent.py:51 | `d[k] = v`: `k` maps to `v`, other keys keep their values, an existing key keeps its place and a new key goes last. |
| Dicts.SetUnique | speak_agent.py:51 | Assignment never repeats a key. |
| Dicts.Update | banter-agents/engine/clients.py:54 | `update` keeps every key of both dicts, and the argument wins on conflict. |
| Dicts.UpdateLast | banter-agents/engine/clients.py:54 | `update` entry by entry: after the last entry of the argument every key holds the argument's value if it has the key, else the original. |
| Dicts.Remove | speak_agent.py:86 | `pop(k, None)` leaves no entry for `k` and every other key with its value. |
| Dicts.RemoveKeepsOrder | speak_agent.py:86 | Without repeated keys, removal drops exactly the one entry for `k` and keeps the rest in order. |
| Dicts.RemoveUnique | speak_agent.py:86 | Removing a key never repeats one. |
| Dicts.SetDefault | banter-agents/engine/simulation.py:136 | `setdefault` adds the key only when it is absent and leaves a present value alone. |
| Dicts.UniqueGet | banter-agents/engine/simulation.py:113 | In a dict, every entry is what its key looks up. |
| Values.DictGet | banter-agents/engine/simulation.py:177 | `get` on a dict returns the value or the default; on anything else it raises `AttributeError`. |
| Values.Iterate | banter-agents/engine/simulation.py:116-120 | `for x in v` visits list elements, dict keys, one-character strings or a pair's two parts; other values raise `TypeError`. |
| Values.JoinStrs | banter-agents/engine/clients.py:140 | `sep.join` succeeds exactly when every element is a string. |
| Values.JoinValuesFirst | banter-agents/engine/clients.py:140 | A join is at least as long as its first string. |
| Sorting.SortBy | agent_server.py:63 | `sorted` returns a permutation of its input. |
| Sorting.SortBySorted | agent_server.py:63 | The result of `sorted` is ordered by the key, for a total, transitive order. |
| Sorting.SortByStable | agent_server.py:163 | `sorted` is stable: elements that tie keep their original relative order. |
| Sorting.SortByElements | agent_server.py:163 | Sorting keeps the length and the elements. |
| Templates.Delimited | banter-agents/engine/simulation.py:85 | A match of `prefix([^}]+)}}` at the start of a string captures a brace-free, non-empty expression and spans the prefix, the expression and `}}`. |
| TemplateLaws.DelimitedComplete | banter-agents/engine/simulation.py:85 | Every `prefix expr}}` with a brace-free `expr` at the start of a string is the match `Delimited` reports. |
| Templates.TagAt | banter-agents/engine/simulation.py:85-86 | A reported open tag is `{{#each expr}}` or `{{#if expr}}` at the start of the string. |
| TemplateLaws.TagAtComplete | banter-agents/engine/simulation.py:85-86 | Every open tag at the start of a string is the one `TagAt` reports, so `TagAt` decides the open-tag pattern. |
| Templates.TagAtPosIs | banter-agents/engine/simulation.py:96 | Matching the open tag at position `p` is matching it on the suffix from `p`: `search` from an index needs no look-behind. |
| Templates.DelimitedAtIs | banter-agents/engine/simulation.py:85-87 | Matching `prefix expr}}` at position `p` is matching it on the suffix from `p`. |
| Templates.VarAt | banter-agents/engine/simulation.py:87 | A reported variable match is `{{expr}}` at the start, with `expr` not starting with `#`, `/` or `{` and holding no `}`. |
| TemplateLaws.VarAtComplete | banter-agents/engine/simulation.py:87 | Every `{{expr}}` at the start whose expression the pattern admits is the match `VarAt` reports. |
| Templates.SearchTagFound | banter-agents/engine/simulation.py:96 | What the search reports is an open tag at the reported position. |
| Templates.SearchTag | banter-agents/engine/simulation.py:96 | A reported open tag starts at or after the search index and lies within the text. |
| Templates.SearchTagLeftmost | banter-agents/engine/simulation.py:96 | No open tag starts between the search index and the reported one, nor anywhere after it when none is reported. |
| TemplateLaws.NoMarkerNoTag | banter-agents/engine/simulation.py:96-99 | Text in which `{{#` never occurs holds no open tag. |
| Templates.SearchFromFound | banter-agents/engine/simulation.py:157 | What `find(close, idx)` reports is an occurrence of the close tag. |
| Templates.SearchFrom | banter-agents/engine/simulation.py:157 | `find(pat, idx)` gives -1 or a position at or after `idx` with room for the pattern. |
| TemplateLaws.SearchFromIs | banter-agents/engine/simulation.py:157 | `find(close, idx)` reports the leftmost occurrence at or after `idx`, or -1 when none. |
| Templates.BuildLayer | banter-agents/engine/simulation.py:133-141 | A dict's layer shows its keys and `this` (the dict itself unless it has its own `this`); a pair's layer is exactly `key`, `value`, `this`; any other value's layer is exactly `this`. |
| Templates.DictItems | banter-agents/engine/simulation.py:113 | `d.items()` yields one pair per entry, in insertion order. |
| Templates.EachItems | banter-agents/engine/simulation.py:108-119 | `each` iterates nothing for a falsy value, the pairs of a dict, a string once as a whole, the elements of a list, the two parts of a pair, and nothing for a truthy number or boolean. |
| Templates.ReplaceIsSubstitute | banter-agents/engine/simulation.py:143-149 | Variable replacement is `re.sub` with the replacement function of the scopes. |
| Templates.VarTextOf | banter-agents/engine/simulation.py:144-147 | A variable becomes "" when its stripped expression resolves to `None`, and `str` of the value otherwise. |
| TemplateLaws.ReplaceWithoutBraces | banter-agents/engine/simulation.py:143-149 | Text without `{{` comes out unchanged. |
| TemplateLaws.SubstituteLiteral | banter-agents/engine/simulation.py:149 | Text without `{` comes out unchanged, whatever the replacement. |
| TemplateLaws.ReplaceVariableRef | banter-agents/engine/simulation.py:149 | A variable reference at the front is replaced by the replacement of its expression, and the rest is processed after it. |
| TemplateLaws.ReplaceResolvedRef | banter-agents/engine/simulation.py:144-149 | A reference is replaced by the text of its resolved, stripped expression. |
| TemplateLaws.ReplaceStrayClose | banter-agents/engine/simulation.py:87 | A stray `{{/each}}` or `{{/if}}` stays literal. |
| TemplateLaws.ReplaceSlashRun | banter-agents/engine/simulation.py:87 | `{{` followed by `/` never starts a variable reference and stays literal. |
| TemplateScopes.ResolveFirstOffering | banter-agents/engine/simulation.py:172-185 | Resolution returns what the innermost layer offering a value offers. |
| TemplateScopes.ResolveNoOffering | banter-agents/engine/simulation.py:186 | When no layer offers a value, resolution gives `None`. |
| TemplateScopes.ResolveBareName | banter-agents/engine/simulation.py:173-183 | A bare name held by a layer resolves to that layer's value, even `None`, whatever outer layers hold. |
| TemplateScopes.DottedFallThrough | banter-agents/engine/simulation.py:175-185 | A dotted walk that reaches `None` in a layer holding the root falls through to the outer layers. |
| TemplateScopes.DottedOfferNotNull | banter-agents/engine/simulation.py:180-185 | A layer that offers a dotted path offers something other than `None`. |
| TemplateScopes.DottedNullMeansAbsent | banter-agents/engine/simulation.py:175-186 | A dotted path resolves to `None` only when no layer offers a full walk. |
| TemplateScopes.ResolveSkipsLayer | banter-agents/engine/simulation.py:173 | A layer without the root name is skipped. |
| TemplateScopes.ResolveThis | banter-agents/engine/simulation.py:133-141 | Inside a section, `this` names the section's value unless that value is a dict with its own `this`. |
| TemplateScopes.ResolveDictField | banter-agents/engine/simulation.py:134-137 | Inside a section over a dict, its keys are visible as bare names. |
| TemplateScopes.ResolveItemKey | banter-agents/engine/simulation.py:138-140 | Inside a section over a pair, `key` names the pair's key. |
| TemplateScopes.ResolveOuterName | banter-agents/engine/simulation.py:172 | Names the section's layer lacks are resolved in the enclosing scopes. |
| Templates.NextEvent | banter-agents/engine/simulation.py:156-165 | One pass of the depth loop meets no close tag, an open tag ending after the index, or a close tag ending at least its length after it. |
| Templates.ExtractFrom | banter-agents/engine/simulation.py:153-165 | The depth loop stops past a close tag, after the index and within the text. |
| Templates.ExtractFromClosed | banter-agents/engine/simulation.py:165-167 | Where the depth loop stops, the characters before are the close tag. |
| Templates.SectionBefore | banter-agents/engine/simulation.py:166-168 | The section's body followed by the close tag is a prefix of the text after the open tag. |
| Templates.Extract | banter-agents/engine/simulation.py:151-168 | On success the body excludes both tags and is followed by the close tag; on failure the error is `ValueError("Unclosed section for …")`. |
| TemplateDepth.ExtractByCount | banter-agents/engine/simulation.py:151-168 | Independent of the loop: the section ends at the first close tag of its kind after which close tags outnumber open tags of either kind by one, and fails exactly when no such tag exists. |
| TemplateDepth.SectionBeforeByCount | banter-agents/engine/simulation.py:151-168 | For any close tag, the section ends where the tag count first reaches one, and there is none exactly when it never does. |
| TemplateDepth.ExtractFromReach | banter-agents/engine/simulation.py:153-165 | From any index and depth, the loop stops at the end of the tag where the running count first reaches the depth, and finds nothing exactly when it never does. |
| TemplateDepth.WalkStop | banter-agents/engine/simulation.py:155-165 | Replaying the depth loop over a list of tags stops at the tag the count picks. |
| TemplateLaws.ExtractPlain | banter-agents/engine/simulation.py:151-168 | A section whose body has no `{` ends at its own close tag. |
| TemplateNesting.NestedUnclosed | banter-agents/engine/simulation.py:156-165 | An open tag of any kind followed by a close tag of another kind and then the section's close tag leaves the section unclosed. |
| TemplateNesting.MixedNestingUnclosed | banter-agents/engine/simulation.py:156-165 | `{{#if e}}b{{/if}}{{/each}}` after `{{#each …}}` is unclosed: the `if` raises the depth and its close does not lower it. |
| TemplateNesting.RenderMixedNesting | banter-agents/engine/simulation.py:158-159 | Rendering an `if` section nested in an `each` section fails with "Unclosed section for each". |
| TemplateNesting.SameExtractFrom | banter-agents/engine/simulation.py:156-165 | Over a same-kind nested shape, the depth loop stops after the outer close tag. |
| TemplateNesting.SameNestedCloses | banter-agents/engine/simulation.py:151-168 | A same-kind nested section is one section whose body keeps the inner section, close tag included. |
| TemplateNesting.SameKindNesting | banter-agents/engine/simulation.py:151-168 | An `each` inside an `each` ends at the second `{{/each}}`. |
| TemplateNesting.EachInEachSection | banter-agents/engine/simulation.py:151-168 | The depth loop over the `each`-in-`each` template stops at its end. |
| Templates.Render | banter-agents/engine/simulation.py:92-131 | Rendering either succeeds or fails with the unclosed-section error of one of the two kinds. |
| Templates.RenderSection | banter-agents/engine/simulation.py:108-127 | A section's output fails only with an unclosed-section error. |
| Templates.RenderItems | banter-agents/engine/simulation.py:120-122 | The per-item rendering fails only with an unclosed-section error. |
| TemplateLaws.RenderPlainText | banter-agents/engine/simulation.py:95-99 | With no open tag, rendering is variable replacement alone. |
| TemplateLaws.RenderConstant | banter-agents/engine/simulation.py:95-99 | Text without `{` renders as itself under any scopes. |
| TemplateLaws.RenderLeadingSection | banter-agents/engine/simulation.py:101-131 | A template that opens with a section renders as the section followed by the text after its close tag, and the first failure wins. |
| TemplateLaws.RenderSectionPlain | banter-agents/engine/simulation.py:101-129 | A leading section with a brace-free body renders through its value, then the rest renders on its own. |
| TemplateLaws.RenderLeadingUnclosed | banter-agents/engine/simulation.py:106 | A template opening with an unclosed section fails with that section's error. |
| TemplateLaws.RenderSectionUnclosed | banter-agents/engine/simulation.py:158-159 | A template opening with a section whose close tag is never matched fails with that error, whatever follows. |
| TemplateScopes.RenderVariableOnly | banter-agents/engine/simulation.py:143-149 | A template that is one variable reference renders as that variable's text. |
| TemplateScopes.RenderIfConstant | banter-agents/engine/simulation.py:123-127 | `if` over a brace-free body renders the body once when the value is truthy, and nothing otherwise. |
| TemplateScopes.RenderEachConstant | banter-agents/engine/simulation.py:108-122 | `each` over a brace-free body writes it once per item the value yields. |
| TemplateScopes.RenderItemsVar | banter-agents/engine/simulation.py:120-122 | A body that is one reference writes, per item, the value it resolves to under that item's layer. |
| TemplateScopes.RenderEachThis | banter-agents/engine/simulation.py:116-122 | `each` over a list with body `{{this}}` writes each non-dict element's text, in order. |
| TemplateScopes.RenderEachDictKeys | banter-agents/engine/simulation.py:112-113 | `each` over a dict visits its pairs in insertion order, with `key` bound to each key. |
| Engine.PersonaFromDict | banter-agents/engine/simulation.py:27-35 | The key is the argument; `name` defaults to the key, `role` to "", `worldview` and `style` to {}, `examples` to []. |
| Engine.ToTemplateContext | banter-agents/engine/simulation.py:37-45 | The context holds exactly the six persona fields, with their values. |
| Engine.PersonaContextRoundTrip | banter-agents/engine/simulation.py:27-45 | Rebuilding a persona from its template context gives the same persona. |
| Engine.FromDictIgnoresRawKey | banter-agents/engine/simulation.py:27-35 | A `key` entry in the raw record plays no part. |
| Engine.TurnAsDict | banter-agents/engine/simulation.py:62-63 | A turn's dict holds exactly `speaker` and `text`. |
| Engine.AsHistory | banter-agents/engine/simulation.py:215 | The history holds one dict per turn, in order. |
| Engine.NewAgent | banter-agents/engine/simulation.py:190-199 | A new agent keeps its arguments and has round rule "Keep the banter friendly." and length limit 280. |
| Engine.RespondContext | banter-agents/engine/simulation.py:210-216 | The context holds exactly persona, round rule, length limit, topic and history, the last being the turns as dicts in order. |
| Engine.RespondContextFallbacks | banter-agents/engine/simulation.py:212-213 | A `None` or falsy round rule or length limit falls back to the agent's default. |
| Engine.RenderMessages | banter-agents/engine/simulation.py:218-222 | The messages are exactly system←system, system←developer, user←user, all from one context, and fail when any template fails. |
| Engine.Respond | banter-agents/engine/simulation.py:201-226 | A reply turn is spoken by the persona's key and its text is stripped. |
| Engine.RespondOutcome | banter-agents/engine/simulation.py:218-226 | A reply is the stripped text the model returned for the three messages and the options; a failure is the renderer's, the model's, or a non-string reply's. |
| Engine.Step | banter-agents/engine/simulation.py:236-252 | A step appends exactly the reply turn and keeps the topic; when the reply fails, nothing is appended and the error is passed on. |
| Engine.ConversationHistory | banter-agents/engine/simulation.py:254-255 | `as_history` is one dict per turn, in order. |
| Engine.StepExtendsHistory | banter-agents/engine/simulation.py:244-255 | After a step the history is the earlier history plus the new turn's dict. |
| History.Records | banter-agents/demo_conversation.py:86-89 | Reading entries succeeds exactly when every entry is a dict with `speaker` and `text`, one result per entry, in order. |
| History.DemoLoadHistory | banter-agents/demo_conversation.py:82-90 | A list loads to turns of only speaker and text, or fails with `ValueError`; a non-iterable raises `TypeError`. |
| History.DemoHistoryRoundTrip | banter-agents/demo_conversation.py:86-89 | Loading what `as_history` wrote gives back the same turns. |
| History.AsyncLoadHistory | banter-agents/async_conversation.py:105-122 | A non-list raises `ValueError`; a list loads exactly when every entry is a dict with `speaker` and `text`, keeping order, with `llm_display` "" and `parameters` {} by default. |
| History.AsyncHistoryRoundTrip | banter-agents/async_conversation.py:111-121 | Loading what `as_history` wrote gives back the same turns, with empty label and parameters. |
| History.EntryTurns | banter-agents/async_conversation.py:236 | The conversation starts from one turn per loaded entry, in order. |
| Drivers.EngineStepAppends | banter-agents/engine/simulation.py:244-252 | A successful engine step appends one turn spoken by the agent's persona key. |
| Drivers.RunRound | banter-agents/demo_conversation.py:130-135 | One round appends one turn per agent, in agent order, and the first failure ends it. |
| Drivers.RunRounds | banter-agents/demo_conversation.py:129-135 | The rounds append turns whose speakers are the agent order repeated once per round. |
| Drivers.RoundsJoin | banter-agents/demo_conversation.py:129-135 | One round followed by the remaining rounds speaks the agent order once more. |
| Drivers.TurnAt | banter-agents/async_conversation.py:259-265 | After the rounds the transcript has `|pre| + rounds·n` turns, and turn `j` of round `r` is spoken by agent `j`. |
| Drivers.RoundsInOrder | banter-agents/demo_conversation.py:129-135 | After the rounds, turn `|pre| + r·n + j` is spoken by agent `j`. |
| Drivers.MissingKeys | banter-agents/demo_conversation.py:106 | The missing keys are exactly the requested keys that are not persona keys. |
| Drivers.SelectPersonas | banter-agents/demo_conversation.py:106-115 | Selection fails exactly when some key is unknown, with the error naming every missing key; otherwise it gives each key's persona in order. |
| Drivers.DemoAgents | banter-agents/demo_conversation.py:66-79 | The demo's agents have the default round rule and length limit, one per key, in order. |
| Drivers.DemoMain | banter-agents/demo_conversation.py:93-135 | Rounds below 1, a missing `OPENAI_API_KEY` and unknown keys are rejected in that order; on success the transcript is the history followed by the rounds of agent turns. |
| Drivers.AsyncAgents | banter-agents/async_conversation.py:226-229 | Each agent uses the client, label and voice-merged parameters its persona resolved to. |
| Drivers.SpeakerSettings | banter-agents/async_conversation.py:239 | `personas[speaker].llm` raises `KeyError` for an unknown speaker and `TypeError` for an unhashable one. |
| Drivers.HistoryLabel | banter-agents/async_conversation.py:239 | The label is the entry's own `llm_display`, else the persona's display, else its provider. |
| Drivers.RecordParameters | banter-agents/async_conversation.py:244 | The parameters are the entry's own, else those recorded for its speaker, else {}. |
| Drivers.HistoryRecord | banter-agents/async_conversation.py:240-245 | A record holds the speaker, the label, the text and the parameters, and fails with the label's error. |
| Drivers.HistoryRecords | banter-agents/async_conversation.py:238-246 | One record per loaded entry, in order, exactly when every record can be written. |
| Drivers.HistoryUnknownSpeaker | banter-agents/async_conversation.py:239 | An entry without a label whose speaker is not a persona ends the loop with `KeyError`. |
| Drivers.HistoryOwnLabels | banter-agents/async_conversation.py:238-246 | Entries with their own label and parameters are written as they are. |
| Drivers.HistoryRecordsSameParams | banter-agents/async_conversation.py:244 | Records depend on the recorded parameters only through their values per speaker. |
| Drivers.ClientParams | banter-agents/async_conversation.py:200-204 | The parameters the client map records are those of the selected personas. |
| Drivers.RunAsync | banter-agents/async_conversation.py:209-265 | Rounds below 1 and unknown keys are rejected first, then the first unbuildable persona's error, then a history load error, then a history record error; otherwise the history is written out as records before any step, and each round every agent speaks once, in order. |
| Drivers.StartAsync | banter-agents/async_conversation.py:209-224 | The checks before the history succeed exactly when the rounds are at least 1, every key is a persona and every persona builds; each failure is the one the first failing check raises. |
| Drivers.Preload | banter-agents/async_conversation.py:234-246 | Without a history nothing is preloaded; a load error or a record error ends the run; otherwise the loaded turns and their records are returned. |
| LlmSetup.DefaultKeyEnv | banter-agents/async_conversation.py:149-157 | There is a default key variable exactly for openai, gemini and grok. |
| LlmSetup.GetApiKey | banter-agents/async_conversation.py:140-162 | An explicit key must be a string and comes with `api_key_env` or ""; otherwise the key comes from the named or default variable, and is missing for an unknown provider or an unset or empty variable (`SystemExit`). |
| LlmSetup.DefaultKeyVariables | banter-agents/async_conversation.py:149-162 | Without a key or variable name, openai, gemini and grok read their own variables, and other providers fail. |
| LlmSetup.ApiKeyShape | banter-agents/async_conversation.py:140-162 | A returned key is never empty; one read from the environment is the value of the returned variable name. |
| LlmSetup.ApiKeyFrame | banter-agents/async_conversation.py:159 | Environments that agree on the one variable read give the same result. |
| LlmSetup.StyleVoice | banter-agents/async_conversation.py:201-202 | A persona's voice is a non-empty string. |
| LlmSetup.ResolveSettings | banter-agents/async_conversation.py:174-199 | The provider is the configured or default one, lower-cased; the model is the configured or default one and must be truthy, and an unhashable model raises `TypeError` at the cache lookup; the key comes from `get_api_key`; the cache id is the variable name or `key:` and the hash; the display is the configured non-empty string or the provider. |
| LlmSetup.CacheIndex | banter-agents/async_conversation.py:188 | The cache lookup finds the client with the cache key, or reports that none has it. |
| LlmSetup.FirstWithKey | banter-agents/async_conversation.py:186-195 | The first selected persona with a given cache key is the one found. |
| LlmSetup.FirstUnbuildable | banter-agents/async_conversation.py:174-196 | The first persona the loop cannot get through is the one found. |
| LlmSetup.AddPersona | banter-agents/async_conversation.py:188-204 | Adding a persona keeps the earlier cache, links the persona to a client with its cache key and changes no other persona. |
| LlmSetup.AddPersonaLinked | banter-agents/async_conversation.py:186-195 | After a persona is added every resolved persona still points at a cached client with its cache key. |
| LlmSetup.AddPersonaFirst | banter-agents/async_conversation.py:186-195 | After a persona is added every cached client is still built from the first persona with its cache key. |
| LlmSetup.AddPersonaKeeps | banter-agents/async_conversation.py:174-204 | One pass of the loop keeps the loop's invariant for one persona more. |
| LlmSetup.AddPersonaCovered | banter-agents/async_conversation.py:196-204 | After a persona is added, the personas resolved so far are exactly one more of the selected ones. |
| LlmSetup.ShareClients | banter-agents/async_conversation.py:171-206 | The loop succeeds exactly when every selected persona can be built; it resolves exactly the selected personas; each cached client is built from the first persona with its cache key; failure is the first unbuildable persona's error. |
| LlmSetup.BuildLlmClients | banter-agents/async_conversation.py:165-206 | `build_llm_clients` as the sharing loop over the resolved settings, with the same guarantees. |
| LlmSetup.SharedClients | banter-agents/async_conversation.py:186-188 | Two personas share a client exactly when they agree on provider, model and cache id. |
| LlmSetup.AgentParameters | banter-agents/async_conversation.py:87-93 | The parameters copy the base and add the persona's voice as `style.voice` unless a voice is present; a non-dict `style` is left alone. |
| LlmSetup.AgentParametersStable | banter-agents/async_conversation.py:87-93 | Adding the voice to parameters that already carry it changes nothing. |
| Clients.MergeOptions | banter-agents/engine/clients.py:52-55 | Merged options hold every default and override key, and overrides win. |
| Clients.MergeKeepsDefaults | banter-agents/engine/clients.py:52-55 | Every default survives a merge, with its own value unless overridden. |
| Clients.Required | banter-agents/engine/clients.py:58 | `msg[k]` succeeds exactly when the key is present, with its value; otherwise `KeyError`. |
| Clients.FormatMessages | banter-agents/engine/clients.py:57-58 | Formatting succeeds exactly when every message has role and content, and keeps only those, one per message, in order. |
| Clients.FormatKeepsRoleContent | banter-agents/engine/clients.py:58 | Each formatted message holds exactly the original role and content. |
| Clients.FormatIdempotent | banter-agents/engine/clients.py:57-58 | Formatting formatted messages changes nothing. |
| Clients.OpenAIExtractText | banter-agents/engine/clients.py:60-62 | The reply is the first choice's content, or "" when it has none; no choices raise. |
| Clients.OpenAIFirstChoiceOnly | banter-agents/engine/clients.py:61 | Only the first choice matters. |
| Clients.GeminiInit | banter-agents/engine/clients.py:84-94 | A missing key fails; otherwise the model, generation config, safety settings and timeout (default 30) are taken from the options. |
| Clients.ChatMessages | banter-agents/engine/clients.py:118-131 | A message is kept exactly when it is in the input, has text and is not a system message; at most as many messages as the input. |
| Clients.ChatMessagesSplit | banter-agents/engine/clients.py:118-131 | Filtering a concatenation is concatenating the filtered halves, so the kept messages keep their order. |
| Clients.ChatMessagesOne | banter-agents/engine/clients.py:121-125 | A single message is kept exactly when it has text and its role is not `system`. |
| Clients.GeminiChatContents | banter-agents/engine/clients.py:126-131 | One content entry per kept chat message, in order; an unhashable role raises `TypeError`. |
| Clients.ContentsOf | banter-agents/engine/clients.py:126-131 | One `contents` entry per chat message, in order. |
| Clients.PayloadContents | banter-agents/engine/clients.py:133-134 | `contents` is never empty: one empty user part stands in for no chat messages. |
| Clients.PayloadDict | banter-agents/engine/clients.py:136-146 | Every key of the payload dict looks up the payload's entry for it. |
| Clients.PayloadDictKeys | banter-agents/engine/clients.py:136-146 | The payload always holds `contents` and no keys but the four Gemini ones. |
| Clients.GeminiBuildPayload | banter-agents/engine/clients.py:114-148 | `system_instruction` is present exactly when there are system texts, joined by a blank line; generation config and safety settings appear exactly when truthy, and then hold the configured values. |
| Clients.FirstDecided | banter-agents/engine/clients.py:152-157 | The loop returns the first element's decision, or nothing when no element decides. |
| Clients.FirstDecidedAt | banter-agents/engine/clients.py:152-157 | When element `i` is the first that decides, the loop returns its decision. |
| Clients.ExtractFirst | banter-agents/engine/clients.py:151-158 | Extraction succeeds only on a dict response. |
| Clients.ExtractFirstFound | banter-agents/engine/clients.py:151-157 | The first entry with a text gives the reply. |
| Clients.ExtractFirstFallback | banter-agents/engine/clients.py:158 | With no entry holding a text, the reply is the fallback entry or "". |
| Clients.GeminiPartTexts | banter-agents/engine/clients.py:155 | The kept part texts are truthy; a part that is not a dict raises. |
| Clients.GeminiPartTextsOne | banter-agents/engine/clients.py:155 | One dict part contributes its text exactly when that text is truthy. |
| Clients.GeminiPartTextsSplit | banter-agents/engine/clients.py:155 | The texts of a concatenation of parts are the texts of the first half followed by those of the second; the first failure wins. |
| Clients.GeminiCandidateText | banter-agents/engine/clients.py:153-157 | A candidate has text exactly when its parts have truthy texts, all strings; the text is their concatenation and is non-empty; a non-string text raises. |
| Clients.GeminiExtractText | banter-agents/engine/clients.py:150-158 | A reply is read only from a dict whose candidates are a list; it is a non-empty string from a candidate or else the `text` field or "". |
| Clients.GeminiReplyFallback | banter-agents/engine/clients.py:158 | When no candidate has text, the reply is the `text` field or "". |
| Clients.GeminiReplyFromCandidate | banter-agents/engine/clients.py:152-157 | The first candidate with texts decides the reply: it is their concatenation. |
| Clients.GrokInit | banter-agents/engine/clients.py:180-189 | A missing key fails; `timeout` (default 30) is popped, and the defaults are the other options. |
| Clients.GrokBuildPayload | banter-agents/engine/clients.py:210-218 | The payload is exactly model and messages; one message per input, with a single empty user message for none. |
| Clients.GrokMessages | banter-agents/engine/clients.py:210-214 | One formatted message per message, in order. |
| Clients.NonNull | banter-agents/engine/clients.py:195 | The comprehension keeps exactly the entries whose value is not `None`. |
| Clients.GrokRequestPayload | banter-agents/engine/clients.py:192-195 | The posted payload is the built one updated with the defaults and options that are not `None`. |
| Clients.GrokNullOptionIgnored | banter-agents/engine/clients.py:195 | An option set to `None` leaves the built payload's entry alone. |
| Clients.GrokPieces | banter-agents/engine/clients.py:228 | The kept pieces are truthy, and there are none exactly when no part is a dict with text. |
| Clients.GrokPiecesOne | banter-agents/engine/clients.py:228 | One part contributes its text exactly when it is a dict with truthy text. |
| Clients.GrokPiecesSplit | banter-agents/engine/clients.py:228 | The pieces of a concatenation of parts are those of the first half followed by those of the second. |
| Clients.GrokChoiceText | banter-agents/engine/clients.py:223-230 | String content is the text verbatim; list content gives the concatenation of its pieces when there are any and all are strings; any other content gives none. |
| Clients.GrokExtractText | banter-agents/engine/clients.py:220-231 | A reply is read only from a dict whose choices are a list; it is a string from a choice or else the `output` field or "". |
| Clients.GrokReplyFromChoice | banter-agents/engine/clients.py:222-230 | The first choice with text decides the reply. |
| Clients.GrokReplyFallback | banter-agents/engine/clients.py:231 | When no choice has text, the reply is the `output` field or "". |
| Clients.GrokStringContentVerbatim | banter-agents/engine/clients.py:225-226 | When the first choice's message content is a string, the reply is that string verbatim, even "". |
| VoiceRegistry.NormalizeAgentIdempotent | speak_agent.py:15-16 | Normalising a normalised id changes nothing. |
| VoiceRegistry.FirstMatch | speak_agent.py:28-30 | The first entry whose normalised key matches is found, and none before it matches. |
| VoiceRegistry.FindExisting | speak_agent.py:26-31 | The lookup finds nothing exactly when no key matches, and otherwise a matching entry. |
| VoiceRegistry.FindExistingCaseInsensitive | speak_agent.py:26-31 | Ids that normalise alike find the same assignment. |
| VoiceRegistry.FirstMatchAlike | speak_agent.py:26-31 | Ids that normalise alike find the same first entry. |
| VoiceRegistry.Without | speak_agent.py:43 | The voices left are exactly those of the list outside the excluded set. |
| VoiceRegistry.GetOrAssignVoice | speak_agent.py:34-52 | An existing non-empty voice is reused and recorded under the exact id; otherwise a usable voice nobody has is preferred, then any usable voice, and no usable voice raises `RuntimeError`. |
| VoiceRegistry.SpeakForAgent | speak_agent.py:55-60 | Empty text raises `ValueError` before any assignment. |
| VoiceRegistry.ClearVoiceAssignment | speak_agent.py:81-87 | At most the first matching entry is removed, and nothing else changes. |
| VoiceRegistry.DropVoice | speak_agent.py:93-95 | Exactly the assignments to the voice are removed. |
| VoiceRegistry.DropVoiceUnique | speak_agent.py:93-95 | Dropping assignments never repeats an agent. |
| VoiceRegistry.MarkVoiceUnusable | speak_agent.py:90-95 | The voice joins the unusable set, and every assignment to it is removed. |
| VoiceRegistry.MarkedVoiceNeverAssigned | speak_agent.py:34-95 | A voice marked unusable is never assigned afterwards. |
| VoiceRegistry.OperationsKeepUnusableUnassigned | speak_agent.py:34-95 | Every registry operation keeps unusable voices unassigned. |
| PlaybackServer.Normalize | agent_server.py:78-79 | The result has no spaces or underscores and is no longer than the input. |
| PlaybackServer.NormalizeIdempotent | agent_server.py:78-79 | Normalising twice is normalising once. |
| PlaybackServer.RemoveAbsent | agent_server.py:79 | Removing a character that does not occur changes nothing. |
| PlaybackServer.Score | agent_server.py:53-59 | 3 for an exact match, 2 when the non-empty id is inside the stem, else 1. |
| PlaybackServer.CandidateOrder | agent_server.py:63 | The candidate order (score descending, then lower-cased name) is total and transitive. |
| PlaybackServer.FirstWhere | agent_server.py:65-69 | The first candidate that is accepted is found, and none before it is. |
| PlaybackServer.FirstWhereIsLeast | agent_server.py:63-69 | The first accepted candidate of a sorted list comes first among the accepted ones. |
| PlaybackServer.GetOrAssignImage | agent_server.py:43-75 | An existing image on disk is returned unchanged; otherwise no directory or no images raise `RuntimeError`, and the chosen image is recorded under the id. |
| PlaybackServer.ChosenIsBest | agent_server.py:63-72 | When some image is free or an exact match, the chosen one is, and it comes first in the candidate order; otherwise the random pick is used. |
| PlaybackServer.ExactMatchWins | agent_server.py:55-69 | An agent with an image named after it gets such an image. |
| PlaybackServer.TileOf | agent_server.py:153-160 | A tile shows the agent's recorded text and voice, or nothing when it has no state. |
| PlaybackServer.Tiles | agent_server.py:150-161 | The tiles are exactly those of assigned agents whose images exist. |
| PlaybackServer.ParticipantsSorted | agent_server.py:163 | Participants are sorted by agent id and are exactly the tiles. |
| PlaybackServer.ActiveId | agent_server.py:165 | The active id is the stripped query, else the last speaker. |
| PlaybackServer.SelectActive | agent_server.py:167-175 | The spotlight is the first participant with the active id and text; else the first with text, with none with text before it; else index 0; none only when there are no participants. |
| PlaybackServer.Others | agent_server.py:177 | The others are all participants but the active one. |
| PlaybackServer.BuildParticipantContext | agent_server.py:148-185 | There is an active participant exactly when there are participants; the others and the active one make up the participants; the version is the state's. |
| PlaybackServer.HandleSpeech | agent_server.py:188-212 | Empty text raises `ValueError` and changes nothing; success raises the version by exactly one and records the voice, image and utterance. |
| PlaybackServer.LastSpeakerActive | agent_server.py:165-175 | Without a query, the last speaker with an image and text is in the spotlight. |
| PlaybackServer.SpeakerTakesSpotlight | agent_server.py:165-212 | After an agent speaks, the page without a query shows that agent and its text. |
| PlaybackServer.HandleAll | agent_server.py:210-211 | Over a run of requests the version rises by the number of successful ones. |
| ElevenLabs.VoiceGender | tts_voice/elevenlabs.py:45-54 | The gender is the record's own lower-cased gender, else that of a dict `labels`, else "". |
| ElevenLabs.VoiceIds | tts_voice/elevenlabs.py:58-61 | Records without a truthy id are skipped. |
| ElevenLabs.MatchingIds | tts_voice/elevenlabs.py:62-65 | Without a preference nothing matches. |
| ElevenLabs.FallbackIds | tts_voice/elevenlabs.py:67 | When nothing matches, the fallback is every id in order. |
| ElevenLabs.PartitionSizes | tts_voice/elevenlabs.py:56-67 | Matching and fallback split the kept ids between them. |
| ElevenLabs.MatchingOnlyPreferred | tts_voice/elevenlabs.py:62-65 | Every matching id belongs to a record of the preferred gender. |
| ElevenLabs.FetchAvailableVoices | tts_voice/elevenlabs.py:43-85 | With a preference some voice matches, exactly the matching ids; otherwise every id in order; none raises `RuntimeError`. |
| ElevenLabs.CheckSpeakText | tts_voice/elevenlabs.py:102-103 | Empty text raises `ValueError`. |
| Readers.ReplyComments | readers/reddit_reader.py:41-47 | Replies with text become comments whose author can go into a set. |
| Readers.ReplyCommentsOne | readers/reddit_reader.py:42-47 | One reply gives no comment without text, `TypeError` for an unhashable author, and otherwise one comment by its author, "UnknownReply" by default. |
| Readers.ReplyCommentsSplit | readers/reddit_reader.py:41-47 | The comments of a concatenation of replies are those of the first half followed by those of the second; the first failure wins. |
| Readers.EntryComments | readers/reddit_reader.py:34-47 | An entry's comments are its own comment, when it has text, followed by the comments of its replies; an unhashable author raises `TypeError`. |
| Readers.FlattenComments | readers/reddit_reader.py:32-47 | Flattening succeeds exactly when every entry can be read. |
| Readers.FlattenWith | readers/reddit_reader.py:32-47 | The comments are read entry by entry and the walk succeeds exactly when every entry does. |
| Readers.FlattenAppend | readers/reddit_reader.py:34-47 | A thread split in two flattens to the two halves' comments in order. |
| Readers.FlattenKeepsText | readers/reddit_reader.py:37-47 | Every kept comment has text and a hashable author. |
| Readers.Users | readers/reddit_reader.py:33-47 | The users are exactly the authors of the kept comments. |
| Readers.RedditAssignVoices | readers/reddit_reader.py:19-24 | The `i`-th user gets voice `i mod n` of the shuffled list; no voices with users raise. |
| Readers.RedditVoicesFromList | readers/reddit_reader.py:19-24 | Every user gets one of the voices. |
| Readers.RedditDistinctVoices | readers/reddit_reader.py:22-24 | With at least as many distinct voices as users, no two users share one. |
| Readers.InSomeOrder | readers/twitter_reader.py:64 | A set listed in some order holds each element once. |
| Readers.CommentVoices | readers/reddit_reader.py:49-53 | Each kept comment gets a voice of the list, and comments by one user share a voice. |
| Readers.VoiceOfEach | readers/reddit_reader.py:52-53 | Each comment is read with the voice of its user. |
| Readers.ReadComments | readers/reddit_reader.py:29-53 | It fails exactly when flattening fails or there are comments but no voices; each comment gets a voice of the list, one per user. |
| Readers.TwitterAssignVoices | readers/twitter_reader.py:17-26 | Every user gets a voice of the list, which is never changed; with distinct voices and no more users than voices, the assignment is one-to-one. |
| Readers.TwitterVoices | readers/twitter_reader.py:62-70 | Users are de-duplicated, every tweet gets a voice, and tweets by one user share it. |
| Readers.PermutationDistinct | readers/reddit_reader.py:20 | Shuffling keeps a list free of repeats. |
| Readers.PermutationElements | readers/reddit_reader.py:20 | Shuffling keeps the length and the elements. |
| Readers.DistinctAtMostOnce | readers/twitter_reader.py:64 | A list without repeats holds each element at most once. |

## Left out

- Text.Lower: lower-cases ASCII letters only, while `str.lower` is Unicode. The same
  gap reaches VoiceRegistry.NormalizeAgent and VoiceRegistry.SameAgent
  (speak_agent.py:16, 29), PlaybackServer.Normalize (agent_server.py:79),
  ElevenLabs.PreferredGender and ElevenLabs.GenderField (tts_voice/elevenlabs.py:43-54),
  and the provider in LlmSetup.ResolveSettings (async_conversation.py:177). Ids such
  as "Émile" and "émile" count as different agents in the model.
- Values.ToStr: `str` of lists, dicts and pairs always quotes strings with `'` and
  escapes nothing, so `str(["it's"])` is `['it's']` in the model. `Value` has no
  float, so `str` of a float is not modelled.
- Values.Repr: the same quoting approximation as Values.ToStr.
- Templates.Member: a member lookup on a value that is not a dict gives `None`.
  Python calls `getattr` there (simulation.py:179), which can return attributes such
  as bound methods of strings.
- Dicts.Set: dict keys are strings only. Non-string keys of parsed JSON or YAML are
  not modelled. A `TypeError` for an unhashable value is modelled at these sites:
  the Reddit authors (Readers.EntryComments, Readers.ReplyComments), the Gemini
  role (Clients.GeminiChatContents), the history speaker (Drivers.SpeakerSettings)
  and the model inside the client cache key (LlmSetup.ResolveSettings).
- History.HistoryEntry: stands in for `ConversationTurn(speaker=, text=, llm_display=,
  parameters=)` (async_conversation.py:114-121). The engine's `ConversationTurn`
  (simulation.py:58-63) has no such fields, so the label and parameters are kept
  beside the turn.
- LlmSetup.Setup: its `llmConfigs` entry and LlmSetup.LlmOf stand in for
  `persona.llm`, which the engine's `Persona` (simulation.py:16-24) does not have.
- Drivers.LabelledAgent: stands in for `Agent(llm_display=, parameters=)`
  (async_conversation.py:94-102). The engine's `Agent` (simulation.py:190-199) has
  no such fields.
- Drivers.RunAsync: `Conversation` defines no `astep`, so each turn is taken with
  `step` (async_conversation.py:261). The records of the rounds (lines 266-274) read
  `turn.llm_display`, which the engine's turns do not have, and are not modelled.
  `resolve_hook`, the hook calls, `broadcast_to_flask`, the delay and all printing
  are not modelled.
- Drivers.DemoMain: printing is not modelled; the OpenAI client is a parameter.
- Engine.Respond: the renderer object is not a field of the agent. Every agent
  renders with the one stateless renderer.
- Clients.OpenAIExtractText: the response object is reduced to the contents of its
  choices. The SDK objects, `complete` and `acomplete` are network calls and are
  not modelled.
- Clients.GeminiInit: the `requests` import check, the session, the endpoint URL and
  the network body of `complete` are not modelled. Neither is the
  `generation_config` merge of the call's options (clients.py:98-99).
- Clients.GrokInit: the `requests` import check, the session and the HTTP post are
  not modelled.
- LlmSetup.ResolveSettings: `hash(api_key)` is an opaque function parameter.
- LlmSetup.BuildLlmClients: clients are described by their constructor arguments
  (`ClientSpec`). The driver turns a description into a model through a parameter.
- VoiceRegistry.GetOrAssignVoice: the provider's voice list and the random draw are
  parameters. The cache of `_load_available_voices` is not modelled.
- VoiceRegistry.SpeakForAgent: the speech itself is I/O and is not modelled.
- PlaybackServer.HandleSpeech: models the call when playback succeeds. The fallback
  chain after a failed playback (`_attempt_elevenlabs_retry`,
  `_attempt_inworld_fallback`) depends on external failures and is not modelled.
- PlaybackServer.BuildParticipantContext: the image URLs (`url_for`) and the Flask
  routes are not modelled.
- PlaybackServer.GetOrAssignImage: which files exist and the directory listing are
  parameters. `random.choice` is an index parameter.
- ElevenLabs.FetchAvailableVoices: the HTTP request, the API key lookup and the
  printing are not modelled. The voice records are a parameter.
- ElevenLabs.CheckSpeakText: only the empty-text check of `speak` is modelled. The
  audio request and playback are I/O.
- Readers.ReadComments: loading the JSON file and speaking are I/O. The fallback
  `random.choice(voices)` at reddit_reader.py:53 is never used, because every kept
  comment's user has a voice.
- Readers.TwitterVoices: scraping tweets with Selenium (`scrape_tweets`) is I/O. The
  tweets are a parameter.
- `load_personas` and `load_prompts` (simulation.py:258-273) read YAML and text
  files. The model takes the parsed personas and prompts as values.
- `parse_args` and `main` of the drivers, and `main` of speak_agent.py, are argument
  parsing and console I/O.
