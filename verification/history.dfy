/** Loading a prior conversation from the parsed contents of a history JSON file,
    as `load_history` does in `demo_conversation.py` and in
    `async_conversation.py`. Reading and parsing the file are not modelled. */
module History {
  import opened Wrappers
  import opened Dicts
  import opened Values
  import opened Engine

  /** An object with both a `speaker` and a `text` entry. */
  predicate IsTurnRecord(v: Value) {
    v.Map? && HasKey(v.entries, "speaker") && HasKey(v.entries, "text")
  }

  const BadEntry: Error := ValueError("History entries must be objects with 'speaker' and 'text'")

  /** Reads every entry with `f`, failing with `BadEntry` at the first entry
      that is not a turn record. */
  function Records<T>(entries: seq<Value>, f: Value -> T): (r: Result<seq<T>>)
    ensures r.Success? <==> forall i :: 0 <= i < |entries| ==> IsTurnRecord(entries[i])
    ensures r.Failure? ==> r.error == BadEntry
    ensures r.Success? ==> |r.value| == |entries|
    ensures r.Success? ==> forall i :: 0 <= i < |entries| ==> r.value[i] == f(entries[i])
    decreases |entries|
  {
    if |entries| == 0 then Success([])
    else if !IsTurnRecord(entries[0]) then Failure(BadEntry)
    else
      var rest :- Records(entries[1..], f);
      Success([f(entries[0])] + rest)
  }

  /** `ConversationTurn(speaker=entry["speaker"], text=entry["text"])` */
  function RecordTurn(v: Value): Turn {
    if v.Map? then Turn(Lookup(v.entries, "speaker"), Lookup(v.entries, "text")) else Turn(Null, Null)
  }

  /** `load_history` of the demo: every entry `for entry in raw` visits must be
      a turn record, and the turns keep only speaker and text, in order. A
      value that cannot be iterated raises `TypeError`. */
  function DemoLoadHistory(raw: Value): (r: Result<seq<Turn>>)
    ensures raw.Null? || raw.Bool? || raw.Int? ==> r.Failure? && r.error.TypeError?
    ensures raw.List? ==> r == Records(raw.items, RecordTurn)
  {
    var entries :- Iterate(raw);
    Records(entries, RecordTurn)
  }

  /** Loading what `as_history` wrote gives back the same turns. */
  lemma DemoHistoryRoundTrip(turns: seq<Turn>)
    ensures DemoLoadHistory(List(AsHistory(turns))) == Success(turns)
  {
    var h := AsHistory(turns);
    assert forall i :: 0 <= i < |h| ==> IsTurnRecord(h[i]) && RecordTurn(h[i]) == turns[i];
    var r := Records(h, RecordTurn);
    assert r.value == turns;
  }

  /** A history entry of the async script: the turn plus the `llm_display` and
      `parameters` the entry carries, by default `""` and `{}`. */
  datatype HistoryEntry = HistoryEntry(turn: Turn, llmDisplay: Value, parameters: Value)

  function AsyncEntry(v: Value): HistoryEntry {
    var d := if v.Map? then v.entries else [];
    HistoryEntry(RecordTurn(v), GetOr(d, "llm_display", Str("")), GetOr(d, "parameters", Map([])))
  }

  /** `load_history` of the async script: anything but a list raises
      `ValueError`, and so does an entry that is not a turn record. */
  function AsyncLoadHistory(raw: Value): (r: Result<seq<HistoryEntry>>)
    ensures !raw.List? ==> r == Failure(ValueError("History JSON must be a list of objects"))
    ensures raw.List? ==> (r.Success? <==> forall i :: 0 <= i < |raw.items| ==> IsTurnRecord(raw.items[i]))
    ensures r.Failure? ==> r.error.ValueError?
    ensures r.Success? ==> |r.value| == |raw.items|
    ensures r.Success? ==> forall i :: 0 <= i < |raw.items| ==>
              && r.value[i].turn == Turn(Get(raw.items[i].entries, "speaker").value, Get(raw.items[i].entries, "text").value)
              && r.value[i].llmDisplay == GetOr(raw.items[i].entries, "llm_display", Str(""))
              && r.value[i].parameters == GetOr(raw.items[i].entries, "parameters", Map([]))
  {
    if !raw.List? then Failure(ValueError("History JSON must be a list of objects"))
    else Records(raw.items, AsyncEntry)
  }

  /** The turns of a loaded async history. */
  function EntryTurns(es: seq<HistoryEntry>): (r: seq<Turn>)
    ensures |r| == |es| && forall i :: 0 <= i < |es| ==> r[i] == es[i].turn
  {
    seq(|es|, i requires 0 <= i < |es| => es[i].turn)
  }

  /** Loading what `as_history` wrote gives back the same turns, with the
      default display label and parameters. */
  lemma AsyncHistoryRoundTrip(turns: seq<Turn>)
    ensures var r := AsyncLoadHistory(List(AsHistory(turns)));
            && r.Success?
            && EntryTurns(r.value) == turns
            && forall i :: 0 <= i < |turns| ==> r.value[i].llmDisplay == Str("") && r.value[i].parameters == Map([])
  {
    var h := AsHistory(turns);
    forall i | 0 <= i < |h| ensures IsTurnRecord(h[i]) && !HasKey(h[i].entries, "llm_display")
                                   && !HasKey(h[i].entries, "parameters") {
      HasKeyIffInKeys(h[i].entries, "llm_display");
      HasKeyIffInKeys(h[i].entries, "parameters");
    }
    var r := AsyncLoadHistory(List(h));
    assert EntryTurns(r.value) == turns;
  }
}
