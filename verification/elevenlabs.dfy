/** The voice filtering of `tts_voice/elevenlabs.py`: which voice ids
    `fetch_available_voices` hands back for a preferred gender, and the check
    `speak` makes before synthesising. The HTTP request, the printing and the
    audio work are not modelled; the voices are the parsed `voices` records and
    the preferred gender is the raw environment setting. */
module ElevenLabs {
  import opened Wrappers
  import opened Text
  import opened Dicts
  import opened Values

  /** A voice record of the `voices` response. */
  type Voice = Dict<Value>

  /** `os.getenv("ELEVENLABS_VOICE_GENDER", "").strip().lower()` */
  function PreferredGender(raw: string): string {
    Lower(Strip(raw))
  }

  /** `str(d.get("gender", "") or "").lower()` */
  function GenderField(d: Dict<Value>): string {
    Lower(ToStr(Or(GetOr(d, "gender", Str("")), Str(""))))
  }

  /** `_voice_gender(entry)`: the record's own gender, else the gender among
      its labels when those form a dict, else `""`. */
  function VoiceGender(v: Voice): (g: string)
    ensures GenderField(v) != "" ==> g == GenderField(v)
    ensures GenderField(v) == "" && Lookup(v, "labels").Map? ==> g == GenderField(Lookup(v, "labels").entries)
    ensures GenderField(v) == "" && !Lookup(v, "labels").Map? ==> g == ""
  {
    var direct := GenderField(v);
    if direct != "" then direct
    else
      var labels := Lookup(v, "labels");
      if labels.Map? then GenderField(labels.entries) else ""
  }

  /** A record with a truthy `voice_id`. */
  predicate HasId(v: Voice) {
    Truthy(Lookup(v, "voice_id"))
  }

  /** The ids of the records that have one, in order. */
  function VoiceIds(vs: seq<Voice>): (r: seq<Value>)
    ensures |r| <= |vs|
    ensures forall x :: x in r ==> Truthy(x)
    decreases |vs|
  {
    if |vs| == 0 then []
    else (if HasId(vs[0]) then [Lookup(vs[0], "voice_id")] else []) + VoiceIds(vs[1..])
  }

  /** A record that goes to `matching`: it has an id, and a known gender equal
      to the preferred one. */
  predicate Matches(v: Voice, preferred: string, gender: Voice -> string) {
    HasId(v) && preferred != "" && gender(v) != "" && gender(v) == preferred
  }

  /** The ids collected in `matching`, in order. */
  function MatchingIds(vs: seq<Voice>, preferred: string, gender: Voice -> string): (r: seq<Value>)
    ensures |r| <= |VoiceIds(vs)|
    ensures preferred == "" ==> r == []
    decreases |vs|
  {
    if |vs| == 0 then []
    else (if Matches(vs[0], preferred, gender) then [Lookup(vs[0], "voice_id")] else [])
         + MatchingIds(vs[1..], preferred, gender)
  }

  /** The ids collected in `fallback`, in order. */
  function FallbackIds(vs: seq<Voice>, preferred: string, gender: Voice -> string): (r: seq<Value>)
    ensures MatchingIds(vs, preferred, gender) == [] ==> r == VoiceIds(vs)
    decreases |vs|
  {
    if |vs| == 0 then []
    else (if HasId(vs[0]) && !Matches(vs[0], preferred, gender) then [Lookup(vs[0], "voice_id")] else [])
         + FallbackIds(vs[1..], preferred, gender)
  }

  /** The loop of `fetch_available_voices` splits the ids it keeps between the
      two lists without losing or duplicating any: their lengths add up. */
  lemma {:induction false} PartitionSizes(vs: seq<Voice>, preferred: string, gender: Voice -> string)
    ensures |MatchingIds(vs, preferred, gender)| + |FallbackIds(vs, preferred, gender)| == |VoiceIds(vs)|
    decreases |vs|
  {
    if |vs| > 0 {
      PartitionSizes(vs[1..], preferred, gender);
    }
  }

  /** The ids `fetch_available_voices` returns for the preferred-gender setting
      `rawPreference`: with a preference that some voice matches, exactly the
      matching voices; otherwise every voice that has an id, in order. An empty
      result raises `RuntimeError`. */
  function FetchAvailableVoices(vs: seq<Voice>, rawPreference: string): (r: Result<seq<Value>>)
    ensures r.Failure? <==> |VoiceIds(vs)| == 0
    ensures r.Failure? ==> r.error.RuntimeError?
    ensures var p := PreferredGender(rawPreference);
            var m := MatchingIds(vs, p, VoiceGender);
            r.Success? ==> r.value == if p != "" && |m| > 0 then m else VoiceIds(vs)
  {
    var p := PreferredGender(rawPreference);
    var matching := MatchingIds(vs, p, VoiceGender);
    var fallback := FallbackIds(vs, p, VoiceGender);
    var result := if p != "" then (if |matching| > 0 then matching else fallback) else matching + fallback;
    if |result| == 0 then Failure(RuntimeError("No ElevenLabs voices available after filtering."))
    else Success(result)
  }

  /** Every returned id belongs to a record whose gender is the preferred one,
      when any record matches. */
  lemma {:induction false} MatchingOnlyPreferred(vs: seq<Voice>, preferred: string, gender: Voice -> string, i: nat)
    requires i < |MatchingIds(vs, preferred, gender)|
    ensures exists j :: 0 <= j < |vs| && Matches(vs[j], preferred, gender)
                        && MatchingIds(vs, preferred, gender)[i] == Lookup(vs[j], "voice_id")
    decreases |vs|
  {
    var head := if Matches(vs[0], preferred, gender) then [Lookup(vs[0], "voice_id")] else [];
    var rest := MatchingIds(vs[1..], preferred, gender);
    assert MatchingIds(vs, preferred, gender) == head + rest;
    if i < |head| {
      assert Matches(vs[0], preferred, gender);
    } else {
      MatchingOnlyPreferred(vs[1..], preferred, gender, i - |head|);
      var j :| 0 <= j < |vs[1..]| && Matches(vs[1..][j], preferred, gender)
               && rest[i - |head|] == Lookup(vs[1..][j], "voice_id");
      assert vs[j + 1] == vs[1..][j];
    }
  }

  /** `speak(text, voice_id)` refuses empty text with `ValueError` before
      anything else; otherwise the text goes on to synthesis unchanged. */
  function CheckSpeakText(text: string): (r: Result<string>)
    ensures r.Failure? <==> text == ""
    ensures r.Failure? ==> r.error.ValueError?
    ensures r.Success? ==> r.value == text
  {
    if text == "" then Failure(ValueError("Text to speak must be non-empty.")) else Success(text)
  }
}
