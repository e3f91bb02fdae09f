/** The `event_applications.responses` object: form keys (camelCase) mapped
    to response keys (snake_case), the pre-fill shape read back from stored
    responses, and the "required question must be answered" rule.

    `Record<string, unknown>` is a map to `Value`; reading a key that is
    absent yields `Undef`, JavaScript's `undefined`. */
module ApplicationResponses {
  import opened Wrappers
  import Text

  datatype Value = Undef | Null | Bool(b: bool) | Str(s: string) | Num(n: int) | Other

  type Record = map<string, Value>

  /** `record[key]` */
  function Get(r: Record, key: string): Value {
    if key in r then r[key] else Undef
  }

  /** `v ?? d` */
  function Nullish(v: Value, d: Value): Value {
    if v == Undef || v == Null then d else v
  }

  datatype QuestionType = BooleanQuestion | TextQuestion | SelectQuestion

  /** `ApplicationQuestion` (`labelText` is its `label`); an omitted `required` is `false`. Select options
      only drive rendering and are not part of this model. */
  datatype ApplicationQuestion = ApplicationQuestion(
    key: string, labelText: Option<string>, questionType: Option<QuestionType>, required: bool)

  /** `EventOnlyFormValues`: `attendedBefore` is a required boolean,
      `accommodations` an optional string. */
  datatype EventOnlyFormValues = EventOnlyFormValues(
    attendedBefore: bool, accommodations: Option<string>, applicationResponses: Record)

  /** `RESPONSE_KEY_MAP`, in its entry order. */
  const ResponseKeyMap: seq<(string, string)> :=
    [("attendedBefore", "attended_before"), ("accommodations", "accommodations")]

  const AttendedBeforeKey: string := ResponseKeyMap[0].1
  const AccommodationsKey: string := ResponseKeyMap[1].1

  /** `(eventData as Record<string, unknown>)[formKey]` */
  function FormField(e: EventOnlyFormValues, formKey: string): Value {
    if formKey == "attendedBefore" then Bool(e.attendedBefore)
    else if formKey == "accommodations" then
      (if e.accommodations.Some? then Str(e.accommodations.value) else Undef)
    else if formKey == "applicationResponses" then Other
    else Undef
  }

  /** The writes of the `for` loop of `toResponseKeys` over `entries`,
      starting from `out`: a defined form field overwrites its response key. */
  function CopyMapped(entries: seq<(string, string)>, e: EventOnlyFormValues, out: Record): Record
    decreases |entries|
  {
    if entries == [] then out
    else
      var v := FormField(e, entries[0].0);
      CopyMapped(entries[1..], e, if v != Undef then out[entries[0].1 := v] else out)
  }

  /** What `toResponseKeys(eventData)` returns: every key of
      `applicationResponses` kept; `attended_before` always the form's
      boolean; `accommodations` the form's string when defined, otherwise
      whatever `applicationResponses` had there, absent included. */
  function ResponseKeys(e: EventOnlyFormValues): (r: Record)
    ensures forall k :: k in e.applicationResponses ==> k in r
    ensures forall k :: k in r ==>
      k in e.applicationResponses || k == "attended_before" || (k == "accommodations" && e.accommodations.Some?)
    ensures forall k :: k in e.applicationResponses && k != "attended_before" && k != "accommodations" ==>
      r[k] == e.applicationResponses[k]
    ensures "attended_before" in r && r["attended_before"] == Bool(e.attendedBefore)
    ensures e.accommodations.Some? ==>
      "accommodations" in r && r["accommodations"] == Str(e.accommodations.value)
    ensures e.accommodations.None? ==>
      ("accommodations" in r <==> "accommodations" in e.applicationResponses) &&
      Get(r, "accommodations") == Get(e.applicationResponses, "accommodations")
  {
    assert ResponseKeyMap[1..] == [("accommodations", "accommodations")];
    assert ResponseKeyMap[1..][1..] == [];
    CopyMapped(ResponseKeyMap, e, e.applicationResponses)
  }

  /** `toResponseKeys(eventData)`: copy the answers, then write the mapped
      form fields that are defined. */
  method ToResponseKeys(e: EventOnlyFormValues) returns (out: Record)
    ensures out == ResponseKeys(e)
  {
    out := e.applicationResponses;
    for i := 0 to |ResponseKeyMap|
      invariant CopyMapped(ResponseKeyMap[i..], e, out) == ResponseKeys(e)
    {
      var (formKey, dbKey) := ResponseKeyMap[i];
      assert ResponseKeyMap[i..][1..] == ResponseKeyMap[i + 1..];
      var v := FormField(e, formKey);
      if v != Undef {
        out := out[dbKey := v];
      }
    }
  }

  /** The pre-fill shape of `fromResponseKeys`. Its fields are read back with
      unchecked casts, so they keep whatever value the responses hold. */
  datatype Prefill = Prefill(attendedBefore: Value, accommodations: Value, applicationResponses: Record)

  /** `fromResponseKeys(responses)`: the responses unchanged, `attendedBefore`
      the stored value or `false` when absent or null, `accommodations` the
      stored value as is. */
  function FromResponseKeys(responses: Record): (p: Prefill)
    ensures p.applicationResponses == responses
    ensures Get(responses, "attended_before") == Undef || Get(responses, "attended_before") == Null ==>
      p.attendedBefore == Bool(false)
    ensures Get(responses, "attended_before") != Undef && Get(responses, "attended_before") != Null ==>
      p.attendedBefore == Get(responses, "attended_before")
    ensures p.accommodations == Get(responses, "accommodations")
  {
    Prefill(Nullish(Get(responses, AttendedBeforeKey), Bool(false)), Get(responses, AccommodationsKey), responses)
  }

  /** Round trip form -> responses -> pre-fill: `attendedBefore` always comes
      back, `accommodations` whenever it was given. */
  lemma PrefillRoundTrip(e: EventOnlyFormValues)
    ensures FromResponseKeys(ResponseKeys(e)).attendedBefore == Bool(e.attendedBefore)
    ensures e.accommodations.Some? ==>
      FromResponseKeys(ResponseKeys(e)).accommodations == Str(e.accommodations.value)
    ensures FromResponseKeys(ResponseKeys(e)).applicationResponses == ResponseKeys(e)
  {
  }

  /** Round trip responses -> pre-fill -> responses: resubmitting a pre-filled
      form whose stored `attended_before` is a boolean and `accommodations` a
      string writes back exactly the stored responses. */
  lemma ResubmitRoundTrip(responses: Record)
    requires Get(responses, "attended_before").Bool?
    requires Get(responses, "accommodations").Str?
    ensures var p := FromResponseKeys(responses);
      ResponseKeys(EventOnlyFormValues(p.attendedBefore.b, Some(p.accommodations.s), p.applicationResponses))
        == responses
  {
    var p := FromResponseKeys(responses);
    var e := EventOnlyFormValues(p.attendedBefore.b, Some(p.accommodations.s), p.applicationResponses);
    var r := ResponseKeys(e);
    assert r.Keys == responses.Keys;
    forall k | k in r ensures r[k] == responses[k] {
      if k == "attended_before" || k == "accommodations" {
        assert Get(responses, k) == responses[k];
      }
    }
  }

  /** An answer is missing when undefined, null or a blank string. */
  predicate IsEmptyValue(v: Value) {
    v == Undef || v == Null || (v.Str? && Text.IsBlank(v.s))
  }

  /** `q.label ?? q.key` */
  function DisplayName(q: ApplicationQuestion): string {
    q.labelText.GetOr(q.key)
  }

  /** A required question whose answer in `responses` is missing. */
  predicate Unanswered(q: ApplicationQuestion, responses: Record) {
    q.required && IsEmptyValue(Get(responses, q.key))
  }

  /** Index `i` is the first unanswered required question. */
  predicate FirstUnanswered(questions: seq<ApplicationQuestion>, responses: Record, i: int) {
    && 0 <= i < |questions|
    && Unanswered(questions[i], responses)
    && forall j :: 0 <= j < i ==> !Unanswered(questions[j], responses)
  }

  datatype BuildResult = Built(responses: Record) | Rejected(error: string)

  /** `buildApplicationResponses(questions, eventData)`: fails exactly when a
      required question is unanswered, naming the first one; otherwise returns
      `toResponseKeys(eventData)`. */
  method BuildApplicationResponses(questions: seq<ApplicationQuestion>, e: EventOnlyFormValues)
    returns (r: BuildResult)
    ensures r.Rejected? <==> exists i :: 0 <= i < |questions| && Unanswered(questions[i], ResponseKeys(e))
    ensures r.Rejected? ==>
      exists i :: FirstUnanswered(questions, ResponseKeys(e), i) && r.error == "Required: " + DisplayName(questions[i])
    ensures r.Built? ==> r.responses == ResponseKeys(e)
  {
    var responses := ToResponseKeys(e);
    for i := 0 to |questions|
      invariant forall j :: 0 <= j < i ==> !Unanswered(questions[j], responses)
    {
      var q := questions[i];
      var value := Get(responses, q.key);
      if q.required {
        var empty := value == Undef || value == Null || (value.Str? && Text.IsBlank(value.s));
        if empty {
          assert FirstUnanswered(questions, responses, i);
          return Rejected("Required: " + DisplayName(q));
        }
      }
    }
    return Built(responses);
  }

  /** In this builder `attended_before` is always the form's boolean, so a
      required `attended_before` question is never unanswered. */
  lemma AttendedBeforeAlwaysAnswered(e: EventOnlyFormValues, q: ApplicationQuestion)
    requires q.key == "attended_before"
    ensures !Unanswered(q, ResponseKeys(e))
  {
  }
}
