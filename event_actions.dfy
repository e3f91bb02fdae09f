/** Server actions of the event flow: the responses built inside
    `registerParticipant`, its replace-semantics transaction, the profile
    guard of `submitEventApplication`, and the status mapping of
    `getEventsWithUserStatus`.

    The current user is an explicit `Option`; schema validation results and
    the outcome of the database transaction are inputs. */
module EventActions {
  import opened Wrappers
  import opened ActionResults
  import opened ApplicationResponses
  import Text

  type UserId = string
  type EventId = string

  /** `ProfileFormValues` as far as this flow stores it. */
  datatype Profile = Profile(
    fullName: string, genderId: int, universityId: int, majorId: int, yearOfStudyId: int,
    interests: seq<int>, dietaryRestrictions: seq<int>)

  /** A `user_profiles` row as the upsert writes it. */
  datatype ProfileRow = ProfileRow(fullName: string, genderId: int, universityId: int, majorId: int, yearOfStudyId: int)

  function RowOf(p: Profile): ProfileRow {
    ProfileRow(p.fullName, p.genderId, p.universityId, p.majorId, p.yearOfStudyId)
  }

  // ----- The responses of registerParticipant -----

  /** The answer the loop reads for `key`: `applicationResponses[key]`, with
      the form's `attendedBefore` standing in for an undefined
      `attended_before`. */
  function ParticipantValue(e: EventOnlyFormValues, key: string): Value {
    var v := Get(e.applicationResponses, key);
    if key == "attended_before" && v == Undef then Bool(e.attendedBefore) else v
  }

  /** The question keys of a list. */
  function QuestionKeys(questions: seq<ApplicationQuestion>): set<string> {
    set i | 0 <= i < |questions| :: questions[i].key
  }

  /** Index `i` is the first required question whose answer is missing. */
  predicate FirstUnansweredParticipant(questions: seq<ApplicationQuestion>, e: EventOnlyFormValues, i: int) {
    && 0 <= i < |questions|
    && questions[i].required && IsEmptyValue(ParticipantValue(e, questions[i].key))
    && forall j :: 0 <= j < i ==> !(questions[j].required && IsEmptyValue(ParticipantValue(e, questions[j].key)))
  }

  /** Some required question has no answer. */
  predicate AnyUnanswered(questions: seq<ApplicationQuestion>, e: EventOnlyFormValues) {
    exists i :: 0 <= i < |questions| && questions[i].required && IsEmptyValue(ParticipantValue(e, questions[i].key))
  }

  /** The stored responses: one entry per question key, `undefined` stored as
      `null`, and `accommodations` set last, `null` when absent. */
  function ParticipantResponses(questions: seq<ApplicationQuestion>, e: EventOnlyFormValues): (r: Record)
    ensures r.Keys == QuestionKeys(questions) + {"accommodations"}
    ensures forall k :: k in r && k != "accommodations" ==>
      r[k] == Nullish(ParticipantValue(e, k), Null) && r[k] != Undef
    ensures r["accommodations"] == if e.accommodations.Some? then Str(e.accommodations.value) else Null
  {
    var answers := map k | k in QuestionKeys(questions) :: Nullish(ParticipantValue(e, k), Null);
    answers["accommodations" := if e.accommodations.Some? then Str(e.accommodations.value) else Null]
  }

  /** The loop of `registerParticipant` over the event's questions: the first
      required question without an answer aborts with `Required: <label ?? key>`;
      otherwise every question key gets its answer and `accommodations` is set.
      Keys of `applicationResponses` that are not question keys are dropped. */
  method BuildParticipantResponses(questions: seq<ApplicationQuestion>, event: EventOnlyFormValues)
    returns (r: BuildResult)
    ensures r.Rejected? <==> AnyUnanswered(questions, event)
    ensures r.Rejected? ==>
      exists i :: FirstUnansweredParticipant(questions, event, i) && r.error == "Required: " + DisplayName(questions[i])
    ensures r.Built? ==> r.responses == ParticipantResponses(questions, event)
  {
    var responses: Record := map[];
    for i := 0 to |questions|
      invariant responses.Keys == QuestionKeys(questions[..i])
      invariant forall k :: k in responses ==> responses[k] == Nullish(ParticipantValue(event, k), Null)
      invariant forall j :: 0 <= j < i ==>
        !(questions[j].required && IsEmptyValue(ParticipantValue(event, questions[j].key)))
    {
      var q := questions[i];
      var key := q.key;
      var value := Get(event.applicationResponses, key);
      if key == "attended_before" && value == Undef {
        value := Bool(event.attendedBefore);
      }
      if q.required {
        var empty := value == Undef || value == Null || (value.Str? && Text.IsBlank(value.s));
        if empty {
          assert FirstUnansweredParticipant(questions, event, i);
          return Rejected("Required: " + DisplayName(q));
        }
      }
      responses := responses[key := Nullish(value, Null)];
      assert questions[..i + 1] == questions[..i] + [q];
      assert QuestionKeys(questions[..i + 1]) == QuestionKeys(questions[..i]) + {key};
    }
    assert questions[..|questions|] == questions;
    responses := responses["accommodations" := if event.accommodations.Some? then Str(event.accommodations.value) else Null];
    return Built(responses);
  }

  /** The fallback makes an undefined `attended_before` answer count as
      answered; an explicit `null` or blank string still does not. */
  lemma AttendedBeforeFallback(e: EventOnlyFormValues)
    ensures Get(e.applicationResponses, "attended_before") == Undef ==>
      !IsEmptyValue(ParticipantValue(e, "attended_before"))
    ensures Get(e.applicationResponses, "attended_before") == Null ==>
      IsEmptyValue(ParticipantValue(e, "attended_before"))
  {
  }

  // ----- Event listing -----

  /** An `events` row, in the order of the `createdAt`-descending query. */
  datatype EventRow = EventRow(id: EventId, name: string, hasApplication: bool,
                               startsAt: Option<int>, endsAt: Option<int>, createdAt: int)

  datatype UserStatus = Applied | Registered | NoStatus

  datatype EventWithUserStatus = EventWithUserStatus(id: EventId, name: string, hasApplication: bool,
                                                     startsAt: Option<int>, endsAt: Option<int>, userStatus: UserStatus)

  /** `getEventsWithUserStatus()`: `allEvents` is the query result, and
      `applicationEventIds`, `attendeeEventIds` the user's application and
      attendee rows. */
  function EventsWithUserStatus(user: Option<UserId>, allEvents: seq<EventRow>,
                                applicationEventIds: seq<EventId>, attendeeEventIds: seq<EventId>)
    : (r: seq<EventWithUserStatus>)
    ensures user.None? ==> r == []
    ensures user.Some? ==> |r| == |allEvents|
    ensures user.Some? ==> forall i :: 0 <= i < |r| ==>
      && r[i].id == allEvents[i].id && r[i].name == allEvents[i].name
      && r[i].hasApplication == allEvents[i].hasApplication
      && r[i].startsAt == allEvents[i].startsAt && r[i].endsAt == allEvents[i].endsAt
      && (r[i].userStatus == Applied <==> allEvents[i].hasApplication && allEvents[i].id in applicationEventIds)
      && (r[i].userStatus == Registered <==> !allEvents[i].hasApplication && allEvents[i].id in attendeeEventIds)
  {
    if user.None? then []
    else
      var appliedSet := set i | 0 <= i < |applicationEventIds| :: applicationEventIds[i];
      var registeredSet := set i | 0 <= i < |attendeeEventIds| :: attendeeEventIds[i];
      seq(|allEvents|, i requires 0 <= i < |allEvents| =>
        var e := allEvents[i];
        EventWithUserStatus(e.id, e.name, e.hasApplication, e.startsAt, e.endsAt,
          if e.hasApplication then (if e.id in appliedSet then Applied else NoStatus)
          else (if e.id in registeredSet then Registered else NoStatus)))
  }

  /** An application event is never `registered` and a plain event never
      `applied`. */
  lemma StatusKindMatchesEvent(user: Option<UserId>, allEvents: seq<EventRow>,
                               applicationEventIds: seq<EventId>, attendeeEventIds: seq<EventId>)
    requires user.Some?
    ensures var r := EventsWithUserStatus(user, allEvents, applicationEventIds, attendeeEventIds);
      && (forall i :: 0 <= i < |r| && r[i].hasApplication ==> r[i].userStatus != Registered)
      && (forall i :: 0 <= i < |r| && !r[i].hasApplication ==> r[i].userStatus != Applied)
  {
  }

  // ----- The profile and application tables -----

  class ParticipantStore {
    /** `events.application_questions` by event id; `None` is SQL null. */
    var events: map<EventId, Option<seq<ApplicationQuestion>>>
    var profiles: map<UserId, ProfileRow>
    var interests: set<(UserId, int)>
    var dietaryRestrictions: set<(UserId, int)>
    var applications: map<(EventId, UserId), Record>

    constructor (events: map<EventId, Option<seq<ApplicationQuestion>>>)
      ensures this.events == events
      ensures profiles == map[] && interests == {} && dietaryRestrictions == {} && applications == map[]
    {
      this.events := events;
      profiles, interests, dietaryRestrictions, applications := map[], {}, {}, map[];
    }

    /** `eventRow?.applicationQuestions ?? []` */
    function QuestionsOf(eventId: EventId): seq<ApplicationQuestion>
      reads this
    {
      if eventId in events && events[eventId].Some? then events[eventId].value else []
    }

    /** The transaction of `registerParticipant`: upsert the profile, replace
        the user's interest and dietary rows by the submitted lists, upsert the
        application. `failure` is a database error inside the transaction,
        after which nothing is written. */
    method SaveApplication(userId: UserId, profile: Profile, eventId: EventId, responses: Record,
                           failure: Option<string>)
      returns (r: ActionResult<string>)
      modifies this
      ensures events == old(events)
      ensures failure.Some? ==> r == Fail("Failed to save event application.") && unchanged(this)
      ensures failure.None? ==> r == Ok(Some("Application saved successfully."))
      ensures failure.None? ==> profiles == old(profiles)[userId := RowOf(profile)]
      ensures failure.None? ==> applications == old(applications)[(eventId, userId) := responses]
      ensures failure.None? ==> forall u, i :: (u, i) in interests <==>
        if u == userId then i in profile.interests else (u, i) in old(interests)
      ensures failure.None? ==> forall u, i :: (u, i) in dietaryRestrictions <==>
        if u == userId then i in profile.dietaryRestrictions else (u, i) in old(dietaryRestrictions)
    {
      if failure.Some? {
        return Fail("Failed to save event application.");
      }
      profiles := profiles[userId := RowOf(profile)];
      interests := set row | row in interests && row.0 != userId;
      if |profile.interests| > 0 {
        interests := interests + set i | i in profile.interests :: (userId, i);
      }
      dietaryRestrictions := set row | row in dietaryRestrictions && row.0 != userId;
      if |profile.dietaryRestrictions| > 0 {
        dietaryRestrictions := dietaryRestrictions + set i | i in profile.dietaryRestrictions :: (userId, i);
      }
      applications := applications[(eventId, userId) := responses];
      r := Ok(Some("Application saved successfully."));
    }

    /** `registerParticipant(profileData, eventData, eventId)` for the current
        user `user`. `profileError` and `eventError` are the messages of failed
        schema validations. Every failure before the transaction writes nothing. */
    method RegisterParticipant(user: Option<UserId>, profile: Profile, profileError: Option<string>,
                               event: EventOnlyFormValues, eventError: Option<string>,
                               eventId: EventId, failure: Option<string>)
      returns (r: ActionResult<string>)
      modifies this
      ensures events == old(events)
      ensures user.None? ==> r == Fail("User not authenticated") && unchanged(this)
      ensures user.Some? && profileError.Some? ==>
        r == Fail("Profile validation failed: " + profileError.value) && unchanged(this)
      ensures user.Some? && profileError.None? && eventError.Some? ==>
        r == Fail("Event validation failed: " + eventError.value) && unchanged(this)
      ensures (user.Some? && profileError.None? && eventError.None? &&
               AnyUnanswered(old(QuestionsOf(eventId)), event)) ==>
        unchanged(this) &&
        exists i :: FirstUnansweredParticipant(old(QuestionsOf(eventId)), event, i) &&
          r == Fail("Required: " + DisplayName(old(QuestionsOf(eventId))[i]))
      ensures (user.Some? && profileError.None? && eventError.None? &&
               !AnyUnanswered(old(QuestionsOf(eventId)), event)) ==>
        && (failure.Some? ==> r == Fail("Failed to save event application.") && unchanged(this))
        && (failure.None? ==>
             && r == Ok(Some("Application saved successfully."))
             && profiles == old(profiles)[user.value := RowOf(profile)]
             && applications == old(applications)[(eventId, user.value) :=
                  ParticipantResponses(old(QuestionsOf(eventId)), event)]
             && (forall u, i :: (u, i) in interests <==>
                  if u == user.value then i in profile.interests else (u, i) in old(interests))
             && (forall u, i :: (u, i) in dietaryRestrictions <==>
                  if u == user.value then i in profile.dietaryRestrictions else (u, i) in old(dietaryRestrictions)))
    {
      if user.None? {
        return Fail("User not authenticated");
      }
      if profileError.Some? {
        return Fail("Profile validation failed: " + profileError.value);
      }
      if eventError.Some? {
        return Fail("Event validation failed: " + eventError.value);
      }
      var applicationQuestions := QuestionsOf(eventId);
      var built := BuildParticipantResponses(applicationQuestions, event);
      if built.Rejected? {
        return Fail(built.error);
      }
      r := SaveApplication(user.value, profile, eventId, built.responses, failure);
    }

    /** `submitEventApplication(eventData, eventId)`: the profile comes from
        `profileLookup` (the result of `getUserProfile`); a missing profile
        fails before anything is written. */
    method SubmitEventApplication(user: Option<UserId>, profileLookup: ActionResult<Profile>,
                                  profileError: Option<string>, event: EventOnlyFormValues,
                                  eventError: Option<string>, eventId: EventId, failure: Option<string>)
      returns (r: ActionResult<string>)
      modifies this
      ensures events == old(events)
      ensures user.None? ==> r == Fail("User not authenticated") && unchanged(this)
      ensures user.Some? && profileLookup.Failure? ==> r == Fail(profileLookup.error) && unchanged(this)
      ensures user.Some? && profileLookup == Ok(None) ==>
        r == Fail("Complete your profile first before applying to events.") && unchanged(this)
    {
      if user.None? {
        return Fail("User not authenticated");
      }
      if profileLookup.Failure? {
        return Fail(profileLookup.error);
      }
      if profileLookup.data.None? {
        return Fail("Complete your profile first before applying to events.");
      }
      r := RegisterParticipant(user, profileLookup.data.value, profileError, event, eventError, eventId, failure);
    }
  }
}
