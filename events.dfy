/**
 * Events and team calendars as backend/src/controllers/eventController.js
 * handles them: admission of a new event (required fields, participant
 * check, strict-overlap conflict test, append to the team calendar),
 * creator-only update and delete, and voting on time-slot options.
 */
module Events {
  import opened Wrappers
  import opened JsValues

  /** An instant, in no fixed unit; date parsing is not modelled. */
  type Instant = int
  type UserId = string
  type EventId = string
  type TeamId = string

  datatype Interval = Interval(start: Instant, end: Instant)

  /** One option of an event's vote and the users who chose it. */
  datatype Vote = Vote(option: string, voters: seq<UserId>)

  predicate Distinct<T(==)>(s: seq<T>) {
    forall i, j :: 0 <= i < j < |s| ==> s[i] != s[j]
  }

  /** An event document. Only `title`, `date`, `participants` and `votes` are ever changed. */
  class Event {
    const id: EventId
    const startTime: Instant
    const endTime: Instant
    const createdBy: UserId
    var title: string
    var date: Option<string>
    var participants: seq<UserId>
    var votes: seq<Vote>

    constructor (id: EventId, title: string, startTime: Instant, endTime: Instant,
                 createdBy: UserId, participants: seq<UserId>)
      ensures this.id == id && this.title == title
      ensures this.startTime == startTime && this.endTime == endTime
      ensures this.createdBy == createdBy && this.participants == participants
      ensures date == None && votes == []
    {
      this.id := id;
      this.title := title;
      this.startTime := startTime;
      this.endTime := endTime;
      this.createdBy := createdBy;
      this.participants := participants;
      date := None;
      votes := [];
    }
  }

  /** A team's calendar document: the ids of its events, in insertion order. */
  class TeamCalendar {
    const team: TeamId
    const createdBy: UserId
    var events: seq<EventId>

    constructor (team: TeamId, createdBy: UserId)
      ensures this.team == team && this.createdBy == createdBy && events == []
    {
      this.team := team;
      this.createdBy := createdBy;
      events := [];
    }
  }

  // ---------------------------------------------------------------------------
  // Conflict detection
  // ---------------------------------------------------------------------------

  /** A candidate `[s, e)` conflicts with an existing event: the strict test of line 41. */
  predicate Conflicts(s: Instant, e: Instant, existing: Interval) {
    s < existing.end && e > existing.start
  }

  lemma ConflictsSymmetric(a: Interval, b: Interval)
    ensures Conflicts(a.start, a.end, b) <==> Conflicts(b.start, b.end, a)
  {
  }

  lemma TouchingDoesNotConflict(a: Interval, b: Interval)
    requires a.end == b.start || b.end == a.start
    ensures !Conflicts(a.start, a.end, b)
  {
  }

  /** `events.find(...)`: the position of the first existing event the candidate conflicts with. */
  function FindConflict(s: Instant, e: Instant, existing: seq<Interval>): (r: Option<nat>)
    ensures r.Some? ==> r.value < |existing| && Conflicts(s, e, existing[r.value])
    ensures r.Some? ==> forall k :: 0 <= k < r.value ==> !Conflicts(s, e, existing[k])
    ensures r.None? <==> forall k :: 0 <= k < |existing| ==> !Conflicts(s, e, existing[k])
  {
    if existing == [] then None
    else if Conflicts(s, e, existing[0]) then Some(0)
    else match FindConflict(s, e, existing[1..])
      case None => None
      case Some(k) => Some(k + 1)
  }

  /**
   * What the callback at lines 40-41 sees: `Event.findById(eventId)` is not
   * awaited, so `event` is a pending query whose `startTime` and `endTime` are
   * undefined. `Loaded` is what an awaited lookup would give.
   */
  datatype Lookup = Pending | Loaded(interval: Interval)

  function LookupStart(l: Lookup): Option<Instant> {
    if l.Loaded? then Some(l.interval.start) else None
  }

  function LookupEnd(l: Lookup): Option<Instant> {
    if l.Loaded? then Some(l.interval.end) else None
  }

  /** `a < b` in JavaScript where `b` may be undefined: a comparison with undefined is false. */
  predicate JsLess(a: Instant, b: Option<Instant>) {
    b.Some? && a < b.value
  }

  /** `a > b` in JavaScript where `b` may be undefined. */
  predicate JsGreater(a: Instant, b: Option<Instant>) {
    b.Some? && a > b.value
  }

  /** The test of line 41 as written, on whatever the lookup produced. */
  predicate ConflictsAsWritten(s: Instant, e: Instant, lookup: Lookup) {
    JsLess(s, LookupEnd(lookup)) && JsGreater(e, LookupStart(lookup))
  }

  /** On a loaded event the test as written is the intended strict-overlap test. */
  lemma AwaitedLookupConflicts(s: Instant, e: Instant, existing: Interval)
    ensures ConflictsAsWritten(s, e, Loaded(existing)) <==> Conflicts(s, e, existing)
  {
  }

  /** What the callback sees for each stored id when `findById` is not awaited. */
  function Unawaited(ids: seq<EventId>): (r: seq<Lookup>)
    ensures |r| == |ids| && forall k :: 0 <= k < |r| ==> r[k] == Pending
  {
    seq(|ids|, _ => Pending)
  }

  /** What an awaited lookup would give for each stored event. */
  function Awaited(existing: seq<Interval>): (r: seq<Lookup>)
    ensures |r| == |existing| && forall k :: 0 <= k < |r| ==> r[k] == Loaded(existing[k])
  {
    seq(|existing|, k requires 0 <= k < |existing| => Loaded(existing[k]))
  }

  /** `teamCalendar.events.find(...)` with the test as written, over the lookups' results. */
  function FindConflictAsWritten(s: Instant, e: Instant, lookups: seq<Lookup>): (r: Option<nat>)
    ensures r.Some? ==> r.value < |lookups|
  {
    if lookups == [] then None
    else if ConflictsAsWritten(s, e, lookups[0]) then Some(0)
    else match FindConflictAsWritten(s, e, lookups[1..])
      case None => None
      case Some(k) => Some(k + 1)
  }

  lemma {:induction false} UnawaitedLookupNeverConflicts(s: Instant, e: Instant, ids: seq<EventId>)
    ensures FindConflictAsWritten(s, e, Unawaited(ids)) == None
  {
    if ids != [] {
      UnawaitedLookupNeverConflicts(s, e, ids[1..]);
      assert Unawaited(ids)[1..] == Unawaited(ids[1..]);
    }
  }

  /** With the lookups awaited, the test as written finds exactly the intended first conflict. */
  lemma {:induction false} AwaitedLookupFindsConflict(s: Instant, e: Instant, existing: seq<Interval>)
    ensures FindConflictAsWritten(s, e, Awaited(existing)) == FindConflict(s, e, existing)
  {
    if existing != [] {
      AwaitedLookupConflicts(s, e, existing[0]);
      AwaitedLookupFindsConflict(s, e, existing[1..]);
      assert Awaited(existing)[1..] == Awaited(existing[1..]);
    }
  }

  /** A candidate [0, 10) against a stored event [5, 15): the code as written admits it. */
  lemma ConflictCheckCounterexample()
    ensures FindConflictAsWritten(0, 10, Unawaited(["stored"])) == None
    ensures FindConflict(0, 10, [Interval(5, 15)]) == Some(0)
  {
    UnawaitedLookupNeverConflicts(0, 10, ["stored"]);
  }

  // ---------------------------------------------------------------------------
  // Event admission (createEvent)
  // ---------------------------------------------------------------------------

  /** The body of a create request; `None` stands for a missing or falsy field. */
  datatype CreateRequest = CreateRequest(
    title: string,
    startTime: Option<Instant>,
    endTime: Option<Instant>,
    participants: seq<UserId>,
    teamId: Option<TeamId>)

  datatype AdmitError = MissingFields | InvalidParticipants | Conflict(index: nat)

  predicate RequiredFieldsPresent(req: CreateRequest) {
    req.startTime.Some? && req.endTime.Some? && req.teamId.Some?
  }

  /**
   * `User.find({_id: {$in: participants}})` returns each known user once, and
   * the request is accepted when that count equals the list's length.
   */
  predicate ParticipantsValid(participants: seq<UserId>, users: set<UserId>) {
    |set p | p in participants && p in users| == |participants|
  }

  /** The users found for `head` followed by `rest`: one more than for `rest` exactly when `head` is new and known. */
  lemma FoundCons(head: UserId, rest: seq<UserId>, users: set<UserId>)
    ensures var found := set p | p in [head] + rest && p in users;
            var foundRest := set p | p in rest && p in users;
            if head in users && head !in rest then found == foundRest + {head} && head !in foundRest
            else found == foundRest
  {
  }

  lemma DistinctCons(head: UserId, rest: seq<UserId>)
    ensures Distinct([head] + rest) <==> head !in rest && Distinct(rest)
  {
    var s := [head] + rest;
    if head !in rest && Distinct(rest) {
      forall i, j | 0 <= i < j < |s| ensures s[i] != s[j] {
        assert s[j] == rest[j - 1];
        if i > 0 { assert s[i] == rest[i - 1]; }
      }
    }
    if Distinct(s) {
      forall j | 0 <= j < |rest| ensures rest[j] != head {
        assert s[0] == head && rest[j] == s[j + 1];
      }
      forall i, j | 0 <= i < j < |rest| ensures rest[i] != rest[j] {
        assert rest[i] == s[i + 1] && rest[j] == s[j + 1];
      }
    }
  }

  lemma KnownCons(head: UserId, rest: seq<UserId>, users: set<UserId>)
    ensures (forall i :: 0 <= i < |[head] + rest| ==> ([head] + rest)[i] in users) <==>
            head in users && forall i :: 0 <= i < |rest| ==> rest[i] in users
  {
    var s := [head] + rest;
    assert s[0] == head;
    assert forall i :: 0 <= i < |rest| ==> rest[i] == s[i + 1];
    if head in users && forall i :: 0 <= i < |rest| ==> rest[i] in users {
      forall i | 0 <= i < |s| ensures s[i] in users {
        if i > 0 { assert s[i] == rest[i - 1]; }
      }
    }
  }

  lemma {:induction false} ParticipantsValidIff(participants: seq<UserId>, users: set<UserId>)
    ensures |set p | p in participants && p in users| <= |participants|
    ensures ParticipantsValid(participants, users) <==>
            Distinct(participants) && forall i :: 0 <= i < |participants| ==> participants[i] in users
  {
    if participants == [] {
      assert (set p | p in participants && p in users) == {};
    } else {
      var head, rest := participants[0], participants[1..];
      assert participants == [head] + rest;
      ParticipantsValidIff(rest, users);
      FoundCons(head, rest, users);
      DistinctCons(head, rest);
      KnownCons(head, rest, users);
    }
  }

  /**
   * The checks of createEvent in their order: required fields (line 11),
   * participants (lines 21-24), conflicts over the intervals of the events the
   * calendar already lists (lines 39-47). Success gives the new event's interval.
   */
  function AdmitEvent(req: CreateRequest, users: set<UserId>, existing: seq<Interval>): (r: Result<Interval, AdmitError>)
    ensures !RequiredFieldsPresent(req) ==> r == Failure(MissingFields)
    ensures r.Success? <==>
            && RequiredFieldsPresent(req)
            && Distinct(req.participants)
            && (forall i :: 0 <= i < |req.participants| ==> req.participants[i] in users)
            && (forall k :: 0 <= k < |existing| ==> !Conflicts(req.startTime.value, req.endTime.value, existing[k]))
    ensures r.Success? ==> r.value == Interval(req.startTime.value, req.endTime.value)
    ensures r.Failure? && r.error.Conflict? ==>
            RequiredFieldsPresent(req) && r.error.index < |existing| &&
            Conflicts(req.startTime.value, req.endTime.value, existing[r.error.index])
    ensures RequiredFieldsPresent(req) && ParticipantsValid(req.participants, users) && r.Failure? ==> r.error.Conflict?
    ensures r == Failure(InvalidParticipants) <==>
            RequiredFieldsPresent(req) && !ParticipantsValid(req.participants, users)
  {
    ParticipantsValidIff(req.participants, users);
    if !RequiredFieldsPresent(req) then Failure(MissingFields)
    else if !ParticipantsValid(req.participants, users) then Failure(InvalidParticipants)
    else match FindConflict(req.startTime.value, req.endTime.value, existing)
      case Some(k) => Failure(Conflict(k))
      case None => Success(Interval(req.startTime.value, req.endTime.value))
  }

  /**
   * createEvent against an existing team calendar. `existing` holds the
   * intervals of the events the calendar lists, position by position, so a
   * `Conflict(k)` names the stored event `calendar.events[k]`; `users` the known user ids,
   * and `newId` the id the database gives the new event.
   */
  method CreateEvent(calendar: TeamCalendar, req: CreateRequest, requester: UserId,
                     users: set<UserId>, existing: seq<Interval>, newId: EventId)
    returns (r: Result<Event, AdmitError>)
    requires |existing| == |calendar.events|
    modifies calendar
    ensures r.Failure? ==> AdmitEvent(req, users, existing) == Failure(r.error)
    ensures r.Failure? ==> calendar.events == old(calendar.events)
    ensures r.Success? <==> AdmitEvent(req, users, existing).Success?
    ensures r.Success? ==>
              && fresh(r.value)
              && calendar.events == old(calendar.events) + [newId]
              && r.value.id == newId && r.value.title == req.title
              && r.value.startTime == req.startTime.value && r.value.endTime == req.endTime.value
              && r.value.createdBy == requester
              && r.value.participants == [requester] + req.participants
              && r.value.votes == []
  {
    var admitted := AdmitEvent(req, users, existing);
    match admitted
    case Failure(err) =>
      r := Failure(err);
    case Success(slot) =>
      var event := new Event(newId, req.title, slot.start, slot.end, requester, [requester] + req.participants);
      calendar.events := calendar.events + [newId];
      r := Success(event);
  }

  // ---------------------------------------------------------------------------
  // Update and delete (creator only)
  // ---------------------------------------------------------------------------

  datatype EditError = EventNotFound | NotCreator | InvalidParticipantIds

  /** `supplied || current` for a string field. */
  function OrElse(supplied: Option<string>, current: string): string {
    if Truthy(supplied) then supplied.value else current
  }

  /**
   * updateEvent on the document `findById` returned (null when there is none).
   * A title or date that is missing or empty keeps its old value; participants
   * keep their old value only when the field is absent (an array is truthy).
   */
  method UpdateEvent(event: Event?, requester: UserId, title: Option<string>, date: Option<string>,
                     participants: Option<seq<UserId>>, users: set<UserId>)
    returns (r: Outcome<EditError>)
    modifies event
    ensures event == null ==> r == Fail(EventNotFound)
    ensures event != null && event.createdBy != requester ==> r == Fail(NotCreator)
    ensures (event != null && event.createdBy == requester && participants.Some? &&
             !ParticipantsValid(participants.value, users)) ==> r == Fail(InvalidParticipantIds)
    ensures (event != null && event.createdBy == requester &&
             (participants.None? || ParticipantsValid(participants.value, users))) ==> r == Pass
    ensures r.Fail? ==> event == null || unchanged(event)
    ensures r.Pass? ==>
              && event != null && event.createdBy == requester
              && event.title == OrElse(title, old(event.title))
              && event.date == (if Truthy(date) then date else old(event.date))
              && event.participants == (if participants.Some? then participants.value else old(event.participants))
              && event.votes == old(event.votes)
  {
    if event == null {
      return Fail(EventNotFound);
    }
    if event.createdBy != requester {
      return Fail(NotCreator);
    }
    if participants.Some? && !ParticipantsValid(participants.value, users) {
      return Fail(InvalidParticipantIds);
    }
    event.title := OrElse(title, event.title);
    event.date := if Truthy(date) then date else event.date;
    event.participants := if participants.Some? then participants.value else event.participants;
    r := Pass;
  }

  /** deleteEvent: `Pass` means the document is deleted. */
  function DeleteEvent(event: Event?, requester: UserId): (r: Outcome<EditError>)
    ensures r.Pass? <==> event != null && event.createdBy == requester
    ensures event != null && event.createdBy != requester ==> r == Fail(NotCreator)
    ensures event == null ==> r == Fail(EventNotFound)
  {
    if event == null then Fail(EventNotFound)
    else if event.createdBy != requester then Fail(NotCreator)
    else Pass
  }

  lemma OnlyCreatorDeletes(event: Event, requester: UserId)
    requires requester != event.createdBy
    ensures DeleteEvent(event, requester) == Fail(NotCreator)
  {
  }

  // ---------------------------------------------------------------------------
  // Voting (addVoteToEvent)
  // ---------------------------------------------------------------------------

  datatype VoteError = OptionRequired | VoteEventNotFound | AlreadyVoted

  /** `votes.find(vote => vote.option === option)`, as a position. */
  function FindOption(votes: seq<Vote>, option: string): (r: Option<nat>)
    ensures r.Some? ==> r.value < |votes| && votes[r.value].option == option
    ensures r.Some? ==> forall k :: 0 <= k < r.value ==> votes[k].option != option
    ensures r.None? <==> forall k :: 0 <= k < |votes| ==> votes[k].option != option
  {
    if votes == [] then None
    else if votes[0].option == option then Some(0)
    else match FindOption(votes[1..], option)
      case None => None
      case Some(k) => Some(k + 1)
  }

  /** The vote list after `user` votes for `option`, or the rejection of a repeated vote. */
  function CastVote(votes: seq<Vote>, option: string, user: UserId): (r: Result<seq<Vote>, VoteError>)
    ensures r.Failure? ==> r.error == AlreadyVoted
    ensures r.Failure? ==> exists k :: 0 <= k < |votes| && votes[k].option == option && user in votes[k].voters
    ensures r.Failure? <==> match FindOption(votes, option)
                            case Some(k) => user in votes[k].voters
                            case None => false
    ensures r.Success? ==> |votes| <= |r.value| <= |votes| + 1
    ensures r.Success? ==> forall k :: 0 <= k < |votes| ==>
              r.value[k].option == votes[k].option &&
              (r.value[k] == votes[k] || (votes[k].option == option && r.value[k].voters == votes[k].voters + [user]))
    ensures r.Success? ==> exists k :: 0 <= k < |r.value| && r.value[k].option == option && user in r.value[k].voters
    ensures r.Success? ==> r.value == match FindOption(votes, option)
                                      case Some(k) => votes[k := Vote(option, votes[k].voters + [user])]
                                      case None => votes + [Vote(option, [user])]
  {
    match FindOption(votes, option)
    case Some(k) =>
      if user in votes[k].voters then Failure(AlreadyVoted)
      else
        var updated := votes[k := Vote(option, votes[k].voters + [user])];
        assert updated[k].option == option && user in updated[k].voters;
        Success(updated)
    case None =>
      var updated := votes + [Vote(option, [user])];
      assert updated[|votes|].option == option && user in updated[|votes|].voters;
      Success(updated)
  }

  /** Options are listed once and no user is listed twice for one option. */
  predicate VotesWellFormed(votes: seq<Vote>) {
    && (forall i, j :: 0 <= i < j < |votes| ==> votes[i].option != votes[j].option)
    && (forall i :: 0 <= i < |votes| ==> Distinct(votes[i].voters))
  }

  lemma {:induction false} CastVotePreservesWellFormed(votes: seq<Vote>, option: string, user: UserId)
    requires VotesWellFormed(votes)
    ensures CastVote(votes, option, user).Success? ==> VotesWellFormed(CastVote(votes, option, user).value)
  {
    match FindOption(votes, option)
    case Some(k) =>
      if user !in votes[k].voters {
        var updated := votes[k := Vote(option, votes[k].voters + [user])];
        assert CastVote(votes, option, user).value == updated;
        var vs := votes[k].voters + [user];
        forall i, j | 0 <= i < j < |vs| ensures vs[i] != vs[j] {
          if j == |vs| - 1 { assert vs[i] in votes[k].voters; }
        }
        assert Distinct(updated[k].voters);
      }
    case None =>
  }

  /**
   * With each option listed once, a vote is rejected exactly when the user
   * already voted for that option; otherwise only that option's voters change,
   * or a new option is appended.
   */
  lemma {:induction false} CastVoteSpec(votes: seq<Vote>, option: string, user: UserId)
    requires VotesWellFormed(votes)
    ensures CastVote(votes, option, user).Failure? <==>
            exists k :: 0 <= k < |votes| && votes[k].option == option && user in votes[k].voters
    ensures forall k :: 0 <= k < |votes| && votes[k].option == option && user !in votes[k].voters ==>
            CastVote(votes, option, user) == Success(votes[k := Vote(option, votes[k].voters + [user])])
    ensures (forall k :: 0 <= k < |votes| ==> votes[k].option != option) ==>
            CastVote(votes, option, user) == Success(votes + [Vote(option, [user])])
  {
    match FindOption(votes, option)
    case Some(k) =>
      forall k' | 0 <= k' < |votes| && votes[k'].option == option ensures k' == k {
        if k' != k {
          assert false;
        }
      }
    case None =>
  }

  /**
   * addVoteToEvent on the document `findById` returned (null when there is
   * none): an absent or empty option is rejected before the lookup.
   */
  method AddVoteToEvent(event: Event?, option: Option<string>, user: UserId) returns (r: Outcome<VoteError>)
    modifies event
    ensures !Truthy(option) ==> r == Fail(OptionRequired)
    ensures Truthy(option) && event == null ==> r == Fail(VoteEventNotFound)
    ensures r.Fail? ==> event == null || unchanged(event)
    ensures Truthy(option) && event != null ==>
              match CastVote(old(event.votes), option.value, user)
              case Failure(e) => r == Fail(e)
              case Success(votes) => r == Pass && event.votes == votes
    ensures r.Pass? ==> event != null
    ensures r.Pass? ==> event.title == old(event.title) && event.date == old(event.date)
    ensures r.Pass? ==> event.participants == old(event.participants)
    ensures r.Pass? && VotesWellFormed(old(event.votes)) ==> VotesWellFormed(event.votes)
  {
    if !Truthy(option) {
      return Fail(OptionRequired);
    }
    if event == null {
      return Fail(VoteEventNotFound);
    }
    if VotesWellFormed(event.votes) {
      CastVotePreservesWellFormed(event.votes, option.value, user);
    }
    match CastVote(event.votes, option.value, user)
    case Failure(e) =>
      r := Fail(e);
    case Success(votes) =>
      event.votes := votes;
      r := Pass;
  }
}
