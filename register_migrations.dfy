/** The register app's data migrations: each walks a table and rewrites
    one field of every row from another field of the same row, saving the
    row. A table is an array of rows, rewritten in place; the rows carry the
    fields of the model as the migration froze it (dates and times are left
    out, since no migration reads or writes them).
 */
module RegisterMigrations {
  import opened Text
  import opened Migration

  // ---------------------------------------------------------------------
  // 0010: brevet distance <-> event
  // ---------------------------------------------------------------------

  /** A brevet row as migration 0010 sees it: the integer `distance` the
      model used to have beside the `event` text that replaces it. */
  datatype BrevetRow = BrevetRow(
    id: nat,
    region: string,
    event: string,
    distance: int,
    routeName: string,
    startLocation: string,
    organizerEmail: string,
    infoQuestion: string)

  /** `brevet.event = str(brevet.distance)`; no other field changes. */
  function EventFromDistance(b: BrevetRow): (r: BrevetRow)
    ensures r.(event := b.event) == b
  {
    b.(event := IntToString(b.distance))
  }

  /** The event `forwards` writes reads back as the distance. */
  lemma EventReadsBack(b: BrevetRow)
    ensures ParseInt(EventFromDistance(b).event) == Some(b.distance)
  {
    ParseIntToString(b.distance);
  }

  /** `int(event)`, or 0 where `int()` raises ValueError. */
  function DistanceOf(event: string): int {
    match ParseInt(event) case Some(d) => d case None => 0
  }

  /** `brevet.distance = int(brevet.event)`, or 0 where that raises
      ValueError; no other field changes. */
  function DistanceFromEvent(b: BrevetRow): (r: BrevetRow)
    ensures r.(distance := b.distance) == b
  {
    b.(distance := DistanceOf(b.event))
  }

  /** The table after `forwards`. */
  function EventsFromDistances(s: seq<BrevetRow>): (r: seq<BrevetRow>)
    ensures |r| == |s|
  {
    seq(|s|, i requires 0 <= i < |s| => EventFromDistance(s[i]))
  }

  /** The table after `backwards`. */
  function DistancesFromEvents(s: seq<BrevetRow>): (r: seq<BrevetRow>)
    ensures |r| == |s|
  {
    seq(|s|, i requires 0 <= i < |s| => DistanceFromEvent(s[i]))
  }

  /** `forwards` of migration 0010. */
  method ForwardsEvent(brevets: array<BrevetRow>)
    modifies brevets
    ensures brevets[..] == EventsFromDistances(old(brevets[..]))
  {
    RewriteEach(brevets, EventFromDistance);
  }

  /** `backwards` of migration 0010. The RuntimeError it builds at the end
      is never raised, so the method has no failure outcome: every row is
      rewritten, a non-numeric event giving distance 0. */
  method BackwardsEvent(brevets: array<BrevetRow>)
    modifies brevets
    ensures brevets[..] == DistancesFromEvents(old(brevets[..]))
  {
    RewriteEach(brevets, DistanceFromEvent);
  }

  /** Migrating back after migrating forwards restores every brevet's
      distance: `backwards` changes nothing in the table `forwards` left. */
  lemma EventRoundTrip(s: seq<BrevetRow>)
    ensures DistancesFromEvents(EventsFromDistances(s)) == EventsFromDistances(s)
    ensures forall i :: 0 <= i < |s| ==> DistancesFromEvents(EventsFromDistances(s))[i].distance == s[i].distance
  {
    var f := EventsFromDistances(s);
    forall i | 0 <= i < |s| ensures DistanceFromEvent(f[i]) == f[i] {
      EventReadsBack(s[i]);
    }
    assert DistancesFromEvents(f) == f;
  }

  /** Running `forwards` twice is running it once. */
  lemma EventForwardsIdempotent(s: seq<BrevetRow>)
    ensures EventsFromDistances(EventsFromDistances(s)) == EventsFromDistances(s)
  {
    var f := EventsFromDistances(s);
    assert forall i :: 0 <= i < |s| ==> EventFromDistance(f[i]) == f[i];
  }

  // ---------------------------------------------------------------------
  // 0006: rider qual_info <-> info_answer
  // ---------------------------------------------------------------------

  /** A rider row as migration 0006 sees it: the old `qualInfo` beside the
      `infoAnswer` that replaces it. */
  datatype RiderRow = RiderRow(
    id: nat,
    name: string,
    email: string,
    clubMember: bool,
    brevet: nat,
    qualInfo: string,
    infoAnswer: string)

  /** `rider.info_answer = rider.qual_info`. */
  function AnswerFromQualInfo(r: RiderRow): RiderRow {
    r.(infoAnswer := r.qualInfo)
  }

  /** `rider.qual_info = rider.info_answer`. */
  function QualInfoFromAnswer(r: RiderRow): RiderRow {
    r.(qualInfo := r.infoAnswer)
  }

  /** The table after `forwards`: each answer is the rider's qualifying
      info, and nothing else changes. */
  function AnswersFromQualInfo(s: seq<RiderRow>): (r: seq<RiderRow>)
    ensures |r| == |s|
    ensures forall i :: 0 <= i < |s| ==> r[i].(infoAnswer := s[i].infoAnswer) == s[i]
    ensures forall i :: 0 <= i < |s| ==> r[i].infoAnswer == r[i].qualInfo
  {
    seq(|s|, i requires 0 <= i < |s| => AnswerFromQualInfo(s[i]))
  }

  /** The table after `backwards`: each qualifying info is the rider's
      answer, and nothing else changes. */
  function QualInfoFromAnswers(s: seq<RiderRow>): (r: seq<RiderRow>)
    ensures |r| == |s|
    ensures forall i :: 0 <= i < |s| ==> r[i].(qualInfo := s[i].qualInfo) == s[i]
    ensures forall i :: 0 <= i < |s| ==> r[i].qualInfo == r[i].infoAnswer
  {
    seq(|s|, i requires 0 <= i < |s| => QualInfoFromAnswer(s[i]))
  }

  /** `forwards` of migration 0006. */
  method ForwardsInfoAnswer(riders: array<RiderRow>)
    modifies riders
    ensures riders[..] == AnswersFromQualInfo(old(riders[..]))
  {
    RewriteEach(riders, AnswerFromQualInfo);
  }

  /** `backwards` of migration 0006. */
  method BackwardsInfoAnswer(riders: array<RiderRow>)
    modifies riders
    ensures riders[..] == QualInfoFromAnswers(old(riders[..]))
  {
    RewriteEach(riders, QualInfoFromAnswer);
  }

  /** Migrating back after migrating forwards leaves every rider's
      `qual_info` as it was, and changes nothing `forwards` left. */
  lemma InfoAnswerRoundTrip(s: seq<RiderRow>)
    ensures QualInfoFromAnswers(AnswersFromQualInfo(s)) == AnswersFromQualInfo(s)
    ensures forall i :: 0 <= i < |s| ==> QualInfoFromAnswers(AnswersFromQualInfo(s))[i].qualInfo == s[i].qualInfo
  {
    var f := AnswersFromQualInfo(s);
    var b := QualInfoFromAnswers(f);
    assert forall i :: 0 <= i < |s| ==> b[i] == f[i];
  }

  /** Running `forwards` twice is running it once. */
  lemma InfoAnswerForwardsIdempotent(s: seq<RiderRow>)
    ensures AnswersFromQualInfo(AnswersFromQualInfo(s)) == AnswersFromQualInfo(s)
  {
    var f := AnswersFromQualInfo(s);
    var g := AnswersFromQualInfo(f);
    assert forall i :: 0 <= i < |s| ==> g[i] == f[i];
  }

  // ---------------------------------------------------------------------
  // 0003: lowercase last names
  // ---------------------------------------------------------------------

  /** A brevet rider row as migration 0003 sees it. */
  datatype BrevetRiderRow = BrevetRiderRow(
    id: nat,
    firstName: string,
    lastName: string,
    lowercaseLastName: string,
    email: string,
    clubMember: bool,
    infoAnswer: string,
    brevet: nat)

  /** A club event participant row as migration 0003 sees it. */
  datatype ParticipantRow = ParticipantRow(
    id: nat,
    firstName: string,
    lastName: string,
    lowercaseLastName: string,
    email: string,
    infoAnswer: string,
    event: nat)

  /** `rider.lowercase_last_name = rider.last_name.lower()`. */
  function LowercaseRider(r: BrevetRiderRow): BrevetRiderRow {
    r.(lowercaseLastName := ToLower(r.lastName))
  }

  /** `participant.lowercase_last_name = participant.last_name.lower()`. */
  function LowercaseParticipant(p: ParticipantRow): ParticipantRow {
    p.(lowercaseLastName := ToLower(p.lastName))
  }

  /** The brevet rider table after `forwards`: only the sort key changes. */
  function LowercasedRiders(s: seq<BrevetRiderRow>): (r: seq<BrevetRiderRow>)
    ensures |r| == |s|
    ensures forall i :: 0 <= i < |s| ==> r[i].(lowercaseLastName := s[i].lowercaseLastName) == s[i]
  {
    seq(|s|, i requires 0 <= i < |s| => LowercaseRider(s[i]))
  }

  /** The participant table after `forwards`: only the sort key changes. */
  function LowercasedParticipants(s: seq<ParticipantRow>): (r: seq<ParticipantRow>)
    ensures |r| == |s|
    ensures forall i :: 0 <= i < |s| ==> r[i].(lowercaseLastName := s[i].lowercaseLastName) == s[i]
  {
    seq(|s|, i requires 0 <= i < |s| => LowercaseParticipant(s[i]))
  }

  /** `forwards` of migration 0003: first every brevet rider, then every
      club event participant. */
  method ForwardsLowercase(riders: array<BrevetRiderRow>, participants: array<ParticipantRow>)
    modifies riders, participants
    ensures riders[..] == LowercasedRiders(old(riders[..]))
    ensures participants[..] == LowercasedParticipants(old(participants[..]))
  {
    RewriteEach(riders, LowercaseRider);
    RewriteEach(participants, LowercaseParticipant);
  }

  /** `backwards` of migration 0003 does nothing. */
  method BackwardsLowercase(riders: array<BrevetRiderRow>, participants: array<ParticipantRow>)
    ensures riders[..] == old(riders[..]) && participants[..] == old(participants[..])
  {
  }

  /** After `forwards` every rider's sort key is their lower-cased last
      name, with no capital letter left, and running `forwards` again
      changes nothing. */
  lemma LowercaseRidersKeys(s: seq<BrevetRiderRow>)
    ensures forall i :: 0 <= i < |s| ==> LowercasedRiders(s)[i].lowercaseLastName == ToLower(s[i].lastName)
    ensures forall i, k :: 0 <= i < |s| && 0 <= k < |LowercasedRiders(s)[i].lowercaseLastName| ==>
      !('A' <= LowercasedRiders(s)[i].lowercaseLastName[k] <= 'Z')
    ensures LowercasedRiders(LowercasedRiders(s)) == LowercasedRiders(s)
  {
    var f := LowercasedRiders(s);
    forall i | 0 <= i < |s|
      ensures f[i].lowercaseLastName == ToLower(s[i].lastName)
      ensures forall k :: 0 <= k < |f[i].lowercaseLastName| ==> !('A' <= f[i].lowercaseLastName[k] <= 'Z')
    {
      ToLowerIdempotent(s[i].lastName);
    }
    var g := LowercasedRiders(f);
    assert forall i :: 0 <= i < |s| ==> g[i] == f[i];
  }

  /** After `forwards` every participant's sort key is their lower-cased
      last name, and running `forwards` again changes nothing. */
  lemma LowercaseParticipantsKeys(s: seq<ParticipantRow>)
    ensures forall i :: 0 <= i < |s| ==> LowercasedParticipants(s)[i].lowercaseLastName == ToLower(s[i].lastName)
    ensures LowercasedParticipants(LowercasedParticipants(s)) == LowercasedParticipants(s)
  {
    var f := LowercasedParticipants(s);
    var g := LowercasedParticipants(f);
    assert forall i :: 0 <= i < |s| ==> g[i] == f[i];
  }
}
