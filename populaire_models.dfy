/** The populaires app's records (a populaire and its pre-registered
    riders), the populaire's label and page address, its time windows, and
    the pre-registration form with its distance choices and captcha check.

    The server clock runs `offset` hours ahead of the club's local time,
    and the closing and start instants are shifted by that much. The offset
    is a parameter; populaires/models.py:16 fixes it at 2. The
    full name and the results page are the register app's, which the
    populaire code repeats word for word.
 */
module PopulaireModels {
  import opened Text
  import opened Calendar
  import RegisterModels
  import Ordering

  /** A populaire; `distance` is the comma-separated list of distances it
      offers, e.g. `50 km, 100 km`. */
  datatype Populaire = Populaire(
    eventName: string,
    shortName: string,
    distance: string,
    date: Date,
    time: Time,
    organizerEmail: string,
    registrationCloses: DateTime,
    googleDocId: string)

  predicate ValidPopulaire(p: Populaire) {
    ValidDate(p.date) && ValidTime(p.time) && ValidDateTime(p.registrationCloses)
  }

  /** A pre-registered populaire rider; `populaire` is the event's key. */
  datatype Rider = Rider(
    id: nat,
    firstName: string,
    lastName: string,
    email: string,
    distance: int,
    populaire: nat)

  // ---------------------------------------------------------------------
  // Queryset order
  // ---------------------------------------------------------------------

  /** `Populaire.Meta.ordering`: populaires sort by date. */
  predicate DateLe(a: Populaire, b: Populaire) {
    !LexLess(b.date, a.date)
  }

  lemma DateOrder()
    ensures Ordering.TotalPreorder(DateLe)
  {
  }

  /** `Rider.Meta.ordering`: riders sort by last name, compared code point
      by code point. */
  predicate LastNameLe(a: Rider, b: Rider) {
    !StrLess(b.lastName, a.lastName)
  }

  lemma LastNameOrder()
    ensures Ordering.TotalPreorder(LastNameLe)
  {
    forall a: Rider, b: Rider ensures LastNameLe(a, b) || LastNameLe(b, a) {
      StrLessTotal(a.lastName, b.lastName);
    }
    forall a: Rider, b: Rider, c: Rider | LastNameLe(a, b) && LastNameLe(b, c)
      ensures LastNameLe(a, c)
    {
      StrLessTotal(a.lastName, b.lastName);
      StrLessTotal(b.lastName, c.lastName);
      if StrLess(c.lastName, a.lastName) {
        if StrLess(b.lastName, a.lastName) {
        } else if a.lastName == b.lastName {
        } else {
          StrLessTransitive(c.lastName, a.lastName, b.lastName);
        }
      }
    }
  }

  /** The stored riders whose populaire is the given one, in store order. */
  function OfPopulaire(riders: seq<Rider>, populaire: nat): seq<Rider> {
    if riders == [] then []
    else
      (if riders[0].populaire == populaire then [riders[0]] else [])
        + OfPopulaire(riders[1..], populaire)
  }

  /** `Rider.objects.filter(populaire=...)`: the populaire's riders in
      last-name order. */
  function RidersOf(riders: seq<Rider>, populaire: nat): seq<Rider> {
    Ordering.SortBy(OfPopulaire(riders, populaire), LastNameLe)
  }

  lemma {:induction false} OfPopulaireCounts(riders: seq<Rider>, populaire: nat)
    ensures forall x ::
      multiset(OfPopulaire(riders, populaire))[x] == (if x.populaire == populaire then multiset(riders)[x] else 0)
  {
    if riders != [] {
      OfPopulaireCounts(riders[1..], populaire);
      assert riders == [riders[0]] + riders[1..];
    }
  }

  /** The queryset holds every rider of the populaire exactly as often as
      the store does, no other rider, and is sorted by last name. */
  lemma RidersOfOrder(riders: seq<Rider>, populaire: nat)
    ensures forall x ::
      multiset(RidersOf(riders, populaire))[x] == (if x.populaire == populaire then multiset(riders)[x] else 0)
    ensures Ordering.SortedBy(RidersOf(riders, populaire), LastNameLe)
  {
    LastNameOrder();
    OfPopulaireCounts(riders, populaire);
    Ordering.SortByOrders(OfPopulaire(riders, populaire), LastNameLe);
  }

  /** `Populaire.__unicode__`: the short name, a space and `%d-%b-%Y`. */
  function Label(p: Populaire): string
    requires ValidDate(p.date)
  {
    p.shortName + " " + FormatDate(p.date, "-")
  }

  /** The label is the short name, a space and eleven characters: the
      `%d-%b-%Y` date, whose two dashes sit at positions 2 and 6 and which
      reads back to the populaire's date once they are dropped. */
  lemma LabelParts(p: Populaire)
    requires ValidDate(p.date)
    ensures |Label(p)| == |p.shortName| + 12
    ensures Label(p)[..|p.shortName|] == p.shortName
    ensures Label(p)[|p.shortName|] == ' '
    ensures var t := Label(p)[|p.shortName| + 1..];
      t[2] == '-' && t[6] == '-' && ParseCompactDate(t[..2] + t[3..6] + t[7..]) == Some(p.date)
  {
    var d := p.date;
    var f := FormatDate(d, "-");
    assert Label(p) == p.shortName + [' '] + f;
    var t := Label(p)[|p.shortName| + 1..];
    assert t == f;
    assert f == Pad2(d.day) + "-" + MonthAbbrev(d.month) + "-" + Pad4(d.year);
    assert t[..2] + t[3..6] + t[7..] == FormatDate(d, "");
    ParseFormatDate(d);
  }

  /** `Populaire.get_absolute_url`: `/populaires/`, the short name and
      `%d%b%Y`, with no separator. */
  function AbsoluteUrl(p: Populaire): string
    requires ValidDate(p.date)
  {
    "/populaires/" + p.shortName + FormatDate(p.date, "")
  }

  /** The page address splits back into its short name and its date: the
      part after `/populaires/` and before the nine date characters is the
      short name, and those characters read back to the date. */
  lemma UrlParts(p: Populaire)
    requires ValidDate(p.date)
    ensures |AbsoluteUrl(p)| == 21 + |p.shortName|
    ensures AbsoluteUrl(p)[12..|AbsoluteUrl(p)| - 9] == p.shortName
    ensures ParseCompactDate(AbsoluteUrl(p)[|AbsoluteUrl(p)| - 9..]) == Some(p.date)
  {
    var head: string := "/populaires/";
    var tail := FormatDate(p.date, "");
    assert |head| == 12;
    assert AbsoluteUrl(p) == head + p.shortName + tail;
    ParseFormatDate(p.date);
  }

  /** Two populaires with the same page address have the same short name
      and the same date. */
  lemma UrlIdentifiesPopulaire(a: Populaire, b: Populaire)
    requires ValidDate(a.date) && ValidDate(b.date)
    requires AbsoluteUrl(a) == AbsoluteUrl(b)
    ensures a.shortName == b.shortName && a.date == b.date
  {
    UrlParts(a);
    UrlParts(b);
  }

  /** `Populaire._in_past`: the register app's rule on the populaire's
      date. */
  function InPast(p: Populaire, today: Date): (r: Option<string>)
    requires ValidDate(p.date) && ValidDate(today)
    ensures r.Some? <==> Ordinal(today) - Ordinal(p.date) >= 8
    ensures r.Some? ==> r.value == RegisterModels.ResultsUrl(p.date.year)
  {
    RegisterModels.InPastWindow(p.date, today);
    RegisterModels.InPast(p.date, today)
  }

  /** `Populaire._registration_closed`: now is strictly after the closing
      time shifted by the server offset. */
  predicate RegistrationClosed(p: Populaire, now: DateTime, offset: nat)
    requires ValidDateTime(p.registrationCloses) && ValidDateTime(now)
  {
    Instant(now) > Instant(p.registrationCloses) + offset * 60
  }

  /** At the shifted closing instant itself registration is still open, a
      minute later it is closed, and once closed it stays closed. */
  lemma RegistrationClosedBoundary(p: Populaire, now: DateTime, later: DateTime, offset: nat)
    requires ValidDateTime(p.registrationCloses) && ValidDateTime(now) && ValidDateTime(later)
    ensures Instant(now) == Instant(p.registrationCloses) + offset * 60 ==> !RegistrationClosed(p, now, offset)
    ensures Instant(now) == Instant(p.registrationCloses) + offset * 60 + 1 ==> RegistrationClosed(p, now, offset)
    ensures RegistrationClosed(p, now, offset) && Instant(now) <= Instant(later) ==>
      RegistrationClosed(p, later, offset)
  {
  }

  /** `Populaire._started`: now is strictly after the start shifted by the
      server offset. */
  predicate Started(p: Populaire, now: DateTime, offset: nat)
    requires ValidDate(p.date) && ValidTime(p.time) && ValidDateTime(now)
  {
    Instant(now) > Instant(DateTime(p.date, p.time)) + offset * 60
  }

  /** A populaire has started exactly when more than `offset` hours have
      passed since its start on the server's clock; on the start day that
      is the minute of the day compared with the start time. */
  lemma StartedOnTheDay(p: Populaire, now: DateTime, offset: nat)
    requires ValidDate(p.date) && ValidTime(p.time) && ValidDateTime(now)
    requires now.date == p.date
    ensures Started(p, now, offset) <==>
      now.time.hour * 60 + now.time.minute > p.time.hour * 60 + p.time.minute + offset * 60
  {
  }

  /** Started is monotone in the clock, and on the days after the start
      date it holds whenever the shifted start falls on the start date. */
  lemma StartedMonotone(p: Populaire, now: DateTime, later: DateTime, offset: nat)
    requires ValidDate(p.date) && ValidTime(p.time) && ValidDateTime(now) && ValidDateTime(later)
    ensures Started(p, now, offset) && Instant(now) <= Instant(later) ==> Started(p, later, offset)
    ensures Ordinal(now.date) >= Ordinal(p.date) + 1 && p.time.hour + offset < 24 ==> Started(p, now, offset)
  {
    InstantDayBounds(now);
  }

  const CaptchaAnswer := 2
  const CaptchaError := "Wrong!"
  const DistanceRequiredMessage := "Please choose a distance"

  /** A populaire pre-registration form: the distance choices its radio
      buttons offer, the message shown when no distance is chosen, and the
      errors found so far. */
  class RiderForm {
    var distanceChoices: seq<(int, string)>
    var distanceRequiredMessage: string
    var errors: map<string, seq<string>>

    /** `RiderForm.__init__`: the distance field becomes a radio select over
        the given choices with its own "required" message. */
    constructor (choices: seq<(int, string)>)
      ensures distanceChoices == choices
      ensures distanceRequiredMessage == DistanceRequiredMessage
      ensures errors == map[]
    {
      distanceChoices := choices;
      distanceRequiredMessage := DistanceRequiredMessage;
      errors := map[];
    }

    /** `clean_captcha`: the answer comes back unchanged; any answer but 2
        sets the captcha field's errors to `Wrong!`, and 2 leaves the errors
        as they were. */
    method CleanCaptcha(answer: int) returns (cleaned: int)
      modifies this
      ensures cleaned == answer
      ensures distanceChoices == old(distanceChoices)
      ensures distanceRequiredMessage == old(distanceRequiredMessage)
      ensures answer != CaptchaAnswer ==> errors == old(errors)["captcha" := [CaptchaError]]
      ensures answer == CaptchaAnswer ==> errors == old(errors)
    {
      if answer != CaptchaAnswer {
        errors := errors["captcha" := [CaptchaError]];
      }
      cleaned := answer;
    }
  }
}
