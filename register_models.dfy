/** The register app's records (a brevet and its pre-registered riders),
    the brevet's display label and page address, its three time windows
    (results available, registration closed, started), the rider's full
    name, and the two rules of the pre-registration form: the captcha check
    and the info answer that is required when the brevet asks a question.

    The clock is a parameter: `now` is `datetime.now()` and `today` is
    `datetime.today().date()`. The captcha answer comes from the site
    settings and is a parameter too.
 */
module RegisterModels {
  import opened Text
  import opened Calendar
  import Ordering

  /** The region codes and their long names. */
  const Regions: map<string, string> := map[
    "Club" := "Club Events",
    "LM" := "Lower Mainland",
    "PR" := "Peace Region",
    "SI" := "Southern Interior",
    "SW" := "Super Week",
    "VI" := "Vancouver Island"]

  /** The brevet distances a brevet's `event` field may hold. */
  const EventChoices: seq<string> := ["200", "300", "400", "600", "1000"]

  /** A brevet: the `BaseEvent` fields and the event code. */
  datatype Brevet = Brevet(
    region: string,
    event: string,
    date: Date,
    time: Time,
    organizerEmail: string,
    infoQuestion: string,
    googleDocId: string)

  /** A pre-registered brevet rider; `brevet` is the brevet's key. */
  datatype BrevetRider = BrevetRider(
    id: nat,
    firstName: string,
    lastName: string,
    email: string,
    infoAnswer: string,
    clubMember: bool,
    brevet: nat)

  // ---------------------------------------------------------------------
  // The rider queryset of a brevet
  // ---------------------------------------------------------------------

  /** `Person.Meta.ordering`: riders sort by last name, compared code point
      by code point. */
  predicate LastNameLe(a: BrevetRider, b: BrevetRider) {
    !StrLess(b.lastName, a.lastName)
  }

  lemma LastNameOrder()
    ensures Ordering.TotalPreorder(LastNameLe)
  {
    forall a: BrevetRider, b: BrevetRider ensures LastNameLe(a, b) || LastNameLe(b, a) {
      StrLessTotal(a.lastName, b.lastName);
    }
    forall a: BrevetRider, b: BrevetRider, c: BrevetRider | LastNameLe(a, b) && LastNameLe(b, c)
      ensures LastNameLe(a, c)
    {
      StrLessTotal(a.lastName, b.lastName);
      StrLessTotal(b.lastName, c.lastName);
      if StrLess(c.lastName, a.lastName) {
        if StrLess(b.lastName, a.lastName) {
        } else if a.lastName == b.lastName {
        } else {
          StrLessTransitive(c.lastName, a.lastName, b.lastName);
        }
      }
    }
  }

  /** The stored riders whose brevet is the given one, in store order. */
  function OfBrevet(riders: seq<BrevetRider>, brevet: nat): seq<BrevetRider> {
    if riders == [] then []
    else
      (if riders[0].brevet == brevet then [riders[0]] else [])
        + OfBrevet(riders[1..], brevet)
  }

  /** `BrevetRider.objects.filter(brevet=...)`: the brevet's riders in
      last-name order. */
  function RidersOf(riders: seq<BrevetRider>, brevet: nat): seq<BrevetRider> {
    Ordering.SortBy(OfBrevet(riders, brevet), LastNameLe)
  }

  lemma {:induction false} OfBrevetCounts(riders: seq<BrevetRider>, brevet: nat)
    ensures forall x ::
      multiset(OfBrevet(riders, brevet))[x] == (if x.brevet == brevet then multiset(riders)[x] else 0)
  {
    if riders != [] {
      OfBrevetCounts(riders[1..], brevet);
      assert riders == [riders[0]] + riders[1..];
    }
  }

  /** The queryset holds every rider of the brevet exactly as often as the
      store does, no other rider, and is sorted by last name. */
  lemma RidersOfOrder(riders: seq<BrevetRider>, brevet: nat)
    ensures forall x ::
      multiset(RidersOf(riders, brevet))[x] == (if x.brevet == brevet then multiset(riders)[x] else 0)
    ensures Ordering.SortedBy(RidersOf(riders, brevet), LastNameLe)
  {
    LastNameOrder();
    OfBrevetCounts(riders, brevet);
    Ordering.SortByOrders(OfBrevet(riders, brevet), LastNameLe);
  }

  /** The region part of a brevet's name: club events show none. */
  function RegionPrefix(region: string): string {
    if region == "Club" then "" else region
  }

  /** `BaseEvent.__unicode__`: region, event, a space and `%d-%b-%Y`. */
  function Label(b: Brevet): string
    requires ValidDate(b.date)
  {
    RegionPrefix(b.region) + b.event + " " + FormatDate(b.date, "-")
  }

  /** `BaseEvent.get_absolute_url`: `/register/`, region, event and
      `%d%b%Y`, with no separator between them. */
  function AbsoluteUrl(b: Brevet): string
    requires ValidDate(b.date)
  {
    "/register/" + RegionPrefix(b.region) + b.event + FormatDate(b.date, "")
  }

  /** The last nine characters of the page address read back, the way the
      views parse the `date` part of the address, to the brevet's date. */
  lemma UrlDate(b: Brevet)
    requires ValidDate(b.date)
    ensures |AbsoluteUrl(b)| >= 9
    ensures ParseCompactDate(AbsoluteUrl(b)[|AbsoluteUrl(b)| - 9..]) == Some(b.date)
  {
    var u := AbsoluteUrl(b);
    assert u[|u| - 9..] == FormatDate(b.date, "");
    ParseFormatDate(b.date);
  }

  /** The brevet's name is its region part and event, a space, then the
      date as `%d-%b-%Y`; with its two dashes dropped that date reads back
      as the page address's date does. */
  lemma LabelParts(b: Brevet)
    requires ValidDate(b.date)
    ensures |Label(b)| >= 12
    ensures Label(b)[..|Label(b)| - 12] == RegionPrefix(b.region) + b.event
    ensures Label(b)[|Label(b)| - 12] == ' '
    ensures var t := Label(b)[|Label(b)| - 11..];
      t[2] == '-' && t[6] == '-' && ParseCompactDate(t[..2] + t[3..6] + t[7..]) == Some(b.date)
  {
    var d := b.date;
    var name := RegionPrefix(b.region) + b.event;
    var f := FormatDate(d, "-");
    assert Label(b) == name + [' '] + f;
    var t := Label(b)[|Label(b)| - 11..];
    assert t == f;
    assert f == Pad2(d.day) + "-" + MonthAbbrev(d.month) + "-" + Pad4(d.year);
    assert t[..2] + t[3..6] + t[7..] == FormatDate(d, "");
    ParseFormatDate(d);
  }

  predicate NoDigits(s: string) {
    forall i :: 0 <= i < |s| ==> !IsDigit(s[i])
  }

  /** A name without digits followed by a code that starts with one splits
      in exactly one way. */
  lemma SplitAtFirstDigit(p1: string, e1: string, p2: string, e2: string)
    requires NoDigits(p1) && NoDigits(p2)
    requires e1 != [] && IsDigit(e1[0]) && e2 != [] && IsDigit(e2[0])
    requires p1 + e1 == p2 + e2
    ensures p1 == p2 && e1 == e2
  {
    var k := if |p1| <= |p2| then |p1| else |p2|;
    assert (p1 + e1)[k] == (p2 + e2)[k];
    if |p1| != |p2| {
      assert false;
    }
    assert p1 == (p1 + e1)[..|p1|];
    assert p2 == (p2 + e2)[..|p2|];
    assert e1 == (p1 + e1)[|p1|..];
    assert e2 == (p2 + e2)[|p2|..];
  }

  lemma RegionPrefixes(r: string)
    requires r in Regions
    ensures NoDigits(RegionPrefix(r))
    ensures RegionPrefix(r) == "" <==> r == "Club"
  {
    var p := RegionPrefix(r);
    if r != "Club" {
      assert r == "LM" || r == "PR" || r == "SI" || r == "SW" || r == "VI";
      assert !IsDigit(p[0]) && !IsDigit(p[1]);
    }
  }

  lemma EventCodes(e: string)
    requires e in EventChoices
    ensures e != [] && IsDigit(e[0])
  {
  }

  /** For the regions and distances the site offers, the page address
      identifies the brevet: region, event and date are determined by it. */
  lemma UrlIdentifiesBrevet(a: Brevet, b: Brevet)
    requires ValidDate(a.date) && ValidDate(b.date)
    requires a.region in Regions && b.region in Regions
    requires a.event in EventChoices && b.event in EventChoices
    requires AbsoluteUrl(a) == AbsoluteUrl(b)
    ensures a.region == b.region && a.event == b.event && a.date == b.date
  {
    UrlDate(a);
    UrlDate(b);
    UrlMiddle(a);
    UrlMiddle(b);
    RegionPrefixes(a.region);
    RegionPrefixes(b.region);
    EventCodes(a.event);
    EventCodes(b.event);
    SplitAtFirstDigit(RegionPrefix(a.region), a.event, RegionPrefix(b.region), b.event);
  }

  /** Between the fixed `/register/` head and the nine date characters
      the address holds the region prefix and the event. */
  lemma UrlMiddle(b: Brevet)
    requires ValidDate(b.date)
    ensures |AbsoluteUrl(b)| >= 19
    ensures AbsoluteUrl(b)[10..|AbsoluteUrl(b)| - 9] == RegionPrefix(b.region) + b.event
  {
    var head: string := "/register/";
    var mid := RegionPrefix(b.region) + b.event;
    var tail := FormatDate(b.date, "");
    assert |head| == 10;
    assert AbsoluteUrl(b) == head + mid + tail;
  }

  // ---------------------------------------------------------------------
  // Time windows
  // ---------------------------------------------------------------------

  /** The club site's results page for a year: `{yy}_times/{yy}_times.html`
      with `yy` the last two characters of the year. */
  function ResultsUrl(year: nat): string {
    "http://randonneurs.bc.ca/results/" + YearSuffix(year) + "_times/" + YearSuffix(year) + "_times.html"
  }

  /** `Brevet._in_past` for a brevet on `date` (and, with the same body,
      `Populaire._in_past` and the view's `_brevet_in_past`): the results
      page once the event is more than seven days old, otherwise None (the
      code's False, or None in the view). */
  function InPast(date: Date, today: Date): (r: Option<string>)
    requires ValidDate(date) && ValidDate(today)
  {
    if Ordinal(date) < Ordinal(today) - 7 then Some(ResultsUrl(date.year)) else None
  }

  /** An event is in the past exactly when today is eight or more days after
      it: seven days after is not yet past. The address names the year's
      last two digits twice. */
  lemma InPastWindow(date: Date, today: Date)
    requires ValidDate(date) && ValidDate(today)
    ensures InPast(date, today).Some? <==> Ordinal(today) - Ordinal(date) >= 8
    ensures Ordinal(today) - Ordinal(date) == 7 ==> InPast(date, today).None?
    ensures InPast(date, today).Some? && date.year >= 10 ==>
      InPast(date, today).value ==
        "http://randonneurs.bc.ca/results/" + Pad2(date.year % 100) + "_times/"
        + Pad2(date.year % 100) + "_times.html"
  {
    if date.year >= 10 {
      YearSuffixDigits(date.year);
    }
  }

  /** Once an event is in the past it stays in the past, with the same
      results page. */
  lemma InPastMonotone(date: Date, today: Date, later: Date)
    requires ValidDate(date) && ValidDate(today) && ValidDate(later)
    requires InPast(date, today).Some?
    requires LexLess(today, later)
    ensures InPast(date, later) == InPast(date, today)
  {
    OrdinalOrder(today, later);
  }

  /** The closing instant: noon on the day before the brevet. */
  function ClosingInstant(b: Brevet): int
    requires ValidDate(b.date)
  {
    (Ordinal(b.date) - 1) * 1440 + 12 * 60
  }

  /** `Brevet._registration_closed`: now is at or after noon of the eve. */
  predicate RegistrationClosed(b: Brevet, now: DateTime)
    requires ValidDate(b.date) && ValidDateTime(now)
  {
    Instant(now) >= ClosingInstant(b)
  }

  /** The closing instant is noon of the calendar day before the brevet,
      stated with the calendar's own previous-day function. */
  lemma RegistrationClosedAtNoonBefore(b: Brevet, now: DateTime)
    requires ValidDate(b.date) && ValidDateTime(now)
    requires b.date != Date(1, 1, 1)
    ensures RegistrationClosed(b, now) <==>
      Instant(now) >= Instant(DateTime(PrevDay(b.date), Time(12, 0)))
  {
    PrevDayOrdinal(b.date);
  }

  /** Once registration has closed it stays closed. */
  lemma RegistrationClosedMonotone(b: Brevet, now: DateTime, later: DateTime)
    requires ValidDate(b.date) && ValidDateTime(now) && ValidDateTime(later)
    requires RegistrationClosed(b, now)
    requires Instant(now) <= Instant(later)
    ensures RegistrationClosed(b, later)
  {
  }

  /** Day by day: open on every day before the eve, closed on the brevet's
      day and after, and on the eve closed from noon on (noon included). */
  lemma RegistrationClosedByDay(b: Brevet, now: DateTime)
    requires ValidDate(b.date) && ValidDateTime(now)
    ensures Ordinal(now.date) < Ordinal(b.date) - 1 ==> !RegistrationClosed(b, now)
    ensures Ordinal(now.date) >= Ordinal(b.date) ==> RegistrationClosed(b, now)
    ensures Ordinal(now.date) == Ordinal(b.date) - 1 ==>
      (RegistrationClosed(b, now) <==> now.time.hour >= 12)
  {
    InstantDayBounds(now);
  }

  /** The start instant of a brevet: its date combined with its time. */
  function StartInstant(b: Brevet): int
    requires ValidDate(b.date) && ValidTime(b.time)
  {
    Instant(DateTime(b.date, b.time))
  }

  /** `Brevet._started`: now is at least one hour past the start. */
  predicate Started(b: Brevet, now: DateTime)
    requires ValidDate(b.date) && ValidTime(b.time) && ValidDateTime(now)
  {
    Instant(now) >= StartInstant(b) + 60
  }

  /** A brevet that has started has closed its registration, and stays
      started. */
  lemma StartedAfterClosing(b: Brevet, now: DateTime, later: DateTime)
    requires ValidDate(b.date) && ValidTime(b.time)
    requires ValidDateTime(now) && ValidDateTime(later)
    requires Started(b, now)
    ensures RegistrationClosed(b, now)
    ensures Instant(now) <= Instant(later) ==> Started(b, later)
  {
    InstantDayBounds(DateTime(b.date, b.time));
  }

  // ---------------------------------------------------------------------
  // Riders and the pre-registration form
  // ---------------------------------------------------------------------

  /** `Person.full_name`. */
  function FullName(firstName: string, lastName: string): string {
    firstName + " " + lastName
  }

  /** A first name without spaces is the first word of the full name, and
      the rest of the full name is the last name. */
  lemma FullNameWords(firstName: string, lastName: string)
    requires ' ' !in firstName
    ensures Split(FullName(firstName, lastName), ' ')[0] == firstName
    ensures FullName(firstName, lastName)[|firstName| + 1..] == lastName
  {
    SplitAppend(firstName, lastName, ' ');
    assert FullName(firstName, lastName) == firstName + [' '] + lastName;
  }

  const CaptchaError := "Wrong! See hint."

  /** The fields of the pre-registration form with their `required` flags.
      Both forms drop the brevet; the form without an info question also
      drops the info answer, and the form with one makes it required. The
      club-member check box is a boolean field and never required. */
  function FormFields(hasInfoQuestion: bool): (fields: map<string, bool>)
  {
    var common := map[
      "first_name" := true, "last_name" := true, "email" := true,
      "club_member" := false, "captcha" := true];
    if hasInfoQuestion then common["info_answer" := true] else common
  }

  /** The required fields a submission leaves out or blank. */
  function MissingFields(fields: map<string, bool>, data: map<string, string>): set<string> {
    set f | f in fields && fields[f] && (f !in data || data[f] == "")
  }

  /** The form with an info question reports what the form without one
      reports, plus the info answer when that is absent or blank; the
      other fields of the two forms are checked alike. */
  lemma MissingFieldsWithQuestion(data: map<string, string>)
    ensures MissingFields(FormFields(true), data) ==
      MissingFields(FormFields(false), data)
      + (if "info_answer" !in data || data["info_answer"] == "" then {"info_answer"} else {})
    ensures "info_answer" !in MissingFields(FormFields(false), data)
  {
  }

  /** The info answer is demanded exactly when the brevet asks a question
      and the answer is absent or blank; otherwise it is never reported. */
  lemma InfoAnswerRule(infoQuestion: string, data: map<string, string>)
    ensures "info_answer" in MissingFields(FormFields(infoQuestion != ""), data) <==>
      infoQuestion != "" && ("info_answer" !in data || data["info_answer"] == "")
    ensures "info_answer" in FormFields(infoQuestion != "") <==> infoQuestion != ""
  {
  }

  /** A pre-registration form: its fields and the errors found so far. */
  class RiderForm {
    var fields: map<string, bool>
    var errors: map<string, seq<string>>

    /** `RiderForm` for a brevet with an info question,
        `RiderFormWithoutInfoQuestion` for one without. */
    constructor (infoQuestion: string)
      ensures fields == FormFields(infoQuestion != "")
      ensures errors == map[]
    {
      fields := FormFields(infoQuestion != "");
      errors := map[];
    }

    /** `clean_captcha`: the answer comes back unchanged; a wrong answer
        sets the captcha field's errors to the one hint message and a right
        one leaves the errors as they were. */
    method CleanCaptcha(answer: int, expected: int) returns (cleaned: int)
      modifies this
      ensures cleaned == answer
      ensures fields == old(fields)
      ensures answer != expected ==> errors == old(errors)["captcha" := [CaptchaError]]
      ensures answer == expected ==> errors == old(errors)
    {
      if answer != expected {
        errors := errors["captcha" := [CaptchaError]];
      }
      cleaned := answer;
    }
  }
}
