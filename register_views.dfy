/** The register app's view logic: the region list of the home page, the
    view's own start and past-event tests, the pre-registration decision
    (duplicate check, then save, then two e-mails), the rider address list
    page, and the envelopes of the two messages a registration sends.

    The request's host, the site's sending address and the clock are
    parameters. The rider store is the `Registry` class, whose fields the
    registration updates in place.
 */
module RegisterViews {
  import opened Text
  import opened Calendar
  import opened Mail
  import RegisterModels

  type Brevet = RegisterModels.Brevet
  type BrevetRider = RegisterModels.BrevetRider

  // ---------------------------------------------------------------------
  // Home page regions
  // ---------------------------------------------------------------------

  /** `Brevet.objects.exclude(date__lt=seven_days_ago)` keeps an event. */
  predicate Listed(date: Date, today: Date)
    requires ValidDate(date) && ValidDate(today)
  {
    !(Ordinal(date) < Ordinal(today) - 7)
  }

  /** The lists keep exactly the events that have no results page yet. */
  lemma ListedIffNotPast(date: Date, today: Date)
    requires ValidDate(date) && ValidDate(today)
    ensures Listed(date, today) <==> RegisterModels.InPast(date, today).None?
  {
  }

  function Elems(s: seq<string>): set<string> {
    set x | x in s
  }

  predicate StrictlySorted(s: seq<string>) {
    forall i, j :: 0 <= i < j < |s| ==> StrLess(s[i], s[j])
  }

  /** Put `x` into a strictly sorted list unless it is already there. */
  function Insert(x: string, s: seq<string>): (r: seq<string>)
    requires StrictlySorted(s)
    ensures StrictlySorted(r)
    ensures Elems(r) == Elems(s) + {x}
    ensures |r| >= 1
  {
    if s == [] then [x]
    else if x == s[0] then s
    else if StrLess(x, s[0]) then
      InsertFront(x, s);
      ElemsCons(x, s);
      [x] + s
    else
      var rest := Insert(x, s[1..]);
      InsertAfter(x, s, rest);
      ElemsCons(s[0], rest);
      ElemsCons(s[0], s[1..]);
      assert [s[0]] + s[1..] == s;
      [s[0]] + rest
  }

  lemma ElemsCons(a: string, t: seq<string>)
    ensures Elems([a] + t) == {a} + Elems(t)
  {
  }

  lemma InsertFront(x: string, s: seq<string>)
    requires StrictlySorted(s) && s != [] && StrLess(x, s[0])
    ensures StrictlySorted([x] + s)
  {
    forall j | 1 <= j < |s| + 1 ensures StrLess(([x] + s)[0], ([x] + s)[j]) {
      if j > 1 {
        StrLessTransitive(x, s[0], s[j - 1]);
      }
    }
  }

  lemma InsertAfter(x: string, s: seq<string>, rest: seq<string>)
    requires StrictlySorted(s) && s != [] && x != s[0] && !StrLess(x, s[0])
    requires StrictlySorted(rest) && |rest| >= 1
    requires Elems(rest) == Elems(s[1..]) + {x}
    ensures StrictlySorted([s[0]] + rest)
  {
    StrLessTotal(x, s[0]);
    forall j | 0 <= j < |rest| ensures StrLess(s[0], rest[j]) {
      assert rest[j] in Elems(rest);
      if rest[j] != x {
        assert rest[j] in s[1..];
        var k :| 0 <= k < |s| - 1 && s[1..][k] == rest[j];
        assert s[k + 1] == rest[j];
      }
    }
  }

  /** `sorted(set(xs))`. */
  function SortedSet(xs: seq<string>): (r: seq<string>)
    ensures StrictlySorted(r)
    ensures Elems(r) == Elems(xs)
  {
    if xs == [] then []
    else
      var r := Insert(xs[|xs| - 1], SortedSet(xs[..|xs| - 1]));
      assert xs == xs[..|xs| - 1] + [xs[|xs| - 1]];
      assert Elems(xs) == Elems(xs[..|xs| - 1]) + {xs[|xs| - 1]};
      r
  }

  /** The regions of the listed brevets, in queryset order. */
  function ListedRegions(brevets: seq<Brevet>, today: Date): (r: seq<string>)
    requires forall i :: 0 <= i < |brevets| ==> ValidDate(brevets[i].date)
    requires ValidDate(today)
    ensures |r| <= |brevets|
  {
    if brevets == [] then []
    else
      var init := brevets[..|brevets| - 1];
      var last := brevets[|brevets| - 1];
      var rest := ListedRegions(init, today);
      rest + (if Listed(last.date, today) then [last.region] else [])
  }

  /** A listed brevet's region is in the list, and every region in the list
      is some listed brevet's. */
  lemma {:induction false} ListedRegionsMembers(brevets: seq<Brevet>, today: Date, x: string)
    requires forall i :: 0 <= i < |brevets| ==> ValidDate(brevets[i].date)
    requires ValidDate(today)
    ensures x in ListedRegions(brevets, today) <==>
      exists k :: 0 <= k < |brevets| && Listed(brevets[k].date, today) && brevets[k].region == x
  {
    if brevets != [] {
      var init := brevets[..|brevets| - 1];
      assert forall i :: 0 <= i < |init| ==> init[i] == brevets[i];
      ListedRegionsMembers(init, today, x);
      if x in ListedRegions(brevets, today) && x !in ListedRegions(init, today) {
        assert brevets[|brevets| - 1].region == x;
      }
    }
  }

  /** The home page's region list: `(abbrev, long name)` for every region
      with a listed brevet, by region code; None for the KeyError of a
      region code the region table lacks. */
  function HomeRegions(brevets: seq<Brevet>, today: Date): Option<seq<(string, string)>>
    requires forall i :: 0 <= i < |brevets| ==> ValidDate(brevets[i].date)
    requires ValidDate(today)
  {
    var regions := SortedSet(ListedRegions(brevets, today));
    if forall i :: 0 <= i < |regions| ==> regions[i] in RegisterModels.Regions then
      Some(seq(|regions|, i requires 0 <= i < |regions| && regions[i] in RegisterModels.Regions =>
        (regions[i], RegisterModels.Regions[regions[i]])))
    else None
  }

  /** The home page fails (a KeyError) exactly when some brevet dated seven
      days ago or later is in a region the region table lacks. */
  lemma HomeRegionsSpec(brevets: seq<Brevet>, today: Date)
    requires forall i :: 0 <= i < |brevets| ==> ValidDate(brevets[i].date)
    requires ValidDate(today)
    ensures HomeRegions(brevets, today).Some? <==>
      forall k :: 0 <= k < |brevets| && Listed(brevets[k].date, today) ==> brevets[k].region in RegisterModels.Regions
  {
    var regions := SortedSet(ListedRegions(brevets, today));
    if HomeRegions(brevets, today).Some? {
      forall k | 0 <= k < |brevets| && Listed(brevets[k].date, today)
        ensures brevets[k].region in RegisterModels.Regions
      {
        var i := ListedRegionIndex(brevets, today, k);
      }
    } else {
      var i :| 0 <= i < |regions| && regions[i] !in RegisterModels.Regions;
      var k := ListedBrevetOf(brevets, today, regions[i]);
    }
  }

  /** Otherwise the page lists the region codes in strictly increasing
      order, each beside its long name from the region table. */
  lemma HomeRegionsOrdered(brevets: seq<Brevet>, today: Date)
    requires forall i :: 0 <= i < |brevets| ==> ValidDate(brevets[i].date)
    requires ValidDate(today)
    requires HomeRegions(brevets, today).Some?
    ensures var rs := HomeRegions(brevets, today).value;
      (forall i, j :: 0 <= i < j < |rs| ==> StrLess(rs[i].0, rs[j].0))
      && (forall i :: 0 <= i < |rs| ==> rs[i].0 in RegisterModels.Regions && rs[i].1 == RegisterModels.Regions[rs[i].0])
  {
    var regions := SortedSet(ListedRegions(brevets, today));
    var rs := HomeRegions(brevets, today).value;
    assert |rs| == |regions| && forall i :: 0 <= i < |rs| ==> rs[i].0 == regions[i];
  }

  /** The listed codes are exactly the regions of the brevets dated seven
      days ago or later, each once. */
  lemma HomeRegionsCover(brevets: seq<Brevet>, today: Date)
    requires forall i :: 0 <= i < |brevets| ==> ValidDate(brevets[i].date)
    requires ValidDate(today)
    requires HomeRegions(brevets, today).Some?
    ensures var rs := HomeRegions(brevets, today).value;
      (forall i :: 0 <= i < |rs| ==>
         exists k :: 0 <= k < |brevets| && Listed(brevets[k].date, today) && brevets[k].region == rs[i].0)
      && (forall k :: 0 <= k < |brevets| && Listed(brevets[k].date, today) ==>
            exists i :: 0 <= i < |rs| && rs[i].0 == brevets[k].region)
  {
    var regions := SortedSet(ListedRegions(brevets, today));
    var rs := HomeRegions(brevets, today).value;
    assert |rs| == |regions| && forall i :: 0 <= i < |rs| ==> rs[i].0 == regions[i];
    forall i | 0 <= i < |rs|
      ensures exists k :: 0 <= k < |brevets| && Listed(brevets[k].date, today) && brevets[k].region == rs[i].0
    {
      var k := ListedBrevetOf(brevets, today, regions[i]);
    }
    forall k | 0 <= k < |brevets| && Listed(brevets[k].date, today)
      ensures exists i :: 0 <= i < |rs| && rs[i].0 == brevets[k].region
    {
      var i := ListedRegionIndex(brevets, today, k);
      assert rs[i].0 == regions[i];
    }
  }

  /** A listed brevet whose region is the given home-page code. */
  lemma ListedBrevetOf(brevets: seq<Brevet>, today: Date, x: string) returns (k: nat)
    requires forall i :: 0 <= i < |brevets| ==> ValidDate(brevets[i].date)
    requires ValidDate(today)
    requires x in SortedSet(ListedRegions(brevets, today))
    ensures k < |brevets| && Listed(brevets[k].date, today) && brevets[k].region == x
  {
    SameElems(SortedSet(ListedRegions(brevets, today)), ListedRegions(brevets, today), x);
    ListedRegionsMembers(brevets, today, x);
    var j :| 0 <= j < |brevets| && Listed(brevets[j].date, today) && brevets[j].region == x;
    k := j;
  }

  /** Where a listed brevet's region sits among the home page's codes. */
  lemma ListedRegionIndex(brevets: seq<Brevet>, today: Date, k: nat) returns (i: nat)
    requires forall i :: 0 <= i < |brevets| ==> ValidDate(brevets[i].date)
    requires ValidDate(today)
    requires k < |brevets| && Listed(brevets[k].date, today)
    ensures i < |SortedSet(ListedRegions(brevets, today))|
    ensures SortedSet(ListedRegions(brevets, today))[i] == brevets[k].region
  {
    var x := brevets[k].region;
    ListedRegionsMembers(brevets, today, x);
    SameElems(SortedSet(ListedRegions(brevets, today)), ListedRegions(brevets, today), x);
    var regions := SortedSet(ListedRegions(brevets, today));
    var j :| 0 <= j < |regions| && regions[j] == x;
    i := j;
  }

  /** The sorted region codes are those of the listed brevets. */
  lemma RegionsCover(brevets: seq<Brevet>, today: Date)
    requires forall i :: 0 <= i < |brevets| ==> ValidDate(brevets[i].date)
    requires ValidDate(today)
    ensures var regions := SortedSet(ListedRegions(brevets, today));
      (forall i :: 0 <= i < |regions| ==>
         exists k :: 0 <= k < |brevets| && Listed(brevets[k].date, today) && brevets[k].region == regions[i])
      && (forall k :: 0 <= k < |brevets| && Listed(brevets[k].date, today) ==> brevets[k].region in regions)
  {
    var listed := ListedRegions(brevets, today);
    var regions := SortedSet(listed);
    forall k | 0 <= k < |brevets| && Listed(brevets[k].date, today)
      ensures brevets[k].region in regions
    {
      ListedRegionsMembers(brevets, today, brevets[k].region);
      SameElems(regions, listed, brevets[k].region);
    }
    forall i | 0 <= i < |regions|
      ensures exists k :: 0 <= k < |brevets| && Listed(brevets[k].date, today) && brevets[k].region == regions[i]
    {
      SameElems(regions, listed, regions[i]);
      ListedRegionsMembers(brevets, today, regions[i]);
    }
  }

  lemma SameElems(a: seq<string>, b: seq<string>, x: string)
    requires Elems(a) == Elems(b)
    ensures x in a <==> x in b
  {
    assert x in a <==> x in Elems(a);
    assert x in b <==> x in Elems(b);
  }

  // ---------------------------------------------------------------------
  // The view's start and past-event tests
  // ---------------------------------------------------------------------

  /** `_brevet_started`: at least one hour after the start plus the server
      offset (2 hours in register/views.py:90), on the server's clock. */
  predicate BrevetStarted(b: Brevet, now: DateTime, offset: nat)
    requires ValidDate(b.date) && ValidTime(b.time) && ValidDateTime(now)
  {
    Instant(now) >= RegisterModels.StartInstant(b) + (1 + offset) * 60
  }

  /** The view's test is the model's test `offset` hours later: whenever the
      view says started the model does, and they disagree exactly from one
      hour after the start until the view's threshold. */
  lemma BrevetStartedLater(b: Brevet, now: DateTime, offset: nat)
    requires ValidDate(b.date) && ValidTime(b.time) && ValidDateTime(now)
    ensures BrevetStarted(b, now, offset) ==> RegisterModels.Started(b, now)
    ensures RegisterModels.Started(b, now) && !BrevetStarted(b, now, offset) <==>
      60 <= Instant(now) - RegisterModels.StartInstant(b) < (1 + offset) * 60
  {
  }

  // ---------------------------------------------------------------------
  // Message envelopes
  // ---------------------------------------------------------------------

  /** The rider's confirmation: from the organizer field, to the rider
      alone, sent on behalf of the site, replies to the organizers. */
  function RiderConfirmation(b: Brevet, riderEmail: string, siteAddress: string, links: seq<string>): Envelope
    requires ValidDate(b.date)
  {
    Envelope(
      "Pre-registration Confirmation for " + RegisterModels.Label(b) + " Brevet",
      b.organizerEmail, [riderEmail], Some(siteAddress), Some(b.organizerEmail), links)
  }

  /** The organizers' notice: from the site, to every address of the
      organizer field. */
  function OrganizerNotice(b: Brevet, rider: BrevetRider, siteAddress: string, links: seq<string>): Envelope
    requires ValidDate(b.date)
  {
    Envelope(
      RegisterModels.FullName(rider.firstName, rider.lastName) + " has Pre-registered for the "
        + RegisterModels.Label(b),
      siteAddress, AddressList(b.organizerEmail), None, None, links)
  }

  /** A rider's reply reaches the same organizers the notice goes to, and an
      organizer field written as addresses joined by a comma and spaces is
      read back as exactly those addresses. */
  lemma OrganizersReached(b: Brevet, rider: BrevetRider, site: string, links: seq<string>,
                          addrs: seq<string>, pad: string)
    requires ValidDate(b.date)
    ensures AddressList(RiderConfirmation(b, rider.email, site, links).replyTo.value)
         == OrganizerNotice(b, rider, site, links).to
    ensures |addrs| >= 1 && Padding(pad) && b.organizerEmail == Join(addrs, [','] + pad)
      && (forall i :: 0 <= i < |addrs| ==> addrs[i] != [] && ',' !in addrs[i] && Trimmed(addrs[i]))
      ==> OrganizerNotice(b, rider, site, links).to == addrs
  {
    if |addrs| >= 1 && Padding(pad) && b.organizerEmail == Join(addrs, [','] + pad)
      && (forall i :: 0 <= i < |addrs| ==> addrs[i] != [] && ',' !in addrs[i] && Trimmed(addrs[i])) {
      AddressListJoin(addrs, pad);
    }
  }

  // ---------------------------------------------------------------------
  // Pre-registration
  // ---------------------------------------------------------------------

  /** The fields of a submitted registration form. */
  datatype Submission = Submission(
    firstName: string, lastName: string, email: string, infoAnswer: string, clubMember: bool)

  /** The outcome of Django's `.get()`: no record, one record, or more than
      one (MultipleObjectsReturned). */
  datatype Lookup = NotFound | Found(id: nat) | Multiple

  /** A stored rider is the same registration: same names, same address,
      same brevet. */
  predicate SameRegistration(r: BrevetRider, sub: Submission, brevet: nat) {
    r.firstName == sub.firstName && r.lastName == sub.lastName && r.email == sub.email && r.brevet == brevet
  }

  /** The ids of the stored riders matching a submission, in store order. */
  function MatchIds(riders: seq<BrevetRider>, sub: Submission, brevet: nat): (ids: seq<nat>)
    ensures |ids| <= |riders|
  {
    if riders == [] then []
    else
      var init := riders[..|riders| - 1];
      var last := riders[|riders| - 1];
      MatchIds(init, sub, brevet) + (if SameRegistration(last, sub, brevet) then [last.id] else [])
  }

  /** The matching ids are exactly the ids of the stored riders that are
      the same registration. */
  lemma {:induction false} MatchIdsMembers(riders: seq<BrevetRider>, sub: Submission, brevet: nat)
    ensures forall id :: id in MatchIds(riders, sub, brevet) <==>
      exists i :: 0 <= i < |riders| && SameRegistration(riders[i], sub, brevet) && riders[i].id == id
  {
    if riders != [] {
      var init := riders[..|riders| - 1];
      assert forall i :: 0 <= i < |init| ==> init[i] == riders[i];
      MatchIdsMembers(init, sub, brevet);
    }
  }

  /** `Rider.objects.get(...)` with the registration's fields. */
  function LookupRider(riders: seq<BrevetRider>, sub: Submission, brevet: nat): Lookup {
    var ids := MatchIds(riders, sub, brevet);
    if |ids| == 0 then NotFound else if |ids| == 1 then Found(ids[0]) else Multiple
  }

  /** The store as the registration sees it: the riders, the next id the
      database will hand out, and the messages sent so far. */
  datatype Store = Store(riders: seq<BrevetRider>, nextId: nat, outbox: seq<Envelope>)

  /** Every stored id is below the next id. */
  predicate IdsBelow(riders: seq<BrevetRider>, nextId: nat) {
    forall i :: 0 <= i < |riders| ==> riders[i].id < nextId
  }

  /** Two stored riders are the same registration. */
  predicate SameKey(r: BrevetRider, q: BrevetRider) {
    r.firstName == q.firstName && r.lastName == q.lastName && r.email == q.email && r.brevet == q.brevet
  }

  /** No two stored riders are the same registration. */
  predicate NoDuplicates(riders: seq<BrevetRider>) {
    forall i, j :: 0 <= i < j < |riders| ==> !SameKey(riders[i], riders[j])
  }

  /** The brevet page path the registration redirects to:
      `register/{region}{event}/{date:%d%b%Y}`, the region always present. */
  function BrevetPage(b: Brevet): string
    requires ValidDate(b.date)
  {
    "register/" + b.region + b.event + "/" + FormatDate(b.date, "")
  }

  function DuplicateUrl(b: Brevet, id: nat): string
    requires ValidDate(b.date)
  {
    "/" + BrevetPage(b) + "/" + NatToString(id) + "/duplicate/"
  }

  function ConfirmationUrl(b: Brevet, id: nat): string
    requires ValidDate(b.date)
  {
    "/" + BrevetPage(b) + "/" + NatToString(id) + "/"
  }

  function PageUri(b: Brevet, host: string): string
    requires ValidDate(b.date)
  {
    "http://" + host + "/" + BrevetPage(b) + "/"
  }

  function NewRider(id: nat, sub: Submission, brevet: nat): BrevetRider {
    RegisterModels.BrevetRider(id, sub.firstName, sub.lastName, sub.email, sub.infoAnswer, sub.clubMember, brevet)
  }

  /** The two messages of a new registration, in sending order. */
  function Notices(b: Brevet, rider: BrevetRider, host: string, site: string): seq<Envelope>
    requires ValidDate(b.date)
  {
    [RiderConfirmation(b, rider.email, site, [PageUri(b, host)]),
     OrganizerNotice(b, rider, site, [PageUri(b, host)])]
  }

  /** `_process_registration`, on the store: the new store and the redirect
      address. None is the MultipleObjectsReturned failure. */
  function Register(s: Store, b: Brevet, brevet: nat, sub: Submission, host: string, site: string): (Store, Option<string>)
    requires ValidDate(b.date)
  {
    match LookupRider(s.riders, sub, brevet)
    case Found(id) => (s, Some(DuplicateUrl(b, id)))
    case Multiple => (s, None)
    case NotFound =>
      var rider := NewRider(s.nextId, sub, brevet);
      (Store(s.riders + [rider], s.nextId + 1, s.outbox + Notices(b, rider, host, site)),
       Some(ConfirmationUrl(b, s.nextId)))
  }

  /** A repeated registration saves nothing, sends nothing, and redirects to
      the duplicate notice of the stored rider's page. */
  lemma RegisterDuplicate(s: Store, b: Brevet, brevet: nat, sub: Submission, host: string, site: string)
    requires ValidDate(b.date)
    requires LookupRider(s.riders, sub, brevet).Found?
    ensures Register(s, b, brevet, sub, host, site).0 == s
    ensures exists i :: 0 <= i < |s.riders| && SameRegistration(s.riders[i], sub, brevet) &&
                        Register(s, b, brevet, sub, host, site).1 == Some(DuplicateUrl(b, s.riders[i].id))
  {
    var id := LookupRider(s.riders, sub, brevet).id;
    MatchIdsMembers(s.riders, sub, brevet);
    assert id in MatchIds(s.riders, sub, brevet);
  }

  /** A new registration saves exactly one rider, with the next id and the
      submitted fields, and then sends the rider's confirmation followed by
      the organizers' notice; the redirect names the new id. */
  lemma RegisterNew(s: Store, b: Brevet, brevet: nat, sub: Submission, host: string, site: string)
    requires ValidDate(b.date)
    requires LookupRider(s.riders, sub, brevet).NotFound?
    ensures var (t, url) := Register(s, b, brevet, sub, host, site);
      |t.riders| == |s.riders| + 1 && t.riders[..|s.riders|] == s.riders
      && SameRegistration(t.riders[|s.riders|], sub, brevet) && t.riders[|s.riders|].id == s.nextId
      && |t.outbox| == |s.outbox| + 2 && t.outbox[..|s.outbox|] == s.outbox
      && t.outbox[|s.outbox|].to == [sub.email]
      && t.outbox[|s.outbox| + 1].to == AddressList(b.organizerEmail)
      && url == Some(ConfirmationUrl(b, s.nextId))
  {
  }

  /** Submitting the same registration twice stores it once: on the store
      the first submission leaves (see RegisterNew), the second one finds
      exactly the rider the first saved, changes nothing and redirects to
      that rider's duplicate notice. */
  lemma RegisterTwice(s: Store, t: Store, b: Brevet, brevet: nat, sub: Submission, host: string, site: string)
    requires ValidDate(b.date)
    requires LookupRider(s.riders, sub, brevet).NotFound?
    requires t.riders == s.riders + [NewRider(s.nextId, sub, brevet)]
    ensures MatchIds(t.riders, sub, brevet) == [s.nextId]
    ensures Register(t, b, brevet, sub, host, site).0 == t
    ensures Register(t, b, brevet, sub, host, site).1 == Some(DuplicateUrl(b, s.nextId))
  {
    MatchIdsAppend(s.riders, NewRider(s.nextId, sub, brevet), sub, brevet);
    assert LookupRider(t.riders, sub, brevet) == Found(s.nextId);
  }

  /** The store a new registration leaves, field by field. */
  lemma RegisterNewStore(s: Store, b: Brevet, brevet: nat, sub: Submission, host: string, site: string)
    requires ValidDate(b.date)
    requires LookupRider(s.riders, sub, brevet).NotFound?
    ensures var rider := NewRider(s.nextId, sub, brevet);
      var r := Register(s, b, brevet, sub, host, site);
      r.0.riders == s.riders + [rider] && r.0.nextId == s.nextId + 1
      && r.0.outbox == s.outbox + Notices(b, rider, host, site) && r.1 == Some(ConfirmationUrl(b, s.nextId))
  {
  }

  lemma MatchIdsAppend(riders: seq<BrevetRider>, rider: BrevetRider, sub: Submission, brevet: nat)
    requires |MatchIds(riders, sub, brevet)| == 0 && SameRegistration(rider, sub, brevet)
    ensures MatchIds(riders + [rider], sub, brevet) == [rider.id]
  {
    assert (riders + [rider])[..|riders|] == riders;
  }

  /** Registration keeps every stored id below the next id and never stores
      the same registration twice; on such a store the lookup never finds
      more than one rider. */
  lemma RegisterKeepsStoreValid(s: Store, b: Brevet, brevet: nat, sub: Submission, host: string, site: string)
    requires ValidDate(b.date)
    requires IdsBelow(s.riders, s.nextId) && NoDuplicates(s.riders)
    ensures var t := Register(s, b, brevet, sub, host, site).0;
      IdsBelow(t.riders, t.nextId) && NoDuplicates(t.riders)
    ensures !LookupRider(s.riders, sub, brevet).Multiple?
  {
    AtMostOneMatch(s.riders, sub, brevet);
    if LookupRider(s.riders, sub, brevet).NotFound? {
      var rider := NewRider(s.nextId, sub, brevet);
      assert Register(s, b, brevet, sub, host, site).0.riders == s.riders + [rider];
      AppendNew(s.riders, s.nextId, rider, sub, brevet);
    }
  }

  lemma AppendNew(riders: seq<BrevetRider>, nextId: nat, rider: BrevetRider, sub: Submission, brevet: nat)
    requires IdsBelow(riders, nextId) && NoDuplicates(riders)
    requires MatchIds(riders, sub, brevet) == []
    requires rider == NewRider(nextId, sub, brevet)
    ensures IdsBelow(riders + [rider], nextId + 1) && NoDuplicates(riders + [rider])
  {
    MatchIdsMembers(riders, sub, brevet);
    forall i | 0 <= i < |riders| ensures !SameRegistration(riders[i], sub, brevet) {
      assert riders[i].id !in MatchIds(riders, sub, brevet);
    }
  }

  lemma {:induction false} AtMostOneMatch(riders: seq<BrevetRider>, sub: Submission, brevet: nat)
    requires NoDuplicates(riders)
    ensures |MatchIds(riders, sub, brevet)| <= 1
  {
    if riders != [] {
      var init := riders[..|riders| - 1];
      var last := riders[|riders| - 1];
      assert NoDuplicates(init);
      AtMostOneMatch(init, sub, brevet);
      if SameRegistration(last, sub, brevet) {
        forall k | 0 <= k < |init| ensures !SameRegistration(init[k], sub, brevet) {
          assert !SameKey(riders[k], last);
        }
        NoMatchEmpty(init, sub, brevet);
      }
    }
  }

  lemma {:induction false} NoMatchEmpty(riders: seq<BrevetRider>, sub: Submission, brevet: nat)
    requires forall k :: 0 <= k < |riders| ==> !SameRegistration(riders[k], sub, brevet)
    ensures MatchIds(riders, sub, brevet) == []
  {
    if riders != [] {
      var init := riders[..|riders| - 1];
      assert forall k :: 0 <= k < |init| ==> init[k] == riders[k];
      NoMatchEmpty(init, sub, brevet);
    }
  }

  /** The stored riders, the id counter and the outbox of sent messages. */
  class Registry {
    var riders: seq<BrevetRider>
    var nextId: nat
    var outbox: seq<Envelope>

    constructor ()
      ensures riders == [] && nextId == 1 && outbox == []
    {
      riders := [];
      nextId := 1;
      outbox := [];
    }

    /** `Rider.objects.get(...)`: scan the stored riders and collect the
        matching ids. */
    method FindRegistration(sub: Submission, brevet: nat) returns (r: Lookup)
      ensures r == LookupRider(riders, sub, brevet)
    {
      var ids: seq<nat> := [];
      var i := 0;
      while i < |riders|
        invariant 0 <= i <= |riders|
        invariant ids == MatchIds(riders[..i], sub, brevet)
      {
        assert riders[..i + 1][..i] == riders[..i];
        if SameRegistration(riders[i], sub, brevet) {
          ids := ids + [riders[i].id];
        }
        i := i + 1;
      }
      assert riders[..i] == riders;
      if |ids| == 0 {
        r := NotFound;
      } else if |ids| == 1 {
        r := Found(ids[0]);
      } else {
        r := Multiple;
      }
    }

    /** `_process_registration`: look for the registration; if it is new,
        save the rider, send the confirmation, then the notice. */
    method ProcessRegistration(b: Brevet, brevet: nat, sub: Submission, host: string, site: string)
      returns (url: Option<string>)
      requires ValidDate(b.date)
      modifies this
      ensures var r := Register(Store(old(riders), old(nextId), old(outbox)), b, brevet, sub, host, site);
        riders == r.0.riders && nextId == r.0.nextId && outbox == r.0.outbox && url == r.1
    {
      ghost var s0 := Store(riders, nextId, outbox);
      var found := FindRegistration(sub, brevet);
      match found {
        case Found(id) =>
          RegisterFound(s0, b, brevet, sub, host, site, id);
          url := Some(DuplicateUrl(b, id));
        case Multiple =>
          RegisterMultiple(s0, b, brevet, sub, host, site);
          url := None;
        case NotFound =>
          url := SaveNew(b, brevet, sub, host, site);
          RegisterNewStore(Store(old(riders), old(nextId), old(outbox)), b, brevet, sub, host, site);
      }
    }

    /** The new-registration branch: `rider.save()` under the next id, then
        the confirmation to the rider and the notice to the organizers. */
    method SaveNew(b: Brevet, brevet: nat, sub: Submission, host: string, site: string)
      returns (url: Option<string>)
      requires ValidDate(b.date)
      modifies this
      ensures riders == old(riders) + [NewRider(old(nextId), sub, brevet)]
      ensures nextId == old(nextId) + 1
      ensures outbox == old(outbox) + Notices(b, NewRider(old(nextId), sub, brevet), host, site)
      ensures url == Some(ConfirmationUrl(b, old(nextId)))
    {
      var rider := NewRider(nextId, sub, brevet);
      riders := riders + [rider];
      nextId := nextId + 1;
      outbox := outbox + Notices(b, rider, host, site);
      url := Some(ConfirmationUrl(b, rider.id));
    }
  }

  /** The outcome of a registration the lookup finds once. */
  lemma RegisterFound(s: Store, b: Brevet, brevet: nat, sub: Submission, host: string, site: string, id: nat)
    requires ValidDate(b.date)
    requires LookupRider(s.riders, sub, brevet) == Found(id)
    ensures Register(s, b, brevet, sub, host, site).0 == s
    ensures Register(s, b, brevet, sub, host, site).1 == Some(DuplicateUrl(b, id))
  {
  }

  /** The outcome of a registration the lookup finds several times. */
  lemma RegisterMultiple(s: Store, b: Brevet, brevet: nat, sub: Submission, host: string, site: string)
    requires ValidDate(b.date)
    requires LookupRider(s.riders, sub, brevet) == Multiple
    ensures Register(s, b, brevet, sub, host, site).0 == s
    ensures Register(s, b, brevet, sub, host, site).1.None?
  {
  }

  // ---------------------------------------------------------------------
  // The rider address list page
  // ---------------------------------------------------------------------

  /** The addresses of a brevet's riders, in the queryset's last-name
      order. */
  function RiderAddresses(riders: seq<BrevetRider>, brevet: nat): seq<string> {
    var q := RegisterModels.RidersOf(riders, brevet);
    seq(|q|, k requires 0 <= k < |q| => q[k].email)
  }

  /** `brevet_rider_emails`: None is the Http404 of a brevet without
      riders; otherwise the addresses joined by a comma and a space. */
  function BrevetRiderEmails(riders: seq<BrevetRider>, brevet: nat): Option<string> {
    var addrs := RiderAddresses(riders, brevet);
    if addrs == [] then None else Some(Join(addrs, ", "))
  }

  /** The page is missing exactly when the brevet has no rider. Otherwise,
      read as a comma-separated address list, it gives back one address per
      rider of the queryset, in its order: every rider of the brevet as
      often as stored, no other rider, sorted by last name. */
  lemma BrevetRiderEmailsRoundTrip(riders: seq<BrevetRider>, brevet: nat)
    requires forall i :: 0 <= i < |riders| ==>
      riders[i].email != [] && ',' !in riders[i].email && Trimmed(riders[i].email)
    ensures BrevetRiderEmails(riders, brevet).None? <==>
      forall i :: 0 <= i < |riders| ==> riders[i].brevet != brevet
    ensures var q := RegisterModels.RidersOf(riders, brevet);
      BrevetRiderEmails(riders, brevet).Some? ==>
        |AddressList(BrevetRiderEmails(riders, brevet).value)| == |q|
        && forall k :: 0 <= k < |q| ==> AddressList(BrevetRiderEmails(riders, brevet).value)[k] == q[k].email
    ensures forall x ::
      multiset(RegisterModels.RidersOf(riders, brevet))[x] == (if x.brevet == brevet then multiset(riders)[x] else 0)
    ensures forall j, k :: 0 <= j < k < |RegisterModels.RidersOf(riders, brevet)| ==>
      !StrLess(RegisterModels.RidersOf(riders, brevet)[k].lastName, RegisterModels.RidersOf(riders, brevet)[j].lastName)
  {
    AddressesOf(riders, brevet);
    RegisterModels.RidersOfOrder(riders, brevet);
    var q := RegisterModels.RidersOf(riders, brevet);
    var addrs := RiderAddresses(riders, brevet);
    if addrs != [] {
      assert forall k :: 0 <= k < |addrs| ==> addrs[k] == q[k].email;
      assert ", " == [','] + " ";
      assert Padding(" ");
      AddressListJoin(addrs, " ");
    }
  }

  /** The address list is empty exactly when the brevet has no rider; it
      holds the address of every rider of the brevet, and each address it
      holds is the address of a rider of the brevet. */
  lemma AddressesOf(riders: seq<BrevetRider>, brevet: nat)
    ensures RiderAddresses(riders, brevet) == [] <==>
      forall i :: 0 <= i < |riders| ==> riders[i].brevet != brevet
    ensures forall i :: 0 <= i < |riders| && riders[i].brevet == brevet ==>
      riders[i].email in RiderAddresses(riders, brevet)
    ensures forall k :: 0 <= k < |RiderAddresses(riders, brevet)| ==>
      exists i :: 0 <= i < |riders| && riders[i].brevet == brevet && RiderAddresses(riders, brevet)[k] == riders[i].email
  {
    RegisterModels.RidersOfOrder(riders, brevet);
    var q := RegisterModels.RidersOf(riders, brevet);
    var addrs := RiderAddresses(riders, brevet);
    forall i | 0 <= i < |riders| && riders[i].brevet == brevet
      ensures riders[i].email in addrs
    {
      assert riders[i] in multiset(riders);
      assert riders[i] in multiset(q);
      var k :| 0 <= k < |q| && q[k] == riders[i];
      assert addrs[k] == riders[i].email;
    }
    forall k | 0 <= k < |addrs|
      ensures exists i :: 0 <= i < |riders| && riders[i].brevet == brevet && addrs[k] == riders[i].email
    {
      assert q[k] in multiset(q);
      assert q[k] in multiset(riders);
      var i :| 0 <= i < |riders| && riders[i] == q[k];
    }
  }
}
