/** The populaires app's view logic: which populaires the welcome page
    lists, when a populaire page shows the filler photo, and what the
    pre-registration form page does, including how the populaire's
    distance field becomes the radio choices of the form.
 */
module PopulaireViews {
  import opened Text
  import opened Calendar
  import PopulaireModels
  import RegisterViews
  import Ordering

  type Populaire = PopulaireModels.Populaire
  type Rider = PopulaireModels.Rider

  // ---------------------------------------------------------------------
  // The welcome page's event list
  // ---------------------------------------------------------------------

  predicate AllValid(pops: seq<Populaire>) {
    forall i :: 0 <= i < |pops| ==> ValidDate(pops[i].date)
  }

  /** The populaires `exclude(date__lt=seven_days_ago)` keeps, in store
      order. */
  function Recent(pops: seq<Populaire>, today: Date): (r: seq<Populaire>)
    requires AllValid(pops) && ValidDate(today)
  {
    if pops == [] then []
    else
      (if RegisterViews.Listed(pops[0].date, today) then [pops[0]] else [])
        + Recent(pops[1..], today)
  }

  lemma {:induction false} RecentCounts(pops: seq<Populaire>, today: Date)
    requires AllValid(pops) && ValidDate(today)
    ensures forall x ::
      multiset(Recent(pops, today))[x] == (if ValidDate(x.date) && RegisterViews.Listed(x.date, today) then multiset(pops)[x] else 0)
  {
    if pops != [] {
      RecentCounts(pops[1..], today);
      assert pops == [pops[0]] + pops[1..];
    }
  }

  /** `Populaire.objects.exclude(date__lt=seven_days_ago)`: the recent
      populaires in the date order of the model's Meta. */
  function PopulairesList(pops: seq<Populaire>, today: Date): seq<Populaire>
    requires AllValid(pops) && ValidDate(today)
  {
    Ordering.SortBy(Recent(pops, today), PopulaireModels.DateLe)
  }

  /** The list holds every populaire dated seven days ago or later exactly
      as often as the store does, no other populaire, and is in date
      order. */
  lemma PopulairesListOrder(pops: seq<Populaire>, today: Date)
    requires AllValid(pops) && ValidDate(today)
    ensures forall x ::
      multiset(PopulairesList(pops, today))[x] == (if ValidDate(x.date) && Ordinal(x.date) >= Ordinal(today) - 7 then multiset(pops)[x] else 0)
    ensures forall j, k :: 0 <= j < k < |PopulairesList(pops, today)| ==>
      !LexLess(PopulairesList(pops, today)[k].date, PopulairesList(pops, today)[j].date)
  {
    RecentCounts(pops, today);
    PopulaireModels.DateOrder();
    Ordering.SortByOrders(Recent(pops, today), PopulaireModels.DateLe);
  }

  /** A populaire is listed exactly when it is one of the given populaires
      and is not dated more than seven days before today, that is exactly
      when it has no results page yet. */
  lemma PopulairesListMembers(pops: seq<Populaire>, today: Date, p: Populaire)
    requires AllValid(pops) && ValidDate(today)
    requires p in pops
    ensures p in PopulairesList(pops, today) <==> Ordinal(p.date) >= Ordinal(today) - 7
    ensures p in PopulairesList(pops, today) <==> PopulaireModels.InPast(p, today).None?
  {
    PopulairesListOrder(pops, today);
    assert p in multiset(pops);
    assert p in PopulairesList(pops, today) <==> p in multiset(PopulairesList(pops, today));
  }

  /** Every listed populaire is one of the given populaires. */
  lemma PopulairesListSubset(pops: seq<Populaire>, today: Date)
    requires AllValid(pops) && ValidDate(today)
    ensures forall q :: q in PopulairesList(pops, today) ==> q in pops
  {
    PopulairesListOrder(pops, today);
    forall q | q in PopulairesList(pops, today) ensures q in pops {
      assert q in multiset(PopulairesList(pops, today));
    }
  }

  // ---------------------------------------------------------------------
  // The populaire page's filler photo
  // ---------------------------------------------------------------------

  /** `show_filler_photo`: fewer than 15 riders are pre-registered. */
  predicate ShowFillerPhoto(riders: seq<Rider>, populaire: nat) {
    |PopulaireModels.RidersOf(riders, populaire)| < 15
  }

  lemma {:induction false} OfPopulaireAppend(riders: seq<Rider>, rider: Rider, populaire: nat)
    ensures |PopulaireModels.OfPopulaire(riders + [rider], populaire)|
         == |PopulaireModels.OfPopulaire(riders, populaire)| + (if rider.populaire == populaire then 1 else 0)
  {
    if riders != [] {
      assert (riders + [rider])[1..] == riders[1..] + [rider];
      OfPopulaireAppend(riders[1..], rider, populaire);
    }
  }

  /** A new rider for the same populaire counts once, a rider for another
      populaire not at all; so once 15 riders have registered the photo
      never comes back. */
  lemma FillerPhotoAfterRegistration(riders: seq<Rider>, rider: Rider, populaire: nat)
    ensures |PopulaireModels.RidersOf(riders + [rider], populaire)|
         == |PopulaireModels.RidersOf(riders, populaire)| + (if rider.populaire == populaire then 1 else 0)
    ensures ShowFillerPhoto(riders + [rider], populaire) ==> ShowFillerPhoto(riders, populaire)
  {
    var before := PopulaireModels.OfPopulaire(riders, populaire);
    var after := PopulaireModels.OfPopulaire(riders + [rider], populaire);
    PopulaireModels.LastNameOrder();
    Ordering.SortByOrders(before, PopulaireModels.LastNameLe);
    Ordering.SortByOrders(after, PopulaireModels.LastNameLe);
    assert |multiset(PopulaireModels.RidersOf(riders, populaire))| == |multiset(before)|;
    assert |multiset(PopulaireModels.RidersOf(riders + [rider], populaire))| == |multiset(after)|;
    OfPopulaireAppend(riders, rider, populaire);
  }

  // ---------------------------------------------------------------------
  // Distance choices
  // ---------------------------------------------------------------------

  /** The characters `strip('kms')` removes from the ends of a distance. */
  const UnitChars: set<char> := {'k', 'm', 's'}

  /** One radio choice from one comma-separated piece of the distance field:
      the number left after stripping unit letters and then whitespace, and
      the piece itself with whitespace stripped. None is int()'s
      ValueError. */
  function DistanceChoice(piece: string): (r: Option<(int, string)>)
    ensures r.Some? ==> r.value.1 == Strip(piece)
    ensures r.Some? <==> ParseInt(Strip(StripChars(piece, UnitChars))).Some?
  {
    match ParseInt(Strip(StripChars(piece, UnitChars)))
    case None => None
    case Some(n) => Some((n, Strip(piece)))
  }

  /** The list comprehension over the pieces: one choice per piece, in
      order, or None when one of them fails. */
  function ChoicesOf(pieces: seq<string>): (r: Option<seq<(int, string)>>)
  {
    if forall i :: 0 <= i < |pieces| ==> DistanceChoice(pieces[i]).Some? then
      Some(seq(|pieces|, i requires 0 <= i < |pieces| && DistanceChoice(pieces[i]).Some? =>
        DistanceChoice(pieces[i]).value))
    else None
  }

  /** `distance_choices` of `registration_form`. */
  function DistanceChoices(distance: string): Option<seq<(int, string)>> {
    ChoicesOf(Split(distance, ','))
  }

  /** One choice per comma-separated piece of the distance field. */
  lemma DistanceChoicesCount(distance: string)
    ensures DistanceChoices(distance).Some? ==> |DistanceChoices(distance).value| == Count(distance, ',') + 1
  {
    SplitPieces(distance, ',');
  }

  /** A distance written as a number, a space and `km`, optionally after a
      space, becomes that number and the written distance. */
  lemma DistanceChoiceKm(pre: string, n: nat)
    requires pre == "" || pre == " "
    ensures DistanceChoice(pre + NatToString(n) + " km") == Some((n, NatToString(n) + " km"))
  {
    var d := NatToString(n);
    var piece := pre + d + " km";
    UnitsStripped(pre, d);
    NumberStripped(pre, n);
    WrittenStripped(pre, d);
    DistanceChoiceOf(piece, n, d + " km");
  }

  lemma DistanceChoiceOf(piece: string, n: int, written: string)
    requires ParseInt(Strip(StripChars(piece, UnitChars))) == Some(n)
    requires Strip(piece) == written
    ensures DistanceChoice(piece) == Some((n, written))
  {
  }

  /** A number written after any leading whitespace and followed by a space
      and unit letters (`km`, `kms`, `m`, ...) becomes that number beside
      the piece without its leading whitespace. */
  lemma DistanceChoiceUnits(pre: string, n: nat, unit: string)
    requires forall i :: 0 <= i < |pre| ==> IsSpace(pre[i])
    requires unit != [] && forall i :: 0 <= i < |unit| ==> unit[i] in UnitChars
    ensures DistanceChoice(pre + NatToString(n) + " " + unit) == Some((n, NatToString(n) + " " + unit))
  {
    var d := NatToString(n);
    var piece := pre + d + " " + unit;
    var written := d + " " + unit;
    assert !IsSpace(d[0]);
    assert written[0] == d[0] && written[|written| - 1] == unit[|unit| - 1];
    UnitLettersStripped(pre, d, unit);
    PaddedNumber(pre, n);
    PaddedWritten(pre, written);
    Assoc4(pre, d, " ", unit);
    DistanceChoiceOf(piece, n, written);
  }

  lemma UnitLettersStripped(pre: string, d: string, unit: string)
    requires forall i :: 0 <= i < |pre| ==> IsSpace(pre[i])
    requires d != [] && IsDigit(d[0])
    requires forall i :: 0 <= i < |unit| ==> unit[i] in UnitChars
    ensures StripChars(pre + d + " " + unit, UnitChars) == pre + d + " "
  {
    var piece := pre + d + " " + unit;
    assert piece == (pre + d + " ") + unit;
    assert piece[0] !in UnitChars by {
      if pre == [] { assert piece[0] == d[0]; } else { assert piece[0] == pre[0]; }
    }
    StripLeftNoop(piece, UnitChars);
    StripRightSuffix(pre + d + " ", unit, UnitChars);
  }

  lemma PaddedNumber(pre: string, n: nat)
    requires forall i :: 0 <= i < |pre| ==> IsSpace(pre[i])
    ensures ParseInt(Strip(pre + NatToString(n) + " ")) == Some(n)
  {
    var d := NatToString(n);
    assert !IsSpace(d[0]) && !IsSpace(d[|d| - 1]);
    StripPadded(pre, d, " ");
    ParseIntToString(n);
    assert IntToString(n) == d;
  }

  lemma PaddedWritten(pre: string, written: string)
    requires forall i :: 0 <= i < |pre| ==> IsSpace(pre[i])
    requires written != [] && !IsSpace(written[0]) && written[|written| - 1] in UnitChars
    ensures Strip(pre + written) == written
  {
    assert pre + written + "" == pre + written;
    StripPadded(pre, written, "");
  }

  /** A piece without a digit is refused: int() finds no number in it. */
  lemma DistanceChoiceNeedsDigit(piece: string)
    ensures DistanceChoice(piece).Some? ==> exists i :: 0 <= i < |piece| && IsDigit(piece[i])
  {
    if DistanceChoice(piece).Some? {
      var x := StripChars(piece, UnitChars);
      var t := Strip(x);
      var u := Strip(t);
      StripCharsWithin(piece, UnitChars);
      StripCharsWithin(x, Whitespace);
      StripCharsWithin(t, Whitespace);
      var c := if u[0] == '-' || u[0] == '+' then u[1] else u[0];
      assert IsDigit(c);
      assert c in piece;
    }
  }

  /** Stripping adds no character. */
  lemma StripCharsWithin(s: string, chars: set<char>)
    ensures forall c :: c in StripChars(s, chars) ==> c in s
  {
    var l := StripLeft(s, chars);
    var r := StripRight(l, chars);
    forall c | c in r ensures c in s {
      var i :| 0 <= i < |r| && r[i] == c;
      assert l[i] == c;
      assert s[|s| - |l| + i] == c;
    }
  }

  lemma WrittenStripped(pre: string, d: string)
    requires pre == "" || pre == " "
    requires d != [] && IsDigit(d[0])
    ensures Strip(pre + d + " km") == d + " km"
  {
    var written := d + " km";
    assert pre + written + "" == pre + d + " km";
    StripPadded(pre, written, "");
  }

  lemma UnitsStripped(pre: string, d: string)
    requires pre == "" || pre == " "
    requires d != [] && IsDigit(d[0]) && IsDigit(d[|d| - 1])
    ensures StripChars(pre + d + " km", UnitChars) == pre + d + " "
  {
    var piece := pre + d + " km";
    StripLeftNoop(piece, UnitChars);
    assert piece == (pre + d + " ") + "km";
    StripRightSuffix(pre + d + " ", "km", UnitChars);
  }

  lemma NumberStripped(pre: string, n: nat)
    requires pre == "" || pre == " "
    ensures ParseInt(Strip(pre + NatToString(n) + " ")) == Some(n)
  {
    var d := NatToString(n);
    assert !IsSpace(d[0]) && !IsSpace(d[|d| - 1]);
    StripPadded(pre, d, " ");
    ParseIntToString(n);
    assert IntToString(n) == d;
  }

  lemma StripLeftNoop(s: string, chars: set<char>)
    requires s != [] && s[0] !in chars
    ensures StripLeft(s, chars) == s
  {
  }

  /** The distance field `50 km, 100 km` style: numbers written with ` km`
      and joined by `, ` come back as the numbers, each beside its written
      form, in order. */
  lemma DistanceChoicesKm(ns: seq<nat>)
    requires |ns| >= 1
    ensures DistanceChoices(Join(KmLabels(ns), ", ")) == Some(KmChoices(ns))
  {
    var pieces := Spaced(KmLabels(ns));
    JoinSpaced(KmLabels(ns));
    KmPieces(ns);
    SplitJoin(pieces, ',');
    ChoicesOfAll(pieces, KmChoices(ns));
  }

  /** Each number beside its written form. */
  function KmChoices(ns: seq<nat>): (r: seq<(int, string)>)
    ensures |r| == |ns|
    ensures forall i :: 0 <= i < |ns| ==> r[i] == (ns[i] as int, NatToString(ns[i]) + " km")
  {
    seq(|ns|, i requires 0 <= i < |ns| => (ns[i] as int, NatToString(ns[i]) + " km"))
  }

  lemma KmPieces(ns: seq<nat>)
    ensures forall i :: 0 <= i < |ns| ==> ',' !in Spaced(KmLabels(ns))[i]
    ensures forall i :: 0 <= i < |ns| ==> DistanceChoice(Spaced(KmLabels(ns))[i]) == Some(KmChoices(ns)[i])
  {
    forall i | 0 <= i < |ns|
      ensures ',' !in Spaced(KmLabels(ns))[i]
      ensures DistanceChoice(Spaced(KmLabels(ns))[i]) == Some(KmChoices(ns)[i])
    {
      KmPiece(ns, i);
    }
  }

  lemma KmPiece(ns: seq<nat>, i: nat)
    requires i < |ns|
    ensures ',' !in Spaced(KmLabels(ns))[i]
    ensures DistanceChoice(Spaced(KmLabels(ns))[i]) == Some(KmChoices(ns)[i])
  {
    var pre: string := if i == 0 then "" else " ";
    var d := NatToString(ns[i]);
    assert Spaced(KmLabels(ns))[i] == pre + d + " km";
    DistanceChoiceKm(pre, ns[i]);
    NoComma(pre, d);
  }

  lemma NoComma(pre: string, d: string)
    requires pre == "" || pre == " "
    requires forall k :: 0 <= k < |d| ==> IsDigit(d[k])
    ensures ',' !in pre + d + " km"
  {
    var s := pre + d + " km";
    forall k | 0 <= k < |s| ensures s[k] != ',' {
      if k < |pre| {
      } else if k < |pre| + |d| {
        assert s[k] == d[k - |pre|];
      }
    }
  }

  lemma ChoicesOfAll(pieces: seq<string>, choices: seq<(int, string)>)
    requires |pieces| == |choices|
    requires forall i :: 0 <= i < |pieces| ==> DistanceChoice(pieces[i]) == Some(choices[i])
    ensures ChoicesOf(pieces) == Some(choices)
  {
    assert forall i :: 0 <= i < |pieces| ==> DistanceChoice(pieces[i]).Some?;
    var r := ChoicesOf(pieces).value;
    assert |r| == |choices|;
    assert forall i :: 0 <= i < |pieces| ==> r[i] == choices[i];
    assert r == choices;
  }

  function KmLabels(ns: seq<nat>): (r: seq<string>)
    ensures |r| == |ns|
    ensures forall i :: 0 <= i < |ns| ==> r[i] == NatToString(ns[i]) + " km"
  {
    seq(|ns|, i requires 0 <= i < |ns| => NatToString(ns[i]) + " km")
  }

  /** The pieces of a `, `-joined list as a split on `,` sees them: the
      first as written, the rest after a space. */
  function Spaced(labels: seq<string>): (r: seq<string>)
    ensures |r| == |labels|
    ensures forall i :: 0 <= i < |labels| ==> r[i] == (if i == 0 then "" else " ") + labels[i]
  {
    seq(|labels|, i requires 0 <= i < |labels| => (if i == 0 then "" else " ") + labels[i])
  }

  lemma {:induction false} JoinSpaced(labels: seq<string>)
    requires |labels| >= 1
    ensures Join(labels, ", ") == Join(Spaced(labels), [','])
  {
    if |labels| > 1 {
      var rest := labels[1..];
      JoinSpaced(rest);
      JoinSpacedTail(rest);
      var tail := Spaced(labels)[1..];
      var again := Respace(Spaced(rest));
      assert |tail| == |again|;
      forall j | 0 <= j < |tail| ensures tail[j] == again[j] {
        if j == 0 {
          assert Spaced(rest)[0] == rest[0];
        }
      }
      assert tail == again;
      assert Spaced(labels)[0] == labels[0];
      assert Spaced(labels) == [labels[0]] + tail;
    }
  }

  /** The same pieces with a space in front of the first one too. */
  function Respace(pieces: seq<string>): (r: seq<string>)
    requires |pieces| >= 1
    ensures |r| == |pieces| && r[0] == " " + pieces[0] && r[1..] == pieces[1..]
  {
    [" " + pieces[0]] + pieces[1..]
  }

  lemma JoinSpacedTail(rest: seq<string>)
    requires |rest| >= 1
    ensures Join(Respace(Spaced(rest)), [',']) == " " + Join(Spaced(rest), [','])
  {
    JoinFirst(Spaced(rest), " ");
  }

  lemma Assoc4(a: string, b: string, c: string, d: string)
    ensures (a + b) + c + d == a + (b + c + d)
  {
  }

  lemma JoinFirst(pieces: seq<string>, pre: string)
    requires |pieces| >= 1
    ensures Join([pre + pieces[0]] + pieces[1..], [',']) == pre + Join(pieces, [','])
  {
    var moved := [pre + pieces[0]] + pieces[1..];
    assert moved[0] == pre + pieces[0] && moved[1..] == pieces[1..];
    if |pieces| > 1 {
      var j := Join(pieces[1..], [',']);
      assert Join(moved, [',']) == (pre + pieces[0]) + [','] + j;
      assert Join(pieces, [',']) == pieces[0] + [','] + j;
      Assoc4(pre, pieces[0], [','], j);
    }
  }

  // ---------------------------------------------------------------------
  // The pre-registration form page
  // ---------------------------------------------------------------------

  /** What the form page request carries: a first visit, or a submission
      the form either accepts or refuses. */
  datatype Request = Get | Post(formValid: bool)

  /** What the view answers: Http404, the form page (bound to the submitted
      data or not) with its distance choices, or a server error. */
  datatype Page = NotFound | FormPage(choices: seq<(int, string)>, bound: bool) | ServerError

  /** `registration_form`: a closed registration is a 404 before anything
      else; a distance field int() cannot read is a server error; a first
      visit gets the blank form, a refused submission the form with its
      errors; an accepted submission reaches the `pass` branch, after
      which the page's form variable is unbound, also a server error. */
  function RegistrationForm(p: Populaire, now: DateTime, offset: nat, request: Request): (page: Page)
    requires ValidDateTime(p.registrationCloses) && ValidDateTime(now)
    ensures PopulaireModels.RegistrationClosed(p, now, offset) <==> page == NotFound
    ensures page.FormPage? <==>
      !PopulaireModels.RegistrationClosed(p, now, offset) && DistanceChoices(p.distance).Some?
      && !(request.Post? && request.formValid)
    ensures page.FormPage? ==>
      page.choices == DistanceChoices(p.distance).value && page.bound == request.Post?
  {
    if PopulaireModels.RegistrationClosed(p, now, offset) then NotFound
    else
      match DistanceChoices(p.distance)
      case None => ServerError
      case Some(choices) =>
        match request
        case Get => FormPage(choices, false)
        case Post(valid) => if valid then ServerError else FormPage(choices, true)
  }
}
