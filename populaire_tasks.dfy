/** The populaires app's background tasks: bringing a populaire's rider
    list spreadsheet up to date, and the two messages a pre-registration
    sends. Unlike the register app, the populaire sheet has no info answer
    column, and both messages come from the site's address.
 */
module PopulaireTasks {
  import opened Text
  import opened Calendar
  import opened Mail
  import opened Sheets
  import RegisterModels
  import PopulaireModels

  type Populaire = PopulaireModels.Populaire
  type Rider = PopulaireModels.Rider

  /** `_make_spreadsheet_row_dict`: the distance as a decimal string. */
  function RowDict(riderNumber: nat, rider: Rider): map<string, string> {
    map["ridernumber" := NatToString(riderNumber),
        "lastname" := rider.lastName,
        "firstname" := rider.firstName,
        "distance" := IntToString(rider.distance)]
  }

  /** The row dict holds the four columns, and the rider number and the
      distance read back as the numbers. */
  lemma RowDictColumns(riderNumber: nat, rider: Rider)
    ensures RowDict(riderNumber, rider).Keys == {"ridernumber", "lastname", "firstname", "distance"}
    ensures ParseInt(RowDict(riderNumber, rider)["ridernumber"]) == Some(riderNumber)
    ensures ParseInt(RowDict(riderNumber, rider)["distance"]) == Some(rider.distance)
    ensures RowDict(riderNumber, rider)["lastname"] == rider.lastName
    ensures RowDict(riderNumber, rider)["firstname"] == rider.firstName
  {
    RowDictValues(riderNumber, rider);
    ParseNatToString(riderNumber);
    ParseIntToString(rider.distance);
  }

  lemma RowDictValues(riderNumber: nat, rider: Rider)
    ensures RowDict(riderNumber, rider)["ridernumber"] == NatToString(riderNumber)
    ensures RowDict(riderNumber, rider)["distance"] == IntToString(rider.distance)
  {
  }

  /** Row `j` after the sync: the row of the rider numbered `j + 1` (an
      overwritten row keeps its fifth column, an appended one has it empty),
      or the old row past the last rider. */
  function SyncedRow(rows: seq<Row>, riders: seq<Rider>, j: nat): Row
    requires j < |rows| || j < |riders|
  {
    if j < |riders| then Row(RowDict(j + 1, riders[j]), if j < |rows| then rows[j].info else "")
    else rows[j]
  }

  function Max(a: nat, b: nat): nat {
    if a < b then b else a
  }

  /** The whole spreadsheet after the sync. */
  function Synced(rows: seq<Row>, riders: seq<Rider>): seq<Row> {
    seq(Max(|rows|, |riders|), j requires 0 <= j < Max(|rows|, |riders|) => SyncedRow(rows, riders, j))
  }

  /** The sync overwrites the first min(R, N) rows, appends max(0, N - R)
      rows, and changes nothing else: rows past the last rider stay, and
      no existing row's fifth column changes. */
  lemma SyncedShape(rows: seq<Row>, riders: seq<Rider>)
    ensures |Synced(rows, riders)| == |rows| + (if |riders| > |rows| then |riders| - |rows| else 0)
    ensures forall j :: |riders| <= j < |rows| ==> Synced(rows, riders)[j] == rows[j]
    ensures forall j :: 0 <= j < |rows| ==> Synced(rows, riders)[j].info == rows[j].info
  {
  }

  /** The rider numbers written are 1..N in rider-list order (row `j`
      holds `str(j + 1)`, which reads back as `j + 1` by RowDictColumns),
      beside the rider's names and distance. */
  lemma SyncedNumbers(rows: seq<Row>, riders: seq<Rider>)
    ensures forall j :: 0 <= j < |riders| ==>
      Synced(rows, riders)[j].fields["ridernumber"] == NatToString(j + 1)
      && Synced(rows, riders)[j].fields["lastname"] == riders[j].lastName
      && Synced(rows, riders)[j].fields["firstname"] == riders[j].firstName
      && Synced(rows, riders)[j].fields["distance"] == IntToString(riders[j].distance)
  {
  }

  /** Synced with the queryset's riders, the sheet keeps its last-name
      order: read by their lastname column, the riders' rows are sorted. */
  lemma SyncedInLastNameOrder(rows: seq<Row>, store: seq<Rider>, populaire: nat)
    ensures var riders := PopulaireModels.RidersOf(store, populaire);
      forall j, k :: 0 <= j < k < |riders| ==>
        !StrLess(Synced(rows, riders)[k].fields["lastname"], Synced(rows, riders)[j].fields["lastname"])
  {
    var riders := PopulaireModels.RidersOf(store, populaire);
    PopulaireModels.RidersOfOrder(store, populaire);
    SyncedNumbers(rows, riders);
  }

  /** Syncing again with the same riders changes nothing and appends no
      row. */
  lemma SyncedIdempotent(rows: seq<Row>, riders: seq<Rider>)
    ensures Synced(Synced(rows, riders), riders) == Synced(rows, riders)
  {
    var once := Synced(rows, riders);
    var twice := Synced(once, riders);
    assert |twice| == |once|;
    forall j | 0 <= j < |once| ensures twice[j] == once[j] {
    }
  }

  /** `update_google_spreadsheet`: IndexError before any change for a doc
      id without a colon; otherwise rewrite the existing rows, then append
      the rest. */
  method UpdateGoogleSpreadsheet(sheet: RiderList, googleDocId: string, riders: seq<Rider>)
    returns (ok: bool)
    modifies sheet
    ensures ok <==> DocKey(googleDocId).Some?
    ensures ok ==> sheet.rows == Synced(old(sheet.rows), riders)
    ensures !ok ==> sheet.rows == old(sheet.rows)
  {
    var key := DocKey(googleDocId);
    if key.None? {
      return false;
    }
    ghost var rows0 := sheet.rows;
    var spreadsheetRows := |sheet.rows|;
    // Update the rows already in the spreadsheet
    var row := 0;
    while row < spreadsheetRows && row < |riders|
      invariant row <= spreadsheetRows && row <= |riders|
      invariant |sheet.rows| == spreadsheetRows
      invariant forall j :: 0 <= j < spreadsheetRows ==>
        sheet.rows[j] == if j < row then SyncedRow(rows0, riders, j) else rows0[j]
    {
      sheet.UpdateRow(row, RowDict(row + 1, riders[row]));
      row := row + 1;
    }
    // Add remaining rows
    var rest := if spreadsheetRows < |riders| then riders[spreadsheetRows..] else [];
    var k := 0;
    while k < |rest|
      invariant k <= |rest|
      invariant |sheet.rows| == spreadsheetRows + k
      invariant forall j :: 0 <= j < |sheet.rows| ==> sheet.rows[j] == SyncedRow(rows0, riders, j)
    {
      sheet.InsertRow(RowDict(spreadsheetRows + k + 1, rest[k]));
      k := k + 1;
    }
    assert |sheet.rows| == |Synced(rows0, riders)|;
    assert forall j :: 0 <= j < |sheet.rows| ==> sheet.rows[j] == Synced(rows0, riders)[j];
    return true;
  }

  // ---------------------------------------------------------------------
  // Message envelopes
  // ---------------------------------------------------------------------

  /** `email_to_rider`: from the site, sent on behalf of the site, replies
      to the organizers; the populaire page is its link. */
  function EmailToRider(p: Populaire, rider: Rider, host: string, page: string, fromRandopony: string): Envelope
    requires ValidDate(p.date)
  {
    Envelope(
      "Pre-registration Confirmation for " + PopulaireModels.Label(p),
      fromRandopony, [rider.email], Some(fromRandopony), Some(p.organizerEmail),
      ["http://" + host + page])
  }

  /** `email_to_organizer`: from the site to every address of the organizer
      field, with the populaire page and the rider list spreadsheet as
      links. None is the IndexError of a doc id without a colon. */
  function EmailToOrganizer(p: Populaire, rider: Rider, host: string, page: string, fromRandopony: string)
    : Option<Envelope>
    requires ValidDate(p.date)
  {
    match RiderListUrl(p.googleDocId)
    case None => None
    case Some(riderListUrl) =>
      Some(Envelope(
        RegisterModels.FullName(rider.firstName, rider.lastName) + " has Pre-registered for the "
          + PopulaireModels.Label(p),
        fromRandopony, AddressList(p.organizerEmail), None, None,
        ["http://" + host + page, riderListUrl]))
  }

  /** The confirmation goes to the rider alone with the site as both From
      and Sender and the organizer field as Reply-To; the subject has no
      suffix. The notice exists exactly when the doc id has a colon, links
      to the spreadsheet of the id's key, and goes to the addresses a reply
      to the confirmation reaches. */
  lemma TaskEnvelopes(p: Populaire, rider: Rider, host: string, page: string, fromRandopony: string,
                      kind: string, key: string)
    requires ValidDate(p.date)
    ensures var e := EmailToRider(p, rider, host, page, fromRandopony);
      e.to == [rider.email] && e.fromEmail == fromRandopony && e.sender == Some(fromRandopony)
      && e.replyTo == Some(p.organizerEmail)
      && e.subject == "Pre-registration Confirmation for " + PopulaireModels.Label(p)
    ensures EmailToOrganizer(p, rider, host, page, fromRandopony).Some? <==> ':' in p.googleDocId
    ensures EmailToOrganizer(p, rider, host, page, fromRandopony).Some? ==>
      var n := EmailToOrganizer(p, rider, host, page, fromRandopony).value;
      n.fromEmail == fromRandopony && n.sender.None?
      && n.to == AddressList(EmailToRider(p, rider, host, page, fromRandopony).replyTo.value)
      && |n.to| == Count(p.organizerEmail, ',') + 1
    ensures p.googleDocId == kind + ":" + key && ':' !in kind && ':' !in key ==>
      EmailToOrganizer(p, rider, host, page, fromRandopony).value.links[1]
        == "https://spreadsheets.google.com/ccc?key=" + key
  {
    DocKeyExists(p.googleDocId);
    if p.googleDocId == kind + ":" + key && ':' !in kind && ':' !in key {
      DocKeyOf(kind, key);
    }
    AddressListShape(p.organizerEmail);
  }
}
