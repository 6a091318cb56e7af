/** The register app's background tasks: bringing a brevet's rider list
    spreadsheet up to date with the pre-registered riders, and the two
    messages a registration sends as register/tasks.py composes them.

    The Google client is the `Sheets.RiderList` object; the page address
    the URL resolver gives for the brevet, the waiver and membership form
    links and the site's sending address are parameters.
 */
module RegisterTasks {
  import opened Text
  import opened Calendar
  import opened Mail
  import opened Sheets
  import RegisterModels
  import RegisterViews

  type Brevet = RegisterModels.Brevet
  type BrevetRider = RegisterModels.BrevetRider

  /** `_make_spreadsheet_row_dict`. */
  function RowDict(riderNumber: nat, rider: BrevetRider): map<string, string> {
    map["ridernumber" := NatToString(riderNumber),
        "lastname" := rider.lastName,
        "firstname" := rider.firstName,
        "clubmember" := if rider.clubMember then "Y" else "N"]
  }

  /** The row dict holds the four columns; the rider number reads back as
      the number, the names are the rider's, and the club member column is
      `Y` exactly for members. */
  lemma RowDictColumns(riderNumber: nat, rider: BrevetRider)
    ensures RowDict(riderNumber, rider).Keys == {"ridernumber", "lastname", "firstname", "clubmember"}
    ensures ParseInt(RowDict(riderNumber, rider)["ridernumber"]) == Some(riderNumber)
    ensures RowDict(riderNumber, rider)["lastname"] == rider.lastName
    ensures RowDict(riderNumber, rider)["firstname"] == rider.firstName
    ensures RowDict(riderNumber, rider)["clubmember"] == "Y" <==> rider.clubMember
    ensures RowDict(riderNumber, rider)["clubmember"] in {"Y", "N"}
  {
    var d := RowDict(riderNumber, rider);
    assert d["ridernumber"] == NatToString(riderNumber);
    ParseNatToString(riderNumber);
  }

  function Max(a: nat, b: nat): nat {
    if a < b then b else a
  }

  /** Row `j` of the spreadsheet after the sync: the row of the rider
      numbered `j + 1` with their info answer, or the old row past the last
      rider. */
  function SyncedRow(rows: seq<Row>, riders: seq<BrevetRider>, j: nat): Row
    requires j < |rows| || j < |riders|
  {
    if j < |riders| then Row(RowDict(j + 1, riders[j]), riders[j].infoAnswer) else rows[j]
  }

  /** The whole spreadsheet after the sync. */
  function Synced(rows: seq<Row>, riders: seq<BrevetRider>): seq<Row> {
    seq(Max(|rows|, |riders|), j requires 0 <= j < Max(|rows|, |riders|) => SyncedRow(rows, riders, j))
  }

  /** The sync overwrites the first min(R, N) rows, appends max(0, N - R)
      rows, and leaves every row past the last rider as it was. */
  lemma SyncedShape(rows: seq<Row>, riders: seq<BrevetRider>)
    ensures |Synced(rows, riders)| == |rows| + (if |riders| > |rows| then |riders| - |rows| else 0)
    ensures forall j :: |riders| <= j < |rows| ==> Synced(rows, riders)[j] == rows[j]
    ensures Synced(rows, riders)[..|riders|] == RiderRows(riders)
  {
    var s := Synced(rows, riders);
    assert forall j :: 0 <= j < |riders| ==> s[..|riders|][j] == RiderRows(riders)[j];
  }

  /** The rows the riders occupy, in rider-list order. */
  function RiderRows(riders: seq<BrevetRider>): seq<Row> {
    seq(|riders|, j requires 0 <= j < |riders| => Row(RowDict(j + 1, riders[j]), riders[j].infoAnswer))
  }

  /** The rider numbers written are 1..N in rider-list order (row `j`
      holds `str(j + 1)`, which reads back as `j + 1` by RowDictColumns),
      beside the rider's names and info answer. */
  lemma SyncedNumbers(rows: seq<Row>, riders: seq<BrevetRider>)
    ensures forall j :: 0 <= j < |riders| ==>
      Synced(rows, riders)[j].fields["ridernumber"] == NatToString(j + 1)
      && Synced(rows, riders)[j].fields["lastname"] == riders[j].lastName
      && Synced(rows, riders)[j].fields["firstname"] == riders[j].firstName
      && Synced(rows, riders)[j].info == riders[j].infoAnswer
  {
  }

  /** Synced with the queryset's riders, the sheet keeps its last-name
      order: read by their lastname column, the riders' rows are sorted. */
  lemma SyncedInLastNameOrder(rows: seq<Row>, store: seq<BrevetRider>, brevet: nat)
    ensures var riders := RegisterModels.RidersOf(store, brevet);
      forall j, k :: 0 <= j < k < |riders| ==>
        !StrLess(Synced(rows, riders)[k].fields["lastname"], Synced(rows, riders)[j].fields["lastname"])
  {
    var riders := RegisterModels.RidersOf(store, brevet);
    RegisterModels.RidersOfOrder(store, brevet);
    SyncedNumbers(rows, riders);
  }

  /** Syncing again with the same riders changes nothing and appends no
      row. */
  lemma SyncedIdempotent(rows: seq<Row>, riders: seq<BrevetRider>)
    ensures Synced(Synced(rows, riders), riders) == Synced(rows, riders)
  {
    var once := Synced(rows, riders);
    var twice := Synced(once, riders);
    assert |twice| == |once|;
    forall j | 0 <= j < |once| ensures twice[j] == once[j] {
    }
  }

  /** `update_google_spreadsheet`: a doc id without a colon raises an
      IndexError before any change; otherwise the first loop rewrites the
      existing rows rider by rider and the second appends the rest, each
      writing the rider's info answer into column 5 of the rider's row. */
  method UpdateGoogleSpreadsheet(sheet: RiderList, googleDocId: string, riders: seq<BrevetRider>)
    returns (ok: bool)
    modifies sheet
    ensures ok <==> DocKey(googleDocId).Some?
    ensures ok ==> sheet.rows == Synced(old(sheet.rows), riders)
    ensures !ok ==> sheet.rows == old(sheet.rows)
  {
    var key := DocKey(googleDocId);
    if key.None? {
      return false;
    }
    ghost var rows0 := sheet.rows;
    var spreadsheetRows := |sheet.rows|;
    // Update the rows already in the spreadsheet
    var row := 0;
    while row < spreadsheetRows && row < |riders|
      invariant row <= spreadsheetRows && row <= |riders|
      invariant |sheet.rows| == spreadsheetRows
      invariant forall j :: 0 <= j < spreadsheetRows ==>
        sheet.rows[j] == if j < row then SyncedRow(rows0, riders, j) else rows0[j]
    {
      var riderNumber := row + 1;
      sheet.UpdateRow(row, RowDict(riderNumber, riders[row]));
      sheet.UpdateInfoCell(riderNumber + 1, riders[row].infoAnswer);
      row := row + 1;
    }
    // Add remaining rows
    var rest := if spreadsheetRows < |riders| then riders[spreadsheetRows..] else [];
    var k := 0;
    while k < |rest|
      invariant k <= |rest|
      invariant |sheet.rows| == spreadsheetRows + k
      invariant forall j :: 0 <= j < |sheet.rows| ==> sheet.rows[j] == SyncedRow(rows0, riders, j)
    {
      var riderNumber := spreadsheetRows + k + 1;
      sheet.InsertRow(RowDict(riderNumber, rest[k]));
      sheet.UpdateInfoCell(riderNumber + 1, rest[k].infoAnswer);
      k := k + 1;
    }
    assert |sheet.rows| == |Synced(rows0, riders)|;
    assert forall j :: 0 <= j < |sheet.rows| ==> sheet.rows[j] == Synced(rows0, riders)[j];
    return true;
  }

  // ---------------------------------------------------------------------
  // Message envelopes
  // ---------------------------------------------------------------------

  /** `email_to_rider`: the view's confirmation, with the brevet page, the
      waiver and the membership form as its links. */
  function EmailToRider(b: Brevet, rider: BrevetRider, host: string, page: string,
                        waiverUrl: string, membershipUrl: string, fromRandopony: string): Envelope
    requires ValidDate(b.date)
  {
    RegisterViews.RiderConfirmation(b, rider.email, fromRandopony,
      ["http://" + host + page, waiverUrl, membershipUrl])
  }

  /** `email_to_organizer`: the view's notice, with the brevet page as its
      link. */
  function EmailToOrganizer(b: Brevet, rider: BrevetRider, host: string, page: string,
                            fromRandopony: string): Envelope
    requires ValidDate(b.date)
  {
    RegisterViews.OrganizerNotice(b, rider, fromRandopony, ["http://" + host + page])
  }

  /** The rider's confirmation goes to the rider alone, comes from the
      organizer field verbatim, is sent on behalf of the site and answered
      to the organizers; the organizers' notice comes from the site and goes
      to every stripped address of the organizer field, in order, the same
      addresses a reply to the confirmation reaches. */
  lemma TaskEnvelopes(b: Brevet, rider: BrevetRider, host: string, page: string,
                      waiverUrl: string, membershipUrl: string, fromRandopony: string)
    requires ValidDate(b.date)
    ensures var e := EmailToRider(b, rider, host, page, waiverUrl, membershipUrl, fromRandopony);
      e.to == [rider.email] && e.fromEmail == b.organizerEmail
      && e.sender == Some(fromRandopony) && e.replyTo == Some(b.organizerEmail)
      && e.subject == "Pre-registration Confirmation for " + RegisterModels.Label(b) + " Brevet"
      && |e.links| == 3
    ensures var n := EmailToOrganizer(b, rider, host, page, fromRandopony);
      n.fromEmail == fromRandopony && n.sender.None? && n.replyTo.None?
      && |n.to| == Count(b.organizerEmail, ',') + 1
      && (forall i :: 0 <= i < |n.to| ==> Trimmed(n.to[i]) && ',' !in n.to[i])
      && n.subject == RegisterModels.FullName(rider.firstName, rider.lastName)
           + " has Pre-registered for the " + RegisterModels.Label(b)
    ensures AddressList(EmailToRider(b, rider, host, page, waiverUrl, membershipUrl, fromRandopony).replyTo.value)
         == EmailToOrganizer(b, rider, host, page, fromRandopony).to
  {
    AddressListShape(b.organizerEmail);
    RegisterViews.OrganizersReached(b, rider, fromRandopony, ["http://" + host + page], [], "");
  }
}
