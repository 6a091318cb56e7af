/** The register app's admin actions on a selection of brevets: creating
    the rider list spreadsheets the brevets still lack, and sending the
    organizers and the webmaster the addresses of each brevet's pages.

    The selection is an array of brevet rows that the creation action
    updates in place. The Google client becomes the document list searched
    for the template and a `copy` function giving the resource id of a
    copy; the URL resolver (`pageOf`), the brevet's `uuid` (`uuidOf`) and
    the site's sending and webmaster addresses are parameters. The notifiers
    return the messages they send, in sending order.
 */
module RegisterAdmin {
  import opened Text
  import opened Calendar
  import opened Mail
  import opened Helpers
  import opened AdminMessages
  import RegisterModels

  type Brevet = RegisterModels.Brevet

  /** The title of the spreadsheet every brevet's rider list is copied
      from. */
  const TemplateName := "Brevet Rider List Template"

  /** How many brevets of the selection have no rider list yet. */
  function Lacking(brevets: seq<Brevet>): (n: nat)
    ensures n <= |brevets|
  {
    if brevets == [] then 0
    else Lacking(brevets[..|brevets| - 1]) + (if brevets[|brevets| - 1].googleDocId == "" then 1 else 0)
  }

  /** The count is zero exactly when every brevet has a rider list. */
  lemma {:induction false} LackingNone(brevets: seq<Brevet>)
    ensures Lacking(brevets) == 0 <==> forall i :: 0 <= i < |brevets| ==> brevets[i].googleDocId != ""
  {
    if brevets != [] {
      var init := brevets[..|brevets| - 1];
      LackingNone(init);
      assert forall i :: 0 <= i < |init| ==> init[i] == brevets[i];
    }
  }

  /** Counting one more brevet. */
  lemma LackingStep(brevets: seq<Brevet>, i: nat)
    requires i < |brevets|
    ensures Lacking(brevets[..i + 1]) == Lacking(brevets[..i]) + (if brevets[i].googleDocId == "" then 1 else 0)
  {
    assert brevets[..i + 1][..i] == brevets[..i];
  }

  /** While no brevet seen so far lacked a rider list, the action has not
      changed any. */
  lemma NothingChangedYet(a0: seq<Brevet>, now: seq<Brevet>, i: nat, template: Option<Doc>,
                          copy: (Doc, string) -> string, title: Brevet --> string)
    requires i <= |a0| == |now|
    requires forall j :: 0 <= j < |a0| ==> title.requires(a0[j])
    requires Lacking(a0[..i]) == 0
    requires forall j :: i <= j < |a0| ==> now[j] == a0[j]
    requires forall j :: 0 <= j < i ==> now[j] == Copied(a0[j], template, copy, title(a0[j]))
    ensures now == a0
  {
    LackingNone(a0[..i]);
    assert forall j :: 0 <= j < i ==> a0[..i][j] == a0[j];
  }

  /** A selected brevet after the action: without a doc id, it gets the
      resource id of the copy of `template` named after it; with one, it
      stays as it was. (A brevet lacking an id is never reached without a
      template: the action stops there.) */
  function WithRiderList(b: Brevet, template: Option<Doc>, copy: (Doc, string) -> string): (r: Brevet)
    requires ValidDate(b.date)
    ensures r.(googleDocId := b.googleDocId) == b
  {
    Copied(b, template, copy, RegisterModels.Label(b))
  }

  /** A selected brevet after the action, its copy titled `title`. */
  function Copied(b: Brevet, template: Option<Doc>, copy: (Doc, string) -> string, title: string): (r: Brevet)
    ensures r.(googleDocId := b.googleDocId) == b
  {
    if b.googleDocId == "" && template.Some? then b.(googleDocId := copy(template.value, title)) else b
  }

  /** The loop of `create_rider_list_spreadsheet`: each selected brevet
      without a doc id gets the resource id of a copy of the template, named
      after the brevet by `title` (`unicode(brevet)`); the others are left
      alone. The result counts the copies made. None is the UnboundLocalError of a template search that
      finds nothing, which happens at the first brevet lacking a rider list,
      before any brevet was changed. */
  method CopyTemplate(brevets: array<Brevet>, docs: seq<Doc>, copy: (Doc, string) -> string,
                      title: Brevet --> string)
    returns (docsCount: Option<nat>)
    requires forall i :: 0 <= i < brevets.Length ==> title.requires(brevets[i])
    modifies brevets
    ensures docsCount.None? <==> Lacking(old(brevets[..])) > 0 && !HasTitle(docs, TemplateName)
    ensures docsCount.None? ==> brevets[..] == old(brevets[..])
    ensures docsCount.Some? ==> docsCount.value == Lacking(old(brevets[..]))
    ensures docsCount.Some? ==> forall i :: 0 <= i < brevets.Length ==>
      brevets[i] == Copied(old(brevets[i]), FirstTitled(docs, TemplateName), copy, title(old(brevets[i])))
  {
    ghost var a0 := brevets[..];
    ghost var tpl := FirstTitled(docs, TemplateName);
    var count := 0;
    var i := 0;
    while i < brevets.Length
      invariant 0 <= i <= brevets.Length
      invariant count == Lacking(a0[..i])
      invariant count > 0 ==> tpl.Some?
      invariant forall j :: i <= j < brevets.Length ==> brevets[j] == a0[j]
      invariant forall j :: 0 <= j < i ==> brevets[j] == Copied(a0[j], tpl, copy, title(a0[j]))
    {
      LackingStep(a0, i);
      ghost var before := brevets[..];
      if brevets[i].googleDocId == "" {
        var template := GetRiderListTemplate(docs, TemplateName);
        if template.None? {
          NothingChangedYet(a0, brevets[..], i, FirstTitled(docs, TemplateName), copy, title);
          LackingNone(a0);
          return None;
        }
        var createdDoc := copy(template.value, title(brevets[i]));
        brevets[i] := brevets[i].(googleDocId := createdDoc);
        count := count + 1;
      }
      assert brevets[..] == before[i := Copied(a0[i], tpl, copy, title(a0[i]))];
      i := i + 1;
    }
    assert a0[..brevets.Length] == a0;
    if !HasTitle(docs, TemplateName) {
      LackingNone(a0);
    }
    docsCount := Some(count);
  }

  /** `create_rider_list_spreadsheet`: the copies, then the note counting
      them against the selection; None when the action fails, with no
      brevet changed. */
  method CreateRiderListSpreadsheet(brevets: array<Brevet>, docs: seq<Doc>, copy: (Doc, string) -> string)
    returns (msg: Option<string>)
    requires forall i :: 0 <= i < brevets.Length ==> ValidDate(brevets[i].date)
    modifies brevets
    ensures msg.None? <==> Lacking(old(brevets[..])) > 0 && !HasTitle(docs, TemplateName)
    ensures msg.None? ==> brevets[..] == old(brevets[..])
    ensures msg.Some? ==> msg.value == CreatedMessage(Lacking(old(brevets[..])), brevets.Length, "brevet")
    ensures msg.Some? ==> forall i :: 0 <= i < brevets.Length ==>
      brevets[i] == WithRiderList(old(brevets[i]), FirstTitled(docs, TemplateName), copy)
  {
    var brevetsCount := brevets.Length;
    var docsCount := CopyTemplate(brevets, docs, copy, RegisterModels.Label);
    if docsCount.None? {
      return None;
    }
    msg := Some(CreatedMessage(docsCount.value, brevetsCount, "brevet"));
  }

  /** When the action succeeds and every copy has a resource id, every
      selected brevet has a rider list afterwards. */
  lemma AllHaveRiderLists(a0: seq<Brevet>, docs: seq<Doc>, copy: (Doc, string) -> string)
    requires forall i :: 0 <= i < |a0| ==> ValidDate(a0[i].date)
    requires !(Lacking(a0) > 0 && !HasTitle(docs, TemplateName))
    requires forall d, name :: copy(d, name) != ""
    ensures forall i :: 0 <= i < |a0| ==>
      WithRiderList(a0[i], FirstTitled(docs, TemplateName), copy).googleDocId != ""
  {
    LackingNone(a0);
  }

  /** The message `_notify_brevet_organizer` sends for one brevet, given
      the address of its rider list spreadsheet. */
  function OrganizerUrls(b: Brevet, host: string, page: string, uuid: string, fromRandopony: string,
                         riderListUrl: string): Envelope
    requires ValidDate(b.date)
  {
    var brevetPageUrl := "http://" + host + page;
    Envelope(
      "RandoPony URLs for " + RegisterModels.Label(b), fromRandopony,
      AddressList(b.organizerEmail), None, None,
      [brevetPageUrl, riderListUrl, "http://" + host + page + "rider-emails/" + uuid + "/"])
  }

  /** The message comes from the site, goes to every address of the
      organizer field, and links the spreadsheet and, below the brevet page,
      the rider e-mail list page. */
  lemma OrganizerUrlsEnvelope(b: Brevet, host: string, page: string, uuid: string, fromRandopony: string,
                              riderListUrl: string)
    requires ValidDate(b.date)
    ensures OrganizerUrls(b, host, page, uuid, fromRandopony, riderListUrl).fromEmail == fromRandopony
    ensures OrganizerUrls(b, host, page, uuid, fromRandopony, riderListUrl).sender.None?
    ensures OrganizerUrls(b, host, page, uuid, fromRandopony, riderListUrl).to == AddressList(b.organizerEmail)
    ensures |OrganizerUrls(b, host, page, uuid, fromRandopony, riderListUrl).to| == Count(b.organizerEmail, ',') + 1
    ensures OrganizerUrls(b, host, page, uuid, fromRandopony, riderListUrl).links[2]
         == OrganizerUrls(b, host, page, uuid, fromRandopony, riderListUrl).links[0] + "rider-emails/" + uuid + "/"
  {
    AddressListShape(b.organizerEmail);
  }

  /** The message's second link is the spreadsheet's address. */
  lemma OrganizerUrlsSpreadsheet(b: Brevet, host: string, page: string, uuid: string, fromRandopony: string,
                                 riderListUrl: string)
    requires ValidDate(b.date)
    ensures OrganizerUrls(b, host, page, uuid, fromRandopony, riderListUrl).links[1] == riderListUrl
  {
  }

  /** One pass of `_notify_brevet_organizer`'s loop: the brevet's message,
      linking the spreadsheet of its doc id key, or None for the
      IndexError of a doc id without a colon. */
  function OrganizerNotice(b: Brevet, host: string, page: string, uuid: string, fromRandopony: string)
    : Option<Envelope>
    requires ValidDate(b.date)
  {
    match RiderListUrl(b.googleDocId)
    case None => None
    case Some(riderListUrl) => Some(OrganizerUrls(b, host, page, uuid, fromRandopony, riderListUrl))
  }

  /** The message exists exactly when the doc id has a colon, and then
      links the spreadsheet of the id's key. */
  lemma OrganizerNoticeExists(b: Brevet, host: string, page: string, uuid: string, fromRandopony: string)
    requires ValidDate(b.date)
    ensures OrganizerNotice(b, host, page, uuid, fromRandopony).Some? <==> ':' in b.googleDocId
    ensures OrganizerNotice(b, host, page, uuid, fromRandopony).Some? ==>
      OrganizerNotice(b, host, page, uuid, fromRandopony).value.links[1] == RiderListUrl(b.googleDocId).value
  {
    DocKeyExists(b.googleDocId);
  }

  /** `_notify_brevet_organizer`: the messages of the brevets in selection
      order, until a doc id without a colon stops the action with the
      messages before it already sent. */
  method NotifyBrevetOrganizer(brevets: seq<Brevet>, host: string, fromRandopony: string,
                               pageOf: Brevet -> string, uuidOf: Brevet -> string)
    returns (sent: seq<Envelope>, ok: bool)
    requires forall i :: 0 <= i < |brevets| ==> ValidDate(brevets[i].date)
    ensures ok ==> |sent| == |brevets|
    ensures !ok ==>
      |sent| < |brevets|
      && OrganizerNotice(brevets[|sent|], host, pageOf(brevets[|sent|]), uuidOf(brevets[|sent|]), fromRandopony).None?
    ensures forall i :: 0 <= i < |sent| ==>
      OrganizerNotice(brevets[i], host, pageOf(brevets[i]), uuidOf(brevets[i]), fromRandopony) == Some(sent[i])
  {
    sent, ok := SendEach(brevets,
      (b: Brevet) requires ValidDate(b.date) => OrganizerNotice(b, host, pageOf(b), uuidOf(b), fromRandopony));
  }

  /** The action succeeds exactly when every selected doc id has a colon. */
  lemma NotifyBrevetOrganizerSucceeds(brevets: seq<Brevet>, host: string, fromRandopony: string,
                                      pageOf: Brevet -> string, uuidOf: Brevet -> string,
                                      sent: seq<Envelope>, ok: bool)
    requires forall i :: 0 <= i < |brevets| ==> ValidDate(brevets[i].date)
    requires ok ==> |sent| == |brevets|
    requires !ok ==>
      |sent| < |brevets|
      && OrganizerNotice(brevets[|sent|], host, pageOf(brevets[|sent|]), uuidOf(brevets[|sent|]), fromRandopony).None?
    requires forall i :: 0 <= i < |sent| ==>
      OrganizerNotice(brevets[i], host, pageOf(brevets[i]), uuidOf(brevets[i]), fromRandopony) == Some(sent[i])
    ensures ok <==> forall i :: 0 <= i < |brevets| ==> ':' in brevets[i].googleDocId
  {
    if ok {
      forall i | 0 <= i < |brevets| ensures ':' in brevets[i].googleDocId {
        OrganizerNoticeExists(brevets[i], host, pageOf(brevets[i]), uuidOf(brevets[i]), fromRandopony);
      }
    } else {
      var k := |sent|;
      OrganizerNoticeExists(brevets[k], host, pageOf(brevets[k]), uuidOf(brevets[k]), fromRandopony);
    }
  }

  /** The `notify_brevet_organizer` action: the messages, then the note
      counting the selection; the note is never shown when the sending
      stops on a doc id without a colon. */
  method NotifyBrevetOrganizerAction(brevets: seq<Brevet>, host: string, fromRandopony: string,
                                     pageOf: Brevet -> string, uuidOf: Brevet -> string)
    returns (sent: seq<Envelope>, note: Option<string>)
    requires forall i :: 0 <= i < |brevets| ==> ValidDate(brevets[i].date)
    ensures |sent| <= |brevets|
    ensures note.Some? <==> forall i :: 0 <= i < |brevets| ==> ':' in brevets[i].googleDocId
    ensures note.Some? ==> |sent| == |brevets| && note.value == NotifyOrganizerMessage(|brevets|, "brevet")
    ensures forall i :: 0 <= i < |sent| ==>
      OrganizerNotice(brevets[i], host, pageOf(brevets[i]), uuidOf(brevets[i]), fromRandopony) == Some(sent[i])
  {
    var ok;
    sent, ok := NotifyBrevetOrganizer(brevets, host, fromRandopony, pageOf, uuidOf);
    NotifyBrevetOrganizerSucceeds(brevets, host, fromRandopony, pageOf, uuidOf, sent, ok);
    note := if ok then Some(NotifyOrganizerMessage(|brevets|, "brevet")) else None;
  }

  /** The message `_notify_webmaster` sends for one event: from the site
      to the webmaster alone, linking the event's page. */
  function WebmasterNotice(event: Brevet, host: string, page: string, fromRandopony: string,
                           webmasterEmail: string): Envelope
    requires ValidDate(event.date)
  {
    Envelope("RandoPony Pre-registration Page for " + RegisterModels.Label(event), fromRandopony,
      [webmasterEmail], None, None, ["http://" + host + page])
  }

  /** `_notify_webmaster`, for brevets and club events alike: exactly one
      message per event, in selection order, each to the webmaster alone. */
  method NotifyWebmaster(events: seq<Brevet>, host: string, fromRandopony: string,
                         webmasterEmail: string, pageOf: Brevet -> string)
    returns (sent: seq<Envelope>)
    requires forall i :: 0 <= i < |events| ==> ValidDate(events[i].date)
    ensures |sent| == |events|
    ensures forall i :: 0 <= i < |sent| ==>
      sent[i] == WebmasterNotice(events[i], host, pageOf(events[i]), fromRandopony, webmasterEmail)
      && sent[i].to == [webmasterEmail]
  {
    sent := [];
    for i := 0 to |events|
      invariant |sent| == i
      invariant forall j :: 0 <= j < i ==>
        sent[j] == WebmasterNotice(events[j], host, pageOf(events[j]), fromRandopony, webmasterEmail)
    {
      var event := events[i];
      sent := sent + [WebmasterNotice(event, host, pageOf(event), fromRandopony, webmasterEmail)];
    }
  }

  /** The `notify_webmaster` actions of the brevet admin (noun `brevet`)
      and the club event admin (noun `event`): the messages, then the note
      counting the selection. */
  method NotifyWebmasterAction(events: seq<Brevet>, host: string, fromRandopony: string,
                               webmasterEmail: string, pageOf: Brevet -> string, noun: string)
    returns (sent: seq<Envelope>, note: string)
    requires forall i :: 0 <= i < |events| ==> ValidDate(events[i].date)
    ensures |sent| == |events|
    ensures forall i :: 0 <= i < |sent| ==>
      sent[i] == WebmasterNotice(events[i], host, pageOf(events[i]), fromRandopony, webmasterEmail)
    ensures note == NotifyWebmasterMessage(|events|, noun)
  {
    sent := NotifyWebmaster(events, host, fromRandopony, webmasterEmail, pageOf);
    note := NotifyWebmasterMessage(|events|, noun);
  }
}
