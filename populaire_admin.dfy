/** The populaires app's admin actions on a selection of populaires:
    creating the rider list spreadsheets they still lack, and sending the
    organizers and the webmaster the addresses of each populaire's pages.

    The code repeats the register app's actions with its own template,
    noun and page addresses; unlike the register app, both notifiers send
    from the site's registration address (`REGISTRATION_EMAIL_FROM`), and
    the webmaster address is a setting. The Google client, the URL
    resolver, the populaire's `uuid` and the settings are parameters.
 */
module PopulaireAdmin {
  import opened Text
  import opened Calendar
  import opened Mail
  import opened Helpers
  import opened AdminMessages
  import PopulaireModels

  type Populaire = PopulaireModels.Populaire

  /** The title of the spreadsheet every populaire's rider list is copied
      from. */
  const TemplateName := "Populaire Rider List Template"

  /** How many populaires of the selection have no rider list yet. */
  function Lacking(pops: seq<Populaire>): (n: nat)
    ensures n <= |pops|
  {
    if pops == [] then 0
    else Lacking(pops[..|pops| - 1]) + (if pops[|pops| - 1].googleDocId == "" then 1 else 0)
  }

  /** The count is zero exactly when every populaire has a rider list. */
  lemma {:induction false} LackingNone(pops: seq<Populaire>)
    ensures Lacking(pops) == 0 <==> forall i :: 0 <= i < |pops| ==> pops[i].googleDocId != ""
  {
    if pops != [] {
      var init := pops[..|pops| - 1];
      LackingNone(init);
      assert forall i :: 0 <= i < |init| ==> init[i] == pops[i];
    }
  }

  /** Counting one more populaire. */
  lemma LackingStep(pops: seq<Populaire>, i: nat)
    requires i < |pops|
    ensures Lacking(pops[..i + 1]) == Lacking(pops[..i]) + (if pops[i].googleDocId == "" then 1 else 0)
  {
    assert pops[..i + 1][..i] == pops[..i];
  }

  /** While no populaire seen so far lacked a rider list, the action has
      not changed any. */
  lemma NothingChangedYet(a0: seq<Populaire>, now: seq<Populaire>, i: nat, template: Option<Doc>,
                          copy: (Doc, string) -> string, title: Populaire --> string)
    requires i <= |a0| == |now|
    requires forall j :: 0 <= j < |a0| ==> title.requires(a0[j])
    requires Lacking(a0[..i]) == 0
    requires forall j :: i <= j < |a0| ==> now[j] == a0[j]
    requires forall j :: 0 <= j < i ==> now[j] == Copied(a0[j], template, copy, title(a0[j]))
    ensures now == a0
  {
    LackingNone(a0[..i]);
    assert forall j :: 0 <= j < i ==> a0[..i][j] == a0[j];
  }

  /** A selected populaire after the action: without a doc id, it gets the
      resource id of the copy of `template` named after it; with one, it
      stays as it was. */
  function WithRiderList(p: Populaire, template: Option<Doc>, copy: (Doc, string) -> string): (r: Populaire)
    requires ValidDate(p.date)
    ensures r.(googleDocId := p.googleDocId) == p
  {
    Copied(p, template, copy, PopulaireModels.Label(p))
  }

  /** A selected populaire after the action, its copy titled `title`. */
  function Copied(p: Populaire, template: Option<Doc>, copy: (Doc, string) -> string, title: string)
    : (r: Populaire)
    ensures r.(googleDocId := p.googleDocId) == p
  {
    if p.googleDocId == "" && template.Some? then p.(googleDocId := copy(template.value, title)) else p
  }

  /** The loop of `create_rider_list_spreadsheet`: each selected populaire
      without a doc id gets the resource id of a copy of the template, named
      after the populaire by `title` (`unicode(pop)`); the others are left
      alone. The result counts the copies made. None is the
      UnboundLocalError of a template search that finds nothing, at the
      first populaire lacking a rider list, before any was changed. */
  method CopyTemplate(pops: array<Populaire>, docs: seq<Doc>, copy: (Doc, string) -> string,
                      title: Populaire --> string)
    returns (docsCount: Option<nat>)
    requires forall i :: 0 <= i < pops.Length ==> title.requires(pops[i])
    modifies pops
    ensures docsCount.None? <==> Lacking(old(pops[..])) > 0 && !HasTitle(docs, TemplateName)
    ensures docsCount.None? ==> pops[..] == old(pops[..])
    ensures docsCount.Some? ==> docsCount.value == Lacking(old(pops[..]))
    ensures docsCount.Some? ==> forall i :: 0 <= i < pops.Length ==>
      pops[i] == Copied(old(pops[i]), FirstTitled(docs, TemplateName), copy, title(old(pops[i])))
  {
    ghost var a0 := pops[..];
    ghost var tpl := FirstTitled(docs, TemplateName);
    var count := 0;
    var i := 0;
    while i < pops.Length
      invariant 0 <= i <= pops.Length
      invariant count == Lacking(a0[..i])
      invariant count > 0 ==> tpl.Some?
      invariant forall j :: i <= j < pops.Length ==> pops[j] == a0[j]
      invariant forall j :: 0 <= j < i ==> pops[j] == Copied(a0[j], tpl, copy, title(a0[j]))
    {
      LackingStep(a0, i);
      ghost var before := pops[..];
      if pops[i].googleDocId == "" {
        var template := GetRiderListTemplate(docs, TemplateName);
        if template.None? {
          NothingChangedYet(a0, pops[..], i, FirstTitled(docs, TemplateName), copy, title);
          LackingNone(a0);
          return None;
        }
        var createdDoc := copy(template.value, title(pops[i]));
        pops[i] := pops[i].(googleDocId := createdDoc);
        count := count + 1;
      }
      assert pops[..] == before[i := Copied(a0[i], tpl, copy, title(a0[i]))];
      i := i + 1;
    }
    assert a0[..pops.Length] == a0;
    if !HasTitle(docs, TemplateName) {
      LackingNone(a0);
    }
    docsCount := Some(count);
  }

  /** `create_rider_list_spreadsheet`: the copies, then the note counting
      them against the selection; None when the action fails, with no
      populaire changed. */
  method CreateRiderListSpreadsheet(pops: array<Populaire>, docs: seq<Doc>, copy: (Doc, string) -> string)
    returns (msg: Option<string>)
    requires forall i :: 0 <= i < pops.Length ==> ValidDate(pops[i].date)
    modifies pops
    ensures msg.None? <==> Lacking(old(pops[..])) > 0 && !HasTitle(docs, TemplateName)
    ensures msg.None? ==> pops[..] == old(pops[..])
    ensures msg.Some? ==> msg.value == CreatedMessage(Lacking(old(pops[..])), pops.Length, "populaire")
    ensures msg.Some? ==> forall i :: 0 <= i < pops.Length ==>
      pops[i] == WithRiderList(old(pops[i]), FirstTitled(docs, TemplateName), copy)
  {
    var popCount := pops.Length;
    var docsCount := CopyTemplate(pops, docs, copy, PopulaireModels.Label);
    if docsCount.None? {
      return None;
    }
    msg := Some(CreatedMessage(docsCount.value, popCount, "populaire"));
  }

  /** When the action succeeds and every copy has a resource id, every
      selected populaire has a rider list afterwards. */
  lemma AllHaveRiderLists(a0: seq<Populaire>, docs: seq<Doc>, copy: (Doc, string) -> string)
    requires forall i :: 0 <= i < |a0| ==> ValidDate(a0[i].date)
    requires !(Lacking(a0) > 0 && !HasTitle(docs, TemplateName))
    requires forall d, name :: copy(d, name) != ""
    ensures forall i :: 0 <= i < |a0| ==>
      WithRiderList(a0[i], FirstTitled(docs, TemplateName), copy).googleDocId != ""
  {
    LackingNone(a0);
  }

  /** The message `_notify_populaire_organizer` sends for one populaire,
      given the address of its rider list spreadsheet. */
  function OrganizerUrls(p: Populaire, host: string, page: string, uuid: string, registrationFrom: string,
                         riderListUrl: string): Envelope
    requires ValidDate(p.date)
  {
    var popPageUrl := "http://" + host + page;
    Envelope(
      "RandoPony URLs for " + PopulaireModels.Label(p), registrationFrom,
      AddressList(p.organizerEmail), None, None,
      [popPageUrl, riderListUrl, "http://" + host + page + "rider-emails/" + uuid + "/"])
  }

  /** The message comes from the registration address, goes to every
      address of the organizer field, and links, below the populaire page,
      the rider e-mail list page. */
  lemma OrganizerUrlsEnvelope(p: Populaire, host: string, page: string, uuid: string, registrationFrom: string,
                              riderListUrl: string)
    requires ValidDate(p.date)
    ensures OrganizerUrls(p, host, page, uuid, registrationFrom, riderListUrl).fromEmail == registrationFrom
    ensures OrganizerUrls(p, host, page, uuid, registrationFrom, riderListUrl).sender.None?
    ensures OrganizerUrls(p, host, page, uuid, registrationFrom, riderListUrl).to == AddressList(p.organizerEmail)
    ensures |OrganizerUrls(p, host, page, uuid, registrationFrom, riderListUrl).to| == Count(p.organizerEmail, ',') + 1
    ensures OrganizerUrls(p, host, page, uuid, registrationFrom, riderListUrl).links[2]
         == OrganizerUrls(p, host, page, uuid, registrationFrom, riderListUrl).links[0] + "rider-emails/" + uuid + "/"
  {
    AddressListShape(p.organizerEmail);
  }

  /** The message's second link is the spreadsheet's address. */
  lemma OrganizerUrlsSpreadsheet(p: Populaire, host: string, page: string, uuid: string, registrationFrom: string,
                                 riderListUrl: string)
    requires ValidDate(p.date)
    ensures OrganizerUrls(p, host, page, uuid, registrationFrom, riderListUrl).links[1] == riderListUrl
  {
  }

  /** One pass of `_notify_populaire_organizer`'s loop: the populaire's
      message, linking the spreadsheet of its doc id key, or None for the
      IndexError of a doc id without a colon. */
  function OrganizerNotice(p: Populaire, host: string, page: string, uuid: string, registrationFrom: string)
    : Option<Envelope>
    requires ValidDate(p.date)
  {
    match RiderListUrl(p.googleDocId)
    case None => None
    case Some(riderListUrl) => Some(OrganizerUrls(p, host, page, uuid, registrationFrom, riderListUrl))
  }

  /** The message exists exactly when the doc id has a colon, and then
      links the spreadsheet of the id's key. */
  lemma OrganizerNoticeExists(p: Populaire, host: string, page: string, uuid: string, registrationFrom: string)
    requires ValidDate(p.date)
    ensures OrganizerNotice(p, host, page, uuid, registrationFrom).Some? <==> ':' in p.googleDocId
    ensures OrganizerNotice(p, host, page, uuid, registrationFrom).Some? ==>
      OrganizerNotice(p, host, page, uuid, registrationFrom).value.links[1] == RiderListUrl(p.googleDocId).value
  {
    DocKeyExists(p.googleDocId);
  }

  /** `_notify_populaire_organizer`: the messages of the populaires in
      selection order, until a doc id without a colon stops the action with
      the messages before it already sent. */
  method NotifyPopulaireOrganizer(pops: seq<Populaire>, host: string, registrationFrom: string,
                                  pageOf: Populaire -> string, uuidOf: Populaire -> string)
    returns (sent: seq<Envelope>, ok: bool)
    requires forall i :: 0 <= i < |pops| ==> ValidDate(pops[i].date)
    ensures ok ==> |sent| == |pops|
    ensures !ok ==>
      |sent| < |pops|
      && OrganizerNotice(pops[|sent|], host, pageOf(pops[|sent|]), uuidOf(pops[|sent|]), registrationFrom).None?
    ensures forall i :: 0 <= i < |sent| ==>
      OrganizerNotice(pops[i], host, pageOf(pops[i]), uuidOf(pops[i]), registrationFrom) == Some(sent[i])
  {
    sent, ok := SendEach(pops,
      (p: Populaire) requires ValidDate(p.date) => OrganizerNotice(p, host, pageOf(p), uuidOf(p), registrationFrom));
  }

  /** The action succeeds exactly when every selected doc id has a colon. */
  lemma NotifyPopulaireOrganizerSucceeds(pops: seq<Populaire>, host: string, registrationFrom: string,
                                         pageOf: Populaire -> string, uuidOf: Populaire -> string,
                                         sent: seq<Envelope>, ok: bool)
    requires forall i :: 0 <= i < |pops| ==> ValidDate(pops[i].date)
    requires ok ==> |sent| == |pops|
    requires !ok ==>
      |sent| < |pops|
      && OrganizerNotice(pops[|sent|], host, pageOf(pops[|sent|]), uuidOf(pops[|sent|]), registrationFrom).None?
    requires forall i :: 0 <= i < |sent| ==>
      OrganizerNotice(pops[i], host, pageOf(pops[i]), uuidOf(pops[i]), registrationFrom) == Some(sent[i])
    ensures ok <==> forall i :: 0 <= i < |pops| ==> ':' in pops[i].googleDocId
  {
    if ok {
      forall i | 0 <= i < |pops| ensures ':' in pops[i].googleDocId {
        OrganizerNoticeExists(pops[i], host, pageOf(pops[i]), uuidOf(pops[i]), registrationFrom);
      }
    } else {
      var k := |sent|;
      OrganizerNoticeExists(pops[k], host, pageOf(pops[k]), uuidOf(pops[k]), registrationFrom);
    }
  }

  /** The `notify_populaire_organizer` action: the messages, then the note
      counting the selection; the note is never shown when the sending
      stops on a doc id without a colon. */
  method NotifyPopulaireOrganizerAction(pops: seq<Populaire>, host: string, registrationFrom: string,
                                        pageOf: Populaire -> string, uuidOf: Populaire -> string)
    returns (sent: seq<Envelope>, note: Option<string>)
    requires forall i :: 0 <= i < |pops| ==> ValidDate(pops[i].date)
    ensures |sent| <= |pops|
    ensures note.Some? <==> forall i :: 0 <= i < |pops| ==> ':' in pops[i].googleDocId
    ensures note.Some? ==> |sent| == |pops| && note.value == NotifyOrganizerMessage(|pops|, "populaire")
    ensures forall i :: 0 <= i < |sent| ==>
      OrganizerNotice(pops[i], host, pageOf(pops[i]), uuidOf(pops[i]), registrationFrom) == Some(sent[i])
  {
    var ok;
    sent, ok := NotifyPopulaireOrganizer(pops, host, registrationFrom, pageOf, uuidOf);
    NotifyPopulaireOrganizerSucceeds(pops, host, registrationFrom, pageOf, uuidOf, sent, ok);
    note := if ok then Some(NotifyOrganizerMessage(|pops|, "populaire")) else None;
  }

  /** The message `_notify_webmaster` sends for one populaire: from the
      registration address to the webmaster setting alone, linking the
      populaire's page. */
  function WebmasterNotice(p: Populaire, host: string, page: string, registrationFrom: string,
                           webmasterEmail: string): Envelope
    requires ValidDate(p.date)
  {
    Envelope("RandoPony Pre-registration Page for " + PopulaireModels.Label(p), registrationFrom,
      [webmasterEmail], None, None, ["http://" + host + page])
  }

  /** `_notify_webmaster`: exactly one message per populaire, in selection
      order, each to the webmaster alone. */
  method NotifyWebmaster(pops: seq<Populaire>, host: string, registrationFrom: string,
                         webmasterEmail: string, pageOf: Populaire -> string)
    returns (sent: seq<Envelope>)
    requires forall i :: 0 <= i < |pops| ==> ValidDate(pops[i].date)
    ensures |sent| == |pops|
    ensures forall i :: 0 <= i < |sent| ==>
      sent[i] == WebmasterNotice(pops[i], host, pageOf(pops[i]), registrationFrom, webmasterEmail)
      && sent[i].to == [webmasterEmail]
  {
    sent := [];
    for i := 0 to |pops|
      invariant |sent| == i
      invariant forall j :: 0 <= j < i ==>
        sent[j] == WebmasterNotice(pops[j], host, pageOf(pops[j]), registrationFrom, webmasterEmail)
    {
      var pop := pops[i];
      sent := sent + [WebmasterNotice(pop, host, pageOf(pop), registrationFrom, webmasterEmail)];
    }
  }

  /** The `notify_webmaster` action: the messages, then the note counting
      the selection. */
  method NotifyWebmasterAction(pops: seq<Populaire>, host: string, registrationFrom: string,
                               webmasterEmail: string, pageOf: Populaire -> string)
    returns (sent: seq<Envelope>, note: string)
    requires forall i :: 0 <= i < |pops| ==> ValidDate(pops[i].date)
    ensures |sent| == |pops|
    ensures forall i :: 0 <= i < |sent| ==>
      sent[i] == WebmasterNotice(pops[i], host, pageOf(pops[i]), registrationFrom, webmasterEmail)
    ensures note == NotifyWebmasterMessage(|pops|, "populaire")
  {
    sent := NotifyWebmaster(pops, host, registrationFrom, webmasterEmail, pageOf);
    note := NotifyWebmasterMessage(|pops|, "populaire");
  }
}
