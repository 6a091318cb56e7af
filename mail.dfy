/** What the apps share about e-mail and Google documents: the envelope of
    a message (subject, From, To, the Sender and Reply-To headers, and the
    links handed to its body template), the organizer address field read as
    a comma-separated list, the validator for that field, and the key part
    of a Google document id.

    The admin modules of both apps carry the same `_clean_email_address_list`
    word for word, and every notifier splits the organizer field the same
    way, so each is defined once here. Django's `validate_email` is a
    parameter.
 */
module Mail {
  import opened Text

  /** The envelope of an e-mail message. `links` are the page addresses the
      body template receives, in the order the code lists them. */
  datatype Envelope = Envelope(
    subject: string,
    fromEmail: string,
    to: seq<string>,
    sender: Option<string>,
    replyTo: Option<string>,
    links: seq<string>)

  /** Each piece with `strip()` applied. */
  function StripEach(pieces: seq<string>): seq<string> {
    seq(|pieces|, i requires 0 <= i < |pieces| => Strip(pieces[i]))
  }

  /** A notifier's loop: one message per item, in order, sent as soon as
      it is built, until the first item whose message cannot be built
      (None, an exception inside the loop), which ends the loop with the
      messages before it already sent. */
  method SendEach<T>(items: seq<T>, message: T --> Option<Envelope>) returns (sent: seq<Envelope>, ok: bool)
    requires forall i :: 0 <= i < |items| ==> message.requires(items[i])
    ensures ok ==> |sent| == |items|
    ensures !ok ==> |sent| < |items| && message(items[|sent|]).None?
    ensures forall i :: 0 <= i < |sent| ==> message(items[i]) == Some(sent[i])
  {
    sent := [];
    var i := 0;
    while i < |items|
      invariant 0 <= i <= |items| && |sent| == i
      invariant forall j :: 0 <= j < i ==> message(items[j]) == Some(sent[j])
    {
      var email := message(items[i]);
      if email.None? {
        return sent, false;
      }
      sent := sent + [email.value];
      i := i + 1;
    }
    return sent, true;
  }

  /** `[addr.strip() for addr in s.split(',')]`. */
  function AddressList(s: string): seq<string> {
    StripEach(Split(s, ','))
  }

  /** One address per comma-separated piece, with no comma inside and no
      whitespace at either end. */
  lemma AddressListShape(s: string)
    ensures |AddressList(s)| == Count(s, ',') + 1
    ensures forall i :: 0 <= i < |AddressList(s)| ==>
      ',' !in AddressList(s)[i] && Trimmed(AddressList(s)[i])
  {
    SplitPieces(s, ',');
    var pieces := Split(s, ',');
    forall i | 0 <= i < |pieces|
      ensures ',' !in AddressList(s)[i] && Trimmed(AddressList(s)[i])
    {
      StripWithin(pieces[i]);
    }
  }

  predicate Trimmed(a: string) {
    a == [] || (!IsSpace(a[0]) && !IsSpace(a[|a| - 1]))
  }

  /** Stripping keeps a part of the string and leaves no whitespace at its
      ends. */
  lemma StripWithin(s: string)
    ensures Trimmed(Strip(s))
    ensures forall c :: c in Strip(s) ==> c in s
  {
    var l := StripLeft(s, Whitespace);
    var r := StripRight(l, Whitespace);
    assert Strip(s) == r;
    PrefixChars(l, |r|);
    SuffixChars(s, |s| - |l|);
  }

  lemma PrefixChars(s: string, n: nat)
    requires n <= |s|
    ensures forall c :: c in s[..n] ==> c in s
  {
  }

  lemma SuffixChars(s: string, n: nat)
    requires n <= |s|
    ensures forall c :: c in s[n..] ==> c in s
  {
  }

  predicate Padding(pad: string) {
    forall i :: 0 <= i < |pad| ==> IsSpace(pad[i])
  }

  /** Writing addresses joined by a comma and any run of spaces, and reading
      them back as the notifiers do, gives the same addresses: the field may
      be written `a@x.ca,b@y.ca` or `a@x.ca, b@y.ca`. */
  lemma AddressListJoin(addrs: seq<string>, pad: string)
    requires |addrs| >= 1
    requires Padding(pad)
    requires forall i :: 0 <= i < |addrs| ==> addrs[i] != [] && ',' !in addrs[i] && Trimmed(addrs[i])
    ensures AddressList(Join(addrs, [','] + pad)) == addrs
  {
    JoinFromStart(addrs, pad);
    TrimmedStrip(addrs[0]);
    ConsRest(addrs, Strip(addrs[0]));
  }

  lemma TrimmedStrip(a: string)
    requires Trimmed(a)
    ensures Strip(a) == a
  {
    StripTrimmed(a);
  }

  lemma ConsRest(addrs: seq<string>, x: string)
    requires |addrs| >= 1 && x == addrs[0]
    ensures [x] + addrs[1..] == addrs
  {
  }

  lemma JoinFromStart(addrs: seq<string>, pad: string)
    requires |addrs| >= 1
    requires Padding(pad)
    requires forall i :: 0 <= i < |addrs| ==> addrs[i] != [] && ',' !in addrs[i] && Trimmed(addrs[i])
    ensures AddressList(Join(addrs, [','] + pad)) == [Strip(addrs[0])] + addrs[1..]
  {
    CommaNotPadding(pad);
    var joined := Join(addrs, [','] + pad);
    var empty: string := [];
    JoinPieces(addrs, pad, empty);
    assert empty + joined == joined;
    assert empty + addrs[0] == addrs[0];
    StripPieces(Split(joined, ','), addrs, pad);
  }

  /** Stripping the pieces `a0, pad + a1, pad + a2, ...` gives back the
      trimmed addresses after the first. */
  lemma StripPieces(pieces: seq<string>, addrs: seq<string>, pad: string)
    requires |pieces| == |addrs| >= 1 && pieces[0] == addrs[0]
    requires forall i :: 1 <= i < |addrs| ==> pieces[i] == pad + addrs[i]
    requires Padding(pad)
    requires forall i :: 0 <= i < |addrs| ==> addrs[i] != [] && Trimmed(addrs[i])
    ensures StripEach(pieces) == [Strip(addrs[0])] + addrs[1..]
  {
    forall i | 1 <= i < |addrs| ensures Strip(pieces[i]) == addrs[i] {
      StripPadded(pad, addrs[i], "");
      assert pad + addrs[i] + "" == pad + addrs[i];
    }
  }

  lemma CommaNotPadding(pad: string)
    requires Padding(pad)
    ensures ',' !in pad
  {
    if ',' in pad {
      assert false;
    }
  }

  /** Splitting addresses joined by a comma and a padding, behind a prefix
      without a comma: the first piece is the prefix and the first address,
      each later piece the padding and its address. */
  lemma {:induction false} JoinPieces(addrs: seq<string>, pad: string, pre: string)
    requires |addrs| >= 1
    requires ',' !in pad && ',' !in pre
    requires forall i :: 0 <= i < |addrs| ==> ',' !in addrs[i]
    ensures var pieces := Split(pre + Join(addrs, [','] + pad), ',');
      |pieces| == |addrs| && pieces[0] == pre + addrs[0]
      && forall i :: 1 <= i < |addrs| ==> pieces[i] == pad + addrs[i]
    decreases |addrs|
  {
    var sep := [','] + pad;
    var first := pre + addrs[0];
    assert ',' !in first;
    if |addrs| == 1 {
      SplitNoSep(first, ',');
    } else {
      var rest := addrs[1..];
      JoinStep(addrs, sep, pre);
      SplitStep(first, pad, Join(rest, sep));
      JoinPieces(rest, pad, pad);
    }
  }

  lemma JoinStep(addrs: seq<string>, sep: string, pre: string)
    requires |addrs| >= 2
    ensures pre + Join(addrs, sep) == (pre + addrs[0]) + sep + Join(addrs[1..], sep)
  {
  }

  lemma SplitStep(a: string, pad: string, rest: string)
    requires ',' !in a
    ensures Split(a + ([','] + pad) + rest, ',') == [a] + Split(pad + rest, ',')
  {
    assert a + ([','] + pad) + rest == a + [','] + (pad + rest);
    SplitAppend(a, pad + rest, ',');
  }

  /** Every address of a list passes the validator. */
  predicate AllValid(addrs: seq<string>, isValid: string -> bool) {
    forall i :: 0 <= i < |addrs| ==> isValid(addrs[i])
  }

  /** The validation loop of `_clean_email_address_list`: the first address
      the validator refuses ends the loop with a ValidationError (false). */
  function CheckEach(addrs: seq<string>, isValid: string -> bool): (ok: bool)
    ensures ok <==> AllValid(addrs, isValid)
  {
    if addrs == [] then true
    else if !isValid(addrs[0]) then false
    else CheckEach(addrs[1..], isValid)
  }

  /** `_clean_email_address_list` of both admin modules: the field value
      back unchanged, or None for the ValidationError. */
  function CleanEmailAddressList(data: string, isValid: string -> bool): (r: Option<string>)
    ensures r.Some? <==> AllValid(AddressList(data), isValid)
    ensures r.Some? ==> r.value == data
  {
    if CheckEach(AddressList(data), isValid) then Some(data) else None
  }

  /** `google_doc_id.split(':')[1]`: the second colon-separated field; None
      for the IndexError of an id without a colon. */
  function DocKey(googleDocId: string): (r: Option<string>)
  {
    var fields := Split(googleDocId, ':');
    if |fields| >= 2 then Some(fields[1]) else None
  }

  /** An id has a key exactly when it holds a colon. */
  lemma DocKeyExists(googleDocId: string)
    ensures DocKey(googleDocId).Some? <==> ':' in googleDocId
  {
    SplitPieces(googleDocId, ':');
    assert Count(googleDocId, ':') == 0 <==> ':' !in googleDocId;
  }

  /** The key of `kind:key` is `key`. */
  lemma DocKeyOf(kind: string, key: string)
    requires ':' !in kind && ':' !in key
    ensures DocKey(kind + ":" + key) == Some(key)
  {
    assert kind + ":" + key == kind + [':'] + key;
    SplitAppend(kind, key, ':');
    SplitNoSep(key, ':');
  }

  /** The rider list spreadsheet's address, from the document's key. */
  function RiderListUrl(googleDocId: string): (r: Option<string>)
    ensures r.Some? <==> DocKey(googleDocId).Some?
    ensures r.Some? ==> r.value == "https://spreadsheets.google.com/ccc?key=" + DocKey(googleDocId).value
  {
    match DocKey(googleDocId)
    case None => None
    case Some(key) => Some("https://spreadsheets.google.com/ccc?key=" + key)
  }

  /** A doc id has a spreadsheet address exactly when it holds a colon. */
  lemma RiderListUrlExists(googleDocId: string)
    ensures RiderListUrl(googleDocId).None? <==> ':' !in googleDocId
  {
    DocKeyExists(googleDocId);
  }

  /** The address of `kind:key` is the spreadsheet page of `key`. */
  lemma RiderListUrlOf(kind: string, key: string)
    requires ':' !in kind && ':' !in key
    ensures RiderListUrl(kind + ":" + key) == Some("https://spreadsheets.google.com/ccc?key=" + key)
  {
    DocKeyOf(kind, key);
  }
}
