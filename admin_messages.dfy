/** The notes the admin actions show once they have run. Both apps' admin
    modules word them alike, each with its own event noun (`brevet`,
    `populaire`, and `event` for the club events), so they are defined
    once here with the noun as a parameter.

    What makes a note useful is that it tells the counts apart: two runs
    with different counts never show the same note, so the singular form
    appears exactly for a count of one.
 */
module AdminMessages {
  import opened Text

  /** An event noun as the notes use it: lower-case ASCII letters. */
  predicate EventNoun(noun: string) {
    noun != [] && forall i :: 0 <= i < |noun| ==> 'a' <= noun[i] <= 'z'
  }

  /** The noun with its first letter in upper case, as it opens a
      sentence. */
  function Capitalized(noun: string): (r: string)
    requires EventNoun(noun)
    ensures |r| == |noun| && r[1..] == noun[1..]
    ensures 'A' <= r[0] <= 'Z'
  {
    [(noun[0] as int - 32) as char] + noun[1..]
  }

  // -----------------------------------------------------------------------
  // create_rider_list_spreadsheet
  // -----------------------------------------------------------------------

  /** The first sentence: how many rider lists were created. */
  function CreatedHead(docsCount: nat, noun: string): string {
    if docsCount == 0 then "No rider lists created!"
    else if docsCount == 1 then "Rider list created for 1 " + (noun + ".")
    else "Rider lists created for " + (NatToString(docsCount) + " " + (noun + "s."))
  }

  /** The second sentence, present only when some selected events already
      had a rider list: `diff` is how many. */
  function AlreadyHadTail(diff: int, noun: string): string
    requires EventNoun(noun)
  {
    if diff == 0 then ""
    else if diff == 1 then " " + (Capitalized(noun) + " already had a rider list.")
    else " " + (IntToString(diff) + " " + (noun + "s already had rider lists."))
  }

  /** The note of `create_rider_list_spreadsheet` after it created
      `docsCount` rider lists for a selection of `eventsCount` events. The
      second sentence is there exactly when some event already had one. */
  function CreatedMessage(docsCount: nat, eventsCount: nat, noun: string): (msg: string)
    requires EventNoun(noun)
    ensures CreatedHead(docsCount, noun) <= msg
    ensures msg == CreatedHead(docsCount, noun) <==> docsCount == eventsCount
  {
    CreatedHead(docsCount, noun) + AlreadyHadTail(eventsCount - docsCount, noun)
  }

  /** The note names both counts: equal notes come from equal counts. */
  lemma CreatedMessageTellsCounts(c1: nat, n1: nat, c2: nat, n2: nat, noun: string)
    requires EventNoun(noun)
    requires CreatedMessage(c1, n1, noun) == CreatedMessage(c2, n2, noun)
    ensures c1 == c2 && n1 == n2
  {
    var t1, t2 := AlreadyHadTail(n1 - c1, noun), AlreadyHadTail(n2 - c2, noun);
    assert CreatedHead(c1, noun) + t1 == CreatedHead(c2, noun) + t2;
    CreatedHeadTellsCount(c1, c2, noun, t1, t2);
    SameHeadSameTail(CreatedHead(c1, noun), t1, t2);
    AlreadyHadTailTellsCount(n1 - c1, n2 - c2, noun);
  }

  lemma SameHeadSameTail(h: string, t1: string, t2: string)
    requires h + t1 == h + t2
    ensures t1 == t2
  {
    assert t1 == (h + t1)[|h|..];
    assert t2 == (h + t2)[|h|..];
  }

  /** What the first sentence, followed by `t`, shows at a few places:
      `N` opens only the zero count's; `Rider list ` and `Rider lists`
      differ at their eleventh letter; the plural's count follows the
      24-letter opening. */
  lemma CreatedHeadLetters(c: nat, noun: string, t: string)
    ensures c == 0 ==> (CreatedHead(c, noun) + t)[0] == 'N'
    ensures c == 1 ==>
              |CreatedHead(c, noun) + t| > 10
              && (CreatedHead(c, noun) + t)[0] == 'R' && (CreatedHead(c, noun) + t)[10] == ' '
    ensures c >= 2 ==>
              |CreatedHead(c, noun) + t| > 24
              && (CreatedHead(c, noun) + t)[0] == 'R' && (CreatedHead(c, noun) + t)[10] == 's'
              && (CreatedHead(c, noun) + t)[24..] == NatToString(c) + " " + (noun + "s." + t)
  {
    if c == 0 {
      var p := "No rider lists created!";
      assert CreatedHead(c, noun) + t == p + t;
    } else if c == 1 {
      SingularHead(noun, t);
    } else {
      PluralHead(c, noun, t);
    }
  }

  lemma SingularHead(noun: string, t: string)
    ensures var m := CreatedHead(1, noun) + t;
      |m| > 10 && m[0] == 'R' && m[10] == ' '
  {
    var p := "Rider list created for 1 ";
    assert CreatedHead(1, noun) + t == p + (noun + "." + t);
  }

  lemma PluralHead(c: nat, noun: string, t: string)
    requires c >= 2
    ensures var m := CreatedHead(c, noun) + t;
      |m| > 24 && m[0] == 'R' && m[10] == 's' && m[24..] == NatToString(c) + " " + (noun + "s." + t)
  {
    var p := "Rider lists created for ";
    var rest := NatToString(c) + " " + (noun + "s." + t);
    assert |p| == 24;
    assert CreatedHead(c, noun) + t == p + rest;
    assert (p + rest)[24..] == rest;
  }

  /** The first sentence, followed by anything, gives its count away. */
  lemma CreatedHeadTellsCount(c1: nat, c2: nat, noun: string, t1: string, t2: string)
    requires EventNoun(noun)
    requires CreatedHead(c1, noun) + t1 == CreatedHead(c2, noun) + t2
    ensures c1 == c2
  {
    CreatedHeadLetters(c1, noun, t1);
    CreatedHeadLetters(c2, noun, t2);
    if c1 >= 2 && c2 >= 2 {
      NumberOpening(c1);
      NumberOpening(c2);
      assert IntToString(c1) == NatToString(c1);
      assert IntToString(c2) == NatToString(c2);
      SplitAtSpace(NatToString(c1), noun + "s." + t1, NatToString(c2), noun + "s." + t2);
      ParseNatToString(c1);
      ParseNatToString(c2);
    }
  }

  /** What the second sentence shows: it is empty only for no events; the
      singular opens with the capital noun, the plural with the count. */
  lemma AlreadyHadLetters(d: int, noun: string)
    requires EventNoun(noun)
    ensures d == 0 <==> AlreadyHadTail(d, noun) == []
    ensures d == 1 ==> |AlreadyHadTail(d, noun)| > 1 && 'A' <= AlreadyHadTail(d, noun)[1] <= 'Z'
    ensures d != 0 && d != 1 ==>
              |AlreadyHadTail(d, noun)| > 1
              && AlreadyHadTail(d, noun)[1..] == IntToString(d) + " " + (noun + "s already had rider lists.")
  {
    var t := AlreadyHadTail(d, noun);
    if d == 1 {
      assert t[1..] == Capitalized(noun) + " already had a rider list.";
    } else if d != 0 {
      NumberOpening(d);
    }
  }

  /** The second sentence gives its count away. */
  lemma AlreadyHadTailTellsCount(d1: int, d2: int, noun: string)
    requires EventNoun(noun)
    requires AlreadyHadTail(d1, noun) == AlreadyHadTail(d2, noun)
    ensures d1 == d2
  {
    AlreadyHadLetters(d1, noun);
    AlreadyHadLetters(d2, noun);
    NumberOpening(d1);
    NumberOpening(d2);
    if d1 != 0 && d1 != 1 && d2 != 0 && d2 != 1 {
      var x := noun + "s already had rider lists.";
      SplitAtSpace(IntToString(d1), x, IntToString(d2), x);
      IntToStringInjective(d1, d2);
    }
  }

  /** A written number has no space and opens with a digit or `-`. */
  lemma NumberOpening(d: int)
    ensures ' ' !in IntToString(d)
    ensures IntToString(d) != [] && (IsDigit(IntToString(d)[0]) || IntToString(d)[0] == '-')
  {
    var n := NatToString(if d < 0 then -d else d);
    assert forall i :: 0 <= i < |n| ==> n[i] != ' ';
    assert IntToString(d) == if d < 0 then "-" + n else n;
  }

  /** Cutting two strings at their first space: the words before it agree
      when the strings do. */
  lemma {:induction false} SplitAtSpace(a1: string, x1: string, a2: string, x2: string)
    requires ' ' !in a1 && ' ' !in a2
    requires a1 + " " + x1 == a2 + " " + x2
    ensures a1 == a2 && x1 == x2
  {
    if a1 == [] || a2 == [] {
      assert (a1 + " " + x1)[0] == ' ' <==> a1 == [];
      assert (a2 + " " + x2)[0] == ' ' <==> a2 == [];
      assert x1 == (a1 + " " + x1)[1..];
      assert x2 == (a2 + " " + x2)[1..];
    } else {
      assert a1[0] == (a1 + " " + x1)[0];
      assert a2[0] == (a2 + " " + x2)[0];
      assert a1[1..] + " " + x1 == (a1 + " " + x1)[1..];
      assert a2[1..] + " " + x2 == (a2 + " " + x2)[1..];
      SplitAtSpace(a1[1..], x1, a2[1..], x2);
      assert a1 == [a1[0]] + a1[1..];
      assert a2 == [a2[0]] + a2[1..];
    }
  }

  // -----------------------------------------------------------------------
  // notify_* actions
  // -----------------------------------------------------------------------

  /** The note after the organizer notices went out for `count` events. */
  function NotifyOrganizerMessage(count: nat, noun: string): string {
    if count == 1 then "Email for 1 " + (noun + " sent to organizer(s)")
    else "Emails for " + (NatToString(count) + " " + (noun + "s sent to organizer(s)"))
  }

  /** The note after the webmaster notices went out for `count` events. */
  function NotifyWebmasterMessage(count: nat, noun: string): string {
    if count == 1 then "URL for 1 " + (noun + " sent to webmaster")
    else "URLs for " + (NatToString(count) + " " + (noun + "s sent to webmaster"))
  }

  /** The organizer note names the count, and uses the singular exactly
      for one event. */
  lemma NotifyOrganizerTellsCount(c1: nat, c2: nat, noun: string)
    requires NotifyOrganizerMessage(c1, noun) == NotifyOrganizerMessage(c2, noun)
    ensures c1 == c2
  {
    var m := NotifyOrganizerMessage(c1, noun);
    NotifyOrganizerLetters(c1, noun);
    NotifyOrganizerLetters(c2, noun);
    if c1 != 1 && c2 != 1 {
      NumberOpening(c1);
      NumberOpening(c2);
      assert IntToString(c1) == NatToString(c1);
      assert IntToString(c2) == NatToString(c2);
      var x := noun + "s sent to organizer(s)";
      SplitAtSpace(NatToString(c1), x, NatToString(c2), x);
      ParseNatToString(c1);
      ParseNatToString(c2);
    }
  }

  /** `Email ` against `Emails`, and the count after the opening. */
  lemma NotifyOrganizerLetters(c: nat, noun: string)
    ensures |NotifyOrganizerMessage(c, noun)| > 11
    ensures NotifyOrganizerMessage(c, noun)[5] == ' ' <==> c == 1
    ensures c != 1 ==>
              NotifyOrganizerMessage(c, noun)[11..] == NatToString(c) + " " + (noun + "s sent to organizer(s)")
  {
  }

  /** The webmaster note names the count, and uses the singular exactly
      for one event. */
  lemma NotifyWebmasterTellsCount(c1: nat, c2: nat, noun: string)
    requires NotifyWebmasterMessage(c1, noun) == NotifyWebmasterMessage(c2, noun)
    ensures c1 == c2
  {
    NotifyWebmasterLetters(c1, noun);
    NotifyWebmasterLetters(c2, noun);
    if c1 != 1 && c2 != 1 {
      NumberOpening(c1);
      NumberOpening(c2);
      assert IntToString(c1) == NatToString(c1);
      assert IntToString(c2) == NatToString(c2);
      var x := noun + "s sent to webmaster";
      SplitAtSpace(NatToString(c1), x, NatToString(c2), x);
      ParseNatToString(c1);
      ParseNatToString(c2);
    }
  }

  /** `URL ` against `URLs`, and the count after the opening. */
  lemma NotifyWebmasterLetters(c: nat, noun: string)
    ensures |NotifyWebmasterMessage(c, noun)| > 9
    ensures NotifyWebmasterMessage(c, noun)[3] == ' ' <==> c == 1
    ensures c != 1 ==>
              NotifyWebmasterMessage(c, noun)[9..] == NatToString(c) + " " + (noun + "s sent to webmaster")
  {
  }

  /** The brevet admin's note when the one selected brevet got a rider
      list. */
  lemma BrevetOneCreatedExample()
    ensures CreatedMessage(1, 1, "brevet") == "Rider list created for 1 brevet."
  {
    assert CreatedHead(1, "brevet") == "Rider list created for 1 brevet.";
  }

  /** The organizer note for one brevet. */
  lemma NotifyOrganizerExample()
    ensures NotifyOrganizerMessage(1, "brevet") == "Email for 1 brevet sent to organizer(s)"
  {
    assert "brevet" + " sent to organizer(s)" == "brevet sent to organizer(s)";
  }
}
