/** The helper functions shared by the apps: the e-mail address obfuscator
    shown on public pages, and the search of the Google Docs document list
    for a rider-list template.

    The three copies of `email2words` (the site-wide helpers, the pasture
    helpers and the register helpers) and the two copies of
    `get_rider_list_template` are textually identical, so each is defined
    once here.
 */
module Helpers {
  import opened Text

  /** `email.replace('@', ' at ').replace('.', ' dot ')`. */
  function Email2Words(email: string): string {
    ReplaceChar(ReplaceChar(email, '@', " at "), '.', " dot ")
  }

  /** The obfuscated form holds neither an at sign nor a dot. */
  lemma Email2WordsHidesMarks(email: string)
    ensures '@' !in Email2Words(email) && '.' !in Email2Words(email)
  {
    var first := ReplaceChar(email, '@', " at ");
    ReplaceCharMembers(email, '@', " at ", '.');
    ReplaceCharMembers(first, '.', " dot ", '@');
  }

  /** An address without at signs and dots is shown as it is. */
  lemma Email2WordsIdentity(email: string)
    requires '@' !in email && '.' !in email
    ensures Email2Words(email) == email
  {
    ReplaceCharAbsent(email, '@', " at ");
    ReplaceCharAbsent(email, '.', " dot ");
  }

  /** The obfuscator works character by character: it distributes over
      concatenation and leaves every other character as it is, so the
      remaining characters keep their order. */
  lemma Email2WordsPiecewise(a: string, b: string, c: char)
    ensures Email2Words(a + b) == Email2Words(a) + Email2Words(b)
    ensures c != '@' && c != '.' ==> Email2Words([c]) == [c]
  {
    Email2WordsConcat(a, b);
    if c != '@' && c != '.' {
      Email2WordsIdentity([c]);
    }
  }

  lemma Email2WordsConcat(a: string, b: string)
    ensures Email2Words(a + b) == Email2Words(a) + Email2Words(b)
  {
    ReplaceCharConcat(a, b, '@', " at ");
    ReplaceCharConcat(ReplaceChar(a, '@', " at "), ReplaceChar(b, '@', " at "), '.', " dot ");
  }

  /** Each at sign grows the text by three characters and each dot by four. */
  lemma Email2WordsLength(email: string)
    ensures |Email2Words(email)| == |email| + 3 * Count(email, '@') + 4 * Count(email, '.')
  {
    var first := ReplaceChar(email, '@', " at ");
    ReplaceCharLength(email, '@', " at ");
    ReplaceCharCount(email, '@', " at ", '.');
    ReplaceCharLength(first, '.', " dot ");
  }

  /** Doing the two replacements in the other order gives the same text. */
  lemma Email2WordsEitherOrder(email: string)
    ensures ReplaceChar(ReplaceChar(email, '.', " dot "), '@', " at ") == Email2Words(email)
  {
    ReplaceCharCommute(email, '.', " dot ", '@', " at ");
  }

  /** The documentation's example, `djl@example.bc.ca` shown as
      `djl at example dot bc dot ca`, stated for every user name and every
      three host labels that hold no at sign and no dot. */
  lemma Email2WordsExample(user: string, host: string, domain: string, top: string)
    requires '@' !in user && '.' !in user
    requires '@' !in host && '.' !in host
    requires '@' !in domain && '.' !in domain
    requires '@' !in top && '.' !in top
    ensures Email2Words(user + "@" + host + "." + domain + "." + top)
         == user + " at " + host + " dot " + domain + " dot " + top
  {
    var tail := host + "." + (domain + "." + top);
    DottedHost(host, domain, top);
    UserAt(user, tail);
    assert user + "@" + host + "." + domain + "." + top == (user + "@") + tail;
    assert user + " at " + (host + " dot " + domain + " dot " + top)
        == user + " at " + host + " dot " + domain + " dot " + top;
  }

  /** The host part of the example: its labels joined by ` dot `. */
  lemma DottedHost(host: string, domain: string, top: string)
    requires '@' !in host && '.' !in host
    requires '@' !in domain && '.' !in domain
    requires '@' !in top && '.' !in top
    ensures Email2Words(host + "." + (domain + "." + top)) == host + " dot " + domain + " dot " + top
  {
    Email2WordsIdentity(top);
    DottedLabel(domain, top);
    DottedLabel(host, domain + "." + top);
  }

  /** The user part of the example: the user name, then ` at `. */
  lemma UserAt(user: string, tail: string)
    requires '@' !in user && '.' !in user
    ensures Email2Words((user + "@") + tail) == user + " at " + Email2Words(tail)
  {
    AtSign();
    Email2WordsIdentity(user);
    Email2WordsConcat(user, "@");
    Email2WordsConcat(user + "@", tail);
  }

  lemma AtSign()
    ensures Email2Words("@") == " at "
  {
    assert ReplaceChar("@", '@', " at ") == " at ";
    ReplaceCharAbsent(" at ", '.', " dot ");
  }

  lemma Dot()
    ensures Email2Words(".") == " dot "
  {
    ReplaceCharAbsent(".", '@', " at ");
    assert ReplaceChar(".", '.', " dot ") == " dot ";
  }

  lemma DottedLabel(part: string, rest: string)
    requires '@' !in part && '.' !in part
    ensures Email2Words(part + "." + rest) == part + " dot " + Email2Words(rest)
  {
    Dot();
    Email2WordsIdentity(part);
    Email2WordsConcat(part, "." + rest);
    Email2WordsConcat(".", rest);
    assert part + "." + rest == part + ("." + rest);
  }

  /** An entry of the Google Docs document list. */
  datatype Doc = Doc(title: string, resourceId: string)

  predicate HasTitle(docs: seq<Doc>, name: string) {
    exists i :: 0 <= i < |docs| && docs[i].title == name
  }

  /** The first document of the list titled `name`, if there is one. */
  function FirstTitled(docs: seq<Doc>, name: string): (r: Option<Doc>)
    ensures r.None? <==> !HasTitle(docs, name)
    ensures r.Some? ==> r.value in docs && r.value.title == name
  {
    if docs == [] then None
    else if docs[0].title == name then Some(docs[0])
    else
      assert HasTitle(docs, name) <==> HasTitle(docs[1..], name) by {
        if HasTitle(docs, name) {
          var i :| 0 <= i < |docs| && docs[i].title == name;
          assert docs[1..][i - 1] == docs[i];
        }
        if HasTitle(docs[1..], name) {
          var i :| 0 <= i < |docs[1..]| && docs[1..][i].title == name;
          assert docs[i + 1] == docs[1..][i];
        }
      }
      FirstTitled(docs[1..], name)
  }

  /** `get_rider_list_template`: the first document whose title is `name`.
      None stands for the UnboundLocalError the code raises when no title
      matches (`template` is then never assigned). */
  method GetRiderListTemplate(docs: seq<Doc>, name: string) returns (template: Option<Doc>)
    ensures template == FirstTitled(docs, name)
    ensures template.None? <==> !HasTitle(docs, name)
    ensures template.Some? ==>
      (exists i :: 0 <= i < |docs| && docs[i] == template.value && docs[i].title == name
                   && forall j :: 0 <= j < i ==> docs[j].title != name)
  {
    template := None;
    var i := 0;
    while i < |docs|
      invariant 0 <= i <= |docs|
      invariant forall j :: 0 <= j < i ==> docs[j].title != name
      invariant template.None?
      invariant FirstTitled(docs[i..], name) == FirstTitled(docs, name)
    {
      if docs[i].title == name {
        template := Some(docs[i]);
        break;
      }
      assert docs[i..][1..] == docs[i + 1..];
      i := i + 1;
    }
  }
}
