/** The forwarding decision: exclusion keywords are checked against subject,
    body and sender together; an optional allow-list is checked against the
    body alone.  All matching is substring matching after lower-casing. */
module Filter {
  import opened Text

  /** The haystack for the exclusion check: `f"{subject} {body} {from}".lower()`. */
  function EmailText(subject: string, body: string, from: string, lc: char -> char): string {
    Lower(subject + " " + body + " " + from, lc)
  }

  /** Some keyword, lower-cased, occurs in `text`: a loop that stops at the first hit. */
  function AnyKeywordIn(keywords: seq<string>, text: string, lc: char -> char): (r: bool)
    ensures r <==> exists i :: 0 <= i < |keywords| && IsSubstring(Lower(keywords[i], lc), text)
  {
    if keywords == [] then false
    else if IsSubstring(Lower(keywords[0], lc), text) then true
    else
      var r := AnyKeywordIn(keywords[1..], text, lc);
      assert forall i :: 1 <= i < |keywords| ==> keywords[i] == keywords[1..][i - 1];
      r
  }

  /** `should_forward_email`. */
  function ShouldForward(
    subject: string, body: string, from: string,
    excludeKeywords: seq<string>, bodyKeywords: seq<string>,
    lc: char -> char): (r: bool)
    // an exclusion hit anywhere in subject, body or sender rejects
    ensures (exists i :: 0 <= i < |excludeKeywords|
               && IsSubstring(Lower(excludeKeywords[i], lc), EmailText(subject, body, from, lc))) ==> !r
    // otherwise, a non-empty allow-list must hit the body, and an empty one accepts
    ensures (forall i :: 0 <= i < |excludeKeywords|
               ==> !IsSubstring(Lower(excludeKeywords[i], lc), EmailText(subject, body, from, lc))) ==>
            (r <==> (bodyKeywords == []
                     || exists j :: 0 <= j < |bodyKeywords| && IsSubstring(Lower(bodyKeywords[j], lc), Lower(body, lc))))
  {
    if AnyKeywordIn(excludeKeywords, EmailText(subject, body, from, lc), lc) then false
    else if bodyKeywords != [] then AnyKeywordIn(bodyKeywords, Lower(body, lc), lc)
    else true
  }

  /** Lower-casing keeps substrings: whatever the case mapping, a needle in the
      haystack is still in it once both are lower-cased. */
  lemma LowerKeepsSubstring(needle: string, hay: string, lc: char -> char)
    requires IsSubstring(needle, hay)
    ensures IsSubstring(Lower(needle, lc), Lower(hay, lc))
  {
    IsSubstringMeans(needle, hay);
    var k :| OccursAt(needle, hay, k);
    assert Lower(hay, lc)[k..k + |needle|] == Lower(needle, lc);
    assert OccursAt(Lower(needle, lc), Lower(hay, lc), k);
    IsSubstringMeans(Lower(needle, lc), Lower(hay, lc));
  }

  /** An exclusion keyword written into the sender address rejects the message,
      whatever the body allow-list says. */
  lemma ExcludedSenderRejected(
    subject: string, body: string, from: string,
    excludeKeywords: seq<string>, bodyKeywords: seq<string>,
    lc: char -> char, i: nat)
    requires i < |excludeKeywords| && IsSubstring(excludeKeywords[i], from)
    ensures !ShouldForward(subject, body, from, excludeKeywords, bodyKeywords, lc)
  {
    SubstringOfPart(excludeKeywords[i], subject + " " + body + " ", from, "");
    assert subject + " " + body + " " + from + "" == subject + " " + body + " " + from;
    LowerKeepsSubstring(excludeKeywords[i], subject + " " + body + " " + from, lc);
  }

  /** The configured example: excluding "noreply" rejects mail from noreply@x.com. */
  lemma NoReplyExample(subject: string, body: string, bodyKeywords: seq<string>, lc: char -> char)
    ensures !ShouldForward(subject, body, "noreply@x.com", ["noreply"], bodyKeywords, lc)
  {
    SubstringOfPart("noreply", "", "noreply", "@x.com");
    assert "" + "noreply" + "@x.com" == "noreply@x.com";
    ExcludedSenderRejected(subject, body, "noreply@x.com", ["noreply"], bodyKeywords, lc, 0);
  }

  /** An empty exclusion keyword is in every text, so it rejects every message. */
  lemma EmptyExclusionRejectsAll(
    subject: string, body: string, from: string,
    excludeKeywords: seq<string>, bodyKeywords: seq<string>,
    lc: char -> char)
    requires "" in excludeKeywords
    ensures !ShouldForward(subject, body, from, excludeKeywords, bodyKeywords, lc)
  {
    var i :| 0 <= i < |excludeKeywords| && excludeKeywords[i] == "";
    assert Lower(excludeKeywords[i], lc) == "";
    assert IsPrefix("", EmailText(subject, body, from, lc));
  }
}
