/** The message payload as the mail API returns it: a tree of MIME parts.
    This module reads headers, flattens the text leaves into one body
    (stripping HTML tags with a single regular-expression pass) and collects
    the attachment descriptors below the root. */
module Mime {
  import opened Wrappers
  import opened Text

  datatype Header = Header(name: string, value: string)

  /** The `body` dictionary of a part: `data` (base64 text, '' when absent),
      `size` (0 when absent) and `attachmentId` (absent for inline parts). */
  datatype PartBody = PartBody(data: string, size: int, attachmentId: Option<string>)

  /** One part of the payload.  `hasParts` says whether the `parts` key is
      present at all (a part with an empty `parts` list is still a node). */
  datatype Part = Part(
    mimeType: string,
    filename: string,
    headers: seq<Header>,
    body: PartBody,
    hasParts: bool,
    parts: seq<Part>)

  /** What the forwarder keeps of an attachment part. */
  datatype AttachmentMeta = AttachmentMeta(
    filename: string,
    mimeType: string,
    size: int,
    attachmentId: Option<string>)

  /** A fetched message reduced to what the rest of the pipeline uses; absent
      headers are ''. */
  datatype EmailData = EmailData(
    id: string,
    subject: string,
    from: string,
    to: string,
    date: string,
    body: string,
    attachments: seq<AttachmentMeta>)

  // ---------------------------------------------------------------------------
  // Header lookup

  /** The value of the first header named exactly `name`, or '' when none is. */
  function HeaderValue(headers: seq<Header>, name: string): (r: string)
    ensures
      || (r == "" && forall i :: 0 <= i < |headers| ==> headers[i].name != name)
      || (exists i :: 0 <= i < |headers| && headers[i].name == name && r == headers[i].value
                      && forall j :: 0 <= j < i ==> headers[j].name != name)
  {
    if headers == [] then ""
    else if headers[0].name == name then headers[0].value
    else
      var r := HeaderValue(headers[1..], name);
      assert forall i :: 1 <= i < |headers| ==> headers[i] == headers[1..][i - 1];
      r
  }

  // ---------------------------------------------------------------------------
  // Tag stripping: `re.sub('<[^<]+?>', '', text)`

  /** The pattern matches exactly `s[i..j + 1]`: a '<', at least one character
      that is not '<', and a '>' at `j`, with no '<' anywhere in between.
      A '>' may be among the in-between characters. */
  ghost predicate MatchesAt(s: string, i: int, j: int) {
    0 <= i && i + 2 <= j < |s| && s[i] == '<' && s[j] == '>'
    && forall k :: i < k < j ==> s[k] != '<'
  }

  /** Scans from `k` for the first '>' or '<'; only a '>' closes the tag. */
  function CloseFrom(s: string, k: nat): (r: Option<nat>)
    ensures r.Some? ==> k <= r.value < |s| && s[r.value] == '>'
    ensures r.Some? ==> forall m :: k <= m < r.value ==> s[m] != '<' && s[m] != '>'
    ensures r.None? ==> forall m :: k <= m < |s| && s[m] == '>' ==> exists q :: k <= q < m && s[q] == '<'
    decreases |s| - k
  {
    if k >= |s| then None
    else if s[k] == '>' then Some(k)
    else if s[k] == '<' then None
    else CloseFrom(s, k + 1)
  }

  /** The end of the shortest match starting at `i` (the `+?` is lazy), if any. */
  function TagEnd(s: string, i: nat): (r: Option<nat>)
    ensures r.Some? ==> MatchesAt(s, i, r.value)
    ensures r.Some? ==> forall j :: i <= j < r.value ==> !MatchesAt(s, i, j)
    ensures r.None? ==> forall j :: !MatchesAt(s, i, j)
  {
    if i + 1 < |s| && s[i] == '<' && s[i + 1] != '<' then CloseFrom(s, i + 2) else None
  }

  /** One left-to-right pass of `re.sub`: at each position either the pattern
      matches and the match is dropped, or the character is kept. */
  function StripTags(s: string): (r: string)
    ensures |r| <= |s|
    decreases |s|
  {
    if s == [] then []
    else match TagEnd(s, 0)
      case Some(j) => StripTags(s[j + 1..])
      case None => [s[0]] + StripTags(s[1..])
  }

  /** Text without any '<' is left as it is. */
  lemma {:induction false} StripTagsNoOpen(s: string)
    requires forall k :: 0 <= k < |s| ==> s[k] != '<'
    ensures StripTags(s) == s
    decreases |s|
  {
    if s != [] {
      StripTagsNoOpen(s[1..]);
    }
  }

  /** A prefix without '<' is copied through. */
  lemma {:induction false} StripTagsPlainPrefix(a: string, b: string)
    requires forall k :: 0 <= k < |a| ==> a[k] != '<'
    ensures StripTags(a + b) == a + StripTags(b)
    decreases |a|
  {
    if a != [] {
      assert (a + b)[0] == a[0] && (a + b)[1..] == a[1..] + b;
      assert TagEnd(a + b, 0).None?;
      assert StripTags(a + b) == [a[0]] + StripTags(a[1..] + b);
      StripTagsPlainPrefix(a[1..], b);
      assert [a[0]] + a[1..] == a;
      assert a + StripTags(b) == [a[0]] + (a[1..] + StripTags(b));
    } else {
      assert a + b == b;
    }
  }

  /** A complete tag `<x>` whose inside has neither '<' nor '>' is dropped. */
  lemma StripTagsDropsTag(x: string, b: string)
    requires x != []
    requires forall k :: 0 <= k < |x| ==> x[k] != '<' && x[k] != '>'
    ensures StripTags("<" + x + ">" + b) == StripTags(b)
  {
    var s := "<" + x + ">" + b;
    var j := |x| + 1;
    assert s[j] == '>';
    assert forall k :: 1 <= k < j ==> s[k] == x[k - 1];
    assert MatchesAt(s, 0, j);
    assert TagEnd(s, 0) == Some(j);
    assert s[j + 1..] == b;
  }

  /** The worked example: tags around a word are removed. */
  lemma StripTagsExample()
    ensures StripTags("Hello <b>World</b>") == "Hello World"
  {
    var hello, inner := "Hello ", "<b>" + "World" + "</b>";
    BoldWordStripped();
    assert StripTags(hello + inner) == hello + "World" by {
      StripTagsPlainPrefix(hello, inner);
    }
    assert "Hello <b>World</b>" == hello + inner;
    assert "Hello World" == hello + "World";
  }

  lemma BoldWordStripped()
    ensures StripTags("<b>" + "World" + "</b>") == "World"
  {
    var close, word := "</b>", "World";
    CloseTagStripped();
    assert StripTags(word + close) == word by {
      StripTagsPlainPrefix(word, close);
    }
    StripTagsDropsTag("b", word + close);
    assert "<b>" + word + close == "<" + "b" + ">" + (word + close);
  }

  lemma CloseTagStripped()
    ensures StripTags("</b>") == ""
  {
    StripTagsDropsTag("/b", "");
    assert "</b>" == "<" + "/b" + ">" + "";
  }

  /** One pass is not enough: "<<a>b>" leaves the tag "<b>" behind, and the
      empty "<>" never matches. */
  lemma StripTagsSinglePass()
    ensures StripTags("<<a>b>") == "<b>"
    ensures TagEnd("<b>", 0) == Some(2)
    ensures StripTags("<>") == "<>"
  {
    assert TagEnd("<<a>b>", 0).None?;
    assert "<<a>b>"[1..] == "<" + "a" + ">" + "b>";
    StripTagsDropsTag("a", "b>");
    StripTagsNoOpen("b>");
    assert TagEnd("<>", 0).None?;
    StripTagsNoOpen(">");
    assert "<>"[1..] == ">";
  }

  // ---------------------------------------------------------------------------
  // Body extraction

  /** What a leaf contributes: decoded text for `text/plain`, decoded text with
      tags stripped for `text/html`, nothing for other types or empty data. */
  function LeafText(p: Part, decode: string -> string): (r: string)
    ensures p.mimeType != "text/plain" && p.mimeType != "text/html" ==> r == ""
    ensures p.body.data == "" ==> r == ""
    ensures p.mimeType == "text/plain" && p.body.data != "" ==> r == decode(p.body.data)
    ensures p.mimeType == "text/html" && p.body.data != "" ==> r == StripTags(decode(p.body.data))
  {
    if p.mimeType == "text/plain" then
      if p.body.data != "" then decode(p.body.data) else ""
    else if p.mimeType == "text/html" then
      if p.body.data != "" then StripTags(decode(p.body.data)) else ""
    else ""
  }

  /** The leaves of a part in document order (a part without `parts` is a leaf). */
  function Leaves(p: Part): seq<Part> {
    if p.hasParts then LeavesOf(p.parts) else [p]
  }

  function LeavesOf(ps: seq<Part>): seq<Part> {
    if ps == [] then [] else Leaves(ps[0]) + LeavesOf(ps[1..])
  }

  /** Concatenated text of a flat list of leaves. */
  function LeafTexts(ls: seq<Part>, decode: string -> string): string {
    if ls == [] then "" else LeafText(ls[0], decode) + LeafTexts(ls[1..], decode)
  }

  lemma {:induction false} LeafTextsAppend(a: seq<Part>, b: seq<Part>, decode: string -> string)
    ensures LeafTexts(a + b, decode) == LeafTexts(a, decode) + LeafTexts(b, decode)
  {
    if a == [] {
      assert a + b == b;
    } else {
      assert (a + b)[0] == a[0] && (a + b)[1..] == a[1..] + b;
      LeafTextsAppend(a[1..], b, decode);
      AppendAssoc(LeafText(a[0], decode), LeafTexts(a[1..], decode), LeafTexts(b, decode));
    }
  }

  /** `extract_email_body`: a node concatenates its children's bodies in
      order, so the body is the flat fold of the leaf texts in document order. */
  function ExtractBody(p: Part, decode: string -> string): (r: string)
    ensures r == LeafTexts(Leaves(p), decode)
  {
    if p.hasParts then ExtractBodies(p.parts, decode)
    else
      assert [p][1..] == [];
      LeafText(p, decode)
  }

  /** The bodies of a list of parts, concatenated. */
  function ExtractBodies(ps: seq<Part>, decode: string -> string): (r: string)
    ensures r == LeafTexts(LeavesOf(ps), decode)
  {
    if ps == [] then ""
    else
      LeafTextsAppend(Leaves(ps[0]), LeavesOf(ps[1..]), decode);
      ExtractBody(ps[0], decode) + ExtractBodies(ps[1..], decode)
  }

  lemma {:induction false} ExtractBodiesAppend(a: seq<Part>, b: seq<Part>, decode: string -> string)
    ensures ExtractBodies(a + b, decode) == ExtractBodies(a, decode) + ExtractBodies(b, decode)
  {
    if a == [] {
      assert a + b == b;
    } else {
      assert (a + b)[0] == a[0] && (a + b)[1..] == a[1..] + b;
      ExtractBodiesAppend(a[1..], b, decode);
      AppendAssoc(ExtractBody(a[0], decode), ExtractBodies(a[1..], decode), ExtractBodies(b, decode));
    }
  }

  /** Decoded contents of the leaves that carry data, concatenated. */
  function DecodedData(ls: seq<Part>, decode: string -> string): string {
    if ls == [] then ""
    else (if ls[0].body.data != "" then decode(ls[0].body.data) else "") + DecodedData(ls[1..], decode)
  }

  /** A tree whose leaves are all `text/plain` yields the decoded leaf contents
      concatenated in document order. */
  lemma PlainTreeBody(p: Part, decode: string -> string)
    requires forall l :: l in Leaves(p) ==> l.mimeType == "text/plain"
    ensures ExtractBody(p, decode) == DecodedData(Leaves(p), decode)
  {
    PlainLeavesDecoded(Leaves(p), decode);
  }

  lemma {:induction false} PlainLeavesDecoded(ls: seq<Part>, decode: string -> string)
    requires forall l :: l in ls ==> l.mimeType == "text/plain"
    ensures LeafTexts(ls, decode) == DecodedData(ls, decode)
  {
    if ls != [] {
      assert ls[0] in ls;
      assert forall l :: l in ls[1..] ==> l in ls;
      PlainLeavesDecoded(ls[1..], decode);
    }
  }

  /** An HTML leaf whose decoded text has no '<' contributes that text unchanged. */
  lemma HtmlWithoutTagsPassesThrough(p: Part, decode: string -> string)
    requires !p.hasParts && p.mimeType == "text/html" && p.body.data != ""
    requires forall k :: 0 <= k < |decode(p.body.data)| ==> decode(p.body.data)[k] != '<'
    ensures ExtractBody(p, decode) == decode(p.body.data)
  {
    StripTagsNoOpen(decode(p.body.data));
  }

  // ---------------------------------------------------------------------------
  // Attachments

  function Meta(p: Part): AttachmentMeta {
    AttachmentMeta(p.filename, p.mimeType, p.body.size, p.body.attachmentId)
  }

  /** The attachments a part contributes: itself when it has a file name, then
      every named part below it. */
  function PartAttachments(p: Part): seq<AttachmentMeta> {
    (if p.filename != "" then [Meta(p)] else [])
    + (if p.hasParts then PartsAttachments(p.parts) else [])
  }

  function PartsAttachments(ps: seq<Part>): seq<AttachmentMeta> {
    if ps == [] then [] else PartAttachments(ps[0]) + PartsAttachments(ps[1..])
  }

  /** The attachment list of a message: the named parts strictly below the payload. */
  function Attachments(payload: Part): seq<AttachmentMeta> {
    if payload.hasParts then PartsAttachments(payload.parts) else []
  }

  lemma {:induction false} PartsAttachmentsAppend(a: seq<Part>, b: seq<Part>)
    ensures PartsAttachments(a + b) == PartsAttachments(a) + PartsAttachments(b)
  {
    if a == [] {
      assert a + b == b;
    } else {
      assert (a + b)[0] == a[0] && (a + b)[1..] == a[1..] + b;
      PartsAttachmentsAppend(a[1..], b);
      AppendAssoc(PartAttachments(a[0]), PartsAttachments(a[1..]), PartsAttachments(b));
    }
  }

  /** `extract_attachments`: walks the parts below the payload and appends a
      descriptor for every part with a file name. */
  method CollectAttachments(payload: Part) returns (attachments: seq<AttachmentMeta>)
    ensures attachments == Attachments(payload)
  {
    attachments := [];
    if payload.hasParts {
      attachments := ProcessParts(payload.parts, attachments);
    }
  }

  /** The nested `process_parts`; the list it appends to is threaded through. */
  method ProcessParts(parts: seq<Part>, acc: seq<AttachmentMeta>) returns (out: seq<AttachmentMeta>)
    ensures out == acc + PartsAttachments(parts)
    decreases parts
  {
    out := acc;
    for i := 0 to |parts|
      invariant out == acc + PartsAttachments(parts[..i])
    {
      var part := parts[i];
      ghost var before := out;
      var own := if part.filename != "" then [Meta(part)] else [];
      if part.filename != "" {
        out := out + [Meta(part)];
      }
      if part.hasParts {
        out := ProcessParts(part.parts, out);
        AppendAssoc(before, own, PartsAttachments(part.parts));
      }
      assert out == before + PartAttachments(part);
      assert parts[..i + 1] == parts[..i] + [part];
      PartsAttachmentsAppend(parts[..i], [part]);
      assert PartsAttachments([part]) == PartAttachments(part);
      AppendAssoc(acc, PartsAttachments(parts[..i]), PartAttachments(part));
    }
    assert parts[..|parts|] == parts;
  }

  // Reference view of the attachment list: all parts below the root in
  // pre-order, filtered by file name.

  /** Every part strictly below `p`, each parent before its descendants. */
  function Descendants(p: Part): seq<Part> {
    if p.hasParts then Subtrees(p.parts) else []
  }

  /** Every part of a forest, in pre-order. */
  function Subtrees(ps: seq<Part>): seq<Part> {
    if ps == [] then [] else [ps[0]] + Descendants(ps[0]) + Subtrees(ps[1..])
  }

  /** Descriptors of the named parts of a flat list, in order. */
  function NamedMetas(ps: seq<Part>): seq<AttachmentMeta> {
    if ps == [] then []
    else (if ps[0].filename != "" then [Meta(ps[0])] else []) + NamedMetas(ps[1..])
  }

  function CountNamed(ps: seq<Part>): nat {
    if ps == [] then 0 else (if ps[0].filename != "" then 1 else 0) + CountNamed(ps[1..])
  }

  lemma {:induction false} NamedMetasAppend(a: seq<Part>, b: seq<Part>)
    ensures NamedMetas(a + b) == NamedMetas(a) + NamedMetas(b)
  {
    if a == [] {
      assert a + b == b;
    } else {
      assert (a + b)[0] == a[0] && (a + b)[1..] == a[1..] + b;
      NamedMetasAppend(a[1..], b);
      AppendAssoc(if a[0].filename != "" then [Meta(a[0])] else [], NamedMetas(a[1..]), NamedMetas(b));
    }
  }

  lemma {:induction false} NamedMetasCount(ps: seq<Part>)
    ensures |NamedMetas(ps)| == CountNamed(ps)
  {
    if ps != [] {
      NamedMetasCount(ps[1..]);
    }
  }

  /** The attachment list is exactly the named parts strictly below the root,
      at any depth, in pre-order. */
  lemma AttachmentsAreNamedDescendants(payload: Part)
    ensures Attachments(payload) == NamedMetas(Descendants(payload))
    ensures |Attachments(payload)| == CountNamed(Descendants(payload))
    ensures !payload.hasParts ==> Attachments(payload) == []
  {
    if payload.hasParts {
      ForestAttachments(payload.parts);
    }
    NamedMetasCount(Descendants(payload));
  }

  lemma {:induction false} PartAttachmentsAreNamed(p: Part)
    ensures PartAttachments(p) == NamedMetas([p] + Descendants(p))
  {
    NamedMetasAppend([p], Descendants(p));
    assert NamedMetas([p]) == (if p.filename != "" then [Meta(p)] else []) by {
      assert [p][1..] == [];
    }
    if p.hasParts {
      ForestAttachments(p.parts);
    }
  }

  lemma {:induction false} ForestAttachments(ps: seq<Part>)
    ensures PartsAttachments(ps) == NamedMetas(Subtrees(ps))
  {
    if ps != [] {
      PartAttachmentsAreNamed(ps[0]);
      ForestAttachments(ps[1..]);
      NamedMetasAppend([ps[0]] + Descendants(ps[0]), Subtrees(ps[1..]));
    }
  }

  // ---------------------------------------------------------------------------
  // The extracted message

  /** What `get_email_details` builds from a fetched payload. */
  function EmailDetails(id: string, payload: Part, includeAttachments: bool, decode: string -> string): EmailData {
    EmailData(
      id,
      HeaderValue(payload.headers, "Subject"),
      HeaderValue(payload.headers, "From"),
      HeaderValue(payload.headers, "To"),
      HeaderValue(payload.headers, "Date"),
      ExtractBody(payload, decode),
      if includeAttachments then Attachments(payload) else [])
  }

  /** `get_email_details` once the message has been fetched: the four headers,
      the flattened body and, when enabled, the attachment list. */
  method GetEmailDetails(id: string, payload: Part, includeAttachments: bool, decode: string -> string)
    returns (email: EmailData)
    ensures email == EmailDetails(id, payload, includeAttachments, decode)
    ensures !includeAttachments ==> email.attachments == []
    ensures includeAttachments ==> email.attachments == NamedMetas(Descendants(payload))
  {
    email := EmailData(
      id,
      HeaderValue(payload.headers, "Subject"),
      HeaderValue(payload.headers, "From"),
      HeaderValue(payload.headers, "To"),
      HeaderValue(payload.headers, "Date"),
      "",
      []);
    email := email.(body := ExtractBody(payload, decode));
    if includeAttachments {
      var attachments := CollectAttachments(payload);
      email := email.(attachments := attachments);
      AttachmentsAreNamedDescendants(payload);
    }
  }
}
