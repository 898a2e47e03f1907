/** The chat message built for one e-mail: a header with the escaped sender,
    subject and date, the body cut against a raw-length budget, a list of
    attachments, and a final cut to the configured maximum length. */
module Format {
  import opened Text
  import opened Markdown
  import opened Mime

  datatype FormatSettings = FormatSettings(maxMessageLength: int, sendFullEmail: bool)

  /** Room kept free after the body for the attachment section. */
  const AttachmentReserve: int := 200

  const Title: string := "📧 *Novo Email*\n\n"

  function FromLine(fromSafe: string): string {
    "*De:* " + fromSafe + "\n"
  }

  function SubjectLine(subjectSafe: string): string {
    "*Assunto:* " + subjectSafe + "\n"
  }

  function DateLine(dateSafe: string): string {
    "*Data:* " + dateSafe + "\n\n"
  }

  function HeaderBlock(fromSafe: string, subjectSafe: string, dateSafe: string): string {
    Title + FromLine(fromSafe) + SubjectLine(subjectSafe) + DateLine(dateSafe)
  }

  /** The stripped body, cut to `budget` characters with Python slice semantics
      and marked with "..." when it is longer than the budget.  The budget
      counts raw characters only: with a negative budget the slice drops
      characters from the end, and the "..." comes on top. */
  function BudgetedBody(body: string, budget: int): (r: string)
    ensures |body| <= budget ==> r == body
    ensures |body| > budget ==> 3 <= |r| <= |body| + 3 && r[|r| - 3..] == "..." && r[..|r| - 3] == body[..|r| - 3]
    ensures |body| > budget && 0 <= budget ==> |r| == budget + 3
    ensures |body| > budget && budget < 0 ==> |r| == (if |body| + budget > 0 then |body| + budget else 0) + 3
  {
    if |body| > budget then PySlice(body, budget) + "..." else body
  }

  function BodySection(bodySafe: string): string {
    "*Conteúdo:*\n" + bodySafe + "\n\n"
  }

  function AttachmentHeading(count: nat): string {
    "📎 *Anexos \\(" + NatToString(count) + "\\):*\n"
  }

  function AttachmentLine(filenameSafe: string, sizeMb: string): string {
    "• " + filenameSafe + " \\(" + sizeMb + " MB\\)\n"
  }

  /** One line per attachment, in list order. */
  function AttachmentLines(attachments: seq<AttachmentMeta>, sizeText: int -> string): string {
    if attachments == [] then ""
    else AttachmentLines(attachments[..|attachments| - 1], sizeText)
         + (var last := attachments[|attachments| - 1];
            AttachmentLine(Escaped(last.filename), sizeText(last.size)))
  }

  /** The attachment section: empty when there are no attachments. */
  function AttachmentSection(attachments: seq<AttachmentMeta>, sizeText: int -> string): string {
    if attachments == [] then ""
    else AttachmentHeading(|attachments|) + AttachmentLines(attachments, sizeText)
  }

  /** The header with sender, subject and date escaped. */
  function HeaderOf(email: EmailData): string {
    HeaderBlock(Escaped(email.from), Escaped(email.subject), Escaped(email.date))
  }

  /** The body as it goes into the message: stripped, cut to the budget, escaped. */
  function SafeBody(body: string, budget: int, isSpace: char -> bool): string {
    Escaped(BudgetedBody(Strip(body, isSpace), budget))
  }

  /** The raw-length budget for the body once the header is written. */
  function BodyBudget(maxLength: int, headerLength: int): int {
    maxLength - headerLength - AttachmentReserve
  }

  /** The header followed, when full bodies are sent, by the body section. */
  function WithBody(email: EmailData, settings: FormatSettings, isSpace: char -> bool): string {
    var head := HeaderOf(email);
    if settings.sendFullEmail
    then head + BodySection(SafeBody(email.body, BodyBudget(settings.maxMessageLength, |head|), isSpace))
    else head
  }

  /** The message before the final cut to the maximum length. */
  function ComposedMessage(
    email: EmailData, settings: FormatSettings,
    isSpace: char -> bool, sizeText: int -> string): string
  {
    WithBody(email, settings, isSpace) + AttachmentSection(email.attachments, sizeText)
  }

  /** `format_telegram_message`: builds the message piece by piece and returns
      its first `maxMessageLength` characters (Python slice semantics). */
  method FormatTelegramMessage(
    email: EmailData, settings: FormatSettings,
    isSpace: char -> bool, sizeText: int -> string) returns (r: string)
    ensures r == PySlice(ComposedMessage(email, settings, isSpace, sizeText), settings.maxMessageLength)
    ensures 0 <= settings.maxMessageLength ==> |r| <= settings.maxMessageLength
    ensures |ComposedMessage(email, settings, isSpace, sizeText)| <= settings.maxMessageLength
            ==> r == ComposedMessage(email, settings, isSpace, sizeText)
    ensures NoClipInFields(email) && email.attachments == [] ==> Clip !in r
    ensures email.attachments != [] && |ComposedMessage(email, settings, isSpace, sizeText)| <= settings.maxMessageLength
            ==> Clip in r
  {
    var message := WriteHeaderAndBody(email, settings, isSpace);
    message := AppendAttachmentSection(message, email.attachments, sizeText);
    r := PySlice(message, settings.maxMessageLength);
    if NoClipInFields(email) && email.attachments == [] {
      AttachmentMarkIffAttachments(email, settings, isSpace, sizeText);
      PySliceKeepsAbsent(message, settings.maxMessageLength, Clip);
    }
    if email.attachments != [] {
      ClipInSection(email.attachments, sizeText);
      assert Clip in message;
    }
  }

  /** The first part of the message: the header lines, then the body section
      when full bodies are sent. */
  method WriteHeaderAndBody(email: EmailData, settings: FormatSettings, isSpace: char -> bool)
    returns (message: string)
    ensures message == WithBody(email, settings, isSpace)
  {
    var fromSafe := EscapeMarkdown(email.from);
    var subjectSafe := EscapeMarkdown(email.subject);
    var dateSafe := EscapeMarkdown(email.date);

    message := Title;
    message := message + FromLine(fromSafe);
    message := message + SubjectLine(subjectSafe);
    message := message + DateLine(dateSafe);
    assert message == HeaderOf(email);

    if settings.sendFullEmail {
      var bodySafe := PrepareBody(email.body, settings.maxMessageLength - |message| - 200, isSpace);
      assert bodySafe == SafeBody(email.body, BodyBudget(settings.maxMessageLength, |message|), isSpace);
      message := message + BodySection(bodySafe);
    }
  }

  /** The attachment heading and one line per attachment, when there are any. */
  method AppendAttachmentSection(message: string, attachments: seq<AttachmentMeta>, sizeText: int -> string)
    returns (r: string)
    ensures r == message + AttachmentSection(attachments, sizeText)
  {
    r := message;
    if attachments != [] {
      r := r + AttachmentHeading(|attachments|);
      r := AppendAttachmentLines(r, attachments, sizeText);
    }
  }

  /** The body step: strip, cut to the budget when too long, escape. */
  method PrepareBody(rawBody: string, budget: int, isSpace: char -> bool) returns (bodySafe: string)
    ensures bodySafe == SafeBody(rawBody, budget, isSpace)
  {
    var body := Strip(rawBody, isSpace);
    if |body| > budget {
      body := PySlice(body, budget) + "...";
    }
    bodySafe := EscapeMarkdown(body);
  }

  /** The loop over the attachments: one line each, appended in list order. */
  method AppendAttachmentLines(message: string, attachments: seq<AttachmentMeta>, sizeText: int -> string)
    returns (r: string)
    ensures r == message + AttachmentLines(attachments, sizeText)
  {
    r := message;
    for i := 0 to |attachments|
      invariant r == message + AttachmentLines(attachments[..i], sizeText)
    {
      var attachment := attachments[i];
      var filenameSafe := EscapeMarkdown(attachment.filename);
      var line := AttachmentLine(filenameSafe, sizeText(attachment.size));
      AttachmentLinesStep(attachments, i, sizeText);
      AppendAssoc(message, AttachmentLines(attachments[..i], sizeText), line);
      r := r + line;
    }
    assert attachments[..|attachments|] == attachments;
  }

  lemma AttachmentLinesStep(attachments: seq<AttachmentMeta>, i: nat, sizeText: int -> string)
    requires i < |attachments|
    ensures AttachmentLines(attachments[..i + 1], sizeText)
            == AttachmentLines(attachments[..i], sizeText)
               + AttachmentLine(Escaped(attachments[i].filename), sizeText(attachments[i].size))
  {
    assert attachments[..i + 1][..i] == attachments[..i];
  }

  /** The paperclip that opens the attachment section. */
  const Clip: char := '📎'

  /** None of the text fields of the e-mail carries a paperclip. */
  predicate NoClipInFields(email: EmailData) {
    Clip !in email.from && Clip !in email.subject && Clip !in email.date && Clip !in email.body
  }

  lemma ClipInSection(attachments: seq<AttachmentMeta>, sizeText: int -> string)
    requires attachments != []
    ensures Clip in AttachmentSection(attachments, sizeText)
  {
    assert AttachmentSection(attachments, sizeText)[0] == Clip;
  }

  /** The header brings in no paperclip of its own. */
  lemma ClipNotInHeader(email: EmailData)
    requires Clip !in email.from && Clip !in email.subject && Clip !in email.date
    ensures Clip !in HeaderOf(email)
  {
    ClipIsPlain();
    EscapedKeepsOtherChars(email.from, Clip);
    EscapedKeepsOtherChars(email.subject, Clip);
    EscapedKeepsOtherChars(email.date, Clip);
    assert Clip !in Title;
    assert Clip !in FromLine(Escaped(email.from));
    assert Clip !in SubjectLine(Escaped(email.subject));
    assert Clip !in DateLine(Escaped(email.date));
  }

  /** Stripping, cutting and escaping the body bring in no paperclip. */
  lemma ClipNotInSafeBody(body: string, budget: int, isSpace: char -> bool)
    requires Clip !in body
    ensures Clip !in SafeBody(body, budget, isSpace)
  {
    var stripped := Strip(body, isSpace);
    StripKeepsAbsent(body, Clip, isSpace);
    BudgetedKeepsAbsent(stripped, budget, Clip);
    ClipIsPlain();
    EscapedKeepsOtherChars(BudgetedBody(stripped, budget), Clip);
  }

  /** The paperclip is neither reserved nor a backslash, so escaping keeps it as it is. */
  lemma ClipIsPlain()
    ensures !IsSpecial(Clip) && Clip != '\\'
  {
  }

  /** Cutting the body and marking it with "..." brings in nothing but dots. */
  lemma BudgetedKeepsAbsent(body: string, budget: int, c: char)
    requires c !in body && c != '.'
    ensures c !in BudgetedBody(body, budget)
  {
    if |body| > budget {
      PySliceKeepsAbsent(body, budget, c);
      assert BudgetedBody(body, budget) == PySlice(body, budget) + "...";
    }
  }

  /** The header, and the body section when it is sent, carry no paperclip. */
  lemma WithBodyHasNoClip(email: EmailData, settings: FormatSettings, isSpace: char -> bool)
    requires NoClipInFields(email)
    ensures Clip !in WithBody(email, settings, isSpace)
  {
    var head := HeaderOf(email);
    ClipNotInHeader(email);
    if settings.sendFullEmail {
      var bodySafe := SafeBody(email.body, BodyBudget(settings.maxMessageLength, |head|), isSpace);
      ClipNotInSafeBody(email.body, BodyBudget(settings.maxMessageLength, |head|), isSpace);
      assert WithBody(email, settings, isSpace) == head + BodySection(bodySafe);
    }
  }

  /** Before the final cut, the attachment section is there exactly when the
      message has attachments, read off the paperclip mark: none of the
      escaped fields can bring one in when the e-mail itself has none. */
  lemma AttachmentMarkIffAttachments(
    email: EmailData, settings: FormatSettings,
    isSpace: char -> bool, sizeText: int -> string)
    requires NoClipInFields(email)
    ensures Clip in ComposedMessage(email, settings, isSpace, sizeText) <==> email.attachments != []
  {
    WithBodyHasNoClip(email, settings, isSpace);
    var section := AttachmentSection(email.attachments, sizeText);
    if email.attachments != [] {
      ClipInSection(email.attachments, sizeText);
    } else {
      assert section == [];
    }
  }

  /** A final cut that falls inside the header and body leaves no paperclip,
      whatever the attachments. */
  lemma CutBeforeSectionDropsMark(
    email: EmailData, settings: FormatSettings,
    isSpace: char -> bool, sizeText: int -> string)
    requires NoClipInFields(email)
    requires 0 <= settings.maxMessageLength <= |WithBody(email, settings, isSpace)|
    ensures Clip !in PySlice(ComposedMessage(email, settings, isSpace, sizeText), settings.maxMessageLength)
  {
    var withBody := WithBody(email, settings, isSpace);
    var r := PySlice(ComposedMessage(email, settings, isSpace, sizeText), settings.maxMessageLength);
    WithBodyHasNoClip(email, settings, isSpace);
    forall i | 0 <= i < |r| ensures r[i] != Clip {
      assert r[i] == withBody[i];
    }
  }

  /** The reserve of 200 characters counts raw body characters, but escaping
      can double the body: with a limit of 445, empty header fields and a body
      of 200 dots, the body is kept whole (budget 200) and escaped to 400
      characters, so the header and body take 459 characters and the final cut
      removes the whole attachment section. */
  lemma FinalCutCanDropSection(
    id: string, to: string, body: string, attachments: seq<AttachmentMeta>,
    isSpace: char -> bool, sizeText: int -> string)
    requires |body| == 200 && forall i :: 0 <= i < |body| ==> body[i] == '.'
    requires !isSpace('.')
    requires attachments != []
    ensures var email := EmailData(id, "", "", to, "", body, attachments);
            && Clip in ComposedMessage(email, FormatSettings(445, true), isSpace, sizeText)
            && Clip !in PySlice(ComposedMessage(email, FormatSettings(445, true), isSpace, sizeText), 445)
  {
    var email := EmailData(id, "", "", to, "", body, attachments);
    var settings := FormatSettings(445, true);
    EmptyHeaderLength(email);
    UnspacedBodyKept(body, 200, isSpace);
    DottedEscapedLength(body);
    assert Clip !in body by {
      assert forall i :: 0 <= i < |body| ==> body[i] != Clip;
    }
    assert |WithBody(email, settings, isSpace)| == 45 + |BodySection(Escaped(body))|;
    AttachmentMarkIffAttachments(email, settings, isSpace, sizeText);
    CutBeforeSectionDropsMark(email, settings, isSpace, sizeText);
  }

  lemma EmptyHeaderLength(email: EmailData)
    requires email.from == "" && email.subject == "" && email.date == ""
    ensures |HeaderOf(email)| == 45
  {
    assert Escaped("") == "";
  }

  /** A body without whitespace that fits its budget goes in escaped and whole. */
  lemma UnspacedBodyKept(body: string, budget: int, isSpace: char -> bool)
    requires forall i :: 0 <= i < |body| ==> !isSpace(body[i])
    requires |body| <= budget
    ensures SafeBody(body, budget, isSpace) == Escaped(body)
  {
    StripNoSpace(body, isSpace);
  }

  lemma DottedEscapedLength(body: string)
    requires forall i :: 0 <= i < |body| ==> body[i] == '.'
    ensures |Escaped(body)| == 2 * |body|
  {
    DotIsSpecial();
    CountSpecialAll(body);
    EscapedLength(body);
  }

  /** The message opens with the header. */
  lemma ComposedStartsWithHeader(
    email: EmailData, settings: FormatSettings,
    isSpace: char -> bool, sizeText: int -> string)
    ensures |HeaderOf(email)| <= |ComposedMessage(email, settings, isSpace, sizeText)|
    ensures ComposedMessage(email, settings, isSpace, sizeText)[..|HeaderOf(email)|] == HeaderOf(email)
  {
    var head := HeaderOf(email);
    var withBody := WithBody(email, settings, isSpace);
    var rest: string;
    if settings.sendFullEmail {
      rest := BodySection(SafeBody(email.body, BodyBudget(settings.maxMessageLength, |head|), isSpace));
    } else {
      rest := "";
      assert head + rest == head;
    }
    assert withBody == head + rest;
    var section := AttachmentSection(email.attachments, sizeText);
    PrefixOfConcat(head, rest, section);
  }

  lemma PrefixOfConcat(a: string, b: string, c: string)
    ensures |a| <= |a + b + c| && (a + b + c)[..|a|] == a
  {
  }

  /** The header always survives a cut that leaves room for it. */
  lemma HeaderSurvivesCut(
    email: EmailData, settings: FormatSettings,
    isSpace: char -> bool, sizeText: int -> string)
    requires |HeaderOf(email)| <= settings.maxMessageLength
    ensures PySlice(ComposedMessage(email, settings, isSpace, sizeText), settings.maxMessageLength)[..|HeaderOf(email)|]
            == HeaderOf(email)
  {
    ComposedStartsWithHeader(email, settings, isSpace, sizeText);
    var m := ComposedMessage(email, settings, isSpace, sizeText);
    var r := PySlice(m, settings.maxMessageLength);
    var n := |HeaderOf(email)|;
    assert n <= |r|;
    assert r[..n] == m[..n];
  }
}
