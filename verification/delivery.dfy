/** The two calls to the chat service: sending the formatted text, with one
    plain-text retry when the service refuses the markup, and uploading an
    attachment through an endpoint chosen by its MIME type.  The network is
    not modelled: each HTTP call is represented by the reply it got. */
module Delivery {
  import opened Wrappers
  import opened Text
  import opened Mime

  /** What an HTTP call came back with: a status code, or an exception
      (timeout, connection error) caught by the surrounding `try`. */
  datatype Reply = Status(code: int) | Raised

  /** One POST to `sendMessage`: the text and whether it asked for MarkdownV2. */
  datatype TextPost = TextPost(text: string, markdown: bool)

  datatype SendOutcome = SendOutcome(ok: bool, posts: seq<TextPost>)

  // ---------------------------------------------------------------------------
  // Plain-text fallback

  /** The characters the fallback removes. */
  predicate IsFormatting(c: char) {
    c == '*' || c == '_' || c == '`' || c == '\\'
  }

  /** The fallback text as the source builds it: four `replace(c, '')` calls. */
  function PlainText(message: string): (r: string)
    ensures forall i :: 0 <= i < |r| ==> !IsFormatting(r[i])
    ensures |r| <= |message|
  {
    ReplaceChar(ReplaceChar(ReplaceChar(ReplaceChar(message, '*', ""), '_', ""), '`', ""), '\\', "")
  }

  /** Reference definition: keep exactly the characters that are not formatting. */
  function WithoutFormatting(s: string): string {
    if s == [] then [] else (if IsFormatting(s[0]) then [] else [s[0]]) + WithoutFormatting(s[1..])
  }

  lemma PlainTextAppend(a: string, b: string)
    ensures PlainText(a + b) == PlainText(a) + PlainText(b)
  {
    ReplaceCharAppend(a, b, '*', "");
    var a1, b1 := ReplaceChar(a, '*', ""), ReplaceChar(b, '*', "");
    ReplaceCharAppend(a1, b1, '_', "");
    var a2, b2 := ReplaceChar(a1, '_', ""), ReplaceChar(b1, '_', "");
    ReplaceCharAppend(a2, b2, '`', "");
    var a3, b3 := ReplaceChar(a2, '`', ""), ReplaceChar(b2, '`', "");
    ReplaceCharAppend(a3, b3, '\\', "");
  }

  /** The chain of four replacements is the same as one filtering pass. */
  lemma {:induction false} PlainTextIsFilter(s: string)
    ensures PlainText(s) == WithoutFormatting(s)
  {
    if s != [] {
      assert s == [s[0]] + s[1..];
      PlainTextAppend([s[0]], s[1..]);
      PlainTextIsFilter(s[1..]);
    }
  }

  lemma {:induction false} WithoutFormattingClean(s: string)
    ensures forall i :: 0 <= i < |WithoutFormatting(s)| ==> !IsFormatting(WithoutFormatting(s)[i])
    ensures forall c :: !IsFormatting(c) ==> (c in WithoutFormatting(s) <==> c in s)
  {
    if s != [] {
      WithoutFormattingClean(s[1..]);
      assert s == [s[0]] + s[1..];
    }
  }

  /** The fallback text holds none of `*`, `_`, backtick, backslash, and every
      other character of the message is still there. */
  lemma PlainTextIsClean(message: string)
    ensures forall i :: 0 <= i < |PlainText(message)| ==> !IsFormatting(PlainText(message)[i])
    ensures forall c :: !IsFormatting(c) ==> (c in PlainText(message) <==> c in message)
  {
    PlainTextIsFilter(message);
    WithoutFormattingClean(message);
  }

  /** A message without formatting characters is sent unchanged. */
  lemma {:induction false} PlainTextKeepsPlain(message: string)
    requires forall i :: 0 <= i < |message| ==> !IsFormatting(message[i])
    ensures PlainText(message) == message
  {
    PlainTextIsFilter(message);
    WithoutFormattingKeepsPlain(message);
  }

  lemma {:induction false} WithoutFormattingKeepsPlain(s: string)
    requires forall i :: 0 <= i < |s| ==> !IsFormatting(s[i])
    ensures WithoutFormatting(s) == s
  {
    if s != [] {
      WithoutFormattingKeepsPlain(s[1..]);
    }
  }

  // ---------------------------------------------------------------------------
  // Sending text

  /** `send_telegram_message`, given the replies to its POSTs.  A refused
      MarkdownV2 post is retried once as plain text; an exception on either
      post ends the call with failure. */
  function SendTelegramMessage(message: string, markdownReply: Reply, plainReply: Reply): (r: SendOutcome)
    ensures 1 <= |r.posts| <= 2 && r.posts[0] == TextPost(message, true)
    ensures |r.posts| == 2 <==> markdownReply.Status? && markdownReply.code != 200
    ensures |r.posts| == 2 ==> r.posts[1] == TextPost(PlainText(message), false)
    ensures r.ok <==> markdownReply == Status(200)
                      || (markdownReply.Status? && markdownReply.code != 200 && plainReply == Status(200))
  {
    var first := TextPost(message, true);
    match markdownReply
    case Raised => SendOutcome(false, [first])
    case Status(code) =>
      if code == 200 then SendOutcome(true, [first])
      else SendOutcome(plainReply == Status(200), [first, TextPost(PlainText(message), false)])
  }

  // ---------------------------------------------------------------------------
  // Sending attachments

  /** The upload endpoints and the form field each one takes the file in. */
  datatype Endpoint = SendPhoto | SendVideo | SendDocument {
    function MethodName(): string {
      match this
      case SendPhoto => "sendPhoto"
      case SendVideo => "sendVideo"
      case SendDocument => "sendDocument"
    }

    function Field(): string {
      match this
      case SendPhoto => "photo"
      case SendVideo => "video"
      case SendDocument => "document"
    }
  }

  /** Images go to the photo endpoint, videos to the video endpoint, anything
      else as a document. */
  function EndpointFor(mimeType: string): (e: Endpoint)
    ensures e == SendPhoto <==> exists t :: mimeType == "image/" + t
    ensures e == SendVideo <==> (exists t :: mimeType == "video/" + t) && !(exists t :: mimeType == "image/" + t)
    ensures e == SendDocument <==> !(exists t :: mimeType == "image/" + t) && !(exists t :: mimeType == "video/" + t)
  {
    if StartsWith(mimeType, "image/") then SendPhoto
    else if StartsWith(mimeType, "video/") then SendVideo
    else SendDocument
  }

  /** One upload POST: the API method it goes to, the form field holding the
      file, and the file name it carries. */
  datatype Upload = Upload(apiMethod: string, field: string, filename: string)

  datatype AttachmentOutcome = AttachmentOutcome(ok: bool, upload: Option<Upload>)

  /** `send_attachment_to_telegram`, given whether fetching and decoding the
      bytes from the mail service succeeded and the reply to the upload. */
  function SendAttachment(attachment: AttachmentMeta, fetched: bool, uploadReply: Reply): (r: AttachmentOutcome)
    ensures r.upload.Some? <==> fetched
    ensures r.upload.Some? ==>
              var e := EndpointFor(attachment.mimeType);
              r.upload.value == Upload(e.MethodName(), e.Field(), attachment.filename)
    ensures r.ok <==> fetched && uploadReply == Status(200)
  {
    if !fetched then AttachmentOutcome(false, None)
    else
      var e := EndpointFor(attachment.mimeType);
      AttachmentOutcome(uploadReply == Status(200), Some(Upload(e.MethodName(), e.Field(), attachment.filename)))
  }
}
