# Gmail → Telegram forwarder, modelled in Dafny

This project models the core of `gmail_telegram_forwarder.py`, a polling
service that reads new mail from Gmail and forwards each message to a
Telegram chat. It covers the steps between the two services:

- building the Gmail search query from the checkpoint and the sender and
  subject filters;
- reading headers from the message payload;
- flattening the MIME tree into one body, with the single-pass HTML tag
  removal of `re.sub('<[^<]+?>', '', …)`;
- collecting the attachment descriptors;
- the exclusion / allow-list filter;
- MarkdownV2 escaping;
- composing the chat message, with the body cut against a raw-length
  budget and a final `message[:max_length]` using Python's slice rules;
- the plain-text fallback and the choice of upload endpoint;
- one poll cycle, run by a `Forwarder` object that owns the checkpoint
  `lastCheckTime`.

Gmail, Telegram, base64, the clock and Python's Unicode tables are not part
of the model. Each of them is an input:

- The answers of the services are inputs. A `Candidate` carries the fetched
  payload (or `None` when fetching raised), the reply to the MarkdownV2
  post, the reply to the plain-text retry, and the outcome of each
  attachment download and upload.
- Per-character lower-casing, the whitespace class of `strip()`, base64 +
  UTF-8 decoding, and the "size in MB" text are parameters (`Platform`).

Modules, one file each:

| file | module | contents |
|---|---|---|
| `wrappers.dfy` | `Wrappers` | `Option` |
| `text.dfy` | `Text` | the `str` operations the source uses: `lower`, `in`, `strip`, slicing, `startswith`, `join`, `replace`, `str(int)` |
| `mime.dfy` | `Mime` | payload tree, `get_header_value`, `extract_email_body`, `extract_attachments`, `get_email_details` |
| `filter.dfy` | `Filter` | `should_forward_email` |
| `markdown.dfy` | `Markdown` | `escape_markdown` |
| `format.dfy` | `Format` | `format_telegram_message` |
| `delivery.dfy` | `Delivery` | the text send with its fallback, and the attachment upload |
| `forwarder.dfy` | `Forwarder` | the search query, the poll cycle and the `Forwarder` class |

Where the code works by updating things step by step, the model is
imperative: escaping, message building, attachment collection and the poll
cycle are methods with loops. Each such method is proved equal to a
specification function, and the properties are proved about that function.

## Model

| member | source | states |
|---|---|---|
| Text.Lower | gmail_telegram_forwarder.py:263 | `lower()` keeps the length and maps each character through the case mapping |
| Text.IsSubstring | gmail_telegram_forwarder.py:266 | the `in` test holds whenever the needle starts the haystack (so `'' in s` always holds) and never when the needle is longer than the haystack |
| Text.IsSubstringMeans | gmail_telegram_forwarder.py:266 | the `in` test holds exactly when the needle occurs at some offset of the haystack |
| Text.StartsWith | gmail_telegram_forwarder.py:389-392 | `startswith(p)` holds exactly when the text is `p` followed by something |
| Text.Strip | gmail_telegram_forwarder.py:313 | `strip()` returns a contiguous run of the input; only whitespace lies outside it; it neither starts nor ends with whitespace |
| Text.PySlice | gmail_telegram_forwarder.py:315 | `s[:n]` is a prefix of `s`: of length `min(n, len(s))` for `n >= 0`, and `max(len(s) + n, 0)` for negative `n` |
| Text.Join | gmail_telegram_forwarder.py:150-160 | `sep.join(items)` is `''` for no items and the item itself for one; otherwise it starts with the first item and is as long as all the items plus one separator between each pair |
| Text.JoinContainsItems | gmail_telegram_forwarder.py:150-151 | every item of a `join` is a substring of the result |
| Text.ReplaceChar | gmail_telegram_forwarder.py:356 | `replace(c, rep)` leaves a text without `c` unchanged; every character of the result is a character of the input other than `c`, or one of `rep`; with an empty `rep` the text does not grow |
| Text.NatToString | gmail_telegram_forwarder.py:146 | `str(n)` of a natural number is non-empty decimal digits without a leading zero, and the digits read back as `n` |
| Text.IntToString | gmail_telegram_forwarder.py:146 | `str(n)` is non-empty, starts with `-` exactly for negative `n`, and the numeral reads back as `n` |
| Text.IntToStringInjective | gmail_telegram_forwarder.py:146 | different integers are written differently |
| Text.StripNoSpace | gmail_telegram_forwarder.py:313 | `strip()` leaves a text without whitespace unchanged |
| Mime.HeaderValue | gmail_telegram_forwarder.py:207-212 | the value of the first header whose name matches exactly, or `''` when no header matches |
| Mime.CloseFrom | gmail_telegram_forwarder.py:231 | finds the first `>` reached before any `<`, or reports that every `>` is preceded by a `<` |
| Mime.TagEnd | gmail_telegram_forwarder.py:231 | the end of the shortest regex match at a position (lazy `+?`), or none when no match starts there |
| Mime.StripTags | gmail_telegram_forwarder.py:231 | the tag removal never makes the text longer |
| Mime.StripTagsNoOpen | gmail_telegram_forwarder.py:231 | text without `<` is left unchanged |
| Mime.StripTagsPlainPrefix | gmail_telegram_forwarder.py:231 | a prefix without `<` is copied through |
| Mime.StripTagsDropsTag | gmail_telegram_forwarder.py:231 | a tag `<x>` with neither `<` nor `>` inside is removed |
| Mime.StripTagsExample | gmail_telegram_forwarder.py:231 | `Hello <b>World</b>` becomes `Hello World` |
| Mime.StripTagsSinglePass | gmail_telegram_forwarder.py:231 | one pass turns `<<a>b>` into `<b>`, which is still a match, and keeps `<>` |
| Mime.LeafText | gmail_telegram_forwarder.py:221-231 | a leaf yields its decoded text for `text/plain`, and its decoded text with tags removed for `text/html`; it yields `''` for other types or empty data |
| Mime.ExtractBodiesAppend | gmail_telegram_forwarder.py:218-220 | the body of a node is its children's bodies concatenated in order |
| Mime.ExtractBody | gmail_telegram_forwarder.py:214-233 | the recursive extraction equals the concatenation of the leaf texts in document order |
| Mime.ExtractBodies | gmail_telegram_forwarder.py:218-220 | the bodies of a list of parts are the leaf texts of all their leaves, in document order |
| Mime.PlainTreeBody | gmail_telegram_forwarder.py:214-226 | in a tree whose leaves are all `text/plain`, the body is the concatenation of the decoded leaf data |
| Mime.HtmlWithoutTagsPassesThrough | gmail_telegram_forwarder.py:227-231 | an HTML leaf whose decoded text has no `<` yields that text unchanged |
| Mime.CollectAttachments | gmail_telegram_forwarder.py:235-256 | the collected list equals the specification `Attachments(payload)` |
| Mime.ProcessParts | gmail_telegram_forwarder.py:239-251 | the nested walk appends, to the list it is given, every named part of the forest in pre-order |
| Mime.AttachmentsAreNamedDescendants | gmail_telegram_forwarder.py:235-256 | the attachments are exactly the named parts strictly below the root, in pre-order; their number is the count of such parts; a payload without `parts` has none |
| Mime.ForestAttachments | gmail_telegram_forwarder.py:239-251 | the walk over a list of parts equals the named subtrees of that list in pre-order |
| Mime.NamedMetasCount | gmail_telegram_forwarder.py:240-248 | one descriptor per part with a non-empty file name |
| Mime.GetEmailDetails | gmail_telegram_forwarder.py:175-200 | builds the message record from headers and body; attachments are `[]` when disabled and the named descendants when enabled |
| Markdown.EscapeMarkdown | gmail_telegram_forwarder.py:283-294 | `''` gives `''`; otherwise the chain of eighteen `replace` calls equals the per-character escape `Escaped(text)` |
| Markdown.ReplaceExtendsEscape | gmail_telegram_forwarder.py:291-292 | one more `replace` escapes one more reserved character, because the backslash it inserts is not reserved |
| Markdown.SpecialIsNew | gmail_telegram_forwarder.py:289 | the reserved list has no duplicates and does not contain the backslash |
| Markdown.EscapedLength | gmail_telegram_forwarder.py:283-294 | the escaped length is the input length plus the number of reserved characters |
| Markdown.EscapedHead | gmail_telegram_forwarder.py:283-294 | an escaped text never starts with a reserved character |
| Markdown.EscapedSpecialsArePreceded | gmail_telegram_forwarder.py:283-294 | every reserved character of the output comes directly after a backslash |
| Markdown.UnescapeEscaped | gmail_telegram_forwarder.py:283-294 | removing the inserted backslashes gives the input back, so escaping loses nothing |
| Markdown.EscapedKeepsOtherChars | gmail_telegram_forwarder.py:283-294 | a character that is neither reserved nor a backslash is in the output exactly when it is in the input |
| Filter.AnyKeywordIn | gmail_telegram_forwarder.py:265-268 | the keyword loop finds a hit exactly when some lower-cased keyword is a substring of the text |
| Filter.ShouldForward | gmail_telegram_forwarder.py:258-281 | an exclusion hit in the lower-cased `subject body from` rejects the message; otherwise a non-empty allow-list accepts exactly when a keyword is in the lower-cased body, and an empty allow-list accepts |
| Filter.LowerKeepsSubstring | gmail_telegram_forwarder.py:263-266 | lower-casing both sides keeps a substring a substring |
| Filter.ExcludedSenderRejected | gmail_telegram_forwarder.py:262-268 | an exclusion keyword contained in the sender rejects the message, whatever the allow-list says |
| Filter.NoReplyExample | gmail_telegram_forwarder.py:262-268 | excluding `noreply` rejects mail from `noreply@x.com` |
| Filter.EmptyExclusionRejectsAll | gmail_telegram_forwarder.py:265-268 | an empty exclusion keyword matches every message, so nothing is forwarded |
| Format.BudgetedBody | gmail_telegram_forwarder.py:313-315 | a body within the budget is kept; a longer body becomes a prefix of itself followed by `...`, whose length depends on the sign of the budget |
| Format.FormatTelegramMessage | gmail_telegram_forwarder.py:296-329 | the result is the composed message cut by `[:max_length]`; it is at most `max_length` long whenever `max_length >= 0`, and it is the whole message when that fits. Without attachments (and no paperclip in the fields) the result has no paperclip; with attachments it has one whenever the composed message fits |
| Format.WriteHeaderAndBody | gmail_telegram_forwarder.py:300-319 | the header lines with escaped fields, then the body section when full bodies are sent |
| Format.PrepareBody | gmail_telegram_forwarder.py:313-318 | the body is stripped, cut to the budget, then escaped |
| Format.AppendAttachmentSection | gmail_telegram_forwarder.py:321-327 | appends the heading and the lines only when there are attachments |
| Format.AppendAttachmentLines | gmail_telegram_forwarder.py:323-327 | appends one line per attachment, in list order |
| Format.ClipNotInHeader | gmail_telegram_forwarder.py:305-309 | the header brings in no paperclip of its own |
| Format.ClipNotInSafeBody | gmail_telegram_forwarder.py:313-319 | stripping, cutting and escaping the body bring in no paperclip |
| Format.WithBodyHasNoClip | gmail_telegram_forwarder.py:300-319 | the header and body section bring in no paperclip when the fields carry none |
| Format.ClipInSection | gmail_telegram_forwarder.py:321-322 | a non-empty attachment section carries the paperclip |
| Format.AttachmentMarkIffAttachments | gmail_telegram_forwarder.py:321-327 | before the final cut, when the fields carry no paperclip, the message contains the paperclip exactly when the e-mail has attachments |
| Format.CutBeforeSectionDropsMark | gmail_telegram_forwarder.py:313-329 | a final cut that falls inside the header and body leaves no paperclip, whatever the attachments |
| Format.UnspacedBodyKept | gmail_telegram_forwarder.py:313-318 | a body without whitespace that fits its budget goes into the message whole, only escaped |
| Format.FinalCutCanDropSection | gmail_telegram_forwarder.py:313-329 | with `max_message_length = 445`, empty header fields, a body of 200 dots and an attachment, the composed message has the attachment section but the final cut removes it |
| Format.ComposedStartsWithHeader | gmail_telegram_forwarder.py:305-329 | the composed message starts with the header |
| Format.HeaderSurvivesCut | gmail_telegram_forwarder.py:305-329 | when `max_length` leaves room for the header, the header survives the final cut |
| Delivery.PlainText | gmail_telegram_forwarder.py:356 | the fallback text holds none of `*`, `_`, backtick, backslash, and is no longer than the message |
| Delivery.PlainTextAppend | gmail_telegram_forwarder.py:356 | the fallback strip distributes over concatenation |
| Delivery.PlainTextIsFilter | gmail_telegram_forwarder.py:356 | the chain of four `replace(c, '')` calls equals one pass that drops the formatting characters |
| Delivery.PlainTextIsClean | gmail_telegram_forwarder.py:356 | the fallback text has none of `*`, `_`, backtick, backslash, and keeps every other character of the message |
| Delivery.PlainTextKeepsPlain | gmail_telegram_forwarder.py:356 | a message without formatting characters is sent unchanged |
| Delivery.SendTelegramMessage | gmail_telegram_forwarder.py:331-374 | the first post is the MarkdownV2 text. A plain retry follows exactly when that post got a non-200 status. Success means 200 on the first post, or a refusal followed by 200 on the retry. An exception on the first post ends the call without a retry |
| Delivery.EndpointFor | gmail_telegram_forwarder.py:389-397 | `sendPhoto` exactly for `image/…`; `sendVideo` exactly for `video/…` that is not `image/…`; `sendDocument` otherwise |
| Delivery.SendAttachment | gmail_telegram_forwarder.py:376-412 | an upload happens exactly when the bytes were fetched, to the routed API method, with the file under that method's form field (`photo`, `video` or `document`) and its file name; success means a fetched file and a 200 reply |
| Forwarder.Prefixed | gmail_telegram_forwarder.py:150-151 | each item gets the operator prefix, in order |
| Forwarder.AfterClauseNamesTimestamp | gmail_telegram_forwarder.py:146 | the number after `after:` reads back as the checkpoint timestamp |
| Forwarder.SearchQuery | gmail_telegram_forwarder.py:143-160 | the query starts with `after:<ts>` and is exactly that with no filters; otherwise the from-group comes first, then the subject-group, joined by single spaces |
| Forwarder.GroupNamesEveryItem | gmail_telegram_forwarder.py:148-158 | every `op:item` appears inside its OR-group |
| Forwarder.QueryNamesEverySender | gmail_telegram_forwarder.py:148-152 | every configured sender appears in the query as `from:<address>` |
| Forwarder.QueryNamesEverySubject | gmail_telegram_forwarder.py:154-158 | every configured subject keyword appears in the query as `subject:<keyword>` |
| Forwarder.AttachmentEventsAreSmall | gmail_telegram_forwarder.py:437-443 | the uploads attempted are exactly the attachments strictly under 50 MiB, in list order |
| Forwarder.AttachmentEventsDeliverNothing | gmail_telegram_forwarder.py:437-443 | the attachment loop sends no text |
| Forwarder.CandidateEventsRules | gmail_telegram_forwarder.py:419-443 | a message that was not fetched, or that the filter rejects, causes nothing. Otherwise exactly one text send comes first. Uploads follow only after a successful send with attachments enabled, and then exactly for the attachments under the limit, in order |
| Forwarder.CycleEventsAppend | gmail_telegram_forwarder.py:420 | the messages are handled one after the other, independently |
| Forwarder.SkippedCandidateChangesNothing | gmail_telegram_forwarder.py:421-429 | a message that was not fetched, or that the filter rejects, can be dropped from the list without changing what the cycle does |
| Forwarder.CycleDeliversForwarded | gmail_telegram_forwarder.py:420-433 | one text send per forwarded message, in search order |
| Forwarder.Forwarder.constructor | gmail_telegram_forwarder.py:61 | the first checkpoint is one hour before start-up |
| Forwarder.Forwarder.GetNewEmails | gmail_telegram_forwarder.py:139-172 | the query for the current checkpoint, and the search result (`[]` when the search raised) |
| Forwarder.Forwarder.ProcessEmails | gmail_telegram_forwarder.py:414-446 | performs exactly `CycleEvents` for the messages found, with the query built from the old checkpoint, then sets the checkpoint to `now` whatever the outcomes |
| Forwarder.Forwarder.ProcessMessage | gmail_telegram_forwarder.py:419-443 | the loop body for one message does exactly `CandidateEvents` |
| Forwarder.Forwarder.SendAttachments | gmail_telegram_forwarder.py:437-443 | the attachment loop does exactly `AttachmentEvents`: it tries the attachments strictly under 50 MiB, in list order |

## Left out

- OAuth, token files and building the Gmail client (`setup_gmail`) are not modelled: they are foreign library calls.
- Loading the configuration file and writing the sample one are not modelled, and neither is `check_dependencies` or `setup.py`. `Config` holds the values after their `.get` defaults have been applied.
- The HTTP calls to Gmail and Telegram are not modelled. Their results enter as inputs: `Candidate`, `Reply` and `AttachmentReply`.
- Base64 and UTF-8 decoding with `errors='ignore'` are not modelled. Decoding is the opaque `Platform.decode`.
- The MB size of an attachment line (a float division printed with `:.1f`) is the opaque `Platform.sizeText`.
- Python's Unicode lower-casing and `strip()` whitespace class are per-character parameters. The parts of `lower()` that a per-character map cannot express are therefore not covered: `'İ'` becomes the two characters `"i̇"` (the length changes), and a Greek capital sigma becomes the final form `ς` or `σ` depending on the characters around it.
- `datetime.now()`, `timestamp()` and its `int()` truncation are not modelled. The checkpoint is a whole number of seconds, and `now` is a parameter of `ProcessEmails`.
- The `run` loop with its `sleep` and `KeyboardInterrupt` handling is not modelled, and neither is `main` or logging.
- `get_email_details` catches exceptions from the Gmail call and from decoding. Only the failed fetch is modelled, as `fetched == None`. A decoding error inside a fetched payload cannot arise, because decoding is total in the model.
- `Forwarder.Forwarder.ProcessMessage` and `Forwarder.Forwarder.SendAttachments` are the loop body of `process_emails` as separate methods. The order of the calls is unchanged.
- Mime.ProcessParts: the closed-over `attachments` list is passed in and returned rather than shared.
- Mime.StripTags: leftover tags are not excluded. One pass of the regular expression can leave a tag behind (`Mime.StripTagsSinglePass`), so "no tags remain" does not hold of the code.
- Forwarder.SearchQuery: the addresses and keywords are inserted verbatim. Gmail's query syntax is not checked, and quoting is not modelled.
- Format.FormatTelegramMessage: no length bound is claimed for a negative `max_message_length`. Python then drops characters from the end, and the result is as long as the message minus `|max_length|` (possibly empty).
- Format.AttachmentMarkIffAttachments: holds for the message before the final `[:max_length]` cut, not for the returned text. The 200-character reserve counts raw body characters, and escaping can double the body, so the cut can remove the whole attachment section (`Format.FinalCutCanDropSection`). For the returned text the model promises only that there is no paperclip without attachments, and that there is one when the composed message fits.
- Format.BudgetedBody: the budget counts raw characters. Escaping can make the body longer than its budget, so only the final cut bounds the message. That cut can split an escape sequence.
- The 50 MiB limit is applied in `process_emails` before `send_attachment_to_telegram` is called, not inside the upload function. The model puts it in the same place.
