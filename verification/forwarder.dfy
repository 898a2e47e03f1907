/** The forwarder itself: the search query it sends to the mail service, and
    one poll cycle that fetches, filters, formats and sends each new message
    and then moves the checkpoint.  Every answer from the mail service and the
    chat service is an input: a `Candidate` carries what fetching the message
    and each POST came back with. */
module Forwarder {
  import opened Wrappers
  import opened Text
  import opened Mime
  import opened Filter
  import opened Format
  import opened Delivery

  /** The configuration keys the core reads, with their defaults already applied. */
  datatype Config = Config(
    fromAddresses: seq<string>,
    subjectKeywords: seq<string>,
    bodyKeywords: seq<string>,
    excludeKeywords: seq<string>,
    includeAttachments: bool,
    maxMessageLength: int,
    sendFullEmail: bool)

  /** The library behaviour the core relies on but does not define: per-character
      lower-casing, the whitespace class of `strip()`, base64 + UTF-8 decoding of
      part data, and the "size in MB" text of an attachment line. */
  datatype Platform = Platform(
    lower: char -> char,
    isSpace: char -> bool,
    decode: string -> string,
    sizeText: int -> string)

  // ---------------------------------------------------------------------------
  // The search query

  function AfterClause(timestamp: int): string {
    "after:" + IntToString(timestamp)
  }

  /** The time clause names the checkpoint: reading back the number after
      `after:` gives the timestamp, so different checkpoints give different
      clauses. */
  lemma AfterClauseNamesTimestamp(timestamp: int)
    ensures SignedValue(AfterClause(timestamp)[6..]) == timestamp
  {
    assert AfterClause(timestamp)[6..] == IntToString(timestamp);
  }

  /** Each item with the operator in front of it. */
  function Prefixed(prefix: string, items: seq<string>): (r: seq<string>)
    ensures |r| == |items|
    ensures forall i :: 0 <= i < |items| ==> r[i] == prefix + items[i]
  {
    seq(|items|, i requires 0 <= i < |items| => prefix + items[i])
  }

  /** `(op:a OR op:b ...)`. */
  function OrGroup(prefix: string, items: seq<string>): string {
    "(" + Join(" OR ", Prefixed(prefix, items)) + ")"
  }

  /** The query of `get_new_emails`: the time clause, then the sender group and
      the subject group when they are configured, separated by single spaces. */
  function SearchQuery(timestamp: int, fromAddresses: seq<string>, subjectKeywords: seq<string>): (q: string)
    ensures IsPrefix(AfterClause(timestamp), q)
    ensures fromAddresses == [] && subjectKeywords == [] ==> q == AfterClause(timestamp)
    ensures fromAddresses != [] && subjectKeywords == [] ==>
              q == AfterClause(timestamp) + " " + OrGroup("from:", fromAddresses)
    ensures fromAddresses == [] && subjectKeywords != [] ==>
              q == AfterClause(timestamp) + " " + OrGroup("subject:", subjectKeywords)
    ensures fromAddresses != [] && subjectKeywords != [] ==>
              q == AfterClause(timestamp) + " " + OrGroup("from:", fromAddresses)
                   + " " + OrGroup("subject:", subjectKeywords)
  {
    var after := AfterClause(timestamp);
    var parts := [after]
      + (if fromAddresses != [] then [OrGroup("from:", fromAddresses)] else [])
      + (if subjectKeywords != [] then [OrGroup("subject:", subjectKeywords)] else []);
    if fromAddresses != [] && subjectKeywords != [] then
      var fromGroup, subjectGroup := OrGroup("from:", fromAddresses), OrGroup("subject:", subjectKeywords);
      assert parts == [after, fromGroup, subjectGroup];
      assert Join(" ", [fromGroup, subjectGroup]) == fromGroup + " " + subjectGroup by {
        assert [fromGroup, subjectGroup][1..] == [subjectGroup];
      }
      assert Join(" ", parts) == after + " " + (fromGroup + " " + subjectGroup) by {
        assert parts[1..] == [fromGroup, subjectGroup];
      }
      Join(" ", parts)
    else if |parts| > 1 then
      assert parts[1..] == [parts[1]];
      Join(" ", parts)
    else
      parts[0]
  }

  /** Every item, with its operator, is inside its OR-group. */
  lemma GroupNamesEveryItem(prefix: string, items: seq<string>, i: nat)
    requires i < |items|
    ensures IsSubstring(prefix + items[i], OrGroup(prefix, items))
  {
    var prefixed := Prefixed(prefix, items);
    JoinContainsItems(" OR ", prefixed, i);
    SubstringOfPart(prefixed[i], "(", Join(" OR ", prefixed), ")");
  }

  /** Every configured sender appears in the query as `from:<address>`. */
  lemma QueryNamesEverySender(timestamp: int, fromAddresses: seq<string>, subjectKeywords: seq<string>, i: nat)
    requires i < |fromAddresses|
    ensures IsSubstring("from:" + fromAddresses[i], SearchQuery(timestamp, fromAddresses, subjectKeywords))
  {
    var needle := "from:" + fromAddresses[i];
    GroupNamesEveryItem("from:", fromAddresses, i);
    var upToGroup := AfterClause(timestamp) + " " + OrGroup("from:", fromAddresses);
    SubstringOfRight(needle, AfterClause(timestamp) + " ", OrGroup("from:", fromAddresses));
    if subjectKeywords != [] {
      SubstringOfLeft(needle, upToGroup, " ");
      SubstringOfLeft(needle, upToGroup + " ", OrGroup("subject:", subjectKeywords));
    }
  }

  /** Every configured subject keyword appears in the query as `subject:<keyword>`. */
  lemma QueryNamesEverySubject(timestamp: int, fromAddresses: seq<string>, subjectKeywords: seq<string>, i: nat)
    requires i < |subjectKeywords|
    ensures IsSubstring("subject:" + subjectKeywords[i], SearchQuery(timestamp, fromAddresses, subjectKeywords))
  {
    var needle := "subject:" + subjectKeywords[i];
    GroupNamesEveryItem("subject:", subjectKeywords, i);
    var beforeGroup := if fromAddresses != []
      then AfterClause(timestamp) + " " + OrGroup("from:", fromAddresses) + " "
      else AfterClause(timestamp) + " ";
    SubstringOfRight(needle, beforeGroup, OrGroup("subject:", subjectKeywords));
  }

  // ---------------------------------------------------------------------------
  // What the services answered

  /** Fetching an attachment's bytes succeeded or not, and the upload's reply. */
  datatype AttachmentReply = AttachmentReply(fetched: bool, reply: Reply)

  /** One message id from the search, with what the services answered for it:
      the payload of the full message (`None` when fetching it raised), the
      replies to the MarkdownV2 post and to the plain-text retry, and, by
      position in the attachment list, the answers for each attachment. */
  datatype Candidate = Candidate(
    id: string,
    fetched: Option<Part>,
    markdownReply: Reply,
    plainReply: Reply,
    attachmentReply: nat -> AttachmentReply)

  /** What a poll cycle does towards the chat service, in order. */
  datatype Event =
    | Delivered(messageId: string, send: SendOutcome)
    | AttachmentTried(messageId: string, attachment: AttachmentMeta, outcome: AttachmentOutcome)

  /** Attachments of this many bytes or more are not sent. */
  const MaxAttachmentBytes: int := 50 * 1024 * 1024

  function Settings(config: Config): FormatSettings {
    FormatSettings(config.maxMessageLength, config.sendFullEmail)
  }

  function Details(config: Config, platform: Platform, c: Candidate): EmailData
    requires c.fetched.Some?
  {
    EmailDetails(c.id, c.fetched.value, config.includeAttachments, platform.decode)
  }

  /** The message was fetched and the filter lets it through. */
  predicate Forwards(config: Config, platform: Platform, c: Candidate) {
    && c.fetched.Some?
    && var email := Details(config, platform, c);
       ShouldForward(email.subject, email.body, email.from, config.excludeKeywords, config.bodyKeywords, platform.lower)
  }

  /** The chat text for a fetched message. */
  function MessageText(config: Config, platform: Platform, c: Candidate): string
    requires c.fetched.Some?
  {
    PySlice(ComposedMessage(Details(config, platform, c), Settings(config), platform.isSpace, platform.sizeText),
            config.maxMessageLength)
  }

  function TextOutcome(config: Config, platform: Platform, c: Candidate): SendOutcome
    requires c.fetched.Some?
  {
    SendTelegramMessage(MessageText(config, platform, c), c.markdownReply, c.plainReply)
  }

  /** The upload attempt for one attachment: none when it is too large. */
  function AttachmentStep(id: string, attachment: AttachmentMeta, reply: AttachmentReply): seq<Event> {
    if attachment.size < MaxAttachmentBytes
    then [AttachmentTried(id, attachment, SendAttachment(attachment, reply.fetched, reply.reply))]
    else []
  }

  /** The upload attempts for the first `n` attachments: those under the size
      limit, in list order. */
  function AttachmentEvents(id: string, attachments: seq<AttachmentMeta>, replies: nat -> AttachmentReply, n: nat): seq<Event>
    requires n <= |attachments|
  {
    if n == 0 then []
    else
      AttachmentEvents(id, attachments, replies, n - 1) + AttachmentStep(id, attachments[n - 1], replies(n - 1))
  }

  /** What the cycle does for one candidate. */
  function CandidateEvents(config: Config, platform: Platform, c: Candidate): seq<Event> {
    if !Forwards(config, platform, c) then []
    else
      var email := Details(config, platform, c);
      var send := TextOutcome(config, platform, c);
      [Delivered(c.id, send)]
      + (if send.ok && config.includeAttachments && email.attachments != []
         then AttachmentEvents(c.id, email.attachments, c.attachmentReply, |email.attachments|)
         else [])
  }

  /** What the cycle does for a list of candidates, one after the other. */
  function CycleEvents(config: Config, platform: Platform, cs: seq<Candidate>): seq<Event> {
    if cs == [] then []
    else CycleEvents(config, platform, cs[..|cs| - 1]) + CandidateEvents(config, platform, cs[|cs| - 1])
  }

  // ---------------------------------------------------------------------------
  // Properties of a cycle

  /** The attachments under the size limit, in order. */
  function Small(attachments: seq<AttachmentMeta>): seq<AttachmentMeta> {
    if attachments == [] then []
    else
      var last := attachments[|attachments| - 1];
      Small(attachments[..|attachments| - 1]) + (if last.size < MaxAttachmentBytes then [last] else [])
  }

  /** The attachments a list of events tried to upload, in order. */
  function Attempted(events: seq<Event>): seq<AttachmentMeta> {
    if events == [] then []
    else
      var last := events[|events| - 1];
      Attempted(events[..|events| - 1]) + (if last.AttachmentTried? then [last.attachment] else [])
  }

  function Deliveries(events: seq<Event>): seq<string> {
    if events == [] then []
    else
      var last := events[|events| - 1];
      Deliveries(events[..|events| - 1]) + (if last.Delivered? then [last.messageId] else [])
  }

  lemma {:induction false} AttemptedAppend(a: seq<Event>, b: seq<Event>)
    ensures Attempted(a + b) == Attempted(a) + Attempted(b)
    decreases |b|
  {
    if b == [] {
      assert a + b == a;
    } else {
      assert (a + b)[..|a + b| - 1] == a + b[..|b| - 1];
      AttemptedAppend(a, b[..|b| - 1]);
    }
  }

  lemma {:induction false} DeliveriesAppend(a: seq<Event>, b: seq<Event>)
    ensures Deliveries(a + b) == Deliveries(a) + Deliveries(b)
    decreases |b|
  {
    if b == [] {
      assert a + b == a;
    } else {
      assert (a + b)[..|a + b| - 1] == a + b[..|b| - 1];
      DeliveriesAppend(a, b[..|b| - 1]);
    }
  }

  lemma SmallStep(attachments: seq<AttachmentMeta>, n: nat)
    requires 0 < n <= |attachments|
    ensures Small(attachments[..n])
            == Small(attachments[..n - 1])
               + (if attachments[n - 1].size < MaxAttachmentBytes then [attachments[n - 1]] else [])
  {
    assert attachments[..n][..n - 1] == attachments[..n - 1];
  }

  lemma AttachmentStepRecords(id: string, attachment: AttachmentMeta, reply: AttachmentReply)
    ensures Attempted(AttachmentStep(id, attachment, reply))
            == if attachment.size < MaxAttachmentBytes then [attachment] else []
  {
    var step := AttachmentStep(id, attachment, reply);
    assert step != [] ==> step[..0] == [];
  }

  lemma AttachmentStepSendsNothing(id: string, attachment: AttachmentMeta, reply: AttachmentReply)
    ensures Deliveries(AttachmentStep(id, attachment, reply)) == []
  {
    var step := AttachmentStep(id, attachment, reply);
    assert step != [] ==> step[..0] == [];
  }

  /** The upload attempts are exactly the attachments under the limit, in order. */
  lemma {:induction false} AttachmentEventsAreSmall(
    id: string, attachments: seq<AttachmentMeta>, replies: nat -> AttachmentReply, n: nat)
    requires n <= |attachments|
    ensures Attempted(AttachmentEvents(id, attachments, replies, n)) == Small(attachments[..n])
  {
    if n > 0 {
      AttachmentEventsAreSmall(id, attachments, replies, n - 1);
      var init := AttachmentEvents(id, attachments, replies, n - 1);
      var step := AttachmentStep(id, attachments[n - 1], replies(n - 1));
      assert AttachmentEvents(id, attachments, replies, n) == init + step;
      AttemptedAppend(init, step);
      AttachmentStepRecords(id, attachments[n - 1], replies(n - 1));
      SmallStep(attachments, n);
    }
  }

  /** Upload attempts are never text deliveries. */
  lemma {:induction false} AttachmentEventsDeliverNothing(
    id: string, attachments: seq<AttachmentMeta>, replies: nat -> AttachmentReply, n: nat)
    requires n <= |attachments|
    ensures Deliveries(AttachmentEvents(id, attachments, replies, n)) == []
  {
    if n > 0 {
      AttachmentEventsDeliverNothing(id, attachments, replies, n - 1);
      var init := AttachmentEvents(id, attachments, replies, n - 1);
      var step := AttachmentStep(id, attachments[n - 1], replies(n - 1));
      assert AttachmentEvents(id, attachments, replies, n) == init + step;
      DeliveriesAppend(init, step);
      AttachmentStepSendsNothing(id, attachments[n - 1], replies(n - 1));
    }
  }

  /** For one candidate: a message that was not fetched or that the filter
      rejects leads to nothing; otherwise exactly one text delivery, followed by
      upload attempts only when it succeeded and attachments are enabled, and
      then exactly for the attachments under the limit, in list order. */
  lemma CandidateEventsRules(config: Config, platform: Platform, c: Candidate)
    ensures !Forwards(config, platform, c) ==> CandidateEvents(config, platform, c) == []
    ensures Forwards(config, platform, c) ==>
              Deliveries(CandidateEvents(config, platform, c)) == [c.id]
              && CandidateEvents(config, platform, c)[0] == Delivered(c.id, TextOutcome(config, platform, c))
    ensures Attempted(CandidateEvents(config, platform, c))
            == if Forwards(config, platform, c) && TextOutcome(config, platform, c).ok && config.includeAttachments
               then Small(Details(config, platform, c).attachments)
               else []
  {
    if Forwards(config, platform, c) {
      var email := Details(config, platform, c);
      var send := TextOutcome(config, platform, c);
      var head := [Delivered(c.id, send)];
      assert Attempted(head) == [] && Deliveries(head) == [c.id] by {
        assert head[..0] == [];
      }
      var tail := if send.ok && config.includeAttachments && email.attachments != []
        then AttachmentEvents(c.id, email.attachments, c.attachmentReply, |email.attachments|)
        else [];
      AttachmentEventsAreSmall(c.id, email.attachments, c.attachmentReply, |email.attachments|);
      AttachmentEventsDeliverNothing(c.id, email.attachments, c.attachmentReply, |email.attachments|);
      assert email.attachments[..|email.attachments|] == email.attachments;
      AttemptedAppend(head, tail);
      DeliveriesAppend(head, tail);
    }
  }

  lemma {:induction false} CycleEventsAppend(config: Config, platform: Platform, a: seq<Candidate>, b: seq<Candidate>)
    ensures CycleEvents(config, platform, a + b) == CycleEvents(config, platform, a) + CycleEvents(config, platform, b)
    decreases |b|
  {
    if b == [] {
      assert a + b == a;
    } else {
      var init, last := b[..|b| - 1], b[|b| - 1];
      assert (a + b)[..|a + b| - 1] == a + init;
      assert (a + b)[|a + b| - 1] == last;
      CycleEventsAppend(config, platform, a, init);
      AppendAssoc(CycleEvents(config, platform, a), CycleEvents(config, platform, init), CandidateEvents(config, platform, last));
    }
  }

  lemma CycleEventsStep(config: Config, platform: Platform, cs: seq<Candidate>, i: nat)
    requires i < |cs|
    ensures CycleEvents(config, platform, cs[..i + 1])
            == CycleEvents(config, platform, cs[..i]) + CandidateEvents(config, platform, cs[i])
  {
    assert cs[..i + 1][..i] == cs[..i];
  }

  /** A candidate that is not fetched, or that the filter rejects, can be
      dropped from the list without changing anything the cycle does. */
  lemma SkippedCandidateChangesNothing(config: Config, platform: Platform, cs: seq<Candidate>, i: nat)
    requires i < |cs| && !Forwards(config, platform, cs[i])
    ensures CycleEvents(config, platform, cs) == CycleEvents(config, platform, cs[..i] + cs[i + 1..])
  {
    var before, after := cs[..i], cs[i + 1..];
    assert cs == (before + [cs[i]]) + after;
    CycleEventsAppend(config, platform, before + [cs[i]], after);
    assert (before + [cs[i]])[..|before|] == before;
    assert CycleEvents(config, platform, before + [cs[i]]) == CycleEvents(config, platform, before);
    CycleEventsAppend(config, platform, before, after);
  }

  /** The messages a cycle delivers: the ids of the forwarded candidates, in order. */
  function ForwardedIds(config: Config, platform: Platform, cs: seq<Candidate>): seq<string> {
    if cs == [] then []
    else
      var last := cs[|cs| - 1];
      ForwardedIds(config, platform, cs[..|cs| - 1]) + (if Forwards(config, platform, last) then [last.id] else [])
  }

  /** Exactly one text delivery per forwarded candidate, in the search order. */
  lemma {:induction false} CycleDeliversForwarded(config: Config, platform: Platform, cs: seq<Candidate>)
    ensures Deliveries(CycleEvents(config, platform, cs)) == ForwardedIds(config, platform, cs)
  {
    if cs != [] {
      var init := cs[..|cs| - 1];
      var last := cs[|cs| - 1];
      CycleDeliversForwarded(config, platform, init);
      CandidateEventsRules(config, platform, last);
      DeliveriesAppend(CycleEvents(config, platform, init), CandidateEvents(config, platform, last));
    }
  }

  // ---------------------------------------------------------------------------
  // The forwarder object

  class Forwarder {
    const config: Config
    const platform: Platform
    /** The checkpoint, in whole seconds: mail after it is searched for. */
    var lastCheckTime: int

    /** The first search looks back one hour. */
    constructor(config: Config, platform: Platform, now: int)
      ensures this.config == config && this.platform == platform
      ensures lastCheckTime == now - 3600
    {
      this.config := config;
      this.platform := platform;
      lastCheckTime := now - 3600;
    }

    /** `get_new_emails`: the query for the current checkpoint, and the message
        list the search returned (empty when the search raised). */
    method GetNewEmails(search: Option<seq<Candidate>>) returns (query: string, messages: seq<Candidate>)
      ensures query == SearchQuery(lastCheckTime, config.fromAddresses, config.subjectKeywords)
      ensures search.None? ==> messages == []
      ensures search.Some? ==> messages == search.value
    {
      query := SearchQuery(lastCheckTime, config.fromAddresses, config.subjectKeywords);
      messages := if search.Some? then search.value else [];
    }

    /** `process_emails`: handle each message in turn, then move the checkpoint
        to `now`, whatever happened to the messages. */
    method ProcessEmails(now: int, search: Option<seq<Candidate>>) returns (query: string, events: seq<Event>)
      modifies this
      ensures query == SearchQuery(old(lastCheckTime), config.fromAddresses, config.subjectKeywords)
      ensures events == CycleEvents(config, platform, if search.Some? then search.value else [])
      ensures lastCheckTime == now
    {
      var messages;
      query, messages := GetNewEmails(search);
      events := [];
      for i := 0 to |messages|
        invariant events == CycleEvents(config, platform, messages[..i])
      {
        var more := ProcessMessage(messages[i]);
        CycleEventsStep(config, platform, messages, i);
        events := events + more;
      }
      assert messages[..|messages|] == messages;
      lastCheckTime := now;
    }

    /** The body of the loop in `process_emails` for one message. */
    method ProcessMessage(c: Candidate) returns (events: seq<Event>)
      ensures events == CandidateEvents(config, platform, c)
    {
      if c.fetched.None? {
        return [];
      }
      var email := GetEmailDetails(c.id, c.fetched.value, config.includeAttachments, platform.decode);
      if !ShouldForward(email.subject, email.body, email.from, config.excludeKeywords, config.bodyKeywords, platform.lower) {
        return [];
      }
      var message := FormatTelegramMessage(email, Settings(config), platform.isSpace, platform.sizeText);
      var send := SendTelegramMessage(message, c.markdownReply, c.plainReply);
      assert send == TextOutcome(config, platform, c);
      events := [Delivered(c.id, send)];
      if send.ok && config.includeAttachments && email.attachments != [] {
        var attempts := SendAttachments(c, email.attachments);
        events := events + attempts;
      }
    }

    /** The attachment loop of `process_emails`: the ones under the limit are
        sent, in list order; the others are skipped. */
    method SendAttachments(c: Candidate, attachments: seq<AttachmentMeta>) returns (events: seq<Event>)
      ensures events == AttachmentEvents(c.id, attachments, c.attachmentReply, |attachments|)
      ensures Attempted(events) == Small(attachments)
    {
      events := [];
      for j := 0 to |attachments|
        invariant events == AttachmentEvents(c.id, attachments, c.attachmentReply, j)
      {
        var attachment := attachments[j];
        if attachment.size < MaxAttachmentBytes {
          var reply := c.attachmentReply(j);
          var outcome := SendAttachment(attachment, reply.fetched, reply.reply);
          events := events + [AttachmentTried(c.id, attachment, outcome)];
        }
      }
      AttachmentEventsAreSmall(c.id, attachments, c.attachmentReply, |attachments|);
      assert attachments[..|attachments|] == attachments;
    }
  }
}
