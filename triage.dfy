/** The triage policy of the email processor: the rule-based classifier, the
    backend-or-fallback wrappers around it, the send guard and the per-message
    pipeline that decides on a draft and an auto-reply.

    The language-model backend and the mail service are oracles: every call to
    the backend is a `Reply` (it raised, or it returned a value) and the mail
    service's send call is a boolean (accepted, or it raised). */
module Triage {
  import opened Outcomes
  import opened Text

  const URGENT := "URGENT"
  const HIGH := "HIGH"
  const MEDIUM := "MEDIUM"
  const LOW := "LOW"

  /** The category record the classifier (or the backend's JSON) provides; each
      field may be missing, as a key of a Python dict may be. */
  datatype Category = Category(
    priority: Option<string>,
    reason: Option<string>,
    needsResponse: Option<bool>,
    suggestedAction: Option<string>,
    autoReply: Option<bool>)

  /** The result record of `process_email`. */
  datatype Triage = Triage(
    messageId: string,
    priority: string,
    reason: string,
    needsResponse: bool,
    suggestedAction: string,
    draft: Option<string>,
    autoReplied: bool)

  /** A mail handed to the mail service. */
  datatype Outgoing = Outgoing(to: string, subject: string, body: string)

  /** What the processor was built with: a backend client, a mail service. */
  datatype Processor = Processor(hasClient: bool, hasService: bool)

  /** The answers of the outside world while one message is processed: the
      backend's category (already parsed from JSON), its draft text, its
      acknowledgment text, and whether the mail service accepted the send. */
  datatype Backend = Backend(
    categorize: Reply<Category>,
    draft: Reply<string>,
    ack: Reply<string>,
    sendAccepted: bool)

  const UrgentKeywords: seq<string> := ["urgent", "asap", "deadline", "immediate", "today", "emergency"]
  const InquiryKeywords: seq<string> := ["question", "inquiry", "help", "support", "information"]

  const DraftTemplate := "Thank you for your email. I'll review this and get back to you shortly."
  const AckTemplate := "Thank you for your email. I've received it and will review it shortly."
  const AutoRepliedAction := "Auto-replied and archived"

  // ---------------------------------------------------------------------------
  // The signals the rule-based classifier looks for (all substring tests on
  // lower-cased text)

  /** The lower-cased `"subject content"` text the keyword rules search. */
  function Signal(subject: string, content: string): string
  {
    Lower(subject + " " + content)
  }

  predicate MentionsAny(text: string, words: seq<string>)
  {
    exists w | w in words :: Contains(text, w)
  }

  predicate UrgentSignal(subject: string, content: string)
  {
    MentionsAny(Signal(subject, content), UrgentKeywords)
  }

  predicate ImportantSender(sender: string)
  {
    Contains(Lower(sender), "muniya") || Contains(Lower(sender), "m95251957")
  }

  predicate AutomatedSender(sender: string)
  {
    var s := Lower(sender);
    Contains(s, "no-reply") || Contains(s, "noreply") || Contains(s, "mailer-daemon")
  }

  predicate BulkMail(sender: string, subject: string, content: string)
  {
    var text := Signal(subject, content);
    Contains(text, "newsletter") || Contains(text, "unsubscribe") || Contains(Lower(sender), "marketing")
  }

  predicate InquirySignal(subject: string, content: string)
  {
    MentionsAny(Signal(subject, content), InquiryKeywords)
  }

  // ---------------------------------------------------------------------------
  // Rule-based classifier

  /** `_fallback_categorize`: the first rule that applies decides. */
  function FallbackCategorize(sender: string, subject: string, content: string): (r: Category)
    // total: every field is present and the priority is one of the four
    ensures r.priority.Some? && r.reason.Some? && r.needsResponse.Some?
    ensures r.suggestedAction.Some? && r.autoReply.Some?
    ensures r.priority.value in {URGENT, HIGH, MEDIUM, LOW}
    // precedence: urgent keywords, then sender, then automated/bulk, then inquiry
    ensures r.priority.value == URGENT <==> UrgentSignal(subject, content)
    ensures r.priority.value == HIGH <==> !UrgentSignal(subject, content) && ImportantSender(sender)
    ensures r.priority.value == MEDIUM <==>
      !UrgentSignal(subject, content) && !ImportantSender(sender) && !AutomatedSender(sender)
      && !BulkMail(sender, subject, content) && InquirySignal(subject, content)
    ensures !r.needsResponse.value <==>
      !UrgentSignal(subject, content) && !ImportantSender(sender)
      && (AutomatedSender(sender) || BulkMail(sender, subject, content))
    ensures r.autoReply.value <==>
      !UrgentSignal(subject, content) && !ImportantSender(sender) && !AutomatedSender(sender)
      && !BulkMail(sender, subject, content) && !InquirySignal(subject, content)
    // an auto-reply is only ever suggested for a LOW message that wants an answer
    ensures r.autoReply.value ==> r.priority.value == LOW && r.needsResponse.value
  {
    if UrgentSignal(subject, content) then
      Category(Some(URGENT), Some("Contains urgent keywords"), Some(true), Some("Respond immediately"), Some(false))
    else if ImportantSender(sender) then
      Category(Some(HIGH), Some("Important sender"), Some(true), Some("Respond within 4 hours"), Some(false))
    else if AutomatedSender(sender) then
      Category(Some(LOW), Some("Automated/no-reply"), Some(false), Some("Archive"), Some(false))
    else if BulkMail(sender, subject, content) then
      Category(Some(LOW), Some("Newsletter/marketing"), Some(false), Some("Archive or unsubscribe"), Some(false))
    else if InquirySignal(subject, content) then
      Category(Some(MEDIUM), Some("General inquiry"), Some(true), Some("Review and respond"), Some(false))
    else
      Category(Some(LOW), Some("General email"), Some(true), Some("Review when available"), Some(true))
  }

  lemma SignalIgnoresCase(subject: string, content: string)
    ensures Signal(Lower(subject), Lower(content)) == Signal(subject, content)
  {
    LowerConcat(Lower(subject), " ");
    LowerConcat(Lower(subject) + " ", Lower(content));
    LowerConcat(subject, " ");
    LowerConcat(subject + " ", content);
    LowerIdempotent(subject);
    LowerIdempotent(content);
    assert Lower(" ") == " ";
  }

  /** Every rule matches case-insensitively: lower-casing the inputs first
      changes nothing. */
  lemma FallbackIgnoresCase(sender: string, subject: string, content: string)
    ensures FallbackCategorize(Lower(sender), Lower(subject), Lower(content))
         == FallbackCategorize(sender, subject, content)
  {
    SignalIgnoresCase(subject, content);
    LowerIdempotent(sender);
  }

  lemma SignalSplits(subject: string, content: string)
    ensures Signal(subject, content) == Lower(subject) + " " + Lower(content)
  {
    LowerConcat(subject, " ");
    LowerConcat(subject + " ", content);
    assert Lower(" ") == " ";
  }

  /** An urgent keyword anywhere in the subject or the content, in any case,
      makes the message URGENT whoever sent it. */
  lemma UrgentWordWins(sender: string, subject: string, content: string, w: string)
    requires w in UrgentKeywords
    requires Contains(Lower(subject), w) || Contains(Lower(content), w)
    ensures FallbackCategorize(sender, subject, content).priority == Some(URGENT)
    ensures FallbackCategorize(sender, subject, content).needsResponse == Some(true)
    ensures FallbackCategorize(sender, subject, content).autoReply == Some(false)
  {
    var ls, lc := Lower(subject), Lower(content);
    SignalSplits(subject, content);
    if Contains(ls, w) {
      ContainsLeft(ls, " ", w);
      ContainsLeft(ls + " ", lc, w);
    } else {
      ContainsRight(ls + " ", lc, w);
    }
    assert Contains(Signal(subject, content), w);
    assert UrgentSignal(subject, content);
  }

  // ---------------------------------------------------------------------------
  // Backend-or-fallback wrappers

  /** `categorize_email`: the backend's answer when there is a client and the
      call returned; the rule-based category otherwise. */
  function CategorizeEmail(p: Processor, answer: Reply<Category>, sender: string, subject: string, content: string): (r: Category)
    ensures !p.hasClient || answer.Raised? ==> r == FallbackCategorize(sender, subject, content)
    ensures p.hasClient && answer.Returned? ==> r == answer.value
  {
    if p.hasClient && answer.Returned? then answer.value
    else FallbackCategorize(sender, subject, content)
  }

  /** `generate_draft`: the backend's stripped text, or the fixed template. */
  function GenerateDraft(p: Processor, answer: Reply<string>): (r: string)
    ensures !p.hasClient || answer.Raised? ==> r == DraftTemplate
    ensures p.hasClient && answer.Returned? ==> r == Strip(answer.value)
  {
    if p.hasClient && answer.Returned? then Strip(answer.value) else DraftTemplate
  }

  /** `generate_auto_reply`: the backend's stripped text, or the default
      acknowledgment. */
  function GenerateAutoReply(p: Processor, answer: Reply<string>): (r: string)
    ensures !p.hasClient || answer.Raised? ==> r == AckTemplate
    ensures p.hasClient && answer.Returned? ==> r == Strip(answer.value)
  {
    if p.hasClient && answer.Returned? then Strip(answer.value) else AckTemplate
  }

  /** `send_email`: false without a mail service; otherwise whether the
      service accepted the message. */
  function SendEmail(p: Processor, accepted: bool): (ok: bool)
    ensures ok <==> p.hasService && accepted
  {
    p.hasService && accepted
  }

  /** The bare address of `"Name <addr>"`: the text after the first '<' up to
      the next '<' or '>'; the whole sender when it lacks either bracket. */
  function ExtractAddress(sender: string): (r: string)
    ensures !('<' in sender && '>' in sender) ==> r == sender
    ensures '<' in sender && '>' in sender ==> '<' !in r && '>' !in r && |r| < |sender|
  {
    if '<' in sender && '>' in sender then
      TakeUntil(TakeUntil(After(sender, '<'), '<'), '>')
    else sender
  }

  lemma ExtractAddressOfNamed(name: string, addr: string, rest: string)
    requires '<' !in name && '<' !in addr && '>' !in addr
    ensures ExtractAddress(name + "<" + addr + ">" + rest) == addr
  {
    var tail := ">" + rest;
    var s := name + ['<'] + (addr + tail);
    assert name + "<" + addr + ">" + rest == s;
    assert s[|name|] == '<' && s[|name| + 1 + |addr|] == '>';
    AfterConcat(name, addr + tail, '<');
    // up to the next '<': the address, the '>' and whatever follows before it
    TakeUntilConcat(addr, tail, '<');
    assert tail == ">" + rest && tail[0] == '>' && tail[1..] == rest;
    var u := TakeUntil(tail, '<');
    assert u == ">" + TakeUntil(rest, '<');
    // up to the next '>': the address
    TakeUntilConcat(addr, u, '>');
    assert TakeUntil(u, '>') == [];
    assert addr + [] == addr;
  }

  // ---------------------------------------------------------------------------
  // process_email

  /** What `process_email` promises about its result record and about the
      auto-reply it hands to the mail service (`sent`, when one was accepted). */
  ghost predicate IsTriage(p: Processor, b: Backend, sender: string, subject: string, content: string,
                           id: string, r: Triage, sent: Option<Outgoing>)
  {
    var c := CategorizeEmail(p, b.categorize, sender, subject, content);
    && r.messageId == id
    // missing fields default to MEDIUM, "", true, ""
    && r.priority == c.priority.GetOr(MEDIUM)
    && r.reason == c.reason.GetOr("")
    && r.needsResponse == c.needsResponse.GetOr(true)
    // a draft exactly for URGENT/HIGH messages that need a response
    && (r.draft.Some? <==> (r.priority == URGENT || r.priority == HIGH) && r.needsResponse)
    && (r.draft.Some? ==> r.draft.value == GenerateDraft(p, b.draft))
    // an auto-reply exactly for LOW messages flagged for one, and only once sent
    && (r.autoReplied <==>
          r.priority == LOW && c.autoReply.GetOr(false) && p.hasService && SendEmail(p, b.sendAccepted))
    && (sent.Some? <==> r.autoReplied)
    && (sent.Some? ==>
          sent.value == Outgoing(ExtractAddress(sender), "Re: " + subject, GenerateAutoReply(p, b.ack)))
    && r.suggestedAction == (if r.autoReplied then AutoRepliedAction else c.suggestedAction.GetOr(""))
  }

  /** `process_email`: builds the result record step by step. */
  method ProcessEmail(p: Processor, b: Backend, sender: string, subject: string, content: string, id: string)
    returns (r: Triage, sent: Option<Outgoing>)
    ensures IsTriage(p, b, sender, subject, content, id, r, sent)
  {
    var category := CategorizeEmail(p, b.categorize, sender, subject, content);
    var priority := category.priority.GetOr(MEDIUM);
    var autoReply := category.autoReply.GetOr(false);
    r := Triage(id, priority, category.reason.GetOr(""), category.needsResponse.GetOr(true),
                category.suggestedAction.GetOr(""), None, false);
    sent := None;

    if (priority == URGENT || priority == HIGH) && category.needsResponse.GetOr(true) {
      r := r.(draft := Some(GenerateDraft(p, b.draft)));
    }

    if priority == LOW && autoReply && p.hasService {
      var replyTo := ExtractAddress(sender);
      var body := GenerateAutoReply(p, b.ack);
      var mail := Outgoing(replyTo, "Re: " + subject, body);
      if SendEmail(p, b.sendAccepted) {
        r := r.(autoReplied := true, suggestedAction := AutoRepliedAction);
        sent := Some(mail);
      }
    }
  }

  /** The promise above pins the result down completely. */
  lemma TriageDeterminate(p: Processor, b: Backend, sender: string, subject: string, content: string,
                          id: string, r1: Triage, s1: Option<Outgoing>, r2: Triage, s2: Option<Outgoing>)
    requires IsTriage(p, b, sender, subject, content, id, r1, s1)
    requires IsTriage(p, b, sender, subject, content, id, r2, s2)
    ensures r1 == r2 && s1 == s2
  {
  }

  /** Without a backend client the pipeline is the rule-based policy: an urgent
      or important message gets the template draft and is never auto-replied;
      a general message is auto-replied when the service accepts the send. */
  lemma RuleBasedTriage(p: Processor, b: Backend, sender: string, subject: string, content: string,
                        id: string, r: Triage, sent: Option<Outgoing>)
    requires !p.hasClient
    requires IsTriage(p, b, sender, subject, content, id, r, sent)
    ensures UrgentSignal(subject, content) || ImportantSender(sender) ==>
              r.draft == Some(DraftTemplate) && !r.autoReplied && sent == None
    ensures r.autoReplied <==>
              FallbackCategorize(sender, subject, content).autoReply == Some(true) && p.hasService && b.sendAccepted
    ensures sent.Some? ==> sent.value.body == AckTemplate
  {
  }
}
