/** The rewrite `_process_checked_email` applies to a record once its reply
    went out, and what that rewrite does to a record the watcher wrote: the
    status line says `sent`, the checkbox line carries `(SENT)`, and a
    `sent_at:` line closes the front matter. */
module SentCopy {
  import opened Text
  import opened ActionRecord

  const SentLine := "- [x] Reply to sender (SENT)"
  const StatusPending := "status: pending"
  const StatusSent := "status: sent"
  const EmailContent := "## Email Content"
  const ContentBoundary := "---\n\n## Email Content"

  /** Where the status line, the `---` closing the front matter and the
      checkbox line sit among the lines of a record. */
  const StatusIndex := 5
  const CloseIndex := 8
  const BoxIndex := 19

  /** The four rewrites of a dispatched record, in order: the status, both
      spellings of the ticked checkbox, and the `sent_at` line put before the
      front matter's closing `---`. Each rewrites every occurrence. */
  function MarkSent(text: string, sentAt: string): string
  {
    var a := ReplaceAll(text, StatusPending, StatusSent);
    var b := ReplaceAll(a, TickedLowerLine, SentLine);
    var c := ReplaceAll(b, TickedUpperLine, SentLine);
    ReplaceAll(c, ContentBoundary, "sent_at: " + sentAt + "\n" + ContentBoundary)
  }

  /** The lines of a record once it is marked as sent: the status line and
      the checkbox line rewritten, and `sent_at:` inserted before the `---`
      that closes the front matter. */
  function SentLines(f: Fields, sentAt: string): (r: seq<string>)
    ensures |r| == |RecordLines(f, Unticked)| + 1
    ensures r[StatusIndex] == StatusSent && r[CloseIndex] == "sent_at: " + sentAt && r[BoxIndex + 1] == SentLine
    ensures forall i | 0 <= i < CloseIndex && i != StatusIndex :: r[i] == RecordLines(f, Unticked)[i]
    ensures forall i | CloseIndex < i < |r| && i != BoxIndex + 1 :: r[i] == RecordLines(f, Unticked)[i - 1]
  {
    var ls := RecordLines(f, Unticked)[StatusIndex := StatusSent][BoxIndex := SentLine];
    ls[..CloseIndex] + ["sent_at: " + sentAt] + ls[CloseIndex..]
  }

  /** Nothing the message or the backend put into the record contains a text
      the rewrite looks for. */
  predicate Untouched(f: Fields)
  {
    && Avoids(f, StatusPending) && !Contains(f.draft, StatusPending)
    && Avoids(f, TickedLowerLine) && !Contains(f.draft, TickedLowerLine)
    && Avoids(f, TickedUpperLine) && !Contains(f.draft, TickedUpperLine)
    && Avoids(f, EmailContent) && !Contains(f.draft, EmailContent)
  }

  // ---------------------------------------------------------------------------
  // Where each searched text occurs in a record

  // Proof helper (models nothing of the source): characters the placeholder line lacks,
  // each stated alone so the solver meets one literal at a time.
  lemma HintNoColon()
    ensures ':' !in DraftHint
  {
  }

  lemma HintNoBracket()
    ensures '[' !in DraftHint
  {
  }

  lemma HintNoHash()
    ensures '#' !in DraftHint
  {
  }

  lemma FixedLinesAvoidStatus()
    ensures !Contains(ActionsHeading, StatusPending) && !Contains(ArchiveLine, StatusPending)
    ensures !Contains(DraftHeading, StatusPending) && !Contains(DraftHint, StatusPending)
    ensures !Contains(TickedLowerLine, StatusPending) && !Contains(TickedUpperLine, StatusPending)
    ensures !Contains(UntickedLine, StatusPending)
  {
    NotContainsShorter(ActionsHeading, StatusPending);
    NotContainsShorter(ArchiveLine, StatusPending);
    NotContainsMissingChar(DraftHeading, StatusPending, 6);
    HintNoColon();
    NotContainsMissingChar(DraftHint, StatusPending, 6);
    NotContainsMissingChar(TickedLowerLine, StatusPending, 6);
    NotContainsMissingChar(TickedUpperLine, StatusPending, 6);
    NotContainsMissingChar(UntickedLine, StatusPending, 6);
  }

  lemma FixedLinesAvoidTicked(p: string)
    requires p == TickedLowerLine || p == TickedUpperLine
    ensures !Contains(ActionsHeading, p) && !Contains(ArchiveLine, p)
    ensures !Contains(DraftHeading, p) && !Contains(DraftHint, p) && !Contains(StatusSent, p)
  {
    NotContainsShorter(ActionsHeading, p);
    NotContainsShorter(ArchiveLine, p);
    NotContainsShorter(DraftHeading, p);
    NotContainsShorter(StatusSent, p);
    HintNoBracket();
    NotContainsMissingChar(DraftHint, p, 2);
  }

  lemma FixedLinesAvoidContent()
    ensures !Contains(ActionsHeading, EmailContent) && !Contains(ArchiveLine, EmailContent)
    ensures !Contains(DraftHeading, EmailContent) && !Contains(DraftHint, EmailContent)
    ensures !Contains(TickedLowerLine, EmailContent) && !Contains(TickedUpperLine, EmailContent)
    ensures !Contains(UntickedLine, EmailContent)
    ensures !Contains(StatusSent, EmailContent) && !Contains(SentLine, EmailContent)
  {
    NotContainsShorter(ActionsHeading, EmailContent);
    NotContainsShorter(ArchiveLine, EmailContent);
    NotContainsMissingChar(DraftHeading, EmailContent, 3);
    HintNoHash();
    NotContainsMissingChar(DraftHint, EmailContent, 0);
    NotContainsMissingChar(TickedLowerLine, EmailContent, 0);
    NotContainsMissingChar(TickedUpperLine, EmailContent, 0);
    NotContainsMissingChar(UntickedLine, EmailContent, 0);
    NotContainsShorter(StatusSent, EmailContent);
    NotContainsMissingChar(SentLine, EmailContent, 0);
  }

  /** The two spellings of the ticked checkbox, and the sent one, are apart. */
  lemma CheckboxesApart()
    ensures !Contains(TickedUpperLine, TickedLowerLine) && !Contains(TickedLowerLine, TickedUpperLine)
  {
    NotContainsMissingChar(TickedUpperLine, TickedLowerLine, 3);
    NotContainsMissingChar(TickedLowerLine, TickedUpperLine, 3);
  }

  lemma SentLineNotUpper()
    ensures !Contains(SentLine, TickedUpperLine)
  {
    NotContainsMissingChar(SentLine, TickedUpperLine, 3);
  }

  lemma StatusKeysFront(f: Fields)
    requires Avoids(f, StatusPending)
    ensures !Contains("from: " + f.sender, StatusPending) && !Contains("subject: " + f.subject, StatusPending)
    ensures !Contains("received: " + f.received, StatusPending) && !Contains("priority: " + f.priority, StatusPending)
  {
    var p := StatusPending;
    KeyedClear("from: ", f.sender, p, 3, 8);
    KeyedClear("subject: ", f.subject, p, 5, 8);
    KeyedClear("received: ", f.received, p, 2, 8);
    KeyedClear("priority: ", f.priority, p, 7, 2);
  }

  lemma StatusKeysMiddle(f: Fields)
    requires Avoids(f, StatusPending)
    ensures !Contains("priority_reason: " + f.reason, StatusPending) && !Contains("- **Priority**: " + f.priority, StatusPending)
  {
    var p := StatusPending;
    KeyedClear("priority_reason: ", f.reason, p, 13, 14);
    KeyedClear("- **Priority**: ", f.priority, p, 13, 2);
  }

  lemma StatusKeysBack(f: Fields)
    requires Avoids(f, StatusPending)
    ensures !Contains("- **Reason**: " + f.reason, StatusPending) && !Contains("- **Suggested Action**: " + f.action, StatusPending)
  {
    var p := StatusPending;
    KeyedClear("- **Reason**: ", f.reason, p, 11, 14);
    KeyedClear("- **Suggested Action**: ", f.action, p, 14, 8);
  }

  /** What the lead needs of a ticked checkbox line: it starts `- [` and
      holds no colon. */
  predicate CheckboxShaped(p: string)
  {
    |p| > 2 && p[0] == '-' && p[2] == '[' && ':' !in p
  }

  lemma TickedShaped(p: string)
    requires p == TickedLowerLine || p == TickedUpperLine
    ensures CheckboxShaped(p)
  {
  }

  /** Both ticked checkbox lines start `- [`, and every key ends `: `. */
  lemma TickedKeysFront(f: Fields, p: string)
    requires CheckboxShaped(p) && Avoids(f, p)
    ensures !Contains("from: " + f.sender, p) && !Contains("subject: " + f.subject, p)
    ensures !Contains("received: " + f.received, p) && !Contains("priority: " + f.priority, p)
  {
    KeyedClear("from: ", f.sender, p, 4, 2);
    KeyedClear("subject: ", f.subject, p, 7, 2);
    KeyedClear("received: ", f.received, p, 8, 2);
    KeyedClear("priority: ", f.priority, p, 8, 2);
  }

  lemma TickedKeysMiddle(f: Fields, p: string)
    requires CheckboxShaped(p) && Avoids(f, p)
    ensures !Contains("priority_reason: " + f.reason, p) && !Contains("- **Priority**: " + f.priority, p)
  {
    KeyedClear("priority_reason: ", f.reason, p, 15, 2);
    KeyedClear("- **Priority**: ", f.priority, p, 14, 2);
  }

  lemma TickedKeysBack(f: Fields, p: string)
    requires CheckboxShaped(p) && Avoids(f, p)
    ensures !Contains("- **Reason**: " + f.reason, p)
  {
    KeyedClear("- **Reason**: ", f.reason, p, 12, 2);
  }

  lemma TickedKeysLast(f: Fields, p: string)
    requires CheckboxShaped(p) && Avoids(f, p)
    ensures !Contains("- **Suggested Action**: " + f.action, p)
  {
    KeyedClear("- **Suggested Action**: ", f.action, p, 22, 2);
  }

  lemma ContentKeysFront(f: Fields)
    requires Avoids(f, EmailContent)
    ensures !Contains("from: " + f.sender, EmailContent) && !Contains("subject: " + f.subject, EmailContent)
    ensures !Contains("received: " + f.received, EmailContent) && !Contains("priority: " + f.priority, EmailContent)
  {
    var p := EmailContent;
    KeyedClear("from: ", f.sender, p, 4, 0);
    KeyedClear("subject: ", f.subject, p, 7, 0);
    KeyedClear("received: ", f.received, p, 8, 0);
    KeyedClear("priority: ", f.priority, p, 8, 0);
  }

  lemma ContentKeysMiddle(f: Fields)
    requires Avoids(f, EmailContent)
    ensures !Contains("priority_reason: " + f.reason, EmailContent) && !Contains("- **Priority**: " + f.priority, EmailContent)
  {
    var p := EmailContent;
    KeyedClear("priority_reason: ", f.reason, p, 15, 0);
    KeyedClear("- **Priority**: ", f.priority, p, 14, 0);
  }

  lemma ContentKeysBack(f: Fields)
    requires Avoids(f, EmailContent)
    ensures !Contains("- **Reason**: " + f.reason, EmailContent) && !Contains("- **Suggested Action**: " + f.action, EmailContent)
  {
    var p := EmailContent;
    KeyedClear("- **Reason**: ", f.reason, p, 12, 0);
    KeyedClear("- **Suggested Action**: ", f.action, p, 22, 0);
  }

  lemma LeadStatusOnly(f: Fields)
    requires Avoids(f, StatusPending)
    ensures OnlyAt(LeadLines(f), StatusPending, StatusIndex)
  {
    var p := StatusPending;
    NotContainsShorter("---", p);
    NotContainsShorter("type: email", p);
    NotContainsShorter("", p);
    NotContainsShorter("## AI Analysis", p);
    NotContainsMissingChar(EmailContent, p, 0);
    StatusKeysFront(f);
    StatusKeysMiddle(f);
    StatusKeysBack(f);
  }

  lemma LeadTickedNowhere(f: Fields, p: string)
    requires p == TickedLowerLine || p == TickedUpperLine
    requires Avoids(f, p)
    ensures Nowhere(LeadLines(f), p)
  {
    NotContainsShorter("---", p);
    NotContainsShorter("type: email", p);
    NotContainsShorter("status: pending", p);
    NotContainsShorter("", p);
    NotContainsShorter("## AI Analysis", p);
    NotContainsShorter(EmailContent, p);
    TickedShaped(p);
    TickedKeysFront(f, p);
    TickedKeysMiddle(f, p);
    TickedKeysBack(f, p);
    TickedKeysLast(f, p);
  }

  lemma LeadContentOnly(f: Fields)
    requires Avoids(f, EmailContent)
    ensures OnlyAt(LeadLines(f), EmailContent, 10)
  {
    var p := EmailContent;
    NotContainsShorter("---", p);
    NotContainsShorter("type: email", p);
    NotContainsShorter("status: pending", p);
    NotContainsShorter("", p);
    NotContainsShorter("## AI Analysis", p);
    ContentKeysFront(f);
    ContentKeysMiddle(f);
    ContentKeysBack(f);
  }

  /** Quoting adds `> ` at line starts only, so a pattern that starts with
      neither character nor holds a newline is in the quote only if it is in
      the draft. */
  lemma QuoteAvoids(d: string, p: string)
    requires p != [] && '\n' !in p && p[0] != '>' && p[0] != ' ' && !Contains(d, p)
    ensures !Contains(Quote(d), p)
  {
    var ls := Split(d);
    QuoteLines(d);
    JoinSplit(Quote(d));
    JoinSplit(d);
    forall i | 0 <= i < |ls|
      ensures !Contains(Prefixed(ls)[i], p)
    {
      JoinContainsPiece(ls, i);
      if Contains(ls[i], p) {
        ContainsTransitive(d, ls[i], p);
      }
      ContainsAfterPrefix("> ", ls[i], p);
    }
    ContainsJoin(Prefixed(ls), p);
  }

  /** The lines after the checkbox: `- [ ] Archive` and the draft section. */
  lemma TailNowhere(d: string, p: string)
    requires p != [] && '\n' !in p && p[0] != '>' && p[0] != ' ' && !Contains(d, p)
    requires !Contains(ArchiveLine, p) && !Contains(DraftHeading, p) && !Contains(DraftHint, p)
    ensures Nowhere([ArchiveLine] + DraftLines(d), p)
  {
    NotContainsShorter("", p);
    if d != [] {
      QuoteAvoids(d, p);
    }
  }

  lemma BoxSplit(f: Fields, box: Box)
    ensures RecordLines(f, box)
         == LeadLines(f) + ([ActionsHeading] + ([BoxLine(box)] + ([ArchiveLine] + DraftLines(f.draft))))
  {
  }

  lemma RecordStatusOnly(f: Fields, box: Box)
    requires Avoids(f, StatusPending) && !Contains(f.draft, StatusPending)
    ensures OnlyAt(RecordLines(f, box), StatusPending, StatusIndex)
  {
    var tail := [ArchiveLine] + DraftLines(f.draft);
    LeadStatusOnly(f);
    FixedLinesAvoidStatus();
    TailNowhere(f.draft, StatusPending);
    assert Nowhere([ActionsHeading, BoxLine(box)], StatusPending);
    NowhereAppend([ActionsHeading, BoxLine(box)], tail, StatusPending);
    assert [ActionsHeading, BoxLine(box)] + tail == ActionLines(box, f.draft);
    OnlyAtAppend(LeadLines(f), ActionLines(box, f.draft), StatusPending, StatusIndex);
  }

  lemma RecordTickedOnly(f: Fields, box: Box, p: string)
    requires p == TickedLowerLine || p == TickedUpperLine
    requires Avoids(f, p) && !Contains(f.draft, p)
    ensures OnlyAt(RecordLines(f, box), p, BoxIndex)
  {
    var tail := [ArchiveLine] + DraftLines(f.draft);
    LeadTickedNowhere(f, p);
    FixedLinesAvoidTicked(p);
    TailNowhere(f.draft, p);
    assert OnlyAt([BoxLine(box)] + tail, p, 0);
    assert Nowhere([ActionsHeading], p);
    OnlyAtShift([ActionsHeading], [BoxLine(box)] + tail, p, 0);
    OnlyAtShift(LeadLines(f), [ActionsHeading] + ([BoxLine(box)] + tail), p, 1);
    BoxSplit(f, box);
  }

  /** An unticked record holds a ticked checkbox text only where the message
      put one. */
  lemma FreshRecordAvoids(f: Fields, p: string)
    requires p == TickedLowerLine || p == TickedUpperLine
    requires Avoids(f, p) && !Contains(f.draft, p)
    ensures !Contains(RecordText(f, Unticked), p)
  {
    var ls := RecordLines(f, Unticked);
    RecordTickedOnly(f, Unticked, p);
    BoxLineOnly(f, Unticked);
    UntickedNotTicked(p);
    OnlyAtClear(ls, p, BoxIndex);
    ContainsJoin(ls, p);
  }

  lemma UntickedNotTicked(p: string)
    requires p == TickedLowerLine || p == TickedUpperLine
    ensures !Contains(UntickedLine, p)
  {
    NotContainsMissingChar(UntickedLine, p, 3);
  }

  lemma OnlyAtClear(ls: seq<string>, p: string, k: int)
    requires OnlyAt(ls, p, k) && 0 <= k < |ls| && !Contains(ls[k], p)
    ensures forall i | 0 <= i < |ls| :: !Contains(ls[i], p)
  {
  }

  /** The substring test of the scan as written reads the record's own
      checkbox, as long as the message text quotes neither ticked checkbox
      line. */
  lemma TriggerAsWrittenReadsCheckbox(f: Fields, box: Box)
    requires Avoids(f, TickedLowerLine) && !Contains(f.draft, TickedLowerLine)
    requires Avoids(f, TickedUpperLine) && !Contains(f.draft, TickedUpperLine)
    ensures TriggerAsWritten(RecordText(f, box)) <==> box != Unticked
  {
    if box == Unticked {
      FreshRecordAvoids(f, TickedLowerLine);
      FreshRecordAvoids(f, TickedUpperLine);
    } else {
      TickedRecordTriggersAsWritten(f, box);
    }
  }

  lemma RecordContentOnly(f: Fields, box: Box)
    requires Avoids(f, EmailContent) && !Contains(f.draft, EmailContent)
    ensures OnlyAt(RecordLines(f, box), EmailContent, 10)
  {
    var tail := [ArchiveLine] + DraftLines(f.draft);
    LeadContentOnly(f);
    FixedLinesAvoidContent();
    TailNowhere(f.draft, EmailContent);
    assert Nowhere([ActionsHeading, BoxLine(box)], EmailContent);
    NowhereAppend([ActionsHeading, BoxLine(box)], tail, EmailContent);
    assert [ActionsHeading, BoxLine(box)] + tail == ActionLines(box, f.draft);
    OnlyAtAppend(LeadLines(f), ActionLines(box, f.draft), EmailContent, 10);
  }

  // ---------------------------------------------------------------------------
  // The `sent_at` insertion

  lemma JoinFrom(ls: seq<string>, k: int)
    requires 0 <= k && k + 1 < |ls|
    ensures Join(ls[k..]) == ls[k] + ("\n" + Join(ls[k + 1..]))
  {
    assert ls[k..][1..] == ls[k + 1..];
  }

  lemma JoinAt(ls: seq<string>, k: int)
    requires 0 < k < |ls|
    ensures Join(ls) == Join(ls[..k]) + "\n" + Join(ls[k..])
  {
    assert ls[..k] + ls[k..] == ls;
    JoinAppend(ls[..k], ls[k..]);
  }

  // Proof helper (models nothing of the source): regroups three joined lines and the rest.
  lemma LineBreakRegroup(x: string, y: string, e: string, t: string)
    ensures x + ("\n" + (y + ("\n" + (e + t)))) == x + "\n" + y + "\n" + e + t
  {
  }

  /** The three lines from `k` on, joined, followed by the rest. */
  lemma JoinThreeAt(ls: seq<string>, k: int)
    requires 0 <= k && k + 3 < |ls|
    ensures Join(ls[k..]) == ls[k] + "\n" + ls[k + 1] + "\n" + ls[k + 2] + ("\n" + Join(ls[k + 3..]))
  {
    JoinFrom(ls, k);
    JoinFrom(ls, k + 1);
    JoinFrom(ls, k + 2);
    LineBreakRegroup(ls[k], ls[k + 1], ls[k + 2], "\n" + Join(ls[k + 3..]));
  }

  lemma BoundaryFacts()
    ensures ContentBoundary == "---" + "\n" + "" + "\n" + EmailContent
  {
  }

  /** An occurrence of `h + "\n" + e` holds one of `e`, so none starts before
      the line break that precedes the only `e`. */
  lemma NoBoundaryBefore(a: string, h: string, e: string, b: string)
    requires e != [] && '\n' !in e && !Contains(a, e) && !Contains(h, e)
    ensures forall i | 0 <= i < |a + "\n"| ::
      !OccursAt(a + "\n" + (h + "\n" + e + ("\n" + b)), h + "\n" + e, i)
  {
    var cb := h + "\n" + e;
    var text := a + "\n" + (cb + ("\n" + b));
    var y := a + "\n" + h;
    assert text == y + "\n" + (e + ("\n" + b));
    assert y == a + ['\n'] + h;
    ContainsAroundChar(a, '\n', h, e);
    NoOccurrenceBeforeNewline(y, e + ("\n" + b), e);
    assert OccursAt(cb, e, |h| + 1);
    forall i | 0 <= i < |a + "\n"|
      ensures !OccursAt(text, cb, i)
    {
      if OccursAt(text, cb, i) {
        OccursInside(text, cb, i, e, |h| + 1);
        assert false;
      }
    }
  }

  lemma NoBoundaryAfter(h: string, e: string, b: string)
    requires e != [] && '\n' !in e && !Contains(b, e)
    ensures !Contains("\n" + b, h + "\n" + e)
  {
    var cb := h + "\n" + e;
    assert OccursAt(cb, e, |h| + 1);
    if Contains("\n" + b, cb) {
      ContainsTransitive("\n" + b, cb, e);
      ContainsAfterPrefix("\n", b, e);
    }
  }

  lemma InsertAround(a: string, h: string, e: string, b: string, line: string)
    requires e != [] && '\n' !in e && !Contains(a, e) && !Contains(h, e) && !Contains(b, e)
    ensures var cb := h + "\n" + e;
      ReplaceAll(a + "\n" + (cb + ("\n" + b)), cb, line + "\n" + cb)
      == a + "\n" + (line + ("\n" + (cb + ("\n" + b))))
  {
    var cb := h + "\n" + e;
    var q := line + "\n" + cb;
    NoBoundaryBefore(a, h, e, b);
    ReplaceAllKeepsPrefix(a + "\n", cb + ("\n" + b), cb, q);
    ReplaceAllAtStart(cb, "\n" + b, q);
    NoBoundaryAfter(h, e, b);
    ReplaceAllAbsent("\n" + b, cb, q);
  }

  /** With `## Email Content` on its own line only, the rewrite puts the new
      line right before the `---` of the boundary and changes nothing else. */
  lemma InsertBeforeBoundary(ls: seq<string>, k: int, line: string)
    requires 0 < k && k + 3 < |ls|
    requires ls[k] == "---" && ls[k + 1] == "" && ls[k + 2] == EmailContent
    requires OnlyAt(ls, EmailContent, k + 2)
    ensures ReplaceAll(Join(ls), ContentBoundary, line + "\n" + ContentBoundary)
         == Join(ls[..k] + [line] + ls[k..])
  {
    var a, b := ls[..k], ls[k + 3..];
    var h := ls[k] + "\n" + ls[k + 1];
    var m := ls[..k] + [line] + ls[k..];
    assert Nowhere(a, EmailContent) by {
      forall i | 0 <= i < |a| ensures !Contains(a[i], EmailContent) { assert a[i] == ls[i]; }
    }
    assert Nowhere(b, EmailContent) by {
      forall i | 0 <= i < |b| ensures !Contains(b[i], EmailContent) { assert b[i] == ls[k + 3 + i]; }
    }
    ContainsJoin(a, EmailContent);
    ContainsJoin(b, EmailContent);
    NotContainsShorter(h, EmailContent);
    BoundaryFacts();
    JoinAt(ls, k);
    JoinThreeAt(ls, k);
    assert m[..k] == a && m[k] == line && m[k + 1..] == ls[k..];
    JoinAt(m, k);
    JoinFrom(m, k);
    InsertAround(Join(a), h, EmailContent, Join(b), line);
  }

  // ---------------------------------------------------------------------------
  // The rewrite of a record

  /** A record differs from the unticked one in its checkbox line only. */
  lemma BoxLineOnly(f: Fields, box: Box)
    ensures |RecordLines(f, box)| == |RecordLines(f, Unticked)| > BoxIndex
    ensures RecordLines(f, box)[BoxIndex] == BoxLine(box)
    ensures forall i | 0 <= i < |RecordLines(f, box)| && i != BoxIndex :: RecordLines(f, box)[i] == RecordLines(f, Unticked)[i]
  {
    BoxSplit(f, box);
    BoxSplit(f, Unticked);
  }

  /** The status rewrite: only the status line changes. */
  lemma StatusRewrite(f: Fields, box: Box)
    requires Avoids(f, StatusPending) && !Contains(f.draft, StatusPending)
    ensures ReplaceAll(RecordText(f, box), StatusPending, StatusSent)
         == Join(RecordLines(f, box)[StatusIndex := StatusSent])
  {
    RecordStatusOnly(f, box);
    BoxLineOnly(f, box);
    ReplaceLineAt(RecordLines(f, box), StatusIndex, StatusSent);
  }

  /** On a record with the status line rewritten, each ticked spelling
      occurs on the checkbox line only. */
  lemma CheckboxOnly(f: Fields, box: Box)
    requires Untouched(f)
    ensures var ls := RecordLines(f, box)[StatusIndex := StatusSent];
      OnlyAt(ls, TickedLowerLine, BoxIndex) && OnlyAt(ls, TickedUpperLine, BoxIndex)
  {
    var r0 := RecordLines(f, box);
    BoxLineOnly(f, box);
    FixedLinesAvoidTicked(TickedLowerLine);
    FixedLinesAvoidTicked(TickedUpperLine);
    RecordTickedOnly(f, box, TickedLowerLine);
    RecordTickedOnly(f, box, TickedUpperLine);
    OnlyAtUpdate(r0, TickedLowerLine, BoxIndex, StatusIndex, StatusSent);
    OnlyAtUpdate(r0, TickedUpperLine, BoxIndex, StatusIndex, StatusSent);
  }

  /** The two checkbox rewrites, on a record whose status line was
      rewritten: only the checkbox line changes, to the sent one. */
  lemma CheckboxRewrite(f: Fields, box: Box)
    requires box != Unticked && Untouched(f)
    ensures var ls := RecordLines(f, box)[StatusIndex := StatusSent];
      ReplaceAll(ReplaceAll(Join(ls), TickedLowerLine, SentLine), TickedUpperLine, SentLine)
      == Join(ls[BoxIndex := SentLine])
  {
    var ls := RecordLines(f, box)[StatusIndex := StatusSent];
    BoxLineOnly(f, box);
    CheckboxOnly(f, box);
    if box == TickedLower {
      SentLineNotUpper();
      ReplaceLineAt(ls, BoxIndex, SentLine);
      OnlyAtFill(ls, TickedUpperLine, BoxIndex, SentLine);
      ReplaceNowhere(ls[BoxIndex := SentLine], TickedUpperLine, SentLine);
    } else {
      CheckboxesApart();
      OnlyAtFill(ls, TickedLowerLine, BoxIndex, TickedUpperLine);
      assert ls[BoxIndex := TickedUpperLine] == ls;
      ReplaceNowhere(ls, TickedLowerLine, SentLine);
      ReplaceLineAt(ls, BoxIndex, SentLine);
    }
  }

  /** The `sent_at` rewrite on a record whose status and checkbox lines were
      rewritten. */
  lemma SentAtRewrite(f: Fields, box: Box, sentAt: string)
    requires Avoids(f, EmailContent) && !Contains(f.draft, EmailContent)
    ensures var ls := RecordLines(f, box)[StatusIndex := StatusSent][BoxIndex := SentLine];
      ReplaceAll(Join(ls), ContentBoundary, "sent_at: " + sentAt + "\n" + ContentBoundary)
      == Join(ls[..CloseIndex] + ["sent_at: " + sentAt] + ls[CloseIndex..])
  {
    var r0 := RecordLines(f, box);
    var ls := r0[StatusIndex := StatusSent][BoxIndex := SentLine];
    BoxLineOnly(f, box);
    RecordContentOnly(f, box);
    FixedLinesAvoidContent();
    OnlyAtUpdate(r0, EmailContent, 10, StatusIndex, StatusSent);
    OnlyAtUpdate(r0[StatusIndex := StatusSent], EmailContent, 10, BoxIndex, SentLine);
    assert ls[CloseIndex] == "---" && ls[CloseIndex + 1] == "" && ls[CloseIndex + 2] == EmailContent;
    InsertBeforeBoundary(ls, CloseIndex, "sent_at: " + sentAt);
  }

  /** The record a ticked, dispatched record becomes: whatever box the operator
      ticked, the four rewrites change exactly the status line and the
      checkbox line and insert the `sent_at:` line, as long as nothing the
      message put into the record contains a text they look for. */
  lemma MarkSentRecord(f: Fields, box: Box, sentAt: string)
    requires box != Unticked && Untouched(f)
    ensures MarkSent(RecordText(f, box), sentAt) == Join(SentLines(f, sentAt))
  {
    var r0 := RecordLines(f, box);
    StatusRewrite(f, box);
    CheckboxRewrite(f, box);
    SentAtRewrite(f, box, sentAt);
    BoxLineOnly(f, box);
    assert r0[StatusIndex := StatusSent][BoxIndex := SentLine]
        == RecordLines(f, Unticked)[StatusIndex := StatusSent][BoxIndex := SentLine];
  }
}
