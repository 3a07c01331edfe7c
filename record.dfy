/** The markdown action record the Gmail watcher writes for each message, and
    the checkbox trigger the watcher reads back from such a record. */
module ActionRecord {
  import opened Outcomes
  import opened Text

  /** The "Reply to sender" checkbox line as the operator left it. The watcher
      always writes it unticked; ticking it (`x` or `X`) asks for the send. */
  datatype Box = Unticked | TickedLower | TickedUpper

  /** The values `create_action_file` interpolates into the record. */
  datatype Fields = Fields(
    sender: string,
    subject: string,
    received: string,
    priority: string,
    reason: string,
    snippet: string,
    action: string,
    draft: string)

  const ActionsHeading := "## Actions"
  const DraftHeading := "## Draft Response"
  const UntickedLine := "- [ ] Reply to sender"
  const TickedLowerLine := "- [x] Reply to sender"
  const TickedUpperLine := "- [X] Reply to sender"
  const ArchiveLine := "- [ ] Archive"
  const DraftHint := "*Check \"Reply to sender\" above" + " to send this draft automatically.*"

  function BoxLine(box: Box): string
  {
    match box
    case Unticked => UntickedLine
    case TickedLower => TickedLowerLine
    case TickedUpper => TickedUpperLine
  }

  /** The record up to the `## Actions` heading: the front matter, the email
      content and the analysis. */
  function LeadLines(f: Fields): seq<string>
  {
    ["---", "type: email", "from: " + f.sender, "subject: " + f.subject, "received: " + f.received,
     "status: pending", "priority: " + f.priority, "priority_reason: " + f.reason,
     "---", "", "## Email Content", f.snippet, "", "## AI Analysis",
     "- **Priority**: " + f.priority, "- **Reason**: " + f.reason,
     "- **Suggested Action**: " + f.action, ""]
  }

  /** `"> " + draft.replace("\n", "\n> ")`: the draft with every line quoted. */
  function Quote(d: string): string
  {
    "> " + ReplaceAll(d, "\n", "\n> ")
  }

  /** The tail after `- [ ] Archive`: the final newline, and the Draft
      Response section when there is a draft. */
  function DraftLines(d: string): seq<string>
  {
    if d == [] then [""]
    else ["", DraftHeading, Quote(d), "", DraftHint, ""]
  }

  /** The `## Actions` section and what follows it. */
  function ActionLines(box: Box, d: string): seq<string>
  {
    [ActionsHeading, BoxLine(box), ArchiveLine] + DraftLines(d)
  }

  function RecordLines(f: Fields, box: Box): seq<string>
  {
    LeadLines(f) + ActionLines(box, f.draft)
  }

  /** None of the text a message puts into the record contains `p`. */
  predicate Avoids(f: Fields, p: string)
  {
    !Contains(f.sender, p) && !Contains(f.subject, p) && !Contains(f.received, p)
    && !Contains(f.priority, p) && !Contains(f.reason, p) && !Contains(f.snippet, p)
    && !Contains(f.action, p)
  }

  lemma LeadConstantsAvoidHeading()
    ensures !Contains("---", DraftHeading) && !Contains("type: email", DraftHeading)
    ensures !Contains("status: pending", DraftHeading) && !Contains("", DraftHeading)
    ensures !Contains("## Email Content", DraftHeading) && !Contains("## AI Analysis", DraftHeading)
  {
    NotContainsShorter("---", DraftHeading);
    NotContainsShorter("type: email", DraftHeading);
    NotContainsShorter("status: pending", DraftHeading);
    NotContainsShorter("", DraftHeading);
    NotContainsShorter("## Email Content", DraftHeading);
    NotContainsShorter("## AI Analysis", DraftHeading);
  }

  /** The `## Draft Response` heading occurs on no line before the `## Actions`
      section unless the message put it there. */
  lemma LeadLinesAvoidHeading(f: Fields)
    requires Avoids(f, DraftHeading)
    ensures forall i | 0 <= i < |LeadLines(f)| :: !Contains(LeadLines(f)[i], DraftHeading)
  {
    var h := DraftHeading;
    LeadConstantsAvoidHeading();
    ContainsAfterPrefix("from: ", f.sender, h);
    ContainsAfterPrefix("subject: ", f.subject, h);
    ContainsAfterPrefix("received: ", f.received, h);
    ContainsAfterPrefix("priority: ", f.priority, h);
    ContainsAfterPrefix("priority_reason: ", f.reason, h);
    ContainsAfterPrefix("- **Priority**: ", f.priority, h);
    ContainsAfterPrefix("- **Reason**: ", f.reason, h);
    ContainsAfterPrefix("- **Suggested Action**: ", f.action, h);
  }

  /** Hence the heading does not occur in the text before `## Actions` either. */
  lemma LeadTextAvoidsHeading(f: Fields)
    requires Avoids(f, DraftHeading)
    ensures !Contains(Join(LeadLines(f)), DraftHeading)
  {
    LeadLinesAvoidHeading(f);
    ContainsJoin(LeadLines(f), DraftHeading);
  }

  /** The record text in three parts: the lead, the actions, the draft section. */
  lemma RecordTextParts(f: Fields, box: Box)
    ensures RecordText(f, box)
         == Join(LeadLines(f)) + "\n" + (Join([ActionsHeading, BoxLine(box), ArchiveLine]) + "\n" + Join(DraftLines(f.draft)))
  {
    JoinAppend(LeadLines(f), ActionLines(box, f.draft));
    JoinAppend([ActionsHeading, BoxLine(box), ArchiveLine], DraftLines(f.draft));
  }

  lemma JoinSix(a: string, b: string, c: string, d: string, e: string, f: string)
    ensures Join([a, b, c, d, e, f])
         == a + ("\n" + (b + ("\n" + (c + ("\n" + (d + ("\n" + (e + ("\n" + f)))))))))
  {
    JoinCons(e, [f]);
    assert [d, e, f] == [d] + [e, f];
    JoinCons(d, [e, f]);
    assert [c, d, e, f] == [c] + [d, e, f];
    JoinCons(c, [d, e, f]);
    assert [b, c, d, e, f] == [b] + [c, d, e, f];
    JoinCons(b, [c, d, e, f]);
    assert [a, b, c, d, e, f] == [a] + [b, c, d, e, f];
    JoinCons(a, [b, c, d, e, f]);
  }

  // Proof helper (models nothing of the source): regroups the closing lines of the draft section.
  lemma HintTail(h: string)
    ensures "" + ("\n" + (h + ("\n" + ""))) == "\n" + h + "\n"
  {
  }

  /** The draft section as text. */
  lemma DraftSectionText(d: string)
    requires d != []
    ensures Join(DraftLines(d)) == "\n" + (DraftHeading + ("\n" + (Quote(d) + ("\n" + ("\n" + DraftHint + "\n")))))
  {
    JoinSix("", DraftHeading, Quote(d), "", DraftHint, "");
    HintTail(DraftHint);
    assert "" + ("\n" + (DraftHeading + ("\n" + (Quote(d) + ("\n" + ("\n" + DraftHint + "\n"))))))
        == "\n" + (DraftHeading + ("\n" + (Quote(d) + ("\n" + ("\n" + DraftHint + "\n")))));
  }

  lemma ActionLinesAvoidHeading(box: Box)
    ensures !Contains(Join([ActionsHeading, BoxLine(box), ArchiveLine]), DraftHeading)
  {
    var ls := [ActionsHeading, BoxLine(box), ArchiveLine];
    NotContainsShorter(ActionsHeading, DraftHeading);
    BoxLineReading(box);
    NotContainsMissingChar(BoxLine(box), DraftHeading, 0);
    NotContainsMissingChar(ArchiveLine, DraftHeading, 0);
    ActionLinesPlain(box);
    ContainsJoin(ls, DraftHeading);
  }

  /** The front matter opens the record: `---`, the type, the sender, the subject. */
  lemma RecordLinesHead(f: Fields, box: Box)
    ensures |RecordLines(f, box)| > 5
    ensures RecordLines(f, box)[0] == "---" && RecordLines(f, box)[1] == "type: email"
    ensures RecordLines(f, box)[2] == "from: " + f.sender
    ensures RecordLines(f, box)[3] == "subject: " + f.subject
    ensures RecordLines(f, box)[4] == "received: " + f.received
  {
    var lead := LeadLines(f);
    assert RecordLines(f, box)[..5] == lead[..5];
  }

  /** The text `create_action_file` writes (with `box == Unticked`), or that
      text after the operator ticked the checkbox. */
  function RecordText(f: Fields, box: Box): string
  {
    Join(RecordLines(f, box))
  }

  // ---------------------------------------------------------------------------
  // Quoting

  function Prefixed(ls: seq<string>): (r: seq<string>)
    ensures |r| == |ls|
    ensures forall i | 0 <= i < |ls| :: r[i] == "> " + ls[i]
  {
    if ls == [] then []
    else
      var t := Prefixed(ls[1..]);
      var r := ["> " + ls[0]] + t;
      assert forall i | 1 <= i < |ls| :: r[i] == t[i - 1] && ls[1..][i - 1] == ls[i];
      r
  }

  /** Quoting a line followed by more text: the line keeps its place, the
      newline after it gains the marker. */
  lemma QuoteFirstLine(x: string, j: string)
    requires '\n' !in x
    ensures ReplaceAll(x + ("\n" + j), "\n", "\n> ") == x + ("\n> " + ReplaceAll(j, "\n", "\n> "))
  {
    forall i | 0 <= i < |x|
      ensures !OccursAt(x + ("\n" + j), "\n", i)
    {
      if OccursAt(x + ("\n" + j), "\n", i) {
        OccursAtChar(x + ("\n" + j), "\n", i, 0);
      }
    }
    ReplaceAllKeepsPrefix(x, "\n" + j, "\n", "\n> ");
    ReplaceAllAtStart("\n", j, "\n> ");
  }

  // Proof helper (models nothing of the source): regroups one quoted line and the rest.
  lemma QuoteRegroup(x: string, r: string)
    ensures "> " + (x + ("\n> " + r)) == ("> " + x) + "\n" + ("> " + r)
  {
  }

  lemma {:induction false} QuoteJoin(ls: seq<string>)
    requires |ls| > 0
    requires forall i | 0 <= i < |ls| :: '\n' !in ls[i]
    ensures "> " + ReplaceAll(Join(ls), "\n", "\n> ") == Join(Prefixed(ls))
  {
    var x := ls[0];
    if |ls| == 1 {
      NotContainsMissingChar(x, "\n", 0);
      ReplaceAllAbsent(x, "\n", "\n> ");
    } else {
      var j := Join(ls[1..]);
      assert Join(ls) == x + ("\n" + j);
      QuoteFirstLine(x, j);
      QuoteJoin(ls[1..]);
      QuoteRegroup(x, ReplaceAll(j, "\n", "\n> "));
      assert Prefixed(ls)[1..] == Prefixed(ls[1..]);
    }
  }

  /** Every line of a quoted draft is the matching draft line behind `> `. */
  lemma QuoteLines(d: string)
    ensures Split(Quote(d)) == Prefixed(Split(d))
  {
    var ls := Split(d);
    JoinSplit(d);
    QuoteJoin(ls);
    forall i | 0 <= i < |ls|
      ensures '\n' !in Prefixed(ls)[i]
    {
      assert Prefixed(ls)[i] == "> " + ls[i];
    }
    SplitJoinPlain(Prefixed(ls));
  }

  // Proof helper (models nothing of the source): the placeholder line is a single line.
  lemma HintPlain()
    ensures '\n' !in DraftHint
  {
  }

  lemma DraftFramePlain()
    ensures forall i | 0 <= i < 2 :: '\n' !in ["", DraftHeading][i]
    ensures forall i | 0 <= i < 3 :: '\n' !in ["", DraftHint, ""][i]
  {
    HintPlain();
    var pre := ["", DraftHeading];
    var post := ["", DraftHint, ""];
    assert pre[0] == "" && pre[1] == DraftHeading;
    assert post[0] == "" && post[1] == DraftHint && post[2] == "";
  }

  /** The lines of a record's tail when there is a draft. */
  lemma DraftLinesSplit(d: string)
    requires d != []
    ensures SplitEach(DraftLines(d))
         == ["", DraftHeading] + (Prefixed(Split(d)) + ["", DraftHint, ""])
  {
    QuoteLines(d);
    assert DraftLines(d) == ["", DraftHeading] + ([Quote(d)] + ["", DraftHint, ""]);
    DraftFramePlain();
    SplitEachAround(["", DraftHeading], Quote(d), ["", DraftHint, ""]);
  }

  // ---------------------------------------------------------------------------
  // The checkbox trigger

  /** The trigger test of `scan_for_checkbox_triggers` as written: a ticked
      checkbox text anywhere in the file. */
  predicate TriggerAsWritten(text: string)
  {
    Contains(text, TickedLowerLine) || Contains(text, TickedUpperLine)
  }

  /** The line right after the last `## Actions` heading, if any. */
  function CheckboxLine(ls: seq<string>): (r: Option<string>)
    ensures r.Some? ==> r.value in ls
  {
    if |ls| < 2 then None
    else if ls[|ls| - 2] == ActionsHeading then Some(ls[|ls| - 1])
    else CheckboxLine(ls[..|ls| - 1])
  }

  predicate IsTicked(line: string)
  {
    StartsWith(line, TickedLowerLine) || StartsWith(line, TickedUpperLine)
  }

  /** The trigger test as intended: the checkbox line of the `## Actions`
      section is ticked. */
  predicate Trigger(text: string)
  {
    var c := CheckboxLine(Split(text));
    c.Some? && IsTicked(c.value)
  }

  lemma {:induction false} CheckboxAfterLastHeading(a: seq<string>, x: string, b: seq<string>)
    requires forall i | 0 <= i < |b| :: b[i] != ActionsHeading
    requires b != [] ==> x != ActionsHeading
    ensures CheckboxLine(a + ([ActionsHeading, x] + b)) == Some(x)
    decreases |b|
  {
    var ls := a + ([ActionsHeading, x] + b);
    if b != [] {
      assert ls[|ls| - 2] != ActionsHeading by {
        if |b| == 1 { assert ls[|ls| - 2] == x; } else { assert ls[|ls| - 2] == b[|b| - 2]; }
      }
      assert ls[..|ls| - 1] == a + ([ActionsHeading, x] + b[..|b| - 1]);
      CheckboxAfterLastHeading(a, x, b[..|b| - 1]);
    }
  }

  /** No line after the checkbox is an `## Actions` heading. */
  predicate NoHeading(ls: seq<string>)
  {
    forall i | 0 <= i < |ls| :: ls[i] != ActionsHeading
  }

  lemma NoHeadingAppend(a: seq<string>, b: seq<string>)
    requires NoHeading(a) && NoHeading(b)
    ensures NoHeading(a + b)
  {
    forall i | 0 <= i < |a + b| ensures (a + b)[i] != ActionsHeading {
      if i >= |a| { assert (a + b)[i] == b[i - |a|]; }
    }
  }

  /** Quoted lines start with `>`, so none of them is the heading. */
  lemma PrefixedNoHeading(ls: seq<string>)
    ensures NoHeading(Prefixed(ls))
  {
    forall i | 0 <= i < |ls| ensures Prefixed(ls)[i] != ActionsHeading {
      assert Prefixed(ls)[i][0] == '>';
    }
  }

  lemma FrameNoHeading()
    ensures NoHeading([ArchiveLine]) && NoHeading(["", DraftHeading]) && NoHeading(["", DraftHint, ""])
  {
  }

  lemma TailHasNoHeading(d: string)
    ensures forall i | 0 <= i < |[ArchiveLine] + SplitEach(DraftLines(d))| ::
              ([ArchiveLine] + SplitEach(DraftLines(d)))[i] != ActionsHeading
  {
    FrameNoHeading();
    if d == [] {
      SplitEachPlain(DraftLines(d));
      assert SplitEach(DraftLines(d)) == [""];
      assert NoHeading([""]);
      NoHeadingAppend([ArchiveLine], [""]);
    } else {
      DraftLinesSplit(d);
      var q := Prefixed(Split(d));
      PrefixedNoHeading(Split(d));
      NoHeadingAppend(q, ["", DraftHint, ""]);
      NoHeadingAppend(["", DraftHeading], q + ["", DraftHint, ""]);
      NoHeadingAppend([ArchiveLine], ["", DraftHeading] + (q + ["", DraftHint, ""]));
    }
  }

  lemma ActionLinesPlain(box: Box)
    ensures '\n' !in ActionsHeading && '\n' !in BoxLine(box) && '\n' !in ArchiveLine
  {
    match box
    case Unticked => assert '\n' !in UntickedLine;
    case TickedLower => assert '\n' !in TickedLowerLine;
    case TickedUpper => assert '\n' !in TickedUpperLine;
  }

  /** The lines of a record: the lead lines (any of which may hold several
      lines), then `## Actions`, the checkbox, `- [ ] Archive` and the tail. */
  lemma ActionHeadPlain(box: Box)
    ensures SplitEach([ActionsHeading, BoxLine(box), ArchiveLine]) == [ActionsHeading, BoxLine(box), ArchiveLine]
  {
    var ls := [ActionsHeading, BoxLine(box), ArchiveLine];
    ActionLinesPlain(box);
    assert forall i | 0 <= i < 3 :: '\n' !in ls[i];
    SplitEachPlain(ls);
  }

  lemma RecordSplit(f: Fields, box: Box)
    ensures Split(RecordText(f, box))
         == SplitEach(LeadLines(f)) + ([ActionsHeading, BoxLine(box), ArchiveLine] + SplitEach(DraftLines(f.draft)))
  {
    var d := DraftLines(f.draft);
    SplitJoin(RecordLines(f, box));
    SplitEachAppend(LeadLines(f), ActionLines(box, f.draft));
    SplitEachAppend([ActionsHeading, BoxLine(box), ArchiveLine], d);
    ActionHeadPlain(box);
  }

  lemma BoxLineReading(box: Box)
    ensures BoxLine(box) != ActionsHeading
    ensures IsTicked(BoxLine(box)) <==> box != Unticked
  {
    assert BoxLine(box)[0] == '-' != ActionsHeading[0];
    assert UntickedLine[3] == ' ' != TickedLowerLine[3];
    assert UntickedLine[3] != TickedUpperLine[3];
  }

  // Proof helper (models nothing of the source): regroups the checkbox line and the lines after it.
  lemma BoxTailRegroup(a: string, b: string, c: string, s: seq<string>)
    ensures [a, b, c] + s == [a, b] + ([c] + s)
  {
  }

  /** Round trip of the checkbox: whatever the message put into the record,
      the trigger reads back exactly the state of the record's own checkbox. */
  lemma TriggerReadsCheckbox(f: Fields, box: Box)
    ensures Trigger(RecordText(f, box)) <==> box != Unticked
  {
    var tail := [ArchiveLine] + SplitEach(DraftLines(f.draft));
    RecordSplit(f, box);
    TailHasNoHeading(f.draft);
    BoxLineReading(box);
    BoxTailRegroup(ActionsHeading, BoxLine(box), ArchiveLine, SplitEach(DraftLines(f.draft)));
    CheckboxAfterLastHeading(SplitEach(LeadLines(f)), BoxLine(box), tail);
  }

  /** A record fresh from `create_action_file` never asks for a send. */
  lemma FreshRecordIsNoTrigger(f: Fields)
    ensures !Trigger(RecordText(f, Unticked))
  {
    TriggerReadsCheckbox(f, Unticked);
  }

  /** On records the operator ticked, the test as written agrees with the
      intended one. */
  lemma TickedRecordTriggersAsWritten(f: Fields, box: Box)
    requires box != Unticked
    ensures TriggerAsWritten(RecordText(f, box))
  {
    var ls := RecordLines(f, box);
    var k := |LeadLines(f)| + 1;
    assert ls[k] == BoxLine(box);
    JoinContainsPiece(ls, k);
  }

  /** The trigger test as written fires on a fresh, unticked record as soon as
      the message snippet quotes the ticked checkbox text. */
  lemma SnippetFiresTriggerAsWritten(f: Fields)
    requires Contains(f.snippet, TickedLowerLine)
    ensures TriggerAsWritten(RecordText(f, Unticked))
    ensures !Trigger(RecordText(f, Unticked))
  {
    var ls := RecordLines(f, Unticked);
    assert ls[11] == f.snippet;
    JoinContainsPiece(ls, 11);
    ContainsTransitive(RecordText(f, Unticked), f.snippet, TickedLowerLine);
    FreshRecordIsNoTrigger(f);
  }
}
