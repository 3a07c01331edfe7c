/** What `_process_checked_email` reads from a ticked action record (the
    sender, the subject and the quoted draft) and the reply it composes from
    them. */
module Dispatch {
  import opened Outcomes
  import opened Text
  import opened Triage
  import opened ActionRecord

  const SenderKey := "from:"
  const SubjectKey := "subject:"
  const NoSubject := "No Subject"
  const FallbackBody := "Thank you for your email. I've received it" + " and will follow up shortly."

  // ---------------------------------------------------------------------------
  // `re.search(r'^<key>\s*(.+)$', text, re.MULTILINE).group(1).strip()`

  predicate HasNonNewline(s: string)
  {
    exists i | 0 <= i < |s| :: s[i] != '\n'
  }

  /** The captured group, stripped, once the key matched at a line start and
      the rest of the text holds a character other than a newline: `\s*` runs
      over all whitespace, newlines included, and `(.+)` takes the rest of the
      line it reaches. When only whitespace follows, the group is a single
      whitespace character and strips to "". */
  function Captured(rest: string): (r: string)
    ensures '\n' !in r
    ensures r == [] || (!IsSpace(r[0]) && !IsSpace(r[|r| - 1]))
  {
    var after := LStripSpace(rest);
    if after == [] then []
    else
      var line := TakeUntil(after, '\n');
      assert line[0] == after[0];
      var r := RStripSpace(line);
      assert r != [] ==> r[0] == line[0];
      r
  }

  /** The first line start from which the pattern matches, and its value. */
  function FieldSearch(text: string, key: string): (r: Option<string>)
    ensures r.Some? ==> '\n' !in r.value
    decreases |text|
  {
    if StartsWith(text, key) && HasNonNewline(text[|key|..]) then Some(Captured(text[|key|..]))
    else if '\n' in text then FieldSearch(After(text, '\n'), key)
    else None
  }

  function SenderOf(text: string): Option<string>
  {
    FieldSearch(text, SenderKey)
  }

  function SubjectOf(text: string): string
  {
    FieldSearch(text, SubjectKey).GetOr(NoSubject)
  }

  /** A line that does not start with the key is passed over. */
  lemma FieldSearchSkipsLine(line: string, rest: string, key: string)
    requires '\n' !in line
    requires !StartsWith(line + "\n" + rest, key)
    ensures FieldSearch(line + "\n" + rest, key) == FieldSearch(rest, key)
  {
    AfterConcat(line, rest, '\n');
  }

  /** The key matched at the start of the text, with something after it. */
  lemma FieldSearchAtKey(key: string, t: string)
    requires HasNonNewline(t)
    ensures FieldSearch(key + t, key) == Some(Captured(t))
  {
    assert (key + t)[..|key|] == key;
    assert (key + t)[|key|..] == t;
  }

  /** A value after one space, up to the end of its line, is captured stripped. */
  lemma CapturedValue(v: string, rest: string)
    requires '\n' !in v && HasText(v)
    ensures HasNonNewline(" " + (v + ("\n" + rest)))
    ensures Captured(" " + (v + ("\n" + rest))) == Strip(v)
  {
    var t := " " + (v + ("\n" + rest));
    assert t[0] == ' ';
    assert t[1..] == v + ("\n" + rest);
    LStripSpaceConcat(v, "\n" + rest);
    var lv := LStripSpace(v);
    assert LStripSpace(t) == lv + ("\n" + rest);
    LStripSpaceKeepsOut(v, '\n');
    TakeUntilConcat(lv, "\n" + rest, '\n');
    assert TakeUntil("\n" + rest, '\n') == [];
    assert lv + [] == lv;
  }

  /** A line `key value` with some text in the value yields the value, stripped. */
  lemma FieldSearchReadsLine(key: string, v: string, rest: string)
    requires '\n' !in v && HasText(v)
    ensures FieldSearch(key + (" " + (v + ("\n" + rest))), key) == Some(Strip(v))
  {
    CapturedValue(v, rest);
    FieldSearchAtKey(key, " " + (v + ("\n" + rest)));
  }

  lemma StartsWithHead(s: string, p: string)
    requires p != [] && s != [] && s[0] != p[0]
    ensures !StartsWith(s, p)
  {
  }

  lemma JoinHead(ls: seq<string>)
    requires |ls| >= 2
    ensures Join(ls) == ls[0] + ("\n" + Join(ls[1..]))
  {
  }

  // Proof helper (models nothing of the source): `key value` as a line followed by
  // more text, regrouped to the right-nested shape the field search reads.
  lemma KeyLine(key: string, v: string, rest: string)
    ensures (key + " " + v) + ("\n" + rest) == key + (" " + (v + ("\n" + rest)))
  {
  }

  /** A first line that starts with another character than the key is passed over. */
  lemma SkipFirstLine(ls: seq<string>, key: string)
    requires |ls| >= 2 && key != [] && ls[0] != [] && ls[0][0] != key[0] && '\n' !in ls[0]
    ensures FieldSearch(Join(ls), key) == FieldSearch(Join(ls[1..]), key)
  {
    JoinHead(ls);
    StartsWithHead(Join(ls), key);
    FieldSearchSkipsLine(ls[0], Join(ls[1..]), key);
  }

  /** A first line `key value` is read. */
  lemma ReadFirstLine(ls: seq<string>, key: string, v: string)
    requires |ls| >= 2 && ls[0] == key + " " + v && '\n' !in v && HasText(v)
    ensures FieldSearch(Join(ls), key) == Some(Strip(v))
  {
    JoinHead(ls);
    KeyLine(key, v, Join(ls[1..]));
    FieldSearchReadsLine(key, v, Join(ls[1..]));
  }

  /** Passing over two lines that cannot match. */
  lemma SkipTwoLines(ls: seq<string>, key: string)
    requires |ls| >= 3 && key != []
    requires ls[0] != [] && ls[0][0] != key[0] && '\n' !in ls[0]
    requires ls[1] != [] && ls[1][0] != key[0] && '\n' !in ls[1]
    ensures FieldSearch(Join(ls), key) == FieldSearch(Join(ls[2..]), key)
  {
    SkipFirstLine(ls, key);
    SkipFirstLine(ls[1..], key);
    assert ls[1..][1..] == ls[2..];
  }

  // Proof helper (models nothing of the source): the front-matter lines spelled
  // through the key constants, so the field search can match them.
  lemma FrontMatterKeys()
    ensures "from: " == SenderKey + " " && "subject: " == SubjectKey + " "
    ensures "---"[0] != SenderKey[0] && "type: email"[0] != SenderKey[0]
    ensures "---"[0] != SubjectKey[0] && "type: email"[0] != SubjectKey[0]
    ensures '\n' !in "---" && '\n' !in "type: email"
    ensures forall v :: ("from: " + v)[0] != SubjectKey[0]
  {
  }

  /** A blank value and its newline are whitespace only. */
  lemma BlankTail(v: string)
    requires '\n' !in v && !HasText(v)
    ensures !HasText(" " + (v + "\n"))
  {
    var blank := " " + (v + "\n");
    forall i | 0 <= i < |blank| ensures IsSpace(blank[i]) {
      if 0 < i < |blank| - 1 { assert blank[i] == v[i - 1]; }
    }
  }

  /** A line that starts with text is captured whole, stripped. */
  lemma CapturedLine(next: string, rest: string)
    requires '\n' !in next && next != [] && !IsSpace(next[0])
    ensures HasNonNewline(next + ("\n" + rest))
    ensures Captured(next + ("\n" + rest)) == Strip(next)
  {
    var y := next + ("\n" + rest);
    assert y[0] == next[0];
    assert LStripSpace(y) == y;
    TakeUntilConcat(next, "\n" + rest, '\n');
    assert TakeUntil("\n" + rest, '\n') == [];
    assert next + [] == next;
    assert LStripSpace(next) == next;
  }

  /** Whitespace in front of the captured text does not change the capture. */
  lemma CapturedAfterBlank(blank: string, y: string)
    requires !HasText(blank) && HasNonNewline(y)
    ensures HasNonNewline(blank + y)
    ensures Captured(blank + y) == Captured(y)
  {
    LStripSpaceBlank(blank, y);
    var i :| 0 <= i < |y| && y[i] != '\n';
    assert (blank + y)[|blank| + i] == y[i];
  }

  /** A key line whose value is blank: the capture moves on to the next line. */
  lemma BlankLineReadsNext(ls: seq<string>, key: string, v: string, next: string)
    requires |ls| >= 3 && ls[0] == key + " " + v && ls[1] == next
    requires '\n' !in v && !HasText(v) && '\n' !in next && next != [] && !IsSpace(next[0])
    ensures FieldSearch(Join(ls), key) == Some(Strip(next))
  {
    var y := next + ("\n" + Join(ls[2..]));
    var blank := " " + (v + "\n");
    JoinHead(ls);
    JoinHead(ls[1..]);
    assert ls[1..][1..] == ls[2..];
    KeyLine(key, v, y);
    assert " " + (v + ("\n" + y)) == blank + y;
    BlankTail(v);
    CapturedLine(next, Join(ls[2..]));
    CapturedAfterBlank(blank, y);
    FieldSearchAtKey(key, blank + y);
  }

  /** Lines opening with `---`, `type: email` and `from: <v>`: the search for
      `from:` reads `v` back. */
  lemma SenderOfLines(ls: seq<string>, v: string)
    requires |ls| >= 4 && ls[0] == "---" && ls[1] == "type: email" && ls[2] == "from: " + v
    requires '\n' !in v && HasText(v)
    ensures SenderOf(Join(ls)) == Some(Strip(v))
  {
    FrontMatterKeys();
    SkipTwoLines(ls, SenderKey);
    ReadFirstLine(ls[2..], SenderKey, v);
  }

  /** The record's own `from:` line is the first one the search finds. */
  lemma SenderReadBack(f: Fields, box: Box)
    requires '\n' !in f.sender && HasText(f.sender)
    ensures SenderOf(RecordText(f, box)) == Some(Strip(f.sender))
  {
    RecordLinesHead(f, box);
    SenderOfLines(RecordLines(f, box), f.sender);
  }

  // Proof helper (models nothing of the source): the `from:` line is one
  // line the `subject:` search passes over.
  lemma SenderLineShape(v: string)
    requires '\n' !in v
    ensures "from: " + v != [] && ("from: " + v)[0] != SubjectKey[0] && '\n' !in "from: " + v
  {
    assert ("from: " + v)[0] == 'f';
  }

  /** Lines opening with `---`, `type: email`, `from: <v>` and `subject: <w>`:
      the search for `subject:` reads `w` back. */
  lemma SubjectOfLines(ls: seq<string>, v: string, w: string)
    requires |ls| >= 5 && ls[0] == "---" && ls[1] == "type: email" && ls[2] == "from: " + v
    requires ls[3] == "subject: " + w
    requires '\n' !in v && '\n' !in w && HasText(w)
    ensures FieldSearch(Join(ls), SubjectKey) == Some(Strip(w))
  {
    FrontMatterKeys();
    SkipTwoLines(ls, SubjectKey);
    SenderLineShape(v);
    SkipFirstLine(ls[2..], SubjectKey);
    assert ls[2..][1..] == ls[3..];
    ReadFirstLine(ls[3..], SubjectKey, w);
  }

  /** The record's own `subject:` line is the first one the search finds. */
  lemma SubjectReadBack(f: Fields, box: Box)
    requires '\n' !in f.sender && '\n' !in f.subject && HasText(f.subject)
    ensures SubjectOf(RecordText(f, box)) == Strip(f.subject)
  {
    RecordLinesHead(f, box);
    SubjectOfLines(RecordLines(f, box), f.sender, f.subject);
  }

  // ---------------------------------------------------------------------------
  // `re.search(r'## Draft Response\s*\n((?:>.*\n?)+)', text)`

  /** After the heading: a whitespace run that ends in a newline, then `>`. The
      run `\s*` gives back characters until `\n` can match, and the quoted
      lines must start right after that newline. */
  predicate QuoteFollows(w: string)
  {
    var rest := LStripSpace(w);
    |rest| < |w| && w[|w| - |rest| - 1] == '\n' && rest != [] && rest[0] == '>'
  }

  /** `(?:>.*\n?)+`: the longest run of lines that start with `>`, each with
      its newline when it has one. */
  function QuotedRun(s: string): (r: string)
    ensures |r| <= |s| && r == s[..|r|]
    ensures r != [] <==> s != [] && s[0] == '>'
    decreases |s|
  {
    if s == [] || s[0] != '>' then []
    else if '\n' in s then TakeUntil(s, '\n') + "\n" + QuotedRun(After(s, '\n'))
    else s
  }

  /** Group 1 of the leftmost match. */
  function DraftMatch(text: string): (r: Option<string>)
    ensures r.Some? ==> r.value != [] && r.value[0] == '>' && Contains(text, DraftHeading)
    decreases |text|
  {
    if StartsWith(text, DraftHeading) && QuoteFollows(text[|DraftHeading|..]) then
      StartsWithContains(text, DraftHeading);
      Some(QuotedRun(LStripSpace(text[|DraftHeading|..])))
    else if text == [] then None
    else
      var r := DraftMatch(text[1..]);
      assert r.Some? ==> Contains(text, DraftHeading) by {
        if r.Some? {
          ContainsRight(text[..1], text[1..], DraftHeading);
          assert text[..1] + text[1..] == text;
        }
      }
      r
  }

  /** `line.lstrip('> ')` on each line. */
  function Unquote(ls: seq<string>): (r: seq<string>)
    ensures |r| == |ls|
    ensures forall i | 0 <= i < |ls| :: r[i] == LStripQuote(ls[i])
  {
    seq(|ls|, i requires 0 <= i < |ls| => LStripQuote(ls[i]))
  }

  /** `'\n'.join(line.lstrip('> ') for line in group.strip().split('\n'))` */
  function ReplyBody(group: string): string
  {
    Join(Unquote(Split(Strip(group))))
  }

  /** The body of the reply: the quoted draft, else the fixed text. */
  function DraftReplyOf(text: string): string
  {
    match DraftMatch(text)
    case Some(group) => ReplyBody(group)
    case None => FallbackBody
  }

  /** Text in which no occurrence of the heading starts is passed over. */
  lemma {:induction false} DraftMatchSkip(pre: string, s: string)
    requires forall i | 0 <= i < |pre| :: !OccursAt(pre + s, DraftHeading, i)
    ensures DraftMatch(pre + s) == DraftMatch(s)
    decreases |pre|
  {
    if pre == [] {
      assert pre + s == s;
    } else {
      var t := pre + s;
      assert !OccursAt(t, DraftHeading, 0);
      assert t[1..] == pre[1..] + s;
      forall i | 0 <= i < |pre[1..]|
        ensures !OccursAt(pre[1..] + s, DraftHeading, i)
      {
        assert !OccursAt(t, DraftHeading, i + 1);
      }
      DraftMatchSkip(pre[1..], s);
    }
  }

  /** One quoted line is taken with its newline, and the run goes on after it. */
  lemma QuotedRunLine(line: string, tail: string)
    requires line != [] && line[0] == '>' && '\n' !in line
    ensures QuotedRun(line + ("\n" + tail)) == line + "\n" + QuotedRun(tail)
  {
    var s := line + ("\n" + tail);
    LineSplit(line, tail);
    assert s[0] == '>';
    assert QuotedRun(s) == TakeUntil(s, '\n') + "\n" + QuotedRun(After(s, '\n'));
  }

  /** A line and the text after its newline. */
  lemma {:induction false} LineSplit(line: string, tail: string)
    requires '\n' !in line
    ensures '\n' in line + ("\n" + tail)
    ensures TakeUntil(line + ("\n" + tail), '\n') == line
    ensures After(line + ("\n" + tail), '\n') == tail
  {
    var s := line + ("\n" + tail);
    assert s[|line|] == '\n';
    if line == [] {
      assert s == "\n" + tail;
      assert s[1..] == tail;
    } else {
      assert s[0] == line[0];
      assert s[1..] == line[1..] + ("\n" + tail);
      LineSplit(line[1..], tail);
      assert line == [line[0]] + line[1..];
    }
  }

  /** Quoted lines followed by a line that does not start with `>`: the group
      is those lines, with their newlines. */
  lemma {:induction false} QuotedRunJoin(ls: seq<string>, rest: string)
    requires |ls| > 0
    requires forall i | 0 <= i < |ls| :: ls[i] != [] && ls[i][0] == '>' && '\n' !in ls[i]
    requires rest == [] || rest[0] != '>'
    ensures QuotedRun(Join(ls) + ("\n" + rest)) == Join(ls) + "\n"
  {
    if |ls| == 1 {
      QuotedRunLine(ls[0], rest);
      assert QuotedRun(rest) == [];
    } else {
      QuotedRunJoin(ls[1..], rest);
      QuotedRunStep(ls, rest);
    }
  }

  lemma QuotedRunStep(ls: seq<string>, rest: string)
    requires |ls| > 1
    requires ls[0] != [] && ls[0][0] == '>' && '\n' !in ls[0]
    requires QuotedRun(Join(ls[1..]) + ("\n" + rest)) == Join(ls[1..]) + "\n"
    ensures QuotedRun(Join(ls) + ("\n" + rest)) == Join(ls) + "\n"
  {
    var x, j := ls[0], Join(ls[1..]);
    var tail := j + ("\n" + rest);
    JoinHead(ls);
    ConcatRegroup(x, j, rest);
    QuotedRunLine(x, tail);
  }

  // Proof helper (models nothing of the source): regroups concatenations of lines.
  lemma ConcatRegroup(x: string, j: string, rest: string)
    ensures (x + ("\n" + j)) + ("\n" + rest) == x + ("\n" + (j + ("\n" + rest)))
    ensures x + "\n" + (j + "\n") == (x + ("\n" + j)) + "\n"
  {
  }

  /** A draft line that `lstrip('> ')` gives back unchanged once quoted. */
  predicate QuoteSafe(line: string)
  {
    line == [] || (line[0] != '>' && line[0] != ' ')
  }

  /** A draft that survives quoting, the regular expression and `strip()`:
      it ends in a visible character and no line starts with `>` or a space. */
  predicate DraftReadable(d: string)
  {
    d != [] && !IsSpace(d[|d| - 1]) && forall i | 0 <= i < |Split(d)| :: QuoteSafe(Split(d)[i])
  }

  /** The quoted draft ends with the draft's last character. */
  lemma QuoteEnd(d: string)
    requires d != [] && d[|d| - 1] != '\n'
    ensures Quote(d) != [] && Quote(d)[|Quote(d)| - 1] == d[|d| - 1]
  {
    var c := d[|d| - 1];
    ReplaceAllSnoc(d[..|d| - 1], c, "\n", "\n> ");
    assert d[..|d| - 1] + [c] == d;
  }

  lemma StripQuoted(q: string)
    requires q != [] && q[0] == '>' && !IsSpace(q[|q| - 1])
    ensures Strip(q + "\n") == q
  {
    var s := q + "\n";
    assert LStripSpace(s) == s;
    assert s[..|s| - 1] == q;
    assert RStripSpace(s) == RStripSpace(q);
  }

  /** `lstrip('> ')` removes exactly the quoting of a safe line. */
  lemma UnquoteLine(line: string)
    requires QuoteSafe(line)
    ensures LStripQuote("> " + line) == line
  {
    var q := "> " + line;
    assert q[0] == '>' && q[1..] == " " + line;
    assert LStripQuote(q) == LStripQuote(" " + line);
    assert (" " + line)[0] == ' ' && (" " + line)[1..] == line;
    assert LStripQuote(" " + line) == LStripQuote(line);
  }

  lemma {:induction false} UnquotePrefixed(ls: seq<string>)
    requires forall i | 0 <= i < |ls| :: QuoteSafe(ls[i])
    ensures Unquote(Prefixed(ls)) == ls
  {
    forall i | 0 <= i < |ls|
      ensures Unquote(Prefixed(ls))[i] == ls[i]
    {
      UnquoteLine(ls[i]);
    }
  }

  /** The group a record yields for a readable draft gives the draft back. */
  lemma ReplyBodyOfQuote(d: string)
    requires DraftReadable(d)
    ensures Quote(d) != [] && Quote(d)[0] == '>'
    ensures ReplyBody(Quote(d) + "\n") == d
  {
    QuoteEnd(d);
    StripQuoted(Quote(d));
    QuoteLines(d);
    UnquotePrefixed(Split(d));
    JoinSplit(d);
  }

  /** The quoted draft is the join of its quoted lines. */
  lemma QuoteAsLines(d: string)
    ensures Quote(d) == Join(Prefixed(Split(d)))
    ensures forall i | 0 <= i < |Prefixed(Split(d))| ::
              Prefixed(Split(d))[i] != [] && Prefixed(Split(d))[i][0] == '>' && '\n' !in Prefixed(Split(d))[i]
  {
    var ls := Split(d);
    JoinSplit(d);
    QuoteJoin(ls);
    forall i | 0 <= i < |ls|
      ensures Prefixed(ls)[i] != [] && Prefixed(ls)[i][0] == '>' && '\n' !in Prefixed(ls)[i]
    {
      assert Prefixed(ls)[i] == "> " + ls[i];
    }
  }

  /** At the record's own heading, the match takes exactly the quoted draft. */
  lemma DraftMatchAtHeading(d: string, rest: string)
    requires DraftReadable(d)
    requires rest == [] || rest[0] != '>'
    ensures DraftMatch(DraftHeading + ("\n" + (Quote(d) + ("\n" + rest)))) == Some(Quote(d) + "\n")
  {
    var q := Quote(d);
    var w := "\n" + (q + ("\n" + rest));
    var t := DraftHeading + w;
    ReplyBodyOfQuote(d);
    assert t[..|DraftHeading|] == DraftHeading && t[|DraftHeading|..] == w;
    assert q[0] == '>';
    LStripNewline(q + ("\n" + rest));
    assert QuoteFollows(w);
    QuoteAsLines(d);
    QuotedRunJoin(Prefixed(Split(d)), rest);
  }

  /** A newline is passed over. */
  lemma DraftMatchSkipNewline(s: string)
    ensures DraftMatch("\n" + s) == DraftMatch(s)
  {
    assert !OccursAt("\n" + s, DraftHeading, 0) by {
      assert ("\n" + s)[0] != DraftHeading[0];
    }
    DraftMatchSkip("\n", s);
  }

  /** Text before a newline that holds no heading is passed over. */
  lemma DraftMatchSkipLine(x: string, s: string)
    requires !Contains(x, DraftHeading)
    ensures DraftMatch(x + "\n" + s) == DraftMatch(s)
  {
    NoOccurrenceBeforeNewline(x, s, DraftHeading);
    DraftMatchSkip(x + "\n", s);
  }

  /** Round trip of the draft: the reply body read from a record is the draft
      the record was written with, whatever box the operator ticked, as long as
      the message put no `## Draft Response` heading into the record. */
  lemma DraftReadBack(f: Fields, box: Box)
    requires DraftReadable(f.draft) && Avoids(f, DraftHeading)
    ensures DraftReplyOf(RecordText(f, box)) == f.draft
  {
    var d := f.draft;
    var acts := Join([ActionsHeading, BoxLine(box), ArchiveLine]);
    var rest := "\n" + DraftHint + "\n";
    var at := DraftHeading + ("\n" + (Quote(d) + ("\n" + rest)));
    RecordTextParts(f, box);
    DraftSectionText(d);
    LeadTextAvoidsHeading(f);
    DraftMatchSkipLine(Join(LeadLines(f)), acts + "\n" + ("\n" + at));
    ActionLinesAvoidHeading(box);
    DraftMatchSkipLine(acts, "\n" + at);
    DraftMatchSkipNewline(at);
    DraftMatchAtHeading(d, rest);
    ReplyBodyOfQuote(d);
  }

  /** A record without a draft gives the fixed reply text. */
  lemma NoDraftFallback(f: Fields, box: Box)
    requires f.draft == [] && Avoids(f, DraftHeading)
    ensures DraftReplyOf(RecordText(f, box)) == FallbackBody
  {
    var lead := Join(LeadLines(f));
    var acts := Join([ActionsHeading, BoxLine(box), ArchiveLine]);
    RecordTextParts(f, box);
    assert Join(DraftLines(f.draft)) == "";
    LeadTextAvoidsHeading(f);
    ActionLinesAvoidHeading(box);
    NotContainsShorter("", DraftHeading);
    ContainsAroundChar(acts, '\n', "", DraftHeading);
    ContainsAroundChar(lead, '\n', acts + "\n" + "", DraftHeading);
  }

  // ---------------------------------------------------------------------------
  // The reply

  /** `f"Re: {subject}" if not subject.startswith("Re:") else subject` */
  function ReplySubject(subject: string): (r: string)
    ensures StartsWith(r, "Re:")
    ensures r == subject <==> StartsWith(subject, "Re:")
    ensures r == subject || r == "Re: " + subject
  {
    if StartsWith(subject, "Re:") then subject else "Re: " + subject
  }

  /** Replying to a reply keeps its subject. */
  lemma ReplySubjectIdempotent(subject: string)
    ensures ReplySubject(ReplySubject(subject)) == ReplySubject(subject)
  {
  }

  /** What `_process_checked_email` would send for a record: nothing when no
      `from:` line matches, else a reply to the sender's address. */
  function ComposeReply(text: string): (r: Option<Outgoing>)
    ensures r.None? <==> SenderOf(text).None?
    ensures r.Some? ==> StartsWith(r.value.subject, "Re:")
  {
    match SenderOf(text)
    case None => None
    case Some(from) => Some(Outgoing(ExtractAddress(from), ReplySubject(SubjectOf(text)), DraftReplyOf(text)))
  }

  /** The reply composed from a record built for a message: to the sender's
      address, about the message's subject, carrying the draft, or the fixed
      text when there is no draft. */
  lemma ComposeFromRecord(f: Fields, box: Box)
    requires '\n' !in f.sender && HasText(f.sender) && '\n' !in f.subject && HasText(f.subject)
    requires Avoids(f, DraftHeading)
    requires f.draft == [] || DraftReadable(f.draft)
    ensures ComposeReply(RecordText(f, box))
         == Some(Outgoing(ExtractAddress(Strip(f.sender)), ReplySubject(Strip(f.subject)),
                          if f.draft == [] then FallbackBody else f.draft))
  {
    SenderReadBack(f, box);
    SubjectReadBack(f, box);
    if f.draft == [] {
      NoDraftFallback(f, box);
    } else {
      DraftReadBack(f, box);
    }
  }

  /** `\s*` runs over line ends: with a blank subject, the `subject:` search
      takes the `received:` line that follows as the subject. */
  lemma BlankSubjectReadsNextLine(f: Fields, box: Box)
    requires '\n' !in f.sender && '\n' !in f.subject && !HasText(f.subject) && '\n' !in f.received
    ensures SubjectOf(RecordText(f, box)) == Strip("received: " + f.received)
  {
    var ls := RecordLines(f, box);
    RecordLinesHead(f, box);
    FrontMatterKeys();
    SkipTwoLines(ls, SubjectKey);
    SkipFirstLine(ls[2..], SubjectKey);
    assert ls[2..][1..] == ls[3..];
    BlankLineReadsNext(ls[3..], SubjectKey, f.subject, "received: " + f.received);
  }

  // ---------------------------------------------------------------------------
  // File names

  /** `EMAIL_<id>.md`, the name `create_action_file` gives a record. */
  function FileName(id: string): string
  {
    "EMAIL_" + id + ".md"
  }

  /** Matches the glob `EMAIL_*.md`. */
  predicate IsRecordName(name: string)
  {
    |name| >= 9 && name[..6] == "EMAIL_" && name[|name| - 3..] == ".md"
  }

  /** `email_file.stem.replace('EMAIL_', '')` */
  function MessageIdOf(name: string): string
    requires IsRecordName(name)
  {
    ReplaceAll(name[..|name| - 3], "EMAIL_", "")
  }

  /** The name of a record gives back its message id, for ids that do not
      themselves contain `EMAIL_`. */
  lemma MessageIdRoundTrip(id: string)
    requires !Contains(id, "EMAIL_")
    ensures IsRecordName(FileName(id))
    ensures MessageIdOf(FileName(id)) == id
  {
    var name := FileName(id);
    assert name[..|name| - 3] == "EMAIL_" + id;
    ReplaceAllAtStart("EMAIL_", id, "");
    ReplaceAllAbsent(id, "EMAIL_", "");
  }
}
