/** The vault workflow of `GmailWatcher`: discovery of unread mail, one action
    record per message routed to a folder, and the scan that sends the reply
    of every record whose checkbox the operator ticked and moves the record to
    `Done`. The vault is a map from (folder, file name) to file text. */
module Watcher {
  import opened Outcomes
  import opened Text
  import opened Triage
  import opened ActionRecord
  import opened Dispatch
  import opened SentCopy

  datatype Folder = Inbox | PendingApproval | Done

  type Key = (Folder, string)

  /** What `messages().get` returns for a message: the `From` and `Subject`
      headers and the snippet, each possibly absent. */
  datatype Message = Message(from: Option<string>, subject: Option<string>, snippet: Option<string>)

  /** An unread message as the service lists it, with what the outside world
      answers while it is handled: its content, the backend's answers, and
      the clock reading taken for `received:`. */
  datatype Arrival = Arrival(id: string, message: Message, backend: Backend, received: string)

  /** How writing the copy to `Done` and unlinking the original went. */
  datatype DiskOutcome = Moved | WriteFails | UnlinkFails

  /** What happens while one ticked record is dispatched: whether the mail
      service accepted the send, how the move went, and the clock reading
      written as `sent_at:`. */
  datatype Attempt = Attempt(accepted: bool, disk: DiskOutcome, sentAt: string)

  /** The part of the world a scan changes: the vault, the mail sent, and the
      message ids asked to be marked as read, in order. */
  datatype Store = Store(vault: map<Key, string>, outbox: seq<Outgoing>, marked: seq<string>)

  // ---------------------------------------------------------------------------
  // Discovery

  /** `check_for_updates`: the unread messages whose id the watcher has not
      handled yet, in listing order. */
  function Unprocessed(unread: seq<Arrival>, seen: set<string>): (r: seq<Arrival>)
    ensures forall m :: m in r <==> m in unread && m.id !in seen
    ensures |r| <= |unread|
  {
    if unread == [] then []
    else if unread[|unread| - 1].id in seen then Unprocessed(unread[..|unread| - 1], seen)
    else Unprocessed(unread[..|unread| - 1], seen) + [unread[|unread| - 1]]
  }

  /** The ids of a listing. */
  function Ids(unread: seq<Arrival>): (r: set<string>)
    ensures forall i | 0 <= i < |unread| :: unread[i].id in r
    ensures forall x | x in r :: exists i | 0 <= i < |unread| :: unread[i].id == x
  {
    set i | 0 <= i < |unread| :: unread[i].id
  }

  /** The filter keeps the listing order: it acts on each part of a listing
      separately. */
  lemma {:induction false} UnprocessedAppend(a: seq<Arrival>, b: seq<Arrival>, seen: set<string>)
    ensures Unprocessed(a + b, seen) == Unprocessed(a, seen) + Unprocessed(b, seen)
    decreases |b|
  {
    if b == [] {
      assert a + b == a;
    } else {
      assert (a + b)[..|a + b| - 1] == a + b[..|b| - 1];
      UnprocessedAppend(a, b[..|b| - 1], seen);
    }
  }

  /** Once every listed id has been seen, discovery on the same listing is empty. */
  lemma {:induction false} UnprocessedAllSeen(unread: seq<Arrival>, seen: set<string>)
    requires Ids(unread) <= seen
    ensures Unprocessed(unread, seen) == []
  {
    if unread != [] {
      var front := unread[..|unread| - 1];
      assert Ids(front) <= Ids(unread) by {
        forall x | x in Ids(front) ensures x in Ids(unread) {
          var i :| 0 <= i < |front| && front[i].id == x;
          assert unread[i].id == x;
        }
      }
      UnprocessedAllSeen(front, seen);
    }
  }

  lemma IdsLast(a: seq<Arrival>)
    requires a != []
    ensures Ids(a) == Ids(a[..|a| - 1]) + {a[|a| - 1].id}
  {
    var n := |a| - 1;
    assert forall i | 0 <= i < n :: a[..n][i] == a[i];
  }

  /** Handling the messages discovery returns covers every id listed. */
  lemma {:induction false} FoundIds(unread: seq<Arrival>, seen: set<string>)
    ensures seen + Ids(Unprocessed(unread, seen)) == seen + Ids(unread)
  {
    if unread != [] {
      var n := |unread| - 1;
      FoundIds(unread[..n], seen);
      IdsLast(unread);
      if unread[n].id !in seen {
        var found := Unprocessed(unread, seen);
        assert found[..|found| - 1] == Unprocessed(unread[..n], seen);
        IdsLast(found);
      }
    }
  }

  /** A watcher that has seen nothing returns the whole listing: there is no
      check for a record already in the vault, so after a restart every
      message still unread is handled again. */
  lemma {:induction false} UnprocessedNothingSeen(unread: seq<Arrival>)
    ensures Unprocessed(unread, {}) == unread
  {
    if unread != [] {
      var n := |unread| - 1;
      UnprocessedNothingSeen(unread[..n]);
      assert unread[..n] + [unread[n]] == unread;
    }
  }

  // ---------------------------------------------------------------------------
  // The action record

  /** The folder `create_action_file` writes a record to. */
  function Route(autoReplied: bool, priority: string, draft: string): (f: Folder)
    ensures f == Done <==> autoReplied
    ensures f == PendingApproval <==> !autoReplied && (priority == URGENT || priority == HIGH) && draft != []
    ensures f == Inbox <==> !autoReplied && !((priority == URGENT || priority == HIGH) && draft != [])
  {
    if autoReplied then Done
    else if (priority == URGENT || priority == HIGH) && draft != [] then PendingApproval
    else Inbox
  }

  /** `processed.get('draft', '')`, where a missing draft is `None`. */
  function DraftText(r: Triage): string
  {
    r.draft.GetOr("")
  }

  /** The values `create_action_file` puts into the record: the triage result,
      or the fixed values used without a processor. */
  function RecordFields(m: Arrival, triage: Option<Triage>): (f: Fields)
    ensures f.sender == m.message.from.GetOr("Unknown")
    ensures f.subject == m.message.subject.GetOr(NoSubject)
    ensures f.snippet == m.message.snippet.GetOr("")
    ensures triage.None? ==> f.priority == MEDIUM && f.draft == []
  {
    var sender := m.message.from.GetOr("Unknown");
    var subject := m.message.subject.GetOr(NoSubject);
    var snippet := m.message.snippet.GetOr("");
    match triage
    case Some(r) =>
      Fields(sender, subject, m.received, r.priority, r.reason, snippet, r.suggestedAction, DraftText(r))
    case None =>
      Fields(sender, subject, m.received, MEDIUM, "Auto-assigned (no AI)", snippet, "Review manually", "")
  }

  /** Where the record for a message goes. */
  function RecordKey(m: Arrival, triage: Option<Triage>): Key
  {
    match triage
    case Some(r) => (Route(r.autoReplied, r.priority, DraftText(r)), FileName(m.id))
    case None => (Inbox, FileName(m.id))
  }

  /** The triage `create_action_file` obtained for `m`: the pipeline's result
      when there is a processor, none otherwise, and an auto-reply only with
      a triage. */
  ghost predicate TriagedAs(p: Option<Processor>, m: Arrival, triage: Option<Triage>, sent: Option<Outgoing>)
  {
    && (triage.Some? <==> p.Some?)
    && (triage.Some? ==>
          IsTriage(p.value, m.backend, m.message.from.GetOr("Unknown"), m.message.subject.GetOr(NoSubject),
                   m.message.snippet.GetOr(""), m.id, triage.value, sent))
    && (triage.None? ==> sent.None?)
  }

  /** The first `|triages|` messages of `found` got the triages and
      auto-replies listed. */
  ghost predicate AllTriaged(p: Option<Processor>, found: seq<Arrival>, triages: seq<Option<Triage>>, sends: seq<Option<Outgoing>>)
  {
    |sends| == |triages| <= |found|
    && forall j | 0 <= j < |triages| :: TriagedAs(p, found[j], triages[j], sends[j])
  }

  lemma AllTriagedLast(p: Option<Processor>, found: seq<Arrival>, triages: seq<Option<Triage>>, sends: seq<Option<Outgoing>>,
                       t: Option<Triage>, out: Option<Outgoing>)
    requires AllTriaged(p, found, triages, sends) && |triages| < |found|
    requires TriagedAs(p, found[|triages|], t, out)
    ensures AllTriaged(p, found, triages + [t], sends + [out])
  {
  }

  /** The auto-replies among `sends`, in order. */
  function SentMail(sends: seq<Option<Outgoing>>): (r: seq<Outgoing>)
    ensures |r| <= |sends|
  {
    if sends == [] then []
    else SentMail(sends[..|sends| - 1]) + (if sends[|sends| - 1].Some? then [sends[|sends| - 1].value] else [])
  }

  /** The file `create_action_file` writes for each message of `found`, the
      i-th with the i-th triage: its key and its unticked record. */
  function Records(found: seq<Arrival>, triages: seq<Option<Triage>>): (r: seq<(Key, string)>)
    requires |triages| == |found|
    ensures |r| == |found|
  {
    seq(|found|, i requires 0 <= i < |found| =>
      (RecordKey(found[i], triages[i]), RecordText(RecordFields(found[i], triages[i]), Unticked)))
  }

  lemma RecordsNext(found: seq<Arrival>, i: int, triages: seq<Option<Triage>>, t: Option<Triage>)
    requires 0 <= i < |found| && |triages| == i
    ensures Records(found[..i + 1], triages + [t])
         == Records(found[..i], triages) + [(RecordKey(found[i], t), RecordText(RecordFields(found[i], t), Unticked))]
  {
    var a, b := Records(found[..i + 1], triages + [t]), Records(found[..i], triages) + [(RecordKey(found[i], t), RecordText(RecordFields(found[i], t), Unticked))];
    assert forall j | 0 <= j < i :: a[j] == b[j];
  }

  lemma WholePrefix(found: seq<Arrival>)
    ensures found[..|found|] == found
  {
  }

  lemma IdsNext(base: set<string>, found: seq<Arrival>, i: int)
    requires 0 <= i < |found|
    ensures base + Ids(found[..i]) + {found[i].id} == base + Ids(found[..i + 1])
  {
    assert found[..i + 1][..i] == found[..i];
    IdsLast(found[..i + 1]);
  }

  /** The store after the file `file` was written and the auto-reply `sent`,
      if any, went out. */
  function Filed(s: Store, file: (Key, string), sent: Option<Outgoing>): (r: Store)
    ensures file.0 in r.vault && r.vault[file.0] == file.1
    ensures r.marked == s.marked
  {
    Store(s.vault[file.0 := file.1], s.outbox + (if sent.Some? then [sent.value] else []), s.marked)
  }

  /** `create_action_file` for each message in order: the i-th file is
      written and the i-th auto-reply sent. */
  function Discover(s: Store, files: seq<(Key, string)>, sends: seq<Option<Outgoing>>): (r: Store)
    requires |sends| == |files|
    ensures r.outbox == s.outbox + SentMail(sends)
    ensures r.marked == s.marked
    decreases |files|
  {
    if files == [] then s
    else
      var n := |files| - 1;
      Filed(Discover(s, files[..n], sends[..n]), files[n], sends[n])
  }

  /** No file after the i-th has the same key. */
  predicate LastUnder(files: seq<(Key, string)>, i: int)
    requires 0 <= i < |files|
  {
    forall j | i < j < |files| :: files[j].0 != files[i].0
  }

  lemma DiscoverLast(s: Store, files: seq<(Key, string)>, sends: seq<Option<Outgoing>>, file: (Key, string), out: Option<Outgoing>)
    requires |sends| == |files|
    ensures Discover(s, files + [file], sends + [out]) == Filed(Discover(s, files, sends), file, out)
  {
    assert (files + [file])[..|files|] == files;
    assert (sends + [out])[..|files|] == sends;
  }

  /** Every file is written, and one that no later file overwrites keeps its
      text. */
  lemma {:induction false} DiscoverFiles(s: Store, files: seq<(Key, string)>, sends: seq<Option<Outgoing>>, i: int)
    requires |sends| == |files| && 0 <= i < |files|
    ensures files[i].0 in Discover(s, files, sends).vault
    ensures LastUnder(files, i) ==> Discover(s, files, sends).vault[files[i].0] == files[i].1
    decreases |files|
  {
    var n := |files| - 1;
    if i < n {
      var pf := files[..n];
      DiscoverFiles(s, pf, sends[..n], i);
      assert pf[i] == files[i];
      if LastUnder(files, i) {
        assert LastUnder(pf, i) by {
          forall j | i < j < n ensures pf[j].0 != pf[i].0 {
            assert pf[j] == files[j];
          }
        }
      }
    }
  }

  /** Discovery leaves every key it does not write as it was. */
  lemma {:induction false} DiscoverFrame(s: Store, files: seq<(Key, string)>, sends: seq<Option<Outgoing>>, k: Key)
    requires |sends| == |files|
    requires forall j | 0 <= j < |files| :: files[j].0 != k
    ensures Agree(Discover(s, files, sends).vault, s.vault, k)
    decreases |files|
  {
    if files != [] {
      var n := |files| - 1;
      assert forall j | 0 <= j < n :: files[..n][j] == files[j];
      DiscoverFrame(s, files[..n], sends[..n], k);
    }
  }

  /** Every fresh record carries `status: pending`, so does the record of an
      auto-replied message filed straight into `Done`. */
  lemma FreshRecordIsPending(f: Fields)
    ensures Contains(RecordText(f, Unticked), StatusPending)
  {
    var ls := RecordLines(f, Unticked);
    assert ls[5] == StatusPending;
    JoinContainsPiece(ls, 5);
  }

  // ---------------------------------------------------------------------------
  // Dispatching a ticked record

  /** Writing the updated record to `Done` and unlinking the original: a
      failed write leaves the vault as it was, a failed unlink leaves the
      original beside the copy. Nothing else in the vault changes. */
  function MoveToDone(vault: map<Key, string>, folder: Folder, name: string, updated: string, disk: DiskOutcome): (r: map<Key, string>)
    requires folder != Done
    ensures forall k | k != (folder, name) && k != (Done, name) :: (k in r <==> k in vault)
    ensures forall k | k in vault && k != (folder, name) && k != (Done, name) :: r[k] == vault[k]
    ensures disk == WriteFails ==> r == vault
    ensures disk != WriteFails ==> (Done, name) in r && r[(Done, name)] == updated
    ensures (folder, name) in r <==> (folder, name) in vault && disk != Moved
    ensures disk == UnlinkFails && (folder, name) in vault ==> r[(folder, name)] == vault[(folder, name)]
  {
    match disk
    case Moved => vault[(Done, name) := updated] - {(folder, name)}
    case WriteFails => vault
    case UnlinkFails => vault[(Done, name) := updated]
  }

  /** The store after the reply `mail` for the record at `(folder, name)` was
      accepted by the mail service: the mail is in the outbox, the message id
      is marked as read, and the record, marked as sent, is moved to `Done` as
      far as the disk lets it. */
  function AfterSend(s: Store, folder: Folder, name: string, mail: Outgoing, id: string, disk: DiskOutcome, sentAt: string): (r: Store)
    requires (folder, name) in s.vault && folder != Done
    ensures r.outbox == s.outbox + [mail] && r.marked == s.marked + [id]
  {
    var updated := MarkSent(s.vault[(folder, name)], sentAt);
    Store(MoveToDone(s.vault, folder, name, updated, disk), s.outbox + [mail], s.marked + [id])
  }

  /** `_process_checked_email` on the record stored at `(folder, name)`: the
      store changes exactly when the record names a sender, a mail service
      is configured and it accepts the reply. */
  function Dispatched(s: Store, p: Option<Processor>, folder: Folder, name: string, a: Attempt): (r: Store)
    requires (folder, name) in s.vault && folder != Done && IsRecordName(name)
    ensures r != s <==> SenderOf(s.vault[(folder, name)]).Some? && p.Some? && p.value.hasService && a.accepted
    ensures r != s ==> ComposeReply(s.vault[(folder, name)]).Some?
    ensures r != s ==> r == AfterSend(s, folder, name, ComposeReply(s.vault[(folder, name)]).value, MessageIdOf(name), a.disk, a.sentAt)
  {
    var text := s.vault[(folder, name)];
    match ComposeReply(text)
    case None => s
    case Some(mail) =>
      if p.Some? && SendEmail(p.value, a.accepted) then
        AfterSend(s, folder, name, mail, MessageIdOf(name), a.disk, a.sentAt)
      else s
  }

  // ---------------------------------------------------------------------------
  // Scanning for ticked checkboxes

  /** One file of the `EMAIL_*.md` listing of a scanned folder. A name that is
      no longer there (its read fails) is skipped; a file holding a ticked
      checkbox text anywhere is dispatched. */
  function Step(s: Store, p: Option<Processor>, folder: Folder, name: string, a: Attempt): (r: Store)
    requires folder != Done
    ensures r != s ==> (folder, name) in s.vault && IsRecordName(name) && TriggerAsWritten(s.vault[(folder, name)])
    ensures r != s ==> r == Dispatched(s, p, folder, name, a)
  {
    if (folder, name) in s.vault && IsRecordName(name) && TriggerAsWritten(s.vault[(folder, name)]) then
      Dispatched(s, p, folder, name, a)
    else s
  }

  /** The step as intended: only a record whose own checkbox line is ticked
      is dispatched. */
  function StepIntended(s: Store, p: Option<Processor>, folder: Folder, name: string, a: Attempt): (r: Store)
    requires folder != Done
    ensures r != s ==> (folder, name) in s.vault && IsRecordName(name) && Trigger(s.vault[(folder, name)])
    ensures r != s ==> r == Dispatched(s, p, folder, name, a)
  {
    if (folder, name) in s.vault && IsRecordName(name) && Trigger(s.vault[(folder, name)]) then
      Dispatched(s, p, folder, name, a)
    else s
  }

  /** The scan of one folder over its listing `names`, the i-th file meeting
      the i-th attempt. */
  function Scan(s: Store, p: Option<Processor>, folder: Folder, names: seq<string>, attempts: seq<Attempt>): Store
    requires folder != Done && |attempts| == |names|
    decreases |names|
  {
    if names == [] then s
    else
      var before := Scan(s, p, folder, names[..|names| - 1], attempts[..|names| - 1]);
      Step(before, p, folder, names[|names| - 1], attempts[|names| - 1])
  }

  /** Keys a scan of `folder` over `names` may not touch. */
  predicate Outside(k: Key, folder: Folder, names: seq<string>)
  {
    k.0 != folder && (k.0 != Done || k.1 !in names)
  }

  /** Two vaults hold the same file, or none, under `k`. */
  predicate Agree(v: map<Key, string>, w: map<Key, string>, k: Key)
  {
    (k in v <==> k in w) && (k in v ==> v[k] == w[k])
  }

  /** A step on `name` leaves every other key of `Done` and of the other
      folders as it was. */
  lemma StepFrame(s: Store, p: Option<Processor>, folder: Folder, name: string, a: Attempt, k: Key)
    requires folder != Done && k.0 != folder && k != (Done, name)
    ensures Agree(Step(s, p, folder, name, a).vault, s.vault, k)
  {
  }

  /** A scan touches only the scanned folder and `Done`, and in `Done` only the
      names it lists. */
  lemma {:induction false} ScanFrame(s: Store, p: Option<Processor>, folder: Folder, names: seq<string>, attempts: seq<Attempt>)
    requires folder != Done && |attempts| == |names|
    ensures forall k: Key | Outside(k, folder, names) :: Agree(Scan(s, p, folder, names, attempts).vault, s.vault, k)
    decreases |names|
  {
    if names != [] {
      var n := |names| - 1;
      var before := Scan(s, p, folder, names[..n], attempts[..n]);
      ScanFrame(s, p, folder, names[..n], attempts[..n]);
      forall k: Key | Outside(k, folder, names)
        ensures Agree(Scan(s, p, folder, names, attempts).vault, s.vault, k)
      {
        assert Outside(k, folder, names[..n]);
        StepFrame(before, p, folder, names[n], attempts[n], k);
      }
    }
  }

  /** Every reply a scan sends is logged with exactly one message id marked
      as read, and the scan only appends to both logs. */
  lemma {:induction false} ScanLogs(s: Store, p: Option<Processor>, folder: Folder, names: seq<string>, attempts: seq<Attempt>)
    requires folder != Done && |attempts| == |names|
    ensures s.outbox <= Scan(s, p, folder, names, attempts).outbox
    ensures s.marked <= Scan(s, p, folder, names, attempts).marked
    ensures |Scan(s, p, folder, names, attempts).outbox| - |s.outbox|
         == |Scan(s, p, folder, names, attempts).marked| - |s.marked|
    ensures |Scan(s, p, folder, names, attempts).outbox| - |s.outbox| <= |names|
    decreases |names|
  {
    if names != [] {
      var n := |names| - 1;
      ScanLogs(s, p, folder, names[..n], attempts[..n]);
    }
  }

  /** Without a mail service, or when every send is refused, a scan changes
      nothing: every ticked record stays where it is and is tried again on
      the next scan. The watcher itself always builds its processor with the
      mail service (gmail_watcher.py:73), so there only the refused sends
      arise; the other two cases cover a processor built without one. */
  lemma {:induction false} ScanWithoutSendKeepsAll(s: Store, p: Option<Processor>, folder: Folder, names: seq<string>, attempts: seq<Attempt>)
    requires folder != Done && |attempts| == |names|
    requires p.None? || !p.value.hasService || forall i | 0 <= i < |attempts| :: !attempts[i].accepted
    ensures Scan(s, p, folder, names, attempts) == s
    decreases |names|
  {
    if names != [] {
      var n := |names| - 1;
      ScanWithoutSendKeepsAll(s, p, folder, names[..n], attempts[..n]);
    }
  }

  /** A record fresh from `create_action_file` is not dispatched, as long as
      the message text quotes neither ticked checkbox line. */
  lemma FreshRecordStays(s: Store, p: Option<Processor>, folder: Folder, name: string, f: Fields, a: Attempt)
    requires folder != Done && (folder, name) in s.vault && s.vault[(folder, name)] == RecordText(f, Unticked)
    requires Avoids(f, TickedLowerLine) && !Contains(f.draft, TickedLowerLine)
    requires Avoids(f, TickedUpperLine) && !Contains(f.draft, TickedUpperLine)
    ensures Step(s, p, folder, name, a) == s
  {
    TriggerAsWrittenReadsCheckbox(f, Unticked);
  }

  /** A fresh, unticked record whose snippet quotes the ticked checkbox line
      is dispatched all the same: the reply goes out and the id is marked as
      read, though nobody ticked anything. */
  lemma SnippetRecordDispatched(s: Store, p: Option<Processor>, folder: Folder, name: string, f: Fields, a: Attempt)
    requires folder != Done && IsRecordName(name)
    requires (folder, name) in s.vault && s.vault[(folder, name)] == RecordText(f, Unticked)
    requires Contains(f.snippet, TickedLowerLine)
    requires '\n' !in f.sender && HasText(f.sender) && '\n' !in f.subject && HasText(f.subject)
    requires Avoids(f, DraftHeading) && (f.draft == [] || DraftReadable(f.draft))
    requires p.Some? && p.value.hasService && a.accepted
    ensures Step(s, p, folder, name, a).outbox
         == s.outbox + [Outgoing(ExtractAddress(Strip(f.sender)), ReplySubject(Strip(f.subject)),
                                 if f.draft == [] then FallbackBody else f.draft)]
    ensures Step(s, p, folder, name, a).marked == s.marked + [MessageIdOf(name)]
    ensures StepIntended(s, p, folder, name, a) == s
  {
    SnippetFiresTriggerAsWritten(f);
    ComposeFromRecord(f, Unticked);
  }

  /** On every record the watcher writes whose message text quotes neither
      ticked checkbox line, the step as written and the step as intended do
      the same. */
  lemma StepsAgree(s: Store, p: Option<Processor>, folder: Folder, name: string, f: Fields, box: Box, a: Attempt)
    requires folder != Done && (folder, name) in s.vault && s.vault[(folder, name)] == RecordText(f, box)
    requires Avoids(f, TickedLowerLine) && !Contains(f.draft, TickedLowerLine)
    requires Avoids(f, TickedUpperLine) && !Contains(f.draft, TickedUpperLine)
    ensures Step(s, p, folder, name, a) == StepIntended(s, p, folder, name, a)
  {
    TriggerAsWrittenReadsCheckbox(f, box);
    TriggerReadsCheckbox(f, box);
  }

  /** A ticked record built for a message, with a mail service that accepts
      it: the reply goes to the sender's address, about the message's
      subject, with the draft or the fixed text as body. */
  lemma TickedRecordSends(s: Store, p: Option<Processor>, folder: Folder, name: string, f: Fields, box: Box, a: Attempt)
    requires folder != Done && IsRecordName(name)
    requires (folder, name) in s.vault && s.vault[(folder, name)] == RecordText(f, box) && box != Unticked
    requires '\n' !in f.sender && HasText(f.sender) && '\n' !in f.subject && HasText(f.subject)
    requires Avoids(f, DraftHeading) && (f.draft == [] || DraftReadable(f.draft))
    requires p.Some? && p.value.hasService && a.accepted
    ensures Step(s, p, folder, name, a).outbox
         == s.outbox + [Outgoing(ExtractAddress(Strip(f.sender)), ReplySubject(Strip(f.subject)),
                                 if f.draft == [] then FallbackBody else f.draft)]
    ensures Step(s, p, folder, name, a).marked == s.marked + [MessageIdOf(name)]
  {
    TickedRecordTriggersAsWritten(f, box);
    ComposeFromRecord(f, box);
  }

  /** The same dispatch seen from the vault: unless the write fails, `Done`
      holds the record marked as sent, and the original stays in place only
      when it could not be unlinked. */
  lemma TickedRecordArchived(s: Store, p: Option<Processor>, folder: Folder, name: string, f: Fields, box: Box, a: Attempt)
    requires folder != Done && IsRecordName(name)
    requires (folder, name) in s.vault && s.vault[(folder, name)] == RecordText(f, box) && box != Unticked
    requires '\n' !in f.sender && HasText(f.sender) && Untouched(f)
    requires p.Some? && p.value.hasService && a.accepted && a.disk != WriteFails
    ensures var r := Step(s, p, folder, name, a);
      (Done, name) in r.vault && r.vault[(Done, name)] == Join(SentLines(f, a.sentAt))
      && ((folder, name) in r.vault <==> a.disk == UnlinkFails)
  {
    TickedRecordTriggersAsWritten(f, box);
    SenderReadBack(f, box);
    MarkSentRecord(f, box, a.sentAt);
  }

  /** Once a record has been sent and moved, a second scan over the same name
      sends nothing more. */
  lemma MovedRecordSentOnce(s: Store, p: Option<Processor>, folder: Folder, name: string, a: Attempt, b: Attempt)
    requires folder != Done && Step(s, p, folder, name, a) != s && a.disk == Moved
    ensures Step(Step(s, p, folder, name, a), p, folder, name, b) == Step(s, p, folder, name, a)
  {
  }

  /** When the original cannot be unlinked after the send, it stays ticked in
      place and the next scan sends the same reply again. */
  lemma UnlinkFailureResends(s: Store, p: Option<Processor>, folder: Folder, name: string, a: Attempt, b: Attempt)
    requires folder != Done && Step(s, p, folder, name, a) != s && a.disk == UnlinkFails && b.accepted
    ensures var mail := ComposeReply(s.vault[(folder, name)]).value;
      Step(Step(s, p, folder, name, a), p, folder, name, b).outbox == s.outbox + [mail, mail]
  {
  }

  // ---------------------------------------------------------------------------
  // The watcher

  /** `GmailWatcher`: the vault it writes to, the ids it has handled since it
      started, and the mail service's side of its work (mail sent, messages
      marked as read). */
  class GmailWatcher {
    var vault: map<Key, string>
    var processedIds: set<string>
    var outbox: seq<Outgoing>
    var marked: seq<string>
    /** `None` when the email processor is not available. */
    const processor: Option<Processor>

    /** A watcher starting on an existing vault has handled nothing yet. */
    constructor (vault: map<Key, string>, processor: Option<Processor>)
      ensures this.vault == vault && this.processor == processor
      ensures processedIds == {} && outbox == [] && marked == []
    {
      this.vault := vault;
      this.processor := processor;
      processedIds := {};
      outbox := [];
      marked := [];
    }

    function State(): Store
      reads this
    {
      Store(vault, outbox, marked)
    }

    /** `check_for_updates` over the unread listing. */
    method CheckForUpdates(unread: seq<Arrival>) returns (found: seq<Arrival>)
      ensures found == Unprocessed(unread, processedIds)
    {
      found := [];
      var i := 0;
      while i < |unread|
        invariant 0 <= i <= |unread|
        invariant found == Unprocessed(unread[..i], processedIds)
      {
        assert unread[..i + 1][..i] == unread[..i];
        if unread[i].id !in processedIds {
          found := found + [unread[i]];
        }
        i := i + 1;
      }
      assert unread[..i] == unread;
    }

    /** `create_action_file`: triage the message when a processor is
        available, write its record into the folder the triage routes it to,
        and remember its id. An auto-reply sent during triage goes out. */
    method CreateActionFile(m: Arrival) returns (key: Key, triage: Option<Triage>, sent: Option<Outgoing>)
      modifies this
      ensures triage.Some? <==> processor.Some?
      ensures triage.Some? ==>
        IsTriage(processor.value, m.backend, m.message.from.GetOr("Unknown"), m.message.subject.GetOr(NoSubject),
                 m.message.snippet.GetOr(""), m.id, triage.value, sent)
      ensures triage.None? ==> sent.None?
      ensures TriagedAs(processor, m, triage, sent)
      ensures key == RecordKey(m, triage)
      ensures State() == Filed(old(State()), (key, RecordText(RecordFields(m, triage), Unticked)), sent)
      ensures vault == old(vault)[key := RecordText(RecordFields(m, triage), Unticked)]
      ensures processedIds == old(processedIds) + {m.id}
      ensures outbox == old(outbox) + (if sent.Some? then [sent.value] else [])
      ensures marked == old(marked)
    {
      var sender := m.message.from.GetOr("Unknown");
      var subject := m.message.subject.GetOr(NoSubject);
      var snippet := m.message.snippet.GetOr("");
      if processor.Some? {
        var r, out := ProcessEmail(processor.value, m.backend, sender, subject, snippet, m.id);
        triage, sent := Some(r), out;
      } else {
        triage, sent := None, None;
      }
      key := RecordKey(m, triage);
      vault := vault[key := RecordText(RecordFields(m, triage), Unticked)];
      processedIds := processedIds + {m.id};
      if sent.Some? {
        outbox := outbox + [sent.value];
      }
    }

    /** `_process_checked_email` on the record at `(folder, name)`. */
    method ProcessCheckedEmail(folder: Folder, name: string, a: Attempt)
      modifies this
      requires (folder, name) in vault && folder != Done && IsRecordName(name)
      ensures State() == Dispatched(old(State()), processor, folder, name, a)
      ensures processedIds == old(processedIds)
    {
      var text := vault[(folder, name)];
      var reply := ComposeReply(text);
      if reply.Some? && processor.Some? && SendEmail(processor.value, a.accepted) {
        outbox := outbox + [reply.value];
        marked := marked + [MessageIdOf(name)];
        var updated := MarkSent(text, a.sentAt);
        Relocate(folder, name, updated, a.disk);
      }
    }

    /** `write_text` of the copy in `Done`, then `unlink` of the original. */
    method Relocate(folder: Folder, name: string, updated: string, disk: DiskOutcome)
      modifies this
      requires folder != Done
      ensures vault == MoveToDone(old(vault), folder, name, updated, disk)
      ensures outbox == old(outbox) && marked == old(marked) && processedIds == old(processedIds)
    {
      match disk {
        case Moved =>
          vault := vault[(Done, name) := updated];
          vault := vault - {(folder, name)};
        case WriteFails =>
        case UnlinkFails =>
          vault := vault[(Done, name) := updated];
      }
    }

    /** The scan of one folder over its `EMAIL_*.md` listing. */
    method ScanFolder(folder: Folder, names: seq<string>, attempts: seq<Attempt>)
      modifies this
      requires folder != Done && |attempts| == |names|
      ensures State() == Scan(old(State()), processor, folder, names, attempts)
      ensures processedIds == old(processedIds)
    {
      var i := 0;
      while i < |names|
        invariant 0 <= i <= |names|
        invariant State() == Scan(old(State()), processor, folder, names[..i], attempts[..i])
        invariant processedIds == old(processedIds)
      {
        assert names[..i + 1][..i] == names[..i] && attempts[..i + 1][..i] == attempts[..i];
        var name := names[i];
        if (folder, name) in vault && IsRecordName(name) && TriggerAsWritten(vault[(folder, name)]) {
          ProcessCheckedEmail(folder, name, attempts[i]);
        }
        i := i + 1;
      }
      assert names[..i] == names && attempts[..i] == attempts;
    }

    /** `scan_for_checkbox_triggers`: the inbox first, then the records
        waiting for approval; `Done` is never scanned. */
    method ScanForCheckboxTriggers(inbox: seq<string>, inboxAttempts: seq<Attempt>,
                                   pending: seq<string>, pendingAttempts: seq<Attempt>)
      modifies this
      requires |inboxAttempts| == |inbox| && |pendingAttempts| == |pending|
      ensures State() == Scan(Scan(old(State()), processor, Inbox, inbox, inboxAttempts),
                              processor, PendingApproval, pending, pendingAttempts)
      ensures processedIds == old(processedIds)
    {
      ScanFolder(Inbox, inbox, inboxAttempts);
      ScanFolder(PendingApproval, pending, pendingAttempts);
    }

    /** `create_action_file` for each message of `found`, in order. */
    method CreateActionFiles(found: seq<Arrival>) returns (triages: seq<Option<Triage>>, sends: seq<Option<Outgoing>>)
      modifies this
      ensures |triages| == |found| && |sends| == |found|
      ensures AllTriaged(processor, found, triages, sends)
      ensures State() == Discover(old(State()), Records(found, triages), sends)
      ensures processedIds == old(processedIds) + Ids(found)
    {
      triages, sends := [], [];
      for i := 0 to |found|
        invariant |triages| == i && |sends| == i
        invariant AllTriaged(processor, found, triages, sends)
        invariant State() == Discover(old(State()), Records(found[..i], triages), sends)
        invariant processedIds == old(processedIds) + Ids(found[..i])
      {
        IdsNext(old(processedIds), found, i);
        var before := State();
        var key, t, out := CreateActionFile(found[i]);
        var file := (key, RecordText(RecordFields(found[i], t), Unticked));
        RecordsNext(found, i, triages, t);
        DiscoverLast(before, Records(found[..i], triages), sends, file, out);
        AllTriagedLast(processor, found, triages, sends, t, out);
        triages, sends := triages + [t], sends + [out];
      }
      WholePrefix(found);
    }

    /** One pass of `run`: every message found unread and not yet handled gets
        its record, then the scan runs over the listings taken afterwards.
        Afterwards the same unread listing yields nothing new. */
    method RunCycle(unread: seq<Arrival>, inbox: seq<string>, inboxAttempts: seq<Attempt>,
                    pending: seq<string>, pendingAttempts: seq<Attempt>)
      returns (found: seq<Arrival>, triages: seq<Option<Triage>>, sends: seq<Option<Outgoing>>)
      modifies this
      requires |inboxAttempts| == |inbox| && |pendingAttempts| == |pending|
      ensures found == Unprocessed(unread, old(processedIds))
      ensures |triages| == |found| && |sends| == |found|
      ensures AllTriaged(processor, found, triages, sends)
      ensures State() == Scan(Scan(Discover(old(State()), Records(found, triages), sends), processor, Inbox, inbox, inboxAttempts),
                              processor, PendingApproval, pending, pendingAttempts)
      ensures processedIds == old(processedIds) + Ids(unread)
      ensures Unprocessed(unread, processedIds) == []
      ensures old(outbox) <= outbox
    {
      found := CheckForUpdates(unread);
      triages, sends := CreateActionFiles(found);
      FoundIds(unread, old(processedIds));
      UnprocessedAllSeen(unread, processedIds);
      var before := State();
      ScanForCheckboxTriggers(inbox, inboxAttempts, pending, pendingAttempts);
      ScanLogs(before, processor, Inbox, inbox, inboxAttempts);
      ScanLogs(Scan(before, processor, Inbox, inbox, inboxAttempts), processor, PendingApproval, pending, pendingAttempts);
    }
  }
}
