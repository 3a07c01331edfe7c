# AI employee: email triage and vault workflow, in Dafny

This project models the two pieces of logic at the heart of the AI employee
system and proves properties of them.

* **The triage policy** (`email_processor.py`):
  * the rule-based classifier `_fallback_categorize`;
  * the backend-or-fallback wrappers `categorize_email`, `generate_draft` and
    `generate_auto_reply`;
  * the `send_email` guard;
  * the `process_email` pipeline, which decides on a draft and an
    auto-reply.
* **The vault workflow of `GmailWatcher`** (`gmail_watcher.py`):
  * discovery of unread mail against the in-memory set of handled ids;
  * the markdown action record `create_action_file` writes and the folder
    it routes the record to;
  * the scan of `Inbox` and `Pending_Approval` for a ticked "Reply to sender"
    checkbox;
  * `_process_checked_email`. It reads the sender, the subject and the
    quoted draft back from the record and sends the reply. It then marks
    the record as sent and moves it to `Done`.

The vault is a map from (folder, file name) to file text. The language-model
backend and the mail service are oracles:

* a backend call either raised or returned a value (`Outcomes.Reply`);
* a send either was accepted or was not (`bool`);
* clock readings are parameters.

Modules, in dependency order:

| file | module | what it holds |
|---|---|---|
| outcomes.dfy | `Outcomes` | `Option`, `Reply` |
| text.dfy | `Text` | Python's `in`, `startswith`, `lower`, `replace`, `split('\n')`/`join`, `strip`, `lstrip('> ')`, with lemmas |
| triage.dfy | `Triage` | the triage policy |
| record.dfy | `ActionRecord` | the text of an action record and the checkbox trigger |
| dispatch.dfy | `Dispatch` | the readings `_process_checked_email` takes from a record, the reply, file names |
| sent.dfy | `SentCopy` | the rewrite that marks a dispatched record as sent, and what it does to a record the watcher wrote |
| watcher.dfy | `Watcher` | routing, the store-level dispatch and scan, and the `GmailWatcher` class |

Paths in the table below are relative to the repository root.

## Model

| member | source | states |
|---|---|---|
| Triage.FallbackCategorize | ai-employee-system/email_processor.py:126-153 | Every field is present and the priority is one of URGENT/HIGH/MEDIUM/LOW. The rules apply in the source's precedence: URGENT iff an urgent keyword occurs; HIGH iff no urgent keyword and an important sender; MEDIUM iff none of the earlier rules and an inquiry word; needs_response is false exactly for automated or bulk mail; auto_reply is true exactly when no rule applies, and then the priority is LOW with needs_response true |
| Triage.FallbackIgnoresCase | ai-employee-system/email_processor.py:128-129 | Lower-casing sender, subject and content first does not change the category |
| Triage.UrgentWordWins | ai-employee-system/email_processor.py:128-134 | An urgent keyword in the subject or the content, in any case, gives URGENT, needs_response true and auto_reply false, whoever the sender |
| Triage.CategorizeEmail | ai-employee-system/email_processor.py:67-80 | Without a client, or when the backend raised, the result is exactly the rule-based category; otherwise it is the backend's answer |
| Triage.GenerateDraft | ai-employee-system/email_processor.py:155-164 | Without a client, or when the backend raised, the draft is the fixed template; otherwise the backend's stripped text |
| Triage.GenerateAutoReply | ai-employee-system/email_processor.py:196-219 | Without a client, or when the backend raised, the default acknowledgment; otherwise the backend's stripped text |
| Triage.SendEmail | ai-employee-system/email_processor.py:221-247 | A send succeeds iff a mail service is configured and accepts it |
| Triage.ExtractAddress | ai-employee-system/email_processor.py:351-354 | Without both brackets the whole sender; with both, a strictly shorter text free of `<` and `>` |
| Triage.ExtractAddressOfNamed | ai-employee-system/email_processor.py:351-352 | On `name<addr>rest` the address is exactly `addr` |
| Triage.ProcessEmail | ai-employee-system/email_processor.py:320-373 | Missing fields default to MEDIUM, "", true and ""; a draft exists iff the priority is URGENT or HIGH and a response is needed, and it is `generate_draft`'s text; auto_replied iff LOW, auto_reply set, a service present and the send accepted, and then the outgoing reply is `Re: <subject>` to the extracted address with the acknowledgment text and the suggested action is "Auto-replied and archived" |
| Triage.TriageDeterminate | ai-employee-system/email_processor.py:320-373 | The promise of `ProcessEmail` fixes the result record and the sent mail uniquely |
| Triage.RuleBasedTriage | ai-employee-system/email_processor.py:320-373 | Without a client: an urgent or important message gets the template draft and no auto-reply; auto_replied iff the rules ask for an auto-reply and the service accepts; the body is the default acknowledgment |
| SentCopy.TriggerAsWrittenReadsCheckbox | ai-employee-system/gmail_watcher.py:130-132 | When the message text and draft quote neither ticked checkbox line, the substring trigger as written fires on a record iff its own checkbox is ticked |
| SentCopy.FreshRecordAvoids | ai-employee-system/gmail_watcher.py:256-286 | A fresh record holds a ticked checkbox line only if the message text or draft put it there |
| ActionRecord.TriggerReadsCheckbox | ai-employee-system/gmail_watcher.py:256-286 | For every record the watcher writes, whatever text the message put into it, the corrected trigger fires iff the record's own checkbox is ticked |
| ActionRecord.FreshRecordIsNoTrigger | ai-employee-system/gmail_watcher.py:274-275 | A record fresh from `create_action_file` is never a trigger for the corrected trigger (the test as written can fire, see Findings) |
| ActionRecord.TickedRecordTriggersAsWritten | ai-employee-system/gmail_watcher.py:130-132 | On a record whose checkbox the operator ticked (`x` or `X`) the substring test as written fires |
| ActionRecord.SnippetFiresTriggerAsWritten | ai-employee-system/gmail_watcher.py:130-132 | The substring test as written fires on a fresh, unticked record whose snippet holds `- [x] Reply to sender`, though the checkbox is not ticked |
| Dispatch.Captured | ai-employee-system/gmail_watcher.py:141-149 | The captured, stripped field value is one line with no leading or trailing whitespace |
| Dispatch.FieldSearch | ai-employee-system/gmail_watcher.py:141-142 | A value found by the multi-line search holds no newline |
| Dispatch.SenderReadBack | ai-employee-system/gmail_watcher.py:141-148 | For a sender that is one line holding a visible character, the `from:` search on a record gives back the stripped sender the record was written with |
| Dispatch.SubjectReadBack | ai-employee-system/gmail_watcher.py:142-149 | For a one-line sender and a subject that is one line holding a visible character, the `subject:` search on a record gives back the stripped subject the record was written with (a blank subject reads the next line, see `BlankSubjectReadsNextLine`) |
| Dispatch.BlankSubjectReadsNextLine | ai-employee-system/gmail_watcher.py:142-149 | With a blank subject, `\s*` runs over the line end and the subject read back is the `received:` line that follows |
| Dispatch.QuotedRun | ai-employee-system/gmail_watcher.py:158 | The repeated group `(?:>.*\n?)+` takes a prefix of the text, non-empty iff the text starts with `>` |
| Dispatch.DraftMatch | ai-employee-system/gmail_watcher.py:158 | A match is non-empty, starts with `>` and occurs only in a text holding `## Draft Response` |
| Dispatch.Unquote | ai-employee-system/gmail_watcher.py:161-162 | Each line of the draft group loses its leading run of `>` and spaces, and the number of lines is kept |
| Dispatch.DraftReadBack | ai-employee-system/gmail_watcher.py:158-162 | The reply body read from a record is exactly the draft the record was written with, for drafts that end in a visible character and whose lines start with neither `>` nor a space, when the message put no `## Draft Response` heading into the record |
| Dispatch.NoDraftFallback | ai-employee-system/gmail_watcher.py:163-165 | A record written without a draft, whose message text and backend fields hold no `## Draft Response`, gives the fixed reply text |
| Dispatch.ReplySubject | ai-employee-system/gmail_watcher.py:167 | The reply subject starts with `Re:`; it is the subject itself iff that already starts with `Re:`, else `Re: ` before it |
| Dispatch.ReplySubjectIdempotent | ai-employee-system/gmail_watcher.py:167 | Composing the reply subject twice gives the same as once |
| Dispatch.ComposeReply | ai-employee-system/gmail_watcher.py:141-167 | There is a reply iff the `from:` search matches; its subject starts with `Re:` |
| Dispatch.ComposeFromRecord | ai-employee-system/gmail_watcher.py:141-167 | For a record whose sender and subject are each one line holding a visible character, whose fields hold no `## Draft Response`, and whose draft is empty or ends in a visible character with no line starting with `>` or a space: the reply composed from it goes to the address of the record's sender, about the record's subject, with the record's draft or else the fixed text as body |
| Dispatch.MessageIdRoundTrip | ai-employee-system/gmail_watcher.py:174 | `EMAIL_<id>.md` matches `EMAIL_*.md`, and its stem with `EMAIL_` removed is `id` again, for ids without `EMAIL_` |
| ActionRecord.QuoteLines | ai-employee-system/gmail_watcher.py:283 | The lines of the quoted draft are the draft's own lines, each with `> ` in front |
| SentCopy.SentLines | ai-employee-system/gmail_watcher.py:180-189 | The record marked as sent has one line more than the record: `status: sent` in place of the status line, `sent_at: <time>` just before the `---` closing the front matter, `- [x] Reply to sender (SENT)` in place of the checkbox line, and every other line of the record in its order |
| SentCopy.QuoteAvoids | ai-employee-system/gmail_watcher.py:283 | Quoting the draft creates no occurrence of a one-line text that starts with neither `>` nor a space |
| SentCopy.StatusRewrite | ai-employee-system/gmail_watcher.py:180 | On a record whose message text holds no `status: pending`, the status rewrite changes the status line and nothing else |
| SentCopy.CheckboxRewrite | ai-employee-system/gmail_watcher.py:181-182 | On a ticked record whose message text, backend fields and draft hold none of `status: pending`, `- [x] Reply to sender`, `- [X] Reply to sender` and `## Email Content`, whichever of `x` and `X` was used, the two checkbox rewrites turn exactly the checkbox line into `- [x] Reply to sender (SENT)` |
| SentCopy.InsertBeforeBoundary | ai-employee-system/gmail_watcher.py:185-189 | When `## Email Content` occurs on its own line only, right after `---` and a blank line, the timestamp rewrite inserts the `sent_at:` line before that `---` and changes nothing else |
| SentCopy.SentAtRewrite | ai-employee-system/gmail_watcher.py:185-189 | On a record after the status and checkbox rewrites, the timestamp rewrite inserts `sent_at:` as the last line of the front matter |
| SentCopy.MarkSentRecord | ai-employee-system/gmail_watcher.py:180-189 | The four rewrites turn a ticked record, written for a message whose text holds none of the texts they search for, into exactly the `SentLines` record |
| Watcher.Unprocessed | ai-employee-system/gmail_watcher.py:99-104 | A listed message is kept iff its id is not yet handled |
| Watcher.UnprocessedAppend | ai-employee-system/gmail_watcher.py:104 | The filter acts on each part of a listing separately, so the listing order is kept |
| Watcher.UnprocessedNothingSeen | ai-employee-system/gmail_watcher.py:61 | A watcher that has handled nothing finds the whole listing |
| Watcher.UnprocessedAllSeen | ai-employee-system/gmail_watcher.py:104 | Once every listed id is handled, nothing is found |
| Watcher.FoundIds | ai-employee-system/gmail_watcher.py:213-215 | Handling what was found gives the same handled set as handling the whole listing |
| Watcher.Filed | ai-employee-system/gmail_watcher.py:302-303 | After writing a file, the vault holds its text under its key and the marked ids do not change |
| Watcher.Discover | ai-employee-system/gmail_watcher.py:213-215 | Filing records one after another appends exactly the auto-replies, in order, to the outbox and marks nothing read |
| Watcher.DiscoverFiles | ai-employee-system/gmail_watcher.py:213-215 | After discovery every record written is in the vault, and one that no later record overwrites holds its own text |
| Watcher.DiscoverFrame | ai-employee-system/gmail_watcher.py:213-215 | Discovery leaves every key it does not write as it was |
| Watcher.Route | ai-employee-system/gmail_watcher.py:289-300 | Done iff auto-replied; Pending_Approval iff not auto-replied, URGENT or HIGH, and a non-empty draft; Inbox otherwise |
| Watcher.RecordFields | ai-employee-system/gmail_watcher.py:232-253 | Missing headers become "Unknown", "No Subject" and ""; without a processor the record says MEDIUM and has no draft |
| Watcher.FreshRecordIsPending | ai-employee-system/gmail_watcher.py:261 | Every fresh record holds `status: pending`, including one filed straight into Done |
| Watcher.MoveToDone | ai-employee-system/gmail_watcher.py:192-194 | Only the original and its `Done` copy change. A failed write changes nothing. Otherwise the copy holds the updated text. The original is gone iff the unlink succeeded |
| Watcher.AfterSend | ai-employee-system/gmail_watcher.py:170-194 | After an accepted send the reply is appended to the outbox and the message id to the ids marked as read |
| Watcher.Dispatched | ai-employee-system/gmail_watcher.py:136-202 | The store changes iff the record has a `from:` line, a mail service is configured and it accepts the reply; then the reply sent is the one composed from the record, the id from the file name is marked read and the record is moved as `MoveToDone` says |
| Watcher.Step | ai-employee-system/gmail_watcher.py:126-132 | A listed file changes the store only if it is still there, matches `EMAIL_*.md` and its text holds `- [x] Reply to sender` or `- [X] Reply to sender` anywhere, and then as `Dispatched` says |
| Watcher.StepIntended | ai-employee-system/gmail_watcher.py:126-132 | The corrected step: a listed file changes the store only if it is still there, matches `EMAIL_*.md` and the record's own checkbox line is ticked, and then as `Dispatched` says |
| Watcher.StepFrame | ai-employee-system/gmail_watcher.py:126-132 | One file's step leaves every other folder and every other name in Done as it was |
| Watcher.ScanFrame | ai-employee-system/gmail_watcher.py:120-134 | A scan of a folder touches only that folder and the names it lists in Done |
| Watcher.ScanLogs | ai-employee-system/gmail_watcher.py:120-134 | A scan only appends to the outbox and to the marked ids, one id per reply, at most one reply per listed file |
| Watcher.ScanWithoutSendKeepsAll | ai-employee-system/gmail_watcher.py:170-202 | Without a processor, without a service, or when every send is refused, a scan changes nothing, so ticked records stay to be retried (the watcher builds its processor with the service, gmail_watcher.py:73, so there only refused sends arise) |
| Watcher.FreshRecordStays | ai-employee-system/gmail_watcher.py:130-132 | A fresh record whose message text and draft quote neither ticked checkbox line is not dispatched by the scan as written |
| Watcher.SnippetRecordDispatched | ai-employee-system/gmail_watcher.py:130-132 | A fresh, unticked record whose snippet holds `- [x] Reply to sender` is dispatched by the scan as written: the reply composed from the record goes into the outbox and the id is marked read; the corrected step leaves the store as it was |
| Watcher.StepsAgree | ai-employee-system/gmail_watcher.py:126-132 | On every record the watcher writes whose message text and draft quote neither ticked checkbox line, the step as written and the corrected step give the same store |
| Watcher.TickedRecordSends | ai-employee-system/gmail_watcher.py:136-177 | A ticked record whose send is accepted, with the same conditions on the record as `Dispatch.ComposeFromRecord`, puts into the outbox the reply to the record's sender, about its subject, with its draft or the fixed text, and marks the id from the file name as read |
| Watcher.TickedRecordArchived | ai-employee-system/gmail_watcher.py:180-194 | After an accepted send of a ticked record, whose sender is one line holding a visible character and whose fields and draft hold none of the four texts `SentCopy.CheckboxRewrite` names, unless the write fails, `Done` holds the record marked as sent (`SentLines`), and the original is still in place iff the unlink failed |
| Watcher.MovedRecordSentOnce | ai-employee-system/gmail_watcher.py:192-194 | Once the record was moved, the next scan of the same name sends nothing |
| Watcher.UnlinkFailureResends | ai-employee-system/gmail_watcher.py:192-194 | When the unlink fails after the send, the next scan sends the same reply a second time |
| Watcher.GmailWatcher.constructor | ai-employee-system/gmail_watcher.py:56-80 | A new watcher has handled nothing and sent nothing |
| Watcher.GmailWatcher.CheckForUpdates | ai-employee-system/gmail_watcher.py:99-104 | Returns exactly the listed messages whose id is not yet handled, in listing order |
| Watcher.GmailWatcher.CreateActionFile | ai-employee-system/gmail_watcher.py:225-315 | Triage happens iff there is a processor and then keeps the `process_email` promise. The unticked record is written under `EMAIL_<id>.md` in the routed folder and nothing else in the vault changes (the new store is `Filed` of the old one). The id is added to the handled set and an accepted auto-reply is appended to the outbox |
| Watcher.GmailWatcher.ProcessCheckedEmail | ai-employee-system/gmail_watcher.py:136-202 | The new store is exactly `Dispatched` of the old one; the handled ids do not change |
| Watcher.GmailWatcher.Relocate | ai-employee-system/gmail_watcher.py:192-194 | The vault becomes `MoveToDone` of the old vault; nothing else changes |
| Watcher.GmailWatcher.ScanFolder | ai-employee-system/gmail_watcher.py:126-134 | The new store is exactly `Scan` over the listing, each file tested by the substring trigger as written |
| Watcher.GmailWatcher.ScanForCheckboxTriggers | ai-employee-system/gmail_watcher.py:120-134 | The inbox is scanned first, then Pending_Approval, each with the trigger as written; Done is never scanned |
| Watcher.GmailWatcher.CreateActionFiles | ai-employee-system/gmail_watcher.py:213-215 | The i-th message found got the i-th triage and auto-reply as `create_action_file` promises; the new store is exactly `Discover` of the old one over the records written, in order; the handled set grows by exactly the ids found |
| Watcher.GmailWatcher.RunCycle | ai-employee-system/gmail_watcher.py:210-218 | The messages found are exactly the unhandled ones; the new store is the inbox scan and then the Pending_Approval scan over `Discover` of the old store; every listed id is handled, the same listing yields nothing new, and mail already sent stays in the outbox |

## Left out

- Backend calls (`_claude_categorize`, `_claude_generate_draft`, the backend branch of `generate_auto_reply`). They call a foreign service, so each is an oracle value that either raised or returned. The JSON and markdown-fence cleanup of the answer is not modelled. A returned category is taken as already parsed, with each key possibly missing.
- MIME construction, base64 encoding and the Gmail `list`, `get`, `send` and `modify` calls. They are library I/O. A send is a boolean oracle. The unread listing and each message's headers and snippet are parameters.
- `mark_as_read`: its result is ignored by its caller. The model records each requested id in the `marked` log.
- Notifications, logging, console output and `update_dashboard`. They are side effects that the workflow never reads back.
- OAuth credentials, `.env` loading and the module-level availability switches. The switches become the `processor` option and the `Processor` flags.
- The endless `run` loops, `time.sleep` and `KeyboardInterrupt`. Timing and cancellation are not modelled. One pass is `RunCycle`.
- `folder.exists()` and `mkdir`. Every folder of the map exists.
- The order of `glob` and the files it lists are a parameter, with one send/disk outcome per listed file. A name that is no longer in the vault is skipped, as the source's read error is caught and logged.
- Exceptions while `create_action_file` writes the record are not modelled; the write always succeeds.
- `lower()`, `strip()` and `\s` are modelled for ASCII only, with no Unicode case folding or Unicode whitespace.
- Discovery has no check for a record already on disk. The handled set is in memory only, and a new watcher starts with it empty.
- Dispatch.SenderReadBack: stated only for a sender that is one line holding a visible character. For a blank sender, `\s*` at gmail_watcher.py:141 runs over the line end and reads the `subject:` line; that case is not characterised.
- Dispatch.SubjectReadBack: stated only for a one-line subject holding a visible character. A blank subject reads the `received:` line instead, which `Dispatch.BlankSubjectReadsNextLine` states.
- Dispatch.NoDraftFallback: stated only when no field holds `## Draft Response`. A field holding that heading followed by a `>` line would supply the reply body instead; that case is not characterised.
- Dispatch.ComposeFromRecord: stated only under the conditions of `SenderReadBack`, `SubjectReadBack` and `NoDraftFallback`, and for drafts that end in a visible character and have no line starting with `>` or a space. `lstrip('> ')` at gmail_watcher.py:162 changes such draft lines; that case is not characterised.
- Watcher.TickedRecordSends: stated only under the conditions of `Dispatch.ComposeFromRecord`, for the same reasons.
- SentCopy.CheckboxRewrite: stated only for records whose fields and draft hold none of the four texts the rewrites search for, because `str.replace` at gmail_watcher.py:180-182 would rewrite those occurrences too.
- Watcher.TickedRecordArchived: stated only for a one-line sender with a visible character and under the condition of `SentCopy.MarkSentRecord`, for the reasons given on the `Dispatch.SenderReadBack` and `SentCopy.MarkSentRecord` lines.
- SentCopy.MarkSentRecord: states the result only for records whose sender, subject, received time, priority, reason, snippet, suggested action and draft hold none of `status: pending`, `- [x] Reply to sender`, `- [X] Reply to sender` and `## Email Content`. `str.replace` rewrites every occurrence, so such a text would be rewritten too; that case is not characterised.
- `datetime.now().isoformat()` for `sent_at:` is a parameter of the dispatch (`Attempt.sentAt`).
- The backend's suggested action, reason and priority strings are taken as given. The model does not limit them to the four priority names.

## Findings

| source | as written | input that shows it | evidently intended | confidence | as-written member | corrected member |
|---|---|---|---|---|---|---|
| ai-employee-system/gmail_watcher.py:131 | The trigger is a substring test over the whole file text. That text includes the message's snippet, subject, sender, the backend's reason and the draft | A message whose snippet contains `- [x] Reply to sender`. Its fresh, unticked record is dispatched on the next scan and the reply is sent without the operator ticking anything | The trigger reads the record's own checkbox, the line after the last `## Actions` heading | not executed | ActionRecord.SnippetFiresTriggerAsWritten | ActionRecord.TriggerReadsCheckbox |

The scan in `Watcher` (`Step`, `Scan`, `ScanFolder`) tests the trigger as written. `Watcher.SnippetRecordDispatched` shows the finding on the store: the unticked record is dispatched. `Watcher.StepIntended` is the corrected step, and `Watcher.StepsAgree` shows that the two agree on every record whose message text and draft quote neither ticked checkbox line.
