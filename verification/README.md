# Email digest worker — a Dafny model

The system is a small worker that reads a Gmail inbox and sends a
prioritised digest over Telegram. Its core has three parts, and this project
models each of them in Dafny with proofs.

- **The classifier and digest builder** (`summarizer.py`):
  - resolves field aliases on a raw email record (`_get`);
  - decides IGNORAR, BAIXA, ALTA or MEDIA with a fixed rule ladder, with a
    language-model fallback whose reply is validated;
  - moves the ALTA score with a detected due date;
  - deduplicates action lists;
  - groups emails under a normalised subject;
  - sorts the groups by score and count;
  - renders the ALTA, MÉDIA and BAIXA sections.
- **The slot scheduler and alert filter** (`main.py`):
  - parses the `HH:MM` send times;
  - derives a per-day slot identifier;
  - tests the tolerance window around a slot;
  - runs one cycle of `run_once`, which picks the active slot, refuses a slot
    already handled, stamps every fetched item as seen, keeps the items worth
    notifying, stamps them as alerted, and records the slot.
- **The state store** (`state_store.py`):
  - the loader turns a missing or corrupt file into an empty state;
  - the TTL pruning of per-item records.

## Layout

| file | module | contents |
|---|---|---|
| `wrappers.dfy` | `Wrappers` | `Option` (Python `None`) and `Result` (a raised exception) |
| `text.dfy` | `Text` | `str.strip`, ASCII `lower`/`upper`, substring search, whitespace collapsing, `split`/`join`, `str(n)`, `f"{n:0Wd}"`, `int(s)` |
| `calendar.dfy` | `Calendar` | proleptic Gregorian dates, `toordinal`, day differences, `isoformat`, `%d/%m/%Y` |
| `lists.dfy` | `Lists` | `_dedupe_keep_order` |
| `classifier.dfy` | `Classifier` | `_get`, `_norm`, `_contains_any`, `_matches_any`, `_extract_first_date`, `_classify_with_llm` validation, `classify_email` |
| `digest.dfy` | `Digest` | `group_by_subject`, the stable sort, `_format_block`, `build_summary` |
| `scheduler.dfy` | `Scheduler` | `parse_times`, `slot_id`, `within_window`, active-slot search |
| `state_store.dfy` | `StateStore` | `load_state`, `prune_old`, the in-place state document |
| `worker.dfy` | `Worker` | `run_once` |

## Modelling choices

- **Boundaries outside the code are parameters.** The project passes in as
  values:
  - the regex engine (a `Matcher` and a `DateSearch`);
  - the language-model call (`LlmCall`, returning an already-decoded reply
    or `None`);
  - today's date;
  - the two clock readings of `run_once` (`now` and `ts`);
  - the clock reading inside `prune_old`;
  - the items `build_items` returns;
  - whether the Telegram send succeeds.
- **State that the source updates in place is imperative.**
  - `StateStore.StateDoc` is a class whose methods rewrite `items` and
    `sent_slots` like the dict code does.
  - The loops of `parse_times`, `run_once`, `prune_old`,
    `_dedupe_keep_order`, `group_by_subject`, `_format_block` and
    `build_summary` are `while`/`for` loops.
  - Each loop is proved equal to a specification function, and the
    properties are proved about that function.
  - `items.sort` is an in-place insertion sort on an `array`.
- **Python dict order is kept where it matters.** `group_by_subject`'s
  result is an insertion-order key list plus a map, because
  `build_summary`'s stable sort depends on that order.
- **A raised exception is modelled as a value.**
  - `int()`, `split` unpacking and `datetime.replace` raising `ValueError`
    become `None`/`Err`.
  - In `run_once` a raised exception ends the cycle with `Worker.Raised`, and
    nothing is saved.
- **Where the code and the documentation disagree, the model follows the
  code.** The notification filter of `run_once` excludes only bucket
  `"BAIXA"` (main.py:96), not an "ignored" bucket.

## Model

| member | source | states |
|---|---|---|
| Classifier.Get | summarizer.py:107-112 | the stripped text of the first listed key whose value is non-blank text; the default when no key qualifies; absent keys are skipped and never fail |
| Classifier.ContainsAny | summarizer.py:124-129 | true exactly when some keyword is a substring of the stripped, lower-cased text |
| Classifier.MatchesAny | summarizer.py:117-122 | true exactly when some pattern matches the text (any matcher) |
| Classifier.FirstValidDateIsFirst | summarizer.py:136-154 | when separator `i` is the first whose match is a valid calendar date, that date is returned |
| Classifier.ExtractFirstDateTakesFirstValid | summarizer.py:131-155 | the three date patterns are tried in order; the first match that forms a valid date (years below 100 read as 2000+y, a missing year is the current one) is the answer; invalid dates are skipped |
| Classifier.FirstValidDateNone | summarizer.py:136-155 | no date is found exactly when no separator yields a valid date |
| Classifier.ExtractFirstDateNone | summarizer.py:131-155 | `None` exactly for empty text or when no pattern yields a valid calendar date |
| Classifier.StrippedNonBlank | summarizer.py:357 | every kept action is non-blank and the result is never longer than the input; which actions are kept, and in what order, is stated by StrippedNonBlankMembers and StrippedNonBlankAppend |
| Classifier.StrippedNonBlankMembers | summarizer.py:357 | the cleaned actions are exactly the stripped forms of the input actions that are not blank |
| Classifier.StrippedNonBlankAppend | summarizer.py:357 | cleaning works element by element and keeps the order: cleaning a concatenation concatenates the cleaned parts |
| Classifier.CutDedupe | summarizer.py:284 | the first n of a deduplicated list have no repeats, follow first-occurrence order, are drawn from the list, and include every element of it unless the cut was reached |
| Classifier.LlmOneLiner | summarizer.py:353 | the reply's stripped one-liner when it is not blank, and the fixed "Classificado pelo modelo." text when it is; never blank |
| Classifier.LlmActions | summarizer.py:354-371 | the fixed action exactly when no cleaned action is left; otherwise the first four distinct cleaned reply actions in first-occurrence order (all of them when fewer), each drawn from the reply; always one to four distinct non-blank actions |
| Classifier.FromLlmReply | summarizer.py:352-372 | a reply is accepted exactly when its upper-cased, stripped label is one of the four; then score 0/25/55/85 by label, the one-liner and actions are those taken from the reply text, and there is no due date |
| Classifier.ClassifyWithLlm | summarizer.py:326-374 | a classification exists exactly when the model answers (given at most 800 snippet characters) with one of the four labels, and it is then the validated reply; its score is in {0,25,55,85} with a band agreeing with its label, and 1–4 distinct non-blank actions |
| Classifier.DueScore | summarizer.py:249-265 | the due-date score lies between 85 and 100; its value in each band (100/95/90/85 by days until the date) is stated by HighScoreFollowsDueDate |
| Classifier.NonBlank | summarizer.py:284 | keeps exactly the non-blank actions: everything kept is a non-blank input action and every non-blank input action is kept |
| Classifier.NonBlankAppend | summarizer.py:284 | the filter keeps the order: filtering a concatenation concatenates the filtered parts |
| Classifier.HighActions | summarizer.py:253-284 | the first five distinct non-blank candidate actions (the due-date action, with the billing, fraud and school actions put in front and the payment action at the back) in first-occurrence order; every candidate is kept unless five were reached |
| Classifier.HighEmail | summarizer.py:244-295 | the ALTA branch: label ALTA, score 85–100 from the fixed set, 85 with no date and the due-date score otherwise, the detected date kept, at most five distinct non-blank actions |
| Classifier.FixedActionsVisible | summarizer.py:229-320 | the fixed action texts of the non-ALTA rules are not blank |
| Classifier.SubjectVisible | summarizer.py:214 | the subject read by `classify_email` is never blank |
| Classifier.ClassifyEmail | summarizer.py:213-323 | every result's score is one of 0/15/25/55/85/90/95/100; the label agrees with the score band (ALTA ≥ 75, MEDIA 45–74, BAIXA 1–44, IGNORAR exactly 0); at most five distinct non-blank actions; the subject is never blank; only ALTA carries a due date |
| Classifier.RuleLadder | summarizer.py:220-323 | the rule order: an ignore pattern gives IGNORAR/0 before anything else; then a low pattern gives BAIXA/15; then the high rule gives ALTA; then a medium keyword gives MEDIA/55; only then the language model or the BAIXA/25 fallback |
| Classifier.ApplyRule | summarizer.py:220-323 | every rung keeps the subject and yields a consistent record: IGNORAR/0 for the ignore rule, BAIXA/15 for the low rule, the ALTA record for the high rule, MEDIA/55 for the medium rule, and the model-or-fallback answer last |
| Classifier.ModelOrFallback | summarizer.py:309-323 | the model's classification is returned unchanged when there is one; otherwise BAIXA/25 with no due date; the result is consistent either way |
| Classifier.HighScoreFollowsDueDate | summarizer.py:244-295 | an ALTA email scores 85 without a date; with one it scores 100 when overdue or due today, 95 within two days, 90 within a week and 85 later |
| Lists.IndexOf | summarizer.py:377-384 | the index returned is the first occurrence |
| Lists.Dedupe | summarizer.py:377-384 | no repeats, the same elements as the input, no longer than the input |
| Lists.DedupeKeepsFirstOccurrenceOrder | summarizer.py:377-384 | the output lists elements in the order of their first occurrence in the input (so it is a subsequence) |
| Lists.DedupeKeepOrder | summarizer.py:377-384 | the `seen`-set loop computes `Dedupe`: no repeats and exactly the input's elements |
| Digest.SubjectKeyNormalForm | summarizer.py:398 | the group key is empty exactly for a blank subject, has no surrounding whitespace, single spaces only, and no upper-case ASCII letter |
| Digest.SubjectKeyIdempotent | summarizer.py:398 | normalising a key again changes nothing |
| Digest.SubjectKeyIgnoresCase | summarizer.py:398 | subjects differing only in ASCII letter case share a key |
| Digest.StripUpper | summarizer.py:115 | upper-casing commutes with `strip`, because it never turns whitespace into a letter or back |
| Text.StripIdempotent | summarizer.py:110-111 | stripping a stripped text changes nothing |
| Text.CollapseKeepsText | summarizer.py:398 | collapsing whitespace runs keeps every visible character, in order |
| Digest.GroupBy | summarizer.py:391-408 | the grouping is well formed (each key once in order, every ordered key has a group and back) and has no more groups than emails |
| Digest.GroupBySubject | summarizer.py:391-408 | the loop over `grouped` computes `GroupBy` under the subject key |
| Digest.GroupByKeys | summarizer.py:396-407 | every email's key has a group, and each group's representative has that group's key |
| Digest.GroupCounts | summarizer.py:399-407 | a key has a group exactly when some email has it, and the group's count is the number of such emails |
| Digest.AddEmailTotal | summarizer.py:399-407 | one loop step keeps the grouping well formed and raises the total count of the pairs by exactly one |
| Digest.GroupRepIsBest | summarizer.py:400-405 | no email of a group scores above its representative |
| Digest.GroupRepIsFirst | summarizer.py:400-407 | the representative is an email of its group that scores strictly above every earlier email of the group (the earliest best wins ties) |
| Digest.EntriesOf | summarizer.py:418-420 | one `(rep, count)` pair per key, in dict order |
| Digest.GroupCountsAddUp | summarizer.py:391-420 | the group counts sum to the number of emails grouped |
| Digest.SortDescSorted | summarizer.py:423 | the sorted list is in descending (score, count) order |
| Digest.SortDescPermutes | summarizer.py:423 | the sorted list is a permutation of its input |
| Digest.SortDescStable | summarizer.py:423 | pairs with equal (score, count) keep their relative order |
| Digest.InsertStable | summarizer.py:423 | inserting one pair keeps the order of the pairs sharing any (score, count) as if it were appended |
| Digest.SortItems | summarizer.py:423 | sorting a fresh list in place gives `SortDesc` of it |
| Digest.SortDescTotal | summarizer.py:423 | sorting keeps the total count |
| Digest.SortEntries | summarizer.py:423 | the in-place array sort leaves the array equal to `SortDesc` of its old contents |
| Digest.InsertInPlace | summarizer.py:423 | one insertion step in place: the prefix becomes `Insert` of the old prefix and element, the rest of the array is untouched |
| Digest.ActionLines | summarizer.py:458-459 | one `  - a` line per action, in order |
| Digest.EntryLinesShape | summarizer.py:452-460 | each pair's lines start with its numbered heading and end with one blank line after a non-blank one |
| Digest.RawBlockLinesShape | summarizer.py:451-460 | the lines before the final `pop` are empty exactly for no pairs and otherwise end in exactly one blank line |
| Digest.BlockLinesShape | summarizer.py:450-464 | a block is empty exactly for no pairs, never ends with a blank line, and holds the heading `i)` of every pair, numbered from 1 |
| Digest.BlockLinesWithoutActions | summarizer.py:456-463 | without actions each pair takes three lines, less the dropped final blank |
| Digest.FormatBlock | summarizer.py:450-464 | the loop with the trailing `pop` computes `BlockLines` |
| Digest.AppendEntryLines | summarizer.py:452-460 | appends exactly one pair's lines |
| Digest.Relevant | summarizer.py:415 | keeps no IGNORAR email, and is empty exactly when every email is IGNORAR |
| Digest.RelevantExactly | summarizer.py:415 | the filter keeps every non-IGNORAR email as often as it occurs and nothing else (a multiset equation) |
| Digest.RelevantAppend | summarizer.py:415 | the filter keeps the order: filtering a concatenation concatenates the filtered parts |
| Digest.WithPriority | summarizer.py:425-427 | a section holds only pairs of its own priority; that it keeps each of them as often as it occurs, and in list order, is stated by WithPriorityExactly and WithPriorityAppend |
| Digest.WithPriorityExactly | summarizer.py:425-427 | a section keeps every pair of its priority as often as it occurs and nothing else (a multiset equation) |
| Digest.WithPriorityAppend | summarizer.py:425-427 | a section keeps the list order: the section of a concatenation concatenates the sections |
| Digest.ItemsAreRelevant | summarizer.py:415-423 | no IGNORAR email reaches the sorted pairs |
| Digest.WithPriorityPartition | summarizer.py:425-427 | the three sections together account for every count of the pairs |
| Digest.WithPriorityEmpty | summarizer.py:425-447 | a section is empty exactly when no pair has its priority, which is when `build_summary` omits it |
| Digest.WithPrioritySorted | summarizer.py:423-427 | a section taken from a sorted list is sorted and holds only listed pairs |
| Digest.SectionsSorted | summarizer.py:415-447 | for any classified list, each rendered section lists only its own priority, in descending (score, count) order |
| Digest.SummaryCountsEveryRelevantEmail | summarizer.py:415-447 | for any classified list, the counts in the ALTA, MÉDIA and BAIXA sections add up to the length of the filtered list, which is the number of non-IGNORAR emails by RelevantExactly |
| Digest.SummaryEmptyIffAllIgnored | summarizer.py:415-447 | the summary is the fixed "Nada relevante…" text exactly when every email is IGNORAR (or there are none) |
| Digest.SectionCountsAddUp | summarizer.py:415-427 | for non-IGNORAR emails, the counts of the ALTA, MEDIA and BAIXA pairs add up to the number of emails |
| Digest.RenderNotNothing | summarizer.py:429-447 | when any section has a pair, the text is never the "nothing relevant" message |
| Digest.BuildSummary | summarizer.py:411-447 | classify, drop IGNORAR, group, sort, section and render compute `Summary` |
| Digest.SummarizeClassified | summarizer.py:415-447 | dropping IGNORAR, grouping, sorting, sectioning and rendering a classified list computes `SummaryText` |
| Digest.GroupAndSort | summarizer.py:417-423 | the grouped and stably sorted pairs of the kept emails |
| Digest.ListItems | summarizer.py:418-420 | the `grouped.items()` loop lists the pairs in dict order |
| Digest.SectionLines | summarizer.py:429-442 | the lines of the present sections, ALTA then MÉDIA then BAIXA, with a blank line between sections |
| Scheduler.ParseTimes | main.py:30-38 | the loop over the comma-separated parts computes `Times` |
| Scheduler.NoneStaysNone | main.py:32-37 | one malformed part makes the whole call raise |
| Scheduler.SlotsOfDefined | main.py:32-38 | parsing succeeds exactly when every non-blank part is a well-formed `HH:MM`, and then gives one pair per non-blank part |
| Scheduler.SlotsOfSomeParses | main.py:32-37 | when parsing succeeds, every non-blank part is a well-formed `HH:MM` |
| Scheduler.SlotsOfNoneWitness | main.py:32-37 | when parsing raises, some non-blank part is malformed |
| Text.JoinSplit | main.py:32 | joining the parts of `split` with the separator gives the input back |
| Text.ParseIntToString | main.py:37 | `int(str(i)) == i` for every integer |
| Text.ParseIntZeroPad | main.py:37 | `int` reads a zero-padded number back as the number |
| Scheduler.TimesRoundTrip | main.py:30-38 | the comma-joined `HH:MM` texts of any slot list parse back to the same slots in the same order |
| Scheduler.DefaultTimes | main.py:18 | the default setting parses to 06:00, 12:00, 18:00 |
| Scheduler.SplitJoin | main.py:32 | splitting joined separator-free parts gives the parts back |
| Scheduler.Pad2 | main.py:42 | `{n:02d}` of 0–99 is two digits reading back as n |
| Scheduler.SlotId | main.py:41-42 | for hours and minutes below 100 the id is 15 characters: the ISO date, `_`, then four digits |
| Scheduler.IsoFormatInjective | main.py:42 | the ISO text of a date determines the date |
| Scheduler.SlotIdInjective | main.py:41-42 | distinct (date, hh, mm) with two-digit hh and mm give distinct ids |
| Calendar.NextDayIsOneDayLater | summarizer.py:157-159 | the day difference grows by exactly one from a date to the next, across month ends, year ends and leap days |
| Scheduler.ClockMicros | main.py:45-48 | time of day in microseconds lies within one day |
| Scheduler.WithinWindow | main.py:45-48 | `None` (a raised `ValueError`) exactly for an hour outside 0–23 or a minute outside 0–59; otherwise true exactly when now's time of day is within `window` minutes of hh:mm of the same day |
| Scheduler.WithinWindowSameDay | main.py:45-48 | a matching slot's clock minute is within `window` minutes of now's clock minute, so the target never moves to another day |
| Scheduler.WithinWindowAtSlot | main.py:45-48 | exactly at the slot time a non-negative window matches, and a negative window never does |
| Scheduler.ActiveSlotIsFirstMatch | main.py:62-70 | the search returns the first slot in list order whose window holds now; nothing exactly when all slots are valid and none match |
| Scheduler.FindActiveSlot | main.py:63-67 | the loop with `break` computes `ActiveSlot` |
| StateStore.LoadState | state_store.py:11-19 | a missing or unparsable file gives the empty state and never an error; a parsed file is returned unchanged |
| StateStore.PrunedKeepsFresh | state_store.py:34-43 | pruning keeps exactly the records with `now - last_seen ≤ ttl` (a missing stamp reads 0), each unchanged; a missing or non-dict `items` prunes to `{}` |
| StateStore.PruneIdempotent | state_store.py:30-44 | pruning twice with the same clock and TTL equals pruning once |
| StateStore.PruneMonotone | state_store.py:38-42 | a longer TTL keeps at least as much; a record seen at `now` survives any non-negative TTL |
| StateStore.StateDoc.Load | state_store.py:11-19 | loading plus the two `setdefault` calls of `run_once` |
| StateStore.StateDoc.PruneOld | state_store.py:30-44 | the loop rebuilds `items` as `Pruned` of the old value and leaves `sent_slots` untouched |
| StateStore.StateDoc.MarkSeen | main.py:91-93 | the item's record, created when missing, gets `last_seen = ts`; nothing else changes |
| StateStore.StateDoc.MarkAlerted | main.py:110 | the item's record gets `last_alerted = ts`; nothing else changes |
| StateStore.StateDoc.MarkSlotSent | main.py:113 | `sent_slots[sid] = ts`; the items are untouched |
| StateStore.Touch | main.py:91-93 | marking seen sets `last_seen`, keeps `last_alerted`, adds the key and changes no other record |
| StateStore.Alert | main.py:110 | marking alerted sets `last_alerted`, keeps `last_seen` and changes no other record |
| Worker.SelectMembers | main.py:95-101 | the selection holds exactly the fetched items that are eligible: not BAIXA, score at least the cut-off, and never alerted or alerted at least `RE_ALERT_HOURS` ago |
| Worker.ScanTable | main.py:85-93 | after the item loop every fetched key is in the table with `last_seen = ts`, no other record changes, and no `last_alerted` stamp changes |
| Worker.ScanPicks | main.py:85-101 | the item loop picks exactly the eligible items, judged against the table before the loop |
| Worker.ScanItems | main.py:84-101 | the loop over the state document computes the table and the picks of `Scan` |
| Worker.AlertItems | main.py:109-110 | the "marca alertado" loop rewrites the items as `AlertAll` and leaves `sent_slots` alone |
| Worker.Send | main.py:79-114 | the steps after the sent-slot guard compute `Deliver` |
| Worker.ScanFacts | main.py:84-101 | the item loop stamps every fetched key with `last_seen = ts`, leaves other records and all `last_alerted` stamps alone, and picks exactly the items eligible against the table before the loop |
| Worker.AlertAll | main.py:109-110 | alerting keeps the table's keys |
| Worker.AlertAllFacts | main.py:109-110 | `last_alerted = ts` is written on exactly the notified keys, nothing else changes |
| Worker.SelectKeys | main.py:95-110 | every notified key is a fetched key |
| Worker.RunOnce | main.py:51-114 | the cycle as the code runs it, including a fetch that raises, computes `Cycle` |
| Worker.DeliverFacts | main.py:79-114 | from the fetch on: message, saved items and saved slots as in `CompletedCycle` |
| Worker.CompletedCycle | main.py:51-114 | after a completed cycle: the message is exactly the eligible fetched items; every fetched item is seen at `ts`; `last_alerted = ts` on exactly the notified items; other records are as pruning left them; the slot is recorded at `ts` even when nothing was notified |
| Worker.CompletedRecordsSlot | main.py:62-113 | a completed cycle handled the active slot and recorded exactly it at `ts` among the loaded slots |
| Worker.SentSlotStops | main.py:73-77 | a loaded state that records the active slot with a non-zero stamp stops the cycle before anything is fetched |
| Worker.AtMostOneSendPerSlot | main.py:73-77 | once a slot has completed at a non-zero `ts` and been saved, any later cycle with the same active slot id stops before fetching or sending |
| Worker.ZeroStampIsNotSent | main.py:76 | a slot recorded with 0 reads as not sent, so the cycle goes on |
| Worker.QuietCycles | main.py:62-77 | with no active slot the cycle ends without fetching, sending or saving; a slot already handled ends it the same way |
| Worker.FailedFetchRetries | main.py:73-81 | when fetching or scoring the mail raises for a slot not yet handled, the cycle ends with nothing sent or saved, and a later cycle for the same slot from the same stored state is not stopped by the sent-slot guard |

## Left out

- The regex engine behind `_matches_any` and the date patterns is not
  modelled. `Matcher` and `DateSearch` are parameters. The date search
  returns the first match's day, month and optional year groups.
- Unicode is outside the model:
  - `str.strip`, `lower`, `upper` and `\s` are modelled over ASCII
    whitespace and ASCII letters;
  - `int()` is modelled on ASCII digits with an optional sign and surrounding
    whitespace;
  - Unicode digits and underscore separators are not accepted.
- The calendar is modelled only for years 1–9999, the range `datetime`
  accepts. `%Y` is written without zero padding, as glibc's `strftime`
  writes it. A Python build that pads the year to four digits (BSD libc,
  or a recent CPython padding it itself) prints a year below 1000
  differently, e.g. `0999` where the model has `999`.
- Classifier.ClassifyWithLlm does not model the prompt text, the HTTP call
  (`_openai_chat`) or JSON decoding. These are one `LlmCall` parameter that
  yields an already-decoded reply or `None`.
- Gmail, Telegram, WhatsApp, `build_items` and `build_summary_from_items`
  (imported by main.py) are not part of this model. They are represented by:
  - the `fetched` item list, `None` when `list_recent_emails` or
    `build_items` raises (the cycle then ends with `FetchFailed` and
    saves nothing);
  - the `sendOk` flag;
  - the message, as the list of notified items.
- The main loop (`main`, `time.sleep`) and the error printing are left out.
  `save_state` and its temp-file-and-rename atomicity are left out too. A
  completed cycle returns the snapshot that would be written.
- The clocks `datetime.now(TZ)`, `time.time()` and the `now_ts()` inside
  `prune_old` are parameters. Time-zone offsets are left out: both
  `within_window` operands share one zone, so Python subtracts their wall
  clocks.
- Scheduler.WithinWindow compares exact microsecond counts. `total_seconds()`
  is a float, and it can round only for windows of billions of minutes.
- Dict key order of the pruned and updated item tables is not modelled
  (maps). It affects only the layout of the saved JSON.
- Record values other than integer stamps are not modelled: string stamps,
  non-dict records, and a non-dict `sent_slots` or state file.
- Digest.BuildSummary is split into SummarizeClassified, GroupAndSort,
  ListItems, SortItems and SectionLines. Each is proved against its part of
  the same specification.
