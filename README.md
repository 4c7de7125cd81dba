# TickGPTick in Dafny

TickGPTick is a bridge between a TickTick account and OpenAI. It polls TickTick for changed tasks. It decomposes every task tagged `expand…` into subtasks, and it replaces every inline `ai{{prompt}}` in a task's content with a short completion. This project models the logic the bridge applies between the network calls:

- `escapeRegExp`, the placeholder tokenizer, the prompt-to-response map, the literal substitution and the changed-content filter of `replaceDescriptionWithAi`;
- the `expand` classifier, the tag stripping of `removeTags`/`removeTagsByPredicate` and the fan-out that strips tags before creating subtasks;
- the subtask records and parent links of `addSubstacksToTask`;
- the hint extraction of `extractParentInformationOrReturnDescription` (regex `exec` loop plus `Set`), the decomposition request and its decoding, and the inline-completion prompt with its fallback;
- the polling loop's `lastChecked`/`loopCount` state, as a class with a `Step` method and a bounded `Run`.

Every network call is an oracle: a field of the `Tasks.Services` record.

- The TickTick posts either accept or reject (`acceptUpdate`, `acceptParents`). The `add` post returns the keys of `id2etag`, or fails (`addTasks`).
- The OpenAI calls return an optional reply (`complete`) or a decoded function-call reply (`decompose`). Each call is indexed by its position in its `Promise.all`.
- `getExpandedNumberFromTags` is the `expandCount` oracle.
- The ISO clock reading of each `addSubstacksToTask` call is `clock`.

A call's effect is an `Outcome`: the writes it issued, in order, and whether it resolved. A write that was issued and then rejected is still listed.

Modules:

- `Text`: literal search, `includes`, replace-all, first-occurrence `replace`, `trimStart`, decimal rendering.
- `Tasks`: the records and the oracles.
- `Placeholders`: the inline-completion side of src/index.js.
- `Tags`: the `expand` classifier and tag stripping.
- `Subtasks`: `addSubstacksToTask`, and the round trip of its content through the hint parser.
- `OpenAI`: src/lib/OpenAI.js.
- `Sync`: `handleTaskCreation`, one poll cycle and the loop.

The regular expressions are modelled by their effect:

- **Placeholder regex** `(?<=ai\{\{)([\s\S]*?)(?=\}\})`: an explicit scanner. A match starts right after an `ai{{` at or after `lastIndex`, ends at the first `}}` from there, and the scan resumes at that `}}`.
- **Hint regex** `/description:?(.*)parent_title:?(.+)|(.*)/gms`: a pure function, `DescriptionMatch`. The first alternative applies only at position 0. The greedy `(.*)` settles on the last `parent_title` that still leaves a character for `(.+)`. The `exec` loop with its Set is kept as a method. Its result is proved equal to `HintCaptures`, which is the distinct non-empty captures, description first.

## Model

| member | source | states |
|---|---|---|
| Text.IndexOf | src/index.js:78-87 | the search loop behind the scan for `ai{{` and `}}` returns the first index at or after `from` where the pattern occurs, or None when there is none |
| Text.FindFrom | src/index.js:78-87 | the result is an occurrence with none before it from `from`; None means no occurrence from `from` |
| Text.ContainsIffFound | src/index.js:49 | `includes` holds iff a search from the start succeeds |
| Text.ReplaceAll | src/index.js:134-137 | replacing a pattern by itself changes nothing; a replacement no longer than the pattern never lengthens the text, one no shorter never shortens it |
| Text.ReplaceAllAbsent | src/index.js:134-137 | a global literal replace of an absent literal leaves the text unchanged |
| Text.ReplaceAllFirst | src/index.js:134-137 | global replace keeps the text before the first occurrence, puts the replacement there and continues after the occurrence |
| Text.ReplaceAllKeepsPrefix | src/index.js:134-137 | a prefix in which no occurrence starts is copied unchanged |
| Text.FindLast | src/lib/OpenAI.js:11 | the greedy `.*` before `parent_title` selects the last occurrence in the allowed range |
| Text.LastUpTo | src/lib/OpenAI.js:11 | an occurrence with none after it up to the bound is what the backward search selects |
| Text.ReplaceFirst | src/lib/OpenAI.js:25 | `replace` with a string pattern puts the replacement in place of the first occurrence and keeps the text on both sides; without an occurrence the text is unchanged |
| Text.ReplaceFirstAfterFree | src/lib/OpenAI.js:25 | in `a + "{}" + b` with no `{` in `a`, the replace gives `a + rep + b` |
| Text.TrimStart | src/lib/OpenAI.js:126 | the result is a suffix, every removed character is ECMAScript white space, and the result does not start with white space |
| Text.NatToString | src/lib/OpenAI.js:37 | the rendered numeral is all digits and denotes the number |
| Placeholders.EscapeLength | src/index.js:33-35 | escaping at most doubles a prompt, and doubles it exactly when every character is a syntax character |
| Placeholders.EscapeOrdinary | src/index.js:33-35 | a prompt without syntax characters is left as it is |
| Placeholders.EscapeRegExpIsLiteral | src/index.js:33-35 | the escaped source of any prompt, read as a regular expression, denotes exactly the prompt |
| Placeholders.EscapeThenLiteral | src/index.js:33-35 | escaping commutes with reading an escaped prefix, so an escaped prompt can be followed by any source |
| Placeholders.EscapeAppend | src/index.js:33-35 | escaping a concatenation concatenates the escaped parts |
| Placeholders.PlaceholderSourceIsWrap | src/index.js:135 | the pattern built for prompt `p` matches exactly the literal `ai{{p}}` |
| Placeholders.NextOpen | src/index.js:78 | the next match starts at the least position after an `ai{{` that lies at or after `lastIndex` |
| Placeholders.SpanNonEmpty | src/index.js:78-87 | without an `ai{{}}` every match is non-empty, so the exec loop advances |
| Placeholders.OccurrencesFrom | src/index.js:78-89 | each span found starts right after an `ai{{` and ends at the first `}}` from its start |
| Placeholders.OccurrencesOrdered | src/index.js:87-89 | the spans are found left to right and do not overlap |
| Placeholders.OccurrencesGapless | src/index.js:78-87 | no `ai{{` between the resume point and a span's start is skipped |
| Placeholders.OccurrencesExhaustive | src/index.js:78-87 | after the last span, no `ai{{` has a later `}}` |
| Placeholders.ScanPlaceholders | src/index.js:82-89 | the while-exec loop returns exactly the spans of the content, in order |
| Placeholders.SpansDelimited | src/index.js:78-88 | each prompt is the text between its `ai{{` and the nearest following `}}` |
| Placeholders.SpansFound | src/index.js:78 | the placeholder of every prompt found occurs literally in the content, so the replacement finds it, and no prompt holds `}}`, as the capture is lazy |
| Placeholders.SpansWithoutOpen | src/index.js:78-91 | content without `ai{{` has no prompts |
| Placeholders.MultilinePrompt | src/index.js:77-78 | a prompt containing a newline is captured whole |
| Placeholders.SingleSpan | src/index.js:78-89 | content with a single `ai{{` has the single prompt from it up to the first `}}` after it |
| Placeholders.TextsAt | src/index.js:88 | the i-th prompt is the text of the i-th span |
| Placeholders.TasksWithPrompts | src/index.js:81-91 | each kept entry is a fetched task paired with the spans of its content, absent content scanned as `""`, and has at least one prompt |
| Placeholders.AllPromptsConcatenates | src/index.js:96 | the prompt pool is every task's spans concatenated in task order, duplicates kept |
| Placeholders.FlattenAppend | src/index.js:96 | flattening a concatenation concatenates the flattened parts |
| Placeholders.Responses | src/index.js:110-112 | one completion call per pool element, in order, each on the prefixed prompt, reply passed through the trim/fallback |
| Placeholders.ResponseMap | src/index.js:115-119 | the map's keys are exactly the pool's prompts |
| Placeholders.ResponseMapLastWins | src/index.js:115-119 | a repeated prompt maps to the response of its last occurrence |
| Placeholders.BuildResponseMap | src/index.js:115-119 | the forEach loop builds exactly that map |
| Placeholders.SubstituteIdentity | src/index.js:126-138 | responses equal to their own placeholders leave the content unchanged |
| Placeholders.SubstituteShortens | src/index.js:126-138 | responses no longer than their placeholders never lengthen the content |
| Placeholders.SubstituteWithoutOpen | src/index.js:126-138 | content with no `ai{{` is returned unchanged |
| Placeholders.Substitute | src/index.js:126-138 | the loop replaces, for each prompt of the original content in order, every literal `ai{{p}}` of the working text by `map[p]` or `''` |
| Placeholders.Rewrite | src/index.js:124-145 | the result is the task with only `content` replaced, by the substitution of its own prompts; absent or empty content returns the task itself |
| Placeholders.RewriteWithoutPrompts | src/index.js:124-145 | a task whose content has no prompts is returned identical |
| Placeholders.RewriteAll | src/index.js:123-145 | one rewritten task per fetched task, in order |
| Placeholders.FirstWithId | src/index.js:146 | `find` by id returns the first task of the batch with that id, or none when no task has it |
| Placeholders.FirstWithIdUnique | src/index.js:146 | with distinct ids, `find` returns the task itself |
| Placeholders.ChangedFrom | src/index.js:146 | the filter keeps exactly the rewritten tasks whose content differs from the fetched content of their id |
| Placeholders.ChangedKeepFields | src/index.js:140-146 | a task sent back is a fetched task with only its content replaced, and that content differs from the snapshot's |
| Placeholders.ReplaceDescriptionWithAi | src/index.js:74-157 | no prompts: no write and success; otherwise a write iff some rewritten task changed, carrying exactly the changed tasks, and its acceptance decides the outcome; each task sent differs in content and equals a fetched task with only `content` replaced |
| Placeholders.SentIffChanged | src/index.js:140-153 | a rewritten task is sent iff its content differs from that of the first fetched task with its id, as `find` returns it |
| Placeholders.SentIffOwnContentChanged | src/index.js:140-153 | with distinct ids, a rewritten task is sent iff its own content changed |
| Placeholders.ChangedWrittenBack | src/index.js:145-150 | a task whose rewritten content differs from the `find` result for its id is in the single update write |
| Placeholders.SummaryExample | src/index.js:123-138 | `desc ai{{summarize X}} more` with the reply `short summary` becomes `desc short summary more` |
| Tags.ExpandableTasks | src/index.js:162-164 | the filter keeps exactly the tasks with a tags list holding a tag that contains `expand` |
| Tags.ExpandableAppend | src/index.js:162-164 | the filter keeps the input order |
| Tags.Unmatched | src/lib/TickTickClient.js:110 | the kept tags are exactly those the predicate rejects |
| Tags.Listed | src/lib/TickTickClient.js:93 | the kept tags are exactly those in the listed set |
| Tags.ListedTags | src/lib/TickTickClient.js:93 | a missing tags list filters to `[]` |
| Tags.RemoveTags | src/lib/TickTickClient.js:90-101 | the result is the task with only `tags` replaced, and every tag left is in the list passed, which is the keep list |
| Tags.RemoveTagsByPredicate | src/lib/TickTickClient.js:108-113 | only `tags` changes |
| Tags.ListedIsUnmatched | src/lib/TickTickClient.js:93-110 | keeping the members of the rejected-by-predicate list is filtering by the predicate |
| Tags.StripKeepsUnmatched | src/lib/TickTickClient.js:93-110 | the double inversion nets out: the tags after stripping are the original tags the predicate rejects, in order with duplicates |
| Tags.StripExpand | src/index.js:48-50 | after stripping, the tags are the original ones without `expand`, none contains `expand`, and only `tags` changed |
| Tags.UnmatchedIdempotent | src/lib/TickTickClient.js:110 | filtering twice is filtering once |
| Tags.StripIdempotent | src/index.js:48-50 | stripping a stripped task changes nothing |
| Tags.UnmatchedAppend | src/lib/TickTickClient.js:110 | the tag filter keeps order |
| Subtasks.DescriptionText | src/lib/TickTickClient.js:129 | a missing description renders as `undefined` |
| Subtasks.SubtaskContent | src/lib/TickTickClient.js:129 | the content's length is fixed by its parts, and it starts with `description` |
| Subtasks.SubtaskRecord | src/lib/TickTickClient.js:120-131 | title from the descriptor, start and modified date the one adding date, due date the parent's or the adding date, project and parent ids, content from description and parent title |
| Subtasks.SubtaskRecords | src/lib/TickTickClient.js:118-131 | one record per descriptor, in descriptor order |
| Subtasks.ParentLinks | src/lib/TickTickClient.js:140-144 | one link per returned key, in key order, under the parent and project |
| Subtasks.AddSubtasks | src/lib/TickTickClient.js:115-155 | the add post comes first; a failed add ends with an error; otherwise the link post follows and decides the outcome |
| Subtasks.AddedUnderParent | src/lib/TickTickClient.js:127-128 | every added record hangs under that parent, in that project |
| Subtasks.SubtaskContentRoundTrip | src/lib/TickTickClient.js:129 | parsing subtask content gives the captures `" "+d+"\n\n"` and `" "+t`, and the two hints in that order |
| Subtasks.SubtaskContentMatch | src/lib/OpenAI.js:11 | the first alternative matches subtask content with exactly those captures |
| Subtasks.SubtaskContentShape | src/lib/TickTickClient.js:129 | the separator's keys and the two captures sit at fixed indices of the content |
| Subtasks.SubtaskKeyIsLast | src/lib/OpenAI.js:11 | the separator's `parent_title` is the last one when the title holds none |
| Subtasks.LaterTitleKey | src/lib/TickTickClient.js:129 | no `parent_title` starts after the separator's own |
| Subtasks.KeyNotAfterSeparator | src/lib/TickTickClient.js:129 | after a head that ends in the separator, a title without `parent_title` contributes none |
| OpenAI.DescriptionMatch | src/lib/OpenAI.js:11 | a match needs `description` at 0 and a later `parent_title` with a character after it; g1 runs to the last such key; g2 is the rest after the optional `:`; otherwise no match |
| OpenAI.CapturesShorter | src/lib/OpenAI.js:11 | the parent capture is non-empty, and both captures are shorter than the content |
| OpenAI.MatchFrom | src/lib/OpenAI.js:11-15 | every exec match is the whole rest of the content, with groups 1 and 2 from the first alternative or group 3 from the second |
| OpenAI.SetAdd | src/lib/OpenAI.js:20 | `Set.add` keeps insertion order and ignores a value already present |
| OpenAI.Truthy | src/lib/OpenAI.js:23 | the filter keeps exactly the non-empty strings, at most as many as given |
| OpenAI.ExecSetCaptures | src/lib/OpenAI.js:14-23 | the Set always holds at least two entries, and dropping the first and filtering gives HintCaptures |
| OpenAI.PlainEmptySet | src/lib/OpenAI.js:14-23 | empty content gives no captures |
| OpenAI.PlainSet | src/lib/OpenAI.js:14-23 | content the first alternative rejects gives no captures: the whole-content match is dropped |
| OpenAI.MatchedSet | src/lib/OpenAI.js:14-23 | a matched content gives `[g2]` when g1 is empty or equals g2, else `[g1, g2]` |
| OpenAI.SameCaptures | src/lib/OpenAI.js:20-23 | equal captures are merged by the Set |
| OpenAI.EmptyDescription | src/lib/OpenAI.js:23 | an empty description capture is filtered out |
| OpenAI.TwoCaptures | src/lib/OpenAI.js:20-23 | distinct non-empty captures are kept in order |
| OpenAI.HintCaptures | src/lib/OpenAI.js:11-23 | at most two distinct non-empty captures; none iff there is no match; the parent capture last, the description capture first when both are kept |
| OpenAI.ContextCaptures | src/lib/OpenAI.js:14-23 | the exec loop with its `lastIndex` bump and Set returns exactly HintCaptures |
| OpenAI.FirstOnly | src/lib/OpenAI.js:23 | a one-entry Set yields its first truthy value |
| OpenAI.CapturesDollarFree | src/lib/OpenAI.js:23-25 | captures of `$`-free content are `$`-free |
| OpenAI.Hints | src/lib/OpenAI.js:6-25 | one hint per capture, at most two, the first filled into template 0 and the second into template 1 |
| OpenAI.TemplatesFill | src/lib/OpenAI.js:6-25 | filling a template replaces its `{}` by the capture |
| OpenAI.NoHintsWithoutDescription | src/lib/OpenAI.js:11-23 | content not starting with `description` gives no hints |
| OpenAI.PriceInContent | src/lib/OpenAI.js:11-25 | `Buy milk for $3` has no hint captures, so it is accepted and gets no hints |
| OpenAI.StepCount | src/lib/OpenAI.js:30 | the step count defaults to 5 only when omitted |
| OpenAI.DecompositionMessages | src/lib/OpenAI.js:36-37 | the request message first, then one user message per hint in order |
| OpenAI.RequestText | src/lib/OpenAI.js:37 | the request text carries the step count as a decimal numeral right after `make exactly `, and the title between the quotes after it |
| OpenAI.DecodeDecomposition | src/lib/OpenAI.js:79-108 | the function-call `tasks` array when present, `[]` without a function call or when the call or parse throws |
| OpenAI.ExpandTask | src/lib/OpenAI.js:30-108 | absent content fails (the hint parser runs outside the `try`); otherwise the decoded reply to the built messages |
| OpenAI.ShortPrompt | src/lib/OpenAI.js:115 | the prompt is the fixed `[short response][non conversational] ` prefix followed by the placeholder's text, which reads back unchanged |
| OpenAI.CompletionText | src/lib/OpenAI.js:118-139 | a failed call gives the fixed error text; a reply is returned with its leading white space removed |
| Sync.ExpandableAreExpansible | src/index.js:162-164 | every expandable task has a tags list, which stripping needs |
| Sync.ExpandCalls | src/index.js:175-180 | one decomposition per expandable task, in order, with the oracle's step count for its tags; all of them resolve iff every task has content |
| Sync.Values | src/index.js:175-180 | when every decomposition succeeded, their results in order |
| Sync.StrippedAll | src/index.js:43-54 | one stripped task per expandable task, in order |
| Sync.StripWrites | src/index.js:43-54 | one single-task update write per stripped task, in order |
| Sync.Join | src/index.js:53-66 | `Promise.all` resolves iff every call does, and the writes issued are those of all the calls |
| Sync.CreateSubTasks | src/index.js:56-67 | one subtask creation per stripped task, with its own descriptors and its `projectId` split off |
| Sync.RemoveTagsAndAddSubTasks | src/index.js:69-72 | the strip writes come first; subtasks are added only when every strip was accepted, and then their outcome decides |
| Sync.RejectedStripsOnlyUpdate | src/index.js:69-72 | when a strip is rejected, only update writes are issued |
| Sync.HandleTaskCreation | src/index.js:159-185 | no expandable task: nothing written; an absent content: nothing written and failure; the strip writes come first; no subtask is added unless every strip was accepted |
| Sync.ResolvedExpansionsFanOut | src/index.js:168-183 | when every decomposition resolved, the round is the tag-stripping fan-out of their results over the expandable tasks |
| Sync.SubtasksUnderExpandable | src/index.js:59-72 | every subtask record hangs under an expandable task, in its project |
| Sync.FanOutUnder | src/index.js:56-67 | every record the subtask fan-out adds hangs under one of the stripped tasks' originals |
| Sync.AddedUnderSome | src/index.js:59-62 | every record added by the fan-out hangs under one of the stripped tasks |
| Sync.StrippedKeepsIds | src/index.js:48-59 | stripping keeps a task's id and project |
| Sync.ProcessUpdate | src/index.js:214-215 | substitution runs only after expansion resolved, and its writes follow expansion's |
| Sync.SubstitutionRestoresExpandTag | src/index.js:122-146 | the substitution writes back the fetched snapshot, so a changed task that was expanded is sent with its `expand` tag again, whether or not ids repeat |
| Sync.CycleOf | src/index.js:192-229 | the checkpoint is adopted iff the fetch returned a bean; the counter is kept only on an empty update; only a non-empty update writes |
| Sync.FailedRoundKeepsCheckpoint | src/index.js:203-215 | a processing failure does not roll back the adopted checkpoint |
| Sync.Cycles | src/index.js:189-229 | one cycle effect per fetch reply of a run, in order |
| Sync.WritesAfter | src/index.js:189-229 | the writes of later cycles only extend those already issued |
| Sync.RequestsAfter | src/index.js:199-203 | the i-th fetch asks for the `lastChecked` the first i cycles left |
| Sync.FailedFetchRetried | src/index.js:199-229 | after a failed fetch, the next fetch asks for the same `dateTime` |
| Sync.CountIsQuietStreak | src/index.js:192-228 | `loopCount` grows by one per quiet cycle |
| Sync.QuietStreakAdds | src/index.js:192-228 | `k` cycles without a reset add `k` to the counter |
| Sync.NoisyCycleResets | src/index.js:210-228 | after a non-empty update or an error, `loopCount` is 0 |
| Sync.FailedFetchesKeepCheckpoint | src/index.js:202-229 | failed fetches leave `lastChecked` unchanged |
| Sync.NoCheckpointKeeps | src/index.js:202-203 | cycles that adopt no checkpoint leave `lastChecked` unchanged |
| Sync.SyncLoop.constructor | src/index.js:187-188 | starts at the clock reading with a zero counter |
| Sync.SyncLoop.Step | src/index.js:189-229 | one cycle: fetch from `lastChecked`, adopt the checkpoint, count or reset, issue the cycle's writes |
| Sync.SyncLoop.Run | src/index.js:189-230 | a bounded run ends in the state and writes the cycle functions give, and logs the `dateTime` each fetch asked for |
| Sync.SyncLoop.Track | src/index.js:189-229 | one cycle of a run moves the loop state and the fetch log from the state after `i` cycles to the state after `i + 1` |

## Left out

- Logging (`logToFile`, `ensureLogDirectory`, every `console.*` call): output only.
- Authentication and the axios transport: the posts and the fetch become the oracles of `Tasks.Services`.
- The OpenAI SDK and `JSON.parse` of the function-call arguments: results of the `decompose` and `complete` oracles. A thrown error is the `Threw` or `None` reply.
- `Promise.all` concurrency: the calls are modelled in array order. When one call of a fan-out fails, the others keep running and nothing waits for them. Each subtask call issues its link post once its own add post resolves, which may be after `Promise.all` has rejected. The model lists all these writes as issued eventually. Interleavings and timing are not modelled.
- `setTimeout` and the unbounded `do … while (true)`: one cycle is `SyncLoop.Step` and a finite sequence of cycles is `SyncLoop.Run`.
- The module-global `pollCount` of the task client: it only throttles logging.
- `getExpandedNumberFromTags`: it is not part of this model. It is the `expandCount` oracle. An exception it throws is not modelled.
- Clock readings (`Date.now()`, `new Date().toISOString()`): parameters (`SyncLoop.constructor`'s `now`, the `clock` oracle).
- The regular-expression engines: both regexes are modelled by the scanner and parser their effect reduces to, not by a general regex semantics.
- Placeholders.ScanPlaceholders, Placeholders.ReplaceDescriptionWithAi: content containing `ai{{}}` is excluded by precondition, because the source's exec loop never advances on that zero-length match.
- Placeholders.Substitute: replies containing `$` are excluded by precondition. `String.replace` would read `$&`, `$1` or `$$` in them as patterns.
- OpenAI.Hints, OpenAI.ExpandTask: a hint capture containing `$` is excluded by precondition, for the same reason. The rest of the content may hold `$`, since only the captures are used as replacements.
- Placeholders.ResponseMap: the prompt `__proto__` is not modelled. Assigning a string to it does not create a key, so the lookup yields `Object.prototype`, which the replace renders as `[object Object]`. Other prompts named like `Object.prototype` members (`toString`) become own keys and behave as the map does.
- Placeholders.Responses: each completion reply depends on the call index and the prompt text only.
- Subtasks.DescriptionText: a descriptor's `description` is absent or a string. A JSON `null`, which renders as `null`, is not distinguished from an absent one, which renders as `undefined`.
- Task records: only the fields the core reads or writes (id, title, content, tags, projectId, dueDate) are modelled; the spreads copy any others unchanged.
- A reply without `syncTaskBean` is an error before the checkpoint is adopted. A bean without `update` adopts the checkpoint and then fails at `update.length`. Both are modelled as error cycles. A non-array `update`, a missing `checkPoint` and non-string titles are not modelled.
- `updateTask` of the task client: it is never called by the core.
