# Verified model of the gateway's billing, limiting and channel logic

This project models, in Dafny 4.11, the parts of the gateway backend that hold real state
machines and data-structure refinements, and proves what they promise over every input, every
run or every trace. `dafny verify dfyconfig.toml` checks all of it.

| file | models |
|---|---|
| `ImageTask.dfy`, `ImageOutcomes.dfy`, `ImageRefunds.dfy`, `ResponseRecorder.dfy` | the life cycle of an asynchronous image task: workers, panics, timeouts, the stale-task claimer, the refund retrier and the polling sweep as atomic steps on one database row; what becomes of a charge; the bounded response recorder |
| `SlidingWindow.dfy`, `RateLimit.dfy`, `Admission.dfy` | the sliding-window rule, the queue limiter with its sweep, the pruning limiter and the user/token admission guard |
| `MultiKey.dfy`, `KeyStatusPage.dfy`, `ChannelKeys.dfy` | multi-key channels: a key text and three sparse index maps managed as a list of records; the paged listing; appending keys |
| `ModelNames.dfy`, `UpstreamModels.dfy`, `ChannelScan.dfy` | reconciliation of a channel's models with its upstream; the batched scan over channels |
| `BodyStorage.dfy`, `BodyCache.dfy` | request bodies in memory or on disk, and the global usage counters |
| `JsonString.dfy`, `Utf8Text.dfy`, `OggWalk.dfy`, `OggPages.dfy` | the JSON string writer (section 7 of RFC 8259) with its UTF-8 test (RFC 3629), and the Ogg page walk (section 6 of RFC 3533) |
| `Verification.dfy` | one-time verification codes |
| `Common.dfy`, `Text.dfy`, `Lists.dfy` | bytes and options; splitting, joining, trimming; filtering and first occurrences |

Code that updates objects in place is modelled by classes and loops, each proved against a
function on values; the theorems are about those functions. Clocks, randomness, database errors,
panics and the outcomes of calls into other systems are parameters or explicit choices of a step.
Regular-expression matching is an arbitrary function, and so is JSON array parsing except that
the text of an array is long enough for its elements, commas and brackets.

Where a property the code is meant to have is not true of it on all inputs, the exact condition
under which it holds is proved, together with a run or an input outside it:

- A charge can be lost. A worker ignores whether its consume log was found: if not, the task fails
  with a quota of zero (`ChargeNotFound`). And the polling sweep over failed tasks does not leave out
  image tasks: it clears the quota before it calls for the refund, which then finds nothing to pay
  and reports success (`ChargeSweptAway`, `SweepPayInv`). Such a charge is never paid (`NeverPaid`).
  A failed task can still be paid back if and only if its row carries a quota or a sweep holds its
  claim (`RefundRecoverableIff`); a charge whose log was found is carried, paid or swept
  (`FoundChargeFate`).
- A worker takes whatever status it loads as the one to move away from, so a task loaded in a
  terminal state would be revived (`StartKeepsTerminalIff`), and with two workers on one task the
  same charge could be paid back twice (`DoubleRefundWithTwoWorkers`). The service starts one
  worker for each task, and consume logs come from its relay only; for such runs the load is proved
  to find a live row (`SingleWorkerLoadsLive`) and everything holds (`RefundSafety`).
- The admission guard reads the clock before it takes the lock, so times can step back in the order
  in which submissions are counted. With a lag of at most d the rate holds for every span of a
  minute less d, and for no longer span (`GuardBoundIff`); a full minute needs the times of that user
  or token in order (`LateSubmissionOverruns` for the others).
- Deleting automatically disabled keys when nothing else is left stores nothing for the key column,
  because a blank field is skipped on update: all keys stay and come back enabled. Otherwise the
  keys that remain are stored as lines, so a deletion leaves the intended records if and only if
  those keys hold no line break (as elements of a pretty-printed JSON array do), the first and the
  last are not empty and their text does not parse as an array (`DeleteKey`, `DeleteDisabledKeys`,
  `StoredKeysReadBackIff`, `BlankKeyVanishes`). It also drops a time or reason left beside an enabled
  key (`AllSettledIff`).
- A channel is loaded before its lock is taken. The actions are therefore stated on the loaded copy,
  whatever the row holds by the time it is saved: of two overlapping deletions the first is undone
  (`OverlappingDeletions`). Deleting from a copy is deleting from the row if and only if the row is
  unchanged since, but for the deleted record (`StaleDeletionIff`).
- The page count adds the requested page size to the number of keys, and the sum can wrap: then the
  listing is empty or panics (`LargestSizeFails`). It is right if and only if the sum does not wrap,
  or wraps so far that one page is right again (`ComputedIsIntendedIff`).
- The append branch of a channel update drops the existing keys when their text looks like a JSON
  array but is none (`ExistingAreTheKeysIff`), and what it stores reads back only under the same
  conditions on the existing keys (`AppendReadsBackIff`); a re-enabled key keeps its stored time and reason
  (`AutomaticUpdateKeepsSparseIff`).
- The sweep of the queue limiter is invisible exactly for windows of at most one second more than
  the expiration, if there is a sweep at all, and a maximum of zero still lets the first request
  pass (`RefinesIdealIff`).
- Upstream names with a comma are found again on every check, and an upstream model named like an
  ignore rule can take the rule away, so that what it held back is found next (`ConvergesIff`,
  `RuleOfferedAsModel`).
- Verification codes of two purposes are kept apart if and only if no purpose begins another
  (`AlwaysIntendedIff`); the two in use do not.
- The id cursor only advances past positive ids (`EndsIff`).
- A size limit equal to the largest int64 wraps and stores an empty body (`FromReaderFaithfulIff`);
  an understated length can overrun the disk budget, and so can an honest body whose declared
  length makes the sum with the usage wrap (`StreamKeepsBudgetIff`, `HugeDeclarationOverruns`).
- Memory and disk bodies differ for an empty buffer at the end and for a reader used after it was
  closed (`DiskRefinesMemoryIff`).

## Model

| member | source | states |
|---|---|---|
| ImageTask.CasInv | model/task.go:702-708 | a status-guarded update that expects a non-terminal status can hit only a non-terminal row; it keeps the invariant and leaves terminal rows alone, also when it applies but reports an error |
| ImageTask.StartInv | controller/canvas_image_task.go:455-464 | taking a loaded, non-terminal task into progress keeps the invariant for every outcome of the update |
| ImageTask.FailInv | controller/canvas_image_task.go:584-598 | failing a task from the timeout, overflow, error or panic path keeps the invariant; only a won update leads to a refund |
| ImageTask.SucceedInv | controller/canvas_image_task.go:544-566 | a success stores the whole trimmed upstream response and keeps the invariant |
| ImageTask.PersistInv | model/image_task.go:539-552 | correlating the consume log writes only active rows and only the amount charged |
| ImageTask.StaleClaimInv | model/image_task.go:584-616 | claiming a stale task races with workers under the same guard and keeps the invariant |
| ImageTask.RefundInv | model/image_task.go:182-257 | the refund transaction pays only an unpaid failed row, once, to a claim holder |
| ImageTask.ClaimInv | model/task.go:661-676 | a sweep clears a loaded quota only while the row has it, and nobody else then answers for it |
| ImageTask.SweepPayInv | service/task_polling.go:124-150 | the refund a sweep calls for pays nothing, whatever it reports |
| ImageTask.RestoreInv | model/task.go:678-693 | restoring puts back exactly the cleared quota of an unpaid row |
| ImageTask.NextInv | controller/canvas_image_task.go:428-494 | every step of every actor keeps the invariant and never changes status, winner or result of a terminal row |
| ImageTask.SingleWorkerLoadsLive | controller/canvas_image_task.go:258-261 | when one worker relays the task and charges follow its load, it loads a row that is not terminal, whatever the claimers do |
| ImageTask.RefundSafety | controller/canvas_image_task.go:428-494 | over every interleaving of the worker, claimers, retriers and sweeps: at most one credit, of exactly the charged amount, only on a task ending in failure, by the one actor that moved it there unless the retry paid; successes are never refunded and hold the complete response |
| ImageTask.RefundSafetyOfLiveLoads | controller/canvas_image_task.go:455-464 | the same for any number of workers that load a non-terminal row |
| ImageTask.TerminalForever | controller/canvas_image_task.go:544-598 | once a prefix of a run made the row terminal, the rest leaves status, winner and result so; a credit is final; only the quota of a failed row moves, between zero and the value it failed with |
| ImageOutcomes.RelayOutcome | controller/canvas_image_task.go:474-494 | from execution to the end, whatever others do in between: success with the whole trimmed response if and only if in time, within the limit, 2xx, valid and not blank; failure otherwise, with the refund only after a won update; winner, quota and ledger in each case |
| ImageOutcomes.PanicPath | controller/canvas_image_task.go:443-452 | a panic at any place leads to the correlation of the charge |
| ImageOutcomes.PanicOutcome | controller/canvas_image_task.go:446-451 | and then fails the task with what was found and leads to its refund |
| ImageOutcomes.LoserLeavesRow | controller/canvas_image_task.go:544-547 | a worker that lost the row leaves it alone |
| ImageOutcomes.PersistOutcome | model/image_task.go:539-552 | a correlation writes the charge, and only it, to a row that is still active |
| ImageOutcomes.StaleTaskFails | model/image_task.go:584-616 | a stale task with a log is failed with its charge and goes on to the refund |
| ImageOutcomes.RefundOutcome | model/image_task.go:182-257 | a due refund pays the quota of the row, and any further one changes nothing |
| ImageOutcomes.MaintenanceOutcome | model/image_task.go:760-789 | retention drops the payload of finished tasks only, settling the refund record only |
| ImageRefunds.RefundRecoverableIff | model/image_task.go:621-659 | in every reachable state of a failed task not yet paid back, some continuation pays it if and only if the row carries a quota or a sweep holds its claim |
| ImageRefunds.RetryPaysCharge | model/image_task.go:621-659 | one maintenance pass over a reachable failed row with a quota pays exactly the charge |
| ImageRefunds.ChargeFate | controller/canvas_image_task.go:584-598 | a task that failed with a quota failed with its charge, and the row carries it, or it was paid, or a sweep claimed it; one that failed without never carries or pays any |
| ImageRefunds.FoundChargeFate | controller/canvas_image_task.go:475-481 | a charge whose log was found before the step that failed the task is, for the rest of the run, carried, paid or claimed by a sweep |
| ImageRefunds.FoundIsCarried | model/image_task.go:539-552 | a log the correlation finds becomes the quota that failing the task writes, even if the write of the correlation itself fails |
| ImageRefunds.NeverPaid | service/task_polling.go:106-115 | a failed row without quota and without a sweep holding its claim is not paid in any continuation |
| ImageRefunds.ChargeNotFound | controller/canvas_image_task.go:475 | for every charge, a run of one worker whose log query finds nothing loses it |
| ImageRefunds.ChargeSweptAway | service/task_polling.go:124-140 | for every charge, a run of one worker whose own refund fails and which is then swept loses it |
| ImageTask.StartKeepsTerminalIff | controller/canvas_image_task.go:455-464 | load and start leave a terminal row alone if and only if the loaded row was not terminal |
| ImageRefunds.DoubleRefundWithTwoWorkers | controller/canvas_image_task.go:455-464 | with a second worker on the task, which the service never starts, a run pays any given charge back twice |
| ResponseRecorder.BoundedRecorder.Write | controller/canvas_image_task.go:83-96 | one write reports its full length and keeps the recorder equal to the first `limit` bytes of all that was written |
| ResponseRecorder.RecordAll | controller/canvas_image_task.go:76-96 | for every sequence of writes the body is the first `limit` bytes of their concatenation and overflow holds exactly when there were more |
| RateLimit.InMemoryRateLimiter.Request | common/rate-limit.go:45-70 | answers by the queue rule and records exactly the accepted time, dropping the oldest from a full queue |
| RateLimit.InMemoryRateLimiter.Allow | common/rate-limit.go:74-83 | gives the same answer without recording |
| RateLimit.InMemoryRateLimiter.ClearExpiredItems | common/rate-limit.go:28-42 | one sweep, in any order, removes exactly the keys idle for longer than the expiration |
| RateLimit.Simulates | common/rate-limit.go:45-70 | for every trace and key the queue is the tail of the accepted history and what it lacks has left the window |
| RateLimit.AnswersIdeal | common/rate-limit.go:28-83 | on every trace every answer is: fewer than max accepted requests younger than the duration |
| RateLimit.AcceptedAreSpaced | common/rate-limit.go:45-70 | of the requests the limiter accepted for a key, the one max places later is at least a duration later |
| RateLimit.CleanupInvisible | common/rate-limit.go:28-42 | deleting all sweeps from a trace changes no answer |
| RateLimit.AllowPredictsRequest | common/rate-limit.go:74-83 | a dry run is answered like the request that follows it |
| RateLimit.UnsoundIsWrong | common/rate-limit.go:14-42 | every other configuration has a trace with a wrong answer; a sweep runs only for a positive period |
| RateLimit.RefinesIdealIff | common/init.go:150-155 | the limiter is the sliding window on all traces if and only if every max is at least 1 and, if a sweep runs, every window is at most expiration plus one second |
| Admission.AdmissionState.TakeRate | controller/canvas_image_task.go:160-174 | the pruning loop and the count leave the window and the answer of the specified take |
| Admission.AdmissionState.Guard | controller/canvas_image_task.go:113-122 | the user slot is taken first, the token slot only if it was granted and a token is given |
| Admission.TakeBetween | controller/canvas_image_task.go:160-174 | a take is granted if the window longer by the lag has room, and only if the window shorter by the lag has room, over the full accepted history and for every limit |
| Admission.TakeDecides | controller/canvas_image_task.go:160-174 | with times in order a take answers by the sliding window itself |
| Admission.PruningIsIdeal | controller/canvas_image_task.go:160-174 | the same over whole traces |
| Admission.LimitersAgree | common/rate-limit.go:45-70 | the queue limiter and the pruning limiter give identical answers on every trace of requests and sweeps |
| Admission.GuardDecides | controller/canvas_image_task.go:118-126 | the guard admits exactly a known user with room in the user window and room in the token window if a token is given, counting user slots charged to refused submissions, when the times of that user and of that token are in order |
| Admission.SlotBetween | controller/canvas_image_task.go:118-122 | the same for the user slot of a submission and, once that is granted, for its token slot, over every trace with that lag |
| Admission.SlotsTaken | controller/canvas_image_task.go:120-121 | with times in order: a user slot exactly if the user window has room, also when the token is then refused; a token slot exactly if both have room; nobody else's |
| Admission.GuardBound | controller/canvas_image_task.go:118-126 | for any mix of users and tokens, when a key's times step back by at most a lag, at most 12 admitted submissions of a user and 8 of a token lie in any span of a minute less the lag |
| Admission.LateSubmissionOverruns | controller/canvas_image_task.go:118-119 | a clock read before the lock lets more through: a burst, one submission a minute later and one that read its clock before that are all admitted |
| Admission.GuardBoundIff | controller/canvas_image_task.go:118-126 | spans of a given length keep to the rate on all traces with a given lag if and only if length plus lag is at most a minute |
| MultiKey.Channel.Save | model/channel.go:630-665 | saving skips a blank key, recounts the keys of the text in force and drops statuses past the count |
| MultiKey.Channel.DisableKey | controller/channel.go:1820-1848 | sets the status of one record to 2, or refuses a missing or invalid index and changes nothing |
| MultiKey.Channel.EnableKey | controller/channel.go:1863-1890 | resets one record to enabled without time and reason |
| MultiKey.Channel.EnableAllKeys | controller/channel.go:1905-1914 | resets every record |
| MultiKey.Channel.DisableAllKeys | controller/channel.go:1929-1961 | disables exactly the enabled records and reports how many, or refuses when there is none |
| MultiKey.Channel.DeleteKey | controller/channel.go:1976-2043 | the last key is never deleted; otherwise the channel is the list without that record, every other keeping its status, time and reason under its new index, if and only if the remaining keys survive storage as lines; the stored text and size in either case |
| MultiKey.Channel.DeleteDisabledKeys | controller/channel.go:2056-2109 | reports the number of records of status 3; when the keys of the others survive storage exactly those are left, in order, without times and reasons beside enabled ones; with none left every key stays and is enabled |
| MultiKey.WithoutIndex | controller/channel.go:1994-2026 | the re-indexing loop stands for the list without one position |
| MultiKey.WithoutAutoDisabled | controller/channel.go:2057-2094 | the re-indexing loop stands for the filtered list, for any maps |
| MultiKey.DeletionLeaves | controller/channel.go:2074-2095 | what is left are exactly the records of another status than 3, in order, and the rest is counted |
| MultiKey.AllSettledIff | controller/channel.go:2080-2091 | that list is the plain filter if and only if no enabled key has a time or reason |
| MultiKey.WithoutKeepsSparse | controller/channel.go:1994-2026 | deleting keeps indices in range and times and reasons to disabled keys |
| MultiKey.WithEnabledDisabled | controller/channel.go:1941-1953 | the disabling loop touches exactly the enabled indices and counts them |
| MultiKey.Channel.Replace | controller/channel.go:2036-2043 | storing a rebuilt list and its maps: the text in force, the recounted size and the maps |
| MultiKey.Rebuilt | model/channel.go:201-223 | a shorter list written over a text reads back as its records if and only if its keys survive storage, and then the maps fit it |
| MultiKey.NothingLeft | controller/channel.go:2104-2111 | with no key left the old text stays in force and all its keys are enabled |
| MultiKey.BlankKeyVanishes | controller/channel.go:2036-2037 | a blank key that becomes the first is lost when stored, and the next key takes its index |
| MultiKey.AutomaticUpdateKeepsSparseIff | model/channel.go:800-839 | the automatic status flow keeps times and reasons to disabled keys if and only if it does not re-enable a key that has one |
| MultiKey.AutomaticUpdateRecords | model/channel.go:800-839 | the first record with the key gets the status and, when disabled, time and reason; every other record stays |
| MultiKey.OverlappingDeletions | controller/channel.go:1669-1703 | of two deletions on copies of one row the second save undoes the first |
| MultiKey.StaleDeletionIff | controller/channel.go:1669-1703 | deleting from a copy is deleting from the row if and only if nothing else changed in between |
| ChannelKeys.StoredKeysReadBackIff | model/channel.go:201-223 | keys stored as lines read back as themselves if and only if none holds a line break, the end ones are not empty and the text is no JSON array |
| KeyStatusPage.BuildAll | controller/channel.go:1719-1767 | one line per key in order, and the three counts over all keys |
| KeyStatusPage.Paginate | controller/channel.go:1781-1802 | the page arithmetic of a 64-bit int, with wrap-around and the panic of a slice out of range |
| KeyStatusPage.ComputedIsIntendedIff | controller/channel.go:1781-1802 | for any request it answers with the intended page (past the end the last one) and page count if and only if the sum of count and page size does not wrap, or wraps so far that one page is right |
| KeyStatusPage.RequestsCoverListIff | controller/channel.go:1781-1802 | all requests are answered as intended if and only if the sizes fit |
| KeyStatusPage.LargestSizeFails | controller/channel.go:1783-1801 | with the largest page size three keys make the listing panic and two come back as an empty page |
| KeyStatusPage.GetKeyStatus | controller/channel.go:1706-1817 | the listing: defaults, filter, page and counts, or a panic |
| KeyStatusPage.LinesShowRecords | controller/channel.go:1745-1780 | every line shows the record at its index, with at most ten characters of the key; the lines are exactly those of the wanted status, in order |
| KeyStatusPage.RequestedSlice | controller/channel.go:1781-1802 | the slice a request gets when the sizes fit, and the last one for a page past the end |
| KeyStatusPage.PagesCoverList | controller/channel.go:1781-1802 | the intended pages one after another are the filtered list, every page but the last full |
| KeyStatusPage.CountsAddUpIff | controller/channel.go:1736-1743 | the counts add up to the number of keys if and only if every status is 1, 2 or 3 |
| ChannelKeys.AppendKeys | controller/channel.go:1157-1229 | stores the existing keys followed by the new ones that are not among them, first occurrences only |
| ChannelKeys.ExistingAreTheKeysIff | controller/channel.go:1163-1176 | appending starts from the channel's keys if and only if their text does not merely look like an array |
| ChannelKeys.AppendReadsBackIff | controller/channel.go:1218-1229 | the stored text reads back as the appended list if and only if no existing key holds a line break, those at the ends are not empty and the text is no array |
| ChannelKeys.ConvertToMultiKey | controller/channel_multikey_conversion.go:12-65 | exactly when a conversion is refused and for which reason; otherwise the stored text, size and mode |
| ChannelKeys.ConversionKeys | controller/channel_multikey_conversion.go:38-58 | appending, also by default, keeps all existing pieces first and then adds; replacing leaves the request's only |
| ChannelKeys.AppendPathsAgreeIff | controller/channel_multikey_conversion.go:38-58 | both append paths give the same list if and only if the existing lines are trimmed, non-blank and distinct |
| ChannelKeys.ConversionReadsBackIff | controller/channel_multikey_conversion.go:55-63 | the stored text reads back as exactly MultiKeySize distinct non-blank keys if and only if it does not parse as an array |
| ModelNames.MergeModelNames | controller/channel_upstream_update.go:107-121 | the normalized base followed by the normalized names missing from it |
| ModelNames.NormalizeIff | controller/channel_upstream_update.go:100-105 | normalizing leaves a list alone exactly when it is trimmed, non-blank and free of repetition |
| Text.TrimIsMiddle | controller/channel_upstream_update.go:100-105 | trimming takes exactly the white space at both ends |
| Text.IsSpaceExactly | controller/channel_upstream_update.go:102 | the white space of Unicode, character by character |
| ModelNames.ApplySelectedShape | controller/channel_upstream_update.go:145-150 | for any three lists: kept originals in order, then new additions; an addition beats a removal |
| ModelNames.ReadBackIff | model/channel.go:335-340 | a stored model list reads back as itself exactly when no name holds a comma |
| UpstreamModels.DetectMembers | controller/channel_upstream_update.go:179-238 | pending additions and removals, by membership, both directions |
| UpstreamModels.DetectExactly | controller/channel_upstream_update.go:179-238 | the same with the tests on a name written out: local, redirect target or source, and the two kinds of ignore rule |
| UpstreamModels.DetectKeepsOrder | controller/channel_upstream_update.go:200-238 | additions are in upstream order, removals in the channel's own |
| UpstreamModels.CheckChangesModelsIff | controller/channel_upstream_update.go:499-512 | models change if and only if the caller allows it, the channel has opted in and something is to be added; the whole new state on either path |
| UpstreamModels.Channel.CheckAndPersist | controller/channel_upstream_update.go:475-522 | the new state for a skipped, failed, staged or auto-applied check |
| UpstreamModels.Channel.Apply | controller/channel_upstream_update.go:920-968 | the new state and the reported lists for any selection |
| UpstreamModels.ApplyConserves | controller/channel_upstream_update.go:934-957 | pending additions split into added, ignored and remaining, pending removals into removed and remaining |
| UpstreamModels.ApplyDecidesList | controller/channel_upstream_update.go:941-946 | the stored list is kept originals in order followed by new additions, and reads back so exactly when no addition holds a comma |
| UpstreamModels.ApplyIgnores | controller/channel_upstream_update.go:948-951 | no added model stays ignored; an ignored one is never detected again, unless it is named like a regex rule that does not match itself |
| UpstreamModels.ConvergesIff | controller/channel_upstream_update.go:994-1049 | after detecting and applying everything a second detection is empty if and only if no addition holds a comma and every name held back matches a rule that is not itself offered as a new model |
| UpstreamModels.RuleOfferedAsModel | controller/channel_upstream_update.go:948-951 | a rule offered as a model is taken away and the name it held back is found next |
| UpstreamModels.PlainNamesKeepRules | controller/channel_upstream_update.go:217-225 | rules survive whenever no added model is named like a regex rule |
| UpstreamModels.AutoSyncIsManualAdd | controller/channel_upstream_update.go:499-512 | the automatic path stores the text of a manual application of the additions and counts each once |
| ChannelScan.Scan | controller/channel_upstream_update.go:674-762 | terminates and processes the enabled channels in id order, each once, or the first ones up to a cancellation |
| ChannelScan.EndsIff | controller/channel_upstream_update.go:974-985 | the scan ends having covered the table if and only if it is smaller than a batch or the first batch ends in a positive id |
| BodyStorage.MemoryStorage.Perform | common/body_storage.go:62-116 | every operation on the slice storage |
| BodyStorage.DiskStorage.Perform | common/body_storage.go:196-283 | every operation on the file storage |
| BodyStorage.DiskStorage.GetAll | common/body_storage.go:225-257 | reading everything through the shared cursor returns the payload and puts the cursor back |
| BodyStorage.DiskStorage.NewReader | common/body_storage.go:259-275 | a fresh descriptor at the start, refused after close |
| BodyStorage.ReadStep | common/body_storage.go:62-69 | a read gives as many bytes as are wanted and left, from the cursor on, and moves the cursor behind them; the end is reported only at the end |
| BodyStorage.ReadsAreConsecutive | common/body_storage.go:196-203 | in both storages, over any run without seek and close, the reads deliver consecutive bytes of the payload |
| BodyStorage.RewindReplays | common/body_storage.go:71-78 | rewinding and reading to the end replays the payload |
| BodyStorage.SeekLands | common/body_storage.go:205-212 | where a seek lands, for each origin |
| BodyStorage.PastEndReadsNothing | common/body_storage.go:62-69 | past the end nothing is read |
| BodyStorage.AnswersAtAnyMoment | common/body_storage.go:80-116 | at any moment of any run: the size, all the bytes without any effect on later answers, and after a close nothing but size and close |
| BodyStorage.DiskRefinesMemoryIff | common/body_storage.go:62-116 | over every sequence of actions both storages show the same if and only if no empty read at the end and no use of a closed reader occurs |
| BodyStorage.OrdinaryUseAgrees | common/body_storage.go:196-283 | non-empty buffers and leaving closed readers alone are enough |
| BodyStorage.ReaderReplays | common/body_storage.go:23-30 | whatever else happens, a reader is given consecutive bytes of the payload from its own position on |
| BodyStorage.NewReaderReplays | common/body_storage.go:259-275 | a new reader of either storage starts at the beginning of the payload |
| BodyCache.Cache.Create | common/body_storage.go:286-304 | disk above the threshold and within the budget, memory otherwise or when the disk fails |
| BodyCache.Cache.CreateFromReader | common/body_storage.go:307-348 | the answer for every stream, declared length and fault; failures leave the counters alone |
| BodyCache.Cache.Close | common/disk_cache_config.go:115-134 | only the first close gives usage back |
| BodyCache.FromReaderFaithfulIff | common/body_storage.go:329-335 | without faults the whole stream is stored or refused as too large, on every path, if and only if the limit does not wrap or the stream is empty |
| BodyCache.StoredOnDiskIff | common/body_storage.go:307-348 | without faults a stream is on disk exactly if the declared length, or what was read, reaches the threshold and fits the budget |
| BodyCache.FaultyStream | common/body_storage.go:315-335 | what a fault of the disk or of the stream leads to on each path |
| BodyCache.ClosedBalanced | common/disk_cache_config.go:115-122 | closing keeps the balance and the clamps to zero never fire |
| BodyCache.RunBalanced | common/disk_cache_config.go:109-144 | over every run the counters equal number and size of the open storages, and each kind of hit the number of streams stored there |
| BodyCache.HonestRunsStayWithinBudget | common/disk_cache_config.go:170-177 | runs whose declared lengths cover the real ones and, added to the budget, fit an int64 never exceed the budget |
| BodyCache.HugeDeclarationOverruns | common/disk_cache_config.go:170-177 | an honest byte declared as the largest int64 overruns any full budget, because the sum wraps |
| BodyCache.CreateKeepsBudgetIff | common/body_storage.go:286-304 | a given payload keeps every state within the budget if and only if it is not sent to disk, is empty or cannot make the sum wrap |
| BodyCache.StreamKeepsBudgetIff | common/body_storage.go:311-326 | a streamed body is safe in every admitting state if and only if it is refused or empty, or its declared length, free of wrap-around, covers it or alone exceeds the budget |
| JsonString.WriteJsonStringBytes | common/json.go:29-82 | the chunk-flushing loop writes the byte-by-byte escape, or its longest prefix the output takes; invalid UTF-8 writes nothing |
| JsonString.RoundTrip | common/json.go:36-81 | reading the output by the RFC 8259 string grammar gives back every byte sequence |
| JsonString.EscapeForms | common/json.go:42-61 | which bytes stand for themselves, which escapes take two bytes and which six |
| Utf8Text.ValidIff | common/json.go:33-35 | accepted are exactly the encodings of sequences of Unicode scalar values |
| JsonString.NoRawControl | common/json.go:57-61 | no control byte is written raw |
| JsonString.QuotedStaysUtf8 | common/json.go:33-35 | valid UTF-8 stays valid UTF-8 |
| OggWalk.GetOpusDuration | common/audio.go:196-254 | the loop finds the pages of the specified walk and returns its peak at 48 kHz |
| OggWalk.ReadPage | common/audio.go:228-248 | granule, segment table and next position of one page, or its cut-off |
| OggWalk.DurationOfContainer | common/audio.go:207-249 | on pages separated by stray bytes the walk visits exactly the page starts, also when bodies contain the mark, and finds their peak |
| OggPages.WalkOfFile | common/audio.go:207-249 | on every file of pages built from their fields, with stray bytes between them, the walk finds exactly the pages and the largest of zero and the granule positions that went into them |
| OggPages.WalkOfPage | common/audio.go:228-248 | one page with any 64-bit granule position and any segments |
| OggPages.WalkOfCutPage | common/audio.go:215-238 | a page that is cut off counts when its header is complete |
| OggPages.EncodedIsPage | common/audio.go:229-245 | the granule is read from its eight bytes, the body length from the segments |
| OggWalk.PeakIsMaximum | common/audio.go:228-232 | the peak is the maximum of zero and the signed granule positions |
| OggWalk.StartsAreSeparate | common/audio.go:219-226 | on arbitrary bytes recognised pages carry the mark, lie inside the file and are a header apart |
| Verification.VerificationCodes.Register | common/verification.go:35-45 | stores the code and, when the map has grown past its limit, sweeps at a second reading of the clock |
| Verification.RegisteredEntries | common/verification.go:35-45 | the code is stored, and other entries go exactly if the map is past its limit and they have expired |
| Verification.VerificationCodes.Verify | common/verification.go:47-56 | true exactly for a stored, unexpired, equal code |
| Verification.VerificationCodes.Consume | common/verification.go:59-68 | the same, removing the entry on success only |
| Verification.VerificationCodes.RemoveExpiredPairs | common/verification.go:77-84 | one sweep, in any order, removes exactly the expired entries |
| Verification.ExpiryTestsAgree | common/verification.go:52-63 | whole seconds and exact durations decide alike |
| Verification.AnswersIntended | common/verification.go:35-84 | on every trace the swept, joined map answers like one entry per purpose and key that is never swept |
| Verification.AlwaysIntendedIff | common/verification.go:35-84 | that holds on all traces if and only if no purpose begins another, or codes expire at once |
| Verification.NestedPurposesCollide | common/verification.go:38-50 | purposes of which one begins another are confused |
| Verification.PurposesInUse | common/verification.go:15-18 | it holds for the two purposes in use |
| Verification.SuccessIffLatestCode | common/verification.go:47-68 | on every trace a check succeeds if and only if its code is that of the latest registration of that purpose and key, unexpired, neither deleted nor consumed since |
| Verification.ConsumedOnce | common/verification.go:59-68 | the registration behind the second of two successful consumptions came after the first |

## Left out

- ImageRefunds.RefundRecoverableIff: the retrier's updated-at version check is not modelled, so the model allows more interleavings than the code.
- ImageTask.RefundInv: the accounting after a credit (token, usage counters, audit log) is not modelled, only that its marker is settled later.
- ImageTask.PersistInv: a consume log of another token counts as not found.
- ResponseRecorder.BoundedRecorder.Write: WriteString, which the embedded recorder offers without a bound, is not modelled; the relay does not use it.
- RateLimit.InMemoryRateLimiter.Request: a negative maximum, on which the code panics, is outside the trace theorems; limits of a key do not change during a trace.
- Admission.AdmissionState.Guard: the transaction that counts active tasks is not modelled; keys are tagged ids rather than prefixed strings.
- MultiKey.AutomaticUpdateKeepsSparseIff: the status of the whole channel is not modelled.
- MultiKey.Channel.Save: database errors and group bindings are not modelled; of the JSON array parser only the length of its elements is known.
- ChannelKeys.AppendKeys: the Vertex AI parsing of new keys is not modelled.
- KeyStatusPage.BuildAll: the preview cuts after ten characters where the code cuts after ten bytes.
- UpstreamModels.Channel.Apply: database errors, which keep the changed object but not the row, are not modelled.
- UpstreamModels.Channel.CheckAndPersist: the fetch is a parameter; the mapping is given already normalized.
- ChannelScan.Scan: the work per channel, query errors and a table that changes during the scan are not modelled.
- BodyStorage.DiskStorage.Perform: file-system errors, int64 overflow of positions, whence values other than the three standard ones and the aliasing of the memory payload are not modelled.
- BodyCache.RunBalanced: the counters themselves do not wrap, which would take 2^63 bytes in use at once; reset, sync and cleanup of the statistics and concurrent creations are not modelled.
- JsonString.WriteJsonStringBytes: the nil writer is not modelled.
- OggWalk.GetOpusDuration: read errors and short reads before the end of the file are not modelled; the quotient is a real number, not a float64.
- Verification.ExpiryTestsAgree: the seconds are not rounded as a float64, which could reach the limit early only for validities beyond 2^24 seconds.
- Verification.VerificationCodes.Register: the generation of codes is not modelled.
- HTTP handling, authorization, audit logs, notifications and caches around these operations would only add plumbing.
- Payment, invoices, affiliates, sessions, relay adaptors, other audio formats and quota arithmetic are not modelled.
