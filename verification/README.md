# Universal Media Downloader — a verified model of its deterministic core

Universal Media Downloader is a web front end for yt-dlp. A browser page
(`static/main.js`) probes a URL through a Flask backend (`app.py`, with the
refactored `service/` package next to it), offers quality, mode and subtitle
choices, and follows a download task over a server-sent event stream. The
backend turns yt-dlp's format list into quality choices, builds yt-dlp
format selectors, keeps an in-memory task store and rewrites subtitle files.

This project models the table-driven, deterministic part of that system in
Dafny and proves what it promises:

| file | module | what it models |
|---|---|---|
| `options.dfy` | `Options` | the `Option` and `Result` wrappers |
| `strings.dfy` | `Strings` | digits, ASCII lower-casing, Python `strip` and `str.isspace`, JavaScript `trim`, `parseInt`, split and join |
| `sorting.dfy` | `Sorting` | a stable insertion sort by key (JavaScript `Array.prototype.sort`, Python `sorted`) |
| `quality_options.dfy` | `QualityOptions` | `updateQualityOptions`: the quality radio list and which entry ends up checked |
| `request_build.dfy` | `RequestBuild` | `mapQualityForBackend`, `formatDuration`, and the query and log lines of `downloadMedia`, with the fast-start info as JSON text |
| `log_sink.dfy` | `LogSink` | `addLog`: the log panel capped at 500 entries and its error and warning counts |
| `client_session.dfy` | `ClientSession` | the page's task session as one record stepped by stream, cancel and clear events |
| `format_structure.dfy` | `FormatStructure` | the tail of `api_info`: effective heights, track split, ranks, `quality_pairs` and capability flags |
| `subtitle_options.dfy` | `SubtitleOptions` | the subtitle choices of `video_info_route` |
| `error_text.dfy` | `ErrorText` | `classify_error` (errors.py) and `_extract_root_cause` (app.py) |
| `task_store.dfy` | `TaskStore` | the `Task` record, the `TaskManager` map, cancellation, `queue_status` ordering and `api_tasks_cleanup` retention |
| `selectors.dfy` | `Selectors` | yt-dlp format selectors of tasks.py and downloader.py and the merge-corruption fallback |
| `download_plan.dfy` | `DownloadPlan` | fast-start, file names, concurrency, the aria2c host rule and the meta-file mode of downloader.py |
| `site_config.dfy` | `SiteConfig` | site_configs.py: URL families and per-site download settings |
| `subtitle_merge.dfy` | `SubtitleMerge` | service/utils/subtitles.py: CJK-aware cue merging and the SRT rewrite |
| `legacy_text.dfy` | `LegacyText` | the three regular-expression substitutions of the tasks.py cue merger |
| `legacy_subtitles.dfy` | `LegacySubtitles` | `_merge_lines_to_single` of tasks.py: dialog, CJK and Latin joining |
| `legacy_srt.dfy` | `LegacySrt` | the block rewrite of `normalize_srt_inplace` in tasks.py |
| `lru_cache.dfy` | `LruCache` | `LRUCache` of service/utils/cache.py with "now" as a parameter |
| `validation.dfy` | `Validation` | `validate_url`, `sanitize_input` and `retry_on_failure` of service/utils/common.py |

Everything is pure: state records are returned, never mutated. The DOM, the
wall clock, `urlparse`, the wrapped function of the retry decorator and
the regular-expression engine are parameters or are written out as
hand-made recognisers.

## Model

| member | source | states |
|---|---|---|
| QualityOptions.Tier | static/main.js:155-162 | the tier of a height is the number of the thresholds 360, 480, 720, 1080, 2160, 4320 it reaches: below 360 is tier 0, and each tier is bounded by its two thresholds |
| QualityOptions.TierMonotone | static/main.js:228-235 | a taller height never lands in a lower tier |
| QualityOptions.HeightLabelByTier | static/main.js:228-235 | heights in one named tier share a label; low heights keep distinct "Np (低清)" labels that never equal a named tier's label |
| QualityOptions.PairHeightsMembers | static/main.js:147 | the pair heights are exactly the table keys other than `default_best` that `parseInt` reads as a number |
| QualityOptions.CompleteHeightsMembers | static/main.js:150-152 | a height is offered exactly when its pair has both a video and an audio id |
| QualityOptions.CompleteHeightsSorted | static/main.js:149-152 | dropping incomplete pairs keeps the descending order |
| QualityOptions.PairsIgnoreFormats | static/main.js:145-173 | once any numeric pair key exists outside audio mode, the raw format list has no influence on the options |
| QualityOptions.PairChoice | static/main.js:163-165 | an option built for a complete pair is enabled and pins two non-empty format ids |
| QualityOptions.PairChoices | static/main.js:147-170 | every pair option is enabled and pins both a video and an audio id |
| QualityOptions.PairChoicesPinned | static/main.js:163-165 | every pair option is enabled and carries the video and audio ids stored under its own key |
| QualityOptions.PairChoicesComplete | static/main.js:147-152 | a height has a pair option if and only if it is a numeric key whose pair is complete |
| QualityOptions.PairChoicesOrdered | static/main.js:149 | pair options run from the tallest height down |
| QualityOptions.IncompletePairsLeaveOnlyBest | static/main.js:145-170 | numeric keys whose pairs all lack an id still suppress the raw paths, leaving only the "best" entry |
| QualityOptions.KnownQualitiesMembers | static/main.js:176-183 | the audio qualities are exactly the `abr`/`audio_quality` values of the formats that have an audio codec, `未知` excluded |
| QualityOptions.AudioValues | static/main.js:175-183 | each audio quality is listed once, and the list holds exactly the known qualities |
| QualityOptions.AudioChoices | static/main.js:186-211 | at least one audio option is offered, and each is enabled, labelled with its own value and pins no format |
| QualityOptions.AudioFallbackLadder | static/main.js:186-195 | with no known audio quality the options are exactly the ladder 320k, 256k, 192k, 128k, 96k, 64k |
| QualityOptions.AudioChoicesOffered | static/main.js:196-211 | otherwise every known quality is offered once, ordered by leading integer descending, with ties kept in first-seen order |
| QualityOptions.PositiveHeightsMembers | static/main.js:215-222 | the offered heights are the positive `effective_height`-or-`height` values of the formats |
| QualityOptions.VideoHeights | static/main.js:214-222 | each positive height is collected once |
| QualityOptions.VideoOrder | static/main.js:225 | the heights are strictly descending and are exactly the positive heights |
| QualityOptions.VideoChoices | static/main.js:225-253 | the options are the lone placeholder exactly when no format has a positive height, and none pins a format |
| QualityOptions.VideoChoicesMembers | static/main.js:225-242 | a height option exists if and only if the height occurs among the formats |
| QualityOptions.VideoChoicesDescending | static/main.js:225 | video options run strictly from the tallest height down |
| QualityOptions.VideoChoicesAreHeights | static/main.js:226-241 | each video option's value is its height and its label is the tier label |
| QualityOptions.VideoPlaceholder | static/main.js:245-253 | with no positive height the only video option is the disabled "best" placeholder |
| QualityOptions.BuildChoices | static/main.js:136-143 | the option list always opens with the "best" entry |
| QualityOptions.PrevSelection | static/main.js:131 | the remembered selection, when there is one, is the one restored |
| QualityOptions.CheckedIndex | static/main.js:257-269 | the checked option is the last one whose value equals the remembered one, or "best" when none does |
| QualityOptions.Regenerate | static/main.js:126-281 | after regeneration the remembered value is the checked option's value: the old selection if still offered, otherwise "best" |
| RequestBuild.MapQuality | static/main.js:455-458 | an empty value maps to "best" and an all-digit value N to "height<=N" |
| RequestBuild.MapQualityLowers | static/main.js:459-462 | any other value than 4k or 8k is passed on lower-cased |
| RequestBuild.MapQualityPresets | static/main.js:459-461 | "4k" and "8k" in either case map to best4k and best8k |
| RequestBuild.MapQualityIdempotent | static/main.js:455-463 | mapping a mapped value again changes nothing |
| RequestBuild.MapQualityFixed | static/main.js:462 | a lower-case, non-numeric value other than 4k and 8k is its own mapping |
| RequestBuild.ModeFor | static/main.js:501-506 | the radios video, audio and thumbnail map to their backend modes and everything else to merged |
| RequestBuild.FormatDuration | static/main.js:115-116 | a zero duration is shown as 未知, and only a zero duration |
| RequestBuild.FormatDurationRoundTrip | static/main.js:117-123 | reading the H:MM:SS or M:SS text back gives the number of seconds |
| RequestBuild.Minimal | static/main.js:545-552 | the fast-start summary keeps the title, and keeps id (falling back to video_id), duration and max_height exactly when they are set |
| RequestBuild.HexValueOfChar | static/main.js:554-555 | reading a written hexadecimal digit gives its value back |
| RequestBuild.EscapeChar | static/main.js:555 | a character is written as itself exactly when it is neither the quote, the backslash nor a control character |
| RequestBuild.UnescapeEscape | static/main.js:555 | reading the escapes of a JSON string literal back gives the original text |
| RequestBuild.MinimalJson | static/main.js:555 | the fast-start JSON opens with the title field and closes the object |
| RequestBuild.FastLog | static/main.js:541-561 | at most one fast-start line is logged, and it is a warning exactly when fast start is ticked without probed info |
| RequestBuild.OptionalParams | static/main.js:535-572 | at most seven optional parameters are set, each under one of the names subtitles, meta, skip_probe, info_cache, thumbnail, video_format and audio_format |
| RequestBuild.RequestLogs | static/main.js:529-572 | one to four lines are logged, the first announcing the mode and the mapped quality |
| RequestBuild.BuildRequest | static/main.js:494-500 | no request is made exactly when the trimmed URL is empty |
| RequestBuild.BuildRequestParams | static/main.js:531-573 | each query parameter has the value the page implies: url, mode, mapped quality, and subtitles, meta, skip_probe, info_cache, thumbnail and the pinned format ids only under their conditions |
| RequestBuild.FastStartWarning | static/main.js:540-562 | a warning is logged exactly when fast start is ticked without probed video information |
| LogSink.AddLog | static/main.js:294-298 | the log keeps the newest min(n + 1, 500) entries of the old log followed by the new one |
| LogSink.AddLogShape | static/main.js:294-298 | the log never exceeds 500 entries, ends with the new entry, and at most the oldest entry is evicted |
| LogSink.AddLogCounts | static/main.js:302-304 | the error and warning counts are taken over the retained entries: old count plus the new entry minus what was evicted |
| ClientSession.StageLabelIdempotent | static/main.js:479-491 | the stage label maps a shown label to itself |
| ClientSession.StageLabelsDistinct | static/main.js:482-487 | the five known stage codes get five different labels |
| ClientSession.CloseCurrent | static/main.js:465-470 | closing leaves no open stream and closes one only when one was open |
| ClientSession.Clamp | static/main.js:607 | progress is clamped into [0, 100] and values already inside are kept |
| ClientSession.EtaAtShowsRemaining | static/main.js:611-616 | the ETA shows the whole minutes and seconds of elapsed·(100−p)/p |
| ClientSession.StartDownload | static/main.js:493-580 | the download opens a stream, marks the button busy and records the start time exactly when the trimmed URL is non-empty; the task id and the subtitle button are untouched |
| ClientSession.DownloadMessage | static/main.js:582-644 | a download-stream message keeps or closes the stream, never touches the subtitle button or the start time, and never replaces a recorded task id |
| ClientSession.SubtitleMessage | static/main.js:704-727 | a subtitle-stream message keeps or closes the stream and never touches the task id, the download button, the remaining time or the start time |
| ClientSession.StartSubtitleTask | static/main.js:677-703 | a subtitle stream is opened, with the banner hidden and the subtitle button busy, exactly when both the trimmed URL and the language are given; the task id and the download button are untouched |
| ClientSession.CancelTask | static/main.js:658-675 | cancelling always closes the stream and frees the download button, and keeps the task id, the subtitle button and the banner |
| ClientSession.ClearAll | static/main.js:313-393 | clearing closes the stream, frees both buttons and keeps the task id and the banner |
| ClientSession.StreamError | static/main.js:646-655 | a transport error closes the stream and frees only the button of the stream that failed; a closed stream ignores it |
| ClientSession.Step | static/main.js:582-655 | an event never replaces a recorded task id, and only a download-stream message sets one |
| ClientSession.Run | static/main.js:597-600 | after any run of events a recorded task id is still recorded |
| ClientSession.StartDownloadStream | static/main.js:493-580 | an empty URL only sets the banner; otherwise the old stream is closed, a new one opened with the built query, the button made busy and the task id kept |
| ClientSession.CloseCurrentReplays | static/main.js:465-470 | replaying the effects of a close leaves the stream closed |
| ClientSession.StartSubtitleStream | static/main.js:677-703 | the effects of starting a subtitle task lead to the stream the session records |
| ClientSession.CancelStream | static/main.js:658-675 | the effects of a cancel lead to the stream the session records |
| ClientSession.StreamErrorStream | static/main.js:646-655 | the effects of a transport error lead to the stream the session records |
| ClientSession.ClearStream | static/main.js:313-393 | the effects of clearing lead to the stream the session records |
| ClientSession.StepTracksStream | static/main.js:582-655 | after every event, replaying its effects on the old stream gives exactly the stream the session records |
| ClientSession.StepKeepsLogBound | static/main.js:283-298 | no event makes the log exceed 500 entries |
| ClientSession.DownloadMessageTaskId | static/main.js:597-600 | a message records its task id only while no id is recorded and the message carries no error |
| ClientSession.StepKeepsTaskId | static/main.js:597-600 | a recorded task id is never replaced or cleared, and a new one comes only from a download-stream message |
| ClientSession.RunKeepsTaskId | static/main.js:597-600 | over any sequence of events the first recorded task id stays |
| ClientSession.ClosedStreamIgnored | static/main.js:465-470 | once closed, a stream delivers neither messages nor errors |
| ClientSession.ErrorFieldFirst | static/main.js:586-596 | a message with an error field is handled by that field alone, closes the stream and, on a download, shows 出错 and frees the button |
| ClientSession.ProgressShown | static/main.js:606-620 | progress is clamped; the ETA is recomputed below 100, set to 00:00 at 100 and left as it was at 0 |
| ClientSession.FinishedCloses | static/main.js:621-629 | a finished status forces 100%, 完成, 00:00, frees the button and closes the stream |
| ClientSession.EndIdempotent | static/main.js:636-643 | the end event closes the stream and frees the button, and a second one does nothing |
| ClientSession.CancelEffects | static/main.js:658-675 | cancel posts to the backend exactly when a task id is recorded, and always closes the stream and restores the idle button |
| ClientSession.TransportErrorRestores | static/main.js:646-655 | a transport error shows the connection banner, frees the button and closes the stream |
| ClientSession.ClearResets | static/main.js:313-393 | clearing leaves a one-entry log, no stream, idle buttons and no start time, and keeps the task id |
| FormatStructure.FirstMatch | app.py:1759 | the search finds the leftmost position where three or four digits followed by "p" start, and nothing matches before it |
| FormatStructure.NoteHeightOfLabel | app.py:1759-1762 | a note whose first digits are a 3–4-digit "NNNp" label yields that height |
| FormatStructure.EffectiveHeight | app.py:1765-1768 | the effective height is the raw height or the note height, whichever is larger |
| FormatStructure.MaxHeight | app.py:1769-1771 | `max_height` bounds every effective height and is reached by one of them (or is absent) |
| FormatStructure.VideoTracks | app.py:1787-1790 | the video tracks are exactly the formats with a video codec, no audio codec and an effective height |
| FormatStructure.AudioTracks | app.py:1787-1792 | the audio tracks are exactly the formats with an audio codec and no video codec |
| FormatStructure.TracksDisjoint | app.py:1789-1792 | no format is both a video track and an audio track |
| FormatStructure.RankLessTotal | app.py:1805 | the rank tuples compare lexicographically, and any two are ordered or equal |
| FormatStructure.RankLessTransitive | app.py:1830 | the lexicographic rank order is transitive |
| FormatStructure.RankLessAsymmetric | app.py:1830 | no two ranks are each below the other |
| FormatStructure.FirstBestIsBest | app.py:1807 | the pick of a descending stable sort ranks at least as high as every other and strictly above every earlier track |
| FormatStructure.OfHeight | app.py:1832-1837 | a height's group holds exactly the video tracks of that effective height |
| FormatStructure.Heights | app.py:1832-1838 | the pair heights are the distinct effective heights of the video tracks |
| FormatStructure.Top | app.py:1847 | the top height is the largest pair height |
| FormatStructure.HeightEntries | app.py:1838-1844 | one entry per height, keyed by the height written in decimal and holding that height's best video and the shared audio |
| FormatStructure.PairsShape | app.py:1796-1807 | pairs exist exactly when both track lists are non-empty, and every pair holds the same best audio |
| FormatStructure.QualityPairs | app.py:1796-1848 | the pair table is empty exactly when video or audio tracks are missing, and every pair names the best audio track |
| FormatStructure.QualityPairsShape | app.py:1796-1844 | over raw formats: pairs exist exactly when there are video and audio tracks, and all share one audio id |
| FormatStructure.PairsLookup | app.py:1838-1848 | looking up a height finds a pair exactly for the video heights, and it is that height's best pair |
| FormatStructure.QualityPairsLookup | app.py:1838-1885 | a height key is present exactly when some video track has that effective height |
| FormatStructure.PairsDefault | app.py:1846-1848 | `default_best` holds the same pair as the largest height |
| FormatStructure.DefaultBestIsTop | app.py:1846-1848 | over raw formats, `default_best` is the pair of the tallest video track |
| FormatStructure.ClientUsesPairs | app.py:1885 | the client takes the pairs path exactly when not in audio mode and both track lists are non-empty |
| FormatStructure.CapabilitiesByHeight | app.py:1851-1852 | 8k is reported exactly when the maximum height reaches 4320; 4k needs a height in [2160, 4320), so a 4320p-only source reports 8k but not 4k |
| FormatStructure.ToClient | app.py:1772-1785 | a structured entry forwards the codec, the raw and the effective height, and carries no bit-rate text |
| FormatStructure.ToClientAll | app.py:1772-1785 | the client receives one entry per format carrying its effective height |
| FormatStructure.ClientAudioAlwaysLadder | app.py:1772-1785 | structured entries carry no abr or audio_quality, so the client's raw audio path always shows the fixed ladder |
| FormatStructure.ClientHeights | app.py:1772-1785 | the client's raw video heights are the positive effective heights, none above `max_height` |
| SubtitleOptions.BaseCode | app.py:708 | the base code is the prefix before the first '-' |
| SubtitleOptions.NameIn | app.py:711 | the display name comes from the language table when the base code is listed there, and is the code itself otherwise |
| SubtitleOptions.Pass | app.py:707-713 | each option of a pass is a listed code whose base was not yet seen |
| SubtitleOptions.PassTexts | app.py:711-713 | each option of a pass is labelled with its base's display name and the pass's suffix |
| SubtitleOptions.PassCovers | app.py:707-713 | a pass adds exactly the bases of its codes, one option per base |
| SubtitleOptions.SubtitleChoices | app.py:703-722 | the options have one entry per base code, cover every manual and automatic base, and use only listed codes |
| SubtitleOptions.ManualBeforeAuto | app.py:706-722 | the first group holds manual codes labelled as manual; the second holds automatic codes labelled as automatic, only for bases without a manual code |
| SubtitleOptions.GroupsSorted | app.py:707-716 | each group is in language-code order |
| SubtitleOptions.ManualChoiceSmallest | app.py:707-713 | the manual option of a base is the smallest manual code with that base |
| SubtitleOptions.AutoChoiceSmallest | app.py:716-722 | the automatic option of a base is the smallest automatic code with that base |
| SubtitleOptions.ChineseShownAsCode | app.py:708-711 | every zh-* code is shown under the base "zh", which the table does not list, so it appears as the bare code |
| ErrorText.FirstRule | errors.py:23-25 | the rule found is the first one that holds from the given index on |
| ErrorText.ClassifyError | errors.py:19-27 | empty input gives (None, 未知错误); a code comes with its table text; the fallback is at most 400 characters of one line |
| ErrorText.ClassifyFirstMatch | errors.py:22-25 | the first table pattern found in the lower-cased message decides the result |
| ErrorText.ClassifyFallback | errors.py:27 | with no match, the result is the first line of the stripped message cut to 400 characters |
| ErrorText.ClassifyIgnoresCase | errors.py:22-24 | messages that agree up to letter case get the same code |
| ErrorText.RateLimitedBy429 | errors.py:6-9 | any message containing 429 is rate_limited unless a 404, 401 or 403 pattern matched first |
| ErrorText.ClassifyCodes | errors.py:5-17 | the code is absent or one of the eleven table codes |
| ErrorText.RootCause | app.py:507-536 | empty input gives 未知错误; the fallback is a prefix of the message: its first line cut to 400 characters |
| ErrorText.RootCauseFirstMatch | app.py:511-534 | the first check that holds on the lower-cased message decides the advice text |
| ErrorText.RootCauseFallback | app.py:536 | with no check holding, the result is the first line cut to 400 characters |
| ErrorText.CookieCopyFirst | app.py:512-513 | the cookie-copy failure is recognised before every other check |
| TaskStore.NewTask | service/tasks/models.py:5-40 | a new task is queued with no stage, progress 0, an empty log, not canceled, mode merged and quality best unless given |
| TaskStore.ToDict | service/tasks/models.py:73-78 | the copy keeps the last 200 log lines in order when there are more, the whole log otherwise, and every other field as it is |
| TaskStore.GetTask | service/tasks/manager.py:95-98 | a task is returned exactly when its id is stored, and it is the stored task of that id |
| TaskStore.Put | service/tasks/manager.py:90-91 | storing under an existing id replaces that entry in place; a new id is appended; other entries stay |
| TaskStore.AddTask | service/tasks/manager.py:80-93 | adding stores the new task under its id and enqueues exactly that id |
| TaskStore.PutThenGet | service/tasks/manager.py:91-98 | a stored task is found again under its id |
| TaskStore.AddTaskFresh | service/tasks/manager.py:80-93 | under a fresh id, exactly one task is appended and the ids stay unique |
| TaskStore.GetTaskFinds | service/tasks/manager.py:95-98 | with unique ids every stored task is found under its own id |
| TaskStore.UpdateTask | service/tasks/manager.py:119-124 | only the named fields change, plus `updated_at` |
| TaskStore.UpdateNothing | service/tasks/manager.py:122-124 | an update naming no field only refreshes `updated_at` |
| TaskStore.CleanupFinished | service/tasks/manager.py:105-117 | cleanup keeps exactly the non-terminal tasks, leaves the queue alone, and the count plus the survivors is the old size |
| TaskStore.CleanupFinishedCount | service/tasks/manager.py:109-117 | the count returned is the number of finished, error and canceled tasks |
| TaskStore.CleanupFinishedIdempotent | service/tasks/manager.py:105-117 | a second cleanup removes nothing |
| TaskStore.CancelOne | tasks.py:869-873 | a terminal task is unchanged; any other becomes canceled, with stage cleared and one log line appended |
| TaskStore.CancelTask | service/tasks/manager.py:150-157 | the answer is false exactly without a manager or for an unknown id, and then nothing changes |
| TaskStore.CancelTaskEffect | service/tasks/manager.py:170-183 | cancelling a stored task returns true, leaves it terminal, and changes no other task and not the queue |
| TaskStore.CancelTwice | service/tasks/manager.py:171-175 | cancelling twice is the same as cancelling once |
| TaskStore.InitManager | service/tasks/manager.py:137-142 | the first manager made is the one kept |
| TaskStore.InitIdempotent | service/tasks/manager.py:137-142 | later initialisations return the first instance |
| TaskStore.NextJob | service/tasks/manager.py:58-72 | the worker takes the head id and runs its task only when it exists and is not canceled |
| TaskStore.CanceledNeverRuns | service/tasks/manager.py:62-69 | a queued task cancelled before the worker reaches it is skipped |
| TaskStore.Listed | service/tasks/manager.py:100-103 | the listing is the `to_dict` copy of every task in insertion order |
| TaskStore.QueueStatus | app.py:790-796 | the queue view lists as many entries as there are stored tasks |
| TaskStore.QueueStatusOrder | app.py:794-796 | the queue view is a stable reordering of the listing by downloading, merging, queued, finished, error, canceled |
| TaskStore.QueueStatusActiveFirst | app.py:795-796 | every active task is listed before every terminal one |
| TaskStore.Dropped | app.py:2046-2058 | only terminal tasks are ever dropped by the retention rule |
| TaskStore.ApiCleanup | app.py:2037-2041 | the cleanup the route evidently intends: a `max_keep` of 0 or less turns `remove_active` on, and the queue is untouched |
| TaskStore.ApiCleanupAsWritten | app.py:2046-2066 | the route as written never replies exactly when active tasks are to be removed and one survives the terminal sweep; otherwise it replies as `ApiCleanup`, with no active task removed |
| TaskStore.CleanupHangsOnQueued | app.py:2046-2066 | one queued task and `max_keep` 0: the written route hangs, while the intended one empties the store and reports one active task removed |
| TaskStore.CleanupAllEmpties | app.py:2047-2070 | in the intended cleanup, a `max_keep` of 0 or less removes every task and counts the terminal ones |
| TaskStore.CleanupRemovedCount | app.py:2052-2058 | otherwise exactly the terminal tasks beyond `max_keep` are counted as removed |
| TaskStore.CleanupActive | app.py:2059-2070 | in the intended cleanup, active tasks survive unless `remove_active` is set, and then only terminal tasks survive |
| TaskStore.CleanupKeeps | app.py:2044-2070 | every survivor was stored before and is not among the dropped ones |
| TaskStore.CleanupKeepsNewest | app.py:2053-2055 | no dropped terminal task was created after a surviving one |
| Selectors.FindCap | service/tasks/downloader.py:287-289 | the cap found is the digit run after the leftmost "height<=" (or "height<=?") that is followed by a digit, and none is found when no such place exists |
| Selectors.FindCapAfter | service/tasks/downloader.py:287-289 | in a quality "…height<=N…" with no earlier 'h', the cap read is N |
| Selectors.VideoPreset | tasks.py:299-310 | the video-only cap is 4320, 2160, 1080 or 640 for the named qualities and 720 for every other, `height<=N` included |
| Selectors.MergedPreset | tasks.py:315-325 | the merged table names exactly best8k, best4k, best, auto, fast and 640p |
| Selectors.LegacySelector | tasks.py:292-311 | a bracketed quality is used verbatim in any mode, audio-only always gives bestaudio/best, video-only uses the fixed caps |
| Selectors.AdaptiveSelector | service/tasks/downloader.py:278-298 | bracket pass-through comes first, and audio-only always gives bestaudio/best |
| Selectors.ClientHeightReachesSelector | service/tasks/downloader.py:284-295 | a height N picked on the page reaches yt-dlp as a cap of N in both merged and video-only modes of downloader.py, but tasks.py caps video-only at 720 |
| Selectors.DirectSelector | service/tasks/downloader.py:270-276 | merged pins "v+a" only with both ids, video-only pins the video id, audio-only pins the audio id, and otherwise there is no pin |
| Selectors.FirstSelectors | service/tasks/downloader.py:270-312 | a pinned selector is tried first with the adaptive one kept for a retry; without a pin the adaptive one is used alone |
| Selectors.MergeFallback | service/tasks/downloader.py:459-464 | the fallback keeps the cap of the failed selector, or uses the uncapped mp4/m4a form |
| Selectors.FallbackKeepsCap | service/tasks/downloader.py:459-462 | falling back from a capped merged selector keeps its cap |
| Selectors.FallbackOfDefault | service/tasks/downloader.py:463-464 | falling back from bv+ba/b gives the uncapped mp4/m4a form |
| Selectors.LastLines | service/tasks/downloader.py:708 | the window is the last 60 lines, or all lines when fewer |
| Selectors.IsMergeCorruption | service/tasks/downloader.py:706-707 | no lines means no corruption |
| Selectors.CorruptionLooksAtTail | service/tasks/downloader.py:708-709 | lines before the last 60 have no influence on the verdict |
| Selectors.CorruptionInLastLine | service/tasks/downloader.py:708-709 | either ffmpeg phrase, in any case, in the last line is recognised as corruption |
| DownloadPlan.StartDownload | service/tasks/downloader.py:31-45 | the fast path is taken exactly when skip_probe is set and the cached info is a non-empty dict; the title defaults to "video"; a failed probe is classified |
| DownloadPlan.ReplaceForbidden | tasks.py:769 | each of \ / : * ? " < > \| becomes '_' and every other character stays |
| DownloadPlan.SafeFilename | tasks.py:768-773 | the file name is non-empty, at most 150 characters, and holds none of the forbidden characters |
| DownloadPlan.SafeFilenameKeepsSafe | tasks.py:768-773 | a name that is already safe, short and trimmed is kept as it is |
| DownloadPlan.Shorten | tasks.py:771-772 | a name longer than 150 characters is cut to its first 150 |
| DownloadPlan.InitialTransfer | service/tasks/downloader.py:403-413 | YouTube URLs get 4 and 4M; otherwise fast start raises the concurrency to at least 8; otherwise the site settings apply |
| DownloadPlan.ShouldUseAria2c | service/tasks/downloader.py:534-543 | aria2c is used only when present and the host contains none of youtube.com, youtu.be, googlevideo.com |
| DownloadPlan.UseAria2cInitially | service/tasks/downloader.py:415-417 | the missav setting turns aria2c off; otherwise the host rule decides |
| DownloadPlan.YoutubeHostNoAria2c | service/tasks/downloader.py:540-541 | any googlevideo.com host is refused |
| DownloadPlan.MetaMode | service/tasks/downloader.py:918-931 | the mode is always off, sidecar or folder; the task's trimmed lower-cased mode wins, then META_MODE, then frozen or LUMINA_DISABLE_META give off, else sidecar; unknown values give sidecar |
| DownloadPlan.EnvModeCaseSensitive | service/tasks/downloader.py:918-931 | META_MODE is not lower-cased, so "OFF" there gives sidecar |
| SiteConfig.SiteOf | site_configs.py:13-27 | the branches are exclusive with precedence missav, adult, twitter, youtube, and the rest is generic |
| SiteConfig.Defaults | site_configs.py:42-55 | defaults are no args, concurrency 4, chunk 4M, aria2c unset, timeout 30/15 and retries 5/2 |
| SiteConfig.DownloadArgs | site_configs.py:29-148 | a generic URL gets the defaults; concurrency is 4 or 16; aria2c is only ever set, to off, for missav |
| SiteConfig.MissavSettings | site_configs.py:58-87 | missav: chrome impersonation, concurrency 16, chunk 10M, aria2c off, timeout 90/15 and retries 8/2, extended 120/45 and 10/7 |
| SiteConfig.AdultOnlyChunkAndArgs | site_configs.py:90-99 | adult sites change only the chunk size (1M) and the arguments |
| SiteConfig.TwitterSettings | site_configs.py:102-116 | twitter: timeout 40/20 and retries 4/2; extended sets 55 and 6 whatever the fast mode |
| SiteConfig.YoutubeSettings | site_configs.py:123-146 | youtube: timeout 30 in either mode and fragment retries 10/5; extended gives 60/40, 8/7 and 15/8 |
| SiteConfig.ExtendedAppendsArgs | site_configs.py:82-146 | extended mode only appends arguments, and changes nothing for adult and generic URLs |
| SiteConfig.TwitterBySubstring | site_configs.py:17-19 | any URL containing x.com is a twitter URL, a plain substring test |
| SubtitleMerge.InRanges | service/utils/subtitles.py:12-18 | the range scan answers yes exactly when some range of the table holds the code point |
| SubtitleMerge.IsCjkScan | service/utils/subtitles.py:5-18 | a character is CJK exactly when its code point lies in U+4E00–U+9FFF, U+3400–U+4DBF, U+3040–U+30FF or U+AC00–U+D7AF (the same table as tasks.py:784-791) |
| SubtitleMerge.Cleaned | service/utils/subtitles.py:30-32 | every cleaned line is non-empty, there are no more of them than input lines, and there are none exactly when every line is blank |
| SubtitleMerge.Merge | service/utils/subtitles.py:34-42 | the merged text starts with the first cleaned line and ends with the last line's last character |
| SubtitleMerge.MergeLines | service/utils/subtitles.py:27-34 | the result is empty exactly when every line is blank, and otherwise begins with the first non-blank stripped line |
| SubtitleMerge.MergeAppend | service/utils/subtitles.py:35-41 | a further line is glued on directly exactly when the previous line ends and the new line starts with a CJK character, and with one space otherwise |
| SubtitleMerge.MergeLength | service/utils/subtitles.py:34-42 | the merged length is the total length of the cleaned lines plus the number of space joins |
| SubtitleMerge.MergeTwo | service/utils/subtitles.py:36-41 | two lines are joined directly when both touching characters are CJK, otherwise with one space |
| SubtitleMerge.Blocks | service/utils/subtitles.py:67-68 | no block is kept exactly when every cue's merged text is empty |
| SubtitleMerge.BlocksRendered | service/utils/subtitles.py:67-68 | every kept block is "index\ntiming\nmerged\n" of a cue whose merged text is non-empty |
| SubtitleMerge.NormalizeCues | service/utils/subtitles.py:60-72 | the file is left untouched exactly when every merged text is empty; otherwise it becomes the kept blocks joined by "\n" |
| SubtitleMerge.RenderShape | service/utils/subtitles.py:68 | a rendered block reads back as exactly four lines: index, timing, the merged text and an empty line |
| SubtitleMerge.NoNewlineInMerged | service/utils/subtitles.py:65-66 | the merged text of a cue is a single line |
| LegacyText.StripTags | tasks.py:795 | removing tags never lengthens a line |
| LegacyText.StripTagsTagFree | tasks.py:795 | after `<[^>]+>` removal no tag remains |
| LegacyText.StripTagsOfTagFree | tasks.py:795 | text without tags is left alone |
| LegacyText.StripTagsIdempotent | tasks.py:795 | removing tags twice is removing them once |
| LegacyText.Collapse | tasks.py:804 | collapsing keeps the first character, a whitespace one becoming a plain space |
| LegacyText.CollapseSingleSpaced | tasks.py:816 | after `\s+` → " " every whitespace is a single plain space |
| LegacyText.CollapseIdempotent | tasks.py:816 | collapsing twice is collapsing once |
| LegacyText.Unspace | tasks.py:818 | dropping space before punctuation keeps the first character unless it is such a space |
| LegacyText.UnspaceTight | tasks.py:818 | afterwards no whitespace stands right before , . ! ? ; : |
| LegacyText.UnspaceIdempotent | tasks.py:818 | dropping such spaces twice is dropping them once |
| LegacySubtitles.CleanLines | tasks.py:795-796 | the cleaned lines are non-empty and start and end with a visible character |
| LegacySubtitles.CleanLinesEmpty | tasks.py:795-798 | no line survives cleaning exactly when every line is blank once its tags are removed |
| LegacySubtitles.LegacyMergeEmpty | tasks.py:795-798 | the merged text is empty exactly when every line is blank after tag removal |
| LegacySubtitles.LegacyMerge | tasks.py:793-819 | the merged text is stripped |
| LegacySubtitles.DialogJoined | tasks.py:800-804 | when some line opens with a dash and a space, the dash-stripped lines are joined with " — " |
| LegacySubtitles.CjkLinesConcatenated | tasks.py:806-814 | when the cleaned lines are non-empty, none opens a dialog, none contains whitespace and at least half of their non-space characters are CJK, the merged text is the lines concatenated with no separator |
| LegacySubtitles.LatinLinesSpaced | tasks.py:806-818 | when fewer than half are CJK, lines are joined by single spaces |
| LegacySubtitles.LegacyMergeNoNewline | tasks.py:793-819 | the merged text of single lines is a single line |
| LegacySrt.SplitLines | tasks.py:832 | no line produced by `splitlines` holds a line boundary |
| LegacySrt.SplitLinesJoin | tasks.py:832 | splitting lines joined by "\n" gives them back when the last one is non-empty |
| LegacySrt.NormalizeBlock | tasks.py:838-839 | a block that is not a cue is kept stripped |
| LegacySrt.BlockShape | tasks.py:833-837 | a cue keeps its stripped index and timestamp followed by exactly one merged text line |
| LegacySrt.NormalizeBlockSettled | tasks.py:831-837 | rewriting a cue that is already rewritten changes nothing |
| LegacySrt.NormalizeSrt | tasks.py:840 | the file ends with exactly one newline, with no whitespace before it |
| LegacySrt.SingleBlockFile | tasks.py:828-840 | a file of one cue is that cue rewritten followed by "\n" |
| LruCache.Find | service/utils/cache.py:15 | a key is found exactly when it is stored, at its own position |
| LruCache.Without | service/utils/cache.py:18 | deleting a key removes exactly that key |
| LruCache.Get | service/utils/cache.py:14-22 | a missing key gives None and leaves the cache as it was |
| LruCache.GetPresent | service/utils/cache.py:15-21 | a live entry is returned and moved to most recently used; an expired one gives None and is deleted |
| LruCache.GetAtTtl | service/utils/cache.py:17 | an entry exactly as old as the TTL is still served |
| LruCache.Unlink | service/utils/cache.py:25-26 | moving an existing key to the end first removes it from its place |
| LruCache.Set | service/utils/cache.py:24-29 | keys stay unique and the cache's size limit and TTL settings are unchanged |
| LruCache.SetWithin | service/utils/cache.py:25-27 | below the bound, setting puts the key with the new value and time at the most-recent end and removes its old place |
| LruCache.SetEvicts | service/utils/cache.py:28-29 | a new key in a full cache evicts the least recently used entry |
| LruCache.SetExistingKeepsSize | service/utils/cache.py:25-27 | setting a present key does not change the size |
| LruCache.SetBounded | service/utils/cache.py:24-29 | after a set the size is at most `max_size` |
| LruCache.SetThenGet | service/utils/cache.py:14-29 | in a cache that holds at least one entry, a value just set is read back by any get no more than the TTL later |
| LruCache.ClearExpired | service/utils/cache.py:31-42 | the count removed plus the entries kept is the old size, and no kept entry is expired |
| LruCache.LiveCount | service/utils/cache.py:35-42 | the count returned is the number of expired entries |
| LruCache.LiveKeeps | service/utils/cache.py:35-40 | every unexpired entry is kept |
| LruCache.LiveInOrder | service/utils/cache.py:39-40 | the kept entries keep their recency order |
| LruCache.Size | service/utils/cache.py:44-46 | the size is the number of stored keys |
| Validation.ValidateUrl | service/utils/common.py:27-58 | a URL is accepted exactly when it is non-empty, at most 2048 characters once stripped, parses with a scheme and a netloc, has scheme http or https in any case, a host name of 1 to 253 characters, and is not a local-network host |
| Validation.SchemeChecked | service/utils/common.py:43-44 | an accepted URL's scheme is http or https, ignoring case |
| Validation.PrefixCoversPublic172 | service/utils/common.py:52-54 | the "172." prefix also refuses public hosts such as 172.217.x.y |
| Validation.OtherLoopbackPasses | service/utils/common.py:50-54 | loopback addresses other than 127.0.0.1, such as 127.0.0.2, are accepted |
| Validation.KeepWhere | service/utils/common.py:66 | filtering keeps only accepted characters, all taken from the input |
| Validation.Cut | service/utils/common.py:68-69 | the cut text is a prefix, at most `max_length` long, and the whole text when it fits |
| Validation.SanitizeInput | service/utils/common.py:60-77 | the output is at most `max_length` long, holds no control character below 32 other than \n \r \t and none of ; & \| ` $ ( ) < > " ', and is stripped |
| Validation.SanitizeIdempotent | service/utils/common.py:60-77 | sanitising sanitised text changes nothing |
| Validation.Retry | service/utils/common.py:79-99 | at most `max_retries`+1 calls; every call but the last raised a retried exception; the last outcome is passed on; a retried exception ends it only when the retries are spent; one sleep of backoff^k after each failed attempt k but the last |

Where the written description of the system and the code differ, the model
follows the code: the "172." prefix refuses all of 172.0.0.0/8 (public
172.217.x.y included) while other loopback addresses such as 127.0.0.2
pass; `currentTaskId` is never reset on the page, so only the first task of
a page session is recorded; `tasks.py` ignores `height<=N` in video-only
mode while `downloader.py` honours it; structured formats carry no `abr`,
so audio ranking falls to `tbr`.

## Findings

| source | as written | input that shows it | evidently intended | confidence | as-written member | corrected member |
|---|---|---|---|---|---|---|
| app.py:2046-2066 | the route holds the non-reentrant `tasks_lock` (tasks.py:67) while calling `cancel_task`, whose `get_task` (tasks.py:852, 133-134) takes that lock again | one queued task and `max_keep` 0 (or `remove_active` true) | cancel each surviving active task, remove it and count it in `removed_active` | not executed | TaskStore.ApiCleanupAsWritten | TaskStore.ApiCleanup |

## Left out

- Process execution and output scraping: running yt-dlp, ffmpeg, ffprobe and aria2c, probing media and classifying produced files are foreign processes.
- File-system work: reading and writing subtitle files (their encodings and `errors="ignore"`), meta-file writes, partial-file scans and renames; only the text transforms are modelled.
- Flask routes, server-sent event framing and the JSON serialisation of responses and stream messages: the stream events are modelled only as the input alphabet of `ClientSession`.
- Concurrency: worker threads, queues, locks, the in-flight request coalescing with its `Timer` cleanup and the prewarm thread; the task store and the cache are stepped sequentially.
- Network: the Twitter preflight, proxy checks and the asynchronous cancel `fetch` (modelled only as "a cancel is posted").
- DOM and UI: markup, styles, scrolling, the debounce timer, the progress-bar width, stats text and `updateSubtitleOptions`.
- Floating point: `toFixed` display formatting and fractional durations; progress, ETA and retry sleeps are `real`, and wall-clock time is an integer tick passed in.
- Unicode: case folding, `isdigit` and `\d` are ASCII-only; Python accepts other Unicode digits and letters.
- Logging calls (`logger.warning`, `logger.error`) have no effect on results and are dropped.
- The regular-expression engine: the cue scanner of service/utils/subtitles.py:58 and the block split of tasks.py:828 are not modelled; `SubtitleMerge.NormalizeCues` takes the matched cues and `LegacySrt.NormalizeSrt` the split blocks as input. The timestamp pattern, `<[^>]+>`, `\s+`, the dialog dash and the punctuation rule are hand-written recognisers.
- SubtitleMerge.NormalizeCues: exceptions swallowed by `except Exception: pass` (subtitles.py:74-75) are not modelled; they come only from file I/O.
- Validation.ValidateUrl: `urlparse` is a parameter, and the non-string branch of `isinstance` does not arise for a `string` argument.
- Validation.SanitizeInput: the non-string branch of `isinstance` does not arise for a `string` argument.
- Validation.Retry: the listed exception types become a `retried` flag on each outcome, the exception object is its message, and sleeps are recorded as exact powers rather than floats.
- Task fields that only carry data between stages (file paths, metadata, timing details) are not part of the `Task` record; fresh ids (`uuid4`) are a parameter; killing the worker's process on cancel is a side effect left out.
- DownloadPlan: the re-probe after a failed fast start (service/tasks/downloader.py:441-448) and the SSL-EOF retry (service/tasks/downloader.py:474-480) are left out; both are driven by the output of the yt-dlp process.
- SiteConfig: the `primary` flag of `get_download_args` is not a parameter, since its branch (site_configs.py:118-120) does nothing.
- TaskStore.ApiCleanup: states the cleanup the route evidently intends; the route as written never replies once an active task is to be removed (see Findings), and `ApiCleanupAsWritten` models that hang. `ApiCleanup`, `CleanupAllEmpties` and `CleanupActive` describe the reply the route does not reach in that case.
- LegacySubtitles.CjkLinesConcatenated: covers only cleaned lines without inner whitespace; when a CJK line holds spaces, the removal of whitespace before punctuation (tasks.py:818) can change the concatenated text, and no lemma states that case.
- RequestBuild.MinimalJson: durations are integers, so `JSON.stringify` of a fractional duration is not modelled; the `catch` branch of the fast-start block (static/main.js:557-559) cannot be reached for an object of strings and numbers; the URL encoding of `info_cache` is not modelled.
- FormatStructure.RawFormat: a missing `format_id` is modelled as `""`, while `str(None)` in app.py:1842-1843 writes the text "None" into the pair, which the client then treats as a present id.
- The MissAV extractor, configuration discovery, build and release scripts and the ad-hoc network scripts are outside the core.
