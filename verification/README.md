# A verified model of the sandbox broker, its runner, the binding approvals and the repair loops

This project models, in Dafny, the parts of the repository where several pieces of code have to agree, and proves what each of
them relies on. Nothing was executed: every statement below is a contract that Dafny checks for all inputs, all interleavings or all
runs.

* **Broker** (`Contracts`, `BrokerModel`, `BrokerProofs`, `BrokerSafety`, `BrokerReports`, `BrokerAdmission`, `BrokerCapacity`,
  `BrokerContainers`, `BrokerRuntime`). A transition system whose actions are the stretches of code between two suspension points, so
  that its runs are the interleavings of submissions, DELETE, background tasks, `/v1/execute` calls, reaping, eviction and shutdown.
  `BrokerRuntime` holds the mutable job records, the job table and the semaphore; each of its methods is proved to do exactly one
  action. What each action does is then stated again without the functions that compute it: which reply a submission gets, which step
  settles a job and what it leaves. The counter of the semaphore has the fairness of `asyncio.Semaphore`: a slot that is given back
  goes to a waiter first.
* **Broker and runner** (`PyText`, `Filenames`, `Workspace`, `Artifacts`, `ArtifactReview`, `Streams`, `ResultLine`). What the broker
  accepts and what the runner writes; what the runner collects and what the broker checks again; what a program prints, how long the
  result line becomes and what is reported of it. Base64, UTF-8 and JSON strings are modelled down to their characters.
* **CSS codemod** (`CssText`, `StripFallbacks`, `StripCalls`, `StripTheorems`, `StripSyntax`, `StripValues`). The rewriting of `var(--x, fallback)`, its
  loops, and the syntax and value of a text in the sense of section 3 of CSS Custom Properties for Cascading Variables Module Level 1.
* **Binding approvals** (`Bindings`, `BindingProofs`, `BindingReplies`, `BindingTheorems`, `BindingSensitivity`, `BindingDesk`) and
  **activity list** (`Activity`). A binding carries, beside its columns, whether its base was sensitive when the Knowledge approval was given, and whether
  an approver approved their own request as an exempt actor; the theorems read these, the code has no use for them.
* **Label codemod and migrations** (`PairLabels`, `PairLabelSteps`, `JsxIds`, `PairLabelIds`, `Renumber`, `PrimaryOwner`, `FoldBackfill`).
* `Wrappers` and `Sets` hold what several of these share.

A file is read best from its data types down; the theorems come last. `dafny verify dfyconfig.toml` checks everything.

## Where the code does not do what its text promises

Each of these is stated as an exact condition, or as a concrete failing input beside the property that does hold.

* The fallback codemod changes the meaning of a text exactly when it drops a fallback from a call that is not a well-formed reference to
  the same property: `myvar(--x, 1px)`, `#var(--a,b)`, `var(--a,var(1))`, `var(--a, !)`, and `var(--a<U+00A0>,b)`, where CSS reads the
  no-break space as part of the name. Inside a call that is malformed for another reason, or a fallback that is never used, such
  a drop does no harm. With an unclosed `var(` it adds a parenthesis even when it removes nothing.
* The result dictionary holds the first 200000 characters of the standard output exactly when no high surrogate among them is directly
  followed by a low one: the JSON line joins the two. For the error stream something must also have been written, or docker been silent.
* A client receives the first 200000 characters of both streams exactly when none of them is a surrogate and no empty error stream was
  replaced: one answer holds both, a lone surrogate in either cannot be encoded, and then there is no answer.
* The result line of a legal run can exceed what the broker reads. It does exactly when the characters of the streams, at 1, 2, 6 or 12
  bytes each, and the artifacts add up to more than 16 MiB: never with up to 63000 characters above U+FFFF, and with two full streams of
  emoji beside two text files of 5 MiB.
* A whole run is lost exactly when a candidate's name is not valid UTF-8, or a candidate's content defeats the JSON parser (an integer of
  over 4300 digits, nesting that is too deep) and the files before it leave room for it.
* Rolling back accepts a discarded draft that was never published, which puts a version with pending bindings live exactly when the draft
  still has such a binding.
* Making a Knowledge Base sensitive looks at no binding. A binding approved before then stays published without a domain approver; the
  update keeps separation exactly when every approved or published binding of the base already has an independent one.
* The label codemod collects ids of the form `id="..."` only. An id it inserts has one place in the output exactly when the source spells
  it nowhere, with white space around the equals sign, in other quotes or in braces: `<div id = 'c-name'/><label>Name</label><input/>` in
  C.tsx ends with two.
* A new version cloned from a discarded draft can be that very draft, recycled: its bindings are deleted before they are copied. A clone
  binds what its source still bound exactly when the source is not the recycled draft, or bound nothing.
* Slots are not containers: a DELETE that precedes the docker process gives the slot back while the container still starts. Containers stay
  backed by slots exactly when DELETE and shutdown do not hit a live job whose process is still being created, and give a slot back after
  a kill only once the task of the job has left its container.
* "Too many tracked jobs" is reachable exactly when the table is not larger than the number of slots.
* The unique index on primary owners can be built after the backfill exactly when no project had two primary owners before.

## Model

| member | source | states |
|---|---|---|
| Contracts.TerminalHasNoWayOut | backend/app/sandbox/contracts.py:40-81 | a state is terminal exactly when the transition table lets nothing leave it |
| Contracts.AllowedEdges | backend/app/sandbox/contracts.py:50-77 | the nine edges of the transition table, one by one |
| BrokerSafety.SlotAccounting | backend/app/sandbox_broker.py:641-659 | in every reachable state free slots, granted and held execute slots and unreleased jobs, tracked or forgotten, add up to the maximum |
| BrokerSafety.LiveJobs | backend/app/sandbox_broker.py:704-727 | a live job is tracked under its id and holds its slot; a cancel request means CANCELLED; an ended task leaves a terminal, released job |
| BrokerSafety.SettledJobsAreFrozen | backend/app/sandbox_broker.py:620-628 | over every further run a terminal job keeps state, time stamp, result, codes and detail, and a released slot stays released |
| BrokerSafety.ReportsFitStates | backend/app/sandbox_broker.py:752-770 | a result is reported exactly for SUCCEEDED, the code is OK exactly for exit code 0, and the error code tells timeouts and cancels from failures |
| BrokerSafety.EdgesAreLegal | backend/app/sandbox_broker.py:620-634 | one action moves each job along at most one edge of the transition table, and leaves terminal jobs where they are |
| BrokerReports.ReportedIsReturned | backend/app/sandbox_broker.py:671-680 | over every run a status request reports a result if and only if the container returned exactly this result, both streams and the exit code, while the job was live |
| BrokerReports.SettledAsItEnded | backend/app/sandbox_broker.py:683-727 | over every run, state, result, codes, detail and time of a settled job are those its one settling step left: the end of its task by the table of exits, or a DELETE or the shutdown reaching it |
| BrokerReports.StepSettles | backend/app/sandbox_broker.py:671-701 | every step leaves settled jobs as they are and settles a live job exactly when its task ends, a DELETE names it or the shutdown loop comes to it |
| BrokerReports.MessageCodes | backend/app/sandbox_broker.py:683-701 | the error code each message of the broker leaves |
| BrokerReports.TaskMoves | backend/app/sandbox_broker.py:704-727 | where a task stands after each of its steps, killed at once if it was cancelled before its process existed; no other job changes |
| BrokerReports.RunningIffAttached | backend/app/sandbox_broker.py:512-529 | a live job is running exactly when its docker process exists |
| BrokerSafety.QuietBrokerIsIdle | backend/app/sandbox_broker.py:704-727 | once every task has ended and no execute call holds or was granted a slot, all slots are free |
| BrokerSafety.TrackedIsTheTable | backend/app/sandbox_broker.py:906-910 | the snapshot shutdown works on is the tracked jobs, each once, in order of creation |
| BrokerSafety.ShutdownSettlesEveryJob | backend/app/sandbox_broker.py:906-918 | when a shutdown has finished, whatever ran in between, every job that existed at its start is terminal |
| BrokerCapacity.OldestIsUnique | backend/app/sandbox_broker.py:743-749 | sorting by time and id leaves one job to evict |
| BrokerAdmission.ReplyIff | backend/app/sandbox_broker.py:792-809 | each reply to a submission, by the broker before it: already there exactly if the id is tracked and its job live or within its retention, too many exactly without room, no capacity exactly with room but no free slot or with a waiter, accepted otherwise |
| BrokerAdmission.AcceptedAddsOneJob | backend/app/sandbox_broker.py:808-816 | an accepted submission adds one pending job, tracked under its id, and takes one slot |
| BrokerAdmission.RefusedAddsNothing | backend/app/sandbox_broker.py:792-809 | a refused one changes no job and no slot |
| BrokerAdmission.TrackedAfterSubmit | backend/app/sandbox_broker.py:730-749 | exactly the stale ids are forgotten, and, when an unknown id meets a full table, the one settled first, with the smaller id at the same time, even if the submission is then refused |
| BrokerAdmission.TrackedAfterGet | backend/app/sandbox_broker.py:826-831 | a status request forgets exactly the stale ids and changes nothing else |
| BrokerAdmission.NoWakeupIsLost | backend/app/sandbox_broker.py:641-651 | in every reachable state whoever waits while a slot is free has somebody ahead who was just handed one |
| BrokerAdmission.NobodyIsOvertaken | backend/app/sandbox_broker.py:401-410 | in every reachable state an arriving execute call is served at once if and only if a slot is free and none was just handed out; it then takes exactly that slot, otherwise it waits, behind everyone who waits already |
| BrokerCapacity.NoRoomMeansAllLive | backend/app/sandbox_broker.py:792-802 | eviction finds no room exactly when the table is full and no tracked job is terminal |
| BrokerCapacity.CapacityReportIsHonest | backend/app/sandbox_broker.py:862-875 | the slots reported in use are those held by execute calls and unreleased jobs, active jobs never exceed them, tracked jobs never exceed the limit |
| BrokerAdmission.ActiveJobsAreTheLiveJobs | backend/app/sandbox_broker.py:862-875 | the active jobs reported are all the live jobs, tracked or not, and the tracked jobs all tracked ids |
| BrokerCapacity.TableRefusesIffNotLargerThanSlots | backend/app/sandbox_broker.py:796-802 | the refusal for too many tracked jobs is reachable if and only if the tracking limit is not larger than the number of slots |
| BrokerCapacity.WantedContainersAreBounded | backend/app/sandbox_broker.py:524-529 | containers nobody asked to stop, with the execute calls, never exceed the slots |
| BrokerCapacity.ContainersCanExceedSlots | backend/app/sandbox_broker.py:847-855 | a run with one slot and two containers, through a DELETE before the process exists |
| BrokerContainers.DeleteKeepsBackedIff | backend/app/sandbox_broker.py:837-852 | no job has given back its slot while its container runs or starts; DELETE keeps that if and only if it does not hit a live job whose docker process is still being created |
| BrokerContainers.DeleteResumesKeepsBackedIff | backend/app/sandbox_broker.py:854-855 | DELETE after the kill keeps it if and only if the task of the job has left its container |
| BrokerContainers.SweepKeepsBackedIff | backend/app/sandbox_broker.py:906-918 | a stretch of the shutdown loop keeps it if and only if it meets no live job whose docker process is still being created |
| BrokerContainers.ShutdownResumesKeepsBackedIff | backend/app/sandbox_broker.py:910-918 | the resumed shutdown keeps it if and only if both hold |
| BrokerContainers.StepKeepsBackedIff | backend/app/sandbox_broker.py:641-651 | a step of the broker keeps it if and only if it waits in these ways; task steps, submissions, reaping and execute calls always do |
| BrokerContainers.WaitingKeepsContainersWithinSlots | backend/app/sandbox_broker.py:641-651 | over every run in which DELETE and shutdown wait so, containers, started or starting, plus execute calls never exceed the slots |
| BrokerRuntime.JobRecord.SetState | backend/app/sandbox_broker.py:620-628 | the guarded in-place transition does what the model says and tells whether the target was reached |
| BrokerRuntime.JobRecord.FinishSuccess | backend/app/sandbox_broker.py:671-680 | the record after a successful run is the model's, and a terminal record is untouched |
| BrokerRuntime.JobRecord.FinishFromHttp | backend/app/sandbox_broker.py:683-701 | each HTTP failure leads to the model's state and error code |
| BrokerRuntime.JobRecord.FinishExit | backend/app/sandbox_broker.py:710-724 | the three except branches |
| BrokerRuntime.LiveBroker.ReleaseOnce | backend/app/sandbox_broker.py:641-651 | the semaphore rises exactly when the flag rises |
| BrokerRuntime.LiveBroker.ReapLocked | backend/app/sandbox_broker.py:730-740 | the loop drops exactly the terminal jobs past their retention |
| BrokerRuntime.LiveBroker.OldestTerminal | backend/app/sandbox_broker.py:743-747 | the scan finds the least terminal job, or that there is none |
| BrokerRuntime.LiveBroker.EvictOldestTerminalLocked | backend/app/sandbox_broker.py:743-749 | the eviction drops that job and no other |
| BrokerRuntime.LiveBroker.SubmitLocked | backend/app/sandbox_broker.py:792-816 | reply and new state of a submission, in all four outcomes |
| BrokerRuntime.LiveBroker.GetLocked | backend/app/sandbox_broker.py:826-831 | a status request reaps and then reports the tracked record |
| BrokerRuntime.LiveBroker.DeleteLocked | backend/app/sandbox_broker.py:837-852 | DELETE up to its suspension, without effect on unknown and settled jobs |
| BrokerRuntime.LiveBroker.DeleteResumes | backend/app/sandbox_broker.py:854-855 | DELETE after the kill |
| BrokerRuntime.LiveBroker.TaskStarts | backend/app/sandbox_broker.py:704-709 | a task cancelled before its first step ends without a container |
| BrokerRuntime.LiveBroker.ProcessCreated | backend/app/sandbox_broker.py:521-529 | attaching the process, and the cancel that came first |
| BrokerRuntime.LiveBroker.FinishTask | backend/app/sandbox_broker.py:708-727 | the end of a task with its finally clause |
| BrokerRuntime.LiveBroker.CleanupEnds | backend/app/sandbox_broker.py:540-549 | the end of the cleanup wait after an aborted exchange, cancelled meanwhile or not |
| BrokerRuntime.LiveBroker.ShutdownStarts | backend/app/sandbox_broker.py:906-918 | the shutdown loop up to its first kill |
| BrokerRuntime.LiveBroker.ShutdownResumes | backend/app/sandbox_broker.py:910-918 | the shutdown loop from one kill to the next |
| BrokerRuntime.LiveBroker.CapacityReport | backend/app/sandbox_broker.py:863-875 | the counting loop gives the model's report |
| PyText.Base64RoundTrip | sandbox/runner.py:207-207 | decoding undoes encoding (section 4 of RFC 4648), four characters for every three bytes begun |
| PyText.DecodedSizeIsExact | backend/app/sandbox_broker.py:137-146 | the length arithmetic equals the decoded length of every string the strict decoder accepts |
| PyText.WellFormedIsAccepted | backend/app/sandbox_broker.py:137-146 | every well-formed padded string is accepted, and its decoded size is three bytes a group less the padding |
| PyText.DecodesIff | backend/app/sandbox_broker.py:184-187 | the strict decoder accepts a string if and only if it is symbols followed by padding, any amount after complete groups and exactly what is missing after an incomplete one |
| PyText.Utf8RoundTrip | sandbox/runner.py:232-242 | reading UTF-8 (section 3 of RFC 3629) undoes encoding |
| Filenames.SafeNamesAreTheirOwnPath | sandbox/runner.py:60-76 | a name the policy accepts survives basename and normalisation unchanged |
| Filenames.SafeIff | sandbox/runner.py:60-76 | the names the policy accepts |
| Workspace.ValidateFiles | backend/app/sandbox_broker.py:158-173 | accepts the text map if and only if names, encodings, sizes, total and count are within the policy |
| Workspace.ValidateFilesB64 | backend/app/sandbox_broker.py:175-194 | accepts the binary map if and only if names, encodings, decoded sizes, total and count are within the policy |
| Workspace.ValidateCombined | backend/app/sandbox_broker.py:196-213 | without decoding, accepts if and only if the names are disjoint and the joint count and joint decoded bytes are within the limits |
| Workspace.ValidateRequest | backend/app/sandbox_broker.py:149-213 | the three validators together are the acceptance condition |
| Workspace.WriteAllTexts | sandbox/runner.py:232-242 | the loop over text files, with unsafe names skipped and unencodable contents left empty |
| Workspace.WriteAllBinaries | sandbox/runner.py:243-263 | the loop over binary files, with taken names and undecodable contents skipped |
| Workspace.Materialise | sandbox/runner.py:231-263 | both loops after one another: the directory and the input names, or the crash |
| Workspace.WorkspaceIsTheRequest | sandbox/runner.py:231-263 | for every accepted request the directory is the encoded text files and the decoded binary files, one file an entry, nothing else, within the byte limit, and exactly those names are inputs |
| Workspace.LastTextWins | sandbox/runner.py:231-242 | of any payload, accepted or not, each text file with a safe name is there, of those with one name the last, and the run is lost exactly by an unencodable name |
| Workspace.FirstBinaryWins | sandbox/runner.py:243-263 | no binary file replaces a text file, and of the decodable ones with one safe name the first is there |
| Artifacts.CollectArtifacts | sandbox/runner.py:149-210 | the loop over any directory listing, in any order, with every skip and both ways to raise |
| ArtifactReview.CollectsWhatIsPacked | sandbox/runner.py:161-210 | if no entry makes collecting raise, exactly the packed files are collected, in order, with the canonical name, the listed type and the size, digest and encoding of the very content |
| ArtifactReview.NoFileIsLostSilently | sandbox/runner.py:161-210 | unless collecting raises, a name is collected or reported if and only if it is the canonical name of a file of a listed suffix that is no input under either spelling |
| Artifacts.ValidatedArtifacts | backend/app/sandbox_broker.py:235-283 | the loop over any JSON value, with its refusals, the TypeError a non-ASCII digest gives and the RecursionError of a content nested too deeply |
| ArtifactReview.AcceptedIff | backend/app/sandbox_broker.py:235-283 | a list is accepted if and only if it has at most five entries, each an object with a safe name, the type of its suffix, a content that decodes to as many bytes as it says within the limit, their SHA-256 as its lowered digest, and a content check that finds nothing, and together they decode to no more than the total |
| ArtifactReview.AcceptedEntries | backend/app/sandbox_broker.py:270-282 | each entry is returned with the digest and the encoding of its decoded content |
| ArtifactReview.OnlyListsAndNull | backend/app/sandbox_broker.py:235-239 | null is the empty list, and anything else but a list is refused |
| ArtifactReview.FailsIff | backend/app/sandbox_broker.py:268-270 | a review ends in another error than a refusal exactly if the first entry that is not accepted has a digest outside ASCII, or is right but nested too deeply |
| Artifacts.CollectedIsAcceptedUnchanged | backend/app/sandbox_broker.py:235-283 | every list the runner can collect is accepted and returned unchanged; no input is in it; count and total size are within the limits |
| Artifacts.EveryCandidateIsAccountedFor | sandbox/runner.py:161-210 | each candidate file is an artifact or has its own warning |
| Artifacts.UndecodableNameLosesTheRun | sandbox/runner.py:74-75 | one candidate with an unencodable name makes collecting raise whatever else the directory holds |
| Artifacts.RunLostIffFatalEntry | sandbox/runner.py:161-201 | for every directory, collecting raises if and only if some candidate has an unencodable name, or contents that defeat the parser and room left by the files packed before it |
| Artifacts.UndecodableNamesHoldSurrogates | sandbox/runner.py:74-75 | such a name holds a lone surrogate |
| Streams.BoundedTextIO.Write | sandbox/runner.py:89-96 | the object holds the first characters of everything written to it so far, up to its limit, and knows whether there were more; a write reports its full length |
| Streams.BoundedTextIO.BoundedValue | sandbox/runner.py:98-99 | the first characters of everything ever written, up to the limit, followed by the marker exactly when more than that was written |
| Streams.BufferHoldsThePrefix | sandbox/runner.py:83-99 | however the output is cut into writes, the buffer is the first characters of all of it and the flag tells whether there were more |
| Streams.EmitCutChangesNothing | sandbox/runner.py:106-116 | the second truncation changes nothing |
| Streams.JsonRoundTrip | sandbox/runner.py:117-126 | a string through the JSON line (section 7 of RFC 8259) comes back with adjacent surrogates joined and is otherwise the same |
| Streams.MergeIsIdentityIff | sandbox/runner.py:117-126 | joining changes a text if and only if it has adjacent surrogates |
| Streams.ReportIsThePrefixIff | backend/app/sandbox_broker.py:566-566 | the standard output in the result dictionary is exactly the first 200000 characters written if and only if no high surrogate among them is directly followed by a low one |
| Streams.ErrorReportIsThePrefixIff | backend/app/sandbox_broker.py:567-573 | the error stream is that if and only if the same holds of it and it is not an empty one replaced because docker wrote to its own |
| Streams.ClientGetsBothPrefixesIff | backend/app/sandbox_broker.py:752-770 | a client receives both prefixes if and only if no surrogate is in either and no error stream was replaced, and nothing if and only if one of the two reported texts holds a surrogate; collected artifacts never prevent the answer |
| Streams.OtherStreamLosesThisOne | backend/app/sandbox_broker.py:824-832 | a program that prints ok and writes U+DC80 to its error stream gets no answer |
| Streams.ArtifactStringsSurvive | sandbox/runner.py:117-126 | every string of an artifact is read back by the broker as it was |
| ResultLine.LineFitsIff | backend/app/sandbox_broker.py:417-425 | the line of a run is within the read limit if and only if the characters kept of the streams, at their 1, 2, 6 or 12 bytes, with the markers, the exit code and the names and sizes of the artifacts, leave room in 16 MiB |
| ResultLine.FewAstralsFit | backend/app/sandbox_broker.py:417-425 | with at most 63000 characters above U+FFFF among those kept there is room whatever artifacts may be collected |
| ResultLine.LineFits | backend/app/sandbox_broker.py:417-425 | with no such character the line with any collectable artifacts is within the read limit |
| ResultLine.OrdinaryRunOverflows | backend/app/sandbox_broker.py:67-71 | under every policy that accepts the names a.txt and b.txt and 5 MiB of letters, a program that leaves these two files and fills both streams with one emoji is collected without a warning, and its line exceeds the limit |
| ResultLine.ReadLimited | backend/app/sandbox_broker.py:417-425 | however the pipe cuts the output, the read returns all of it if and only if it is within the limit |
| StripFallbacks.FindVar | scripts/codemods/strip-token-fallbacks.py:44-44 | the first call at or after a position |
| StripFallbacks.MatchingClose | scripts/codemods/strip-token-fallbacks.py:50-59 | the scan stops at the matching parenthesis or the end |
| StripFallbacks.StripText | scripts/codemods/strip-token-fallbacks.py:37-71 | the loops and the recursion compute the structural rewriting and its count |
| StripCalls.PyArgumentIff | scripts/codemods/strip-token-fallbacks.py:61-61 | the regular expression matches exactly white space, a token name, white space and an optional comma with the fallback, and reads these parts |
| StripCalls.UndefinedCallKeepsRewrittenFallback | scripts/codemods/strip-token-fallbacks.py:66-69 | a call of an undefined token keeps everything before its fallback, and the fallback is rewritten and counted like any text |
| StripCalls.DefinedCallLosesFallback | scripts/codemods/strip-token-fallbacks.py:62-64 | a call of a defined token becomes the bare reference and counts once |
| StripCalls.OtherCallIsCopied | scripts/codemods/strip-token-fallbacks.py:66-69 | every other call is copied and not counted |
| StripCalls.RemovedIff | scripts/codemods/strip-token-fallbacks.py:37-71 | something is counted if and only if a call of a defined token with a fallback stands in the text or in a fallback, however deep |
| StripCalls.NoFallbackIsLeft | scripts/codemods/strip-token-fallbacks.py:37-71 | after one pass no such call is left at any depth, on every text |
| StripTheorems.IdentityIffClosed | scripts/codemods/strip-token-fallbacks.py:37-71 | when nothing is removed the text is unchanged if and only if every call is closed |
| StripTheorems.SecondPassRemovesNothing | scripts/codemods/strip-token-fallbacks.py:37-71 | a second pass removes nothing, on every text |
| StripTheorems.StripKeepsDepth | scripts/codemods/strip-token-fallbacks.py:49-59 | the rewriting keeps the parenthesis depth of closed text |
| StripSyntax.BracketsOfStrip | scripts/codemods/strip-token-fallbacks.py:61-69 | which brackets are open, and whether every call is well formed, after the rewriting is decided by the text before it |
| StripSyntax.BracketsStay | scripts/codemods/strip-token-fallbacks.py:61-69 | the rewriting never makes a well-formed closed text malformed |
| StripValues.ValueKeptIff | scripts/codemods/strip-token-fallbacks.py:61-69 | the value of a closed text is kept in every environment that sets the defined tokens if and only if each call that loses its fallback is unglued, well formed and read by CSS with the same name, and no malformed call around one becomes well formed; calls inside a fallback that is never used are exempt |
| StripValues.GluedCallIsBroken | scripts/codemods/strip-token-fallbacks.py:44-69 | a function whose name ends in var, or a block after a hash or at-keyword, loses what follows its comma, so its value changes |
| StripValues.MalformedCallIsBroken | scripts/codemods/strip-token-fallbacks.py:61-64 | a malformed call of a defined token becomes a valid reference |
| StripValues.ExoticSpaceIsBroken | scripts/codemods/strip-token-fallbacks.py:61-64 | in particular one that begins with white space only Python knows |
| StripValues.OtherNameIsBroken | scripts/codemods/strip-token-fallbacks.py:61-64 | where CSS reads a longer name than the regular expression, the reference goes to another property |
| StripValues.NestedMalformedCall | scripts/codemods/strip-token-fallbacks.py:61-64 | `var(--a,var(1))` changes its value |
| StripValues.ExclamationMark | scripts/codemods/strip-token-fallbacks.py:61-64 | so does `var(--a, !)` |
| StripValues.HashIsNoReference | scripts/codemods/strip-token-fallbacks.py:44-64 | so does `#var(--a,b)` |
| StripValues.NoBreakSpaceIsPartOfTheName | scripts/codemods/strip-token-fallbacks.py:61-64 | so does `var(--a,b)` with a no-break space before the comma |
| BindingTheorems.ApprovalsAreSeparated | backend/app/api/admin_agents.py:1637-1683 | in every run, whatever becomes of the Knowledge Bases, an approved or published binding in which no exempt approver approved their own request has a Knowledge approver other than the requester and, if the base was sensitive when that approval was given, a domain approver other than both |
| BindingTheorems.SeparationWithoutBypass | backend/app/api/admin_agents.py:1683-1710 | in a run without a bypassing actor that holds of every approved or published binding |
| BindingReplies.BindDoneIff | backend/app/api/admin_agents.py:1556-1602 | when a request to bind succeeds, when the version or base is not found, and when only the release settings are refused |
| BindingReplies.BindBinds | backend/app/api/admin_agents.py:1585-1634 | the row it leaves, new or reactivated, pending or approved by a bypass; no other row changes |
| BindingReplies.KnowledgeApprovalDoneIff | backend/app/api/admin_agents.py:1637-1660 | a Knowledge approval succeeds exactly on a binding that waits for one, by another than the requester or a bypass |
| BindingReplies.KnowledgeApprovalApproves | backend/app/api/admin_agents.py:1660-1680 | it leads to a domain approval on a sensitive base, else to publication on a live version, else to approval |
| BindingReplies.DomainApprovalDoneIff | backend/app/api/admin_agents.py:1683-1710 | a domain approval succeeds exactly on a binding that waits for one, by a third person or a bypass |
| BindingReplies.DomainApprovalApproves | backend/app/api/admin_agents.py:1710-1725 | it leads to publication on a live version and else to approval |
| BindingReplies.RevokeDoneIff | backend/app/services/agent_definition_service.py:517-552 | a revocation succeeds exactly on an unrevoked binding of a draft, with a reason, and changes its status only |
| BindingReplies.PublishDoneIff | backend/app/services/agent_definition_service.py:404-445 | a version is published exactly if it is in review, no binding waits, the gates hold, and the actor is not its creator or bypasses |
| BindingReplies.PublishGoesLive | backend/app/services/agent_definition_service.py:446-473 | the version becomes live, the holder of the active scope is archived, the approved bindings of the version are published, nothing else changes |
| BindingReplies.RollbackDoneIff | backend/app/services/agent_definition_service.py:476-502 | a rollback succeeds exactly on a live or archived version, with a reason, if the gates hold |
| BindingReplies.RollbackGoesLive | backend/app/services/agent_definition_service.py:476-514 | the version becomes live, the holder is archived, and no binding changes |
| BindingReplies.SubmitDoneIff | backend/app/services/agent_definition_service.py:294-312 | a submission succeeds exactly on a draft that passes the gates |
| BindingReplies.DiscardDoneIff | backend/app/services/agent_definition_service.py:315-401 | a draft is discarded exactly if its agent has another version |
| BindingReplies.CreateDoneIff | backend/app/api/admin_agents.py:1301-1325 | when a version is created |
| BindingReplies.CreateAddsDraft | backend/app/services/agent_definition_service.py:166-250 | the new version, on a recycled or a new row, is an unpublished draft of its creator; no other version changes |
| BindingReplies.PublishersAreNotCreators | backend/app/services/agent_definition_service.py:433-435 | in every run, whoever publishes a version without bypassing did not create it |
| BindingReplies.LiveVersionsWereTakenLive | backend/app/services/agent_definition_service.py:446-514 | in every run, a live version was published by somebody other than its creator or by a bypass, or rolled back to |
| BindingSensitivity.UpdateKbKeepsSeparationIff | backend/app/api/admin_knowledge.py:483-501 | judged by the sensitivity of today, an update of a Knowledge Base keeps separation if and only if it does not make the base sensitive or every approved or published, not bypassed binding of it has a domain approver other than requester and Knowledge approver |
| BindingSensitivity.GuardedSensitivityKeepsSeparation | backend/app/api/admin_knowledge.py:483-501 | with that guard on the update, separation by the sensitivity of today holds at the end of every run |
| BindingSensitivity.RaisedSensitivityLeavesNoDomainApprover | backend/app/api/admin_knowledge.py:483-501 | without it, a run with no bypassing actor ends with a published binding of a sensitive base and no domain approver |
| BindingTheorems.ReactivationStartsOver | backend/app/api/admin_agents.py:1585-1602 | binding again after a revocation forgets every earlier approval |
| BindingTheorems.CloneStartsOver | backend/app/api/admin_agents.py:1327-1359 | every row of a cloned version starts over and binds what the source bound before the request |
| BindingTheorems.CloneBindsAgainUnlessRecycled | backend/app/services/agent_definition_service.py:166-180 | a base the source still bound before the request is bound in the new version if and only if the source is not the draft that is recycled |
| BindingTheorems.CloneBindsAgainIff | backend/app/api/admin_agents.py:1327-1359 | the new version binds exactly the bases the source still bound, if and only if the source is not the recycled draft or bound none |
| BindingTheorems.CloneOfRecycledDraftBindsNothing | backend/app/services/agent_definition_service.py:166-180 | a run in which a discarded draft is cloned and recycled, the request succeeds, and nothing is bound |
| BindingTheorems.PublishedNeverReturns | backend/app/services/agent_definition_service.py:151-250 | an ever-published version is never recycled and never a draft or in review again |
| BindingTheorems.PublishedHasNothingPending | backend/app/api/admin_agents.py:1429-1462 | in every run each binding of a live version is published or revoked, unless a rollback of the run took the version live although it was never published and had an unsettled binding |
| BindingTheorems.RollbackKeepsCleanIff | backend/app/services/agent_definition_service.py:476-514 | a rollback keeps that if and only if its target was published before or has no unsettled binding |
| BindingTheorems.DiscardedDraftGoesLivePending | backend/app/services/agent_definition_service.py:476-502 | a run through discard and rollback that ends with a published version awaiting an approval |
| BindingDesk.Tables.CreateKnowledgeBinding | backend/app/api/admin_agents.py:1556-1634 | reply and tables after a request, new or reactivated, with and without bypass |
| BindingDesk.Tables.ApproveKnowledgeBinding | backend/app/api/admin_agents.py:1637-1680 | reply and tables after a Knowledge approval |
| BindingDesk.Tables.ApproveDomainBinding | backend/app/api/admin_agents.py:1683-1725 | reply and tables after a domain approval |
| BindingDesk.Tables.RevokeKnowledgeBinding | backend/app/services/agent_definition_service.py:517-552 | reply and tables after a revocation |
| BindingDesk.Tables.CreateAgentVersion | backend/app/api/admin_agents.py:1301-1365 | reply and tables after creating a version, on a recycled or a new row, with the clone loop |
| BindingDesk.Tables.CloneBindings | backend/app/api/admin_agents.py:1340-1359 | the clone loop, row by row |
| BindingDesk.Tables.SubmitAgentVersion | backend/app/services/agent_definition_service.py:294-312 | reply and tables after a submission |
| BindingDesk.Tables.DiscardAgentDraft | backend/app/services/agent_definition_service.py:315-401 | reply and tables after a discard, which the only version refuses |
| BindingDesk.Tables.TakeActiveScope | backend/app/services/agent_definition_service.py:446-459 | archiving the holder of the active scope and taking it |
| BindingDesk.Tables.PublishAgentVersion | backend/app/api/admin_agents.py:1429-1462 | reply and tables after a publication, with the pending check and the release loop |
| BindingDesk.Tables.RollbackAgentVersion | backend/app/services/agent_definition_service.py:476-514 | reply and tables after a rollback |
| BindingDesk.Tables.UpdateKnowledgeBase | backend/app/api/admin_knowledge.py:483-501 | reply and tables after an update of status or sensitivity |
| Activity.ListActivity | backend/app/api/admin_agents.py:890-1025 | the merge of the queries that were asked, sorted and cut |
| Activity.SortIsStable | backend/app/api/admin_agents.py:1024-1024 | events of one instant keep the order of the sources |
| Activity.MergedListIsATrueTopK | backend/app/api/admin_agents.py:905-1025 | an unknown source is refused and nothing else; otherwise, whatever ties the five queries break, the merged list is itself a legal answer on all tables together to what was asked, a run status asking for runs of that status only: min(limit, requested) distinct events, newest first, none left out that is newer |
| PairLabels.FindTagEnd | scripts/codemods/pair-labels.py:59-78 | the first `>` outside quotes and braces |
| PairLabels.FindControlAfter | scripts/codemods/pair-labels.py:47-79 | finds the control that directly follows, if and only if there is one |
| PairLabels.FreshId | scripts/codemods/pair-labels.py:114-118 | the suffix loop ends for every finite set and gives the first unused candidate |
| PairLabels.Rewrite | scripts/codemods/pair-labels.py:82-124 | the loop computes the rewriting, the number of pairs and the skipped labels |
| PairLabelSteps.ClosesIff | scripts/codemods/pair-labels.py:59-78 | a `>` ends the tag if and only if every quoted string before it is closed and braces are balanced outside strings |
| PairLabelSteps.FreshIff | scripts/codemods/pair-labels.py:114-118 | the new id is the base if that is unused, otherwise the base, a hyphen and the first number from 2 on that makes it unused |
| PairLabelSteps.PairedLabel | scripts/codemods/pair-labels.py:103-120 | a label without htmlFor anywhere in its attributes and with a control without an id right after it gets the htmlFor, the control the same unused id, and all other text is copied |
| PairLabelSteps.OtherLabel | scripts/codemods/pair-labels.py:97-113 | any other label is copied, with a remark exactly if it has no htmlFor |
| PairLabelIds.FoundIdsStand | scripts/codemods/pair-labels.py:84-84 | what the scan finds stands in the source between double quotes after `id=`, with no word character before it |
| PairLabels.RewritingIsReversibleAndFresh | scripts/codemods/pair-labels.py:82-124 | erasing the insertions gives the source back; the ids are distinct and none is among those the scan found; each pair gets its htmlFor and its id |
| PairLabelIds.EachIdGainsOnePlace | scripts/codemods/pair-labels.py:82-124 | an inserted id has exactly one place as an id attribute more in the output than in the source, counted in every literal spelling of JSX or as `id="..."` only; any other id has as many as before |
| PairLabelIds.InsertedIdIsUniqueIff | scripts/codemods/pair-labels.py:84-120 | an inserted id has one place in the output if and only if it has none in the source, in any literal spelling |
| PairLabelIds.ScanMissesOnlySwallowed | scripts/codemods/pair-labels.py:84-84 | a double-quoted id of the source is found by the scan unless it lies inside another match |
| PairLabelIds.InsertedIdStandsOnce | scripts/codemods/pair-labels.py:84-120 | where none of them is hidden so, each inserted id occurs exactly once among the double-quoted ids of the output |
| PairLabelIds.OtherSpellingCollides | scripts/codemods/pair-labels.py:84-120 | whatever way a div of C.tsx spells its id c-name, if the scan does not know it, the input after a label Name gets the same id |
| PairLabelIds.SingleQuotedIdCollides | scripts/codemods/pair-labels.py:84-120 | `<div id='c-name'/><label>Name</label><input/>` ends with two places of one id |
| PairLabelIds.SpacedIdCollides | scripts/codemods/pair-labels.py:84-120 | so does `<div id = 'c-name'/><label>Name</label><input/>` |
| Renumber.Table.RenumberDuplicates | backend/alembic/versions/d2b3c4e5f6a7_project_config_revision_unique.py:40-57 | the loop gives each row one more than the rows of its project before it, and lists its updates |
| Renumber.RevisionsAreOneToN | backend/alembic/versions/d2b3c4e5f6a7_project_config_revision_unique.py:40-57 | each project's revisions are then exactly 1 to n, each once, in the order of the old revision, the date and the id |
| Renumber.OnlyWrongNumbersAreWritten | backend/alembic/versions/d2b3c4e5f6a7_project_config_revision_unique.py:52-56 | a row is written exactly when its number changes, and only its number changes |
| Renumber.SecondRunWritesNothing | backend/alembic/versions/d2b3c4e5f6a7_project_config_revision_unique.py:60-66 | a second run over the table as the database then orders it writes nothing |
| PrimaryOwner.Table.FindSuccessor | backend/alembic/versions/b7c8d9e0f1a2_add_project_primary_owner.py:82-90 | the first member by role, date and id |
| PrimaryOwner.Table.TakeTurn | backend/alembic/versions/b7c8d9e0f1a2_add_project_primary_owner.py:62-99 | one project's turn with its early exits |
| PrimaryOwner.Table.BackfillPrimaryOwners | backend/alembic/versions/b7c8d9e0f1a2_add_project_primary_owner.py:54-99 | the loop takes one turn for each project |
| PrimaryOwner.IndexIff | backend/alembic/versions/b7c8d9e0f1a2_add_project_primary_owner.py:102-118 | the unique index can be built after the backfill if and only if no project had two primary owners before |
| PrimaryOwner.ExactlyOnePrimary | backend/alembic/versions/b7c8d9e0f1a2_add_project_primary_owner.py:62-99 | a project with members and at most one primary owner before has exactly one after |
| PrimaryOwner.ChosenIsPromoted | backend/alembic/versions/b7c8d9e0f1a2_add_project_primary_owner.py:72-99 | over the run a project without primary owner gets its creator if an owner, else its owner of longest standing, and only without any owner the member of longest standing |
| PrimaryOwner.OtherRolesUnchanged | backend/alembic/versions/b7c8d9e0f1a2_add_project_primary_owner.py:72-99 | at most one row of a project changes, only its role, only to primary owner, and only where there was none |
| PrimaryOwner.SecondRunChangesNothing | backend/alembic/versions/b7c8d9e0f1a2_add_project_primary_owner.py:63-71 | a second run changes nothing |
| FoldBackfill.Table.Backfill | backend/alembic/versions/9240933e581a_memory_content_search.py:76-85 | for every batch size from 1 the walk ends, fills every NULL with the fold of its content, updates each such row once and no other |
| FoldBackfill.SecondRunFillsNothing | backend/alembic/versions/9240933e581a_memory_content_search.py:76-85 | a second run has nothing to fill, whatever its fold |

## Left out

- Docker, pipes, deadlines and HTTP: the container run is a nondeterministic outcome with its suspension points; the timeout clamp, the authentication, the size middleware and the readiness smoke test, which runs a container before jobs are served, are not modelled.
- Cancelling a task before its first step at event-loop shutdown, and user code that writes around the redirected streams.
- The wall clock: readings are arbitrary integers, so nothing depends on time moving forward, and nothing is said about when a job is reaped.
- The container result is its streams and exit code in the broker; its artifacts are the subject of `Artifacts` and `Streams`. The exit code is an integer throughout: an int() that fails on another JSON value is not modelled.
- The workspace file system: writes succeed and the directory is empty at first; the tmpfs of 64 MiB and directories or links made by user code before the inputs are written are not modelled.
- The payload on its way to the runner and the object syntax of the result line: strings are modelled down to their escapes, braces and separators only in their length.
- Unicode tables, NFC, lower-casing, splitext, SHA-256 and the PDF, UTF-8 and JSON content checks are parameters; the two copies of the filename and content policy are one parameter, so both sides give up at the same nesting depth. A digest is assumed to be 64 hexadecimal digits in lower case.
- ResultLine.LineFits: takes an exit code that Python can print, at most 4300 digits and a sign, because a longer one already fails inside the runner.
- Warning texts of the runner: a warning is its reason and the file name, not the sentence written to the error stream.
- The order of the directory scan: the collecting loop is proved for every order, so sorting by lower-cased name plays no part.
- StripValues.ValueKeptIff: takes closed texts, and marks a malformed call where it stands instead of dropping the declaration around it, since a text may be a whole file; where the brackets of a call cross its parentheses, it ends at the parenthesis.
- Upper-case `VAR(`, strings, comments, url() tokens, escapes and the tokens `<!--` and `-->` in CSS (a call after `<!--` is taken for a glued one), and the search for defined tokens.
- Approvals by users who are then deleted (the foreign keys become NULL), purging an agent, deleting a Knowledge Base, pinned releases, policies, audit events and time stamps of bindings. Version numbers are not modelled: which discarded draft is recycled is the database's choice.
- Bindings.Bind: each request is one atomic step; the code reads the status of a version and commits later without locking its row, and a bind between whose two halves the version is submitted and published is not modelled. The same holds of the other requests.
- The evaluation, tool and policy gates before submit, publish and rollback are one Boolean each; the role that bypasses maker-checker is a Boolean of each step.
- The five activity queries see one state of the tables, and events without a date are not modelled, as the column is not nullable.
- PairLabelIds.InsertedIdIsUniqueIff: counts places in the text, so a comment, a string or an assignment that looks like an id attribute counts, and a computed value such as `id={x}`, a comment inside an attribute, a character reference and an escape are not seen.
- The regular expressions of the label codemod other than its scan for ids are parameters with the shape of what they match; line numbers and the texts of skip messages are not modelled.
- The folding of the memory search column is a parameter; concurrent writers during a migration are not modelled.
- Identifiers of rows are numbers; the database's order on project and memory ids stands for any total order.
- The JSON and the headers around the strings of a response, the other migrations and admin endpoints, the user interface and the configuration checks.
