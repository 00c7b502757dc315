# FrameScope core: verified model

FrameScope inspects video frame by frame. Its core rests on one contract: the persistent frame index is
the truth, and everything derived from it (groups, exports, previews, caches, similarity lookups) must
agree with it. This project models that core in Dafny and proves the agreement.

| file | what it models |
|---|---|
| `Common.dfy`, `Frames.dfy` | machine ranges, index entries, RGBA frames with row padding |
| `Perceptual.dfy`, `Grouping.dfy` | pair similarity, the one-pass near-duplicate grouper, bounded drift |
| `GroupNavigation.dfy`, `GroupBuild.dfy` | binary search over groups, the representative cursor, building groups from a source |
| `ExtractionPlan.dfy`, `ExtractionVideo.dfy` | plans, and the seek/align/fallback decode loop against an untrusted decoder |
| `GroupExport.dfy`, `Manifest.dfy`, `ExtractionOutput.dfy` | the representative filter, the manifest writer, whole export runs |
| `PreviewProtocol.dfy`, `FramePreparation.dfy`, `Presentation.dfy` | cancellation, supersession and generation protocols as state machines |
| `PreviewBudget.dfy`, `RamCache.dfy` | the process-wide preview allowance and the byte-weighted frame cache |
| `Sampling.dfy`, `Confirmation.dfy`, `ConfirmationLaws.dfy`, `SimilarityKeys.dfy`, `SimilarityStore.dfy`, `SimilarityQuery.dfy` | the global similar-frame store |
| `SourceIdentity.dfy` | the byte streams that key every store |
| `PacketPump.dfy` | the FFmpeg send/receive loop |

Code that updates state in place is a class or a method with loops, proved against functions on values;
the laws are then lemmas about those functions, over all inputs and all runs. Decoders, codecs, readers,
sinks and cancellation are environments that may answer anything. `dafny verify dfyconfig.toml` checks
the whole project.

Five properties hold only under a condition. For each there is the exact condition as an
if-and-only-if, and where the failure is a run, that run:

- the exact-navigation count equals the live guards unless a session is forgotten under a live guard or
  the count saturates (`PreviewProtocol.CountIsLiveGuardsIff`, `PreviewProtocol.ForgettingUnderALiveGuard`);
- one presentation generation names one frame unless a move happens at the last generation, because the
  current frame is changed before the generation can fail (`Presentation.OneGenerationOneFrameIff`,
  `Presentation.OldGenerationRefusedIff`, `Presentation.LastGenerationNamesTwoFrames`);
- a finished similarity store is reusable unless nine keys per frame overflow SQLite's signed count
  (`SimilarityStore.FinishedStoreIsReused`);
- every export ends its manifest with a terminal line unless the first sink reply that is not clean fails
  on the 64-bit byte total only (`ExtractionOutput.RepliesDecide`, `ExtractionOutput.ExportWithoutTerminal`);
- the frame cache accounts for its bytes exactly unless an insert overflows the machine word
  (`RamCache.RamFrameCache.InsertFrame`, `RamCache.UncountedInsert`).

A preview that shares the token of the operation it displaces is admitted already cancelled
(`PreviewProtocol.Admission`); the comment on preview registration does not mention this.

## Model

| member | source | states |
|---|---|---|
| `Frames.NewFrame` | rust/crates/framescope-cache/src/frame_cache.rs:50-90 | a frame is constructible exactly when its dimensions, stride and byte length agree |
| `Frames.ChannelOffset` | rust/crates/framescope-perceptual/src/lib.rs:277-322 | a visible channel is the byte at `y*stride + 4x + c`, in bounds for every row padding |
| `Perceptual.HammingMetric` | rust/crates/framescope-perceptual/src/lib.rs:21-25 | the hash distance is symmetric, zero only on equal hashes, and triangular |
| `Perceptual.HammingCountsDifferences` | rust/crates/framescope-perceptual/src/lib.rs:21-25 | the distance is the number of bits in which the hashes differ |
| `Perceptual.SampleCoordinate` | rust/crates/framescope-perceptual/src/lib.rs:334-341 | sample positions stay inside the image and hit both edges |
| `Perceptual.LumaIsNearest` | rust/crates/framescope-perceptual/src/lib.rs:56-77 | luma is the nearest integer to 77, 150 and 29 parts in 256 of red, green and blue |
| `Perceptual.SamplesAreSpread` | rust/crates/framescope-perceptual/src/lib.rs:334-341 | each sample position is the last pixel at or before its evenly spread place |
| `Perceptual.HashBitMeaning` | rust/crates/framescope-perceptual/src/lib.rs:56-77 | bit `8*row + column` of the hash compares the lumas of the two neighbouring samples, read from the visible channels |
| `Perceptual.ComputeDHash` | rust/crates/framescope-perceptual/src/lib.rs:56-77 | bit `8*row + column` is set exactly when the left luma sample exceeds its right neighbour |
| `Perceptual.VisiblePixelsIdentical` | rust/crates/framescope-perceptual/src/lib.rs:287-295 | the early exit is taken exactly when all visible RGBA rows are equal |
| `Perceptual.RgbMeanAbsoluteSimilarity` | rust/crates/framescope-perceptual/src/lib.rs:277-322 | the row/column loops compute the rounded mean RGB difference of the visible pixels, padding and alpha ignored |
| `Perceptual.TotalIsChannelSum` | rust/crates/framescope-perceptual/src/lib.rs:297-308 | the total is the sum over all visible pixels of the differences of red, green and blue |
| `Perceptual.ConfirmationIsNearest` | rust/crates/framescope-perceptual/src/lib.rs:297-321 | the score is the nearest whole number of basis points to the share of that sum in 765 per visible pixel |
| `Perceptual.AlphaAndPaddingIgnored` | rust/crates/framescope-perceptual/src/lib.rs:297-308 | frames that differ only in alpha or padding score 10000 |
| `Perceptual.OnePixelScores` | rust/crates/framescope-perceptual/src/lib.rs:297-321 | against a black pixel red, green and blue weigh the same and alpha nothing; white scores 0, one full channel 6667 |
| `Perceptual.FastPathAgrees` | rust/crates/framescope-perceptual/src/lib.rs:287-295 | identical visible pixels give the same basis points as the full sum would |
| `Perceptual.ClampIsDead` | rust/crates/framescope-perceptual/src/lib.rs:310-321 | the difference never exceeds the scale, so the clamp never acts |
| `Perceptual.TotalTriangle` | rust/crates/framescope-perceptual/src/lib.rs:297-308 | summed RGB differences are symmetric and obey the triangle inequality |
| `Perceptual.RoundedTriangle` | rust/crates/framescope-perceptual/src/lib.rs:310-317 | rounding costs the triangle inequality at most one basis point |
| `Perceptual.ConfirmationDrift` | rust/crates/framescope-perceptual/src/lib.rs:277-322 | two frames compared through a pivot lose at most the sum of their losses plus one |
| `Perceptual.ConfirmationSymmetric` | rust/crates/framescope-perceptual/src/lib.rs:277-322 | the confirmation does not depend on argument order |
| `Perceptual.DriftBoundIsTight` | rust/crates/framescope-perceptual/src/lib.rs:277-322 | three concrete one-pixel frames reach the drift bound exactly |
| `Perceptual.Compare` | rust/crates/framescope-perceptual/src/lib.rs:204-226 | an error exactly on different sizes; acceptance only with the exact confirmation at or above the policy minimum |
| `Perceptual.CompareDecides` | rust/crates/framescope-perceptual/src/lib.rs:204-226 | rejected by hash, rejected by score and accepted, each exactly under its condition and with the values it was decided on |
| `Perceptual.AcceptedAgainstPivot` | rust/crates/framescope-perceptual/src/lib.rs:204-226 | two frames accepted against one pivot score at least 2*minimum - 10001 and differ in at most twice the hash bits |
| `Grouping.AcceptanceIsMutual` | rust/crates/framescope-grouping/src/lib.rs:107-114 | a comparison yields a confirmation exactly for a pair within both limits of the policy, and then the score of that pair; the same whichever frame comes first |
| `Grouping.HybridFrameGrouper.New` | rust/crates/framescope-grouping/src/lib.rs:42-47 | a grouper exists exactly for a valid policy, with no open group |
| `Grouping.HybridFrameGrouper.Push` | rust/crates/framescope-grouping/src/lib.rs:53-100 | the in-place update is the pure step, and a failed push leaves the state unchanged |
| `Grouping.HybridFrameGrouper.Finish` | rust/crates/framescope-grouping/src/lib.rs:102-105 | returns the open group once and leaves none |
| `Grouping.RunAccepts` | rust/crates/framescope-grouping/src/lib.rs:53-105 | a frame the grouper accepts extends the run by exactly the pure step |
| `Grouping.PushKeepsInvariant` | rust/crates/framescope-grouping/src/lib.rs:53-100 | one accepted push keeps: emitted groups plus the open one are the greedy partition of what was accepted, and the two retained frames are the right ones |
| `Grouping.StreamingIsGreedy` | rust/crates/framescope-grouping/src/lib.rs:53-105 | for every stream of offered frames, emitted groups plus `finish` are the greedy partition of the accepted frames: contiguous intervals, members accepted by predecessor and representative, boundaries that are rejections, floor = minimum representative score |
| `Grouping.GreedyPartitionIsUnique` | rust/crates/framescope-grouping/src/lib.rs:53-105 | the greedy partition is determined by frames and policy alone |
| `Grouping.NextFrameIsAccepted` | rust/crates/framescope-grouping/src/lib.rs:53-100 | a timestamped next frame of the same size is never refused |
| `Grouping.WellFormedStreamIsAccepted` | rust/crates/framescope-grouping/src/lib.rs:53-105 | a contiguous, timestamped, equally sized stream is accepted whole |
| `Grouping.BoundedDrift` | rust/crates/framescope-grouping/src/lib.rs:76-98 | any two members of any group of any length score at least 2*minimum - 10001 and their hashes differ by at most twice the allowed distance |
| `Grouping.GroupsAreMaximalRuns` | rust/crates/framescope-grouping/src/lib.rs:53-105 | in every group each frame is accepted against the one before it and against the first, and the frame after the group fails one of the two |
| `Grouping.GroupRecords` | rust/crates/framescope-grouping/src/lib.rs:53-140 | a group records its exact bounds, times and count, its first frame as representative, and a score some member has against it |
| `Grouping.FloorIsLowest` | rust/crates/framescope-grouping/src/lib.rs:90-98 | no member scores below what its group records |
| `GroupNavigation.FindGroupOrdinal` | rust/crates/framescope-group-navigation/src/lib.rs:183-202 | the binary search loop computes the pure search and only ever answers with a group that contains the frame |
| `GroupNavigation.GreedyRowsCoverTimeline` | rust/crates/framescope-group-navigation/src/lib.rs:283-384 | the rows a grouper writes cover the timeline in order without gaps |
| `GroupNavigation.SearchIsExact` | rust/crates/framescope-group-navigation/src/lib.rs:183-202 | over covering rows the search succeeds exactly for indexed frames and finds the one containing group |
| `GroupNavigation.AdjacentGroupsAreInverse` | rust/crates/framescope-group-navigation/src/lib.rs:160-181 | the next group starts right after this one, and previous undoes next |
| `GroupNavigation.NeighboursOfGroup` | rust/crates/framescope-group-navigation/src/lib.rs:160-181 | from any frame of a group: its own group, both neighbours, and the boundary error at either end |
| `GroupNavigation.GroupRepresentativeCursor.Next` | rust/crates/framescope-extraction-groups/src/lib.rs:52-81 | the in-place cursor is the pure cursor step; a failed step changes nothing |
| `GroupNavigation.CursorEnumeratesRows` | rust/crates/framescope-extraction-groups/src/lib.rs:52-129 | over covering rows the cursor yields every group once, in order, and then ends; none of its invariant errors can occur |
| `ExtractionPlan.PlansAreWellFormed` | rust/crates/framescope-extraction/src/lib.rs:169-250 | every plan the planner returns has first <= last, its exact count, and lies in the index |
| `ExtractionPlan.PlannedIffAvailable` | rust/crates/framescope-extraction/src/lib.rs:169-250 | a request is planned exactly when the index is complete, counted and not empty and holds what is asked for |
| `ExtractionPlan.PlannedIffRequested` | rust/crates/framescope-extraction/src/lib.rs:169-250 | the planned ids are exactly the requested frames: the asked one, the range, the rows found or all, at the request's stride |
| `ExtractionPlan.RefusedAs` | rust/crates/framescope-extraction/src/lib.rs:169-250 | each refusal names what is wrong, the index before the request |
| `ExtractionPlan.PlannedIffFits` | rust/crates/framescope-extraction/src/lib.rs:128-143 | the i-th id is planned exactly while `first + i*stride <= last` |
| `ExtractionPlan.ContainsNextOnly` | rust/crates/framescope-extraction/src/lib.rs:74-79 | between two planned ids `contains` holds for the next one only |
| `ExtractionPlan.PositionStep` | rust/crates/framescope-extraction/src/lib.rs:74-79 | walking ids upward, `contains` meets the planned ids one by one and the last one closes the count |
| `ExtractionPlan.ContainsIffPlanned` | rust/crates/framescope-extraction/src/lib.rs:74-79 | membership by remainder equals membership in the enumerated ids |
| `ExtractionPlan.PlannedFrameIds.Next` | rust/crates/framescope-extraction/src/lib.rs:128-143 | the k-th call yields the k-th planned id, then none |
| `ExtractionPlan.CollectFrameIds` | rust/crates/framescope-extraction/src/lib.rs:66-72 | iterating yields exactly the planned ids in order |
| `ExtractionVideo.RequireMatching` | rust/crates/framescope-extraction-video/src/lib.rs:374-394 | a decoded frame is accepted as frame `id` exactly when its timing equals that index entry |
| `ExtractionVideo.ValidatePlan` | rust/crates/framescope-extraction-video/src/lib.rs:212-273 | a plan is accepted exactly when the index is complete and the plan is well formed inside it |
| `ExtractionVideo.SeeksIff` | rust/crates/framescope-extraction-video/src/lib.rs:101-125 | a seek is tried exactly for a keyframe anchor with a known, non-negative time |
| `ExtractionVideo.Batch.AlignFromStart` | rust/crates/framescope-extraction-video/src/lib.rs:297-317 | success means that the tape from its start holds one matching picture per entry up to the first planned one, which was read last; a true decoder always succeeds with the true picture |
| `ExtractionVideo.Batch.FindAnchor` | rust/crates/framescope-extraction-video/src/lib.rs:331-339 | wherever a seek landed, the first frame that matches the anchor is the anchor (with distinct timestamps) |
| `ExtractionVideo.Batch.AdvanceTo` | rust/crates/framescope-extraction-video/src/lib.rs:340-350 | from the anchor every crossed frame is reconciled up to the first planned one |
| `ExtractionVideo.Batch.AlignFromSeek` | rust/crates/framescope-extraction-video/src/lib.rs:319-350 | an aligned seek delivers the first planned entry; a failed one only ever reports end of stream or a mismatch |
| `ExtractionVideo.Batch.OpenAndAlign` | rust/crates/framescope-extraction-video/src/lib.rs:101-156 | at most two decoders are opened, in script order and never after output; the picture returned was just read from the last opened one; with a true decoder alignment always succeeds |
| `ExtractionVideo.Batch.AlignOpened` | rust/crates/framescope-extraction-video/src/lib.rs:101-145 | an open decoder is aligned from the start or from its seek; only a seek that cannot be reconciled asks for a retry |
| `ExtractionVideo.Batch.VisitCurrent` | rust/crates/framescope-extraction-video/src/lib.rs:158-195 | one reconciled frame is emitted exactly when planned, and the position in the plan advances by one |
| `ExtractionVideo.Batch.EmitPlanned` | rust/crates/framescope-extraction-video/src/lib.rs:158-210 | the visitor log is a prefix of the plan with ordinals 1..k and index metadata, complete on success, drawn from the tape at rising positions, truthful with a true decoder |
| `ExtractionVideo.Batch.ExtractRgbaPlan` | rust/crates/framescope-extraction-video/src/lib.rs:75-210 | all of it together against any decoder: planned prefix, success means the whole plan, visitor errors stop it, no visitor call precedes a reopen, every emitted frame carries the pixels of its own picture of the last opened attempt, matching its entry, at rising positions; every picture from the first planned one to the last visited matches the entry of its own place, none skipped, and the first one was reached by an unbroken reconciled run from the start of the tape or from the first match of the anchor; every cancellation answer is heard: all polls but the last were quiet, the last one says cancelled exactly if the result does, and there was a poll for every decoded and every visited frame; a failure is the plan's own, or what the environment last answered stands for it (a cancelled poll, a failed open or seek, an error or end of the tape, a picture that does not match or is invalid); uncancelled with a true decoder it succeeds with true pixels wherever the seek lands |
| `GroupExport.FilterStepKeeps` | rust/crates/framescope-extraction-groups-video/src/lib.rs:181-228 | one decoded frame keeps: emissions so far are the representatives reached so far; only the visitor can stop it |
| `GroupExport.FilterRun` | rust/crates/framescope-extraction-groups-video/src/lib.rs:181-228 | filtering a whole decode log emits one representative per group reached, with its entry and group |
| `GroupExport.CoveredSpan` | rust/crates/framescope-extraction-groups-video/src/lib.rs:101-135 | over covering rows the span plan is 0..last representative at stride one, and it validates |
| `GroupExport.RepresentativesComplete` | rust/crates/framescope-extraction-groups-video/src/lib.rs:166-179 | having decoded up to the last representative, every group has been emitted and the cursor is exhausted |
| `GroupExport.ExtractGroupRepresentatives` | rust/crates/framescope-extraction-groups-video/src/lib.rs:77-179 | emits exactly the first frame of each interval in order (a prefix on failure); the invariant-failure branches are unreachable; whatever the decoder does, each emission has the pixels of its own picture of an opened attempt, which matched its entry, at rising positions; it is cancelled exactly if the last poll it made says so; with a true decoder it succeeds with true pixels |
| `GroupBuild.BuildGroups` | rust/crates/framescope-group-navigation/src/lib.rs:283-384 | an incomplete index and an invalid policy are refused first, exactly; cancellation before the source opens and a failing factory are reported as such; any other failure is a poll, a failed read or a source that does not play the index; a successful build consumed one matching frame per index entry and its rows are the greedy partition; a successful build heard no cancellation at any of its polls, and a faithful source always builds unless one of them cancels |
| `GroupBuild.ExportUniqueFrames` | rust/crates/framescope-extraction-groups-video/src/lib.rs:77-228 | grouper, search, cursor, filter and decoder together: one frame per group in strictly rising order, each with the pixels of its own decoded picture whatever the decoder does; only building, decoding, cancellation and the visitor can fail; with a faithful source, a true decoder and a visitor without errors it completes, and every emission is the true picture of its group's first frame |
| `GroupBuild.EmissionsRise` | rust/crates/framescope-extraction-groups-video/src/lib.rs:181-228 | representatives rise strictly |
| `Manifest.FileNamesSortByFrame` | rust/crates/framescope-extraction-image/src/lib.rs:118-120 | zero-padded file names sort in frame order |
| `Manifest.FileNameSpellsFrame` | rust/crates/framescope-extraction-image/src/lib.rs:118-120 | a file name is `frame_`, the frame id in twenty decimal digits, a dot and the extension |
| `Manifest.ExtractionManifestWriter.WriteFrame` | rust/crates/framescope-extraction-manifest/src/lib.rs:295-353 | a record is appended, with its bytes added, or refused with the precise reason and nothing written |
| `Manifest.ExtractionManifestWriter.Finish` | rust/crates/framescope-extraction-manifest/src/lib.rs:355-421 | one terminal line at most, refused exactly when already finished or claimed complete with frames missing |
| `Manifest.RecordTakenIff` | rust/crates/framescope-extraction-manifest/src/lib.rs:295-353 | a record is taken exactly when the manifest is open and it is the next one, of the right total, entry, name, group and a byte count that fits |
| `Manifest.EndedIff` | rust/crates/framescope-extraction-manifest/src/lib.rs:355-421 | a terminal is taken exactly once, and complete only with every expected frame |
| `Manifest.AppendHolds` | rust/crates/framescope-extraction-manifest/src/lib.rs:295-353 | an unrefused record keeps: header first, frame lines 1..k, exact byte total |
| `ExtractionOutput.OnlyOverflowRefuses` | rust/crates/framescope-extraction-output/src/lib.rs:104-179 | for the records an export produces, the byte-total overflow is the only possible refusal |
| `ExtractionOutput.WriteOutputRecords` | rust/crates/framescope-extraction-groups-output/src/lib.rs:193-240 | after one output the manifest lists every committed frame but possibly the last |
| `ExtractionOutput.OutputRun` | rust/crates/framescope-extraction-output/src/lib.rs:104-144 | over a whole run the frame lines are a prefix of the sink's commits, missing at most the last |
| `ExtractionOutput.EndExportIsSound` | rust/crates/framescope-extraction-output/src/lib.rs:104-179 | the terminal matches the outcome: complete exactly on success with the planned count, cancelled and failed otherwise, none exactly after a refused record |
| `ExtractionOutput.TerminalOfOutcome` | rust/crates/framescope-extraction-output/src/lib.rs:146-179 | the terminal line says complete exactly on success, aborted exactly when cancelled, and otherwise failed with the code of its cause |
| `ExtractionOutput.VerdictMeaning` | rust/crates/framescope-extraction-output/src/lib.rs:112-144 | a reply lets the export go on exactly when it is a commit in the asked format, not empty, within the 64-bit total |
| `ExtractionOutput.FinishSucceeds` | rust/crates/framescope-extraction-manifest/src/lib.rs:355-421 | the writer accepts the terminal of every outcome that gets one |
| `ExtractionOutput.FoldTraces` | rust/crates/framescope-extraction-output/src/lib.rs:112-144 | the export state keeps every offer and commits exactly what the sink reported |
| `ExtractionOutput.RunFollowsReplies` | rust/crates/framescope-extraction-output/src/lib.rs:112-144 | over a whole visitor history every reply short of the last is clean and the last one stops the export exactly as it says |
| `ExtractionOutput.RepliesDecide` | rust/crates/framescope-extraction-output/src/lib.rs:104-180 | where nothing else can stop an export it succeeds exactly when all replies are clean, and lacks a terminal exactly when the first reply that is not clean fails on the byte total only |
| `ExtractionOutput.SecondFrameOverflows` | rust/crates/framescope-extraction-manifest/src/lib.rs:295-353 | a sink that commits 2^64-1 bytes and then one more meets that condition on any two outputs |
| `ExtractionOutput.ExportWithoutTerminal` | rust/crates/framescope-extraction-output/src/lib.rs:88-180 | the failing run: with that sink every export of two or more frames through a true decoder ends without a terminal |
| `ExtractionOutput.PlainOutcome` | rust/crates/framescope-extraction-output/src/lib.rs:146-180 | extraction outcomes map onto export outcomes without losing or inventing errors |
| `ExtractionOutput.GroupOutcome` | rust/crates/framescope-extraction-groups-output/src/lib.rs:115-191 | the same for representative exports |
| `ExtractionOutput.OffersAreRequested` | rust/crates/framescope-extraction-output/src/lib.rs:88-180 | offers of a plan are requested frames in rising order; all offers of it are all requested frames |
| `ExtractionOutput.ExportRequest` | rust/crates/framescope-extraction-output/src/lib.rs:88-180 | a refused plan writes nothing; otherwise the offers are frames the request asks for, in rising order and all of them on success, each with the pixels of its own picture of an opened attempt, at rising positions, whatever the decoder does; all replies but the last are clean, commits are exactly the reported ones, the manifest is header, prefix of commits and terminal with exact totals, complete exactly on success, with a terminal exactly unless the last reply overflows the byte total; the export is cancelled exactly if the last poll it made says so, and then the terminal says aborted; with a true decoder the sink's replies over all planned frames decide success and terminal, both exactly |
| `ExtractionOutput.ExportGroupRepresentatives` | rust/crates/framescope-extraction-groups-output/src/lib.rs:80-191 | the same law for representatives: offers are the first frames of the groups in order, each with the pixels of its own decoded picture, only decoder, cancellation and sink failures are possible over covering rows, and with a true decoder the replies decide |
| `PreviewProtocol.StepKeepsInvariant` | rust/crates/framescope-ffi/src/scrub_handoff.rs:162-344 | every registry operation keeps: registrations belong to live guards, generations are unique, displaced previews are cancelled, a barrier implies cancellation, counts never exceed live guards |
| `PreviewProtocol.ReachableInvariant` | rust/crates/framescope-ffi/src/scrub_handoff.rs:162-344 | the invariant holds after every sequence of operations |
| `PreviewProtocol.ExactNavigationHasPriority` | rust/crates/framescope-ffi/src/scrub_handoff.rs:241-318 | in every reachable state all live previews behind a barrier are cancelled, and a session has at most one uncancelled live preview: the registered one |
| `PreviewProtocol.BarrierEndsWithItsGuards` | rust/crates/framescope-ffi/src/scrub_handoff.rs:177-194 | the count never exceeds the live exact guards, so no barrier outlives them |
| `PreviewProtocol.StaleDropIsHarmless` | rust/crates/framescope-ffi/src/scrub_handoff.rs:162-174 | dropping a guard removes at most its own registration and cancels nothing |
| `PreviewProtocol.Admission` | rust/crates/framescope-ffi/src/scrub_handoff.rs:241-288 | a preview is admitted exactly without barrier and exhaustion; it starts uncancelled exactly when its token is neither cancelled nor that of the operation it displaces |
| `PreviewProtocol.NewlyCancelled` | rust/crates/framescope-ffi/src/scrub_handoff.rs:241-344 | a step cancels only the registered preview of the session it names |
| `PreviewProtocol.CancelledIff` | rust/crates/framescope-ffi/src/scrub_handoff.rs:241-344 | a token becomes cancelled exactly when the preview registered under it is displaced, outranked, interrupted or forgotten, or elsewhere |
| `PreviewProtocol.InterruptCancels` | rust/crates/framescope-ffi/src/scrub_handoff.rs:320-332 | interrupting cancels the registered preview and does nothing else |
| `PreviewProtocol.ForgetClears` | rust/crates/framescope-ffi/src/scrub_handoff.rs:335-344 | forgetting cancels and removes the preview and the barrier of a session and keeps all guards |
| `PreviewProtocol.BarrierRises` | rust/crates/framescope-ffi/src/scrub_handoff.rs:295-318 | exact navigation raises its barrier by one and its drop lowers it by one |
| `PreviewProtocol.OthersUntouched` | rust/crates/framescope-ffi/src/scrub_handoff.rs:162-344 | a step leaves the registrations and barriers of all other sessions |
| `PreviewProtocol.CountStaysExactIff` | rust/crates/framescope-ffi/src/scrub_handoff.rs:295-344 | the count keeps equal to the live exact guards exactly unless the session is forgotten under a live guard or 2^32-1 guards saturate it |
| `PreviewProtocol.CountIsLiveGuards` | rust/crates/framescope-ffi/src/scrub_handoff.rs:295-344 | over every run without such a step the count is the number of live exact guards |
| `PreviewProtocol.CountIsLiveGuardsIff` | rust/crates/framescope-ffi/src/scrub_handoff.rs:295-344 | over a whole run the count is the number of live guards after every step, exactly when no step breaks it |
| `PreviewProtocol.ForgettingUnderALiveGuard` | rust/crates/framescope-ffi/src/scrub_handoff.rs:335-344 | a concrete run in which forgetting makes one guard's drop remove another guard's barrier, so a preview runs beside exact navigation |
| `PreviewProtocol.PreviewCancellationRegistry.BeginPreviewOperation` | rust/crates/framescope-ffi/src/scrub_handoff.rs:241-288 | the whole new registry, and each refusal exactly under its condition |
| `PreviewProtocol.PreviewCancellationRegistry.DropPreviewGuard` | rust/crates/framescope-ffi/src/scrub_handoff.rs:162-174 | removes the registration only when the generation is its own |
| `PreviewProtocol.PreviewCancellationRegistry.BeginExactNavigation` | rust/crates/framescope-ffi/src/scrub_handoff.rs:295-318 | raises the barrier and cancels the registered preview in one step |
| `PreviewProtocol.PreviewCancellationRegistry.DropExactGuard` | rust/crates/framescope-ffi/src/scrub_handoff.rs:177-194 | lowers the count, removing it at one; unregistered guards do nothing |
| `PreviewProtocol.PreviewCancellationRegistry.CancelSessionPreview` | rust/crates/framescope-ffi/src/scrub_handoff.rs:320-332 | cancels exactly the registered preview |
| `PreviewProtocol.PreviewCancellationRegistry.ForgetAfterClose` | rust/crates/framescope-ffi/src/scrub_handoff.rs:335-344 | cancels and removes the registration and deletes the count |
| `FramePreparation.StepKeepsInvariant` | rust/crates/framescope-ffi/src/microscope.rs:60-161 | every operation keeps: the active preparation is owned by a live guard and newest, generations are unique, superseded guards have both tokens cancelled |
| `FramePreparation.OnlyTheNewestRuns` | rust/crates/framescope-ffi/src/microscope.rs:60-161 | in every reachable state a live preparation with an uncancelled token is the active, newest one of its session |
| `FramePreparation.BeginSupersedes` | rust/crates/framescope-ffi/src/microscope.rs:107-143 | a new generation above all earlier ones with a fresh token; the displaced request and work tokens are both cancelled, even at exhaustion |
| `FramePreparation.CancelReachesBoth` | rust/crates/framescope-ffi/src/microscope.rs:148-161 | interrupting cancels the request and the adopted work token and keeps the registration |
| `FramePreparation.CancellationIsFinal` | rust/crates/framescope-ffi/src/microscope.rs:68-83 | once cancelled, a preparation can never adopt another decoder's token in any later state |
| `FramePreparation.CancelledIff` | rust/crates/framescope-ffi/src/microscope.rs:60-161 | a token becomes cancelled exactly when the preparation holding it is superseded or interrupted; never by adopting or completing |
| `FramePreparation.AdoptMeaning` | rust/crates/framescope-ffi/src/microscope.rs:68-83 | an adoption replaces the work token of its own preparation and nothing else |
| `FramePreparation.DropEndsOwnOnly` | rust/crates/framescope-ffi/src/microscope.rs:86-101 | completing ends the guard and its own registration only, and cancels nothing |
| `FramePreparation.TokenSurvivesIff` | rust/crates/framescope-ffi/src/microscope.rs:60-161 | over a whole run a token stays uncancelled exactly when no step cancels it |
| `FramePreparation.WarmRequestAdopts` | rust/crates/framescope-ffi/src/microscope.rs:855-936 | one warm request begins, may adopt the idle decoder's token, completes, and leaves everything else as it was |
| `FramePreparation.WarmDecoderStaysUsable` | rust/crates/framescope-ffi/src/microscope.rs:86-101 | a retained decoder serves any number of completed requests with the same uncancelled token |
| `FramePreparation.FramePreparationRegistry.BeginFramePreparation` | rust/crates/framescope-ffi/src/microscope.rs:107-143 | the whole new registry and each refusal |
| `FramePreparation.FramePreparationRegistry.AdoptWorkCancellation` | rust/crates/framescope-ffi/src/microscope.rs:68-83 | adopts exactly while active with request and work uncancelled; otherwise nothing changes |
| `FramePreparation.FramePreparationRegistry.DropGuard` | rust/crates/framescope-ffi/src/microscope.rs:86-101 | removes only its own registration and cancels nothing |
| `FramePreparation.FramePreparationRegistry.CancelActivePreparation` | rust/crates/framescope-ffi/src/microscope.rs:148-161 | cancels both tokens of the active preparation |
| `Presentation.GenerationFollowsFrame` | rust/crates/framescope-ffi/src/microscope.rs:744-765 | the generation rises exactly when the current frame changes, exactly unless the move is exhausted |
| `Presentation.OneGenerationOneFrameIff` | rust/crates/framescope-ffi/src/microscope.rs:744-765 | over every run, equal generations show equal frames exactly when no move is exhausted |
| `Presentation.EveryGenerationIsReached` | rust/crates/framescope-ffi/src/microscope.rs:744-785 | n steps to and fro over two frames reach generation n + 1 from a fresh session, below exhaustion |
| `Presentation.LastGenerationNamesTwoFrames` | rust/crates/framescope-ffi/src/microscope.rs:754-765 | the failing run: one more step at the last generation moves to the other frame under the same generation |
| `Presentation.CopyDeliversLastPreparation` | rust/crates/framescope-ffi/src/microscope.rs:855-990 | a successful copy delivers the bytes of the last successful preparation, described with that generation and the current frame |
| `Presentation.CopyDeliversDescribedFrame` | rust/crates/framescope-ffi/src/microscope.rs:855-990 | a copy under a described generation delivers the described frame whatever happened between |
| `Presentation.OldGenerationRefusedIff` | rust/crates/framescope-ffi/src/microscope.rs:744-765 | after moving to another frame older generations are refused for good, exactly when the generation was not exhausted |
| `Presentation.MovesAsAsked` | rust/crates/framescope-ffi/src/microscope.rs:767-840 | a jump reaches the asked frame and a step its neighbour exactly when it is indexed; every other request fails by its reason and changes nothing |
| `Presentation.PreparedCanBeCopied` | rust/crates/framescope-ffi/src/microscope.rs:855-990 | a prepared frame is copied whole under its generation into any buffer with room, and refused by the exact reason otherwise |
| `Presentation.NavigationSession.Navigate` | rust/crates/framescope-ffi/src/microscope.rs:744-840 | the in-place move, including the state left behind by exhaustion |
| `Presentation.NavigationSession.PrepareCurrentFrame` | rust/crates/framescope-ffi/src/microscope.rs:855-936 | stores the presentation of the current frame under the unchanged generation, or changes nothing |
| `Presentation.NavigationSession.CopyPreparedFrame` | rust/crates/framescope-ffi/src/microscope.rs:950-990 | fills exactly the payload prefix of the destination, or leaves it untouched |
| `PreviewBudget.Evict` | rust/crates/framescope-video/src/scrub_preview.rs:140-163 | keeps a suffix of the recency order that fits, or nothing |
| `PreviewBudget.EvictsNoMoreThanNeeded` | rust/crates/framescope-video/src/scrub_preview.rs:140-163 | eviction drops from the least recent end and stops as soon as bytes and count fit |
| `PreviewBudget.HitIsMostRecent` | rust/crates/framescope-video/src/scrub_preview.rs:71-81 | a hit makes its entry the most recent one, the others keep their order; a miss changes nothing |
| `PreviewBudget.InsertMeaning` | rust/crates/framescope-video/src/scrub_preview.rs:83-110 | an entry that fits replaces its key, becomes most recent, and evicts no more than bytes or 1024 entries demand |
| `PreviewBudget.CacheStaysWithinBudget` | rust/crates/framescope-video/src/scrub_preview.rs:71-163 | after insert, get and budget change the resident bytes are within the cache's budget |
| `PreviewBudget.SharesAreExactAndEven` | rust/crates/framescope-ffi/src/scrub_handoff.rs:639-659 | the shares sum exactly to the total, differ by at most one byte, and spare bytes go to the lowest ids |
| `PreviewBudget.StepKeepsInvariant` | rust/crates/framescope-ffi/src/scrub_handoff.rs:1110-1190 | every operation keeps each cache within budget, removed caches empty, budgets equal to the shares, at most two sessions |
| `PreviewBudget.OpenAgain` | rust/crates/framescope-ffi/src/scrub_handoff.rs:1110-1174 | opening a known session makes it the most recently used one and nothing else |
| `PreviewBudget.OpenFree` | rust/crates/framescope-ffi/src/scrub_handoff.rs:1110-1174 | up to two sessions are admitted without displacing any |
| `PreviewBudget.OpenDisplaces` | rust/crates/framescope-ffi/src/scrub_handoff.rs:1110-1174 | a third one displaces a least recently used session, whose cache is emptied |
| `PreviewBudget.ForgetMeaning` | rust/crates/framescope-ffi/src/scrub_handoff.rs:1176-1190 | forgetting takes out exactly that session and empties its cache for other holders |
| `PreviewBudget.ResidentWithinApplied` | rust/crates/framescope-ffi/src/scrub_handoff.rs:1110-1190 | after any run all preview caches together, including removed ones in use, are within the total last handed out |
| `PreviewBudget.ResidentWithinConfigured` | rust/crates/framescope-ffi/src/scrub_handoff.rs:529-555 | whenever every reconfiguration has completed they are within the configured total |
| `PreviewBudget.ResidentWhileHandingOut` | rust/crates/framescope-ffi/src/scrub_handoff.rs:529-659 | from every reachable state, through any interleaving of the iterations of an open's, a forget's or a reconfiguration's rebalance with uses of caches and newly published totals, the whole process stays within the larger of the total last handed out and the one being handed out; when the hand-out is complete the invariant of runs holds again |
| `PreviewBudget.HandRunKeeps` | rust/crates/framescope-ffi/src/scrub_handoff.rs:649-658 | one iteration of the hand-out and every use of a cache in between keep: mixed budgets, each cache within its budget of the moment, a newcomer still empty |
| `PreviewBudget.StepIsPreparedAndRebalanced` | rust/crates/framescope-ffi/src/scrub_handoff.rs:1110-1190 | a registry operation of a run is its preparation followed by the whole hand-out |
| `PreviewBudget.BudgetsUseTheWholeTotal` | rust/crates/framescope-ffi/src/scrub_handoff.rs:639-659 | the budgets of the retained sessions add up to exactly the total handed out |
| `PreviewBudget.HandOutShares` | rust/crates/framescope-ffi/src/scrub_handoff.rs:639-659 | the loop in ascending id order gives every session its share |
| `PreviewBudget.ScrubRegistry.RebalancePreviewCacheBudgets` | rust/crates/framescope-ffi/src/scrub_handoff.rs:639-659 | the registry after rebalancing, unchanged when empty |
| `PreviewBudget.ScrubRegistry.SessionState` | rust/crates/framescope-ffi/src/scrub_handoff.rs:1110-1174 | touches an existing session, or displaces a least recently used one and admits the new; a changed root is refused |
| `PreviewBudget.ScrubRegistry.ForgetSession` | rust/crates/framescope-ffi/src/scrub_handoff.rs:1176-1190 | removes, trims and rebalances exactly when the session is known |
| `PreviewBudget.ScrubRegistry.ConfigureRamBudgets` | rust/crates/framescope-ffi/src/scrub_handoff.rs:529-555 | publishes the total and hands out new shares |
| `Sampling.BlendBetween` | rust/crates/framescope-similarity-store/src/global.rs:310-326 | a bilinear sample lies between its four neighbours, the clamp is dead, no word overflows |
| `Sampling.BlendIsNearest` | rust/crates/framescope-similarity-store/src/global.rs:310-326 | a sample is the nearest byte to its four neighbours, each weighted by the opposite area |
| `Sampling.BlendOnAxis` | rust/crates/framescope-similarity-store/src/global.rs:310-326 | with one fraction zero only the two neighbours on the other axis count, by how near they are |
| `Sampling.CoordinateInRange` | rust/crates/framescope-similarity-store/src/global.rs:912-917 | coordinates stay on the input and hit both ends |
| `Sampling.CoordinateMonotone` | rust/crates/framescope-similarity-store/src/global.rs:912-917 | coordinates rise with the output position |
| `Sampling.CoordinateSpreads` | rust/crates/framescope-similarity-store/src/global.rs:912-917 | each coordinate is the last fixed-point position at or before its evenly spread place |
| `Sampling.CoordinateFits` | rust/crates/framescope-similarity-store/src/global.rs:912-917 | the product fits 64 bits for every frame size |
| `Sampling.ResampleRgb` | rust/crates/framescope-similarity-store/src/global.rs:867-910 | the loops compute the specified rows |
| `Sampling.ResampledAt` | rust/crates/framescope-similarity-store/src/global.rs:867-910 | byte `(y*w + x)*3 + channel` is the sample at column x of row y |
| `Sampling.ResampledBetweenNeighbours` | rust/crates/framescope-similarity-store/src/global.rs:867-910 | every normalised value lies between the visible pixels it is read from |
| `Sampling.ResampledIsBilinear` | rust/crates/framescope-similarity-store/src/global.rs:867-917 | every normalised value is the nearest byte to the visible pixels at its taps, weighted by opposite areas |
| `Sampling.ResampleOwnSize` | rust/crates/framescope-similarity-store/src/global.rs:867-917 | resampling to the frame's own size is the identity on visible RGB |
| `Confirmation.ScoreIsExact` | rust/crates/framescope-similarity-store/src/global.rs:328-336 | zero difference scores 10000, the clamp is dead, no overflow |
| `Confirmation.ScoreIsNearest` | rust/crates/framescope-similarity-store/src/global.rs:328-336 | the score is the nearest whole number of basis points to the share that does not differ |
| `Confirmation.ShiftMirrors` | rust/crates/framescope-similarity-store/src/global.rs:256-286 | shift (dx, dy) one way sums the same differences and channels as (-dx, -dy) the other way |
| `Confirmation.CropInRange` | rust/crates/framescope-similarity-store/src/global.rs:288-308 | cropped coordinates stay between the insets, so every read is on the descriptor |
| `Confirmation.NoCropIsNoShift` | rust/crates/framescope-similarity-store/src/global.rs:239-254 | the skipped crop (0, 0) equals the unshifted comparison, so skipping it loses nothing |
| `Confirmation.SimilaritySymmetric` | rust/crates/framescope-similarity-store/src/global.rs:239-254 | the score is symmetric for all descriptors |
| `Confirmation.SimilarityAtLeastInPlace` | rust/crates/framescope-similarity-store/src/global.rs:239-254 | never below the in-place comparison; 10000 on equal descriptors |
| `Confirmation.SimilarityIsUpperBound` | rust/crates/framescope-similarity-store/src/global.rs:239-254 | no tried shift or crop, in either direction, scores higher |
| `Confirmation.SimilarityIsAttained` | rust/crates/framescope-similarity-store/src/global.rs:239-254 | some tried alignment has that score |
| `ConfirmationLaws.OverlapChannels` | rust/crates/framescope-similarity-store/src/global.rs:256-286 | a shift compares three channels of every pixel of the overlap |
| `ConfirmationLaws.ShiftIsSumOfGaps` | rust/crates/framescope-similarity-store/src/global.rs:256-286 | a shift sums the differences of all overlapping descriptor bytes, each channel once |
| `ConfirmationLaws.MovedCopyScoresWhole` | rust/crates/framescope-similarity-store/src/global.rs:239-286 | a copy moved by at most one pixel each way scores 10000 |
| `ConfirmationLaws.FlatImagesScore` | rust/crates/framescope-similarity-store/src/global.rs:239-336 | two flat images score 10000 less the rounded difference of their values, so black against white scores 0 |
| `ConfirmationLaws.CropSpreads` | rust/crates/framescope-similarity-store/src/global.rs:288-308 | a crop spreads the sixteen positions evenly between its insets |
| `ConfirmationLaws.SampleIsBilinear` | rust/crates/framescope-similarity-store/src/global.rs:310-326 | a cropped sample is the nearest byte to four descriptor bytes weighted by opposite areas |
| `ConfirmationLaws.TriedCropsCount` | rust/crates/framescope-similarity-store/src/global.rs:239-254 | every crop by nothing, a half, three quarters or one pixel on each axis counts, both ways |
| `ConfirmationLaws.OnlyTriedCropsCount` | rust/crates/framescope-similarity-store/src/global.rs:239-254 | a similarity above all shifts is the score of such a crop |
| `Confirmation.CompareShifted` | rust/crates/framescope-similarity-store/src/global.rs:256-286 | the nested loops with their skipped rows and columns compute the shift score |
| `Confirmation.TranslationSimilarity` | rust/crates/framescope-similarity-store/src/global.rs:256-286 | the best of the nine shifts |
| `Confirmation.ScaledSimilarity` | rust/crates/framescope-similarity-store/src/global.rs:288-326 | the loops compute the crop score |
| `Confirmation.CroppedSimilarity` | rust/crates/framescope-similarity-store/src/global.rs:243-253 | the best of fifteen crops taken both ways |
| `Confirmation.ConfirmationSimilarity` | rust/crates/framescope-similarity-store/src/global.rs:239-254 | wrong lengths are refused by their length; otherwise the similarity, in 0..10000 |
| `SimilarityKeys.ComputeColorBucket` | rust/crates/framescope-similarity-store/src/global.rs:338-352 | the loop computes the packed, quantised, rounded channel means |
| `SimilarityKeys.ComponentMeaning` | rust/crates/framescope-similarity-store/src/global.rs:338-352 | a channel mean is the nearest integer to the mean of its 256 bytes and keeps five bits |
| `SimilarityKeys.PackRoundTrip` | rust/crates/framescope-similarity-store/src/global.rs:354-360 | packing loses nothing and stays below 32768 |
| `SimilarityKeys.NearbyIffClose` | rust/crates/framescope-similarity-store/src/global.rs:362-379 | a bucket is searched exactly when all three components are within the radius |
| `SimilarityKeys.CloseMeansAreNear` | rust/crates/framescope-similarity-store/src/global.rs:338-379 | channel means within 16 are always near |
| `SimilarityKeys.ThreeBitsShareABand` | rust/crates/framescope-similarity-store/src/global.rs:542-560 | hashes at most three bits apart share one of the four bands |
| `SimilarityKeys.RelatedSymmetric` | rust/crates/framescope-similarity-store/src/global.rs:537-570 | the candidate relation is symmetric |
| `SimilarityKeys.RelatedIff` | rust/crates/framescope-similarity-store/src/global.rs:537-570 | two frames are related exactly when sixteen aligned bits of either hash agree or every colour component differs by at most two |
| `SimilarityKeys.CloseFramesAreRelated` | rust/crates/framescope-similarity-store/src/global.rs:537-570 | every frame within three bits on either hash or 16 on every channel mean is a candidate |
| `SimilarityKeys.KeysCount` | rust/crates/framescope-similarity-store/src/global.rs:712-739 | a descriptor has exactly nine distinct keys |
| `SimilarityKeys.SearchFindsRelated` | rust/crates/framescope-similarity-store/src/global.rs:537-570 | some searched key of the target is a filed key of a frame exactly when the two are related |
| `SimilarityQuery.RankHolds` | rust/crates/framescope-similarity-store/src/global.rs:590-595 | ranking keeps every match and orders by similarity descending, id ascending |
| `SimilarityQuery.RankedIsUnique` | rust/crates/framescope-similarity-store/src/global.rs:590-595 | only one such order exists |
| `SimilarityQuery.AnswerMeaning` | rust/crates/framescope-similarity-store/src/global.rs:572-606 | the answer is the best-ranked prefix of exactly the related frames that reach the threshold; counts and truncation are exact |
| `SimilarityQuery.AnswerIsRanked` | rust/crates/framescope-similarity-store/src/global.rs:572-606 | matches are other related frames over the threshold, higher similarity first, lower id among equals |
| `SimilarityQuery.CandidateCountMeaning` | rust/crates/framescope-similarity-store/src/global.rs:537-570 | the candidate count is the number of all other related frames |
| `SimilarityQuery.MatchesAreMutual` | rust/crates/framescope-similarity-store/src/global.rs:508-607 | if b matches a then a matches b with the same score |
| `SimilarityQuery.CloseFramesAreFound` | rust/crates/framescope-similarity-store/src/global.rs:508-607 | a close frame that reaches the threshold is never overlooked |
| `SimilarityQuery.CollectCandidates` | rust/crates/framescope-similarity-store/src/global.rs:537-570 | the candidate set is every other frame filed under a searched key; an id out of range is an error |
| `SimilarityQuery.CandidatesAreRelated` | rust/crates/framescope-similarity-store/src/global.rs:537-570 | over a written store the candidates are exactly the related frames |
| `SimilarityQuery.Confirm` | rust/crates/framescope-similarity-store/src/global.rs:572-589 | candidates are read and scored in ascending order; a missing or short row is an error |
| `SimilarityQuery.IndexedIsScanned` | rust/crates/framescope-similarity-store/src/global.rs:508-607 | the indexed answer equals the plain filtered scan |
| `SimilarityQuery.DenseHasNoDefects` | rust/crates/framescope-similarity-store/src/global.rs:626-644 | over a store that passed loading none of the row errors can occur |
| `SimilarityQuery.Search` | rust/crates/framescope-similarity-store/src/global.rs:535-606 | a target beyond the signed range and an absent one are refused as such, each exactly; over a written store the answer of the plain scan |
| `SimilarityQuery.Query` | rust/crates/framescope-similarity-store/src/global.rs:508-607 | policy errors, load verdicts and the answer, each exactly under its condition |
| `SimilarityStore.ValidationIsExact` | rust/crates/framescope-similarity-store/src/global.rs:784-834 | count, minimum, maximum, lengths and row counts hold exactly when ids are 0..n-1 with whole payloads and nine keys each |
| `SimilarityStore.IndexIsDense` | rust/crates/framescope-similarity-store/src/global.rs:694-744 | what a writer commits is dense and satisfies the schema |
| `SimilarityStore.IndexHolds` | rust/crates/framescope-similarity-store/src/global.rs:694-744 | the tables hold exactly each appended descriptor and its keys |
| `SimilarityStore.ReusedIff` | rust/crates/framescope-similarity-store/src/global.rs:443-506 | a store is reused exactly when complete, under the expected key, dense and countable; every rejected file is purged |
| `SimilarityStore.RejectedAs` | rust/crates/framescope-similarity-store/src/global.rs:443-506 | stale exactly for another version or key, incomplete exactly for an unfinished build |
| `SimilarityStore.FinishedStoreIsReused` | rust/crates/framescope-similarity-store/src/global.rs:443-506 | a finished store of n appends loads as reused with n, exactly while nine keys per frame fit SQLite's signed 64-bit count |
| `SimilarityStore.FinalPathUntouched` | rust/crates/framescope-similarity-store/src/global.rs:406-441 | before the rename, wherever the build stops, the final path keeps its file |
| `SimilarityStore.Publishes` | rust/crates/framescope-similarity-store/src/global.rs:675-692 | marking complete and renaming publishes the whole store and nothing earlier |
| `SimilarityStore.InsertPending` | rust/crates/framescope-similarity-store/src/global.rs:694-742 | one transaction inserts all pending rows, or none when an id exceeds the signed range |
| `SimilarityStore.GlobalSimilarityStoreWriter.Begin` | rust/crates/framescope-similarity-store/src/global.rs:406-441 | starts an empty building file beside the final path |
| `SimilarityStore.GlobalSimilarityStoreWriter.Append` | rust/crates/framescope-similarity-store/src/global.rs:655-673 | accepts exactly the next id with a whole payload; batches never reach 128 in memory |
| `SimilarityStore.GlobalSimilarityStoreWriter.FlushBatch` | rust/crates/framescope-similarity-store/src/global.rs:694-744 | commits everything pending, keeps what was appended |
| `SimilarityStore.GlobalSimilarityStoreWriter.Finish` | rust/crates/framescope-similarity-store/src/global.rs:675-692 | on success the final path holds the complete store of all appends, and at no earlier moment anything new |
| `RamCache.FitDropsShortestRun` | rust/crates/framescope-cache/src/frame_cache.rs:264-279 | eviction removes exactly the shortest least-recent run that makes the rest fit |
| `RamCache.AcceptedSurvives` | rust/crates/framescope-cache/src/frame_cache.rs:209-234 | an accepted frame survives its own eviction pass, as the most recent |
| `RamCache.HalfRangeIsCountable` | rust/crates/framescope-cache/src/frame_cache.rs:209-234 | with a budget of at most half the address range no accepted insert can overflow the byte count |
| `RamCache.HitIsLastAccepted` | rust/crates/framescope-cache/src/frame_cache.rs:193-234 | over every run a hit returns the frame last accepted under the key |
| `RamCache.RecencyIsLastUse` | rust/crates/framescope-cache/src/frame_cache.rs:193-279 | over every run the frames stand in rising order of their last accepted insert or hit, so eviction takes the least recently used |
| `RamCache.HitIsMostRecent` | rust/crates/framescope-cache/src/frame_cache.rs:193-207 | a hit makes its frame the most recent one, the others keep their order |
| `RamCache.InsertEvictsLeastRecent` | rust/crates/framescope-cache/src/frame_cache.rs:209-279 | an accepted insert evicts from the least recent end and no more than it has to |
| `RamCache.StepMeaning` | rust/crates/framescope-cache/src/frame_cache.rs:176-279 | what each operation does to the set of cached frames |
| `RamCache.ReachableIsWithinBudget` | rust/crates/framescope-cache/src/frame_cache.rs:176-279 | over every run the resident frames are within the budget |
| `RamCache.FindOldest` | rust/crates/framescope-cache/src/frame_cache.rs:266-271 | the scan finds a smallest access time |
| `RamCache.OldestIsFirst` | rust/crates/framescope-cache/src/frame_cache.rs:266-271 | the smallest access time belongs to the least recent entry |
| `RamCache.RamFrameCache.EvictToBudget` | rust/crates/framescope-cache/src/frame_cache.rs:264-279 | removes from the least recent end until the accounts fit; exact accounts stay exact |
| `RamCache.RamFrameCache.Get` | rust/crates/framescope-cache/src/frame_cache.rs:193-207 | returns the list's entry and makes it most recent |
| `RamCache.RamFrameCache.InsertFrame` | rust/crates/framescope-cache/src/frame_cache.rs:209-234 | too large exactly above the budget and then nothing changes; otherwise the list insert with exact accounts, exactly as long as the bytes before eviction fit a machine word (beyond that the accounts fall short by exactly what the word could not count, and eviction works on the short account) |
| `RamCache.UncountedInsert` | rust/crates/framescope-cache/src/frame_cache.rs:209-234 | the failing run: under the largest budget a frame that fills the address range and then one more byte are both accepted and both stay, so the cache holds more than its budget and than it accounts for |
| `RamCache.RamFrameCache.SetBudgetBytes` | rust/crates/framescope-cache/src/frame_cache.rs:176-179 | evicts to the new budget at once |
| `RamCache.RamFrameCache.InvalidateSourceFrames` | rust/crates/framescope-cache/src/frame_cache.rs:236-249 | removes exactly the frames of the source |
| `RamCache.RamFrameCache.ClearAll` | rust/crates/framescope-cache/src/frame_cache.rs:251-254 | empties cache and accounts |
| `SourceIdentity.IdentityRoundTrip` | rust/crates/framescope-cache/src/identity.rs:135-143 | every identity can be read back from its hashed stream |
| `SourceIdentity.EncodingIsInjective` | rust/crates/framescope-cache/src/identity.rs:135-143 | the hashed stream is injective over all four optional fields and prefix free |
| `SourceIdentity.NumberRoundTrip` | rust/crates/framescope-cache/src/identity.rs:191-201 | a tagged optional number can be read back |
| `SourceIdentity.TextRoundTrip` | rust/crates/framescope-cache/src/identity.rs:203-214 | a tagged, length-prefixed optional text can be read back |
| `SourceIdentity.WordBytes` | rust/crates/framescope-cache/src/identity.rs:191-201 | numbers are written least significant byte first |
| `SourceIdentity.FieldsInOrder` | rust/crates/framescope-cache/src/identity.rs:135-143 | the fields stand in the order size, modification time, provider id, content tag, an absent one as a single zero |
| `SourceIdentity.WholeStreamIsInjective` | rust/crates/framescope-cache/src/identity.rs:151-189 | different sources give different whole-source streams |
| `SourceIdentity.DomainsAreSeparate` | rust/crates/framescope-cache/src/identity.rs:5-8 | key streams and content streams never coincide |
| `SourceIdentity.HashChunks` | rust/crates/framescope-cache/src/identity.rs:164-183 | the loop terminates on bytes remaining and feeds the source bytes in order, however reads are chunked; it is cancelled exactly if its last check says so, fails exactly if its last read does, and checks before every read |
| `SourceIdentity.HashCompleteSeekable` | rust/crates/framescope-cache/src/identity.rs:151-189 | size and tag are functions of the source bytes; a cooperative reader always succeeds |
| `SourceIdentity.FromSeekableCancellable` | rust/crates/framescope-cache/src/identity.rs:90-119 | the identity of the bytes; the position is restored on success, error and cancellation unless the restoring seek fails |
| `PacketPump.AcceptedInDemuxOrder` | rust/crates/framescope-ffmpeg/native/framescope_ffmpeg_shim.c:779-896 | between seeks, until the codec refuses a packet, what it answered to have taken plus the packet it put off is exactly what was demuxed, in order; once a flush was tried that is the whole input |
| `PacketPump.FlushComesLast` | rust/crates/framescope-ffmpeg/native/framescope_ffmpeg_shim.c:852-866 | whenever a flush was tried, everything demuxed had been settled before it |
| `PacketPump.ReportsRiseIff` | rust/crates/framescope-ffmpeg/native/framescope_ffmpeg_shim.c:747-753 | while no epoch has wrapped, the reports of a session rise strictly exactly while no frame index has wrapped |
| `PacketPump.Session.ReportsRise` | rust/crates/framescope-ffmpeg/native/framescope_ffmpeg_shim.c:747-753 | below 2^64 calls all reports rise strictly |
| `PacketPump.Session.SendToCodec` | rust/crates/framescope-ffmpeg/native/framescope_ffmpeg_shim.c:779-780 | the only call of the codec, logged with the codec's own answer |
| `PacketPump.Session.SubmitCurrentPacket` | rust/crates/framescope-ffmpeg/native/framescope_ffmpeg_shim.c:779-799 | sends the packet once, leaves it pending exactly on EAGAIN, and fails exactly as the codec's answer says |
| `PacketPump.Session.SendFlush` | rust/crates/framescope-ffmpeg/native/framescope_ffmpeg_shim.c:852-866 | sends the flush, with input exhausted and nothing pending; it counts as sent exactly when the codec took it or was already drained |
| `PacketPump.Session.ReadPacket` | rust/crates/framescope-ffmpeg/native/framescope_ffmpeg_shim.c:869-887 | takes the demuxer's next answer: a packet becomes current, end of input is marked exactly on that answer |
| `PacketPump.Session.FeedCodec` | rust/crates/framescope-ffmpeg/native/framescope_ffmpeg_shim.c:843-896 | the inner loop makes at most one call of the codec, exactly one unless it fails, keeps the accounts and terminates; it fails exactly when the demuxer, the codec or a poll answered so, with the failure that answer stands for; with a clean input and a codec that keeps its protocol it always feeds |
| `PacketPump.Session.FillFrameInfo` | rust/crates/framescope-ffmpeg/native/framescope_ffmpeg_shim.c:747-753 | a report takes the current position and advances it |
| `PacketPump.Session.NextFrame` | rust/crates/framescope-ffmpeg/native/framescope_ffmpeg_shim.c:801-896 | for any codec and demuxer answers the packet accounts and the places of reports are kept; a frame is reported exactly when the codec delivered one, the end only on the codec's word in this call, and a failure exactly when a poll was cancelled, the demuxer or codec answered with an error or the codec wanted input after the flush, with the matching kind; with a clean input and a codec that keeps its protocol only cancellation can fail it, after a bounded number of polls |
| `PacketPump.Session.DecodeAll` | rust/crates/framescope-video/tests/decoder_fixtures.rs:22-28 | with a clean input, a codec that keeps its protocol (takes or puts off every packet, has a frame whenever it put one off, ends only after the flush) and from some request and send on neither volunteers frames nor puts anything off, and polls quiet for as many turns as that leaves, asking for frames ends in end of stream with the flush sent, the whole input demuxed and every packet of it taken in order |
| `PacketPump.PuttingOffSession` | rust/crates/framescope-ffmpeg/native/framescope_ffmpeg_shim.c:779-896 | a concrete session meets the hypothesis of draining: two packets, the second put off once, a frame after that and one while draining |
| `PacketPump.DrainsPuttingOff` | rust/crates/framescope-video/tests/decoder_fixtures.rs:22-28 | that session ends in end of stream with both packets taken, in order |
| `PacketPump.Session.SeekUs` | rust/crates/framescope-ffmpeg/native/framescope_ffmpeg_shim.c:1029-1085 | succeeds exactly for a non-negative time, a quiet poll, a valid time base and a demuxer that seeks; cancelled exactly on a poll or the demuxer's exit; success opens the next epoch with clean flags and an empty log, a refusal changes none of them |

## Left out

- JNI entry points, JSON responses, error-code mapping, Android and Gradle files: no property of their own.
- BLAKE3, SQLite, FFmpeg codecs and demuxers, swscale and the image encoders: appear as digests, tables and arbitrary answers.
- Real threads, poisoned locks and memory ordering: each mutex-protected operation is one atomic step; the unlocked store of the preview total is a step of its own.
- Visitors, sinks and cancellation hooks are functions of the call history, so a callback that reads other mutable state is not represented.
- `usize` is taken to be 64 bits wide; a group's frame count is not bounded by 2^64.
- SQL and file-system failures while reading or writing stores and manifests; only the failures that the model's types can name are followed.
- Group rows are passed from builder to navigator as values; the store that persists them is not part of this model.
- Timestamp lookups of the frame index are parameters of plans and of microscope jumps.
- PreviewBudget: the source cache and decoder cursor kept beside each preview cache are not modelled; a preview cache is its recency list, as the original keeps it until its 64-bit access clock saturates.
- SimilarityQuery.Query: takes the table definitions' own constraints (non-negative ids, index rows that name a descriptor) as enforced by SQLite.
- ExtractionVideo.Batch.FindAnchor: truthfulness is stated for pairwise distinct index timestamps, because equal timestamps make a landing position ambiguous to the code itself.
- PacketPump: cancellation polls and demuxer reads come from finite tapes, so a call that never returns is not described; once an epoch has wrapped after 2^64 seeks the order of reports is not stated.
- RamCache.RamFrameCache.InsertFrame: recency order is stated while the access clock has not wrapped; what a cache does after an insert has overflowed its byte count is not described.
- Manifest writer I/O failures; a manifest is the list of lines handed to a working writer. Exports compute it with the functions that `Manifest.ExtractionManifestWriter` is proved equal to.
- The microscope's decoding path (`present_microscope_frame_with_cursor`) is one preparation outcome: pixels of the requested frame or a failure.
- Descriptor hashes: the average and difference hash of `descriptor_for_frame` are arbitrary 64-bit values here; what is proved about them needs only their bits.
- `is_reuse_safe`, disk proxy cache, hierarchy, storage administration, index catalog, indexing progress, quality counters and statistics: would add easy members only.
- `visit_frame_ids`: repeats the plan iteration with a callback.
