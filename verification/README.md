# Verified model of a streaming speech-to-text server

The server receives audio over a WebSocket, cleans it, buffers it, cuts the silence out, decodes a
sliding window and sends back text. Speech recognition (Whisper) and voice-activity detection
(Silero) are foreign; the state machinery around them is modelled here, with everything those models
return taken as an arbitrary input. `dafny verify dfyconfig.toml` checks the whole project.

| file | component | in one sentence |
|---|---|---|
| `AudioPreprocessor.dfy` | high-pass filter and peak normalisation | the in-place loops compute a filter that ignores chunking, subtracts a moving average and has an amplitude bound |
| `VadGate.dfy` | silence gate | what is kept and what is lost, how the gated buffer is laid out, and the map back to original time |
| `StreamingEngine.dfy` | audio buffer and sliding-window commit | snapshot, append, erase; what a commit removes and what it may not |
| `HallucinationGuard.dfy` | repetition detector | one pass with a map equals a declarative specification |
| `MultipartParser.dfy` | multipart bodies (section 5.1.1 of RFC 2046, section 4.2 of RFC 7578) | parsing undoes printing, and exactly when it throws |
| `ModelCache.dfy` | reference-counted model with unload timers | references are acquires less releases, stale timers never free a model in use, and exactly when they free one early |
| `InferenceLimiter.dfy` | semaphore for decoder slots | slots are grants less releases, and no wake-up is lost, in every interleaving |
| `SessionThreads.dfy` | receive and flush thread of a session | the step relation, with the state mutex as a resource, and mutual exclusion |
| `SessionEnd.dfy` | end of a session | one final message, joins that return, when a release is safe, when audio is lost unreported |
| `SessionText.dfy` | transcription texts | committed text is never taken back, and every pass with text worth telling is told once |
| `SessionTrigger.dfy` | when a pass begins | the trigger, when its unsigned subtraction stays exact over a run, and a run in which it wraps |
| `SessionStatus.dfy` | busy and ok messages | they alternate, and nothing is decoded while the last word was busy |
| `SessionRestart.dfy` | a second configuration | when it starts the session over, and when old text spills into the new |
| `SessionFlow.dfy` | pause, resume and drop warnings | the protocol read off the log, and the two overlaps that break it |
| `SessionSlots.dfy` | decoder slots of all sessions | sessions and limiter together: every pass has a slot of its own until its last send |
| `SessionModels.dfy` | model references of all sessions | sessions and cache together: no engine loses its model, and which references come back |
| `ByteRate.dfy` | byte-rate window | exactly who is refused, a bound on what is passed on, and an excess that is for ever |
| `StreamingSession.dfy` | the session object | the handlers, tied to the step relation |
| `Common.dfy` | | `Option` and C integer division |

Code that updates objects or loops over buffers is written as classes and methods, proved equal to
functions on values; the theorems are lemmas about those functions and about runs of steps.

Properties the code keeps only under a condition, each with the exact condition:

- Speech is lost in the gate if and only if a segment reaches back before the end of an earlier one to
  samples no earlier one covers (`SpeechIsKeptExactlyIfNothingComesLate`; `LateSegmentIsLost` is such a
  list).
- A commit on a grown buffer is the rest of the snapshot plus the new audio if and only if nothing was
  trimmed and the count stays inside the snapshot, or nothing arrived (`CommitAfterAppends`;
  `TrimSpoilsCommit` falsifies it). Inside a session the mutex guarantees it (`PassCommitsOnItsSnapshot`).
- A pass that commits text erases its audio if and only if it is forced or its last segment ends after
  zero (`CommitErasesExactlyIf`; `CommitWithoutErasing` is a pass that does not).
- A printed file name is read back if and only if the field's name does not end in `filename=`, or the
  file name is empty or the very text that would be misread (`FilenameRoundTrip`).
- A model is freed while held if and only if somebody forces the unload or asks for another path
  (`FreesHeldExactlyWhenReckless`; `RecklessCallsFreeHeld` runs both). A pending unload can come early if
  and only if a timer of an earlier schedule is still alive (`FreedEarlyExactlyIfAnOlderTimerLives`),
  which it is as long as it has not looked at a moment that ends it (`TimerOutlives`); `StaleTimerFires`
  is a run in which one does.
- After the final message something more is sent if and only if the close fails
  (`MoreIsSentExactlyIfTheCloseFails`); `TwoFinalMessages` is a run with two final messages.
- An accepted frame pushes undecoded audio out, with no message, if and only if the buffer and the frame
  together exceed 480000 samples (`LostInSilenceExactlyIf`); `AudioIsLostInSilence` is a run in which two
  frames of a megabyte do it.
- A session that is over has given back all its model references if and only if it was configured at most
  once (`ReferencesReturnExactlyIfConfiguredOnce`); `SecondConfigurationKeepsAReference` is a run of one
  that has not.
- A configuration between two turns of the flush loop starts the session over (`ConfigurationStartsOver`).
  Text of the audio before it spills into the new texts if and only if the flush thread is caught in a
  send between a commit and its accounting (`OldTextSpillsOverExactlyIf`; `OldTextSpillsOver` is a run).
- A frame is passed on if and only if neither it nor any earlier one exceeds its window
  (`PassedExactlyBeforeAnyExcess`); the window is never reset after that (`ExcessIsForever`).
- Leaving a session can make its flush thread use an engine that is gone if and only if the thread is
  caught in one of the sends inside a pass (`ReleaseIsUnsafeExactlyInsideAPass`); `MissingEngineIsUsed`
  is a run in which it happens.
- The flush trigger's subtraction is exact throughout a run if and only if every pass commits text or
  erases no more than came in since it measured the buffer (`ExactExactlyIfAllPay`);
  `EmptyCommitWraps` is a run in which it wraps.
- Flow control survives a step if and only if the step does not refuse a chunk while an episode is being
  ended, and does not end an episode while a pause or a warning is still owed
  (`BreaksExactlyAfterAnOverlap`); `RefusalFalsifiesWarning` and `WarningOvertakesPause` are runs with
  these steps.

Where comments and code differ the code is followed. `src/whisper/StreamingWhisperEngine.cpp:221` says
that samples added during inference are past the erase point; that needs the condition of
`CommitAfterAppends`. `src/whisper/ModelCache.h:91-92` promises the time to live after the last release;
a stale timer can cut it short. A forced commit is described as clearing the buffer; it does so only
if the pass reached the decoder and a segment came back (`ForcedPassClears`).

## Model

| member | source | states |
|---|---|---|
| `AudioPreprocessor.Process` | src/utils/AudioPreprocessor.h:19-36 | rewrites the chunk in place to the filtered, normalised chunk and returns the filter state after it |
| `AudioPreprocessor.FilterInPlace` | src/utils/AudioPreprocessor.h:23-30 | the first loop leaves the filtered samples, the carried state and the peak of their magnitudes |
| `AudioPreprocessor.ScaleInPlace` | src/utils/AudioPreprocessor.h:32-35 | the second loop multiplies every sample by the gain |
| `AudioPreprocessor.PeakIsLeastBound` | src/utils/AudioPreprocessor.h:21-29 | the peak is the least bound of the magnitudes |
| `AudioPreprocessor.ChunkingIsInvisible` | src/utils/AudioPreprocessor.h:11-12 | for every split into chunks, the filtered samples and the carried state are those of one pass over the concatenation |
| `AudioPreprocessor.FilterSubtractsAverage` | src/utils/AudioPreprocessor.h:20-28 | the recurrence is a high-pass filter: every output is the raw sample minus an exponential moving average in which each sample weighs 0.031 |
| `AudioPreprocessor.FilterBound` | src/utils/AudioPreprocessor.h:19-30 | for input in [-1,1] from rest, however chunked, filtered differs from raw by at most 1 and is at most 1.938 in magnitude |
| `AudioPreprocessor.NormalizedPeak` | src/utils/AudioPreprocessor.h:32-35 | exactly the chunks with a peak between 0.02 and 0.9 get gain, and come out with a peak of min(0.9, 4 times the old one) |
| `VadGate.KeptIsOrdered` | src/whisper/VadGate.cpp:114-128 | for any segments, sorted or not, the kept regions are non-empty, disjoint, increasing and inside the buffer |
| `VadGate.RenderedIsFaithful` | src/whisper/VadGate.cpp:130-147 | the built buffer copies every region sample by sample and is zero everywhere else |
| `VadGate.LayoutIsWellFormed` | src/whisper/VadGate.cpp:130-147 | the mapping is ordered and disjoint in both timelines, entries are exactly 1600 samples apart and equally long on both sides |
| `VadGate.GatingIsCorrect` | src/whisper/VadGate.cpp:114-148 | for any clamped intervals: mapping records the kept regions, is well formed, the samples are faithful to it, and a gap trails exactly if the last interval added nothing |
| `VadGate.LoopIsRight` | src/whisper/VadGate.cpp:114-148 | the loop's locals after each segment are the layout and rendering of the regions kept so far |
| `VadGate.Gate.Cut` | src/whisper/VadGate.cpp:75-152 | forgets the old mapping; throws exactly on a failing model; otherwise the cut is correct, the mapping holds only samples near detected speech, all of them if the starts are in order, and speech is reported exactly if there is any |
| `VadGate.Gate.CutSegments` | src/whisper/VadGate.cpp:114-148 | the loop over the segments, with its cursors, computes the specified state |
| `VadGate.Gate.ToOriginalSamples` | src/whisper/VadGate.cpp:56-60 | maps a decoder time by the mapping of the last cut |
| `VadGate.MapGatedToOriginalSamples` | src/whisper/VadGate.cpp:31-54 | the search loop computes the map back |
| `VadGate.MapBackAt` | src/whisper/VadGate.cpp:35-53 | closed form of the map: 0 before everything, offset inside a region, end of the last region in a gap or past the end; always in [0, total] |
| `VadGate.MapBackMonotone` | src/whisper/VadGate.cpp:31-54 | the map is monotone over all integers |
| `VadGate.MapBackFindsTheSample` | src/whisper/VadGate.cpp:46-49 | inside a region the map leads to the original sample the gated sample was copied from |
| `VadGate.CutsAgree` | src/whisper/VadGate.cpp:31-54 | a region's sample lies before a cut in gated time exactly if its original lies before the mapped cut |
| `VadGate.KeptUnion` | src/whisper/VadGate.cpp:123-128 | if the padded starts are in order, the kept regions cover exactly what the padded segments cover |
| `VadGate.KeptIsExactlyThePaddedSpeech` | src/whisper/VadGate.cpp:106-128 | only samples within the padding of a detected segment are kept, rounding and clamping included; all of them, if the detected starts do not decrease |
| `VadGate.PaddedIsNear` | src/whisper/VadGate.cpp:101-126 | a sample is in a padded segment if and only if it is in the buffer and at most the padding, and half a sample for the rounding, away from the segment at 160 samples per centisecond |
| `VadGate.KeptExactlyIfHeard` | src/whisper/VadGate.cpp:98-151 | something is kept if and only if some sample of the buffer is near a detected segment |
| `VadGate.SpeechIsKeptExactlyIfNothingComesLate` | src/whisper/VadGate.cpp:117-128 | for any list of segments in any order: no sample near detected speech is lost if and only if no segment reaches back before the end of an earlier one to samples no earlier one covers, and such samples are what is lost |
| `VadGate.LateSegmentIsLost` | src/whisper/VadGate.cpp:125-127 | a concrete list with such a segment |
| `VadGate.DecodedIsSpeechOrSilence` | src/whisper/VadGate.cpp:130-147 | every sample of the gated buffer is zero or a copy of an original sample near a detected segment |
| `VadGate.EachSampleIsCopiedOnce` | src/whisper/VadGate.cpp:123-134 | no original sample is in two places of the gated buffer |
| `StreamingEngine.BufferIsRecentStream` | src/whisper/StreamingWhisperEngine.cpp:49-79 | over all runs of chunks, commits and resets the buffer is a suffix of the accepted stream of at most 480000 samples |
| `StreamingEngine.FilterSeesOneStream` | src/whisper/StreamingWhisperEngine.cpp:54-60 | over all runs, refusals, commits and resets included, the filter is where one pass over all accepted audio would leave it |
| `StreamingEngine.AcceptedIsFilteredStream` | src/whisper/StreamingWhisperEngine.cpp:54-77 | after any run a chunk is accepted exactly below 320000 waiting samples, and what is appended is the filter's single pass over all accepted audio, normalised as a chunk |
| `StreamingEngine.AppendsKeepLast` | src/whisper/StreamingWhisperEngine.cpp:62-77 | appending chunk by chunk, with trimming and refusals, keeps the last 480000 samples of the whole |
| `StreamingEngine.ResetKeepsLast` | src/whisper/StreamingWhisperEngine.cpp:266-273 | a reset leaves the last samples asked for, or none if none or all are asked for |
| `StreamingEngine.CommitAfterAppends` | src/whisper/StreamingWhisperEngine.cpp:219-242 | a commit after appends is the rest of the snapshot plus the new audio if and only if nothing was trimmed and the count is inside the snapshot, or nothing arrived |
| `StreamingEngine.TrimSpoilsCommit` | src/whisper/StreamingWhisperEngine.cpp:70-76 | a run in which a frame trims the head and a commit decided before it erases more than it decoded |
| `StreamingEngine.SmallChunksNeverTrim` | src/whisper/StreamingWhisperEngine.cpp:54-57 | chunks of at most 160000 samples cannot trim the head |
| `StreamingEngine.ChooseCommit` | src/whisper/StreamingWhisperEngine.cpp:180-206 | the last segment that ends before the last two seconds, else all but the last, else none; all of them if forced |
| `StreamingEngine.CommitsExactlyIf` | src/whisper/StreamingWhisperEngine.cpp:174-206 | a pass commits if and only if it is forced, or 160000 samples are there and there is more than one segment or one that ends before the last two seconds decoded; and up to which segment |
| `StreamingEngine.ReachesExactlyIf` | src/whisper/StreamingWhisperEngine.cpp:92-104 | a pass gets an answer if and only if there is audio, the gate hears something and the decoder succeeds; it throws if and only if gate or decoder fail; else it has no text |
| `StreamingEngine.JoinTexts` | src/whisper/StreamingWhisperEngine.cpp:210-217 | the loops concatenate the segments' texts, skipping null ones |
| `StreamingEngine.NoTextLost` | src/whisper/StreamingWhisperEngine.cpp:208-257 | whenever the decoder answers, committed text followed by partial text is the text of all segments |
| `StreamingEngine.OverlapIsKept` | src/whisper/StreamingWhisperEngine.cpp:187-198 | a cut by overlap leaves at least 32160 decoded samples, and without a gate as many original samples |
| `StreamingEngine.ForcedPassClears` | src/whisper/StreamingWhisperEngine.cpp:184-185 | a forced pass empties the buffer if and only if the decoder was reached and returned a segment, and then commits all of its text |
| `StreamingEngine.CommitSafety` | src/whisper/StreamingWhisperEngine.cpp:172-242 | end to end through gate and map, for the action the pass takes: its texts are those up to the chosen segment and after it; exactly the first n samples of the snapshot go, where a kept sample is among them if and only if its gated index is below 160 times the segment's end; all new audio stays; what was not kept was never decoded |
| `StreamingEngine.UngatedCommitSafety` | src/whisper/StreamingWhisperEngine.cpp:219-242 | without a gate: exactly 160 samples per centisecond of the chosen segment's end go, or all there are |
| `StreamingEngine.AppendTrimmed` | src/whisper/StreamingWhisperEngine.cpp:62-77 | the three branches keep the last 480000 samples of buffer plus chunk |
| `StreamingEngine.Engine.ProcessAudioChunk` | src/whisper/StreamingWhisperEngine.cpp:49-79 | refuses exactly at 320000 waiting samples, leaving everything as it was; otherwise appends the preprocessed chunk; never shrinks the buffer |
| `StreamingEngine.Engine.TranscribeSlidingWindow` | src/whisper/StreamingWhisperEngine.cpp:81-258 | returns the specified texts and changes the buffer by the specified commit, in every branch |
| `StreamingEngine.Engine.FinishPass` | src/whisper/StreamingWhisperEngine.cpp:172-258 | the same from the decoded segments on, with a buffer that may have grown since the snapshot |
| `StreamingEngine.Engine.EraseCommitted` | src/whisper/StreamingWhisperEngine.cpp:219-242 | the second critical section applies exactly the chosen erasure |
| `StreamingEngine.Engine.Reset` | src/whisper/StreamingWhisperEngine.cpp:266-273 | keeps the asked number of recent samples, or none if there are not more |
| `StreamingEngine.UncoveredIsNeverDecoded` | src/whisper/VadGate.cpp:130-147 | if no kept region covers a sample, every sample handed to the decoder is silence or a copy of another one |
| `StreamingEngine.CommitErasesExactlyIf` | src/whisper/StreamingWhisperEngine.cpp:223-242 | a pass takes audio out of the buffer if and only if it commits segments and is forced or the last of them ends after zero; if it commits without, the same answer commits the same text again |
| `StreamingEngine.CommitWithoutErasing` | src/whisper/StreamingWhisperEngine.cpp:223-242 | a pass that commits text and erases nothing |
| `HallucinationGuard.KeyIsInjective` | src/utils/HallucinationGuard.h:27 | words joined by a space can be told apart again |
| `HallucinationGuard.CountsAfter` | src/utils/HallucinationGuard.h:27 | one more map increment keeps the map equal to the pair counts |
| `HallucinationGuard.RepetitionMeansAlarm` | src/utils/HallucinationGuard.h:21-29 | whatever the specification calls repetitive makes the source stop |
| `HallucinationGuard.AlarmMeansRepetition` | src/utils/HallucinationGuard.h:21-29 | the source stops only on what the specification calls repetitive |
| `HallucinationGuard.ReadsOn` | src/utils/HallucinationGuard.h:21-29 | one iteration: the locals follow the next word, and the source stops exactly if that word raises an alarm |
| `HallucinationGuard.IsHallucination` | src/utils/HallucinationGuard.h:13-31 | true exactly if the text exceeds 500 characters, four consecutive words are equal, or some adjacent pair occurs at least four times |
| `HallucinationGuard.WordsCoverText` | src/utils/HallucinationGuard.h:16-20 | the words cover the text: nothing but white space is left out and no two words touch |
| `MultipartParser.IndexOfIsFirst` | src/server/MultipartParser.cpp:40-43 | the search returns the first occurrence, or there is none |
| `MultipartParser.Parse` | src/server/MultipartParser.cpp:33-96 | the outer loop computes the specified parse, errors included |
| `MultipartParser.ParsePart` | src/server/MultipartParser.cpp:46-64 | one part is delimited as specified: closing dashes, a missing line end, a missing blank line, a missing delimiter |
| `MultipartParser.ParseHeaders` | src/server/MultipartParser.cpp:67-84 | the header loop computes name, file name and content type |
| `MultipartParser.FilenameRoundTrip` | src/server/MultipartParser.cpp:23-31 | a printed file name is read back if and only if the name does not end in the parameter's own key, or there is nothing to misread |
| `MultipartParser.NameReads` | src/server/MultipartParser.cpp:23-31 | a printed name is always read back |
| `MultipartParser.HeadersRead` | src/server/MultipartParser.cpp:71-84 | printed headers are read back |
| `MultipartParser.TypeReadsSpaced` | src/server/MultipartParser.cpp:77-82 | any number of spaces before a content type is dropped, unless there is nothing else |
| `MultipartParser.KeyInAnyCase` | src/server/MultipartParser.cpp:72-77 | a header is recognised in any mix of cases, and only by its own letters |
| `MultipartParser.ValueIsQuoted` | src/server/MultipartParser.cpp:23-31 | for any header, a parameter is what stands between its first opening quote and the next quote |
| `MultipartParser.NoValueIsEmpty` | src/server/MultipartParser.cpp:23-31 | without the key or without a closing quote it is empty |
| `MultipartParser.BlankLineFound` | src/server/MultipartParser.cpp:52 | the first blank line after printed headers is the real one |
| `MultipartParser.DelimiterFound` | src/server/MultipartParser.cpp:59-64 | if the data lacks the delimiter and the boundary has no CR, the first delimiter found is the real one: none can straddle the data's end |
| `MultipartParser.PartsRead` | src/server/MultipartParser.cpp:45-93 | from any delimiter on, printed parts are parsed into the map of names, those without a name dropped and the later of two equal names winning, whatever follows the closing dashes |
| `MultipartParser.RoundTrip` | src/server/MultipartParser.cpp:33-96 | parsing the printed form of any list of printable fields, after any preamble without an early delimiter and before any epilogue, gives back their map |
| `MultipartParser.ParseThrowsExactlyIf` | src/server/MultipartParser.cpp:40-64 | the parser throws if and only if there is no delimiter, or after some whole parts comes one without a blank line or without a delimiter behind it |
| `MultipartParser.ExtractBoundary` | src/server/MultipartParser.cpp:8-21 | the stripping loop computes the specified boundary |
| `MultipartParser.BareBoundary` | src/server/MultipartParser.cpp:8-21 | after any text in which the key does not occur earlier, an unquoted boundary is read back if and only if it neither looks quoted nor ends like a separator |
| `MultipartParser.QuotedBoundary` | src/server/MultipartParser.cpp:12-19 | after any such text a quoted boundary is read back, whatever follows, if and only if it does not end like a separator |
| `ModelCache.StepKeepsInv` | src/whisper/ModelCache.h:51-116 | acquires, failed loads, releases, TTL changes and timers keep: references equal holders, a pending unload means none, loads minus frees is one exactly if a context is loaded |
| `ModelCache.FreesHeldExactlyWhenReckless` | src/whisper/ModelCache.h:63-69 | from a good state a step frees the context of a holder if and only if it is a forced unload or a change of path with holders |
| `ModelCache.RecklessCallsFreeHeld` | src/whisper/ModelCache.h:63-69 | a run for either call in which the context is freed under its holder |
| `ModelCache.UseAfterFreeNeedsRecklessCall` | src/whisper/ModelCache.h:51-125 | a whole run frees a held context if and only if some step of it is reckless |
| `ModelCache.ModelCache.Acquire` | src/whisper/ModelCache.h:51-86 | cancels the pending unload, reuses, replaces or loads; a failed load leaves no context |
| `ModelCache.ModelCache.ForceUnload` | src/whisper/ModelCache.h:121-125 | frees whatever the references, and cancels a pending unload |
| `ModelCache.ModelCache.TimerBody` | src/whisper/ModelCache.h:214-222 | a timer frees exactly if an unload is pending when it runs |
| `ModelCache.LifetimeSafety` | src/whisper/ModelCache.h:51-116 | with one path and no forced unload, in every interleaving with any number of stale timers: a held context is the loaded one, no unload is pending while it is held, and the balances hold |
| `ModelCache.TimerOutlives` | src/whisper/ModelCache.h:214-222 | over every run, a timer is alive if and only if it has not itself looked when cancelled or when its time was up |
| `ModelCache.FreedEarlyExactlyIfAnOlderTimerLives` | src/whisper/ModelCache.h:206-222 | a pending unload can come before its own timer if and only if a timer of an earlier schedule is alive |
| `ModelCache.StaleTimerFires` | src/whisper/ModelCache.h:206-212 | a run in which such a timer frees the model that a later schedule should keep |
| `ModelCache.ModelCache.Release` | src/whisper/ModelCache.h:94-116 | drops a reference; at zero frees, schedules or keeps, by the TTL; without a reference it is ignored |
| `ModelCache.AcquireSays` | src/whisper/ModelCache.h:51-86 | a successful acquire adds one holder of the right model and cancels a pending unload, without reloading what is loaded; a failed one adds none and leaves nothing loaded |
| `ModelCache.ReleaseSays` | src/whisper/ModelCache.h:94-110 | a release takes away exactly its holder; the last one unloads at once, starts one timer, or keeps the model, as the time to live is zero, positive or negative |
| `ModelCache.TimerSays` | src/whisper/ModelCache.h:214-222 | a timer whose time is up unloads the model and is done; any other look leaves the model alone |
| `ModelCache.CountIsAcquiresLessReleases` | src/whisper/ModelCache.h:51-116 | over every run without reckless calls the count is the acquires that got a context less the releases by holders |
| `InferenceLimiter.StepKeepsInv` | src/whisper/InferenceLimiter.h:42-83 | every step keeps: slots counted equal slots owned, waiters are in one place, and sleepers are outnumbered by awake waiters for every free slot |
| `InferenceLimiter.RunKeepsInv` | src/whisper/InferenceLimiter.h:42-83 | the same over every interleaving, with barging, timeouts, spurious wake-ups and limit changes |
| `InferenceLimiter.CountingSafety` | src/whisper/InferenceLimiter.h:23-59 | slots in use equal live guards and never exceed the highest limit there has been |
| `InferenceLimiter.NobodySleepsBesideAFreeSlot` | src/whisper/InferenceLimiter.h:42-46 | once the awake waiters have had their turn, nobody sleeps while a slot is free |
| `InferenceLimiter.RelocksDrain` | src/whisper/InferenceLimiter.h:42-72 | giving every awake waiter its turn leaves none awake |
| `InferenceLimiter.InferenceLimiter.SetMaxConcurrency` | src/whisper/InferenceLimiter.h:23-30 | ignores non-positive limits; otherwise sets the limit and wakes everybody |
| `InferenceLimiter.InferenceLimiter.TryAcquire` | src/whisper/InferenceLimiter.h:52-59 | takes a slot exactly if one is free |
| `InferenceLimiter.InferenceLimiter.AcquireOrSleep` | src/whisper/InferenceLimiter.h:42-46 | takes a free slot or goes to sleep |
| `InferenceLimiter.InferenceLimiter.RelockAndRecheck` | src/whisper/InferenceLimiter.h:65-72 | an awake waiter takes a free slot, gives up if its time is over, or sleeps again |
| `InferenceLimiter.EveryGrantRespectsTheLimit` | src/whisper/InferenceLimiter.h:42-72 | at no step of any run is a slot taken beyond the limit in force |
| `InferenceLimiter.SlotsSay` | src/whisper/InferenceLimiter.h:42-83 | a slot is taken exactly by the one that asks while there is room and given back exactly by its guard; nothing else touches slots or guards |
| `InferenceLimiter.ReleaseWakesOne` | src/whisper/InferenceLimiter.h:77-83 | a release wakes exactly one sleeper if there is any, and nobody else |
| `InferenceLimiter.NoRoomSleeps` | src/whisper/InferenceLimiter.h:42-72 | without room an acquire sleeps, and a woken waiter sleeps again as before unless its time is up |
| `InferenceLimiter.WakingSays` | src/whisper/InferenceLimiter.h:23-30 | only a timed wait can run out; a new limit wakes every sleeper |
| `InferenceLimiter.SlotsAreGrantsLessReleases` | src/whisper/InferenceLimiter.h:42-83 | over every run the slots in use are those granted less those given back, so a limiter whose guards have let go has room again |
| `InferenceLimiter.InferenceLimiter.ReleaseSlot` | src/whisper/InferenceLimiter.h:77-83 | gives the slot back and wakes one sleeper if there is any; with no slot taken it is ignored |
| `SessionThreads.RunKeepsInv` | src/server/StreamingSession.h:563-582 | over every interleaving: the mutex is owned exactly by the thread in a critical section, the buffer is bounded, the final phase comes only after the flush thread, and a commit works on an unchanged buffer |
| `SessionThreads.OwnerIsUndisturbed` | src/server/StreamingSession.h:578-582 | while the flush thread is in a critical section, no schedule of the receive thread changes the shared state |
| `SessionThreads.PassCommitsOnItsSnapshot` | src/server/StreamingSession.h:642 | however the receive thread is scheduled, a pass erases from exactly the buffer it decoded |
| `SessionEnd.EndProtocol` | src/server/StreamingSession.h:416-482 | in every interleaving in which the final close succeeds there is at most one final message and nothing after it |
| `SessionEnd.MoreIsSentExactlyIfTheCloseFails` | src/server/StreamingSession.h:472-481 | after the final message some continuation sends more if and only if the close fails, and then a second `end` sends a second final message |
| `SessionEnd.TwoFinalMessages` | src/server/StreamingSession.h:459-481 | a run from the start with two final messages |
| `SessionEnd.FlushLetsGo` | src/server/StreamingSession.h:578-710 | whatever the schedule, the flush thread gives the mutex up within as many of its own steps as its rank |
| `SessionEnd.JoinReturns` | src/server/StreamingSession.h:552-561 | in the end handler and in the destructor, sixteen steps of the flush thread under any schedule end it, wherever it was, unless the process ends: no relock waits on the joining thread |
| `SessionEnd.ReleaseIsUnsafeExactlyInsideAPass` | src/server/StreamingSession.h:159-171 | after the model is released some continuation uses the missing engine if and only if the flush thread was caught in a send inside a pass |
| `SessionEnd.MissingEngineIsUsed` | src/server/StreamingSession.h:635-642 | a run from the start in which that happens |
| `SessionEnd.LostInSilenceExactlyIf` | src/whisper/StreamingWhisperEngine.cpp:62-77 | an accepted chunk pushes old audio out if and only if buffer and chunk exceed 480000 samples, and nothing is reported either way |
| `SessionEnd.AudioIsLostInSilence` | src/whisper/StreamingWhisperEngine.cpp:62-77 | a run from the start in which 44288 samples go without a message |
| `SessionText.AccumulatedIsRight` | src/server/StreamingSession.h:673-692 | accounting for a pass keeps: raw is all commits, filtered is the commits that are not hallucinated |
| `SessionText.StepExtends` | src/server/StreamingSession.h:673-709 | every step extends the committed text and sends only texts that start with it |
| `SessionText.CommittedTextIsNeverRetracted` | src/server/StreamingSession.h:442-458 | for sessions configured once, what is committed at any time starts the committed text and every transcription from then on, the final one under fallback or timeout included |
| `SessionText.FilteredIsRawWithoutHallucinations` | src/server/StreamingSession.h:677-688 | until the end the raw text is all commits and the filtered text exactly those that pass the guard |
| `SessionText.PassIsTold` | src/server/StreamingSession.h:673-709 | over every run of a session configured once: a pass with text worth telling is told in the flush thread's next step, whatever the receive thread does, with the shown commits and the partial text; one without is not |
| `SessionText.EachPassIsToldOnce` | src/server/StreamingSession.h:699-709 | over every run, configured however often, the transcriptions that are not final are as many as the passes worth telling, but for one about to be sent |
| `SessionText.FinalTextIsEmptyOnlyIfNothingWasHeard` | src/server/StreamingSession.h:437-457 | the final text is empty if and only if nothing was committed and the last decode adds nothing; commits the guard kept back are sent exactly if there is nothing else, and the last words are sent unfiltered |
| `SessionText.FinalSays` | src/server/StreamingSession.h:425-470 | if the last decode throws there is no final message; otherwise it says complete if and only if there was a slot or no engine, and the buffer is empty if anything was decoded |
| `SessionTrigger.PassIsExactExactlyIfItPays` | src/server/StreamingSession.h:605-692 | a pass leaves an exact subtraction if and only if it committed text or erased no more than came in from its measurement to its accounting |
| `SessionTrigger.ExactExactlyIfAllPay` | src/server/StreamingSession.h:613-614 | over every run of a session configured once, the subtraction is exact whenever no pass is unaccounted for if and only if every pass does |
| `SessionTrigger.TriggerArithmeticIsExact` | src/server/StreamingSession.h:613-614 | in particular it is exact throughout if every commit that erases audio carries text |
| `SessionTrigger.EmptyCommitWraps` | src/server/StreamingSession.h:690-692 | a run in which one commit without text makes the subtraction wrap and the loop decode again without new audio |
| `SessionTrigger.PassBeginsExactlyIf` | src/server/StreamingSession.h:603-641 | a poll begins a pass if and only if the session is configured, two seconds are there, enough is new or a pause of 400 ms follows anything new, and there is a slot; busy and free are told once each |
| `SessionTrigger.NothingShortIsDecoded` | src/server/StreamingSession.h:607-608 | in no run of a session configured once is less than two seconds decoded before the end |
| `SessionFlow.OrderlyAlternates` | src/server/StreamingSession.h:222-225 | in an orderly log pauses and resumes strictly alternate, beginning with a pause |
| `SessionFlow.FlowControl` | src/server/StreamingSession.h:645-671 | over all runs without the two overlaps: strict alternation; each pause with the first drop; each warning reports the drops so far; each resume after 10, 20, 30, ... and the exact total; the open episode is up to date |
| `SessionFlow.BreaksExactlyAfterAnOverlap` | src/server/StreamingSession.h:208-235 | from any state of such a run, a step lets the log become disorderly without further overlap if and only if it refuses a chunk while an episode is being ended or ends one while a pause or warning is owed |
| `SessionFlow.EpisodeEndsExactlyIf` | src/server/StreamingSession.h:645-671 | after a commit a saturation episode is ended if and only if there is one and less than 160000 samples are left; drops past the last warning are reported first |
| `SessionFlow.RefusalFalsifiesWarning` | src/server/StreamingSession.h:653-670 | a run from the start in which a chunk refused during the last warning makes its count wrong |
| `SessionFlow.WarningOvertakesPause` | src/server/StreamingSession.h:220-225 | a run from the start in which the episode's end is reported before its pause |
| `SessionStatus.StatusesAlternate` | src/server/StreamingSession.h:623-641 | over every run of a session configured once, busy and ok strictly alternate, and whenever the flush thread decodes the last word was not busy |
| `SessionRestart.ConfigurationStartsOver` | src/server/StreamingSession.h:371-398 | a configuration between two turns of the flush loop: in every continuation state and messages are those of a session just opened and configured alike |
| `SessionRestart.OldTextSpillsOverExactlyIf` | src/server/StreamingSession.h:371-398 | after a configuration, text of the audio before it gets into the new texts without new audio if and only if the flush thread was caught in a send between a commit with text and its accounting |
| `SessionRestart.OldTextSpillsOver` | src/server/StreamingSession.h:645-692 | a run from the start in which it does |
| `SessionSlots.SlotChangesHands` | src/server/StreamingSession.h:623-643 | a slot comes only with a poll that asks for one and gets it, and goes only with the turn: all sends in between are made with it |
| `SessionSlots.SessionsShareTheSlots` | src/server/StreamingSession.h:623-643 | any number of sessions and other users in any interleaving: the sessions inside a pass never outnumber the slots in use, and each has a guard of its own |
| `SessionModels.NoEngineLosesItsModel` | src/server/StreamingSession.h:163-171 | any number of sessions, timers and other users on one model, with no forced unload, in any interleaving: while a session has its engine the model stays loaded, and is the same one |
| `SessionModels.ReferencesReturnExactlyIfConfiguredOnce` | src/server/StreamingSession.h:368-372 | a session that is over has given every reference back if and only if it took at most one; each further one is kept for good |
| `SessionModels.SecondConfigurationKeepsAReference` | src/server/StreamingSession.h:163-171 | a run from the start that takes two references and, with the session over, has given one back |
| `ByteRate.IntakeIsWithin` | src/server/StreamingSession.h:299-318 | after any frames on a monotone clock, what was passed on before the current window fits the rate |
| `ByteRate.ByteRateBound` | src/server/StreamingSession.h:305-318 | whenever a frame resets the window, every byte so far has been passed on, and they are at most 204800 per elapsed second |
| `ByteRate.ExcessIsForever` | src/server/StreamingSession.h:305-318 | once a frame exceeds its window every later one does too, with the window and what was passed on unchanged, whether or not the close works |
| `ByteRate.PassedExactlyBeforeAnyExcess` | src/server/StreamingSession.h:305-318 | a frame is passed on if and only if neither it nor any frame before it exceeds its window |
| `ByteRate.ExceedsExactlyIf` | src/server/StreamingSession.h:299-318 | while nothing has been refused, a frame is refused if and only if it is the first one three seconds into its window and the bytes of that window and its own exceed 614400 |
| `ByteRate.LightLoadIsNeverRefused` | src/server/StreamingSession.h:299-318 | a client whose frames within any three seconds, and the one after, never exceed 614400 bytes is never refused |
| `StreamingSession.Session.ProcessAudioChunk` | src/server/StreamingSession.h:208-235 | the handler's new state, refusal bookkeeping and messages |
| `StreamingSession.Session.HandleBinaryMessage` | src/server/StreamingSession.h:271-330 | each guard's verdict in order, the rate window and the intake advance by exactly one frame, and that only a passed frame reaches the engine |
| `StreamingSession.TakenExactlyIf` | src/server/StreamingSession.h:271-318 | a frame is taken if and only if it has 4 to 1048576 bytes, whole samples, a configured session and no exceeded window; of several faults the first decides |
| `StreamingSession.Session.HandleConfig` | src/server/StreamingSession.h:332-414 | token and load failures are reported and change nothing else; success starts over with a new engine |
| `StreamingSession.Session.FlushCycle` | src/server/StreamingSession.h:570-710 | one turn of the loop is one cycle of the flush thread's steps, ending at rest or in termination |
| `StreamingSession.Session.RunPass` | src/server/StreamingSession.h:642-709 | decoding, episode end and texts follow the steps from the inference on |
| `StreamingSession.Session.AccountFor` | src/server/StreamingSession.h:673-709 | adds the commit to the raw text, to the filtered one unless repetitive, and sends one transcription exactly if the commit or the partial text is worth telling: the filtered text and then the partial one unless repetitive |
| `StreamingSession.Session.HandleEnd` | src/server/StreamingSession.h:416-482 | stops the loop, decodes, falls back to raw text, sends one final message marked complete or not, closes |
| `StreamingSession.FlushCycleIsARun` | src/server/StreamingSession.h:570-710 | a flush cycle is a trigger followed by steps of the flush thread alone |
| `StreamingSession.ChunkHandlerIsARun` | src/server/StreamingSession.h:208-235 | a chunk handler is one critical section followed by its sends |
| `StreamingSession.ConfigHandlerIsARun` | src/server/StreamingSession.h:364-409 | a configuration is one critical section followed by its answer |
| `StreamingSession.Session.EndEpisode` | src/server/StreamingSession.h:649-671 | reports what is owed, resumes, and only then clears the episode |
| `StreamingSession.EndHandlerIsARun` | src/server/StreamingSession.h:416-482 | wherever the end handler finds the flush thread, that thread runs to its end and what it leaves is decoded, told and closed; or a decoder exception ends the process or the session |

## Left out

- Whisper, Silero, FFmpeg, Boost, TLS, sockets and JSON text: foreign or I/O. Decoder and detector outcomes, slots, the clock and closes are arguments; messages are a log. A write to the peer returns; one that blocks for ever is not modelled.
- IEEE floating point: samples, filter state and voice boundaries are `real`; rounding to samples is rounding of reals.
- C++ integer width: the padding product `speech_pad_ms * 16000`, the product of a time and 160, and counters are unbounded; only the session's `size_t` subtraction wraps.
- StreamingSession.Session.FlushCycle: each handler of the object runs without interruption; interleavings are in `SessionThreads`, and `FlushCycleIsARun`, `ChunkHandlerIsARun` and `EndHandlerIsARun` tie the two. The destructor is in `SessionThreads` only.
- SessionText.CommittedTextIsNeverRetracted: for sessions configured once; a second configuration clears the texts by design. The same holds for `PassIsTold`, `FlowControl`, `ExactExactlyIfAllPay`, `NothingShortIsDecoded` and `StatusesAlternate`.
- StreamingEngine.ForcedPassClears: an all-silence buffer is never drained by the code, so eventual draining is not claimed.
- ModelCache.LifetimeSafety: the destructor's final free and the wait on a replaced timer outside the lock are not modelled.
- ModelCache.ModelCache.Release: the source cannot tell who releases; a release is attributed to one of the holders.
- SessionSlots.SessionsShareTheSlots: the final decode's timed wait for a slot and its release fall inside one step of the machine, so that slot is not among the counted ones.
- SessionModels.NoEngineLosesItsModel: a configuration's acquire and its reading are one step; a configuration whose load fails is a step of another user of the cache.
- InferenceLimiter.InferenceLimiter.AcquireOrSleep: a blocking acquire is split at its wait into two methods; fairness and termination of waiting are not claimed. `resetForTesting` is left out.
- InferenceLimiter.InferenceLimiter.ReleaseSlot: a release is attributed to one of the guards; with no slot taken it is ignored.
- MultipartParser.RoundTrip: text is a sequence of bytes written as characters; lower-casing is ASCII.
- SessionThreads.RunKeepsInv: the idle watchdog, wall-clock time and the asynchronous shutdown appear as a read that throws; an exception out of the decoder in the flush thread ends the process. The mutexes of the socket and of the condition variable are not modelled: neither is held while another lock is taken.
- `ConnectionLimiter`, `TrustedProxyResolver`, `AuthManager`, `HandshakeWatchdog`, `SessionTracker`, `HttpRouter`, the HTTP handlers and `server.cpp`: admission, authentication, routing and start-up are outside this model.
- Logging, session ids, metrics, language detection and decoder parameters.
