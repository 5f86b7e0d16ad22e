# Clinical documentation pipeline — a verified model of its orchestration core

The system turns a recorded doctor–patient conversation into a SOAP note
(Subjective, Objective, Assessment, Plan). A speech model transcribes the audio. A
language model writes the note. An ontology standardizer extracts the clinical
entities. A rule-based supervisor decides whether the note is approved, sent back for
regeneration or flagged for human review. Every stage is recorded in an audit state
machine. Around this, the user interface has three pieces of audio buffering: a live
streaming session that cuts the microphone stream into chunks, a WAV splitter for
pseudo-streaming, and a recorder queue that is drained to a file.

This project models, in Dafny, the deterministic logic of those pieces:

- `state_machine.dfy`: the append-only audit log, with its chaining invariant.
- `pipeline.dfy`: one full run, `run_full`. It drives a state machine through the
  stages. It may rewrite the supervisor's verdict for a manual override, which
  mutates the same reasons dictionary the log already holds.
- `supervisor.dfy`: the supervisor's first-match rule chain.
- `standardizer.dfy`: the category matcher (imperative, with its nested loops) and the
  summary built from sorted distinct canonical terms.
- `asr.dfy`: the aggregation of the speech model's segments into a transcript.
- `groq_llm.dfy`: the language model's try order and its fallback loop.
- `streaming_asr.dfy`: the live session's block buffer, its chunk emission and the
  running-transcript rule.
- `pseudo_streaming.dfy`: the WAV chunk boundaries and the chunk loop.
- `live_recorder.dfy`: the recorder's FIFO queue and its drain.
- `text.dfy`, `values.dfy`, `basics.dfy`: the parts of Python's strings and dynamic
  values the core relies on, and the Option/Result datatypes.

Python objects updated in place are Dafny classes:

- the state machine;
- the supervisor's verdict and its reasons dictionary;
- the streaming session;
- the recorder queue.

Code that only computes a value is written as functions. Each loop of the source
(segment aggregation, category matching, model fallback, chunk splitting, queue
draining) is a method with a loop. Each such method is proved equal to a
specification function, and the source's promises are proved about that function as
lemmas.

The speech and language models, the clock and the file system are not modelled. Their
results are inputs:

- the segments and detected language;
- a function giving each model's outcome for a transcript;
- a clock reading per transition;
- chunk paths.

Written files are returned or recorded as values.

## Model

| member | source | states |
|---|---|---|
| Text.Strip | app/agents/asr_agent.py:41 | `str.strip()` returns a string with no white space (Python's `isspace` set) at either end, no longer than its input |
| Text.StripTrims | app/agents/asr_agent.py:41 | the stripped string is the input with only white space removed before and after it |
| Text.IsSpace | app/agents/asr_agent.py:41 | defines the characters `str.strip()` removes: the ASCII blanks, U+001C to U+001F, U+0085, U+00A0 and the Unicode space, line and paragraph separators |
| Text.StrippedIsFixed | app/agents/supervisor_agent.py:34 | stripping an already stripped string changes nothing |
| Text.StripSpaceBefore | app/ui/main.py:260 | stripping `" " + t` for a stripped `t` gives `t` (the first append to an empty transcript) |
| Text.StripSpaceAfter | app/ui/main.py:209 | stripping `t + " "` for a stripped `t` gives `t` (appending a blank chunk text) |
| Text.SpaceJoinStripped | app/ui/main.py:260 | two non-empty stripped strings joined by a space are already stripped |
| Text.Lower | app/agents/supervisor_agent.py:51 | the ASCII lower-casing keeps the length of the string |
| Text.LowerChar | app/agents/supervisor_agent.py:51 | defines `lower()` on one character: `A` to `Z` become `a` to `z`, every other character is kept |
| Text.Contains | app/agents/supervisor_agent.py:29 | defines the substring test `sub in s`: some index of `s` at which `sub` occurs (also supervisor_agent.py:51 and standardizer_agent.py:29) |
| Text.Join | app/agents/asr_agent.py:52 | defines `sep.join(parts)`: the parts in order with `sep` between consecutive ones (also standardizer_agent.py:51-53) |
| Text.JoinEmpty | app/agents/asr_agent.py:52 | joining non-empty parts gives the empty string exactly when there are no parts |
| Text.JoinNonEmpty | app/agents/standardizer_agent.py:51 | with a non-empty separator, a join with a non-empty part is non-empty |
| Text.LessTotal | app/agents/standardizer_agent.py:51 | Python's string `<` is total, asymmetric and irreflexive |
| Text.LessTransitive | app/agents/standardizer_agent.py:51 | Python's string `<` is transitive |
| Text.InsertSorted | app/agents/standardizer_agent.py:51 | inserting into a strictly sorted list keeps it strictly sorted and adds exactly the inserted element |
| Text.SortedDistinct | app/agents/standardizer_agent.py:51-53 | defines `sorted(set(xs))`, by insertion into a strictly ascending list |
| Text.SortedDistinctSpec | app/agents/standardizer_agent.py:51 | `sorted(set(xs))` is strictly increasing and holds exactly the elements of `xs` |
| Text.SortedUnique | app/agents/standardizer_agent.py:51 | two strictly sorted lists with the same elements are equal, so the result of `sorted(set(xs))` is determined |
| StateMachine.ChainedExtend | app/core/state_machine.py:23-34 | appending an event that leaves the current state keeps the log chained from `S0` to the event's target |
| StateMachine.StateMachine.constructor | app/core/state_machine.py:19-21 | a new machine is in `S0` with an empty log, and the chaining invariant holds |
| StateMachine.StateMachine.Transition | app/core/state_machine.py:23-34 | exactly one event from the old state to `to_state` is appended and earlier events are kept; absent details become an empty map; the state becomes `to_state`; any target is accepted and the log stays chained |
| Values.Dict.Put | app/core/pipeline.py:62-63 | a dictionary assignment changes that one key and keeps the others |
| Supervisor.NewSupervisorAgent | app/agents/supervisor_agent.py:19-25 | the agent keeps the minimum length, maximum length and section requirement it is given |
| Supervisor.DefaultThresholds | app/agents/supervisor_agent.py:19-22 | without arguments the agent accepts 200 to 4000 characters and requires sections |
| Supervisor.HasSections | app/agents/supervisor_agent.py:27-29 | a note has its sections exactly when each of `S:`, `O:`, `A:` and `P:` occurs in it, case-sensitively |
| Supervisor.ActionName | app/agents/supervisor_agent.py:7 | defines the action strings `APPROVE`, `REGENERATE` and `HUMAN_REVIEW` |
| Supervisor.UncertaintyHits | app/agents/supervisor_agent.py:50-51 | defines `hits`: how many markers, lower-cased, occur in the lower-cased note |
| Supervisor.PassesStructure | app/agents/supervisor_agent.py:34-47 | defines the structural checks a note passes before the uncertainty rule: stripped length within the bounds and, when required, all four sections |
| Supervisor.CountPresent | app/agents/supervisor_agent.py:50-52 | the marker count never exceeds the number of markers |
| Supervisor.CountPresentIsDistinctMarkers | app/agents/supervisor_agent.py:50-52 | the count is the number of distinct markers that occur at least once, not the number of occurrences |
| Supervisor.UncertaintyHitsBounded | app/agents/supervisor_agent.py:50-52 | the uncertainty count is at most 5 and counts the five markers that occur case-insensitively |
| Supervisor.Decide | app/agents/supervisor_agent.py:31-35 | the final note is the input note unchanged, and `reasons["length"]` is the stripped note's length whichever rule fires |
| Supervisor.DecideTooShort | app/agents/supervisor_agent.py:37-39 | "SOAP note too short" is reported exactly when the stripped length is below `min_length` (a length equal to it passes), and then the action is `REGENERATE` |
| Supervisor.DecideTooLong | app/agents/supervisor_agent.py:41-43 | "SOAP note too long" is reported exactly when the note is not too short and exceeds `max_length`, and then the action is `REGENERATE` |
| Supervisor.DecideMissingSections | app/agents/supervisor_agent.py:45-47 | the missing-sections problem is reported exactly when the length is in range, sections are required and one of `S:`, `O:`, `A:`, `P:` is not a case-sensitive substring of the unstripped note |
| Supervisor.DecideRegenerate | app/agents/supervisor_agent.py:37-47 | `REGENERATE` is returned exactly when one of the three structural rules fails |
| Supervisor.DecideUncertaintyRecorded | app/agents/supervisor_agent.py:50-52 | `uncertainty_markers` is recorded exactly when the structural rules pass, and it then holds the distinct-marker count, at most 5 |
| Supervisor.DecideHumanReview | app/agents/supervisor_agent.py:53-55 | `HUMAN_REVIEW` is returned exactly when the structure passes and three or more distinct markers occur |
| Supervisor.DecideApprove | app/agents/supervisor_agent.py:57-59 | `APPROVE` is returned exactly when no rule fires, with status "Passed basic checks" and no problem |
| Supervisor.DecideIgnoresTranscript | app/agents/supervisor_agent.py:31-59 | the verdict does not depend on the transcript argument |
| Supervisor.DecideShortNoteExample | app/agents/supervisor_agent.py:37-39 | the four-section note "S: cough … P: rest" under a minimum of 150 is sent back as too short with length 50 |
| Standardizer.FirstSynonymIsFirst | app/agents/standardizer_agent.py:28-35 | a synonym is found exactly when one is mentioned, and it is the first mentioned one in list order |
| Standardizer.Mentions | app/agents/standardizer_agent.py:29 | defines the test `s.lower() in text_l` |
| Standardizer.FirstSynonym | app/agents/standardizer_agent.py:28-35 | defines the inner loop: the first synonym, in list order, that the lower-cased text mentions, or none |
| Standardizer.EntryEntities | app/agents/standardizer_agent.py:30-35 | defines what one ontology entry appends: nothing, or one entity with its canonical key, the first mentioned synonym and the category |
| Standardizer.MatchEntries | app/agents/standardizer_agent.py:27-35 | defines the outer loop: each entry's contribution, in ontology order |
| Standardizer.FirstSynonymSkip | app/agents/standardizer_agent.py:28-35 | skipping synonyms that are not mentioned does not change the first match (the inner loop's invariant) |
| Standardizer.MatchCategory | app/agents/standardizer_agent.py:24-36 | the nested loop with its `break` returns exactly the entities of the category's specification |
| Standardizer.MatchEntriesMembers | app/agents/standardizer_agent.py:27-35 | an entity is produced exactly when one of its canonical term's synonyms, lower-cased, occurs in the lower-cased text; it carries the first such synonym and the queried category |
| Standardizer.MatchEntriesOrdered | app/agents/standardizer_agent.py:27-34 | there are at most as many entities as entries, and entities follow the ontology's order |
| Standardizer.AtMostOnePerCanonical | app/agents/standardizer_agent.py:27-35 | with distinct canonical keys, each canonical term yields at most one entity |
| Standardizer.CategoryEntities | app/agents/standardizer_agent.py:24-36 | defines the result of `_match_category`: the matches of the category's entries against the lower-cased text, none for a category the ontology lacks |
| Standardizer.Standardize | app/agents/standardizer_agent.py:44-57 | the entities map has exactly the keys `symptoms`, `medications` and `conditions`, and the normalized summary is the fixed template `Normalized entities → symptoms: …; medications: …; conditions: ….` filled with the summary field of each category's returned entities |
| Standardizer.StandardizeEntities | app/agents/standardizer_agent.py:38-48 | each category's entities are the matches of that category against `transcript + "\n\n" + soap_note`; a category absent from the ontology gives none |
| Standardizer.SummaryField | app/agents/standardizer_agent.py:51-53 | a summary field is never empty: "none" stands in for an empty join, and a category without entities gives "none" |
| Standardizer.SummaryFieldEmpty | app/agents/standardizer_agent.py:51-53 | a category without entities is summarised as "none" |
| Standardizer.SummaryFieldAllBlank | app/agents/standardizer_agent.py:51-53 | entities whose canonical terms are all empty are also summarised as "none" |
| Standardizer.SummaryFieldLists | app/agents/standardizer_agent.py:51-53 | when some canonical term is non-empty, the field joins with ", " a strictly sorted list holding each canonical term found exactly once (an empty term among others shows as an empty item) |
| Asr.Records | app/agents/asr_agent.py:37-42 | there is one segment record per model segment |
| Asr.Record | app/agents/asr_agent.py:38-42 | defines one segment record: its start, its end and its stripped text |
| Asr.Texts | app/agents/asr_agent.py:41-43 | defines the `texts` list: each segment's stripped text, in order |
| Asr.NonEmpty | app/agents/asr_agent.py:52 | defines the filter `[t for t in texts if t]`, order kept |
| Asr.LogProbs | app/agents/asr_agent.py:46-47 | defines `avg_logprob_vals`: the log-probabilities the segments report, in order, absent ones skipped |
| Asr.NoSpeechProbs | app/agents/asr_agent.py:48-49 | defines `no_speech_vals`: the no-speech probabilities the segments report, in order, absent ones skipped |
| Asr.Sum | app/agents/asr_agent.py:55-56 | defines `sum(vals)`, added left to right |
| Asr.Mean | app/agents/asr_agent.py:55-56 | the average is `None` exactly when no value was collected |
| Asr.TranscriptOf | app/agents/asr_agent.py:51-57 | the result carries the detected language and one segment record per model segment |
| Asr.Transcribe | app/agents/asr_agent.py:32-57 | the segment loop builds exactly the transcript result of its specification |
| Asr.RecordsPerSegment | app/agents/asr_agent.py:37-42 | there is one segment record per model segment, in order, with its times and stripped text |
| Asr.TextsPerSegment | app/agents/asr_agent.py:41-43 | the collected texts are the stripped segment texts, one per segment, in order |
| Asr.NonEmptyTexts | app/agents/asr_agent.py:52 | the kept texts are non-empty, and none is kept exactly when every stripped text is empty |
| Asr.LogProbsReported | app/agents/asr_agent.py:46-47 | the collected log-probabilities are exactly values some segment reported, and there are none exactly when no segment reported one |
| Asr.NoSpeechProbsReported | app/agents/asr_agent.py:48-49 | the same for the no-speech probabilities |
| Asr.SumBounds | app/agents/asr_agent.py:55 | values within [lo, hi] have a sum between count·lo and count·hi |
| Asr.MeanWithin | app/agents/asr_agent.py:55-56 | a mean of values within [lo, hi] lies within [lo, hi] |
| Asr.TranscriptTextEmpty | app/agents/asr_agent.py:52 | the transcript text is empty exactly when every stripped segment text is empty |
| Asr.TranscriptAverages | app/agents/asr_agent.py:55-56 | each average is `None` exactly when no segment reported that metric |
| Asr.TranscriptNoSpeechWithin | app/agents/asr_agent.py:56 | when every reported no-speech probability is in [0, 1], so is their average |
| Asr.TranscriptOfNothing | app/agents/asr_agent.py:51-56 | zero segments give empty text, no records and both averages `None` |
| GroqLlm.Without | app/agents/llm_agent_groq.py:53 | the filtered list holds exactly the elements different from the removed one |
| GroqLlm.ModelsToTry | app/agents/llm_agent_groq.py:53 | the try order is non-empty and starts with the configured model, which is not tried again; it holds exactly the configured model and the fallbacks |
| GroqLlm.ModelsToTryUnlisted | app/agents/llm_agent_groq.py:53 | an unlisted configured model is followed by both fallbacks in their listed order |
| GroqLlm.ModelsToTryFirstFallback | app/agents/llm_agent_groq.py:53 | configuring the first fallback gives exactly the fallback list |
| GroqLlm.ModelsToTrySecondFallback | app/agents/llm_agent_groq.py:53 | configuring the second fallback tries it before the first |
| GroqLlm.TryModels | app/agents/llm_agent_groq.py:55-64 | a success comes from a model in the list that returned a completion; a failure with no earlier error comes from a model in the list that raised |
| GroqLlm.GenerateSoap | app/agents/llm_agent_groq.py:53-64 | the fallback loop returns the result of the try-order specification and calls exactly the models it names |
| GroqLlm.FirstUnrejectedDecides | app/agents/llm_agent_groq.py:56-62 | the first model whose call is not a bad request decides the result: its content stripped, or its error; no later model is called |
| GroqLlm.AllRejectedRaisesLast | app/agents/llm_agent_groq.py:56-64 | when every call is a bad request, all models are called and the last error is raised |
| GroqLlm.GenerateFirstModelWins | app/agents/llm_agent_groq.py:56-59 | a completion from the configured model is returned stripped and no other model is called |
| GroqLlm.GenerateAllRejected | app/agents/llm_agent_groq.py:60-64 | when every model in the try order is rejected, the error of the last one is raised (`last_err` is always set) |
| GroqLlm.GenerateOtherErrorPropagates | app/agents/llm_agent_groq.py:60 | an error other than a bad request propagates at once |
| GroqLlm.TryModelsResultFromSomeModel | app/agents/llm_agent_groq.py:56-64 | any success is some tried model's content, stripped, and any failure is an error some tried model raised |
| StreamingAsr.TotalSamples | app/ui/streaming_asr.py:62 | defines the buffered sample count, `sum(x.shape[0] for x in buffer_pcm)` |
| StreamingAsr.Concat | app/ui/streaming_asr.py:73 | defines `np.concatenate(blocks, axis=0)`: the blocks' samples in arrival order (also live_recorder.py:37) |
| StreamingAsr.EmittedSamples | app/ui/streaming_asr.py:73-78 | defines the samples of the written chunk files laid end to end, in the order they were written |
| StreamingAsr.Duration | app/ui/streaming_asr.py:59-63 | the buffered duration is non-negative and is zero exactly when no samples are buffered |
| StreamingAsr.DurationIsRate | app/ui/streaming_asr.py:59-63 | the duration is the total sample count over the sample rate, for an empty buffer too |
| StreamingAsr.ConcatLength | app/ui/streaming_asr.py:62-73 | the concatenated blocks hold exactly the counted samples |
| StreamingAsr.ConcatAppend | app/ui/streaming_asr.py:57 | appending one block appends its samples and adds its length to the count |
| StreamingAsr.EmittedAppend | app/ui/streaming_asr.py:73-78 | emitting a chunk appends its samples to everything written so far |
| StreamingAsr.EmptyBlockKeepsDuration | app/ui/streaming_asr.py:57-63 | a zero-sample block changes neither the sample count nor the duration |
| StreamingAsr.ReadyIffSamples | app/ui/streaming_asr.py:70 | the buffer is ready exactly when it holds at least `chunk_seconds × sample_rate` samples |
| StreamingAsr.ThreeBlocksFillDefaultChunk | app/ui/streaming_asr.py:70-74 | at 48 kHz, two 40000-sample blocks are below the default 2.5 s and three reach it |
| StreamingAsr.AppendTranscript | app/ui/main.py:258-260 | the running transcript either stays as it was or becomes stripped |
| StreamingAsr.AppendTranscriptExtends | app/ui/main.py:258-260 | on a stripped transcript, an empty chunk text changes nothing; otherwise the stripped text is appended after one space (or becomes the transcript if it was empty) |
| StreamingAsr.StreamingAsrSession.constructor | app/ui/streaming_asr.py:47-53 | a new session (48000 Hz and 2.5 s by default) has an empty buffer, empty texts and no chunk |
| StreamingAsr.StreamingAsrSession.PushFrame | app/ui/streaming_asr.py:55-57 | exactly one block is appended at the end of the buffer; nothing else changes |
| StreamingAsr.StreamingAsrSession.SetChunkSeconds | app/ui/main.py:160-161 | the slider's value replaces `chunk_seconds`, whatever it is; nothing else changes |
| StreamingAsr.StreamingAsrSession.PopChunkIfReady | app/ui/streaming_asr.py:59-81 | below `chunk_seconds` it returns no chunk and changes nothing; at or above, a non-empty buffer is written as the concatenation of all its blocks into one chunk, the buffer is cleared and the chunk path becomes the last chunk, so no sample is lost or duplicated; an empty buffer reaches this only when `chunk_seconds <= 0`, and then `np.concatenate` raises `ValueError` before anything changes |
| StreamingAsr.StreamingAsrSession.AcceptTranscript | app/ui/main.py:258-260 | the partial text is the stripped chunk text, and the running transcript grows by the append rule and stays stripped |
| PseudoStreaming.FramesPerChunk | app/ui/pseudo_streaming.py:19 | `int(framerate * chunk_seconds)` truncates toward zero |
| PseudoStreaming.ChunkCount | app/ui/pseudo_streaming.py:20 | the chunk count is the ceiling of `nframes / frames_per_chunk` |
| PseudoStreaming.ChunkCountBounds | app/ui/pseudo_streaming.py:20-22 | with a positive chunk size, the chunks are just enough for the frames, and there are none exactly for an empty file |
| PseudoStreaming.ChunkStartsInside | app/ui/pseudo_streaming.py:22-24 | every chunk's `setpos` position lies inside the file |
| PseudoStreaming.ChunkFrames | app/ui/pseudo_streaming.py:23-24 | defines `setpos(i * frames_per_chunk)` then `readframes(frames_per_chunk)`: up to that many frames from that position, fewer at the end of the file |
| PseudoStreaming.ChunkFile | app/ui/pseudo_streaming.py:34-38 | defines the chunk file written: the source's channel count, sample width and frame rate with the chunk's frames |
| PseudoStreaming.JoinedFrames | app/ui/pseudo_streaming.py:22-24 | defines the frames of the first `j` chunks laid end to end |
| PseudoStreaming.NegativeFramesPerChunk | app/ui/pseudo_streaming.py:19-22 | a negative chunk size gives no chunks |
| PseudoStreaming.SplitWavToChunks | app/ui/pseudo_streaming.py:7-42 | there are `max(0, ceil(nframes / fpc))` chunks; chunk `i` holds frames `[i*fpc, min((i+1)*fpc, nframes))` with the source's channel count, sample width and frame rate; paths are returned in chunk order |
| PseudoStreaming.ChunkSizes | app/ui/pseudo_streaming.py:22-24 | every chunk but the last has exactly `fpc` frames; the last has between 1 and `fpc` |
| PseudoStreaming.JoinedFramesPrefix | app/ui/pseudo_streaming.py:22-24 | the first `j` chunks together are the frames before the `j`-th chunk boundary |
| PseudoStreaming.ChunksCoverFrames | app/ui/pseudo_streaming.py:22-24 | the chunks concatenated in order are exactly the file's frames |
| PseudoStreaming.AppendChunkText | app/ui/main.py:209 | a non-empty chunk text leaves a stripped transcript; an empty one leaves it unchanged |
| PseudoStreaming.AppendRulesAgree | app/ui/main.py:209 | on a stripped transcript, the pseudo-streaming rule (which tests the raw text) and the live rule (which tests the stripped text) give the same result |
| LiveRecorder.AudioQueue.constructor | app/ui/live_recorder.py:5 | the queue starts empty |
| LiveRecorder.AudioQueue.Put | app/ui/live_recorder.py:17 | one block is enqueued at the tail |
| LiveRecorder.AudioQueue.GetNowait | app/ui/live_recorder.py:28-32 | the head block is dequeued, or nothing when the queue is empty |
| LiveRecorder.PushAudioFrame | app/ui/live_recorder.py:7-17 | exactly one block is enqueued at the tail |
| LiveRecorder.DrainAudioToWav | app/ui/live_recorder.py:19-39 | the queue ends empty; the result is the sum of the drained blocks' sample counts; an empty queue returns 0 and writes nothing; otherwise the file holds the drained blocks concatenated in FIFO order |
| LiveRecorder.ConcatOfAppended | app/ui/live_recorder.py:29-37 | concatenation and sample counting distribute over consecutive runs of blocks |
| Pipeline.NewPipeline | app/core/pipeline.py:38 | the pipeline's supervisor has minimum length 150, maximum 4000 and requires sections |
| Pipeline.EntityCounts | app/core/pipeline.py:53 | the logged entity counts have the categories' keys and each category's entity count |
| Pipeline.OverrideReasons | app/core/pipeline.py:62-63 | the override sets `manual_override = True` and the fixed `override_reason` and keeps every other reason |
| Pipeline.RunLog | app/core/pipeline.py:41-68 | defines the state log of a successful run: the transcription, generation and standardization events, then the review events |
| Pipeline.GenerationEvents | app/core/pipeline.py:44-49 | defines the first two log events: `u_asr` into `S_ASR` with the segment count, then `u_llm` into `S_LLM` with the configured model |
| Pipeline.OverrideEvents | app/core/pipeline.py:59-64 | defines the override event, logged only when the override is forced: `u_override` re-entering `S_SUP` with `HUMAN_REVIEW` and the reasons |
| Pipeline.ReviewEvents | app/core/pipeline.py:55-68 | defines the log from the review on: `u_sup` with the supervisor's decision and reasons, the optional override event, then `u_finalize` with the final action |
| Pipeline.ApplyOverride | app/core/pipeline.py:60-64 | the verdict becomes `HUMAN_REVIEW`; the reasons object gains the override entries in place; one `S_SUP → S_SUP` `u_override` event is logged |
| Pipeline.Review | app/core/pipeline.py:56-68 | the review stage logs the verdict, applies the override when asked for and finalizes, ending in `S_final` |
| Pipeline.Decision.constructor | app/core/pipeline.py:56-63 | the mutable verdict record holds the given action, reasons object and final note |
| Pipeline.Document | app/core/pipeline.py:52-78 | after generation: the standardizer and supervisor get the generated note; the output holds their results, the verdict (overridden when forced) and metadata whose state log is the run's log |
| Pipeline.RunFull | app/core/pipeline.py:40-78 | a generator error ends the run; otherwise the result holds the transcript, the generated note (which is what the standardizer and supervisor receive), their results, the verdict (overridden when forced) and metadata whose final decision is the returned action and whose state log is the run's log |
| Pipeline.RunLogShape | app/core/pipeline.py:45-68 | the log has 5 events entering `S_ASR, S_LLM, S_STD, S_SUP, S_final` with actions `u_asr … u_finalize`; with the override, 6 events, with `S_SUP`/`u_override` between review and finalization |
| Pipeline.RunLogChained | app/core/pipeline.py:41-68 | the run's log is chained from `S0` and ends in `S_final` |
| Pipeline.RunLogDecisions | app/core/pipeline.py:57-68 | the final event records the returned action (`HUMAN_REVIEW` under override); the review event keeps the supervisor's own verdict, and the review and override events hold the same reasons object |
| Pipeline.RunLogDetails | app/core/pipeline.py:45-53 | the first events record the segment count, the language model's name and each category's entity count |

## Left out

- The speech model (`WhisperModel.transcribe`), the Groq client call and the prompt text are not modelled. Their results are inputs: segments with the detected language, and a function from model name and transcript to a completion or an error.
- The requested transcription language (`"en"`) only reaches the speech model, so it does not appear.
- Floating-point behaviour is not modelled: the ASR averages and the chunk-length arithmetic are exact reals, so rounding is not captured. The `float()` conversions of segment times and metrics are likewise not modelled.
- Audio sample conversion is not modelled: the channel averaging, clipping and `* 32767` scaling of `_frame_to_pcm16_mono`, and the float32 cast and transpose in `push_audio_frame`. Blocks are given as sample sequences.
- WAV and sound-file writes, temporary paths and `time.time()` chunk names are not modelled. Written chunks are values: returned, or kept in the session's emitted list. Paths are parameters.
- The `datetime.now()` timestamp of each log event is a clock parameter.
- The streaming session's `last_chunk_time` field is never read by the core, so it is omitted.
- `queue.Queue` thread safety and the capture callback thread are concurrency, which is not modelled. The queue is used sequentially.
- Ontology JSON loading is not modelled: the ontology is a parameter. `AtMostOnePerCanonical` assumes distinct canonical keys, which a JSON object guarantees.
- Text.Lower: only ASCII letters are lower-cased. Python's Unicode case mapping, which can also change a string's length (`'İ'.lower()` has two characters), is not modelled.
- Only the append rule of the Streamlit UI is modelled; the layout, polling and transcript reset are not.
- Graphviz diagrams, settings loading and process launch are outside the model. The diagram's regenerate-and-retry edge has no counterpart in `run_full`.
- The pipeline's speech-recognition stage cannot fail in the model: errors raised by the speech model are not modelled.
- A completion whose content is `None` (it would fail in `.strip()`) is not modelled: content is always a string.
- StreamingAsr.Duration: requires a positive sample rate. With a rate of 0, the source raises `ZeroDivisionError` for a non-empty buffer, and this error is not modelled.
- StreamingAsr.StreamingAsrSession.constructor: requires a positive sample rate, for the same reason.
- PseudoStreaming.SplitWavToChunks: requires a non-zero frame count per chunk. The source divides by it and raises `ZeroDivisionError` when `framerate * chunk_seconds < 1`, which is not modelled.
- GroqLlm.GenerateSoap: the list of models it called is ghost. The source does not return it; it is there to state that no model after the deciding one is called.
