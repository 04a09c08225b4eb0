# Read-aloud and prompt core of Chatter, in Dafny

Chatter is a voice chat front end: the user dictates or types a prompt, the model's
answer streams in as a growing text, and the answer is read aloud sentence by sentence
while it is still arriving. This project models the three parts of that front end that
hold its logic:

- **The streaming read-aloud engine** (`src/preact/voiceread.ts`).
  - `segmenter.dfy` models the two segmenters. `FindEndOfLastSentence` keeps the same
    `lastMatch` loop over repeated `exec` calls of `/[.!?]+(?=\s|$)/g` as the code.
    `NextMatch` is one `exec`, with ECMAScript's `\s` set written out. The loop is
    proved equal to `EndOfLastSentence`, an independent right-to-left definition of the
    cut, and `EndOfLastSentenceSpec` states what that cut is.
  - `voice_reader.dfy` models `useVoiceReader` as the class `VoiceReader`, with the
    hook's four refs as fields.
    - `speak`, `stop` and `onComplete` are recorded in fields: `spoken`, `pending`,
      `stops` and `completions`.
    - The async `readLoop` is split at its one `await speak(...)`. `ReadLoop` runs a
      call up to the await. `SpeakResolved(k)` runs the rest once the environment
      resolves the `k`-th pending promise.
    - `Plan` is the decision an iteration takes from its snapshot.
    - `Covered` is the coverage law: the texts handed to `speak` this turn, joined,
      are exactly the answer up to the cursor, or up to the end of the slice being said.
  - `voice_scenarios.dfy` replays concrete runs against the method contracts.
- **The older sentence-queue reader** (`src/preact/reader.tsx`).
  - `sentences.dfy` models `splitIntoSentences`. `Split` is JavaScript's `split` at a
    set of separator characters: the class `/[.!?]/` of reader.tsx:4, or the single
    `","` of reader.tsx:5. `Join` and `NonEmpty` are `join` and `filter(Boolean)`.
    `PublishedGrows` proves that, as the answer grows, what `readStream` publishes only
    grows at its end.
  - `sentence_reader.dfy` models `useReader` as the class `SentenceReader`.
    - `sentences[i]` past the end of the list reads as `undefined` in the code; here it
      is `None`.
    - `Ordered` is the invariant that every sentence said is said at its own position.
  - `reader_scenarios.dfy` replays runs of the reader.
- **The prompt box** (`src/preact/Prompter.tsx`), in `prompter.dfy`. It has two state
  cells, `prompt` and `transcript`. The textarea shows `Display` of the two cells. The
  class `Prompter` has the event handlers.

`wrappers.dfy` holds `Option`.

## Behaviour of the code worth knowing

The model follows the code in each of these cases:

- **No turn-generation token.**
  - A `speak` that is still pending when `restart` runs resolves later. It then writes
    the old turn's offset into the new turn's cursor (voiceread.ts:75). If the new
    turn's loop is marked as running, it also runs another iteration
    (voiceread.ts:78-79).
  - `VoiceScenarios.RestartWhileSpeaking` shows this. The old turn's resolution moves
    the new cursor to 6, past the end of the new 5-character text, and leaves the new
    turn's loop stopped.
  - For this reason the coverage law is kept only while at most one continuation is
    pending.
- **`endOfStream` does not flush.** It only sets the flag (voiceread.ts:20-22). An
  answer with no sentence end, closed by `endOfStream`, is said only if another
  `readStream` call comes after it (`VoiceScenarios.UnpunctuatedAnswer`).
- **The failure paths are dead.**
  - The speech adapter's `speak` never rejects, so the `catch` at voiceread.ts:81-84
    never runs.
  - `findEndOfLastSentence` never returns -1, so the `-1` test at voiceread.ts:64 never
    holds. `EndOfLastSentence` is never below `startPos` while `startPos` is within the
    text.
- **An ellipsis is said one dot at a time.** The cut is one past the first character
  of the last sentence-ending run (voiceread.ts:122), not at the end of the run. Every
  dot left over still starts a run that ends the sentence, so "Wait... " is handed to
  `speak` as "Wait.", then ".", then "." (`VoiceScenarios.EllipsisSaidDotByDot`).
- **`onComplete` can be reported more than once.** Every `readLoop` call that finds the
  stream complete and nothing left reports it (voiceread.ts:43-47), so a `readStream`
  after the remainder was said reports it again
  (`VoiceScenarios.CompletionReportedAgain`). The `finally` block at voiceread.ts:54-57
  also reports it after a `stopReading` while the remainder is being said
  (`VoiceScenarios.StopDuringRemainder`).
- **The old reader runs past its list.**
  - Its loop stops only when `reading` is set, the stream is complete and the index
    has reached the end of the list (reader.tsx:65-71).
  - Until the stream is complete, it hands `undefined` to `speakText` for every
    position past the list. A sentence published later at such a position is never
    said (`SentenceReading.SaidSkipsOverrun`, `ReaderScenarios.OverrunSkipsSentence`).
  - `stopReading` cancels the current utterance, but the loop goes on
    (`ReaderScenarios.StopDoesNotStopLoop`).

## Model

| member | source | states |
|---|---|---|
| Segmenter.IsWhitespace | src/preact/voiceread.ts:114 | `\s` is ECMAScript's whitespace and line-terminator set. It matches space, tab and the line breaks, and never a terminator |
| Segmenter.EndsSentence | src/preact/voiceread.ts:114 | the expression matches at `i` when the greedy run of terminators from `i` is followed by `\s` or the end of the text |
| Segmenter.MatchIsGreedy | src/preact/voiceread.ts:114 | every match of the expression at `i` ends where the greedy run ends, so `EndsSentence` holds exactly where the expression matches |
| Segmenter.RunEnd | src/preact/voiceread.ts:114 | the greedy `[.!?]+` from `i` ends at the first character that is not a terminator, or at the end of the text |
| Segmenter.NextMatch | src/preact/voiceread.ts:114-121 | one `exec` from `lastIndex`: the result is a match at or after it, and there is no match before the result |
| Segmenter.MatchStartsRun | src/preact/voiceread.ts:121 | `exec` never reports a match inside a run of terminators that began before `lastIndex` |
| Segmenter.ExecReports | src/preact/voiceread.ts:116-122 | every match the loop sees starts at `startPos` or at the start of a run |
| Segmenter.LastMatchIsCut | src/preact/voiceread.ts:121-123 | a reportable match with no match after its run is the cut, one past its first character |
| Segmenter.EndOfLastSentence | src/preact/voiceread.ts:111-130 | the cut lies within the text. When `startPos` is within the text, the cut is not before it |
| Segmenter.FindEndOfLastSentence | src/preact/voiceread.ts:111-130 | the `lastMatch` loop over successive `exec` calls returns exactly the reference cut `EndOfLastSentence` |
| Segmenter.EndOfLastSentenceSpec | src/preact/voiceread.ts:111-130 | the cut is the length of the text when `startPos` is past its end. It is `startPos` exactly when nothing ends a sentence at or after it. Otherwise it is one past the first character of the last sentence-ending run, and nothing ends a sentence after that run |
| Segmenter.FindEndOfNextParagraph | src/preact/voiceread.ts:96-109 | the result is the end of the text when `startPos` is past it, and otherwise lies between `startPos` and the end. It is the first `\n` at or after `startPos`, or the end of the text when there is none |
| VoiceReading.Plan | src/preact/voiceread.ts:40-70 | an iteration reports completion exactly when the stream is complete and the cursor is at or past the end. It goes idle only before the end of the stream. A slice it says is the text from the cursor to a point strictly after it within the text. After the end of the stream that point is the end of the text, and the slice is said as the remainder |
| VoiceReading.VoiceReader.Covered | src/preact/voiceread.ts:29-80 | the coverage law: at most one loop is suspended, and the texts handed to `speak`, joined, are the answer up to the cursor, or up to the end of the slice being said. So what has been said is always a prefix of the answer |
| VoiceReading.PlanCovers | src/preact/voiceread.ts:40-70 | a slice an iteration says continues the text exactly at the cursor, and moves the cursor strictly forward within the text |
| VoiceReading.PlanBeforeEndOfStream | src/preact/voiceread.ts:61-70 | before the end of the stream, an iteration is idle exactly when no sentence ends at or after the cursor. Otherwise it says up to `EndOfLastSentence`, one past the first terminator of the last sentence-ending run, and nothing ends a sentence after that run |
| VoiceReading.VoiceReader.constructor | src/preact/voiceread.ts:5-8 | the refs start out as `false`, `0`, `false` and `""`, and the coverage law holds |
| VoiceReading.VoiceReader.Speak | src/preact/voiceread.ts:52 | `speak` records its text and suspends the caller, and changes nothing else |
| VoiceReading.VoiceReader.StopTTS | src/preact/voiceread.ts:17 | `stop` is counted, and changes nothing else |
| VoiceReading.VoiceReader.Restart | src/preact/voiceread.ts:12-18 | it resets the cursor, both flags and the text, and stops speech. A pending `speak` is not withdrawn. With none pending, the coverage law holds |
| VoiceReading.VoiceReader.EndOfStream | src/preact/voiceread.ts:20-22 | it sets only the flag and says nothing. The coverage law is kept |
| VoiceReading.VoiceReader.StopReading | src/preact/voiceread.ts:24-27 | it clears `reading` and stops speech, while the pending `speak` stays. The coverage law is kept |
| VoiceReading.VoiceReader.ReadStream | src/preact/voiceread.ts:29-35 | it always takes the new snapshot, and starts an iteration only when no loop is marked as running. The coverage law is kept under append-only snapshots |
| VoiceReading.VoiceReader.ReadLoop | src/preact/voiceread.ts:37-70 | it does what `Plan` decides from the snapshot: report completion, go idle, or say a slice and suspend. It establishes the coverage law |
| VoiceReading.VoiceReader.SpeakResolved | src/preact/voiceread.ts:50-84 | the cursor moves to the resolved slice's end. After the remainder, the loop stops and completion is reported once. After a sentence, it runs the next iteration only if still reading. The coverage law is kept |
| VoiceScenarios.StreamedCuts | src/preact/voiceread.ts:111-130 | for "Hello world." the cut is 12. For "Hello world. How are you?" from 12, the cut is 25 |
| VoiceScenarios.StreamedOpening | src/preact/voiceread.ts:29-35 | a second snapshot that arrives while the first sentence is being said is stored and not said |
| VoiceScenarios.RestartCuts | src/preact/voiceread.ts:61-70 | the cuts in the restart run, and that a cursor past the new text leaves the loop idle |
| Sentences.Split | src/preact/reader.tsx:4-5 | `split` returns at least one piece. `SplitRoundTrip` and `SplitAvoids` fix what the pieces hold |
| Sentences.SplitRoundTrip | src/preact/reader.tsx:4-5 | a split has one piece more than the text has separators, and putting the separators back between the pieces, in order, gives the text |
| Sentences.SplitAvoids | src/preact/reader.tsx:4 | no piece of a split holds a separator |
| Sentences.SplitSingle | src/preact/reader.tsx:4 | a split into a single piece returns the whole text |
| Sentences.SplitWithoutSeparator | src/preact/reader.tsx:4-5 | a text without separators splits into itself alone |
| Sentences.SplitKeepsAvoiding | src/preact/reader.tsx:5 | splitting keeps a character out of the pieces when the text lacks it |
| Sentences.JoinKeepsAvoiding | src/preact/reader.tsx:6 | joining pieces that lack a character, with a different separator, gives a text that lacks it |
| Sentences.Join | src/preact/reader.tsx:6 | a join of one or more pieces starts with the first piece |
| Sentences.JoinSplit | src/preact/reader.tsx:5-6 | joining the pieces of a split with the same separator gives the text back |
| Sentences.JoinFront | src/preact/reader.tsx:6 | a join is the first piece, the separator, then the join of the rest |
| Sentences.NonEmpty | src/preact/reader.tsx:6-8 | `filter(Boolean)` keeps only non-empty parts, each one from the input, and never lengthens the list |
| Sentences.NonEmptyAppend | src/preact/reader.tsx:6-8 | filtering distributes over concatenation |
| Sentences.NonEmptySingle | src/preact/reader.tsx:6-8 | a single part is kept exactly when it is not empty. With `NonEmptyAppend`, this fixes the filtered list: every non-empty part, in order |
| Sentences.SplitIntoSentences | src/preact/reader.tsx:3-9 | no sentence is empty, and none holds `.`, `!` or `?` |
| Sentences.FirstCommaSplit | src/preact/reader.tsx:5-6 | the first sentence is cut at its first comma. The leading piece holds no comma. Without a comma the rest is empty. With one, the leading piece, a comma and the rejoined rest make up the sentence |
| Sentences.SingleSentence | src/preact/reader.tsx:3-9 | a non-empty text with none of `.`, `!`, `?` or `,` is exactly one sentence |
| Sentences.PiecesRebuild | src/preact/reader.tsx:4-6 | the array before `filter` has one entry more than there are sentences. Its leading piece holds no comma. Without a comma in the first sentence, the leading piece is that sentence and the rest is empty. With one, the leading piece, a comma and the rest make up that sentence. The later entries are the later sentences |
| Sentences.GrowLast | src/preact/reader.tsx:6-8 | growing the last piece keeps every filtered piece but the last, and never shortens the filtered list |
| Sentences.AppendTerminator | src/preact/reader.tsx:4-8 | a terminator appended to the text keeps every sentence but the last |
| Sentences.AppendToLaterSentence | src/preact/reader.tsx:4-6 | past the first sentence, a character grows the last piece |
| Sentences.AppendBeforeComma | src/preact/reader.tsx:5-8 | before the first comma, a character keeps every sentence but the last |
| Sentences.AppendFirstComma | src/preact/reader.tsx:5-6 | the first comma of the first sentence leaves the pieces unchanged |
| Sentences.AppendAfterComma | src/preact/reader.tsx:5-6 | after the first comma, a character grows the rejoined rest |
| Sentences.RestGrows | src/preact/reader.tsx:5-6 | after the first comma, a character keeps the leading piece and grows the rejoined rest by that character |
| Sentences.AppendOne | src/preact/reader.tsx:3-9 | appending a character keeps every sentence but the last, in place, and never shortens the list |
| Sentences.AllButLast | src/preact/reader.tsx:48 | `slice(0, -1)`, which `Published` applies to the sentences: the list without its last element, as a prefix, and empty for an empty list |
| Sentences.PublishedGrows | src/preact/reader.tsx:46-50 | for a growing answer, the published list (every sentence but the last) of an earlier snapshot is a prefix of that of any later one |
| SentenceReading.At | src/preact/reader.tsx:61 | an array read gives the entry at an index within the list, and `undefined` past its end |
| SentenceReading.SaidIsPrefix | src/preact/reader.tsx:60-73 | with every utterance at its own position and none past the list, what was said is the list from its start, with no gap or repeat |
| SentenceReading.SaidSkipsOverrun | src/preact/reader.tsx:61-73 | an utterance past the end of the list leaves a gap: the sentence later published at that position is missing from what was said |
| SentenceReading.PublishedEmpty | src/preact/reader.tsx:3-9 | an empty answer publishes nothing |
| SentenceReading.SentenceReader.Ordered | src/preact/reader.tsx:45-73 | the ordering law: at most one loop is suspended, one utterance per position reached, the list is what the last snapshot published, and every sentence said was said at its own position. So with no utterance past the list, what was said is the list from its start |
| SentenceReading.SentenceReader.constructor | src/preact/reader.tsx:24-27 | the refs start out empty, `0`, `false` and `false`, and the ordering law holds |
| SentenceReading.SentenceReader.Restart | src/preact/reader.tsx:29-34 | it resets the list, the index and both flags, and cancels nothing. With no utterance pending, the ordering law holds |
| SentenceReading.SentenceReader.EndOfStream | src/preact/reader.tsx:36-38 | it sets only the flag. The ordering law is kept |
| SentenceReading.SentenceReader.StopReading | src/preact/reader.tsx:40-43 | it clears `reading` and cancels speech. The pending utterance stays. The ordering law is kept |
| SentenceReading.SentenceReader.ReadStream | src/preact/reader.tsx:45-58 | it replaces the list only with a strictly longer published list, and otherwise changes nothing. It starts the loop only when `reading` was false, after setting it. It records the snapshot, so the ordering law is kept from one snapshot to any extension of it (`ReaderScenarios.OrderedThroughRun`) |
| SentenceReading.SentenceReader.ReadingLoop | src/preact/reader.tsx:60-62 | it says the entry at the index, `undefined` past the end, and suspends |
| SentenceReading.SentenceReader.SpeechEnded | src/preact/reader.tsx:63-73 | the index moves on by exactly one. The loop stops exactly when `reading` is set, the stream is complete and the index has reached the end of the list. Otherwise it says the next entry. The ordering law is kept |
| Prompting.Display | src/preact/Prompter.tsx:11 | the display starts with the prompt. It is the prompt alone when there is no transcript, and otherwise the transcript on a new line after the prompt |
| Prompting.IsSubmitKey | src/preact/Prompter.tsx:34-35 | only Enter can submit. Enter with Ctrl or Meta held submits, and no key submits with neither held |
| Prompting.FinalKeepsDisplay | src/preact/Prompter.tsx:11-18 | finalising the words shown as the interim transcript leaves the display unchanged |
| Prompting.EditRepeatsTranscript | src/preact/Prompter.tsx:48-49 | storing the shown text as the prompt while a transcript is shown repeats the transcript in the display |
| Prompting.DisplayDeterminesState | src/preact/Prompter.tsx:11 | with a one-line transcript, the display determines both the prompt and the transcript |
| Prompting.Prompter.constructor | src/preact/Prompter.tsx:8-9 | both cells start empty |
| Prompting.Prompter.OnTranscript | src/preact/Prompter.tsx:13-19 | an interim transcript replaces the transcript and keeps the prompt. A final one appends a newline and the words to the prompt and empties the transcript, so the display does not change when the words were already shown |
| Prompting.Prompter.SubmitPrompt | src/preact/Prompter.tsx:21-26 | `onPrompt` gets the prompt from before the call. The prompt becomes empty and the transcript stays |
| Prompting.Prompter.OnSubmit | src/preact/Prompter.tsx:28-31 | the form's submit is prevented and submits the prompt |
| Prompting.Prompter.KeyEvent | src/preact/Prompter.tsx:33-39 | a key submits, and its default is prevented, exactly when it is Enter with Ctrl or Meta held. Any other key changes nothing |
| Prompting.Prompter.OnInput | src/preact/Prompter.tsx:49 | the prompt becomes the whole edited text and the transcript stays. An unchanged text with a transcript shown repeats that transcript |

## Left out

- `speak`, `stop` and `speakText` are abstract events; the speech adapter of
  `src/preact/tts.ts` is not part of this model.
  - Its `fetch`, audio element and abort controller are I/O.
  - The model keeps only the adapter's contract: `speak` resolves and never rejects,
    and `stop` has no effect on the model's state.
  - Which pending promise resolves next is left to the environment.
  - The adapter returns at once for whitespace-only text, and it cancels the previous
    playback before each `speak`. The model records every `speak` call the same way.
- The speech recognition wiring is not part of this model. This covers `SpeechTranscription`
  (Prompter.tsx:62-127) and `src/preact/voice.ts`. Its transcript events are parameters
  of `OnTranscript`.
- `src/preact/app.tsx` is not part of this model: view markup, turn bookkeeping and HTTP
  queries. Its inline copy of `Prompter` is the same logic as `Prompter.tsx`.
- The server routes, `localStorage` persistence in `lib.ts`, `model.ts` constants, the
  empty stubs of `read.ts` and the build configuration are not part of this model.
- `console.log` in the unreachable `catch` of voiceread.ts:81-84 is left out.
- Text offsets: JavaScript indexes strings by UTF-16 code unit, while the model indexes
  by character. The two differ for characters outside the Basic Multilingual Plane.
- The empty utterance that `new SpeechSynthesisUtterance(undefined)` makes is recorded
  as `None`. What the browser does with it is not modelled.
- Preact's batching of state updates and re-rendering is left out. Each handler's
  updates are applied in order, which gives the state after the batch.
- The awaiting outer `readLoop` call in voiceread.ts:79 is left out. Once the inner
  call has run, the outer call has nothing left to do.
- VoiceReading.VoiceReader.ReadStream: the coverage law is proved only for snapshots
  that extend the previous one, and only while no stopped loop's `speak` is pending.
  With no turn-generation token, a second loop can otherwise run beside the first.
- VoiceReading.VoiceReader.Restart: the coverage law is re-established only when no
  `speak` of the previous turn is pending, for the same reason.
- SentenceReading.SentenceReader.ReadStream: the ordering law is proved only for
  snapshots that extend the previous one, and only while no stopped loop is pending.
- SentenceReading.SentenceReader.Restart: the ordering law is re-established only when
  no utterance of the previous turn is pending.
