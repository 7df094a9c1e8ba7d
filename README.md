# AI learning app: views and request gateway, modelled in Dafny

This project models the behaviour of three learning tools of a single-page web app, and of the request gateway they share:

- **Language hub.** A tutor chat, a pronunciation helper and a four-option mini-quiz. All three award points, and points unlock badges.
- **Flashcard generator.** Builds a card set about a topic.
- **Math solver.** Returns a worked solution for a problem.

Each view is a `class`. Its fields are the view's state variables. Every handler the view runs is a method that states the new state.

The handlers are asynchronous. Each one is split at its single awaited call into two methods:

- a **start** method: everything that happens before the call. It returns the request, or nothing when the input is blank.
- a **complete** method: everything after the call. It receives the remote call's outcome, success or thrown error, as an `Outcome` value.

Steps are atomic and run one after another. The badge effect runs right after every points change.

The gateway is pure:

- It shapes the chat request. The result is proved to read back as the transcript plus the new message.
- It guards the replies: a quiz needs exactly four options, and an audio payload must be present and non-empty.
- It replaces every internal failure with the operation's fixed message.

The audio path is imperative, as in the source:

- a byte-filling loop;
- a 16-bit view of the bytes, proved to invert a little-endian encoder;
- a channel-filling loop that normalises by 32768.

Modules:

- `Outcomes`: `Option`, `Outcome`, and the unknown-error fallback.
- `Types`: the records in `types.ts`.
- `JsString`: ECMAScript `String.prototype.trim`.
- `Badges`: the badge catalogue and the badge effect.
- `GeminiService`: the request gateway.
- `Audio`: decoding and sample conversion.
- `LanguageHub`, `Flashcards`, `MathSolver`: the three views.

The hub's class invariant `Valid()` says:

- the earned badges are exactly the catalogue badges whose threshold the points reach (`Badges.Unlocked`);
- points stay a multiple of 5;
- a shown quiz has four options;
- a ghost counter of the current quiz's correct-answer awards stays at most 1. `AnswerQuestion` adds one per award and requires the options to be enabled (no answer selected yet), so a quiz pays its 25 points at most once.

Where the specification and the code differ, the code is followed:

- **Stale responses are not guarded.** A complete step applies whatever reply it is given, whenever it arrives. The hub's send step sends the transcript as it was before the new message.
- **The views' fallback `'An unknown error occurred.'` is modelled (`Outcomes.ErrorText`) but cannot be reached.** The gateway's messages are fixed and non-empty, so the fallback is never used. `GenerateComplete` and `SolveComplete` state that the error is the fixed message.
- **The greeting stays first.** The class invariant does not state this. It follows from the chat transcript only ever being appended to: `SendStart`, `PostUserMessage` and `SendComplete` state the new transcript as the old one plus the new entries.

## Model

| member | source | states |
|---|---|---|
| Outcomes.ErrorText | features/flashcards/FlashcardsView.tsx:28 | the error shown is never empty: a non-empty message is shown as is, and an empty one becomes "An unknown error occurred." |
| JsString.TrimStartFacts | features/language/LanguageHubView.tsx:49 | trimming the front drops only trimmable characters, stops at the first significant one, and leaves nothing exactly when the input is blank |
| JsString.TrimEndFacts | features/language/LanguageHubView.tsx:49 | trimming the back drops only trimmable characters, stops at the last significant one, and leaves nothing exactly when the input is blank |
| JsString.TrimRemovesBlankMargins | features/language/LanguageHubView.tsx:49 | trim returns a slice of its input whose cut-off prefix and suffix are both blank |
| JsString.Trim | features/language/LanguageHubView.tsx:49 | trim gives the empty string exactly when every character is ECMAScript whitespace or a line terminator; otherwise the result starts and ends with a significant character |
| Badges.HasName | features/language/LanguageHubView.tsx:41 | the name test holds exactly when some index of the list holds a badge with that name, as `some` scans |
| Badges.Unlocked | features/language/LanguageHubView.tsx:40-42 | reference definition: a badge is unlocked at some points exactly when it is in the catalogue and the points reach its threshold |
| Badges.NewlyEarned | features/language/LanguageHubView.tsx:40-42 | a badge is newly earned exactly when it is in the catalogue, the points reach its threshold, and no earned badge has its name |
| Badges.InsertByThreshold | features/language/LanguageHubView.tsx:44 | insertion adds exactly that badge: the result is the list plus the badge as a multiset |
| Badges.InsertKeepsSorted | features/language/LanguageHubView.tsx:44 | inserting into a list sorted by threshold keeps it sorted |
| Badges.SortByThreshold | features/language/LanguageHubView.tsx:44 | the sort by ascending threshold gives a sorted permutation of its input |
| Badges.SortSortedIsIdentity | features/language/LanguageHubView.tsx:44 | sorting a list that is already sorted by threshold leaves it unchanged |
| Badges.BadgeEffect | features/language/LanguageHubView.tsx:40-45 | the effect's result is a permutation of the old list plus the newly earned badges; it is sorted by threshold when something was added, and is the old list when nothing was |
| Badges.EffectIsComplete | features/language/LanguageHubView.tsx:39-46 | after the effect, every catalogue badge the points reach is earned by name, and no earned badge has been dropped |
| Badges.EffectIsSound | features/language/LanguageHubView.tsx:39-46 | after the effect, every badge was either already earned or is a catalogue badge the points reach |
| Badges.EffectKeepsOrderAndNames | features/language/LanguageHubView.tsx:39-46 | the effect keeps the earned list sorted by threshold, and keeps names unique when the catalogue's names are unique |
| Badges.EffectIsIdempotent | features/language/LanguageHubView.tsx:39-46 | the effect re-runs because its own result is one of its dependencies; that second run changes nothing |
| Badges.UnlockedIsOrdered | features/language/LanguageHubView.tsx:9-13 | over a catalogue with strictly increasing thresholds and distinct names, the unlocked badges keep both properties |
| Badges.UnlockedSplits | features/language/LanguageHubView.tsx:40-44 | when the earned list is exactly what the old points reached, it is followed by the newly earned badges, and together they are what the new points reach |
| Badges.EffectCatchesUp | features/language/LanguageHubView.tsx:39-46 | from the badges unlocked at q, one run of the effect at p >= q gives exactly the badges unlocked at p, and the old list is a prefix of the new one |
| Badges.AllBadgesWellFormed | features/language/LanguageHubView.tsx:9-13 | the catalogue's thresholds 5, 50 and 100 strictly increase, and its names are distinct |
| Badges.AllBadgesUnlocked | features/language/LanguageHubView.tsx:9-13 | which badges a points total unlocks: none below 5, "First Steps" below 50, two badges below 100, all three from 100 up |
| GeminiService.Rethrow | services/geminiService.ts:32-34 | a try block whose catch rethrows: success passes through unchanged, and any failure becomes the given message |
| GeminiService.ContentOf | services/geminiService.ts:40-43 | each history entry maps to a request entry that reads back as that same message |
| GeminiService.MessageOf | services/geminiService.ts:40-43 | a request entry reads back as a message exactly when it has a single part |
| GeminiService.MessageOfInvertsContentOf | services/geminiService.ts:40-43 | reading back inverts the history mapping: an entry gives message m exactly when it is m's entry |
| GeminiService.TranscriptOfContents | services/geminiService.ts:40-43 | contents built entry by entry from messages read back as exactly those messages |
| GeminiService.BuildChatContents | services/geminiService.ts:40-44 | the chat request holds each history entry mapped in order, then a user entry with the new message; read back, it is the history plus that message |
| GeminiService.GetTutorResponse | services/geminiService.ts:56-58 | the reply text passes through on success; every failure becomes the tutor's fixed apology |
| GeminiService.GenerateFlashcards | services/geminiService.ts:32-34 | the card list passes through on success; every failure becomes the flashcards' fixed message |
| GeminiService.CheckOptionCount | services/geminiService.ts:85-88 | a parsed quiz passes the check exactly when it has four options |
| GeminiService.GenerateQuiz | services/geminiService.ts:84-92 | a quiz is returned exactly when the call succeeded and the quiz has four options; every other case gives the quiz's fixed message |
| GeminiService.CheckPayload | services/geminiService.ts:109-113 | the audio payload passes exactly when it is present and non-empty |
| GeminiService.GetPronunciation | services/geminiService.ts:109-116 | the payload is returned exactly when the call succeeded with a non-empty payload; otherwise the result is the pronunciation's fixed message |
| GeminiService.SolveMathProblem | services/geminiService.ts:131-133 | the solution text passes through on success; every failure becomes the math solver's fixed message |
| GeminiService.InternalMessagesNeverEscape | services/geminiService.ts:89-92 | the option-count and missing-audio messages never reach a caller, and every operation's failure message is its fixed, non-empty one |
| Audio.ByteOf | services/geminiService.ts:144 | storing a character code in a byte keeps it unchanged below 256 and is congruent to it modulo 256 in general |
| Audio.BytesOf | services/geminiService.ts:143-145 | one byte per character, and for a binary string the bytes convert back to the same string |
| Audio.BytesOfBinaryString | services/geminiService.ts:143-145 | for a binary string, byte i is character code i, and the bytes convert back to the same string |
| Audio.BinaryStringOfBytes | services/geminiService.ts:143-145 | any byte sequence, written as a binary string and read back, gives the same bytes |
| Audio.Decode | services/geminiService.ts:139-147 | the loop fills a fresh array of the string's length in which entry i is the low eight bits of character code i |
| Audio.Int16At | services/geminiService.ts:153 | sample i is a 16-bit value whose two's-complement encoding is byte 2i plus 256 times byte 2i+1 |
| Audio.Int16View | services/geminiService.ts:153-154 | the 16-bit view exists exactly when the byte count is even (otherwise the typed-array error); it has half as many 16-bit samples as bytes |
| Audio.Int16ViewOfLittleEndian | services/geminiService.ts:153 | viewing the little-endian encoding of any 16-bit samples gives those samples back |
| Audio.LittleEndianOfInt16View | services/geminiService.ts:153 | encoding the view of any even-length byte sequence gives those bytes back |
| Audio.Normalize | services/geminiService.ts:159 | a sample over 32768 lies in [-1, 1) and times 32768 is the sample again |
| Audio.FillChannel | services/geminiService.ts:158-160 | after the loop, frame i of the channel is sample i normalised |
| Audio.PlayAudio | services/geminiService.ts:149-160 | the buffer is produced exactly when the byte count is even and non-zero; an odd count gives the typed-array error and zero gives the empty-buffer error; frame i is the i-th sample over 32768, in [-1, 1) |
| LanguageHub.Texts | features/language/LanguageHubView.tsx:73 | the texts of the messages, in order, one per message |
| LanguageHub.Window | features/language/LanguageHubView.tsx:73 | slicing from -5 gives the last five entries, or all of them when there are fewer |
| LanguageHub.JoinWithSpace | features/language/LanguageHubView.tsx:73 | joining no parts gives the empty string, joining one part gives that part, and a longer join starts with its first part |
| LanguageHub.JoinEndsWithLast | features/language/LanguageHubView.tsx:73 | a non-empty join ends with its last part |
| LanguageHub.JoinWithSpaceAppend | features/language/LanguageHubView.tsx:73 | joining with one more part appends a single space and that part |
| LanguageHub.QuizContext | features/language/LanguageHubView.tsx:73 | the context of an empty transcript is empty, that of a one-entry transcript (the greeting alone, the starting state) is that entry's text, and otherwise it starts with the text of the oldest entry in the five-entry window |
| LanguageHub.QuizContextEndsWithLatest | features/language/LanguageHubView.tsx:73 | the context always ends with the text of the latest transcript entry |
| LanguageHub.QuizContextIgnoresOlder | features/language/LanguageHubView.tsx:73 | entries older than the latest five never reach the quiz context |
| LanguageHub.QuizContextGrows | features/language/LanguageHubView.tsx:73 | while the transcript is shorter than five entries, each new entry extends the context by a space and its text |
| LanguageHub.StyleOf | features/language/LanguageHubView.tsx:178-185 | each of the four option styles in iff form: the selected option is green when correct and red when wrong; an unselected correct option is dimmed green once an answer exists; otherwise neutral |
| LanguageHub.QuizStyles | features/language/LanguageHubView.tsx:177-185 | one style per option of the quiz, and option i is drawn as the highlight rule gives for option i, the correct answer and the selection |
| LanguageHub.AnsweredQuizHighlights | features/language/LanguageHubView.tsx:177-185 | for every quiz, once an answer is selected: exactly the options equal to it or to the correct answer stand out; each option equal to the correct answer is solid green if that answer was chosen and faded green otherwise; an option equal to a chosen wrong answer is red |
| LanguageHub.UnansweredQuizIsNeutral | features/language/LanguageHubView.tsx:180-185 | before an answer is selected, every option is neutral |
| LanguageHub.LanguageHubView.constructor | features/language/LanguageHubView.tsx:16-31 | the initial state: the greeting alone in the transcript, empty inputs, no quiz, no error, not loading, 0 points, no badges, and the invariant holds |
| LanguageHub.LanguageHubView.UnlockBadges | features/language/LanguageHubView.tsx:39-46 | the earned list becomes the badge effect applied to the old list at the current points |
| LanguageHub.LanguageHubView.Award | features/language/LanguageHubView.tsx:39-46 | points grow by the award, the effect runs, the badge invariant still holds, and the earned list only grows at its end |
| LanguageHub.LanguageHubView.EditUserInput | features/language/LanguageHubView.tsx:133 | the chat input becomes the typed value, and the class invariant is kept |
| LanguageHub.LanguageHubView.EditPronunciationText | features/language/LanguageHubView.tsx:155 | the pronunciation input becomes the typed value, and the class invariant is kept |
| LanguageHub.LanguageHubView.SendStart | features/language/LanguageHubView.tsx:48-56 | a request is made exactly when the input is not blank; blank input changes nothing; otherwise +5 points, badges caught up, the user message appended, the input and error cleared, replying set, and the request reads back as the new transcript |
| LanguageHub.LanguageHubView.PostUserMessage | features/language/LanguageHubView.tsx:51-59 | the non-blank part of sending: +5 points, the message appended, the input and error cleared, and the request built from the transcript as it was before plus the message |
| LanguageHub.LanguageHubView.SendComplete | features/language/LanguageHubView.tsx:58-65 | on success the tutor's reply is appended and nothing else changes; on failure the transcript stays and the error is the tutor's fixed message; replying ends either way |
| LanguageHub.LanguageHubView.QuizStart | features/language/LanguageHubView.tsx:68-73 | loading starts; the error, quiz and selected answer are cleared; the context is built from the latest five transcript texts |
| LanguageHub.LanguageHubView.QuizComplete | features/language/LanguageHubView.tsx:74-81 | the quiz is shown exactly when the call succeeded with four options; otherwise the error is the quiz's fixed message; loading ends |
| LanguageHub.LanguageHubView.PronounceStart | features/language/LanguageHubView.tsx:84-88 | a request is made exactly when the text is not blank; blank text changes nothing; otherwise +10 points (kept whatever follows), loading set, error cleared |
| LanguageHub.LanguageHubView.PronounceComplete | features/language/LanguageHubView.tsx:89-96 | the error per case: the fixed pronunciation message for a failed or empty reply, the decoder's message when decoding fails, the typed-array or empty-buffer error when playback fails, and unchanged when played; loading ends |
| LanguageHub.LanguageHubView.OptionsEnabled | features/language/LanguageHubView.tsx:188 | options can be clicked only while no answer is selected, and while they can be, every option of a shown quiz is drawn neutral |
| LanguageHub.LanguageHubView.AnswerQuestion | features/language/LanguageHubView.tsx:99-104 | the option becomes the selected answer; +25 points and one more counted award exactly when a quiz is shown and the option is its correct answer; options are disabled afterwards, so with the invariant a quiz pays at most once |
| Flashcards.FlashcardsView.constructor | features/flashcards/FlashcardsView.tsx:10-13 | empty topic, no cards, not loading, no error |
| Flashcards.FlashcardsView.EditTopic | features/flashcards/FlashcardsView.tsx:52 | the topic becomes the typed value |
| Flashcards.FlashcardsView.GenerateStart | features/flashcards/FlashcardsView.tsx:15-22 | a request is made exactly when the topic is not blank; a blank topic only sets "Please enter a topic."; otherwise loading is set, the error cleared and the old cards discarded |
| Flashcards.FlashcardsView.GenerateComplete | features/flashcards/FlashcardsView.tsx:24-31 | on success the cards replace the list; on failure the error is the flashcards' fixed message and the list stays; loading ends |
| Flashcards.FlashcardsView.HandleKeyDown | features/flashcards/FlashcardsView.tsx:35-39 | any key other than Enter changes nothing; Enter has the whole effect of starting a generation: a blank topic only sets "Please enter a topic.", otherwise loading is set, the error cleared, the cards emptied, and the topic requested |
| MathSolver.MathSolverView.constructor | features/math/MathSolverView.tsx:8-11 | empty problem, empty solution, not loading, no error |
| MathSolver.MathSolverView.EditProblem | features/math/MathSolverView.tsx:51 | the problem becomes the typed value |
| MathSolver.MathSolverView.SolveStart | features/math/MathSolverView.tsx:13-20 | a request is made exactly when the problem is not blank; a blank problem only sets "Please enter a math problem or concept."; otherwise loading is set and the error and old solution are cleared |
| MathSolver.MathSolverView.SolveComplete | features/math/MathSolverView.tsx:22-30 | on success the solution is the returned text; on failure the error is the math solver's fixed message and the solution stays; loading ends |
| MathSolver.MathSolverView.HandleKeyDown | features/math/MathSolverView.tsx:33-37 | anything but Enter with Ctrl or Meta held changes nothing; that combination has the whole effect of starting to solve: a blank problem only sets "Please enter a math problem or concept.", otherwise loading is set, the error and solution cleared, and the problem requested |

## Left out

- The remote generative calls are not modelled: the model names, prompts, response schemas, system instruction, voice settings and thinking budget. Their results arrive as `Outcome` values.
- `JSON.parse` and the shape of parsed JSON are not modelled. A parse error is one more `Failure`, and the gateway replaces it with the fixed message. Nothing checks that the parsed cards or the quiz match their schema, that `correctAnswer` is among the options, or that there are 5 to 10 cards; the source does not check these either.
- `atob` (base64 decoding, section 4 of RFC 4648) is a parameter of `PronounceComplete` that may fail. `Audio.PlayAudio` starts from the decoded binary string.
- Audio playback is not modelled: the AudioContext, the buffer source, connecting and starting. `Audio.PlayAudio` ends with the buffer's samples. `SampleRate` records the 24000 Hz rate.
- Audio.Normalize: computes in exact reals; the float32 rounding of the channel buffer is not modelled.
- Audio.Int16At: assumes little-endian byte order. The source's `Int16Array` uses the platform's byte order.
- Audio.PlayAudio: `OddLengthError` and `EmptyBufferError` approximate the platform's messages. Their wording is engine-specific.
- Concurrency is not modelled. Start and complete steps are atomic and run in sequence, and interleavings of overlapping requests are not explored. A late reply is applied as it comes, as in the code.
- Rendering is not modelled: JSX, spinners, alerts, scrolling the chat to the end, and the badge icons and descriptions. The disabled states of the send, pronounce and quiz buttons are not modelled either.
- LanguageHub.LanguageHubView.AnswerQuestion: requires `OptionsEnabled()`. The option buttons are disabled once an answer is selected (`LanguageHubView.tsx:188`), so a second click cannot happen.
- The hub's Enter key on the chat input (`LanguageHubView.tsx:134`) is not modelled separately. It only calls the send handler, which `SendStart` models.
- `console.error` logging in the gateway's catch blocks is not modelled.
- The other tabs of the app, the tab switcher and the flashcard flip component are not part of this model.
