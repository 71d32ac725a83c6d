# Mundo Colorido: the two client-side state machines, in Dafny

Mundo Colorido is a browser application for children with two activities:

- a **pictogram communicator**, where the child drags picture tiles onto a board to build a sentence, has it read aloud with the current word highlighted, asks an AI "robot friend" for a reply, and creates new tiles from a typed word;
- an **emotion game**, a quiz that shows either a face or a short story and asks which emotion it shows, with a streak bar that pays a "super star" reward after five correct answers in a row.

Everything else in the application is rendering, browser APIs, or calls to an external generative-AI service. This project models the two components' state handling as pure transition functions. Each handler takes the current state and returns the next state and the side effects it triggers, as a list of tokens: sounds, speech start or cancel, gateway requests, timers and alerts. Gateway answers, speech callbacks and timer expiries come back in as events. Lemmas prove the invariants the components keep.

Modules:

- `Wrappers` (`wrappers.dfy`): `Option`, used where the source uses `null`.
- `Text` (`text.dfy`): the JavaScript string operations the handlers use. These are `trim`, `toLowerCase`, `startsWith`, `substring`, `split(' ')` and `join(' ')`. The module also proves a split/join round trip.
- `Types` (`types.dfy`): `Pictogram`, `PictogramCategory` and the two question shapes of `types.ts`. The two shapes are one tagged `Question` variant instead of being told apart by field sniffing. The source's `label` field is called `word`, because `label` is a Dafny keyword.
- `Categories` (`categories.dfy`): how a newly created pictogram is filed under the "Coisas" category.
- `Highlight` (`highlight.dfy`): the heuristic that moves the highlight on each speech word boundary.
- `Communicator` (`communicator.dfy`): the communicator's state, events, handlers, `Step`/`Run`, and its invariants.
- `EmotionGame` (`emotion_game.dfy`): the game's state, events, handlers, `Step`/`Run`, and the streak bound.

Modelling choices:

- **Updates apply in order.** React batching and stale closures are not modelled.
- **Handler guards, not disabled buttons.** Where a button is also `disabled`, only the guard inside its handler is modelled. The model therefore allows every behaviour the real interface allows, and possibly more, so leaving the disabled attributes out does not weaken the invariants proved here.
- **Events only from what is on screen.** User events reach a component only when the matching view is rendered. For the communicator this means once the library has loaded. For the game, the mode buttons exist only on the selection screen, and the option and "next" buttons only under a loaded question.
- **Cancelled speech counts as ended.** When speech is cancelled (`speechSynthesis.cancel()`), the interrupted utterance's end-or-error handler runs at once. This is what the Web Speech API's "interrupted" error does. As a result, the trash button or a new reply releases the reply latch of a reply that was still being spoken.
- **What the code does at three easily misread points:**
  - The streak counter stays within [0, 4]. Reaching 5 resets it to 0 in the same update (`components/EmotionGame.tsx:90-94`).
  - The trash button empties the AI reply at the click (`components/PictogramCommunicator.tsx:113`), before the 500 ms timer empties the sentence.
  - The speak handler checks whether the speech engine is busy (`components/PictogramCommunicator.tsx:96`). The button's `speakingIndex !== -1` check is only a disabled attribute.
- **Timers do not check what they belong to.** The 2 s "new" timer clears the marker whichever pictogram it is on. The 500 ms clear timer empties whatever the sentence holds when it fires, including pictograms dropped during the exit animation. Both are modelled as written.

## Model

| member | source | states |
|---|---|---|
| Text.Trim | components/PictogramCommunicator.tsx:118 | The trimmed input is empty exactly when the input is nothing but white space; otherwise it starts and ends with a non-white character. |
| Text.TrimOfPadded | components/PictogramCommunicator.tsx:118-120 | Trimming white space padded around a core that starts and ends with a non-white character gives back exactly that core, so the word sent to the gateway is the typed word without its padding. |
| Text.TrimIdempotent | components/PictogramCommunicator.tsx:120 | Trimming an already trimmed word changes nothing. |
| Text.ToLower | components/EmotionGame.tsx:86 | Lower-casing keeps the length, leaves no ASCII capital letter, and leaves every other character as it is. |
| Text.EqualsIgnoringCase | components/EmotionGame.tsx:86 | Two strings compare equal ignoring case exactly when they have the same length and agree character by character after lower-casing. |
| Text.StartsWith | components/PictogramCommunicator.tsx:103 | `startsWith` holds exactly when the prefix is no longer than the string and agrees with its first characters. |
| Text.Take | components/PictogramCommunicator.tsx:103 | `substring(0, n)` returns at most n characters, and they are a prefix of the string. |
| Text.Suffix | components/PictogramCommunicator.tsx:102 | `substring(i)` is the rest of the string after its first i characters, and is empty past the end. |
| Text.Split | components/PictogramCommunicator.tsx:102 | `split(' ')` always yields at least one piece, and no piece contains a space. |
| Text.FirstWord | components/PictogramCommunicator.tsx:102 | The spoken word is the prefix of the remaining text up to its first space. |
| Text.Join | components/PictogramCommunicator.tsx:97 | Joining is empty for no words. Otherwise it starts with the first word, has a space right after it when there are more words, and its length is the words' total length plus one space between each pair of neighbours. |
| Text.SplitJoin | components/PictogramCommunicator.tsx:97 | Splitting the labels joined with single spaces on spaces gives the labels back, when there is at least one label and none contains a space. |
| Text.WordAtWordStart | components/PictogramCommunicator.tsx:97-102 | When no label contains a space and a boundary event reports the offset at which word k starts in the joined sentence, the spoken word the handler extracts is exactly word k. |
| Highlight.FindFrom | components/PictogramCommunicator.tsx:103 | `findIndex` with the `i >= wordIndex` filter returns the first index at or after the last match whose lower-case label starts with the prefix, or -1 when there is none. |
| Highlight.LabelMatches | components/PictogramCommunicator.tsx:103 | A label matches exactly when the prefix is no longer than the label and each of the label's first characters, lower-cased, equals the prefix's character. |
| Highlight.SpokenPrefix | components/PictogramCommunicator.tsx:102-103 | The prefix looked for is exactly the first three characters of the lower-case spoken word, or the whole word when it is shorter. |
| Highlight.NextWordIndex | components/PictogramCommunicator.tsx:99-104 | The last matched index never decreases. When some label at or after it matches the spoken prefix, it moves to the first such label; when none matches, it stays put. |
| Highlight.BoundaryAtWordStart | components/PictogramCommunicator.tsx:97-104 | If the sentence is unchanged, no label contains a space, and the engine reports the start of word k at or after the last match, the highlight lands between the last match and k. It lands exactly on k unless a label in between shares the spoken prefix. |
| Categories.FindByName | components/PictogramCommunicator.tsx:123 | `find` yields nothing exactly when no category has the name; otherwise it yields the first category with that name. |
| Categories.WithoutName | components/PictogramCommunicator.tsx:124 | The filter keeps exactly the categories with another name. |
| Categories.WithoutNameAppend | components/PictogramCommunicator.tsx:124 | The filter distributes over concatenation, so the kept categories keep their relative order. |
| Categories.AddToCoisas | components/PictogramCommunicator.tsx:122-126 | After a creation, "Coisas" is the last category and the only one with that name. All other categories come first in their original order. The "Coisas" list is the first old "Coisas" list, or an empty one, with the new pictogram appended. |
| Categories.AddToCoisasKeepsOthers | components/PictogramCommunicator.tsx:124-125 | The categories other than "Coisas" are the same, unchanged and in order, before and after a creation. |
| Categories.AddToCoisasTwice | components/PictogramCommunicator.tsx:122-126 | Two creations in a row leave both pictograms at the end of the "Coisas" list, in creation order. |
| Categories.AddToCoisasCreatesCategory | components/PictogramCommunicator.tsx:123-125 | With no "Coisas" category yet, a creation appends a new "Coisas" category that holds only the new pictogram. |
| Communicator.Mount | components/PictogramCommunicator.tsx:35-63 | On mount, the component is loading and requests the pictogram set. Every other piece of state starts empty or off: no library, no sentence, no highlight, no drag or hover, no clearing, an empty input, no creation or reply in flight, no reply text, no "new" badge, and no speech playing. |
| Communicator.Loaded | components/PictogramCommunicator.tsx:57-61 | An empty library becomes the "could not load" error. A non-empty one is shown as loaded. |
| Communicator.SentenceText | components/PictogramCommunicator.tsx:97 | The sentence text is empty for an empty sentence. Otherwise it starts with the first pictogram's label, and its length is the labels' total length plus one space between each pair of neighbours. |
| Communicator.Drop | components/PictogramCommunicator.tsx:70-79 | A pictogram whose id is new is appended at the end: earlier entries are unchanged, the reply is cleared and a pop sound plays. A pictogram whose id is already present changes nothing and plays no sound. Either way the hover flag ends false. |
| Communicator.DropKeepsIdsDistinct | components/PictogramCommunicator.tsx:73-74 | A drop keeps the sentence's ids distinct, and the dropped id is in the sentence afterwards. |
| Communicator.DropAllKeepsIdsDistinct | components/PictogramCommunicator.tsx:70-79 | After any sequence of drops, including repeated drops of the same pictogram, the ids are distinct and every dropped id is in the sentence. |
| Communicator.DropAllKeepsEarlier | components/PictogramCommunicator.tsx:73-74 | Drops never remove a pictogram from the sentence. |
| Communicator.Finish | components/PictogramCommunicator.tsx:89-90 | When an utterance ends or fails, the highlight goes back to -1. If the utterance was a reply, the reply latch is released. Nothing else changes. |
| Communicator.SpeechOver | components/PictogramCommunicator.tsx:89-90 | When the engine reports the end or failure of speech, no utterance is playing afterwards. A playing utterance runs its end-or-error handler (`Finish`); with nothing playing the state is unchanged. |
| Communicator.CancelUtterance | components/PictogramCommunicator.tsx:89-91 | After a cancel no utterance is playing. Cancelling a playing utterance runs its end-or-error handler (`Finish`: highlight -1, reply latch released for a reply). With nothing playing, a cancel changes nothing. |
| Communicator.SpeakText | components/PictogramCommunicator.tsx:84-93 | Speaking cancels the current speech, running its handler, and then plays the new utterance. Nothing else in the state changes. |
| Communicator.SpeakSentence | components/PictogramCommunicator.tsx:95-109 | With an empty sentence or speech already playing, speaking does nothing. Otherwise the spoken text is the labels joined with single spaces and the highlight starts at 0. Only the highlight and the playing utterance change; the library, the latches and the reply are untouched. |
| Communicator.SpokenTextRoundTrip | components/PictogramCommunicator.tsx:97 | The spoken text splits back into one word per pictogram, when no label contains a space. |
| Communicator.ExampleSentenceText | components/PictogramCommunicator.tsx:97 | The pictograms "eu", "quero", "água" are spoken as "eu quero água". |
| Communicator.Boundary | components/PictogramCommunicator.tsx:99-105 | A word boundary matches the current sentence labels against the captured text. It moves the highlight and the handler's index together, or changes nothing; reply speech ignores boundaries. |
| Communicator.Clear | components/PictogramCommunicator.tsx:111-115 | Clearing an empty sentence is a no-op. Clearing a non-empty one cancels speech, which releases the reply latch if a reply was playing. It also plays the clear sound, sets the highlight to -1, starts the exit animation, clears the reply and starts the 500 ms timer. Nothing else changes, and the sentence stays until the timer fires. |
| Communicator.ClearTimer | components/PictogramCommunicator.tsx:114 | When the clear timer fires, the sentence is empty and the exit animation is over. |
| Communicator.ClearThenTimer | components/PictogramCommunicator.tsx:111-115 | A non-empty sentence that is cleared is empty once the timer fires, with no speech and no highlight. |
| Communicator.CreatePictogram | components/PictogramCommunicator.tsx:117-120 | With white-space-only input, or while a creation is in flight, nothing changes and no request is made. Otherwise the latch is set and the gateway is asked for the trimmed input. |
| Communicator.BlankInputNeverRequests | components/PictogramCommunicator.tsx:118 | Creating from white space never issues a gateway request. |
| Communicator.Created | components/PictogramCommunicator.tsx:121-133 | A created pictogram is filed under "Coisas", the input is cleared, the new id is marked and the 2 s timer starts. A failure only raises the alert. Either way the creation latch is released. |
| Communicator.RequestResponse | components/PictogramCommunicator.tsx:136-140 | With an empty sentence or a reply in flight, nothing happens. Otherwise the latch is set, the old reply is cleared, and the joined sentence is sent to the gateway. |
| Communicator.ReplyReceived | components/PictogramCommunicator.tsx:141-142 | The reply is shown and spoken, after cancelling (and running the handler of) any speech. The sentence, the library and everything else are unchanged. |
| Communicator.Step | components/PictogramCommunicator.tsx:52-174 | While the library is loading or has failed, user events change nothing (the early returns at lines 146-147). Once it is shown, drops, the speak, trash, create and reply buttons run their handlers; typing updates the input, and the drag events set or clear the dragged id and the hover flag. In every phase, word boundaries run the boundary handler, other boundaries change nothing, and the end and error callbacks run `SpeechOver`. Also in every phase, the clear timer empties the sentence, and the 2 s badge timer clears the "new" mark. The library answer runs `Loaded`, a failed load shows the line-60 error, and the creation and reply answers run their handlers. |
| Communicator.StepKeepsInvariant | components/PictogramCommunicator.tsx:70-143 | Every event keeps the ids distinct, and keeps the highlight equal to the handler's last matched index while a sentence is spoken. |
| Communicator.RunKeepsInvariant | components/PictogramCommunicator.tsx:70-143 | The same holds after any sequence of events. |
| Communicator.ReachableInvariant | components/PictogramCommunicator.tsx:35-143 | From mount, no sequence of events ever puts two pictograms with the same id in the sentence. |
| Communicator.HighlightMonotone | components/PictogramCommunicator.tsx:98-104 | Within one sentence utterance, neither the highlight nor the handler's index ever decreases. |
| Communicator.SpeechEndResetsHighlight | components/PictogramCommunicator.tsx:89-90 | The end or failure of speech sets the highlight to -1. |
| Communicator.ReplyLatchReleasedOnlyBySpeech | components/PictogramCommunicator.tsx:136-142 | The reply latch is released only when the reply's own speech ends, fails, or is interrupted by the trash button or the next reply. |
| Communicator.ReplyLatchCycle | components/PictogramCommunicator.tsx:136-142 | After a request, the latch stays set while the reply arrives and is spoken, and a second request is ignored. The end of the reply's speech releases the latch. |
| EmotionGame.Initial | components/EmotionGame.tsx:56-63 | The game starts on the selection screen, unanswered, with no progress and no reward, and with no question, no loading, no error and no selected answer. |
| EmotionGame.CorrectValue | components/EmotionGame.tsx:115-116 | The expected answer is the `emotion` of a face question and the `correctEmotion` of a story question. |
| EmotionGame.RequestFor | components/EmotionGame.tsx:68 | The face generator is requested exactly for the face game; every other mode requests a story question. |
| EmotionGame.OptionValues | components/EmotionGame.tsx:132-133 | Each option submits its `text` (face question) or its `emotion` (story question), in option order. |
| EmotionGame.LoadNextQuestion | components/EmotionGame.tsx:65-68 | Loading resets the status to unanswered and clears the selection and the error. It keeps progress and the shown question, and requests a question of the mode's kind. |
| EmotionGame.QuestionArrived | components/EmotionGame.tsx:69-72 | A question replaces the shown one. A missing one sets the error and keeps the previous question. Either way loading ends. |
| EmotionGame.StartGame | components/EmotionGame.tsx:105-109 | Starting a game sets the mode, resets progress to 0 and loads a question for that mode. The shown question and the reward flag are kept. |
| EmotionGame.ShowReward | components/EmotionGame.tsx:75-81 | Entering the reward state plays the success sound and starts the 2.5 s timer. Re-entering it while it shows does neither. |
| EmotionGame.HandleAnswer | components/EmotionGame.tsx:83-103 | Once answered, a submission changes nothing. A correct answer (case-insensitive) sets correct and plays the correct sound. It then either resets progress to 0 and shows the reward (at 5), or advances progress by one with the progress sound. A wrong answer sets incorrect, plays the incorrect sound and resets progress to 0. |
| EmotionGame.Step | components/EmotionGame.tsx:64-180 | A mode can be chosen only from the selection screen, and then starts that game. An option click is ignored unless a question is shown; otherwise it submits the option's value against the question's expected value. "Next" is ignored unless a shown question has been answered, and then loads a question for the current mode. A generated question, or its absence, goes to `QuestionArrived`. A failed request sets the line-71 error and ends loading, and the reward timer hides the reward. |
| EmotionGame.StepKeepsProgressInBounds | components/EmotionGame.tsx:89-101 | Every event keeps progress within [0, 4]. |
| EmotionGame.RunKeepsProgressInBounds | components/EmotionGame.tsx:89-109 | Any sequence of events keeps progress within [0, 4]. |
| EmotionGame.ReachableProgressInBounds | components/EmotionGame.tsx:8 | From the selection screen, progress always stays below MAX_PROGRESS = 5 and is never negative. |
| EmotionGame.CorrectAnswerStreak | components/EmotionGame.tsx:87-97 | A correct answer at progress 4 pays the reward (success sound) and resets progress to 0. A correct answer below 4 advances progress by one with no reward. |
| EmotionGame.AnswerOnce | components/EmotionGame.tsx:84 | A second submission for the same question changes nothing, whatever is submitted. |
| EmotionGame.ClickIsCorrectIff | components/EmotionGame.tsx:111-142 | Clicking an option is judged correct if and only if its value equals the question's expected value (emotion or correctEmotion) ignoring case, and incorrect otherwise. |
| EmotionGame.RewardDismissed | components/EmotionGame.tsx:75-81 | The reward shown at the end of a streak is dismissed when its timer fires. |
| EmotionGame.FaceGameExample | components/EmotionGame.tsx:83-101 | With options alegria, tristeza, raiva, surpresa and "alegria" correct, "tristeza" is wrong and resets progress, and "ALEGRIA" is right. |

## Left out

- The AI gateway (`services/geminiService.ts`): prompts, response schemas and image generation are calls into an external SDK. Its answers are input events: `PictogramsLoaded`, `PictogramCreated`, `ReplyArrived` and `QuestionLoaded`. The reply fallback "Não entendi, mas parece muito legal!" is one possible `ReplyArrived` value.
- Sound synthesis (`utils/soundUtils.ts`): Web Audio oscillators, floating-point frequencies and the audio-context singleton. Each sound is only an effect token.
- The view switch in `App.tsx`, all JSX rendering, CSS classes and the confetti's `Math.random` placement.
- The drag payload's JSON serialisation: a drop carries the dropped pictogram itself, so a payload that fails to parse, or parses to `null`, is not modelled.
- The browser speech engine: language, rate, audio, and the exact moment callbacks arrive. Boundary, end and error callbacks are events.
- Real time: the 500 ms, 2 s and 2.5 s timers are "timer fired" events. Clearing the reward timer on unmount is not modelled.
- Stale gateway answers: they are applied whenever they arrive, as in the source. Which mode or request an answer belongs to is not tracked.
- React StrictMode's double call of the progress updater, and batching or closure staleness.
- A face option with an empty `text`: the source falls back to an `emotion` field that does not exist and throws. The model submits the empty text.
- Text.ToLower: maps only the ASCII letters A-Z. JavaScript's `toLowerCase` also lowers accented and other Unicode letters (for example "Á"), so two labels that differ only in the case of such a letter compare unequal here.
- Text.Suffix, Text.Take, Highlight.SpokenPrefix: strings here are sequences of Unicode characters, while JavaScript's `substring` and the speech engine's `charIndex` count UTF-16 code units. For a label with a character outside the Basic Multilingual Plane (an emoji typed into "create pictogram", for example), the source's `substring(charIndex)` and `substring(0, 3)` pick different characters than the model does.
- Highlight.BoundaryAtWordStart, Text.WordAtWordStart: proved only for labels without spaces. A created label such as "bolo de chocolate" keeps its inner spaces, and then the word the handler extracts at a label's start is only the label's first word; the boundary handler itself is still modelled as written for such labels.
- Text.Trim: removes only ASCII white space, the no-break space, the byte-order mark and the line and paragraph separators. It does not remove the other Unicode space separators JavaScript trims.
