# Video quiz session, modelled in Dafny

The `VideoQuiz` component plays a video about hunting lionesses and stops it
at four timestamps (42, 120, 180 and 300 seconds) to ask a two-option
question. A one-second poll records the playback position. A trigger
effect picks the question to surface. The answer handler scores the click
and schedules a completion two seconds later. The player's "ended" event
opens a results dialog with a perfect-score or a try-again message.

The project models that session logic. React state, effects and timers
become explicit transitions of one state record.

- `video_quiz.dfy`, module `VideoQuiz`: the `Question` record, the
  authored list `Questions`, the `find` predicate (`Eligible`), the
  first-match search (`SelectNext`), answer scoring and the summary message.
- `quiz_machine.dfy`, module `QuizMachine`: the state cells as a `State`
  value. Each handler is a pure transition: `Trigger` (one run of the
  effect), `Settle` (the effect re-run while it keeps changing
  `activeQuestion`), `Tick`, `Submit`, `Complete` and `End`. `Rank` is the
  measure that makes the cascade terminate.
- `quiz_trace.dfy`, module `QuizTrace`: whole sessions as event sequences
  (`PlayerTick`, `OptionClicked`, `FeedbackElapsed`, `PlayerEnded`). Each
  accepted click queues its own completion, and the completions run in the
  order they were scheduled. The module holds the invariant kept by
  sequentially timed sessions and the authored playthroughs.
- `session.dfy`, module `Session`: class `QuizSession`, whose fields are the
  component's state cells. Each method is proved to perform its transition
  in `QuizMachine`: the method of the same name, or `End` for `Ended`. `Settle` is a loop whose termination
  measure is the rank of the active question.

Time is a whole number of seconds. The source only compares integer
timestamps with `<=` against the position, so flooring the player's
position changes no comparison.

Two behaviours of the code are easy to misread:

- The completion clears `activeQuestion` but leaves `selectedOption` set
  (src/components/VideoQuiz.tsx:110-114). The selection is reset only when a
  new question is surfaced (src/components/VideoQuiz.tsx:79).
  `QuizMachine.CompleteKeepsSelection` states this.
- After a seek, the trigger does not surface only the next question in id
  order. Each re-run of the effect moves to a strictly larger eligible id.
  The settled active question is therefore the eligible question with the
  highest id (`QuizMachine.SettleReachesHighest`, `QuizTrace.SeekSurfacesHighest`).
  Questions skipped this way are surfaced again, in decreasing id order, as
  later completions clear `activeQuestion`.

## Model

| member | source | states |
|---|---|---|
| VideoQuiz.AuthoredWellFormed | src/components/VideoQuiz.tsx:15-44 | the authored list has four questions with ids 1..4, strictly increasing ids and timestamps, and each correct answer indexes its options |
| VideoQuiz.Eligible | src/components/VideoQuiz.tsx:72-74 | defines the predicate handed to `find`: the question is due, unanswered, and has a larger id than the active one when one is active |
| VideoQuiz.SelectNext | src/components/VideoQuiz.tsx:71-75 | nothing is found exactly when no question is eligible; a found question is in the list, is eligible, and no question before it is |
| VideoQuiz.SelectNextIsFirstMatch | src/components/VideoQuiz.tsx:71-75 | on a list with distinct ids, question k is found if and only if it is eligible and no earlier question is |
| VideoQuiz.IsCorrect | src/components/VideoQuiz.tsx:93 | defines a correct answer as the chosen index equal to the question's correct index |
| VideoQuiz.ResultsMessage | src/components/VideoQuiz.tsx:185-190 | defines the closing message: the perfect-score one when the counter equals the total, the try-again one otherwise |
| QuizMachine.RankDrops | src/components/VideoQuiz.tsx:74 | moving the active question to a strictly larger id, or to any question when none is active, strictly lowers the number of questions still reachable |
| QuizMachine.Trigger | src/components/VideoQuiz.tsx:70-86 | one effect run changes the active question exactly when a question is eligible; then it becomes the first-match result, the selection is cleared and the rank drops; time, answered set, counter and results flag never change |
| QuizMachine.Settle | src/components/VideoQuiz.tsx:70-87 | re-running the effect ends in a state where no question is eligible; a changed active question is in the list, was eligible at the start, and has no selection; nothing else changes |
| QuizMachine.SettleReachesHighest | src/components/VideoQuiz.tsx:70-87 | after settling, every question eligible at the start has an id at most that of the active one |
| QuizMachine.Tick | src/components/VideoQuiz.tsx:58-60 | a tick records the reported position; a tick at the current position changes nothing; any other tick ends settled, so a settled state stays settled; the answered set, counter and results flag stay as they were; if the active question is kept, nothing but the time changes; if it changes, the new one is in the list, eligible at the new time against the old answered set and active question, and its selection is cleared |
| QuizMachine.Submit | src/components/VideoQuiz.tsx:89-108 | a submission never changes the active question, answered set, time or results flag; when it schedules a completion, a question was active, the completion carries its id, and the chosen option is recorded |
| QuizMachine.SubmitIsGuarded | src/components/VideoQuiz.tsx:90 | a submission is ignored, leaving the state as it was and scheduling nothing, if and only if no question is active or an option is already selected |
| QuizMachine.SecondSubmitIsNoOp | src/components/VideoQuiz.tsx:90-92 | a second submission right after a first one is always ignored |
| QuizMachine.SubmitCountsExactly | src/components/VideoQuiz.tsx:92-96 | an accepted submission records the option, schedules the active id, and raises the counter by exactly one if and only if the option is the correct answer; otherwise the counter is unchanged |
| QuizMachine.Complete | src/components/VideoQuiz.tsx:110-114 | completion adds exactly the submitted id to the answered set and ends settled; a question it surfaces is in the list, due at the current time and unanswered |
| QuizMachine.CompleteIsExactUnion | src/components/VideoQuiz.tsx:110-112 | completion adds exactly the submitted id to the answered set, keeps every earlier id, and leaves the counter, time and results flag unchanged |
| QuizMachine.CompleteKeepsSelection | src/components/VideoQuiz.tsx:110-114 | if completion leaves no active question, the selection is the one from before; if the re-run effect surfaces a question, it is unanswered and has no selection |
| QuizMachine.End | src/components/VideoQuiz.tsx:63-66 | the ended event sets the results flag and leaves time, active question, answered set, counter and selection as they were |
| QuizMachine.EndShowsResults | src/components/VideoQuiz.tsx:63-66 | the ended event sets the results flag whatever the state, and changes nothing else |
| QuizMachine.Summary | src/components/VideoQuiz.tsx:185-190 | defines the dialog's message for a state: the closing message for its counter against the number of questions |
| QuizMachine.SummaryPerfectIff | src/components/VideoQuiz.tsx:185-190 | the perfect-score message is chosen if and only if the counter equals the number of questions |
| QuizTrace.Mount | src/components/VideoQuiz.tsx:47-53 | the mounted component is at time 0 with nothing answered, counted, shown or scheduled, and is settled |
| QuizTrace.Step | src/components/VideoQuiz.tsx:58-114 | an event never shrinks the answered set; a click schedules at most one completion, behind those already waiting, and it carries the id of the question active when the click came; the end of a delay runs the oldest waiting completion, whose id is then answered, and does nothing when none waits; ticks and the ended event schedule nothing; the ended event shows the results |
| QuizTrace.MountEstablishesInv | src/components/VideoQuiz.tsx:48-53 | the state after mounting satisfies the session invariant, with nothing answered and a zero counter |
| QuizTrace.StepKeepsSettled | src/components/VideoQuiz.tsx:58-114 | every event, in any interleaving, keeps a settled state settled |
| QuizTrace.StepPreservesInv | src/components/VideoQuiz.tsx:89-114 | each event keeps the invariant (settled; answered ids are question ids; the active question is unanswered; a pending completion carries the active id; the counter is at most the answered count plus one pending answer) and never shrinks the answered set, provided no tick inside the feedback delay moves the position |
| QuizTrace.RunPreservesInv | src/components/VideoQuiz.tsx:89-114 | every sequentially timed run keeps the invariant and only grows the answered set |
| QuizTrace.CorrectWithinTotal | src/components/VideoQuiz.tsx:185-190 | in every invariant state the counter lies between 0 and the number of questions, and the try-again message is shown exactly when it is below that number |
| QuizTrace.MountNumbered | src/components/VideoQuiz.tsx:70-87 | when the first question is due after time 0, mounting surfaces nothing |
| QuizTrace.TickInTurn | src/components/VideoQuiz.tsx:70-87 | a tick into the window of question k, with the earlier ones answered, surfaces exactly question k with no selection |
| QuizTrace.CompleteInTurn | src/components/VideoQuiz.tsx:110-114 | completing question k inside its window adds its id and surfaces nothing else, keeping the selection |
| QuizTrace.AnswerInTurn | src/components/VideoQuiz.tsx:70-114 | a tick, a click and the completion inside question k's window add exactly id k and score the click against that question's correct answer |
| QuizTrace.FirstTwoQuestions | src/components/VideoQuiz.tsx:70-114 | on a numbered list with the authored timestamps, watching at 45 and 125 seconds answers questions 1 and 2 in turn and scores each click |
| QuizTrace.LastTwoQuestions | src/components/VideoQuiz.tsx:70-114 | on a numbered list with the authored timestamps, watching at 185 and 305 seconds answers questions 3 and 4 in turn and scores each click |
| QuizTrace.WatchToEnd | src/components/VideoQuiz.tsx:63-66 | with every question answered, the last tick surfaces nothing and the ended event opens the results |
| QuizTrace.PlaythroughOf | src/components/VideoQuiz.tsx:15-114 | on any numbered list with the authored timestamps and answers, ticks at 45, 125, 185, 305 and 336 seconds with a click each answer all four questions in id order and end with the results shown |
| QuizTrace.PlaythroughScores | src/components/VideoQuiz.tsx:185-190 | on the authored video, answering question 2 correctly gives 4 of 4 and the perfect message, and answering it wrongly gives 3 of 4 and the try-again message; all four ids end answered |
| QuizTrace.OverlappingCompletions | src/components/VideoQuiz.tsx:58-114 | on a numbered list with question 2 due by 125 s, a tick at 125 s during question 1's feedback delay surfaces question 2; answering it schedules a second completion; both completions run, leaving ids 1 and 2 answered, nothing active and both clicks scored |
| QuizTrace.RescoredAfterOverlap | src/components/VideoQuiz.tsx:77-114 | on a numbered list with question 2 due by 125 s, a tick at 125 s during question 1's delay, two correct clicks on question 2 and three delays end with only ids 1 and 2 answered and the counter raised by two |
| QuizTrace.SeekSurfacesHighest | src/components/VideoQuiz.tsx:70-87 | a first tick at 185 seconds makes questions 1 to 3 eligible and settles on question 3 |
| Session.QuizSession.constructor | src/components/VideoQuiz.tsx:47-53 | the fields start at time 0 with nothing active, answered, counted, selected or shown, then the effect re-runs to its fixed point (`View() == Settle(qs, Initial)`) |
| Session.QuizSession.Trigger | src/components/VideoQuiz.tsx:70-86 | the fields change as QuizMachine.Trigger says; the result tells whether the active question changed |
| Session.QuizSession.Settle | src/components/VideoQuiz.tsx:70-87 | the loop ends in the state QuizMachine.Settle gives, which is settled, after surfacing at most one question per list entry |
| Session.QuizSession.Tick | src/components/VideoQuiz.tsx:58-60 | the fields change as QuizMachine.Tick says |
| Session.QuizSession.Submit | src/components/VideoQuiz.tsx:89-108 | the fields and the scheduled id are those of QuizMachine.Submit; an ignored click changes no field |
| Session.QuizSession.Complete | src/components/VideoQuiz.tsx:110-114 | the fields change as QuizMachine.Complete says: the answered set gains exactly the given id, and the selection survives when no question becomes active |
| Session.QuizSession.Ended | src/components/VideoQuiz.tsx:63-66 | the fields change as QuizMachine.End says, and the results flag is set |
| Session.DoubleClickOnFirstQuestion | src/components/VideoQuiz.tsx:89-114 | on the authored video, at question 1, a second click schedules nothing; only the first one scores; after the completion id 1 is answered and the selection is still set |

## Left out

- The YouTube embed and the player handle (src/components/VideoQuiz.tsx:3, :56-61, :119-134). `pauseVideo` and `playVideo` (:80, :113) are calls into the player and are not modelled.
- The polling timer (`setInterval` and `clearInterval`, :58-60, :66). A tick is an explicit `PlayerTick` event or `Tick` call. After the ended event the source stops ticking; the model does not forbid later ticks, their callers simply do not issue them.
- The real 2000 ms delay (:110-114). The completion is an explicit `FeedbackElapsed` event or `Complete` call, given the id captured at submission.
- Ticks inside the feedback delay. `QuizTrace.Step` performs them as the code does. A tick there can replace the active question and clear the selection. A click on the new question then starts a second timer, and both completions run (`QuizTrace.OverlappingCompletions`). The invariant of `QuizTrace.StepPreservesInv` is proved only for runs in which the position does not move while a completion waits (`Sequential`). Ticks that report the paused position are allowed. The invariant is not claimed for other interleavings. The code lets such an interleaving score one question twice. The completion for question 1 surfaces question 2 again with its selection cleared (:79, :110-112), so a second click on it counts again (`QuizTrace.RescoredAfterOverlap`). Played to the end, the counter can then exceed the number of questions.
- Toast notifications (:81-85, :97-107): side effects of a UI library, not recorded.
- Rendering: the JSX, CSS class choices (:141-144, :163-169), the buttons' `disabled` flag (:171), and the `Dialog` with its `onOpenChange` (:180), through which closing the dialog resets `showResults`.
- The timeline percentages `(q.timeStamp / 335) * 100` and `(currentTime / 335) * 100` (:146, :152): floating point for display only.
- Fractional playback positions. Two ticks at different fractions of the same second are the same tick in the model. Every event keeps a settled state settled, whatever the timing (`QuizTrace.StepKeepsSettled`), and mounting ends settled. So re-running the effect for such a tick changes nothing.
- `currentQuestion !== activeQuestion` compares objects; the model compares values. Both differ whenever a question is found, since its id is strictly larger (`QuizMachine.Trigger`).
- React's scheduling of state updates and effect runs is modelled as running the effect to its fixed point right after each handler.
