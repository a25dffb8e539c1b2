# Pocket Profit learning page: verified model of its interactive state

The learning page (`src/learning/Components.tsx`) is mostly static content. Four pieces of it
keep state that changes in response to the user or a timer, and this project models those four
in Dafny and proves what they promise:

- **Quiz** (`quiz.dfy`, module `Quiz`): the `MiniQuiz` component as a class `MiniQuiz` with
  its four state fields `currentQuestion`, `selectedAnswer`, `showResult` and `score`, over an
  immutable question list given to the constructor. `HandleAnswer` and `NextQuestion` are the
  component's two handlers; `ClickOption` is the option button, which is inert once the result
  is shown. A ghost field `answers` records the pick made for each question answered so far, and
  the class invariant `Valid()` ties `score` to the number of correct picks (`CorrectCount`).
  The built-in three-question list is the constant `QuizQuestions`.
- **Tips** (`tips.dfy`, module `Tips`): the `QuoteBanner` tip index and its timer step
  `(prev + 1) % length`; a run is described by the number of ticks (`TipAfter`).
- **Glossary** (`glossary.dfy`, module `Glossary`): the one-term-at-a-time expansion toggle.
- **Theme** (`theme.dfy`, module `Theme`): the conversion between the dark-mode flag and the
  string stored under the key `"theme"`.

`wrappers.dfy` holds the `Option` type used for the source's "value or `null`" state.

Each handler is modelled as one atomic step, as the page runs them one at a time.

Modelling choices that follow the code:

- `NextQuestion` requires `showResult`. The "Next Question" / "Complete Quiz" button is rendered
  only while the result is shown (lines 551-558), so the handler is never reached otherwise.
- `HandleAnswer` requires `!showResult`. Its only caller is the option button's click handler
  `!showResult && handleAnswer(index)` (line 519), which `ClickOption` models. That click
  handler has no precondition on `showResult`. Its `index` ranges over the current question's
  options, because one button is rendered per option (line 516).
- At the last question, the code's `nextQuestion` changes no state and only reports a score.
  The quiz stays on that question with its result shown, and every further click reports again.
  There is no separate "completed" state and no reset; the model does the same.
- The theme is restored only when the stored value is truthy (line 758). So an empty stored
  string is treated like a missing one, and `Restore` models that.

## Model

| member | source | states |
|---|---|---|
| Quiz.QuizQuestionsWellFormed | src/learning/Components.tsx:92-114 | the built-in list has three questions and each correct index names one of its options |
| Quiz.CorrectCountBound | src/learning/Components.tsx:475-481 | the answers earn at most one point each |
| Quiz.CorrectCountAllCorrect | src/learning/Components.tsx:477-478 | when every answer picks the correct option, the count equals the number of answers |
| Quiz.CorrectCountAppend | src/learning/Components.tsx:477-479 | one more answer adds exactly one point when it is correct and none otherwise |
| Quiz.MiniQuiz.constructor | src/learning/Components.tsx:470-473 | the quiz starts at question 0 with nothing selected, the result hidden and score 0 |
| Quiz.MiniQuiz.ScoreBounded | src/learning/Components.tsx:473-491 | in every valid state, score <= currentQuestion + (1 if the result is shown) <= number of questions |
| Quiz.MiniQuiz.HandleAnswer | src/learning/Components.tsx:475-481 | selects the answer and shows the result; adds 1 to the score iff the answer is the current question's correct index; keeps the question index; keeps the invariant |
| Quiz.MiniQuiz.ClickOption | src/learning/Components.tsx:516-520 | while the result is shown a click changes nothing; otherwise it acts as HandleAnswer; the score never decreases and rises by at most 1 |
| Quiz.MiniQuiz.NextQuestion | src/learning/Components.tsx:483-491 | before the last question: index + 1, selection cleared, result hidden, score kept, no report. At the last question: state unchanged, report = score + (1 if the selection is correct), which is score + 1 after a correct final pick and at most N + 1 |
| Quiz.MiniQuiz.NextQuestionFixed | src/learning/Components.tsx:483-491 | same transitions as NextQuestion, but the completion report is the number of correct answers, at most N |
| Quiz.AllCorrectRun | src/learning/Components.tsx:475-491 | answering the built-in quiz correctly throughout reports 4 for 3 questions |
| Quiz.AllCorrectRunFixed | src/learning/Components.tsx:475-491 | the same play with the corrected report gives 3 for 3 questions |
| Tips.NextTip | src/learning/Components.tsx:213 | the next index is within the list; it is prev + 1 before the end and 0 after the last tip |
| Tips.TipAfter | src/learning/Components.tsx:209-213 | the index after k ticks from the initial 0 is always within the list; its closed form k mod len is TipAfterIsTicksModLen, its order and period VisitsEveryTipInOrder and TipAfterIsPeriodic |
| Tips.TipAfterIsTicksModLen | src/learning/Components.tsx:209-213 | after k ticks from index 0 the banner shows tip k mod len, so the index stays in [0, len) |
| Tips.VisitsEveryTipInOrder | src/learning/Components.tsx:209-213 | the first len ticks show indices 0, 1, ..., len - 1 in order and tick len returns to 0 |
| Tips.TipAfterIsPeriodic | src/learning/Components.tsx:213 | len more ticks show the same tip again |
| Tips.DailyTipsCycle | src/learning/Components.tsx:116-122 | with the five built-in tips the indices shown are 0, 1, 2, 3, 4, 0 |
| Glossary.Toggle | src/learning/Components.tsx:317 | after a click the clicked term is expanded iff it was not before, and no other term is expanded |
| Glossary.GlossaryIdsDistinct | src/learning/Components.tsx:30-59 | the four glossary ids '1' to '4' are distinct, so AtMostOneExpanded and ClickTerm apply to the page's glossary |
| Glossary.InitiallyNothingExpanded | src/learning/Components.tsx:305 | with the initial `null` selection no card is expanded |
| Glossary.AtMostOneExpanded | src/learning/Components.tsx:305-327 | with distinct term ids at most one card is expanded at any time |
| Glossary.ClickTerm | src/learning/Components.tsx:317-327 | clicking the term at position k leaves exactly card k expanded, or no card if k was the expanded one |
| Glossary.ToggleTwice | src/learning/Components.tsx:317 | two clicks on one term restore the selection when it was that term or none; after another term's selection they leave nothing expanded |
| Theme.Encode | src/learning/Components.tsx:765 | the stored string is "dark" or "light", and it is "dark" exactly when dark mode is on |
| Theme.Restore | src/learning/Components.tsx:757-760 | the start-up read: a stored encoding of a flag restores that flag; a missing or empty value keeps the current flag. RoundTrip, NothingStoredMeansLight and OtherValueMeansLight state the same mapping as lemmas |
| Theme.RoundTrip | src/learning/Components.tsx:759-765 | restoring the stored encoding of a flag gives back that flag, whatever the flag was before |
| Theme.NothingStoredMeansLight | src/learning/Components.tsx:749-759 | with no stored value, or an empty one, the page starts in light mode |
| Theme.OtherValueMeansLight | src/learning/Components.tsx:758-759 | any other non-empty stored value than "dark" restores light mode |

## Left out

- EMI calculator (lines 381-391): floating-point `Math.pow` and division are not modelled. This includes the zero-rate branch that skips the update.
- Currency formatting with `toLocaleString('en-IN')` (lines 443-459): it calls a library that is not part of this model.
- The `setInterval`/`clearInterval` timer of the tip banner (lines 211-216): the model counts ticks instead of wall-clock time.
- Reading and writing `localStorage` (lines 757, 765): these are I/O. Only the mapping between the flag and the stored string is modelled.
- The `alert` call (line 490): it is I/O. The model returns the number it would show.
- The theme toggle `setDarkMode(!darkMode)` (line 752) and the mobile-menu `isOpen` toggle (lines 126, 160): each is a plain negation with no invariant to prove.
- All JSX rendering, styling and navigation anchors, and the static glossary, savings-tip, investment and statistics content.
- The explanation texts of the quiz questions: no logic reads them.
- React's batched, asynchronous state updates: each handler is modelled as one atomic step over the state from the last render.

## Findings

| source | as written | input that shows it | evidently intended | confidence | as-written member | corrected member |
|---|---|---|---|---|---|---|
| src/learning/Components.tsx:490 | the completion report is `score + (selectedAnswer === correct ? 1 : 0)`, but `handleAnswer` already added that point to `score` (line 478) | the built-in quiz answered 1, 1, 2 (all correct) reports "4/3" | report `score`, the number of correct answers, which is at most the number of questions | not executed | Quiz.AllCorrectRun | Quiz.MiniQuiz.NextQuestionFixed |
