# Prompt-engineering quiz: the session state machine

The quiz is a Streamlit script (`main.py`) that keeps five values in its
session state between reruns: `user_info`, `q_index`, `score`, `answers` and
`filtered_data`. Which page the script renders is decided by those values
alone: the setup form while `user_info` is unset, the question page while
`q_index < len(filtered_data)`, and the results page otherwise. The buttons on
each page (Start, Next, Restart) are the only things that change the state.

This project models that state machine as immutable Dafny values and pure
transition functions, and proves the invariants every button press keeps.

- `wrappers.dfy` (module `Wrappers`): the `Option` type used for missing keys
  and absent answers.
- `text.dfy` (module `Text`): Python's `str.strip()` over the code points
  Python counts as whitespace, used to reject a blank name.
- `bank.dfy` (module `Bank`): the question records, the three levels, the
  per-level filter and the abstract `random.sample` draw.
- `grading.dfy` (module `Grading`): the grade band on the results page.
- `session.dfy` (module `QuizSession`): the session record, its phase, the
  invariant `Valid`, and the Start, Next and Restart transitions with the
  summary shown on the results page.
- `trace.dfy` (module `QuizTrace`): sequences of button presses and the proof
  that every state reachable from a fresh session is valid.

The invariant `QuizSession.Valid` says: there is one answer record per answered
question (`|answers| == q_index <= |filtered_data|`); record `i` was made from
question `i`; `score` is the number of records the review marks correct; the
setup page holds no leftovers; and a started quiz has at least one question, all
from the bank at the chosen level.

Decisions about the script's behaviour:

- Start does not reset `q_index`, `score` or `answers` (main.py:45-53 sets
  only `user_info` and `filtered_data`). The model does the same and proves
  that they are already zero on the setup page, so a started quiz begins at
  the first question with no score.
- Restart is offered only on the results page (main.py:124), not on every
  page. `Restart` itself ignores the state it is given; `QuizTrace.Step`
  offers it only on the results page.
- An empty question bank is not an error of its own: every level then has no
  questions and Start is refused with the "no questions" warning.
- The empty-level stop (main.py:32-34) happens while the form renders, before
  the Start button is shown, so it takes precedence over the blank-name check
  (main.py:42-43).
- A bank record's `level` and `topic` are optional keys (main.py:28, 87-88):
  a record without `level` never matches a level, and the answer record falls
  back to "N/A" and "General" for a missing key.
- The user's answer is the radio selection, which is absent when a question
  has no options (main.py:76-78). `correct_answer` is a string in the model,
  so an absent answer never equals it (main.py:92).
- `random.sample` promises distinct positions, not distinct records: if the
  bank repeats a record, a sample may repeat it too, but never more often than
  the level's records do (`Bank.SampleWithoutReplacement`).
- The band uses `len // 2` (main.py:108); with an odd total a score just under
  half still counts as "Good" (for one question, zero right is "Good").
  `Grading.GradeBand` states the threshold without division:
  `2 * score + 1 >= total`.

## Model

| member | source | states |
|---|---|---|
| Text.Strip | main.py:42 | the stripped name is a contiguous slice of the typed name, everything before and after that slice is whitespace, and the slice neither starts nor ends with whitespace |
| Text.StripEmptyIffAllSpace | main.py:42 | `name.strip() == ""` holds exactly when every character of the name is whitespace, the empty name included |
| Bank.FilterMembers | main.py:28 | the level filter holds a record iff the bank holds it and its level key equals the selected level; a record without a level key never matches |
| Bank.FilterKeepsExactlyInOrder | main.py:28 | the filter picks the bank at strictly ascending positions, and a position is picked iff its record is at the level: exactly the matching records, in bank order |
| Bank.FilterSubMultiset | main.py:28 | the filter never holds a record more often than the bank does |
| Bank.Sample | main.py:51-53 | a sample has one record per drawn position, each from the population |
| Bank.SampleWithoutReplacement | main.py:51-53 | drawing distinct positions never repeats a record more often than the population holds it |
| Bank.SampleAtLevel | main.py:48-53 | a sample of N from the level's records has length N, holds only bank records at that level, and is a sub-multiset of the level's records |
| Grading.FloorDiv | main.py:108 | `total // 2` is the floor quotient: q * 2 <= total < (q + 1) * 2 |
| Grading.GradeBand | main.py:106-111 | "Excellent" iff score equals total; "Good" iff the score is imperfect and 2 * score + 1 >= total; "Needs improvement" iff imperfect and below that mark |
| Grading.GradeBandMonotone | main.py:106-111 | for a fixed total, a higher score never gets a worse band |
| Grading.TenQuestionBoundaries | main.py:106-111 | out of ten: five is "Good", four is "Needs improvement", ten is "Excellent" |
| QuizSession.Init | main.py:9-16 | a fresh session shows the setup page |
| QuizSession.InitValid | main.py:9-16 | a fresh session satisfies the session invariant |
| QuizSession.CountCorrect | main.py:119 | the number of records marked correct is at most the number of records, and equals it iff every record is correct |
| QuizSession.ScoreBounded | main.py:92-95 | in a valid session the score is at most `q_index`, which is at most the number of chosen questions |
| QuizSession.Start | main.py:28-55 | an empty level leaves the state unchanged with a "no questions" warning; otherwise a whitespace-only name leaves it unchanged with an "enter your name" warning; otherwise (and only then) the user is recorded as typed, the index, score and answers are untouched, and the set is the level's records for "All" or N records of that level for a number |
| QuizSession.ChooseQuestions | main.py:36-53 | "All" yields the level-filtered list itself; N yields N records, all bank records at the level, a sub-multiset of the level's records |
| QuizSession.StartPreservesValid | main.py:41-55 | Start keeps the invariant; a successful start shows the question page at index 0 with score 0 and no answers; a refused start stays on the setup page |
| QuizSession.CurrentQuestion | main.py:58-59 | the question shown belongs to the chosen set |
| QuizSession.Progress | main.py:64-69 | on the question page the progress denominator is positive and the numerator below it |
| QuizSession.Next | main.py:81-95 | Next appends exactly one record, built from the current question and the answer; the score rises by one iff the answer equals the correct answer and is otherwise unchanged; the index rises by one; user and question set stay |
| QuizSession.CountCorrectAppend | main.py:92-93 | appending a record adds one to the correct count iff that record is correct |
| QuizSession.NextPreservesValid | main.py:81-95 | Next keeps the invariant: records still match questions one to one and the score still counts correct records |
| QuizSession.AnswerEach | main.py:58-96 | answering k questions in turn advances the index by k, keeps the earlier records, appends k records where new record j holds pick j for the j-th remaining question, raises the score by the number of new records that are correct, and leaves user and question set alone |
| QuizSession.CountCorrectPrepend | main.py:92-93 | putting a record in front of a list adds one to the correct count iff that record is correct |
| QuizSession.AnsweredInTurnStep | main.py:81-95 | one Next press followed by answering the rest in turn is answering all the picks in turn |
| QuizSession.AnswerEachPhase | main.py:58-99 | the quiz stays on the question page while questions remain, reaches the results page after exactly as many Next presses as questions, and stays valid throughout |
| QuizSession.Summarize | main.py:99-122 | the review has one flag per answer, in answering order, and flag i is set iff answer i equals its correct answer |
| QuizSession.CountTrueMatchesCorrect | main.py:114-122 | the number of "Correct" flags in the review equals the number of correct records |
| QuizSession.ResultsAgreeWithReview | main.py:102-122 | on the results page every question was answered, the score shown equals the number of review entries marked correct and is at most the total, and the band is "Excellent" iff every entry is marked correct |
| QuizSession.Restart | main.py:124-129 | Restart returns to the setup page |
| QuizSession.RestartIsFresh | main.py:124-130 | Restart yields exactly a fresh session from any state, is idempotent, and keeps the invariant |
| QuizTrace.Step | main.py:18-130 | a press the current page does not offer changes nothing; an offered Restart yields a fresh session |
| QuizTrace.StepPreservesValid | main.py:18-130 | every press, offered or not, keeps the invariant |
| QuizTrace.RunPreservesValid | main.py:18-130 | any sequence of presses from a valid state ends in a valid state |
| QuizTrace.ReachableValid | main.py:9-130 | every state reachable from a fresh session is valid and its score is at most its index |
| QuizTrace.QuestionSetFixed | main.py:45-95 | once started, the user and the question set do not change until Restart is pressed |
| QuizTrace.SingleQuestionScenario | main.py:18-111 | one Beginner question "2+2?" answered "4" by Ann with "All": one question set, score 1, results page, band "Excellent" |

## Left out

- Rendering: titles, text input, select boxes, radio buttons, the progress
  bar, warning/success/info boxes and the review layout (main.py:20-26,
  61-79, 100-122). The model keeps only what they decide: the selected
  values become parameters and the warnings become `StartError` values.
- `st.rerun()` and `st.stop()` control flow: each rerun is one discrete step
  (`QuizTrace.Step`); a rerun without a button press leaves the state as it is.
- Loading `quiz_data.json` (main.py:6-7): file I/O; the bank is a given
  sequence of records. Records missing `question`, `options` or
  `correct_answer` (a `KeyError` in the script) are not representable.
- The per-key initialisation guard (main.py:10-16) is modelled only for the
  first run, where both keys are absent; later reruns find them set and do
  nothing.
- The floating-point progress fraction (main.py:65): display only;
  `QuizSession.Progress` states the integer facts behind it.
- The randomness of `random.sample` (main.py:51): a foreign library call; the
  draw is a parameter constrained to what the call promises.
- The PDF download buttons and file reads (main.py:133-154) and the footer
  links (main.py:158-167): I/O with no logic.
- Keys that are present but hold JSON `null` or a non-string value are not
  represented: the model's `level` and `topic` are either a string or
  missing, and `correct_answer` is always a string. In the script,
  `"topic": null` or `"level": null` is shown as `None` rather than the
  default (main.py:74, 87-88), and `"correct_answer": null` on a question
  with no options scores a point, since `None == None` (main.py:92).
- Validation that a record's `correct_answer` is among its `options`: the
  script does not do it, and neither does the model.
