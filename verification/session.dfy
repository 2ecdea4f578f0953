/** The quiz session: the five values the script keeps between reruns and the
    transitions its buttons drive. */
module QuizSession {
  import opened Wrappers
  import opened Bank
  import Text
  import Grading

  /** What the setup form records once the quiz starts. `name` is kept as
      typed, surrounding whitespace included. */
  datatype UserInfo = UserInfo(name: string, level: Level)

  /** One reviewed answer. `userAnswer` is the radio selection, absent when
      the question offered no options. `level` and `topic` fall back to
      "N/A" and "General" when the bank record lacks them. */
  datatype AnswerRecord = AnswerRecord(
    question: string,
    userAnswer: Option<string>,
    correctAnswer: string,
    level: string,
    topic: string)

  /** The session state: `user_info`, `q_index`, `score`, `answers` and
      `filtered_data`. */
  datatype Session = Session(
    userInfo: Option<UserInfo>,
    qIndex: nat,
    score: nat,
    answers: seq<AnswerRecord>,
    filteredData: seq<Question>)

  /** The three pages of the script; which one shows is decided by the state
      alone. */
  datatype Phase = Setup | Questions | Results

  function PhaseOf(s: Session): Phase {
    if s.userInfo.None? then Setup
    else if s.qIndex < |s.filteredData| then Questions
    else Results
  }

  /** The state a fresh session starts in, before any button is pressed. */
  function Init(): (s: Session)
    ensures PhaseOf(s) == Setup
  {
    Session(None, 0, 0, [], [])
  }

  /** The record the Next button appends for question `q`. */
  function Record(q: Question, answer: Option<string>): AnswerRecord {
    AnswerRecord(q.text, answer, q.correctAnswer, q.level.GetOr("N/A"), q.topic.GetOr("General"))
  }

  /** A record is shown as correct when the user's answer equals the correct one;
      an absent answer never does. */
  predicate IsCorrect(a: AnswerRecord) {
    a.userAnswer == Some(a.correctAnswer)
  }

  /** The number of records the review marks correct. */
  function CountCorrect(answers: seq<AnswerRecord>): (n: nat)
    ensures n <= |answers|
    ensures n == |answers| <==> forall i :: 0 <= i < |answers| ==> IsCorrect(answers[i])
  {
    if |answers| == 0 then 0
    else
      var init := answers[..|answers| - 1];
      var n := CountCorrect(init) + if IsCorrect(answers[|answers| - 1]) then 1 else 0;
      assert forall i :: 0 <= i < |init| ==> init[i] == answers[i];
      n
  }

  /** The invariant every reachable state keeps, relative to the question
      bank the script loaded. */
  predicate Valid(bank: seq<Question>, s: Session) {
    // one record per question answered so far, and no more questions than chosen
    && |s.answers| == s.qIndex <= |s.filteredData|
    // record i is the answer to question i
    && (forall i :: 0 <= i < |s.answers| ==>
          s.answers[i] == Record(s.filteredData[i], s.answers[i].userAnswer))
    // the score is the number of records the review marks correct
    && s.score == CountCorrect(s.answers)
    // the setup page holds nothing else
    && (s.userInfo.None? ==> s.qIndex == 0 && s.answers == [] && s.filteredData == [])
    // a started quiz has questions, all from the bank at the chosen level
    && (s.userInfo.Some? ==>
          && |s.filteredData| > 0
          && (forall q :: q in s.filteredData ==> q in bank && AtLevel(q, s.userInfo.value.level))
          && multiset(s.filteredData) <= multiset(bank))
  }

  lemma InitValid(bank: seq<Question>)
    ensures Valid(bank, Init())
  {
  }

  /** The score never exceeds the number of questions answered, nor the number
      of questions chosen. */
  lemma ScoreBounded(bank: seq<Question>, s: Session)
    requires Valid(bank, s)
    ensures s.score <= s.qIndex <= |s.filteredData|
  {
  }

  // ---- Setup page ----

  /** The question count chosen on the setup form: "All" or one of 1..N. */
  datatype Limit = All | Take(n: nat)

  datatype StartError =
    | NoQuestions(level: Level)  // the selected level has no questions; the page stops
    | EmptyName                  // the name is blank after stripping

  /** The state after pressing Start, and the warning shown if it was refused. */
  datatype StartResult = StartResult(next: Session, error: Option<StartError>)

  /** The form offers exactly "All" and 1..available, and a numeric choice
      comes with a draw of that many distinct positions from the random source. */
  predicate Offered(limit: Limit, draw: seq<nat>, available: nat) {
    match limit
    case All => true
    case Take(n) => 1 <= n <= available && IsDraw(draw, n, available)
  }

  /** Pressing Start on the setup page with `name`, `level` and `limit`
      selected. When the level has no questions the page stops before the
      rest of the form is shown; otherwise a blank name is refused; otherwise
      the user is recorded and the question set chosen. `q_index`, `score`
      and `answers` are left as they are. */
  function Start(s: Session, bank: seq<Question>, name: string, level: Level,
                 limit: Limit, draw: seq<nat>): (r: StartResult)
    requires s.userInfo.None?
    requires |FilterByLevel(bank, level)| > 0 ==> Offered(limit, draw, |FilterByLevel(bank, level)|)
    ensures |FilterByLevel(bank, level)| == 0 ==>
      r.next == s && r.error == Some(NoQuestions(level))
    ensures |FilterByLevel(bank, level)| > 0 && Text.AllSpace(name) ==>
      r.next == s && r.error == Some(EmptyName)
    ensures r.error.None? <==> |FilterByLevel(bank, level)| > 0 && !Text.AllSpace(name)
    ensures r.error.None? ==>
      && r.next.userInfo == Some(UserInfo(name, level))
      && r.next.qIndex == s.qIndex && r.next.score == s.score && r.next.answers == s.answers
    ensures r.error.None? && limit.All? ==> r.next.filteredData == FilterByLevel(bank, level)
    ensures r.error.None? && limit.Take? ==>
      && |r.next.filteredData| == limit.n
      && (forall q :: q in r.next.filteredData ==> q in bank && AtLevel(q, level))
      && multiset(r.next.filteredData) <= multiset(FilterByLevel(bank, level))
  {
    var levelData := FilterByLevel(bank, level);
    if |levelData| == 0 then StartResult(s, Some(NoQuestions(level)))
    else
      Text.StripEmptyIffAllSpace(name);
      if Text.Strip(name) == "" then StartResult(s, Some(EmptyName))
      else
        var chosen := ChooseQuestions(bank, level, limit, draw);
        StartResult(s.(userInfo := Some(UserInfo(name, level)), filteredData := chosen), None)
  }

  /** The question set for the chosen limit: the whole level, in bank order,
      for "All"; otherwise the records at the drawn positions of the level. */
  function ChooseQuestions(bank: seq<Question>, level: Level, limit: Limit, draw: seq<nat>): (r: seq<Question>)
    requires Offered(limit, draw, |FilterByLevel(bank, level)|)
    ensures limit.All? ==> r == FilterByLevel(bank, level)
    ensures limit.Take? ==> |r| == limit.n
    ensures forall q :: q in r ==> q in bank && AtLevel(q, level)
    ensures multiset(r) <= multiset(FilterByLevel(bank, level))
  {
    match limit
    case All =>
      FilterMembers(bank, level);
      FilterByLevel(bank, level)
    case Take(n) =>
      SampleAtLevel(bank, level, draw, n);
      Sample(FilterByLevel(bank, level), draw)
  }

  /** Start keeps the invariant, and a successful start opens the question page
      at the first question with nothing answered and nothing scored. */
  lemma StartPreservesValid(s: Session, bank: seq<Question>, name: string, level: Level,
                            limit: Limit, draw: seq<nat>)
    requires Valid(bank, s) && s.userInfo.None?
    requires |FilterByLevel(bank, level)| > 0 ==> Offered(limit, draw, |FilterByLevel(bank, level)|)
    ensures Valid(bank, Start(s, bank, name, level, limit, draw).next)
    ensures Start(s, bank, name, level, limit, draw).error.None? ==>
      var n := Start(s, bank, name, level, limit, draw).next;
      PhaseOf(n) == Questions && n.qIndex == 0 && n.score == 0 && n.answers == []
    ensures Start(s, bank, name, level, limit, draw).error.Some? ==>
      PhaseOf(Start(s, bank, name, level, limit, draw).next) == Setup
  {
    var r := Start(s, bank, name, level, limit, draw);
    if r.error.None? {
      FilterSubMultiset(bank, level);
      if limit.Take? {
        assert |r.next.filteredData| == limit.n >= 1;
      }
    }
  }

  // ---- Question page ----

  /** The question page is showing. */
  predicate InQuestions(s: Session) {
    PhaseOf(s) == Questions
  }

  /** The question on screen: `filtered_data[q_index]`. */
  function CurrentQuestion(s: Session): (q: Question)
    requires InQuestions(s)
    ensures q in s.filteredData
  {
    s.filteredData[s.qIndex]
  }

  /** The progress bar's numerator and denominator. The denominator is never
      zero on the question page, and the fraction stays below one. */
  function Progress(s: Session): (p: (nat, nat))
    requires InQuestions(s)
    ensures 0 <= p.0 < p.1
  {
    (s.qIndex, |s.filteredData|)
  }

  /** Pressing Next with `answer` selected: append the record, add one to the
      score exactly when the answer is the correct one, and move to the next
      question. Nothing else changes. */
  function Next(s: Session, answer: Option<string>): (r: Session)
    requires InQuestions(s)
    ensures r.answers == s.answers + [Record(CurrentQuestion(s), answer)]
    ensures r.score == s.score + 1 <==> answer == Some(CurrentQuestion(s).correctAnswer)
    ensures r.score == s.score <==> answer != Some(CurrentQuestion(s).correctAnswer)
    ensures r.qIndex == s.qIndex + 1
    ensures r.userInfo == s.userInfo && r.filteredData == s.filteredData
  {
    var q := s.filteredData[s.qIndex];
    var score := if answer == Some(q.correctAnswer) then s.score + 1 else s.score;
    s.(answers := s.answers + [Record(q, answer)], score := score, qIndex := s.qIndex + 1)
  }

  /** Counting the correct records of a list extended by one record. */
  lemma CountCorrectAppend(answers: seq<AnswerRecord>, a: AnswerRecord)
    ensures CountCorrect(answers + [a]) == CountCorrect(answers) + if IsCorrect(a) then 1 else 0
  {
    assert (answers + [a])[..|answers|] == answers;
  }

  /** Next keeps the invariant: one more record, for the question that was on
      screen, and a score that still counts the correct records. */
  lemma NextPreservesValid(bank: seq<Question>, s: Session, answer: Option<string>)
    requires Valid(bank, s) && InQuestions(s)
    ensures Valid(bank, Next(s, answer))
  {
    var r := Next(s, answer);
    CountCorrectAppend(s.answers, Record(CurrentQuestion(s), answer));
    forall i | 0 <= i < |r.answers|
      ensures r.answers[i] == Record(r.filteredData[i], r.answers[i].userAnswer)
    {
      if i < |s.answers| {
        assert r.answers[i] == s.answers[i];
      }
    }
  }

  /** Counting the correct records of a list extended at the front. */
  lemma {:induction false} CountCorrectPrepend(a: AnswerRecord, rest: seq<AnswerRecord>)
    ensures CountCorrect([a] + rest) == (if IsCorrect(a) then 1 else 0) + CountCorrect(rest)
    decreases |rest|
  {
    if |rest| > 0 {
      var init := rest[..|rest| - 1];
      CountCorrectPrepend(a, init);
      assert ([a] + rest)[..|rest|] == [a] + init;
    }
  }

  /** What answering `picks` in turn from `s` leaves in `r`: the earlier
      records stay, record j of the new ones is pick j for the j-th remaining
      question, and the score grows by the number of new records that are
      correct. */
  predicate AnsweredInTurn(s: Session, picks: seq<Option<string>>, r: Session)
    requires s.qIndex + |picks| <= |s.filteredData|
  {
    && r.qIndex == s.qIndex + |picks|
    && r.userInfo == s.userInfo && r.filteredData == s.filteredData
    && |r.answers| == |s.answers| + |picks|
    && r.answers[..|s.answers|] == s.answers
    && (forall j :: 0 <= j < |picks| ==>
          r.answers[|s.answers| + j] == Record(s.filteredData[s.qIndex + j], picks[j]))
    && r.score == s.score + CountCorrect(r.answers[|s.answers|..])
  }

  /** Answering the remaining questions in turn with `picks`. */
  function AnswerEach(s: Session, picks: seq<Option<string>>): (r: Session)
    requires s.userInfo.Some?
    requires s.qIndex + |picks| <= |s.filteredData|
    ensures AnsweredInTurn(s, picks, r)
    decreases |picks|
  {
    if |picks| == 0 then
      assert s.answers[|s.answers|..] == [];
      s
    else
      var r := AnswerEach(Next(s, picks[0]), picks[1..]);
      AnsweredInTurnStep(s, picks, r);
      r
  }

  /** The step of AnswerEach: answering the first pick with Next and the rest
      in turn afterwards is answering all of them in turn. */
  lemma AnsweredInTurnStep(s: Session, picks: seq<Option<string>>, r: Session)
    requires s.userInfo.Some? && 0 < |picks| && s.qIndex + |picks| <= |s.filteredData|
    requires AnsweredInTurn(Next(s, picks[0]), picks[1..], r)
    ensures AnsweredInTurn(s, picks, r)
  {
    var n := Next(s, picks[0]);
    var k := |s.answers|;
    assert r.answers[..k] == s.answers by {
      assert r.answers[..k] == r.answers[..k + 1][..k];
    }
    assert r.answers[k] == Record(s.filteredData[s.qIndex], picks[0]) by {
      assert r.answers[k] == r.answers[..k + 1][k];
    }
    forall j | 1 <= j < |picks|
      ensures r.answers[k + j] == Record(s.filteredData[s.qIndex + j], picks[j])
    {
      assert r.answers[k + j] == r.answers[|n.answers| + (j - 1)];
      assert picks[j] == picks[1..][j - 1];
    }
    assert r.answers[k..] == [r.answers[k]] + r.answers[k + 1..];
    CountCorrectPrepend(r.answers[k], r.answers[k + 1..]);
  }

  /** Once started, the quiz stays on the question page until the last
      question is answered, and shows the results after exactly as many Next
      presses as there are questions; the invariant holds throughout. */
  lemma {:induction false} AnswerEachPhase(bank: seq<Question>, s: Session, picks: seq<Option<string>>)
    requires Valid(bank, s) && s.userInfo.Some?
    requires s.qIndex + |picks| <= |s.filteredData|
    ensures Valid(bank, AnswerEach(s, picks))
    ensures s.qIndex + |picks| < |s.filteredData| ==> PhaseOf(AnswerEach(s, picks)) == Questions
    ensures s.qIndex + |picks| == |s.filteredData| ==> PhaseOf(AnswerEach(s, picks)) == Results
    decreases |picks|
  {
    if |picks| > 0 {
      NextPreservesValid(bank, s, picks[0]);
      AnswerEachPhase(bank, Next(s, picks[0]), picks[1..]);
    }
  }

  // ---- Results page ----

  /** What the results page shows: the user, the score out of the total, the
      band, and a correct/wrong flag per answer in answering order. */
  datatype Summary = Summary(
    user: UserInfo, score: nat, total: nat, band: Grading.Band, review: seq<bool>)

  function Summarize(s: Session): (m: Summary)
    requires PhaseOf(s) == Results
    ensures |m.review| == |s.answers|
    ensures forall i :: 0 <= i < |m.review| ==> (m.review[i] <==> IsCorrect(s.answers[i]))
  {
    var review := seq(|s.answers|, i requires 0 <= i < |s.answers| => IsCorrect(s.answers[i]));
    Summary(s.userInfo.value, s.score, |s.filteredData|,
            Grading.GradeBand(s.score, |s.filteredData|), review)
  }

  /** The number of true flags. */
  function CountTrue(flags: seq<bool>): nat {
    if |flags| == 0 then 0
    else CountTrue(flags[..|flags| - 1]) + if flags[|flags| - 1] then 1 else 0
  }

  lemma {:induction false} CountTrueMatchesCorrect(answers: seq<AnswerRecord>, flags: seq<bool>)
    requires |flags| == |answers|
    requires forall i :: 0 <= i < |flags| ==> (flags[i] <==> IsCorrect(answers[i]))
    ensures CountTrue(flags) == CountCorrect(answers)
  {
    if |flags| > 0 {
      CountTrueMatchesCorrect(answers[..|answers| - 1], flags[..|flags| - 1]);
    }
  }

  /** On the results page of a valid session, every question was answered,
      the score shown is the number of answers the review marks correct, and
      the band is "Excellent" exactly when every answer is marked correct. */
  lemma ResultsAgreeWithReview(bank: seq<Question>, s: Session)
    requires Valid(bank, s) && PhaseOf(s) == Results
    ensures |Summarize(s).review| == Summarize(s).total == s.qIndex > 0
    ensures Summarize(s).score == CountTrue(Summarize(s).review) <= Summarize(s).total
    ensures Summarize(s).band == Grading.Excellent <==>
      forall i :: 0 <= i < |Summarize(s).review| ==> Summarize(s).review[i]
  {
    CountTrueMatchesCorrect(s.answers, Summarize(s).review);
  }

  // ---- Restart ----

  /** Pressing Restart: every value goes back to its initial one. */
  function Restart(s: Session): (r: Session)
    ensures PhaseOf(r) == Setup
  {
    Init()
  }

  /** Restarting yields the state of a fresh session, whatever came before, so
      it is idempotent and keeps the invariant. */
  lemma RestartIsFresh(bank: seq<Question>, s: Session)
    ensures Restart(s) == Init()
    ensures Restart(Restart(s)) == Restart(s)
    ensures Valid(bank, Restart(s))
  {
  }
}
