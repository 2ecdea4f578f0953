/** The session driven by a sequence of button presses. Each rerun of the
    script either handles the one button the current page offers or leaves the
    state alone; a press the current page does not offer changes nothing. */
module QuizTrace {
  import opened Wrappers
  import opened Bank
  import opened QuizSession
  import Grading

  datatype Event =
    | PressStart(name: string, level: Level, limit: Limit, draw: seq<nat>)
    | PressNext(answer: Option<string>)
    | PressRestart

  /** The page showing in `s` offers `e`: Start on the setup page (with a
      limit the form lists), Next on the question page, Restart on the
      results page. */
  predicate Offers(bank: seq<Question>, s: Session, e: Event) {
    match e
    case PressStart(_, level, limit, draw) =>
      && PhaseOf(s) == Setup
      && (|FilterByLevel(bank, level)| > 0 ==> Offered(limit, draw, |FilterByLevel(bank, level)|))
    case PressNext(_) => PhaseOf(s) == Questions
    case PressRestart => PhaseOf(s) == Results
  }

  function Step(bank: seq<Question>, s: Session, e: Event): (r: Session)
    ensures !Offers(bank, s, e) ==> r == s
    ensures e.PressRestart? && Offers(bank, s, e) ==> r == Init()
  {
    if !Offers(bank, s, e) then s
    else match e
      case PressStart(name, level, limit, draw) => Start(s, bank, name, level, limit, draw).next
      case PressNext(answer) => Next(s, answer)
      case PressRestart => Restart(s)
  }

  function Run(bank: seq<Question>, s: Session, events: seq<Event>): Session
    decreases |events|
  {
    if |events| == 0 then s else Run(bank, Step(bank, s, events[0]), events[1..])
  }

  /** Every step keeps the invariant. */
  lemma StepPreservesValid(bank: seq<Question>, s: Session, e: Event)
    requires Valid(bank, s)
    ensures Valid(bank, Step(bank, s, e))
  {
    if Offers(bank, s, e) {
      match e
      case PressStart(name, level, limit, draw) =>
        StartPreservesValid(s, bank, name, level, limit, draw);
      case PressNext(answer) =>
        NextPreservesValid(bank, s, answer);
      case PressRestart =>
        RestartIsFresh(bank, s);
    }
  }

  /** Every state reachable from a fresh session by any presses satisfies the
      invariant: as many records as questions answered, the score counting the
      correct records, and a question index within the chosen set. */
  lemma {:induction false} RunPreservesValid(bank: seq<Question>, s: Session, events: seq<Event>)
    requires Valid(bank, s)
    ensures Valid(bank, Run(bank, s, events))
    decreases |events|
  {
    if |events| > 0 {
      StepPreservesValid(bank, s, events[0]);
      RunPreservesValid(bank, Step(bank, s, events[0]), events[1..]);
    }
  }

  lemma ReachableValid(bank: seq<Question>, events: seq<Event>)
    ensures Valid(bank, Run(bank, Init(), events))
    ensures Run(bank, Init(), events).score <= Run(bank, Init(), events).qIndex
  {
    InitValid(bank);
    RunPreservesValid(bank, Init(), events);
  }

  /** Once started, the user and the question set stay fixed until Restart is
      pressed. */
  lemma {:induction false} QuestionSetFixed(bank: seq<Question>, s: Session, events: seq<Event>)
    requires s.userInfo.Some?
    requires forall i :: 0 <= i < |events| ==> !events[i].PressRestart?
    ensures Run(bank, s, events).userInfo == s.userInfo
    ensures Run(bank, s, events).filteredData == s.filteredData
    decreases |events|
  {
    if |events| > 0 {
      QuestionSetFixed(bank, Step(bank, s, events[0]), events[1..]);
    }
  }

  /** One Beginner question, "2+2?" with options "3" and "4", answered "4" by
      Ann after choosing all questions: one question is set, the score is one,
      the results page shows and the band is "Excellent". */
  lemma SingleQuestionScenario()
    ensures var q := Question("2+2?", ["3", "4"], "4", Some("Beginner"), None);
      var afterStart := Run([q], Init(), [PressStart("Ann", Beginner, All, [])]);
      var done := Run([q], Init(), [PressStart("Ann", Beginner, All, []), PressNext(Some("4"))]);
      && |afterStart.filteredData| == 1
      && done.score == 1
      && PhaseOf(done) == Results
      && Summarize(done).band == Grading.Excellent
  {
    var q := Question("2+2?", ["3", "4"], "4", Some("Beginner"), None);
    var bank := [q];
    assert bank[..0] == [];
    assert FilterByLevel(bank, Beginner) == [q];
    var e1 := PressStart("Ann", Beginner, All, []);
    var e2 := PressNext(Some("4"));
    assert !Text.AllSpace("Ann") by { assert !Text.IsSpace("Ann"[0]); }
    var s1 := Step(bank, Init(), e1);
    var r1 := Start(Init(), bank, "Ann", Beginner, All, []);
    assert s1 == r1.next;
    assert r1.error.None?;
    assert s1.filteredData == [q] && s1.qIndex == 0 && s1.score == 0;
    assert Run(bank, Init(), [e1]) == s1 by {
      assert [e1][1..] == [];
    }
    assert PhaseOf(s1) == Questions;
    assert Offers(bank, s1, e2);
    var s2 := Step(bank, s1, e2);
    assert s2 == Next(s1, e2.answer);
    assert s2.score == 1 && s2.qIndex == 1;
    assert Run(bank, s1, [e2]) == s2 by {
      assert [e2][1..] == [];
    }
    assert Run(bank, Init(), [e1, e2]) == Run(bank, s1, [e2]) by {
      assert [e1, e2][0] == e1 && [e1, e2][1..] == [e2];
    }
  }
}
