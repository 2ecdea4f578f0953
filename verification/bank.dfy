/** The question bank: its records, the per-level filter and the sampled subset. */
module Bank {
  import opened Wrappers

  /** The three levels the setup form offers, in the order it lists them. */
  datatype Level = Beginner | Intermediate | Advanced {
    /** The string the form hands back and the bank stores. */
    function Name(): string {
      match this
      case Beginner => "Beginner"
      case Intermediate => "Intermediate"
      case Advanced => "Advanced"
    }
  }

  /** One record of the bank. `level` and `topic` are optional keys of the
      record; `question`, `options` and `correct_answer` are required ones. */
  datatype Question = Question(
    text: string,
    options: seq<string>,
    correctAnswer: string,
    level: Option<string>,
    topic: Option<string>)

  /** The record's `level` key equals the selected level's name. A record
      without that key never matches. */
  predicate AtLevel(q: Question, level: Level) {
    q.level == Some(level.Name())
  }

  /** `[q for q in bank if q.get("level") == level]`. */
  function FilterByLevel(bank: seq<Question>, level: Level): (r: seq<Question>)
    ensures |r| <= |bank|
  {
    if |bank| == 0 then []
    else
      var init := FilterByLevel(bank[..|bank| - 1], level);
      if AtLevel(bank[|bank| - 1], level) then init + [bank[|bank| - 1]] else init
  }

  /** The filter holds a record exactly when the bank does and the record is
      at the level. */
  lemma {:induction false} FilterMembers(bank: seq<Question>, level: Level)
    ensures forall q :: q in FilterByLevel(bank, level) <==> q in bank && AtLevel(q, level)
  {
    if |bank| > 0 {
      var prefix := bank[..|bank| - 1];
      FilterMembers(prefix, level);
      assert bank == prefix + [bank[|bank| - 1]];
    }
  }

  /** The filter never repeats a record more often than the bank holds it. */
  lemma {:induction false} FilterSubMultiset(bank: seq<Question>, level: Level)
    ensures multiset(FilterByLevel(bank, level)) <= multiset(bank)
  {
    if |bank| > 0 {
      var prefix := bank[..|bank| - 1];
      FilterSubMultiset(prefix, level);
      assert bank == prefix + [bank[|bank| - 1]];
    }
  }

  /** The positions of the bank whose records are at `level`, ascending. */
  function MatchingPositions(bank: seq<Question>, level: Level): (r: seq<nat>)
    ensures |r| == |FilterByLevel(bank, level)|
  {
    if |bank| == 0 then []
    else
      var init := MatchingPositions(bank[..|bank| - 1], level);
      if AtLevel(bank[|bank| - 1], level) then init + [|bank| - 1] else init
  }

  /** `out` lists `bank` at the positions `idx`, and `idx` ascends strictly:
      `out` is `bank` with some records left out and the rest in their
      original order. */
  predicate SelectsInOrder(bank: seq<Question>, idx: seq<nat>, out: seq<Question>) {
    && |idx| == |out|
    && (forall j :: 0 <= j < |idx| ==> idx[j] < |bank| && out[j] == bank[idx[j]])
    && (forall j, k :: 0 <= j < k < |idx| ==> idx[j] < idx[k])
  }

  /** The level filter keeps exactly the records at the level, in bank order:
      it selects the bank at ascending positions, and a position is selected
      if and only if its record is at the level. */
  lemma {:induction false} FilterKeepsExactlyInOrder(bank: seq<Question>, level: Level)
    ensures SelectsInOrder(bank, MatchingPositions(bank, level), FilterByLevel(bank, level))
    ensures forall i :: 0 <= i < |bank| ==>
      (AtLevel(bank[i], level) <==> i in MatchingPositions(bank, level))
  {
    if |bank| > 0 {
      var prefix := bank[..|bank| - 1];
      FilterKeepsExactlyInOrder(prefix, level);
      SelectionExtends(bank, level);
      var idx := MatchingPositions(bank, level);
      forall i | 0 <= i < |bank|
        ensures AtLevel(bank[i], level) <==> i in idx
      {
        if i < |prefix| {
          assert bank[i] == prefix[i];
        }
      }
    }
  }

  /** The step of the induction above: a selection of the bank without its
      last record stays a selection once the last record is considered. */
  lemma SelectionExtends(bank: seq<Question>, level: Level)
    requires |bank| > 0
    requires SelectsInOrder(bank[..|bank| - 1], MatchingPositions(bank[..|bank| - 1], level),
                            FilterByLevel(bank[..|bank| - 1], level))
    ensures SelectsInOrder(bank, MatchingPositions(bank, level), FilterByLevel(bank, level))
  {
    var prefix := bank[..|bank| - 1];
    var pidx := MatchingPositions(prefix, level);
    var pf := FilterByLevel(prefix, level);
    var idx := MatchingPositions(bank, level);
    var f := FilterByLevel(bank, level);
    forall j | 0 <= j < |pidx|
      ensures idx[j] == pidx[j] && f[j] == pf[j] && pf[j] == bank[pidx[j]]
    {
    }
    if AtLevel(bank[|bank| - 1], level) {
      assert idx == pidx + [|bank| - 1];
      assert f == pf + [bank[|bank| - 1]];
    } else {
      assert idx == pidx && f == pf;
    }
  }

  /** What `random.sample(population, n)` promises: `n` distinct positions of
      a population of `size` records. Which positions is up to the random
      source. */
  predicate IsDraw(draw: seq<nat>, n: nat, size: nat) {
    && |draw| == n
    && (forall j :: 0 <= j < |draw| ==> draw[j] < size)
    && (forall j, k :: 0 <= j < k < |draw| ==> draw[j] != draw[k])
  }

  /** The sample that `draw` selects from `population`. */
  function Sample(population: seq<Question>, draw: seq<nat>): (r: seq<Question>)
    requires IsDraw(draw, |draw|, |population|)
    ensures |r| == |draw|
    ensures forall j :: 0 <= j < |r| ==> r[j] in population
  {
    seq(|draw|, j requires 0 <= j < |draw| => population[draw[j]])
  }

  /** Drawing without replacement: no record occurs in the sample more often
      than in the population it was drawn from. */
  lemma {:induction false} SampleWithoutReplacement(population: seq<Question>, draw: seq<nat>)
    requires IsDraw(draw, |draw|, |population|)
    ensures multiset(Sample(population, draw)) <= multiset(population)
    decreases |draw|
  {
    if |draw| > 0 {
      var d := draw[|draw| - 1];
      SampleStep(population, draw);
      SampleWithoutReplacement(Without(population, d), ShiftPast(draw[..|draw| - 1], d));
    }
  }

  /** `population` with position `d` removed. */
  function Without(population: seq<Question>, d: nat): (r: seq<Question>)
    requires d < |population|
    ensures multiset(population) == multiset(r) + multiset{population[d]}
  {
    assert population == population[..d] + [population[d]] + population[d + 1..];
    population[..d] + population[d + 1..]
  }

  /** Every position above `d` moved down by one, as when position `d` is
      removed from the population. */
  function ShiftPast(draw: seq<nat>, d: nat): (r: seq<nat>)
    ensures |r| == |draw|
    ensures forall j :: 0 <= j < |draw| ==> r[j] == if draw[j] > d then draw[j] - 1 else draw[j]
  {
    seq(|draw|, j requires 0 <= j < |draw| => if draw[j] > d then draw[j] - 1 else draw[j])
  }

  /** The step of the induction above: the last drawn record, together with
      the other draws taken from the population without the last drawn
      position, makes up the sample. */
  lemma SampleStep(population: seq<Question>, draw: seq<nat>)
    requires IsDraw(draw, |draw|, |population|) && |draw| > 0
    ensures var d := draw[|draw| - 1];
      var rest := Without(population, d);
      var draw' := ShiftPast(draw[..|draw| - 1], d);
      && IsDraw(draw', |draw'|, |rest|)
      && multiset(Sample(population, draw)) == multiset(Sample(rest, draw')) + multiset{population[d]}
  {
    var d := draw[|draw| - 1];
    var rest := Without(population, d);
    var draw' := ShiftPast(draw[..|draw| - 1], d);
    forall j | 0 <= j < |draw'|
      ensures draw'[j] < |rest| && rest[draw'[j]] == population[draw[j]]
    {
      assert draw[j] != d;
    }
    assert Sample(population, draw) == Sample(rest, draw') + [population[d]];
  }

  /** A sample of `n` records drawn without replacement from the records at
      `level` is as long as asked, holds only bank records at that level, and
      repeats no record more often than the level's records do. */
  lemma SampleAtLevel(bank: seq<Question>, level: Level, draw: seq<nat>, n: nat)
    requires IsDraw(draw, n, |FilterByLevel(bank, level)|)
    ensures |Sample(FilterByLevel(bank, level), draw)| == n
    ensures forall q :: q in Sample(FilterByLevel(bank, level), draw) ==>
      q in bank && AtLevel(q, level)
    ensures multiset(Sample(FilterByLevel(bank, level), draw)) <= multiset(FilterByLevel(bank, level))
  {
    FilterMembers(bank, level);
    SampleWithoutReplacement(FilterByLevel(bank, level), draw);
  }
}
