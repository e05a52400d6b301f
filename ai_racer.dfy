/** PlayerRacer (ai/racer.go:16-62): four criteria chained over the selection engine, then a
    random tie-break, and the lexicographic choice this makes. */
module Racer {
  import opened Wrappers
  import opened Points
  import opened Boards
  import opened Selection
  import opened Engine
  import opened Chains
  import Metrics
  import Risk

  // ---------------------------------------------------------------------------------------
  // The criteria

  const MinRisk: Label := "minProbabilityOfGettingBackgammoned"
  const MaxBorneOff: Label := "maxMyCheckersBorneOff"
  const MaxHome: Label := "maxMyCheckersAtHome"
  const MinFarthest: Label := "minHowFarAwayMyFarthestIs"

  /** The first criterion (ai/racer.go:24-36): the backgammon risk, computed by the same loop
      as probabilityOfGettingBackgammoned without its match-score test. */
  function RiskScore(b: Board): Int64 {
    Risk.RiskBound(b);
    Risk.BackgammonRisk(b) as Int64
  }

  /** The second criterion (ai/racer.go:41-47): the roller's borne-off checkers, on pip 0 for
      White and pip 25 for any other roller. */
  function BorneOffScore(b: Board): Int64 {
    NumCheckers(b.pips[BorneOffPip(b.roller)]) as Int64
  }

  lemma {:induction false} ScanSumBound(ps: seq<Point>, c: Checker)
    ensures Metrics.ScanSum(ps, c) <= Capacity * |ps|
  {
    if ps != [] {
      ScanSumBound(ps[..|ps| - 1], c);
    }
  }

  /** The third criterion (ai/racer.go:51-53): NumCheckersHome for the roller. */
  function HomeScore(b: Board): Int64 {
    var lo := Metrics.HomeLow(b.roller);
    ScanSumBound(b.pips[lo..lo + 6], b.roller);
    Metrics.ScanSum(b.pips[lo..lo + 6], b.roller) as Int64
  }

  /** The fourth criterion (ai/racer.go:57-59): PipCountOfFarthestChecker for the roller. */
  function FarthestScore(b: Board): Int64 {
    Metrics.Farthest(b, b.roller) as Int64
  }

  // ---------------------------------------------------------------------------------------
  // The chain

  /** The four rounds, in the order PlayerRacer runs them. */
  const StepRisk: Step<Board> := Step(MinRisk, RiskScore, Minimize)
  const StepBorneOff: Step<Board> := Step(MaxBorneOff, BorneOffScore, Maximize)
  const StepHome: Step<Board> := Step(MaxHome, HomeScore, Maximize)
  const StepFarthest: Step<Board> := Step(MinFarthest, FarthestScore, Minimize)
  const RacerSteps: seq<Step<Board>> := [StepRisk, StepBorneOff, StepHome, StepFarthest]

  lemma Tail3(r3: seq<AnalyzedBoard<Board>>, r4: seq<AnalyzedBoard<Board>>)
    requires r4 == Minmax(r3, MinFarthest, Lift(FarthestScore), Identity(Minimize), Minimize)
    ensures Chain(r3, RacerSteps[3..]) == r4
  {
    assert RacerSteps[3..] == [StepFarthest] + [];
    ChainStep(r3, StepFarthest, [], r4, r4);
  }

  lemma Tail2(r2: seq<AnalyzedBoard<Board>>, r3: seq<AnalyzedBoard<Board>>, r4: seq<AnalyzedBoard<Board>>)
    requires r3 == Minmax(r2, MaxHome, Lift(HomeScore), Identity(Maximize), Maximize)
    requires Chain(r3, RacerSteps[3..]) == r4
    ensures Chain(r2, RacerSteps[2..]) == r4
  {
    assert RacerSteps[2..] == [StepHome] + RacerSteps[3..];
    ChainStep(r2, StepHome, RacerSteps[3..], r3, r4);
  }

  lemma Tail1(r1: seq<AnalyzedBoard<Board>>, r2: seq<AnalyzedBoard<Board>>, r4: seq<AnalyzedBoard<Board>>)
    requires r2 == Minmax(r1, MaxBorneOff, Lift(BorneOffScore), Identity(Maximize), Maximize)
    requires Chain(r2, RacerSteps[2..]) == r4
    ensures Chain(r1, RacerSteps[1..]) == r4
  {
    assert RacerSteps[1..] == [StepBorneOff] + RacerSteps[2..];
    ChainStep(r1, StepBorneOff, RacerSteps[2..], r2, r4);
  }

  lemma Tail0(r0: seq<AnalyzedBoard<Board>>, r1: seq<AnalyzedBoard<Board>>, r4: seq<AnalyzedBoard<Board>>)
    requires r1 == Minmax(r0, MinRisk, Lift(RiskScore), Identity(Minimize), Minimize)
    requires Chain(r1, RacerSteps[1..]) == r4
    ensures Chain(r0, RacerSteps) == r4
  {
    assert RacerSteps == [StepRisk] + RacerSteps[1..];
    ChainStep(r0, StepRisk, RacerSteps[1..], r1, r4);
  }

  /** The four passes of PlayerRacer, one after the other, are the chain of its steps. */
  lemma Passes(r0: seq<AnalyzedBoard<Board>>, r1: seq<AnalyzedBoard<Board>>, r2: seq<AnalyzedBoard<Board>>,
               r3: seq<AnalyzedBoard<Board>>, r4: seq<AnalyzedBoard<Board>>)
    requires r1 == Minmax(r0, MinRisk, Lift(RiskScore), Identity(Minimize), Minimize)
    requires r2 == Minmax(r1, MaxBorneOff, Lift(BorneOffScore), Identity(Maximize), Maximize)
    requires r3 == Minmax(r2, MaxHome, Lift(HomeScore), Identity(Maximize), Maximize)
    requires r4 == Minmax(r3, MinFarthest, Lift(FarthestScore), Identity(Minimize), Minimize)
    ensures Chain(r0, RacerSteps) == r4
  {
    Tail3(r3, r4);
    Tail2(r2, r3, r4);
    Tail1(r1, r2, r4);
    Tail0(r0, r1, r4);
  }

  /** The list PlayerRacer returns: the four rounds, then shuffle's. */
  function Ranked(bs: seq<Board>, draws: nat -> Int64): seq<AnalyzedBoard<Board>> {
    var r4 := Chain(Converted(bs), RacerSteps);
    if |r4| > 1 then Minmax(r4, Randomizer, DrawCriterion(draws), Identity(Maximize), Maximize) else r4
  }

  /** PlayerRacer (ai/racer.go:16-62). The draws stand for the rand.Int63 calls of shuffle. */
  method PlayerRacer(choices: seq<Board>, draws: nat -> Int64) returns (result: Option<seq<AnalyzedBoard<Board>>>)
    ensures result.None? <==> |choices| == 1
    ensures result.Some? ==> result.value == Ranked(choices, draws)
  {
    if |choices| == 1 {
      return None;
    }
    var nextRound := Converter(choices);
    ghost var r0 := nextRound[..];
    Minimizer(MinRisk, nextRound, Lift(RiskScore));
    ghost var r1 := nextRound[..];
    Maximizer(MaxBorneOff, nextRound, Lift(BorneOffScore));
    ghost var r2 := nextRound[..];
    Maximizer(MaxHome, nextRound, Lift(HomeScore));
    ghost var r3 := nextRound[..];
    Minimizer(MinFarthest, nextRound, Lift(FarthestScore));
    Passes(r0, r1, r2, r3, nextRound[..]);
    Shuffle(nextRound, draws);
    return Some(nextRound[..]);
  }

  // ---------------------------------------------------------------------------------------
  // What the chain chooses

  const RacerKeys: set<Label> := Names(RacerSteps)

  lemma RacerFresh()
    ensures Fresh(RacerSteps, {})
    ensures RacerKeys == {MinRisk, MaxBorneOff, MaxHome, MinFarthest} && Randomizer !in RacerKeys
  {
    var k1: set<Label> := {MinRisk};
    var k2 := k1 + {MaxBorneOff};
    var k3 := k2 + {MaxHome};
    StepsCons(StepFarthest, [], k3);
    assert [StepFarthest] == [StepFarthest] + [];
    StepsCons(StepHome, [StepFarthest], k2);
    assert [StepHome, StepFarthest] == [StepHome] + [StepFarthest];
    StepsCons(StepBorneOff, [StepHome, StepFarthest], k1);
    assert [StepBorneOff, StepHome, StepFarthest] == [StepBorneOff] + [StepHome, StepFarthest];
    StepsCons(StepRisk, [StepBorneOff, StepHome, StepFarthest], {});
    assert RacerSteps == [StepRisk] + [StepBorneOff, StepHome, StepFarthest];
    assert {} + {MinRisk} == k1;
  }

  lemma ConvertedActive(bs: seq<Board>)
    ensures forall b :: ActiveBoard(Converted(bs), b) <==> b in bs
  {
    var r := Converted(bs);
    forall b | b in bs ensures ActiveBoard(r, b) {
      var i :| 0 <= i < |bs| && bs[i] == b;
      assert r[i].board == b;
    }
  }

  /** shuffle's round keeps the boards. */
  lemma Shuffled(bs: seq<Board>, draws: nat -> Int64)
    ensures var r := Ranked(bs, draws);
      && |r| == |bs|
      && multiset(BoardsOf(r)) == multiset(bs)
  {
    var r0 := Converted(bs);
    var r4 := Chain(r0, RacerSteps);
    RacerFresh();
    ChainKeeps(r0, RacerSteps, {});
    if |r4| > 1 {
      assert {} + RacerKeys == RacerKeys;
      Round(r4, Randomizer, DrawCriterion(draws), Maximize, RacerKeys);
    }
  }

  /** After the four rounds the first candidate is in play. */
  lemma ChainedFirst(bs: seq<Board>)
    requires bs != []
    ensures var r4 := Chain(Converted(bs), RacerSteps);
      && |r4| == |bs|
      && Tidy(r4) && KeysWithin(r4, RacerKeys)
      && !IsRuledOut(r4[0])
  {
    var r0 := Converted(bs);
    RacerFresh();
    ChainKeeps(r0, RacerSteps, {});
    assert AnyActive(r0) by { assert !IsRuledOut(r0[0]); }
    ChainFirst(r0, RacerSteps, {});
    assert {} + RacerKeys == RacerKeys;
  }

  /** shuffle's round leaves its first candidate in play, with a board in play after the four
      rounds. */
  lemma ShuffledFirst(bs: seq<Board>, draws: nat -> Int64)
    requires bs != []
    ensures var r := Ranked(bs, draws);
      && |r| == |bs|
      && !IsRuledOut(r[0])
      && ActiveBoard(Chain(Converted(bs), RacerSteps), r[0].board)
  {
    var r4 := Chain(Converted(bs), RacerSteps);
    ChainedFirst(bs);
    RacerFresh();
    if |r4| > 1 {
      assert AnyActive(r4) by { assert !IsRuledOut(r4[0]); }
      RoundFirst(r4, Randomizer, DrawCriterion(draws), Maximize, RacerKeys);
    } else {
      assert ActiveBoard(r4, r4[0].board);
    }
  }

  /** The racer keeps every candidate: the same number of boards, the same boards. */
  lemma RankedKeepsBoards(bs: seq<Board>, draws: nat -> Int64)
    ensures |Ranked(bs, draws)| == |bs|
    ensures multiset(BoardsOf(Ranked(bs, draws))) == multiset(bs)
  {
    Shuffled(bs, draws);
  }

  /** The racer's first candidate is in play, and its board is one of the choices that is at
      least as good as every choice under the four criteria in order; in particular no choice
      has a smaller backgammon risk. */
  lemma RankedFirstIsBest(bs: seq<Board>, draws: nat -> Int64)
    requires bs != []
    ensures var r := Ranked(bs, draws);
      && !IsRuledOut(r[0])
      && r[0].board in bs
      && (forall i :: 0 <= i < |bs| ==> AtLeastAsGood(RacerSteps, r[0].board, bs[i]))
      && (forall i :: 0 <= i < |bs| ==> RiskScore(r[0].board) <= RiskScore(bs[i]))
  {
    ShuffledFirst(bs, draws);
    var r0 := Converted(bs);
    var b0 := Ranked(bs, draws)[0].board;
    RacerFresh();
    ConvertedActive(bs);
    ChainSelects(r0, RacerSteps, {});
    forall i | 0 <= i < |bs|
      ensures AtLeastAsGood(RacerSteps, b0, bs[i]) && RiskScore(b0) <= RiskScore(bs[i])
    {
      assert bs[i] in bs;
      assert ActiveBoard(r0, bs[i]);
    }
  }
}
