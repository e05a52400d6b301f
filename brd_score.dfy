/** The match score of brd/score.go. The zero score means a money game with the Crawford rule on. */
module Scores {
  import opened Points

  datatype Score = Score(
    whiteScore: int,
    redScore: int,
    noCrawfordRule: bool,
    alreadyPlayedCrawfordGame: bool,
    goal: int)

  /** The zero value: no match, Crawford rule on. */
  const Zero := Score(0, 0, false, false, 0)

  /** Score.Equals (brd/score.go:17-34): every field compared, in the source's order. */
  function Equals(s: Score, o: Score): (same: bool)
    ensures same <==> s == o
  {
    if s.whiteScore != o.whiteScore then false
    else if s.redScore != o.redScore then false
    else if s.noCrawfordRule != o.noCrawfordRule then false
    else if s.alreadyPlayedCrawfordGame != o.alreadyPlayedCrawfordGame then false
    else s.goal == o.goal
  }

  /** Score.Update (brd/score.go:52-61): the victor gains the stakes. The source panics on any
      other victor or on stakes below one; here those are the precondition. */
  function Update(s: Score, victor: Checker, stakes: int): (r: Score)
    requires victor == White || victor == Red
    requires stakes >= 1
    ensures r.whiteScore + r.redScore == s.whiteScore + s.redScore + stakes
    ensures victor == White ==> r.whiteScore > s.whiteScore && r.redScore == s.redScore
    ensures victor == Red ==> r.redScore > s.redScore && r.whiteScore == s.whiteScore
    ensures r.noCrawfordRule == s.noCrawfordRule && r.goal == s.goal
    ensures r.alreadyPlayedCrawfordGame == s.alreadyPlayedCrawfordGame
  {
    if victor == White then s.(whiteScore := s.whiteScore + stakes)
    else s.(redScore := s.redScore + stakes)
  }

  /** Score.CrawfordRuleAppliesNextGame (brd/score.go:63-68). */
  function CrawfordRuleAppliesNextGame(s: Score): (applies: bool)
    ensures applies ==> !s.noCrawfordRule && !s.alreadyPlayedCrawfordGame
    ensures applies ==> s.goal - 1 == s.whiteScore || s.goal - 1 == s.redScore
  {
    if s.noCrawfordRule || s.alreadyPlayedCrawfordGame then false
    else s.redScore + 1 == s.goal || s.whiteScore + 1 == s.goal
  }

  /** The Crawford game is played at most once: once it has been played, winning more points
      never brings the rule back. */
  lemma CrawfordOnlyOnce(s: Score, victor: Checker, stakes: int)
    requires victor == White || victor == Red
    requires stakes >= 1
    requires s.alreadyPlayedCrawfordGame
    ensures !CrawfordRuleAppliesNextGame(Update(s, victor, stakes))
  {
  }

  /** When the Crawford rule is on and not yet used, a win that leaves the victor exactly one
      point short of the goal makes the next game the Crawford game. */
  lemma CrawfordAfterWin(s: Score, victor: Checker, stakes: int)
    requires victor == White || victor == Red
    requires stakes >= 1
    requires !s.noCrawfordRule && !s.alreadyPlayedCrawfordGame
    requires victor == White ==> s.whiteScore + stakes == s.goal - 1
    requires victor == Red ==> s.redScore + stakes == s.goal - 1
    ensures CrawfordRuleAppliesNextGame(Update(s, victor, stakes))
  {
  }
}
