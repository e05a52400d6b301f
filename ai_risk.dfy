/** probabilityOfGettingBackgammoned (ai/common.go:167-189) and the backgammon-risk score that
    PlayerRacer minimizes (ai/racer.go:24-36). */
module Risk {
  import opened Points
  import opened Boards
  import opened Selection

  /** White's risk over points 1..n: each White checker on point i weighs 7-i. */
  function WhiteRisk(b: Board, n: nat): nat
    requires n <= 6
  {
    if n == 0 then 0 else WhiteRisk(b, n - 1) + (7 - n) * NumWhite(b.pips[n])
  }

  /** Red's risk over points 19..18+n: each Red checker on point i weighs i-18. */
  function RedRisk(b: Board, n: nat): nat
    requires n <= 6
  {
    if n == 0 then 0 else RedRisk(b, n - 1) + n * NumRed(b.pips[18 + n])
  }

  /** The score both loops compute: White's checkers on points 1 to 6 when White rolls, Red's on
      points 19 to 24 for any other roller, each weighted by how deep it sits in the opponent's
      home board. */
  function BackgammonRisk(b: Board): nat {
    if b.roller == White then WhiteRisk(b, 6) else RedRisk(b, 6)
  }

  lemma {:induction false} WhiteRiskBound(b: Board, n: nat)
    requires n <= 6
    ensures WhiteRisk(b, n) <= 15 * (n * (13 - n) / 2)
  {
    if n > 0 {
      WhiteRiskBound(b, n - 1);
      assert NumWhite(b.pips[n]) <= 15;
      assert (n - 1) * (14 - n) / 2 + (7 - n) == n * (13 - n) / 2 by {
        assert (n - 1) * (14 - n) + 2 * (7 - n) == n * (13 - n);
      }
    }
  }

  lemma {:induction false} RedRiskBound(b: Board, n: nat)
    requires n <= 6
    ensures RedRisk(b, n) <= 15 * (n * (n + 1) / 2)
  {
    if n > 0 {
      RedRiskBound(b, n - 1);
      assert NumRed(b.pips[18 + n]) <= 15;
      assert (n - 1) * n / 2 + n == n * (n + 1) / 2 by {
        assert (n - 1) * n + 2 * n == n * (n + 1);
      }
    }
  }

  /** Fifteen checkers at most on each point: the risk never exceeds 15 * (6+5+4+3+2+1). */
  lemma RiskBound(b: Board)
    ensures BackgammonRisk(b) <= 315
  {
    WhiteRiskBound(b, 6);
    RedRiskBound(b, 6);
  }

  lemma {:induction false} WhiteRiskZero(b: Board, n: nat)
    requires n <= 6
    ensures WhiteRisk(b, n) == 0 <==> forall i :: 1 <= i <= n ==> NumWhite(b.pips[i]) == 0
  {
    if n > 0 {
      WhiteRiskZero(b, n - 1);
    }
  }

  lemma {:induction false} RedRiskZero(b: Board, n: nat)
    requires n <= 6
    ensures RedRisk(b, n) == 0 <==> forall i :: 19 <= i <= 18 + n ==> NumRed(b.pips[i]) == 0
  {
    if n > 0 {
      RedRiskZero(b, n - 1);
    }
  }

  /** No risk exactly when none of the roller's checkers sits in the opponent's home board. */
  lemma RiskZeroIff(b: Board)
    ensures BackgammonRisk(b) == 0 <==>
      if b.roller == White then forall i :: 1 <= i <= 6 ==> NumWhite(b.pips[i]) == 0
      else forall i :: 19 <= i <= 24 ==> NumRed(b.pips[i]) == 0
  {
    WhiteRiskZero(b, 6);
    RedRiskZero(b, 6);
  }

  /** The opponent's match score: Red's, unless Red is rolling. */
  function OtherScore(b: Board): int {
    if b.roller == Red then b.matchScore.whiteScore else b.matchScore.redScore
  }

  /** In a match the opponent would win by any loss, a backgammon costs no more than a single
      game. */
  predicate GameDecides(b: Board) {
    b.matchScore.goal > 0 && OtherScore(b) + 1 > b.matchScore.goal
  }

  /** probabilityOfGettingBackgammoned (ai/common.go:167-189). */
  method ProbabilityOfGettingBackgammoned(b: Board) returns (score: Int64)
    ensures GameDecides(b) ==> score == -1
    ensures !GameDecides(b) ==> score as int == BackgammonRisk(b)
  {
    if b.matchScore.goal > 0 {
      var otherPlayerScore := b.matchScore.redScore;
      if b.roller == Red {
        otherPlayerScore := b.matchScore.whiteScore;
      }
      if otherPlayerScore + 1 > b.matchScore.goal {
        return -1;
      }
    }
    if b.roller == White {
      score := WhiteRiskLoop(b);
    } else {
      score := RedRiskLoop(b);
    }
  }

  /** The loop over White's points 1 to 6 (ai/common.go:180-182). */
  method WhiteRiskLoop(b: Board) returns (score: Int64)
    ensures score as int == WhiteRisk(b, 6)
  {
    score := 0;
    for i := 1 to 7
      invariant score as int == WhiteRisk(b, i - 1)
    {
      WhiteRiskBound(b, i);
      score := score + (7 - i as Int64) * NumWhite(b.pips[i]) as Int64;
    }
  }

  /** The loop over Red's points 19 to 24 (ai/common.go:185-187). */
  method RedRiskLoop(b: Board) returns (score: Int64)
    ensures score as int == RedRisk(b, 6)
  {
    score := 0;
    for i := 19 to 25
      invariant score as int == RedRisk(b, i - 19)
    {
      RedRiskBound(b, i - 18);
      score := score + (i as Int64 - 18) * NumRed(b.pips[i]) as Int64;
    }
  }
}
