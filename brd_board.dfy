/** The Board of brd/brd.go: its layout, equality, validity, and the end-of-turn state machine. */
module Boards {
  import opened Wrappers
  import opened Points
  import Rolls
  import Scores

  /** Pip indices: 0 holds White's borne-off checkers, 1 to 24 are the points, 25 holds Red's
      borne-off checkers, 26 is White's bar and 27 Red's bar. */
  const BorneOffWhitePip := 0
  const BorneOffRedPip := 25
  const BarWhitePip := 26
  const BarRedPip := 27
  const NumPips := 28

  type Pips = s: seq<Point> | |s| == NumPips witness seq(NumPips, i => Empty)

  datatype Board = Board(
    roll: Rolls.Roll,
    rollUsed: Rolls.Roll,
    roller: Checker,
    stakes: int,
    matchScore: Scores.Score,
    whiteCanDouble: bool,
    redCanDouble: bool,
    pips: Pips)

  /** The bar on which checkers of `c` wait to re-enter. */
  function BarPip(c: Checker): nat {
    if c == Red then BarRedPip else BarWhitePip
  }

  /** The pip that collects the borne-off checkers of `c`. */
  function BorneOffPip(c: Checker): nat {
    if c == White then BorneOffWhitePip else BorneOffRedPip
  }

  // ---------------------------------------------------------------------------------------
  // Checker counts over the whole board

  /** Number of checkers of colour `c` on all the given pips. */
  function SumCount(ps: seq<Point>, c: Checker): nat {
    if ps == [] then 0 else SumCount(ps[..|ps| - 1], c) + Count(ps[|ps| - 1], c)
  }

  /** Replacing one pip changes the total by the difference of that pip's counts. */
  lemma {:induction false} SumCountUpdate(ps: seq<Point>, i: nat, q: Point, c: Checker)
    requires i < |ps|
    ensures SumCount(ps[i := q], c) == SumCount(ps, c) - Count(ps[i], c) + Count(q, c)
  {
    var n := |ps|;
    if i < n - 1 {
      assert ps[i := q][..n - 1] == ps[..n - 1][i := q];
      SumCountUpdate(ps[..n - 1], i, q, c);
    } else {
      assert ps[i := q][..n - 1] == ps[..n - 1];
    }
  }

  /** No pip holds more than the whole board. */
  lemma {:induction false} SumCountAtLeast(ps: seq<Point>, i: nat, c: Checker)
    requires i < |ps|
    ensures Count(ps[i], c) <= SumCount(ps, c)
  {
    if i < |ps| - 1 {
      SumCountAtLeast(ps[..|ps| - 1], i, c);
    }
  }

  /** Two different pips together hold no more than the whole board. */
  lemma {:induction false} SumCountTwo(ps: seq<Point>, i: nat, j: nat, c: Checker)
    requires i < |ps| && j < |ps| && i != j
    ensures Count(ps[i], c) + Count(ps[j], c) <= SumCount(ps, c)
  {
    var n := |ps|;
    if i == n - 1 {
      SumCountAtLeast(ps[..n - 1], j, c);
    } else if j == n - 1 {
      SumCountAtLeast(ps[..n - 1], i, c);
    } else {
      SumCountTwo(ps[..n - 1], i, j, c);
    }
  }

  /** The prefix sums grow pip by pip. */
  lemma SumCountStep(ps: seq<Point>, k: nat, c: Checker)
    requires k < |ps|
    ensures SumCount(ps[..k + 1], c) == SumCount(ps[..k], c) + Count(ps[k], c)
  {
    assert ps[..k + 1][..k] == ps[..k];
  }

  /** A prefix of the pips holds no more checkers than the whole board. */
  lemma {:induction false} SumCountPrefix(ps: seq<Point>, n: nat, c: Checker)
    requires n <= |ps|
    ensures SumCount(ps[..n], c) <= SumCount(ps, c)
    decreases |ps| - n
  {
    if n < |ps| {
      SumCountStep(ps, n, c);
      SumCountPrefix(ps, n + 1, c);
    } else {
      assert ps[..n] == ps;
    }
  }

  /** The pips lo .. hi-1 and the pips before lo together make the pips before hi. */
  lemma {:induction false} SumCountSlice(ps: seq<Point>, lo: nat, hi: nat, c: Checker)
    requires lo <= hi <= |ps|
    ensures SumCount(ps[..hi], c) == SumCount(ps[..lo], c) + SumCount(ps[lo..hi], c)
    decreases hi - lo
  {
    if lo < hi {
      SumCountSlice(ps, lo, hi - 1, c);
      SumCountStep(ps, hi - 1, c);
      assert ps[lo..hi][..hi - 1 - lo] == ps[lo..hi - 1];
    } else {
      assert ps[lo..hi] == [];
    }
  }

  /** Splitting a slice of pips in two splits its total. */
  lemma SumCountSplit(ps: seq<Point>, lo: nat, mid: nat, hi: nat, c: Checker)
    requires lo <= mid <= hi <= |ps|
    ensures SumCount(ps[lo..hi], c) == SumCount(ps[lo..mid], c) + SumCount(ps[mid..hi], c)
  {
    var q := ps[lo..hi];
    SumCountSlice(q, mid - lo, hi - lo, c);
    assert q[..hi - lo] == q && q[..mid - lo] == ps[lo..mid] && q[mid - lo..hi - lo] == ps[mid..hi];
  }

  /** A slice of pips holds no checker of c exactly when none of its pips does. */
  lemma {:induction false} SumCountZero(ps: seq<Point>, lo: nat, hi: nat, c: Checker)
    requires lo <= hi <= |ps|
    ensures SumCount(ps[lo..hi], c) == 0 <==> forall i :: lo <= i < hi ==> Count(ps[i], c) == 0
    decreases hi - lo
  {
    if lo < hi {
      SumCountZero(ps, lo, hi - 1, c);
      assert ps[lo..hi][..hi - 1 - lo] == ps[lo..hi - 1];
    } else {
      assert ps[lo..hi] == [];
    }
  }

  // ---------------------------------------------------------------------------------------
  // Validity

  /** The occupied slots of a point come first (the first test of Board.Invalidity). */
  predicate Prefix(p: Point) {
    forall a, c :: 0 <= a < c < Capacity && p[c] != NoChecker ==> p[a] != NoChecker
  }

  /** All checkers on a point have one colour (the last test of Board.Invalidity). */
  predicate NoMix(p: Point) {
    forall a, c :: 0 <= a < Capacity && 0 <= c < Capacity && p[a] != NoChecker && p[c] != NoChecker
      ==> p[a] == p[c]
  }

  lemma ValidIsPrefixAndNoMix(p: Point)
    ensures Valid(p) <==> Prefix(p) && NoMix(p)
  {
    if Prefix(p) && NoMix(p) {
      forall i | 0 <= i < Capacity && p[i] != NoChecker ensures p[i] == p[0] {
        assert p[0] != NoChecker;
      }
    }
  }

  /** A board Board.Invalidity accepts when it ignores the roll: a roller, valid points, each
      bar and borne-off pip holding only its own colour, and fifteen checkers a side. */
  predicate ValidBoard(b: Board) {
    && (b.roller == White || b.roller == Red)
    && (forall i :: 0 <= i < NumPips ==> Valid(b.pips[i]))
    && OnlyColour(b.pips[BarWhitePip], White)
    && OnlyColour(b.pips[BarRedPip], Red)
    && OnlyColour(b.pips[BorneOffWhitePip], White)
    && OnlyColour(b.pips[BorneOffRedPip], Red)
    && SumCount(b.pips, White) == Capacity
    && SumCount(b.pips, Red) == Capacity
  }

  /** On a pip reserved for one colour, the other colour has no checker. */
  lemma OnlyColourCount(p: Point, c: Checker)
    requires OnlyColour(p, c) && c != NoChecker
    ensures Count(p, OtherColor(c)) == 0
  {
    CountZero(p, OtherColor(c));
  }

  /** What Board.Invalidity reports; the message text is not modelled. */
  datatype BoardDefect =
    | InvalidRoll(rollDefect: Rolls.RollDefect)
    | BadRoller
    | NoCheckerNotLast(pip: nat)
    | RedOnBarWhite
    | WhiteOnBarRed
    | RedOnBorneOffWhite
    | WhiteOnBorneOffRed
    | MixOnPoint(pointIndex: nat)
    | WrongWhiteCount(found: int)
    | WrongRedCount(found: int)

  /** Board.Invalidity (brd/brd.go:522-606): the checks in their source order. A mixed point is
      reported, as in the source, by its index into points 1 to 24 (one less than its number). */
  method Invalidity(b: Board, ignoreRoll: bool) returns (r: Option<BoardDefect>)
    ensures r.None? <==> (ignoreRoll || Rolls.Invalidity(b.roll).None?) && ValidBoard(b)
    ensures r.Some? && r.value.InvalidRoll? ==> !ignoreRoll && Rolls.Invalidity(b.roll) == Some(r.value.rollDefect)
    ensures r.Some? && r.value.WrongWhiteCount? ==> r.value.found == SumCount(b.pips, White) != Capacity
    ensures r.Some? && r.value.WrongRedCount? ==> r.value.found == SumCount(b.pips, Red) != Capacity
  {
    if !ignoreRoll {
      var i := Rolls.Invalidity(b.roll);
      if i.Some? {
        return Some(InvalidRoll(i.value));
      }
    }
    if b.roller != Red && b.roller != White {
      return Some(BadRoller);
    }
    var unordered := FirstUnorderedPip(b);
    if unordered.Some? {
      ValidIsPrefixAndNoMix(b.pips[unordered.value]);
      return Some(NoCheckerNotLast(unordered.value));
    }
    var defect, numWhite, numRed := ReservedPips(b);
    if defect.Some? {
      return defect;
    }
    var mix, pointsWhite, pointsRed := CountPoints(b);
    if mix.Some? {
      ValidIsPrefixAndNoMix(b.pips[mix.value + 1]);
      return Some(MixOnPoint(mix.value));
    }
    numWhite, numRed := numWhite + pointsWhite, numRed + pointsRed;
    ReservedTotals(b);
    if numWhite != Capacity {
      return Some(WrongWhiteCount(numWhite));
    }
    if numRed != Capacity {
      return Some(WrongRedCount(numRed));
    }
    forall k | 0 <= k < NumPips ensures Valid(b.pips[k]) {
      ValidIsPrefixAndNoMix(b.pips[k]);
    }
    return None;
  }

  /** Each bar and borne-off pip holds only its own colour. */
  predicate ReservedOnly(b: Board) {
    && OnlyColour(b.pips[BarWhitePip], White)
    && OnlyColour(b.pips[BarRedPip], Red)
    && OnlyColour(b.pips[BorneOffWhitePip], White)
    && OnlyColour(b.pips[BorneOffRedPip], Red)
  }

  /** The bar and borne-off checks of Board.Invalidity, in their source order: the first pip
      holding the wrong colour is reported; otherwise each colour's checkers on its own two
      pips are counted. */
  method ReservedPips(b: Board) returns (defect: Option<BoardDefect>, numWhite: nat, numRed: nat)
    ensures defect.Some? <==> !ReservedOnly(b)
    ensures defect.Some? ==> defect.value in {RedOnBarWhite, WhiteOnBarRed, RedOnBorneOffWhite, WhiteOnBorneOffRed}
    ensures defect.None? ==> numWhite == Count(b.pips[BarWhitePip], White) + Count(b.pips[BorneOffWhitePip], White)
    ensures defect.None? ==> numRed == Count(b.pips[BarRedPip], Red) + Count(b.pips[BorneOffRedPip], Red)
  {
    var foreign;
    foreign, numWhite := CountOwnColour(b.pips[BarWhitePip], White);
    if foreign {
      return Some(RedOnBarWhite), numWhite, 0;
    }
    foreign, numRed := CountOwnColour(b.pips[BarRedPip], Red);
    if foreign {
      return Some(WhiteOnBarRed), numWhite, numRed;
    }
    var n;
    foreign, n := CountOwnColour(b.pips[BorneOffWhitePip], White);
    if foreign {
      return Some(RedOnBorneOffWhite), numWhite, numRed;
    }
    numWhite := numWhite + n;
    foreign, n := CountOwnColour(b.pips[BorneOffRedPip], Red);
    if foreign {
      return Some(WhiteOnBorneOffRed), numWhite, numRed;
    }
    numRed := numRed + n;
    return None, numWhite, numRed;
  }

  /** With the reserved pips holding only their own colour, each colour's total is its count on
      points 0 to 24 plus its count on its own bar and, for Red, its borne-off pip. */
  lemma ReservedTotals(b: Board)
    requires ReservedOnly(b)
    ensures SumCount(b.pips, White) == SumCount(b.pips[..BorneOffRedPip], White) + Count(b.pips[BarWhitePip], White)
    ensures SumCount(b.pips, Red) + Count(b.pips[BorneOffWhitePip], Red)
         == SumCount(b.pips[..BorneOffRedPip], Red) + Count(b.pips[BarRedPip], Red) + Count(b.pips[BorneOffRedPip], Red)
    ensures Count(b.pips[BorneOffWhitePip], Red) == 0
  {
    BoardTotals(b);
    OnlyColourCount(b.pips[BarWhitePip], White);
    OnlyColourCount(b.pips[BarRedPip], Red);
    OnlyColourCount(b.pips[BorneOffWhitePip], White);
    OnlyColourCount(b.pips[BorneOffRedPip], Red);
  }

  /** The first loop of Board.Invalidity: a pip where an empty slot precedes an occupied one. */
  method FirstUnorderedPip(b: Board) returns (bad: Option<nat>)
    ensures bad.None? ==> forall k :: 0 <= k < NumPips ==> Prefix(b.pips[k])
    ensures bad.Some? ==> bad.value < NumPips && !Prefix(b.pips[bad.value])
  {
    for pipNumber := 0 to NumPips
      invariant forall k :: 0 <= k < pipNumber ==> Prefix(b.pips[k])
    {
      var point := b.pips[pipNumber];
      var seenNoChecker := false;
      ghost var seenAt := 0;
      for j := 0 to Capacity
        invariant seenNoChecker ==> seenAt < j && point[seenAt] == NoChecker
        invariant !seenNoChecker ==> forall a :: 0 <= a < j ==> point[a] != NoChecker
        invariant forall a, c :: 0 <= a < c < j && point[c] != NoChecker ==> point[a] != NoChecker
      {
        if seenNoChecker && point[j] != NoChecker {
          return Some(pipNumber);
        }
        if point[j] == NoChecker && !seenNoChecker {
          seenAt := j;
        }
        if point[j] == NoChecker {
          seenNoChecker := true;
        }
      }
    }
    return None;
  }

  /** The bar and borne-off loops of Board.Invalidity: a checker of the other colour is an error,
      otherwise the checkers of colour `c` are counted. */
  method CountOwnColour(p: Point, c: Checker) returns (foreign: bool, n: nat)
    requires c != NoChecker
    ensures foreign <==> !OnlyColour(p, c)
    ensures !foreign ==> n == Count(p, c)
  {
    n := 0;
    for j := 0 to Capacity
      invariant forall a :: 0 <= a < j ==> p[a] == c || p[a] == NoChecker
      invariant n == Count(p[..j], c)
    {
      if p[j] != c && p[j] != NoChecker {
        return true, n;
      }
      CountStep(p, j, c);
      if p[j] == c {
        n := n + 1;
      }
    }
    assert p[..Capacity] == p;
    return false, n;
  }

  /** The last loop of Board.Invalidity: points 1 to 24 must not mix colours; their checkers
      are counted. A mix is reported by the point's index into points 1 to 24. */
  method CountPoints(b: Board) returns (mix: Option<nat>, numWhite: nat, numRed: nat)
    ensures mix.Some? ==> mix.value < 24 && !NoMix(b.pips[mix.value + 1])
    ensures mix.None? ==> forall k :: 1 <= k < BorneOffRedPip ==> NoMix(b.pips[k])
    ensures mix.None? ==> numWhite + Count(b.pips[BorneOffWhitePip], White)
                          == SumCount(b.pips[..BorneOffRedPip], White)
    ensures mix.None? ==> numRed + Count(b.pips[BorneOffWhitePip], Red)
                          == SumCount(b.pips[..BorneOffRedPip], Red)
  {
    numWhite, numRed := 0, 0;
    SumCountFirst(b.pips, White);
    SumCountFirst(b.pips, Red);
    for pointNumber := 1 to BorneOffRedPip
      invariant forall k :: 1 <= k < pointNumber ==> NoMix(b.pips[k])
      invariant numWhite + Count(b.pips[0], White) == SumCount(b.pips[..pointNumber], White)
      invariant numRed + Count(b.pips[0], Red) == SumCount(b.pips[..pointNumber], Red)
    {
      var mixed;
      mixed, numWhite, numRed := ScanNoMix(b.pips[pointNumber], numWhite, numRed);
      if mixed {
        return Some(pointNumber - 1), numWhite, numRed;
      }
      SumCountStep(b.pips, pointNumber, White);
      SumCountStep(b.pips, pointNumber, Red);
    }
    return None, numWhite, numRed;
  }

  lemma SumCountFirst(ps: seq<Point>, c: Checker)
    requires |ps| >= 1
    ensures SumCount(ps[..1], c) == Count(ps[0], c)
  {
    assert ps[..1][..0] == [];
  }

  /** CountPoints' loop over one point: the counts of each colour go on from w and rd, and a
      checker of the colour not seen first on the point is a mix. */
  method ScanNoMix(point: Point, w: nat, rd: nat) returns (mixed: bool, numWhite: nat, numRed: nat)
    ensures mixed <==> !NoMix(point)
    ensures !mixed ==> numWhite == w + Count(point, White) && numRed == rd + Count(point, Red)
  {
    numWhite, numRed := w, rd;
    var colorSeenYet := false;
    var colorSeen := NoChecker;
    for j := 0 to Capacity
      invariant colorSeenYet <==> exists a :: 0 <= a < j && point[a] != NoChecker
      invariant colorSeenYet ==> colorSeen != NoChecker
      invariant forall a :: 0 <= a < j && point[a] != NoChecker ==> point[a] == colorSeen
      invariant numWhite == w + Count(point[..j], White)
      invariant numRed == rd + Count(point[..j], Red)
    {
      CountStep(point, j, White);
      CountStep(point, j, Red);
      if point[j] == White {
        numWhite := numWhite + 1;
        if colorSeenYet && colorSeen != White {
          return true, numWhite, numRed;
        }
        colorSeenYet := true;
        colorSeen := White;
      } else if point[j] == Red {
        numRed := numRed + 1;
        if colorSeenYet && colorSeen != Red {
          return true, numWhite, numRed;
        }
        colorSeenYet := true;
        colorSeen := Red;
      }
    }
    assert point[..Capacity] == point;
    return false, numWhite, numRed;
  }

  /** The whole-board counts split into the pips Board.Invalidity visits separately. */
  lemma BoardTotals(b: Board)
    ensures SumCount(b.pips, White)
         == SumCount(b.pips[..BorneOffRedPip], White) + Count(b.pips[BorneOffRedPip], White)
          + Count(b.pips[BarWhitePip], White) + Count(b.pips[BarRedPip], White)
    ensures SumCount(b.pips, Red)
         == SumCount(b.pips[..BorneOffRedPip], Red) + Count(b.pips[BorneOffRedPip], Red)
          + Count(b.pips[BarWhitePip], Red) + Count(b.pips[BarRedPip], Red)
  {
    var ps := b.pips;
    assert ps[..NumPips] == ps;
    SumCountStep(ps, 27, White);
    SumCountStep(ps, 26, White);
    SumCountStep(ps, 25, White);
    SumCountStep(ps, 27, Red);
    SumCountStep(ps, 26, Red);
    SumCountStep(ps, 25, Red);
  }

  // ---------------------------------------------------------------------------------------
  // Equality

  /** Points28.Equals (brd/brd.go:362-369): pip by pip with Point.Equals, from pip i on. */
  function PipsEqualFrom(x: Pips, y: Pips, i: nat): (same: bool)
    requires i <= NumPips
    ensures same <==> x[i..] == y[i..]
    decreases NumPips - i
  {
    if i == NumPips then true
    else if !Points.Equals(x[i], y[i]) then false
    else
      assert x[i..] == [x[i]] + x[i + 1..] && y[i..] == [y[i]] + y[i + 1..];
      PipsEqualFrom(x, y, i + 1)
  }

  /** Board.Equals (brd/brd.go:371-397): every field must match, except that each roll is
      compared with Roll.Equals, so only the dice it holds matter, not their slots. */
  function Equals(b: Board, o: Board): (same: bool)
    ensures same <==>
      && b.pips == o.pips && b.matchScore == o.matchScore && b.roller == o.roller
      && multiset(Rolls.Dice(b.roll)) == multiset(Rolls.Dice(o.roll))
      && multiset(Rolls.Dice(b.rollUsed)) == multiset(Rolls.Dice(o.rollUsed))
      && b.stakes == o.stakes && b.whiteCanDouble == o.whiteCanDouble
      && b.redCanDouble == o.redCanDouble
  {
    assert b.pips[0..] == b.pips && o.pips[0..] == o.pips;
    if !PipsEqualFrom(b.pips, o.pips, 0) then false
    else if !Scores.Equals(b.matchScore, o.matchScore) then false
    else if b.roller != o.roller then false
    else if !Rolls.Equals(b.roll, o.roll) then false
    else if !Rolls.Equals(b.rollUsed, o.rollUsed) then false
    else if b.stakes != o.stakes then false
    else if b.whiteCanDouble != o.whiteCanDouble then false
    else b.redCanDouble == o.redCanDouble
  }

  /** Board.Equals is an equivalence relation, coarser than identity. */
  lemma EqualsIsEquivalence(a: Board, b: Board, c: Board)
    ensures Equals(a, a)
    ensures Equals(a, b) ==> Equals(b, a)
    ensures Equals(a, b) && Equals(b, c) ==> Equals(a, c)
  {
  }

  /** Boards that differ only in the slots their dice occupy are Equal. */
  lemma EqualsIgnoresDiceSlots(b: Board, roll: Rolls.Roll, rollUsed: Rolls.Roll)
    requires multiset(Rolls.Dice(roll)) == multiset(Rolls.Dice(b.roll))
    requires multiset(Rolls.Dice(rollUsed)) == multiset(Rolls.Dice(b.rollUsed))
    ensures Equals(b, b.(roll := roll, rollUsed := rollUsed))
  {
  }

  // ---------------------------------------------------------------------------------------
  // End of a game and the end of a turn

  /** Board.victor's test (brd/brd.go:639-650): the last slot of the roller's borne-off pip is
      occupied. */
  predicate HasWon(b: Board) {
    b.pips[BorneOffPip(b.roller)][Capacity - 1] != NoChecker
  }

  /** The first point of the roller's home board: 19 to 24 for White, 1 to 6 otherwise. */
  function HomeStart(roller: Checker): nat {
    if roller == White then 19 else 1
  }

  /** The loser's bar and borne-off pip, as Board.victorMultiplier picks them. */
  function OpponentBar(roller: Checker): nat {
    if roller == White then BarRedPip else BarWhitePip
  }

  function OpponentBorneOff(roller: Checker): nat {
    if roller == White then BorneOffRedPip else BorneOffWhitePip
  }

  /** A checker remains on the loser's bar or anywhere in the winner's home board. */
  predicate CheckerInWinnersReach(b: Board) {
    || b.pips[OpponentBar(b.roller)][0] != NoChecker
    || exists x :: HomeStart(b.roller) <= x < HomeStart(b.roller) + 6 && b.pips[x][0] != NoChecker
  }

  /** The value of a win: 3 for a backgammon, 2 for a gammon (the loser has borne off
      nothing), 1 otherwise. */
  function Multiplier(b: Board): (m: int)
    ensures 1 <= m <= 3
  {
    if CheckerInWinnersReach(b) then 3
    else if b.pips[OpponentBorneOff(b.roller)][0] == NoChecker then 2
    else 1
  }

  /** Board.victorMultiplier (brd/brd.go:616-637), with its loop over the winner's home board. */
  method VictorMultiplier(b: Board) returns (m: int)
    ensures m == Multiplier(b)
  {
    var opponentBar, opponentBorne := BarWhitePip, BorneOffWhitePip;
    var homeStart, homeEnd := 1, 6;
    if b.roller == White {
      opponentBar, opponentBorne := BarRedPip, BorneOffRedPip;
      homeStart, homeEnd := 19, 24;
    }
    if b.pips[opponentBar][0] != NoChecker {
      return 3;
    }
    for x := homeStart to homeEnd + 1
      invariant forall y :: homeStart <= y < x ==> b.pips[y][0] == NoChecker
    {
      if b.pips[x][0] != NoChecker {
        return 3;
      }
    }
    if b.pips[opponentBorne][0] == NoChecker {
      return 2;
    }
    return 1;
  }

  /** Board.victor (brd/brd.go:639-650): the roller wins once its borne-off pip is full; the
      stakes are then the multiplier times the cube. */
  method Victor(b: Board) returns (victor: Checker, stakes: int)
    ensures victor == (if HasWon(b) then b.roller else NoChecker)
    ensures stakes == (if HasWon(b) then Multiplier(b) * b.stakes else 0)
  {
    var borne := BorneOffRedPip;
    if b.roller == White {
      borne := BorneOffWhitePip;
    }
    if b.pips[borne][Capacity - 1] != NoChecker {
      victor := b.roller;
      var m := VictorMultiplier(b);
      stakes := m * b.stakes;
      return;
    }
    return NoChecker, 0;
  }

  /** On a valid board the roller has won exactly when all fifteen of its checkers are off. */
  lemma HasWonMeansAllOff(b: Board)
    requires ValidBoard(b)
    ensures HasWon(b) <==> Count(b.pips[BorneOffPip(b.roller)], b.roller) == Capacity
  {
    var p := b.pips[BorneOffPip(b.roller)];
    ValidFacts(p);
    CountPartition(p);
    OnlyColourCount(p, b.roller);
    if HasWon(b) {
      assert FirstEmpty(p) == Capacity;
    } else {
      assert FirstEmpty(p) < Capacity;
    }
  }

  /** After a win on a valid board every checker left on the board is the loser's, so the
      multiplier reads the loser's position: 3 when a losing checker is on the bar or in the
      winner's home board, else 2 when the loser has borne off nothing, else 1. */
  lemma MultiplierReadsLoser(b: Board)
    requires ValidBoard(b) && HasWon(b)
    ensures var loser := OtherColor(b.roller);
      && (Multiplier(b) == 3 <==>
           || Count(b.pips[BarPip(loser)], loser) > 0
           || exists x :: HomeStart(b.roller) <= x < HomeStart(b.roller) + 6 && Count(b.pips[x], loser) > 0)
      && (Multiplier(b) == 2 <==> Multiplier(b) != 3 && Count(b.pips[BorneOffPip(loser)], loser) == 0)
  {
    var loser := OtherColor(b.roller);
    var borne := BorneOffPip(b.roller);
    HasWonMeansAllOff(b);
    forall x | 0 <= x < NumPips && x != borne
      ensures b.pips[x][0] != NoChecker <==> Count(b.pips[x], loser) > 0
    {
      SumCountTwo(b.pips, borne, x, b.roller);
      OccupiedMeansCount(b.pips[x], b.roller);
    }
  }

  /** On a valid point with no checker of `c`, the first slot is occupied exactly when the
      other colour has a checker there. */
  lemma OccupiedMeansCount(p: Point, c: Checker)
    requires Valid(p) && c != NoChecker && Count(p, c) == 0
    ensures p[0] != NoChecker <==> Count(p, OtherColor(c)) > 0
  {
    ValidFacts(p);
    if p[0] == NoChecker {
      CountZero(p, OtherColor(c));
    } else {
      CountZero(p, p[0]);
    }
  }

  /** It is `b.roller`'s turn and the cube is available to it. */
  predicate RollerCanDouble(b: Board) {
    (b.roller == Red && b.redCanDouble) || (b.roller == White && b.whiteCanDouble)
  }

  /** A win that TakeTurn scores: the roller's borne-off pip is full and the roller is a
      colour, so that Score.Update accepts it as the victor. */
  predicate ScoredWin(b: Board) {
    HasWon(b) && b.roller != NoChecker
  }

  /** The board once the turn passes: the roller changes and the roll is cleared
      (brd/brd.go:146-147). */
  function Passed(b: Board): Board {
    b.(roller := OtherColor(b.roller), roll := Rolls.NoRoll)
  }

  /** The roller of nb may use the cube and offerDouble, when there is one, offers it. */
  predicate Offered(nb: Board, offerDouble: Option<Board -> bool>) {
    RollerCanDouble(nb) && offerDouble.Some? && offerDouble.value(nb)
  }

  /** An accepted double (brd/brd.go:151-158): the stakes double and the cube passes to the
      side that accepted, the one that is not rolling. */
  function Doubled(nb: Board): Board {
    nb.(stakes := nb.stakes * 2, whiteCanDouble := nb.roller != White, redCanDouble := nb.roller == White)
  }

  /** After an accepted double the offerer can no longer double and the accepter can. */
  lemma DoubledHandsCube(nb: Board)
    requires RollerCanDouble(nb)
    ensures var d := Doubled(nb);
      && d.stakes == 2 * nb.stakes && d.roller == nb.roller
      && !RollerCanDouble(d) && RollerCanDouble(d.(roller := OtherColor(d.roller)))
  {
  }

  /** Board.TakeTurn (brd/brd.go:137-165). A win is scored into the match score. Otherwise the
      roller changes and the roll is cleared; the new roller may offer the cube; an accepted
      double doubles the stakes and hands the cube to the accepter, a declined one ends the game
      in the offerer's favour at the current stakes; unless declined, new dice are rolled from
      the draw `x`. A nil offerDouble or acceptDouble is None; calling a nil acceptDouble panics,
      so it must be there when a double is offered. Score.Update panics on stakes below one;
      that is the second precondition. */
  method TakeTurn(b: Board, offerDouble: Option<Board -> bool>, acceptDouble: Option<Board -> bool>, x: int)
    returns (next: Board, victor: Checker, stakes: int, score: Scores.Score)
    requires 0 <= x < 36
    requires ScoredWin(b) ==> b.stakes >= 1
    requires !ScoredWin(b) && Offered(Passed(b), offerDouble) ==> acceptDouble.Some?
    ensures ScoredWin(b) ==>
      && victor == b.roller && stakes == Multiplier(b) * b.stakes
      && next == b.(matchScore := Scores.Update(b.matchScore, victor, stakes))
      && score == next.matchScore
    ensures !ScoredWin(b) ==> score == Scores.Zero
    ensures !ScoredWin(b) && !Offered(Passed(b), offerDouble) ==>
      && victor == NoChecker && stakes == (if HasWon(b) then Multiplier(b) * b.stakes else 0)
      && next == Passed(b).(roll := Rolls.New(x), rollUsed := Rolls.NoRoll)
    ensures !ScoredWin(b) && Offered(Passed(b), offerDouble) && acceptDouble.Some? && acceptDouble.value(Passed(b)) ==>
      && victor == NoChecker && stakes == 0
      && next == Doubled(Passed(b)).(roll := Rolls.New(x), rollUsed := Rolls.NoRoll)
    ensures !ScoredWin(b) && Offered(Passed(b), offerDouble) && acceptDouble.Some? && !acceptDouble.value(Passed(b)) ==>
      && victor == Passed(b).roller && stakes == b.stakes
      && next == Passed(b)
  {
    next := b;
    victor, stakes := Victor(b);
    if victor != NoChecker {
      next := next.(matchScore := Scores.Update(next.matchScore, victor, stakes));
      score := next.matchScore;
      return;
    }
    score := Scores.Zero;
    next := next.(roller := OtherColor(next.roller), roll := Rolls.NoRoll);
    if RollerCanDouble(next) {
      if offerDouble.Some? && offerDouble.value(next) {
        if acceptDouble.value(next) {
          next := next.(stakes := next.stakes * 2);
          if next.roller == White {
            next := next.(whiteCanDouble := false, redCanDouble := true);
          } else {
            next := next.(redCanDouble := false, whiteCanDouble := true);
          }
        } else {
          victor := next.roller;
          stakes := next.stakes;
          return;
        }
      }
    }
    next := next.(roll := Rolls.New(x), rollUsed := Rolls.NoRoll);
  }

  /** A turn that is not a win keeps a valid board valid and hands the dice to the other side. */
  lemma TakeTurnKeepsValid(b: Board, next: Board)
    requires ValidBoard(b) && !ScoredWin(b)
    requires next.roller == OtherColor(b.roller) && next.pips == b.pips
    ensures ValidBoard(next)
  {
  }

  /** Board.SetScore (brd/brd.go:920-927): install a match score; when the next game is the
      Crawford game the cube is dead for both sides and the game is marked as played. */
  function SetScore(b: Board, score: Scores.Score): (r: Board)
    ensures r.pips == b.pips && r.roll == b.roll && r.rollUsed == b.rollUsed
    ensures r.roller == b.roller && r.stakes == b.stakes
    ensures Scores.CrawfordRuleAppliesNextGame(score) ==>
      && !r.whiteCanDouble && !r.redCanDouble
      && r.matchScore == score.(alreadyPlayedCrawfordGame := true)
    ensures !Scores.CrawfordRuleAppliesNextGame(score) ==> r == b.(matchScore := score)
  {
    if Scores.CrawfordRuleAppliesNextGame(score) then
      b.(matchScore := score.(alreadyPlayedCrawfordGame := true), whiteCanDouble := false,
         redCanDouble := false)
    else b.(matchScore := score)
  }

  /** The Crawford game is announced once: the installed score never calls for another. */
  lemma SetScoreSettlesCrawford(b: Board, score: Scores.Score)
    ensures !Scores.CrawfordRuleAppliesNextGame(SetScore(b, score).matchScore)
  {
  }

  // ---------------------------------------------------------------------------------------
  // The starting position

  /** The standard starting position of New (brd/brd.go:400-408). */
  function StartingPips(): Pips {
    seq(NumPips, i => Empty)
      [1 := Reset(2, White)]
      [24 := Reset(2, Red)]
      [6 := Reset(5, Red)]
      [19 := Reset(5, White)]
      [8 := Reset(3, Red)]
      [17 := Reset(3, White)]
      [12 := Reset(5, White)]
      [13 := Reset(5, Red)]
  }

  lemma {:induction false} SumCountEmpty(n: nat, c: Checker)
    requires c != NoChecker
    ensures SumCount(seq(n, i => Empty), c) == 0
  {
    if n > 0 {
      assert seq(n, i => Empty)[..n - 1] == seq(n - 1, i => Empty);
      SumCountEmpty(n - 1, c);
      CountOfConst(Capacity, NoChecker, c);
      assert Empty == seq(Capacity, i => NoChecker);
    }
  }

  /** Putting n checkers of `c` on an empty pip adds n to `c`'s total and nothing to the other's. */
  lemma PlaceOnEmpty(ps: seq<Point>, i: nat, n: nat, c: Checker)
    requires i < |ps| && ps[i] == Empty && c != NoChecker && n <= Capacity
    ensures SumCount(ps[i := Reset(n, c)], c) == SumCount(ps, c) + n
    ensures SumCount(ps[i := Reset(n, c)], OtherColor(c)) == SumCount(ps, OtherColor(c))
  {
    ResetValid(n, c);
    SumCountUpdate(ps, i, Reset(n, c), c);
    SumCountUpdate(ps, i, Reset(n, c), OtherColor(c));
    CountOfConst(Capacity, NoChecker, c);
    CountOfConst(Capacity, NoChecker, OtherColor(c));
  }

  /** The starting position holds fifteen checkers a side on valid points. */
  lemma StartingPipsValid(roller: Checker)
    requires roller == White || roller == Red
    ensures ValidBoard(Board(Rolls.NoRoll, Rolls.NoRoll, roller, 1, Scores.Zero, true, true, StartingPips()))
  {
    StartingSums();
    StartingPoints();
  }

  /** The starting position holds fifteen checkers of each colour. */
  lemma StartingSums()
    ensures SumCount(StartingPips(), White) == Capacity && SumCount(StartingPips(), Red) == Capacity
  {
    var p0: seq<Point> := seq(NumPips, i => Empty);
    SumCountEmpty(NumPips, White);
    SumCountEmpty(NumPips, Red);
    var p1 := p0[1 := Reset(2, White)];
    PlaceOnEmpty(p0, 1, 2, White);
    var p2 := p1[24 := Reset(2, Red)];
    PlaceOnEmpty(p1, 24, 2, Red);
    var p3 := p2[6 := Reset(5, Red)];
    PlaceOnEmpty(p2, 6, 5, Red);
    var p4 := p3[19 := Reset(5, White)];
    PlaceOnEmpty(p3, 19, 5, White);
    var p5 := p4[8 := Reset(3, Red)];
    PlaceOnEmpty(p4, 8, 3, Red);
    var p6 := p5[17 := Reset(3, White)];
    PlaceOnEmpty(p5, 17, 3, White);
    var p7 := p6[12 := Reset(5, White)];
    PlaceOnEmpty(p6, 12, 5, White);
    var p8 := p7[13 := Reset(5, Red)];
    PlaceOnEmpty(p7, 13, 5, Red);
    assert p8 == StartingPips();
  }

  /** Every point of the starting position is valid, and the bars and borne-off pips are
      empty. */
  lemma StartingPoints()
    ensures forall i :: 0 <= i < NumPips ==> Valid(StartingPips()[i])
    ensures forall i :: i in {BarWhitePip, BarRedPip, BorneOffWhitePip, BorneOffRedPip} ==> StartingPips()[i] == Empty
  {
    var sp := StartingPips();
    ResetValid(0, NoChecker);
    assert Reset(0, NoChecker) == Empty;
    ResetValid(2, White);
    ResetValid(2, Red);
    ResetValid(3, White);
    ResetValid(3, Red);
    ResetValid(5, White);
    ResetValid(5, Red);
    forall i | 0 <= i < NumPips ensures Valid(sp[i]) {
    }
  }

  /** The first draw in `draws` that is not a doublet, the one New's loop stops at. */
  function FirstNonDoublet(draws: seq<int>): (k: nat)
    requires exists i :: 0 <= i < |draws| && draws[i] % 6 != draws[i] / 6
    ensures k < |draws| && draws[k] % 6 != draws[k] / 6
    ensures forall j :: 0 <= j < k ==> draws[j] % 6 == draws[j] / 6
  {
    if draws[0] % 6 != draws[0] / 6 then 0
    else
      assert forall i :: 0 < i < |draws| ==> draws[i] == draws[1..][i - 1];
      1 + FirstNonDoublet(draws[1..])
  }

  /** New (brd/brd.go:399-424): the starting position with stakes 1 and the cube available to
      both sides. `rollerDraw` stands for rand.Intn(2) choosing the first roller, and `draws`
      for the successive dice draws; the dice are rolled again until they are not a doublet.
      With `paranoid` the board is checked; the check never fails. */
  method New(paranoid: bool, rollerDraw: int, draws: seq<int>) returns (b: Board)
    requires 0 <= rollerDraw < 2
    requires forall i :: 0 <= i < |draws| ==> 0 <= draws[i] < 36
    requires exists i :: 0 <= i < |draws| && draws[i] % 6 != draws[i] / 6
    ensures b.pips == StartingPips() && b.roller == [White, Red][rollerDraw]
    ensures b.stakes == 1 && b.whiteCanDouble && b.redCanDouble && b.matchScore == Scores.Zero
    ensures b.roll == Rolls.New(draws[FirstNonDoublet(draws)]) && b.rollUsed == Rolls.NoRoll
    ensures b.roll[0] != b.roll[1]
    ensures ValidBoard(b) && Rolls.Invalidity(b.roll) == None
  {
    b := Board(Rolls.NoRoll, Rolls.NoRoll, [White, Red][rollerDraw], 1, Scores.Zero, true, true,
               StartingPips());
    StartingPipsValid(b.roller);
    var roll := OpeningRoll(draws);
    b := b.(roll := roll, rollUsed := Rolls.NoRoll);
    if paranoid {
      var v := Invalidity(b, false);
      assert v == None;
    }
  }

  /** The rolling loop of New: rolls are drawn until one is not a doublet. */
  method OpeningRoll(draws: seq<int>) returns (roll: Rolls.Roll)
    requires forall i :: 0 <= i < |draws| ==> 0 <= draws[i] < 36
    requires exists i :: 0 <= i < |draws| && draws[i] % 6 != draws[i] / 6
    ensures roll == Rolls.New(draws[FirstNonDoublet(draws)]) && roll[0] != roll[1]
  {
    var k := 0;
    while true
      invariant 0 <= k <= FirstNonDoublet(draws)
      decreases FirstNonDoublet(draws) - k
    {
      roll := Rolls.New(draws[k]);
      if roll[0] != roll[1] {
        return;
      }
      k := k + 1;
    }
  }

}
