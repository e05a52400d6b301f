/** A single step of the move generator of brd/brd.go: entering a checker from the bar, moving a
    checker by one die, bearing one off, and the tests that allow each. Boards are values, as in
    the Go code, which copies a Board (`result := *b`) before changing the copy. */
module Moves {
  import opened Wrappers
  import opened Points
  import Rolls
  import opened Boards

  // ---------------------------------------------------------------------------------------
  // The boards the generator works on

  /** A board the generator accepts without panicking: valid, with the dice left to play in
      1..6 and room in RollUsed for every one of them. */
  predicate WellFormed(b: Board) {
    && ValidBoard(b)
    && (forall d :: d in Rolls.Dice(b.roll) ==> 1 <= d <= 6)
    && |Rolls.Dice(b.roll)| + |Rolls.Dice(b.rollUsed)| <= 4
  }

  /** n is reached from b by playing dice: the same roller, cube and match score, the same dice
      overall (moved from Roll to RollUsed), and no die taken back. */
  predicate Preserves(b: Board, n: Board) {
    && n.roller == b.roller && n.stakes == b.stakes && n.matchScore == b.matchScore
    && n.whiteCanDouble == b.whiteCanDouble && n.redCanDouble == b.redCanDouble
    && multiset(Rolls.Dice(n.roll)) + multiset(Rolls.Dice(n.rollUsed))
       == multiset(Rolls.Dice(b.roll)) + multiset(Rolls.Dice(b.rollUsed))
    && |Rolls.Dice(n.rollUsed)| >= |Rolls.Dice(b.rollUsed)|
  }

  lemma PreservesTransitive(a: Board, b: Board, c: Board)
    requires Preserves(a, b) && Preserves(b, c)
    ensures Preserves(a, c)
  {
  }

  // ---------------------------------------------------------------------------------------
  // The bar

  /** Board.numCheckersRollerHasOnTheBar (brd/brd.go:744-756): occupied slots of the roller's
      bar, counted up to the first empty one. */
  function NumOnBar(b: Board): nat {
    FirstEmpty(b.pips[BarPip(b.roller)])
  }

  /** The loop of Board.numCheckersRollerHasOnTheBar. */
  method NumCheckersRollerHasOnTheBar(b: Board) returns (result: int)
    ensures result == NumOnBar(b)
  {
    var bar := b.pips[BarPip(b.roller)];
    result := 0;
    while result < Capacity
      invariant 0 <= result <= Capacity
      invariant forall i :: 0 <= i < result ==> bar[i] != NoChecker
    {
      if bar[result] == NoChecker {
        break;
      }
      result := result + 1;
    }
    FirstEmptyAt(bar, result);
  }

  /** On a valid board NumOnBar is the number of the roller's checkers on its bar. */
  lemma NumOnBarCounts(b: Board)
    requires ValidBoard(b)
    ensures NumOnBar(b) == Count(b.pips[BarPip(b.roller)], b.roller)
  {
    var bar := b.pips[BarPip(b.roller)];
    ValidFacts(bar);
    if bar[0] == NoChecker {
      CountZero(bar, b.roller);
    }
  }

  /** Board.pipIsBlockedByOpponent (brd/brd.go:665-669): the first two slots hold the opponent. */
  predicate Blocked(b: Board, i: nat)
    requires i < NumPips
  {
    b.pips[i][0] == OtherColor(b.roller) && b.pips[i][1] == OtherColor(b.roller)
  }

  /** On a valid point, blocked means two or more opposing checkers. */
  lemma BlockedMeansTwoOpponents(b: Board, i: nat)
    requires i < NumPips && Valid(b.pips[i]) && (b.roller == White || b.roller == Red)
    ensures Blocked(b, i) <==> Count(b.pips[i], OtherColor(b.roller)) >= 2
  {
    MadeByCount(b.pips[i], OtherColor(b.roller));
  }

  /** The point a checker enters on: `die` for White, 25 - die for Red. */
  function EntryPoint(roller: Checker, die: int): (i: nat)
    requires 1 <= die <= 6
    ensures 1 <= i <= 24
  {
    if roller == Red then 25 - die else die
  }

  // ---------------------------------------------------------------------------------------
  // Facts about single points

  lemma AddKeepsOnlyColour(p: Point, c: Checker)
    requires OnlyColour(p, c) && CanAdd(p, c)
    ensures OnlyColour(Add(p, c), c)
  {
  }

  lemma SubtractKeepsOnlyColour(p: Point, c: Checker)
    requires OnlyColour(p, c) && p[0] != NoChecker
    ensures OnlyColour(Subtract(p), c)
  {
  }

  lemma EmptyFacts(c: Checker)
    requires c != NoChecker
    ensures Valid(Empty) && Count(Empty, c) == 0 && CanAdd(Empty, c) && Count(Empty, OtherColor(c)) == 0
  {
    CountOfConst(Capacity, NoChecker, c);
    CountOfConst(Capacity, NoChecker, OtherColor(c));
    FirstEmptyAt(Empty, 0);
  }

  /** A blot: a valid point whose only checker is of colour c. Emptying its first slot, or
      subtracting from it, leaves the empty point. */
  lemma BlotFacts(p: Point, c: Checker)
    requires Valid(p) && p[0] == c && c != NoChecker && p[1] != c
    ensures Count(p, c) == 1 && Count(p, OtherColor(c)) == 0
    ensures p[0 := NoChecker] == Empty && Subtract(p) == Empty
  {
    ValidFacts(p);
    FirstEmptyAt(p, 1);
    assert p[0 := NoChecker] == Empty;
  }

  /** A valid point whose first slot is not c holds no checker of c unless c is its colour. */
  lemma ForeignPoint(p: Point, c: Checker)
    requires Valid(p) && c != NoChecker && p[0] != c
    ensures Count(p, c) == 0
  {
    ValidFacts(p);
    if p[0] == NoChecker {
      CountZero(p, c);
    } else {
      assert c == OtherColor(p[0]);
    }
  }

  /** A valid point that holds no opposing checker and is not full takes one more. */
  lemma RoomFor(p: Point, c: Checker, limit: nat)
    requires Valid(p) && c != NoChecker && p[0] != OtherColor(c)
    requires Count(p, c) <= limit < Capacity
    ensures CanAdd(p, c)
  {
    ValidFacts(p);
    if p[0] == NoChecker {
      FirstEmptyAt(p, 0);
    } else {
      CanAddValid(p, c);
    }
  }

  // ---------------------------------------------------------------------------------------
  // Moving one checker between pips

  /** The colour a pip is reserved for: each side's bar and borne-off pip. The points 1 to 24
      are reserved for nobody (NoChecker). */
  function Reserved(k: nat): Checker {
    if k == BarWhitePip || k == BorneOffWhitePip then White
    else if k == BarRedPip || k == BorneOffRedPip then Red
    else NoChecker
  }

  /** The top checker of `from` goes onto `to` as a checker of colour c: Point.Subtract on one
      pip, Point.Add on the other. */
  function Shift(ps: Pips, from: nat, to: nat, c: Checker): Pips
    requires from < NumPips && to < NumPips && from != to
    requires ps[from][0] != NoChecker && CanAdd(ps[to], c)
  {
    ps[from := Subtract(ps[from])][to := Add(ps[to], c)]
  }

  lemma SumCountTwoUpdates(ps: seq<Point>, i: nat, x: Point, j: nat, y: Point, c: Checker)
    requires i < |ps| && j < |ps| && i != j
    ensures SumCount(ps[i := x][j := y], c)
         == SumCount(ps, c) - Count(ps[i], c) + Count(x, c) - Count(ps[j], c) + Count(y, c)
  {
    SumCountUpdate(ps, i, x, c);
    SumCountUpdate(ps[i := x], j, y, c);
  }

  /** Moving a checker of colour c from one pip to another keeps the board valid, provided the
      destination is not reserved for the other colour; c's count drops by one on `from` and
      rises by one on `to`. */
  lemma ShiftKeepsValid(b: Board, from: nat, to: nat, c: Checker)
    requires ValidBoard(b) && from < NumPips && to < NumPips && from != to
    requires c != NoChecker && b.pips[from][0] == c && CanAdd(b.pips[to], c)
    requires Reserved(to) == NoChecker || Reserved(to) == c
    ensures ValidBoard(b.(pips := Shift(b.pips, from, to, c)))
    ensures Count(Shift(b.pips, from, to, c)[from], c) == Count(b.pips[from], c) - 1
    ensures Count(Shift(b.pips, from, to, c)[to], c) == Count(b.pips[to], c) + 1
  {
    var ps := b.pips;
    var r := Shift(ps, from, to, c);
    ShiftPointsValid(ps, from, to, c);
    ShiftKeepsReserved(ps, from, to, c, BarWhitePip);
    ShiftKeepsReserved(ps, from, to, c, BarRedPip);
    ShiftKeepsReserved(ps, from, to, c, BorneOffWhitePip);
    ShiftKeepsReserved(ps, from, to, c, BorneOffRedPip);
    ShiftSums(ps, from, to, c, White);
    ShiftSums(ps, from, to, c, Red);
  }

  /** Every point stays valid when a checker moves. */
  lemma ShiftPointsValid(ps: Pips, from: nat, to: nat, c: Checker)
    requires from < NumPips && to < NumPips && from != to
    requires forall k :: 0 <= k < NumPips ==> Valid(ps[k])
    requires ps[from][0] != NoChecker && CanAdd(ps[to], c)
    ensures forall k :: 0 <= k < NumPips ==> Valid(Shift(ps, from, to, c)[k])
  {
    var r := Shift(ps, from, to, c);
    assert r == ps[from := Subtract(ps[from])][to := Add(ps[to], c)];
    forall k | 0 <= k < NumPips ensures Valid(r[k]) {
      assert Valid(ps[k]);
    }
  }

  /** A pip reserved for one colour still holds only that colour after a checker moves. */
  lemma ShiftKeepsReserved(ps: Pips, from: nat, to: nat, c: Checker, k: nat)
    requires from < NumPips && to < NumPips && from != to && k < NumPips
    requires Reserved(k) != NoChecker && OnlyColour(ps[k], Reserved(k))
    requires c != NoChecker && ps[from][0] == c && CanAdd(ps[to], c)
    requires Reserved(to) == NoChecker || Reserved(to) == c
    ensures OnlyColour(Shift(ps, from, to, c)[k], Reserved(k))
  {
    if k == from {
      SubtractKeepsOnlyColour(ps[from], Reserved(from));
    } else if k == to {
      AddKeepsOnlyColour(ps[to], c);
    }
  }

  /** Moving a checker of colour c keeps each colour's total. */
  lemma ShiftSums(ps: Pips, from: nat, to: nat, c: Checker, e: Checker)
    requires from < NumPips && to < NumPips && from != to
    requires Valid(ps[from]) && c != NoChecker && ps[from][0] == c && CanAdd(ps[to], c)
    requires e != NoChecker
    ensures SumCount(Shift(ps, from, to, c), e) == SumCount(ps, e)
  {
    var x, y := Subtract(ps[from]), Add(ps[to], c);
    SumCountTwoUpdates(ps, from, x, to, y, e);
  }

  /** What a checker of the roller may land on: a point 1 to 24 that the opponent has not
      made, or the roller's borne-off pip. */
  predicate Open(b: Board, t: nat) {
    (1 <= t <= 24 && !Blocked(b, t)) || t == BorneOffPip(b.roller)
  }

  /** The hit of comeOffTheBar and quasiLegalPostBarContinuations: an opposing checker alone on
      point t goes to its own bar; otherwise nothing changes. comeOffTheBar clears slot 0 of the
      blot where the post-bar moves subtract from it; on a blot both leave the empty point. */
  function Hit(b: Board, t: nat): Pips
    requires ValidBoard(b) && 1 <= t <= 24 && !Blocked(b, t)
  {
    var other := OtherColor(b.roller);
    if b.pips[t][0] == other then
      HitPossible(b, t);
      Shift(b.pips, t, BarPip(other), other)
    else b.pips
  }

  /** An unblocked point holds at most one opposing checker, and its owner's bar has room. */
  lemma HitPossible(b: Board, t: nat)
    requires ValidBoard(b) && 1 <= t <= 24 && !Blocked(b, t)
    requires b.pips[t][0] == OtherColor(b.roller)
    ensures CanAdd(b.pips[BarPip(OtherColor(b.roller))], OtherColor(b.roller))
    ensures b.pips[t][0 := NoChecker] == Subtract(b.pips[t]) == Empty
  {
    var other := OtherColor(b.roller);
    var oBar := BarPip(other);
    BlotFacts(b.pips[t], other);
    SumCountTwo(b.pips, t, oBar, other);
    RoomFor(b.pips[oBar], other, Capacity - 1);
  }

  /** After the hit the board is still valid, point t holds no opposing checker, and a hit
      blot is counted on its owner's bar; no other pip changes. */
  lemma HitResult(b: Board, t: nat)
    requires ValidBoard(b) && 1 <= t <= 24 && !Blocked(b, t)
    ensures var h, other := Hit(b, t), OtherColor(b.roller);
      && ValidBoard(b.(pips := h))
      && Count(h[t], other) == 0
      && Count(h[t], b.roller) == Count(b.pips[t], b.roller)
      && (b.pips[t][0] == other ==>
            h[t] == Empty && Count(h[BarPip(other)], other) == Count(b.pips[BarPip(other)], other) + 1)
      && (forall k :: 0 <= k < NumPips && k != t && k != BarPip(other) ==> h[k] == b.pips[k])
      && (b.pips[t][0] != other ==> h == b.pips)
  {
    var other := OtherColor(b.roller);
    EmptyFacts(b.roller);
    if b.pips[t][0] == other {
      HitPossible(b, t);
      BlotFacts(b.pips[t], other);
      ShiftKeepsValid(b, t, BarPip(other), other);
    } else {
      ForeignPoint(b.pips[t], other);
    }
  }

  /** The pips after the roller's checker on `from` lands on `t`, hitting a blot there. */
  function Relocate(b: Board, from: nat, t: nat): Pips
    requires ValidBoard(b) && from < NumPips && from != t
    requires b.pips[from][0] == b.roller && Open(b, t)
  {
    RelocatePossible(b, from, t);
    var h := if 1 <= t <= 24 then Hit(b, t) else b.pips;
    Shift(h, from, t, b.roller)
  }

  /** The checker to move survives the hit and the destination has room for it. */
  lemma RelocatePossible(b: Board, from: nat, t: nat)
    requires ValidBoard(b) && from < NumPips && from != t
    requires b.pips[from][0] == b.roller && Open(b, t)
    ensures t < NumPips
    ensures var h := if 1 <= t <= 24 then Hit(b, t) else b.pips;
      && ValidBoard(b.(pips := h)) && h[from] == b.pips[from] && CanAdd(h[t], b.roller)
      && Count(h[t], b.roller) == Count(b.pips[t], b.roller)
      && Reserved(t) in {NoChecker, b.roller}
  {
    var r, other := b.roller, OtherColor(b.roller);
    var ps := b.pips;
    ValidFacts(ps[from]);
    SumCountTwo(ps, t, from, r);
    if 1 <= t <= 24 {
      HitResult(b, t);
      var h := Hit(b, t);
      if ps[t][0] == other {
        EmptyFacts(r);
      } else {
        RoomFor(h[t], r, Capacity - 1);
      }
    } else {
      RoomFor(ps[t], r, Capacity - 1);
    }
  }

  /** Relocating keeps the board valid and moves one of the roller's checkers from `from` to
      `t`. */
  lemma RelocateResult(b: Board, from: nat, t: nat)
    requires ValidBoard(b) && from < NumPips && from != t
    requires b.pips[from][0] == b.roller && Open(b, t)
    ensures t < NumPips
    ensures var r := Relocate(b, from, t);
      && ValidBoard(b.(pips := r))
      && Count(r[from], b.roller) == Count(b.pips[from], b.roller) - 1
      && Count(r[t], b.roller) == Count(b.pips[t], b.roller) + 1
  {
    RelocatePossible(b, from, t);
    var h := if 1 <= t <= 24 then Hit(b, t) else b.pips;
    var hb := b.(pips := h);
    ShiftKeepsValid(hb, from, t, b.roller);
    assert Relocate(b, from, t) == Shift(h, from, t, b.roller);
    assert b.(pips := Shift(h, from, t, b.roller)) == hb.(pips := Shift(hb.pips, from, t, b.roller));
  }

  // ---------------------------------------------------------------------------------------
  // Playing a die

  /** The board after `die` is played with the new pips ps: Roll.Use takes the die out of Roll
      and writes it into RollUsed. */
  function Played(b: Board, die: Rolls.Die, ps: Pips): Board
    requires WellFormed(b) && die in Rolls.Dice(b.roll)
  {
    Rolls.HasFreeSlot(b.rollUsed);
    b.(roll := Rolls.Use(b.roll, die), rollUsed := Rolls.Deposit(b.rollUsed, die), pips := ps)
  }

  /** Playing a die with pips that keep the board valid gives a well-formed board with one die
      fewer to play and the same dice overall. */
  lemma PlayedResult(b: Board, die: Rolls.Die, ps: Pips)
    requires WellFormed(b) && die in Rolls.Dice(b.roll) && ValidBoard(b.(pips := ps))
    ensures var n := Played(b, die, ps);
      && WellFormed(n) && Preserves(b, n)
      && |Rolls.Dice(n.roll)| == |Rolls.Dice(b.roll)| - 1
  {
    Rolls.HasFreeSlot(b.rollUsed);
    Rolls.UseConserves(b.roll, b.rollUsed, die);
    Rolls.UseDrawsFromRoll(b.roll, die);
  }

  // ---------------------------------------------------------------------------------------
  // Entering from the bar

  /** Board.comeOffTheBar (brd/brd.go:671-702): None (Go's nil) when the entry point is
      blocked; otherwise the die is played, a blot on the entry point is hit, and one of the
      roller's checkers moves from its bar to the entry point. */
  function ComeOffTheBar(b: Board, die: Rolls.Die): (r: Option<Board>)
    requires WellFormed(b) && die in Rolls.Dice(b.roll) && NumOnBar(b) > 0
    ensures r.None? <==> Blocked(b, EntryPoint(b.roller, die))
    ensures r.Some? ==> WellFormed(r.value) && Preserves(b, r.value)
    ensures r.Some? ==> |Rolls.Dice(r.value.roll)| == |Rolls.Dice(b.roll)| - 1
    ensures r.Some? ==> var i, bar := EntryPoint(b.roller, die), BarPip(b.roller);
      && Count(r.value.pips[bar], b.roller) == Count(b.pips[bar], b.roller) - 1
      && Count(r.value.pips[i], b.roller) == Count(b.pips[i], b.roller) + 1
  {
    var i, bar := EntryPoint(b.roller, die), BarPip(b.roller);
    if Blocked(b, i) then None
    else
      ValidFacts(b.pips[bar]);
      RelocateResult(b, bar, i);
      var n := Played(b, die, Relocate(b, bar, i));
      PlayedResult(b, die, n.pips);
      Some(n)
  }

  // ---------------------------------------------------------------------------------------
  // Moving and bearing off

  /** No first slot among points lo .. hi-1 holds the roller's colour. */
  predicate NoRollerOn(b: Board, lo: nat, hi: nat)
    requires hi <= NumPips
  {
    forall i :: lo <= i < hi ==> b.pips[i][0] != b.roller
  }

  /** Board.canBearOff (brd/brd.go:758-777): nothing on the roller's bar and no checker of the
      roller outside its home board (points 1 to 18 for White, 7 to 24 for Red). */
  predicate CanBearOff(b: Board) {
    && NumOnBar(b) == 0
    && (if b.roller == White then NoRollerOn(b, 1, 19) else NoRollerOn(b, 7, 25))
  }

  /** The loops of Board.canBearOff. */
  method CanBearOffLoop(b: Board) returns (can: bool)
    ensures can == CanBearOff(b)
  {
    var onBar := NumCheckersRollerHasOnTheBar(b);
    if onBar > 0 {
      return false;
    }
    var lo, hi := 7, 25;
    if b.roller == White {
      lo, hi := 1, 19;
    }
    for i := lo to hi
      invariant NoRollerOn(b, lo, i)
    {
      if b.pips[i][0] == b.roller {
        return false;
      }
    }
    return true;
  }

  /** The first point of the roller's home board and the pip its checkers are borne off to. */
  function HomeLowest(roller: Checker): nat {
    if roller == White then 19 else 1
  }

  /** On a valid board the roller may bear off exactly when all fifteen of its checkers are on
      its home board or already borne off. */
  lemma CanBearOffMeansAllHome(b: Board)
    requires ValidBoard(b)
    ensures CanBearOff(b) <==>
      SumCount(b.pips[HomeLowest(b.roller)..HomeLowest(b.roller) + 6], b.roller)
        + Count(b.pips[BorneOffPip(b.roller)], b.roller) == Capacity
  {
    var r := b.roller;
    var ps := b.pips;
    var lo := HomeLowest(r);
    NumOnBarCounts(b);
    BoardTotals(b);
    OnlyColourCount(ps[BarWhitePip], White);
    OnlyColourCount(ps[BarRedPip], Red);
    OnlyColourCount(ps[BorneOffWhitePip], White);
    OnlyColourCount(ps[BorneOffRedPip], Red);
    // The points outside home hold no roller checker exactly when NoRollerOn holds there.
    var outLo, outHi := if r == White then 1 else 7, if r == White then 19 else 25;
    forall i | outLo <= i < outHi
      ensures ps[i][0] != r <==> Count(ps[i], r) == 0
    {
      ValidFacts(ps[i]);
      if ps[i][0] != r {
        ForeignPoint(ps[i], r);
      }
    }
    SplitBoard(b, r);
    SumCountZero(ps, outLo, outHi, r);
  }

  /** The pips before Red's borne-off pip split into White's borne-off pip, the points below,
      inside and above the roller's home board. */
  lemma SplitBoard(b: Board, r: Checker)
    requires r == White || r == Red
    ensures SumCount(b.pips[..BorneOffRedPip], r)
         == Count(b.pips[0], r) + SumCount(b.pips[1..19], r) + SumCount(b.pips[19..25], r)
    ensures SumCount(b.pips[..BorneOffRedPip], r)
         == Count(b.pips[0], r) + SumCount(b.pips[1..7], r) + SumCount(b.pips[7..25], r)
  {
    SumCountSlice(b.pips, 1, 25, r);
    SumCountSplit(b.pips, 1, 19, 25, r);
    SumCountSplit(b.pips, 1, 7, 25, r);
    SumCountStep(b.pips, 0, r);
    assert b.pips[..0] == [];
  }

  // ---------------------------------------------------------------------------------------
  // Moving a checker by one die

  /** Board.canMoveChecker (brd/brd.go:779-825): where the checker on `start` lands when moved
      by `die`, or None when it may not move. A White checker moves up and is borne off past
      24; a Red checker moves down and is borne off below 1. Bearing off needs canBearOff, and
      a die larger than needed may bear off only the checker farthest from home. */
  function CanMoveChecker(b: Board, start: nat, die: Rolls.Die): (r: Option<nat>)
    requires 1 <= start <= 24 && b.pips[start][0] == b.roller && 1 <= die <= 6
    ensures r.Some? ==> Open(b, r.value) && r.value != start
    ensures r == Some(BorneOffPip(b.roller)) ==> CanBearOff(b)
    // White: an ordinary move lands `die` points up, unless the opponent has made that point.
    ensures b.roller == White && start + die <= 24 ==>
      (r.Some? <==> !Blocked(b, start + die)) && (r.Some? ==> r.value == start + die)
    // White bearing off with the exact die.
    ensures b.roller == White && start + die == 25 ==>
      (r.Some? <==> CanBearOff(b)) && (r.Some? ==> r.value == BorneOffWhitePip)
    // White bearing off with a larger die: only with no White checker farther from home.
    ensures b.roller == White && start + die > 25 ==>
      (r.Some? <==> CanBearOff(b) && NoRollerOn(b, 19, start)) && (r.Some? ==> r.value == BorneOffWhitePip)
    // Red, the mirror image: down the board, borne off below point 1.
    ensures b.roller != White && start - die >= 1 ==>
      (r.Some? <==> !Blocked(b, start - die)) && (r.Some? ==> r.value == start - die)
    ensures b.roller != White && start - die == 0 ==>
      (r.Some? <==> CanBearOff(b)) && (r.Some? ==> r.value == BorneOffRedPip)
    ensures b.roller != White && start - die < 0 ==>
      (r.Some? <==> CanBearOff(b) && NoRollerOn(b, start + 1, 7)) && (r.Some? ==> r.value == BorneOffRedPip)
  {
    if b.roller == White then
      var target := start + die;
      if start >= 19 && target > 24 then
        if (target == 25 || NoRollerOn(b, 19, start)) && CanBearOff(b) then Some(BorneOffWhitePip)
        else None
      else if !Blocked(b, target) then Some(target)
      else None
    else
      var target := start - die;
      if start <= 6 && target < 1 then
        if (target == 0 || NoRollerOn(b, start + 1, 7)) && CanBearOff(b) then Some(BorneOffRedPip)
        else None
      else if !Blocked(b, target) then Some(target)
      else None
  }

  /** Board.canMoveChecker as the source runs it, with the goodEnough loops over the home board.
      targetPip means nothing when can is false. */
  method CanMoveCheckerLoop(b: Board, startPipIndex: nat, die: Rolls.Die) returns (targetPip: int, can: bool)
    requires 1 <= startPipIndex <= 24 && b.pips[startPipIndex][0] == b.roller && 1 <= die <= 6
    ensures can <==> CanMoveChecker(b, startPipIndex, die).Some?
    ensures can ==> targetPip == CanMoveChecker(b, startPipIndex, die).value
  {
    can := false;
    if b.roller == White {
      targetPip := startPipIndex + die;
      if startPipIndex >= 19 && targetPip > 24 {
        var exact := targetPip == 25;
        var goodEnough := true;
        if targetPip != 25 {
          for i := 19 to startPipIndex
            invariant goodEnough == NoRollerOn(b, 19, i)
          {
            if b.pips[i][0] == b.roller {
              goodEnough := false;
              break;
            }
          }
        }
        if exact || goodEnough {
          can := CanBearOffLoop(b);
          targetPip := BorneOffWhitePip;
        }
        return;
      }
      can := b.pips[targetPip][0] != OtherColor(b.roller) || b.pips[targetPip][1] != OtherColor(b.roller);
      return;
    }
    targetPip := startPipIndex - die;
    if startPipIndex <= 6 && targetPip < 1 {
      var exact := targetPip == 0;
      var goodEnough := true;
      if targetPip != 0 {
        var i := 6;
        while i > startPipIndex
          invariant startPipIndex <= i <= 6
          invariant goodEnough == NoRollerOn(b, i + 1, 7)
        {
          if b.pips[i][0] == b.roller {
            goodEnough := false;
            break;
          }
          i := i - 1;
        }
      }
      if exact || goodEnough {
        can := CanBearOffLoop(b);
        targetPip := BorneOffRedPip;
      }
      return;
    }
    can := b.pips[targetPip][0] != OtherColor(b.roller) || b.pips[targetPip][1] != OtherColor(b.roller);
  }

  /** The board after the checker on `start` is moved by `die` to `t` (brd/brd.go:838-851):
      a blot on t goes to the opponent's bar, the checker lands, and the die is played. */
  function Move(b: Board, start: nat, die: Rolls.Die, t: nat): (n: Board)
    requires WellFormed(b) && die in Rolls.Dice(b.roll)
    requires 1 <= start <= 24 && b.pips[start][0] == b.roller && Open(b, t) && start != t
    ensures WellFormed(n) && Preserves(b, n)
    ensures |Rolls.Dice(n.roll)| == |Rolls.Dice(b.roll)| - 1
    ensures t < NumPips
    ensures Count(n.pips[start], b.roller) == Count(b.pips[start], b.roller) - 1
    ensures Count(n.pips[t], b.roller) == Count(b.pips[t], b.roller) + 1
  {
    RelocateResult(b, start, t);
    var ps := Relocate(b, start, t);
    PlayedResult(b, die, ps);
    Played(b, die, ps)
  }
}
