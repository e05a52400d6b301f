/** The board metrics of brd/brd.go that the AI players weigh: made points, primes, checkers
    home, pip counts, contact and blots. Each is a method with the source's loop, proved equal
    to a specification function; lemmas state what the specification functions mean. */
module Metrics {
  import opened Points
  import opened Boards

  // ---------------------------------------------------------------------------------------
  // Made points and primes

  /** Point i (1 to 24) is made by `player`: its first two slots hold `player`. */
  predicate Made(b: Board, player: Checker, i: nat)
    requires i < NumPips
  {
    MadeBy(b.pips[i], player)
  }

  /** Number of points among 1 .. n-1 made by `player`. */
  function MadeBelow(b: Board, player: Checker, n: nat): (k: nat)
    requires n <= 25
    ensures n >= 1 ==> k <= n - 1
  {
    if n <= 1 then 0
    else MadeBelow(b, player, n - 1) + (if Made(b, player, n - 1) then 1 else 0)
  }

  /** Board.NumPointsBlocked (brd/brd.go:167-174). */
  method NumPointsBlocked(b: Board, player: Checker) returns (result: int)
    ensures result == MadeBelow(b, player, 25)
  {
    result := 0;
    for i := 1 to 25
      invariant result == MadeBelow(b, player, i)
    {
      if MadeBy(b.pips[i], player) {
        result := result + 1;
      }
    }
  }

  /** The checkers of `player` on pips 0 .. n-1 number at least twice the made points below n. */
  lemma {:induction false} MadePointsNeedCheckers(b: Board, player: Checker, n: nat)
    requires n <= 25 && player != NoChecker
    requires forall i :: 0 <= i < NumPips ==> Valid(b.pips[i])
    ensures 2 * MadeBelow(b, player, n) <= SumCount(b.pips[..n], player)
  {
    if n > 1 {
      MadePointsNeedCheckers(b, player, n - 1);
      SumCountStep(b.pips, n - 1, player);
      MadeByCount(b.pips[n - 1], player);
    }
  }

  /** With fifteen checkers a side no player can make more than seven points. */
  lemma AtMostSevenPointsBlocked(b: Board, player: Checker)
    requires ValidBoard(b) && player != NoChecker
    ensures MadeBelow(b, player, 25) <= 7
  {
    MadePointsNeedCheckers(b, player, 25);
    SumCountPrefix(b.pips, 25, player);
  }

  /** Length of the run of consecutive made points that ends at point i (0 if i is not made). */
  function Run(b: Board, player: Checker, i: nat): (k: nat)
    requires i <= 24
    ensures k <= i
  {
    if i == 0 || !Made(b, player, i) then 0 else 1 + Run(b, player, i - 1)
  }

  /** The longest run ending at one of the points 1 .. n-1. */
  function LongestRun(b: Board, player: Checker, n: nat): (m: nat)
    requires n <= 25
    ensures forall i :: 1 <= i < n ==> Run(b, player, i) <= m
  {
    if n <= 1 then 0
    else
      var prev := LongestRun(b, player, n - 1);
      var here := Run(b, player, n - 1);
      if here > prev then here else prev
  }

  /** The longest run is the run ending at some point. */
  lemma {:induction false} LongestRunAttained(b: Board, player: Checker, n: nat)
    requires n <= 25
    ensures LongestRun(b, player, n) == 0
         || exists i :: 1 <= i < n && Run(b, player, i) == LongestRun(b, player, n)
  {
    if n > 1 {
      LongestRunAttained(b, player, n - 1);
      var prev, here := LongestRun(b, player, n - 1), Run(b, player, n - 1);
      assert LongestRun(b, player, n) == if here > prev then here else prev;
      if here <= prev && prev > 0 {
        var i :| 1 <= i < n - 1 && Run(b, player, i) == prev;
        RunAttains(b, player, n, i);
      } else if here > prev {
        RunAttains(b, player, n, n - 1);
      } else {
        assert LongestRun(b, player, n) == 0;
      }
    }
  }

  lemma RunAttains(b: Board, player: Checker, n: nat, i: nat)
    requires 1 <= i < n <= 25 && Run(b, player, i) == LongestRun(b, player, n)
    ensures exists j :: 1 <= j < n && Run(b, player, j) == LongestRun(b, player, n)
  {
  }

  /** Board.LengthOfMaxPrime (brd/brd.go:176-189): k is the current run, `result` the longest
      run closed so far. */
  method LengthOfMaxPrime(b: Board, player: Checker) returns (result: int)
    ensures result == LongestRun(b, player, 25)
  {
    var k := 0;
    result := 0;
    for i := 1 to 25
      invariant k == Run(b, player, i - 1) && 0 <= result
      invariant (if k > result then k else result) == LongestRun(b, player, i)
    {
      if MadeBy(b.pips[i], player) {
        k := k + 1;
      } else {
        result := if k > result then k else result;
        k := 0;
      }
    }
    result := if k > result then k else result;
  }

  /** A run ending at i is at least `len` long exactly when the `len` points up to i are made. */
  lemma {:induction false} RunMeaning(b: Board, player: Checker, i: nat, len: nat)
    requires 1 <= i <= 24 && len <= i
    ensures Run(b, player, i) >= len <==> forall j :: i - len < j <= i ==> Made(b, player, j)
  {
    if len > 0 && Made(b, player, i) {
      if i > 1 {
        RunMeaning(b, player, i - 1, len - 1);
      }
    }
  }

  /** The `len` points from s on are all made by `player`: a prime of that length. */
  predicate PrimeAt(b: Board, player: Checker, s: nat, len: nat)
    requires s + len <= 25
  {
    forall j :: s <= j < s + len ==> Made(b, player, j)
  }

  /** No prime is longer than LengthOfMaxPrime: every run of made points from s on of length
      len has len <= the result. */
  lemma NoPrimeLongerThanMax(b: Board, player: Checker, s: nat, len: nat)
    requires 1 <= s && s + len <= 25
    requires PrimeAt(b, player, s, len)
    ensures len <= LongestRun(b, player, 25)
  {
    if len > 0 {
      RunMeaning(b, player, s + len - 1, len);
    }
  }

  /** The prime LengthOfMaxPrime reports exists on the board. */
  lemma MaxPrimeExists(b: Board, player: Checker)
    ensures var m := LongestRun(b, player, 25);
      m == 0 || exists s :: 1 <= s && s + m <= 25 && PrimeAt(b, player, s, m)
  {
    var m := LongestRun(b, player, 25);
    LongestRunAttained(b, player, 25);
    if m > 0 {
      var i :| 1 <= i < 25 && Run(b, player, i) == m;
      RunMeaning(b, player, i, m);
      assert PrimeAt(b, player, i - m + 1, m);
    }
  }

  /** A run never has more points than there are made points. */
  lemma {:induction false} RunWithinMade(b: Board, player: Checker, i: nat)
    requires i <= 24
    ensures Run(b, player, i) <= MadeBelow(b, player, i + 1)
  {
    if i > 0 && Made(b, player, i) {
      RunWithinMade(b, player, i - 1);
    }
  }

  lemma {:induction false} MadeBelowGrows(b: Board, player: Checker, m: nat, n: nat)
    requires m <= n <= 25
    ensures MadeBelow(b, player, m) <= MadeBelow(b, player, n)
    decreases n - m
  {
    if m < n {
      MadeBelowGrows(b, player, m, n - 1);
    }
  }

  /** The longest prime is no longer than the number of points made. */
  lemma MaxPrimeWithinBlocked(b: Board, player: Checker)
    ensures LongestRun(b, player, 25) <= MadeBelow(b, player, 25)
  {
    var m := LongestRun(b, player, 25);
    LongestRunAttained(b, player, 25);
    if m > 0 {
      var i :| 1 <= i < 25 && Run(b, player, i) == m;
      RunWithinMade(b, player, i);
      MadeBelowGrows(b, player, i + 1, 25);
    }
  }

  // ---------------------------------------------------------------------------------------
  // Checkers home

  /** The slots NumCheckersHome's inner loop reads: up to and including the first empty one. */
  function Scanned(p: Point): (n: nat)
    ensures n <= Capacity
  {
    if FirstEmpty(p) < Capacity then FirstEmpty(p) + 1 else Capacity
  }

  /** The first of the six home points NumCheckersHome inspects: 1 to 6 for Red, 19 to 24 for
      any other player. */
  function HomeLow(player: Checker): nat {
    if player == Red then 1 else 19
  }

  /** Sum over the given points of the `player` slots NumCheckersHome's scan sees. */
  function ScanSum(ps: seq<Point>, player: Checker): nat {
    if ps == [] then 0
    else ScanSum(ps[..|ps| - 1], player) + Count(ps[|ps| - 1][..Scanned(ps[|ps| - 1])], player)
  }

  /** NumCheckersHome's inner loop over one point: count `player` until the first empty slot. */
  method ScanPoint(p: Point, player: Checker) returns (n: nat)
    ensures n == Count(p[..Scanned(p)], player)
  {
    n := 0;
    var j := 0;
    while j < Capacity
      invariant 0 <= j <= Capacity
      invariant forall i :: 0 <= i < j ==> p[i] != NoChecker
      invariant n == Count(p[..j], player)
    {
      CountStep(p, j, player);
      if p[j] == player {
        n := n + 1;
      }
      if p[j] == NoChecker {
        FirstEmptyAt(p, j);
        return;
      }
      j := j + 1;
    }
    FirstEmptyAt(p, Capacity);
  }

  /** Board.NumCheckersHome (brd/brd.go:191-207). */
  method NumCheckersHome(b: Board, player: Checker) returns (result: int)
    ensures result == ScanSum(b.pips[HomeLow(player)..HomeLow(player) + 6], player)
  {
    var lo := HomeLow(player);
    result := 0;
    for x := lo to lo + 6
      invariant result == ScanSum(b.pips[lo..x], player)
    {
      var n := ScanPoint(b.pips[x], player);
      ScanSumStep(b.pips, lo, x, player);
      result := result + n;
    }
  }

  /** One more point scanned adds what the scan of that point sees. */
  lemma ScanSumStep(ps: seq<Point>, lo: nat, x: nat, player: Checker)
    requires lo <= x < |ps|
    ensures ScanSum(ps[lo..x + 1], player) == ScanSum(ps[lo..x], player) + Count(ps[x][..Scanned(ps[x])], player)
  {
    assert ps[lo..x + 1][..x - lo] == ps[lo..x];
  }

  /** On a valid point the scan sees every checker of a colour. */
  lemma ScanIsCount(p: Point, c: Checker)
    requires Valid(p) && c != NoChecker
    ensures Count(p[..Scanned(p)], c) == Count(p, c)
  {
    ValidFacts(p);
    var k := Scanned(p);
    assert p == p[..k] + p[k..];
    CountConcat(p[..k], p[k..], c);
    CountZero(p[k..], c);
  }

  lemma {:induction false} ScanSumIsSumCount(ps: seq<Point>, c: Checker)
    requires forall i :: 0 <= i < |ps| ==> Valid(ps[i])
    requires c != NoChecker
    ensures ScanSum(ps, c) == SumCount(ps, c)
  {
    if ps != [] {
      ScanSumIsSumCount(ps[..|ps| - 1], c);
      ScanIsCount(ps[|ps| - 1], c);
    }
  }

  /** On a valid board NumCheckersHome is the number of the player's checkers on its home
      points (for a colour), and so at most fifteen. */
  lemma CheckersHomeCounted(b: Board, player: Checker)
    requires ValidBoard(b) && player != NoChecker
    ensures var lo := HomeLow(player);
      && ScanSum(b.pips[lo..lo + 6], player) == SumCount(b.pips[lo..lo + 6], player)
      && ScanSum(b.pips[lo..lo + 6], player) <= Capacity
  {
    var lo := HomeLow(player);
    ScanSumIsSumCount(b.pips[lo..lo + 6], player);
    SumCountSlice(b.pips, lo, lo + 6, player);
    SumCountPrefix(b.pips, lo + 6, player);
  }

  // ---------------------------------------------------------------------------------------
  // Pip count

  /** How far a checker of `player` on point i still has to travel: 25-i for White, i for any
      other player. */
  function Weight(player: Checker, i: nat): nat
    requires 1 <= i <= 24
  {
    if player == White then 25 - i else i
  }

  /** The weighted count of `player`'s checkers on points 1 .. n-1. */
  function WeightedSum(b: Board, player: Checker, n: nat): nat
    requires n <= 25
  {
    if n <= 1 then 0
    else WeightedSum(b, player, n - 1) + Count(b.pips[n - 1], player) * Weight(player, n - 1)
  }

  /** The bar PipCount reads: White's for White, Red's for any other player. */
  function PipCountBar(player: Checker): nat {
    if player == White then BarWhitePip else BarRedPip
  }

  /** The pip count: 25 for every checker on the bar plus the distance of every checker on
      the points. */
  function PipCountOf(b: Board, player: Checker): nat {
    25 * NumCheckers(b.pips[PipCountBar(player)]) + WeightedSum(b, player, 25)
  }

  /** PipCount's loop over a bar: the occupied slots. */
  method CountOccupied(p: Point) returns (n: nat)
    ensures n == NumCheckers(p)
  {
    n := 0;
    for j := 0 to Capacity
      invariant n == j - Count(p[..j], NoChecker)
    {
      CountStep(p, j, NoChecker);
      if p[j] != NoChecker {
        n := n + 1;
      }
    }
    assert p[..Capacity] == p;
  }

  /** PipCount's loop over a point: w more for every slot holding `player`. */
  method AddWeighted(p: Point, player: Checker, w: nat, acc: int) returns (r: int)
    ensures r == acc + Count(p, player) * w
  {
    r := acc;
    for j := 0 to Capacity
      invariant r == acc + Count(p[..j], player) * w
    {
      CountStep(p, j, player);
      ghost var c := Count(p[..j], player);
      if p[j] == player {
        assert (c + 1) * w == c * w + w;
        r := r + w;
      }
    }
    assert p[..Capacity] == p;
  }

  /** Board.PipCount (brd/brd.go:209-238): the two branches differ only in the bar and the
      weights, so they share one loop here. */
  method PipCount(b: Board, player: Checker) returns (result: int)
    ensures result == PipCountOf(b, player)
  {
    var onBar := CountOccupied(b.pips[PipCountBar(player)]);
    result := 25 * onBar;
    for i := 1 to 25
      invariant result == 25 * onBar + WeightedSum(b, player, i)
    {
      result := AddWeighted(b.pips[i], player, Weight(player, i), result);
    }
  }

  /** A product with a positive factor vanishes only with the other factor. */
  lemma ProductZero(a: nat, w: nat)
    requires w >= 1
    ensures a * w == 0 <==> a == 0
  {
    if a > 0 {
      assert a * w >= w;
    }
  }

  /** The weighted sum vanishes exactly when no checker of `player` is on points 1 .. n-1. */
  lemma {:induction false} WeightedSumZero(b: Board, player: Checker, n: nat)
    requires 1 <= n <= 25
    ensures WeightedSum(b, player, n) == 0 <==> SumCount(b.pips[..n], player) == Count(b.pips[0], player)
  {
    if n > 1 {
      WeightedSumZero(b, player, n - 1);
      WeightedSumLast(b, player, n);
      SumCountLast(b.pips, n, player);
    } else {
      SumCountStep(b.pips, 0, player);
      assert b.pips[..0] == [];
    }
  }

  /** The weighted sum over one more point is zero when both the shorter sum and the new
      point's count are. */
  lemma WeightedSumLast(b: Board, player: Checker, n: nat)
    requires 1 < n <= 25
    ensures WeightedSum(b, player, n) == 0 <==>
      WeightedSum(b, player, n - 1) == 0 && Count(b.pips[n - 1], player) == 0
  {
    var c, w := Count(b.pips[n - 1], player), Weight(player, n - 1);
    assert WeightedSum(b, player, n) == WeightedSum(b, player, n - 1) + c * w;
    ProductZero(c, w);
  }

  /** A longer prefix adds the count of its last point, and never counts less than its first. */
  lemma SumCountLast(ps: seq<Point>, n: nat, c: Checker)
    requires 1 < n <= |ps|
    ensures SumCount(ps[..n], c) == SumCount(ps[..n - 1], c) + Count(ps[n - 1], c)
    ensures Count(ps[0], c) <= SumCount(ps[..n - 1], c)
  {
    SumCountStep(ps, n - 1, c);
    SumCountAtLeast(ps[..n - 1], 0, c);
    assert ps[..n - 1][0] == ps[0];
  }

  /** On a valid board a player's pip count is zero exactly when all fifteen of its checkers
      are borne off. */
  lemma PipCountZeroIffAllOff(b: Board, player: Checker)
    requires ValidBoard(b) && player != NoChecker
    ensures PipCountOf(b, player) == 0 <==> Count(b.pips[BorneOffPip(player)], player) == Capacity
  {
    BoardTotals(b);
    WeightedSumZero(b, player, 25);
    SumCountAtLeast(b.pips[..25], 0, player);
    OnlyColourCount(b.pips[BarWhitePip], White);
    OnlyColourCount(b.pips[BarRedPip], Red);
    OnlyColourCount(b.pips[BorneOffWhitePip], White);
    OnlyColourCount(b.pips[BorneOffRedPip], Red);
  }

  // ---------------------------------------------------------------------------------------
  // The farthest checkers and contact

  /** On White's scale (0 the bar, 1 to 24 the points) position `pos` shows a White checker:
      the bar's first slot is occupied, or the point's first slot is White. */
  predicate WhiteAt(b: Board, pos: nat)
    requires pos <= 24
  {
    if pos == 0 then b.pips[BarWhitePip][0] != NoChecker else b.pips[pos][0] == White
  }

  /** On Red's scale (1 to 24 the points, 25 the bar) position `pos` shows a Red checker. */
  predicate RedAt(b: Board, pos: nat)
    requires 1 <= pos <= 25
  {
    if pos == 25 then b.pips[BarRedPip][0] != NoChecker else b.pips[pos][0] == Red
  }

  /** The lowest point from i on whose first slot is White, or -1. */
  function FirstWhiteFrom(b: Board, i: nat): (e: int)
    requires 1 <= i <= 25
    ensures e == -1 || (i <= e <= 24 && WhiteAt(b, e))
    ensures forall j :: i <= j <= 24 && (e == -1 || j < e) ==> !WhiteAt(b, j)
    decreases 25 - i
  {
    if i == 25 then -1 else if b.pips[i][0] == White then i else FirstWhiteFrom(b, i + 1)
  }

  /** The highest point up to i whose first slot is Red, or -1. */
  function LastRedUpTo(b: Board, i: nat): (e: int)
    requires i <= 24
    ensures e == -1 || (1 <= e <= i && RedAt(b, e))
    ensures forall j :: 1 <= j <= i && j > e ==> !RedAt(b, j)
  {
    if i == 0 then -1 else if b.pips[i][0] == Red then i else LastRedUpTo(b, i - 1)
  }

  /** The position of White's rearmost checker: 0 on the bar, else its lowest point, -1 if
      White shows on neither. */
  function ExtremeWhite(b: Board): (e: int)
    ensures e == -1 || (0 <= e <= 24 && WhiteAt(b, e))
    ensures forall j :: 0 <= j <= 24 && (e == -1 || j < e) ==> !WhiteAt(b, j)
  {
    if b.pips[BarWhitePip][0] != NoChecker then 0 else FirstWhiteFrom(b, 1)
  }

  /** The position of Red's rearmost checker: 25 on the bar, else its highest point, -1 if
      Red shows on neither. */
  function ExtremeRed(b: Board): (e: int)
    ensures e == -1 || (1 <= e <= 25 && RedAt(b, e))
    ensures forall j :: 1 <= j <= 25 && j > e ==> !RedAt(b, j)
  {
    if b.pips[BarRedPip][0] != NoChecker then 25 else LastRedUpTo(b, 24)
  }

  /** The search for extremeWhite in PipCountOfFarthestChecker and Racing. */
  method FindExtremeWhite(b: Board) returns (e: int)
    ensures e == ExtremeWhite(b)
  {
    if b.pips[BarWhitePip][0] != NoChecker {
      return 0;
    }
    e := -1;
    var i := 1;
    while i < 25
      invariant 1 <= i <= 25
      invariant FirstWhiteFrom(b, i) == FirstWhiteFrom(b, 1)
    {
      if b.pips[i][0] == White {
        return i;
      }
      i := i + 1;
    }
  }

  /** The search for extremeRed in PipCountOfFarthestChecker and Racing. */
  method FindExtremeRed(b: Board) returns (e: int)
    ensures e == ExtremeRed(b)
  {
    if b.pips[BarRedPip][0] != NoChecker {
      return 25;
    }
    e := -1;
    var i := 24;
    while i > 0
      invariant 0 <= i <= 24
      invariant LastRedUpTo(b, i) == LastRedUpTo(b, 24)
    {
      if b.pips[i][0] == Red {
        return i;
      }
      i := i - 1;
    }
  }

  /** The distance the rearmost checker of `player` still has to go. */
  function Farthest(b: Board, player: Checker): int {
    if player == White then 25 - ExtremeWhite(b) else ExtremeRed(b)
  }

  /** Board.PipCountOfFarthestChecker (brd/brd.go:240-268). */
  method PipCountOfFarthestChecker(b: Board, player: Checker) returns (r: int)
    ensures r == Farthest(b, player)
  {
    if player == White {
      var e := FindExtremeWhite(b);
      return 25 - e;
    }
    r := FindExtremeRed(b);
  }

  /** Board.Racing (brd/brd.go:270-296). */
  method Racing(b: Board) returns (racing: bool)
    ensures racing == (ExtremeRed(b) < ExtremeWhite(b))
  {
    var extremeWhite := FindExtremeWhite(b);
    var extremeRed := FindExtremeRed(b);
    racing := extremeRed < extremeWhite;
  }

  /** White shows somewhere, on its bar or on a point. */
  predicate WhitePresent(b: Board) {
    exists w :: 0 <= w <= 24 && WhiteAt(b, w)
  }

  /** Some Red checker is at or beyond some White checker, so the two may still meet. */
  predicate Contact(b: Board) {
    exists w, r :: 0 <= w <= 24 && 1 <= r <= 25 && WhiteAt(b, w) && RedAt(b, r) && w <= r
  }

  /** Racing holds exactly when White has a checker in play and every Red checker has passed
      every White one. */
  lemma RacingMeansNoContact(b: Board)
    ensures ExtremeRed(b) < ExtremeWhite(b) <==> WhitePresent(b) && !Contact(b)
  {
    var ew, er := ExtremeWhite(b), ExtremeRed(b);
    if er < ew {
      assert WhiteAt(b, ew);
    }
    if WhitePresent(b) && !Contact(b) {
      var w :| 0 <= w <= 24 && WhiteAt(b, w);
      assert ew != -1;
      if er != -1 {
        assert WhiteAt(b, ew) && RedAt(b, er);
      }
    }
  }

  /** A White checker on point i, or on the bar, is never farther from home than the checker
      PipCountOfFarthestChecker measures; likewise for Red. */
  lemma FarthestIsFarthest(b: Board, i: nat)
    requires 1 <= i <= 24
    ensures b.pips[i][0] == White ==> 25 - i <= Farthest(b, White) <= 25
    ensures b.pips[BarWhitePip][0] != NoChecker ==> Farthest(b, White) == 25
    ensures b.pips[i][0] == Red ==> i <= Farthest(b, Red) <= 25
    ensures b.pips[BarRedPip][0] != NoChecker ==> Farthest(b, Red) == 25
  {
    assert b.pips[i][0] == White ==> WhiteAt(b, i);
    assert b.pips[i][0] == Red ==> RedAt(b, i);
  }

  // ---------------------------------------------------------------------------------------
  // Blots

  /** A blot: a point whose first slot is `player` and whose second is empty. */
  predicate Blot(b: Board, player: Checker, i: nat)
    requires i < NumPips
  {
    b.pips[i][0] == player && b.pips[i][1] == NoChecker
  }

  /** The liability of a blot on point i: i for White (and any non-Red player), 25-i for Red. */
  function BlotWeight(player: Checker, i: nat): nat
    requires 1 <= i <= 24
  {
    if player == Red then 25 - i else i
  }

  /** The total liability of `player`'s blots on points 1 .. n-1. */
  function BlotSum(b: Board, player: Checker, n: nat): nat
    requires n <= 25
  {
    if n <= 1 then 0
    else BlotSum(b, player, n - 1) + (if Blot(b, player, n - 1) then BlotWeight(player, n - 1) else 0)
  }

  /** Board.BlotLiability (brd/brd.go:298-313). */
  method BlotLiability(b: Board, player: Checker) returns (result: int)
    ensures result == BlotSum(b, player, 25)
  {
    result := 0;
    for i := 1 to 25
      invariant result == BlotSum(b, player, i)
    {
      if b.pips[i][0] == player && b.pips[i][1] == NoChecker {
        result := result + BlotWeight(player, i);
      }
    }
  }

  /** On a valid point the blot test means exactly one checker of that colour. */
  lemma BlotIsSingleChecker(p: Point, player: Checker)
    requires Valid(p) && player != NoChecker
    ensures p[0] == player && p[1] == NoChecker <==> Count(p, player) == 1
  {
    ValidFacts(p);
    if p[0] == NoChecker {
      CountZero(p, player);
    } else if p[0] != player {
      assert player == OtherColor(p[0]);
    }
  }

  /** The liability is zero exactly when `player` has no blot on points 1 .. n-1. */
  lemma {:induction false} NoLiabilityIffNoBlots(b: Board, player: Checker, n: nat)
    requires n <= 25
    ensures BlotSum(b, player, n) == 0 <==> forall i :: 1 <= i < n ==> !Blot(b, player, i)
  {
    if n > 1 {
      NoLiabilityIffNoBlots(b, player, n - 1);
    }
  }

  /** On a valid board BlotLiability is zero exactly when no point holds a single checker of
      the player. */
  lemma NoLiabilityIffNoSingles(b: Board, player: Checker)
    requires ValidBoard(b) && player != NoChecker
    ensures BlotSum(b, player, 25) == 0 <==> forall i :: 1 <= i <= 24 ==> Count(b.pips[i], player) != 1
  {
    NoLiabilityIffNoBlots(b, player, 25);
    forall i | 1 <= i <= 24
      ensures Blot(b, player, i) <==> Count(b.pips[i], player) == 1
    {
      BlotIsSingleChecker(b.pips[i], player);
    }
  }
}
