# gobackgammon in Dafny

A model of the core of gobackgammon, a backgammon engine written in Go, with proofs of what its
rules, its move selection and its compact board codec promise.

- **Rule engine** (package `brd`). A point is 15 checker slots whose occupied slots form a prefix of
  one colour (`Points`). A roll is four die slots whose zero slots come last (`Rolls`). The match
  score and the Crawford rule are in `Scores`. A board holds 28 pips: 0 is White's borne-off pile,
  1 to 24 are the points, 25 is Red's borne-off pile, 26 and 27 are White's and Red's bars
  (`Boards`). `Boards` also covers board validity, the end of a game and its multiplier (single,
  gammon, backgammon), and the turn state machine with the doubling cube. `Metrics` holds the
  position metrics: pip count, made points, longest prime, checkers at home, racing, blot liability
  and the farthest checker. `Moves` holds the single-checker moves: entering from the bar, hitting a
  blot, moving and bearing off. `Generator` holds the legal-continuation generator. It enters from
  the bar, moves with each remaining die recursively, drops equal boards, then keeps only the boards
  that use the most dice, and when that is one die, those that used the larger die.
- **Selection engine** (package `ai`). `Selection` and `Engine` model `minmaximizer`: one round
  scores the candidates not yet ruled out, keeps those at the extremum, and marks the rest with
  "Ruled out by label (score)". Winners come first, then the new losers stably sorted by score, then
  the untouched tail. `Chains` proves that a chain of rounds is a lexicographic selection. `Racer`
  is the racing player, four criteria followed by a random tie-break. `Risk` is the backgammon-risk
  score. `Summaries` renders a score map and an analysis summary.
- **Compact codec** (package `json`). `Codec` holds the point and roll texts, the stakes as a power
  of two, the match score, and the field logic of reading and writing a board. `Decimal` holds the
  decimal text of integers and Go's `strconv.Atoi`.

Random draws are inputs. `Rolls.New` takes the draw `x` in [0, 36). `Boards.New` takes the draws
for the opening roll. The racer's tie-break takes a function from the position of a draw to its
int64 value. Go's in-place updates of points, rolls, scores and boards are methods over arrays or
over the board value they return, each proved equal to the pure function the rest of the model uses.

## Model

| member | source | states |
|---|---|---|
| Points.OtherColor | brd/brd.go:654-663 | the opposite colour is empty exactly for the empty checker, and differs from any real colour |
| Points.FirstEmpty | brd/point.go:58-65 | the index of the first empty slot: every slot before it is occupied and the slot at it, if any, is empty |
| Points.CountPartition | brd/point.go:23-31 | every slot of a point holds an empty, a White or a Red checker, so the three counts add up to the slot count |
| Points.CountZero | brd/point.go:10-12 | a colour counts zero on a point exactly when it does not occur there |
| Points.NumCheckers | brd/point.go:23-31 | the number of checkers on a point is the capacity less the empty slots |
| Points.ValidFacts | brd/point.go:45-70 | on a well-formed point the first empty slot is at the checker count, all checkers are the colour of slot 0 and none the other colour |
| Points.ValidShape | brd/point.go:45-70 | a well-formed point is a run of one colour followed by a run of empty slots |
| Points.MadeBy | brd/point.go:10-12 | on a well-formed point, made by a player exactly when that player has at least two checkers there |
| Points.MadeByCount | brd/point.go:10-12 | slots 0 and 1 hold the player's colour exactly when the player has at least two checkers on a well-formed point |
| Points.Equals | brd/point.go:14-21 | the slot-by-slot comparison is true exactly when the two points are equal |
| Points.EqualFrom | brd/point.go:14-21 | the comparison from slot i on is true exactly when the two suffixes are equal |
| Points.ResetValid | brd/point.go:35-43 | a reset point is well formed and holds n checkers of the colour, clipped to the range 0..15, and none of the other colour |
| Points.CanAddValid | brd/point.go:45-56 | adding does not panic exactly when the point has room and holds none of the other colour |
| Points.Add | brd/point.go:45-56 | adding raises the colour's count and the checker count by one, leaves the other colour alone and keeps the point well formed |
| Points.Subtract | brd/point.go:58-70 | subtracting from a well-formed point lowers the top colour's count and the checker count by one, leaves the other colour and keeps it well formed |
| Points.AddThenSubtract | brd/point.go:45-70 | subtracting right after adding gives back the original point |
| Points.ResetInPlace | brd/point.go:35-43 | the loop over the array leaves exactly the reset point |
| Points.AddInPlace | brd/point.go:45-56 | the loop over the array writes the checker into the first empty slot, as Add does |
| Points.SubtractInPlace | brd/point.go:58-70 | the scan for the first empty slot clears the slot below it, as Subtract does |
| Scores.Equals | brd/score.go:17-34 | the field-by-field comparison is true exactly when the scores are equal |
| Scores.Update | brd/score.go:52-61 | the victor's score rises by the stakes, the loser's is unchanged and so are the Crawford flags and the goal |
| Scores.CrawfordRuleAppliesNextGame | brd/score.go:63-68 | the rule applies only when it is on, not yet used, and one player is a point short of the goal |
| Scores.CrawfordOnlyOnce | brd/score.go:52-68 | once the Crawford game has been played, no later win brings the rule back |
| Scores.CrawfordAfterWin | brd/score.go:52-68 | a win that brings a player to one point short of the goal, with the rule on and unused, makes the rule apply next game |
| Rolls.Dice | brd/roll.go:165-172 | the dice in play are never longer than the roll and never contain the zero die |
| Rolls.DiceMembers | brd/roll.go:165-172 | a die is in play exactly when it occurs in the roll and is not the zero die |
| Rolls.DiceConcat | brd/roll.go:165-172 | the dice of two joined slot runs are the dice of the first followed by those of the second |
| Rolls.DiceNoZero | brd/roll.go:165-172 | a run without zero dice is its own list of dice |
| Rolls.HasFreeSlot | brd/roll.go:124-134 | a roll with fewer than four dice in play has a zero slot, so a deposit into it cannot panic |
| Rolls.UniqueDice | brd/roll.go:141-159 | the unique dice are strictly descending and hold exactly the dice in play |
| Rolls.DistinctBelow | brd/roll.go:141-159 | the distinct dice below a bound are strictly descending and are exactly the listed dice between 1 and the bound |
| Rolls.DescendingOneValue | brd/roll.go:141-159 | a strictly descending list of one value has at most one entry |
| Rolls.DescendingTwoValues | brd/roll.go:141-159 | a strictly descending list of two values has at most two entries |
| Rolls.Insert | brd/roll.go:21-31 | inserting into a descending list keeps it descending and adds exactly the new die |
| Rolls.SortDescending | brd/roll.go:21-31 | the sort is descending and a permutation of its input |
| Rolls.DescendingHeadIsMax | brd/roll.go:21-31 | the head of a descending list is its largest element |
| Rolls.DescendingUnique | brd/roll.go:19-41 | two descending lists with the same elements are equal, so comparing sorted dice compares multisets |
| Rolls.Equals | brd/roll.go:19-41 | two rolls are equal exactly when they hold the same dice in play, in any order |
| Rolls.Invalidity | brd/roll.go:43-68 | no defect is reported exactly when the roll is two distinct dice in 1..6, larger first, or a doublet written four times |
| Rolls.InvalidityShape | brd/roll.go:43-68 | the source's sequence of checks passes exactly when the roll has one of those two shapes |
| Rolls.ChecksGiveShape | brd/roll.go:43-68 | a roll that passes every check has one of the two accepted shapes |
| Rolls.TwoDiceChecks | brd/roll.go:43-68 | two distinct dice, larger first, pass every check |
| Rolls.DoubletChecks | brd/roll.go:43-68 | a doublet written four times passes every check |
| Rolls.DiceOfFour | brd/roll.go:165-172 | the dice of a roll are its non-zero slots in slot order |
| Rolls.DiceStep | brd/roll.go:165-172 | the dice of a slot run are the first slot if it is in play, then the dice of the rest |
| Rolls.New | brd/roll.go:71-91 | a new roll from the draw x in 0..35 is valid, holds the dice x mod 6 + 1 and x div 6 + 1, and is a doublet exactly when the two are equal |
| Rolls.NewInPlace | brd/roll.go:71-91 | the method clears the used-dice roll and writes the new roll |
| Rolls.Clear | brd/roll.go:72-74 | the loop sets every slot to the zero die |
| Rolls.IndexOf | brd/roll.go:124-131 | the index of the first occurrence of a die |
| Rolls.RemoveFirst | brd/roll.go:114-123 | removing a die that is absent changes nothing, and otherwise shortens the list by one |
| Rolls.RemoveFirstMultiset | brd/roll.go:114-123 | removing a present die takes exactly one copy of it away |
| Rolls.RemoveFirstCuts | brd/roll.go:114-123 | removing a present die cuts the list at its first occurrence |
| Rolls.DiceRemoveFirst | brd/roll.go:107-136 | removing a die from the slots and then reading the dice is the same as removing it from the dice |
| Rolls.Use | brd/roll.go:107-136 | the remaining roll's dice are those of the roll less one copy of the die; an absent die leaves the roll as it was; otherwise the slots shift left and the last one is zero |
| Rolls.Deposit | brd/roll.go:124-131 | the die goes into the first zero slot of the recipient and every other slot is unchanged |
| Rolls.DepositDice | brd/roll.go:124-131 | the recipient's dice gain exactly the deposited die |
| Rolls.DiceUpdate | brd/roll.go:124-131 | writing a die into a zero slot adds exactly that die to the dice |
| Rolls.UseConserves | brd/roll.go:107-136 | using a die moves one copy from the roll to the used dice: the two together keep their dice, the roll loses one and the recipient gains one |
| Rolls.UseDrawsFromRoll | brd/roll.go:107-136 | every die left after a use was in the roll |
| Rolls.UseInPlace | brd/roll.go:107-136 | the method returns the remaining roll and deposits the die into the recipient array |
| Rolls.RemainingDice | brd/roll.go:111-123 | the first loop computes the remaining roll |
| Rolls.DepositInPlace | brd/roll.go:124-134 | the second loop deposits the die into the first zero slot |
| Rolls.RemoveFirstSnoc | brd/roll.go:114-123 | removing a die from a list with one more entry appended, as the loop extends its prefix |
| Boards.SumCountUpdate | brd/brd.go:522-606 | replacing one point changes a colour's total by the difference of that point's counts |
| Boards.SumCountAtLeast | brd/brd.go:522-606 | no single point holds more of a colour than the whole board |
| Boards.SumCountTwo | brd/brd.go:522-606 | two distinct points together hold no more of a colour than the whole board |
| Boards.SumCountSlice | brd/brd.go:522-606 | a colour's total over a prefix splits at any index into the totals of the two parts |
| Boards.SumCountZero | brd/brd.go:522-606 | a colour's total over a range is zero exactly when every point in the range has none of it |
| Boards.ValidIsPrefixAndNoMix | brd/brd.go:531-598 | a point is well formed exactly when its empty slots come last and it does not mix colours |
| Boards.Invalidity | brd/brd.go:522-606 | no defect is reported exactly when the roll is valid or ignored and the board is valid: well-formed points, the right colours on the bars and borne-off pips, and 15 checkers of each colour; a bad roll or a wrong total is reported with what was found |
| Boards.ReservedPips | brd/brd.go:542-574 | the scans of the bars and borne-off pips report a defect exactly when one holds the wrong colour, and otherwise count each colour there |
| Boards.ReservedTotals | brd/brd.go:542-574 | with the right colours on the reserved pips, each colour's total is its count on points 0..24 plus its own bar |
| Boards.FirstUnorderedPip | brd/brd.go:531-541 | the scan finds a pip with a checker after an empty slot, or else every pip has its empty slots last |
| Boards.CountOwnColour | brd/brd.go:543-574 | the scan of one reserved pip finds a foreign checker exactly when the pip holds one, and otherwise counts the owner's checkers |
| Boards.CountPoints | brd/brd.go:575-598 | the scan of points 1..24 finds a point that mixes colours, or else counts each colour over them |
| Boards.ScanNoMix | brd/brd.go:576-597 | the scan of one point finds a mix exactly when the point mixes colours, and otherwise adds its counts |
| Boards.BoardTotals | brd/brd.go:522-606 | a colour's total is its count on pips 0..25 plus both bars |
| Boards.PipsEqualFrom | brd/brd.go:362-369 | the pip-by-pip comparison from pip i on is true exactly when the two suffixes are equal |
| Boards.Equals | brd/brd.go:371-397 | two boards are equal exactly when points, score, roller, stakes and doubling flags are equal and each roll holds the same dice in any order |
| Boards.EqualsIsEquivalence | brd/brd.go:371-397 | board equality is reflexive, symmetric and transitive |
| Boards.EqualsIgnoresDiceSlots | brd/brd.go:371-397 | rearranging the dice within the rolls gives an equal board |
| Boards.Multiplier | brd/brd.go:616-637 | the victory multiplier is 1, 2 or 3 |
| Boards.VictorMultiplier | brd/brd.go:616-637 | the scans of the loser's bar and the winner's home board compute the multiplier |
| Boards.Victor | brd/brd.go:639-650 | the roller wins exactly when the top slot of their borne-off pip is taken, and then the stakes are the multiplier times the cube |
| Boards.HasWonMeansAllOff | brd/brd.go:639-650 | on a valid board the roller has won exactly when all 15 of their checkers are borne off |
| Boards.MultiplierReadsLoser | brd/brd.go:616-637 | a backgammon (3) is exactly a loser's checker on the bar or in the winner's home board; a gammon (2) is exactly no backgammon and no loser's checker borne off |
| Boards.OccupiedMeansCount | brd/brd.go:625-633 | on a point without the winner's checkers, slot 0 is taken exactly when the loser has a checker there |
| Boards.TakeTurn | brd/brd.go:137-165 | a won board records the win in the match score and changes nothing else; otherwise the roller flips and the roll is cleared, and then: with no offer (cube not the roller's, no offerDouble, or it declines to offer) new dice are rolled and nothing else changes; an accepted offer doubles the stakes, hands the cube to the accepter and rolls new dice; a declined offer makes the new roller the victor at the current stakes; a nil acceptDouble is never called after an offer, where Go would panic |
| Boards.DoubledHandsCube | brd/brd.go:151-158 | after an accepted double the stakes are twice as high, the offerer can no longer double and the accepter can |
| Boards.TakeTurnKeepsValid | brd/brd.go:137-165 | flipping the roller without touching the points keeps a valid board valid |
| Boards.SetScore | brd/brd.go:920-927 | setting a score that starts the Crawford game marks it played and disables doubling for both players; any other score is stored as is |
| Boards.SetScoreSettlesCrawford | brd/brd.go:920-927 | after setting a score the Crawford rule never applies to the next game again |
| Boards.PlaceOnEmpty | brd/brd.go:400-408 | placing n checkers of a colour on an empty point raises that colour's total by n and leaves the other colour's |
| Boards.StartingPipsValid | brd/brd.go:399-408 | the starting position is a valid board for either roller |
| Boards.StartingSums | brd/brd.go:400-408 | the starting position holds 15 checkers of each colour |
| Boards.StartingPoints | brd/brd.go:400-408 | every starting point is well formed and the bars and borne-off pips start empty |
| Boards.FirstNonDoublet | brd/brd.go:411-416 | the index of the first draw that is not a doublet |
| Boards.New | brd/brd.go:399-423 | the new board has the starting position, the drawn roller, stakes 1, both players able to double, a zero score, and the first non-doublet roll drawn; it is valid and its roll is valid |
| Boards.OpeningRoll | brd/brd.go:411-416 | the loop redraws until the two dice differ and returns that roll |
| Metrics.MadeBelow | brd/brd.go:167-174 | the number of made points below pip n is at most n - 1 |
| Metrics.NumPointsBlocked | brd/brd.go:167-174 | the loop counts the points 1..24 the player has made |
| Metrics.MadePointsNeedCheckers | brd/brd.go:167-174 | each made point takes two of the player's checkers, so twice the made points is at most the checkers on them |
| Metrics.AtMostSevenPointsBlocked | brd/brd.go:167-174 | with 15 checkers a player blocks at most seven points |
| Metrics.Run | brd/brd.go:177-189 | the run of made points ending at pip i is at most i long |
| Metrics.LongestRun | brd/brd.go:177-189 | the longest run is at least every run ending below pip n |
| Metrics.LongestRunAttained | brd/brd.go:177-189 | the longest run is zero or is the run ending at some pip |
| Metrics.LengthOfMaxPrime | brd/brd.go:177-189 | the loop with its current and best counters computes the longest run of made points |
| Metrics.RunMeaning | brd/brd.go:176-189 | the run ending at pip i is at least len exactly when the len points ending at i are all made |
| Metrics.NoPrimeLongerThanMax | brd/brd.go:176-189 | every prime on the board is at most the computed length |
| Metrics.MaxPrimeExists | brd/brd.go:176-189 | the computed length is zero or there is a prime of exactly that length |
| Metrics.MaxPrimeWithinBlocked | brd/brd.go:167-189 | the longest prime is no longer than the number of blocked points |
| Metrics.MadeBelowGrows | brd/brd.go:167-174 | the number of made points below a pip only grows with the pip |
| Metrics.Scanned | brd/brd.go:197-204 | the scan of a point stops within its 15 slots |
| Metrics.ScanPoint | brd/brd.go:197-204 | the inner loop counts the player's checkers up to and including the first empty slot |
| Metrics.NumCheckersHome | brd/brd.go:191-207 | the loops count the player's checkers on their six home points, 19..24 for White and 1..6 for Red |
| Metrics.ScanIsCount | brd/brd.go:197-204 | on a well-formed point stopping at the first empty slot misses none of the player's checkers |
| Metrics.ScanSumIsSumCount | brd/brd.go:191-207 | over well-formed points the scanning count equals the true count |
| Metrics.CheckersHomeCounted | brd/brd.go:191-207 | on a valid board the home count is the true number of the player's checkers at home, at most 15 |
| Metrics.CountOccupied | brd/brd.go:211-215 | the bar loop counts the checkers on a point |
| Metrics.AddWeighted | brd/brd.go:216-222 | the point loop adds the weight once for each of the player's checkers |
| Metrics.PipCount | brd/brd.go:209-238 | the pip count is 25 for each checker on the player's bar plus the distance weight of each checker on points 1..24 |
| Metrics.WeightedSumZero | brd/brd.go:209-238 | the weighted sum over the points below n is zero exactly when the player has no checkers on points 1..n-1 |
| Metrics.WeightedSumLast | brd/brd.go:216-236 | the weighted sum up to n is zero exactly when it is zero up to n - 1 and the point n - 1 has none of the player's checkers |
| Metrics.PipCountZeroIffAllOff | brd/brd.go:209-238 | on a valid board a player's pip count is zero exactly when all 15 of their checkers are borne off |
| Metrics.FirstWhiteFrom | brd/brd.go:246-251 | the first point from i with a White checker in slot 0, or -1 when there is none |
| Metrics.LastRedUpTo | brd/brd.go:259-264 | the last point up to i with a Red checker in slot 0, or -1 when there is none |
| Metrics.ExtremeWhite | brd/brd.go:242-252 | White's rearmost checker: 0 for the bar, else the first White point, else -1, and no White checker lies behind it |
| Metrics.ExtremeRed | brd/brd.go:255-265 | Red's rearmost checker: 25 for the bar, else the last Red point, else -1, and no Red checker lies behind it |
| Metrics.FindExtremeWhite | brd/brd.go:271-281 | the scan up from point 1 finds White's rearmost checker |
| Metrics.FindExtremeRed | brd/brd.go:283-293 | the scan down from point 24 finds Red's rearmost checker |
| Metrics.PipCountOfFarthestChecker | brd/brd.go:240-267 | the result is the distance of the player's rearmost checker from home |
| Metrics.Racing | brd/brd.go:269-296 | the game is a race exactly when Red's rearmost checker lies before White's |
| Metrics.RacingMeansNoContact | brd/brd.go:269-296 | it is a race exactly when White has a checker in play and no White checker lies at or behind any Red checker |
| Metrics.FarthestIsFarthest | brd/brd.go:240-267 | every checker of the player is no farther from home than the reported one, and a checker on the bar makes it 25 |
| Metrics.BlotLiability | brd/brd.go:298-313 | the loop sums the weights of the player's blots on points 1..24 |
| Metrics.BlotIsSingleChecker | brd/brd.go:308 | on a well-formed point the blot test holds exactly when the player has one checker there |
| Metrics.NoLiabilityIffNoBlots | brd/brd.go:298-313 | the liability is zero exactly when the player has no blot |
| Metrics.NoLiabilityIffNoSingles | brd/brd.go:298-313 | on a valid board the liability is zero exactly when no point holds exactly one of the player's checkers |
| Moves.PreservesTransitive | brd/brd.go:320-321 | keeping the roller, stakes, score, cube and the dice in play together with the used dice is transitive along a chain of moves |
| Moves.NumCheckersRollerHasOnTheBar | brd/brd.go:744-756 | the loop counts the slots of the roller's bar up to the first empty one |
| Moves.NumOnBarCounts | brd/brd.go:744-756 | on a valid board that count is the number of the roller's checkers on their bar |
| Moves.BlockedMeansTwoOpponents | brd/brd.go:665-668 | a well-formed point is blocked exactly when the opponent has at least two checkers on it |
| Moves.EntryPoint | brd/brd.go:674-681 | a checker enters on a point in 1..24: the die's point for White, 25 less the die for Red |
| Moves.BlotFacts | brd/brd.go:687-688 | clearing slot 0 of a blot empties the point, which is the same as subtracting its one checker |
| Moves.RoomFor | brd/brd.go:693-695 | a well-formed point without the other colour and with fewer than 15 checkers has room for one more |
| Moves.ShiftKeepsValid | brd/brd.go:840-850 | moving a checker from one pip to another keeps the board valid, taking one from the source and adding one at the target |
| Moves.ShiftSums | brd/brd.go:840-850 | moving a checker keeps each colour's total |
| Moves.HitPossible | brd/brd.go:842-848 | a hit blot can go on its owner's bar, and removing it empties the point |
| Moves.HitResult | brd/brd.go:726-742 | hitting keeps the board valid, leaves none of the opponent's checkers on the target, sends a hit blot to the opponent's bar and changes nothing else; with no blot there nothing changes |
| Moves.RelocatePossible | brd/brd.go:840-850 | after a possible hit the target has room for the roller's checker and the source is untouched |
| Moves.RelocateResult | brd/brd.go:840-850 | moving the roller's checker to an open target keeps the board valid, with one fewer at the source and one more at the target |
| Moves.PlayedResult | brd/brd.go:840-851 | using a die after a move keeps the board well formed, keeps the game state and the dice overall, and leaves one die fewer to play |
| Moves.ComeOffTheBar | brd/brd.go:671-702 | entering fails exactly when the entry point is blocked; otherwise the board stays well formed, one die is used, the bar loses a checker and the entry point gains one |
| Moves.CanBearOffLoop | brd/brd.go:758-776 | the loops decide that the roller may bear off: nothing on the bar and none of their checkers outside the home board |
| Moves.CanBearOffMeansAllHome | brd/brd.go:758-776 | on a valid board the roller may bear off exactly when all 15 checkers are on the home board or already borne off |
| Moves.CanMoveChecker | brd/brd.go:779-825 | an ordinary move lands die points along unless the target is blocked; bearing off with the exact die needs only the right to bear off; with a larger die it also needs no checker of the roller farther from home; the target found is open |
| Moves.CanMoveCheckerLoop | brd/brd.go:779-825 | the branches and the scan for farther checkers compute the same answer and target |
| Moves.Move | brd/brd.go:838-851 | a move keeps the board well formed and the game state, uses one die, and moves one of the roller's checkers from the start to the target |
| Generator.Unique | brd/brd.go:865-884 | the result keeps only input boards, is nonempty for a nonempty input, holds no two equal boards, and every input board is in it or equal to one in it |
| Generator.UniqueKeepsFirst | brd/brd.go:865-884 | every kept board is the first of its kind in the input, so the filter is stable |
| Generator.BoardEqualsIsEquivalence | brd/brd.go:371-397 | board equality, the test the filter uses, is an equivalence |
| Generator.UniqueDistinctBothWays | brd/brd.go:865-884 | no two different positions of the result hold equal boards |
| Generator.UniqueContinuations | brd/brd.go:866-884 | the nested loops compute that filter |
| Generator.OffTheBar | brd/brd.go:704-723 | the bar phase always yields some board; every board it yields is well formed, keeps the game state and the dice, and has nothing left on the bar or no die that can enter |
| Generator.BarLoop | brd/brd.go:712-717 | the loop over the unique dice yields nothing only when every one of them is blocked, and each board it yields has used more dice |
| Generator.PostBar | brd/brd.go:827-863 | the board phase always yields some board, and every board it yields is well formed and keeps the game state and the dice |
| Generator.Expand | brd/brd.go:836-856 | every board the loops over dice and points reach is well formed, keeps the game state and has used more dice |
| Generator.PostBarAll | brd/brd.go:897-899 | the boards from running the board phase on each bar-phase board keep the game state and are nonempty when the input is |
| Generator.Quasi | brd/brd.go:894-901 | the quasi-legal continuations are nonempty, well formed, keep the game state and hold no two equal boards |
| Generator.MaxUsed | brd/brd.go:328-331 | the maximum number of dice used is at least that of every candidate |
| Generator.MaxUsedAttained | brd/brd.go:328-331 | some candidate uses exactly the maximum number of dice |
| Generator.MaxFirstDie | brd/brd.go:346-353 | the largest first die used is at least that of every candidate |
| Generator.MaxFirstDieAttained | brd/brd.go:346-353 | some candidate uses exactly that die |
| Generator.Keep | brd/brd.go:327-359 | the filter keeps exactly the candidates that pass the test, never more than the input |
| Generator.KeepDistinct | brd/brd.go:332-336 | filtering a list without equal boards leaves none |
| Generator.Select | brd/brd.go:327-359 | the selection is nonempty and keeps exactly the candidates that use the most dice and, when that is one die, the largest die: every kept board is such a candidate, and every such candidate is kept |
| Generator.MostDiceKept | brd/brd.go:327-340 | every candidate that uses as many dice as any other passes the max-dice filter |
| Generator.LargestDieKept | brd/brd.go:341-359 | when the most dice used is one, every candidate whose die is as large as any other single die passes the largest-die filter |
| Generator.MostUsedKept | brd/brd.go:341 | some candidate uses the most dice, so the first of them exists |
| Generator.LargestKept | brd/brd.go:354-358 | some candidate uses the largest die, so the result is never empty |
| Generator.Legal | brd/brd.go:315-360 | the legal continuations are nonempty quasi-legal continuations that keep the game state; they are exactly the quasi-legal continuations that use the most dice of any and, when only one die can be played, the largest die: none is missing |
| Generator.QuasiLegalContinuations | brd/brd.go:894-901 | the loop over the bar-phase boards computes the quasi-legal continuations |
| Generator.LegalContinuations | brd/brd.go:322-360 | the method computes the legal continuations |
| Generator.MostDiceUsed | brd/brd.go:328-331 | the first loop finds the most dice any candidate used |
| Generator.MaxCandidates | brd/brd.go:327-336 | the second loop keeps exactly the candidates that used that many dice, and at least one |
| Generator.LargestDieUsed | brd/brd.go:346-353 | the third loop finds the largest die among the one-die candidates |
| Generator.LargestDieCandidates | brd/brd.go:345-359 | the last loop keeps exactly the candidates that used that die |
| Generator.LegalDistinct | brd/brd.go:317 | the legal continuations hold no duplicates |
| Generator.BarLoopBlocked | brd/brd.go:712-717 | when every die's entry point is blocked, the bar loop yields nothing |
| Generator.ExpandNothing | brd/brd.go:836-856 | when no checker can move by any die, the board loops yield nothing |
| Generator.ExpandFinds | brd/brd.go:836-856 | when some checker can move by some die still to be tried, the board loops yield a board |
| Generator.NotStuckMeansProgress | brd/brd.go:315-360 | when the roller can play something, every legal continuation has used more dice than the board |
| Generator.StuckIffOnlyItself | brd/brd.go:317-318 | the legal continuations are just the board itself exactly when the roller cannot play any die |
| Selection.IsRuledOut | ai/common.go:93-95 | a choice is ruled out exactly when it has an analysis with a nonempty reason |
| Selection.BoardsPerm | ai/common.go:97-163 | permuting the choices permutes their boards |
| Selection.FilterMembers | ai/common.go:133-155 | the filter keeps exactly the choices that pass the test |
| Selection.FilterConcat | ai/common.go:133-155 | filtering two joined lists is joining their filtered lists |
| Selection.FilterSplit | ai/common.go:133-155 | a test and its opposite split the choices: the two filtered lists together have the same length and boards as the input |
| Selection.Insert | ai/common.go:156-160 | inserting adds exactly the one choice |
| Selection.InsertSorted | ai/common.go:156-160 | inserting into a list sorted by key keeps it sorted |
| Selection.SortBy | ai/common.go:156-160 | the sort is a permutation, ordered by key, of the same length |
| Selection.SortIsStable | ai/common.go:156-160 | the choices with any one key keep their relative order, as sort.SliceStable promises |
| Selection.NumActive | ai/common.go:98-106 | the number of choices not ruled out is at most the number of choices |
| Selection.Extremum | ai/common.go:107-111 | the extremum starts from the identity and folds the comparison over the scores of the choices not ruled out |
| Selection.ExtremumBounds | ai/common.go:107-111 | when maximizing the extremum is at least the identity and every active score; when minimizing it is at most both |
| Selection.ExtremumChosen | ai/common.go:107-111 | the extremum is the identity or the score of some active choice |
| Selection.ExtremumAttained | ai/common.go:107-111 | with an active choice the extremum is the score of one of them |
| Selection.RuledOutText | ai/common.go:151 | the reason written on a losing choice is never empty |
| Selection.Mark | ai/common.go:147-153 | marking keeps the board and rules the choice out |
| Selection.PickedFits | ai/common.go:133-162 | the winners and losers together are no more than the choices, so copying them back fits |
| Selection.Minmax | ai/common.go:97-163 | a round keeps the number of choices |
| Selection.ScoredAt | ai/common.go:107-120 | scoring keeps each board; a ruled-out choice is untouched and an active one gains this round's score under the label |
| Selection.InPicked | ai/common.go:133-155 | every winner is kept as is and every loser is kept marked |
| Selection.Verdicts | ai/common.go:97-163 | after a round an active choice that scored the extremum is kept active, and one that did not is ruled out with the label and its score |
| Selection.TidySplit | ai/common.go:97-163 | in a tidy list the active choices come first and the ruled-out ones after |
| Selection.ScoredTidy | ai/common.go:107-120 | scoring a tidy list leaves the ruled-out tail alone and scores every active choice, keeping their boards |
| Selection.RestFilters | ai/common.go:133-155 | ruled-out choices never lose again, and they count as winners only when the extremum is zero, because a missing score reads as zero |
| Selection.PickedShape | ai/common.go:133-161 | the picked list is the winners then the sorted losers, with the ruled-out tail between them when the extremum is zero |
| Selection.MinmaxShape | ai/common.go:97-163 | after a round the choices are the winners, the sorted losers and the earlier ruled-out tail, placed by whether the extremum is zero, and the winners and losers hold the active boards |
| Selection.MinmaxOrder | ai/common.go:133-163 | the order of the choices after a round |
| Selection.RoundActive | ai/common.go:97-163 | every choice still active after a round was active before and scored the extremum |
| Selection.RoundTidy | ai/common.go:97-163 | a round keeps the list tidy: active choices first |
| Selection.RoundBoards | ai/common.go:97-163 | a round permutes the boards and loses none |
| Selection.RoundKeys | ai/common.go:97-163 | after a round every analysis holds only the earlier labels and this one |
| Selection.RoundKeeps | ai/common.go:97-163 | a choice that was active and scored the extremum stays active |
| Selection.Round | ai/common.go:56-163 | a maximizing or minimizing round keeps the list tidy and permutes its boards; the boards still active are exactly the earlier active ones that scored the extremum; and if any choice was active the first one still is |
| Engine.ScoreAll | ai/common.go:107-120 | the loop scores the active choices in place and returns the extremum |
| Engine.Winners | ai/common.go:133-141 | the loop collects the choices whose score equals the extremum |
| Engine.Losers | ai/common.go:142-155 | the loop collects the active choices that missed the extremum and marks them ruled out |
| Engine.CopyInto | ai/common.go:162 | copy overwrites the front of the choices and leaves the rest |
| Engine.Minmaximizer | ai/common.go:97-163 | the whole method leaves the choices as one round of selection |
| Engine.Maximizer | ai/common.go:56-58 | maximizing is a round from the smallest int64 |
| Engine.Minimizer | ai/common.go:60-62 | minimizing is a round from the largest int64 |
| Engine.Converted | ai/common.go:48-54 | the converted choices carry the boards in order, have no analysis, and are all active |
| Engine.Converter | ai/common.go:48-54 | the loop builds a fresh array of those choices |
| Engine.Shuffle | ai/common.go:22-27 | with more than one choice the shuffle is a maximizing round over the random draws; otherwise nothing changes |
| Risk.WhiteRiskBound | ai/common.go:179-183 | White's risk over the first n points is at most 15 times the sum of the weights 6 down to 7 - n |
| Risk.RedRiskBound | ai/common.go:185-187 | Red's risk over the first n points is at most 15 times the sum of the weights 1 up to n |
| Risk.RiskBound | ai/common.go:177-188 | the backgammon risk is at most 315 |
| Risk.WhiteRiskZero | ai/common.go:179-183 | White's risk is zero exactly when White has no checker on points 1..n |
| Risk.RedRiskZero | ai/common.go:185-187 | Red's risk is zero exactly when Red has no checker on points 19..18 + n |
| Risk.RiskZeroIff | ai/common.go:177-188 | the risk is zero exactly when the roller has no checker in the opponent's home board |
| Risk.ProbabilityOfGettingBackgammoned | ai/common.go:167-189 | in a match the opponent can already win, the result is -1; otherwise it is the weighted count of the roller's checkers in the opponent's home board |
| Risk.WhiteRiskLoop | ai/common.go:179-183 | the loop weights White's checkers on point i by 7 - i |
| Risk.RedRiskLoop | ai/common.go:185-187 | the loop weights Red's checkers on point i by i - 18 |
| Chains.BoardRound | ai/common.go:56-163 | a round over a board score keeps the list tidy and its boards; the active boards after it are the earlier active ones scoring the extremum, which bounds every earlier active score |
| Chains.Chain | ai/racer.go:20-59 | a chain of rounds keeps the number of choices |
| Chains.ChainKeeps | ai/racer.go:20-59 | a chain of rounds with fresh labels keeps the list tidy, its labels within those used, and its boards |
| Chains.ChainFirst | ai/racer.go:20-59 | when any choice starts active, the first choice after the chain is still active |
| Chains.RoundFirst | ai/common.go:97-163 | when any choice starts active, the first choice after a round is active and was active before |
| Chains.ChainSelects | ai/racer.go:20-59 | the boards active after the chain are exactly the earlier active boards that are at least as good as every earlier active board under the rounds in order |
| Chains.BestSurvivesStep | ai/common.go:133-155 | a board at least as good as every active board scores the first round's extremum, so it stays active and is still best under the remaining rounds |
| Racer.ScanSumBound | brd/brd.go:191-207 | the home count over n points is at most 15 per point, so it fits in an int64 |
| Racer.Passes | ai/racer.go:20-59 | the four rounds the method performs are the racer's chain |
| Racer.PlayerRacer | ai/racer.go:16-62 | with one choice the result is nil; otherwise it is the four rounds followed by the shuffle |
| Racer.RacerFresh | ai/racer.go:21-59 | the four labels are distinct and differ from the shuffle's label |
| Racer.ConvertedActive | ai/common.go:48-54 | the active boards after conversion are exactly the input boards |
| Racer.Shuffled | ai/racer.go:16-62 | the ranked choices hold the input boards, each as many times as given |
| Racer.ChainedFirst | ai/racer.go:20-59 | after the four rounds the list is tidy and its first choice is active |
| Racer.ShuffledFirst | ai/racer.go:60 | after the shuffle the first choice is still active and was active after the four rounds |
| Racer.RankedKeepsBoards | ai/racer.go:16-62 | the ranking returns every input board, as many times as given |
| Racer.RankedFirstIsBest | ai/racer.go:16-62 | the first ranked board is an input board, at least as good as every input board under the four criteria in order, and so has the least backgammon risk |
| Summaries.BelowIrreflexive | ai/common.go:78 | no label sorts before itself |
| Summaries.BelowTransitive | ai/common.go:78 | the label order is transitive |
| Summaries.BelowTotal | ai/common.go:78 | any two different labels are ordered one way or the other |
| Summaries.BelowAsymmetric | ai/common.go:78 | two labels are never each below the other |
| Summaries.InsertLabel | ai/common.go:78 | inserting a new label into an ascending list keeps it ascending and adds exactly that label |
| Summaries.SortLabels | ai/common.go:78 | sorting distinct labels gives an ascending list of the same labels |
| Summaries.AscendingUnique | ai/common.go:78 | two ascending lists of the same labels are equal, so the order the map yields its keys does not matter |
| Summaries.ListsUnique | ai/common.go:73-84 | a score map has only one rendering |
| Summaries.MapKeys | ai/common.go:74-77 | the loop collects each key of the map once |
| Summaries.Parts | ai/common.go:79-82 | the loop renders one part per key, in order |
| Summaries.ScoresText | ai/common.go:73-84 | the text lists the scores in ascending label order |
| Summaries.Summary | ai/common.go:86-91 | a ruled-out analysis reads as its reason; otherwise the fixed preamble followed by the scores |
| Decimal.DigitChar | json/json.go:255 | the character of a digit is a digit with that value |
| Decimal.NatToString | json/json.go:255 | the decimal text of a number is nonempty digits with no leading zero |
| Decimal.IntToString | json/json.go:264 | the decimal text of an integer is nonempty and starts with a minus exactly when it is negative |
| Decimal.NatToStringValue | json/json.go:255 | the decimal text reads back as the number |
| Decimal.NatToStringInjective | json/json.go:255 | different numbers have different texts |
| Decimal.IntToStringInjective | json/json.go:264 | different integers have different texts |
| Decimal.Atoi | json/json.go:376 | a number read is within int64 and comes from digits with an optional sign |
| Decimal.AtoiIntToString | json/json.go:376 | every int64 reads back from its decimal text |
| Decimal.AtoiNatural | json/json.go:376 | every nonnegative int64 reads back from its digits |
| Decimal.AtoiNegative | json/json.go:376 | every negative int64 reads back from a minus and its digits |
| Decimal.AtoiMinus | json/json.go:376 | a minus followed by digits whose value fits reads back as the negated value |
| Codec.Highest | json/json.go:244-247 | the scan down from the top finds the highest occupied slot, or -1 for an empty point |
| Codec.MakeCompactPoint | json/json.go:243-259 | the loop writes the point's text |
| Codec.PointTextValid | json/json.go:242-259 | a well-formed point is written as "" when empty, its colour letter for one checker, or the letter and the count |
| Codec.ParseCompactPoint | json/json.go:362-381 | the empty text is zero White; a text whose first letter is not W or r is an error; a parsed point has at least one checker of the colour its letter names; a lone letter is one checker; otherwise it parses exactly when the rest is an int64 of at least 1 |
| Codec.ValidIsReset | brd/point.go:35-43 | a nonempty well-formed point is the reset of its count and colour |
| Codec.PointRoundTrip | json/json.go:362-381 | a well-formed point's text parses back to its count, and resetting to that count and colour gives the point again |
| Codec.ParseLetterCount | json/json.go:362-381 | a letter and a count from 1 to 15 parse back to that count and colour |
| Codec.MakeCompactRoll | json/json.go:261-268 | the loop writes the roll's text |
| Codec.Slots | json/json.go:385-411 | reading at most four die characters fills those slots in order and leaves the rest zero |
| Codec.LargerFirst | json/json.go:412-415 | the swap puts the larger of the first two dice first and keeps the dice |
| Codec.RollOfText | json/json.go:383-417 | a text parses exactly when it has at most four characters, all from 1 to 6; the result has the larger die first; too many dice is reported exactly when the first four are die characters and there are more |
| Codec.ParseRoll | json/json.go:383-417 | the loop parses the roll |
| Codec.ParsedRoll | json/json.go:383-417 | a text of at most four die characters parses to its slots, with the first two swapped when the second is larger |
| Codec.DiceTextDigits | json/json.go:261-268 | dice from 1 to 6 are written one character per die |
| Codec.DicePadded | json/json.go:383-417 | dice padded with zero slots have the same dice |
| Codec.RollTextSlots | json/json.go:261-268 | a roll's text reads back into slots holding its dice followed by zeros |
| Codec.RollRoundTrip | json/json.go:383-417 | a roll's text parses back to a roll with the same dice |
| Codec.RollTextDice | json/json.go:261-268 | the text of a roll is at most four die characters whose slots hold the roll's dice |
| Codec.PackedDice | brd/roll.go:14-16 | a roll whose zero dice come last is its dice followed by zeros |
| Codec.PackedRoundTrip | json/json.go:383-417 | a roll with its zeros last and the larger die first reads back exactly |
| Codec.RollRoundTripExact | json/json.go:383-417 | a valid roll, or the empty roll, reads back exactly |
| Codec.DoubleWraps | json/json.go:273 | doubling in 64 bits then wrapping is doubling then wrapping |
| Codec.PowerOfTwo | json/json.go:270-276 | the result fits in 64 bits |
| Codec.Pow2Add | json/json.go:270-276 | powers of two multiply by adding exponents |
| Codec.Pow2Wraps | json/json.go:270-276 | two to the 64 or more wraps to zero in a uint64 |
| Codec.PowerOfTwoRange | json/json.go:270-276 | for exponents 0..29 the loop gives the true power, and from 64 on it gives zero |
| Codec.TwoToThePower | json/json.go:270-276 | the doubling loop computes 2 to the i modulo 2 to the 64, and 1 when i is not positive |
| Codec.Pow2Increasing | json/json.go:278-343 | powers of two strictly increase, so the table has one entry per value |
| Codec.Log2Exponent | json/json.go:278-343 | the logarithm succeeds exactly for the powers of two up to 2 to the 29, and then gives the exponent; otherwise it is the illegal-input error |
| Codec.Log2Pow2 | json/json.go:278-343 | the logarithm of 2 to the n is n for n up to 29 |
| Codec.Log2PowerOfTwo | json/json.go:270-343 | the logarithm undoes twoToThePower for exponents 0..29 |
| Codec.SerializeMatchScore | json/json.go:345-360 | the score is left out exactly when it is the zero score |
| Codec.DeserializeMatchScore | json/json.go:419-432 | with no score written the board's score is left as it was |
| Codec.MatchScoreRoundTrip | json/json.go:419-432 | writing a score and reading it into a zero score gives the score back |
| Codec.Encoded | json/json.go:16-95 | encoding fails exactly when the stakes, as a uint64, are not a power of two up to 2 to the 29 |
| Codec.DecodedPoints | json/json.go:115-121 | the points read have one per text |
| Codec.DecodedPointsFail | json/json.go:115-119 | the first text that does not parse decides the error |
| Codec.Decoded | json/json.go:104-154 | a decoded board is valid and has the roller written; a roller other than W or r is an error once the points parse |
| Codec.DecodedFields | json/json.go:122-153 | the fields after the points decode to a valid board with those points and the roller written, and a bad roller is an error |
| Codec.DeserializePoints | json/json.go:115-121 | the loop reads the 28 points or stops at the first error |
| Codec.Deserialize | json/json.go:104-154 | the method decodes the fields |
| Codec.PointsRoundTrip | json/json.go:115-121 | well-formed points written and read back are the same points |
| Codec.StakesRoundTrip | json/json.go:138 | stakes that are a power of two up to 2 to the 29 read back unchanged from their logarithm |
| Codec.FieldsRoundTrip | json/json.go:122-153 | fields written from a valid board decode to a board equal to it |
| Codec.FieldsRead | json/json.go:122-149 | each decoded field is read from its own written field |
| Codec.BoardRoundTrip | json/json.go:16-154 | a valid board whose stakes are a power of two up to 2 to the 29 encodes, and decodes back to an equal board |

## Left out

- Random number generation: `math/rand` in `Roll.New`, `New` and `shuffle` is replaced by the draws passed in, so the distribution of rolls is not modelled.
- `PlayGame` (brd/brd.go:106-128) is not modelled. It is a loop over callbacks supplied by the caller and over random dice.
- The `String()` renderings of boards, rolls, points, scores and analysed boards, and debug output, are not modelled. The score map and the summary text are.
- Error and invalidity messages are not modelled. Each is a datatype constructor naming the reason, not the formatted text.
- `Serialize` and `Deserialize` are modelled on the fields of the compact board only. The JSON marshalling through `encoding/json` is a library call, and so are `Compress`/`Decompress` through `compress/flate` and base64.
- The compact board's fields `P0` to `P27` are a sequence of 28 texts.
- `Codec.Log2` scans the exponents 0 to 29 instead of the 30-case switch. It returns the same values and the same error.
- `ai/conservative.go`, `ai/aggressive.go` and `ai/random.go` are not modelled. The first two call functions that do not exist with those signatures, and the third is a single random draw.
- `svg/svg.go` (drawing with floating point) and `bg.go` (command-line flags and prompting) are not modelled.
- Panics are preconditions. The generator and the moves are proved never to reach them on valid boards whose dice are in 0 to 6.
- Generator.UniqueContinuations: the board equality is a parameter, and the model calls it with `Boards.Equals`.
- Boards.TakeTurn: stakes are unbounded integers, so the 64-bit overflow of doubling the stakes more than 62 times is not modelled.
- Racer.PlayerRacer: Go's shuffle reorders the slice in place. The model returns the reordered list as a new value, so aliasing of the caller's slice is not modelled.
