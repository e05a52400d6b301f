/** The legal-continuation generator of brd/brd.go: phase one enters checkers from the bar,
    phase two moves the remaining dice, duplicates are dropped by Board.Equals, and
    LegalContinuations keeps the boards that play the most dice (and, when that is one die,
    the larger die). The Go code recurses over copies of boards, so the search is a family of
    functions over Board values; the loops that post-process its result are methods proved
    equal to those functions. */
module Generator {
  import opened Wrappers
  import opened Points
  import Rolls
  import opened Boards
  import opened Moves

  // ---------------------------------------------------------------------------------------
  // uniqueContinuations

  /** Some board of u is the same as m, as `same` (Board.Equals in the generator) decides. */
  predicate HasEqual(u: seq<Board>, m: Board, same: (Board, Board) -> bool) {
    exists k :: 0 <= k < |u| && same(m, u[k])
  }

  /** No board of u is the same as a board before it. */
  predicate Distinct(u: seq<Board>, same: (Board, Board) -> bool) {
    forall i, j :: 0 <= i < j < |u| ==> !same(u[j], u[i])
  }

  /** uniqueContinuations (brd/brd.go:866-884) as a value: a board is kept unless it is the
      same as a board kept before it. The kept boards are in input order, no kept board is the
      same as an earlier one, and every dropped board is the same as a kept one. */
  function Unique(cs: seq<Board>, same: (Board, Board) -> bool): (r: seq<Board>)
    ensures forall n :: n in r ==> n in cs
    ensures cs != [] ==> r != []
    ensures Distinct(r, same)
    ensures forall c :: c in cs ==> c in r || HasEqual(r, c, same)
  {
    if cs == [] then []
    else
      var u := Unique(cs[..|cs| - 1], same);
      var m := cs[|cs| - 1];
      assert forall c :: c in cs ==> c in cs[..|cs| - 1] || c == m;
      if HasEqual(u, m, same) then u
      else
        forall c | c in cs[..|cs| - 1] && !(c in u) ensures HasEqual(u + [m], c, same) {
          var k :| 0 <= k < |u| && same(c, u[k]);
          assert (u + [m])[k] == u[k];
        }
        u + [m]
  }

  /** Each kept board is the first of its kind in the input: nothing before it in cs is the
      same as it. */
  lemma {:induction false} UniqueKeepsFirst(cs: seq<Board>, same: (Board, Board) -> bool)
    requires Equivalence(same)
    ensures forall k :: 0 <= k < |Unique(cs, same)| ==> FirstOfKind(cs, Unique(cs, same)[k], same)
  {
    if cs != [] {
      var pre := cs[..|cs| - 1];
      var m := cs[|cs| - 1];
      UniqueKeepsFirst(pre, same);
      var u := Unique(pre, same);
      assert cs == pre + [m];
      var r := Unique(cs, same);
      if HasEqual(u, m, same) {
        assert r == u;
      } else {
        assert r == u + [m];
        NewKindFirst(pre, m, same);
      }
      forall k | 0 <= k < |r| ensures FirstOfKind(cs, r[k], same) {
        if k < |u| {
          assert r[k] == u[k];
          FirstOfKindExtends(pre, m, u[k], same);
        }
      }
    }
  }

  /** A board the same as none kept from pre is the same as no board of pre at all. */
  lemma NewKindFirst(pre: seq<Board>, m: Board, same: (Board, Board) -> bool)
    requires Equivalence(same) && !HasEqual(Unique(pre, same), m, same)
    ensures FirstOfKind(pre + [m], m, same)
  {
    var u := Unique(pre, same);
    forall j | 0 <= j < |pre| ensures !same(pre[j], m) {
      var y := pre[j];
      assert y in pre;
      if y in u {
        var k :| 0 <= k < |u| && u[k] == y;
        var x := u[k];
        assert same(y, m) ==> same(m, x);
      } else {
        var k :| 0 <= k < |u| && same(y, u[k]);
        var x := u[k];
        assert same(y, m) ==> same(m, y) && same(m, x);
      }
    }
    assert (pre + [m])[|pre|] == m;
    assert forall j :: 0 <= j < |pre| ==> (pre + [m])[j] == pre[j];
  }

  /** `same` is reflexive, symmetric and transitive, as Board.Equals is. */
  ghost predicate Equivalence(same: (Board, Board) -> bool) {
    && (forall a :: same(a, a))
    && (forall a, c :: same(a, c) ==> same(c, a))
    && (forall a, c, e :: same(a, c) && same(c, e) ==> same(a, e))
  }

  lemma BoardEqualsIsEquivalence()
    ensures Equivalence(Boards.Equals)
  {
    forall a, c, e ensures Boards.Equals(a, a) && (Boards.Equals(a, c) ==> Boards.Equals(c, a))
      && (Boards.Equals(a, c) && Boards.Equals(c, e) ==> Boards.Equals(a, e))
    {
      EqualsIsEquivalence(a, c, e);
    }
  }

  /** With an equivalence, no two kept boards are the same in either order. */
  lemma UniqueDistinctBothWays(cs: seq<Board>, same: (Board, Board) -> bool)
    requires Equivalence(same)
    ensures forall i, j ::
      (0 <= i < |Unique(cs, same)| && 0 <= j < |Unique(cs, same)| && i != j)
      ==> !same(Unique(cs, same)[i], Unique(cs, same)[j])
  {
    var r := Unique(cs, same);
    forall i, j | 0 <= i < |r| && 0 <= j < |r| && i != j ensures !same(r[i], r[j]) {
      if i < j {
        assert !same(r[j], r[i]);
      }
    }
  }

  /** m occurs in cs and no earlier board of cs is the same as it. */
  predicate FirstOfKind(cs: seq<Board>, m: Board, same: (Board, Board) -> bool) {
    exists i :: 0 <= i < |cs| && cs[i] == m && forall j :: 0 <= j < i ==> !same(cs[j], m)
  }

  lemma FirstOfKindExtends(cs: seq<Board>, x: Board, m: Board, same: (Board, Board) -> bool)
    requires FirstOfKind(cs, m, same)
    ensures FirstOfKind(cs + [x], m, same)
  {
    var i :| 0 <= i < |cs| && cs[i] == m && forall j :: 0 <= j < i ==> !same(cs[j], m);
    assert (cs + [x])[i] == m;
    assert forall j :: 0 <= j < i ==> (cs + [x])[j] == cs[j];
  }

  /** uniqueContinuations as the source runs it: an outer loop over the input and an inner loop
      over the boards kept so far, comparing with `same` (Board.Equals in the source). It
      panics on an empty input. */
  method UniqueContinuations(continuations: seq<Board>, same: (Board, Board) -> bool)
    returns (result: seq<Board>)
    requires continuations != []
    ensures result == Unique(continuations, same)
  {
    result := [];
    for i := 0 to |continuations|
      invariant result == Unique(continuations[..i], same)
    {
      var m := continuations[i];
      var unique := true;
      for j := 0 to |result|
        invariant unique <==> forall k :: 0 <= k < j ==> !same(m, result[k])
      {
        if same(m, result[j]) {
          unique := false;
          break;
        }
      }
      assert continuations[..i + 1][..i] == continuations[..i];
      if unique {
        result := result + [m];
      }
    }
    assert continuations[..|continuations|] == continuations;
  }

  // ---------------------------------------------------------------------------------------
  // Phase one: continuationsOffTheBar

  /** Playing one die moves it from Roll to RollUsed. */
  lemma OneMoreUsed(b: Board, n: Board)
    requires Preserves(b, n) && |Rolls.Dice(n.roll)| == |Rolls.Dice(b.roll)| - 1
    ensures DiceUsed(n) == DiceUsed(b) + 1
  {
    assert |multiset(Rolls.Dice(n.roll)) + multiset(Rolls.Dice(n.rollUsed))|
      == |multiset(Rolls.Dice(b.roll)) + multiset(Rolls.Dice(b.rollUsed))|;
  }

  /** Boards reached from n, which itself played a die of b, played a die of b too. */
  lemma ReachedFrom(b: Board, n: Board, xs: seq<Board>)
    requires Preserves(b, n) && DiceUsed(n) > DiceUsed(b)
    requires forall x :: x in xs ==> Preserves(n, x)
    ensures forall x :: x in xs ==> Preserves(b, x) && DiceUsed(x) > DiceUsed(b)
  {
    forall x | x in xs ensures Preserves(b, x) {
      PreservesTransitive(b, n, x);
    }
  }

  /** Phase one has ended on n: the roller has nothing on the bar, or no die left can enter. */
  predicate EntryDone(n: Board)
    requires WellFormed(n)
  {
    NumOnBar(n) == 0 || forall d :: d in Rolls.Dice(n.roll) ==> Blocked(n, EntryPoint(n.roller, d))
  }

  /** Board.continuationsOffTheBar (brd/brd.go:704-723): while the roller has checkers on the
      bar, each distinct die that can enter is played and the search goes on from there; when
      none can, the board itself is the only possibility. */
  function OffTheBar(b: Board): (r: seq<Board>)
    requires WellFormed(b)
    ensures r != []
    ensures forall n :: n in r ==> WellFormed(n) && Preserves(b, n) && EntryDone(n)
    decreases |Rolls.Dice(b.roll)|, 1, 0
  {
    if NumOnBar(b) > 0 then
      var u := Rolls.UniqueDice(b.roll);
      var ps := BarLoop(b, u);
      if ps == [] then [b] else ps
    else [b]
  }

  /** The loop of continuationsOffTheBar over the dice ds, in order. */
  function BarLoop(b: Board, ds: seq<Rolls.Die>): (r: seq<Board>)
    requires WellFormed(b) && NumOnBar(b) > 0
    requires forall d :: d in ds ==> d in Rolls.Dice(b.roll)
    ensures forall n :: n in r ==> WellFormed(n) && Preserves(b, n) && EntryDone(n)
    ensures r == [] ==> forall d :: d in ds ==> Blocked(b, EntryPoint(b.roller, d))
    ensures forall n :: n in r ==> DiceUsed(n) > DiceUsed(b)
    decreases |Rolls.Dice(b.roll)|, 0, |ds|
  {
    if ds == [] then []
    else
      var rest := BarLoop(b, ds[1..]);
      assert forall d :: d in ds ==> d == ds[0] || d in ds[1..];
      match ComeOffTheBar(b, ds[0])
      case None => rest
      case Some(n) =>
        var here := OffTheBar(n);
        OneMoreUsed(b, n);
        ReachedFrom(b, n, here);
        here + rest
  }

  // ---------------------------------------------------------------------------------------
  // Phase two: quasiLegalPostBarContinuations

  /** Board.quasiLegalPostBarContinuations (brd/brd.go:827-864): with dice left and nothing on
      the bar, every checker of the roller on points 1 to 24 is tried with every remaining die
      (duplicates included, in slot order), and the search goes on from each board reached;
      duplicates are then dropped. With nothing to move the board itself is the result. */
  function PostBar(b: Board): (r: seq<Board>)
    requires WellFormed(b)
    ensures r != []
    ensures forall n :: n in r ==> WellFormed(n) && Preserves(b, n)
    decreases |Rolls.Dice(b.roll)|, 1, 0, 0
  {
    if |Rolls.Dice(b.roll)| == 0 || NumOnBar(b) > 0 then [b]
    else
      var cs := Expand(b, Rolls.Dice(b.roll), 1);
      if cs == [] then [b] else Unique(cs, Boards.Equals)
  }

  /** The nested loops of quasiLegalPostBarContinuations: die ds[0] on points i to 24, then the
      remaining dice on points 1 to 24. */
  function Expand(b: Board, ds: seq<Rolls.Die>, i: nat): (r: seq<Board>)
    requires WellFormed(b) && 1 <= i <= 25
    requires forall d :: d in ds ==> d in Rolls.Dice(b.roll)
    ensures forall n :: n in r ==> WellFormed(n) && Preserves(b, n) && DiceUsed(n) > DiceUsed(b)
    decreases |Rolls.Dice(b.roll)|, 0, |ds|, 25 - i
  {
    if ds == [] then []
    else if i > 24 then
      assert forall d :: d in ds[1..] ==> d in ds;
      Expand(b, ds[1..], 1)
    else
      var rest := Expand(b, ds, i + 1);
      assert ds[0] in ds;
      if b.pips[i][0] == b.roller then
        match CanMoveChecker(b, i, ds[0])
        case None => rest
        case Some(t) =>
          var n := Move(b, i, ds[0], t);
          var here := PostBar(n);
          OneMoreUsed(b, n);
          ReachedFrom(b, n, here);
          here + rest
      else rest
  }

  // ---------------------------------------------------------------------------------------
  // quasiLegalContinuations

  /** The loop of quasiLegalContinuations: phase two from each board phase one reached, the
      results appended in order. */
  function PostBarAll(b: Board, bs: seq<Board>): (r: seq<Board>)
    requires forall n :: n in bs ==> WellFormed(n) && Preserves(b, n)
    ensures forall n :: n in r ==> WellFormed(n) && Preserves(b, n)
    ensures bs != [] ==> r != []
  {
    if bs == [] then []
    else
      var last := bs[|bs| - 1];
      assert last in bs;
      var here := PostBar(last);
      forall x | x in here ensures Preserves(b, x) {
        PreservesTransitive(b, last, x);
      }
      assert forall n :: n in bs[..|bs| - 1] ==> n in bs;
      PostBarAll(b, bs[..|bs| - 1]) + here
  }

  /** Board.quasiLegalContinuations (brd/brd.go:895-903): phase one, then phase two from each
      of its boards, with duplicates dropped by Board.Equals. */
  function Quasi(b: Board): (r: seq<Board>)
    requires WellFormed(b)
    ensures r != []
    ensures forall n :: n in r ==> WellFormed(n) && Preserves(b, n)
    ensures Distinct(r, Boards.Equals)
  {
    Unique(PostBarAll(b, OffTheBar(b)), Boards.Equals)
  }

  // ---------------------------------------------------------------------------------------
  // LegalContinuations

  /** How many dice a candidate has used. */
  function DiceUsed(n: Board): nat {
    |Rolls.Dice(n.rollUsed)|
  }

  /** The first die a candidate used. */
  function FirstDie(n: Board): Rolls.Die
    requires DiceUsed(n) >= 1
  {
    Rolls.Dice(n.rollUsed)[0]
  }

  /** The first loop of LegalContinuations: the most dice any candidate has used, from 0. */
  function MaxUsed(qs: seq<Board>): (m: nat)
    ensures forall q :: q in qs ==> DiceUsed(q) <= m
  {
    if qs == [] then 0
    else
      var m := MaxUsed(qs[..|qs| - 1]);
      assert forall q :: q in qs ==> q in qs[..|qs| - 1] || q == qs[|qs| - 1];
      if DiceUsed(qs[|qs| - 1]) > m then DiceUsed(qs[|qs| - 1]) else m
  }

  lemma {:induction false} MaxUsedAttained(qs: seq<Board>)
    requires qs != []
    ensures exists k :: 0 <= k < |qs| && DiceUsed(qs[k]) == MaxUsed(qs)
  {
    var pre := qs[..|qs| - 1];
    if DiceUsed(qs[|qs| - 1]) < MaxUsed(pre) {
      MaxUsedAttained(pre);
      var k :| 0 <= k < |pre| && DiceUsed(pre[k]) == MaxUsed(pre);
      assert qs[k] == pre[k];
    }
  }

  /** The third loop of LegalContinuations: the largest first die used, from ZeroDie. */
  function MaxFirstDie(qs: seq<Board>): (d: nat)
    requires forall q :: q in qs ==> DiceUsed(q) >= 1
    ensures forall q :: q in qs ==> FirstDie(q) <= d
  {
    if qs == [] then Rolls.ZeroDie as nat
    else
      assert forall q :: q in qs[..|qs| - 1] ==> q in qs;
      var d := MaxFirstDie(qs[..|qs| - 1]);
      var last := qs[|qs| - 1];
      assert forall q :: q in qs ==> q in qs[..|qs| - 1] || q == last;
      if d < FirstDie(last) then FirstDie(last) as nat else d
  }

  lemma {:induction false} MaxFirstDieAttained(qs: seq<Board>)
    requires qs != [] && forall q :: q in qs ==> DiceUsed(q) >= 1
    ensures exists k :: 0 <= k < |qs| && FirstDie(qs[k]) as nat == MaxFirstDie(qs)
  {
    var pre := qs[..|qs| - 1];
    assert forall q :: q in pre ==> q in qs;
    if pre != [] && FirstDie(qs[|qs| - 1]) as nat <= MaxFirstDie(pre) {
      MaxFirstDieAttained(pre);
      var k :| 0 <= k < |pre| && FirstDie(pre[k]) as nat == MaxFirstDie(pre);
      assert qs[k] == pre[k];
    }
  }

  /** The second and fourth loops of LegalContinuations: the candidates that pass p, in their
      order. */
  function Keep<T(!new)>(qs: seq<T>, p: T -> bool): (r: seq<T>)
    ensures forall n :: n in r <==> n in qs && p(n)
    ensures |r| <= |qs|
  {
    if qs == [] then []
    else
      var last := qs[|qs| - 1];
      assert forall q :: q in qs <==> q in qs[..|qs| - 1] || q == last;
      Keep(qs[..|qs| - 1], p) + (if p(last) then [last] else [])
  }

  /** Keeping only some candidates keeps them distinct. */
  lemma {:induction false} KeepDistinct(qs: seq<Board>, p: Board -> bool, same: (Board, Board) -> bool)
    requires Distinct(qs, same)
    ensures Distinct(Keep(qs, p), same)
  {
    if qs != [] {
      var pre, last := qs[..|qs| - 1], qs[|qs| - 1];
      var kp := Keep(pre, p);
      KeepDistinct(pre, p, same);
      if p(last) {
        var r := kp + [last];
        forall i, j | 0 <= i < j < |r| ensures !same(r[j], r[i]) {
          if j < |kp| {
            assert r[j] == kp[j] && r[i] == kp[i];
          } else {
            assert r[i] in pre;
            var h :| 0 <= h < |pre| && pre[h] == r[i];
            assert qs[h] == r[i] && qs[|qs| - 1] == r[j];
          }
        }
      }
    }
  }

  /** Candidate n used exactly m dice. */
  function UsedExactly(m: nat): Board -> bool {
    n => DiceUsed(n) == m
  }

  /** Candidate n used some dice and the first of them is d. */
  function FirstDieIs(d: nat): Board -> bool {
    n => DiceUsed(n) >= 1 && FirstDie(n) as nat == d
  }

  /** Candidate q used as many dice as any candidate in qs. */
  predicate UsesMostDice(qs: seq<Board>, q: Board) {
    forall q' :: q' in qs ==> DiceUsed(q') <= DiceUsed(q)
  }

  /** If candidate q used a single die, no single-die candidate in qs used a larger one. */
  predicate UsesLargestDie(qs: seq<Board>, q: Board) {
    DiceUsed(q) == 1 ==> forall q' :: q' in qs && DiceUsed(q') == 1 ==> FirstDie(q') <= FirstDie(q)
  }

  /** The selection of LegalContinuations (brd/brd.go:322-360) applied to the candidates qs:
      keep those that used the most dice; if that is exactly one die, keep only those whose die
      is the largest any of them used. (The source looks at the first kept candidate, which used
      the most dice.) The result is never empty, so the source's panics cannot happen. */
  function Select(qs: seq<Board>): (r: seq<Board>)
    requires qs != []
    ensures r != []
    ensures forall n :: n in r ==> n in qs
    ensures forall n, q :: n in r && q in qs ==> DiceUsed(q) <= DiceUsed(n)
    ensures forall n, q ::
      n in r && q in qs && DiceUsed(n) == 1 && DiceUsed(q) == 1 ==> FirstDie(q) <= FirstDie(n)
    ensures forall q :: q in qs && UsesMostDice(qs, q) && UsesLargestDie(qs, q) ==> q in r
  {
    var m := MaxUsed(qs);
    var most := Keep(qs, UsedExactly(m));
    MostUsedKept(qs);
    MostDiceKept(qs);
    if m != 1 then most
    else
      LargestKept(most);
      assert forall q :: q in qs && DiceUsed(q) == 1 ==> q in most;
      LargestDieKept(qs, most);
      Keep(most, FirstDieIs(MaxFirstDie(most)))
  }

  /** Every candidate that used as many dice as any other passes the max-dice filter. */
  lemma MostDiceKept(qs: seq<Board>)
    requires qs != []
    ensures forall q :: q in qs && UsesMostDice(qs, q) ==> q in Keep(qs, UsedExactly(MaxUsed(qs)))
  {
    MaxUsedAttained(qs);
    var k :| 0 <= k < |qs| && DiceUsed(qs[k]) == MaxUsed(qs);
    forall q | q in qs && UsesMostDice(qs, q)
      ensures UsedExactly(MaxUsed(qs))(q)
    {
      assert DiceUsed(qs[k]) <= DiceUsed(q);
    }
  }

  /** When the most dice used is one, every such candidate whose die is as large as any other
      single die passes the largest-die filter. */
  lemma LargestDieKept(qs: seq<Board>, most: seq<Board>)
    requires most != [] && most == Keep(qs, UsedExactly(1))
    ensures forall n :: n in most ==> DiceUsed(n) >= 1
    ensures forall q :: q in most && UsesLargestDie(qs, q) ==> q in Keep(most, FirstDieIs(MaxFirstDie(most)))
  {
    MaxFirstDieAttained(most);
    var k :| 0 <= k < |most| && FirstDie(most[k]) as nat == MaxFirstDie(most);
    assert most[k] in qs && DiceUsed(most[k]) == 1;
    forall q | q in most && UsesLargestDie(qs, q)
      ensures FirstDieIs(MaxFirstDie(most))(q)
    {
      assert FirstDie(most[k]) <= FirstDie(q);
    }
  }

  /** Some candidate used the most dice, so keeping those keeps at least one. */
  lemma MostUsedKept(qs: seq<Board>)
    requires qs != []
    ensures Keep(qs, UsedExactly(MaxUsed(qs))) != []
  {
    MaxUsedAttained(qs);
    var k :| 0 <= k < |qs| && DiceUsed(qs[k]) == MaxUsed(qs);
    assert qs[k] in Keep(qs, UsedExactly(MaxUsed(qs)));
  }

  /** Some candidate used the largest first die, so keeping those keeps at least one. */
  lemma LargestKept(most: seq<Board>)
    requires most != [] && forall n :: n in most ==> DiceUsed(n) >= 1
    ensures Keep(most, FirstDieIs(MaxFirstDie(most))) != []
  {
    MaxFirstDieAttained(most);
    var k :| 0 <= k < |most| && FirstDie(most[k]) as nat == MaxFirstDie(most);
    assert most[k] in Keep(most, FirstDieIs(MaxFirstDie(most)));
  }

  /** Board.LegalContinuations (brd/brd.go:322-360): the quasi-legal continuations that use as
      many dice as any of them does and, when that is a single die, the larger one. */
  function Legal(b: Board): (r: seq<Board>)
    requires WellFormed(b)
    ensures r != []
    ensures forall n :: n in r ==> n in Quasi(b) && WellFormed(n) && Preserves(b, n)
    ensures forall n, q :: n in r && q in Quasi(b) ==> DiceUsed(q) <= DiceUsed(n)
    ensures forall n, q ::
      n in r && q in Quasi(b) && DiceUsed(n) == 1 && DiceUsed(q) == 1 ==> FirstDie(q) <= FirstDie(n)
    ensures forall q :: q in Quasi(b) && UsesMostDice(Quasi(b), q) && UsesLargestDie(Quasi(b), q) ==> q in r
  {
    Select(Quasi(b))
  }

  /** One more board of phase one adds its phase two at the end. */
  lemma PostBarAllStep(b: Board, bs: seq<Board>, i: nat)
    requires forall n :: n in bs ==> WellFormed(n) && Preserves(b, n)
    requires i < |bs|
    ensures PostBarAll(b, bs[..i + 1]) == PostBarAll(b, bs[..i]) + PostBar(bs[i])
  {
    var s := bs[..i + 1];
    PrefixStep(bs, i);
    PostBarAllLast(b, s);
  }

  /** The last board of phase one contributes the last boards of phase two. */
  lemma PostBarAllLast(b: Board, s: seq<Board>)
    requires s != [] && forall n :: n in s ==> WellFormed(n) && Preserves(b, n)
    ensures PostBarAll(b, s) == PostBarAll(b, s[..|s| - 1]) + PostBar(s[|s| - 1])
  {
  }

  /** A prefix one longer: its elements are among the whole, its last is the next one. */
  lemma PrefixStep<T>(s: seq<T>, i: nat)
    requires i < |s|
    ensures forall x :: x in s[..i + 1] ==> x in s
    ensures s[..i + 1][i] == s[i] && s[..i + 1][..i] == s[..i]
  {
  }

  /** Board.quasiLegalContinuations as the source runs it: phase two from each board of phase
      one, appended in order, then uniqueContinuations. */
  method QuasiLegalContinuations(b: Board) returns (result: seq<Board>)
    requires WellFormed(b)
    ensures result == Quasi(b)
  {
    var barContinuations := OffTheBar(b);
    var continuations := [];
    var i := 0;
    while i < |barContinuations|
      invariant 0 <= i <= |barContinuations|
      invariant continuations == PostBarAll(b, barContinuations[..i])
    {
      PostBarAllStep(b, barContinuations, i);
      continuations := continuations + PostBar(barContinuations[i]);
      i := i + 1;
    }
    assert barContinuations[..i] == barContinuations;
    result := UniqueContinuations(continuations, Boards.Equals);
  }

  /** Board.LegalContinuations as the source runs it. */
  method LegalContinuations(b: Board) returns (results: seq<Board>)
    requires WellFormed(b)
    ensures results == Legal(b)
  {
    var candidates := QuasiLegalContinuations(b);
    var maxCandidates := MaxCandidates(candidates);
    if DiceUsed(maxCandidates[0]) != 1 {
      assert maxCandidates[0] in maxCandidates;
      return maxCandidates;
    }
    assert maxCandidates[0] in maxCandidates;
    results := LargestDieCandidates(maxCandidates);
  }

  lemma MaxUsedStep(qs: seq<Board>, i: nat)
    requires i < |qs|
    ensures MaxUsed(qs[..i + 1])
      == if DiceUsed(qs[i]) > MaxUsed(qs[..i]) then DiceUsed(qs[i]) else MaxUsed(qs[..i])
  {
    assert qs[..i + 1][..i] == qs[..i];
  }

  lemma KeepStep<T(!new)>(qs: seq<T>, p: T -> bool, i: nat)
    requires i < |qs|
    ensures Keep(qs[..i + 1], p) == Keep(qs[..i], p) + if p(qs[i]) then [qs[i]] else []
  {
    assert qs[..i + 1][..i] == qs[..i];
  }

  lemma MaxFirstDieStep(qs: seq<Board>, i: nat)
    requires forall q :: q in qs ==> DiceUsed(q) >= 1
    requires i < |qs|
    ensures forall q :: q in qs[..i + 1] ==> DiceUsed(q) >= 1
    ensures MaxFirstDie(qs[..i + 1])
      == if MaxFirstDie(qs[..i]) < FirstDie(qs[i]) as nat then FirstDie(qs[i]) as nat else MaxFirstDie(qs[..i])
  {
    assert forall q :: q in qs[..i + 1] ==> q in qs;
    assert qs[..i + 1][..i] == qs[..i];
    assert qs[i] in qs;
  }

  /** The first pass of LegalContinuations: the most dice any candidate used. */
  method MostDiceUsed(candidates: seq<Board>) returns (maxDiceUsed: nat)
    ensures maxDiceUsed == MaxUsed(candidates)
  {
    maxDiceUsed := 0;
    var i := 0;
    while i < |candidates|
      invariant 0 <= i <= |candidates|
      invariant maxDiceUsed == MaxUsed(candidates[..i])
    {
      MaxUsedStep(candidates, i);
      maxDiceUsed := if DiceUsed(candidates[i]) > maxDiceUsed then DiceUsed(candidates[i]) else maxDiceUsed;
      i := i + 1;
    }
    assert candidates[..i] == candidates;
  }

  /** The second and fourth passes of LegalContinuations: the candidates that pass p, in
      order. */
  method KeepWhere<T(!new)>(candidates: seq<T>, p: T -> bool) returns (kept: seq<T>)
    ensures kept == Keep(candidates, p)
  {
    kept := [];
    var i := 0;
    while i < |candidates|
      invariant 0 <= i <= |candidates|
      invariant kept == Keep(candidates[..i], p)
    {
      KeepStep(candidates, p, i);
      if p(candidates[i]) {
        kept := kept + [candidates[i]];
      }
      i := i + 1;
    }
    assert candidates[..i] == candidates;
  }

  /** The first two passes of LegalContinuations: the candidates that use the most dice. */
  method MaxCandidates(candidates: seq<Board>) returns (maxCandidates: seq<Board>)
    requires candidates != []
    ensures maxCandidates == Keep(candidates, UsedExactly(MaxUsed(candidates)))
    ensures maxCandidates != []
    ensures forall n :: n in maxCandidates ==> DiceUsed(n) == MaxUsed(candidates)
  {
    var maxDiceUsed := MostDiceUsed(candidates);
    maxCandidates := KeepWhere(candidates, UsedExactly(maxDiceUsed));
    MostUsedKept(candidates);
    forall n | n in maxCandidates ensures DiceUsed(n) == maxDiceUsed {
      assert UsedExactly(maxDiceUsed)(n);
    }
  }

  /** The third pass of LegalContinuations: the largest first die any candidate used. */
  method LargestDieUsed(maxCandidates: seq<Board>) returns (maxDieUsed: nat)
    requires forall n :: n in maxCandidates ==> DiceUsed(n) >= 1
    ensures maxDieUsed == MaxFirstDie(maxCandidates)
  {
    maxDieUsed := Rolls.ZeroDie;
    var i := 0;
    while i < |maxCandidates|
      invariant 0 <= i <= |maxCandidates|
      invariant forall q :: q in maxCandidates[..i] ==> DiceUsed(q) >= 1
      invariant maxDieUsed == MaxFirstDie(maxCandidates[..i])
    {
      MaxFirstDieStep(maxCandidates, i);
      assert maxCandidates[i] in maxCandidates;
      var dieUsed := FirstDie(maxCandidates[i]);
      maxDieUsed := if maxDieUsed < dieUsed then dieUsed as nat else maxDieUsed;
      i := i + 1;
    }
    assert maxCandidates[..i] == maxCandidates;
  }

  /** The last two passes of LegalContinuations: the candidates whose one die is the largest. */
  method LargestDieCandidates(maxCandidates: seq<Board>) returns (results: seq<Board>)
    requires forall n :: n in maxCandidates ==> DiceUsed(n) >= 1
    ensures results == Keep(maxCandidates, FirstDieIs(MaxFirstDie(maxCandidates)))
  {
    var maxDieUsed := LargestDieUsed(maxCandidates);
    results := KeepWhere(maxCandidates, FirstDieIs(maxDieUsed));
  }

  /** No two legal continuations are equal boards. */
  lemma LegalDistinct(b: Board)
    requires WellFormed(b)
    ensures Distinct(Legal(b), Boards.Equals)
  {
    var qs := Quasi(b);
    var m := MaxUsed(qs);
    var most := Keep(qs, UsedExactly(m));
    KeepDistinct(qs, UsedExactly(m), Boards.Equals);
    if m == 1 {
      KeepDistinct(most, FirstDieIs(MaxFirstDie(most)), Boards.Equals);
    }
  }

  // ---------------------------------------------------------------------------------------
  // When nothing can be played

  /** The roller cannot play any die: with checkers on the bar every entry point is blocked,
      otherwise no checker on points 1 to 24 can move by any remaining die. */
  predicate Stuck(b: Board)
    requires WellFormed(b)
  {
    if NumOnBar(b) > 0 then
      forall d :: d in Rolls.Dice(b.roll) ==> Blocked(b, EntryPoint(b.roller, d))
    else
      forall d, i :: d in Rolls.Dice(b.roll) && 1 <= i <= 24 && b.pips[i][0] == b.roller
        ==> CanMoveChecker(b, i, d).None?
  }

  lemma {:induction false} BarLoopBlocked(b: Board, ds: seq<Rolls.Die>)
    requires WellFormed(b) && NumOnBar(b) > 0
    requires forall d :: d in ds ==> d in Rolls.Dice(b.roll) && Blocked(b, EntryPoint(b.roller, d))
    ensures BarLoop(b, ds) == []
  {
    if ds != [] {
      assert ds[0] in ds;
      assert forall d :: d in ds[1..] ==> d in ds;
      BarLoopBlocked(b, ds[1..]);
    }
  }

  lemma {:induction false} ExpandNothing(b: Board, ds: seq<Rolls.Die>, i: nat)
    requires WellFormed(b) && 1 <= i <= 25
    requires forall d :: d in ds ==> d in Rolls.Dice(b.roll)
    requires forall d, j ::
      d in Rolls.Dice(b.roll) && 1 <= j <= 24 && b.pips[j][0] == b.roller ==> CanMoveChecker(b, j, d).None?
    ensures Expand(b, ds, i) == []
    decreases |ds|, 25 - i
  {
    if ds == [] {
    } else if i > 24 {
      assert forall d :: d in ds[1..] ==> d in ds;
      ExpandNothing(b, ds[1..], 1);
    } else {
      assert ds[0] in ds;
      ExpandNothing(b, ds, i + 1);
    }
  }

  /** Checker j of the roller can move by die d. */
  predicate Movable(b: Board, d: Rolls.Die, j: nat) {
    1 <= j <= 24 && 1 <= d <= 6 && b.pips[j][0] == b.roller && CanMoveChecker(b, j, d).Some?
  }

  /** Some board is reached in phase two when some checker can move. */
  lemma {:induction false} ExpandFinds(b: Board, ds: seq<Rolls.Die>, i: nat)
    requires WellFormed(b) && 1 <= i <= 25
    requires forall d :: d in ds ==> d in Rolls.Dice(b.roll)
    requires ds != []
    requires (exists j :: i <= j && Movable(b, ds[0], j)) || (exists d, j :: d in ds[1..] && Movable(b, d, j))
    ensures Expand(b, ds, i) != []
    decreases |ds|, 25 - i
  {
    if i > 24 {
      var tail := ds[1..];
      assert forall d :: d in tail ==> d in ds;
      var d, j :| d in tail && Movable(b, d, j);
      assert d == tail[0] || d in tail[1..];
      ExpandFinds(b, tail, 1);
      ExpandStep(b, ds, i);
    } else if Movable(b, ds[0], i) {
      ExpandStep(b, ds, i);
    } else {
      ExpandFinds(b, ds, i + 1);
      ExpandStep(b, ds, i);
    }
  }

  /** One step of Expand, unfolded. */
  lemma ExpandStep(b: Board, ds: seq<Rolls.Die>, i: nat)
    requires WellFormed(b) && 1 <= i <= 25
    requires forall d :: d in ds ==> d in Rolls.Dice(b.roll)
    requires ds != []
    ensures i > 24 ==> Expand(b, ds, i) == Expand(b, ds[1..], 1)
    ensures i <= 24 && !Movable(b, ds[0], i) ==> Expand(b, ds, i) == Expand(b, ds, i + 1)
    ensures i <= 24 && Movable(b, ds[0], i) ==> Expand(b, ds, i) != []
  {
    assert ds[0] in ds;
  }

  /** Phase two keeps every board at least as far along as the board it starts from. */
  lemma {:induction false} PostBarAllProgress(b: Board, bs: seq<Board>)
    requires forall n :: n in bs ==> WellFormed(n) && Preserves(b, n) && DiceUsed(n) > DiceUsed(b)
    ensures forall n :: n in PostBarAll(b, bs) ==> DiceUsed(n) > DiceUsed(b)
  {
    if bs != [] {
      assert forall n :: n in bs[..|bs| - 1] ==> n in bs;
      PostBarAllProgress(b, bs[..|bs| - 1]);
      assert bs[|bs| - 1] in bs;
    }
  }

  /** With checkers on the bar and some die that can enter, phase one plays a die on every
      board it reaches, and phase two keeps it so. */
  lemma EnteringProgress(b: Board)
    requires WellFormed(b) && NumOnBar(b) > 0 && !Stuck(b)
    ensures forall n :: n in PostBarAll(b, OffTheBar(b)) ==> DiceUsed(n) > DiceUsed(b)
  {
    var ones := OffTheBar(b);
    var d :| d in Rolls.Dice(b.roll) && !Blocked(b, EntryPoint(b.roller, d));
    assert ones == BarLoop(b, Rolls.UniqueDice(b.roll));
    PostBarAllProgress(b, ones);
  }

  /** With nothing on the bar and some checker that can move, phase two plays a die on every
      board it reaches. */
  lemma MovingPostBar(b: Board)
    requires WellFormed(b) && NumOnBar(b) == 0 && !Stuck(b)
    ensures forall n :: n in PostBar(b) ==> DiceUsed(n) > DiceUsed(b)
  {
    var d, j :| d in Rolls.Dice(b.roll) && 1 <= j <= 24 && b.pips[j][0] == b.roller
      && CanMoveChecker(b, j, d).Some?;
    var ds := Rolls.Dice(b.roll);
    assert Movable(b, d, j);
    assert d == ds[0] || d in ds[1..];
    ExpandFinds(b, ds, 1);
  }

  /** Phase two from a single board is phase two from it. */
  lemma PostBarAllSingle(b: Board)
    requires WellFormed(b)
    ensures PostBarAll(b, [b]) == PostBar(b)
  {
    assert [b][..0] == [];
  }

  lemma MovingProgress(b: Board)
    requires WellFormed(b) && NumOnBar(b) == 0 && !Stuck(b)
    ensures forall n :: n in PostBarAll(b, OffTheBar(b)) ==> DiceUsed(n) > DiceUsed(b)
  {
    PostBarAllSingle(b);
    MovingPostBar(b);
  }

  /** A roller who can play something plays at least one die in every legal continuation. */
  lemma NotStuckMeansProgress(b: Board)
    requires WellFormed(b) && !Stuck(b)
    ensures forall n :: n in Legal(b) ==> DiceUsed(n) > DiceUsed(b)
  {
    if NumOnBar(b) > 0 {
      EnteringProgress(b);
    } else {
      MovingProgress(b);
    }
  }

  /** A stuck roller enters nothing from the bar. */
  lemma StuckOffTheBar(b: Board)
    requires WellFormed(b) && Stuck(b)
    ensures OffTheBar(b) == [b]
  {
    if NumOnBar(b) > 0 {
      BarLoopBlocked(b, Rolls.UniqueDice(b.roll));
    }
  }

  /** A stuck roller moves nothing after the bar. */
  lemma StuckPostBar(b: Board)
    requires WellFormed(b) && Stuck(b)
    ensures PostBar(b) == [b]
  {
    if NumOnBar(b) == 0 && |Rolls.Dice(b.roll)| > 0 {
      ExpandNothing(b, Rolls.Dice(b.roll), 1);
    }
  }

  /** A single candidate is selected. */
  lemma SelectSingle(b: Board)
    ensures Select([b]) == [b]
  {
    assert MaxUsed([b]) == DiceUsed(b) by {
      assert [b][..0] == [];
    }
    assert Keep([b], UsedExactly(DiceUsed(b))) == [b] by {
      assert [b][..0] == [];
    }
    if DiceUsed(b) == 1 {
      assert MaxFirstDie([b]) == FirstDie(b) as nat by {
        assert [b][..0] == [];
      }
      assert Keep([b], FirstDieIs(FirstDie(b) as nat)) == [b] by {
        assert [b][..0] == [];
      }
    }
  }

  /** LegalContinuations returns just the board itself exactly when nothing can be played. */
  lemma StuckIffOnlyItself(b: Board)
    requires WellFormed(b)
    ensures Stuck(b) <==> Legal(b) == [b]
  {
    if Stuck(b) {
      StuckOffTheBar(b);
      StuckPostBar(b);
      PostBarAllSingle(b);
      assert Unique([b], Boards.Equals) == [b] by {
        assert [b][..0] == [];
      }
      SelectSingle(b);
    } else {
      NotStuckMeansProgress(b);
      assert b !in Legal(b);
    }
  }
}
