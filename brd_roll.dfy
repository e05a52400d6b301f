/** Dice: the Roll type of brd/roll.go. A roll is four dice; zero marks a die not in play. */
module Rolls {
  import opened Wrappers

  /** A die is a uint8: zero is no die, 1 to 6 are pips, anything larger is nonsense. */
  type Die = d: int | 0 <= d < 256

  const ZeroDie: Die := 0

  type Roll = r: seq<Die> | |r| == 4 witness [0, 0, 0, 0]

  /** The roll with no die in play. */
  const NoRoll: Roll := [0, 0, 0, 0]

  /** Roll.Dice (brd/roll.go:165-172): the non-zero dice, in slot order. */
  function Dice(r: seq<Die>): (ds: seq<Die>)
    ensures |ds| <= |r|
    ensures ZeroDie !in ds
  {
    if r == [] then []
    else
      (if r[0] != ZeroDie then [r[0]] else []) + Dice(r[1..])
  }

  /** The dice are exactly the non-zero values of the roll. */
  lemma {:induction false} DiceMembers(r: seq<Die>)
    ensures forall d :: d in Dice(r) <==> d in r && d != ZeroDie
  {
    if r != [] {
      DiceMembers(r[1..]);
      assert r == [r[0]] + r[1..];
    }
  }

  lemma {:induction false} DiceConcat(a: seq<Die>, b: seq<Die>)
    ensures Dice(a + b) == Dice(a) + Dice(b)
  {
    if a != [] {
      assert (a + b)[1..] == a[1..] + b;
      DiceConcat(a[1..], b);
    } else {
      assert a + b == b;
    }
  }

  /** A roll with no free slot is all dice. */
  lemma {:induction false} DiceNoZero(r: seq<Die>)
    requires ZeroDie !in r
    ensures Dice(r) == r
  {
    if r != [] {
      assert ZeroDie !in r[1..];
      DiceNoZero(r[1..]);
      assert r == [r[0]] + r[1..];
    }
  }

  /** Fewer than four dice in play means some slot is free. */
  lemma HasFreeSlot(r: Roll)
    requires |Dice(r)| < 4
    ensures ZeroDie in r
  {
    if ZeroDie !in r {
      DiceNoZero(r);
    }
  }

  predicate StrictlyDescending(s: seq<Die>) {
    forall i, j :: 0 <= i < j < |s| ==> s[i] > s[j]
  }

  predicate Descending(s: seq<Die>) {
    forall i, j :: 0 <= i < j < |s| ==> s[i] >= s[j]
  }

  /** The distinct non-zero values of `ds` below `bound`, largest first. */
  function DistinctBelow(ds: seq<Die>, bound: int): (u: seq<Die>)
    ensures StrictlyDescending(u)
    ensures forall d :: d in u <==> d in ds && 0 < d < bound
    decreases bound
  {
    if bound <= 1 then []
    else
      var d := bound - 1;
      var rest := DistinctBelow(ds, d);
      assert forall j :: 0 <= j < |rest| ==> rest[j] in rest;
      if d in ds then [d] + rest else rest
  }

  /** Roll.UniqueDice (brd/roll.go:141-159): the distinct dice in strictly descending order. */
  function UniqueDice(r: Roll): (u: seq<Die>)
    ensures StrictlyDescending(u)
    ensures forall d :: d in u <==> d in Dice(r)
  {
    DiceMembers(r);
    DistinctBelow(r, 256)
  }

  /** A strictly descending sequence has no more elements than it has values. */
  lemma DescendingOneValue(u: seq<Die>, v: Die)
    requires StrictlyDescending(u)
    ensures (forall i :: 0 <= i < |u| ==> u[i] == v) ==> |u| <= 1
  {
    if |u| >= 2 {
      assert u[0] > u[1];
    }
  }

  lemma DescendingTwoValues(u: seq<Die>, v: Die, w: Die)
    requires StrictlyDescending(u)
    ensures (forall i :: 0 <= i < |u| ==> u[i] == v || u[i] == w) ==> |u| <= 2
  {
    if |u| >= 3 {
      assert u[0] > u[1] > u[2];
    }
  }

  lemma DescendingAtLeastTwo(u: seq<Die>, v: Die, w: Die)
    requires v in u && w in u && v != w
    ensures |u| >= 2
  {
  }

  function Insert(x: Die, s: seq<Die>): (r: seq<Die>)
    requires Descending(s)
    ensures Descending(r)
    ensures multiset(r) == multiset(s) + multiset{x}
    ensures forall y :: y in r <==> y == x || y in s
  {
    if s == [] || x >= s[0] then
      DescendingCons(x, s);
      [x] + s
    else
      assert s == [s[0]] + s[1..];
      var t := Insert(x, s[1..]);
      assert t[0] in multiset(t);
      assert s[0] >= t[0] by {
        if t[0] != x {
          var k :| 0 <= k < |s[1..]| && s[1..][k] == t[0];
          assert s[k + 1] == t[0];
        }
      }
      DescendingCons(s[0], t);
      [s[0]] + t
  }

  /** A head no smaller than the first element keeps a descending sequence descending. */
  lemma DescendingCons(h: Die, t: seq<Die>)
    requires Descending(t) && (t == [] || h >= t[0])
    ensures Descending([h] + t)
  {
    var r := [h] + t;
    forall i, j | 0 <= i < j < |r| ensures r[i] >= r[j] {
      if i == 0 {
        assert r[j] == t[j - 1] && t[0] >= t[j - 1];
      } else {
        assert r[i] == t[i - 1] && r[j] == t[j - 1];
      }
    }
  }

  /** The sort.Slice call of Roll.Equals: largest die first. */
  function SortDescending(s: seq<Die>): (r: seq<Die>)
    ensures Descending(r)
    ensures multiset(r) == multiset(s)
  {
    if s == [] then []
    else
      assert s == [s[0]] + s[1..];
      Insert(s[0], SortDescending(s[1..]))
  }

  lemma DescendingHeadIsMax(a: seq<Die>, y: Die)
    requires Descending(a) && y in a
    ensures y <= a[0]
  {
    var j :| 0 <= j < |a| && a[j] == y;
  }
  /** Two descending sequences with the same elements are the same sequence. */
  lemma {:induction false} DescendingUnique(a: seq<Die>, b: seq<Die>)
    requires Descending(a) && Descending(b)
    requires multiset(a) == multiset(b)
    ensures a == b
  {
    if a != [] {
      assert |a| == |multiset(a)| == |multiset(b)| == |b|;
      assert a[0] in multiset(b) && b[0] in multiset(a);
      DescendingHeadIsMax(a, b[0]);
      DescendingHeadIsMax(b, a[0]);
      assert a[0] == b[0];
      MultisetTail(a);
      MultisetTail(b);
      assert multiset(a[1..]) == multiset(b[1..]);
      DescendingTail(a);
      DescendingTail(b);
      DescendingUnique(a[1..], b[1..]);
      SameHeadAndTail(a, b);
    } else {
      assert |b| == |multiset(b)| == 0;
    }
  }

  lemma DescendingTail(a: seq<Die>)
    requires a != [] && Descending(a)
    ensures Descending(a[1..])
  {
    forall i, j | 0 <= i < j < |a| - 1 ensures a[1..][i] >= a[1..][j] {
      assert a[1..][i] == a[i + 1] && a[1..][j] == a[j + 1];
    }
  }

  /** Taking the head off takes one copy of it out of the multiset. */
  lemma MultisetTail<T>(s: seq<T>)
    requires s != []
    ensures multiset(s[1..]) == multiset(s) - multiset{s[0]}
  {
    assert s == [s[0]] + s[1..];
  }

  lemma SameHeadAndTail<T>(a: seq<T>, b: seq<T>)
    requires a != [] && b != [] && a[0] == b[0] && a[1..] == b[1..]
    ensures a == b
  {
    assert a == [a[0]] + a[1..] && b == [b[0]] + b[1..];
  }

  /** Roll.Equals (brd/roll.go:19-41): both rolls hold the same dice, in any order. */
  function Equals(r: Roll, o: Roll): (same: bool)
    ensures same <==> multiset(Dice(r)) == multiset(Dice(o))
  {
    var a, b := SortDescending(Dice(r)), SortDescending(Dice(o));
    if multiset(Dice(r)) == multiset(Dice(o)) then DescendingUnique(a, b); a == b
    else a == b
  }

  /** What Roll.invalidity reports; the message text is not modelled. */
  datatype RollDefect =
    | TooManyUniqueDice
    | TooManyEffectiveDice
    | DieOutOfRange(index: nat)
    | LargerDieNotFirst
    | DoubletNotFilled

  /** The rolls Roll.New can produce: {a, b, 0, 0} with 6 >= a > b >= 1, or {d, d, d, d}. */
  predicate WellShaped(r: Roll) {
    || (1 <= r[1] < r[0] <= 6 && r[2] == ZeroDie && r[3] == ZeroDie)
    || (1 <= r[0] <= 6 && r[1] == r[0] && r[2] == r[0] && r[3] == r[0])
  }

  /** Roll.invalidity (brd/roll.go:43-68): the checks in their source order. A die is unsigned,
      so the lower-bound test on slots 2 and 3 never fires. */
  function Invalidity(r: Roll): (v: Option<RollDefect>)
    ensures v == None <==> WellShaped(r)
  {
    var u := UniqueDice(r);
    InvalidityShape(r);
    if |u| > 2 then Some(TooManyUniqueDice)
    else if |u| == 2 && |Dice(r)| > 2 then Some(TooManyEffectiveDice)
    else if r[0] < 1 || r[0] > 6 then Some(DieOutOfRange(0))
    else if r[1] < 1 || r[1] > 6 then Some(DieOutOfRange(1))
    else if r[2] > 6 then Some(DieOutOfRange(2))
    else if r[3] > 6 then Some(DieOutOfRange(3))
    else if r[0] < r[1] then Some(LargerDieNotFirst)
    else if r[0] == r[1] && (r[0] != r[2] || r[0] != r[3]) then Some(DoubletNotFilled)
    else None
  }

  function DieAsDice(d: Die): seq<Die> {
    if d != ZeroDie then [d] else []
  }

  lemma DiceOfFour(r: Roll)
    ensures Dice(r) == DieAsDice(r[0]) + DieAsDice(r[1]) + DieAsDice(r[2]) + DieAsDice(r[3])
  {
    assert r == [r[0], r[1], r[2], r[3]];
    DiceOfDisplay(r[0], r[1], r[2], r[3]);
  }

  lemma DiceOfDisplay(a: Die, b: Die, c: Die, d: Die)
    ensures Dice([a, b, c, d]) == DieAsDice(a) + DieAsDice(b) + DieAsDice(c) + DieAsDice(d)
  {
    DiceStep([a, b, c, d]);
    assert [a, b, c, d][1..] == [b, c, d];
    DiceStep([b, c, d]);
    assert [b, c, d][1..] == [c, d];
    DiceStep([c, d]);
    assert [c, d][1..] == [d];
    DiceStep([d]);
    assert [d][1..] == [];
  }

  /** One step of Dice: the first slot, then the rest. */
  lemma DiceStep(r: seq<Die>)
    requires r != []
    ensures Dice(r) == DieAsDice(r[0]) + Dice(r[1..])
  {
  }

  /** The checks of Roll.invalidity all pass. */
  predicate PassesChecks(r: Roll) {
    && !(|UniqueDice(r)| > 2)
    && !(|UniqueDice(r)| == 2 && |Dice(r)| > 2)
    && 1 <= r[0] <= 6 && 1 <= r[1] <= 6 && r[2] <= 6 && r[3] <= 6
    && r[0] >= r[1]
    && !(r[0] == r[1] && (r[0] != r[2] || r[0] != r[3]))
  }

  lemma InvalidityShape(r: Roll)
    ensures WellShaped(r) <==> PassesChecks(r)
  {
    if PassesChecks(r) {
      ChecksGiveShape(r);
    }
    if 1 <= r[1] < r[0] <= 6 && r[2] == ZeroDie && r[3] == ZeroDie {
      TwoDiceChecks(r);
    } else if 1 <= r[0] <= 6 && r[1] == r[0] && r[2] == r[0] && r[3] == r[0] {
      DoubletChecks(r);
    }
  }

  /** A roll that passes every check is one Roll.New can produce. */
  lemma ChecksGiveShape(r: Roll)
    requires PassesChecks(r)
    ensures WellShaped(r)
  {
    if r[0] != r[1] {
      var u := UniqueDice(r);
      DiceMembers(r);
      DiceOfFour(r);
      assert r[0] in Dice(r) && r[1] in Dice(r);
      DescendingAtLeastTwo(u, r[0], r[1]);
    }
  }

  /** Two different dice pass every check. */
  lemma TwoDiceChecks(r: Roll)
    requires 1 <= r[1] < r[0] <= 6 && r[2] == ZeroDie && r[3] == ZeroDie
    ensures PassesChecks(r)
  {
    var u := UniqueDice(r);
    DiceOfFour(r);
    assert Dice(r) == [r[0], r[1]];
    assert forall i :: 0 <= i < |u| ==> u[i] in u && u[i] in Dice(r);
    DescendingTwoValues(u, r[0], r[1]);
  }

  /** A filled doublet passes every check. */
  lemma DoubletChecks(r: Roll)
    requires 1 <= r[0] <= 6 && r[1] == r[0] && r[2] == r[0] && r[3] == r[0]
    ensures PassesChecks(r)
  {
    var u := UniqueDice(r);
    DiceOfFour(r);
    assert Dice(r) == [r[0], r[0], r[0], r[0]];
    assert forall i :: 0 <= i < |u| ==> u[i] in u && u[i] in Dice(r);
    DescendingOneValue(u, r[0]);
  }

  /** Roll.New (brd/roll.go:71-91) for the draw x in [0, 36): larger die first, a doublet fills
      all four slots. */
  function New(x: int): (r: Roll)
    requires 0 <= x < 36
    ensures Invalidity(r) == None
    ensures multiset{r[0], r[1]} == multiset{x % 6 + 1, x / 6 + 1}
    ensures r[0] == r[1] <==> x % 6 == x / 6
  {
    var a, b := x % 6 + 1, x / 6 + 1;
    var high, low := if a < b then b else a, if a < b then a else b;
    if high == low then [high, high, high, high] else [high, low, ZeroDie, ZeroDie]
  }

  /** Roll.New as the source runs it: the cleared roll is zeroed by an index loop and the new
      roll is written slot by slot. */
  method NewInPlace(r: array<Die>, toBeCleared: array<Die>, x: int)
    requires r.Length == 4 && toBeCleared.Length == 4 && r != toBeCleared
    requires 0 <= x < 36
    modifies r, toBeCleared
    ensures r[..] == New(x)
    ensures toBeCleared[..] == NoRoll
  {
    Clear(toBeCleared);
    r[0] := x % 6 + 1;
    r[1] := x / 6 + 1;
    if r[0] < r[1] {
      r[0], r[1] := r[1], r[0];
    }
    r[2] := ZeroDie;
    r[3] := ZeroDie;
    if r[0] == r[1] {
      r[2] := r[0];
      r[3] := r[0];
    }
  }

  /** The clearing loop of Roll.New: every slot of the roll is zeroed. */
  method Clear(toBeCleared: array<Die>)
    requires toBeCleared.Length == 4
    modifies toBeCleared
    ensures toBeCleared[..] == NoRoll
  {
    for i := 0 to toBeCleared.Length
      invariant forall k :: 0 <= k < i ==> toBeCleared[k] == ZeroDie
    {
      toBeCleared[i] := ZeroDie;
    }
  }

  /** Index of the first occurrence of `x`. */
  function IndexOf(s: seq<Die>, x: Die): (k: nat)
    requires x in s
    ensures k < |s| && s[k] == x
    ensures forall j :: 0 <= j < k ==> s[j] != x
  {
    if s[0] == x then 0
    else 1 + IndexOf(s[1..], x)
  }

  /** `s` without its first occurrence of `x`. */
  function RemoveFirst(s: seq<Die>, x: Die): (r: seq<Die>)
    ensures x !in s ==> r == s
    ensures |r| == if x in s then |s| - 1 else |s|
  {
    if s == [] then []
    else if s[0] == x then s[1..]
    else
      assert x in s <==> x in s[1..];
      [s[0]] + RemoveFirst(s[1..], x)
  }

  /** Exactly one copy of `x` goes. */
  lemma {:induction false} RemoveFirstMultiset(s: seq<Die>, x: Die)
    requires x in s
    ensures multiset(RemoveFirst(s, x)) == multiset(s) - multiset{x}
  {
    assert s == [s[0]] + s[1..];
    if s[0] != x {
      RemoveFirstMultiset(s[1..], x);
    }
  }

  /** The other dice keep their order: the result is `s` with the slot of the first `x` cut out. */
  lemma {:induction false} RemoveFirstCuts(s: seq<Die>, x: Die)
    requires x in s
    ensures RemoveFirst(s, x) == s[..IndexOf(s, x)] + s[IndexOf(s, x) + 1..]
  {
    if s[0] != x {
      RemoveFirstCuts(s[1..], x);
      RemoveFirstCutsStep(s, x);
    } else {
      assert s[..0] + s[1..] == s[1..];
    }
  }

  lemma RemoveFirstCutsStep(s: seq<Die>, x: Die)
    requires x in s && s[0] != x
    requires RemoveFirst(s[1..], x) == s[1..][..IndexOf(s[1..], x)] + s[1..][IndexOf(s[1..], x) + 1..]
    ensures RemoveFirst(s, x) == s[..IndexOf(s, x)] + s[IndexOf(s, x) + 1..]
  {
    var t := s[1..];
    var k := IndexOf(t, x);
    assert IndexOf(s, x) == k + 1;
    CutShift(s, k);
  }

  /** Cutting slot k of the tail is cutting slot k+1 of the whole, after its head. */
  lemma CutShift<T>(s: seq<T>, k: nat)
    requires k + 1 < |s|
    ensures [s[0]] + (s[1..][..k] + s[1..][k + 1..]) == s[..k + 1] + s[k + 2..]
  {
    assert [s[0]] + s[1..][..k] == s[..k + 1];
    assert s[1..][k + 1..] == s[k + 2..];
  }

  lemma {:induction false} DiceRemoveFirst(s: seq<Die>, x: Die)
    requires x != ZeroDie
    ensures Dice(RemoveFirst(s, x)) == RemoveFirst(Dice(s), x)
  {
    if s != [] {
      DiceStep(s);
      if s[0] == x {
        RemoveFirstHead(Dice(s[1..]), x);
      } else {
        DiceRemoveFirst(s[1..], x);
        DiceRemoveFirstKeep(s, x);
      }
    }
  }

  /** A leading x is the one removed. */
  lemma RemoveFirstHead(t: seq<Die>, x: Die)
    ensures RemoveFirst([x] + t, x) == t
  {
    assert ([x] + t)[1..] == t;
  }

  /** A leading h other than x stays in front. */
  lemma RemoveFirstOther(h: Die, t: seq<Die>, x: Die)
    requires h != x
    ensures RemoveFirst([h] + t, x) == [h] + RemoveFirst(t, x)
  {
    assert ([h] + t)[1..] == t;
  }

  /** The step of DiceRemoveFirst when the first slot is not x. */
  lemma DiceRemoveFirstKeep(s: seq<Die>, x: Die)
    requires s != [] && s[0] != x && x != ZeroDie
    requires Dice(RemoveFirst(s[1..], x)) == RemoveFirst(Dice(s[1..]), x)
    ensures Dice(RemoveFirst(s, x)) == RemoveFirst(Dice(s), x)
  {
    var t, h := s[1..], s[0];
    var rt := RemoveFirst(t, x);
    assert s == [h] + t;
    RemoveFirstOther(h, t, x);
    DiceStep([h] + rt);
    assert ([h] + rt)[0] == h && ([h] + rt)[1..] == rt;
    DiceStep(s);
    if h == ZeroDie {
      assert Dice([h] + rt) == Dice(rt) by { assert [] + Dice(rt) == Dice(rt); }
      assert Dice(s) == Dice(t) by { assert [] + Dice(t) == Dice(t); }
    } else {
      RemoveFirstOther(h, Dice(t), x);
    }
  }

  /** The result half of Roll.Use: the first `die` is taken out and the rest shift left,
      leaving a free slot at the end. */
  function Use(r: Roll, die: Die): (u: Roll)
    requires 1 <= die <= 6
    ensures Dice(u) == RemoveFirst(Dice(r), die)
    ensures die !in r ==> u == r
    ensures die in r ==> u[..3] == RemoveFirst(r, die) && u[3] == ZeroDie
  {
    DiceRemoveFirst(r, die);
    if die in r then
      DiceConcat(RemoveFirst(r, die), [ZeroDie]);
      RemoveFirst(r, die) + [ZeroDie]
    else r
  }

  /** The recipient half of Roll.Use: `die` goes into the first free slot, nothing else changes. */
  function Deposit(recipient: Roll, die: Die): (u: Roll)
    requires ZeroDie in recipient
    ensures u[IndexOf(recipient, ZeroDie)] == die
    ensures forall k :: 0 <= k < 4 && k != IndexOf(recipient, ZeroDie) ==> u[k] == recipient[k]
  {
    recipient[IndexOf(recipient, ZeroDie) := die]
  }

  /** A deposited die joins the used dice. */
  lemma DepositDice(recipient: Roll, die: Die)
    requires ZeroDie in recipient && die != ZeroDie
    ensures multiset(Dice(Deposit(recipient, die))) == multiset(Dice(recipient)) + multiset{die}
    ensures |Dice(Deposit(recipient, die))| == |Dice(recipient)| + 1
  {
    DiceUpdate(recipient, IndexOf(recipient, ZeroDie), die);
  }

  /** A die written into a free slot adds one to the dice. */
  lemma {:induction false} DiceUpdate(r: seq<Die>, k: nat, die: Die)
    requires k < |r| && r[k] == ZeroDie && die != ZeroDie
    ensures multiset(Dice(r[k := die])) == multiset(Dice(r)) + multiset{die}
    ensures |Dice(r[k := die])| == |Dice(r)| + 1
  {
    var u := r[k := die];
    if k == 0 {
      assert u[1..] == r[1..];
    } else {
      assert u[1..] == r[1..][k - 1 := die];
      DiceUpdate(r[1..], k - 1, die);
    }
  }

  /** A die moved from the roll to the used roll: the dice in play and the dice used, taken
      together, are unchanged, and one die has changed sides. */
  lemma UseConserves(r: Roll, used: Roll, die: Die)
    requires 1 <= die <= 6 && die in Dice(r) && ZeroDie in used
    ensures multiset(Dice(Use(r, die))) + multiset(Dice(Deposit(used, die)))
         == multiset(Dice(r)) + multiset(Dice(used))
    ensures |Dice(Use(r, die))| == |Dice(r)| - 1
    ensures |Dice(Deposit(used, die))| == |Dice(used)| + 1
  {
    var a, b := Dice(r), Dice(used);
    RemoveFirstMultiset(a, die);
    DepositDice(used, die);
    MultisetMove(multiset(a), multiset(b), die);
  }

  /** Every die left after Use was in the roll before. */
  lemma UseDrawsFromRoll(r: Roll, die: Die)
    requires 1 <= die <= 6
    ensures forall d :: d in Dice(Use(r, die)) ==> d in Dice(r)
  {
    var a := Dice(r);
    if die in a {
      RemoveFirstMultiset(a, die);
      forall d | d in Dice(Use(r, die)) ensures d in a {
        assert d in multiset(RemoveFirst(a, die));
      }
    }
  }

  lemma MultisetMove(a: multiset<Die>, b: multiset<Die>, d: Die)
    requires d in a
    ensures (a - multiset{d}) + (b + multiset{d}) == a + b
  {
  }

  /** Roll.Use (brd/roll.go:107-136) as the source runs it: an index loop copies every die but the
      first `die` into the result, and a second loop fills the recipient's first free slot. */
  method UseInPlace(r: Roll, die: Die, recipient: array<Die>) returns (result: Roll)
    requires 1 <= die <= 6
    requires recipient.Length == 4 && ZeroDie in recipient[..]
    modifies recipient
    ensures result == Use(r, die)
    ensures recipient[..] == Deposit(old(recipient[..]), die)
  {
    result := RemainingDice(r, die);
    DepositInPlace(recipient, die);
  }

  /** The first loop of Roll.Use: every die but the first `die`, in order, then free slots. */
  method RemainingDice(r: Roll, die: Die) returns (result: Roll)
    requires 1 <= die <= 6
    ensures result == Use(r, die)
  {
    var j := 0;
    result := NoRoll;
    var alreadyUsed := false;
    for i := 0 to 4
      invariant alreadyUsed <==> die in r[..i]
      invariant j == i - (if alreadyUsed then 1 else 0)
      invariant result == RemoveFirst(r[..i], die) + seq(4 - j, k => ZeroDie)
    {
      RemoveFirstPrefix(r, i, die);
      if !alreadyUsed && r[i] == die {
        alreadyUsed := true;
        continue;
      }
      if r[i] != die || alreadyUsed {
        PadStep(RemoveFirst(r[..i], die), r[i], 4 - j);
        result := result[j := r[i]];
        j := j + 1;
      }
    }
    assert r[..4] == r;
  }

  /** One more slot of the roll looked at by the first loop of Roll.Use. */
  lemma RemoveFirstPrefix(r: seq<Die>, i: nat, die: Die)
    requires i < |r|
    ensures die in r[..i + 1] <==> die in r[..i] || r[i] == die
    ensures RemoveFirst(r[..i + 1], die)
      == if die !in r[..i] && r[i] == die then r[..i] else RemoveFirst(r[..i], die) + [r[i]]
  {
    assert r[..i + 1] == r[..i] + [r[i]];
    RemoveFirstSnoc(r[..i], r[i], die);
  }

  /** Writing into the first free slot after `s` extends `s` by one. */
  lemma PadStep(s: seq<Die>, y: Die, n: nat)
    requires n >= 1
    ensures (s + seq(n, k => ZeroDie))[|s| := y] == (s + [y]) + seq(n - 1, k => ZeroDie)
  {
  }

  /** The second loop of Roll.Use: the die goes into the recipient's first free slot. */
  method DepositInPlace(recipient: array<Die>, die: Die)
    requires recipient.Length == 4 && ZeroDie in recipient[..]
    modifies recipient
    ensures recipient[..] == Deposit(old(recipient[..]), die)
  {
    var i := 0;
    ghost var k := IndexOf(recipient[..], ZeroDie);
    while i < 4
      invariant 0 <= i <= k
      invariant recipient[..] == old(recipient[..])
      decreases 4 - i
    {
      if recipient[i] == ZeroDie {
        recipient[i] := die;
        break;
      }
      assert recipient[..][..k][i] == recipient[i];
      i := i + 1;
    }
  }


  lemma {:induction false} RemoveFirstSnoc(s: seq<Die>, y: Die, x: Die)
    ensures RemoveFirst(s + [y], x) == if x !in s && y == x then s else RemoveFirst(s, x) + [y]
  {
    if s == [] {
      assert s + [y] == [y];
    } else {
      assert (s + [y])[1..] == s[1..] + [y];
      RemoveFirstSnoc(s[1..], y, x);
      assert x in s <==> s[0] == x || x in s[1..] by { assert s == [s[0]] + s[1..]; }
    }
  }
}
