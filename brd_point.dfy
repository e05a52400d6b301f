/** Checkers and points: the Checker type of brd/brd.go and the Point operations of brd/point.go.
    A point is fifteen slots; its invariant is that the occupied slots form a prefix and hold
    checkers of one colour. */
module Points {

  /** The content of one slot. NoChecker marks an empty slot. */
  datatype Checker = NoChecker | White | Red

  /** The opposing colour; NoChecker is its own opposite. */
  function OtherColor(c: Checker): (r: Checker)
    ensures r == NoChecker <==> c == NoChecker
    ensures c != NoChecker ==> r != c
  {
    match c
    case Red => White
    case White => Red
    case NoChecker => NoChecker
  }

  const Capacity := 15

  type Point = p: seq<Checker> | |p| == Capacity witness seq(Capacity, i => NoChecker)

  /** The point with every slot empty. */
  const Empty: Point := seq(Capacity, i => NoChecker)

  /** Index of the first empty slot, or the length when no slot is empty. */
  function FirstEmpty(s: seq<Checker>): (k: nat)
    ensures k <= |s|
    ensures forall i :: 0 <= i < k ==> s[i] != NoChecker
    ensures k < |s| ==> s[k] == NoChecker
  {
    if s == [] || s[0] == NoChecker then 0 else 1 + FirstEmpty(s[1..])
  }

  /** Number of slots that hold exactly `c`. */
  function Count(s: seq<Checker>, c: Checker): (n: nat)
    ensures n <= |s|
  {
    multiset(s)[c]
  }

  /** Counting slot by slot from the end. */
  lemma CountLast(s: seq<Checker>, c: Checker)
    requires s != []
    ensures Count(s, c) == Count(s[..|s| - 1], c) + (if s[|s| - 1] == c then 1 else 0)
  {
    assert s == s[..|s| - 1] + [s[|s| - 1]];
  }

  /** Extending a prefix by one slot adds that slot to every count. */
  lemma CountStep(s: seq<Checker>, j: nat, c: Checker)
    requires j < |s|
    ensures Count(s[..j + 1], c) == Count(s[..j], c) + (if s[j] == c then 1 else 0)
  {
    assert s[..j + 1] == s[..j] + [s[j]];
  }

  lemma CountConcat(a: seq<Checker>, b: seq<Checker>, c: Checker)
    ensures Count(a + b, c) == Count(a, c) + Count(b, c)
  {
    assert multiset(a + b) == multiset(a) + multiset(b);
  }

  lemma CountUpdate(s: seq<Checker>, k: nat, x: Checker, c: Checker)
    requires k < |s|
    ensures Count(s[k := x], c)
         == Count(s, c) - (if s[k] == c then 1 else 0) + (if x == c then 1 else 0)
  {
    assert s == s[..k] + [s[k]] + s[k + 1..];
    assert s[k := x] == s[..k] + [x] + s[k + 1..];
    CountConcat(s[..k] + [s[k]], s[k + 1..], c);
    CountConcat(s[..k], [s[k]], c);
    CountConcat(s[..k] + [x], s[k + 1..], c);
    CountConcat(s[..k], [x], c);
    assert Count([s[k]], c) == Count([], c) + (if s[k] == c then 1 else 0);
    assert Count([x], c) == Count([], c) + (if x == c then 1 else 0);
  }

  /** Every slot holds one of the three values, so the counts add up to the length. */
  lemma {:induction false} CountPartition(s: seq<Checker>)
    ensures Count(s, NoChecker) + Count(s, White) + Count(s, Red) == |s|
  {
    if s != [] {
      CountLast(s, NoChecker);
      CountLast(s, White);
      CountLast(s, Red);
      CountPartition(s[..|s| - 1]);
    }
  }

  /** No slot holds `c` exactly when the count of `c` is zero. */
  lemma {:induction false} CountZero(s: seq<Checker>, c: Checker)
    ensures Count(s, c) == 0 <==> c !in s
  {
    if s != [] {
      CountZero(s[..|s| - 1], c);
      assert s == s[..|s| - 1] + [s[|s| - 1]];
    }
  }

  /** NumWhite, NumRed and NumCheckers: the point accessors used by the AI players. */
  function NumWhite(p: Point): nat { Count(p, White) }

  function NumRed(p: Point): nat { Count(p, Red) }

  function NumCheckers(p: Point): (n: nat)
    ensures n == Capacity - Count(p, NoChecker)
  {
    CountPartition(p);
    Count(p, White) + Count(p, Red)
  }

  /** The point invariant: occupied slots form a prefix and hold a single colour. */
  predicate Valid(p: Point) {
    && (forall i, j :: 0 <= i < j < Capacity && p[j] != NoChecker ==> p[i] != NoChecker)
    && (forall i :: 0 <= i < Capacity && p[i] != NoChecker ==> p[i] == p[0])
  }

  /** A point every slot of which is empty or holds `c`. */
  predicate OnlyColour(p: Point, c: Checker) {
    forall i :: 0 <= i < Capacity ==> p[i] == c || p[i] == NoChecker
  }

  /** On a valid point the first empty slot is the number of checkers, all of colour p[0]. */
  lemma ValidFacts(p: Point)
    requires Valid(p)
    ensures FirstEmpty(p) == NumCheckers(p)
    ensures p[0] != NoChecker ==> Count(p, p[0]) == NumCheckers(p)
    ensures p[0] != NoChecker ==> Count(p, OtherColor(p[0])) == 0
    ensures p[0] == NoChecker ==> NumCheckers(p) == 0
    ensures forall i :: 0 <= i < Capacity ==> (p[i] != NoChecker <==> i < FirstEmpty(p))
  {
    var k := FirstEmpty(p);
    ValidShape(p);
    ConstCounts(p[..k], p[0], p[k..]);
    assert p == p[..k] + p[k..];
  }

  /** A valid point is its first colour up to the first empty slot and empty after it. */
  lemma ValidShape(p: Point)
    requires Valid(p)
    ensures p[..FirstEmpty(p)] == seq(FirstEmpty(p), i => p[0])
    ensures p[FirstEmpty(p)..] == seq(Capacity - FirstEmpty(p), i => NoChecker)
  {
    var k := FirstEmpty(p);
    assert forall i :: k <= i < Capacity ==> p[i] == NoChecker;
    forall i | 0 <= i < k ensures p[..k][i] == p[0] { }
  }

  /** The counts of k copies of x followed by empty slots. */
  lemma ConstCounts(a: seq<Checker>, x: Checker, b: seq<Checker>)
    requires a == seq(|a|, i => x) && b == seq(|b|, i => NoChecker)
    ensures Count(a + b, x) == (if x == NoChecker then |a| + |b| else |a|)
    ensures Count(a + b, NoChecker) == (if x == NoChecker then |a| + |b| else |b|)
    ensures Count(a + b, OtherColor(x)) == (if x == NoChecker then |a| + |b| else 0)
  {
    var k := |a|;
    CountOfConst(k, x, x);
    CountOfConst(k, x, NoChecker);
    CountOfConst(k, x, OtherColor(x));
    CountOfConst(|b|, NoChecker, NoChecker);
    CountOfConst(|b|, NoChecker, x);
    CountOfConst(|b|, NoChecker, OtherColor(x));
    CountConcat(a, b, x);
    CountConcat(a, b, NoChecker);
    CountConcat(a, b, OtherColor(x));
  }

  lemma {:induction false} CountOfConst(n: nat, x: Checker, c: Checker)
    ensures Count(seq(n, i => x), c) == if x == c then n else 0
  {
    if n > 0 {
      assert seq(n, i => x)[..n - 1] == seq(n - 1, i => x);
      CountLast(seq(n, i => x), c);
      CountOfConst(n - 1, x, c);
    }
  }

  /** Point.MadeBy (brd/point.go:10-12): slots 0 and 1 both hold `player`. */
  function MadeBy(p: Point, player: Checker): (made: bool)
    ensures Valid(p) && player != NoChecker ==> (made <==> Count(p, player) >= 2)
  {
    MadeByCount(p, player);
    p[0] == player && p[1] == player
  }

  lemma MadeByCount(p: Point, player: Checker)
    ensures Valid(p) && player != NoChecker ==> (p[0] == player && p[1] == player <==> Count(p, player) >= 2)
  {
    if Valid(p) && player != NoChecker {
      ValidFacts(p);
      if p[0] == player {
        assert p[1] != NoChecker <==> NumCheckers(p) >= 2;
      } else if p[0] != NoChecker {
        assert player == OtherColor(p[0]);
      } else {
        CountZero(p, player);
      }
    }
  }

  /** Point.Equals (brd/point.go:14-21): slot-by-slot comparison. */
  function Equals(p: Point, q: Point): (same: bool)
    ensures same <==> p == q
  {
    EqualFrom(p, q, 0)
  }

  function EqualFrom(p: Point, q: Point, i: nat): (same: bool)
    requires i <= Capacity
    ensures same <==> p[i..] == q[i..]
    decreases Capacity - i
  {
    if i == Capacity then true
    else if p[i] != q[i] then false
    else
      assert p[i..] == [p[i]] + p[i + 1..] && q[i..] == [q[i]] + q[i + 1..];
      EqualFrom(p, q, i + 1)
  }

  /** Point.Reset (brd/point.go:35-43): slots below n hold `checker`, the rest are empty. */
  function Reset(n: int, checker: Checker): Point {
    seq(Capacity, i => if i < n then checker else NoChecker)
  }

  /** A reset point satisfies the invariant and holds min(max(n, 0), 15) checkers of its colour. */
  lemma ResetValid(n: int, checker: Checker)
    ensures Valid(Reset(n, checker))
    ensures checker != NoChecker ==>
      && Count(Reset(n, checker), checker) == (if n < 0 then 0 else if n > Capacity then Capacity else n)
      && Count(Reset(n, checker), OtherColor(checker)) == 0
  {
    var p := Reset(n, checker);
    if checker != NoChecker {
      ValidFacts(p);
      var k := if n < 0 then 0 else if n > Capacity then Capacity else n;
      assert FirstEmpty(p) == k by {
        assert forall i :: 0 <= i < k ==> p[i] != NoChecker;
        if k < Capacity {
          assert p[k] == NoChecker;
          FirstEmptyAt(p, k);
        } else {
          FirstEmptyAt(p, k);
        }
      }
      if k > 0 {
        assert p[0] == checker;
      } else {
        assert p[0] == NoChecker;
        CountZero(p, checker);
        CountZero(p, OtherColor(checker));
      }
    }
  }

  /** FirstEmpty is pinned down by its two defining properties. */
  lemma FirstEmptyAt(s: seq<Checker>, k: nat)
    requires k <= |s|
    requires forall i :: 0 <= i < k ==> s[i] != NoChecker
    requires k < |s| ==> s[k] == NoChecker
    ensures FirstEmpty(s) == k
  {
  }

  /** Point.Add does not panic: every slot before the first empty one already holds `checker`,
      and an empty slot exists. */
  predicate CanAdd(p: Point, checker: Checker) {
    FirstEmpty(p) < Capacity && forall i :: 0 <= i < FirstEmpty(p) ==> p[i] == checker
  }

  /** On a valid point, Add is possible exactly when the point is not full and holds no
      checker of another colour. */
  lemma CanAddValid(p: Point, checker: Checker)
    requires Valid(p) && checker != NoChecker
    ensures CanAdd(p, checker) <==> NumCheckers(p) < Capacity && Count(p, OtherColor(checker)) == 0
  {
    ValidFacts(p);
    if p[0] != NoChecker && p[0] != checker {
      assert p[0] == OtherColor(checker);
    }
    if p[0] == NoChecker {
      CountZero(p, OtherColor(checker));
    }
  }

  /** Point.Add (brd/point.go:45-56): the first empty slot receives `checker`. */
  function Add(p: Point, checker: Checker): (r: Point)
    requires CanAdd(p, checker)
    ensures checker != NoChecker ==> Count(r, checker) == Count(p, checker) + 1
    ensures forall c :: c != checker && c != NoChecker ==> Count(r, c) == Count(p, c)
    ensures checker != NoChecker ==> NumCheckers(r) == NumCheckers(p) + 1
    ensures Valid(p) ==> Valid(r)
  {
    var k := FirstEmpty(p);
    CountUpdate(p, k, checker, checker);
    CountUpdate(p, k, checker, NoChecker);
    assert forall c :: c != checker && c != NoChecker ==> Count(p[k := checker], c) == Count(p, c) by {
      forall c | c != checker && c != NoChecker { CountUpdate(p, k, checker, c); }
    }
    p[k := checker]
  }

  /** Point.Subtract (brd/point.go:58-70): the slot before the first empty one is cleared. */
  function Subtract(p: Point): (r: Point)
    requires p[0] != NoChecker
    ensures Valid(p) ==> Count(r, p[0]) == Count(p, p[0]) - 1
    ensures forall c :: c != p[0] && c != NoChecker && Valid(p) ==> Count(r, c) == Count(p, c)
    ensures Valid(p) ==> NumCheckers(r) == NumCheckers(p) - 1
    ensures Valid(p) ==> Valid(r)
  {
    SubtractCounts(p);
    p[FirstEmpty(p) - 1 := NoChecker]
  }

  lemma SubtractCounts(p: Point)
    requires p[0] != NoChecker
    ensures var r := p[FirstEmpty(p) - 1 := NoChecker];
      && (Valid(p) ==> Count(r, p[0]) == Count(p, p[0]) - 1)
      && (forall c :: c != p[0] && c != NoChecker && Valid(p) ==> Count(r, c) == Count(p, c))
      && (Valid(p) ==> NumCheckers(r) == NumCheckers(p) - 1)
      && (Valid(p) ==> Valid(r))
  {
    var k := FirstEmpty(p) - 1;
    if Valid(p) {
      ValidFacts(p);
      CountUpdate(p, k, NoChecker, p[0]);
      CountUpdate(p, k, NoChecker, NoChecker);
      forall c | c != p[0] && c != NoChecker
        ensures Count(p[k := NoChecker], c) == Count(p, c)
      {
        CountUpdate(p, k, NoChecker, c);
      }
    }
  }

  /** Adding a checker and then subtracting one restores a valid point (brd/point.go:45-70). */
  lemma AddThenSubtract(p: Point, checker: Checker)
    requires Valid(p) && CanAdd(p, checker) && checker != NoChecker
    ensures Subtract(Add(p, checker)) == p
  {
    var k := FirstEmpty(p);
    var q := Add(p, checker);
    assert q == p[k := checker];
    if k + 1 < Capacity {
      assert p[k + 1] == NoChecker;
    }
    FirstEmptyAt(q, k + 1);
    assert q[k := NoChecker] == p;
  }

  /** Point.Reset as the source runs it: an index loop over the fifteen slots. */
  method ResetInPlace(p: array<Checker>, n: int, checker: Checker)
    requires p.Length == Capacity
    modifies p
    ensures p[..] == Reset(n, checker)
  {
    for i := 0 to p.Length
      invariant forall j :: 0 <= j < i ==> p[j] == (if j < n then checker else NoChecker)
    {
      if i < n {
        p[i] := checker;
      } else {
        p[i] := NoChecker;
      }
    }
  }

  /** Point.Add as the source runs it: scan to the first empty slot and fill it. */
  method AddInPlace(p: array<Checker>, checker: Checker)
    requires p.Length == Capacity && CanAdd(p[..], checker)
    modifies p
    ensures p[..] == Add(old(p[..]), checker)
  {
    var i := 0;
    while p[i] != NoChecker
      invariant 0 <= i <= FirstEmpty(p[..])
      decreases Capacity - i
    {
      i := i + 1;
    }
    p[i] := checker;
  }

  /** Point.Subtract as the source runs it: find the first empty slot and clear the one before. */
  method SubtractInPlace(p: array<Checker>)
    requires p.Length == Capacity && p[0] != NoChecker
    modifies p
    ensures p[..] == Subtract(old(p[..]))
  {
    var index := Capacity - 1;
    var i := 0;
    while i < Capacity
      invariant 0 <= i <= Capacity
      invariant forall j :: 0 <= j < i ==> p[j] != NoChecker
      invariant index == Capacity - 1
    {
      if p[i] == NoChecker {
        index := i - 1;
        break;
      }
      i := i + 1;
    }
    FirstEmptyAt(p[..], if i < Capacity then i else Capacity);
    p[index] := NoChecker;
  }
}
