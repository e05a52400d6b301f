/** The selection engine of ai/common.go: criteria scored over candidate boards, losers ruled
    out with a reason and moved behind the winners, so that a chain of criteria selects
    lexicographically. */
module Selection {
  import opened Wrappers
  import opened Points
  import opened Boards
  import Scores
  import Decimal

  newtype Int64 = x: int | -0x8000_0000_0000_0000 <= x <= 0x7fff_ffff_ffff_ffff

  const MinInt64: Int64 := -0x8000_0000_0000_0000
  const MaxInt64: Int64 := 0x7fff_ffff_ffff_ffff

  /** max64 and min64 (ai/common.go:34-46). */
  function Max64(i: Int64, j: Int64): Int64 {
    if i < j then j else i
  }

  function Min64(i: Int64, j: Int64): Int64 {
    if i < j then i else j
  }

  /** The comparison minmaximizer is given: max64 from maximizer, min64 from minimizer. */
  datatype Direction = Maximize | Minimize

  function Cmp(dir: Direction, i: Int64, j: Int64): Int64 {
    if dir == Maximize then Max64(i, j) else Min64(i, j)
  }

  /** The starting extremum maximizer and minimizer pass: the identity of their comparison. */
  function Identity(dir: Direction): Int64 {
    if dir == Maximize then MinInt64 else MaxInt64
  }

  type Label = string

  /** minmaxAnalysis: the reason a candidate was ruled out ("" while it is not) and its scores. */
  datatype Analysis = Analysis(ruledOut: string, scores: map<Label, Int64>)

  /** brd.AnalyzedBoard<B> with its Analysis either absent or a minmaxAnalysis. */
  datatype AnalyzedBoard<B> = AnalyzedBoard(board: B, analysis: Option<Analysis>)

  /** Scores[label], with the zero Go gives for a missing key. */
  function ScoreOf(a: Analysis, l: Label): Int64 {
    if l in a.scores then a.scores[l] else 0
  }

  /** analyzedBoardIsRuledOut (ai/common.go:93-95). */
  predicate IsRuledOut<B>(c: AnalyzedBoard<B>) {
    c.analysis.Some? && c.analysis.value.ruledOut != ""
  }

  /** A criterion scores a board. The second argument is the candidate's position, so that a
      criterion with state (a random draw) is a plain function: see Value. */
  type Criterion<-B> = (B, nat) -> Int64

  // ---------------------------------------------------------------------------------------
  // Sequences of candidates

  function BoardsOf<B>(s: seq<AnalyzedBoard<B>>): seq<B> {
    seq(|s|, i requires 0 <= i < |s| => s[i].board)
  }

  lemma BoardsOfConcat<B>(a: seq<AnalyzedBoard<B>>, b: seq<AnalyzedBoard<B>>)
    ensures BoardsOf(a + b) == BoardsOf(a) + BoardsOf(b)
  {
  }

  /** Rearranging candidates rearranges their boards. */
  lemma {:induction false} BoardsPerm<B>(s: seq<AnalyzedBoard<B>>, t: seq<AnalyzedBoard<B>>)
    requires multiset(s) == multiset(t)
    ensures multiset(BoardsOf(s)) == multiset(BoardsOf(t))
    decreases |s|
  {
    if s != [] {
      var pre, last := s[..|s| - 1], s[|s| - 1];
      assert s == pre + [last];
      assert last in multiset(t);
      var k :| 0 <= k < |t| && t[k] == last;
      var a, b := t[..k], t[k + 1..];
      assert t == a + [last] + b;
      RemoveOne(multiset(pre), multiset(a), multiset(b), last);
      BoardsPerm(pre, a + b);
      BoardsOfConcat(pre, [last]);
      BoardsOfConcat(a, b);
      BoardsOfConcat(a + [last], b);
      BoardsOfConcat(a, [last]);
      assert BoardsOf([last]) == [last.board];
      MultisetMiddle(BoardsOf(pre), BoardsOf(a), BoardsOf(b), last.board);
    }
  }

  lemma RemoveOne<T>(m: multiset<T>, a: multiset<T>, b: multiset<T>, x: T)
    requires m + multiset{x} == a + multiset{x} + b
    ensures m == a + b
  {
    assert forall y :: m[y] == (a + b)[y] by {
      forall y ensures m[y] == (a + b)[y] {
        assert (m + multiset{x})[y] == (a + multiset{x} + b)[y];
      }
    }
  }

  lemma MultisetMiddle<T>(p: seq<T>, a: seq<T>, b: seq<T>, x: T)
    requires multiset(p) == multiset(a + b)
    ensures multiset(p + [x]) == multiset(a + [x] + b)
  {
  }

  lemma ConcatAssoc<T>(a: seq<T>, b: seq<T>, c: seq<T>)
    ensures a + b + c == a + (b + c)
  {
  }

  lemma SplitAt<T>(s: seq<T>, p: nat)
    requires p <= |s|
    ensures s == s[..p] + s[p..]
  {
  }

  /** The candidates of s that pass p, in order (the append loops of minmaximizer). */
  function Filter<B>(s: seq<AnalyzedBoard<B>>, p: AnalyzedBoard<B> -> bool): (r: seq<AnalyzedBoard<B>>)
    ensures |r| <= |s|
  {
    if s == [] then []
    else Filter(s[..|s| - 1], p) + (if p(s[|s| - 1]) then [s[|s| - 1]] else [])
  }

  /** Filter keeps exactly the candidates that pass. */
  lemma {:induction false} FilterMembers<B>(s: seq<AnalyzedBoard<B>>, p: AnalyzedBoard<B> -> bool)
    ensures forall x :: x in Filter(s, p) <==> x in s && p(x)
  {
    if s != [] {
      var pre, last := s[..|s| - 1], s[|s| - 1];
      FilterMembers(pre, p);
      assert s == pre + [last];
    }
  }

  /** Each candidate Filter keeps is one of s. */
  lemma FilterAt<B>(s: seq<AnalyzedBoard<B>>, p: AnalyzedBoard<B> -> bool, i: nat)
    requires i < |Filter(s, p)|
    ensures exists j :: 0 <= j < |s| && s[j] == Filter(s, p)[i]
  {
    FilterMembers(s, p);
    var x := Filter(s, p)[i];
    assert x in Filter(s, p);
  }

  lemma {:induction false} FilterConcat<B>(a: seq<AnalyzedBoard<B>>, b: seq<AnalyzedBoard<B>>, p: AnalyzedBoard<B> -> bool)
    ensures Filter(a + b, p) == Filter(a, p) + Filter(b, p)
    decreases |b|
  {
    if b != [] {
      assert (a + b)[..|a + b| - 1] == a + b[..|b| - 1];
      FilterConcat(a, b[..|b| - 1], p);
    } else {
      assert a + b == a;
    }
  }

  lemma {:induction false} FilterAll<B>(s: seq<AnalyzedBoard<B>>, p: AnalyzedBoard<B> -> bool)
    requires forall i :: 0 <= i < |s| ==> p(s[i])
    ensures Filter(s, p) == s
  {
    if s != [] {
      var pre := s[..|s| - 1];
      assert forall i :: 0 <= i < |pre| ==> pre[i] == s[i];
      FilterAll(pre, p);
      assert s == pre + [s[|s| - 1]];
    }
  }

  lemma {:induction false} FilterNone<B>(s: seq<AnalyzedBoard<B>>, p: AnalyzedBoard<B> -> bool)
    requires forall i :: 0 <= i < |s| ==> !p(s[i])
    ensures Filter(s, p) == []
  {
    if s != [] {
      var pre := s[..|s| - 1];
      assert forall i :: 0 <= i < |pre| ==> pre[i] == s[i];
      FilterNone(pre, p);
    }
  }

  lemma FilterSingleton<B>(x: AnalyzedBoard<B>, p: AnalyzedBoard<B> -> bool)
    ensures Filter([x], p) == if p(x) then [x] else []
  {
    assert [x][..0] == [];
  }

  /** Two tests that disagree on every candidate split the candidates between them. */
  lemma {:induction false} FilterSplit<B>(s: seq<AnalyzedBoard<B>>, p: AnalyzedBoard<B> -> bool, q: AnalyzedBoard<B> -> bool)
    requires forall i :: 0 <= i < |s| ==> p(s[i]) != q(s[i])
    ensures |Filter(s, p)| + |Filter(s, q)| == |s|
    ensures multiset(BoardsOf(Filter(s, p))) + multiset(BoardsOf(Filter(s, q))) == multiset(BoardsOf(s))
  {
    if s != [] {
      var pre, last := s[..|s| - 1], s[|s| - 1];
      assert s == pre + [last];
      FilterSplit(pre, p, q);
      if p(last) {
        FilterAppend(pre, last, p, q);
      } else {
        FilterAppend(pre, last, q, p);
      }
    }
  }

  /** The step of FilterSplit for a last candidate that passes p and fails q. */
  lemma FilterAppend<B>(pre: seq<AnalyzedBoard<B>>, last: AnalyzedBoard<B>, p: AnalyzedBoard<B> -> bool, q: AnalyzedBoard<B> -> bool)
    requires p(last) && !q(last)
    requires multiset(BoardsOf(Filter(pre, p))) + multiset(BoardsOf(Filter(pre, q))) == multiset(BoardsOf(pre))
    ensures Filter(pre + [last], p) == Filter(pre, p) + [last]
    ensures Filter(pre + [last], q) == Filter(pre, q)
    ensures multiset(BoardsOf(Filter(pre + [last], p))) + multiset(BoardsOf(Filter(pre + [last], q)))
         == multiset(BoardsOf(pre + [last]))
  {
    assert (pre + [last])[..|pre|] == pre;
    var lb := last.board;
    var bp, bq, b := BoardsOf(Filter(pre, p)), BoardsOf(Filter(pre, q)), BoardsOf(pre);
    BoardsOfConcat(pre, [last]);
    BoardsOfConcat(Filter(pre, p), [last]);
    assert BoardsOf([last]) == [lb];
    MultisetAppend(bp, bq, b, lb);
  }

  lemma MultisetAppend<T>(a: seq<T>, b: seq<T>, c: seq<T>, x: T)
    requires multiset(a) + multiset(b) == multiset(c)
    ensures multiset(a + [x]) + multiset(b) == multiset(c + [x])
  {
  }

  // ---------------------------------------------------------------------------------------
  // The stable sort of the losers (sort.SliceStable by ascending score)

  predicate SortedBy<B>(s: seq<AnalyzedBoard<B>>, key: AnalyzedBoard<B> -> Int64) {
    forall i, j :: 0 <= i < j < |s| ==> key(s[i]) <= key(s[j])
  }

  /** Inserts x after every element whose key is not larger. */
  function Insert<B>(s: seq<AnalyzedBoard<B>>, x: AnalyzedBoard<B>, key: AnalyzedBoard<B> -> Int64): (r: seq<AnalyzedBoard<B>>)
    ensures multiset(r) == multiset(s) + multiset{x}
  {
    if s == [] then [x]
    else
      var pre, last := s[..|s| - 1], s[|s| - 1];
      assert s == pre + [last];
      if key(last) <= key(x) then
        s + [x]
      else
        var r := Insert(pre, x, key);
        assert multiset(r + [last]) == multiset(r) + multiset{last};
        r + [last]
  }

  /** Insert keeps a sorted sequence sorted. */
  lemma {:induction false} InsertSorted<B>(s: seq<AnalyzedBoard<B>>, x: AnalyzedBoard<B>, key: AnalyzedBoard<B> -> Int64)
    requires SortedBy(s, key)
    ensures SortedBy(Insert(s, x, key), key)
  {
    if s != [] {
      var pre, last := s[..|s| - 1], s[|s| - 1];
      if key(last) <= key(x) {
        assert Insert(s, x, key) == s + [x];
        AppendSorted(s, x, key);
      } else {
        assert Insert(s, x, key) == Insert(pre, x, key) + [last];
        assert SortedBy(pre, key);
        InsertSorted(pre, x, key);
        forall y | y in multiset(pre) ensures key(y) <= key(last) {
          var k :| 0 <= k < |pre| && pre[k] == y;
          assert s[k] == y;
        }
        AppendSorted(Insert(pre, x, key), last, key);
      }
    }
  }

  /** A sorted sequence stays sorted when an element with a key no smaller than all of its
      elements' is appended. */
  lemma AppendSorted<B>(s: seq<AnalyzedBoard<B>>, x: AnalyzedBoard<B>, key: AnalyzedBoard<B> -> Int64)
    requires SortedBy(s, key)
    requires forall y | y in multiset(s) :: key(y) <= key(x)
    ensures SortedBy(s + [x], key)
  {
    var r := s + [x];
    forall i, j | 0 <= i < j < |r| ensures key(r[i]) <= key(r[j]) {
      if j == |s| {
        assert r[i] in multiset(s);
      }
    }
  }

  /** sort.SliceStable: insertion sort, each element placed after the equal keys before it. */
  function SortBy<B>(s: seq<AnalyzedBoard<B>>, key: AnalyzedBoard<B> -> Int64): (r: seq<AnalyzedBoard<B>>)
    ensures multiset(r) == multiset(s)
    ensures SortedBy(r, key)
    ensures |r| == |s|
  {
    if s == [] then []
    else
      var pre, last := s[..|s| - 1], s[|s| - 1];
      assert s == pre + [last];
      InsertSorted(SortBy(pre, key), last, key);
      var r := Insert(SortBy(pre, key), last, key);
      assert |r| == |multiset(r)|;
      r
  }

  /** The candidates whose key is v. */
  function KeyIs<B>(key: AnalyzedBoard<B> -> Int64, v: Int64): AnalyzedBoard<B> -> bool {
    (c: AnalyzedBoard<B>) => key(c) == v
  }

  lemma {:induction false} InsertStable<B>(s: seq<AnalyzedBoard<B>>, x: AnalyzedBoard<B>, key: AnalyzedBoard<B> -> Int64, v: Int64)
    ensures Filter(Insert(s, x, key), KeyIs(key, v)) == Filter(s, KeyIs(key, v)) + Filter([x], KeyIs(key, v))
  {
    if s != [] {
      var pre, last := s[..|s| - 1], s[|s| - 1];
      assert s == pre + [last];
      if key(last) <= key(x) {
        assert Insert(s, x, key) == s + [x];
        FilterConcat(s, [x], KeyIs(key, v));
      } else {
        assert Insert(s, x, key) == Insert(pre, x, key) + [last];
        InsertStable(pre, x, key, v);
        InsertStableStep(pre, last, x, key, v);
      }
    }
  }

  lemma InsertStableStep<B>(pre: seq<AnalyzedBoard<B>>, last: AnalyzedBoard<B>, x: AnalyzedBoard<B>, key: AnalyzedBoard<B> -> Int64, v: Int64)
    requires key(x) < key(last)
    requires Filter(Insert(pre, x, key), KeyIs(key, v)) == Filter(pre, KeyIs(key, v)) + Filter([x], KeyIs(key, v))
    ensures Filter(Insert(pre, x, key) + [last], KeyIs(key, v)) == Filter(pre + [last], KeyIs(key, v)) + Filter([x], KeyIs(key, v))
  {
    var p := KeyIs(key, v);
    FilterConcat(Insert(pre, x, key), [last], p);
    FilterConcat(pre, [last], p);
    FilterSingleton(x, p);
    FilterSingleton(last, p);
  }

  /** The sort is stable: the candidates with any one key keep their relative order. */
  lemma {:induction false} SortIsStable<B>(s: seq<AnalyzedBoard<B>>, key: AnalyzedBoard<B> -> Int64, v: Int64)
    ensures Filter(SortBy(s, key), KeyIs(key, v)) == Filter(s, KeyIs(key, v))
  {
    if s != [] {
      var pre, last := s[..|s| - 1], s[|s| - 1];
      assert s == pre + [last];
      assert SortBy(s, key) == Insert(SortBy(pre, key), last, key);
      SortIsStable(pre, key, v);
      SortStableStep(pre, last, SortBy(pre, key), key, v);
    }
  }

  lemma SortStableStep<B>(pre: seq<AnalyzedBoard<B>>, last: AnalyzedBoard<B>, sorted: seq<AnalyzedBoard<B>>, key: AnalyzedBoard<B> -> Int64, v: Int64)
    requires Filter(sorted, KeyIs(key, v)) == Filter(pre, KeyIs(key, v))
    ensures Filter(Insert(sorted, last, key), KeyIs(key, v)) == Filter(pre + [last], KeyIs(key, v))
  {
    InsertStable(sorted, last, key, v);
    FilterConcat(pre, [last], KeyIs(key, v));
  }

  // ---------------------------------------------------------------------------------------
  // minmaximizer as a value

  /** The number of candidates not ruled out. */
  function NumActive<B>(s: seq<AnalyzedBoard<B>>): (n: nat)
    ensures n <= |s|
  {
    if s == [] then 0 else NumActive(s[..|s| - 1]) + (if IsRuledOut(s[|s| - 1]) then 0 else 1)
  }

  /** The score the scoring loop gives candidate i: f applied to its board and its position.
      Go's criteria are functions of the board alone, except the randomizer's, which draws a
      fresh number per call; TidyCalls shows that over the lists the chains work on, position i
      of a candidate in play is also the number of calls made before it. */
  function Value<B>(cs: seq<AnalyzedBoard<B>>, i: nat, f: Criterion<B>): Int64
    requires i < |cs|
  {
    f(cs[i].board, i)
  }

  /** The analysis a scored candidate starts from: its own, or a fresh one. */
  function Prior<B>(c: AnalyzedBoard<B>): Analysis {
    if c.analysis.None? then Analysis("", map[]) else c.analysis.value
  }

  /** What the scoring loop does to one candidate given the value f returned for it. */
  function ScoreOne<B>(c: AnalyzedBoard<B>, name: Label, v: Int64): AnalyzedBoard<B> {
    if IsRuledOut(c) then c
    else c.(analysis := Some(Prior(c).(scores := Prior(c).scores[name := v])))
  }

  /** The scoring loop of minmaximizer (ai/common.go:107-120): every candidate not ruled out
      gets an analysis if it has none and records f's value under name; the others are left
      alone. */
  function Scored<B>(cs: seq<AnalyzedBoard<B>>, name: Label, f: Criterion<B>): seq<AnalyzedBoard<B>> {
    seq(|cs|, i requires 0 <= i < |cs| => ScoreOne(cs[i], name, Value(cs, i, f)))
  }

  /** The extremum the scoring loop finds (ai/common.go:107-111): init folded with the value
      of every candidate not ruled out. */
  function Extremum<B>(cs: seq<AnalyzedBoard<B>>, f: Criterion<B>, init: Int64, dir: Direction): Int64 {
    if cs == [] then init
    else
      var m := Extremum(cs[..|cs| - 1], f, init, dir);
      if IsRuledOut(cs[|cs| - 1]) then m else Cmp(dir, m, Value(cs, |cs| - 1, f))
  }

  /** The value of a candidate does not depend on the candidates after it. */
  lemma ValuePrefix<B>(cs: seq<AnalyzedBoard<B>>, n: nat, i: nat, f: Criterion<B>)
    requires i < n <= |cs|
    ensures Value(cs[..n], i, f) == Value(cs, i, f)
  {
  }

  /** The extremum bounds the value of every candidate in play, from above when maximizing and
      from below when minimizing. */
  lemma ExtremumBounds<B>(cs: seq<AnalyzedBoard<B>>, f: Criterion<B>, init: Int64, dir: Direction)
    ensures var e := Extremum(cs, f, init, dir);
      && (dir == Maximize ==> init <= e && forall i :: 0 <= i < |cs| && !IsRuledOut(cs[i]) ==> Value(cs, i, f) <= e)
      && (dir == Minimize ==> e <= init && forall i :: 0 <= i < |cs| && !IsRuledOut(cs[i]) ==> e <= Value(cs, i, f))
  {
    if dir == Maximize {
      ExtremumUpper(cs, f, init);
    } else {
      ExtremumLower(cs, f, init);
    }
  }

  lemma {:induction false} ExtremumUpper<B>(cs: seq<AnalyzedBoard<B>>, f: Criterion<B>, init: Int64)
    ensures var e := Extremum(cs, f, init, Maximize);
      init <= e && forall i :: 0 <= i < |cs| && !IsRuledOut(cs[i]) ==> Value(cs, i, f) <= e
  {
    if cs != [] {
      var n := |cs| - 1;
      var pre := cs[..n];
      ExtremumUpper(pre, f, init);
      forall i | 0 <= i < n ensures Value(pre, i, f) == Value(cs, i, f) && pre[i] == cs[i] {
        ValuePrefix(cs, n, i, f);
      }
    }
  }

  lemma {:induction false} ExtremumLower<B>(cs: seq<AnalyzedBoard<B>>, f: Criterion<B>, init: Int64)
    ensures var e := Extremum(cs, f, init, Minimize);
      e <= init && forall i :: 0 <= i < |cs| && !IsRuledOut(cs[i]) ==> e <= Value(cs, i, f)
  {
    if cs != [] {
      var n := |cs| - 1;
      var pre := cs[..n];
      ExtremumLower(pre, f, init);
      forall i | 0 <= i < n ensures Value(pre, i, f) == Value(cs, i, f) && pre[i] == cs[i] {
        ValuePrefix(cs, n, i, f);
      }
    }
  }

  /** The extremum is init or the value of a candidate in play. */
  lemma {:induction false} ExtremumChosen<B>(cs: seq<AnalyzedBoard<B>>, f: Criterion<B>, init: Int64, dir: Direction)
    ensures var e := Extremum(cs, f, init, dir);
      e == init || exists i :: 0 <= i < |cs| && !IsRuledOut(cs[i]) && Value(cs, i, f) == e
  {
    if cs != [] {
      var n := |cs| - 1;
      var pre := cs[..n];
      ExtremumChosen(pre, f, init, dir);
      var m := Extremum(pre, f, init, dir);
      if m != init && m == Extremum(cs, f, init, dir) {
        var i :| 0 <= i < n && !IsRuledOut(pre[i]) && Value(pre, i, f) == m;
        ValuePrefix(cs, n, i, f);
        assert pre[i] == cs[i];
      }
    }
  }

  /** With the identity as starting point, the extremum is some candidate's value as soon as
      one candidate is not ruled out. */
  lemma ExtremumAttained<B>(cs: seq<AnalyzedBoard<B>>, f: Criterion<B>, dir: Direction)
    requires exists i :: 0 <= i < |cs| && !IsRuledOut(cs[i])
    ensures exists i :: 0 <= i < |cs| && !IsRuledOut(cs[i]) && Value(cs, i, f) == Extremum(cs, f, Identity(dir), dir)
  {
    var e := Extremum(cs, f, Identity(dir), dir);
    ExtremumBounds(cs, f, Identity(dir), dir);
    ExtremumChosen(cs, f, Identity(dir), dir);
    var i :| 0 <= i < |cs| && !IsRuledOut(cs[i]);
    if e == Identity(dir) {
      assert Value(cs, i, f) == e;
    }
  }

  /** The result loop (ai/common.go:133-141) keeps a candidate with an analysis whose score
      under name is the extremum, whether or not it was ruled out earlier. */
  function Winner<B>(name: Label, ext: Int64): AnalyzedBoard<B> -> bool {
    (c: AnalyzedBoard<B>) => c.analysis.Some? && ScoreOf(c.analysis.value, name) == ext
  }

  /** The remainder loop (ai/common.go:142-155) takes the candidates not ruled out whose score
      differs from the extremum. */
  function Loser<B>(name: Label, ext: Int64): AnalyzedBoard<B> -> bool {
    (c: AnalyzedBoard<B>) => !IsRuledOut(c) && c.analysis.Some? && ScoreOf(c.analysis.value, name) != ext
  }

  /** "Ruled out by <label> (<score>)". */
  function RuledOutText(name: Label, v: Int64): (t: string)
    ensures t != ""
  {
    "Ruled out by " + name + " (" + Decimal.IntToString(v as int) + ")"
  }

  /** A loser's new analysis: the reason, its scores kept. */
  function Mark<B>(c: AnalyzedBoard<B>, name: Label): (m: AnalyzedBoard<B>)
    ensures m.board == c.board && IsRuledOut(m)
  {
    var a := Prior(c);
    c.(analysis := Some(a.(ruledOut := RuledOutText(name, ScoreOf(a, name)))))
  }

  function MarkAll<B>(s: seq<AnalyzedBoard<B>>, name: Label): seq<AnalyzedBoard<B>> {
    seq(|s|, i requires 0 <= i < |s| => Mark(s[i], name))
  }

  /** The sort key: the score under the label. */
  function ScoreKey<B>(name: Label): AnalyzedBoard<B> -> Int64 {
    (c: AnalyzedBoard<B>) => ScoreOf(Prior(c), name)
  }

  /** copy(dst, src): src over the front of dst. */
  function Copy<B>(dst: seq<AnalyzedBoard<B>>, src: seq<AnalyzedBoard<B>>): seq<AnalyzedBoard<B>>
    requires |src| <= |dst|
  {
    src + dst[|src|..]
  }

  /** The slice minmaximizer builds (ai/common.go:133-159): the winners in their order, then
      the losers, ruled out, by ascending score. */
  function Picked<B>(scored: seq<AnalyzedBoard<B>>, name: Label, ext: Int64): seq<AnalyzedBoard<B>> {
    Filter(scored, Winner(name, ext)) + SortBy(MarkAll(Filter(scored, Loser(name, ext)), name), ScoreKey(name))
  }

  /** No candidate is both a winner and a loser, so the built slice fits into choices. */
  lemma PickedFits<B>(scored: seq<AnalyzedBoard<B>>, name: Label, ext: Int64)
    ensures |Picked(scored, name, ext)| <= |scored|
  {
    var w := Winner(name, ext);
    var nw := (c: AnalyzedBoard<B>) => !w(c);
    FilterSplit(scored, w, nw);
    FilterWeaker(scored, Loser(name, ext), nw);
  }

  /** minmaximizer (ai/common.go:97-163) as a value: the built slice copied over the front of
      the scored candidates. */
  function Minmax<B>(cs: seq<AnalyzedBoard<B>>, name: Label, f: Criterion<B>, init: Int64, dir: Direction): (r: seq<AnalyzedBoard<B>>)
    ensures |r| == |cs|
  {
    var scored := Scored(cs, name, f);
    var ext := Extremum(cs, f, init, dir);
    PickedFits(scored, name, ext);
    Copy(scored, Picked(scored, name, ext))
  }

  lemma {:induction false} FilterWeaker<B>(s: seq<AnalyzedBoard<B>>, p: AnalyzedBoard<B> -> bool, q: AnalyzedBoard<B> -> bool)
    requires forall x :: x in s && p(x) ==> q(x)
    ensures |Filter(s, p)| <= |Filter(s, q)|
  {
    if s != [] {
      assert forall x :: x in s[..|s| - 1] ==> x in s;
      FilterWeaker(s[..|s| - 1], p, q);
      assert s[|s| - 1] in s;
    }
  }

  /** What the scoring loop leaves at index i: the same board; a ruled-out candidate untouched;
      any other one still in play, with f's value recorded under name. */
  lemma ScoredAt<B>(cs: seq<AnalyzedBoard<B>>, name: Label, f: Criterion<B>, i: nat)
    requires i < |cs|
    ensures var s := Scored(cs, name, f)[i];
      && s.board == cs[i].board
      && (IsRuledOut(cs[i]) ==> s == cs[i])
      && (!IsRuledOut(cs[i]) ==> !IsRuledOut(s) && s.analysis.Some? && ScoreOf(s.analysis.value, name) == Value(cs, i, f))
      && (!IsRuledOut(cs[i]) ==> s.analysis.value.scores == Prior(cs[i]).scores[name := Value(cs, i, f)])
  {
  }

  /** A winner of the scored list is in the built slice as it is; a loser is in it ruled out. */
  lemma InPicked<B>(scored: seq<AnalyzedBoard<B>>, name: Label, ext: Int64, c: AnalyzedBoard<B>)
    requires c in scored
    ensures Winner(name, ext)(c) ==> c in Picked(scored, name, ext)
    ensures Loser(name, ext)(c) ==> Mark(c, name) in Picked(scored, name, ext)
  {
    if Winner(name, ext)(c) {
      FilterMembers(scored, Winner(name, ext));
    }
    if Loser(name, ext)(c) {
      var losers := Filter(scored, Loser(name, ext));
      FilterMembers(scored, Loser(name, ext));
      var k :| 0 <= k < |losers| && losers[k] == c;
      var marked := MarkAll(losers, name);
      assert marked[k] == Mark(c, name);
      assert Mark(c, name) in multiset(SortBy(marked, ScoreKey(name)));
    }
  }

  /** What each candidate not ruled out becomes: at the extremum it stays in play, otherwise it
      is ruled out with the criterion's name and its score. Either way it is in the output. */
  lemma Verdicts<B>(cs: seq<AnalyzedBoard<B>>, name: Label, f: Criterion<B>, init: Int64, dir: Direction, i: nat)
    requires i < |cs| && !IsRuledOut(cs[i])
    ensures var s, ext, out := Scored(cs, name, f)[i], Extremum(cs, f, init, dir), Minmax(cs, name, f, init, dir);
      && (Value(cs, i, f) == ext ==> s in out && !IsRuledOut(s))
      && (Value(cs, i, f) != ext ==>
            Mark(s, name) in out && Mark(s, name).analysis.value.ruledOut == RuledOutText(name, Value(cs, i, f)))
  {
    var scored, ext := Scored(cs, name, f), Extremum(cs, f, init, dir);
    ScoredAt(cs, name, f, i);
    var s := scored[i];
    PickedFits(scored, name, ext);
    var picked := Picked(scored, name, ext);
    assert Minmax(cs, name, f, init, dir) == picked + scored[|picked|..];
    InPicked(scored, name, ext, s);
  }

  // ---------------------------------------------------------------------------------------
  // Rounds over tidy candidate lists

  /** No candidate in play comes after a ruled-out one: the shape every round leaves. */
  predicate Tidy<B>(s: seq<AnalyzedBoard<B>>) {
    forall i, j :: 0 <= i < j < |s| && IsRuledOut(s[i]) ==> IsRuledOut(s[j])
  }

  /** Every score recorded so far is under one of the given labels. */
  predicate KeysWithin<B>(s: seq<AnalyzedBoard<B>>, keys: set<Label>) {
    forall i :: 0 <= i < |s| && s[i].analysis.Some? ==> s[i].analysis.value.scores.Keys <= keys
  }

  lemma KeysWithinSuffix<B>(s: seq<AnalyzedBoard<B>>, keys: set<Label>, p: nat)
    requires p <= |s| && KeysWithin(s, keys)
    ensures KeysWithin(s[p..], keys)
  {
    forall i | 0 <= i < |s| - p ensures s[p..][i] == s[p + i] {
    }
  }

  predicate AllActive<B>(s: seq<AnalyzedBoard<B>>) {
    forall i :: 0 <= i < |s| ==> !IsRuledOut(s[i])
  }

  predicate AllRuledOut<B>(s: seq<AnalyzedBoard<B>>) {
    forall i :: 0 <= i < |s| ==> IsRuledOut(s[i])
  }

  /** Some candidate in play has board b. */
  ghost predicate ActiveBoard<B>(s: seq<AnalyzedBoard<B>>, b: B) {
    exists k :: 0 <= k < |s| && !IsRuledOut(s[k]) && s[k].board == b
  }

  lemma {:induction false} TidySplit<B>(s: seq<AnalyzedBoard<B>>)
    requires Tidy(s)
    ensures AllActive(s[..NumActive(s)]) && AllRuledOut(s[NumActive(s)..])
  {
    if s != [] {
      var pre := s[..|s| - 1];
      TidySplit(pre);
      if !IsRuledOut(s[|s| - 1]) {
        forall i | 0 <= i < |pre| ensures !IsRuledOut(s[i]) {
          assert Tidy(s);
        }
      }
    }
  }

  lemma TidyJoin<B>(w: seq<AnalyzedBoard<B>>, m: seq<AnalyzedBoard<B>>)
    requires AllActive(w) && AllRuledOut(m)
    ensures Tidy(w + m)
  {
  }

  /** In a tidy list with some candidate in play, the first one is in play. */
  lemma TidyFirst<B>(s: seq<AnalyzedBoard<B>>)
    requires Tidy(s) && exists i :: 0 <= i < |s| && !IsRuledOut(s[i])
    ensures !IsRuledOut(s[0])
  {
  }

  /** Over a tidy list the scoring loop scores the candidates in play, which come first, and
      leaves the ruled-out tail alone. */
  lemma ScoredTidy<B>(cs: seq<AnalyzedBoard<B>>, name: Label, f: Criterion<B>, keys: set<Label>)
    requires Tidy(cs) && KeysWithin(cs, keys)
    ensures var p, scored := NumActive(cs), Scored(cs, name, f);
      && scored[p..] == cs[p..]
      && AllActive(scored[..p])
      && (forall i :: 0 <= i < p ==> scored[i].analysis.Some? && ScoreOf(scored[i].analysis.value, name) == Value(cs, i, f))
      && BoardsOf(scored[..p]) == BoardsOf(cs[..p])
      && KeysWithin(scored[..p], keys + {name})
  {
    var p, scored := NumActive(cs), Scored(cs, name, f);
    TidySplit(cs);
    forall i | p <= i < |cs| ensures scored[i] == cs[i] {
      ScoredAt(cs, name, f, i);
      assert IsRuledOut(cs[p..][i - p]);
    }
    assert scored[p..] == cs[p..];
    forall i | 0 <= i < p
      ensures !IsRuledOut(scored[i]) && scored[i].analysis.Some?
      ensures ScoreOf(scored[i].analysis.value, name) == Value(cs, i, f)
      ensures scored[i].board == cs[i].board
      ensures scored[i].analysis.value.scores.Keys <= keys + {name}
    {
      ScoredAt(cs, name, f, i);
      assert !IsRuledOut(cs[..p][i]);
    }
    assert BoardsOf(scored[..p]) == BoardsOf(cs[..p]);
  }

  /** The ruled-out tail, with no score under name: all winners when the extremum is zero (the
      score Go reads for a missing key), none otherwise, and never losers. */
  lemma RestFilters<B>(rest: seq<AnalyzedBoard<B>>, name: Label, ext: Int64, keys: set<Label>)
    requires AllRuledOut(rest) && KeysWithin(rest, keys) && name !in keys
    ensures Filter(rest, Loser(name, ext)) == []
    ensures Filter(rest, Winner(name, ext)) == if ext == 0 then rest else []
  {
    FilterNone(rest, Loser(name, ext));
    if ext == 0 {
      FilterAll(rest, Winner(name, ext));
    } else {
      FilterNone(rest, Winner(name, ext));
    }
  }

  /** The candidates in play split into winners and losers. */
  lemma ActiveFilters<B>(a: seq<AnalyzedBoard<B>>, name: Label, ext: Int64)
    requires AllActive(a) && forall i :: 0 <= i < |a| ==> a[i].analysis.Some?
    ensures var w, l := Filter(a, Winner(name, ext)), Filter(a, Loser(name, ext));
      && |w| + |l| == |a|
      && multiset(BoardsOf(w)) + multiset(BoardsOf(l)) == multiset(BoardsOf(a))
  {
    FilterSplit(a, Winner(name, ext), Loser(name, ext));
  }

  /** Marking and sorting the losers keeps their boards. */
  lemma LosersBoards<B>(l: seq<AnalyzedBoard<B>>, name: Label)
    ensures multiset(BoardsOf(SortBy(MarkAll(l, name), ScoreKey(name)))) == multiset(BoardsOf(l))
  {
    assert BoardsOf(MarkAll(l, name)) == BoardsOf(l);
    BoardsPerm(SortBy(MarkAll(l, name), ScoreKey(name)), MarkAll(l, name));
  }

  /** The two filters over scored candidates whose first p are in play and whose tail is
      ruled out with no score under name. */
  lemma ScoredFilters<B>(scored: seq<AnalyzedBoard<B>>, p: nat, name: Label, ext: Int64, keys: set<Label>)
    requires p <= |scored| && AllRuledOut(scored[p..])
    requires KeysWithin(scored[p..], keys) && name !in keys
    ensures Filter(scored, Winner(name, ext)) == Filter(scored[..p], Winner(name, ext)) + (if ext == 0 then scored[p..] else [])
    ensures Filter(scored, Loser(name, ext)) == Filter(scored[..p], Loser(name, ext))
  {
    var a, rest := scored[..p], scored[p..];
    SplitAt(scored, p);
    FilterConcat(a, rest, Winner(name, ext));
    FilterConcat(a, rest, Loser(name, ext));
    RestFilters(rest, name, ext, keys);
    assert Filter(a, Loser(name, ext)) + [] == Filter(a, Loser(name, ext));
  }

  /** The built slice over scored candidates whose first p are in play, each with an analysis,
      and whose tail is ruled out with no score under name. */
  lemma PickedShape<B>(scored: seq<AnalyzedBoard<B>>, p: nat, name: Label, ext: Int64, keys: set<Label>)
    requires p <= |scored| && AllActive(scored[..p]) && AllRuledOut(scored[p..])
    requires forall i :: 0 <= i < p ==> scored[i].analysis.Some?
    requires KeysWithin(scored[p..], keys) && name !in keys
    ensures var w := Filter(scored[..p], Winner(name, ext));
      var l := SortBy(MarkAll(Filter(scored[..p], Loser(name, ext)), name), ScoreKey(name));
      && Picked(scored, name, ext) == (if ext == 0 then w + (scored[p..] + l) else w + l)
      && |w| + |l| == p
      && multiset(BoardsOf(w)) + multiset(BoardsOf(l)) == multiset(BoardsOf(scored[..p]))
  {
    var a := scored[..p];
    ScoredFilters(scored, p, name, ext, keys);
    ActiveFilters(a, name, ext);
    LosersBoards(Filter(a, Loser(name, ext)), name);
    var w := Filter(a, Winner(name, ext));
    var l := SortBy(MarkAll(Filter(a, Loser(name, ext)), name), ScoreKey(name));
    if ext == 0 {
      ConcatAssoc(w, scored[p..], l);
    } else {
      assert w + [] == w;
    }
  }

  /** The shape of one round over a tidy list whose label is new: the winners, then (at an
      extremum of zero, the score Go reads for a missing key) the earlier ruled-out candidates,
      then the sorted losers, and otherwise the earlier ruled-out candidates last. */
  lemma MinmaxShape<B>(cs: seq<AnalyzedBoard<B>>, name: Label, f: Criterion<B>, init: Int64, dir: Direction, keys: set<Label>)
    requires Tidy(cs) && KeysWithin(cs, keys) && name !in keys
    ensures var p, scored, ext := NumActive(cs), Scored(cs, name, f), Extremum(cs, f, init, dir);
      var w := Filter(scored[..p], Winner(name, ext));
      var l := SortBy(MarkAll(Filter(scored[..p], Loser(name, ext)), name), ScoreKey(name));
      && Minmax(cs, name, f, init, dir) == (if ext == 0 then w + (cs[p..] + l) else w + (l + cs[p..]))
      && multiset(BoardsOf(w)) + multiset(BoardsOf(l)) == multiset(BoardsOf(cs[..p]))
  {
    MinmaxOrder(cs, name, f, init, dir, keys);
    var p, scored, ext := NumActive(cs), Scored(cs, name, f), Extremum(cs, f, init, dir);
    TidySplit(cs);
    ScoredTidy(cs, name, f, keys);
    KeysWithinSuffix(cs, keys, p);
    PickedShape(scored, p, name, ext, keys);
  }

  /** The order part of MinmaxShape. */
  lemma MinmaxOrder<B>(cs: seq<AnalyzedBoard<B>>, name: Label, f: Criterion<B>, init: Int64, dir: Direction, keys: set<Label>)
    requires Tidy(cs) && KeysWithin(cs, keys) && name !in keys
    ensures var p, scored, ext := NumActive(cs), Scored(cs, name, f), Extremum(cs, f, init, dir);
      var w := Filter(scored[..p], Winner(name, ext));
      var l := SortBy(MarkAll(Filter(scored[..p], Loser(name, ext)), name), ScoreKey(name));
      Minmax(cs, name, f, init, dir) == (if ext == 0 then w + (cs[p..] + l) else w + (l + cs[p..]))
  {
    var p, scored, ext := NumActive(cs), Scored(cs, name, f), Extremum(cs, f, init, dir);
    TidySplit(cs);
    ScoredTidy(cs, name, f, keys);
    KeysWithinSuffix(cs, keys, p);
    PickedShape(scored, p, name, ext, keys);
    var picked := Picked(scored, name, ext);
    assert Minmax(cs, name, f, init, dir) == picked + scored[|picked|..];
    var w := Filter(scored[..p], Winner(name, ext));
    var l := SortBy(MarkAll(Filter(scored[..p], Loser(name, ext)), name), ScoreKey(name));
    if ext == 0 {
      assert scored[|picked|..] == [];
      assert picked + [] == picked;
    } else {
      ConcatAssoc(w, l, scored[p..]);
    }
  }

  /** The candidates in play after a round over a tidy list are winners that were in play. */
  lemma RoundActive<B>(cs: seq<AnalyzedBoard<B>>, name: Label, f: Criterion<B>, init: Int64, dir: Direction, keys: set<Label>, k: nat)
    requires Tidy(cs) && KeysWithin(cs, keys) && name !in keys
    requires k < |cs| && !IsRuledOut(Minmax(cs, name, f, init, dir)[k])
    ensures exists i :: 0 <= i < |cs| && !IsRuledOut(cs[i]) && cs[i].board == Minmax(cs, name, f, init, dir)[k].board
                         && Value(cs, i, f) == Extremum(cs, f, init, dir)
  {
    var p, scored, ext := NumActive(cs), Scored(cs, name, f), Extremum(cs, f, init, dir);
    MinmaxShape(cs, name, f, init, dir, keys);
    TidySplit(cs);
    var w := Filter(scored[..p], Winner(name, ext));
    var l := SortBy(MarkAll(Filter(scored[..p], Loser(name, ext)), name), ScoreKey(name));
    AllRuledOutTail(cs[p..], l, Filter(scored[..p], Loser(name, ext)), name);
    var tail := if ext == 0 then cs[p..] + l else l + cs[p..];
    ActiveInFront(w, tail, k);
    WinnerOrigin(cs, name, f, init, dir, keys, w[k]);
  }

  /** A candidate in play in a list whose tail is ruled out is in its front part. */
  lemma ActiveInFront<B>(w: seq<AnalyzedBoard<B>>, tail: seq<AnalyzedBoard<B>>, k: nat)
    requires AllRuledOut(tail) && k < |w + tail| && !IsRuledOut((w + tail)[k])
    ensures k < |w| && (w + tail)[k] == w[k]
  {
    forall j | |w| <= j < |w + tail| ensures IsRuledOut((w + tail)[j]) {
      assert (w + tail)[j] == tail[j - |w|];
    }
  }

  /** A winner of a round over a tidy list is the scored form of a candidate that was in play
      and scored the extremum. */
  lemma WinnerOrigin<B>(cs: seq<AnalyzedBoard<B>>, name: Label, f: Criterion<B>, init: Int64, dir: Direction, keys: set<Label>, c: AnalyzedBoard<B>)
    requires Tidy(cs) && KeysWithin(cs, keys)
    requires c in Filter(Scored(cs, name, f)[..NumActive(cs)], Winner(name, Extremum(cs, f, init, dir)))
    ensures exists i :: 0 <= i < |cs| && !IsRuledOut(cs[i]) && cs[i].board == c.board
                        && Value(cs, i, f) == Extremum(cs, f, init, dir)
  {
    var p, scored := NumActive(cs), Scored(cs, name, f);
    FilterMembers(scored[..p], Winner(name, Extremum(cs, f, init, dir)));
    TidySplit(cs);
    var i :| 0 <= i < p && scored[..p][i] == c;
    assert !IsRuledOut(cs[..p][i]);
    ScoredAt(cs, name, f, i);
  }

  /** What follows the winners is ruled out: the earlier ruled-out candidates and the marked
      losers. */
  lemma AllRuledOutTail<B>(rest: seq<AnalyzedBoard<B>>, l: seq<AnalyzedBoard<B>>, losers: seq<AnalyzedBoard<B>>, name: Label)
    requires AllRuledOut(rest) && l == SortBy(MarkAll(losers, name), ScoreKey(name))
    ensures AllRuledOut(l) && AllRuledOut(rest + l) && AllRuledOut(l + rest)
  {
    forall i | 0 <= i < |l| ensures IsRuledOut(l[i]) {
      assert l[i] in multiset(MarkAll(losers, name));
      var j :| 0 <= j < |losers| && MarkAll(losers, name)[j] == l[i];
    }
  }

  lemma ActiveFilter<B>(a: seq<AnalyzedBoard<B>>, p: AnalyzedBoard<B> -> bool)
    requires AllActive(a)
    ensures AllActive(Filter(a, p))
  {
    forall i | 0 <= i < |Filter(a, p)| ensures !IsRuledOut(Filter(a, p)[i]) {
      FilterAt(a, p, i);
    }
  }

  /** A round over a tidy list leaves it tidy: the winners, in play, before everything else. */
  lemma RoundTidy<B>(cs: seq<AnalyzedBoard<B>>, name: Label, f: Criterion<B>, init: Int64, dir: Direction, keys: set<Label>)
    requires Tidy(cs) && KeysWithin(cs, keys) && name !in keys
    ensures Tidy(Minmax(cs, name, f, init, dir))
  {
    var p, scored, ext := NumActive(cs), Scored(cs, name, f), Extremum(cs, f, init, dir);
    MinmaxShape(cs, name, f, init, dir, keys);
    TidySplit(cs);
    ScoredTidy(cs, name, f, keys);
    var w := Filter(scored[..p], Winner(name, ext));
    var l := SortBy(MarkAll(Filter(scored[..p], Loser(name, ext)), name), ScoreKey(name));
    AllRuledOutTail(cs[p..], l, Filter(scored[..p], Loser(name, ext)), name);
    ActiveFilter(scored[..p], Winner(name, ext));
    var tail := if ext == 0 then cs[p..] + l else l + cs[p..];
    assert AllRuledOut(tail);
    TidyJoin(w, tail);
  }

  /** A round rearranges the boards without losing or repeating any. */
  lemma RoundBoards<B>(cs: seq<AnalyzedBoard<B>>, name: Label, f: Criterion<B>, init: Int64, dir: Direction, keys: set<Label>)
    requires Tidy(cs) && KeysWithin(cs, keys) && name !in keys
    ensures multiset(BoardsOf(Minmax(cs, name, f, init, dir))) == multiset(BoardsOf(cs))
  {
    var p, scored, ext := NumActive(cs), Scored(cs, name, f), Extremum(cs, f, init, dir);
    MinmaxShape(cs, name, f, init, dir, keys);
    var w := Filter(scored[..p], Winner(name, ext));
    var l := SortBy(MarkAll(Filter(scored[..p], Loser(name, ext)), name), ScoreKey(name));
    var rest := cs[p..];
    SplitAt(cs, p);
    BoardsOfConcat(cs[..p], rest);
    JoinBoards(w, l, rest, ext == 0);
  }

  /** The boards of winners, losers and the rest, joined in either order. */
  lemma JoinBoards<B>(w: seq<AnalyzedBoard<B>>, l: seq<AnalyzedBoard<B>>, rest: seq<AnalyzedBoard<B>>, restFirst: bool)
    ensures multiset(BoardsOf(if restFirst then w + (rest + l) else w + (l + rest)))
         == multiset(BoardsOf(w)) + multiset(BoardsOf(l)) + multiset(BoardsOf(rest))
  {
    if restFirst {
      BoardsOfConcat(w, rest + l);
      BoardsOfConcat(rest, l);
    } else {
      BoardsOfConcat(w, l + rest);
      BoardsOfConcat(l, rest);
    }
  }

  lemma KeysFilter<B>(s: seq<AnalyzedBoard<B>>, p: AnalyzedBoard<B> -> bool, keys: set<Label>)
    requires KeysWithin(s, keys)
    ensures KeysWithin(Filter(s, p), keys)
  {
    forall i | 0 <= i < |Filter(s, p)| && Filter(s, p)[i].analysis.Some?
      ensures Filter(s, p)[i].analysis.value.scores.Keys <= keys
    {
      FilterAt(s, p, i);
    }
  }

  lemma KeysMarked<B>(losers: seq<AnalyzedBoard<B>>, name: Label, keys: set<Label>)
    requires KeysWithin(losers, keys)
    ensures KeysWithin(SortBy(MarkAll(losers, name), ScoreKey(name)), keys)
  {
    var m := MarkAll(losers, name);
    var l := SortBy(m, ScoreKey(name));
    forall i | 0 <= i < |l| && l[i].analysis.Some? ensures l[i].analysis.value.scores.Keys <= keys {
      assert l[i] in multiset(m);
      var j :| 0 <= j < |m| && m[j] == l[i];
    }
  }

  lemma KeysConcat<B>(a: seq<AnalyzedBoard<B>>, b: seq<AnalyzedBoard<B>>, keys: set<Label>)
    requires KeysWithin(a, keys) && KeysWithin(b, keys)
    ensures KeysWithin(a + b, keys)
  {
    forall i | 0 <= i < |a + b| && (a + b)[i].analysis.Some? ensures (a + b)[i].analysis.value.scores.Keys <= keys {
      if i >= |a| {
        assert (a + b)[i] == b[i - |a|];
      }
    }
  }

  /** A round records scores under its own label only. */
  lemma RoundKeys<B>(cs: seq<AnalyzedBoard<B>>, name: Label, f: Criterion<B>, init: Int64, dir: Direction, keys: set<Label>)
    requires Tidy(cs) && KeysWithin(cs, keys) && name !in keys
    ensures KeysWithin(Minmax(cs, name, f, init, dir), keys + {name})
  {
    var p, scored, ext := NumActive(cs), Scored(cs, name, f), Extremum(cs, f, init, dir);
    var k2 := keys + {name};
    MinmaxShape(cs, name, f, init, dir, keys);
    ScoredTidy(cs, name, f, keys);
    KeysWithinSuffix(cs, keys, p);
    var rest := cs[p..];
    assert KeysWithin(rest, k2);
    var w := Filter(scored[..p], Winner(name, ext));
    var losers := Filter(scored[..p], Loser(name, ext));
    var l := SortBy(MarkAll(losers, name), ScoreKey(name));
    KeysFilter(scored[..p], Winner(name, ext), k2);
    KeysFilter(scored[..p], Loser(name, ext), k2);
    KeysMarked(losers, name, k2);
    if ext == 0 {
      KeysConcat(rest, l, k2);
      KeysConcat(w, rest + l, k2);
    } else {
      KeysConcat(l, rest, k2);
      KeysConcat(w, l + rest, k2);
    }
  }

  /** A candidate in play that scores the extremum stays in play. */
  lemma RoundKeeps<B>(cs: seq<AnalyzedBoard<B>>, name: Label, f: Criterion<B>, init: Int64, dir: Direction, i: nat)
    requires i < |cs| && !IsRuledOut(cs[i]) && Value(cs, i, f) == Extremum(cs, f, init, dir)
    ensures ActiveBoard(Minmax(cs, name, f, init, dir), cs[i].board)
  {
    var out := Minmax(cs, name, f, init, dir);
    Verdicts(cs, name, f, init, dir, i);
    ScoredAt(cs, name, f, i);
    var s := Scored(cs, name, f)[i];
    var k :| 0 <= k < |out| && out[k] == s;
  }

  /** Some candidate is in play. */
  predicate AnyActive<B>(s: seq<AnalyzedBoard<B>>) {
    exists i :: 0 <= i < |s| && !IsRuledOut(s[i])
  }

  /** One round of a chain (maximizer or minimizer) over a tidy list with a new label: the list
      stays tidy, gains scores under that label only, keeps its boards, and the boards left in
      play are exactly those of the candidates in play that scored the extremum; so if any
      candidate was in play, the first one still is. */
  lemma Round<B>(cs: seq<AnalyzedBoard<B>>, name: Label, f: Criterion<B>, dir: Direction, keys: set<Label>)
    requires Tidy(cs) && KeysWithin(cs, keys) && name !in keys
    ensures var out, ext := Minmax(cs, name, f, Identity(dir), dir), Extremum(cs, f, Identity(dir), dir);
      && Tidy(out)
      && KeysWithin(out, keys + {name})
      && multiset(BoardsOf(out)) == multiset(BoardsOf(cs))
      && (forall b :: ActiveBoard(out, b) <==>
            exists i :: 0 <= i < |cs| && !IsRuledOut(cs[i]) && cs[i].board == b && Value(cs, i, f) == ext)
      && (AnyActive(cs) ==> !IsRuledOut(out[0]))
  {
    var init := Identity(dir);
    var out, ext := Minmax(cs, name, f, init, dir), Extremum(cs, f, init, dir);
    RoundTidy(cs, name, f, init, dir, keys);
    RoundKeys(cs, name, f, init, dir, keys);
    RoundBoards(cs, name, f, init, dir, keys);
    forall b | ActiveBoard(out, b)
      ensures exists i :: 0 <= i < |cs| && !IsRuledOut(cs[i]) && cs[i].board == b && Value(cs, i, f) == ext
    {
      var k :| 0 <= k < |out| && !IsRuledOut(out[k]) && out[k].board == b;
      RoundActive(cs, name, f, init, dir, keys, k);
    }
    forall b | exists i :: 0 <= i < |cs| && !IsRuledOut(cs[i]) && cs[i].board == b && Value(cs, i, f) == ext
      ensures ActiveBoard(out, b)
    {
      var i :| 0 <= i < |cs| && !IsRuledOut(cs[i]) && cs[i].board == b && Value(cs, i, f) == ext;
      RoundKeeps(cs, name, f, init, dir, i);
    }
    if AnyActive(cs) {
      ExtremumAttained(cs, f, dir);
      var i :| 0 <= i < |cs| && !IsRuledOut(cs[i]) && Value(cs, i, f) == ext;
      RoundKeeps(cs, name, f, init, dir, i);
      TidyFirst(out);
    }
  }

  lemma {:induction false} NumActiveAll<B>(s: seq<AnalyzedBoard<B>>)
    requires AllActive(s)
    ensures NumActive(s) == |s|
  {
    if s != [] {
      NumActiveAll(s[..|s| - 1]);
    }
  }

  /** In a tidy list the scoring loop calls the criterion for the candidate in play at position
      i after exactly i calls, so scoring by position is scoring by call count. */
  lemma TidyCalls<B>(cs: seq<AnalyzedBoard<B>>, i: nat)
    requires Tidy(cs) && i < |cs| && !IsRuledOut(cs[i])
    ensures NumActive(cs[..i]) == i
  {
    NumActiveAll(cs[..i]);
  }
}
