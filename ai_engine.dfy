/** The in-place passes of ai/common.go over a slice of analyzed boards: minmaximizer and its
    two faces, converter and shuffle. Each is proved to leave the array as the value model in
    module Selection says. */
module Engine {
  import opened Wrappers
  import opened Selection

  /** Marking a longer list of losers marks one more at the end. */
  lemma MarkAllSnoc<B>(s: seq<AnalyzedBoard<B>>, x: AnalyzedBoard<B>, name: Label)
    ensures MarkAll(s + [x], name) == MarkAll(s, name) + [Mark(x, name)]
  {
  }

  /** The scoring loop of minmaximizer (ai/common.go:107-120): the criterion is called on every
      candidate not ruled out, with its position, and its value recorded under the label. */
  method ScoreAll<B>(name: Label, choices: array<AnalyzedBoard<B>>, f: Criterion<B>, extremum: Int64, dir: Direction)
      returns (extremumFound: Int64)
    modifies choices
    ensures choices[..] == Scored(old(choices[..]), name, f)
    ensures extremumFound == Extremum(old(choices[..]), f, extremum, dir)
  {
    ghost var cs := choices[..];
    extremumFound := extremum;
    var i := 0;
    while i < choices.Length
      invariant 0 <= i <= choices.Length
      invariant forall j :: 0 <= j < i ==> choices[j] == ScoreOne(cs[j], name, Value(cs, j, f))
      invariant forall j :: i <= j < choices.Length ==> choices[j] == cs[j]
      invariant extremumFound == Extremum(cs[..i], f, extremum, dir)
    {
      var c := choices[i];
      if !IsRuledOut(c) {
        var v := f(c.board, i);
        extremumFound := Cmp(dir, extremumFound, v);
        var a := if c.analysis.None? then Analysis("", map[]) else c.analysis.value;
        choices[i] := c.(analysis := Some(a.(scores := a.scores[name := v])));
      }
      assert cs[..i + 1][..i] == cs[..i];
      i := i + 1;
    }
    assert cs[..choices.Length] == cs;
  }

  /** The result loop (ai/common.go:133-141): every candidate with an analysis scoring the
      extremum, in order. */
  method Winners<B>(name: Label, choices: array<AnalyzedBoard<B>>, extremumFound: Int64)
      returns (result: seq<AnalyzedBoard<B>>)
    ensures result == Filter(choices[..], Winner(name, extremumFound))
  {
    result := [];
    var i := 0;
    while i < choices.Length
      invariant 0 <= i <= choices.Length
      invariant result == Filter(choices[..i], Winner(name, extremumFound))
    {
      var c := choices[i];
      if c.analysis.Some? && ScoreOf(c.analysis.value, name) == extremumFound {
        result := result + [c];
      }
      assert choices[..i + 1][..i] == choices[..i];
      i := i + 1;
    }
    assert choices[..choices.Length] == choices[..];
  }

  /** The remainder loop (ai/common.go:142-155): every candidate in play scoring something
      else, ruled out, in order. Over a scored list every candidate in play has an analysis
      whose reason is still empty, so Go's type assertion and its "already ruled out" panic
      cannot fail; the requires says the list is scored. */
  method Losers<B>(name: Label, choices: array<AnalyzedBoard<B>>, extremumFound: Int64)
      returns (remainder: seq<AnalyzedBoard<B>>)
    requires forall j :: 0 <= j < choices.Length && !IsRuledOut(choices[j]) ==> choices[j].analysis.Some?
    ensures remainder == MarkAll(Filter(choices[..], Loser(name, extremumFound)), name)
  {
    remainder := [];
    var i := 0;
    while i < choices.Length
      invariant 0 <= i <= choices.Length
      invariant remainder == MarkAll(Filter(choices[..i], Loser(name, extremumFound)), name)
    {
      var c := choices[i];
      assert choices[..i + 1][..i] == choices[..i];
      if !IsRuledOut(c) {
        var a := c.analysis.value;
        if ScoreOf(a, name) != extremumFound {
          a := a.(ruledOut := RuledOutText(name, ScoreOf(a, name)));
          MarkAllSnoc(Filter(choices[..i], Loser(name, extremumFound)), c, name);
          remainder := remainder + [c.(analysis := Some(a))];
        }
      }
      i := i + 1;
    }
    assert choices[..choices.Length] == choices[..];
  }

  /** copy(choices, result) (ai/common.go:162). */
  method CopyInto<B>(choices: array<AnalyzedBoard<B>>, result: seq<AnalyzedBoard<B>>)
    requires |result| <= choices.Length
    modifies choices
    ensures choices[..] == Copy(old(choices[..]), result)
  {
    ghost var before := choices[..];
    var i := 0;
    while i < |result|
      invariant 0 <= i <= |result|
      invariant forall j :: 0 <= j < i ==> choices[j] == result[j]
      invariant forall j :: i <= j < choices.Length ==> choices[j] == before[j]
    {
      choices[i] := result[i];
      i := i + 1;
    }
  }

  /** minmaximizer (ai/common.go:97-163): the array ends up as Minmax says. */
  method Minmaximizer<B>(name: Label, choices: array<AnalyzedBoard<B>>, f: Criterion<B>, extremum: Int64, dir: Direction)
    modifies choices
    ensures choices[..] == Minmax(old(choices[..]), name, f, extremum, dir)
  {
    ghost var cs := choices[..];
    var extremumFound := ScoreAll(name, choices, f, extremum, dir);
    ghost var scored := choices[..];
    forall j | 0 <= j < choices.Length && !IsRuledOut(choices[j])
      ensures choices[j].analysis.Some?
    {
      ScoredAt(cs, name, f, j);
    }
    var result := Winners(name, choices, extremumFound);
    var remainder := Losers(name, choices, extremumFound);
    remainder := SortBy(remainder, ScoreKey(name));
    result := result + remainder;
    PickedFits(scored, name, extremumFound);
    CopyInto(choices, result);
  }

  /** maximizer (ai/common.go:56-58): minmaximizer with the smallest int64 and max64. */
  method Maximizer<B>(name: Label, choices: array<AnalyzedBoard<B>>, f: Criterion<B>)
    modifies choices
    ensures choices[..] == Minmax(old(choices[..]), name, f, Identity(Maximize), Maximize)
  {
    Minmaximizer(name, choices, f, MinInt64, Maximize);
  }

  /** minimizer (ai/common.go:60-62): minmaximizer with the largest int64 and min64. */
  method Minimizer<B>(name: Label, choices: array<AnalyzedBoard<B>>, f: Criterion<B>)
    modifies choices
    ensures choices[..] == Minmax(old(choices[..]), name, f, Identity(Minimize), Minimize)
  {
    Minmaximizer(name, choices, f, MaxInt64, Minimize);
  }

  /** The list converter builds: each board, in order, with no analysis yet; so it is where
      every chain starts, all candidates in play and no scores recorded. */
  function Converted<B>(bs: seq<B>): (r: seq<AnalyzedBoard<B>>)
    ensures BoardsOf(r) == bs
    ensures forall i :: 0 <= i < |r| ==> r[i].analysis.None?
    ensures Tidy(r) && AllActive(r) && KeysWithin(r, {})
  {
    seq(|bs|, i requires 0 <= i < |bs| => AnalyzedBoard(bs[i], None))
  }

  /** converter (ai/common.go:48-54). */
  method Converter<B>(choices: seq<B>) returns (result: array<AnalyzedBoard<B>>)
    ensures fresh(result) && result[..] == Converted(choices)
  {
    result := new AnalyzedBoard<B>[|choices|](i requires 0 <= i < |choices| => AnalyzedBoard(choices[i], None));
  }

  /** The label of shuffle's round. */
  const Randomizer: Label := "randomizer"

  /** The randomizer's criterion: the candidate scored n-th gets the n-th draw. */
  function DrawCriterion<B>(draws: nat -> Int64): Criterion<B> {
    (b: B, n: nat) => draws(n)
  }

  /** shuffle (ai/common.go:22-27): with two or more candidates, a maximizer round scoring each
      by a fresh draw (rand.Int63 in Go; the draws are a parameter here). */
  method Shuffle<B>(choices: array<AnalyzedBoard<B>>, draws: nat -> Int64)
    modifies choices
    ensures choices.Length > 1 ==>
      choices[..] == Minmax(old(choices[..]), Randomizer, DrawCriterion(draws), Identity(Maximize), Maximize)
    ensures choices.Length <= 1 ==> choices[..] == old(choices[..])
  {
    if choices.Length > 1 {
      Maximizer(Randomizer, choices, DrawCriterion(draws));
    }
  }
}
