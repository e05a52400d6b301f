/** Chains of rounds over the selection engine, as PlayerRacer builds one (ai/racer.go:20-59):
    each round leaves in play only the candidates at its extremum, so a chain of criteria
    selects lexicographically. */
module Chains {
  import opened Selection

  /** A criterion that reads only the board, as every Go criterion except the randomizer's. */
  function Lift<B>(g: B -> Int64): Criterion<B> {
    (b: B, n: nat) => g(b)
  }

  /** One round with a criterion of the board alone: the boards left in play are those in play
      before that score the extremum, and the extremum bounds every board that was in play. */
  lemma BoardRound<B>(cs: seq<AnalyzedBoard<B>>, name: Label, g: B -> Int64, dir: Direction, keys: set<Label>)
    requires Tidy(cs) && KeysWithin(cs, keys) && name !in keys
    ensures var out, ext := Minmax(cs, name, Lift(g), Identity(dir), dir), Extremum(cs, Lift(g), Identity(dir), dir);
      && Tidy(out)
      && KeysWithin(out, keys + {name})
      && multiset(BoardsOf(out)) == multiset(BoardsOf(cs))
      && (forall b :: ActiveBoard(out, b) <==> ActiveBoard(cs, b) && g(b) == ext)
      && (forall b :: ActiveBoard(cs, b) ==> if dir == Maximize then g(b) <= ext else ext <= g(b))
      && (AnyActive(cs) ==> !IsRuledOut(out[0]))
  {
    var f := Lift(g);
    Round(cs, name, f, dir, keys);
    ExtremumBounds(cs, f, Identity(dir), dir);
    assert forall i :: 0 <= i < |cs| ==> Value(cs, i, f) == g(cs[i].board);
  }

  /** One round of a chain: maximizer or minimizer with a label and a criterion. */
  datatype Step<!B> = Step(name: Label, g: B -> Int64, dir: Direction)

  /** The rounds run one after the other over the same list. */
  function Chain<B>(cs: seq<AnalyzedBoard<B>>, steps: seq<Step<B>>): (r: seq<AnalyzedBoard<B>>)
    ensures |r| == |cs|
    decreases |steps|
  {
    if steps == [] then cs
    else Chain(Minmax(cs, steps[0].name, Lift(steps[0].g), Identity(steps[0].dir), steps[0].dir), steps[1..])
  }

  /** Running a first step, then the rest. */
  lemma ChainStep<B>(cs: seq<AnalyzedBoard<B>>, s: Step<B>, rest: seq<Step<B>>, next: seq<AnalyzedBoard<B>>, out: seq<AnalyzedBoard<B>>)
    requires next == Minmax(cs, s.name, Lift(s.g), Identity(s.dir), s.dir)
    requires Chain(next, rest) == out
    ensures Chain(cs, [s] + rest) == out
  {
    assert ([s] + rest)[1..] == rest;
  }

  /** The labels and the freshness of a chain that starts with s. */
  lemma StepsCons<B>(s: Step<B>, rest: seq<Step<B>>, keys: set<Label>)
    ensures Names([s] + rest) == {s.name} + Names(rest)
    ensures Fresh([s] + rest, keys) <==> s.name !in keys && Fresh(rest, keys + {s.name})
  {
    assert ([s] + rest)[1..] == rest;
  }

  function Names<B>(steps: seq<Step<B>>): set<Label>
    decreases |steps|
  {
    if steps == [] then {} else {steps[0].name} + Names(steps[1..])
  }

  /** Every round has a label of its own, not among those already recorded. */
  predicate Fresh<B>(steps: seq<Step<B>>, keys: set<Label>)
    decreases |steps|
  {
    steps == [] || (steps[0].name !in keys && Fresh(steps[1..], keys + {steps[0].name}))
  }

  /** b0 is at least as good as b under the steps in order: better at the first step where
      their scores differ, or tied at every step. */
  predicate AtLeastAsGood<B>(steps: seq<Step<B>>, b0: B, b: B)
    decreases |steps|
  {
    if steps == [] then true
    else if steps[0].g(b0) == steps[0].g(b) then AtLeastAsGood(steps[1..], b0, b)
    else if steps[0].dir == Maximize then steps[0].g(b) < steps[0].g(b0)
    else steps[0].g(b0) < steps[0].g(b)
  }

  /** A chain keeps a tidy list of the same boards and records only its own labels. */
  lemma {:induction false} ChainKeeps<B>(cs: seq<AnalyzedBoard<B>>, steps: seq<Step<B>>, keys: set<Label>)
    requires Tidy(cs) && KeysWithin(cs, keys) && Fresh(steps, keys)
    ensures var out := Chain(cs, steps);
      && Tidy(out)
      && KeysWithin(out, keys + Names(steps))
      && |out| == |cs|
      && multiset(BoardsOf(out)) == multiset(BoardsOf(cs))
    decreases |steps|
  {
    if steps != [] {
      var s := steps[0];
      var m := Minmax(cs, s.name, Lift(s.g), Identity(s.dir), s.dir);
      BoardRound(cs, s.name, s.g, s.dir, keys);
      ChainKeeps(m, steps[1..], keys + {s.name});
      assert keys + {s.name} + Names(steps[1..]) == keys + Names(steps);
    }
  }

  /** If any candidate was in play, the first one after a chain is. */
  lemma {:induction false} ChainFirst<B>(cs: seq<AnalyzedBoard<B>>, steps: seq<Step<B>>, keys: set<Label>)
    requires Tidy(cs) && KeysWithin(cs, keys) && Fresh(steps, keys) && AnyActive(cs)
    ensures |Chain(cs, steps)| == |cs|
    ensures !IsRuledOut(Chain(cs, steps)[0])
    decreases |steps|
  {
    ChainKeeps(cs, steps, keys);
    if steps != [] {
      var s := steps[0];
      var m := Minmax(cs, s.name, Lift(s.g), Identity(s.dir), s.dir);
      BoardRound(cs, s.name, s.g, s.dir, keys);
      assert AnyActive(m) by { assert !IsRuledOut(m[0]); }
      ChainFirst(m, steps[1..], keys + {s.name});
    } else {
      TidyFirst(cs);
    }
  }

  /** After a round over a list with a candidate in play, the first candidate is in play and
      was in play before the round. */
  lemma RoundFirst<B>(cs: seq<AnalyzedBoard<B>>, name: Label, f: Criterion<B>, dir: Direction, keys: set<Label>)
    requires Tidy(cs) && KeysWithin(cs, keys) && name !in keys && AnyActive(cs)
    ensures var out := Minmax(cs, name, f, Identity(dir), dir);
      && |out| == |cs|
      && !IsRuledOut(out[0])
      && ActiveBoard(cs, out[0].board)
  {
    Round(cs, name, f, dir, keys);
    RoundActive(cs, name, f, Identity(dir), dir, keys, 0);
  }

  /** A chain selects lexicographically: the boards it leaves in play are exactly those that
      were in play before and are at least as good, under its steps in order, as every board
      that was in play. */
  lemma {:induction false} ChainSelects<B>(cs: seq<AnalyzedBoard<B>>, steps: seq<Step<B>>, keys: set<Label>)
    requires Tidy(cs) && KeysWithin(cs, keys) && Fresh(steps, keys)
    ensures forall b :: ActiveBoard(Chain(cs, steps), b) ==> ActiveBoard(cs, b)
    ensures forall b, b' :: ActiveBoard(Chain(cs, steps), b) && ActiveBoard(cs, b') ==> AtLeastAsGood(steps, b, b')
    ensures forall b :: ActiveBoard(cs, b) && (forall b' :: ActiveBoard(cs, b') ==> AtLeastAsGood(steps, b, b')) ==>
      ActiveBoard(Chain(cs, steps), b)
    decreases |steps|
  {
    if steps != [] {
      var s := steps[0];
      var m := Minmax(cs, s.name, Lift(s.g), Identity(s.dir), s.dir);
      var out := Chain(cs, steps);
      assert out == Chain(m, steps[1..]);
      BoardRound(cs, s.name, s.g, s.dir, keys);
      ChainSelects(m, steps[1..], keys + {s.name});
      forall b, b' | ActiveBoard(out, b) && ActiveBoard(cs, b')
        ensures AtLeastAsGood(steps, b, b')
      {
        if s.g(b) == s.g(b') {
          assert ActiveBoard(m, b');
        }
      }
      forall b | ActiveBoard(cs, b) && forall b' :: ActiveBoard(cs, b') ==> AtLeastAsGood(steps, b, b')
        ensures ActiveBoard(out, b)
      {
        BestSurvivesStep(cs, steps, keys, b);
      }
    }
  }

  /** A best board scores the first step's extremum, so it stays in play and is still best
      under the remaining steps. */
  lemma BestSurvivesStep<B>(cs: seq<AnalyzedBoard<B>>, steps: seq<Step<B>>, keys: set<Label>, b: B)
    requires Tidy(cs) && KeysWithin(cs, keys) && Fresh(steps, keys) && steps != []
    requires ActiveBoard(cs, b) && forall b' :: ActiveBoard(cs, b') ==> AtLeastAsGood(steps, b, b')
    ensures var s := steps[0];
      var m := Minmax(cs, s.name, Lift(s.g), Identity(s.dir), s.dir);
      ActiveBoard(m, b) && forall b' :: ActiveBoard(m, b') ==> AtLeastAsGood(steps[1..], b, b')
  {
    var s := steps[0];
    var m := Minmax(cs, s.name, Lift(s.g), Identity(s.dir), s.dir);
    var ext := Extremum(cs, Lift(s.g), Identity(s.dir), s.dir);
    BoardRound(cs, s.name, s.g, s.dir, keys);
    assert AnyActive(cs);
    var top := m[0].board;
    assert ActiveBoard(m, top);
    assert s.g(b) == ext by {
      assert AtLeastAsGood(steps, b, top);
    }
    forall b' | ActiveBoard(m, b')
      ensures AtLeastAsGood(steps[1..], b, b')
    {
      assert AtLeastAsGood(steps, b, b');
    }
  }
}
