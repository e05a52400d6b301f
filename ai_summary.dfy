/** The human-readable side of an analysis: scoreMap.String and minmaxAnalysis.Summary
    (ai/common.go:73-91). */
module Summaries {
  import opened Selection
  import Decimal

  /** Go's < on strings: lexicographic order. Go compares the UTF-8 bytes, and UTF-8 orders
      byte strings as their code points, so comparing characters gives the same order. */
  predicate Below(a: string, b: string) {
    b != [] && (a == [] || a[0] < b[0] || (a[0] == b[0] && Below(a[1..], b[1..])))
  }

  lemma {:induction false} BelowIrreflexive(a: string)
    ensures !Below(a, a)
  {
    if a != [] {
      BelowIrreflexive(a[1..]);
    }
  }

  lemma {:induction false} BelowTransitive(a: string, b: string, c: string)
    requires Below(a, b) && Below(b, c)
    ensures Below(a, c)
  {
    if a != [] && a[0] == b[0] && b[0] == c[0] {
      BelowTransitive(a[1..], b[1..], c[1..]);
    }
  }

  lemma {:induction false} BelowTotal(a: string, b: string)
    ensures a == b || Below(a, b) || Below(b, a)
  {
    if a != [] && b != [] && a[0] == b[0] {
      BelowTotal(a[1..], b[1..]);
      if a[1..] == b[1..] {
        assert a == [a[0]] + a[1..] && b == [b[0]] + b[1..];
      }
    }
  }

  lemma BelowAsymmetric(a: string, b: string)
    requires Below(a, b)
    ensures !Below(b, a)
  {
    if Below(b, a) {
      BelowTransitive(a, b, a);
      BelowIrreflexive(a);
    }
  }

  /** Labels in strictly ascending order, as sort.Slice leaves distinct map keys. */
  predicate Ascending(ks: seq<Label>) {
    forall i, j :: 0 <= i < j < |ks| ==> Below(ks[i], ks[j])
  }

  predicate Distinct(ks: seq<Label>) {
    forall i, j :: 0 <= i < j < |ks| ==> ks[i] != ks[j]
  }

  /** The labels listed are exactly the keys of the map. */
  ghost predicate SameKeys(ks: seq<Label>, s: map<Label, Int64>) {
    forall k :: k in ks <==> k in s
  }

  /** Inserting a new label into an ascending list. */
  function InsertLabel(ks: seq<Label>, k: Label): (r: seq<Label>)
    requires Ascending(ks) && k !in ks
    ensures Ascending(r) && |r| == |ks| + 1
    ensures forall x :: x in r <==> x in ks || x == k
  {
    if ks == [] then [k]
    else if Below(k, ks[0]) then
      assert forall j :: 0 < j < |ks| ==> Below(k, ks[j]) by {
        forall j | 0 < j < |ks| ensures Below(k, ks[j]) {
          BelowTransitive(k, ks[0], ks[j]);
        }
      }
      [k] + ks
    else
      var rest := InsertLabel(ks[1..], k);
      assert Below(ks[0], k) by {
        BelowTotal(ks[0], k);
      }
      assert forall x :: x in ks[1..] ==> x in ks;
      assert forall j :: 0 <= j < |rest| ==> Below(ks[0], rest[j]) by {
        forall j | 0 <= j < |rest| ensures Below(ks[0], rest[j]) {
          var x := rest[j];
          if x != k {
            assert x in ks[1..];
            var m :| 0 <= m < |ks[1..]| && ks[1..][m] == x;
            assert ks[m + 1] == x;
          }
        }
      }
      [ks[0]] + rest
  }

  /** The sort of the collected keys (sort.Slice with keys[i] < keys[j]). */
  function SortLabels(ks: seq<Label>): (r: seq<Label>)
    requires Distinct(ks)
    ensures Ascending(r) && |r| == |ks|
    ensures forall x :: x in r <==> x in ks
  {
    if ks == [] then []
    else
      assert Distinct(ks[..|ks| - 1]);
      assert forall x :: x in ks[..|ks| - 1] ==> x in ks;
      assert ks == ks[..|ks| - 1] + [ks[|ks| - 1]];
      InsertLabel(SortLabels(ks[..|ks| - 1]), ks[|ks| - 1])
  }

  /** An ascending list is fixed by its labels: the text of a score map does not depend on the
      order in which Go's map iteration happened to yield the keys. */
  lemma {:induction false} AscendingUnique(a: seq<Label>, b: seq<Label>)
    requires Ascending(a) && Ascending(b)
    requires forall x :: x in a <==> x in b
    ensures a == b
    decreases |a|
  {
    assert (a != [] ==> a[0] in b) && (b != [] ==> b[0] in a);
    if a != [] && b != [] {
      if a[0] != b[0] {
        assert a[0] in b;
        var j :| 0 <= j < |b| && b[j] == a[0];
        assert b[0] in a;
        var i :| 0 <= i < |a| && a[i] == b[0];
        BelowAsymmetric(a[0], b[0]);
        assert false;
      }
      forall x
        ensures x in a[1..] <==> x in b[1..]
      {
        if x in a[1..] {
          var i :| 0 <= i < |a[1..]| && a[1..][i] == x;
          assert Below(a[0], a[i + 1]);
          BelowIrreflexive(x);
          assert x in b;
          var j :| 0 <= j < |b| && b[j] == x;
          if j == 0 {
            assert false;
          }
          assert b[1..][j - 1] == x;
        }
        if x in b[1..] {
          var j :| 0 <= j < |b[1..]| && b[1..][j] == x;
          assert Below(b[0], b[j + 1]);
          BelowIrreflexive(x);
          assert x in a;
          var i :| 0 <= i < |a| && a[i] == x;
          if i == 0 {
            assert false;
          }
          assert a[1..][i - 1] == x;
        }
      }
      AscendingUnique(a[1..], b[1..]);
      assert a == [a[0]] + a[1..] && b == [b[0]] + b[1..];
    }
  }

  /** One entry as fmt.Sprintf("%v=%v", k, s[k]) prints it. */
  function Part(s: map<Label, Int64>, k: Label): string
    requires k in s
  {
    k + "=" + Decimal.IntToString(s[k] as int)
  }

  /** strings.Join. */
  function Join(parts: seq<string>, sep: string): string {
    if parts == [] then ""
    else if |parts| == 1 then parts[0]
    else parts[0] + sep + Join(parts[1..], sep)
  }

  /** The text of a score map listed in the order ks. */
  function Rendering(s: map<Label, Int64>, ks: seq<Label>): string
    requires forall i :: 0 <= i < |ks| ==> ks[i] in s
  {
    Join(seq(|ks|, i requires 0 <= i < |ks| => Part(s, ks[i])), " ")
  }

  /** text lists the label=value pairs of s sorted by label and separated by spaces. */
  ghost predicate Lists(text: string, s: map<Label, Int64>) {
    exists ks :: Ascending(ks) && SameKeys(ks, s) && text == Rendering(s, ks)
  }

  /** The text of a score map is determined by the map. */
  lemma ListsUnique(t1: string, t2: string, s: map<Label, Int64>)
    requires Lists(t1, s) && Lists(t2, s)
    ensures t1 == t2
  {
    var k1 :| Ascending(k1) && SameKeys(k1, s) && t1 == Rendering(s, k1);
    var k2 :| Ascending(k2) && SameKeys(k2, s) && t2 == Rendering(s, k2);
    AscendingUnique(k1, k2);
  }

  /** The key-collecting loop of scoreMap.String (ai/common.go:74-77). The keys come out of the
      map in an order Go leaves unspecified; `:|` picks them in any order. */
  method MapKeys(s: map<Label, Int64>) returns (keys: seq<Label>)
    ensures Distinct(keys) && SameKeys(keys, s)
  {
    keys := [];
    var rest := s.Keys;
    while rest != {}
      invariant rest <= s.Keys && Distinct(keys)
      invariant forall k :: k in keys <==> k in s && k !in rest
      decreases |rest|
    {
      var k :| k in rest;
      keys := keys + [k];
      rest := rest - {k};
    }
  }

  /** The formatting loop of scoreMap.String (ai/common.go:79-82): one part per key, in order. */
  method Parts(s: map<Label, Int64>, keys: seq<Label>) returns (parts: seq<string>)
    requires forall i :: 0 <= i < |keys| ==> keys[i] in s
    ensures parts == seq(|keys|, i requires 0 <= i < |keys| => Part(s, keys[i]))
  {
    parts := [];
    for i := 0 to |keys|
      invariant |parts| == i
      invariant forall j :: 0 <= j < i ==> parts[j] == Part(s, keys[j])
    {
      parts := parts + [Part(s, keys[i])];
    }
  }

  /** scoreMap.String (ai/common.go:73-84). */
  method ScoresText(s: map<Label, Int64>) returns (text: string)
    ensures Lists(text, s)
  {
    var keys := MapKeys(s);
    keys := SortLabels(keys);
    var parts := Parts(s, keys);
    text := Join(parts, " ");
  }

  const Intro := "wasn't ruled out by heuristics. Details: "

  /** minmaxAnalysis.Summary (ai/common.go:86-91): the reason when there is one, else the
      scores. */
  method Summary(m: Analysis) returns (text: string)
    ensures m.ruledOut != "" ==> text == m.ruledOut
    ensures m.ruledOut == "" ==> exists t :: Lists(t, m.scores) && text == Intro + t
  {
    if m.ruledOut == "" {
      var t := ScoresText(m.scores);
      return Intro + t;
    }
    return m.ruledOut;
  }
}
