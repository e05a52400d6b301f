/** The compact field codecs of json/json.go: the text of a point, of a roll, of the stakes and
    of the match score, and the field-by-field reading of a compact board back into a Board.
    The JSON marshalling around them is not part of this model. */
module Codec {
  import opened Wrappers
  import opened Points
  import Rolls
  import Scores
  import Boards
  import Decimal

  /** The errors of the codecs; the message text is not modelled. */
  datatype CodecError =
    | BadPointColour(point: string)
    | BadPoint(point: string)
    | TooManyDice(roll: string)
    | BadRoll(roll: string)
    | IllegalLog2(n: int)
    | BadStakes(cause: CodecError)
    | BadRoller(roller: string)
    | BadRollUsed(cause: CodecError)
    | BadRollText(cause: CodecError)
    | InvalidBoard

  // ---------------------------------------------------------------------------------------
  // Points

  /** The highest occupied slot, or -1 when the point is empty. */
  function Highest(s: seq<Checker>): (k: int)
    ensures -1 <= k < |s|
    ensures k >= 0 ==> s[k] != NoChecker
    ensures forall j :: k < j < |s| ==> s[j] == NoChecker
  {
    if s == [] then -1
    else if s[|s| - 1] != NoChecker then |s| - 1
    else Highest(s[..|s| - 1])
  }

  /** The letter of a colour: "W" for White, "r" for anything else. */
  function Letter(c: Checker): string {
    if c == White then "W" else "r"
  }

  /** The text makeCompactPoint gives a point: empty when no slot is occupied, otherwise the
      letter of the highest occupied slot, followed by that slot's number when it is not the
      first. */
  function PointText(p: Point): string {
    var k := Highest(p);
    if k < 0 then "" else if k == 0 then Letter(p[0]) else Letter(p[k]) + Decimal.NatToString(k + 1)
  }

  /** makeCompactPoint (json/json.go:243-259): the scan down from the top slot. */
  method MakeCompactPoint(p: Point) returns (s: string)
    ensures s == PointText(p)
  {
    var i := Capacity - 1;
    while i >= 0
      invariant -1 <= i < Capacity
      invariant forall j :: i < j < Capacity ==> p[j] == NoChecker
    {
      if p[i] != NoChecker {
        var c := "r";
        if p[i] == White {
          c := "W";
        }
        assert Highest(p) == i;
        if i == 0 {
          return c;
        } else {
          return c + Decimal.NatToString(i + 1);
        }
      }
      i := i - 1;
    }
    assert Highest(p) == -1;
    return "";
  }

  /** On a valid point the text is "" for no checker, the colour's letter for one, and the
      letter followed by the count for two or more. */
  lemma PointTextValid(p: Point)
    requires Valid(p)
    ensures var n := NumCheckers(p);
      PointText(p) == if n == 0 then "" else if n == 1 then Letter(p[0]) else Letter(p[0]) + Decimal.NatToString(n)
  {
    ValidFacts(p);
    var n := NumCheckers(p);
    if n > 0 {
      assert p[n - 1] != NoChecker;
      assert Highest(p) == n - 1;
    } else {
      assert Highest(p) == -1;
    }
  }

  /** parseCompactPoint (json/json.go:362-381): the count and colour of a point's text. The
      empty text is no checker, reported as White; a letter alone is one checker; a letter and
      a decimal number of at least one is that many. */
  function ParseCompactPoint(s: string): (r: Result<(int, Checker), CodecError>)
    ensures s == [] ==> r == Ok((0, White))
    ensures r.Ok? && s != [] ==> r.value.0 >= 1 && r.value.1 == (if s[0] == 'W' then White else Red)
    ensures s != [] && s[0] != 'W' && s[0] != 'r' ==> r.Err?
    ensures |s| == 1 && (s[0] == 'W' || s[0] == 'r') ==> r.Ok? && r.value.0 == 1
    ensures |s| > 1 ==> (r.Ok? <==> (s[0] == 'W' || s[0] == 'r') && Decimal.Atoi(s[1..]).Some? && Decimal.Atoi(s[1..]).value >= 1)
  {
    if |s| < 1 then Ok((0, White))
    else
      var color := if s[0] == 'W' then White else if s[0] == 'r' then Red else NoChecker;
      if color == NoChecker then Err(BadPointColour(s))
      else if |s| == 1 then Ok((1, color))
      else
        var k := Decimal.Atoi(s[1..]);
        if k.None? || k.value < 1 then Err(BadPoint(s)) else Ok((k.value, color))
  }

  /** A valid point is full up to its count with the colour of its first slot. */
  lemma ValidIsReset(p: Point)
    requires Valid(p) && p[0] != NoChecker
    ensures p == Reset(NumCheckers(p), p[0])
  {
    ValidFacts(p);
  }

  /** Reading back the text of a valid point and resetting a point with the result rebuilds it. */
  lemma PointRoundTrip(p: Point)
    requires Valid(p)
    ensures var r := ParseCompactPoint(PointText(p));
      && r.Ok?
      && r.value.0 == NumCheckers(p)
      && Reset(r.value.0, r.value.1) == p
  {
    PointTextValid(p);
    ValidFacts(p);
    var n := NumCheckers(p);
    if n == 0 {
      assert p == Reset(0, White);
    } else {
      ValidIsReset(p);
      ParseLetterCount(p[0], n);
    }
  }

  /** The text of n checkers of colour c reads back as n and c. */
  lemma ParseLetterCount(c: Checker, n: nat)
    requires c != NoChecker && 1 <= n <= Capacity
    ensures ParseCompactPoint(if n == 1 then Letter(c) else Letter(c) + Decimal.NatToString(n)) == Ok((n, c))
  {
    if n > 1 {
      var s := Letter(c) + Decimal.NatToString(n);
      assert s[1..] == Decimal.NatToString(n);
      Decimal.AtoiNatural(n);
    }
  }

  // ---------------------------------------------------------------------------------------
  // Rolls

  /** The decimal texts of the dice, one after the other ("%d" of each uint8). */
  function DiceText(ds: seq<Rolls.Die>): string {
    if ds == [] then "" else DiceText(ds[..|ds| - 1]) + Decimal.NatToString(ds[|ds| - 1])
  }

  /** The text makeCompactRoll gives a roll: its non-zero dice in slot order. */
  function RollText(r: Rolls.Roll): string {
    DiceText(Rolls.Dice(r))
  }

  /** makeCompactRoll (json/json.go:261-268). */
  method MakeCompactRoll(r: Rolls.Roll) returns (result: string)
    ensures result == RollText(r)
  {
    result := "";
    for i := 0 to 4
      invariant result == DiceText(Rolls.Dice(r[..i]))
    {
      ghost var before := Rolls.Dice(r[..i]);
      assert r[..i + 1] == r[..i] + [r[i]];
      Rolls.DiceConcat(r[..i], [r[i]]);
      assert Rolls.Dice([r[i]]) == Rolls.DieAsDice(r[i]) by {
        assert [r[i]][1..] == [];
      }
      if r[i] != Rolls.ZeroDie {
        assert (before + [r[i]])[..|before|] == before;
        result := result + Decimal.NatToString(r[i]);
      } else {
        assert before + [] == before;
      }
    }
    assert r[..4] == r;
  }

  /** The characters parseRoll accepts. */
  predicate IsDieChar(ch: char) {
    '1' <= ch <= '6'
  }

  predicate AllDieChars(s: string) {
    forall j :: 0 <= j < |s| ==> IsDieChar(s[j])
  }

  /** The roll a text of at most four die characters fills from the first slot, the rest zero. */
  function Slots(s: string): (r: Rolls.Roll)
    requires |s| <= 4 && AllDieChars(s)
    ensures forall j :: 0 <= j < 4 ==> r[j] == if j < |s| then s[j] as int - '0' as int else 0
  {
    seq(4, j requires 0 <= j < 4 => if j < |s| then s[j] as int - '0' as int else 0)
  }

  /** The larger of the first two dice in the first slot. */
  function LargerFirst(r: Rolls.Roll): (o: Rolls.Roll)
    ensures o[0] >= o[1]
    ensures multiset(Rolls.Dice(o)) == multiset(Rolls.Dice(r))
  {
    Rolls.DiceOfFour(r);
    if r[0] < r[1] then
      var o: Rolls.Roll := [r[1], r[0], r[2], r[3]];
      Rolls.DiceOfFour(o);
      o
    else r
  }

  /** What parseRoll makes of a text: a character other than '1' to '6' among the first four
      is a bad roll, a fifth character is one die too many; otherwise the dice fill the slots
      in order and the larger of the first two goes first. */
  function RollOfText(s: string): (r: Result<Rolls.Roll, CodecError>)
    ensures r.Ok? <==> |s| <= 4 && AllDieChars(s)
    ensures r.Ok? ==> r.value[0] >= r.value[1]
    ensures r == Err(TooManyDice(s)) <==> |s| > 4 && AllDieChars(s[..4])
  {
    var n := if |s| < 4 then |s| else 4;
    if !AllDieChars(s[..n]) then Err(BadRoll(s))
    else if |s| > 4 then Err(TooManyDice(s))
    else
      assert s[..n] == s;
      Ok(LargerFirst(Slots(s)))
  }

  /** parseRoll (json/json.go:383-417). The switch on the six die characters is the test
      IsDieChar and the character's digit value. */
  method ParseRoll(s: string) returns (r: Result<Rolls.Roll, CodecError>)
    ensures r == RollOfText(s)
  {
    var result: Rolls.Roll := Rolls.NoRoll;
    var i := 0;
    while i < |s|
      invariant 0 <= i <= |s| && i <= 4
      invariant AllDieChars(s[..i])
      invariant result == Slots(s[..i])
    {
      if i >= 4 {
        assert s[..4] == s[..i];
        return Err(TooManyDice(s));
      }
      var b := s[i];
      if !IsDieChar(b) {
        var n := if |s| < 4 then |s| else 4;
        assert s[..n][i] == b;
        return Err(BadRoll(s));
      }
      SlotsStep(s, i);
      result := result[i := b as int - '0' as int];
      i := i + 1;
    }
    assert s[..i] == s;
    ParsedRoll(s);
    if result[0] < result[1] {
      result := [result[1], result[0], result[2], result[3]];
    }
    return Ok(result);
  }

  /** One more die character read into the slots. */
  lemma SlotsStep(s: string, i: nat)
    requires i < |s| && i < 4 && AllDieChars(s[..i]) && IsDieChar(s[i])
    ensures AllDieChars(s[..i + 1])
    ensures Slots(s[..i + 1]) == Slots(s[..i])[i := s[i] as int - '0' as int]
  {
    assert s[..i + 1] == s[..i] + [s[i]];
  }

  /** A text of at most four die characters reads as its slots, the larger of the first two
      first. */
  lemma ParsedRoll(s: string)
    requires |s| <= 4 && AllDieChars(s)
    ensures var r := Slots(s);
      RollOfText(s).Ok? && RollOfText(s).value == if r[0] < r[1] then [r[1], r[0], r[2], r[3]] else r
  {
  }

  /** The text of dice from one to six has one digit character per die. */
  lemma {:induction false} DiceTextDigits(ds: seq<Rolls.Die>)
    requires forall j :: 0 <= j < |ds| ==> 1 <= ds[j] <= 6
    ensures |DiceText(ds)| == |ds|
    ensures forall j :: 0 <= j < |ds| ==> IsDieChar(DiceText(ds)[j]) && DiceText(ds)[j] as int - '0' as int == ds[j]
  {
    if ds != [] {
      DiceTextDigits(ds[..|ds| - 1]);
    }
  }

  lemma {:induction false} DiceOfZeros(n: nat)
    ensures Rolls.Dice(seq(n, j => Rolls.ZeroDie)) == []
  {
    if n > 0 {
      assert seq(n, j => Rolls.ZeroDie)[1..] == seq(n - 1, j => Rolls.ZeroDie);
      DiceOfZeros(n - 1);
    }
  }

  /** The dice of a roll whose dice come first, padded with zeros. */
  lemma DicePadded(ds: seq<Rolls.Die>, n: nat)
    requires Rolls.ZeroDie !in ds
    ensures Rolls.Dice(ds + seq(n, j => Rolls.ZeroDie)) == ds
  {
    Rolls.DiceConcat(ds, seq(n, j => Rolls.ZeroDie));
    DiceOfZeros(n);
    Rolls.DiceNoZero(ds);
    assert ds + [] == ds;
  }

  /** The text of a roll of dice from one to six reads back as the slots of its dice. */
  lemma RollTextSlots(r: Rolls.Roll)
    requires forall j :: 0 <= j < 4 ==> r[j] <= 6
    ensures var s := RollText(r);
      && |s| <= 4 && AllDieChars(s)
      && Slots(s) == Rolls.Dice(r) + seq(4 - |Rolls.Dice(r)|, j => Rolls.ZeroDie)
  {
    var ds := Rolls.Dice(r);
    Rolls.DiceMembers(r);
    assert forall j :: 0 <= j < |ds| ==> 1 <= ds[j] <= 6 by {
      forall j | 0 <= j < |ds| ensures 1 <= ds[j] <= 6 {
        assert ds[j] in ds;
      }
    }
    DiceTextDigits(ds);
  }

  /** Reading back the text of a roll gives a roll with the same dice, as Roll.Equals compares
      them, provided every die is at most six. */
  lemma RollRoundTrip(r: Rolls.Roll)
    requires forall j :: 0 <= j < 4 ==> r[j] <= 6
    ensures var p := RollOfText(RollText(r));
      p.Ok? && Rolls.Equals(p.value, r)
  {
    var s := RollText(r);
    RollTextDice(r);
    var o := LargerFirst(Slots(s));
    assert RollOfText(s) == Ok(o);
  }

  /** The slots read from the text of a roll hold the roll's dice. */
  lemma RollTextDice(r: Rolls.Roll)
    requires forall j :: 0 <= j < 4 ==> r[j] <= 6
    ensures |RollText(r)| <= 4 && AllDieChars(RollText(r))
    ensures Rolls.Dice(Slots(RollText(r))) == Rolls.Dice(r)
  {
    var ds := Rolls.Dice(r);
    RollTextSlots(r);
    DicePadded(ds, 4 - |ds|);
  }

  /** The dice in play fill the first slots. */
  predicate Packed(r: seq<Rolls.Die>) {
    forall i, j :: 0 <= i < j < |r| && r[i] == Rolls.ZeroDie ==> r[j] == Rolls.ZeroDie
  }

  /** A packed roll is its dice followed by zeros. */
  lemma {:induction false} PackedDice(r: seq<Rolls.Die>)
    requires Packed(r)
    ensures |Rolls.Dice(r)| <= |r|
    ensures Rolls.Dice(r) + seq(|r| - |Rolls.Dice(r)|, j => Rolls.ZeroDie) == r
  {
    if r != [] {
      if r[0] == Rolls.ZeroDie {
        assert r == seq(|r|, j => Rolls.ZeroDie);
        DiceOfZeros(|r|);
      } else {
        assert r == [r[0]] + r[1..];
        PackedDice(r[1..]);
      }
    }
  }

  /** A packed roll with the larger of its first two dice first, and dice from one to six,
      reads back exactly. */
  lemma PackedRoundTrip(r: Rolls.Roll)
    requires forall j :: 0 <= j < 4 ==> r[j] <= 6
    requires Packed(r) && r[0] >= r[1]
    ensures RollOfText(RollText(r)) == Ok(r)
  {
    var s := RollText(r);
    RollTextSlots(r);
    PackedDice(r);
    assert Slots(s) == r;
  }

  /** A roll as Roll.New makes it, or no roll at all, reads back exactly. */
  lemma RollRoundTripExact(r: Rolls.Roll)
    requires Rolls.WellShaped(r) || r == Rolls.NoRoll
    ensures RollOfText(RollText(r)) == Ok(r)
  {
    PackedRoundTrip(r);
  }

  // ---------------------------------------------------------------------------------------
  // Stakes

  function Pow2(n: nat): (p: nat)
    ensures p >= 1
  {
    if n == 0 then 1 else 2 * Pow2(n - 1)
  }

  const Two64: nat := 0x1_0000_0000_0000_0000

  /** Doubling commutes with the 64-bit wrap-around. */
  lemma DoubleWraps(a: nat)
    ensures (a % Two64) * 2 % Two64 == (2 * a) % Two64
  {
    var q, m := a / Two64, a % Two64;
    assert 2 * a == 2 * q * Two64 + 2 * m;
  }

  /** What twoToThePower computes: 2^i wrapped to 64 bits, and 1 when `i` is not positive. */
  function PowerOfTwo(i: int): (r: nat)
    ensures r < Two64
  {
    if i <= 0 then 1 else Pow2(i) % Two64
  }

  /** 2^29 is the largest power log2 accepts, far below the 64-bit limits. */
  lemma Pow2Small(n: nat)
    requires n <= 29
    ensures Pow2(n) <= 536870912
  {
    Pow2Of29();
    if n < 29 {
      Pow2Increasing(n, 29);
    }
  }

  lemma {:induction false} Pow2Add(m: nat, n: nat)
    ensures Pow2(m + n) == Pow2(m) * Pow2(n)
  {
    if n > 0 {
      Pow2Add(m, n - 1);
    }
  }

  /** The powers the codec's bounds rest on, built up by adding exponents. */
  lemma Pow2Of16()
    ensures Pow2(16) == 65536
  {
    assert Pow2(1) == 2;
    Pow2Add(1, 1);
    Pow2Add(2, 2);
    Pow2Add(4, 4);
    Pow2Add(8, 8);
  }

  lemma Pow2Of29()
    ensures Pow2(29) == 536870912
  {
    Pow2Of16();
    Pow2Add(16, 8);
    Pow2Add(8, 0);
    Pow2Add(24, 4);
    Pow2Add(28, 1);
    Pow2Add(4, 0);
    Pow2Add(1, 0);
    assert Pow2(8) == 256 && Pow2(4) == 16 && Pow2(1) == 2 by {
      assert Pow2(1) == 2;
      Pow2Add(1, 1);
      Pow2Add(2, 2);
      Pow2Add(4, 4);
    }
  }

  lemma Pow2Of64()
    ensures Pow2(64) == Two64
  {
    Pow2Of16();
    Pow2Add(16, 16);
    Pow2Add(32, 32);
  }

  /** From 2^64 on, every power of two is a multiple of 2^64. */
  lemma Pow2Wraps(i: nat)
    requires i >= 64
    ensures Pow2(i) % Two64 == 0
  {
    Pow2Add(64, i - 64);
    Pow2Of64();
    var k := Pow2(i - 64);
    assert Pow2(i) == Two64 * k;
    MultipleOfTwo64(k);
  }

  lemma MultipleOfTwo64(k: nat)
    ensures (Two64 * k) % Two64 == 0
  {
  }

  /** For exponents up to 29 twoToThePower is the plain power; from 64 on every bit has been
      shifted out and it is 0. */
  lemma PowerOfTwoRange(i: int)
    ensures 0 <= i <= 29 ==> PowerOfTwo(i) == Pow2(i)
    ensures i >= 64 ==> PowerOfTwo(i) == 0
  {
    if 0 <= i <= 29 {
      Pow2Small(i);
    }
    if i >= 64 {
      Pow2Wraps(i);
    }
  }

  /** twoToThePower (json/json.go:270-276): doubling a uint64 `i` times. */
  method TwoToThePower(i: int) returns (result: nat)
    ensures result == PowerOfTwo(i)
  {
    result := 1;
    if i <= 0 {
      return;
    }
    var j := 0;
    while j < i
      invariant 0 <= j <= i
      invariant result == Pow2(j) % Two64
    {
      DoubleWraps(Pow2(j));
      result := result * 2 % Two64;
      j := j + 1;
    }
  }

  /** Powers of two grow strictly. */
  lemma {:induction false} Pow2Increasing(m: nat, n: nat)
    requires m < n
    ensures Pow2(m) < Pow2(n)
  {
    if m < n - 1 {
      Pow2Increasing(m, n - 1);
    }
  }

  /** The switch of log2 tried from the case 2^from on: the first of 2^from .. 2^29 equal to
      `i` gives its exponent, and no case matching is an error. */
  function Log2From(i: int, from: nat): (r: Result<int, CodecError>)
    requires from <= 30
    decreases 30 - from
  {
    if from == 30 then Err(IllegalLog2(i))
    else if Pow2(from) == i then Ok(from)
    else Log2From(i, from + 1)
  }

  /** log2 (json/json.go:278-343): the exponent of a power of two from 2^0 to 2^29, an error
      for anything else. The thirty cases of the switch are the powers 2^0 .. 2^29. */
  function Log2(i: int): (r: Result<int, CodecError>) {
    Log2From(i, 0)
  }

  lemma {:induction false} Log2FromExponent(i: int, from: nat)
    requires from <= 30
    ensures var r := Log2From(i, from);
      (r.Ok? ==> from <= r.value <= 29 && Pow2(r.value) == i)
      && (r.Err? ==> r == Err(IllegalLog2(i)) && forall n :: from <= n <= 29 ==> Pow2(n) != i)
    decreases 30 - from
  {
    if from < 30 && Pow2(from) != i {
      Log2FromExponent(i, from + 1);
    }
  }

  lemma {:induction false} Log2FromPow2(n: nat, from: nat)
    requires from <= n <= 29
    ensures Log2From(Pow2(n), from) == Ok(n)
    decreases n - from
  {
    if from < n {
      Pow2Increasing(from, n);
      Log2FromPow2(n, from + 1);
    }
  }

  /** log2 accepts exactly the powers 2^0 .. 2^29 and gives their exponent; anything else is an
      error, so Serialize fails on any other stakes. */
  lemma Log2Exponent(i: int)
    ensures Log2(i).Ok? <==> exists n :: 0 <= n <= 29 && Pow2(n) == i
    ensures Log2(i).Ok? ==> 0 <= Log2(i).value <= 29 && Pow2(Log2(i).value) == i
    ensures Log2(i).Err? ==> Log2(i) == Err(IllegalLog2(i))
  {
    Log2FromExponent(i, 0);
  }

  /** log2 undoes twoToThePower for the exponents 0 to 29. */
  lemma Log2Pow2(n: nat)
    requires n <= 29
    ensures Log2(Pow2(n)) == Ok(n)
  {
    Log2FromPow2(n, 0);
  }

  /** log2 undoes twoToThePower for the exponents 0 to 29. */
  lemma Log2PowerOfTwo(n: int)
    requires 0 <= n <= 29
    ensures Log2(PowerOfTwo(n)) == Ok(n)
  {
    PowerOfTwoRange(n);
    Log2Pow2(n);
  }

  // ---------------------------------------------------------------------------------------
  // The match score

  /** compactScore (json/json.go:234-240): the match score with each flag as 0 or 1. */
  datatype CompactScore = CompactScore(
    goal: int,
    whiteScore: int,
    redScore: int,
    noCrawfordRule: int,
    alreadyPlayedCrawfordGame: int)

  function Flag(b: bool): int {
    if b then 1 else 0
  }

  /** serializeMatchScore (json/json.go:345-360): the score in compact form, and no score at all
      when every field would be zero, as for the zero score of a money game. */
  function SerializeMatchScore(s: Scores.Score): (r: Option<CompactScore>)
    ensures r.None? <==> s == Scores.Zero
  {
    var cs := CompactScore(s.goal, s.whiteScore, s.redScore, Flag(s.noCrawfordRule), Flag(s.alreadyPlayedCrawfordGame));
    if cs != CompactScore(0, 0, 0, 0, 0) then Some(cs) else None
  }

  /** deserializeMatchScore (json/json.go:419-432): an omitted score leaves `score` as it was;
      otherwise the three numbers are copied and a flag is set when its field is non-zero, a zero
      field leaving the flag as it was. */
  function DeserializeMatchScore(ms: Option<CompactScore>, score: Scores.Score): (r: Scores.Score)
    ensures ms.None? ==> r == score
  {
    if ms.None? then score
    else
      var cs := ms.value;
      score.(
        goal := cs.goal,
        whiteScore := cs.whiteScore,
        redScore := cs.redScore,
        noCrawfordRule := if cs.noCrawfordRule != 0 then true else score.noCrawfordRule,
        alreadyPlayedCrawfordGame := if cs.alreadyPlayedCrawfordGame != 0 then true else score.alreadyPlayedCrawfordGame)
  }

  /** Starting from the zero score, as Deserialize does, reading back a serialized score gives
      the score. */
  lemma MatchScoreRoundTrip(s: Scores.Score)
    ensures DeserializeMatchScore(SerializeMatchScore(s), Scores.Zero) == s
  {
  }

  // ---------------------------------------------------------------------------------------
  // The compact board

  type PipTexts = s: seq<string> | |s| == Boards.NumPips witness seq(Boards.NumPips, i => "")

  /** compactBoard (json/json.go:196-232). The fields p0 to p27 are the sequence `points`; an
      omitted field has its zero value, an omitted score is None. */
  datatype CompactBoard = CompactBoard(
    rollUsed: string,
    roll: string,
    stakesLog2: int,
    whiteCanDouble: int,
    redCanDouble: int,
    roller: string,
    points: PipTexts,
    matchScore: Option<CompactScore>)

  /** uint64(x) for an int: two's complement wrap-around. */
  function Uint64(x: int): nat {
    x % Two64
  }

  /** int(x) for a uint64 on a 64-bit platform. */
  function IntOfUint64(x: nat): int
    requires x < Two64
  {
    if x < Two64 / 2 then x else x - Two64
  }

  /** The fields Serialize (json/json.go:16-95) fills before marshalling: stakes other than a
      power of two from 1 to 2^29 are an error. */
  function Encoded(b: Boards.Board): (r: Result<CompactBoard, CodecError>)
    ensures r.Ok? <==> exists n :: 0 <= n <= 29 && Pow2(n) == Uint64(b.stakes)
  {
    Log2Exponent(Uint64(b.stakes));
    var st := Log2(Uint64(b.stakes));
    if st.Err? then Err(BadStakes(st.error))
    else
      Ok(CompactBoard(
        RollText(b.rollUsed),
        RollText(b.roll),
        st.value,
        Flag(b.whiteCanDouble),
        Flag(b.redCanDouble),
        if b.roller == Red then "r" else "W",
        PointTexts(b.pips),
        SerializeMatchScore(b.matchScore)))
  }

  /** The text of each point, in order. */
  function PointTexts(ps: seq<Point>): (ts: seq<string>)
    ensures |ts| == |ps|
  {
    seq(|ps|, i requires 0 <= i < |ps| => PointText(ps[i]))
  }

  /** The points the texts describe, in order; the first text that does not parse is the
      error. */
  function DecodedPoints(texts: seq<string>): (r: Result<seq<Point>, CodecError>)
    ensures r.Ok? ==> |r.value| == |texts|
  {
    if texts == [] then Ok([])
    else
      var front := DecodedPoints(texts[..|texts| - 1]);
      if front.Err? then front
      else
        var p := ParseCompactPoint(texts[|texts| - 1]);
        if p.Err? then Err(p.error) else Ok(front.value + [Reset(p.value.0, p.value.1)])
  }

  /** Once a text fails to parse, the later ones do not matter. */
  lemma {:induction false} DecodedPointsFail(texts: seq<string>, k: nat)
    requires k <= |texts| && DecodedPoints(texts[..k]).Err?
    ensures DecodedPoints(texts) == DecodedPoints(texts[..k])
    decreases |texts| - k
  {
    if k < |texts| {
      assert texts[..k + 1][..k] == texts[..k];
      DecodedPointsFail(texts, k + 1);
    } else {
      assert texts[..k] == texts;
    }
  }

  /** The board brd.New(false) gives Deserialize to fill. Its roller and roll are drawn at
      random, but every field except the match score is overwritten, so they are fixed here. */
  const Blank := Boards.Board(Rolls.NoRoll, Rolls.NoRoll, White, 1, Scores.Zero, true, true, Boards.StartingPips())

  /** What Deserialize makes of a compact board: the points, then the roller, the dice used, the
      dice, the stakes, the doubling flags and the score, and last the board's validity with the
      roll left unchecked. */
  function Decoded(cb: CompactBoard): (r: Result<Boards.Board, CodecError>)
    ensures r.Ok? ==> Boards.ValidBoard(r.value)
    ensures r.Ok? ==> r.value.roller == (if cb.roller == "W" then White else Red)
    ensures DecodedPoints(cb.points).Ok? && cb.roller != "W" && cb.roller != "r" ==> r == Err(BadRoller(cb.roller))
  {
    var pips := DecodedPoints(cb.points);
    if pips.Err? then Err(pips.error) else DecodedFields(cb, pips.value)
  }

  /** The fields after the points, read into a board whose points are `pips`. */
  function DecodedFields(cb: CompactBoard, pips: seq<Point>): (r: Result<Boards.Board, CodecError>)
    requires |pips| == Boards.NumPips
    ensures r.Ok? ==> Boards.ValidBoard(r.value) && r.value.pips == pips
    ensures r.Ok? ==> r.value.roller == (if cb.roller == "W" then White else Red)
    ensures cb.roller != "W" && cb.roller != "r" ==> r == Err(BadRoller(cb.roller))
  {
    if cb.roller != "W" && cb.roller != "r" then Err(BadRoller(cb.roller))
    else
      var rollUsed := RollOfText(cb.rollUsed);
      if rollUsed.Err? then Err(BadRollUsed(rollUsed.error))
      else
        var roll := RollOfText(cb.roll);
        if roll.Err? then Err(BadRollText(roll.error))
        else
          var b := Boards.Board(
            roll.value,
            rollUsed.value,
            if cb.roller == "W" then White else Red,
            IntOfUint64(PowerOfTwo(cb.stakesLog2)),
            DeserializeMatchScore(cb.matchScore, Scores.Zero),
            cb.whiteCanDouble != 0,
            cb.redCanDouble != 0,
            pips);
          if !Boards.ValidBoard(b) then Err(InvalidBoard) else Ok(b)
  }

  /** The loop of Deserialize over the point texts: each is parsed and the point reset with
      the count and colour, until a text fails to parse. */
  method DeserializePoints(texts: PipTexts, pips: Boards.Pips) returns (r: Result<Boards.Pips, CodecError>)
    ensures r.Err? ==> DecodedPoints(texts).Err? && r == Err(DecodedPoints(texts).error)
    ensures r.Ok? ==> DecodedPoints(texts).Ok? && DecodedPoints(texts).value == r.value
  {
    var ps := pips;
    for i := 0 to Boards.NumPips
      invariant DecodedPoints(texts[..i]).Ok? && DecodedPoints(texts[..i]).value == ps[..i]
    {
      var pt := ParseCompactPoint(texts[i]);
      assert texts[..i + 1][..i] == texts[..i];
      if pt.Err? {
        DecodedPointsFail(texts, i + 1);
        return Err(pt.error);
      }
      ps := ps[i := Reset(pt.value.0, pt.value.1)];
      assert ps[..i + 1] == ps[..i] + [Reset(pt.value.0, pt.value.1)];
    }
    assert texts[..Boards.NumPips] == texts && ps[..Boards.NumPips] == ps;
    return Ok(ps);
  }

  /** Deserialize (json/json.go:104-154) after json.Unmarshal: the fields of the compact board
      are read into a fresh board one by one. */
  method Deserialize(cb: CompactBoard) returns (r: Result<Boards.Board, CodecError>)
    ensures r == Decoded(cb)
  {
    var b := Blank;
    var pips := DeserializePoints(cb.points, b.pips);
    if pips.Err? {
      return Err(pips.error);
    }
    b := b.(pips := pips.value);
    if cb.roller == "W" {
      b := b.(roller := White);
    } else if cb.roller == "r" {
      b := b.(roller := Red);
    } else {
      return Err(BadRoller(cb.roller));
    }
    var rollUsed := ParseRoll(cb.rollUsed);
    if rollUsed.Err? {
      return Err(BadRollUsed(rollUsed.error));
    }
    b := b.(rollUsed := rollUsed.value);
    var roll := ParseRoll(cb.roll);
    if roll.Err? {
      return Err(BadRollText(roll.error));
    }
    b := b.(roll := roll.value);
    var stakes := TwoToThePower(cb.stakesLog2);
    b := b.(stakes := IntOfUint64(stakes));
    b := b.(whiteCanDouble := cb.whiteCanDouble != 0);
    b := b.(redCanDouble := cb.redCanDouble != 0);
    b := b.(matchScore := DeserializeMatchScore(cb.matchScore, b.matchScore));
    var iv := Boards.Invalidity(b, true);
    if iv.Some? {
      return Err(InvalidBoard);
    }
    return Ok(b);
  }

  // ---------------------------------------------------------------------------------------
  // Round trip

  /** The texts of valid points read back as the points. */
  lemma {:induction false} PointsRoundTrip(ps: seq<Point>)
    requires forall i :: 0 <= i < |ps| ==> Valid(ps[i])
    ensures DecodedPoints(PointTexts(ps)) == Ok(ps)
  {
    if ps != [] {
      PointsRoundTrip(ps[..|ps| - 1]);
      PointsRoundTripStep(ps);
    }
  }

  /** One more valid point read back after the others. */
  lemma PointsRoundTripStep(ps: seq<Point>)
    requires ps != [] && Valid(ps[|ps| - 1])
    requires DecodedPoints(PointTexts(ps[..|ps| - 1])) == Ok(ps[..|ps| - 1])
    ensures DecodedPoints(PointTexts(ps)) == Ok(ps)
  {
    var n := |ps|;
    var ts, last := PointTexts(ps), ps[n - 1];
    PointTextsLast(ps);
    LastReadsBack(last);
    DecodedPointsLast(ts, ps[..n - 1], last);
    assert ps[..n - 1] + [last] == ps;
  }

  /** The texts of nonempty points: those of the front, then that of the last point. */
  lemma PointTextsLast(ps: seq<Point>)
    requires ps != []
    ensures PointTexts(ps)[..|ps| - 1] == PointTexts(ps[..|ps| - 1])
    ensures PointTexts(ps)[|ps| - 1] == PointText(ps[|ps| - 1])
  {
  }

  /** A valid point reads back, as a count and a colour, to itself. */
  lemma LastReadsBack(p: Point)
    requires Valid(p)
    ensures var r := ParseCompactPoint(PointText(p)); r.Ok? && Reset(r.value.0, r.value.1) == p
  {
    PointRoundTrip(p);
  }

  /** Texts whose front reads back as `front` and whose last text reads back as `last`. */
  lemma DecodedPointsLast(ts: seq<string>, front: seq<Point>, last: Point)
    requires ts != [] && DecodedPoints(ts[..|ts| - 1]) == Ok(front)
    requires var r := ParseCompactPoint(ts[|ts| - 1]); r.Ok? && Reset(r.value.0, r.value.1) == last
    ensures DecodedPoints(ts) == Ok(front + [last])
  {
  }

  /** The stakes Serialize accepts come back from their logarithm unchanged. */
  lemma StakesRoundTrip(stakes: int, n: nat)
    requires n <= 29 && stakes == Pow2(n)
    ensures Log2(Uint64(stakes)) == Ok(n)
    ensures IntOfUint64(PowerOfTwo(n)) == stakes
  {
    Pow2Small(n);
    PowerOfTwoRange(n);
    Log2Pow2(n);
  }

  /** Validity depends on the points and the roller only. */
  lemma SameValidity(b: Boards.Board, d: Boards.Board)
    requires Boards.ValidBoard(b) && d.pips == b.pips && d.roller == b.roller
    ensures Boards.ValidBoard(d)
  {
  }

  /** The fields after the points read back as those of the board they were written from,
      up to the order of the dice. */
  lemma FieldsRoundTrip(b: Boards.Board, cb: CompactBoard)
    requires Boards.ValidBoard(b)
    requires cb.roller == (if b.roller == Red then "r" else "W")
    requires RollOfText(cb.roll).Ok? && Rolls.Equals(RollOfText(cb.roll).value, b.roll)
    requires RollOfText(cb.rollUsed).Ok? && Rolls.Equals(RollOfText(cb.rollUsed).value, b.rollUsed)
    requires IntOfUint64(PowerOfTwo(cb.stakesLog2)) == b.stakes
    requires cb.whiteCanDouble == Flag(b.whiteCanDouble) && cb.redCanDouble == Flag(b.redCanDouble)
    requires cb.matchScore == SerializeMatchScore(b.matchScore)
    ensures var d := DecodedFields(cb, b.pips);
      d.Ok? && Boards.Equals(d.value, b)
  {
    FieldsRead(b, cb);
    MatchScoreRoundTrip(b.matchScore);
  }

  /** What each field of the board read back holds. */
  lemma FieldsRead(b: Boards.Board, cb: CompactBoard)
    requires Boards.ValidBoard(b)
    requires cb.roller == (if b.roller == Red then "r" else "W")
    requires RollOfText(cb.roll).Ok? && RollOfText(cb.rollUsed).Ok?
    ensures var d := DecodedFields(cb, b.pips);
      && d.Ok? && d.value.pips == b.pips && d.value.roller == b.roller
      && d.value.roll == RollOfText(cb.roll).value && d.value.rollUsed == RollOfText(cb.rollUsed).value
      && d.value.stakes == IntOfUint64(PowerOfTwo(cb.stakesLog2))
      && d.value.matchScore == DeserializeMatchScore(cb.matchScore, Scores.Zero)
      && d.value.whiteCanDouble == (cb.whiteCanDouble != 0) && d.value.redCanDouble == (cb.redCanDouble != 0)
  {
    var d := Boards.Board(
      RollOfText(cb.roll).value,
      RollOfText(cb.rollUsed).value,
      b.roller,
      IntOfUint64(PowerOfTwo(cb.stakesLog2)),
      DeserializeMatchScore(cb.matchScore, Scores.Zero),
      cb.whiteCanDouble != 0,
      cb.redCanDouble != 0,
      b.pips);
    SameValidity(b, d);
    assert DecodedFields(cb, b.pips) == Ok(d);
  }

  /** Serialize's fields of a valid board whose stakes are a power of two up to 2^29 and whose
      dice are at most six read back, through Deserialize, as a board Board.Equals counts equal:
      the same points, roller, stakes, doubling flags and score, and rolls with the same dice. */
  lemma BoardRoundTrip(b: Boards.Board, n: nat)
    requires Boards.ValidBoard(b)
    requires n <= 29 && b.stakes == Pow2(n)
    requires forall j :: 0 <= j < 4 ==> b.roll[j] <= 6 && b.rollUsed[j] <= 6
    ensures Encoded(b).Ok?
    ensures var d := Decoded(Encoded(b).value);
      d.Ok? && Boards.Equals(d.value, b)
  {
    StakesRoundTrip(b.stakes, n);
    var cb := Encoded(b).value;
    assert cb.points == PointTexts(b.pips) && cb.stakesLog2 == n;
    PointsRoundTrip(b.pips);
    RollRoundTrip(b.roll);
    RollRoundTrip(b.rollUsed);
    FieldsRoundTrip(b, cb);
  }
}
