/**
  Day 9 (Mirage Maintenance): extrapolating a value history by repeated
  first differences, forwards (`part_one`) and backwards (`part_two`).
 */
module Day9Oasis {
  import opened Common

  /** `[v2 - v1 for v1, v2 in zip(s[:-1], s[1:])]`: one level down. */
  function Differences(s: seq<int>): (d: seq<int>)
    ensures |d| == if s == [] then 0 else |s| - 1
  {
    if |s| <= 1 then [] else [s[1] - s[0]] + Differences(s[1..])
  }

  /** Each difference is the step between two neighbours: `d[i] == s[i+1] - s[i]`. */
  lemma {:induction false} DifferencesAt(s: seq<int>)
    ensures forall i {:trigger Differences(s)[i]} :: 0 <= i < |Differences(s)| ==> Differences(s)[i] == s[i + 1] - s[i]
  {
    if |s| > 1 {
      DifferencesAt(s[1..]);
      var d := Differences(s);
      forall i | 1 <= i < |d| ensures d[i] == s[i + 1] - s[i] {
        assert d[i] == Differences(s[1..])[i - 1];
      }
    }
  }

  /** The loop guard `set(s) != {0}` is false exactly when `s` is non-empty and all zeros. */
  predicate Settled(s: seq<int>)
  {
    s != [] && AllZero(s)
  }

  predicate AllZero(s: seq<int>)
  {
    s == [] || (s[0] == 0 && AllZero(s[1..]))
  }

  lemma {:induction false} AllZeroIff(s: seq<int>)
    ensures AllZero(s) <==> forall i :: 0 <= i < |s| ==> s[i] == 0
  {
    if s != [] {
      AllZeroIff(s[1..]);
      assert forall i :: 1 <= i < |s| ==> s[1..][i - 1] == s[i];
    }
  }

  function Shift(o: Outcome, k: int): Outcome
  {
    match o
    case Raises => Raises
    case Returns(v) => Returns(k + v)
  }

  function SubtractFrom(k: int, o: Outcome): Outcome
  {
    match o
    case Raises => Raises
    case Returns(v) => Returns(k - v)
  }

  /**
    The forward prediction: the sum of the last element of every level down to
    the first all-zero level; `Raises` where the script indexes an empty level.
   */
  function NextValue(s: seq<int>): Outcome
    decreases |s|
  {
    if s == [] then Raises
    else if Settled(s) then Returns(s[|s| - 1])
    else Shift(NextValue(Differences(s)), s[|s| - 1])
  }

  /** The backward prediction: `f0 - (f1 - (... - fn))` over the first elements of the levels. */
  function PrevValue(s: seq<int>): Outcome
    decreases |s|
  {
    if s == [] then Raises
    else if Settled(s) then Returns(s[0])
    else SubtractFrom(s[0], PrevValue(Differences(s)))
  }

  /** The right fold `for val in firsts[::-1]: cur = val - cur`, started from `seed`. */
  function FoldFirsts(firsts: seq<int>, seed: int): int
  {
    if firsts == [] then seed else firsts[0] - FoldFirsts(firsts[1..], seed)
  }

  lemma {:induction false} FoldFirstsSnoc(firsts: seq<int>, x: int, seed: int)
    ensures FoldFirsts(firsts + [x], seed) == FoldFirsts(firsts, x - seed)
  {
    if firsts != [] {
      assert (firsts + [x])[1..] == firsts[1..] + [x];
      FoldFirstsSnoc(firsts[1..], x, seed);
    } else {
      assert FoldFirsts([x][1..], seed) == seed;
    }
  }

  /** One level of the forward prediction: the last element is added to the prediction one level down. */
  lemma NextLevel(s: seq<int>)
    requires s != [] && !Settled(s)
    ensures NextValue(s) == Shift(NextValue(Differences(s)), s[|s| - 1])
  {
  }

  /** One level of the backward prediction: the prediction one level down is subtracted from the first element. */
  lemma PrevLevel(s: seq<int>)
    requires s != [] && !Settled(s)
    ensures PrevValue(s) == SubtractFrom(s[0], PrevValue(Differences(s)))
  {
  }

  lemma ShiftShift(o: Outcome, a: int, b: int)
    ensures Shift(Shift(o, a), b) == Shift(o, a + b)
  {
  }

  /** The pending backward fold over the first elements collected so far, applied to a prediction. */
  function Unwind(firsts: seq<int>, o: Outcome): Outcome
  {
    match o
    case Raises => Raises
    case Returns(v) => Returns(FoldFirsts(firsts, v))
  }

  lemma UnwindSnoc(done: seq<int>, x: int, o: Outcome)
    ensures Unwind(done + [x], o) == Unwind(done, SubtractFrom(x, o))
  {
    if o.Returns? {
      FoldFirstsSnoc(done, x, o.value);
    }
  }

  /**
    The levels the script builds: the history, its differences, their
    differences, and so on down to the first all-zero level; `None` where a
    level would be empty before an all-zero one is reached.
   */
  function Levels(s: seq<int>): Option<seq<seq<int>>>
    decreases |s|
  {
    if s == [] then None
    else if Settled(s) then Some([s])
    else match Levels(Differences(s))
      case None => None
      case Some(ls) => Some([s] + ls)
  }

  predicate NonEmptyLevels(ls: seq<seq<int>>)
  {
    forall k :: 0 <= k < |ls| ==> ls[k] != []
  }

  /** The last element of every level: `lasts` in `part_one`. */
  function Lasts(ls: seq<seq<int>>): seq<int>
    requires NonEmptyLevels(ls)
  {
    seq(|ls|, k requires 0 <= k < |ls| => ls[k][|ls[k]| - 1])
  }

  /** The first element of every level: `firsts` in `part_two`. */
  function Firsts(ls: seq<seq<int>>): seq<int>
    requires NonEmptyLevels(ls)
  {
    seq(|ls|, k requires 0 <= k < |ls| => ls[k][0])
  }

  /** `ls` starts at `s`, each level is the differences of the one before, and only the last is all zeros. */
  predicate LevelChain(s: seq<int>, ls: seq<seq<int>>)
  {
    && ls != []
    && ls[0] == s
    && NonEmptyLevels(ls)
    && Settled(ls[|ls| - 1])
    && forall k :: 0 <= k < |ls| - 1 ==> !Settled(ls[k]) && ls[k + 1] == Differences(ls[k])
  }

  /** `Levels` builds exactly the one chain of difference levels that starts at the history. */
  lemma {:induction false} LevelsChain(s: seq<int>, ls: seq<seq<int>>)
    ensures Levels(s) == Some(ls) <==> LevelChain(s, ls)
    decreases |s|
  {
    if s != [] && Settled(s) {
      if LevelChain(s, ls) {
        assert |ls| == 1;
        assert ls == [s];
      }
    } else if s != [] {
      var d := Differences(s);
      if Levels(d).Some? {
        LevelsChain(d, Levels(d).value);
        ChainCons(s, Levels(d).value);
      }
      if LevelChain(s, ls) {
        assert |ls| > 1;
        ChainTail(s, ls);
        LevelsChain(d, ls[1..]);
        assert ls == [s] + ls[1..];
      }
    }
  }

  lemma ChainTail(s: seq<int>, ls: seq<seq<int>>)
    requires |ls| > 1
    ensures LevelChain(s, ls) ==> LevelChain(Differences(s), ls[1..]) && !Settled(s)
    ensures LevelChain(Differences(s), ls[1..]) && s != [] && !Settled(s) ==> LevelChain(s, ls) == (ls[0] == s)
  {
    if LevelChain(Differences(s), ls[1..]) && s != [] && !Settled(s) && ls[0] == s {
      forall k | 0 <= k < |ls| - 1 ensures !Settled(ls[k]) && ls[k + 1] == Differences(ls[k]) {
        if k > 0 {
          assert ls[k] == ls[1..][k - 1] && ls[k + 1] == ls[1..][k];
        }
      }
    }
  }

  lemma ChainCons(s: seq<int>, ls: seq<seq<int>>)
    requires s != [] && !Settled(s) && LevelChain(Differences(s), ls)
    ensures LevelChain(s, [s] + ls)
  {
    var all := [s] + ls;
    forall k | 0 <= k < |all| - 1 ensures !Settled(all[k]) && all[k + 1] == Differences(all[k]) {
      if k > 0 {
        assert all[k] == ls[k - 1] && all[k + 1] == ls[k];
      }
    }
  }

  /**
    Both predictions exist exactly when the levels do; the forward one is the
    sum of the levels' last elements and the backward one the alternating fold
    of their first elements.
   */
  lemma {:induction false} PredictionsOverLevels(s: seq<int>)
    ensures NextValue(s).Returns? <==> Levels(s).Some?
    ensures PrevValue(s).Returns? <==> Levels(s).Some?
    ensures Levels(s).Some? ==> LevelChain(s, Levels(s).value)
    ensures Levels(s).Some? ==> NextValue(s).value == Sum(Lasts(Levels(s).value))
    ensures Levels(s).Some? ==> PrevValue(s).value == FoldFirsts(Firsts(Levels(s).value), 0)
    decreases |s|
  {
    if Levels(s).Some? {
      LevelsChain(s, Levels(s).value);
    }
    if s != [] && Settled(s) {
      assert Lasts([s]) == [s[|s| - 1]];
      assert Firsts([s]) == [s[0]];
      SumSnoc([], s[|s| - 1]);
    } else if s != [] {
      var d := Differences(s);
      PredictionsOverLevels(d);
      if Levels(d).Some? {
        var ls := Levels(d).value;
        var all := [s] + ls;
        assert Lasts(all) == [s[|s| - 1]] + Lasts(ls);
        assert Firsts(all) == [s[0]] + Firsts(ls);
        SumAppend([s[|s| - 1]], Lasts(ls));
        SumSnoc([], s[|s| - 1]);
        assert Firsts(all)[1..] == Firsts(ls);
      }
    }
  }

  /** The body of `part_one` for one history: collect the last elements, then sum them. */
  method PredictNext(history: seq<int>) returns (r: Outcome)
    ensures r == NextValue(history)
  {
    if history == [] {
      return Raises;
    }
    var step := history;
    var lasts := [step[|step| - 1]];
    ghost var done: seq<int> := [];
    while !Settled(step)
      invariant step != [] && lasts == done + [step[|step| - 1]]
      invariant NextValue(history) == Shift(NextValue(step), Sum(done))
      decreases |step|
    {
      NextLevel(step);
      ShiftShift(NextValue(Differences(step)), step[|step| - 1], Sum(done));
      SumSnoc(done, step[|step| - 1]);
      done := lasts;
      step := Differences(step);
      if step == [] {
        return Raises;
      }
      lasts := lasts + [step[|step| - 1]];
    }
    SumSnoc(done, step[|step| - 1]);
    r := Returns(Sum(lasts));
  }

  /** The body of `part_two` for one history: collect the first elements, then fold them backwards. */
  method PredictPrev(history: seq<int>) returns (r: Outcome)
    ensures r == PrevValue(history)
  {
    if history == [] {
      return Raises;
    }
    var step := history;
    var firsts := [step[0]];
    ghost var done: seq<int> := [];
    while !Settled(step)
      invariant step != [] && firsts == done + [step[0]]
      invariant PrevValue(history) == Unwind(done, PrevValue(step))
      decreases |step|
    {
      PrevLevel(step);
      UnwindSnoc(done, step[0], PrevValue(Differences(step)));
      done := firsts;
      step := Differences(step);
      if step == [] {
        return Raises;
      }
      firsts := firsts + [step[0]];
    }
    var cur := 0;
    var i := |firsts|;
    while i > 0
      invariant 0 <= i <= |firsts|
      invariant cur == FoldFirsts(firsts[i..], 0)
    {
      i := i - 1;
      assert firsts[i..][1..] == firsts[i + 1..];
      cur := firsts[i] - cur;
    }
    assert firsts[0..] == firsts;
    FoldFirstsSnoc(done, step[0], 0);
    r := Returns(cur);
  }

  /** `sum(predictions)`, or `Raises` as soon as one prediction raises. */
  function TotalOf(hs: seq<seq<int>>, forward: bool): Outcome
  {
    if hs == [] then Returns(0)
    else
      var p := if forward then NextValue(hs[|hs| - 1]) else PrevValue(hs[|hs| - 1]);
      match TotalOf(hs[..|hs| - 1], forward)
      case Raises => Raises
      case Returns(t) => if p.Raises? then Raises else Returns(t + p.value)
  }

  /** A total exists exactly when every single prediction does. */
  lemma {:induction false} TotalDefinedIff(hs: seq<seq<int>>, forward: bool)
    ensures TotalOf(hs, forward).Returns? <==>
      forall i :: 0 <= i < |hs| ==> (if forward then NextValue(hs[i]) else PrevValue(hs[i])).Returns?
  {
    if hs != [] {
      TotalDefinedIff(hs[..|hs| - 1], forward);
      assert forall i :: 0 <= i < |hs| - 1 ==> hs[..|hs| - 1][i] == hs[i];
    }
  }

  method PartOne(histories: seq<seq<int>>) returns (r: Outcome)
    ensures r == TotalOf(histories, true)
  {
    var total := 0;
    var k := 0;
    while k < |histories|
      invariant 0 <= k <= |histories|
      invariant TotalOf(histories[..k], true) == Returns(total)
    {
      var p := PredictNext(histories[k]);
      assert histories[..k + 1][..k] == histories[..k];
      if p.Raises? {
        NoneStays(histories, k + 1, true);
        return Raises;
      }
      total := total + p.value;
      k := k + 1;
    }
    assert histories[..k] == histories;
    r := Returns(total);
  }

  method PartTwo(histories: seq<seq<int>>) returns (r: Outcome)
    ensures r == TotalOf(histories, false)
  {
    var total := 0;
    var k := 0;
    while k < |histories|
      invariant 0 <= k <= |histories|
      invariant TotalOf(histories[..k], false) == Returns(total)
    {
      var p := PredictPrev(histories[k]);
      assert histories[..k + 1][..k] == histories[..k];
      if p.Raises? {
        NoneStays(histories, k + 1, false);
        return Raises;
      }
      total := total + p.value;
      k := k + 1;
    }
    assert histories[..k] == histories;
    r := Returns(total);
  }

  /** Once a prefix of the histories raises, the whole list does. */
  lemma {:induction false} NoneStays(hs: seq<seq<int>>, k: nat, forward: bool)
    requires k <= |hs| && TotalOf(hs[..k], forward).Raises?
    ensures TotalOf(hs, forward).Raises?
    decreases |hs| - k
  {
    if k < |hs| {
      assert hs[..k + 1][..k] == hs[..k];
      NoneStays(hs, k + 1, forward);
    } else {
      assert hs[..k] == hs;
    }
  }

  /** An empty history fails at once, in both directions. */
  lemma EmptyHistoryFails()
    ensures NextValue([]) == Raises && PrevValue([]) == Raises
  {
  }

  /** An all-zero history predicts 0 both ways. */
  lemma ZeroHistory(s: seq<int>)
    requires Settled(s)
    ensures NextValue(s) == Returns(0) && PrevValue(s) == Returns(0)
  {
    AllZeroIff(s);
  }

  /**
    A constant history is extrapolated to the same constant both ways, provided
    its differences are not empty (a single non-zero value raises).
   */
  lemma ConstantHistory(s: seq<int>, c: int)
    requires |s| >= 2 || (|s| == 1 && c == 0)
    requires forall i :: 0 <= i < |s| ==> s[i] == c
    ensures NextValue(s) == Returns(c) && PrevValue(s) == Returns(c)
  {
    AllZeroIff(s);
    if c != 0 {
      var d := Differences(s);
      DifferencesAt(s);
      AllZeroIff(d);
      ZeroHistory(d);
      assert !Settled(s) by { assert s[0] != 0; }
      assert NextValue(s) == Shift(NextValue(d), s[|s| - 1]);
      assert PrevValue(s) == SubtractFrom(s[0], PrevValue(d));
    }
  }

  /** A single non-zero value has an empty difference level: the script fails. */
  lemma SingleNonZeroFails(c: int)
    requires c != 0
    ensures NextValue([c]) == Raises && PrevValue([c]) == Raises
  {
    assert !AllZero([c]);
  }

  /** An arithmetic progression of length three or more continues its step in both directions. */
  lemma ArithmeticHistory(s: seq<int>, a: int, b: int)
    requires |s| >= 3
    requires forall i :: 0 <= i < |s| ==> s[i] == a + b * i
    ensures NextValue(s) == Returns(a + b * |s|)
    ensures PrevValue(s) == Returns(a - b)
  {
    ArithmeticDifferences(s, a, b);
    var n := |s|;
    assert s[0] == a + b * 0 && s[1] == a + b * 1 && s[n - 1] == a + b * (n - 1);
    if Settled(s) {
      AllZeroIff(s);
      assert a == 0 && b == 0;
      ZeroHistory(s);
    } else {
      assert b * (n - 1) + b == b * n;
      ConstantStep(s, b);
    }
  }

  /** The differences of an arithmetic progression are all its step. */
  lemma ArithmeticDifferences(s: seq<int>, a: int, b: int)
    requires |s| >= 3
    requires forall i :: 0 <= i < |s| ==> s[i] == a + b * i
    ensures forall i :: 0 <= i < |Differences(s)| ==> Differences(s)[i] == b
  {
    DifferencesAt(s);
    forall i | 0 <= i < |Differences(s)| ensures Differences(s)[i] == b {
      assert s[i + 1] == a + b * (i + 1) && s[i] == a + b * i;
      assert b * (i + 1) == b * i + b;
    }
  }

  /** A history that is not settled and whose (two or more) differences all equal `c`. */
  lemma ConstantStep(s: seq<int>, c: int)
    requires |s| >= 3 && !Settled(s)
    requires forall i :: 0 <= i < |Differences(s)| ==> Differences(s)[i] == c
    ensures NextValue(s) == Returns(s[|s| - 1] + c) && PrevValue(s) == Returns(s[0] - c)
  {
    ConstantHistory(Differences(s), c);
    NextLevel(s);
    PrevLevel(s);
  }

  function Negated(s: seq<int>): (r: seq<int>)
    ensures |r| == |s| && forall i {:trigger r[i]} :: 0 <= i < |s| ==> r[i] == -s[i]
  {
    seq(|s|, i requires 0 <= i < |s| => -s[i])
  }

  function Reversed(s: seq<int>): (r: seq<int>)
    ensures |r| == |s| && forall i {:trigger r[i]} :: 0 <= i < |s| ==> r[i] == s[|s| - 1 - i]
  {
    seq(|s|, i requires 0 <= i < |s| => s[|s| - 1 - i])
  }

  lemma DifferencesOfNegated(s: seq<int>)
    ensures Differences(Negated(s)) == Negated(Differences(s))
  {
    var l, r := Differences(Negated(s)), Negated(Differences(s));
    DifferencesAt(s);
    DifferencesAt(Negated(s));
    forall i | 0 <= i < |l| ensures l[i] == r[i] {
      assert l[i] == Negated(s)[i + 1] - Negated(s)[i];
    }
  }

  lemma DifferencesOfReversed(s: seq<int>)
    ensures Differences(Reversed(s)) == Negated(Reversed(Differences(s)))
  {
    var l, r := Differences(Reversed(s)), Negated(Reversed(Differences(s)));
    DifferencesAt(s);
    DifferencesAt(Reversed(s));
    forall i | 0 <= i < |l| ensures l[i] == r[i] {
      assert l[i] == Reversed(s)[i + 1] - Reversed(s)[i];
      assert r[i] == -Differences(s)[|s| - 2 - i];
    }
  }

  /** Whether a history is settled does not change under negation or reversal. */
  lemma SettledNegatedReversed(s: seq<int>)
    ensures Settled(Negated(s)) == Settled(s)
    ensures Settled(Reversed(s)) == Settled(s)
  {
    AllZeroIff(s);
    AllZeroIff(Negated(s));
    AllZeroIff(Reversed(s));
    if !AllZero(s) {
      var i :| 0 <= i < |s| && s[i] != 0;
      assert Negated(s)[i] != 0;
      assert Reversed(s)[|s| - 1 - i] != 0;
    } else {
      forall i | 0 <= i < |s| ensures Reversed(s)[i] == 0 {
        assert Reversed(s)[i] == s[|s| - 1 - i];
      }
    }
  }

  /** Negating a history negates its forward prediction. */
  lemma {:induction false} NextOfNegated(s: seq<int>)
    ensures NextValue(Negated(s)) == (if NextValue(s).Raises? then Raises else Returns(-NextValue(s).value))
    decreases |s|
  {
    if s == [] {
      return;
    }
    var n := Negated(s);
    SettledNegatedReversed(s);
    if Settled(s) {
      return;
    }
    DifferencesOfNegated(s);
    NextOfNegated(Differences(s));
    assert NextValue(n) == Shift(NextValue(Differences(n)), n[|n| - 1]);
    assert NextValue(s) == Shift(NextValue(Differences(s)), s[|s| - 1]);
  }

  /** One level of the reversed history: its differences are the negated, reversed differences. */
  lemma NextOfReversedStep(s: seq<int>)
    requires s != [] && !Settled(s)
    ensures NextValue(Reversed(s)) == Shift(NextValue(Negated(Reversed(Differences(s)))), s[0])
  {
    var r := Reversed(s);
    SettledNegatedReversed(s);
    DifferencesOfReversed(s);
    assert r[|r| - 1] == s[0];
  }

  /** One level of the backward prediction, stated over its parts. */
  lemma PrevStep(s: seq<int>, p: Outcome, n: Outcome, a: Outcome)
    requires s != [] && !Settled(s)
    requires PrevValue(Differences(s)) == p
    requires n == (if p.Raises? then Raises else Returns(-p.value))
    requires a == Shift(n, s[0])
    ensures PrevValue(s) == a
  {
    assert PrevValue(s) == SubtractFrom(s[0], p);
  }

  /** Extrapolating backwards is extrapolating the reversed history forwards. */
  lemma {:induction false} BackwardIsForwardReversed(s: seq<int>)
    ensures PrevValue(s) == NextValue(Reversed(s))
    decreases |s|
  {
    SettledNegatedReversed(s);
    if s == [] {
    } else if Settled(s) {
      assert Reversed(s)[|s| - 1] == s[0];
    } else {
      var d := Differences(s);
      BackwardIsForwardReversed(d);
      ReversedStep(s, PrevValue(d));
    }
  }

  /** The inductive step of `BackwardIsForwardReversed`, given its hypothesis for the differences. */
  lemma ReversedStep(s: seq<int>, p: Outcome)
    requires s != [] && !Settled(s)
    requires p == PrevValue(Differences(s)) == NextValue(Reversed(Differences(s)))
    ensures PrevValue(s) == NextValue(Reversed(s))
  {
    var d := Differences(s);
    NextOfReversedStep(s);
    NextOfNegated(Reversed(d));
    PrevStep(s, p, NextValue(Negated(Reversed(d))), NextValue(Reversed(s)));
  }
}
