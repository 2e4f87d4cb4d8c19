/** How many seconds each phase gives or takes so that the signal falls back
    into step with its plan. */
module Compensation {
  import opened FixedWidth
  import opened SignalPlan
  import opened RunningSignal

  // -------------------------------------------------------------- the alignment

  /** Negative below half a cycle, positive from there on. */
  function Correction(start: int, cycleTime: int): int
    requires cycleTime > 0
  {
    var late := Rem(start, cycleTime);
    if late < cycleTime / 2 then -late else cycleTime - late
  }

  lemma RemIsMod(a: int, b: int)
    requires b > 0
    ensures (a - Rem(a, b)) % b == 0
  {
    var q := Quot(a, b);
    assert a - Rem(a, b) == b * q;
    MultipleMod(q, b);
  }

  lemma MultipleMod(q: int, b: int)
    requires b > 0
    ensures (b * q) % b == 0
  {
    DivModUnique(b * q, b, q, 0);
  }

  /** The corrected start is a whole number of cycles from the baseline, for any
      time of day, before or after the baseline. */
  lemma CorrectionAligns(start: int, cycleTime: int)
    requires cycleTime > 0
    ensures (start + Correction(start, cycleTime)) % cycleTime == 0
  {
    RemIsMod(start, cycleTime);
    var q := Quot(start, cycleTime);
    MultipleMod(q, cycleTime);
    MultipleMod(q + 1, cycleTime);
    assert cycleTime * (q + 1) == cycleTime * q + cycleTime;
  }

  /** It is shorter than a cycle, unless the cycle lasts a single second; and at
      most half a cycle, rounded up, when the start is not before the baseline. */
  lemma CorrectionIsShort(start: int, cycleTime: int)
    requires cycleTime > 0
    ensures Abs(Correction(start, cycleTime)) < cycleTime <==> cycleTime >= 2
    ensures start >= 0 ==> Abs(Correction(start, cycleTime)) <= (cycleTime + 1) / 2
  {
  }

  /** The result type has sixteen bits: the value that is returned aligns exactly
      when the correction fits them. */
  lemma ReturnedCorrectionAlignsIff(start: int, cycleTime: u16)
    requires cycleTime > 0
    ensures (start + I16(Correction(start, cycleTime))) % cycleTime == 0
            <==> Correction(start, cycleTime) < 0x8000
  {
    CorrectionAligns(start, cycleTime);
    CorrectionIsShort(start, cycleTime);
    var c := Correction(start, cycleTime);
    assert start + I16(c) == start + c || start + I16(c) == start + c - 0x1_0000;
    if c >= 0x8000 {
      WrapMisses(start + c, cycleTime);
    }
  }

  /** For a given cycle time every returned correction aligns, whatever the time of
      day, exactly when the cycle lasts no more than 0x8000 seconds. */
  lemma CycleTimeAlignsIff(cycleTime: u16)
    requires cycleTime > 0
    ensures (forall start: int :: (start + I16(Correction(start, cycleTime))) % cycleTime == 0)
            <==> cycleTime <= 0x8000
  {
    if cycleTime <= 0x8000 {
      forall start: int ensures (start + I16(Correction(start, cycleTime))) % cycleTime == 0 {
        CorrectionIsShort(start, cycleTime);
        ReturnedCorrectionAlignsIff(start, cycleTime);
      }
    } else {
      LongCycleMisses(cycleTime);
    }
  }

  /** With a longer cycle, the correction for a start 0x8000 seconds before the
      baseline wraps to its negative. */
  lemma LongCycleMisses(cycleTime: u16)
    requires cycleTime > 0x8000
    ensures Correction(-0x8000, cycleTime) == 0x8000
    ensures (-0x8000 + I16(Correction(-0x8000, cycleTime))) % cycleTime != 0
  {
    DivModUnique(0x8000, cycleTime, 0, 0x8000);
    ReturnedCorrectionAlignsIff(-0x8000, cycleTime);
  }

  /** With a cycle of one second the correction is always a whole cycle. */
  lemma OneSecondCycle(start: int)
    ensures Correction(start, 1) == 1
  {
  }

  lemma WrapMisses(whole: int, cycleTime: int)
    requires 0x8000 < cycleTime < 0x1_0000 && whole % cycleTime == 0
    ensures (whole - 0x1_0000) % cycleTime != 0
  {
    var q := whole / cycleTime;
    assert (q - 2) * cycleTime == q * cycleTime - 2 * cycleTime;
    assert whole == cycleTime * q + 0 && cycleTime * q == q * cycleTime;
    DivModUnique(whole - 0x1_0000, cycleTime, q - 2, 2 * cycleTime - 0x1_0000);
  }

  /** The correction of the time, counted from the baseline less the offset, at which
      the signal, left to itself, is going to start its next cycle. */
  method AlignmentCompensation(plan: Plan, n: u8, cycleTime: u16, since: int, phase: u8, step: u8, left: u16)
    returns (comp: i16, ghost arrival: nat)
    requires cycleTime > 0 && n <= PHASE_COUNT_MAX && 1 <= phase <= PHASE_COUNT_MAX && 1 <= step
    ensures NextCycleIn(plan, n, Position(phase, step, left), arrival)
    ensures comp == I16(Correction(since + arrival, cycleTime))
    ensures (since + arrival + comp) % cycleTime == 0 <==> Correction(since + arrival, cycleTime) < 0x8000
  {
    var secInDay := since;
    var i: int := phase;
    while i < n
      invariant phase <= i
      invariant secInDay + PhasesFrom(plan, n, i) == since + PhasesFrom(plan, n, phase)
    {
      secInDay := secInDay + (plan[i].preGreen + plan[i].pedGreenFlash + plan[i].pedRed
                              + plan[i].yellow + plan[i].allRed);
      i := i + 1;
    }
    i := step - 1;
    while i < 4
      invariant step - 1 <= i
      invariant secInDay + StepsFrom(plan[phase - 1], i)
             == since + PhasesFrom(plan, n, phase) + StepsFrom(plan[phase - 1], step - 1)
    {
      secInDay := secInDay + StepArr(plan[phase - 1])[i];
      i := i + 1;
    }
    secInDay := secInDay + left;
    var compTime := Rem(secInDay, cycleTime);
    comp := I16(if compTime < cycleTime / 2 then -compTime else cycleTime - compTime);
    arrival := Ahead(plan, n, Position(phase, step, left));
    ghost var moves := Arrives(plan, n, Position(phase, step, left));
    ReturnedCorrectionAlignsIff(since + arrival, cycleTime);
  }

  // ------------------------------------------------------------ the cycle split

  function Sum(t: seq<int>): int {
    if t == [] then 0 else Sum(t[..|t| - 1]) + t[|t| - 1]
  }

  lemma {:induction false} SumCons(x: int, t: seq<int>)
    ensures Sum([x] + t) == x + Sum(t)
    decreases |t|
  {
    if t == [] {
      assert ([x] + t)[..0] == [];
    } else {
      var k := |t| - 1;
      assert ([x] + t)[..|t|] == [x] + t[..k];
      SumCons(x, t[..k]);
    }
  }

  lemma {:induction false} SumPut(t: seq<int>, i: nat, v: int)
    requires i < |t|
    ensures Sum(t[i := v]) == Sum(t) - t[i] + v
    decreases |t|
  {
    var k := |t| - 1;
    if i < k {
      SumPut(t[..k], i, v);
      assert t[i := v][..k] == t[..k][i := v];
    } else {
      assert t[i := v][..k] == t[..k];
    }
  }

  /** The shares of k more cycles out of n, when `left` seconds are left. */
  function Shares(left: int, n: nat, k: nat): (s: seq<int>)
    requires n > 0
    ensures |s| == k
    decreases k
  {
    if k == 0 then []
    else [Quot(left, n)] + Shares(left - Quot(left, n), n, k - 1)
  }

  /** What each cycle gets; the first takes what the others leave. */
  function Split(total: int, n: nat): (s: seq<int>)
    requires n > 0
    ensures |s| == n
  {
    var shares := Shares(total, n, n - 1);
    [total - Sum(shares)] + shares
  }

  /** x does not point the other way than y. */
  predicate Along(x: int, y: int) {
    (y > 0 ==> x >= 0) && (y < 0 ==> x <= 0) && (y == 0 ==> x == 0)
  }

  lemma {:induction false} SharesShape(left: int, n: nat, k: nat)
    requires k < n
    ensures var s := Shares(left, n, k);
            && Along(left - Sum(s), left)
            && (forall i | 0 <= i < k :: Along(s[i], left) && Abs(s[i]) <= Abs(Quot(left, n)))
            && (forall i | 0 < i < k :: Abs(s[i]) <= Abs(s[i - 1]))
    decreases k
  {
    if k > 0 {
      var rest := left - Quot(left, n);
      QuotShrinks(left, n);
      SharesShape(rest, n, k - 1);
      SumCons(Quot(left, n), Shares(rest, n, k - 1));
    }
  }

  lemma QuotShrinks(left: int, n: nat)
    requires n >= 2
    ensures var q := Quot(left, n);
            && Along(q, left) && Along(left - q, left)
            && Abs(Quot(left - q, n)) <= Abs(q)
  {
    var m := Abs(left);
    QuotWithin(m, n);
    QuotMonotone(m - m / n, m, n);
  }

  lemma QuotWithin(m: nat, n: nat)
    requires n > 0
    ensures 0 <= m / n <= m
  {
    var q := m / n;
    assert m == n * q + m % n;
    if q > 0 {
      ProductGrows(1, n, q);
    }
  }

  lemma QuotMonotone(a: int, b: int, n: nat)
    requires n > 0 && 0 <= a <= b
    ensures a / n <= b / n
  {
    assert a == n * (a / n) + a % n && b == n * (b / n) + b % n;
    ProductGrows(b / n + 1, a / n, n);
    assert (b / n + 1) * n == n * (b / n) + n;
  }

  /** The parts add up to the total, none points the other way, and from the
      second cycle on they do not grow. */
  lemma SplitShape(total: int, n: nat)
    requires n > 0
    ensures var s := Split(total, n);
            && Sum(s) == total
            && (forall i | 0 <= i < n :: Along(s[i], total))
            && (forall i | 1 < i < n :: Abs(s[i]) <= Abs(s[i - 1]))
  {
    var shares := Shares(total, n, n - 1);
    SharesShape(total, n, n - 1);
    SumCons(total - Sum(shares), shares);
  }

  predicate NearEqual(s: seq<int>) {
    forall i, j | 0 <= i < |s| && 0 <= j < |s| :: s[i] - s[j] <= 1
  }

  lemma SplitNearEqualUpToTwo(total: int, n: nat)
    requires 1 <= n <= 2
    ensures NearEqual(Split(total, n))
  {
    if n == 2 {
      var q := Quot(total, 2);
      assert Shares(total - q, 2, 0) == [];
      assert Shares(total, 2, 1) == [q];
      assert Sum([q]) == q by { SumCons(q, []); }
      assert Split(total, 2) == [total - q, q];
    }
  }

  function Negated(s: seq<int>): seq<int> {
    seq(|s|, i requires 0 <= i < |s| => -s[i])
  }

  lemma {:induction false} SumNegated(s: seq<int>)
    ensures Sum(Negated(s)) == -Sum(s)
    decreases |s|
  {
    if s != [] {
      var k := |s| - 1;
      SumNegated(s[..k]);
      assert Negated(s)[..k] == Negated(s[..k]);
    }
  }

  lemma {:induction false} SharesNegated(left: int, n: nat, k: nat)
    requires n > 0
    ensures Shares(-left, n, k) == Negated(Shares(left, n, k))
    decreases k
  {
    if k > 0 {
      var q := Quot(left, n);
      assert Quot(-left, n) == -q;
      SharesNegated(left - q, n, k - 1);
      assert -left - -q == -(left - q);
    }
  }

  lemma SplitNegated(total: int, n: nat)
    requires n > 0
    ensures Split(-total, n) == Negated(Split(total, n))
  {
    SharesNegated(total, n, n - 1);
    var shares := Shares(total, n, n - 1);
    SumNegated(shares);
    assert Split(-total, n) == [-(total - Sum(shares))] + Negated(shares);
    assert Negated([total - Sum(shares)] + shares) == [-(total - Sum(shares))] + Negated(shares);
  }

  predicate AllAre(s: seq<int>, q: int) {
    forall i | 0 <= i < |s| :: s[i] == q
  }

  lemma OneTimeMore(k: int, q: int)
    ensures k * q == (k - 1) * q + q
  {
  }

  /** If k shares in a row are all q, each took q from what was left. */
  lemma {:induction false} EqualShares(left: int, n: nat, k: nat, q: int)
    requires n > 0 && k > 0 && AllAre(Shares(left, n, k), q)
    ensures Quot(left - (k - 1) * q, n) == q && Sum(Shares(left, n, k)) == k * q
    decreases k
  {
    var s := Shares(left, n, k);
    SumCons(s[0], s[1..]);
    assert s[1..] == Shares(left - q, n, k - 1);
    OneTimeMore(k, q);
    OneTimeMore(k - 1, q);
    if k > 1 {
      assert forall i | 0 <= i < k - 1 :: s[1..][i] == s[i + 1];
      EqualShares(left - q, n, k - 1, q);
    }
  }

  lemma SplitTail(total: nat, n: nat, i: nat)
    requires n >= 2 && i < n - 1
    ensures Split(total, n)[i + 1] == Shares(total, n, n - 1)[i] <= total / n
    ensures Shares(total, n, n - 1)[0] == total / n
  {
    SharesShape(total, n, n - 1);
  }

  lemma NearEqualAt(s: seq<int>, i: nat, j: nat)
    requires NearEqual(s) && i < |s| && j < |s|
    ensures s[i] - s[j] <= 1
  {
  }

  /** Parts of zero leave all to the first. */
  lemma SplitOfFew(total: nat, n: nat)
    requires n >= 3 && NearEqual(Split(total, n)) && total < n
    ensures total <= 1
  {
    ZeroShares(total, n, n - 1);
    SplitTail(total, n, 0);
    DivModUnique(total, n, 0, total);
    NearEqualAt(Split(total, n), 0, 1);
  }

  lemma SplitOfEqual(total: nat, n: nat, q: nat)
    requires n >= 3 && NearEqual(Split(total, n)) && q == total / n >= 1
    requires AllAre(Shares(total, n, n - 1), q)
    ensures n == 3 && total == 4
  {
    var k := n - 1;
    EqualShares(total, n, k, q);
    SplitTail(total, n, 0);
    NearEqualAt(Split(total, n), 0, 1);
    EvenSharesOnlyOfFour(total, n, k, q);
  }

  /** From three cycles on, the parts of a non-negative total are near-equal only
      for totals 0 and 1, and for 4 seconds over three cycles. */
  lemma SplitOfPositive(total: nat, n: nat)
    requires n >= 3 && NearEqual(Split(total, n))
    ensures total <= 1 || (n == 3 && total == 4)
  {
    var q := total / n;
    if total < n {
      SplitOfFew(total, n);
    } else if !AllAre(Shares(total, n, n - 1), q) {
      var shares := Shares(total, n, n - 1);
      var i :| 0 <= i < |shares| && shares[i] != q;
      SplitTail(total, n, i);
      SharesUneven(total, n, i);
    } else {
      assert q >= 1;
      SplitOfEqual(total, n, q);
    }
  }

  lemma UnevenSum(s: seq<int>, q: int, i: nat)
    requires NearEqual(s) && i < |s| && s[i] < q
    ensures Sum(s) < q * |s|
  {
    forall j | 0 <= j < |s| ensures s[j] <= q {
      assert s[j] - s[i] <= 1;
    }
    SumBelow(s, q, i);
  }

  lemma SharesUneven(total: nat, n: nat, i: nat)
    requires n >= 3 && i < n - 1 && Shares(total, n, n - 1)[i] < total / n
    ensures !NearEqual(Split(total, n))
  {
    var s, q := Split(total, n), total / n;
    SplitShape(total, n);
    assert s[i + 1] == Shares(total, n, n - 1)[i];
    assert q * n <= total by { assert total == n * q + total % n && n * q == q * n; }
    if NearEqual(s) {
      UnevenSum(s, q, i + 1);
      assert false;
    }
  }

  lemma EvenSharesOnlyOfFour(total: nat, n: nat, k: nat, q: nat)
    requires n >= 3 && k == n - 1 && q == total / n >= 1
    requires total - k * q - q <= 1
    requires Quot(total - (k - 1) * q, n) == q
    ensures n == 3 && total == 4
  {
    TimesLess(n, q);
    assert total == n * q + total % n;
    var left := 2 * q + total % n;
    assert left == total - (n - 2) * q;
    QuotTimes(left, n);
    ProductOne(n - 2, q);
  }

  lemma TimesLess(n: nat, q: nat)
    ensures (n - 1) * q == n * q - q && (n - 2) * q == n * q - 2 * q
  {
  }

  lemma QuotTimes(left: nat, n: nat)
    requires n > 0
    ensures n * Quot(left, n) <= left
  {
    assert left == n * (left / n) + left % n;
  }

  lemma ProductOne(m: nat, q: nat)
    requires m >= 1 && q >= 1 && m * q <= 1
    ensures m == 1 && q == 1
  {
    if m > 1 {
      ProductGrows(2, m, q);
    }
  }

  lemma {:induction false} ZeroShares(left: nat, n: nat, k: nat)
    requires left < n
    ensures Sum(Shares(left, n, k)) == 0
    decreases k
  {
    if k > 0 {
      assert Quot(left, n) == 0 by { DivModUnique(left, n, 0, left); }
      ZeroShares(left, n, k - 1);
      SumCons(0, Shares(left, n, k - 1));
    }
  }

  /** A sum of values up to q, one of them smaller, stays below q times their
      number. */
  lemma {:induction false} SumBelow(s: seq<int>, q: int, at: int)
    requires forall i | 0 <= i < |s| :: s[i] <= q
    ensures Sum(s) <= q * |s|
    ensures 0 <= at < |s| && s[at] < q ==> Sum(s) < q * |s|
    decreases |s|
  {
    if s != [] {
      var k := |s| - 1;
      SumBelow(s[..k], q, at);
      assert q * |s| == q * k + q;
    }
  }

  /** Exactly when the split is the even one that it is meant to be. */
  lemma SplitNearEqualIff(total: int, n: nat)
    requires n >= 3
    ensures NearEqual(Split(total, n)) <==> Abs(total) <= 1 || (n == 3 && Abs(total) == 4)
  {
    var t := Abs(total);
    SplitOfNatIff(t, n);
    if total < 0 {
      MirroredSplit(t, n);
    }
  }

  lemma MirroredSplit(total: int, n: nat)
    requires n > 0
    ensures NearEqual(Split(-total, n)) <==> NearEqual(Split(total, n))
  {
    SplitNegated(total, n);
    NearEqualNegated(Split(total, n));
  }

  lemma NearEqualNegated(s: seq<int>)
    ensures NearEqual(Negated(s)) <==> NearEqual(s)
  {
    var r := Negated(s);
    if NearEqual(s) {
      forall i, j | 0 <= i < |s| && 0 <= j < |s| ensures r[i] - r[j] <= 1 {
        assert s[j] - s[i] <= 1;
      }
    }
    if NearEqual(r) {
      forall i, j | 0 <= i < |s| && 0 <= j < |s| ensures s[i] - s[j] <= 1 {
        assert r[j] - r[i] <= 1;
      }
    }
  }

  lemma SplitOfNatIff(total: nat, n: nat)
    requires n >= 3
    ensures NearEqual(Split(total, n)) <==> total <= 1 || (n == 3 && total == 4)
  {
    if total <= 1 {
      assert Quot(total, n) == 0 by { DivModUnique(total, n, 0, total); }
      SharesShape(total, n, n - 1);
      ZeroShares(total, n, n - 1);
      var s := Split(total, n);
      forall i | 0 < i < n ensures s[i] == 0 {
        assert s[i] == Shares(total, n, n - 1)[i - 1];
      }
      assert s[0] == total;
    } else if n == 3 && total == 4 {
      SplitOfFour();
    } else if NearEqual(Split(total, n)) {
      SplitOfPositive(total, n);
    }
  }

  lemma SplitOfFour()
    ensures Split(4, 3) == [2, 1, 1]
  {
    assert Shares(3, 3, 1) == [1] + Shares(2, 3, 0);
    assert Shares(4, 3, 2) == [1] + Shares(3, 3, 1);
    SumCons(1, [1]);
    SumCons(1, []);
    assert [1] + [1] == [1, 1] && [1] + [] == [1];
  }

  /** 90 seconds over three cycles become 40, 30 and 20. */
  lemma SplitOfNinety()
    ensures Split(90, 3) == [40, 30, 20]
  {
    assert Shares(60, 3, 1) == [20] + Shares(40, 3, 0);
    assert Shares(90, 3, 2) == [30] + Shares(60, 3, 1);
    SumCons(30, [20]);
    SumCons(20, []);
    assert [30] + [20] == [30, 20] && [20] + [] == [20];
  }

  method SplitOverCycles(total: i16, n: nat) returns (parts: array<int>)
    requires n >= 1
    ensures fresh(parts) && parts[..] == Split(total, n)
  {
    parts := new int[n](_ => 0);
    var rest: int := total;
    ghost var shares := Shares(total, n, n - 1);
    for i := 1 to n
      invariant forall j | 1 <= j < i :: parts[j] == shares[j - 1]
      invariant Shares(rest, n, n - i) == shares[i - 1..]
      invariant rest - Sum(Shares(rest, n, n - i)) == total - Sum(shares)
    {
      parts[i] := Quot(rest, n);
      SumCons(parts[i], Shares(rest - parts[i], n, n - i - 1));
      assert shares[i - 1..][0] == parts[i] && shares[i - 1..][1..] == shares[i..];
      rest := rest - parts[i];
    }
    parts[0] := rest;
    assert forall j | 0 <= j < n :: parts[j] == Split(total, n)[j];
  }
}
