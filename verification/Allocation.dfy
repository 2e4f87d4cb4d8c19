/** Spreading one cycle's correction over the phases: a pass by weight, then
    what is left over to the longest greens first. */
module Allocation {
  import opened FixedWidth
  import opened SignalPlan
  import opened Compensation
  import opened RunningSignal

  /** The first n phases have limits around their planned green. */
  predicate Sane(plan: Plan, n: nat) {
    n <= PHASE_COUNT_MAX && forall i | 0 <= i < n :: plan[i].minGreen <= plan[i].preGreen <= plan[i].maxGreen
  }

  /** Every adjusted green stays within its limits; unused phases stay at 0. */
  predicate Bounded(plan: Plan, n: nat, t: seq<int>) {
    && n <= PHASE_COUNT_MAX == |t|
    && (forall i | 0 <= i < n :: plan[i].minGreen <= plan[i].preGreen + t[i] <= plan[i].maxGreen)
    && (forall i | n <= i < |t| :: t[i] == 0)
  }

  /** No adjustment points the other way than the amount. */
  predicate AllAlong(t: seq<int>, amount: int) {
    forall i | 0 <= i < |t| :: Along(t[i], amount)
  }

  /** Phase i cannot go any further in the direction of the amount. */
  predicate AtBound(plan: Plan, t: seq<int>, i: nat, amount: int)
    requires i < |t| && i < PHASE_COUNT_MAX
  {
    plan[i].preGreen + t[i] == if amount > 0 then plan[i].maxGreen as int else plan[i].minGreen
  }

  /** The most that n phases can give (of the planned green) and take. */
  function RoomDown(plan: Plan, n: nat): int
    requires n <= PHASE_COUNT_MAX
  {
    if n == 0 then 0 else RoomDown(plan, n - 1) + plan[n - 1].preGreen - plan[n - 1].minGreen
  }

  function RoomUp(plan: Plan, n: nat): int
    requires n <= PHASE_COUNT_MAX
  {
    if n == 0 then 0 else RoomUp(plan, n - 1) + plan[n - 1].maxGreen - plan[n - 1].preGreen
  }

  /** The amount, as far as the limits allow it. */
  function Attainable(plan: Plan, n: nat, amount: int): int
    requires n <= PHASE_COUNT_MAX
  {
    if amount > RoomUp(plan, n) then RoomUp(plan, n)
    else if amount < -RoomDown(plan, n) then -RoomDown(plan, n)
    else amount
  }

  lemma {:induction false} SumOfZeros(t: seq<int>, k: nat)
    requires k <= |t| && forall i | k <= i < |t| :: t[i] == 0
    ensures Sum(t) == Sum(t[..k])
    decreases |t|
  {
    if k == |t| {
      assert t[..k] == t;
    } else {
      SumOfZeros(t[..|t| - 1], k);
      assert t[..|t| - 1][..k] == t[..k];
    }
  }

  lemma {:induction false} SumWithinRoom(plan: Plan, t: seq<int>, k: nat)
    requires k <= |t| && k <= PHASE_COUNT_MAX
    requires forall i | 0 <= i < k :: plan[i].minGreen <= plan[i].preGreen + t[i] <= plan[i].maxGreen
    ensures -RoomDown(plan, k) <= Sum(t[..k]) <= RoomUp(plan, k)
    ensures (forall i | 0 <= i < k :: AtBound(plan, t, i, 1)) ==> Sum(t[..k]) == RoomUp(plan, k)
    ensures (forall i | 0 <= i < k :: AtBound(plan, t, i, -1)) ==> Sum(t[..k]) == -RoomDown(plan, k)
    decreases k
  {
    if k > 0 {
      SumWithinRoom(plan, t, k - 1);
      assert t[..k][..k - 1] == t[..k - 1];
      if forall i | 0 <= i < k :: AtBound(plan, t, i, 1) {
        assert AtBound(plan, t, k - 1, 1);
      }
      if forall i | 0 <= i < k :: AtBound(plan, t, i, -1) {
        assert AtBound(plan, t, k - 1, -1);
      }
    }
  }

  /** Adjustments that all point one way are each at most as large as their sum. */
  lemma {:induction false} PartWithinSum(t: seq<int>, i: nat)
    requires i < |t| && (AllAlong(t, 1) || AllAlong(t, -1))
    ensures Abs(t[i]) <= Abs(Sum(t))
    ensures AllAlong(t, 1) ==> Sum(t) >= 0
    ensures AllAlong(t, -1) ==> Sum(t) <= 0
    decreases |t|
  {
    var k := |t| - 1;
    if k == 0 {
      assert t[..0] == [];
    } else {
      PartWithinSum(t[..k], if i < k then i else 0);
    }
  }

  /** What every pass keeps: the seconds already placed and the seconds left
      always add up to the whole. */
  ghost predicate Placed(plan: Plan, n: nat, t: seq<int>, left: int, whole: int) {
    && Sane(plan, n) && Bounded(plan, n, t)
    && AllAlong(t, whole) && Along(left, whole) && Abs(left) <= Abs(whole)
    && Sum(t) + left == whole
  }

  /** Moving some of what is left to one phase, within its limits. */
  lemma Place(plan: Plan, n: nat, t: seq<int>, left: int, whole: int, i: nat, comp: int)
    requires Placed(plan, n, t, left, whole) && i < n
    requires plan[i].minGreen <= plan[i].preGreen + t[i] + comp <= plan[i].maxGreen
    requires Along(comp, whole) && Along(left - comp, whole)
    ensures Placed(plan, n, t[i := t[i] + comp], left - comp, whole)
    ensures Abs(t[i] + comp) <= Abs(whole)
  {
    var now := t[i := t[i] + comp];
    SumPut(t, i, t[i] + comp);
    PartWithinSum(now, i);
  }

  function Ceil(x: real): int {
    -((-x).Floor)
  }

  /** A phase's share of the amount, rounded away from zero. */
  function Share(amount: int, weight: real): int {
    if amount > 0 then Ceil(amount as real * (weight / 100.0))
    else -Ceil((-amount) as real * (weight / 100.0))
  }

  lemma ShareShape(amount: int, weight: real)
    requires weight >= 0.0
    ensures Along(Share(amount, weight), amount)
    ensures weight == 100.0 ==> Share(amount, weight) == amount
    ensures weight == 0.0 ==> Share(amount, weight) == 0
  {
    var x := Abs(amount) as real * (weight / 100.0);
    assert x >= 0.0;
  }

  /** What is left of the amount when it is the turn of phase i. */
  function LeftAt(amount: int, was: seq<int>, t: seq<int>, i: nat): int
    requires i <= |t| == |was|
  {
    if i == 0 then amount else LeftAt(amount, was, t, i - 1) - (t[i - 1] - was[i - 1])
  }

  lemma {:induction false} LeftAtSame(amount: int, was: seq<int>, t: seq<int>, t': seq<int>, i: nat)
    requires i <= |t| == |t'| == |was| && t[..i] == t'[..i]
    ensures LeftAt(amount, was, t, i) == LeftAt(amount, was, t', i)
  {
    if i > 0 {
      assert t[..i][..i - 1] == t[..i - 1] && t'[..i][..i - 1] == t'[..i - 1];
      assert t[i - 1] == t[..i][i - 1] == t'[i - 1];
      LeftAtSame(amount, was, t, t', i - 1);
    }
  }

  /** A share, but no more than is left, cut so that the phase keeps its limits. */
  function Portion(plan: Plan, i: nat, was: int, amount: int, share: int, left: int): int
    requires i < PHASE_COUNT_MAX
  {
    var capped := if amount > 0 then Min(share, left) else -Min(-share, -left);
    var effect := plan[i].preGreen + was + capped;
    var cut := if effect < plan[i].minGreen then plan[i].minGreen
               else if effect > plan[i].maxGreen then plan[i].maxGreen else effect;
    cut - plan[i].preGreen - was
  }

  /** The least whole number of: the exact share rounded up, what is left, the room. */
  predicate LeastOf(exact: real, left: int, room: int, comp: int) {
    && comp <= left && comp <= room && comp as real < exact + 1.0
    && (comp == left || comp == room || exact <= comp as real)
  }

  lemma LeastOnce(exact: real, left: int, room: int, comp: int, comp': int)
    requires LeastOf(exact, left, room, comp) && LeastOf(exact, left, room, comp')
    ensures comp == comp'
  {
  }

  /** The way of the amount counts as positive. */
  function Toward(amount: int, x: int): int {
    if amount > 0 then x else -x
  }

  /** A weight is in hundredths of the amount. */
  function ExactShare(amount: int, weight: real): real {
    Toward(amount, amount) as real * weight / 100.0
  }

  /** How far a phase that has got so much already can still go that way. */
  function RoomLeft(p: PhasePlan, amount: int, was: int): int {
    if amount > 0 then p.maxGreen - (p.preGreen + was) else p.preGreen + was - p.minGreen
  }

  /** What one phase gets. */
  predicate IsPortion(p: PhasePlan, amount: int, weight: real, left: int, was: int, comp: int) {
    LeastOf(ExactShare(amount, weight), Toward(amount, left), RoomLeft(p, amount, was), Toward(amount, comp))
  }

  lemma CeilIs(x: real)
    ensures x <= Ceil(x) as real < x + 1.0
  {
  }

  lemma ShareIs(amount: int, weight: real)
    ensures ExactShare(amount, weight) <= Toward(amount, Share(amount, weight)) as real < ExactShare(amount, weight) + 1.0
  {
    var x := Toward(amount, amount) as real * (weight / 100.0);
    assert x == ExactShare(amount, weight);
    CeilIs(x);
  }

  lemma PortionIs(plan: Plan, n: nat, was: seq<int>, amount: int, weight: real, left: int, i: nat)
    requires Sane(plan, n) && Bounded(plan, n, was) && i < n && weight >= 0.0 && Along(left, amount)
    ensures IsPortion(plan[i], amount, weight, left, was[i], Portion(plan, i, was[i], amount, Share(amount, weight), left))
  {
    ShareIs(amount, weight);
    ShareShape(amount, weight);
  }

  /** The first k phases have each got their portion, the others nothing. */
  predicate Dealt(plan: Plan, weight: seq<real>, amount: int, was: seq<int>, t: seq<int>, k: nat)
    requires |was| == |t| == PHASE_COUNT_MAX == |weight| && k <= PHASE_COUNT_MAX
  {
    && (forall i | 0 <= i < k :: IsPortion(plan[i], amount, weight[i], LeftAt(amount, was, t, i), was[i], t[i] - was[i]))
    && (forall i | k <= i < PHASE_COUNT_MAX :: t[i] == was[i])
  }

  lemma DealtNext(plan: Plan, weight: seq<real>, amount: int, was: seq<int>, t: seq<int>, k: nat, v: int)
    requires |was| == |t| == PHASE_COUNT_MAX == |weight| && k < PHASE_COUNT_MAX
    requires Dealt(plan, weight, amount, was, t, k)
    requires IsPortion(plan[k], amount, weight[k], LeftAt(amount, was, t, k), was[k], v - was[k])
    ensures Dealt(plan, weight, amount, was, t[k := v], k + 1)
    ensures LeftAt(amount, was, t[k := v], k + 1) == LeftAt(amount, was, t, k) - (v - was[k])
  {
    forall i | 0 <= i <= k ensures LeftAt(amount, was, t[k := v], i) == LeftAt(amount, was, t, i) {
      LeftAtSame(amount, was, t[k := v], t, i);
    }
  }

  lemma NothingToGive(p: PhasePlan, amount: int, weight: real, was: int)
    requires weight >= 0.0 && RoomLeft(p, amount, was) >= 0
    ensures IsPortion(p, amount, weight, 0, was, 0)
  {
    assert Toward(amount, amount) as real * weight >= 0.0;
  }

  /** When nothing is left, the portions of the other phases are nothing. */
  lemma {:induction false} DealtOut(plan: Plan, n: nat, weight: seq<real>, amount: int, was: seq<int>, t: seq<int>, k: nat)
    requires |was| == |t| == PHASE_COUNT_MAX == |weight| && k <= n <= PHASE_COUNT_MAX
    requires Dealt(plan, weight, amount, was, t, k) && (k < n ==> LeftAt(amount, was, t, k) == 0)
    requires Bounded(plan, n, was) && forall i | 0 <= i < n :: weight[i] >= 0.0
    ensures Dealt(plan, weight, amount, was, t, n)
    decreases n - k
  {
    if k < n {
      NothingToGive(plan[k], amount, weight[k], was[k]);
      DealtNext(plan, weight, amount, was, t, k, t[k]);
      assert t[k := t[k]] == t;
      DealtOut(plan, n, weight, amount, was, t, k + 1);
    }
  }

  /** A portion keeps the limits and points the way of the amount. */
  lemma PortionShape(plan: Plan, n: nat, t: seq<int>, left: int, whole: int, i: nat, amount: int, share: int)
    requires Placed(plan, n, t, left, whole) && i < n && Along(share, amount) && Along(left, amount)
    requires Along(amount, whole) && amount != 0
    ensures var comp := Portion(plan, i, t[i], amount, share, left);
      && Along(comp, whole) && Along(left - comp, whole) && Along(left - comp, amount) && Abs(left - comp) <= Abs(left)
      && plan[i].minGreen <= plan[i].preGreen + t[i] + comp <= plan[i].maxGreen
      && (share == 0 ==> comp == 0)
      && (share == amount && Abs(left) <= Abs(amount) && left != comp ==> AtBound(plan, t[i := t[i] + comp], i, amount))
  {
    var comp := Portion(plan, i, t[i], amount, share, left);
    assert AllAlong(t, whole);
    assert Along(t[i], whole);
  }

  /** One turn of the loop. */
  method AllocatePhase(plan: Plan, n: nat, share: int, amount: i16, ghost whole: i16, i: nat, left: int, t: array<int>)
    returns (left': int)
    requires i < n <= PHASE_COUNT_MAX == t.Length && left != 0 && Along(left, amount) && Abs(left) <= Abs(amount)
    requires Along(share, amount) && Along(amount, whole) && Placed(plan, n, t[..], left, whole)
    modifies t
    ensures Placed(plan, n, t[..], left', whole) && Along(left', amount) && Abs(left') <= Abs(amount)
    ensures var comp := Portion(plan, i, old(t[i]), amount, share, left);
      t[..] == old(t[..])[i := old(t[i]) + comp] && left' == left - comp && (share == 0 ==> comp == 0)
    ensures share == amount ==> left' == 0 || AtBound(plan, t[..], i, amount)
  {
    PortionShape(plan, n, t[..], left, whole, i, amount, share);
    var comp := share;
    if amount > 0 {
      comp := if comp > left then left else comp;
    } else {
      comp := if comp < left then left else comp;
    }
    var effect := plan[i].preGreen + t[i] + comp;
    if effect < plan[i].minGreen {
      effect := plan[i].minGreen;
    } else if effect > plan[i].maxGreen {
      effect := plan[i].maxGreen;
    }
    comp := effect - plan[i].preGreen - t[i];
    Place(plan, n, t[..], left, whole, i, comp);
    ghost var now := t[..][i := t[i] + comp];
    t[i] := I16(t[i] + comp);
    assert t[..] == now;
    left' := left - comp;
  }

  /** Of the first k phases, one without a weight is as it was, and one that was
      offered everything leaves nothing or is at its bound; the others are as
      they were. */
  predicate Served(plan: Plan, weight: seq<real>, amount: int, was: seq<int>, t: seq<int>, left: int, k: nat)
    requires |was| == |t| == PHASE_COUNT_MAX == |weight| && k <= PHASE_COUNT_MAX
  {
    && (forall i | 0 <= i < PHASE_COUNT_MAX :: i >= k || weight[i] == 0.0 ==> t[i] == was[i])
    && (forall i | 0 <= i < k :: weight[i] == 100.0 ==> left == 0 || AtBound(plan, t, i, amount))
  }

  lemma ServedNext(plan: Plan, weight: seq<real>, amount: int, was: seq<int>, t: seq<int>, left: int, k: nat,
                   v: int, left': int)
    requires |was| == |t| == PHASE_COUNT_MAX == |weight| && k < PHASE_COUNT_MAX
    requires Served(plan, weight, amount, was, t, left, k) && left != 0
    requires weight[k] == 0.0 ==> v == t[k]
    requires weight[k] == 100.0 ==> left' == 0 || AtBound(plan, t[k := v], k, amount)
    ensures Served(plan, weight, amount, was, t[k := v], left', k + 1)
  {
    forall i | 0 <= i < k && weight[i] == 100.0 ensures AtBound(plan, t[k := v], i, amount) {
      assert AtBound(plan, t, i, amount);
    }
  }

  /** Everything that the loop keeps. */
  ghost predicate Weighing(plan: Plan, n: nat, weight: seq<real>, amount: int, whole: int,
                           was: seq<int>, t: seq<int>, left: int, k: nat)
    requires |was| == |t| == PHASE_COUNT_MAX == |weight| && k <= PHASE_COUNT_MAX
  {
    && Placed(plan, n, t, left, whole)
    && Along(left, amount) && Abs(left) <= Abs(amount) && Along(amount, whole)
    && Dealt(plan, weight, amount, was, t, k) && left == LeftAt(amount, was, t, k)
    && Served(plan, weight, amount, was, t, left, k)
  }

  method WeighPhase(plan: Plan, n: nat, weight: seq<real>, amount: i16, ghost whole: i16, ghost was: seq<int>,
                    i: nat, left: int, t: array<int>)
    returns (left': int)
    requires i < n <= PHASE_COUNT_MAX == |weight| && |was| == t.Length == PHASE_COUNT_MAX
    requires weight[i] >= 0.0 && left != 0 && Weighing(plan, n, weight, amount, whole, was, t[..], left, i)
    modifies t
    ensures Weighing(plan, n, weight, amount, whole, was, t[..], left', i + 1)
  {
    ghost var before := t[..];
    ShareShape(amount, weight[i]);
    PortionIs(plan, n, before, amount, weight[i], left, i);
    left' := AllocatePhase(plan, n, Share(amount, weight[i]), amount, whole, i, left, t);
    DealtNext(plan, weight, amount, was, before, i, t[i]);
    ServedNext(plan, weight, amount, was, before, left, i, t[i], left');
  }

  method AllocateByWeight(plan: Plan, n: nat, weight: seq<real>, amount: i16, ghost whole: i16, t: array<int>)
    returns (left: int)
    requires n <= PHASE_COUNT_MAX == |weight| && t.Length == PHASE_COUNT_MAX
    requires forall i | 0 <= i < n :: weight[i] >= 0.0
    requires Placed(plan, n, t[..], amount, whole)
    modifies t
    ensures Placed(plan, n, t[..], left, whole)
    ensures Dealt(plan, weight, amount, old(t[..]), t[..], n)
    ensures Served(plan, weight, amount, old(t[..]), t[..], left, n)
  {
    ghost var was := t[..];
    left := amount;
    var i := 0;
    while i < n && left != 0
      invariant 0 <= i <= n && Weighing(plan, n, weight, amount, whole, was, t[..], left, i)
    {
      left := WeighPhase(plan, n, weight, amount, whole, was, i, left, t);
      i := i + 1;
    }
    DealtOut(plan, n, weight, amount, was, t[..], i);
    if left == 0 {
      ServedOut(plan, n, weight, amount, was, t[..], i);
    }
  }

  lemma ServedOut(plan: Plan, n: nat, weight: seq<real>, amount: int, was: seq<int>, t: seq<int>, k: nat)
    requires |was| == |t| == PHASE_COUNT_MAX == |weight| && k <= n <= PHASE_COUNT_MAX
    requires Served(plan, weight, amount, was, t, 0, k)
    ensures Served(plan, weight, amount, was, t, 0, n)
  {
  }

  // -------------------------------------------------------- what the weights mean

  /** So many hundredths of the amount, rounded away from zero to a whole second. */
  predicate RoundsAway(amount: int, weight: real, comp: int) {
    var exact := amount as real * weight / 100.0;
    && (amount > 0 ==> exact <= comp as real < exact + 1.0)
    && (amount < 0 ==> exact - 1.0 < comp as real <= exact)
  }

  /** A phase that takes neither all that is left nor all of its room gets its exact
      share, rounded up to a whole second. */
  lemma FreePortion(plan: Plan, weight: seq<real>, amount: int, was: seq<int>, t: seq<int>, n: nat, i: nat)
    requires |was| == |t| == PHASE_COUNT_MAX == |weight| && i < n <= PHASE_COUNT_MAX
    requires Dealt(plan, weight, amount, was, t, n)
    requires t[i] - was[i] != LeftAt(amount, was, t, i)
    requires plan[i].minGreen < plan[i].preGreen + t[i] < plan[i].maxGreen
    ensures RoundsAway(amount, weight[i], t[i] - was[i])
  {
    FreeAlone(plan[i], amount, weight[i], LeftAt(amount, was, t, i), was[i], t[i] - was[i]);
  }

  lemma FreeAlone(p: PhasePlan, amount: int, weight: real, left: int, was: int, comp: int)
    requires IsPortion(p, amount, weight, left, was, comp)
    requires comp != left && p.minGreen < p.preGreen + was + comp < p.maxGreen
    ensures RoundsAway(amount, weight, comp)
  {
    FreeLeast(ExactShare(amount, weight), Toward(amount, left), RoomLeft(p, amount, was), Toward(amount, comp));
    ExactIs(amount, weight, amount as real * weight / 100.0);
    assert (-comp) as real == -(comp as real);
  }

  lemma ExactIs(amount: int, weight: real, exact: real)
    requires exact == amount as real * weight / 100.0
    ensures ExactShare(amount, weight) == if amount > 0 then exact else -exact
  {
    assert (-amount) as real == -(amount as real);
    assert (-amount) as real * weight == -(amount as real * weight);
  }

  lemma FreeLeast(exact: real, left: int, room: int, comp: int)
    requires LeastOf(exact, left, room, comp) && comp != left && comp != room
    ensures exact <= comp as real < exact + 1.0
  {
  }

  /** Two phases of equal weight get equal portions if and only if the second finds
      as much left and as much room as the first got, and is not offered more. */
  lemma EqualWeightsIff(plan: Plan, weight: seq<real>, amount: int, was: seq<int>, t: seq<int>, n: nat, i: nat, j: nat)
    requires |was| == |t| == PHASE_COUNT_MAX == |weight| && i < j < n <= PHASE_COUNT_MAX
    requires Dealt(plan, weight, amount, was, t, n) && weight[i] == weight[j]
    ensures var portion := Toward(amount, t[i] - was[i]);
            var left, room := Toward(amount, LeftAt(amount, was, t, j)), RoomLeft(plan[j], amount, was[j]);
            t[i] - was[i] == t[j] - was[j]
            <==> portion <= left && portion <= room
                 && (portion == left || portion == room || ExactShare(amount, weight[j]) <= portion as real)
  {
    var portion := Toward(amount, t[i] - was[i]);
    var left, room := Toward(amount, LeftAt(amount, was, t, j)), RoomLeft(plan[j], amount, was[j]);
    assert IsPortion(plan[i], amount, weight[i], LeftAt(amount, was, t, i), was[i], t[i] - was[i]);
    assert IsPortion(plan[j], amount, weight[j], LeftAt(amount, was, t, j), was[j], t[j] - was[j]);
    if LeastOf(ExactShare(amount, weight[j]), left, room, portion) {
      LeastOnce(ExactShare(amount, weight[j]), left, room, portion, Toward(amount, t[j] - was[j]));
    }
  }

  /** What is left is the amount less what the phases before have got. */
  lemma {:induction false} LeftAtIs(amount: int, was: seq<int>, t: seq<int>, i: nat)
    requires i <= |t| == |was|
    ensures LeftAt(amount, was, t, i) == amount - (Sum(t[..i]) - Sum(was[..i]))
  {
    if i == 0 {
      assert t[..0] == [] == was[..0];
    } else {
      LeftAtIs(amount, was, t, i - 1);
      assert t[..i][..i - 1] == t[..i - 1] && was[..i][..i - 1] == was[..i - 1];
    }
  }

  predicate HasRoom(plan: Plan, amount: int, was: seq<int>, n: nat)
    requires n <= PHASE_COUNT_MAX == |was|
  {
    forall i | 0 <= i < n :: RoomLeft(plan[i], amount, was[i]) >= 0
  }

  /** Phases without a weight leave what is left as it is. */
  lemma {:induction false} WeightlessPass(plan: Plan, weight: seq<real>, amount: int, was: seq<int>, t: seq<int>, n: nat,
                                          low: nat, high: nat)
    requires |was| == |t| == PHASE_COUNT_MAX == |weight| && low <= high <= n <= PHASE_COUNT_MAX
    requires Dealt(plan, weight, amount, was, t, n) && HasRoom(plan, amount, was, n)
    requires Toward(amount, LeftAt(amount, was, t, low)) >= 0
    requires forall m | low <= m < high :: weight[m] == 0.0
    ensures LeftAt(amount, was, t, high) == LeftAt(amount, was, t, low)
    decreases high - low
  {
    if low < high {
      WeightlessPass(plan, weight, amount, was, t, n, low, high - 1);
      var m := high - 1;
      assert IsPortion(plan[m], amount, weight[m], LeftAt(amount, was, t, m), was[m], t[m] - was[m]);
      ZeroPortion(plan[m], amount, LeftAt(amount, was, t, m), was[m], t[m] - was[m]);
    }
  }

  lemma ZeroPortion(p: PhasePlan, amount: int, left: int, was: int, comp: int)
    requires IsPortion(p, amount, 0.0, left, was, comp) && Toward(amount, left) >= 0 && RoomLeft(p, amount, was) >= 0
    ensures comp == 0
  {
    assert ExactShare(amount, 0.0) == 0.0;
  }

  /** Two phases with half of the weight each and room for all of it: the first gets
      the larger half, the second the rest, and they are equal if and only if the
      amount is even. */
  lemma HalvesIff(plan: Plan, weight: seq<real>, amount: int, was: seq<int>, t: seq<int>, n: nat, i: nat, j: nat)
    requires |was| == |t| == PHASE_COUNT_MAX == |weight| && i < j < n <= PHASE_COUNT_MAX
    requires Dealt(plan, weight, amount, was, t, n) && HasRoom(plan, amount, was, n)
    requires weight[i] == weight[j] == 50.0 && forall m | 0 <= m < n && m != i && m != j :: weight[m] == 0.0
    requires RoomLeft(plan[i], amount, was[i]) >= Abs(amount) && RoomLeft(plan[j], amount, was[j]) >= Abs(amount)
    ensures (t[i] - was[i]) + (t[j] - was[j]) == amount
    ensures Abs(t[i] - was[i]) == (Abs(amount) + 1) / 2
    ensures t[i] - was[i] == t[j] - was[j] <==> amount % 2 == 0
  {
    FirstTurn(plan, weight, amount, was, t, n, i);
    SecondTurn(plan, weight, amount, was, t, n, i, j);
    SecondHalf(amount, t[i] - was[i], t[j] - was[j]);
  }

  lemma FirstTurn(plan: Plan, weight: seq<real>, amount: int, was: seq<int>, t: seq<int>, n: nat, i: nat)
    requires |was| == |t| == PHASE_COUNT_MAX == |weight| && i < n <= PHASE_COUNT_MAX
    requires Dealt(plan, weight, amount, was, t, n) && HasRoom(plan, amount, was, n)
    requires weight[i] == 50.0 && forall m | 0 <= m < i :: weight[m] == 0.0
    requires RoomLeft(plan[i], amount, was[i]) >= Abs(amount)
    ensures LeftAt(amount, was, t, i) == amount && Toward(amount, t[i] - was[i]) == (Abs(amount) + 1) / 2
  {
    WeightlessPass(plan, weight, amount, was, t, n, 0, i);
    HalfPortion(plan, weight, amount, was, t, n, i);
    FirstHalf(amount, t[i] - was[i]);
  }

  lemma SecondTurn(plan: Plan, weight: seq<real>, amount: int, was: seq<int>, t: seq<int>, n: nat, i: nat, j: nat)
    requires |was| == |t| == PHASE_COUNT_MAX == |weight| && i < j < n <= PHASE_COUNT_MAX
    requires Dealt(plan, weight, amount, was, t, n) && HasRoom(plan, amount, was, n)
    requires weight[j] == 50.0 && forall m | i < m < j :: weight[m] == 0.0
    requires RoomLeft(plan[j], amount, was[j]) >= Abs(amount)
    requires LeftAt(amount, was, t, i) == amount && Toward(amount, t[i] - was[i]) == (Abs(amount) + 1) / 2
    ensures Toward(amount, t[j] - was[j]) == Min((Abs(amount) + 1) / 2, Toward(amount, amount - (t[i] - was[i])))
  {
    assert LeftAt(amount, was, t, i + 1) == amount - (t[i] - was[i]);
    WeightlessPass(plan, weight, amount, was, t, n, i + 1, j);
    HalfPortion(plan, weight, amount, was, t, n, j);
  }

  lemma FirstHalf(amount: int, c: int)
    requires Toward(amount, c) == Min((Abs(amount) + 1) / 2, Toward(amount, amount))
    ensures Toward(amount, c) == (Abs(amount) + 1) / 2
  {
  }

  lemma SecondHalf(amount: int, c: int, d: int)
    requires Toward(amount, c) == (Abs(amount) + 1) / 2
    requires Toward(amount, d) == Min((Abs(amount) + 1) / 2, Toward(amount, amount - c))
    ensures c + d == amount && Abs(c) == (Abs(amount) + 1) / 2 && (c == d <==> amount % 2 == 0)
  {
  }

  lemma HalfPortion(plan: Plan, weight: seq<real>, amount: int, was: seq<int>, t: seq<int>, n: nat, i: nat)
    requires |was| == |t| == PHASE_COUNT_MAX == |weight| && i < n <= PHASE_COUNT_MAX
    requires Dealt(plan, weight, amount, was, t, n) && weight[i] == 50.0
    requires Toward(amount, LeftAt(amount, was, t, i)) <= Abs(amount) <= RoomLeft(plan[i], amount, was[i])
    ensures Toward(amount, t[i] - was[i]) == Min((Abs(amount) + 1) / 2, Toward(amount, LeftAt(amount, was, t, i)))
  {
    assert IsPortion(plan[i], amount, weight[i], LeftAt(amount, was, t, i), was[i], t[i] - was[i]);
    HalfRoundedUp(Abs(amount), Toward(amount, LeftAt(amount, was, t, i)), RoomLeft(plan[i], amount, was[i]),
                  Toward(amount, t[i] - was[i]));
  }

  lemma HalfRoundedUp(amount: nat, left: int, room: int, comp: int)
    requires LeastOf(amount as real * 50.0 / 100.0, left, room, comp) && left <= amount <= room
    ensures comp == Min((amount + 1) / 2, left)
  {
    assert amount == 2 * (amount / 2) + amount % 2;
  }

  function WeightUpTo(weight: seq<real>, k: nat): real
    requires k <= |weight|
  {
    if k == 0 then 0.0 else WeightUpTo(weight, k - 1) + weight[k - 1]
  }

  /** Every phase has room for its share. */
  predicate Roomy(plan: Plan, weight: seq<real>, amount: int, was: seq<int>, n: nat)
    requires n <= PHASE_COUNT_MAX == |was| == |weight|
  {
    forall i | 0 <= i < n :: weight[i] >= 0.0 && ExactShare(amount, weight[i]) <= RoomLeft(plan[i], amount, was[i]) as real
  }

  /** With room for all shares, what is left before phase k is nothing, or at most
      the weight still to come. */
  lemma {:induction false} LeftBelowWeight(plan: Plan, weight: seq<real>, amount: int, was: seq<int>, t: seq<int>,
            n: nat, k: nat)
    requires |was| == |t| == PHASE_COUNT_MAX == |weight| && k <= n <= PHASE_COUNT_MAX
    requires Dealt(plan, weight, amount, was, t, n) && Roomy(plan, weight, amount, was, n)
    ensures var left := Toward(amount, LeftAt(amount, was, t, k));
            0 <= left && (left == 0 || left as real <= ExactShare(amount, 100.0 - WeightUpTo(weight, k)))
    decreases k
  {
    if k > 0 {
      LeftBelowWeight(plan, weight, amount, was, t, n, k - 1);
      assert IsPortion(plan[k - 1], amount, weight[k - 1], LeftAt(amount, was, t, k - 1), was[k - 1], t[k - 1] - was[k - 1]);
      SharesAdd(amount, 100.0 - WeightUpTo(weight, k - 1), weight[k - 1]);
      NoShare(amount, -weight[k - 1]);
      SharesAdd(amount, 0.0, weight[k - 1]);
      LeftAfter(ExactShare(amount, 100.0 - WeightUpTo(weight, k - 1)), ExactShare(amount, weight[k - 1]),
                Toward(amount, LeftAt(amount, was, t, k - 1)), RoomLeft(plan[k - 1], amount, was[k - 1]),
                Toward(amount, t[k - 1] - was[k - 1]));
    }
  }

  lemma LeftAfter(still: real, exact: real, left: int, room: int, comp: int)
    requires LeastOf(exact, left, room, comp) && 0.0 <= exact <= room as real
    requires 0 <= left && (left == 0 || left as real <= still)
    ensures 0 <= left - comp && (left == comp || (left - comp) as real <= still - exact)
  {
  }

  lemma SharesAdd(amount: int, x: real, y: real)
    ensures ExactShare(amount, x - y) == ExactShare(amount, x) - ExactShare(amount, y)
  {
    var m := Toward(amount, amount) as real;
    assert m * (x - y) == m * x - m * y;
  }

  /** With room for all shares and weights that add up to a hundred at least, nothing
      is left, and a phase that does not take the last of it gets its share to
      within a second. */
  lemma HundredLeavesNothing(plan: Plan, weight: seq<real>, amount: int, was: seq<int>, t: seq<int>, n: nat)
    requires |was| == |t| == PHASE_COUNT_MAX == |weight| && n <= PHASE_COUNT_MAX
    requires Dealt(plan, weight, amount, was, t, n) && Roomy(plan, weight, amount, was, n)
    requires WeightUpTo(weight, n) >= 100.0
    ensures LeftAt(amount, was, t, n) == 0
    ensures forall i | 0 <= i < n && LeftAt(amount, was, t, i + 1) != 0 ::
              ExactShare(amount, weight[i]) <= Toward(amount, t[i] - was[i]) as real < ExactShare(amount, weight[i]) + 1.0
  {
    LeftBelowWeight(plan, weight, amount, was, t, n, n);
    NoShare(amount, 100.0 - WeightUpTo(weight, n));
    forall i | 0 <= i < n && LeftAt(amount, was, t, i + 1) != 0
      ensures ExactShare(amount, weight[i]) <= Toward(amount, t[i] - was[i]) as real < ExactShare(amount, weight[i]) + 1.0
    {
      assert IsPortion(plan[i], amount, weight[i], LeftAt(amount, was, t, i), was[i], t[i] - was[i]);
      RoomyLeast(ExactShare(amount, weight[i]), Toward(amount, LeftAt(amount, was, t, i)),
                 RoomLeft(plan[i], amount, was[i]), Toward(amount, t[i] - was[i]));
    }
  }

  lemma NoShare(amount: int, weight: real)
    requires weight <= 0.0
    ensures ExactShare(amount, weight) <= 0.0
  {
    assert Toward(amount, amount) as real * weight <= 0.0;
  }

  lemma RoomyLeast(exact: real, left: int, room: int, comp: int)
    requires LeastOf(exact, left, room, comp) && comp != left && exact <= room as real
    ensures exact <= comp as real < exact + 1.0
  {
  }

  // ------------------------------------------------------------ the residual pass

  /** Phase a comes before phase b: longer planned green first, then lower index. */
  predicate Precedes(plan: Plan, a: nat, b: nat)
    requires a < PHASE_COUNT_MAX && b < PHASE_COUNT_MAX
  {
    plan[a].preGreen > plan[b].preGreen || (plan[a].preGreen == plan[b].preGreen && a < b)
  }

  /** `order` lists each of the first n phases; `place` says where.  With n
      entries for n phases, none is listed twice. */
  predicate Lists(order: seq<int>, place: seq<int>, n: nat) {
    && |order| == |place| == n
    && (forall a | 0 <= a < n :: 0 <= order[a] < n)
    && (forall i | 0 <= i < n :: 0 <= place[i] < n && order[place[i]] == i)
  }

  predicate Sorted(plan: Plan, order: seq<int>) {
    && (forall a | 0 <= a < |order| :: 0 <= order[a] < PHASE_COUNT_MAX)
    && forall a, b | 0 <= a < b < |order| :: Precedes(plan, order[a], order[b])
  }

  /** The state of the bubble sort after the first j comparisons of a pass that
      still has m places to sort: nothing after a place m or later is longer, the
      phase at place j is the shortest so far, equal greens keep their order. */
  predicate Bubbled(plan: Plan, order: seq<int>, m: nat, j: nat) {
    && j < m <= |order|
    && (forall a | 0 <= a < |order| :: 0 <= order[a] < PHASE_COUNT_MAX)
    && (forall a, b | 0 <= a < b < |order| ::
          && (m <= b || b == j ==> plan[order[a]].preGreen >= plan[order[b]].preGreen)
          && (plan[order[a]].preGreen == plan[order[b]].preGreen ==> order[a] < order[b]))
  }

  function Swap(s: seq<int>, j: nat): seq<int>
    requires j + 1 < |s|
  {
    s[j := s[j + 1]][j + 1 := s[j]]
  }

  lemma BubbleOn(plan: Plan, order: seq<int>, m: nat, j: nat)
    requires Bubbled(plan, order, m, j) && j + 1 < m
    ensures Bubbled(plan, Compared(plan, order, j), m, j + 1)
  {
    if plan[order[j]].preGreen < plan[order[j + 1]].preGreen {
      SwapBubbles(plan, order, m, j);
    } else {
      forall a | 0 <= a < j + 1 ensures plan[order[a]].preGreen >= plan[order[j + 1]].preGreen {
        assert a == j || plan[order[a]].preGreen >= plan[order[j]].preGreen;
      }
    }
  }

  /** Where a place of the swapped order was before. */
  function Before(j: nat, a: nat): nat {
    if a == j then j + 1 else if a == j + 1 then j else a
  }

  lemma SwapBubbles(plan: Plan, order: seq<int>, m: nat, j: nat)
    requires Bubbled(plan, order, m, j) && j + 1 < m
    requires plan[order[j]].preGreen < plan[order[j + 1]].preGreen
    ensures Bubbled(plan, Swap(order, j), m, j + 1)
  {
    var now := Swap(order, j);
    forall a, b | 0 <= a < b < |now|
      ensures m <= b || b == j + 1 ==> plan[now[a]].preGreen >= plan[now[b]].preGreen
      ensures plan[now[a]].preGreen == plan[now[b]].preGreen ==> now[a] < now[b]
    {
      SwapPair(plan, order, m, j, a, b);
    }
  }

  lemma SwapPair(plan: Plan, order: seq<int>, m: nat, j: nat, a: nat, b: nat)
    requires Bubbled(plan, order, m, j) && j + 1 < m && a < b < |order|
    requires plan[order[j]].preGreen < plan[order[j + 1]].preGreen
    ensures var now := Swap(order, j);
      && 0 <= now[a] < PHASE_COUNT_MAX && 0 <= now[b] < PHASE_COUNT_MAX
      && (m <= b || b == j + 1 ==> plan[now[a]].preGreen >= plan[now[b]].preGreen)
      && (plan[now[a]].preGreen == plan[now[b]].preGreen ==> now[a] < now[b])
  {
    var x, y := Before(j, a), Before(j, b);
    assert Swap(order, j)[a] == order[x] && Swap(order, j)[b] == order[y];
    assert x < y || (a == j && b == j + 1);
  }

  lemma SwapLists(order: seq<int>, place: seq<int>, n: nat, j: nat)
    requires Lists(order, place, n) && j + 1 < n
    ensures Lists(Swap(order, j), place[order[j] := j + 1][order[j + 1] := j], n)
  {
  }

  lemma PassDone(plan: Plan, order: seq<int>, m: nat)
    requires m > 1 && Bubbled(plan, order, m, m - 1)
    ensures Bubbled(plan, order, m - 1, 0)
  {
  }

  lemma SortDone(plan: Plan, order: seq<int>)
    requires Bubbled(plan, order, 1, 0)
    ensures Sorted(plan, order)
  {
  }

  lemma SortStart(plan: Plan, order: seq<int>, n: nat)
    requires 1 <= n <= PHASE_COUNT_MAX && |order| == n && forall j | 0 <= j < n :: order[j] == j
    ensures Lists(order, seq(n, j => j), n) && Bubbled(plan, order, n, 0)
  {
  }

  /** One comparison of the sort, and the exchange if it is due. */
  function Compared(plan: Plan, order: seq<int>, j: nat): seq<int>
    requires j + 1 < |order| && 0 <= order[j] < PHASE_COUNT_MAX && 0 <= order[j + 1] < PHASE_COUNT_MAX
  {
    if plan[order[j]].preGreen < plan[order[j + 1]].preGreen then Swap(order, j) else order
  }

  method CompareAndSwap(plan: Plan, n: nat, j: nat, index: array<int>)
    requires j + 1 < n <= index.Length
    requires 0 <= index[j] < PHASE_COUNT_MAX && 0 <= index[j + 1] < PHASE_COUNT_MAX
    modifies index
    ensures index[..n] == Compared(plan, old(index[..n]), j)
  {
    if plan[index[j]].preGreen < plan[index[j + 1]].preGreen {
      var temp := index[j];
      index[j] := index[j + 1];
      index[j + 1] := temp;
    }
  }

  /** The inner loop of the sort. */
  method BubblePass(plan: Plan, n: nat, i: nat, index: array<int>, ghost place: seq<int>) returns (ghost place': seq<int>)
    requires i + 1 < n <= PHASE_COUNT_MAX == index.Length
    requires Lists(index[..n], place, n) && Bubbled(plan, index[..n], n - i, 0)
    modifies index
    ensures Lists(index[..n], place', n) && Bubbled(plan, index[..n], n - i - 1, 0)
  {
    place' := place;
    for j := 0 to n - i - 1
      invariant Lists(index[..n], place', n) && Bubbled(plan, index[..n], n - i, j)
    {
      ghost var order := index[..n];
      assert order[j] == index[j] && order[j + 1] == index[j + 1];
      CompareAndSwap(plan, n, j, index);
      BubbleOn(plan, order, n - i, j);
      place' := ComparedLists(plan, order, place', n, j);
    }
    PassDone(plan, index[..n], n - i);
  }

  lemma ComparedLists(plan: Plan, order: seq<int>, place: seq<int>, n: nat, j: nat) returns (place': seq<int>)
    requires n <= PHASE_COUNT_MAX && Lists(order, place, n) && j + 1 < n
    ensures Lists(Compared(plan, order, j), place', n)
  {
    place' := place;
    if plan[order[j]].preGreen < plan[order[j + 1]].preGreen {
      SwapLists(order, place, n, j);
      place' := place[order[j] := j + 1][order[j + 1] := j];
    }
  }

  /** The bubble sort of the phase indices: a stable, descending permutation. */
  method SortByGreen(plan: Plan, n: nat, index: array<int>) returns (ghost place: seq<int>)
    requires 1 <= n <= PHASE_COUNT_MAX == index.Length
    modifies index
    ensures Lists(index[..n], place, n) && Sorted(plan, index[..n])
  {
    for k := 0 to PHASE_COUNT_MAX
      invariant forall j | 0 <= j < k :: index[j] == j
    {
      index[k] := k;
    }
    place := seq(n, j => j);
    SortStart(plan, index[..n], n);
    for i := 0 to n - 1
      invariant Lists(index[..n], place, n) && Bubbled(plan, index[..n], n - i, 0)
    {
      place := BubblePass(plan, n, i, index, place);
    }
    SortDone(plan, index[..n]);
  }

  /** Only one phase gets a share, and it is offered everything. */
  function OnlyPhase(i: int): (w: seq<real>)
    ensures |w| == PHASE_COUNT_MAX
    ensures forall k | 0 <= k < PHASE_COUNT_MAX :: w[k] == if k == i then 100.0 else 0.0
  {
    seq(PHASE_COUNT_MAX, k => if k == i then 100.0 else 0.0)
  }

  /** A phase was changed only if every phase listed before it is at its bound. */
  predicate InTurn(plan: Plan, order: seq<int>, was: seq<int>, t: seq<int>, whole: int)
    requires |was| == |t| == PHASE_COUNT_MAX
    requires forall a | 0 <= a < |order| :: 0 <= order[a] < PHASE_COUNT_MAX
  {
    forall a, b | 0 <= a < b < |order| && t[order[b]] != was[order[b]] :: AtBound(plan, t, order[a], whole)
  }

  /** One phase is offered all that is left. */
  method OfferAll(plan: Plan, n: nat, i: nat, offered: i16, ghost whole: i16, t: array<int>) returns (left: int)
    requires i < n <= PHASE_COUNT_MAX == t.Length && Placed(plan, n, t[..], offered, whole)
    modifies t
    ensures Placed(plan, n, t[..], left, whole)
    ensures forall k | 0 <= k < PHASE_COUNT_MAX && k != i :: t[k] == old(t[k])
    ensures left == 0 || AtBound(plan, t[..], i, offered)
  {
    left := AllocateByWeight(plan, n, OnlyPhase(i), offered, whole, t);
  }

  /** Offers what is left to the phases in order, longest green first. */
  method AllocateRemaining(plan: Plan, n: nat, remaining: i16, ghost whole: i16, t: array<int>)
    returns (left: int, order: seq<int>, ghost place: seq<int>)
    requires 1 <= n <= PHASE_COUNT_MAX && t.Length == PHASE_COUNT_MAX
    requires Placed(plan, n, t[..], remaining, whole)
    modifies t
    ensures Placed(plan, n, t[..], left, whole)
    ensures left == 0 || forall i | 0 <= i < n :: AtBound(plan, t[..], i, whole)
    ensures remaining != 0 ==>
      Lists(order, place, n) && Sorted(plan, order) && InTurn(plan, order, old(t[..]), t[..], whole)
    ensures remaining == 0 ==> t[..] == old(t[..])
  {
    left, order, place := remaining, [], [];
    if remaining == 0 {
      return;
    }
    var index := new int[PHASE_COUNT_MAX];
    place := SortByGreen(plan, n, index);
    order := index[..n];
    ghost var was := t[..];
    var i := 0;
    while i < n && left != 0
      invariant 0 <= i <= n && index[..n] == order && t != index
      invariant Lists(order, place, n) && Sorted(plan, order)
      invariant Placed(plan, n, t[..], left, whole)
      invariant forall a | 0 <= a < i :: left == 0 || AtBound(plan, t[..], order[a], whole)
      invariant forall a | i <= a < n :: t[order[a]] == was[order[a]]
      invariant InTurn(plan, order, was, t[..], whole)
    {
      assert index[i] == order[i];
      ghost var before := t[..];
      ghost var offered := left;
      left := OfferAll(plan, n, index[i], left, whole, t);
      assert forall k | 0 <= k < PHASE_COUNT_MAX && k != order[i] :: t[k] == before[k];
      i := i + 1;
    }
    if left != 0 {
      forall k | 0 <= k < n ensures AtBound(plan, t[..], k, whole) {
        assert order[place[k]] == k;
      }
    }
  }

  const ZEROS: seq<int> := [0, 0, 0, 0, 0, 0, 0, 0]

  /** What one cycle allocates: by weight first, the rest by length of green.  The
      phases together take exactly the amount, as far as their limits allow. */
  method AllocateCycle(plan: Plan, n: nat, weight: seq<real>, amount: i16)
    returns (t: array<int>, ghost byWeight: seq<int>, ghost order: seq<int>, ghost place: seq<int>)
    requires 1 <= n <= PHASE_COUNT_MAX == |weight| && Sane(plan, n)
    requires forall i | 0 <= i < n :: weight[i] >= 0.0
    ensures fresh(t) && Bounded(plan, n, t[..]) && AllAlong(t[..], amount)
    ensures Sum(t[..]) == Attainable(plan, n, amount)
    ensures |byWeight| == PHASE_COUNT_MAX && Dealt(plan, weight, amount, ZEROS, byWeight, n)
    ensures t[..] == byWeight ||
      (Lists(order, place, n) && Sorted(plan, order) && InTurn(plan, order, byWeight, t[..], amount))
  {
    t := new int[PHASE_COUNT_MAX](_ => 0);
    SumOfZeros(t[..], 0);
    assert t[..][..0] == [] && t[..] == ZEROS;
    var remaining := AllocateByWeight(plan, n, weight, amount, amount, t);
    byWeight := t[..];
    var left, sorted, places := AllocateRemaining(plan, n, remaining, amount, t);
    order, place := sorted, places;
    SumOfZeros(t[..], n);
    SumWithinRoom(plan, t[..], n);
    if left != 0 {
      AllAtBound(plan, n, t[..], amount);
    }
  }

  lemma AllAtBound(plan: Plan, n: nat, t: seq<int>, amount: int)
    requires amount != 0 && Bounded(plan, n, t) && forall i | 0 <= i < n :: AtBound(plan, t, i, amount)
    ensures Sum(t) == if amount > 0 then RoomUp(plan, n) else -RoomDown(plan, n)
  {
    SumOfZeros(t, n);
    SumWithinRoom(plan, t, n);
    if amount > 0 {
      assert forall i | 0 <= i < n :: AtBound(plan, t, i, amount) == AtBound(plan, t, i, 1);
    } else {
      assert forall i | 0 <= i < n :: AtBound(plan, t, i, amount) == AtBound(plan, t, i, -1);
    }
  }

  function SumAll(ts: seq<seq<int>>): int {
    if ts == [] then 0 else SumAll(ts[..|ts| - 1]) + Sum(ts[|ts| - 1])
  }

  predicate Fits(plan: Plan, n: nat, part: int)
    requires n <= PHASE_COUNT_MAX
  {
    -RoomDown(plan, n) <= part <= RoomUp(plan, n)
  }

  function SumAttainable(plan: Plan, n: nat, parts: seq<int>): int
    requires n <= PHASE_COUNT_MAX
  {
    if parts == [] then 0
    else SumAttainable(plan, n, parts[..|parts| - 1]) + Attainable(plan, n, parts[|parts| - 1])
  }

  /** Parts that all point one way are attained together only if each is. */
  lemma {:induction false} AttainedIff(plan: Plan, n: nat, parts: seq<int>, total: int)
    requires Sane(plan, n) && AllAlong(parts, total)
    ensures Along(Sum(parts) - SumAttainable(plan, n, parts), total)
    ensures SumAttainable(plan, n, parts) == Sum(parts)
            <==> forall k | 0 <= k < |parts| :: Fits(plan, n, parts[k])
    decreases |parts|
  {
    if parts != [] {
      var k := |parts| - 1;
      RoomIsPositive(plan, n);
      AttainedIff(plan, n, parts[..k], total);
      assert Along(parts[k], total);
      assert parts[k] - Attainable(plan, n, parts[k]) == 0 <==> Fits(plan, n, parts[k]);
      assert forall j | 0 <= j < k :: parts[..k][j] == parts[j];
    }
  }

  lemma {:induction false} RoomIsPositive(plan: Plan, n: nat)
    requires Sane(plan, n)
    ensures RoomUp(plan, n) >= 0 && RoomDown(plan, n) >= 0
    decreases n
  {
    if n > 0 {
      RoomIsPositive(plan, n - 1);
    }
  }

  /** The seconds of one cycle: each phase's portion by weight, then the rest by
      descending green. */
  ghost predicate Allotted(plan: Plan, n: nat, weight: seq<real>, amount: int, t: seq<int>)
    requires n <= PHASE_COUNT_MAX == |weight|
  {
    Bounded(plan, n, t) && Sum(t) == Attainable(plan, n, amount)
    && exists byWeight, order, place :: TwoPasses(plan, n, weight, amount, byWeight, order, place, t)
  }

  predicate TwoPasses(plan: Plan, n: nat, weight: seq<real>, amount: int,
                      byWeight: seq<int>, order: seq<int>, place: seq<int>, t: seq<int>)
    requires n <= PHASE_COUNT_MAX == |weight|
  {
    && |byWeight| == PHASE_COUNT_MAX == |t| && Dealt(plan, weight, amount, ZEROS, byWeight, n)
    && (t == byWeight || (Lists(order, place, n) && Sorted(plan, order) && InTurn(plan, order, byWeight, t, amount)))
  }

  method CycleSeconds(plan: Plan, n: nat, weight: seq<real>, part: i16) returns (t: seq<int>)
    requires 1 <= n <= PHASE_COUNT_MAX == |weight| && Sane(plan, n)
    requires forall i | 0 <= i < n :: weight[i] >= 0.0
    ensures Allotted(plan, n, weight, part, t)
  {
    ghost var byWeight, order, place;
    var a;
    a, byWeight, order, place := AllocateCycle(plan, n, weight, part);
    t := a[..];
    assert TwoPasses(plan, n, weight, part, byWeight, order, place, t);
  }

  ghost predicate AllottedAt(plan: Plan, n: nat, weight: seq<real>, parts: seq<int>, ts: seq<seq<int>>, k: int)
    requires n <= PHASE_COUNT_MAX == |weight| && 0 <= k < |ts| == |parts|
  {
    Allotted(plan, n, weight, parts[k], ts[k])
  }

  /** Each part is allotted to its cycle. */
  ghost predicate AllAllotted(plan: Plan, n: nat, weight: seq<real>, parts: seq<int>, ts: seq<seq<int>>)
    requires n <= PHASE_COUNT_MAX == |weight|
  {
    |ts| == |parts| && forall k | 0 <= k < |ts| :: AllottedAt(plan, n, weight, parts, ts, k)
  }

  lemma {:induction false} AllottedSums(plan: Plan, n: nat, weight: seq<real>, parts: seq<int>, ts: seq<seq<int>>)
    requires n <= PHASE_COUNT_MAX == |weight| && AllAllotted(plan, n, weight, parts, ts)
    ensures SumAll(ts) == SumAttainable(plan, n, parts)
    ensures AllBounded(plan, n, ts)
    decreases |ts|
  {
    if ts != [] {
      var k := |ts| - 1;
      forall j | 0 <= j < k ensures AllottedAt(plan, n, weight, parts[..k], ts[..k], j) {
        assert AllottedAt(plan, n, weight, parts, ts, j);
      }
      AllottedSums(plan, n, weight, parts[..k], ts[..k]);
      assert AllottedAt(plan, n, weight, parts, ts, k);
      forall j | 0 <= j < |ts| ensures Bounded(plan, n, ts[j]) {
        if j < k {
          assert ts[..k][j] == ts[j];
        }
      }
    }
  }

  predicate AllBounded(plan: Plan, n: nat, ts: seq<seq<int>>) {
    forall k | 0 <= k < |ts| :: Bounded(plan, n, ts[k])
  }

  lemma AllottedNext(plan: Plan, n: nat, weight: seq<real>, parts: seq<int>, ts: seq<seq<int>>, part: int, t: seq<int>)
    requires n <= PHASE_COUNT_MAX == |weight| && AllAllotted(plan, n, weight, parts, ts)
    requires Allotted(plan, n, weight, part, t)
    ensures AllAllotted(plan, n, weight, parts + [part], ts + [t])
  {
    forall k | 0 <= k <= |ts| ensures AllottedAt(plan, n, weight, parts + [part], ts + [t], k) {
      if k < |ts| {
        assert AllottedAt(plan, n, weight, parts, ts, k);
      }
    }
  }

  /** All cycles of a compensation. */
  method AllocateCycles(plan: Plan, n: nat, weight: seq<real>, parts: seq<int>) returns (ts: seq<seq<int>>)
    requires 1 <= n <= PHASE_COUNT_MAX == |weight| && Sane(plan, n)
    requires forall i | 0 <= i < n :: weight[i] >= 0.0
    requires forall k | 0 <= k < |parts| :: -0x8000 <= parts[k] < 0x8000
    ensures AllAllotted(plan, n, weight, parts, ts)
  {
    ts := [];
    for k := 0 to |parts|
      invariant AllAllotted(plan, n, weight, parts[..k], ts)
    {
      var t := CycleSeconds(plan, n, weight, parts[k]);
      AllottedNext(plan, n, weight, parts[..k], ts, parts[k], t);
      ts := ts + [t];
      assert parts[..k + 1] == parts[..k] + [parts[k]];
    }
    assert parts[..|parts|] == parts;
  }

  predicate AllFit(plan: Plan, n: nat, parts: seq<int>)
    requires n <= PHASE_COUNT_MAX
  {
    forall k | 0 <= k < |parts| :: Fits(plan, n, parts[k])
  }

  lemma SumsToTotalIff(plan: Plan, n: nat, weight: seq<real>, total: i16, cycles: nat, ts: seq<seq<int>>)
    requires 1 <= n <= PHASE_COUNT_MAX == |weight| && Sane(plan, n) && cycles >= 1
    requires AllAllotted(plan, n, weight, Split(total, cycles), ts)
    ensures SumAll(ts) == total <==> AllFit(plan, n, Split(total, cycles))
  {
    AllottedSums(plan, n, weight, Split(total, cycles), ts);
    SplitShape(total, cycles);
    AttainedIff(plan, n, Split(total, cycles), total);
  }

  method AllocateTotal(plan: Plan, n: nat, weight: seq<real>, total: i16, cycles: nat) returns (ts: seq<seq<int>>)
    requires 1 <= n <= PHASE_COUNT_MAX == |weight| && Sane(plan, n) && cycles >= 1
    requires forall i | 0 <= i < n :: weight[i] >= 0.0
    ensures AllAllotted(plan, n, weight, Split(total, cycles), ts)
  {
    var parts := SplitOverCycles(total, cycles);
    SplitFits(total, cycles);
    ts := AllocateCycles(plan, n, weight, parts[..]);
  }

  /** The total is the correction in sixteen bits; if it fits them and so many seconds
      are moved, the next cycle starts on a multiple of the cycle time. */
  predicate Corrects(start: int, cycleTime: u16, total: i16, moved: int)
    requires cycleTime > 0
  {
    && total == I16(Correction(start, cycleTime))
    && (Correction(start, cycleTime) < 0x8000 && moved == total ==> (start + moved) % cycleTime == 0)
  }

  lemma MovedCorrects(start: int, cycleTime: u16, total: i16, moved: int)
    requires cycleTime > 0 && total == I16(Correction(start, cycleTime))
    ensures Corrects(start, cycleTime, total, moved)
  {
    ReturnedCorrectionAlignsIff(start, cycleTime);
  }

  /** The correction of the time at which the signal, left to itself, starts its next
      cycle, allotted to cycles and phases.  The seconds add up to it exactly when
      each cycle's part fits the limits of the cycle; then, if it fits sixteen bits,
      the next cycle starts on a multiple of the cycle time. */
  ghost predicate Planned(plan: Plan, n: nat, weight: seq<real>, cycles: nat, cycleTime: u16, since: int,
                          at: Position, total: i16, ts: seq<seq<int>>, arrival: nat)
    requires n <= PHASE_COUNT_MAX == |weight| && 1 <= at.phase <= PHASE_COUNT_MAX && cycles >= 1 && cycleTime > 0
  {
    && NextCycleIn(plan, n, at, arrival) && Corrects(since + arrival, cycleTime, total, SumAll(ts))
    && |ts| == cycles && AllBounded(plan, n, ts) && AllAllotted(plan, n, weight, Split(total, cycles), ts)
    && (SumAll(ts) == total <==> AllFit(plan, n, Split(total, cycles)))
  }

  lemma Plans(plan: Plan, n: nat, weight: seq<real>, cycles: nat, cycleTime: u16, since: int,
              at: Position, total: i16, ts: seq<seq<int>>, arrival: nat)
    requires 1 <= n <= PHASE_COUNT_MAX == |weight| && 1 <= at.phase <= PHASE_COUNT_MAX && cycles >= 1 && cycleTime > 0
    requires Sane(plan, n) && NextCycleIn(plan, n, at, arrival) && total == I16(Correction(since + arrival, cycleTime))
    requires AllAllotted(plan, n, weight, Split(total, cycles), ts)
    ensures Planned(plan, n, weight, cycles, cycleTime, since, at, total, ts, arrival)
  {
    AllottedSums(plan, n, weight, Split(total, cycles), ts);
    SumsToTotalIff(plan, n, weight, total, cycles, ts);
    SplitShape(total, cycles);
    MovedCorrects(since + arrival, cycleTime, total, SumAll(ts));
  }

  /** From the clock to the phases. */
  method Compensate(plan: Plan, n: u8, weight: seq<real>, cycles: nat,
                    cycleTime: u16, since: int, phase: u8, step: u8, secLeft: u16)
    returns (total: i16, ts: seq<seq<int>>, ghost arrival: nat)
    requires 1 <= n <= PHASE_COUNT_MAX == |weight| && Sane(plan, n) && cycles >= 1
    requires cycleTime > 0 && 1 <= phase <= PHASE_COUNT_MAX && 1 <= step
    requires forall i | 0 <= i < n :: weight[i] >= 0.0
    ensures AllBounded(plan, n, ts) && total == I16(Correction(since + arrival, cycleTime))
    ensures Planned(plan, n, weight, cycles, cycleTime, since, Position(phase, step, secLeft), total, ts, arrival)
  {
    total, arrival := AlignmentCompensation(plan, n, cycleTime, since, phase, step, secLeft);
    ts := AllocateTotal(plan, n, weight, total, cycles);
    Plans(plan, n, weight, cycles, cycleTime, since, Position(phase, step, secLeft), total, ts, arrival);
  }

  lemma SplitFits(total: i16, n: nat)
    requires n >= 1
    ensures forall k | 0 <= k < n :: -0x8000 <= Split(total, n)[k] < 0x8000
  {
    var s := Split(total, n);
    SplitShape(total, n);
    forall k | 0 <= k < n ensures -0x8000 <= s[k] < 0x8000 {
      assert AllAlong(s, if total >= 0 then 1 else -1);
      PartWithinSum(s, k);
    }
  }
}
