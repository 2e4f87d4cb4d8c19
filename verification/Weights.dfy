/** The weights that a compensation gives the phases: equal ones for the phases that
    were adjusted, or all of it to the arterial road or to the branch road. */
module Weights {
  import opened FixedWidth
  import opened SignalPlan
  import Allocation

  function HowMany(adjusted: seq<u8>): (count: nat)
    ensures count <= |adjusted|
    ensures (exists i | 0 <= i < |adjusted| :: adjusted[i] != 0) <==> count > 0
  {
    if adjusted == [] then 0
    else
      var last := |adjusted| - 1;
      assert adjusted == adjusted[..last] + [adjusted[last]];
      HowMany(adjusted[..last]) + if adjusted[last] != 0 then 1 else 0
  }

  /** Every adjusted phase weighs the same and no other weighs anything. */
  predicate Even(adjusted: seq<u8>, weight: seq<real>, each: real) {
    |weight| == |adjusted|
    && forall i | 0 <= i < |adjusted| :: weight[i] == if adjusted[i] != 0 then each else 0.0
  }

  method EvenWeights(adjusted: seq<u8>) returns (weight: seq<real>)
    requires |adjusted| == PHASE_COUNT_MAX
    ensures exists each: real :: each >= 0.0 && Even(adjusted, weight, each)
    ensures (exists i | 0 <= i < PHASE_COUNT_MAX :: adjusted[i] != 0) ==>
              Allocation.WeightUpTo(weight, PHASE_COUNT_MAX) == 100.0
  {
    var w := new real[PHASE_COUNT_MAX](_ => 0.0);
    var count := 0;
    for i := 0 to PHASE_COUNT_MAX
      invariant count == HowMany(adjusted[..i])
    {
      assert adjusted[..i + 1][..i] == adjusted[..i];
      if adjusted[i] != 0 {
        count := count + 1;
      }
    }
    assert adjusted[..PHASE_COUNT_MAX] == adjusted;
    ghost var each := if count == 0 then 1.0 else 100.0 / count as real;
    for i := 0 to PHASE_COUNT_MAX
      invariant Even(adjusted[..i], w[..i], each)
      invariant forall j | i <= j < PHASE_COUNT_MAX :: w[j] == 0.0
    {
      if adjusted[i] != 0 {
        w[i] := 100.0 / count as real;
      }
    }
    weight := w[..];
    assert w[..PHASE_COUNT_MAX] == weight;
    if count > 0 {
      EvenTotal(adjusted, weight, count);
    }
  }

  /** The sum of so many equal weights. */
  function Together(count: nat, each: real): real {
    if count == 0 then 0.0 else Together(count - 1, each) + each
  }

  lemma {:induction false} EvenSum(adjusted: seq<u8>, weight: seq<real>, each: real, k: nat)
    requires Even(adjusted, weight, each) && k <= |adjusted|
    ensures Allocation.WeightUpTo(weight, k) == Together(HowMany(adjusted[..k]), each)
  {
    if k > 0 {
      EvenSum(adjusted, weight, each, k - 1);
      assert adjusted[..k][..k - 1] == adjusted[..k - 1];
    }
  }

  lemma {:induction false} Shared(count: nat, parts: nat)
    requires parts > 0
    ensures Together(count, 100.0 / parts as real) == 100.0 * count as real / parts as real
  {
    if count > 0 {
      Shared(count - 1, parts);
      OneMore((count - 1) as real, parts as real);
    }
  }

  lemma EvenTotal(adjusted: seq<u8>, weight: seq<real>, count: nat)
    requires count == HowMany(adjusted) > 0 && Even(adjusted, weight, 100.0 / count as real)
    ensures Allocation.WeightUpTo(weight, |adjusted|) == 100.0
  {
    assert adjusted[..|adjusted|] == adjusted;
    EvenSum(adjusted, weight, 100.0 / count as real, |adjusted|);
    AllParts(count);
  }

  lemma AllParts(parts: nat)
    requires parts > 0
    ensures Together(parts, 100.0 / parts as real) == 100.0
  {
    Shared(parts, parts);
    Cancels(parts as real);
  }

  lemma Cancels(parts: real)
    requires parts > 0.0
    ensures 100.0 * parts / parts == 100.0
  {
  }

  lemma OneMore(count: real, parts: real)
    requires parts > 0.0
    ensures 100.0 * (count + 1.0) / parts == 100.0 * count / parts + 100.0 / parts
  {
  }

  /** Phase a is the first of those with the longest planned green. */
  predicate IsLongest(plan: Plan, n: nat, a: nat) {
    a < n <= PHASE_COUNT_MAX && FirstOfLongest(plan, n, a, a)
  }

  /** Phase b is that among the others. */
  predicate IsSecond(plan: Plan, n: nat, a: nat, b: nat) {
    b < n <= PHASE_COUNT_MAX && b != a && FirstOfLongest(plan, n, b, a)
  }

  predicate FirstOfLongest(plan: Plan, n: nat, b: nat, but: nat)
    requires b < n <= PHASE_COUNT_MAX
  {
    forall j | 0 <= j < n && j != but ::
      if j < b then plan[j].preGreen < plan[b].preGreen else plan[j].preGreen <= plan[b].preGreen
  }

  /** One pass finds both roads; with a single phase there is no branch road. */
  method FindRoads(plan: Plan, n: nat) returns (arterial: nat, branch: nat)
    requires 1 <= n <= PHASE_COUNT_MAX
    ensures IsLongest(plan, n, arterial)
    ensures if n == 1 then branch == 255 else IsSecond(plan, n, arterial, branch)
  {
    arterial, branch := 0, 255;
    for i := 1 to n
      invariant IsLongest(plan, i, arterial)
      invariant if i == 1 then branch == 255 else IsSecond(plan, i, arterial, branch)
    {
      if plan[i].preGreen > plan[arterial].preGreen {
        branch := arterial;
        arterial := i;
      } else if branch == 255 || plan[i].preGreen > plan[branch].preGreen {
        branch := i;
      }
    }
  }

  /** A positive correction goes to the arterial road, a negative one is taken from
      the branch road. */
  method RoadWeights(plan: Plan, n: nat, total: i16) returns (weight: seq<real>, ghost arterial: nat, ghost branch: nat)
    requires 1 <= n <= PHASE_COUNT_MAX
    requires total < 0 ==> n >= 2
    ensures IsLongest(plan, n, arterial) && (n >= 2 ==> IsSecond(plan, n, arterial, branch))
    ensures |weight| == PHASE_COUNT_MAX
    ensures forall i | 0 <= i < PHASE_COUNT_MAX ::
              weight[i] == if (total > 0 && i == arterial) || (total < 0 && i == branch) then 100.0 else 0.0
  {
    var w := new real[PHASE_COUNT_MAX](_ => 0.0);
    var a, b := FindRoads(plan, n);
    arterial, branch := a, b;
    if total < 0 {
      w[b] := 100.0;
    } else if total > 0 {
      w[a] := 100.0;
    }
    weight := w[..];
  }

  /** The two roads are the first two in the order in which the seconds left over are
      given out. */
  lemma RoadsComeFirst(plan: Plan, order: seq<int>, place: seq<int>, n: nat, a: nat, b: nat)
    requires 2 <= n <= PHASE_COUNT_MAX && Allocation.Lists(order, place, n) && Allocation.Sorted(plan, order)
    ensures IsLongest(plan, n, a) <==> a == order[0]
    ensures IsLongest(plan, n, a) ==> (IsSecond(plan, n, a, b) <==> b == order[1])
  {
    OthersComeLater(plan, order, place, n, 0);
    OthersComeLater(plan, order, place, n, 1);
    var first, second := order[0], order[1];
    assert plan[first].preGreen >= plan[second].preGreen;
    if IsLongest(plan, n, a) {
      assert plan[a].preGreen >= plan[first].preGreen;
    }
    if IsLongest(plan, n, a) && IsSecond(plan, n, a, b) {
      assert plan[b].preGreen >= plan[second].preGreen;
    }
  }

  /** The phase at place k of the order, of those that do not stand before it. */
  lemma OthersComeLater(plan: Plan, order: seq<int>, place: seq<int>, n: nat, k: nat)
    requires k < n <= PHASE_COUNT_MAX && k < 2 && Allocation.Lists(order, place, n) && Allocation.Sorted(plan, order)
    ensures FirstOfLongest(plan, n, order[k], order[0])
    ensures k == 1 ==> order[0] != order[1]
  {
    forall j | 0 <= j < n && j != order[0]
      ensures if j < order[k] then plan[j].preGreen < plan[order[k]].preGreen
                else plan[j].preGreen <= plan[order[k]].preGreen
    {
      var at := place[j];
      assert order[at] == j;
      if at > k {
        assert Allocation.Precedes(plan, order[k], order[at]);
      }
    }
    if k == 1 {
      assert Allocation.Precedes(plan, order[0], order[1]);
    }
  }
}
