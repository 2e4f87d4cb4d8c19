/** The signal as it runs through its plan, second by second: when its next cycle
    starts. */
module RunningSignal {
  import opened FixedWidth
  import opened SignalPlan

  /** Where the signal stands: the phase, the step and the seconds left of it. */
  datatype Position = Position(phase: nat, step: nat, left: nat)

  /** The planned seconds of a step. */
  function Lasts(p: PhasePlan, step: nat): nat {
    match step
    case 1 => p.preGreen
    case 2 => p.pedGreenFlash
    case 3 => p.pedRed
    case 4 => p.yellow
    case 5 => p.allRed
    case _ => 0
  }

  /** One move: a second passes, or, when none is left, the next step begins; after
      the fifth step the next phase, and after the last phase the first. */
  function Move(plan: Plan, n: nat, at: Position): Position
    requires 1 <= at.phase <= PHASE_COUNT_MAX && n <= PHASE_COUNT_MAX
  {
    if at.left > 0 then at.(left := at.left - 1)
    else if at.step < 5 then Position(at.phase, at.step + 1, Lasts(plan[at.phase - 1], at.step + 1))
    else if at.phase < n then Position(at.phase + 1, 1, Lasts(plan[at.phase], 1))
    else Position(1, 1, Lasts(plan[0], 1))
  }

  function After(plan: Plan, n: nat, at: Position, moves: nat): (to: Position)
    requires 1 <= at.phase <= PHASE_COUNT_MAX && n <= PHASE_COUNT_MAX
    ensures 1 <= to.phase <= PHASE_COUNT_MAX
    decreases moves
  {
    if moves == 0 then at else After(plan, n, Move(plan, n, at), moves - 1)
  }

  /** The seconds that so many moves take. */
  function Seconds(plan: Plan, n: nat, at: Position, moves: nat): nat
    requires 1 <= at.phase <= PHASE_COUNT_MAX && n <= PHASE_COUNT_MAX
    decreases moves
  {
    if moves == 0 then 0 else (if at.left > 0 then 1 else 0) + Seconds(plan, n, Move(plan, n, at), moves - 1)
  }

  /** With this move the signal enters the first step of the first phase. */
  predicate Enters(plan: Plan, n: nat, at: Position, move: nat)
    requires 1 <= at.phase <= PHASE_COUNT_MAX && n <= PHASE_COUNT_MAX
  {
    && move > 0 && After(plan, n, at, move - 1).step != 1
    && After(plan, n, at, move).phase == 1 && After(plan, n, at, move).step == 1
  }

  /** The next cycle starts at the end of these moves, not before, and they take that
      many seconds. */
  predicate StartsWith(plan: Plan, n: nat, at: Position, moves: nat, seconds: nat)
    requires 1 <= at.phase <= PHASE_COUNT_MAX && n <= PHASE_COUNT_MAX
  {
    && Enters(plan, n, at, moves) && (forall j | 0 <= j < moves :: !Enters(plan, n, at, j))
    && Seconds(plan, n, at, moves) == seconds
  }

  ghost predicate NextCycleIn(plan: Plan, n: nat, at: Position, seconds: nat)
    requires 1 <= at.phase <= PHASE_COUNT_MAX && n <= PHASE_COUNT_MAX
  {
    exists moves :: StartsWith(plan, n, at, moves, seconds)
  }

  /** There is one such time at most. */
  lemma NextCycleOnce(plan: Plan, n: nat, at: Position, seconds: nat, seconds': nat)
    requires 1 <= at.phase <= PHASE_COUNT_MAX && n <= PHASE_COUNT_MAX
    requires NextCycleIn(plan, n, at, seconds) && NextCycleIn(plan, n, at, seconds')
    ensures seconds == seconds'
  {
    var m :| StartsWith(plan, n, at, m, seconds);
    var m' :| StartsWith(plan, n, at, m', seconds');
    assert m == m';
  }

  /** The seconds of phases and steps still to come. */
  function PhasesFrom(plan: Plan, n: nat, i: nat): nat
    requires n <= PHASE_COUNT_MAX
    decreases n - i
  {
    if i >= n then 0
    else
      plan[i].preGreen + plan[i].pedGreenFlash + plan[i].pedRed + plan[i].yellow + plan[i].allRed
      + PhasesFrom(plan, n, i + 1)
  }

  /** Steps 2 to 5 of a phase. */
  function StepArr(p: PhasePlan): (steps: seq<u8>)
    ensures |steps| == 4
  {
    [p.pedGreenFlash, p.pedRed, p.yellow, p.allRed]
  }

  function StepsFrom(p: PhasePlan, i: nat): nat
    decreases 4 - i
  {
    if i >= 4 then 0 else StepArr(p)[i] + StepsFrom(p, i + 1)
  }

  function Ahead(plan: Plan, n: nat, at: Position): nat
    requires 1 <= at.phase <= PHASE_COUNT_MAX && n <= PHASE_COUNT_MAX && 1 <= at.step
  {
    PhasesFrom(plan, n, at.phase) + StepsFrom(plan[at.phase - 1], at.step - 1) + at.left
  }

  /** A move that does not start a cycle takes its seconds off those ahead. */
  lemma MoveCounts(plan: Plan, n: nat, at: Position)
    requires 1 <= at.phase <= PHASE_COUNT_MAX && n <= PHASE_COUNT_MAX && 1 <= at.step
    requires at.left > 0 || at.step < 5 || at.phase < n
    ensures Move(plan, n, at).step >= 1
    ensures Ahead(plan, n, at) == (if at.left > 0 then 1 else 0) + Ahead(plan, n, Move(plan, n, at))
  {
    if at.left == 0 && at.step >= 5 {
      var p := plan[at.phase];
      assert StepsFrom(p, 0) == p.pedGreenFlash + StepsFrom(p, 1);
      assert StepsFrom(p, 2) == p.yellow + StepsFrom(p, 3);
    }
  }

  /** One move earlier. */
  lemma StartsLater(plan: Plan, n: nat, at: Position, moves: nat, seconds: nat)
    requires 1 <= at.phase <= PHASE_COUNT_MAX && n <= PHASE_COUNT_MAX && 1 <= at.step
    requires at.left > 0 || at.step < 5 || at.phase < n
    requires StartsWith(plan, n, Move(plan, n, at), moves, seconds)
    ensures StartsWith(plan, n, at, moves + 1, seconds + if at.left > 0 then 1 else 0)
  {
    var next := Move(plan, n, at);
    forall j | 0 < j <= moves + 1 ensures After(plan, n, at, j) == After(plan, n, next, j - 1) {
    }
    forall j | 0 <= j < moves + 1 ensures !Enters(plan, n, at, j) {
      if j > 1 {
        assert !Enters(plan, n, next, j - 1);
      } else if j == 1 {
        assert After(plan, n, at, 0) == at && After(plan, n, at, 1) == next;
      }
    }
    assert Enters(plan, n, at, moves + 1) by {
      assert Enters(plan, n, next, moves);
    }
  }

  /** From any reported position the signal starts its next cycle after exactly the
      seconds ahead. */
  lemma {:induction false} Arrives(plan: Plan, n: nat, at: Position) returns (moves: nat)
    requires 1 <= at.phase <= PHASE_COUNT_MAX && n <= PHASE_COUNT_MAX && 1 <= at.step
    ensures StartsWith(plan, n, at, moves, Ahead(plan, n, at))
    decreases n - at.phase, 5 - at.step, at.left
  {
    var next := Move(plan, n, at);
    if at.left > 0 || at.step < 5 || at.phase < n {
      MoveCounts(plan, n, at);
      moves := Arrives(plan, n, next);
      StartsLater(plan, n, at, moves, Ahead(plan, n, next));
      moves := moves + 1;
    } else {
      moves := 1;
      assert After(plan, n, at, 0) == at && After(plan, n, at, 1) == After(plan, n, next, 0) == next;
      assert Seconds(plan, n, at, 1) == Seconds(plan, n, next, 0) == 0;
    }
  }
}
