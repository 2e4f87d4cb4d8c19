/** What holds over every run of the scheduler, for the ring (`rows == 3`) and
    for the unbounded schedule (`rows == 0`) alike. */
module CommandRuns {
  import opened FixedWidth
  import opened SignalPlan
  import opened CommandBuffer
  import opened RingRefinement

  // ------------------------------------------------------ counting per slot

  function Bit(b: bool): nat {
    if b then 1 else 0
  }

  /** Which commands a count takes in: all of them, or the resumes only. */
  datatype Kind = Any | Resumes
  {
    predicate Takes(cmd: Command) {
      Any? || IsResume(cmd.host)
    }
  }

  /** The insert is accepted into slot (row, p). */
  predicate AcceptsInto(kind: Kind, rows: nat, s: State, cmd: Command, plan: Plan, row: int, p: int) {
    && kind.Takes(cmd)
    && InsertEffectTime(rows, s, cmd, plan).1 == InsertAccept
    && row == Row(rows, s.cycle + cmd.cycle) && p == cmd.phase
  }

  function AcceptsAll(kind: Kind, rows: nat, s: State, cmds: seq<Command>, plan: Plan, row: int, p: int): nat
    decreases |cmds|
  {
    if cmds == [] then 0
    else
      Bit(AcceptsInto(kind, rows, s, cmds[0], plan, row, p))
      + AcceptsAll(kind, rows, InsertEffectTime(rows, s, cmds[0], plan).0, cmds[1..], plan, row, p)
  }

  /** How many inserts one event gets accepted into slot (row, p). */
  function Accepts(kind: Kind, rows: nat, s: State, ev: Event, row: int, p: int): nat
    requires WellFormed(ev)
  {
    match ev
    case Insert(cmd, plan) => Bit(AcceptsInto(kind, rows, s, cmd, plan, row, p))
    case Adjust(cmd, _, _, _, _, plan) =>
      Bit(kind.Takes(cmd) && InsertAdjustment(rows, s, ev).1 == InsertAccept
          && row == Row(rows, s.cycle + cmd.cycle) && p == cmd.phase)
    case Poll(comp, plan) => if StartsCompensation(s) then AcceptsAll(kind, rows, s, comp, plan, row, p) else 0
    case _ => 0
  }

  /** The event sends slot (row, p) to the controller. */
  predicate SendsSlot(rows: nat, s: State, ev: Event, row: int, p: int)
    requires WellFormed(ev)
  {
    var out := Step(rows, s, ev).1;
    out.Polled? && out.send && row == s.cycle && p == s.phase
  }

  predicate Unsent(t: Table, row: int, p: int) {
    At(t, row, p).appId != 0 && !At(t, row, p).sent
  }

  lemma {:induction false} InsertAllOwes(rows: nat, s: State, cmds: seq<Command>, plan: Plan, row: int, p: int)
    ensures var s' := InsertAll(rows, s, cmds, plan);
            && s' == s.(slots := s'.slots)
            && Bit(Unsent(s'.slots, row, p)) <= Bit(Unsent(s.slots, row, p)) + AcceptsAll(Any, rows, s, cmds, plan, row, p)
    decreases |cmds|
  {
    if cmds != [] {
      InsertAllOwes(rows, InsertEffectTime(rows, s, cmds[0], plan).0, cmds[1..], plan, row, p);
    }
  }

  lemma PollOwes(rows: nat, s: State, comp: seq<Command>, plan: Plan, row: int, p: int)
    ensures var ev := Poll(comp, plan);
      Bit(SendsSlot(rows, s, ev, row, p)) + Bit(Unsent(Step(rows, s, ev).0.slots, row, p))
      <= Bit(Unsent(s.slots, row, p)) + Accepts(Any, rows, s, ev, row, p)
  {
    InsertAllOwes(rows, s, comp, plan, row, p);
  }

  /** A send uses up the one accepted insert that the slot still owes. */
  lemma StepOwes(rows: nat, s: State, ev: Event, row: int, p: int)
    requires WellFormed(ev)
    ensures Bit(SendsSlot(rows, s, ev, row, p)) + Bit(Unsent(Step(rows, s, ev).0.slots, row, p))
            <= Bit(Unsent(s.slots, row, p)) + Accepts(Any, rows, s, ev, row, p)
  {
    match ev
    case Poll(comp, plan) => PollOwes(rows, s, comp, plan, row, p);
    case _ =>
  }

  function TotalAccepts(kind: Kind, rows: nat, s: State, evs: seq<Event>, row: int, p: int): nat
    requires WellFormedRun(evs)
    decreases |evs|
  {
    if evs == [] then 0
    else Accepts(kind, rows, s, evs[0], row, p) + TotalAccepts(kind, rows, Step(rows, s, evs[0]).0, evs[1..], row, p)
  }

  function TotalSends(rows: nat, s: State, evs: seq<Event>, row: int, p: int): nat
    requires WellFormedRun(evs)
    decreases |evs|
  {
    if evs == [] then 0
    else Bit(SendsSlot(rows, s, evs[0], row, p)) + TotalSends(rows, Step(rows, s, evs[0]).0, evs[1..], row, p)
  }

  /** In every run, a slot is sent at most once per insert accepted into it. */
  lemma {:induction false} SendsWithinAccepts(rows: nat, s: State, evs: seq<Event>, row: int, p: int)
    requires WellFormedRun(evs)
    ensures TotalSends(rows, s, evs, row, p) + Bit(Unsent(Run(rows, s, evs).0.slots, row, p))
            <= Bit(Unsent(s.slots, row, p)) + TotalAccepts(Any, rows, s, evs, row, p)
    decreases |evs|
  {
    if evs != [] {
      StepOwes(rows, s, evs[0], row, p);
      SendsWithinAccepts(rows, Step(rows, s, evs[0]).0, evs[1..], row, p);
    }
  }

  /** The last event of a run acts on the state that the rest leads to. */
  lemma {:induction false} RunSnoc(rows: nat, s: State, pre: seq<Event>, ev: Event)
    requires WellFormedRun(pre) && WellFormed(ev)
    ensures WellFormedRun(pre + [ev])
    ensures var (s1, outs) := Run(rows, s, pre);
            var (s2, out) := Step(rows, s1, ev);
            && Run(rows, s, pre + [ev]) == (s2, outs + [out])
            && (forall row, p :: TotalSends(rows, s, pre + [ev], row, p)
                  == TotalSends(rows, s, pre, row, p) + Bit(SendsSlot(rows, s1, ev, row, p)))
    decreases |pre|
  {
    var evs := pre + [ev];
    if pre == [] {
      assert evs == [ev] && [Step(rows, s, ev).1] + [] == [] + [Step(rows, s, ev).1];
    } else {
      assert evs[1..] == pre[1..] + [ev];
      var (s1, out1) := Step(rows, s, pre[0]);
      RunSnoc(rows, s1, pre[1..], ev);
      var (s2, outs) := Run(rows, s1, pre[1..]);
      assert [out1] + (outs + [Step(rows, s2, ev).1]) == [out1] + outs + [Step(rows, s2, ev).1];
    }
  }

  lemma {:induction false} AllowedSnoc(n: int, a: State, pre: seq<Event>, ev: Event)
    requires AllowedRun(n, a, pre + [ev])
    ensures AllowedRun(n, a, pre) && WellFormedRun(pre)
    ensures Allowed(n, Run(0, a, pre).0, ev)
    decreases |pre|
  {
    AllowedIsWellFormed(n, a, pre + [ev]);
    var evs := pre + [ev];
    if pre != [] {
      assert evs[0] == pre[0] && evs[1..] == pre[1..] + [ev];
      AllowedSnoc(n, Step(0, a, pre[0]).0, pre[1..], ev);
    }
    assert forall i | 0 <= i < |pre| :: pre[i] == evs[i];
  }

  /** The current slot of the ring never holds a command left from an earlier
      cycle: whenever the ring sends, an insert addressed to this very cycle and
      phase was accepted, in the same run, for the unbounded schedule. */
  lemma NoStaleCommand(n: int, pre: seq<Event>, ev: Event)
    requires 2 <= n <= PHASE_COUNT_MAX && AllowedRun(n, Start(0), pre + [ev])
    ensures WellFormedRun(pre) && WellFormed(ev)
    ensures var r, a := Run(CYCLE_NUM, Start(CYCLE_NUM), pre).0, Run(0, Start(0), pre).0;
            SendsSlot(CYCLE_NUM, r, ev, r.cycle, r.phase) ==>
              && WellFormedRun(pre + [ev])
              && TotalAccepts(Any, 0, Start(0), pre + [ev], a.cycle, a.phase) >= 1
              && Step(CYCLE_NUM, r, ev).1 == Step(0, a, ev).1
  {
    AllowedSnoc(n, Start(0), pre, ev);
    RingRefinesSchedule(n, pre);
    RingRefinesSchedule(n, pre + [ev]);
    var r, a := Run(CYCLE_NUM, Start(CYCLE_NUM), pre).0, Run(0, Start(0), pre).0;
    if SendsSlot(CYCLE_NUM, r, ev, r.cycle, r.phase) {
      StepRefines(n, r, a, ev);
      assert SendsSlot(0, a, ev, a.cycle, a.phase);
      RunSnoc(0, Start(0), pre, ev);
      SendsWithinAccepts(0, Start(0), pre + [ev], a.cycle, a.phase);
    }
  }

  // ------------------------------------------------------- two polls per send

  /** The phase that the last poll of the run saw; polls before the first status
      report see none and leave `seen` alone. */
  function LastSeen(rows: nat, s: State, evs: seq<Event>, seen: u8): u8
    requires WellFormedRun(evs)
    decreases |evs|
  {
    if evs == [] then seen
    else
      LastSeen(rows, Step(rows, s, evs[0]).0, evs[1..],
               if evs[0].Poll? && s.phase != 0 then s.phase else seen)
  }

  lemma {:induction false} PriorIsLastSeen(rows: nat, s: State, evs: seq<Event>)
    requires WellFormedRun(evs)
    ensures Run(rows, s, evs).0.priorPhase == LastSeen(rows, s, evs, s.priorPhase)
    decreases |evs|
  {
    if evs != [] {
      PriorIsLastSeen(rows, Step(rows, s, evs[0]).0, evs[1..]);
      if evs[0].Poll? {
        InsertAllOwes(rows, s, evs[0].comp, evs[0].plan, 0, 0);
      }
    }
  }

  /** A command goes out only at a poll that sees the phase which the poll before
      it saw, during step 1, with more than a second left. */
  lemma SentAtSecondPoll(rows: nat, pre: seq<Event>, ev: Event, row: int, p: int)
    requires WellFormedRun(pre) && WellFormed(ev)
    requires SendsSlot(rows, Run(rows, Start(rows), pre).0, ev, row, p)
    ensures var s := Run(rows, Start(rows), pre).0;
            s.phase == p && LastSeen(rows, Start(rows), pre, 0) == p && s.step == 1 && s.sec > 1
  {
    PriorIsLastSeen(rows, Start(rows), pre);
    var s := Run(rows, Start(rows), pre).0;
    InsertAllOwes(rows, s, ev.comp, ev.plan, 0, 0);
  }

  // ------------------------------------------------------------------- ranges

  /** The limits are in order and leave room for the pedestrian steps, and either
      the longest green fits the eight-bit slot or no remainder is too short. */
  predicate SoundPhase(p: PhasePlan) {
    p.minGreen <= p.maxGreen && p.Ped() <= p.maxGreen && (p.maxGreen <= 255 + p.Ped() || p.minGreen <= p.Ped())
  }

  predicate Sound(plan: Plan) {
    forall i | 0 <= i < |plan| :: SoundPhase(plan[i])
  }

  predicate InRange(e: int, p: PhasePlan) {
    p.minGreen <= e + p.Ped() <= p.maxGreen
  }

  ghost predicate SlotsInRange(t: Table, plan: Plan) {
    forall k | k in t && t[k].appId != 0 :: 1 <= k.1 <= PHASE_COUNT_MAX && InRange(t[k].effectTime, plan[k.1 - 1])
  }

  predicate UsesPlan(ev: Event, plan: Plan) {
    match ev
    case Insert(_, p) => p == plan
    case Adjust(_, _, _, _, _, p) => p == plan
    case Poll(_, p) => p == plan
    case _ => true
  }

  predicate RunUsesPlan(evs: seq<Event>, plan: Plan) {
    forall i | 0 <= i < |evs| :: UsesPlan(evs[i], plan)
  }

  lemma InsertInRange(rows: nat, s: State, cmd: Command, plan: Plan)
    requires Sound(plan) && SlotsInRange(s.slots, plan)
    ensures SlotsInRange(InsertEffectTime(rows, s, cmd, plan).0.slots, plan)
  {
    if Validate(cmd) == InsertAccept {
      var row := Row(rows, s.cycle + cmd.cycle);
      InsertWrites(rows, s, cmd, plan, row);
      SoundKeepsRange(cmd.effectTime, plan[cmd.phase - 1]);
    }
  }

  lemma SoundKeepsRange(effect: i16, p: PhasePlan)
    requires SoundPhase(p) && effect >= 0
    ensures InRange(U8(Clamp(effect, p)), p)
  {
  }

  lemma {:induction false} InsertAllInRange(rows: nat, s: State, cmds: seq<Command>, plan: Plan)
    requires Sound(plan) && SlotsInRange(s.slots, plan)
    ensures SlotsInRange(InsertAll(rows, s, cmds, plan).slots, plan)
    decreases |cmds|
  {
    if cmds != [] {
      InsertInRange(rows, s, cmds[0], plan);
      InsertAllInRange(rows, InsertEffectTime(rows, s, cmds[0], plan).0, cmds[1..], plan);
    }
  }

  lemma AdjustInRange(rows: nat, s: State, ev: Event, plan: Plan)
    requires ev.Adjust? && WellFormed(ev) && UsesPlan(ev, plan)
    requires Sound(plan) && SlotsInRange(s.slots, plan)
    ensures SlotsInRange(InsertAdjustment(rows, s, ev).0.slots, plan)
  {
    if !IsCompensating(s, ev.fixedTime, plan) && ev.adjustment != 0 {
      var slot := At(s.slots, Row(rows, s.cycle + ev.cmd.cycle), ev.cmd.phase);
      AdjustInserts(rows, s, ev, slot);
      var effect := AdjustedEffect(slot, ev.adjustment, ev.lower, ev.upper, plan[ev.cmd.phase - 1]);
      InsertInRange(rows, s, ev.cmd.(effectTime := effect), plan);
    }
  }

  lemma PollInRange(rows: nat, s: State, comp: seq<Command>, plan: Plan)
    requires Sound(plan) && SlotsInRange(s.slots, plan)
    ensures SlotsInRange(Polling(rows, s, comp, plan).0.slots, plan)
  {
    InsertAllInRange(rows, s, comp, plan);
    InsertAllOwes(rows, s, comp, plan, 0, 0);
  }

  lemma StepInRange(rows: nat, s: State, ev: Event, plan: Plan)
    requires WellFormed(ev) && UsesPlan(ev, plan)
    requires Sound(plan) && SlotsInRange(s.slots, plan)
    ensures SlotsInRange(Step(rows, s, ev).0.slots, plan)
  {
    match ev
    case Insert(cmd, _) => InsertInRange(rows, s, cmd, plan);
    case Adjust(_, _, _, _, _, _) => AdjustInRange(rows, s, ev, plan);
    case Poll(comp, _) => PollInRange(rows, s, comp, plan);
    case _ =>
  }

  /** With one fixed, sound plan, every command that waits in any slot at any
      time keeps its phase within the green limits. */
  lemma {:induction false} RunInRange(rows: nat, s: State, evs: seq<Event>, plan: Plan)
    requires WellFormedRun(evs) && RunUsesPlan(evs, plan)
    requires Sound(plan) && SlotsInRange(s.slots, plan)
    ensures SlotsInRange(Run(rows, s, evs).0.slots, plan)
    decreases |evs|
  {
    if evs != [] {
      StepInRange(rows, s, evs[0], plan);
      RunInRange(rows, Step(rows, s, evs[0]).0, evs[1..], plan);
    }
  }

  /** The request that leaves the range on a phase that is not sound. */
  lemma UnsoundRequest(p: PhasePlan) returns (effect: i16)
    requires !SoundPhase(p)
    ensures effect >= 0 && !InRange(U8(Clamp(effect, p)), p)
  {
    effect := if p.minGreen <= p.maxGreen && p.Ped() <= p.maxGreen then 256 else 0;
  }

  /** With one fixed plan, all runs of the ring, as of the schedule, keep every
      waiting command within the green limits if and only if each phase of the plan
      is sound. */
  lemma RangeKeptIff(rows: nat, plan: Plan)
    ensures Sound(plan) <==>
      forall evs | WellFormedRun(evs) && RunUsesPlan(evs, plan) ::
        SlotsInRange(Run(rows, Start(rows), evs).0.slots, plan)
  {
    if Sound(plan) {
      forall evs | WellFormedRun(evs) && RunUsesPlan(evs, plan)
        ensures SlotsInRange(Run(rows, Start(rows), evs).0.slots, plan)
      {
        RunInRange(rows, Start(rows), evs, plan);
      }
    } else {
      var i :| 0 <= i < |plan| && !SoundPhase(plan[i]);
      var effect := UnsoundRequest(plan[i]);
      UnsoundRun(rows, plan, i + 1, effect);
    }
  }

  lemma {:induction false} RunOfOne(rows: nat, s: State, ev: Event)
    requires WellFormed(ev)
    ensures WellFormedRun([ev]) && Run(rows, s, [ev]).0 == Step(rows, s, ev).0
  {
    assert [ev][1..] == [];
    assert Run(rows, Step(rows, s, ev).0, []).0 == Step(rows, s, ev).0;
  }

  /** One insert is enough. */
  lemma UnsoundRun(rows: nat, plan: Plan, phase: u8, effect: i16)
    requires 1 <= phase <= PHASE_COUNT_MAX && effect >= 0 && !InRange(U8(Clamp(effect, plan[phase - 1])), plan[phase - 1])
    ensures exists evs | WellFormedRun(evs) && RunUsesPlan(evs, plan) ::
      !SlotsInRange(Run(rows, Start(rows), evs).0.slots, plan)
  {
    var cmd := Command(1, 1, phase, 0, phase, effect, "A");
    var evs := [Insert(cmd, plan)];
    var s := Start(rows);
    var row := Row(rows, 0);
    InsertWrites(rows, s, cmd, plan, row);
    RunOfOne(rows, s, Insert(cmd, plan));
    var slots := Run(rows, s, evs).0.slots;
    assert slots[(row as int, phase as int)] == Contest(EMPTY, cmd, plan[phase - 1]).0;
    assert WellFormedRun(evs) && RunUsesPlan(evs, plan);
  }

  // ------------------------------------------------------------------ resumes

  predicate Holds(t: Table, row: int, p: int) {
    IsResume(At(t, row, p).host)
  }

  /** The event starts a compensation because of slot (row, p). */
  predicate Fires(rows: nat, s: State, ev: Event, row: int, p: int)
    requires WellFormed(ev)
  {
    var out := Step(rows, s, ev).1;
    out.Polled? && out.compensated && row == s.priorCycle && p == s.priorPhase
  }

  lemma {:induction false} InsertAllHolds(rows: nat, s: State, cmds: seq<Command>, plan: Plan, row: int, p: int)
    ensures var s' := InsertAll(rows, s, cmds, plan);
            && Bit(Holds(s'.slots, row, p)) <= Bit(Holds(s.slots, row, p)) + AcceptsAll(Resumes, rows, s, cmds, plan, row, p)
            && (AcceptsAll(Any, rows, s, cmds, plan, row, p) == 0 ==> At(s'.slots, row, p) == At(s.slots, row, p))
    decreases |cmds|
  {
    if cmds != [] {
      InsertAllHolds(rows, InsertEffectTime(rows, s, cmds[0], plan).0, cmds[1..], plan, row, p);
    }
  }

  lemma PollFires(rows: nat, s: State, comp: seq<Command>, plan: Plan, row: int, p: int)
    ensures var ev := Poll(comp, plan);
      Bit(Fires(rows, s, ev, row, p)) + Bit(Holds(Step(rows, s, ev).0.slots, row, p))
      <= Bit(Holds(s.slots, row, p)) + Accepts(Resumes, rows, s, ev, row, p)
  {
    InsertAllHolds(rows, s, comp, plan, row, p);
    InsertAllOwes(rows, s, comp, plan, row, p);
  }

  lemma StepFires(rows: nat, s: State, ev: Event, row: int, p: int)
    requires WellFormed(ev)
    ensures Bit(Fires(rows, s, ev, row, p)) + Bit(Holds(Step(rows, s, ev).0.slots, row, p))
            <= Bit(Holds(s.slots, row, p)) + Accepts(Resumes, rows, s, ev, row, p)
  {
    match ev
    case Poll(comp, plan) => PollFires(rows, s, comp, plan, row, p);
    case _ =>
  }

  function TotalFires(rows: nat, s: State, evs: seq<Event>, row: int, p: int): nat
    requires WellFormedRun(evs)
    decreases |evs|
  {
    if evs == [] then 0
    else Bit(Fires(rows, s, evs[0], row, p)) + TotalFires(rows, Step(rows, s, evs[0]).0, evs[1..], row, p)
  }

  /** In every run, each accepted resume starts at most one compensation. */
  lemma {:induction false} FiresWithinResumes(rows: nat, s: State, evs: seq<Event>, row: int, p: int)
    requires WellFormedRun(evs)
    ensures TotalFires(rows, s, evs, row, p) + Bit(Holds(Run(rows, s, evs).0.slots, row, p))
            <= Bit(Holds(s.slots, row, p)) + TotalAccepts(Resumes, rows, s, evs, row, p)
    decreases |evs|
  {
    if evs != [] {
      StepFires(rows, s, evs[0], row, p);
      FiresWithinResumes(rows, Step(rows, s, evs[0]).0, evs[1..], row, p);
    }
  }

  /** The poll sees that the signal has left slot (row, p). */
  predicate Leaves(s: State, ev: Event, row: int, p: int) {
    && ev.Poll? && s.phase != 0 && s.priorPhase != 0 && s.priorPhase != s.phase
    && row == s.priorCycle && p == s.priorPhase
  }

  /** No event of the run replaces, clears or leaves slot (row, p). */
  predicate LeftAlone(rows: nat, s: State, evs: seq<Event>, row: int, p: int)
    requires WellFormedRun(evs)
    decreases |evs|
  {
    evs == []
    || (&& !evs[0].Clear?
        && evs[0] != DeleteObu(At(s.slots, row, p).host)
        && Accepts(Any, rows, s, evs[0], row, p) == 0
        && !Leaves(s, evs[0], row, p)
        && LeftAlone(rows, Step(rows, s, evs[0]).0, evs[1..], row, p))
  }

  lemma PollLeavesHost(rows: nat, s: State, comp: seq<Command>, plan: Plan, row: int, p: int)
    requires Accepts(Any, rows, s, Poll(comp, plan), row, p) == 0 && !Leaves(s, Poll(comp, plan), row, p)
    ensures At(Step(rows, s, Poll(comp, plan)).0.slots, row, p).host == At(s.slots, row, p).host
  {
    InsertAllHolds(rows, s, comp, plan, row, p);
    InsertAllOwes(rows, s, comp, plan, row, p);
  }

  lemma StepLeavesHost(rows: nat, s: State, ev: Event, row: int, p: int)
    requires WellFormed(ev) && !ev.Clear? && ev != DeleteObu(At(s.slots, row, p).host)
    requires Accepts(Any, rows, s, ev, row, p) == 0 && !Leaves(s, ev, row, p)
    ensures At(Step(rows, s, ev).0.slots, row, p).host == At(s.slots, row, p).host
  {
    match ev
    case Poll(comp, plan) => PollLeavesHost(rows, s, comp, plan, row, p);
    case _ =>
  }

  lemma {:induction false} HostStays(rows: nat, s: State, evs: seq<Event>, row: int, p: int)
    requires WellFormedRun(evs) && LeftAlone(rows, s, evs, row, p)
    ensures At(Run(rows, s, evs).0.slots, row, p).host == At(s.slots, row, p).host
    decreases |evs|
  {
    if evs != [] {
      StepLeavesHost(rows, s, evs[0], row, p);
      HostStays(rows, Step(rows, s, evs[0]).0, evs[1..], row, p);
    }
  }

  /** A resume left in a slot starts the compensation at the poll that sees the
      signal leave it, however long that takes, and is gone afterwards; a slot
      without one starts none. */
  lemma ResumeFiresOnLeaving(rows: nat, s: State, evs: seq<Event>, ev: Event, row: int, p: int)
    requires WellFormedRun(evs) && WellFormed(ev) && LeftAlone(rows, s, evs, row, p)
    ensures var s1 := Run(rows, s, evs).0;
            && (Fires(rows, s1, ev, row, p) <==> Holds(s.slots, row, p) && Leaves(s1, ev, row, p))
            && (Fires(rows, s1, ev, row, p) ==> !Holds(Step(rows, s1, ev).0.slots, row, p))
  {
    HostStays(rows, s, evs, row, p);
    var s1 := Run(rows, s, evs).0;
    if ev.Poll? {
      InsertAllOwes(rows, s1, ev.comp, ev.plan, row, p);
    }
  }

  /** The slot's command loses its id to the resume. */
  predicate Displaces(rows: nat, s: State, cmd: Command, plan: Plan) {
    var row := Row(rows, s.cycle + cmd.cycle);
    var was, now := At(s.slots, row, cmd.phase), At(InsertEffectTime(rows, s, cmd, plan).0.slots, row, cmd.phase);
    was.appId != 0 && now.appId != was.appId
  }

  lemma ResumeContestIff(slot: Slot, cmd: Command, p: PhasePlan)
    requires cmd.host == RESUME
    ensures Contest(slot, cmd, p).1 == InsertAccept
            <==> slot.appId == 0 || slot.host == RESUME || slot.appId == cmd.appId
    ensures slot.appId != 0 ==>
      (Contest(slot, cmd, p).0.appId != slot.appId <==> slot.host == RESUME && slot.appId != cmd.appId)
  {
  }

  /** Whatever came before, a resume is accepted exactly where nothing waits, where
      a resume waits, or where a command of its own id waits; and the command that
      it displaces is another resume, one of a different id. */
  lemma ResumeAcceptedIff(rows: nat, s: State, cmd: Command, plan: Plan)
    requires cmd.host == RESUME && Validate(cmd) == InsertAccept
    ensures var slot := At(s.slots, Row(rows, s.cycle + cmd.cycle), cmd.phase);
      && (InsertEffectTime(rows, s, cmd, plan).1 == InsertAccept
          <==> slot.appId == 0 || slot.host == RESUME || slot.appId == cmd.appId)
      && (Displaces(rows, s, cmd, plan) <==> slot.appId != 0 && slot.host == RESUME && slot.appId != cmd.appId)
  {
    var row := Row(rows, s.cycle + cmd.cycle);
    InsertWrites(rows, s, cmd, plan, row);
    ResumeContestIff(At(s.slots, row, cmd.phase), cmd, plan[cmd.phase - 1]);
  }

  /** Resumes carry the id that resume_control gives them. */
  predicate Disciplined(cmd: Command) {
    cmd.host == RESUME ==> cmd.appId == COMPENSATION_ID
  }

  predicate DisciplinedEvent(ev: Event) {
    match ev
    case Insert(cmd, _) => Disciplined(cmd)
    case Adjust(cmd, _, _, _, _, _) => Disciplined(cmd)
    case Poll(comp, _) => forall cmd | cmd in comp :: Disciplined(cmd)
    case _ => true
  }

  predicate DisciplinedRun(evs: seq<Event>) {
    forall i | 0 <= i < |evs| :: DisciplinedEvent(evs[i])
  }

  ghost predicate DisciplinedTable(t: Table) {
    forall k | k in t && t[k].host == RESUME :: t[k].appId == COMPENSATION_ID
  }

  lemma InsertDisciplined(rows: nat, s: State, cmd: Command, plan: Plan)
    requires DisciplinedTable(s.slots) && Disciplined(cmd)
    ensures DisciplinedTable(InsertEffectTime(rows, s, cmd, plan).0.slots)
  {
    if Validate(cmd) == InsertAccept {
      InsertWrites(rows, s, cmd, plan, Row(rows, s.cycle + cmd.cycle));
    }
  }

  lemma {:induction false} InsertAllDisciplined(rows: nat, s: State, cmds: seq<Command>, plan: Plan)
    requires DisciplinedTable(s.slots) && forall cmd | cmd in cmds :: Disciplined(cmd)
    ensures DisciplinedTable(InsertAll(rows, s, cmds, plan).slots)
    decreases |cmds|
  {
    if cmds != [] {
      InsertDisciplined(rows, s, cmds[0], plan);
      InsertAllDisciplined(rows, InsertEffectTime(rows, s, cmds[0], plan).0, cmds[1..], plan);
    }
  }

  lemma PollDisciplined(rows: nat, s: State, comp: seq<Command>, plan: Plan)
    requires DisciplinedTable(s.slots) && forall cmd | cmd in comp :: Disciplined(cmd)
    ensures DisciplinedTable(Polling(rows, s, comp, plan).0.slots)
  {
    InsertAllDisciplined(rows, s, comp, plan);
    InsertAllOwes(rows, s, comp, plan, 0, 0);
  }

  lemma AdjustDisciplined(rows: nat, s: State, ev: Event)
    requires ev.Adjust? && WellFormed(ev) && Disciplined(ev.cmd) && DisciplinedTable(s.slots)
    ensures DisciplinedTable(InsertAdjustment(rows, s, ev).0.slots)
  {
    if !IsCompensating(s, ev.fixedTime, ev.plan) && ev.adjustment != 0 {
      var slot := At(s.slots, Row(rows, s.cycle + ev.cmd.cycle), ev.cmd.phase);
      AdjustInserts(rows, s, ev, slot);
      var effect := AdjustedEffect(slot, ev.adjustment, ev.lower, ev.upper, ev.plan[ev.cmd.phase - 1]);
      InsertDisciplined(rows, s, ev.cmd.(effectTime := effect), ev.plan);
    }
  }

  lemma StepDisciplined(rows: nat, s: State, ev: Event)
    requires WellFormed(ev) && DisciplinedEvent(ev) && DisciplinedTable(s.slots)
    ensures DisciplinedTable(Step(rows, s, ev).0.slots)
  {
    match ev
    case Poll(comp, plan) => PollDisciplined(rows, s, comp, plan);
    case Insert(cmd, plan) => InsertDisciplined(rows, s, cmd, plan);
    case Adjust(_, _, _, _, _, _) => AdjustDisciplined(rows, s, ev);
    case _ =>
  }

  lemma {:induction false} RunDisciplined(rows: nat, s: State, evs: seq<Event>)
    requires WellFormedRun(evs) && DisciplinedRun(evs)
    requires DisciplinedTable(s.slots)
    ensures DisciplinedTable(Run(rows, s, evs).0.slots)
    decreases |evs|
  {
    if evs != [] {
      StepDisciplined(rows, s, evs[0]);
      RunDisciplined(rows, Step(rows, s, evs[0]).0, evs[1..]);
    }
  }

  /** In every run, a resume gets in exactly where no application's command
      waits, as long as nobody else uses its name with an id of its own. */
  lemma ResumeDisplacesNoApp(rows: nat, evs: seq<Event>, cmd: Command, plan: Plan)
    requires WellFormedRun(evs) && DisciplinedRun(evs)
    requires cmd.host == RESUME && cmd.appId == COMPENSATION_ID && Validate(cmd) == InsertAccept
    ensures var s := Run(rows, Start(rows), evs).0;
            var slot := At(s.slots, Row(rows, s.cycle + cmd.cycle), cmd.phase);
            && (InsertEffectTime(rows, s, cmd, plan).1 == InsertAccept
                <==> slot.appId == 0 || slot.appId == COMPENSATION_ID)
            && !Displaces(rows, s, cmd, plan)
  {
    RunDisciplined(rows, Start(rows), evs);
    var s := Run(rows, Start(rows), evs).0;
    ResumeAcceptedIff(rows, s, cmd, plan);
  }

  /** It only takes one command that uses the name with an id of its own: the next
      resume of resume_control for that slot takes the slot away from it. */
  lemma RogueIsDisplaced(rows: nat, rogue: Command, cmd: Command, plan: Plan)
    requires !Disciplined(rogue) && Validate(rogue) == InsertAccept
    requires cmd.host == RESUME && cmd.appId == COMPENSATION_ID && Validate(cmd) == InsertAccept
    requires cmd.cycle == rogue.cycle && cmd.phase == rogue.phase
    ensures WellFormedRun([Insert(rogue, plan)])
    ensures var s := Run(rows, Start(rows), [Insert(rogue, plan)]).0;
      var slot := At(s.slots, Row(rows, s.cycle + cmd.cycle), cmd.phase);
      && slot.appId == rogue.appId != COMPENSATION_ID
      && InsertEffectTime(rows, s, cmd, plan).1 == InsertAccept && Displaces(rows, s, cmd, plan)
  {
    RunOfOne(rows, Start(rows), Insert(rogue, plan));
    RogueWaits(rows, rogue, plan);
    ResumeAcceptedIff(rows, Step(rows, Start(rows), Insert(rogue, plan)).0, cmd, plan);
  }

  lemma RogueWaits(rows: nat, rogue: Command, plan: Plan)
    requires Validate(rogue) == InsertAccept
    ensures var s := Step(rows, Start(rows), Insert(rogue, plan)).0;
      var slot := At(s.slots, Row(rows, s.cycle + rogue.cycle), rogue.phase);
      s.cycle == 0 && slot.appId == rogue.appId && slot.host == rogue.host
  {
    InsertWrites(rows, Start(rows), rogue, plan, Row(rows, Start(rows).cycle + rogue.cycle));
  }

  /** Exactly what protects an application: no event of the runs that a set of
      callers may produce loses a command to a resume if and only if all of them
      are disciplined. */
  lemma NoneDisplacedIff(rows: nat, senders: iset<Command>, plan: Plan)
    requires forall cmd | cmd in senders :: Validate(cmd) == InsertAccept
    ensures (forall cmd | cmd in senders :: Disciplined(cmd)) <==>
      forall evs, cmd | SentBy(evs, senders, plan) && ResumeControls(cmd) ::
        !Displaces(rows, Run(rows, Start(rows), evs).0, cmd, plan)
  {
    if forall cmd | cmd in senders :: Disciplined(cmd) {
      forall evs, cmd | SentBy(evs, senders, plan) && ResumeControls(cmd)
        ensures !Displaces(rows, Run(rows, Start(rows), evs).0, cmd, plan)
      {
        ResumeDisplacesNoApp(rows, evs, cmd, plan);
      }
    } else {
      var rogue :| rogue in senders && !Disciplined(rogue);
      var cmd := Command(COMPENSATION_ID, 99, rogue.phase, rogue.cycle, rogue.phase, 0, RESUME);
      var evs := [Insert(rogue, plan)];
      RogueIsDisplaced(rows, rogue, cmd, plan);
      assert SentBy(evs, senders, plan) && ResumeControls(cmd);
    }
  }

  predicate ResumeControls(cmd: Command) {
    cmd.host == RESUME && cmd.appId == COMPENSATION_ID && Validate(cmd) == InsertAccept
  }

  /** Any run whose inserts come from these senders. */
  ghost predicate SentBy(evs: seq<Event>, senders: iset<Command>, plan: Plan) {
    WellFormedRun(evs) && forall i | 0 <= i < |evs| ::
      match evs[i]
      case Insert(cmd, p) => cmd in senders && p == plan
      case Adjust(cmd, _, _, _, _, _) => cmd in senders
      case Poll(comp, _) => forall cmd | cmd in comp :: Disciplined(cmd)
      case _ => true
  }
}
