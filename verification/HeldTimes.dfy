/** From the seconds allocated to the seconds that the slots hold after the poll
    that compensates.  The insert limits the times once more, this time with the
    pedestrian steps; a slot keeps eight bits of a time; a slot that somebody else
    holds may not yield; and two cycles can write one slot. */
module HeldTimes {
  import opened FixedWidth
  import opened SignalPlan
  import opened CommandBuffer
  import opened Compensation
  import opened CompensationSlots
  import opened RunningSignal
  import Allocation
  import CommandRuns

  // ------------------------------------------------------------------- one slot

  /** A command of the compensation: the time of a phase, within its limits. */
  predicate Compensates(cmd: Command, plan: Plan) {
    && cmd.appId == COMPENSATION_ID && cmd.priority == 99 && cmd.host == COMPENSATION
    && cmd.cycle < CYCLE_NUM && 1 <= cmd.phase <= PHASE_COUNT_MAX && cmd.targetPhase == cmd.phase
    && plan[cmd.phase - 1].minGreen <= cmd.effectTime <= plan[cmd.phase - 1].maxGreen
  }

  /** The slot waits to send the time that the command asks for. */
  predicate Holds(slot: Slot, cmd: Command) {
    slot.appId != 0 && !slot.sent && slot.targetPhase == cmd.targetPhase && slot.effectTime == cmd.effectTime
  }

  /** The slot gives way to the compensation: it is empty, or belongs to a resume,
      to a compensation or to the same sender; or it has the same target and a time
      no further from the planned one, or another target and less urgency. */
  predicate Yields(slot: Slot, cmd: Command, p: PhasePlan) {
    || slot.appId == 0 || slot.host == RESUME || slot.host == COMPENSATION
    || (slot.appId == COMPENSATION_ID && SameUpTo(slot.host, COMPENSATION, OBU_NAME_MAX))
    || if slot.targetPhase == cmd.targetPhase
       then Abs(slot.effectTime - p.preTimeCompensated) <= Abs(Clamp(cmd.effectTime, p) - p.preTimeCompensated)
       else slot.priority > 99
  }

  /** There is room for the pedestrian steps below the longest green. */
  predicate LeavesRoom(cmd: Command, p: PhasePlan) {
    cmd.effectTime + p.Ped() <= p.maxGreen
  }

  /** The time gets into the slot unchanged.  Without room for the pedestrian steps
      that is a coincidence of eight bits, and takes more pedestrian seconds than
      the longest green. */
  predicate Unchanged(cmd: Command, p: PhasePlan) {
    if LeavesRoom(cmd, p) then cmd.effectTime <= 255 else cmd.effectTime == U8(p.maxGreen - p.Ped())
  }

  /** What a command asks for beyond the planned green. */
  function Given(cmd: Command, plan: Plan): int
    requires Compensates(cmd, plan)
  {
    cmd.effectTime - plan[cmd.phase - 1].preGreen
  }

  /** One insert: afterwards the slot holds the time if and only if it yields and
      the time gets in unchanged, or it does not and asks for just that time. */
  lemma InsertHoldsIff(slot: Slot, cmd: Command, plan: Plan)
    requires Compensates(cmd, plan)
    ensures var p := plan[cmd.phase - 1];
            Holds(Contest(slot, cmd, p).0, cmd)
            <==> if Yields(slot, cmd, p) then Unchanged(cmd, p) else Holds(slot, cmd)
  {
    var p := plan[cmd.phase - 1];
    assert U8(I16(p.maxGreen - p.Ped())) == U8(p.maxGreen - p.Ped());
  }

  /** A slot that yields holds at most the time asked for, and all of it if and only
      if there is room for the pedestrian steps and the time fits eight bits. */
  lemma YieldedAtMost(slot: Slot, cmd: Command, plan: Plan)
    requires Compensates(cmd, plan) && Yields(slot, cmd, plan[cmd.phase - 1])
    requires plan[cmd.phase - 1].Ped() <= plan[cmd.phase - 1].maxGreen
    ensures var p := plan[cmd.phase - 1]; var held := Contest(slot, cmd, p).0.effectTime;
            held <= cmd.effectTime && (held == cmd.effectTime <==> LeavesRoom(cmd, p) && cmd.effectTime <= 255)
  {
  }

  /** What an insert leaves in the slot gives way to the same command again, which
      changes nothing. */
  lemma InsertAgain(slot: Slot, cmd: Command, other: Command, plan: Plan)
    requires Compensates(cmd, plan) && Compensates(other, plan)
    requires cmd.phase == other.phase && cmd.effectTime == other.effectTime
    ensures var p := plan[cmd.phase - 1];
            Contest(Contest(slot, cmd, p).0, other, p).0 == Contest(slot, cmd, p).0 == Contest(slot, other, p).0
  {
  }

  // ------------------------------------------------------------------ the table

  /** The row and the phase that an insert addresses. */
  function Cell(rows: nat, s: State, cmd: Command): (int, int) {
    (Row(rows, s.cycle + cmd.cycle), cmd.phase)
  }

  function SlotOf(rows: nat, s: State, t: Table, cmd: Command): Slot {
    At(t, Cell(rows, s, cmd).0, cmd.phase)
  }

  predicate AllCompensate(cmds: seq<Command>, plan: Plan) {
    forall cmd | cmd in cmds :: Compensates(cmd, plan)
  }

  /** One of the commands addresses the slot of this one. */
  predicate Reached(rows: nat, s: State, cmds: seq<Command>, cmd: Command) {
    exists other | other in cmds :: Cell(rows, s, other) == Cell(rows, s, cmd)
  }

  /** All commands that address the slot of this one ask for the same time. */
  predicate Agreed(rows: nat, s: State, cmds: seq<Command>, cmd: Command) {
    forall other | other in cmds && Cell(rows, s, other) == Cell(rows, s, cmd) :: other.effectTime == cmd.effectTime
  }

  lemma InsertAt(rows: nat, s: State, first: Command, cmd: Command, plan: Plan)
    requires Compensates(first, plan)
    ensures var s', was := InsertEffectTime(rows, s, first, plan).0, SlotOf(rows, s, s.slots, cmd);
            && s' == s.(slots := s'.slots)
            && SlotOf(rows, s, s'.slots, cmd)
               == if Cell(rows, s, first) == Cell(rows, s, cmd) then Contest(was, first, plan[cmd.phase - 1]).0 else was
  {
  }

  /** After all the inserts a slot that they agree on is as after one of them. */
  lemma {:induction false} AllAt(rows: nat, s: State, cmds: seq<Command>, cmd: Command, plan: Plan)
    requires AllCompensate(cmds, plan) && Compensates(cmd, plan) && Agreed(rows, s, cmds, cmd)
    ensures var was := SlotOf(rows, s, s.slots, cmd);
            SlotOf(rows, s, InsertAll(rows, s, cmds, plan).slots, cmd)
            == if Reached(rows, s, cmds, cmd) then Contest(was, cmd, plan[cmd.phase - 1]).0 else was
    decreases |cmds|
  {
    if cmds != [] {
      var s' := InsertEffectTime(rows, s, cmds[0], plan).0;
      assert Compensates(cmds[0], plan);
      InsertAt(rows, s, cmds[0], cmd, plan);
      RestAgrees(rows, s, s', cmds, cmd, plan);
      AllAt(rows, s', cmds[1..], cmd, plan);
      FirstThenRest(rows, s, cmds, cmd, plan, SlotOf(rows, s, InsertAll(rows, s', cmds[1..], plan).slots, cmd));
    }
  }

  lemma FirstThenRest(rows: nat, s: State, cmds: seq<Command>, cmd: Command, plan: Plan, slot: Slot)
    requires cmds != [] && AllCompensate(cmds, plan) && Compensates(cmd, plan) && Agreed(rows, s, cmds, cmd)
    requires var s' := InsertEffectTime(rows, s, cmds[0], plan).0; var next := SlotOf(rows, s, s'.slots, cmd);
             slot == if Reached(rows, s', cmds[1..], cmd) then Contest(next, cmd, plan[cmd.phase - 1]).0 else next
    ensures var was := SlotOf(rows, s, s.slots, cmd);
            slot == if Reached(rows, s, cmds, cmd) then Contest(was, cmd, plan[cmd.phase - 1]).0 else was
  {
    var s' := InsertEffectTime(rows, s, cmds[0], plan).0;
    InsertAt(rows, s, cmds[0], cmd, plan);
    RestAgrees(rows, s, s', cmds, cmd, plan);
    ReachedNext(rows, s, s', cmds, cmd);
    TwoInserts(SlotOf(rows, s, s.slots, cmd), cmds[0], cmd, plan,
               Cell(rows, s, cmds[0]) == Cell(rows, s, cmd), Reached(rows, s', cmds[1..], cmd));
  }

  lemma TwoInserts(was: Slot, first: Command, cmd: Command, plan: Plan, here: bool, later: bool)
    requires Compensates(first, plan) && Compensates(cmd, plan)
    requires here ==> first.phase == cmd.phase && first.effectTime == cmd.effectTime
    ensures var p := plan[cmd.phase - 1];
            var next := if here then Contest(was, first, p).0 else was;
            (if later then Contest(next, cmd, p).0 else next) == if here || later then Contest(was, cmd, p).0 else was
  {
    if here {
      InsertAgain(was, first, cmd, plan);
    }
  }

  lemma RestAgrees(rows: nat, s: State, s': State, cmds: seq<Command>, cmd: Command, plan: Plan)
    requires cmds != [] && s' == s.(slots := s'.slots) && AllCompensate(cmds, plan) && Agreed(rows, s, cmds, cmd)
    ensures AllCompensate(cmds[1..], plan) && Agreed(rows, s', cmds[1..], cmd) && Compensates(cmds[0], plan)
    ensures Cell(rows, s, cmds[0]) == Cell(rows, s, cmd) ==> cmds[0].effectTime == cmd.effectTime
  {
    assert forall other | other in cmds[1..] :: other in cmds && Cell(rows, s', other) == Cell(rows, s, other);
  }

  lemma ReachedNext(rows: nat, s: State, s': State, cmds: seq<Command>, cmd: Command)
    requires cmds != [] && s' == s.(slots := s'.slots)
    ensures Reached(rows, s, cmds, cmd) <==>
              Cell(rows, s, cmds[0]) == Cell(rows, s, cmd) || Reached(rows, s', cmds[1..], cmd)
  {
    assert forall other | other in cmds[1..] :: Cell(rows, s', other) == Cell(rows, s, other);
    assert forall other | other in cmds :: other == cmds[0] || other in cmds[1..];
  }

  /** The poll starts the compensation: the signal has left a resume behind. */
  predicate Fires(s: State) {
    && s.phase != 0 && s.priorPhase != 0 && s.priorPhase != s.phase
    && IsResume(At(s.slots, s.priorCycle, s.priorPhase).host)
  }

  /** The slot that the poll clears. */
  predicate Cleared(rows: nat, s: State, cmd: Command) {
    Cell(rows, s, cmd) == (s.priorCycle as int, s.priorPhase as int)
  }

  function AfterPoll(rows: nat, s: State, cmds: seq<Command>, plan: Plan): Table {
    Polling(rows, s, cmds, plan).0.slots
  }

  /** The rest of the poll clears one slot and sends nothing. */
  lemma PollKeeps(rows: nat, s: State, cmds: seq<Command>, cmd: Command, plan: Plan)
    requires Fires(s)
    ensures var after, inserted := AfterPoll(rows, s, cmds, plan), InsertAll(rows, s, cmds, plan).slots;
            SlotOf(rows, s, after, cmd).effectTime
            == if Cleared(rows, s, cmd) then 0 else SlotOf(rows, s, inserted, cmd).effectTime
    ensures var after, inserted := AfterPoll(rows, s, cmds, plan), InsertAll(rows, s, cmds, plan).slots;
            Holds(SlotOf(rows, s, after, cmd), cmd) <==> !Cleared(rows, s, cmd) && Holds(SlotOf(rows, s, inserted, cmd), cmd)
  {
    CommandRuns.InsertAllOwes(rows, s, cmds, plan, 0, 0);
  }

  /** After the poll every slot that the compensation addresses holds its time. */
  predicate AllHeld(rows: nat, s: State, t: Table, cmds: seq<Command>) {
    forall cmd | cmd in cmds :: Holds(SlotOf(rows, s, t, cmd), cmd)
  }

  /** What can be seen before the poll: the poll does not clear the slot, the slot
      yields and takes the time unchanged (or does not and has it already), and no
      other command wants the slot for another time. */
  predicate Delivers(rows: nat, s: State, cmds: seq<Command>, cmd: Command, plan: Plan)
    requires Compensates(cmd, plan)
  {
    var slot, p := SlotOf(rows, s, s.slots, cmd), plan[cmd.phase - 1];
    && !Cleared(rows, s, cmd) && Agreed(rows, s, cmds, cmd)
    && if Yields(slot, cmd, p) then Unchanged(cmd, p) else Holds(slot, cmd)
  }

  lemma AgreedHoldsIff(rows: nat, s: State, cmds: seq<Command>, cmd: Command, plan: Plan)
    requires Fires(s) && AllCompensate(cmds, plan) && cmd in cmds && Agreed(rows, s, cmds, cmd)
    ensures Holds(SlotOf(rows, s, AfterPoll(rows, s, cmds, plan), cmd), cmd) <==> Delivers(rows, s, cmds, cmd, plan)
  {
    AllAt(rows, s, cmds, cmd, plan);
    assert Reached(rows, s, cmds, cmd);
    InsertHoldsIff(SlotOf(rows, s, s.slots, cmd), cmd, plan);
    PollKeeps(rows, s, cmds, cmd, plan);
  }

  /** In any state, for any commands of a compensation: all their slots hold what
      was asked for if and only if each is delivered. */
  lemma AllHeldIff(rows: nat, s: State, cmds: seq<Command>, plan: Plan)
    requires Fires(s) && AllCompensate(cmds, plan)
    ensures AllHeld(rows, s, AfterPoll(rows, s, cmds, plan), cmds)
            <==> forall cmd | cmd in cmds :: Delivers(rows, s, cmds, cmd, plan)
  {
    var t := AfterPoll(rows, s, cmds, plan);
    forall cmd | cmd in cmds && Agreed(rows, s, cmds, cmd)
      ensures Holds(SlotOf(rows, s, t, cmd), cmd) <==> Delivers(rows, s, cmds, cmd, plan)
    {
      AgreedHoldsIff(rows, s, cmds, cmd, plan);
    }
    if AllHeld(rows, s, t, cmds) {
      forall cmd | cmd in cmds ensures Agreed(rows, s, cmds, cmd) {
        forall other | other in cmds && Cell(rows, s, other) == Cell(rows, s, cmd)
          ensures other.effectTime == cmd.effectTime
        {
          assert SlotOf(rows, s, t, other) == SlotOf(rows, s, t, cmd);
        }
      }
    }
  }

  // ------------------------------------------------------------------- the sum

  /** The seconds that the slots of the commands hold beyond the planned greens,
      each slot once. */
  function HeldBy(rows: nat, s: State, t: Table, cmds: seq<Command>, plan: Plan): int
    requires AllCompensate(cmds, plan)
  {
    if cmds == [] then 0
    else
      var rest := HeldBy(rows, s, t, cmds[1..], plan);
      if Reached(rows, s, cmds[1..], cmds[0]) then rest else Held(rows, s, t, cmds[0], plan) + rest
  }

  function Held(rows: nat, s: State, t: Table, cmd: Command, plan: Plan): int
    requires Compensates(cmd, plan)
  {
    SlotOf(rows, s, t, cmd).effectTime - plan[cmd.phase - 1].preGreen
  }

  function GivenBy(cmds: seq<Command>, plan: Plan): int
    requires AllCompensate(cmds, plan)
  {
    if cmds == [] then 0 else Given(cmds[0], plan) + GivenBy(cmds[1..], plan)
  }

  /** No slot is addressed twice. */
  predicate Once(rows: nat, s: State, cmds: seq<Command>) {
    forall a, b | 0 <= a < b < |cmds| :: Cell(rows, s, cmds[a]) != Cell(rows, s, cmds[b])
  }

  /** Where no slot holds more than was asked for and none is addressed twice, the
      sums are equal if and only if each slot holds all of it. */
  lemma {:induction false} SumsIff(rows: nat, s: State, t: Table, cmds: seq<Command>, plan: Plan)
    requires AllCompensate(cmds, plan) && Once(rows, s, cmds)
    requires forall cmd | cmd in cmds :: Held(rows, s, t, cmd, plan) <= Given(cmd, plan)
    ensures HeldBy(rows, s, t, cmds, plan) <= GivenBy(cmds, plan)
    ensures HeldBy(rows, s, t, cmds, plan) == GivenBy(cmds, plan)
            <==> forall cmd | cmd in cmds :: Held(rows, s, t, cmd, plan) == Given(cmd, plan)
  {
    if cmds != [] {
      SumsIff(rows, s, t, cmds[1..], plan);
      assert !Reached(rows, s, cmds[1..], cmds[0]) by {
        assert forall b | 0 <= b < |cmds[1..]| :: cmds[1..][b] == cmds[b + 1];
      }
      assert forall cmd | cmd in cmds :: cmd == cmds[0] || cmd in cmds[1..];
    }
  }

  lemma HeldSums(rows: nat, s: State, t: Table, cmds: seq<Command>, plan: Plan)
    requires AllCompensate(cmds, plan) && Once(rows, s, cmds) && AllHeld(rows, s, t, cmds)
    ensures HeldBy(rows, s, t, cmds, plan) == GivenBy(cmds, plan)
  {
    assert forall cmd | cmd in cmds :: Held(rows, s, t, cmd, plan) == Given(cmd, plan);
    SumsIff(rows, s, t, cmds, plan);
  }

  /** The slot is not cleared, gives way, and its phase can last as long as its
      pedestrian steps. */
  predicate Receives(rows: nat, s: State, cmd: Command, plan: Plan)
    requires Compensates(cmd, plan)
  {
    var slot, p := SlotOf(rows, s, s.slots, cmd), plan[cmd.phase - 1];
    !Cleared(rows, s, cmd) && Yields(slot, cmd, p) && p.Ped() <= p.maxGreen
  }

  lemma OnceAgrees(rows: nat, s: State, cmds: seq<Command>, cmd: Command)
    requires Once(rows, s, cmds) && cmd in cmds
    ensures Agreed(rows, s, cmds, cmd)
  {
    forall other | other in cmds && Cell(rows, s, other) == Cell(rows, s, cmd) ensures other == cmd {
      var a: nat :| a < |cmds| && cmds[a] == cmd;
      var b: nat :| b < |cmds| && cmds[b] == other;
      assert a == b;
    }
  }

  lemma ReceivedAtMost(rows: nat, s: State, cmds: seq<Command>, cmd: Command, plan: Plan)
    requires Fires(s) && AllCompensate(cmds, plan) && Once(rows, s, cmds) && cmd in cmds && Receives(rows, s, cmd, plan)
    ensures var held := Held(rows, s, AfterPoll(rows, s, cmds, plan), cmd, plan);
            && held <= Given(cmd, plan)
            && (held == Given(cmd, plan) <==> LeavesRoom(cmd, plan[cmd.phase - 1]) && cmd.effectTime <= 255)
  {
    OnceAgrees(rows, s, cmds, cmd);
    AllAt(rows, s, cmds, cmd, plan);
    assert Reached(rows, s, cmds, cmd);
    YieldedAtMost(SlotOf(rows, s, s.slots, cmd), cmd, plan);
    PollKeeps(rows, s, cmds, cmd, plan);
  }

  /** Where all slots give way and none is addressed twice, they hold at most what
      was asked for in all, and all of it if and only if every time leaves room for
      the pedestrian steps and fits eight bits. */
  lemma HeldSumsIff(rows: nat, s: State, cmds: seq<Command>, plan: Plan)
    requires Fires(s) && AllCompensate(cmds, plan) && Once(rows, s, cmds)
    requires forall cmd | cmd in cmds :: Receives(rows, s, cmd, plan)
    ensures var held := HeldBy(rows, s, AfterPoll(rows, s, cmds, plan), cmds, plan);
            && held <= GivenBy(cmds, plan)
            && (held == GivenBy(cmds, plan)
                <==> forall cmd | cmd in cmds :: LeavesRoom(cmd, plan[cmd.phase - 1]) && cmd.effectTime <= 255)
  {
    var t := AfterPoll(rows, s, cmds, plan);
    forall cmd | cmd in cmds
      ensures && Held(rows, s, t, cmd, plan) <= Given(cmd, plan)
              && (Held(rows, s, t, cmd, plan) == Given(cmd, plan)
                  <==> LeavesRoom(cmd, plan[cmd.phase - 1]) && cmd.effectTime <= 255)
    {
      ReceivedAtMost(rows, s, cmds, cmd, plan);
    }
    SumsIff(rows, s, t, cmds, plan);
  }

  // --------------------------------------------------------- what can go wrong

  /** Five seconds more for a phase of thirty that may last forty: with fifteen
      pedestrian seconds the slot holds twenty-five, five less than planned. */
  lemma PedestriansCut(slot: Slot, cmd: Command, plan: Plan)
    requires Compensates(cmd, plan) && cmd.effectTime == 35 && slot.appId == 0
    requires plan[cmd.phase - 1].Ped() == 15 && plan[cmd.phase - 1].maxGreen == 40
    ensures Contest(slot, cmd, plan[cmd.phase - 1]).0.effectTime == 25 && !LeavesRoom(cmd, plan[cmd.phase - 1])
  {
    assert Clamp(35, plan[cmd.phase - 1]) == 25;
  }

  /** With more pedestrian seconds than the longest green the slot holds far more
      than was asked for. */
  lemma PedestriansWrap(slot: Slot, cmd: Command, plan: Plan)
    requires Compensates(cmd, plan) && cmd.effectTime == 10 && slot.appId == 0
    requires plan[cmd.phase - 1].Ped() == 20 && plan[cmd.phase - 1].maxGreen == 10
    ensures Contest(slot, cmd, plan[cmd.phase - 1]).0.effectTime == 246
  {
    assert Clamp(10, plan[cmd.phase - 1]) == -10 && U8(-10) == 246;
  }

  /** A green of three hundred seconds has room below four hundred, and the slot
      holds forty-four. */
  lemma LongGreenCut(slot: Slot, cmd: Command, plan: Plan)
    requires Compensates(cmd, plan) && cmd.effectTime == 300 && slot.appId == 0
    requires plan[cmd.phase - 1].Ped() == 0 && plan[cmd.phase - 1].maxGreen == 400
    ensures Contest(slot, cmd, plan[cmd.phase - 1]).0.effectTime == 44 && LeavesRoom(cmd, plan[cmd.phase - 1])
  {
    assert Clamp(300, plan[cmd.phase - 1]) == 300 && U8(300) == 44;
  }

  /** An application's command of priority 1 for another phase keeps its slot. */
  lemma UrgentCommandStays(slot: Slot, cmd: Command, plan: Plan)
    requires Compensates(cmd, plan) && slot.appId == 1 && slot.priority == 1
    requires slot.host == "OBU-1" && slot.targetPhase != cmd.phase
    ensures Contest(slot, cmd, plan[cmd.phase - 1]) == (slot, ImproperPriority) && !Holds(slot, cmd)
  {
  }

  lemma ThreeInserts(s: State, a: Command, b: Command, c: Command, plan: Plan)
    ensures InsertAll(CYCLE_NUM, s, [a, b, c], plan)
            == InsertEffectTime(CYCLE_NUM, InsertEffectTime(CYCLE_NUM,
                 InsertEffectTime(CYCLE_NUM, s, a, plan).0, b, plan).0, c, plan).0
  {
    var s1 := InsertEffectTime(CYCLE_NUM, s, a, plan).0;
    var s2 := InsertEffectTime(CYCLE_NUM, s1, b, plan).0;
    var s3 := InsertEffectTime(CYCLE_NUM, s2, c, plan).0;
    assert InsertAll(CYCLE_NUM, s3, [], plan) == s3;
    assert [c][1..] == [] && InsertAll(CYCLE_NUM, s2, [c], plan) == s3;
    assert [b, c][1..] == [c] && InsertAll(CYCLE_NUM, s1, [b, c], plan) == s3;
    assert [a, b, c][1..] == [b, c];
  }

  lemma TwoOnEmpty(s: State, b: Command, c: Command, plan: Plan)
    requires Compensates(b, plan) && Compensates(c, plan) && SameSlot(b, c)
    requires SlotOf(CYCLE_NUM, s, s.slots, c) == EMPTY
    ensures var s' := InsertEffectTime(CYCLE_NUM, InsertEffectTime(CYCLE_NUM, s, b, plan).0, c, plan).0;
            SlotOf(CYCLE_NUM, s, s'.slots, c).effectTime == U8(Clamp(c.effectTime, plan[c.phase - 1]))
  {
    InsertAt(CYCLE_NUM, s, b, c, plan);
    InsertAt(CYCLE_NUM, InsertEffectTime(CYCLE_NUM, s, b, plan).0, c, c, plan);
  }

  lemma LastInserted(s: State, a: Command, b: Command, c: Command, plan: Plan)
    requires Compensates(a, plan) && Compensates(b, plan) && Compensates(c, plan)
    requires SameSlot(b, c) && !SameSlot(a, c) && SlotOf(CYCLE_NUM, s, s.slots, c) == EMPTY
    ensures SlotOf(CYCLE_NUM, s, InsertAll(CYCLE_NUM, s, [a, b, c], plan).slots, c).effectTime
            == U8(Clamp(c.effectTime, plan[c.phase - 1]))
  {
    var s1 := InsertEffectTime(CYCLE_NUM, s, a, plan).0;
    InsertAt(CYCLE_NUM, s, a, c, plan);
    TwoOnEmpty(s1, b, c, plan);
    ThreeInserts(s, a, b, c, plan);
  }

  lemma FirstOfThree(s: State, a: Command, b: Command, c: Command, plan: Plan)
    requires Fires(s) && Compensates(a, plan) && Compensates(b, plan) && Compensates(c, plan)
    requires SameSlot(b, c) && !SameSlot(a, c) && !Cleared(CYCLE_NUM, s, a)
    requires SlotOf(CYCLE_NUM, s, s.slots, a) == EMPTY
    ensures SlotOf(CYCLE_NUM, s, AfterPoll(CYCLE_NUM, s, [a, b, c], plan), a).effectTime
            == U8(Clamp(a.effectTime, plan[a.phase - 1]))
  {
    AllAt(CYCLE_NUM, s, [a, b, c], a, plan);
    assert a in [a, b, c] && Reached(CYCLE_NUM, s, [a, b, c], a);
    PollKeeps(CYCLE_NUM, s, [a, b, c], a, plan);
  }

  lemma LastOfThree(s: State, a: Command, b: Command, c: Command, plan: Plan)
    requires Fires(s) && Compensates(a, plan) && Compensates(b, plan) && Compensates(c, plan)
    requires SameSlot(b, c) && !SameSlot(a, c) && !Cleared(CYCLE_NUM, s, c)
    requires SlotOf(CYCLE_NUM, s, s.slots, c) == EMPTY
    ensures SlotOf(CYCLE_NUM, s, AfterPoll(CYCLE_NUM, s, [a, b, c], plan), c).effectTime
            == U8(Clamp(c.effectTime, plan[c.phase - 1]))
  {
    LastInserted(s, a, b, c, plan);
    PollKeeps(CYCLE_NUM, s, [a, b, c], c, plan);
  }

  /** The slots of three commands, of which the last two address one empty slot. */
  lemma SlotsOfThree(s: State, a: Command, b: Command, c: Command, plan: Plan)
    requires Fires(s) && Compensates(a, plan) && Compensates(b, plan) && Compensates(c, plan)
    requires SameSlot(b, c) && !SameSlot(a, c) && !Cleared(CYCLE_NUM, s, a) && !Cleared(CYCLE_NUM, s, c)
    requires SlotOf(CYCLE_NUM, s, s.slots, a) == EMPTY == SlotOf(CYCLE_NUM, s, s.slots, c)
    requires Clamp(a.effectTime, plan[a.phase - 1]) == 30 && Clamp(c.effectTime, plan[c.phase - 1]) == 37
    ensures SlotOf(CYCLE_NUM, s, AfterPoll(CYCLE_NUM, s, [a, b, c], plan), a).effectTime == 30
    ensures SlotOf(CYCLE_NUM, s, AfterPoll(CYCLE_NUM, s, [a, b, c], plan), c).effectTime == 37
  {
    FirstOfThree(s, a, b, c, plan);
    LastOfThree(s, a, b, c, plan);
  }

  lemma HeldSumOfThree(s: State, t: Table, a: Command, b: Command, c: Command, plan: Plan)
    requires Compensates(a, plan) && Compensates(b, plan) && Compensates(c, plan)
    requires SameSlot(b, c) && !SameSlot(a, c)
    ensures HeldBy(CYCLE_NUM, s, t, [a, b, c], plan) == Held(CYCLE_NUM, s, t, a, plan) + Held(CYCLE_NUM, s, t, c, plan)
  {
    var rows := CYCLE_NUM;
    assert Cell(rows, s, a) != Cell(rows, s, c) && Cell(rows, s, b) == Cell(rows, s, c);
    assert [a, b, c][1..] == [b, c] && [b, c][1..] == [c] && [c][1..] == [];
    assert HeldBy(rows, s, t, [c], plan) == Held(rows, s, t, c, plan) + HeldBy(rows, s, t, [], plan);
    assert c in [c] && Reached(rows, s, [c], b);
    assert !Reached(rows, s, [b, c], a);
  }

  lemma FifteenSeconds(ts: seq<seq<int>>)
    requires ts == [[8, 0, 0, 0, 0, 0, 0, 0], [7, 0, 0, 0, 0, 0, 0, 0]]
    ensures Allocation.SumAll(ts) == 15
  {
    Allocation.SumOfZeros(ts[0], 1);
    Allocation.SumOfZeros(ts[1], 1);
    assert ts[0][..1][..0] == [] && ts[1][..1][..0] == [];
    assert ts[..1][..0] == [] && Allocation.SumAll(ts[..1]) == 8;
  }

  lemma FreshSlots(s: State, a: Command, c: Command)
    requires Fires(s) && s.priorPhase == 2 && s.priorCycle % CYCLE_NUM != s.cycle % CYCLE_NUM && s.priorCycle < CYCLE_NUM
    requires At(s.slots, s.cycle % CYCLE_NUM, 2) == EMPTY == At(s.slots, (s.cycle + 1) % CYCLE_NUM, 1)
    requires a.phase == 2 && a.cycle == 0 && c.phase == 1 && c.cycle == 1
    ensures !Cleared(CYCLE_NUM, s, a) && !Cleared(CYCLE_NUM, s, c)
    ensures SlotOf(CYCLE_NUM, s, s.slots, a) == EMPTY == SlotOf(CYCLE_NUM, s, s.slots, c)
  {
  }

  /** Eight seconds for the first cycle and seven for the second, on a plan that
      leaves room for both, with all slots empty: both go to one slot, the second
      in place of the first, and the slots hold seven of the fifteen. */
  lemma SecondReplacesFirst(s: State, plan: Plan, ts: seq<seq<int>>)
    requires s.phase == 1 && s.step == 1 && s.sec == 17
    requires Fires(s) && s.priorPhase == 2 && s.priorCycle % CYCLE_NUM != s.cycle % CYCLE_NUM && s.priorCycle < CYCLE_NUM
    requires At(s.slots, s.cycle % CYCLE_NUM, 2) == EMPTY == At(s.slots, (s.cycle + 1) % CYCLE_NUM, 1)
    requires forall i | 0 <= i < 2 ::
               plan[i].minGreen == 10 && plan[i].maxGreen == 60 && plan[i].preGreen == 30 && plan[i].Ped() == 0
    requires ts == [[8, 0, 0, 0, 0, 0, 0, 0], [7, 0, 0, 0, 0, 0, 0, 0]]
    ensures var comp := AllCommands(plan, 2, 1, 1, 17, ts, 2);
            && Allocation.SumAll(ts) == 15 && AllCompensate(comp, plan)
            && HeldBy(CYCLE_NUM, s, AfterPoll(CYCLE_NUM, s, comp, plan), comp, plan) == 7
  {
    StartsApart(plan, ts);
    var comp := AllCommands(plan, 2, 1, 1, 17, ts, 2);
    FifteenSeconds(ts);
    FreshSlots(s, comp[0], comp[2]);
    SlotsOfThree(s, comp[0], comp[1], comp[2], plan);
    HeldSumOfThree(s, AfterPoll(CYCLE_NUM, s, comp, plan), comp[0], comp[1], comp[2], plan);
  }

  // ------------------------------------------------------------------ one cycle

  /** The first n phases have limits around their planned green, in sixteen bits. */
  predicate Usable(plan: Plan, n: nat) {
    Allocation.Sane(plan, n) && forall i | 0 <= i < n :: plan[i].maxGreen < 0x8000
  }

  /** The command asks for what its phase was given. */
  lemma CommandGives(plan: Plan, n: nat, i: nat, s: nat, k: nat, t: seq<int>)
    requires s < n <= PHASE_COUNT_MAX && k < n && Usable(plan, n) && Allocation.Bounded(plan, n, t)
    ensures var cmd := CommandFor(plan, n, i, s, k, t);
            Compensates(cmd, plan) && Given(cmd, plan) == t[VisitedPhase(n, s, k) - 1]
  {
  }

  /** The seconds given to the slots of a cycle from its k-th on. */
  function GivenFrom(n: nat, s: nat, k: nat, t: seq<int>): int
    requires s < n <= PHASE_COUNT_MAX == |t| && k <= n
    decreases n - k
  {
    if k == n then 0 else t[VisitedPhase(n, s, k) - 1] + GivenFrom(n, s, k + 1, t)
  }

  /** Slots that are not needed were given nothing. */
  lemma {:induction false} NothingNeeded(n: nat, cycles: nat, i: nat, s: nat, k: nat, t: seq<int>)
    requires s < n <= PHASE_COUNT_MAX == |t| && k <= n && (k < n ==> !Needed(n, cycles, i, s, k, t))
    ensures GivenFrom(n, s, k, t) == 0
    decreases n - k
  {
    if k < n {
      NeededHere(n, cycles, i, s, k, t);
      if k + 1 < n {
        NeededEarlier(n, cycles, i, s, k, k + 1, t);
      }
      NothingNeeded(n, cycles, i, s, k + 1, t);
    }
  }

  predicate Gives(cmds: seq<Command>, plan: Plan, sum: int) {
    AllCompensate(cmds, plan) && GivenBy(cmds, plan) == sum
  }

  lemma {:induction false} GivesAppend(plan: Plan, a: seq<Command>, x: int, b: seq<Command>, y: int)
    requires Gives(a, plan, x) && Gives(b, plan, y)
    ensures Gives(a + b, plan, x + y)
    decreases |a|
  {
    if a == [] {
      assert a + b == b;
    } else {
      assert (a + b)[1..] == a[1..] + b;
      GivesAppend(plan, a[1..], x - Given(a[0], plan), b, y);
    }
  }

  lemma {:induction false} CycleGives(plan: Plan, n: nat, cycles: nat, i: nat, s: nat, k: nat, t: seq<int>)
    requires s < n <= PHASE_COUNT_MAX && k <= n && Usable(plan, n) && Allocation.Bounded(plan, n, t)
    ensures Gives(CycleCommands(plan, n, cycles, i, s, k, t), plan, GivenFrom(n, s, k, t))
    decreases n - k
  {
    if k == n || !Needed(n, cycles, i, s, k, t) {
      NothingNeeded(n, cycles, i, s, k, t);
    } else {
      CommandGives(plan, n, i, s, k, t);
      CycleGives(plan, n, cycles, i, s, k + 1, t);
      GivesAppend(plan, [CommandFor(plan, n, i, s, k, t)], t[VisitedPhase(n, s, k) - 1],
                  CycleCommands(plan, n, cycles, i, s, k + 1, t), GivenFrom(n, s, k + 1, t));
    }
  }

  /** The slots of a cycle, wherever it starts, are given what its phases are. */
  lemma {:induction false} GivenIsSum(n: nat, s: nat, k: nat, t: seq<int>)
    requires s < n <= PHASE_COUNT_MAX == |t| && k <= n
    ensures GivenFrom(n, s, k, t) ==
      if s + k < n then Sum(t[..n]) - Sum(t[..s + k]) + Sum(t[..s]) else Sum(t[..s]) - Sum(t[..s + k - n])
    decreases n - k
  {
    if k < n {
      GivenIsSum(n, s, k + 1, t);
      var at := VisitedPhase(n, s, k) - 1;
      assert t[..at + 1][..at] == t[..at] && t[..at + 1][at] == t[at];
    }
  }

  // ------------------------------------------------------------------ all cycles

  /** The commands of a compensation ask for what was allocated. */
  lemma {:induction false} CommandsGive(plan: Plan, n: nat, phase: nat, step: u8, sec: u16, ts: seq<seq<int>>, upTo: nat)
    requires 1 <= phase <= n <= PHASE_COUNT_MAX && Usable(plan, n) && Allocation.AllBounded(plan, n, ts) && upTo <= |ts|
    ensures Gives(AllCommands(plan, n, phase, step, sec, ts, upTo), plan, Allocation.SumAll(ts[..upTo]))
    decreases upTo
  {
    if upTo > 0 {
      var i := upTo - 1;
      var t := ts[i];
      var s := StartIndex(plan, n, phase, step, sec, t);
      CommandsGive(plan, n, phase, step, sec, ts, i);
      CycleGives(plan, n, |ts|, i, s, 0, t);
      GivenIsSum(n, s, 0, t);
      Allocation.SumOfZeros(t, n);
      assert ts[..i + 1][..i] == ts[..i];
      GivesAppend(plan, AllCommands(plan, n, phase, step, sec, ts, i), Allocation.SumAll(ts[..i]),
                  CycleCommands(plan, n, |ts|, i, s, 0, t), Sum(t));
    }
  }

  method CommandsOf(plan: Plan, n: nat, phase: nat, step: u8, sec: u16, ts: seq<seq<int>>)
    returns (comp: seq<Command>)
    requires 1 <= phase <= n <= PHASE_COUNT_MAX && Allocation.AllBounded(plan, n, ts)
    ensures comp == AllCommands(plan, n, phase, step, sec, ts, |ts|)
  {
    comp := InsertCycles(plan, n, phase, step, sec, ts);
  }

  /** On the program's three rows a slot is its row and phase. */
  lemma OnceIff(s: State, cmds: seq<Command>, plan: Plan)
    requires AllCompensate(cmds, plan)
    ensures Once(CYCLE_NUM, s, cmds) <==> !SomeSlotTwice(cmds)
  {
    forall a, b | 0 <= a < b < |cmds|
      ensures Cell(CYCLE_NUM, s, cmds[a]) == Cell(CYCLE_NUM, s, cmds[b]) <==> SameSlot(cmds[a], cmds[b])
    {
      assert Compensates(cmds[a], plan) && Compensates(cmds[b], plan);
    }
  }

  /** What the program's slots hold after the poll, against what was allocated. */
  predicate Settles(s: State, comp: seq<Command>, plan: Plan, given: int) {
    var t := AfterPoll(CYCLE_NUM, s, comp, plan);
    && Gives(comp, plan, given)
    && (AllHeld(CYCLE_NUM, s, t, comp) <==> forall cmd | cmd in comp :: Delivers(CYCLE_NUM, s, comp, cmd, plan))
    && (AllHeld(CYCLE_NUM, s, t, comp) && !SomeSlotTwice(comp) ==> HeldBy(CYCLE_NUM, s, t, comp, plan) == given)
    && (!SomeSlotTwice(comp) && (forall cmd | cmd in comp :: Receives(CYCLE_NUM, s, cmd, plan)) ==>
          && HeldBy(CYCLE_NUM, s, t, comp, plan) <= given
          && (HeldBy(CYCLE_NUM, s, t, comp, plan) == given
              <==> forall cmd | cmd in comp :: LeavesRoom(cmd, plan[cmd.phase - 1]) && cmd.effectTime <= 255))
  }

  lemma GivenSettles(s: State, comp: seq<Command>, plan: Plan, given: int)
    requires Fires(s) && Gives(comp, plan, given)
    ensures Settles(s, comp, plan, given)
  {
    var t := AfterPoll(CYCLE_NUM, s, comp, plan);
    AllHeldIff(CYCLE_NUM, s, comp, plan);
    OnceIff(s, comp, plan);
    if AllHeld(CYCLE_NUM, s, t, comp) && !SomeSlotTwice(comp) {
      HeldSums(CYCLE_NUM, s, t, comp, plan);
    }
    if !SomeSlotTwice(comp) && forall cmd | cmd in comp :: Receives(CYCLE_NUM, s, cmd, plan) {
      HeldSumsIff(CYCLE_NUM, s, comp, plan);
    }
  }

  lemma CommandsSettle(s: State, plan: Plan, n: nat, phase: nat, step: u8, sec: u16, ts: seq<seq<int>>)
    requires 1 <= phase <= n <= PHASE_COUNT_MAX && Usable(plan, n) && Allocation.AllBounded(plan, n, ts) && Fires(s)
    ensures Settles(s, AllCommands(plan, n, phase, step, sec, ts, |ts|), plan, Allocation.SumAll(ts))
  {
    CommandsGive(plan, n, phase, step, sec, ts, |ts|);
    assert ts[..|ts|] == ts;
    GivenSettles(s, AllCommands(plan, n, phase, step, sec, ts, |ts|), plan, Allocation.SumAll(ts));
  }

  /** What becomes of a plan: the commands for it, what the slots hold of them after
      the poll, and, if what they hold is a correction that fits sixteen bits, a next
      cycle that starts on a multiple of the cycle time. */
  predicate CarriedOut(s: State, plan: Plan, n: nat, phase: nat, step: u8, sec: u16, cycleTime: u16, start: int,
                       total: i16, comp: seq<Command>, ts: seq<seq<int>>)
    requires 1 <= phase <= n <= PHASE_COUNT_MAX && cycleTime > 0
  {
    && Allocation.AllBounded(plan, n, ts) && comp == AllCommands(plan, n, phase, step, sec, ts, |ts|)
    && Settles(s, comp, plan, Allocation.SumAll(ts))
    && Allocation.Corrects(start, cycleTime, total, HeldBy(CYCLE_NUM, s, AfterPoll(CYCLE_NUM, s, comp, plan), comp, plan))
  }

  lemma CarryOut(s: State, plan: Plan, n: nat, phase: nat, step: u8, sec: u16, cycleTime: u16, start: int,
                 total: i16, comp: seq<Command>, ts: seq<seq<int>>)
    requires 1 <= phase <= n <= PHASE_COUNT_MAX && cycleTime > 0 && Usable(plan, n) && Fires(s)
    requires Allocation.AllBounded(plan, n, ts) && comp == AllCommands(plan, n, phase, step, sec, ts, |ts|)
    requires total == I16(Correction(start, cycleTime))
    ensures CarriedOut(s, plan, n, phase, step, sec, cycleTime, start, total, comp, ts)
  {
    CommandsSettle(s, plan, n, phase, step, sec, ts);
    Allocation.MovedCorrects(start, cycleTime, total, HeldBy(CYCLE_NUM, s, AfterPoll(CYCLE_NUM, s, comp, plan), comp, plan));
  }

  /** From the clock to the slots, in any state in which the poll starts the
      compensation. */
  method StartCompensation(ghost s: State, plan: Plan, n: u8, weight: seq<real>, cycles: nat,
                           cycleTime: u16, since: int, phase: u8, step: u8, secLeft: u16)
    returns (total: i16, comp: seq<Command>, ghost ts: seq<seq<int>>, ghost arrival: nat)
    requires 1 <= phase <= n <= PHASE_COUNT_MAX == |weight| && Usable(plan, n) && cycles >= 1
    requires cycleTime > 0 && 1 <= step
    requires forall i | 0 <= i < n :: weight[i] >= 0.0
    requires Fires(s) && s.phase == phase && s.step == step && s.sec == secLeft
    ensures Allocation.Planned(plan, n, weight, cycles, cycleTime, since, Position(phase, step, secLeft), total, ts, arrival)
    ensures CarriedOut(s, plan, n, phase, step, secLeft, cycleTime, since + arrival, total, comp, ts)
  {
    var all;
    total, all, arrival := Allocation.Compensate(plan, n, weight, cycles, cycleTime, since, phase, step, secLeft);
    ts := all;
    comp := CommandsOf(plan, n, phase, step, secLeft, all);
    CarryOut(s, plan, n, phase, step, secLeft, cycleTime, since + arrival, total, comp, ts);
  }
}
