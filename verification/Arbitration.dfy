/** Who ends up with a slot when many commands compete for it. */
module Arbitration {
  import opened FixedWidth
  import opened SignalPlan
  import opened CommandBuffer

  /** The slot after a sequence of inserts, oldest first. */
  function Settle(slot: Slot, cmds: seq<Command>, p: PhasePlan): Slot
    decreases |cmds|
  {
    if cmds == [] then slot
    else Contest(Settle(slot, cmds[..|cmds| - 1], p), cmds[|cmds| - 1], p).0
  }

  /** An application's own command: neither a resume nor a compensation. */
  predicate Ordinary(cmd: Command) {
    Validate(cmd) == InsertAccept && cmd.host != RESUME && cmd.host != COMPENSATION
  }

  /** Ordinary commands of vehicles whose names the buffer can tell apart. */
  predicate Rivals(cmds: seq<Command>) {
    && (forall i | 0 <= i < |cmds| :: Ordinary(cmds[i]))
    && (forall i, j | 0 <= i < j < |cmds| :: !SameUpTo(cmds[i].host, cmds[j].host, OBU_NAME_MAX))
  }

  /** The slot waits to send this command. */
  predicate Carries(slot: Slot, cmd: Command, p: PhasePlan) {
    && slot.appId == cmd.appId && slot.priority == cmd.priority && slot.host == cmd.host
    && slot.targetPhase == cmd.targetPhase && slot.effectTime == U8(Clamp(cmd.effectTime, p)) && !slot.sent
  }

  /** The earliest command of least priority value (the most urgent). */
  function MostUrgent(cmds: seq<Command>): (m: nat)
    requires cmds != []
    ensures m < |cmds|
    ensures forall i | 0 <= i < |cmds| :: cmds[m].priority <= cmds[i].priority
    ensures forall i | 0 <= i < m :: cmds[m].priority < cmds[i].priority
    decreases |cmds|
  {
    var k := |cmds| - 1;
    if k == 0 then 0
    else
      var m := MostUrgent(cmds[..k]);
      if cmds[m].priority > cmds[k].priority then k else m
  }

  predicate DifferentTargets(cmds: seq<Command>) {
    forall i, j | 0 <= i < j < |cmds| :: cmds[i].targetPhase != cmds[j].targetPhase
  }

  lemma DifferentTargetStep(slot: Slot, cmds: seq<Command>, p: PhasePlan)
    requires |cmds| > 1 && Rivals(cmds) && DifferentTargets(cmds)
    requires Carries(slot, cmds[MostUrgent(cmds[..|cmds| - 1])], p)
    ensures Carries(Contest(slot, cmds[|cmds| - 1], p).0, cmds[MostUrgent(cmds)], p)
  {
  }

  /** Pairwise different target phases: urgency decides, the first come wins a
      tie. */
  lemma {:induction false} DifferentTargetsByPriority(slot: Slot, cmds: seq<Command>, p: PhasePlan)
    requires slot.appId == 0 && cmds != [] && Rivals(cmds) && DifferentTargets(cmds)
    ensures Carries(Settle(slot, cmds, p), cmds[MostUrgent(cmds)], p)
    decreases |cmds|
  {
    var k := |cmds| - 1;
    if k == 0 {
      assert cmds[..0] == [];
      EmptySlotTaken(slot, cmds[0], p);
    } else {
      DifferentTargetsByPriority(slot, cmds[..k], p);
      DifferentTargetStep(Settle(slot, cmds[..k], p), cmds, p);
    }
  }

  function Distance(cmd: Command, p: PhasePlan): nat {
    Abs(Clamp(cmd.effectTime, p) - p.preTimeCompensated)
  }

  /** The latest command that moves the phase furthest from its planned time. */
  function Furthest(cmds: seq<Command>, p: PhasePlan): (m: nat)
    requires cmds != []
    ensures m < |cmds|
    ensures forall i | 0 <= i < |cmds| :: Distance(cmds[i], p) <= Distance(cmds[m], p)
    ensures forall i | m < i < |cmds| :: Distance(cmds[i], p) < Distance(cmds[m], p)
    decreases |cmds|
  {
    var k := |cmds| - 1;
    if k == 0 then 0
    else
      var m := Furthest(cmds[..k], p);
      if Distance(cmds[m], p) <= Distance(cmds[k], p) then k else m
  }

  /** How far the slot believes its holder to be from the planned time: it keeps
      eight bits of the effect time. */
  function Kept(cmd: Command, p: PhasePlan): nat {
    Abs(U8(Clamp(cmd.effectTime, p)) - p.preTimeCompensated)
  }

  /** The rival's distance lies between the holder's true one and the one that
      its eight bits give. */
  predicate Misjudged(holder: Command, rival: Command, p: PhasePlan) {
    Min(Distance(holder, p), Kept(holder, p)) <= Distance(rival, p) < Max(Distance(holder, p), Kept(holder, p))
  }

  /** The further of two commands, the second in a tie. */
  function Further(holder: Command, rival: Command, p: PhasePlan): Command {
    if Distance(holder, p) <= Distance(rival, p) then rival else holder
  }

  lemma RivalsDiffer(slot: Slot, holder: Command, rival: Command, p: PhasePlan)
    requires Rivals([holder, rival])
    ensures !(Carries(slot, holder, p) && Carries(slot, rival, p))
  {
    var names := [holder, rival];
    assert !SameUpTo(names[0].host, names[1].host, OBU_NAME_MAX);
  }

  lemma DuelByKept(slot: Slot, holder: Command, rival: Command, p: PhasePlan)
    requires Carries(slot, holder, p) && Rivals([holder, rival]) && holder.targetPhase == rival.targetPhase
    ensures Carries(Contest(slot, rival, p).0, if Kept(holder, p) <= Distance(rival, p) then rival else holder, p)
  {
    var names := [holder, rival];
    assert !SameUpTo(names[0].host, names[1].host, OBU_NAME_MAX) && Ordinary(names[0]) && Ordinary(names[1]);
  }

  /** Exactly when the slot ranks two commands for one target by distance. */
  lemma SameTargetDuelIff(slot: Slot, holder: Command, rival: Command, p: PhasePlan)
    requires Carries(slot, holder, p) && Rivals([holder, rival]) && holder.targetPhase == rival.targetPhase
    ensures Carries(Contest(slot, rival, p).0, Further(holder, rival, p), p) <==> !Misjudged(holder, rival, p)
  {
    RivalsDiffer(Contest(slot, rival, p).0, holder, rival, p);
    DuelByKept(slot, holder, rival, p);
  }

  lemma EmptySlotTaken(slot: Slot, cmd: Command, p: PhasePlan)
    requires slot.appId == 0
    ensures Carries(Contest(slot, cmd, p).0, cmd, p)
  {
  }

  lemma RivalsPair(cmds: seq<Command>, m: nat, k: nat)
    requires Rivals(cmds) && m < k < |cmds|
    ensures Rivals([cmds[m], cmds[k]])
  {
  }

  predicate OneTarget(cmds: seq<Command>) {
    forall i | 0 <= i < |cmds| :: cmds[i].targetPhase == cmds[0].targetPhase
  }

  /** No prefix meets a command that the slot misjudges against its holder. */
  predicate WellJudged(cmds: seq<Command>, p: PhasePlan) {
    forall k | 0 < k < |cmds| :: !Misjudged(cmds[Furthest(cmds[..k], p)], cmds[k], p)
  }

  /** After every one of the commands the slot carries the furthest so far, the
      last come in a tie. */
  predicate ByDistance(slot: Slot, cmds: seq<Command>, p: PhasePlan) {
    forall k | 0 < k <= |cmds| :: Carries(Settle(slot, cmds[..k], p), cmds[Furthest(cmds[..k], p)], p)
  }

  lemma {:induction false} SameTargetStepIff(slot: Slot, cmds: seq<Command>, p: PhasePlan, k: nat)
    requires 0 < k < |cmds| && Rivals(cmds) && OneTarget(cmds)
    requires Carries(Settle(slot, cmds[..k], p), cmds[Furthest(cmds[..k], p)], p)
    ensures Carries(Settle(slot, cmds[..k + 1], p), cmds[Furthest(cmds[..k + 1], p)], p)
            <==> !Misjudged(cmds[Furthest(cmds[..k], p)], cmds[k], p)
  {
    var next, m := cmds[..k + 1], Furthest(cmds[..k], p);
    assert next[..k] == cmds[..k] && next[k] == cmds[k];
    RivalsPair(cmds, m, k);
    assert cmds[m].targetPhase == cmds[k].targetPhase;
    SameTargetDuelIff(Settle(slot, cmds[..k], p), cmds[m], cmds[k], p);
    assert cmds[Furthest(next, p)] == Further(cmds[m], cmds[k], p);
  }

  /** One target phase for all: the slot follows the distance from the planned
      time through all the commands if and only if it misjudges none of them. */
  lemma {:induction false} SameTargetByDistanceIff(slot: Slot, cmds: seq<Command>, p: PhasePlan)
    requires slot.appId == 0 && Rivals(cmds) && OneTarget(cmds)
    ensures ByDistance(slot, cmds, p) <==> WellJudged(cmds, p)
  {
    if ByDistance(slot, cmds, p) {
      forall k | 0 < k < |cmds| ensures !Misjudged(cmds[Furthest(cmds[..k], p)], cmds[k], p) {
        SameTargetStepIff(slot, cmds, p, k);
      }
    }
    if WellJudged(cmds, p) {
      forall k | 0 < k <= |cmds| ensures Carries(Settle(slot, cmds[..k], p), cmds[Furthest(cmds[..k], p)], p) {
        CarriesFurthest(slot, cmds, p, k);
      }
    }
  }

  lemma {:induction false} CarriesFurthest(slot: Slot, cmds: seq<Command>, p: PhasePlan, k: nat)
    requires slot.appId == 0 && Rivals(cmds) && OneTarget(cmds) && WellJudged(cmds, p) && 0 < k <= |cmds|
    ensures Carries(Settle(slot, cmds[..k], p), cmds[Furthest(cmds[..k], p)], p)
    decreases k
  {
    if k == 1 {
      assert cmds[..1][..0] == [] && cmds[..1][0] == cmds[0];
      EmptySlotTaken(slot, cmds[0], p);
    } else {
      CarriesFurthest(slot, cmds, p, k - 1);
      SameTargetStepIff(slot, cmds, p, k - 1);
    }
  }

  /** A clamped effect time that fits the slot's eight bits is never misjudged. */
  predicate FitsSlot(cmd: Command, p: PhasePlan) {
    0 <= Clamp(cmd.effectTime, p) <= 255
  }

  lemma FitsJudgedWell(cmds: seq<Command>, p: PhasePlan)
    requires forall i | 0 <= i < |cmds| :: FitsSlot(cmds[i], p)
    ensures WellJudged(cmds, p)
  {
    forall k | 0 < k < |cmds| ensures !Misjudged(cmds[Furthest(cmds[..k], p)], cmds[k], p) {
      var m := Furthest(cmds[..k], p);
      assert FitsSlot(cmds[m], p);
    }
  }

  /** So, where every clamped effect time fits eight bits, the latest of those
      furthest from the planned time ends up with the slot. */
  lemma {:induction false} SameTargetByDistance(slot: Slot, cmds: seq<Command>, p: PhasePlan)
    requires slot.appId == 0 && cmds != [] && Rivals(cmds) && OneTarget(cmds)
    requires forall i | 0 <= i < |cmds| :: FitsSlot(cmds[i], p)
    ensures Carries(Settle(slot, cmds, p), cmds[Furthest(cmds, p)], p)
  {
    FitsJudgedWell(cmds, p);
    CarriesFurthest(slot, cmds, p, |cmds|);
    assert cmds[..|cmds|] == cmds;
  }

  /** A phase whose limits leave room for its pedestrian steps and are at most 255
      seconds beyond them fits every command. */
  lemma LimitsFitSlot(cmd: Command, p: PhasePlan)
    requires p.Ped() <= p.maxGreen <= 255 + p.Ped() && p.minGreen <= p.maxGreen && cmd.effectTime >= 0
    ensures FitsSlot(cmd, p)
  {
  }

  /** So on a phase of that kind. */
  lemma SameTargetByLimits(slot: Slot, cmds: seq<Command>, p: PhasePlan)
    requires slot.appId == 0 && cmds != [] && Rivals(cmds) && OneTarget(cmds)
    requires p.Ped() <= p.maxGreen <= 255 + p.Ped() && p.minGreen <= p.maxGreen
    ensures Carries(Settle(slot, cmds, p), cmds[Furthest(cmds, p)], p)
  {
    forall i | 0 <= i < |cmds| ensures FitsSlot(cmds[i], p) {
      assert Ordinary(cmds[i]);
      LimitsFitSlot(cmds[i], p);
    }
    SameTargetByDistance(slot, cmds, p);
  }

  /** A phase that may last four hundred seconds and is planned for thirty. */
  predicate LongPhase(p: PhasePlan) {
    p.Ped() == 0 && p.minGreen <= 60 && p.maxGreen == 400 && p.preTimeCompensated == 30
  }

  lemma LongPhaseDistances(far: Command, near: Command, p: PhasePlan)
    requires LongPhase(p) && far.effectTime == 300 && near.effectTime == 60
    ensures Distance(far, p) == 270 && Kept(far, p) == 14 && Distance(near, p) == 30
  {
    assert Clamp(far.effectTime, p) == 300;
    assert U8(300) == 44;
    assert Clamp(near.effectTime, p) == 60;
  }

  /** On such a phase sixty seconds win over three hundred: the slot keeps 44 of
      the three hundred. */
  lemma NearerCommandWins(far: Command, near: Command, p: PhasePlan)
    requires Rivals([far, near]) && far.targetPhase == near.targetPhase
    requires LongPhase(p) && far.effectTime == 300 && near.effectTime == 60
    ensures Distance(far, p) > Distance(near, p) && Misjudged(far, near, p)
    ensures Carries(Settle(EMPTY, [far, near], p), near, p)
  {
    LongPhaseDistances(far, near, p);
    EmptySlotTaken(EMPTY, far, p);
    SettlePair(EMPTY, far, near, p);
    DuelByKept(Contest(EMPTY, far, p).0, far, near, p);
  }

  lemma SettlePair(slot: Slot, first: Command, second: Command, p: PhasePlan)
    ensures Settle(slot, [first, second], p) == Contest(Contest(slot, first, p).0, second, p).0
  {
    var cmds := [first, second];
    assert cmds[..1] == [first] && [first][..0] == [];
    assert Settle(slot, [], p) == slot;
    assert Settle(slot, [first], p) == Contest(slot, first, p).0;
  }

  /** A rejected insert changes no slot; an accepted one changes its own only. */
  lemma InsertTouchesOneSlot(rows: nat, s: State, cmd: Command, plan: Plan, row: int, p: int)
    requires !(row == Row(rows, s.cycle + cmd.cycle) && p == cmd.phase)
             || InsertEffectTime(rows, s, cmd, plan).1 != InsertAccept
    ensures var s' := InsertEffectTime(rows, s, cmd, plan).0;
            At(s'.slots, row, p) == At(s.slots, row, p) && s' == s.(slots := s'.slots)
  {
  }
}
