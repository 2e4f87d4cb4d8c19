/** The scheduler as the program runs it: globals updated in place. */
module Scheduler {
  import opened FixedWidth
  import opened SignalPlan
  import opened CommandBuffer
  import opened RingRefinement
  import opened Wrappers
  import CommandRuns
  import StepLaws

  const SLOTS := CYCLE_NUM * PHASE_COUNT_MAX

  /** The table that a row-major array of slots stands for. */
  function TableOf(slots: seq<Slot>): (t: Table)
    requires |slots| == SLOTS
  {
    map k | k in RingKeys() :: slots[k.0 * PHASE_COUNT_MAX + k.1 - 1]
  }

  lemma TablePut(slots: seq<Slot>, c: int, p: int, s: Slot)
    requires |slots| == SLOTS && 0 <= c < CYCLE_NUM && 1 <= p <= PHASE_COUNT_MAX
    ensures (c, p) in RingKeys() && At(TableOf(slots), c, p) == slots[c * PHASE_COUNT_MAX + p - 1]
    ensures TableOf(slots[c * PHASE_COUNT_MAX + p - 1 := s]) == TableOf(slots)[(c, p) := s]
  {
  }

  class SignalScheduler {
    const buf: array<Slot>
    var cycleIndex: u8
    var priorCycleIndex: u8
    var priorPhase: u8
    var phase: u8
    var step: u8
    var sec: u16
    var control: u8
    var pretimeArmed: bool

    ghost predicate Valid()
      reads this
    {
      buf.Length == SLOTS && cycleIndex < CYCLE_NUM && priorCycleIndex < CYCLE_NUM && priorPhase <= PHASE_COUNT_MAX
    }

    ghost function Now(): State
      reads this, buf
      requires Valid()
    {
      State(TableOf(buf[..]), cycleIndex, priorCycleIndex, priorPhase, phase, step, sec, control, pretimeArmed)
    }

    constructor ()
      ensures Valid() && fresh(buf) && Now() == Start(CYCLE_NUM)
    {
      buf := new Slot[SLOTS](_ => EMPTY);
      cycleIndex, priorCycleIndex, priorPhase := 0, 0, 0;
      phase, step, sec, control, pretimeArmed := 0, 0, 0, 0, true;
    }

    method UpdateCycleIndex()
      requires Valid()
      modifies this`cycleIndex
      ensures Valid() && Now() == old(Now()).(cycle := Row(CYCLE_NUM, old(Now()).cycle + 1))
    {
      cycleIndex := (cycleIndex + 1) % CYCLE_NUM;
    }

    method Report5FCC(ph: u8, st: u8, sc: u16)
      requires Valid()
      modifies this
      ensures Valid() && Now() == Packet5FCC(CYCLE_NUM, old(Now()), Status(ph, st, sc))
    {
      if ph != 0 && st != 5 {
        if ph < phase {
          UpdateCycleIndex();
        }
        phase := ph;
      }
      step := st;
      sec := sc;
    }

    method Get(c: u8, p: u8) returns (s: Slot)
      requires Valid() && c < CYCLE_NUM && 1 <= p <= PHASE_COUNT_MAX
      ensures s == At(Now().slots, c, p)
    {
      TablePut(buf[..], c, p, EMPTY);
      s := buf[c * PHASE_COUNT_MAX + p - 1];
    }

    method Put(c: u8, p: u8, s: Slot)
      requires Valid() && c < CYCLE_NUM && 1 <= p <= PHASE_COUNT_MAX
      modifies buf
      ensures Valid() && Now() == old(Now()).(slots := old(Now()).slots[(c as int, p as int) := s])
    {
      TablePut(buf[..], c, p, s);
      buf[c * PHASE_COUNT_MAX + p - 1] := s;
      assert buf[..] == old(buf[..])[c * PHASE_COUNT_MAX + p - 1 := s];
    }

    /** The jump labels of the original are the entry points into one cascade of
        assignments; `entry` names the label jumped to. */
    method Contend(i: nat, cmd: Command, effect: i16, pretime: u16) returns (entry: Verdict)
      requires Valid() && i < SLOTS
      modifies buf
      ensures entry == Arbitrate(old(buf[i]), cmd, effect, pretime)
      ensures buf[..] == old(buf[..])[i := Write(old(buf[i]), cmd, effect, pretime, entry)]
    {
      if buf[i].appId == 0 {
        if buf[i].adjustedTime == 0 {
          buf[i] := buf[i].(adjustedTime := U8(pretime));
        }
        entry := ReplaceAll;
      } else if buf[i].host == COMPENSATION && cmd.host == COMPENSATION {
        entry := ReplaceTime;
      } else if buf[i].host == RESUME {
        entry := ReplaceAll;
      } else if cmd.host == RESUME {
        entry := if buf[i].appId == cmd.appId then ReplaceHost else Reject;
      } else if SameUpTo(buf[i].host, cmd.host, OBU_NAME_MAX) && buf[i].appId == cmd.appId {
        entry := ReplaceTime;
      } else if buf[i].targetPhase == cmd.targetPhase {
        entry := if Abs(buf[i].effectTime - pretime) <= Abs(effect - pretime) then ReplaceAll else Reject;
      } else {
        entry := if buf[i].priority > cmd.priority then ReplaceAll else Reject;
      }
      if entry == ReplaceAll {
        buf[i] := buf[i].(appId := cmd.appId, priority := cmd.priority);
      }
      if entry == ReplaceAll || entry == ReplaceHost {
        buf[i] := buf[i].(host := cmd.host);
      }
      if entry != Reject {
        buf[i] := buf[i].(effectTime := U8(effect), targetPhase := cmd.targetPhase, sent := false);
      }
    }

    method ClampEffect(asked: i16, p: PhasePlan) returns (effect: i16)
      ensures effect == Clamp(asked, p)
    {
      var ped := p.pedGreenFlash + p.pedRed;
      effect := asked;
      if effect + ped < p.minGreen {
        effect := I16(p.minGreen - ped);
      }
      if effect + ped > p.maxGreen {
        effect := I16(p.maxGreen - ped);
      }
    }

    method Insert(cmd: Command, plan: Plan) returns (code: Code)
      requires Valid()
      modifies buf
      ensures Valid() && (Now(), code) == InsertEffectTime(CYCLE_NUM, old(Now()), cmd, plan)
    {
      if cmd.appId == 0 {
        return InvalidAppId;
      }
      if cmd.priority == 0 {
        return InvalidAppPriority;
      }
      if cmd.targetPhase == 0 || cmd.targetPhase > PHASE_COUNT_MAX {
        return InvalidTargetPhase;
      }
      if cmd.cycle >= CYCLE_NUM {
        return InvalidCycle;
      }
      if cmd.phase == 0 || cmd.phase > PHASE_COUNT_MAX {
        return InvalidPhase;
      }
      if cmd.effectTime < 0 {
        return InvalidEffectTime;
      }
      if |cmd.host| == 0 {
        return InvalidHostName;
      }
      var p := plan[cmd.phase - 1];
      var effect := ClampEffect(cmd.effectTime, p);
      var row := (cycleIndex + cmd.cycle) % CYCLE_NUM;
      var i := row * PHASE_COUNT_MAX + cmd.phase - 1;
      var entry := Contend(i, cmd, effect, p.preTimeCompensated);
      TablePut(old(buf[..]), row, cmd.phase, buf[i]);
      InsertWrites(CYCLE_NUM, old(Now()), cmd, plan, row);
      code := if entry == Reject then ImproperPriority else InsertAccept;
    }

    method IsCompensationPending() returns (found: bool)
      requires Valid()
      ensures found == HoldsCompensation(Now().slots)
    {
      for i := 0 to CYCLE_NUM
        invariant forall c, p | 0 <= c < i && 1 <= p <= PHASE_COUNT_MAX :: At(Now().slots, c, p).appId != COMPENSATION_ID
      {
        for j := 0 to PHASE_COUNT_MAX
          invariant forall p | 1 <= p <= j :: At(Now().slots, i, p).appId != COMPENSATION_ID
        {
          TablePut(buf[..], i, j + 1, EMPTY);
          if buf[i * PHASE_COUNT_MAX + j].appId == COMPENSATION_ID {
            assert (i, j + 1) in Now().slots;
            return true;
          }
        }
      }
      assert forall k | k in Now().slots :: Now().slots[k] == At(Now().slots, k.0, k.1);
      return false;
    }

    method IsVacant() returns (vacant: bool)
      requires Valid()
      ensures vacant == Vacant(Now().slots)
    {
      for i := 0 to CYCLE_NUM
        invariant forall c, p | 0 <= c < i && 1 <= p <= PHASE_COUNT_MAX :: At(Now().slots, c, p).appId == 0
      {
        for j := 0 to PHASE_COUNT_MAX
          invariant forall p | 1 <= p <= j :: At(Now().slots, i, p).appId == 0
        {
          TablePut(buf[..], i, j + 1, EMPTY);
          if buf[i * PHASE_COUNT_MAX + j].appId != 0 {
            assert (i, j + 1) in Now().slots;
            return false;
          }
        }
      }
      assert forall k | k in Now().slots :: Now().slots[k] == At(Now().slots, k.0, k.1);
      return true;
    }

    method DifferenceEffect(slot: Slot, ev: Event) returns (effect: i16)
      requires ev.Adjust? && WellFormed(ev)
      ensures effect == AdjustedEffect(slot, ev.adjustment, ev.lower, ev.upper, ev.plan[ev.cmd.phase - 1])
    {
      var p := ev.plan[ev.cmd.phase - 1];
      var minGreen := if ev.lower > p.minGreen then ev.lower else p.minGreen;
      var maxGreen := if ev.upper < p.maxGreen then ev.upper else p.maxGreen;
      if slot.adjustedTime == 0 {
        effect := I16(p.preTimeCompensated + ev.adjustment);
      } else {
        effect := I16(slot.adjustedTime + ev.adjustment);
      }
      if effect < minGreen {
        effect := I16(minGreen);
      }
      if effect > maxGreen {
        effect := I16(maxGreen);
      }
    }

    method InsertDifference(ev: Event) returns (code: Code)
      requires Valid() && ev.Adjust? && WellFormed(ev) && (ev.fixedTime ==> 1 <= phase <= PHASE_COUNT_MAX)
      modifies buf
      ensures Valid() && (Now(), code) == InsertAdjustment(CYCLE_NUM, old(Now()), ev)
    {
      var compensating;
      if ev.fixedTime {
        var current := ev.plan[phase - 1];
        compensating := current.preTimeCompensated > 0 && current.preGreen != current.preTimeCompensated;
      } else {
        compensating := IsCompensationPending();
      }
      if compensating {
        return InCompensation;
      }
      if ev.adjustment == 0 {
        return InvalidAdjustment;
      }
      var slot := Get((cycleIndex + ev.cmd.cycle) % CYCLE_NUM, ev.cmd.phase);
      var effect := DifferenceEffect(slot, ev);
      AdjustInserts(CYCLE_NUM, Now(), ev, slot);
      code := Insert(ev.cmd.(effectTime := effect), ev.plan);
    }

    method Delete(name: string)
      requires Valid()
      modifies buf
      ensures Valid() && Now() == old(Now()).(slots := DeleteHost(old(Now()).slots, name))
    {
      ghost var was := buf[..];
      for i := 0 to CYCLE_NUM
        invariant buf[i * PHASE_COUNT_MAX..] == was[i * PHASE_COUNT_MAX..]
        invariant forall k | 0 <= k < i * PHASE_COUNT_MAX :: buf[k] == if was[k].host == name then EMPTY else was[k]
      {
        for j := 0 to PHASE_COUNT_MAX
          invariant buf[i * PHASE_COUNT_MAX + j..] == was[i * PHASE_COUNT_MAX + j..]
          invariant forall k | 0 <= k < i * PHASE_COUNT_MAX + j :: buf[k] == if was[k].host == name then EMPTY else was[k]
        {
          if buf[i * PHASE_COUNT_MAX + j].host == name {
            buf[i * PHASE_COUNT_MAX + j] := EMPTY;
          }
        }
      }
      assert TableOf(buf[..]) == DeleteHost(TableOf(was), name);
    }

    method ClearAll()
      requires Valid()
      modifies buf
      ensures Valid() && Now() == old(Now()).(slots := map k | k in old(Now()).slots :: EMPTY)
    {
      forall i | 0 <= i < SLOTS {
        buf[i] := EMPTY;
      }
    }

    method StartCompensation(comp: seq<Command>, plan: Plan)
      requires Valid()
      modifies buf
      ensures Valid() && Now() == InsertAll(CYCLE_NUM, old(Now()), comp, plan)
    {
      var rest := comp;
      while rest != []
        invariant Valid() && InsertAll(CYCLE_NUM, Now(), rest, plan) == InsertAll(CYCLE_NUM, old(Now()), comp, plan)
        decreases |rest|
      {
        var _ := Insert(rest[0], plan);
        rest := rest[1..];
      }
    }

    /** The part of a poll that follows a phase change. */
    method CrossPhase(comp: seq<Command>, plan: Plan) returns (compensated: bool)
      requires Valid() && 1 <= phase <= PHASE_COUNT_MAX && priorPhase > 0
      modifies this`control, buf
      ensures Valid() && Now() == Leave(CYCLE_NUM, old(Now()), comp, plan)
      ensures compensated == IsResume(At(old(Now()).slots, priorCycleIndex, priorPhase).host)
    {
      var left := Get(priorCycleIndex, priorPhase);
      compensated := SameUpTo(left.host, RESUME, |RESUME|);
      if compensated {
        CommandRuns.InsertAllOwes(CYCLE_NUM, Now(), comp, plan, 0, 0);
        StartCompensation(comp, plan);
      }
      Put(priorCycleIndex, priorPhase, EMPTY);
      control := 0;
      var here := Get(cycleIndex, phase);
      Put(cycleIndex, phase, here.(adjustedTime := U8(sec)));
    }

    /** Sends the current slot if it is ready. */
    method SendReady() returns (send: bool, slot: Slot)
      requires Valid() && 1 <= phase <= PHASE_COUNT_MAX
      modifies this`control, buf
      ensures Valid() && send == Sends(old(Now())) && slot == At(old(Now()).slots, cycleIndex, phase)
      ensures Now() == if !send then old(Now())
                       else old(Now()).(
                         slots := old(Now()).slots[(cycleIndex as int, phase as int) :=
                           slot.(sent := true, adjustedTime := slot.effectTime)],
                         control := slot.appId)
    {
      slot := Get(cycleIndex, phase);
      send := slot.appId != 0 && !slot.sent && step == 1 && sec > 1 && priorPhase == phase;
      if send {
        control := slot.appId;
        Put(cycleIndex, phase, slot.(sent := true, adjustedTime := slot.effectTime));
      }
    }

    /** In step 4 the plan's own time goes out once, if no slot is occupied. */
    method CheckPretime() returns (sent: bool)
      requires Valid()
      modifies this`pretimeArmed
      ensures sent == (step == 4 && Vacant(old(Now()).slots) && old(pretimeArmed))
      ensures Valid() && Now() == old(Now()).(pretimeArmed := step != 4 || (old(pretimeArmed) && !sent))
    {
      sent := false;
      if step == 4 {
        var vacant := IsVacant();
        if vacant && pretimeArmed {
          pretimeArmed := false;
          sent := true;
        }
      } else {
        pretimeArmed := true;
      }
    }

    method PollBuffer(comp: seq<Command>, plan: Plan) returns (out: Output)
      requires Valid() && phase <= PHASE_COUNT_MAX
      modifies this, buf
      ensures Valid() && (Now(), out) == Polling(CYCLE_NUM, old(Now()), comp, plan)
    {
      if phase == 0 {
        return Silent;
      }
      if priorPhase == 0 {
        priorPhase := phase;
        return Silent;
      }
      var compensated := false;
      if priorPhase != phase {
        CommandRuns.InsertAllOwes(CYCLE_NUM, Now(), comp, plan, 0, 0);
        compensated := CrossPhase(comp, plan);
      }
      var pretimeSent := CheckPretime();
      var send, slot := SendReady();
      priorCycleIndex := cycleIndex;
      priorPhase := phase;
      return Polled(compensated, pretimeSent, send, if send then slot else EMPTY);
    }

    /** One poll, by the step function that the run theorems are about, and by what it
        does to each field. */
    method Poll(comp: seq<Command>, plan: Plan) returns (out: Output)
      requires Valid() && phase <= PHASE_COUNT_MAX
      modifies this, buf
      ensures Valid() && (Now(), out) == Polling(CYCLE_NUM, old(Now()), comp, plan)
      ensures StepLaws.PollLaw(CYCLE_NUM, old(Now()), comp, plan, Now(), out)
    {
      StepLaws.PollObeys(CYCLE_NUM, Now(), comp, plan);
      out := PollBuffer(comp, plan);
    }

    method ResumeControl(plan: Plan, present: bool) returns (code: Option<Code>)
      requires Valid() && (present ==> 1 <= phase <= PHASE_COUNT_MAX)
      modifies buf
      ensures Valid()
      ensures !present ==> code == None && Now() == old(Now())
      ensures present ==> code.Some?
      ensures present ==>
                (Now(), code.value)
                == InsertEffectTime(CYCLE_NUM, old(Now()), ResumeCommand(old(Now()), plan), plan)
    {
      if !present {
        return None;
      }
      var cmd := Command(COMPENSATION_ID, 99, phase, 0, phase, I16(plan[phase - 1].preGreen), RESUME);
      var c := Insert(cmd, plan);
      return Some(c);
    }
  }
}
