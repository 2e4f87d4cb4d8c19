/** What every event does, field by field, and what that makes of the seconds a slot
    was told, the application in control and the plan command over whole runs. */
module StepLaws {
  import opened FixedWidth
  import opened SignalPlan
  import opened CommandBuffer
  import opened RingRefinement
  import opened CommandRuns
  import opened Wrappers

  // ---------------------------------------------------------------- one event

  /** A poll, in terms of the state before and after it and what it puts out.  `comp`
      goes in when the signal has left a slot whose name begins with that of a
      resume. */
  ghost predicate PollLaw(rows: nat, s: State, comp: seq<Command>, plan: Plan, s': State, out: Output) {
    if s.phase == 0 then s' == s && out == Silent
    else if s.priorPhase == 0 then s' == s.(priorPhase := s.phase) && out == Silent
    else
      var moved := s.priorPhase != s.phase;
      var resumed := moved && RESUME <= At(s.slots, s.priorCycle, s.priorPhase).host;
      var table := if resumed then InsertAll(rows, s, comp, plan).slots else s.slots;
      var here := At(table, s.cycle, s.phase);
      var sends := !moved && here.appId != 0 && !here.sent && s.step == 1 && s.sec > 1;
      && s'.cycle == s.cycle == s'.priorCycle && s'.phase == s.phase == s'.priorPhase
      && s'.step == s.step && s'.sec == s.sec
      && s'.control == (if sends then here.appId else if moved then 0 else s.control)
      && s'.pretimeArmed == (s.step != 4 || (s.pretimeArmed && exists k | k in s'.slots :: s'.slots[k].appId != 0))
      && out.Polled? && out.compensated == resumed && out.send == sends && out.slot == (if sends then here else EMPTY)
      && out.pretimeSent == (s.step == 4 && s.pretimeArmed && forall k | k in s'.slots :: s'.slots[k].appId == 0)
      && At(s'.slots, s.cycle, s.phase)
         == (if moved then here.(adjustedTime := U8(s.sec))
             else if sends then here.(sent := true, adjustedTime := here.effectTime) else here)
      && (moved ==> At(s'.slots, s.priorCycle, s.priorPhase) == EMPTY)
      && forall row, p | !(row == s.cycle && p == s.phase) && !(moved && row == s.priorCycle && p == s.priorPhase) ::
           At(s'.slots, row, p) == At(table, row, p)
  }

  lemma ResumePrefix(host: string)
    ensures IsResume(host) <==> RESUME <= host
  {
  }

  lemma PollObeys(rows: nat, s: State, comp: seq<Command>, plan: Plan)
    ensures var (s', out) := Step(rows, s, Poll(comp, plan)); PollLaw(rows, s, comp, plan, s', out)
  {
    if s.phase != 0 && s.priorPhase != 0 {
      ResumePrefix(At(s.slots, s.priorCycle, s.priorPhase).host);
      InsertAllOwes(rows, s, comp, plan, 0, 0);
    }
  }

  /** A status report: the cycle goes on exactly when the reported phase is behind the
      current one; nothing else but phase, step and seconds changes. */
  lemma StatusMeans(rows: nat, s: State, phase: u8, step: u8, sec: u16)
    ensures var s' := Step(rows, s, Status(phase, step, sec)).0; var counts := phase != 0 && step != 5;
      && s' == s.(cycle := s'.cycle, phase := s'.phase, step := step, sec := sec)
      && s'.phase == (if counts then phase else s.phase)
      && s'.cycle == (if counts && phase < s.phase then if rows == 0 then s.cycle + 1 else (s.cycle + 1) % rows else s.cycle)
  {
  }

  /** Deleting a vehicle empties the slots of that name, clearing empties all. */
  lemma DeleteMeans(rows: nat, s: State, name: string, row: int, p: int)
    ensures var was, s' := At(s.slots, row, p), Step(rows, s, DeleteObu(name)).0;
      s' == s.(slots := s'.slots) && At(s'.slots, row, p) == if was.host == name then EMPTY else was
    ensures var s' := Step(rows, s, Clear).0; s' == s.(slots := s'.slots) && At(s'.slots, row, p) == EMPTY
  {
  }

  // ---------------------------------------------------------------- one insert

  lemma ValidIff(cmd: Command)
    ensures Validate(cmd) == InsertAccept <==>
      && cmd.appId > 0 && cmd.priority > 0 && 1 <= cmd.targetPhase <= 8 && cmd.cycle < 3 && 1 <= cmd.phase <= 8
      && cmd.effectTime >= 0 && cmd.host != ""
  {
  }

  /** The green that a request comes to: the nearest that keeps the limits with the
      pedestrian steps; the longest green counts last. */
  function Nearest(effect: int, p: PhasePlan): int {
    var pedestrians := p.pedGreenFlash + p.pedRed;
    Min(Max(effect, p.minGreen - pedestrians), p.maxGreen - pedestrians)
  }

  lemma ClampIsNearest(effect: i16, p: PhasePlan)
    requires effect >= 0
    ensures Clamp(effect, p) == Nearest(effect, p)
  {
  }

  /** The slot that an insert addresses, before and after it. */
  function Addressed(rows: nat, s: State, cmd: Command): Slot {
    At(s.slots, Row(rows, s.cycle + cmd.cycle), cmd.phase)
  }

  function Inserted(rows: nat, s: State, cmd: Command, plan: Plan): Slot {
    At(Step(rows, s, Insert(cmd, plan)).0.slots, Row(rows, s.cycle + cmd.cycle), cmd.phase)
  }

  predicate Accepted(rows: nat, s: State, cmd: Command, plan: Plan) {
    Step(rows, s, Insert(cmd, plan)).1 == Returned(InsertAccept)
  }

  /** The command takes the slot over with all it carries. */
  predicate TakesOver(was: Slot, now: Slot, cmd: Command, p: PhasePlan) {
    && now.appId == cmd.appId && now.priority == cmd.priority && now.host == cmd.host
    && now.targetPhase == cmd.targetPhase && now.effectTime == U8(Nearest(cmd.effectTime, p)) && !now.sent
    && now.adjustedTime == if was.appId == 0 && was.adjustedTime == 0 then U8(p.preTimeCompensated) else was.adjustedTime
  }

  /** It changes what is asked for; the slot keeps its holder and his priority. */
  predicate Updates(was: Slot, now: Slot, cmd: Command, p: PhasePlan) {
    now == was.(targetPhase := cmd.targetPhase, effectTime := U8(Nearest(cmd.effectTime, p)), sent := false)
  }

  /** The same sender: the same id, and the same first ten characters. */
  predicate SameSender(slot: Slot, cmd: Command) {
    slot.appId == cmd.appId && SameUpTo(slot.host, cmd.host, OBU_NAME_MAX)
  }

  /** Names are compared up to ten characters. */
  lemma SameNameIff(a: string, b: string)
    ensures SameUpTo(a, b, OBU_NAME_MAX) <==> a == b || (|a| >= 10 && |b| >= 10 && a[..10] == b[..10])
  {
    if |a| <= 10 && |b| <= 10 {
      assert a[..|a|] == a && b[..|b|] == b;
    }
  }

  /** An empty slot and a waiting resume give way to every command. */
  lemma AnyoneTakes(rows: nat, s: State, cmd: Command, plan: Plan)
    requires Validate(cmd) == InsertAccept
    requires Addressed(rows, s, cmd).appId == 0 || Addressed(rows, s, cmd).host == RESUME
    ensures Accepted(rows, s, cmd, plan)
            && TakesOver(Addressed(rows, s, cmd), Inserted(rows, s, cmd, plan), cmd, plan[cmd.phase - 1])
  {
    ClampIsNearest(cmd.effectTime, plan[cmd.phase - 1]);
    InsertWrites(rows, s, cmd, plan, Row(rows, s.cycle + cmd.cycle));
  }

  /** A sender always updates his own command, and one compensation another: the
      earlier command's priority stays. */
  lemma OwnCommandUpdates(rows: nat, s: State, cmd: Command, plan: Plan)
    requires Validate(cmd) == InsertAccept && Addressed(rows, s, cmd).appId != 0
    requires Addressed(rows, s, cmd).host != RESUME && cmd.host != RESUME
    requires SameSender(Addressed(rows, s, cmd), cmd) || Addressed(rows, s, cmd).host == COMPENSATION == cmd.host
    ensures Accepted(rows, s, cmd, plan)
            && Updates(Addressed(rows, s, cmd), Inserted(rows, s, cmd, plan), cmd, plan[cmd.phase - 1])
  {
    ClampIsNearest(cmd.effectTime, plan[cmd.phase - 1]);
    InsertWrites(rows, s, cmd, plan, Row(rows, s.cycle + cmd.cycle));
  }

  /** Somebody else's command: with the same target it takes the slot over exactly if
      it is as far from the planned time as what waits, with another target exactly
      if it is more urgent; otherwise the slot stays as it is. */
  lemma ChallengeIff(rows: nat, s: State, cmd: Command, plan: Plan)
    requires Validate(cmd) == InsertAccept && Addressed(rows, s, cmd).appId != 0
    requires Addressed(rows, s, cmd).host != RESUME && cmd.host != RESUME && !SameSender(Addressed(rows, s, cmd), cmd)
    requires !(Addressed(rows, s, cmd).host == COMPENSATION == cmd.host)
    ensures var was, p := Addressed(rows, s, cmd), plan[cmd.phase - 1];
      && (Accepted(rows, s, cmd, plan)
          <==> if was.targetPhase == cmd.targetPhase
               then Abs(was.effectTime - p.preTimeCompensated) <= Abs(Nearest(cmd.effectTime, p) - p.preTimeCompensated)
               else cmd.priority < was.priority)
      && (if Accepted(rows, s, cmd, plan) then TakesOver(was, Inserted(rows, s, cmd, plan), cmd, p)
          else Inserted(rows, s, cmd, plan) == was && Step(rows, s, Insert(cmd, plan)).1 == Returned(ImproperPriority))
  {
    ClampIsNearest(cmd.effectTime, plan[cmd.phase - 1]);
    InsertWrites(rows, s, cmd, plan, Row(rows, s.cycle + cmd.cycle));
  }

  /** The resume that the program itself inserts asks, where it is accepted, for the
      planned green of the current phase, in the current cycle. */
  lemma ResumeAsks(rows: nat, s: State, plan: Plan)
    requires 1 <= s.phase <= PHASE_COUNT_MAX && plan[s.phase - 1].preGreen < 0x8000
    ensures var cmd := ResumeCommand(s, plan);
      && Validate(cmd) == InsertAccept && cmd.phase == s.phase && cmd.cycle == 0
      && (Accepted(rows, s, cmd, plan) ==>
            var now := Inserted(rows, s, cmd, plan);
            && now.host == RESUME && now.appId == COMPENSATION_ID && now.targetPhase == s.phase && !now.sent
            && now.effectTime == U8(Nearest(plan[s.phase - 1].preGreen, plan[s.phase - 1])))
  {
    var cmd := ResumeCommand(s, plan);
    ClampIsNearest(cmd.effectTime, plan[s.phase - 1]);
    InsertWrites(rows, s, cmd, plan, Row(rows, s.cycle));
    ResumeContestIff(Addressed(rows, s, cmd), cmd, plan[s.phase - 1]);
  }

  // --------------------------------------------------- an insert by difference

  /** The compensation is under way: with a fixed-time strategy the current phase is
      not run as planned, otherwise some slot holds a command of it. */
  ghost predicate Compensating(s: State, fixedTime: bool, plan: Plan) {
    if fixedTime then
      1 <= s.phase <= PHASE_COUNT_MAX && 0 < plan[s.phase - 1].preTimeCompensated != plan[s.phase - 1].preGreen
    else exists k | k in s.slots :: s.slots[k].appId == 99
  }

  /** The time asked for: what the slot was told last, or the planned time if it was
      told nothing, and the difference, in sixteen bits; moved into the configured
      limits. */
  function AskedFor(slot: Slot, ev: Event): int
    requires ev.Adjust? && 1 <= ev.cmd.phase <= PHASE_COUNT_MAX
  {
    var p := ev.plan[ev.cmd.phase - 1];
    var wanted := (if slot.adjustedTime != 0 then slot.adjustedTime else p.preTimeCompensated) + ev.adjustment;
    Min(Max(I16(wanted), Max(ev.lower, p.minGreen)), Min(ev.upper, p.maxGreen))
  }

  /** The configured limits and the longest green fit the sixteen bits that the
      program computes in. */
  predicate SmallLimits(ev: Event)
    requires ev.Adjust? && 1 <= ev.cmd.phase <= PHASE_COUNT_MAX
  {
    -0x8000 <= ev.lower < 0x8000 && -0x8000 <= ev.upper < 0x8000 && ev.plan[ev.cmd.phase - 1].maxGreen < 0x8000
  }

  /** An insert by difference is refused during a compensation and for a difference of
      zero; otherwise it is an insert of the time asked for. */
  lemma AdjustmentMeans(rows: nat, s: State, ev: Event)
    requires ev.Adjust? && 1 <= ev.cmd.phase <= PHASE_COUNT_MAX
    ensures Compensating(s, ev.fixedTime, ev.plan) ==> Step(rows, s, ev) == (s, Returned(InCompensation))
    ensures !Compensating(s, ev.fixedTime, ev.plan) && ev.adjustment == 0 ==>
              Step(rows, s, ev) == (s, Returned(InvalidAdjustment))
    ensures var asked, p := AskedFor(Addressed(rows, s, ev.cmd), ev), ev.plan[ev.cmd.phase - 1];
      !Compensating(s, ev.fixedTime, ev.plan) && ev.adjustment != 0 && SmallLimits(ev) ==>
        -0x8000 <= asked < 0x8000
        && Step(rows, s, ev) == Step(rows, s, Insert(ev.cmd.(effectTime := asked), ev.plan))
  {
    assert HoldsCompensation(s.slots) <==> exists k | k in s.slots :: s.slots[k].appId == 99;
    var slot := Addressed(rows, s, ev.cmd);
    if !Compensating(s, ev.fixedTime, ev.plan) && ev.adjustment != 0 && SmallLimits(ev) {
      AskedIs(slot, ev);
      AdjustInserts(rows, s, ev, slot);
    }
  }

  lemma AskedIs(slot: Slot, ev: Event)
    requires ev.Adjust? && 1 <= ev.cmd.phase <= PHASE_COUNT_MAX && SmallLimits(ev)
    ensures AskedFor(slot, ev) == AdjustedEffect(slot, ev.adjustment, ev.lower, ev.upper, ev.plan[ev.cmd.phase - 1])
  {
  }

  /** So where no limit binds, the slot comes to wait with exactly the told or planned
      time and the difference. */
  lemma UnboundDifference(rows: nat, s: State, ev: Event)
    requires ev.Adjust? && 1 <= ev.cmd.phase <= PHASE_COUNT_MAX && SmallLimits(ev)
    requires Step(rows, s, ev).1 == Returned(InsertAccept)
    requires var (was, p) := (Addressed(rows, s, ev.cmd), ev.plan[ev.cmd.phase - 1]);
      var time := (if was.adjustedTime != 0 then was.adjustedTime else p.preTimeCompensated) + ev.adjustment;
      ev.lower <= time <= ev.upper && p.minGreen <= time && time + p.Ped() <= p.maxGreen && 0 <= time <= 255
    ensures var (was, p) := (Addressed(rows, s, ev.cmd), ev.plan[ev.cmd.phase - 1]);
      At(Step(rows, s, ev).0.slots, Row(rows, s.cycle + ev.cmd.cycle), ev.cmd.phase).effectTime
      == (if was.adjustedTime != 0 then was.adjustedTime else p.preTimeCompensated) + ev.adjustment
  {
    AdjustmentMeans(rows, s, ev);
    var asked := AskedFor(Addressed(rows, s, ev.cmd), ev);
    var cmd := ev.cmd.(effectTime := asked);
    ClampIsNearest(asked, ev.plan[ev.cmd.phase - 1]);
    assert Validate(cmd) == InsertAccept;
    InsertWrites(rows, s, cmd, ev.plan, Row(rows, s.cycle + cmd.cycle));
  }

  // ------------------------------------------------- what a slot was told, over runs

  /** What an event tells slot (row, p): the seconds left when a poll first sees its
      phase, the effect time when it is sent, the planned time when a command takes
      it while it is empty and knows nothing, zero when it is cleared. */
  function Told(rows: nat, s: State, ev: Event, row: int, p: int): Option<u8>
    requires WellFormed(ev) && 1 <= p <= PHASE_COUNT_MAX
  {
    var slot, out := At(s.slots, row, p), Step(rows, s, ev).1;
    var blank := slot.appId == 0 && slot.adjustedTime == 0;
    match ev
    case Status(_, _, _) => None
    case Insert(_, plan) =>
              if blank && Accepts(Any, rows, s, ev, row, p) > 0 then Some(U8(plan[p - 1].preTimeCompensated)) else None
    case Adjust(_, _, _, _, _, plan) =>
      if blank && Accepts(Any, rows, s, ev, row, p) > 0 then Some(U8(plan[p - 1].preTimeCompensated)) else None
    case DeleteObu(name) => if slot.host == name then Some(0) else None
    case Clear => Some(0)
    case Poll(_, plan) =>
      var moved := s.phase != 0 && s.priorPhase != 0 && s.priorPhase != s.phase;
      if moved && row == s.cycle && p == s.phase then Some(U8(s.sec))
      else if moved && row == s.priorCycle && p == s.priorPhase then Some(0)
      else if out.Polled? && out.send && row == s.cycle && p == s.phase then Some(out.slot.effectTime)
      else if blank && Accepts(Any, rows, s, ev, row, p) > 0 then Some(U8(plan[p - 1].preTimeCompensated)) else None
  }

  function Knows(told: Option<u8>, before: u8): u8 {
    if told.Some? then told.value else before
  }

  lemma InsertTells(rows: nat, s: State, cmd: Command, plan: Plan, row: int, p: int)
    requires 1 <= p <= PHASE_COUNT_MAX
    ensures var was, now := At(s.slots, row, p), At(InsertEffectTime(rows, s, cmd, plan).0.slots, row, p);
      && now.adjustedTime == (if was.appId == 0 && was.adjustedTime == 0 && AcceptsInto(Any, rows, s, cmd, plan, row, p)
                              then U8(plan[p - 1].preTimeCompensated) else was.adjustedTime)
      && (!AcceptsInto(Any, rows, s, cmd, plan, row, p) ==> now == was)
      && (AcceptsInto(Any, rows, s, cmd, plan, row, p) || was.appId != 0 ==> now.appId != 0)
  {
    if Validate(cmd) == InsertAccept {
      InsertWrites(rows, s, cmd, plan, Row(rows, s.cycle + cmd.cycle));
    }
  }

  lemma {:induction false} InsertAllTells(rows: nat, s: State, cmds: seq<Command>, plan: Plan, row: int, p: int)
    requires 1 <= p <= PHASE_COUNT_MAX
    ensures var was, now := At(s.slots, row, p), At(InsertAll(rows, s, cmds, plan).slots, row, p);
      now.adjustedTime
      == if was.appId == 0 && was.adjustedTime == 0 && AcceptsAll(Any, rows, s, cmds, plan, row, p) > 0
         then U8(plan[p - 1].preTimeCompensated) else was.adjustedTime
    decreases |cmds|
  {
    if cmds != [] {
      InsertTells(rows, s, cmds[0], plan, row, p);
      InsertAllTells(rows, InsertEffectTime(rows, s, cmds[0], plan).0, cmds[1..], plan, row, p);
    }
  }

  lemma PollTells(rows: nat, s: State, comp: seq<Command>, plan: Plan, row: int, p: int)
    requires 1 <= p <= PHASE_COUNT_MAX
    ensures var ev := Poll(comp, plan);
      At(Step(rows, s, ev).0.slots, row, p).adjustedTime
                == Knows(Told(rows, s, ev, row, p), At(s.slots, row, p).adjustedTime)
  {
    PollObeys(rows, s, comp, plan);
    ResumePrefix(At(s.slots, s.priorCycle, s.priorPhase).host);
    if StartsCompensation(s) {
      InsertAllTells(rows, s, comp, plan, row, p);
    }
  }

  lemma AdjustTells(rows: nat, s: State, ev: Event, row: int, p: int)
    requires ev.Adjust? && WellFormed(ev) && 1 <= p <= PHASE_COUNT_MAX
    ensures At(Step(rows, s, ev).0.slots, row, p).adjustedTime
            == Knows(Told(rows, s, ev, row, p), At(s.slots, row, p).adjustedTime)
  {
    if !IsCompensating(s, ev.fixedTime, ev.plan) && ev.adjustment != 0 {
      var slot := At(s.slots, Row(rows, s.cycle + ev.cmd.cycle), ev.cmd.phase);
      AdjustInserts(rows, s, ev, slot);
      var effect := AdjustedEffect(slot, ev.adjustment, ev.lower, ev.upper, ev.plan[ev.cmd.phase - 1]);
      InsertTells(rows, s, ev.cmd.(effectTime := effect), ev.plan, row, p);
    }
  }

  /** After any event a slot knows what it was told, or what it knew before. */
  lemma StepTells(rows: nat, s: State, ev: Event, row: int, p: int)
    requires WellFormed(ev) && 1 <= p <= PHASE_COUNT_MAX
    ensures At(Step(rows, s, ev).0.slots, row, p).adjustedTime
            == Knows(Told(rows, s, ev, row, p), At(s.slots, row, p).adjustedTime)
  {
    match ev
    case Insert(cmd, plan) => InsertTells(rows, s, cmd, plan, row, p);
    case Adjust(_, _, _, _, _, _) => AdjustTells(rows, s, ev, row, p);
    case Poll(comp, plan) => PollTells(rows, s, comp, plan, row, p);
    case DeleteObu(name) => DeleteMeans(rows, s, name, row, p);
    case Clear => DeleteMeans(rows, s, "", row, p);
    case Status(_, _, _) =>
  }

  /** What the events of a run told the slot last. */
  function LastTold(rows: nat, s: State, evs: seq<Event>, row: int, p: int, before: u8): u8
    requires WellFormedRun(evs) && 1 <= p <= PHASE_COUNT_MAX
    decreases |evs|
  {
    if evs == [] then before
    else LastTold(rows, Step(rows, s, evs[0]).0, evs[1..], row, p, Knows(Told(rows, s, evs[0], row, p), before))
  }

  /** Over every run, each slot knows what it was told last. */
  lemma {:induction false} RunTells(rows: nat, s: State, evs: seq<Event>, row: int, p: int)
    requires WellFormedRun(evs) && 1 <= p <= PHASE_COUNT_MAX
    ensures At(Run(rows, s, evs).0.slots, row, p).adjustedTime
              == LastTold(rows, s, evs, row, p, At(s.slots, row, p).adjustedTime)
    decreases |evs|
  {
    if evs != [] {
      StepTells(rows, s, evs[0], row, p);
      RunTells(rows, Step(rows, s, evs[0]).0, evs[1..], row, p);
    }
  }

  /** The signal stays in its phase, and the slot is neither cleared nor sent. */
  predicate Undisturbed(rows: nat, s: State, evs: seq<Event>, row: int, p: int)
    requires WellFormedRun(evs)
    decreases |evs|
  {
    evs == []
    || (&& !evs[0].Clear? && evs[0] != DeleteObu(At(s.slots, row, p).host)
        && !(evs[0].Poll? && s.phase != 0 && s.priorPhase != 0 && s.priorPhase != s.phase)
        && !SendsSlot(rows, s, evs[0], row, p)
        && Undisturbed(rows, Step(rows, s, evs[0]).0, evs[1..], row, p))
  }

  lemma {:induction false} UndisturbedKnows(rows: nat, s: State, evs: seq<Event>, row: int, p: int)
    requires WellFormedRun(evs) && 1 <= p <= PHASE_COUNT_MAX && Undisturbed(rows, s, evs, row, p)
    requires At(s.slots, row, p).adjustedTime != 0
    ensures At(Run(rows, s, evs).0.slots, row, p).adjustedTime == At(s.slots, row, p).adjustedTime
    decreases |evs|
  {
    if evs != [] {
      StepTells(rows, s, evs[0], row, p);
      UndisturbedKnows(rows, Step(rows, s, evs[0]).0, evs[1..], row, p);
    }
  }

  /** From a poll that first sees a phase to the poll that first sends a command in it,
      whatever inserts come between: the difference that the sent command makes is
      counted from the seconds that were left at the first of the two, unless those
      are a multiple of 256. */
  lemma FirstSendCountsFromArrival(rows: nat, s: State, comp: seq<Command>, plan: Plan, evs: seq<Event>, ev: Event)
    requires 1 <= s.phase <= PHASE_COUNT_MAX && s.priorPhase != 0 && s.priorPhase != s.phase && U8(s.sec) != 0
    requires var s1 := Step(rows, s, Poll(comp, plan)).0;
      && WellFormedRun(evs) && Undisturbed(rows, s1, evs, s.cycle, s.phase)
      && WellFormed(ev) && SendsSlot(rows, Run(rows, s1, evs).0, ev, s.cycle, s.phase)
    ensures var s1 := Step(rows, s, Poll(comp, plan)).0;
      Step(rows, Run(rows, s1, evs).0, ev).1.slot.adjustedTime == U8(s.sec)
  {
    var s1 := Step(rows, s, Poll(comp, plan)).0;
    PollObeys(rows, s, comp, plan);
    UndisturbedKnows(rows, s1, evs, s.cycle, s.phase);
    var s2 := Run(rows, s1, evs).0;
    PollObeys(rows, s2, ev.comp, ev.plan);
  }

  /** Seconds that are a multiple of 256 are not remembered: the first command to take
      the slot then counts from the planned time. */
  lemma ArrivalAt256Forgotten(rows: nat, s: State, plan: Plan, cmd: Command)
    requires 1 <= s.phase <= PHASE_COUNT_MAX && s.priorPhase != 0 && s.priorPhase != s.phase && s.sec == 256
    requires At(s.slots, s.cycle, s.phase) == EMPTY && Validate(cmd) == InsertAccept
    requires Row(rows, s.cycle + cmd.cycle) == s.cycle && cmd.phase == s.phase
    ensures var s1 := Step(rows, s, Poll([], plan)).0;
      At(Step(rows, s1, Insert(cmd, plan)).0.slots, s.cycle, s.phase).adjustedTime
      == U8(plan[s.phase - 1].preTimeCompensated)
  {
    PollObeys(rows, s, [], plan);
    var s1 := Step(rows, s, Poll([], plan)).0;
    AnyoneTakes(rows, s1, cmd, plan);
  }

  // ---------------------------------------- the application in control, over runs

  /** The state before event i of a run from the start. */
  function StateAt(rows: nat, evs: seq<Event>, i: nat): State
    requires WellFormedRun(evs) && i <= |evs|
  {
    Run(rows, Start(rows), evs[..i]).0
  }

  function OutputAt(rows: nat, evs: seq<Event>, i: nat): Output
    requires WellFormedRun(evs) && i < |evs|
  {
    Step(rows, StateAt(rows, evs, i), evs[i]).1
  }

  lemma StateNext(rows: nat, evs: seq<Event>, i: nat)
    requires WellFormedRun(evs) && i < |evs|
    ensures StateAt(rows, evs, i + 1) == Step(rows, StateAt(rows, evs, i), evs[i]).0
  {
    RunSnoc(rows, Start(rows), evs[..i], evs[i]);
    assert evs[..i + 1] == evs[..i] + [evs[i]];
  }

  /** Event i is a poll that sees the signal in another phase than the poll before. */
  predicate MovesAt(rows: nat, evs: seq<Event>, i: nat)
    requires WellFormedRun(evs) && i < |evs|
  {
    var s := StateAt(rows, evs, i);
    evs[i].Poll? && s.phase != 0 && s.priorPhase != 0 && s.priorPhase != s.phase
  }

  predicate SendsAt(rows: nat, evs: seq<Event>, i: nat)
    requires WellFormedRun(evs) && i < |evs|
  {
    OutputAt(rows, evs, i).Polled? && OutputAt(rows, evs, i).send
  }

  /** Some event below `upTo` sets, and none after it clears. */
  predicate Latest(sets: nat -> bool, clears: nat -> bool, upTo: nat) {
    exists i: nat | i < upTo :: sets(i) && forall j: nat | i < j < upTo :: !clears(j)
  }

  lemma LatestNext(sets: nat -> bool, clears: nat -> bool, k: nat)
    ensures Latest(sets, clears, k + 1) <==> sets(k) || (!clears(k) && Latest(sets, clears, k))
  {
    if Latest(sets, clears, k) && !clears(k) {
      var i: nat :| i < k && sets(i) && forall j: nat | i < j < k :: !clears(j);
      assert forall j: nat | i < j < k + 1 :: !clears(j);
    }
  }

  /** The events that send a command of the application. */
  function SendsOf(rows: nat, evs: seq<Event>, appId: u8): nat -> bool
    requires WellFormedRun(evs)
  {
    (i: nat) => i < |evs| && SendsAt(rows, evs, i) && OutputAt(rows, evs, i).slot.appId == appId
  }

  function SendsOrMoves(rows: nat, evs: seq<Event>): nat -> bool
    requires WellFormedRun(evs)
  {
    (i: nat) => i < |evs| && (SendsAt(rows, evs, i) || MovesAt(rows, evs, i))
  }

  lemma ControlStep(rows: nat, s: State, ev: Event)
    requires WellFormed(ev)
    ensures var (s', out) := Step(rows, s, ev);
      s'.control == if out.Polled? && out.send then out.slot.appId
                    else if ev.Poll? && s.phase != 0 && s.priorPhase != 0 && s.priorPhase != s.phase then 0 else s.control
  {
    if ev.Poll? {
      PollObeys(rows, s, ev.comp, ev.plan);
    }
  }

  /** In every run, an application is in control exactly if a command of it was sent
      and neither another send nor a phase change has been polled since. */
  lemma {:induction false} ControlIff(rows: nat, evs: seq<Event>, upTo: nat, appId: u8)
    requires WellFormedRun(evs) && upTo <= |evs| && appId != 0
    ensures StateAt(rows, evs, upTo).control == appId
            <==> Latest(SendsOf(rows, evs, appId), SendsOrMoves(rows, evs), upTo)
    decreases upTo
  {
    if upTo > 0 {
      var k := upTo - 1;
      ControlIff(rows, evs, k, appId);
      StateNext(rows, evs, k);
      ControlStep(rows, StateAt(rows, evs, k), evs[k]);
      LatestNext(SendsOf(rows, evs, appId), SendsOrMoves(rows, evs), k);
    }
  }

  // ------------------------------------------------- the plan command, over runs

  predicate PretimeAt(rows: nat, evs: seq<Event>, i: nat)
    requires WellFormedRun(evs) && i < |evs|
  {
    OutputAt(rows, evs, i).Polled? && OutputAt(rows, evs, i).pretimeSent
  }

  /** Event i is a poll of a running signal in another step than the fourth. */
  predicate OtherStepAt(rows: nat, evs: seq<Event>, i: nat)
    requires WellFormedRun(evs) && i < |evs|
  {
    OutputAt(rows, evs, i).Polled? && StateAt(rows, evs, i).step != 4
  }

  lemma ArmedStep(rows: nat, s: State, ev: Event)
    requires WellFormed(ev)
    ensures var (s', out) := Step(rows, s, ev);
      s'.pretimeArmed == if !out.Polled? then s.pretimeArmed else s.step != 4 || (s.pretimeArmed && !out.pretimeSent)
  {
    if ev.Poll? {
      PollObeys(rows, s, ev.comp, ev.plan);
    }
  }

  function Pretimes(rows: nat, evs: seq<Event>): nat -> bool
    requires WellFormedRun(evs)
  {
    (i: nat) => i < |evs| && PretimeAt(rows, evs, i)
  }

  function OtherSteps(rows: nat, evs: seq<Event>): nat -> bool
    requires WellFormedRun(evs)
  {
    (i: nat) => i < |evs| && OtherStepAt(rows, evs, i)
  }

  /** The plan command is held back exactly if it went out and no poll has seen another
      step since. */
  lemma {:induction false} ArmedIff(rows: nat, evs: seq<Event>, upTo: nat)
    requires WellFormedRun(evs) && upTo <= |evs|
    ensures !StateAt(rows, evs, upTo).pretimeArmed <==> Latest(Pretimes(rows, evs), OtherSteps(rows, evs), upTo)
    decreases upTo
  {
    if upTo > 0 {
      var k := upTo - 1;
      ArmedIff(rows, evs, k);
      StateNext(rows, evs, k);
      ArmedStep(rows, StateAt(rows, evs, k), evs[k]);
      PretimeStep(rows, StateAt(rows, evs, k), evs[k]);
      LatestNext(Pretimes(rows, evs), OtherSteps(rows, evs), k);
    }
  }

  ghost predicate NoneWaits(t: Table) {
    forall k | k in t :: t[k].appId == 0
  }

  /** In every run, the plan command goes out at a poll exactly if that is in step 4,
      leaves no command waiting anywhere, and none went out since a poll saw another
      step. */
  lemma PretimeIff(rows: nat, evs: seq<Event>, j: nat)
    requires WellFormedRun(evs) && j < |evs| && OutputAt(rows, evs, j).Polled?
    ensures PretimeAt(rows, evs, j)
            <==> StateAt(rows, evs, j).step == 4 && NoneWaits(StateAt(rows, evs, j + 1).slots)
                 && !Latest(Pretimes(rows, evs), OtherSteps(rows, evs), j)
  {
    ArmedIff(rows, evs, j);
    StateNext(rows, evs, j);
    PretimeStep(rows, StateAt(rows, evs, j), evs[j]);
  }

  lemma PretimeStep(rows: nat, s: State, ev: Event)
    requires WellFormed(ev)
    ensures var (s', out) := Step(rows, s, ev);
      out.Polled? ==> (out.pretimeSent <==> s.step == 4 && s.pretimeArmed && NoneWaits(s'.slots))
  {
    if ev.Poll? {
      PollObeys(rows, s, ev.comp, ev.plan);
    }
  }
}
