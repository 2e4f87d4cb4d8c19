/** The rolling buffer of pending green-time commands: what each slot holds,
    who may replace it, and what one event of the program does to the whole.

    Every operation is written once, over a table keyed by (row, phase).  With
    `rows == 3` a row is a cycle number modulo 3 and the table is the program's
    `command_buf[3][8]`.  With `rows == 0` a row is the cycle number itself, so
    nothing is ever reused: that table is the unbounded schedule which the ring
    is meant to imitate (see RingRefinement). */
module CommandBuffer {
  import opened FixedWidth
  import opened SignalPlan

  const RESUME := "RESUME"
  const COMPENSATION := "COMPENSATION"
  const COMPENSATION_ID: u8 := 99
  const OBU_NAME_MAX := 10

  datatype Slot = Slot(
    appId: u8,
    priority: u8,
    targetPhase: u8,
    effectTime: u8,
    adjustedTime: u8,
    host: string,
    sent: bool)

  /** A zeroed slot. */
  const EMPTY := Slot(0, 0, 0, 0, 0, "", false)

  datatype Command = Command(
    appId: u8,
    priority: u8,
    targetPhase: u8,
    cycle: u8,
    phase: u8,
    effectTime: i16,
    host: string)

  datatype Code =
    | InsertAccept
    | InvalidAppId
    | InvalidAppPriority
    | InvalidTargetPhase
    | InvalidCycle
    | InvalidPhase
    | InvalidEffectTime
    | InvalidAdjustment
    | InvalidHostName
    | ImproperPriority
    | InCompensation

  // ---------------------------------------------------------------- one slot

  /** `strncmp(a, b, n) == 0` on strings that hold no NUL. */
  predicate SameUpTo(a: string, b: string, n: nat) {
    a[..Min(n, |a|)] == b[..Min(n, |b|)]
  }

  /** The polling step compares six characters only. */
  predicate IsResume(host: string) {
    SameUpTo(host, RESUME, |RESUME|)
  }

  /** The checks made before the buffer is looked at; all but the one on the
      effect time are independent of the buffer. */
  function Validate(cmd: Command): Code {
    if cmd.appId == 0 then InvalidAppId
    else if cmd.priority == 0 then InvalidAppPriority
    else if cmd.targetPhase == 0 || cmd.targetPhase > PHASE_COUNT_MAX then InvalidTargetPhase
    else if cmd.cycle >= CYCLE_NUM then InvalidCycle
    else if cmd.phase == 0 || cmd.phase > PHASE_COUNT_MAX then InvalidPhase
    else if cmd.effectTime < 0 then InvalidEffectTime
    else if |cmd.host| == 0 then InvalidHostName
    else InsertAccept
  }

  /** The requested time, moved into the green limits less the pedestrian steps. */
  function Clamp(effect: i16, p: PhasePlan): i16 {
    var raised := if effect + p.Ped() < p.minGreen then I16(p.minGreen - p.Ped()) else effect;
    if raised + p.Ped() > p.maxGreen then I16(p.maxGreen - p.Ped()) else raised
  }

  datatype Verdict = ReplaceAll | ReplaceHost | ReplaceTime | Reject

  /** Who wins the slot: the ladder of tests of the insert, in order.  `effect`
      is the command's clamped time. */
  function Arbitrate(slot: Slot, cmd: Command, effect: i16, pretime: u16): Verdict {
    if slot.appId == 0 then ReplaceAll
    else if slot.host == COMPENSATION && cmd.host == COMPENSATION then ReplaceTime
    else if slot.host == RESUME then ReplaceAll
    else if cmd.host == RESUME then
      if slot.appId == cmd.appId then ReplaceHost else Reject
    else if SameUpTo(slot.host, cmd.host, OBU_NAME_MAX) && slot.appId == cmd.appId then ReplaceTime
    else if slot.targetPhase == cmd.targetPhase then
      if Abs(slot.effectTime - pretime) <= Abs(effect - pretime) then ReplaceAll else Reject
    else if slot.priority > cmd.priority then ReplaceAll
    else Reject
  }

  /** What the chosen entry point of the assignment cascade writes. */
  function Write(slot: Slot, cmd: Command, effect: i16, pretime: u16, v: Verdict): Slot {
    if v == Reject then slot
    else
      var adjusted := if slot.appId == 0 && slot.adjustedTime == 0 then U8(pretime) else slot.adjustedTime;
      Slot(
        if v == ReplaceAll then cmd.appId else slot.appId,
        if v == ReplaceAll then cmd.priority else slot.priority,
        cmd.targetPhase,
        U8(effect),
        adjusted,
        if v == ReplaceTime then slot.host else cmd.host,
        false)
  }

  /** One insert seen by the one slot that it addresses. */
  function Contest(slot: Slot, cmd: Command, p: PhasePlan): (Slot, Code) {
    var effect := Clamp(cmd.effectTime, p);
    var v := Arbitrate(slot, cmd, effect, p.preTimeCompensated);
    (Write(slot, cmd, effect, p.preTimeCompensated, v), if v == Reject then ImproperPriority else InsertAccept)
  }

  // ------------------------------------------------------------- whole buffer

  type Table = map<(int, int), Slot>

  /** A key that was never written stands for a zeroed slot. */
  function At(t: Table, row: int, phase: int): Slot {
    if (row, phase) in t then t[(row, phase)] else EMPTY
  }

  /** The globals of the program that the scheduler reads or writes. */
  datatype State = State(
    slots: Table,
    cycle: nat,
    priorCycle: nat,
    priorPhase: u8,
    phase: u8,
    step: u8,
    sec: u16,
    control: u8,
    pretimeArmed: bool)

  const Initial := State(map[], 0, 0, 0, 0, 0, 0, 0, true)

  /** The keys of the three rows of eight slots. */
  function RingKeys(): set<(int, int)> {
    set c, p | 0 <= c < CYCLE_NUM && 1 <= p <= PHASE_COUNT_MAX :: (c, p)
  }

  const ZEROED: Table := map k | k in RingKeys() :: EMPTY

  /** Every global is zero when the program starts. */
  function Start(rows: nat): State {
    if rows == 0 then Initial else Initial.(slots := ZEROED)
  }

  function Row(rows: nat, cycle: nat): nat {
    if rows == 0 then cycle else cycle % rows
  }

  datatype Event =
    /** A 5FCC report: phase, step and seconds left. */
    | Status(phase: u8, step: u8, sec: u16)
    | Insert(cmd: Command, plan: Plan)
    /** An insert by difference; `lower` and `upper` are the configured
        percentage bounds, where active; `fixedTime` says whether the
        controller runs its fixed-time strategy. */
    | Adjust(cmd: Command, adjustment: int, lower: int, upper: int, fixedTime: bool, plan: Plan)
    | DeleteObu(name: string)
    | Clear
    /** One polling step; `comp` is what compensation inserts, if it starts. */
    | Poll(comp: seq<Command>, plan: Plan)

  datatype Output =
    | Silent
    | Returned(code: Code)
    | Polled(compensated: bool, pretimeSent: bool, send: bool, slot: Slot)

  function InsertEffectTime(rows: nat, s: State, cmd: Command, plan: Plan): (State, Code) {
    if Validate(cmd) != InsertAccept then (s, Validate(cmd))
    else
      var row := Row(rows, s.cycle + cmd.cycle);
      var (slot, code) := Contest(At(s.slots, row, cmd.phase), cmd, plan[cmd.phase - 1]);
      (s.(slots := s.slots[(row, cmd.phase as int) := slot]), code)
  }

  /** Some slot was filled by the compensation. */
  predicate HoldsCompensation(t: Table) {
    exists k | k in t :: t[k].appId == COMPENSATION_ID
  }

  predicate Vacant(t: Table) {
    forall k | k in t :: t[k].appId == 0
  }

  predicate IsCompensating(s: State, fixedTime: bool, plan: Plan) {
    if fixedTime then
      1 <= s.phase <= PHASE_COUNT_MAX
      && plan[s.phase - 1].preTimeCompensated > 0
      && plan[s.phase - 1].preGreen != plan[s.phase - 1].preTimeCompensated
    else HoldsCompensation(s.slots)
  }

  /** The time that an insert by difference asks for. */
  function AdjustedEffect(slot: Slot, adjustment: int, lower: int, upper: int, p: PhasePlan): i16 {
    var minGreen := if lower > p.minGreen then lower else p.minGreen;
    var maxGreen := if upper < p.maxGreen then upper else p.maxGreen;
    var base := if slot.adjustedTime == 0 then p.preTimeCompensated else slot.adjustedTime;
    var effect := I16(base + adjustment);
    var raised := if effect < minGreen then I16(minGreen) else effect;
    if raised > maxGreen then I16(maxGreen) else raised
  }

  function InsertAdjustment(rows: nat, s: State, ev: Event): (State, Code)
    requires ev.Adjust? && 1 <= ev.cmd.phase <= PHASE_COUNT_MAX
  {
    if IsCompensating(s, ev.fixedTime, ev.plan) then (s, InCompensation)
    else if ev.adjustment == 0 then (s, InvalidAdjustment)
    else
      var slot := At(s.slots, Row(rows, s.cycle + ev.cmd.cycle), ev.cmd.phase);
      var effect := AdjustedEffect(slot, ev.adjustment, ev.lower, ev.upper, ev.plan[ev.cmd.phase - 1]);
      InsertEffectTime(rows, s, ev.cmd.(effectTime := effect), ev.plan)
  }

  /** The reported phase counts unless it is 0 or the step is 5. */
  predicate Reports(ev: Event)
    requires ev.Status?
  {
    ev.phase != 0 && ev.step != 5
  }

  function Packet5FCC(rows: nat, s: State, ev: Event): State
    requires ev.Status?
  {
    var moved :=
      if !Reports(ev) then s
      else if ev.phase < s.phase then s.(cycle := Row(rows, s.cycle + 1), phase := ev.phase)
      else s.(phase := ev.phase);
    moved.(step := ev.step, sec := ev.sec)
  }

  function DeleteHost(t: Table, name: string): Table {
    map k | k in t :: if t[k].host == name then EMPTY else t[k]
  }

  function InsertAll(rows: nat, s: State, cmds: seq<Command>, plan: Plan): State
    decreases |cmds|
  {
    if cmds == [] then s
    else InsertAll(rows, InsertEffectTime(rows, s, cmds[0], plan).0, cmds[1..], plan)
  }

  /** The poll has seen the phase change: a resume left behind starts the
      compensation, the slot left behind is cleared, the new slot is told the
      seconds its step began with. */
  function Leave(rows: nat, s: State, comp: seq<Command>, plan: Plan): State {
    var resumed := IsResume(At(s.slots, s.priorCycle, s.priorPhase).host);
    var s1 := if resumed then InsertAll(rows, s, comp, plan) else s;
    var cleared := s1.slots[(s.priorCycle as int, s.priorPhase as int) := EMPTY];
    var current := At(cleared, s.cycle, s.phase).(adjustedTime := U8(s.sec));
    s1.(slots := cleared[(s.cycle as int, s.phase as int) := current], control := 0)
  }

  /** The current slot is ready to go to the controller. */
  predicate Sends(s: State) {
    var slot := At(s.slots, s.cycle, s.phase);
    slot.appId != 0 && !slot.sent && s.step == 1 && s.sec > 1 && s.priorPhase == s.phase
  }

  function Polling(rows: nat, s: State, comp: seq<Command>, plan: Plan): (State, Output) {
    if s.phase == 0 then (s, Silent)
    else if s.priorPhase == 0 then (s.(priorPhase := s.phase), Silent)
    else
      var changed := s.priorPhase != s.phase;
      var compensated := changed && IsResume(At(s.slots, s.priorCycle, s.priorPhase).host);
      var s1 := if changed then Leave(rows, s, comp, plan) else s;
      var pretime := s.step == 4 && Vacant(s1.slots) && s.pretimeArmed;
      var armed := s.step != 4 || (s.pretimeArmed && !pretime);
      var slot := At(s1.slots, s1.cycle, s1.phase);
      var send := Sends(s1);
      var s2 :=
        if send then
          s1.(slots := s1.slots[(s1.cycle as int, s1.phase as int) :=
                slot.(sent := true, adjustedTime := slot.effectTime)],
              control := slot.appId)
        else s1;
      (s2.(pretimeArmed := armed, priorCycle := s2.cycle, priorPhase := s2.phase),
       Polled(compensated, pretime, send, if send then slot else EMPTY))
  }

  /** What the source asks of its callers: an insert by difference indexes the
      plan before it validates. */
  predicate WellFormed(ev: Event) {
    ev.Adjust? ==> 1 <= ev.cmd.phase <= PHASE_COUNT_MAX
  }

  function Step(rows: nat, s: State, ev: Event): (State, Output)
    requires WellFormed(ev)
  {
    match ev
    case Status(_, _, _) => (Packet5FCC(rows, s, ev), Silent)
    case Insert(cmd, plan) =>
      var (s', code) := InsertEffectTime(rows, s, cmd, plan);
      (s', Returned(code))
    case Adjust(_, _, _, _, _, _) =>
      var (s', code) := InsertAdjustment(rows, s, ev);
      (s', Returned(code))
    case DeleteObu(name) => (s.(slots := DeleteHost(s.slots, name)), Silent)
    case Clear => (s.(slots := map k | k in s.slots :: EMPTY), Silent)
    case Poll(comp, plan) => Polling(rows, s, comp, plan)
  }

  /** The command that resume_control inserts at the current phase. */
  function ResumeCommand(s: State, plan: Plan): Command
    requires 1 <= s.phase <= PHASE_COUNT_MAX
  {
    Command(COMPENSATION_ID, 99, s.phase, 0, s.phase, I16(plan[s.phase - 1].preGreen), RESUME)
  }

  predicate WellFormedRun(evs: seq<Event>) {
    forall i | 0 <= i < |evs| :: WellFormed(evs[i])
  }

  /** The state after a whole run, and everything the run put out. */
  function Run(rows: nat, s: State, evs: seq<Event>): (State, seq<Output>)
    requires WellFormedRun(evs)
    ensures |Run(rows, s, evs).1| == |evs|
    decreases |evs|
  {
    if evs == [] then (s, [])
    else
      var (s1, out) := Step(rows, s, evs[0]);
      var (s2, outs) := Run(rows, s1, evs[1..]);
      (s2, [out] + outs)
  }
}
