/** What becomes of an insert that addresses a position outside the window: from
    then on the ring and the schedule can be told apart by what they put out. */
module LateInserts {
  import opened FixedWidth
  import opened SignalPlan
  import opened CommandBuffer
  import opened RingRefinement
  import opened BeyondPlan
  import CommandRuns

  /** The slot has a command to send. */
  predicate Pending(slot: Slot) {
    slot.appId != 0 && !slot.sent
  }

  /** The last poll saw the current position. */
  predicate Settled(s: State) {
    s.phase > 0 && s.priorPhase == s.phase && s.priorCycle == s.cycle
  }

  /** The ring counts cycles modulo three; otherwise the two agree on the time. */
  predicate InStep(r: State, a: State) {
    && r.cycle == a.cycle % CYCLE_NUM && r.priorCycle == a.priorCycle % CYCLE_NUM
    && r.phase == a.phase && r.priorPhase == a.priorPhase && r.step == a.step && r.sec == a.sec
  }

  // ------------------------------------------------------------ how time goes on

  /** One phase on, and the poll that sees it. */
  function Hop(n: int, phase: u8, plan: Plan): seq<Event>
    requires 2 <= n <= PHASE_COUNT_MAX && phase <= n
  {
    [Status(NextPhase(n, phase), 1, 2), Poll([], plan)]
  }

  function Hopped(n: int, rows: nat, s: State, plan: Plan): State
    requires 2 <= n <= PHASE_COUNT_MAX && s.phase <= n
  {
    Polling(rows, Packet5FCC(rows, s, Status(NextPhase(n, s.phase), 1, 2)), [], plan).0
  }

  /** The same but for the seconds that the slot is told on arrival. */
  predicate SameCommand(x: Slot, y: Slot) {
    x.(adjustedTime := 0) == y.(adjustedTime := 0)
  }

  /** Nothing but the slot left behind loses its command on the way. */
  lemma HopKeeps(n: int, rows: nat, s: State, plan: Plan)
    requires 2 <= n <= PHASE_COUNT_MAX && Settled(s) && s.phase <= n
    ensures var s' := Hopped(n, rows, s, plan);
      && Settled(s') && s'.phase == NextPhase(n, s.phase) && s'.step == 1 && s'.sec == 2
      && s'.cycle == (if s.phase == n then Row(rows, s.cycle + 1) else s.cycle)
      && forall row, p | row != s.cycle || p != s.phase ::
           SameCommand(At(s'.slots, row, p), At(s.slots, row, p))
  {
  }

  lemma {:induction false} RunTwo(rows: nat, s: State, e: Event, f: Event, rest: seq<Event>)
    requires WellFormed(e) && WellFormed(f) && WellFormedRun(rest)
    ensures WellFormedRun([e, f] + rest)
    ensures var s1 := Step(rows, s, e).0;
      Run(rows, s, [e, f] + rest).1
      == [Step(rows, s, e).1, Step(rows, s1, f).1] + Run(rows, Step(rows, s1, f).0, rest).1
  {
    var evs := [e, f] + rest;
    assert evs[1..] == [f] + rest && ([f] + rest)[1..] == rest;
    var s1 := Step(rows, s, e).0;
    assert Run(rows, s1, [f] + rest).1 == [Step(rows, s1, f).1] + Run(rows, Step(rows, s1, f).0, rest).1;
  }

  lemma {:induction false} RunOne(rows: nat, s: State, e: Event, rest: seq<Event>)
    requires WellFormed(e) && WellFormedRun(rest)
    ensures WellFormedRun([e] + rest)
    ensures Run(rows, s, [e] + rest).1 == [Step(rows, s, e).1] + Run(rows, Step(rows, s, e).0, rest).1
  {
    assert ([e] + rest)[1..] == rest;
  }

  lemma {:induction false} AllowedTwo(n: int, a: State, e: Event, f: Event, rest: seq<Event>)
    requires Allowed(n, a, e) && Allowed(n, Step(0, a, e).0, f)
    requires AllowedRun(n, Step(0, Step(0, a, e).0, f).0, rest)
    ensures AllowedRun(n, a, [e, f] + rest)
  {
    var evs := [e, f] + rest;
    assert evs[1..] == [f] + rest && ([f] + rest)[1..] == rest;
    assert AllowedRun(n, Step(0, a, e).0, [f] + rest);
  }

  /** The last event is a poll, and it sends the command of that slot, if the slot
      has one to send, and nothing otherwise. */
  predicate EndsSending(rows: nat, s: State, more: seq<Event>, slot: Slot) {
    && more != [] && WellFormedRun(more)
    && var out := Run(rows, s, more).1[|more| - 1];
       out.Polled? && out.send == Pending(slot) && (out.send ==> SameCommand(out.slot, slot))
  }

  lemma {:induction false} EndsLater(n: int, rows: nat, s: State, plan: Plan, more: seq<Event>, slot: Slot)
    requires 2 <= n <= PHASE_COUNT_MAX && s.phase <= n && EndsSending(rows, Hopped(n, rows, s, plan), more, slot)
    ensures EndsSending(rows, s, Hop(n, s.phase, plan) + more, slot)
  {
    RunTwo(rows, s, Status(NextPhase(n, s.phase), 1, 2), Poll([], plan), more);
  }

  lemma {:induction false} EndsHere(rows: nat, s: State, plan: Plan)
    requires Settled(s) && s.step == 1 && s.sec > 1
    ensures EndsSending(rows, s, [Poll([], plan)], At(s.slots, s.cycle, s.phase))
  {
    var e: Event := Poll([], plan);
    assert [e][1..] == [];
    assert Run(rows, s, [e]).1[0] == Step(rows, s, e).1;
  }

  lemma EndsSame(rows: nat, s: State, more: seq<Event>, slot: Slot, slot': Slot)
    requires EndsSending(rows, s, more, slot) && SameCommand(slot, slot')
    ensures EndsSending(rows, s, more, slot')
  {
    assert slot.appId == slot.(adjustedTime := 0).appId == slot'.appId;
    assert slot.sent == slot.(adjustedTime := 0).sent == slot'.sent;
  }

  /** These events are allowed; at their end the ring and the schedule send what
      waits in these slots. */
  ghost predicate Reaches(n: int, r: State, a: State, more: seq<Event>, x: Slot, y: Slot) {
    AllowedRun(n, a, more) && EndsSending(CYCLE_NUM, r, more, x) && EndsSending(0, a, more, y)
  }

  lemma {:induction false} HopReaches(n: int, r: State, a: State, plan: Plan, more: seq<Event>,
                                      x': Slot, y': Slot, x: Slot, y: Slot)
    requires 2 <= n <= PHASE_COUNT_MAX && Settled(a) && a.phase <= n && InStep(r, a)
    requires Reaches(n, Hopped(n, CYCLE_NUM, r, plan), Hopped(n, 0, a, plan), more, x', y')
    requires SameCommand(x', x) && SameCommand(y', y)
    ensures Reaches(n, r, a, Hop(n, a.phase, plan) + more, x, y)
  {
    var r1, a1 := Hopped(n, CYCLE_NUM, r, plan), Hopped(n, 0, a, plan);
    EndsSame(CYCLE_NUM, r1, more, x', x);
    EndsSame(0, a1, more, y', y);
    EndsLater(n, CYCLE_NUM, r, plan, more, x);
    EndsLater(n, 0, a, plan, more, y);
    AllowedTwo(n, a, Status(NextPhase(n, a.phase), 1, 2), Poll([], plan), more);
  }

  /** The ring and the schedule hop together; what waits further on stays. */
  lemma HopTogether(n: int, r: State, a: State, tc: nat, tp: nat, plan: Plan)
    requires 2 <= n <= PHASE_COUNT_MAX && Settled(a) && a.phase <= n && InStep(r, a)
    requires a.cycle <= tc <= a.cycle + CYCLE_NUM && (a.phase != tp || a.cycle < tc < a.cycle + CYCLE_NUM)
    ensures var r1, a1 := Hopped(n, CYCLE_NUM, r, plan), Hopped(n, 0, a, plan);
      && Settled(a1) && InStep(r1, a1) && a1.step == 1 && a1.sec == 2
      && a1.phase == NextPhase(n, a.phase) && a1.cycle == (if a.phase == n then a.cycle + 1 else a.cycle)
      && SameCommand(At(r1.slots, tc % CYCLE_NUM, tp), At(r.slots, tc % CYCLE_NUM, tp))
      && SameCommand(At(a1.slots, tc, tp), At(a.slots, tc, tp))
  {
    RowsDiffer(a.cycle, tc);
    HopKeepsSlot(n, CYCLE_NUM, r, plan, tc % CYCLE_NUM, tp);
    HopKeepsSlot(n, 0, a, plan, tc, tp);
  }

  lemma RowsDiffer(c: nat, tc: nat)
    ensures c < tc < c + CYCLE_NUM ==> tc % CYCLE_NUM != c % CYCLE_NUM
    ensures (c % CYCLE_NUM + 1) % CYCLE_NUM == (c + 1) % CYCLE_NUM
  {
  }

  lemma HopKeepsSlot(n: int, rows: nat, s: State, plan: Plan, row: int, p: int)
    requires 2 <= n <= PHASE_COUNT_MAX && Settled(s) && s.phase <= n && (row != s.cycle || p != s.phase)
    ensures var s' := Hopped(n, rows, s, plan);
      && Settled(s') && s'.phase == NextPhase(n, s.phase) && s'.step == 1 && s'.sec == 2
      && s'.cycle == (if s.phase == n then Row(rows, s.cycle + 1) else s.cycle)
      && SameCommand(At(s'.slots, row, p), At(s.slots, row, p))
  {
    HopKeeps(n, rows, s, plan);
  }

  /** The walk to a position less than a round of the ring ahead, and the poll that
      sends what waits there, in the ring and in the schedule. */
  lemma {:induction false} Approach(n: int, r: State, a: State, tc: nat, tp: nat, plan: Plan) returns (more: seq<Event>)
    requires 2 <= n <= PHASE_COUNT_MAX && Settled(a) && a.phase <= n && InStep(r, a) && 1 <= tp <= n
    requires a.cycle < tc || (a.cycle == tc && a.phase < tp)
    requires tc < a.cycle + CYCLE_NUM || (tc == a.cycle + CYCLE_NUM && tp < a.phase)
    ensures Reaches(n, r, a, more, At(r.slots, tc % CYCLE_NUM, tp), At(a.slots, tc, tp))
    decreases tc - a.cycle, n - a.phase
  {
    var r1, a1 := Hopped(n, CYCLE_NUM, r, plan), Hopped(n, 0, a, plan);
    HopTogether(n, r, a, tc, tp, plan);
    if a1.cycle == tc && a1.phase == tp {
      more := [Poll([], plan)];
      EndsHere(CYCLE_NUM, r1, plan);
      EndsHere(0, a1, plan);
      AllowedOne(n, a1, plan);
    } else {
      more := Approach(n, r1, a1, tc, tp, plan);
    }
    HopReaches(n, r, a, plan, more, At(r1.slots, tc % CYCLE_NUM, tp), At(a1.slots, tc, tp),
               At(r.slots, tc % CYCLE_NUM, tp), At(a.slots, tc, tp));
    more := Hop(n, a.phase, plan) + more;
  }

  lemma {:induction false} AllowedOne(n: int, a: State, plan: Plan)
    ensures AllowedRun(n, a, [Poll([], plan)])
  {
    assert [Poll([], plan)][1..] == [];
    assert AllowedRun(n, Step(0, a, Poll([], plan)).0, []);
  }

  /** After these events, all of them allowed, the outputs of the two differ. */
  ghost predicate Tells(n: int, r: State, a: State, more: seq<Event>) {
    AllowedRun(n, a, more) && WellFormedRun(more) && Run(CYCLE_NUM, r, more).1 != Run(0, a, more).1
  }

  lemma ReachingTells(n: int, r: State, a: State, more: seq<Event>, x: Slot, y: Slot)
    requires Reaches(n, r, a, more, x, y) && Pending(x) != Pending(y)
    ensures Tells(n, r, a, more)
  {
    assert Run(CYCLE_NUM, r, more).1[|more| - 1].send != Run(0, a, more).1[|more| - 1].send;
  }

  // ----------------------------------------------------------------- the insert

  /** Nothing waits further ahead than an insert can reach. */
  predicate Near(a: State) {
    forall k | k in a.slots && k.0 > a.cycle + 2 :: a.slots[k] == EMPTY
  }

  lemma InsertStaysNear(a: State, cmd: Command, plan: Plan)
    requires Near(a)
    ensures Near(InsertEffectTime(0, a, cmd, plan).0)
  {
    if Validate(cmd) == InsertAccept {
      InsertWrites(0, a, cmd, plan, a.cycle + cmd.cycle);
    } else {
      InsertRejects(0, a, cmd, plan);
    }
  }

  lemma {:induction false} InsertAllStaysNear(a: State, cmds: seq<Command>, plan: Plan)
    requires Near(a)
    ensures Near(InsertAll(0, a, cmds, plan))
    decreases |cmds|
  {
    if cmds != [] {
      InsertStaysNear(a, cmds[0], plan);
      InsertAllStaysNear(InsertEffectTime(0, a, cmds[0], plan).0, cmds[1..], plan);
    }
  }

  lemma PollStaysNear(n: int, a: State, comp: seq<Command>, plan: Plan)
    requires OnTrack(n, a) && Near(a)
    ensures Near(Polling(0, a, comp, plan).0)
  {
    InsertAllStaysNear(a, comp, plan);
    CommandRuns.InsertAllOwes(0, a, comp, plan, 0, 0);
  }

  lemma AdjustStaysNear(a: State, ev: Event)
    requires ev.Adjust? && WellFormed(ev) && Near(a)
    ensures Near(InsertAdjustment(0, a, ev).0)
  {
    if !IsCompensating(a, ev.fixedTime, ev.plan) && ev.adjustment != 0 {
      var slot := At(a.slots, a.cycle + ev.cmd.cycle, ev.cmd.phase);
      AdjustInserts(0, a, ev, slot);
      var effect := AdjustedEffect(slot, ev.adjustment, ev.lower, ev.upper, ev.plan[ev.cmd.phase - 1]);
      InsertStaysNear(a, ev.cmd.(effectTime := effect), ev.plan);
    }
  }

  lemma StepStaysNear(n: int, a: State, ev: Event)
    requires OnTrack(n, a) && Near(a) && WellFormed(ev)
    ensures Near(Step(0, a, ev).0)
  {
    match ev
    case Insert(cmd, plan) => InsertStaysNear(a, cmd, plan);
    case Adjust(_, _, _, _, _, _) => AdjustStaysNear(a, ev);
    case Poll(comp, plan) => PollStaysNear(n, a, comp, plan);
    case _ =>
  }

  lemma {:induction false} RunStaysNear(n: int, r: State, a: State, evs: seq<Event>)
    requires OnTrack(n, a) && Refines(n, r, a) && AllowedRun(n, a, evs) && Near(a)
    ensures WellFormedRun(evs) && Near(Run(0, a, evs).0)
    decreases |evs|
  {
    AllowedIsWellFormed(n, a, evs);
    if evs != [] {
      StepRefines(n, r, a, evs[0]);
      StepStaysNear(n, a, evs[0]);
      RunStaysNear(n, Step(CYCLE_NUM, r, evs[0]).0, Step(0, a, evs[0]).0, evs[1..]);
    }
  }

  /** The two ways to be outside with a phase of the plan: over already, or three
      cycles after the slot that the next poll clears. */
  lemma OutsideCases(n: int, a: State, cmd: Command)
    requires OnTrack(n, a) && a.phase > 0 && Validate(cmd) == InsertAccept && cmd.phase <= n && !Fits(n, a, cmd)
    ensures (cmd.cycle == 0 && a.cycle == LowCycle(a) && cmd.phase < LowPhase(a) <= a.phase)
            || (cmd.cycle == 2 && a.cycle == LowCycle(a) + 1 && a.phase == 1 && a.priorPhase == n == cmd.phase)
  {
  }

  lemma RoundOn(c: nat)
    ensures (c + CYCLE_NUM) % CYCLE_NUM == c % CYCLE_NUM
  {
  }

  /** The poll before the walk. */
  lemma SettleKeeps(n: int, rows: nat, s: State, plan: Plan)
    requires 2 <= n <= PHASE_COUNT_MAX && 0 < s.phase <= n
    requires s.priorPhase == 0 ==> s.priorCycle == s.cycle
    ensures var s' := Polling(rows, s, [], plan).0;
      && Settled(s') && s'.phase == s.phase && s'.cycle == s.cycle && s'.step == s.step && s'.sec == s.sec
      && (forall row, p | (row != s.cycle || p != s.phase) && (row != s.priorCycle || p != s.priorPhase) ::
            SameCommand(At(s'.slots, row, p), At(s.slots, row, p)))
      && (s.priorPhase != s.phase && s.priorPhase != 0 ==> !Pending(At(s'.slots, s.priorCycle, s.priorPhase)))
  {
  }

  lemma {:induction false} ReachesAfterPoll(n: int, r: State, a: State, plan: Plan, more: seq<Event>, x: Slot, y: Slot)
    requires Reaches(n, Polling(CYCLE_NUM, r, [], plan).0, Polling(0, a, [], plan).0, more, x, y)
    ensures Reaches(n, r, a, [Poll([], plan)] + more, x, y)
  {
    var e: Event := Poll([], plan);
    var evs := [e] + more;
    assert evs[1..] == more;
    RunOne(CYCLE_NUM, r, e, more);
    RunOne(0, a, e, more);
  }

  /** A command for a phase that is over is sent by the ring at that phase three
      cycles later; the schedule then sends what it has for that cycle. */
  lemma {:induction false} OverIsSent(n: int, r: State, a: State, p: nat, plan: Plan) returns (more: seq<Event>)
    requires OnTrack(n, a) && InStep(r, a) && a.phase > 0 && a.cycle == LowCycle(a) && 1 <= p < LowPhase(a) <= a.phase
    ensures Reaches(n, r, a, more, At(r.slots, a.cycle % CYCLE_NUM, p), At(a.slots, a.cycle + CYCLE_NUM, p))
  {
    SettleKeeps(n, CYCLE_NUM, r, plan);
    SettleKeeps(n, 0, a, plan);
    var r1, a1 := Polling(CYCLE_NUM, r, [], plan).0, Polling(0, a, [], plan).0;
    var tc := a.cycle + CYCLE_NUM;
    RoundOn(a.cycle);
    more := Approach(n, r1, a1, tc, p, plan);
    EndsSame(CYCLE_NUM, r1, more, At(r1.slots, tc % CYCLE_NUM, p), At(r.slots, tc % CYCLE_NUM, p));
    EndsSame(0, a1, more, At(a1.slots, tc, p), At(a.slots, tc, p));
    ReachesAfterPoll(n, r, a, plan, more, At(r.slots, tc % CYCLE_NUM, p), At(a.slots, tc, p));
    more := [Poll([], plan)] + more;
  }

  /** A command for the slot that the poll clears is lost by the ring with it; the
      schedule sends it. */
  lemma {:induction false} ClearedIsLost(n: int, r: State, a: State, plan: Plan) returns (more: seq<Event>, x: Slot)
    requires OnTrack(n, a) && InStep(r, a) && a.phase == 1 && a.priorPhase == n && a.cycle == a.priorCycle + 1
    ensures Reaches(n, r, a, more, x, At(a.slots, a.cycle + 2, n)) && !Pending(x)
  {
    SettleKeeps(n, CYCLE_NUM, r, plan);
    SettleKeeps(n, 0, a, plan);
    var r1, a1 := Polling(CYCLE_NUM, r, [], plan).0, Polling(0, a, [], plan).0;
    var tc := a.cycle + 2;
    RoundOn(a.priorCycle);
    more := Approach(n, r1, a1, tc, n, plan);
    x := At(r1.slots, tc % CYCLE_NUM, n);
    EndsSame(0, a1, more, At(a1.slots, tc, n), At(a.slots, tc, n));
    ReachesAfterPoll(n, r, a, plan, more, x, At(a.slots, tc, n));
    more := [Poll([], plan)] + more;
  }

  /** An empty slot takes any command that passes the checks. */
  lemma EmptyTakes(slot: Slot, cmd: Command, p: PhasePlan)
    requires slot.appId == 0 && Validate(cmd) == InsertAccept
    ensures Pending(Contest(slot, cmd, p).0) && Contest(slot, cmd, p).1 == InsertAccept
  {
  }

  /** A command for a phase that is over goes out three cycles late. */
  lemma {:induction false} OverTells(n: int, r: State, a: State, cmd: Command, plan: Plan) returns (more: seq<Event>)
    requires OnTrack(n, a) && Refines(n, r, a) && Near(a) && a.phase > 0 && Validate(cmd) == InsertAccept
    requires cmd.cycle == 0 && a.cycle == LowCycle(a) && cmd.phase < LowPhase(a) <= a.phase
    ensures Tells(n, InsertEffectTime(CYCLE_NUM, r, cmd, plan).0, InsertEffectTime(0, a, cmd, plan).0, more)
  {
    var c, p := a.cycle, cmd.phase;
    InsertWrites(CYCLE_NUM, r, cmd, plan, c % CYCLE_NUM);
    InsertWrites(0, a, cmd, plan, c);
    var r', a' := InsertEffectTime(CYCLE_NUM, r, cmd, plan).0, InsertEffectTime(0, a, cmd, plan).0;
    OverIsFree(n, r, a, p);
    EmptyTakes(At(r.slots, c % CYCLE_NUM, p), cmd, plan[p - 1]);
    more := OverIsSent(n, r', a', p, plan);
    ReachingTells(n, r', a', more, At(r'.slots, c % CYCLE_NUM, p), At(a'.slots, c + CYCLE_NUM, p));
  }

  /** An insert changes slots only. */
  lemma InsertKeepsTime(n: int, r: State, a: State, cmd: Command, plan: Plan)
    requires OnTrack(n, a) && Refines(n, r, a)
    ensures var r', a' := InsertEffectTime(CYCLE_NUM, r, cmd, plan).0, InsertEffectTime(0, a, cmd, plan).0;
      InStep(r', a') && OnTrack(n, a') && r' == r.(slots := r'.slots) && a' == a.(slots := a'.slots)
  {
  }

  lemma ClearedIsFree(n: int, r: State, a: State)
    requires OnTrack(n, a) && Refines(n, r, a)
    requires a.cycle == LowCycle(a) + 1 && a.phase == 1 && a.priorPhase == n
    ensures At(a.slots, a.cycle + 2, n) == EMPTY
  {
    assert !Within(n, LowCycle(a), LowPhase(a), a.cycle + 2, n);
  }

  /** A command for the slot that the next poll clears never goes out. */
  lemma {:induction false} ClearedTells(n: int, r: State, a: State, cmd: Command, plan: Plan) returns (more: seq<Event>)
    requires OnTrack(n, a) && Refines(n, r, a) && Validate(cmd) == InsertAccept
    requires cmd.cycle == 2 && a.cycle == LowCycle(a) + 1 && a.phase == 1 && a.priorPhase == n == cmd.phase
    ensures Tells(n, InsertEffectTime(CYCLE_NUM, r, cmd, plan).0, InsertEffectTime(0, a, cmd, plan).0, more)
  {
    var c, p := a.cycle + 2, cmd.phase;
    InsertKeepsTime(n, r, a, cmd, plan);
    ClearedIsFree(n, r, a);
    InsertWrites(0, a, cmd, plan, c);
    var r', a' := InsertEffectTime(CYCLE_NUM, r, cmd, plan).0, InsertEffectTime(0, a, cmd, plan).0;
    EmptyTakes(At(a.slots, c, p), cmd, plan[p - 1]);
    var x;
    more, x := ClearedIsLost(n, r', a', plan);
    ReachingTells(n, r', a', more, x, At(a'.slots, c, p));
  }

  /** Whatever an insert outside the window comes to, a run can bring it to light. */
  lemma {:induction false} OutsideTells(n: int, r: State, a: State, cmd: Command, plan: Plan) returns (more: seq<Event>)
    requires OnTrack(n, a) && Refines(n, r, a) && Near(a) && a.phase > 0
    requires Validate(cmd) == InsertAccept && cmd.phase <= n && !Fits(n, a, cmd)
    ensures Tells(n, InsertEffectTime(CYCLE_NUM, r, cmd, plan).0, InsertEffectTime(0, a, cmd, plan).0, more)
  {
    OutsideCases(n, a, cmd);
    if cmd.cycle == 0 {
      more := OverTells(n, r, a, cmd, plan);
    } else {
      more := ClearedTells(n, r, a, cmd, plan);
    }
  }

  /** The ring's slot for a phase that is over stands for three cycles later, where
      nothing can be yet. */
  lemma OverIsFree(n: int, r: State, a: State, p: nat)
    requires OnTrack(n, a) && Refines(n, r, a) && Near(a)
    requires a.cycle == LowCycle(a) && 1 <= p < LowPhase(a)
    ensures At(r.slots, a.cycle % CYCLE_NUM, p) == EMPTY == At(a.slots, a.cycle + CYCLE_NUM, p)
  {
    HomeUnique(LowCycle(a), LowPhase(a), a.cycle % CYCLE_NUM, p, a.cycle + CYCLE_NUM);
    assert At(r.slots, a.cycle % CYCLE_NUM, p) == At(a.slots, Home(LowCycle(a), LowPhase(a), a.cycle % CYCLE_NUM, p), p);
  }

  /** No allowed run tells the two apart. */
  ghost predicate Alike(n: int, r: State, a: State) {
    forall more | AllowedRun(n, a, more) && WellFormedRun(more) :: Run(CYCLE_NUM, r, more).1 == Run(0, a, more).1
  }

  lemma InsideIsAlike(n: int, r: State, a: State, cmd: Command, plan: Plan)
    requires OnTrack(n, a) && Refines(n, r, a) && Validate(cmd) == InsertAccept && Fits(n, a, cmd)
    ensures InsertEffectTime(CYCLE_NUM, r, cmd, plan).1 == InsertEffectTime(0, a, cmd, plan).1
    ensures Alike(n, InsertEffectTime(CYCLE_NUM, r, cmd, plan).0, InsertEffectTime(0, a, cmd, plan).0)
  {
    InsertRefines(n, r, a, cmd, plan);
    RefinedIsAlike(n, InsertEffectTime(CYCLE_NUM, r, cmd, plan).0, InsertEffectTime(0, a, cmd, plan).0);
  }

  lemma RefinedIsAlike(n: int, r: State, a: State)
    requires OnTrack(n, a) && Refines(n, r, a)
    ensures Alike(n, r, a)
  {
    forall more | AllowedRun(n, a, more) && WellFormedRun(more) ensures Run(CYCLE_NUM, r, more).1 == Run(0, a, more).1 {
      RunRefinesFrom(n, r, a, more);
    }
  }

  lemma BesideIsAlike(n: int, r: State, a: State, c: nat, p: nat)
    requires Beside(n, r, a, c, p)
    ensures Alike(n, r, a)
  {
    forall more | AllowedRun(n, a, more) && WellFormedRun(more) ensures Run(CYCLE_NUM, r, more).1 == Run(0, a, more).1 {
      BesideRun(n, r, a, c, p, more);
    }
  }

  lemma TellsNotAlike(n: int, r: State, a: State, more: seq<Event>)
    requires Tells(n, r, a, more)
    ensures !Alike(n, r, a)
  {
  }

  /** An insert leaves the ring and the schedule with the same code, and with the same
      outputs in every allowed run from there on. */
  ghost predicate AgreeOn(n: int, r: State, a: State, cmd: Command, plan: Plan) {
    && InsertEffectTime(CYCLE_NUM, r, cmd, plan).1 == InsertEffectTime(0, a, cmd, plan).1
    && Alike(n, InsertEffectTime(CYCLE_NUM, r, cmd, plan).0, InsertEffectTime(0, a, cmd, plan).0)
  }

  /** After any allowed run, the ring and the schedule agree on an insert that passes
      the checks if and only if it addresses the window, or a phase that the plan
      does not have. */
  lemma InsertAgreesIff(n: int, evs: seq<Event>, cmd: Command, plan: Plan)
    requires 2 <= n <= PHASE_COUNT_MAX && AllowedRun(n, Start(0), evs) && WellFormedRun(evs)
    requires Run(0, Start(0), evs).0.phase > 0 && Validate(cmd) == InsertAccept
    ensures var r, a := Run(CYCLE_NUM, Start(CYCLE_NUM), evs).0, Run(0, Start(0), evs).0;
      AgreeOn(n, r, a, cmd, plan) <==> Fits(n, a, cmd) || cmd.phase > n
  {
    RingRefinesSchedule(n, evs);
    RunStaysNear(n, Start(CYCLE_NUM), Start(0), evs);
    AgreesAtIff(n, Run(CYCLE_NUM, Start(CYCLE_NUM), evs).0, Run(0, Start(0), evs).0, cmd, plan);
  }

  lemma AgreesAtIff(n: int, r: State, a: State, cmd: Command, plan: Plan)
    requires OnTrack(n, a) && Refines(n, r, a) && Near(a) && a.phase > 0 && Validate(cmd) == InsertAccept
    ensures AgreeOn(n, r, a, cmd, plan) <==> Fits(n, a, cmd) || cmd.phase > n
  {
    if Fits(n, a, cmd) {
      InsideIsAlike(n, r, a, cmd, plan);
    } else if cmd.phase > n {
      BeyondAgrees(n, r, a, cmd, plan);
    } else {
      OutsideDisagrees(n, r, a, cmd, plan);
    }
  }

  lemma BeyondAgrees(n: int, r: State, a: State, cmd: Command, plan: Plan)
    requires OnTrack(n, a) && Refines(n, r, a) && a.phase > 0 && Validate(cmd) == InsertAccept && cmd.phase > n
    ensures AgreeOn(n, r, a, cmd, plan)
  {
    var r', a', code := BeyondTurns(n, r, a, cmd, plan);
    TurnsAgree(n, r, a, cmd, plan, r', a', code);
  }

  lemma TurnsAgree(n: int, r: State, a: State, cmd: Command, plan: Plan, r': State, a': State, code: Code)
    requires InsertTurns(r, a, cmd, plan, r', a', code) && Beside(n, r', a', a.cycle + cmd.cycle, cmd.phase)
    ensures AgreeOn(n, r, a, cmd, plan)
  {
    assert Alike(n, r', a') by {
      BesideIsAlike(n, r', a', a.cycle + cmd.cycle, cmd.phase);
    }
    AlikeAgree(n, r, a, cmd, plan, r', a', code);
  }

  lemma AlikeAgree(n: int, r: State, a: State, cmd: Command, plan: Plan, r': State, a': State, code: Code)
    requires InsertTurns(r, a, cmd, plan, r', a', code) && Alike(n, r', a')
    ensures AgreeOn(n, r, a, cmd, plan)
  {
  }

  lemma OutsideDisagrees(n: int, r: State, a: State, cmd: Command, plan: Plan)
    requires OnTrack(n, a) && Refines(n, r, a) && Near(a) && a.phase > 0
    requires Validate(cmd) == InsertAccept && cmd.phase <= n && !Fits(n, a, cmd)
    ensures !AgreeOn(n, r, a, cmd, plan)
  {
    var more := OutsideTells(n, r, a, cmd, plan);
    TellsNotAlike(n, InsertEffectTime(CYCLE_NUM, r, cmd, plan).0, InsertEffectTime(0, a, cmd, plan).0, more);
  }

  /** From the start of the program, on a plan of any length: the signal is seen in
      phase q, a command for an earlier phase of the same cycle comes late, and the
      run can go on so that the ring sends that command three cycles later, when
      the schedule sends nothing. */
  lemma LateInsertIsSent(n: int, q: u8, late: Command, plan: Plan) returns (more: seq<Event>)
    requires 2 <= n <= PHASE_COUNT_MAX && 1 <= late.phase < q <= n
    requires Validate(late) == InsertAccept && late.cycle == 0
    ensures var evs := [Status(q, 1, 2), Poll([], plan)] + ([Insert(late, plan)] + more);
      && AllowedRun(n, Start(0), [Status(q, 1, 2), Poll([], plan)])
      && WellFormedRun(evs) && |more| > 0
      && var (x, y) := (Run(CYCLE_NUM, Start(CYCLE_NUM), evs).1[|evs| - 1], Run(0, Start(0), evs).1[|evs| - 1]);
         x.Polled? && x.send && x.slot.host == late.host && x.slot.appId == late.appId && y.Polled? && !y.send
  {
    var e, f, g: Event := Status(q, 1, 2), Poll([], plan), Insert(late, plan);
    var r1, a1 := Step(CYCLE_NUM, Start(CYCLE_NUM), e).0, Step(0, Start(0), e).0;
    var r2, a2 := Step(CYCLE_NUM, r1, f).0, Step(0, a1, f).0;
    AllowedTwo(n, Start(0), e, f, []);
    assert [e, f] + [] == [e, f];
    InsertWrites(CYCLE_NUM, r2, late, plan, 0);
    InsertWrites(0, a2, late, plan, 0);
    var r3, a3 := Step(CYCLE_NUM, r2, g).0, Step(0, a2, g).0;
    EmptyTakes(EMPTY, late, plan[late.phase - 1]);
    more := OverIsSent(n, r3, a3, late.phase, plan);
    RunOne(CYCLE_NUM, r2, g, more);
    RunOne(0, a2, g, more);
    RunTwo(CYCLE_NUM, Start(CYCLE_NUM), e, f, [g] + more);
    RunTwo(0, Start(0), e, f, [g] + more);
  }

  /** A poll clears a waiting slot other than the current one if and only if the last
      poll saw that position and the phase is another now. */
  lemma PollClearsIff(rows: nat, s: State, plan: Plan, row: int, p: int)
    requires s.phase > 0 && s.priorPhase > 0 && !(row == s.cycle && p == s.phase) && Pending(At(s.slots, row, p))
    ensures Pending(At(Polling(rows, s, [], plan).0.slots, row, p))
            <==> !(row == s.priorCycle && p == s.priorPhase && s.priorPhase != s.phase)
  {
  }

  /** A command for phase q is taken in phase p; the signal then passes phase q
      between two polls. */
  function Missing(p: u8, q: u8, next: u8, cmd: Command, plan: Plan): seq<Event> {
    [Status(p, 1, 2), Poll([], plan), Insert(cmd, plan), Status(q, 1, 2), Status(next, 1, 2), Poll([], plan)]
  }

  /** The state after that. */
  function Missed(rows: nat, p: u8, q: u8, next: u8, cmd: Command, plan: Plan): State {
    var s := Polling(rows, Packet5FCC(rows, Start(rows), Status(p, 1, 2)), [], plan).0;
    var s' := Packet5FCC(rows, InsertEffectTime(rows, s, cmd, plan).0, Status(q, 1, 2));
    Polling(rows, Packet5FCC(rows, s', Status(next, 1, 2)), [], plan).0
  }

  /** The slot of the phase that no poll saw is not cleared. */
  lemma MissedStays(rows: nat, p: u8, q: u8, next: u8, cmd: Command, plan: Plan)
    requires rows == 0 || rows == CYCLE_NUM
    requires 1 <= p < q < next <= PHASE_COUNT_MAX && Validate(cmd) == InsertAccept && cmd.cycle == 0 && cmd.phase == q
    ensures var s := Missed(rows, p, q, next, cmd, plan);
      && Settled(s) && s.phase == next && s.cycle == 0 && s.step == 1 && s.sec == 2
      && At(s.slots, 0, q) == Contest(EMPTY, cmd, plan[q - 1]).0
      && (rows == 0 ==> At(s.slots, CYCLE_NUM, q) == EMPTY)
  {
    var s := Polling(rows, Packet5FCC(rows, Start(rows), Status(p, 1, 2)), [], plan).0;
    InsertWrites(rows, s, cmd, plan, 0);
  }

  lemma {:induction false} RunMissing(rows: nat, p: u8, q: u8, next: u8, cmd: Command, plan: Plan, more: seq<Event>)
    requires WellFormedRun(more)
    ensures var evs := Missing(p, q, next, cmd, plan) + more;
      && WellFormedRun(evs)
      && |Run(rows, Missed(rows, p, q, next, cmd, plan), more).1| == |more|
      && (more != [] ==> Run(rows, Start(rows), evs).1[|evs| - 1]
                         == Run(rows, Missed(rows, p, q, next, cmd, plan), more).1[|more| - 1])
  {
    var e, f, g, h, i: Event :=
      Status(p, 1, 2), Poll([], plan), Insert(cmd, plan), Status(q, 1, 2), Status(next, 1, 2);
    var evs := [e, f] + ([g, h] + ([i, f] + more));
    assert Missing(p, q, next, cmd, plan) + more == evs;
    var s := Step(rows, Step(rows, Start(rows), e).0, f).0;
    var s' := Step(rows, Step(rows, s, g).0, h).0;
    RunTwo(rows, s', i, f, more);
    RunTwo(rows, s, g, h, [i, f] + more);
    RunTwo(rows, Start(rows), e, f, [g, h] + ([i, f] + more));
  }

  /** From the start of the program: a command that waits for a phase that the poll
      misses is never cleared, and the run can go on so that the ring sends it at
      that phase three cycles later, when the schedule sends nothing. */
  lemma MissedPhaseIsSent(n: int, p: u8, q: u8, next: u8, cmd: Command, plan: Plan) returns (more: seq<Event>)
    requires 1 <= p < q < next <= n <= PHASE_COUNT_MAX
    requires Validate(cmd) == InsertAccept && cmd.cycle == 0 && cmd.phase == q
    ensures var evs := Missing(p, q, next, cmd, plan) + more;
      && WellFormedRun(evs) && |more| > 0
      && var (x, y) := (Run(CYCLE_NUM, Start(CYCLE_NUM), evs).1[|evs| - 1], Run(0, Start(0), evs).1[|evs| - 1]);
         x.Polled? && x.send && x.slot.host == cmd.host && x.slot.appId == cmd.appId && y.Polled? && !y.send
  {
    var r, a := Missed(CYCLE_NUM, p, q, next, cmd, plan), Missed(0, p, q, next, cmd, plan);
    MissedStays(CYCLE_NUM, p, q, next, cmd, plan);
    MissedStays(0, p, q, next, cmd, plan);
    EmptyTakes(EMPTY, cmd, plan[q - 1]);
    more := Approach(n, r, a, CYCLE_NUM, q, plan);
    RunMissing(CYCLE_NUM, p, q, next, cmd, plan, more);
    RunMissing(0, p, q, next, cmd, plan, more);
  }
}
