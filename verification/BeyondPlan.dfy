/** A command for a phase beyond the plan: it is never sent, and the ring and the
    schedule go on alike with it. */
module BeyondPlan {
  import opened FixedWidth
  import opened SignalPlan
  import opened CommandBuffer
  import opened RingRefinement
  import CommandRuns

  /** The state without what waits in one slot. */
  function Strip(s: State, row: int, p: int): State {
    s.(slots := s.slots[(row, p) := EMPTY])
  }

  /** The ring and the schedule agree but for one slot of a phase beyond the plan,
      and hold the same in that one. */
  ghost predicate Beside(n: int, r: State, a: State, c: nat, p: nat) {
    && OnTrack(n, a) && n < p <= PHASE_COUNT_MAX && a.phase > 0
    && Refines(n, Strip(r, c % CYCLE_NUM, p), Strip(a, c, p))
    && At(r.slots, c % CYCLE_NUM, p) == At(a.slots, c, p)
  }

  lemma StripInsert(rows: nat, s: State, row: int, p: int, cmd: Command, plan: Plan)
    requires Validate(cmd) == InsertAccept ==> cmd.phase != p
    ensures var (s', code) := InsertEffectTime(rows, s, cmd, plan);
      && InsertEffectTime(rows, Strip(s, row, p), cmd, plan) == (Strip(s', row, p), code)
      && s' == s.(slots := s'.slots) && At(s'.slots, row, p) == At(s.slots, row, p)
  {
    if Validate(cmd) == InsertAccept {
      var at := Row(rows, s.cycle + cmd.cycle);
      InsertWrites(rows, s, cmd, plan, at);
      InsertWrites(rows, Strip(s, row, p), cmd, plan, at);
      var slot := Contest(At(s.slots, at, cmd.phase), cmd, plan[cmd.phase - 1]).0;
      assert s.slots[(row, p) := EMPTY][(at as int, cmd.phase as int) := slot]
          == s.slots[(at as int, cmd.phase as int) := slot][(row, p) := EMPTY];
    } else {
      InsertRejects(rows, s, cmd, plan);
      InsertRejects(rows, Strip(s, row, p), cmd, plan);
    }
  }

  lemma {:induction false} StripInsertAll(rows: nat, s: State, row: int, p: int, cmds: seq<Command>, plan: Plan)
    requires forall cmd | cmd in cmds :: Validate(cmd) == InsertAccept ==> cmd.phase != p
    ensures var s' := InsertAll(rows, s, cmds, plan);
      && InsertAll(rows, Strip(s, row, p), cmds, plan) == Strip(s', row, p)
      && s' == s.(slots := s'.slots) && At(s'.slots, row, p) == At(s.slots, row, p)
    decreases |cmds|
  {
    if cmds != [] {
      StripInsert(rows, s, row, p, cmds[0], plan);
      StripInsertAll(rows, InsertEffectTime(rows, s, cmds[0], plan).0, row, p, cmds[1..], plan);
    }
  }

  /** Leaving a phase of the plan does not touch the slot. */
  lemma StripLeave(rows: nat, s: State, row: int, p: int, comp: seq<Command>, plan: Plan)
    requires s.phase != p && s.priorPhase != p
    requires IsResume(At(s.slots, s.priorCycle, s.priorPhase).host) ==>
      forall cmd | cmd in comp :: Validate(cmd) == InsertAccept ==> cmd.phase != p
    ensures var s' := Leave(rows, s, comp, plan);
      && Leave(rows, Strip(s, row, p), comp, plan) == Strip(s', row, p)
      && s' == s.(slots := s'.slots, control := 0) && At(s'.slots, row, p) == At(s.slots, row, p)
  {
    var s1 := s;
    if IsResume(At(s.slots, s.priorCycle, s.priorPhase).host) {
      StripInsertAll(rows, s, row, p, comp, plan);
      s1 := InsertAll(rows, s, comp, plan);
    }
    LeaveWrites(s1, row, p);
  }

  /** The two writes of a leave, with and without the slot. */
  lemma LeaveWrites(s: State, row: int, p: int)
    requires s.phase != p && s.priorPhase != p
    ensures var prior, here := (s.priorCycle as int, s.priorPhase as int), (s.cycle as int, s.phase as int);
      var cleared, stripped := s.slots[prior := EMPTY], s.slots[(row, p) := EMPTY][prior := EMPTY];
      var current := At(cleared, s.cycle, s.phase).(adjustedTime := U8(s.sec));
      && At(stripped, s.cycle, s.phase) == At(cleared, s.cycle, s.phase)
      && stripped[here := current] == cleared[here := current][(row, p) := EMPTY]
      && At(cleared[here := current], row, p) == At(s.slots, row, p)
  {
  }

  lemma StripVacant(t: Table, row: int, p: int)
    ensures Vacant(t) <==> Vacant(t[(row, p) := EMPTY]) && At(t, row, p).appId == 0
    ensures HoldsCompensation(t) <==>
      HoldsCompensation(t[(row, p) := EMPTY]) || At(t, row, p).appId == COMPENSATION_ID
  {
    var u := t[(row, p) := EMPTY];
    assert forall k | k in t && k != (row, p) :: k in u && u[k] == t[k];
    assert forall k | k in u && k != (row, p) :: k in t && u[k] == t[k];
  }

  /** What a poll puts out, if the one of the stripped state puts out o. */
  function WithSlot(o: Output, slot: Slot): Output {
    if o.Polled? then o.(pretimeSent := o.pretimeSent && slot.appId == 0) else o
  }

  lemma StripPoll(rows: nat, s: State, row: int, p: int, comp: seq<Command>, plan: Plan)
    requires s.phase != p && s.priorPhase != p
    requires StartsCompensation(s) ==> forall cmd | cmd in comp :: Validate(cmd) == InsertAccept ==> cmd.phase != p
    ensures var (s', o) := Polling(rows, s, comp, plan);
      var (t', q) := Polling(rows, Strip(s, row, p), comp, plan);
      && o == WithSlot(q, At(s.slots, row, p))
      && Strip(s', row, p) == t'.(pretimeArmed := s'.pretimeArmed)
      && s'.pretimeArmed == (if !o.Polled? then s.pretimeArmed else s.step != 4 || (s.pretimeArmed && !o.pretimeSent))
      && At(s'.slots, row, p) == At(s.slots, row, p)
  {
    if s.phase != 0 && s.priorPhase != 0 {
      var s1 := s;
      if s.priorPhase != s.phase {
        StripLeave(rows, s, row, p, comp, plan);
        s1 := Leave(rows, s, comp, plan);
      }
      StripVacant(s1.slots, row, p);
      var slot := At(s1.slots, s1.cycle, s1.phase);
      var here, put := (s1.cycle as int, s1.phase as int), slot.(sent := true, adjustedTime := slot.effectTime);
      assert s1.slots[(row, p) := EMPTY][here := put] == s1.slots[here := put][(row, p) := EMPTY];
    }
  }

  /** What follows from the two stripped polls. */
  lemma Polled(n: int, r: State, a: State, tr: State, ta: State, c: nat, p: nat)
    requires OnTrack(n, ta) && n < p <= PHASE_COUNT_MAX && a.phase > 0 && Refines(n, tr, ta)
    requires r.pretimeArmed == a.pretimeArmed
    requires Strip(r, c % CYCLE_NUM, p) == tr.(pretimeArmed := r.pretimeArmed)
    requires Strip(a, c, p) == ta.(pretimeArmed := a.pretimeArmed)
    requires At(r.slots, c % CYCLE_NUM, p) == At(a.slots, c, p)
    ensures Beside(n, r, a, c, p)
  {
  }

  /** A compensation starts in both or in neither, and keeps off the slot. */
  lemma BesideStarts(n: int, r: State, a: State, c: nat, p: nat, comp: seq<Command>, plan: Plan)
    requires Beside(n, r, a, c, p) && Allowed(n, a, Poll(comp, plan))
    ensures r.phase == a.phase != p && r.priorPhase == a.priorPhase != p
    ensures StartsCompensation(r) == StartsCompensation(a)
    ensures StartsCompensation(a) ==> forall cmd | cmd in comp :: Validate(cmd) == InsertAccept ==> cmd.phase != p
    ensures Allowed(n, Strip(a, c, p), Poll(comp, plan))
  {
    if a.priorPhase != 0 {
      BesideAt(n, r, a, c, p, a.priorCycle, a.priorPhase);
    }
    assert StartsCompensation(Strip(a, c, p)) == StartsCompensation(a);
  }

  lemma PollOutputs(n: int, r: State, a: State, c: nat, p: nat, comp: seq<Command>, plan: Plan)
    requires Beside(n, r, a, c, p) && Allowed(n, a, Poll(comp, plan))
    ensures Polling(CYCLE_NUM, r, comp, plan).1 == Polling(0, a, comp, plan).1
    ensures Polling(CYCLE_NUM, r, comp, plan).0.pretimeArmed == Polling(0, a, comp, plan).0.pretimeArmed
  {
    BesideStarts(n, r, a, c, p, comp, plan);
    var row := c % CYCLE_NUM;
    PollRefines(n, Strip(r, row, p), Strip(a, c, p), comp, plan);
    StripPoll(CYCLE_NUM, r, row, p, comp, plan);
    StripPoll(0, a, c, p, comp, plan);
    assert Polling(CYCLE_NUM, Strip(r, row, p), comp, plan).1 == Polling(0, Strip(a, c, p), comp, plan).1;
  }

  lemma PollKeepsPhase(rows: nat, s: State, comp: seq<Command>, plan: Plan)
    requires s.phase > 0
    ensures Polling(rows, s, comp, plan).0.phase > 0
  {
    if s.priorPhase != 0 && s.priorPhase != s.phase && IsResume(At(s.slots, s.priorCycle, s.priorPhase).host) {
      CommandRuns.InsertAllOwes(rows, s, comp, plan, 0, 0);
    }
  }

  lemma BesidePoll(n: int, r: State, a: State, c: nat, p: nat, comp: seq<Command>, plan: Plan)
    requires Beside(n, r, a, c, p) && Allowed(n, a, Poll(comp, plan))
    ensures Polling(CYCLE_NUM, r, comp, plan).1 == Polling(0, a, comp, plan).1
    ensures Beside(n, Polling(CYCLE_NUM, r, comp, plan).0, Polling(0, a, comp, plan).0, c, p)
  {
    BesideStarts(n, r, a, c, p, comp, plan);
    PollOutputs(n, r, a, c, p, comp, plan);
    PollKeepsPhase(0, a, comp, plan);
    var row := c % CYCLE_NUM;
    PollRefines(n, Strip(r, row, p), Strip(a, c, p), comp, plan);
    StripPoll(CYCLE_NUM, r, row, p, comp, plan);
    StripPoll(0, a, c, p, comp, plan);
    Polled(n, Polling(CYCLE_NUM, r, comp, plan).0, Polling(0, a, comp, plan).0,
           Polling(CYCLE_NUM, Strip(r, row, p), comp, plan).0, Polling(0, Strip(a, c, p), comp, plan).0, c, p);
  }

  lemma BesideInsert(n: int, r: State, a: State, c: nat, p: nat, cmd: Command, plan: Plan)
    requires Beside(n, r, a, c, p) && (Validate(cmd) == InsertAccept ==> Fits(n, a, cmd))
    ensures var ((r', rc), (a', ac)) := (InsertEffectTime(CYCLE_NUM, r, cmd, plan), InsertEffectTime(0, a, cmd, plan));
      rc == ac && Beside(n, r', a', c, p)
  {
    InsertRefines(n, Strip(r, c % CYCLE_NUM, p), Strip(a, c, p), cmd, plan);
    StripInsert(CYCLE_NUM, r, c % CYCLE_NUM, p, cmd, plan);
    StripInsert(0, a, c, p, cmd, plan);
  }

  lemma BesideCompensating(n: int, r: State, a: State, c: nat, p: nat, fixedTime: bool, plan: Plan)
    requires Beside(n, r, a, c, p)
    ensures IsCompensating(r, fixedTime, plan) == IsCompensating(a, fixedTime, plan)
  {
    StripVacant(r.slots, c % CYCLE_NUM, p);
    StripVacant(a.slots, c, p);
    MirrorFilled(n, LowCycle(a), LowPhase(a), Strip(r, c % CYCLE_NUM, p).slots, Strip(a, c, p).slots);
  }

  lemma BesideAt(n: int, r: State, a: State, c: nat, p: nat, at: nat, q: nat)
    requires Beside(n, r, a, c, p) && Within(n, LowCycle(a), LowPhase(a), at, q)
    ensures At(r.slots, at % CYCLE_NUM, q) == At(a.slots, at, q)
  {
    MirrorAt(n, LowCycle(a), LowPhase(a), Strip(r, c % CYCLE_NUM, p).slots, Strip(a, c, p).slots, at, q);
  }

  lemma BesideAdjust(n: int, r: State, a: State, c: nat, p: nat, ev: Event)
    requires Beside(n, r, a, c, p) && ev.Adjust? && Allowed(n, a, ev)
    ensures var ((r', rc), (a', ac)) := (InsertAdjustment(CYCLE_NUM, r, ev), InsertAdjustment(0, a, ev));
      rc == ac && Beside(n, r', a', c, p)
  {
    BesideCompensating(n, r, a, c, p, ev.fixedTime, ev.plan);
    if !Addresses(ev.cmd) {
      AdjustTurnedAway(CYCLE_NUM, r, ev);
      AdjustTurnedAway(0, a, ev);
    } else if !IsCompensating(a, ev.fixedTime, ev.plan) && ev.adjustment != 0 {
      var at, q := a.cycle + ev.cmd.cycle, ev.cmd.phase;
      RowOfSum(a.cycle, ev.cmd.cycle);
      BesideAt(n, r, a, c, p, at, q);
      AdjustInserts(CYCLE_NUM, r, ev, At(a.slots, at, q));
      AdjustInserts(0, a, ev, At(a.slots, at, q));
      var effect := AdjustedEffect(At(a.slots, at, q), ev.adjustment, ev.lower, ev.upper, ev.plan[q - 1]);
      BesideInsert(n, r, a, c, p, ev.cmd.(effectTime := effect), ev.plan);
    }
  }

  lemma BesideStatus(n: int, r: State, a: State, c: nat, p: nat, ev: Event)
    requires Beside(n, r, a, c, p) && ev.Status? && Allowed(n, a, ev)
    ensures Beside(n, Packet5FCC(CYCLE_NUM, r, ev), Packet5FCC(0, a, ev), c, p)
  {
    StatusRefines(n, Strip(r, c % CYCLE_NUM, p), Strip(a, c, p), ev);
    assert Packet5FCC(CYCLE_NUM, Strip(r, c % CYCLE_NUM, p), ev) == Strip(Packet5FCC(CYCLE_NUM, r, ev), c % CYCLE_NUM, p);
    assert Packet5FCC(0, Strip(a, c, p), ev) == Strip(Packet5FCC(0, a, ev), c, p);
  }

  /** Clearing some slots, the one beside among them or not. */
  lemma BesideMap(n: int, r: State, a: State, c: nat, p: nat, rs: Table, as': Table, f: Slot -> Slot)
    requires Beside(n, r, a, c, p) && f(EMPTY) == EMPTY
    requires rs == map k | k in r.slots :: f(r.slots[k])
    requires as' == map k | k in a.slots :: f(a.slots[k])
    ensures Beside(n, r.(slots := rs), a.(slots := as'), c, p)
  {
    var r0, a0 := Strip(r, c % CYCLE_NUM, p).slots, Strip(a, c, p).slots;
    var r1, a1 := map k | k in r0 :: f(r0[k]), map k | k in a0 :: f(a0[k]);
    MirrorMap(n, LowCycle(a), LowPhase(a), r0, a0, r1, a1, f);
    StripMap(r.slots, c % CYCLE_NUM, p, f);
    StripMap(a.slots, c, p, f);
  }

  lemma StripMap(t: Table, row: int, p: int, f: Slot -> Slot)
    requires f(EMPTY) == EMPTY
    ensures var u := t[(row, p) := EMPTY];
      (map k | k in u :: f(u[k])) == (map k | k in t :: f(t[k]))[(row, p) := EMPTY]
    ensures At(map k | k in t :: f(t[k]), row, p) == f(At(t, row, p))
  {
  }

  lemma BesideStep(n: int, r: State, a: State, c: nat, p: nat, ev: Event)
    requires Beside(n, r, a, c, p) && Allowed(n, a, ev)
    ensures var ((r', ro), (a', ao)) := (Step(CYCLE_NUM, r, ev), Step(0, a, ev));
      ro == ao && Beside(n, r', a', c, p)
  {
    match ev
    case Status(_, _, _) => BesideStatus(n, r, a, c, p, ev);
    case Insert(cmd, plan) => BesideInsert(n, r, a, c, p, cmd, plan);
    case Adjust(_, _, _, _, _, _) => BesideAdjust(n, r, a, c, p, ev);
    case DeleteObu(name) =>
      var f := (s: Slot) => if s.host == name then EMPTY else s;
      BesideMap(n, r, a, c, p, DeleteHost(r.slots, name), DeleteHost(a.slots, name), f);
    case Clear =>
      BesideMap(n, r, a, c, p, map k | k in r.slots :: EMPTY, map k | k in a.slots :: EMPTY, _ => EMPTY);
    case Poll(comp, plan) => BesidePoll(n, r, a, c, p, comp, plan);
  }

  /** The two put out the same in every allowed run. */
  lemma {:induction false} BesideRun(n: int, r: State, a: State, c: nat, p: nat, evs: seq<Event>)
    requires Beside(n, r, a, c, p) && AllowedRun(n, a, evs)
    ensures WellFormedRun(evs) && Run(CYCLE_NUM, r, evs).1 == Run(0, a, evs).1
    decreases |evs|
  {
    AllowedIsWellFormed(n, a, evs);
    if evs != [] {
      BesideStep(n, r, a, c, p, evs[0]);
      BesideRun(n, Step(CYCLE_NUM, r, evs[0]).0, Step(0, a, evs[0]).0, c, p, evs[1..]);
    }
  }

  /** An insert for a phase beyond the plan leads to such states. */
  lemma BeyondTurns(n: int, r: State, a: State, cmd: Command, plan: Plan) returns (r': State, a': State, code: Code)
    requires OnTrack(n, a) && Refines(n, r, a) && a.phase > 0
    requires Validate(cmd) == InsertAccept && cmd.phase > n
    ensures InsertTurns(r, a, cmd, plan, r', a', code)
    ensures Beside(n, r', a', a.cycle + cmd.cycle, cmd.phase)
  {
    var c, p := a.cycle + cmd.cycle, cmd.phase;
    var row := c % CYCLE_NUM;
    RowOfSum(a.cycle, cmd.cycle);
    BeyondIsFree(n, r, a, c, p);
    BothWrite(r, a, cmd, plan, c, p);
    var (slot, code0) := Contest(EMPTY, cmd, plan[p - 1]);
    r', a' := r.(slots := r.slots[(row, p as int) := slot]), a.(slots := a.slots[(c, p as int) := slot]);
    code := code0;
    StripBack(n, r, a, c, p, slot);
  }

  lemma BeyondIsFree(n: int, r: State, a: State, c: nat, p: nat)
    requires OnTrack(n, a) && Refines(n, r, a) && n < p <= PHASE_COUNT_MAX
    ensures At(r.slots, c % CYCLE_NUM, p) == EMPTY == At(a.slots, c, p)
  {
    assert !Within(n, LowCycle(a), LowPhase(a), c, p);
    var home := Home(LowCycle(a), LowPhase(a), c % CYCLE_NUM, p);
    assert !Within(n, LowCycle(a), LowPhase(a), home, p);
  }

  /** Writing the slot and stripping it changes nothing that counts. */
  lemma StripBack(n: int, r: State, a: State, c: nat, p: nat, slot: Slot)
    requires OnTrack(n, a) && Refines(n, r, a) && a.phase > 0 && n < p <= PHASE_COUNT_MAX
    requires At(r.slots, c % CYCLE_NUM, p) == EMPTY == At(a.slots, c, p)
    ensures Beside(n, r.(slots := r.slots[((c % CYCLE_NUM) as int, p as int) := slot]),
                   a.(slots := a.slots[(c as int, p as int) := slot]), c, p)
  {
    var rk, ak := ((c % CYCLE_NUM) as int, p as int), (c as int, p as int);
    assert r.slots[rk := slot][rk := EMPTY] == r.slots[rk := EMPTY];
    assert a.slots[ak := slot][ak := EMPTY] == a.slots[ak := EMPTY];
    SameMirrors(n, LowCycle(a), LowPhase(a), r.slots, a.slots, r.slots[rk := EMPTY], a.slots[ak := EMPTY]);
  }

  lemma SameMirrors(n: int, lc: int, lp: int, ring: Table, schedule: Table, ring': Table, schedule': Table)
    requires Mirrors(n, lc, lp, ring, schedule)
    requires forall k | k in ring' :: 0 <= k.0 < CYCLE_NUM && 1 <= k.1 <= PHASE_COUNT_MAX
    requires forall row, p :: At(ring', row, p) == At(ring, row, p)
    requires forall c, p :: At(schedule', c, p) == At(schedule, c, p)
    ensures Mirrors(n, lc, lp, ring', schedule')
  {
  }
}
