/** The three-row ring imitates an unbounded schedule.

    A position is an absolute cycle number and a phase; positions are ordered by
    cycle, then phase.  The window of a state starts at the oldest position that
    the poll has not cleared yet and spans three cycles, one position per slot. */
module RingRefinement {
  import opened FixedWidth
  import opened SignalPlan
  import opened CommandBuffer

  function NextPhase(n: int, p: int): int {
    if p == n then 1 else p + 1
  }

  /** Position (c, p) is one of the 3 * n positions starting at (lc, lp). */
  predicate Within(n: int, lc: int, lp: int, c: int, p: int) {
    && 1 <= p <= n
    && (lc < c || (lc == c && lp <= p))
    && (c < lc + CYCLE_NUM || (c == lc + CYCLE_NUM && p < lp))
  }

  /** The cycle whose phase p the ring keeps in the given row, when the window
      starts at (lc, lp). */
  function Home(lc: int, lp: int, row: int, p: int): (c: int)
    requires 0 <= row < CYCLE_NUM
    ensures c % CYCLE_NUM == row
    ensures if lp <= p then lc <= c < lc + CYCLE_NUM else lc < c <= lc + CYCLE_NUM
  {
    var base := if lp <= p then lc else lc + 1;
    base + (row - base) % CYCLE_NUM
  }

  /** The ring's table holds, slot for slot, what the schedule holds in the
      window, and the schedule holds nothing outside it. */
  ghost predicate Mirrors(n: int, lc: int, lp: int, ring: Table, schedule: Table) {
    && (forall k | k in ring :: 0 <= k.0 < CYCLE_NUM && 1 <= k.1 <= PHASE_COUNT_MAX)
    && (forall row, p {:trigger Home(lc, lp, row, p)} | 0 <= row < CYCLE_NUM && 1 <= p <= PHASE_COUNT_MAX ::
          At(ring, row, p) == At(schedule, Home(lc, lp, row, p), p))
    && (forall c, p {:trigger Within(n, lc, lp, c, p)} | !Within(n, lc, lp, c, p) :: At(schedule, c, p) == EMPTY)
  }

  lemma MirrorAt(n: int, lc: int, lp: int, ring: Table, schedule: Table, c: int, p: int)
    requires 2 <= n <= PHASE_COUNT_MAX && Mirrors(n, lc, lp, ring, schedule)
    requires Within(n, lc, lp, c, p)
    ensures Home(lc, lp, c % CYCLE_NUM, p) == c
    ensures At(ring, c % CYCLE_NUM, p) == At(schedule, c, p)
  {
  }

  /** Home is the only cycle of the window that shares the row. */
  lemma HomeUnique(lc: int, lp: int, row: int, p: int, c: int)
    requires 0 <= row < CYCLE_NUM && c % CYCLE_NUM == row
    requires if lp <= p then lc <= c < lc + CYCLE_NUM else lc < c <= lc + CYCLE_NUM
    ensures Home(lc, lp, row, p) == c
  {
  }

  lemma MirrorPut(n: int, lc: int, lp: int, ring: Table, schedule: Table, c: int, p: int, s: Slot)
    requires 2 <= n <= PHASE_COUNT_MAX && Mirrors(n, lc, lp, ring, schedule)
    requires Within(n, lc, lp, c, p)
    ensures Mirrors(n, lc, lp, ring[(c % CYCLE_NUM, p) := s], schedule[(c, p) := s])
  {
    var ring', schedule' := ring[(c % CYCLE_NUM, p) := s], schedule[(c, p) := s];
    forall row, q | 0 <= row < CYCLE_NUM && 1 <= q <= PHASE_COUNT_MAX
      ensures At(ring', row, q) == At(schedule', Home(lc, lp, row, q), q)
    {
      assert At(ring, row, q) == At(schedule, Home(lc, lp, row, q), q);
      if row == c % CYCLE_NUM && q == p {
        HomeUnique(lc, lp, row, q, c);
      }
    }
    forall d, q | !Within(n, lc, lp, d, q) ensures At(schedule', d, q) == EMPTY {
      assert At(schedule, d, q) == EMPTY;
    }
  }

  /** Moving the window on by one position changes the home of one slot only:
      the one that held the oldest position now serves three cycles later. */
  lemma HomeShift(n: int, lc: int, lp: int, row: int, q: int)
    requires 2 <= n <= PHASE_COUNT_MAX && 1 <= lp <= n
    requires 0 <= row < CYCLE_NUM && 1 <= q <= PHASE_COUNT_MAX
    ensures var lc' := if lp == n then lc + 1 else lc;
            var h, h' := Home(lc, lp, row, q), Home(lc', NextPhase(n, lp), row, q);
            h == h' || (h == lc && q == lp && h' == lc + CYCLE_NUM) || q > n
  {
    var lc' := if lp == n then lc + 1 else lc;
    var h := Home(lc, lp, row, q);
    if q <= n && (h != lc || q != lp) {
      HomeUnique(lc', NextPhase(n, lp), row, q, h);
    } else if q <= n {
      HomeUnique(lc', NextPhase(n, lp), row, q, lc + CYCLE_NUM);
    }
  }

  /** Dropping the oldest position, once it is empty, moves the window on. */
  lemma MirrorShift(n: int, lc: int, lp: int, ring: Table, schedule: Table, lc': int, lp': int)
    requires 2 <= n <= PHASE_COUNT_MAX && Mirrors(n, lc, lp, ring, schedule)
    requires 1 <= lp <= n && At(schedule, lc, lp) == EMPTY
    requires lp' == NextPhase(n, lp) && lc' == if lp == n then lc + 1 else lc
    ensures Mirrors(n, lc', lp', ring, schedule)
  {
    forall row, q | 0 <= row < CYCLE_NUM && 1 <= q <= PHASE_COUNT_MAX
      ensures At(ring, row, q) == At(schedule, Home(lc', lp', row, q), q)
    {
      var h, h' := Home(lc, lp, row, q), Home(lc', lp', row, q);
      HomeShift(n, lc, lp, row, q);
      assert At(ring, row, q) == At(schedule, h, q);
      if h != h' {
        assert !Within(n, lc, lp, h', q);
        assert At(schedule, h', q) == EMPTY;
        if q > n {
          assert !Within(n, lc, lp, h, q);
        }
      }
    }
    forall d, q | !Within(n, lc', lp', d, q) ensures At(schedule, d, q) == EMPTY {
      if Within(n, lc, lp, d, q) {
        assert d == lc && q == lp;
      }
    }
  }

  lemma MirrorFilled(n: int, lc: int, lp: int, ring: Table, schedule: Table)
    requires 2 <= n <= PHASE_COUNT_MAX && Mirrors(n, lc, lp, ring, schedule)
    ensures HoldsCompensation(ring) == HoldsCompensation(schedule)
    ensures Vacant(ring) == Vacant(schedule)
  {
    forall k | k in ring ensures ring[k] == At(schedule, Home(lc, lp, k.0, k.1), k.1) {
      assert ring[k] == At(ring, k.0, k.1);
    }
    forall k | k in schedule && schedule[k] != EMPTY ensures schedule[k] == At(ring, k.0 % CYCLE_NUM, k.1) {
      assert schedule[k] == At(schedule, k.0, k.1);
      MirrorAt(n, lc, lp, ring, schedule, k.0, k.1);
    }
    if HoldsCompensation(ring) {
      var k :| k in ring && ring[k].appId == COMPENSATION_ID;
      assert (Home(lc, lp, k.0, k.1), k.1) in schedule;
    }
    if HoldsCompensation(schedule) {
      var k :| k in schedule && schedule[k].appId == COMPENSATION_ID;
      assert (k.0 % CYCLE_NUM, k.1) in ring;
    }
    if !Vacant(ring) {
      var k :| k in ring && ring[k].appId != 0;
      assert (Home(lc, lp, k.0, k.1), k.1) in schedule;
    }
    if !Vacant(schedule) {
      var k :| k in schedule && schedule[k].appId != 0;
      assert (k.0 % CYCLE_NUM, k.1) in ring;
    }
  }

  /** Any change that maps slots to slots and leaves empty ones alone. */
  lemma MirrorMap(n: int, lc: int, lp: int, ring: Table, schedule: Table, ring': Table, schedule': Table, f: Slot -> Slot)
    requires 2 <= n <= PHASE_COUNT_MAX && Mirrors(n, lc, lp, ring, schedule)
    requires f(EMPTY) == EMPTY
    requires ring' == map k | k in ring :: f(ring[k])
    requires schedule' == map k | k in schedule :: f(schedule[k])
    ensures Mirrors(n, lc, lp, ring', schedule')
  {
    forall row, p | 0 <= row < CYCLE_NUM && 1 <= p <= PHASE_COUNT_MAX
      ensures At(ring', row, p) == At(schedule', Home(lc, lp, row, p), p)
    {
      assert At(ring, row, p) == At(schedule, Home(lc, lp, row, p), p);
    }
    forall c, p | !Within(n, lc, lp, c, p) ensures At(schedule', c, p) == EMPTY {
      assert At(schedule, c, p) == EMPTY;
    }
  }

  // -------------------------------------------------------------- whole states

  /** Where the window of a state starts: at the last position that a poll saw,
      whose slot is not cleared before the next poll. */
  function LowCycle(a: State): int {
    if a.priorPhase == 0 then a.cycle else a.priorCycle
  }

  function LowPhase(a: State): int {
    if a.priorPhase == 0 then a.phase else a.priorPhase
  }

  predicate InWindow(n: int, a: State, c: int, p: int) {
    a.phase > 0 && Within(n, LowCycle(a), LowPhase(a), c, p)
  }

  /** The poll is at the current phase or exactly one phase behind it. */
  predicate OnTrack(n: int, a: State) {
    && 2 <= n <= PHASE_COUNT_MAX
    && a.phase <= n && a.priorPhase <= n
    && (a.priorPhase == 0 ==> a.cycle == 0 && a.priorCycle == 0)
    && (a.phase == 0 ==> a.priorPhase == 0)
    && (a.priorPhase > 0 ==>
          || (a.priorPhase == a.phase && a.priorCycle == a.cycle)
          || (a.phase == NextPhase(n, a.priorPhase)
              && a.cycle == if a.priorPhase == n then a.priorCycle + 1 else a.priorCycle))
  }

  /** Nothing was ever written that still stands. */
  ghost predicate Blank(t: Table) {
    forall k | k in t :: t[k] == EMPTY
  }

  ghost predicate Refines(n: int, r: State, a: State) {
    && r.cycle == a.cycle % CYCLE_NUM && r.priorCycle == a.priorCycle % CYCLE_NUM
    && r.(slots := a.slots, cycle := a.cycle, priorCycle := a.priorCycle) == a
    && Mirrors(n, LowCycle(a), LowPhase(a), r.slots, a.slots)
    && (a.phase == 0 ==> Blank(a.slots))
  }

  /** The command's address, when it has one, lies in the window. */
  predicate Fits(n: int, a: State, cmd: Command) {
    InWindow(n, a, a.cycle + cmd.cycle, cmd.phase)
  }

  /** The checks on an insert by difference that do not depend on its effect. */
  predicate Addresses(cmd: Command) {
    Validate(cmd.(effectTime := 0)) in {InsertAccept, InvalidHostName}
  }

  /** Polling sees each phase change, one phase at a time, and every command
      addresses a position of the window. */
  predicate Allowed(n: int, a: State, ev: Event) {
    && WellFormed(ev)
    && match ev
       case Status(phase, _, _) =>
         Reports(ev) && phase != a.phase ==>
           && phase <= n
           && (a.phase == 0 || (a.priorPhase == a.phase && phase == NextPhase(n, a.phase)))
       case Insert(cmd, _) => Validate(cmd) == InsertAccept ==> Fits(n, a, cmd)
       case Adjust(cmd, _, _, _, _, _) => Addresses(cmd) ==> Fits(n, a, cmd)
       case DeleteObu(_) => true
       case Clear => true
       case Poll(comp, _) =>
         StartsCompensation(a) ==>
           forall cmd | cmd in comp :: Validate(cmd) == InsertAccept ==> Fits(n, a, cmd)
  }

  predicate StartsCompensation(a: State) {
    && a.phase != 0 && a.priorPhase != 0 && a.priorPhase != a.phase
    && IsResume(At(a.slots, a.priorCycle, a.priorPhase).host)
  }

  lemma RowOfSum(cycle: nat, ahead: nat)
    ensures Row(CYCLE_NUM, cycle % CYCLE_NUM + ahead) == (cycle + ahead) % CYCLE_NUM
  {
  }

  lemma InsertWrites(rows: nat, s: State, cmd: Command, plan: Plan, row: nat)
    requires Validate(cmd) == InsertAccept && row == Row(rows, s.cycle + cmd.cycle)
    ensures var result := Contest(At(s.slots, row, cmd.phase), cmd, plan[cmd.phase - 1]);
            InsertEffectTime(rows, s, cmd, plan)
            == (s.(slots := s.slots[(row as int, cmd.phase as int) := result.0]), result.1)
  {
  }

  lemma AcceptedRefines(n: int, r: State, a: State, cmd: Command, plan: Plan)
    requires OnTrack(n, a) && Refines(n, r, a) && Validate(cmd) == InsertAccept && Fits(n, a, cmd)
    ensures var c, p := a.cycle + cmd.cycle, cmd.phase;
            var slot := Contest(At(a.slots, c, p), cmd, plan[p - 1]).0;
            && a.phase > 0
            && At(r.slots, c % CYCLE_NUM, p) == At(a.slots, c, p)
            && Row(CYCLE_NUM, r.cycle + cmd.cycle) == c % CYCLE_NUM
            && Mirrors(n, LowCycle(a), LowPhase(a),
                      r.slots[(c % CYCLE_NUM, p as int) := slot], a.slots[(c, p as int) := slot])
  {
    var c, p := a.cycle + cmd.cycle, cmd.phase;
    var lc, lp := LowCycle(a), LowPhase(a);
    RowOfSum(a.cycle, cmd.cycle);
    MirrorAt(n, lc, lp, r.slots, a.slots, c, p);
    MirrorPut(n, lc, lp, r.slots, a.slots, c, p, Contest(At(a.slots, c, p), cmd, plan[p - 1]).0);
  }

  lemma SlotsRefine(n: int, r: State, a: State, rs: Table, as': Table)
    requires OnTrack(n, a) && Refines(n, r, a) && a.phase > 0 && Mirrors(n, LowCycle(a), LowPhase(a), rs, as')
    ensures Refines(n, r.(slots := rs), a.(slots := as')) && OnTrack(n, a.(slots := as'))
  {
  }

  lemma InsertRejects(rows: nat, s: State, cmd: Command, plan: Plan)
    requires Validate(cmd) != InsertAccept
    ensures InsertEffectTime(rows, s, cmd, plan) == (s, Validate(cmd))
  {
  }

  /** Two states that an insert turns into these, with one code. */
  ghost predicate InsertTurns(r: State, a: State, cmd: Command, plan: Plan, r': State, a': State, code: Code) {
    && InsertEffectTime(CYCLE_NUM, r, cmd, plan) == (r', code)
    && InsertEffectTime(0, a, cmd, plan) == (a', code)
  }

  lemma BothWrite(r: State, a: State, cmd: Command, plan: Plan, c: nat, p: nat)
    requires Validate(cmd) == InsertAccept && c == a.cycle + cmd.cycle && p == cmd.phase
    requires Row(CYCLE_NUM, r.cycle + cmd.cycle) == c % CYCLE_NUM
    requires At(r.slots, c % CYCLE_NUM, p) == At(a.slots, c, p)
    ensures var (slot, code) := Contest(At(a.slots, c, p), cmd, plan[p - 1]);
      InsertTurns(r, a, cmd, plan, r.(slots := r.slots[(c % CYCLE_NUM, p as int) := slot]),
                  a.(slots := a.slots[(c, p as int) := slot]), code)
  {
    InsertWrites(CYCLE_NUM, r, cmd, plan, c % CYCLE_NUM);
    InsertWrites(0, a, cmd, plan, c);
  }

  lemma AcceptedRefinesTo(n: int, r: State, a: State, cmd: Command, plan: Plan)
    returns (r': State, a': State, code: Code)
    requires OnTrack(n, a) && Refines(n, r, a) && Validate(cmd) == InsertAccept && Fits(n, a, cmd)
    ensures InsertTurns(r, a, cmd, plan, r', a', code)
    ensures Refines(n, r', a') && OnTrack(n, a') && a' == a.(slots := a'.slots)
  {
    var c, p := a.cycle + cmd.cycle, cmd.phase;
    var (slot, code0) := Contest(At(a.slots, c, p), cmd, plan[p - 1]);
    AcceptedRefines(n, r, a, cmd, plan);
    var rs, as' := r.slots[(c % CYCLE_NUM, p as int) := slot], a.slots[(c, p as int) := slot];
    SlotsRefine(n, r, a, rs, as');
    BothWrite(r, a, cmd, plan, c, p);
    r', a', code := r.(slots := rs), a.(slots := as'), code0;
  }

  lemma InsertRefinesTo(n: int, r: State, a: State, cmd: Command, plan: Plan) returns (r': State, a': State, code: Code)
    requires OnTrack(n, a) && Refines(n, r, a)
    requires Validate(cmd) == InsertAccept ==> Fits(n, a, cmd)
    ensures InsertTurns(r, a, cmd, plan, r', a', code)
    ensures Refines(n, r', a') && OnTrack(n, a') && a' == a.(slots := a'.slots)
  {
    if Validate(cmd) == InsertAccept {
      r', a', code := AcceptedRefinesTo(n, r, a, cmd, plan);
    } else {
      InsertRejects(CYCLE_NUM, r, cmd, plan);
      InsertRejects(0, a, cmd, plan);
      r', a', code := r, a, Validate(cmd);
    }
  }

  lemma InsertRefines(n: int, r: State, a: State, cmd: Command, plan: Plan)
    requires OnTrack(n, a) && Refines(n, r, a)
    requires Validate(cmd) == InsertAccept ==> Fits(n, a, cmd)
    ensures var (r', rc), (a', ac) := InsertEffectTime(CYCLE_NUM, r, cmd, plan), InsertEffectTime(0, a, cmd, plan);
            rc == ac && Refines(n, r', a') && OnTrack(n, a') && a' == a.(slots := a'.slots)
  {
    var r', a', code := InsertRefinesTo(n, r, a, cmd, plan);
  }

  lemma {:induction false} InsertAllRefines(n: int, r: State, a: State, cmds: seq<Command>, plan: Plan)
    requires OnTrack(n, a) && Refines(n, r, a)
    requires forall cmd | cmd in cmds :: Validate(cmd) == InsertAccept ==> Fits(n, a, cmd)
    ensures var r', a' := InsertAll(CYCLE_NUM, r, cmds, plan), InsertAll(0, a, cmds, plan);
            Refines(n, r', a') && OnTrack(n, a') && a' == a.(slots := a'.slots)
    decreases |cmds|
  {
    if cmds != [] {
      InsertRefines(n, r, a, cmds[0], plan);
      var r1, a1 := InsertEffectTime(CYCLE_NUM, r, cmds[0], plan).0, InsertEffectTime(0, a, cmds[0], plan).0;
      InsertAllRefines(n, r1, a1, cmds[1..], plan);
    }
  }

  /** Unless the command is turned away before its effect matters, the result
      is the insert of the same command with the same effect. */
  lemma AdjustTurnedAway(rows: nat, s: State, ev: Event)
    requires ev.Adjust? && WellFormed(ev) && !Addresses(ev.cmd)
    ensures InsertAdjustment(rows, s, ev) ==
            (s, if IsCompensating(s, ev.fixedTime, ev.plan) then InCompensation
                else if ev.adjustment == 0 then InvalidAdjustment
                else Validate(ev.cmd.(effectTime := 0)))
  {
  }

  lemma AdjustInserts(rows: nat, s: State, ev: Event, slot: Slot)
    requires ev.Adjust? && WellFormed(ev) && ev.adjustment != 0
    requires !IsCompensating(s, ev.fixedTime, ev.plan)
    requires slot == At(s.slots, Row(rows, s.cycle + ev.cmd.cycle), ev.cmd.phase)
    ensures var effect := AdjustedEffect(slot, ev.adjustment, ev.lower, ev.upper, ev.plan[ev.cmd.phase - 1]);
            InsertAdjustment(rows, s, ev) == InsertEffectTime(rows, s, ev.cmd.(effectTime := effect), ev.plan)
  {
  }

  lemma AdjustGoesIn(n: int, r: State, a: State, ev: Event)
    requires OnTrack(n, a) && Refines(n, r, a) && ev.Adjust? && Allowed(n, a, ev) && Addresses(ev.cmd)
    requires !IsCompensating(r, ev.fixedTime, ev.plan) && !IsCompensating(a, ev.fixedTime, ev.plan)
    requires ev.adjustment != 0
    ensures var (r', rc), (a', ac) := InsertAdjustment(CYCLE_NUM, r, ev), InsertAdjustment(0, a, ev);
            rc == ac && Refines(n, r', a') && OnTrack(n, a')
  {
    var c, p := a.cycle + ev.cmd.cycle, ev.cmd.phase;
    RowOfSum(a.cycle, ev.cmd.cycle);
    MirrorAt(n, LowCycle(a), LowPhase(a), r.slots, a.slots, c, p);
    AdjustInserts(CYCLE_NUM, r, ev, At(a.slots, c, p));
    AdjustInserts(0, a, ev, At(a.slots, c, p));
    var effect := AdjustedEffect(At(a.slots, c, p), ev.adjustment, ev.lower, ev.upper, ev.plan[p - 1]);
    InsertRefines(n, r, a, ev.cmd.(effectTime := effect), ev.plan);
  }

  lemma AdjustRefines(n: int, r: State, a: State, ev: Event)
    requires OnTrack(n, a) && Refines(n, r, a) && ev.Adjust? && Allowed(n, a, ev)
    ensures var (r', rc), (a', ac) := InsertAdjustment(CYCLE_NUM, r, ev), InsertAdjustment(0, a, ev);
            rc == ac && Refines(n, r', a') && OnTrack(n, a')
  {
    var lc, lp := LowCycle(a), LowPhase(a);
    MirrorFilled(n, lc, lp, r.slots, a.slots);
    assert IsCompensating(r, ev.fixedTime, ev.plan) == IsCompensating(a, ev.fixedTime, ev.plan);
    if !Addresses(ev.cmd) {
      AdjustTurnedAway(CYCLE_NUM, r, ev);
      AdjustTurnedAway(0, a, ev);
    } else if !IsCompensating(a, ev.fixedTime, ev.plan) && ev.adjustment != 0 {
      AdjustGoesIn(n, r, a, ev);
    }
  }

  lemma BlankMirrors(n: int, lc: int, lp: int, ring: Table, schedule: Table, lc': int, lp': int)
    requires Mirrors(n, lc, lp, ring, schedule) && Blank(schedule)
    ensures Mirrors(n, lc', lp', ring, schedule)
  {
    forall row, p | 0 <= row < CYCLE_NUM && 1 <= p <= PHASE_COUNT_MAX
      ensures At(ring, row, p) == At(schedule, Home(lc', lp', row, p), p)
    {
      assert At(ring, row, p) == At(schedule, Home(lc, lp, row, p), p);
    }
  }

  lemma StatusRefines(n: int, r: State, a: State, ev: Event)
    requires OnTrack(n, a) && Refines(n, r, a) && ev.Status? && Allowed(n, a, ev)
    ensures var r', a' := Packet5FCC(CYCLE_NUM, r, ev), Packet5FCC(0, a, ev);
            Refines(n, r', a') && OnTrack(n, a')
  {
    if a.phase == 0 {
      var a' := Packet5FCC(0, a, ev);
      BlankMirrors(n, LowCycle(a), LowPhase(a), r.slots, a.slots, LowCycle(a'), LowPhase(a'));
    }
  }

  lemma LeaveRefines(n: int, r: State, a: State, comp: seq<Command>, plan: Plan)
    requires OnTrack(n, a) && Refines(n, r, a) && Allowed(n, a, Poll(comp, plan))
    requires a.phase != 0 && a.priorPhase != 0 && a.priorPhase != a.phase
    ensures StartsCompensation(r) == StartsCompensation(a)
    ensures var r', a' := Leave(CYCLE_NUM, r, comp, plan), Leave(0, a, comp, plan);
            && r' == r.(slots := r'.slots, control := 0) && a' == a.(slots := a'.slots, control := 0)
            && Mirrors(n, a.cycle, a.phase, r'.slots, a'.slots)
  {
    var lc, lp := a.priorCycle, a.priorPhase;
    MirrorAt(n, lc, lp, r.slots, a.slots, lc, lp);
    var r1, a1 := r, a;
    if StartsCompensation(a) {
      InsertAllRefines(n, r, a, comp, plan);
      r1, a1 := InsertAll(CYCLE_NUM, r, comp, plan), InsertAll(0, a, comp, plan);
    }
    MirrorPut(n, lc, lp, r1.slots, a1.slots, lc, lp, EMPTY);
    var r2, a2 := r1.slots[(r.priorCycle as int, lp as int) := EMPTY], a1.slots[(lc as int, lp as int) := EMPTY];
    MirrorShift(n, lc, lp, r2, a2, a.cycle, a.phase);
    MirrorAt(n, a.cycle, a.phase, r2, a2, a.cycle, a.phase);
    MirrorPut(n, a.cycle, a.phase, r2, a2, a.cycle, a.phase, At(a2, a.cycle, a.phase).(adjustedTime := U8(a.sec)));
  }

  lemma PollRefines(n: int, r: State, a: State, comp: seq<Command>, plan: Plan)
    requires OnTrack(n, a) && Refines(n, r, a) && Allowed(n, a, Poll(comp, plan))
    ensures var (r', ro), (a', ao) := Polling(CYCLE_NUM, r, comp, plan), Polling(0, a, comp, plan);
            ro == ao && Refines(n, r', a') && OnTrack(n, a')
  {
    if a.phase != 0 && a.priorPhase != 0 {
      var r1, a1 := r, a;
      if a.priorPhase != a.phase {
        LeaveRefines(n, r, a, comp, plan);
        r1, a1 := Leave(CYCLE_NUM, r, comp, plan), Leave(0, a, comp, plan);
      }
      MirrorFilled(n, a.cycle, a.phase, r1.slots, a1.slots);
      MirrorAt(n, a.cycle, a.phase, r1.slots, a1.slots, a.cycle, a.phase);
      var slot := At(a1.slots, a.cycle, a.phase);
      MirrorPut(n, a.cycle, a.phase, r1.slots, a1.slots, a.cycle, a.phase,
                slot.(sent := true, adjustedTime := slot.effectTime));
    }
  }

  /** One step of the program and one step of the schedule put out the same and
      stay related. */
  lemma StepRefines(n: int, r: State, a: State, ev: Event)
    requires OnTrack(n, a) && Refines(n, r, a) && Allowed(n, a, ev)
    ensures var (r', ro), (a', ao) := Step(CYCLE_NUM, r, ev), Step(0, a, ev);
            ro == ao && Refines(n, r', a') && OnTrack(n, a')
  {
    match ev
    case Status(_, _, _) => StatusRefines(n, r, a, ev);
    case Insert(cmd, plan) => InsertRefines(n, r, a, cmd, plan);
    case Adjust(_, _, _, _, _, _) => AdjustRefines(n, r, a, ev);
    case DeleteObu(name) =>
      var f := (s: Slot) => if s.host == name then EMPTY else s;
      MirrorMap(n, LowCycle(a), LowPhase(a), r.slots, a.slots,
                DeleteHost(r.slots, name), DeleteHost(a.slots, name), f);
    case Clear =>
      MirrorMap(n, LowCycle(a), LowPhase(a), r.slots, a.slots,
                map k | k in r.slots :: EMPTY, map k | k in a.slots :: EMPTY, _ => EMPTY);
    case Poll(comp, plan) => PollRefines(n, r, a, comp, plan);
  }

  /** Every event of the run is allowed in the state that the schedule has
      reached. */
  ghost predicate AllowedRun(n: int, a: State, evs: seq<Event>)
    decreases |evs|
  {
    evs == [] || (Allowed(n, a, evs[0]) && AllowedRun(n, Step(0, a, evs[0]).0, evs[1..]))
  }

  lemma {:induction false} AllowedIsWellFormed(n: int, a: State, evs: seq<Event>)
    requires AllowedRun(n, a, evs)
    ensures WellFormedRun(evs)
    decreases |evs|
  {
    if evs != [] {
      AllowedIsWellFormed(n, Step(0, a, evs[0]).0, evs[1..]);
      assert forall i | 1 <= i < |evs| :: evs[i] == evs[1..][i - 1];
    }
  }

  lemma {:induction false} RunRefinesFrom(n: int, r: State, a: State, evs: seq<Event>)
    requires OnTrack(n, a) && Refines(n, r, a) && AllowedRun(n, a, evs)
    ensures WellFormedRun(evs)
    ensures var (r', ro), (a', ao) := Run(CYCLE_NUM, r, evs), Run(0, a, evs);
            ro == ao && Refines(n, r', a') && OnTrack(n, a')
    decreases |evs|
  {
    AllowedIsWellFormed(n, a, evs);
    if evs != [] {
      StepRefines(n, r, a, evs[0]);
      RunRefinesFrom(n, Step(CYCLE_NUM, r, evs[0]).0, Step(0, a, evs[0]).0, evs[1..]);
    }
  }

  /** Main result: from the start of the program, whatever the run, every return
      code, every compensation start and every command sent by the three-row
      buffer is the one that the unbounded schedule gives. */
  lemma RingRefinesSchedule(n: int, evs: seq<Event>)
    requires 2 <= n <= PHASE_COUNT_MAX && AllowedRun(n, Start(0), evs)
    ensures WellFormedRun(evs)
    ensures Run(CYCLE_NUM, Start(CYCLE_NUM), evs).1 == Run(0, Start(0), evs).1
    ensures Refines(n, Run(CYCLE_NUM, Start(CYCLE_NUM), evs).0, Run(0, Start(0), evs).0)
    ensures OnTrack(n, Run(0, Start(0), evs).0)
  {
    RunRefinesFrom(n, Start(CYCLE_NUM), Start(0), evs);
  }
}
