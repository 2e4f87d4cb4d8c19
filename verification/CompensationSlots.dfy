/** Where the commands of a compensation go in the ring. */
module CompensationSlots {
  import opened FixedWidth
  import opened SignalPlan
  import opened CommandBuffer
  import opened RingRefinement

  /** The phase index that a cycle of the compensation starts with: the current
      phase, or the next when the running step can no longer take its share. */
  function StartIndex(plan: Plan, n: nat, phase: nat, step: u8, sec: u16, t: seq<int>): (s: nat)
    requires 1 <= phase <= n <= PHASE_COUNT_MAX == |t|
    ensures s < n
  {
    var green := sec - t[phase - 1];
    if step != 1 || green < plan[phase - 1].minGreen || green > plan[phase - 1].maxGreen then
      if phase == n then 0 else phase
    else phase - 1
  }

  /** The slot that cycle i of the compensation, starting at index s, visits as
      its k-th: cycles ahead, and phase number. */
  function VisitedCycle(n: nat, i: nat, s: nat, k: nat): nat {
    (i + if s + k < n then 0 else 1) % CYCLE_NUM
  }

  function VisitedPhase(n: nat, s: nat, k: nat): int {
    if s + k < n then s + k + 1 else s + k - n + 1
  }

  function NextCycle(n: nat, cycle: nat, phase: int): nat {
    if phase == n then (cycle + 1) % CYCLE_NUM else cycle
  }

  /** Over up to three cycles with one start, no slot is visited twice, each next
      slot is the next in ring order, and every cycle visits every phase. */
  lemma VisitsTile(n: nat, s: nat, i: nat, k: nat, i': nat, k': nat)
    requires s < n && i < CYCLE_NUM && i' < CYCLE_NUM && k < n && k' < n
    ensures VisitedCycle(n, i, s, k) == VisitedCycle(n, i', s, k') && VisitedPhase(n, s, k) == VisitedPhase(n, s, k')
            <==> i == i' && k == k'
    ensures k + 1 < n ==>
              && VisitedPhase(n, s, k + 1) == NextPhase(n, VisitedPhase(n, s, k))
              && VisitedCycle(n, i, s, k + 1) == NextCycle(n, VisitedCycle(n, i, s, k), VisitedPhase(n, s, k))
    ensures k + 1 == n ==>
              && VisitedPhase(n, s, 0) == NextPhase(n, VisitedPhase(n, s, k))
              && VisitedCycle(n, i + 1, s, 0) == NextCycle(n, VisitedCycle(n, i, s, k), VisitedPhase(n, s, k))
    ensures exists j: nat :: j < n && VisitedPhase(n, s, j) == k + 1
  {
    var j := if k >= s then k - s else k + n - s;
    assert VisitedPhase(n, s, j) == k + 1;
  }

  /** Two cycles of a compensation, each with a start of its own, visit one slot. */
  predicate Share(n: nat, i: nat, s: nat, i': nat, s': nat, k: nat, k': nat) {
    && VisitedCycle(n, i, s, k) == VisitedCycle(n, i', s', k')
    && VisitedPhase(n, s, k) == VisitedPhase(n, s', k')
  }

  /** The start is computed from each cycle's own seconds, so it need not be the
      same.  Of two cycles in a row, the earlier one reaches into the later if and
      only if it starts at a later phase; a third cycle reaches around the ring
      into the first if and only if it starts at a later phase than the first. */
  lemma CyclesShareIff(n: nat, i: nat, s: nat, i': nat, s': nat)
    requires s < n && s' < n && i < i' < CYCLE_NUM
    ensures (exists k: nat, k': nat :: k < n && k' < n && Share(n, i, s, i', s', k, k'))
            <==> if i' == i + 1 then s > s' else s' > s
  {
    if i' == i + 1 && s > s' {
      assert Share(n, i, s, i', s', n - s + s', 0);
    }
    if i' != i + 1 && s' > s {
      assert Share(n, i, s, i', s', 0, n - s' + s);
    }
  }

  /** The slot of phase p in the row where cycle i + 1 starts is visited by neither
      cycle i nor cycle i + 1. */
  predicate Skipped(n: nat, i: nat, s: nat, s': nat, p: int) {
    && 1 <= p <= n
    && (forall k: nat | k < n :: !(VisitedCycle(n, i, s, k) == (i + 1) % CYCLE_NUM && VisitedPhase(n, s, k) == p))
    && (forall k: nat | k < n :: !(VisitedCycle(n, i + 1, s', k) == (i + 1) % CYCLE_NUM && VisitedPhase(n, s', k) == p))
  }

  /** Two cycles in a row leave slots out between them if and only if the earlier
      one starts at an earlier phase. */
  lemma CyclesSkipIff(n: nat, i: nat, s: nat, s': nat)
    requires s < n && s' < n && i + 1 < CYCLE_NUM
    ensures (exists p :: Skipped(n, i, s, s', p)) <==> s < s'
  {
    if s < s' {
      assert Skipped(n, i, s, s', s + 1);
    } else {
      forall p | 1 <= p <= n ensures !Skipped(n, i, s, s', p) {
        if p <= s {
          assert VisitedPhase(n, s, p + n - s - 1) == p;
        } else {
          assert VisitedPhase(n, s', p - s' - 1) == p;
        }
      }
    }
  }

  /** The command that a compensation puts at one phase index of one row. */
  function CompensationCommand(plan: Plan, cycle: u8, index: nat, t: seq<int>): Command
    requires index < PHASE_COUNT_MAX == |t|
  {
    Command(COMPENSATION_ID, 99, index + 1, cycle, index + 1, I16(I16(plan[index].preGreen) + t[index]), COMPENSATION)
  }

  function CommandFor(plan: Plan, n: nat, i: nat, s: nat, k: nat, t: seq<int>): Command
    requires s < n <= PHASE_COUNT_MAX == |t| && k < n
  {
    CompensationCommand(plan, VisitedCycle(n, i, s, k), VisitedPhase(n, s, k) - 1, t)
  }

  /** The last cycle leaves out the slots after its last adjustment. */
  predicate Needed(n: nat, cycles: nat, i: nat, s: nat, k: nat, t: seq<int>)
    requires s < n <= PHASE_COUNT_MAX == |t|
  {
    i + 1 < cycles || exists j | k <= j < n :: t[VisitedPhase(n, s, j) - 1] != 0
  }

  /** The look-ahead of the last cycle: a later slot has an adjustment. */
  method LooksAhead(n: nat, ghost s: nat, k: nat, ptr: nat, t: seq<int>) returns (found: bool)
    requires s < n <= PHASE_COUNT_MAX == |t| && k < n && ptr == VisitedPhase(n, s, k) - 1
    ensures found <==> exists j | k < j < n :: t[VisitedPhase(n, s, j) - 1] != 0
  {
    var tmp := ptr;
    for j := k + 1 to n
      invariant tmp == VisitedPhase(n, s, j - 1) - 1
      invariant forall l | k < l < j :: t[VisitedPhase(n, s, l) - 1] == 0
    {
      tmp := if tmp + 1 == n then 0 else tmp + 1;
      assert tmp == VisitedPhase(n, s, j) - 1;
      if t[tmp] != 0 {
        return true;
      }
    }
    return false;
  }

  /** What one round of the loop decides. */
  lemma NeededHere(n: nat, cycles: nat, i: nat, s: nat, k: nat, t: seq<int>)
    requires s < n <= PHASE_COUNT_MAX == |t| && k < n
    ensures Needed(n, cycles, i, s, k, t)
            <==> i + 1 < cycles || t[VisitedPhase(n, s, k) - 1] != 0
                 || exists j | k < j < n :: t[VisitedPhase(n, s, j) - 1] != 0
  {
  }

  lemma NeededEarlier(n: nat, cycles: nat, i: nat, s: nat, k: nat, later: nat, t: seq<int>)
    requires s < n <= PHASE_COUNT_MAX == |t| && k <= later
    ensures Needed(n, cycles, i, s, later, t) ==> Needed(n, cycles, i, s, k, t)
  {
  }

  /** The needed slots come first. */
  lemma NeededPrefix(n: nat, cycles: nat, i: nat, s: nat, count: nat, t: seq<int>)
    requires s < n <= PHASE_COUNT_MAX == |t| && count <= n
    requires count < n ==> !Needed(n, cycles, i, s, count, t)
    requires count > 0 ==> Needed(n, cycles, i, s, count - 1, t)
    ensures forall k | 0 <= k < n :: k < count <==> Needed(n, cycles, i, s, k, t)
  {
    forall k | 0 <= k < n ensures k < count <==> Needed(n, cycles, i, s, k, t) {
      if k < count {
        NeededEarlier(n, cycles, i, s, k, count - 1, t);
      } else {
        NeededEarlier(n, cycles, i, s, count, k, t);
      }
    }
  }

  method IsNeeded(n: nat, cycles: nat, i: nat, ghost s: nat, k: nat, ptr: nat, t: seq<int>) returns (needed: bool)
    requires s < n <= PHASE_COUNT_MAX == |t| && k < n && ptr == VisitedPhase(n, s, k) - 1
    ensures needed == Needed(n, cycles, i, s, k, t)
  {
    NeededHere(n, cycles, i, s, k, t);
    needed := true;
    if i + 1 >= cycles && t[ptr] == 0 {
      needed := LooksAhead(n, s, k, ptr, t);
    }
  }

  lemma WrapCycle(i: nat)
    ensures (i % CYCLE_NUM + 1) % CYCLE_NUM == (i + 1) % CYCLE_NUM
  {
  }

  method StartPointer(plan: Plan, n: nat, phase: nat, step: u8, sec: u16, t: seq<int>) returns (ptr: nat)
    requires 1 <= phase <= n <= PHASE_COUNT_MAX == |t|
    ensures ptr == StartIndex(plan, n, phase, step, sec, t)
  {
    ptr := phase - 1;
    if step != 1 || sec - t[ptr] < plan[ptr].minGreen || sec - t[ptr] > plan[ptr].maxGreen {
      ptr := if ptr + 1 == n then 0 else ptr + 1;
    }
  }

  /** The commands made so far, after the first k slots. */
  predicate SoFar(plan: Plan, n: nat, cycles: nat, i: nat, s: nat, k: nat, t: seq<int>, cmds: seq<Command>)
    requires s < n <= PHASE_COUNT_MAX == |t| && k <= n
  {
    && |cmds| <= k
    && (forall j | 0 <= j < |cmds| :: cmds[j] == CommandFor(plan, n, i, s, j, t))
    && (|cmds| < k ==> !Needed(n, cycles, i, s, |cmds|, t))
    && (|cmds| > 0 ==> Needed(n, cycles, i, s, |cmds| - 1, t))
  }

  method VisitSlot(plan: Plan, n: nat, cycles: nat, i: nat, ghost s: nat, k: nat, ptr: nat, cycle: nat, t: seq<int>,
                   made: seq<Command>)
    returns (cmds: seq<Command>)
    requires s < n <= PHASE_COUNT_MAX == |t| && k < n
    requires ptr == VisitedPhase(n, s, k) - 1 && cycle == VisitedCycle(n, i, s, k)
    requires SoFar(plan, n, cycles, i, s, k, t, made)
    ensures SoFar(plan, n, cycles, i, s, k + 1, t, cmds)
  {
    NeededEarlier(n, cycles, i, s, |made|, k, t);
    var needed := IsNeeded(n, cycles, i, s, k, ptr, t);
    cmds := made;
    if needed {
      cmds := made + [CompensationCommand(plan, cycle, ptr, t)];
    }
  }

  /** The commands of one cycle from its k-th slot on: up to the first slot that
      is not needed. */
  function CycleCommands(plan: Plan, n: nat, cycles: nat, i: nat, s: nat, k: nat, t: seq<int>): seq<Command>
    requires s < n <= PHASE_COUNT_MAX == |t| && k <= n
    decreases n - k
  {
    if k == n || !Needed(n, cycles, i, s, k, t) then []
    else [CommandFor(plan, n, i, s, k, t)] + CycleCommands(plan, n, cycles, i, s, k + 1, t)
  }

  lemma {:induction false} CommandsFrom(plan: Plan, n: nat, cycles: nat, i: nat, s: nat, k: nat,
            t: seq<int>, cmds: seq<Command>)
    requires s < n <= PHASE_COUNT_MAX == |t| && |cmds| <= n && k <= |cmds|
    requires forall j | 0 <= j < |cmds| :: cmds[j] == CommandFor(plan, n, i, s, j, t)
    requires forall j | 0 <= j < n :: j < |cmds| <==> Needed(n, cycles, i, s, j, t)
    ensures cmds[k..] == CycleCommands(plan, n, cycles, i, s, k, t)
    decreases n - k
  {
    if k < |cmds| {
      CommandsFrom(plan, n, cycles, i, s, k + 1, t, cmds);
      assert cmds[k..] == [cmds[k]] + cmds[k + 1..];
    }
  }

  /** The commands of the i-th of so many cycles. */
  function CommandsOfCycle(plan: Plan, n: nat, phase: nat, step: u8, sec: u16, ts: seq<seq<int>>, i: nat): seq<Command>
    requires 1 <= phase <= n <= PHASE_COUNT_MAX && i < |ts| && |ts[i]| == PHASE_COUNT_MAX
  {
    CycleCommands(plan, n, |ts|, i, StartIndex(plan, n, phase, step, sec, ts[i]), 0, ts[i])
  }

  /** The commands of the first so many cycles, oldest first. */
  function AllCommands(plan: Plan, n: nat, phase: nat, step: u8, sec: u16, ts: seq<seq<int>>, upTo: nat): seq<Command>
    requires 1 <= phase <= n <= PHASE_COUNT_MAX && upTo <= |ts|
    requires forall i | 0 <= i < |ts| :: |ts[i]| == PHASE_COUNT_MAX
  {
    if upTo == 0 then []
    else
      var i := upTo - 1;
      AllCommands(plan, n, phase, step, sec, ts, i) + CommandsOfCycle(plan, n, phase, step, sec, ts, i)
  }

  lemma {:induction false} CycleShape(plan: Plan, n: nat, cycles: nat, i: nat, s: nat, k: nat, t: seq<int>)
    requires s < n <= PHASE_COUNT_MAX == |t| && k <= n
    ensures var cmds := CycleCommands(plan, n, cycles, i, s, k, t);
      && |cmds| <= n - k
      && (forall j | 0 <= j < |cmds| :: cmds[j] == CommandFor(plan, n, i, s, k + j, t))
      && (i + 1 < cycles ==> |cmds| == n - k)
      && (cmds == [] <==> k == n || !Needed(n, cycles, i, s, k, t))
    decreases n - k
  {
    if k < n && Needed(n, cycles, i, s, k, t) {
      CycleShape(plan, n, cycles, i, s, k + 1, t);
      var rest := CycleCommands(plan, n, cycles, i, s, k + 1, t);
      forall j | 0 <= j < |rest| + 1
        ensures ([CommandFor(plan, n, i, s, k, t)] + rest)[j] == CommandFor(plan, n, i, s, k + j, t)
      {
        if j > 0 {
          assert rest[j - 1] == CommandFor(plan, n, i, s, k + 1 + (j - 1), t);
        }
      }
    }
  }

  /** The first command of a cycle asks for the planned green and the adjustment of the
      current phase, if that is in step 1 and what is left of it, less the adjustment,
      is a green within the limits; otherwise of the next phase. */
  lemma FirstCommandIs(plan: Plan, n: nat, phase: nat, step: u8, sec: u16, ts: seq<seq<int>>, i: nat)
    requires 1 <= phase <= n <= PHASE_COUNT_MAX && i < |ts| && |ts[i]| == PHASE_COUNT_MAX
    requires CommandsOfCycle(plan, n, phase, step, sec, ts, i) != []
    requires plan[phase - 1].preGreen < 0x8000
    ensures var (cmd, t) := (CommandsOfCycle(plan, n, phase, step, sec, ts, i)[0], ts[i]);
      && cmd.phase == cmd.targetPhase
      && cmd.phase == (if step == 1 && plan[phase - 1].minGreen <= sec - t[phase - 1] <= plan[phase - 1].maxGreen
                       then phase else if phase < n then phase + 1 else 1)
      && cmd.cycle == i % 3
      && (cmd.phase == phase ==> cmd.effectTime == I16(plan[phase - 1].preGreen + t[phase - 1]))
      && cmd.appId == 99 && cmd.priority == 99 && cmd.host == COMPENSATION
  {
    var s := StartIndex(plan, n, phase, step, sec, ts[i]);
    CycleShape(plan, n, |ts|, i, s, 0, ts[i]);
  }

  predicate SameSlot(a: Command, b: Command) {
    a.cycle == b.cycle && a.phase == b.phase
  }

  /** Some slot is addressed by two of the commands. */
  predicate SomeSlotTwice(cmds: seq<Command>) {
    exists a, b :: 0 <= a < b < |cmds| && SameSlot(cmds[a], cmds[b])
  }

  predicate GivesSomething(n: nat, t: seq<int>)
    requires n <= |t|
  {
    exists j :: 0 <= j < n && t[j] != 0
  }

  lemma FirstNeeded(n: nat, cycles: nat, i: nat, s: nat, t: seq<int>)
    requires s < n <= PHASE_COUNT_MAX == |t| && i + 1 == cycles
    ensures Needed(n, cycles, i, s, 0, t) <==> GivesSomething(n, t)
  {
    if GivesSomething(n, t) {
      var j :| 0 <= j < n && t[j] != 0;
      assert t[VisitedPhase(n, s, if j >= s then j - s else j + n - s) - 1] != 0;
    }
  }

  /** A command of the one and a command of the other address one slot. */
  predicate Meet(first: seq<Command>, second: seq<Command>) {
    exists a, b :: 0 <= a < |first| && 0 <= b < |second| && SameSlot(first[a], second[b])
  }

  lemma TwiceAppend(first: seq<Command>, second: seq<Command>)
    ensures SomeSlotTwice(first + second) <==> SomeSlotTwice(first) || SomeSlotTwice(second) || Meet(first, second)
  {
    var all, m := first + second, |first|;
    if SomeSlotTwice(first) {
      var a, b :| 0 <= a < b < m && SameSlot(first[a], first[b]);
      assert SameSlot(all[a], all[b]);
    }
    if SomeSlotTwice(second) {
      var a, b :| 0 <= a < b < |second| && SameSlot(second[a], second[b]);
      assert SameSlot(all[m + a], all[m + b]);
    }
    if Meet(first, second) {
      var a, b :| 0 <= a < m && 0 <= b < |second| && SameSlot(first[a], second[b]);
      assert SameSlot(all[a], all[m + b]);
    }
    if SomeSlotTwice(all) {
      var a, b :| 0 <= a < b < |all| && SameSlot(all[a], all[b]);
      assert if b < m then SameSlot(first[a], first[b])
             else if a < m then SameSlot(first[a], second[b - m]) else SameSlot(second[a - m], second[b - m]);
    }
  }

  lemma MeetAppend(first: seq<Command>, second: seq<Command>, third: seq<Command>)
    ensures Meet(first + second, third) <==> Meet(first, third) || Meet(second, third)
  {
    var all, m := first + second, |first|;
    if Meet(first, third) {
      var a, b :| 0 <= a < m && 0 <= b < |third| && SameSlot(first[a], third[b]);
      assert SameSlot(all[a], third[b]);
    }
    if Meet(second, third) {
      var a, b :| 0 <= a < |second| && 0 <= b < |third| && SameSlot(second[a], third[b]);
      assert SameSlot(all[m + a], third[b]);
    }
    if Meet(all, third) {
      var a, b :| 0 <= a < |all| && 0 <= b < |third| && SameSlot(all[a], third[b]);
      assert if a < m then SameSlot(first[a], third[b]) else SameSlot(second[a - m], third[b]);
    }
  }

  /** These are the commands of the first slots that cycle i visits. */
  predicate Visits(plan: Plan, n: nat, i: nat, s: nat, t: seq<int>, cmds: seq<Command>)
    requires s < n <= PHASE_COUNT_MAX == |t|
  {
    |cmds| <= n && forall j | 0 <= j < |cmds| :: cmds[j] == CommandFor(plan, n, i, s, j, t)
  }

  lemma VisitedOnce(plan: Plan, n: nat, i: nat, s: nat, t: seq<int>, cmds: seq<Command>)
    requires s < n <= PHASE_COUNT_MAX == |t| && i < CYCLE_NUM && Visits(plan, n, i, s, t, cmds)
    ensures !SomeSlotTwice(cmds)
  {
    forall a, b | 0 <= a < b < |cmds| ensures !SameSlot(cmds[a], cmds[b]) {
      VisitsTile(n, s, i, a, i, b);
    }
  }

  /** All slots of one cycle and the first slots of a later one. */
  lemma CyclesMeetIff(plan: Plan, n: nat, i: nat, s: nat, t: seq<int>, first: seq<Command>,
                      i': nat, s': nat, t': seq<int>, second: seq<Command>)
    requires s < n <= PHASE_COUNT_MAX == |t| && s' < n && |t'| == PHASE_COUNT_MAX && i < i' < CYCLE_NUM
    requires Visits(plan, n, i, s, t, first) && |first| == n && Visits(plan, n, i', s', t', second)
    ensures Meet(first, second)
            <==> if i' == i + 1 then s > s' && |second| > 0 else s' > s && |second| > n - s' + s
  {
    if i' == i + 1 && s > s' && |second| > 0 {
      assert SameSlot(first[n - s + s'], second[0]);
    }
    if i' != i + 1 && s' > s && |second| > n - s' + s {
      assert SameSlot(first[0], second[n - s' + s]);
    }
    if Meet(first, second) {
      var a, b :| 0 <= a < n && 0 <= b < |second| && SameSlot(first[a], second[b]);
      assert Share(n, i, s, i', s', a, b);
      CyclesShareIff(n, i, s, i', s');
    }
  }

  lemma CycleVisits(plan: Plan, n: nat, phase: nat, step: u8, sec: u16, ts: seq<seq<int>>, i: nat)
    requires 1 <= phase <= n <= PHASE_COUNT_MAX && i < |ts| && |ts[i]| == PHASE_COUNT_MAX
    ensures var s, cmds := StartIndex(plan, n, phase, step, sec, ts[i]), CommandsOfCycle(plan, n, phase, step, sec, ts, i);
      && Visits(plan, n, i, s, ts[i], cmds)
      && (i + 1 < |ts| ==> |cmds| == n)
      && (i + 1 == |ts| ==> (|cmds| > 0 <==> GivesSomething(n, ts[i])))
      && (forall k: nat | k < n :: k < |cmds| <==> Needed(n, |ts|, i, s, k, ts[i]))
  {
    var s, cmds := StartIndex(plan, n, phase, step, sec, ts[i]), CommandsOfCycle(plan, n, phase, step, sec, ts, i);
    CycleShape(plan, n, |ts|, i, s, 0, ts[i]);
    NeededCount(plan, n, |ts|, i, s, 0, ts[i]);
    if i + 1 == |ts| {
      FirstNeeded(n, |ts|, i, s, ts[i]);
    }
    NeededPrefix(n, |ts|, i, s, |cmds|, ts[i]);
  }

  lemma {:induction false} NeededCount(plan: Plan, n: nat, cycles: nat, i: nat, s: nat, k: nat, t: seq<int>)
    requires s < n <= PHASE_COUNT_MAX == |t| && k <= n
    ensures var end := k + |CycleCommands(plan, n, cycles, i, s, k, t)|;
      end <= n && (end < n ==> !Needed(n, cycles, i, s, end, t)) && (end > k ==> Needed(n, cycles, i, s, end - 1, t))
    decreases n - k
  {
    if k < n && Needed(n, cycles, i, s, k, t) {
      NeededCount(plan, n, cycles, i, s, k + 1, t);
    }
  }

  /** The commands of a compensation over two cycles address some slot twice if
      and only if the first cycle starts at a later phase than the second, and the
      second gives anything to any phase. */
  lemma SlotTwiceIff(plan: Plan, n: nat, phase: nat, step: u8, sec: u16, ts: seq<seq<int>>)
    requires 1 <= phase <= n <= PHASE_COUNT_MAX && |ts| == 2 && |ts[0]| == PHASE_COUNT_MAX == |ts[1]|
    ensures SomeSlotTwice(AllCommands(plan, n, phase, step, sec, ts, 2))
            <==> StartIndex(plan, n, phase, step, sec, ts[0]) > StartIndex(plan, n, phase, step, sec, ts[1])
                 && GivesSomething(n, ts[1])
  {
    var s := StartIndex(plan, n, phase, step, sec, ts[0]);
    var s' := StartIndex(plan, n, phase, step, sec, ts[1]);
    var x, y := CommandsOfCycle(plan, n, phase, step, sec, ts, 0), CommandsOfCycle(plan, n, phase, step, sec, ts, 1);
    CycleVisits(plan, n, phase, step, sec, ts, 0);
    CycleVisits(plan, n, phase, step, sec, ts, 1);
    VisitedOnce(plan, n, 0, s, ts[0], x);
    VisitedOnce(plan, n, 1, s', ts[1], y);
    CyclesMeetIff(plan, n, 0, s, ts[0], x, 1, s', ts[1], y);
    TwiceAppend(x, y);
    AllOfTwo(plan, n, phase, step, sec, ts);
  }

  lemma AllOfOne(plan: Plan, n: nat, phase: nat, step: u8, sec: u16, ts: seq<seq<int>>)
    requires 1 <= phase <= n <= PHASE_COUNT_MAX && |ts| >= 1 && forall i | 0 <= i < |ts| :: |ts[i]| == PHASE_COUNT_MAX
    ensures AllCommands(plan, n, phase, step, sec, ts, 1) == CommandsOfCycle(plan, n, phase, step, sec, ts, 0)
  {
    assert AllCommands(plan, n, phase, step, sec, ts, 0) == [];
  }

  lemma AllOfTwo(plan: Plan, n: nat, phase: nat, step: u8, sec: u16, ts: seq<seq<int>>)
    requires 1 <= phase <= n <= PHASE_COUNT_MAX && |ts| >= 2 && forall i | 0 <= i < |ts| :: |ts[i]| == PHASE_COUNT_MAX
    ensures AllCommands(plan, n, phase, step, sec, ts, 2)
            == CommandsOfCycle(plan, n, phase, step, sec, ts, 0) + CommandsOfCycle(plan, n, phase, step, sec, ts, 1)
  {
    AllOfOne(plan, n, phase, step, sec, ts);
  }

  /** Over three cycles: if and only if the first or the second starts at a later
      phase than the next (and the third gives something), or the third starts at a
      later phase than the first and its commands reach that phase. */
  lemma SlotTwiceOfThreeIff(plan: Plan, n: nat, phase: nat, step: u8, sec: u16, ts: seq<seq<int>>)
    requires 1 <= phase <= n <= PHASE_COUNT_MAX && |ts| == 3 && forall i | 0 <= i < 3 :: |ts[i]| == PHASE_COUNT_MAX
    ensures var s, s', s'' := StartIndex(plan, n, phase, step, sec, ts[0]), StartIndex(plan, n, phase, step, sec, ts[1]),
                              StartIndex(plan, n, phase, step, sec, ts[2]);
            SomeSlotTwice(AllCommands(plan, n, phase, step, sec, ts, 3))
            <==> || s > s'
                 || (s' > s'' && GivesSomething(n, ts[2]))
                 || (s'' > s && Needed(n, 3, 2, s'', n - s'' + s, ts[2]))
  {
    var s, s', s'' := StartIndex(plan, n, phase, step, sec, ts[0]), StartIndex(plan, n, phase, step, sec, ts[1]),
                      StartIndex(plan, n, phase, step, sec, ts[2]);
    var x, y, z := CommandsOfCycle(plan, n, phase, step, sec, ts, 0), CommandsOfCycle(plan, n, phase, step, sec, ts, 1),
                   CommandsOfCycle(plan, n, phase, step, sec, ts, 2);
    CycleVisits(plan, n, phase, step, sec, ts, 0);
    CycleVisits(plan, n, phase, step, sec, ts, 1);
    CycleVisits(plan, n, phase, step, sec, ts, 2);
    AllOfTwo(plan, n, phase, step, sec, ts);
    ThreeCyclesTwiceIff(plan, n, s, ts[0], x, s', ts[1], y, s'', ts[2], z);
  }

  lemma ThreeCyclesTwiceIff(plan: Plan, n: nat, s: nat, t: seq<int>, x: seq<Command>, s': nat, t': seq<int>, y: seq<Command>,
                            s'': nat, t'': seq<int>, z: seq<Command>)
    requires s < n <= PHASE_COUNT_MAX == |t| && s' < n && s'' < n && |t'| == PHASE_COUNT_MAX == |t''|
    requires Visits(plan, n, 0, s, t, x) && Visits(plan, n, 1, s', t', y) && Visits(plan, n, 2, s'', t'', z)
    requires |x| == n == |y|
    ensures SomeSlotTwice(x + y + z)
            <==> s > s' || (s' > s'' && |z| > 0) || (s'' > s && |z| > n - s'' + s)
  {
    VisitedOnce(plan, n, 0, s, t, x);
    VisitedOnce(plan, n, 1, s', t', y);
    VisitedOnce(plan, n, 2, s'', t'', z);
    CyclesMeetIff(plan, n, 0, s, t, x, 1, s', t', y);
    CyclesMeetIff(plan, n, 0, s, t, x, 2, s'', t'', z);
    CyclesMeetIff(plan, n, 1, s', t', y, 2, s'', t'', z);
    TwiceAppend(x, y);
    TwiceAppend(x + y, z);
    MeetAppend(x, y, z);
  }

  /** Those of one cycle never do. */
  lemma OneCycleNeverTwice(plan: Plan, n: nat, phase: nat, step: u8, sec: u16, ts: seq<seq<int>>)
    requires 1 <= phase <= n <= PHASE_COUNT_MAX && |ts| == 1 && |ts[0]| == PHASE_COUNT_MAX
    ensures !SomeSlotTwice(AllCommands(plan, n, phase, step, sec, ts, 1))
  {
    CycleVisits(plan, n, phase, step, sec, ts, 0);
    VisitedOnce(plan, n, 0, StartIndex(plan, n, phase, step, sec, ts[0]), ts[0],
                CommandsOfCycle(plan, n, phase, step, sec, ts, 0));
    AllOfOne(plan, n, phase, step, sec, ts);
  }

  /** Fifteen seconds on a plan of two phases of at least ten: with seventeen
      seconds left, phase 1 cannot take its eight of the first cycle and can take
      its seven of the second.  Three commands come out, and the last two address
      one slot. */
  lemma StartsApart(plan: Plan, ts: seq<seq<int>>)
    requires plan[0].minGreen == 10 && plan[0].maxGreen == 60 && plan[0].preGreen == 30 && plan[1].preGreen == 30
    requires ts == [[8, 0, 0, 0, 0, 0, 0, 0], [7, 0, 0, 0, 0, 0, 0, 0]]
    ensures StartIndex(plan, 2, 1, 1, 17, ts[0]) == 1 && StartIndex(plan, 2, 1, 1, 17, ts[1]) == 0
    ensures AllCommands(plan, 2, 1, 1, 17, ts, 2) == [
      Command(COMPENSATION_ID, 99, 2, 0, 2, 30, COMPENSATION),
      Command(COMPENSATION_ID, 99, 1, 1, 1, 38, COMPENSATION),
      Command(COMPENSATION_ID, 99, 1, 1, 1, 37, COMPENSATION)]
  {
    var t, t' := ts[0], ts[1];
    assert CycleCommands(plan, 2, 2, 0, 1, 2, t) == [] && CycleCommands(plan, 2, 2, 1, 0, 1, t') == [];
    assert CycleCommands(plan, 2, 2, 0, 1, 1, t) == [CommandFor(plan, 2, 0, 1, 1, t)];
    assert CycleCommands(plan, 2, 2, 0, 1, 0, t) == [CommandFor(plan, 2, 0, 1, 0, t), CommandFor(plan, 2, 0, 1, 1, t)];
    assert t'[VisitedPhase(2, 0, 0) - 1] != 0;
    assert CycleCommands(plan, 2, 2, 1, 0, 0, t') == [CommandFor(plan, 2, 1, 0, 0, t')];
    assert AllCommands(plan, 2, 1, 1, 17, ts, 1) == CycleCommands(plan, 2, 2, 0, 1, 0, t);
  }

  /** One cycle's commands: a prefix of the slots it visits, up to the last
      adjustment that the final cycle makes. */
  method InsertCycle(plan: Plan, n: nat, cycles: nat, i: nat, phase: nat, step: u8, sec: u16, t: seq<int>)
    returns (cmds: seq<Command>)
    requires 1 <= phase <= n <= PHASE_COUNT_MAX == |t|
    ensures |cmds| <= n
    ensures var s := StartIndex(plan, n, phase, step, sec, t);
            && (forall k | 0 <= k < |cmds| :: cmds[k] == CommandFor(plan, n, i, s, k, t))
            && (forall k | 0 <= k < n :: k < |cmds| <==> Needed(n, cycles, i, s, k, t))
            && cmds == CycleCommands(plan, n, cycles, i, s, 0, t)
  {
    var ptr := StartPointer(plan, n, phase, step, sec, t);
    ghost var s := ptr;
    var cycle := i % CYCLE_NUM;
    WrapCycle(i);
    cmds := [];
    for k := 0 to n
      invariant ptr == if k == n then s else VisitedPhase(n, s, k) - 1
      invariant k < n ==> cycle == VisitedCycle(n, i, s, k)
      invariant SoFar(plan, n, cycles, i, s, k, t, cmds)
    {
      cmds := VisitSlot(plan, n, cycles, i, s, k, ptr, cycle, t, cmds);
      ptr := ptr + 1;
      if ptr >= n {
        ptr := ptr - n;
        cycle := (cycle + 1) % CYCLE_NUM;
      }
    }
    NeededPrefix(n, cycles, i, s, |cmds|, t);
    CommandsFrom(plan, n, cycles, i, s, 0, t, cmds);
  }

  // -------------------------------------------------- the poll that compensates

  /** The state of a poll that has just seen the signal move to a new phase. */
  predicate JustMoved(n: nat, a: State) {
    OnTrack(n, a) && a.priorPhase > 0 && a.priorPhase != a.phase
  }

  /** The slot is in the window and is not the one that this poll clears. */
  predicate Survives(n: nat, a: State, ahead: nat, p: int) {
    && InWindow(n, a, a.cycle + ahead, p)
    && !(a.cycle + ahead == a.priorCycle && p == a.priorPhase)
  }

  /** A start index that did not wrap to the first phase. */
  predicate Onward(a: State, s: nat) {
    s + 1 >= a.phase
  }

  /** Compensation falls on slots that the schedule still has ahead of it exactly
      when it takes at most two cycles and its start did not wrap past the last
      phase. */
  lemma VisitsSurviveIff(n: nat, a: State, s: nat, cycles: nat)
    requires JustMoved(n, a) && 1 <= cycles <= CYCLE_NUM
    requires s == a.phase - 1 || s == if a.phase == n then 0 else a.phase as nat
    ensures cycles <= 2 && Onward(a, s) <==>
            forall i: nat, k: nat | i < cycles && k < n :: Survives(n, a, VisitedCycle(n, i, s, k), VisitedPhase(n, s, k))
  {
    if !Onward(a, s) {
      assert !Survives(n, a, VisitedCycle(n, 0, s, 0), VisitedPhase(n, s, 0));
    } else if cycles == CYCLE_NUM {
      // this slot of the third cycle is the one that the poll clears, or stands in its row
      var k: nat := if s == a.phase - 1 then n - 1 else n - 2;
      assert !Survives(n, a, VisitedCycle(n, 2, s, k), VisitedPhase(n, s, k));
    }
  }

  /** At the last phase, in any step but the first, the start wraps, and the first
      slot of the compensation is behind the signal. */
  lemma StartWraps(plan: Plan, n: nat, a: State, step: u8, sec: u16, t: seq<int>)
    requires JustMoved(n, a) && a.phase == n && |t| == PHASE_COUNT_MAX && step != 1
    ensures var s := StartIndex(plan, n, n, step, sec, t);
      s == 0 && !Onward(a, s) && !Survives(n, a, VisitedCycle(n, 0, s, 0), VisitedPhase(n, s, 0))
  {
  }

  /** The commands of some cycle of a compensation of at most two cycles. */
  predicate FromCycle(n: nat, a: State, cmd: Command) {
    exists i: nat, s: nat, k: nat ::
      && i < 2 && s < n && k < n && (s == a.phase - 1 || s == a.phase as nat)
      && cmd.cycle == VisitedCycle(n, i, s, k) && cmd.phase == VisitedPhase(n, s, k)
  }

  /** What start_compensation inserts in the middle of a poll keeps the ring a
      picture of the schedule. */
  lemma CompensationAllowed(n: nat, a: State, comp: seq<Command>, plan: Plan)
    requires JustMoved(n, a) && forall j | 0 <= j < |comp| :: FromCycle(n, a, comp[j])
    ensures Allowed(n, a, Poll(comp, plan))
  {
    forall cmd | cmd in comp ensures Fits(n, a, cmd) {
      var i: nat, s: nat, k: nat :|
        && i < 2 && s < n && k < n && (s == a.phase - 1 || s == a.phase as nat)
        && cmd.cycle == VisitedCycle(n, i, s, k) && cmd.phase == VisitedPhase(n, s, k);
      VisitsSurviveIff(n, a, s, 2);
      assert Survives(n, a, VisitedCycle(n, i, s, k), VisitedPhase(n, s, k));
    }
  }

  /** All cycles of a compensation, oldest first. */
  method InsertCycles(plan: Plan, n: nat, phase: nat, step: u8, sec: u16, ts: seq<seq<int>>)
    returns (comp: seq<Command>)
    requires 1 <= phase <= n <= PHASE_COUNT_MAX && forall i | 0 <= i < |ts| :: |ts[i]| == PHASE_COUNT_MAX
    ensures comp == AllCommands(plan, n, phase, step, sec, ts, |ts|)
    ensures |ts| <= 2 && (forall i | 0 <= i < |ts| :: StartIndex(plan, n, phase, step, sec, ts[i]) + 1 >= phase) ==>
              forall a, p | JustMoved(n, a) && a.phase == phase :: Allowed(n, a, Poll(comp, p))
  {
    comp := [];
    for i := 0 to |ts|
      invariant comp == AllCommands(plan, n, phase, step, sec, ts, i)
      invariant forall a, j | JustMoved(n, a) && a.phase == phase && 0 <= j < |comp| && |ts| <= 2
                  && (forall i | 0 <= i < |ts| :: StartIndex(plan, n, phase, step, sec, ts[i]) + 1 >= phase)
                  :: FromCycle(n, a, comp[j])
    {
      var cmds := InsertCycle(plan, n, |ts|, i, phase, step, sec, ts[i]);
      comp := comp + cmds;
    }
    forall a, p | JustMoved(n, a) && a.phase == phase && |ts| <= 2
      && (forall i | 0 <= i < |ts| :: StartIndex(plan, n, phase, step, sec, ts[i]) + 1 >= phase)
      ensures Allowed(n, a, Poll(comp, p))
    {
      CompensationAllowed(n, a, comp, p);
    }
  }
}
