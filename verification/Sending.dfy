/** The EXTEND packets that one waiting command turns into. */
module Sending {
  import opened FixedWidth
  import opened SignalPlan
  import opened CommandBuffer
  import opened CommandRuns
  import opened RingRefinement

  const TIME_DEFENSE := 5

  datatype Manufacturer = ChengLong | ShanZhu | ShanZhuM | Other

  /** The controller drops the escape character, so 170 is never sent. */
  function Wire(time: u8): u8 {
    if time == 170 then 171 else time
  }

  /** The slot that a poll sends is the one that waits at the current phase. */
  lemma SentSlot(rows: nat, s: State, ev: Event)
    requires WellFormed(ev)
    ensures var out := Step(rows, s, ev).1;
      out.Polled? && out.send ==> out.slot == At(s.slots, s.cycle, s.phase) && out.slot.appId != 0
  {
    if ev.Poll? && s.priorPhase != s.phase {
      InsertAllOwes(rows, s, ev.comp, ev.plan, 0, 0);
    }
  }

  /** What goes out of a state whose slots keep the limits. */
  predicate InRangeOnWire(s: State, slot: Slot, plan: Plan) {
    && 1 <= s.phase <= PHASE_COUNT_MAX
    && var (e, p) := (slot.effectTime, plan[s.phase - 1]);
       InRange(e, p) && (InRange(Wire(e), p) <==> !(e == 170 && 170 + p.Ped() == p.maxGreen))
  }

  lemma SlotOnWire(s: State, plan: Plan)
    requires SlotsInRange(s.slots, plan) && At(s.slots, s.cycle, s.phase).appId != 0
    ensures InRangeOnWire(s, At(s.slots, s.cycle, s.phase), plan)
  {
    assert (s.cycle as int, s.phase as int) in s.slots;
  }

  /** In every run with one sound plan, a value that goes out as it is keeps the
      phase within its green limits; on the wire it still does, unless it is 170
      and the longest green allows no more. */
  lemma SentOnWire(rows: nat, evs: seq<Event>, ev: Event, plan: Plan)
    requires WellFormedRun(evs) && WellFormed(ev) && Sound(plan)
    requires RunUsesPlan(evs, plan)
    ensures var s := Run(rows, Start(rows), evs).0; var out := Step(rows, s, ev).1;
      out.Polled? && out.send ==> InRangeOnWire(s, out.slot, plan)
  {
    RunInRange(rows, Start(rows), evs, plan);
    var s := Run(rows, Start(rows), evs).0;
    SentSlot(rows, s, ev);
    var out := Step(rows, s, ev).1;
    if out.Polled? && out.send {
      SlotOnWire(s, plan);
    }
  }

  /** The limit of no phase is exactly the value that the line cannot carry. */
  predicate NoLimitAt170(plan: Plan) {
    forall i | 0 <= i < |plan| :: plan[i].maxGreen != 170 + plan[i].Ped()
  }

  /** What the event sends after the run, if it sends, leaves the phase within its
      green limits. */
  predicate KeepsLimits(rows: nat, evs: seq<Event>, ev: Event, plan: Plan)
    requires WellFormedRun(evs) && WellFormed(ev)
  {
    var s := Run(rows, Start(rows), evs).0;
    var out := Step(rows, s, ev).1;
    out.Polled? && out.send ==>
      1 <= s.phase <= PHASE_COUNT_MAX && InRange(Wire(out.slot.effectTime), plan[s.phase - 1])
  }

  /** With a sound plan, every value sent to a Shan-Zhu controller in every run keeps
      the limits if and only if no phase is limited to 170 seconds and its
      pedestrian steps. */
  lemma ShanZhuInRangeIff(rows: nat, plan: Plan)
    requires Sound(plan)
    ensures NoLimitAt170(plan) <==>
      forall evs, ev | WellFormedRun(evs) && RunUsesPlan(evs, plan) && WellFormed(ev) :: KeepsLimits(rows, evs, ev, plan)
  {
    if NoLimitAt170(plan) {
      forall evs, ev | WellFormedRun(evs) && RunUsesPlan(evs, plan) && WellFormed(ev)
        ensures KeepsLimits(rows, evs, ev, plan)
      {
        SentOnWire(rows, evs, ev, plan);
      }
    } else {
      var i :| 0 <= i < |plan| && plan[i].maxGreen == 170 + plan[i].Ped();
      var evs := RunTo170(plan, i + 1);
      LimitAt170Fails(rows, plan, i + 1);
    }
  }

  function RunTo170(plan: Plan, phase: u8): seq<Event> {
    [Status(phase, 1, 10), Poll([], plan), Insert(Command(1, 1, phase, 0, phase, 170, "A"), plan)]
  }

  lemma {:induction false} RunOfThree(rows: nat, s: State, e: Event, f: Event, g: Event)
    requires WellFormed(e) && WellFormed(f) && WellFormed(g)
    ensures WellFormedRun([e, f, g])
    ensures Run(rows, s, [e, f, g]).0 == Step(rows, Step(rows, Step(rows, s, e).0, f).0, g).0
  {
    assert [e, f, g][1..] == [f, g] && [f, g][1..] == [g] && [g][1..] == [];
    var s1 := Step(rows, s, e).0;
    var s2 := Step(rows, s1, f).0;
    assert Run(rows, s2, [g]).0 == Run(rows, Step(rows, s2, g).0, []).0;
    assert Run(rows, s1, [f, g]).0 == Run(rows, s2, [g]).0;
  }

  /** On such a phase: the phase is seen, 170 seconds are asked for, and the next
      poll sends 171. */
  lemma LimitAt170Fails(rows: nat, plan: Plan, phase: u8)
    requires 1 <= phase <= PHASE_COUNT_MAX && SoundPhase(plan[phase - 1])
    requires plan[phase - 1].maxGreen == 170 + plan[phase - 1].Ped()
    ensures var evs := RunTo170(plan, phase);
      WellFormedRun(evs) && RunUsesPlan(evs, plan) && !KeepsLimits(rows, evs, Poll([], plan), plan)
  {
    var cmd := Command(1, 1, phase, 0, phase, 170, "A");
    RunOfThree(rows, Start(rows), Status(phase, 1, 10), Poll([], plan), Insert(cmd, plan));
    var s1 := Step(rows, Start(rows), Status(phase, 1, 10)).0;
    var s2 := Step(rows, s1, Poll([], plan)).0;
    InsertWrites(rows, s2, cmd, plan, Row(rows, 0));
    var s3 := Step(rows, s2, Insert(cmd, plan)).0;
    assert At(s3.slots, s3.cycle, phase) == Contest(EMPTY, cmd, plan[phase - 1]).0;
    SentSlot(rows, s3, Poll([], plan));
  }

  /** The change of the running step: what is asked for, if that leaves five seconds
      or if fewer than five are left anyway; otherwise what leaves exactly five. */
  predicate IsChange(effect: u8, adjusted: u8, left: u16, change: int) {
    if left < TIME_DEFENSE || left + effect - adjusted >= TIME_DEFENSE then change == effect - adjusted
    else left + change == TIME_DEFENSE
  }

  /** The loop variable after k rounds. */
  function Climbed(start: int, preGreen: u16, k: nat): int {
    start + k * (preGreen - 4)
  }

  /** With a planned green of four seconds or less, a negative start never
      climbs: the loop below would not end.  With five or more it always ends. */
  lemma LoopEndsIff(start: int, preGreen: u16)
    ensures (exists k: nat :: Climbed(start, preGreen, k) >= 0) <==> start >= 0 || preGreen >= TIME_DEFENSE
  {
    if start >= 0 {
      assert Climbed(start, preGreen, 0) >= 0;
    } else if preGreen >= TIME_DEFENSE {
      var k: nat := -start;
      assert k * (preGreen - 4) >= k * 1 by {
        var d := preGreen - 5;
        assert k * d >= 0;
        assert k * (d + 1) == k * d + k;
      }
      assert Climbed(start, preGreen, k) >= 0;
    } else {
      forall k: nat ensures Climbed(start, preGreen, k) < 0 {
        assert k * (preGreen - 4) <= 0;
      }
    }
  }

  /** A full slot asked down to nothing, on a phase planned for four seconds: the
      loop would not end. */
  lemma ShortPlanRunsOn(change: int, k: nat)
    requires IsChange(0, 255, 4, change)
    ensures Climbed(4 + change, 4, k) < 0
  {
  }

  /** The extensions bring about the change: one-second extensions, each of which
      makes the controller take the planned green less four seconds off, and a last
      one that sets what remains.  The last cannot exceed 255, zero is sent as one,
      and 170 as 171. */
  predicate BringAbout(times: seq<u8>, preGreen: u16, change: int) {
    && times != [] && (forall i | 0 <= i < |times| - 1 :: times[i] == 1)
    && (preGreen + change > 255 ==> times == [255])
    && (preGreen + change <= 255 ==>
          var end := Climbed(preGreen + change, preGreen, |times| - 1);
          && 0 <= end <= 255 && (|times| > 1 ==> end < preGreen - 4)
          && times[|times| - 1] == if end == 0 then 1 else if end == 170 then 171 else end)
  }

  /** By how much the extensions change the planned green altogether. */
  function NetChange(times: seq<u8>, preGreen: u16): int
    requires times != []
  {
    times[|times| - 1] - (|times| - 1) * (preGreen - 4) - preGreen
  }

  /** Where the loop ends: a negative start ends at its remainder. */
  function Remainder(start: int, preGreen: u16): int
    requires start >= 0 || preGreen >= TIME_DEFENSE
  {
    if start >= 0 then start else start % (preGreen - 4)
  }

  lemma EndIsRemainder(times: seq<u8>, preGreen: u16, change: int)
    requires BringAbout(times, preGreen, change) && preGreen + change <= 255
    requires preGreen + change >= 0 || preGreen >= TIME_DEFENSE
    ensures Climbed(preGreen + change, preGreen, |times| - 1) == Remainder(preGreen + change, preGreen)
  {
    var start, k, unit := preGreen + change, |times| - 1, preGreen - 4;
    if start >= 0 {
      if k > 0 {
        if unit >= 1 {
          ProductGrows(1, k, unit);
        }
        assert false;
      }
    } else {
      assert k > 0;
      assert (-k) * unit == -(k * unit);
      DivModUnique(start, unit, -k, Climbed(start, preGreen, k));
    }
  }

  /** Exactly when the extensions change the running step by what was to be applied;
      by how much they miss it otherwise. */
  lemma NetChangeIff(times: seq<u8>, preGreen: u16, change: int)
    requires BringAbout(times, preGreen, change)
    requires preGreen + change >= 0 || preGreen >= TIME_DEFENSE
    ensures NetChange(times, preGreen) == change
            <==> preGreen + change <= 255 && Remainder(preGreen + change, preGreen) !in {0, 170}
    ensures preGreen + change > 255 ==> preGreen + NetChange(times, preGreen) == 255
    ensures preGreen + change <= 255 && Remainder(preGreen + change, preGreen) in {0, 170} ==>
              NetChange(times, preGreen) == change + 1
  {
    if preGreen + change <= 255 {
      EndIsRemainder(times, preGreen, change);
    }
  }

  /** The number of one-second extensions is the lack divided by what each takes off,
      rounded up; the last value is in range. */
  lemma ExtensionsShape(times: seq<u8>, preGreen: u16, change: int)
    requires BringAbout(times, preGreen, change)
    ensures var start, k, unit := preGreen + change, |times| - 1, preGreen - 4;
      && 1 <= times[k] <= 255
      && (start >= 0 && preGreen >= 4 ==> k == 0)
      && (start < 0 ==> (k - 1) * unit < -start <= k * unit)
  {
    FewestRounds(preGreen + change, |times| - 1, preGreen - 4);
  }

  lemma FewestRounds(start: int, k: nat, unit: int)
    ensures (k - 1) * unit == k * unit - unit
    ensures start >= 0 && unit >= 0 && k > 0 ==> start + k * unit >= unit
  {
    if unit > 0 && k > 0 {
      ProductGrows(1, k, unit);
    }
  }

  predicate Muted(slot: Slot, tspId: u8, evspId: u8, tspMuted: bool, evspMuted: bool, compensating: bool) {
    if slot.appId == tspId then tspMuted || compensating else slot.appId == evspId && evspMuted
  }

  /** The loop of extensions ends. */
  ghost predicate Ends(slot: Slot, left: u16, preGreen: u16) {
    preGreen >= TIME_DEFENSE
    || forall change | IsChange(slot.effectTime, slot.adjustedTime, left, change) :: preGreen + change >= 0
  }

  /** The Cheng-Long controller takes no negative value: one-second extensions make
      it count the planned green down first. */
  method ChengLongTimes(slot: Slot, left: u16, preGreen: u16) returns (times: seq<u8>, ghost change: int)
    requires Ends(slot, left, preGreen)
    ensures IsChange(slot.effectTime, slot.adjustedTime, left, change) && BringAbout(times, preGreen, change)
  {
    times := [];
    var difference := slot.effectTime - slot.adjustedTime;
    if left + difference < TIME_DEFENSE && left >= TIME_DEFENSE {
      difference := TIME_DEFENSE - left;
    }
    change := difference;
    assert IsChange(slot.effectTime, slot.adjustedTime, left, change);
    var time := preGreen + difference;
    if time > 255 {
      time := 255;
    }
    ghost var start := time;
    while time < 0
      invariant time == Climbed(start, preGreen, |times|) && forall i | 0 <= i < |times| :: times[i] == 1
      invariant time <= 255 && (|times| > 0 ==> time < preGreen - 4)
      invariant start < 0 ==> preGreen >= TIME_DEFENSE
      invariant |times| > 0 ==> start < 0
      decreases -time
    {
      assert (|times| + 1) * (preGreen - 4) == |times| * (preGreen - 4) + (preGreen - 4);
      times := times + [1];
      time := time + (preGreen - 4);
    }
    time := if time == 0 then 1 else time;
    times := times + [Wire(time)];
  }

  /** What goes over the line for one command. */
  datatype Packet = Dynamic | CountdownOff | Extend(time: u8) | QueryStep | CountdownOn

  function Extends(times: seq<u8>): seq<Packet> {
    seq(|times|, i requires 0 <= i < |times| => Extend(times[i]))
  }

  /** How one command goes out.  `tspId` and `evspId` are the ids of the two
      built-in applications, which can be muted; a compensation mutes the first.
      `countdown` says whether the pedestrian countdown is on: it is turned off while
      vehicles with priority are about, but only a Cheng-Long controller remembers
      when that is not to be sent.  The extensions of a Cheng-Long controller bring
      about the change, the other makers are sent the effect time. */
  method CommandBufSend(m: Manufacturer, slot: Slot, left: u16, preGreen: u16,
                        tspId: u8, evspId: u8, tspMuted: bool, evspMuted: bool, compensating: bool,
                        countdown: bool, active: nat, mayTurnOff: bool)
    returns (packets: seq<Packet>, countdown': bool, ghost times: seq<u8>, ghost change: int)
    requires m == ChengLong ==>
      Muted(slot, tspId, evspId, tspMuted, evspMuted, compensating) || Ends(slot, left, preGreen)
    ensures packets == [] <==>
      m == Other || (slot.appId == tspId && (tspMuted || compensating)) || (slot.appId == evspId != tspId && evspMuted)
    ensures packets == [] ==> countdown' == countdown
    ensures packets != [] ==>
      && packets == [Dynamic] + (if countdown && active > 0 && mayTurnOff then [CountdownOff] else [])
                    + Extends(times) + [QueryStep] + (if !countdown && active == 0 then [CountdownOn] else [])
      && countdown' == (active == 0 || (countdown && m == ChengLong && !mayTurnOff))
    ensures packets != [] && m == ChengLong ==>
      IsChange(slot.effectTime, slot.adjustedTime, left, change) && BringAbout(times, preGreen, change)
    ensures packets != [] && m != ChengLong ==> times == [if slot.effectTime == 170 then 171 else slot.effectTime]
  {
    packets, countdown', times, change := [], countdown, [], 0;
    if slot.appId == tspId {
      if tspMuted || compensating {
        return;
      }
    } else if slot.appId == evspId {
      if evspMuted {
        return;
      }
    }
    var extensions: seq<u8>;
    match m {
      case ChengLong =>
        packets := [Dynamic];
        if countdown && active > 0 && mayTurnOff {
          packets, countdown' := packets + [CountdownOff], false;
        }
        extensions, change := ChengLongTimes(slot, left, preGreen);
      case Other =>
        return;
      case _ =>
        packets := [Dynamic];
        if countdown && active > 0 {
          if mayTurnOff {
            packets := packets + [CountdownOff];
          }
          countdown' := false;
        }
        extensions := [Wire(slot.effectTime)];
    }
    times := extensions;
    packets := packets + Extends(extensions) + [QueryStep];
    if !countdown' && active == 0 {
      packets, countdown' := packets + [CountdownOn], true;
    }
  }
}
