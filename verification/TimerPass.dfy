/** One pass over the timer list of the event loop, on values: what a pass does
    when callbacks and destructors change the list under it. */
module TimerPass {
  import opened FixedWidth

  const DELETED := -1
  const ONESHOT := -1

  datatype Time = Time(sec: int, ms: int)
  {
    /** At or after another time. */
    predicate Reaches(other: Time) {
      sec > other.sec || (sec == other.sec && ms >= other.ms)
    }

    function Total(): int {
      sec * 1000 + ms
    }
  }

  /** A time some milliseconds after another. */
  function AddMilliseconds(now: Time, milliseconds: int): Time {
    var sec, ms := now.sec + Quot(milliseconds, 1000), now.ms + Rem(milliseconds, 1000);
    if ms >= 1000 then Time(sec + 1, ms - 1000) else Time(sec, ms)
  }

  /** The total is exact for every argument; the milliseconds are in range exactly
      when the remainder does not pull them below zero. */
  lemma AddMillisecondsExact(now: Time, milliseconds: int)
    ensures AddMilliseconds(now, milliseconds).Total() == now.Total() + milliseconds
    ensures 0 <= now.ms < 1000 ==>
              (0 <= AddMilliseconds(now, milliseconds).ms < 1000 <==> now.ms + Rem(milliseconds, 1000) >= 0)
    ensures 0 <= now.ms < 1000 && milliseconds >= 0 ==> 0 <= AddMilliseconds(now, milliseconds).ms < 1000
  {
    assert milliseconds == 1000 * Quot(milliseconds, 1000) + Rem(milliseconds, 1000);
  }

  /** Seconds and microseconds to sleep before the deadline. */
  function Timeout(now: Time, when: Time): (int, int) {
    var ms := when.Total() - now.Total();
    if ms > 0 then (ms / 1000, (ms % 1000) * 1000) else (0, 0)
  }

  /** The sleep ends exactly at the deadline, or at once if that is past; a clock
      that has moved on by the sleep finds the event due. */
  lemma TimeoutExact(now: Time, when: Time, later: Time)
    requires 0 <= when.ms < 1000 && 0 <= later.ms < 1000
    ensures var (sec, usec) := Timeout(now, when);
            && sec >= 0 && 0 <= usec < 1_000_000
            && sec * 1_000_000 + usec == 1000 * (if when.Total() > now.Total() then when.Total() - now.Total() else 0)
            && (later.Reaches(when) <==> 1000 * (later.Total() - now.Total()) >= 1000 * (when.Total() - now.Total()))
            && (1000 * (later.Total() - now.Total()) >= sec * 1_000_000 + usec ==> later.Reaches(when))
  {
    var ms := when.Total() - now.Total();
    if ms > 0 {
      assert ms == 1000 * (ms / 1000) + ms % 1000;
    }
    assert later.Reaches(when) <==> later.Total() >= when.Total();
  }

  /** `serial` is the id that the event was created with; `id` is overwritten to
      mark the event for deletion. */
  datatype Timer = Timer(serial: int, id: int, when: Time)

  /** What a callback or a destructor may do to the list. */
  datatype Action =
    | Create(now: Time, milliseconds: int)
    | Mark(id: int)

  /** Everything from outside that one step of a pass depends on: the clock, the
      callback's actions, what it returns and the clock then, and the actions of
      the destructor. */
  datatype Turn = Turn(now: Time, actions: seq<Action>, retval: int, after: Time, destroy: seq<Action>)

  type Script = nat -> Turn

  /** The list in two parts: before the event that the pass is at, and from it on. */
  datatype State = State(front: seq<Timer>, rest: seq<Timer>, nextId: int)

  /** Marks the first event that has the id. */
  function MarkFirst(ts: seq<Timer>, id: int): (r: seq<Timer>)
    ensures |r| == |ts|
  {
    if ts == [] then []
    else if ts[0].id == id then [ts[0].(id := DELETED)] + ts[1..]
    else [ts[0]] + MarkFirst(ts[1..], id)
  }

  predicate HasId(ts: seq<Timer>, id: int)
    decreases |ts|
  {
    ts != [] && (ts[0].id == id || HasId(ts[1..], id))
  }

  function Act(s: State, a: Action): State {
    match a
    case Create(now, milliseconds) =>
      s.(front := [Timer(s.nextId, s.nextId, AddMilliseconds(now, milliseconds))] + s.front, nextId := s.nextId + 1)
    case Mark(id) =>
      if HasId(s.front, id) then s.(front := MarkFirst(s.front, id)) else s.(rest := MarkFirst(s.rest, id))
  }

  function ActAll(s: State, actions: seq<Action>): (r: State)
    ensures |r.rest| == |s.rest|
    decreases |actions|
  {
    if actions == [] then s else ActAll(Act(s, actions[0]), actions[1..])
  }

  datatype Verdict = Unlinked | Ran | NotDue

  /** What the pass does with the event it has reached. */
  function Judge(t: Timer, now: Time): Verdict {
    if t.id == DELETED then Unlinked else if now.Reaches(t.when) then Ran else NotDue
  }

  datatype Visit = Visit(timer: Timer, now: Time, verdict: Verdict)

  datatype Outcome = Outcome(final: seq<Timer>, nextId: int, visits: seq<Visit>)

  /** A periodic event gets its next time, a one-shot event is marked. */
  function Rearmed(t: Timer, turn: Turn): Timer {
    if turn.retval != ONESHOT then t.(when := AddMilliseconds(turn.after, turn.retval)) else t.(id := DELETED)
  }

  /** The list after the event that was reached is dealt with.  `hasPrev` says
      whether some event was kept already: unlinking before that resets the head
      of the list to the next event, whatever stands before it. */
  function Advance(s: State, hasPrev: bool, turn: Turn): (r: State)
    requires s.rest != []
    ensures |r.rest| == |s.rest| - 1
  {
    var t := s.rest[0];
    match Judge(t, turn.now)
    case Unlinked =>
      ActAll(State(if hasPrev then s.front else [], s.rest[1..], s.nextId), turn.destroy)
    case Ran =>
      var s1 := ActAll(s, turn.actions);
      State(s1.front + [Rearmed(s1.rest[0], turn)], s1.rest[1..], s1.nextId)
    case NotDue => State(s.front + [t], s.rest[1..], s.nextId)
  }

  /** The pass from the k-th step on. */
  function Pass(s: State, hasPrev: bool, script: Script, k: nat): Outcome
    decreases |s.rest|
  {
    if s.rest == [] then Outcome(s.front, s.nextId, [])
    else
      var v := Visit(s.rest[0], script(k).now, Judge(s.rest[0], script(k).now));
      var out := Pass(Advance(s, hasPrev, script(k)), hasPrev || v.verdict != Unlinked, script, k + 1);
      out.(visits := [v] + out.visits)
  }

  // --------------------------------------------------------- what a pass is like

  function Serials(ts: seq<Timer>): (r: seq<int>)
    ensures |r| == |ts|
  {
    if ts == [] then [] else [ts[0].serial] + Serials(ts[1..])
  }

  /** The serials of the events created in between, newest first. */
  function Down(until: int, from: int): (r: seq<int>)
    requires from <= until
    ensures |r| == until - from
    decreases until - from
  {
    if until == from then [] else [until - 1] + Down(until - 1, from)
  }

  predicate Creates(actions: seq<Action>) {
    exists i | 0 <= i < |actions| :: actions[i].Create?
  }

  lemma {:induction false} SerialAt(ts: seq<Timer>, i: nat)
    requires i < |ts|
    ensures Serials(ts)[i] == ts[i].serial
    decreases i
  {
    if i > 0 {
      SerialAt(ts[1..], i - 1);
    }
  }

  lemma {:induction false} MarkFirstSerials(ts: seq<Timer>, id: int)
    ensures Serials(MarkFirst(ts, id)) == Serials(ts)
    decreases |ts|
  {
    if ts != [] {
      MarkFirstSerials(ts[1..], id);
      assert MarkFirst(ts, id)[1..] == if ts[0].id == id then ts[1..] else MarkFirst(ts[1..], id);
    }
  }

  lemma {:induction false} DownSplit(c: int, b: int, a: int)
    requires a <= b <= c
    ensures Down(c, b) + Down(b, a) == Down(c, a)
    decreases c - b
  {
    if c > b {
      DownSplit(c - 1, b, a);
      assert [c - 1] + Down(c - 1, b) + Down(b, a) == [c - 1] + (Down(c - 1, b) + Down(b, a));
    }
  }

  lemma DownJoin(c: int, b: int, a: int, middle: seq<int>, tail: seq<int>)
    requires a <= b <= c
    ensures Down(c, b) + (Down(b, a) + middle) + tail == Down(c, a) + middle + tail
  {
    DownSplit(c, b, a);
    assert Down(c, b) + (Down(b, a) + middle) == Down(c, b) + Down(b, a) + middle;
  }

  lemma ActSerials(s: State, a: Action)
    ensures var r := Act(s, a);
            && r.nextId == s.nextId + (if a.Create? then 1 else 0)
            && Serials(r.front) == Down(r.nextId, s.nextId) + Serials(s.front)
            && Serials(r.rest) == Serials(s.rest)
  {
    if a.Mark? {
      MarkFirstSerials(s.front, a.id);
      MarkFirstSerials(s.rest, a.id);
    } else {
      var r := Act(s, a);
      assert r.front[1..] == s.front;
      assert Down(r.nextId, s.nextId) == [s.nextId];
    }
  }

  /** Actions never touch the serials that are there: they only add new ones at the
      very front. */
  lemma {:induction false} ActAllSerials(s: State, actions: seq<Action>)
    ensures var r := ActAll(s, actions);
            && r.nextId >= s.nextId
            && Serials(r.front) == Down(r.nextId, s.nextId) + Serials(s.front)
            && Serials(r.rest) == Serials(s.rest)
            && (!Creates(actions) ==> r.nextId == s.nextId)
    decreases |actions|
  {
    if actions != [] {
      var s1 := Act(s, actions[0]);
      ActSerials(s, actions[0]);
      ActAllSerials(s1, actions[1..]);
      var r := ActAll(s1, actions[1..]);
      DownJoin(r.nextId, s1.nextId, s.nextId, Serials(s.front), []);
      assert Serials(r.front) + [] == Serials(r.front);
      assert Down(r.nextId, s.nextId) + Serials(s.front) + [] == Down(r.nextId, s.nextId) + Serials(s.front);
      if !Creates(actions) {
        assert !actions[0].Create?;
        assert forall i | 0 <= i < |actions| - 1 :: actions[1..][i] == actions[i + 1];
      }
    }
  }

  lemma {:induction false} SerialsAppend(a: seq<Timer>, t: Timer)
    ensures Serials(a + [t]) == Serials(a) + [t.serial]
    decreases |a|
  {
    if a != [] {
      SerialsAppend(a[1..], t);
      assert (a + [t])[1..] == a[1..] + [t];
    }
  }

  /** What one step does to the serials: the event reached moves from the rest to
      the front, unless it is unlinked; new events stand before everything else. */
  predicate Stepped(front: seq<int>, rest: seq<int>, nextId: int, hasPrev: bool, unlinked: bool,
                    front': seq<int>, rest': seq<int>, nextId': int)
  {
    && rest != [] && nextId' >= nextId && rest' == rest[1..]
    && front' == Down(nextId', nextId)
                 + (if unlinked then if hasPrev then front else [] else front + [rest[0]])
  }

  lemma AdvanceSerials(s: State, hasPrev: bool, turn: Turn)
    requires s.rest != []
    ensures var r, unlinked := Advance(s, hasPrev, turn), Judge(s.rest[0], turn.now) == Unlinked;
            && Stepped(Serials(s.front), Serials(s.rest), s.nextId, hasPrev, unlinked,
                       Serials(r.front), Serials(r.rest), r.nextId)
            && (unlinked && !Creates(turn.destroy) ==> r.nextId == s.nextId && |r.front| == if hasPrev then |s.front| else 0)
  {
    var t := s.rest[0];
    match Judge(t, turn.now) {
      case Unlinked =>
        ActAllSerials(State(if hasPrev then s.front else [], s.rest[1..], s.nextId), turn.destroy);
      case Ran =>
        ActAllSerials(s, turn.actions);
        var r := Advance(s, hasPrev, turn);
        var s1 := ActAll(s, turn.actions);
        SerialsAppend(s1.front, r.front[|s1.front|]);
        assert r.front[|s1.front|].serial == s1.rest[0].serial == t.serial;
        assert Down(r.nextId, s.nextId) + Serials(s.front) + [t.serial]
            == Down(r.nextId, s.nextId) + (Serials(s.front) + [t.serial]);
      case NotDue =>
        SerialsAppend(s.front, t);
        assert Down(s.nextId, s.nextId) + Serials(s.front + [t]) == Serials(s.front + [t]);
    }
  }

  /** Visit i is the visit of the event with the given serial at its own clock
      reading, judged by what the event is then. */
  predicate Visits(v: Visit, serial: int, now: Time) {
    v.timer.serial == serial && v.now == now && v.verdict == Judge(v.timer, now)
  }

  /** Every event that is there when the pass starts is reached exactly once, in
      list order, and judged by what it is then; what was created since is not. */
  lemma {:induction false} PassVisits(s: State, hasPrev: bool, script: Script, k: nat)
    ensures var visits := Pass(s, hasPrev, script, k).visits;
            |visits| == |s.rest|
            && forall i | 0 <= i < |s.rest| :: Visits(visits[i], s.rest[i].serial, script(k + i).now)
    decreases |s.rest|
  {
    if s.rest != [] {
      var r := Advance(s, hasPrev, script(k));
      AdvanceSerials(s, hasPrev, script(k));
      var hasPrev' := hasPrev || Judge(s.rest[0], script(k).now) != Unlinked;
      PassVisits(r, hasPrev', script, k + 1);
      var visits, later := Pass(s, hasPrev, script, k).visits, Pass(r, hasPrev', script, k + 1).visits;
      forall i | 0 <= i < |s.rest| ensures Visits(visits[i], s.rest[i].serial, script(k + i).now) {
        if i > 0 {
          assert visits[i] == later[i - 1];
          SerialAt(r.rest, i - 1);
          SerialAt(s.rest, i);
          assert r.rest[i - 1].serial == Serials(r.rest)[i - 1] == Serials(s.rest)[i];
          assert k + 1 + (i - 1) == k + i;
        }
      }
    }
  }

  /** The serials of the visited events that were kept. */
  function Kept(visits: seq<Visit>): seq<int>
    decreases |visits|
  {
    if visits == [] then []
    else (if visits[0].verdict == Unlinked then [] else [visits[0].timer.serial]) + Kept(visits[1..])
  }

  /** No destructor that the pass may call creates an event. */
  predicate CleanDestructors(script: Script, k: nat, n: nat) {
    forall i | k <= i < k + n :: !Creates(script(i).destroy)
  }

  lemma KeptCons(v: Visit, later: seq<Visit>)
    ensures Kept([v] + later) == (if v.verdict == Unlinked then [] else [v.timer.serial]) + Kept(later)
  {
    assert ([v] + later)[1..] == later;
  }

  lemma KeepsStep(front: seq<int>, rest: seq<int>, nextId: int, hasPrev: bool, unlinked: bool,
                  front': seq<int>, rest': seq<int>, nextId': int, last: int, kept: seq<int>, final: seq<int>)
    requires Stepped(front, rest, nextId, hasPrev, unlinked, front', rest', nextId')
    requires hasPrev || front == []
    requires last >= nextId' && final == Down(last, nextId') + front' + kept
    ensures final == Down(last, nextId) + front + (if unlinked then kept else [rest[0]] + kept)
  {
    var middle := if unlinked then front else front + [rest[0]];
    DownJoin(last, nextId', nextId, middle, kept);
    if !unlinked {
      assert Down(last, nextId) + (front + [rest[0]]) + kept == Down(last, nextId) + front + ([rest[0]] + kept);
    }
  }

  /** What is left after a pass: the events created on the way, newest first, then
      those that were there before, then those reached and not unlinked, all in
      their old order. */
  predicate Keeps(front: seq<int>, nextId: int, final: seq<int>, lastId: int, visits: seq<Visit>) {
    lastId >= nextId && final == Down(lastId, nextId) + front + Kept(visits)
  }

  lemma KeepsOne(s: State, hasPrev: bool, turn: Turn, later: Outcome)
    requires s.rest != [] && (hasPrev || s.front == []) && !Creates(turn.destroy)
    requires var r := Advance(s, hasPrev, turn);
             Keeps(Serials(r.front), r.nextId, Serials(later.final), later.nextId, later.visits)
    ensures var v := Visit(s.rest[0], turn.now, Judge(s.rest[0], turn.now));
            && Keeps(Serials(s.front), s.nextId, Serials(later.final), later.nextId, [v] + later.visits)
  {
    var v := Visit(s.rest[0], turn.now, Judge(s.rest[0], turn.now));
    var r := Advance(s, hasPrev, turn);
    AdvanceSerials(s, hasPrev, turn);
    KeptCons(v, later.visits);
    KeepsStep(Serials(s.front), Serials(s.rest), s.nextId, hasPrev, v.verdict == Unlinked,
              Serials(r.front), Serials(r.rest), r.nextId, later.nextId, Kept(later.visits), Serials(later.final));
  }

  lemma FrontStaysEmpty(s: State, turn: Turn)
    requires s.rest != [] && s.front == [] && !Creates(turn.destroy) && Judge(s.rest[0], turn.now) == Unlinked
    ensures Advance(s, false, turn).front == []
  {
    AdvanceSerials(s, false, turn);
  }

  /** A pass loses nothing but what it unlinks, as long as destructors create
      nothing. */
  lemma {:induction false} PassKeeps(s: State, hasPrev: bool, script: Script, k: nat)
    requires CleanDestructors(script, k, |s.rest|) && (hasPrev || s.front == [])
    ensures var out := Pass(s, hasPrev, script, k);
            Keeps(Serials(s.front), s.nextId, Serials(out.final), out.nextId, out.visits)
    decreases |s.rest|
  {
    if s.rest == [] {
      assert Down(s.nextId, s.nextId) + Serials(s.front) + [] == Serials(s.front);
    } else {
      var hasPrev' := hasPrev || Judge(s.rest[0], script(k).now) != Unlinked;
      if !hasPrev' {
        FrontStaysEmpty(s, script(k));
      }
      PassKeeps(Advance(s, hasPrev, script(k)), hasPrev', script, k + 1);
      KeepsOne(s, hasPrev, script(k), Pass(Advance(s, hasPrev, script(k)), hasPrev', script, k + 1));
    }
  }

  // ----------------------------------------------- when destructors create events

  /** Events that drop off the list without being unlinked: those that stand before
      an event which is unlinked while no event was kept yet. */
  function Lost(s: State, hasPrev: bool, script: Script, k: nat): nat
    decreases |s.rest|
  {
    if s.rest == [] then 0
    else
      var unlinked := Judge(s.rest[0], script(k).now) == Unlinked;
      (if unlinked && !hasPrev then |s.front| else 0)
      + Lost(Advance(s, hasPrev, script(k)), hasPrev || !unlinked, script, k + 1)
  }

  lemma AdvanceCounts(s: State, hasPrev: bool, turn: Turn)
    requires s.rest != []
    ensures var r, unlinked := Advance(s, hasPrev, turn), Judge(s.rest[0], turn.now) == Unlinked;
            && r.nextId >= s.nextId
            && |r.front| == r.nextId - s.nextId
                            + (if !unlinked then |s.front| + 1 else if hasPrev then |s.front| else 0)
  {
    AdvanceSerials(s, hasPrev, turn);
  }

  /** In every pass, whatever callbacks and destructors do: the events at the end
      are those kept and those created, less the lost ones. */
  lemma {:induction false} PassCounts(s: State, hasPrev: bool, script: Script, k: nat)
    ensures var out := Pass(s, hasPrev, script, k);
            |out.final| + Lost(s, hasPrev, script, k) == |s.front| + |Kept(out.visits)| + out.nextId - s.nextId
    decreases |s.rest|
  {
    if s.rest != [] {
      var turn := script(k);
      var v := Visit(s.rest[0], turn.now, Judge(s.rest[0], turn.now));
      var hasPrev' := hasPrev || v.verdict != Unlinked;
      AdvanceCounts(s, hasPrev, turn);
      PassCounts(Advance(s, hasPrev, turn), hasPrev', script, k + 1);
      KeptCons(v, Pass(Advance(s, hasPrev, turn), hasPrev', script, k + 1).visits);
    }
  }

  lemma {:induction false} NothingLost(s: State, script: Script, k: nat)
    ensures Lost(s, true, script, k) == 0
    decreases |s.rest|
  {
    if s.rest != [] {
      NothingLost(Advance(s, true, script(k)), script, k + 1);
    }
  }

  /** Through the marked events at the head, with what their destructors do, to one
      that stands behind an event created meanwhile.  Neither the clock nor any
      callback matters. */
  predicate LeadLoses(s: State, script: Script, k: nat)
    decreases |s.rest|
  {
    && s.rest != [] && s.rest[0].id == DELETED
    && (s.front != [] || LeadLoses(ActAll(State([], s.rest[1..], s.nextId), script(k).destroy), script, k + 1))
  }

  lemma {:induction false} LosesIfLead(s: State, script: Script, k: nat)
    ensures Lost(s, false, script, k) > 0 <==> LeadLoses(s, script, k)
    decreases |s.rest|
  {
    if s.rest != [] {
      var r := Advance(s, false, script(k));
      if s.rest[0].id == DELETED {
        LosesIfLead(r, script, k + 1);
      } else {
        NothingLost(r, script, k + 1);
      }
    }
  }

  /** Exactly when a pass that starts at the head of the list loses events. */
  lemma PassLosesIffLead(rest: seq<Timer>, nextId: int, script: Script)
    ensures Lost(State([], rest, nextId), false, script, 0) > 0 <==> LeadLoses(State([], rest, nextId), script, 0)
  {
    LosesIfLead(State([], rest, nextId), script, 0);
  }

  predicate Marks(actions: seq<Action>) {
    exists i | 0 <= i < |actions| :: actions[i].Mark?
  }

  lemma {:induction false} CreateOnly(s: State, actions: seq<Action>)
    requires !Marks(actions)
    ensures ActAll(s, actions).rest == s.rest
    ensures |ActAll(s, actions).front| == |s.front| + |actions|
    decreases |actions|
  {
    if actions != [] {
      assert !actions[0].Mark?;
      assert forall i | 0 <= i < |actions[1..]| :: actions[1..][i] == actions[i + 1];
      CreateOnly(Act(s, actions[0]), actions[1..]);
    }
  }

  /** The first m events are marked. */
  predicate MarkedUpTo(rest: seq<Timer>, m: nat) {
    m <= |rest| && forall j | 0 <= j < m :: rest[j].id == DELETED
  }

  /** The destructor of the i-th event creates one, and that event and all up to the
      one behind it are marked. */
  predicate DropsBehind(rest: seq<Timer>, script: Script, k: nat, i: nat) {
    MarkedUpTo(rest, i + 2) && script(k + i).destroy != []
  }

  predicate SomeBehind(rest: seq<Timer>, script: Script, k: nat) {
    exists i | 0 <= i < |rest| :: DropsBehind(rest, script, k, i)
  }

  /** The destructors of steps k to k + n mark nothing. */
  predicate MarkNothing(script: Script, k: nat, n: nat) {
    forall j | k <= j < k + n :: !Marks(script(j).destroy)
  }

  /** When destructors mark nothing: a pass loses events if and only if the list
      begins with marked events and the destructor of one before the last of them
      creates an event. */
  lemma PassLosesIffMarked(rest: seq<Timer>, nextId: int, script: Script)
    requires MarkNothing(script, 0, |rest|)
    ensures Lost(State([], rest, nextId), false, script, 0) > 0 <==> SomeBehind(rest, script, 0)
  {
    PassLosesIffLead(rest, nextId, script);
    LeadIffMarked(State([], rest, nextId), script, 0);
  }

  lemma {:induction false} LeadIffMarked(s: State, script: Script, k: nat)
    requires MarkNothing(script, k, |s.rest|)
    ensures LeadLoses(s, script, k) <==> (s.front != [] && MarkedUpTo(s.rest, 1)) || SomeBehind(s.rest, script, k)
    decreases |s.rest|
  {
    if s.rest != [] && s.rest[0].id == DELETED {
      var later := s.rest[1..];
      var r := ActAll(State([], later, s.nextId), script(k).destroy);
      CreateOnly(State([], later, s.nextId), script(k).destroy);
      LeadIffMarked(r, script, k + 1);
      BehindLater(s.rest, script, k);
    } else {
      assert forall m: nat | m > 0 :: !MarkedUpTo(s.rest, m);
    }
  }

  lemma BehindLater(rest: seq<Timer>, script: Script, k: nat)
    requires rest != [] && rest[0].id == DELETED
    ensures SomeBehind(rest, script, k)
            <==> (script(k).destroy != [] && MarkedUpTo(rest[1..], 1)) || SomeBehind(rest[1..], script, k + 1)
  {
    var later, next := rest[1..], k + 1;
    if SomeBehind(rest, script, k) {
      var i :| 0 <= i < |rest| && DropsBehind(rest, script, k, i);
      assert forall j | 0 <= j < i + 1 :: later[j] == rest[j + 1];
      if i > 0 {
        assert DropsBehind(later, script, next, i - 1);
      }
    }
    if script(k).destroy != [] && MarkedUpTo(later, 1) {
      assert rest[1] == later[0];
      assert DropsBehind(rest, script, k, 0);
    }
    if SomeBehind(later, script, next) {
      var i :| 0 <= i < |later| && DropsBehind(later, script, next, i);
      assert forall j | 0 < j < i + 3 :: rest[j] == later[j - 1];
      assert DropsBehind(rest, script, k, i + 1);
    }
  }

  /** Two marked events at the head of the list, the first with a destructor that
      creates an event: the new event is lost. */
  lemma CreatedEventIsLost(a: Timer, b: Timer, nextId: int, script: Script, now: Time, milliseconds: int)
    requires a.id == b.id == DELETED
    requires script(0).destroy == [Create(now, milliseconds)] && script(1).destroy == []
    ensures var s := State([], [a, b], nextId);
      && Lost(s, false, script, 0) > 0
      && Pass(s, false, script, 0).final == [] && Pass(s, false, script, 0).nextId == nextId + 1
  {
    var s := State([], [a, b], nextId);
    var s1 := Advance(s, false, script(0));
    assert script(0).destroy[1..] == [] && [a, b][1..] == [b];
    var unlinked := State([], [b], nextId);
    assert s1 == ActAll(unlinked, [Create(now, milliseconds)]);
    assert [Create(now, milliseconds)][1..] == [];
    assert ActAll(unlinked, [Create(now, milliseconds)]) == ActAll(Act(unlinked, Create(now, milliseconds)), []);
    assert s1 == Act(State([], [b], nextId), Create(now, milliseconds));
    var s2 := Advance(s1, false, script(1));
    assert s2 == State([], [], nextId + 1);
    assert Pass(s2, false, script, 2) == Outcome([], nextId + 1, []);
    assert Pass(s1, false, script, 1).final == [];
    PassLosesIffLead([a, b], nextId, script);
  }

  // ------------------------------------------------------------ the guard on ids

  predicate IdsUpTo(ts: seq<Timer>, maxId: int)
    decreases |ts|
  {
    ts == [] || (ts[0].id <= maxId && IdsUpTo(ts[1..], maxId))
  }

  lemma {:induction false} MarkFirstIdsUpTo(ts: seq<Timer>, id: int, maxId: int)
    requires IdsUpTo(ts, maxId) && maxId >= DELETED
    ensures IdsUpTo(MarkFirst(ts, id), maxId)
    decreases |ts|
  {
    if ts != [] {
      MarkFirstIdsUpTo(ts[1..], id, maxId);
      assert MarkFirst(ts, id)[1..] == if ts[0].id == id then ts[1..] else MarkFirst(ts[1..], id);
    }
  }

  lemma {:induction false} ActAllIdsUpTo(s: State, actions: seq<Action>, maxId: int)
    requires IdsUpTo(s.rest, maxId) && maxId >= DELETED
    ensures IdsUpTo(ActAll(s, actions).rest, maxId)
    decreases |actions|
  {
    if actions != [] {
      if actions[0].Mark? {
        MarkFirstIdsUpTo(s.rest, actions[0].id, maxId);
      }
      ActAllIdsUpTo(Act(s, actions[0]), actions[1..], maxId);
    }
  }

  /** The events that a pass has still to reach never carry an id from after its
      start, so its guard against them never skips one. */
  lemma AdvanceIdsUpTo(s: State, hasPrev: bool, turn: Turn, maxId: int)
    requires s.rest != [] && IdsUpTo(s.rest, maxId) && maxId >= DELETED
    ensures IdsUpTo(Advance(s, hasPrev, turn).rest, maxId)
  {
    match Judge(s.rest[0], turn.now)
    case Unlinked => ActAllIdsUpTo(State(if hasPrev then s.front else [], s.rest[1..], s.nextId), turn.destroy, maxId);
    case Ran => ActAllIdsUpTo(s, turn.actions, maxId);
    case NotDue =>
  }

  /** After the clock went backwards every event is due at second zero. */
  function ResetAll(ts: seq<Timer>): (r: seq<Timer>)
    ensures |r| == |ts|
    decreases |ts|
  {
    if ts == [] then [] else [ts[0].(when := Time(0, ts[0].when.ms))] + ResetAll(ts[1..])
  }

  function RunCount(visits: seq<Visit>): nat
    decreases |visits|
  {
    if visits == [] then 0 else RunCount(visits[..|visits| - 1]) + if visits[|visits| - 1].verdict == Ran then 1 else 0
  }

  lemma RunCountSnoc(visits: seq<Visit>, v: Visit)
    ensures RunCount(visits + [v]) == RunCount(visits) + if v.verdict == Ran then 1 else 0
  {
    assert (visits + [v])[..|visits|] == visits;
  }
}
