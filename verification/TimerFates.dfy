/** What becomes of each timer event: over one pass, and over the next. */
module TimerFates {
  import opened FixedWidth
  import opened TimerPass

  // ------------------------------------------------------------------- numbering

  /** Each event was created with a number of its own below the next one, and its id
      is that number or has been overwritten to mark it. */
  predicate WellNumbered(ts: seq<Timer>, nextId: int) {
    && nextId >= 0
    && (forall i | 0 <= i < |ts| :: 0 <= ts[i].serial < nextId && (ts[i].id == ts[i].serial || ts[i].id == DELETED))
    && (forall i, j | 0 <= i < j < |ts| :: ts[i].serial != ts[j].serial)
  }

  predicate Sound(s: State) {
    WellNumbered(s.front + s.rest, s.nextId)
  }

  /** An event after actions of callbacks and destructors: they can mark it, by its
      number, and nothing else. */
  function AfterMarks(t: Timer, actions: seq<Action>): Timer {
    if Mark(t.serial) in actions then t.(id := DELETED) else t
  }

  lemma AfterMarksTwice(t: Timer, a: seq<Action>, b: seq<Action>)
    ensures AfterMarks(AfterMarks(t, a), b) == AfterMarks(t, a + b)
  {
  }

  /** The second list is the first after the actions, behind what they created. */
  predicate Follows(was: seq<Timer>, now: seq<Timer>, actions: seq<Action>, nextId: int) {
    && |now| >= |was|
    && (forall i | 0 <= i < |was| :: now[|now| - |was| + i] == AfterMarks(was[i], actions))
    && (forall i | 0 <= i < |now| - |was| :: now[i].serial >= nextId)
  }

  lemma {:induction false} MarkFirstIs(ts: seq<Timer>, x: int, nextId: int)
    requires WellNumbered(ts, nextId)
    ensures forall i | 0 <= i < |ts| :: MarkFirst(ts, x)[i] == if ts[i].id == x then ts[i].(id := DELETED) else ts[i]
    ensures HasId(ts, x) <==> exists i :: 0 <= i < |ts| && ts[i].id == x
    decreases |ts|
  {
    if ts != [] {
      var tail := ts[1..];
      MarkFirstIs(tail, x, nextId);
      forall i | 0 <= i < |ts| ensures MarkFirst(ts, x)[i] == if ts[i].id == x then ts[i].(id := DELETED) else ts[i] {
        if i > 0 {
          assert tail[i - 1] == ts[i];
        }
      }
      if HasId(tail, x) {
        var i :| 0 <= i < |tail| && tail[i].id == x;
        assert ts[i + 1].id == x;
      }
      if i :| 0 <= i < |ts| && ts[i].id == x {
        assert i > 0 ==> tail[i - 1].id == x;
      }
    }
  }

  lemma PartsNumbered(a: seq<Timer>, b: seq<Timer>, nextId: int)
    requires WellNumbered(a + b, nextId)
    ensures WellNumbered(a, nextId) && WellNumbered(b, nextId)
    ensures forall i, j | 0 <= i < |a| && 0 <= j < |b| :: a[i].serial != b[j].serial
  {
    var ts := a + b;
    assert forall i | 0 <= i < |a| :: ts[i] == a[i];
    assert forall j | 0 <= j < |b| :: ts[|a| + j] == b[j];
    forall i, j | 0 <= i < |a| && 0 <= j < |b| ensures a[i].serial != b[j].serial {
      assert ts[i].serial != ts[|a| + j].serial;
    }
  }

  lemma JoinNumbered(a: seq<Timer>, b: seq<Timer>, nextId: int)
    requires WellNumbered(a, nextId) && WellNumbered(b, nextId)
    requires forall i, j | 0 <= i < |a| && 0 <= j < |b| :: a[i].serial != b[j].serial
    ensures WellNumbered(a + b, nextId)
  {
  }

  /** Marking by number in the list that has the id. */
  lemma MarkedList(ts: seq<Timer>, x: int, nextId: int)
    requires WellNumbered(ts, nextId)
    ensures Follows(ts, MarkFirst(ts, x), [Mark(x)], nextId) && WellNumbered(MarkFirst(ts, x), nextId)
    ensures forall i | 0 <= i < |ts| :: MarkFirst(ts, x)[i].serial == ts[i].serial
  {
    MarkFirstIs(ts, x, nextId);
    forall i | 0 <= i < |ts| ensures MarkFirst(ts, x)[i] == AfterMarks(ts[i], [Mark(x)]) {
    }
  }

  /** A list whose event of that number is elsewhere, or marked already. */
  lemma UnmarkedList(ts: seq<Timer>, x: int, nextId: int)
    requires forall i | 0 <= i < |ts| && ts[i].serial == x :: ts[i].id == DELETED
    ensures Follows(ts, ts, [Mark(x)], nextId)
  {
    forall i | 0 <= i < |ts| ensures ts[i] == AfterMarks(ts[i], [Mark(x)]) {
      if ts[i].serial == x {
        assert ts[i].(id := DELETED) == ts[i];
      }
    }
  }

  /** The event of an id that stands in the one list does not stand in the other. */
  lemma OtherListUnmarked(a: seq<Timer>, b: seq<Timer>, x: int, nextId: int)
    requires WellNumbered(a, nextId) && WellNumbered(b, nextId) && HasId(a, x)
    requires forall i, j | 0 <= i < |a| && 0 <= j < |b| :: a[i].serial != b[j].serial
    ensures Follows(b, b, [Mark(x)], nextId)
  {
    MarkFirstIs(a, x, nextId);
    var i :| 0 <= i < |a| && a[i].id == x;
    assert a[i].serial == x || x == DELETED;
    UnmarkedList(b, x, nextId);
  }

  lemma NowhereUnmarked(ts: seq<Timer>, x: int, nextId: int)
    requires WellNumbered(ts, nextId) && !HasId(ts, x)
    ensures Follows(ts, ts, [Mark(x)], nextId)
  {
    MarkFirstIs(ts, x, nextId);
    UnmarkedList(ts, x, nextId);
  }

  lemma MarkFollows(s: State, x: int)
    requires Sound(s)
    ensures var r := Act(s, Mark(x));
            Sound(r) && Follows(s.front, r.front, [Mark(x)], s.nextId) && Follows(s.rest, r.rest, [Mark(x)], s.nextId)
  {
    PartsNumbered(s.front, s.rest, s.nextId);
    if HasId(s.front, x) {
      MarkedList(s.front, x, s.nextId);
      OtherListUnmarked(s.front, s.rest, x, s.nextId);
      JoinNumbered(MarkFirst(s.front, x), s.rest, s.nextId);
    } else {
      NowhereUnmarked(s.front, x, s.nextId);
      MarkedList(s.rest, x, s.nextId);
      JoinNumbered(s.front, MarkFirst(s.rest, x), s.nextId);
    }
  }

  lemma ActFollows(s: State, a: Action)
    requires Sound(s)
    ensures var r := Act(s, a);
            && Sound(r) && r.nextId >= s.nextId && |r.rest| == |s.rest|
            && Follows(s.front, r.front, [a], s.nextId) && Follows(s.rest, r.rest, [a], s.nextId)
  {
    match a
    case Create(now, milliseconds) =>
      PartsNumbered(s.front, s.rest, s.nextId);
      var r := Act(s, a);
      assert forall t: Timer :: Mark(t.serial) !in [a];
      JoinNumbered(r.front, r.rest, r.nextId);
    case Mark(x) =>
      MarkFollows(s, x);
  }

  lemma FollowsTwice(a: seq<Timer>, b: seq<Timer>, c: seq<Timer>, x: seq<Action>, y: seq<Action>, m: int, n: int)
    requires Follows(a, b, x, m) && Follows(b, c, y, n) && n >= m
    ensures Follows(a, c, x + y, m)
  {
    forall i | 0 <= i < |a| ensures c[|c| - |a| + i] == AfterMarks(a[i], x + y) {
      var j := |b| - |a| + i;
      assert c[|c| - |b| + j] == AfterMarks(b[j], y);
      AfterMarksTwice(a[i], x, y);
    }
    forall i | 0 <= i < |c| - |a| ensures c[i].serial >= m {
      if i >= |c| - |b| {
        assert c[|c| - |b| + (i - (|c| - |b|))] == AfterMarks(b[i - (|c| - |b|)], y);
      }
    }
  }

  lemma {:induction false} ActAllFollows(s: State, actions: seq<Action>)
    requires Sound(s)
    ensures var r := ActAll(s, actions);
            && Sound(r) && r.nextId >= s.nextId
            && Follows(s.front, r.front, actions, s.nextId) && Follows(s.rest, r.rest, actions, s.nextId)
    decreases |actions|
  {
    if actions != [] {
      var s1 := Act(s, actions[0]);
      ActFollows(s, actions[0]);
      ActAllFollows(s1, actions[1..]);
      var r := ActAll(s1, actions[1..]);
      assert actions == [actions[0]] + actions[1..];
      FollowsTwice(s.front, s1.front, r.front, [actions[0]], actions[1..], s.nextId, s1.nextId);
      FollowsTwice(s.rest, s1.rest, r.rest, [actions[0]], actions[1..], s.nextId, s1.nextId);
    }
  }

  // -------------------------------------------------------------------- one step

  /** What callbacks and destructors did at a visit. */
  function Done(v: Visit, turn: Turn): seq<Action> {
    match v.verdict
    case Unlinked => turn.destroy
    case Ran => turn.actions
    case NotDue => []
  }

  function DoneAll(visits: seq<Visit>, script: Script, k: nat): seq<Action>
    decreases |visits|
  {
    if visits == [] then [] else Done(visits[0], script(k)) + DoneAll(visits[1..], script, k + 1)
  }

  predicate InRange(t: Time) {
    0 <= t.ms < 1000
  }

  /** The milliseconds of the next time are in range, as they are for every return
      value from zero on. */
  predicate KeepsRange(turn: Turn) {
    InRange(turn.after) && turn.after.ms + Rem(turn.retval, 1000) >= 0
  }

  /** The event right after its visit, if it was kept: as it was when it was not due;
      with its next time, or marked, when it ran. */
  predicate Treated(v: Visit, turn: Turn, t: Timer)
    requires v.verdict != Unlinked
  {
    var after := AfterMarks(v.timer, Done(v, turn));
    t.serial == after.serial
    && match v.verdict
       case Ran =>
         if turn.retval == ONESHOT then t.id == DELETED && t.when == after.when
         else t.id == after.id && t.when.Total() == turn.after.Total() + turn.retval
              && (KeepsRange(turn) ==> InRange(t.when))
       case _ => t == after
  }

  predicate Absent(ts: seq<Timer>, serial: int) {
    forall i | 0 <= i < |ts| :: ts[i].serial != serial
  }

  predicate Stays(was: seq<Timer>, now: seq<Timer>, actions: seq<Action>) {
    forall i | 0 <= i < |was| :: AfterMarks(was[i], actions) in now
  }

  lemma FollowsStays(was: seq<Timer>, now: seq<Timer>, actions: seq<Action>, nextId: int)
    requires Follows(was, now, actions, nextId)
    ensures Stays(was, now, actions)
    ensures forall serial | serial < nextId && Absent(was, serial) :: Absent(now, serial)
  {
    forall i | 0 <= i < |was| ensures AfterMarks(was[i], actions) in now {
      assert now[|now| - |was| + i] == AfterMarks(was[i], actions);
    }
    forall serial, i | serial < nextId && Absent(was, serial) && 0 <= i < |now| ensures now[i].serial != serial {
      if i >= |now| - |was| {
        var j := i - (|now| - |was|);
        assert now[|now| - |was| + j] == AfterMarks(was[j], actions);
        assert was[j].serial != serial;
      }
    }
  }

  /** The state after one step. */
  ghost predicate StepFate(s: State, hasPrev: bool, v: Visit, turn: Turn, r: State)
    requires s.rest != []
  {
    && Sound(r) && r.nextId >= s.nextId && |r.rest| == |s.rest| - 1
    && Follows(s.rest[1..], r.rest, Done(v, turn), s.nextId)
    && (hasPrev || v.verdict != Unlinked ==> Stays(s.front, r.front, Done(v, turn)))
    && (v.verdict != Unlinked ==> exists i :: 0 <= i < |r.front| && Treated(v, turn, r.front[i]))
    && (v.verdict == Unlinked ==> Absent(r.front + r.rest, s.rest[0].serial))
    && (forall serial | serial < s.nextId && Absent(s.front + s.rest, serial) :: Absent(r.front + r.rest, serial))
  }

  lemma AbsentParts(a: seq<Timer>, b: seq<Timer>, serial: int)
    ensures Absent(a + b, serial) <==> Absent(a, serial) && Absent(b, serial)
  {
    var ts := a + b;
    assert forall i | 0 <= i < |a| :: ts[i] == a[i];
    assert forall j | 0 <= j < |b| :: ts[|a| + j] == b[j];
  }

  /** Replacing an event by one of the same number, marked or with the same id. */
  lemma ReplaceNumbered(ts: seq<Timer>, i: nat, t: Timer, nextId: int)
    requires WellNumbered(ts, nextId) && i < |ts|
    requires t.serial == ts[i].serial && (t.id == ts[i].id || t.id == DELETED)
    ensures WellNumbered(ts[i := t], nextId)
  {
  }

  /** Without the event that is reached next. */
  lemma WithoutFirst(s: State, front: seq<Timer>)
    requires Sound(s) && s.rest != [] && (front == s.front || front == [])
    ensures WellNumbered(front + s.rest[1..], s.nextId) && Absent(front + s.rest[1..], s.rest[0].serial)
    ensures 0 <= s.rest[0].serial < s.nextId
  {
    var t, rest := s.rest[0], s.rest[1..];
    var all := s.front + s.rest;
    assert all[|s.front|] == t;
    assert forall i | 0 <= i < |rest| :: all[|s.front| + 1 + i] == rest[i];
    assert forall i | 0 <= i < |s.front| :: all[i] == s.front[i];
    var left := front + rest;
    forall i, j | 0 <= i < j < |left| ensures left[i].serial != left[j].serial {
      var n := |front|;
      assert left[j] == if j < n then all[j] else all[|s.front| + 1 + (j - n)];
      assert left[i] == if i < n then all[i] else all[|s.front| + 1 + (i - n)];
    }
  }

  /** Both parts after actions. */
  lemma PartsFollow(s: State, r: State, actions: seq<Action>)
    requires Follows(s.front, r.front, actions, s.nextId) && Follows(s.rest, r.rest, actions, s.nextId)
    ensures forall serial | serial < s.nextId && Absent(s.front + s.rest, serial) :: Absent(r.front + r.rest, serial)
    ensures Stays(s.front, r.front, actions)
  {
    FollowsStays(s.front, r.front, actions, s.nextId);
    FollowsStays(s.rest, r.rest, actions, s.nextId);
    forall serial | serial < s.nextId && Absent(s.front + s.rest, serial) ensures Absent(r.front + r.rest, serial) {
      AbsentParts(s.front, s.rest, serial);
      AbsentParts(r.front, r.rest, serial);
    }
  }

  lemma AbsentLess(s: State, s0: State)
    requires s.rest != [] && s0 == State(s0.front, s.rest[1..], s.nextId) && (s0.front == s.front || s0.front == [])
    ensures forall serial | Absent(s.front + s.rest, serial) :: Absent(s0.front + s0.rest, serial)
  {
    forall serial | Absent(s.front + s.rest, serial) ensures Absent(s0.front + s0.rest, serial) {
      AbsentParts(s.front, s.rest, serial);
      AbsentParts(s0.front, s0.rest, serial);
    }
  }

  lemma StepUnlinks(s: State, hasPrev: bool, turn: Turn)
    requires Sound(s) && s.rest != [] && Judge(s.rest[0], turn.now) == Unlinked
    ensures StepFate(s, hasPrev, Visit(s.rest[0], turn.now, Unlinked), turn, Advance(s, hasPrev, turn))
  {
    var s0 := State(if hasPrev then s.front else [], s.rest[1..], s.nextId);
    WithoutFirst(s, s0.front);
    ActAllFollows(s0, turn.destroy);
    PartsFollow(s0, ActAll(s0, turn.destroy), turn.destroy);
    AbsentLess(s, s0);
  }

  lemma RearmTreats(t: Timer, turn: Turn)
    ensures Treated(Visit(t, turn.now, Ran), turn, Rearmed(AfterMarks(t, turn.actions), turn))
  {
    AddMillisecondsExact(turn.after, turn.retval);
  }

  lemma StepRuns(s: State, hasPrev: bool, turn: Turn)
    requires Sound(s) && s.rest != [] && Judge(s.rest[0], turn.now) == Ran
    ensures StepFate(s, hasPrev, Visit(s.rest[0], turn.now, Ran), turn, Advance(s, hasPrev, turn))
  {
    var s1, r := ActAll(s, turn.actions), Advance(s, hasPrev, turn);
    ActAllFollows(s, turn.actions);
    PartsFollow(s, s1, turn.actions);
    var t := r.front[|s1.front|];
    assert s1.rest[0] == AfterMarks(s.rest[0], turn.actions);
    RearmTreats(s.rest[0], turn);
    assert t == Rearmed(s1.rest[0], turn);
    RanNumbered(s1, t, r);
    KeptFollows(s, s1, t, r, turn.actions);
  }

  lemma KeptFollows(s: State, s1: State, t: Timer, r: State, actions: seq<Action>)
    requires s.rest != [] && s1.rest != [] && r == State(s1.front + [t], s1.rest[1..], s1.nextId)
    requires |s1.rest| == |s.rest| && t.serial == s1.rest[0].serial
    requires Follows(s.rest, s1.rest, actions, s.nextId) && Stays(s.front, s1.front, actions)
    ensures Follows(s.rest[1..], r.rest, actions, s.nextId) && Stays(s.front, r.front, actions)
    ensures forall serial | Absent(s1.front + s1.rest, serial) :: Absent(r.front + r.rest, serial)
  {
    forall i | 0 <= i < |r.rest| ensures r.rest[i] == AfterMarks(s.rest[1..][i], actions) {
      assert s1.rest[i + 1] == AfterMarks(s.rest[i + 1], actions);
    }
    forall i | 0 <= i < |s.front| ensures AfterMarks(s.front[i], actions) in r.front {
      assert AfterMarks(s.front[i], actions) in s1.front;
    }
    forall serial | Absent(s1.front + s1.rest, serial) ensures Absent(r.front + r.rest, serial) {
      AbsentParts(s1.front, s1.rest, serial);
      AbsentParts(r.front, r.rest, serial);
    }
  }

  lemma RanNumbered(s1: State, t: Timer, r: State)
    requires Sound(s1) && s1.rest != [] && r == State(s1.front + [t], s1.rest[1..], s1.nextId)
    requires t.serial == s1.rest[0].serial && (t.id == s1.rest[0].id || t.id == DELETED)
    ensures Sound(r)
  {
    ReplaceNumbered(s1.front + s1.rest, |s1.front|, t, s1.nextId);
    assert r.front + r.rest == (s1.front + s1.rest)[|s1.front| := t];
  }

  lemma StepWaits(s: State, hasPrev: bool, turn: Turn)
    requires Sound(s) && s.rest != [] && Judge(s.rest[0], turn.now) == NotDue
    ensures StepFate(s, hasPrev, Visit(s.rest[0], turn.now, NotDue), turn, Advance(s, hasPrev, turn))
  {
    var r := Advance(s, hasPrev, turn);
    assert r.front + r.rest == s.front + s.rest;
    assert Treated(Visit(s.rest[0], turn.now, NotDue), turn, r.front[|s.front|]);
    forall i | 0 <= i < |s.front| ensures AfterMarks(s.front[i], []) in r.front {
      assert r.front[i] == s.front[i];
    }
  }

  lemma StepIs(s: State, hasPrev: bool, turn: Turn)
    requires Sound(s) && s.rest != []
    ensures StepFate(s, hasPrev, Visit(s.rest[0], turn.now, Judge(s.rest[0], turn.now)), turn, Advance(s, hasPrev, turn))
  {
    match Judge(s.rest[0], turn.now)
    case Unlinked => StepUnlinks(s, hasPrev, turn);
    case Ran => StepRuns(s, hasPrev, turn);
    case NotDue => StepWaits(s, hasPrev, turn);
  }

  // -------------------------------------------------------------------- one pass

  /** What a pass leaves of the events that it has behind it already. */
  lemma {:induction false} FrontStays(s: State, hasPrev: bool, script: Script, k: nat)
    requires Sound(s)
    ensures var out := Pass(s, hasPrev, script, k);
            && WellNumbered(out.final, out.nextId) && out.nextId >= s.nextId
            && (hasPrev ==> Stays(s.front, out.final, DoneAll(out.visits, script, k)))
    ensures var out := Pass(s, hasPrev, script, k);
            forall serial | serial < s.nextId && Absent(s.front + s.rest, serial) :: Absent(out.final, serial)
    decreases |s.rest|
  {
    if s.rest == [] {
      assert s.front + s.rest == s.front;
      forall i | 0 <= i < |s.front| ensures AfterMarks(s.front[i], []) in s.front {
      }
    } else {
      StepIs(s, hasPrev, script(k));
      var v := Visit(s.rest[0], script(k).now, Judge(s.rest[0], script(k).now));
      var r := Advance(s, hasPrev, script(k));
      var hasPrev' := hasPrev || v.verdict != Unlinked;
      FrontStays(r, hasPrev', script, k + 1);
      if hasPrev {
        var later := Pass(r, hasPrev', script, k + 1);
        StaysTwice(s.front, r.front, later.final, Done(v, script(k)), DoneAll(later.visits, script, k + 1));
        assert ([v] + later.visits)[1..] == later.visits;
      }
    }
  }

  lemma StaysTwice(a: seq<Timer>, b: seq<Timer>, c: seq<Timer>, x: seq<Action>, y: seq<Action>)
    requires Stays(a, b, x) && Stays(b, c, y)
    ensures Stays(a, c, x + y)
  {
    forall i | 0 <= i < |a| ensures AfterMarks(a[i], x + y) in c {
      assert AfterMarks(a[i], x) in b;
      var j :| 0 <= j < |b| && b[j] == AfterMarks(a[i], x);
      assert AfterMarks(b[j], y) in c;
      AfterMarksTwice(a[i], x, y);
    }
  }

  /** What becomes of an event in a pass: at its visit it is as it was at the start,
      but for marks; afterwards it is as its visit left it, but for marks, or gone. */
  ghost predicate Fate(t: Timer, visits: seq<Visit>, i: nat, script: Script, k: nat, final: seq<Timer>)
    requires i < |visits|
  {
    var v, turn := visits[i], script(k + i);
    && v.timer == AfterMarks(t, DoneAll(visits[..i], script, k)) && v.now == turn.now
    && (if v.verdict == Unlinked then Absent(final, t.serial)
        else exists u :: Treated(v, turn, u) && AfterMarks(u, DoneAll(visits[i + 1..], script, k + i + 1)) in final)
  }

  lemma {:induction false} PassFate(s: State, hasPrev: bool, script: Script, k: nat, i: nat)
    requires Sound(s) && i < |s.rest|
    ensures var out := Pass(s, hasPrev, script, k);
            |out.visits| == |s.rest| && Fate(s.rest[i], out.visits, i, script, k, out.final)
    decreases |s.rest|
  {
    PassVisits(s, hasPrev, script, k);
    StepIs(s, hasPrev, script(k));
    var v := Visit(s.rest[0], script(k).now, Judge(s.rest[0], script(k).now));
    var r, hasPrev' := Advance(s, hasPrev, script(k)), hasPrev || v.verdict != Unlinked;
    var later := Pass(r, hasPrev', script, k + 1);
    var visits := [v] + later.visits;
    if i == 0 {
      WithoutFirst(s, []);
      FrontStays(r, hasPrev', script, k + 1);
      assert visits[..0] == [] && visits[1..] == later.visits;
      if v.verdict != Unlinked {
        var j :| 0 <= j < |r.front| && Treated(v, script(k), r.front[j]);
        assert AfterMarks(r.front[j], DoneAll(later.visits, script, k + 1)) in later.final;
      }
    } else {
      PassFate(r, hasPrev', script, k + 1, i - 1);
      LaterFate(s.rest[i], r.rest[i - 1], v, later.visits, i, script, k, later.final);
    }
  }

  lemma LaterFate(t: Timer, t': Timer, v: Visit, later: seq<Visit>, i: nat, script: Script, k: nat, final: seq<Timer>)
    requires 0 < i <= |later| && t' == AfterMarks(t, Done(v, script(k))) && Fate(t', later, i - 1, script, k + 1, final)
    ensures Fate(t, [v] + later, i, script, k, final)
  {
    var visits := [v] + later;
    assert visits[..i] == [v] + later[..i - 1] && ([v] + later[..i - 1])[1..] == later[..i - 1];
    assert visits[i + 1..] == later[i..] && visits[i] == later[i - 1];
    assert k + 1 + (i - 1) == k + i;
    AfterMarksTwice(t, Done(v, script(k)), DoneAll(later[..i - 1], script, k + 1));
  }

  // ------------------------------------------------------------- what that means

  /** A pass over a whole list. */
  function WholePass(ts: seq<Timer>, nextId: int, script: Script): (out: Outcome)
    ensures |out.visits| == |ts|
  {
    PassVisits(State([], ts, nextId), false, script, 0);
    Pass(State([], ts, nextId), false, script, 0)
  }

  /** Some callback or destructor of these visits marks the event. */
  predicate MarkedIn(serial: int, visits: seq<Visit>, script: Script, k: nat) {
    Mark(serial) in DoneAll(visits, script, k)
  }

  /** Numbers are unique, so at most one visit is the event's. */
  predicate OnlyVisit(visits: seq<Visit>, j: nat, serial: int) {
    && j < |visits| && visits[j].timer.serial == serial
    && forall m | 0 <= m < |visits| && m != j :: visits[m].timer.serial != serial
  }

  lemma VisitOfEvent(ts: seq<Timer>, nextId: int, script: Script, j: nat)
    requires WellNumbered(ts, nextId) && j < |ts|
    ensures var visits := WholePass(ts, nextId, script).visits;
            OnlyVisit(visits, j, ts[j].serial) && visits[j].verdict == Judge(visits[j].timer, visits[j].now)
  {
    PassVisits(State([], ts, nextId), false, script, 0);
    var visits := WholePass(ts, nextId, script).visits;
    forall m | 0 <= m < |visits|
      ensures visits[m].timer.serial == ts[m].serial && visits[m].verdict == Judge(visits[m].timer, visits[m].now)
    {
      assert Visits(visits[m], ts[m].serial, script(0 + m).now);
    }
  }

  /** The list still has the event, marked or not, with that deadline in milliseconds;
      the deadline is as good as the one it was made from. */
  predicate Remains(ts: seq<Timer>, serial: int, marked: bool, deadline: int, good: bool) {
    exists i :: 0 <= i < |ts| && RemainsAt(ts, i, serial, marked, deadline, good)
  }

  predicate RemainsAt(ts: seq<Timer>, i: int, serial: int, marked: bool, deadline: int, good: bool)
    requires 0 <= i < |ts|
  {
    && ts[i].serial == serial && ts[i].id == (if marked then DELETED else serial)
    && ts[i].when.Total() == deadline && (good ==> InRange(ts[i].when))
  }

  /** What one pass makes of the event at place i.  It is unlinked, and gone, if and
      only if it is marked when it is reached; otherwise it runs if and only if the
      clock has reached its deadline.  An event that has run is due again so many
      milliseconds after its callback as the callback returned, or is marked if that
      was -1; one that was not due keeps its deadline; and both are marked besides if
      a callback or destructor has marked them meanwhile. */
  ghost predicate Becomes(t: Timer, visits: seq<Visit>, i: nat, script: Script, final: seq<Timer>)
    requires i < |visits|
  {
    var (v, turn, later) := (visits[i], script(i), MarkedIn(t.serial, visits[i..], script, i));
    && (v.verdict == Unlinked <==> t.id == DELETED || MarkedIn(t.serial, visits[..i], script, 0))
    && (v.verdict != Unlinked && InRange(turn.now) && InRange(t.when) ==>
          (v.verdict == Ran <==> turn.now.Total() >= t.when.Total()))
    && (v.verdict == Unlinked ==> Absent(final, t.serial))
    && (v.verdict == Ran && turn.retval != -1 ==>
          Remains(final, t.serial, later, turn.after.Total() + turn.retval, KeepsRange(turn)))
    && (v.verdict == Ran && turn.retval == -1 ==> Remains(final, t.serial, true, t.when.Total(), InRange(t.when)))
    && (v.verdict == NotDue ==> Remains(final, t.serial, later, t.when.Total(), InRange(t.when)))
  }

  /** So it goes for every event, in any list that is numbered by age. */
  lemma EventFate(ts: seq<Timer>, nextId: int, script: Script, i: nat)
    requires WellNumbered(ts, nextId) && i < |ts|
    ensures var out := WholePass(ts, nextId, script);
            WellNumbered(out.final, out.nextId) && Becomes(ts[i], out.visits, i, script, out.final)
  {
    assert [] + ts == ts;
    PassFate(State([], ts, nextId), false, script, 0, i);
    FrontStays(State([], ts, nextId), false, script, 0);
    VisitOfEvent(ts, nextId, script, i);
    FateMeans(ts[i], WholePass(ts, nextId, script).visits, script, i, WholePass(ts, nextId, script).final);
  }

  lemma FateMeans(t: Timer, visits: seq<Visit>, script: Script, i: nat, final: seq<Timer>)
    requires i < |visits| && Fate(t, visits, i, script, 0, final) && (t.id == t.serial || t.id == DELETED) && t.serial >= 0
    requires visits[i].verdict == Judge(visits[i].timer, visits[i].now)
    ensures Becomes(t, visits, i, script, final)
  {
    var v := visits[i];
    assert 0 + i == i;
    if v.verdict != Unlinked {
      var u :| Treated(v, script(i), u) && AfterMarks(u, DoneAll(visits[i + 1..], script, 0 + i + 1)) in final;
      assert visits[i..][1..] == visits[i + 1..];
      KeptRemains(t, v, script(i), u, visits[i..], script, i, final);
    }
  }

  /** From the visit to the end of the pass. */
  lemma KeptRemains(t: Timer, v: Visit, turn: Turn, u: Timer, visits: seq<Visit>, script: Script, k: nat, final: seq<Timer>)
    requires visits != [] && visits[0] == v && turn == script(k) && v.verdict != Unlinked && Treated(v, turn, u)
    requires v.timer.serial == t.serial && v.timer.when == t.when && v.timer.id == t.serial
    requires AfterMarks(u, DoneAll(visits[1..], script, k + 1)) in final
    ensures var later := MarkedIn(t.serial, visits, script, k);
      && (v.verdict == Ran && turn.retval != -1 ==>
            Remains(final, t.serial, later, turn.after.Total() + turn.retval, KeepsRange(turn)))
      && (v.verdict == Ran && turn.retval == -1 ==> Remains(final, t.serial, true, t.when.Total(), InRange(t.when)))
      && (v.verdict == NotDue ==> Remains(final, t.serial, later, t.when.Total(), InRange(t.when)))
  {
    var last := AfterMarks(u, DoneAll(visits[1..], script, k + 1));
    var i :| 0 <= i < |final| && final[i] == last;
    var later := MarkedIn(t.serial, visits, script, k);
    assert later <==> Mark(t.serial) in Done(v, turn) || Mark(t.serial) in DoneAll(visits[1..], script, k + 1);
    if v.verdict == NotDue {
      assert RemainsAt(final, i, t.serial, later, t.when.Total(), InRange(t.when));
    } else if turn.retval == -1 {
      assert RemainsAt(final, i, t.serial, true, t.when.Total(), InRange(t.when));
    } else {
      assert RemainsAt(final, i, t.serial, later, turn.after.Total() + turn.retval, KeepsRange(turn));
    }
  }

  /** An event that is not in the list is met no more, in no later pass. */
  lemma GoneForGood(ts: seq<Timer>, nextId: int, script: Script, serial: int)
    requires WellNumbered(ts, nextId) && serial < nextId && Absent(ts, serial)
    ensures var out := WholePass(ts, nextId, script);
      && Absent(out.final, serial) && out.nextId >= nextId && WellNumbered(out.final, out.nextId)
      && forall j | 0 <= j < |out.visits| :: out.visits[j].timer.serial != serial
  {
    assert [] + ts == ts;
    FrontStays(State([], ts, nextId), false, script, 0);
    PassVisits(State([], ts, nextId), false, script, 0);
    var out := WholePass(ts, nextId, script);
    forall j | 0 <= j < |out.visits| ensures out.visits[j].timer.serial != serial {
      assert Visits(out.visits[j], ts[j].serial, script(0 + j).now);
    }
  }

  /** Over two passes: an event that ran and asked for r milliseconds is met once in the
      next pass, and runs again if and only if nobody has marked it and the clock is
      then at least r milliseconds past the end of its callback. */
  lemma RunsAgainIff(ts: seq<Timer>, nextId: int, first: Script, i: nat, second: Script) returns (j: nat)
    requires WellNumbered(ts, nextId) && i < |ts|
    requires WholePass(ts, nextId, first).visits[i].verdict == Ran
    requires first(i).retval != -1 && KeepsRange(first(i)) && forall m :: InRange(second(m).now)
    ensures var out := WholePass(ts, nextId, first);
      var next := WholePass(out.final, out.nextId, second);
      && OnlyVisit(next.visits, j, ts[i].serial)
      && (next.visits[j].verdict == Ran
          <==> && !MarkedIn(ts[i].serial, out.visits[i..], first, i)
               && !MarkedIn(ts[i].serial, next.visits[..j], second, 0)
               && second(j).now.Total() >= first(i).after.Total() + first(i).retval)
  {
    EventFate(ts, nextId, first, i);
    var out := WholePass(ts, nextId, first);
    var later := MarkedIn(ts[i].serial, out.visits[i..], first, i);
    var deadline := first(i).after.Total() + first(i).retval;
    j :| 0 <= j < |out.final| && RemainsAt(out.final, j, ts[i].serial, later, deadline,
                                           KeepsRange(first(i)));
    EventFate(out.final, out.nextId, second, j);
    VisitOfEvent(out.final, out.nextId, second, j);
  }

  /** One that returned -1 is unlinked in the next pass, whatever happens, and is met no
      more after that. */
  lemma OneShotIsUnlinked(ts: seq<Timer>, nextId: int, first: Script, i: nat, second: Script) returns (j: nat)
    requires WellNumbered(ts, nextId) && i < |ts| && first(i).retval == -1
    requires WholePass(ts, nextId, first).visits[i].verdict == Ran
    ensures var out := WholePass(ts, nextId, first);
      var next := WholePass(out.final, out.nextId, second);
      && OnlyVisit(next.visits, j, ts[i].serial) && next.visits[j].verdict == Unlinked
      && Absent(next.final, ts[i].serial)
  {
    EventFate(ts, nextId, first, i);
    var out := WholePass(ts, nextId, first);
    j :| 0 <= j < |out.final| && RemainsAt(out.final, j, ts[i].serial, true, ts[i].when.Total(), InRange(ts[i].when));
    EventFate(out.final, out.nextId, second, j);
    VisitOfEvent(out.final, out.nextId, second, j);
  }
}
