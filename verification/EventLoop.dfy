/** The timer list of the event loop: a singly linked list with lazy deletion. */
module EventLoop {
  import opened FixedWidth
  import opened TimerPass
  import opened TimerFates

  class TimeEvent {
    ghost const serial: int
    var id: int
    var whenSec: int
    var whenMs: int
    var next: TimeEvent?

    constructor (id: int, when: Time, next: TimeEvent?)
      ensures serial == id && this.id == id && When() == when && this.next == next
    {
      this.serial, this.id, this.next := id, id, next;
      whenSec, whenMs := when.sec, when.ms;
    }

    function When(): Time
      reads this`whenSec, this`whenMs
    {
      Time(whenSec, whenMs)
    }
  }

  method RearmEvent(te: TimeEvent, turn: Turn)
    modifies te`id, te`whenSec, te`whenMs
    ensures Timer(te.serial, te.id, te.When()) == Rearmed(old(Timer(te.serial, te.id, te.When())), turn)
    ensures te.id == old(te.id) || te.id == DELETED
  {
    if turn.retval != ONESHOT {
      var when := AddMilliseconds(turn.after, turn.retval);
      te.whenSec, te.whenMs := when.sec, when.ms;
    } else {
      te.id := DELETED;
    }
  }

  /** The events of a list as values. */
  ghost function Views(evs: seq<TimeEvent>): (r: seq<Timer>)
    reads evs`id, evs`whenSec, evs`whenMs
    ensures |r| == |evs|
  {
    if evs == [] then [] else [Timer(evs[0].serial, evs[0].id, evs[0].When())] + Views(evs[1..])
  }

  lemma {:induction false} ViewAt(evs: seq<TimeEvent>, i: nat)
    requires i < |evs|
    ensures Views(evs)[i] == Timer(evs[i].serial, evs[i].id, evs[i].When())
    decreases i
  {
    if i > 0 {
      ViewAt(evs[1..], i - 1);
    }
  }

  lemma {:induction false} ViewsAppend(a: seq<TimeEvent>, b: seq<TimeEvent>)
    ensures Views(a + b) == Views(a) + Views(b)
    decreases |a|
  {
    if a == [] {
      assert a + b == b;
    } else {
      ViewsAppend(a[1..], b);
      assert (a + b)[1..] == a[1..] + b;
    }
  }

  lemma ViewsSplit(front: seq<TimeEvent>, te: TimeEvent, rest: seq<TimeEvent>)
    ensures Views(front + [te] + rest) == Views(front) + [Timer(te.serial, te.id, te.When())] + Views(rest)
  {
    ViewsAppend(front, [te]);
    ViewsAppend(front + [te], rest);
    assert Views([te]) == [Timer(te.serial, te.id, te.When())];
  }

  type Links = map<TimeEvent, TimeEvent?>

  ghost function NextOf(evs: seq<TimeEvent>): Links
    reads evs`next
  {
    map e | e in evs :: e.next
  }

  /** Following `next` from `head` visits exactly these events, none twice. */
  ghost predicate Chain(next: Links, head: TimeEvent?, evs: seq<TimeEvent>)
    decreases |evs|
  {
    if evs == [] then head == null
    else head == evs[0] && head in next && head !in evs[1..] && Chain(next, next[head], evs[1..])
  }

  lemma {:induction false} ChainFrame(next: Links, next': Links, head: TimeEvent?, evs: seq<TimeEvent>)
    requires Chain(next, head, evs)
    requires forall e | e in evs && e in next :: e in next' && next'[e] == next[e]
    ensures Chain(next', head, evs)
    decreases |evs|
  {
    if evs != [] {
      ChainFrame(next, next', next[head], evs[1..]);
    }
  }

  lemma {:induction false} ChainTail(next: Links, head: TimeEvent?, front: seq<TimeEvent>, rest: seq<TimeEvent>)
    requires Chain(next, head, front + rest)
    ensures front == [] ==> Chain(next, head, rest)
    ensures front != [] ==> front[|front| - 1] in next && Chain(next, next[front[|front| - 1]], rest)
    decreases |front|
  {
    var evs := front + rest;
    if front == [] {
      assert evs == rest;
    } else {
      assert evs[1..] == front[1..] + rest;
      ChainTail(next, next[head], front[1..], rest);
    }
  }

  /** Redirecting the last event before `te` to the one behind it. */
  lemma {:induction false} ChainUnlink(next: Links, next': Links, head: TimeEvent?,
                                       front: seq<TimeEvent>, te: TimeEvent, rest: seq<TimeEvent>)
    requires front != [] && Chain(next, head, front + [te] + rest) && te in next
    requires forall e | e in front + rest && e in next ::
               e in next' && next'[e] == if e == front[|front| - 1] then next[te] else next[e]
    ensures Chain(next', head, front + rest)
    decreases |front|
  {
    var evs := front + [te] + rest;
    assert evs[1..] == front[1..] + [te] + rest && (front + rest)[1..] == front[1..] + rest;
    if |front| == 1 {
      assert front[1..] + [te] + rest == [te] + rest && front[1..] + rest == rest;
      assert forall e | e in rest :: e in evs[1..];
      assert ([te] + rest)[1..] == rest;
      ChainFrame(next, next', next[te], rest);
    } else {
      ChainUnlink(next, next', next[head], front[1..], te, rest);
    }
  }

  lemma {:induction false} ChainUnique(next: Links, head: TimeEvent?,
            front: seq<TimeEvent>, te: TimeEvent, rest: seq<TimeEvent>)
    requires Chain(next, head, front + [te] + rest)
    ensures te !in front && te !in rest
    decreases |front|
  {
    var evs := front + [te] + rest;
    if front == [] {
      assert evs[1..] == rest;
    } else {
      assert evs[1..] == front[1..] + [te] + rest && te in evs[1..];
      ChainUnique(next, next[head], front[1..], te, rest);
    }
  }

  /** The chain behind an event. */
  lemma HeadReset(next: Links, head: TimeEvent?, front: seq<TimeEvent>, te: TimeEvent, rest: seq<TimeEvent>)
    requires Chain(next, head, front + [te] + rest)
    ensures te in next && Chain(next, next[te], rest)
    ensures te !in front && te !in rest
  {
    ChainUnique(next, head, front, te, rest);
    ChainTail(next, head, front + [te], rest);
    assert (front + [te])[|front|] == te;
  }

  lemma {:induction false} MarkFirstAt(front: seq<Timer>, t: Timer, rest: seq<Timer>)
    requires !HasId(front, t.id)
    ensures HasId(front + [t] + rest, t.id)
    ensures MarkFirst(front + [t] + rest, t.id) == front + [t.(id := DELETED)] + rest
    decreases |front|
  {
    var ts := front + [t] + rest;
    if front == [] {
      assert ts[1..] == rest;
    } else {
      MarkFirstAt(front[1..], t, rest);
      assert ts[1..] == front[1..] + [t] + rest;
      assert front + [t.(id := DELETED)] + rest == [front[0]] + (front[1..] + [t.(id := DELETED)] + rest);
    }
  }

  lemma {:induction false} MarkFirstNone(ts: seq<Timer>, id: int)
    requires !HasId(ts, id)
    ensures MarkFirst(ts, id) == ts
    decreases |ts|
  {
    if ts != [] {
      MarkFirstNone(ts[1..], id);
    }
  }

  lemma {:induction false} HasIdAppend(a: seq<Timer>, t: Timer, id: int)
    ensures HasId(a + [t], id) <==> HasId(a, id) || t.id == id
    decreases |a|
  {
    if a != [] {
      HasIdAppend(a[1..], t, id);
      assert (a + [t])[1..] == a[1..] + [t];
    }
  }

  class EventLoop {
    var head: TimeEvent?
    var nextId: int
    var lastTime: int
    ghost var events: seq<TimeEvent>
    ghost var Repr: set<TimeEvent>

    ghost predicate Valid()
      reads this, events`next, events`id
    {
      (forall e | e in events :: e in Repr) &&
      Chain(NextOf(events), head, events) && nextId >= 0 && forall e | e in events :: e.id < nextId
    }

    /** The numbers of the events are their own, below the next one. */
    ghost predicate IsNumbered()
      reads this, events`id, events`whenSec, events`whenMs
    {
      WellNumbered(Views(events), nextId)
    }

    constructor (now: int)
      ensures Valid() && IsNumbered() && events == [] && nextId == 0 && lastTime == now
    {
      head, nextId, lastTime, events, Repr := null, 0, now, [], {};
    }

    /** Puts a new event at the head of the list. */
    method PushEvent(now: Time, milliseconds: int) returns (id: int)
      requires Valid()
      modifies this
      ensures Valid() && lastTime == old(lastTime) && fresh(Repr - old(Repr))
      ensures id == old(nextId) && nextId == id + 1
      ensures events != [] && fresh(events[0]) && events[1..] == old(events)
      ensures events[0].serial == id && events[0].id == id && events[0].When() == AddMilliseconds(now, milliseconds)
    {
      id := nextId;
      nextId := nextId + 1;
      var te := new TimeEvent(id, AddMilliseconds(now, milliseconds), head);
      ghost var next := NextOf(events);
      head := te;
      ghost var was := events;
      events, Repr := [te] + events, Repr + {te};
      ChainFrame(next, NextOf(events), te.next, was);
      assert events[1..] == was;
    }

    /** Creates an event that is due so many milliseconds from now. */
    method CreateTimeEvent(now: Time, milliseconds: int) returns (id: int)
      requires Valid()
      modifies this
      ensures Valid() && lastTime == old(lastTime) && fresh(Repr - old(Repr))
      ensures id == old(nextId) && nextId == id + 1
      ensures events != [] && fresh(events[0]) && events[1..] == old(events)
      ensures events[0].serial == id && events[0].id == id && events[0].When().Total() == now.Total() + milliseconds
      ensures old(IsNumbered()) ==> IsNumbered()
    {
      ghost var before := Views(events);
      ghost var was := events;
      id := PushEvent(now, milliseconds);
      AddMillisecondsExact(now, milliseconds);
      assert Views(was) == before;
      if WellNumbered(before, id) {
        OneMoreNumbered(before, Timer(id, id, events[0].When()), id);
      }
    }

    /** Marks the first event with the id. */
    method MarkById(id: int) returns (ok: bool)
      requires Valid()
      modifies Repr`id
      ensures Valid()
      ensures ok <==> HasId(old(Views(events)), id)
      ensures Views(events) == MarkFirst(old(Views(events)), id)
      ensures NextOf(events) == old(NextOf(events))
    {
      var te := head;
      ghost var next, rest := NextOf(events), events;
      ghost var seen: seq<TimeEvent> := [];
      while te != null
        invariant Valid() && NextOf(events) == next && Views(events) == old(Views(events))
        invariant Chain(next, te, rest) && seen + rest == events && !HasId(Views(seen), id)
        decreases |rest|
      {
        assert events == seen + [te] + rest[1..];
        assert next[te] == te.next;
        if te.id == id {
          MarkEvent(te, seen, rest[1..]);
          return true;
        }
        ViewsSplit(seen, te, []);
        assert seen + [te] + [] == seen + [te] && Views(seen + [te]) + [] == Views(seen + [te]);
        assert Views(seen) + [Timer(te.serial, te.id, te.When())] + [] == Views(seen) + [Timer(te.serial, te.id, te.When())];
        HasIdAppend(Views(seen), Timer(te.serial, te.id, te.When()), id);
        seen, rest := seen + [rest[0]], rest[1..];
        te := te.next;
      }
      assert seen == events;
      MarkFirstNone(Views(events), id);
      return false;
    }

    /** Marks the event of that number, if it is in the list and not marked yet; the next
        pass takes it out. */
    method DeleteTimeEvent(id: int) returns (ok: bool)
      requires Valid()
      modifies Repr`id
      ensures Valid() && NextOf(events) == old(NextOf(events))
      ensures Views(events) == MarkFirst(old(Views(events)), id) && (ok <==> HasId(old(Views(events)), id))
      ensures old(IsNumbered()) ==> IsNumbered() && OneMarked(old(Views(events)), id, ok, Views(events))
    {
      ghost var before := Views(events);
      ok := MarkById(id);
      if WellNumbered(before, nextId) {
        MarkFirstMarksOne(before, id, nextId);
      }
    }

    method MarkEvent(te: TimeEvent, ghost seen: seq<TimeEvent>, ghost rest: seq<TimeEvent>)
      requires Valid() && events == seen + [te] + rest && !HasId(Views(seen), te.id)
      modifies te`id
      ensures Valid() && te.id == DELETED && NextOf(events) == old(NextOf(events))
      ensures HasId(old(Views(events)), old(te.id))
      ensures Views(events) == MarkFirst(old(Views(events)), old(te.id))
    {
      ChainUnique(NextOf(events), head, seen, te, rest);
      ghost var front, tail, next := Views(seen), Views(rest), NextOf(events);
      ghost var t := Timer(te.serial, te.id, te.When());
      ViewsSplit(seen, te, rest);
      MarkFirstAt(front, t, tail);
      te.id := DELETED;
      ViewsSplit(seen, te, rest);
      assert Views(seen) == front && Views(rest) == tail;
      assert NextOf(events) == next;
    }

    /** The state of a pass, as values. */
    ghost function Here(front: seq<TimeEvent>, rest: seq<TimeEvent>): State
      reads this`nextId, front`id, front`whenSec, front`whenMs, rest`id, rest`whenSec, rest`whenMs
    {
      State(Views(front), Views(rest), nextId)
    }

    method MarkDuringPass(id: int, ghost front: seq<TimeEvent>, ghost rest: seq<TimeEvent>)
      requires Valid() && events == front + rest
      modifies Repr`id
      ensures Valid()
      ensures Here(front, rest) == Act(old(Here(front, rest)), Mark(id))
    {
      ghost var f, r := Views(front), Views(rest);
      ViewsAppend(front, rest);
      var _ := MarkById(id);
      ViewsAppend(front, rest);
      MarkFirstAcross(f, r, id);
      SameSplit(Views(front), Views(rest),
                if HasId(f, id) then MarkFirst(f, id) else f, if HasId(f, id) then r else MarkFirst(r, id));
    }

    method CreateDuringPass(now: Time, milliseconds: int, ghost front: seq<TimeEvent>, ghost rest: seq<TimeEvent>)
      returns (ghost front': seq<TimeEvent>)
      requires Valid() && events == front + rest
      modifies this
      ensures Valid() && events == front' + rest && lastTime == old(lastTime)
      ensures front' != [] && front'[1..] == front
      ensures fresh(Repr - old(Repr))
      ensures Here(front', rest) == Act(old(Here(front, rest)), Create(now, milliseconds))
    {
      var _ := PushEvent(now, milliseconds);
      front' := [events[0]] + front;
      assert front'[1..] == front;
      assert events == front' + rest by { assert events == [events[0]] + (front + rest); }
    }

    /** One action of a callback or destructor, while the pass is between two parts
        of the list. */
    method DoAction(a: Action, ghost front: seq<TimeEvent>, ghost rest: seq<TimeEvent>)
      returns (ghost front': seq<TimeEvent>)
      requires Valid() && events == front + rest
      modifies this, Repr`id
      ensures Valid() && events == front' + rest && lastTime == old(lastTime)
      ensures front' == front || (front' != [] && front'[1..] == front)
      ensures fresh(Repr - old(Repr))
      ensures Here(front', rest) == Act(old(Here(front, rest)), a)
    {
      match a {
        case Create(now, milliseconds) =>
          front' := CreateDuringPass(now, milliseconds, front, rest);
        case Mark(id) =>
          MarkDuringPass(id, front, rest);
          front' := front;
      }
    }

    method DoActions(actions: seq<Action>, ghost front: seq<TimeEvent>, ghost rest: seq<TimeEvent>)
      returns (ghost front': seq<TimeEvent>)
      requires Valid() && events == front + rest
      modifies this, Repr`id
      ensures Valid() && events == front' + rest && lastTime == old(lastTime)
      ensures |front'| >= |front| && front'[|front'| - |front|..] == front
      ensures fresh(Repr - old(Repr))
      ensures Here(front', rest) == ActAll(old(Here(front, rest)), actions)
    {
      front' := front;
      var left := actions;
      while left != []
        invariant Valid() && events == front' + rest && lastTime == old(lastTime)
        invariant |front'| >= |front| && front'[|front'| - |front|..] == front
        invariant fresh(Repr - old(Repr))
        invariant ActAll(Here(front', rest), left) == ActAll(old(Here(front, rest)), actions)
        decreases |left|
      {
        front' := DoAction(left[0], front', rest);
        left := left[1..];
      }
    }

    /** Takes an event off the list: through its predecessor, or by resetting the
        head when there is none. */
    method Bypass(te: TimeEvent, prev: TimeEvent?, ghost front: seq<TimeEvent>, ghost rest: seq<TimeEvent>)
      returns (ghost front': seq<TimeEvent>)
      requires Valid() && events == front + [te] + rest
      requires prev != null ==> front != [] && prev == front[|front| - 1]
      modifies this`head, this`events, Repr`next
      ensures Valid() && events == front' + rest && front' == if prev != null then front else []
      ensures Here(front', rest) == old(Here(if prev != null then front else [], rest))
    {
      ghost var next := NextOf(events);
      HeadReset(next, head, front, te, rest);
      if prev == null {
        front' := [];
        head := te.next;
        ChainFrame(next, NextOf(rest), head, rest);
        Install(rest);
        assert front' + rest == rest;
      } else {
        front' := front;
        prev.next := te.next;
        ChainUnlink(next, NextOf(front + rest), head, front, te, rest);
        Install(front + rest);
      }
    }

    ghost method Install(evs: seq<TimeEvent>)
      requires Chain(NextOf(evs), head, evs) && nextId >= 0 && forall e | e in evs :: e.id < nextId && e in Repr
      modifies this`events
      ensures Valid() && events == evs
    {
      events := evs;
    }

    /** Takes a marked event off the list and runs its destructor. */
    method UnlinkEvent(te: TimeEvent, prev: TimeEvent?, destroy: seq<Action>,
                       ghost front: seq<TimeEvent>, ghost rest: seq<TimeEvent>)
      returns (ghost front': seq<TimeEvent>)
      requires Valid() && events == front + [te] + rest
      requires prev != null ==> front != [] && prev == front[|front| - 1]
      modifies this, Repr`id, Repr`next
      ensures Valid() && events == front' + rest && lastTime == old(lastTime)
      ensures fresh(Repr - old(Repr))
      ensures prev != null ==> front' != [] && prev == front'[|front'| - 1]
      ensures Here(front', rest) == ActAll(old(Here(if prev != null then front else [], rest)), destroy)
    {
      front' := Bypass(te, prev, front, rest);
      front' := DoActions(destroy, front', rest);
    }

    method Rearm(te: TimeEvent, turn: Turn, ghost front: seq<TimeEvent>, ghost rest: seq<TimeEvent>)
      requires Valid() && events == front + [te] + rest
      modifies te`id, te`whenSec, te`whenMs
      ensures Valid()
      ensures Views(front + [te]) == old(Views(front) + [Rearmed(Timer(te.serial, te.id, te.When()), turn)])
      ensures Views(rest) == old(Views(rest))
    {
      HeadReset(NextOf(events), head, front, te, rest);
      ghost var f, r, next := Views(front), Views(rest), NextOf(events);
      RearmEvent(te, turn);
      assert Views(front) == f && Views(rest) == r && NextOf(events) == next;
      ViewsAppend(front, [te]);
    }

    /** Runs the callback of a due event and re-arms the event or marks it. */
    method RunEvent(te: TimeEvent, turn: Turn, ghost front: seq<TimeEvent>, ghost rest: seq<TimeEvent>)
      returns (ghost front': seq<TimeEvent>)
      requires Valid() && events == front + [te] + rest
      modifies this, Repr`id, Repr`whenSec, Repr`whenMs
      ensures Valid() && events == front' + [te] + rest && lastTime == old(lastTime) && fresh(Repr - old(Repr))
      ensures var s1 := ActAll(old(Here(front, [te] + rest)), turn.actions);
              Here(front' + [te], rest) == State(s1.front + [Rearmed(s1.rest[0], turn)], s1.rest[1..], s1.nextId)
    {
      assert events == front + ([te] + rest);
      front' := DoActions(turn.actions, front, [te] + rest);
      assert front' + ([te] + rest) == front' + [te] + rest;
      assert ([te] + rest)[1..] == rest;
      assert te in events;
      Rearm(te, turn, front', rest);
    }

    /** The step of the pass at one event. */
    method StepPass(te: TimeEvent, prev: TimeEvent?, turn: Turn, ghost front: seq<TimeEvent>, ghost rest: seq<TimeEvent>)
      returns (te': TimeEvent?, prev': TimeEvent?, verdict: Verdict, ghost front': seq<TimeEvent>)
      requires Valid() && events == front + [te] + rest
      requires prev != null ==> front != [] && prev == front[|front| - 1]
      modifies this, Repr`id, Repr`whenSec, Repr`whenMs, Repr`next
      ensures Valid() && events == front' + rest && lastTime == old(lastTime) && fresh(Repr - old(Repr))
      ensures te' == First(rest) && (prev' != null ==> front' != [] && prev' == front'[|front'| - 1])
      ensures verdict == Judge(old(Timer(te.serial, te.id, te.When())), turn.now)
      ensures prev' != null <==> prev != null || verdict != Unlinked
      ensures Here(front', rest) == Advance(old(Here(front, [te] + rest)), prev != null, turn)
    {
      HeadReset(NextOf(events), head, front, te, rest);
      ChainFirst(NextOf(events), te.next, rest);
      assert Views([te] + rest)[1..] == Views(rest) by { assert ([te] + rest)[1..] == rest; }
      ghost var here := Here(front, [te] + rest);
      if te.id == DELETED {
        var next := te.next;
        front' := UnlinkEvent(te, prev, turn.destroy, front, rest);
        assert Here(front', rest) == Advance(here, prev != null, turn);
        return next, prev, Unlinked, front';
      }
      if turn.now.Reaches(te.When()) {
        front' := RunEvent(te, turn, front, rest);
        HeadReset(NextOf(events), head, front', te, rest);
        ChainFirst(NextOf(events), te.next, rest);
        front' := front' + [te];
        assert Here(front', rest) == Advance(here, prev != null, turn);
        return te.next, te, Ran, front';
      }
      front' := front + [te];
      ViewsAppend(front, [te]);
      return te.next, te, NotDue, front';
    }

    /** The list that a pass starts from. */
    ghost function Begin(now: int): seq<Timer>
      reads this, events`id, events`whenSec, events`whenMs
    {
      if now < lastTime then ResetAll(Views(events)) else Views(events)
    }

    method ResetEvent(te: TimeEvent, ghost seen: seq<TimeEvent>, ghost rest: seq<TimeEvent>)
      requires Valid() && events == seen + [te] + rest
      modifies te`whenSec
      ensures Valid() && te.next == First(rest)
      ensures Views(seen + [te]) == old(Views(seen)) + [Timer(te.serial, te.id, Time(0, te.whenMs))]
      ensures Views(rest) == old(Views(rest))
    {
      HeadReset(NextOf(events), head, seen, te, rest);
      ChainFirst(NextOf(events), te.next, rest);
      ghost var f, r, next := Views(seen), Views(rest), NextOf(events);
      te.whenSec := 0;
      assert Views(seen) == f && Views(rest) == r && NextOf(events) == next;
      ViewsAppend(seen, [te]);
    }

    /** Resets every deadline when the clock has gone backwards. */
    method CorrectSkew(now: int)
      requires Valid()
      modifies this`lastTime, Repr`whenSec
      ensures Valid() && Views(events) == old(Begin(now)) && lastTime == now
    {
      if now < lastTime {
        ResetDeadlines();
      }
      lastTime := now;
    }

    ghost predicate Resetting(te: TimeEvent?, seen: seq<TimeEvent>, rest: seq<TimeEvent>, goal: seq<Timer>)
      reads this, events`next, events`id, seen`id, seen`whenSec, seen`whenMs, rest`id, rest`whenSec, rest`whenMs
    {
      Valid() && events == seen + rest && te == First(rest) && Views(seen) + ResetAll(Views(rest)) == goal
    }

    method ResetOnce(te: TimeEvent, ghost seen: seq<TimeEvent>, ghost rest: seq<TimeEvent>, ghost goal: seq<Timer>)
      returns (te': TimeEvent?)
      requires rest != [] && Resetting(te, seen, rest, goal)
      modifies te`whenSec
      ensures Resetting(te', seen + [te], rest[1..], goal)
    {
      ghost var tail, s := rest[1..], Views(seen);
      assert rest == [te] + tail && events == seen + [te] + tail && Views(rest)[1..] == Views(tail);
      ghost var later, t := ResetAll(Views(tail)), Timer(te.serial, te.id, Time(0, te.whenMs));
      assert goal == s + [t] + later by { assert goal == s + ([t] + later); }
      ResetEvent(te, seen, tail);
      te' := te.next;
    }

    method ResetDeadlines()
      requires Valid()
      modifies Repr`whenSec
      ensures Valid() && Views(events) == old(ResetAll(Views(events)))
    {
      var te := head;
      ghost var rest := events;
      ghost var seen: seq<TimeEvent> := [];
      ghost var goal := ResetAll(Views(events));
      ChainFirst(NextOf(events), head, events);
      while te != null
        invariant Resetting(te, seen, rest, goal)
        decreases |rest|
      {
        ghost var first := rest[0];
        te := ResetOnce(te, seen, rest, goal);
        seen, rest := seen + [first], rest[1..];
      }
      assert seen == events && Views(seen) + [] == Views(seen);
    }

    /** The state of a pass that began with `start`: what it did so far and what it
        has still to do make up the whole pass. */
    ghost predicate InPass(start: State, script: Script, k: nat, maxId: int, te: TimeEvent?, prev: TimeEvent?,
                           front: seq<TimeEvent>, rest: seq<TimeEvent>, visits: seq<Visit>)
      reads this, events`next, events`id, front`id, front`whenSec, front`whenMs, rest`id, rest`whenSec, rest`whenMs
    {
      && Valid() && events == front + rest && te == First(rest)
      && (prev != null ==> front != [] && prev == front[|front| - 1])
      && maxId >= DELETED && IdsUpTo(Views(rest), maxId)
      && Pass(start, false, script, 0)
         == Prefixed(visits, Pass(Here(front, rest), prev != null, script, k))
    }

    lemma StartPass(script: Script)
      requires Valid()
      ensures InPass(State([], Views(events), nextId), script, 0, nextId - 1, head, null, [], events, [])
    {
      ChainFirst(NextOf(events), head, events);
      ViewsIdsUpTo(events, nextId - 1);
      assert [] + events == events;
      var out := Pass(State([], Views(events), nextId), false, script, 0);
      assert [] + out.visits == out.visits;
    }

    /** What the loop leaves when it has run through the list. */
    lemma EndPass(start: State, script: Script, k: nat, maxId: int, prev: TimeEvent?, front: seq<TimeEvent>,
                  rest: seq<TimeEvent>, visits: seq<Visit>)
      requires InPass(start, script, k, maxId, null, prev, front, rest, visits)
      ensures Pass(start, false, script, 0) == Outcome(Views(events), nextId, visits)
    {
      assert rest == [] && Views(rest) == [];
      assert front == events && visits + [] == visits;
      assert Pass(Here(front, rest), prev != null, script, k) == Outcome(Views(front), nextId, []);
    }

    method PassOnce(ghost start: State, script: Script, k: nat, ghost maxId: int, te: TimeEvent, prev: TimeEvent?,
                    ghost front: seq<TimeEvent>, ghost rest: seq<TimeEvent>, ghost visits: seq<Visit>)
      returns (te': TimeEvent?, prev': TimeEvent?, verdict: Verdict, ghost front': seq<TimeEvent>, ghost v: Visit)
      requires rest != [] && InPass(start, script, k, maxId, te, prev, front, rest, visits)
      modifies this, Repr`id, Repr`whenSec, Repr`whenMs, Repr`next
      ensures InPass(start, script, k + 1, maxId, te', prev', front', rest[1..], visits + [v])
      ensures v.verdict == verdict && lastTime == old(lastTime) && fresh(Repr - old(Repr))
    {
      ghost var tail := rest[1..];
      assert rest == [te] + tail;
      assert events == front + [te] + tail by { assert front + ([te] + tail) == front + [te] + tail; }
      ghost var here := Here(front, [te] + tail);
      AdvanceIdsUpTo(here, prev != null, script(k), maxId);
      PassStep(here, prev != null, script, k);
      v := Visit(here.rest[0], script(k).now, Judge(here.rest[0], script(k).now));
      te', prev', verdict, front' := StepPass(te, prev, script(k), front, tail);
      PrefixedCons(visits, v, Pass(Here(front', tail), prev' != null, script, k + 1));
    }

    /** The loop over the list.  `script` stands for all that the callbacks, the
        destructors and the clock do.  The source also skips events with an id from
        after the start of the pass; the invariant shows that it never meets one. */
    method WalkList(script: Script) returns (processed: nat)
      requires Valid()
      modifies this, Repr`id, Repr`whenSec, Repr`whenMs, Repr`next
      ensures Valid() && lastTime == old(lastTime)
      ensures var out := Pass(State([], old(Views(events)), old(nextId)), false, script, 0);
              Views(events) == out.final && nextId == out.nextId && processed == RunCount(out.visits)
    {
      ghost var start := State([], Views(events), nextId);
      processed := 0;
      var prev: TimeEvent? := null;
      var te := head;
      ghost var maxId := nextId - 1;
      var k := 0;
      ghost var front, rest: seq<TimeEvent> := [], events;
      ghost var visits: seq<Visit> := [];
      StartPass(script);
      while te != null
        invariant InPass(start, script, k, maxId, te, prev, front, rest, visits)
        invariant lastTime == old(lastTime) && fresh(Repr - old(Repr)) && processed == RunCount(visits)
        decreases |rest|
      {
        ghost var v;
        var verdict;
        te, prev, verdict, front, v := PassOnce(start, script, k, maxId, te, prev, front, rest, visits);
        rest := rest[1..];
        if verdict == Ran {
          processed := processed + 1;
        }
        RunCountSnoc(visits, v);
        visits := visits + [v];
        k := k + 1;
      }
      EndPass(start, script, k, maxId, prev, front, rest, visits);
    }

    /** One pass, after the correction for a clock that was set back: then every
        deadline is taken back to second zero.  What becomes of each event is said of
        the list alone. */
    method ProcessTimeEvents(now: int, script: Script) returns (processed: nat, ghost visits: seq<Visit>)
      requires Valid()
      modifies this, Repr`id, Repr`whenSec, Repr`whenMs, Repr`next
      ensures Valid() && lastTime == now
      ensures var out := WholePass(old(Begin(now)), old(nextId), script);
              Views(events) == out.final && nextId == out.nextId && visits == out.visits
      ensures processed == |set i | 0 <= i < |visits| && visits[i].verdict == Ran|
      ensures old(IsNumbered()) ==>
                IsNumbered() && Became(old(Views(events)), now < old(lastTime), visits, script, Views(events))
    {
      ghost var ts, next, was, back := Begin(now), nextId, Views(events), now < lastTime;
      CorrectSkew(now);
      processed := WalkList(script);
      visits := WholePass(ts, next, script).visits;
      RunCountIs(visits);
      if WellNumbered(was, next) {
        AllBecome(was, back, ts, next, script);
      }
    }

    /** The first event with the least deadline. */
    method SearchNearest() returns (nearest: TimeEvent?)
      requires Valid()
      ensures nearest == null <==> events == []
      ensures nearest != null ==>
                exists i :: 0 <= i < |events| && events[i] == nearest
                  && (forall j | 0 <= j < |events| :: events[j].When().Reaches(nearest.When()))
                  && (forall j | 0 <= j < i :: events[j].When() != nearest.When())
    {
      nearest := null;
      var te := head;
      ghost var rest := events;
      ghost var k, at := 0, 0;
      ChainFirst(NextOf(events), head, events);
      while te != null
        invariant 0 <= k <= |events| && rest == events[k..] && te == First(rest)
        invariant Chain(NextOf(events), te, rest)
        invariant nearest == null <==> k == 0
        invariant nearest != null ==> 0 <= at < k && events[at] == nearest
        invariant nearest != null ==> forall j | 0 <= j < k :: events[j].When().Reaches(nearest.When())
        invariant nearest != null ==> forall j | 0 <= j < at :: events[j].When() != nearest.When()
        decreases |rest|
      {
        assert te == events[k] && NextOf(events)[te] == te.next;
        if nearest == null || te.whenSec < nearest.whenSec
           || (te.whenSec == nearest.whenSec && te.whenMs < nearest.whenMs) {
          nearest := te;
          at := k;
        }
        ChainFirst(NextOf(events), te.next, rest[1..]);
        te := te.next;
        rest := rest[1..];
        k := k + 1;
      }
    }
  }

  /** Exactly the event of that number is marked now; `ok` says whether it was there
      with its id. */
  predicate OneMarked(was: seq<Timer>, id: int, ok: bool, now: seq<Timer>) {
    && |now| == |was| && (ok <==> exists i :: 0 <= i < |was| && was[i].id == id)
    && forall i | 0 <= i < |was| :: now[i] == if was[i].serial == id then was[i].(id := DELETED) else was[i]
  }

  lemma MarkFirstMarksOne(ts: seq<Timer>, id: int, nextId: int)
    requires WellNumbered(ts, nextId)
    ensures OneMarked(ts, id, HasId(ts, id), MarkFirst(ts, id)) && WellNumbered(MarkFirst(ts, id), nextId)
  {
    MarkFirstIs(ts, id, nextId);
    MarkedList(ts, id, nextId);
  }

  lemma OneMoreNumbered(ts: seq<Timer>, t: Timer, id: int)
    requires WellNumbered(ts, id) && t.serial == t.id == id
    ensures WellNumbered([t] + ts, id + 1)
  {
  }

  lemma {:induction false} ResetIs(ts: seq<Timer>)
    ensures forall i | 0 <= i < |ts| :: ResetAll(ts)[i] == ts[i].(when := Time(0, ts[i].when.ms))
    decreases |ts|
  {
    if ts != [] {
      ResetIs(ts[1..]);
      assert forall i | 1 <= i < |ts| :: ResetAll(ts)[i] == ResetAll(ts[1..])[i - 1] && ts[i] == ts[1..][i - 1];
    }
  }

  lemma ResetNumbered(ts: seq<Timer>, nextId: int)
    requires WellNumbered(ts, nextId)
    ensures WellNumbered(ResetAll(ts), nextId)
  {
    ResetIs(ts);
  }

  /** What becomes of every event of the list, its deadline taken back to second zero
      if the clock was set back. */
  ghost predicate Became(was: seq<Timer>, back: bool, visits: seq<Visit>, script: Script, now: seq<Timer>) {
    |visits| == |was| && forall i | 0 <= i < |was| ::
      Becomes(if back then was[i].(when := Time(0, was[i].when.ms)) else was[i], visits, i, script, now)
  }

  lemma AllBecome(was: seq<Timer>, back: bool, ts: seq<Timer>, nextId: int, script: Script)
    requires WellNumbered(was, nextId) && ts == if back then ResetAll(was) else was
    ensures var out := WholePass(ts, nextId, script);
            WellNumbered(out.final, out.nextId) && Became(was, back, out.visits, script, out.final)
  {
    ResetNumbered(was, nextId);
    ResetIs(was);
    var out := WholePass(ts, nextId, script);
    assert [] + ts == ts;
    FrontStays(State([], ts, nextId), false, script, 0);
    forall i | 0 <= i < |was|
      ensures Becomes(if back then was[i].(when := Time(0, was[i].when.ms)) else was[i], out.visits, i, script, out.final)
    {
      EventFate(ts, nextId, script, i);
    }
  }

  /** The clock was set back: every event that is not marked runs, once the clock is
      past second zero. */
  lemma ResetRuns(t: Timer, visits: seq<Visit>, i: nat, script: Script, final: seq<Timer>)
    requires i < |visits| && Becomes(t.(when := Time(0, t.when.ms)), visits, i, script, final)
    requires 0 <= t.when.ms < 1000 && 0 <= script(i).now.ms < 1000 && script(i).now.sec > 0
    ensures visits[i].verdict == Ran <==> !(t.id == DELETED || MarkedIn(t.serial, visits[..i], script, 0))
  {
  }

  lemma {:induction false} RunCountIs(visits: seq<Visit>)
    ensures RunCount(visits) == |set i | 0 <= i < |visits| && visits[i].verdict == Ran|
    decreases |visits|
  {
    if visits != [] {
      var k := |visits| - 1;
      RunCountIs(visits[..k]);
      var less, all := set i | 0 <= i < k && visits[..k][i].verdict == Ran,
                set i | 0 <= i < |visits| && visits[i].verdict == Ran;
      assert forall i | 0 <= i < k :: visits[..k][i] == visits[i];
      assert all == if visits[k].verdict == Ran then less + {k} else less;
    }
  }

  ghost function Prefixed(visits: seq<Visit>, out: Outcome): Outcome {
    out.(visits := visits + out.visits)
  }

  lemma PrefixedCons(visits: seq<Visit>, v: Visit, out: Outcome)
    ensures Prefixed(visits, out.(visits := [v] + out.visits)) == Prefixed(visits + [v], out)
  {
    assert visits + ([v] + out.visits) == visits + [v] + out.visits;
  }

  lemma PassStep(s: State, hasPrev: bool, script: Script, k: nat)
    requires s.rest != []
    ensures var v := Visit(s.rest[0], script(k).now, Judge(s.rest[0], script(k).now));
            var out, later := Pass(s, hasPrev, script, k),
                              Pass(Advance(s, hasPrev, script(k)), hasPrev || v.verdict != Unlinked, script, k + 1);
            out == later.(visits := [v] + later.visits)
  {
  }

  lemma {:induction false} ViewsIdsUpTo(evs: seq<TimeEvent>, maxId: int)
    requires forall e | e in evs :: e.id <= maxId
    ensures IdsUpTo(Views(evs), maxId)
    decreases |evs|
  {
    if evs != [] {
      ViewsIdsUpTo(evs[1..], maxId);
    }
  }

  lemma ChainFirst(next: Links, head: TimeEvent?, evs: seq<TimeEvent>)
    requires Chain(next, head, evs)
    ensures head == First(evs)
  {
  }

  /** The first event of a list. */
  ghost function First(evs: seq<TimeEvent>): TimeEvent? {
    if evs == [] then null else evs[0]
  }

  lemma SameSplit(a: seq<Timer>, b: seq<Timer>, c: seq<Timer>, d: seq<Timer>)
    requires a + b == c + d && |a| == |c|
    ensures a == c && b == d
  {
    assert a == (a + b)[..|a|] && c == (c + d)[..|c|];
    assert b == (a + b)[|a|..] && d == (c + d)[|c|..];
  }

  lemma {:induction false} MarkFirstAcross(front: seq<Timer>, rest: seq<Timer>, id: int)
    ensures MarkFirst(front + rest, id)
            == if HasId(front, id) then MarkFirst(front, id) + rest else front + MarkFirst(rest, id)
    decreases |front|
  {
    if front == [] {
      assert front + rest == rest && front + MarkFirst(rest, id) == MarkFirst(rest, id);
    } else {
      MarkFirstAcross(front[1..], rest, id);
      assert (front + rest)[1..] == front[1..] + rest;
    }
  }
}
