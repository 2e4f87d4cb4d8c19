/** The bounded message queue: the list that the threads share, and the protocol
    of two semaphores and a mutex around it. */
module MsgQueue {
  import opened CircularList

  const MAX_MSG_QUEUE_SIZE := 1024

  // ------------------------------------------------------------------- the list

  ghost function Items<T>(nodes: seq<Node<T>>): (r: seq<T>)
    reads nodes`item
  {
    if nodes == [] then [] else [nodes[0].item] + Items(nodes[1..])
  }

  lemma {:induction false} ItemsAppend<T>(nodes: seq<Node<T>>, q: Node<T>)
    ensures Items(nodes + [q]) == Items(nodes) + [q.item]
    decreases |nodes|
  {
    if nodes == [] {
      assert nodes + [q] == [q];
    } else {
      ItemsAppend(nodes[1..], q);
      assert (nodes + [q])[1..] == nodes[1..] + [q];
    }
  }

  /** The list under the queue; `nodes` are the queued messages, oldest first. */
  class MessageList<T(0)> {
    const head: Node<T>
    ghost var nodes: seq<Node<T>>

    ghost predicate Valid()
      reads this, head, nodes
    {
      Ring(head, nodes)
    }

    constructor (blank: T)
      ensures Valid() && nodes == [] && fresh(head)
    {
      head := new Node(blank);
      nodes := [];
    }

    /** What msg_queue_enqueue does while it holds the mutex. */
    method PutLast(q: Node<T>)
      requires Valid() && q != head && q !in nodes
      modifies this`nodes, head`next, head`prev, q`next, q`prev, nodes`next, nodes`prev
      ensures Valid() && nodes == old(nodes) + [q]
      ensures Items(nodes) == old(Items(nodes)) + [q.item]
    {
      InsertTail(head, q, nodes);
      ItemsAppend(nodes, q);
      nodes := nodes + [q];
    }

    /** What msg_queue_dequeue does while it holds the mutex; on an empty list the
        source would hand out the sentinel. */
    method TakeFirst() returns (q: Node<T>)
      requires Valid() && nodes != []
      modifies this`nodes, head`next, head`prev, nodes`next, nodes`prev
      ensures Valid() && q == old(nodes[0]) && nodes == old(nodes[1..])
      ensures q.item == old(Items(nodes)[0]) && Items(nodes) == old(Items(nodes)[1..])
    {
      assert Around(head, nodes)[0].next == nodes[0];
      q := head.next;
      Remove(head, q, nodes, 0);
      assert nodes[..0] + nodes[1..] == nodes[1..];
      nodes := nodes[1..];
    }
  }

  // --------------------------------------------------------------- the protocol

  /** Where a thread stands.  `HasRoom` to `Posting` are the steps of an enqueue
      after its wait, `HasItem` to `Returning` those of a dequeue. */
  datatype Pc<T> =
    | Idle
    | HasRoom(item: T)
    | Inserting(item: T)
    | Inserted
    | Posting
    | HasItem
    | Removing
    | Removed(item: T)
    | Returning(item: T)
  {
    predicate HoldsMutex() {
      Inserting? || Inserted? || Removing? || Removed?
    }

    /** Past its wait and not yet past its post. */
    predicate Busy() {
      !Idle?
    }

    /** Accounts for an item in the list: put there and not announced, or promised
        to this thread and not taken. */
    predicate Stocks() {
      Inserted? || Posting? || HasItem? || Removing?
    }
  }

  datatype Mutex = Free | HeldBy(thread: nat)

  /** `entered` and `left` record every item that was put in and taken out. */
  datatype State<T> = State(
    full: nat,
    empty: nat,
    mutex: Mutex,
    list: seq<T>,
    pcs: seq<Pc<T>>,
    entered: seq<T>,
    left: seq<T>)

  function Init<T>(threads: nat): State<T> {
    State(MAX_MSG_QUEUE_SIZE, 0, Free, [], seq(threads, _ => Idle), [], [])
  }

  /** A thread starts an enqueue, starts a dequeue, or goes on with what it does. */
  datatype Move<T> = StartPut(item: T) | StartTake | Go

  /** The step is not blocked on a semaphore or the mutex. */
  predicate Enabled<T>(s: State<T>, t: nat, m: Move<T>)
    requires t < |s.pcs|
  {
    match s.pcs[t]
    case Idle => (m.StartPut? && s.full > 0) || (m.StartTake? && s.empty > 0)
    case HasRoom(_) => m.Go? && s.mutex.Free?
    case HasItem => m.Go? && s.mutex.Free?
    case _ => m.Go?
  }

  function Step<T>(s: State<T>, t: nat, m: Move<T>): State<T>
    requires t < |s.pcs| && Enabled(s, t, m)
  {
    match s.pcs[t]
    case Idle =>
      if m.StartPut? then s.(full := s.full - 1, pcs := s.pcs[t := HasRoom(m.item)])
      else s.(empty := s.empty - 1, pcs := s.pcs[t := HasItem])
    case HasRoom(item) => s.(mutex := HeldBy(t), pcs := s.pcs[t := Inserting(item)])
    case Inserting(item) => s.(list := s.list + [item], entered := s.entered + [item], pcs := s.pcs[t := Inserted])
    case Inserted => s.(mutex := Free, pcs := s.pcs[t := Posting])
    case Posting => s.(empty := s.empty + 1, pcs := s.pcs[t := Idle])
    case HasItem => s.(mutex := HeldBy(t), pcs := s.pcs[t := Removing])
    case Removing =>
      if s.list == [] then s  // the sentinel: Safe shows that it does not come to this
      else s.(list := s.list[1..], left := s.left + [s.list[0]], pcs := s.pcs[t := Removed(s.list[0])])
    case Removed(item) => s.(mutex := Free, pcs := s.pcs[t := Returning(item)])
    case Returning(item) => s.(full := s.full + 1, pcs := s.pcs[t := Idle])
  }

  function BusyCount<T>(pcs: seq<Pc<T>>): nat {
    if pcs == [] then 0 else BusyCount(pcs[1..]) + if pcs[0].Busy() then 1 else 0
  }

  function StockCount<T>(pcs: seq<Pc<T>>): nat {
    if pcs == [] then 0 else StockCount(pcs[1..]) + if pcs[0].Stocks() then 1 else 0
  }

  lemma {:induction false} CountsUpdate<T>(pcs: seq<Pc<T>>, t: nat, pc: Pc<T>)
    requires t < |pcs|
    ensures BusyCount(pcs[t := pc]) == BusyCount(pcs) - (if pcs[t].Busy() then 1 else 0) + (if pc.Busy() then 1 else 0)
    ensures StockCount(pcs[t := pc]) == StockCount(pcs) - (if pcs[t].Stocks() then 1 else 0) + (if pc.Stocks() then 1 else 0)
    decreases |pcs|
  {
    if t > 0 {
      CountsUpdate(pcs[1..], t - 1, pc);
      assert pcs[t := pc][1..] == pcs[1..][t - 1 := pc];
    } else {
      assert pcs[t := pc][1..] == pcs[1..];
    }
  }

  lemma {:induction false} CountsShape<T>(pcs: seq<Pc<T>>)
    ensures StockCount(pcs) <= BusyCount(pcs) <= |pcs|
    ensures BusyCount(pcs) == 0 <==> forall t | 0 <= t < |pcs| :: pcs[t].Idle?
    ensures forall t | 0 <= t < |pcs| && pcs[t].Stocks() :: StockCount(pcs) > 0
    decreases |pcs|
  {
    if pcs != [] {
      CountsShape(pcs[1..]);
      assert forall t | 0 < t < |pcs| :: pcs[t] == pcs[1..][t - 1];
    }
  }

  /** What every interleaving keeps: every unit of the capacity is in a semaphore
      or with a thread between its wait and its post, the list holds what the
      semaphore and the threads account for, the mutex has one holder, and items
      come out in the order in which they went in. */
  predicate Safe<T(==)>(s: State<T>) {
    && s.full + s.empty + BusyCount(s.pcs) == MAX_MSG_QUEUE_SIZE
    && |s.list| == s.empty + StockCount(s.pcs)
    && (forall t | 0 <= t < |s.pcs| :: s.pcs[t].HoldsMutex() <==> s.mutex == HeldBy(t))
    && (s.mutex.HeldBy? ==> s.mutex.thread < |s.pcs|)
    && s.entered == s.left + s.list
  }

  lemma StepIsSafe<T>(s: State<T>, t: nat, m: Move<T>)
    requires t < |s.pcs| && Enabled(s, t, m) && Safe(s)
    ensures Safe(Step(s, t, m)) && |Step(s, t, m).pcs| == |s.pcs|
    ensures s.pcs[t].Removing? ==> s.list != []
    ensures |s.list| <= MAX_MSG_QUEUE_SIZE
  {
    CountsShape(s.pcs);
    var s' := Step(s, t, m);
    if s' != s {
      CountsUpdate(s.pcs, t, s'.pcs[t]);
    }
  }

  // ----------------------------------------------------------------- whole runs

  /** One entry of a schedule: which thread moves, and how. */
  datatype Turn<T> = Turn(thread: nat, move: Move<T>)

  /** Every turn of the schedule is one that its thread can take when it comes. */
  predicate Possible<T>(s: State<T>, turns: seq<Turn<T>>)
    decreases |turns|
  {
    turns == [] ||
    (&& turns[0].thread < |s.pcs|
     && Enabled(s, turns[0].thread, turns[0].move)
     && Possible(Step(s, turns[0].thread, turns[0].move), turns[1..]))
  }

  function Run<T>(s: State<T>, turns: seq<Turn<T>>): State<T>
    requires Possible(s, turns)
    decreases |turns|
  {
    if turns == [] then s else Run(Step(s, turns[0].thread, turns[0].move), turns[1..])
  }

  lemma {:induction false} AllIdle<T>(threads: nat)
    ensures BusyCount(Init<T>(threads).pcs) == 0 && StockCount(Init<T>(threads).pcs) == 0
  {
    var pcs := Init<T>(threads).pcs;
    CountsShape(pcs);
  }

  lemma {:induction false} RunStaysSafe<T>(s: State<T>, turns: seq<Turn<T>>)
    requires Possible(s, turns) && Safe(s)
    ensures Safe(Run(s, turns)) && |Run(s, turns).pcs| == |s.pcs|
    decreases |turns|
  {
    if turns != [] {
      StepIsSafe(s, turns[0].thread, turns[0].move);
      RunStaysSafe(Step(s, turns[0].thread, turns[0].move), turns[1..]);
    }
  }

  /** For any number of threads and any interleaving after msg_queue_init: the
      counts and the threads between wait and post always make up the capacity,
      the list never exceeds it, a thread about to remove finds an item, at most
      one thread is in the critical section, and what has come out is a prefix of
      what went in, the rest being in the list. */
  lemma {:induction false} EveryRunIsSafe<T>(threads: nat, turns: seq<Turn<T>>)
    requires Possible(Init(threads), turns)
    ensures var s := Run(Init(threads), turns);
      && s.full + s.empty + BusyCount(s.pcs) == MAX_MSG_QUEUE_SIZE
      && |s.list| <= MAX_MSG_QUEUE_SIZE
      && s.entered == s.left + s.list
      && (forall t | 0 <= t < |s.pcs| && s.pcs[t].Removing? :: s.list != [])
      && (forall t, u | 0 <= t < |s.pcs| && 0 <= u < |s.pcs| && s.pcs[t].HoldsMutex() && s.pcs[u].HoldsMutex() :: t == u)
  {
    AllIdle<T>(threads);
    RunStaysSafe(Init(threads), turns);
    CountsShape(Run(Init(threads), turns).pcs);
  }

  /** A thread that is not waiting for a semaphore can always go on, or the one
      that holds the mutex can. */
  lemma {:induction false} NoDeadlock<T>(s: State<T>, t: nat)
    requires Safe(s) && t < |s.pcs| && !s.pcs[t].Idle?
    ensures Enabled(s, t, Go) || (s.mutex.HeldBy? && Enabled(s, s.mutex.thread, Go))
  {
    if s.mutex.HeldBy? {
      assert s.pcs[s.mutex.thread].HoldsMutex();
    }
  }

  /** When every thread rests, the queue is full, empty or in between: a put is
      blocked exactly when it is full, a take exactly when it is empty. */
  lemma {:induction false} BlockedIff<T>(s: State<T>, t: nat, item: T)
    requires Safe(s) && t < |s.pcs|
    requires forall u | 0 <= u < |s.pcs| :: s.pcs[u].Idle?
    ensures Enabled(s, t, StartPut(item)) <==> |s.list| < MAX_MSG_QUEUE_SIZE
    ensures Enabled(s, t, StartTake) <==> s.list != []
  {
    CountsShape(s.pcs);
  }

  // ------------------------------------------------------- what the callers see

  /** The items that the threads asked to put, noted per thread when the call starts. */
  type Asked<T> = map<nat, T>

  function Ask<T>(asked: Asked<T>, turn: Turn<T>): Asked<T> {
    if turn.move.StartPut? then asked[turn.thread := turn.move.item] else asked
  }

  /** The threads on the way to insert carry what they were asked to put. */
  predicate Carries<T(==)>(s: State<T>, asked: Asked<T>) {
    forall t: nat | t < |s.pcs| && (s.pcs[t].HasRoom? || s.pcs[t].Inserting?) :: t in asked && asked[t] == s.pcs[t].item
  }

  function PutBy<T>(s: State<T>, asked: Asked<T>, t: nat): seq<T>
    requires t < |s.pcs| && Carries(s, asked)
  {
    if s.pcs[t].Inserting? then [asked[t]] else []
  }

  function TookBy<T>(s: State<T>, t: nat): seq<T>
    requires t < |s.pcs|
  {
    if s.pcs[t].Removed? then [s.pcs[t].item] else []
  }

  /** What goes in over a run, as the callers asked for it: in the order in which the
      threads insert. */
  function Puts<T>(s: State<T>, asked: Asked<T>, turns: seq<Turn<T>>): seq<T>
    requires Possible(s, turns) && Carries(s, asked)
    decreases |turns|
  {
    if turns == [] then []
    else
      var t := turns[0].thread;
      StepCarries(s, asked, turns[0]);
      PutBy(s, asked, t) + Puts(Step(s, t, turns[0].move), Ask(asked, turns[0]), turns[1..])
  }

  lemma StepCarries<T>(s: State<T>, asked: Asked<T>, turn: Turn<T>)
    requires turn.thread < |s.pcs| && Enabled(s, turn.thread, turn.move) && Carries(s, asked)
    ensures Carries(Step(s, turn.thread, turn.move), Ask(asked, turn))
  {
  }

  /** What the takers have in hand as they give the mutex back. */
  function Takes<T>(s: State<T>, turns: seq<Turn<T>>): seq<T>
    requires Possible(s, turns)
    decreases |turns|
  {
    if turns == [] then []
    else
      var t := turns[0].thread;
      TookBy(s, t) + Takes(Step(s, t, turns[0].move), turns[1..])
  }

  /** The item that the holder of the mutex has just taken off the list. */
  function InHand<T>(s: State<T>): seq<T> {
    if s.mutex.HeldBy? && s.mutex.thread < |s.pcs| && s.pcs[s.mutex.thread].Removed?
              then [s.pcs[s.mutex.thread].item] else []
  }

  function Stock<T>(s: State<T>): seq<T> {
    InHand(s) + s.list
  }

  /** One step: what the taker holds and what stands in the list come from what stood
      there and what was asked to be put, in that order. */
  lemma StepDelivers<T>(s: State<T>, asked: Asked<T>, turn: Turn<T>)
    requires turn.thread < |s.pcs| && Enabled(s, turn.thread, turn.move) && Safe(s) && Carries(s, asked)
    ensures Stock(s) + PutBy(s, asked, turn.thread) == TookBy(s, turn.thread) + Stock(Step(s, turn.thread, turn.move))
  {
    CountsShape(s.pcs);
    var t, s' := turn.thread, Step(s, turn.thread, turn.move);
    assert s.pcs[t].HoldsMutex() ==> s.mutex == HeldBy(t);
    assert s.mutex.HeldBy? ==> s.pcs[s.mutex.thread].HoldsMutex();
    if s.pcs[t].Removing? {
      assert s.list == [s.list[0]] + s.list[1..];
    }
  }

  /** For any number of threads and any interleaving: what the takers get, in the order
      in which they remove, with what is in hand and what is still in the list, is
      what the putters asked for, in the order in which they insert. */
  lemma {:induction false} Delivered<T>(s: State<T>, asked: Asked<T>, turns: seq<Turn<T>>)
    requires Possible(s, turns) && Safe(s) && Carries(s, asked)
    ensures Stock(s) + Puts(s, asked, turns) == Takes(s, turns) + Stock(Run(s, turns))
    decreases |turns|
  {
    if turns != [] {
      var t, next := turns[0].thread, Step(s, turns[0].thread, turns[0].move);
      StepIsSafe(s, t, turns[0].move);
      StepCarries(s, asked, turns[0]);
      StepDelivers(s, asked, turns[0]);
      Delivered(next, Ask(asked, turns[0]), turns[1..]);
      Chained(Stock(s), PutBy(s, asked, t), TookBy(s, t), Stock(next), Puts(next, Ask(asked, turns[0]), turns[1..]),
              Takes(next, turns[1..]), Stock(Run(next, turns[1..])));
    }
  }

  lemma Chained<T>(a: seq<T>, put: seq<T>, took: seq<T>, b: seq<T>, puts: seq<T>, takes: seq<T>, c: seq<T>)
    requires a + put == took + b && b + puts == takes + c
    ensures a + (put + puts) == took + takes + c
  {
    assert a + (put + puts) == (a + put) + puts == took + (b + puts);
  }

  /** So from the initialization on: the takes are a prefix of the puts. */
  lemma TakesArePuts<T>(threads: nat, turns: seq<Turn<T>>)
    requires Possible(Init<T>(threads), turns)
    ensures Takes(Init<T>(threads), turns) <= Puts(Init<T>(threads), map[], turns)
  {
    NothingYet<T>(threads);
    var s := Init<T>(threads);
    Delivered(s, map[], turns);
    Leads(Stock(s), Puts(s, map[], turns), Takes(s, turns), Stock(Run(s, turns)));
  }

  lemma NothingYet<T>(threads: nat)
    ensures Safe(Init<T>(threads)) && Carries(Init<T>(threads), map[]) && Stock(Init<T>(threads)) == []
  {
    AllIdle<T>(threads);
    var s := Init<T>(threads);
    assert Safe(s);
    assert Carries(s, map[]) by {
      forall t: nat | t < |s.pcs| ensures s.pcs[t].Idle? {
      }
    }
    assert InHand(s) == [] && s.list == [];
  }

  lemma Leads<T>(none: seq<T>, puts: seq<T>, takes: seq<T>, stock: seq<T>)
    requires none == [] && none + puts == takes + stock
    ensures takes <= puts
  {
    assert none + puts == puts;
  }

  /** And each taker returns what it removed. */
  lemma TakerReturns<T>(s: State<T>, t: nat, m: Move<T>)
    requires t < |s.pcs| && Enabled(s, t, m)
    ensures s.pcs[t].Removed? ==> Step(s, t, m).pcs[t] == Returning(s.pcs[t].item)
    ensures s.pcs[t].Returning? ==> Step(s, t, m) == s.(full := s.full + 1, pcs := s.pcs[t := Idle])
    ensures forall u | 0 <= u < |s.pcs| && u != t :: Step(s, t, m).pcs[u] == s.pcs[u]
  {
  }

  /** The moves that a call still has to make. */
  function MovesLeft<T>(pc: Pc<T>): nat {
    match pc
    case Idle => 0
    case HasRoom(_) => 4
    case Inserting(_) => 3
    case Inserted => 2
    case Posting => 1
    case HasItem => 4
    case Removing => 3
    case Removed(_) => 2
    case Returning(_) => 1
  }

  /** Every move of a thread brings its call one move nearer to its end, and a new call
      takes five with its wait. */
  lemma CallsEnd<T>(s: State<T>, t: nat, m: Move<T>)
    requires Safe(s) && t < |s.pcs| && Enabled(s, t, m)
    ensures MovesLeft(Step(s, t, m).pcs[t]) == if s.pcs[t].Idle? then 4 else MovesLeft(s.pcs[t]) - 1
  {
    StepIsSafe(s, t, m);
  }
}
