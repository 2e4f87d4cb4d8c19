/** The vehicle lists as the source keeps them: circular doubly linked lists whose
    objects are updated and relinked in place, and the table of all the lists. */
module Vehicles {
  import opened VehicleRecords
  import opened CircularList

  /** One list; `nodes` are its objects in list order and `vehicles` what is in them. */
  class VehicleList {
    const head: Node<Vehicle>
    ghost var nodes: seq<Node<Vehicle>>
    ghost var vehicles: seq<Vehicle>
    ghost var Repr: set<object>

    ghost predicate Valid()
      reads this, Repr
    {
      && this in Repr && head in Repr
      && (forall i | 0 <= i < |nodes| :: nodes[i] in Repr)
      && Ring(head, nodes)
      && |vehicles| == |nodes|
      && (forall i | 0 <= i < |nodes| :: nodes[i].item == vehicles[i])
      && AllValid(vehicles)
    }

    constructor ()
      ensures Valid() && fresh(Repr) && vehicles == []
    {
      head := new Node(Fresh([], VEHICLE_NORMAL));
      nodes, vehicles := [], [];
      new;
      Repr := {this, head};
    }

    /** The first object of that name and its place, or null. */
    method Find(name: Name) returns (q: Node?<Vehicle>, ghost k: nat)
      requires Valid()
      ensures k == Search(vehicles, name)
      ensures if q == null then k == |nodes| else k < |nodes| && q == nodes[k]
    {
      var current := head.next;
      k := 0;
      assert current == Around(head, nodes)[1] by {
        assert Around(head, nodes)[0].next == Around(head, nodes)[1];
      }
      while current != head
        invariant k <= |nodes| && current == Around(head, nodes)[k + 1]
        invariant Search(vehicles, name) == k + Search(vehicles[k..], name)
        decreases |nodes| - k
      {
        assert k < |nodes| && current == nodes[k];
        if current.item.name == name {
          return current, k;
        }
        assert vehicles[k..][1..] == vehicles[k + 1..];
        assert Around(head, nodes)[k + 1].next == Around(head, nodes)[k + 2];
        current := current.next;
        k := k + 1;
      }
      RingDistinct(head, nodes);
      return null, k;
    }

    method LinkFirst(q: Node<Vehicle>)
      requires Valid() && q in Repr && q != head && q !in nodes && q.item.Valid()
      modifies Repr
      ensures Valid() && Repr == old(Repr)
      ensures vehicles == [old(q.item)] + old(vehicles)
    {
      InsertHead(head, q, nodes);
      nodes, vehicles := [q] + nodes, [q.item] + vehicles;
    }

    /** Makes a new object for the vehicle and links it in at the front. */
    method AddFirst(m: Message)
      requires Valid()
      modifies Repr
      ensures Valid() && fresh(Repr - old(Repr))
      ensures vehicles == [Fresh(m.name, m.kind).Heard(m.record)] + old(vehicles)
    {
      HeardIsLatest(Fresh(m.name, m.kind), m.record);
      var q := new Node(Fresh(m.name, m.kind).Heard(m.record));
      Repr := Repr + {q};
      LinkFirst(q);
    }

    method Update(q: Node<Vehicle>, record: Record, ghost k: nat)
      requires Valid() && k < |nodes| && q == nodes[k]
      modifies Repr
      ensures Valid() && Repr == old(Repr) && nodes == old(nodes)
      ensures vehicles == old(vehicles)[k := old(vehicles)[k].Heard(record)]
    {
      HeardIsLatest(q.item, record);
      RingDistinct(head, nodes);
      q.item := q.item.Heard(record);
      vehicles := vehicles[k := q.item];
    }

    method Unlink(q: Node<Vehicle>, ghost k: nat)
      requires Valid() && k < |nodes| && q == nodes[k]
      modifies Repr
      ensures Valid() && Repr == old(Repr) && |nodes| == old(|nodes|) - 1
      ensures vehicles == old(vehicles[..k] + vehicles[k + 1..])
      ensures q !in nodes && q != head && q.item == old(q.item)
      ensures q.next == if k < |nodes| then nodes[k] else head
    {
      RingNext(head, nodes, k);
      RingDistinct(head, nodes);
      Remove(head, q, nodes, k);
      nodes := nodes[..k] + nodes[k + 1..];
      vehicles := vehicles[..k] + vehicles[k + 1..];
    }

    method MoveToFront(q: Node<Vehicle>, ghost k: nat)
      requires Valid() && k < |nodes| && q == nodes[k]
      modifies Repr
      ensures Valid() && Repr == old(Repr)
      ensures vehicles == [old(vehicles)[k]] + (old(vehicles)[..k] + old(vehicles)[k + 1..])
    {
      Unlink(q, k);
      LinkFirst(q);
    }

    /** A message of a special vehicle: its object takes the record and moves to
        the front, unless it is there already. */
    method InsertSpecial(m: Message, ghost id: ListId)
      requires Valid() && id.Special?
      modifies Repr
      ensures Valid() && fresh(Repr - old(Repr))
      ensures vehicles == Insert(id, old(vehicles), m)
    {
      var q, k := Find(m.name);
      if q == null {
        AddFirst(m);
      } else {
        Update(q, m.record, k);
        RingNext(head, nodes, k);
        if head.next != q {
          MoveToFront(q, k);
        }
      }
    }

    /** A message of a normal vehicle: its object takes the record where it is. */
    method InsertNormal(m: Message, ghost id: ListId)
      requires Valid() && id.Normal?
      modifies Repr
      ensures Valid() && fresh(Repr - old(Repr))
      ensures vehicles == Insert(id, old(vehicles), m)
    {
      var q, k := Find(m.name);
      if q == null {
        AddFirst(m);
      } else {
        Update(q, m.record, k);
      }
    }

    /** Looks at the k-th object and unlinks it if it is too old; `after` is the
        place of the next one. */
    method Visit(q: Node<Vehicle>, now: int, ghost k: nat) returns (next: Node<Vehicle>, ghost after: nat)
      requires Valid() && k < |nodes| && q == nodes[k]
      modifies Repr
      ensures Valid() && Repr == old(Repr)
      ensures after <= |nodes| && next == if after < |nodes| then nodes[after] else head
      ensures |nodes| - after == old(|nodes|) - k - 1
      ensures after == if old(vehicles[k]).Expired(now) then k else k + 1
      ensures vehicles == old(if vehicles[k].Expired(now) then vehicles[..k] + vehicles[k + 1..] else vehicles)
    {
      after := k;
      if q.item.Expired(now) {
        Unlink(q, k);
      } else {
        RingNext(head, nodes, k);
        after := k + 1;
      }
      next := q.next;
    }

    /** Of the vehicles that `was` lists, the first i have been looked at, k of them
        stay, and `current` is the next. */
    ghost predicate Sweeping(was: seq<Vehicle>, i: nat, k: nat, current: Node<Vehicle>, now: int)
      reads this, Repr
    {
      && Valid() && AllValid(was) && k <= |nodes| && i <= |was| && |was| - i == |nodes| - k
      && current == (if k < |nodes| then nodes[k] else head)
      && vehicles == VehicleRecords.Collect(was[..i], now) + was[i..]
      && k == |VehicleRecords.Collect(was[..i], now)|
    }

    method SweepOne(ghost was: seq<Vehicle>, ghost i: nat, current: Node<Vehicle>, now: int, ghost k: nat)
      returns (next: Node<Vehicle>, ghost after: nat)
      requires Sweeping(was, i, k, current, now) && current != head
      modifies Repr
      ensures i < |was| && Sweeping(was, i + 1, after, next, now) && Repr == old(Repr)
    {
      CollectOne(was, i, now);
      next, after := Visit(current, now, k);
    }

    /** Unlinks the objects that are too old, going round once. */
    method Collect(now: int)
      requires Valid()
      modifies Repr
      ensures Valid() && Repr == old(Repr)
      ensures vehicles == VehicleRecords.Collect(old(vehicles), now)
    {
      ghost var was, i, k := vehicles, 0, 0;
      assert Around(head, nodes)[0].next == Around(head, nodes)[1];
      var current := head.next;
      while current != head
        invariant Sweeping(was, i, k, current, now) && Repr == old(Repr)
        decreases |was| - i
      {
        current, k := SweepOne(was, i, current, now, k);
        i := i + 1;
      }
      RingDistinct(head, nodes);
      assert was[..i] == was;
    }
  }

  /** What is left of the list when one more vehicle has been looked at. */
  lemma CollectOne(was: seq<Vehicle>, i: nat, now: int)
    requires AllValid(was) && i < |was|
    ensures var k := |VehicleRecords.Collect(was[..i], now)|;
      var list := VehicleRecords.Collect(was[..i], now) + was[i..];
      var kept := VehicleRecords.Collect(was[..i + 1], now);
      && was[i].Valid() && k < |list|
      && (if was[i].Expired(now) then list[..k] + list[k + 1..] else list) == kept + was[i + 1..]
      && |kept| == if was[i].Expired(now) then k else k + 1
  {
    CollectAppend(was[..i], was[i], now);
    assert was[..i + 1] == was[..i] + [was[i]];
    TakeOne(VehicleRecords.Collect(was[..i], now), was, i);
  }

  lemma TakeOne(kept: seq<Vehicle>, was: seq<Vehicle>, i: nat)
    requires i < |was|
    ensures var list, k := kept + was[i..], |kept|;
      && list == kept + [was[i]] + was[i + 1..]
      && list[..k] + list[k + 1..] == kept + was[i + 1..]
      && kept + [] == kept
  {
    var tail := was[i..];
    assert tail[0] == was[i] && tail[1..] == was[i + 1..];
    assert tail == [was[i]] + tail[1..];
  }

  // ---------------------------------------------------------------- all the lists

  const LISTS := VEHICLE_TYPE_NUMBER + HASH_TABLE_SIZE

  /** The lists of the special kinds come first, then the buckets. */
  function IdOf(i: nat): ListId {
    if i < VEHICLE_TYPE_NUMBER then Special(i) else Normal(i - VEHICLE_TYPE_NUMBER)
  }

  /** The hash loop: one character at a time, 64 bits wide. */
  method Djb2Hash(name: Name) returns (b: nat)
    ensures b == Bucket(name)
  {
    var hash := 5381;
    var i := 0;
    while i < |name|
      invariant i <= |name| && hash == Djb2(name[..i])
    {
      hash := (hash * 33 + name[i]) % WORD;
      i := i + 1;
      assert name[..i][..i - 1] == name[..i - 1];
    }
    assert name[..i] == name;
    b := hash % HASH_TABLE_SIZE;
  }

  /** The lists and, as a ghost, everything that has happened to them. */
  class VehicleTable {
    const lists: seq<VehicleList>
    ghost var events: seq<Event>
    ghost var Repr: set<object>

    /** The lists are well formed and share nothing. */
    ghost predicate Wired()
      reads this, Repr
    {
      && this in Repr && |lists| == LISTS
      && (forall i | 0 <= i < |lists| :: lists[i] in Repr && lists[i].Repr <= Repr && this !in lists[i].Repr)
      && (forall i | 0 <= i < |lists| :: lists[i].Valid())
      && (forall i, j | 0 <= i < j < |lists| :: lists[i].Repr !! lists[j].Repr)
    }

    /** Every list is what the events make of it. */
    ghost predicate Valid()
      reads this, Repr
    {
      Wired() && forall i | 0 <= i < |lists| :: lists[i].vehicles == List(IdOf(i), events)
    }

    constructor ()
      ensures Valid() && fresh(Repr) && events == []
    {
      var made: seq<VehicleList> := [];
      ghost var all: set<object> := {};
      while |made| < LISTS
        invariant |made| <= LISTS && fresh(all)
        invariant forall i | 0 <= i < |made| ::
          made[i] in all && made[i].Repr <= all && made[i].Valid() && made[i].vehicles == []
        invariant forall i, j | 0 <= i < j < |made| :: made[i].Repr !! made[j].Repr
      {
        var list := new VehicleList();
        made, all := made + [list], all + list.Repr;
      }
      lists, events, Repr := made, [], all + {this};
    }

    /** All is well wired but for what the i-th list has newly allocated. */
    ghost predicate Outgrown(i: nat, was: set<object>)
      reads this, Repr, lists, set j, o | 0 <= j < |lists| && o in lists[j].Repr :: o
    {
      && this in Repr && |lists| == LISTS && i < LISTS
      && (forall j | 0 <= j < |lists| :: lists[j] in Repr && lists[j].Valid())
      && (forall j | 0 <= j < |lists| && j != i :: lists[j].Repr <= Repr && this !in lists[j].Repr)
      && was <= Repr && this !in was
      && (forall o | o in lists[i].Repr - was :: o !in Repr)
      && (forall j | 0 <= j < |lists| && j != i :: lists[j].Repr !! was)
      && (forall j, k | 0 <= j < k < |lists| && j != i && k != i :: lists[j].Repr !! lists[k].Repr)
    }

    ghost method Absorb(i: nat, was: set<object>)
      requires Outgrown(i, was)
      modifies this`Repr
      ensures Wired() && Repr == old(Repr) + lists[i].Repr
    {
      Repr := Repr + lists[i].Repr;
    }

    /** special_OBU_record_insert: no other list notices. */
    method InsertSpecial(kind: nat, m: Message)
      requires Wired() && kind < VEHICLE_TYPE_NUMBER
      modifies Repr
      ensures Wired() && fresh(Repr - old(Repr)) && events == old(events)
      ensures lists[kind].vehicles == Insert(Special(kind), old(lists[kind].vehicles), m)
      ensures forall j | 0 <= j < LISTS && j != kind :: lists[j].vehicles == old(lists[j].vehicles)
    {
      var list := lists[kind];
      list.InsertSpecial(m, Special(kind));
      Absorb(kind, old(list.Repr));
    }

    /** normal_OBU_record_insert: no other list notices. */
    method InsertNormal(m: Message) returns (i: nat)
      requires Wired()
      modifies Repr
      ensures Wired() && fresh(Repr - old(Repr)) && events == old(events)
      ensures i == VEHICLE_TYPE_NUMBER + Bucket(m.name)
      ensures lists[i].vehicles == Insert(IdOf(i), old(lists[i].vehicles), m)
      ensures forall j | 0 <= j < LISTS && j != i :: lists[j].vehicles == old(lists[j].vehicles)
    {
      var b := Djb2Hash(m.name);
      i := VEHICLE_TYPE_NUMBER + b;
      var list := lists[i];
      list.InsertNormal(m, Normal(b));
      Absorb(i, old(list.Repr));
    }

    /** Routes a message to its list; one of an unknown kind is dropped. */
    method Receive(m: Message)
      requires Valid()
      modifies Repr
      ensures Valid() && fresh(Repr - old(Repr)) && events == old(events) + [Hear(m)]
    {
      if m.kind == VEHICLE_NORMAL {
        var _ := InsertNormal(m);
      } else if 0 <= m.kind < VEHICLE_TYPE_NUMBER {
        InsertSpecial(m.kind, m);
      }
      ListsSnoc(events, Hear(m));
      events := events + [Hear(m)];
    }

    method SweepAt(i: nat, now: int)
      requires Wired() && i < LISTS
      modifies Repr
      ensures Wired() && Repr == old(Repr) && events == old(events)
      ensures lists[i].vehicles == VehicleRecords.Collect(old(lists[i].vehicles), now)
      ensures forall j | 0 <= j < LISTS && j != i :: lists[j].vehicles == old(lists[j].vehicles)
    {
      lists[i].Collect(now);
    }

    /** One of the two loops of the garbage collection. */
    method SweepLists(from: nat, to: nat, now: int)
      requires Wired() && from <= to <= LISTS
      modifies Repr
      ensures Wired() && Repr == old(Repr) && events == old(events)
      ensures forall i | from <= i < to :: lists[i].vehicles == VehicleRecords.Collect(old(lists[i].vehicles), now)
      ensures forall i | 0 <= i < LISTS && !(from <= i < to) :: lists[i].vehicles == old(lists[i].vehicles)
    {
      var i := from;
      while i < to
        invariant from <= i <= to && Wired() && Repr == old(Repr) && events == old(events)
        invariant forall j | from <= j < i :: lists[j].vehicles == VehicleRecords.Collect(old(lists[j].vehicles), now)
        invariant forall j | 0 <= j < LISTS && !(from <= j < i) :: lists[j].vehicles == old(lists[j].vehicles)
      {
        SweepAt(i, now);
        i := i + 1;
      }
    }

    /** Drops what is too old, first from the buckets, then from the special lists. */
    method GarbageCollection(now: int)
      requires Valid()
      modifies Repr
      ensures Valid() && Repr == old(Repr) && events == old(events) + [Sweep(now)]
    {
      SweepLists(VEHICLE_TYPE_NUMBER, LISTS, now);
      SweepLists(0, VEHICLE_TYPE_NUMBER, now);
      ListsSnoc(events, Sweep(now));
      events := events + [Sweep(now)];
    }
  }

  lemma ListsSnoc(events: seq<Event>, e: Event)
    ensures forall j: nat :: List(IdOf(j), events + [e]) == Next(IdOf(j), List(IdOf(j), events), e)
  {
    assert (events + [e])[..|events|] == events;
  }
}
