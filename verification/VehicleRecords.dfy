/** The vehicles heard by the roadside unit: the ring of records that each one
    carries, the lists that hold them, and what whole runs leave in those lists. */
module VehicleRecords {
  import opened FixedWidth
  import opened Wrappers

  const OBU_RECORD_RING_CAPACITY := 5
  const OBU_OBJECT_EXPIRE_TIME := 60
  const HASH_TABLE_SIZE := 10
  const VEHICLE_NORMAL := -1
  const VEHICLE_TYPE_NUMBER := 4

  /** A non-zero `char` of the platform, which is signed. */
  type Char = c: int | -128 <= c < 128 && c != 0 witness 1
  type Name = seq<Char>

  datatype Record = Record(time: int, payload: int)

  /** What the receiver hands over: who was heard, of which kind, and the record. */
  datatype Message = Message(name: Name, kind: int, record: Record)

  // -------------------------------------------------------- one vehicle's records

  /** The ring inside an OBU object. */
  datatype Vehicle = Vehicle(name: Name, kind: int, records: seq<Record>, first: nat, last: nat, length: int)
  {
    predicate Valid() {
      && |records| == OBU_RECORD_RING_CAPACITY
      && first < OBU_RECORD_RING_CAPACITY
      && last < OBU_RECORD_RING_CAPACITY
    }

    function Latest(): Record
      requires Valid()
    {
      records[last]
    }

    predicate Full() {
      (last + 1) % OBU_RECORD_RING_CAPACITY == first
    }

    /** Moves the write position twice, as the source does. */
    function Push(record: Record): Vehicle
      requires Valid()
    {
      var at := ((last + 1) % OBU_RECORD_RING_CAPACITY + 1) % OBU_RECORD_RING_CAPACITY;
      this.(records := records[at := record], last := at, length := (length + 1) % 256)
    }

    function Pop(): Vehicle {
      this.(first := (first + 1) % OBU_RECORD_RING_CAPACITY, length := (length - 1) % 256)
    }

    function Heard(record: Record): Vehicle
      requires Valid()
    {
      if Full() then Pop().Push(record) else Push(record)
    }

    predicate Expired(now: int)
      requires Valid()
    {
      now - Latest().time > OBU_OBJECT_EXPIRE_TIME
    }
  }

  const ZERO_RECORD := Record(0, 0)

  /** A new object: all of it zero but for the name and the kind. */
  function Fresh(name: Name, kind: int): (v: Vehicle)
    ensures v.Valid()
  {
    Vehicle(name, kind, [ZERO_RECORD, ZERO_RECORD, ZERO_RECORD, ZERO_RECORD, ZERO_RECORD], 0, 0, 0)
  }

  /** The record goes two places on, and becomes the latest. */
  lemma HeardIsLatest(v: Vehicle, record: Record)
    requires v.Valid()
    ensures var w := v.Heard(record);
      && w.Valid() && w.Latest() == record
      && w.name == v.name && w.kind == v.kind
      && w.last == (v.last + 2) % OBU_RECORD_RING_CAPACITY
      && w.records == v.records[w.last := record]
  {
    StepTwice(v.last);
  }

  lemma StepTwice(last: nat)
    requires last < OBU_RECORD_RING_CAPACITY
    ensures ((last + 1) % OBU_RECORD_RING_CAPACITY + 1) % OBU_RECORD_RING_CAPACITY == (last + 2) % OBU_RECORD_RING_CAPACITY
  {
  }

  function HeardAll(name: Name, kind: int, records: seq<Record>): (v: Vehicle)
    ensures v.Valid() && v.name == name && v.kind == kind
  {
    if records == [] then Fresh(name, kind)
    else HeardAll(name, kind, records[..|records| - 1]).Heard(records[|records| - 1])
  }

  /** The place written k records ago: two steps back each time. */
  function Place(last: nat, k: nat): (r: nat)
    ensures r < OBU_RECORD_RING_CAPACITY
  {
    (last + 3 * k) % OBU_RECORD_RING_CAPACITY
  }

  lemma PlaceBack(last: nat, k: nat)
    requires last < OBU_RECORD_RING_CAPACITY && 0 < k < OBU_RECORD_RING_CAPACITY
    ensures var at := (last + 2) % OBU_RECORD_RING_CAPACITY;
      Place(at, 0) == at && Place(at, k) == Place(last, k - 1) != at
  {
    assert k == 1 || k == 2 || k == 3 || k == 4;
    assert last == 0 || last == 1 || last == 2 || last == 3 || last == 4;
  }

  lemma HeardMovesBack(v: Vehicle, record: Record, k: nat)
    requires v.Valid() && 0 < k < OBU_RECORD_RING_CAPACITY
    ensures var w := v.Heard(record);
      && w.Valid()
      && w.records[Place(w.last, 0)] == record
      && w.records[Place(w.last, k)] == v.records[Place(v.last, k - 1)]
  {
    HeardIsLatest(v, record);
    PlaceBack(v.last, k);
  }

  /** Although the write position skips a place at every push, the ring holds the
      last five records heard: stepping back by two from the write position meets
      every place once. */
  lemma {:induction false} RingHoldsLastFive(name: Name, kind: int, records: seq<Record>, k: nat)
    requires k < OBU_RECORD_RING_CAPACITY && k < |records|
    ensures var v := HeardAll(name, kind, records);
      v.records[Place(v.last, k)] == records[|records| - 1 - k]
    decreases |records|
  {
    var n := |records| - 1;
    var v := HeardAll(name, kind, records[..n]);
    if k == 0 {
      HeardMovesBack(v, records[n], 1);
    } else {
      HeardMovesBack(v, records[n], k);
      RingHoldsLastFive(name, kind, records[..n], k - 1);
    }
  }

  /** Where n records leave the pointers and the length, in closed form. */
  lemma {:induction false} RingPointers(name: Name, kind: int, records: seq<Record>)
    ensures var v := HeardAll(name, kind, records); var n := |records|;
      && v.first == n / 3 % OBU_RECORD_RING_CAPACITY
      && v.last == 2 * n % OBU_RECORD_RING_CAPACITY
      && v.length == (n - n / 3) % 256
    decreases |records|
  {
    if records != [] {
      var n := |records| - 1;
      var v := HeardAll(name, kind, records[..n]);
      RingPointers(name, kind, records[..n]);
      HeardIsLatest(v, records[n]);
      FullEveryThird(n);
      ModSteps(n - n / 3);
    }
  }

  lemma FullEveryThird(n: nat)
    ensures (2 * n % OBU_RECORD_RING_CAPACITY + 1) % OBU_RECORD_RING_CAPACITY == n / 3 % OBU_RECORD_RING_CAPACITY
            <==> n % 3 == 2
    ensures (n + 1) / 3 == n / 3 + if n % 3 == 2 then 1 else 0
    ensures (2 * n % OBU_RECORD_RING_CAPACITY + 2) % OBU_RECORD_RING_CAPACITY == 2 * (n + 1) % OBU_RECORD_RING_CAPACITY
    ensures (n / 3 % OBU_RECORD_RING_CAPACITY + 1) % OBU_RECORD_RING_CAPACITY == (n / 3 + 1) % OBU_RECORD_RING_CAPACITY
  {
    // n == 15 * c + 3 * m + r: the pointers are m and m + 2 * r, modulo 5
    var q, r := n / 3, n % 3;
    var c, m := q / 5, q % 5;
    var at := if m + 2 * r < 5 then m + 2 * r else m + 2 * r - 5;
    DivModUnique(2 * n, 5, if m + 2 * r < 5 then 6 * c + m else 6 * c + m + 1, at);
    DivModUnique(2 * n + 2, 5,
      if m + 2 * r + 2 < 5 then 6 * c + m else if m + 2 * r + 2 < 10 then 6 * c + m + 1 else 6 * c + m + 2,
      (at + 2) % 5);
    DivModUnique(q + 1, 5, if m == 4 then c + 1 else c, (m + 1) % 5);
  }

  lemma ModSteps(x: int)
    ensures (x % 256 + 1) % 256 == (x + 1) % 256
    ensures ((x % 256 - 1) % 256 + 1) % 256 == x % 256
  {
  }

  /** The length field is meant to count the records in the ring.  It does for
      the first two records, and after that exactly when two thirds of the number
      heard, modulo 256, happen to be the capacity. */
  lemma {:induction false} LengthCountsIff(name: Name, kind: int, records: seq<Record>)
    ensures var n := |records|;
      var held := if n < OBU_RECORD_RING_CAPACITY then n else OBU_RECORD_RING_CAPACITY;
      HeardAll(name, kind, records).length == held <==>
        n < 3 || (n >= OBU_RECORD_RING_CAPACITY && (n - n / 3) % 256 == OBU_RECORD_RING_CAPACITY)
  {
    RingPointers(name, kind, records);
  }

  /** After three records the length is two. */
  lemma LengthOfThree(name: Name, kind: int, records: seq<Record>)
    requires |records| == 3
    ensures HeardAll(name, kind, records).length == 2
  {
    RingPointers(name, kind, records);
  }

  // ------------------------------------------------------------------- one bucket

  const WORD := 0x1_0000_0000_0000_0000

  /** The running hash of djb2_hash, 64 bits wide. */
  function Djb2(name: Name): nat {
    if name == [] then 5381 else (Djb2(name[..|name| - 1]) * 33 + name[|name| - 1]) % WORD
  }

  function Power33(n: nat): nat {
    if n == 0 then 1 else 33 * Power33(n - 1)
  }

  function Polynomial(name: Name): int {
    if name == [] then 0 else name[0] * Power33(|name| - 1) + Polynomial(name[1..])
  }

  lemma {:induction false} PolynomialSnoc(name: Name, c: Char)
    ensures Polynomial(name + [c]) == 33 * Polynomial(name) + c
    decreases |name|
  {
    if name == [] {
      assert (name + [c])[1..] == [];
    } else {
      PolynomialSnoc(name[1..], c);
      assert (name + [c])[1..] == name[1..] + [c];
      assert Power33(|name|) == 33 * Power33(|name| - 1);
      assert name[0] * (33 * Power33(|name| - 1)) == 33 * (name[0] * Power33(|name| - 1));
    }
  }

  lemma ReduceOnce(x: int, y: int, c: int)
    requires x == y % WORD
    ensures (x * 33 + c) % WORD == (y * 33 + c) % WORD
  {
    var q := y / WORD;
    assert y * 33 + c == (x * 33 + c) + WORD * (33 * q);
  }

  /** Wrapping at every character is wrapping once at the end: the hash is the
      polynomial in 33 with the characters as coefficients. */
  lemma {:induction false} HashIsPolynomial(name: Name)
    ensures Djb2(name) == (5381 * Power33(|name|) + Polynomial(name)) % WORD
    decreases |name|
  {
    if name != [] {
      var init, c := name[..|name| - 1], name[|name| - 1];
      HashIsPolynomial(init);
      PolynomialSnoc(init, c);
      assert init + [c] == name;
      ReduceOnce(Djb2(init), 5381 * Power33(|init|) + Polynomial(init), c);
    }
  }

  function Bucket(name: Name): (b: nat)
    ensures b < HASH_TABLE_SIZE
  {
    Djb2(name) % HASH_TABLE_SIZE
  }

  // ----------------------------------------------------------------- one list

  /** The lists: one a kind of special vehicle, and the buckets of the others. */
  datatype ListId = Special(kind: nat) | Normal(bucket: nat)

  /** Where a message goes; an unknown kind goes nowhere. */
  function Route(m: Message): (r: Option<ListId>)
    ensures r.Some? && r.value.Normal? ==> r.value.bucket < HASH_TABLE_SIZE
    ensures r.Some? && r.value.Special? ==> r.value.kind < VEHICLE_TYPE_NUMBER
  {
    if m.kind == VEHICLE_NORMAL then Some(Normal(Bucket(m.name)))
    else if 0 <= m.kind < VEHICLE_TYPE_NUMBER then Some(Special(m.kind))
    else None
  }

  predicate AllValid(list: seq<Vehicle>) {
    forall i | 0 <= i < |list| :: list[i].Valid()
  }

  /** The position of the vehicle, or the length of the list. */
  function Search(list: seq<Vehicle>, name: Name): (k: nat)
    ensures k <= |list|
    ensures k < |list| ==> list[k].name == name
  {
    if list == [] || list[0].name == name then 0 else 1 + Search(list[1..], name)
  }

  lemma {:induction false} SearchIsFirst(list: seq<Vehicle>, name: Name, i: nat)
    requires i < Search(list, name)
    ensures list[i].name != name
  {
    if i > 0 {
      SearchIsFirst(list[1..], name, i - 1);
    }
  }

  function Known(list: seq<Vehicle>, m: Message): (v: Vehicle)
    requires AllValid(list)
    ensures v.Valid()
  {
    var k := Search(list, m.name);
    if k < |list| then list[k] else Fresh(m.name, m.kind)
  }

  /** What an accepted message makes of its list: a new vehicle goes to the front;
      a known one takes the record, and a special one moves to the front. */
  function Insert(id: ListId, list: seq<Vehicle>, m: Message): seq<Vehicle>
    requires AllValid(list)
  {
    var k := Search(list, m.name);
    var v := Known(list, m).Heard(m.record);
    if k == |list| then [v] + list
    else if id.Special? then [v] + (list[..k] + list[k + 1..])
    else list[k := v]
  }

  function Collect(list: seq<Vehicle>, now: int): seq<Vehicle>
    requires AllValid(list)
  {
    if list == [] then []
    else if list[0].Expired(now) then Collect(list[1..], now)
    else [list[0]] + Collect(list[1..], now)
  }

  lemma {:induction false} CollectAppend(list: seq<Vehicle>, v: Vehicle, now: int)
    requires AllValid(list) && v.Valid()
    ensures Collect(list + [v], now) == Collect(list, now) + if v.Expired(now) then [] else [v]
    decreases |list|
  {
    if list == [] {
      assert list + [v] == [v];
      assert [v][1..] == [];
    } else {
      CollectAppend(list[1..], v, now);
      assert (list + [v])[1..] == list[1..] + [v];
    }
  }

  // -------------------------------------------------------------------- runs

  datatype Event = Hear(message: Message) | Sweep(now: int)

  function Next(id: ListId, list: seq<Vehicle>, e: Event): (r: seq<Vehicle>)
    requires AllValid(list)
  {
    match e
    case Hear(m) => if Route(m) == Some(id) then Insert(id, list, m) else list
    case Sweep(now) => Collect(list, now)
  }

  lemma {:induction false} CollectKeeps(list: seq<Vehicle>, now: int)
    requires AllValid(list)
    ensures AllValid(Collect(list, now))
    ensures forall v :: v in Collect(list, now) <==> v in list && v.Expired(now) == false
    decreases |list|
  {
    if list != [] {
      CollectKeeps(list[1..], now);
      assert list == [list[0]] + list[1..];
    }
  }

  lemma InsertKeeps(id: ListId, list: seq<Vehicle>, m: Message)
    requires AllValid(list)
    ensures AllValid(Insert(id, list, m))
  {
  }

  lemma NextKeeps(id: ListId, list: seq<Vehicle>, e: Event)
    requires AllValid(list)
    ensures AllValid(Next(id, list, e))
  {
    match e
    case Hear(m) => { InsertKeeps(id, list, m); }
    case Sweep(now) => { CollectKeeps(list, now); }
  }

  /** The list after a run that starts with every list empty. */
  function List(id: ListId, events: seq<Event>): (r: seq<Vehicle>)
    ensures AllValid(r)
  {
    if events == [] then []
    else
      var n := |events| - 1;
      NextKeeps(id, List(id, events[..n]), events[n]);
      Next(id, List(id, events[..n]), events[n])
  }

  /** What a run says about one vehicle of one list, without the list: when it was
      heard last (counting events) and with which record, unless a sweep has come
      since that found the record too old. */
  datatype Trace = Unheard | HeardAt(when: nat, record: Record)

  function LastHeard(id: ListId, events: seq<Event>, name: Name): Trace {
    if events == [] then Unheard
    else
      var n := |events| - 1;
      var before := LastHeard(id, events[..n], name);
      match events[n]
      case Hear(m) => if Route(m) == Some(id) && m.name == name then HeardAt(n, m.record) else before
      case Sweep(now) =>
        if before.HeardAt? && now - before.record.time > OBU_OBJECT_EXPIRE_TIME then Unheard else before
  }

  /** When a vehicle was heard last, or -1. */
  function When(id: ListId, events: seq<Event>, name: Name): int {
    var t := LastHeard(id, events, name);
    if t.HeardAt? then t.when else -1
  }

  predicate Distinct(list: seq<Vehicle>) {
    forall i, j | 0 <= i < j < |list| :: list[i].name != list[j].name
  }

  /** Holds exactly the vehicles that the run has heard and not swept, each with
      the record heard last. */
  ghost predicate Explains(id: ListId, events: seq<Event>, list: seq<Vehicle>)
    requires AllValid(list)
  {
    && (forall i | 0 <= i < |list| ::
          && LastHeard(id, events, list[i].name).HeardAt?
          && LastHeard(id, events, list[i].name).record == list[i].Latest())
    && (forall name :: LastHeard(id, events, name).HeardAt? ==> Search(list, name) < |list|)
  }

  predicate LatestFirst(id: ListId, events: seq<Event>, list: seq<Vehicle>) {
    forall i, j | 0 <= i < j < |list| :: When(id, events, list[i].name) > When(id, events, list[j].name)
  }

  predicate AtHome(id: ListId, list: seq<Vehicle>) {
    forall i | 0 <= i < |list| :: Route(Message(list[i].name, list[i].kind, ZERO_RECORD)) == Some(id)
  }

  lemma {:induction false} SearchFinds(list: seq<Vehicle>, name: Name, i: nat)
    requires i < |list| && list[i].name == name
    ensures Search(list, name) <= i
  {
    if Search(list, name) > i {
      SearchIsFirst(list, name, i);
    }
  }

  /** Where the vehicles of the new list were before: `k` is the place of the
      vehicle that was heard. */
  lemma InsertPlaces(id: ListId, list: seq<Vehicle>, m: Message, i: nat)
    requires AllValid(list) && Distinct(list) && i < |Insert(id, list, m)|
    ensures var k := Search(list, m.name); var r := Insert(id, list, m);
      var mine := if id.Special? || k == |list| then 0 else k;
      && AllValid(r)
      && (i == mine ==> r[i].name == m.name && r[i].Latest() == m.record
                        && r[i].kind == Known(list, m).kind)
      && (i != mine ==>
            var j := if k == |list| || (id.Special? && i <= k) then i - 1 else i;
            0 <= j < |list| && r[i] == list[j] && r[i].name != m.name)
  {
    var k := Search(list, m.name);
    HeardIsLatest(Known(list, m), m.record);
    InsertKeeps(id, list, m);
    if k == |list| && i > 0 {
      SearchIsFirst(list, m.name, i - 1);
    }
  }

  lemma {:induction false} InsertDistinct(id: ListId, list: seq<Vehicle>, m: Message)
    requires AllValid(list) && Distinct(list)
    ensures Distinct(Insert(id, list, m))
  {
    var r := Insert(id, list, m);
    forall i, j | 0 <= i < j < |r| ensures r[i].name != r[j].name {
      InsertPlaces(id, list, m, i);
      InsertPlaces(id, list, m, j);
    }
  }

  lemma HearChanges(id: ListId, events: seq<Event>, m: Message, name: Name)
    ensures var after := events + [Hear(m)];
      LastHeard(id, after, name) ==
        if Route(m) == Some(id) && m.name == name then HeardAt(|events|, m.record)
        else LastHeard(id, events, name)
  {
    assert (events + [Hear(m)])[..|events|] == events;
  }

  lemma SweepChanges(id: ListId, events: seq<Event>, now: int, name: Name)
    ensures var after := events + [Sweep(now)]; var t := LastHeard(id, events, name);
      LastHeard(id, after, name) ==
        if t.HeardAt? && now - t.record.time > OBU_OBJECT_EXPIRE_TIME then Unheard else t
  {
    assert (events + [Sweep(now)])[..|events|] == events;
  }

  lemma {:induction false} WhenBound(id: ListId, events: seq<Event>, name: Name)
    ensures When(id, events, name) < |events|
    decreases |events|
  {
    if events != [] {
      WhenBound(id, events[..|events| - 1], name);
    }
  }

  lemma {:induction false} InsertExplained(id: ListId, events: seq<Event>, list: seq<Vehicle>, m: Message)
    requires AllValid(list) && Distinct(list) && Explains(id, events, list) && Route(m) == Some(id)
    ensures AllValid(Insert(id, list, m)) && Explains(id, events + [Hear(m)], Insert(id, list, m))
  {
    var r, after := Insert(id, list, m), events + [Hear(m)];
    InsertKeeps(id, list, m);
    forall i | 0 <= i < |r|
      ensures LastHeard(id, after, r[i].name).HeardAt? && LastHeard(id, after, r[i].name).record == r[i].Latest()
    {
      InsertPlaces(id, list, m, i);
      HearChanges(id, events, m, r[i].name);
    }
    forall name | LastHeard(id, after, name).HeardAt? ensures Search(r, name) < |r| {
      HearChanges(id, events, m, name);
      InsertHolds(id, list, m, name);
    }
  }

  /** Nobody is lost, and the vehicle that was heard is there. */
  lemma {:induction false} InsertHolds(id: ListId, list: seq<Vehicle>, m: Message, name: Name)
    requires AllValid(list) && (name == m.name || Search(list, name) < |list|)
    ensures Search(Insert(id, list, m), name) < |Insert(id, list, m)|
  {
    var r, k, i := Insert(id, list, m), Search(list, m.name), Search(list, name);
    HeardIsLatest(Known(list, m), m.record);
    var at := if name == m.name then (if id.Special? || k == |list| then 0 else k)
              else if k == |list| || (id.Special? && i < k) then i + 1 else i;
    assert r[at].name == name;
    SearchFinds(r, name, at);
  }

  lemma {:induction false} InsertLatestFirst(id: ListId, events: seq<Event>, list: seq<Vehicle>, m: Message)
    requires AllValid(list) && Distinct(list) && LatestFirst(id, events, list) && Route(m) == Some(id) && id.Special?
    ensures LatestFirst(id, events + [Hear(m)], Insert(id, list, m))
  {
    var r, after := Insert(id, list, m), events + [Hear(m)];
    forall i, j | 0 <= i < j < |r| ensures When(id, after, r[i].name) > When(id, after, r[j].name) {
      InsertPlaces(id, list, m, i);
      InsertPlaces(id, list, m, j);
      HearChanges(id, events, m, r[i].name);
      HearChanges(id, events, m, r[j].name);
      WhenBound(id, events, r[j].name);
    }
  }

  lemma {:induction false} InsertAtHome(id: ListId, list: seq<Vehicle>, m: Message)
    requires AllValid(list) && Distinct(list) && AtHome(id, list) && Route(m) == Some(id)
    ensures AtHome(id, Insert(id, list, m))
  {
    var r := Insert(id, list, m);
    forall i | 0 <= i < |r| ensures Route(Message(r[i].name, r[i].kind, ZERO_RECORD)) == Some(id) {
      InsertPlaces(id, list, m, i);
    }
  }

  /** `at` are the places, from first to last, of the vehicles that were picked. */
  ghost predicate Picks(list: seq<Vehicle>, picked: seq<Vehicle>, at: seq<nat>) {
    && |at| == |picked|
    && (forall i | 0 <= i < |at| :: at[i] < |list| && picked[i] == list[at[i]])
    && (forall i, j | 0 <= i < j < |at| :: at[i] < at[j])
  }

  /** Whatever the list, a sweep picks exactly the vehicles that are not too old, in
      the order of the list. */
  lemma {:induction false} CollectKeepsOrder(list: seq<Vehicle>, now: int) returns (at: seq<nat>)
    requires AllValid(list)
    ensures Picks(list, Collect(list, now), at)
    ensures forall j | 0 <= j < |list| :: j in at <==> !list[j].Expired(now)
    decreases |list|
  {
    at := [];
    if list != [] {
      var n := |list| - 1;
      var init, v := list[..n], list[n];
      assert init + [v] == list;
      CollectAppend(init, v, now);
      at := CollectKeepsOrder(init, now);
      assert forall j | 0 <= j < n :: init[j] == list[j];
      if !v.Expired(now) {
        at := at + [n];
      }
    }
  }

  /** A list that is latest first stays so. */
  lemma {:induction false} CollectLatestFirst(id: ListId, events: seq<Event>, list: seq<Vehicle>, now: int)
    requires AllValid(list) && LatestFirst(id, events, list)
    ensures LatestFirst(id, events, Collect(list, now))
    decreases |list|
  {
    if list != [] {
      CollectLatestFirst(id, events, list[1..], now);
      CollectKeeps(list[1..], now);
      forall v | v in Collect(list[1..], now)
        ensures When(id, events, list[0].name) > When(id, events, v.name)
      {
        var i :| 0 <= i < |list[1..]| && list[1..][i] == v;
        assert list[i + 1] == v;
      }
    }
  }

  lemma {:induction false} CollectDistinct(list: seq<Vehicle>, now: int)
    requires AllValid(list) && Distinct(list)
    ensures Distinct(Collect(list, now))
    decreases |list|
  {
    if list != [] {
      CollectDistinct(list[1..], now);
      CollectKeeps(list[1..], now);
      forall v | v in Collect(list[1..], now) ensures v.name != list[0].name {
        var i :| 0 <= i < |list[1..]| && list[1..][i] == v;
        assert list[i + 1] == v;
      }
    }
  }

  lemma {:induction false} CollectAtHome(id: ListId, list: seq<Vehicle>, now: int)
    requires AllValid(list) && AtHome(id, list)
    ensures AtHome(id, Collect(list, now))
  {
    CollectKeeps(list, now);
    var r := Collect(list, now);
    forall i | 0 <= i < |r| ensures Route(Message(r[i].name, r[i].kind, ZERO_RECORD)) == Some(id) {
      assert r[i] in list;
    }
  }

  lemma {:induction false} SweepExplained(id: ListId, events: seq<Event>, list: seq<Vehicle>, now: int)
    requires AllValid(list) && Distinct(list) && Explains(id, events, list)
    ensures AllValid(Collect(list, now)) && Explains(id, events + [Sweep(now)], Collect(list, now))
    ensures forall v | v in Collect(list, now) ::
      When(id, events + [Sweep(now)], v.name) == When(id, events, v.name)
  {
    var r, after := Collect(list, now), events + [Sweep(now)];
    CollectKeeps(list, now);
    forall v | v in r
      ensures LastHeard(id, after, v.name) == LastHeard(id, events, v.name)
      ensures LastHeard(id, after, v.name).HeardAt? && LastHeard(id, after, v.name).record == v.Latest()
    {
      SweepChanges(id, events, now, v.name);
      assert v in list;
    }
    forall name | LastHeard(id, after, name).HeardAt? ensures Search(r, name) < |r| {
      SweepChanges(id, events, now, name);
      var v := list[Search(list, name)];
      assert v in list && v in r;
      var i :| 0 <= i < |r| && r[i] == v;
      SearchFinds(r, name, i);
    }
  }

  /** After any run, a list has no name twice and holds exactly the vehicles of
      its kind or bucket that were heard and not found too old since, each with
      its latest record; a list of special vehicles is ordered by when they were
      heard, the latest first. */
  lemma {:induction false} ListsTellTheRun(id: ListId, events: seq<Event>)
    ensures var list := List(id, events);
      && Distinct(list)
      && Explains(id, events, list)
      && AtHome(id, list)
      && (id.Special? ==> LatestFirst(id, events, list))
    decreases |events|
  {
    if events != [] {
      var n := |events| - 1;
      var before, list, e := events[..n], List(id, events[..n]), events[n];
      ListsTellTheRun(id, before);
      assert before + [e] == events;
      match e
      case Hear(m) => {
        if Route(m) == Some(id) {
          InsertExplained(id, before, list, m);
          InsertDistinct(id, list, m);
          InsertAtHome(id, list, m);
          if id.Special? {
            InsertLatestFirst(id, before, list, m);
          }
        } else {
          OtherListStays(id, before, list, m);
        }
      }
      case Sweep(now) => {
        SweepExplained(id, before, list, now);
        CollectDistinct(list, now);
        CollectAtHome(id, list, now);
        if id.Special? {
          CollectLatestFirst(id, before, list, now);
        }
      }
    }
  }

  lemma OtherListStays(id: ListId, events: seq<Event>, list: seq<Vehicle>, m: Message)
    requires AllValid(list) && Explains(id, events, list) && Route(m) != Some(id)
    ensures Explains(id, events + [Hear(m)], list)
    ensures LatestFirst(id, events, list) ==> LatestFirst(id, events + [Hear(m)], list)
  {
    forall name ensures LastHeard(id, events + [Hear(m)], name) == LastHeard(id, events, name) {
      HearChanges(id, events, m, name);
    }
  }

  // ------------------------------------------------------- the whole of a vehicle

  /** The records of a vehicle since it came into the list, without the list. */
  function RecordsSince(id: ListId, events: seq<Event>, name: Name): seq<Record> {
    if events == [] then []
    else
      var n := |events| - 1;
      var before := RecordsSince(id, events[..n], name);
      match events[n]
      case Hear(m) => if Route(m) == Some(id) && m.name == name then before + [m.record] else before
      case Sweep(now) =>
        if before != [] && now - before[|before| - 1].time > OBU_OBJECT_EXPIRE_TIME then [] else before
  }

  function KindOf(id: ListId): int {
    if id.Special? then id.kind else VEHICLE_NORMAL
  }

  /** Every vehicle of the list is what hearing its records one after the other makes
      of a new object. */
  predicate Whole(id: ListId, events: seq<Event>, list: seq<Vehicle>) {
    forall i | 0 <= i < |list| ::
      var records := RecordsSince(id, events, list[i].name);
      records != [] && list[i] == HeardAll(list[i].name, KindOf(id), records)
  }

  /** No vehicle outside the list has records. */
  ghost predicate OnlyThese(id: ListId, events: seq<Event>, list: seq<Vehicle>) {
    forall name | Search(list, name) == |list| :: RecordsSince(id, events, name) == []
  }

  lemma {:induction false} LatestOfAll(name: Name, kind: int, records: seq<Record>)
    requires records != []
    ensures HeardAll(name, kind, records).Latest() == records[|records| - 1]
  {
    HeardIsLatest(HeardAll(name, kind, records[..|records| - 1]), records[|records| - 1]);
  }

  lemma RouteKind(id: ListId, m: Message)
    requires Route(m) == Some(id)
    ensures m.kind == KindOf(id)
  {
  }

  lemma HearAdds(id: ListId, events: seq<Event>, m: Message, name: Name)
    ensures RecordsSince(id, events + [Hear(m)], name)
            == RecordsSince(id, events, name) + if Route(m) == Some(id) && m.name == name then [m.record] else []
  {
    assert (events + [Hear(m)])[..|events|] == events;
    assert RecordsSince(id, events, name) + [] == RecordsSince(id, events, name);
  }

  lemma SweepDrops(id: ListId, events: seq<Event>, now: int, name: Name)
    ensures var before := RecordsSince(id, events, name);
      RecordsSince(id, events + [Sweep(now)], name)
      == if before != [] && now - before[|before| - 1].time > OBU_OBJECT_EXPIRE_TIME then [] else before
  {
    assert (events + [Sweep(now)])[..|events|] == events;
  }

  /** The vehicle that was heard, before and after. */
  lemma HeardWhole(id: ListId, events: seq<Event>, list: seq<Vehicle>, m: Message)
    requires AllValid(list) && Whole(id, events, list) && OnlyThese(id, events, list) && Route(m) == Some(id)
    ensures var records := RecordsSince(id, events, m.name) + [m.record];
      Known(list, m).Heard(m.record) == HeardAll(m.name, KindOf(id), records)
  {
    var before := RecordsSince(id, events, m.name);
    RouteKind(id, m);
    var k := Search(list, m.name);
    if k < |list| {
      assert list[k].name == m.name;
    } else {
      assert before == [];
    }
    assert (before + [m.record])[..|before|] == before;
  }

  lemma InsertWhole(id: ListId, events: seq<Event>, list: seq<Vehicle>, m: Message)
    requires AllValid(list) && Distinct(list) && Whole(id, events, list)
              && OnlyThese(id, events, list) && Route(m) == Some(id)
    ensures Whole(id, events + [Hear(m)], Insert(id, list, m)) && OnlyThese(id, events + [Hear(m)], Insert(id, list, m))
  {
    var r, after, k := Insert(id, list, m), events + [Hear(m)], Search(list, m.name);
    HeardWhole(id, events, list, m);
    HearAdds(id, events, m, m.name);
    var mine := if id.Special? || k == |list| then 0 else k;
    forall i | 0 <= i < |r|
      ensures RecordsSince(id, after, r[i].name) != []
              && r[i] == HeardAll(r[i].name, KindOf(id), RecordsSince(id, after, r[i].name))
    {
      InsertPlaces(id, list, m, i);
      if i != mine {
        HearAdds(id, events, m, r[i].name);
        var j := if k == |list| || (id.Special? && i <= k) then i - 1 else i;
        assert r[i] == list[j];
      } else {
        assert r[i] == Known(list, m).Heard(m.record);
      }
    }
    forall name | Search(r, name) == |r| ensures RecordsSince(id, after, name) == [] {
      HearAdds(id, events, m, name);
      if name == m.name || Search(list, name) < |list| {
        InsertHolds(id, list, m, name);
      }
    }
  }

  lemma SweepWhole(id: ListId, events: seq<Event>, list: seq<Vehicle>, now: int)
    requires AllValid(list) && Distinct(list) && Whole(id, events, list) && OnlyThese(id, events, list)
    ensures Whole(id, events + [Sweep(now)], Collect(list, now)) && OnlyThese(id, events + [Sweep(now)], Collect(list, now))
  {
    var r, after := Collect(list, now), events + [Sweep(now)];
    CollectKeeps(list, now);
    forall i | 0 <= i < |list|
      ensures var before := RecordsSince(id, events, list[i].name);
        before != [] && list[i] == HeardAll(list[i].name, KindOf(id), before)
        && RecordsSince(id, after, list[i].name) == if list[i].Expired(now) then [] else before
    {
      SweepDrops(id, events, now, list[i].name);
      LatestOfAll(list[i].name, KindOf(id), RecordsSince(id, events, list[i].name));
    }
    forall v | v in r
      ensures RecordsSince(id, after, v.name) != [] && v == HeardAll(v.name, KindOf(id), RecordsSince(id, after, v.name))
    {
      var i :| 0 <= i < |list| && list[i] == v;
    }
    forall name | Search(r, name) == |r| ensures RecordsSince(id, after, name) == [] {
      SweepDrops(id, events, now, name);
      var k := Search(list, name);
      if k < |list| && !list[k].Expired(now) {
        assert list[k] in r;
        var i :| 0 <= i < |r| && r[i] == list[k];
        SearchFinds(r, name, i);
      }
    }
  }

  /** After any run every vehicle of a list is, record for record, what the records
      heard since it came into the list make of it; and every vehicle that has such
      records is in the list. */
  lemma {:induction false} RecordsTellTheRun(id: ListId, events: seq<Event>)
    ensures Whole(id, events, List(id, events)) && OnlyThese(id, events, List(id, events))
    decreases |events|
  {
    if events != [] {
      var n := |events| - 1;
      var before, list, e := events[..n], List(id, events[..n]), events[n];
      RecordsTellTheRun(id, before);
      ListsTellTheRun(id, before);
      assert before + [e] == events;
      match e
      case Hear(m) => {
        if Route(m) == Some(id) {
          InsertWhole(id, before, list, m);
        } else {
          forall name ensures RecordsSince(id, events, name) == RecordsSince(id, before, name) {
            HearAdds(id, before, m, name);
          }
        }
      }
      case Sweep(now) => {
        SweepWhole(id, before, list, now);
      }
    }
  }

  /** When a vehicle came into the list that it is in, counting events, or -1. */
  function CameIn(id: ListId, events: seq<Event>, name: Name): int {
    if events == [] then -1
    else
      var n := |events| - 1;
      var before := CameIn(id, events[..n], name);
      match events[n]
      case Hear(m) => if Route(m) == Some(id) && m.name == name && before == -1 then n else before
      case Sweep(now) => if RecordsSince(id, events, name) == [] then -1 else before
  }

  predicate NewestFirst(id: ListId, events: seq<Event>, list: seq<Vehicle>) {
    && (forall i | 0 <= i < |list| :: CameIn(id, events, list[i].name) >= 0)
    && (forall i, j | 0 <= i < j < |list| :: CameIn(id, events, list[i].name) > CameIn(id, events, list[j].name))
  }

  lemma HearCameIn(id: ListId, events: seq<Event>, m: Message, name: Name)
    ensures CameIn(id, events + [Hear(m)], name)
            == if Route(m) == Some(id) && m.name == name && CameIn(id, events, name) == -1
                      then |events| else CameIn(id, events, name)
  {
    assert (events + [Hear(m)])[..|events|] == events;
  }

  lemma {:induction false} CameInBound(id: ListId, events: seq<Event>, name: Name)
    ensures -1 <= CameIn(id, events, name) < |events|
    ensures CameIn(id, events, name) >= 0 <==> RecordsSince(id, events, name) != []
    decreases |events|
  {
    if events != [] {
      CameInBound(id, events[..|events| - 1], name);
    }
  }

  /** The i-th vehicle of the new list came in just now, or when it did before. */
  lemma CameInAfter(id: ListId, events: seq<Event>, list: seq<Vehicle>, m: Message, i: nat)
    requires AllValid(list) && Distinct(list) && NewestFirst(id, events, list) && OnlyThese(id, events, list)
    requires id.Normal? && Route(m) == Some(id) && i < |Insert(id, list, m)|
    ensures var r, k := Insert(id, list, m), Search(list, m.name); var came := CameIn(id, events + [Hear(m)], r[i].name);
      if k < |list| then i < |list| && came == CameIn(id, events, list[i].name)
      else if i == 0 then came == |events| else i <= |list| && came == CameIn(id, events, list[i - 1].name)
  {
    InsertPlaces(id, list, m, i);
    HearCameIn(id, events, m, Insert(id, list, m)[i].name);
    CameInBound(id, events, m.name);
  }

  lemma InsertNewestFirst(id: ListId, events: seq<Event>, list: seq<Vehicle>, m: Message)
    requires AllValid(list) && Distinct(list) && NewestFirst(id, events, list) && OnlyThese(id, events, list)
    requires id.Normal? && Route(m) == Some(id)
    ensures NewestFirst(id, events + [Hear(m)], Insert(id, list, m))
  {
    var r, after, k := Insert(id, list, m), events + [Hear(m)], Search(list, m.name);
    forall i | 0 <= i < |r| ensures CameIn(id, after, r[i].name) >= 0 {
      CameInAfter(id, events, list, m, i);
    }
    forall i, j | 0 <= i < j < |r| ensures CameIn(id, after, r[i].name) > CameIn(id, after, r[j].name) {
      CameInAfter(id, events, list, m, i);
      CameInAfter(id, events, list, m, j);
      CameInBound(id, events, r[j].name);
      CameInBound(id, events, if k < |list| then list[j].name else list[j - 1].name);
    }
  }

  lemma {:induction false} SweepNewestFirst(id: ListId, events: seq<Event>, list: seq<Vehicle>, now: int)
    requires AllValid(list) && Distinct(list) && NewestFirst(id, events, list)
    requires Whole(id, events, list) && OnlyThese(id, events, list)
    ensures NewestFirst(id, events + [Sweep(now)], Collect(list, now))
  {
    var r, after := Collect(list, now), events + [Sweep(now)];
    SweepWhole(id, events, list, now);
    assert after[..|events|] == events;
    forall i | 0 <= i < |r| ensures CameIn(id, after, r[i].name) == CameIn(id, events, r[i].name) {
      assert RecordsSince(id, after, r[i].name) != [];
    }
    var at := CollectKeepsOrder(list, now);
    forall i, j | 0 <= i < j < |r| ensures CameIn(id, after, r[i].name) > CameIn(id, after, r[j].name) {
      assert r[i] == list[at[i]] && r[j] == list[at[j]] && at[i] < at[j];
    }
    forall i | 0 <= i < |r| ensures CameIn(id, after, r[i].name) >= 0 {
      assert r[i] == list[at[i]];
    }
  }

  /** After any run a list of ordinary vehicles is ordered by when they came into it,
      the newest first; hearing them again does not move them. */
  lemma {:induction false} NormalListsKeepOrder(id: ListId, events: seq<Event>)
    requires id.Normal?
    ensures NewestFirst(id, events, List(id, events))
    decreases |events|
  {
    if events != [] {
      var n := |events| - 1;
      var before, list, e := events[..n], List(id, events[..n]), events[n];
      NormalListsKeepOrder(id, before);
      RecordsTellTheRun(id, before);
      ListsTellTheRun(id, before);
      assert before + [e] == events;
      match e
      case Hear(m) => {
        if Route(m) == Some(id) {
          InsertNewestFirst(id, before, list, m);
        } else {
          forall name ensures CameIn(id, events, name) == CameIn(id, before, name) {
            HearCameIn(id, before, m, name);
          }
        }
      }
      case Sweep(now) => {
        SweepNewestFirst(id, before, list, now);
      }
    }
  }

  /** Where a message goes: an ordinary vehicle to the bucket of its name's polynomial,
      a special one to the list of its kind, any other nowhere. */
  lemma RouteMeans(m: Message)
    ensures m.kind == -1 ==> Route(m) == Some(Normal((5381 * Power33(|m.name|) + Polynomial(m.name)) % WORD % 10))
    ensures 0 <= m.kind < 4 ==> Route(m) == Some(Special(m.kind))
    ensures m.kind < -1 || m.kind >= 4 ==> Route(m) == None
  {
    HashIsPolynomial(m.name);
  }
}
