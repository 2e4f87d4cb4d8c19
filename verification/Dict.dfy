/** The chained hash table with rehash. */
module Dict {
  import opened FixedWidth

  const DICT_HT_INITIAL_SIZE := 4
  const LONG_MAX := 0x7FFF_FFFF_FFFF_FFFF

  predicate IsPowerOfTwo(n: nat) {
    n == 1 || (n > 1 && n % 2 == 0 && IsPowerOfTwo(n / 2))
  }

  /** `a & b`, bit by bit. */
  function BitAnd(a: nat, b: nat): (r: nat)
    ensures r <= b
  {
    if b == 0 then 0 else (a % 2) * (b % 2) + 2 * BitAnd(a / 2, b / 2)
  }

  /** Masking with a power of two less one is the remainder. */
  lemma {:induction false} MaskIsMod(a: nat, n: nat)
    requires IsPowerOfTwo(n)
    ensures BitAnd(a, n - 1) == a % n
    decreases n
  {
    if n > 1 {
      MaskIsMod(a / 2, n / 2);
      HalvedMod(a, n / 2);
      assert (n - 1) % 2 == 1 && (n - 1) / 2 == n / 2 - 1;
    }
  }

  lemma HalvedMod(a: nat, h: nat)
    requires h > 0
    ensures a % (2 * h) == a % 2 + 2 * ((a / 2) % h)
  {
    var q, r := (a / 2) / h, (a / 2) % h;
    assert a / 2 == h * q + r;
    assert q * (2 * h) == 2 * (h * q);
    DivModUnique(a, 2 * h, q, 2 * r + a % 2);
  }

  lemma TopPower()
    ensures IsPowerOfTwo(LONG_MAX + 1)
  {
    PowerDoubles(0x1_0000, 0x1_0000);
    PowerDoubles(0x1_0000_0000, 0x1_0000);
    PowerDoubles(0x1_0000_0000_0000, 0x8000);
  }

  lemma TwiceIsPower(x: nat)
    requires IsPowerOfTwo(x)
    ensures IsPowerOfTwo(2 * x)
  {
    assert 2 * x / 2 == x;
  }

  lemma {:induction false} PowerDoubles(a: nat, b: nat)
    requires IsPowerOfTwo(a) && IsPowerOfTwo(b)
    ensures IsPowerOfTwo(a * b)
    decreases b
  {
    if b > 1 {
      var h := b / 2;
      PowerDoubles(a, h);
      TwiceIsPower(a * h);
      assert a * b == a * (2 * h) == 2 * (a * h);
    }
  }

  class Entry<K, V> {
    const key: K
    var val: V
    var next: Entry?<K, V>

    constructor (key: K, val: V, next: Entry?<K, V>)
      ensures this.key == key && this.val == val && this.next == next
    {
      this.key, this.val, this.next := key, val, next;
    }
  }

  /** The `next` pointers of the entries, as a value. */
  type Links<!K, !V> = map<Entry<K, V>, Entry?<K, V>>

  ghost function NextOf<K(!new), V>(node: map<K, Entry<K, V>>): Links<K, V>
    reads node.Values
  {
    map e | e in node.Values :: e.next
  }

  /** Following the pointers from `head` visits exactly the entries of the keys
      `ks`, none twice. */
  ghost predicate Chain<K(!new), V>(node: map<K, Entry<K, V>>, next: Links<K, V>, head: Entry?<K, V>, ks: seq<K>)
    decreases |ks|
  {
    if ks == [] then head == null
    else
      && ks[0] in node && head == node[ks[0]] && head.key == ks[0] && head in next && ks[0] !in ks[1..]
      && Chain(node, next, next[head], ks[1..])
  }

  lemma {:induction false} ChainKeys<K(!new), V>(node: map<K, Entry<K, V>>, next: Links<K, V>,
            head: Entry?<K, V>, ks: seq<K>)
    requires Chain(node, next, head, ks)
    ensures forall k | k in ks :: k in node && node[k].key == k && node[k] in next
    decreases |ks|
  {
    if ks != [] {
      ChainKeys(node, next, next[head], ks[1..]);
    }
  }

  /** A chain depends on its own entries only. */
  lemma {:induction false} ChainFrame<K(!new), V>(node: map<K, Entry<K, V>>, next: Links<K, V>,
                                                  node': map<K, Entry<K, V>>, next': Links<K, V>,
                                                  head: Entry?<K, V>, ks: seq<K>)
    requires Chain(node, next, head, ks)
    requires forall k | k in ks && k in node ::
               k in node' && node'[k] == node[k]
               && (node[k] in next ==> node[k] in next' && next'[node[k]] == next[node[k]])
    ensures Chain(node', next', head, ks)
    decreases |ks|
  {
    if ks != [] {
      ChainFrame(node, next, node', next', next[head], ks[1..]);
    }
  }

  /** The bucket of a key: the code masks the hash with `size - 1`. */
  ghost function Slot<K>(hash: K -> nat, key: K, size: nat): (i: nat)
    requires size > 0
    ensures i < size
  {
    hash(key) % size
  }

  /** From bucket `low` on, each head leads along its chain. */
  ghost predicate Chains<K(!new), V>(node: map<K, Entry<K, V>>, next: Links<K, V>,
                                     heads: seq<Entry?<K, V>>, chains: seq<seq<K>>, low: nat)
  {
    && |chains| == |heads|
    && (forall i | low <= i < |heads| :: Chain(node, next, heads[i], chains[i]))
  }

  /** From bucket `low` on, the chains have exactly these keys, each in the bucket
      that its hash selects. */
  ghost predicate Members<K(!new), V>(hash: K -> nat, node: map<K, Entry<K, V>>, chains: seq<seq<K>>, low: nat, keys: set<K>)
  {
    && (forall i, k | low <= i < |chains| && k in chains[i] :: k in keys && Slot(hash, k, |chains|) == i)
    && keys <= node.Keys
    && (forall k {:trigger node[k]} | k in keys :: node[k].key == k)
    && (keys != {} ==> |chains| > 0)
    && (|chains| > 0 ==>
          forall k {:trigger Slot(hash, k, |chains|)} | k in keys ::
            low <= Slot(hash, k, |chains|) && k in chains[Slot(hash, k, |chains|)])
  }

  ghost predicate Buckets<K(!new), V>(hash: K -> nat, node: map<K, Entry<K, V>>, next: Links<K, V>,
                                      heads: seq<Entry?<K, V>>, chains: seq<seq<K>>, low: nat, keys: set<K>)
  {
    Chains(node, next, heads, chains, low) && Members(hash, node, chains, low, keys)
  }

  /** Changes to entries of other keys leave the buckets as they are. */
  lemma BucketsFrame<K(!new), V>(hash: K -> nat, node: map<K, Entry<K, V>>, next: Links<K, V>,
                                 node': map<K, Entry<K, V>>, next': Links<K, V>,
                                 heads: seq<Entry?<K, V>>, chains: seq<seq<K>>, low: nat, keys: set<K>)
    requires Buckets(hash, node, next, heads, chains, low, keys)
    requires forall k | k in keys ::
               k in node' && node'[k] == node[k]
               && (node[k] in next ==> node[k] in next' && next'[node[k]] == next[node[k]])
    ensures Buckets(hash, node', next', heads, chains, low, keys)
  {
    forall i | low <= i < |heads| ensures Chain(node', next', heads[i], chains[i]) {
      ChainFrame(node, next, node', next', heads[i], chains[i]);
    }
  }

  lemma PushedChain<K(!new), V>(node: map<K, Entry<K, V>>, next: Links<K, V>, head: Entry?<K, V>, ks: seq<K>,
                                he: Entry<K, V>, behind: Entry?<K, V>)
    requires Chain(node, next, head, ks) && he.key !in ks
    ensures Chain(node, next[he := behind], head, ks)
  {
    ChainKeys(node, next, head, ks);
    ChainFrame(node, next, node, next[he := behind], head, ks);
  }

  lemma MembersPush<K(!new), V>(hash: K -> nat, node: map<K, Entry<K, V>>, chains: seq<seq<K>>, keys: set<K>,
                                key: K, h: nat, chains': seq<seq<K>>)
    requires Members(hash, node, chains, 0, keys)
    requires |chains| > 0 && key !in keys && key in node && node[key].key == key
    requires h == Slot(hash, key, |chains|) && chains' == chains[h := [key] + chains[h]]
    ensures Members(hash, node, chains', 0, keys + {key})
  {
    forall i, k | 0 <= i < |chains| && k in chains'[i] ensures k in keys + {key} && Slot(hash, k, |chains|) == i {
      if i != h || k != key {
        assert k in chains[i];
      }
    }
    forall k | k in keys + {key} ensures k in chains'[Slot(hash, k, |chains|)] {
      if k != key {
        assert k in chains[Slot(hash, k, |chains|)];
      }
    }
  }

  /** Pushing an entry on the head of the bucket that its key selects. */
  lemma BucketsPush<K(!new), V>(hash: K -> nat, node: map<K, Entry<K, V>>, next: Links<K, V>,
                                heads: seq<Entry?<K, V>>, chains: seq<seq<K>>, keys: set<K>, he: Entry<K, V>,
                                h: nat, next': Links<K, V>, heads': seq<Entry?<K, V>>, chains': seq<seq<K>>)
    requires Buckets(hash, node, next, heads, chains, 0, keys)
    requires |heads| > 0 && he.key !in keys && he.key in node && node[he.key] == he
    requires h == Slot(hash, he.key, |heads|) && next' == next[he := heads[h]]
    requires heads' == heads[h := he] && chains' == chains[h := [he.key] + chains[h]]
    ensures Buckets(hash, node, next', heads', chains', 0, keys + {he.key})
  {
    MembersPush(hash, node, chains, keys, he.key, h, chains');
    assert chains'[h][1..] == chains[h];
    forall i | 0 <= i < |heads| ensures Chain(node, next', heads'[i], chains'[i]) {
      PushedChain(node, next, heads[i], chains[i], he, heads[h]);
    }
  }

  /** The buckets with one key more. */
  lemma BucketsWith<K(!new), V>(hash: K -> nat, node: map<K, Entry<K, V>>, next: Links<K, V>,
                                heads: seq<Entry?<K, V>>, chains: seq<seq<K>>, he: Entry<K, V>, h: nat)
    requires Buckets(hash, node, next, heads, chains, 0, node.Keys)
    requires |heads| > 0 && he.key !in node && h == Slot(hash, he.key, |heads|)
    ensures var node' := node[he.key := he];
            && node'.Keys == node.Keys + {he.key}
            && Buckets(hash, node', next[he := heads[h]], heads[h := he], chains[h := [he.key] + chains[h]], 0, node'.Keys)
  {
    var node' := node[he.key := he];
    assert node'.Keys == node.Keys + {he.key};
    BucketsFrame(hash, node, next, node', next, heads, chains, 0, node.Keys);
    BucketsPush(hash, node', next, heads, chains, node.Keys, he, h, next[he := heads[h]], heads[h := he],
                chains[h := [he.key] + chains[h]]);
  }

  class Dict<K(==,!new), V> {
    const hash: K -> nat
    var table: array<Entry?<K, V>>
    var used: nat
    /** The entry of each key, and the keys of each bucket from the head on. */
    ghost var node: map<K, Entry<K, V>>
    ghost var chains: seq<seq<K>>

    ghost predicate Valid()
      reads this, table, node.Values
    {
      && (table.Length == 0 || (table.Length >= DICT_HT_INITIAL_SIZE && IsPowerOfTwo(table.Length)))
      && used == |node.Keys|
      && Buckets(hash, node, NextOf(node), table[..], chains, 0, node.Keys)
    }

    /** The finite map that the table stands for. */
    ghost function Model(): map<K, V>
      reads this, node.Values
    {
      map k | k in node :: node[k].val
    }

    constructor (hash: K -> nat)
      ensures Valid() && fresh(table) && Model() == map[] && node == map[] && this.hash == hash
    {
      this.hash := hash;
      table := new Entry?<K, V>[0];
      used, node, chains := 0, map[], [];
    }

    /** Records the keys that the table now has. */
    ghost method Install(node': map<K, Entry<K, V>>, chains': seq<seq<K>>)
      requires table.Length == 0 || (table.Length >= DICT_HT_INITIAL_SIZE && IsPowerOfTwo(table.Length))
      requires used == |node'.Keys| && Buckets(hash, node', NextOf(node'), table[..], chains', 0, node'.Keys)
      modifies this`node, this`chains
      ensures Valid() && node == node' && chains == chains'
    {
      node, chains := node', chains';
    }

    /** Walks a chain from its head. */
    method Walk(key: K, head: Entry?<K, V>, ghost ks: seq<K>) returns (entry: Entry?<K, V>)
      requires Chain(node, NextOf(node), head, ks)
      ensures key in ks ==> key in node && entry == node[key]
      ensures key !in ks ==> entry == null
    {
      entry := head;
      ghost var rest := ks;
      ChainKeys(node, NextOf(node), head, ks);
      while entry != null
        invariant Chain(node, NextOf(node), entry, rest) && (key in ks <==> key in rest)
        decreases |rest|
      {
        if key == entry.key {
          return;
        }
        assert NextOf(node)[entry] == entry.next;
        entry := entry.next;
        rest := rest[1..];
      }
    }

    /** The bucket that the code looks in. */
    method BucketOf(key: K) returns (h: nat)
      requires Valid() && table.Length > 0
      ensures h < table.Length && h == Slot(hash, key, table.Length)
      ensures Chain(node, NextOf(node), table[h], chains[h])
      ensures key in node <==> key in chains[h]
    {
      h := BitAnd(hash(key), table.Length - 1);
      MaskIsMod(hash(key), table.Length);
    }

    method Find(key: K) returns (entry: Entry?<K, V>)
      requires Valid()
      ensures entry == if key in node then node[key] else null
      ensures entry != null <==> key in Model()
      ensures entry != null ==> entry.key == key && entry.val == Model()[key]
    {
      if table.Length == 0 {
        return null;
      }
      var h := BucketOf(key);
      entry := Walk(key, table[h], chains[h]);
    }

    /** In a rehash, one entry moves from the old table, where it is the first of
        `rem`, to the head of its new bucket. */
    method MoveEntry(ghost rem: seq<K>, he: Entry<K, V>, newTable: array<Entry?<K, V>>,
                     ghost newChains: seq<seq<K>>, ghost done: set<K>, ghost low: nat, ghost later: set<K>)
      returns (ghost newChains': seq<seq<K>>)
      requires IsPowerOfTwo(newTable.Length) && newTable != table
      requires rem != [] && Chain(node, NextOf(node), he, rem)
      requires Buckets(hash, node, NextOf(node), newTable[..], newChains, 0, done)
      requires Buckets(hash, node, NextOf(node), table[..], chains, low, later)
      requires forall k | k in rem :: k !in done && k !in later
      requires used > 0
      modifies this`used, newTable, he`next
      ensures Buckets(hash, node, NextOf(node), newTable[..], newChains', 0, done + {rem[0]})
      ensures Buckets(hash, node, NextOf(node), table[..], chains, low, later)
      ensures Chain(node, NextOf(node), old(he.next), rem[1..])
      ensures used == old(used) - 1
    {
      var h := BitAnd(hash(he.key), newTable.Length - 1);
      MaskIsMod(hash(he.key), newTable.Length);
      ghost var next, heads := NextOf(node), newTable[..];
      he.next := newTable[h];
      newTable[h] := he;
      used := used - 1;
      newChains' := newChains[h := [he.key] + newChains[h]];
      ghost var next' := NextOf(node);
      assert next' == next[he := heads[h]];
      assert newTable[..] == heads[h := he];
      BucketsPush(hash, node, next, heads, newChains, done, he, h, next', newTable[..], newChains');
      BucketsFrame(hash, node, next, node, next', table[..], chains, low, later);
      PushedChain(node, next, next[he], rem[1..], he, heads[h]);
    }

    /** The inner loop of a rehash: a whole bucket moves. */
    method MoveBucket(head: Entry?<K, V>, ghost ks: seq<K>, newTable: array<Entry?<K, V>>,
                      ghost newChains: seq<seq<K>>, ghost done: set<K>, ghost low: nat, ghost later: set<K>)
      returns (ghost newChains': seq<seq<K>>)
      requires IsPowerOfTwo(newTable.Length) && newTable != table
      requires Chain(node, NextOf(node), head, ks)
      requires Buckets(hash, node, NextOf(node), newTable[..], newChains, 0, done)
      requires Buckets(hash, node, NextOf(node), table[..], chains, low, later)
      requires forall k | k in ks :: k !in done && k !in later
      requires used >= |ks|
      modifies this`used, newTable, node.Values`next
      ensures Buckets(hash, node, NextOf(node), newTable[..], newChains', 0, done + KeySet(ks))
      ensures Buckets(hash, node, NextOf(node), table[..], chains, low, later)
      ensures used == old(used) - |ks|
    {
      newChains' := newChains;
      var he := head;
      ghost var rem := ks;
      ghost var moved := done;
      ChainKeys(node, NextOf(node), head, ks);
      while he != null
        invariant Chain(node, NextOf(node), he, rem)
        invariant Buckets(hash, node, NextOf(node), newTable[..], newChains', 0, moved)
        invariant Buckets(hash, node, NextOf(node), table[..], chains, low, later)
        invariant forall k | k in rem :: k in ks && k !in moved
        invariant done + KeySet(ks) == moved + KeySet(rem)
        invariant used == old(used) - |ks| + |rem|
        decreases |rem|
      {
        var next := he.next;
        ChainKeys(node, NextOf(node), he, rem);
        KeySetTail(rem);
        newChains' := MoveEntry(rem, he, newTable, newChains', moved, low, later);
        moved := moved + {rem[0]};
        rem := rem[1..];
        he := next;
      }
    }

    /** The smallest power of two from four on that reaches the size. */
    method NextPower(size: nat) returns (i: nat)
      ensures IsPowerOfTwo(i) && i >= DICT_HT_INITIAL_SIZE
      ensures size < LONG_MAX ==> i >= size && (i == DICT_HT_INITIAL_SIZE || i < 2 * size)
    {
      i := DICT_HT_INITIAL_SIZE;
      if size >= LONG_MAX {
        TopPower();
        return LONG_MAX + 1;
      }
      while i < size
        invariant IsPowerOfTwo(i) && i >= DICT_HT_INITIAL_SIZE && (i == DICT_HT_INITIAL_SIZE || i < 2 * size)
        decreases size - i
      {
        assert (i * 2) / 2 == i;
        i := i * 2;
      }
    }

    /** The state of a rehash before bucket i of the old table is moved. */
    ghost predicate Rehashing(i: nat, newTable: array<Entry?<K, V>>, newChains: seq<seq<K>>, done: set<K>, todo: set<K>)
      reads this, table, newTable, node.Values
    {
      && used == |todo| && done !! todo && done + todo == node.Keys
      && Buckets(hash, node, NextOf(node), newTable[..], newChains, 0, done)
      && Buckets(hash, node, NextOf(node), table[..], chains, i, todo)
    }

    method RehashBucket(i: nat, newTable: array<Entry?<K, V>>,
              ghost newChains: seq<seq<K>>, ghost done: set<K>, ghost todo: set<K>)
      returns (ghost newChains': seq<seq<K>>, ghost done': set<K>, ghost todo': set<K>)
      requires i < table.Length && IsPowerOfTwo(newTable.Length) && newTable != table
      requires Rehashing(i, newTable, newChains, done, todo)
      modifies this`used, newTable, node.Values`next
      ensures Rehashing(i + 1, newTable, newChains', done', todo')
    {
      ghost var ks := chains[i];
      BucketsSplit(hash, node, NextOf(node), table[..], chains, i, todo);
      newChains' := MoveBucket(table[i], ks, newTable, newChains, done, i + 1, todo - KeySet(ks));
      todo', done' := todo - KeySet(ks), done + KeySet(ks);
      assert done' + todo' == done + todo;
    }

    /** Moves every entry to a fresh table.  The source asserts at the end that its
        count of entries still to be moved is zero. */
    method Rehash(newTable: array<Entry?<K, V>>) returns (ghost newChains: seq<seq<K>>)
      requires Valid() && IsPowerOfTwo(newTable.Length) && newTable != table
      requires forall i | 0 <= i < newTable.Length :: newTable[i] == null
      modifies this`used, newTable, node.Values`next
      ensures used == 0
      ensures Buckets(hash, node, NextOf(node), newTable[..], newChains, 0, node.Keys)
    {
      ghost var done, todo := {}, node.Keys;
      newChains := RehashStart(newTable);
      var i := 0;
      while i < table.Length && used > 0
        invariant i <= table.Length && Rehashing(i, newTable, newChains, done, todo)
      {
        newChains, done, todo := RehashBucket(i, newTable, newChains, done, todo);
        i := i + 1;
      }
      RehashDone(i, newTable, newChains, done, todo);
    }

    lemma RehashStart(newTable: array<Entry?<K, V>>) returns (newChains: seq<seq<K>>)
      requires Valid() && forall i | 0 <= i < newTable.Length :: newTable[i] == null
      ensures Rehashing(0, newTable, newChains, {}, node.Keys)
    {
      newChains := EmptyBuckets(hash, node, NextOf(node), newTable[..]);
    }

    lemma RehashDone(i: nat, newTable: array<Entry?<K, V>>, newChains: seq<seq<K>>, done: set<K>, todo: set<K>)
      requires Rehashing(i, newTable, newChains, done, todo) && (i == table.Length || used == 0)
      ensures used == 0
      ensures Buckets(hash, node, NextOf(node), newTable[..], newChains, 0, node.Keys)
    {
      NoneLeft(hash, node, NextOf(node), table[..], chains, i, todo);
      assert done == node.Keys;
    }

    /** Puts the table that a rehash has filled in the place of the old one. */
    method Adopt(newTable: array<Entry?<K, V>>, ghost newChains: seq<seq<K>>, count: nat)
      requires newTable.Length >= DICT_HT_INITIAL_SIZE && IsPowerOfTwo(newTable.Length) && count == |node.Keys|
      requires Buckets(hash, node, NextOf(node), newTable[..], newChains, 0, node.Keys)
      modifies this`table, this`chains, this`used
      ensures Valid() && table == newTable && used == count
    {
      table, chains, used := newTable, newChains, count;
    }

    method Expand(size: nat) returns (ok: bool)
      requires Valid()
      modifies this, node.Values`next
      ensures Valid() && node == old(node) && used == old(used)
      ensures ok <==> old(used) <= size
      ensures if ok then fresh(table) && table.Length > 0 && (size < LONG_MAX ==> table.Length >= size)
              else table == old(table)
    {
      var realsize := NextPower(size);
      if used > size {
        return false;
      }
      var count := used;
      var newTable := new Entry?<K, V>[realsize](_ => null);
      ghost var newChains := Rehash(newTable);
      Adopt(newTable, newChains, count);
      return true;
    }

    method ExpandIfNeeded() returns (ok: bool)
      requires Valid()
      modifies this, node.Values`next
      ensures Valid() && node == old(node) && used == old(used)
      ensures ok && table.Length > 0 && (table == old(table) || fresh(table))
    {
      if table.Length == 0 {
        ok := Expand(DICT_HT_INITIAL_SIZE);
      } else if table.Length == used {
        ok := Expand(table.Length * 2);
      } else {
        ok := true;
      }
    }

    /** The bucket for a new key, or -1 if the key is there already. */
    method KeyIndex(key: K) returns (index: int)
      requires Valid()
      modifies this, node.Values`next
      ensures Valid() && node == old(node) && used == old(used) && (table == old(table) || fresh(table))
      ensures Model() == old(Model())
      ensures key in node ==> index == -1
      ensures key !in node ==> table.Length > 0 && index == Slot(hash, key, table.Length)
    {
      var ok := ExpandIfNeeded();
      if !ok {
        return -1;
      }
      var h := BucketOf(key);
      var he := Walk(key, table[h], chains[h]);
      return if he != null then -1 else h;
    }

    method Add(key: K, val: V) returns (ok: bool)
      requires Valid()
      modifies this, table, node.Values`next
      ensures Valid() && (table == old(table) || fresh(table))
      ensures ok <==> key !in old(Model())
      ensures Model() == if ok then old(Model())[key := val] else old(Model())
      ensures if ok then key in node && fresh(node[key]) && node == old(node)[key := node[key]] && node[key].val == val
              else node == old(node)
    {
      var index := KeyIndex(key);
      if index == -1 {
        return false;
      }
      AddAt(index, key, val);
      return true;
    }

    method AddAt(index: nat, key: K, val: V)
      requires Valid() && key !in node && table.Length > 0 && index == Slot(hash, key, table.Length)
      modifies this`used, this`node, this`chains, table
      ensures Valid() && table == old(table) && key in node && fresh(node[key]) && node[key].val == val
      ensures node == old(node)[key := node[key]] && Model() == old(Model())[key := val]
    {
      var entry := new Entry<K, V>(key, val, table[index]);
      PushEntry(index, entry);
    }

    method PushEntry(index: nat, entry: Entry<K, V>)
      requires Valid() && table.Length > 0 && index == Slot(hash, entry.key, table.Length)
      requires entry.key !in node && entry.next == table[index]
      modifies this`used, this`node, this`chains, table
      ensures Valid() && node == old(node)[entry.key := entry] && table == old(table)
    {
      ghost var key, next, heads := entry.key, NextOf(node), table[..];
      ghost var node', chains' := node[key := entry], chains[index := [key] + chains[index]];
      BucketsWith(hash, node, next, heads, chains, entry, index);
      assert NextOf(node') == next[entry := heads[index]];
      StoreHead(index, entry);
      assert NextOf(node') == next[entry := heads[index]];
      assert Buckets(hash, node', NextOf(node'), table[..], chains', 0, node'.Keys);
      Install(node', chains');
    }

    method StoreHead(index: nat, entry: Entry<K, V>)
      requires index < table.Length
      modifies this`used, table
      ensures table[..] == old(table[..])[index := entry] && used == old(used) + 1
    {
      table[index] := entry;
      used := used + 1;
    }

    method SetValue(entry: Entry<K, V>, val: V)
      requires Valid() && entry.key in node && node[entry.key] == entry
      modifies entry`val
      ensures Valid() && Model() == old(Model())[entry.key := val]
    {
      ghost var next := NextOf(node);
      assert forall k {:trigger node[k]} | k in node :: node[k].key == k;
      entry.val := val;
      assert NextOf(node) == next;
    }

    /** Adds the key, or overwrites its value; true if the key is new. */
    method Replace(key: K, val: V) returns (added: bool)
      requires Valid()
      modifies this, table, node.Values
      ensures Valid() && (table == old(table) || fresh(table))
      ensures added <==> key !in old(Model())
      ensures Model() == old(Model())[key := val]
    {
      added := Add(key, val);
      if !added {
        var entry := Find(key);
        SetValue(entry, val);
      }
    }

    /** Walks a chain with a pointer to the entry before. */
    method Seek(key: K, head: Entry?<K, V>, ghost ks: seq<K>)
      returns (de: Entry?<K, V>, prev: Entry?<K, V>, ghost pre: seq<K>, ghost post: seq<K>)
      requires Chain(node, NextOf(node), head, ks)
      ensures de == null ==> key !in ks
      ensures de != null ==> key in node && de == node[key] && ks == pre + [key] + post
      ensures if pre == [] then prev == null else pre[|pre| - 1] in node && prev == node[pre[|pre| - 1]]
    {
      ghost var rest := ks;
      pre, post := [], [];
      de, prev := head, null;
      while de != null
        invariant Chain(node, NextOf(node), de, rest) && pre + rest == ks && key !in pre
        invariant if pre == [] then prev == null else pre[|pre| - 1] in node && prev == node[pre[|pre| - 1]]
        decreases |rest|
      {
        assert NextOf(node)[de] == de.next;
        post := rest[1..];
        assert ks == pre + [rest[0]] + post;
        if key == de.key {
          return;
        }
        pre, rest := pre + [rest[0]], post;
        prev := de;
        de := de.next;
      }
    }

    /** Takes an entry out, through its predecessor or the head of the bucket. */
    method Bypass(h: nat, de: Entry<K, V>, prev: Entry?<K, V>)
      requires h < table.Length && de in node.Values && (prev != null ==> prev in node.Values && prev != de)
      modifies table, node.Values`next
      ensures NextOf(node) == if prev == null then old(NextOf(node)) else old(NextOf(node))[prev := old(de.next)]
      ensures table[..] == if prev == null then old(table[..])[h := old(de.next)] else old(table[..])
    {
      if prev != null {
        prev.next := de.next;
      } else {
        table[h] := de.next;
      }
    }

    method Delete(key: K) returns (ok: bool)
      requires Valid()
      modifies this`used, this`node, this`chains, table, node.Values`next
      ensures Valid() && table == old(table)
      ensures ok <==> key in old(Model())
      ensures Model() == old(Model()) - {key} && node == old(node) - {key}
    {
      if table.Length == 0 {
        return false;
      }
      var h := BucketOf(key);
      var de, prev, pre, post := Seek(key, table[h], chains[h]);
      if de == null {
        return false;
      }
      UnlinkEntry(h, de, prev, pre, post);
      return true;
    }

    method UnlinkEntry(h: nat, de: Entry<K, V>, prev: Entry?<K, V>, ghost pre: seq<K>, ghost post: seq<K>)
      requires Valid() && table.Length > 0 && h == Slot(hash, de.key, table.Length) && de.key in node && de == node[de.key]
      requires chains[h] == pre + [de.key] + post
      requires if pre == [] then prev == null else pre[|pre| - 1] in node && prev == node[pre[|pre| - 1]]
      modifies this`used, this`node, this`chains, table, node.Values`next
      ensures Valid() && table == old(table) && node == old(node) - {de.key}
    {
      ghost var key, next, heads := de.key, NextOf(node), table[..];
      UnlinkedKeys(node, next, heads[h], pre, key, post);
      Bypass(h, de, prev);
      used := used - 1;
      ghost var node' := node - {key};
      Unlinked(hash, node, next, heads, chains, h, pre, key, post, prev, NextOf(node), node', NextOf(node'), table[..]);
      Install(node', chains[h := pre + post]);
    }

    /** Frees the entries of one bucket; each one's pointer is read before it goes. */
    method FreeBucket(head: Entry?<K, V>, ghost ks: seq<K>, ghost freed: seq<Entry<K, V>>, ghost done: set<K>)
      returns (ghost freed': seq<Entry<K, V>>)
      requires Chain(node, NextOf(node), head, ks) && Freed(node, freed, done)
      requires forall k | k in ks :: k !in done
      requires used >= |ks|
      modifies this`used
      ensures Freed(node, freed', done + KeySet(ks))
      ensures used == old(used) - |ks|
    {
      freed' := freed;
      var he := head;
      ghost var rem, gone := ks, done;
      while he != null
        invariant Chain(node, NextOf(node), he, rem)
        invariant Freed(node, freed', gone)
        invariant forall k | k in rem :: k !in gone
        invariant done + KeySet(ks) == gone + KeySet(rem)
        invariant used == old(used) - |ks| + |rem|
        decreases |rem|
      {
        var next := he.next;
        KeySetTail(rem);
        FreedOne(node, freed', gone, rem[0]);
        freed' := freed' + [he];
        used := used - 1;
        gone, rem := gone + {rem[0]}, rem[1..];
        he := next;
      }
    }

    /** The state of a clearing before bucket i: what is not freed yet is to be found
        from that bucket on, and the counter says how much that is. */
    ghost predicate Clearing(i: nat, freed: seq<Entry<K, V>>, todo: set<K>)
      reads this, table, node.Values
    {
      && used == |todo| && todo <= node.Keys
      && Freed(node, freed, node.Keys - todo)
      && Buckets(hash, node, NextOf(node), table[..], chains, i, todo)
    }

    method ClearBucket(i: nat, ghost freed: seq<Entry<K, V>>, ghost todo: set<K>)
      returns (ghost freed': seq<Entry<K, V>>, ghost todo': set<K>)
      requires i < table.Length && Clearing(i, freed, todo)
      modifies this`used
      ensures Clearing(i + 1, freed', todo')
    {
      BucketReady(i, freed, todo);
      todo' := todo - KeySet(chains[i]);
      freed' := FreeBucket(table[i], chains[i], freed, node.Keys - todo);
      BucketCleared(i, freed', todo, chains[i]);
    }

    lemma BucketReady(i: nat, freed: seq<Entry<K, V>>, todo: set<K>)
      requires i < table.Length && Clearing(i, freed, todo)
      ensures i < |chains| && Chain(node, NextOf(node), table[i], chains[i])
      ensures forall k | k in chains[i] :: k !in node.Keys - todo
      ensures KeySet(chains[i]) <= todo && used - |chains[i]| == |todo - KeySet(chains[i])|
      ensures Buckets(hash, node, NextOf(node), table[..], chains, i + 1, todo - KeySet(chains[i]))
    {
      BucketsSplit(hash, node, NextOf(node), table[..], chains, i, todo);
      assert table[..][i] == table[i];
    }

    lemma BucketCleared(i: nat, freed: seq<Entry<K, V>>, todo: set<K>, ks: seq<K>)
      requires KeySet(ks) <= todo <= node.Keys && used == |todo - KeySet(ks)|
      requires Freed(node, freed, (node.Keys - todo) + KeySet(ks))
      requires Buckets(hash, node, NextOf(node), table[..], chains, i + 1, todo - KeySet(ks))
      ensures Clearing(i + 1, freed, todo - KeySet(ks))
    {
      assert (node.Keys - todo) + KeySet(ks) == node.Keys - (todo - KeySet(ks));
    }

    /** Frees every entry, once, and forgets the table.  The loop may stop before the
        last bucket, when the counter says that nothing is left. */
    method ClearTable() returns (ghost freed: seq<Entry<K, V>>)
      requires Valid()
      modifies this
      ensures Valid() && fresh(table) && Model() == map[]
      ensures forall e :: e in freed <==> e in old(node.Values)
      ensures forall a, b | 0 <= a < b < |freed| :: freed[a] != freed[b]
    {
      ghost var todo := node.Keys;
      freed := [];
      var i := 0;
      while i < table.Length && used > 0
        invariant i <= table.Length && Clearing(i, freed, todo)
        invariant node == old(node) && table == old(table)
      {
        freed, todo := ClearBucket(i, freed, todo);
        i := i + 1;
      }
      NoneLeft(hash, node, NextOf(node), table[..], chains, i, todo);
      assert used == 0;
      table := new Entry?<K, V>[0];
      used, node, chains := 0, map[], [];
    }
  }

  /** These are the entries of these keys, each once. */
  ghost predicate Freed<K(!new), V>(node: map<K, Entry<K, V>>, freed: seq<Entry<K, V>>, done: set<K>) {
    && (forall k | k in done :: k in node && node[k] in freed)
    && (forall e | e in freed :: e.key in done && e.key in node && e == node[e.key])
    && (forall a, b | 0 <= a < b < |freed| :: freed[a] != freed[b])
  }

  lemma FreedOne<K(!new), V>(node: map<K, Entry<K, V>>, freed: seq<Entry<K, V>>, done: set<K>, k: K)
    requires Freed(node, freed, done) && k in node && node[k].key == k && k !in done
    ensures Freed(node, freed + [node[k]], done + {k})
  {
    assert node[k] !in freed;
  }

  lemma KeySetTail<K>(ks: seq<K>)
    requires ks != []
    ensures KeySet(ks) == {ks[0]} + KeySet(ks[1..])
    ensures forall k | k in ks[1..] :: k in ks
  {
    assert ks == [ks[0]] + ks[1..];
  }

  ghost function KeySet<K>(ks: seq<K>): set<K> {
    set k | k in ks
  }

  /** Taking the first of the remaining buckets off. */
  lemma BucketsSplit<K(!new), V>(hash: K -> nat, node: map<K, Entry<K, V>>, next: Links<K, V>,
                                 heads: seq<Entry?<K, V>>, chains: seq<seq<K>>, low: nat, keys: set<K>)
    requires Buckets(hash, node, next, heads, chains, low, keys) && low < |heads|
    ensures Buckets(hash, node, next, heads, chains, low + 1, keys - KeySet(chains[low]))
    ensures KeySet(chains[low]) <= keys && |KeySet(chains[low])| == |chains[low]|
    ensures |keys - KeySet(chains[low])| == |keys| - |chains[low]|
    ensures forall k | k in chains[low] :: k in keys && k !in keys - KeySet(chains[low])
  {
    ChainCount(node, next, heads[low], chains[low]);
    MembersSplit(hash, node, chains, low, keys);
    var ks := KeySet(chains[low]);
    assert keys == (keys - ks) + ks;
  }

  lemma MembersSplit<K(!new), V>(hash: K -> nat, node: map<K, Entry<K, V>>, chains: seq<seq<K>>, low: nat, keys: set<K>)
    requires Members(hash, node, chains, low, keys) && low < |chains|
    ensures Members(hash, node, chains, low + 1, keys - KeySet(chains[low]))
    ensures KeySet(chains[low]) <= keys
    ensures forall k | k in chains[low] :: k in keys && k !in keys - KeySet(chains[low])
  {
    var left := keys - KeySet(chains[low]);
    forall k | k in left ensures low + 1 <= Slot(hash, k, |chains|) && k in chains[Slot(hash, k, |chains|)] {
      assert k in chains[Slot(hash, k, |chains|)];
    }
    forall i, k | low + 1 <= i < |chains| && k in chains[i] ensures k in left {
      assert k in keys && Slot(hash, k, |chains|) == i;
    }
  }

  lemma {:induction false} ChainCount<K(!new), V>(node: map<K, Entry<K, V>>, next: Links<K, V>,
            head: Entry?<K, V>, ks: seq<K>)
    requires Chain(node, next, head, ks)
    ensures |KeySet(ks)| == |ks|
    decreases |ks|
  {
    if ks != [] {
      ChainCount(node, next, next[head], ks[1..]);
      KeySetTail(ks);
    } else {
      assert KeySet(ks) == {};
    }
  }

  lemma EmptyBuckets<K(!new), V>(hash: K -> nat, node: map<K, Entry<K, V>>, next: Links<K, V>, heads: seq<Entry?<K, V>>)
    returns (chains: seq<seq<K>>)
    requires forall i | 0 <= i < |heads| :: heads[i] == null
    ensures Buckets(hash, node, next, heads, chains, 0, {})
  {
    chains := seq(|heads|, _ => []);
  }

  lemma SlotInRange<K(!new), V>(hash: K -> nat, node: map<K, Entry<K, V>>, next: Links<K, V>,
                                heads: seq<Entry?<K, V>>, chains: seq<seq<K>>, low: nat, keys: set<K>, k: K)
    requires Buckets(hash, node, next, heads, chains, low, keys) && k in keys
    ensures low < |heads|
  {
    assert Slot(hash, k, |heads|) < |heads|;
  }

  /** After the last bucket no key is left. */
  lemma NoneLeft<K(!new), V>(hash: K -> nat, node: map<K, Entry<K, V>>, next: Links<K, V>,
                             heads: seq<Entry?<K, V>>, chains: seq<seq<K>>, low: nat, keys: set<K>)
    requires Buckets(hash, node, next, heads, chains, low, keys)
    requires low == |heads| || |keys| == 0
    ensures keys == {}
  {
    if k :| k in keys {
      SlotInRange(hash, node, next, heads, chains, low, keys, k);
      assert false;
    }
  }

  /** Leaving one key out of a chain: its predecessor takes over its successor. */
  lemma {:induction false} ChainUnlink<K(!new), V>(node: map<K, Entry<K, V>>, next: Links<K, V>, head: Entry?<K, V>,
                                                   pre: seq<K>, key: K, post: seq<K>,
                                                   node': map<K, Entry<K, V>>, next': Links<K, V>)
    requires Chain(node, next, head, pre + [key] + post) && key in node && node[key] in next
    requires forall k | k in pre + post && k in node && node[k] in next ::
               && k in node' && node'[k] == node[k] && node[k] in next'
               && next'[node[k]] == if pre != [] && k == pre[|pre| - 1] then next[node[key]] else next[node[k]]
    ensures Chain(node', next', if pre == [] then next[node[key]] else head, pre + post)
    decreases |pre|
  {
    var ks := pre + [key] + post;
    if pre == [] {
      assert ks[1..] == post && pre + post == post;
      assert forall k | k in post :: k in pre + post;
      ChainKeys(node, next, next[node[key]], post);
      ChainFrame(node, next, node', next', next[node[key]], post);
    } else {
      var x, tail := pre[0], pre[1..];
      assert ks[1..] == tail + [key] + post && (pre + post)[1..] == tail + post;
      assert x in ks && x !in ks[1..];
      ChainUnlink(node, next, next[head], tail, key, post, node', next');
    }
  }

  /** The buckets without one key. */
  lemma BucketsUnlink<K(!new), V>(hash: K -> nat, node: map<K, Entry<K, V>>, next: Links<K, V>,
                                  heads: seq<Entry?<K, V>>, chains: seq<seq<K>>, h: nat,
                                  pre: seq<K>, key: K, post: seq<K>,
                                  node': map<K, Entry<K, V>>, next': Links<K, V>, heads': seq<Entry?<K, V>>)
    requires Buckets(hash, node, next, heads, chains, 0, node.Keys) && key in node && node[key] in next
    requires h < |heads| && h == Slot(hash, key, |heads|) && chains[h] == pre + [key] + post
    requires node' == node - {key}
    requires forall k | k in node' && node[k] in next ::
               && node[k] in next'
               && next'[node[k]] == if pre != [] && k == pre[|pre| - 1] then next[node[key]] else next[node[k]]
    requires heads' == if pre == [] then heads[h := next[node[key]]] else heads
    ensures Buckets(hash, node', next', heads', chains[h := pre + post], 0, node'.Keys)
  {
    var chains' := chains[h := pre + post];
    UnlinkedKeys(node, next, heads[h], pre, key, post);
    assert forall k | k in pre + post :: k in chains[h] && k != key;
    assert forall k | k in chains[h] && k != key :: k in pre + post;
    forall i | 0 <= i < |heads| ensures Chain(node', next', heads'[i], chains'[i]) {
      UnlinkInBucket(hash, node, next, heads, chains, h, pre, key, post, node', next', heads', i);
    }
    MembersWithout(hash, node, chains, h, key, node', chains');
  }

  lemma MembersWithout<K(!new), V>(hash: K -> nat, node: map<K, Entry<K, V>>, chains: seq<seq<K>>, h: nat, key: K,
                                   node': map<K, Entry<K, V>>, chains': seq<seq<K>>)
    requires Members(hash, node, chains, 0, node.Keys) && key in node && node' == node - {key}
    requires |chains'| == |chains| && h < |chains| && h == Slot(hash, key, |chains|)
    requires forall i, k | 0 <= i < |chains| :: k in chains'[i] <==> k in chains[i] && (i != h || k != key)
    ensures Members(hash, node', chains', 0, node'.Keys)
  {
    var n := |chains|;
    forall k | k in node'.Keys ensures k in chains'[Slot(hash, k, n)] {
      var i := Slot(hash, k, n);
      assert k in node.Keys && k != key && k in chains[i];
    }
  }

  lemma UnlinkInBucket<K(!new), V>(hash: K -> nat, node: map<K, Entry<K, V>>, next: Links<K, V>,
                                   heads: seq<Entry?<K, V>>, chains: seq<seq<K>>, h: nat,
                                   pre: seq<K>, key: K, post: seq<K>,
                                   node': map<K, Entry<K, V>>, next': Links<K, V>, heads': seq<Entry?<K, V>>, i: nat)
    requires Buckets(hash, node, next, heads, chains, 0, node.Keys) && key in node && node[key] in next
    requires h < |heads| && h == Slot(hash, key, |heads|) && chains[h] == pre + [key] + post && i < |heads|
    requires node' == node - {key}
    requires forall k | k in node' && node[k] in next ::
               && node[k] in next'
               && next'[node[k]] == if pre != [] && k == pre[|pre| - 1] then next[node[key]] else next[node[k]]
    requires heads' == if pre == [] then heads[h := next[node[key]]] else heads
    ensures Chain(node', next', heads'[i], chains[h := pre + post][i])
  {
    if i == h {
      UnlinkedKeys(node, next, heads[h], pre, key, post);
      ChainUnlink(node, next, heads[h], pre, key, post, node', next');
    } else {
      assert pre != [] ==> pre[|pre| - 1] in chains[h];
      assert key in chains[h];
      OtherChain(node, next, heads[i], chains[i], pre, key, node', next');
    }
  }

  lemma OtherChain<K(!new), V>(node: map<K, Entry<K, V>>, next: Links<K, V>, head: Entry?<K, V>, ks: seq<K>,
                               pre: seq<K>, key: K, node': map<K, Entry<K, V>>, next': Links<K, V>)
    requires Chain(node, next, head, ks) && key !in ks && key in node && node[key] in next
    requires node' == node - {key} && (pre != [] ==> pre[|pre| - 1] !in ks)
    requires forall k | k in node' && node[k] in next ::
               && node[k] in next'
               && next'[node[k]] == if pre != [] && k == pre[|pre| - 1] then next[node[key]] else next[node[k]]
    ensures Chain(node', next', head, ks)
  {
    ChainKeys(node, next, head, ks);
    ChainFrame(node, next, node', next', head, ks);
  }

  lemma {:induction false} UnlinkedKeys<K(!new), V>(node: map<K, Entry<K, V>>, next: Links<K, V>, head: Entry?<K, V>,
                                                    pre: seq<K>, key: K, post: seq<K>)
    requires Chain(node, next, head, pre + [key] + post)
    ensures key !in pre && key !in post
    decreases |pre|
  {
    var ks := pre + [key] + post;
    if pre == [] {
      assert ks[1..] == post;
    } else {
      assert ks[1..] == pre[1..] + [key] + post && key in ks[1..];
      UnlinkedKeys(node, next, next[head], pre[1..], key, post);
    }
  }

  /** The pointers of the remaining entries after the predecessor was redirected. */
  lemma LinksWithout<K(!new), V>(node: map<K, Entry<K, V>>, next: Links<K, V>, pre: seq<K>, key: K, prev: Entry?<K, V>,
                                 now: Links<K, V>, node': map<K, Entry<K, V>>, next': Links<K, V>)
    requires key in node && node[key] in next && node' == node - {key}
    requires forall k {:trigger node[k]} | k in node :: node[k].key == k && node[k] in next
    requires if pre == [] then prev == null else pre[|pre| - 1] in node && prev == node[pre[|pre| - 1]]
    requires now == if prev == null then next else next[prev := next[node[key]]]
    requires forall k | k in node' :: node'[k] in next' && next'[node'[k]] == now[node'[k]]
    ensures forall k | k in node' && node[k] in next ::
              && node[k] in next'
              && next'[node[k]] == if pre != [] && k == pre[|pre| - 1] then next[node[key]] else next[node[k]]
  {
    forall k | k in node' && node[k] in next
      ensures node[k] in next' && next'[node[k]] ==
                if pre != [] && k == pre[|pre| - 1] then next[node[key]] else next[node[k]]
    {
      assert node'[k] == node[k] && node[k].key == k;
    }
  }

  lemma Unlinked<K(!new), V>(hash: K -> nat, node: map<K, Entry<K, V>>, next: Links<K, V>,
                             heads: seq<Entry?<K, V>>, chains: seq<seq<K>>, h: nat,
                             pre: seq<K>, key: K, post: seq<K>, prev: Entry?<K, V>, now: Links<K, V>,
                             node': map<K, Entry<K, V>>, next': Links<K, V>, heads': seq<Entry?<K, V>>)
    requires Buckets(hash, node, next, heads, chains, 0, node.Keys) && key in node && node' == node - {key}
    requires forall k | k in node :: node[k] in next
    requires forall k | k in node' :: node'[k] in next' && node'[k] in now && next'[node'[k]] == now[node'[k]]
    requires h < |heads| && h == Slot(hash, key, |heads|) && chains[h] == pre + [key] + post
    requires if pre == [] then prev == null else pre[|pre| - 1] in node && prev == node[pre[|pre| - 1]]
    requires now == if prev == null then next else next[prev := next[node[key]]]
    requires heads' == if prev == null then heads[h := next[node[key]]] else heads
    ensures Buckets(hash, node', next', heads', chains[h := pre + post], 0, node'.Keys)
    ensures |node'.Keys| == |node.Keys| - 1
  {
    assert node'.Keys == node.Keys - {key};
    LinksWithout(node, next, pre, key, prev, now, node', next');
    BucketsUnlink(hash, node, next, heads, chains, h, pre, key, post, node', next', heads');
  }
}
