/**
 The chained hash map of horse64/hash.c: buckets of linked entries, keyed by byte strings. The hash function is a
 parameter: everything here holds for any.
 */
module HashMap {
  import opened Options
  import opened Words

  type Key = seq<Byte>

  datatype Entry = Entry(key: Key, number: nat)

  /** The chains of all buckets. */
  type Table = seq<seq<Entry>>

  /** The key of an integer map: the bytes of the integer. */
  function IntKey(n: int): Key { Encode(I64, n) }

  /** Different integers have different keys, so a map of integers is a map of their keys. */
  lemma IntKeysApart(m: int, n: int)
    requires InRange(I64, m) && InRange(I64, n)
    ensures IntKey(m) == IntKey(n) <==> m == n
  {
    IntRoundTrip(I64, m);
    IntRoundTrip(I64, n);
  }

  /** The eight bytes of an integer, least significant first. */
  lemma IntKeyBytes(n: int, i: nat)
    requires i < 8
    ensures |IntKey(n)| == 8 && IntKey(n)[i] == n / Pow256(i) % 256
  {
    EncodedDigit(I64, n, i);
  }

  // ------------------------------------------------------------------ one chain

  /** The number of the first entry with the key. */
  function Find(chain: seq<Entry>, key: Key): Option<nat> {
    if |chain| == 0 then None
    else if chain[0].key == key then Some(chain[0].number)
    else Find(chain[1..], key)
  }

  /** The chain without the first entry of the key. */
  function Without(chain: seq<Entry>, key: Key): seq<Entry> {
    if |chain| == 0 then []
    else if chain[0].key == key then chain[1..]
    else [chain[0]] + Without(chain[1..], key)
  }

  predicate Distinct(chain: seq<Entry>) {
    forall i, j :: 0 <= i < j < |chain| ==> chain[i].key != chain[j].key
  }

  lemma {:induction false} FindsNone(chain: seq<Entry>, key: Key)
    ensures Find(chain, key) == None <==> forall e :: e in chain ==> e.key != key
  {
    if |chain| > 0 {
      FindsNone(chain[1..], key);
      assert chain == [chain[0]] + chain[1..];
    }
  }

  lemma {:induction false} FindsEntry(chain: seq<Entry>, e: Entry)
    requires Distinct(chain)
    ensures e in chain <==> Find(chain, e.key) == Some(e.number)
  {
    if |chain| > 0 {
      FindsEntry(chain[1..], e);
      assert chain == [chain[0]] + chain[1..];
    }
  }

  lemma {:induction false} WithoutIsSubset(chain: seq<Entry>, key: Key, e: Entry)
    requires e in Without(chain, key)
    ensures e in chain
  {
    if chain[0].key != key && e != chain[0] { WithoutIsSubset(chain[1..], key, e); }
  }

  lemma {:induction false} WithoutDropsKey(chain: seq<Entry>, key: Key)
    requires Distinct(chain)
    ensures Distinct(Without(chain, key)) && forall e :: e in Without(chain, key) ==> e.key != key
  {
    if |chain| > 0 && chain[0].key == key {
      forall e: Entry | e in chain[1..] ensures e.key != key {
        var k :| 0 <= k < |chain[1..]| && chain[1..][k] == e;
        assert chain[k + 1] == e;
      }
    } else if |chain| > 0 {
      WithoutDropsKey(chain[1..], key);
      var rest := Without(chain[1..], key);
      forall k | 0 <= k < |rest| ensures rest[k].key != chain[0].key {
        WithoutIsSubset(chain[1..], key, rest[k]);
        var i :| 0 <= i < |chain[1..]| && chain[1..][i] == rest[k];
        assert chain[i + 1] == rest[k];
      }
    }
  }

  lemma {:induction false} WithoutAt(chain: seq<Entry>, j: nat, key: Key)
    requires j < |chain| && chain[j].key == key && forall k :: 0 <= k < j ==> chain[k].key != key
    ensures Without(chain, key) == chain[..j] + chain[j + 1..] && Find(chain, key) == Some(chain[j].number)
  {
    if j > 0 { WithoutAt(chain[1..], j - 1, key); }
  }

  lemma {:induction false} WithoutNone(chain: seq<Entry>, key: Key)
    requires forall k :: 0 <= k < |chain| ==> chain[k].key != key
    ensures Without(chain, key) == chain && Find(chain, key) == None
  {
    if |chain| > 0 { WithoutNone(chain[1..], key); }
  }

  lemma {:induction false} FindWithout(chain: seq<Entry>, key: Key, other: Key)
    requires other != key
    ensures Find(Without(chain, key), other) == Find(chain, other)
  {
    if |chain| > 0 && chain[0].key != key {
      FindWithout(chain[1..], key, other);
      assert Without(chain, key)[1..] == Without(chain[1..], key);
    }
  }

  lemma {:induction false} FindAppended(chain: seq<Entry>, last: Entry, key: Key)
    ensures Find(chain + [last], key) ==
            if Find(chain, key).Some? then Find(chain, key) else if last.key == key then Some(last.number) else None
  {
    if |chain| > 0 {
      FindAppended(chain[1..], last, key);
      assert (chain + [last])[1..] == chain[1..] + [last];
    }
  }

  // ------------------------------------------------------------------ the table

  function Slot(hash: Key -> nat, count: nat, key: Key): (i: nat)
    requires count > 0
    ensures i < count
  {
    hash(key) % count
  }

  function Get(t: Table, hash: Key -> nat, key: Key): Option<nat>
    requires |t| > 0
  {
    Find(t[Slot(hash, |t|, key)], key)
  }

  /** _hash_MapUnset */
  function Unset(t: Table, hash: Key -> nat, key: Key): (r: Table)
    requires |t| > 0
    ensures |r| == |t|
  {
    var i := Slot(hash, |t|, key);
    t[i := Without(t[i], key)]
  }

  /** _hash_MapSet: the entry is added at the end, whatever the chain holds. */
  function Add(t: Table, hash: Key -> nat, key: Key, number: nat): (r: Table)
    requires |t| > 0
    ensures |r| == |t|
  {
    var i := Slot(hash, |t|, key);
    t[i := t[i] + [Entry(key, number)]]
  }

  datatype Op = Put(key: Key, number: nat) | Drop(key: Key)

  /** hash_BytesMapSet and hash_BytesMapUnset. */
  function Apply(t: Table, hash: Key -> nat, op: Op): (r: Table)
    requires |t| > 0
    ensures |r| == |t|
  {
    match op
    case Put(key, number) => Add(Unset(t, hash, key), hash, key, number)
    case Drop(key) => Unset(t, hash, key)
  }

  function ApplyAll(t: Table, hash: Key -> nat, ops: seq<Op>): (r: Table)
    requires |t| > 0
    ensures |r| == |t|
  {
    if |ops| == 0 then t else Apply(ApplyAll(t, hash, ops[..|ops| - 1]), hash, ops[|ops| - 1])
  }

  function Empty(count: nat): Table {
    seq(count, i => [])
  }

  /** Entries sit in the bucket of their key, and no chain holds a key twice. */
  predicate Good(t: Table, hash: Key -> nat) {
    && |t| > 0
    && (forall i :: 0 <= i < |t| ==> Distinct(t[i]))
    && (forall i, e :: 0 <= i < |t| && e in t[i] ==> Slot(hash, |t|, e.key) == i)
  }

  // ------------------------------------------------------------------ refinement

  function Lookup(m: map<Key, nat>, key: Key): Option<nat> {
    if key in m then Some(m[key]) else None
  }

  ghost predicate Represents(t: Table, hash: Key -> nat, m: map<Key, nat>)
    requires |t| > 0
  {
    forall key :: Get(t, hash, key) == Lookup(m, key)
  }

  function MapAfter(m: map<Key, nat>, ops: seq<Op>): map<Key, nat> {
    if |ops| == 0 then m
    else
      var before := MapAfter(m, ops[..|ops| - 1]);
      match ops[|ops| - 1]
      case Put(key, number) => before[key := number]
      case Drop(key) => before - {key}
  }

  lemma UnsetKeepsGood(t: Table, hash: Key -> nat, key: Key)
    requires Good(t, hash)
    ensures Good(Unset(t, hash, key), hash) && Get(Unset(t, hash, key), hash, key) == None
  {
    var i, r := Slot(hash, |t|, key), Unset(t, hash, key);
    WithoutDropsKey(t[i], key);
    FindsNone(r[i], key);
    forall k: int, e: Entry | 0 <= k < |r| && e in r[k] ensures Slot(hash, |r|, e.key) == k {
      if k == i { WithoutIsSubset(t[i], key, e); }
    }
  }

  lemma AddKeepsGood(t: Table, hash: Key -> nat, key: Key, number: nat)
    requires Good(t, hash) && Get(t, hash, key) == None
    ensures Good(Add(t, hash, key, number), hash)
  {
    var i, r := Slot(hash, |t|, key), Add(t, hash, key, number);
    FindsNone(t[i], key);
    assert Distinct(r[i]);
  }

  lemma ApplyKeepsGood(t: Table, hash: Key -> nat, op: Op)
    requires Good(t, hash)
    ensures Good(Apply(t, hash, op), hash)
  {
    UnsetKeepsGood(t, hash, op.key);
    if op.Put? { AddKeepsGood(Unset(t, hash, op.key), hash, op.key, op.number); }
  }

  /** One call changes the answer for its own key and for no other. */
  lemma ApplyAnswers(t: Table, hash: Key -> nat, op: Op, key: Key)
    requires Good(t, hash)
    ensures Get(Apply(t, hash, op), hash, key) ==
            if key != op.key then Get(t, hash, key) else if op.Put? then Some(op.number) else None
  {
    UnsetKeepsGood(t, hash, op.key);
    var i, u := Slot(hash, |t|, key), Unset(t, hash, op.key);
    if key != op.key { FindWithout(t[i], op.key, key); }
    if op.Put? { FindAppended(u[i], Entry(op.key, op.number), key); }
  }

  /** The table after any run of calls is the finite map after that run; no key is stored twice anywhere. */
  lemma {:induction false} RunRefines(count: nat, hash: Key -> nat, ops: seq<Op>)
    requires count > 0
    ensures var t := ApplyAll(Empty(count), hash, ops);
            && Good(t, hash)
            && Represents(t, hash, MapAfter(map[], ops))
            && (forall i, j, k, l | 0 <= i < |t| && 0 <= j < |t| && 0 <= k < |t[i]| && 0 <= l < |t[j]| ::
                  t[i][k].key == t[j][l].key ==> i == j && k == l)
  {
    if |ops| > 0 {
      var front, last := ops[..|ops| - 1], ops[|ops| - 1];
      RunRefines(count, hash, front);
      var before := ApplyAll(Empty(count), hash, front);
      ApplyKeepsGood(before, hash, last);
      forall key ensures Get(Apply(before, hash, last), hash, key) == Lookup(MapAfter(map[], ops), key) {
        ApplyAnswers(before, hash, last, key);
        assert Get(before, hash, key) == Lookup(MapAfter(map[], front), key);
      }
    }
    StoredOnce(ApplyAll(Empty(count), hash, ops), hash);
  }

  lemma StoredOnce(t: Table, hash: Key -> nat)
    requires Good(t, hash)
    ensures forall i, j, k, l | 0 <= i < |t| && 0 <= j < |t| && 0 <= k < |t[i]| && 0 <= l < |t[j]| ::
              t[i][k].key == t[j][l].key ==> i == j && k == l
  {
    forall i, j, k, l | 0 <= i < |t| && 0 <= j < |t| && 0 <= k < |t[i]| && 0 <= l < |t[j]| && t[i][k].key == t[j][l].key
      ensures i == j && k == l
    {
      assert t[i][k] in t[i] && t[j][l] in t[j];
      assert Distinct(t[i]);
    }
  }

  // ------------------------------------------------------------------ iteration

  /** The entries of the first n buckets in the order in which they are visited. */
  function Snapshot(t: Table, n: nat): seq<Entry>
    requires n <= |t|
  {
    if n == 0 then [] else Snapshot(t, n - 1) + t[n - 1]
  }

  lemma {:induction false} SnapshotHolds(t: Table, n: nat, e: Entry)
    requires n <= |t|
    ensures e in Snapshot(t, n) <==> exists i :: 0 <= i < n && e in t[i]
  {
    if n > 0 {
      SnapshotHolds(t, n - 1, e);
      assert e in Snapshot(t, n) <==> e in Snapshot(t, n - 1) || e in t[n - 1];
    }
  }

  lemma {:induction false} SnapshotDistinct(t: Table, hash: Key -> nat, n: nat)
    requires Good(t, hash) && n <= |t|
    ensures Distinct(Snapshot(t, n))
  {
    if n > 0 {
      SnapshotDistinct(t, hash, n - 1);
      var front, last := Snapshot(t, n - 1), t[n - 1];
      forall i, j | 0 <= i < |front| && 0 <= j < |last| ensures front[i].key != last[j].key {
        SnapshotHolds(t, n - 1, front[i]);
        assert last[j] in t[n - 1];
      }
    }
  }

  /** What is iterated over is the map, every entry once. */
  lemma {:induction false} SnapshotIsMap(t: Table, hash: Key -> nat, m: map<Key, nat>)
    requires Good(t, hash) && Represents(t, hash, m)
    ensures Distinct(Snapshot(t, |t|))
    ensures forall e: Entry :: e in Snapshot(t, |t|) <==> e.key in m && m[e.key] == e.number
  {
    SnapshotDistinct(t, hash, |t|);
    forall e: Entry ensures e in Snapshot(t, |t|) <==> e.key in m && m[e.key] == e.number {
      SnapshotHolds(t, |t|, e);
      var i := Slot(hash, |t|, e.key);
      FindsEntry(t[i], e);
      assert Get(t, hash, e.key) == Lookup(m, e.key);
    }
  }

  /** What a callback does to the map before it returns, and whether it wants to go on. */
  datatype Reply = Reply(ops: seq<Op>, goOn: bool)

  /** The table once the first n callbacks have returned. */
  function AfterReplies(t: Table, hash: Key -> nat, replies: nat -> Reply, n: nat): (r: Table)
    requires |t| > 0
    ensures |r| == |t|
  {
    if n == 0 then t else ApplyAll(AfterReplies(t, hash, replies, n - 1), hash, replies(n - 1).ops)
  }

  // ------------------------------------------------------------------ the map in memory

  class Node {
    const key: Key
    const number: nat
    ghost const home: nat
    var next: Node?
    var prev: Node?

    constructor (key: Key, number: nat, prev: Node?, ghost home: nat)
      ensures this.key == key && this.number == number && this.home == home && next == null && this.prev == prev
    {
      this.key, this.number, this.home, this.next, this.prev := key, number, home, null, prev;
    }
  }

  ghost function Entries(chain: seq<Node>): (r: seq<Entry>)
    ensures |r| == |chain|
  {
    seq(|chain|, j requires 0 <= j < |chain| => Entry(chain[j].key, chain[j].number))
  }

  /** The node at that place of the chain; null outside. */
  ghost function NodeAt(chain: seq<Node>, j: int): Node? {
    if 0 <= j < |chain| then chain[j] else null
  }

  lemma PlacesJoined(a: seq<Node>, b: seq<Node>)
    ensures forall k :: 0 <= k < |a| ==> NodeAt(a + b, k) == a[k]
    ensures forall k :: |a| <= k ==> NodeAt(a + b, k) == NodeAt(b, k - |a|)
  {
  }

  lemma EntriesWithout(c: seq<Node>, j: nat)
    requires j < |c|
    ensures Entries(c[..j] + c[j + 1..]) == Entries(c)[..j] + Entries(c)[j + 1..]
  {
  }

  class Map {
    const hash: Key -> nat
    const buckets: array<Node?>
    ghost var chains: seq<seq<Node>>
    ghost var nodes: set<Node>

    /** The chain of a bucket. The backward link of its first node is stale once an older first node was removed. */
    ghost predicate Linked(i: nat)
      requires i < |chains| == buckets.Length
      reads this, buckets, nodes
    {
      var c := chains[i];
      && buckets[i] == NodeAt(c, 0)
      && (forall j :: 0 <= j < |c| ==> c[j] in nodes && c[j].home == i && c[j].next == NodeAt(c, j + 1))
      && (forall j :: 1 <= j < |c| ==> c[j].prev == NodeAt(c, j - 1))
      && (forall j, k :: 0 <= j < k < |c| ==> c[j] != c[k])
    }

    ghost predicate Valid()
      reads this, buckets, nodes
    {
      && 0 < |chains| == buckets.Length
      && forall i: nat :: i < |chains| ==> Linked(i)
    }

    ghost function Table(): (t: Table)
      requires 0 < |chains|
      reads this
      ensures |t| == |chains|
    {
      seq(|chains|, i requires 0 <= i < |chains| reads this => Entries(chains[i]))
    }

    constructor (hash: Key -> nat, count: nat)
      requires count > 0
      ensures Valid() && fresh(buckets) && nodes == {} && this.hash == hash
      ensures Table() == Empty(count)
    {
      this.hash := hash;
      this.buckets := new Node?[count](i => null);
      this.chains := seq(count, i => []);
      this.nodes := {};
      new;
      assert forall i :: 0 <= i < count ==> Table()[i] == Empty(count)[i];
    }

    /** The loop of _hash_MapGet. */
    method Lookup(key: Key) returns (r: Option<nat>)
      requires Valid()
      ensures r == Get(Table(), hash, key)
    {
      var i := hash(key) % buckets.Length;
      var bk := buckets[i];
      ghost var c, entries, j := chains[i], Entries(chains[i]), 0;
      assert Linked(i) && entries[0..] == entries;
      while bk != null
        invariant 0 <= j <= |c| && bk == NodeAt(c, j)
        invariant Find(entries, key) == Find(entries[j..], key)
        decreases |c| - j
      {
        if bk.key == key { return Some(bk.number); }
        assert entries[j..][1..] == entries[j + 1..];
        bk := bk.next;
        j := j + 1;
      }
      return None;
    }

    /** What a chain says about its j-th node. */
    lemma LinkedAt(i: nat, j: nat)
      requires Valid() && i < |chains| && j < |chains[i]|
      ensures var n, c := chains[i][j], chains[i];
              && n in nodes && n.home == i && n.next == NodeAt(c, j + 1) && (j > 0 ==> n.prev == NodeAt(c, j - 1))
              && (forall k :: 0 <= k < |c| && k != j ==> c[k] != n)
    {
      assert Linked(i);
    }

    /** Chains whose nodes and bucket were not written to stay linked. */
    twostate lemma OthersLinked(i: nat)
      requires old(Valid()) && i < |chains| == |old(chains)| && old(nodes) <= nodes
      requires forall k :: 0 <= k < |chains| && k != i ==> chains[k] == old(chains[k]) && buckets[k] == old(buckets[k])
      requires forall n :: n in old(nodes) && n.home != i ==> n.next == old(n.next) && n.prev == old(n.prev)
      ensures forall k: nat :: k < |chains| && k != i ==> Linked(k)
    {
      forall k: nat | k < |chains| && k != i ensures Linked(k) { assert old(Linked(k)); }
    }

    /** The chain with a node more is linked, if its links are those of before but for the new one. */
    twostate lemma LongerLinked(i: nat, new bk: Node)
      requires old(Valid()) && i < |chains| == |old(chains)| && nodes == old(nodes) + {bk}
      requires chains[i] == old(chains[i]) + [bk] && bk !in old(nodes)
      requires bk.home == i && bk.next == null && buckets[i] == NodeAt(chains[i], 0)
      requires |chains[i]| > 1 ==> bk.prev == NodeAt(chains[i], |chains[i]| - 2)
      requires forall j :: 0 <= j < |chains[i]| - 1 ==> chains[i][j].next == NodeAt(chains[i], j + 1)
      requires forall j :: 0 <= j < |chains[i]| - 1 ==> chains[i][j].prev == old(chains[i][j].prev)
      ensures Linked(i)
    {
      assert old(Linked(i));
    }

    /** Put a new node behind the last one of its chain. */
    method Attach(i: nat, last: Node?, bk: Node)
      requires Valid() && i < buckets.Length && bk !in nodes && bk.home == i && bk.next == null && bk.prev == last
      requires last == NodeAt(chains[i], |chains[i]| - 1)
      modifies this, buckets, nodes
      ensures Valid() && nodes == old(nodes) + {bk} && chains == old(chains)[i := old(chains[i]) + [bk]]
    {
      hide Linked;
      ghost var c := chains[i];
      forall j: nat | j < |c|
        ensures c[j] in nodes && c[j].home == i && c[j].next == NodeAt(c, j + 1) && (j < |c| - 1 ==> c[j] != last)
      {
        LinkedAt(i, j);
      }
      FirstLinked(i);
      if last == null {
        buckets[i] := bk;
      } else {
        last.next := bk;
      }
      chains, nodes := chains[i := c + [bk]], nodes + {bk};
      OthersLinked(i);
      LongerLinked(i, bk);
    }

    lemma FirstLinked(i: nat)
      requires Valid() && i < |chains|
      ensures buckets[i] == NodeAt(chains[i], 0)
    {
      assert Linked(i);
    }

    /** _hash_MapSet: walk to the last entry of the bucket and link the new one behind it. */
    method Link(key: Key, number: nat)
      requires Valid()
      modifies this, buckets, nodes
      ensures Valid() && fresh(nodes - old(nodes))
      ensures Table() == Add(old(Table()), hash, key, number)
    {
      var i := hash(key) % buckets.Length;
      assert Linked(i);
      var last: Node? := null;
      if buckets[i] != null {
        last := buckets[i];
        ghost var j := 0;
        while last.next != null
          invariant 0 <= j < |chains[i]| && last == NodeAt(chains[i], j)
          decreases |chains[i]| - j
        {
          last, j := last.next, j + 1;
        }
      }
      var bk := new Node(key, number, last, i);
      Attach(i, last, bk);
      assert Entries(chains[i]) == old(Entries(chains[i])) + [Entry(key, number)];
      assert Table() == old(Table())[i := old(Table()[i]) + [Entry(key, number)]];
    }

    /** The nodes of a and then those of b, all of bucket i, are linked in this order. */
    ghost predicate Joined(i: nat, a: seq<Node>, b: seq<Node>)
      requires i < buckets.Length
      reads this`nodes, buckets, nodes
    {
      && buckets[i] == (if |a| > 0 then a[0] else NodeAt(b, 0))
      && (forall k :: 0 <= k < |a| ==> a[k] in nodes && a[k].home == i)
      && (forall k :: 0 <= k < |b| ==> b[k] in nodes && b[k].home == i)
      && (forall k :: 0 <= k < |a| - 1 ==> a[k].next == a[k + 1]) && (|a| > 0 ==> a[|a| - 1].next == NodeAt(b, 0))
      && (forall k :: 0 <= k < |b| ==> b[k].next == NodeAt(b, k + 1))
      && (forall k :: 1 <= k < |a| ==> a[k].prev == a[k - 1])
      && (forall k :: 1 <= k < |b| ==> b[k].prev == b[k - 1])
      && (|a| > 0 && |b| > 0 ==> b[0].prev == a[|a| - 1])
      && (forall k, l :: 0 <= k < l < |a| ==> a[k] != a[l])
      && (forall k, l :: 0 <= k < l < |b| ==> b[k] != b[l])
      && (forall k, l :: 0 <= k < |a| && 0 <= l < |b| ==> a[k] != b[l])
    }

    /** Then they make one linked chain. */
    lemma JoinedLinked(i: nat, a: seq<Node>, b: seq<Node>)
      requires i < |chains| == buckets.Length && Joined(i, a, b) && chains[i] == a + b
      ensures Linked(i)
    {
      var c := chains[i];
      PlacesJoined(a, b);
      forall k: nat | k < |c|
        ensures c[k] in nodes && c[k].home == i && c[k].next == NodeAt(c, k + 1) && (k > 0 ==> c[k].prev == NodeAt(c, k - 1))
      {
        if k < |a| { JoinedInFront(i, a, b, k); } else { JoinedBehind(i, a, b, k - |a|); }
      }
      forall k, l | 0 <= k < l < |c| ensures c[k] != c[l] { JoinedApart(i, a, b, k, l); }
      assert buckets[i] == NodeAt(c, 0);
    }

    lemma JoinedApart(i: nat, a: seq<Node>, b: seq<Node>, k: nat, l: nat)
      requires i < buckets.Length && Joined(i, a, b) && k < l < |a + b|
      ensures (a + b)[k] != (a + b)[l]
    {
    }

    lemma JoinedInFront(i: nat, a: seq<Node>, b: seq<Node>, k: nat)
      requires i < buckets.Length && Joined(i, a, b) && k < |a|
      ensures var c := a + b;
              && c[k] in nodes && c[k].home == i && c[k].next == NodeAt(c, k + 1) && (k > 0 ==> c[k].prev == NodeAt(c, k - 1))
    {
      PlacesJoined(a, b);
      assert (a + b)[k] == a[k];
    }

    lemma JoinedBehind(i: nat, a: seq<Node>, b: seq<Node>, k: nat)
      requires i < buckets.Length && Joined(i, a, b) && k < |b|
      ensures var c, n := a + b, |a| + k;
              && c[n] in nodes && c[n].home == i && c[n].next == NodeAt(c, n + 1) && (n > 0 ==> c[n].prev == NodeAt(c, n - 1))
    {
      PlacesJoined(a, b);
      assert (a + b)[|a| + k] == b[k];
    }

    /** What lies behind the j-th node of a chain. */
    lemma BehindNode(i: nat, j: nat)
      requires Valid() && i < |chains| && j < |chains[i]|
      ensures var c, b := chains[i], chains[i][j + 1..];
              && c[j].next == NodeAt(b, 0)
              && (forall k :: 0 <= k < |b| ==> b[k] in nodes && b[k].home == i && b[k] != c[j])
              && (forall k :: 0 <= k < |b| ==> b[k].next == NodeAt(b, k + 1))
              && (forall k :: 1 <= k < |b| ==> b[k].prev == b[k - 1])
              && (forall k, l :: 0 <= k < l < |b| ==> b[k] != b[l])
    {
      assert Linked(i);
      var c, b := chains[i], chains[i][j + 1..];
      forall k | 0 <= k < |b| ensures b[k] == c[j + 1 + k] && NodeAt(b, k + 1) == NodeAt(c, j + 2 + k) {
      }
      assert NodeAt(b, 0) == NodeAt(c, j + 1);
    }

    /** What lies in front of it. */
    lemma BeforeNode(i: nat, j: nat)
      requires Valid() && i < |chains| && j < |chains[i]|
      ensures var c, a := chains[i], chains[i][..j];
              && NodeAt(c, j - 1) == NodeAt(a, |a| - 1)
              && (forall k :: 0 <= k < |a| ==> a[k] in nodes && a[k].home == i && a[k] != c[j])
              && (forall k :: 0 <= k < |a| - 1 ==> a[k].next == a[k + 1])
              && (forall k :: 1 <= k < |a| ==> a[k].prev == a[k - 1])
              && (forall k, l :: 0 <= k < l < |a| ==> a[k] != a[l])
              && (j > 0 ==> buckets[i] == a[0])
    {
      assert Linked(i);
    }

    lemma SidesApart(i: nat, j: nat)
      requires Valid() && i < |chains| && j < |chains[i]|
      ensures var a, b := chains[i][..j], chains[i][j + 1..];
              forall k, l :: 0 <= k < |a| && 0 <= l < |b| ==> a[k] != b[l]
    {
      assert Linked(i);
    }

    /** The writes that close the gap around the j-th node of a chain. */
    method Bypass(i: nat, prev: Node?, bk: Node, ghost j: nat)
      requires Valid() && i < buckets.Length && j < |chains[i]|
      requires bk == chains[i][j] && prev == NodeAt(chains[i], j - 1)
      modifies buckets, nodes
      ensures forall k :: 0 <= k < buckets.Length && k != i ==> buckets[k] == old(buckets[k])
      ensures forall n :: n in nodes && n.home != i ==> n.next == old(n.next) && n.prev == old(n.prev)
      ensures Joined(i, chains[i][..j], chains[i][j + 1..])
    {
      hide Linked;
      BeforeNode(i, j);
      BehindNode(i, j);
      SidesApart(i, j);
      ghost var a, b := chains[i][..j], chains[i][j + 1..];
      var behind := bk.next;
      if prev != null {
        prev.next := behind;
        if behind != null { behind.prev := prev; }
      } else {
        buckets[i] := behind;
      }
      assert Joined(i, a, b);
    }

    /** Take the j-th node out of its chain. */
    method Relink(i: nat, prev: Node?, bk: Node, ghost j: nat)
      requires Valid() && i < buckets.Length && j < |chains[i]|
      requires bk == chains[i][j] && prev == NodeAt(chains[i], j - 1)
      modifies this, buckets, nodes
      ensures Valid() && nodes == old(nodes)
      ensures chains == old(chains)[i := old(chains[i])[..j] + old(chains[i])[j + 1..]]
    {
      hide Linked, Joined;
      ghost var c := chains[i];
      Bypass(i, prev, bk, j);
      chains := chains[i := c[..j] + c[j + 1..]];
      OthersLinked(i);
      JoinedLinked(i, c[..j], c[j + 1..]);
    }

    /** The walk of _hash_MapUnset: the first node of the key and the one before it. */
    method Locate(i: nat, key: Key) returns (prev: Node?, bk: Node?, ghost j: nat)
      requires Valid() && i < buckets.Length
      ensures j <= |chains[i]| && bk == NodeAt(chains[i], j) && prev == NodeAt(chains[i], j - 1)
      ensures forall k :: 0 <= k < j ==> chains[i][k].key != key
      ensures bk != null ==> bk.key == key
    {
      hide Linked;
      prev, bk, j := null, buckets[i], 0;
      FirstLinked(i);
      while bk != null && bk.key != key
        invariant 0 <= j <= |chains[i]| && bk == NodeAt(chains[i], j) && prev == NodeAt(chains[i], j - 1)
        invariant forall k :: 0 <= k < j ==> chains[i][k].key != key
        decreases |chains[i]| - j
      {
        LinkedAt(i, j);
        prev, bk, j := bk, bk.next, j + 1;
      }
    }

    /** _hash_MapUnset */
    method Unlink(key: Key) returns (found: bool)
      requires Valid()
      modifies this, buckets, nodes
      ensures Valid() && nodes == old(nodes)
      ensures Table() == Unset(old(Table()), hash, key)
      ensures found <==> old(Get(Table(), hash, key)).Some?
    {
      hide Linked, Without, Find;
      var i := hash(key) % buckets.Length;
      ghost var c, entries := chains[i], Entries(chains[i]);
      var prev, bk, j := Locate(i, key);
      if bk == null {
        WithoutNone(entries, key);
        assert Table() == old(Table())[i := entries];
        return false;
      }
      WithoutAt(entries, j, key);
      Relink(i, prev, bk, j);
      EntriesWithout(c, j);
      assert Table() == old(Table())[i := Without(entries, key)];
      return true;
    }

    /** hash_BytesMapSet and hash_BytesMapUnset. */
    method Change(op: Op)
      requires Valid()
      modifies this, buckets, nodes
      ensures Valid() && fresh(nodes - old(nodes))
      ensures Table() == Apply(old(Table()), hash, op)
    {
      var _ := Unlink(op.key);
      if op.Put? { Link(op.key, op.number); }
    }

    method ChangeAll(ops: seq<Op>)
      requires Valid()
      modifies this, buckets, nodes
      ensures Valid() && fresh(nodes - old(nodes))
      ensures Table() == ApplyAll(old(Table()), hash, ops)
    {
      for k := 0 to |ops|
        invariant Valid() && fresh(nodes - old(nodes))
        invariant Table() == ApplyAll(old(Table()), hash, ops[..k])
      {
        assert ops[..k + 1][..k] == ops[..k];
        Change(ops[k]);
      }
      assert ops[..|ops|] == ops;
    }

    /** The first half of _hash_MapIterateEx: copy out all entries. */
    method CopyOut() returns (entries: seq<Entry>)
      requires Valid()
      ensures entries == Snapshot(Table(), |Table()|)
    {
      entries := [];
      for i := 0 to buckets.Length
        invariant entries == Snapshot(Table(), i)
      {
        var bk := buckets[i];
        ghost var c, j := chains[i], 0;
        assert Linked(i);
        while bk != null
          invariant 0 <= j <= |c| && bk == NodeAt(c, j)
          invariant entries == Snapshot(Table(), i) + Entries(c)[..j]
          decreases |c| - j
        {
          entries := entries + [Entry(bk.key, bk.number)];
          bk, j := bk.next, j + 1;
        }
        assert Entries(c)[..j] == Table()[i];
      }
    }

    /**
     _hash_MapIterateEx. Whatever the callbacks do to the map, they are handed the entries it had at the start, all of
     them unless one asks to stop.
     */
    method Iterate(replies: nat -> Reply) returns (seen: seq<Entry>, ok: bool)
      requires Valid()
      modifies this, buckets, nodes
      ensures Valid() && fresh(nodes - old(nodes))
      ensures seen <= Snapshot(old(Table()), |old(Table())|)
      ensures ok <==> forall k: nat :: k < |Snapshot(old(Table()), |old(Table())|)| ==> replies(k).goOn
      ensures ok ==> seen == Snapshot(old(Table()), |old(Table())|)
      ensures !ok ==> |seen| > 0 && !replies(|seen| - 1).goOn && forall k: nat :: k < |seen| - 1 ==> replies(k).goOn
      ensures Table() == AfterReplies(old(Table()), hash, replies, |seen|)
    {
      hide Linked, ApplyAll, Snapshot, Entries;
      var entries := CopyOut();
      seen, ok := [], true;
      while ok && |seen| < |entries|
        invariant Valid() && fresh(nodes - old(nodes))
        invariant |seen| <= |entries| && seen == entries[..|seen|]
        invariant ok ==> forall k: nat :: k < |seen| ==> replies(k).goOn
        invariant !ok ==> |seen| > 0 && !replies(|seen| - 1).goOn && forall k: nat :: k < |seen| - 1 ==> replies(k).goOn
        invariant Table() == AfterReplies(old(Table()), hash, replies, |seen|)
        decreases ok, |entries| - |seen|
      {
        var reply := replies(|seen|);
        seen := seen + [entries[|seen|]];
        ChangeAll(reply.ops);
        ok := reply.goOn;
      }
    }
  }
}
