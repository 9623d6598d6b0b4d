/** Consistent hashing twice: the C++ ring, an ordered map, and the Go ring, a sorted array with binary search. */
module HashRings {
  import opened Bits
  import opened Wrappers

  /** How far one has to go round the ring from h, in increasing order and wrapping at 2^32, to come to k. */
  function Clockwise(h: Word, k: Word): Word {
    (k - h + MODULUS) % MODULUS
  }

  lemma ClockwiseCases(h: Word, k: Word)
    ensures Clockwise(h, k) == if k >= h then k - h else k - h + MODULUS
  {
  }

  /** The key that owns h: the first one met going round the ring from h. */
  ghost predicate Owns(keys: set<Word>, h: Word, k: Word) {
    k in keys && forall j :: j in keys ==> Clockwise(h, k) <= Clockwise(h, j)
  }

  /** Only one key does. */
  lemma OneOwner(keys: set<Word>, h: Word, k: Word, k': Word)
    requires Owns(keys, h, k) && Owns(keys, h, k')
    ensures k == k'
  {
    ClockwiseCases(h, k);
    ClockwiseCases(h, k');
  }

  // ---------- C++ ----------

  /** std::map's answer for h: the least key that is not below it, or else the least key of all. */
  ghost predicate FirstFrom(keys: set<Word>, h: Word, k: Word) {
    && k in keys
    && if k >= h then forall j :: j in keys && j >= h ==> k <= j
       else forall j :: j in keys ==> j < h && k <= j
  }

  lemma FirstFromOwns(keys: set<Word>, h: Word, k: Word)
    requires FirstFrom(keys, h, k)
    ensures Owns(keys, h, k)
  {
    ClockwiseCases(h, k);
    forall j | j in keys ensures Clockwise(h, k) <= Clockwise(h, j) {
      ClockwiseCases(h, j);
    }
  }

  /** The ring once the first n replicas of a node have been put on it. */
  function WithReplicas<N>(ring: map<Word, N>, node: N, n: nat, hash: (N, nat) -> Word): map<Word, N> {
    if n == 0 then ring else WithReplicas(ring, node, n - 1, hash)[hash(node, n - 1) := node]
  }

  /** The hashes of a node's first n replicas. */
  function Places<N>(node: N, n: nat, hash: (N, nat) -> Word): set<Word> {
    set r | 0 <= r < n :: hash(node, r)
  }

  class HashRing<Node(==, !new), Data> {
    var ring: map<Word, Node>
    const replicas: nat
    const hashNode: (Node, nat) -> Word
    const hashData: Data -> Word

    constructor (replicas: nat, hashNode: (Node, nat) -> Word, hashData: Data -> Word)
      ensures ring == map[] && this.replicas == replicas && this.hashNode == hashNode && this.hashData == hashData
    {
      this.replicas, this.hashNode, this.hashData := replicas, hashNode, hashData;
      ring := map[];
    }

    /** Every replica is placed, and one whose hash is already on the ring takes that place over; nothing else changes. */
    method AddNode(node: Node)
      modifies this
      ensures forall r :: 0 <= r < replicas ==> hashNode(node, r) in ring && ring[hashNode(node, r)] == node
      ensures ring.Keys == old(ring).Keys + Places(node, replicas, hashNode)
      ensures forall k :: k in old(ring) && k !in Places(node, replicas, hashNode) ==> ring[k] == old(ring)[k]
      ensures ring == WithReplicas(old(ring), node, replicas, hashNode)
    {
      for r := 0 to replicas
        invariant ring == WithReplicas(old(ring), node, r, hashNode)
      {
        ring := ring[hashNode(node, r) := node];
      }
      ReplicasAt(old(ring), node, replicas, hashNode);
    }

    /** std::map's lower_bound: none stands for end(). */
    method LowerBound(h: int) returns (k: Option<Word>)
      ensures k == None ==> forall j :: j in ring ==> j < h
      ensures k.Some? ==> k.value in ring && k.value >= h && forall j :: j in ring && j >= h ==> k.value <= j
    {
      var left := ring.Keys;
      k := None;
      while left != {}
        invariant left <= ring.Keys
        invariant k == None ==> forall j :: j in ring && j !in left ==> j < h
        invariant k.Some? ==> k.value in ring && k.value >= h && forall j :: j in ring && j !in left && j >= h ==> k.value <= j
      {
        var j :| j in left;
        if j >= h && (k == None || j < k.value) {
          k := Some(j);
        }
        left := left - {j};
      }
    }

    /** Where lower_bound leads, going on from the beginning after the end. */
    method Successor(h: Word) returns (k: Word)
      requires ring != map[]
      ensures FirstFrom(ring.Keys, h, k)
    {
      var it := LowerBound(h);
      if it == None {
        it := LowerBound(0);
      }
      assert exists j :: j in ring;
      k := it.value;
    }

    /** The node at the first place from the data's hash on; none when the ring is empty. */
    method GetNode(data: Data) returns (node: Option<Node>)
      ensures node == None <==> ring == map[]
      ensures node.Some? ==> exists k :: Owns(ring.Keys, hashData(data), k) && node.value == ring[k]
      ensures node.Some? ==> exists k :: FirstFrom(ring.Keys, hashData(data), k) && node.value == ring[k]
    {
      if ring == map[] {
        return None;
      }
      var k := Successor(hashData(data));
      FirstFromOwns(ring.Keys, hashData(data), k);
      return Some(ring[k]);
    }

    /** The node at the next place: the one that takes over when the first place leaves the ring. */
    method GetBackupNode(data: Data) returns (node: Option<Node>)
      ensures node == None <==> ring == map[]
      ensures node.Some? ==> exists k, k' :: IsBackup(ring.Keys, hashData(data), k, k') && node.value == ring[k']
    {
      if ring == map[] {
        return None;
      }
      var h := hashData(data);
      var k := Successor(h);
      FirstFromOwns(ring.Keys, h, k);
      var k' := LowerBound((k as int) + 1);
      if k' == None {
        k' := LowerBound(0);
      }
      assert k in ring;
      NextOwns(ring.Keys, h, k, k'.value);
      return Some(ring[k'.value]);
    }
  }

  /** k owns h, and k' would without it; a place that is alone is its own backup. */
  ghost predicate IsBackup(keys: set<Word>, h: Word, k: Word, k': Word) {
    Owns(keys, h, k) && k' in keys && if keys == {k} then k' == k else Owns(keys - {k}, h, k')
  }

  /** The place after the owner's, going on from the beginning after the end. */
  lemma NextOwns(keys: set<Word>, h: Word, k: Word, k': Word)
    requires FirstFrom(keys, h, k) && k' in keys
    requires if k' > k then forall j :: j in keys && j > k ==> k' <= j else forall j :: j in keys ==> j <= k && k' <= j
    ensures IsBackup(keys, h, k, k')
  {
    FirstFromOwns(keys, h, k);
    if keys != {k} {
      if k' == k {
        assert forall j :: j in keys ==> j == k;
        assert false;
      }
      ClockwiseCases(h, k);
      ClockwiseCases(h, k');
      forall j | j in keys - {k} ensures Clockwise(h, k') <= Clockwise(h, j) {
        ClockwiseCases(h, j);
      }
    }
  }

  /** What a new node changes: its places are its own, whoever had them before, and the others stay as they were. */
  lemma {:induction false} ReplicasAt<N(!new)>(ring: map<Word, N>, node: N, n: nat, hash: (N, nat) -> Word)
    ensures WithReplicas(ring, node, n, hash).Keys == ring.Keys + Places(node, n, hash)
    ensures forall r :: 0 <= r < n ==> hash(node, r) in Places(node, n, hash)
    ensures forall k :: k in Places(node, n, hash) ==> WithReplicas(ring, node, n, hash)[k] == node
    ensures forall k :: k in ring && k !in Places(node, n, hash) ==> WithReplicas(ring, node, n, hash)[k] == ring[k]
  {
    if n > 0 {
      ReplicasAt(ring, node, n - 1, hash);
      assert Places(node, n, hash) == Places(node, n - 1, hash) + {hash(node, n - 1)};
    }
  }

  /** Adding a node moves keys to it and nowhere else: every key's new owner is its old owner or the new node, collisions
      of hashes and all. */
  lemma OwnerAfterAdd<N(!new)>(ring: map<Word, N>, node: N, n: nat, hash: (N, nat) -> Word, h: Word, k: Word, k': Word)
    requires Owns(ring.Keys, h, k) && Owns(WithReplicas(ring, node, n, hash).Keys, h, k')
    ensures var ring' := WithReplicas(ring, node, n, hash); ring'[k'] == node || ring'[k'] == ring[k]
  {
    var ring' := WithReplicas(ring, node, n, hash);
    ReplicasAt(ring, node, n, hash);
    if ring'[k'] != node {
      assert Owns(ring.Keys, h, k');
      OneOwner(ring.Keys, h, k, k');
    }
  }

  /** And a key moves only to a place that lies before its old one. */
  lemma MovesForward<N(!new)>(ring: map<Word, N>, node: N, n: nat, hash: (N, nat) -> Word, h: Word, k: Word, k': Word)
    requires Owns(ring.Keys, h, k) && Owns(WithReplicas(ring, node, n, hash).Keys, h, k')
    ensures Clockwise(h, k') <= Clockwise(h, k) && (k' != k ==> k' !in ring)
  {
    ReplicasAt(ring, node, n, hash);
    if k' in ring {
      OneOwner(ring.Keys, h, k, k');
    }
  }

  // ---------- Go ----------

  datatype Tick<N> = Tick(node: N, hash: Word)

  ghost predicate SortedTicks<N>(ticks: seq<Tick<N>>) {
    forall i, j :: 0 <= i < j < |ticks| ==> ticks[i].hash <= ticks[j].hash
  }

  ghost predicate DistinctHashes<N>(ticks: seq<Tick<N>>) {
    forall i, j :: 0 <= i < j < |ticks| ==> ticks[i].hash != ticks[j].hash
  }

  function HashesOf<N>(ticks: seq<Tick<N>>): set<Word> {
    set i | 0 <= i < |ticks| :: ticks[i].hash
  }

  /** The ticks that AddNode appends: spots 1 to n of a node. */
  function Spots<N>(node: N, n: nat, hash: (N, nat) -> Word): seq<Tick<N>> {
    if n == 0 then [] else Spots(node, n - 1, hash) + [Tick(node, hash(node, n))]
  }

  lemma {:induction false} SpotsAre<N>(node: N, n: nat, hash: (N, nat) -> Word)
    ensures |Spots(node, n, hash)| == n && forall i :: 0 <= i < n ==> Spots(node, n, hash)[i] == Tick(node, hash(node, i + 1))
  {
    if n > 0 {
      SpotsAre(node, n - 1, hash);
    }
  }

  class GoRing<N(==), D> {
    const defaultSpots: int
    var ticks: seq<Tick<N>>
    var length: nat
    const hashNode: (N, nat) -> Word
    const hashData: D -> Word

    /** The part that was there at the last Bake is sorted. */
    ghost predicate Valid()
      reads this
    {
      length <= |ticks| && SortedTicks(ticks[..length])
    }

    constructor (n: int, hashNode: (N, nat) -> Word, hashData: D -> Word)
      ensures Valid() && ticks == [] && defaultSpots == n && this.hashNode == hashNode && this.hashData == hashData
    {
      defaultSpots, this.hashNode, this.hashData := n, hashNode, hashData;
      ticks, length := [], 0;
    }

    method AddNode(node: N, multiplier: int)
      requires Valid()
      modifies this`ticks
      ensures Valid()
      ensures var spots := defaultSpots * multiplier;
        ticks == old(ticks) + Spots(node, if spots < 0 then 0 else spots, hashNode)
      ensures old(ticks) <= ticks && |ticks| - |old(ticks)| == if defaultSpots * multiplier < 0 then 0 else defaultSpots * multiplier
      ensures forall i :: |old(ticks)| <= i < |ticks| ==> ticks[i] == Tick(node, hashNode(node, i - |old(ticks)| + 1))
    {
      var spots := defaultSpots * multiplier;
      SpotsAre(node, if spots < 0 then 0 else spots, hashNode);
      var i := 1;
      while i <= spots
        invariant 1 <= i && (i <= spots + 1 || i == 1)
        invariant ticks == old(ticks) + Spots(node, i - 1, hashNode)
      {
        ticks := ticks + [Tick(node, hashNode(node, i))];
        i := i + 1;
      }
      assert ticks[..length] == old(ticks)[..length];
    }

    /** Sort the ticks; of ticks with equal hashes any may come first. */
    method Bake()
      modifies this
      ensures Valid() && length == |ticks| && multiset(ticks) == multiset(old(ticks))
    {
      ticks := SortTicks(ticks);
      length := |ticks|;
      assert ticks[..length] == ticks;
    }

    /** The node of the first tick from the data's hash on, among those baked. Without any ticks the original panics; with
        none of them baked it answers with the first. */
    method Hash(data: D) returns (node: Option<N>)
      requires Valid()
      ensures node == None <==> ticks == []
      ensures ticks != [] && length == 0 ==> node == Some(ticks[0].node)
      ensures length > 0 ==> exists i :: IsAnswer(ticks[..length], hashData(data), i) && node == Some(ticks[i].node)
    {
      var v := hashData(data);
      var i := Search(v);
      if i == length {
        i := 0;
      }
      if |ticks| == 0 {
        return None;
      }
      if length > 0 {
        FoundOwns(ticks[..length], v, i);
      }
      return Some(ticks[i].node);
    }

    /** sort.Search for the first tick at or after v. */
    method Search(v: Word) returns (i: nat)
      requires Valid()
      ensures i <= length && (forall j :: 0 <= j < i ==> ticks[j].hash < v) && (i < length ==> ticks[i].hash >= v)
    {
      var lo, hi := 0, length;
      while lo < hi
        invariant lo <= hi <= length
        invariant forall j :: 0 <= j < lo ==> ticks[j].hash < v
        invariant hi < length ==> ticks[hi].hash >= v
      {
        var mid := (lo + hi) / 2;
        if ticks[mid].hash >= v {
          hi := mid;
        } else {
          assert forall j :: 0 <= j <= mid ==> ticks[..length][j].hash <= ticks[..length][mid].hash;
          assert forall j :: 0 <= j <= mid ==> ticks[..length][j] == ticks[j];
          lo := mid + 1;
        }
      }
      return lo;
    }
  }

  ghost predicate IsAnswer<N>(ticks: seq<Tick<N>>, v: Word, i: int) {
    0 <= i < |ticks| && Owns(HashesOf(ticks), v, ticks[i].hash)
  }

  lemma FoundOwns<N>(ticks: seq<Tick<N>>, v: Word, i: nat)
    requires SortedTicks(ticks) && i < |ticks|
    requires if ticks[i].hash >= v then forall j :: 0 <= j < i ==> ticks[j].hash < v
      else i == 0 && forall j :: 0 <= j < |ticks| ==> ticks[j].hash < v
    ensures IsAnswer(ticks, v, i)
  {
    assert FirstFrom(HashesOf(ticks), v, ticks[i].hash);
    FirstFromOwns(HashesOf(ticks), v, ticks[i].hash);
  }

  /** Insertion sort stands for sort.Sort. */
  method SortTicks<N>(ticks: seq<Tick<N>>) returns (sorted: seq<Tick<N>>)
    ensures SortedTicks(sorted) && multiset(sorted) == multiset(ticks)
  {
    sorted := [];
    for i := 0 to |ticks|
      invariant SortedTicks(sorted) && multiset(sorted) == multiset(ticks[..i])
    {
      assert ticks[..i + 1] == ticks[..i] + [ticks[i]];
      sorted := InsertTick(sorted, ticks[i]);
    }
    assert ticks[..|ticks|] == ticks;
  }

  method InsertTick<N>(sorted: seq<Tick<N>>, t: Tick<N>) returns (r: seq<Tick<N>>)
    requires SortedTicks(sorted)
    ensures SortedTicks(r) && multiset(r) == multiset(sorted) + multiset{t}
  {
    var j := |sorted|;
    while j > 0 && sorted[j - 1].hash > t.hash
      invariant 0 <= j <= |sorted|
      invariant forall l :: j <= l < |sorted| ==> sorted[l].hash > t.hash
    {
      j := j - 1;
    }
    r := sorted[..j] + [t] + sorted[j..];
    assert sorted == sorted[..j] + sorted[j..];
    TickInPlace(sorted, j, t);
  }

  lemma TickInPlace<N>(sorted: seq<Tick<N>>, j: nat, t: Tick<N>)
    requires j <= |sorted| && SortedTicks(sorted) && (j > 0 ==> sorted[j - 1].hash <= t.hash)
    requires forall l :: j <= l < |sorted| ==> sorted[l].hash > t.hash
    ensures SortedTicks(sorted[..j] + [t] + sorted[j..])
  {
  }

  // ---------- the two agree ----------

  /** The ring as an ordered map has it. */
  function RingOf<N>(ticks: seq<Tick<N>>): map<Word, N> {
    if ticks == [] then map[] else RingOf(ticks[..|ticks| - 1])[ticks[|ticks| - 1].hash := ticks[|ticks| - 1].node]
  }

  lemma {:induction false} RingKeys<N>(ticks: seq<Tick<N>>)
    ensures RingOf(ticks).Keys == HashesOf(ticks)
  {
    if ticks != [] {
      var n := |ticks| - 1;
      RingKeys(ticks[..n]);
      assert HashesOf(ticks) == HashesOf(ticks[..n]) + {ticks[n].hash};
    }
  }

  lemma {:induction false} RingAt<N>(ticks: seq<Tick<N>>, i: nat)
    requires DistinctHashes(ticks) && i < |ticks|
    ensures ticks[i].hash in RingOf(ticks) && RingOf(ticks)[ticks[i].hash] == ticks[i].node
  {
    if i < |ticks| - 1 {
      RingAt(ticks[..|ticks| - 1], i);
    }
  }

  /** With distinct hashes, the tick that the search finds holds the node that the ordered map has for the owning key. */
  lemma SearchIsSuccessor<N>(ticks: seq<Tick<N>>, v: Word, i: nat, k: Word)
    requires DistinctHashes(ticks) && i < |ticks| && Owns(HashesOf(ticks), v, ticks[i].hash) && Owns(RingOf(ticks).Keys, v, k)
    ensures k == ticks[i].hash && RingOf(ticks)[k] == ticks[i].node
  {
    RingKeys(ticks);
    OneOwner(HashesOf(ticks), v, ticks[i].hash, k);
    RingAt(ticks, i);
  }

  /** With distinct hashes, it does not matter in what order the ticks were added. */
  lemma OrderDoesNotMatter<N>(a: seq<Tick<N>>, b: seq<Tick<N>>, v: Word, i: nat, j: nat)
    requires multiset(a) == multiset(b) && DistinctHashes(a) && i < |a| && j < |b|
    requires Owns(HashesOf(a), v, a[i].hash) && Owns(HashesOf(b), v, b[j].hash)
    ensures a[i] == b[j]
  {
    SameHashes(a, b);
    SameHashes(b, a);
    assert HashesOf(a) == HashesOf(b);
    OneOwner(HashesOf(a), v, a[i].hash, b[j].hash);
    assert b[j] in multiset(b);
    var m :| 0 <= m < |a| && a[m] == b[j];
  }

  lemma SameHashes<N>(a: seq<Tick<N>>, b: seq<Tick<N>>)
    requires multiset(a) == multiset(b)
    ensures HashesOf(a) <= HashesOf(b)
  {
    forall h | h in HashesOf(a) ensures h in HashesOf(b) {
      var i :| 0 <= i < |a| && a[i].hash == h;
      assert a[i] in multiset(a);
      assert a[i] in b;
    }
  }
}
