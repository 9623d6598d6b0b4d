/** What a block datastore is made of: streams, blocks, the block directory on disk, and the values each holds. */
module DatastoreModel {
  import opened ByteStrings

  /** The text of a fully specified variable; streams are keyed and blocks are ranged by it. */
  type Key = Bytes

  /** The UUID in a block's file name. */
  type Id = string

  datatype Sample = Sample(timestamp: nat, value: real)

  datatype Stream = Stream(variable: Key, values: seq<Sample>)

  type Streams = map<Key, seq<Sample>>

  /** A block file: the header's end key, and the streams between the header and the footer. */
  datatype BlockFile = BlockFile(endKey: Key, streams: seq<Stream>)

  /** `block.<id>.new.<pid>` */
  datatype TempName = TempName(id: Id, pid: nat)

  /** The directory: `block.<id>`, `block.<id>.log` and the temporary files. */
  datatype Disk = Disk(files: map<Id, BlockFile>, logs: map<Id, seq<Stream>>, temps: map<TempName, BlockFile>)

  /** One block in memory; `index` holds the variables of BlockHeader.Index. */
  datatype BlockState = BlockState(endKey: Key, id: Id, index: set<Key>, logStreams: Streams, newStreams: seq<Stream>)

  datatype State = State(blocks: map<Key, BlockState>, blockKeys: seq<Key>, disk: Disk, pid: nat)

  // ---------- streams ----------

  function Get(m: Streams, k: Key): seq<Sample> {
    if k in m then m[k] else []
  }

  /** Append a stream's values to those already held for its variable. */
  function Absorb(m: Streams, st: Stream): Streams {
    m[st.variable := Get(m, st.variable) + st.values]
  }

  function AbsorbAll(m: Streams, ss: seq<Stream>): Streams {
    if ss == [] then m else Absorb(AbsorbAll(m, ss[..|ss| - 1]), ss[|ss| - 1])
  }

  /** Append, variable by variable, the values of `log` to those of `m`. */
  function Combine(m: Streams, log: Streams): Streams {
    map k | k in m.Keys + log.Keys :: Get(m, k) + Get(log, k)
  }

  function Variables(ss: seq<Stream>): set<Key> {
    set st | st in ss :: st.variable
  }

  /** Every stream holds at least one value. */
  predicate NonEmptyStreams(ss: seq<Stream>) {
    forall st | st in ss :: st.values != []
  }

  /** The largest variable, starting from the empty string as the Go loops do. */
  function MaxVariable(ss: seq<Stream>): Key {
    if ss == [] then [] else
      var m := MaxVariable(ss[..|ss| - 1]);
      if Less(m, ss[|ss| - 1].variable) then ss[|ss| - 1].variable else m
  }

  /** `e` is the largest key, or the empty string when there are none. */
  ghost predicate IsEnd(e: Key, keys: set<Key>) {
    (forall k :: k in keys ==> AtMost(k, e)) && (if keys == {} then e == [] else e in keys)
  }

  /** The values of one variable's streams, one stream after the other. */
  function ValuesOf(ss: seq<Stream>, k: Key): seq<Sample> {
    if ss == [] then [] else (if ss[0].variable == k then ss[0].values else []) + ValuesOf(ss[1..], k)
  }

  // ---------- the values held for one variable ----------

  ghost function StreamsAt(ss: seq<Stream>, k: Key): multiset<Sample> {
    if ss == [] then multiset{} else
      StreamsAt(ss[..|ss| - 1], k) + if ss[|ss| - 1].variable == k then multiset(ss[|ss| - 1].values) else multiset{}
  }

  ghost function MapAt(m: Streams, k: Key): multiset<Sample> {
    multiset(Get(m, k))
  }

  function FileOf(d: Disk, id: Id): seq<Stream> {
    if id in d.files then d.files[id].streams else []
  }

  function LogOf(d: Disk, id: Id): seq<Stream> {
    if id in d.logs then d.logs[id] else []
  }

  ghost function DiskAt(d: Disk, id: Id, k: Key): multiset<Sample> {
    StreamsAt(FileOf(d, id), k) + StreamsAt(LogOf(d, id), k)
  }

  ghost function BlockAt(b: BlockState, d: Disk, k: Key): multiset<Sample> {
    StreamsAt(FileOf(d, b.id), k) + MapAt(b.logStreams, k) + StreamsAt(b.newStreams, k)
  }

  function OnDisk(d: Disk): set<Id> {
    d.files.Keys + d.logs.Keys
  }

  /** Every value the store serves for variable `k`, block by block. */
  ghost function StoreAt(s: State, k: Key): multiset<Sample> {
    Sum(s.blocks.Keys, BlockValues(s, k))
  }

  ghost function BlockValues(s: State, k: Key): Key -> multiset<Sample> {
    e => if e in s.blocks then BlockAt(s.blocks[e], s.disk, k) else multiset{}
  }

  /** Every value for variable `k` that the directory alone still holds. */
  ghost function RecoveredAt(d: Disk, k: Key): multiset<Sample> {
    Sum(OnDisk(d), DiskValues(d, k))
  }

  ghost function DiskValues(d: Disk, k: Key): Id -> multiset<Sample> {
    id => DiskAt(d, id, k)
  }

  /** The sum of f over a finite set. */
  ghost function Sum<T(!new), V(!new)>(S: set<T>, f: T -> multiset<V>): multiset<V> {
    if S == {} then multiset{} else
      var x :| x in S;
      f(x) + Sum(S - {x}, f)
  }

  // ---------- laws ----------

  lemma {:induction false} SumRemove<T(!new), V(!new)>(S: set<T>, f: T -> multiset<V>, x: T)
    requires x in S
    ensures Sum(S, f) == f(x) + Sum(S - {x}, f)
  {
    var y :| y in S && Sum(S, f) == f(y) + Sum(S - {y}, f);
    if y != x {
      SumRemove(S - {y}, f, x);
      SumRemove(S - {x}, f, y);
      assert S - {x} - {y} == S - {y} - {x};
    }
  }

  lemma {:induction false} SumSame<T(!new), V(!new)>(S: set<T>, f: T -> multiset<V>, g: T -> multiset<V>)
    requires forall x :: x in S ==> f(x) == g(x)
    ensures Sum(S, f) == Sum(S, g)
  {
    if S != {} {
      var x :| x in S;
      SumRemove(S, f, x);
      SumRemove(S, g, x);
      SumSame(S - {x}, f, g);
    }
  }

  /** One summand grows by `more`, the others stay. */
  lemma SumGrow<T(!new), V(!new)>(S: set<T>, f: T -> multiset<V>, g: T -> multiset<V>, x: T, more: multiset<V>)
    requires x in S && g(x) == f(x) + more
    requires forall y :: y in S && y != x ==> f(y) == g(y)
    ensures Sum(S, g) == Sum(S, f) + more
  {
    SumRemove(S, f, x);
    SumRemove(S, g, x);
    SumSame(S - {x}, f, g);
  }

  /** Summing along a one-to-one renaming of the index set. */
  lemma {:induction false} SumRename<T(!new), U(!new), V(!new)>(S: set<T>, R: set<U>, f: T -> multiset<V>, g: U -> multiset<V>, h: T -> U)
    requires forall x :: x in S ==> h(x) in R && f(x) == g(h(x))
    requires forall x, y :: x in S && y in S && h(x) == h(y) ==> x == y
    requires forall u :: u in R ==> exists x :: x in S && h(x) == u
    ensures Sum(S, f) == Sum(R, g)
  {
    if S == {} {
      assert R == {};
    } else {
      var x :| x in S;
      SumRemove(S, f, x);
      SumRemove(R, g, h(x));
      forall u | u in R - {h(x)} ensures exists y :: y in S - {x} && h(y) == u {
        var y :| y in S && h(y) == u;
        assert y in S - {x};
      }
      SumRename(S - {x}, R - {h(x)}, f, g, h);
    }
  }

  lemma AbsorbAt(m: Streams, st: Stream, k: Key)
    ensures MapAt(Absorb(m, st), k) == MapAt(m, k) + if st.variable == k then multiset(st.values) else multiset{}
  {
    if st.variable == k {
      assert Get(Absorb(m, st), k) == Get(m, k) + st.values;
    } else {
      assert Get(Absorb(m, st), k) == Get(m, k);
    }
  }

  lemma {:induction false} ValuesOfConcat(a: seq<Stream>, b: seq<Stream>, k: Key)
    ensures ValuesOf(a + b, k) == ValuesOf(a, k) + ValuesOf(b, k)
  {
    if a == [] {
      assert a + b == b;
    } else {
      assert (a + b)[1..] == a[1..] + b;
      ValuesOfConcat(a[1..], b, k);
    }
  }

  lemma ValuesOfOne(st: Stream, k: Key)
    ensures ValuesOf([st], k) == if st.variable == k then st.values else []
  {
    assert ValuesOf([st][1..], k) == [];
  }

  lemma AbsorbInOrder(m: Streams, st: Stream, k: Key)
    ensures Get(Absorb(m, st), k) == Get(m, k) + ValuesOf([st], k)
  {
    ValuesOfOne(st, k);
  }

  /** Absorbing appends, in the order of the streams and of the values in them. */
  lemma {:induction false} AbsorbAllInOrder(m: Streams, ss: seq<Stream>, k: Key)
    ensures Get(AbsorbAll(m, ss), k) == Get(m, k) + ValuesOf(ss, k)
  {
    hide Absorb, Get;
    if ss == [] {
      assert ValuesOf(ss, k) == [];
    } else {
      var init, last := ss[..|ss| - 1], ss[|ss| - 1];
      assert ss == init + [last];
      hide ValuesOf;
      AbsorbAllInOrder(m, init, k);
      AbsorbInOrder(AbsorbAll(m, init), last, k);
      ValuesOfConcat(init, [last], k);
    }
  }

  lemma {:induction false} AbsorbAllAt(m: Streams, ss: seq<Stream>, k: Key)
    ensures MapAt(AbsorbAll(m, ss), k) == MapAt(m, k) + StreamsAt(ss, k)
  {
    if ss != [] {
      AbsorbAllAt(m, ss[..|ss| - 1], k);
      AbsorbAt(AbsorbAll(m, ss[..|ss| - 1]), ss[|ss| - 1], k);
    }
  }

  lemma {:induction false} AbsorbAllKeys(m: Streams, ss: seq<Stream>)
    ensures AbsorbAll(m, ss).Keys == m.Keys + Variables(ss)
  {
    if ss != [] {
      var init, last := ss[..|ss| - 1], ss[|ss| - 1];
      AbsorbAllKeys(m, init);
      assert ss == init + [last];
      VariablesConcat(init, [last]);
      assert last in [last] && Variables([last]) == {last.variable};
    }
  }

  lemma {:induction false} AbsorbAllConcat(m: Streams, a: seq<Stream>, b: seq<Stream>)
    ensures AbsorbAll(m, a + b) == AbsorbAll(AbsorbAll(m, a), b)
  {
    if b == [] {
      assert a + b == a;
    } else {
      assert (a + b)[..|a + b| - 1] == a + b[..|b| - 1];
      AbsorbAllConcat(m, a, b[..|b| - 1]);
    }
  }

  lemma {:induction false} StreamsAtConcat(a: seq<Stream>, b: seq<Stream>, k: Key)
    ensures StreamsAt(a + b, k) == StreamsAt(a, k) + StreamsAt(b, k)
  {
    if b == [] {
      assert a + b == a;
    } else {
      assert (a + b)[..|a + b| - 1] == a + b[..|b| - 1];
      StreamsAtConcat(a, b[..|b| - 1], k);
    }
  }

  lemma VariablesConcat(a: seq<Stream>, b: seq<Stream>)
    ensures Variables(a + b) == Variables(a) + Variables(b)
  {
    assert forall st :: st in a + b <==> st in a || st in b;
  }

  /** A variable without a stream has no values. */
  lemma {:induction false} StreamsAtAbsent(ss: seq<Stream>, k: Key)
    requires k !in Variables(ss)
    ensures StreamsAt(ss, k) == multiset{}
  {
    if ss != [] {
      assert ss[|ss| - 1] in ss;
      StreamsAtAbsent(ss[..|ss| - 1], k);
    }
  }

  /** A variable with a stream has a value, when no stream is empty. */
  lemma {:induction false} StreamsAtPresent(ss: seq<Stream>, k: Key)
    requires NonEmptyStreams(ss) && k in Variables(ss)
    ensures StreamsAt(ss, k) != multiset{}
  {
    var last := ss[|ss| - 1];
    if last.variable == k {
      assert last in ss;
      assert last.values[0] in StreamsAt(ss, k);
    } else {
      var st :| st in ss && st.variable == k;
      assert st in ss[..|ss| - 1];
      StreamsAtPresent(ss[..|ss| - 1], k);
    }
  }

  lemma {:induction false} MaxVariableIsEnd(ss: seq<Stream>)
    ensures IsEnd(MaxVariable(ss), Variables(ss))
  {
    if ss != [] {
      var init, last := ss[..|ss| - 1], ss[|ss| - 1];
      MaxVariableIsEnd(init);
      Order();
      assert ss == init + [last];
      VariablesConcat(init, [last]);
      assert last in [last] && last.variable in Variables([last]);
      assert Variables([last]) == {last.variable};
    }
  }

  lemma IsEndUnique(e: Key, f: Key, keys: set<Key>)
    requires IsEnd(e, keys) && IsEnd(f, keys)
    ensures e == f
  {
    Order();
  }
}
