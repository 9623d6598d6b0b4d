/** The C++ datastores' k-way merge iterator, and the search of the in-memory store that feeds it. */
module MergeIterators {
  import opened Wrappers

  datatype Value<T> = Value(timestamp: nat, content: T)

  datatype ValueStream<K, T> = ValueStream(variable: K, values: seq<Value<T>>)

  /** What the iterator points at: a value and the variable of the stream that it came from. */
  datatype Node<K, T> = Node(variable: K, value: Value<T>)

  type Filter<!T> = Value<T> -> bool

  // ---------- what is left to return ----------

  /** The included values of a stream from position p on. */
  function Rest<K, T>(st: ValueStream<K, T>, p: nat, accept: Filter<T>): seq<Node<K, T>>
    decreases |st.values| - p
  {
    if p >= |st.values| then []
    else if accept(st.values[p]) then [Node(st.variable, st.values[p])] + Rest(st, p + 1, accept)
    else Rest(st, p + 1, accept)
  }

  /** The search for the least timestamp over the first n heads: 0 stands for none, so a head of time 0 is forgotten. */
  function Best<K, T>(rests: seq<seq<Node<K, T>>>, n: nat): (nat, nat)
    requires n <= |rests|
  {
    if n == 0 then (0, 0) else
      var (least, at) := Best(rests, n - 1);
      if rests[n - 1] == [] then (least, at)
      else if least == 0 || least > rests[n - 1][0].value.timestamp then (rests[n - 1][0].value.timestamp, n - 1)
      else (least, at)
  }

  function Total<A>(rests: seq<seq<A>>): nat {
    if rests == [] then 0 else |rests[0]| + Total(rests[1..])
  }

  lemma {:induction false} TotalShrinks<A>(rests: seq<seq<A>>, w: nat)
    requires w < |rests| && rests[w] != []
    ensures Total(rests[w := rests[w][1..]]) < Total(rests)
  {
    var less := rests[w := rests[w][1..]];
    if w == 0 {
      assert less[1..] == rests[1..];
    } else {
      assert less[1..] == rests[1..][w - 1 := rests[w][1..]];
      TotalShrinks(rests[1..], w - 1);
    }
  }

  lemma {:induction false} BestIsHead<K, T>(rests: seq<seq<Node<K, T>>>, n: nat)
    requires n <= |rests|
    ensures var (least, at) := Best(rests, n); least != 0 ==> at < n && rests[at] != [] && rests[at][0].value.timestamp == least
  {
    if n > 0 {
      BestIsHead(rests, n - 1);
    }
  }

  // What the search finds, said without searching.

  predicate ZeroHead<K, T>(rests: seq<seq<Node<K, T>>>, i: nat)
    requires i < |rests|
  {
    rests[i] != [] && rests[i][0].value.timestamp == 0
  }

  /** Of the first n heads, one of time 0 that comes at or after head i makes the search forget that one. */
  ghost predicate Forgotten<K(!new), T(!new)>(rests: seq<seq<Node<K, T>>>, n: nat, i: nat)
    requires n <= |rests|
  {
    exists j :: i <= j < n && ZeroHead(rests, j)
  }

  /** Head w has the least time of those not forgotten, and no head before it has the same. */
  ghost predicate IsBest<K(!new), T(!new)>(rests: seq<seq<Node<K, T>>>, n: nat, w: nat)
    requires n <= |rests|
  {
    && w < n && rests[w] != [] && !Forgotten(rests, n, w)
    && forall i :: 0 <= i < n && i != w && rests[i] != [] && !Forgotten(rests, n, i) ==>
         if i < w then rests[i][0].value.timestamp > rests[w][0].value.timestamp
         else rests[i][0].value.timestamp >= rests[w][0].value.timestamp
  }

  /** Every head is forgotten. */
  ghost predicate NoneBest<K(!new), T(!new)>(rests: seq<seq<Node<K, T>>>, n: nat)
    requires n <= |rests|
  {
    forall i :: 0 <= i < n && rests[i] != [] ==> Forgotten(rests, n, i)
  }

  lemma ForgottenStep<K(!new), T(!new)>(rests: seq<seq<Node<K, T>>>, n: nat, i: nat)
    requires 0 < n <= |rests| && i < n
    ensures Forgotten(rests, n, i) <==> ZeroHead(rests, n - 1) || Forgotten(rests, n - 1, i)
  {
    if ZeroHead(rests, n - 1) {
      assert i <= n - 1 < n;
    }
  }

  /** The search finds the head so described, or none when there is none. */
  lemma {:induction false} BestIs<K(!new), T(!new)>(rests: seq<seq<Node<K, T>>>, n: nat)
    requires n <= |rests|
    ensures Best(rests, n).0 == 0 ==> NoneBest(rests, n)
    ensures Best(rests, n).0 != 0 ==>
      var (least, w) := Best(rests, n); IsBest(rests, n, w) && rests[w][0].value.timestamp == least
  {
    if n > 0 {
      BestIs(rests, n - 1);
      forall i | 0 <= i < n ensures Forgotten(rests, n, i) <==> ZeroHead(rests, n - 1) || Forgotten(rests, n - 1, i) {
        ForgottenStep(rests, n, i);
      }
      hide Forgotten;
      assert !Forgotten(rests, n - 1, n - 1) by { NoneLater(rests, n - 1); }
    }
  }

  lemma NoneLater<K(!new), T(!new)>(rests: seq<seq<Node<K, T>>>, n: nat)
    requires n <= |rests|
    ensures !Forgotten(rests, n, n)
  {
  }

  function Pop<A>(rests: seq<seq<A>>, w: nat): seq<seq<A>>
    requires w < |rests| && rests[w] != []
  {
    rests[w := rests[w][1..]]
  }

  /** Everything that stepping to the end returns. */
  function Merge<K, T>(rests: seq<seq<Node<K, T>>>): seq<Node<K, T>>
    decreases Total(rests)
  {
    var (least, w) := Best(rests, |rests|);
    if least == 0 then [] else
      BestIsHead(rests, |rests|);
      TotalShrinks(rests, w);
      [rests[w][0]] + Merge(Pop(rests, w))
  }

  // ---------- the iterator ----------

  class DatastoreIterator<K(!new), T(!new)> {
    var node: Option<Node<K, T>>
    var streams: seq<ValueStream<K, T>>
    var streamPos: seq<nat>
    const accept: Filter<T>

    ghost predicate Valid()
      reads this
    {
      |streams| == |streamPos|
    }

    ghost function Rests(): (r: seq<seq<Node<K, T>>>)
      requires Valid()
      reads this
    {
      seq(|streams|, i requires 0 <= i < |streams| && Valid() reads this => Rest(streams[i], streamPos[i], accept))
    }

    constructor (accept: Filter<T>)
      ensures Valid() && Rests() == [] && node == None && this.accept == accept
    {
      this.accept := accept;
      node, streams, streamPos := None, [], [];
    }

    method AddStream(st: ValueStream<K, T>)
      requires Valid()
      modifies this
      ensures Valid() && Rests() == old(Rests()) + [Rest(st, 0, accept)] && node == old(node)
    {
      streams := streams + [st];
      streamPos := streamPos + [0];
    }

    /** Move a stream's position past the values that are not included. */
    method Skip(i: nat)
      requires Valid() && i < |streams|
      modifies this`streamPos
      ensures Valid() && Rests() == old(Rests())
      ensures forall j :: 0 <= j < |streams| && j != i ==> streamPos[j] == old(streamPos)[j]
      ensures streamPos[i] < |streams[i].values| ==> accept(streams[i].values[streamPos[i]])
    {
      while streamPos[i] < |streams[i].values|
        invariant Valid() && Rest(streams[i], streamPos[i], accept) == Rest(streams[i], old(streamPos[i]), accept)
        invariant forall j :: 0 <= j < |streams| && j != i ==> streamPos[j] == old(streamPos)[j]
        decreases |streams[i].values| - streamPos[i]
      {
        if accept(streams[i].values[streamPos[i]]) {
          break;
        }
        streamPos := streamPos[i := streamPos[i] + 1];
      }
      assert Rests() == old(Rests());
    }

    /** operator++: the included value with the least timestamp, the earliest stream's on a tie; none when no stream has
        one, and then the iterator stays where it is. */
    method Next()
      requires Valid()
      modifies this
      ensures Valid() && streams == old(streams)
      ensures Best(old(Rests()), |old(Rests())|).0 == 0 ==> node == None && Rests() == old(Rests())
      ensures Best(old(Rests()), |old(Rests())|).0 != 0 ==>
        var w := Best(old(Rests()), |old(Rests())|).1;
        w < |old(Rests())| && old(Rests())[w] != [] && node == Some(old(Rests())[w][0]) && Rests() == Pop(old(Rests()), w)
      ensures Merge(old(Rests())) == Output(node, Rests())
      ensures node == None ==> NoneBest(old(Rests()), |old(Rests())|)
      ensures node.Some? ==> IsBest(old(Rests()), |old(Rests())|, Best(old(Rests()), |old(Rests())|).1)
    {
      hide Merge, IsBest, NoneBest, Rest, Total;
      ghost var rests := Rests();
      BestIs(rests, |rests|);
      var minTimestamp, minTimestampStream := 0, 0;
      if |streams| == 0 {
        node := None;
        MergeStep(rests);
        return;
      }
      for i := 0 to |streams|
        invariant Valid() && Rests() == rests && streams == old(streams)
        invariant (minTimestamp, minTimestampStream) == Best(rests, i)
        invariant minTimestamp != 0 ==> minTimestampStream < i && AtHead(minTimestampStream)
      {
        Skip(i);
        RestHead(streams[i], streamPos[i], accept);
        if streamPos[i] < |streams[i].values| {
          var timestamp := streams[i].values[streamPos[i]].timestamp;
          if minTimestamp == 0 || minTimestamp > timestamp {
            minTimestamp, minTimestampStream := timestamp, i;
          }
        }
      }
      MergeStep(rests);
      if minTimestamp != 0 {
        var w := minTimestampStream;
        RestHead(streams[w], streamPos[w], accept);
        node := Some(Node(streams[w].variable, streams[w].values[streamPos[w]]));
        streamPos := streamPos[w := streamPos[w] + 1];
        assert Rests() == Pop(rests, w);
      } else {
        node := None;
      }
    }

    ghost predicate AtHead(i: nat)
      requires Valid()
      reads this
    {
      i < |streams| && streamPos[i] < |streams[i].values| && accept(streams[i].values[streamPos[i]])
    }
  }

  lemma RestHead<K, T>(st: ValueStream<K, T>, p: nat, accept: Filter<T>)
    ensures p >= |st.values| ==> Rest(st, p, accept) == []
    ensures p < |st.values| && accept(st.values[p]) ==>
      Rest(st, p, accept) == [Node(st.variable, st.values[p])] + Rest(st, p + 1, accept)
  {
  }

  lemma MergeStep<K, T>(rests: seq<seq<Node<K, T>>>)
    ensures var (least, w) := Best(rests, |rests|);
      if least == 0 then Merge(rests) == []
      else w < |rests| && rests[w] != [] && Merge(rests) == [rests[w][0]] + Merge(Pop(rests, w))
  {
    BestIsHead(rests, |rests|);
    if Best(rests, |rests|).0 != 0 {
      TotalShrinks(rests, Best(rests, |rests|).1);
    }
  }

  lemma PopIsSmaller<K, T>(rests: seq<seq<Node<K, T>>>)
    ensures var (least, w) := Best(rests, |rests|); least != 0 ==> w < |rests| && rests[w] != [] && Total(Pop(rests, w)) < Total(rests)
  {
    BestIsHead(rests, |rests|);
    if Best(rests, |rests|).0 != 0 {
      TotalShrinks(rests, Best(rests, |rests|).1);
    }
  }

  /** for (; it != end(); ++it): the value the iterator stands on, and all that come after it. */
  method Collect<K(!new), T(!new)>(it: DatastoreIterator<K, T>) returns (nodes: seq<Node<K, T>>)
    requires it.Valid()
    modifies it
    ensures nodes == Output(old(it.node), old(it.Rests()))
    ensures it.Valid() && it.node == None
  {
    hide Merge, Best, Total, Rest, Pop, Output;
    nodes := [];
    ghost var all := Output(it.node, it.Rests());
    while it.node != None
      invariant it.Valid()
      invariant all == nodes + Output(it.node, it.Rests())
      decreases if it.node == None then 0 else 1 + Total(it.Rests())
    {
      OutputStep(nodes, it.node.value, it.Rests());
      nodes := nodes + [it.node.value];
      PopIsSmaller(it.Rests());
      it.Next();
    }
    NoOutput(nodes, it.Rests());
  }

  /** What a caller still sees of an iterator: the node it stands on, and all that stepping on returns. */
  function Output<K, T>(node: Option<Node<K, T>>, rests: seq<seq<Node<K, T>>>): seq<Node<K, T>> {
    if node == None then [] else [node.value] + Merge(rests)
  }

  lemma OutputStep<K, T>(nodes: seq<Node<K, T>>, n: Node<K, T>, rests: seq<seq<Node<K, T>>>)
    ensures nodes + Output(Some(n), rests) == nodes + [n] + Merge(rests)
  {
  }

  lemma NoOutput<K, T>(nodes: seq<Node<K, T>>, rests: seq<seq<Node<K, T>>>)
    ensures nodes + Output(None, rests) == nodes
  {
  }

  // ---------- nothing lost, nothing twice, in order ----------

  /** The nodes of one variable, in order. */
  function Select<K(==), T>(nodes: seq<Node<K, T>>, k: K): seq<Node<K, T>> {
    if nodes == [] then []
    else if nodes[0].variable == k then [nodes[0]] + Select(nodes[1..], k)
    else Select(nodes[1..], k)
  }

  /** Stream i's nodes bear variable i, and no two streams have the same variable. */
  ghost predicate Tagged<K(!new), T(!new)>(rests: seq<seq<Node<K, T>>>, variables: seq<K>) {
    && |rests| == |variables|
    && (forall i, n :: 0 <= i < |rests| && n in rests[i] ==> n.variable == variables[i])
    && (forall i, j :: 0 <= i < j < |variables| ==> variables[i] != variables[j])
  }

  /** No value still to come has time 0. */
  ghost predicate NoZero<K(!new), T(!new)>(rests: seq<seq<Node<K, T>>>) {
    forall i, n :: 0 <= i < |rests| && n in rests[i] ==> n.value.timestamp != 0
  }

  ghost predicate SortedNodes<K, T>(nodes: seq<Node<K, T>>) {
    forall i, j :: 0 <= i < j < |nodes| ==> nodes[i].value.timestamp <= nodes[j].value.timestamp
  }

  lemma {:induction false} BestIsLeast<K(!new), T(!new)>(rests: seq<seq<Node<K, T>>>, n: nat)
    requires n <= |rests| && NoZero(rests)
    ensures var (least, at) := Best(rests, n);
      && (least == 0 <==> forall i :: 0 <= i < n ==> rests[i] == [])
      && forall i :: 0 <= i < n && rests[i] != [] ==> least <= rests[i][0].value.timestamp
  {
    if n > 0 {
      BestIsLeast(rests, n - 1);
      if rests[n - 1] != [] {
        assert rests[n - 1][0] in rests[n - 1];
      }
    }
  }

  lemma PopKeeps<K(!new), T(!new)>(rests: seq<seq<Node<K, T>>>, w: nat, variables: seq<K>)
    requires w < |rests| && rests[w] != []
    ensures Tagged(rests, variables) ==> Tagged(Pop(rests, w), variables)
    ensures NoZero(rests) ==> NoZero(Pop(rests, w))
    ensures (forall i :: 0 <= i < |rests| ==> SortedNodes(rests[i])) ==> forall i :: 0 <= i < |rests| ==> SortedNodes(Pop(rests, w)[i])
  {
    assert forall n :: n in rests[w][1..] ==> n in rests[w];
  }

  /** Each stream's values come out in the stream's own order, each at most once; and if no value has time 0, all of them. */
  lemma {:induction false} MergeSelects<K(!new), T(!new)>(rests: seq<seq<Node<K, T>>>, variables: seq<K>, i: nat)
    requires Tagged(rests, variables) && i < |rests|
    ensures Select(Merge(rests), variables[i]) <= rests[i]
    ensures NoZero(rests) ==> Select(Merge(rests), variables[i]) == rests[i]
    decreases Total(rests)
  {
    hide Tagged, NoZero, Merge;
    MergeStep(rests);
    var (least, w) := Best(rests, |rests|);
    if least == 0 {
      if NoZero(rests) {
        BestIsLeast(rests, |rests|);
      }
    } else {
      TotalShrinks(rests, w);
      PopKeeps(rests, w, variables);
      MergeSelects(Pop(rests, w), variables, i);
      assert Merge(rests)[1..] == Merge(Pop(rests, w));
      TaggedAt(rests, variables, i, w);
      assert rests[w] == [rests[w][0]] + rests[w][1..];
    }
  }

  lemma TaggedAt<K(!new), T(!new)>(rests: seq<seq<Node<K, T>>>, variables: seq<K>, i: nat, w: nat)
    requires Tagged(rests, variables) && i < |rests| && w < |rests| && rests[w] != []
    ensures rests[w][0].variable == variables[i] <==> w == i
  {
    assert rests[w][0] in rests[w];
  }

  /** A value of time 0 is never returned. */
  lemma {:induction false} MergeHasNoZero<K(!new), T(!new)>(rests: seq<seq<Node<K, T>>>)
    ensures forall n :: n in Merge(rests) ==> n.value.timestamp != 0
    decreases Total(rests)
  {
    MergeStep(rests);
    var (least, w) := Best(rests, |rests|);
    if least != 0 {
      BestIsHead(rests, |rests|);
      TotalShrinks(rests, w);
      MergeHasNoZero(Pop(rests, w));
    }
  }

  lemma {:induction false} SelectIsPart<K, T>(nodes: seq<Node<K, T>>, k: K)
    ensures forall n :: n in Select(nodes, k) ==> n in nodes
  {
    if nodes != [] {
      SelectIsPart(nodes[1..], k);
    }
  }

  /** Everything is returned exactly when nothing has time 0. */
  lemma MergeCompleteIff<K(!new), T(!new)>(rests: seq<seq<Node<K, T>>>, variables: seq<K>)
    requires Tagged(rests, variables)
    ensures (forall i :: 0 <= i < |rests| ==> Select(Merge(rests), variables[i]) == rests[i]) <==> NoZero(rests)
  {
    hide Merge, Select;
    if NoZero(rests) {
      forall i | 0 <= i < |rests| ensures Select(Merge(rests), variables[i]) == rests[i] {
        MergeSelects(rests, variables, i);
      }
    } else {
      var i, n :| 0 <= i < |rests| && n in rests[i] && n.value.timestamp == 0;
      MergeHasNoZero(rests);
      SelectIsPart(Merge(rests), variables[i]);
      assert n !in Select(Merge(rests), variables[i]);
    }
  }

  /** Nothing comes out that no stream holds. */
  lemma {:induction false} MergeIsPart<K(!new), T(!new)>(rests: seq<seq<Node<K, T>>>, n: Node<K, T>)
    requires n in Merge(rests)
    ensures exists i :: 0 <= i < |rests| && n in rests[i]
    decreases Total(rests)
  {
    MergeStep(rests);
    var (least, w) := Best(rests, |rests|);
    TotalShrinks(rests, w);
    if n != rests[w][0] {
      MergeIsPart(Pop(rests, w), n);
      var i :| 0 <= i < |rests| && n in Pop(rests, w)[i];
      assert n in rests[i];
    } else {
      assert n in rests[w];
    }
  }

  /** Sorted streams merge into a sorted run. */
  lemma {:induction false} MergeSorted<K(!new), T(!new)>(rests: seq<seq<Node<K, T>>>)
    requires NoZero(rests) && forall i :: 0 <= i < |rests| ==> SortedNodes(rests[i])
    ensures SortedNodes(Merge(rests))
    decreases Total(rests)
  {
    hide NoZero, Merge, SortedNodes;
    MergeStep(rests);
    var (least, w) := Best(rests, |rests|);
    if least == 0 {
      assert SortedNodes(Merge(rests)) by { EmptySorted(Merge(rests)); }
    } else {
      TotalShrinks(rests, w);
      PopKeeps(rests, w, []);
      MergeSorted(Pop(rests, w));
      BestIsLeast(rests, |rests|);
      BestIsHead(rests, |rests|);
      forall n | n in Merge(Pop(rests, w)) ensures least <= n.value.timestamp {
        MergeIsPart(Pop(rests, w), n);
        var i :| 0 <= i < |rests| && n in Pop(rests, w)[i];
        assert n in rests[i];
        HeadIsLeast(rests[i], n);
      }
      ConsSorted(rests[w][0], Merge(Pop(rests, w)));
    }
  }

  /** Equal times come out in the order of their streams. */
  ghost predicate Stable<K(!new), T(!new)>(nodes: seq<Node<K, T>>, variables: seq<K>) {
    forall a, b, i, j | 0 <= a < b < |nodes| && 0 <= i < |variables| && 0 <= j < |variables| ::
      (nodes[a].value.timestamp == nodes[b].value.timestamp && nodes[a].variable == variables[i] && nodes[b].variable == variables[j]) ==> i <= j
  }

  lemma {:induction false} MergeStable<K(!new), T(!new)>(rests: seq<seq<Node<K, T>>>, variables: seq<K>)
    requires Tagged(rests, variables) && NoZero(rests) && forall i :: 0 <= i < |rests| ==> SortedNodes(rests[i])
    ensures Stable(Merge(rests), variables)
    decreases Total(rests)
  {
    hide NoZero, Merge, SortedNodes, Tagged, Stable;
    MergeStep(rests);
    var (least, w) := Best(rests, |rests|);
    if least == 0 {
      assert Stable(Merge(rests), variables) by { EmptyStable(Merge(rests), variables); }
    } else {
      TotalShrinks(rests, w);
      PopKeeps(rests, w, variables);
      MergeStable(Pop(rests, w), variables);
      BestIsHead(rests, |rests|);
      forall n, j | n in Merge(Pop(rests, w)) && n.value.timestamp == least && 0 <= j < |variables| && n.variable == variables[j] ensures w <= j {
        NoEarlierStream(rests, variables, w, n, j);
      }
      HeadStable(rests, variables, w, Merge(Pop(rests, w)));
    }
  }

  lemma EmptyStable<K(!new), T(!new)>(nodes: seq<Node<K, T>>, variables: seq<K>)
    requires nodes == []
    ensures Stable(nodes, variables)
  {
  }

  /** A value of the least time that comes later is not from an earlier stream. */
  lemma NoEarlierStream<K(!new), T(!new)>(rests: seq<seq<Node<K, T>>>, variables: seq<K>, w: nat, n: Node<K, T>, j: nat)
    requires Tagged(rests, variables) && NoZero(rests) && forall i :: 0 <= i < |rests| ==> SortedNodes(rests[i])
    requires w < |rests| && rests[w] != [] && Best(rests, |rests|) == (n.value.timestamp, w) && n.value.timestamp != 0
    requires n in Merge(Pop(rests, w)) && j < |variables| && n.variable == variables[j]
    ensures w <= j
  {
    hide Merge, SortedNodes, Best, IsBest;
    MergeIsPart(Pop(rests, w), n);
    var i :| 0 <= i < |rests| && n in Pop(rests, w)[i];
    assert n in rests[i];
    assert i == j;
    HeadIsLeast(rests[i], n);
    BestIs(rests, |rests|);
    EarlierIsLater(rests, w);
  }

  lemma EarlierIsLater<K(!new), T(!new)>(rests: seq<seq<Node<K, T>>>, w: nat)
    requires NoZero(rests) && IsBest(rests, |rests|, w)
    ensures forall i :: 0 <= i < w && rests[i] != [] ==> rests[i][0].value.timestamp > rests[w][0].value.timestamp
  {
    forall i | 0 <= i < |rests| ensures !ZeroHead(rests, i) {
      assert rests[i] != [] ==> rests[i][0] in rests[i];
    }
    forall i | 0 <= i < |rests| ensures !Forgotten(rests, |rests|, i) {
    }
  }

  lemma HeadStable<K(!new), T(!new)>(rests: seq<seq<Node<K, T>>>, variables: seq<K>, w: nat, rest: seq<Node<K, T>>)
    requires Tagged(rests, variables) && w < |rests| && rests[w] != [] && Stable(rest, variables)
    requires forall n, j :: n in rest && n.value.timestamp == rests[w][0].value.timestamp && 0 <= j < |variables| && n.variable == variables[j] ==> w <= j
    ensures Stable([rests[w][0]] + rest, variables)
  {
    var h := rests[w][0];
    var nodes := [h] + rest;
    assert h in rests[w];
    forall a, b, i, j | 0 <= a < b < |nodes| && nodes[a].value.timestamp == nodes[b].value.timestamp
        && 0 <= i < |variables| && nodes[a].variable == variables[i] && 0 <= j < |variables| && nodes[b].variable == variables[j] ensures i <= j {
      assert nodes[b] == rest[b - 1] && nodes[b] in rest;
      if a == 0 {
        assert i == w;
      } else {
        assert nodes[a] == rest[a - 1];
      }
    }
  }

  lemma EmptySorted<K, T>(nodes: seq<Node<K, T>>)
    requires nodes == []
    ensures SortedNodes(nodes)
  {
  }

  lemma HeadIsLeast<K, T>(nodes: seq<Node<K, T>>, n: Node<K, T>)
    requires SortedNodes(nodes) && n in nodes
    ensures nodes[0].value.timestamp <= n.value.timestamp
  {
  }

  lemma ConsSorted<K, T>(n: Node<K, T>, nodes: seq<Node<K, T>>)
    requires SortedNodes(nodes) && forall m :: m in nodes ==> n.value.timestamp <= m.value.timestamp
    ensures SortedNodes([n] + nodes)
  {
  }

  // ---------- searching ----------

  /** IncludeBetweenTimestamps: both ends belong, and 0 means no bound. */
  predicate IncludeBetween<T>(start: nat, end: nat, v: Value<T>) {
    !(start != 0 && v.timestamp < start) && !(end != 0 && v.timestamp > end)
  }

  function Between<T>(start: nat, end: nat): Filter<T> {
    v => IncludeBetween(start, end, v)
  }

  /** The streams that find does not skip. */
  predicate Kept<K, T>(st: ValueStream<K, T>, start: nat, end: nat) {
    st.values != [] && st.values[0].timestamp <= end && st.values[|st.values| - 1].timestamp >= start
  }

  function RestsOf<K, T>(streams: seq<ValueStream<K, T>>, accept: Filter<T>): seq<seq<Node<K, T>>> {
    if streams == [] then [] else RestsOf(streams[..|streams| - 1], accept) + [Rest(streams[|streams| - 1], 0, accept)]
  }

  /** The streams of a matching variable, and of those the ones that are kept. */
  function Matching<K, T>(streams: seq<ValueStream<K, T>>, matches: K -> bool): seq<ValueStream<K, T>> {
    if streams == [] then [] else
      var st := streams[|streams| - 1];
      Matching(streams[..|streams| - 1], matches) + if matches(st.variable) then [st] else []
  }

  function AllKept<K, T>(streams: seq<ValueStream<K, T>>, start: nat, end: nat): seq<ValueStream<K, T>> {
    if streams == [] then [] else
      var st := streams[|streams| - 1];
      AllKept(streams[..|streams| - 1], start, end) + if Kept(st, start, end) then [st] else []
  }

  /** What the streams that find gives to the iterator hold within range. */
  function FindRests<K, T>(streams: seq<ValueStream<K, T>>, matches: K -> bool, start: nat, end: nat): seq<seq<Node<K, T>>> {
    RestsOf(AllKept(Matching(streams, matches), start, end), Between(start, end))
  }

  class BasicDatastore<K(==, !new), T(!new)> {
    var streams: seq<ValueStream<K, T>>

    constructor ()
      ensures streams == []
    {
      streams := [];
    }

    /** Append a value to the variable's stream, the last one found, or to a new stream. */
    method Record(variable: K, timestamp: nat, content: T)
      modifies this
      ensures (forall st :: st in old(streams) ==> st.variable != variable) ==>
        streams == old(streams) + [ValueStream(variable, [Value(timestamp, content)])]
      ensures (exists st :: st in old(streams) && st.variable == variable) ==>
        exists i :: 0 <= i < |old(streams)| && old(streams)[i].variable == variable
          && streams == old(streams)[i := ValueStream(variable, old(streams)[i].values + [Value(timestamp, content)])]
    {
      var at: Option<nat> := None;
      for i := 0 to |streams|
        invariant at == None ==> forall j :: 0 <= j < i ==> streams[j].variable != variable
        invariant at.Some? ==> at.value < i && streams[at.value].variable == variable
      {
        if streams[i].variable == variable {
          at := Some(i);
        }
      }
      match at {
        case None =>
          streams := streams + [ValueStream(variable, [Value(timestamp, content)])];
        case Some(i) =>
          streams := streams[i := ValueStream(variable, streams[i].values + [Value(timestamp, content)])];
      }
    }

    /** Skip what cannot hold a value in range, merge the rest, and stand on the first value. */
    method Find(matches: K -> bool, start: nat, end: nat) returns (it: DatastoreIterator<K, T>)
      ensures fresh(it) && it.Valid()
      ensures Output(it.node, it.Rests()) == Merge(FindRests(streams, matches, start, end))
    {
      hide Merge, Rest, FindRests, Best, Pop, Between;
      assert FindRests(streams[..0], matches, start, end) == [] by { FindNothing(streams[..0], matches, start, end); }
      it := new DatastoreIterator(Between(start, end));
      for i := 0 to |streams|
        invariant fresh(it) && it.Valid() && it.accept == Between(start, end)
        invariant it.Rests() == FindRests(streams[..i], matches, start, end)
      {
        var st := streams[i];
        assert streams[..i + 1] == streams[..i] + [st];
        FindOneMore(streams[..i], st, matches, start, end);
        if !matches(st.variable) {
          continue;
        }
        if |st.values| == 0 {
          continue;
        }
        if st.values[0].timestamp > end {
          continue;
        }
        if st.values[|st.values| - 1].timestamp < start {
          continue;
        }
        it.AddStream(st);
      }
      assert streams[..|streams|] == streams;
      it.Next();
    }
  }

  lemma FindNothing<K, T>(streams: seq<ValueStream<K, T>>, matches: K -> bool, start: nat, end: nat)
    requires streams == []
    ensures FindRests(streams, matches, start, end) == []
  {
  }

  lemma FindOneMore<K, T>(streams: seq<ValueStream<K, T>>, st: ValueStream<K, T>, matches: K -> bool, start: nat, end: nat)
    ensures FindRests(streams + [st], matches, start, end) == FindRests(streams, matches, start, end)
      + if matches(st.variable) && Kept(st, start, end) then [Rest(st, 0, Between(start, end))] else []
  {
    hide Rest;
    assert (streams + [st])[..|streams|] == streams;
    var m := Matching(streams, matches);
    var kept := AllKept(m, start, end);
    assert m + [] == m && kept + [] == kept;
    assert (m + [st])[..|m|] == m && (kept + [st])[..|kept|] == kept;
    var rests := RestsOf(kept, Between(start, end));
    assert rests + [] == rests;
    if matches(st.variable) && Kept(st, start, end) {
      assert AllKept(m + [st], start, end) == kept + [st];
    }
  }

  // ---------- skipping streams changes nothing ----------

  ghost predicate SortedStream<K, T>(st: ValueStream<K, T>) {
    forall i, j :: 0 <= i < j < |st.values| ==> st.values[i].timestamp <= st.values[j].timestamp
  }

  /** A search without an end still skips every stream that starts after time 0. */
  predicate WronglySkipped<K, T>(st: ValueStream<K, T>, start: nat, end: nat) {
    end == 0 && st.values != [] && st.values[0].timestamp > 0 && st.values[|st.values| - 1].timestamp >= start
  }

  lemma {:induction false} RestEmpty<K, T>(st: ValueStream<K, T>, p: nat, accept: Filter<T>)
    requires forall i :: p <= i < |st.values| ==> !accept(st.values[i])
    ensures Rest(st, p, accept) == []
    decreases |st.values| - p
  {
    if p < |st.values| {
      RestEmpty(st, p + 1, accept);
    }
  }

  lemma {:induction false} RestHas<K, T>(st: ValueStream<K, T>, p: nat, accept: Filter<T>, i: nat)
    requires p <= i < |st.values| && accept(st.values[i])
    ensures Node(st.variable, st.values[i]) in Rest(st, p, accept)
    decreases i - p
  {
    if p < i {
      RestHas(st, p + 1, accept, i);
    }
  }

  /** A skipped stream of sorted values holds an included one exactly when it was skipped for want of an end. */
  lemma SkippedIff<K, T>(st: ValueStream<K, T>, start: nat, end: nat)
    requires SortedStream(st) && !Kept(st, start, end)
    ensures Rest(st, 0, Between(start, end)) != [] <==> WronglySkipped(st, start, end)
  {
    if WronglySkipped(st, start, end) {
      RestHas(st, 0, Between(start, end), |st.values| - 1);
    } else {
      RestEmpty(st, 0, Between(start, end));
    }
  }

  /** An empty stream changes nothing, wherever it stands. */
  lemma {:induction false} BestWithoutEmpty<K, T>(a: seq<seq<Node<K, T>>>, b: seq<seq<Node<K, T>>>, n: nat)
    requires n <= |b|
    ensures var (least, w) := Best(a + b, |a| + n);
      Best(a + [[]] + b, |a| + 1 + n).0 == least
        && (least != 0 ==> Best(a + [[]] + b, |a| + 1 + n).1 == if w >= |a| then w + 1 else w)
  {
    if n == 0 {
      BestPrefix(a, b, |a|);
      BestPrefix(a, [[]] + b, |a|);
      assert a + [[]] + b == a + ([[]] + b);
      BestIsHead(a, |a|);
    } else {
      BestWithoutEmpty(a, b, n - 1);
      assert (a + [[]] + b)[|a| + n] == b[n - 1] && (a + b)[|a| + n - 1] == b[n - 1];
    }
  }

  lemma {:induction false} BestPrefix<K, T>(a: seq<seq<Node<K, T>>>, b: seq<seq<Node<K, T>>>, n: nat)
    requires n <= |a|
    ensures Best(a + b, n) == Best(a, n)
  {
    if n > 0 {
      BestPrefix(a, b, n - 1);
    }
  }

  lemma {:induction false} MergeWithoutEmpty<K, T>(a: seq<seq<Node<K, T>>>, b: seq<seq<Node<K, T>>>)
    ensures Merge(a + [[]] + b) == Merge(a + b)
    decreases Total(a + b)
  {
    hide Merge, Best, Pop, Total;
    BestWithoutEmpty(a, b, |b|);
    MergeStep(a + b);
    MergeStep(a + [[]] + b);
    var (least, w) := Best(a + b, |a + b|);
    if least != 0 {
      PopIsSmaller(a + b);
      PopAround(a, b, w);
      if w < |a| {
        MergeWithoutEmpty(Pop(a, w), b);
      } else {
        MergeWithoutEmpty(a, Pop(b, w - |a|));
      }
    }
  }

  lemma PopAround<A>(a: seq<seq<A>>, b: seq<seq<A>>, w: nat)
    requires w < |a + b| && (a + b)[w] != []
    ensures w < |a| ==> Pop(a + b, w) == Pop(a, w) + b && Pop(a + [[]] + b, w) == Pop(a, w) + [[]] + b
    ensures w >= |a| ==> Pop(a + b, w) == a + Pop(b, w - |a|) && Pop(a + [[]] + b, w + 1) == a + [[]] + Pop(b, w - |a|)
  {
  }

  lemma {:induction false} SkippingIsSafe<K, T>(streams: seq<ValueStream<K, T>>, start: nat, end: nat, more: seq<seq<Node<K, T>>>)
    requires forall st :: st in streams ==> SortedStream(st) && !WronglySkipped(st, start, end)
    ensures Merge(RestsOf(AllKept(streams, start, end), Between(start, end)) + more) == Merge(RestsOf(streams, Between(start, end)) + more)
    decreases |streams|
  {
    hide Merge, Rest, SortedStream, WronglySkipped, Kept;
    if streams != [] {
      var n := |streams| - 1;
      var st, rest := streams[n], Rest(streams[n], 0, Between(start, end));
      var all, kept := RestsOf(streams[..n], Between(start, end)), AllKept(streams[..n], start, end);
      assert all + [rest] + more == all + ([rest] + more);
      if Kept(st, start, end) {
        SkippingIsSafe(streams[..n], start, end, [rest] + more);
        assert (kept + [st])[..|kept|] == kept;
        var k := RestsOf(kept, Between(start, end));
        assert k + [rest] + more == k + ([rest] + more);
      } else {
        SkippedIff(st, start, end);
        SkippingIsSafe(streams[..n], start, end, more);
        MergeWithoutEmpty(all, more);
        assert kept + [] == kept;
      }
    }
  }

  lemma {:induction false} RestTagged<K, T>(st: ValueStream<K, T>, p: nat, accept: Filter<T>)
    ensures forall n :: n in Rest(st, p, accept) ==> n.variable == st.variable
    decreases |st.values| - p
  {
    if p < |st.values| {
      RestTagged(st, p + 1, accept);
    }
  }

  ghost predicate DistinctVariables<K, T>(streams: seq<ValueStream<K, T>>) {
    forall i, j :: 0 <= i < j < |streams| ==> streams[i].variable != streams[j].variable
  }

  function VariablesOf<K, T>(streams: seq<ValueStream<K, T>>): seq<K> {
    seq(|streams|, i requires 0 <= i < |streams| => streams[i].variable)
  }

  lemma {:induction false} RestsAt<K, T>(streams: seq<ValueStream<K, T>>, accept: Filter<T>)
    ensures |RestsOf(streams, accept)| == |streams|
    ensures forall i :: 0 <= i < |streams| ==> RestsOf(streams, accept)[i] == Rest(streams[i], 0, accept)
  {
    hide Rest;
    if streams != [] {
      RestsAt(streams[..|streams| - 1], accept);
    }
  }

  lemma RestsTagged<K(!new), T(!new)>(streams: seq<ValueStream<K, T>>, accept: Filter<T>)
    requires DistinctVariables(streams)
    ensures Tagged(RestsOf(streams, accept), VariablesOf(streams))
  {
    hide Rest, RestsOf;
    RestsAt(streams, accept);
    forall i, n | 0 <= i < |streams| && n in RestsOf(streams, accept)[i] ensures n.variable == streams[i].variable {
      RestTagged(streams[i], 0, accept);
    }
  }

  lemma {:induction false} KeptArePart<K, T>(streams: seq<ValueStream<K, T>>, start: nat, end: nat)
    ensures forall st :: st in AllKept(streams, start, end) ==> st in streams && Kept(st, start, end)
  {
    if streams != [] {
      KeptArePart(streams[..|streams| - 1], start, end);
    }
  }

  /** Over sorted streams of distinct variables with no value at time 0, skipping streams leaves the result as it was
      exactly when no stream is skipped for want of an end. */
  lemma SkippingSafeIff<K(!new), T(!new)>(streams: seq<ValueStream<K, T>>, start: nat, end: nat)
    requires (forall st :: st in streams ==> SortedStream(st)) && DistinctVariables(streams)
    requires NoZero(RestsOf(streams, Between(start, end)))
    ensures Merge(RestsOf(AllKept(streams, start, end), Between(start, end))) == Merge(RestsOf(streams, Between(start, end)))
      <==> forall st :: st in streams ==> !WronglySkipped(st, start, end)
  {
    hide Merge, Rest, RestsOf, SortedStream, WronglySkipped, Kept, AllKept, Tagged, NoZero, Select;
    var all, kept := RestsOf(streams, Between(start, end)), RestsOf(AllKept(streams, start, end), Between(start, end));
    if forall st :: st in streams ==> !WronglySkipped(st, start, end) {
      SkippingIsSafe(streams, start, end, []);
      assert all + [] == all && kept + [] == kept;
    } else {
      var i :| 0 <= i < |streams| && WronglySkipped(streams[i], start, end);
      WrongIsNotKept(streams[i], start, end);
      SkippedIff(streams[i], start, end);
      RestsTagged(streams, Between(start, end));
      RestsAt(streams, Between(start, end));
      MergeSelects(all, VariablesOf(streams), i);
      NoneOfSkipped(streams, start, end, i);
    }
  }

  lemma WrongIsNotKept<K, T>(st: ValueStream<K, T>, start: nat, end: nat)
    requires WronglySkipped(st, start, end)
    ensures !Kept(st, start, end)
  {
  }

  lemma NoneOfSkipped<K(!new), T(!new)>(streams: seq<ValueStream<K, T>>, start: nat, end: nat, i: nat)
    requires DistinctVariables(streams) && i < |streams| && !Kept(streams[i], start, end)
    ensures Select(Merge(RestsOf(AllKept(streams, start, end), Between(start, end))), streams[i].variable) == []
  {
    hide Merge, Rest, RestsOf, Kept, AllKept, Select;
    var ks := AllKept(streams, start, end);
    var rests := RestsOf(ks, Between(start, end));
    KeptArePart(streams, start, end);
    RestsAt(ks, Between(start, end));
    forall n | n in Merge(rests) ensures n.variable != streams[i].variable {
      MergeIsPart(rests, n);
      var j :| 0 <= j < |rests| && n in rests[j];
      assert ks[j] in ks;
      RestTagged(ks[j], 0, Between(start, end));
      OtherVariable(streams, i, ks[j]);
    }
    SelectNone(Merge(rests), streams[i].variable);
  }

  lemma OtherVariable<K, T>(streams: seq<ValueStream<K, T>>, i: nat, st: ValueStream<K, T>)
    requires DistinctVariables(streams) && i < |streams| && st in streams && st != streams[i]
    ensures st.variable != streams[i].variable
  {
    var j :| 0 <= j < |streams| && streams[j] == st;
  }

  lemma {:induction false} SelectNone<K, T>(nodes: seq<Node<K, T>>, k: K)
    requires forall n :: n in nodes ==> n.variable != k
    ensures Select(nodes, k) == []
  {
    if nodes != [] {
      SelectNone(nodes[1..], k);
    }
  }

  // ---------- what a search returns ----------

  lemma {:induction false} MatchingKeeps<K, T>(streams: seq<ValueStream<K, T>>, matches: K -> bool)
    requires DistinctVariables(streams)
    ensures DistinctVariables(Matching(streams, matches))
    ensures forall st :: st in Matching(streams, matches) ==> st in streams && matches(st.variable)
    ensures forall st :: st in streams && matches(st.variable) ==> st in Matching(streams, matches)
  {
    hide DistinctVariables;
    if streams != [] {
      var n := |streams| - 1;
      var before, st := Matching(streams[..n], matches), streams[n];
      DistinctSplit(streams);
      MatchingKeeps(streams[..n], matches);
      assert streams == streams[..n] + [st];
      if matches(st.variable) {
        DistinctMore(before, st);
      } else {
        assert before + [] == before;
      }
    }
  }

  lemma DistinctSplit<K, T>(streams: seq<ValueStream<K, T>>)
    requires DistinctVariables(streams) && streams != []
    ensures DistinctVariables(streams[..|streams| - 1])
    ensures forall st :: st in streams[..|streams| - 1] ==> st.variable != streams[|streams| - 1].variable
  {
  }

  lemma DistinctMore<K, T>(streams: seq<ValueStream<K, T>>, st: ValueStream<K, T>)
    requires DistinctVariables(streams) && forall o :: o in streams ==> o.variable != st.variable
    ensures DistinctVariables(streams + [st])
  {
  }

  /** Both ends belong, and an end or a start of 0 is none. */
  lemma BetweenIs<T>(start: nat, end: nat, v: Value<T>)
    ensures Between(start, end)(v) <==> start <= v.timestamp && (end == 0 || v.timestamp <= end)
  {
  }

  /** The included values are those at some positions, in order. */
  ghost predicate PickedAt<K, T>(st: ValueStream<K, T>, nodes: seq<Node<K, T>>, idx: seq<nat>) {
    && |nodes| == |idx| && (forall q, r :: 0 <= q < r < |idx| ==> idx[q] < idx[r])
    && forall q :: 0 <= q < |idx| ==> idx[q] < |st.values| && nodes[q] == Node(st.variable, st.values[idx[q]])
  }

  lemma {:induction false} RestPicks<K, T>(st: ValueStream<K, T>, p: nat, accept: Filter<T>) returns (idx: seq<nat>)
    ensures PickedAt(st, Rest(st, p, accept), idx)
    ensures forall q :: q in idx <==> p <= q < |st.values| && accept(st.values[q])
    decreases |st.values| - p
  {
    if p >= |st.values| {
      idx := [];
    } else {
      idx := RestPicks(st, p + 1, accept);
      if accept(st.values[p]) {
        assert forall q :: 0 <= q < |idx| ==> idx[q] in idx;
        idx := [p] + idx;
      }
    }
  }

  /** In terms of times: what a search with an end returns of a matching stream is its values from start to end, both included,
      in order and each once. */
  lemma SearchReturns<K(!new), T(!new)>(streams: seq<ValueStream<K, T>>, matches: K -> bool, start: nat, end: nat, st: ValueStream<K, T>)
    returns (idx: seq<nat>)
    requires DistinctVariables(streams) && forall s :: s in streams ==> SortedStream(s)
    requires NoZero(RestsOf(Matching(streams, matches), Between(start, end))) && end != 0
    requires st in streams && matches(st.variable)
    ensures PickedAt(st, Select(Merge(FindRests(streams, matches, start, end)), st.variable), idx)
    ensures forall q :: q in idx <==> 0 <= q < |st.values| && start <= st.values[q].timestamp <= end
  {
    SearchFindsAll(streams, matches, start, end, st);
    idx := RestPicks(st, 0, Between(start, end));
    forall q | 0 <= q < |st.values| ensures Between(start, end)(st.values[q]) <==> start <= st.values[q].timestamp <= end {
      BetweenIs(start, end, st.values[q]);
    }
  }

  /** A search over sorted streams of distinct variables returns every value of every matching stream that lies in range,
      each stream's in order and none twice, as long as it has an end and no matching value in range is at time 0. */
  lemma SearchFindsAll<K(!new), T(!new)>(streams: seq<ValueStream<K, T>>, matches: K -> bool, start: nat, end: nat, st: ValueStream<K, T>)
    requires DistinctVariables(streams) && forall s :: s in streams ==> SortedStream(s)
    requires NoZero(RestsOf(Matching(streams, matches), Between(start, end))) && end != 0
    requires st in streams && matches(st.variable)
    ensures Select(Merge(FindRests(streams, matches, start, end)), st.variable) == Rest(st, 0, Between(start, end))
    ensures SortedNodes(Merge(FindRests(streams, matches, start, end)))
  {
    hide Merge, Rest, RestsOf, SortedStream, Kept, AllKept, Tagged, NoZero, Select, Matching, SortedNodes, DistinctVariables;
    var ss := Matching(streams, matches);
    var all := RestsOf(ss, Between(start, end));
    var kept := RestsOf(AllKept(ss, start, end), Between(start, end));
    MatchingKeeps(streams, matches);
    SkippingIsSafe(ss, start, end, []);
    assert all + [] == all && kept + [] == kept;
    var i :| 0 <= i < |ss| && ss[i] == st;
    RestsTagged(ss, Between(start, end));
    RestsAt(ss, Between(start, end));
    MergeSelects(all, VariablesOf(ss), i);
    forall j | 0 <= j < |ss| ensures SortedNodes(all[j]) {
      assert ss[j] in streams;
      RestSorted(ss[j], 0, Between(start, end));
    }
    MergeSorted(all);
  }

  lemma {:induction false} RestSorted<K, T>(st: ValueStream<K, T>, p: nat, accept: Filter<T>)
    requires SortedStream(st)
    ensures SortedNodes(Rest(st, p, accept))
    ensures p < |st.values| ==> forall n :: n in Rest(st, p, accept) ==> st.values[p].timestamp <= n.value.timestamp
    decreases |st.values| - p
  {
    if p < |st.values| {
      RestSorted(st, p + 1, accept);
    }
  }
}
