/** Walking a trie: the explicit-stack iterator visits the live keys below its start in byte order. */
module TrieIterators {
  import opened ByteStrings
  import opened Tries
  import opened Wrappers

  // ---------- where keys lie relative to a position in the walk ----------

  /** q leaves the path p at some character, for a larger one. */
  ghost predicate Beyond(p: Bytes, q: Bytes) {
    exists d :: LeavesAt(p, q, d)
  }

  ghost predicate LeavesAt(p: Bytes, q: Bytes, d: int) {
    0 <= d < |p| && d < |q| && p[..d] == q[..d] && p[d] < q[d]
  }

  /** Still ahead of a walk that stands at p and has yet to enter the children of character `from` and up. */
  ghost predicate Ahead(p: Bytes, from: int, q: Bytes) {
    (p < q && q[|p|] >= from) || Beyond(p, q)
  }

  /** The character of child i, or one more than any character when there is none. */
  ghost function CharAt<T>(nodes: Nodes<T>, p: Bytes, i: nat): int
    requires p in nodes
    reads {nodes[p]}`childNodes
  {
    if i < |nodes[p].childNodes| then nodes[p].childNodes[i].character else 256
  }

  lemma BeyondIsLess(p: Bytes, q: Bytes)
    ensures Beyond(p, q) ==> Less(p, q)
  {
    if d :| LeavesAt(p, q, d) {
      LeavesIsLess(p, q, d);
    }
  }

  lemma {:induction false} LeavesIsLess(p: Bytes, q: Bytes, d: nat)
    requires LeavesAt(p, q, d)
    ensures Less(p, q)
  {
    if d > 0 {
      assert p[0] == p[..d][0] == q[..d][0] == q[0];
      assert p[1..][..d - 1] == p[..d][1..] == q[..d][1..] == q[1..][..d - 1];
      LeavesIsLess(p[1..], q[1..], d - 1);
    }
  }

  lemma {:induction false} PrefixIsLess(p: Bytes, q: Bytes)
    requires p < q
    ensures Less(p, q)
  {
    if p != [] {
      assert p[1..] < q[1..];
      PrefixIsLess(p[1..], q[1..]);
    }
  }

  /** Everything ahead comes later in byte order. */
  lemma AheadIsLess(p: Bytes, from: int, q: Bytes)
    requires Ahead(p, from, q)
    ensures Less(p, q)
  {
    if p < q {
      PrefixIsLess(p, q);
    } else {
      BeyondIsLess(p, q);
    }
  }

  /** Entering child c: what was ahead is the child itself and what is ahead of it. */
  lemma AheadDown(p: Bytes, c: Byte, q: Bytes)
    ensures Ahead(p, c, q) <==> q == p + [c] || Ahead(p + [c], 0, q)
  {
    var r := p + [c];
    assert r[..|p|] == p;
    if Ahead(p, c, q) {
      if p < q {
        if q[|p|] > c {
          assert LeavesAt(r, q, |p|);
        } else if |q| == |r| {
          assert q == r;
        } else {
          assert r < q;
        }
      } else {
        var d :| LeavesAt(p, q, d);
        assert r[..d] == p[..d];
        assert LeavesAt(r, q, d);
      }
    }
    if q == r {
      assert p < q;
    } else if r < q {
      assert p < q && q[|p|] == c;
    } else if d :| LeavesAt(r, q, d) {
      if d == |p| {
        assert p < q;
      } else {
        assert r[..d] == p[..d];
        assert LeavesAt(p, q, d);
      }
    }
  }

  /** Leaving the last child c of p: what is ahead is what lies beyond c below p, and what was ahead of p. */
  lemma AheadUp(p: Bytes, c: Byte, q: Bytes)
    ensures Beyond(p + [c], q) <==> Ahead(p, c as int + 1, q)
  {
    var r := p + [c];
    assert r[..|p|] == p;
    if d :| LeavesAt(r, q, d) {
      if d == |p| {
        assert p < q;
      } else {
        assert r[..d] == p[..d];
        assert LeavesAt(p, q, d);
      }
    }
    if p < q && q[|p|] > c {
      assert LeavesAt(r, q, |p|);
    }
    if d :| LeavesAt(p, q, d) {
      assert r[..d] == p[..d];
      assert LeavesAt(r, q, d);
    }
  }

  /** Below p, a path that goes on from character `from` goes on from the next child at or after it. */
  lemma NextChildAhead<T>(nodes: Nodes<T>, root: TrieNode<T>, p: Bytes, i: nat, q: Bytes)
    requires Filed(nodes, root) && p in nodes && Branching(nodes, p) && q in nodes && i <= |nodes[p].childNodes|
    ensures Ahead(p, if i == 0 then 0 else nodes[p].childNodes[i - 1].character as int + 1, q) <==> Ahead(p, CharAt(nodes, p, i), q)
  {
    if p < q {
      PrefixClosed(nodes, root, q, |p|);
      assert q[..|p|] == p;
      NextChild(nodes, root, q, |p|);
      var m :| m in nodes[p].childNodes && m.character == q[|p|];
    }
  }

  // ---------- the iterator ----------

  class TrieIterator<T> {
    ghost const trie: Trie<T>
    ghost const base: Bytes
    var curr: TrieNode?<T>
    var childIndex: nat
    var iterators: seq<nat>
    var key: Bytes
    var returnedValue: bool

    /** The fields of an iterator that stands on a node, or at the end. Only the root has an empty key, and the root's
        character is 0, so the key is never taken from the character. */
    constructor On(trie: Trie<T>, node: TrieNode?<T>, key: Bytes)
      requires trie.Valid()
      requires node != null ==> key in trie.nodes && trie.nodes[key] == node
      ensures Valid() && this.trie == trie && curr == node
      ensures node != null ==> this.key == key && Remaining() == LiveBelow(trie, key)
      ensures node == null ==> Remaining() == {}
    {
      hide Filed, Branching, VisitSet, Values, Taken, LiveBelow;
      this.trie, curr, returnedValue := trie, node, false;
      base := if node == null then [] else key;
      this.key := if node == null then [] else key;
      childIndex, iterators := 0, [];
      new;
      RootFiled(trie.nodes, trie.root);
      if node != null {
        AllBelow(trie, key);
      }
    }

    /** The iterator's constructor: on a node without a value it moves at once to the first key below. */
    static method Create(trie: Trie<T>, node: TrieNode?<T>, key: Bytes) returns (it: TrieIterator<T>)
      requires trie.Valid()
      requires node != null ==> key in trie.nodes && trie.nodes[key] == node
      ensures fresh(it) && it.Valid() && it.trie == trie
      ensures node == null ==> it.curr == null
      ensures node != null && node.value.Some? ==> it.curr == node && it.key == key && it.Remaining() == LiveBelow(trie, key)
      ensures node != null && node.value.None? && LiveBelow(trie, key) == {} ==> it.curr == null
      ensures node != null && node.value.None? && LiveBelow(trie, key) != {} ==>
        && it.curr != null && it.key in LiveBelow(trie, key) && it.Remaining() == LiveBelow(trie, key) - {it.key}
        && forall q :: q in LiveBelow(trie, key) ==> AtMost(it.key, q)
    {
      hide Less, Filed, Branching, VisitSet, Values, Taken, LiveBelow;
      it := new TrieIterator.On(trie, node, key);
      if node != null && node.value == None {
        it.Next();
      }
    }

    /** The stack holds, for each character of the key after the base, the index of the child taken. */
    ghost predicate Stacked()
      reads this, trie, trie.nodes.Values`childNodes
    {
      && base <= key && |key| == |base| + |iterators|
      && forall k :: 0 <= k < |iterators| ==> Taken(trie.nodes, key, |base| + k, iterators[k])
    }

    ghost predicate Valid()
      reads this, trie, trie.nodes.Values
    {
      && trie.Valid() && base in trie.nodes
      && if curr == null then key == [] && iterators == [] else
        key in trie.nodes && curr == trie.nodes[key] && childIndex <= |curr.childNodes| && Stacked()
    }

    /** The live keys that the walk has still to visit. */
    ghost function Remaining(): set<Bytes>
      requires Valid()
      reads this, trie, trie.nodes.Values
    {
      if curr == null then {} else VisitSet(trie.nodes, trie.Live(), base, key, childIndex, returnedValue)
    }

    /** The nodes that the walk has still to enter. */
    ghost function Unentered(): set<Bytes>
      requires Valid()
      reads this, trie, trie.nodes.Values
    {
      if curr == null then {} else EnterSet(trie.nodes, base, key, childIndex)
    }

    /** operator++: to the least key not yet visited, or to the end. */
    method Next()
      requires Valid()
      modifies this
      ensures Valid()
      ensures old(Remaining()) == {} ==> curr == null
      ensures old(Remaining()) != {} ==> curr != null && key in old(Remaining()) && Remaining() == old(Remaining()) - {key}
      ensures old(Remaining()) != {} ==> forall q :: q in old(Remaining()) ==> AtMost(key, q)
    {
      hide Less, Filed, Branching, VisitSet, EnterSet, Values, Taken;
      while curr != null
        invariant Valid() && Remaining() == old(Remaining())
        decreases Unentered(), |key|
      {
        LiveNode(trie, key);
        if !returnedValue && childIndex == 0 && curr.value.Some? {
          HereSet(trie.nodes, trie.Live(), base, key);
          returnedValue := true;
          return;
        }
        if childIndex == |curr.childNodes| {
          if iterators == [] {
            assert key == base;
            DoneSet(trie.nodes, trie.Live(), base, childIndex, returnedValue);
            curr, key := null, [];
            return;
          }
          GoUp();
        } else {
          GoDown();
        }
      }
    }

    /** Back to the parent, past the child just finished. */
    method GoUp()
      requires Valid() && curr != null && childIndex == |curr.childNodes| && iterators != []
      requires !returnedValue && childIndex == 0 ==> curr.value.None?
      modifies this
      ensures Valid() && curr != null && Remaining() == old(Remaining()) && Unentered() == old(Unentered()) && |key| < |old(key)|
    {
      hide Less, Filed, Branching, VisitSet, EnterSet, Values, CharAt, Taken, Trie.Contents;
      LiveNode(trie, key);
      assert Taken(trie.nodes, key, |base| + |iterators| - 1, iterators[|iterators| - 1]);
      TakenFrom(trie.nodes, key, |key| - 1, iterators[|iterators| - 1]);
      UpSets(trie.nodes, trie.root, trie.Live(), base, key, iterators[|iterators| - 1], returnedValue);
      TakenShorter(trie.nodes, key, |base|, iterators);
      curr := curr.parent;
      childIndex := iterators[|iterators| - 1] + 1;
      iterators := iterators[..|iterators| - 1];
      key := key[..|key| - 1];
    }

    /** Into the next child. */
    method GoDown()
      requires Valid() && curr != null && childIndex < |curr.childNodes|
      requires !returnedValue && childIndex == 0 ==> curr.value.None?
      modifies this
      ensures Valid() && curr != null && Remaining() == old(Remaining()) && Unentered() < old(Unentered())
    {
      hide Less, Filed, Branching, VisitSet, EnterSet, Values, CharAt, Taken, Trie.Contents;
      LiveNode(trie, key);
      var nextnode := curr.childNodes[childIndex];
      ChildPath(trie.nodes, key, nextnode);
      DownSets(trie.nodes, trie.root, trie.Live(), base, key, childIndex, returnedValue);
      TakenLonger(trie.nodes, key, |base|, iterators, childIndex);
      curr := nextnode;
      iterators := iterators + [childIndex];
      childIndex := 0;
      key := key + [curr.character];
      returnedValue := false;
    }
  }

  /** The live keys from `base` down that a walk standing at `key`, before child i, has still to visit. */
  ghost function VisitSet<T>(nodes: Nodes<T>, live: set<Bytes>, base: Bytes, key: Bytes, i: nat, returned: bool): set<Bytes>
    requires key in nodes
    reads {nodes[key]}`childNodes
  {
    set q | q in live && base <= q && ToVisit(nodes, key, i, returned, q)
  }

  /** The nodes that it has still to enter. */
  ghost function EnterSet<T>(nodes: Nodes<T>, base: Bytes, key: Bytes, i: nat): set<Bytes>
    requires key in nodes
    reads {nodes[key]}`childNodes
  {
    set q | q in nodes.Keys && base <= q && Ahead(key, CharAt(nodes, key, i), q)
  }

  lemma LiveNode<T>(trie: Trie<T>, p: Bytes)
    requires p in trie.nodes
    ensures p in trie.Live() <==> trie.nodes[p].value.Some?
    ensures trie.Live() <= trie.nodes.Keys
  {
  }

  /** Visiting the key of the node where the walk stands. */
  lemma HereSet<T>(nodes: Nodes<T>, live: set<Bytes>, base: Bytes, key: Bytes)
    requires key in nodes && key in live && base <= key
    ensures key in VisitSet(nodes, live, base, key, 0, false)
    ensures VisitSet(nodes, live, base, key, 0, true) == VisitSet(nodes, live, base, key, 0, false) - {key}
    ensures forall q :: q in VisitSet(nodes, live, base, key, 0, false) ==> AtMost(key, q)
  {
    hide Less, Ahead;
    var from := CharAt(nodes, key, 0);
    NotAheadOfItself(key, from);
    forall q | Ahead(key, from, q) ensures Less(key, q) {
      AheadIsLess(key, from, q);
    }
  }

  /** Nothing is left once the children of the start are finished. */
  lemma DoneSet<T>(nodes: Nodes<T>, live: set<Bytes>, base: Bytes, i: nat, returned: bool)
    requires base in nodes && i == |nodes[base].childNodes| && (!returned && i == 0 ==> base !in live)
    ensures VisitSet(nodes, live, base, base, i, returned) == {}
  {
    forall q, d | base <= q ensures !LeavesAt(base, q, d) {
    }
  }

  lemma UpSets<T>(nodes: Nodes<T>, root: TrieNode<T>, live: set<Bytes>, base: Bytes, key: Bytes, j: nat, returned: bool)
    requires Filed(nodes, root) && key != [] && key in nodes && live <= nodes.Keys
    requires Taken(nodes, key, |key| - 1, j) && Branching(nodes, key[..|key| - 1])
    requires !returned && |nodes[key].childNodes| == 0 ==> key !in live
    ensures var p, i := key[..|key| - 1], |nodes[key].childNodes|;
      && nodes[key].parent == nodes[p] && j + 1 <= |nodes[p].childNodes|
      && VisitSet(nodes, live, base, p, j + 1, returned) == VisitSet(nodes, live, base, key, i, returned)
      && EnterSet(nodes, base, p, j + 1) == EnterSet(nodes, base, key, i)
  {
    hide Less, Ahead, Branching, Taken;
    var p, c := key[..|key| - 1], key[|key| - 1];
    assert key == p + [c] && nodes[p].childNodes[j].character == c by { TakenLast(nodes, key, j); }
    ParentNode(nodes, root, p, c);
    hide Filed;
    forall q | q in nodes ensures Ahead(key, 256, q) <==> Ahead(p, CharAt(nodes, p, j + 1), q) {
      StepUp(nodes, root, p, j, q);
    }
  }

  lemma TakenLast<T>(nodes: Nodes<T>, key: Bytes, j: nat)
    requires key != [] && Taken(nodes, key, |key| - 1, j)
    ensures key == key[..|key| - 1] + [key[|key| - 1]]
    ensures key[..|key| - 1] in nodes && j < |nodes[key[..|key| - 1]].childNodes|
    ensures nodes[key[..|key| - 1]].childNodes[j].character == key[|key| - 1]
  {
  }

  lemma DownSets<T>(nodes: Nodes<T>, root: TrieNode<T>, live: set<Bytes>, base: Bytes, p: Bytes, i: nat, returned: bool)
    requires Filed(nodes, root) && p in nodes && live <= nodes.Keys && base <= p && i < |nodes[p].childNodes|
    requires forall q :: q in nodes ==> Branching(nodes, q)
    requires !returned && i == 0 ==> p !in live
    ensures var r := p + [nodes[p].childNodes[i].character];
      && r in nodes && nodes[r] == nodes[p].childNodes[i]
      && VisitSet(nodes, live, base, r, 0, false) == VisitSet(nodes, live, base, p, i, returned)
      && EnterSet(nodes, base, r, 0) < EnterSet(nodes, base, p, i)
  {
    hide Less, Ahead, Branching;
    var c := nodes[p].childNodes[i].character;
    var r := p + [c];
    ChildPath(nodes, p, nodes[p].childNodes[i]);
    forall q | q in nodes ensures Ahead(p, c, q) <==> q == r || Ahead(r, CharAt(nodes, r, 0), q) {
      StepDown(nodes, root, p, c, q);
    }
    hide Filed;
    NotAheadOfItself(r, CharAt(nodes, r, 0));
    assert r in EnterSet(nodes, base, p, i) && r !in EnterSet(nodes, base, r, 0);
  }

  /** The node of key's first `at` characters went on through child number `i`. */
  ghost predicate Taken<T>(nodes: Nodes<T>, key: Bytes, at: nat, i: nat)
    reads nodes.Values`childNodes
  {
    && at < |key| && key[..at] in nodes && i < |nodes[key[..at]].childNodes|
    && nodes[key[..at]].childNodes[i].character == key[at]
  }

  lemma TakenFrom<T>(nodes: Nodes<T>, key: Bytes, at: nat, i: nat)
    requires Taken(nodes, key, at, i)
    ensures at < |key| && key[..at] in nodes
  {
  }

  ghost predicate ToVisit<T>(nodes: Nodes<T>, key: Bytes, i: nat, returned: bool, q: Bytes)
    requires key in nodes
    reads {nodes[key]}`childNodes
  {
    Ahead(key, CharAt(nodes, key, i), q) || (q == key && !returned && i == 0)
  }

  /** The live keys that are the given path or extend it. */
  ghost function LiveBelow<T>(trie: Trie<T>, p: Bytes): set<Bytes>
    reads trie, trie.nodes.Values`value
  {
    set q | q in trie.Live() && p <= q
  }

  /** A walk that starts at p has all the live keys from p down before it. */
  lemma AllBelow<T>(trie: Trie<T>, p: Bytes)
    requires trie.Valid() && p in trie.nodes
    ensures VisitSet(trie.nodes, trie.Live(), p, p, 0, false) == LiveBelow(trie, p)
  {
    forall q | q in trie.Live() && p <= q ensures ToVisit(trie.nodes, p, 0, false, q) {
      if p < q {
        NextChildAhead(trie.nodes, trie.root, p, 0, q);
      }
    }
  }

  lemma ParentNode<T>(nodes: Nodes<T>, root: TrieNode<T>, p: Bytes, c: Byte)
    requires Filed(nodes, root) && p + [c] in nodes
    ensures p in nodes && nodes[p + [c]].parent == nodes[p]
  {
  }

  lemma StepUp<T>(nodes: Nodes<T>, root: TrieNode<T>, p: Bytes, j: nat, q: Bytes)
    requires Filed(nodes, root) && p in nodes && Branching(nodes, p) && q in nodes && j < |nodes[p].childNodes|
    ensures Ahead(p + [nodes[p].childNodes[j].character], 256, q) <==> Ahead(p, CharAt(nodes, p, j + 1), q)
  {
    AheadUp(p, nodes[p].childNodes[j].character, q);
    NextChildAhead(nodes, root, p, j + 1, q);
  }

  lemma StepDown<T>(nodes: Nodes<T>, root: TrieNode<T>, p: Bytes, c: Byte, q: Bytes)
    requires Filed(nodes, root) && p + [c] in nodes && Branching(nodes, p + [c]) && q in nodes
    ensures Ahead(p, c, q) <==> q == p + [c] || Ahead(p + [c], CharAt(nodes, p + [c], 0), q)
  {
    AheadDown(p, c, q);
    NextChildAhead(nodes, root, p + [c], 0, q);
  }

  lemma NotAheadOfItself(p: Bytes, from: int)
    ensures !Ahead(p, from, p)
  {
    LessIrreflexive(p);
    BeyondIsLess(p, p);
  }

  lemma TakenShorter<T>(nodes: Nodes<T>, key: Bytes, base: nat, stack: seq<nat>)
    requires |key| == base + |stack| && stack != []
    requires forall k :: 0 <= k < |stack| ==> Taken(nodes, key, base + k, stack[k])
    ensures forall k :: 0 <= k < |stack| - 1 ==> Taken(nodes, key[..|key| - 1], base + k, stack[k])
  {
    forall k | 0 <= k < |stack| - 1 ensures Taken(nodes, key[..|key| - 1], base + k, stack[k]) {
      assert key[..|key| - 1][..base + k] == key[..base + k];
      assert Taken(nodes, key, base + k, stack[k]);
    }
  }

  lemma TakenLonger<T>(nodes: Nodes<T>, key: Bytes, base: nat, stack: seq<nat>, i: nat)
    requires |key| == base + |stack| && key in nodes && i < |nodes[key].childNodes|
    requires forall k :: 0 <= k < |stack| ==> Taken(nodes, key, base + k, stack[k])
    ensures forall k :: 0 <= k <= |stack| ==>
      Taken(nodes, key + [nodes[key].childNodes[i].character], base + k, (stack + [i])[k])
  {
    var longer := key + [nodes[key].childNodes[i].character];
    forall k | 0 <= k <= |stack| ensures Taken(nodes, longer, base + k, (stack + [i])[k]) {
      assert longer[..base + k] == key[..base + k];
      if k < |stack| {
        assert Taken(nodes, key, base + k, stack[k]);
      } else {
        assert key[..base + k] == key;
      }
    }
  }

  // ---------- whole walks ----------

  /** A walk stands at `key`, has passed `keys`, and has `rest` before it. */
  ghost predicate Halfway(keys: seq<Bytes>, key: Bytes, rest: set<Bytes>, all: set<Bytes>) {
    && Increasing(keys) && all == Elements(keys) + {key} + rest && key !in rest
    && (forall k :: k in keys ==> Less(k, key))
    && (forall q :: q in rest ==> Less(key, q))
  }

  lemma HalfwayStart(key: Bytes, all: set<Bytes>)
    requires key in all && forall q :: q in all ==> AtMost(key, q)
    ensures Halfway([], key, all - {key}, all)
  {
    hide Less;
  }

  lemma HalfwayStep(keys: seq<Bytes>, key: Bytes, rest: set<Bytes>, all: set<Bytes>, next: Bytes)
    requires Halfway(keys, key, rest, all) && next in rest && forall q :: q in rest ==> AtMost(next, q)
    ensures Halfway(keys + [key], next, rest - {next}, all)
  {
    hide Less;
    assert Elements(keys + [key]) == Elements(keys) + {key};
    forall k | k in keys ensures Less(k, next) {
      LessTransitive(k, key, next);
    }
  }

  lemma HalfwayEnd(keys: seq<Bytes>, key: Bytes, all: set<Bytes>)
    requires Halfway(keys, key, {}, all)
    ensures Increasing(keys + [key]) && Elements(keys + [key]) == all
  {
    hide Less;
    assert Elements(keys + [key]) == Elements(keys) + {key};
  }

  /** The keys still to come after the one where the iterator stands. */
  method WalkOn<T>(it: TrieIterator<T>) returns (keys: seq<Bytes>)
    requires it.Valid()
    modifies it
    ensures Increasing(keys) && Elements(keys) == old(it.Remaining())
  {
    hide Less, Filed, Branching, VisitSet, Values, Taken, Halfway, Increasing, Elements, Trie.Valid;
    ghost var all := it.Remaining();
    keys := [];
    it.Next();
    if all == {} {
      NothingWalked();
    } else {
      HalfwayStart(it.key, all);
    }
    while it.curr != null
      invariant it.Valid()
      invariant it.curr == null ==> Increasing(keys) && Elements(keys) == all
      invariant it.curr != null ==> Halfway(keys, it.key, it.Remaining(), all)
      decreases it.Remaining(), it.curr != null
    {
      ghost var before, key, rest := keys, it.key, it.Remaining();
      keys := keys + [it.key];
      it.Next();
      if rest == {} {
        HalfwayEnd(before, key, all);
      } else {
        HalfwayStep(before, key, rest, all, it.key);
      }
    }
  }

  /** for (; it != end(); ++it): the keys from an iterator on. */
  method Walk<T>(it: TrieIterator<T>) returns (keys: seq<Bytes>)
    requires it.Valid()
    modifies it
    ensures old(it.curr) == null ==> keys == []
    ensures old(it.curr) != null ==>
      keys != [] && keys[0] == old(it.key) && Increasing(keys[1..]) && Elements(keys[1..]) == old(it.Remaining())
  {
    hide Less, Filed, Branching, VisitSet, Values, Taken, Elements, Increasing;
    if it.curr == null {
      return [];
    }
    var first := it.key;
    var rest := WalkOn(it);
    keys := [first] + rest;
    assert keys[1..] == rest;
  }

  lemma LeastFirst(first: Bytes, rest: seq<Bytes>, all: set<Bytes>)
    requires Increasing(rest) && first in all && Elements(rest) == all - {first} && forall q :: q in all ==> AtMost(first, q)
    ensures Increasing([first] + rest) && Elements([first] + rest) == all
  {
    hide Less;
    var keys := [first] + rest;
    forall i | 1 <= i < |keys| ensures Less(keys[0], keys[i]) {
      assert rest[i - 1] in Elements(rest);
    }
    assert forall k :: k in keys <==> k == first || k in rest;
    assert Elements(keys) == {first} + Elements(rest);
  }

  /** From begin() to end(): every live key, once, in byte order. */
  method WalkAll<T>(trie: Trie<T>) returns (keys: seq<Bytes>)
    requires trie.Valid()
    ensures Increasing(keys) && Elements(keys) == trie.Live()
  {
    hide Less, Filed, Branching, VisitSet, Values, Taken, Increasing, Elements, LiveBelow;
    var it := TrieIterator.Create(trie, trie.root, []) by { RootValue(trie); }
    RootValue(trie);
    var first := it.key;
    keys := Walk(it);
    if keys != [] {
      assert keys == [first] + keys[1..];
      LeastFirst(first, keys[1..], trie.Live());
    } else {
      assert Increasing([]) && Elements([]) == {} by { NothingWalked(); }
    }
  }

  lemma NothingWalked()
    ensures Increasing([]) && Elements([]) == {}
  {
  }

  lemma RootValue<T>(trie: Trie<T>)
    requires trie.Valid()
    ensures [] in trie.nodes && trie.nodes[[]] == trie.root && trie.root.value == None && LiveBelow(trie, []) == trie.Live()
  {
    LiveNode(trie, []);
  }

  /** find_prefix and a walk to the end: the live keys that extend the prefix, in byte order. A prefix that is itself live
      comes twice, since the first step from a node with a value stays there; a prefix with a character of 128 or more
      finds nothing. */
  method WalkPrefix<T>(trie: Trie<T>, prefix: Bytes) returns (keys: seq<Bytes>)
    requires trie.Valid() && prefix != []
    ensures !AllAscii(prefix) ==> keys == []
    ensures AllAscii(prefix) && prefix !in trie.Live() ==> Increasing(keys) && Elements(keys) == LiveBelow(trie, prefix)
    ensures AllAscii(prefix) && prefix in trie.Live() ==>
      keys != [] && keys[0] == prefix && Increasing(keys[1..]) && Elements(keys[1..]) == LiveBelow(trie, prefix)
  {
    hide Less, Filed, Branching, VisitSet, Values, Taken, Increasing, Elements, LiveBelow, AllAscii;
    var node := trie.Descend(prefix);
    var it := TrieIterator.Create(trie, node, prefix);
    if node == null {
      keys := Walk(it);
      if AllAscii(prefix) {
        NoneBelow(trie, prefix);
        NothingWalked();
      }
      return;
    }
    LiveNode(trie, prefix);
    var first := it.key;
    keys := Walk(it);
    if node.value == None && keys != [] {
      assert keys == [first] + keys[1..];
      LeastFirst(first, keys[1..], LiveBelow(trie, prefix));
    } else if keys == [] {
      NothingWalked();
    }
  }

  /** No node, no keys below. */
  lemma NoneBelow<T>(trie: Trie<T>, p: Bytes)
    requires trie.Valid() && p !in trie.nodes
    ensures LiveBelow(trie, p) == {} && p !in trie.Live()
  {
    forall q | q in trie.nodes ensures !(p <= q) {
      if p <= q {
        assert q[..|p|] == p;
        PrefixClosed(trie.nodes, trie.root, q, |p|);
      }
    }
  }
}
