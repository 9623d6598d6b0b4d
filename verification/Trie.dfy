/** The sorted-child trie. */
module Tries {
  import opened ByteStrings
  import opened Wrappers

  /** The nodes of a trie by the path that leads to each. */
  type Nodes<!T> = map<Bytes, TrieNode<T>>

  class TrieNode<T> {
    const parent: TrieNode?<T>
    const character: Byte
    var value: Option<T>
    var childNodes: seq<TrieNode<T>>
    ghost const path: Bytes

    constructor (parent: TrieNode?<T>, character: Byte, ghost path: Bytes)
      ensures this.parent == parent && this.character == character && this.path == path
      ensures value == None && childNodes == []
    {
      this.parent, this.character, this.path := parent, character, path;
      value, childNodes := None, [];
    }

    /** Store a value; the answer says whether one was replaced. */
    method SetValue(v: Option<T>) returns (replaced: bool)
      modifies this`value
      ensures value == v && replaced == old(value).Some?
    {
      replaced := value.Some?;
      value := v;
    }

    ghost predicate Sorted()
      reads this`childNodes
    {
      forall i, j :: 0 <= i < j < |childNodes| ==> childNodes[i].character < childNodes[j].character
    }

    /** get_node's search: the child for c, or the place in the order where it belongs. */
    method Locate(c: Byte) returns (i: nat, found: bool)
      requires Sorted()
      ensures i <= |childNodes| && (found <==> i < |childNodes| && childNodes[i].character == c)
      ensures (forall j :: 0 <= j < i ==> childNodes[j].character < c)
      ensures !found ==> forall j :: i <= j < |childNodes| ==> childNodes[j].character > c
    {
      for k := 0 to |childNodes|
        invariant forall j :: 0 <= j < k ==> childNodes[j].character < c
      {
        if childNodes[k].character == c {
          return k, true;
        }
        if childNodes[k].character > c {
          return k, false;
        }
      }
      return |childNodes|, false;
    }

    /** The search of find and find_prefix: the child whose character equals c, which may be negative. */
    method Match(c: int) returns (i: nat, found: bool)
      requires Sorted()
      ensures found ==> i < |childNodes| && childNodes[i].character == c
      ensures !found ==> forall m :: m in childNodes ==> m.character != c
    {
      i := 0;
      while i < |childNodes|
        invariant i <= |childNodes|
        invariant forall j :: 0 <= j < i ==> childNodes[j].character < c
      {
        if childNodes[i].character > c {
          return i, false;
        }
        if childNodes[i].character == c {
          return i, true;
        }
        i := i + 1;
      }
      return i, false;
    }

    /** get_node's insertion: a new child for c at its place. */
    method Grow(i: nat, c: Byte) returns (n: TrieNode<T>)
      requires Sorted() && i <= |childNodes|
      requires forall j :: 0 <= j < i ==> childNodes[j].character < c
      requires forall j :: i <= j < |childNodes| ==> childNodes[j].character > c
      modifies this`childNodes
      ensures Sorted() && fresh(n) && n.parent == this && n.character == c && n.path == path + [c]
      ensures n.value == None && n.childNodes == []
      ensures forall m :: m in childNodes <==> m in old(childNodes) || m == n
    {
      n := new TrieNode(this, c, path + [c]);
      assert childNodes == childNodes[..i] + childNodes[i..];
      childNodes := childNodes[..i] + [n] + childNodes[i..];
    }
  }

  /** Every node is filed under its own path, below the node of the path's prefix. */
  ghost predicate Filed<T>(nodes: Nodes<T>, root: TrieNode<T>) {
    && [] in nodes && nodes[[]] == root && root.parent == null
    && (forall p :: p in nodes ==> nodes[p].path == p)
    && (forall p: Bytes, c: Byte :: p + [c] in nodes ==>
          p in nodes && nodes[p + [c]].parent == nodes[p] && nodes[p + [c]].character == c)
  }

  /** The children of p's node are, in order, the nodes of the paths one character longer. */
  ghost predicate Branching<T>(nodes: Nodes<T>, p: Bytes)
    requires p in nodes
    reads {nodes[p]}`childNodes
  {
    nodes[p].Sorted() && ChildrenOf(nodes, p, nodes[p].childNodes)
  }

  ghost predicate ChildrenOf<T>(nodes: Nodes<T>, p: Bytes, children: seq<TrieNode<T>>) {
    && (forall n :: n in children ==> p + [n.character] in nodes && nodes[p + [n.character]] == n)
    && (forall c: Byte :: p + [c] in nodes ==> nodes[p + [c]] in children)
  }

  lemma ChildrenGrow<T>(nodes: Nodes<T>, p: Bytes, c: Byte, n: TrieNode<T>, before: seq<TrieNode<T>>, after: seq<TrieNode<T>>)
    requires ChildrenOf(nodes, p, before) && p + [c] !in nodes && n.character == c
    requires forall m :: m in after <==> m in before || m == n
    ensures ChildrenOf(nodes[p + [c] := n], p, after)
  {
    forall d: Byte | d != c ensures p + [d] != p + [c] {
      assert (p + [d])[|p|] == d;
    }
    forall m | m in before ensures m.character != c {
      assert p + [m.character] in nodes;
    }
  }

  ghost function Values<T>(nodes: Nodes<T>): map<Bytes, T>
    reads nodes.Values`value
  {
    map p | p in nodes && nodes[p].value.Some? :: nodes[p].value.value
  }

  lemma ValuesMore<T>(nodes: Nodes<T>, p: Bytes, n: TrieNode<T>)
    requires p !in nodes && n.value == None
    ensures Values(nodes[p := n]) == Values(nodes)
  {
  }

  lemma BranchSorted<T>(nodes: Nodes<T>, p: Bytes)
    requires p in nodes && Branching(nodes, p)
    ensures nodes[p].Sorted()
  {
  }

  lemma ChildPath<T>(nodes: Nodes<T>, p: Bytes, n: TrieNode<T>)
    requires p in nodes && Branching(nodes, p) && n in nodes[p].childNodes
    ensures p + [n.character] in nodes && nodes[p + [n.character]] == n
  {
  }

  lemma NoSuchChild<T>(nodes: Nodes<T>, root: TrieNode<T>, p: Bytes, c: Byte)
    requires Filed(nodes, root) && p in nodes && Branching(nodes, p) && forall m :: m in nodes[p].childNodes ==> m.character != c
    ensures p + [c] !in nodes
  {
  }

  /** Filing one more child under p keeps the files in order. */
  lemma FiledMore<T>(nodes: Nodes<T>, root: TrieNode<T>, p: Bytes, c: Byte, n: TrieNode<T>)
    requires Filed(nodes, root) && p in nodes && p + [c] !in nodes
    requires n.path == p + [c] && n.parent == nodes[p] && n.character == c
    ensures Filed(nodes[p + [c] := n], root)
  {
    forall q: Bytes, d: Byte | q + [d] == p + [c] ensures q == p && d == c {
      assert (q + [d])[..|q|] == q && (p + [c])[..|p|] == p;
    }
  }

  lemma NewLeaf<T>(nodes: Nodes<T>, root: TrieNode<T>, p: Bytes, c: Byte, n: TrieNode<T>)
    requires Filed(nodes, root) && p in nodes && p + [c] !in nodes && n.childNodes == []
    ensures Branching(nodes[p + [c] := n], p + [c])
  {
    forall d: Byte ensures p + [c] + [d] !in nodes[p + [c] := n] {
      assert |p + [c] + [d]| == |p + [c]| + 1;
    }
  }

  lemma OtherBranches<T>(nodes: Nodes<T>, p: Bytes, c: Byte, n: TrieNode<T>)
    requires p + [c] !in nodes && forall q :: q in nodes && q != p ==> Branching(nodes, q)
    ensures forall q :: q in nodes && q != p ==> Branching(nodes[p + [c] := n], q)
  {
    forall q, d: Byte | q != p ensures q + [d] != p + [c] {
      assert (q + [d])[..|q|] == q && (p + [c])[..|p|] == p;
    }
  }

  /** Every node branches as it should once n is filed as p's child for c. */
  lemma AllBranches<T>(nodes: Nodes<T>, root: TrieNode<T>, p: Bytes, c: Byte, n: TrieNode<T>)
    requires Filed(nodes, root) && p in nodes && p + [c] !in nodes && n.childNodes == []
    requires forall q :: q in nodes && q != p ==> Branching(nodes, q)
    requires nodes[p].Sorted() && ChildrenOf(nodes[p + [c] := n], p, nodes[p].childNodes)
    ensures var more := nodes[p + [c] := n]; forall q :: q in more ==> Branching(more, q)
  {
    NewLeaf(nodes, root, p, c, n);
    OtherBranches(nodes, p, c, n);
    hide Filed, ChildrenOf, TrieNode.Sorted;
    assert Branching(nodes[p + [c] := n], p);
  }

  class Trie<T> {
    var size: nat
    const root: TrieNode<T>
    ghost var nodes: Nodes<T>

    /** The finite map that the trie stands for. */
    ghost function Contents(): map<Bytes, T>
      reads this`nodes, nodes.Values`value
    {
      Values(nodes)
    }

    /** The keys that have a value. */
    ghost function Live(): set<Bytes>
      reads this`nodes, nodes.Values`value
    {
      Contents().Keys
    }

    ghost predicate Valid()
      reads this, nodes.Values
    {
      && Filed(nodes, root)
      && (forall p :: p in nodes ==> Branching(nodes, p))
      && size == |Live()| && [] !in Live()
    }

    constructor ()
      ensures Valid() && Contents() == map[] && size == 0 && fresh(nodes.Values)
    {
      root := new TrieNode(null, 0, []);
      size := 0;
      nodes := map[[] := root];
    }

    /** get_node on the node of path p. */
    method Child(ghost p: Bytes, node: TrieNode<T>, c: Byte) returns (n: TrieNode<T>)
      requires Valid() && p in nodes && nodes[p] == node
      modifies this`nodes, node`childNodes
      ensures Valid() && Contents() == old(Contents())
      ensures p + [c] in nodes && nodes[p + [c]] == n
      ensures nodes == old(nodes) || (fresh(n) && nodes == old(nodes)[p + [c] := n])
    {
      hide Filed, Branching;
      BranchSorted(nodes, p);
      var i, found := node.Locate(c);
      if found {
        n := node.childNodes[i];
        ChildPath(nodes, p, n);
      } else {
        NoSuchChild(nodes, root, p, c);
        n := NewChild(p, node, c, i);
      }
    }

    method NewChild(ghost p: Bytes, node: TrieNode<T>, c: Byte, i: nat) returns (n: TrieNode<T>)
      requires Valid() && p in nodes && nodes[p] == node && p + [c] !in nodes && i <= |node.childNodes|
      requires forall j :: 0 <= j < i ==> node.childNodes[j].character < c
      requires forall j :: i <= j < |node.childNodes| ==> node.childNodes[j].character > c
      modifies this`nodes, node`childNodes
      ensures Valid() && Contents() == old(Contents()) && fresh(n) && nodes == old(nodes)[p + [c] := n]
    {
      hide ChildrenOf, Values;
      assert Branching(nodes, p) && node.path == p;
      assert forall q :: q in nodes && q != p ==> nodes[q].path != nodes[p].path;
      ghost var children := node.childNodes;
      n := node.Grow(i, c);
      assert n !in nodes.Values;
      hide Filed;
      ChildrenGrow(nodes, p, c, n, children, node.childNodes);
      FileNode(p, c, n);
    }

    /** Enter a new child in the map of paths. */
    ghost method FileNode(p: Bytes, c: Byte, n: TrieNode<T>)
      requires Filed(nodes, root) && p in nodes && p + [c] !in nodes && size == |Live()| && [] !in Live()
      requires n.path == p + [c] && n.parent == nodes[p] && n.character == c && n.childNodes == [] && n.value == None
      requires forall q :: q in nodes && q != p ==> Branching(nodes, q)
      requires nodes[p].Sorted() && ChildrenOf(nodes[p + [c] := n], p, nodes[p].childNodes)
      modifies this`nodes
      ensures Valid() && Contents() == old(Contents())
      ensures nodes == old(nodes)[p + [c] := n]
    {
      hide Filed, Branching, ChildrenOf, Values, TrieNode.Sorted;
      FiledMore(nodes, root, p, c, n);
      AllBranches(nodes, root, p, c, n);
      ValuesMore(nodes, p + [c], n);
      nodes := nodes[p + [c] := n];
    }

    /** Store val under key; inserting the empty key throws. */
    method Insert(key: Bytes, val: T) returns (ok: bool)
      requires Valid()
      modifies this, nodes.Values
      ensures Valid() && fresh(nodes.Values - old(nodes.Values))
      ensures ok <==> key != []
      ensures Contents() == if ok then old(Contents())[key := val] else old(Contents())
    {
      if key == [] {
        return false;
      }
      hide Branching, Filed, Values;
      var p := MakePath(key);
      Put(key, p, val);
      ok := true;
    }

    /** Walk down from the root along the characters of key, creating the nodes that are missing. */
    method MakePath(key: Bytes) returns (p: TrieNode<T>)
      requires Valid()
      modifies this`nodes, nodes.Values`childNodes
      ensures Valid() && Contents() == old(Contents()) && fresh(nodes.Values - old(nodes.Values))
      ensures key in nodes && nodes[key] == p
    {
      hide Branching, Values;
      p := root;
      var keychars := key;
      ghost var path: Bytes := [];
      assert path in nodes;
      while keychars != []
        invariant Valid() && Contents() == old(Contents())
        invariant path + keychars == key && path in nodes && nodes[path] == p
        invariant fresh(nodes.Values - old(nodes.Values))
        decreases |keychars|
      {
        hide Filed;
        assert path + [keychars[0]] + keychars[1..] == key;
        p := Child(path, p, keychars[0]);
        path := path + [keychars[0]];
        keychars := keychars[1..];
      }
      assert path == key;
    }

    /** set_value on the node of a path. */
    method SetAt(ghost p: Bytes, node: TrieNode<T>, v: Option<T>) returns (replaced: bool)
      requires Filed(nodes, root) && p in nodes && nodes[p] == node
      modifies node`value
      ensures replaced <==> p in old(Contents())
      ensures Contents() == if v.Some? then old(Contents())[p := v.value] else old(Contents()) - {p}
    {
      assert forall q :: q in nodes && q != p ==> nodes[q].path != nodes[p].path;
      hide Filed;
      replaced := node.SetValue(v);
    }

    /** Set a value and keep count. */
    method Put(ghost p: Bytes, node: TrieNode<T>, v: T)
      requires Valid() && p in nodes && nodes[p] == node && p != []
      modifies this`size, node`value
      ensures Valid() && nodes == old(nodes) && Contents() == old(Contents())[p := v]
    {
      hide Filed, Branching, Values;
      var replaced := SetAt(p, node, Some(v));
      assert Live() == old(Live()) + {p};
      if !replaced {
        size := size + 1;
      }
    }

    /** Clear a value and keep count. */
    method Drop(ghost p: Bytes, node: TrieNode<T>)
      requires Valid() && p in Contents() && p in nodes && nodes[p] == node
      modifies this`size, node`value
      ensures Valid() && nodes == old(nodes) && Contents() == old(Contents()) - {p}
    {
      hide Filed, Branching, Values;
      var replaced := SetAt(p, node, None);
      assert old(Live()) == Live() + {p};
      size := size - 1;
    }

    /** The node that the characters of key lead to. The search compares a child's unsigned character with a signed one
        of the key, so it gives up at any character of 128 or more. */
    method Descend(key: Bytes) returns (node: TrieNode?<T>)
      requires Valid()
      ensures node != null <==> key in nodes && AllAscii(key)
      ensures node != null ==> node == nodes[key]
    {
      hide Filed, Branching, AllAscii;
      RootFiled(nodes, root);
      NoneAscii(key);
      var curr: TrieNode<T>, keyIndex := root, 0;
      while keyIndex < |key|
        invariant keyIndex <= |key| && key[..keyIndex] in nodes && nodes[key[..keyIndex]] == curr
        invariant AllAscii(key[..keyIndex])
      {
        ghost var p := key[..keyIndex];
        BranchSorted(nodes, p);
        assert key[..keyIndex + 1] == p + [key[keyIndex]];
        var i, found := curr.Match(Signed(key[keyIndex]));
        if !found {
          DeadEnd(nodes, root, key, keyIndex);
          return null;
        }
        ChildPath(nodes, p, curr.childNodes[i]);
        OneMoreAscii(key, keyIndex);
        curr := curr.childNodes[i];
        keyIndex := keyIndex + 1;
      }
      assert key[..keyIndex] == key;
      return curr;
    }

    /** The node of a key that has a value. */
    method Find(key: Bytes) returns (node: TrieNode?<T>)
      requires Valid()
      ensures node != null <==> key in Contents() && AllAscii(key)
      ensures node != null ==> key in nodes && node == nodes[key] && node.value == Some(Contents()[key])
    {
      node := Descend(key);
      if node != null && node.value == None {
        node := null;
      }
    }

    /** Remove a key, if find can find it. The node stays. */
    method Erase(key: Bytes)
      requires Valid()
      modifies this`size, nodes.Values
      ensures Valid() && nodes == old(nodes)
      ensures Contents() == if AllAscii(key) then old(Contents()) - {key} else old(Contents())
    {
      var node := Find(key);
      if node != null {
        Drop(key, node);
      }
    }
  }

  /** What a char holding this byte compares as. */
  function Signed(b: Byte): int {
    if b < 128 then b else b - 256
  }

  predicate AllAscii(key: Bytes) {
    forall c :: c in key ==> c < 128
  }

  lemma RootFiled<T>(nodes: Nodes<T>, root: TrieNode<T>)
    requires Filed(nodes, root)
    ensures [] in nodes && nodes[[]] == root
  {
  }

  lemma NoneAscii(key: Bytes)
    ensures AllAscii(key[..0])
  {
  }

  lemma OneMoreAscii(key: Bytes, n: nat)
    requires n < |key| && AllAscii(key[..n]) && key[n] < 128
    ensures AllAscii(key[..n + 1])
  {
    assert key[..n + 1] == key[..n] + [key[n]];
  }

  /** Every prefix of a path is a path. */
  lemma {:induction false} PrefixClosed<T>(nodes: Nodes<T>, root: TrieNode<T>, p: Bytes, n: nat)
    requires Filed(nodes, root) && p in nodes && n <= |p|
    ensures p[..n] in nodes
    decreases |p|
  {
    if n == |p| {
      assert p[..n] == p;
    } else {
      var q := p[..|p| - 1];
      assert p == q + [p[|p| - 1]];
      PrefixClosed(nodes, root, q, n);
      assert q[..n] == p[..n];
    }
  }

  /** No child below this prefix matches, as signed comparison goes: the key has no node, or a character it cannot find. */
  lemma DeadEnd<T>(nodes: Nodes<T>, root: TrieNode<T>, key: Bytes, k: nat)
    requires Filed(nodes, root) && k < |key| && key[..k] in nodes && Branching(nodes, key[..k])
    requires forall m :: m in nodes[key[..k]].childNodes ==> m.character != Signed(key[k])
    ensures !(key in nodes && AllAscii(key))
  {
    if key in nodes && AllAscii(key) {
      NextChild(nodes, root, key, k);
    }
  }

  /** A path goes on through the child for its next character. */
  lemma NextChild<T>(nodes: Nodes<T>, root: TrieNode<T>, key: Bytes, k: nat)
    requires Filed(nodes, root) && k < |key| && key in nodes && key[..k] in nodes && Branching(nodes, key[..k])
    ensures exists m :: m in nodes[key[..k]].childNodes && m.character == key[k]
    ensures key[k] in key
  {
    PrefixClosed(nodes, root, key, k + 1);
    assert key[..k + 1] == key[..k] + [key[k]];
    assert nodes[key[..k + 1]] in nodes[key[..k]].childNodes;
  }
}
