/** The namespace tree (namespace.c): nodes linked by child, next and parent pointers. */
module Namespace {
  import opened Prelude
  import opened TreeShape

  /** Four characters, padded with underscores. */
  type Name = s: seq<Byte> | |s| == 4 witness [0x5F, 0x5F, 0x5F, 0x5F]

  class Node {
    const name: Name
    var child: Node?
    var next: Node?
    var parent: Node?
    var dangling: bool

    constructor (name: Name)
      ensures this.name == name && child == null && next == null && parent == null && !dangling
    {
      this.name := name;
      child, next, parent, dangling := null, null, null, false;
    }
  }

  class Tree {
    const root: Node
    ghost var shape: Shape<Node>

    ghost predicate Valid()
      reads this, shape.kids.Keys
    {
      && WellFormed(shape) && shape.root == root
      && root.parent == null && root.next == null
      && forall n {:trigger Linked(shape, n)} :: n in shape.kids ==> assert KidsOk(shape, n); Linked(shape, n)
    }

    /** The pointers of `n` and of its children spell out its child list. */
    static ghost predicate Linked(t: Shape<Node>, n: Node)
      requires WellFormed(t) && n in t.kids
      reads n`child, n`parent, n`dangling, t.kids[n]`next
    {
      && !n.dangling
      && n.child == First(t.kids[n])
      && (n in t.parent ==> n.parent == t.parent[n])
      && forall i :: 0 <= i < |t.kids[n]| ==> NextInList(t, n, i)
    }

    static ghost predicate NextInList(t: Shape<Node>, n: Node, i: nat)
      requires WellFormed(t) && n in t.kids && i < |t.kids[n]|
      reads t.kids[n]`next
    {
      t.kids[n][i].next == First(t.kids[n][i + 1..])
    }

    static ghost function First(ns: seq<Node>): Node? { if ns == [] then null else ns[0] }

    constructor (root: Node)
      requires root.child == null && root.next == null && root.parent == null && !root.dangling
      ensures Valid() && this.root == root && shape.kids == map[root := []]
    {
      this.root := root;
      var kids: map<Node, seq<Node>>, parent: map<Node, Node> := map[root := []], map[];
      var rank: map<Node, nat> := map[root := 0];
      shape := Shape<Node>.Shape(root, kids, parent, rank, 0);
    }

    /** The next pointer leads to the next peer. */
    lemma NextIsPeer(n: Node)
      requires Valid() && n in shape.kids
      ensures n.next == First(Peers(shape, n)[1..])
    {
      if n != root {
        var p := shape.parent[n];
        assert ParentOk(shape, n) && Linked(shape, p);
        var i := IndexIn(shape.kids[p], n);
        PeersOfKid(shape, p, i);
        assert NextInList(shape, p, i);
        assert shape.kids[p][i..][1..] == shape.kids[p][i + 1..];
      }
    }

    /** The last child of `p`, found by following next pointers. */
    method LastChild(p: Node) returns (k: Node)
      requires Valid() && p in shape.kids && shape.kids[p] != []
      ensures k == shape.kids[p][|shape.kids[p]| - 1]
    {
      assert Linked(shape, p);
      k := p.child;
      ghost var j := 0;
      while k.next != null
        invariant 0 <= j < |shape.kids[p]| && k == shape.kids[p][j]
        decreases |shape.kids[p]| - j
      {
        assert NextInList(shape, p, j);
        k, j := k.next, j + 1;
      }
      assert NextInList(shape, p, j);
    }

    /** The pointer updates of an installation; other child lists are not touched. */
    method LinkLast(p: Node, node: Node)
      requires Valid() && p in shape.kids && node !in shape.kids
      modifies node`parent, p`child, shape.kids[p]`next
      ensures node.parent == p
      ensures p.child == First(shape.kids[p] + [node]) && ChainTo(shape.kids[p], node)
    {
      ghost var ks := shape.kids[p];
      assert Linked(shape, p) && KidsOk(shape, p);
      forall i | 0 <= i < |ks| ensures ks[i].next == First(ks[i + 1..]) {
        assert NextInList(shape, p, i);
      }
      if p.child == null {
        p.child := node;
      } else {
        var last := LastChild(p);
        last.next := node;
      }
      node.parent := p;
    }

    /** Distinct nodes have disjoint child lists. */
    static lemma DisjointKids(t: Shape<Node>, p: Node, n: Node)
      requires WellFormed(t) && p in t.kids && n in t.kids && n != p
      ensures forall i :: 0 <= i < |t.kids[n]| ==> t.kids[n][i] !in t.kids[p]
    {
      assert KidsOk(t, n) && KidsOk(t, p);
    }

    /** uacpi_node_install: appends to the parent's child list; a dangling node is refused. */
    method Install(p: Node, node: Node) returns (ok: bool)
      requires Valid() && p in shape.kids && node !in shape.kids && node.child == null && node.next == null
      modifies this`shape, node`parent, p`child, shape.kids[p]`next
      ensures Valid() && ok == !old(node.dangling)
      ensures shape == if ok then WithKid(old(shape), p, node) else old(shape)
    {
      if node.dangling {
        return false;
      }
      ghost var t := shape;
      assert Linked(t, p) && KidsOk(t, p) && root !in t.kids[p];
      LinkLast(p, node);
      forall n | n in t.kids && n != p ensures Linked(t, n) {
        DisjointKids(t, p, n);
        assert old(Linked(t, n));
      }
      InstallLinks(t, p, node);
      shape := WithKid(t, p, node);
      ok := true;
    }

    /** The links of the grown tree, from those of the old one and the new end of one list. */
    static lemma InstallLinks(t: Shape<Node>, p: Node, node: Node)
      requires WellFormed(t) && p in t.kids && node !in t.kids
      requires forall n {:trigger Linked(t, n)} :: n in t.kids && n != p ==> Linked(t, n)
      requires !p.dangling && p.child == First(t.kids[p] + [node]) && (p in t.parent ==> p.parent == t.parent[p])
      requires ChainTo(t.kids[p], node)
      requires node.child == null && node.next == null && !node.dangling && node.parent == p
      ensures WellFormed(WithKid(t, p, node))
      ensures forall n {:trigger Linked(WithKid(t, p, node), n)} :: n in WithKid(t, p, node).kids ==> Linked(WithKid(t, p, node), n)
    {
      WithKidWellFormed(t, p, node);
      var u := WithKid(t, p, node);
      forall n | n in u.kids ensures Linked(u, n) {
        if n == p {
          Appended(t, p, node);
        } else if n != node {
          SameKidsLinked(t, u, n);
        }
      }
    }

    static lemma SameKidsLinked(t: Shape<Node>, u: Shape<Node>, n: Node)
      requires WellFormed(t) && WellFormed(u) && n in t.kids && n in u.kids && u.kids[n] == t.kids[n]
      requires n in u.parent ==> n in t.parent && u.parent[n] == t.parent[n]
      requires Linked(t, n)
      ensures Linked(u, n)
    {
      forall i | 0 <= i < |u.kids[n]| ensures NextInList(u, n, i) {
        assert NextInList(t, n, i);
      }
    }

    static lemma Appended(t: Shape<Node>, p: Node, node: Node)
      requires WellFormed(t) && p in t.kids && node !in t.kids && WellFormed(WithKid(t, p, node))
      requires !p.dangling && p.child == First(t.kids[p] + [node]) && (p in t.parent ==> p.parent == t.parent[p])
      requires node.next == null && ChainTo(t.kids[p], node)
      ensures Linked(WithKid(t, p, node), p)
    {
      var u, ks := WithKid(t, p, node), t.kids[p];
      forall i | 0 <= i < |u.kids[p]| ensures NextInList(u, p, i) {
        if i < |ks| {
          assert (ks + [node])[i + 1..][0] == (ks + [node])[i + 1];
        }
      }
    }

    /** The sibling before `node`, found by following next pointers. */
    method Previous(p: Node, node: Node) returns (prev: Node)
      requires Valid() && p in shape.kids && node in shape.kids[p] && p.child != node
      ensures IndexIn(shape.kids[p], node) > 0 && prev == shape.kids[p][IndexIn(shape.kids[p], node) - 1]
    {
      ghost var all, i := shape.kids[p], IndexIn(shape.kids[p], node);
      assert Linked(shape, p) && KidsOk(shape, p);
      prev := p.child;
      ghost var k: nat := 0;
      assert NextInList(shape, p, k);
      while prev.next != node
        invariant k < i && prev == all[k] && prev.next == First(all[k + 1..])
        decreases i - k
      {
        prev, k := prev.next, k + 1;
        assert NextInList(shape, p, k);
      }
    }

    /** The pointer updates of an uninstallation: the node is bridged over and marked. */
    method Unlink(p: Node, node: Node)
      requires Valid() && p in shape.kids && node in shape.kids[p]
      modifies node`dangling, p`child, shape.kids[p]`next
      ensures node.dangling
      ensures var i := IndexIn(shape.kids[p], node);
              var ks := shape.kids[p][..i] + shape.kids[p][i + 1..];
              p.child == First(ks) && forall j :: 0 <= j < |ks| ==> ks[j].next == First(ks[j + 1..])
    {
      ghost var all, i := shape.kids[p], IndexIn(shape.kids[p], node);
      assert Linked(shape, p) && KidsOk(shape, p);
      forall j | 0 <= j < |all| ensures all[j].next == First(all[j + 1..]) {
        assert NextInList(shape, p, j);
      }
      if p.child == node {
        p.child := node.next;
      } else {
        var prev := Previous(p, node);
        prev.next := node.next;
      }
      node.dangling := true;
      Bridged(all, i);
    }

    /** A list with the pointer before index `i` bridged over it is the list without it. */
    static lemma Bridged(all: seq<Node>, i: nat)
      requires i < |all|
      requires forall j :: 0 <= j < |all| ==> all[j].next == First(if j + 1 == i then all[i + 1..] else all[j + 1..])
      ensures var ks := all[..i] + all[i + 1..];
              forall j :: 0 <= j < |ks| ==> ks[j].next == First(ks[j + 1..])
    {
      var ks := all[..i] + all[i + 1..];
      forall j | 0 <= j < |ks| ensures ks[j].next == First(ks[j + 1..]) {
        if j < i {
          assert ks[j] == all[j];
        } else {
          assert ks[j] == all[j + 1] && ks[j + 1..] == all[j + 2..];
        }
      }
    }

    /** Bridging over `node` keeps the links of all nodes but itself and its parent. */
    method Bypass(p: Node, node: Node)
      requires Valid() && p in shape.kids && node in shape.kids[p] && p != node
      modifies node`dangling, p`child, shape.kids[p]`next
      ensures node.dangling
      ensures forall n {:trigger Linked(shape, n)} :: n in shape.kids && n != p && n != node ==> Linked(shape, n)
      ensures var i := IndexIn(shape.kids[p], node);
              var ks := shape.kids[p][..i] + shape.kids[p][i + 1..];
              p.child == First(ks) && forall j :: 0 <= j < |ks| ==> ks[j].next == First(ks[j + 1..])
    {
      Unlink(p, node);
      forall n | n in shape.kids && n != p && n != node ensures Linked(shape, n) {
        DisjointKids(shape, p, n);
        assert old(Linked(shape, n));
      }
    }

    /** The removal of a node that is in the tree. */
    method Remove(node: Node)
      requires Valid() && node in shape.kids && node != root
      modifies this`shape, node`dangling, shape.kids.Keys`child, shape.kids.Keys`next
      ensures Valid() && node.dangling && shape == Without(old(shape), node)
    {
      ghost var t := shape;
      assert node in t.parent && ParentOk(t, node) && Linked(t, node);
      var p := node.parent;
      assert Linked(t, p) && KidsOk(t, p) && root !in t.kids[p] && p != node;
      Bypass(p, node);
      UninstallLinks(t, node);
      shape := Without(t, node);
    }

    /**
      uacpi_node_uninstall: the node leaves with everything below it.  Nothing happens to
      a node that has been uninstalled before, was never installed or is the root.
     */
    method Uninstall(node: Node)
      requires Valid() && (node in shape.kids || node.dangling || node.parent == null)
      modifies this`shape, node`dangling, shape.kids.Keys`child, shape.kids.Keys`next
      ensures Valid() && (node.dangling <==> old(node.dangling || node.parent != null))
      ensures shape == if old(node.dangling || node.parent == null) then old(shape) else Without(old(shape), node)
    {
      if !node.dangling && node.parent != null {
        assert Linked(shape, node) && ParentOk(shape, node);
        Remove(node);
      }
    }

    static lemma UninstallLinks(t: Shape<Node>, node: Node)
      requires WellFormed(t) && node in t.parent && t.parent[node] in t.kids && node in t.kids[t.parent[node]]
      requires forall n {:trigger Linked(t, n)} :: n in t.kids && n != t.parent[node] && n != node ==> Linked(t, n)
      requires var p := t.parent[node];
               var i := IndexIn(t.kids[p], node);
               var ks := t.kids[p][..i] + t.kids[p][i + 1..];
               && !p.dangling && (p in t.parent ==> p.parent == t.parent[p])
               && p.child == First(ks) && forall j :: 0 <= j < |ks| ==> ks[j].next == First(ks[j + 1..])
      ensures WellFormed(Without(t, node))
      ensures forall n {:trigger Linked(Without(t, node), n)} :: n in Without(t, node).kids ==> Linked(Without(t, node), n)
    {
      WithoutWellFormed(t, node);
      var u, p := Without(t, node), t.parent[node];
      assert KidsOk(t, p) && p != node;
      forall n | n in u.kids ensures Linked(u, n) {
        if n == p {
          forall j | 0 <= j < |u.kids[p]| ensures NextInList(u, p, j) { }
        } else {
          SameKidsLinked(t, u, n);
        }
      }
    }

    /** Each node of the list points to the next one and the last to `end`. */
    static ghost predicate ChainTo(ns: seq<Node>, end: Node)
      reads ns
    {
      forall i :: 0 <= i < |ns| ==> ns[i].next == (ns + [end])[i + 1]
    }

    /** One turn of the walk upwards: to the next sibling, to the parent, or out (depth 0). */
    method Ascend<S>(node: Node, depth: nat, ghost decide: (S, Node) -> (Decision, S), ghost s: S)
      returns (to: Node, toDepth: nat, up: bool)
      requires Valid() && node in shape.kids && 1 <= depth <= shape.rank[node] + 1
      ensures to in shape.kids && toDepth <= shape.rank[to] + 1
      ensures Resume(shape, decide, node, depth, true, s)
           == if toDepth == 0 then Walk([], s, false) else Resume(shape, decide, to, toDepth, up, s)
      ensures WeightLeft(shape, to, toDepth, up) == WeightLeft(shape, node, depth, true) && (!up || toDepth < depth)
    {
      NextIsPeer(node);
      if node.next != null {
        ResumeNext(shape, decide, node, depth, s);
        WeightNext(shape, node, depth);
        return node.next, depth, false;
      }
      PeersAllAt(shape, node);
      if depth == 1 {
        assert Peers(shape, node)[1..] == [];
        return node, 0, true;
      }
      ResumeUp(shape, decide, node, depth, s);
      WeightUp(shape, node, depth);
      assert Linked(shape, node);
      return node.parent, depth - 1, true;
    }

    /** One callback that did not stop the walk: into the children, or on to the way up. */
    method Descend<S>(node: Node, depth: nat, decision: Decision, ghost decide: (S, Node) -> (Decision, S), ghost s: S)
      returns (to: Node, toDepth: nat, up: bool)
      requires Valid() && node in shape.kids && 1 <= depth <= shape.rank[node] + 1
      requires decision == decide(s, node).0 && decision != Stop
      ensures to in shape.kids && 1 <= toDepth <= shape.rank[to] + 1
      ensures Resume(shape, decide, node, depth, false, s)
           == Join(Walk([node], decide(s, node).1, false), Resume(shape, decide, to, toDepth, up, decide(s, node).1))
      ensures WeightLeft(shape, to, toDepth, up) < WeightLeft(shape, node, depth, false)
    {
      WeightDown(shape, node, depth);
      assert Linked(shape, node);
      if decision == Continue && node.child != null {
        ResumeDown(shape, decide, node, depth, s);
        return node.child, depth + 1, false;
      }
      ResumeTurn(shape, decide, node, depth, s);
      return node, depth, true;
    }

    /**
      uacpi_namespace_for_each_node_depth_first: visits exactly what the recursive
      pre-order of the start node and its later siblings visits, and always ends.
     */
    method ForEachNodeDepthFirst<S>(start: Node?, decide: (S, Node) -> (Decision, S), init: S)
      returns (state: S, ghost trace: seq<Node>)
      requires Valid() && (start != null ==> start in shape.kids)
      ensures start == null ==> state == init && trace == []
      ensures start != null ==>
                AllAt(shape, Peers(shape, start), shape.rank[start])
                && state == PreOrder(shape, decide, Peers(shape, start), shape.rank[start], init).state
      ensures start != null ==> trace == PreOrder(shape, decide, Peers(shape, start), shape.rank[start], init).trace
    {
      state, trace := init, [];
      if start == null {
        return;
      }
      ResumeWhole(shape, decide, start, init);
      ghost var whole := Resume(shape, decide, start, 1, false, init);
      var node: Node, depth: nat, walkingUp := start, 1, false;
      while depth > 0
        invariant node in shape.kids && depth <= shape.rank[node] + 1
        invariant depth > 0 ==> whole == Join(Walk(trace, state, false), Resume(shape, decide, node, depth, walkingUp, state))
        invariant depth == 0 ==> whole == Walk(trace, state, false)
        decreases WeightLeft(shape, node, depth, walkingUp), walkingUp, depth
      {
        if walkingUp {
          node, depth, walkingUp := Ascend(node, depth, decide, state);
        } else {
          var (d, s1) := decide(state, node);
          if d == Stop {
            ResumeStop(shape, decide, node, depth, state);
            state, trace := s1, trace + [node];
            return;
          }
          ghost var done, here := Walk(trace, state, false), Walk([node], s1, false);
          trace := trace + [node];
          node, depth, walkingUp := Descend(node, depth, d, decide, state);
          JoinAssoc(done, here, Resume(shape, decide, node, depth, walkingUp, s1));
          state := s1;
        }
      }
    }
  }
}
