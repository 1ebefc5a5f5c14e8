/**
  Address space handlers on the namespace (opregion.c): the operations that change which
  handler each operation region is linked to.
 */
module OpRegion {
  import opened Prelude
  import opened TreeShape
  import opened Namespace
  import opened RegionLinks
  import opened RegionHandlers
  import opened RegionRuns

  datatype Status = Success | InvalidArgument | AlreadyExists | NoHandler | NotFound

  class Handlers {
    const tree: Tree
    var topology: Topology<Node>
    var links: Links<Node>

    ghost function View(): State<Node>
      reads this, tree`shape
    {
      State(tree.shape, topology, links)
    }

    /** The operations keep this; only the last two change the tree. */
    ghost predicate Valid()
      reads this, tree`shape
    {
      RegionRuns.Ok(View())
    }

    /** No handlers yet; `devices` are the nodes whose objects can carry them. */
    constructor (tree: Tree, devices: set<Node>)
      requires tree.Valid() && devices <= tree.shape.kids.Keys && |tree.shape.kids.Keys| < BUGGED - 1
      ensures Valid() && this.tree == tree && View() == Start(tree.shape, devices)
    {
      this.tree := tree;
      topology, links := StartTopology(devices), Links(map[], map[], map[]);
      new;
      StartOk(tree.shape, devices);
    }

    /** find_handler: follows a device's list until a handler serves the space. */
    static method FindIn(space: map<nat, nat>, ids: seq<nat>, sp: nat) returns (r: Option<nat>)
      ensures r == FindHandler(space, ids, sp)
    {
      var i := 0;
      while i < |ids|
        invariant 0 <= i <= |ids| && FindHandler(space, ids, sp) == FindHandler(space, ids[i..], sp)
      {
        if ids[i] in space && space[ids[i]] == sp {
          return Some(ids[i]);
        }
        assert ids[i..][1..] == ids[i + 1..];
        i := i + 1;
      }
      return None;
    }

    /** A handler is taken out of a list by searching for the link before it. */
    static method Unlink(ids: seq<nat>, h: nat) returns (r: seq<nat>)
      ensures r == Without1(ids, h)
    {
      var i := 0;
      while i < |ids| && ids[i] != h
        invariant 0 <= i <= |ids| && h !in ids[..i]
      {
        i := i + 1;
      }
      WithoutAt(ids, h, i);
      r := if i < |ids| then ids[..i] + ids[i + 1..] else ids;
    }

    static lemma {:induction false} WithoutAt(ids: seq<nat>, h: nat, i: nat)
      requires i <= |ids| && h !in ids[..i] && (i < |ids| ==> ids[i] == h)
      ensures Without1(ids, h) == if i < |ids| then ids[..i] + ids[i + 1..] else ids
    {
      if i > 0 {
        assert ids[..i][0] == ids[0] && ids[1..][..i - 1] == ids[..i][1..];
        WithoutAt(ids[1..], h, i - 1);
      }
    }

    lemma FirstChild(d: Node)
      requires tree.Valid() && d in tree.shape.kids
      ensures d.child == null <==> tree.shape.kids[d] == []
      ensures d.child != null ==> d.child in tree.shape.kids && tree.shape.rank[d.child] == tree.shape.rank[d] + 1
                                  && Peers(tree.shape, d.child) == tree.shape.kids[d]
    {
      assert Tree.Linked(tree.shape, d) && KidsOk(tree.shape, d);
      if d.child != null {
        PeersOfKid(tree.shape, d, 0);
        assert tree.shape.kids[d][0..] == tree.shape.kids[d];
      }
    }

    /** The walk of a device's descendants, from its first child on. */
    method WalkBelow(d: Node, f: (Links<Node>, Node) -> (Decision, Links<Node>), l: Links<Node>) returns (m: Links<Node>)
      requires tree.Valid() && d in tree.shape.kids && AllAt(tree.shape, tree.shape.kids[d], tree.shape.rank[d] + 1)
      ensures m == PreOrder(tree.shape, f, tree.shape.kids[d], tree.shape.rank[d] + 1, l).state
    {
      FirstChild(d);
      var state, _ := tree.ForEachNodeDepthFirst(d.child, f, l);
      m := state;
    }

    /** The walk below a device with the callback of handler installation or removal. */
    method Visit(c: Topology<Node>, h: nat, sp: nat, install: bool, d: Node, l: Links<Node>) returns (m: Links<Node>)
      requires tree.Valid() && KindsOk(c) && h in Live(c) && d in tree.shape.kids
      requires LinksOk(l, Live(c), tree.shape.kids.Keys)
      ensures m == RegionRuns.WalkBelow(tree.shape, c, h, sp, install, d, l)
    {
      KidsAllAt(tree.shape, d);
      m := WalkBelow(d, Visitor(c, h, sp, install), l);
    }

    /** Climbs from the parent of `n` to the first device that has a handler for the space. */
    method FindAbove(n: Node, sp: nat) returns (found: Option<nat>)
      requires tree.Valid() && n in tree.shape.parent
      ensures tree.shape.parent[n] in tree.shape.kids && found == Nearest(tree.shape, topology, tree.shape.parent[n], sp)
    {
      Climb(tree.shape, n);
      assert Tree.Linked(tree.shape, n);
      var p := n.parent;
      ghost var rank := tree.shape.rank[n];
      while p != null
        invariant p != null ==> p in tree.shape.kids && tree.shape.rank[p] < rank
        invariant Nearest(tree.shape, topology, tree.shape.parent[n], sp) ==
                  if p == null then None else Nearest(tree.shape, topology, p, sp)
        decreases rank
      {
        if p in topology.lists {
          found := FindIn(topology.space, topology.lists[p], sp);
          if found.Some? {
            return;
          }
        }
        assert Tree.Linked(tree.shape, p);
        rank := tree.shape.rank[p];
        if p != tree.root { Climb(tree.shape, p); }
        p := p.parent;
      }
      return None;
    }

    /**
      uacpi_install_address_space_handler; `h` names the newly allocated handler.  On success
      exactly the regions that now have `h` as their nearest handler are linked to it.
     */
    method Install(d: Node, sp: nat, h: nat) returns (s: Status)
      requires tree.Valid() && Valid() && d in tree.shape.kids && h !in topology.space
      modifies this
      ensures Valid() && View() == Do(old(View()), InstallOp(d, sp, h))
      ensures s == if d !in old(topology).lists then InvalidArgument
                   else if Own(old(topology), d, sp).Some? then AlreadyExists else Success
      ensures s != Success ==> topology == old(topology) && links == old(links)
      ensures s == Success ==> forall r :: r in tree.shape.parent ==>
                Relinked(tree.shape, topology, sp, h, old(links), links, r)
    {
      if d !in topology.lists {
        return InvalidArgument;
      }
      var existing := FindIn(topology.space, topology.lists[d], sp);
      if existing.Some? {
        return AlreadyExists;
      }
      Add(d, sp, h);
      return Success;
    }

    method Add(d: Node, sp: nat, h: nat)
      requires tree.Valid() && Valid() && d in topology.lists && h !in topology.space && Own(topology, d, sp).None?
      modifies this
      ensures View() == Installed(old(View()), d, sp, h)
    {
      var m := LinksWith(d, sp, h);
      topology, links := WithHandler(topology, d, sp, h), m;
    }

    /** The links once the regions below `d` have been visited for the new handler. */
    method LinksWith(d: Node, sp: nat, h: nat) returns (m: Links<Node>)
      requires tree.Valid() && Valid() && d in topology.lists && h !in topology.space && Own(topology, d, sp).None?
      ensures State(tree.shape, WithHandler(topology, d, sp, h), m) == Installed(View(), d, sp, h)
    {
      var e, l0 := WithHandler(topology, d, sp, h), WithFreshLinks(links, h);
      BeforeInstallWalk(tree.shape, topology, links, d, sp, h);
      WithHandlerTopology(tree.shape, topology, d, sp, h);
      m := Visit(e, h, sp, true, d, l0);
    }

    /**
      uacpi_uninstall_address_space_handler.  On success the handler is off the device's list
      and freed, and exactly its regions have no handler now.
     */
    method Uninstall(d: Node, sp: nat) returns (s: Status)
      requires tree.Valid() && Valid() && d in tree.shape.kids
      modifies this
      ensures Valid() && View() == Do(old(View()), UninstallOp(d, sp))
      ensures s == if d !in old(topology).lists then InvalidArgument
                   else if Own(old(topology), d, sp).None? then NoHandler else Success
      ensures s != Success ==> topology == old(topology) && links == old(links)
      ensures s == Success ==> Own(old(topology), d, sp).Some? && Removed(old(topology), old(links), d, Own(old(topology), d, sp).value)
    {
      if d !in topology.lists {
        return InvalidArgument;
      }
      var found := FindIn(topology.space, topology.lists[d], sp);
      if found.None? {
        return NoHandler;
      }
      Remove(d, sp, found.value);
      return Success;
    }

    ghost predicate Removed(was: Topology<Node>, before: Links<Node>, d: Node, h: nat)
      reads this, tree
    {
      && d in was.lists && topology == WithoutHandler(was, d, h) && h !in links.regions && h !in links.refs
      && forall r :: r in tree.shape.kids ==> At(links, r) == Unlinked(h, At(before, r))
    }

    method Remove(d: Node, sp: nat, h: nat)
      requires tree.Valid() && Valid() && Own(topology, d, sp) == Some(h)
      modifies this
      ensures View() == Uninstalled(old(View()), d, sp, h)
    {
      var m := LinksWithout(d, sp, h);
      var ids := Unlink(topology.lists[d], h);
      topology, links := topology.(lists := topology.lists[d := ids], space := topology.space - {h}), m;
    }

    /** The links once the regions of `h` have been visited and the handler given up. */
    method LinksWithout(d: Node, sp: nat, h: nat) returns (m: Links<Node>)
      requires tree.Valid() && Valid() && Own(topology, d, sp) == Some(h)
      ensures d in topology.lists
      ensures State(tree.shape, WithoutHandler(topology, d, h), m) == Uninstalled(View(), d, sp, h)
    {
      OwnIsListed(topology, d, sp);
      WithoutHandlerLive(tree.shape, topology, d, sp, h);
      m := Visit(topology, h, sp, false, d, links);
      UninstallKeepsInv(tree.shape, topology, links, d, sp, h, m);
      m := Release(m, h);
    }

    /**
      A new operation region on `n`: uacpi_opregion_find_and_install_handler climbs to the
      nearest handler for the space, narrowed to a byte.
     */
    method CreateRegion(n: Node, sp: nat) returns (s: Status)
      requires tree.Valid() && Valid() && n in tree.shape.parent && n !in topology.lists && n !in links.attached
      modifies this
      ensures tree.shape.parent[n] in tree.shape.kids && topology == WithRegion(old(topology), n, sp)
      ensures Valid() <==> old(Narrowable(View(), n, sp))
      ensures Valid() ==> View() == Do(old(View()), CreateOp(n, sp))
      ensures var found := Nearest(tree.shape, old(topology), tree.shape.parent[n], sp % SPACE_WIDTH);
              && (found.Some? ==> found.value in old(links).regions && found.value in old(links).refs)
              && links == LinkTo(old(links), n, found) && s == (if found.Some? then Success else NotFound)
    {
      CreateKeepsInv(tree.shape, topology, links, n, sp);
      var found := FindAbove(n, sp % SPACE_WIDTH);
      topology := WithRegion(topology, n, sp);
      if found.Some? {
        links := Attach(links, n, found.value);
        return Success;
      }
      return NotFound;
    }

    /** uacpi_opregion_uninstall_handler. */
    method Detach(n: Node)
      requires tree.Valid() && Valid() && n in tree.shape.kids
      modifies this`links
      ensures Valid() && View() == Do(old(View()), DropOp(n))
      ensures links.attached == old(links).attached - {n} && links.regions.Keys == old(links).regions.Keys
      ensures n in old(links).attached ==> old(links).attached[n] in old(links).regions && old(links).attached[n] in old(links).refs
      ensures links == RegionLinks.Detach(old(links), n)
    {
      DropKeepsInv(tree.shape, topology, links, n);
      links := RegionLinks.Detach(links, n);
    }

    /** A new node in the namespace; a device among them can carry handlers. */
    method AddNode(p: Node, node: Node, device: bool)
      requires tree.Valid() && Valid() && p in tree.shape.kids && node !in tree.shape.kids && |tree.shape.kids| + 1 < BUGGED - 1
      requires node.child == null && node.next == null && !node.dangling
      modifies this`topology, tree`shape, node`parent, p`child, tree.shape.kids[p]`next
      ensures tree.Valid() && View() == Do(old(View()), GrowOp(p, node, device))
    {
      GrownIs(View(), p, node, device);
      var _ := tree.Install(p, node);
      if device {
        topology := WithDevice(topology, node);
      }
    }

    static lemma GrownIs(s: State<Node>, p: Node, n: Node, device: bool)
      requires RegionRuns.Ok(s) && p in s.shape.kids && n !in s.shape.kids && |s.shape.kids| + 1 < BUGGED - 1
      ensures Do(s, GrowOp(p, n, device))
           == State(WithKid(s.shape, p, n), if device then WithDevice(s.topology, n) else s.topology, s.links)
    {
    }

    /** A node without children leaves the namespace: its region is unlinked first. */
    method RemoveNode(node: Node)
      requires tree.Valid() && Valid() && node in tree.shape.parent && node in tree.shape.kids
      requires tree.shape.kids[node] == [] && node !in topology.lists
      modifies this`links, tree`shape, node`dangling, tree.shape.kids.Keys`child, tree.shape.kids.Keys`next
      ensures tree.Valid() && View() == Do(old(View()), LeaveOp(node))
    {
      ghost var s := View();
      Detach(node);
      tree.Remove(node);
      LeftIs(s, node);
    }

    static lemma LeftIs(s: State<Node>, n: Node)
      requires RegionRuns.Ok(s) && RegionRuns.Possible(s, LeaveOp(n))
      ensures n in s.links.attached ==> s.links.attached[n] in s.links.regions && s.links.attached[n] in s.links.refs
      ensures Do(s, LeaveOp(n)) == State(Without(s.shape, n), s.topology, RegionLinks.Detach(s.links, n))
    {
      DropKeepsInv(s.shape, s.topology, s.links, n);
    }
  }
}
