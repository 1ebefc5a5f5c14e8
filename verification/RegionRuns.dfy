/**
  Runs of handler installation and removal, region creation and removal, and growth and
  shrinking of the namespace: what holds of every state that they can reach.
 */
module RegionRuns {
  import opened Prelude
  import opened TreeShape
  import opened RegionLinks
  import opened RegionHandlers

  datatype State<N(==)> = State(shape: Shape<N>, topology: Topology<N>, links: Links<N>)

  /** `h` names a newly allocated handler. */
  datatype Op<N> =
    | InstallOp(d: N, sp: nat, h: nat) | UninstallOp(d: N, sp: nat)
    | CreateOp(n: N, sp: nat) | DropOp(n: N)
    | GrowOp(p: N, n: N, device: bool) | LeaveOp(n: N)

  ghost predicate Ok<N>(s: State<N>) { Inv(s.shape, s.topology, s.links) }

  /** The narrowing of the space to a byte does no harm to a region on `n`. */
  ghost predicate Narrowable<N>(s: State<N>, n: N, sp: nat)
    requires WellFormed(s.shape) && n in s.shape.parent
  {
    assert ParentOk(s.shape, n);
    sp < SPACE_WIDTH || Nearest(s.shape, s.topology, s.shape.parent[n], sp % SPACE_WIDTH).None?
  }

  /** Regions are created on nodes that have no object yet; a node that leaves has no children and no handlers. */
  ghost predicate Possible<N>(s: State<N>, op: Op<N>)
    requires Ok(s)
  {
    match op
    case InstallOp(d, _, h) => d in s.shape.kids && h !in s.topology.space
    case UninstallOp(d, _) => d in s.shape.kids
    case CreateOp(n, sp) => n in s.shape.parent && n !in s.topology.lists && n !in s.links.attached && Narrowable(s, n, sp)
    case DropOp(n) => n in s.shape.kids
    case GrowOp(p, n, _) => p in s.shape.kids && n !in s.shape.kids && |s.shape.kids| + 1 < BUGGED - 1
    case LeaveOp(n) => n in s.shape.parent && n in s.shape.kids && s.shape.kids[n] == [] && n !in s.topology.lists
  }

  /** What the walk below a device makes of the links. */
  ghost function WalkBelow<N>(t: Shape<N>, c: Topology<N>, h: nat, sp: nat, install: bool, d: N, l: Links<N>): (m: Links<N>)
    requires WellFormed(t) && KindsOk(c) && h in Live(c) && d in t.kids && LinksOk(l, Live(c), t.kids.Keys)
    ensures LinksOk(m, Live(c), t.kids.Keys) && Effects(t, c, h, sp, install, t.kids[d], l, m)
  {
    KidsAllAt(t, d);
    VisitorWalk(t, c, Live(c), h, sp, install, t.kids[d], t.rank[d] + 1, l);
    PreOrder(t, Visitor(c, h, sp, install), t.kids[d], t.rank[d] + 1, l).state
  }

  ghost function Installed<N>(s: State<N>, d: N, sp: nat, h: nat): (r: State<N>)
    requires Ok(s) && d in s.topology.lists && h !in s.topology.space && Own(s.topology, d, sp).None?
    ensures Ok(r) && r.shape == s.shape && r.topology == WithHandler(s.topology, d, sp, h)
    ensures forall x :: x in s.shape.parent ==> Relinked(s.shape, r.topology, sp, h, s.links, r.links, x)
  {
    var e, l0 := WithHandler(s.topology, d, sp, h), WithFreshLinks(s.links, h);
    BeforeInstallWalk(s.shape, s.topology, s.links, d, sp, h);
    WithHandlerTopology(s.shape, s.topology, d, sp, h);
    var m := WalkBelow(s.shape, e, h, sp, true, d, l0);
    InstallKeepsInv(s.shape, s.topology, s.links, d, sp, h, e, l0, m);
    State(s.shape, e, m)
  }

  ghost function Uninstalled<N>(s: State<N>, d: N, sp: nat, h: nat): (r: State<N>)
    requires Ok(s) && Own(s.topology, d, sp) == Some(h)
    ensures Ok(r) && r.shape == s.shape && d in s.topology.lists && r.topology == WithoutHandler(s.topology, d, h)
    ensures h !in r.links.regions && h !in r.links.refs
    ensures forall x :: x in s.shape.kids ==> At(r.links, x) == Unlinked(h, At(s.links, x))
  {
    OwnIsListed(s.topology, d, sp);
    WithoutHandlerLive(s.shape, s.topology, d, sp, h);
    var m := WalkBelow(s.shape, s.topology, h, sp, false, d, s.links);
    UninstallKeepsInv(s.shape, s.topology, s.links, d, sp, h, m);
    State(s.shape, WithoutHandler(s.topology, d, h), Release(m, h))
  }

  ghost function Created<N>(s: State<N>, n: N, sp: nat): (r: State<N>)
    requires Ok(s) && n in s.shape.parent && n !in s.topology.lists && n !in s.links.attached && Narrowable(s, n, sp)
    ensures Ok(r)
  {
    CreateKeepsInv(s.shape, s.topology, s.links, n, sp);
    var found := Nearest(s.shape, s.topology, s.shape.parent[n], sp % SPACE_WIDTH);
    State(s.shape, WithRegion(s.topology, n, sp), LinkTo(s.links, n, found))
  }

  ghost function Dropped<N>(s: State<N>, n: N): (r: State<N>)
    requires Ok(s)
    ensures Ok(r) && r.shape == s.shape && r.topology == s.topology && n !in r.links.attached
  {
    DropKeepsInv(s.shape, s.topology, s.links, n);
    State(s.shape, s.topology, Detach(s.links, n))
  }

  ghost function Grown<N>(s: State<N>, p: N, n: N, device: bool): (r: State<N>)
    requires Ok(s) && p in s.shape.kids && n !in s.shape.kids && |s.shape.kids| + 1 < BUGGED - 1
    ensures Ok(r)
  {
    GrowKeepsInv(s.shape, s.topology, s.links, p, n);
    var u := WithKid(s.shape, p, n);
    if device then
      DeviceKeepsInv(u, s.topology, s.links, n);
      State(u, WithDevice(s.topology, n), s.links)
    else State(u, s.topology, s.links)
  }

  ghost function Left<N>(s: State<N>, n: N): (r: State<N>)
    requires Ok(s) && n in s.shape.parent && n in s.shape.kids && s.shape.kids[n] == [] && n !in s.topology.lists
    ensures Ok(r)
  {
    var d := Dropped(s, n);
    ShrinkKeepsInv(s.shape, s.topology, d.links, n);
    State(Without(s.shape, n), s.topology, d.links)
  }

  ghost function Do<N>(s: State<N>, op: Op<N>): (r: State<N>)
    requires Ok(s) && Possible(s, op)
    ensures Ok(r)
  {
    match op
    case InstallOp(d, sp, h) =>
      if d !in s.topology.lists || Own(s.topology, d, sp).Some? then s else Installed(s, d, sp, h)
    case UninstallOp(d, sp) =>
      if Own(s.topology, d, sp).None? then s else Uninstalled(s, d, sp, Own(s.topology, d, sp).value)
    case CreateOp(n, sp) => Created(s, n, sp)
    case DropOp(n) => Dropped(s, n)
    case GrowOp(p, n, device) => Grown(s, p, n, device)
    case LeaveOp(n) => Left(s, n)
  }

  ghost predicate Feasible<N>(s: State<N>, ops: seq<Op<N>>)
    requires Ok(s)
    decreases |ops|
  {
    ops == [] || (Possible(s, ops[0]) && Feasible(Do(s, ops[0]), ops[1..]))
  }

  ghost function After<N>(s: State<N>, ops: seq<Op<N>>): (r: State<N>)
    requires Ok(s) && Feasible(s, ops)
    ensures Ok(r)
    decreases |ops|
  {
    if ops == [] then s else After(Do(s, ops[0]), ops[1..])
  }

  /** No handlers and no regions yet; `devices` are the nodes whose objects can carry handlers. */
  function StartTopology<N(==)>(devices: set<N>): Topology<N> {
    Topology(map d | d in devices :: Device, map d | d in devices :: [], map[])
  }

  ghost function Start<N>(t: Shape<N>, devices: set<N>): State<N> {
    State(t, StartTopology(devices), Links(map[], map[], map[]))
  }

  lemma StartOk<N>(t: Shape<N>, devices: set<N>)
    requires WellFormed(t) && devices <= t.kids.Keys && |t.kids.Keys| < BUGGED - 1
    ensures Ok(Start(t, devices))
  {
    var c, l := StartTopology(devices), Links<N>.Links(map[], map[], map[]);
    StartTopologyOk(t, devices);
    assert LinksOk(l, {}, t.kids.Keys);
    assert l.attached == map[];
  }

  lemma StartTopologyOk<N>(t: Shape<N>, devices: set<N>)
    requires devices <= t.kids.Keys
    ensures TopologyOk(t, StartTopology(devices)) && Live(StartTopology(devices)) == {}
  {
    var c := StartTopology(devices);
    assert forall d :: d in c.lists ==> c.lists[d] == [];
    forall d | d in c.lists ensures ListOk(c, d) { }
  }

  /** `r` is linked to the nearest handler above it for its space, once, and to no other. */
  ghost predicate RightlyLinked<N>(s: State<N>, r: N)
    requires WellFormed(s.shape)
  {
    && r in s.links.attached && r in s.shape.parent && s.shape.parent[r] in s.shape.kids
    && r in s.topology.kind && s.topology.kind[r].Region?
    && var h := s.links.attached[r];
    && Nearest(s.shape, s.topology, s.shape.parent[r], s.topology.kind[r].space) == Some(h)
    && h in s.links.regions && r in s.links.regions[h] && NoDup(s.links.regions[h])
    && forall k :: k in s.links.regions && k != h ==> r !in s.links.regions[k]
  }

  /** `h` has one reference for its device and one for each of its regions. */
  ghost predicate RightlyCounted<N>(s: State<N>, h: nat) {
    h in s.links.regions && h in s.links.refs && s.links.refs[h] == 1 + |s.links.regions[h]|
  }

  /**
    In every reachable state a region that has a handler has the nearest one, is linked to
    it once, and every handler is referred to once more than it has regions.
   */
  lemma ReachableStates<N>(t: Shape<N>, devices: set<N>, ops: seq<Op<N>>)
    requires WellFormed(t) && devices <= t.kids.Keys && |t.kids.Keys| < BUGGED - 1
    ensures Ok(Start(t, devices))
    ensures Feasible(Start(t, devices), ops) ==>
              var s := After(Start(t, devices), ops);
              && (forall r :: r in s.links.attached ==> RightlyLinked(s, r))
              && (forall h :: h in Live(s.topology) ==> RightlyCounted(s, h))
  {
    StartOk(t, devices);
    if Feasible(Start(t, devices), ops) {
      var s := After(Start(t, devices), ops);
      forall r | r in s.links.attached ensures RightlyLinked(s, r) { LinkedRight(s, r); }
      forall h | h in Live(s.topology) ensures RightlyCounted(s, h) {
        assert HandlerOk(s.links, Live(s.topology), h);
      }
    }
  }

  lemma LinkedRight<N>(s: State<N>, r: N)
    requires Ok(s) && r in s.links.attached
    ensures RightlyLinked(s, r)
  {
    var h := s.links.attached[r];
    assert LinkOk(s.shape, s.topology, s.links, r) && ParentOk(s.shape, r);
    assert HandlerOk(s.links, Live(s.topology), h);
    forall k | k in s.links.regions && k != h ensures r !in s.links.regions[k] {
      assert HandlerOk(s.links, Live(s.topology), k);
    }
  }

  /** So removing a handler, whenever it happens, leaves no link to it and frees it. */
  lemma RemovalFrees<N>(s: State<N>, d: N, sp: nat)
    requires Ok(s) && d in s.shape.kids && Own(s.topology, d, sp).Some?
    ensures var h, r := Own(s.topology, d, sp).value, Do(s, UninstallOp(d, sp));
            && h !in r.links.regions && h !in r.links.refs && h !in Live(r.topology)
            && (forall x :: x in r.links.attached ==> r.links.attached[x] != h)
            && forall x :: x in s.shape.kids ==> At(r.links, x) == Unlinked(h, At(s.links, x))
  {
    var h := Own(s.topology, d, sp).value;
    WithoutHandlerLive(s.shape, s.topology, d, sp, h);
  }
}
