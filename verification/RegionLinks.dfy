/**
  Operation regions and address space handlers (opregion.c, shareable.c), on values:
  which handler a region is linked to, each handler's list of regions and its reference
  count, and what the tree walks of handler installation and removal do to them.
 */
module RegionLinks {
  import opened Prelude
  import opened TreeShape

  datatype Kind = Device | Region(space: nat) | Other

  /** What stays fixed during a walk: node kinds, each device's handler list, each handler's space. */
  datatype Topology<N(==)> = Topology(kind: map<N, Kind>, lists: map<N, seq<nat>>, space: map<nat, nat>)

  /** What a walk changes: each handler's regions and reference count, each region's handler. */
  datatype Links<N(==)> = Links(regions: map<nat, seq<N>>, refs: map<nat, nat>, attached: map<N, nat>)

  // ----- reference counts -----

  const BUGGED: nat := 0xFFFF_FFFF

  /** uacpi_shareable_ref; zero and the poison value stay poisoned. */
  function Ref(n: nat): nat { if n == 0 || n == BUGGED then BUGGED else n + 1 }

  function Unref(n: nat): nat { if n == 0 || n == BUGGED then BUGGED else n - 1 }

  /** uacpi_shareable_unref_and_delete_if_last: the last reference frees the handler. */
  function Release<N(==)>(l: Links<N>, h: nat): Links<N>
    requires h in l.refs
  {
    if l.refs[h] == 1 then l.(regions := l.regions - {h}, refs := l.refs - {h})
    else l.(refs := l.refs[h := Unref(l.refs[h])])
  }

  // ----- links -----

  function Without1<N(==)>(s: seq<N>, x: N): seq<N> {
    if s == [] then [] else if s[0] == x then s[1..] else [s[0]] + Without1(s[1..], x)
  }

  lemma {:induction false} Without1Props<N>(s: seq<N>, x: N)
    requires NoDup(s)
    ensures NoDup(Without1(s, x)) && x !in Without1(s, x)
    ensures forall y :: y in Without1(s, x) ==> y in s && y != x
    ensures forall y :: y in s && y != x ==> y in Without1(s, x)
    ensures |Without1(s, x)| == |s| - (if x in s then 1 else 0)
  {
    if s != [] {
      Without1Props(s[1..], x);
      assert s == [s[0]] + s[1..];
      assert s[0] !in s[1..];
      if s[0] != x {
        assert s[0] !in Without1(s[1..], x);
        assert forall i :: 0 < i < |Without1(s, x)| ==> Without1(s, x)[i] == Without1(s[1..], x)[i - 1];
      }
    }
  }

  /** region_install_handler: links a region at the head of the handler's list. */
  function Attach<N>(l: Links<N>, r: N, h: nat): Links<N>
    requires h in l.regions && h in l.refs
  {
    l.(regions := l.regions[h := [r] + l.regions[h]], refs := l.refs[h := Ref(l.refs[h])], attached := l.attached[r := h])
  }

  /** uacpi_opregion_uninstall_handler: unlinks a region from its handler, if it has one. */
  function Detach<N(==)>(l: Links<N>, r: N): Links<N>
    requires r in l.attached ==> l.attached[r] in l.regions && l.attached[r] in l.refs
  {
    if r !in l.attached then l
    else
      var h := l.attached[r];
      Release(l.(regions := l.regions[h := Without1(l.regions[h], r)], attached := l.attached - {r}), h)
  }

  /** A handler's list holds exactly the regions attached to it, once each; its count is one more while it is live. */
  ghost predicate HandlerOk<N>(l: Links<N>, live: set<nat>, h: nat)
    requires h in l.regions
  {
    && NoDup(l.regions[h])
    && (forall r :: r in l.regions[h] ==> r in l.attached && l.attached[r] == h)
    && (forall r :: r in l.attached && l.attached[r] == h ==> r in l.regions[h])
    && h in l.refs && l.refs[h] == (if h in live then 1 else 0) + |l.regions[h]|
  }

  /** `bound` keeps reference counts below the poison value. */
  ghost predicate LinksOk<N>(l: Links<N>, live: set<nat>, nodes: set<N>) {
    && l.attached.Keys <= nodes && |nodes| < BUGGED - 1
    && live <= l.regions.Keys
    && (forall r :: r in l.attached ==> l.attached[r] in live)
    && (forall h {:trigger HandlerOk(l, live, h)} :: h in l.regions ==> HandlerOk(l, live, h))
  }

  lemma {:induction false} NoDupCard<N>(s: seq<N>, all: set<N>)
    requires NoDup(s) && forall x :: x in s ==> x in all
    ensures |s| <= |all|
  {
    if s != [] {
      var rest := s[1..];
      assert forall x :: x in rest ==> x in all - {s[0]};
      NoDupCard(rest, all - {s[0]});
      assert all == (all - {s[0]}) + {s[0]};
    }
  }

  lemma DetachOk<N>(l: Links<N>, live: set<nat>, nodes: set<N>, r: N)
    requires LinksOk(l, live, nodes)
    ensures r in l.attached ==> HandlerOk(l, live, l.attached[r])
    ensures LinksOk(Detach(l, r), live, nodes) && Detach(l, r).attached == l.attached - {r}
    ensures Detach(l, r).regions.Keys == l.regions.Keys
  {
    if r in l.attached {
      var h := l.attached[r];
      assert HandlerOk(l, live, h);
      var m := Detach(l, r);
      Without1Props(l.regions[h], r);
      NoDupCard(l.regions[h], nodes);
      forall g | g in m.regions ensures HandlerOk(m, live, g) {
        assert HandlerOk(l, live, g);
      }
    }
  }

  lemma AttachOk<N>(l: Links<N>, live: set<nat>, nodes: set<N>, r: N, h: nat)
    requires LinksOk(l, live, nodes) && r !in l.attached && r in nodes && h in live
    ensures HandlerOk(l, live, h)
    ensures LinksOk(Attach(l, r, h), live, nodes) && Attach(l, r, h).attached == l.attached[r := h]
    ensures Attach(l, r, h).regions.Keys == l.regions.Keys
  {
    assert HandlerOk(l, live, h);
    NoDupCard(l.regions[h], nodes);
    var m := Attach(l, r, h);
    forall g | g in m.regions ensures HandlerOk(m, live, g) {
      assert HandlerOk(l, live, g);
    }
  }

  // ----- handlers of a device, nearest handlers -----

  /** find_handler: the first handler of this space in a list. */
  function FindHandler(space: map<nat, nat>, ids: seq<nat>, sp: nat): (r: Option<nat>)
    ensures r.Some? ==> r.value in ids && r.value in space && space[r.value] == sp
    ensures r.None? ==> forall i :: 0 <= i < |ids| && ids[i] in space ==> space[ids[i]] != sp
  {
    if ids == [] then None
    else if ids[0] in space && space[ids[0]] == sp then Some(ids[0])
    else FindHandler(space, ids[1..], sp)
  }

  /** A node's own handler for a space, if it is a device that has one. */
  function Own<N(==)>(c: Topology<N>, n: N, sp: nat): Option<nat> {
    if n in c.lists then FindHandler(c.space, c.lists[n], sp) else None
  }

  /** The handler for a space at `n` or at the nearest ancestor that has one. */
  ghost function Nearest<N>(t: Shape<N>, c: Topology<N>, n: N, sp: nat): Option<nat>
    requires WellFormed(t) && n in t.kids
    decreases t.rank[n]
  {
    if Own(c, n, sp).Some? || n == t.root then Own(c, n, sp)
    else
      assert ParentOk(t, n) && KidsOk(t, t.parent[n]) && t.kids[t.parent[n]][IndexIn(t.kids[t.parent[n]], n)] == n;
      Nearest(t, c, t.parent[n], sp)
  }

  /** Climbing from `r` reaches a node of `ns` without passing a node that has its own handler. */
  ghost predicate Hangs<N>(t: Shape<N>, c: Topology<N>, sp: nat, ns: seq<N>, r: N)
    requires WellFormed(t) && r in t.kids
    decreases t.rank[r]
  {
    if r in ns then true
    else if r == t.root then false
    else
      assert ParentOk(t, r) && KidsOk(t, t.parent[r]) && t.kids[t.parent[r]][IndexIn(t.kids[t.parent[r]], r)] == r;
      Own(c, t.parent[r], sp).None? && Hangs(t, c, sp, ns, t.parent[r])
  }

  /** The callback of the walks: do_install_or_uninstall_handler. */
  function Visit<N(==)>(c: Topology<N>, h: nat, sp: nat, install: bool, l: Links<N>, n: N): (Decision, Links<N>) {
    if n in c.kind && c.kind[n].Region? then
      if c.kind[n].space != sp then (Continue, l)
      else if install then
        var m := if n in l.attached && l.attached[n] in l.regions && l.attached[n] in l.refs then Detach(l, n) else l;
        (Continue, if h in m.regions && h in m.refs then Attach(m, n, h) else m)
      else if n in l.attached && l.attached[n] == h && h in l.regions && h in l.refs then (Continue, Detach(l, n))
      else (Continue, l)
    else if Own(c, n, sp).Some? then (NextPeer, l)
    else (Continue, l)
  }

  function Visitor<N(==)>(c: Topology<N>, h: nat, sp: nat, install: bool): (Links<N>, N) -> (Decision, Links<N>) {
    (l: Links<N>, n: N) => Visit(c, h, sp, install, l, n)
  }

  lemma Climb<N>(t: Shape<N>, r: N)
    requires WellFormed(t) && r in t.kids && r != t.root
    ensures r in t.parent && t.parent[r] in t.kids && t.rank[t.parent[r]] < t.rank[r] && r in t.kids[t.parent[r]]
  {
    assert ParentOk(t, r) && KidsOk(t, t.parent[r]) && t.kids[t.parent[r]][IndexIn(t.kids[t.parent[r]], r)] == r;
  }

  lemma {:induction false} HangsCons<N>(t: Shape<N>, c: Topology<N>, sp: nat, a: seq<N>, b: seq<N>, r: N)
    requires WellFormed(t) && r in t.kids
    ensures Hangs(t, c, sp, a + b, r) <==> Hangs(t, c, sp, a, r) || Hangs(t, c, sp, b, r)
    decreases t.rank[r]
  {
    if r != t.root {
      Climb(t, r);
      HangsCons(t, c, sp, a, b, t.parent[r]);
    }
  }

  /** What hangs from a node is the node and, unless it has its own handler, what hangs from its children. */
  lemma {:induction false} HangsKids<N>(t: Shape<N>, c: Topology<N>, sp: nat, n: N, r: N)
    requires WellFormed(t) && r in t.kids && n in t.kids
    ensures Hangs(t, c, sp, [n], r) <==> r == n || (Own(c, n, sp).None? && Hangs(t, c, sp, t.kids[n], r))
    ensures r == n ==> !Hangs(t, c, sp, t.kids[n], r)
    decreases t.rank[r]
  {
    assert KidsOk(t, n);
    if r != t.root {
      Climb(t, r);
      HangsKids(t, c, sp, n, t.parent[r]);
    }
    if Hangs(t, c, sp, t.kids[n], r) {
      HangsDeeper(t, c, sp, n, r);
    }
  }

  lemma {:induction false} HangsDeeper<N>(t: Shape<N>, c: Topology<N>, sp: nat, n: N, r: N)
    requires WellFormed(t) && r in t.kids && n in t.kids && Hangs(t, c, sp, t.kids[n], r)
    ensures t.rank[r] > t.rank[n]
    decreases t.rank[r]
  {
    assert KidsOk(t, n);
    if r !in t.kids[n] {
      Climb(t, r);
      HangsDeeper(t, c, sp, n, t.parent[r]);
    }
  }

  // ----- what a walk does -----

  function At<N(==)>(l: Links<N>, r: N): Option<nat> { if r in l.attached then Some(l.attached[r]) else None }

  predicate Targeted<N(==)>(c: Topology<N>, sp: nat, r: N) { r in c.kind && c.kind[r] == Region(sp) }

  /** The handler of a region that the walk calls back on. */
  function Outcome(h: nat, install: bool, was: Option<nat>): Option<nat> {
    if install then Some(h) else if was == Some(h) then None else was
  }

  /** From `l` to `m`, exactly the targeted regions hanging from `ns` have been called back on. */
  ghost predicate Effect<N>(
    t: Shape<N>, c: Topology<N>, h: nat, sp: nat, install: bool, ns: seq<N>, l: Links<N>, m: Links<N>, r: N)
    requires WellFormed(t) && r in t.kids
  {
    At(m, r) == if Targeted(c, sp, r) && Hangs(t, c, sp, ns, r) then Outcome(h, install, At(l, r)) else At(l, r)
  }

  /** What one callback must do: keep the links in order and change at most the region it is called on. */
  ghost predicate CalledBack<N>(
    t: Shape<N>, c: Topology<N>, live: set<nat>, h: nat, sp: nat, install: bool, l: Links<N>, n: N, d: Decision, m: Links<N>)
  {
    && LinksOk(m, live, t.kids.Keys) && m.regions.Keys == l.regions.Keys && d != Stop
    && (d == Continue <==> Own(c, n, sp).None?)
    && (forall r :: r in t.kids ==> At(m, r) == if r == n && Targeted(c, sp, n) then Outcome(h, install, At(l, r)) else At(l, r))
  }

  /** Regions are not devices. */
  ghost predicate KindsOk<N>(c: Topology<N>) {
    forall n :: n in c.lists ==> n in c.kind && c.kind[n] == Device
  }

  lemma VisitEffect<N>(
    t: Shape<N>, c: Topology<N>, live: set<nat>, h: nat, sp: nat, install: bool, l: Links<N>, n: N)
    requires WellFormed(t) && n in t.kids && LinksOk(l, live, t.kids.Keys) && h in live && KindsOk(c)
    ensures var (d, m) := Visit(c, h, sp, install, l, n);
            CalledBack(t, c, live, h, sp, install, l, n, d, m)
  {
    if Targeted(c, sp, n) {
      DetachOk(l, live, t.kids.Keys, n);
      assert HandlerOk(l, live, h);
      if install {
        VisitInstall(t, c, live, h, sp, l, n);
      }
    }
  }

  lemma VisitInstall<N>(t: Shape<N>, c: Topology<N>, live: set<nat>, h: nat, sp: nat, l: Links<N>, n: N)
    requires n in t.kids && LinksOk(l, live, t.kids.Keys) && h in live && KindsOk(c) && Targeted(c, sp, n)
    ensures var (d, m) := Visit(c, h, sp, true, l, n);
            CalledBack(t, c, live, h, sp, true, l, n, d, m)
  {
    DetachOk(l, live, t.kids.Keys, n);
    assert HandlerOk(l, live, h);
    AttachOk(Detach(l, n), live, t.kids.Keys, n, h);
  }

  lemma VisitorIsCallback<N>(t: Shape<N>, c: Topology<N>, live: set<nat>, h: nat, sp: nat, install: bool)
    requires WellFormed(t) && h in live && KindsOk(c)
    ensures forall l: Links<N>, n: N {:trigger CalledBack(t, c, live, h, sp, install, l, n, Visitor(c, h, sp, install)(l, n).0, Visitor(c, h, sp, install)(l, n).1)} ::
      n in t.kids && LinksOk(l, live, t.kids.Keys) ==>
      CalledBack(t, c, live, h, sp, install, l, n, Visitor(c, h, sp, install)(l, n).0, Visitor(c, h, sp, install)(l, n).1)
  {
    forall l: Links<N>, n: N | n in t.kids && LinksOk(l, live, t.kids.Keys)
      ensures CalledBack(t, c, live, h, sp, install, l, n, Visitor(c, h, sp, install)(l, n).0, Visitor(c, h, sp, install)(l, n).1)
    {
      VisitEffect(t, c, live, h, sp, install, l, n);
    }
  }

  ghost predicate Effects<N>(
    t: Shape<N>, c: Topology<N>, h: nat, sp: nat, install: bool, ns: seq<N>, l: Links<N>, m: Links<N>)
    requires WellFormed(t)
  {
    forall r :: r in t.kids ==> Effect(t, c, h, sp, install, ns, l, m, r)
  }

  /** One callback, then the walk below it if it said so. */
  lemma EffectsOne<N>(
    t: Shape<N>, c: Topology<N>, h: nat, sp: nat, install: bool, n: N, l: Links<N>, m: Links<N>, below: Links<N>, descend: bool)
    requires WellFormed(t) && n in t.kids
    requires forall r :: r in t.kids ==> At(m, r) == if r == n && Targeted(c, sp, n) then Outcome(h, install, At(l, r)) else At(l, r)
    requires descend ==> Own(c, n, sp).None? && Effects(t, c, h, sp, install, t.kids[n], m, below)
    requires !descend ==> below == m && (Own(c, n, sp).Some? || t.kids[n] == [])
    ensures Effects(t, c, h, sp, install, [n], l, below)
  {
    forall r | r in t.kids ensures Effect(t, c, h, sp, install, [n], l, below, r) {
      HangsKids(t, c, sp, n, r);
      if t.kids[n] == [] {
        HangsNothing(t, c, sp, r);
      }
      if descend {
        assert Effect(t, c, h, sp, install, t.kids[n], m, below, r);
      }
    }
  }

  lemma EffectsThen<N>(
    t: Shape<N>, c: Topology<N>, h: nat, sp: nat, install: bool, a: seq<N>, b: seq<N>, l: Links<N>, m: Links<N>, f: Links<N>)
    requires WellFormed(t) && Effects(t, c, h, sp, install, a, l, m) && Effects(t, c, h, sp, install, b, m, f)
    ensures Effects(t, c, h, sp, install, a + b, l, f)
  {
    forall r | r in t.kids ensures Effect(t, c, h, sp, install, a + b, l, f, r) {
      HangsCons(t, c, sp, a, b, r);
      assert Effect(t, c, h, sp, install, a, l, m, r) && Effect(t, c, h, sp, install, b, m, f, r);
    }
  }

  /** A stretch of a walk over `ns` that took the links from `l` to `w.state`. */
  ghost predicate Walked<N>(
    t: Shape<N>, c: Topology<N>, live: set<nat>, h: nat, sp: nat, install: bool, ns: seq<N>, l: Links<N>, w: Walk<N, Links<N>>)
    requires WellFormed(t)
  {
    && !w.stopped && LinksOk(w.state, live, t.kids.Keys) && w.state.regions.Keys == l.regions.Keys
    && Effects(t, c, h, sp, install, ns, l, w.state)
  }

  lemma {:induction false} WalkNode<N>(
    t: Shape<N>, c: Topology<N>, live: set<nat>, h: nat, sp: nat, install: bool,
    f: (Links<N>, N) -> (Decision, Links<N>), n: N, rank: nat, l: Links<N>)
    requires WellFormed(t) && n in t.kids && t.rank[n] == rank && LinksOk(l, live, t.kids.Keys)
    requires forall s: Links<N>, k: N {:trigger CalledBack(t, c, live, h, sp, install, s, k, f(s, k).0, f(s, k).1)} ::
      k in t.kids && LinksOk(s, live, t.kids.Keys) ==>
      CalledBack(t, c, live, h, sp, install, s, k, f(s, k).0, f(s, k).1)
    ensures Walked(t, c, live, h, sp, install, [n], l, NodeWalk(t, f, n, rank, l))
    decreases t.bound + 1 - rank, 0, 1
  {
    assert CalledBack(t, c, live, h, sp, install, l, n, f(l, n).0, f(l, n).1);
    if f(l, n).0 == Continue && t.kids[n] != [] {
      WalkDown(t, c, live, h, sp, install, f, n, rank, l);
    } else {
      WalkedLeaf(t, c, live, h, sp, install, n, l, f(l, n).0, f(l, n).1);
    }
  }

  lemma {:induction false} WalkDown<N>(
    t: Shape<N>, c: Topology<N>, live: set<nat>, h: nat, sp: nat, install: bool,
    f: (Links<N>, N) -> (Decision, Links<N>), n: N, rank: nat, l: Links<N>)
    requires WellFormed(t) && n in t.kids && t.rank[n] == rank
    requires f(l, n).0 == Continue && t.kids[n] != [] && CalledBack(t, c, live, h, sp, install, l, n, f(l, n).0, f(l, n).1)
    requires forall s: Links<N>, k: N {:trigger CalledBack(t, c, live, h, sp, install, s, k, f(s, k).0, f(s, k).1)} ::
      k in t.kids && LinksOk(s, live, t.kids.Keys) ==>
      CalledBack(t, c, live, h, sp, install, s, k, f(s, k).0, f(s, k).1)
    ensures Walked(t, c, live, h, sp, install, [n], l, NodeWalk(t, f, n, rank, l))
    decreases t.bound + 1 - rank, 0, 0
  {
    KidsAllAt(t, n);
    var m := f(l, n).1;
    WalkEffect(t, c, live, h, sp, install, f, t.kids[n], rank + 1, m);
    WalkedNode(t, c, live, h, sp, install, n, l, Continue, m, PreOrder(t, f, t.kids[n], rank + 1, m));
  }

  lemma WalkedNode<N>(
    t: Shape<N>, c: Topology<N>, live: set<nat>, h: nat, sp: nat, install: bool, n: N, l: Links<N>,
    d: Decision, m: Links<N>, below: Walk<N, Links<N>>)
    requires WellFormed(t) && n in t.kids && CalledBack(t, c, live, h, sp, install, l, n, d, m)
    requires d == Continue && Walked(t, c, live, h, sp, install, t.kids[n], m, below)
    ensures Walked(t, c, live, h, sp, install, [n], l, below.(trace := [n] + below.trace))
  {
    EffectsOne(t, c, h, sp, install, n, l, m, below.state, true);
  }

  lemma WalkedLeaf<N>(
    t: Shape<N>, c: Topology<N>, live: set<nat>, h: nat, sp: nat, install: bool, n: N, l: Links<N>, d: Decision, m: Links<N>)
    requires WellFormed(t) && n in t.kids && CalledBack(t, c, live, h, sp, install, l, n, d, m)
    requires d != Continue || t.kids[n] == []
    ensures Walked(t, c, live, h, sp, install, [n], l, Walk([n], m, false))
  {
    EffectsOne(t, c, h, sp, install, n, l, m, m, false);
  }

  /** A whole walk calls back on exactly the targeted regions that hang from where it starts. */
  lemma {:induction false} WalkEffect<N>(
    t: Shape<N>, c: Topology<N>, live: set<nat>, h: nat, sp: nat, install: bool,
    f: (Links<N>, N) -> (Decision, Links<N>), ns: seq<N>, rank: nat, l: Links<N>)
    requires WellFormed(t) && AllAt(t, ns, rank) && LinksOk(l, live, t.kids.Keys)
    requires forall s: Links<N>, k: N {:trigger CalledBack(t, c, live, h, sp, install, s, k, f(s, k).0, f(s, k).1)} ::
      k in t.kids && LinksOk(s, live, t.kids.Keys) ==>
      CalledBack(t, c, live, h, sp, install, s, k, f(s, k).0, f(s, k).1)
    ensures Walked(t, c, live, h, sp, install, ns, l, PreOrder(t, f, ns, rank, l))
    decreases t.bound + 1 - rank, |ns|
  {
    if ns == [] {
      EffectsNone(t, c, h, sp, install, l);
    } else {
      WalkNode(t, c, live, h, sp, install, f, ns[0], rank, l);
      var a := NodeWalk(t, f, ns[0], rank, l);
      WalkEffect(t, c, live, h, sp, install, f, ns[1..], rank, a.state);
      PreOrderCons(t, f, ns, rank, l);
      WalkedThen(t, c, live, h, sp, install, ns, l, a, PreOrder(t, f, ns[1..], rank, a.state));
    }
  }

  lemma EffectsNone<N>(t: Shape<N>, c: Topology<N>, h: nat, sp: nat, install: bool, l: Links<N>)
    requires WellFormed(t)
    ensures Effects(t, c, h, sp, install, [], l, l)
  {
    forall r | r in t.kids ensures Effect(t, c, h, sp, install, [], l, l, r) { HangsNothing(t, c, sp, r); }
  }

  lemma WalkedThen<N>(
    t: Shape<N>, c: Topology<N>, live: set<nat>, h: nat, sp: nat, install: bool, ns: seq<N>, l: Links<N>,
    a: Walk<N, Links<N>>, b: Walk<N, Links<N>>)
    requires WellFormed(t) && ns != []
    requires Walked(t, c, live, h, sp, install, [ns[0]], l, a) && Walked(t, c, live, h, sp, install, ns[1..], a.state, b)
    ensures Walked(t, c, live, h, sp, install, ns, l, Join(a, b))
  {
    EffectsThen(t, c, h, sp, install, [ns[0]], ns[1..], l, a.state, b.state);
    assert ns == [ns[0]] + ns[1..];
  }

  lemma {:induction false} HangsNothing<N>(t: Shape<N>, c: Topology<N>, sp: nat, r: N)
    requires WellFormed(t) && r in t.kids
    ensures !Hangs(t, c, sp, [], r)
    decreases t.rank[r]
  {
    if r != t.root {
      Climb(t, r);
      HangsNothing(t, c, sp, t.parent[r]);
    }
  }

  /** The walk with the callback of handler installation and removal. */
  lemma VisitorWalk<N>(
    t: Shape<N>, c: Topology<N>, live: set<nat>, h: nat, sp: nat, install: bool, ns: seq<N>, rank: nat, l: Links<N>)
    requires WellFormed(t) && AllAt(t, ns, rank) && LinksOk(l, live, t.kids.Keys) && h in live && KindsOk(c)
    ensures Walked(t, c, live, h, sp, install, ns, l, PreOrder(t, Visitor(c, h, sp, install), ns, rank, l))
  {
    VisitorIsCallback(t, c, live, h, sp, install);
    WalkEffect(t, c, live, h, sp, install, Visitor(c, h, sp, install), ns, rank, l);
  }
}
