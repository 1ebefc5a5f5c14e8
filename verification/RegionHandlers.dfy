/**
  What every reachable state of the address space handlers keeps: a region is linked to no
  handler or to the nearest one above it for its space. The steps are handler installation
  and removal, creation and removal of a region, and the growth of the namespace.
 */
module RegionHandlers {
  import opened Prelude
  import opened TreeShape
  import opened RegionLinks

  /** The handlers that some device lists. */
  ghost function Live<N>(c: Topology<N>): set<nat> {
    set d, i | d in c.lists && 0 <= i < |c.lists[d]| :: c.lists[d][i]
  }

  /** A device's handlers are known and serve different spaces. */
  ghost predicate ListOk<N>(c: Topology<N>, d: N)
    requires d in c.lists
  {
    && (forall i :: 0 <= i < |c.lists[d]| ==> c.lists[d][i] in c.space)
    && (forall i, j :: 0 <= i < j < |c.lists[d]| ==> c.space[c.lists[d][i]] != c.space[c.lists[d][j]])
  }

  ghost predicate TopologyOk<N>(t: Shape<N>, c: Topology<N>) {
    && KindsOk(c) && c.lists.Keys <= t.kids.Keys
    && (forall d {:trigger ListOk(c, d)} :: d in c.lists ==> ListOk(c, d))
    && (forall d, e, i, j ::
          d in c.lists && e in c.lists && 0 <= i < |c.lists[d]| && 0 <= j < |c.lists[e]| && c.lists[d][i] == c.lists[e][j]
          ==> d == e)
  }

  /** A linked region is linked to the nearest handler above it for its space. */
  ghost predicate LinkOk<N>(t: Shape<N>, c: Topology<N>, l: Links<N>, r: N)
    requires WellFormed(t) && r in l.attached
  {
    && r in t.parent && r in c.kind && c.kind[r].Region?
    && (assert ParentOk(t, r); Nearest(t, c, t.parent[r], c.kind[r].space) == Some(l.attached[r]))
  }

  ghost predicate Inv<N>(t: Shape<N>, c: Topology<N>, l: Links<N>) {
    && WellFormed(t) && TopologyOk(t, c) && LinksOk(l, Live(c), t.kids.Keys)
    && (forall r {:trigger LinkOk(t, c, l, r)} :: r in l.attached ==> LinkOk(t, c, l, r))
  }

  // ----- nearest handlers -----

  lemma OwnIsListed<N>(c: Topology<N>, n: N, sp: nat)
    requires Own(c, n, sp).Some?
    ensures n in c.lists && Own(c, n, sp).value in c.lists[n]
    ensures Own(c, n, sp).value in c.space && c.space[Own(c, n, sp).value] == sp
  {
  }

  lemma {:induction false} NearestSpace<N>(t: Shape<N>, c: Topology<N>, n: N, sp: nat)
    requires WellFormed(t) && n in t.kids && Nearest(t, c, n, sp).Some?
    ensures Nearest(t, c, n, sp).value in Live(c)
    ensures Nearest(t, c, n, sp).value in c.space && c.space[Nearest(t, c, n, sp).value] == sp
    decreases t.rank[n]
  {
    if Own(c, n, sp).Some? {
      OwnIsListed(c, n, sp);
    } else {
      Climb(t, n);
      NearestSpace(t, c, t.parent[n], sp);
    }
  }

  /** Only `d` has `h` as its own handler. */
  ghost predicate OnlyAt<N>(t: Shape<N>, c: Topology<N>, d: N, sp: nat, h: nat) {
    && d in t.kids && Own(c, d, sp) == Some(h)
    && forall n :: n in t.kids && Own(c, n, sp) == Some(h) ==> n == d
  }

  lemma ListedOnlyAt<N>(t: Shape<N>, c: Topology<N>, d: N, sp: nat)
    requires TopologyOk(t, c) && Own(c, d, sp).Some?
    ensures OnlyAt(t, c, d, sp, Own(c, d, sp).value)
  {
    var h := Own(c, d, sp).value;
    OwnIsListed(c, d, sp);
    forall n | n in t.kids && Own(c, n, sp) == Some(h) ensures n == d {
      OwnIsListed(c, n, sp);
    }
  }

  /** The walk below a device reaches exactly the regions whose nearest handler is the device's. */
  lemma {:induction false} HangsIsNearest<N>(t: Shape<N>, c: Topology<N>, d: N, sp: nat, h: nat, r: N)
    requires WellFormed(t) && r in t.parent && OnlyAt(t, c, d, sp, h)
    ensures t.parent[r] in t.kids && r in t.kids
    ensures Hangs(t, c, sp, t.kids[d], r) <==> Nearest(t, c, t.parent[r], sp) == Some(h)
    decreases t.rank[r]
  {
    var p := t.parent[r];
    Climb(t, r);
    assert KidsOk(t, d);
    if r !in t.kids[d] && Own(c, p, sp).None? {
      if p == t.root {
        RootHangsFromNothing(t, c, sp, d);
      } else {
        HangsIsNearest(t, c, d, sp, h, p);
      }
    }
  }

  lemma RootHangsFromNothing<N>(t: Shape<N>, c: Topology<N>, sp: nat, d: N)
    requires WellFormed(t) && d in t.kids
    ensures !Hangs(t, c, sp, t.kids[d], t.root)
  {
    assert KidsOk(t, d);
  }

  /** `e` is `c` with one more handler, `h` for `sp` at `d`, where there was none. */
  ghost predicate Adds<N>(t: Shape<N>, c: Topology<N>, e: Topology<N>, d: N, sp: nat, h: nat) {
    && Own(e, d, sp) == Some(h) && Own(c, d, sp).None?
    && (forall n, s: nat {:trigger Own(e, n, s)} {:trigger Own(c, n, s)} ::
         n in t.kids && (n != d || s != sp) ==> Own(e, n, s) == Own(c, n, s))
  }

  lemma {:induction false} NearestAdds<N>(t: Shape<N>, c: Topology<N>, e: Topology<N>, d: N, sp: nat, h: nat, n: N, s: nat)
    requires WellFormed(t) && n in t.kids && Adds(t, c, e, d, sp, h)
    ensures Nearest(t, e, n, s) == Nearest(t, c, n, s) || (s == sp && Nearest(t, e, n, s) == Some(h))
    decreases t.rank[n]
  {
    if Own(e, n, s) == Own(c, n, s) && Own(e, n, s).None? && n != t.root {
      Climb(t, n);
      NearestAdds(t, c, e, d, sp, h, t.parent[n], s);
    }
  }

  // ----- handler installation -----

  function WithHandler<N(==)>(c: Topology<N>, d: N, sp: nat, h: nat): Topology<N>
    requires d in c.lists
  {
    c.(lists := c.lists[d := [h] + c.lists[d]], space := c.space[h := sp])
  }

  function WithFreshLinks<N(==)>(l: Links<N>, h: nat): Links<N> {
    l.(regions := l.regions[h := []], refs := l.refs[h := 1])
  }

  lemma {:induction false} FindSame(a: map<nat, nat>, b: map<nat, nat>, ids: seq<nat>, sp: nat)
    requires forall i :: 0 <= i < |ids| ==> (ids[i] in a <==> ids[i] in b) && (ids[i] in a ==> a[ids[i]] == b[ids[i]])
    ensures FindHandler(a, ids, sp) == FindHandler(b, ids, sp)
  {
    if ids != [] {
      assert ids[0] in a <==> ids[0] in b;
      FindSame(a, b, ids[1..], sp);
    }
  }

  lemma WithHandlerAdds<N>(t: Shape<N>, c: Topology<N>, d: N, sp: nat, h: nat)
    requires TopologyOk(t, c) && d in c.lists && h !in c.space && Own(c, d, sp).None?
    ensures Adds(t, c, WithHandler(c, d, sp, h), d, sp, h)
  {
    var e := WithHandler(c, d, sp, h);
    forall n, s: nat | n in t.kids && (n != d || s != sp) ensures Own(e, n, s) == Own(c, n, s) {
      if n in c.lists {
        assert ListOk(c, n);
        FindSame(c.space, e.space, c.lists[n], s);
        if n == d {
          assert e.lists[d][1..] == c.lists[d];
        }
      }
    }
  }

  lemma WithHandlerTopology<N>(t: Shape<N>, c: Topology<N>, d: N, sp: nat, h: nat)
    requires TopologyOk(t, c) && d in c.lists && h !in c.space && Own(c, d, sp).None?
    ensures TopologyOk(t, WithHandler(c, d, sp, h))
  {
    var e := WithHandler(c, d, sp, h);
    forall n | n in e.lists ensures ListOk(e, n) {
      assert ListOk(c, n);
    }
    forall n, i | n in c.lists && 0 <= i < |c.lists[n]| ensures c.lists[n][i] != h { assert ListOk(c, n); }
  }

  lemma WithHandlerLive<N>(t: Shape<N>, c: Topology<N>, d: N, sp: nat, h: nat)
    requires TopologyOk(t, c) && d in c.lists && h !in c.space
    ensures Live(WithHandler(c, d, sp, h)) == Live(c) + {h} && h !in Live(c)
  {
    var e := WithHandler(c, d, sp, h);
    forall n, i | n in c.lists && 0 <= i < |c.lists[n]| ensures c.lists[n][i] != h && c.lists[n][i] in Live(e) {
      assert ListOk(c, n);
      InLive(e, n, if n == d then i + 1 else i);
    }
    InLive(e, d, 0);
  }

  lemma InLive<N>(c: Topology<N>, d: N, i: nat)
    requires d in c.lists && i < |c.lists[d]|
    ensures c.lists[d][i] in Live(c)
  {
  }

  lemma FreshLinksOk<N>(l: Links<N>, live: set<nat>, nodes: set<N>, h: nat)
    requires LinksOk(l, live, nodes) && h !in live
    ensures LinksOk(WithFreshLinks(l, h), live + {h}, nodes)
  {
    var m := WithFreshLinks(l, h);
    forall g | g in m.regions ensures HandlerOk(m, live + {h}, g) {
      if g != h { assert HandlerOk(l, live, g); }
    }
  }

  /** A region below an installation is linked to the new handler if that is now the nearest. */
  ghost predicate Relinked<N>(t: Shape<N>, e: Topology<N>, sp: nat, h: nat, l: Links<N>, m: Links<N>, r: N)
    requires WellFormed(t) && r in t.parent
  {
    assert ParentOk(t, r);
    At(m, r) == if Targeted(e, sp, r) && Nearest(t, e, t.parent[r], sp) == Some(h) then Some(h) else At(l, r)
  }

  lemma BeforeInstallWalk<N>(t: Shape<N>, c: Topology<N>, l: Links<N>, d: N, sp: nat, h: nat)
    requires Inv(t, c, l) && d in c.lists && h !in c.space
    ensures LinksOk(WithFreshLinks(l, h), Live(WithHandler(c, d, sp, h)), t.kids.Keys) && h in Live(WithHandler(c, d, sp, h))
  {
    WithHandlerLive(t, c, d, sp, h);
    FreshLinksOk(l, Live(c), t.kids.Keys, h);
  }

  lemma RootIsLoose<N>(t: Shape<N>, c: Topology<N>, l: Links<N>)
    requires Inv(t, c, l)
    ensures t.root !in l.attached
  {
    assert t.root in l.attached ==> LinkOk(t, c, l, t.root);
  }

  lemma RootStaysLoose<N>(t: Shape<N>, e: Topology<N>, h: nat, sp: nat, install: bool, d: N, l: Links<N>, m: Links<N>)
    requires WellFormed(t) && d in t.kids && t.root !in l.attached && Effects(t, e, h, sp, install, t.kids[d], l, m)
    ensures t.root !in m.attached
  {
    RootHangsFromNothing(t, e, sp, d);
    assert Effect(t, e, h, sp, install, t.kids[d], l, m, t.root);
  }

  lemma WalkRelinks<N>(t: Shape<N>, e: Topology<N>, d: N, sp: nat, h: nat, l: Links<N>, m: Links<N>, r: N)
    requires WellFormed(t) && r in t.parent && OnlyAt(t, e, d, sp, h) && Effects(t, e, h, sp, true, t.kids[d], l, m)
    ensures Relinked(t, e, sp, h, l, m, r)
  {
    HangsIsNearest(t, e, d, sp, h, r);
    assert Effect(t, e, h, sp, true, t.kids[d], l, m, r);
  }

  lemma RelinkedLinkOk<N>(t: Shape<N>, c: Topology<N>, l: Links<N>, e: Topology<N>, d: N, sp: nat, h: nat, m: Links<N>, r: N)
    requires Inv(t, c, l) && Adds(t, c, e, d, sp, h) && e.kind == c.kind && r in m.attached && r in t.parent
    requires Relinked(t, e, sp, h, l, m, r)
    ensures LinkOk(t, e, m, r)
  {
    assert ParentOk(t, r);
    if r in l.attached {
      assert LinkOk(t, c, l, r);
      NearestAdds(t, c, e, d, sp, h, t.parent[r], c.kind[r].space);
    }
  }

  /** If the regions below a new handler are relinked, every link is right again. */
  lemma RelinkedLinksOk<N>(t: Shape<N>, c: Topology<N>, l: Links<N>, e: Topology<N>, d: N, sp: nat, h: nat, l0: Links<N>, m: Links<N>)
    requires Inv(t, c, l) && Adds(t, c, e, d, sp, h) && OnlyAt(t, e, d, sp, h) && e.kind == c.kind
    requires l0.attached == l.attached && m.attached.Keys <= t.kids.Keys && Effects(t, e, h, sp, true, t.kids[d], l0, m)
    ensures forall r :: r in t.parent ==> Relinked(t, e, sp, h, l, m, r)
    ensures forall r {:trigger LinkOk(t, e, m, r)} :: r in m.attached ==> LinkOk(t, e, m, r)
  {
    forall r | r in t.parent ensures Relinked(t, e, sp, h, l, m, r) {
      WalkRelinks(t, e, d, sp, h, l0, m, r);
    }
    RootIsLoose(t, c, l);
    RootStaysLoose(t, e, h, sp, true, d, l0, m);
    forall r | r in m.attached ensures LinkOk(t, e, m, r) {
      RelinkedLinkOk(t, c, l, e, d, sp, h, m, r);
    }
  }

  /**
    uacpi_install_address_space_handler keeps the invariant: once the walk below the device
    has had its effect, exactly the regions whose nearest handler is the new one are linked to it.
   */
  lemma InstallKeepsInv<N>(
    t: Shape<N>, c: Topology<N>, l: Links<N>, d: N, sp: nat, h: nat, e: Topology<N>, l0: Links<N>, m: Links<N>)
    requires Inv(t, c, l) && d in c.lists && h !in c.space && Own(c, d, sp).None?
    requires e == WithHandler(c, d, sp, h) && l0 == WithFreshLinks(l, h)
    requires LinksOk(m, Live(e), t.kids.Keys) && Effects(t, e, h, sp, true, t.kids[d], l0, m)
    ensures Inv(t, e, m)
    ensures forall r :: r in t.parent ==> Relinked(t, e, sp, h, l, m, r)
  {
    WithHandlerTopology(t, c, d, sp, h);
    WithHandlerAdds(t, c, d, sp, h);
    ListedOnlyAt(t, e, d, sp);
    RelinkedLinksOk(t, c, l, e, d, sp, h, l0, m);
  }

  // ----- handler removal -----

  function WithoutHandler<N(==)>(c: Topology<N>, d: N, h: nat): Topology<N>
    requires d in c.lists
  {
    c.(lists := c.lists[d := Without1(c.lists[d], h)], space := c.space - {h})
  }

  lemma {:induction false} FindWithout(space: map<nat, nat>, ids: seq<nat>, sp: nat, h: nat)
    requires NoDup(ids) && h in space
    ensures FindHandler(space - {h}, Without1(ids, h), sp) ==
            if FindHandler(space, ids, sp) == Some(h) then FindHandler(space, Without1(ids, h), sp) else FindHandler(space, ids, sp)
  {
    if ids != [] {
      assert ids == [ids[0]] + ids[1..];
      if ids[0] == h {
        FindSame(space, space - {h}, ids[1..], sp);
      } else {
        FindWithout(space, ids[1..], sp, h);
        assert Without1(ids, h)[1..] == Without1(ids[1..], h);
      }
    }
  }

  lemma WithoutHandlerAdds<N>(t: Shape<N>, c: Topology<N>, d: N, sp: nat, h: nat)
    requires TopologyOk(t, c) && Own(c, d, sp) == Some(h)
    ensures Adds(t, WithoutHandler(c, d, h), c, d, sp, h)
  {
    var e := WithoutHandler(c, d, h);
    OwnIsListed(c, d, sp);
    assert ListOk(c, d);
    FindWithout(c.space, c.lists[d], sp, h);
    Without1Props(c.lists[d], h);
    forall n, s: nat | n in t.kids && (n != d || s != sp) ensures Own(e, n, s) == Own(c, n, s) {
      if n == d {
        FindWithout(c.space, c.lists[d], s, h);
      } else if n in c.lists {
        FindSame(c.space, e.space, c.lists[n], s);
      }
    }
  }

  lemma WithoutHandlerTopology<N>(t: Shape<N>, c: Topology<N>, d: N, sp: nat, h: nat)
    requires TopologyOk(t, c) && Own(c, d, sp) == Some(h)
    ensures TopologyOk(t, WithoutHandler(c, d, h))
  {
    var e := WithoutHandler(c, d, h);
    OwnIsListed(c, d, sp);
    assert ListOk(c, d);
    WithoutOrder(c.lists[d], c.space, h);
    Without1Props(c.lists[d], h);
    forall n | n in e.lists ensures ListOk(e, n) {
      assert ListOk(c, n);
    }
  }

  /** Different spaces stay different when an entry goes. */
  lemma WithoutOrder(ids: seq<nat>, space: map<nat, nat>, h: nat)
    requires forall i :: 0 <= i < |ids| ==> ids[i] in space
    requires forall i, j :: 0 <= i < j < |ids| ==> space[ids[i]] != space[ids[j]]
    ensures var rest := Without1(ids, h);
            && NoDup(ids) && (forall i :: 0 <= i < |rest| ==> rest[i] in space && rest[i] in ids)
            && forall i, j :: 0 <= i < j < |rest| ==> space[rest[i]] != space[rest[j]]
  {
    Without1Props(ids, h);
    var rest := Without1(ids, h);
    forall i, j | 0 <= i < j < |rest| ensures space[rest[i]] != space[rest[j]] {
      assert rest[i] in ids && rest[j] in ids;
    }
  }

  lemma WithoutHandlerLive<N>(t: Shape<N>, c: Topology<N>, d: N, sp: nat, h: nat)
    requires TopologyOk(t, c) && Own(c, d, sp) == Some(h)
    ensures Live(WithoutHandler(c, d, h)) == Live(c) - {h} && h in Live(c)
  {
    var e := WithoutHandler(c, d, h);
    OwnIsListed(c, d, sp);
    assert ListOk(c, d);
    Without1Props(c.lists[d], h);
    forall n, i | n in c.lists && 0 <= i < |c.lists[n]| && c.lists[n][i] != h ensures c.lists[n][i] in Live(e) {
      assert c.lists[n][i] in e.lists[n];
    }
    forall n, i | n in e.lists && 0 <= i < |e.lists[n]| ensures e.lists[n][i] in Live(c) && e.lists[n][i] != h {
      assert e.lists[n][i] in c.lists[n];
    }
  }

  function Unlinked(h: nat, was: Option<nat>): Option<nat> { if was == Some(h) then None else was }

  /** The walk below the device finds every region that is linked to its handler. */
  lemma WalkUnlinks<N>(t: Shape<N>, c: Topology<N>, l: Links<N>, d: N, sp: nat, h: nat, m: Links<N>, r: N)
    requires Inv(t, c, l) && r in t.kids && OnlyAt(t, c, d, sp, h) && Effects(t, c, h, sp, false, t.kids[d], l, m)
    ensures At(m, r) == Unlinked(h, At(l, r))
  {
    assert Effect(t, c, h, sp, false, t.kids[d], l, m, r);
    if At(l, r) == Some(h) {
      assert LinkOk(t, c, l, r);
      Climb(t, r);
      OwnIsListed(c, d, sp);
      NearestSpace(t, c, t.parent[r], c.kind[r].space);
      HangsIsNearest(t, c, d, sp, h, r);
    }
  }

  lemma HasMember<N>(s: seq<N>)
    ensures s == [] || exists x :: x in s
  {
    if s != [] { assert s[0] in s; }
  }

  /** A handler without regions has one reference left, so that giving it up frees the handler. */
  lemma ReleaseFrees<N>(l: Links<N>, live: set<nat>, nodes: set<N>, h: nat)
    requires LinksOk(l, live, nodes) && h in live && forall r :: r in l.attached ==> l.attached[r] != h
    ensures h in l.refs && l.refs[h] == 1 && h in l.regions && l.regions[h] == []
    ensures Release(l, h) == l.(regions := l.regions - {h}, refs := l.refs - {h})
    ensures LinksOk(Release(l, h), live - {h}, nodes)
  {
    assert HandlerOk(l, live, h);
    HasMember(l.regions[h]);
    var m := Release(l, h);
    forall g | g in m.regions ensures HandlerOk(m, live - {h}, g) {
      assert HandlerOk(l, live, g);
    }
  }

  lemma UnlinkedLinkOk<N>(t: Shape<N>, c: Topology<N>, l: Links<N>, d: N, sp: nat, h: nat, m: Links<N>, r: N)
    requires Inv(t, c, l) && Own(c, d, sp) == Some(h) && r in m.attached && At(m, r) == Unlinked(h, At(l, r))
    ensures LinkOk(t, WithoutHandler(c, d, h), m, r)
  {
    assert LinkOk(t, c, l, r);
    assert ParentOk(t, r);
    WithoutHandlerAdds(t, c, d, sp, h);
    NearestAdds(t, WithoutHandler(c, d, h), c, d, sp, h, t.parent[r], c.kind[r].space);
  }

  /**
    uacpi_uninstall_address_space_handler keeps the invariant: once the walk has had its
    effect, exactly the regions of the removed handler are unlinked, it has an empty list and
    a single reference left, and giving that up frees it.
   */
  lemma UninstallKeepsInv<N>(t: Shape<N>, c: Topology<N>, l: Links<N>, d: N, sp: nat, h: nat, m: Links<N>)
    requires Inv(t, c, l) && Own(c, d, sp) == Some(h)
    requires d in t.kids && LinksOk(m, Live(c), t.kids.Keys) && Effects(t, c, h, sp, false, t.kids[d], l, m)
    ensures h in m.regions && m.regions[h] == [] && h in m.refs && m.refs[h] == 1
    ensures h !in Release(m, h).regions && h !in Release(m, h).refs
    ensures Inv(t, WithoutHandler(c, d, h), Release(m, h))
    ensures forall r :: r in t.kids ==> At(Release(m, h), r) == Unlinked(h, At(l, r))
  {
    ListedOnlyAt(t, c, d, sp);
    WithoutHandlerTopology(t, c, d, sp, h);
    WithoutHandlerLive(t, c, d, sp, h);
    forall r | r in t.kids ensures At(m, r) == Unlinked(h, At(l, r)) {
      WalkUnlinks(t, c, l, d, sp, h, m, r);
    }
    forall r | r in m.attached ensures m.attached[r] != h {
      assert At(m, r) == Unlinked(h, At(l, r));
    }
    ReleaseFrees(m, Live(c), t.kids.Keys, h);
    forall r | r in m.attached ensures LinkOk(t, WithoutHandler(c, d, h), Release(m, h), r) {
      UnlinkedLinkOk(t, c, l, d, sp, h, Release(m, h), r);
    }
  }

  // ----- regions -----

  /** The address space is narrowed to a byte before the search. */
  const SPACE_WIDTH: nat := 256

  lemma {:induction false} NearestAgree<N>(t: Shape<N>, u: Shape<N>, c: Topology<N>, e: Topology<N>, n: N, sp: nat)
    requires WellFormed(t) && WellFormed(u) && n in t.kids && t.root == u.root && c.lists == e.lists && c.space == e.space
    requires forall m :: m in t.parent ==> m in u.parent && u.parent[m] == t.parent[m]
    ensures n in u.kids && Nearest(t, c, n, sp) == Nearest(u, e, n, sp)
    decreases t.rank[n]
  {
    if n != t.root {
      assert u.parent[n] == t.parent[n];
      Climb(t, n);
      NearestAgree(t, u, c, e, t.parent[n], sp);
    }
  }

  /** The state after a region of space `sp` has been created on `n` and its handler looked for. */
  function WithRegion<N(==)>(c: Topology<N>, n: N, sp: nat): Topology<N> { c.(kind := c.kind[n := Region(sp)]) }

  function LinkTo<N(==)>(l: Links<N>, n: N, found: Option<nat>): Links<N>
    requires found.Some? ==> found.value in l.regions && found.value in l.refs
  {
    if found.Some? then Attach(l, n, found.value) else l
  }

  lemma CreateLinks<N>(t: Shape<N>, c: Topology<N>, l: Links<N>, n: N, s: nat)
    requires Inv(t, c, l) && n in t.parent && n !in l.attached
    ensures t.parent[n] in t.kids
    ensures var found := Nearest(t, c, t.parent[n], s);
            && (found.Some? ==> found.value in l.regions && found.value in l.refs)
            && LinksOk(LinkTo(l, n, found), Live(c), t.kids.Keys)
            && LinkTo(l, n, found).attached == if found.Some? then l.attached[n := found.value] else l.attached
  {
    assert ParentOk(t, n);
    var found := Nearest(t, c, t.parent[n], s);
    if found.Some? {
      NearestSpace(t, c, t.parent[n], s);
      AttachOk(l, Live(c), t.kids.Keys, n, found.value);
    }
  }

  lemma OldLinksOk<N>(t: Shape<N>, c: Topology<N>, l: Links<N>, n: N, sp: nat, m: Links<N>, r: N)
    requires Inv(t, c, l) && n !in l.attached && r in l.attached && r in m.attached && m.attached[r] == l.attached[r]
    ensures LinkOk(t, WithRegion(c, n, sp), m, r)
  {
    assert LinkOk(t, c, l, r);
    assert ParentOk(t, r);
    NearestAgree(t, t, c, WithRegion(c, n, sp), t.parent[r], c.kind[r].space);
  }

  /** The search finds the nearest handler exactly if the space fits a byte or there is nothing to find. */
  lemma NarrowedSearch<N>(t: Shape<N>, c: Topology<N>, n: N, sp: nat)
    requires WellFormed(t) && n in t.kids
    ensures Nearest(t, c, n, sp % SPACE_WIDTH) == Nearest(t, c, n, sp) <==>
            sp < SPACE_WIDTH || (Nearest(t, c, n, sp % SPACE_WIDTH).None? && Nearest(t, c, n, sp).None?)
  {
    if Nearest(t, c, n, sp).Some? {
      NearestSpace(t, c, n, sp);
    }
    if Nearest(t, c, n, sp % SPACE_WIDTH).Some? {
      NearestSpace(t, c, n, sp % SPACE_WIDTH);
    }
  }

  /** The internal space of DataTableRegion does not fit a byte, so its handler at the root is not found. */
  const TABLE_DATA: nat := 0xDA1A

  const TABLE_TREE := Shape<nat>.Shape(0, map[0 := [1], 1 := []], map[1 := 0], map[0 := 0, 1 := 1], 1)
  const TABLE_TOPOLOGY := Topology(map[0 := Device, 1 := Other], map[0 := [7]], map[7 := TABLE_DATA])
  const TABLE_LINKS := Links<nat>.Links(map[7 := []], map[7 := 1], map[])

  lemma TableTreeWellFormed()
    ensures WellFormed(TABLE_TREE) && TABLE_TREE.kids.Keys == {0, 1} && |{0, 1}| == 2
  {
    assert TABLE_TREE.parent.Keys == {1} == TABLE_TREE.kids.Keys - {0};
  }

  lemma TableLinksOk()
    ensures LinksOk(TABLE_LINKS, {7}, {0, 1})
  {
    assert |{0, 1}| == 2;
    assert HandlerOk(TABLE_LINKS, {7}, 7);
  }

  /** Node 1 lies below a root that serves the space; a region of that space on it finds no handler. */
  lemma TableRegionStaysLoose()
    ensures Inv(TABLE_TREE, TABLE_TOPOLOGY, TABLE_LINKS)
    ensures Nearest(TABLE_TREE, TABLE_TOPOLOGY, 0, TABLE_DATA) == Some(7)
    ensures Nearest(TABLE_TREE, TABLE_TOPOLOGY, 0, TABLE_DATA % SPACE_WIDTH) == None
  {
    TableTreeWellFormed();
    TableLinksOk();
    InLive(TABLE_TOPOLOGY, 0, 0);
    assert Live(TABLE_TOPOLOGY) == {7};
  }

  /**
    uacpi_opregion_find_and_install_handler on a new region: the invariant survives exactly
    if narrowing the space to a byte is harmless, which is when the space fits a byte or no
    handler above serves the narrowed one.
   */
  lemma CreateKeepsInv<N>(t: Shape<N>, c: Topology<N>, l: Links<N>, n: N, sp: nat)
    requires Inv(t, c, l) && n in t.parent && n !in l.attached && n !in c.lists
    ensures t.parent[n] in t.kids
    ensures var found := Nearest(t, c, t.parent[n], sp % SPACE_WIDTH);
            && (found.Some? ==> found.value in l.regions && found.value in l.refs)
            && (Inv(t, WithRegion(c, n, sp), LinkTo(l, n, found)) <==> sp < SPACE_WIDTH || found.None?)
  {
    CreateLinks(t, c, l, n, sp % SPACE_WIDTH);
    var found := Nearest(t, c, t.parent[n], sp % SPACE_WIDTH);
    var e, m := WithRegion(c, n, sp), LinkTo(l, n, found);
    CreateTopology(t, c, n, sp);
    NearestAgree(t, t, c, e, t.parent[n], sp);
    forall r | r in l.attached ensures LinkOk(t, e, m, r) { OldLinksOk(t, c, l, n, sp, m, r); }
    if found.Some? {
      NearestSpace(t, c, t.parent[n], sp % SPACE_WIDTH);
      if sp < SPACE_WIDTH {
        assert LinkOk(t, e, m, n);
      } else if Inv(t, e, m) {
        assert LinkOk(t, e, m, n);
        NearestSpace(t, e, t.parent[n], sp);
      }
    }
  }

  lemma CreateTopology<N>(t: Shape<N>, c: Topology<N>, n: N, sp: nat)
    requires TopologyOk(t, c) && n !in c.lists
    ensures TopologyOk(t, WithRegion(c, n, sp)) && Live(WithRegion(c, n, sp)) == Live(c)
  {
    var e := WithRegion(c, n, sp);
    forall d | d in e.lists ensures ListOk(e, d) { assert ListOk(c, d); }
  }

  /** A node that leaves the namespace, or whose region goes, is unlinked first. */
  lemma DropKeepsInv<N>(t: Shape<N>, c: Topology<N>, l: Links<N>, n: N)
    requires Inv(t, c, l)
    ensures n in l.attached ==> l.attached[n] in l.regions && l.attached[n] in l.refs
    ensures Inv(t, c, Detach(l, n)) && Detach(l, n).attached == l.attached - {n}
    ensures Detach(l, n).regions.Keys == l.regions.Keys
  {
    DetachOk(l, Live(c), t.kids.Keys, n);
    forall r | r in Detach(l, n).attached ensures LinkOk(t, c, Detach(l, n), r) {
      assert LinkOk(t, c, l, r);
    }
  }

  /** A new node changes no handler. */
  lemma GrowKeepsInv<N>(t: Shape<N>, c: Topology<N>, l: Links<N>, p: N, n: N)
    requires Inv(t, c, l) && p in t.kids && n !in t.kids && |t.kids| + 1 < BUGGED - 1
    ensures Inv(WithKid(t, p, n), c, l)
  {
    WithKidWellFormed(t, p, n);
    var u := WithKid(t, p, n);
    assert u.kids.Keys == t.kids.Keys + {n} && |u.kids.Keys| == |t.kids| + 1;
    forall r | r in l.attached ensures LinkOk(u, c, l, r) {
      assert LinkOk(t, c, l, r);
      Climb(t, r);
      NearestAgree(t, u, c, c, t.parent[r], c.kind[r].space);
    }
  }

  /** `n` becomes a device, which can carry handlers but has none yet. */
  function WithDevice<N(==)>(c: Topology<N>, n: N): Topology<N> {
    c.(kind := c.kind[n := Device], lists := c.lists[n := []])
  }

  lemma {:induction false} NearestWithDevice<N>(t: Shape<N>, c: Topology<N>, d: N, n: N, sp: nat)
    requires WellFormed(t) && n in t.kids && d !in c.lists
    ensures Nearest(t, WithDevice(c, d), n, sp) == Nearest(t, c, n, sp)
    decreases t.rank[n]
  {
    if n != t.root {
      Climb(t, n);
      NearestWithDevice(t, c, d, t.parent[n], sp);
    }
  }

  lemma DeviceKeepsInv<N>(t: Shape<N>, c: Topology<N>, l: Links<N>, n: N)
    requires Inv(t, c, l) && n in t.kids && n !in c.lists && n !in l.attached
    ensures Inv(t, WithDevice(c, n), l)
  {
    var e := WithDevice(c, n);
    forall d | d in e.lists ensures ListOk(e, d) {
      if d != n { assert ListOk(c, d); }
    }
    DeviceLive(c, n);
    forall r | r in l.attached ensures LinkOk(t, e, l, r) {
      assert LinkOk(t, c, l, r);
      Climb(t, r);
      NearestWithDevice(t, c, n, t.parent[r], c.kind[r].space);
    }
  }

  lemma DeviceLive<N>(c: Topology<N>, n: N)
    requires n !in c.lists
    ensures Live(WithDevice(c, n)) == Live(c)
  {
    forall h | h in Live(c) ensures h in Live(WithDevice(c, n)) {
      var d, i :| d in c.lists && 0 <= i < |c.lists[d]| && c.lists[d][i] == h;
      InLive(WithDevice(c, n), d, i);
    }
  }

  /** A node without children and handlers leaves, after its region has been unlinked. */
  lemma ShrinkKeepsInv<N>(t: Shape<N>, c: Topology<N>, l: Links<N>, n: N)
    requires Inv(t, c, l) && n in t.parent && n in t.kids && t.kids[n] == [] && n !in c.lists && n !in l.attached
    ensures Inv(Without(t, n), c, l)
  {
    WithoutWellFormed(t, n);
    WithoutParts(t, n);
    var u := Without(t, n);
    forall m | m in Subtree(t, n) ensures m == n { NothingBelowLeaf(t, n, m); }
    assert Subtree(t, n) == {n};
    assert u.kids.Keys == t.kids.Keys - {n};
    assert LinksOk(l, Live(c), u.kids.Keys);
    forall r | r in l.attached ensures LinkOk(u, c, l, r) {
      assert LinkOk(t, c, l, r);
      Climb(t, r);
      Climb(u, r);
      NearestAgree(u, t, c, c, u.parent[r], c.kind[r].space);
    }
  }
}
