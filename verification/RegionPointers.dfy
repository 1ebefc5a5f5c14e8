/**
  The linked list of regions behind each address space handler (opregion.c), as the pointers
  it is made of: linking at the head, the search for the previous link, and unlinking.
 */
module RegionPointers {
  import opened Prelude
  import opened RegionLinks
  import opened RegionHandlers

  class Handler {
    const id: nat
    var regions: Region?
    var references: nat

    constructor (id: nat)
      ensures this.id == id && regions == null && references == 1
    {
      this.id := id;
      regions, references := null, 1;
    }

    /** uacpi_shareable_unref_and_delete_if_last, up to the deletion. */
    method Drop() returns (last: bool)
      modifies this`references
      ensures last == (old(references) == 1) && references == Unref(old(references))
    {
      last := references == 1;
      references := Unref(references);
    }
  }

  class Region {
    var next: Region?
    var handler: Handler?

    constructor ()
      ensures next == null && handler == null
    {
      next, handler := null, null;
    }
  }

  // ----- lists -----

  function First(list: seq<Region>): Region? { if list == [] then null else list[0] }

  ghost predicate NextOk(list: seq<Region>, i: nat)
    requires i < |list|
    reads {list[i]}`next
  {
    list[i].next == if i + 1 < |list| then list[i + 1] else null
  }

  /** The next pointers run through the list from its first entry to null. */
  ghost predicate Chained(list: seq<Region>)
    reads list`next
  {
    forall i {:trigger NextOk(list, i)} :: 0 <= i < |list| ==> NextOk(list, i)
  }

  lemma {:induction false} Without1At<N>(s: seq<N>, x: N, k: nat)
    requires NoDup(s) && k < |s| && s[k] == x
    ensures Without1(s, x) == s[..k] + s[k + 1..]
  {
    if k > 0 {
      assert s[0] != x;
      Without1At(s[1..], x, k - 1);
      assert s[1..][..k - 1] == s[..k][1..];
    }
  }

  function AfterIn(list: seq<Region>, i: nat): Region?
    requires i < |list|
  {
    if i + 1 < |list| then list[i + 1] else null
  }

  /** Skipping entry `k` is what taking it out does to the next pointers. */
  lemma ChainAround(before: seq<Region>, k: nat, list: seq<Region>)
    requires k < |before| && list == before[..k] + before[k + 1..]
    requires forall i :: 0 <= i < |before| && i != k - 1 ==> before[i].next == AfterIn(before, i)
    requires k > 0 ==> before[k - 1].next == AfterIn(before, k)
    ensures Chained(list)
  {
    forall i | 0 <= i < |list| ensures NextOk(list, i) {
      if i + 1 < k {
        assert list[i] == before[i] && list[i + 1] == before[i + 1];
      } else if i + 1 == k {
        assert list[i] == before[k - 1];
      } else {
        assert list[i] == before[i + 1];
      }
    }
  }

  lemma ChainHead(r: Region, list: seq<Region>)
    requires Chained(list) && r.next == First(list)
    ensures Chained([r] + list)
  {
    forall i | 0 <= i < |[r] + list| ensures NextOk([r] + list, i) {
      assert i > 0 ==> NextOk(list, i - 1);
    }
  }

  // ----- all handlers and regions -----

  /** Ghost bookkeeping only: the objects, and the links that their fields must spell out. */
  class Attachments {
    ghost var handlers: map<nat, Handler>
    ghost var regions: set<Region>
    ghost var live: set<nat>
    ghost var links: Links<Region>

    /** The fields of a handler and of its regions spell out its list and count. */
    ghost predicate HandlerLinked(h: nat)
      requires h in handlers && h in links.regions && h in links.refs
      reads this, handlers.Values, regions
    {
      && handlers[h].id == h && handlers[h].references == links.refs[h]
      && handlers[h].regions == First(links.regions[h])
      && (forall r :: r in links.regions[h] ==> r in regions) && Chained(links.regions[h])
    }

    ghost predicate RegionLinked(r: Region)
      reads this, r`handler
    {
      if r in links.attached then links.attached[r] in handlers && r.handler == handlers[links.attached[r]] else r.handler == null
    }

    /** The fields spell out the links. */
    ghost predicate Spelled()
      reads this, handlers.Values, regions
    {
      && handlers.Keys == links.regions.Keys == links.refs.Keys
      && (forall h {:trigger HandlerLinked(h)} :: h in handlers ==> HandlerLinked(h))
      && (forall r {:trigger RegionLinked(r)} :: r in regions ==> RegionLinked(r))
    }

    ghost predicate Valid()
      reads this, handlers.Values, regions
    {
      LinksOk(links, live, regions) && Spelled()
    }

    /** `r` is in no list but perhaps that of `h`. */
    ghost predicate ElsewhereLoose(r: Region, h: nat)
      reads this
    {
      forall g :: g in links.regions && g != h ==> r !in links.regions[g]
    }

    constructor (regions: set<Region>)
      requires |regions| < BUGGED - 1 && forall r :: r in regions ==> r.handler == null
      ensures Valid() && this.regions == regions && links == Links(map[], map[], map[]) && live == {}
    {
      handlers, this.regions, live, links := map[], regions, {}, Links(map[], map[], map[]);
    }

    /** A handler as its installation allocates it: one reference, no regions. */
    method NewHandler(id: nat) returns (h: Handler)
      requires Valid() && id !in handlers
      modifies this
      ensures fresh(h) && h.id == id && id in handlers && handlers[id] == h && regions == old(regions)
      ensures Valid() && live == old(live) + {id} && links == WithFreshLinks(old(links), id)
    {
      h := new Handler(id);
      ghost var l := links;
      FreshLinksOk(l, live, regions, id);
      handlers, live, links := handlers[id := h], live + {id}, WithFreshLinks(l, id);
      forall g | g in handlers ensures HandlerLinked(g) {
        if g != id {
          assert old(HandlerLinked(g));
          SameHandler(l, g);
        }
      }
      forall q | q in regions ensures RegionLinked(q) { assert old(RegionLinked(q)); }
    }

    /** The pointer updates of region_install_handler. */
    static method Thread(r: Region, h: Handler, ghost list: seq<Region>)
      requires Chained(list) && r !in list && h.regions == First(list)
      modifies r, h
      ensures r.handler == h && h.regions == r && h.references == Ref(old(h.references)) && Chained([r] + list)
    {
      r.handler := h;
      h.references := Ref(h.references);
      r.next := h.regions;
      h.regions := r;
      ChainHead(r, list);
    }

    /** What is known of a handler carries over to links that agree about it. */
    lemma SameHandler(l: Links<Region>, g: nat)
      requires g in handlers && g in l.regions && g in l.refs && g in links.regions && g in links.refs
      requires l.regions[g] == links.regions[g] && l.refs[g] == links.refs[g]
      requires handlers[g].id == g && handlers[g].references == l.refs[g] && handlers[g].regions == First(l.regions[g])
      requires (forall r :: r in l.regions[g] ==> r in regions) && Chained(l.regions[g])
      ensures HandlerLinked(g)
    {
    }

    lemma SameRegion(l: Links<Region>, q: Region)
      requires q in l.attached <==> q in links.attached
      requires q in l.attached ==> links.attached[q] == l.attached[q] && l.attached[q] in handlers && q.handler == handlers[l.attached[q]]
      requires q !in l.attached ==> q.handler == null
      ensures RegionLinked(q)
    {
    }

    /** Linking keeps the fields in step with the links. */
    method Push(r: Region, h: Handler)
      requires Spelled() && r in regions && r !in links.attached && h.id in handlers && handlers[h.id] == h
      requires ElsewhereLoose(r, h.id) && r !in links.regions[h.id]
      modifies this`links, r, h
      ensures Spelled() && links == Attach(old(links), r, h.id)
    {
      ghost var l := links;
      assert HandlerLinked(h.id);
      Thread(r, h, l.regions[h.id]);
      links := Attach(l, r, h.id);
      forall g | g in handlers ensures HandlerLinked(g) {
        assert old(HandlerLinked(g));
        if g != h.id { SameHandler(l, g); }
      }
      forall q | q in regions ensures RegionLinked(q) { assert old(RegionLinked(q)); }
    }

    /** region_install_handler. */
    method Link(r: Region, h: Handler)
      requires Valid() && r in regions && r.handler == null && h.id in live && h.id in handlers && handlers[h.id] == h
      modifies this`links, r, h
      ensures h.id in old(links).regions && h.id in old(links).refs
      ensures Valid() && links == Attach(old(links), r, h.id)
    {
      assert RegionLinked(r);
      AttachOk(links, live, regions, r, h.id);
      forall g | g in links.regions ensures r !in links.regions[g] { assert HandlerOk(links, live, g); }
      Push(r, h);
    }

    /** find_previous_region_link: the region itself if it is the first of its list. */
    method FindPrevious(r: Region) returns (link: Region, ghost k: nat)
      requires Valid() && r in links.attached
      ensures links.attached[r] in links.regions
      ensures var list := links.regions[links.attached[r]];
              k < |list| && list[k] == r && link == list[if k == 0 then 0 else k - 1]
    {
      ghost var g := links.attached[r];
      assert r in regions && RegionLinked(r) && HandlerLinked(g) && HandlerOk(links, live, g);
      ghost var list := links.regions[g];
      var h := r.handler;
      link, k := h.regions, 0;
      if link == r {
        return;
      }
      k := 1;
      assert NextOk(list, 0);
      while link.next != r
        invariant 0 < k <= |list| && link == list[k - 1] && r !in list[..k]
        decreases |list| - k
      {
        assert NextOk(list, k - 1) && list[..k + 1] == list[..k] + [list[k]];
        link := link.next;
        k := k + 1;
      }
      assert NextOk(list, k - 1);
    }

    /** The search result is bridged over. */
    static method Unthread(r: Region, link: Region, h: Handler, ghost list: seq<Region>, ghost k: nat) returns (last: bool)
      requires Chained(list) && NoDup(list) && k < |list| && list[k] == r && link == list[if k == 0 then 0 else k - 1]
      requires h.regions == First(list)
      modifies link`next, h`regions, h`references
      ensures h.regions == First(list[..k] + list[k + 1..]) && Chained(list[..k] + list[k + 1..])
      ensures last == (old(h.references) == 1) && h.references == Unref(old(h.references))
    {
      assert NextOk(list, k);
      if link == r {
        h.regions := r.next;
      } else {
        link.next := r.next;
      }
      last := h.Drop();
      forall i | 0 <= i < |list| && i != k - 1 ensures list[i].next == AfterIn(list, i) {
        assert old(NextOk(list, i));
      }
      ChainAround(list, k, list[..k] + list[k + 1..]);
    }

    /** Taking the `k`-th region off the list of `g` keeps all lists in step. */
    method PullList(r: Region, link: Region, g: nat, h: Handler, ghost k: nat) returns (last: bool)
      requires Spelled() && g in handlers && handlers[g] == h
      requires var list := links.regions[g];
               && NoDup(list) && k < |list| && list[k] == r && link == list[if k == 0 then 0 else k - 1]
               && ElsewhereLoose(link, g)
      modifies this`links, link`next, h`regions, h`references
      ensures last == (old(links.refs[g]) == 1) && Spelled()
      ensures var l := old(links);
              links == l.(regions := l.regions[g := l.regions[g][..k] + l.regions[g][k + 1..]], refs := l.refs[g := Unref(l.refs[g])])
    {
      ghost var l := links;
      assert HandlerLinked(g);
      last := Unthread(r, link, h, l.regions[g], k);
      links := l.(regions := l.regions[g := l.regions[g][..k] + l.regions[g][k + 1..]], refs := l.refs[g := Unref(l.refs[g])]);
      forall q | q in handlers ensures HandlerLinked(q) {
        assert old(HandlerLinked(q));
        if q != g { SameHandler(l, q); }
      }
      forall q | q in regions ensures RegionLinked(q) { assert old(RegionLinked(q)); }
    }

    /** The region forgets its handler. */
    method Forget(r: Region)
      requires Spelled() && r in regions
      modifies this`links, r`handler
      ensures Spelled() && links == old(links).(attached := old(links).attached - {r})
    {
      ghost var l := links;
      r.handler := null;
      links := l.(attached := l.attached - {r});
      forall q | q in handlers ensures HandlerLinked(q) {
        assert old(HandlerLinked(q));
        SameHandler(l, q);
      }
      forall q | q in regions ensures RegionLinked(q) {
        assert old(RegionLinked(q));
        if q != r { SameRegion(l, q); }
      }
    }

    /** Both together, for links from which `r` is gone. */
    method Cut(r: Region, link: Region, h: Handler, ghost k: nat, ghost m: Links<Region>) returns (last: bool)
      requires Spelled() && r in regions && h.id in handlers && handlers[h.id] == h
      requires var list := links.regions[h.id];
               && NoDup(list) && k < |list| && list[k] == r && link == list[if k == 0 then 0 else k - 1]
               && ElsewhereLoose(link, h.id)
               && m.regions == links.regions[h.id := list[..k] + list[k + 1..]]
               && m.refs == links.refs[h.id := Unref(links.refs[h.id])] && m.attached == links.attached - {r}
      modifies this`links, link`next, r`handler, h`regions, h`references
      ensures last == (old(links.refs[h.id]) == 1) && Spelled() && links == m
    {
      last := PullList(r, link, h.id, h, k);
      Forget(r);
    }

    /** The search for the previous link and the cut, for a region that has a handler. */
    method Search(r: Region) returns (last: bool)
      requires Valid() && r in regions && r in links.attached
      modifies this`links, regions, handlers.Values
      ensures old(links).attached[r] in old(links).regions && old(links).attached[r] in old(links).refs
      ensures Spelled() && links == Detach(old(links), r) && !last
    {
      assert RegionLinked(r) && HandlerLinked(links.attached[r]);
      var link, k := FindPrevious(r);
      DetachIs(links, live, regions, r, k, link);
      last := Cut(r, link, r.handler, k, Detach(links, r));
    }

    /** uacpi_opregion_uninstall_handler; a region that has a handler is never its last reference. */
    method Unlink(r: Region) returns (last: bool)
      requires Valid() && r in regions
      modifies this`links, regions, handlers.Values
      ensures r in old(links).attached ==> old(links).attached[r] in old(links).regions && old(links).attached[r] in old(links).refs
      ensures Valid() && links == Detach(old(links), r) && !last
    {
      assert RegionLinked(r);
      if r.handler == null {
        return false;
      }
      DetachOk(links, live, regions, r);
      last := Search(r);
    }

    /** A handler is given up by its device once it has no regions: this is its last reference. */
    method GiveUp(h: Handler) returns (last: bool)
      requires Valid() && h.id in live && h.id in handlers && handlers[h.id] == h && h.regions == null
      modifies this, h
      ensures last && old(h.id in links.refs)
      ensures Valid() && live == old(live) - {h.id} && links == Release(old(links), h.id) && h.id !in handlers
    {
      ghost var l := links;
      assert HandlerLinked(h.id) && HandlerOk(l, live, h.id);
      assert l.regions[h.id] == [];
      last := h.Drop();
      links, live, handlers := Release(l, h.id), live - {h.id}, handlers - {h.id};
      ReleasedOk(l, old(live), regions, h.id);
      forall g | g in handlers ensures HandlerLinked(g) {
        assert old(HandlerLinked(g));
        SameHandler(l, g);
      }
      forall q | q in regions ensures RegionLinked(q) { assert old(RegionLinked(q)); }
    }
  }

  /** Detaching the `k`-th region of a list, spelled out. */
  lemma DetachIs<N>(l: Links<N>, live: set<nat>, nodes: set<N>, r: N, k: nat, link: N)
    requires LinksOk(l, live, nodes) && r in l.attached && l.attached[r] in l.regions
    requires var list := l.regions[l.attached[r]]; k < |list| && list[k] == r && link in list
    ensures var g := l.attached[r];
            var list := l.regions[g];
            && g in l.refs && l.refs[g] != 1 && NoDup(list)
            && Detach(l, r).regions == l.regions[g := list[..k] + list[k + 1..]]
            && Detach(l, r).refs == l.refs[g := Unref(l.refs[g])] && Detach(l, r).attached == l.attached - {r}
            && forall q :: q in l.regions && q != g ==> link !in l.regions[q]
  {
    var g := l.attached[r];
    assert HandlerOk(l, live, g);
    Without1At(l.regions[g], r, k);
    forall q | q in l.regions && q != g ensures link !in l.regions[q] { assert HandlerOk(l, live, q); }
  }

  lemma ReleasedOk<N>(l: Links<N>, live: set<nat>, nodes: set<N>, h: nat)
    requires LinksOk(l, live, nodes) && h in live && h in l.regions && l.regions[h] == []
    ensures h in l.refs && l.refs[h] == 1 && LinksOk(Release(l, h), live - {h}, nodes)
  {
    assert HandlerOk(l, live, h);
    var m := Release(l, h);
    forall g | g in m.regions ensures HandlerOk(m, live - {h}, g) { assert HandlerOk(l, live, g); }
    forall r | r in m.attached ensures m.attached[r] != h { assert r !in l.regions[h]; }
  }
}
