/**
  Rooted ordered trees over an arbitrary type of nodes, given by child lists and parent
  links, with the recursive pre-order that depth-first walks are measured against.
 */
module TreeShape {
  import opened Prelude

  /** `rank` is the depth of a node and `bound` is no less than any of them. */
  datatype Shape<N(==)> = Shape(root: N, kids: map<N, seq<N>>, parent: map<N, N>, rank: map<N, nat>, bound: nat)

  ghost predicate KidsOk<N>(t: Shape<N>, n: N)
    requires n in t.kids && n in t.rank
  {
    && t.rank[n] <= t.bound
    && NoDup(t.kids[n])
    && forall i :: 0 <= i < |t.kids[n]| ==>
         var k := t.kids[n][i];
         k in t.kids && k in t.rank && k in t.parent && t.parent[k] == n && t.rank[k] == t.rank[n] + 1
  }

  ghost predicate ParentOk<N>(t: Shape<N>, n: N)
    requires n in t.parent
  {
    t.parent[n] in t.kids && n in t.kids[t.parent[n]]
  }

  /** The triggers keep facts about a node out of proofs that do not ask for them. */
  ghost predicate WellFormed<N>(t: Shape<N>) {
    && t.root in t.kids && t.rank.Keys == t.kids.Keys && t.parent.Keys == t.kids.Keys - {t.root}
    && t.rank[t.root] == 0
    && (forall n {:trigger KidsOk(t, n)} :: n in t.kids ==> KidsOk(t, n))
    && (forall n {:trigger ParentOk(t, n)} :: n in t.parent ==> ParentOk(t, n))
  }

  /** The position of `n` among its parent's children. */
  ghost function IndexIn<N>(s: seq<N>, n: N): (i: nat)
    requires n in s
    ensures i < |s| && s[i] == n
  {
    var i :| 0 <= i < |s| && s[i] == n;
    i
  }

  /** `n` and its later siblings. */
  ghost function Peers<N>(t: Shape<N>, n: N): (ps: seq<N>)
    requires WellFormed(t) && n in t.kids
    ensures |ps| > 0 && ps[0] == n
  {
    if n == t.root then [n]
    else
      assert ParentOk(t, n);
      var sibs := t.kids[t.parent[n]];
      sibs[IndexIn(sibs, n)..]
  }

  lemma PeersOfKid<N>(t: Shape<N>, p: N, i: nat)
    requires WellFormed(t) && p in t.kids && i < |t.kids[p]|
    ensures t.kids[p][i] in t.kids && Peers(t, t.kids[p][i]) == t.kids[p][i..]
  {
    var k := t.kids[p][i];
    assert KidsOk(t, p);
    assert t.parent[k] == p;
    assert IndexIn(t.kids[p], k) == i;
  }

  /** The siblings after `n` are the peers of the next one. */
  lemma NextPeers<N>(t: Shape<N>, n: N)
    requires WellFormed(t) && n in t.kids && |Peers(t, n)| > 1
    ensures Peers(t, n)[1] in t.kids && Peers(t, Peers(t, n)[1]) == Peers(t, n)[1..]
    ensures n in t.parent && Peers(t, n)[1] in t.parent && t.parent[Peers(t, n)[1]] == t.parent[n]
    ensures t.rank[Peers(t, n)[1]] == t.rank[n]
  {
    var p := t.parent[n];
    assert ParentOk(t, n) && KidsOk(t, p);
    var i := IndexIn(t.kids[p], n);
    PeersOfKid(t, p, i + 1);
    assert t.kids[p][i..][1..] == t.kids[p][i + 1..];
  }

  // ----- pre-order with decisions -----

  datatype Decision = Continue | NextPeer | Stop

  /** What a walk has done: the nodes it called back on, in order, the caller's state, and whether it stopped. */
  datatype Walk<N, S> = Walk(trace: seq<N>, state: S, stopped: bool)

  ghost predicate AllAt<N>(t: Shape<N>, ns: seq<N>, rank: nat) {
    forall i :: 0 <= i < |ns| ==> ns[i] in t.kids && ns[i] in t.rank && t.rank[ns[i]] == rank
  }

  lemma KidsAllAt<N>(t: Shape<N>, n: N)
    requires WellFormed(t) && n in t.kids
    ensures AllAt(t, t.kids[n], t.rank[n] + 1)
    ensures |t.kids[n]| > 0 ==> t.rank[n] < t.bound
  {
    assert KidsOk(t, n);
    if |t.kids[n]| > 0 {
      assert KidsOk(t, t.kids[n][0]);
    }
  }

  /** Pre-order over a list of siblings: the reference for the iterative walk. */
  ghost function PreOrder<N, S>(t: Shape<N>, decide: (S, N) -> (Decision, S), ns: seq<N>, rank: nat, s: S): Walk<N, S>
    requires WellFormed(t) && AllAt(t, ns, rank)
    decreases t.bound + 1 - rank, |ns|
  {
    if ns == [] then Walk([], s, false)
    else
      var n := ns[0];
      KidsAllAt(t, n);
      var (d, s1) := decide(s, n);
      if d == Stop then Walk([n], s1, true)
      else
        var below := if d == Continue && t.kids[n] != [] then PreOrder(t, decide, t.kids[n], rank + 1, s1) else Walk([], s1, false);
        if below.stopped then below.(trace := [n] + below.trace)
        else
          var after := PreOrder(t, decide, ns[1..], rank, below.state);
          after.(trace := [n] + below.trace + after.trace)
  }

  /** The part of a pre-order that belongs to one node: its callback and what lies below. */
  ghost function NodeWalk<N, S>(t: Shape<N>, decide: (S, N) -> (Decision, S), n: N, rank: nat, s: S): Walk<N, S>
    requires WellFormed(t) && n in t.kids && t.rank[n] == rank
  {
    KidsAllAt(t, n);
    var (d, s1) := decide(s, n);
    if d == Stop then Walk([n], s1, true)
    else if d == Continue && t.kids[n] != [] then
      var below := PreOrder(t, decide, t.kids[n], rank + 1, s1);
      below.(trace := [n] + below.trace)
    else Walk([n], s1, false)
  }

  lemma PreOrderCons<N, S>(t: Shape<N>, decide: (S, N) -> (Decision, S), ns: seq<N>, rank: nat, s: S)
    requires WellFormed(t) && ns != [] && AllAt(t, ns, rank) && AllAt(t, ns[1..], rank)
    ensures var a := NodeWalk(t, decide, ns[0], rank, s);
            PreOrder(t, decide, ns, rank, s) == if a.stopped then a else Join(a, PreOrder(t, decide, ns[1..], rank, a.state))
  {
    var a := NodeWalk(t, decide, ns[0], rank, s);
    if !a.stopped {
      var after := PreOrder(t, decide, ns[1..], rank, a.state);
      assert [ns[0]] + [] + after.trace == [ns[0]] + after.trace;
    }
  }

  /** The number of nodes at and below a list of siblings. */
  ghost function Weight<N>(t: Shape<N>, ns: seq<N>, rank: nat): nat
    requires WellFormed(t) && AllAt(t, ns, rank)
    decreases t.bound + 1 - rank, |ns|
  {
    if ns == [] then 0
    else
      KidsAllAt(t, ns[0]);
      1 + (if t.kids[ns[0]] == [] then 0 else Weight(t, t.kids[ns[0]], rank + 1)) + Weight(t, ns[1..], rank)
  }

  lemma PeersAllAt<N>(t: Shape<N>, n: N)
    requires WellFormed(t) && n in t.kids
    ensures AllAt(t, Peers(t, n), t.rank[n]) && AllAt(t, Peers(t, n)[1..], t.rank[n])
  {
    if n != t.root {
      assert ParentOk(t, n) && KidsOk(t, t.parent[n]);
      KidsAllAt(t, t.parent[n]);
      assert t.kids[t.parent[n]][IndexIn(t.kids[t.parent[n]], n)] == n;
    }
  }

  // ----- a walk interrupted at a node -----

  function Join<N, S>(a: Walk<N, S>, b: Walk<N, S>): Walk<N, S> { b.(trace := a.trace + b.trace) }

  /** What is left once the peers of `n` are done, `depth - 1` levels below where the walk began. */
  ghost function Above<N, S>(t: Shape<N>, decide: (S, N) -> (Decision, S), n: N, depth: nat, s: S): Walk<N, S>
    requires WellFormed(t) && n in t.kids && depth <= t.rank[n] + 1
    decreases depth
  {
    if depth <= 1 then Walk([], s, false)
    else
      var p := t.parent[n];
      RankOfParent(t, n);
      PeersAllAt(t, p);
      var r := PreOrder(t, decide, Peers(t, p)[1..], t.rank[p], s);
      if r.stopped then r else Join(r, Above(t, decide, p, depth - 1, r.state))
  }

  lemma RankOfParent<N>(t: Shape<N>, n: N)
    requires WellFormed(t) && n in t.kids && t.rank[n] > 0
    ensures n in t.parent && t.parent[n] in t.kids && t.rank[t.parent[n]] == t.rank[n] - 1
  {
    assert n != t.root;
    assert ParentOk(t, n) && KidsOk(t, t.parent[n]);
    var i := IndexIn(t.kids[t.parent[n]], n);
  }

  /** What is left at `n`: its peers (without itself when walking up), then everything above. */
  ghost function Resume<N, S>(t: Shape<N>, decide: (S, N) -> (Decision, S), n: N, depth: nat, up: bool, s: S): Walk<N, S>
    requires WellFormed(t) && n in t.kids && depth <= t.rank[n] + 1
  {
    PeersAllAt(t, n);
    var r := PreOrder(t, decide, if up then Peers(t, n)[1..] else Peers(t, n), t.rank[n], s);
    if r.stopped then r else Join(r, Above(t, decide, n, depth, r.state))
  }

  lemma JoinAssoc<N, S>(a: Walk<N, S>, b: Walk<N, S>, c: Walk<N, S>)
    ensures Join(a, Join(b, c)) == Join(Join(a, b), c)
  {
  }

  lemma ResumeDown<N, S>(t: Shape<N>, decide: (S, N) -> (Decision, S), n: N, depth: nat, s: S)
    requires WellFormed(t) && n in t.kids && 1 <= depth <= t.rank[n] + 1 && t.kids[n] != []
    requires decide(s, n).0 == Continue
    ensures var s1, k := decide(s, n).1, t.kids[n][0];
            && k in t.kids && t.rank[k] == t.rank[n] + 1
            && Resume(t, decide, n, depth, false, s) == Join(Walk([n], s1, false), Resume(t, decide, k, depth + 1, false, s1))
  {
    var s1, k := decide(s, n).1, t.kids[n][0];
    KidsAllAt(t, n);
    PeersAllAt(t, n);
    PreOrderDown(t, decide, Peers(t, n), t.rank[n], s);
    PeersOfKid(t, n, 0);
    assert t.kids[n][0..] == t.kids[n];
    var here, below := Walk([n], s1, false), PreOrder(t, decide, t.kids[n], t.rank[n] + 1, s1);
    if !below.stopped {
      AboveKid(t, decide, n, k, depth, below.state);
      var after := PreOrder(t, decide, Peers(t, n)[1..], t.rank[n], below.state);
      var rest := Above(t, decide, n, depth, after.state);
      JoinAssoc(here, below, after);
      JoinAssoc(below, after, rest);
      JoinAssoc(here, Join(below, after), rest);
    }
  }

  lemma AboveKid<N, S>(t: Shape<N>, decide: (S, N) -> (Decision, S), n: N, k: N, depth: nat, s: S)
    requires WellFormed(t) && n in t.kids && 1 <= depth <= t.rank[n] + 1 && k in t.kids[n]
    ensures k in t.kids && t.rank[k] == t.rank[n] + 1 && AllAt(t, Peers(t, n)[1..], t.rank[n])
    ensures var r := PreOrder(t, decide, Peers(t, n)[1..], t.rank[n], s);
            Above(t, decide, k, depth + 1, s) == if r.stopped then r else Join(r, Above(t, decide, n, depth, r.state))
  {
    assert KidsOk(t, n);
    PeersAllAt(t, n);
    assert t.kids[n][IndexIn(t.kids[n], k)] == k;
  }

  lemma PreOrderDown<N, S>(t: Shape<N>, decide: (S, N) -> (Decision, S), ns: seq<N>, rank: nat, s: S)
    requires WellFormed(t) && ns != [] && AllAt(t, ns, rank) && AllAt(t, ns[1..], rank)
    requires decide(s, ns[0]).0 == Continue && t.kids[ns[0]] != []
    ensures AllAt(t, t.kids[ns[0]], rank + 1)
    ensures var s1 := decide(s, ns[0]).1;
            var below := PreOrder(t, decide, t.kids[ns[0]], rank + 1, s1);
            PreOrder(t, decide, ns, rank, s)
            == Join(Walk([ns[0]], s1, false),
                    if below.stopped then below else Join(below, PreOrder(t, decide, ns[1..], rank, below.state)))
  {
    KidsAllAt(t, ns[0]);
    var below := PreOrder(t, decide, t.kids[ns[0]], rank + 1, decide(s, ns[0]).1);
    if !below.stopped {
      var after := PreOrder(t, decide, ns[1..], rank, below.state);
      assert [ns[0]] + below.trace + after.trace == [ns[0]] + (below.trace + after.trace);
    }
  }

  lemma ResumeTurn<N, S>(t: Shape<N>, decide: (S, N) -> (Decision, S), n: N, depth: nat, s: S)
    requires WellFormed(t) && n in t.kids && depth <= t.rank[n] + 1
    requires decide(s, n).0 == NextPeer || (decide(s, n).0 == Continue && t.kids[n] == [])
    ensures var s1 := decide(s, n).1;
            Resume(t, decide, n, depth, false, s) == Join(Walk([n], s1, false), Resume(t, decide, n, depth, true, s1))
  {
    PeersAllAt(t, n);
    PreOrderTurn(t, decide, Peers(t, n), t.rank[n], s);
    var s1 := decide(s, n).1;
    var after := PreOrder(t, decide, Peers(t, n)[1..], t.rank[n], s1);
    JoinAssoc(Walk([n], s1, false), after, Above(t, decide, n, depth, after.state));
  }

  lemma PreOrderTurn<N, S>(t: Shape<N>, decide: (S, N) -> (Decision, S), ns: seq<N>, rank: nat, s: S)
    requires WellFormed(t) && ns != [] && AllAt(t, ns, rank) && AllAt(t, ns[1..], rank)
    requires decide(s, ns[0]).0 == NextPeer || (decide(s, ns[0]).0 == Continue && t.kids[ns[0]] == [])
    ensures var s1 := decide(s, ns[0]).1;
            PreOrder(t, decide, ns, rank, s) == Join(Walk([ns[0]], s1, false), PreOrder(t, decide, ns[1..], rank, s1))
  {
    var after := PreOrder(t, decide, ns[1..], rank, decide(s, ns[0]).1);
    assert [ns[0]] + [] + after.trace == [ns[0]] + after.trace;
  }

  lemma ResumeStop<N, S>(t: Shape<N>, decide: (S, N) -> (Decision, S), n: N, depth: nat, s: S)
    requires WellFormed(t) && n in t.kids && depth <= t.rank[n] + 1 && decide(s, n).0 == Stop
    ensures Resume(t, decide, n, depth, false, s) == Walk([n], decide(s, n).1, true)
  {
    PeersAllAt(t, n);
  }

  /** A walk that begins at `n` is the pre-order of its peers. */
  lemma ResumeWhole<N, S>(t: Shape<N>, decide: (S, N) -> (Decision, S), n: N, s: S)
    requires WellFormed(t) && n in t.kids
    ensures AllAt(t, Peers(t, n), t.rank[n])
    ensures Resume(t, decide, n, 1, false, s) == PreOrder(t, decide, Peers(t, n), t.rank[n], s)
  {
    PeersAllAt(t, n);
    var r := PreOrder(t, decide, Peers(t, n), t.rank[n], s);
    assert r.trace + [] == r.trace;
  }

  lemma ResumeNext<N, S>(t: Shape<N>, decide: (S, N) -> (Decision, S), n: N, depth: nat, s: S)
    requires WellFormed(t) && n in t.kids && depth <= t.rank[n] + 1 && |Peers(t, n)| > 1
    ensures var m := Peers(t, n)[1];
            && m in t.kids && t.rank[m] == t.rank[n]
            && Resume(t, decide, n, depth, true, s) == Resume(t, decide, m, depth, false, s)
  {
    NextPeers(t, n);
    PeersAllAt(t, n);
    AboveOfPeer(t, decide, n, Peers(t, n)[1], depth, PreOrder(t, decide, Peers(t, n)[1..], t.rank[n], s).state);
  }

  lemma AboveOfPeer<N, S>(t: Shape<N>, decide: (S, N) -> (Decision, S), n: N, m: N, depth: nat, s: S)
    requires WellFormed(t) && n in t.parent && m in t.parent && t.parent[n] == t.parent[m]
    requires n in t.kids && m in t.kids && t.rank[n] == t.rank[m] && depth <= t.rank[n] + 1
    ensures Above(t, decide, n, depth, s) == Above(t, decide, m, depth, s)
  {
  }

  lemma ResumeUp<N, S>(t: Shape<N>, decide: (S, N) -> (Decision, S), n: N, depth: nat, s: S)
    requires WellFormed(t) && n in t.kids && 1 < depth <= t.rank[n] + 1 && |Peers(t, n)| == 1
    ensures n in t.parent && t.parent[n] in t.kids && t.rank[t.parent[n]] == t.rank[n] - 1
    ensures Resume(t, decide, n, depth, true, s) == Resume(t, decide, t.parent[n], depth - 1, true, s)
  {
    RankOfParent(t, n);
    PeersAllAt(t, n);
    assert Peers(t, n)[1..] == [];
  }

  // ----- termination -----

  /** The nodes still to come. */
  ghost function WeightAbove<N>(t: Shape<N>, n: N, depth: nat): nat
    requires WellFormed(t) && n in t.kids && depth <= t.rank[n] + 1
    decreases depth
  {
    if depth <= 1 then 0
    else
      RankOfParent(t, n);
      PeersAllAt(t, t.parent[n]);
      Weight(t, Peers(t, t.parent[n])[1..], t.rank[t.parent[n]]) + WeightAbove(t, t.parent[n], depth - 1)
  }

  ghost function WeightLeft<N>(t: Shape<N>, n: N, depth: nat, up: bool): nat
    requires WellFormed(t) && n in t.kids && depth <= t.rank[n] + 1
  {
    PeersAllAt(t, n);
    Weight(t, if up then Peers(t, n)[1..] else Peers(t, n), t.rank[n]) + WeightAbove(t, n, depth)
  }

  lemma WeightDown<N>(t: Shape<N>, n: N, depth: nat)
    requires WellFormed(t) && n in t.kids && 1 <= depth <= t.rank[n] + 1
    ensures WeightLeft(t, n, depth, true) < WeightLeft(t, n, depth, false)
    ensures t.kids[n] != [] ==> t.kids[n][0] in t.kids && t.rank[t.kids[n][0]] == t.rank[n] + 1
                                && WeightLeft(t, t.kids[n][0], depth + 1, false) < WeightLeft(t, n, depth, false)
  {
    KidsAllAt(t, n);
    PeersAllAt(t, n);
    if t.kids[n] != [] {
      PeersOfKid(t, n, 0);
      assert t.kids[n][0..] == t.kids[n];
      assert KidsOk(t, n);
      assert t.parent[t.kids[n][0]] == n;
    }
  }

  lemma WeightNext<N>(t: Shape<N>, n: N, depth: nat)
    requires WellFormed(t) && n in t.kids && depth <= t.rank[n] + 1 && |Peers(t, n)| > 1
    ensures Peers(t, n)[1] in t.kids && t.rank[Peers(t, n)[1]] == t.rank[n]
    ensures WeightLeft(t, Peers(t, n)[1], depth, false) == WeightLeft(t, n, depth, true)
  {
    NextPeers(t, n);
    PeersAllAt(t, n);
  }

  lemma WeightUp<N>(t: Shape<N>, n: N, depth: nat)
    requires WellFormed(t) && n in t.kids && 1 < depth <= t.rank[n] + 1 && |Peers(t, n)| == 1
    ensures n in t.parent && t.parent[n] in t.kids && t.rank[t.parent[n]] == t.rank[n] - 1
    ensures WeightLeft(t, t.parent[n], depth - 1, true) == WeightLeft(t, n, depth, true)
  {
    RankOfParent(t, n);
    PeersAllAt(t, n);
    assert Peers(t, n)[1..] == [];
  }

  // ----- growing and shrinking -----

  /** The tree with `n` as the last child of `p`. */
  ghost function WithKid<N>(t: Shape<N>, p: N, n: N): Shape<N>
    requires p in t.kids && p in t.rank
  {
    var r := t.rank[p] + 1;
    Shape(t.root, t.kids[p := t.kids[p] + [n]][n := []], t.parent[n := p], t.rank[n := r], if r > t.bound then r else t.bound)
  }

  lemma WithKidWellFormed<N>(t: Shape<N>, p: N, n: N)
    requires WellFormed(t) && p in t.kids && n !in t.kids
    ensures WellFormed(WithKid(t, p, n))
  {
    var u := WithKid(t, p, n);
    assert u.rank.Keys == t.kids.Keys + {n} == u.kids.Keys;
    assert u.parent.Keys == t.kids.Keys - {t.root} + {n} == u.kids.Keys - {u.root};
    forall m | m in u.kids ensures KidsOk(u, m) {
      if m != n {
        assert KidsOk(t, m);
        forall i | 0 <= i < |t.kids[m]| ensures t.kids[m][i] != n { }
      }
    }
    forall m | m in u.parent ensures ParentOk(u, m) {
      if m != n {
        assert ParentOk(t, m);
      } else {
        assert u.kids[p][|t.kids[p]|] == n;
      }
    }
  }

  /** `m` is `n` or lies below it. */
  ghost predicate Below<N>(t: Shape<N>, n: N, m: N)
    requires WellFormed(t) && m in t.kids
    decreases t.rank[m]
  {
    m == n || (t.rank[m] > 0 && (RankOfParent(t, m); Below(t, n, t.parent[m])))
  }

  lemma BelowParent<N>(t: Shape<N>, n: N, m: N)
    requires WellFormed(t) && m in t.parent
    ensures t.parent[m] in t.kids && t.rank[m] > 0 && (Below(t, n, m) <==> m == n || Below(t, n, t.parent[m]))
  {
    assert ParentOk(t, m) && KidsOk(t, t.parent[m]);
    assert t.kids[t.parent[m]][IndexIn(t.kids[t.parent[m]], m)] == m;
  }

  lemma {:induction false} BelowIsDeeper<N>(t: Shape<N>, n: N, m: N)
    requires WellFormed(t) && n in t.kids && m in t.kids && Below(t, n, m)
    ensures m == n || t.rank[m] > t.rank[n]
    decreases t.rank[m]
  {
    if m != n {
      RankOfParent(t, m);
      BelowIsDeeper(t, n, t.parent[m]);
    }
  }

  lemma {:induction false} NothingBelowLeaf<N>(t: Shape<N>, n: N, m: N)
    requires WellFormed(t) && n in t.kids && t.kids[n] == [] && m in t.kids && Below(t, n, m)
    ensures m == n
    decreases t.rank[m]
  {
    if m != n {
      RankOfParent(t, m);
      assert ParentOk(t, m);
      NothingBelowLeaf(t, n, t.parent[m]);
    }
  }

  ghost function Subtree<N>(t: Shape<N>, n: N): set<N>
    requires WellFormed(t)
  {
    set m | m in t.kids && Below(t, n, m)
  }

  /** The tree without `n` and all that lies below it. */
  ghost function Without<N>(t: Shape<N>, n: N): Shape<N>
    requires WellFormed(t) && n in t.parent
  {
    assert ParentOk(t, n);
    var p, cut := t.parent[n], Subtree(t, n);
    var i := IndexIn(t.kids[p], n);
    Shape(t.root, (t.kids - cut)[p := t.kids[p][..i] + t.kids[p][i + 1..]], t.parent - cut, t.rank - cut, t.bound)
  }

  lemma WithoutParts<N>(t: Shape<N>, n: N)
    requires WellFormed(t) && n in t.parent
    ensures n in t.kids && n in Subtree(t, n) && t.root !in Subtree(t, n)
    ensures t.parent[n] in t.kids && t.parent[n] !in Subtree(t, n)
  {
    var p := t.parent[n];
    assert ParentOk(t, n) && KidsOk(t, p);
    assert t.kids[p][IndexIn(t.kids[p], n)] == n;
    BelowParent(t, n, n);
    if p in Subtree(t, n) {
      BelowIsDeeper(t, n, p);
    }
    if t.root in Subtree(t, n) {
      BelowIsDeeper(t, n, t.root);
    }
  }

  lemma WithoutWellFormed<N>(t: Shape<N>, n: N)
    requires WellFormed(t) && n in t.parent
    ensures WellFormed(Without(t, n))
  {
    var u, p, cut := Without(t, n), t.parent[n], Subtree(t, n);
    WithoutParts(t, n);
    assert ParentOk(t, n);
    assert u.kids.Keys == t.kids.Keys - cut == u.rank.Keys;
    assert u.parent.Keys == u.kids.Keys - {u.root};
    forall m | m in u.kids ensures KidsOk(u, m) { KidsLeft(t, n, m); }
    forall m | m in u.parent ensures ParentOk(u, m) { ParentLeft(t, n, m); }
  }

  lemma KidsLeft<N>(t: Shape<N>, n: N, m: N)
    requires WellFormed(t) && n in t.parent && m in t.kids && m !in Subtree(t, n)
    ensures var u := Without(t, n); m in u.kids && m in u.rank && KidsOk(u, m)
  {
    var u, p := Without(t, n), t.parent[n];
    WithoutParts(t, n);
    assert KidsOk(t, m) && ParentOk(t, n);
    var i := IndexIn(t.kids[p], n);
    forall j | 0 <= j < |t.kids[m]| && t.kids[m][j] != n
      ensures t.kids[m][j] in t.kids && t.kids[m][j] !in Subtree(t, n)
    {
      BelowParent(t, n, t.kids[m][j]);
    }
    if m == p {
      assert forall j :: 0 <= j < |t.kids[p]| && j != i ==> t.kids[p][j] != n;
    } else {
      forall j | 0 <= j < |t.kids[m]| ensures t.kids[m][j] != n { }
    }
  }

  lemma ParentLeft<N>(t: Shape<N>, n: N, m: N)
    requires WellFormed(t) && n in t.parent && m in t.parent && m !in Subtree(t, n)
    ensures var u := Without(t, n); m in u.parent && ParentOk(u, m)
  {
    var u, p := Without(t, n), t.parent[n];
    assert ParentOk(t, n) && ParentOk(t, m);
    BelowParent(t, n, m);
    if t.parent[m] == p {
      var i, j := IndexIn(t.kids[p], n), IndexIn(t.kids[p], m);
      BelowParent(t, n, n);
      assert u.kids[p][if j < i then j else j - 1] == m;
    }
  }

  /** Removing the node just added gives the tree back, up to the bound. */
  lemma WithoutWithKid<N>(t: Shape<N>, p: N, n: N)
    requires WellFormed(t) && p in t.kids && n !in t.kids
    ensures WellFormed(WithKid(t, p, n))
    ensures Without(WithKid(t, p, n), n).(bound := t.bound) == t
  {
    WithKidWellFormed(t, p, n);
    var u := WithKid(t, p, n);
    assert KidsOk(u, p);
    assert u.kids[p][|t.kids[p]|] == n;
    assert IndexIn(u.kids[p], n) == |t.kids[p]|;
    assert u.kids[p][..|t.kids[p]|] + u.kids[p][|t.kids[p]| + 1..] == t.kids[p];
    forall m | m in Subtree(u, n) ensures m == n { NothingBelowLeaf(u, n, m); }
    assert Subtree(u, n) == {n};
    var v := Without(u, n);
    assert v.kids == t.kids && v.parent == t.parent && v.rank == t.rank;
  }
}
