/**
  Name resolution that creates its last name (interpreter.c): where a new node will go, and
  that it is found there under the same NameString once it is installed.
 */
module NameCreation {
  import opened Prelude
  import opened TreeShape
  import opened Namespace
  import opened NameString

  /** A place for the new node, or why there is none. */
  datatype Creation = Fresh(parent: Node, name: Name) | Exists | NoParent | Malformed

  ghost function CreateSegs(t: Shape<Node>, n: Node, segs: seq<Name>): (r: Creation)
    requires WellFormed(t) && n in t.kids && segs != []
    ensures r.Fresh? ==> r.parent in t.kids && r.name == segs[|segs| - 1] && Sub(t, r.parent, r.name).None?
    decreases |segs|
  {
    if !ValidSeg(segs[0]) then Malformed
    else
      var k := Sub(t, n, segs[0]);
      if |segs| == 1 then (if k.Some? then Exists else Fresh(n, segs[0]))
      else if k.None? then NoParent
      else CreateSegs(t, k.value, segs[1..])
  }

  /** Where a NameString creates its node; nothing is searched for above the scope. */
  ghost function Place(t: Shape<Node>, scope: Node, a: Aml): (r: Creation)
    requires WellFormed(t) && scope in t.kids
    ensures r.Fresh? ==> r.parent in t.kids && Sub(t, r.parent, r.name).None?
  {
    match Base(t, scope, a.path)
    case None => Malformed
    case Some(b) => if a.path.segs == [] then Malformed else CreateSegs(t, b, a.path.segs)
  }

  /** The NameSeg loop when the last name is to be created. */
  method WalkToPlace(tree: Tree, code: seq<Byte>, start: nat, count: nat, from: Node) returns (out: Creation)
    requires tree.Valid() && from in tree.shape.kids && count > 0 && start + 4 * count <= |code|
    ensures TakeNames(code, start, count) != [] && out == CreateSegs(tree.shape, from, TakeNames(code, start, count))
  {
    var at, k: nat, node := start, count, from;
    ghost var whole := CreateSegs(tree.shape, from, TakeNames(code, start, count));
    while true
      invariant 0 < k && start <= at && at + 4 * k <= |code| && node in tree.shape.kids
      invariant whole == CreateSegs(tree.shape, node, TakeNames(code, at, k))
      decreases k
    {
      var name := code[at..at + 4];
      assert TakeNames(code, at, k)[1..] == TakeNames(code, at + 4, k - 1);
      TakeNamesLength(code, at, k);
      if !ValidSeg(name) {
        return Malformed;
      }
      var next := FindSubNode(tree, node, name);
      if k == 1 {
        return if next.Some? then Exists else Fresh(node, name);
      }
      if next.None? {
        return NoParent;
      }
      node, at, k := next.value, at + 4, k - 1;
    }
  }

  /** resolve_name_string for creation: every byte string gets the place its parse names. */
  method ResolveForCreation(tree: Tree, code: seq<Byte>, offset: nat, scope: Node) returns (out: Creation, end: nat)
    requires tree.Valid() && scope in tree.shape.kids
    ensures match ParseAml(code, offset)
            case None => out == Malformed
            case Some((a, e)) => out == Place(tree.shape, scope, a) && (out != Malformed ==> end == e)
  {
    out, end := Malformed, offset;
    var prefix := WalkPrefix(tree, code, offset, scope);
    if prefix.None? {
      return;
    }
    var (node, at, _) := prefix.value;
    var count := ParseCount(code, at);
    if count.None? {
      return;
    }
    var (k, start, _) := count.value;
    if k == 0 || start + 4 * k > |code| {
      return;
    }
    out := WalkToPlace(tree, code, start, k, node);
    end := start + 4 * k;
  }

  // ----- what is created is found -----

  lemma {:induction false} FindInMore(ns: seq<Node>, node: Node, name: Name)
    ensures FindIn(ns + [node], name) ==
            if FindIn(ns, name).Some? then FindIn(ns, name) else if node.name == name then Some(node) else None
  {
    if ns != [] {
      assert (ns + [node])[1..] == ns[1..] + [node];
      FindInMore(ns[1..], node, name);
    }
  }

  /** Installing a node adds one name under its parent and hides none. */
  lemma SubInGrown(t: Shape<Node>, p: Node, node: Node, n: Node, name: Name)
    requires WellFormed(t) && p in t.kids && node !in t.kids && n in t.kids
    ensures WellFormed(WithKid(t, p, node)) && n in WithKid(t, p, node).kids
    ensures Sub(WithKid(t, p, node), n, name) ==
            if Sub(t, n, name).None? && n == p && node.name == name then Some(node) else Sub(t, n, name)
  {
    WithKidWellFormed(t, p, node);
    if n == p {
      FindInMore(t.kids[p], node, name);
    }
  }

  lemma {:induction false} CreatedSegsFound(t: Shape<Node>, n: Node, segs: seq<Name>, p: Node, node: Node)
    requires WellFormed(t) && n in t.kids && segs != [] && node !in t.kids
    requires CreateSegs(t, n, segs) == Fresh(p, node.name)
    ensures WellFormed(WithKid(t, p, node)) && n in WithKid(t, p, node).kids
    ensures ResolveSegs(WithKid(t, p, node), n, segs, false) == Found(node)
    decreases |segs|
  {
    SubInGrown(t, p, node, n, segs[0]);
    if |segs| == 1 {
      assert segs[1..] == [];
    } else {
      CreatedSegsFound(t, Sub(t, n, segs[0]).value, segs[1..], p, node);
    }
  }

  lemma {:induction false} AscendInGrown(t: Shape<Node>, p: Node, node: Node, n: Node, k: nat)
    requires WellFormed(t) && p in t.kids && node !in t.kids && n in t.kids
    ensures WellFormed(WithKid(t, p, node)) && n in WithKid(t, p, node).kids
    ensures Ascend(WithKid(t, p, node), n, k) == Ascend(t, n, k)
    decreases k
  {
    WithKidWellFormed(t, p, node);
    if k > 0 && n != t.root {
      RankPositive(t, n);
      assert ParentOk(t, n);
      AscendInGrown(t, p, node, t.parent[n], k - 1);
    }
  }

  /**
    A node installed where its NameString places it is what the same NameString names
    afterwards, from the same scope; before, the string named nothing below that place.
   */
  lemma CreatedIsFound(t: Shape<Node>, scope: Node, a: Aml, p: Node, node: Node)
    requires WellFormed(t) && scope in t.kids && node !in t.kids && (a.bare ==> |a.path.segs| == 1)
    requires Place(t, scope, a) == Fresh(p, node.name)
    ensures WellFormed(WithKid(t, p, node)) && scope in WithKid(t, p, node).kids
    ensures Resolve(WithKid(t, p, node), scope, a) == Found(node)
    ensures !a.JustOne() ==> Resolve(t, scope, a) == Missing
  {
    var u := WithKid(t, p, node);
    AscendInGrown(t, p, node, scope, a.path.carets);
    var b := Base(t, scope, a.path).value;
    CreatedSegsFound(t, b, a.path.segs, p, node);
    NotThereYet(t, b, a.path.segs);
    if a.JustOne() {
      assert b == scope == p && a.path.segs == [node.name];
      SubInGrown(t, p, node, scope, node.name);
      assert SearchUp(u, scope, node.name) == Some(node);
      assert ResolveSegs(u, node, a.path.segs[1..], true) == Found(node);
    }
  }

  lemma {:induction false} NotThereYet(t: Shape<Node>, n: Node, segs: seq<Name>)
    requires WellFormed(t) && n in t.kids && segs != [] && CreateSegs(t, n, segs).Fresh?
    ensures ResolveSegs(t, n, segs, false) == Missing
    decreases |segs|
  {
    if |segs| > 1 {
      NotThereYet(t, Sub(t, n, segs[0]).value, segs[1..]);
    }
  }

  /** And creating it again is refused. */
  lemma CreatedExists(t: Shape<Node>, scope: Node, a: Aml, p: Node, node: Node)
    requires WellFormed(t) && scope in t.kids && node !in t.kids && Place(t, scope, a) == Fresh(p, node.name)
    ensures WellFormed(WithKid(t, p, node)) && scope in WithKid(t, p, node).kids
    ensures Place(WithKid(t, p, node), scope, a) == Exists
  {
    AscendInGrown(t, p, node, scope, a.path.carets);
    CreatedSegsExist(t, Base(t, scope, a.path).value, a.path.segs, p, node);
  }

  lemma {:induction false} CreatedSegsExist(t: Shape<Node>, n: Node, segs: seq<Name>, p: Node, node: Node)
    requires WellFormed(t) && n in t.kids && segs != [] && node !in t.kids
    requires CreateSegs(t, n, segs) == Fresh(p, node.name)
    ensures WellFormed(WithKid(t, p, node)) && n in WithKid(t, p, node).kids
    ensures CreateSegs(WithKid(t, p, node), n, segs) == Exists
    decreases |segs|
  {
    SubInGrown(t, p, node, n, segs[0]);
    if |segs| > 1 {
      CreatedSegsExist(t, Sub(t, n, segs[0]).value, segs[1..], p, node);
    }
  }
}
