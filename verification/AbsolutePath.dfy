/** Absolute paths (namespace.c): printing the path of a node backwards, and finding it again. */
module AbsolutePath {
  import opened Prelude
  import opened TreeShape
  import opened Namespace
  import opened NameString

  /** The names from the root, which has none, down to `n`. */
  ghost function Names(t: Shape<Node>, n: Node): (r: seq<Name>)
    requires WellFormed(t) && n in t.kids
    ensures |r| == t.rank[n]
    decreases t.rank[n]
  {
    if n == t.root then []
    else
      RankPositive(t, n);
      RankOfParent(t, n);
      Names(t, t.parent[n]) + [n.name]
  }

  ghost function PathOf(t: Shape<Node>, n: Node): Path
    requires WellFormed(t) && n in t.kids
  {
    Path(0, true, Names(t, n))
  }

  lemma {:induction false} DottedAppend(a: seq<Name>, x: Name)
    ensures Dotted(a + [x]) == (if a == [] then x else Dotted(a) + [DOT] + x)
    ensures |Dotted(a + [x])| == 5 * |a| + 4
  {
    if a != [] {
      DottedAppend(a[1..], x);
      assert (a + [x])[1..] == a[1..] + [x];
      assert a == [a[0]] + a[1..];
    }
  }

  lemma DottedLength(a: seq<Name>)
    ensures |Dotted(a)| == if a == [] then 0 else 5 * |a| - 1
  {
    if a != [] {
      DottedAppend(a[..|a| - 1], a[|a| - 1]);
      assert a == a[..|a| - 1] + [a[|a| - 1]];
    }
  }

  lemma OnlyRootHasNoParent(tree: Tree, n: Node)
    requires tree.Valid() && n in tree.shape.kids
    ensures n.parent == null <==> n == tree.root
    ensures n == tree.root || (n.parent in tree.shape.kids && tree.shape.rank[n.parent] + 1 == tree.shape.rank[n])
  {
    if n != tree.root {
      RankPositive(tree.shape, n);
      RankOfParent(tree.shape, n);
      assert Tree.Linked(tree.shape, n);
    }
  }

  /** uacpi_namespace_node_depth */
  method Depth(tree: Tree, node: Node) returns (depth: nat)
    requires tree.Valid() && node in tree.shape.kids
    ensures depth == tree.shape.rank[node]
  {
    depth := 0;
    var n := node;
    while n.parent != null
      invariant n in tree.shape.kids && depth + tree.shape.rank[n] == tree.shape.rank[node]
      decreases tree.shape.rank[n]
    {
      OnlyRootHasNoParent(tree, n);
      n, depth := n.parent, depth + 1;
    }
    OnlyRootHasNoParent(tree, n);
  }

  /** Four characters at `at`. */
  method PutName(buf: array<Byte>, at: nat, name: Name)
    requires at + 4 <= buf.Length
    modifies buf
    ensures buf[..] == old(buf[..at]) + name + old(buf[at + 4..])
  {
    buf[at], buf[at + 1], buf[at + 2], buf[at + 3] := name[0], name[1], name[2], name[3];
  }

  /** A name in front of what ends the buffer, with a dot before it unless it comes first. */
  method PutBefore(buf: array<Byte>, offset: nat, name: Name, dotted: bool) returns (at: nat)
    requires (if dotted then 6 else 5) <= offset <= buf.Length
    modifies buf
    ensures at == offset - (if dotted then 5 else 4) && buf[0] == old(buf[0])
    ensures buf[at..] == (if dotted then [DOT] else []) + name + old(buf[offset..])
  {
    ghost var tail := buf[offset..];
    at := offset - 4;
    PutName(buf, at, name);
    assert buf[at..] == name + tail;
    if dotted {
      at := at - 1;
      buf[at] := DOT;
      assert buf[at..] == [DOT] + (name + tail);
    }
  }

  /** The path of a node is that of its parent, a dot unless the parent is the root, and its name. */
  lemma NamesStep(tree: Tree, node: Node)
    requires tree.Valid() && node in tree.shape.kids && node != tree.root
    ensures node.parent != null && node in tree.shape.parent && tree.shape.parent[node] == node.parent && node.parent in tree.shape.kids
    ensures Dotted(Names(tree.shape, node))
         == Dotted(Names(tree.shape, node.parent)) + ((if node.parent != tree.root then [DOT] else []) + node.name)
    ensures node.parent == tree.root <==> Names(tree.shape, node.parent) == []
  {
    RankPositive(tree.shape, node);
    RankOfParent(tree.shape, node);
    assert Tree.Linked(tree.shape, node);
    var above := Names(tree.shape, node.parent);
    DottedAppend(above, node.name);
    if node.parent != tree.root { RankPositive(tree.shape, node.parent); }
    assert Dotted(above) + [DOT] + node.name == Dotted(above) + ([DOT] + node.name);
  }

  /** One turn of the loop: a name, and the dot before it unless the parent is the root. */
  method PrependName(tree: Tree, buf: array<Byte>, offset: nat, node: Node, ghost whole: seq<Byte>) returns (at: nat)
    requires tree.Valid() && node in tree.shape.kids && node != tree.root
    requires offset == 1 + |Dotted(Names(tree.shape, node))| && offset < buf.Length && buf[0] == ROOT_CHAR
    requires [ROOT_CHAR] + Dotted(Names(tree.shape, node)) + buf[offset..] == whole
    modifies buf
    ensures node in tree.shape.parent && tree.shape.parent[node] in tree.shape.kids
    ensures at == 1 + |Dotted(Names(tree.shape, tree.shape.parent[node]))| && at < buf.Length && buf[0] == ROOT_CHAR
    ensures [ROOT_CHAR] + Dotted(Names(tree.shape, tree.shape.parent[node])) + buf[at..] == whole
  {
    NamesStep(tree, node);
    ghost var above := Names(tree.shape, node.parent);
    ghost var front, sep, tail := Dotted(above), if node.parent != tree.root then [DOT] else [], buf[offset..];
    DottedLength(above);
    at := PutBefore(buf, offset, node.name, node.parent != tree.root);
    assert [ROOT_CHAR] + (front + (sep + node.name)) + tail == [ROOT_CHAR] + front + (sep + node.name + tail);
  }

  /** uacpi_namespace_node_generate_absolute_path: fills the buffer exactly, terminator included. */
  method GenerateAbsolutePath(tree: Tree, node: Node) returns (buf: array<Byte>)
    requires tree.Valid() && node in tree.shape.kids
    ensures fresh(buf) && buf[..] == Text(PathOf(tree.shape, node)) + [0]
  {
    var d := Depth(tree, node);
    var depth := d + 1;
    DottedLength(Names(tree.shape, node));
    var bytesNeeded := 1 + (depth - 1) * 4 + (if depth > 2 then depth - 2 else 0) + 1;
    buf := new Byte[bytesNeeded];
    buf[0] := ROOT_CHAR;
    var offset := bytesNeeded - 1;
    buf[offset] := 0;
    ghost var whole := [ROOT_CHAR] + Dotted(Names(tree.shape, node)) + [0];
    assert buf[offset..] == [0];
    var n := node;
    while n != tree.root
      invariant n in tree.shape.kids && fresh(buf) && tree.Valid()
      invariant offset == 1 + |Dotted(Names(tree.shape, n))| && offset < buf.Length && buf[0] == ROOT_CHAR
      invariant [ROOT_CHAR] + Dotted(Names(tree.shape, n)) + buf[offset..] == whole
      decreases tree.shape.rank[n]
    {
      RankPositive(tree.shape, n);
      RankOfParent(tree.shape, n);
      assert Tree.Linked(tree.shape, n);
      offset := PrependName(tree, buf, offset, n, whole);
      n := n.parent;
    }
    assert buf[..] == [ROOT_CHAR] + [] + buf[1..];
    assert Carets(0) + [ROOT_CHAR] == [ROOT_CHAR];
  }

  // ----- finding it again -----

  ghost predicate UniqueNames(t: Shape<Node>) {
    forall n, i, j :: n in t.kids && 0 <= i < j < |t.kids[n]| ==> t.kids[n][i].name != t.kids[n][j].name
  }

  lemma {:induction false} FindInUnique(ns: seq<Node>, i: nat)
    requires i < |ns| && forall a, b :: 0 <= a < b < |ns| ==> ns[a].name != ns[b].name
    ensures FindIn(ns, ns[i].name) == Some(ns[i])
  {
    if i > 0 {
      FindInUnique(ns[1..], i - 1);
    }
  }

  lemma {:induction false} DescendAppend(t: Shape<Node>, n: Node, a: seq<Name>, x: Name)
    requires WellFormed(t) && n in t.kids
    ensures Descend(t, n, a + [x]) == match Descend(t, n, a) case None => None case Some(m) => Sub(t, m, x)
    decreases |a|
  {
    if a == [] {
      var k := Sub(t, n, x);
      assert ([x])[1..] == [];
      assert a + [x] == [x];
    } else {
      var k := Sub(t, n, a[0]);
      assert (a + [x])[1..] == a[1..] + [x];
      if k.Some? {
        DescendAppend(t, k.value, a[1..], x);
      }
    }
  }

  lemma {:induction false} DescendNames(t: Shape<Node>, n: Node)
    requires WellFormed(t) && n in t.kids && UniqueNames(t)
    ensures Descend(t, t.root, Names(t, n)) == Some(n)
    decreases t.rank[n]
  {
    if n != t.root {
      RankPositive(t, n);
      RankOfParent(t, n);
      var p := t.parent[n];
      DescendNames(t, p);
      DescendAppend(t, t.root, Names(t, p), n.name);
      assert ParentOk(t, n);
      FindInUnique(t.kids[p], IndexIn(t.kids[p], n));
    }
  }

  /** The text of a node's absolute path finds that node from every scope. */
  lemma AbsolutePathFindsNode(t: Shape<Node>, scope: Node, n: Node, upward: bool)
    requires WellFormed(t) && scope in t.kids && n in t.kids && UniqueNames(t)
    requires ValidSegs(Names(t, n))
    ensures Meaning(t, scope, ParseText(Text(PathOf(t, n))), upward) == Some(n)
  {
    ParseOfText(PathOf(t, n));
    DescendNames(t, n);
  }

  /** A root with two children. */
  ghost function Pair(root: Node, a: Node, b: Node): Shape<Node> {
    Shape<Node>.Shape(root, map[root := [a, b], a := [], b := []], map[a := root, b := root],
                      map[root := 0, a := 1, b := 1], 1)
  }

  lemma PairWellFormed(root: Node, a: Node, b: Node)
    requires root != a && a != b && b != root
    ensures WellFormed(Pair(root, a, b))
  {
    var t := Pair(root, a, b);
    assert t.parent.Keys == t.kids.Keys - {root};
  }

  /** A MultiNamePath of one name, looked up from the sibling of the node it names. */
  lemma CountedOneDiffers(root: Node, a: Node, b: Node)
    requires root != a && a != b && b != root && a.name == [0x41, 0x41, 0x41, 0x41] != b.name
    ensures ParseAml([MULTI_PREFIX, 1, 0x41, 0x41, 0x41, 0x41], 0) == Some((Aml(Path(0, false, [a.name]), false), 6))
    ensures WellFormed(Pair(root, a, b))
    ensures Resolve(Pair(root, a, b), b, Aml(Path(0, false, [a.name]), false)) == Missing
    ensures Meaning(Pair(root, a, b), b, Path(0, false, [a.name]), true) == Some(a)
  {
    PairWellFormed(root, a, b);
    var t, code: seq<Byte> := Pair(root, a, b), [MULTI_PREFIX, 1, 0x41, 0x41, 0x41, 0x41];
    assert code[2..6] == a.name;
    assert TakeNames(code, 2, 1) == [code[2..6]] + TakeNames(code, 6, 0) == [a.name];
    assert ParsePrefix(code, 0) == Some((0, false, 0)) && ParseCount(code, 0) == Some((1, 2, false));
    assert Sub(t, b, a.name) == None;
    assert SearchUp(t, root, a.name) == Sub(t, root, a.name) == Some(a);
  }
}
