/**
  Looking names up: the AML NameString form (interpreter.c), the textual path form
  (namespace.c), and what both mean in a tree.
 */
module NameString {
  import opened Prelude
  import opened TreeShape
  import opened Namespace

  const ROOT_CHAR: Byte := 0x5C      // '\'
  const CARET: Byte := 0x5E          // '^'
  const DOT: Byte := 0x2E            // '.'
  const UNDERSCORE: Byte := 0x5F
  const DUAL_PREFIX: Byte := 0x2E
  const MULTI_PREFIX: Byte := 0x2F
  const NULL_NAME: Byte := 0x00

  /** is_valid_name_byte: digits, capitals and the underscore. */
  predicate NameByte(b: Byte) {
    0x30 <= b <= 0x39 || 0x41 <= b <= 0x5A || b == UNDERSCORE
  }

  predicate ValidSeg(s: Name) { NameByte(s[0]) && NameByte(s[1]) && NameByte(s[2]) && NameByte(s[3]) }

  predicate ValidSegs(ss: seq<Name>) { forall i :: 0 <= i < |ss| ==> ValidSeg(ss[i]) }

  // ----- what names mean -----

  ghost function FindIn(ns: seq<Node>, name: Name): (r: Option<Node>)
    ensures r.Some? ==> r.value in ns && r.value.name == name
    ensures r.None? ==> forall i :: 0 <= i < |ns| ==> ns[i].name != name
  {
    if ns == [] then None else if ns[0].name == name then Some(ns[0]) else FindIn(ns[1..], name)
  }

  /** The child of `n` with this name. */
  ghost function Sub(t: Shape<Node>, n: Node, name: Name): (r: Option<Node>)
    requires WellFormed(t) && n in t.kids
    ensures r.Some? ==> r.value in t.kids && r.value in t.kids[n] && r.value.name == name
  {
    assert KidsOk(t, n);
    FindIn(t.kids[n], name)
  }

  /** The nearest node of this name among the children of `n` and of its ancestors. */
  ghost function SearchUp(t: Shape<Node>, n: Node, name: Name): (r: Option<Node>)
    requires WellFormed(t) && n in t.kids
    ensures r.Some? ==> r.value in t.kids
    decreases t.rank[n]
  {
    var here := Sub(t, n, name);
    if here.Some? || n == t.root then here
    else
      RankPositive(t, n);
      RankOfParent(t, n);
      SearchUp(t, t.parent[n], name)
  }

  lemma RankPositive<N>(t: Shape<N>, n: N)
    requires WellFormed(t) && n in t.kids && n != t.root
    ensures t.rank[n] > 0 && n in t.parent
  {
    assert ParentOk(t, n) && KidsOk(t, t.parent[n]);
    assert t.kids[t.parent[n]][IndexIn(t.kids[t.parent[n]], n)] == n;
  }

  /** Following a path of names downwards. */
  ghost function Descend(t: Shape<Node>, n: Node, names: seq<Name>): (r: Option<Node>)
    requires WellFormed(t) && n in t.kids
    ensures r.Some? ==> r.value in t.kids
    decreases |names|
  {
    if names == [] then Some(n)
    else
      match Sub(t, n, names[0])
      case None => None
      case Some(k) => Descend(t, k, names[1..])
  }

  /** The `k`-th ancestor. */
  ghost function Ascend(t: Shape<Node>, n: Node, k: nat): (r: Option<Node>)
    requires WellFormed(t) && n in t.kids
    ensures r.Some? ==> r.value in t.kids
    decreases k
  {
    if k == 0 then Some(n)
    else if n == t.root then None
    else
      RankPositive(t, n);
      assert ParentOk(t, n);
      Ascend(t, t.parent[n], k - 1)
  }

  /** A name path: carets, perhaps a root character, then names. */
  datatype Path = Path(carets: nat, rooted: bool, segs: seq<Name>)
  {
    predicate Prefixed() { carets > 0 || rooted }
  }

  /** Where the prefix leads; a root character after a caret is illegal. */
  ghost function Base(t: Shape<Node>, scope: Node, p: Path): (r: Option<Node>)
    requires WellFormed(t) && scope in t.kids
    ensures r.Some? ==> r.value in t.kids
  {
    if p.rooted then (if p.carets > 0 then None else Some(t.root)) else Ascend(t, scope, p.carets)
  }

  /** The node a path names; `upward` allows the search above the scope that single names get. */
  ghost function Meaning(t: Shape<Node>, scope: Node, p: Path, upward: bool): Option<Node>
    requires WellFormed(t) && scope in t.kids
  {
    if upward && !p.Prefixed() && |p.segs| == 1 then SearchUp(t, scope, p.segs[0])
    else
      match Base(t, scope, p)
      case None => None
      case Some(b) => Descend(t, b, p.segs)
  }

  // ----- the textual form -----

  /** segment_to_name: up to four characters, padded with underscores at a dot or the end. */
  function TakeSeg(s: seq<Byte>): (r: (Name, seq<Byte>))
    ensures |r.1| <= |s| && (s != [] && s[0] != DOT ==> |r.1| < |s|)
  {
    var (a, s1) := TakeChar(s);
    var (b, s2) := TakeChar(s1);
    var (c, s3) := TakeChar(s2);
    var (d, s4) := TakeChar(s3);
    ([a, b, c, d], s4)
  }

  function TakeChar(s: seq<Byte>): (Byte, seq<Byte>) {
    if s == [] || s[0] == DOT then (UNDERSCORE, s) else (s[0], s[1..])
  }

  /** The names of a path without prefix: a dot before a name is skipped. */
  function Segments(s: seq<Byte>): seq<Name>
    decreases |s|
  {
    if s == [] then []
    else
      var (seg, rest) := TakeSeg(if s[0] == DOT then s[1..] else s);
      [seg] + Segments(rest)
  }

  /** Carets, then at most one root character, then names. */
  function ParseText(s: seq<Byte>): Path
    decreases |s|
  {
    if s == [] then Path(0, false, [])
    else if s[0] == CARET then var p := ParseText(s[1..]); p.(carets := p.carets + 1)
    else if s[0] == ROOT_CHAR then Path(0, true, Segments(s[1..]))
    else Path(0, false, Segments(s))
  }

  function Dotted(segs: seq<Name>): seq<Byte> {
    if segs == [] then [] else if |segs| == 1 then segs[0] else segs[0] + [DOT] + Dotted(segs[1..])
  }

  function Carets(k: nat): seq<Byte> { if k == 0 then [] else [CARET] + Carets(k - 1) }

  function Text(p: Path): seq<Byte> {
    Carets(p.carets) + (if p.rooted then [ROOT_CHAR] else []) + Dotted(p.segs)
  }

  lemma TakeValidSeg(n: Name, rest: seq<Byte>)
    requires ValidSeg(n)
    ensures TakeSeg(n + rest) == (n, rest)
  {
    assert (n + rest)[1..] == n[1..] + rest;
    assert (n + rest)[1..][1..] == n[2..] + rest;
    assert (n + rest)[1..][1..][1..] == n[3..] + rest;
    assert (n + rest)[1..][1..][1..][1..] == rest;
    assert [n[0], n[1], n[2], n[3]] == n;
  }

  lemma {:induction false} SegmentsOfDotted(segs: seq<Name>)
    requires ValidSegs(segs)
    ensures Segments(Dotted(segs)) == segs
    ensures segs != [] ==> Segments([DOT] + Dotted(segs)) == segs
    ensures segs != [] ==> Dotted(segs) != [] && NameByte(Dotted(segs)[0])
  {
    if segs != [] {
      var rest := if |segs| == 1 then [] else [DOT] + Dotted(segs[1..]);
      assert Dotted(segs) == segs[0] + rest;
      TakeValidSeg(segs[0], rest);
      assert ([DOT] + Dotted(segs))[1..] == Dotted(segs);
      SegmentsOfDotted(segs[1..]);
      assert segs == [segs[0]] + segs[1..];
    }
  }

  lemma ParseUnprefixed(segs: seq<Name>)
    requires ValidSegs(segs)
    ensures ParseText(Dotted(segs)) == Path(0, false, segs)
    ensures ParseText([ROOT_CHAR] + Dotted(segs)) == Path(0, true, segs)
  {
    SegmentsOfDotted(segs);
    assert ([ROOT_CHAR] + Dotted(segs))[1..] == Dotted(segs);
  }

  /** Printing a path of valid names and parsing the text gives the path back. */
  lemma {:induction false} ParseOfText(p: Path)
    requires ValidSegs(p.segs)
    ensures ParseText(Text(p)) == p
    decreases p.carets
  {
    if p.carets > 0 {
      ParseOfText(p.(carets := p.carets - 1));
      TextOfCaret(p);
    } else {
      ParseUnprefixed(p.segs);
      TextUnprefixed(p);
    }
  }

  lemma TextOfCaret(p: Path)
    requires p.carets > 0
    ensures Text(p) != [] && Text(p)[0] == CARET && Text(p)[1..] == Text(p.(carets := p.carets - 1))
  {
    assert Text(p) == [CARET] + Text(p.(carets := p.carets - 1));
  }

  lemma TextUnprefixed(p: Path)
    requires p.carets == 0
    ensures Text(p) == if p.rooted then [ROOT_CHAR] + Dotted(p.segs) else Dotted(p.segs)
  {
  }

  // ----- the AML form -----

  /** A parsed NameString; `bare` tells a lone NameSeg from one behind a count prefix. */
  datatype Aml = Aml(path: Path, bare: bool)
  {
    predicate JustOne() { bare && !path.Prefixed() }
  }

  function ParsePrefix(code: seq<Byte>, at: nat): Option<(nat, bool, nat)>
    decreases |code| - at
  {
    if at >= |code| then None
    else if code[at] == CARET then
      (match ParsePrefix(code, at + 1)
       case None => None
       case Some((carets, rooted, end)) => Some((carets + 1, rooted, end)))
    else if code[at] == ROOT_CHAR then Some((0, true, at + 1))
    else Some((0, false, at))
  }

  function TakeNames(code: seq<Byte>, at: nat, k: nat): seq<Name>
    requires at + 4 * k <= |code|
    decreases k
  {
    if k == 0 then [] else [code[at..at + 4]] + TakeNames(code, at + 4, k - 1)
  }

  /** How many names follow, where they start, and whether they are one bare NameSeg. */
  function ParseCount(code: seq<Byte>, at: nat): Option<(nat, nat, bool)> {
    if at >= |code| then None
    else if code[at] == DUAL_PREFIX then Some((2, at + 1, false))
    else if code[at] == MULTI_PREFIX then
      if at + 1 >= |code| || code[at + 1] == 0 then None else Some((code[at + 1], at + 2, false))
    else if code[at] == NULL_NAME then Some((0, at + 1, false))
    else Some((1, at, true))
  }

  /** The NameString at `at` and the offset after it. */
  function ParseAml(code: seq<Byte>, at: nat): Option<(Aml, nat)> {
    match ParsePrefix(code, at)
    case None => None
    case Some((carets, rooted, p)) =>
      match ParseCount(code, p)
      case None => None
      case Some((k, q, bare)) =>
        if q + 4 * k > |code| then None
        else Some((Aml(Path(carets, rooted, TakeNames(code, q, k)), bare), q + 4 * k))
  }

  datatype Outcome = Found(node: Node) | Missing | Invalid

  ghost function ResolveSegs(t: Shape<Node>, n: Node, segs: seq<Name>, justOne: bool): Outcome
    requires WellFormed(t) && n in t.kids
    decreases |segs|
  {
    if segs == [] then Found(n)
    else if !ValidSeg(segs[0]) then Invalid
    else
      match if justOne then SearchUp(t, n, segs[0]) else Sub(t, n, segs[0])
      case None => Missing
      case Some(k) => ResolveSegs(t, k, segs[1..], justOne)
  }

  /** What looking up a NameString means, errors included. */
  ghost function Resolve(t: Shape<Node>, scope: Node, a: Aml): Outcome
    requires WellFormed(t) && scope in t.kids
  {
    match Base(t, scope, a.path)
    case None => Invalid
    case Some(b) =>
      if a.path.segs == [] && !a.path.Prefixed() then Invalid else ResolveSegs(t, b, a.path.segs, a.JustOne())
  }

  // ----- the loops -----

  lemma SubStep(ns: seq<Node>, i: nat, name: Name)
    requires i < |ns|
    ensures FindIn(ns[i..], name) == if ns[i].name == name then Some(ns[i]) else FindIn(ns[i + 1..], name)
  {
    assert ns[i..][1..] == ns[i + 1..];
  }

  /** uacpi_namespace_node_find_sub_node */
  method FindSubNode(tree: Tree, parent: Node, name: Name) returns (r: Option<Node>)
    requires tree.Valid() && parent in tree.shape.kids
    ensures r == Sub(tree.shape, parent, name)
  {
    ghost var ks, i: nat := tree.shape.kids[parent], 0;
    assert Tree.Linked(tree.shape, parent);
    assert KidsOk(tree.shape, parent);
    var node := parent.child;
    assert ks[0..] == ks;
    while node != null
      invariant i <= |ks| && node == Tree.First(ks[i..])
      invariant FindIn(ks, name) == FindIn(ks[i..], name)
      decreases |ks| - i
    {
      SubStep(ks, i, name);
      assert Tree.NextInList(tree.shape, parent, i);
      if node.name == name {
        return Some(node);
      }
      node, i := node.next, i + 1;
    }
    r := None;
  }

  /** The upward search both resolvers share. */
  method FindUpward(tree: Tree, scope: Node, name: Name) returns (r: Option<Node>)
    requires tree.Valid() && scope in tree.shape.kids
    ensures r == SearchUp(tree.shape, scope, name)
  {
    var parent := scope;
    r := FindSubNode(tree, parent, name);
    while r.None? && parent != tree.root
      invariant parent in tree.shape.kids && r == Sub(tree.shape, parent, name)
      invariant SearchUp(tree.shape, scope, name) == SearchUp(tree.shape, parent, name)
      decreases tree.shape.rank[parent]
    {
      RankPositive(tree.shape, parent);
      RankOfParent(tree.shape, parent);
      assert Tree.Linked(tree.shape, parent);
      parent := parent.parent;
      r := FindSubNode(tree, parent, name);
    }
  }

  lemma {:induction false} AscendStep(t: Shape<Node>, n: Node, k: nat)
    requires WellFormed(t) && n in t.kids
    ensures Ascend(t, n, k + 1) == match Ascend(t, n, k)
                                   case None => None
                                   case Some(m) => if m == t.root then None else Some(t.parent[m])
    decreases k
  {
    if k > 0 && n != t.root {
      assert ParentOk(t, n);
      AscendStep(t, t.parent[n], k - 1);
    }
  }

  lemma {:induction false} AscendStuck(t: Shape<Node>, n: Node, k: nat, j: nat)
    requires WellFormed(t) && n in t.kids && k <= j && Ascend(t, n, k).None?
    ensures Ascend(t, n, j).None?
    decreases j
  {
    if k < j {
      AscendStuck(t, n, k, j - 1);
      AscendStep(t, n, j - 1);
    }
  }

  /** The prefix loop of resolve_name_string: the node it leads to, the offset after it, and whether there was one. */
  method WalkPrefix(tree: Tree, code: seq<Byte>, offset: nat, scope: Node) returns (r: Option<(Node, nat, bool)>)
    requires tree.Valid() && scope in tree.shape.kids
    ensures match ParsePrefix(code, offset)
            case None => r == None
            case Some((carets, rooted, end)) =>
              match Base(tree.shape, scope, Path(carets, rooted, []))
              case None => r == None
              case Some(b) => r == Some((b, end, carets > 0 || rooted))
  {
    var at, node := offset, scope;
    ghost var k: nat := 0;
    while at < |code| && code[at] == CARET
      invariant offset <= at && node in tree.shape.kids && Ascend(tree.shape, scope, k) == Some(node) && (k > 0 <==> at > offset)
      invariant ParsePrefix(code, offset) == match ParsePrefix(code, at)
                                             case None => None
                                             case Some((carets, rooted, end)) => Some((carets + k, rooted, end))
      decreases |code| - at
    {
      AscendStep(tree.shape, scope, k);
      if node == tree.root {
        forall j: nat | j > k ensures Ascend(tree.shape, scope, j).None? { AscendStuck(tree.shape, scope, k + 1, j); }
        return None;
      }
      RankPositive(tree.shape, node);
      assert ParentOk(tree.shape, node) && Tree.Linked(tree.shape, node);
      node, at, k := node.parent, at + 1, k + 1;
    }
    if at >= |code| {
      return None;
    }
    if code[at] == ROOT_CHAR {
      return if at > offset then None else Some((tree.root, at + 1, true));
    }
    r := Some((node, at, at > offset));
  }

  /** The NameSeg loop: `k` names at `at`, from `node`. */
  method WalkNames(tree: Tree, code: seq<Byte>, start: nat, count: nat, from: Node, justOne: bool) returns (out: Outcome)
    requires tree.Valid() && from in tree.shape.kids && start + 4 * count <= |code|
    ensures out == ResolveSegs(tree.shape, from, TakeNames(code, start, count), justOne)
  {
    var at, k: nat, node := start, count, from;
    ghost var whole := ResolveSegs(tree.shape, from, TakeNames(code, start, count), justOne);
    while k > 0
      invariant start <= at && at + 4 * k <= |code| && node in tree.shape.kids
      invariant whole == ResolveSegs(tree.shape, node, TakeNames(code, at, k), justOne)
    {
      var name := code[at..at + 4];
      assert TakeNames(code, at, k)[1..] == TakeNames(code, at + 4, k - 1);
      if !ValidSeg(name) {
        return Invalid;
      }
      var next;
      if justOne {
        next := FindUpward(tree, node, name);
      } else {
        next := FindSubNode(tree, node, name);
      }
      if next.None? {
        return Missing;
      }
      node, at, k := next.value, at + 4, k - 1;
    }
    out := Found(node);
  }

  /** resolve_name_string, for lookups: every byte string gets the meaning of its parse. */
  method ResolveNameString(tree: Tree, code: seq<Byte>, offset: nat, scope: Node) returns (out: Outcome, end: nat)
    requires tree.Valid() && scope in tree.shape.kids
    ensures match ParseAml(code, offset)
            case None => out == Invalid
            case Some((a, e)) => out == Resolve(tree.shape, scope, a) && (out != Invalid ==> end == e)
  {
    out, end := Invalid, offset;
    var prefix := WalkPrefix(tree, code, offset, scope);
    if prefix.None? {
      return;
    }
    var (node, at, prefixed) := prefix.value;
    var count := ParseCount(code, at);
    if count.None? {
      return;
    }
    var (k, start, bare) := count.value;
    if k == 0 && !prefixed {
      return;
    }
    if start + 4 * k > |code| {
      return;
    }
    out := WalkNames(tree, code, start, k, node, bare && !prefixed);
    end := start + 4 * k;
  }

  // ----- printing and text lookup -----

  /** name_string_to_path: the text of the parsed path. */
  method NameStringToPath(code: seq<Byte>, offset: nat) returns (r: Option<seq<Byte>>)
    ensures r == match ParseAml(code, offset) case None => None case Some((a, _)) => Some(Text(a.path))
  {
    var at, prefix: seq<Byte> := offset, [];
    ghost var k: nat := 0;
    while at < |code| && code[at] == CARET
      invariant offset <= at && prefix == Carets(k)
      invariant ParsePrefix(code, offset) == match ParsePrefix(code, at)
                                             case None => None
                                             case Some((carets, rooted, end)) => Some((carets + k, rooted, end))
      decreases |code| - at
    {
      CaretsAppend(k);
      prefix, at, k := prefix + [CARET], at + 1, k + 1;
    }
    if at >= |code| {
      return None;
    }
    if code[at] == ROOT_CHAR {
      prefix, at := prefix + [ROOT_CHAR], at + 1;
    }
    var count := ParseCount(code, at);
    if count.None? {
      return None;
    }
    var (n, start, _) := count.value;
    if start + 4 * n > |code| {
      return None;
    }
    var names := PrintNames(code, start, n);
    assert Carets(k) + [] == Carets(k);
    r := Some(prefix + names);
  }

  lemma {:induction false} CaretsAppend(k: nat)
    ensures Carets(k) + [CARET] == Carets(k + 1)
  {
    if k > 0 {
      CaretsAppend(k - 1);
      assert Carets(k) + [CARET] == [CARET] + (Carets(k - 1) + [CARET]);
    }
  }

  /** The first of `k` names, a dot if others follow, and the others. */
  lemma DottedStep(code: seq<Byte>, at: nat, k: nat)
    requires k > 0 && at + 4 * k <= |code|
    ensures Dotted(TakeNames(code, at, k)) == code[at..at + 4] + (if k == 1 then [] else [DOT] + Dotted(TakeNames(code, at + 4, k - 1)))
  {
    var names := TakeNames(code, at, k);
    assert names[0] == code[at..at + 4] && names[1..] == TakeNames(code, at + 4, k - 1);
    TakeNamesLength(code, at + 4, k - 1);
  }

  /** The copying loop: names separated by dots. */
  method PrintNames(code: seq<Byte>, start: nat, count: nat) returns (r: seq<Byte>)
    requires start + 4 * count <= |code|
    ensures r == Dotted(TakeNames(code, start, count))
  {
    r := [];
    var at, k: nat := start, count;
    ghost var all, rest := Dotted(TakeNames(code, start, count)), Dotted(TakeNames(code, start, count));
    while k > 0
      invariant start <= at && at + 4 * k <= |code|
      invariant rest == Dotted(TakeNames(code, at, k)) && r + rest == all
    {
      DottedStep(code, at, k);
      r := r + code[at..at + 4];
      at, k := at + 4, k - 1;
      rest := Dotted(TakeNames(code, at, k));
      if k > 0 {
        r := r + [DOT];
      }
    }
  }

  /** uacpi_namespace_node_do_find: the meaning of the parsed text. */
  method DoFind(tree: Tree, parent: Node, path: seq<Byte>, upward: bool) returns (r: Option<Node>)
    requires tree.Valid() && parent in tree.shape.kids
    ensures r == Meaning(tree.shape, parent, ParseText(path), upward)
  {
    var prefix := WalkTextPrefix(tree, path, parent);
    if prefix.None? {
      return None;
    }
    var (node, left, prefixed) := prefix.value;
    if !prefixed && upward && left != [] {
      var (seg, rest) := TakeSeg(if left[0] == DOT then left[1..] else left);
      if rest == [] {
        r := FindUpward(tree, parent, seg);
        return;
      }
    }
    r := WalkSegments(tree, left, node);
  }

  /** Its prefix loop: the node reached, the text left, and whether there was a prefix. */
  method WalkTextPrefix(tree: Tree, path: seq<Byte>, scope: Node) returns (r: Option<(Node, seq<Byte>, bool)>)
    requires tree.Valid() && scope in tree.shape.kids
    ensures var p := ParseText(path);
            match Base(tree.shape, scope, p)
            case None => r == None
            case Some(b) =>
              r.Some? && r.value.0 == b && r.value.2 == p.Prefixed() && Segments(r.value.1) == p.segs
  {
    var left, node := path, scope;
    ghost var k: nat := 0;
    while left != [] && left[0] == CARET
      invariant |left| + k == |path| && node in tree.shape.kids && Ascend(tree.shape, scope, k) == Some(node)
      invariant var p := ParseText(left); ParseText(path) == p.(carets := p.carets + k)
      decreases |left|
    {
      AscendStep(tree.shape, scope, k);
      if node == tree.root {
        AscendStuck(tree.shape, scope, k + 1, ParseText(path).carets);
        return None;
      }
      RankPositive(tree.shape, node);
      assert ParentOk(tree.shape, node) && Tree.Linked(tree.shape, node);
      node, left, k := node.parent, left[1..], k + 1;
    }
    if left != [] && left[0] == ROOT_CHAR {
      return if |left| < |path| then None else Some((tree.root, left[1..], true));
    }
    r := Some((node, left, |left| < |path|));
  }

  /** Its segment loop. */
  method WalkSegments(tree: Tree, text: seq<Byte>, from: Node) returns (r: Option<Node>)
    requires tree.Valid() && from in tree.shape.kids
    ensures r == Descend(tree.shape, from, Segments(text))
  {
    var left, node := text, from;
    while left != []
      invariant node in tree.shape.kids
      invariant Descend(tree.shape, from, Segments(text)) == Descend(tree.shape, node, Segments(left))
      decreases |left|
    {
      var (seg, rest) := TakeSeg(if left[0] == DOT then left[1..] else left);
      assert Segments(left)[1..] == Segments(rest);
      var next := FindSubNode(tree, node, seg);
      if next.None? {
        return None;
      }
      node, left := next.value, rest;
    }
    r := Some(node);
  }

  // ----- the two resolvers agree -----

  ghost function NodeOf(o: Outcome): Option<Node> { if o.Found? then Some(o.node) else None }

  lemma {:induction false} ResolveSegsDescends(t: Shape<Node>, n: Node, segs: seq<Name>)
    requires WellFormed(t) && n in t.kids && ValidSegs(segs)
    ensures NodeOf(ResolveSegs(t, n, segs, false)) == Descend(t, n, segs)
    decreases |segs|
  {
    if segs != [] {
      var k := Sub(t, n, segs[0]);
      if k.Some? {
        ResolveSegsDescends(t, k.value, segs[1..]);
      }
    }
  }

  /** A single name behind a count prefix: the text form forgets the prefix. */
  predicate CountedOne(a: Aml) {
    !a.path.Prefixed() && |a.path.segs| == 1 && !a.bare
  }

  /** No ancestor of `n`, itself apart, has a child of this name. */
  ghost predicate NoneAbove(t: Shape<Node>, n: Node, name: Name)
    requires WellFormed(t) && n in t.kids
  {
    forall k: nat :: k > 0 && Ascend(t, n, k).Some? ==> Sub(t, Ascend(t, n, k).value, name).None?
  }

  /** The upward search fails exactly if neither the node nor an ancestor has a child of that name. */
  lemma {:induction false} SearchUpNone(t: Shape<Node>, n: Node, name: Name)
    requires WellFormed(t) && n in t.kids
    ensures SearchUp(t, n, name).None? <==> Sub(t, n, name).None? && NoneAbove(t, n, name)
    decreases t.rank[n]
  {
    if n != t.root {
      RankPositive(t, n);
      RankOfParent(t, n);
      var p := t.parent[n];
      SearchUpNone(t, p, name);
      assert Ascend(t, p, 0) == Some(p);
      forall k: nat | k > 0 ensures Ascend(t, n, k) == Ascend(t, p, k - 1) { }
      if NoneAbove(t, n, name) {
        assert Sub(t, p, name).None? by { assert Ascend(t, n, 1) == Some(p); }
        forall k: nat | k > 0 && Ascend(t, p, k).Some? ensures Sub(t, Ascend(t, p, k).value, name).None? {
          assert Ascend(t, n, k + 1) == Ascend(t, p, k);
        }
      }
      if Sub(t, p, name).None? && NoneAbove(t, p, name) {
        forall k: nat | k > 0 && Ascend(t, n, k).Some? ensures Sub(t, Ascend(t, n, k).value, name).None? {
          assert Ascend(t, n, k) == Ascend(t, p, k - 1);
        }
      }
    }
  }

  /**
    Direct lookup of a NameString with valid names and printing it then resolving the
    text name the same node, except that a lone name behind a MultiNamePrefix is looked
    for above the scope only by the second: they agree if and only if the scope has a child
    of that name or no ancestor of the scope has one.
   */
  lemma ResolversAgree(t: Shape<Node>, scope: Node, a: Aml)
    requires WellFormed(t) && scope in t.kids && ValidSegs(a.path.segs)
    requires a.path.segs != [] || a.path.Prefixed()
    requires a.bare ==> |a.path.segs| == 1
    ensures ParseText(Text(a.path)) == a.path
    ensures NodeOf(Resolve(t, scope, a)) == Meaning(t, scope, a.path, true)
       <==> (CountedOne(a) ==> Sub(t, scope, a.path.segs[0]).Some? || NoneAbove(t, scope, a.path.segs[0]))
  {
    ParseOfText(a.path);
    var b := Base(t, scope, a.path);
    if b.Some? {
      ResolveSegsDescends(t, b.value, a.path.segs);
    }
    if !a.path.Prefixed() && |a.path.segs| == 1 {
      assert b == Some(scope);
      assert a.path.segs[1..] == [];
      var k, u := Sub(t, scope, a.path.segs[0]), SearchUp(t, scope, a.path.segs[0]);
      assert Descend(t, scope, a.path.segs) == k;
      assert NodeOf(ResolveSegs(t, scope, a.path.segs, true)) == u;
      SearchUpNone(t, scope, a.path.segs[0]);
    }
  }

  /** So it is for every NameString in every byte string, a NullName alone and invalid names apart. */
  lemma BytesAgree(t: Shape<Node>, scope: Node, code: seq<Byte>, at: nat)
    requires WellFormed(t) && scope in t.kids && ParseAml(code, at).Some?
    ensures var (a, _) := ParseAml(code, at).value;
            ValidSegs(a.path.segs) && (a.path.segs != [] || a.path.Prefixed()) ==>
              (NodeOf(Resolve(t, scope, a)) == Meaning(t, scope, ParseText(Text(a.path)), true)
               <==> (CountedOne(a) ==> Sub(t, scope, a.path.segs[0]).Some? || NoneAbove(t, scope, a.path.segs[0])))
  {
    ParsedKind(code, at);
    var (a, _) := ParseAml(code, at).value;
    if ValidSegs(a.path.segs) && (a.path.segs != [] || a.path.Prefixed()) {
      ResolversAgree(t, scope, a);
    }
  }

  /** Every NameString in the bytes is of the kind the theorem is about. */
  lemma ParsedKind(code: seq<Byte>, at: nat)
    requires ParseAml(code, at).Some?
    ensures var (a, end) := ParseAml(code, at).value;
            (a.bare ==> |a.path.segs| == 1) && at < end <= |code|
  {
    ParsePrefixBounds(code, at);
    var (_, _, p) := ParsePrefix(code, at).value;
    var (k, q, bare) := ParseCount(code, p).value;
    TakeNamesLength(code, q, k);
  }

  lemma {:induction false} ParsePrefixBounds(code: seq<Byte>, at: nat)
    requires ParsePrefix(code, at).Some?
    ensures at <= ParsePrefix(code, at).value.2 <= |code|
    decreases |code| - at
  {
    if code[at] == CARET {
      ParsePrefixBounds(code, at + 1);
    }
  }

  lemma {:induction false} TakeNamesLength(code: seq<Byte>, at: nat, k: nat)
    requires at + 4 * k <= |code|
    ensures |TakeNames(code, at, k)| == k
    decreases k
  {
    if k > 0 {
      TakeNamesLength(code, at + 4, k - 1);
    }
  }
}
