/**
  The block machine runs every well-nested program exactly as the structured semantics
  says, including programs that never end.
 */
module Simulation {
  import opened Prelude
  import opened ControlFlow
  import opened Structured

  // ----- single steps of the machine on encoded statements -----

  predicate At(code: seq<Byte>, p: nat, bytes: seq<Byte>) {
    p + |bytes| <= |code| && code[p..p + |bytes|] == bytes
  }

  lemma AtSplit(code: seq<Byte>, p: nat, a: seq<Byte>, b: seq<Byte>)
    requires At(code, p, a + b)
    ensures At(code, p, a) && At(code, p + |a|, b)
  {
    assert code[p..p + |a|] == (a + b)[..|a|];
    assert code[p + |a|..p + |a| + |b|] == (a + b)[|a|..];
  }

  lemma FetchAt<W>(env: Env<W>, code: seq<Byte>, p: nat, t: seq<Byte>)
    requires At(code, p, t) && Delimited(env, t)
    ensures FetchTerm(env, code, p) == Some(t)
  {
    assert code[p..] == t + code[p + |t|..];
  }

  lemma ParseAt(code: seq<Byte>, p: nat, pkg: seq<Byte>, payload: nat)
    requires At(code, p, pkg) && IsPkg(pkg, payload) && p + |pkg| + payload < U32
    ensures ParsePkg(code, p) == Some((p + |pkg|, p + |pkg| + payload))
  {
    assert code[p..] == pkg + code[p + |pkg|..];
    assert DecodePkg(code[p..]).Some?;
  }

  lemma StepTest<W(!new)>(
    m: Machine<W>, env: Env<W>, code: seq<Byte>, f: Frame<W>, kind: Kind, pkg: seq<Byte>, cond: seq<Byte>, payload: nat)
    requires Interprets(m, env, code)
    requires kind == IfBlock || kind == WhileBlock
    requires At(code, f.offset, [if kind == IfBlock then IF_OP else WHILE_OP] + pkg + cond)
    requires IsPkg(pkg, payload) && Delimited(env, cond) && !f.AtEnd()
    requires f.offset + 1 + |pkg| + payload < U32
    ensures m.step(f)
         == AfterTest(env, f, kind, cond, f.offset + 1 + |pkg| + |cond|, f.offset + 1 + |pkg| + payload)
  {
    var op := [if kind == IfBlock then IF_OP else WHILE_OP];
    AtSplit(code, f.offset, op + pkg, cond);
    AtSplit(code, f.offset, op, pkg);
    StepTestParts(m, env, code, f, kind, pkg, cond, payload);
  }

  lemma StepTestParts<W(!new)>(
    m: Machine<W>, env: Env<W>, code: seq<Byte>, f: Frame<W>, kind: Kind, pkg: seq<Byte>, cond: seq<Byte>, payload: nat)
    requires Interprets(m, env, code)
    requires kind == IfBlock || kind == WhileBlock
    requires At(code, f.offset, [if kind == IfBlock then IF_OP else WHILE_OP])
    requires At(code, f.offset + 1, pkg) && At(code, f.offset + 1 + |pkg|, cond)
    requires IsPkg(pkg, payload) && Delimited(env, cond) && !f.AtEnd()
    requires f.offset + 1 + |pkg| + payload < U32
    ensures m.step(f)
         == AfterTest(env, f, kind, cond, f.offset + 1 + |pkg| + |cond|, f.offset + 1 + |pkg| + payload)
  {
    StepIsTest(m, env, code, f, kind);
    ParseAt(code, f.offset + 1, pkg, payload);
    FetchAt(env, code, f.offset + 1 + |pkg|, cond);
    TestParsed(env, code, f, kind, f.offset + 1 + |pkg|, f.offset + 1 + |pkg| + payload, cond);
  }

  lemma TestParsed<W>(env: Env<W>, code: seq<Byte>, f: Frame<W>, kind: Kind, at: nat, end: nat, cond: seq<Byte>)
    requires ParsePkg(code, f.offset + 1) == Some((at, end)) && FetchTerm(env, code, at) == Some(cond)
    ensures StepConditional(env, code, f, kind) == AfterTest(env, f, kind, cond, at + |cond|, end)
  {
  }

  lemma StepIsTest<W(!new)>(m: Machine<W>, env: Env<W>, code: seq<Byte>, f: Frame<W>, kind: Kind)
    requires Interprets(m, env, code)
    requires kind == IfBlock || kind == WhileBlock
    requires At(code, f.offset, [if kind == IfBlock then IF_OP else WHILE_OP]) && !f.AtEnd()
    ensures m.step(f) == StepConditional(env, code, f, kind)
  {
    assert code[f.offset] == code[f.offset..f.offset + 1][0];
    assert Step(env, code, f) == StepConditional(env, code, f, kind);
  }

  lemma StepElseAt<W(!new)>(
    m: Machine<W>, env: Env<W>, code: seq<Byte>, f: Frame<W>, pkg: seq<Byte>, payload: nat)
    requires Interprets(m, env, code)
    requires At(code, f.offset, [ELSE_OP] + pkg)
    requires IsPkg(pkg, payload) && !f.AtEnd() && f.offset + 1 + |pkg| + payload < U32
    ensures m.step(f)
         == if f.skipElse then Running(f.(offset := f.offset + 1 + |pkg| + payload, skipElse := false))
            else BeginBlock(env, f.(offset := f.offset + 1 + |pkg|), ElseBlock, f.offset + 1, f.offset + 1 + |pkg| + payload)
  {
    AtSplit(code, f.offset, [ELSE_OP], pkg);
    ParseAt(code, f.offset + 1, pkg, payload);
    assert code[f.offset] == code[f.offset..f.offset + 1][0];
    assert Step(env, code, f) == StepElse(env, code, f);
  }

  lemma StepTermAt<W(!new)>(m: Machine<W>, env: Env<W>, code: seq<Byte>, f: Frame<W>, t: seq<Byte>)
    requires Interprets(m, env, code)
    requires At(code, f.offset, t) && Delimited(env, t) && !ControlOp(t[0]) && !f.AtEnd()
    ensures m.step(f) == match env.exec(t, f.world)
                         case Err(w, st) => Aborted(w, st)
                         case Ok(w) => Running(f.(offset := f.offset + |t|, skipElse := false, world := w))
  {
    FetchAt(env, code, f.offset, t);
    assert code[f.offset] == code[f.offset..f.offset + |t|][0];
    assert Step(env, code, f) == StepTerm(env, code, f);
  }

  lemma StepReturnAt<W(!new)>(m: Machine<W>, env: Env<W>, code: seq<Byte>, f: Frame<W>, v: seq<Byte>)
    requires Interprets(m, env, code)
    requires At(code, f.offset, [RETURN_OP] + v) && Delimited(env, v) && !f.AtEnd()
    ensures m.step(f) == match env.ret(v, f.world)
                         case Err(w, st) => Aborted(w, st)
                         case Ok(w) => Running(f.(offset := |code|, skipElse := false, world := w))
  {
    AtSplit(code, f.offset, [RETURN_OP], v);
    FetchAt(env, code, f.offset + 1, v);
    assert code[f.offset] == code[f.offset..f.offset + 1][0];
    assert Step(env, code, f) == StepReturn(env, code, f);
  }

  lemma StepLoopControlAt<W(!new)>(m: Machine<W>, env: Env<W>, code: seq<Byte>, f: Frame<W>, isBreak: bool)
    requires Interprets(m, env, code)
    requires At(code, f.offset, [if isBreak then BREAK_OP else CONTINUE_OP]) && !f.AtEnd()
    ensures m.step(f) == StepLoopControl(f, isBreak)
  {
    assert code[f.offset] == code[f.offset..f.offset + 1][0];
    assert Step(env, code, f) == StepLoopControl(f, isBreak);
  }

  lemma StepEnd<W(!new)>(m: Machine<W>, env: Env<W>, code: seq<Byte>, f: Frame<W>)
    requires Interprets(m, env, code)
    ensures f.AtEnd() ==> m.step(f) == Running(EndBlock(f))
    ensures !f.AtEnd() && f.offset == |code| ==> m.step(f) == Finished(f.world)
  {
    assert f.AtEnd() ==> Step(env, code, f) == Running(EndBlock(f));
    assert !f.AtEnd() && f.offset == |code| ==> Step(env, code, f) == Finished(f.world);
  }

  /** One step from `f` to `g`, then `n` more. */
  lemma RunThen<W>(m: Machine<W>, f: Frame<W>, g: Frame<W>, n: nat)
    requires m.step(f) == Running(g)
    ensures Run(m, n + 1, Running(f)) == Run(m, n, Running(g))
  {
  }

  lemma RunOne<W>(m: Machine<W>, f: Frame<W>)
    ensures Run(m, 1, Running(f)) == m.step(f)
  {
    assert Run(m, 0, m.step(f)) == m.step(f);
  }

  // ----- the simulation relation -----

  /** Inner blocks end no later than outer ones, and none after the method. */
  predicate Nested(bs: seq<Block>, size: nat) {
    && (forall i :: 0 <= i < |bs| ==> bs[i].end <= size)
    && (forall i, j :: 0 <= i < j < |bs| ==> bs[j].end <= bs[i].end)
  }

  /**
    `f` is about to run `len` bytes that lie in its innermost block, at place `at`; the
    last loop to end did not start inside those bytes.
   */
  ghost predicate Ready<W>(code: seq<Byte>, f: Frame<W>, len: nat, at: Place) {
    && |code| < U32 && |f.blocks| > 0 && Nested(f.blocks, |code|)
    && f.offset + len <= f.blocks[|f.blocks| - 1].end
    && !at.honest
    && at.inLoop == LastWhile(f.blocks).Some?
    && at.ends == (f.blocks[|f.blocks| - 1].end == |code|)
  }

  predicate NotInside(prev: nat, offset: nat, len: nat) {
    !(offset < prev < offset + len)
  }

  /** The innermost loop of `f` has just been popped by a jump to `target`. */
  ghost predicate LeftLoop<W>(f: Frame<W>, g: Frame<W>, isBreak: bool, w: W) {
    && LastWhile(f.blocks).Some?
    && var i := LastWhile(f.blocks).value;
    var b := f.blocks[i];
    && g.blocks == f.blocks[..i]
    && |g.spare| > 0 && g.spare[0] == b
    && g.offset == (if isBreak then b.end else b.begin)
    && g.prevWhile == b.begin + 1
    && g.prevExpiry == b.expiry
    && g.world == w
  }

  ghost predicate Passed<W>(f: Frame<W>, g: Frame<W>, len: nat, w: W) {
    && g.blocks == f.blocks
    && g.offset == f.offset + len
    && g.world == w
    && (g.prevWhile == f.prevWhile || f.offset < g.prevWhile < f.offset + len)
  }

  /** The configuration that `o`, reached from `f` by running `len` bytes, stands for. */
  ghost predicate Matches<W>(f: Frame<W>, len: nat, o: Outcome<W>, c: Config<W>) {
    match o
    case Normal(w) => c.Running? && Passed(f, c.frame, len, w)
    case Broke(w) => c.Running? && LeftLoop(f, c.frame, true, w)
    case Continued(w) => c.Running? && LeftLoop(f, c.frame, false, w)
    case Returned(w) => c == Finished(w)
    case Failed(w, st) => c == Aborted(w, st)
    case OutOfFuel => c.Running?
  }

  lemma LastWhilePush(bs: seq<Block>, b: Block)
    ensures b.kind == WhileBlock ==> LastWhile(bs + [b]) == Some(|bs|)
    ensures b.kind != WhileBlock ==> LastWhile(bs + [b]) == LastWhile(bs)
  {
    assert (bs + [b])[..|bs|] == bs;
  }

  lemma NestedPush(bs: seq<Block>, b: Block, size: nat)
    requires |bs| > 0 && Nested(bs, size) && b.end <= bs[|bs| - 1].end
    ensures Nested(bs + [b], size)
  {
  }

  /** Popping a block that is not a loop leaves the innermost loop where it was. */
  lemma PopKeepsLoop(bs: seq<Block>)
    requires |bs| > 0 && bs[|bs| - 1].kind != WhileBlock
    ensures LastWhile(bs[..|bs| - 1]) == LastWhile(bs)
  {
  }

  // ----- Return -----

  /** With every enclosing block ending at the method's end, blocks fall away up to the first loop. */
  lemma {:induction false} DrainToLoop<W(!new)>(m: Machine<W>, env: Env<W>, code: seq<Byte>, f: Frame<W>) returns (n: nat)
    requires Interprets(m, env, code)
    requires f.offset == |code| && Nested(f.blocks, |code|) && |f.blocks| > 0
    requires f.blocks[|f.blocks| - 1].end == |code| && LastWhile(f.blocks).Some?
    ensures Run(m, n, Running(f)).Running?
    ensures LeftLoop(f, Run(m, n, Running(f)).frame, false, f.world)
    decreases |f.blocks|
  {
    var g := EndBlock(f);
    StepEnd(m, env, code, f);
    if f.blocks[|f.blocks| - 1].kind == WhileBlock {
      RunOne(m, f);
      n := 1;
    } else {
      PopKeepsLoop(f.blocks);
      var i := LastWhile(f.blocks).value;
      var k := DrainToLoop(m, env, code, g);
      RunThen(m, f, g, k);
      assert g.blocks[..i] == f.blocks[..i];
      n := k + 1;
    }
  }

  lemma {:induction false} DrainToExit<W(!new)>(m: Machine<W>, env: Env<W>, code: seq<Byte>, f: Frame<W>) returns (n: nat)
    requires Interprets(m, env, code)
    requires f.offset == |code| && Nested(f.blocks, |code|)
    requires |f.blocks| == 0 || f.blocks[|f.blocks| - 1].end != |code| || LastWhile(f.blocks).None?
    ensures Run(m, n, Running(f)) == Finished(f.world)
    decreases |f.blocks|
  {
    StepEnd(m, env, code, f);
    if !f.AtEnd() {
      RunOne(m, f);
      n := 1;
    } else {
      var g := EndBlock(f);
      PopKeepsLoop(f.blocks);
      var k := DrainToExit(m, env, code, g);
      RunThen(m, f, g, k);
      n := k + 1;
    }
  }

  // ----- one statement, one list, one loop -----

  /** Joins a prefix that took `k` steps to a continuation that takes `n`. */
  lemma Chain<W>(m: Machine<W>, f: Frame<W>, k: nat, g: Frame<W>, n: nat)
    requires Run(m, k, Running(f)) == Running(g)
    ensures Run(m, k + n, Running(f)) == Run(m, n, Running(g))
  {
    RunAdd(m, k, n, Running(f));
  }

  /** An If or Else body that was pushed on `f` as `g` stands for the same outcome once its block is popped. */
  lemma CloseBranch<W(!new)>(
    m: Machine<W>, env: Env<W>, code: seq<Byte>, f: Frame<W>, len: nat, g: Frame<W>, bodyLen: nat, b: Block,
    o: Outcome<W>, k: nat)
    returns (n: nat)
    requires Interprets(m, env, code)
    requires b.kind == IfBlock || b.kind == ElseBlock
    requires g.blocks == f.blocks + [b] && g.prevWhile == f.prevWhile
    requires f.offset <= g.offset && g.offset + bodyLen == f.offset + len == b.end
    requires Matches(g, bodyLen, o, Run(m, k, Running(g)))
    ensures n >= k && Matches(f, len, o, Run(m, n, Running(g)))
    ensures o.Normal? ==> Run(m, n, Running(g)).frame.skipElse == (b.kind == IfBlock)
  {
    n := k;
    if o.Normal? {
      var h := Run(m, k, Running(g)).frame;
      StepEnd(m, env, code, h);
      assert EndBlock(h).blocks == f.blocks;
      RunOne(m, h);
      Chain(m, g, k, h, 1);
      n := k + 1;
    } else if o.Broke? || o.Continued? {
      LastWhilePush(f.blocks, b);
      var i := LastWhile(f.blocks).value;
      assert g.blocks[..i] == f.blocks[..i];
    }
  }

  /** What a simulation of `len` bytes from `f` to outcome `o` in `n` steps must show. */
  ghost predicate Simulates<W>(m: Machine<W>, fuel: nat, f: Frame<W>, len: nat, o: Outcome<W>, n: nat) {
    Matches(f, len, o, Run(m, n, Running(f))) && (o.OutOfFuel? ==> n >= fuel)
  }

  /** Prefixing one step that keeps the blocks and stays inside the bytes. */
  lemma StepThen<W>(m: Machine<W>, fuel: nat, f: Frame<W>, len: nat, g: Frame<W>, rest: nat, o: Outcome<W>, k: nat)
    requires m.step(f) == Running(g)
    requires g.blocks == f.blocks && g.prevWhile == f.prevWhile
    requires f.offset <= g.offset && g.offset + rest == f.offset + len
    requires Simulates(m, fuel, g, rest, o, k)
    ensures Simulates(m, fuel, f, len, o, k + 1)
  {
    RunThen(m, f, g, k);
  }

  lemma SimulateReturn<W(!new)>(
    m: Machine<W>, env: Env<W>, code: seq<Byte>, fuel: nat, v: seq<Byte>, f: Frame<W>, at: Place, last: bool)
    returns (n: nat)
    requires Interprets(m, env, code)
    requires Delimited(env, v) && At(code, f.offset, [RETURN_OP] + v)
    requires Ready(code, f, 1 + |v|, at)
    ensures Simulates(m, fuel, f, 1 + |v|, EvalStmt(env, fuel, Return(v), at, last, f.world), n)
  {
    StepReturnAt(m, env, code, f, v);
    RunOne(m, f);
    n := 1;
    match env.ret(v, f.world)
    case Err(w, st) =>
    case Ok(w) =>
      var g := f.(offset := |code|, skipElse := false, world := w);
      var k: nat;
      if at.inLoop && at.ends {
        k := DrainToLoop(m, env, code, g);
      } else {
        k := DrainToExit(m, env, code, g);
      }
      RunThen(m, f, g, k);
      n := k + 1;
  }

  /** The body of an If or Else, entered by one step from `f` to `g`. */
  lemma {:induction false} SimulateBranch<W(!new)>(
    m: Machine<W>, env: Env<W>, code: seq<Byte>, fuel: nat, body: Prog, f: Frame<W>, len: nat, g: Frame<W>,
    b: Block, at: Place)
    returns (n: nat)
    requires Interprets(m, env, code)
    requires WellFormed(env, body) && At(code, g.offset, Encode(body))
    requires m.step(f) == Running(g) && g.blocks == f.blocks + [b] && g.prevWhile == f.prevWhile
    requires b.kind == IfBlock || b.kind == ElseBlock
    requires f.offset <= g.offset && g.offset + |Encode(body)| == f.offset + len == b.end
    requires Ready(code, f, len, at) && NotInside(f.prevWhile, f.offset, len)
    ensures Simulates(m, fuel, f, len, Eval(env, fuel, body, at.(ends := b.end == |code|), g.world), n)
    ensures Eval(env, fuel, body, at.(ends := b.end == |code|), g.world).Normal?
        ==> Run(m, n, Running(f)).frame.skipElse == (b.kind == IfBlock)
    decreases fuel, body, 1
  {
    LastWhilePush(f.blocks, b);
    NestedPush(f.blocks, b, |code|);
    var at' := at.(ends := b.end == |code|);
    var o := Eval(env, fuel, body, at', g.world);
    var k := Simulate(m, env, code, fuel, body, g, at');
    k := CloseBranch(m, env, code, f, len, g, |Encode(body)|, b, o, k);
    RunThen(m, f, g, k);
    n := k + 1;
  }

  lemma {:induction false} SimulateIf<W(!new)>(
    m: Machine<W>, env: Env<W>, code: seq<Byte>, fuel: nat, s: Stmt, f: Frame<W>, at: Place, last: bool)
    returns (n: nat)
    requires Interprets(m, env, code)
    requires s.If? && WellFormedStmt(env, s) && At(code, f.offset, EncodeStmt(s))
    requires Ready(code, f, |EncodeStmt(s)|, at) && NotInside(f.prevWhile, f.offset, |EncodeStmt(s)|)
    requires last == (f.offset + |EncodeStmt(s)| == f.blocks[|f.blocks| - 1].end)
    ensures Simulates(m, fuel, f, |EncodeStmt(s)|, EvalStmt(env, fuel, s, at, last, f.world), n)
    decreases fuel, s, 0
  {
    var len := |EncodeStmt(s)|;
    AtSplit(code, f.offset, [IF_OP] + s.pkg + s.cond, Encode(s.body));
    StepTest(m, env, code, f, IfBlock, s.pkg, s.cond, |s.cond| + |Encode(s.body)|);
    RunOne(m, f);
    n := 1;
    var t := env.test(s.cond, f.world);
    if t.Ok? && t.value.0 {
      var g := m.step(f).frame;
      n := SimulateBranch(m, env, code, fuel, s.body, f, len, g, g.blocks[|f.blocks|], at);
    }
  }

  lemma {:induction false} Simulate<W(!new)>(
    m: Machine<W>, env: Env<W>, code: seq<Byte>, fuel: nat, p: Prog, f: Frame<W>, at: Place) returns (n: nat)
    requires Interprets(m, env, code)
    requires WellFormed(env, p) && At(code, f.offset, Encode(p))
    requires Ready(code, f, |Encode(p)|, at) && NotInside(f.prevWhile, f.offset, |Encode(p)|)
    requires f.offset + |Encode(p)| == f.blocks[|f.blocks| - 1].end
    ensures Simulates(m, fuel, f, |Encode(p)|, Eval(env, fuel, p, at, f.world), n)
    decreases fuel, p, 0
  {
    match p
    case End => n := 0;
    case Then(s, q) =>
      AtSplit(code, f.offset, EncodeStmt(s), Encode(q));
      NonEmpty(env, q);
      n := SimulateStmt(m, env, code, fuel, s, f, at, q.End?);
      var o := EvalStmt(env, fuel, s, at, q.End?, f.world);
      if o.Normal? {
        var g := Run(m, n, Running(f)).frame;
        var k := Simulate(m, env, code, fuel, q, g, at);
        Sequence(m, fuel, f, |EncodeStmt(s)|, n, g, |Encode(q)|, o.world, Eval(env, fuel, q, at, g.world), k);
        n := n + k;
      }
  }

  /** `k` steps over `len` bytes followed by a simulation of the next `rest` bytes. */
  lemma Sequence<W>(
    m: Machine<W>, fuel: nat, f: Frame<W>, len: nat, k: nat, g: Frame<W>, rest: nat, w: W, o: Outcome<W>, j: nat)
    requires Run(m, k, Running(f)) == Running(g) && Passed(f, g, len, w)
    requires Simulates(m, fuel, g, rest, o, j)
    ensures Simulates(m, fuel, f, len + rest, o, k + j)
  {
    Chain(m, f, k, g, j);
  }

  lemma NonEmpty<W>(env: Env<W>, p: Prog)
    requires WellFormed(env, p)
    ensures p.End? <==> |Encode(p)| == 0
  {
  }

  /** A taken branch is followed by its Else, which the flag makes the machine skip. */
  lemma SkipElse<W(!new)>(
    m: Machine<W>, env: Env<W>, code: seq<Byte>, f: Frame<W>, k: nat, thenLen: nat, pkg: seq<Byte>, payload: nat, w: W)
    requires Interprets(m, env, code)
    requires Run(m, k, Running(f)).Running? && Run(m, k, Running(f)).frame.skipElse
    requires Passed(f, Run(m, k, Running(f)).frame, thenLen, w)
    requires At(code, f.offset + thenLen, [ELSE_OP] + pkg) && IsPkg(pkg, payload)
    requires |f.blocks| > 0 && |code| < U32
    requires f.offset + thenLen + 1 + |pkg| + payload <= f.blocks[|f.blocks| - 1].end <= |code|
    ensures Run(m, k + 1, Running(f)).Running?
    ensures Passed(f, Run(m, k + 1, Running(f)).frame, thenLen + 1 + |pkg| + payload, w)
  {
    var g := Run(m, k, Running(f)).frame;
    StepElseAt(m, env, code, g, pkg, payload);
    RunOne(m, g);
    Chain(m, f, k, g, 1);
  }

  function ThenLength(s: Stmt): nat
    requires s.IfElse?
  {
    1 + |s.pkg| + |s.cond| + |Encode(s.body)|
  }

  lemma IfElseAt(code: seq<Byte>, p: nat, s: Stmt)
    requires s.IfElse? && At(code, p, EncodeStmt(s))
    ensures At(code, p, [IF_OP] + s.pkg + s.cond)
    ensures At(code, p + 1 + |s.pkg| + |s.cond|, Encode(s.body))
    ensures At(code, p + ThenLength(s), [ELSE_OP] + s.elsePkg)
    ensures At(code, p + ThenLength(s) + 1 + |s.elsePkg|, Encode(s.elseBody))
  {
    var thenHead, elseHead := [IF_OP] + s.pkg + s.cond, [ELSE_OP] + s.elsePkg;
    AtSplit(code, p, thenHead + Encode(s.body), elseHead + Encode(s.elseBody));
    AtSplit(code, p, thenHead, Encode(s.body));
    AtSplit(code, p + ThenLength(s), elseHead, Encode(s.elseBody));
  }

  lemma {:induction false} SimulateThen<W(!new)>(
    m: Machine<W>, env: Env<W>, code: seq<Byte>, fuel: nat, s: Stmt, f: Frame<W>, at: Place, g: Frame<W>)
    returns (n: nat)
    requires Interprets(m, env, code)
    requires s.IfElse? && WellFormedStmt(env, s) && At(code, f.offset, EncodeStmt(s))
    requires Ready(code, f, |EncodeStmt(s)|, at) && NotInside(f.prevWhile, f.offset, |EncodeStmt(s)|)
    requires m.step(f) == Running(g) && g.offset == f.offset + 1 + |s.pkg| + |s.cond| && g.prevWhile == f.prevWhile
    requires |g.blocks| == |f.blocks| + 1 && g.blocks[..|f.blocks|] == f.blocks
    requires g.blocks[|f.blocks|].kind == IfBlock && g.blocks[|f.blocks|].end == f.offset + ThenLength(s)
    ensures Simulates(m, fuel, f, |EncodeStmt(s)|, Eval(env, fuel, s.body, at.(ends := false), g.world), n)
    decreases fuel, s.body, 2
  {
    IfElseAt(code, f.offset, s);
    n := SimulateBranch(m, env, code, fuel, s.body, f, ThenLength(s), g, g.blocks[|f.blocks|], at);
    var o := Eval(env, fuel, s.body, at.(ends := false), g.world);
    if o.Normal? {
      SkipElse(m, env, code, f, n, ThenLength(s), s.elsePkg, |Encode(s.elseBody)|, o.world);
      n := n + 1;
    }
  }

  lemma {:induction false} SimulateElse<W(!new)>(
    m: Machine<W>, env: Env<W>, code: seq<Byte>, fuel: nat, s: Stmt, f: Frame<W>, at: Place, g: Frame<W>)
    returns (n: nat)
    requires Interprets(m, env, code)
    requires s.IfElse? && WellFormedStmt(env, s) && At(code, f.offset, EncodeStmt(s))
    requires Ready(code, f, |EncodeStmt(s)|, at) && NotInside(f.prevWhile, f.offset, |EncodeStmt(s)|)
    requires m.step(f) == Running(g) && g.offset == f.offset + ThenLength(s) && g.prevWhile == f.prevWhile
    requires g.blocks == f.blocks && !g.skipElse
    ensures Simulates(m, fuel, f, |EncodeStmt(s)|,
                      Eval(env, fuel, s.elseBody, at.(ends := f.offset + |EncodeStmt(s)| == |code|), g.world), n)
    decreases fuel, s.elseBody, 2
  {
    IfElseAt(code, f.offset, s);
    var rest := 1 + |s.elsePkg| + |Encode(s.elseBody)|;
    StepElseAt(m, env, code, g, s.elsePkg, |Encode(s.elseBody)|);
    var h := m.step(g).frame;
    var k := SimulateBranch(m, env, code, fuel, s.elseBody, g, rest, h, h.blocks[|g.blocks|], at);
    var at' := at.(ends := f.offset + |EncodeStmt(s)| == |code|);
    StepThen(m, fuel, f, |EncodeStmt(s)|, g, rest, Eval(env, fuel, s.elseBody, at', g.world), k);
    n := k + 1;
  }

  lemma {:induction false} SimulateIfElse<W(!new)>(
    m: Machine<W>, env: Env<W>, code: seq<Byte>, fuel: nat, s: Stmt, f: Frame<W>, at: Place, last: bool)
    returns (n: nat)
    requires Interprets(m, env, code)
    requires s.IfElse? && WellFormedStmt(env, s) && At(code, f.offset, EncodeStmt(s))
    requires Ready(code, f, |EncodeStmt(s)|, at) && NotInside(f.prevWhile, f.offset, |EncodeStmt(s)|)
    requires last == (f.offset + |EncodeStmt(s)| == f.blocks[|f.blocks| - 1].end)
    ensures Simulates(m, fuel, f, |EncodeStmt(s)|, EvalStmt(env, fuel, s, at, last, f.world), n)
    decreases fuel, s, 0
  {
    IfElseAt(code, f.offset, s);
    StepTest(m, env, code, f, IfBlock, s.pkg, s.cond, |s.cond| + |Encode(s.body)|);
    var t := env.test(s.cond, f.world);
    if t.Err? {
      RunOne(m, f);
      n := 1;
    } else if t.value.0 {
      n := SimulateThen(m, env, code, fuel, s, f, at, m.step(f).frame);
    } else {
      n := SimulateElse(m, env, code, fuel, s, f, at, m.step(f).frame);
    }
  }

  // ----- loops -----

  /** The block array as the next iteration of a loop with this deadline finds it. */
  ghost predicate Armed<W>(f: Frame<W>, deadline: Option<nat>, len: nat) {
    match deadline
    case None => NotInside(f.prevWhile, f.offset, len)
    case Some(d) => f.prevWhile == f.offset + 1 && f.prevExpiry == d && |f.spare| > 0 && f.spare[0].expiry == d
  }

  /** Iterations after `k > 0` steps back at the head of the loop. */
  lemma LoopBack<W>(m: Machine<W>, fuel: nat, f: Frame<W>, len: nat, k: nat, h: Frame<W>, o: Outcome<W>, j: nat)
    requires k > 0 && fuel > 0 && len > 1
    requires Run(m, k, Running(f)) == Running(h)
    requires h.blocks == f.blocks && h.offset == f.offset && h.prevWhile == f.offset + 1
    requires Simulates(m, fuel - 1, h, len, o, j)
    ensures Simulates(m, fuel, f, len, o, k + j)
  {
    Chain(m, f, k, h, j);
  }

  /** Entering a loop compares the clock with the loop's own deadline, wherever it is stored. */
  lemma EnterLoop<W>(env: Env<W>, f: Frame<W>, deadline: Option<nat>, len: nat, at: nat, w: W)
    requires Armed(f, deadline, len) && len > 1
    ensures var (now, w') := env.ticks(w);
            var c := BeginBlock(env, f.(offset := at, world := w), WhileBlock, f.offset + 1, f.offset + len);
            if deadline.Some? && now > deadline.value then c == Aborted(w', LoopTimeout)
            else
              var until := if deadline.Some? then deadline.value else (now + env.timeout) % U64;
              && c.Running? && c.frame.offset == at && c.frame.world == w' && c.frame.prevWhile == f.prevWhile
              && c.frame.blocks == f.blocks + [Block(WhileBlock, f.offset, f.offset + len, until)]
  {
  }

  /** A body that ends or continues brings the machine back to the head, with the deadline still in the slot. */
  lemma NextIteration<W(!new)>(
    m: Machine<W>, env: Env<W>, code: seq<Byte>, f: Frame<W>, len: nat, g: Frame<W>, bodyLen: nat, until: nat,
    o: Outcome<W>, k: nat)
    returns (n: nat, h: Frame<W>)
    requires Interprets(m, env, code) && (o.Normal? || o.Continued?)
    requires g.blocks == f.blocks + [Block(WhileBlock, f.offset, f.offset + len, until)]
    requires g.offset + bodyLen == f.offset + len
    requires Matches(g, bodyLen, o, Run(m, k, Running(g)))
    ensures Run(m, n, Running(g)) == Running(h)
    ensures h.blocks == f.blocks && h.offset == f.offset && h.world == o.world && Armed(h, Some(until), len)
  {
    h := Run(m, k, Running(g)).frame;
    n := k;
    if o.Normal? {
      StepEnd(m, env, code, h);
      RunOne(m, h);
      Chain(m, g, k, h, 1);
      h := EndBlock(h);
      n := k + 1;
    } else {
      LastWhilePush(f.blocks, g.blocks[|f.blocks|]);
    }
    assert h.blocks == f.blocks;
  }

  lemma {:induction false} SimulateLoop<W(!new)>(
    m: Machine<W>, env: Env<W>, code: seq<Byte>, fuel: nat, s: Stmt, f: Frame<W>, at: Place, deadline: Option<nat>)
    returns (n: nat)
    requires Interprets(m, env, code)
    requires s.While? && WellFormedStmt(env, s) && At(code, f.offset, EncodeStmt(s))
    requires |f.blocks| > 0 && Nested(f.blocks, |code|) && |code| < U32
    requires f.offset + |EncodeStmt(s)| <= f.blocks[|f.blocks| - 1].end
    requires at == Place(false, true, f.offset + |EncodeStmt(s)| == |code|)
    requires Armed(f, deadline, |EncodeStmt(s)|)
    ensures Simulates(m, fuel, f, |EncodeStmt(s)|, EvalLoop(env, fuel, s.cond, s.body, at, deadline, f.world), n)
    decreases fuel, s, 0
  {
    var len := |EncodeStmt(s)|;
    AtSplit(code, f.offset, [WHILE_OP] + s.pkg + s.cond, Encode(s.body));
    StepTest(m, env, code, f, WhileBlock, s.pkg, s.cond, |s.cond| + |Encode(s.body)|);
    RunOne(m, f);
    n := 1;
    var t := env.test(s.cond, f.world);
    if t.Ok? && t.value.0 {
      EnterLoop(env, f, deadline, len, f.offset + 1 + |s.pkg| + |s.cond|, t.value.1);
      if m.step(f).Running? {
        var g := m.step(f).frame;
        n := SimulateBody(m, env, code, fuel, s, f, g, at, g.blocks[|f.blocks|].expiry);
      }
    }
  }

  /** One iteration whose body is entered as `g`, and all that follow. */
  lemma {:induction false} SimulateBody<W(!new)>(
    m: Machine<W>, env: Env<W>, code: seq<Byte>, fuel: nat, s: Stmt, f: Frame<W>, g: Frame<W>, at: Place, until: nat)
    returns (n: nat)
    requires Interprets(m, env, code)
    requires s.While? && WellFormedStmt(env, s) && At(code, f.offset, EncodeStmt(s))
    requires |f.blocks| > 0 && Nested(f.blocks, |code|) && |code| < U32
    requires f.offset + |EncodeStmt(s)| <= f.blocks[|f.blocks| - 1].end
    requires at == Place(false, true, f.offset + |EncodeStmt(s)| == |code|)
    requires m.step(f) == Running(g)
    requires g.blocks == f.blocks + [Block(WhileBlock, f.offset, f.offset + |EncodeStmt(s)|, until)]
    requires g.offset == f.offset + 1 + |s.pkg| + |s.cond| && g.prevWhile == f.prevWhile
    requires NotInside(g.prevWhile, g.offset, |Encode(s.body)|)
    ensures Simulates(m, fuel, f, |EncodeStmt(s)|,
                      AfterBody(env, fuel, s.cond, s.body, at, until, Eval(env, fuel, s.body, at, g.world)), n)
    decreases fuel, s.body, 1
  {
    var len := |EncodeStmt(s)|;
    AtSplit(code, f.offset, [WHILE_OP] + s.pkg + s.cond, Encode(s.body));
    LastWhilePush(f.blocks, g.blocks[|f.blocks|]);
    NestedPush(f.blocks, g.blocks[|f.blocks|], |code|);
    var o := Eval(env, fuel, s.body, at, g.world);
    var k := Simulate(m, env, code, fuel, s.body, g, at);
    if o.Normal? || o.Continued? {
      var j, h := NextIteration(m, env, code, f, len, g, |Encode(s.body)|, until, o, k);
      RunThen(m, f, g, j);
      n := j + 1;
      if fuel > 0 {
        var i := SimulateLoop(m, env, code, fuel - 1, s, h, at, Some(until));
        LoopBack(m, fuel, f, len, n, h, EvalLoop(env, fuel - 1, s.cond, s.body, at, Some(until), h.world), i);
        n := n + i;
      }
    } else {
      RunThen(m, f, g, k);
      n := k + 1;
    }
  }

  lemma {:induction false} SimulateStmt<W(!new)>(
    m: Machine<W>, env: Env<W>, code: seq<Byte>, fuel: nat, s: Stmt, f: Frame<W>, at: Place, last: bool)
    returns (n: nat)
    requires Interprets(m, env, code)
    requires WellFormedStmt(env, s) && At(code, f.offset, EncodeStmt(s))
    requires Ready(code, f, |EncodeStmt(s)|, at) && NotInside(f.prevWhile, f.offset, |EncodeStmt(s)|)
    requires last == (f.offset + |EncodeStmt(s)| == f.blocks[|f.blocks| - 1].end)
    ensures Simulates(m, fuel, f, |EncodeStmt(s)|, EvalStmt(env, fuel, s, at, last, f.world), n)
    decreases fuel, s, 1
  {
    match s
    case Term(t) =>
      StepTermAt(m, env, code, f, t);
      RunOne(m, f);
      n := 1;
    case Break =>
      StepLoopControlAt(m, env, code, f, true);
      RunOne(m, f);
      n := 1;
    case Continue =>
      StepLoopControlAt(m, env, code, f, false);
      RunOne(m, f);
      n := 1;
    case Return(v) => n := SimulateReturn(m, env, code, fuel, v, f, at, last);
    case If(_, _, _) => n := SimulateIf(m, env, code, fuel, s, f, at, last);
    case IfElse(_, _, _, _, _) => n := SimulateIfElse(m, env, code, fuel, s, f, at, last);
    case While(_, _, _) =>
      n := SimulateLoop(m, env, code, fuel, s, f, at.(ends := at.ends && last, inLoop := true), None);
  }
}
