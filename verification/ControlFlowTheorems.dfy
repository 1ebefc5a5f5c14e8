/** What the simulation says about whole method bodies. */
module ControlFlowTheorems {
  import opened Prelude
  import opened ControlFlow
  import opened Structured
  import opened Simulation

  /** The interpreter, started on these bytes, stops with result `r`. */
  ghost predicate Halts<W>(env: Env<W>, code: seq<Byte>, w: W, r: Config<W>) {
    !r.Running? && exists n: nat :: Run(Interpreter(env, code), n, Initial(code, w)) == r
  }

  ghost predicate EndsAs<W>(o: Outcome<W>, r: Config<W>) {
    match o
    case Normal(w) => r == Finished(w)
    case Returned(w) => r == Finished(w)
    case Failed(w, st) => r == Aborted(w, st)
    case _ => false
  }

  /** The structured semantics gives result `r`.  See `Place` for `honest`. */
  ghost predicate Computes<W>(env: Env<W>, p: Prog, honest: bool, w: W, r: Config<W>) {
    exists fuel: nat :: EndsAs(Eval(env, fuel, p, Place(honest, false, true), w), r)
  }

  /** The frame of a new call is ready for the whole method. */
  lemma InitialReady<W>(code: seq<Byte>, w: W)
    requires |code| < U32
    ensures var f := Initial(code, w).frame;
            && Ready(code, f, |code|, Place(false, false, true)) && NotInside(f.prevWhile, f.offset, |code|)
            && f.offset == 0 && |f.blocks| == 1 && f.blocks[0].end == |code| && LastWhile(f.blocks).None? && f.world == w
  {
    var f := Initial(code, w).frame;
    assert LastWhile(f.blocks) == LastWhile([]);
  }

  /** Once the bytes of the method are executed, the blocks fall away and the method is left. */
  lemma TopEnds<W(!new)>(m: Machine<W>, env: Env<W>, code: seq<Byte>, f: Frame<W>, fuel: nat, o: Outcome<W>, k: nat) returns (n: nat)
    requires Interprets(m, env, code) && Simulates(m, fuel, f, |code|, o, k)
    requires f.offset == 0 && |f.blocks| == 1 && f.blocks[0].end == |code| && LastWhile(f.blocks).None? && Nested(f.blocks, |code|)
    ensures var c := Run(m, n, Running(f));
            if o.OutOfFuel? then c.Running? && n >= fuel else EndsAs(o, c)
  {
    n := k;
    if o.Normal? {
      var g := Run(m, k, Running(f)).frame;
      assert LastWhile(g.blocks).None?;
      var j := DrainToExit(m, env, code, g);
      Chain(m, f, k, g, j);
      n := k + j;
    }
  }

  lemma RunTop<W(!new)>(env: Env<W>, p: Prog, w: W, fuel: nat) returns (n: nat)
    requires WellFormed(env, p) && |Encode(p)| < U32
    ensures var o := Eval(env, fuel, p, Place(false, false, true), w);
            var c := Run(Interpreter(env, Encode(p)), n, Initial(Encode(p), w));
            if o.OutOfFuel? then c.Running? && n >= fuel else EndsAs(o, c)
  {
    var code := Encode(p);
    var m := Interpreter(env, code);
    InterpreterInterprets(env, code);
    InitialReady(code, w);
    var f := Initial(code, w).frame;
    assert code[0..|code|] == code;
    var k := Simulate(m, env, code, fuel, p, f, Place(false, false, true));
    n := TopEnds(m, env, code, f, fuel, Eval(env, fuel, p, Place(false, false, true), w), k);
  }

  /** A stopped run stays stopped, so all runs that stop agree. */
  lemma HaltedOnce<W>(m: Machine<W>, a: nat, b: nat, c: Config<W>)
    requires a <= b && !Run(m, a, c).Running?
    ensures Run(m, b, c) == Run(m, a, c)
  {
    RunAdd(m, a, b - a, c);
  }

  /**
    Main theorem: for every well-nested program the machine stops with a result exactly
    when the structured semantics has that result.  In particular it diverges together
    with it, and a loop is aborted exactly when its own deadline has passed.
   */
  lemma MachineMeetsSemantics<W(!new)>(env: Env<W>, p: Prog, w: W, r: Config<W>)
    requires WellFormed(env, p) && |Encode(p)| < U32
    ensures Halts(env, Encode(p), w, r) <==> Computes(env, p, false, w, r)
  {
    var m, c := Interpreter(env, Encode(p)), Initial(Encode(p), w);
    if Halts(env, Encode(p), w, r) {
      var n: nat :| Run(m, n, c) == r;
      var k := RunTop(env, p, w, n);
      HaltedOnce(m, if n <= k then n else k, if n <= k then k else n, c);
    }
    if Computes(env, p, false, w, r) {
      var fuel: nat :| EndsAs(Eval(env, fuel, p, Place(false, false, true), w), r);
      var k := RunTop(env, p, w, fuel);
    }
  }

  // ----- Return -----

  /** The frame in which the machine next fetches an op or leaves the method. */
  function Settle<W>(f: Frame<W>): Frame<W>
    decreases |f.blocks|
  {
    if f.AtEnd() then Settle(EndBlock(f)) else f
  }

  /** Loops start before they end. */
  predicate LoopsForward(bs: seq<Block>) {
    forall i :: 0 <= i < |bs| && bs[i].kind == WhileBlock ==> bs[i].begin < bs[i].end
  }

  /**
    A Return sets the offset to the end of the method.  The method is then left if and
    only if no loop is open or the innermost block does not end with the method;
    otherwise the machine is back at the head of the innermost loop.
   */
  lemma {:induction false} ReturnLeaves<W>(code: seq<Byte>, f: Frame<W>)
    requires f.offset == |code| && Nested(f.blocks, |code|) && LoopsForward(f.blocks)
    ensures Settle(f).offset == |code|
       <==> LastWhile(f.blocks).None? || f.blocks[|f.blocks| - 1].end != |code|
    ensures LastWhile(f.blocks).Some? && f.blocks[|f.blocks| - 1].end == |code|
        ==> Settle(f).offset == f.blocks[LastWhile(f.blocks).value].begin
    decreases |f.blocks|
  {
    if f.AtEnd() {
      var g := EndBlock(f);
      if f.blocks[|f.blocks| - 1].kind != WhileBlock {
        PopKeepsLoop(f.blocks);
        ReturnLeaves(code, g);
      }
    }
  }

  /** No Return stands in a loop through blocks that all end with the method. */
  predicate Safe(p: Prog, at: Place) {
    match p
    case End => true
    case Then(s, q) => SafeStmt(s, at, q.End?) && Safe(q, at)
  }

  predicate SafeStmt(s: Stmt, at: Place, last: bool) {
    match s
    case If(_, _, body) => Safe(body, at.(ends := at.ends && last))
    case IfElse(_, _, body, _, elseBody) =>
      Safe(body, at.(ends := false)) && Safe(elseBody, at.(ends := at.ends && last))
    case While(_, _, body) => Safe(body, at.(ends := at.ends && last, inLoop := true))
    case Return(_) => !(at.inLoop && at.ends)
    case _ => true
  }

  lemma {:induction false} SafeAgrees<W>(env: Env<W>, fuel: nat, p: Prog, at: Place, w: W)
    requires Safe(p, at) && at.honest
    ensures Eval(env, fuel, p, at, w) == Eval(env, fuel, p, at.(honest := false), w)
    decreases fuel, p, 0
  {
    match p
    case End =>
    case Then(s, q) =>
      SafeAgreesStmt(env, fuel, s, at, q.End?, w);
      var o := EvalStmt(env, fuel, s, at, q.End?, w);
      if o.Normal? {
        SafeAgrees(env, fuel, q, at, o.world);
      }
  }

  lemma {:induction false} SafeAgreesStmt<W>(env: Env<W>, fuel: nat, s: Stmt, at: Place, last: bool, w: W)
    requires SafeStmt(s, at, last) && at.honest
    ensures EvalStmt(env, fuel, s, at, last, w) == EvalStmt(env, fuel, s, at.(honest := false), last, w)
    decreases fuel, s, 0
  {
    match s
    case If(_, cond, body) =>
      var t := env.test(cond, w);
      if t.Ok? { SafeAgrees(env, fuel, body, at.(ends := at.ends && last), t.value.1); }
    case IfElse(_, cond, body, _, elseBody) =>
      var t := env.test(cond, w);
      if t.Ok? {
        SafeAgrees(env, fuel, body, at.(ends := false), t.value.1);
        SafeAgrees(env, fuel, elseBody, at.(ends := at.ends && last), t.value.1);
      }
    case While(_, cond, body) =>
      SafeAgreesLoop(env, fuel, cond, body, at.(ends := at.ends && last, inLoop := true), None, w);
    case _ =>
  }

  lemma {:induction false} SafeAgreesLoop<W>(
    env: Env<W>, fuel: nat, cond: seq<Byte>, body: Prog, at: Place, deadline: Option<nat>, w: W)
    requires Safe(body, at) && at.honest
    ensures EvalLoop(env, fuel, cond, body, at, deadline, w)
         == EvalLoop(env, fuel, cond, body, at.(honest := false), deadline, w)
    decreases fuel, body, 1
  {
    var t := env.test(cond, w);
    if t.Ok? {
      var (now, w2) := env.ticks(t.value.1);
      SafeAgrees(env, fuel, body, at, w2);
      var o := Eval(env, fuel, body, at, w2);
      var until := if deadline.Some? then deadline.value else (now + env.timeout) % U64;
      if fuel > 0 && (o.Normal? || o.Continued?) {
        SafeAgreesLoop(env, fuel - 1, cond, body, at, Some(until), o.world);
      }
    }
  }

  /** On programs without such a Return the machine is the language. */
  lemma MachineMeetsLanguage<W(!new)>(env: Env<W>, p: Prog, w: W, r: Config<W>)
    requires WellFormed(env, p) && |Encode(p)| < U32
    requires Safe(p, Place(true, false, true))
    ensures Halts(env, Encode(p), w, r) <==> Computes(env, p, true, w, r)
  {
    MachineMeetsSemantics(env, p, w, r);
    forall fuel: nat
      ensures Eval(env, fuel, p, Place(true, false, true), w) == Eval(env, fuel, p, Place(false, false, true), w)
    {
      SafeAgrees(env, fuel, p, Place(true, false, true), w);
    }
  }

  // ----- the failing family: While (One) { Return (One) } ending a method -----

  const TAIL_RETURN: Prog := Then(While([4], [1], Then(Return([1]), End)), End)

  /** Terms are one byte, every operand is true, and the clock stands still. */
  function OneByteTerms(): Env<()> {
    Env((b: seq<Byte>) => 1, (t: seq<Byte>, w: ()) => Ok(w), (t: seq<Byte>, w: ()) => Ok((true, w)),
        (t: seq<Byte>, w: ()) => Ok(w), (w: ()) => (0, w), 30, 0)
  }

  lemma TailReturnWellFormed()
    ensures WellFormed(OneByteTerms(), TAIL_RETURN)
    ensures Encode(TAIL_RETURN) == [WHILE_OP, 4, 1, RETURN_OP, 1]
  {
    var e := OneByteTerms();
    assert Encode(Then(Return([1]), End)) == [RETURN_OP, 1];
    DecodePkgOne();
    assert Delimited(e, [1]);
  }

  lemma DecodePkgOne()
    ensures IsPkg([4], 3)
  {
    forall rest: seq<Byte> ensures DecodePkg([4] + rest) == Some((1, 4)) {
      DecodePrefix([4], rest);
    }
  }

  lemma {:induction false} TailReturnSpins(fuel: nat, deadline: Option<nat>)
    ensures EvalLoop(OneByteTerms(), fuel, [1], Then(Return([1]), End), Place(false, true, true), deadline, ()).OutOfFuel?
  {
    assert EvalStmt(OneByteTerms(), fuel, Return([1]), Place(false, true, true), true, ()) == Continued(());
    if fuel > 0 {
      TailReturnSpins(fuel - 1, Some(if deadline.Some? then deadline.value else 30));
    }
  }

  /** The language returns at once; the machine never stops. */
  lemma TailReturnNeverLeaves(r: Config<()>)
    ensures Computes(OneByteTerms(), TAIL_RETURN, true, (), Finished(()))
    ensures !Halts(OneByteTerms(), [WHILE_OP, 4, 1, RETURN_OP, 1], (), r)
  {
    var e := OneByteTerms();
    assert EndsAs(Eval(e, 0, TAIL_RETURN, Place(true, false, true), ()), Finished(()));
    TailReturnWellFormed();
    MachineMeetsSemantics(e, TAIL_RETURN, (), r);
    forall fuel: nat ensures Eval(e, fuel, TAIL_RETURN, Place(false, false, true), ()).OutOfFuel? {
      TailReturnSpins(fuel, None);
    }
  }
}
