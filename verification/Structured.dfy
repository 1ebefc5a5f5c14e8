/**
  Well-nested AML statements, their byte layout, and a structured big-step semantics
  with no offsets and no block stack.
 */
module Structured {
  import opened Prelude
  import opened ControlFlow

  /** Statements carry their own PkgLength bytes, so every legal encoding is covered. */
  datatype Stmt =
    | Term(term: seq<Byte>)
    | If(pkg: seq<Byte>, cond: seq<Byte>, body: Prog)
    | IfElse(pkg: seq<Byte>, cond: seq<Byte>, body: Prog, elsePkg: seq<Byte>, elseBody: Prog)
    | While(pkg: seq<Byte>, cond: seq<Byte>, body: Prog)
    | Break
    | Continue
    | Return(value: seq<Byte>)

  datatype Prog = End | Then(head: Stmt, tail: Prog)

  function EncodeStmt(s: Stmt): (r: seq<Byte>)
    ensures |r| > 0 || s.Term?
  {
    match s
    case Term(t) => t
    case If(pkg, cond, body) => [IF_OP] + pkg + cond + Encode(body)
    case IfElse(pkg, cond, body, elsePkg, elseBody) =>
      [IF_OP] + pkg + cond + Encode(body) + ([ELSE_OP] + elsePkg + Encode(elseBody))
    case While(pkg, cond, body) => [WHILE_OP] + pkg + cond + Encode(body)
    case Break => [BREAK_OP]
    case Continue => [CONTINUE_OP]
    case Return(v) => [RETURN_OP] + v
  }

  function Encode(p: Prog): seq<Byte> {
    match p
    case End => []
    case Then(s, q) => EncodeStmt(s) + Encode(q)
  }

  predicate ControlOp(b: Byte) {
    b in {IF_OP, ELSE_OP, WHILE_OP, RETURN_OP, BREAK_OP, CONTINUE_OP}
  }

  /** Bytes that the interpreter reads as one term whatever follows them. */
  ghost predicate Delimited<W>(env: Env<W>, t: seq<Byte>) {
    |t| > 0 && forall rest: seq<Byte> :: env.measure(t + rest) == |t|
  }

  ghost predicate WellFormedStmt<W>(env: Env<W>, s: Stmt) {
    match s
    case Term(t) => Delimited(env, t) && !ControlOp(t[0])
    case If(pkg, cond, body) =>
      Delimited(env, cond) && WellFormed(env, body) && IsPkg(pkg, |cond| + |Encode(body)|)
    case IfElse(pkg, cond, body, elsePkg, elseBody) =>
      && Delimited(env, cond) && WellFormed(env, body) && IsPkg(pkg, |cond| + |Encode(body)|)
      && WellFormed(env, elseBody) && IsPkg(elsePkg, |Encode(elseBody)|)
    case While(pkg, cond, body) =>
      Delimited(env, cond) && WellFormed(env, body) && IsPkg(pkg, |cond| + |Encode(body)|)
    case Break => true
    case Continue => true
    case Return(v) => Delimited(env, v)
  }

  ghost predicate WellFormed<W>(env: Env<W>, p: Prog) {
    match p
    case End => true
    case Then(s, q) => WellFormedStmt(env, s) && WellFormed(env, q)
  }

  // ----- big-step semantics -----

  datatype Outcome<+W> =
    | Normal(world: W)
    | Broke(world: W)
    | Continued(world: W)
    | Returned(world: W)
    | Failed(world: W, status: Status)
    | OutOfFuel

  /**
    Where a statement stands: inside a While or not, in a block that ends with the
    method or not, last in its block or not.  `honest` says what Return does in a loop
    whose block ends with the method: leave it (as the language says) or, as the
    machine does, start the next iteration.
   */
  datatype Place = Place(honest: bool, inLoop: bool, ends: bool)

  function Eval<W>(env: Env<W>, fuel: nat, p: Prog, at: Place, w: W): Outcome<W>
    decreases fuel, p, 0
  {
    match p
    case End => Normal(w)
    case Then(s, q) =>
      match EvalStmt(env, fuel, s, at, q.End?, w)
      case Normal(w') => Eval(env, fuel, q, at, w')
      case other => other
  }

  function EvalStmt<W>(env: Env<W>, fuel: nat, s: Stmt, at: Place, last: bool, w: W): Outcome<W>
    decreases fuel, s, 0
  {
    match s
    case Term(t) =>
      (match env.exec(t, w) case Ok(w') => Normal(w') case Err(w', st) => Failed(w', st))
    case If(_, cond, body) =>
      (match env.test(cond, w)
       case Err(w', st) => Failed(w', st)
       case Ok((taken, w')) =>
         if taken then Eval(env, fuel, body, at.(ends := at.ends && last), w') else Normal(w'))
    case IfElse(_, cond, body, _, elseBody) =>
      (match env.test(cond, w)
       case Err(w', st) => Failed(w', st)
       case Ok((taken, w')) =>
         if taken then Eval(env, fuel, body, at.(ends := false), w')
         else Eval(env, fuel, elseBody, at.(ends := at.ends && last), w'))
    case While(_, cond, body) =>
      EvalLoop(env, fuel, cond, body, at.(ends := at.ends && last, inLoop := true), None, w)
    case Break => if at.inLoop then Broke(w) else Failed(w, BadEncoding)
    case Continue => if at.inLoop then Continued(w) else Failed(w, BadEncoding)
    case Return(v) =>
      (match env.ret(v, w)
       case Err(w', st) => Failed(w', st)
       case Ok(w') => if !at.honest && at.inLoop && at.ends then Continued(w') else Returned(w'))
  }

  /** A loop is given its deadline on the first entry and tested against it on every later one. */
  function EvalLoop<W>(
    env: Env<W>, fuel: nat, cond: seq<Byte>, body: Prog, at: Place, deadline: Option<nat>, w: W): Outcome<W>
    decreases fuel, body, 1
  {
    match env.test(cond, w)
    case Err(w', st) => Failed(w', st)
    case Ok((taken, w1)) =>
      if !taken then Normal(w1)
      else
        var (now, w2) := env.ticks(w1);
        if deadline.Some? && now > deadline.value then Failed(w2, LoopTimeout)
        else
          var until := if deadline.Some? then deadline.value else (now + env.timeout) % U64;
          AfterBody(env, fuel, cond, body, at, until, Eval(env, fuel, body, at, w2))
  }

  /** What a loop does with the outcome of one run of its body. */
  function AfterBody<W>(
    env: Env<W>, fuel: nat, cond: seq<Byte>, body: Prog, at: Place, until: nat, o: Outcome<W>): Outcome<W>
    decreases fuel, body, 0
  {
    match o
    case Normal(w) => if fuel == 0 then OutOfFuel else EvalLoop(env, fuel - 1, cond, body, at, Some(until), w)
    case Continued(w) => if fuel == 0 then OutOfFuel else EvalLoop(env, fuel - 1, cond, body, at, Some(until), w)
    case Broke(w) => Normal(w)
    case other => other
  }
}
