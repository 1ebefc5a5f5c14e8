/**
  The block machine that runs If, Else, While, Break, Continue and Return in one
  AML call frame (interpreter.c): a flat byte offset, an array of code blocks whose
  popped slots keep their old contents, and one skip-else flag.

  What a term does is a parameter (`Env`): the world `W` holds the object store, the
  clock and anything else terms can see, so the results hold for every term language.
 */
module ControlFlow {
  import opened Prelude

  const IF_OP: Byte := 0xA0
  const ELSE_OP: Byte := 0xA1
  const WHILE_OP: Byte := 0xA2
  const RETURN_OP: Byte := 0xA4
  const BREAK_OP: Byte := 0xA5
  const CONTINUE_OP: Byte := 0x9F

  datatype Status = BadEncoding | LoopTimeout | TermError

  datatype Result<+T, +W> = Ok(value: T) | Err(world: W, status: Status)

  /**
    The rest of the interpreter.  `measure` gives the length of the term at the head
    of a byte string, `exec` runs a statement term, `test` evaluates an operand to
    "is not zero", `ret` stores a return value, `ticks` reads the clock, and
    `stale` is what a never-used slot of the block array happens to hold.
   */
  datatype Env<!W> = Env(
    measure: seq<Byte> -> nat,
    exec: (seq<Byte>, W) -> Result<W, W>,
    test: (seq<Byte>, W) -> Result<(bool, W), W>,
    ret: (seq<Byte>, W) -> Result<W, W>,
    ticks: W -> (nat, W),
    timeout: nat,
    stale: nat)

  // ----- package lengths -----

  function MarkerLength(lead: Byte): (m: nat)
    ensures 1 <= m <= 4
  {
    1 + lead / 64
  }

  function PkgSize(b: seq<Byte>): nat
    requires |b| > 0 && |b| >= MarkerLength(b[0])
  {
    var m := MarkerLength(b[0]);
    if m == 1 then b[0] % 64
    else
      var b2: int := if m > 2 then b[2] else 0;
      var b3: int := if m > 3 then b[3] else 0;
      b[0] % 16 + 16 * ((b[1] as int) + 256 * b2 + 65536 * b3)
  }

  /** The length of the PkgLength at the head of `b` and the package size it gives. */
  function DecodePkg(b: seq<Byte>): Option<(nat, nat)> {
    if |b| == 0 || |b| < MarkerLength(b[0]) then None
    else Some((MarkerLength(b[0]), PkgSize(b)))
  }

  /** A PkgLength whose own bytes and `payload` more make up the package. */
  ghost predicate IsPkg(b: seq<Byte>, payload: nat) {
    forall rest: seq<Byte> :: DecodePkg(b + rest) == Some((|b|, |b| + payload))
  }

  /** The shortest PkgLength for a payload; sizes stop at 2^28. */
  function EncodePkg(payload: nat): seq<Byte>
    requires payload + 4 < 0x1000_0000
  {
    if payload + 1 < 0x40 then [payload + 1]
    else if payload + 2 < 0x1000 then
      var n := payload + 2; [0x40 + n % 16, n / 16]
    else if payload + 3 < 0x10_0000 then
      var n := payload + 3; [0x80 + n % 16, n / 16 % 256, n / 4096]
    else
      var n := payload + 4; [0xC0 + n % 16, n / 16 % 256, n / 4096 % 256, n / 0x10_0000]
  }

  lemma Nybble3(n: nat)
    ensures n == n % 16 + 16 * (n / 16 % 256) + 4096 * (n / 4096)
  {
    assert n / 4096 == n / 16 / 256;
  }

  lemma Nybble4(n: nat)
    ensures n == n % 16 + 16 * (n / 16 % 256) + 4096 * (n / 4096 % 256) + 0x10_0000 * (n / 0x10_0000)
  {
    Nybble3(n);
    assert n / 0x10_0000 == n / 4096 / 256;
  }

  lemma EncodePkgSize(payload: nat)
    requires payload + 4 < 0x1000_0000
    ensures var e := EncodePkg(payload);
            |e| > 0 && |e| == MarkerLength(e[0]) && PkgSize(e) == |e| + payload
  {
    if payload + 2 < 0x1000 {
    } else if payload + 3 < 0x10_0000 {
      Nybble3(payload + 3);
    } else {
      Nybble4(payload + 4);
    }
  }

  /** Every payload below the format's limit has a PkgLength. */
  lemma EncodePkgDecodes(payload: nat)
    requires payload + 4 < 0x1000_0000
    ensures IsPkg(EncodePkg(payload), payload)
  {
    EncodePkgSize(payload);
    var e := EncodePkg(payload);
    forall rest: seq<Byte> ensures DecodePkg(e + rest) == Some((|e|, |e| + payload)) {
      DecodePrefix(e, rest);
    }
  }

  lemma DecodePrefix(e: seq<Byte>, rest: seq<Byte>)
    requires |e| > 0 && |e| == MarkerLength(e[0])
    ensures DecodePkg(e + rest) == Some((|e|, PkgSize(e)))
  {
  }

  // ----- the machine -----

  datatype Kind = IfBlock | ElseBlock | WhileBlock | ScopeBlock

  datatype Block = Block(kind: Kind, begin: nat, end: nat, expiry: nat)

  /**
    One call frame.  `blocks` are the pushed blocks, innermost last.  `spare` are the
    popped slots of the block array above them: popping only lowers the array's size,
    so the next push finds the old contents of `spare[0]`.
   */
  datatype Frame<+W> = Frame(
    offset: nat, blocks: seq<Block>, spare: seq<Block>, skipElse: bool,
    prevWhile: nat, prevExpiry: nat, world: W)
  {
    predicate AtEnd() { |blocks| > 0 && offset == blocks[|blocks| - 1].end }
  }

  datatype Config<+W> =
    | Running(frame: Frame<W>)
    | Finished(world: W)
    | Aborted(world: W, status: Status)

  function LastWhile(bs: seq<Block>): (r: Option<nat>)
    ensures r.Some? ==> r.value < |bs| && bs[r.value].kind == WhileBlock
    ensures r.Some? ==> forall i :: r.value < i < |bs| ==> bs[i].kind != WhileBlock
    ensures r.None? ==> forall i :: 0 <= i < |bs| ==> bs[i].kind != WhileBlock
  {
    if |bs| == 0 then None
    else if bs[|bs| - 1].kind == WhileBlock then Some(|bs| - 1)
    else LastWhile(bs[..|bs| - 1])
  }

  /** Pop the block at index `i` and everything above it, remembering a popped While. */
  function PopTo<W>(f: Frame<W>, i: nat): Frame<W>
    requires i < |f.blocks|
  {
    var b := f.blocks[i];
    var g := f.(blocks := f.blocks[..i], spare := f.blocks[i..] + f.spare);
    if b.kind == WhileBlock then g.(prevWhile := b.begin + 1, prevExpiry := b.expiry) else g
  }

  function EndBlock<W>(f: Frame<W>): Frame<W>
    requires |f.blocks| > 0
  {
    var b := f.blocks[|f.blocks| - 1];
    PopTo(f, |f.blocks| - 1).(
      offset := if b.kind == WhileBlock then b.begin else f.offset,
      skipElse := b.kind == IfBlock)
  }

  function Push<W>(f: Frame<W>, b: Block): Frame<W> {
    f.(blocks := f.blocks + [b],
       spare := if f.spare == [] then [] else f.spare[1..],
       skipElse := false)
  }

  function Expiry<W>(env: Env<W>, f: Frame<W>, pkgBegin: nat, now: nat): nat {
    if pkgBegin == f.prevWhile then f.prevExpiry else (now + env.timeout) % U64
  }

  /** Push a block.  `pkgBegin` is the offset of the PkgLength, one past the opcode. */
  function BeginBlock<W>(env: Env<W>, f: Frame<W>, kind: Kind, pkgBegin: nat, end: nat): Config<W>
    requires 0 < pkgBegin
  {
    var stale := if f.spare == [] then env.stale else f.spare[0].expiry;
    if kind != WhileBlock then Running(Push(f, Block(kind, pkgBegin - 1, end, stale)))
    else
      var (now, w) := env.ticks(f.world);
      if pkgBegin == f.prevWhile && now > stale then Aborted(w, LoopTimeout)
      else Running(Push(f.(world := w), Block(kind, pkgBegin - 1, end, Expiry(env, f, pkgBegin, now))))
  }

  /** Where the marker of the PkgLength at `at` ends, and where its package ends. */
  function ParsePkg(code: seq<Byte>, at: nat): Option<(nat, nat)> {
    if at >= |code| then None
    else
      match DecodePkg(code[at..])
      case None => None
      case Some((marker, size)) => if at + size >= U32 then None else Some((at + marker, at + size))
  }

  /** The term that starts at `at`, if the bytes hold one. */
  function FetchTerm<W>(env: Env<W>, code: seq<Byte>, at: nat): Option<seq<Byte>> {
    if at >= |code| then None
    else
      var n := env.measure(code[at..]);
      if n == 0 || n > |code| - at then None else Some(code[at..at + n])
  }

  /** An operand was parsed: skip the package, or enter it at `body`. */
  function AfterTest<W>(
    env: Env<W>, f: Frame<W>, kind: Kind, cond: seq<Byte>, body: nat, end: nat): Config<W>
  {
    match env.test(cond, f.world)
    case Err(w, st) => Aborted(w, st)
    case Ok((taken, w)) =>
      if !taken then Running(f.(offset := end, skipElse := false, world := w))
      else BeginBlock(env, f.(offset := body, world := w), kind, f.offset + 1, end)
  }

  function StepConditional<W>(env: Env<W>, code: seq<Byte>, f: Frame<W>, kind: Kind): Config<W> {
    match ParsePkg(code, f.offset + 1)
    case None => Aborted(f.world, BadEncoding)
    case Some((at, end)) =>
      match FetchTerm(env, code, at)
      case None => Aborted(f.world, BadEncoding)
      case Some(t) => AfterTest(env, f, kind, t, at + |t|, end)
  }

  function StepElse<W>(env: Env<W>, code: seq<Byte>, f: Frame<W>): Config<W> {
    match ParsePkg(code, f.offset + 1)
    case None => Aborted(f.world, BadEncoding)
    case Some((at, end)) =>
      if f.skipElse then Running(f.(offset := end, skipElse := false))
      else BeginBlock(env, f.(offset := at), ElseBlock, f.offset + 1, end)
  }

  function StepLoopControl<W>(f: Frame<W>, isBreak: bool): Config<W> {
    match LastWhile(f.blocks)
    case None => Aborted(f.world, BadEncoding)
    case Some(i) =>
      var b := f.blocks[i];
      Running(PopTo(f, i).(offset := if isBreak then b.end else b.begin, skipElse := false))
  }

  function StepReturn<W>(env: Env<W>, code: seq<Byte>, f: Frame<W>): Config<W> {
    match FetchTerm(env, code, f.offset + 1)
    case None => Aborted(f.world, BadEncoding)
    case Some(t) =>
      match env.ret(t, f.world)
      case Err(w, st) => Aborted(w, st)
      case Ok(w) => Running(f.(offset := |code|, skipElse := false, world := w))
  }

  function StepTerm<W>(env: Env<W>, code: seq<Byte>, f: Frame<W>): Config<W> {
    match FetchTerm(env, code, f.offset)
    case None => Aborted(f.world, BadEncoding)
    case Some(t) =>
      match env.exec(t, f.world)
      case Err(w, st) => Aborted(w, st)
      case Ok(w) => Running(f.(offset := f.offset + |t|, skipElse := false, world := w))
  }

  /** One turn of the main loop of the interpreter. */
  function Step<W>(env: Env<W>, code: seq<Byte>, f: Frame<W>): Config<W> {
    if f.AtEnd() then Running(EndBlock(f))
    else if f.offset == |code| then Finished(f.world)
    else if f.offset > |code| then Aborted(f.world, BadEncoding)
    else
      var op := code[f.offset];
      if op == IF_OP then StepConditional(env, code, f, IfBlock)
      else if op == WHILE_OP then StepConditional(env, code, f, WhileBlock)
      else if op == ELSE_OP then StepElse(env, code, f)
      else if op == BREAK_OP then StepLoopControl(f, true)
      else if op == CONTINUE_OP then StepLoopControl(f, false)
      else if op == RETURN_OP then StepReturn(env, code, f)
      else StepTerm(env, code, f)
  }

  /** A machine is its step function; what a run of one does needs no more than that. */
  datatype Machine<!W> = Machine(step: Frame<W> -> Config<W>)

  function Interpreter<W>(env: Env<W>, code: seq<Byte>): Machine<W> {
    Machine((f: Frame<W>) => Step(env, code, f))
  }

  /** `m` is the interpreter of `code`; the trigger keeps its step folded elsewhere. */
  ghost predicate Interprets<W(!new)>(m: Machine<W>, env: Env<W>, code: seq<Byte>) {
    forall f: Frame<W> {:trigger Step(env, code, f)} :: m.step(f) == Step(env, code, f)
  }

  lemma InterpreterInterprets<W(!new)>(env: Env<W>, code: seq<Byte>)
    ensures Interprets(Interpreter(env, code), env, code)
  {
  }

  function Run<W>(m: Machine<W>, n: nat, c: Config<W>): Config<W> {
    if n == 0 || !c.Running? then c
    else Run(m, n - 1, m.step(c.frame))
  }

  lemma {:induction false} RunAdd<W>(m: Machine<W>, k: nat, n: nat, c: Config<W>)
    ensures Run(m, k + n, c) == Run(m, n, Run(m, k, c))
    decreases k
  {
    if k > 0 && c.Running? {
      RunAdd(m, k - 1, n, m.step(c.frame));
    }
  }

  /** The frame as a call sets it up: zeroed, with the method's own scope block pushed. */
  function Initial<W>(code: seq<Byte>, w: W): Config<W> {
    Running(Frame(0, [Block(ScopeBlock, 0, |code|, 0)], [], false, 0, 0, w))
  }
}
