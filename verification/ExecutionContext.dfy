/**
  The interpreter's own form of the block machine: an execution context whose fields
  are updated in place.  Every method is proved to do what the machine's step says.
 */
module ExecutionContext {
  import opened Prelude
  import opened ControlFlow

  class Context<W(!new)> {
    const env: Env<W>
    const code: seq<Byte>

    var codeOffset: nat
    var storage: seq<Block>       // the block array, up to its high-water mark
    var size: nat                 // how many of its slots are in use
    var lastWhile: Option<nat>    // index of the innermost While block
    var skipElse: bool
    var prevWhileCodeOffset: nat
    var prevWhileExpiration: nat
    var world: W

    ghost predicate Valid()
      reads this
    {
      size <= |storage| && lastWhile == LastWhile(storage[..size])
    }

    ghost function Frame(): Frame<W>
      reads this
      requires Valid()
    {
      ControlFlow.Frame.Frame(codeOffset, storage[..size], storage[size..], skipElse,
                              prevWhileCodeOffset, prevWhileExpiration, world)
    }

    constructor (env: Env<W>, code: seq<Byte>, w: W)
      ensures Valid() && this.env == env && this.code == code && Running(Frame()) == Initial(code, w)
    {
      this.env, this.code := env, code;
      codeOffset, storage, size := 0, [Block(ScopeBlock, 0, |code|, 0)], 1;
      lastWhile, skipElse, prevWhileCodeOffset, prevWhileExpiration, world := None, false, 0, 0, w;
      new;
      assert storage[..1] == storage && storage[1..] == [];
      assert LastWhile(storage) == LastWhile(storage[..0]);
    }

    /** find_last_block for While blocks, as the loop it is. */
    method FindLastWhile() returns (r: Option<nat>)
      requires size <= |storage|
      ensures r == LastWhile(storage[..size])
    {
      var i := size;
      while i > 0
        invariant 0 <= i <= size
        invariant LastWhile(storage[..size]) == LastWhile(storage[..i])
      {
        i := i - 1;
        assert storage[..i + 1][..i] == storage[..i];
        if storage[i].kind == WhileBlock {
          return Some(i);
        }
      }
      return None;
    }

    /** frame_reset_post_end_block: pops the innermost block. */
    method FrameResetPostEndBlock()
      requires Valid() && size > 0
      modifies this`size, this`lastWhile, this`prevWhileCodeOffset, this`prevWhileExpiration
      ensures Valid() && Frame() == PopTo(old(Frame()), old(size) - 1)
      ensures size == old(size) - 1
    {
      ghost var f := Frame();
      var block := storage[size - 1];
      if block.kind == WhileBlock {
        prevWhileCodeOffset := block.begin + 1;
        prevWhileExpiration := block.expiry;
      }
      size := size - 1;
      assert f.blocks[..size] == storage[..size] && f.blocks[size..] == [block];
      assert storage[size..] == f.blocks[size..] + f.spare;
      if block.kind == WhileBlock {
        lastWhile := FindLastWhile();
      }
    }

    /** maybe_end_block */
    method MaybeEndBlock() returns (ended: bool)
      requires Valid()
      modifies this
      ensures Valid() && ended == old(Frame().AtEnd())
      ensures Frame() == if ended then EndBlock(old(Frame())) else old(Frame())
    {
      if size == 0 || codeOffset != storage[size - 1].end {
        return false;
      }
      var block := storage[size - 1];
      skipElse := block.kind == IfBlock;
      if block.kind == WhileBlock {
        codeOffset := block.begin;
      }
      FrameResetPostEndBlock();
      ended := true;
    }

    /** The allocation of the next slot of the block array, filled with `block`. */
    method PushBlock(block: Block)
      requires Valid()
      modifies this
      ensures Valid() && Frame().(skipElse := false) == Push(old(Frame()), block)
      ensures world == old(world)
    {
      ghost var f := Frame();
      storage := if size < |storage| then storage[size := block] else storage + [block];
      size := size + 1;
      assert storage[..size] == f.blocks + [block];
      assert storage[size..] == if f.spare == [] then [] else f.spare[1..];
      lastWhile := FindLastWhile();
    }

    /** begin_block_execution; the new slot's old expiry is read before it is set. */
    method BeginBlockExecution(kind: Kind, pkgBegin: nat, end: nat) returns (status: Option<Status>)
      requires Valid() && 0 < pkgBegin
      modifies this
      ensures Valid()
      ensures var c := BeginBlock(env, old(Frame()), kind, pkgBegin, end);
              match status
              case None => c == Running(Frame().(skipElse := false))
              case Some(st) => c == Aborted(world, st)
    {
      var expiry := if size < |storage| then storage[size].expiry else env.stale;
      assert size < |storage| ==> storage[size..][0] == storage[size];
      if kind == WhileBlock {
        var (now, w) := env.ticks(world);
        world := w;
        if pkgBegin == prevWhileCodeOffset {
          if now > expiry {
            return Some(LoopTimeout);
          }
          expiry := prevWhileExpiration;
        } else {
          expiry := (now + env.timeout) % U64;
        }
      }
      PushBlock(Block(kind, pkgBegin - 1, end, expiry));
      status := None;
    }

    /** The unwinding loop of handle_control_flow. */
    method UnwindToLoop()
      requires Valid() && lastWhile.Some?
      modifies this`size, this`lastWhile, this`prevWhileCodeOffset, this`prevWhileExpiration
      ensures Valid() && lastWhile == old(lastWhile) && size == lastWhile.value + 1
      ensures prevWhileCodeOffset == old(prevWhileCodeOffset) && prevWhileExpiration == old(prevWhileExpiration)
    {
      while size - 1 != lastWhile.value
        invariant Valid() && lastWhile == old(lastWhile) && lastWhile.value < size
        invariant prevWhileCodeOffset == old(prevWhileCodeOffset) && prevWhileExpiration == old(prevWhileExpiration)
        decreases size
      {
        assert storage[..size][size - 1].kind != WhileBlock;
        FrameResetPostEndBlock();
        assert LastWhile(storage[..size]) == LastWhile(storage[..size + 1]) by {
          assert storage[..size + 1][..size] == storage[..size];
        }
      }
    }

    /** handle_control_flow: unwinds to the innermost loop, then jumps. */
    method HandleControlFlow(isBreak: bool) returns (status: Option<Status>)
      requires Valid()
      modifies this
      ensures Valid()
      ensures var c := StepLoopControl(old(Frame()), isBreak);
              match status
              case None => c == Running(Frame().(skipElse := false))
              case Some(st) => c == Aborted(world, st)
    {
      if lastWhile.None? {
        return Some(BadEncoding);
      }
      ghost var f, i := Frame(), lastWhile.value;
      UnwindToLoop();
      codeOffset := if isBreak then storage[size - 1].end else storage[size - 1].begin;
      FrameResetPostEndBlock();
      assert storage[size..] == f.blocks[i..] + f.spare;
      assert storage[..size] == f.blocks[..i];
      status := None;
    }

    /** handle_code_block for If and While: skip the package or enter it. */
    method HandleConditional(kind: Kind) returns (status: Option<Status>)
      requires Valid()
      modifies this
      ensures Valid()
      ensures var c := StepConditional(env, code, old(Frame()), kind);
              match status
              case None => c == Running(Frame().(skipElse := false))
              case Some(st) => c == Aborted(world, st)
    {
      var pkgBegin := codeOffset + 1;
      match ParsePkg(code, pkgBegin)
      case None => return Some(BadEncoding);
      case Some((at, end)) =>
        match FetchTerm(env, code, at)
        case None => return Some(BadEncoding);
        case Some(t) =>
          match env.test(t, world)
          case Err(w, st) =>
            world := w;
            return Some(st);
          case Ok((taken, w)) =>
            world := w;
            if !taken {
              codeOffset := end;
              return None;
            }
            codeOffset := at + |t|;
            status := BeginBlockExecution(kind, pkgBegin, end);
    }

    /** handle_code_block for Else. */
    method HandleElse() returns (status: Option<Status>)
      requires Valid()
      modifies this
      ensures Valid()
      ensures var c := StepElse(env, code, old(Frame()));
              match status
              case None => c == Running(Frame().(skipElse := false))
              case Some(st) => c == Aborted(world, st)
    {
      var pkgBegin := codeOffset + 1;
      match ParsePkg(code, pkgBegin)
      case None => return Some(BadEncoding);
      case Some((at, end)) =>
        if skipElse {
          codeOffset := end;
          return None;
        }
        codeOffset := at;
        status := BeginBlockExecution(ElseBlock, pkgBegin, end);
    }

    /** A Return or a statement that is no control flow. */
    method HandleTerm(isReturn: bool) returns (status: Option<Status>)
      requires Valid()
      modifies this
      ensures Valid()
      ensures var c := if isReturn then StepReturn(env, code, old(Frame())) else StepTerm(env, code, old(Frame()));
              match status
              case None => c == Running(Frame().(skipElse := false))
              case Some(st) => c == Aborted(world, st)
    {
      var at := if isReturn then codeOffset + 1 else codeOffset;
      match FetchTerm(env, code, at)
      case None => return Some(BadEncoding);
      case Some(t) =>
        match if isReturn then env.ret(t, world) else env.exec(t, world)
        case Err(w, st) =>
          world := w;
          return Some(st);
        case Ok(w) =>
          world := w;
          codeOffset := if isReturn then |code| else at + |t|;
          return None;
    }

    /** get_op and exec_op: one op, then the flag is cleared. */
    method ExecuteOp() returns (status: Option<Status>)
      requires Valid() && codeOffset != |code| && !Frame().AtEnd()
      modifies this
      ensures Valid()
      ensures Step(env, code, old(Frame())) == match status case None => Running(Frame()) case Some(st) => Aborted(world, st)
    {
      if codeOffset > |code| {
        return Some(BadEncoding);
      }
      var op := code[codeOffset];
      if op == IF_OP {
        status := HandleConditional(IfBlock);
      } else if op == WHILE_OP {
        status := HandleConditional(WhileBlock);
      } else if op == ELSE_OP {
        status := HandleElse();
      } else if op == BREAK_OP || op == CONTINUE_OP {
        status := HandleControlFlow(op == BREAK_OP);
      } else {
        status := HandleTerm(op == RETURN_OP);
      }
      if status.None? {
        skipElse := false;
      }
    }

    /** One turn of the main loop; `None` while the frame goes on. */
    method Turn(ghost m: Machine<W>) returns (r: Option<Config<W>>)
      requires Valid() && Interprets(m, env, code)
      modifies this
      ensures Valid() && m.step(old(Frame())) == if r.None? then Running(Frame()) else r.value
      ensures r.Some? ==> !r.value.Running?
    {
      ghost var f := Frame();
      assert m.step(f) == Step(env, code, f);
      var ended := MaybeEndBlock();
      if ended {
        return None;
      }
      if codeOffset == |code| {
        return Some(Finished(world));
      }
      var status := ExecuteOp();
      r := if status.None? then None else Some(Aborted(world, status.value));
    }

    /** `turns` turns, or fewer if the frame is left or aborted (`None` while it goes on). */
    method Execute(ghost m: Machine<W>, turns: nat) returns (r: Option<Config<W>>)
      requires Valid() && Interprets(m, env, code)
      modifies this
      ensures Valid()
      ensures Run(m, turns, Running(old(Frame()))) == if r.None? then Running(Frame()) else r.value
      ensures r.Some? ==> !r.value.Running?
    {
      ghost var c := Running(Frame());
      var n := 0;
      while n < turns
        invariant Valid() && n <= turns
        invariant Run(m, turns, c) == Run(m, turns - n, Running(Frame()))
      {
        r := Turn(m);
        if r.Some? {
          return;
        }
        n := n + 1;
      }
      r := None;
    }
  }
}
