/** The held-mutex array of an execution context: inline slots first, then a growing buffer. */
module HeldMutexes {
  import opened Prelude
  import opened Mutexes

  const INLINE: nat := 8

  class HeldArray {
    const inlined: array<nat>
    var dynamic: array<nat>
    var size: nat

    ghost var contents: seq<nat>

    ghost predicate Valid()
      reads this, inlined, dynamic
    {
      && inlined.Length == INLINE && size <= INLINE + dynamic.Length && inlined != dynamic
      && |contents| == size
      && (forall k :: 0 <= k < INLINE && k < size ==> contents[k] == inlined[k])
      && (forall k :: INLINE <= k < size ==> contents[k] == dynamic[k - INLINE])
    }

    constructor ()
      ensures Valid() && contents == [] && fresh(inlined) && fresh(dynamic)
    {
      inlined := new nat[INLINE];
      dynamic := new nat[0];
      size, contents := 0, [];
    }

    function At(i: nat): (x: nat)
      requires Valid() && i < size
      reads this, inlined, dynamic
      ensures i < |contents| && x == contents[i]
    {
      if i < INLINE then inlined[i] else dynamic[i - INLINE]
    }

    /** held_mutexes_array_push: grows the buffer by one slot when it is full. */
    method Push(x: nat)
      requires Valid()
      modifies this, inlined, dynamic
      ensures Valid() && contents == old(contents) + [x] && size == |contents|
      ensures dynamic == old(dynamic) || fresh(dynamic)
    {
      if size >= INLINE {
        var n := size - INLINE;
        if n == dynamic.Length {
          var buf := new nat[n + 1];
          forall k | 0 <= k < n { buf[k] := dynamic[k]; }
          dynamic := buf;
        }
        dynamic[n] := x;
      } else {
        inlined[size] := x;
      }
      size, contents := size + 1, contents + [x];
    }

    method Pop()
      requires Valid() && size > 0
      modifies this`size, this`contents
      ensures Valid() && |old(contents)| == old(size) && contents == old(contents)[..old(size) - 1] && size == |contents|
    {
      size, contents := size - 1, contents[..size - 1];
    }

    /** uacpi_memmove by one slot towards the front. */
    static method MoveDown(a: array<nat>, at: nat, n: nat)
      requires at + n < a.Length
      modifies a
      ensures forall k :: 0 <= k < a.Length ==> a[k] == if at <= k < at + n then old(a[k + 1]) else old(a[k])
    {
      forall k | at <= k < at + n { a[k] := a[k + 1]; }
    }

    /** held_mutexes_array_remove_idx: the first buffered entry moves into the inline slots. */
    method RemoveIndex(i: nat)
      requires Valid() && i < |contents|
      modifies this`size, this`contents, inlined, dynamic
      ensures Valid() && contents == RemoveAt(old(contents), i) && size == |contents|
    {
      if i >= INLINE {
        RemoveBuffered(i);
      } else {
        RemoveInlined(i);
      }
    }

    method RemoveBuffered(i: nat)
      requires Valid() && INLINE <= i < |contents|
      modifies this`size, this`contents, dynamic
      ensures Valid() && contents == RemoveAt(old(contents), i) && size == |contents|
    {
      MoveDown(dynamic, i - INLINE, size - INLINE - (i - INLINE + 1));
      size, contents := size - 1, RemoveAt(contents, i);
    }

    method RemoveInlined(i: nat)
      requires Valid() && i < |contents| && i < INLINE
      modifies this`size, this`contents, inlined, dynamic
      ensures Valid() && contents == RemoveAt(old(contents), i) && size == |contents|
    {
      MoveDown(inlined, i, (if size < INLINE then size else INLINE) - (i + 1));
      if size > INLINE {
        inlined[INLINE - 1] := dynamic[0];
        MoveDown(dynamic, 0, size - (INLINE + 1));
      }
      size, contents := size - 1, RemoveAt(contents, i);
    }
  }

  /** The mutex state of an execution context and of the mutexes it uses. */
  class Context {
    const lvl: map<nat, nat>
    const held: HeldArray
    var owned: set<nat>
    var depth: map<nat, nat>
    var level: nat
    var frames: seq<Frame>

    ghost function View(): State
      reads this, held
    {
      State(lvl, owned, depth, held.contents, level, frames)
    }

    constructor (lvl: map<nat, nat>)
      ensures held.Valid() && Inv(View()) && LevelOk(View()) && this.lvl == lvl
      ensures View() == State(lvl, {}, map m | m in lvl :: 0, [], 0, []) && fresh(held) && fresh(held.inlined) && fresh(held.dynamic)
    {
      this.lvl := lvl;
      owned, depth, level, frames := {}, map m | m in lvl :: 0, 0, [];
      held := new HeldArray();
    }

    /** uacpi_acquire_aml_mutex. */
    method TakeMutex(m: nat, granted: bool) returns (taken: bool)
      requires m in depth
      modifies this`owned, this`depth
      ensures (View(), taken) == Take(old(View()), m, granted)
    {
      if m in owned {
        if depth[m] == MAX_DEPTH {
          return false;
        }
        depth := depth[m := depth[m] + 1];
        return true;
      }
      if !granted {
        return false;
      }
      owned, depth := owned + {m}, depth[m := 1];
      return true;
    }

    /** uacpi_release_aml_mutex. */
    method GiveMutex(m: nat)
      requires m in depth && depth[m] > 0
      modifies this`owned, this`depth
      ensures View() == Give(old(View()), m)
    {
      var was := depth[m];
      depth := depth[m := was - 1];
      if was > 1 {
        return;
      }
      owned := owned - {m};
    }

    /** Looks for a mutex from the end of the held list. */
    method Find(m: nat) returns (i: nat)
      requires held.Valid()
      ensures i == LastIndex(held.contents, m)
    {
      i := held.size;
      ghost var s := held.contents;
      assert s[..i] == s;
      while i > 0
        invariant i <= |s| && LastIndex(s, m) == if LastIndex(s[..i], m) == i then |s| else LastIndex(s[..i], m)
      {
        assert s[..i][..i - 1] == s[..i - 1];
        i := i - 1;
        if held.At(i) == m {
          return;
        }
      }
      return held.size;
    }

    /** Takes the last occurrence of a mutex off the held list; the end of the list needs no search. */
    method TakeOff(m: nat) returns (found: bool)
      requires held.Valid() && held.size > 0
      modifies held`size, held`contents, held.inlined, held.dynamic
      ensures held.Valid() && found == (LastIndex(old(held.contents), m) < |old(held.contents)|)
      ensures held.contents == if found then RemoveAt(old(held.contents), LastIndex(old(held.contents), m)) else old(held.contents)
    {
      ghost var s := held.contents;
      if held.At(held.size - 1) == m {
        assert RemoveAt(s, |s| - 1) == s[..|s| - 1];
        held.Pop();
        return true;
      }
      var i := Find(m);
      if i == held.size {
        return false;
      }
      held.RemoveIndex(i);
      return true;
    }

    /** held_mutexes_array_remove_and_release. */
    method RemoveAndRelease(m: nat, force: bool) returns (ok: bool)
      requires held.Valid() && Sane(View()) && m in lvl
      modifies this`owned, this`depth, held`size, held`contents, held.inlined, held.dynamic
      ensures held.Valid() && (View(), ok) == Mutexes.RemoveAndRelease(old(View()), m, force)
    {
      if held.size == 0 {
        return false;
      }
      assert held.At(held.size - 1) in held.contents;
      if lvl[held.At(held.size - 1)] != lvl[m] && !force {
        return true;
      }
      if depth[m] > 1 && !force {
        GiveMutex(m);
        return true;
      }
      ok := TakeOff(m);
      if ok {
        depth := depth[m := 1];
        GiveMutex(m);
      }
    }

    /** The Acquire operator; `granted` says whether a wait for another owner succeeds. */
    method Acquire(m: nat, granted: bool)
      requires held.Valid() && Sane(View()) && m in lvl
      modifies this`owned, this`depth, this`level, held, held.inlined, held.dynamic
      ensures held.Valid() && View() == Mutexes.Acquire(old(View()), m, granted) && (held.dynamic == old(held.dynamic) || fresh(held.dynamic))
    {
      if level > lvl[m] {
        return;
      }
      var had := m in owned;
      var taken := TakeMutex(m, granted);
      if taken && !had {
        held.Push(m);
        level := lvl[m];
      }
    }

    /** The Release operator. */
    method Release(m: nat)
      requires held.Valid() && Sane(View()) && m in lvl
      modifies this`owned, this`depth, this`level, held`size, held`contents, held.inlined, held.dynamic
      ensures held.Valid() && View() == Mutexes.Release(old(View()), m)
    {
      if m !in owned {
        return;
      }
      SaneRemove(View(), m, false);
      var ok := RemoveAndRelease(m, false);
      if ok {
        level := CurrentLevel();
      }
    }

    method CurrentLevel() returns (l: nat)
      requires held.Valid() && Sane(View())
      ensures l == TopLevel(lvl, held.contents)
    {
      if held.size == 0 {
        return 0;
      }
      assert held.At(held.size - 1) in held.contents;
      return lvl[held.At(held.size - 1)];
    }

    /** enter_method for a serialized method; the frame is pushed only on success. */
    method Enter(m: nat, granted: bool)
      requires held.Valid() && Sane(View()) && m in lvl
      modifies this, held, held.inlined, held.dynamic
      ensures held.Valid() && View() == Mutexes.Enter(old(View()), m, granted) && (held.dynamic == old(held.dynamic) || fresh(held.dynamic))
    {
      if level > lvl[m] {
        return;
      }
      if m !in owned {
        var taken := TakeMutex(m, granted);
        if !taken {
          return;
        }
        held.Push(m);
      }
      frames, level := frames + [Frame(Some(m), level)], lvl[m];
    }

    /** ctx_reload_post_ret. */
    method Exit()
      requires held.Valid() && Sane(View()) && frames != []
      modifies this, held`size, held`contents, held.inlined, held.dynamic
      ensures held.Valid() && View() == Mutexes.Exit(old(View()))
    {
      var top := frames[|frames| - 1];
      if top.mutex.Some? {
        var _ := RemoveAndRelease(top.mutex.value, true);
        level := top.previous;
      }
      frames := frames[..|frames| - 1];
    }

    method ReleaseLast()
      requires held.Valid() && Inv(View()) && held.contents != []
      modifies this`owned, this`depth, held`size, held`contents, held.inlined, held.dynamic
      ensures held.Valid() && Inv(View()) && |held.contents| < |old(held.contents)| && ReleaseAll(View()) == ReleaseAll(old(View()))
    {
      ReleaseAllStep(View());
      var _ := RemoveAndRelease(held.At(held.size - 1), true);
    }

    /** execution_context_release: afterwards the thread owns none of its mutexes. */
    method ReleaseContext()
      requires held.Valid() && Inv(View())
      modifies this`owned, this`depth, held`size, held`contents, held.inlined, held.dynamic
      ensures held.Valid() && View() == ReleaseAll(old(View())) && owned == {}
    {
      ReleaseAllFrees(View());
      while held.size != 0
        invariant held.Valid() && Inv(View()) && ReleaseAll(View()) == ReleaseAll(old(View()))
        decreases |held.contents|
      {
        ReleaseLast();
      }
    }
  }
}
