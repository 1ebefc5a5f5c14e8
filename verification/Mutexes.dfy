/**
  AML mutexes of one execution context (interpreter.c, mutex.c), on values: which mutexes
  the thread owns, the list of those the context holds, and its current sync level.
 */
module Mutexes {
  import opened Prelude

  /** A call frame: the mutex of a serialized method and the sync level to go back to. */
  datatype Frame = Frame(mutex: Option<nat>, previous: nat)

  /** `lvl` gives every mutex its sync level; `owned` are the mutexes whose owner is this thread. */
  datatype State = State(lvl: map<nat, nat>, owned: set<nat>, depth: map<nat, nat>, held: seq<nat>, level: nat, frames: seq<Frame>)

  const MAX_DEPTH: nat := 0xFFFF

  // ----- one mutex -----

  /** uacpi_acquire_aml_mutex; `granted` says whether waiting for a mutex of another owner succeeds. */
  function Take(s: State, m: nat, granted: bool): (State, bool)
    requires m in s.depth
  {
    if m in s.owned then
      if s.depth[m] == MAX_DEPTH then (s, false) else (s.(depth := s.depth[m := s.depth[m] + 1]), true)
    else if granted then (s.(owned := s.owned + {m}, depth := s.depth[m := 1]), true)
    else (s, false)
  }

  /** uacpi_release_aml_mutex. */
  function Give(s: State, m: nat): State
    requires m in s.depth && s.depth[m] > 0
  {
    if s.depth[m] > 1 then s.(depth := s.depth[m := s.depth[m] - 1])
    else s.(depth := s.depth[m := 0], owned := s.owned - {m})
  }

  // ----- the held list -----

  function RemoveAt<T>(s: seq<T>, i: nat): seq<T>
    requires i < |s|
  {
    s[..i] + s[i + 1..]
  }

  /** The last place where `m` occurs; |s| if it does not. */
  function LastIndex(s: seq<nat>, m: nat): (i: nat)
    ensures i <= |s| && (i < |s| ==> s[i] == m) && (i == |s| ==> m !in s)
    ensures forall k :: i < k < |s| ==> s[k] != m
  {
    if s == [] then 0
    else if s[|s| - 1] == m then |s| - 1
    else
      var i := LastIndex(s[..|s| - 1], m);
      if i == |s| - 1 then |s| else i
  }

  function TopLevel(lvl: map<nat, nat>, held: seq<nat>): nat
    requires held != [] ==> held[|held| - 1] in lvl
  {
    if held == [] then 0 else lvl[held[|held| - 1]]
  }

  /** held_mutexes_array_remove_and_release; the flag is its success. */
  function RemoveAndRelease(s: State, m: nat, force: bool): (State, bool)
    requires Sane(s) && m in s.lvl
  {
    if s.held == [] then (s, false)
    else if TopLevel(s.lvl, s.held) != s.lvl[m] && !force then (s, true)
    else if s.depth[m] > 1 && !force then (Give(s, m), true)
    else
      var i := LastIndex(s.held, m);
      if i == |s.held| then (s, false)
      else (Give(s.(held := RemoveAt(s.held, i), depth := s.depth[m := 1]), m), true)
  }

  // ----- the operations -----

  /** Every mutex the state speaks of has a level and a depth. */
  predicate Sane(s: State) {
    && s.depth.Keys == s.lvl.Keys && s.owned <= s.lvl.Keys
    && (forall m :: m in s.held ==> m in s.lvl)
    && (forall i :: 0 <= i < |s.frames| && s.frames[i].mutex.Some? ==> s.frames[i].mutex.value in s.lvl)
  }

  /** The Acquire operator. */
  function Acquire(s: State, m: nat, granted: bool): State
    requires Sane(s) && m in s.lvl
  {
    if s.level > s.lvl[m] then s
    else if m in s.owned then Take(s, m, granted).0
    else
      var (t, taken) := Take(s, m, granted);
      if taken then t.(held := t.held + [m], level := t.lvl[m]) else t
  }

  /** The Release operator. */
  function Release(s: State, m: nat): State
    requires Sane(s) && m in s.lvl
    ensures Sane(Release(s, m))
  {
    if m !in s.owned then s
    else
      var (t, done) := RemoveAndRelease(s, m, false);
      SaneRemove(s, m, false);
      if done then t.(level := TopLevel(t.lvl, t.held)) else t
  }

  lemma SaneRemove(s: State, m: nat, force: bool)
    requires Sane(s) && m in s.lvl
    ensures Sane(RemoveAndRelease(s, m, force).0)
  {
  }

  /** enter_method for a serialized method with mutex `m`; no frame is left behind on failure. */
  function Enter(s: State, m: nat, granted: bool): State
    requires Sane(s) && m in s.lvl
  {
    if s.level > s.lvl[m] then s
    else if m in s.owned then s.(frames := s.frames + [Frame(Some(m), s.level)], level := s.lvl[m])
    else
      var (t, taken) := Take(s, m, granted);
      if taken then t.(held := t.held + [m], frames := s.frames + [Frame(Some(m), s.level)], level := s.lvl[m]) else t
  }

  function EnterPlain(s: State): State { s.(frames := s.frames + [Frame(None, 0)]) }

  /** ctx_reload_post_ret: leaves the innermost method. */
  function Exit(s: State): State
    requires Sane(s) && s.frames != []
    ensures Sane(Exit(s))
  {
    var top, below := s.frames[|s.frames| - 1], s.frames[..|s.frames| - 1];
    if top.mutex.None? then s.(frames := below)
    else
      SaneRemove(s, top.mutex.value, true);
      RemoveAndRelease(s, top.mutex.value, true).0.(level := top.previous, frames := below)
  }

  /** execution_context_release: forces out everything that is still held. */
  function ReleaseAll(s: State): State
    requires Sane(s)
    decreases |s.held|
  {
    if s.held == [] then s
    else
      var m := s.held[|s.held| - 1];
      SaneRemove(s, m, true);
      ReleaseAll(RemoveAndRelease(s, m, true).0)
  }

  // ----- runs -----

  datatype Step = AcquireStep(m: nat, granted: bool) | ReleaseStep(m: nat) | EnterStep(m: nat, granted: bool) | EnterPlainStep | ExitStep

  predicate Possible(s: State, step: Step) {
    match step
    case AcquireStep(m, _) => m in s.lvl
    case ReleaseStep(m) => m in s.lvl
    case EnterStep(m, _) => m in s.lvl
    case EnterPlainStep => true
    case ExitStep => s.frames != []
  }

  function Do(s: State, step: Step): State
    requires Sane(s) && Possible(s, step)
  {
    match step
    case AcquireStep(m, granted) => Acquire(s, m, granted)
    case ReleaseStep(m) => Release(s, m)
    case EnterStep(m, granted) => Enter(s, m, granted)
    case EnterPlainStep => EnterPlain(s)
    case ExitStep => Exit(s)
  }

  // ----- what every run keeps -----

  /** The thread owns exactly the mutexes of the duplicate-free held list, each at least once. */
  ghost predicate Inv(s: State) {
    && Sane(s) && NoDup(s.held)
    && (forall m :: m in s.lvl ==> (m in s.owned <==> m in s.held))
    && (forall m :: m in s.owned ==> 1 <= s.depth[m] <= MAX_DEPTH)
  }

  lemma RemoveAtProps<T>(s: seq<T>, i: nat)
    requires NoDup(s) && i < |s|
    ensures NoDup(RemoveAt(s, i)) && forall x :: x in RemoveAt(s, i) <==> x in s && x != s[i]
  {
    var r := RemoveAt(s, i);
    forall x | x in s && x != s[i] ensures x in r {
      var k :| 0 <= k < |s| && s[k] == x;
      assert r[if k < i then k else k - 1] == x;
    }
  }

  lemma RemoveKeepsInv(s: State, m: nat, force: bool)
    requires Inv(s) && m in s.lvl
    ensures Inv(RemoveAndRelease(s, m, force).0)
  {
    SaneRemove(s, m, force);
    var i := LastIndex(s.held, m);
    if i < |s.held| {
      RemoveAtProps(s.held, i);
    }
  }

  lemma TakeKeepsInv(s: State, m: nat, granted: bool)
    requires Inv(s) && m in s.lvl
    ensures var (t, taken) := Take(s, m, granted);
            if m in s.owned then Inv(t) else if taken then Inv(t.(held := t.held + [m])) else t == s
  {
  }

  lemma AcquireKeepsInv(s: State, m: nat, granted: bool)
    requires Inv(s) && m in s.lvl
    ensures Inv(Acquire(s, m, granted))
  {
    TakeKeepsInv(s, m, granted);
  }

  lemma EnterKeepsInv(s: State, m: nat, granted: bool)
    requires Inv(s) && m in s.lvl
    ensures Inv(Enter(s, m, granted))
  {
    TakeKeepsInv(s, m, granted);
  }

  lemma ExitKeepsInv(s: State)
    requires Inv(s) && s.frames != []
    ensures Inv(Exit(s))
  {
    var top := s.frames[|s.frames| - 1];
    if top.mutex.Some? { RemoveKeepsInv(s, top.mutex.value, true); }
  }

  lemma StepKeepsInv(s: State, step: Step)
    requires Inv(s) && Possible(s, step)
    ensures Inv(Do(s, step))
  {
    match step
    case AcquireStep(m, granted) => AcquireKeepsInv(s, m, granted);
    case ReleaseStep(m) => RemoveKeepsInv(s, m, false);
    case EnterStep(m, granted) => EnterKeepsInv(s, m, granted);
    case EnterPlainStep =>
    case ExitStep => ExitKeepsInv(s);
  }

  /** Each step of a run can happen where it does. */
  predicate Feasible(s: State, steps: seq<Step>)
    requires Sane(s)
    decreases |steps|
  {
    steps == [] || (Possible(s, steps[0]) && (SaneStep(s, steps[0]); Feasible(Do(s, steps[0]), steps[1..])))
  }

  function After(s: State, steps: seq<Step>): State
    requires Sane(s) && Feasible(s, steps)
    decreases |steps|
  {
    if steps == [] then s else SaneStep(s, steps[0]); After(Do(s, steps[0]), steps[1..])
  }

  lemma SaneStep(s: State, step: Step)
    requires Sane(s) && Possible(s, step)
    ensures Sane(Do(s, step)) && Do(s, step).lvl == s.lvl
  {
  }

  lemma {:induction false} RunKeepsInv(s: State, steps: seq<Step>)
    requires Inv(s) && Feasible(s, steps)
    ensures Inv(After(s, steps))
    decreases |steps|
  {
    if steps != [] {
      StepKeepsInv(s, steps[0]);
      RunKeepsInv(Do(s, steps[0]), steps[1..]);
    }
  }

  /** Releasing the context leaves the thread without a mutex and touches no other mutex. */
  lemma {:induction false} ReleaseAllFrees(s: State)
    requires Inv(s)
    ensures ReleaseAll(s).owned == {} && ReleaseAll(s).held == []
    ensures ReleaseAll(s).depth.Keys == s.depth.Keys
    ensures forall m :: m in s.depth ==> ReleaseAll(s).depth[m] == if m in s.held then 0 else s.depth[m]
    decreases |s.held|
  {
    if s.held == [] {
      assert s.owned == {};
    } else {
      var m := s.held[|s.held| - 1];
      RemoveKeepsInv(s, m, true);
      RemoveAtProps(s.held, LastIndex(s.held, m));
      ReleaseAllFrees(RemoveAndRelease(s, m, true).0);
    }
  }

  lemma ReleaseAllStep(s: State)
    requires Inv(s) && s.held != []
    ensures var m := s.held[|s.held| - 1];
            && m in s.lvl && Inv(RemoveAndRelease(s, m, true).0) && |RemoveAndRelease(s, m, true).0.held| < |s.held|
            && ReleaseAll(RemoveAndRelease(s, m, true).0) == ReleaseAll(s)
  {
    RemoveKeepsInv(s, s.held[|s.held| - 1], true);
  }

  /** Whatever a context did, none of its mutexes outlives it. */
  lemma NothingOutlivesContext(s: State, steps: seq<Step>)
    requires Inv(s) && Feasible(s, steps)
    ensures Inv(After(s, steps)) && ReleaseAll(After(s, steps)).owned == {}
  {
    RunKeepsInv(s, steps);
    ReleaseAllFrees(After(s, steps));
  }

  // ----- sync levels -----

  ghost predicate Sorted(lvl: map<nat, nat>, held: seq<nat>)
    requires forall m :: m in held ==> m in lvl
  {
    forall i, j :: 0 <= i < j < |held| ==> lvl[held[i]] <= lvl[held[j]]
  }

  /** The held list is sorted by sync level and the current level is that of its last mutex. */
  ghost predicate LevelOk(s: State)
    requires Sane(s)
  {
    Sorted(s.lvl, s.held) && s.level == TopLevel(s.lvl, s.held)
  }

  lemma RemoveAtSorted(lvl: map<nat, nat>, held: seq<nat>, i: nat)
    requires i < |held| && (forall m :: m in held ==> m in lvl) && Sorted(lvl, held)
    ensures forall m :: m in RemoveAt(held, i) ==> m in lvl
    ensures Sorted(lvl, RemoveAt(held, i))
  {
  }

  /** A mutex that is let through goes to the end of the list. */
  lemma AppendSorted(lvl: map<nat, nat>, held: seq<nat>, m: nat)
    requires (forall k :: k in held ==> k in lvl) && Sorted(lvl, held) && m in lvl && TopLevel(lvl, held) <= lvl[m]
    ensures forall k :: k in held + [m] ==> k in lvl
    ensures Sorted(lvl, held + [m]) && TopLevel(lvl, held + [m]) == lvl[m]
  {
  }

  lemma AcquireKeepsLevel(s: State, m: nat, granted: bool)
    requires Inv(s) && m in s.lvl && LevelOk(s)
    ensures Sane(Acquire(s, m, granted)) && LevelOk(Acquire(s, m, granted))
  {
    SaneStep(s, AcquireStep(m, granted));
    if s.level <= s.lvl[m] {
      AppendSorted(s.lvl, s.held, m);
    }
  }

  lemma EnterKeepsLevel(s: State, m: nat, granted: bool)
    requires Inv(s) && m in s.lvl && LevelOk(s)
    ensures Sane(Enter(s, m, granted)) && LevelOk(Enter(s, m, granted))
  {
    SaneStep(s, EnterStep(m, granted));
    if s.level <= s.lvl[m] {
      AppendSorted(s.lvl, s.held, m);
      if m in s.owned { OwnedIsTop(s, m); }
    }
  }

  /** A mutex that is held although the level lets it through has the level of the last one. */
  lemma OwnedIsTop(s: State, m: nat)
    requires Inv(s) && LevelOk(s) && m in s.owned && s.level <= s.lvl[m]
    ensures s.level == s.lvl[m]
  {
    var i :| 0 <= i < |s.held| && s.held[i] == m;
  }

  lemma ReleaseKeepsLevel(s: State, m: nat)
    requires Inv(s) && m in s.lvl && LevelOk(s)
    ensures LevelOk(Release(s, m))
  {
    var i := LastIndex(s.held, m);
    if i < |s.held| { RemoveAtSorted(s.lvl, s.held, i); }
  }

  lemma StepKeepsLevel(s: State, step: Step)
    requires Inv(s) && Possible(s, step) && LevelOk(s) && !step.ExitStep?
    ensures Sane(Do(s, step)) && LevelOk(Do(s, step))
  {
    match step
    case AcquireStep(m, granted) => AcquireKeepsLevel(s, m, granted);
    case ReleaseStep(m) => ReleaseKeepsLevel(s, m);
    case EnterStep(m, granted) => EnterKeepsLevel(s, m, granted);
    case EnterPlainStep =>
  }

  /** What is held besides the mutex of the innermost method. */
  function Others(s: State): seq<nat>
    requires s.frames != []
  {
    var top := s.frames[|s.frames| - 1];
    if top.mutex.None? then s.held
    else
      var i := LastIndex(s.held, top.mutex.value);
      if i == |s.held| then s.held else RemoveAt(s.held, i)
  }

  lemma ExitHolds(s: State)
    requires Inv(s) && s.frames != []
    ensures Exit(s).held == Others(s) && (forall m :: m in Others(s) ==> m in s.lvl)
    ensures Sorted(s.lvl, s.held) ==> Sorted(s.lvl, Others(s))
  {
    var top := s.frames[|s.frames| - 1];
    if top.mutex.Some? {
      SaneRemove(s, top.mutex.value, true);
      var i := LastIndex(s.held, top.mutex.value);
      if i < |s.held| && Sorted(s.lvl, s.held) { RemoveAtSorted(s.lvl, s.held, i); }
    }
  }

  /**
    A serialized method entered in `s` and left in `t`: the order of sync levels survives the
    return exactly if, apart from the method's own mutex, the last mutex held on leaving has
    the level of the last one held on entering.
   */
  lemma CallKeepsLevel(s: State, m: nat, granted: bool, t: State)
    requires Inv(s) && LevelOk(s) && m in s.lvl && |Enter(s, m, granted).frames| > |s.frames|
    requires Inv(t) && t.lvl == s.lvl && t.frames == Enter(s, m, granted).frames && Sorted(t.lvl, t.held)
    ensures (forall k :: k in Others(t) ==> k in s.lvl)
    ensures LevelOk(Exit(t)) <==> TopLevel(s.lvl, Others(t)) == TopLevel(s.lvl, s.held)
    ensures Exit(t).frames == s.frames
  {
    ExitHolds(t);
    assert t.frames[..|t.frames| - 1] == s.frames;
  }

  /** A method that leaves the held list as it found it gives back exactly what was held before. */
  lemma CallRestores(s: State, m: nat, granted: bool, t: State)
    requires Inv(s) && LevelOk(s) && m in s.lvl && m !in s.owned && |Enter(s, m, granted).frames| > |s.frames|
    requires Inv(t) && t.lvl == s.lvl && t.frames == Enter(s, m, granted).frames && t.held == s.held + [m]
    ensures Exit(t).held == s.held && Exit(t).level == s.level && Exit(t).owned == s.owned
  {
    ExitHolds(t);
    assert LastIndex(t.held, m) == |s.held| && RemoveAt(t.held, |s.held|) == s.held;
    StepKeepsInv(t, ExitStep);
    SameOwned(s, Exit(t));
  }

  lemma SameOwned(s: State, t: State)
    requires Inv(s) && Inv(t) && s.lvl == t.lvl && s.held == t.held
    ensures s.owned == t.owned
  {
    forall k ensures k in t.owned <==> k in s.owned { }
  }

  /** The Release operator takes back what the Acquire operator did. */
  lemma ReleaseUndoesAcquire(s: State, m: nat)
    requires Inv(s) && LevelOk(s) && m in s.lvl && s.level <= s.lvl[m] && (m in s.owned ==> s.depth[m] < MAX_DEPTH)
    ensures Sane(Acquire(s, m, true)) && m in Acquire(s, m, true).owned
    ensures Release(Acquire(s, m, true), m) == if m in s.owned then s else s.(depth := s.depth[m := 0])
  {
    SaneStep(s, AcquireStep(m, true));
    var t := Acquire(s, m, true);
    if m in s.owned {
      var i := LastIndex(s.held, m);
      assert s.lvl[s.held[i]] <= TopLevel(s.lvl, s.held);
      assert t.depth[m := t.depth[m] - 1] == s.depth;
    } else {
      assert LastIndex(t.held, m) == |s.held| && RemoveAt(t.held, |s.held|) == s.held;
      assert t.owned - {m} == s.owned;
      assert t.depth[m := 1][m := 0] == s.depth[m := 0];
    }
  }

  /** Every return finds, apart from the method's own mutex, the level it is about to go back to. */
  predicate CleanReturns(s: State, steps: seq<Step>)
    requires Inv(s) && Feasible(s, steps)
    decreases |steps|
  {
    steps == [] ||
    (StepKeepsInv(s, steps[0]);
     && (steps[0].ExitStep? && s.frames[|s.frames| - 1].mutex.Some? ==>
           (ExitHolds(s); TopLevel(s.lvl, Others(s)) == s.frames[|s.frames| - 1].previous))
     && CleanReturns(Do(s, steps[0]), steps[1..]))
  }

  /** The order of sync levels holds in every state of the run. */
  ghost predicate AlwaysOrdered(s: State, steps: seq<Step>)
    requires Inv(s) && Feasible(s, steps)
    decreases |steps|
  {
    LevelOk(s) && (steps == [] || (StepKeepsInv(s, steps[0]); AlwaysOrdered(Do(s, steps[0]), steps[1..])))
  }

  /** A return keeps the order exactly if it is clean. */
  lemma ReturnKeepsLevel(s: State)
    requires Inv(s) && LevelOk(s) && s.frames != []
    ensures (forall m :: m in Others(s) ==> m in s.lvl)
    ensures var top := s.frames[|s.frames| - 1];
            LevelOk(Exit(s)) <==> (top.mutex.Some? ==> TopLevel(s.lvl, Others(s)) == top.previous)
  {
    ExitHolds(s);
    if s.frames[|s.frames| - 1].mutex.Some? { SaneRemove(s, s.frames[|s.frames| - 1].mutex.value, true); }
  }

  /** Over every run the order holds throughout exactly if all returns are clean. */
  lemma {:induction false} RunKeepsLevel(s: State, steps: seq<Step>)
    requires Inv(s) && LevelOk(s) && Feasible(s, steps)
    ensures AlwaysOrdered(s, steps) <==> CleanReturns(s, steps)
    decreases |steps|
  {
    if steps != [] {
      StepKeepsInv(s, steps[0]);
      if steps[0].ExitStep? {
        ReturnKeepsLevel(s);
      } else {
        StepKeepsLevel(s, steps[0]);
      }
      if LevelOk(Do(s, steps[0])) {
        RunKeepsLevel(Do(s, steps[0]), steps[1..]);
      }
    }
  }

  /** Once the current level is below that of the last held mutex, the order can be broken. */
  lemma LowLevelBreaksOrder(s: State, m: nat)
    requires Inv(s) && m in s.lvl && m !in s.owned && s.level <= s.lvl[m] < TopLevel(s.lvl, s.held)
    ensures Sane(Acquire(s, m, true)) && !Sorted(s.lvl, Acquire(s, m, true).held)
  {
    SaneStep(s, AcquireStep(m, true));
    var t := Acquire(s, m, true);
    assert t.held[|s.held| - 1] == s.held[|s.held| - 1] && t.held[|s.held|] == m;
  }

  // Method mutex 0 of level 0 and mutex 5 of level 5: nothing held, inside the method, and after
  // it has acquired mutex 5.
  const LEVELS := map[0 := 0, 5 := 5]
  const IDLE := State(LEVELS, {}, map[0 := 0, 5 := 0], [], 0, [])
  const INSIDE := State(LEVELS, {0}, map[0 := 1, 5 := 0], [0], 0, [Frame(Some(0), 0)])
  const LEAKING := State(LEVELS, {0, 5}, map[0 := 1, 5 := 1], [0, 5], 5, [Frame(Some(0), 0)])

  lemma LeakStarts()
    ensures Inv(IDLE) && LevelOk(IDLE) && Enter(IDLE, 0, true) == INSIDE
  {
  }

  lemma LeakAcquires()
    ensures Sane(INSIDE) && Acquire(INSIDE, 5, true) == LEAKING
  {
  }

  /** A method that returns without releasing a mutex leaves the current level below it. */
  lemma LeakLowersLevel()
    ensures Inv(IDLE) && LevelOk(IDLE) && Enter(IDLE, 0, true) == INSIDE
    ensures Sane(INSIDE) && Acquire(INSIDE, 5, true) == LEAKING
    ensures Sane(LEAKING) && Exit(LEAKING).held == [5] && Exit(LEAKING).level == 0
  {
    LeakStarts();
    LeakAcquires();
    LeakReturns();
  }

  lemma LeakReturns()
    ensures Sane(LEAKING) && Exit(LEAKING).held == [5] && Exit(LEAKING).level == 0
  {
    assert LastIndex([0, 5], 0) == 0 by { assert [0, 5][..1] == [0]; }
    assert RemoveAt([0, 5], 0) == [5];
  }

  // ----- serialized methods -----

  /** A thread that runs a serialized method owns the method's mutex. */
  ghost predicate Serialized(s: State) {
    forall i :: 0 <= i < |s.frames| && s.frames[i].mutex.Some? ==> s.frames[i].mutex.value in s.owned
  }

  /** AML names no method's mutex, so Release is only applied to other ones. */
  ghost predicate Nameable(s: State, m: nat) {
    forall i :: 0 <= i < |s.frames| ==> s.frames[i].mutex != Some(m)
  }

  lemma StepKeepsSerialized(s: State, step: Step)
    requires Inv(s) && Possible(s, step) && Serialized(s) && !step.ExitStep? && (step.ReleaseStep? ==> Nameable(s, step.m))
    ensures Serialized(Do(s, step))
  {
    match step
    case AcquireStep(m, granted) =>
    case ReleaseStep(m) =>
    case EnterStep(m, granted) =>
    case EnterPlainStep =>
  }

  /** Returning from a method keeps the others serialized exactly if it was not called recursively. */
  lemma ExitKeepsSerialized(s: State)
    requires Inv(s) && Serialized(s) && s.frames != []
    ensures var top, below := s.frames[|s.frames| - 1], s.frames[..|s.frames| - 1];
            Serialized(Exit(s)) <==> top.mutex.None? || forall i :: 0 <= i < |below| ==> below[i].mutex != top.mutex
  {
    var top, below := s.frames[|s.frames| - 1], s.frames[..|s.frames| - 1];
    if top.mutex.Some? {
      var m := top.mutex.value;
      StepKeepsInv(s, ExitStep);
      ExitHolds(s);
      RemoveAtProps(s.held, LastIndex(s.held, m));
      assert forall k :: k in Exit(s).owned <==> k in s.owned && k != m;
    }
  }

  /** The innermost method is not active a second time further out. */
  ghost predicate NotRecursive(s: State)
    requires s.frames != []
  {
    var top, below := s.frames[|s.frames| - 1], s.frames[..|s.frames| - 1];
    top.mutex.None? || forall i :: 0 <= i < |below| ==> below[i].mutex != top.mutex
  }

  /** Release is applied to nameable mutexes only. */
  ghost predicate NamesOnly(s: State, steps: seq<Step>)
    requires Inv(s) && Feasible(s, steps)
    decreases |steps|
  {
    steps == [] ||
    (&& (steps[0].ReleaseStep? ==> Nameable(s, steps[0].m))
     && (StepKeepsInv(s, steps[0]); NamesOnly(Do(s, steps[0]), steps[1..])))
  }

  ghost predicate NoRecursiveReturns(s: State, steps: seq<Step>)
    requires Inv(s) && Feasible(s, steps)
    decreases |steps|
  {
    steps == [] ||
    (&& (steps[0].ExitStep? ==> NotRecursive(s))
     && (StepKeepsInv(s, steps[0]); NoRecursiveReturns(Do(s, steps[0]), steps[1..])))
  }

  ghost predicate AlwaysSerialized(s: State, steps: seq<Step>)
    requires Inv(s) && Feasible(s, steps)
    decreases |steps|
  {
    Serialized(s) && (steps == [] || (StepKeepsInv(s, steps[0]); AlwaysSerialized(Do(s, steps[0]), steps[1..])))
  }

  /** Over every run no active serialized method loses its mutex exactly if no return is from a recursive call. */
  lemma {:induction false} RunKeepsSerialized(s: State, steps: seq<Step>)
    requires Inv(s) && Serialized(s) && Feasible(s, steps) && NamesOnly(s, steps)
    ensures AlwaysSerialized(s, steps) <==> NoRecursiveReturns(s, steps)
    decreases |steps|
  {
    if steps != [] {
      StepKeepsInv(s, steps[0]);
      if steps[0].ExitStep? {
        ExitKeepsSerialized(s);
      } else {
        StepKeepsSerialized(s, steps[0]);
      }
      if Serialized(Do(s, steps[0])) {
        RunKeepsSerialized(Do(s, steps[0]), steps[1..]);
      }
    }
  }

  const TWICE := INSIDE.(frames := [Frame(Some(0), 0), Frame(Some(0), 0)])

  /** A serialized method calls itself: the inner return drops the mutex while the outer call goes on. */
  lemma RecursionDropsMutex()
    ensures Inv(IDLE) && Serialized(IDLE) && Enter(IDLE, 0, true) == INSIDE
    ensures Sane(INSIDE) && Enter(INSIDE, 0, true) == TWICE
    ensures Sane(TWICE) && Serialized(TWICE)
    ensures |Exit(TWICE).frames| == 1 && Exit(TWICE).owned == {} && !Serialized(Exit(TWICE))
  {
    LeakStarts();
    RecursionReturns();
  }

  lemma RecursionReturns()
    ensures Sane(TWICE) && Serialized(TWICE) && Exit(TWICE).frames == [Frame(Some(0), 0)] && Exit(TWICE).owned == {}
    ensures !Serialized(Exit(TWICE))
  {
    var r := RemoveAndRelease(TWICE, 0, true).0;
    assert r.owned == {} && TWICE.frames[..1] == [Frame(Some(0), 0)];
    var t := Exit(TWICE);
    assert t.frames[0].mutex == Some(0);
  }
}
