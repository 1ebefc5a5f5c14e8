/**
  General purpose events (event.c): one register of eight events with their user counts,
  handlers, the four masks and the hardware enable bits. Register accesses succeed.
 */
module Gpe {
  import opened Prelude

  /** A native handler remembers what it displaced. */
  datatype Handler =
    | NoHandler
    | AmlMethod(node: nat)
    | ImplicitNotify(devices: seq<nat>)
    | Native(raw: bool, callback: nat, previous: Handler, previouslyEdge: bool, previouslyEnabled: bool)

  datatype Event = Event(users: nat, handler: Handler, edge: bool, wake: bool, blocked: bool)

  /** Masks are sets of event positions; `enable` is the hardware enable register. */
  datatype Reg = Reg(events: seq<Event>, runtime: set<nat>, wake: set<nat>, masked: set<nat>, current: set<nat>, enable: set<nat>)

  const EVENTS: nat := 8
  const MAX_USERS: nat := 0xFF

  predicate Shaped(s: Reg) { |s.events| == EVENTS }

  datatype Level = Enabled | EnabledConditionally | Disabled

  /** set_gpe_state. */
  function SetState(s: Reg, i: nat, level: Level): Reg {
    if i in s.masked then s
    else if level == EnabledConditionally && i !in s.current then s
    else if level == Disabled then s.(enable := s.enable - {i})
    else s.(enable := s.enable + {i})
  }

  function With(s: Reg, i: nat, e: Event): Reg
    requires Shaped(s) && i < EVENTS
  {
    s.(events := s.events[i := e])
  }

  /** gpe_remove_user; the flag is its success. */
  function RemoveUser(s: Reg, i: nat): (Reg, bool)
    requires Shaped(s) && i < EVENTS
  {
    var e := s.events[i];
    if e.users == 0 then (s, false)
    else
      var t := With(s, i, e.(users := e.users - 1));
      if e.users > 1 then (t, true)
      else (SetState(t.(runtime := t.runtime - {i}, current := t.runtime - {i}), i, Disabled), true)
  }

  /** gpe_add_user. */
  function AddUser(s: Reg, i: nat): (Reg, bool)
    requires Shaped(s) && i < EVENTS
  {
    var e := s.events[i];
    if e.users == MAX_USERS then (s, false)
    else
      var t := With(s, i, e.(users := e.users + 1));
      if e.users > 0 then (t, true)
      else (SetState(t.(runtime := t.runtime + {i}, current := t.runtime + {i}), i, Enabled), true)
  }

  /** restore_gpe. */
  function Restore(s: Reg, i: nat): Reg
    requires Shaped(s) && i < EVENTS
  {
    var t := SetState(s, i, EnabledConditionally);
    With(t, i, t.events[i].(blocked := false))
  }

  /** dispatch_gpe; raw handlers manage the event themselves, others may ask for it to be enabled again. */
  function Dispatch(s: Reg, i: nat, reenable: bool): Reg
    requires Shaped(s) && i < EVENTS
  {
    var h := s.events[i].handler;
    if h.Native? && h.raw then s
    else
      var t := SetState(s, i, Disabled);
      var u := With(t, i, t.events[i].(blocked := true));
      if h.Native? && reenable then Restore(u, i) else u
  }

  /** maybe_dispatch_gpe for an edge event with users; `fired` is the status bit. */
  function Poll(s: Reg, i: nat, fired: bool, reenable: bool): Reg
    requires Shaped(s) && i < EVENTS
  {
    if s.events[i].users > 0 && s.events[i].edge && fired then Dispatch(s, i, reenable) else s
  }

  function Enable(s: Reg, i: nat, fired: bool, reenable: bool): Reg
    requires Shaped(s) && i < EVENTS
  {
    if s.events[i].handler.NoHandler? || !AddUser(s, i).1 then s else Poll(AddUser(s, i).0, i, fired, reenable)
  }

  /** gpe_suspend_resume. */
  function Suspend(s: Reg, i: nat): Reg
    requires Shaped(s) && i < EVENTS
  {
    SetState(With(s, i, s.events[i].(blocked := true)), i, Disabled)
  }

  function Resume(s: Reg, i: nat): Reg
    requires Shaped(s) && i < EVENTS
  {
    SetState(With(s, i, s.events[i].(blocked := false)), i, Enabled)
  }

  /** gpe_get_mask_unmask. */
  function Mask(s: Reg, i: nat): Reg {
    if i in s.masked then s else var t := SetState(s, i, Disabled); t.(masked := t.masked + {i})
  }

  function Unmask(s: Reg, i: nat): Reg
    requires Shaped(s) && i < EVENTS
  {
    if i !in s.masked then s
    else
      var t := s.(masked := s.masked - {i});
      if !t.events[i].blocked && t.events[i].users > 0 then SetState(t, i, EnabledConditionally) else t
  }

  predicate Displaceable(h: Handler) { h.AmlMethod? || h.ImplicitNotify? }

  /** do_install_gpe_handler. */
  function Install(s: Reg, i: nat, raw: bool, callback: nat, edge: bool): Reg
    requires Shaped(s) && i < EVENTS
  {
    var e := s.events[i];
    if e.handler.Native? then s
    else
      var taken := Displaceable(e.handler) && e.users != 0;
      var t := if taken then RemoveUser(s, i).0 else s;
      With(t, i, t.events[i].(handler := Native(raw, callback, e.handler, e.edge, taken), edge := edge))
  }

  /** uacpi_uninstall_gpe_handler. */
  function Uninstall(s: Reg, i: nat, callback: nat, fired: bool, reenable: bool): Reg
    requires Shaped(s) && i < EVENTS
  {
    var e := s.events[i];
    if !e.handler.Native? || e.handler.callback != callback then s
    else
      var t := With(s, i, e.(handler := e.handler.previous, edge := e.handler.previouslyEdge));
      if Displaceable(e.handler.previous) && e.handler.previouslyEnabled then Poll(AddUser(t, i).0, i, fired, reenable) else t
  }

  /** uacpi_setup_gpe_for_wake, for a device or for none. */
  function SetupForWake(s: Reg, i: nat, device: Option<nat>): Reg
    requires Shaped(s) && i < EVENTS
  {
    var e := s.events[i];
    if device.None? then With(s, i, e.(wake := true))
    else
      match e.handler
      case NoHandler => With(s, i, e.(handler := ImplicitNotify([device.value]), edge := false, wake := true))
      case AmlMethod(_) => var t := RemoveUser(s, i).0; With(t, i, t.events[i].(wake := true))
      case Native(_, _, _, _, _) => With(s, i, e.(wake := true))
      case ImplicitNotify(devices) =>
        if device.value in devices then s else With(s, i, e.(handler := ImplicitNotify([device.value] + devices), wake := true))
  }

  /** gpe_enable_disable_for_wake: disabling keeps the bit it should clear and clears the others. */
  function EnableForWake(s: Reg, i: nat): Reg
    requires Shaped(s) && i < EVENTS
  {
    if !s.events[i].wake then s else s.(wake := s.wake + {i})
  }

  function DisableForWake(s: Reg, i: nat): Reg
    requires Shaped(s) && i < EVENTS
  {
    if !s.events[i].wake then s else s.(wake := s.wake * {i})
  }

  /** do_for_all_gpes on one register. */
  function DisableAll(s: Reg): Reg { s.(current := {}, enable := {}) }

  function EnableAllRuntime(s: Reg): Reg { s.(current := s.runtime - s.masked, enable := s.runtime - s.masked) }

  function EnableAllWake(s: Reg): Reg { s.(current := s.wake, enable := s.wake) }

  // ----- runs -----

  datatype Step =
    | EnableStep(i: nat, fired: bool, reenable: bool) | DisableStep(i: nat) | DispatchStep(i: nat, reenable: bool) | RestoreStep(i: nat)
    | SuspendStep(i: nat) | ResumeStep(i: nat) | MaskStep(i: nat) | UnmaskStep(i: nat)
    | InstallStep(i: nat, raw: bool, callback: nat, edge: bool) | UninstallStep(i: nat, callback: nat, fired: bool, reenable: bool)
    | SetupStep(i: nat, device: Option<nat>) | EnableWakeStep(i: nat) | DisableWakeStep(i: nat)
    | DisableAllStep | EnableAllRuntimeStep | EnableAllWakeStep

  predicate IsStep(step: Step) {
    step.DisableAllStep? || step.EnableAllRuntimeStep? || step.EnableAllWakeStep? || step.i < EVENTS
  }

  function Do(s: Reg, step: Step): Reg
    requires Shaped(s) && IsStep(step)
  {
    match step
    case EnableStep(i, fired, reenable) => Enable(s, i, fired, reenable)
    case DisableStep(i) => RemoveUser(s, i).0
    case DispatchStep(i, reenable) => Dispatch(s, i, reenable)
    case RestoreStep(i) => Restore(s, i)
    case SuspendStep(i) => Suspend(s, i)
    case ResumeStep(i) => Resume(s, i)
    case MaskStep(i) => Mask(s, i)
    case UnmaskStep(i) => Unmask(s, i)
    case InstallStep(i, raw, callback, edge) => Install(s, i, raw, callback, edge)
    case UninstallStep(i, callback, fired, reenable) => Uninstall(s, i, callback, fired, reenable)
    case SetupStep(i, device) => SetupForWake(s, i, device)
    case EnableWakeStep(i) => EnableForWake(s, i)
    case DisableWakeStep(i) => DisableForWake(s, i)
    case DisableAllStep => DisableAll(s)
    case EnableAllRuntimeStep => EnableAllRuntime(s)
    case EnableAllWakeStep => EnableAllWake(s)
  }

  function Run(s: Reg, steps: seq<Step>): (r: Reg)
    requires Shaped(s) && forall k :: 0 <= k < |steps| ==> IsStep(steps[k])
    ensures Shaped(r)
    decreases |steps|
  {
    if steps == [] then s else ShapedStep(s, steps[0]); Run(Do(s, steps[0]), steps[1..])
  }

  lemma ShapedStep(s: Reg, step: Step)
    requires Shaped(s) && IsStep(step)
    ensures Shaped(Do(s, step))
  {
  }

  // ----- what every run keeps -----

  /** The runtime bit of an event is set exactly while it has users. */
  ghost predicate UsersOk(s: Reg) {
    && Shaped(s) && (forall i :: i in s.runtime ==> i < EVENTS)
    && forall i :: 0 <= i < EVENTS ==> (i in s.runtime <==> s.events[i].users > 0) && s.events[i].users <= MAX_USERS
  }

  lemma AddKeepsUsers(s: Reg, i: nat)
    requires UsersOk(s) && i < EVENTS
    ensures UsersOk(AddUser(s, i).0)
  {
  }

  lemma RemoveKeepsUsers(s: Reg, i: nat)
    requires UsersOk(s) && i < EVENTS
    ensures UsersOk(RemoveUser(s, i).0)
  {
  }

  /** Changing an event in anything but its user count is no matter. */
  lemma WithKeepsUsers(s: Reg, i: nat, e: Event)
    requires UsersOk(s) && i < EVENTS && e.users == s.events[i].users
    ensures UsersOk(With(s, i, e))
  {
  }

  lemma PollKeepsUsers(s: Reg, i: nat, fired: bool, reenable: bool)
    requires UsersOk(s) && i < EVENTS
    ensures UsersOk(Poll(s, i, fired, reenable)) && UsersOk(Dispatch(s, i, reenable))
  {
  }

  lemma InstallKeepsUsers(s: Reg, i: nat, raw: bool, callback: nat, edge: bool)
    requires UsersOk(s) && i < EVENTS
    ensures UsersOk(Install(s, i, raw, callback, edge))
  {
    RemoveKeepsUsers(s, i);
  }

  lemma UninstallKeepsUsers(s: Reg, i: nat, callback: nat, fired: bool, reenable: bool)
    requires UsersOk(s) && i < EVENTS
    ensures UsersOk(Uninstall(s, i, callback, fired, reenable))
  {
    var e := s.events[i];
    if e.handler.Native? {
      var t := With(s, i, e.(handler := e.handler.previous, edge := e.handler.previouslyEdge));
      WithKeepsUsers(s, i, t.events[i]);
      AddKeepsUsers(t, i);
      PollKeepsUsers(AddUser(t, i).0, i, fired, reenable);
    }
  }

  lemma SetupKeepsUsers(s: Reg, i: nat, device: Option<nat>)
    requires UsersOk(s) && i < EVENTS
    ensures UsersOk(SetupForWake(s, i, device))
  {
    RemoveKeepsUsers(s, i);
  }

  lemma StepKeepsUsers(s: Reg, step: Step)
    requires UsersOk(s) && IsStep(step)
    ensures UsersOk(Do(s, step))
  {
    match step
    case EnableStep(i, fired, reenable) =>
      AddKeepsUsers(s, i);
      PollKeepsUsers(AddUser(s, i).0, i, fired, reenable);
    case DisableStep(i) => RemoveKeepsUsers(s, i);
    case DispatchStep(i, reenable) => PollKeepsUsers(s, i, true, reenable);
    case InstallStep(i, raw, callback, edge) => InstallKeepsUsers(s, i, raw, callback, edge);
    case UninstallStep(i, callback, fired, reenable) => UninstallKeepsUsers(s, i, callback, fired, reenable);
    case SetupStep(i, device) => SetupKeepsUsers(s, i, device);
    case _ =>
  }

  lemma {:induction false} RunKeepsUsers(s: Reg, steps: seq<Step>)
    requires UsersOk(s) && forall k :: 0 <= k < |steps| ==> IsStep(steps[k])
    ensures UsersOk(Run(s, steps))
    decreases |steps|
  {
    if steps != [] {
      StepKeepsUsers(s, steps[0]);
      RunKeepsUsers(Do(s, steps[0]), steps[1..]);
    }
  }

  /** No masked event is enabled in hardware. */
  predicate MaskOk(s: Reg) { s.enable * s.masked == {} }

  lemma StepKeepsMask(s: Reg, step: Step)
    requires Shaped(s) && IsStep(step) && MaskOk(s) && !step.EnableAllWakeStep?
    ensures MaskOk(Do(s, step))
  {
  }

  /** Enabling everything for wake keeps masked events disabled exactly if none of them is a wake event. */
  lemma WakeKeepsMask(s: Reg)
    ensures MaskOk(EnableAllWake(s)) <==> s.wake * s.masked == {}
  {
  }

  /** Hardware and software enables stay within the events that have users. */
  predicate WithinRuntime(s: Reg) { s.enable <= s.runtime && s.current <= s.runtime }

  lemma UserKeepsWithin(s: Reg, i: nat)
    requires UsersOk(s) && i < EVENTS && MaskOk(s) && WithinRuntime(s)
    ensures WithinRuntime(AddUser(s, i).0) && WithinRuntime(RemoveUser(s, i).0)
  {
    assert i in s.enable && i in s.masked ==> i in s.enable * s.masked;
  }

  lemma PollKeepsWithin(s: Reg, i: nat, fired: bool, reenable: bool)
    requires UsersOk(s) && i < EVENTS && WithinRuntime(s)
    ensures WithinRuntime(Poll(s, i, fired, reenable)) && WithinRuntime(Dispatch(s, i, reenable))
  {
  }

  lemma UninstallKeepsWithin(s: Reg, i: nat, callback: nat, fired: bool, reenable: bool)
    requires UsersOk(s) && i < EVENTS && MaskOk(s) && WithinRuntime(s)
    ensures WithinRuntime(Uninstall(s, i, callback, fired, reenable))
  {
    var e := s.events[i];
    if e.handler.Native? {
      var t := With(s, i, e.(handler := e.handler.previous, edge := e.handler.previouslyEdge));
      WithKeepsUsers(s, i, t.events[i]);
      UserKeepsWithin(t, i);
      AddKeepsUsers(t, i);
      PollKeepsWithin(AddUser(t, i).0, i, fired, reenable);
    }
  }

  lemma StepKeepsWithin(s: Reg, step: Step)
    requires UsersOk(s) && IsStep(step) && MaskOk(s) && WithinRuntime(s) && !step.EnableAllWakeStep? && !step.ResumeStep?
    ensures WithinRuntime(Do(s, step))
  {
    match step
    case EnableStep(i, fired, reenable) =>
      UserKeepsWithin(s, i);
      AddKeepsUsers(s, i);
      PollKeepsWithin(AddUser(s, i).0, i, fired, reenable);
    case DisableStep(i) => UserKeepsWithin(s, i);
    case DispatchStep(i, reenable) => PollKeepsWithin(s, i, true, reenable);
    case InstallStep(i, raw, callback, edge) => UserKeepsWithin(s, i);
    case UninstallStep(i, callback, fired, reenable) => UninstallKeepsWithin(s, i, callback, fired, reenable);
    case SetupStep(i, device) => UserKeepsWithin(s, i);
    case _ =>
  }

  /** Resuming an event keeps to the runtime events exactly if it is masked or has users. */
  lemma ResumeKeepsWithin(s: Reg, i: nat)
    requires UsersOk(s) && i < EVENTS && WithinRuntime(s)
    ensures WithinRuntime(Resume(s, i)) <==> i in s.masked || s.events[i].users > 0
  {
  }

  /** Enabling all for wake turns on events without users exactly if a wake event has none. */
  lemma WakeKeepsWithin(s: Reg)
    ensures WithinRuntime(EnableAllWake(s)) <==> s.wake <= s.runtime
  {
  }

  predicate AllSteps(steps: seq<Step>) { forall k :: 0 <= k < |steps| ==> IsStep(steps[k]) }

  /** No state of the run has a masked event enabled in hardware. */
  predicate NeverMaskedOn(s: Reg, steps: seq<Step>)
    requires Shaped(s) && AllSteps(steps)
    decreases |steps|
  {
    MaskOk(s) && (steps == [] || (ShapedStep(s, steps[0]); NeverMaskedOn(Do(s, steps[0]), steps[1..])))
  }

  /** All is enabled for wake only while no masked event is a wake event. */
  predicate WakesUnmasked(s: Reg, steps: seq<Step>)
    requires Shaped(s) && AllSteps(steps)
    decreases |steps|
  {
    steps == [] ||
    (&& (steps[0].EnableAllWakeStep? ==> s.wake * s.masked == {})
     && (ShapedStep(s, steps[0]); WakesUnmasked(Do(s, steps[0]), steps[1..])))
  }

  /** Over every run: masked events stay off in hardware throughout exactly if those wakes are so. */
  lemma {:induction false} RunKeepsMask(s: Reg, steps: seq<Step>)
    requires Shaped(s) && MaskOk(s) && AllSteps(steps)
    ensures NeverMaskedOn(s, steps) <==> WakesUnmasked(s, steps)
    decreases |steps|
  {
    if steps != [] {
      ShapedStep(s, steps[0]);
      if steps[0].EnableAllWakeStep? {
        WakeKeepsMask(s);
      } else {
        StepKeepsMask(s, steps[0]);
      }
      if MaskOk(Do(s, steps[0])) {
        RunKeepsMask(Do(s, steps[0]), steps[1..]);
      }
    }
  }

  /** Masked events are off and what is on has users, in every state of the run. */
  predicate AlwaysProper(s: Reg, steps: seq<Step>)
    requires Shaped(s) && AllSteps(steps)
    decreases |steps|
  {
    && MaskOk(s) && WithinRuntime(s)
    && (steps == [] || (ShapedStep(s, steps[0]); AlwaysProper(Do(s, steps[0]), steps[1..])))
  }

  /** What a caller can check before the two steps that enable without looking at users or masks. */
  predicate Harmless(s: Reg, step: Step)
    requires Shaped(s) && IsStep(step)
  {
    && (step.EnableAllWakeStep? ==> s.wake * s.masked == {} && s.wake <= s.runtime)
    && (step.ResumeStep? ==> step.i in s.masked || s.events[step.i].users > 0)
  }

  predicate AllHarmless(s: Reg, steps: seq<Step>)
    requires Shaped(s) && AllSteps(steps)
    decreases |steps|
  {
    steps == [] || (Harmless(s, steps[0]) && (ShapedStep(s, steps[0]); AllHarmless(Do(s, steps[0]), steps[1..])))
  }

  lemma StepProper(s: Reg, step: Step)
    requires UsersOk(s) && IsStep(step) && MaskOk(s) && WithinRuntime(s)
    ensures MaskOk(Do(s, step)) && WithinRuntime(Do(s, step)) <==> Harmless(s, step)
  {
    if step.EnableAllWakeStep? {
      WakeKeepsMask(s);
      WakeKeepsWithin(s);
    } else if step.ResumeStep? {
      StepKeepsMask(s, step);
      ResumeKeepsWithin(s, step.i);
    } else {
      StepKeepsMask(s, step);
      StepKeepsWithin(s, step);
    }
  }

  /** Over every run both facts hold throughout exactly if each of those steps is harmless where it stands. */
  lemma {:induction false} RunKeepsMasks(s: Reg, steps: seq<Step>)
    requires UsersOk(s) && MaskOk(s) && WithinRuntime(s) && AllSteps(steps)
    ensures AlwaysProper(s, steps) <==> AllHarmless(s, steps)
    decreases |steps|
  {
    if steps != [] {
      StepKeepsUsers(s, steps[0]);
      StepProper(s, steps[0]);
      if MaskOk(Do(s, steps[0])) && WithinRuntime(Do(s, steps[0])) {
        RunKeepsMasks(Do(s, steps[0]), steps[1..]);
      }
    }
  }

  // ----- wake events -----

  /** Disabling an event for wake does what it says exactly if no event is enabled for wake at all. */
  lemma DisableForWakeExact(s: Reg, i: nat)
    requires Shaped(s) && i < EVENTS && s.events[i].wake
    ensures DisableForWake(s, i).wake == s.wake - {i} <==> s.wake == {}
  {
    assert s.wake == (s.wake * {i}) + (s.wake - {i});
    assert (s.wake * {i}) * (s.wake - {i}) == {};
  }

  /** A register as it starts out. */
  const FRESH := Reg(seq(EVENTS, i => Event(0, NoHandler, false, false, false)), {}, {}, {}, {}, {})

  /** Events 0 and 1 are set up and enabled for wake and event 0 is disabled again: 0 stays and 1 goes. */
  lemma DisableForWakeSwaps()
    ensures var steps := [SetupStep(0, None), SetupStep(1, None), EnableWakeStep(0), EnableWakeStep(1), DisableWakeStep(0)];
            Run(FRESH, steps[..4]).wake == {0, 1} && Run(FRESH, steps).wake == {0}
  {
    var steps := [SetupStep(0, None), SetupStep(1, None), EnableWakeStep(0), EnableWakeStep(1), DisableWakeStep(0)];
    var a := Do(FRESH, steps[0]);
    var b := Do(a, steps[1]);
    var c := Do(b, steps[2]);
    var d := Do(c, steps[3]);
    assert d.wake == {0, 1} && Do(d, steps[4]).wake == {0};
    assert steps[..4] == [steps[0], steps[1], steps[2], steps[3]];
    assert Run(b, [steps[2], steps[3]]) == Run(c, [steps[3]]) == d;
    assert Run(FRESH, steps[..4]) == Run(a, [steps[1], steps[2], steps[3]]) == Run(b, [steps[2], steps[3]]);
    assert Run(c, [steps[3], steps[4]]) == Run(d, [steps[4]]) == Do(d, steps[4]);
    assert Run(FRESH, steps) == Run(a, [steps[1], steps[2], steps[3], steps[4]])
        == Run(b, [steps[2], steps[3], steps[4]]) == Run(c, [steps[3], steps[4]]);
  }

  // ----- native handlers -----

  /** Steps that leave the handler of event `i` in place. */
  predicate LeavesHandler(step: Step, i: nat) {
    !((step.InstallStep? || step.UninstallStep? || step.SetupStep?) && step.i == i)
  }

  predicate SameHandler(e: Event, f: Event) { e.handler == f.handler && e.edge == f.edge }

  /** Users, dispatching and masking do not touch handlers; another event's handlers are not in reach. */
  lemma UserLeavesHandler(s: Reg, j: nat, i: nat)
    requires Shaped(s) && j < EVENTS && i < EVENTS
    ensures Shaped(AddUser(s, j).0) && SameHandler(AddUser(s, j).0.events[i], s.events[i])
    ensures Shaped(RemoveUser(s, j).0) && SameHandler(RemoveUser(s, j).0.events[i], s.events[i])
  {
  }

  lemma DispatchLeavesHandler(s: Reg, j: nat, fired: bool, reenable: bool, i: nat)
    requires Shaped(s) && j < EVENTS && i < EVENTS
    ensures Shaped(Poll(s, j, fired, reenable)) && SameHandler(Poll(s, j, fired, reenable).events[i], s.events[i])
    ensures Shaped(Dispatch(s, j, reenable)) && SameHandler(Dispatch(s, j, reenable).events[i], s.events[i])
    ensures Poll(s, j, fired, reenable).events[i].users == s.events[i].users
  {
  }

  lemma OthersLeaveHandler(s: Reg, step: Step, i: nat)
    requires Shaped(s) && IsStep(step) && i < EVENTS && LeavesHandler(step, i)
    requires step.InstallStep? || step.UninstallStep? || step.SetupStep?
    ensures Shaped(Do(s, step)) && SameHandler(Do(s, step).events[i], s.events[i])
  {
    var j := step.i;
    UserLeavesHandler(s, j, i);
    if step.UninstallStep? && s.events[j].handler.Native? {
      var e := s.events[j];
      var t := With(s, j, e.(handler := e.handler.previous, edge := e.handler.previouslyEdge));
      UserLeavesHandler(t, j, i);
      DispatchLeavesHandler(AddUser(t, j).0, j, step.fired, step.reenable, i);
    }
  }

  lemma StepLeavesHandler(s: Reg, step: Step, i: nat)
    requires Shaped(s) && IsStep(step) && i < EVENTS && LeavesHandler(step, i)
    ensures Shaped(Do(s, step)) && SameHandler(Do(s, step).events[i], s.events[i])
  {
    match step
    case EnableStep(j, fired, reenable) =>
      UserLeavesHandler(s, j, i);
      DispatchLeavesHandler(AddUser(s, j).0, j, fired, reenable, i);
    case DisableStep(j) => UserLeavesHandler(s, j, i);
    case DispatchStep(j, reenable) => DispatchLeavesHandler(s, j, true, reenable, i);
    case InstallStep(_, _, _, _) => OthersLeaveHandler(s, step, i);
    case UninstallStep(_, _, _, _) => OthersLeaveHandler(s, step, i);
    case SetupStep(_, _) => OthersLeaveHandler(s, step, i);
    case _ =>
  }

  lemma {:induction false} RunLeavesHandler(s: Reg, steps: seq<Step>, i: nat)
    requires Shaped(s) && i < EVENTS && forall k :: 0 <= k < |steps| ==> IsStep(steps[k]) && LeavesHandler(steps[k], i)
    ensures SameHandler(Run(s, steps).events[i], s.events[i])
    decreases |steps|
  {
    if steps != [] {
      StepLeavesHandler(s, steps[0], i);
      RunLeavesHandler(Do(s, steps[0]), steps[1..], i);
    }
  }

  lemma InstallRemembers(s: Reg, i: nat, raw: bool, callback: nat, edge: bool)
    requires Shaped(s) && i < EVENTS && !s.events[i].handler.Native?
    ensures Shaped(Install(s, i, raw, callback, edge))
    ensures Install(s, i, raw, callback, edge).events[i].handler ==
            Native(raw, callback, s.events[i].handler, s.events[i].edge, Displaceable(s.events[i].handler) && s.events[i].users != 0)
  {
    UserLeavesHandler(s, i, i);
  }

  lemma UninstallGivesBack(s: Reg, i: nat, callback: nat, fired: bool, reenable: bool)
    requires Shaped(s) && i < EVENTS && s.events[i].handler.Native? && s.events[i].handler.callback == callback
    ensures var h, r := s.events[i].handler, Uninstall(s, i, callback, fired, reenable);
            && Shaped(r) && r.events[i].handler == h.previous && r.events[i].edge == h.previouslyEdge
            && r.events[i].users ==
               if Displaceable(h.previous) && h.previouslyEnabled && s.events[i].users != MAX_USERS then s.events[i].users + 1 else s.events[i].users
  {
    var e := s.events[i];
    var t := With(s, i, e.(handler := e.handler.previous, edge := e.handler.previouslyEdge));
    UserLeavesHandler(t, i, i);
    DispatchLeavesHandler(AddUser(t, i).0, i, fired, reenable, i);
  }

  /**
    A native handler installed over another handler and removed after any run that leaves it
    alone: handler and triggering are back, and the user that was taken is given back unless
    the count is full.
   */
  lemma UninstallRestores(s: Reg, i: nat, raw: bool, callback: nat, edge: bool, steps: seq<Step>, fired: bool, reenable: bool)
    requires Shaped(s) && i < EVENTS && !s.events[i].handler.Native?
    requires forall k :: 0 <= k < |steps| ==> IsStep(steps[k]) && LeavesHandler(steps[k], i)
    ensures Shaped(Install(s, i, raw, callback, edge))
    ensures var mid := Run(Install(s, i, raw, callback, edge), steps);
            var r := Uninstall(mid, i, callback, fired, reenable);
            && Shaped(r) && SameHandler(r.events[i], s.events[i])
            && r.events[i].users ==
               if Displaceable(s.events[i].handler) && s.events[i].users != 0 && mid.events[i].users != MAX_USERS
               then mid.events[i].users + 1 else mid.events[i].users
  {
    InstallRemembers(s, i, raw, callback, edge);
    RunLeavesHandler(Install(s, i, raw, callback, edge), steps, i);
    UninstallGivesBack(Run(Install(s, i, raw, callback, edge), steps), i, callback, fired, reenable);
  }

  /** In particular, right after the installation nothing is lost. */
  lemma InstallThenUninstall(s: Reg, i: nat, raw: bool, callback: nat, edge: bool, fired: bool, reenable: bool)
    requires UsersOk(s) && i < EVENTS && !s.events[i].handler.Native?
    ensures Shaped(Install(s, i, raw, callback, edge))
    ensures var r := Uninstall(Install(s, i, raw, callback, edge), i, callback, fired, reenable);
            Shaped(r) && SameHandler(r.events[i], s.events[i]) && r.events[i].users == s.events[i].users
  {
    UninstallRestores(s, i, raw, callback, edge, [], fired, reenable);
  }
}
