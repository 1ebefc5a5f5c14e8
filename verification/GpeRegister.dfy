/**
  The operations on general purpose events (event.c) as they work on a register: four 8-bit
  masks, an 8-bit enable and an 8-bit status register, and the bit of an event computed by a
  shift. `View` decodes the bits into the sets that the theorems of `Gpe` are about.
 */
module GpeRegister {
  import opened Prelude
  import opened Bits
  import opened Gpe

  // ----- bytes as sets of events -----

  /** The events whose bits are set. */
  ghost function Set(b: bv8): set<nat> { set i: nat | 0 <= i < 8 && Bit(b, i) }

  lemma SetNone(b: bv8)
    ensures Set(b) == {} <==> b == 0
  {
    forall k: nat | k < 8 ensures !Bit(0, k) { BitZero(k); }
    if Set(b) == {} {
      forall k: nat | k < 8 ensures Bit(b, k) == Bit(0, k) { assert k !in Set(b); }
      EqualBits(b, 0);
    }
  }

  /** gpe_get_mask: a one shifted to the position of the event. */
  method EventBit(position: nat) returns (bit: bv8)
    requires position < 8
    ensures Set(bit) == {position}
  {
    bit := Shl8(1, position);
    forall k: nat | k < 8 ensures Bit(1, k) == (k == 0) {
      if k > 0 {
        BitZero(k - 1);
        assert (1 as bv8) >> 1 == 0;
      }
    }
  }

  method With8(mask: bv8, bits: bv8) returns (r: bv8)
    ensures Set(r) == Set(mask) + Set(bits)
  {
    r := Or8(mask, bits);
  }

  method Without8(mask: bv8, bits: bv8) returns (r: bv8)
    ensures Set(r) == Set(mask) - Set(bits)
  {
    var rest := Not8(bits);
    r := And8(mask, rest);
  }

  method Only8(mask: bv8, bits: bv8) returns (r: bv8)
    ensures Set(r) == Set(mask) * Set(bits)
  {
    r := And8(mask, bits);
  }

  /** mask & bit as a condition. */
  method IsSet(mask: bv8, bit: bv8, ghost i: nat) returns (r: bool)
    requires Set(bit) == {i}
    ensures r <==> i in Set(mask)
  {
    var both := Only8(mask, bit);
    SetNone(both);
    assert i in Set(mask) <==> i in Set(mask) * {i};
    r := both != 0;
  }

  // ----- the register -----

  datatype Action = DisableEverything | EnableForRuntime | EnableEverythingForWake | ClearEverything

  class Register {
    const baseIdx: nat
    const events: array<Event>
    var runtimeMask: bv8
    var wakeMask: bv8
    var maskedMask: bv8
    var currentMask: bv8
    var enable: bv8
    var status: bv8

    ghost function View(): Reg
      reads this, events
    {
      Reg(events[..], Set(runtimeMask), Set(wakeMask), Set(maskedMask), Set(currentMask), Set(enable))
    }

    ghost predicate Valid()
      reads this, events
    {
      UsersOk(View()) && events.Length == EVENTS
    }

    /** `idx` is the number of one of the eight events. */
    predicate Has(idx: nat) { baseIdx <= idx < baseIdx + EVENTS }

    constructor (baseIdx: nat)
      ensures Valid() && MaskOk(View()) && WithinRuntime(View()) && this.baseIdx == baseIdx && fresh(events)
      ensures View().runtime == {} && View().wake == {} && View().masked == {}
    {
      this.baseIdx := baseIdx;
      events := new Event[EVENTS](i => Event(0, NoHandler, false, false, false));
      runtimeMask, wakeMask, maskedMask, currentMask, enable, status := 0, 0, 0, 0, 0, 0;
      new;
      SetNone(0);
    }

    method GetMask(idx: nat) returns (bit: bv8)
      requires Has(idx)
      ensures Set(bit) == {idx - baseIdx}
    {
      bit := EventBit(idx - baseIdx);
    }

    /** set_gpe_state. */
    method SetGpeState(idx: nat, level: Level)
      requires Has(idx)
      modifies this`enable
      ensures View() == SetState(old(View()), idx - baseIdx, level)
      ensures forall j :: j != idx - baseIdx || j in Set(maskedMask) ==> (j in Set(enable) <==> j in old(Set(enable)))
    {
      var bit := GetMask(idx);
      var isMasked := IsSet(maskedMask, bit, idx - baseIdx);
      if isMasked {
        return;
      }
      if level == EnabledConditionally {
        var isCurrent := IsSet(currentMask, bit, idx - baseIdx);
        if !isCurrent {
          return;
        }
      }
      if level == Disabled {
        enable := Without8(enable, bit);
      } else {
        enable := With8(enable, bit);
      }
    }

    /** clear_gpe: writing a one clears the status bit. */
    method ClearGpe(idx: nat)
      requires Has(idx)
      modifies this`status
      ensures View() == old(View()) && Set(status) == old(Set(status)) - {idx - baseIdx}
    {
      var bit := GetMask(idx);
      status := Without8(status, bit);
    }

    /** The first user turns an event on, the last one turns it off. */
    method SwitchOnOff(idx: nat, on: bool)
      requires Has(idx)
      modifies this`runtimeMask, this`currentMask, this`enable
      ensures var s, i := old(View()), idx - baseIdx;
              var mask := if on then s.runtime + {i} else s.runtime - {i};
              View() == SetState(s.(runtime := mask, current := mask), i, if on then Enabled else Disabled)
    {
      var bit := GetMask(idx);
      if on {
        runtimeMask := With8(runtimeMask, bit);
      } else {
        runtimeMask := Without8(runtimeMask, bit);
      }
      currentMask := runtimeMask;
      SetGpeState(idx, if on then Enabled else Disabled);
    }

    /** An update of one event in place. */
    method Update(i: nat, e: Event)
      requires Valid() && i < EVENTS && e.users == events[i].users
      modifies events
      ensures Valid() && View() == With(old(View()), i, e)
    {
      WithKeepsUsers(View(), i, e);
      Put(i, e);
    }

    method Put(i: nat, e: Event)
      requires i < events.Length == EVENTS
      modifies events
      ensures View() == With(old(View()), i, e)
    {
      ghost var was := events[..];
      events[i] := e;
      assert events[..] == was[i := e];
    }

    /** gpe_remove_user. */
    method RemoveGpeUser(idx: nat) returns (ok: bool)
      requires Valid() && Has(idx)
      modifies this`runtimeMask, this`currentMask, this`enable, events
      ensures Valid() && (View(), ok) == RemoveUser(old(View()), idx - baseIdx)
    {
      var i := idx - baseIdx;
      RemoveKeepsUsers(View(), i);
      if events[i].users == 0 {
        return false;
      }
      Put(i, events[i].(users := events[i].users - 1));
      if events[i].users == 0 {
        SwitchOnOff(idx, false);
      }
      return true;
    }

    /** gpe_add_user. */
    method AddGpeUser(idx: nat, clearIfFirst: bool) returns (ok: bool)
      requires Valid() && Has(idx)
      modifies this`runtimeMask, this`currentMask, this`enable, this`status, events
      ensures Valid() && (View(), ok) == AddUser(old(View()), idx - baseIdx)
      ensures Set(status) == if clearIfFirst && old(events[idx - baseIdx].users) == 0 then old(Set(status)) - {idx - baseIdx} else old(Set(status))
    {
      var i := idx - baseIdx;
      AddKeepsUsers(View(), i);
      if events[i].users == MAX_USERS {
        return false;
      }
      Put(i, events[i].(users := events[i].users + 1));
      if events[i].users == 1 {
        if clearIfFirst {
          ClearGpe(idx);
        }
        SwitchOnOff(idx, true);
      }
      return true;
    }

    /** restore_gpe. */
    method RestoreGpe(idx: nat)
      requires Valid() && Has(idx)
      modifies this`enable, this`status, events
      ensures Valid() && View() == Do(old(View()), RestoreStep(idx - baseIdx))
    {
      var i := idx - baseIdx;
      if !events[i].edge {
        ClearGpe(idx);
      }
      SetGpeState(idx, EnabledConditionally);
      Update(i, events[i].(blocked := false));
    }

    /** dispatch_gpe; `reenable` is what a native handler answers. */
    method DispatchGpe(idx: nat, reenable: bool)
      requires Valid() && Has(idx)
      modifies this`enable, this`status, events
      ensures Valid() && View() == Do(old(View()), DispatchStep(idx - baseIdx, reenable))
    {
      var i := idx - baseIdx;
      var h := events[i].handler;
      if h.Native? && h.raw {
        return;
      }
      SetGpeState(idx, Disabled);
      Update(i, events[i].(blocked := true));
      if events[i].edge {
        ClearGpe(idx);
      }
      if h.Native? && reenable {
        RestoreGpe(idx);
      }
    }

    /** gpe_needs_polling and maybe_dispatch_gpe. */
    method PollGpe(idx: nat, reenable: bool)
      requires Valid() && Has(idx)
      modifies this`enable, this`status, events
      ensures Valid() && View() == Poll(old(View()), idx - baseIdx, idx - baseIdx in old(Set(status)), reenable)
    {
      var i := idx - baseIdx;
      if events[i].users > 0 && events[i].edge {
        var bit := GetMask(idx);
        var fired := IsSet(status, bit, idx - baseIdx);
        if fired {
          DispatchGpe(idx, reenable);
        }
      }
    }

    /** uacpi_enable_gpe. */
    method EnableGpe(idx: nat, reenable: bool) returns (ok: bool)
      requires Valid() && Has(idx)
      modifies this`runtimeMask, this`currentMask, this`enable, this`status, events
      ensures Valid()
      ensures var i := idx - baseIdx;
              var fired := i in old(Set(status)) && old(events[i].users) > 0;
              View() == Do(old(View()), EnableStep(i, fired, reenable))
      ensures ok <==> !old(events[idx - baseIdx].handler.NoHandler?) && old(events[idx - baseIdx].users) < MAX_USERS
    {
      if events[idx - baseIdx].handler.NoHandler? {
        return false;
      }
      ok := AddGpeUser(idx, true);
      if ok {
        PollGpe(idx, reenable);
      }
    }

    /** gpe_suspend_resume. */
    method SuspendResume(idx: nat, suspend: bool)
      requires Valid() && Has(idx)
      modifies this`enable, events
      ensures Valid() && View() == Do(old(View()), if suspend then SuspendStep(idx - baseIdx) else ResumeStep(idx - baseIdx))
    {
      var i := idx - baseIdx;
      Update(i, events[i].(blocked := suspend));
      SetGpeState(idx, if suspend then Disabled else Enabled);
    }

    /** gpe_get_mask_unmask; masking twice and unmasking what is not masked are refused. */
    method MaskUnmask(idx: nat, mask: bool) returns (ok: bool)
      requires Valid() && Has(idx)
      modifies this`maskedMask, this`enable
      ensures Valid() && View() == Do(old(View()), if mask then MaskStep(idx - baseIdx) else UnmaskStep(idx - baseIdx))
      ensures ok <==> (mask <==> idx - baseIdx !in old(Set(maskedMask)))
    {
      var i := idx - baseIdx;
      var bit := GetMask(idx);
      var isMasked := IsSet(maskedMask, bit, idx - baseIdx);
      if mask {
        if isMasked {
          return false;
        }
        SetGpeState(idx, Disabled);
        maskedMask := With8(maskedMask, bit);
        return true;
      }
      if !isMasked {
        return false;
      }
      maskedMask := Without8(maskedMask, bit);
      if !events[i].blocked && events[i].users > 0 {
        SetGpeState(idx, EnabledConditionally);
      }
      return true;
    }

    /** do_install_gpe_handler; a second native handler is refused. */
    method InstallHandler(idx: nat, raw: bool, callback: nat, edge: bool) returns (ok: bool)
      requires Valid() && Has(idx)
      modifies this`runtimeMask, this`currentMask, this`enable, events
      ensures Valid() && View() == Do(old(View()), InstallStep(idx - baseIdx, raw, callback, edge))
      ensures ok <==> !old(events[idx - baseIdx].handler.Native?)
    {
      var i := idx - baseIdx;
      var e := events[i];
      if e.handler.Native? {
        return false;
      }
      var taken := Displaceable(e.handler) && e.users != 0;
      if taken {
        var _ := RemoveGpeUser(idx);
      }
      Update(i, events[i].(handler := Native(raw, callback, e.handler, e.edge, taken), edge := edge));
      return true;
    }

    /** uacpi_uninstall_gpe_handler; only the handler that is installed is removed. */
    method UninstallHandler(idx: nat, callback: nat, reenable: bool) returns (ok: bool)
      requires Valid() && Has(idx)
      modifies this`runtimeMask, this`currentMask, this`enable, this`status, events
      ensures Valid()
      ensures View() == Do(old(View()), UninstallStep(idx - baseIdx, callback, idx - baseIdx in old(Set(status)), reenable))
      ensures ok <==> old(events[idx - baseIdx].handler.Native?) && old(events[idx - baseIdx].handler).callback == callback
    {
      var i := idx - baseIdx;
      var e := events[i];
      if !e.handler.Native? || e.handler.callback != callback {
        return false;
      }
      var h := e.handler;
      Update(i, e.(handler := h.previous, edge := h.previouslyEdge));
      if Displaceable(h.previous) && h.previouslyEnabled {
        var _ := AddGpeUser(idx, false);
        PollGpe(idx, reenable);
      }
      return true;
    }

    /** uacpi_setup_gpe_for_wake; a device that is notified already is refused. */
    method SetupForWake(idx: nat, device: Option<nat>) returns (ok: bool)
      requires Valid() && Has(idx)
      modifies this`runtimeMask, this`currentMask, this`enable, events
      ensures Valid() && View() == Do(old(View()), SetupStep(idx - baseIdx, device))
      ensures ok || View() == old(View())
    {
      var i := idx - baseIdx;
      if device.Some? {
        var d := device.value;
        var e := events[i];
        match e.handler {
          case NoHandler => Update(i, e.(handler := ImplicitNotify([d]), edge := false));
          case AmlMethod(_) => var _ := RemoveGpeUser(idx);
          case Native(_, _, _, _, _) =>
          case ImplicitNotify(devices) =>
            if d in devices {
              return false;
            }
            Update(i, e.(handler := ImplicitNotify([d] + devices)));
        }
      }
      Update(i, events[i].(wake := true));
      return true;
    }

    /** gpe_enable_disable_for_wake: disabling ands the mask with the bit itself. */
    method EnableDisableForWake(idx: nat, enabled: bool) returns (ok: bool)
      requires Valid() && Has(idx)
      modifies this`wakeMask
      ensures Valid() && View() == Do(old(View()), if enabled then EnableWakeStep(idx - baseIdx) else DisableWakeStep(idx - baseIdx))
      ensures ok <==> events[idx - baseIdx].wake
    {
      if !events[idx - baseIdx].wake {
        return false;
      }
      var bit := GetMask(idx);
      if enabled {
        wakeMask := With8(wakeMask, bit);
      } else {
        wakeMask := Only8(wakeMask, bit);
      }
      return true;
    }

    /** One register of do_for_all_gpes; `works` says whether the register can be written. */
    method ApplyAction(action: Action, works: bool)
      modifies this`currentMask, this`enable, this`status
      ensures View() == AfterAction(old(View()), action, works)
      ensures action == ClearEverything && works ==> status == 0
    {
      var value: bv8 := 0;
      match action {
        case DisableEverything =>
        case EnableForRuntime => value := Without8(runtimeMask, maskedMask);
        case EnableEverythingForWake => value := wakeMask;
        case ClearEverything =>
          if works {
            status := status & !0xFF;
          }
          return;
      }
      SetNone(0);
      currentMask := value;
      if works {
        enable := value;
      }
    }
  }

  /** What an action makes of a register; a write that fails leaves the enable register alone. */
  function AfterAction(s: Reg, action: Action, works: bool): Reg {
    var t := match action
      case DisableEverything => DisableAll(s)
      case EnableForRuntime => EnableAllRuntime(s)
      case EnableEverythingForWake => EnableAllWake(s)
      case ClearEverything => s;
    if works then t else t.(enable := s.enable)
  }

  /**
    do_for_all_gpes over the registers of a block: each gets the action once, up to and
    including the first one that cannot be written.
   */
  method ForAllRegisters(regs: seq<Register>, action: Action, works: seq<bool>) returns (ok: bool, ghost done: nat)
    requires NoDup(regs) && |works| == |regs|
    modifies regs
    ensures ok <==> forall k :: 0 <= k < |regs| ==> works[k]
    ensures done <= |regs| && (forall k :: 0 <= k < done ==> works[k]) && (done < |regs| ==> !works[done])
    ensures forall k :: 0 <= k < |regs| ==>
              regs[k].View() == if k <= done then AfterAction(old(regs[k].View()), action, works[k]) else old(regs[k].View())
  {
    var i := 0;
    while i < |regs|
      invariant 0 <= i <= |regs| && forall k :: 0 <= k < i ==> works[k]
      invariant forall k :: 0 <= k < i ==> regs[k].View() == AfterAction(old(regs[k].View()), action, works[k])
      invariant forall k :: i <= k < |regs| ==> regs[k].View() == old(regs[k].View())
    {
      regs[i].ApplyAction(action, works[i]);
      if !works[i] {
        return false, i;
      }
      i := i + 1;
    }
    return true, i;
  }
}
