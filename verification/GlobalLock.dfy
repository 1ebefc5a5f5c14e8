/**
  The ACPI global lock shared with firmware (mutex.c, event.c; section 5.2.10.1 of the
  ACPI Specification 6.5): both sides update one word by load and compare-and-swap, and a
  side that finds it owned sets the pending bit and waits to be told of the release.

  The state machine interleaves single loads and compare-and-swaps of the operating
  system (OSPM), of a firmware that follows the same protocol, and of the interrupt
  handler.  OSPM threads are serialised by the global lock mutex, so one is modelled.
 */
module GlobalLock {

  /** The lock word, an unsigned 32-bit value; bit 0 is pending, bit 1 is owned. */
  type Word = w: int | 0 <= w < 0x1_0000_0000

  predicate Pending(w: Word) { w % 2 == 1 }
  predicate Owned(w: Word) { w / 2 % 2 == 1 }

  /** The word with both bits cleared. */
  function Unclaim(w: Word): Word { w / 4 * 4 }

  /** The word an acquire attempt stores: owned, and pending iff it was owned. */
  function Claim(w: Word): Word { w / 4 * 4 + (if Owned(w) then 3 else 2) }

  lemma ClaimBits(w: Word)
    ensures Owned(Claim(w)) && (Pending(Claim(w)) <==> Owned(w)) && Unclaim(Claim(w)) == Unclaim(w)
  {
  }

  lemma UnclaimBits(w: Word)
    ensures !Owned(Unclaim(w)) && !Pending(Unclaim(w)) && Unclaim(Unclaim(w)) == Unclaim(w)
  {
  }

  /** uacpi_acquire_global_lock_from_firmware and uacpi_release_global_lock_to_firmware, by program point. */
  datatype Ospm =
    | Idle
    | Trying(value: Word)      // spinlock held, value loaded
    | TryFailed                // spinlock held, the lock was owned
    | Waiting                  // spinlock free, blocked on the event
    | Woken                    // spinlock free, event consumed
    | Acquired                 // spinlock held, lock obtained
    | GaveUp                   // spinlock held, out of attempts
    | Holding
    | Releasing(value: Word)
    | Released(pending: bool)  // about to write GBL_RLS if pending

  datatype Firmware =
    | FwIdle
    | FwTrying(value: Word)
    | FwWaiting
    | FwHolding
    | FwReleasing(value: Word)
    | FwRaising                // release found pending: about to raise the interrupt

  datatype State = State(
    word: Word, ospm: Ospm, fw: Firmware,
    spins: nat,          // attempts so far, a 16-bit counter
    flag: bool,          // global_lock_pending
    event: nat,          // count of global_lock_event
    irq: bool,           // release interrupt raised
    handling: bool,      // interrupt dispatched, handler waiting for the spinlock
    gblRls: bool)        // OSPM told firmware of a release

  predicate SpinlockHeld(s: State) {
    s.ospm.Trying? || s.ospm.TryFailed? || s.ospm.Acquired? || s.ospm.GaveUp?
  }

  datatype Action =
    | Load           // lock the spinlock and load the word
    | Cas            // one compare-and-swap of an acquire attempt
    | Retry          // after a failed attempt: set the flag, unlock; or give up
    | Wake           // consume one event
    | Finish         // clear the flag, unlock, return
    | ReleaseLoad
    | ReleaseCas
    | Notify         // GBL_RLS if pending was set
    | FwLoad
    | FwCas
    | FwWake
    | FwReleaseLoad
    | FwReleaseCas
    | FwRaise
    | Dispatch       // the interrupt reaches the handler
    | Handle         // the handler runs under the spinlock

  /** The state after one action; an action that is not enabled changes nothing. */
  function Next(s: State, a: Action): State {
    match a
    case Load =>
      if s.ospm.Idle? then s.(ospm := Trying(s.word), spins := 1)
      else if s.ospm.Woken? then s.(ospm := Trying(s.word), spins := s.spins + 1)
      else s
    case Cas =>
      if !s.ospm.Trying? then s
      else if s.word != s.ospm.value then s.(ospm := Trying(s.word))
      else s.(word := Claim(s.word), ospm := if Owned(s.word) then TryFailed else Acquired)
    case Retry =>
      if !s.ospm.TryFailed? then s
      else if s.spins == 0xFFFF then s.(ospm := GaveUp)
      else s.(flag := true, ospm := Waiting)
    case Wake => if s.ospm.Waiting? && s.event > 0 then s.(event := s.event - 1, ospm := Woken) else s
    case Finish =>
      if s.ospm.Acquired? then s.(flag := false, ospm := Holding)
      else if s.ospm.GaveUp? then s.(flag := false, ospm := Idle)
      else s
    case ReleaseLoad => if s.ospm.Holding? then s.(ospm := Releasing(s.word)) else s
    case ReleaseCas =>
      if !s.ospm.Releasing? then s
      else if s.word != s.ospm.value then s.(ospm := Releasing(s.word))
      else s.(word := Unclaim(s.word), ospm := Released(Pending(s.word)))
    case Notify => if s.ospm.Released? then s.(gblRls := s.gblRls || s.ospm.pending, ospm := Idle) else s
    case FwLoad => if s.fw.FwIdle? then s.(fw := FwTrying(s.word)) else s
    case FwCas =>
      if !s.fw.FwTrying? then s
      else if s.word != s.fw.value then s.(fw := FwTrying(s.word))
      else s.(word := Claim(s.word), fw := if Owned(s.word) then FwWaiting else FwHolding)
    case FwWake => if s.fw.FwWaiting? && s.gblRls then s.(gblRls := false, fw := FwTrying(s.word)) else s
    case FwReleaseLoad => if s.fw.FwHolding? then s.(fw := FwReleasing(s.word)) else s
    case FwReleaseCas =>
      if !s.fw.FwReleasing? then s
      else if s.word != s.fw.value then s.(fw := FwReleasing(s.word))
      else s.(word := Unclaim(s.word), fw := if Pending(s.word) then FwRaising else FwIdle)
    case FwRaise => if s.fw.FwRaising? then s.(irq := true, fw := FwIdle) else s
    case Dispatch => if s.irq && !s.handling then s.(irq := false, handling := true) else s
    case Handle =>
      if !s.handling || SpinlockHeld(s) then s
      else s.(handling := false, event := s.event + (if s.flag then 1 else 0), flag := false)
  }

  function Run(s: State, actions: seq<Action>): State
    decreases |actions|
  {
    if actions == [] then s else Run(Next(s, actions[0]), actions[1..])
  }

  /** Nobody owns the lock; bits of the word other than the two are arbitrary. */
  function Start(other: Word): State {
    State(Unclaim(other), Idle, FwIdle, 0, false, 0, false, false, false)
  }

  // ----- the invariant -----

  predicate OspmOwns(s: State) { s.ospm.Acquired? || s.ospm.Holding? || s.ospm.Releasing? }
  predicate FwOwns(s: State) { s.fw.FwHolding? || s.fw.FwReleasing? }

  /** Firmware holds the lock and will see the pending bit, or has seen it and the news is on its way. */
  predicate WakeInFlight(s: State) {
    (FwOwns(s) && Pending(s.word)) || s.fw.FwRaising? || s.irq || s.handling
  }

  predicate FwWakeInFlight(s: State) {
    (OspmOwns(s) && Pending(s.word)) || (s.ospm.Released? && s.ospm.pending) || s.gblRls
  }

  predicate Inv(s: State, other: Word) {
    && Unclaim(s.word) == Unclaim(other)
    && (Pending(s.word) ==> Owned(s.word))
    && (Owned(s.word) <==> OspmOwns(s) || FwOwns(s))
    && !(OspmOwns(s) && FwOwns(s))
    && (s.ospm.TryFailed? ==> WakeInFlight(s))
    && (s.ospm.Waiting? ==> s.event > 0 || (s.flag && WakeInFlight(s)))
    && (s.fw.FwWaiting? ==> FwWakeInFlight(s))
  }

  /** The compare-and-swaps of an acquire attempt. */
  lemma InvClaim(s: State, a: Action, other: Word)
    requires Inv(s, other) && (a.Cas? || a.FwCas?)
    ensures Inv(Next(s, a), other)
  {
    ClaimBits(s.word);
  }

  /** The compare-and-swaps of a release. */
  lemma InvUnclaim(s: State, a: Action, other: Word)
    requires Inv(s, other) && (a.ReleaseCas? || a.FwReleaseCas?)
    ensures Inv(Next(s, a), other)
  {
    UnclaimBits(s.word);
  }

  /** The other steps of OSPM while it tries. */
  lemma InvTrying(s: State, a: Action, other: Word)
    requires Inv(s, other) && (a.Load? || a.Retry? || a.Wake?)
    ensures Inv(Next(s, a), other)
  {
    match a
    case Load => assert s.ospm.Idle? || s.ospm.Woken? ==> FwWakeInFlight(s) == FwWakeInFlight(Next(s, a));
    case Retry => assert s.ospm.TryFailed? ==> FwWakeInFlight(s) == FwWakeInFlight(Next(s, a));
    case Wake => assert s.ospm.Waiting? ==> FwWakeInFlight(s) == FwWakeInFlight(Next(s, a));
  }

  /** The other steps of OSPM once it is done trying. */
  lemma InvHolding(s: State, a: Action, other: Word)
    requires Inv(s, other) && (a.Finish? || a.ReleaseLoad? || a.Notify?)
    ensures Inv(Next(s, a), other)
  {
  }

  /** The other steps of firmware and of the interrupt. */
  lemma InvFirmware(s: State, a: Action, other: Word)
    requires Inv(s, other)
    requires a.FwLoad? || a.FwWake? || a.FwReleaseLoad? || a.FwRaise? || a.Dispatch? || a.Handle?
    ensures Inv(Next(s, a), other)
  {
  }

  lemma InvStep(s: State, a: Action, other: Word)
    requires Inv(s, other)
    ensures Inv(Next(s, a), other)
  {
    if a.Cas? || a.FwCas? {
      InvClaim(s, a, other);
    } else if a.ReleaseCas? || a.FwReleaseCas? {
      InvUnclaim(s, a, other);
    } else if a.Load? || a.Retry? || a.Wake? {
      InvTrying(s, a, other);
    } else if a.Finish? || a.ReleaseLoad? || a.Notify? {
      InvHolding(s, a, other);
    } else {
      InvFirmware(s, a, other);
    }
  }

  /** Every interleaving keeps the invariant. */
  lemma {:induction false} InvRun(s: State, actions: seq<Action>, other: Word)
    requires Inv(s, other)
    ensures Inv(Run(s, actions), other)
    decreases |actions|
  {
    if actions != [] {
      InvStep(s, actions[0], other);
      InvRun(Next(s, actions[0]), actions[1..], other);
    }
  }

  lemma StartInv(other: Word)
    ensures Inv(Start(other), other)
  {
    UnclaimBits(other);
  }

  // ----- what it means for runs -----

  /** At most one side owns the lock, the word says whether one does, and its other bits never change. */
  lemma Exclusion(other: Word, actions: seq<Action>)
    ensures var s := Run(Start(other), actions);
            && !(OspmOwns(s) && FwOwns(s))
            && (Owned(s.word) <==> OspmOwns(s) || FwOwns(s))
            && (Pending(s.word) ==> Owned(s.word))
            && Unclaim(s.word) == Unclaim(other)
  {
    StartInv(other);
    InvRun(Start(other), actions, other);
  }

  /** A waiter whose firmware release has happened has an event to consume or an interrupt under way. */
  lemma NoLostWakeup(other: Word, actions: seq<Action>)
    ensures var s := Run(Start(other), actions);
            s.ospm.Waiting? && !FwOwns(s) ==> s.event > 0 || (s.flag && (s.fw.FwRaising? || s.irq || s.handling))
  {
    StartInv(other);
    InvRun(Start(other), actions, other);
  }

  /** So letting the interrupt through wakes it, whatever else is in flight. */
  lemma WaiterCanWake(other: Word, actions: seq<Action>)
    ensures var s := Run(Start(other), actions);
            s.ospm.Waiting? && !FwOwns(s) ==>
              Next(Next(Next(Next(Next(s, FwRaise), Handle), Dispatch), Handle), Wake).ospm.Woken?
  {
    NoLostWakeup(other, actions);
  }

  // ----- a failed try is reported -----

  /** The holder has been asked for the lock. */
  predicate FwAwaited(s: State) { FwOwns(s) && Pending(s.word) }
  predicate OspmAwaited(s: State) { OspmOwns(s) && Pending(s.word) }

  /** The first release after `s` is the `j`-th action of the run, and it sees the pending bit. */
  ghost predicate FwReleasesAt(s: State, actions: seq<Action>, j: nat) {
    && j <= |actions| && Run(s, actions[..j]).fw.FwRaising?
    && forall i :: 0 <= i < j ==> FwAwaited(Run(s, actions[..i]))
  }

  ghost predicate OspmReleasesAt(s: State, actions: seq<Action>, j: nat) {
    && j <= |actions| && Run(s, actions[..j]).ospm == Released(true)
    && forall i :: 0 <= i < j ==> OspmAwaited(Run(s, actions[..i]))
  }

  /** No action, not even a lost compare-and-swap, takes the request away except a release that sees it. */
  lemma AwaitedStep(s: State, a: Action, other: Word)
    requires Inv(s, other)
    ensures FwAwaited(s) ==> FwAwaited(Next(s, a)) || Next(s, a).fw.FwRaising?
    ensures OspmAwaited(s) ==> OspmAwaited(Next(s, a)) || Next(s, a).ospm == Released(true)
  {
    ClaimBits(s.word);
  }

  lemma RunFirst(s: State, actions: seq<Action>, i: nat)
    requires i < |actions|
    ensures Run(s, actions[..i + 1]) == Run(Next(s, actions[0]), actions[1..][..i])
  {
    assert actions[..i + 1][1..] == actions[1..][..i];
  }

  lemma FwReleasesLater(s: State, actions: seq<Action>, j: nat)
    requires actions != [] && FwAwaited(s) && FwReleasesAt(Next(s, actions[0]), actions[1..], j)
    ensures FwReleasesAt(s, actions, j + 1)
  {
    forall i | 0 <= i < j + 1 ensures FwAwaited(Run(s, actions[..i])) {
      if i > 0 {
        RunFirst(s, actions, i - 1);
      }
    }
    RunFirst(s, actions, j);
  }

  lemma {:induction false} FwStaysAwaited(s: State, actions: seq<Action>, other: Word)
    requires Inv(s, other) && FwAwaited(s)
    ensures FwAwaited(Run(s, actions)) || exists j: nat :: FwReleasesAt(s, actions, j)
    decreases |actions|
  {
    if actions != [] {
      var t, rest := Next(s, actions[0]), actions[1..];
      AwaitedStep(s, actions[0], other);
      InvStep(s, actions[0], other);
      if t.fw.FwRaising? {
        assert rest[..0] == [];
        FwReleasesLater(s, actions, 0);
      } else {
        FwStaysAwaited(t, rest, other);
        if j: nat :| FwReleasesAt(t, rest, j) {
          FwReleasesLater(s, actions, j);
        }
      }
    }
  }

  lemma OspmReleasesLater(s: State, actions: seq<Action>, j: nat)
    requires actions != [] && OspmAwaited(s) && OspmReleasesAt(Next(s, actions[0]), actions[1..], j)
    ensures OspmReleasesAt(s, actions, j + 1)
  {
    forall i | 0 <= i < j + 1 ensures OspmAwaited(Run(s, actions[..i])) {
      if i > 0 {
        RunFirst(s, actions, i - 1);
      }
    }
    RunFirst(s, actions, j);
  }

  lemma {:induction false} OspmStaysAwaited(s: State, actions: seq<Action>, other: Word)
    requires Inv(s, other) && OspmAwaited(s)
    ensures OspmAwaited(Run(s, actions)) || exists j: nat :: OspmReleasesAt(s, actions, j)
    decreases |actions|
  {
    if actions != [] {
      var t, rest := Next(s, actions[0]), actions[1..];
      AwaitedStep(s, actions[0], other);
      InvStep(s, actions[0], other);
      if t.ospm == Released(true) {
        assert rest[..0] == [];
        OspmReleasesLater(s, actions, 0);
      } else {
        OspmStaysAwaited(t, rest, other);
        if j: nat :| OspmReleasesAt(t, rest, j) {
          OspmReleasesLater(s, actions, j);
        }
      }
    }
  }

  /** In every run the pending bit stays with the holder until the holder's release, which sees it. */
  lemma PendingSticks(s: State, actions: seq<Action>, other: Word)
    requires Inv(s, other) && Pending(s.word)
    ensures FwOwns(s) || OspmOwns(s)
    ensures FwOwns(s) ==> FwAwaited(Run(s, actions)) || exists j: nat :: FwReleasesAt(s, actions, j)
    ensures OspmOwns(s) ==> OspmAwaited(Run(s, actions)) || exists j: nat :: OspmReleasesAt(s, actions, j)
  {
    if FwOwns(s) {
      FwStaysAwaited(s, actions, other);
    } else {
      OspmStaysAwaited(s, actions, other);
    }
  }

  /**
    After a failed attempt of OSPM, however the run goes on: firmware still holds the lock
    with the pending bit set and its release will raise the interrupt, or its first release
    has found the bit and is raising it.
   */
  lemma FailedTryIsReported(other: Word, before: seq<Action>, after: seq<Action>)
    requires Run(Start(other), before).ospm.Trying? && Next(Run(Start(other), before), Cas).ospm.TryFailed?
    ensures var s := Next(Run(Start(other), before), Cas);
            var t := Run(s, after);
            || (FwAwaited(t) && Next(Next(Next(t, FwReleaseLoad), FwReleaseCas), FwReleaseCas).fw.FwRaising?)
            || exists j: nat :: FwReleasesAt(s, after, j)
  {
    var s0 := Run(Start(other), before);
    StartInv(other);
    InvRun(Start(other), before, other);
    InvStep(s0, Cas, other);
    ClaimBits(s0.word);
    PendingSticks(Next(s0, Cas), after, other);
  }

  /** After a failed attempt of firmware the same holds of OSPM, whose release writes GBL_RLS. */
  lemma FirmwareTryIsReported(other: Word, before: seq<Action>, after: seq<Action>)
    requires Run(Start(other), before).fw.FwTrying? && Next(Run(Start(other), before), FwCas).fw.FwWaiting?
    ensures var s := Next(Run(Start(other), before), FwCas);
            var t := Run(s, after);
            || (OspmAwaited(t) && Next(Next(Next(Next(Next(t, Finish), ReleaseLoad), ReleaseCas), ReleaseCas), Notify).gblRls)
            || exists j: nat :: OspmReleasesAt(s, after, j)
  {
    var s0 := Run(Start(other), before);
    StartInv(other);
    InvRun(Start(other), before, other);
    InvStep(s0, FwCas, other);
    ClaimBits(s0.word);
    PendingSticks(Next(s0, FwCas), after, other);
  }

  /** A release that has found the bit is carried through, whatever happens before the news is out. */
  lemma ReportGoesOut(s: State, a: Action)
    ensures s.fw.FwRaising? ==> if a == FwRaise then Next(s, a).irq else Next(s, a).fw.FwRaising?
    ensures s.ospm == Released(true) ==> if a == Notify then Next(s, a).gblRls else Next(s, a).ospm == Released(true)
  {
  }

  // ----- tickets -----

  /** uacpi_acquire_global_lock and uacpi_release_global_lock above the word: the sequence number. */
  class TicketOffice {
    var seqNum: Word
    var acquired: bool

    constructor ()
      ensures seqNum == 0 && !acquired
    {
      seqNum, acquired := 0, false;
    }

    /** The ticket handed out is the number before the increment. */
    method Acquire() returns (ticket: Word)
      modifies this
      ensures acquired && seqNum == ticket + 1
      ensures ticket == if old(seqNum) == 0xFFFF_FFFF then 0 else old(seqNum)
    {
      if seqNum == 0xFFFF_FFFF {
        seqNum := 0;
      }
      ticket := seqNum;
      seqNum := seqNum + 1;
      acquired := true;
    }

    /** It is compared with the number after the increment. */
    method Release(ticket: Word) returns (ok: bool)
      modifies this
      ensures ok == (old(acquired) && ticket == old(seqNum))
      ensures acquired == (old(acquired) && !ok) && seqNum == old(seqNum)
    {
      if !acquired || ticket != seqNum {
        return false;
      }
      acquired := false;
      ok := true;
    }

    /** So of all numbers exactly the one after its ticket releases an acquired lock. */
    method AcquireThenRelease(number: Word) returns (ok: bool, ticket: Word)
      modifies this
      ensures ticket == if old(seqNum) == 0xFFFF_FFFF then 0 else old(seqNum)
      ensures ok <==> number == ticket + 1
      ensures acquired == !ok
    {
      ticket := Acquire();
      ok := Release(number);
    }
  }
}
