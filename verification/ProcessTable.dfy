/**
  The life cycle of processes (kernel/process/process.c): fork, exit and waitpid on the
  global linked list of processes, with the reference counts of the files they have open.
 */
module ProcessTable {
  import opened Prelude

  /** Descriptors are only changed by other system calls, so a table is fixed here. */
  class Process {
    const pid: int
    const fds: seq<Option<nat>>
    const fdMax: nat
    var next: Process?
    var parent: Process?
    var zombie: bool
    var exitStatus: nat

    constructor (pid: int, fds: seq<Option<nat>>, fdMax: nat, parent: Process?)
      ensures this.pid == pid && this.fds == fds && this.fdMax == fdMax && this.parent == parent
      ensures next == null && !zombie && exitStatus == 0
    {
      this.pid, this.fds, this.fdMax, this.parent := pid, fds, fdMax, parent;
      next, zombie, exitStatus := null, false, 0;
    }
  }

  // ----- counting descriptors -----

  /** How many of the first `n` descriptors name the file `v`. */
  function Named(fds: seq<Option<nat>>, n: nat, v: nat): nat
    requires n <= |fds|
  {
    if n == 0 then 0 else Named(fds, n - 1, v) + (if fds[n - 1] == Some(v) then 1 else 0)
  }

  lemma {:induction false} NamedSame(a: seq<Option<nat>>, b: seq<Option<nat>>, n: nat, v: nat)
    requires n <= |a| && n <= |b| && a[..n] == b[..n]
    ensures Named(a, n, v) == Named(b, n, v)
  {
    if n > 0 {
      assert a[..n - 1] == a[..n][..n - 1] && b[..n - 1] == b[..n][..n - 1];
      assert a[n - 1] == a[..n][n - 1] && b[n - 1] == b[..n][n - 1];
      NamedSame(a, b, n - 1, v);
    }
  }

  predicate TableOk(p: Process) { p.fdMax < |p.fds| }

  /** How many descriptors of the processes in a list name `v`. */
  ghost function Slots(list: seq<Process>, v: nat): nat {
    if list == [] then 0
    else (if TableOk(list[0]) then Named(list[0].fds, list[0].fdMax, v) else 0) + Slots(list[1..], v)
  }

  lemma {:induction false} SlotsSplit(a: seq<Process>, b: seq<Process>, v: nat)
    ensures Slots(a + b, v) == Slots(a, v) + Slots(b, v)
  {
    if a == [] {
      assert a + b == b;
    } else {
      assert (a + b)[1..] == a[1..] + b;
      SlotsSplit(a[1..], b, v);
    }
  }

  lemma SlotsRemove(list: seq<Process>, i: nat, v: nat)
    requires i < |list| && TableOk(list[i])
    ensures Slots(list, v) == Slots(list[..i] + list[i + 1..], v) + Named(list[i].fds, list[i].fdMax, v)
  {
    assert list == list[..i] + ([list[i]] + list[i + 1..]);
    SlotsSplit(list[..i], [list[i]] + list[i + 1..], v);
    SlotsSplit([list[i]], list[i + 1..], v);
    SlotsSplit(list[..i], list[i + 1..], v);
  }

  /** `refs` counts the descriptors of the list on top of what others hold. */
  ghost predicate Counts(refs: map<nat, int>, others: map<nat, int>, list: seq<Process>) {
    refs.Keys == others.Keys && forall v :: v in refs ==> refs[v] == others[v] + Slots(list, v)
  }

  ghost predicate FilesKnown(refs: map<nat, int>, p: Process) {
    TableOk(p) && forall i :: 0 <= i < p.fdMax && p.fds[i].Some? ==> p.fds[i].value in refs
  }

  // ----- the table -----

  datatype Waited = Unsupported | Nothing | Reaped(pid: int, status: nat)

  /** What another process, given by its position in the list, does while one waits. */
  datatype Event = Forks(position: nat) | Exits(position: nat, status: int)

  class Processes {
    var head: Process?
    var last: Process?
    const init: Process
    var nextPid: int
    var refs: map<nat, int>
    ghost var list: seq<Process>
    ghost const others: map<nat, int>
    ghost var reaped: set<int>

    /** The next pointers run through the list. */
    ghost predicate Linked()
      reads this`head, this`last, this`list, list`next
    {
      && list != [] && list[0] == init && head == init && last == list[|list| - 1]
      && forall i {:trigger NextOk(list, i)} :: 0 <= i < |list| ==> NextOk(list, i)
    }

    static ghost predicate NextOk(list: seq<Process>, i: nat)
      requires i < |list|
      reads {list[i]}`next
    {
      list[i].next == if i + 1 < |list| then list[i + 1] else null
    }

    /** Process numbers grow along the list and are not used again. */
    ghost predicate Ordered()
      reads this`list, this`nextPid, this`reaped
    {
      && (forall i, j {:trigger Before(list, i, j)} :: 0 <= i < j < |list| ==> Before(list, i, j))
      && (forall i :: 0 <= i < |list| ==> list[i].pid < nextPid && list[i].pid !in reaped)
      && (forall n :: n in reaped ==> n < nextPid)
    }

    static ghost predicate Before(list: seq<Process>, i: nat, j: nat)
      requires i < |list| && j < |list|
    {
      list[i].pid < list[j].pid
    }

    /** Every process but the first has a listed parent with a smaller number. */
    ghost predicate Family()
      reads this`list, init`parent, list`parent
    {
      && init.parent == null
      && forall p :: p in list && p != init ==> ParentOk(list, p)
    }

    static ghost predicate ParentOk(list: seq<Process>, p: Process)
      reads p`parent
    {
      p.parent != null && p.parent in list && p.parent.pid < p.pid
    }

    ghost predicate Files()
      reads this`list, this`refs
    {
      Counts(refs, others, list) && forall p :: p in list ==> FilesKnown(refs, p)
    }

    ghost predicate Valid()
      reads this, init`parent, list`next, list`parent
    {
      Linked() && Ordered() && Family() && Files()
    }

    /** The first process, with process number 1. */
    constructor (fds: seq<Option<nat>>, fdMax: nat, refs: map<nat, int>)
      requires fdMax < |fds| && forall i :: 0 <= i < fdMax && fds[i].Some? ==> fds[i].value in refs
      ensures Valid() && list == [init] && init.pid == 1 && !init.zombie && fresh(init)
    {
      var p := new Process(1, fds, fdMax, null);
      init, head, last, nextPid, this.refs := p, p, p, 2, refs;
      list, reaped := [p], {};
      others := map v | v in refs :: refs[v] - Named(fds, fdMax, v);
    }

    /** The descriptors of a fork: all below the highest one, each of them counted again. */
    method CopyFiles(p: Process) returns (fds: seq<Option<nat>>)
      requires FilesKnown(refs, p)
      modifies this`refs
      ensures |fds| == p.fdMax + 1 && fds[..p.fdMax] == p.fds[..p.fdMax] && fds[p.fdMax].None?
      ensures refs.Keys == old(refs).Keys && forall v :: v in refs ==> refs[v] == old(refs)[v] + Named(p.fds, p.fdMax, v)
    {
      fds := [];
      var i := 0;
      while i < p.fdMax
        invariant i <= p.fdMax && fds == p.fds[..i] && refs.Keys == old(refs).Keys
        invariant forall v :: v in refs ==> refs[v] == old(refs)[v] + Named(p.fds, i, v)
      {
        fds := fds + [p.fds[i]];
        if p.fds[i].Some? {
          refs := refs[p.fds[i].value := refs[p.fds[i].value] + 1];
        }
        i := i + 1;
      }
      fds := fds + [None];
    }

    method DropFiles(p: Process)
      requires FilesKnown(refs, p)
      modifies this`refs
      ensures refs.Keys == old(refs).Keys && forall v :: v in refs ==> refs[v] == old(refs)[v] - Named(p.fds, p.fdMax, v)
    {
      var i := 0;
      while i < p.fdMax
        invariant i <= p.fdMax && refs.Keys == old(refs).Keys
        invariant forall v :: v in refs ==> refs[v] == old(refs)[v] - Named(p.fds, i, v)
      {
        if p.fds[i].Some? {
          refs := refs[p.fds[i].value := refs[p.fds[i].value] - 1];
        }
        i := i + 1;
      }
    }

    /** Links a new process behind the last one. */
    method Append(child: Process)
      requires Linked() && child !in list && child.next == null
      modifies this`last, this`list, last`next
      ensures Linked() && list == old(list) + [child]
    {
      forall i | 0 <= i < |list| - 1 ensures list[i] != last && list[i].next == list[i + 1] {
        assert NextOk(list, i) && NextOk(list, |list| - 1);
      }
      last.next := child;
      last := child;
      list := list + [child];
      forall i | 0 <= i < |list| ensures NextOk(list, i) { }
    }

    /** A copy of a process that is not in the list yet. */
    method Copy(current: Process) returns (child: Process)
      requires FilesKnown(refs, current)
      modifies this`nextPid, this`refs
      ensures fresh(child) && child.parent == current && child.pid == old(nextPid) && nextPid == old(nextPid) + 1
      ensures !child.zombie && child.next == null && child.fdMax == current.fdMax && FilesKnown(refs, child)
      ensures child.fds[..child.fdMax] == current.fds[..current.fdMax] && refs.Keys == old(refs).Keys
      ensures forall v :: v in refs ==> refs[v] == old(refs)[v] + Named(current.fds, current.fdMax, v)
    {
      var pid := nextPid;
      nextPid := nextPid + 1;
      var fds := CopyFiles(current);
      child := new Process(pid, fds, current.fdMax, current);
      forall i | 0 <= i < child.fdMax && child.fds[i].Some? ensures child.fds[i].value in refs {
        assert child.fds[i] == fds[..current.fdMax][i] == current.fds[..current.fdMax][i];
      }
    }

    /** sys_fork: the child goes to the end of the list. */
    method Fork(current: Process) returns (child: Process)
      requires Valid() && current in list
      modifies this`last, this`list, this`nextPid, this`refs, last`next
      ensures Valid() && fresh(child) && list == old(list) + [child]
      ensures child.parent == current && child.pid == old(nextPid) && nextPid == old(nextPid) + 1 && !child.zombie
      ensures child.fdMax == current.fdMax && TableOk(child) && TableOk(current)
      ensures child.fds[..child.fdMax] == current.fds[..current.fdMax]
    {
      assert FilesKnown(refs, current);
      child := Copy(current);
      ForkCounts(current, child);
      ghost var before := list;
      Append(child);
      forall i, j | 0 <= i < j < |list| ensures Before(list, i, j) {
        if j < |before| { assert Before(before, i, j); }
      }
    }

    /** The new descriptors account for the new references. */
    lemma ForkCounts(current: Process, child: Process)
      requires TableOk(current) && child.fdMax == current.fdMax && TableOk(child)
      requires child.fds[..child.fdMax] == current.fds[..current.fdMax]
      ensures forall v :: Slots(list + [child], v) == Slots(list, v) + Named(current.fds, current.fdMax, v)
    {
      forall v ensures Slots(list + [child], v) == Slots(list, v) + Named(current.fds, current.fdMax, v) {
        SlotsSplit(list, [child], v);
        NamedSame(child.fds, current.fds, current.fdMax, v);
      }
    }

    /** sys_exit and process_terminate: the status of a terminated process is kept until it is reaped. */
    method Exit(current: Process, status: int)
      requires Valid() && current in list
      modifies current`zombie, current`exitStatus
      ensures Valid() && current.zombie && current.exitStatus == status % 256 * 256
    {
      current.exitStatus := status % 256 * 256;
      ghost var k :| 0 <= k < |list| && list[k] == current;
      var p := head;
      ghost var i := 0;
      while p != current
        invariant i <= k && p == list[i]
        decreases k - i
      {
        assert NextOk(list, i);
        p, i := p.next, i + 1;
      }
      p.zombie := true;
    }
  
    lemma Distinct(i: nat, j: nat)
      requires Ordered() && i < |list| && j < |list|
      ensures list[i] == list[j] ==> i == j
    {
      assert i < j ==> Before(list, i, j);
      assert j < i ==> Before(list, j, i);
    }

    /** Takes a process out of the list, fixing the tail when it is the last one. */
    method Unlink(p: Process, ghost k: nat)
      requires Linked() && Ordered() && 0 < k < |list| && list[k] == p
      modifies this`last, this`list, list`next
      ensures Linked() && list == old(list)[..k] + old(list)[k + 1..]
    {
      var prev, proc := head, head.next;
      ghost var i := 0;
      assert NextOk(list, 0);
      while proc != p
        invariant i < k && prev == list[i] && proc == list[i + 1]
        invariant last == old(last) && list == old(list)
        modifies {}
        decreases k - i
      {
        assert NextOk(list, i + 1);
        prev, proc, i := proc, proc.next, i + 1;
      }
      Distinct(i + 1, k);
      LinkAround(prev, p, k);
    }

    method LinkAround(prev: Process, p: Process, ghost k: nat)
      requires Linked() && Ordered() && 0 < k < |list| && list[k] == p && prev == list[k - 1]
      modifies this`last, this`list, prev`next
      ensures Linked() && list == old(list)[..k] + old(list)[k + 1..]
    {
      ghost var before := list;
      forall i | 0 <= i < |list| ensures list[i].next == After(list, i) && (i != k - 1 ==> list[i] != prev) {
        assert NextOk(list, i);
        Distinct(i, k - 1);
      }
      Distinct(k, |list| - 1);
      if p == last {
        last := prev;
      }
      prev.next := p.next;
      list := before[..k] + before[k + 1..];
      NextAround(before, k, list);
    }

    static ghost function After(list: seq<Process>, i: nat): Process?
      requires i < |list|
    {
      if i + 1 < |list| then list[i + 1] else null
    }

    /** Skipping entry `k` is what taking it out does to the next pointers. */
    static lemma NextAround(before: seq<Process>, k: nat, list: seq<Process>)
      requires 0 < k < |before| && list == before[..k] + before[k + 1..]
      requires forall i :: 0 <= i < |before| && i != k - 1 ==> before[i].next == After(before, i)
      requires before[k - 1].next == After(before, k)
      ensures forall i {:trigger NextOk(list, i)} :: 0 <= i < |list| ==> NextOk(list, i)
    {
      forall i | 0 <= i < |list| ensures NextOk(list, i) {
        var at := if i < k then i else i + 1;
        assert list[i] == before[at] && (i + 1 < |list| ==> list[i + 1] == before[if i + 1 < k then i + 1 else i + 2]);
      }
    }

    /** The children of a process that goes become children of the first process. */
    method Reparent(p: Process)
      requires Linked() && Ordered()
      modifies list`parent
      ensures forall q :: q in list ==> q.parent == if old(q.parent) == p then init else old(q.parent)
    {
      var child := head;
      ghost var i := 0;
      while child != null
        invariant i <= |list| && child == if i < |list| then list[i] else null
        invariant forall j :: 0 <= j < |list| ==>
                    list[j].parent == if j < i && old(list[j].parent) == p then init else old(list[j].parent)
        modifies list`parent
        decreases |list| - i
      {
        assert NextOk(list, i);
        forall j | 0 <= j < |list| && list[j] == child ensures j == i { Distinct(i, j); }
        if child.parent == p {
          child.parent := init;
        }
        child, i := child.next, i + 1;
      }
    }

    /** The first half of process_free: off the list, with its files released. */
    method Discard(p: Process, ghost k: nat)
      requires Linked() && Ordered() && Files() && 0 < k < |list| && list[k] == p
      modifies this`last, this`list, this`refs, this`reaped, list`next
      ensures Linked() && Ordered() && Files() && list == old(list)[..k] + old(list)[k + 1..]
      ensures reaped == old(reaped) + {p.pid}
    {
      assert FilesKnown(refs, p);
      ghost var before := list;
      Unlink(p, k);
      DropFiles(p);
      reaped := reaped + {p.pid};
      OrderedWithout(before, k, list);
      forall v | v in refs ensures refs[v] == others[v] + Slots(list, v) { SlotsRemove(before, k, v); }
      forall q | q in list ensures FilesKnown(refs, q) { assert q in before; }
    }

    static lemma OrderedWithout(before: seq<Process>, k: nat, list: seq<Process>)
      requires k < |before| && list == before[..k] + before[k + 1..]
      requires forall i, j {:trigger Before(before, i, j)} :: 0 <= i < j < |before| ==> Before(before, i, j)
      ensures forall i, j {:trigger Before(list, i, j)} :: 0 <= i < j < |list| ==> Before(list, i, j)
      ensures forall i :: 0 <= i < |list| ==> list[i].pid != before[k].pid && list[i] in before
    {
      forall i, j | 0 <= i < j < |list| ensures Before(list, i, j) {
        assert Before(before, if i < k then i else i + 1, if j < k then j else j + 1);
      }
      forall i | 0 <= i < |list| ensures list[i].pid != before[k].pid && list[i] in before {
        assert if i < k then Before(before, i, k) else Before(before, k, i + 1);
      }
    }

    static lemma StaysIn(before: seq<Process>, k: nat, x: Process)
      requires k < |before| && x in before && x != before[k]
      ensures x in before[..k] + before[k + 1..]
    {
      assert before == before[..k] + [before[k]] + before[k + 1..];
    }

    /** process_free, on a process that is not the first. */
    method Free(p: Process, ghost k: nat)
      requires Valid() && 0 < k < |list| && list[k] == p
      modifies this, list`next, list`parent
      ensures Valid() && list == old(list)[..k] + old(list)[k + 1..] && reaped == old(reaped) + {p.pid} && nextPid == old(nextPid)
      ensures forall q :: q in list ==> q.parent == if old(q.parent) == p then init else old(q.parent)
      ensures p !in list && p.parent == old(p.parent)
    {
      ghost var before := list;
      Discard(p, k);
      assert p !in list;
      Reparent(p);
      forall q | q in list && q != init ensures ParentOk(list, q) {
        assert q in before && old(ParentOk(list, q));
        var j :| 0 <= j < |list| && list[j] == q;
        assert Before(list, 0, j);
        if old(q.parent) != p { StaysIn(before, k, q.parent); }
      }
    }
  
    /** A terminated child of the caller that answers to the number waited for. */
    ghost predicate Reapable(p: Process, current: Process, pid: int)
      reads p`zombie, p`parent
    {
      p.zombie && p.parent == current && (pid > 0 ==> p.pid == pid)
    }

    /** The scan of sys_waitpid for the first terminated child that matches. */
    method Scan(current: Process, pid: int) returns (found: Process?, ghost k: nat)
      requires Linked()
      ensures found == null ==> forall p :: p in list ==> !Reapable(p, current, pid)
      ensures found != null ==> Reapable(found, current, pid)
      ensures k <= |list| && found == (if k < |list| then list[k] else null)
      ensures forall j :: 0 <= j < k ==> !Reapable(list[j], current, pid)
    {
      found, k := head, 0;
      while found != null
        invariant k <= |list| && found == if k < |list| then list[k] else null
        invariant forall j :: 0 <= j < k ==> !Reapable(list[j], current, pid)
        decreases |list| - k
      {
        if found.zombie && found.parent == current && (pid > 0 ==> found.pid == pid) {
          return;
        }
        assert NextOk(list, k);
        found, k := found.next, k + 1;
      }
    }

    /** What reaping `child` for the caller comes to. */
    ghost predicate TookOff(before: seq<Process>, numbers: set<int>, child: Process, current: Process, pid: int, r: Waited)
      reads this, child
    {
      && r.Reaped? && r.pid == child.pid && r.status == child.exitStatus && Reapable(child, current, pid)
      && child in before && child !in list && r.pid !in numbers && reaped == numbers + {r.pid}
      && forall q :: q in before && q != child ==> q in list
    }

    /**
      One scan of sys_waitpid: the first terminated child of the caller that matches is freed,
      and no process is ever reaped twice.
     */
    method Wait(current: Process, pid: int) returns (r: Waited, ghost child: Process)
      requires Valid() && current in list
      modifies this, list`next, list`parent
      ensures Valid() && nextPid == old(nextPid)
      ensures r.Unsupported? <==> pid < -1 || pid == 0
      ensures r.Nothing? ==> forall p :: p in list ==> !Reapable(p, current, pid)
      ensures !r.Reaped? ==> list == old(list) && refs == old(refs) && reaped == old(reaped)
      ensures r.Reaped? ==> TookOff(old(list), old(reaped), child, current, pid, r)
      ensures r.Reaped? ==> exists k :: 0 <= k < |old(list)| && WasReaped(current, pid, r, k)
    {
      child := current;
      if pid < -1 || pid == 0 {
        return Unsupported, current;
      }
      var p, k := Scan(current, pid);
      if p == null {
        return Nothing, current;
      }
      r, child := Reaped(p.pid, p.exitStatus), p;
      ghost var before := list;
      Free(p, k);
      forall q | q in before && q != p ensures q in list { StaysIn(before, k, q); }
      assert WasReaped(current, pid, r, k);
    }

    twostate predicate WasReaped(current: Process, pid: int, r: Waited, k: nat)
      requires r.Reaped? && k < |old(list)|
      reads this
    {
      && old(Reapable(list[k], current, pid)) && (forall j :: 0 <= j < k ==> !old(Reapable(list[j], current, pid)))
      && r.pid == old(list[k].pid) && r.status == old(list[k].exitStatus)
      && r.pid !in old(reaped) && reaped == old(reaped) + {r.pid}
      && list == old(list)[..k] + old(list)[k + 1..]
    }

    method ProcessAt(position: nat) returns (p: Process?)
      requires Linked()
      ensures p == if position < |list| then list[position] else null
    {
      var i := 0;
      p := head;
      while p != null && i < position
        invariant 0 <= i <= position && i <= |list| && p == if i < |list| then list[i] else null
        decreases position - i
      {
        assert NextOk(list, i);
        p, i := p.next, i + 1;
      }
    }

    /** Nothing that others do between two scans removes a process. */
    method Perform(e: Event)
      requires Valid()
      modifies this`last, this`list, this`nextPid, this`refs, list`next, list`zombie, list`exitStatus
      ensures Valid() && old(list) <= list && forall j :: 0 <= j < |list| ==> list[j] in old(list) || fresh(list[j])
    {
      var p := ProcessAt(e.position);
      if p != null {
        match e
        case Forks(_) => var _ := Fork(p);
        case Exits(_, status) => Exit(p, status);
      }
    }

    /**
      sys_waitpid with what others do between its scans: it reaps one terminated child that
      matches, if there is one after all of that, and nothing else ever leaves the list.
     */
    method WaitPid(current: Process, pid: int, events: seq<Event>) returns (r: Waited, ghost child: Process, ghost seen: seq<Process>)
      requires Valid() && current in list
      modifies this, list
      ensures Valid() && (r.Unsupported? <==> pid < -1 || pid == 0) && old(list) <= seen
      ensures r.Nothing? ==> forall p :: p in list ==> !Reapable(p, current, pid)
      ensures !r.Reaped? ==> reaped == old(reaped) && list == seen
      ensures r.Reaped? ==> TookOff(seen, old(reaped), child, current, pid, r)
    {
      r, child := Wait(current, pid);
      seen := old(list);
      var i := 0;
      while r.Nothing? && i < |events|
        invariant 0 <= i <= |events| && Valid() && old(list) <= seen
        invariant r.Unsupported? <==> pid < -1 || pid == 0
        invariant r.Nothing? ==> forall p :: p in list ==> !Reapable(p, current, pid)
        invariant !r.Reaped? ==> reaped == old(reaped) && list == seen && forall j :: 0 <= j < |list| ==> list[j] in old(list) || fresh(list[j])
        invariant r.Reaped? ==> TookOff(seen, old(reaped), child, current, pid, r)
      {
        Perform(events[i]);
        seen := list;
        r, child := Wait(current, pid);
        i := i + 1;
      }
    }
  }
}
