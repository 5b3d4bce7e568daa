/** The registry of running backups: one worker process for each source and target. */
module Registry {
  import opened Basics
  import opened Paths

  const MAX_BACKUPS := 256

  datatype Backup = Backup(source: string, target: string, pid: nat)

  predicate Same(b: Backup, source: string, target: string) {
    b.source == source && b.target == target
  }

  /** No pair is backed up twice, and no process serves two entries. */
  ghost predicate Unique(bs: seq<Backup>) {
    forall i, j | 0 <= i < j < |bs| :: !Same(bs[i], bs[j].source, bs[j].target) && bs[i].pid != bs[j].pid
  }

  ghost function Pids(bs: seq<Backup>): set<nat> {
    set i | 0 <= i < |bs| :: bs[i].pid
  }

  lemma RemovalKeepsRest(bs: seq<Backup>, i: nat)
    requires i < |bs| && Unique(bs)
    ensures Unique(SwapRemove(bs, i)) && Pids(SwapRemove(bs, i)) == Pids(bs) - {bs[i].pid}
    ensures forall b :: b in SwapRemove(bs, i) <==> b in bs && b != bs[i]
  {
    var left, last := SwapRemove(bs, i), |bs| - 1;
    forall k | 0 <= k <= last && k != i ensures bs[k] in left && bs[k].pid in Pids(left) {
      var l := if k == last then i else k;
      assert left[l] == bs[k];
    }
    forall l | 0 <= l < last ensures left[l] in bs && left[l] != bs[i] && left[l].pid in Pids(bs) - {bs[i].pid} {
      var k := if l == i then last else l;
      assert left[l] == bs[k];
    }
  }

  /** The parent's children: those not yet waited for, and which of them have exited. */
  class Kernel {
    var children: set<nat>
    var exited: set<nat>
    var next: nat
    ghost var failures: nat

    ghost predicate Valid()
      reads this
    {
      exited <= children && forall c | c in children :: c < next
    }

    constructor ()
      ensures Valid() && children == {} && exited == {}
    {
      children, exited, next, failures := {}, {}, 1, 0;
    }

    /** fork may fail. */
    method Fork() returns (pid: Option<nat>)
      requires Valid()
      modifies this
      ensures Valid() && exited == old(exited)
      ensures match pid
              case None => children == old(children) && failures == old(failures) + 1
              case Some(c) => c !in old(children) && children == old(children) + {c} && failures == old(failures)
    {
      if * {
        failures := failures + 1;
        return None;
      }
      pid := Some(next);
      children, next := children + {next}, next + 1;
    }

    /** waitpid for any child, without blocking. */
    method WaitAny() returns (pid: Option<nat>)
      requires Valid()
      modifies this
      ensures Valid()
      ensures match pid
              case None => old(exited) == {} && children == old(children) && exited == old(exited) && failures == old(failures)
              case Some(c) => c in old(exited) && children == old(children) - {c} && exited == old(exited) - {c}
    {
      if c :| c in exited {
        children, exited := children - {c}, exited - {c};
        return Some(c);
      }
      return None;
    }

    /** SIGTERM, and waitpid for that child. */
    method Stop(pid: nat)
      requires Valid()
      modifies this
      ensures Valid() && children == old(children) - {pid} && exited == old(exited) - {pid}
    {
      children, exited := children - {pid}, exited - {pid};
    }
  }

  class Registry {
    const kernel: Kernel
    const backups: array<Backup>
    var count: nat

    ghost predicate Fits()
      reads this
    {
      count <= backups.Length == MAX_BACKUPS
    }

    ghost function Contents(): seq<Backup>
      requires Fits()
      reads this, backups
    {
      backups[..count]
    }

    /** Every child is registered, once. */
    ghost predicate Valid()
      reads this, backups, kernel
    {
      Fits() && kernel.Valid() && Unique(Contents()) && Pids(Contents()) == kernel.children
    }

    constructor ()
      ensures Valid() && Contents() == [] && fresh(kernel) && fresh(backups)
    {
      kernel := new Kernel();
      backups := new Backup[MAX_BACKUPS](_ => Backup("", "", 0));
      count := 0;
    }

    method FindBackup(source: string, target: string) returns (i: int)
      requires Fits()
      ensures i == -1 || 0 <= i < count
      ensures i >= 0 ==> Same(Contents()[i], source, target)
      ensures i == -1 <==> forall j | 0 <= j < count :: !Same(Contents()[j], source, target)
    {
      i := 0;
      while i < count
        invariant 0 <= i <= count && forall j | 0 <= j < i :: !Same(Contents()[j], source, target)
      {
        if Same(backups[i], source, target) {
          return;
        }
        i := i + 1;
      }
      i := -1;
    }

    method Drop(i: nat)
      requires Fits() && i < count
      modifies this`count, backups
      ensures Fits() && Contents() == SwapRemove(old(Contents()), i)
    {
      backups[i] := backups[count - 1];
      count := count - 1;
    }

    /** add_backup; the table may be full, and fork may fail. */
    method AddBackup(source: string, target: string) returns (ok: bool)
      requires Valid() && forall j | 0 <= j < count :: !Same(Contents()[j], source, target)
      modifies this`count, backups, kernel
      ensures Valid() && kernel.exited == old(kernel.exited)
      ensures ok <==> old(count) < MAX_BACKUPS && kernel.failures == old(kernel.failures)
      ensures old(kernel.failures) <= kernel.failures
      ensures !ok ==> Contents() == old(Contents())
      ensures ok ==> |Contents()| == |old(Contents())| + 1 && Contents()[..old(count)] == old(Contents())
                     && Same(Contents()[old(count)], source, target)
    {
      if count >= MAX_BACKUPS {
        return false;
      }
      ghost var before := Contents();
      var pid := kernel.Fork();
      if pid == None {
        return false;
      }
      backups[count] := Backup(source, target, pid.value);
      count := count + 1;
      assert Contents() == before + [Backup(source, target, pid.value)];
      AddedPid(before, Backup(source, target, pid.value));
      return true;
    }

    /** stop_backup: the worker is gone when it returns. */
    method StopBackup(source: string, target: string) returns (found: bool)
      requires Valid()
      modifies this`count, backups, kernel
      ensures Valid()
      ensures found <==> exists b | b in old(Contents()) :: Same(b, source, target)
      ensures !found ==> Contents() == old(Contents()) && kernel.children == old(kernel.children)
      ensures forall b :: b in Contents() <==> b in old(Contents()) && !Same(b, source, target)
    {
      ghost var before := Contents();
      var i := FindBackup(source, target);
      if i < 0 {
        return false;
      }
      RemovalKeepsRest(before, i);
      kernel.Stop(backups[i].pid);
      Drop(i);
      return true;
    }

    /** The entry of a process, if there is one, gives way to the last one. */
    method Forget(pid: nat)
      requires Fits() && Unique(Contents())
      modifies this`count, backups
      ensures Fits() && Unique(Contents()) && Pids(Contents()) == Pids(old(Contents())) - {pid}
      ensures forall b :: b in Contents() <==> b in old(Contents()) && b.pid != pid
    {
      ghost var before := Contents();
      var i := 0;
      while i < count
        invariant 0 <= i <= count && Fits() && Contents() == before
        invariant forall j | 0 <= j < i :: before[j].pid != pid
      {
        if backups[i].pid == pid {
          OnlyEntryOf(before, i);
          RemovalKeepsRest(before, i);
          Drop(i);
          return;
        }
        i := i + 1;
      }
      assert pid !in Pids(before);
    }

    /** reap_children: exactly the entries of exited workers go. */
    method ReapChildren()
      requires Valid()
      modifies this`count, backups, kernel
      ensures Valid() && kernel.exited == {}
      ensures forall b :: b in Contents() <==> b in old(Contents()) && b.pid !in old(kernel.exited)
    {
      hide Unique, Pids;
      while true
        invariant Valid() && kernel.exited <= old(kernel.exited)
        invariant forall b :: b in Contents() <==>
                    b in old(Contents()) && b.pid !in old(kernel.exited) - kernel.exited
        decreases kernel.exited
      {
        var pid := kernel.WaitAny();
        if pid == None {
          break;
        }
        Forget(pid.value);
      }
    }

    /** The first half of the add command: nothing is added unless every target passes. */
    method Check(source: string, targets: seq<Option<string>>) returns (ok: bool)
      requires Fits()
      ensures ok <==> Acceptable(Contents(), source, targets, |targets|)
    {
      var i := 0;
      while i < |targets|
        invariant 0 <= i <= |targets| && Acceptable(Contents(), source, targets, i)
      {
        if targets[i] == None || HasPrefixPath(targets[i].value, source) {
          return false;
        }
        var found := FindBackup(source, targets[i].value);
        if found >= 0 {
          return false;
        }
        var j := 0;
        while j < i
          invariant 0 <= j <= i && forall k | 0 <= k < j :: targets[k] != targets[i]
        {
          if targets[j] == targets[i] {
            return false;
          }
          j := j + 1;
        }
        i := i + 1;
      }
      return true;
    }

    /** The add command, once its source is valid; `None` stands for a target that is not. `kept`
        says which of the targets were added: all there is room for, unless fork fails. */
    method Add(source: string, targets: seq<Option<string>>) returns (ok: bool, ghost kept: seq<nat>)
      requires Valid()
      modifies this`count, backups, kernel
      ensures Valid()
      ensures ok <==> Acceptable(old(Contents()), source, targets, |targets|)
      ensures !ok ==> Contents() == old(Contents()) && kernel.children == old(kernel.children)
      ensures ok ==> Extended(old(Contents()), Contents(), source, targets, kept, |targets|)
      ensures ok && kernel.failures == old(kernel.failures) ==> kept == seq(Room(old(count), |targets|), k => k)
    {
      hide Unique, Pids;
      ghost var before := Contents();
      kept := [];
      ok := Check(source, targets);
      if !ok {
        return;
      }
      var i := 0;
      assert before[..|before|] == before;
      while i < |targets|
        invariant 0 <= i <= |targets| && Valid() && old(kernel.failures) <= kernel.failures
        invariant Extended(before, Contents(), source, targets, kept, i)
        invariant kernel.failures == old(kernel.failures) ==> kept == seq(Room(|before|, i), k => k)
      {
        StillNew(before, Contents(), source, targets, kept, i);
        ghost var was := Contents();
        var added := AddBackup(source, targets[i].value);
        if added {
          OneMore(before, was, Contents(), source, targets, kept, i);
          kept := kept + [i];
        }
        i := i + 1;
      }
    }
  }

  /** How many of `k` new entries a table of `count` entries has room for. */
  function Room(count: nat, k: nat): nat
    requires count <= MAX_BACKUPS
  {
    if count + k <= MAX_BACKUPS then k else MAX_BACKUPS - count
  }

  /** The targets at the indices `kept`, in rising order and below `n`, follow the old entries. */
  ghost predicate Extended(
      bs: seq<Backup>, now: seq<Backup>, source: string, targets: seq<Option<string>>, kept: seq<nat>, n: nat)
    requires n <= |targets|
  {
    && |now| == |bs| + |kept| && now[..|bs|] == bs
    && (forall j, k | 0 <= j < k < |kept| :: kept[j] < kept[k])
    && forall k | 0 <= k < |kept| ::
         kept[k] < n && targets[kept[k]].Some? && Same(now[|bs| + k], source, targets[kept[k]].value)
  }

  lemma OneMore(bs: seq<Backup>, was: seq<Backup>, now: seq<Backup>, source: string, targets: seq<Option<string>>,
                kept: seq<nat>, n: nat)
    requires n < |targets| && Extended(bs, was, source, targets, kept, n) && targets[n].Some?
    requires |now| == |was| + 1 && now[..|was|] == was && Same(now[|was|], source, targets[n].value)
    ensures Extended(bs, now, source, targets, kept + [n], n + 1)
  {
    assert now[..|bs|] == now[..|was|][..|bs|];
    forall k | 0 <= k < |kept| ensures Same(now[|bs| + k], source, targets[kept[k]].value) {
      assert Same(was[|bs| + k], source, targets[kept[k]].value);
      assert now[|bs| + k] == now[..|was|][|bs| + k];
    }
  }

  lemma StillNew(bs: seq<Backup>, now: seq<Backup>, source: string, targets: seq<Option<string>>, kept: seq<nat>, i: nat)
    requires i < |targets| && Extended(bs, now, source, targets, kept, i) && Acceptable(bs, source, targets, |targets|)
    ensures targets[i].Some? && forall j | 0 <= j < |now| :: !Same(now[j], source, targets[i].value)
  {
    forall j | 0 <= j < |now| ensures !Same(now[j], source, targets[i].value) {
      if j < |bs| {
        assert now[..|bs|][j] == bs[j];
      } else {
        var k := j - |bs|;
        assert Same(now[|bs| + k], source, targets[kept[k]].value) && targets[kept[k]] != targets[i];
      }
    }
  }

  /** The first `n` targets are valid, outside the source, new, and different from each other. */
  ghost predicate Acceptable(bs: seq<Backup>, source: string, targets: seq<Option<string>>, n: nat)
    requires n <= |targets|
  {
    && (forall i | 0 <= i < n :: targets[i].Some? && !HasPrefixPath(targets[i].value, source))
    && (forall i | 0 <= i < n :: forall j | 0 <= j < |bs| :: !Same(bs[j], source, targets[i].value))
    && (forall i, j | 0 <= i < j < n :: targets[i] != targets[j])
  }

  lemma AddedPid(bs: seq<Backup>, b: Backup)
    ensures Pids(bs + [b]) == Pids(bs) + {b.pid}
  {
    assert (bs + [b])[|bs|] == b;
    forall i | 0 <= i < |bs| ensures bs[i].pid in Pids(bs + [b]) {
      assert (bs + [b])[i] == bs[i];
    }
  }

  lemma OnlyEntryOf(bs: seq<Backup>, i: nat)
    requires i < |bs| && Unique(bs)
    ensures forall b | b in bs :: b.pid == bs[i].pid <==> b == bs[i]
  {
  }
}
