/** The monitor process: the table of unfinished moves, event handling, one turn of the loop. */
module MonitorLoop {
  import opened Basics
  import opened Paths
  import opened Trees
  import opened FileOps
  import opened Mirror
  import opened Monitor

  /** An entry of the table of unfinished moves, with its time stamp. */
  datatype TimedMove = TimedMove(cookie: nat, isDir: bool, path: Path, t: int)

  function Plain(x: TimedMove): Pending {
    Pending(x.cookie, x.isDir, x.path)
  }

  function Plains(xs: seq<TimedMove>): seq<Pending> {
    seq(|xs|, i requires 0 <= i < |xs| => Plain(xs[i]))
  }

  lemma PlainsSwapRemove(xs: seq<TimedMove>, i: nat)
    requires i < |xs|
    ensures Plains(SwapRemove(xs, i)) == SwapRemove(Plains(xs), i)
  {
  }

  lemma FindIsFirst(pend: seq<Pending>, i: nat)
    requires i < |pend| && forall j | 0 <= j < i :: pend[j].cookie != pend[i].cookie
    ensures Find(pend, pend[i].cookie) == Some(i)
  {
  }

  predicate Expired(x: TimedMove, now: int) {
    now - x.t >= 1
  }

  class PendingMoves {
    const pending: array<TimedMove>
    var count: nat

    ghost predicate Valid()
      reads this
    {
      count <= pending.Length == PENDING_MAX
    }

    function Contents(): seq<TimedMove>
      requires Valid()
      reads this, pending
    {
      pending[..count]
    }

    constructor ()
      ensures Valid() && Contents() == [] && fresh(pending)
    {
      pending := new TimedMove[PENDING_MAX](_ => TimedMove(0, false, [], 0));
      count := 0;
    }

    /** The entry at `i` gives way to the last one. */
    method Drop(i: nat)
      requires Valid() && i < count
      modifies this`count, pending
      ensures Valid() && Contents() == SwapRemove(old(Contents()), i)
    {
      pending[i] := pending[count - 1];
      count := count - 1;
    }

    /** pending_move_add; a full table first loses its oldest entry. */
    method Add(x: TimedMove)
      requires Valid()
      modifies this`count, pending
      ensures Valid()
      ensures old(count) < PENDING_MAX ==> Contents() == old(Contents()) + [x]
      ensures old(count) == PENDING_MAX ==>
                exists k | 0 <= k < PENDING_MAX ::
                  && (forall j | 0 <= j < PENDING_MAX :: old(Contents())[k].t <= old(Contents())[j].t)
                  && Contents() == SwapRemove(old(Contents()), k) + [x]
    {
      ghost var before := Contents();
      if count == PENDING_MAX {
        var oldest, i := 0, 0;
        while i < count
          invariant 0 <= i <= count && 0 <= oldest < count
          invariant forall j | 0 <= j < i :: pending[oldest].t <= pending[j].t
        {
          if pending[i].t < pending[oldest].t {
            oldest := i;
          }
          i := i + 1;
        }
        assert forall j | 0 <= j < PENDING_MAX :: before[oldest].t <= before[j].t;
        Drop(oldest);
      }
      pending[count] := x;
      count := count + 1;
    }

    /** pm_take. */
    method Take(cookie: nat) returns (r: Option<TimedMove>)
      requires Valid()
      modifies this`count, pending
      ensures Valid()
      ensures match Find(Plains(old(Contents())), cookie)
              case None => r == None && Contents() == old(Contents())
              case Some(i) => r == Some(old(Contents())[i]) && Contents() == SwapRemove(old(Contents()), i)
    {
      ghost var before := Contents();
      var i := 0;
      while i < count
        invariant 0 <= i <= count && Contents() == before && Valid()
        invariant forall j | 0 <= j < i :: pending[j].cookie != cookie
      {
        if pending[i].cookie == cookie {
          FindIsFirst(Plains(before), i);
          r := Some(pending[i]);
          Drop(i);
          return;
        }
        i := i + 1;
      }
      return None;
    }
  }

  // ---------- the process ----------

  ghost predicate NothingWatchedBelow(kernel: map<nat, Path>, p: Path) {
    forall w | w in kernel :: !(p <= kernel[w])
  }

  /** An event that makes the monitor adopt a directory. */
  predicate Adopts(m: State, e: Event) {
    && e.wd in m.table && e.isDir
    && (e.kind == Create || (e.kind == MovedTo && Find(m.pend, e.cookie) == None))
  }

  /** A directory to adopt has no image in the backup yet, and nothing in it is watched. */
  ghost predicate NewDirectory(m: State, p: Path) {
    && (p in m.src ==> m.src[p].Dir?)
    && p !in m.dst && NothingWatchedBelow(m.kernel, p)
  }

  /** What an event must find: room in the table of unfinished moves, and new directories only. */
  ghost predicate Smooth(m: State, e: Event) {
    && (e.kind == MovedFrom ==> |m.pend| < PENDING_MAX)
    && (Adopts(m, e) ==> NewDirectory(m, EventPath(m, e)))
  }

  /** Every event of a batch finds what it must, whatever descriptors the kernel hands out; and if
      `stay` is set, none of them ends the process. */
  ghost predicate SmoothAll(m: State, evs: seq<Event>, stay: bool, roots: Roots, now: int)
    decreases |evs|
  {
    evs != [] && !m.exit ==>
      && Smooth(m, evs[0])
      && forall given | ActOk(m, Ev(evs[0], given)) ::
           var m' := Handle(m, evs[0], given, roots, now);
           (stay ==> !m'.exit) && SmoothAll(m', evs[1..], stay, roots, now)
  }

  class Process {
    const src: Disk
    const dst: Disk
    const watch: WatchMap
    const ino: Inotify
    const pm: PendingMoves
    const roots: Roots
    var exit: bool

    ghost predicate Valid()
      reads src, dst, watch, ino, pm
    {
      && src != dst && pm.Valid()
      && WfTree(src.tree) && WfTree(dst.tree)
      && ([] in src.tree ==> src.tree[[]].Dir?)
      && WatchesValid()
    }

    /** No descriptor is recorded twice, and the kernel hands out new ones. */
    ghost predicate WatchesValid()
      reads watch, ino
    {
      && Distinct(watch.watches)
      && (forall w | w in ino.watched :: w < ino.next)
      && (forall i | 0 <= i < |watch.watches| :: watch.watches[i].wd < ino.next)
    }

    function State(): State
      requires pm.Valid()
      reads this, src, dst, watch, ino, pm, pm.pending
    {
      Mirror.State(src.tree, dst.tree, ino.watched, watch.Table(), Plains(pm.Contents()), exit)
    }

    constructor (source: Disk, backup: Disk, roots: Roots)
      requires source != backup && WfTree(source.tree) && WfTree(backup.tree)
      requires [] in source.tree ==> source.tree[[]].Dir?
      ensures Valid() && src == source && dst == backup && this.roots == roots
      ensures fresh(watch) && fresh(ino) && fresh(pm) && fresh(pm.pending)
      ensures State() == Mirror.State(source.tree, backup.tree, map[], map[], [], false)
    {
      src, dst, this.roots, exit := source, backup, roots, false;
      watch := new WatchMap();
      ino := new Inotify();
      pm := new PendingMoves();
    }

    /** mirror_create_or_update. */
    method MirrorCreateOrUpdate(p: Path, now: int)
      requires Valid()
      modifies dst
      ensures WfTree(dst.tree) && dst.tree == MirrorOne(src.tree, old(dst.tree), p, roots, now)
    {
      if p !in src.tree {
        return;
      }
      ghost var d := dst.tree;
      if p != [] {
        BlockedWay(d, p);
        NothingToFollow(map[], Parent(p));
        var ok := dst.MkdirP(Parent(p), map[]);
        if !ok {
          return;
        }
        WayMade(d, p);
      }
      match src.tree[p] {
        case Dir =>
          var _ := dst.Mkdir(p);
        case File(_, _) =>
          var _ := dst.CopyFile(src, p, now);
        case Link(_, _) =>
          var _ := dst.CopyLink(src, p, roots, now);
      }
    }

    /** The watch for one directory, and its record. */
    method AddWatch(p: Path) returns (wd: nat)
      requires WatchesValid() && NothingWatchedBelow(ino.watched, p)
      modifies watch, ino
      ensures WatchesValid() && wd == old(ino.next) < ino.next
      ensures ino.watched == old(ino.watched) + map[wd := p] && watch.Table() == old(watch.Table()) + map[wd := p]
    {
      wd := ino.AddWatch(p);
      watch.Add(wd, p);
      AddedRecord(old(watch.watches), watch.watches, wd, p);
    }

    /** add_watch_tree, on a directory none of whose tree is watched yet; `given` collects the
        descriptors. */
    method AddWatchTree(p: Path) returns (ok: bool, ghost given: map<nat, Path>)
      requires WatchesValid() && WfTree(src.tree) && (p in src.tree ==> src.tree[p].Dir?)
      requires NothingWatchedBelow(ino.watched, p)
      modifies watch, ino
      ensures WatchesValid() && old(ino.next) <= ino.next
      ensures ok <==> IsDir(src.tree, p)
      ensures if ok then given.Values == NewDirs(src.tree, p) else given == map[]
      ensures Injective(given) && forall w | w in given :: old(ino.next) <= w < ino.next
      ensures ino.watched == old(ino.watched) + given && watch.Table() == old(watch.Table()) + given
      decreases Below(src.tree, p)
    {
      hide DirsThrough, NewDirs, NothingWatchedBelow, Injective, WatchMap.Table, WfTree, WatchesValid, Below, Entries;
      given := map[];
      if p !in src.tree {
        NothingAdded(ino.watched);
        NothingAdded(watch.Table());
        return false, given;
      }
      ghost var s := src.tree;
      ghost var kernel, table, first := ino.watched, watch.Table(), ino.next;
      var wd := AddWatch(p);
      given := map[wd := p];
      FirstDirectory(s, p, wd);
      var names := Entries(src.tree, p);
      ghost var done: set<string> := {};
      while names != {}
        invariant WatchesValid() && first <= ino.next
        invariant done + names == Entries(s, p) && done !! names
        invariant given.Values == DirsThrough(s, p, done)
        invariant Injective(given) && forall w | w in given :: first <= w < ino.next
        invariant ino.watched == kernel + given && watch.Table() == table + given
        decreases names
      {
        var name :| name in names;
        names := names - {name};
        var c := p + [name];
        EntryExists(s, p, name);
        EntryIsSmaller(s, p, name);
        if src.tree[c].Dir? {
          NotYetWatched(s, p, done, name, kernel, given);
          ghost var more;
          ok, more := AddWatchTree(c);
          MoreGiven(s, p, done, name, given, more);
          AddedInTwo(kernel, given, more);
          AddedInTwo(table, given, more);
          given := given + more;
        } else {
          NoDirectoryThere(s, p, done, name);
        }
        done := done + {name};
      }
      AllDirectories(s, p);
      return true, given;
    }

    /** What the monitor does for a directory that appeared. */
    method AdoptDirectory(p: Path, now: int) returns (ghost given: map<nat, Path>)
      requires Valid() && NewDirectory(State(), p)
      modifies dst, watch, ino
      ensures Valid() && FreshWatches(old(State()), p, given)
      ensures State() == Adopt(old(State()), p, given, roots, now)
    {
      hide Overlay, MirrorOne, Adopt, NewDirs, Distinct, CopyFits, WfTree, FreshWatches, Injective, WatchMap.Table,
           NothingWatchedBelow, Plains, PendingMoves.Contents;
      ghost var m := State();
      MirrorCreateOrUpdate(p, now);
      AdoptionFits(src.tree, m.dst, p, roots, now);
      RecordsBelow(watch.watches, watch, ino.next);
      var ok;
      ok, given := AddWatchTree(p);
      GivenAreFresh(m, p, given, old(ino.next));
      var _ := dst.CopyTree(src, p, roots, now);
      AdoptInParts(m, p, given, roots, now);
    }

    /** watch_remove_subtree. */
    method ForgetBelow(p: Path)
      requires Valid()
      modifies watch, ino
      ensures Valid() && State() == Forget(old(State()), p)
    {
      RecordsBelow(watch.watches, watch, ino.next);
      watch.RemoveSubtree(ino, p);
      KnownRecords(watch, ino.next);
    }

    /** rm_tree of the image, and for a directory watch_remove_subtree. */
    method DeleteBelow(p: Path, isDir: bool)
      requires Valid()
      modifies dst, watch, ino
      ensures Valid()
      ensures var m := old(State()).(dst := Remove(old(dst.tree), p));
              State() == if isDir then Forget(m, p) else m
    {
      hide Remove, Forget, WatchesValid;
      dst.RmTree(p);
      if isDir {
        ForgetBelow(p);
      }
    }

    /** One step of pm_1s_expire. */
    method ExpireAt(i: nat)
      requires Valid() && i < pm.count
      modifies dst, watch, ino, pm`count, pm.pending
      ensures Valid() && State() == Expire(old(State()), i)
      ensures pm.Contents() == SwapRemove(old(pm.Contents()), i)
    {
      hide Remove, WatchesValid, WfTree;
      var x := pm.pending[i];
      assert pm.Contents()[i] == x;
      PlainsSwapRemove(pm.Contents(), i);
      DeleteBelow(x.path, x.isDir);
      pm.Drop(i);
    }

    /** pm_1s_expire: exactly the entries a second old go; an entry moved into the place of a
        removed one is looked at too. */
    method ExpireOld(now: int) returns (ghost acts: seq<Act>)
      requires Valid()
      modifies dst, watch, ino, pm`count, pm.pending
      ensures Valid()
      ensures RunOk(old(State()), acts, roots, now) && State() == Run(old(State()), acts, roots, now)
      ensures forall k | 0 <= k < |acts| :: acts[k].Exp?
      ensures forall x :: x in pm.Contents() <==> x in old(pm.Contents()) && now - x.t < 1
    {
      hide Expire, WatchesValid, WfTree;
      ghost var before := pm.Contents();
      acts := [];
      var i := 0;
      while i < pm.count
        invariant i <= pm.count && Valid()
        invariant RunOk(old(State()), acts, roots, now) && State() == Run(old(State()), acts, roots, now)
        invariant forall k | 0 <= k < |acts| :: acts[k].Exp?
        invariant forall x | x in pm.Contents() :: x in before
        invariant forall x | x in before && !Expired(x, now) :: x in pm.Contents()
        invariant forall j | 0 <= j < i :: !Expired(pm.Contents()[j], now)
        decreases pm.count - i, pm.count
      {
        if Expired(pm.pending[i], now) {
          ghost var xs, m := pm.Contents(), State();
          ExpireAt(i);
          SwapRemoveKeepsOthers(xs, i);
          RunOneMore(old(State()), acts, Exp(i), roots, now);
          acts := acts + [Exp(i)];
        } else {
          i := i + 1;
        }
      }
    }

    /** The arrival that an unfinished move was waiting for. */
    method CompleteMove(x: TimedMove, p: Path)
      requires Valid()
      modifies dst, watch
      ensures Valid()
      ensures var m := old(State());
              State() == if NoWayTo(m.dst, p) then m
                         else m.(dst := RenameIn(WithParent(m.dst, p), x.path, p),
                                 table := if x.isDir then RebaseTable(m.table, x.path, p) else m.table)
    {
      hide RenameIn, RebaseTable, WatchMap.Table, ProperPrefixesAreDirs;
      if p != [] {
        WayIff(dst.tree, Parent(p));
        NothingToFollow(map[], Parent(p));
        var ok := dst.MkdirP(Parent(p), map[]);
        if !ok {
          return;
        }
      }
      RenameKeepsWf(dst.tree, x.path, p);
      dst.tree := RenameIn(dst.tree, x.path, p);
      if x.isDir {
        watch.UpdatePrefix(x.path, p);
      }
    }

    /** A node that moved in. */
    method Arrived(e: Event, p: Path, now: int) returns (ghost given: map<nat, Path>)
      requires Valid()
      requires e.isDir && Find(State().pend, e.cookie) == None ==> NewDirectory(State(), p)
      modifies dst, watch, ino, pm`count, pm.pending
      ensures Valid()
      ensures State() == ArriveMoved(old(State()), e, p, given, roots, now)
      ensures e.isDir && Find(old(State()).pend, e.cookie) == None ==> FreshWatches(old(State()), p, given)
      ensures forall x | x in pm.Contents() :: x in old(pm.Contents())
    {
      hide RenameIn, RebaseTable, Adopt, MirrorOne, NoWayTo, FreshWatches, WatchesValid, WfTree, NewDirectory;
      given := map[];
      ghost var xs := pm.Contents();
      var x := pm.Take(e.cookie);
      if x.Some? {
        PlainsSwapRemove(xs, Find(Plains(xs), e.cookie).value);
        SwapRemoveKeepsOthers(xs, Find(Plains(xs), e.cookie).value);
        CompleteMove(x.value, p);
      } else if e.isDir {
        given := AdoptDirectory(p, now);
      } else {
        MirrorCreateOrUpdate(p, now);
      }
    }

    method FindWatch(wd: nat) returns (r: Option<Path>)
      requires Valid()
      ensures r == if wd in State().table then Some(State().table[wd]) else None
    {
      r := watch.Find(wd);
    }

    method DropRecord(wd: nat)
      requires Valid()
      modifies watch
      ensures Valid() && watch.Table() == old(watch.Table()) - {wd}
    {
      RecordsBelow(watch.watches, watch, ino.next);
      watch.Remove(wd);
      KnownRecords(watch, ino.next);
    }

    /** The event's part that depends on its kind. */
    method HandleAt(e: Event, p: Path, now: int) returns (ghost given: map<nat, Path>)
      requires Valid() && Smooth(State(), e)
      requires e.wd in State().table && p == EventPath(State(), e) && e.kind != Ignored
      requires !((e.kind == DeleteSelf || e.kind == MoveSelf) && p == [])
      modifies dst, watch, ino, pm`count, pm.pending
      ensures Valid()
      ensures State() == Handle(old(State()), e, given, roots, now) && exit == old(exit)
      ensures ActOk(old(State()), Ev(e, given))
      ensures if e.kind == MovedFrom then pm.Contents() == old(pm.Contents()) + [TimedMove(e.cookie, e.isDir, p, now)]
              else forall x | x in pm.Contents() :: x in old(pm.Contents())
    {
      hide ArriveMoved, Adopt, MirrorOne, NoWayTo, Forget, Remove, FreshWatches, WfTree, NewDirectory, WatchMap.Table,
           NothingWatchedBelow, WatchesValid, Find;
      given := map[];
      if e.kind == DeleteSelf {
        DeleteBelow(p, true);
      } else if e.kind == MovedFrom {
        PlainsAdd(pm.Contents(), TimedMove(e.cookie, e.isDir, p, now));
        pm.Add(TimedMove(e.cookie, e.isDir, p, now));
      } else if e.kind == MovedTo {
        NoneIsUnused(State().pend, e.cookie);
        given := Arrived(e, p, now);
      } else if e.kind == Create {
        if e.isDir {
          given := AdoptDirectory(p, now);
        } else if p in src.tree && src.tree[p].Link? {
          MirrorCreateOrUpdate(p, now);
        }
      } else if e.kind == CloseWrite && !e.isDir {
        MirrorCreateOrUpdate(p, now);
      } else if e.kind == Delete {
        DeleteBelow(p, e.isDir);
      }
    }

    /** One turn of the event loop of monitor_and_mirror. The process ends exactly when the source
        itself has gone, and then leaves everything as it is; so does an event on an unknown
        descriptor, and one that says that a watch is gone only drops the record. */
    method HandleEvent(e: Event, now: int) returns (ghost given: map<nat, Path>)
      requires Valid() && Smooth(State(), e)
      modifies this`exit, dst, watch, ino, pm`count, pm.pending
      ensures Valid()
      ensures State() == Handle(old(State()), e, given, roots, now)
      ensures ActOk(old(State()), Ev(e, given))
      ensures exit <==> old(exit) || Ends(old(State()), e)
      ensures Ends(old(State()), e) || e.wd !in old(watch.Table()) || e.kind == Ignored ==>
                dst.tree == old(dst.tree) && ino.watched == old(ino.watched) && pm.Contents() == old(pm.Contents())
                && watch.Table() == if e.kind == Ignored then old(watch.Table()) - {e.wd} else old(watch.Table())
      ensures if e.kind == MovedFrom && e.wd in old(watch.Table())
              then pm.Contents() == old(pm.Contents()) + [TimedMove(e.cookie, e.isDir, EventPath(old(State()), e), now)]
              else forall x | x in pm.Contents() :: x in old(pm.Contents())
    {
      hide ArriveMoved, Adopt, MirrorOne, NoWayTo, Forget, Remove, FreshWatches, WfTree, NewDirectory, WatchMap.Table,
           NothingWatchedBelow, WatchesValid;
      given := map[];
      var found := FindWatch(e.wd);
      if found == None {
        return;
      }
      if e.kind == Ignored {
        DropRecord(e.wd);
        return;
      }
      var p := found.value + match e.name case None => [] case Some(n) => [n];
      assert p == EventPath(State(), e);
      if (e.kind == DeleteSelf || e.kind == MoveSelf) && p == [] {
        exit := true;
      } else {
        given := HandleAt(e, p, now);
      }
    }

    /** The events of one read(2), up to the one that ends the process; a move that they begin is
        stamped with the time. */
    method HandleEvents(evs: seq<Event>, ghost stay: bool, now: int) returns (n: nat, ghost acts: seq<Act>)
      requires Valid() && !exit && SmoothAll(State(), evs, stay, roots, now)
      modifies this`exit, dst, watch, ino, pm`count, pm.pending
      ensures Valid()
      ensures n <= |evs| && (n == |evs| || exit) && (stay ==> !exit) && (exit ==> n > 0)
      ensures EventsIn(acts) == evs[..n] && |acts| == n
      ensures RunOk(old(State()), acts, roots, now) && State() == Run(old(State()), acts, roots, now)
      ensures OnlyLastEnds(old(State()), acts, evs, exit, roots, now)
      ensures forall x | x in pm.Contents() :: x in old(pm.Contents()) || x.t == now
    {
      hide Handle, Smooth, ActOk, Ends, RunOk, Run, WatchesValid, WfTree, OnlyLastEnds;
      n, acts := 0, [];
      NothingRun(State(), roots, now);
      while n < |evs| && !exit
        invariant n <= |evs| && Valid() && SmoothAll(State(), evs[n..], stay, roots, now) && (stay ==> !exit)
        invariant EventsIn(acts) == evs[..n] && |acts| == n && (exit ==> n > 0)
        invariant RunOk(old(State()), acts, roots, now) && State() == Run(old(State()), acts, roots, now)
        invariant OnlyLastEnds(old(State()), acts, evs, exit, roots, now)
        invariant forall x | x in pm.Contents() :: x in old(pm.Contents()) || x.t == now
      {
        assert evs[n..][0] == evs[n] && evs[n..][1..] == evs[n + 1..];
        ghost var given := HandleEvent(evs[n], now);
        RunOneMore(old(State()), acts, Ev(evs[n], given), roots, now);
        OneMoreRead(old(State()), acts, Ev(evs[n], given), evs, roots, now);
        acts := acts + [Ev(evs[n], given)];
        assert EventsIn([Ev(evs[n], given)]) == [evs[n]];
        assert evs[..n] + [evs[n]] == evs[..n + 1];
        n := n + 1;
      }
    }
  }

  lemma NothingRun(m: State, roots: Roots, now: int)
    ensures RunOk(m, [], roots, now) && Run(m, [], roots, now) == m
    ensures forall evs :: OnlyLastEnds(m, [], evs, false, roots, now)
  {
  }

  /** Of the events that `acts` handle the last one ends the process if it is over (`exit`), and no
      other one does. */
  ghost predicate OnlyLastEnds(m: State, acts: seq<Act>, evs: seq<Event>, exit: bool, roots: Roots, now: int) {
    && |acts| <= |evs|
    && forall k | 0 <= k < |acts| :: Ends(Run(m, acts[..k], roots, now), evs[k]) <==> exit && k == |acts| - 1
  }

  lemma OneMoreRead(m: State, acts: seq<Act>, a: Act, evs: seq<Event>, roots: Roots, now: int)
    requires OnlyLastEnds(m, acts, evs, false, roots, now) && |acts| < |evs|
    ensures OnlyLastEnds(m, acts + [a], evs, Ends(Run(m, acts, roots, now), evs[|acts|]), roots, now)
  {
    hide Ends, Run;
    var more, exit := acts + [a], Ends(Run(m, acts, roots, now), evs[|acts|]);
    assert acts[..|acts|] == acts;
    forall k | 0 <= k < |more| ensures Ends(Run(m, more[..k], roots, now), evs[k]) <==> exit && k == |more| - 1 {
      assert more[..k] == acts[..k];
    }
  }

  lemma NoneIsUnused(pend: seq<Pending>, cookie: nat)
    ensures Find(pend, cookie) == None <==> UnusedCookie(pend, cookie)
  {
  }

  lemma SwapRemoveKeepsOthers(xs: seq<TimedMove>, i: nat)
    requires i < |xs|
    ensures |SwapRemove(xs, i)| == |xs| - 1
    ensures forall j | 0 <= j < i < |xs| - 1 :: SwapRemove(xs, i)[j] == xs[j]
    ensures forall x | x in SwapRemove(xs, i) :: x in xs
    ensures forall x | x in xs && x != xs[i] :: x in SwapRemove(xs, i)
  {
    forall x | x in xs && x != xs[i] ensures x in SwapRemove(xs, i) {
      var k :| 0 <= k < |xs| && xs[k] == x;
      assert SwapRemove(xs, i)[if k == |xs| - 1 then i else k] == x;
    }
  }

  lemma {:induction false} RunOneMore(m: State, acts: seq<Act>, a: Act, roots: Roots, now: int)
    requires RunOk(m, acts, roots, now) && ActOk(Run(m, acts, roots, now), a)
    ensures RunOk(m, acts + [a], roots, now)
    ensures Run(m, acts + [a], roots, now) == Do(Run(m, acts, roots, now), a, roots, now)
    ensures EventsIn(acts + [a]) == EventsIn(acts) + EventsIn([a])
    decreases |acts|
  {
    hide Do, ActOk;
    if acts != [] {
      assert (acts + [a])[1..] == acts[1..] + [a];
      RunOneMore(Do(m, acts[0], roots, now), acts[1..], a, roots, now);
    } else {
      assert acts + [a] == [a] && [a][1..] == [];
    }
  }

  lemma KnownRecords(watch: WatchMap, next: nat)
    requires Distinct(watch.watches) && forall w | w in watch.Table() :: w < next
    ensures forall i | 0 <= i < |watch.watches| :: watch.watches[i].wd < next
  {
    MapOfAt(watch.watches);
    forall i | 0 <= i < |watch.watches| ensures watch.watches[i].wd < next {
      assert watch.watches[i].wd in watch.Table();
    }
  }

  lemma PlainsAdd(xs: seq<TimedMove>, x: TimedMove)
    ensures Plains(xs + [x]) == Plains(xs) + [Plain(x)]
  {
  }

  lemma RenameKeepsWf(d: Tree, from: Path, to: Path)
    requires WfTree(d)
    ensures WfTree(RenameIn(d, from, to))
  {
    var d' := RenameIn(d, from, to);
    if d' != d {
      forall q | q in d' && q != [] ensures Parent(q) in d' && d'[Parent(q)].Dir? {
        MoveAt(d, from, to, q);
        MoveAt(d, from, to, Parent(q));
        if to < q {
          var r := from + q[|to|..];
          assert Parent(r) == from + Parent(q)[|to|..];
        } else if q == to {
          assert Parent(to) in d;
        } else {
          assert !(to <= Parent(q)) && !(from <= Parent(q));
        }
      }
    }
  }

  lemma WayIff(d: Tree, p: Path)
    ensures ProperPrefixesAreDirs(d, p) <==> !Blocked(d, p)
  {
    if q :| q in d && q < p && !d[q].Dir? {
      assert p[..|q|] == q;
    }
    assert forall k | 0 <= k < |p| :: p[..k] < p;
  }

  /** mkdir_p of the parent fails, or finds it no directory, exactly where an ancestor is in the way. */
  lemma BlockedWay(d: Tree, p: Path)
    requires WfTree(d) && p != []
    ensures !ProperPrefixesAreDirs(d, Parent(p)) ==> Blocked(d, p)
    ensures ProperPrefixesAreDirs(d, Parent(p)) ==>
              if Blocked(d, p) then !IsDir(d, Parent(p)) && WithDirs(d, Parent(p)) == d
              else IsDir(WithDirs(d, Parent(p)), Parent(p))
  {
    var u := Parent(p);
    if !ProperPrefixesAreDirs(d, u) {
      var q :| q in d && q < u && !d[q].Dir?;
      assert p[..|q|] == q;
    } else if Blocked(d, p) {
      var k :| 0 <= k < |p| && p[..k] in d && !d[p[..k]].Dir?;
      assert p[..k] == u by {
        assert p[..k] <= u;
      }
      ExistingIsWithDirs(d, u);
    } else {
      assert u == p[..|p| - 1];
      WithDirsAddsAncestors(d, u);
    }
  }

  lemma AdoptionFits(s: Tree, d: Tree, p: Path, roots: Roots, now: int)
    requires WfTree(s) && WfTree(d) && p !in d && (p in s ==> s[p].Dir?)
    ensures var d' := MirrorOne(s, d, p, roots, now);
            IsDir(s, p) && IsDir(d', p) ==> CopyFits(s, d', p)
  {
    NothingBelow(d, p);
    var d' := MirrorOne(s, d, p, roots, now);
    forall q | p < q ensures q !in d' {
      assert q !in Remove(d, p);
    }
  }

  lemma RecordsBelow(ws: seq<Watch>, watch: WatchMap, next: nat)
    requires watch.watches == ws && Distinct(ws) && forall i | 0 <= i < |ws| :: ws[i].wd < next
    ensures forall w | w in watch.Table() :: w < next
  {
    MapOfAt(ws);
  }

  lemma AdoptInParts(m: State, p: Path, given: map<nat, Path>, roots: Roots, now: int)
    requires !IsDir(m.src, p) ==> given == map[]
    ensures var d := MirrorOne(m.src, m.dst, p, roots, now);
            Adopt(m, p, given, roots, now) ==
            m.(dst := CopyDown(m.src, d, p, roots, now), table := m.table + given, kernel := m.kernel + given)
  {
    hide MirrorOne, CopyDown, NewDirs;
    if !IsDir(m.src, p) {
      assert m.table + given == m.table && m.kernel + given == m.kernel;
    }
  }

  lemma GivenAreFresh(m: State, p: Path, given: map<nat, Path>, next: nat)
    requires WfTree(m.src)
    requires forall w | w in m.kernel.Keys + m.table.Keys :: w < next
    requires forall w | w in given :: next <= w
    requires Injective(given) && if IsDir(m.src, p) then given.Values == NewDirs(m.src, p) else given == map[]
    requires p in m.src ==> m.src[p].Dir?
    ensures FreshWatches(m, p, given)
  {
    assert forall w | w in given :: w !in m.kernel.Keys + m.table.Keys;
    forall q | q in NewDirs(m.src, p) ensures Watched(given, q) {
      PrefixClosed(m.src, q, p);
      assert q in given.Values;
    }
    forall w | w in given ensures given[w] in NewDirs(m.src, p) {
      assert given[w] in given.Values;
    }
  }

  lemma WayMade(d: Tree, p: Path)
    requires WfTree(d) && p != [] && ProperPrefixesAreDirs(d, Parent(p))
    ensures WfTree(WithDirs(d, Parent(p)))
    ensures p in WithDirs(d, Parent(p)) <==> p in d
    ensures p in d ==> WithDirs(d, Parent(p))[p] == d[p]
  {
    WithDirsAddsAncestors(d, Parent(p));
  }

  lemma AddedRecord(ws: seq<Watch>, us: seq<Watch>, wd: nat, p: Path)
    requires us == ws + [Watch(wd, p)] && Distinct(ws) && forall i | 0 <= i < |ws| :: ws[i].wd < wd
    ensures Distinct(us) && MapOf(us) == MapOf(ws) + map[wd := p]
  {
    assert us[..|us| - 1] == ws;
  }

  /** The directories of the tree at `p` seen once the entries in `names` have been visited. */
  function DirsThrough(s: Tree, p: Path, names: set<string>): set<Path> {
    set q | q in s && s[q].Dir? && (q == p || ThroughEntry(p, names, q))
  }

  lemma FirstDirectory(s: Tree, p: Path, wd: nat)
    requires IsDir(s, p)
    ensures (map[wd := p]).Values == DirsThrough(s, p, {}) && Injective(map[wd := p])
  {
    var given := map[wd := p];
    assert wd in given && given[wd] == p;
  }

  lemma NothingAdded(m: map<nat, Path>)
    ensures m + map[] == m && Injective(map[])
  {
  }

  lemma AddedInTwo(m: map<nat, Path>, given: map<nat, Path>, more: map<nat, Path>)
    ensures m + given + more == m + (given + more)
  {
  }

  lemma AllDirectories(s: Tree, p: Path)
    requires WfTree(s)
    ensures DirsThrough(s, p, Entries(s, p)) == NewDirs(s, p)
  {
    forall q | q in s && p <= q && q != p ensures ThroughEntry(p, Entries(s, p), q) {
      PrefixSplit(p, q);
      EntryOnPath(s, p, q);
    }
  }

  lemma NoDirectoryThere(s: Tree, p: Path, done: set<string>, name: string)
    requires WfTree(s) && p + [name] in s && !s[p + [name]].Dir?
    ensures DirsThrough(s, p, done + {name}) == DirsThrough(s, p, done)
  {
    forall q | q in s && ThroughEntry(p, {name}, q) ensures !s[q].Dir? {
      ThroughOneEntry(p, name, q);
      PrefixClosed(s, q, p + [name]);
    }
  }

  lemma NotYetWatched(s: Tree, p: Path, done: set<string>, name: string, kernel: map<nat, Path>, given: map<nat, Path>)
    requires NothingWatchedBelow(kernel, p) && name !in done
    requires given.Values == DirsThrough(s, p, done)
    ensures NothingWatchedBelow(kernel + given, p + [name])
  {
    forall w | w in kernel + given ensures !(p + [name] <= (kernel + given)[w]) {
      if w in given {
        assert given[w] in given.Values;
        ThroughOneEntry(p, name, given[w]);
      } else if p + [name] <= kernel[w] {
        ThroughOneEntry(p, name, kernel[w]);
      }
    }
  }

  lemma MoreGiven(s: Tree, p: Path, done: set<string>, name: string, given: map<nat, Path>, more: map<nat, Path>)
    requires IsDir(s, p + [name]) && name !in done
    requires given.Values == DirsThrough(s, p, done) && more.Values == NewDirs(s, p + [name])
    requires Injective(given) && Injective(more) && given.Keys !! more.Keys
    ensures (given + more).Values == DirsThrough(s, p, done + {name}) && Injective(given + more)
  {
    forall q ensures p + [name] <= q <==> ThroughEntry(p, {name}, q) {
      ThroughOneEntry(p, name, q);
    }
    var all := given + more;
    forall w | w in all ensures (w in more <==> ThroughEntry(p, {name}, all[w])) && all[w] in DirsThrough(s, p, done + {name}) {
      if w in more {
        assert more[w] in more.Values;
      } else {
        assert given[w] in given.Values;
      }
    }
    forall q | q in DirsThrough(s, p, done + {name}) ensures q in all.Values {
      if ThroughEntry(p, {name}, q) {
        assert q in more.Values;
        var w :| w in more && more[w] == q;
        assert all[w] == q;
      } else {
        assert q in given.Values;
        var w :| w in given && given[w] == q;
        assert all[w] == q;
      }
    }
  }
}
