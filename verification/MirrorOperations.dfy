/** What each operation's events do, one by one. */
module MirrorOperations {
  import opened Basics
  import opened Paths
  import opened Trees
  import opened Mirror
  import opened MirrorSteps
  import opened MirrorHalves
  import opened MirrorEvents

  lemma ReportFound(b: State, e: Event, kind: Kind, p: Path, isDir: bool, roots: Roots)
    requires Inv(b, roots) && Reports(b.kernel, e, kind, p, isDir)
    ensures e.wd in b.table && b.table[e.wd] == Parent(p) && EventPath(b, e) == p
  {
    hide TreesAgree, PendingOk;
    EventNamesPath(b, e, p);
  }

  lemma SelfFound(b: State, e: Event, kind: Kind, p: Path, roots: Roots)
    requires Inv(b, roots) && ReportsSelf(b.kernel, e, kind, p)
    ensures e.wd in b.table && b.table[e.wd] == p && EventPath(b, e) == p
  {
    hide TreesAgree, PendingOk;
    assert p + [] == p;
  }

  // ---------- making and moving in ----------

  lemma GraftFacts(t: Tree, p: Path, sub: Tree)
    requires WfTree(t) && WfTree(sub) && [] in sub && p != [] && IsDir(t, Parent(p))
    requires p in t ==> !t[p].Dir? && !sub[[]].Dir?
    ensures var g := Graft(t, p, sub);
            && WfTree(g) && p in g && g[p] == sub[[]]
            && (forall q | q in g && p <= q :: q[|p|..] in sub && q == p + q[|p|..])
            && (forall q | !(p <= q) :: (q in g <==> q in t) && (q in t ==> g[q] == t[q]))
  {
    var g := Graft(t, p, sub);
    assert p + [] == p && p[|p|..] == [];
    forall q | p <= q && q in g ensures q[|p|..] in sub {
      if q in t {
        PrefixClosed(t, q, p);
      } else {
        var r :| r in sub && q == p + r;
        assert q[|p|..] == r;
      }
    }
    forall q | q in g && q != [] ensures Parent(q) in g && g[Parent(q)].Dir? {
      if p <= q && q != p {
        PrefixSplit(p, q);
        var r := q[|p|..];
        assert Parent(r) in sub && sub[Parent(r)].Dir?;
        assert Parent(q) == p + Parent(r) && Parent(q)[|p|..] == Parent(r);
      } else if q != p {
        assert Parent(q) in t;
      }
    }
  }

  lemma PlantIsClear(pend: seq<Pending>, g: Tree, p: Path, sub: Tree)
    requires forall q | q in g && p <= q :: q[|p|..] in sub && q == p + q[|p|..]
    requires forall r | r in sub :: !StaleAt(pend, p + r)
    ensures Clear(pend, g, p)
  {
  }

  lemma PlantArrives(b: State, op: Op, roots: Roots)
    requires Inv(b, roots) && op.Plant? && Allowed(b, op)
    ensures Awaited(Apply(b, op), op.at, roots)
    ensures Apply(b, op).src[op.at] == op.sub[[]]
    ensures Ripe(Apply(b, op), op.at) <==> Clean(b, op)
  {
    hide WatchesAgree, PendingOk, Graft, StaleAt, Clear, Ripe;
    GraftFacts(b.src, op.at, op.sub);
    PlantIsClear(b.pend, Graft(b.src, op.at, op.sub), op.at, op.sub);
    assert Arrived(b, Apply(b, op), op.at);
    if op.at in b.src {
      PlantIsRipe(b, Apply(b, op), op.at, roots);
    } else {
      NewIsRipe(b, Apply(b, op), op.at, roots);
    }
  }

  lemma PlantIsRipe(b: State, m: State, p: Path, roots: Roots)
    requires Inv(b, roots) && p in b.src && p in m.src && m.dst == b.dst
    ensures Ripe(m, p) <==> CanReplace(m.src[p], b.src[p])
  {
    hide WatchesAgree, PendingOk;
  }

  lemma CreationOfFileIgnored(m: State, c: Event, e: Event, p: Path, given: map<nat, Path>, roots: Roots, now: int)
    requires Announces(m, e, p) && m.src[p].File?
    requires c.kind == Create && !c.isDir && c.wd == e.wd && c.name == e.name
    ensures Handle(m, c, given, roots, now) == m
  {
    EventNamesPath(m, c, p);
  }

  lemma AwaitedIsThere(m: State, p: Path, roots: Roots)
    requires Awaited(m, p, roots)
    ensures p in m.src && p != []
  {
  }

  lemma SameWatch(b: State, d: Event, e: Event, roots: Roots)
    requires Inv(b, roots) && d.wd in b.kernel && e.wd in b.kernel && b.kernel[d.wd] == b.kernel[e.wd]
    ensures d.wd == e.wd
  {
  }

  // ---------- deleting ----------

  lemma UnlinkReported(b: State, p: Path, e: Event, given: map<nat, Path>, roots: Roots, now: int)
    requires Inv(b, roots) && Allowed(b, Unlink(p)) && Reports(b.kernel, e, Delete, p, false)
    ensures Inv(Handle(Leave(b, p), e, given, roots, now), roots)
  {
    hide TreesAgree, WatchesAgree, PendingOk;
    ReportFound(b, e, Delete, p, false, roots);
    DeletionReported(b, p, roots, false);
  }

  /** Both events of a directory's removal, whichever comes first, have the same effect. */
  lemma RmdirReported(b: State, p: Path, e: Event, given: map<nat, Path>, roots: Roots, now: int)
    requires Inv(b, roots) && Allowed(b, Rmdir(p))
    requires Reports(b.kernel, e, Delete, p, true) || ReportsSelf(b.kernel, e, DeleteSelf, p)
    ensures var m' := Forget(Leave(b, p).(dst := Remove(b.dst, p)), p);
            Handle(Leave(b, p), e, given, roots, now) == m' && Inv(m', roots) && Gone(m', p)
  {
    hide TreesAgree, WatchesAgree, PendingOk, Forget, Remove, Outside, Gone, Unnamed;
    if e.kind == Delete {
      ReportFound(b, e, Delete, p, true, roots);
    } else {
      SelfFound(b, e, DeleteSelf, p, roots);
    }
    DeletionReported(b, p, roots, true);
    DeletedIsGone(Leave(b, p).(dst := Remove(b.dst, p)), b.dst, p);
  }

  lemma DeletedIsGone(m: State, d: Tree, p: Path)
    requires m.dst == Remove(d, p)
    ensures Gone(Forget(m, p), p)
  {
  }

  lemma RmdirLeavesInert(b: State, p: Path, f: Event, roots: Roots)
    requires Inv(b, roots) && p != []
    requires Reports(b.kernel, f, Delete, p, true) || ReportsSelf(b.kernel, f, DeleteSelf, p)
             || ReportsSelf(b.kernel, f, Ignored, p)
    ensures Inert(Forget(Leave(b, p).(dst := Remove(b.dst, p)), p), f)
  {
    hide TreesAgree, WatchesAgree, PendingOk;
    if f.kind == Delete {
      ReportFound(b, f, Delete, p, true, roots);
      EventNamesPath(b, f, p);
    } else {
      SelfFound(b, f, f.kind, p, roots);
    }
  }

  // ---------- moving out ----------

  lemma MoveOutReported(b: State, p: Path, e: Event, given: map<nat, Path>, roots: Roots, now: int)
    requires Inv(b, roots) && Allowed(b, MoveOut(p)) && Reports(b.kernel, e, MovedFrom, p, b.src[p].Dir?)
    requires UnusedCookie(b.pend, e.cookie)
    ensures var m' := Leave(b, p).(pend := b.pend + [Pending(e.cookie, b.src[p].Dir?, p)]);
            Handle(Leave(b, p), e, given, roots, now) == m' && Inv(m', roots)
  {
    hide TreesAgree, WatchesAgree, PendingOk;
    ReportFound(b, e, MovedFrom, p, b.src[p].Dir?, roots);
    DepartureReported(b, p, e.cookie, roots);
  }

  lemma MoveSelfInert(b: State, p: Path, f: Event, roots: Roots)
    requires Inv(b, roots) && p != [] && ReportsSelf(b.kernel, f, MoveSelf, p)
    ensures RootSafe(b, f.wd)
  {
    SelfFound(b, f, MoveSelf, p, roots);
  }

  // ---------- renaming ----------

  lemma RenameReported(b: State, op: Op, e: Event, given: map<nat, Path>, roots: Roots, now: int)
    requires Inv(b, roots) && IsMove(op) && Allowed(b, op)
    requires Reports(b.kernel, e, MovedFrom, op.at, IsDir(b.src, op.at)) && UnusedCookie(b.pend, e.cookie)
    ensures var x := Pending(e.cookie, IsDir(b.src, op.at), op.at);
            var m' := Relocate(b, op.at, op.to).(pend := b.pend + [x]);
            Handle(Relocate(b, op.at, op.to), e, given, roots, now) == m' && Moving(m', x, op, b, roots)
  {
    hide TreesAgree, WatchesAgree, PendingOk, Move, HalfKnown, RebaseTable;
    ReportFound(b, e, MovedFrom, op.at, IsDir(b.src, op.at), roots);
    var x := Pending(e.cookie, IsDir(b.src, op.at), op.at);
    FirstHalf(b, op, x, roots);
    assert (b.pend + [x])[|b.pend|] == x;
  }

  // ---------- one operation ----------

  /** Expiry looks at the source not at all, and at the kernel's watches only through the table. */
  lemma ExpireLeaves(m: State, q: Path, j: nat)
    requires j < |m.pend|
    ensures Expire(Leave(m, q), j) == Leave(Expire(m, j), q)
  {
    hide Remove, SwapRemove;
    var a, c := Expire(Leave(m, q), j), Leave(Expire(m, j), q);
    forall w ensures w in a.kernel <==> w in c.kernel {
    }
    assert a.kernel == c.kernel;
  }

  /** An expiry before the first event is as good as one before the operation. */
  lemma ExpiryBeforeEvents(b: State, op: Op, i: nat, roots: Roots)
    requires Inv(b, roots) && i < |b.pend|
    ensures Expire(Apply(b, op), i) == Apply(Expire(b, i), op)
  {
    hide TreesAgree, PendingOk;
    match op {
      case Rename(p, q) =>
        ExpireRelocated(b, p, q, i, roots);
      case Replace(p, q) =>
        ExpireRelocated(b, p, q, i, roots);
      case Plant(_, _, _) =>
      case _ =>
        ExpireLeaves(b, op.at, i);
    }
  }

  /** The operation remains possible, and its events the same, when an unfinished move expires. */
  lemma ExpiryKeepsOperation(b: State, op: Op, evs: seq<Event>, i: nat, roots: Roots)
    requires Inv(b, roots) && i < |b.pend| && Allowed(b, op) && EventsOf(b, op, evs)
    ensures Allowed(Expire(b, i), op) && EventsOf(Expire(b, i), op, evs)
    ensures Clean(b, op) ==> Clean(Expire(b, i), op)
  {
    hide TreesAgree, WatchesAgree, PendingOk;
    ExpireWatches(b, i, roots);
    SwapRemoveElements(b.pend, i);
  }

  /** What a schedule of an operation's events, with expiries in between, needs. */
  ghost predicate Scheduled(b: State, op: Op, acts: seq<Act>, roots: Roots, now: int) {
    && Allowed(b, op)
    && EventsOf(b, op, EventsIn(acts))
    && RunOk(Apply(b, op), acts, roots, now)
  }

  lemma EventsOfNonempty(b: State, op: Op, evs: seq<Event>)
    requires EventsOf(b, op, evs)
    ensures evs != []
  {
  }

  lemma MoveSelfIsSelf(b: State, p: Path, f: Event, roots: Roots)
    requires Inv(b, roots) && p != [] && ReportsSelf(b.kernel, f, MoveSelf, p)
    ensures f.kind == MoveSelf && f.name == None && RootSafe(b, f.wd)
  {
    MoveSelfInert(b, p, f, roots);
  }
}
