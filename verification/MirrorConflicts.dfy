/** What becomes of a node that comes to lie where an unfinished move names a path. */
module MirrorConflicts {
  import opened Basics
  import opened Paths
  import opened Trees
  import opened Mirror
  import opened MirrorSteps
  import opened MirrorMoves
  import opened MirrorOperations
  import opened MirrorPhases
  import opened MirrorResults

  // ---------- all unfinished moves expire ----------

  function ExpireAll(m: State): State
    decreases |m.pend|
  {
    if m.pend == [] then m else ExpireAll(Expire(m, 0))
  }

  lemma {:induction false} ExpireAllKeepsInv(m: State, roots: Roots)
    requires Inv(m, roots)
    ensures Inv(ExpireAll(m), roots)
    decreases |m.pend|
  {
    hide Inv;
    if m.pend != [] {
      ExpireKeepsInv(m, 0, roots);
      ExpireAllKeepsInv(Expire(m, 0), roots);
    }
  }

  lemma {:induction false} ExpireAllRemoves(m: State, p: Path)
    requires p !in m.dst || StaleAt(m.pend, p)
    ensures p !in ExpireAll(m).dst && ExpireAll(m).src == m.src
    decreases |m.pend|
  {
    if m.pend != [] {
      StaleAfterRemoval(m.pend, 0, p);
      ExpireAllRemoves(Expire(m, 0), p);
    }
  }

  // ---------- events that leave the unfinished moves as they are ----------

  /** An event that neither begins nor completes a move. */
  predicate NoHalf(pend: seq<Pending>, e: Event) {
    e.kind != MovedFrom && (e.kind == MovedTo ==> UnusedCookie(pend, e.cookie))
  }

  lemma HandleKeepsSource(m: State, e: Event, given: map<nat, Path>, roots: Roots, now: int)
    ensures Handle(m, e, given, roots, now).src == m.src
    ensures NoHalf(m.pend, e) ==> Handle(m, e, given, roots, now).pend == m.pend
  {
    hide MirrorOne, RenameIn, Remove, Forget, Adopt, Appear, ArriveMoved, EventPath;
    if e.wd in m.table {
      var p := EventPath(m, e);
      ArrivalKeepsSource(m, e, p, given, roots, now);
      AdoptKeepsSource(m, p, given, roots, now);
      ForgetKeepsSource(m.(dst := Remove(m.dst, p)), p);
    }
  }

  lemma AdoptKeepsSource(m: State, p: Path, given: map<nat, Path>, roots: Roots, now: int)
    ensures Adopt(m, p, given, roots, now).src == m.src && Adopt(m, p, given, roots, now).pend == m.pend
  {
    hide MirrorOne, CopyDown;
  }

  lemma ForgetKeepsSource(m: State, p: Path)
    ensures Forget(m, p).src == m.src && Forget(m, p).pend == m.pend
  {
  }

  lemma ArrivalKeepsSource(m: State, e: Event, p: Path, given: map<nat, Path>, roots: Roots, now: int)
    ensures ArriveMoved(m, e, p, given, roots, now).src == m.src
    ensures UnusedCookie(m.pend, e.cookie) ==> ArriveMoved(m, e, p, given, roots, now).pend == m.pend
  {
    hide MirrorOne, RenameIn, Adopt, NoWayTo, WithParent;
    AdoptKeepsSource(m, p, given, roots, now);
  }

  lemma {:induction false} QuietRun(m: State, acts: seq<Act>, roots: Roots, now: int)
    requires Prompt(acts) && forall i | 0 <= i < |acts| :: NoHalf(m.pend, acts[i].e)
    ensures var n := Run(m, acts, roots, now); n.src == m.src && n.pend == m.pend
    decreases |acts|
  {
    hide Handle, NoHalf;
    if acts != [] {
      HandleKeepsSource(m, acts[0].e, acts[0].given, roots, now);
      QuietRun(Do(m, acts[0], roots, now), acts[1..], roots, now);
    }
  }

  lemma PlantRun(b: State, op: Op, acts: seq<Act>, roots: Roots, now: int)
    requires op.Plant? && EventsOf(b, op, EventsIn(acts)) && Prompt(acts)
    ensures var n := Run(Apply(b, op), acts, roots, now); n.src == Apply(b, op).src && n.pend == b.pend
  {
    hide Run, Graft;
    PromptEvents(acts);
    QuietRun(Apply(b, op), acts, roots, now);
  }

  lemma PairKeepsPending(b: State, p: Path, q: Path, e: Event, f: Event, g1: map<nat, Path>, g2: map<nat, Path>, roots: Roots, now: int)
    requires Inv(b, roots) && UnusedCookie(b.pend, e.cookie) && e.cookie == f.cookie
    requires Reports(b.kernel, e, MovedFrom, p, IsDir(b.src, p)) && Reports(b.kernel, f, MovedTo, q, IsDir(b.src, p))
    ensures var n := Handle(Handle(Relocate(b, p, q), e, g1, roots, now), f, g2, roots, now);
            n.src == Relocate(b, p, q).src && n.pend == b.pend
  {
    hide Inv, Handle, EventPath, UnusedCookie;
    var x := Pending(e.cookie, IsDir(b.src, p), p);
    ReportFound(b, e, MovedFrom, p, IsDir(b.src, p), roots);
    ReportFound(b, f, MovedTo, q, IsDir(b.src, p), roots);
    FirstRecorded(b, p, q, e, g1, roots, now);
    FoundLast(b.pend, x);
    SecondTakes(Relocate(b, p, q).(pend := b.pend + [x]), f, |b.pend|, g2, roots, now);
    assert SwapRemove(b.pend + [x], |b.pend|) == b.pend;
  }

  lemma FirstRecorded(b: State, p: Path, q: Path, e: Event, given: map<nat, Path>, roots: Roots, now: int)
    requires e.kind == MovedFrom && e.wd in b.table && EventPath(b, e) == p
    ensures var m := Relocate(b, p, q);
            Handle(m, e, given, roots, now) == m.(pend := b.pend + [Pending(e.cookie, e.isDir, p)])
  {
    hide Move, RebaseTable;
  }

  lemma SecondTakes(m: State, f: Event, i: nat, given: map<nat, Path>, roots: Roots, now: int)
    requires f.kind == MovedTo && f.wd in m.table && i < |m.pend| && Find(m.pend, f.cookie) == Some(i)
    ensures var n := Handle(m, f, given, roots, now); n.src == m.src && n.pend == SwapRemove(m.pend, i)
  {
    hide RenameIn, NoWayTo, WithParent, RebaseTable, EventPath;
  }

  lemma FoundLast(pend: seq<Pending>, x: Pending)
    requires UnusedCookie(pend, x.cookie)
    ensures Find(pend + [x], x.cookie) == Some(|pend|)
  {
    var all := pend + [x];
    assert all[|pend|] == x;
    assert forall i | 0 <= i < |pend| :: all[i] == pend[i];
  }

  lemma RenameRun(b: State, p: Path, q: Path, acts: seq<Act>, roots: Roots, now: int)
    requires Inv(b, roots) && EventsOf(b, Rename(p, q), EventsIn(acts)) && Prompt(acts)
    ensures var n := Run(Relocate(b, p, q), acts, roots, now); n.src == Relocate(b, p, q).src && n.pend == b.pend
  {
    hide Inv, Handle, Relocate;
    PromptEvents(acts);
    var m, e, f := Relocate(b, p, q), acts[0], acts[1];
    PairKeepsPending(b, p, q, e.e, f.e, e.given, f.given, roots, now);
    var n, rest := Handle(Handle(m, e.e, e.given, roots, now), f.e, f.given, roots, now), acts[1..][1..];
    assert acts[1..][0] == f;
    assert Run(m, acts, roots, now) == Run(n, rest, roots, now);
    QuietRun(n, rest, roots, now);
  }

  // ---------- the condition ----------

  lemma NamedNode(b: State, op: Op) returns (x: Path)
    requires Feasible(b, op) && !Unnamed(b, op)
    ensures op.Plant? || op.Rename?
    ensures x in Apply(b, op).src && StaleAt(b.pend, x)
  {
    hide StaleAt, Move, RebaseTable;
    match op {
      case Plant(p, sub, _) =>
        var r :| r in sub && StaleAt(b.pend, p + r);
        x := p + r;
      case Rename(p, q) =>
        var y :| y in b.src && p <= y && StaleAt(b.pend, Rebase(y, p, q));
        x := Rebase(y, p, q);
        RebaseBack(y, q, p);
        MoveAt(b.src, p, q, x);
        assert x[|q|..] == y[|p|..] && p + y[|p|..] == y;
      case _ =>
    }
  }

  lemma NewNodes(b: State, op: Op, acts: seq<Act>, roots: Roots, now: int)
    requires Inv(b, roots) && Feasible(b, op) && !Unnamed(b, op)
    requires EventsOf(b, op, EventsIn(acts)) && Prompt(acts)
    ensures var n := Run(Apply(b, op), acts, roots, now); n.src == Apply(b, op).src && n.pend == b.pend
  {
    hide Inv, Feasible, EventsOf, Run, Relocate, Graft;
    var _ := NamedNode(b, op);
    if op.Plant? {
      PlantRun(b, op, acts, roots, now);
    } else {
      RenameRun(b, op.at, op.to, acts, roots, now);
    }
  }

  /** A new node at a path that an unfinished move names, or below, is mirrored at first; when the
      move expires its image is deleted. So, for an operation whose events are handled at once and
      that is otherwise clean, the mirror stays true through all expiries exactly when no node comes
      to lie there. */
  lemma StaysTrueIff(b: State, op: Op, acts: seq<Act>, roots: Roots, now: int)
    requires Inv(b, roots) && Feasible(b, op) && Clean(b, op)
    requires EventsOf(b, op, EventsIn(acts)) && Prompt(acts) && RunOk(Apply(b, op), acts, roots, now)
    ensures Inv(ExpireAll(Run(Apply(b, op), acts, roots, now)), roots) <==> Unnamed(b, op)
  {
    hide Inv, Feasible, Unnamed, Clean, EventsOf, RunOk, Run, Apply, StaleAt, ExpireAll, Fitting;
    var n := Run(Apply(b, op), acts, roots, now);
    if Unnamed(b, op) {
      CleanOperationFits(b, op, acts, roots, now);
      OperationKeepsInv(b, op, acts, roots, now);
      ExpireAllKeepsInv(n, roots);
    } else {
      var x := NamedNode(b, op);
      NewNodes(b, op, acts, roots, now);
      ExpireAllRemoves(n, x);
      ImageMissing(ExpireAll(n), x, roots);
    }
  }

  lemma ImageMissing(m: State, x: Path, roots: Roots)
    requires x in m.src && x !in m.dst
    ensures !Inv(m, roots)
  {
  }

  // ---------- a full table of unfinished moves ----------

  lemma StillStale(pend: seq<Pending>, i: nat, d: Tree, y: Path)
    requires i < |pend| && WfTree(d) && y in d && StaleAt(pend, y)
    requires pend[i].path in d ==> StaleAt(SwapRemove(pend, i), pend[i].path)
    ensures StaleAt(SwapRemove(pend, i), y)
  {
    StaleAfterRemoval(pend, i, y);
    if pend[i].path <= y {
      PrefixClosed(d, y, pend[i].path);
      assert StaleAt(SwapRemove(pend, i), pend[i].path);
    }
  }

  lemma ForgottenTrees(m: State, i: nat, roots: Roots)
    requires Inv(m, roots) && i < |m.pend|
    requires m.pend[i].path in m.dst ==> StaleAt(SwapRemove(m.pend, i), m.pend[i].path)
    ensures TreesAgree(m.src, m.dst, SwapRemove(m.pend, i), roots)
  {
    hide WatchesAgree, PendingOk, StaleAt, SwapRemove;
    forall y | y in m.dst && StaleAt(m.pend, y) ensures StaleAt(SwapRemove(m.pend, i), y) {
      StillStale(m.pend, i, m.dst, y);
    }
    forall p ensures StaleAt(SwapRemove(m.pend, i), p) ==> StaleAt(m.pend, p) {
      StaleAfterRemoval(m.pend, i, p);
    }
  }

  lemma ForgottenWatches(m: State, i: nat, roots: Roots)
    requires Inv(m, roots) && i < |m.pend| && PendingOk(m.dst, SwapRemove(m.pend, i))
    requires m.pend[i].path in m.dst ==> StaleAt(SwapRemove(m.pend, i), m.pend[i].path)
    ensures WatchesAgree(m.src, m.dst, m.kernel, m.table, SwapRemove(m.pend, i))
  {
    hide TreesAgree, PendingOk, StaleAt, StaleDirAt, SwapRemove;
    assert WfTree(m.dst) by {
      WellFormed(m, roots);
    }
    forall w | w in m.table && w !in m.kernel ensures StaleDirAt(SwapRemove(m.pend, i), m.table[w]) {
      StaleDirectoryIsStale(m.pend, m.table[w]);
      StillStale(m.pend, i, m.dst, m.table[w]);
      StaleDirectory(m.dst, SwapRemove(m.pend, i), m.table[w]);
    }
  }

  lemma WellFormed(m: State, roots: Roots)
    requires Inv(m, roots)
    ensures WfTree(m.dst)
  {
  }

  /** A full table loses its oldest entry without a look at the backup. The mirror stays true exactly
      when nothing is left at the path of that entry, or another unfinished move names it too. */
  lemma ForgettingMoveIff(m: State, i: nat, roots: Roots)
    requires Inv(m, roots) && i < |m.pend|
    ensures Inv(m.(pend := SwapRemove(m.pend, i)), roots) <==>
            (m.pend[i].path in m.dst ==> StaleAt(SwapRemove(m.pend, i), m.pend[i].path))
  {
    hide TreesAgree, WatchesAgree, PendingOk, SwapRemove, StaleAt;
    var x := m.pend[i].path;
    if x in m.dst && !StaleAt(SwapRemove(m.pend, i), x) {
      NowhereNamed(m, i, roots);
    } else {
      PendingOkAfterRemoval(m.dst, m.dst, m.pend, i);
      ForgottenTrees(m, i, roots);
      ForgottenWatches(m, i, roots);
    }
  }

  lemma NowhereNamed(m: State, i: nat, roots: Roots)
    requires Inv(m, roots) && i < |m.pend| && m.pend[i].path in m.dst
    requires !StaleAt(SwapRemove(m.pend, i), m.pend[i].path)
    ensures !Inv(m.(pend := SwapRemove(m.pend, i)), roots)
  {
    hide WatchesAgree, PendingOk, SwapRemove;
    assert StaleAt(m.pend, m.pend[i].path);
  }
}
