/** Single events and expiries while an operation on the source is only partly known. */
module MirrorEvents {
  import opened Basics
  import opened Paths
  import opened Trees
  import opened Mirror
  import opened MirrorSteps
  import opened MirrorMoves
  import opened MirrorHalves

  lemma EventNamesPath(m: State, e: Event, p: Path)
    requires p != [] && e.name == Some(p[|p| - 1]) && e.wd in m.table && m.table[e.wd] == Parent(p)
    ensures EventPath(m, e) == p
  {
  }

  // ---------- events that no longer matter ----------

  predicate RootSafe(m: State, wd: nat) {
    wd in m.table ==> m.table[wd] != []
  }

  ghost predicate Gone(m: State, p: Path) {
    && (forall y | y in m.dst :: !(p <= y))
    && (forall w | w in m.table :: !(p <= m.table[w]))
  }

  ghost predicate Inert(m: State, e: Event) {
    match e.kind
    case MoveSelf => e.name == None && RootSafe(m, e.wd)
    case Ignored => e.wd !in m.table
    case DeleteSelf => e.wd !in m.table
    case Delete => e.wd in m.table ==> Gone(m, EventPath(m, e))
    case _ => false
  }

  lemma InertDoesNothing(m: State, e: Event, given: map<nat, Path>, roots: Roots, now: int)
    requires Inert(m, e)
    ensures Handle(m, e, given, roots, now) == m
  {
    if e.kind == Delete && e.wd in m.table {
      var p := EventPath(m, e);
      assert Remove(m.dst, p) == m.dst;
      assert Forget(m, p).table == m.table;
      assert Forget(m, p).kernel == m.kernel;
    }
  }

  lemma InertStaysSo(m: State, e: Event, i: nat)
    requires Inert(m, e) && i < |m.pend|
    ensures Inert(Expire(m, i), e)
  {
  }

  // ---------- arrivals ----------

  /** `e` makes the monitor look at the arrived node `p`. */
  ghost predicate Announces(m: State, e: Event, p: Path) {
    && p != [] && p in m.src
    && e.name == Some(p[|p| - 1]) && e.wd in m.table && m.table[e.wd] == Parent(p)
    && e.isDir == m.src[p].Dir?
    && (e.kind == MovedTo || (e.kind == CloseWrite && m.src[p].File?) || (e.kind == Create && !m.src[p].File?))
    && (e.kind == MovedTo ==> UnusedCookie(m.pend, e.cookie))
  }

  lemma AnnouncementLooks(m: State, e: Event, p: Path, given: map<nat, Path>, roots: Roots, now: int)
    requires Announces(m, e, p)
    ensures Handle(m, e, given, roots, now) == Appear(m, p, e.isDir, given, roots, now)
  {
    EventNamesPath(m, e, p);
  }

  lemma ArrivalReported(h: State, m: State, e: Event, p: Path, given: map<nat, Path>, roots: Roots, now: int)
    requires Inv(h, roots) && Arrived(h, m, p) && Announces(m, e, p)
    requires LeafOnly(h.src, m.src, p)
    requires m.src[p].Dir? ==> FreshWatches(m, p, given)
    ensures Inv(Handle(m, e, given, roots, now), roots) <==> Ripe(m, p)
  {
    hide Inv, Arrived, Announces, Ripe, FreshWatches, Adopt, MirrorOne, Handle;
    AnnouncementLooks(m, e, p, given, roots, now);
    AnnouncedKind(m, e, p);
    if m.src[p].Dir? {
      ArrivalOfTree(h, m, p, given, roots, now);
      NewIsRipe(h, m, p, roots);
    } else if Ripe(m, p) {
      ArrivalOfLeaf(h, m, p, roots, now);
    } else {
      ArrivalLeftOut(h, m, p, roots, now);
    }
  }

  lemma AnnouncedKind(m: State, e: Event, p: Path)
    requires Announces(m, e, p)
    ensures p in m.src && e.isDir == m.src[p].Dir?
  {
  }

  lemma NewIsRipe(h: State, m: State, p: Path, roots: Roots)
    requires Inv(h, roots) && Arrived(h, m, p) && p !in h.src
    ensures Ripe(m, p)
  {
    ClearPlaceIsEmpty(h.src, h.dst, h.pend, p, roots);
  }

  lemma AnnouncementSurvivesExpiry(m: State, e: Event, p: Path, i: nat)
    requires Announces(m, e, p) && i < |m.pend| && !(m.pend[i].path <= Parent(p))
    ensures Announces(Expire(m, i), e, p)
  {
    SwapRemoveElements(m.pend, i);
  }

  lemma ArrivedSurvivesExpiry(h: State, m: State, p: Path, i: nat)
    requires Arrived(h, m, p) && i < |m.pend|
    ensures Arrived(Expire(h, i), Expire(m, i), p)
  {
    SwapRemoveElements(m.pend, i);
    assert Expire(m, i) == Expire(h, i).(src := m.src);
  }

  /** If there was something at `p` before, neither it nor what is there now is a directory. */
  predicate LeafOnly(s: Tree, t: Tree, p: Path) {
    p in s ==> p in t && !s[p].Dir? && !t[p].Dir?
  }

  /** The node at `p` has arrived, and all else has been reported. */
  ghost predicate Awaited(m: State, p: Path, roots: Roots) {
    exists h :: Inv(h, roots) && Arrived(h, m, p) && LeafOnly(h.src, m.src, p)
  }

  lemma ExpireKeepsSource(m: State, i: nat)
    requires i < |m.pend|
    ensures Expire(m, i).src == m.src
  {
  }

  lemma ParentNotStale(h: State, m: State, p: Path, i: nat, roots: Roots)
    requires Inv(h, roots) && Arrived(h, m, p) && i < |m.pend|
    ensures p != [] && h.pend == m.pend && !(m.pend[i].path <= Parent(p))
  {
    hide WatchesAgree, PendingOk;
    assert !StaleAt(h.pend, Parent(p));
  }

  lemma RipeSurvivesExpiry(h: State, m: State, p: Path, i: nat)
    requires Arrived(h, m, p) && i < |m.pend|
    ensures Ripe(Expire(m, i), p) <==> Ripe(m, p)
  {
    assert !StaleAt(m.pend, p);
  }

  lemma ArrivalSurvivesExpiry(m: State, e: Event, p: Path, i: nat, roots: Roots)
    requires Awaited(m, p, roots) && Announces(m, e, p) && i < |m.pend|
    ensures Awaited(Expire(m, i), p, roots) && Announces(Expire(m, i), e, p)
    ensures Ripe(Expire(m, i), p) <==> Ripe(m, p)
  {
    hide Inv, Expire, Announces, Arrived, Ripe, StaleAt;
    var h :| Inv(h, roots) && Arrived(h, m, p) && LeafOnly(h.src, m.src, p);
    ParentNotStale(h, m, p, i, roots);
    AnnouncementSurvivesExpiry(m, e, p, i);
    ArrivedSurvivesExpiry(h, m, p, i);
    ExpireKeepsInv(h, i, roots);
    RipeSurvivesExpiry(h, m, p, i);
    assert Expire(h, i).src == h.src && Expire(m, i).src == m.src by {
      ExpireKeepsSource(h, i);
      ExpireKeepsSource(m, i);
    }
  }

  lemma TakenUp(m: State, e: Event, p: Path, given: map<nat, Path>, roots: Roots, now: int)
    requires Awaited(m, p, roots) && Announces(m, e, p) && ActOk(m, Ev(e, given))
    ensures var m' := Handle(m, e, given, roots, now);
            (Inv(m', roots) <==> Ripe(m, p)) && forall w | RootSafe(m, w) :: RootSafe(m', w)
  {
    var h :| Inv(h, roots) && Arrived(h, m, p) && LeafOnly(h.src, m.src, p);
    if m.src[p].Dir? {
      ArrivalIsFresh(m, e, p, given);
    }
    ArrivalReported(h, m, e, p, given, roots, now);
    forall w | RootSafe(m, w) ensures RootSafe(Handle(m, e, given, roots, now), w) {
      RootSafeAfterArrival(m, e, p, given, w, roots, now);
    }
  }

  lemma AwaitedFits(m: State, e: Event, p: Path)
    requires Announces(m, e, p) && e.kind == MovedTo
    ensures Fits(m, e) <==> Ripe(m, p)
  {
    EventNamesPath(m, e, p);
    assert Find(m.pend, e.cookie) == None;
  }

  lemma ArrivalIsFresh(m: State, e: Event, p: Path, given: map<nat, Path>)
    requires Announces(m, e, p) && m.src[p].Dir? && ActOk(m, Ev(e, given))
    ensures FreshWatches(m, p, given)
  {
    EventNamesPath(m, e, p);
  }

  lemma RootSafeAfterArrival(m: State, e: Event, p: Path, given: map<nat, Path>, wd: nat, roots: Roots, now: int)
    requires Announces(m, e, p) && RootSafe(m, wd)
    requires m.src[p].Dir? ==> FreshWatches(m, p, given)
    ensures RootSafe(Handle(m, e, given, roots, now), wd)
  {
    AnnouncementLooks(m, e, p, given, roots, now);
  }

  // ---------- renames ----------

  /** The move `op`, its first half recorded as `x`, is half known; without it the state is `c`. */
  ghost predicate Moving(m: State, x: Pending, op: Op, c: State, roots: Roots) {
    exists i :: 0 <= i < |m.pend| && m.pend[i] == x && HalfKnown(m, c, op, i, roots)
  }

  /** `e` reports the second half of the move. */
  ghost predicate Completes(c: State, e: Event, x: Pending, q: Path) {
    Reports(c.kernel, e, MovedTo, q, x.isDir) && e.cookie == x.cookie
  }

  lemma MovingIsFeasible(m: State, x: Pending, op: Op, c: State, roots: Roots)
    requires Moving(m, x, op, c, roots)
    ensures Inv(c, roots) && IsMove(op) && Allowed(c, op)
  {
  }

  /** Another move's expiry leaves the move half known. */
  lemma OtherExpires(m: State, x: Pending, op: Op, c: State, i: nat, j: nat, roots: Roots) returns (c': State)
    requires i < |m.pend| && m.pend[i] == x && HalfKnown(m, c, op, i, roots) && j < |m.pend| && j != i
    ensures Moving(Expire(m, j), x, op, c', roots) && c'.kernel == c.kernel
    ensures Allowed(c, op) && Allowed(c', op) && (Clean(c, op) ==> Clean(c', op))
  {
    hide Inv, Expire, NothingStranded, Relocate, SwapRemove, Unnamed;
    SwapRemoveElements(m.pend, j);
    c' := ExpireOther(m, c, op, i, j, roots);
    HasEntry(Expire(m, j), Place(m.pend, i, j), x, op, c', roots);
    HalfIsAllowed(Expire(m, j), c', op, Place(m.pend, i, j), roots);
  }

  lemma HasEntry(m: State, i: nat, x: Pending, op: Op, c: State, roots: Roots)
    requires i < |m.pend| && m.pend[i] == x && HalfKnown(m, c, op, i, roots)
    ensures Moving(m, x, op, c, roots)
  {
  }

  lemma HalfIsAllowed(m: State, c: State, op: Op, i: nat, roots: Roots)
    requires HalfKnown(m, c, op, i, roots)
    ensures Inv(c, roots) && IsMove(op) && Allowed(c, op)
  {
  }

  /** Once the first half has expired, the move has become an arrival out of nowhere. */
  lemma FirstHalfExpires(m: State, e: Event, x: Pending, op: Op, c: State, i: nat, roots: Roots)
    requires i < |m.pend| && m.pend[i] == x && HalfKnown(m, c, op, i, roots) && Completes(c, e, x, op.to)
    ensures Awaited(Expire(m, i), op.to, roots) && Announces(Expire(m, i), e, op.to)
    ensures Allowed(c, op)
    ensures Ripe(Expire(m, i), op.to) <==> (op.Replace? ==> CanReplace(c.src[op.at], c.src[op.to]))
  {
    hide Inv, Expire, Lost, Allowed, Completes, Arrived, Ripe, Announces, UnusedCookie;
    var m' := Lost(c, op.at, op.to);
    FirstHalfLost(m, c, op, i, roots);
    HalfIsAllowed(m, c, op, i, roots);
    LostAnnounces(c, e, x, op, roots);
    if op.Rename? {
      LostState(c, op.at, op.to, roots);
      NewIsRipe(Leave(m', op.to), m', op.to, roots);
    } else {
      LostReplacement(c, op.at, op.to, roots);
      ReplacementKind(c, op.at, op.to, roots);
      RipeByKind(m', c, op.at, op.to);
    }
  }

  lemma ReplacementKind(b: State, p: Path, q: Path, roots: Roots)
    requires Inv(b, roots) && Allowed(b, Replace(p, q))
    ensures p in b.src && q in b.src && q in b.dst && SameKind(b.dst[q], b.src[q]) && !b.src[p].Dir?
  {
    hide WatchesAgree, PendingOk;
  }

  lemma RipeByKind(m: State, b: State, p: Path, q: Path)
    requires q in m.src && q in m.dst && p in b.src && q in b.src && q in b.dst
    requires m.src[q] == b.src[p] && m.dst[q] == b.dst[q] && SameKind(b.dst[q], b.src[q])
    ensures Ripe(m, q) <==> CanReplace(b.src[p], b.src[q])
  {
  }

  lemma LostAnnounces(b: State, f: Event, x: Pending, op: Op, roots: Roots)
    requires Inv(b, roots) && IsMove(op) && Allowed(b, op)
    requires x.path == op.at && x.isDir == IsDir(b.src, op.at) && UnusedCookie(b.pend, x.cookie)
    requires Completes(b, f, x, op.to)
    ensures Announces(Lost(b, op.at, op.to), f, op.to)
  {
    hide TreesAgree, PendingOk, Move, Lost, NothingStranded, Unnamed;
    var p, q := op.at, op.to;
    var m := Lost(b, p, q);
    LostParts(b, p, q);
    if op.Rename? {
      LostState(b, p, q, roots);
    } else {
      LostReplacement(b, p, q, roots);
      LeafPlaces(b, p, q, roots);
    }
    assert f.wd in b.table && b.table[f.wd] == Parent(q);
    assert !(p <= Parent(q));
  }

  // ---------- the second half ----------

  lemma NamedWithFirstHalf(m: State, c: State, i: nat, p: Path, q: Path)
    requires i < |m.pend| && m.pend[i].path == p && c.pend == SwapRemove(m.pend, i) && !(p <= q) && !(q <= p)
    requires m == c.(pend := m.pend)
    ensures LeftoversNamed(m, p, q) <==> LeftoversNamed(c, p, q)
  {
    hide StaleAt, StaleDirAt, SwapRemove, Rebase;
    SwapRemoveElements(m.pend, i);
    forall y | p <= y
      ensures StaleAt(m.pend, Rebase(y, p, q)) <==> StaleAt(c.pend, Rebase(y, p, q))
      ensures m.pend[i].path != Rebase(y, p, q)
    {
      BelowNew(y, p, q);
      StaleAfterRemoval(m.pend, i, Rebase(y, p, q));
    }
    forall j | 0 <= j < |m.pend| && j != i
      ensures exists k :: 0 <= k < |c.pend| && c.pend[k] == m.pend[j]
    {
      assert c.pend[if j == |m.pend| - 1 then i else j] == m.pend[j];
    }
    forall k | 0 <= k < |c.pend| ensures exists j :: 0 <= j < |m.pend| && m.pend[j] == c.pend[k] {
      assert m.pend[if k == i then |m.pend| - 1 else k] == c.pend[k];
    }
  }

  lemma BelowNew(y: Path, p: Path, q: Path)
    requires p <= y && !(p <= q) && !(q <= p)
    ensures q <= Rebase(y, p, q) && !(p <= Rebase(y, p, q))
  {
    if p <= Rebase(y, p, q) {
      PrefixesComparable(p, q, Rebase(y, p, q));
    }
  }

  lemma NothingBelowLeaf(b: State, p: Path, q: Path, roots: Roots)
    requires Inv(b, roots) && Allowed(b, Replace(p, q))
    ensures LeftoversNamed(Relocate(b, p, q), p, q)
  {
    hide Inv, Allowed, Move;
    LeafPlaces(b, p, q, roots);
    ReplacedSource(b, p, q, roots);
    assert Rebase(p, p, q) == q;
  }

  lemma MoveHasPlace(b: State, op: Op, roots: Roots)
    requires Inv(b, roots) && IsMove(op) && Allowed(b, op)
    ensures op.to != [] && !(op.at <= op.to) && !(op.to <= op.at)
    ensures RenameIn(b.dst, op.at, op.to) == Move(b.dst, op.at, op.to)
    ensures !NoWayTo(b.dst, op.to) && WithParent(b.dst, op.to) == b.dst
  {
    hide Inv, Move, NoWayTo, WithParent, RenameIn, Unnamed;
    if op.Rename? {
      RenameFits(b, op.at, op.to, roots);
      PlaceIsEmpty(b, op.at, op.to, roots);
    } else {
      ReplaceFits(b, op.at, op.to, roots);
      LeafPlaces(b, op.at, op.to, roots);
    }
  }

  lemma MovedIff(b: State, op: Op, roots: Roots)
    requires Inv(b, roots) && IsMove(op) && Allowed(b, op)
    ensures Inv(Renamed(b, op.at, op.to), roots) <==> LeftoversNamed(Relocate(b, op.at, op.to), op.at, op.to)
  {
    hide Inv, Allowed, LeftoversNamed, Renamed, Relocate;
    if op.Rename? {
      RenamedIff(b, op.at, op.to, roots);
    } else {
      ReplacedAgrees(b, op.at, op.to, roots);
      NothingBelowLeaf(b, op.at, op.to, roots);
    }
  }

  lemma FoundOnce(pend: seq<Pending>, i: nat)
    requires i < |pend| && UnusedCookie(SwapRemove(pend, i), pend[i].cookie)
    ensures Find(pend, pend[i].cookie) == Some(i)
  {
    SwapRemoveElements(pend, i);
    forall j | 0 <= j < i ensures pend[j].cookie != pend[i].cookie {
      assert SwapRemove(pend, i)[j] == pend[j];
    }
  }

  lemma Completing(m: State, e: Event, x: Pending, op: Op, c: State, i: nat, roots: Roots)
    requires i < |m.pend| && m.pend[i] == x && HalfKnown(m, c, op, i, roots) && Completes(c, e, x, op.to)
    ensures e.kind == MovedTo && e.wd in m.table && EventPath(m, e) == op.to && Find(m.pend, e.cookie) == Some(i)
  {
    hide TreesAgree, PendingOk, Allowed, Move;
    FoundOnce(m.pend, i);
    EventNamesPath(m, e, op.to);
  }

  /** The matched arrival: rename in the backup, and the records' paths rewritten. */
  lemma SecondHalf(m: State, e: Event, x: Pending, op: Op, c: State, given: map<nat, Path>, roots: Roots, now: int)
    requires Moving(m, x, op, c, roots) && Completes(c, e, x, op.to)
    ensures Handle(m, e, given, roots, now) == Renamed(c, op.at, op.to)
    ensures Inv(Renamed(c, op.at, op.to), roots) <==> Fits(m, e)
    ensures forall w | RootSafe(m, w) :: RootSafe(Renamed(c, op.at, op.to), w)
  {
    hide Inv, Allowed, Completes, RenameIn, Move, RebaseTable, NoWayTo, WithParent, EventPath, LeftoversNamed, UnusedCookie;
    var i :| 0 <= i < |m.pend| && m.pend[i] == x && HalfKnown(m, c, op, i, roots);
    Completing(m, e, x, op, c, i, roots);
    MoveHasPlace(c, op, roots);
    MovedIff(c, op, roots);
    NamedWithFirstHalf(m, Relocate(c, op.at, op.to), i, op.at, op.to);
    RootSafeAfterRename(c, op.at, op.to);
  }

  lemma RootSafeAfterRename(c: State, p: Path, q: Path)
    requires q != []
    ensures forall w | RootSafe(c, w) :: RootSafe(Renamed(c, p, q), w)
  {
    hide Move;
  }
}
