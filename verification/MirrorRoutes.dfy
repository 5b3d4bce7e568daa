/** The two ways a rename inside the source can be handled, and when they have the same outcome. */
module MirrorRoutes {
  import opened Paths
  import opened Trees
  import opened Mirror
  import opened MirrorSteps
  import opened MirrorMoves
  import opened MirrorHalves
  import opened MirrorEvents
  import opened MirrorOperations
  import opened MirrorPhases
  import opened MirrorResults

  /** A rename whose first half expires before its second half is handled. */
  ghost predicate Late(b: State, acts: seq<Act>) {
    && |acts| >= 3
    && acts[0].Ev? && acts[1] == Exp(|b.pend|)
    && forall i | 2 <= i < |acts| :: acts[i].Ev?
  }

  /** `m` differs from `b` as a rename from `p` to `q` should outside the place `q`. */
  ghost predicate RenamedOutside(b: State, m: State, p: Path, q: Path) {
    && m.src == Move(b.src, p, q) && m.pend == b.pend
    && (forall r | !(q <= r) :: r in m.dst <==> r in b.dst && !(p <= r))
    && (forall r | !(q <= r) && r in m.dst :: m.dst[r] == b.dst[r])
    && (forall w | w in b.table && !(p <= b.table[w]) :: w in m.table && m.table[w] == b.table[w])
    && (forall w | w in m.table && !(q <= m.table[w]) :: w in b.table && m.table[w] == b.table[w])
  }

  /** Inside `q` the backup has nothing but what the source has. */
  ghost predicate Filled(m: State, q: Path) {
    forall r | q <= r && r in m.dst :: r in m.src
  }

  lemma MovedOutsideOf(d: Tree, p: Path, q: Path)
    requires forall y | y in d :: !(q <= y)
    ensures forall r | !(q <= r) :: r in Move(d, p, q) <==> r in d && !(p <= r)
    ensures forall r | !(q <= r) && r in Move(d, p, q) :: Move(d, p, q)[r] == d[r]
  {
    MoveMoves(d, p, q);
  }

  lemma PromptOutside(b: State, p: Path, q: Path, roots: Roots)
    requires Inv(b, roots) && Allowed(b, Rename(p, q))
    ensures RenamedOutside(b, Renamed(b, p, q), p, q)
  {
    hide Inv, Move, RebaseTable, Clear;
    assert forall y | y in b.dst :: !(q <= y) by {
      RenameFits(b, p, q, roots);
    }
    MovedOutsideOf(b.dst, p, q);
    if IsDir(b.src, p) {
      RecordsOutside(b.table, p, q);
    } else {
      LeafUnwatched(b, p, roots);
    }
  }

  lemma RecordsOutside(table: map<nat, Path>, p: Path, q: Path)
    ensures forall w | w in table && !(p <= table[w]) :: w in RebaseTable(table, p, q) && RebaseTable(table, p, q)[w] == table[w]
    ensures forall w | w in RebaseTable(table, p, q) && !(q <= RebaseTable(table, p, q)[w]) ::
              w in table && RebaseTable(table, p, q)[w] == table[w] && !(p <= table[w])
  {
    forall w | w in table && p <= table[w] ensures q <= Rebase(table[w], p, q) {
      RebaseBack(table[w], q, p);
    }
  }

  // ---------- the late route ----------

  lemma LateArrival(b: State, p: Path, q: Path, f: Event, given: map<nat, Path>, roots: Roots, now: int)
    requires Inv(b, roots) && Allowed(b, Rename(p, q))
    requires Announces(Lost(b, p, q), f, q) && ActOk(Lost(b, p, q), Ev(f, given))
    ensures var n := Handle(Lost(b, p, q), f, given, roots, now);
            RenamedOutside(b, n, p, q) && Filled(n, q) && Inv(n, roots)
  {
    hide *;
    var m := Lost(b, p, q);
    LostState(b, p, q, roots);
    LateAwaited(Leave(m, q), m, q, roots);
    NewIsRipe(Leave(m, q), m, q, roots);
    TakenUp(m, f, q, given, roots, now);
    AnnouncementLooks(m, f, q, given, roots, now);
    AnnouncedKind(m, f, q);
    if m.src[q].Dir? {
      ArrivalIsFresh(m, f, q, given);
      LateDirectory(b, m, p, q, given, roots, now);
    } else {
      LateOther(b, m, p, q, roots, now);
    }
    AppearIs(m, q, f.isDir, given, roots, now);
  }

  lemma LateAwaited(h: State, m: State, q: Path, roots: Roots)
    requires Inv(h, roots) && Arrived(h, m, q) && q !in h.src
    ensures Awaited(m, q, roots)
  {
  }

  lemma AppearIs(m: State, q: Path, isDir: bool, given: map<nat, Path>, roots: Roots, now: int)
    ensures Appear(m, q, isDir, given, roots, now) ==
            if isDir then Adopt(m, q, given, roots, now) else m.(dst := MirrorOne(m.src, m.dst, q, roots, now))
  {
  }

  lemma LateDirectory(b: State, m: State, p: Path, q: Path, given: map<nat, Path>, roots: Roots, now: int)
    requires Inv(Leave(m, q), roots) && Arrived(Leave(m, q), m, q) && q !in Leave(m, q).src && m.src[q].Dir?
    requires m.src == Move(b.src, p, q) && m.pend == b.pend && m.dst == Remove(b.dst, p)
    requires m.table == (map w | w in b.table && !(p <= b.table[w]) :: b.table[w])
    requires FreshWatches(m, q, given)
    ensures var n := Adopt(m, q, given, roots, now); RenamedOutside(b, n, p, q) && Filled(n, q)
  {
    hide Inv, Move, Adopt, Remove;
    LateTree(Leave(m, q), m, q, given, roots, now);
    AddedInside(b, m, p, q, WithCopy(m.src, m.dst, q, roots, now), given);
  }

  lemma LateOther(b: State, m: State, p: Path, q: Path, roots: Roots, now: int)
    requires Inv(Leave(m, q), roots) && Arrived(Leave(m, q), m, q) && q !in Leave(m, q).src && !m.src[q].Dir?
    requires m.src == Move(b.src, p, q) && m.pend == b.pend && m.dst == Remove(b.dst, p)
    requires m.table == (map w | w in b.table && !(p <= b.table[w]) :: b.table[w])
    ensures var n := m.(dst := MirrorOne(m.src, m.dst, q, roots, now)); RenamedOutside(b, n, p, q) && Filled(n, q)
  {
    hide Inv, Move, MirrorOne, Remove;
    LateLeaf(Leave(m, q), m, q, roots, now);
    AddedInside(b, m, p, q, m.dst[q := Copied(m.src[q], roots, now)], map[]);
    assert m.table + map[] == m.table;
  }

  /** After the expiry, additions inside `q` alone lead to the renamed state outside it. */
  lemma AddedInside(b: State, m: State, p: Path, q: Path, d: Tree, given: map<nat, Path>)
    requires m.dst == Remove(b.dst, p)
    requires m.table == (map w | w in b.table && !(p <= b.table[w]) :: b.table[w])
    requires forall r | !(q <= r) :: (r in d <==> r in m.dst) && (r in d ==> d[r] == m.dst[r])
    requires given.Keys !! m.table.Keys + m.kernel.Keys && forall w | w in given :: q <= given[w]
    ensures forall r | !(q <= r) :: r in d <==> r in b.dst && !(p <= r)
    ensures forall r | !(q <= r) && r in d :: d[r] == b.dst[r]
    ensures var t := m.table + given;
            && (forall w | w in b.table && !(p <= b.table[w]) :: w in t && t[w] == b.table[w])
            && (forall w | w in t && !(q <= t[w]) :: w in b.table && t[w] == b.table[w])
  {
  }

  lemma LateTree(h: State, m: State, q: Path, given: map<nat, Path>, roots: Roots, now: int)
    requires Inv(h, roots) && Arrived(h, m, q) && q !in h.src && m.src[q].Dir?
    ensures Adopt(m, q, given, roots, now) ==
            m.(dst := WithCopy(m.src, h.dst, q, roots, now), table := m.table + given, kernel := m.kernel + given)
    ensures forall r | q <= r && r in WithCopy(m.src, h.dst, q, roots, now) :: r in m.src
  {
    hide WatchesAgree, PendingOk;
    ClearPlaceIsEmpty(h.src, h.dst, h.pend, q, roots);
    AdoptedTree(h, m, q, given, roots, now);
  }

  lemma LateLeaf(h: State, m: State, q: Path, roots: Roots, now: int)
    requires Inv(h, roots) && Arrived(h, m, q) && q !in h.src && !m.src[q].Dir?
    ensures MirrorOne(m.src, m.dst, q, roots, now) == m.dst[q := Copied(m.src[q], roots, now)]
    ensures forall r | q <= r && r in m.dst[q := Copied(m.src[q], roots, now)] :: r in m.src
  {
    ClearPlaceIsEmpty(h.src, h.dst, h.pend, q, roots);
    MirrorOneWrites(m.src, m.dst, q, roots, now);
  }

  /** Both halves of a move, with the expiry of the first between them. */
  lemma LateRun(b: State, op: Op, acts: seq<Act>, roots: Roots, now: int)
    requires Inv(b, roots) && IsMove(op) && Scheduled(b, op, acts, roots, now) && Late(b, acts)
    ensures var m, f := Lost(b, op.at, op.to), acts[2].e;
            && Announces(m, f, op.to) && ActOk(m, acts[2])
            && Run(Apply(b, op), acts, roots, now) == Run(Handle(m, f, acts[2].given, roots, now), acts[3..], roots, now)
    ensures if |acts| == 4 then ReportsSelf(b.kernel, acts[3].e, MoveSelf, op.at) else |acts| == 3
    ensures op.Replace? ==> |acts| == 3
  {
    hide Inv, Handle, Reports, ReportsSelf, Lost, Announces, Relocate, Unnamed, UnusedCookie;
    var m, e, f := Relocate(b, op.at, op.to), acts[0].e, acts[2].e;
    assert Apply(b, op) == m;
    var x := Pending(e.cookie, IsDir(b.src, op.at), op.at);
    LateEvents(b, acts);
    assert MoveEvents(b, op.at, op.to, EventsIn(acts));
    RenameReported(b, op, e, acts[0].given, roots, now);
    FirstHalf(b, op, x, roots);
    var m1 := m.(pend := b.pend + [x]);
    FirstHalfLost(m1, b, op, |b.pend|, roots);
    LostAnnounces(b, f, x, op, roots);
    var rest, last := acts[1..], acts[1..][1..];
    assert rest[0] == acts[1] && last[0] == acts[2] && last[1..] == acts[3..];
    assert Run(m, acts, roots, now) == Run(m1, rest, roots, now);
    assert Run(m1, rest, roots, now) == Run(Lost(b, op.at, op.to), last, roots, now);
    assert RunOk(m1, rest, roots, now) && RunOk(Lost(b, op.at, op.to), last, roots, now);
  }

  lemma LateRename(b: State, p: Path, q: Path, acts: seq<Act>, roots: Roots, now: int)
    requires Inv(b, roots) && Scheduled(b, Rename(p, q), acts, roots, now)
    requires Late(b, acts)
    ensures var n := Run(Apply(b, Rename(p, q)), acts, roots, now);
            RenamedOutside(b, n, p, q) && Filled(n, q) && Inv(n, roots)
  {
    hide Inv, Handle, Apply, RenamedOutside, Lost, Announces, Filled, ReportsSelf, EventsOf, Unnamed, RunOk, ActOk;
    LateRun(b, Rename(p, q), acts, roots, now);
    var n := Handle(Lost(b, p, q), acts[2].e, acts[2].given, roots, now);
    LateArrival(b, p, q, acts[2].e, acts[2].given, roots, now);
    if |acts| == 4 {
      var end := acts[3..];
      assert end[0] == acts[3] && end[1..] == [];
      MoveSelfLate(b, n, p, q, acts[3].e, acts[3].given, roots, now);
      assert Run(n, end, roots, now) == Run(n, end[1..], roots, now);
    } else {
      assert acts[3..] == [];
    }
  }

  /** A rename onto a file or link that is handled late is mirrored exactly when the new node can
      be written over the old one; a file cannot be written over a link. */
  lemma LateReplaceIff(b: State, p: Path, q: Path, acts: seq<Act>, roots: Roots, now: int)
    requires Inv(b, roots) && Scheduled(b, Replace(p, q), acts, roots, now)
    requires Late(b, acts)
    ensures Inv(Run(Apply(b, Replace(p, q)), acts, roots, now), roots) <==> !(b.src[p].File? && b.src[q].Link?)
  {
    hide Inv, Handle, Apply, Lost, Announces, EventsOf, Unnamed, RunOk, Arrived, Ripe;
    var m := Lost(b, p, q);
    LateRun(b, Replace(p, q), acts, roots, now);
    LostReplacement(b, p, q, roots);
    ReplacementKind(b, p, q, roots);
    RipeByKind(m, b, p, q);
    ArrivalReported(Without(b, p), m, acts[2].e, q, acts[2].given, roots, now);
    assert acts[3..] == [];
  }

  lemma LateEvents(b: State, acts: seq<Act>)
    requires Late(b, acts)
    ensures |EventsIn(acts)| == |acts| - 1 && EventsIn(acts)[0] == acts[0].e
    ensures forall i | 2 <= i < |acts| :: EventsIn(acts)[i - 1] == acts[i].e
  {
    var rest := acts[2..];
    PromptEvents(rest);
    assert acts[1..][1..] == rest && acts[1..][0] == acts[1];
    assert EventsIn(acts[1..]) == EventsIn(rest);
    assert EventsIn(acts) == [acts[0].e] + EventsIn(rest);
    forall i | 2 <= i < |acts| ensures EventsIn(acts)[i - 1] == acts[i].e {
      assert acts[i] == rest[i - 2];
    }
  }

  lemma MoveSelfLate(b: State, m: State, p: Path, q: Path, e: Event, given: map<nat, Path>, roots: Roots, now: int)
    requires Inv(b, roots) && p != [] && q != [] && ReportsSelf(b.kernel, e, MoveSelf, p)
    requires RenamedOutside(b, m, p, q)
    ensures Handle(m, e, given, roots, now) == m
  {
    hide TreesAgree, WatchesAgree, PendingOk, Move;
    SelfFound(b, e, MoveSelf, p, roots);
    assert Inert(m, e);
    InertDoesNothing(m, e, given, roots, now);
  }

  // ---------- agreement ----------

  lemma BackupsAgree(b: State, m: State, n: State, p: Path, q: Path, roots: Roots)
    requires Inv(m, roots) && Inv(n, roots) && Filled(m, q)
    requires RenamedOutside(b, m, p, q) && RenamedOutside(b, n, p, q)
    ensures forall r | r in m.dst :: r in n.dst && SameContent(m.dst[r], n.dst[r])
  {
    hide WatchesAgree, PendingOk, Move;
    forall r | r in m.dst ensures r in n.dst && SameContent(m.dst[r], n.dst[r]) {
      if q <= r {
        assert r in m.src;
      }
    }
  }

  lemma RecordsAgree(b: State, m: State, n: State, p: Path, q: Path, roots: Roots)
    requires Inv(m, roots) && Inv(n, roots) && Filled(m, q)
    requires RenamedOutside(b, m, p, q) && RenamedOutside(b, n, p, q)
    ensures m.table.Values <= n.table.Values
  {
    hide PendingOk, Move;
    forall v | v in m.table.Values ensures v in n.table.Values {
      var w :| w in m.table && m.table[w] == v;
      if q <= v {
        assert IsDir(m.dst, v) && v in m.src;
        assert !StaleAt(m.pend, v);
        StaleDirectoryIsStale(m.pend, v);
        assert IsDir(m.src, v) && Watched(n.kernel, v);
        var u :| u in n.kernel && n.kernel[u] == v;
        assert u in n.table;
      } else {
        assert w in b.table && !(p <= b.table[w]);
      }
    }
  }

  /** The same backup and the same set of recorded paths. */
  ghost predicate Agree(m: State, n: State) {
    && m.dst.Keys == n.dst.Keys && (forall r | r in m.dst :: SameContent(m.dst[r], n.dst[r]))
    && m.table.Values == n.table.Values && m.pend == n.pend
  }

  /** A rename handled as a matched pair, and the same rename handled by expiry followed by an
      unmatched arrival, have the same outcome exactly when no unfinished move has left anything in
      the backup below the renamed path: the pair carries such a leftover along, the expiry deletes
      it. */
  lemma BothRoutesAgree(b: State, p: Path, q: Path, prompt: seq<Act>, late: seq<Act>, roots: Roots, now: int)
    requires Inv(b, roots)
    requires Scheduled(b, Rename(p, q), prompt, roots, now) && Prompt(prompt)
    requires Scheduled(b, Rename(p, q), late, roots, now) && Late(b, late)
    ensures Agree(Run(Apply(b, Rename(p, q)), prompt, roots, now), Run(Apply(b, Rename(p, q)), late, roots, now))
            <==> NothingStranded(b, p)
  {
    hide Inv, Run, RunOk, Renamed, Agree, NothingStranded, Filled, Move;
    var m, n := Renamed(b, p, q), Run(Apply(b, Rename(p, q)), late, roots, now);
    PromptMove(b, Rename(p, q), prompt, roots, now);
    PromptOutside(b, p, q, roots);
    LateRename(b, p, q, late, roots, now);
    if NothingStranded(b, p) {
      CleanOperationFits(b, Rename(p, q), prompt, roots, now);
      OperationKeepsInv(b, Rename(p, q), prompt, roots, now);
      NothingLeftInside(b, p, q, roots);
      BothAgree(b, m, n, p, q, roots);
    } else {
      LeftoverTellsApart(b, n, p, q, roots);
    }
  }

  /** Handled late, a rename keeps the mirror true whatever unfinished moves have left. */
  lemma LateRenameKeepsInv(b: State, p: Path, q: Path, acts: seq<Act>, roots: Roots, now: int)
    requires Inv(b, roots) && Scheduled(b, Rename(p, q), acts, roots, now) && Late(b, acts)
    ensures Inv(Run(Apply(b, Rename(p, q)), acts, roots, now), roots)
  {
    hide *;
    LateRename(b, p, q, acts, roots, now);
  }

  lemma NothingLeftInside(b: State, p: Path, q: Path, roots: Roots)
    requires Inv(b, roots) && Allowed(b, Rename(p, q)) && NothingStranded(b, p)
    ensures Filled(Renamed(b, p, q), q)
  {
    hide Inv, Move, NothingStranded, Moved, RebaseTable;
    LeftoverIff(b, p, roots);
    RenamedTrees(b, p, q, roots);
    forall r | q <= r && r in Renamed(b, p, q).dst ensures r in Renamed(b, p, q).src {
      RebaseBack(r, p, q);
      MovedBelow(b.dst, Renamed(b, p, q).dst, p, q, Rebase(r, q, p));
      MovedBelow(b.src, Renamed(b, p, q).src, p, q, Rebase(r, q, p));
    }
  }

  lemma LeftoverTellsApart(b: State, n: State, p: Path, q: Path, roots: Roots)
    requires Inv(b, roots) && Allowed(b, Rename(p, q)) && !NothingStranded(b, p)
    requires n.src == Move(b.src, p, q) && Filled(n, q)
    ensures !Agree(Renamed(b, p, q), n)
  {
    hide Inv, Move, NothingStranded, Moved, RebaseTable;
    LeftoverIff(b, p, roots);
    var y :| y in b.dst && p <= y && y !in b.src;
    RenamedTrees(b, p, q, roots);
    RebaseBack(y, q, p);
    MovedBelow(b.dst, Renamed(b, p, q).dst, p, q, y);
    MovedBelow(b.src, Renamed(b, p, q).src, p, q, y);
    assert Rebase(y, p, q) in Renamed(b, p, q).dst && Rebase(y, p, q) !in n.dst;
  }

  lemma BothAgree(b: State, m: State, n: State, p: Path, q: Path, roots: Roots)
    requires Inv(m, roots) && Inv(n, roots) && Filled(m, q) && Filled(n, q)
    requires RenamedOutside(b, m, p, q) && RenamedOutside(b, n, p, q)
    ensures Agree(m, n)
  {
    hide Inv, Move, Filled;
    BackupsAgree(b, m, n, p, q, roots);
    BackupsAgree(b, n, m, p, q, roots);
    RecordsAgree(b, m, n, p, q, roots);
    RecordsAgree(b, n, m, p, q, roots);
  }
}
