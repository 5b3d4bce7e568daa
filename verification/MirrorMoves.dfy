/** A rename inside the source, and the same rename in the backup. */
module MirrorMoves {
  import opened Paths
  import opened Trees
  import opened Mirror
  import opened MirrorSteps

  lemma RebaseBack(x: Path, p: Path, q: Path)
    requires q <= x
    ensures p <= Rebase(x, q, p) && Rebase(Rebase(x, q, p), p, q) == x
    ensures x != q ==> Rebase(x, q, p) != [] && Parent(Rebase(x, q, p)) == Rebase(Parent(x), q, p) && q <= Parent(x)
  {
    var y := Rebase(x, q, p);
    assert y[|p|..] == x[|q|..];
    assert x == q + x[|q|..];
    if x != q {
      PrefixSplit(q, x);
      assert q <= Parent(x);
      assert Parent(y) == p + Parent(x)[|q|..];
    }
  }

  /** `t` is `s` with the subtree at `p` moved to `q`, where nothing was. */
  ghost predicate Moved(s: Tree, t: Tree, p: Path, q: Path) {
    && (forall x | x in t && q <= x :: Rebase(x, q, p) in s && t[x] == s[Rebase(x, q, p)])
    && (forall x | x in t && !(q <= x) :: x in s && !(p <= x) && t[x] == s[x])
    && (forall x | x in s && p <= x :: Rebase(x, p, q) in t)
    && (forall x | x in s && !(p <= x) :: x in t)
  }

  lemma MoveMoves(s: Tree, p: Path, q: Path)
    requires forall x | x in s :: !(q <= x)
    ensures Moved(s, Move(s, p, q), p, q)
  {
    var t := Move(s, p, q);
    forall x ensures x in t <==> if q <= x then Rebase(x, q, p) in s else x in s && !(p <= x)
             ensures x in t ==> t[x] == if q <= x then s[Rebase(x, q, p)] else s[x]
    {
      MoveAt(s, p, q, x);
    }
    forall x | x in s && p <= x ensures Rebase(x, p, q) in t {
      RebaseBack(x, q, p);
    }
  }

  /** Mirroring one node loses no other and adds none but missing directories above it; it makes the
      image exactly if no other node is in the way. */
  lemma MirroredIff(s: Tree, d: Tree, p: Path, roots: Roots, now: int)
    requires WfTree(d) && p in s
    ensures var t := MirrorOne(s, d, p, roots, now);
            && (forall q | q in d :: q in t && (q != p ==> t[q] == d[q]))
            && (forall q | q in t && q !in d :: q <= p && (q != p ==> t[q].Dir?))
            && (p in t && Image(s[p], t[p], roots) <==> !Blocked(d, p) && (p in d ==> CanReplace(s[p], d[p])))
  {
    hide Image;
    ImageIffReplaced(s[p], roots, now);
    if Blocked(d, p) {
      var k :| 0 <= k < |p| && p[..k] in d && !d[p[..k]].Dir?;
      if p in d {
        PrefixClosed(d, p, p[..k]);
      }
    }
  }

  lemma ImageIffReplaced(n: Node, roots: Roots, now: int)
    ensures Image(n, Copied(n, roots, now), roots)
    ensures forall m | Image(n, m, roots) :: CanReplace(n, m)
    ensures n.Dir? ==> forall m :: Image(n, m, roots) <==> m.Dir?
  {
    CopyIsImage(n, Copied(n, roots, now), roots);
  }

  /** The rename in the backup carries the whole subtree along, and all that it can cost is one node in
      its place, an empty directory for a directory and a file or link for another. */
  lemma RenameLosesNothing(d: Tree, from: Path, to: Path)
    requires WfTree(d)
    ensures var t := RenameIn(d, from, to);
            && (forall q | q in d && !(from <= q) && q != to :: q in t && t[q] == d[q])
            && (t != d ==> forall q | q in d && from <= q :: to + q[|from|..] in t && t[to + q[|from|..]] == d[q])
            && (t != d && to in d ==> from in d && (d[to].Dir? <==> d[from].Dir?))
  {
    hide Move;
    var t := RenameIn(d, from, to);
    if t != d {
      forall q | q in d && !(from <= q) && q != to ensures q in t && t[q] == d[q] {
        MoveAt(d, from, to, q);
        if to <= q {
          PrefixClosed(d, q, to);
          EntryOnPath(d, to, q);
          assert false;
        }
      }
      forall q | q in d && from <= q ensures to + q[|from|..] in t && t[to + q[|from|..]] == d[q] {
        var r := to + q[|from|..];
        MoveAt(d, from, to, r);
        assert r[|to|..] == q[|from|..] && from + q[|from|..] == q;
      }
    }
  }

  lemma MovedKeepsWf(s: Tree, t: Tree, p: Path, q: Path)
    requires WfTree(s) && Moved(s, t, p, q)
    requires p != [] && q != [] && !(p <= q) && IsDir(s, Parent(q))
    ensures WfTree(t)
  {
    forall x | x in t && x != [] ensures Parent(x) in t && t[Parent(x)].Dir? {
      if q <= x && x != q {
        RebaseBack(x, p, q);
        RebaseBack(Parent(x), p, q);
      } else if x == q {
        assert !(q <= Parent(q)) && !(p <= Parent(q));
      } else {
        assert Parent(x) in s;
      }
    }
  }

  lemma MovedRemoved(s: Tree, t: Tree, p: Path, q: Path)
    requires Moved(s, t, p, q) && forall x | x in s :: !(q <= x)
    ensures Remove(t, q) == Remove(s, p)
  {
    assert Remove(t, q).Keys == Remove(s, p).Keys;
  }

  lemma MovedWatched(s: Tree, t: Tree, kernel: map<nat, Path>, p: Path, q: Path)
    requires Moved(s, t, p, q) && AllWatched(s, kernel)
    ensures AllWatched(t, RebaseTable(kernel, p, q))
  {
    forall x | IsDir(t, x) ensures Watched(RebaseTable(kernel, p, q), x) {
      var y := if q <= x then Rebase(x, q, p) else x;
      if q <= x {
        RebaseBack(x, p, q);
      }
      assert Watched(kernel, y);
      var w :| w in kernel && kernel[w] == y;
      assert w in RebaseTable(kernel, p, q);
    }
  }

  lemma MovedBelow(s: Tree, t: Tree, p: Path, q: Path, y: Path)
    requires Moved(s, t, p, q) && p <= y
    ensures y in s <==> Rebase(y, p, q) in t
    ensures y in s ==> t[Rebase(y, p, q)] == s[y]
  {
    RebaseBack(y, q, p);
  }

  lemma MovedBeside(s: Tree, t: Tree, p: Path, q: Path, y: Path)
    requires Moved(s, t, p, q) && !(p <= y) && y in s && (q <= y ==> y !in s)
    ensures y in t && t[y] == s[y]
  {
  }

  lemma PlaceIsEmpty(b: State, p: Path, q: Path, roots: Roots)
    requires Inv(b, roots) && Allowed(b, Rename(p, q))
    ensures forall x | x in b.src :: !(q <= x)
    ensures forall y | y in b.dst :: !(q <= y)
  {
    assert Rebase(p, p, q) == q;
    ClearPlaceIsEmpty(b.src, b.dst, b.pend, q, roots);
  }

  lemma MovedPlace(s: Tree, t: Tree, p: Path, q: Path)
    requires WfTree(s) && p in s && q !in s && p != [] && q != [] && !(p <= q) && IsDir(s, Parent(q))
    requires forall x | x in s :: !(q <= x)
    requires Moved(s, t, p, q)
    ensures q in t && WfTree(t) && IsDir(Remove(t, q), Parent(q)) && !(q <= p) && IsDir(t, q) == s[p].Dir?
  {
    MovedKeepsWf(s, t, p, q);
    MovedRemoved(s, t, p, q);
    assert Rebase(p, p, q) == q && Rebase(q, q, p) == p;
    assert !(p <= Parent(q));
  }

  lemma MovedClear(b: State, s: Tree, p: Path, q: Path)
    requires Allowed(b, Rename(p, q)) && Moved(b.src, s, p, q)
    ensures Clear(b.pend, s, q)
  {
    forall y | y in s && q <= y ensures !StaleAt(b.pend, y) {
      RebaseBack(y, p, q);
    }
  }

  // ---------- both trees renamed ----------

  /** The state after a rename whose two halves were matched. */
  function Renamed(b: State, p: Path, q: Path): State {
    b.(src := Move(b.src, p, q), dst := Move(b.dst, p, q),
       kernel := RebaseTable(b.kernel, p, q),
       table := if IsDir(b.src, p) then RebaseTable(b.table, p, q) else b.table)
  }

  lemma RenameFits(b: State, p: Path, q: Path, roots: Roots)
    requires Inv(b, roots) && Allowed(b, Rename(p, q))
    ensures RenameIn(b.dst, p, q) == Move(b.dst, p, q)
    ensures forall y | y in b.dst :: !(q <= y)
    ensures forall y | y in b.src :: !(q <= y)
    ensures !NoWayTo(b.dst, q) && WithParent(b.dst, q) == b.dst
  {
    hide NoWayTo, WithParent;
    PlaceIsEmpty(b, p, q, roots);
    WayReady(b.dst, q);
  }

  lemma RenamedTrees(b: State, p: Path, q: Path, roots: Roots)
    requires Inv(b, roots) && Allowed(b, Rename(p, q))
    ensures Moved(b.src, Renamed(b, p, q).src, p, q) && Moved(b.dst, Renamed(b, p, q).dst, p, q)
    ensures forall x | x in b.src :: !(q <= x)
    ensures forall y | y in b.dst :: !(q <= y)
  {
    hide Move;
    PlaceIsEmpty(b, p, q, roots);
    MoveMoves(b.src, p, q);
    MoveMoves(b.dst, p, q);
  }

  lemma NothingElseBelow(m: State, p: Path, roots: Roots)
    requires Inv(m, roots) && p in m.src && NothingStranded(m, p)
    ensures forall y | y in m.dst && p <= y :: y in m.src
    ensures forall w | w in m.table && p <= m.table[w] :: w in m.kernel
    ensures forall i | 0 <= i < |m.pend| :: !(m.pend[i].path <= p)
  {
    forall y | y in m.dst && p <= y && StaleAt(m.pend, y) ensures false {
      var i :| 0 <= i < |m.pend| && m.pend[i].path <= y;
      PrefixesComparable(m.pend[i].path, p, y);
      PrefixClosed(m.dst, y, m.pend[i].path);
    }
    forall w | w in m.table && p <= m.table[w] ensures w in m.kernel {
      assert m.table[w] in m.dst;
    }
  }

  /** A leftover lies below a path that an unfinished move names and that is still in the backup. */
  lemma LeftoverIff(b: State, p: Path, roots: Roots)
    requires Inv(b, roots) && p in b.src
    ensures NothingStranded(b, p) <==> forall y | y in b.dst && p <= y :: y in b.src
  {
    if NothingStranded(b, p) {
      NothingElseBelow(b, p, roots);
    } else {
      var i :| 0 <= i < |b.pend| && p <= b.pend[i].path && b.pend[i].path in b.dst;
      assert StaleAt(b.pend, b.pend[i].path);
    }
  }

  // ---------- what is carried along in the backup ----------

  lemma UnnamedLeftovers(b: State, p: Path, q: Path, roots: Roots)
    requires Inv(b, roots) && Allowed(b, Rename(p, q)) && !LeftoversNamed(Relocate(b, p, q), p, q)
    ensures !Inv(Renamed(b, p, q), roots)
  {
    hide WatchesAgree, Move, RebaseTable;
    RenamedTrees(b, p, q, roots);
    var m := Renamed(b, p, q);
    var y :| y in b.dst && p <= y && Rebase(y, p, q) !in m.src &&
             !(StaleAt(b.pend, Rebase(y, p, q)) &&
               (b.dst[y].Dir? ==> forall i | 0 <= i < |b.pend| && b.pend[i].path == Rebase(y, p, q) :: b.pend[i].isDir));
    RebaseBack(y, q, p);
    var z := Rebase(y, p, q);
    assert z in m.dst && z !in m.src && m.dst[z] == b.dst[y];
  }

  lemma NamedTreesAgree(s: Tree, t: Tree, d: Tree, e: Tree, pend: seq<Pending>, p: Path, q: Path, roots: Roots)
    requires TreesAgree(s, d, pend, roots) && Moved(s, t, p, q) && Moved(d, e, p, q)
    requires p != [] && q != [] && !(p <= q) && IsDir(s, Parent(q)) && IsDir(d, Parent(q))
    requires forall x | x in s && p <= x :: !StaleAt(pend, Rebase(x, p, q))
    requires forall y | y in d && p <= y && y !in s :: StaleAt(pend, Rebase(y, p, q))
    ensures TreesAgree(t, e, pend, roots)
  {
    hide StaleAt;
    MovedKeepsWf(s, t, p, q);
    MovedKeepsWf(d, e, p, q);
    forall z | z in t ensures z in e && SameContent(e[z], Copied(t[z], roots, 0)) && !StaleAt(pend, z) {
      if q <= z {
        RebaseBack(z, p, q);
      }
    }
    forall z | z in e ensures z in t || StaleAt(pend, z) {
      if q <= z {
        RebaseBack(z, p, q);
      }
    }
  }

  lemma NamedPendingOk(s: Tree, d: Tree, e: Tree, pend: seq<Pending>, p: Path, q: Path)
    requires PendingOk(d, pend) && Moved(d, e, p, q)
    requires forall x | x in s && p <= x :: !StaleAt(pend, Rebase(x, p, q))
    requires forall y | y in d && p <= y && y !in s && d[y].Dir? ::
               forall i | 0 <= i < |pend| && pend[i].path == Rebase(y, p, q) :: pend[i].isDir
    ensures PendingOk(e, pend)
  {
    forall j | 0 <= j < |pend| && !pend[j].isDir ensures !IsDir(e, pend[j].path) {
      var z := pend[j].path;
      assert StaleAt(pend, z);
      if q <= z && IsDir(e, z) {
        RebaseBack(z, p, q);
      }
    }
  }

  lemma NamedTrees(b: State, p: Path, q: Path, roots: Roots)
    requires Inv(b, roots) && Allowed(b, Rename(p, q)) && LeftoversNamed(Relocate(b, p, q), p, q)
    ensures var m := Renamed(b, p, q);
            TreesAgree(m.src, m.dst, m.pend, roots) && PendingOk(m.dst, m.pend)
  {
    hide WatchesAgree, PendingOk, Move, RebaseTable, StaleAt, Moved;
    RenamedTrees(b, p, q, roots);
    var m := Renamed(b, p, q);
    forall y | p <= y ensures y in b.src <==> Rebase(y, p, q) in m.src {
      MovedBelow(b.src, m.src, p, q, y);
    }
    NamedTreesAgree(b.src, m.src, b.dst, m.dst, b.pend, p, q, roots);
    NamedPendingOk(b.src, b.dst, m.dst, b.pend, p, q);
  }

  lemma NamedLeftovers(b: State, p: Path, q: Path, roots: Roots)
    requires Inv(b, roots) && Allowed(b, Rename(p, q)) && LeftoversNamed(Relocate(b, p, q), p, q)
    ensures Inv(Renamed(b, p, q), roots)
  {
    hide Move, RebaseTable, LeftoversNamed, TreesAgree, PendingOk, WatchesAgree;
    NamedTrees(b, p, q, roots);
    NamedWatches(b, p, q, roots);
  }

  lemma NamedWatches(b: State, p: Path, q: Path, roots: Roots)
    requires Inv(b, roots) && Allowed(b, Rename(p, q))
    requires var m := Renamed(b, p, q); TreesAgree(m.src, m.dst, m.pend, roots) && PendingOk(m.dst, m.pend)
    ensures var m := Renamed(b, p, q); WatchesAgree(m.src, m.dst, m.kernel, m.table, m.pend)
  {
    hide Move, RebaseTable, TreesAgree, PendingOk, Moved, KernelSound, TableSound, Injective, AllWatched, Allowed;
    RenamedTrees(b, p, q, roots);
    var m := Renamed(b, p, q);
    RenamedRecords(b, p, q, roots);
    MovedWatched(b.src, m.src, b.kernel, p, q);
    RenamedKernel(b.src, m.src, b.kernel, b.table, p, q);
    RenamedTable(b.src, b.dst, m.src, m.dst, b.kernel, b.table, b.pend, p, q, roots);
  }

  lemma RenamedRecords(b: State, p: Path, q: Path, roots: Roots)
    requires Inv(b, roots) && Allowed(b, Rename(p, q))
    ensures Renamed(b, p, q).table == RebaseTable(b.table, p, q)
  {
    hide Move;
    if !IsDir(b.src, p) {
      NothingWatchedBelowALeaf(b, p);
    }
  }

  lemma RenamedKernel(s: Tree, t: Tree, kernel: map<nat, Path>, table: map<nat, Path>, p: Path, q: Path)
    requires Moved(s, t, p, q) && KernelSound(s, kernel, table) && Injective(kernel)
    requires forall x | x in s :: !(q <= x)
    ensures KernelSound(t, RebaseTable(kernel, p, q), RebaseTable(table, p, q)) && Injective(RebaseTable(kernel, p, q))
  {
    forall w | w in kernel
      ensures var z := Rebase(kernel[w], p, q);
              IsDir(t, z) && if p <= kernel[w] then q <= z && Rebase(z, q, p) == kernel[w] else !(q <= z) && z == kernel[w]
    {
      if p <= kernel[w] {
        RebaseBack(kernel[w], q, p);
      }
    }
  }

  lemma RenamedTable(s: Tree, d: Tree, t: Tree, e: Tree, kernel: map<nat, Path>, table: map<nat, Path>,
                     pend: seq<Pending>, p: Path, q: Path, roots: Roots)
    requires TreesAgree(s, d, pend, roots) && TableSound(d, kernel, table, pend)
    requires Moved(s, t, p, q) && Moved(d, e, p, q)
    requires TreesAgree(t, e, pend, roots) && PendingOk(e, pend)
    requires forall y | y in d :: !(q <= y)
    ensures TableSound(e, RebaseTable(kernel, p, q), RebaseTable(table, p, q), pend)
  {
    hide StaleAt, StaleDirAt, PendingOk, TreesAgree, Moved;
    var table' := RebaseTable(table, p, q);
    forall w | w in table' ensures IsDir(e, table'[w]) && (w in kernel || StaleDirAt(pend, table'[w])) {
      RenamedRecord(s, d, t, e, pend, table[w], p, q, roots);
    }
  }

  lemma RenamedRecord(s: Tree, d: Tree, t: Tree, e: Tree, pend: seq<Pending>, y: Path, p: Path, q: Path, roots: Roots)
    requires TreesAgree(s, d, pend, roots) && Moved(s, t, p, q) && Moved(d, e, p, q)
    requires TreesAgree(t, e, pend, roots) && PendingOk(e, pend) && IsDir(d, y) && !(q <= y)
    ensures IsDir(e, Rebase(y, p, q)) && (StaleDirAt(pend, y) ==> StaleDirAt(pend, Rebase(y, p, q)))
  {
    hide StaleAt, StaleDirAt, PendingOk, Moved;
    var z := Rebase(y, p, q);
    if p <= y {
      MovedBelow(s, t, p, q, y);
      MovedBelow(d, e, p, q, y);
      if StaleDirAt(pend, y) {
        StaleDirectoryIsStale(pend, y);
        StaleDirectory(e, pend, z);
      }
    } else {
      MovedBeside(d, e, p, q, y);
    }
  }

  lemma StaleDirectoryIsStale(pend: seq<Pending>, y: Path)
    ensures StaleDirAt(pend, y) ==> StaleAt(pend, y)
  {
  }

  /** A stale directory lies below a move of a directory: a move of anything else names no directory. */
  lemma StaleDirectory(d: Tree, pend: seq<Pending>, z: Path)
    requires WfTree(d) && PendingOk(d, pend) && IsDir(d, z) && StaleAt(pend, z)
    ensures StaleDirAt(pend, z)
  {
    var i :| 0 <= i < |pend| && pend[i].path <= z;
    PrefixClosed(d, z, pend[i].path);
  }

  /** The backup's rename brings it into agreement with the source exactly when it carries along
      nothing but what unfinished moves name afterwards. */
  lemma RenamedIff(b: State, p: Path, q: Path, roots: Roots)
    requires Inv(b, roots) && Allowed(b, Rename(p, q))
    ensures Inv(Renamed(b, p, q), roots) <==> LeftoversNamed(Relocate(b, p, q), p, q)
  {
    hide Inv, LeftoversNamed, Renamed, Relocate, Allowed;
    if LeftoversNamed(Relocate(b, p, q), p, q) {
      NamedLeftovers(b, p, q, roots);
    } else {
      UnnamedLeftovers(b, p, q, roots);
    }
  }

  lemma NotNamedThere(pend: seq<Pending>, y: Path, p: Path, q: Path)
    requires p <= y && !StaleAt(pend, q) && forall i | 0 <= i < |pend| :: !(q <= pend[i].path)
    ensures !StaleAt(pend, Rebase(y, p, q))
  {
    var z := Rebase(y, p, q);
    forall i | 0 <= i < |pend| ensures !(pend[i].path <= z) {
      if pend[i].path <= z {
        PrefixesComparable(pend[i].path, q, z);
      }
    }
  }

  /** With no unfinished move that names a path below `q`, that means: there is no leftover. */
  lemma NothingStrandedIsNamed(b: State, p: Path, q: Path, roots: Roots)
    requires Inv(b, roots) && Allowed(b, Rename(p, q))
    ensures NothingStranded(b, p) ==> LeftoversNamed(Relocate(b, p, q), p, q)
    ensures (forall i | 0 <= i < |b.pend| :: !(q <= b.pend[i].path)) && LeftoversNamed(Relocate(b, p, q), p, q) ==>
              NothingStranded(b, p)
  {
    hide Inv, NothingStranded, StaleAt, Move, Moved, RebaseTable;
    LeftoverIff(b, p, roots);
    RenamedTrees(b, p, q, roots);
    assert Renamed(b, p, q).src == Move(b.src, p, q);
    forall y | p <= y ensures y in b.src <==> Rebase(y, p, q) in Move(b.src, p, q) {
      MovedBelow(b.src, Move(b.src, p, q), p, q, y);
    }
    assert Rebase(p, p, q) == q;
    if forall i | 0 <= i < |b.pend| :: !(q <= b.pend[i].path) {
      forall y | y in b.dst && p <= y ensures !StaleAt(b.pend, Rebase(y, p, q)) {
        NotNamedThere(b.pend, y, p, q);
      }
    }
  }

  // ---------- onto a file or link ----------

  lemma LeafAlone(t: Tree, q: Path)
    requires WfTree(t) && q in t && !t[q].Dir?
    ensures forall x | x in t && q <= x :: x == q
  {
    forall x | x in t && q <= x ensures x == q {
      PrefixClosed(t, x, q);
    }
  }

  lemma MoveOverLeaf(t: Tree, p: Path, q: Path)
    requires forall x | x in t && q <= x :: x == q
    requires !(q <= p) && !(p <= q)
    ensures Move(t, p, q) == Move(Remove(t, q), p, q)
  {
    var a, c := Move(t, p, q), Move(Remove(t, q), p, q);
    forall x ensures x in a <==> x in c
             ensures x in a ==> a[x] == c[x]
    {
      MoveAt(t, p, q, x);
      MoveAt(Remove(t, q), p, q, x);
    }
  }

  /** Once `q` has been deleted, and its image, the same rename is one to a free place. */
  function Without(b: State, q: Path): State {
    Leave(b, q).(dst := Remove(b.dst, q))
  }

  lemma LeafPlaces(b: State, p: Path, q: Path, roots: Roots)
    requires Inv(b, roots) && Allowed(b, Replace(p, q))
    ensures p in b.src && q in b.src && !b.src[p].Dir? && !b.src[q].Dir?
    ensures p in b.dst && q in b.dst && !b.dst[p].Dir? && !b.dst[q].Dir?
    ensures forall x | x in b.src && (p <= x || q <= x) :: x == p || x == q
    ensures forall x | x in b.dst && (p <= x || q <= x) :: x == p || x == q
    ensures !(p <= q) && !(q <= p) && q != [] && IsDir(b.src, Parent(q))
  {
    hide WatchesAgree, PendingOk, StaleAt;
    LeafAlone(b.src, p);
    LeafAlone(b.src, q);
    LeafAlone(b.dst, p);
    LeafAlone(b.dst, q);
  }

  lemma ReplaceIsRename(b: State, p: Path, q: Path, roots: Roots)
    requires Inv(b, roots) && Allowed(b, Replace(p, q))
    ensures var c := Without(b, q);
            && Inv(c, roots) && Allowed(c, Rename(p, q)) && NothingStranded(c, p)
            && Renamed(b, p, q) == Renamed(c, p, q) && Relocate(b, p, q) == Relocate(c, p, q).(dst := b.dst)
  {
    LeafPlaces(b, p, q, roots);
    UnlinkedKeepsInv(b, q, roots);
    ReplaceAllowed(b, p, q, roots);
    MoveOverLeaf(b.src, p, q);
    MoveOverLeaf(b.dst, p, q);
  }

  lemma UnlinkedKeepsInv(b: State, q: Path, roots: Roots)
    requires Inv(b, roots) && q in b.src && !b.src[q].Dir?
    ensures Inv(Without(b, q), roots) && Without(b, q).kernel == b.kernel
  {
    hide WatchesAgree, PendingOk;
    DeletionReported(b, q, roots, false);
    assert Forget(Without(b, q), q) == Without(b, q);
    KernelApart(b, q, roots);
  }

  lemma KernelApart(b: State, q: Path, roots: Roots)
    requires Inv(b, roots) && q in b.src && !b.src[q].Dir?
    ensures Outside(b.kernel, q) == b.kernel
  {
    hide TableSound, AllWatched, PendingOk;
    LeafAlone(b.src, q);
  }

  lemma ReplaceAllowed(b: State, p: Path, q: Path, roots: Roots)
    requires Inv(b, roots) && Allowed(b, Replace(p, q))
    ensures Allowed(Without(b, q), Rename(p, q)) && NothingStranded(Without(b, q), p)
  {
    hide WatchesAgree, PendingOk, WfTree;
    LeafPlaces(b, p, q, roots);
    assert Rebase(p, p, q) == q;
    forall i | 0 <= i < |b.pend| && p <= b.pend[i].path ensures b.pend[i].path !in b.dst {
      assert !StaleAt(b.pend, p);
    }
  }

  /** The matched arrival on a file or link always succeeds. */
  lemma ReplacedAgrees(b: State, p: Path, q: Path, roots: Roots)
    requires Inv(b, roots) && Allowed(b, Replace(p, q))
    ensures Inv(Renamed(b, p, q), roots)
  {
    hide Inv, Allowed, NothingStranded, Renamed, LeftoversNamed, Without, Relocate;
    ReplaceIsRename(b, p, q, roots);
    NothingStrandedIsNamed(Without(b, q), p, q, roots);
    RenamedIff(Without(b, q), p, q, roots);
  }

  /** rename(2) in the backup, onto a free place or a file or link. */
  lemma ReplaceFits(b: State, p: Path, q: Path, roots: Roots)
    requires Inv(b, roots) && Allowed(b, Replace(p, q))
    ensures RenameIn(b.dst, p, q) == Move(b.dst, p, q)
    ensures !NoWayTo(b.dst, q) && WithParent(b.dst, q) == b.dst
  {
    hide NoWayTo, WithParent, WatchesAgree;
    LeafPlaces(b, p, q, roots);
    WayReady(b.dst, q);
  }
}
