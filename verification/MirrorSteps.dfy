/** What each kind of event, and each expiry, does to the agreement of backup and source. */
module MirrorSteps {
  import opened Basics
  import opened Paths
  import opened Trees
  import opened Mirror

  // ---------- removal from the table of unfinished moves ----------

  lemma StaleAfterRemoval(pend: seq<Pending>, i: nat, p: Path)
    requires i < |pend|
    ensures StaleAt(SwapRemove(pend, i), p) ==> StaleAt(pend, p)
    ensures StaleAt(pend, p) ==> StaleAt(SwapRemove(pend, i), p) || pend[i].path <= p
    ensures StaleDirAt(SwapRemove(pend, i), p) ==> StaleDirAt(pend, p)
    ensures StaleDirAt(pend, p) ==> StaleDirAt(SwapRemove(pend, i), p) || (pend[i].isDir && pend[i].path <= p)
  {
    var rest := SwapRemove(pend, i);
    SwapRemoveElements(pend, i);
    forall j | 0 <= j < |pend| && j != i
      ensures exists k | 0 <= k < |rest| :: rest[k] == pend[j]
    {
      assert rest[if j == |pend| - 1 then i else j] == pend[j];
    }
  }

  lemma PendingOkAfterRemoval(d: Tree, d': Tree, pend: seq<Pending>, i: nat)
    requires i < |pend| && PendingOk(d, pend)
    requires forall j | 0 <= j < |pend| :: IsDir(d', pend[j].path) ==> IsDir(d, pend[j].path)
    ensures PendingOk(d', SwapRemove(pend, i))
  {
    SwapRemoveElements(pend, i);
  }

  // ---------- expiry ----------

  lemma ExpireTrees(m: State, i: nat, roots: Roots)
    requires i < |m.pend| && TreesAgree(m.src, m.dst, m.pend, roots)
    ensures TreesAgree(m.src, Remove(m.dst, m.pend[i].path), SwapRemove(m.pend, i), roots)
  {
    var x := m.pend[i].path;
    assert !StaleAt(m.pend, []);
    RemoveKeepsWf(m.dst, x);
    forall p ensures StaleAt(SwapRemove(m.pend, i), p) ==> StaleAt(m.pend, p)
             ensures StaleAt(m.pend, p) ==> StaleAt(SwapRemove(m.pend, i), p) || x <= p
    {
      StaleAfterRemoval(m.pend, i, p);
    }
    assert forall p | p in m.src :: !(x <= p);
  }

  lemma ExpireWatches(m: State, i: nat, roots: Roots)
    requires i < |m.pend| && Inv(m, roots)
    ensures var m' := Expire(m, i);
            m'.kernel == m.kernel && WatchesAgree(m'.src, m'.dst, m'.kernel, m'.table, m'.pend)
  {
    var x, m' := m.pend[i], Expire(m, i);
    assert forall w | w in m.kernel :: !StaleAt(m.pend, m.table[w]);
    assert forall w | w in m.kernel :: !(x.path <= m.table[w]);
    assert m'.kernel == m.kernel;
    forall w | w in m'.table
      ensures IsDir(m'.dst, m'.table[w]) && (w in m'.kernel || StaleDirAt(m'.pend, m'.table[w]))
    {
      StaleAfterRemoval(m.pend, i, m.table[w]);
      if !x.isDir && x.path <= m.table[w] {
        PrefixClosed(m.dst, m.table[w], x.path);
        assert false;
      }
    }
  }

  lemma ExpireKeepsInv(m: State, i: nat, roots: Roots)
    requires i < |m.pend| && Inv(m, roots)
    ensures Inv(Expire(m, i), roots)
  {
    ExpireTrees(m, i, roots);
    ExpireWatches(m, i, roots);
    PendingOkAfterRemoval(m.dst, Expire(m, i).dst, m.pend, i);
  }

  // ---------- deletion ----------

  lemma DeletionTrees(s: Tree, d: Tree, pend: seq<Pending>, p: Path, roots: Roots)
    requires TreesAgree(s, d, pend, roots) && p != []
    ensures TreesAgree(Remove(s, p), Remove(d, p), pend, roots)
  {
    RemoveKeepsWf(s, p);
    RemoveKeepsWf(d, p);
  }

  lemma DeletionWatches(m: State, p: Path)
    requires WatchesAgree(m.src, m.dst, m.kernel, m.table, m.pend) && WfTree(m.dst)
    ensures var m' := Forget(Leave(m, p).(dst := Remove(m.dst, p)), p);
            && m'.kernel == Outside(m.kernel, p)
            && WatchesAgree(Remove(m.src, p), Remove(m.dst, p), m'.kernel, m'.table, m.pend)
  {
    var m' := Forget(Leave(m, p).(dst := Remove(m.dst, p)), p);
    assert m'.kernel == Outside(m.kernel, p);
    forall q | IsDir(Remove(m.src, p), q) ensures Watched(m'.kernel, q) {
      assert Watched(m.kernel, q);
      var w :| w in m.kernel && m.kernel[w] == q;
      assert w in m'.kernel;
    }
  }

  lemma NothingWatchedBelowALeaf(m: State, p: Path)
    requires WatchesAgree(m.src, m.dst, m.kernel, m.table, m.pend) && WfTree(m.dst)
    requires !IsDir(m.dst, p)
    ensures forall w | w in m.table :: !(p <= m.table[w])
    ensures Forget(m, p) == m
  {
    forall w | w in m.table && p <= m.table[w] ensures false {
      PrefixClosed(m.dst, m.table[w], p);
    }
    assert Forget(m, p).table == m.table;
    assert Forget(m, p).kernel == m.kernel;
  }

  /** A node that left the source leaves backup and table. */
  lemma DeletionReported(m: State, p: Path, roots: Roots, isDir: bool)
    requires Inv(m, roots) && p in m.src && p != []
    requires isDir == m.src[p].Dir?
    ensures var gone := Leave(m, p).(dst := Remove(m.dst, p));
            && Inv(Forget(gone, p), roots)
            && (!isDir ==> Forget(gone, p) == gone)
  {
    DeletionTrees(m.src, m.dst, m.pend, p, roots);
    DeletionWatches(m, p);
    if !isDir {
      NothingWatchedBelowALeaf(m, p);
      var gone := Leave(m, p).(dst := Remove(m.dst, p));
      assert Forget(gone, p).table == m.table;
      assert Forget(gone, p).kernel == gone.kernel;
    }
  }

  // ---------- departure ----------

  /** A moved-away subtree becomes a stale one, named by a new unfinished move. */
  lemma DepartureReported(m: State, p: Path, cookie: nat, roots: Roots)
    requires Inv(m, roots) && p in m.src && p != []
    requires UnusedCookie(m.pend, cookie) && |m.pend| < PENDING_MAX
    ensures var x := Pending(cookie, m.src[p].Dir?, p);
            Inv(Leave(m, p).(pend := m.pend + [x]), roots)
  {
    var x := Pending(cookie, m.src[p].Dir?, p);
    DepartureTrees(m, p, x, roots);
    DepartureWatches(m, p, x);
    PendingOkAfterAdding(m.dst, m.pend, x);
  }

  lemma PendingOkAfterAdding(d: Tree, pend: seq<Pending>, x: Pending)
    requires PendingOk(d, pend) && UnusedCookie(pend, x.cookie) && |pend| < PENDING_MAX
    requires !x.isDir ==> !IsDir(d, x.path)
    ensures PendingOk(d, pend + [x])
  {
  }

  lemma StaleAfterAdding(pend: seq<Pending>, x: Pending, p: Path)
    ensures StaleAt(pend + [x], p) <==> StaleAt(pend, p) || x.path <= p
    ensures StaleDirAt(pend + [x], p) <==> StaleDirAt(pend, p) || (x.isDir && x.path <= p)
  {
    var pend' := pend + [x];
    assert pend'[|pend|] == x;
    assert forall i | 0 <= i < |pend| :: pend'[i] == pend[i];
  }

  lemma DepartureTrees(m: State, p: Path, x: Pending, roots: Roots)
    requires TreesAgree(m.src, m.dst, m.pend, roots) && p != [] && x.path == p
    ensures TreesAgree(Remove(m.src, p), m.dst, m.pend + [x], roots)
  {
    RemoveKeepsWf(m.src, p);
    forall q ensures StaleAt(m.pend + [x], q) <==> StaleAt(m.pend, q) || p <= q {
      StaleAfterAdding(m.pend, x, q);
    }
  }

  lemma DepartureWatches(m: State, p: Path, x: Pending)
    requires WatchesAgree(m.src, m.dst, m.kernel, m.table, m.pend) && WfTree(m.src)
    requires x.path == p && p in m.src && x.isDir == m.src[p].Dir?
    ensures WatchesAgree(Remove(m.src, p), m.dst, Outside(m.kernel, p), m.table, m.pend + [x])
  {
    var kernel' := Outside(m.kernel, p);
    forall q | IsDir(Remove(m.src, p), q) ensures Watched(kernel', q) {
      assert Watched(m.kernel, q);
      var w :| w in m.kernel && m.kernel[w] == q;
      assert w in kernel';
    }
    forall w | w in m.table ensures w in kernel' || StaleDirAt(m.pend + [x], m.table[w]) {
      StaleAfterAdding(m.pend, x, m.table[w]);
      if w in m.kernel && p <= m.kernel[w] {
        PrefixClosed(m.src, m.kernel[w], p);
      }
    }
  }

  // ---------- arrival ----------

  lemma ParentsReady(s: Tree, d: Tree, p: Path)
    requires WfTree(d) && p != [] && IsDir(d, Parent(p))
    ensures forall k | 0 <= k < |p| :: p[..k] in d && d[p[..k]].Dir?
    ensures WithDirs(d, Parent(p)) == d
  {
    forall k | 0 <= k < |p| ensures p[..k] in d && d[p[..k]].Dir? {
      PrefixClosed(d, Parent(p), p[..k]);
    }
    forall q | q in Prefixes(Parent(p)) ensures q in d {
      var k :| 0 <= k <= |Parent(p)| && q == Parent(p)[..k];
      assert q == p[..k];
    }
  }

  lemma WayReady(d: Tree, p: Path)
    requires WfTree(d) && p != [] && IsDir(d, Parent(p))
    ensures !NoWayTo(d, p) && WithParent(d, p) == d
  {
    ParentsReady(map[], d, p);
    assert forall k | 0 <= k < |p| - 1 :: Parent(p)[..k] == p[..k];
  }

  /** Below an ordinary place of the backup, mirror_create_or_update writes that one node. */
  lemma MirrorOneWrites(s: Tree, d: Tree, p: Path, roots: Roots, now: int)
    requires WfTree(d) && p != [] && p in s && IsDir(d, Parent(p))
    requires p in d ==> CanReplace(s[p], d[p])
    ensures MirrorOne(s, d, p, roots, now) == d[p := Copied(s[p], roots, now)]
  {
    ParentsReady(s, d, p);
  }

  /** Nothing is left in the backup at or below a path that is new to the source and that no
      unfinished move names, at it or above. */
  lemma ClearPlaceIsEmpty(s: Tree, d: Tree, pend: seq<Pending>, p: Path, roots: Roots)
    requires TreesAgree(s, d, pend, roots) && p !in s && !StaleAt(pend, p)
    ensures forall q | q in s :: !(p <= q)
    ensures forall q | q in d :: !(p <= q)
  {
    forall q | q in s ensures !(p <= q) {
      if p <= q {
        PrefixClosed(s, q, p);
      }
    }
    forall q | q in d ensures !(p <= q) {
      if p <= q {
        PrefixClosed(d, q, p);
      }
    }
  }

  /** `m` is `h` with a subtree added to the source that nothing has been said about yet. */
  ghost predicate Arrived(h: State, m: State, p: Path) {
    && m == h.(src := m.src)
    && p != [] && p in m.src && WfTree(m.src)
    && (forall q | !(p <= q) :: (q in m.src <==> q in h.src) && (q in h.src ==> m.src[q] == h.src[q]))
    && IsDir(h.src, Parent(p))
    && Clear(h.pend, m.src, p)
  }

  lemma ArrivalOfLeaf(h: State, m: State, p: Path, roots: Roots, now: int)
    requires Inv(h, roots) && Arrived(h, m, p) && !m.src[p].Dir?
    requires (p in h.src ==> !h.src[p].Dir?) && Ripe(m, p)
    ensures Inv(m.(dst := MirrorOne(m.src, m.dst, p, roots, now)), roots)
  {
    hide MirrorOne, WithDirs, Copied, WatchesAgree, PendingOk, StaleAt;
    if p !in h.src {
      ClearPlaceIsEmpty(h.src, h.dst, h.pend, p, roots);
    }
    MirrorOneWrites(m.src, m.dst, p, roots, now);
    forall q | p <= q && (q in m.src || q in h.src) ensures q == p {
      if q in m.src {
        PrefixClosed(m.src, q, p);
      } else {
        PrefixClosed(h.src, q, p);
      }
    }
    var n := Copied(m.src[p], roots, now);
    LeafCopied(m.src[p], roots, now);
    LeafTrees(h, m, p, n, roots);
    LeafWatches(h, m, p, n);
    LeafPending(h, p, n);
  }

  lemma LeafCopied(n: Node, roots: Roots, now: int)
    requires !n.Dir?
    ensures !Copied(n, roots, now).Dir? && SameContent(Copied(n, roots, now), Copied(n, roots, 0))
  {
  }

  lemma LeafPending(h: State, p: Path, n: Node)
    requires PendingOk(h.dst, h.pend) && (p in h.dst ==> !h.dst[p].Dir?) && !n.Dir?
    ensures PendingOk(h.dst[p := n], h.pend)
  {
  }

  /** Where the backup's node cannot be replaced, nothing happens. */
  lemma ArrivalLeftOut(h: State, m: State, p: Path, roots: Roots, now: int)
    requires Inv(h, roots) && Arrived(h, m, p) && !m.src[p].Dir? && !Ripe(m, p)
    ensures !Inv(m.(dst := MirrorOne(m.src, m.dst, p, roots, now)), roots)
  {
    hide WatchesAgree, PendingOk, WithDirs;
    WayReady(m.dst, p);
    assert MirrorOne(m.src, m.dst, p, roots, now) == m.dst;
  }

  lemma LeafTrees(h: State, m: State, p: Path, n: Node, roots: Roots)
    requires TreesAgree(h.src, h.dst, h.pend, roots) && Arrived(h, m, p)
    requires forall q | p <= q && (q in m.src || q in h.src) :: q == p
    requires !n.Dir? && (p in h.dst ==> !h.dst[p].Dir?)
    requires SameContent(n, Copied(m.src[p], roots, 0))
    ensures TreesAgree(m.src, h.dst[p := n], m.pend, roots)
  {
    hide RewriteLink, Retargeted;
    var d' := h.dst[p := n];
    forall q | q in m.src ensures !StaleAt(m.pend, q) {
      if p <= q {
        assert q == p;
      }
    }
    forall q | q in d' && q != [] ensures Parent(q) in d' && d'[Parent(q)].Dir? {
      if q == p {
        assert Parent(p) in h.dst;
      } else {
        assert Parent(q) in h.dst && h.dst[Parent(q)].Dir?;
      }
    }
  }

  lemma LeafWatches(h: State, m: State, p: Path, n: Node)
    requires WatchesAgree(h.src, h.dst, h.kernel, h.table, h.pend) && Arrived(h, m, p)
    requires forall q | p <= q && (q in m.src || q in h.src) :: q == p
    requires !m.src[p].Dir? && (p in h.dst ==> !h.dst[p].Dir?)
    requires p in h.src ==> !h.src[p].Dir?
    ensures WatchesAgree(m.src, h.dst[p := n], m.kernel, m.table, m.pend)
  {
    assert forall q :: IsDir(m.src, q) <==> IsDir(h.src, q);
  }

  /** The backup after a directory tree has been adopted at an empty place. */
  function WithCopy(s: Tree, d: Tree, p: Path, roots: Roots, now: int): Tree {
    map q | q in d.Keys + Below(s, p) :: if q in s && p <= q then Copied(s[q], roots, now) else d[q]
  }

  lemma AdoptedTree(h: State, m: State, p: Path, given: map<nat, Path>, roots: Roots, now: int)
    requires TreesAgree(h.src, h.dst, h.pend, roots) && Arrived(h, m, p)
    requires m.src[p].Dir? && p !in h.src
    ensures Adopt(m, p, given, roots, now) ==
            m.(dst := WithCopy(m.src, h.dst, p, roots, now),
               table := m.table + given, kernel := m.kernel + given)
  {
    ClearPlaceIsEmpty(h.src, h.dst, h.pend, p, roots);
    MirrorOneWrites(m.src, m.dst, p, roots, now);
    var d1 := h.dst[p := Dir];
    assert IsDir(m.src, p) && IsDir(d1, p);
    OverlayIsCopy(m.src, h.dst, p, roots, now);
  }

  lemma OverlayIsCopy(s: Tree, d: Tree, p: Path, roots: Roots, now: int)
    requires IsDir(s, p) && forall q | q in d :: !(p <= q)
    ensures Overlay(s, d[p := Dir], p, roots, now) == WithCopy(s, d, p, roots, now)
  {
    var d1 := d[p := Dir];
    forall q | q in s && p <= q && q != p ensures p < q {
      PrefixSplit(p, q);
    }
    assert Overlay(s, d1, p, roots, now).Keys == WithCopy(s, d, p, roots, now).Keys;
  }

  lemma AdoptionWf(s: Tree, d: Tree, p: Path, roots: Roots, now: int)
    requires WfTree(s) && WfTree(d) && p != [] && IsDir(d, Parent(p)) && IsDir(s, p)
    requires forall q | q in d :: !(p <= q)
    ensures WfTree(WithCopy(s, d, p, roots, now))
  {
    var d' := WithCopy(s, d, p, roots, now);
    forall q | q in d' && q != [] ensures Parent(q) in d' && d'[Parent(q)].Dir? {
      if p <= q {
        if q != p {
          PrefixSplit(p, q);
          assert p <= Parent(q);
        }
      } else {
        assert Parent(q) in d && d[Parent(q)].Dir?;
      }
    }
  }

  lemma AdoptionTrees(h: State, m: State, p: Path, roots: Roots, now: int)
    requires TreesAgree(h.src, h.dst, h.pend, roots) && Arrived(h, m, p) && p !in h.src && m.src[p].Dir?
    ensures TreesAgree(m.src, WithCopy(m.src, h.dst, p, roots, now), m.pend, roots)
  {
    var d' := WithCopy(m.src, h.dst, p, roots, now);
    ClearPlaceIsEmpty(h.src, h.dst, h.pend, p, roots);
    AdoptionWf(m.src, h.dst, p, roots, now);
    forall q | q in m.src ensures q in d' && SameContent(d'[q], Copied(m.src[q], roots, 0)) {
      if !(p <= q) {
        assert q in h.src;
      }
    }
  }

  lemma AdoptionTable(s: Tree, d: Tree, p: Path, kernel: map<nat, Path>, table: map<nat, Path>,
                      given: map<nat, Path>, pend: seq<Pending>, roots: Roots, now: int)
    requires forall q | q in d :: !(p <= q)
    requires forall w | w in given :: given[w] in NewDirs(s, p)
    requires TableSound(d, kernel, table, pend)
    ensures TableSound(WithCopy(s, d, p, roots, now), kernel + given, table + given, pend)
  {
  }

  lemma AdoptionKernel(s: Tree, s': Tree, p: Path, kernel: map<nat, Path>, table: map<nat, Path>, given: map<nat, Path>)
    requires forall q | q in s :: !(p <= q) && (IsDir(s, q) ==> IsDir(s', q))
    requires forall w | w in given :: given[w] in NewDirs(s', p)
    requires given.Keys !! table.Keys + kernel.Keys
    requires Injective(given) && Injective(kernel) && KernelSound(s, kernel, table)
    ensures KernelSound(s', kernel + given, table + given) && Injective(kernel + given)
  {
    var kernel' := kernel + given;
    assert forall w | w in kernel' :: w in given <==> p <= kernel'[w];
  }

  lemma AdoptionAllWatched(s: Tree, s': Tree, p: Path, kernel: map<nat, Path>, given: map<nat, Path>)
    requires forall q | IsDir(s', q) && !(p <= q) :: IsDir(s, q)
    requires given.Keys !! kernel.Keys
    requires forall q | q in NewDirs(s', p) :: Watched(given, q)
    requires AllWatched(s, kernel)
    ensures AllWatched(s', kernel + given)
  {
    forall q | IsDir(s', q) ensures Watched(kernel + given, q) {
      if p <= q {
        assert q in NewDirs(s', p);
        var w :| w in given && given[w] == q;
        assert w in kernel + given && (kernel + given)[w] == q;
      } else {
        assert Watched(kernel, q);
        var w :| w in kernel && kernel[w] == q;
        assert w in kernel + given && (kernel + given)[w] == q;
      }
    }
  }

  lemma AdoptionWatches(h: State, m: State, p: Path, given: map<nat, Path>, roots: Roots, now: int)
    requires Arrived(h, m, p)
    requires forall q | q in h.src :: !(p <= q)
    requires forall q | q in h.dst :: !(p <= q)
    requires WatchesAgree(h.src, h.dst, h.kernel, h.table, h.pend)
    requires FreshWatches(m, p, given)
    ensures WatchesAgree(m.src, WithCopy(m.src, h.dst, p, roots, now),
                         h.kernel + given, h.table + given, h.pend)
  {
    AdoptionAllWatched(h.src, m.src, p, h.kernel, given);
    AdoptionKernel(h.src, m.src, p, h.kernel, h.table, given);
    AdoptionTable(m.src, h.dst, p, h.kernel, h.table, given, h.pend, roots, now);
  }

  lemma AdoptionPending(d: Tree, s: Tree, pend: seq<Pending>, p: Path, roots: Roots, now: int)
    requires PendingOk(d, pend) && Clear(pend, s, p)
    ensures PendingOk(WithCopy(s, d, p, roots, now), pend)
  {
    forall i | 0 <= i < |pend| && p <= pend[i].path ensures pend[i].path !in s {
      assert StaleAt(pend, pend[i].path);
    }
  }

  lemma ArrivalOfTree(h: State, m: State, p: Path, given: map<nat, Path>, roots: Roots, now: int)
    requires Inv(h, roots) && Arrived(h, m, p) && m.src[p].Dir? && p !in h.src
    requires FreshWatches(m, p, given)
    ensures Inv(Adopt(m, p, given, roots, now), roots)
  {
    ClearPlaceIsEmpty(h.src, h.dst, h.pend, p, roots);
    AdoptedTree(h, m, p, given, roots, now);
    AdoptionTrees(h, m, p, roots, now);
    AdoptionWatches(h, m, p, given, roots, now);
    AdoptionPending(h.dst, m.src, h.pend, p, roots, now);
  }
}
