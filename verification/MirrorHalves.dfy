/** A rename inside the source of which only the first half is known. Other unfinished moves may
    expire meanwhile, and so may the first half itself. */
module MirrorHalves {
  import opened Basics
  import opened Paths
  import opened Trees
  import opened Mirror
  import opened MirrorSteps
  import opened MirrorMoves

  predicate IsMove(op: Op) {
    op.Rename? || op.Replace?
  }

  /** `m` is what the move `op` makes of the state `c`, and its first half is entry `i` of the table
      of unfinished moves. */
  ghost predicate HalfKnown(m: State, c: State, op: Op, i: nat, roots: Roots) {
    && Inv(c, roots) && IsMove(op) && Allowed(c, op)
    && i < |m.pend| && m.pend[i].path == op.at && m.pend[i].isDir == IsDir(c.src, op.at)
    && UnusedCookie(c.pend, m.pend[i].cookie)
    && c.pend == SwapRemove(m.pend, i)
    && m == Relocate(c, op.at, op.to).(pend := m.pend)
  }

  lemma FirstHalf(b: State, op: Op, x: Pending, roots: Roots)
    requires Inv(b, roots) && IsMove(op) && Allowed(b, op)
    requires x.path == op.at && x.isDir == IsDir(b.src, op.at) && UnusedCookie(b.pend, x.cookie)
    ensures HalfKnown(Relocate(b, op.at, op.to).(pend := b.pend + [x]), b, op, |b.pend|, roots)
  {
    hide Inv, Allowed, Move, RebaseTable;
    assert SwapRemove(b.pend + [x], |b.pend|) == b.pend;
  }

  // ---------- the order of the unfinished moves does not matter ----------

  ghost predicate DistinctCookies(pend: seq<Pending>) {
    forall i, j | 0 <= i < j < |pend| :: pend[i].cookie != pend[j].cookie
  }

  ghost predicate SameMoves(pend: seq<Pending>, pend': seq<Pending>) {
    forall e :: e in pend <==> e in pend'
  }

  lemma SameStale(pend: seq<Pending>, pend': seq<Pending>, p: Path)
    requires SameMoves(pend, pend')
    ensures StaleAt(pend, p) <==> StaleAt(pend', p)
    ensures StaleDirAt(pend, p) <==> StaleDirAt(pend', p)
  {
    forall i | 0 <= i < |pend| ensures exists j :: 0 <= j < |pend'| && pend'[j] == pend[i] {
      assert pend[i] in pend';
    }
    forall i | 0 <= i < |pend'| ensures exists j :: 0 <= j < |pend| && pend[j] == pend'[i] {
      assert pend'[i] in pend;
    }
  }

  lemma RemovedMoves(pend: seq<Pending>, i: nat)
    requires i < |pend| && DistinctCookies(pend)
    ensures DistinctCookies(SwapRemove(pend, i))
    ensures forall e :: e in SwapRemove(pend, i) <==> e in pend && e != pend[i]
  {
    var rest := SwapRemove(pend, i);
    SwapRemoveElements(pend, i);
    forall j | 0 <= j < |pend| && j != i ensures pend[j] in rest {
      assert rest[if j == |pend| - 1 then i else j] == pend[j];
    }
  }

  lemma DistinctWithUnused(pend: seq<Pending>, i: nat)
    requires i < |pend| && DistinctCookies(SwapRemove(pend, i))
    requires UnusedCookie(SwapRemove(pend, i), pend[i].cookie)
    ensures DistinctCookies(pend)
  {
    var rest := SwapRemove(pend, i);
    SwapRemoveElements(pend, i);
    forall j, k | 0 <= j < k < |pend| ensures pend[j].cookie != pend[k].cookie {
      if j != i {
        assert rest[j] == pend[j];
      }
      if k != i {
        assert rest[if k == |pend| - 1 then i else k] == pend[k];
      }
    }
  }

  lemma ReorderKeepsInv(m: State, pend: seq<Pending>, roots: Roots)
    requires Inv(m, roots) && SameMoves(m.pend, pend) && DistinctCookies(pend) && |pend| == |m.pend|
    ensures Inv(m.(pend := pend), roots)
  {
    hide StaleAt, StaleDirAt, SameMoves;
    forall p ensures StaleAt(m.pend, p) <==> StaleAt(pend, p)
             ensures StaleDirAt(m.pend, p) <==> StaleDirAt(pend, p)
    {
      SameStale(m.pend, pend, p);
    }
    PendingReordered(m.dst, m.pend, pend);
  }

  lemma PendingReordered(d: Tree, pend: seq<Pending>, pend': seq<Pending>)
    requires PendingOk(d, pend) && SameMoves(pend, pend') && DistinctCookies(pend') && |pend'| == |pend|
    ensures PendingOk(d, pend')
  {
    forall i | 0 <= i < |pend'| && !pend'[i].isDir ensures !IsDir(d, pend'[i].path) {
      assert pend'[i] in pend;
    }
  }

  lemma ReorderKeepsAllowed(c: State, pend: seq<Pending>, op: Op)
    requires IsMove(op) && Allowed(c, op) && SameMoves(c.pend, pend) && |pend| == |c.pend|
    ensures Allowed(c.(pend := pend), op)
    ensures NothingStranded(c, op.at) ==> NothingStranded(c.(pend := pend), op.at)
  {
    hide StaleAt, StaleDirAt;
    forall p ensures StaleAt(c.pend, p) <==> StaleAt(pend, p) {
      SameStale(c.pend, pend, p);
    }
    forall i | 0 <= i < |pend| ensures exists j :: 0 <= j < |c.pend| && c.pend[j] == pend[i] {
      assert pend[i] in c.pend;
    }
  }

  // ---------- another move expires ----------

  /** Where entry `i` is when entry `j` has gone. */
  function Place(pend: seq<Pending>, i: nat, j: nat): nat {
    if i == |pend| - 1 then j else i
  }

  lemma RemovedTwice(pend: seq<Pending>, i: nat, j: nat)
    requires i < |pend| && j < |pend| && i != j && DistinctCookies(pend)
    ensures var p, q := SwapRemove(pend, i), SwapRemove(pend, j);
            && Place(pend, j, i) < |p| && p[Place(pend, j, i)] == pend[j]
            && Place(pend, i, j) < |q| && q[Place(pend, i, j)] == pend[i]
            && SameMoves(SwapRemove(p, Place(pend, j, i)), SwapRemove(q, Place(pend, i, j)))
            && DistinctCookies(SwapRemove(q, Place(pend, i, j)))
  {
    SwapRemoveElements(pend, i);
    SwapRemoveElements(pend, j);
    RemovedMoves(pend, i);
    RemovedMoves(pend, j);
    RemovedMoves(SwapRemove(pend, i), Place(pend, j, i));
    RemovedMoves(SwapRemove(pend, j), Place(pend, i, j));
  }

  lemma ExpiryOfMove(c: State, op: Op, i: nat, roots: Roots)
    requires Inv(c, roots) && IsMove(op) && Allowed(c, op) && i < |c.pend|
    ensures Expire(Relocate(c, op.at, op.to), i) == Relocate(Expire(c, i), op.at, op.to)
    ensures Allowed(Expire(c, i), op) && Expire(c, i).src == c.src && Expire(c, i).kernel == c.kernel
    ensures NothingStranded(c, op.at) ==> NothingStranded(Expire(c, i), op.at)
  {
    hide TreesAgree, WatchesAgree, PendingOk, Move;
    ExpireWatches(c, i, roots);
    ExpireRelocated(c, op.at, op.to, i, roots);
    SwapRemoveElements(c.pend, i);
  }

  lemma SourceRecordsNotStale(b: State, i: nat, roots: Roots)
    requires Inv(b, roots) && i < |b.pend|
    ensures forall w | w in b.kernel :: w in b.table && !(b.pend[i].path <= b.table[w])
  {
    forall w | w in b.kernel ensures w in b.table && !(b.pend[i].path <= b.table[w]) {
      assert !StaleAt(b.pend, b.table[w]);
    }
  }

  lemma KernelUntouched(m: State, i: nat)
    requires i < |m.pend|
    requires forall w | w in m.kernel :: w in m.table && !(m.pend[i].path <= m.table[w])
    ensures Expire(m, i).kernel == m.kernel
  {
  }

  lemma ExpireRelocated(b: State, p: Path, q: Path, i: nat, roots: Roots)
    requires Inv(b, roots) && i < |b.pend|
    ensures Expire(Relocate(b, p, q), i) == Relocate(Expire(b, i), p, q)
  {
    hide TreesAgree, WatchesAgree, PendingOk, Move, Remove, Rebase;
    SourceRecordsNotStale(b, i, roots);
    KernelUntouched(b, i);
    KernelUntouched(Relocate(b, p, q), i);
  }

  /** An expiry depends on the one entry only. */
  lemma ExpireSame(m: State, c: State, i: nat, j: nat)
    requires i < |m.pend| && j < |c.pend| && m.pend[i] == c.pend[j] && m == c.(pend := m.pend)
    ensures Expire(m, i) == Expire(c, j).(pend := SwapRemove(m.pend, i))
  {
  }

  lemma ExpireOther(m: State, c: State, op: Op, i: nat, j: nat, roots: Roots) returns (c': State)
    requires HalfKnown(m, c, op, i, roots) && j < |m.pend| && j != i
    ensures var k := Place(m.pend, i, j);
            k < |m.pend| - 1 && Expire(m, j).pend[k] == m.pend[i] && HalfKnown(Expire(m, j), c', op, k, roots)
    ensures c'.kernel == c.kernel && c'.src == c.src
    ensures NothingStranded(c, op.at) ==> NothingStranded(c', op.at)
  {
    hide Inv, Allowed, Expire, NothingStranded, Relocate, DistinctCookies, SameMoves, SwapRemove;
    var k, l := Place(m.pend, i, j), Place(m.pend, j, i);
    CookiesDistinct(c, m.pend, i, roots);
    RemovedTwice(m.pend, i, j);
    SwapRemoveElements(m.pend, i);
    SwapRemoveElements(m.pend, j);
    var rest := SwapRemove(SwapRemove(m.pend, j), k);
    var d := Expire(c, l);
    c' := d.(pend := rest);
    ExpiryOfMove(c, op, l, roots);
    ExpireKeepsInv(c, l, roots);
    ExpiredPending(c, l);
    SwapRemoveElements(SwapRemove(m.pend, i), l);
    SwapRemoveElements(SwapRemove(m.pend, j), k);
    ReorderKeepsInv(d, rest, roots);
    ReorderKeepsAllowed(d, rest, op);
    RelocatedPending(c, op.at, op.to);
    ExpireSame(m, Relocate(c, op.at, op.to), j, l);
    RelocatedWith(d, rest, op.at, op.to);
    StillUnused(c.pend, rest, m.pend[i].cookie, SwapRemove(c.pend, l));
  }

  lemma CookiesDistinct(c: State, pend: seq<Pending>, i: nat, roots: Roots)
    requires Inv(c, roots) && i < |pend| && c.pend == SwapRemove(pend, i) && UnusedCookie(c.pend, pend[i].cookie)
    ensures DistinctCookies(pend)
  {
    DistinctWithUnused(pend, i);
  }

  lemma ExpiredPending(c: State, i: nat)
    requires i < |c.pend|
    ensures Expire(c, i).pend == SwapRemove(c.pend, i)
  {
  }

  lemma RelocatedPending(c: State, p: Path, q: Path)
    ensures Relocate(c, p, q).pend == c.pend
  {
  }

  lemma RelocatedWith(c: State, pend: seq<Pending>, p: Path, q: Path)
    ensures Relocate(c.(pend := pend), p, q) == Relocate(c, p, q).(pend := pend)
  {
  }

  lemma StillUnused(pend: seq<Pending>, rest: seq<Pending>, cookie: nat, less: seq<Pending>)
    requires UnusedCookie(pend, cookie) && SameMoves(less, rest) && forall e | e in less :: e in pend
    ensures UnusedCookie(rest, cookie)
  {
    forall i | 0 <= i < |rest| ensures rest[i].cookie != cookie {
      assert rest[i] in rest && rest[i] in less && rest[i] in pend;
    }
  }

  // ---------- the first half itself expires ----------

  /** The state when the first half of a rename has been reported and has expired. */
  function Lost(b: State, p: Path, q: Path): State {
    var m := Relocate(b, p, q).(dst := Remove(b.dst, p));
    if IsDir(b.src, p) then Forget(m, p) else m
  }

  lemma FirstHalfLost(m: State, c: State, op: Op, i: nat, roots: Roots)
    requires HalfKnown(m, c, op, i, roots)
    ensures Expire(m, i) == Lost(c, op.at, op.to)
  {
    hide Inv, Allowed, Move, RebaseTable, Remove, SwapRemove, UnusedCookie;
  }

  /** Without the arrived tree, it is the state after a deletion: whatever unfinished moves left
      below `p` has gone from the backup too. */
  lemma LostState(b: State, p: Path, q: Path, roots: Roots)
    requires Inv(b, roots) && Allowed(b, Rename(p, q))
    ensures var m := Lost(b, p, q);
            && Inv(Leave(m, q), roots) && Arrived(Leave(m, q), m, q) && q !in Leave(m, q).src
            && m.src == Move(b.src, p, q) && m.pend == b.pend && m.dst == Remove(b.dst, p)
            && m.table == (map w | w in b.table && !(p <= b.table[w]) :: b.table[w])
            && IsDir(m.src, q) == b.src[p].Dir?
  {
    hide Inv, Move, Moved, Clear, Forget, Lost, Remove, RebaseTable, Outside;
    var m := Lost(b, p, q);
    LostParts(b, p, q);
    LostTree(b, p, q, roots);
    LostRecords(b, p, q, roots);
    DeletionReported(b, p, roots, b.src[p].Dir?);
    assert Leave(m, q) == Forget(Leave(b, p).(dst := Remove(b.dst, p)), p);
  }

  lemma LostParts(b: State, p: Path, q: Path)
    ensures var m, m0 := Lost(b, p, q), Relocate(b, p, q);
            && m.src == Move(b.src, p, q) && m.dst == Remove(b.dst, p) && m.pend == b.pend && m.exit == b.exit
            && (if IsDir(b.src, p) then m.table == Forget(m0, p).table && m.kernel == Forget(m0, p).kernel
                else m.table == b.table && m.kernel == RebaseTable(b.kernel, p, q))
  {
    hide Move, Remove, RebaseTable;
  }

  lemma LostTree(b: State, p: Path, q: Path, roots: Roots)
    requires Inv(b, roots) && Allowed(b, Rename(p, q))
    ensures var s := Move(b.src, p, q);
            && q in s && WfTree(s) && IsDir(Remove(s, q), Parent(q)) && IsDir(s, q) == b.src[p].Dir?
            && Clear(b.pend, s, q) && Remove(s, q) == Remove(b.src, p) && q !in Remove(s, q)
            && forall r | !(q <= r) :: (r in s <==> r in Remove(s, q)) && (r in s ==> s[r] == Remove(s, q)[r])
  {
    hide Move;
    PlaceIsEmpty(b, p, q, roots);
    MoveMoves(b.src, p, q);
    MovedRemoved(b.src, Move(b.src, p, q), p, q);
    MovedPlace(b.src, Move(b.src, p, q), p, q);
    MovedClear(b, Move(b.src, p, q), p, q);
  }

  lemma LostRecords(b: State, p: Path, q: Path, roots: Roots)
    requires Inv(b, roots) && Allowed(b, Rename(p, q))
    ensures var m, g := Lost(b, p, q), Forget(Leave(b, p).(dst := Remove(b.dst, p)), p);
            && m.table == g.table == (map w | w in b.table && !(p <= b.table[w]) :: b.table[w])
            && m.kernel == Outside(m.kernel, q) == g.kernel
            && g.src == Remove(b.src, p) && g.dst == Remove(b.dst, p) && g.pend == b.pend && g.exit == b.exit
  {
    hide TreesAgree, WatchesAgree, PendingOk, Unnamed, RebaseTable, Outside, Move, Lost, Remove;
    LostParts(b, p, q);
    PlaceIsEmpty(b, p, q, roots);
    if !IsDir(b.src, p) {
      LeafUnwatched(b, p, roots);
    }
    LostKernel(b, p, q, roots);
  }

  lemma LostKernel(b: State, p: Path, q: Path, roots: Roots)
    requires Inv(b, roots) && p != [] && forall z | z in b.src :: !(q <= z)
    ensures var kernel' := RebaseTable(b.kernel, p, q);
            var left := map w | w in kernel' && !(w in b.table && p <= b.table[w]) :: kernel'[w];
            && left == Outside(b.kernel, p) && Outside(left, q) == left
            && left == (map w | w in Outside(b.kernel, p) && !(w in b.table && p <= b.table[w]) :: Outside(b.kernel, p)[w])
    ensures (forall w | w in b.table :: !(p <= b.table[w])) ==>
              RebaseTable(b.kernel, p, q) == Outside(b.kernel, p) == Outside(Outside(b.kernel, p), q)
  {
    hide TreesAgree, PendingOk;
    forall w | w in b.kernel ensures w in b.table && b.table[w] == b.kernel[w] && !(q <= b.kernel[w]) {
    }
  }

  lemma LeafUnwatched(b: State, p: Path, roots: Roots)
    requires Inv(b, roots) && p in b.src && !b.src[p].Dir?
    ensures b.table == (map w | w in b.table && !(p <= b.table[w]) :: b.table[w])
  {
    NothingWatchedBelowALeaf(b, p);
  }

  /** The same for a rename onto a file or link: the old node's image is still there. */
  lemma LostReplacement(b: State, p: Path, q: Path, roots: Roots)
    requires Inv(b, roots) && Allowed(b, Replace(p, q))
    ensures var m, h := Lost(b, p, q), Without(b, p);
            && Inv(h, roots) && Arrived(h, m, q) && q in h.src && !h.src[q].Dir?
            && p in b.src && q in m.src && m.src[q] == b.src[p] && q in m.dst && m.dst[q] == b.dst[q]
  {
    hide Inv, Allowed, Move, Relocate, RebaseTable, Remove, Lost, Clear, WfTree;
    LeafPlaces(b, p, q, roots);
    UnlinkedKeepsInv(b, p, roots);
    ReplacedSource(b, p, q, roots);
    ReplacedRest(b, p, q, roots);
  }

  lemma ReplacedSource(b: State, p: Path, q: Path, roots: Roots)
    requires Inv(b, roots) && Allowed(b, Replace(p, q))
    ensures var s := Move(b.src, p, q);
            && WfTree(s) && q in s && s[q] == b.src[p] && Clear(b.pend, s, q)
            && forall x | !(q <= x) :: (x in s <==> x in Remove(b.src, p)) && (x in s ==> s[x] == Remove(b.src, p)[x])
  {
    hide Inv, Move, Allowed;
    LeafPlaces(b, p, q, roots);
    ReplaceIsRename(b, p, q, roots);
    LostTree(Without(b, q), p, q, roots);
    MoveAt(b.src, p, q, q);
    assert p + [] == p;
  }

  lemma ReplacedRest(b: State, p: Path, q: Path, roots: Roots)
    requires Inv(b, roots) && Allowed(b, Replace(p, q))
    ensures var m, h := Lost(b, p, q), Without(b, p);
            && m == h.(src := m.src) && m.src == Move(b.src, p, q) && h.src == Remove(b.src, p)
            && IsDir(h.src, Parent(q)) && q in h.src && h.src[q] == b.src[q] && q in m.dst && m.dst[q] == b.dst[q]
  {
    hide PendingOk, Move;
    LeafPlaces(b, p, q, roots);
    UnlinkedKeepsInv(b, p, roots);
    KernelApart(b, p, roots);
    assert RebaseTable(b.kernel, p, q) == b.kernel;
  }
}
