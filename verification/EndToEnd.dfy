/** Backup, mirrored changes, damage, restore: the whole way round. */
module EndToEnd {
  import opened Paths
  import opened Trees
  import opened Mirror
  import opened MirrorMoves
  import opened MirrorResults
  import opened MirrorRenames
  import opened Restore

  /** The backup is the image of the source exactly when no unfinished move has left anything in it. */
  lemma MirrorIsBackupIff(m: State, roots: Roots)
    requires Inv(m, roots)
    ensures IsBackup(m.dst, m.src, roots) <==> NothingStranded(m, [])
  {
    hide WatchesAgree, PendingOk, NothingStranded;
    LeftoverIff(m, [], roots);
    assert m.src.Keys <= m.dst.Keys;
  }

  /** What is in the backup comes into the source. */
  lemma RestoredHasAll(e: Tree, b: Tree, roots: Roots, created: int, now: int)
    ensures b.Keys <= Restored(e, b, roots, created, now).Keys
  {
    assert Below(b, []) == b.Keys;
  }

  lemma LeftoverIsRestored(m: State, e: Tree, roots: Roots, created: int, now: int)
    requires Inv(m, roots) && !NothingStranded(m, [])
    ensures !Same(Restored(e, m.dst, roots.Swapped(), created, now), m.src)
  {
    hide WatchesAgree, PendingOk, NothingStranded, Restored;
    LeftoverIff(m, [], roots);
    var y :| y in m.dst && y !in m.src;
    RestoredHasAll(e, m.dst, roots.Swapped(), created, now);
    assert y in Restored(e, m.dst, roots.Swapped(), created, now).Keys;
  }

  /** A source is backed up and mirrored through any legal run, and then edited beyond the mirror's
      reach into any tree `e`. Restoring gives back the source as the mirror last knew it exactly
      when no unfinished move has left anything in the backup, no edit passes for untouched, and
      every link to be brought back survives its two rewritings. */
  lemma RestoreAfterMirroring(
      s: Tree, given: map<nat, Path>, turns: seq<Turn>, e: Tree, roots: Roots, created: int, t0: int, t1: int)
    requires WfTree(s) && IsDir(s, []) && WfTree(e) && IsDir(e, [])
    requires FreshWatches(State(s, map[], map[], map[], [], false), [], given)
    requires LegalRun(Start(s, given, roots, t0), turns, roots, t0)
    requires roots.src != "" && roots.src[0] == '/' && roots.dst != "" && roots.dst[0] == '/' && roots.src != roots.dst
    ensures var m := AfterAll(Start(s, given, roots, t0), turns, roots, t0);
            Same(Restored(e, m.dst, roots.Swapped(), created, t1), m.src) <==>
            && NothingStranded(m, [])
            && forall q | q in m.src && !m.src[q].Dir? ::
                 if LooksUntouched(e, m.src, q, created) then SameContent(e[q], m.src[q]) else Returns(m.src[q], roots)
  {
    hide Start, AfterAll, LegalRun, WatchesAgree, Restored, IsBackup, NothingStranded;
    StartAgrees(s, given, roots, t0);
    RunKeepsInv(Start(s, given, roots, t0), turns, roots, t0);
    var m := AfterAll(Start(s, given, roots, t0), turns, roots, t0);
    MirrorIsBackupIff(m, roots);
    if NothingStranded(m, []) {
      RestoreIsIdentityIff(m.src, e, m.dst, roots, created, t1);
    } else {
      LeftoverIsRestored(m, e, roots, created, t1);
    }
  }

  /** It does happen, without any edit: a file was moved out last, and as no event came after that
      its move has not expired. The restore brings the file back. */
  lemma MovedOutComesBack(roots: Roots, created: int, now: int)
    ensures LegalRun(Start(ExampleSource(), ExampleWatches(), roots, 0), ExampleTurns(), roots, 0)
    ensures var m := AfterAll(Start(ExampleSource(), ExampleWatches(), roots, 0), ExampleTurns(), roots, 0);
            && ["a", "b"] !in m.src && ["a", "b"] in Restored(m.src, m.dst, roots.Swapped(), created, now)
            && !Same(Restored(m.src, m.dst, roots.Swapped(), created, now), m.src)
  {
    hide Start, AfterAll, LegalRun, Inv, Restored, Same;
    ExampleIsReached(roots);
    ExampleAgrees(roots);
    var m := Example();
    assert m.pend[0].path in m.dst;
    LeftoverIsRestored(m, m.src, roots, created, now);
    RestoredHasAll(m.src, m.dst, roots.Swapped(), created, now);
    assert ["a", "b"] in m.dst.Keys;
  }
}
