/** Restoring a source from its backup: prune, then apply. */
module Restore {
  import opened Paths
  import opened Trees
  import opened FileOps

  // ---------- what the two phases leave ----------

  /** On the way from `p` to `q` both trees hold nodes of the same kind. */
  ghost predicate Agree(s: Tree, b: Tree, p: Path, q: Path) {
    forall k | |p| <= k <= |q| :: q[..k] in s && q[..k] in b && SameKind(s[q[..k]], b[q[..k]])
  }

  /** check_src_against_backup: below `p` only what the backup has, in the same kind, survives. */
  ghost function Prune(s: Tree, b: Tree, p: Path): Tree {
    map q | q in s && (p <= q ==> Agree(s, b, p, q)) :: s[q]
  }

  /** A surviving source node that was not modified since the backup was created is kept. */
  predicate Kept(s: Tree, q: Path, created: int) {
    q in s && !s[q].Dir? && s[q].mtime <= created
  }

  function RestoredNode(s: Tree, b: Tree, q: Path, roots: Roots, created: int, now: int): Node
    requires q in b
  {
    if !b[q].Dir? && Kept(s, q, created) then s[q] else Copied(b[q], roots, now)
  }

  /** apply_backup: below `p` every backup node is there, copied back unless kept. */
  function Applied(s: Tree, b: Tree, p: Path, roots: Roots, created: int, now: int): Tree {
    map q | q in s.Keys + Below(b, p) ::
      if q in b && p <= q then RestoredNode(s, b, q, roots, created, now) else s[q]
  }

  /** What the first phase makes sure of for the second. */
  ghost predicate Ready(s: Tree, b: Tree, p: Path) {
    && WfTree(s) && WfTree(b) && p in b
    && (forall q | q < p :: IsDir(s, q))
    && (forall q | q in s && q in b && p <= q :: SameKind(s[q], b[q]))
  }

  // ---------- pruning ----------

  /** `s` after the entries in `names` of the directory `p` have been checked. */
  ghost function PrunePart(s: Tree, b: Tree, p: Path, names: set<string>): Tree {
    map q | q in s && (ThroughEntry(p, names, q) ==> Agree(s, b, p + [q[|p|]], q)) :: s[q]
  }

  lemma PruneNothing(s: Tree, b: Tree, p: Path)
    ensures PrunePart(s, b, p, {}) == s
  {
  }

  lemma AgreeOnPart(s: Tree, b: Tree, u: Tree, c: Path, q: Path)
    requires c <= q
    requires forall r | c <= r :: r in u <==> r in s
    requires forall r | r in u :: r in s && u[r] == s[r]
    ensures Agree(u, b, c, q) <==> Agree(s, b, c, q)
  {
    forall k | |c| <= k <= |q| ensures c <= q[..k] {
    }
  }

  lemma PruneOneMore(s: Tree, b: Tree, p: Path, done: set<string>, name: string)
    requires name !in done
    ensures Prune(PrunePart(s, b, p, done), b, p + [name]) == PrunePart(s, b, p, done + {name})
  {
    var u, c := PrunePart(s, b, p, done), p + [name];
    forall q | c <= q
      ensures !ThroughEntry(p, done, q) && ThroughEntry(p, {name}, q) && p + [q[|p|]] == c
    {
      ThroughOneEntry(p, name, q);
    }
    forall q | c <= q ensures Agree(u, b, c, q) <==> Agree(s, b, c, q) {
      AgreeOnPart(s, b, u, c, q);
    }
    forall q | ThroughEntry(p, {name}, q) ensures c <= q {
      ThroughOneEntry(p, name, q);
    }
  }

  lemma PruneAllEntries(s: Tree, b: Tree, p: Path)
    requires WfTree(s) && p in s && p in b && SameKind(s[p], b[p])
    ensures PrunePart(s, b, p, Entries(s, p)) == Prune(s, b, p)
  {
    forall q | q in s && p <= q
      ensures if q == p then Agree(s, b, p, q) && !ThroughEntry(p, Entries(s, p), q)
              else ThroughEntry(p, Entries(s, p), q) && (Agree(s, b, p, q) <==> Agree(s, b, p + [q[|p|]], q))
    {
      if q == p {
        assert q[..|p|] == p;
      } else {
        PrefixSplit(p, q);
        EntryOnPath(s, p, q);
        assert q[..|p|] == p;
      }
    }
  }

  lemma PruneLeaf(s: Tree, b: Tree, p: Path)
    requires WfTree(s) && p in s && !s[p].Dir? && p in b && SameKind(s[p], b[p])
    ensures Prune(s, b, p) == s
  {
    forall q | q in s && p <= q ensures q == p && q[..|p|] == p {
      PrefixClosed(s, q, p);
    }
  }

  lemma PruneMismatch(s: Tree, b: Tree, p: Path)
    requires p !in s || p !in b || !SameKind(s[p], b[p])
    ensures Prune(s, b, p) == Remove(s, p)
  {
    forall q | p <= q ensures !Agree(s, b, p, q) {
      assert q[..|p|] == p;
    }
  }

  lemma PruneKeepsWf(s: Tree, b: Tree, p: Path)
    requires WfTree(s)
    ensures WfTree(Prune(s, b, p))
  {
    var u := Prune(s, b, p);
    forall q | q in u && q != [] ensures Parent(q) in u && u[Parent(q)].Dir? {
      var r := Parent(q);
      if p <= r {
        forall k | |p| <= k <= |r| ensures r[..k] == q[..k] {
        }
      }
    }
  }

  /** check_src_against_backup. */
  method CheckSrcAgainstBackup(src: Disk, backup: Disk, p: Path)
    requires src != backup && WfTree(src.tree)
    modifies src
    ensures src.tree == Prune(old(src.tree), backup.tree, p) && WfTree(src.tree)
    decreases Below(src.tree, p)
  {
    ghost var s, b := src.tree, backup.tree;
    PruneKeepsWf(s, b, p);
    if p !in backup.tree {
      PruneMismatch(s, b, p);
      src.RmTree(p);
      return;
    }
    if p !in src.tree {
      PruneMismatch(s, b, p);
      NothingBelow(s, p);
      return;
    }
    if !SameKind(src.tree[p], backup.tree[p]) {
      PruneMismatch(s, b, p);
      src.RmTree(p);
      return;
    }
    if !src.tree[p].Dir? {
      PruneLeaf(s, b, p);
      return;
    }
    var names := Entries(src.tree, p);
    ghost var done: set<string> := {};
    PruneNothing(s, b, p);
    while names != {}
      invariant done + names == Entries(s, p) && done !! names
      invariant src.tree == PrunePart(s, b, p, done) && WfTree(src.tree)
      decreases names
    {
      var name :| name in names;
      names := names - {name};
      PruneShrinks(s, b, p, done, name);
      CheckSrcAgainstBackup(src, backup, p + [name]);
      PruneOneMore(s, b, p, done, name);
      done := done + {name};
    }
    PruneAllEntries(s, b, p);
  }

  lemma PruneShrinks(s: Tree, b: Tree, p: Path, done: set<string>, name: string)
    requires p in s
    ensures Below(PrunePart(s, b, p, done), p + [name]) < Below(s, p)
  {
    EntryIsSmaller(s, p, name);
    assert Below(PrunePart(s, b, p, done), p + [name]) <= Below(s, p + [name]);
  }

  // ---------- applying ----------

  function AppliedPart(s: Tree, b: Tree, p: Path, names: set<string>, roots: Roots, created: int, now: int): Tree {
    map q | q in s.Keys + Below(b, p) && (q in s || q == p || ThroughEntry(p, names, q)) ::
      if q in b && (q == p || ThroughEntry(p, names, q)) then RestoredNode(s, b, q, roots, created, now) else s[q]
  }

  lemma ApplyDirectory(s: Tree, b: Tree, p: Path, roots: Roots, created: int, now: int)
    requires Ready(s, b, p) && b[p].Dir?
    ensures ProperPrefixesAreDirs(s, p)
    ensures AppliedPart(s, b, p, {}, roots, created, now) == WithDirs(s, p)
  {
    forall q ensures q in WithDirs(s, p) <==> q in s || q == p
             ensures q in s ==> WithDirs(s, p)[q] == s[q]
             ensures q < p ==> IsDir(s, q)
    {
      WithDirsAt(s, p, q);
      assert q <= p ==> q == p || q < p;
      assert q < p ==> IsDir(s, q);
    }
    WithDirsAt(s, p, p);
  }

  lemma ApplyReady(s: Tree, b: Tree, p: Path, done: set<string>, name: string, roots: Roots, created: int, now: int)
    requires Ready(s, b, p) && b[p].Dir? && name !in done && p + [name] in b
    requires WfTree(AppliedPart(s, b, p, done, roots, created, now))
    ensures Ready(AppliedPart(s, b, p, done, roots, created, now), b, p + [name])
  {
    var u, c := AppliedPart(s, b, p, done, roots, created, now), p + [name];
    forall q | c <= q ensures !ThroughEntry(p, done, q) && q != p && p <= q {
      ThroughOneEntry(p, name, q);
    }
    forall q | q < c ensures IsDir(u, q) {
      assert q == p || q < p;
      if q != p {
        assert IsDir(s, q) && !(p <= q);
      }
    }
  }

  lemma ApplyOneMore(s: Tree, b: Tree, p: Path, done: set<string>, name: string, roots: Roots, created: int, now: int)
    requires name !in done
    ensures var u := AppliedPart(s, b, p, done, roots, created, now);
            Applied(u, b, p + [name], roots, created, now)
            == AppliedPart(s, b, p, done + {name}, roots, created, now)
  {
    var u, c := AppliedPart(s, b, p, done, roots, created, now), p + [name];
    var v, w := AppliedPart(s, b, p, done + {name}, roots, created, now), Applied(u, b, c, roots, created, now);
    forall q ensures c <= q <==> ThroughEntry(p, {name}, q) {
      ThroughOneEntry(p, name, q);
    }
    forall q | c <= q ensures (q in u <==> q in s) && (q in s ==> u[q] == s[q]) {
    }
    forall q ensures q in w <==> q in v {
    }
    forall q | q in v ensures w[q] == v[q] {
      if c <= q && q in b {
        assert RestoredNode(u, b, q, roots, created, now) == RestoredNode(s, b, q, roots, created, now);
      }
    }
  }

  lemma ApplyAllEntries(s: Tree, b: Tree, p: Path, roots: Roots, created: int, now: int)
    requires WfTree(b) && p in b
    ensures AppliedPart(s, b, p, Entries(b, p), roots, created, now) == Applied(s, b, p, roots, created, now)
  {
    forall q | q in b && p <= q && q != p ensures ThroughEntry(p, Entries(b, p), q) {
      PrefixSplit(p, q);
      EntryOnPath(b, p, q);
    }
  }

  lemma ApplyLeaf(s: Tree, b: Tree, p: Path, roots: Roots, created: int, now: int)
    requires Ready(s, b, p) && !b[p].Dir?
    ensures Applied(s, b, p, roots, created, now) == s[p := RestoredNode(s, b, p, roots, created, now)]
    ensures p != [] ==> IsDir(s, Parent(p))
    ensures p in s ==> CanReplace(b[p], s[p])
    ensures p != [] ==> WithDirs(s, Parent(p)) == s
  {
    forall q | q in b && p <= q ensures q == p {
      PrefixClosed(b, q, p);
    }
    if p != [] {
      assert Parent(p) < p && IsDir(s, Parent(p));
      ExistingIsWithDirs(s, Parent(p));
    }
  }

  lemma AppliedKeepsWf(s: Tree, b: Tree, p: Path, roots: Roots, created: int, now: int)
    requires Ready(s, b, p)
    ensures WfTree(Applied(s, b, p, roots, created, now))
  {
    var u := Applied(s, b, p, roots, created, now);
    forall q | q in u && q != [] ensures Parent(q) in u && u[Parent(q)].Dir? {
      var r := Parent(q);
      if q in b && p <= q {
        if q == p {
          assert r < p && !(p <= r) && IsDir(s, r);
        } else {
          assert p <= r;
          assert r in b && b[r].Dir?;
        }
      } else {
        assert r in s && s[r].Dir?;
      }
    }
  }

  /** apply_backup, run on what the first phase leaves. (Then a node that must be rewritten has the
      backup's kind already, so the branch that deletes a node of another kind is never taken, and no link is on the way.) */
  method ApplyBackup(backup: Disk, src: Disk, p: Path, roots: Roots, created: int, now: int) returns (ok: bool)
    requires src != backup && Ready(src.tree, backup.tree, p) && IsDir(backup.tree, [])
    modifies src
    ensures ok && src.tree == Applied(old(src.tree), backup.tree, p, roots, created, now) && WfTree(src.tree)
    decreases Below(backup.tree, p)
  {
    hide Applied, AppliedPart;
    ghost var s, b := src.tree, backup.tree;
    AppliedKeepsWf(s, b, p, roots, created, now);
    if backup.tree[p].Dir? {
      ApplyDirectory(s, b, p, roots, created, now);
      NothingToFollow(map[], p);
      ok := src.MkdirP(p, map[]);
      var names := Entries(backup.tree, p);
      ghost var done: set<string> := {};
      while names != {}
        invariant backup.tree == b && done + names == Entries(b, p) && done !! names
        invariant src.tree == AppliedPart(s, b, p, done, roots, created, now) && WfTree(src.tree)
        decreases names
      {
        var name :| name in names;
        names := names - {name};
        EntryExists(b, p, name);
        EntryIsSmaller(b, p, name);
        ApplyReady(s, b, p, done, name, roots, created, now);
        ok := ApplyBackup(backup, src, p + [name], roots, created, now);
        ApplyOneMore(s, b, p, done, name, roots, created, now);
        done := done + {name};
      }
      ApplyAllEntries(s, b, p, roots, created, now);
      return true;
    }
    ApplyLeaf(s, b, p, roots, created, now);
    if p in src.tree && src.tree[p].mtime <= created {
      assert src.tree[p := src.tree[p]] == src.tree;
      return true;
    }
    assert forall q | q < Parent(p) :: IsDir(s, q);
    NothingToFollow(map[], Parent(p));
    ok := src.MkdirP(Parent(p), map[]);
    if backup.tree[p].File? {
      ok := src.CopyFile(backup, p, now);
    } else {
      ok := src.CopyLink(backup, p, roots, now);
    }
  }

  // ---------- restoring ----------

  ghost function Restored(e: Tree, b: Tree, roots: Roots, created: int, now: int): Tree {
    Applied(Prune(e, b, []), b, [], roots, created, now)
  }

  lemma PruneIsReady(e: Tree, b: Tree)
    requires WfTree(e) && WfTree(b) && IsDir(e, []) && IsDir(b, [])
    ensures Ready(Prune(e, b, []), b, [])
    ensures forall q | q in Prune(e, b, []) :: q in b
  {
    PruneKeepsWf(e, b, []);
    forall q | q in Prune(e, b, []) ensures q in b && SameKind(e[q], b[q]) {
      assert q[..|q|] == q;
    }
  }

  /** The two phases of cmd_restore; `roots` names the backup first. */
  method RestoreSource(src: Disk, backup: Disk, roots: Roots, created: int, now: int) returns (ok: bool)
    requires src != backup
    requires WfTree(src.tree) && IsDir(src.tree, []) && WfTree(backup.tree) && IsDir(backup.tree, [])
    modifies src
    ensures ok && src.tree == Restored(old(src.tree), backup.tree, roots, created, now)
  {
    PruneIsReady(src.tree, backup.tree);
    CheckSrcAgainstBackup(src, backup, []);
    ok := ApplyBackup(backup, src, [], roots, created, now);
  }

  ghost predicate Same(t: Tree, u: Tree) {
    t.Keys == u.Keys && forall q | q in t :: SameContent(t[q], u[q])
  }

  /** What copy_tree, and then the mirror, keep in the backup of the source `o`. */
  ghost predicate IsBackup(b: Tree, o: Tree, roots: Roots) {
    b.Keys == o.Keys && forall q | q in o :: SameContent(b[q], Copied(o[q], roots, 0))
  }

  /** Whether an edited node passes for untouched: its kind is right and it is not newer than the
      backup. Such a node is not written. */
  predicate LooksUntouched(e: Tree, o: Tree, q: Path, created: int)
    requires q in o
  {
    q in e && !e[q].Dir? && SameKind(e[q], o[q]) && e[q].mtime <= created
  }

  /** A link whose target survives being rewritten for the backup and back. */
  predicate Returns(n: Node, roots: Roots) {
    n.Link? ==> HasPrefixPath(n.text, roots.src) || !HasPrefixPath(n.text, roots.dst)
  }

  lemma KeptIffLooksUntouched(o: Tree, e: Tree, b: Tree, q: Path, roots: Roots, created: int)
    requires WfTree(o) && WfTree(e) && IsBackup(b, o, roots)
    requires q in o && !o[q].Dir?
    ensures Kept(Prune(e, b, []), q, created) <==> LooksUntouched(e, o, q, created)
  {
    if q in e && SameKind(e[q], o[q]) {
      forall k | 0 <= k <= |q| ensures q[..k] in e && q[..k] in b && SameKind(e[q[..k]], b[q[..k]]) {
        if k == |q| {
          assert q[..k] == q;
        } else {
          PrefixClosed(e, q, q[..k]);
          PrefixClosed(o, q, q[..k]);
        }
      }
    } else {
      assert q[..|q|] == q;
    }
  }

  lemma RestoredAt(o: Tree, e: Tree, b: Tree, q: Path, roots: Roots, created: int, now: int)
    requires WfTree(o) && WfTree(e) && WfTree(b) && IsDir(o, []) && IsDir(e, []) && IsBackup(b, o, roots)
    requires q in o
    ensures var t := Restored(e, b, roots.Swapped(), created, now);
            q in t && t[q] == if !o[q].Dir? && LooksUntouched(e, o, q, created) then e[q]
                              else Copied(b[q], roots.Swapped(), now)
  {
    if !o[q].Dir? {
      KeptIffLooksUntouched(o, e, b, q, roots, created);
    }
  }

  lemma CopiedBack(n: Node, m: Node, roots: Roots, now: int)
    requires roots.src != "" && roots.src[0] == '/' && roots.dst != "" && roots.dst[0] == '/' && roots.src != roots.dst
    requires SameContent(m, Copied(n, roots, 0))
    ensures SameContent(Copied(m, roots.Swapped(), now), n) <==> Returns(n, roots)
  {
    if n.Link? {
      LinkRoundTrip(n.text, roots.src, roots.dst);
    }
  }

  lemma BackupKeepsWf(b: Tree, o: Tree, roots: Roots)
    requires WfTree(o) && IsBackup(b, o, roots)
    ensures WfTree(b)
  {
    forall q | q in b && q != [] ensures Parent(q) in b && b[Parent(q)].Dir? {
      assert Parent(q) in o;
    }
  }

  /** Backup, any edits, restore: the original paths, kinds, contents and link targets are all back
      exactly when every node that looks untouched is untouched, and the target of every other link
      survives being rewritten to the backup and back. */
  lemma RestoreIsIdentityIff(o: Tree, e: Tree, b: Tree, roots: Roots, created: int, now: int)
    requires WfTree(o) && WfTree(e) && IsDir(o, []) && IsDir(e, []) && IsBackup(b, o, roots)
    requires roots.src != "" && roots.src[0] == '/' && roots.dst != "" && roots.dst[0] == '/' && roots.src != roots.dst
    ensures Same(Restored(e, b, roots.Swapped(), created, now), o) <==>
            forall q | q in o && !o[q].Dir? ::
              if LooksUntouched(e, o, q, created) then SameContent(e[q], o[q]) else Returns(o[q], roots)
  {
    BackupKeepsWf(b, o, roots);
    assert IsDir(b, []);
    PruneIsReady(e, b);
    var t := Restored(e, b, roots.Swapped(), created, now);
    assert t.Keys == o.Keys;
    forall q | q in o
      ensures SameContent(t[q], o[q]) <==>
              o[q].Dir? || (if LooksUntouched(e, o, q, created) then SameContent(e[q], o[q]) else Returns(o[q], roots))
    {
      RestoredAt(o, e, b, q, roots, created, now);
      CopiedBack(o[q], b[q], roots, now);
    }
  }

  /** In particular: if every edited file or link is newer than the backup and no original link
      points into the backup directory, restoring undoes all edits. */
  lemma RestoreUndoesEdits(o: Tree, e: Tree, b: Tree, roots: Roots, created: int, now: int)
    requires WfTree(o) && WfTree(e) && IsDir(o, []) && IsDir(e, []) && IsBackup(b, o, roots)
    requires roots.src != "" && roots.src[0] == '/' && roots.dst != "" && roots.dst[0] == '/' && roots.src != roots.dst
    requires forall q | q in o && q in e && !e[q].Dir? && SameKind(e[q], o[q]) ::
               SameContent(e[q], o[q]) || e[q].mtime > created
    requires forall q | q in o && o[q].Link? :: !HasPrefixPath(o[q].text, roots.dst)
    ensures Same(Restored(e, b, roots.Swapped(), created, now), o)
  {
    RestoreIsIdentityIff(o, e, b, roots, created, now);
  }

  // ---------- restores that do not give back the original ----------

  function ExampleRoots(): Roots {
    Roots("/s", "/b")
  }

  function OneNode(n: Node): Tree {
    map[[] := Dir, ["a"] := n]
  }

  lemma OneNodeIsTree(n: Node)
    ensures WfTree(OneNode(n)) && IsDir(OneNode(n), []) && OneNode(n).Keys == {[], ["a"]}
  {
    assert Parent(["a"]) == [];
  }

  /** The file `a` was edited in the second in which the backup was created, so the edit passes for
      untouched, and stays. */
  lemma EditInTheSameSecondIsMissed(now: int)
    ensures var o, e, b := OneNode(File([1], 5)), OneNode(File([2], 10)), OneNode(File([1], 10));
            && WfTree(e) && IsBackup(b, o, ExampleRoots()) && !SameContent(e[["a"]], o[["a"]])
            && !Same(Restored(e, b, ExampleRoots().Swapped(), 10, now), o)
  {
    hide Restored, Same;
    var o, e, b := OneNode(File([1], 5)), OneNode(File([2], 10)), OneNode(File([1], 10));
    OneNodeIsTree(o[["a"]]);
    OneNodeIsTree(e[["a"]]);
    OneNodeIsTree(b[["a"]]);
    assert LooksUntouched(e, o, ["a"], 10) && [1 as Byte][0] != [2 as Byte][0];
    RestoreIsIdentityIff(o, e, b, ExampleRoots(), 10, now);
  }

  /** The link `a` pointed into the backup and was deleted; it comes back pointing into the source. */
  lemma LinkIntoBackupIsTurned(created: int, now: int)
    ensures var o, e, b := OneNode(Link("/b/x", 5)), map[[] := Dir], OneNode(Link("/b/x", 10));
            && WfTree(e) && IsBackup(b, o, ExampleRoots())
            && !Same(Restored(e, b, ExampleRoots().Swapped(), created, now), o)
  {
    hide Restored, Same;
    var o, e, b := OneNode(Link("/b/x", 5)), map[[] := Dir], OneNode(Link("/b/x", 10));
    OneNodeIsTree(o[["a"]]);
    OneNodeIsTree(b[["a"]]);
    assert !HasPrefixPath("/b/x", "/s") by {
      assert "/b/x"[1] != "/s"[1];
    }
    assert HasPrefixPath("/b/x", "/b") by {
      assert "/b/x"[..2] == "/b";
    }
    assert "/s"[1] != "/b"[1];
    RestoreIsIdentityIff(o, e, b, ExampleRoots(), created, now);
  }
}
