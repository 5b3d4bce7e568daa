/** The file operations of the backup engine, on a tree that they change in place. */
module FileOps {
  import opened Paths
  import opened Trees

  datatype Outcome = Made | Exists | Failed

  const BLOCK: nat := 1024

  /** bulk_read: read(2) may return fewer bytes than asked for, and none only at the end. */
  method BulkRead(data: seq<Byte>, pos: nat, count: nat) returns (buf: seq<Byte>, pos': nat)
    requires pos <= |data| && count > 0
    ensures pos' == if |data| - pos <= count then |data| else pos + count
    ensures buf == data[pos..pos']
  {
    buf, pos' := [], pos;
    while |buf| < count
      invariant pos <= pos' <= |data| && |buf| == pos' - pos <= count
      invariant buf == data[pos..pos']
      decreases count - |buf|
    {
      if pos' == |data| {
        return;
      }
      var left := if |data| - pos' <= count - |buf| then |data| - pos' else count - |buf|;
      var c: nat :| 1 <= c <= left;
      buf, pos' := buf + data[pos'..pos' + c], pos' + c;
    }
  }

  /** copy_symplink_rewrite's and copy_file's effect on the tree, when it is possible. */
  predicate CanWrite(t: Tree, p: Path, n: Node) {
    && p != [] && IsDir(t, Parent(p))
    && (p in t ==> CanReplace(n, t[p]))
  }

  /** The links that lead to directories, each with the directory it leads to. */
  ghost predicate Leads(t: Tree, leads: map<Path, Path>) {
    forall l | l in leads :: l in t && t[l].Link? && IsDir(t, leads[l])
  }

  /** Where the kernel ends up for a path, one component after the other, when it follows the links
      that lead to directories; and where the entry is that it makes for mkdir(2). */
  function Followed(leads: map<Path, Path>, p: Path): Path
    decreases |p|, 1
  {
    var q := EntryAt(leads, p);
    if q in leads then leads[q] else q
  }

  function EntryAt(leads: map<Path, Path>, p: Path): Path
    decreases |p|, 0
  {
    if p == [] then [] else Followed(leads, Parent(p)) + [p[|p| - 1]]
  }

  class Disk {
    var tree: Tree

    constructor (t: Tree)
      ensures tree == t
    {
      tree := t;
    }

    /** bulk_write to an open file: write(2) may accept fewer bytes than offered. */
    method BulkWrite(p: Path, buf: seq<Byte>, now: int)
      requires p in tree && tree[p].File? && tree[p].mtime == now
      modifies this
      ensures tree == old(tree)[p := File(old(tree[p].data) + buf, now)]
    {
      var done: nat := 0;
      ghost var data := tree[p].data;
      assert data + buf[..0] == data && tree == tree[p := tree[p]];
      while done < |buf|
        invariant done <= |buf|
        invariant tree == old(tree)[p := File(data + buf[..done], now)]
      {
        var c: nat :| 1 <= c <= |buf| - done;
        assert data + buf[..done] + buf[done..done + c] == data + buf[..done + c];
        tree := tree[p := File(tree[p].data + buf[done..done + c], now)];
        done := done + c;
      }
      assert buf[..done] == buf;
    }

    /** copy_file, whatever short reads and writes occur. */
    method CopyFile(src: Disk, p: Path, now: int) returns (ok: bool)
      modifies this
      requires src != this
      ensures ok <==> p in src.tree && src.tree[p].File? && p != [] && IsDir(old(tree), Parent(p))
                      && (p in old(tree) ==> old(tree)[p].File?)
      ensures tree == if ok then old(tree)[p := File(src.tree[p].data, now)] else old(tree)
      ensures WfTree(old(tree)) ==> WfTree(tree)
    {
      if p !in src.tree || !src.tree[p].File? || !CanWrite(tree, p, src.tree[p]) {
        return false;
      }
      var data := src.tree[p].data;
      tree := tree[p := File([], now)];
      var pos := 0;
      while true
        invariant pos <= |data|
        invariant src.tree == old(src.tree)
        invariant tree == old(tree)[p := File(data[..pos], now)]
        decreases |data| - pos
      {
        var buf, pos' := BulkRead(data, pos, BLOCK);
        if buf == [] {
          break;
        }
        BulkWrite(p, buf, now);
        assert data[..pos] + buf == data[..pos'];
        pos := pos';
      }
      assert data[..pos] == data;
      LeafKeepsWf(old(tree), p, tree[p]);
      return true;
    }

    /** copy_symplink_rewrite: the new link replaces whatever unlink can remove. */
    method CopyLink(src: Disk, p: Path, roots: Roots, now: int) returns (ok: bool)
      modifies this
      requires src != this
      ensures ok <==> p in src.tree && src.tree[p].Link? && p != [] && IsDir(old(tree), Parent(p))
                      && (p in old(tree) ==> !old(tree)[p].Dir?)
      ensures tree == if ok then old(tree)[p := Copied(src.tree[p], roots, now)] else old(tree)
      ensures ok ==> Image(src.tree[p], tree[p], roots)
      ensures WfTree(old(tree)) ==> WfTree(tree)
    {
      if p !in src.tree || !src.tree[p].Link? || !CanWrite(tree, p, src.tree[p]) {
        return false;
      }
      var target := RewriteLink(src.tree[p].text, roots.src, roots.dst);
      tree := tree - {p};
      tree := tree[p := Link(target, now)];
      LeafKeepsWf(old(tree), p, tree[p]);
      CopyIsImage(src.tree[p], tree[p], roots);
      return true;
    }

    /** rm_tree: the entries first, then the node itself. */
    method RmTree(p: Path)
      requires WfTree(tree)
      modifies this
      ensures tree == Remove(old(tree), p) && WfTree(tree)
      decreases Below(tree, p)
    {
      ghost var t := tree;
      RemoveKeepsWf(t, p);
      if p !in tree {
        NothingBelow(t, p);
        return;
      }
      if tree[p].Dir? {
        var names := Entries(tree, p);
        ghost var done: set<string> := {};
        RemoveNoEntries(t, p);
        while names != {}
          invariant done + names == Entries(t, p)
          invariant tree == RemoveEntries(t, p, done) && WfTree(tree)
          decreases names
        {
          var name :| name in names;
          names := names - {name};
          SmallerBelow(t, p, done, name);
          RmTree(p + [name]);
          RemoveOneMore(t, p, done, name);
          done := done + {name};
        }
        RemoveAllEntries(t, p);
      } else {
        LeafAlone(t, p);
      }
      tree := tree - {p};
    }

    /** copy_tree: every entry of the source directory is copied over; the first one that cannot be
        stops the copy. */
    method CopyTree(src: Disk, p: Path, roots: Roots, now: int) returns (ok: bool)
      requires src != this && WfTree(src.tree)
      modifies this
      ensures WfTree(old(tree)) ==> WfTree(tree) && (ok ==> CopyGoes(src.tree, old(tree), p))
      ensures CopyGoes(src.tree, old(tree), p) ==> ok && tree == Laid(src.tree, old(tree), p, roots, now)
      ensures CopyFits(src.tree, old(tree), p) ==> ok && tree == Overlay(src.tree, old(tree), p, roots, now)
      ensures forall q | q in old(tree) :: q in tree
      ensures forall q | q in tree :: (q in old(tree) && tree[q] == old(tree)[q])
                                      || (p < q && q in src.tree && tree[q] == Copied(src.tree[q], roots, now))
      ensures !IsDir(src.tree, p) || (WfTree(old(tree)) && !IsDir(old(tree), p)) ==> tree == old(tree)
      decreases Below(src.tree, p), 0
    {
      hide EntryPasses, EntryLaid, LaidPart, Laid, Overlay, CopyFits, CopyGoes, WfTree, GoesPart, Underway, Copied;
      FitsIsLaid(src.tree, tree, p, roots, now);
      if !IsDir(src.tree, p) {
        NoSource(src.tree, tree, p);
        return false;
      }
      ghost var s, d, goes := src.tree, tree, CopyGoes(src.tree, tree, p);
      var names := Entries(src.tree, p);
      ghost var done: set<string> := {};
      NothingLaid(s, d, p, roots, now);
      while names != {}
        invariant src.tree == s && done + names == Entries(s, p) && done !! names
        invariant WfTree(d) ==> WfTree(tree) && GoesPart(s, d, p, done)
        invariant goes ==> tree == LaidPart(s, d, p, done, roots, now)
        invariant Underway(s, d, tree, p, done, roots, now)
        invariant WfTree(d) && !IsDir(d, p) ==> tree == d
        decreases names
      {
        var name :| name in names;
        names := names - {name};
        var c := p + [name];
        ghost var u := tree;
        EntryExists(s, p, name);
        EntryIsSmaller(s, p, name);
        EntryUntouched(s, d, u, p, done, name, roots, now);
        if WfTree(d) && !IsDir(d, p) {
          NoEntryWithoutDirectory(d, p, name);
        }
        if goes {
          RoomForEntry(s, d, p, done, name, roots, now);
          OneMoreLaid(s, d, p, done, name, roots, now);
        }
        ok := CopyEntry(src, c, roots, now);
        UnderwayMore(s, d, u, tree, p, done, name, roots, now);
        if !ok {
          UnderwayEnds(s, d, tree, p, done + {name}, roots, now);
          return;
        }
        if WfTree(d) {
          EntryGoes(s, d, u, p, done, name, roots, now);
        }
        done := done + {name};
      }
      AllLaid(s, d, p, roots, now);
      UnderwayEnds(s, d, tree, p, done, roots, now);
      return true;
    }

    /** The turn of one entry. */
    method CopyEntry(src: Disk, c: Path, roots: Roots, now: int) returns (ok: bool)
      requires src != this && WfTree(src.tree) && c in src.tree && c != []
      modifies this
      ensures WfTree(old(tree)) ==> WfTree(tree) && (ok ==> EntryPasses(src.tree, old(tree), c))
      ensures EntryPasses(src.tree, old(tree), c) ==> ok && tree == EntryLaid(src.tree, old(tree), c, roots, now)
      ensures forall q | q in old(tree) :: q in tree
      ensures forall q | q in tree :: (q in old(tree) && tree[q] == old(tree)[q])
                                      || (c <= q && q in src.tree && tree[q] == Copied(src.tree[q], roots, now))
      ensures WfTree(old(tree)) && !IsDir(old(tree), Parent(c)) ==> tree == old(tree)
      decreases Below(src.tree, c), 1
    {
      hide Laid, CopyGoes, WfTree, CopyFits, Overlay;
      if src.tree[c].Dir? {
        var r := Mkdir(c);
        if r == Failed {
          return false;
        }
        ok := CopyTree(src, c, roots, now);
      } else if src.tree[c].File? {
        ok := CopyFile(src, c, now);
      } else {
        ok := CopyLink(src, c, roots, now);
      }
    }

    method Mkdir(p: Path) returns (r: Outcome)
      modifies this
      ensures r == if p in old(tree) then Exists
                   else if p == [] || IsDir(old(tree), Parent(p)) then Made else Failed
      ensures tree == if r == Made then old(tree)[p := Dir] else old(tree)
      ensures WfTree(old(tree)) ==> WfTree(tree)
    {
      if p in tree {
        return Exists;
      }
      if p != [] && !IsDir(tree, Parent(p)) {
        return Failed;
      }
      tree := tree[p := Dir];
      return Made;
    }

    /** mkdir_p: one mkdir for each prefix, existing nodes of any kind being passed over. */
    method MkdirP(p: Path, leads: map<Path, Path>) returns (ok: bool)
      requires WfTree(tree) && Leads(tree, leads)
      modifies this
      ensures WfTree(tree)
      ensures (ok, tree) == MkdirPOutcome(old(tree), Followed(leads, p))
    {
      hide Followed, EntryAt, MadeBefore, Leads, WfTree, MkdirPOutcome;
      ghost var t := tree;
      NoneMade(t, leads, p);
      var k := 0;
      while k <= |p|
        invariant 0 <= k <= |p| + 1 && WfTree(tree) && MadeBefore(t, leads, p, k, tree)
      {
        ghost var u := tree;
        var r := Mkdir(EntryAt(leads, p[..k]));
        if r == Failed {
          NoWayOn(t, leads, p, k, u);
          return false;
        }
        OneMoreMade(t, leads, p, k, u);
        k := k + 1;
      }
      AllMade(t, leads, p, tree);
      return true;
    }

    /** ensure_dir of the sister project: recursive, and refusing anything but a directory. */
    method EnsureDir(p: Path, leads: map<Path, Path>) returns (ok: bool)
      requires WfTree(tree) && IsDir(tree, []) && Leads(tree, leads)
      modifies this
      ensures WfTree(tree) && IsDir(tree, []) && Leads(tree, leads)
      ensures (ok, tree) == EnsureDirOutcome(old(tree), Followed(leads, p))
      decreases |p|
    {
      hide Followed, EntryAt, EnsureDirOutcome, Leads, WfTree;
      var q := Followed(leads, p);
      ghost var t := tree;
      if q in tree {
        ok := tree[q].Dir?;
        EnsureExisting(t, q);
        return;
      }
      EnsureMissing(t, leads, p);
      if |p| > 1 {
        ok := EnsureDir(Parent(p), leads);
        if !ok {
          return;
        }
      }
      var r := Mkdir(q);
      ok := r == Made;
      EnsuredKeeps(t, leads, q);
    }
  }

  // ---------- deleting entry by entry ----------

  predicate ThroughEntry(p: Path, names: set<string>, q: Path) {
    p <= q && |p| < |q| && q[|p|] in names
  }

  function RemoveEntries(t: Tree, p: Path, names: set<string>): Tree {
    map q | q in t && !ThroughEntry(p, names, q) :: t[q]
  }

  lemma NothingBelow(t: Tree, p: Path)
    requires WfTree(t) && p !in t
    ensures Remove(t, p) == t
  {
    forall q | q in t && p <= q ensures false {
      PrefixClosed(t, q, p);
    }
  }

  lemma LeafAlone(t: Tree, p: Path)
    requires WfTree(t) && p in t && !t[p].Dir?
    ensures t - {p} == Remove(t, p)
  {
    forall q | q in t && p <= q ensures q == p {
      PrefixClosed(t, q, p);
    }
  }

  lemma RemoveNoEntries(t: Tree, p: Path)
    ensures RemoveEntries(t, p, {}) == t
  {
  }

  lemma ThroughOneEntry(p: Path, name: string, q: Path)
    ensures p + [name] <= q <==> ThroughEntry(p, {name}, q)
  {
  }

  lemma SmallerBelow(t: Tree, p: Path, done: set<string>, name: string)
    requires p in t
    ensures Below(RemoveEntries(t, p, done), p + [name]) < Below(t, p)
  {
    assert p in Below(t, p) && p !in Below(RemoveEntries(t, p, done), p + [name]);
    forall q | q in t && p + [name] <= q ensures p <= q {
      ThroughOneEntry(p, name, q);
    }
  }

  lemma RemoveOneMore(t: Tree, p: Path, done: set<string>, name: string)
    ensures Remove(RemoveEntries(t, p, done), p + [name]) == RemoveEntries(t, p, done + {name})
  {
    forall q ensures p + [name] <= q <==> ThroughEntry(p, {name}, q) {
      ThroughOneEntry(p, name, q);
    }
  }

  lemma RemoveAllEntries(t: Tree, p: Path)
    requires WfTree(t)
    ensures RemoveEntries(t, p, Entries(t, p)) - {p} == Remove(t, p)
  {
    forall q | q in t && p <= q && q != p ensures ThroughEntry(p, Entries(t, p), q) {
      PrefixSplit(p, q);
      EntryOnPath(t, p, q);
    }
  }

  // ---------- copying entry by entry ----------

  /** copy_tree goes through: every entry can be written when its turn comes. An empty directory need
      not: mkdir accepts whatever is there, and nothing follows that would notice. */
  ghost predicate CopyGoes(s: Tree, d: Tree, p: Path) {
    && IsDir(s, p) && (Entries(s, p) != {} ==> IsDir(d, p))
    && forall q | q in s && q in d && p < q :: Passes(s, d, q)
  }

  predicate Passes(s: Tree, d: Tree, q: Path)
    requires q in s && q in d
  {
    CanReplace(s[q], d[q]) || (s[q].Dir? && Entries(s, q) == {})
  }

  /** What it leaves then: what was there in the place of a directory stays. */
  function Laid(s: Tree, d: Tree, p: Path, roots: Roots, now: int): Tree {
    map q | q in d.Keys + Below(s, p) && (q in d || p < q) ::
      if q in s && p < q && !(q in d && s[q].Dir?) then Copied(s[q], roots, now) else d[q]
  }

  ghost predicate EntryPasses(s: Tree, d: Tree, c: Path)
    requires c in s && c != []
  {
    && IsDir(d, Parent(c))
    && if s[c].Dir? then CopyGoes(s, WithEntry(d, c), c) else c in d ==> CanReplace(s[c], d[c])
  }

  function WithEntry(d: Tree, c: Path): Tree {
    if c in d then d else d[c := Dir]
  }

  function EntryLaid(s: Tree, d: Tree, c: Path, roots: Roots, now: int): Tree
    requires c in s
  {
    if s[c].Dir? then Laid(s, WithEntry(d, c), c, roots, now) else d[c := Copied(s[c], roots, now)]
  }

  /** `d` after the entries in `names` of the directory `p` have been copied over. */
  function LaidPart(s: Tree, d: Tree, p: Path, names: set<string>, roots: Roots, now: int): Tree {
    map q | q in d.Keys + Below(s, p) && (q in d || ThroughEntry(p, names, q)) ::
      if q in s && ThroughEntry(p, names, q) && !(q in d && s[q].Dir?) then Copied(s[q], roots, now) else d[q]
  }

  ghost predicate GoesPart(s: Tree, d: Tree, p: Path, names: set<string>) {
    && (names != {} ==> IsDir(d, p))
    && forall q | q in s && q in d && ThroughEntry(p, names, q) :: Passes(s, d, q)
  }

  /** Wherever the copy stops: nothing is lost, and what is new or changed is a copy. */
  ghost predicate Underway(s: Tree, d: Tree, t: Tree, p: Path, names: set<string>, roots: Roots, now: int) {
    && (forall q | q in d :: q in t)
    && forall q | q in t ::
         (q in d && t[q] == d[q]) || (ThroughEntry(p, names, q) && q in s && t[q] == Copied(s[q], roots, now))
  }

  /** The whole copy is made exactly when nothing is in the way, empty directories included. */
  lemma FitsIsLaid(s: Tree, d: Tree, p: Path, roots: Roots, now: int)
    ensures CopyFits(s, d, p) ==> CopyGoes(s, d, p) && Laid(s, d, p, roots, now) == Overlay(s, d, p, roots, now)
  {
  }

  /** A copy that reports success is the whole copy exactly when no directory finds something else in
      its place. */
  lemma WholeCopyIff(s: Tree, d: Tree, p: Path, roots: Roots, now: int)
    requires CopyGoes(s, d, p)
    ensures Laid(s, d, p, roots, now) == Overlay(s, d, p, roots, now) <==>
            forall q | q in s && q in d && p < q && s[q].Dir? :: d[q].Dir?
  {
    var l, o := Laid(s, d, p, roots, now), Overlay(s, d, p, roots, now);
    assert l.Keys == o.Keys;
    if l == o {
      forall q | q in s && q in d && p < q && s[q].Dir? ensures d[q].Dir? {
        assert q in l && l[q] == o[q];
      }
    }
  }

  /** An empty directory does not appear where a file is, and copy_tree does not say so. */
  lemma EmptyDirectoryMissed(f: Node, roots: Roots, now: int)
    requires f.File?
    ensures var s: Tree, d: Tree := map[[] := Dir, ["a"] := Dir], map[[] := Dir, ["a"] := f];
            WfTree(s) && WfTree(d) && CopyGoes(s, d, []) && Laid(s, d, [], roots, now) == d
  {
    var s: Tree, d: Tree := map[[] := Dir, ["a"] := Dir], map[[] := Dir, ["a"] := f];
    assert Parent(["a"]) == [];
  }

  lemma NoSource(s: Tree, d: Tree, p: Path)
    requires !IsDir(s, p)
    ensures !CopyFits(s, d, p) && !CopyGoes(s, d, p)
  {
  }

  lemma NoEntryWithoutDirectory(t: Tree, p: Path, name: string)
    requires WfTree(t) && !IsDir(t, p)
    ensures p + [name] !in t
  {
    assert Parent(p + [name]) == p;
  }

  lemma EntryExists(t: Tree, p: Path, name: string)
    requires name in Entries(t, p)
    ensures p + [name] in t
  {
    var q :| q in t && |q| == |p| + 1 && p <= q && q[|p|] == name;
    assert q == p + [name];
  }

  lemma EntryIsSmaller(t: Tree, p: Path, name: string)
    requires p in t
    ensures Below(t, p + [name]) < Below(t, p)
  {
    SmallerBelow(t, p, {}, name);
    RemoveNoEntries(t, p);
  }

  lemma NothingLaid(s: Tree, d: Tree, p: Path, roots: Roots, now: int)
    ensures LaidPart(s, d, p, {}, roots, now) == d && GoesPart(s, d, p, {})
    ensures Underway(s, d, d, p, {}, roots, now)
  {
  }

  lemma AllLaid(s: Tree, d: Tree, p: Path, roots: Roots, now: int)
    requires WfTree(s) && IsDir(s, p)
    ensures LaidPart(s, d, p, Entries(s, p), roots, now) == Laid(s, d, p, roots, now)
    ensures GoesPart(s, d, p, Entries(s, p)) ==> CopyGoes(s, d, p)
  {
    hide Passes, WfTree;
    forall q | q in s ensures p < q <==> ThroughEntry(p, Entries(s, p), q) {
      if p < q {
        EntryOnPath(s, p, q);
      }
    }
  }

  lemma UnderwayEnds(s: Tree, d: Tree, t: Tree, p: Path, names: set<string>, roots: Roots, now: int)
    requires Underway(s, d, t, p, names, roots, now)
    ensures forall q | q in d :: q in t
    ensures forall q | q in t :: (q in d && t[q] == d[q]) || (p < q && q in s && t[q] == Copied(s[q], roots, now))
  {
  }

  /** Until its turn comes an entry is as it was. */
  lemma EntryUntouched(s: Tree, d: Tree, u: Tree, p: Path, done: set<string>, name: string, roots: Roots, now: int)
    requires Underway(s, d, u, p, done, roots, now) && name !in done
    ensures Parent(p + [name]) == p && (IsDir(u, p) <==> IsDir(d, p))
    ensures forall q | p + [name] <= q :: (q in u <==> q in d) && (q in u ==> u[q] == d[q])
  {
    forall q | p + [name] <= q ensures !ThroughEntry(p, done, q) {
      ThroughOneEntry(p, name, q);
    }
  }

  lemma UnderwayMore(s: Tree, d: Tree, u: Tree, t: Tree, p: Path, done: set<string>, name: string, roots: Roots, now: int)
    requires Underway(s, d, u, p, done, roots, now) && forall q | q in u :: q in t
    requires forall q | q in t ::
               (q in u && t[q] == u[q]) || (p + [name] <= q && q in s && t[q] == Copied(s[q], roots, now))
    ensures Underway(s, d, t, p, done + {name}, roots, now)
  {
    hide Copied;
    forall q ensures p + [name] <= q ==> ThroughEntry(p, done + {name}, q) {
      ThroughOneEntry(p, name, q);
    }
  }

  /** When the copy goes through, each entry can be written when its turn comes. */
  lemma RoomForEntry(s: Tree, d: Tree, p: Path, done: set<string>, name: string, roots: Roots, now: int)
    requires CopyGoes(s, d, p) && name !in done && name in Entries(s, p) && p + [name] in s
    ensures EntryPasses(s, LaidPart(s, d, p, done, roots, now), p + [name])
  {
    var c, u := p + [name], LaidPart(s, d, p, done, roots, now);
    assert p < c && Parent(c) == p;
    forall q | c <= q ensures !ThroughEntry(p, done, q) && p < q {
      ThroughOneEntry(p, name, q);
    }
    assert c in d ==> Passes(s, d, c);
    if s[c].Dir? {
      forall q | q in s && q in u && c < q ensures Passes(s, u, q) {
        assert q in d && Passes(s, d, q);
      }
    }
  }

  lemma OneMoreLaid(s: Tree, d: Tree, p: Path, done: set<string>, name: string, roots: Roots, now: int)
    requires WfTree(s) && p + [name] in s && name !in done
    ensures var c, u := p + [name], LaidPart(s, d, p, done, roots, now);
            var v := LaidPart(s, d, p, done + {name}, roots, now);
            EntryLaid(s, u, c, roots, now) == v
  {
    var c := p + [name];
    forall q ensures c <= q <==> ThroughEntry(p, {name}, q) {
      ThroughOneEntry(p, name, q);
    }
    if s[c].Dir? {
      OneMoreDirLaid(s, d, p, done, name, roots, now);
    } else {
      forall q | q in s && c <= q ensures q == c {
        PrefixClosed(s, q, c);
      }
    }
  }

  lemma OneMoreDirLaid(s: Tree, d: Tree, p: Path, done: set<string>, name: string, roots: Roots, now: int)
    requires IsDir(s, p + [name]) && name !in done
    requires forall q :: p + [name] <= q <==> ThroughEntry(p, {name}, q)
    ensures var c, u := p + [name], LaidPart(s, d, p, done, roots, now);
            Laid(s, WithEntry(u, c), c, roots, now) == LaidPart(s, d, p, done + {name}, roots, now)
  {
    var c, u := p + [name], LaidPart(s, d, p, done, roots, now);
    hide Copied;
    DirCopied(s[c], roots, now);
    var v, w := LaidPart(s, d, p, done + {name}, roots, now), Laid(s, WithEntry(u, c), c, roots, now);
    forall q ensures ThroughEntry(p, done + {name}, q) <==> ThroughEntry(p, done, q) || q == c || c < q {
      if c <= q && q != c {
        PrefixSplit(c, q);
      }
    }
    assert w.Keys == v.Keys;
    forall q | q in v ensures w[q] == v[q] {
    }
  }

  lemma DirCopied(n: Node, roots: Roots, now: int)
    requires n.Dir?
    ensures Copied(n, roots, now) == n
  {
  }

  /** An entry that has been written had its way free. */
  lemma EntryGoes(s: Tree, d: Tree, u: Tree, p: Path, done: set<string>, name: string, roots: Roots, now: int)
    requires WfTree(s) && p + [name] in s && name !in done && GoesPart(s, d, p, done)
    requires Underway(s, d, u, p, done, roots, now) && EntryPasses(s, u, p + [name])
    ensures GoesPart(s, d, p, done + {name})
  {
    var c := p + [name];
    EntryUntouched(s, d, u, p, done, name, roots, now);
    forall q | q in s && q in d && ThroughEntry(p, done + {name}, q) ensures Passes(s, d, q) {
      if !ThroughEntry(p, done, q) {
        ThroughOneEntry(p, name, q);
        if q != c {
          PrefixSplit(c, q);
          if !s[c].Dir? {
            PrefixClosed(s, q, c);
          } else {
            assert Passes(s, WithEntry(u, c), q);
          }
        }
      }
    }
  }

  // ---------- making directories ----------

  lemma LeafKeepsWf(t: Tree, p: Path, n: Node)
    requires p != [] && IsDir(t, Parent(p)) && (p in t ==> !t[p].Dir?)
    ensures WfTree(t) ==> WfTree(t[p := n])
  {
    if WfTree(t) {
      var u := t[p := n];
      forall q | q in u && q != [] ensures Parent(q) in u && u[Parent(q)].Dir? {
        assert q != p ==> Parent(q) in t && t[Parent(q)].Dir?;
      }
    }
  }

  lemma WithDirsAt(t: Tree, p: Path, q: Path)
    ensures q in WithDirs(t, p) <==> q in t || q <= p
    ensures q in t ==> WithDirs(t, p)[q] == t[q]
    ensures q !in t && q <= p ==> WithDirs(t, p)[q] == Dir
  {
    if q <= p {
      assert q == p[..|q|];
    }
  }

  /** The ancestors of a node exist and are directories, so mkdir_p and ensure_dir add nothing. */
  lemma ExistingIsWithDirs(t: Tree, p: Path)
    requires WfTree(t) && p in t
    ensures WithDirs(t, p) == t
    ensures forall q | q < p :: q in t && t[q].Dir?
  {
    forall q | q <= p ensures q in t && (q != p ==> t[q].Dir?) {
      PrefixClosed(t, p, q);
    }
    forall q ensures q in WithDirs(t, p) <==> q in t {
      WithDirsAt(t, p, q);
    }
  }

  /** The tree mkdir_p has made before it tries the prefix of length `k`. */
  ghost function Upto(t: Tree, p: Path, k: nat): Tree
    requires k <= |p| + 1
  {
    if k == 0 then t else WithDirs(t, p[..k - 1])
  }

  lemma NextPrefix(t: Tree, p: Path, k: nat)
    requires WfTree(t) && k <= |p| && (k > 0 ==> ProperPrefixesAreDirs(t, p[..k - 1]))
    requires p[..k] in Upto(t, p, k) || k == 0 || IsDir(Upto(t, p, k), p[..k - 1])
    ensures ProperPrefixesAreDirs(t, p[..k])
    ensures WithDirs(t, p[..k]) == if p[..k] in Upto(t, p, k) then Upto(t, p, k) else Upto(t, p, k)[p[..k] := Dir]
  {
    var q := p[..k];
    forall r ensures r in WithDirs(t, q) <==> r in t || r <= q {
      WithDirsAt(t, q, r);
    }
    if k > 0 {
      var u := p[..k - 1];
      forall r ensures r in WithDirs(t, u) <==> r in t || r <= u
               ensures r < q <==> r <= u
               ensures r in t ==> WithDirs(t, u)[r] == t[r]
      {
        WithDirsAt(t, u, r);
        ShorterPrefix(p, k, r);
      }
      if q in t {
        ExistingIsWithDirs(t, q);
      }
      forall r | r in t && r < q ensures t[r].Dir? {
        assert r == u || r < u;
      }
    }
  }

  lemma ShorterPrefix(p: Path, k: nat, r: Path)
    requires 0 < k <= |p|
    ensures r < p[..k] <==> r <= p[..k - 1]
  {
  }

  lemma NoWayDown(t: Tree, p: Path, k: nat)
    requires WfTree(t) && 0 < k <= |p|
    requires !IsDir(Upto(t, p, k), p[..k - 1])
    ensures !ProperPrefixesAreDirs(t, p) && Upto(t, p, k) == t
  {
    var u := p[..k - 1];
    WithDirsAt(t, u, u);
    assert u < p;
    ExistingIsWithDirs(t, u);
  }

  /** A link that is followed has its ancestors, and so has the directory it leads to. */
  lemma StillTheWay(t: Tree, leads: map<Path, Path>, p: Path)
    requires WfTree(t) && Leads(t, leads) && ProperPrefixesAreDirs(t, EntryAt(leads, p))
    ensures ProperPrefixesAreDirs(t, Followed(leads, p))
    ensures WithDirs(t, Followed(leads, p)) == WithDirs(t, EntryAt(leads, p))
  {
    var q := EntryAt(leads, p);
    if q in leads {
      ExistingIsWithDirs(t, q);
      ExistingIsWithDirs(t, leads[q]);
    }
  }

  lemma {:induction false} FollowedFrom(t: Tree, leads: map<Path, Path>, p: Path, k: nat)
    requires WfTree(t) && Leads(t, leads) && k <= |p| && EntryAt(leads, p[..k]) !in t
    ensures Followed(leads, p) == EntryAt(leads, p) == EntryAt(leads, p[..k]) + p[k..]
    decreases |p|
  {
    var at := EntryAt(leads, p[..k]);
    if k == |p| {
      assert p[..k] == p && p[k..] == [];
    } else {
      var u := Parent(p);
      assert u[..k] == p[..k];
      FollowedFrom(t, leads, u, k);
      var q := EntryAt(leads, p);
      assert q == at + u[k..] + [p[|p| - 1]];
      assert u[k..] == p[k..|p| - 1];
      assert p[k..] == u[k..] + [p[|p| - 1]];
      assert at <= q;
      if q in t {
        PrefixClosed(t, q, at);
      }
    }
  }

  /** `u` is what mkdir_p has made of `t` before it tries the prefix of length `k`. */
  ghost predicate MadeBefore(t: Tree, leads: map<Path, Path>, p: Path, k: nat, u: Tree) {
    && k <= |p| + 1
    && (k == 0 ==> u == t)
    && (k > 0 ==> var q := Followed(leads, p[..k - 1]); ProperPrefixesAreDirs(t, q) && u == WithDirs(t, q))
  }

  lemma NoneMade(t: Tree, leads: map<Path, Path>, p: Path)
    ensures MadeBefore(t, leads, p, 0, t)
  {
  }

  lemma AllMade(t: Tree, leads: map<Path, Path>, p: Path, u: Tree)
    requires MadeBefore(t, leads, p, |p| + 1, u)
    ensures (true, u) == MkdirPOutcome(t, Followed(leads, p))
  {
    assert p[..|p|] == p;
  }

  lemma EntryInParent(leads: map<Path, Path>, p: Path, k: nat)
    requires k <= |p|
    ensures var at := EntryAt(leads, p[..k]);
            if k == 0 then at == [] else at != [] && Parent(at) == Followed(leads, p[..k - 1])
  {
    if k > 0 {
      assert Parent(p[..k]) == p[..k - 1];
    }
  }

  lemma NoWayOn(t: Tree, leads: map<Path, Path>, p: Path, k: nat, u: Tree)
    requires WfTree(t) && Leads(t, leads) && k <= |p| && MadeBefore(t, leads, p, k, u)
    requires var at := EntryAt(leads, p[..k]); at !in u && at != [] && !IsDir(u, Parent(at))
    ensures (false, u) == MkdirPOutcome(t, Followed(leads, p))
  {
    hide Followed, EntryAt, WithDirs, Leads;
    var at := EntryAt(leads, p[..k]);
    EntryInParent(leads, p, k);
    assert at[..|at|] == at && at[..|at| - 1] == Parent(at);
    NoWayDown(t, at, |at|);
    FollowedFrom(t, leads, p, k);
    var q :| q in t && q < at && !t[q].Dir?;
    assert q < Followed(leads, p);
  }

  lemma OneMoreMade(t: Tree, leads: map<Path, Path>, p: Path, k: nat, u: Tree)
    requires WfTree(t) && Leads(t, leads) && k <= |p| && MadeBefore(t, leads, p, k, u)
    requires var at := EntryAt(leads, p[..k]); at in u || at == [] || IsDir(u, Parent(at))
    ensures var at := EntryAt(leads, p[..k]);
            MadeBefore(t, leads, p, k + 1, if at in u then u else u[at := Dir])
  {
    hide Followed, EntryAt, WithDirs, ProperPrefixesAreDirs, Leads;
    var at := EntryAt(leads, p[..k]);
    EntryInParent(leads, p, k);
    assert at[..|at|] == at;
    if k > 0 {
      assert at[..|at| - 1] == Parent(at);
    }
    NextPrefix(t, at, |at|);
    StillTheWay(t, leads, p[..k]);
  }

  lemma {:induction false} NothingToFollow(leads: map<Path, Path>, p: Path)
    requires forall k | 0 <= k <= |p| :: p[..k] !in leads
    ensures Followed(leads, p) == p
    decreases |p|
  {
    assert p[..|p|] == p;
    if p != [] {
      var u := Parent(p);
      forall k | 0 <= k <= |u| ensures u[..k] !in leads {
        assert u[..k] == p[..k];
      }
      NothingToFollow(leads, u);
      assert u + [p[|p| - 1]] == p;
    }
  }

  lemma AncestorsFirst(t: Tree, p: Path)
    requires WfTree(t) && IsDir(t, []) && p != [] && p !in t
    ensures (forall q | q in t && q <= p :: t[q].Dir?) <==> (forall q | q in t && q <= Parent(p) :: t[q].Dir?)
    ensures (forall q | q in t && q <= Parent(p) :: t[q].Dir?) ==> IsDir(WithDirs(t, Parent(p)), Parent(p))
    ensures p !in WithDirs(t, Parent(p))
    ensures WithDirs(t, p) == WithDirs(t, Parent(p))[p := Dir]
    ensures |p| == 1 ==> WithDirs(t, Parent(p)) == t
  {
    var u := Parent(p);
    forall r ensures r in WithDirs(t, u) <==> r in t || r <= u
             ensures r in WithDirs(t, p) <==> r in t || r <= p
             ensures r <= p <==> r <= u || r == p
             ensures r in t ==> WithDirs(t, u)[r] == t[r]
    {
      WithDirsAt(t, u, r);
      WithDirsAt(t, p, r);
    }
    WithDirsAt(t, u, u);
  }

  /** What mkdir_p returns and leaves behind, and what ensure_dir does, where `p` is the path with
      its links followed. */
  ghost function MkdirPOutcome(t: Tree, p: Path): (bool, Tree) {
    if ProperPrefixesAreDirs(t, p) then (true, WithDirs(t, p)) else (false, t)
  }

  ghost function EnsureDirOutcome(t: Tree, p: Path): (bool, Tree) {
    if forall q | q in t && q <= p :: t[q].Dir? then (true, WithDirs(t, p)) else (false, t)
  }

  lemma EnsureExisting(t: Tree, p: Path)
    requires WfTree(t) && p in t
    ensures EnsureDirOutcome(t, p) == (t[p].Dir?, t)
  {
    ExistingIsWithDirs(t, p);
    assert forall r | r in t && r <= p :: r == p || r < p;
  }

  lemma EnsureMissing(t: Tree, leads: map<Path, Path>, p: Path)
    requires WfTree(t) && IsDir(t, []) && Leads(t, leads) && Followed(leads, p) !in t
    ensures p != []
    ensures var q, (ok, u) := Followed(leads, p), EnsureDirOutcome(t, Followed(leads, Parent(p)));
            && q != [] && Parent(q) == Followed(leads, Parent(p))
            && (|p| == 1 ==> ok && u == t) && (!ok ==> u == t)
            && EnsureDirOutcome(t, q) == (if ok then (true, u[q := Dir]) else (false, t))
            && (ok ==> q !in u && IsDir(u, Parent(q)))
  {
    var q := Followed(leads, p);
    assert p != [] && q == EntryAt(leads, p) && Parent(q) == Followed(leads, Parent(p));
    AncestorsFirst(t, q);
    if |p| == 1 {
      assert Parent(p) == [];
    }
  }

  lemma EnsuredKeeps(t: Tree, leads: map<Path, Path>, p: Path)
    requires WfTree(t) && IsDir(t, []) && Leads(t, leads)
    ensures var u := EnsureDirOutcome(t, p).1; WfTree(u) && IsDir(u, []) && Leads(u, leads)
  {
    if forall q | q in t && q <= p :: t[q].Dir? {
      WithDirsAddsAncestors(t, p);
    }
  }

  /** The two differ exactly where the path exists and neither is a directory nor leads to one:
      mkdir_p succeeds. */
  lemma SameUnlessPathIsNoDirectory(t: Tree, path: Path, leads: map<Path, Path>)
    requires WfTree(t) && Leads(t, leads)
    ensures var p, q := Followed(leads, path), EntryAt(leads, path);
            && (MkdirPOutcome(t, p) == EnsureDirOutcome(t, p) <==> (p in t ==> t[p].Dir?))
            && (p in t && !t[p].Dir? <==> q in t && !t[q].Dir? && q !in leads)
  {
    var p := Followed(leads, path);
    assert forall q | q in t && q <= p :: q == p || q < p;
    if p in t && !t[p].Dir? {
      ExistingIsWithDirs(t, p);
    }
  }

  /** Where they succeed they add the missing ancestors and the path, as directories, and change
      nothing else; the result is a tree. */
  lemma WithDirsAddsAncestors(t: Tree, p: Path)
    requires WfTree(t) && ProperPrefixesAreDirs(t, p)
    ensures WfTree(WithDirs(t, p))
    ensures forall q :: q in WithDirs(t, p) <==> q in t || q <= p
    ensures forall q | q in WithDirs(t, p) :: WithDirs(t, p)[q] == if q in t then t[q] else Dir
  {
    var u := WithDirs(t, p);
    forall q ensures q in u <==> q in t || q <= p
             ensures q in u ==> u[q] == if q in t then t[q] else Dir
    {
      WithDirsAt(t, p, q);
    }
    forall q | q in u && q != [] ensures Parent(q) in u && u[Parent(q)].Dir? {
      if q in t {
        assert Parent(q) in t;
      } else {
        assert Parent(q) < p;
      }
    }
  }
}
