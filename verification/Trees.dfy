/** Directory trees as values.

    A tree maps the path of each node, relative to the tree's root, to the node. The source of a
    backup and its backup directory are two trees: `add` refuses a target inside its source, and
    a target that is not empty, so neither contains the other. */
module Trees {
  import opened Paths

  newtype Byte = x: int | 0 <= x < 256

  datatype Node =
    | Dir
    | File(data: seq<Byte>, mtime: int)
    | Link(text: string, mtime: int)

  type Tree = map<Path, Node>

  /** The spellings (realpath) of the two roots, between which link targets are rewritten. */
  datatype Roots = Roots(src: string, dst: string) {
    function Swapped(): Roots { Roots(dst, src) }
  }

  function Parent(p: Path): Path
    requires p != []
  {
    p[..|p| - 1]
  }

  ghost predicate WfTree(t: Tree) {
    forall p {:trigger Parent(p)} | p in t && p != [] :: Parent(p) in t && t[Parent(p)].Dir?
  }

  predicate IsDir(t: Tree, p: Path) { p in t && t[p].Dir? }

  predicate SameKind(n: Node, m: Node) {
    (n.Dir? <==> m.Dir?) && (n.File? <==> m.File?) && (n.Link? <==> m.Link?)
  }

  /** Equal but for modification times. */
  predicate SameContent(n: Node, m: Node) {
    && SameKind(n, m)
    && (n.File? ==> n.data == m.data)
    && (n.Link? ==> n.text == m.text)
  }

  function Below(t: Tree, p: Path): set<Path> {
    set q | q in t && p <= q
  }

  /** The names readdir lists in a directory, other than `.` and `..`. */
  function Entries(t: Tree, p: Path): set<string> {
    set q | q in t && |q| == |p| + 1 && p <= q :: q[|p|]
  }

  /** What is left when a subtree has been deleted. */
  function Remove(t: Tree, p: Path): Tree {
    map q | q in t && !(p <= q) :: t[q]
  }

  /** The node written into the other tree for a source node. */
  function Copied(n: Node, roots: Roots, now: int): Node {
    match n
    case Dir => Dir
    case File(data, _) => File(data, now)
    case Link(text, _) => Link(RewriteLink(text, roots.src, roots.dst), now)
  }

  /** `m` is the image in the other tree of the source node `n`: the same kind of node, with the same
      data, or with the same target once the roots have changed places. */
  ghost predicate Image(n: Node, m: Node, roots: Roots) {
    match n
    case Dir => m.Dir?
    case File(data, _) => m.File? && m.data == data
    case Link(text, _) => m.Link? && Retargeted(text, m.text, roots.src, roots.dst)
  }

  lemma CopyIsImage(n: Node, m: Node, roots: Roots)
    ensures Image(n, m, roots) <==> SameContent(m, Copied(n, roots, 0))
  {
    if n.Link? {
      RewrittenIsRetargeted(n.text, roots.src, roots.dst);
      if m.Link? && Retargeted(n.text, m.text, roots.src, roots.dst) {
        RetargetedIsUnique(n.text, m.text, RewriteLink(n.text, roots.src, roots.dst), roots.src, roots.dst);
      }
    }
  }

  /** Whether a copy of `n` can be written where `m` is: an open for writing reuses a file, a link
      replaces anything but a directory, mkdir accepts an existing directory. */
  predicate CanReplace(n: Node, m: Node) {
    match n
    case Dir => m.Dir?
    case File(_, _) => m.File?
    case Link(_, _) => !m.Dir?
  }

  /** copy_tree's precondition for success: both directories exist and no entry is in the way. */
  ghost predicate CopyFits(s: Tree, d: Tree, p: Path) {
    && IsDir(s, p) && IsDir(d, p)
    && forall q | q in s && q in d && p < q :: CanReplace(s[q], d[q])
  }

  /** `d` after the strict descendants of `p` in `s` have been copied over. */
  function Overlay(s: Tree, d: Tree, p: Path, roots: Roots, now: int): Tree {
    map q | q in d.Keys + Below(s, p) && (q in d || p < q) ::
      if q in s && p < q then Copied(s[q], roots, now) else d[q]
  }

  function Prefixes(p: Path): set<Path> {
    set k | 0 <= k <= |p| :: p[..k]
  }

  /** `t` with the missing ancestors of `p`, and `p` itself, made directories. */
  function WithDirs(t: Tree, p: Path): Tree {
    map q | q in t.Keys + Prefixes(p) :: if q in t then t[q] else Dir
  }

  ghost predicate ProperPrefixesAreDirs(t: Tree, p: Path) {
    forall q | q in t && q < p :: t[q].Dir?
  }

  /** `t` after a subtree has been moved to a place where nothing was (or over a single node). */
  function Move(t: Tree, from: Path, to: Path): Tree {
    map q | q in MoveDomain(t, from, to) ::
      if to <= q then t[from + q[|to|..]] else t[q]
  }

  function MoveDomain(t: Tree, from: Path, to: Path): set<Path>
    ensures forall q | q in MoveDomain(t, from, to) ::
              if to <= q then from + q[|to|..] in t else q in t && !(from <= q)
  {
    var moved := set q | q in t && from <= q :: Rebase(q, from, to);
    forall q | q in moved ensures to <= q && from + q[|to|..] in t {
      var r :| r in t && from <= r && q == Rebase(r, from, to);
      assert q[|to|..] == r[|from|..] && from + r[|from|..] == r;
    }
    moved + set q | q in t && !(from <= q) && !(to <= q)
  }

  // ---------- elementary facts ----------

  lemma {:induction false} PrefixClosed(t: Tree, p: Path, q: Path)
    requires WfTree(t) && p in t && q <= p
    ensures q in t && (q != p ==> t[q].Dir?)
    decreases |p|
  {
    if q != p {
      assert q <= Parent(p);
      PrefixClosed(t, Parent(p), q);
    } else {
      assert q == p;
    }
  }

  lemma RemoveKeepsWf(t: Tree, p: Path)
    requires WfTree(t)
    ensures WfTree(Remove(t, p))
  {
    forall q | q in Remove(t, p) && q != []
      ensures Parent(q) in Remove(t, p)
    {
      assert p <= Parent(q) ==> p <= q;
    }
  }

  lemma PrefixSplit(p: Path, q: Path)
    requires p <= q && p != q
    ensures p + [q[|p|]] <= q && |p| < |q|
  {
  }

  lemma {:induction false} PrefixesComparable(p: Path, q: Path, r: Path)
    requires p <= r && q <= r
    ensures p <= q || q <= p
    ensures |p| <= |q| ==> p <= q
  {
  }

  lemma EntryOnPath(t: Tree, p: Path, q: Path)
    requires WfTree(t) && q in t && p < q
    ensures q[|p|] in Entries(t, p) && p + [q[|p|]] in t && p + [q[|p|]] <= q
  {
    PrefixSplit(p, q);
    PrefixClosed(t, q, p + [q[|p|]]);
  }

  /** A move re-roots the moved subtree and touches nothing else. */
  lemma MoveAt(t: Tree, from: Path, to: Path, q: Path)
    ensures q in Move(t, from, to) <==>
            if to <= q then from + q[|to|..] in t else q in t && !(from <= q)
    ensures q in Move(t, from, to) ==>
            Move(t, from, to)[q] == if to <= q then t[from + q[|to|..]] else t[q]
  {
    if to <= q && from + q[|to|..] in t {
      var r := from + q[|to|..];
      assert r[|from|..] == q[|to|..];
      assert Rebase(r, from, to) == q;
    }
  }
}
