/** The event-driven mirror as a state machine.

    The monitor keeps a backup tree, a table of watched directories and a table of unfinished
    moves in step with a source tree, from the events the kernel reports. Paths are relative to
    the two roots, between which map_src_to_dst translates (`Paths.MapBelowTheRoot`), so a source
    path and its image in the backup are the same path here. */
module Mirror {
  import opened Basics
  import opened Paths
  import opened Trees

  const PENDING_MAX := 128

  /** PendingMove. Its src_old and dst_old are one relative path; its time stamp only decides when
      it may expire, and here it may expire at any moment. */
  datatype Pending = Pending(cookie: nat, isDir: bool, path: Path)

  datatype Kind = Create | CloseWrite | Delete | DeleteSelf | MovedFrom | MovedTo | MoveSelf | Ignored

  /** An inotify event: the watch descriptor it was reported on, and the entry's name if any. */
  datatype Event = Event(wd: nat, kind: Kind, cookie: nat, isDir: bool, name: Option<string>)

  /** `kernel` maps each watch descriptor to the present place of the directory it follows, as
      long as that directory is inside the source; `table` is the monitor's own record. */
  datatype State = State(
    src: Tree, dst: Tree,
    kernel: map<nat, Path>, table: map<nat, Path>,
    pend: seq<Pending>, exit: bool)

  // ---------- the monitor's actions ----------

  predicate Blocked(d: Tree, p: Path) {
    exists k | 0 <= k < |p| :: p[..k] in d && !d[p[..k]].Dir?
  }

  /** mirror_create_or_update: nothing happens unless the source node exists, every existing
      ancestor in the backup is a directory, and the existing node, if any, can be replaced. */
  function MirrorOne(s: Tree, d: Tree, p: Path, roots: Roots, now: int): Tree {
    if p !in s || Blocked(d, p) then d
    else
      var d' := WithParent(d, p);
      if p in d && (!CanReplace(s[p], d[p]) || s[p].Dir?) then d' else d'[p := Copied(s[p], roots, now)]
  }

  /** watch_remove_subtree: the entries at or below `p` are dropped, from the kernel too. */
  function Forget(m: State, p: Path): State {
    m.(table := map w | w in m.table && !(p <= m.table[w]) :: m.table[w],
       kernel := map w | w in m.kernel && !(w in m.table && p <= m.table[w]) :: m.kernel[w])
  }

  /** watch_update_prefix. */
  function RebaseTable(table: map<nat, Path>, from: Path, to: Path): map<nat, Path> {
    map w | w in table :: Rebase(table[w], from, to)
  }

  function NewDirs(s: Tree, p: Path): set<Path> {
    set q | q in s && p <= q && s[q].Dir?
  }

  /** Descriptors the kernel may hand out for the directories at and below `p`: one each, none of
      them in use. (It would repeat the old descriptor of a directory already watched.) */
  ghost predicate FreshWatches(m: State, p: Path, given: map<nat, Path>) {
    && given.Keys !! m.table.Keys + m.kernel.Keys
    && (forall w | w in given :: given[w] in NewDirs(m.src, p))
    && Injective(given)
    && (forall q | q in NewDirs(m.src, p) :: Watched(given, q))
  }

  predicate Watched(kernel: map<nat, Path>, p: Path) {
    exists w | w in kernel :: kernel[w] == p
  }

  /** add_watch_tree; nothing is added when there is no directory at `p` any more. */
  function AddWatches(m: State, p: Path, given: map<nat, Path>): State {
    if !IsDir(m.src, p) then m else m.(table := m.table + given, kernel := m.kernel + given)
  }

  /** copy_tree from a source path to its image; without both directories nothing is copied. */
  function CopyDown(s: Tree, d: Tree, p: Path, roots: Roots, now: int): Tree {
    if IsDir(s, p) && IsDir(d, p) then Overlay(s, d, p, roots, now) else d
  }

  /** A directory that appeared: mirror the directory, watch its tree, copy its tree. */
  function Adopt(m: State, p: Path, given: map<nat, Path>, roots: Roots, now: int): State {
    var m1 := m.(dst := MirrorOne(m.src, m.dst, p, roots, now));
    var m2 := AddWatches(m1, p, given);
    m2.(dst := CopyDown(m2.src, m2.dst, p, roots, now))
  }

  function Appear(m: State, p: Path, isDir: bool, given: map<nat, Path>, roots: Roots, now: int): State {
    if isDir then Adopt(m, p, given, roots, now)
    else m.(dst := MirrorOne(m.src, m.dst, p, roots, now))
  }

  /** What rename(2) can replace: a directory an empty directory, another node one of its like. */
  predicate CanRenameOver(d: Tree, from: Path, to: Path)
    requires from in d
  {
    to in d ==> if d[from].Dir? then d[to].Dir? && Entries(d, to) == {} else !d[to].Dir?
  }

  /** rename(2) in the backup; ignored by the monitor when it fails. */
  function RenameIn(d: Tree, from: Path, to: Path): Tree {
    if from in d && to != [] && IsDir(d, Parent(to)) && !(from <= to) && CanRenameOver(d, from, to)
    then Move(d, from, to) else d
  }

  /** ensure_parent_dir fails where an ancestor is in the way; otherwise the missing ones are made. */
  predicate NoWayTo(d: Tree, p: Path) {
    p != [] && Blocked(d, Parent(p))
  }

  function WithParent(d: Tree, p: Path): Tree {
    if p == [] then d else WithDirs(d, Parent(p))
  }

  /** The first pending move with a cookie, if any (pm_take). */
  function Find(pend: seq<Pending>, cookie: nat): Option<nat>
    ensures Find(pend, cookie).Some? ==>
              Find(pend, cookie).value < |pend| && pend[Find(pend, cookie).value].cookie == cookie
    ensures Find(pend, cookie).None? ==> forall i | 0 <= i < |pend| :: pend[i].cookie != cookie
    ensures Find(pend, cookie).Some? ==>
              forall i | 0 <= i < Find(pend, cookie).value :: pend[i].cookie != cookie
  {
    if pend == [] then None
    else if pend[0].cookie == cookie then Some(0)
    else match Find(pend[1..], cookie)
         case None => None
         case Some(i) => Some(i + 1)
  }

  /** pm_1s_expire for one entry. */
  function Expire(m: State, i: nat): State
    requires i < |m.pend|
  {
    var x := m.pend[i];
    var m' := m.(dst := Remove(m.dst, x.path), pend := SwapRemove(m.pend, i));
    if x.isDir then Forget(m', x.path) else m'
  }

  function EventPath(m: State, e: Event): Path
    requires e.wd in m.table
  {
    m.table[e.wd] + match e.name case None => [] case Some(n) => [n]
  }

  function ArriveMoved(m: State, e: Event, p: Path, given: map<nat, Path>, roots: Roots, now: int): State {
    match Find(m.pend, e.cookie)
    case None => Appear(m, p, e.isDir, given, roots, now)
    case Some(i) =>
      var x, m' := m.pend[i], m.(pend := SwapRemove(m.pend, i));
      if NoWayTo(m.dst, p) then m'
      else m'.(dst := RenameIn(WithParent(m.dst, p), x.path, p),
               table := if x.isDir then RebaseTable(m.table, x.path, p) else m.table)
  }

  /** The event says that the source itself has been deleted or moved. */
  predicate Ends(m: State, e: Event) {
    (e.kind == DeleteSelf || e.kind == MoveSelf) && e.name == None && e.wd in m.table && m.table[e.wd] == []
  }

  /** One turn of the loop of monitor_and_mirror. What a full table loses is in
      `MirrorConflicts`. */
  function Handle(m: State, e: Event, given: map<nat, Path>, roots: Roots, now: int): State {
    if e.wd !in m.table then m
    else if e.kind == Ignored then m.(table := m.table - {e.wd})
    else
      var p := EventPath(m, e);
      if (e.kind == DeleteSelf || e.kind == MoveSelf) && p == [] then m.(exit := true)
      else match e.kind
        case DeleteSelf => Forget(m.(dst := Remove(m.dst, p)), p)
        case MovedFrom => m.(pend := m.pend + [Pending(e.cookie, e.isDir, p)])
        case MovedTo => ArriveMoved(m, e, p, given, roots, now)
        case Create =>
          if e.isDir then Adopt(m, p, given, roots, now)
          else if p in m.src && m.src[p].Link? then m.(dst := MirrorOne(m.src, m.dst, p, roots, now))
          else m
        case CloseWrite =>
          if e.isDir then m else m.(dst := MirrorOne(m.src, m.dst, p, roots, now))
        case Delete =>
          var m' := m.(dst := Remove(m.dst, p));
          if e.isDir then Forget(m', p) else m'
        case _ => m
  }

  // ---------- operations on the source ----------

  datatype Op =
    | Plant(at: Path, sub: Tree, movedIn: bool)  // a tree made, moved in, or a file written
    | Unlink(at: Path)
    | Rmdir(at: Path)
    | Rename(at: Path, to: Path)                 // to where nothing is
    | Replace(at: Path, to: Path)                // a rename onto a file or link
    | MoveOut(at: Path)

  function Graft(t: Tree, p: Path, sub: Tree): Tree {
    map q | q in t.Keys + (set r | r in sub :: p + r) ::
      if p <= q && q[|p|..] in sub then sub[q[|p|..]] else if q in t then t[q] else Dir
  }

  /** What the file system and the kernel's watches look like just after an operation. */
  function Apply(m: State, op: Op): State {
    match op
    case Plant(p, sub, _) => m.(src := Graft(m.src, p, sub))
    case Unlink(p) => Leave(m, p)
    case Rmdir(p) => Leave(m, p)
    case Rename(p, q) => Relocate(m, p, q)
    case Replace(p, q) => Relocate(m, p, q)
    case MoveOut(p) => Leave(m, p)
  }

  function Relocate(m: State, p: Path, q: Path): State {
    m.(src := Move(m.src, p, q), kernel := RebaseTable(m.kernel, p, q))
  }

  function Leave(m: State, p: Path): State {
    m.(src := Remove(m.src, p), kernel := Outside(m.kernel, p))
  }

  function Outside(kernel: map<nat, Path>, p: Path): map<nat, Path> {
    map w | w in kernel && !(p <= kernel[w]) :: kernel[w]
  }

  /** `e` is the event of a kind for the entry `p`, reported on the watch of its directory. */
  predicate Reports(kernel: map<nat, Path>, e: Event, kind: Kind, p: Path, isDir: bool) {
    && p != []
    && e.kind == kind && e.isDir == isDir && e.name == Some(p[|p| - 1])
    && e.wd in kernel && kernel[e.wd] == Parent(p)
  }

  predicate ReportsSelf(kernel: map<nat, Path>, e: Event, kind: Kind, p: Path) {
    e.kind == kind && e.name == None && e.wd in kernel && kernel[e.wd] == p
  }

  /** The events an operation on the state `m` gives rise to, in order. */
  ghost predicate EventsOf(m: State, op: Op, evs: seq<Event>) {
    match op
    case Plant(p, sub, movedIn) =>
      var isDir := [] in sub && sub[[]].Dir?;
      if movedIn then
        |evs| == 1 && Reports(m.kernel, evs[0], MovedTo, p, isDir) && UnusedCookie(m.pend, evs[0].cookie)
      else if [] in sub && sub[[]].File? then
        && 1 <= |evs| <= 2
        && Reports(m.kernel, evs[|evs| - 1], CloseWrite, p, false)
        && (|evs| == 2 ==> Reports(m.kernel, evs[0], Create, p, false))
      else
        |evs| == 1 && Reports(m.kernel, evs[0], Create, p, isDir)
    case Unlink(p) =>
      |evs| == 1 && Reports(m.kernel, evs[0], Delete, p, false)
    case Rmdir(p) =>
      exists self, gone, entry ::
        && ReportsSelf(m.kernel, self, DeleteSelf, p)
        && ReportsSelf(m.kernel, gone, Ignored, p)
        && Reports(m.kernel, entry, Delete, p, true)
        && (evs == [self, gone, entry] || evs == [entry, self, gone])
    case Rename(p, q) => MoveEvents(m, p, q, evs)
    case Replace(p, q) => MoveEvents(m, p, q, evs)
    case MoveOut(p) =>
      var isDir := IsDir(m.src, p);
      && |evs| == (if isDir then 2 else 1)
      && Reports(m.kernel, evs[0], MovedFrom, p, isDir)
      && UnusedCookie(m.pend, evs[0].cookie)
      && (isDir ==> ReportsSelf(m.kernel, evs[1], MoveSelf, p))
  }

  ghost predicate MoveEvents(m: State, p: Path, q: Path, evs: seq<Event>) {
    var isDir := IsDir(m.src, p);
    && |evs| == (if isDir then 3 else 2)
    && Reports(m.kernel, evs[0], MovedFrom, p, isDir)
    && Reports(m.kernel, evs[1], MovedTo, q, isDir)
    && evs[0].cookie == evs[1].cookie
    && UnusedCookie(m.pend, evs[0].cookie)
    && (isDir ==> ReportsSelf(m.kernel, evs[2], MoveSelf, p))
  }

  predicate UnusedCookie(pend: seq<Pending>, cookie: nat) {
    forall i | 0 <= i < |pend| :: pend[i].cookie != cookie
  }

  /** No node of the tree `s` at or below `p` lies at or below a path that an unfinished move names. */
  ghost predicate Clear(pend: seq<Pending>, s: Tree, p: Path) {
    forall x | x in s && p <= x :: !StaleAt(pend, x)
  }

  /** Nothing that an unfinished move left in the backup lies at or below `p`. */
  predicate NothingStranded(m: State, p: Path) {
    forall i | 0 <= i < |m.pend| :: p <= m.pend[i].path ==> m.pend[i].path !in m.dst
  }

  /** What the file system demands of an operation; and the pending table has room. */
  ghost predicate Feasible(m: State, op: Op) {
    && op.at != []
    && match op
       case Plant(p, sub, movedIn) =>
         && WfTree(sub) && [] in sub
         && IsDir(m.src, Parent(p))
         && (p in m.src ==> !m.src[p].Dir? && !sub[[]].Dir? && (movedIn || (m.src[p].File? && sub[[]].File?)))
       case Unlink(p) => p in m.src && !m.src[p].Dir?
       case Rmdir(p) => IsDir(m.src, p) && Entries(m.src, p) == {}
       case Rename(p, q) =>
         && p in m.src && q !in m.src && q != [] && !(p <= q)
         && IsDir(m.src, Parent(q)) && |m.pend| < PENDING_MAX
       case Replace(p, q) =>
         && p in m.src && !m.src[p].Dir? && q in m.src && !m.src[q].Dir? && p != q
         && |m.pend| < PENDING_MAX
       case MoveOut(p) => p in m.src && |m.pend| < PENDING_MAX
  }

  /** No node comes to lie where an unfinished move names a path, or below. */
  ghost predicate Unnamed(m: State, op: Op) {
    match op
    case Plant(p, sub, _) => forall r | r in sub :: !StaleAt(m.pend, p + r)
    case Rename(p, q) => forall x | x in m.src && p <= x :: !StaleAt(m.pend, Rebase(x, p, q))
    case _ => true
  }

  ghost predicate Allowed(m: State, op: Op) {
    Feasible(m, op) && Unnamed(m, op)
  }

  /** What makes sure, whenever its events are handled, that the mirror can keep up with a possible
      operation: an overwritten node can be overwritten in the backup too, and no unfinished move has
      left anything below a renamed directory. */
  ghost predicate Clean(m: State, op: Op)
    requires Feasible(m, op)
  {
    match op
    case Plant(p, sub, _) => p in m.src ==> CanReplace(sub[[]], m.src[p])
    case Rename(p, _) => NothingStranded(m, p)
    case Replace(p, q) => CanReplace(m.src[p], m.src[q])
    case _ => true
  }

  // ---------- runs ----------

  /** Between the events of one operation any unfinished move may expire. */
  datatype Act = Ev(e: Event, given: map<nat, Path>) | Exp(i: nat)

  function EventsIn(acts: seq<Act>): seq<Event> {
    if acts == [] then []
    else (match acts[0] case Ev(e, _) => [e] case Exp(_) => []) + EventsIn(acts[1..])
  }

  ghost predicate ActOk(m: State, a: Act) {
    match a
    case Exp(i) => i < |m.pend|
    case Ev(e, given) =>
      e.wd in m.table && e.isDir && (e.kind == Create || (e.kind == MovedTo && UnusedCookie(m.pend, e.cookie))) ==>
        FreshWatches(m, EventPath(m, e), given)
  }

  function Do(m: State, a: Act, roots: Roots, now: int): State {
    match a
    case Exp(i) => if i < |m.pend| then Expire(m, i) else m
    case Ev(e, given) => Handle(m, e, given, roots, now)
  }

  ghost predicate RunOk(m: State, acts: seq<Act>, roots: Roots, now: int)
    decreases |acts|
  {
    acts != [] ==> ActOk(m, acts[0]) && RunOk(Do(m, acts[0], roots, now), acts[1..], roots, now)
  }

  function Run(m: State, acts: seq<Act>, roots: Roots, now: int): State
    decreases |acts|
  {
    if acts == [] then m else Run(Do(m, acts[0], roots, now), acts[1..], roots, now)
  }

  // ---------- what an arrival must find ----------

  /** What there is in the backup at `p` can be replaced by the source node. */
  predicate Ripe(m: State, p: Path) {
    p in m.src && p in m.dst ==> CanReplace(m.src[p], m.dst[p])
  }

  /** What unfinished moves left in the backup below `p` comes, when the backup's `p` is renamed to `q`
      as the source's has been, to lie where an unfinished move names it, and one of a directory if it
      is one. */
  ghost predicate LeftoversNamed(m: State, p: Path, q: Path) {
    forall y | y in m.dst && p <= y && Rebase(y, p, q) !in m.src ::
      && StaleAt(m.pend, Rebase(y, p, q))
      && (m.dst[y].Dir? ==> forall i | 0 <= i < |m.pend| && m.pend[i].path == Rebase(y, p, q) :: m.pend[i].isDir)
  }

  /** An arrival that completes an unfinished move carries along nothing but named leftovers; any
      other finds nothing that it cannot replace. */
  ghost predicate Fits(m: State, e: Event) {
    e.wd in m.table ==>
      match Find(m.pend, e.cookie)
      case Some(i) => LeftoversNamed(m, m.pend[i].path, EventPath(m, e))
      case None => Ripe(m, EventPath(m, e))
  }

  ghost predicate Fitting(m: State, acts: seq<Act>, roots: Roots, now: int)
    decreases |acts|
  {
    acts != [] ==>
      && (acts[0].Ev? && acts[0].e.kind == MovedTo ==> Fits(m, acts[0].e))
      && Fitting(Do(m, acts[0], roots, now), acts[1..], roots, now)
  }

  // ---------- the invariant ----------

  predicate StaleAt(pend: seq<Pending>, p: Path) {
    exists i | 0 <= i < |pend| :: pend[i].path <= p
  }

  predicate StaleDirAt(pend: seq<Pending>, p: Path) {
    exists i | 0 <= i < |pend| :: pend[i].isDir && pend[i].path <= p
  }

  /** The backup is the source with links rewritten, plus stale subtrees of unfinished moves. */
  ghost predicate TreesAgree(s: Tree, d: Tree, pend: seq<Pending>, roots: Roots) {
    && WfTree(s) && WfTree(d) && IsDir(s, []) && IsDir(d, [])
    && (forall p | p in s :: p in d && SameContent(d[p], Copied(s[p], roots, 0)))
    && (forall p | p in d :: p in s || StaleAt(pend, p))
    && (forall p | p in s :: !StaleAt(pend, p))
  }

  ghost predicate KernelSound(s: Tree, kernel: map<nat, Path>, table: map<nat, Path>) {
    forall w | w in kernel :: w in table && table[w] == kernel[w] && IsDir(s, kernel[w])
  }

  ghost predicate Injective(kernel: map<nat, Path>) {
    forall v, w | v in kernel && w in kernel && kernel[v] == kernel[w] :: v == w
  }

  ghost predicate AllWatched(s: Tree, kernel: map<nat, Path>) {
    forall p | IsDir(s, p) :: Watched(kernel, p)
  }

  ghost predicate TableSound(d: Tree, kernel: map<nat, Path>, table: map<nat, Path>, pend: seq<Pending>) {
    forall w | w in table :: IsDir(d, table[w]) && (w in kernel || StaleDirAt(pend, table[w]))
  }

  /** Every source directory is watched once, recorded at its present path; the other records are
      of directories below unfinished moves. */
  ghost predicate WatchesAgree(s: Tree, d: Tree, kernel: map<nat, Path>, table: map<nat, Path>, pend: seq<Pending>) {
    && KernelSound(s, kernel, table) && Injective(kernel)
    && AllWatched(s, kernel) && TableSound(d, kernel, table, pend)
  }

  ghost predicate PendingOk(d: Tree, pend: seq<Pending>) {
    && (forall i, j | 0 <= i < j < |pend| :: pend[i].cookie != pend[j].cookie)
    && (forall i | 0 <= i < |pend| :: !pend[i].isDir ==> !IsDir(d, pend[i].path))
    && |pend| <= PENDING_MAX
  }

  /** The invariant of the mirror. */
  ghost predicate Inv(m: State, roots: Roots) {
    && TreesAgree(m.src, m.dst, m.pend, roots)
    && WatchesAgree(m.src, m.dst, m.kernel, m.table, m.pend)
    && PendingOk(m.dst, m.pend)
    && !m.exit
  }
}
