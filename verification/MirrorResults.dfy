/** What the invariant gives: whole runs, what the backup holds, what a rename does. */
module MirrorResults {
  import opened Paths
  import opened Trees
  import opened Mirror
  import opened MirrorSteps
  import opened MirrorMoves
  import opened MirrorHalves
  import opened MirrorEvents
  import opened MirrorOperations
  import opened MirrorPhases

  // ---------- runs ----------

  datatype Turn =
    | Quiet(i: nat)                        // an unfinished move expires
    | Operate(op: Op, acts: seq<Act>)      // an operation, and the handling of its events

  ghost predicate Legal(m: State, t: Turn, roots: Roots, now: int) {
    match t
    case Quiet(i) => i < |m.pend|
    case Operate(op, acts) => Scheduled(m, op, acts, roots, now) && Fitting(Apply(m, op), acts, roots, now)
  }

  function After(m: State, t: Turn, roots: Roots, now: int): State {
    match t
    case Quiet(i) => Do(m, Exp(i), roots, now)
    case Operate(op, acts) => Run(Apply(m, op), acts, roots, now)
  }

  ghost predicate LegalRun(m: State, turns: seq<Turn>, roots: Roots, now: int)
    decreases |turns|
  {
    turns != [] ==> Legal(m, turns[0], roots, now) && LegalRun(After(m, turns[0], roots, now), turns[1..], roots, now)
  }

  function AfterAll(m: State, turns: seq<Turn>, roots: Roots, now: int): State
    decreases |turns|
  {
    if turns == [] then m else AfterAll(After(m, turns[0], roots, now), turns[1..], roots, now)
  }

  lemma {:induction false} RunKeepsInv(m: State, turns: seq<Turn>, roots: Roots, now: int)
    requires Inv(m, roots) && LegalRun(m, turns, roots, now)
    ensures Inv(AfterAll(m, turns, roots, now), roots)
    decreases |turns|
  {
    hide Inv, Apply, Run, Expire, Scheduled, Fitting;
    if turns != [] {
      var m' := After(m, turns[0], roots, now);
      match turns[0] {
        case Quiet(i) => ExpireKeepsInv(m, i, roots);
        case Operate(op, acts) => OperationKeepsInv(m, op, acts, roots, now);
      }
      RunKeepsInv(m', turns[1..], roots, now);
    }
  }

  /** child_loop: copy the source into an empty backup, then watch the source's directories. */
  function Start(s: Tree, given: map<nat, Path>, roots: Roots, now: int): State {
    State(s, Overlay(s, map[[] := Dir], [], roots, now), given, given, [], false)
  }

  lemma StartCopies(s: Tree, roots: Roots, now: int)
    requires WfTree(s) && IsDir(s, [])
    ensures var d := Overlay(s, map[[] := Dir], [], roots, now);
            WfTree(d) && d.Keys == s.Keys && forall q | q in s :: SameContent(d[q], Copied(s[q], roots, 0))
  {
    var d := Overlay(s, map[[] := Dir], [], roots, now);
    forall q | q in s && q != [] ensures q in d && d[q] == Copied(s[q], roots, now) {
      assert [] < q;
    }
    assert d.Keys == s.Keys;
    forall q | q in d && q != [] ensures Parent(q) in d && d[Parent(q)].Dir? {
      assert Parent(q) in s;
    }
  }

  lemma StartAgrees(s: Tree, given: map<nat, Path>, roots: Roots, now: int)
    requires WfTree(s) && IsDir(s, [])
    requires FreshWatches(State(s, map[], map[], map[], [], false), [], given)
    ensures Inv(Start(s, given, roots, now), roots)
  {
    hide Overlay;
    StartCopies(s, roots, now);
    forall q | IsDir(s, q) ensures Watched(given, q) {
      assert q in NewDirs(s, []);
    }
  }

  /** In every reachable state the backup holds the source, links rewritten, and nothing else but
      stale subtrees named by unfinished moves; and every source directory has exactly one record,
      at its present path, the other records being below unfinished moves of directories. */
  lemma MirrorNeverDrifts(s: Tree, given: map<nat, Path>, turns: seq<Turn>, roots: Roots, now: int)
    requires WfTree(s) && IsDir(s, [])
    requires FreshWatches(State(s, map[], map[], map[], [], false), [], given)
    requires LegalRun(Start(s, given, roots, now), turns, roots, now)
    ensures var m := AfterAll(Start(s, given, roots, now), turns, roots, now);
            && (forall p | p in m.src :: p in m.dst && Image(m.src[p], m.dst[p], roots))
            && (forall p | p in m.dst && p !in m.src :: StaleAt(m.pend, p))
            && (forall p | IsDir(m.src, p) :: exists w | w in m.table :: m.table[w] == p)
            && (forall v, w | v in m.table && w in m.table && m.table[v] == m.table[w] && m.table[v] in m.src :: v == w)
            && (forall w | w in m.table :: IsDir(m.src, m.table[w]) || StaleDirAt(m.pend, m.table[w]))
  {
    StartAgrees(s, given, roots, now);
    RunKeepsInv(Start(s, given, roots, now), turns, roots, now);
    var m := AfterAll(Start(s, given, roots, now), turns, roots, now);
    RecordedOnce(m, roots);
    ImagesInBackup(m, roots);
  }

  lemma ImagesInBackup(m: State, roots: Roots)
    requires Inv(m, roots)
    ensures forall p | p in m.src :: p in m.dst && Image(m.src[p], m.dst[p], roots)
  {
    hide WatchesAgree, PendingOk, Image;
    forall p | p in m.src ensures p in m.dst && Image(m.src[p], m.dst[p], roots) {
      CopyIsImage(m.src[p], m.dst[p], roots);
    }
  }

  /** So a link in the source to `r` below its root is, in every reachable state, one to `r` below
      the root of the backup. */
  lemma MirroredLinks(m: State, p: Path, r: Path, src: Path, dst: Path, roots: Roots)
    requires Inv(m, roots) && roots.src == Text(src) && roots.dst == Text(dst)
    requires Canonical(src) && Canonical(r) && src + r != []
    requires p in m.src && m.src[p].Link? && m.src[p].text == Text(src + r)
    ensures p in m.dst && m.dst[p].Link? && m.dst[p].text == Text(dst + r)
  {
    hide Inv, Retargeted, Text;
    ImagesInBackup(m, roots);
    assert Canonical(src + r) && (src + r)[|src|..] == r;
    RetargetedPath(src + r, m.dst[p].text, src, dst);
  }

  lemma RecordedOnce(m: State, roots: Roots)
    requires Inv(m, roots)
    ensures forall p | IsDir(m.src, p) :: exists w | w in m.table :: m.table[w] == p
    ensures forall v, w | v in m.table && w in m.table && m.table[v] == m.table[w] && m.table[v] in m.src :: v == w
  {
    forall p | IsDir(m.src, p) ensures exists w | w in m.table :: m.table[w] == p {
      assert Watched(m.kernel, p);
      var w :| w in m.kernel && m.kernel[w] == p;
      assert w in m.table;
    }
    forall w | w in m.table && m.table[w] in m.src ensures w in m.kernel {
      assert !StaleAt(m.pend, m.table[w]);
    }
  }

  /** Once no move is unfinished the backup is the source's image, path for path. */
  lemma QuietMirrorIsExact(m: State, roots: Roots)
    requires Inv(m, roots) && m.pend == []
    ensures m.dst.Keys == m.src.Keys
    ensures m.table == m.kernel
    ensures m.table.Values == NewDirs(m.src, [])
  {
    assert forall p :: !StaleAt(m.pend, p) && !StaleDirAt(m.pend, p);
    assert m.table.Keys == m.kernel.Keys;
    forall p | p in NewDirs(m.src, []) ensures p in m.table.Values {
      assert Watched(m.kernel, p);
    }
  }

  // ---------- a rename that is handled at once ----------

  ghost predicate Prompt(acts: seq<Act>) {
    forall i | 0 <= i < |acts| :: acts[i].Ev?
  }

  lemma PromptEvents(acts: seq<Act>)
    requires Prompt(acts)
    ensures |EventsIn(acts)| == |acts| && forall i | 0 <= i < |acts| :: EventsIn(acts)[i] == acts[i].e
  {
    if acts != [] {
      PromptEvents(acts[1..]);
    }
  }

  /** The two events of a rename, handled one right after the other. */
  lemma HandlePair(b: State, op: Op, e: Event, f: Event, g1: map<nat, Path>, g2: map<nat, Path>, roots: Roots, now: int)
    requires Inv(b, roots) && IsMove(op) && Allowed(b, op) && UnusedCookie(b.pend, e.cookie)
    requires Reports(b.kernel, e, MovedFrom, op.at, IsDir(b.src, op.at))
    requires Reports(b.kernel, f, MovedTo, op.to, IsDir(b.src, op.at)) && e.cookie == f.cookie
    ensures var m := Relocate(b, op.at, op.to);
            Handle(Handle(m, e, g1, roots, now), f, g2, roots, now) == Renamed(b, op.at, op.to)
  {
    hide Inv, Allowed, Reports, Renamed, Relocate, Handle, Moving, UnusedCookie;
    RenameReported(b, op, e, g1, roots, now);
    var x := Pending(e.cookie, IsDir(b.src, op.at), op.at);
    SecondHalf(Handle(Relocate(b, op.at, op.to), e, g1, roots, now), f, x, op, b, g2, roots, now);
  }

  lemma PromptMove(b: State, op: Op, acts: seq<Act>, roots: Roots, now: int)
    requires Inv(b, roots) && IsMove(op) && Scheduled(b, op, acts, roots, now) && Prompt(acts)
    ensures Run(Apply(b, op), acts, roots, now) == Renamed(b, op.at, op.to)
  {
    hide Inv, Handle, Renamed, Relocate, RunOk, Unnamed;
    PromptEvents(acts);
    assert MoveEvents(b, op.at, op.to, EventsIn(acts));
    var m, m' := Relocate(b, op.at, op.to), Renamed(b, op.at, op.to);
    assert Apply(b, op) == m;
    var e, f := acts[0], acts[1];
    HandlePair(b, op, e.e, f.e, e.given, f.given, roots, now);
    var rest := acts[2..];
    assert acts[1..][0] == f && acts[1..][1..] == rest;
    assert Run(m, acts, roots, now) == Run(m', rest, roots, now);
    if |acts| == 3 {
      MoveHasPlace(b, op, roots);
      MoveSelfAfterRename(b, op.at, op.to, acts[2].e, acts[2].given, roots, now);
      assert rest[0] == acts[2] && rest[1..] == [];
      assert Run(m', rest, roots, now) == Run(m', rest[1..], roots, now);
    } else {
      assert rest == [];
    }
  }

  lemma MoveSelfAfterRename(b: State, p: Path, q: Path, e: Event, given: map<nat, Path>, roots: Roots, now: int)
    requires Inv(b, roots) && p != [] && q != [] && ReportsSelf(b.kernel, e, MoveSelf, p)
    ensures Handle(Renamed(b, p, q), e, given, roots, now) == Renamed(b, p, q)
  {
    hide TreesAgree, WatchesAgree, PendingOk, Move;
    SelfFound(b, e, MoveSelf, p, roots);
    assert Inert(Renamed(b, p, q), e);
    InertDoesNothing(Renamed(b, p, q), e, given, roots, now);
  }
}
