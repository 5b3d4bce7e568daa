/** When a rename above what unfinished moves left behind keeps the mirror true, and a run in which
    it does not. */
module MirrorRenames {
  import opened Basics
  import opened Paths
  import opened Trees
  import opened Mirror
  import opened MirrorMoves
  import opened MirrorOperations
  import opened MirrorResults

  /** A promptly reported rename keeps the mirror true exactly when everything that it carries along
      in the backup besides the renamed tree is still named by an unfinished move. Otherwise a leftover
      comes to lie where neither the source nor an unfinished move accounts for it. */
  lemma RenameKeepsMirrorIff(b: State, p: Path, q: Path, acts: seq<Act>, roots: Roots, now: int)
    requires Inv(b, roots) && Scheduled(b, Rename(p, q), acts, roots, now) && Prompt(acts)
    ensures Inv(Run(Apply(b, Rename(p, q)), acts, roots, now), roots) <==> LeftoversNamed(Relocate(b, p, q), p, q)
  {
    hide Inv, LeftoversNamed, Renamed, Relocate, Feasible, Unnamed, EventsOf, Run, Apply, RunOk;
    PromptMove(b, Rename(p, q), acts, roots, now);
    RenamedIff(b, p, q, roots);
  }

  /** A promptly reported rename onto a file or link always does. */
  lemma ReplaceKeepsMirror(b: State, p: Path, q: Path, acts: seq<Act>, roots: Roots, now: int)
    requires Inv(b, roots) && Scheduled(b, Replace(p, q), acts, roots, now) && Prompt(acts)
    ensures Inv(Run(Apply(b, Replace(p, q)), acts, roots, now), roots)
  {
    hide Inv, Renamed, Relocate, Feasible, Unnamed, EventsOf, Run, Apply, RunOk;
    PromptMove(b, Replace(p, q), acts, roots, now);
    ReplacedAgrees(b, p, q, roots);
  }

  // ---------- a run in which it does not ----------

  /** A file `a/b`. */
  function ExampleSource(): Tree {
    map[[] := Dir, ["a"] := Dir, ["a", "b"] := File([], 0)]
  }

  function ExampleWatches(): map<nat, Path> {
    map[0 := [], 1 := ["a"]]
  }

  function Departure(): Act {
    Ev(Event(1, MovedFrom, 7, false, Some("b")), map[])
  }

  /** `a/b` is moved out; nothing has expired yet. */
  function ExampleTurns(): seq<Turn> {
    [Operate(MoveOut(["a", "b"]), [Departure()])]
  }

  /** The state then: `a/b` is still in the backup. */
  function Example(): State {
    State(map[[] := Dir, ["a"] := Dir], ExampleSource(), ExampleWatches(), ExampleWatches(),
          [Pending(7, false, ["a", "b"])], false)
  }

  lemma ExampleStarts(roots: Roots)
    ensures WfTree(ExampleSource()) && IsDir(ExampleSource(), [])
    ensures FreshWatches(State(ExampleSource(), map[], map[], map[], [], false), [], ExampleWatches())
    ensures Start(ExampleSource(), ExampleWatches(), roots, 0) ==
            State(ExampleSource(), ExampleSource(), ExampleWatches(), ExampleWatches(), [], false)
  {
    var s, given := ExampleSource(), ExampleWatches();
    assert Parent(["a"]) == [] && Parent(["a", "b"]) == ["a"];
    assert given[0] == [] && given[1] == ["a"];
    assert Watched(given, []) && Watched(given, ["a"]);
    var d := Overlay(s, map[[] := Dir], [], roots, 0);
    forall q | q in s && q != [] ensures [] < q {
    }
    assert d.Keys == s.Keys;
  }

  lemma ExampleIsReached(roots: Roots)
    ensures LegalRun(Start(ExampleSource(), ExampleWatches(), roots, 0), ExampleTurns(), roots, 0)
    ensures AfterAll(Start(ExampleSource(), ExampleWatches(), roots, 0), ExampleTurns(), roots, 0) == Example()
  {
    var s, given := ExampleSource(), ExampleWatches();
    var b := State(s, s, given, given, [], false);
    ExampleStarts(roots);
    DepartureHandled(b, roots);
    assert ExampleTurns()[1..] == [];
    assert After(b, ExampleTurns()[0], roots, 0) == Example();
  }

  lemma DepartureHandled(b: State, roots: Roots)
    requires b == State(ExampleSource(), ExampleSource(), ExampleWatches(), ExampleWatches(), [], false)
    ensures Scheduled(b, MoveOut(["a", "b"]), [Departure()], roots, 0)
    ensures Run(Apply(b, MoveOut(["a", "b"])), [Departure()], roots, 0) == Example()
  {
    hide WfTree;
    var p, e := ["a", "b"], Departure().e;
    var m := Apply(b, MoveOut(p));
    assert Parent(p) == ["a"] && b.kernel[1] == ["a"];
    assert Reports(b.kernel, e, MovedFrom, p, false);
    assert EventsIn([Departure()]) == [e] + EventsIn([]);
    assert m.src == map[[] := Dir, ["a"] := Dir];
    assert m.kernel == b.kernel;
    assert EventPath(m, e) == ["a"] + ["b"] == p;
    assert Handle(m, e, map[], roots, 0) == Example();
    assert [Departure()][1..] == [];
  }

  lemma ExampleAgrees(roots: Roots)
    ensures Inv(Example(), roots)
  {
    hide Inv, Start, LegalRun, AfterAll;
    ExampleStarts(roots);
    ExampleIsReached(roots);
    StartAgrees(ExampleSource(), ExampleWatches(), roots, 0);
    RunKeepsInv(Start(ExampleSource(), ExampleWatches(), roots, 0), ExampleTurns(), roots, 0);
  }

  function RenameEvents(): seq<Event> {
    [Event(0, MovedFrom, 8, true, Some("a")), Event(0, MovedTo, 8, true, Some("c")), Event(1, MoveSelf, 0, true, None)]
  }

  function RenameActs(): seq<Act> {
    [Ev(RenameEvents()[0], map[]), Ev(RenameEvents()[1], map[]), Ev(RenameEvents()[2], map[])]
  }

  lemma ExampleRename(roots: Roots)
    ensures Scheduled(Example(), Rename(["a"], ["c"]), RenameActs(), roots, 0) && Prompt(RenameActs())
    ensures !LeftoversNamed(Relocate(Example(), ["a"], ["c"]), ["a"], ["c"])
  {
    hide Inv, RunOk, Apply, LeftoversNamed, Relocate;
    var b, a, c := Example(), ["a"], ["c"];
    var evs := RenameEvents();
    ExampleAgrees(roots);
    PromptEvents(RenameActs());
    assert EventsIn(RenameActs()) == evs;
    assert Parent(a) == [] && Parent(c) == [] && b.kernel[0] == [] && b.kernel[1] == a;
    assert b.src.Keys == {[], a};
    assert Rebase(a, a, c) == c && c[0] != a[0] && b.pend[0].path[0] == a[0];
    assert EventsOf(b, Rename(a, c), evs);
    NoWatchesNeeded(b, a, c, evs[0], evs[1], evs[2], roots);
    ExampleLeftover();
  }

  lemma ExampleLeftover()
    ensures !LeftoversNamed(Relocate(Example(), ["a"], ["c"]), ["a"], ["c"])
  {
    hide Move;
    var b, a, c, y := Example(), ["a"], ["c"], ["a", "b"];
    MoveAt(b.src, a, c, ["c", "b"]);
    assert a + ["c", "b"][1..] == y && y !in b.src;
    assert a <= y && y in b.dst && Rebase(y, a, c) == ["c", "b"];
    assert b.pend[0].path == y && ["c", "b"][0] != y[0];
  }

  /** From the first copy on: `a/b` is moved out and, before it expires, `a` renamed to `c`. The
      copy of `a/b` stays in the backup as `c/b`, where no unfinished move names it. */
  lemma RenameCanBreakTheMirror(roots: Roots)
    ensures WfTree(ExampleSource()) && IsDir(ExampleSource(), [])
    ensures FreshWatches(State(ExampleSource(), map[], map[], map[], [], false), [], ExampleWatches())
    ensures LegalRun(Start(ExampleSource(), ExampleWatches(), roots, 0), ExampleTurns(), roots, 0)
    ensures var b := AfterAll(Start(ExampleSource(), ExampleWatches(), roots, 0), ExampleTurns(), roots, 0);
            && Scheduled(b, Rename(["a"], ["c"]), RenameActs(), roots, 0)
            && !Inv(Run(Apply(b, Rename(["a"], ["c"])), RenameActs(), roots, 0), roots)
  {
    hide *;
    ExampleStarts(roots);
    ExampleIsReached(roots);
    ExampleAgrees(roots);
    ExampleRename(roots);
    RenameKeepsMirrorIff(Example(), ["a"], ["c"], RenameActs(), roots, 0);
  }

  lemma NoWatchesNeeded(b: State, p: Path, q: Path, e: Event, f: Event, g: Event, roots: Roots)
    requires Inv(b, roots) && Allowed(b, Rename(p, q)) && EventsOf(b, Rename(p, q), [e, f, g])
    ensures RunOk(Apply(b, Rename(p, q)), [Ev(e, map[]), Ev(f, map[]), Ev(g, map[])], roots, 0)
  {
    hide TreesAgree, WatchesAgree, PendingOk, Allowed, Move, RebaseTable;
    var m := Apply(b, Rename(p, q));
    var acts := [Ev(e, map[]), Ev(f, map[]), Ev(g, map[])];
    var evs := [e, f, g];
    assert evs[0] == e && evs[1] == f && evs[2] == g;
    ReportFound(b, e, MovedFrom, p, IsDir(b.src, p), roots);
    var m1 := Handle(m, e, map[], roots, 0);
    assert m1.pend[|b.pend|].cookie == f.cookie;
    var m2 := Handle(m1, f, map[], roots, 0);
    var last := acts[1..][1..];
    assert acts[1..][0] == Ev(f, map[]) && last[0] == Ev(g, map[]) && last[1..] == [];
    assert g.kind == MoveSelf;
    assert RunOk(m2, last, roots, 0);
    assert RunOk(m1, acts[1..], roots, 0);
  }
}
