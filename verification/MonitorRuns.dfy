/** The monitor process follows the source: each operation's events, handled by the program's own
    loop, keep the mirror's invariant. */
module MonitorRuns {
  import opened Paths
  import opened Trees
  import opened Mirror
  import opened MirrorSteps
  import opened MirrorHalves
  import opened MirrorEvents
  import opened MirrorOperations
  import opened MirrorPhases
  import opened Monitor
  import opened MonitorLoop
  import Results = MirrorResults

  // ---------- the events of an operation find what they must ----------

  lemma AnnouncedIsSmooth(m: State, e: Event, p: Path, roots: Roots)
    requires Awaited(m, p, roots) && Announces(m, e, p)
    ensures Smooth(m, e)
  {
    if m.src[p].Dir? {
      EventNamesPath(m, e, p);
      AwaitedDirectoryIsNew(m, p, roots);
    }
  }

  lemma AwaitedDirectoryIsNew(m: State, p: Path, roots: Roots)
    requires Awaited(m, p, roots) && m.src[p].Dir?
    ensures NewDirectory(m, p)
  {
    hide TableSound, AllWatched, PendingOk;
    var h :| Inv(h, roots) && Arrived(h, m, p) && LeafOnly(h.src, m.src, p);
    ClearPlaceIsEmpty(h.src, h.dst, h.pend, p, roots);
    forall w | w in m.kernel ensures !(p <= m.kernel[w]) {
      assert IsDir(h.src, h.kernel[w]);
    }
  }

  lemma MatchedArrival(m: State, e: Event, x: Pending, op: Op, c: State, roots: Roots)
    requires Moving(m, x, op, c, roots) && Completes(c, e, x, op.to)
    ensures e.kind == MovedTo && !Adopts(m, e)
  {
    hide Inv, Allowed, Relocate;
    var i :| 0 <= i < |m.pend| && m.pend[i] == x && HalfKnown(m, c, op, i, roots);
    FoundOnce(m.pend, i);
  }

  lemma PhaseIsSmooth(m: State, evs: seq<Event>, ph: Phase, roots: Roots)
    requires Underway(m, evs, ph, roots) && evs != []
    ensures Smooth(m, evs[0])
  {
    hide Inv, Awaited, Announces, Moving, Completes, RootSafe, OnlySelfMoves, Graft, RebaseTable, Outside, Unnamed;
    match ph {
      case Before(b, op) => FirstEventIsSmooth(b, op, evs);
      case Arriving(p) => AnnouncedIsSmooth(m, evs[0], p, roots);
      case HalfMoved(x, op, c) => MatchedArrival(m, evs[0], x, op, c, roots);
      case Done => assert evs[0] in evs;
      case Opened(_) =>
    }
  }

  lemma FirstEventIsSmooth(b: State, op: Op, evs: seq<Event>)
    requires Allowed(b, op) && EventsOf(b, op, evs) && !op.Plant? && evs != []
    ensures Smooth(Apply(b, op), evs[0])
  {
    hide Graft, RebaseTable, Outside, Move, Remove, NewDirectory, EventPath, Unnamed;
  }

  lemma StillRunning(m: State, evs: seq<Event>, ph: Phase, roots: Roots)
    requires Underway(m, evs, ph, roots)
    ensures !m.exit
  {
    hide TreesAgree, WatchesAgree, PendingOk, Announces, Completes, OnlySelfMoves, EventsOf, Allowed, Ripe;
  }

  /** Whatever the next read holds of an operation's events, they find what they must and none of
      them ends the process. */
  lemma {:induction false} ReadIsSmooth(m: State, evs: seq<Event>, rest: seq<Event>, ph: Phase, roots: Roots, now: int)
    requires Underway(m, evs + rest, ph, roots) && Safe(m, ph)
    ensures SmoothAll(m, evs, true, roots, now)
    decreases |evs|
  {
    hide Underway, Handle, ActOk, Smooth, Safe, Fits;
    if evs != [] {
      assert (evs + rest)[0] == evs[0] && (evs + rest)[1..] == evs[1..] + rest;
      if evs[0].kind == MovedTo {
        SafeFits(m, evs + rest, ph, roots, now);
      }
      PhaseIsSmooth(m, evs + rest, ph, roots);
      forall given | ActOk(m, Ev(evs[0], given))
        ensures var m' := Handle(m, evs[0], given, roots, now);
                !m'.exit && SmoothAll(m', evs[1..], true, roots, now)
      {
        var ph' := AfterEvent(m, evs + rest, ph, given, roots, now);
        var m' := Handle(m, evs[0], given, roots, now);
        StillRunning(m', evs[1..] + rest, ph', roots);
        ReadIsSmooth(m', evs[1..], rest, ph', roots, now);
      }
    }
  }

  // ---------- the process ----------

  /** child_loop up to the event loop: the first copy, then the first watches. */
  method Begin(p: Process, now: int)
    requires p.Valid() && IsDir(p.src.tree, []) && p.dst.tree == map[[] := Dir]
    requires p.State() == State(p.src.tree, p.dst.tree, map[], map[], [], false)
    modifies p.dst, p.watch, p.ino
    ensures p.Valid() && Inv(p.State(), p.roots)
  {
    hide Overlay, Inv, FreshWatches, Injective, NewDirs, WfTree, WatchMap.Table;
    ghost var s := p.src.tree;
    FirstCopyFits(s);
    var _ := p.dst.CopyTree(p.src, [], p.roots, now);
    ghost var given;
    NoneWatched(p.ino.watched, []);
    var ok;
    ok, given := p.AddWatchTree([]);
    NoneYet(given);
    GivenAreFresh(State(s, map[], map[], map[], [], false), [], given, 0);
    Results.StartAgrees(s, given, p.roots, now);
  }

  lemma FirstCopyFits(s: Tree)
    requires IsDir(s, [])
    ensures CopyFits(s, map[[] := Dir], [])
  {
  }

  lemma NoneWatched(kernel: map<nat, Path>, p: Path)
    requires kernel == map[]
    ensures NothingWatchedBelow(kernel, p)
  {
  }

  lemma NoneYet(given: map<nat, Path>)
    ensures map[] + given == given
  {
  }

  /** One turn of the outer loop, at a given time: old moves expire, then what read(2) delivers is
      handled. */
  datatype Reading = Reading(now: int, events: seq<Event>)

  function AllEvents(readings: seq<Reading>): seq<Event> {
    if readings == [] then [] else readings[0].events + AllEvents(readings[1..])
  }

  method TurnOfLoop(p: Process, reading: Reading, ghost rest: seq<Event>, ghost ph: Phase) returns (ghost ph': Phase)
    requires p.Valid() && Underway(p.State(), reading.events + rest, ph, p.roots) && Safe(p.State(), ph)
    modifies p`exit, p.dst, p.watch, p.ino, p.pm`count, p.pm.pending
    ensures p.Valid() && Underway(p.State(), rest, ph', p.roots) && Safe(p.State(), ph')
  {
    hide Underway, SmoothAll, Safe, Fitting;
    ghost var m := p.State();
    StillRunning(m, reading.events + rest, ph, p.roots);
    ghost var acts := p.ExpireOld(reading.now);
    NoEventsIn(acts);
    FittingUpTo(m, acts, p.roots, reading.now);
    assert EventsIn(acts) + (reading.events + rest) == reading.events + rest;
    ph' := RunUnderway(m, acts, reading.events + rest, ph, p.roots, reading.now);
    m := p.State();
    StillRunning(m, reading.events + rest, ph', p.roots);
    ReadIsSmooth(m, reading.events, rest, ph', p.roots, reading.now);
    var n;
    n, acts := p.HandleEvents(reading.events, true, reading.now);
    assert reading.events[..n] == reading.events;
    SafeRunFits(m, acts, rest, ph', p.roots, reading.now);
    ph' := RunUnderway(m, acts, rest, ph', p.roots, reading.now);
  }

  lemma NoEventsIn(acts: seq<Act>)
    requires forall k | 0 <= k < |acts| :: acts[k].Exp?
    ensures EventsIn(acts) == []
  {
  }

  /** The events of an operation, however they are spread over readings between which moves expire:
      afterwards the mirror agrees with the source again. */
  method Follow(p: Process, ghost b: State, ghost op: Op, readings: seq<Reading>)
    requires p.Valid() && Inv(b, p.roots) && p.State() == Apply(b, op)
    requires Allowed(b, op) && EventsOf(b, op, AllEvents(readings)) && Clean(b, op)
    modifies p`exit, p.dst, p.watch, p.ino, p.pm`count, p.pm.pending
    ensures p.Valid() && Inv(p.State(), p.roots)
  {
    hide Inv, Feasible, Unnamed, EventsOf, Clean, Apply, Underway, Safe;
    ghost var ph := Begins(b, op, AllEvents(readings), p.roots);
    var k := 0;
    assert readings[0..] == readings;
    while k < |readings|
      invariant k <= |readings| && p.Valid() && Underway(p.State(), AllEvents(readings[k..]), ph, p.roots) && Safe(p.State(), ph)
    {
      assert readings[k..][0] == readings[k] && readings[k..][1..] == readings[k + 1..];
      ph := TurnOfLoop(p, readings[k], AllEvents(readings[k + 1..]), ph);
      k := k + 1;
    }
    assert AllEvents(readings[k..]) == [];
    AtTheEnd(p.State(), ph, p.roots);
  }

  /** A turn of the loop that reads no event of an operation, because a signal or an event that no
      longer matters ended the read: the moves a second old expire. */
  method Idle(p: Process, now: int)
    requires p.Valid() && Inv(p.State(), p.roots)
    modifies p.dst, p.watch, p.ino, p.pm`count, p.pm.pending
    ensures p.Valid() && Inv(p.State(), p.roots)
    ensures forall x :: x in p.pm.Contents() <==> x in old(p.pm.Contents()) && now - x.t < 1
  {
    hide Inv;
    ghost var acts := p.ExpireOld(now);
    NoEventsIn(acts);
    ExpiriesKeepInv(old(p.State()), acts, p.roots, now);
  }

  // ---------- a whole session ----------

  /** What happens around the process: an operation and the readings that report it, or nothing. */
  datatype Turn = Work(op: Op, readings: seq<Reading>) | Wait(now: int)

  ghost predicate Possible(m: State, t: Turn) {
    t.Work? ==> Allowed(m, t.op) && EventsOf(m, t.op, AllEvents(t.readings)) && Clean(m, t.op)
  }

  /** The operation itself: the source changes, and with it what the kernel watches. */
  method Operate(p: Process, op: Op)
    requires p.Valid() && Inv(p.State(), p.roots) && Allowed(p.State(), op)
    modifies p.src, p.ino
    ensures p.Valid() && p.State() == Apply(old(p.State()), op)
  {
    hide Graft, Move, Remove, RebaseTable, Outside;
    OperationKeepsTree(p.State(), op, p.roots);
    OperationKeepsDescriptors(p.State(), op);
    var m := Apply(p.State(), op);
    p.src.tree := m.src;
    p.ino.watched := m.kernel;
  }

  lemma OperationKeepsTree(b: State, op: Op, roots: Roots)
    requires Inv(b, roots) && Allowed(b, op)
    ensures WfTree(Apply(b, op).src) && IsDir(Apply(b, op).src, [])
  {
    hide WatchesAgree, PendingOk, Move, Graft, StaleAt;
    match op {
      case Plant(p, sub, _) => GraftFacts(b.src, p, sub);
      case Rename(p, q) => LostTree(b, p, q, roots);
      case Replace(p, q) => ReplacedSource(b, p, q, roots);
      case _ => RemoveKeepsWf(b.src, op.at);
    }
  }

  lemma OperationKeepsDescriptors(b: State, op: Op)
    ensures Apply(b, op).kernel.Keys <= b.kernel.Keys
  {
    hide Graft, Move, Remove;
  }

  /** From the first copy on, through any sequence of operations and waits that the world comes up
      with: whenever no event is outstanding, backup and records agree with the source. */
  method Session(p: Process, world: (nat, State) -> Turn, turns: nat, now: int)
    requires p.Valid() && IsDir(p.src.tree, []) && p.dst.tree == map[[] := Dir]
    requires p.State() == State(p.src.tree, p.dst.tree, map[], map[], [], false)
    requires forall k: nat, m: State | Inv(m, p.roots) :: Possible(m, world(k, m))
    modifies p, p.src, p.dst, p.watch, p.ino, p.pm, p.pm.pending
    ensures p.Valid() && Inv(p.State(), p.roots)
  {
    hide Inv, Feasible, Unnamed, EventsOf, Clean, Apply;
    Begin(p, now);
    var k := 0;
    while k < turns
      invariant k <= turns && p.Valid() && Inv(p.State(), p.roots)
    {
      match world(k, p.State()) {
        case Work(op, readings) =>
          ghost var b := p.State();
          Operate(p, op);
          Follow(p, b, op, readings);
        case Wait(t) => Idle(p, t);
      }
      k := k + 1;
    }
  }
}
