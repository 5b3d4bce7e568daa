/** An operation on the source from event to event, with expiries of unfinished moves anywhere in
    between. */
module MirrorPhases {
  import opened Basics
  import opened Paths
  import opened Trees
  import opened Mirror
  import opened MirrorSteps
  import opened MirrorMoves
  import opened MirrorHalves
  import opened MirrorEvents
  import opened MirrorOperations

  /** How far the monitor has got with an operation: not begun; nothing left that matters; a node
      arrived and unknown; a file made but not closed; a move half known, which apart from that is
      a move in the state `c`. */
  datatype Phase =
    | Before(b: State, op: Op)
    | Done
    | Arriving(p: Path)
    | Opened(p: Path)
    | HalfMoved(x: Pending, op: Op, c: State)

  ghost predicate OnlySelfMoves(m: State, evs: seq<Event>) {
    forall f | f in evs :: f.kind == MoveSelf && f.name == None && RootSafe(m, f.wd)
  }

  /** The state `m` is in a phase of an operation of which the events `evs` are still to come. */
  ghost predicate Underway(m: State, evs: seq<Event>, ph: Phase, roots: Roots) {
    match ph
    case Before(b, op) => Inv(b, roots) && Allowed(b, op) && EventsOf(b, op, evs) && m == Apply(b, op) && !op.Plant?
    case Done => Inv(m, roots) && forall e | e in evs :: Inert(m, e)
    case Arriving(p) =>
      && Awaited(m, p, roots) && evs != [] && Announces(m, evs[0], p) && OnlySelfMoves(m, evs[1..])
      && (evs[0].kind != MovedTo ==> Ripe(m, p))
    case Opened(p) =>
      && Awaited(m, p, roots) && |evs| == 2 && Announces(m, evs[1], p) && m.src[p].File? && Ripe(m, p)
      && evs[0].kind == Create && !evs[0].isDir && evs[0].wd == evs[1].wd && evs[0].name == evs[1].name
    case HalfMoved(x, op, c) =>
      Moving(m, x, op, c, roots) && evs != [] && Completes(c, evs[0], x, op.to) && OnlySelfMoves(m, evs[1..])
  }

  /** Whatever expires, what is still to arrive will find what it must. */
  ghost predicate Safe(m: State, ph: Phase) {
    match ph
    case Before(b, op) => Feasible(b, op) && Clean(b, op)
    case Arriving(p) => Ripe(m, p)
    case HalfMoved(_, op, c) => Feasible(c, op) && Clean(c, op)
    case _ => true
  }

  // ---------- the first phase ----------

  lemma PlantBegins(b: State, op: Op, evs: seq<Event>, roots: Roots)
    requires Inv(b, roots) && op.Plant? && Allowed(b, op) && EventsOf(b, op, evs)
    ensures var ph := if |evs| == 2 then Opened(op.at) else Arriving(op.at);
            Underway(Apply(b, op), evs, ph, roots) && (Clean(b, op) ==> Safe(Apply(b, op), ph))
  {
    hide Awaited, Inv, Graft, Ripe, Unnamed;
    var m, e := Apply(b, op), evs[|evs| - 1];
    PlantArrives(b, op, roots);
    ReportFound(b, e, e.kind, op.at, e.isDir, roots);
    AwaitedIsThere(m, op.at, roots);
    assert Announces(m, e, op.at);
    if |evs| == 2 {
      ReportFound(b, evs[0], Create, op.at, false, roots);
      SameWatch(b, evs[0], e, roots);
    }
  }

  lemma Begins(b: State, op: Op, evs: seq<Event>, roots: Roots) returns (ph: Phase)
    requires Inv(b, roots) && Allowed(b, op) && EventsOf(b, op, evs)
    ensures Underway(Apply(b, op), evs, ph, roots)
    ensures Clean(b, op) ==> Safe(Apply(b, op), ph)
  {
    hide Inv, Feasible, Unnamed, EventsOf, Clean, Apply;
    if op.Plant? {
      PlantBegins(b, op, evs, roots);
      ph := if |evs| == 2 then Opened(op.at) else Arriving(op.at);
    } else {
      ph := Before(b, op);
    }
  }

  // ---------- an expiry ----------

  lemma SelfMovesSurviveExpiry(m: State, evs: seq<Event>, i: nat)
    requires OnlySelfMoves(m, evs) && i < |m.pend|
    ensures OnlySelfMoves(Expire(m, i), evs)
  {
    forall f | f in evs ensures RootSafe(Expire(m, i), f.wd) {
      assert RootSafe(m, f.wd);
    }
  }

  lemma AfterExpiry(m: State, evs: seq<Event>, ph: Phase, i: nat, roots: Roots) returns (ph': Phase)
    requires Underway(m, evs, ph, roots) && i < |m.pend|
    ensures Underway(Expire(m, i), evs, ph', roots)
    ensures Safe(m, ph) ==> Safe(Expire(m, i), ph')
  {
    hide Inv, Feasible, Unnamed, EventsOf, Clean, Apply, Expire, Awaited, Announces, Moving, Completes, Inert, OnlySelfMoves, Ripe;
    ph' := ph;
    match ph {
      case Before(b, op) =>
        ApplyKeepsPending(b, op);
        ExpiryKeepsOperation(b, op, evs, i, roots);
        ExpiryBeforeEvents(b, op, i, roots);
        ExpireKeepsInv(b, i, roots);
        ph' := Before(Expire(b, i), op);
      case Done =>
        ExpireKeepsInv(m, i, roots);
        forall e | e in evs ensures Inert(Expire(m, i), e) {
          InertStaysSo(m, e, i);
        }
      case Arriving(p) =>
        ArrivalSurvivesExpiry(m, evs[0], p, i, roots);
        SelfMovesSurviveExpiry(m, evs[1..], i);
      case Opened(p) =>
        ArrivalSurvivesExpiry(m, evs[1], p, i, roots);
        ExpireKeepsSource(m, i);
      case HalfMoved(x, op, c) =>
        ph' := ExpiryBetweenHalves(m, evs, x, op, c, i, roots);
    }
  }

  lemma ExpiryBetweenHalves(m: State, evs: seq<Event>, x: Pending, op: Op, c: State, j: nat, roots: Roots) returns (ph: Phase)
    requires Underway(m, evs, HalfMoved(x, op, c), roots) && j < |m.pend|
    ensures Underway(Expire(m, j), evs, ph, roots)
    ensures Safe(m, HalfMoved(x, op, c)) ==> Safe(Expire(m, j), ph)
  {
    hide Inv, Feasible, Unnamed, Expire, Awaited, Announces, OnlySelfMoves, Ripe, HalfKnown, NothingStranded, CanReplace;
    SelfMovesSurviveExpiry(m, evs[1..], j);
    var i :| 0 <= i < |m.pend| && m.pend[i] == x && HalfKnown(m, c, op, i, roots);
    MovingIsFeasible(m, x, op, c, roots);
    if i == j {
      FirstHalfExpires(m, evs[0], x, op, c, i, roots);
      ph := Arriving(op.to);
    } else {
      var c' := OtherExpires(m, x, op, c, i, j, roots);
      ph := HalfMoved(x, op, c');
    }
  }

  lemma ApplyKeepsPending(b: State, op: Op)
    ensures Apply(b, op).pend == b.pend && Apply(b, op).exit == b.exit
  {
  }

  // ---------- an event ----------

  lemma SelfMovesBecomeInert(m: State, m': State, evs: seq<Event>)
    requires OnlySelfMoves(m, evs) && forall w | RootSafe(m, w) :: RootSafe(m', w)
    ensures forall e | e in evs :: Inert(m', e)
  {
    hide RootSafe;
  }

  /** The first event of an operation that plants nothing. */
  lemma FirstEvent(b: State, op: Op, evs: seq<Event>, given: map<nat, Path>, roots: Roots, now: int) returns (ph: Phase)
    requires Underway(Apply(b, op), evs, Before(b, op), roots)
    ensures evs != [] && Underway(Handle(Apply(b, op), evs[0], given, roots, now), evs[1..], ph, roots)
    ensures Safe(Apply(b, op), Before(b, op)) ==> Safe(Handle(Apply(b, op), evs[0], given, roots, now), ph)
  {
    hide Inv, Feasible, Unnamed, Handle, Reports, ReportsSelf, Underway, Apply, Clean;
    ph := Done;
    match op {
      case Unlink(p) => AfterUnlink(b, p, evs, given, roots, now);
      case Rmdir(p) => AfterRmdir(b, p, evs, given, roots, now);
      case MoveOut(p) => AfterMoveOut(b, p, evs, given, roots, now);
      case Rename(p, q) => ph := AfterMovedFrom(b, op, evs, given, roots, now);
      case Replace(p, q) => ph := AfterMovedFrom(b, op, evs, given, roots, now);
      case Plant(_, _, _) => PlantNotBefore(b, op, evs, roots);
    }
  }

  lemma PlantNotBefore(b: State, op: Op, evs: seq<Event>, roots: Roots)
    requires Underway(Apply(b, op), evs, Before(b, op), roots)
    ensures !op.Plant?
  {
  }

  lemma AfterUnlink(b: State, p: Path, evs: seq<Event>, given: map<nat, Path>, roots: Roots, now: int)
    requires Underway(Apply(b, Unlink(p)), evs, Before(b, Unlink(p)), roots)
    ensures evs != [] && Underway(Handle(Apply(b, Unlink(p)), evs[0], given, roots, now), evs[1..], Done, roots)
  {
    hide Inv, Allowed, Handle, Reports;
    UnlinkReported(b, p, evs[0], given, roots, now);
  }

  lemma AfterRmdir(b: State, p: Path, evs: seq<Event>, given: map<nat, Path>, roots: Roots, now: int)
    requires Underway(Apply(b, Rmdir(p)), evs, Before(b, Rmdir(p)), roots)
    ensures evs != [] && Underway(Handle(Apply(b, Rmdir(p)), evs[0], given, roots, now), evs[1..], Done, roots)
  {
    hide Inv, Handle, Reports, ReportsSelf, Forget, Inert, Gone;
    var self, gone, entry :|
      && ReportsSelf(b.kernel, self, DeleteSelf, p)
      && ReportsSelf(b.kernel, gone, Ignored, p)
      && Reports(b.kernel, entry, Delete, p, true)
      && (evs == [self, gone, entry] || evs == [entry, self, gone]);
    RmdirReported(b, p, evs[0], given, roots, now);
    RmdirLeavesInert(b, p, self, roots);
    RmdirLeavesInert(b, p, gone, roots);
    RmdirLeavesInert(b, p, entry, roots);
    assert forall f | f in evs[1..] :: f in evs;
  }

  lemma AfterMoveOut(b: State, p: Path, evs: seq<Event>, given: map<nat, Path>, roots: Roots, now: int)
    requires Underway(Apply(b, MoveOut(p)), evs, Before(b, MoveOut(p)), roots)
    ensures evs != [] && Underway(Handle(Apply(b, MoveOut(p)), evs[0], given, roots, now), evs[1..], Done, roots)
  {
    hide Inv, Handle, Reports;
    MoveOutReported(b, p, evs[0], given, roots, now);
    forall f | f in evs[1..] ensures Inert(Handle(Leave(b, p), evs[0], given, roots, now), f) {
      assert f == evs[1];
      MoveSelfInert(b, p, f, roots);
    }
  }

  lemma AfterMovedFrom(b: State, op: Op, evs: seq<Event>, given: map<nat, Path>, roots: Roots, now: int) returns (ph: Phase)
    requires Underway(Apply(b, op), evs, Before(b, op), roots) && IsMove(op)
    ensures evs != [] && ph == HalfMoved(Pending(evs[0].cookie, IsDir(b.src, op.at), op.at), op, b)
    ensures Underway(Handle(Apply(b, op), evs[0], given, roots, now), evs[1..], ph, roots)
  {
    hide Inv, Unnamed, Handle, Reports, Moving, Relocate;
    var x := Pending(evs[0].cookie, IsDir(b.src, op.at), op.at);
    assert MoveEvents(b, op.at, op.to, evs) && Apply(b, op) == Relocate(b, op.at, op.to);
    ph := HalfMoved(x, op, b);
    RenameReported(b, op, evs[0], given, roots, now);
    MoveSelfComes(b, op, evs, x, roots);
  }

  lemma MoveSelfComes(b: State, op: Op, evs: seq<Event>, x: Pending, roots: Roots)
    requires Inv(b, roots) && op.at != [] && IsMove(op) && MoveEvents(b, op.at, op.to, evs)
    ensures OnlySelfMoves(Relocate(b, op.at, op.to).(pend := b.pend + [x]), evs[1..][1..])
  {
    hide TreesAgree, WatchesAgree, PendingOk, Move, RebaseTable;
    forall g | g in evs[1..][1..] ensures g.kind == MoveSelf && g.name == None && RootSafe(b, g.wd) {
      assert g == evs[2];
      MoveSelfIsSelf(b, op.at, g, roots);
    }
  }

  /** The next event leads on, if it is no arrival that does not fit. */
  lemma AfterEvent(m: State, evs: seq<Event>, ph: Phase, given: map<nat, Path>, roots: Roots, now: int) returns (ph': Phase)
    requires Underway(m, evs, ph, roots) && evs != [] && ActOk(m, Ev(evs[0], given))
    requires evs[0].kind == MovedTo ==> Fits(m, evs[0])
    ensures Underway(Handle(m, evs[0], given, roots, now), evs[1..], ph', roots)
    ensures Safe(m, ph) ==> Safe(Handle(m, evs[0], given, roots, now), ph')
  {
    hide Inv, Feasible, Unnamed, EventsOf, Clean, Apply, Handle, Awaited, Announces, Moving, Completes, Inert, RootSafe,
         OnlySelfMoves, ActOk, Fits, Ripe;
    ph' := Done;
    var m' := Handle(m, evs[0], given, roots, now);
    match ph {
      case Before(b, op) =>
        ph' := FirstEvent(b, op, evs, given, roots, now);
      case Done =>
        InertDoesNothing(m, evs[0], given, roots, now);
        assert forall e | e in evs[1..] :: e in evs;
      case Arriving(p) =>
        if evs[0].kind == MovedTo {
          AwaitedFits(m, evs[0], p);
        }
        TakenUp(m, evs[0], p, given, roots, now);
        SelfMovesBecomeInert(m, m', evs[1..]);
      case Opened(p) =>
        CreationOfFileIgnored(m, evs[0], evs[1], p, given, roots, now);
        NoSelfMoves(m, evs[1..][1..]);
        ph' := Arriving(p);
      case HalfMoved(x, op, c) =>
        MovingIsFeasible(m, x, op, c, roots);
        CompletionKind(c, evs[0], x, op.to);
        SecondHalf(m, evs[0], x, op, c, given, roots, now);
        SelfMovesBecomeInert(m, m', evs[1..]);
    }
  }

  lemma CompletionKind(c: State, e: Event, x: Pending, q: Path)
    requires Completes(c, e, x, q)
    ensures e.kind == MovedTo
  {
  }

  lemma InertKind(m: State, e: Event)
    requires Inert(m, e)
    ensures e.kind != MovedTo
  {
  }

  lemma FirstKind(b: State, op: Op, evs: seq<Event>)
    requires EventsOf(b, op, evs) && !op.Plant?
    ensures evs != [] && evs[0].kind != MovedTo
  {
  }

  /** An arrival brings backup and source into agreement exactly if it fits. */
  lemma ArrivalDecides(m: State, evs: seq<Event>, ph: Phase, given: map<nat, Path>, roots: Roots, now: int)
    requires Underway(m, evs, ph, roots) && evs != [] && evs[0].kind == MovedTo && ActOk(m, Ev(evs[0], given))
    ensures Inv(Handle(m, evs[0], given, roots, now), roots) <==> Fits(m, evs[0])
  {
    hide Inv, Feasible, Unnamed, EventsOf, Handle, Awaited, Announces, Moving, Completes, Inert, OnlySelfMoves, ActOk, Fits, Ripe;
    match ph {
      case Before(b, op) => FirstKind(b, op, evs);
      case Done => InertKind(m, evs[0]);
      case Arriving(p) =>
        AwaitedFits(m, evs[0], p);
        TakenUp(m, evs[0], p, given, roots, now);
      case Opened(p) =>
      case HalfMoved(x, op, c) =>
        SecondHalf(m, evs[0], x, op, c, given, roots, now);
    }
  }

  lemma SafeFits(m: State, evs: seq<Event>, ph: Phase, roots: Roots, now: int)
    requires Underway(m, evs, ph, roots) && Safe(m, ph) && evs != [] && evs[0].kind == MovedTo
    ensures Fits(m, evs[0])
  {
    hide Inv, Feasible, Unnamed, EventsOf, Awaited, Announces, Moving, Completes, Inert, OnlySelfMoves, Fits, Ripe,
         Clean, Renamed;
    match ph {
      case Before(b, op) => FirstKind(b, op, evs);
      case Done => InertKind(m, evs[0]);
      case Arriving(p) => AwaitedFits(m, evs[0], p);
      case Opened(p) =>
      case HalfMoved(x, op, c) =>
        MovingIsFeasible(m, x, op, c, roots);
        CleanMove(c, op, roots);
        SecondHalf(m, evs[0], x, op, c, map[], roots, now);
    }
  }

  lemma CleanMove(c: State, op: Op, roots: Roots)
    requires Inv(c, roots) && IsMove(op) && Allowed(c, op) && Clean(c, op)
    ensures Inv(Renamed(c, op.at, op.to), roots)
  {
    hide Inv, Feasible, Unnamed, Renamed, LeftoversNamed, NothingStranded, CanReplace;
    if op.Rename? {
      NothingStrandedIsNamed(c, op.at, op.to, roots);
      RenamedIff(c, op.at, op.to, roots);
    } else {
      ReplacedAgrees(c, op.at, op.to, roots);
    }
  }

  lemma NoSelfMoves(m: State, evs: seq<Event>)
    requires evs == []
    ensures OnlySelfMoves(m, evs)
  {
  }

  /** When all events have been handled, backup and source agree again. */
  lemma AtTheEnd(m: State, ph: Phase, roots: Roots)
    requires Underway(m, [], ph, roots)
    ensures Inv(m, roots)
  {
    hide Inv;
    if ph.Before? {
      EventsOfNonempty(ph.b, ph.op, []);
    }
  }

  // ---------- runs ----------

  /** Part of an operation's events have been handled, with expiries anywhere between. */
  lemma {:induction false} RunUnderway(
      m: State, acts: seq<Act>, rest: seq<Event>, ph: Phase, roots: Roots, now: int) returns (ph': Phase)
    requires Underway(m, EventsIn(acts) + rest, ph, roots) && RunOk(m, acts, roots, now) && Fitting(m, acts, roots, now)
    ensures Underway(Run(m, acts, roots, now), rest, ph', roots)
    ensures Safe(m, ph) ==> Safe(Run(m, acts, roots, now), ph')
    decreases |acts|
  {
    hide Underway, ActOk, Handle, Expire, Safe, Fits;
    ph' := ph;
    var evs := EventsIn(acts) + rest;
    if acts == [] {
      assert evs == rest;
    } else {
      var m' := Do(m, acts[0], roots, now);
      match acts[0] {
        case Exp(i) =>
          InRange(m, i);
          ph' := AfterExpiry(m, evs, ph, i, roots);
          assert EventsIn(acts[1..]) + rest == evs;
        case Ev(e, given) =>
          assert EventsIn(acts) == [e] + EventsIn(acts[1..]);
          assert evs[0] == e && evs[1..] == EventsIn(acts[1..]) + rest;
          ph' := AfterEvent(m, evs, ph, given, roots, now);
      }
      ph' := RunUnderway(m', acts[1..], rest, ph', roots, now);
    }
  }

  lemma InRange(m: State, i: nat)
    requires ActOk(m, Exp(i))
    ensures i < |m.pend|
  {
  }

  /** The mirror keeps up with every operation: however its events are interleaved with expiries of
      unfinished moves, backup and records agree with the source afterwards, if the arrival among
      them fits when it is handled. */
  lemma OperationKeepsInv(b: State, op: Op, acts: seq<Act>, roots: Roots, now: int)
    requires Inv(b, roots) && Scheduled(b, op, acts, roots, now) && Fitting(Apply(b, op), acts, roots, now)
    ensures Inv(Run(Apply(b, op), acts, roots, now), roots)
  {
    hide Inv, Feasible, Unnamed, Apply, EventsOf, RunOk, Run, Underway, Fitting;
    var ph := Begins(b, op, EventsIn(acts), roots);
    assert EventsIn(acts) + [] == EventsIn(acts);
    ph := RunUnderway(Apply(b, op), acts, [], ph, roots, now);
    AtTheEnd(Run(Apply(b, op), acts, roots, now), ph, roots);
  }

  lemma {:induction false} SafeRunFits(m: State, acts: seq<Act>, rest: seq<Event>, ph: Phase, roots: Roots, now: int)
    requires Underway(m, EventsIn(acts) + rest, ph, roots) && RunOk(m, acts, roots, now) && Safe(m, ph)
    ensures Fitting(m, acts, roots, now)
    decreases |acts|
  {
    hide Underway, ActOk, Handle, Expire, Safe, Fits;
    var evs := EventsIn(acts) + rest;
    if acts != [] {
      var m', ph' := Do(m, acts[0], roots, now), ph;
      match acts[0] {
        case Exp(i) =>
          InRange(m, i);
          ph' := AfterExpiry(m, evs, ph, i, roots);
          assert EventsIn(acts[1..]) + rest == evs;
        case Ev(e, given) =>
          assert EventsIn(acts) == [e] + EventsIn(acts[1..]);
          assert evs[0] == e && evs[1..] == EventsIn(acts[1..]) + rest;
          if e.kind == MovedTo {
            SafeFits(m, evs, ph, roots, now);
          }
          ph' := AfterEvent(m, evs, ph, given, roots, now);
      }
      SafeRunFits(m', acts[1..], rest, ph', roots, now);
    }
  }

  /** After a clean operation it always fits. */
  lemma CleanOperationFits(b: State, op: Op, acts: seq<Act>, roots: Roots, now: int)
    requires Inv(b, roots) && Scheduled(b, op, acts, roots, now) && Clean(b, op)
    ensures Fitting(Apply(b, op), acts, roots, now)
  {
    hide Inv, Feasible, Unnamed, Apply, EventsOf, RunOk, Underway, Clean, Safe, Fitting;
    var ph := Begins(b, op, EventsIn(acts), roots);
    assert EventsIn(acts) + [] == EventsIn(acts);
    SafeRunFits(Apply(b, op), acts, [], ph, roots, now);
  }

  // ---------- the arrival in a run ----------

  lemma {:induction false} FittingUpTo(m: State, acts: seq<Act>, roots: Roots, now: int)
    requires forall i | 0 <= i < |acts| :: acts[i].Ev? ==> acts[i].e.kind != MovedTo
    ensures Fitting(m, acts, roots, now)
    decreases |acts|
  {
    hide Do, Fits;
    if acts != [] {
      FittingUpTo(Do(m, acts[0], roots, now), acts[1..], roots, now);
    }
  }

  lemma {:induction false} RunSplit(m: State, acts: seq<Act>, k: nat, roots: Roots, now: int)
    requires k < |acts| && RunOk(m, acts, roots, now)
    ensures RunOk(m, acts[..k], roots, now) && ActOk(Run(m, acts[..k], roots, now), acts[k])
    ensures Run(m, acts[..k + 1], roots, now) == Do(Run(m, acts[..k], roots, now), acts[k], roots, now)
    decreases k
  {
    hide Do, ActOk;
    var rest := acts[1..];
    if k == 0 {
      assert acts[..1][1..] == [] && acts[..0] == [];
    } else {
      RunSplit(Do(m, acts[0], roots, now), rest, k - 1, roots, now);
      assert acts[..k][1..] == rest[..k - 1] && acts[..k + 1][1..] == rest[..k];
      assert acts[..k][0] == acts[0] && acts[..k + 1][0] == acts[0] && rest[k - 1] == acts[k];
    }
  }

  lemma {:induction false} EventsJoined(acts: seq<Act>, more: seq<Act>)
    ensures EventsIn(acts + more) == EventsIn(acts) + EventsIn(more)
    decreases |acts|
  {
    if acts == [] {
      assert acts + more == more;
    } else {
      EventsJoined(acts[1..], more);
      assert (acts + more)[1..] == acts[1..] + more;
    }
  }

  lemma EventsSplit(acts: seq<Act>, k: nat)
    requires k < |acts|
    ensures EventsIn(acts) == EventsIn(acts[..k]) + EventsIn([acts[k]]) + EventsIn(acts[k + 1..])
  {
    hide EventsIn;
    assert acts == acts[..k] + [acts[k]] + acts[k + 1..];
    EventsJoined(acts[..k] + [acts[k]], acts[k + 1..]);
    EventsJoined(acts[..k], [acts[k]]);
  }

  lemma {:induction false} EventPlace(acts: seq<Act>, i: nat)
    requires i < |acts| && acts[i].Ev?
    ensures acts[i].e in EventsIn(acts)
  {
    if i > 0 {
      EventPlace(acts[1..], i - 1);
    }
  }

  lemma OneArrival(b: State, op: Op, before: seq<Event>, e: Event, after: seq<Event>)
    requires EventsOf(b, op, before + [e] + after) && e.kind == MovedTo
    ensures forall f | f in before :: f.kind != MovedTo
  {
    var evs := before + [e] + after;
    assert evs[|before|] == e;
    forall f | f in before ensures f.kind != MovedTo {
      var i :| 0 <= i < |before| && before[i] == f;
      assert evs[i] == f;
    }
  }

  /** The exact condition: when the arrival among an operation's events has been handled, backup and
      records agree with the source if and only if it fitted. */
  lemma ArrivalKeepsInvIff(b: State, op: Op, acts: seq<Act>, k: nat, roots: Roots, now: int)
    requires Inv(b, roots) && Scheduled(b, op, acts, roots, now)
    requires k < |acts| && acts[k].Ev? && acts[k].e.kind == MovedTo
    ensures Inv(Run(Apply(b, op), acts[..k + 1], roots, now), roots) <==>
            Fits(Run(Apply(b, op), acts[..k], roots, now), acts[k].e)
  {
    hide Inv, Feasible, Unnamed, Apply, EventsOf, RunOk, Run, Underway, Fits, Handle, ActOk, Fitting;
    var m, e := Apply(b, op), acts[k].e;
    RunSplit(m, acts, k, roots, now);
    EventsSplit(acts, k);
    var before, after := EventsIn(acts[..k]), EventsIn(acts[k + 1..]);
    assert EventsIn([acts[k]]) == [e];
    OneArrival(b, op, before, e, after);
    forall i | 0 <= i < k && acts[i].Ev? ensures acts[..k][i].e.kind != MovedTo {
      EventPlace(acts[..k], i);
    }
    FittingUpTo(m, acts[..k], roots, now);
    var ph := Begins(b, op, EventsIn(acts), roots);
    assert EventsIn(acts) == before + ([e] + after);
    ph := RunUnderway(m, acts[..k], [e] + after, ph, roots, now);
    ArrivalDecides(Run(m, acts[..k], roots, now), [e] + after, ph, acts[k].given, roots, now);
  }

  /** Expiries alone. */
  lemma ExpiriesKeepInv(m: State, acts: seq<Act>, roots: Roots, now: int)
    requires Inv(m, roots) && RunOk(m, acts, roots, now) && EventsIn(acts) == []
    ensures Inv(Run(m, acts, roots, now), roots)
  {
    hide Inv, RunOk, Run, Fitting;
    assert EventsIn(acts) + [] == [];
    forall i | 0 <= i < |acts| ensures !acts[i].Ev? {
      if acts[i].Ev? {
        EventPlace(acts, i);
      }
    }
    FittingUpTo(m, acts, roots, now);
    var ph := RunUnderway(m, acts, [], Done, roots, now);
    AtTheEnd(Run(m, acts, roots, now), ph, roots);
  }
}
