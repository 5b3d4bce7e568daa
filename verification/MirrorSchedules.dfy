/** Every operation the invariant allows is reported by events that the monitor can handle. */
module MirrorSchedules {
  import opened Basics
  import opened Paths
  import opened Trees
  import opened Mirror
  import opened MirrorHalves
  import opened MirrorEvents
  import opened MirrorOperations
  import opened MirrorResults
  import opened MirrorRoutes

  // ---------- descriptors and cookies not in use ----------

  lemma {:induction false} Above(used: set<nat>) returns (n: nat)
    ensures forall u | u in used :: u < n
    decreases |used|
  {
    n := 0;
    if used != {} {
      var u :| u in used;
      var k := Above(used - {u});
      n := if u < k then k else u + 1;
      forall v | v in used ensures v < n {
        assert v == u || v in used - {u};
      }
    }
  }

  lemma {:induction false} Descriptors(dirs: set<Path>, first: nat) returns (given: map<nat, Path>)
    ensures given.Values == dirs && Injective(given) && forall w | w in given :: first <= w
    decreases |dirs|
  {
    given := map[];
    if dirs != {} {
      var p :| p in dirs;
      var rest := Descriptors(dirs - {p}, first + 1);
      given := rest[first := p];
      assert given[first] == p;
      assert forall w | w in rest :: rest[w] in rest.Values && given[w] == rest[w];
      forall q | q in dirs ensures q in given.Values {
        if q != p {
          assert q in rest.Values;
          var w :| w in rest && rest[w] == q;
          assert given[w] == q;
        }
      }
    }
  }

  lemma WatchesToGive(m: State, p: Path) returns (given: map<nat, Path>)
    ensures FreshWatches(m, p, given)
  {
    var first := Above(m.table.Keys + m.kernel.Keys);
    given := Descriptors(NewDirs(m.src, p), first);
    forall w | w in given ensures given[w] in NewDirs(m.src, p) && w !in m.table.Keys + m.kernel.Keys {
      assert given[w] in given.Values;
    }
    forall q | q in NewDirs(m.src, p) ensures Watched(given, q) {
      assert q in given.Values;
    }
  }

  lemma CookieToGive(pend: seq<Pending>) returns (cookie: nat)
    ensures UnusedCookie(pend, cookie)
  {
    var used := set i | 0 <= i < |pend| :: pend[i].cookie;
    cookie := Above(used);
    assert forall i | 0 <= i < |pend| :: pend[i].cookie in used;
  }

  // ---------- the watch that reports ----------

  lemma WatchOf(b: State, p: Path, roots: Roots) returns (w: nat)
    requires Inv(b, roots) && IsDir(b.src, p)
    ensures w in b.kernel && b.kernel[w] == p
  {
    hide TreesAgree, PendingOk;
    assert Watched(b.kernel, p);
    w :| w in b.kernel && b.kernel[w] == p;
  }

  lemma Report(b: State, kind: Kind, p: Path, isDir: bool, cookie: nat, roots: Roots) returns (e: Event)
    requires Inv(b, roots) && p != [] && IsDir(b.src, Parent(p))
    ensures Reports(b.kernel, e, kind, p, isDir) && e.cookie == cookie
  {
    var w := WatchOf(b, Parent(p), roots);
    e := Event(w, kind, cookie, isDir, Some(p[|p| - 1]));
  }

  lemma ReportSelf(b: State, kind: Kind, p: Path, roots: Roots) returns (e: Event)
    requires Inv(b, roots) && IsDir(b.src, p)
    ensures ReportsSelf(b.kernel, e, kind, p)
  {
    var w := WatchOf(b, p, roots);
    e := Event(w, kind, 0, false, None);
  }

  lemma ParentInSource(b: State, p: Path, roots: Roots)
    requires Inv(b, roots) && p in b.src && p != []
    ensures IsDir(b.src, Parent(p))
  {
  }

  // ---------- the schedule ----------

  function Acts(evs: seq<Event>): (acts: seq<Act>)
    ensures Prompt(acts) && |acts| == |evs|
  {
    seq(|evs|, i requires 0 <= i < |evs| => Ev(evs[i], map[]))
  }

  lemma ActsCarry(evs: seq<Event>)
    ensures EventsIn(Acts(evs)) == evs
  {
    PromptEvents(Acts(evs));
  }

  predicate Adopting(e: Event) {
    e.kind == Create || e.kind == MovedTo
  }

  lemma {:induction false} NothingToAdopt(m: State, acts: seq<Act>, roots: Roots, now: int)
    requires Prompt(acts) && forall i | 0 <= i < |acts| :: !Adopting(acts[i].e)
    ensures RunOk(m, acts, roots, now)
    decreases |acts|
  {
    hide Do;
    if acts != [] {
      NothingToAdopt(Do(m, acts[0], roots, now), acts[1..], roots, now);
    }
  }

  lemma QuietSchedule(b: State, op: Op, evs: seq<Event>, roots: Roots, now: int)
    requires Allowed(b, op) && EventsOf(b, op, evs) && forall i | 0 <= i < |evs| :: !Adopting(evs[i])
    ensures Scheduled(b, op, Acts(evs), roots, now)
  {
    hide Allowed, EventsOf, Apply, RunOk;
    ActsCarry(evs);
    NothingToAdopt(Apply(b, op), Acts(evs), roots, now);
  }

  lemma UnlinkSchedule(b: State, p: Path, roots: Roots, now: int) returns (acts: seq<Act>)
    requires Inv(b, roots) && Allowed(b, Unlink(p))
    ensures Scheduled(b, Unlink(p), acts, roots, now) && Prompt(acts)
  {
    hide Inv, Scheduled;
    ParentInSource(b, p, roots);
    var e := Report(b, Delete, p, false, 0, roots);
    acts := Acts([e]);
    QuietSchedule(b, Unlink(p), [e], roots, now);
  }

  lemma RmdirSchedule(b: State, p: Path, roots: Roots, now: int) returns (acts: seq<Act>)
    requires Inv(b, roots) && Allowed(b, Rmdir(p))
    ensures Scheduled(b, Rmdir(p), acts, roots, now) && Prompt(acts)
  {
    hide Inv, Scheduled;
    ParentInSource(b, p, roots);
    var self := ReportSelf(b, DeleteSelf, p, roots);
    var gone := ReportSelf(b, Ignored, p, roots);
    var entry := Report(b, Delete, p, true, 0, roots);
    acts := Acts([self, gone, entry]);
    QuietSchedule(b, Rmdir(p), [self, gone, entry], roots, now);
  }

  lemma MoveOutSchedule(b: State, p: Path, roots: Roots, now: int) returns (acts: seq<Act>)
    requires Inv(b, roots) && Allowed(b, MoveOut(p))
    ensures Scheduled(b, MoveOut(p), acts, roots, now) && Prompt(acts)
  {
    hide Inv, Scheduled;
    ParentInSource(b, p, roots);
    var cookie := CookieToGive(b.pend);
    var e := Report(b, MovedFrom, p, IsDir(b.src, p), cookie, roots);
    var evs := [e];
    if IsDir(b.src, p) {
      var self := ReportSelf(b, MoveSelf, p, roots);
      evs := [e, self];
    }
    acts := Acts(evs);
    QuietSchedule(b, MoveOut(p), evs, roots, now);
  }

  lemma MoveEventsToCome(b: State, op: Op, roots: Roots) returns (evs: seq<Event>)
    requires Inv(b, roots) && IsMove(op) && Allowed(b, op)
    ensures MoveEvents(b, op.at, op.to, evs)
  {
    hide Inv, Unnamed;
    ParentInSource(b, op.at, roots);
    if op.Replace? {
      NotRoot(b, op.to, roots);
      ParentInSource(b, op.to, roots);
    }
    var cookie := CookieToGive(b.pend);
    var e := Report(b, MovedFrom, op.at, IsDir(b.src, op.at), cookie, roots);
    var f := Report(b, MovedTo, op.to, IsDir(b.src, op.at), cookie, roots);
    evs := [e, f];
    if IsDir(b.src, op.at) {
      var self := ReportSelf(b, MoveSelf, op.at, roots);
      evs := [e, f, self];
    }
    assert evs[0] == e && evs[1] == f;
  }

  lemma NotRoot(b: State, p: Path, roots: Roots)
    requires Inv(b, roots) && p in b.src && !b.src[p].Dir?
    ensures p != []
  {
  }

  lemma MoveSchedule(b: State, op: Op, roots: Roots, now: int) returns (acts: seq<Act>)
    requires Inv(b, roots) && IsMove(op) && Allowed(b, op)
    ensures Scheduled(b, op, acts, roots, now) && Prompt(acts)
  {
    hide Inv, RunOk, Feasible, Unnamed;
    var evs := MoveEventsToCome(b, op, roots);
    acts := Acts(evs);
    ActsCarry(evs);
    assert EventsOf(b, op, evs);
    MoveRunOk(b, op, evs, roots, now);
  }

  lemma MoveRunOk(b: State, op: Op, evs: seq<Event>, roots: Roots, now: int)
    requires Inv(b, roots) && IsMove(op) && Allowed(b, op) && MoveEvents(b, op.at, op.to, evs)
    ensures RunOk(Apply(b, op), Acts(evs), roots, now)
  {
    hide Inv, Feasible, Unnamed, Relocate, Handle, Reports, Moving;
    var m, acts := Relocate(b, op.at, op.to), Acts(evs);
    assert Apply(b, op) == m;
    var e, f, rest := evs[0], evs[1], acts[1..][1..];
    RenameReported(b, op, e, map[], roots, now);
    var m1 := Handle(m, e, map[], roots, now);
    assert m1.pend[|b.pend|].cookie == f.cookie;
    var m2 := Handle(m1, f, map[], roots, now);
    assert acts[0] == Ev(e, map[]) && acts[1..][0] == Ev(f, map[]);
    NothingToAdopt(m2, rest, roots, now);
    EventKinds(b, op, evs);
    assert !UnusedCookie(m1.pend, f.cookie);
    assert RunOk(m1, acts[1..], roots, now);
  }

  lemma EventKinds(b: State, op: Op, evs: seq<Event>)
    requires IsMove(op) && MoveEvents(b, op.at, op.to, evs)
    ensures evs[0].kind == MovedFrom && evs[1].kind == MovedTo && forall i | 2 <= i < |evs| :: evs[i].kind == MoveSelf
  {
  }

  /** The first half of every move can expire before the second is handled. */
  lemma MovesCanBeLate(b: State, op: Op, roots: Roots, now: int)
    requires Inv(b, roots) && IsMove(op) && Allowed(b, op)
    ensures exists acts :: Scheduled(b, op, acts, roots, now) && Late(b, acts)
  {
    hide Inv, RunOk, Feasible, Unnamed, Reports, ReportsSelf, MoveEvents;
    var evs := MoveEventsToCome(b, op, roots);
    EventKinds(b, op, evs);
    TwoOrThree(b, op, evs);
    var given := WatchesToGive(Lost(b, op.at, op.to), op.to);
    var acts := [Ev(evs[0], map[]), Exp(|b.pend|), Ev(evs[1], given)] + Acts(evs[2..]);
    assert acts[..3] == [Ev(evs[0], map[]), Exp(|b.pend|), Ev(evs[1], given)] && acts[3..] == Acts(evs[2..]);
    LateActsCarry(acts, evs);
    assert EventsOf(b, op, evs);
    LateRunOk(b, op, evs, given, acts, roots, now);
    assert Late(b, acts);
  }

  lemma TwoOrThree(b: State, op: Op, evs: seq<Event>)
    requires IsMove(op) && MoveEvents(b, op.at, op.to, evs)
    ensures 2 <= |evs| <= 3
  {
  }

  lemma LateActsCarry(acts: seq<Act>, evs: seq<Event>)
    requires |acts| >= 3 && |evs| >= 2 && acts[0].Ev? && acts[1].Exp? && acts[2].Ev? && acts[0].e == evs[0] && acts[2].e == evs[1]
    requires acts[3..] == Acts(evs[2..])
    ensures EventsIn(acts) == evs
  {
    ActsCarry(evs[2..]);
    assert acts[1..][1..][1..] == acts[3..] && acts[1..][0] == acts[1] && acts[1..][1..][0] == acts[2];
    assert EventsIn(acts[1..][1..]) == [evs[1]] + evs[2..];
    assert EventsIn(acts[1..]) == EventsIn(acts[1..][1..]);
    assert evs == [evs[0]] + ([evs[1]] + evs[2..]);
  }

  lemma LateRunOk(b: State, op: Op, evs: seq<Event>, given: map<nat, Path>, acts: seq<Act>, roots: Roots, now: int)
    requires Inv(b, roots) && IsMove(op) && Allowed(b, op) && MoveEvents(b, op.at, op.to, evs)
    requires FreshWatches(Lost(b, op.at, op.to), op.to, given)
    requires |acts| >= 3 && acts[0] == Ev(evs[0], map[]) && acts[1] == Exp(|b.pend|) && acts[2] == Ev(evs[1], given)
    requires acts[3..] == Acts(evs[2..])
    ensures RunOk(Apply(b, op), acts, roots, now)
  {
    hide Inv, Feasible, Unnamed, Relocate, Handle, Reports, UnusedCookie, Moving, Lost, FreshWatches;
    var m, l := Relocate(b, op.at, op.to), Lost(b, op.at, op.to);
    assert Apply(b, op) == m;
    var e, f := evs[0], evs[1];
    EventKinds(b, op, evs);
    var x := Pending(e.cookie, IsDir(b.src, op.at), op.at);
    RenameReported(b, op, e, map[], roots, now);
    FirstHalf(b, op, x, roots);
    var m1 := m.(pend := b.pend + [x]);
    FirstHalfLost(m1, b, op, |b.pend|, roots);
    LostAnnounces(b, f, x, op, roots);
    EventNamesPath(l, f, op.to);
    var rest, last := acts[1..], acts[1..][1..];
    assert rest[0] == acts[1] && last[0] == acts[2] && last[1..] == acts[3..];
    NothingToAdopt(Handle(l, f, given, roots, now), acts[3..], roots, now);
    assert RunOk(l, last, roots, now);
    assert RunOk(m1, rest, roots, now);
  }

  lemma PlantSchedule(b: State, op: Op, roots: Roots, now: int) returns (acts: seq<Act>)
    requires Inv(b, roots) && op.Plant? && Allowed(b, op)
    ensures Scheduled(b, op, acts, roots, now) && Prompt(acts)
  {
    hide Inv, Graft, Handle, FreshWatches;
    var p, m := op.at, Apply(b, op);
    var isDir := op.sub[[]].Dir?;
    var cookie := CookieToGive(b.pend);
    var kind := if op.movedIn then MovedTo else if op.sub[[]].File? then CloseWrite else Create;
    var e := Report(b, kind, p, isDir, cookie, roots);
    var given := WatchesToGive(m, p);
    ReportFound(b, e, kind, p, isDir, roots);
    acts := [Ev(e, given)];
    PromptEvents(acts);
    assert EventsIn(acts) == [e];
    assert ActOk(m, acts[0]);
    assert acts[1..] == [];
    assert RunOk(m, acts, roots, now);
    assert [e][0] == e && |[e]| == 1;
    assert EventsOf(b, op, [e]);
  }

  /** So no operation is excluded by what the runs demand of its events. */
  lemma OperationsAreScheduled(b: State, op: Op, roots: Roots, now: int)
    requires Inv(b, roots) && Allowed(b, op)
    ensures exists acts :: Scheduled(b, op, acts, roots, now) && Prompt(acts)
  {
    hide Inv, Allowed, Scheduled, Prompt;
    match op {
      case Plant(_, _, _) =>
        var acts := PlantSchedule(b, op, roots, now);
      case Unlink(p) =>
        var acts := UnlinkSchedule(b, p, roots, now);
      case Rmdir(p) =>
        var acts := RmdirSchedule(b, p, roots, now);
      case Rename(_, _) =>
        var acts := MoveSchedule(b, op, roots, now);
      case Replace(_, _) =>
        var acts := MoveSchedule(b, op, roots, now);
      case MoveOut(p) =>
        var acts := MoveOutSchedule(b, p, roots, now);
    }
  }
}
