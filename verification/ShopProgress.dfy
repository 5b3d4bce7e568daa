/** Who waits for whom in the shop, and what a cancellation inside a critical section does. */
module ShopProgress {
  import opened Basics
  import opened Shop
  import opened ShopResults

  datatype Thread = Worker(i: nat) | Signaller

  datatype Mutex = Flag | Shelf(k: nat)

  predicate Exists(s: State, t: Thread) {
    t.Worker? ==> t.i < |s.workers|
  }

  /** The mutex that a thread's next step locks. */
  function Wants(s: State, t: Thread): Option<Mutex>
    requires Exists(s, t)
  {
    match t
    case Worker(i) =>
      (match s.workers[i]
       case Idle => Some(Flag)
       case Want1(a, _) => Some(Shelf(a))
       case Want2(_, b) => Some(Shelf(b))
       case Stuck(_, b) => Some(Shelf(b))
       case _ => None)
    case Signaller =>
      (match s.signal
       case Locking(_, k) => if k < |s.owner| then Some(Shelf(k)) else None
       case FlagWanted => Some(Flag)
       case _ => None)
  }

  function Holder(o: Owner): Option<Thread> {
    match o
    case Free => None
    case ByWorker(i) => Some(Worker(i))
    case BySignal => Some(Signaller)
  }

  function OwnerOf(s: State, m: Mutex): Option<Thread>
    requires m.Shelf? ==> m.k < |s.owner|
  {
    match m
    case Flag => Holder(s.flagOwner)
    case Shelf(k) => Holder(s.owner[k])
  }

  /** `t` is blocked on a mutex that `u` holds. */
  ghost predicate WaitsFor(s: State, t: Thread, u: Thread)
    requires Sane(s)
  {
    Exists(s, t) && Wants(s, t).Some? && OwnerOf(s, Wants(s, t).value) == Some(u)
  }

  predicate IsStuck(s: State, t: Thread) {
    t.Worker? && t.i < |s.workers| && s.workers[t.i].Stuck?
  }

  function Level(s: State, m: Mutex): nat {
    match m
    case Flag => |s.shelves|
    case Shelf(k) => k
  }

  /** Whoever holds a mutex and waits, waits for a later one: all take shelves in rising order, and
      nobody waits while holding the flag. Only a stuck worker waits for itself. */
  lemma WaitingClimbs(s: State, t: Thread, u: Thread)
    requires Inv(s) && WaitsFor(s, t, u)
    ensures Exists(s, u)
    ensures IsStuck(s, t) ==> u == t
    ensures Wants(s, u).Some? && !IsStuck(s, u) ==> Level(s, Wants(s, t).value) < Level(s, Wants(s, u).value)
  {
    hide Complete, Roster, Reads;
    match Wants(s, t).value {
      case Flag =>
      case Shelf(k) =>
        if u.Worker? {
          assert HoldsShelf(s.workers[u.i], k);
        } else {
          assert SignalHolds(s.signal, k);
        }
    }
    if IsStuck(s, t) {
      assert HoldsShelf(s.workers[t.i], s.workers[t.i].b);
    }
  }

  ghost predicate IsChain(s: State, ts: seq<Thread>) {
    Sane(s) && ts != [] && forall j | 0 <= j < |ts| - 1 :: WaitsFor(s, ts[j], ts[j + 1])
  }

  ghost predicate Clear(s: State, ts: seq<Thread>) {
    forall j | 0 <= j < |ts| :: !IsStuck(s, ts[j])
  }

  lemma {:induction false} ChainRises(s: State, ts: seq<Thread>, i: nat, j: nat)
    requires Inv(s) && IsChain(s, ts) && Clear(s, ts) && i <= j < |ts|
    requires Exists(s, ts[j]) && Wants(s, ts[j]).Some?
    ensures Exists(s, ts[i]) && Wants(s, ts[i]).Some?
    ensures Level(s, Wants(s, ts[i]).value) + (j - i) <= Level(s, Wants(s, ts[j]).value)
    decreases j
  {
    hide Inv, Wants, Level, OwnerOf, IsStuck;
    if i < j {
      assert WaitsFor(s, ts[j - 1], ts[j - 1 + 1]);
      WaitingClimbs(s, ts[j - 1], ts[j]);
      ChainRises(s, ts, i, j - 1);
    }
  }

  lemma LevelBound(s: State, t: Thread)
    requires Sane(s) && Exists(s, t) && Wants(s, t).Some?
    ensures Level(s, Wants(s, t).value) <= |s.shelves|
  {
  }

  /** No chain of waiting threads comes back to a thread it has passed, and none is longer than the
      mutexes allow. */
  lemma ChainsAreAcyclic(s: State, ts: seq<Thread>)
    requires Inv(s) && IsChain(s, ts) && Clear(s, ts)
    ensures forall i, j | 0 <= i < j < |ts| :: ts[i] != ts[j]
    ensures |ts| <= |s.shelves| + 2
  {
    hide Owners, FlagOwner, Reads, Complete, Roster, Wants, Level, OwnerOf, IsStuck;
    forall i, j | 0 <= i < j < |ts| ensures ts[i] != ts[j] {
      if ts[i] == ts[j] {
        assert WaitsFor(s, ts[i], ts[i + 1]);
        ChainRises(s, ts, i, j);
      }
    }
    if |ts| > 1 {
      var last := |ts| - 2;
      assert WaitsFor(s, ts[last], ts[last + 1]);
      ChainRises(s, ts, 0, last);
      LevelBound(s, ts[last]);
    }
  }

  // ---------- progress ----------

  /** A thread that can take its next step now. In sigwait the signal thread cannot by itself. */
  ghost predicate Able(s: State, t: Thread)
    requires Sane(s)
  {
    match t
    case Worker(i) => i < |s.workers| && exists u :: WorkerSteps(s, i, u)
    case Signaller => !s.signal.Waiting? && exists u :: SignalSteps(s, u)
  }

  lemma AbleWorker(s: State, i: nat)
    requires Sane(s) && i < |s.workers|
    requires !(s.workers[i].Left? || s.workers[i].Cancelled? || s.workers[i].Stuck?)
    requires Wants(s, Worker(i)).Some? ==> OwnerOf(s, Wants(s, Worker(i)).value) == None
    ensures Able(s, Worker(i))
  {
    var p := s.workers[i];
    var u := match p
      case Reporting => At(s, i, Idle)
      case Idle => At(s, i, InFlag).(flagOwner := ByWorker(i))
      case InFlag => At(s, i, if s.flag then Left else Asleep(0, 1)).(flagOwner := Free)
      case Asleep(a, b) => At(s, i, if a > b then Want1(b, a) else Want1(a, b))
      case Want1(a, b) => Own(At(s, i, Want2(a, b)), a, ByWorker(i))
      case Want2(a, b) => Own(At(s, i, Both(a, b)), b, ByWorker(i))
      case Both(a, b) =>
        At(s, i, if s.shelves[a] > s.shelves[b] then Store1(a, b, s.shelves[a], s.shelves[b]) else Rel1(a, b))
      case Store1(a, b, x, y) => Put(At(s, i, Store2(a, b, x, y)), a, y)
      case Store2(a, b, x, y) => Put(At(s, i, Nap(a, b)), b, x)
      case Nap(a, b) => At(s, i, Rel1(a, b))
      case Rel1(a, b) => Own(At(s, i, Rel2(a, b)), a, Free)
      case Rel2(a, b) => Own(At(s, i, Idle), b, Free)
      case _ => s;
    assert WorkerSteps(s, i, u);
  }

  lemma AbleSignaller(s: State)
    requires Sane(s) && !s.signal.Waiting? && !s.signal.Gone?
    requires Wants(s, Signaller).Some? ==> OwnerOf(s, Wants(s, Signaller).value) == None
    ensures Able(s, Signaller)
  {
    hide Shuffle.Shuffled;
    var js := seq(|s.shelves|, _ => 0);
    var u := match s.signal
      case Locking(job, k) =>
        if k == |s.shelves| then s.(signal := Holding(job)) else Own(s.(signal := Locking(job, k + 1)), k, BySignal)
      case Holding(job) =>
        if job == Show then s.(signal := Unlocking(job, 0))
        else s.(signal := Unlocking(job, 0), shelves := Shuffle.Shuffled(s.shelves, js))
      case Unlocking(job, k) =>
        if k == |s.shelves| then s.(signal := Waiting) else Own(s.(signal := Unlocking(job, k + 1)), k, Free)
      case FlagWanted => s.(signal := FlagHeld, flagOwner := BySignal)
      case FlagHeld => s.(signal := Gone, flag := true, flagOwner := Free)
      case _ => s;
    assert SignalSteps(s, u);
  }

  /** A thread that holds a mutex, wants none and is not stuck can step. */
  lemma HolderIsAble(s: State, t: Thread, u: Thread)
    requires Inv(s) && WaitsFor(s, t, u) && !IsStuck(s, u)
    requires Exists(s, u) && (Wants(s, u).Some? ==> OwnerOf(s, Wants(s, u).value) == None)
    ensures Able(s, u)
  {
    hide Complete, Roster, Reads, Able;
    match Wants(s, t).value {
      case Flag =>
      case Shelf(k) =>
        if u.Worker? {
          assert HoldsShelf(s.workers[u.i], k);
        } else {
          assert SignalHolds(s.signal, k);
        }
    }
    match u {
      case Worker(i) => AbleWorker(s, i);
      case Signaller => AbleSignaller(s);
    }
  }

  /** Follows a waiting thread to whatever it comes down to. */
  lemma {:induction false} FollowWaits(s: State, t: Thread) returns (ts: seq<Thread>)
    requires Inv(s) && Exists(s, t) && Wants(s, t).Some?
    ensures IsChain(s, ts) && ts[0] == t
    ensures Able(s, ts[|ts| - 1]) || IsStuck(s, ts[|ts| - 1])
    decreases |s.shelves| - Level(s, Wants(s, t).value)
  {
    hide Owners, FlagOwner, Complete, Roster, Reads, Able, WorkerSteps, SignalSteps;
    if IsStuck(s, t) {
      return [t];
    }
    var m := Wants(s, t).value;
    if OwnerOf(s, m) == None {
      match t {
        case Worker(i) => AbleWorker(s, i);
        case Signaller => AbleSignaller(s);
      }
      return [t];
    }
    var u := OwnerOf(s, m).value;
    assert WaitsFor(s, t, u);
    WaitingClimbs(s, t, u);
    if IsStuck(s, u) || (Wants(s, u).Some? ==> OwnerOf(s, Wants(s, u).value) == None) {
      if !IsStuck(s, u) {
        HolderIsAble(s, t, u);
      }
      ts := [t, u];
    } else {
      LevelBound(s, u);
      var us := FollowWaits(s, u);
      ts := [t] + us;
      forall j | 0 <= j < |ts| - 1 ensures WaitsFor(s, ts[j], ts[j + 1]) {
        assert j > 0 ==> WaitsFor(s, us[j - 1], us[j - 1 + 1]);
      }
    }
  }

  lemma AbleIsNotBlocked(s: State, t: Thread, u: Thread)
    requires Sane(s) && Able(s, t)
    ensures !WaitsFor(s, t, u) && !IsStuck(s, t)
  {
  }

  lemma {:induction false} OneWay(s: State, ts: seq<Thread>, us: seq<Thread>, j: nat)
    requires IsChain(s, ts) && IsChain(s, us) && ts[0] == us[0] && j < |ts| && j < |us|
    ensures ts[j] == us[j]
    decreases j
  {
    if j > 0 {
      OneWay(s, ts, us, j - 1);
      assert WaitsFor(s, ts[j - 1], ts[j - 1 + 1]) && WaitsFor(s, us[j - 1], us[j - 1 + 1]);
    }
  }

  lemma {:induction false} StuckStays(s: State, ts: seq<Thread>, i: nat, j: nat)
    requires Inv(s) && IsChain(s, ts) && i <= j < |ts| && IsStuck(s, ts[i])
    ensures IsStuck(s, ts[j])
    decreases j
  {
    hide Inv, IsStuck;
    if i < j {
      StuckStays(s, ts, i, j - 1);
      assert WaitsFor(s, ts[j - 1], ts[j - 1 + 1]);
      WaitingClimbs(s, ts[j - 1], ts[j]);
    }
  }

  ghost predicate LeadsToAble(s: State, t: Thread) {
    exists ts :: IsChain(s, ts) && ts[0] == t && Able(s, ts[|ts| - 1])
  }

  ghost predicate LeadsToStuck(s: State, t: Thread) {
    exists ts :: IsChain(s, ts) && ts[0] == t && IsStuck(s, ts[|ts| - 1])
  }

  /** A waiting thread waits, in the end, for a thread that can step, unless it waits for a worker
      that was cancelled inside its critical section. */
  lemma WaitingEndsIff(s: State, t: Thread)
    requires Inv(s) && Exists(s, t) && Wants(s, t).Some?
    ensures LeadsToAble(s, t) <==> !LeadsToStuck(s, t)
  {
    hide Inv, IsStuck, Wants;
    var _ := FollowWaits(s, t);
    if LeadsToAble(s, t) && LeadsToStuck(s, t) {
      var ts :| IsChain(s, ts) && ts[0] == t && Able(s, ts[|ts| - 1]);
      var us :| IsChain(s, us) && us[0] == t && IsStuck(s, us[|us| - 1]);
      if |ts| <= |us| {
        OneWay(s, ts, us, |ts| - 1);
        if |ts| < |us| {
          AbleIsNotBlocked(s, us[|ts| - 1], us[|ts| - 1 + 1]);
        } else {
          AbleIsNotBlocked(s, ts[|ts| - 1], t);
        }
      } else {
        OneWay(s, ts, us, |us| - 1);
        StuckStays(s, ts, |us| - 1, |ts| - 1);
        AbleIsNotBlocked(s, ts[|ts| - 1], t);
      }
      assert false;
    }
  }

  /** So while no worker has been cancelled inside a critical section, some thread can always step
      as long as any thread waits. */
  lemma NoDeadlock(s: State, t: Thread)
    requires Inv(s) && Exists(s, t) && Wants(s, t).Some?
    requires forall i | 0 <= i < |s.workers| :: !s.workers[i].Stuck?
    ensures exists u :: Able(s, u)
  {
    hide Inv, Able;
    var ts := FollowWaits(s, t);
  }

  // ---------- a worker cancelled inside its critical section ----------

  lemma StuckStep(s: State, e: Step, t: State, i: nat)
    requires Inv(s) && Takes(s, e, t) && i < |s.workers| && s.workers[i].Stuck?
    ensures i < |t.workers| && t.workers[i] == s.workers[i]
  {
    hide Owners, FlagOwner, Reads, Complete, Roster, Shuffle.Shuffled, SignalSteps, WorkerSteps;
    match e {
      case Ordinary(j) => OneWorkerMoves(s, j, t);
      case Cancel(_) =>
      case Signal => SignalMovesNobody(s, t);
    }
  }

  lemma OneWorkerMoves(s: State, i: nat, t: State)
    requires Sane(s) && i < |s.workers| && WorkerSteps(s, i, t)
    ensures |t.workers| == |s.workers| && !s.workers[i].Stuck?
    ensures forall j | 0 <= j < |s.workers| && j != i :: t.workers[j] == s.workers[j]
  {
  }

  lemma SignalMovesNobody(s: State, t: State)
    requires Sane(s) && SignalSteps(s, t)
    ensures t.workers == s.workers
  {
    hide Shuffle.Shuffled;
  }

  /** It keeps both mutexes for good, so the shelves are never shown or shuffled again. */
  lemma {:induction false} StuckForever(run: seq<State>, i: nat, j: nat, w: nat)
    requires IsRun(run) && Inv(run[0]) && i <= j < |run|
    requires w < |run[i].workers| && run[i].workers[w].Stuck?
    ensures Inv(run[j]) && w < |run[j].workers| && run[j].workers[w] == run[i].workers[w]
    ensures !run[j].signal.Holding?
    decreases j
  {
    hide Inv, Takes;
    RunKeepsInv(run, j);
    if i < j {
      StuckForever(run, i, j - 1, w);
      assert Next(run[j - 1], run[j - 1 + 1]);
      var e :| Takes(run[j - 1], e, run[j]);
      StuckStep(run[j - 1], e, run[j], w);
    }
    StuckBarsSignal(run[j], w);
  }

  lemma StuckBarsSignal(s: State, w: nat)
    requires Inv(s) && w < |s.workers| && s.workers[w].Stuck?
    ensures !s.signal.Holding?
  {
    hide FlagOwner, Reads, Complete, Roster;
    var a := s.workers[w].a;
    assert HoldsShelf(s.workers[w], a);
    assert s.owner[a] == ByWorker(w);
    assert s.signal.Holding? ==> SignalHolds(s.signal, a);
  }

  /** Eight shelves, the fewest the program accepts, in order but for the first two. */
  function Shelves(x: int, y: int): (r: seq<int>)
    ensures |r| == 8
  {
    [x, y, 3, 4, 5, 6, 7, 8]
  }

  /** Two workers, the first being at `p`. */
  function Scene(x: int, y: int, o0: Owner, o1: Owner, flag: Owner, p: Place, gone: bool, signal: Post): State {
    State(Shelves(x, y), [o0, o1, Free, Free, Free, Free, Free, Free], false, flag,
          [p, Reporting], [gone, false], signal, if gone then [1] else [0, 1])
  }

  function Script(): (run: seq<State>)
    ensures |run| == 13
  {
    var me := ByWorker(0);
    [ Scene(2, 1, Free, Free, Free, Reporting, false, Waiting),
      Scene(2, 1, Free, Free, Free, Idle, false, Waiting),
      Scene(2, 1, Free, Free, me, InFlag, false, Waiting),
      Scene(2, 1, Free, Free, Free, Asleep(0, 1), false, Waiting),
      Scene(2, 1, Free, Free, Free, Want1(0, 1), false, Waiting),
      Scene(2, 1, me, Free, Free, Want2(0, 1), false, Waiting),
      Scene(2, 1, me, me, Free, Both(0, 1), false, Waiting),
      Scene(2, 1, me, me, Free, Store1(0, 1, 2, 1), false, Waiting),
      Scene(1, 1, me, me, Free, Store2(0, 1, 2, 1), false, Waiting),
      Scene(1, 2, me, me, Free, Nap(0, 1), false, Waiting),
      Scene(1, 2, me, me, Free, Nap(0, 1), true, Waiting),
      Scene(1, 2, me, me, Free, Stuck(0, 1), true, Waiting),
      Scene(1, 2, me, me, Free, Stuck(0, 1), true, Locking(Show, 0)) ]
  }

  /** It does happen: a cancellation in the nap leaves the signal thread waiting for good. */
  lemma CancellationCanStick()
    ensures IsRun(Script()) && Init(Script()[0]) && |Script()[0].shelves| == 8
    ensures LeadsToStuck(Script()[12], Signaller)
  {
    hide Script, Init, Takes, LeadsToStuck;
    ScriptStarts();
    forall j | 0 <= j < 12 ensures Next(Script()[j], Script()[j + 1]) {
      if j < 4 {
        ScriptedApproach(j);
      } else if j < 9 {
        if j < 7 {
          ScriptedLocks(j);
        } else {
          ScriptedStores(j);
        }
      } else {
        ScriptedCancel(j);
      }
    }
    ScriptEnds();
  }

  lemma ScriptStarts()
    ensures Init(Script()[0]) && |Script()[0].shelves| == 8
  {
    hide Script, Init;
    assert Script()[0] == Scene(2, 1, Free, Free, Free, Reporting, false, Waiting) by {
      ScriptFirst();
    }
    SceneIsInit();
  }

  lemma ScriptFirst()
    ensures Script()[0] == Scene(2, 1, Free, Free, Free, Reporting, false, Waiting)
  {
  }

  lemma SceneIsInit()
    ensures Init(Scene(2, 1, Free, Free, Free, Reporting, false, Waiting))
  {
    hide Products, Shelves;
    var s := Scene(2, 1, Free, Free, Free, Reporting, false, Waiting);
    ShelvesHoldAll();
    assert s.active == seq(2, i => i);
  }

  lemma ShelvesHoldAll()
    ensures multiset(Shelves(2, 1)) == multiset(Products(8))
  {
    hide Products, Shelves;
    ShelvesFront(2, 1);
    ShelvesFront(1, 2);
    EightProducts();
    FrontSwapped(2, 1, Shelves(2, 1)[2..]);
  }

  lemma ShelvesFront(x: int, y: int)
    ensures Shelves(x, y) == [x, y] + Shelves(2, 1)[2..]
  {
  }

  lemma EightProducts()
    ensures Products(8) == Shelves(1, 2)
  {
  }

  lemma FrontSwapped(x: int, y: int, rest: seq<int>)
    ensures multiset([x, y] + rest) == multiset([y, x] + rest)
  {
    assert multiset([x, y]) == multiset([y, x]);
  }

  lemma ScriptedApproach(j: nat)
    requires j < 4
    ensures Sane(Script()[j]) && Takes(Script()[j], Ordinary(0), Script()[j + 1])
  {
    if j == 2 {
      assert Script()[3] == At(Script()[2], 0, Asleep(0, 1)).(flagOwner := Free);
    }
  }

  lemma ScriptedLocks(j: nat)
    requires 4 <= j < 7
    ensures Sane(Script()[j]) && Takes(Script()[j], Ordinary(0), Script()[j + 1])
  {
  }

  lemma ScriptedStores(j: nat)
    requires 7 <= j < 9
    ensures Sane(Script()[j]) && Takes(Script()[j], Ordinary(0), Script()[j + 1])
  {
  }

  lemma ScriptedCancel(j: nat)
    requires 9 <= j < 12
    ensures Sane(Script()[j]) && Takes(Script()[j], if j == 10 then Cancel(0) else Signal, Script()[j + 1])
  {
    if j == 9 {
      assert [0, 1][0 := 1][..1] == [1];
      assert CancelsOne(Script()[9], 0, Script()[10]);
    }
  }

  lemma ScriptEnds()
    ensures LeadsToStuck(Script()[12], Signaller)
  {
    var s := Script()[12];
    assert WaitsFor(s, Signaller, Worker(0));
    assert IsChain(s, [Signaller, Worker(0)]);
  }
}
