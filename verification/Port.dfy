/** The port: workers unload ships under two mutexes and wait for the next ship on a condition
    variable; a signal thread docks ships and finally closes the port. A state machine over the
    threads' steps. */
module Port {

  datatype Owner = Free | ByWorker(i: nat) | BySignal

  /** Where a worker is, in program order; the part after each name says which mutexes it holds. */
  datatype Place =
    | Start              // about to lock the state
    | Testing            // state: the loop's condition
    | Asleep             // in pthread_cond_wait, neither
    | Woken              // still in it, about to lock the state again
    | Decided            // state: the loop is over
    | WantShip           // neither
    | OnShip             // ship: the short sleep
    | WantState          // ship
    | Checking           // ship and state
    | Taken              // ship and state, packages_left decremented
    | Numbered(number: int)   // ship and state
    | Leaving(number: int)    // ship
    | Carrying(number: int)   // neither
    | NoLuck             // ship and state, nothing left
    | NoLuck2            // ship
    | Quit               // ship and state, terminating
    | Quit2              // ship
    | Done

  datatype Post =
    | Waiting
    | WantDock           // about to lock the state
    | Docking            // state
    | Docked             // state: about to broadcast
    | DockedUnlock       // state
    | WantClose          // about to lock the state
    | Closing            // state
    | Closed             // state: about to broadcast
    | ClosedUnlock       // state
    | Gone

  /** `docked`, `handed` and `printed` are bookkeeping: the packages brought so far, the numbers given
      out, the numbers whose transport has been announced. */
  datatype State = State(
    stateOwner: Owner, shipOwner: Owner,
    left: int, next: int, terminate: bool,
    workers: seq<Place>, signal: Post,
    docked: int, handed: seq<int>, printed: seq<int>)

  ghost predicate Init(s: State) {
    && s.stateOwner == Free && s.shipOwner == Free
    && s.left == 0 && s.next == 1 && !s.terminate
    && (forall i | 0 <= i < |s.workers| :: s.workers[i] == Start)
    && s.signal == Waiting && s.docked == 0 && s.handed == [] && s.printed == []
  }

  function At(s: State, i: nat, p: Place): State
    requires i < |s.workers|
  {
    s.(workers := s.workers[i := p])
  }

  function LockState(s: State, o: Owner): State {
    s.(stateOwner := o)
  }

  function LockShip(s: State, o: Owner): State {
    s.(shipOwner := o)
  }

  predicate WorkerSteps(s: State, i: nat, t: State)
    requires i < |s.workers|
  {
    match s.workers[i]
    case Start => s.stateOwner == Free && t == LockState(At(s, i, Testing), ByWorker(i))
    case Testing =>
      if !s.terminate && s.left == 0 then t == LockState(At(s, i, Asleep), Free) else t == At(s, i, Decided)
    case Asleep => t == At(s, i, Woken)
    case Woken => s.stateOwner == Free && t == LockState(At(s, i, Testing), ByWorker(i))
    case Decided => t == LockState(At(s, i, if s.terminate then Done else WantShip), Free)
    case WantShip => s.shipOwner == Free && t == LockShip(At(s, i, OnShip), ByWorker(i))
    case OnShip => t == At(s, i, WantState)
    case WantState => s.stateOwner == Free && t == LockState(At(s, i, Checking), ByWorker(i))
    case Checking =>
      if s.terminate then t == At(s, i, Quit)
      else if s.left <= 0 then t == At(s, i, NoLuck)
      else t == At(s, i, Taken).(left := s.left - 1)
    case Taken => t == At(s, i, Numbered(s.next)).(next := s.next + 1, handed := s.handed + [s.next])
    case Numbered(number) => t == LockState(At(s, i, Leaving(number)), Free)
    case Leaving(number) => t == LockShip(At(s, i, Carrying(number)), Free)
    case Carrying(number) => t == At(s, i, Start).(printed := s.printed + [number])
    case NoLuck => t == LockState(At(s, i, NoLuck2), Free)
    case NoLuck2 => t == LockShip(At(s, i, Start), Free)
    case Quit => t == LockState(At(s, i, Quit2), Free)
    case Quit2 => t == LockShip(At(s, i, Done), Free)
    case Done => false
  }

  /** pthread_cond_broadcast. */
  function WakeAll(ws: seq<Place>): (r: seq<Place>)
    ensures |r| == |ws|
  {
    seq(|ws|, i requires 0 <= i < |ws| => if ws[i] == Asleep then Woken else ws[i])
  }

  ghost predicate SignalSteps(s: State, t: State) {
    match s.signal
    case Waiting => t == s.(signal := WantDock) || t == s.(signal := WantClose)
    case WantDock => s.stateOwner == Free && t == LockState(s.(signal := Docking), BySignal)
    case Docking =>
      if s.terminate || s.left > 0 then t == LockState(s.(signal := Waiting), Free)
      else 30 <= t.left <= 60 && t == s.(signal := Docked, left := t.left, docked := s.docked + t.left)
    case Docked => t == s.(signal := DockedUnlock, workers := WakeAll(s.workers))
    case DockedUnlock => t == LockState(s.(signal := Waiting), Free)
    case WantClose => s.stateOwner == Free && t == LockState(s.(signal := Closing), BySignal)
    case Closing => t == s.(signal := Closed, terminate := true)
    case Closed => t == s.(signal := ClosedUnlock, workers := WakeAll(s.workers))
    case ClosedUnlock => t == LockState(s.(signal := Gone), Free)
    case Gone => false
  }

  datatype Step = Worker(i: nat) | Signal

  ghost predicate Takes(s: State, e: Step, t: State) {
    match e
    case Worker(i) => i < |s.workers| && WorkerSteps(s, i, t)
    case Signal => SignalSteps(s, t)
  }

  ghost predicate Next(s: State, t: State) {
    exists e :: Takes(s, e, t)
  }

  ghost predicate IsRun(run: seq<State>) {
    run != [] && forall i | 0 <= i < |run| - 1 :: Next(run[i], run[i + 1])
  }

  // ---------- invariants ----------

  predicate HoldsState(p: Place) {
    p.Testing? || p.Decided? || p.Checking? || p.Taken? || p.Numbered? || p.NoLuck? || p.Quit?
  }

  predicate HoldsShip(p: Place) {
    || p.OnShip? || p.WantState? || p.Checking? || p.Taken? || p.Numbered? || p.Leaving?
    || p.NoLuck? || p.NoLuck2? || p.Quit? || p.Quit2?
  }

  predicate SignalHolds(p: Post) {
    p.Docking? || p.Docked? || p.DockedUnlock? || p.Closing? || p.Closed? || p.ClosedUnlock?
  }

  ghost predicate StateOwner(o: Owner, ws: seq<Place>, signal: Post) {
    && (o.ByWorker? ==> o.i < |ws|)
    && (forall i | 0 <= i < |ws| :: HoldsState(ws[i]) <==> o == ByWorker(i))
    && (SignalHolds(signal) <==> o == BySignal)
  }

  ghost predicate ShipOwner(o: Owner, ws: seq<Place>) {
    && o != BySignal
    && (o.ByWorker? ==> o.i < |ws|)
    && (forall i | 0 <= i < |ws| :: HoldsShip(ws[i]) <==> o == ByWorker(i))
  }

  predicate IsTaking(o: Owner, ws: seq<Place>) {
    o.ByWorker? && o.i < |ws| && ws[o.i].Taken?
  }

  function UpTo(n: int): seq<int> {
    if n <= 1 then [] else UpTo(n - 1) + [n - 1]
  }

  /** Every package docked is on the ship, or has a number, or is between the two. */
  ghost predicate Conserved(s: State) {
    && s.left >= 0 && s.next >= 1
    && s.docked == s.left + (s.next - 1) + (if IsTaking(s.stateOwner, s.workers) then 1 else 0)
    && s.handed == UpTo(s.next)
  }

  /** The number that a worker has in hand. */
  function Hand(p: Place): seq<int> {
    match p
    case Numbered(number) => [number]
    case Leaving(number) => [number]
    case Carrying(number) => [number]
    case _ => []
  }

  function Hands(ws: seq<Place>): seq<int> {
    if ws == [] then [] else Hand(ws[0]) + Hands(ws[1..])
  }

  /** Every number given out is in one worker's hand or has been announced, once. */
  ghost predicate Announced(s: State) {
    multiset(s.printed) + multiset(Hands(s.workers)) == multiset(s.handed)
  }

  /** No sleeper misses its wakeup: with something to wake for, the broadcast is next. */
  ghost predicate NoneForgotten(s: State) {
    forall i | 0 <= i < |s.workers| && s.workers[i] == Asleep ::
      (!s.terminate && s.left == 0) || s.signal == Docked || s.signal == Closed
  }

  ghost predicate Phases(s: State) {
    && (s.terminate <==> s.signal in {Closed, ClosedUnlock, Gone})
    && (s.signal == Docked ==> s.left > 0)
    && (forall i | 0 <= i < |s.workers| :: if s.terminate then Closes(s.workers[i]) else Works(s.workers[i]))
  }

  predicate Closes(p: Place) { !p.Taken? && !p.Numbered? }

  predicate Works(p: Place) { !p.Quit? && !p.Quit2? && !p.Done? }

  ghost predicate Inv(s: State) {
    && StateOwner(s.stateOwner, s.workers, s.signal)
    && ShipOwner(s.shipOwner, s.workers)
    && Conserved(s) && Announced(s) && NoneForgotten(s) && Phases(s)
  }

  lemma InitInv(s: State)
    requires Init(s)
    ensures Inv(s)
  {
    EmptyHands(s.workers);
  }

  lemma {:induction false} EmptyHands(ws: seq<Place>)
    requires forall i | 0 <= i < |ws| :: Hand(ws[i]) == []
    ensures Hands(ws) == []
  {
    if ws != [] {
      EmptyHands(ws[1..]);
    }
  }

  lemma {:induction false} HandsAt(ws: seq<Place>, i: nat, p: Place)
    requires i < |ws|
    ensures multiset(Hands(ws[i := p])) + multiset(Hand(ws[i])) == multiset(Hands(ws)) + multiset(Hand(p))
  {
    hide *;
    HandsStep(ws);
    HandsStep(ws[i := p]);
    if i > 0 {
      assert ws[i := p][1..] == ws[1..][i - 1 := p];
      HandsAt(ws[1..], i - 1, p);
      Balance(multiset(Hand(ws[0])), multiset(Hands(ws[1..])), multiset(Hands(ws[1..][i - 1 := p])),
              multiset(Hand(ws[i])), multiset(Hand(p)));
    } else {
      assert ws[0 := p][1..] == ws[1..];
    }
  }

  lemma Balance(a: multiset<int>, was: multiset<int>, now: multiset<int>, given: multiset<int>, taken: multiset<int>)
    requires now + given == was + taken
    ensures a + now + given == a + was + taken
    ensures a + given + now == a + was + taken
    ensures given == taken ==> a + now == a + was
  {
    assert a + now + given == a + (now + given);
    assert a + given + now == a + (now + given);
    assert a + was + taken == a + (was + taken);
    if given == taken {
      forall n ensures now[n] == was[n] {
        assert (now + given)[n] == (was + taken)[n];
      }
    }
  }

  lemma HandsStep(ws: seq<Place>)
    requires ws != []
    ensures multiset(Hands(ws)) == multiset(Hand(ws[0])) + multiset(Hands(ws[1..]))
  {
  }

  lemma {:induction false} WakingDropsNothing(ws: seq<Place>)
    ensures Hands(WakeAll(ws)) == Hands(ws)
  {
    if ws != [] {
      assert WakeAll(ws)[1..] == WakeAll(ws[1..]);
      WakingDropsNothing(ws[1..]);
    }
  }

  // ---------- one step ----------

  lemma StateOwnerChange(o: Owner, ws: seq<Place>, signal: Post, i: nat, q: Place, o': Owner)
    requires StateOwner(o, ws, signal) && i < |ws|
    requires if HoldsState(ws[i]) == HoldsState(q) then o' == o
             else if HoldsState(q) then o == Free && o' == ByWorker(i) else o' == Free
    ensures StateOwner(o', ws[i := q], signal)
  {
    assert HoldsState(ws[i]) <==> o == ByWorker(i);
  }

  lemma ShipOwnerChange(o: Owner, ws: seq<Place>, i: nat, q: Place, o': Owner)
    requires ShipOwner(o, ws) && i < |ws|
    requires if HoldsShip(ws[i]) == HoldsShip(q) then o' == o
             else if HoldsShip(q) then o == Free && o' == ByWorker(i) else o' == Free
    ensures ShipOwner(o', ws[i := q])
  {
    assert HoldsShip(ws[i]) <==> o == ByWorker(i);
  }

  lemma StateLocking(s: State, i: nat, t: State)
    requires i < |s.workers| && WorkerSteps(s, i, t)
    ensures |t.workers| == |s.workers|
    ensures var p, q := s.workers[i], t.workers[i];
            if HoldsState(p) == HoldsState(q) then t.stateOwner == s.stateOwner
            else if HoldsState(q) then s.stateOwner == Free && t.stateOwner == ByWorker(i) else t.stateOwner == Free
  {
  }

  lemma ShipLocking(s: State, i: nat, t: State)
    requires i < |s.workers| && WorkerSteps(s, i, t)
    ensures |t.workers| == |s.workers|
    ensures var p, q := s.workers[i], t.workers[i];
            if HoldsShip(p) == HoldsShip(q) then t.shipOwner == s.shipOwner
            else if HoldsShip(q) then s.shipOwner == Free && t.shipOwner == ByWorker(i) else t.shipOwner == Free
  {
  }

  /** What a worker's step leaves alone, and what it does to the packages. */
  lemma OneWorkerMoves(s: State, i: nat, t: State)
    requires i < |s.workers| && WorkerSteps(s, i, t)
    ensures |t.workers| == |s.workers| && t.workers == s.workers[i := t.workers[i]]
    ensures t.signal == s.signal && t.terminate == s.terminate && t.docked == s.docked
    ensures var p, q := s.workers[i], t.workers[i];
            && (q.Taken? <==> p.Checking? && !s.terminate && s.left > 0)
            && t.left == (if q.Taken? then s.left - 1 else s.left)
            && t.next == (if p.Taken? then s.next + 1 else s.next)
            && t.handed == (if p.Taken? then s.handed + [s.next] else s.handed)
            && (!Works(q) ==> s.terminate || !Works(p))
            && (q.Numbered? <==> p.Taken?)
            && (q.Asleep? ==> !s.terminate && s.left == 0)
  {
  }

  lemma WorkerKeepsOwners(s: State, i: nat, t: State)
    requires i < |s.workers| && WorkerSteps(s, i, t)
    requires StateOwner(s.stateOwner, s.workers, s.signal) && ShipOwner(s.shipOwner, s.workers)
    ensures StateOwner(t.stateOwner, t.workers, t.signal) && ShipOwner(t.shipOwner, t.workers)
  {
    hide StateOwner, ShipOwner, WorkerSteps, HoldsState, HoldsShip;
    StateLocking(s, i, t);
    ShipLocking(s, i, t);
    OneWorkerMoves(s, i, t);
    StateOwnerChange(s.stateOwner, s.workers, s.signal, i, t.workers[i], t.stateOwner);
    ShipOwnerChange(s.shipOwner, s.workers, i, t.workers[i], t.shipOwner);
  }

  lemma WorkerKeepsRest(s: State, i: nat, t: State)
    requires i < |s.workers| && WorkerSteps(s, i, t) && Inv(s)
    ensures Conserved(t) && Announced(t) && NoneForgotten(t) && Phases(t)
  {
    hide ShipOwner, WorkerSteps, Conserved, Announced, Hand;
    WorkerAnnounces(s, i, t);
    OneWorkerMoves(s, i, t);
    StateLocking(s, i, t);
    assert HoldsState(s.workers[i]) <==> s.stateOwner == ByWorker(i);
    assert forall j | 0 <= j < |s.workers| && j != i :: t.workers[j] == s.workers[j];
    WorkerConserves(s, i, t);
  }

  lemma WorkerHands(s: State, i: nat, t: State)
    requires i < |s.workers| && WorkerSteps(s, i, t)
    ensures |t.workers| == |s.workers| && t.workers == s.workers[i := t.workers[i]]
    ensures var p, q := s.workers[i], t.workers[i];
            if p.Taken? then Hand(p) == [] && Hand(q) == [s.next] && t.handed == s.handed + Hand(q) && t.printed == s.printed
            else t.handed == s.handed
                 && if p.Carrying? then Hand(q) == [] && t.printed == s.printed + Hand(p)
                    else Hand(q) == Hand(p) && t.printed == s.printed
  {
  }

  lemma WorkerAnnounces(s: State, i: nat, t: State)
    requires i < |s.workers| && WorkerSteps(s, i, t) && Announced(s)
    ensures Announced(t)
  {
    hide WorkerSteps, Hands, Hand;
    WorkerHands(s, i, t);
    HandsAt(s.workers, i, t.workers[i]);
    Balance(multiset(s.printed), multiset(Hands(s.workers)), multiset(Hands(t.workers)),
            multiset(Hand(s.workers[i])), multiset(Hand(t.workers[i])));
  }

  lemma WorkerConserves(s: State, i: nat, t: State)
    requires i < |s.workers| && WorkerSteps(s, i, t) && Inv(s)
    ensures Conserved(t)
  {
    hide ShipOwner, WorkerSteps, NoneForgotten, Phases, Announced;
    OneWorkerMoves(s, i, t);
    StateLocking(s, i, t);
    assert HoldsState(s.workers[i]) <==> s.stateOwner == ByWorker(i);
    assert forall j | 0 <= j < |s.workers| && j != i :: t.workers[j] == s.workers[j];
  }

  lemma SignalKeepsOwners(s: State, t: State)
    requires SignalSteps(s, t) && StateOwner(s.stateOwner, s.workers, s.signal) && ShipOwner(s.shipOwner, s.workers)
    ensures StateOwner(t.stateOwner, t.workers, t.signal) && ShipOwner(t.shipOwner, t.workers)
  {
    var ws, woken := s.workers, WakeAll(s.workers);
    forall i | 0 <= i < |ws|
      ensures HoldsState(woken[i]) == HoldsState(ws[i]) && HoldsShip(woken[i]) == HoldsShip(ws[i])
    {
    }
    SignalFrame(s, t);
  }

  lemma SignalFrame(s: State, t: State)
    requires SignalSteps(s, t)
    ensures t.workers == s.workers || t.workers == WakeAll(s.workers)
    ensures t.shipOwner == s.shipOwner && t.next == s.next && t.handed == s.handed && t.printed == s.printed
    ensures if SignalHolds(s.signal) == SignalHolds(t.signal) then t.stateOwner == s.stateOwner
            else if SignalHolds(t.signal) then s.stateOwner == Free && t.stateOwner == BySignal else t.stateOwner == Free
  {
    hide WakeAll;
  }

  lemma SignalKeepsRest(s: State, t: State)
    requires SignalSteps(s, t) && Inv(s)
    ensures Conserved(t) && Announced(t) && NoneForgotten(t) && Phases(t)
  {
    hide ShipOwner, Hands;
    WakingDropsNothing(s.workers);
    SignalFrame(s, t);
    forall i | 0 <= i < |s.workers| ensures SignalHolds(s.signal) ==> !HoldsState(s.workers[i]) {
    }
  }

  lemma SignalKeepsInv(s: State, t: State)
    requires SignalSteps(s, t) && Inv(s)
    ensures Inv(t)
  {
    hide SignalSteps, StateOwner, ShipOwner, Conserved, Announced, NoneForgotten, Phases;
    SignalKeepsOwners(s, t);
    SignalKeepsRest(s, t);
  }

  lemma StepKeepsInv(s: State, e: Step, t: State)
    requires Inv(s) && Takes(s, e, t)
    ensures Inv(t)
  {
    hide WorkerSteps, SignalSteps, StateOwner, ShipOwner, Conserved, Announced, NoneForgotten, Phases;
    match e {
      case Worker(i) =>
        WorkerKeepsOwners(s, i, t);
        WorkerKeepsRest(s, i, t);
      case Signal => SignalKeepsInv(s, t);
    }
  }

  // ---------- runs ----------

  lemma {:induction false} RunKeepsInv(run: seq<State>, i: nat)
    requires IsRun(run) && Inv(run[0]) && i < |run|
    ensures Inv(run[i])
    decreases i
  {
    hide Inv, Takes;
    if i > 0 {
      RunKeepsInv(run, i - 1);
      assert Next(run[i - 1], run[i - 1 + 1]);
      var e :| Takes(run[i - 1], e, run[i]);
      StepKeepsInv(run[i - 1], e, run[i]);
    }
  }

  /** No package is lost, none is given out twice: what has been handed out is 1, 2, 3, ... in
      order, and together with what is left on the ship it is all that was docked. */
  lemma PackagesConserved(run: seq<State>, i: nat)
    requires IsRun(run) && Init(run[0]) && i < |run|
    ensures var s := run[i];
            && s.left >= 0
            && |s.handed| == s.next - 1 && (forall k | 0 <= k < |s.handed| :: s.handed[k] == k + 1)
            && (s.stateOwner == Free ==> s.docked == s.left + |s.handed|)
  {
    InitInv(run[0]);
    RunKeepsInv(run, i);
    UpToCounts(run[i].next);
  }

  lemma {:induction false} UpToCounts(n: int)
    requires n >= 1
    ensures |UpTo(n)| == n - 1 && forall k | 0 <= k < n - 1 :: UpTo(n)[k] == k + 1
  {
    if n > 1 {
      UpToCounts(n - 1);
    }
  }

  /** What the workers announce: only numbers given out, none twice; and when all are done, all. */
  lemma EachIsCarriedOnce(run: seq<State>, i: nat)
    requires IsRun(run) && Init(run[0]) && i < |run|
    ensures var s := run[i];
            && (forall n :: multiset(s.printed)[n] <= if 1 <= n <= |s.handed| then 1 else 0)
            && ((forall w | 0 <= w < |s.workers| :: s.workers[w] == Done) ==>
                forall n | 1 <= n <= |s.handed| :: multiset(s.printed)[n] == 1)
  {
    InitInv(run[0]);
    RunKeepsInv(run, i);
    var s := run[i];
    hide *;
    AllAnnounced(s);
    UpToCounts(s.next);
    forall n ensures multiset(s.handed)[n] == if 1 <= n <= |s.handed| then 1 else 0 {
      UpToHasOne(s.next, n);
    }
  }

  lemma AllAnnounced(s: State)
    requires Inv(s)
    ensures s.next >= 1 && s.handed == UpTo(s.next) && multiset(s.printed) <= multiset(s.handed)
    ensures (forall w | 0 <= w < |s.workers| :: s.workers[w] == Done) ==> multiset(s.printed) == multiset(s.handed)
  {
    hide StateOwner, ShipOwner, NoneForgotten, Phases;
    if forall w | 0 <= w < |s.workers| :: s.workers[w] == Done {
      EmptyHands(s.workers);
    }
  }

  lemma {:induction false} UpToHasOne(n: int, k: int)
    ensures multiset(UpTo(n))[k] == if 1 <= k < n then 1 else 0
    decreases n
  {
    if n > 1 {
      UpToHasOne(n - 1, k);
    }
  }

  lemma StepAfterTerminate(s: State, t: State)
    requires Inv(s) && Next(s, t) && s.terminate
    ensures t.terminate && t.next == s.next && t.handed == s.handed && t.left == s.left
  {
    hide StateOwner, ShipOwner, Conserved, Announced, NoneForgotten, WorkerSteps;
    var e :| Takes(s, e, t);
    match e {
      case Worker(i) => OneWorkerMoves(s, i, t);
      case Signal =>
    }
  }

  /** Nothing is handed out once the port has been told to close. */
  lemma {:induction false} NothingAfterTerminate(run: seq<State>, i: nat, j: nat)
    requires IsRun(run) && Inv(run[0]) && i <= j < |run| && run[i].terminate
    ensures run[j].terminate && run[j].handed == run[i].handed && run[j].left == run[i].left
    decreases j
  {
    hide Inv, Takes;
    if i < j {
      NothingAfterTerminate(run, i, j - 1);
      RunKeepsInv(run, j - 1);
      assert Next(run[j - 1], run[j - 1 + 1]);
      StepAfterTerminate(run[j - 1], run[j]);
    }
  }

  /** While the state mutex is free, a worker asleep has nothing to wake for. */
  lemma NoLostWakeup(run: seq<State>, i: nat, w: nat)
    requires IsRun(run) && Init(run[0]) && i < |run| && w < |run[i].workers|
    requires run[i].stateOwner == Free && run[i].workers[w] == Asleep
    ensures !run[i].terminate && run[i].left == 0
  {
    InitInv(run[0]);
    RunKeepsInv(run, i);
  }

  // ---------- progress ----------

  /** A thread that can step without anyone's help: not a worker asleep, nor the signal thread in
      sigwait. */
  ghost predicate Able(s: State, e: Step) {
    match e
    case Worker(i) => i < |s.workers| && s.workers[i] != Asleep && exists t :: WorkerSteps(s, i, t)
    case Signal => s.signal != Waiting && exists t :: SignalSteps(s, t)
  }

  predicate AtRest(s: State) {
    && (forall i | 0 <= i < |s.workers| :: s.workers[i] == Asleep || s.workers[i] == Done)
    && (s.signal == Waiting || s.signal == Gone)
  }

  function AfterWorker(s: State, i: nat): State
    requires i < |s.workers|
  {
    match s.workers[i]
    case Start => LockState(At(s, i, Testing), ByWorker(i))
    case Testing => if !s.terminate && s.left == 0 then LockState(At(s, i, Asleep), Free) else At(s, i, Decided)
    case Asleep => At(s, i, Woken)
    case Woken => LockState(At(s, i, Testing), ByWorker(i))
    case Decided => LockState(At(s, i, if s.terminate then Done else WantShip), Free)
    case WantShip => LockShip(At(s, i, OnShip), ByWorker(i))
    case OnShip => At(s, i, WantState)
    case WantState => LockState(At(s, i, Checking), ByWorker(i))
    case Checking =>
      if s.terminate then At(s, i, Quit) else if s.left <= 0 then At(s, i, NoLuck)
      else At(s, i, Taken).(left := s.left - 1)
    case Taken => At(s, i, Numbered(s.next)).(next := s.next + 1, handed := s.handed + [s.next])
    case Numbered(number) => LockState(At(s, i, Leaving(number)), Free)
    case Leaving(number) => LockShip(At(s, i, Carrying(number)), Free)
    case Carrying(number) => At(s, i, Start).(printed := s.printed + [number])
    case NoLuck => LockState(At(s, i, NoLuck2), Free)
    case NoLuck2 => LockShip(At(s, i, Start), Free)
    case Quit => LockState(At(s, i, Quit2), Free)
    case Quit2 => LockShip(At(s, i, Done), Free)
    case Done => s
  }

  predicate WantsState(p: Place) { p.Start? || p.Woken? || p.WantState? }

  lemma AbleWorker(s: State, i: nat)
    requires i < |s.workers| && s.workers[i] != Asleep && s.workers[i] != Done
    requires WantsState(s.workers[i]) ==> s.stateOwner == Free
    requires s.workers[i] == WantShip ==> s.shipOwner == Free
    ensures Able(s, Worker(i))
  {
    assert WorkerSteps(s, i, AfterWorker(s, i));
  }

  lemma AbleSignal(s: State)
    requires s.signal != Waiting && s.signal != Gone
    requires s.signal == WantDock || s.signal == WantClose ==> s.stateOwner == Free
    ensures Able(s, Signal)
  {
    var t := match s.signal
      case WantDock => LockState(s.(signal := Docking), BySignal)
      case Docking =>
        if s.terminate || s.left > 0 then LockState(s.(signal := Waiting), Free)
        else s.(signal := Docked, left := 30, docked := s.docked + 30)
      case Docked => s.(signal := DockedUnlock, workers := WakeAll(s.workers))
      case DockedUnlock => LockState(s.(signal := Waiting), Free)
      case WantClose => LockState(s.(signal := Closing), BySignal)
      case Closing => s.(signal := Closed, terminate := true)
      case Closed => s.(signal := ClosedUnlock, workers := WakeAll(s.workers))
      case _ => LockState(s.(signal := Gone), Free);
    assert SignalSteps(s, t);
  }

  /** The two mutexes never deadlock: some thread can step exactly while not every worker is asleep
      or done and the signal thread waiting or gone. */
  lemma AbleIff(s: State)
    requires Inv(s)
    ensures (exists e :: Able(s, e)) <==> !AtRest(s)
  {
    hide Conserved, Announced, NoneForgotten, Phases, Able;
    if !AtRest(s) {
      SomeoneIsAble(s);
    } else {
      forall e ensures !Able(s, e) {
        RestIsRest(s, e);
      }
    }
  }

  lemma RestIsRest(s: State, e: Step)
    requires AtRest(s)
    ensures !Able(s, e)
  {
  }

  lemma SomeoneIsAble(s: State)
    requires Inv(s) && !AtRest(s)
    ensures exists e :: Able(s, e)
  {
    hide Conserved, Announced, NoneForgotten, Phases, Able;
    match s.stateOwner {
      case ByWorker(i) =>
        assert HoldsState(s.workers[i]);
        AbleWorker(s, i);
      case BySignal => AbleSignal(s);
      case Free =>
        if s.signal != Waiting && s.signal != Gone {
          AbleSignal(s);
        } else {
          var i :| 0 <= i < |s.workers| && s.workers[i] != Asleep && s.workers[i] != Done;
          assert !HoldsState(s.workers[i]);
          if s.workers[i] == WantShip && s.shipOwner != Free {
            var j := s.shipOwner.i;
            assert HoldsShip(s.workers[j]) && !HoldsState(s.workers[j]);
            AbleWorker(s, j);
          } else {
            AbleWorker(s, i);
          }
        }
    }
  }

  // ---------- closing the port ----------

  /** How many steps a worker is from the end once the port closes. */
  function Distance(p: Place): nat {
    match p
    case Done => 0
    case Decided => 1
    case Testing => 2
    case Start => 3
    case Woken => 3
    case Asleep => 4
    case Carrying(_) => 4
    case Leaving(_) => 5
    case Numbered(_) => 6
    case Taken => 7
    case Quit2 => 1
    case Quit => 2
    case Checking => 3
    case WantState => 4
    case OnShip => 5
    case WantShip => 6
    case NoLuck2 => 4
    case NoLuck => 5
  }

  function Distances(ws: seq<Place>): nat {
    if ws == [] then 0 else Distance(ws[0]) + Distances(ws[1..])
  }

  function Rank(s: State): nat {
    Distances(s.workers) + match s.signal case Closed => 2 case ClosedUnlock => 1 case _ => 0
  }

  lemma {:induction false} DistancesAt(ws: seq<Place>, i: nat, p: Place)
    requires i < |ws|
    ensures Distances(ws[i := p]) == Distances(ws) - Distance(ws[i]) + Distance(p)
  {
    if i > 0 {
      assert ws[i := p][1..] == ws[1..][i - 1 := p];
      DistancesAt(ws[1..], i - 1, p);
    } else {
      assert ws[0 := p][1..] == ws[1..];
    }
  }

  lemma {:induction false} WakingBringsNearer(ws: seq<Place>)
    ensures Distances(WakeAll(ws)) <= Distances(ws)
  {
    if ws != [] {
      assert WakeAll(ws)[1..] == WakeAll(ws[1..]);
      WakingBringsNearer(ws[1..]);
    }
  }

  /** Once the port closes, every step of any thread brings the end nearer. */
  lemma StepsBringNearer(s: State, t: State)
    requires Inv(s) && Next(s, t) && s.terminate
    ensures Rank(t) < Rank(s)
  {
    hide StateOwner, ShipOwner, Conserved, Announced, NoneForgotten, WakeAll;
    var e :| Takes(s, e, t);
    match e {
      case Worker(i) =>
        OneWorkerMoves(s, i, t);
        WorkerNearer(s, i, t);
        DistancesAt(s.workers, i, t.workers[i]);
      case Signal => WakingBringsNearer(s.workers);
    }
  }

  lemma WorkerNearer(s: State, i: nat, t: State)
    requires i < |s.workers| && WorkerSteps(s, i, t) && s.terminate
    ensures |t.workers| == |s.workers| && Distance(t.workers[i]) < Distance(s.workers[i])
  {
  }

  /** While the end has not been reached, some thread can step; when it has, all threads are done. */
  lemma ClosingEnds(s: State)
    requires Inv(s) && s.terminate
    ensures Rank(s) > 0 ==> exists e :: Able(s, e)
    ensures Rank(s) == 0 <==> s.signal == Gone && forall i | 0 <= i < |s.workers| :: s.workers[i] == Done
  {
    hide StateOwner, ShipOwner, Conserved, Announced, Able;
    AllDoneIff(s.workers);
    AbleIff(s);
  }

  lemma {:induction false} AllDoneIff(ws: seq<Place>)
    ensures Distances(ws) == 0 <==> forall i | 0 <= i < |ws| :: ws[i] == Done
  {
    if ws != [] {
      AllDoneIff(ws[1..]);
      assert (forall i | 0 <= i < |ws| :: ws[i] == Done) <==>
             ws[0] == Done && (forall i | 0 <= i < |ws[1..]| :: ws[1..][i] == Done) by {
        if forall i | 0 <= i < |ws[1..]| :: ws[1..][i] == Done {
          assert forall i | 1 <= i < |ws| :: ws[i] == ws[1..][i - 1];
        }
      }
    }
  }

  /** However the threads are scheduled, the port is empty after at most `Rank` more steps. */
  lemma {:induction false} ClosingIsBounded(run: seq<State>, i: nat, j: nat)
    requires IsRun(run) && Inv(run[0]) && i <= j < |run| && run[i].terminate
    ensures run[j].terminate && Rank(run[j]) + (j - i) <= Rank(run[i])
    decreases j
  {
    hide Inv, Takes, Rank;
    NothingAfterTerminate(run, i, j);
    if i < j {
      ClosingIsBounded(run, i, j - 1);
      RunKeepsInv(run, j - 1);
      assert Next(run[j - 1], run[j - 1 + 1]);
      StepsBringNearer(run[j - 1], run[j]);
    }
  }

  // ---------- the code on the shared record ----------

  datatype Errand = TooLate | NothingLeft | Package(number: int)

  /** The fields of Shared, changed inside the critical sections; each method is one section. */
  class Shared {
    var packagesLeft: int
    var nextPackage: int
    var terminate: bool
    ghost var docked: int
    ghost var handed: seq<int>

    ghost predicate Valid()
      reads this
    {
      packagesLeft >= 0 && nextPackage >= 1 && docked == packagesLeft + nextPackage - 1 && handed == UpTo(nextPackage)
    }

    constructor ()
      ensures Valid() && packagesLeft == 0 && nextPackage == 1 && !terminate && docked == 0 && handed == []
    {
      packagesLeft, nextPackage, terminate, docked, handed := 0, 1, false, 0, [];
    }

    /** dock_ship: only an open and empty port takes a ship, of 30 to 60 packages. */
    method DockShip(random: nat) returns (took: bool)
      requires Valid()
      modifies this
      ensures Valid() && terminate == old(terminate) && handed == old(handed)
      ensures took <==> !terminate && old(packagesLeft) == 0
      ensures if took then 30 <= packagesLeft <= 60 && docked == old(docked) + packagesLeft
              else packagesLeft == old(packagesLeft) && docked == old(docked)
    {
      if terminate || packagesLeft > 0 {
        return false;
      }
      packagesLeft := random % 31 + 30;
      docked := docked + packagesLeft;
      return true;
    }

    method TryTerminate()
      requires Valid()
      modifies this
      ensures Valid() && terminate
      ensures packagesLeft == old(packagesLeft) && docked == old(docked) && handed == old(handed)
    {
      terminate := true;
    }

    /** The section under both mutexes: the next number, if there is a package and time left. */
    method Unload() returns (e: Errand)
      requires Valid()
      modifies this
      ensures Valid() && terminate == old(terminate) && docked == old(docked)
      ensures e == TooLate <==> terminate
      ensures e == NothingLeft <==> !terminate && old(packagesLeft) == 0
      ensures e.Package? ==> e.number == |old(handed)| + 1 && e.number !in old(handed) && handed == old(handed) + [e.number]
      ensures !e.Package? ==> handed == old(handed) && packagesLeft == old(packagesLeft)
    {
      UpToCounts(nextPackage);
      if terminate {
        return TooLate;
      }
      if packagesLeft <= 0 {
        return NothingLeft;
      }
      packagesLeft := packagesLeft - 1;
      e := Package(nextPackage);
      nextPackage := nextPackage + 1;
      handed := handed + [e.number];
    }
  }
}
