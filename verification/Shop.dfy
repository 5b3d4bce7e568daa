/** The shop: workers sort shelves pairwise under per-shelf mutexes while a signal thread now and
    then takes every mutex to show or shuffle the shelves. A state machine over the threads' steps. */
module Shop {
  import opened Basics
  import Shuffle

  datatype Owner = Free | ByWorker(i: nat) | BySignal

  /** Where a worker is. The pair of shelves is ordered from `Want1` on; `Store1` and `Store2` are
      the two assignments of the swap, `x` and `y` the products read from the first and second. */
  datatype Place =
    | Reporting
    | Idle
    | InFlag
    | Asleep(a: nat, b: nat)
    | Want1(a: nat, b: nat)
    | Want2(a: nat, b: nat)
    | Both(a: nat, b: nat)
    | Store1(a: nat, b: nat, x: int, y: int)
    | Store2(a: nat, b: nat, x: int, y: int)
    | Nap(a: nat, b: nat)
    | Rel1(a: nat, b: nat)
    | Rel2(a: nat, b: nat)
    | Left
    | Cancelled
    | Stuck(a: nat, b: nat)

  datatype Job = Show | Mix

  /** Where the signal thread is; `k` counts the mutexes taken, or given back, so far. */
  datatype Post =
    | Waiting
    | Locking(job: Job, k: nat)
    | Holding(job: Job)
    | Unlocking(job: Job, k: nat)
    | FlagWanted
    | FlagHeld
    | Gone

  datatype State = State(
    shelves: seq<int>,
    owner: seq<Owner>,
    flag: bool,
    flagOwner: Owner,
    workers: seq<Place>,
    cancelled: seq<bool>,
    signal: Post,
    active: seq<nat>)

  function Products(n: nat): seq<int> {
    seq(n, i => i + 1)
  }

  ghost predicate Init(s: State) {
    && 2 <= |s.shelves| == |s.owner|
    && multiset(s.shelves) == multiset(Products(|s.shelves|))
    && (forall k | 0 <= k < |s.owner| :: s.owner[k] == Free)
    && !s.flag && s.flagOwner == Free
    && (forall i | 0 <= i < |s.workers| :: s.workers[i] == Reporting)
    && |s.cancelled| == |s.workers| && (forall i | 0 <= i < |s.workers| :: !s.cancelled[i])
    && s.signal == Waiting
    && s.active == seq(|s.workers|, i => i)
  }

  // ---------- steps ----------

  function At(s: State, i: nat, p: Place): State
    requires i < |s.workers|
  {
    s.(workers := s.workers[i := p])
  }

  function Own(s: State, k: nat, o: Owner): State
    requires k < |s.owner|
  {
    s.(owner := s.owner[k := o])
  }

  function Put(s: State, k: nat, x: int): State
    requires k < |s.shelves|
  {
    s.(shelves := s.shelves[k := x])
  }

  ghost predicate Sane(s: State) {
    && 2 <= |s.shelves| == |s.owner| && |s.cancelled| == |s.workers|
    && (forall i | 0 <= i < |s.workers| :: PlaceSane(s.workers[i], |s.shelves|))
    && (s.signal.Locking? || s.signal.Unlocking? ==> s.signal.k <= |s.shelves|)
  }

  predicate PlaceSane(p: Place, n: nat) {
    match p
    case Asleep(a, b) => a < n && b < n && a != b
    case Want1(a, b) => a < b < n
    case Want2(a, b) => a < b < n
    case Both(a, b) => a < b < n
    case Store1(a, b, _, _) => a < b < n
    case Store2(a, b, _, _) => a < b < n
    case Nap(a, b) => a < b < n
    case Rel1(a, b) => a < b < n
    case Rel2(a, b) => a < b < n
    case Stuck(a, b) => a < b < n
    case _ => true
  }

  /** A worker's ordinary step. */
  ghost predicate WorkerSteps(s: State, i: nat, t: State)
    requires Sane(s) && i < |s.workers|
  {
    match s.workers[i]
    case Reporting => t == At(s, i, Idle)
    case Idle => s.flagOwner == Free && t == At(s, i, InFlag).(flagOwner := ByWorker(i))
    case InFlag =>
      if s.flag then t == At(s, i, Left).(flagOwner := Free)
      else exists a: nat, b: nat :: a < |s.shelves| && b < |s.shelves| && a != b
                          && t == At(s, i, Asleep(a, b)).(flagOwner := Free)
    case Asleep(a, b) => t == At(s, i, if a > b then Want1(b, a) else Want1(a, b))
    case Want1(a, b) => s.owner[a] == Free && t == Own(At(s, i, Want2(a, b)), a, ByWorker(i))
    case Want2(a, b) => s.owner[b] == Free && t == Own(At(s, i, Both(a, b)), b, ByWorker(i))
    case Both(a, b) =>
      t == At(s, i, if s.shelves[a] > s.shelves[b] then Store1(a, b, s.shelves[a], s.shelves[b]) else Rel1(a, b))
    case Store1(a, b, x, y) => t == Put(At(s, i, Store2(a, b, x, y)), a, y)
    case Store2(a, b, x, y) => t == Put(At(s, i, Nap(a, b)), b, x)
    case Nap(a, b) => t == At(s, i, Rel1(a, b))
    case Rel1(a, b) => t == Own(At(s, i, Rel2(a, b)), a, Free)
    case Rel2(a, b) => t == Own(At(s, i, Idle), b, Free)
    case _ => false
  }

  /** A pending cancellation acts at a cancellation point. Inside the nap the worker holds both
      mutexes, and its cleanup handler locks the second again instead of unlocking it. */
  predicate CancelActs(s: State, i: nat, t: State)
    requires i < |s.workers| == |s.cancelled|
  {
    s.cancelled[i] &&
    match s.workers[i]
    case Reporting => t == At(s, i, Cancelled)
    case Asleep(_, _) => t == At(s, i, Cancelled)
    case Nap(a, b) => t == At(s, i, Stuck(a, b))
    case _ => false
  }

  ghost predicate SignalSteps(s: State, t: State)
    requires Sane(s)
  {
    match s.signal
    case Waiting =>
      || t == s.(signal := FlagWanted)
      || t == s.(signal := Locking(Show, 0))
      || t == s.(signal := Locking(Mix, 0))
      || (s.active == [] && t == s)
      || exists id: nat :: id < |s.active| && CancelsOne(s, id, t)
    case Locking(job, k) =>
      if k == |s.shelves| then t == s.(signal := Holding(job))
      else s.owner[k] == Free && t == Own(s.(signal := Locking(job, k + 1)), k, BySignal)
    case Holding(job) =>
      if job == Show then t == s.(signal := Unlocking(job, 0))
      else exists js :: Shuffle.Choices(js, |s.shelves|)
                        && t == s.(signal := Unlocking(job, 0), shelves := Shuffle.Shuffled(s.shelves, js))
    case Unlocking(job, k) =>
      if k == |s.shelves| then t == s.(signal := Waiting)
      else t == Own(s.(signal := Unlocking(job, k + 1)), k, Free)
    case FlagWanted => s.flagOwner == Free && t == s.(signal := FlagHeld, flagOwner := BySignal)
    case FlagHeld => t == s.(signal := Gone, flag := true, flagOwner := Free)
    case Gone => false
  }

  /** SIGUSR2: the worker in slot `id` is cancelled, and the last slot's worker takes the slot. */
  predicate CancelsOne(s: State, id: nat, t: State)
    requires id < |s.active|
  {
    var left := SwapRemove(s.active, id);
    && s.active[id] < |s.cancelled|
    && t == s.(cancelled := s.cancelled[s.active[id] := true], active := left,
               signal := if left == [] then FlagWanted else Waiting)
  }

  datatype Step = Ordinary(i: nat) | Cancel(i: nat) | Signal

  ghost predicate Takes(s: State, e: Step, t: State)
    requires Sane(s)
  {
    match e
    case Ordinary(i) => i < |s.workers| && WorkerSteps(s, i, t)
    case Cancel(i) => i < |s.workers| && CancelActs(s, i, t)
    case Signal => SignalSteps(s, t)
  }

  // ---------- invariants ----------

  predicate HoldsShelf(p: Place, k: nat) {
    match p
    case Want2(a, _) => k == a
    case Both(a, b) => k == a || k == b
    case Store1(a, b, _, _) => k == a || k == b
    case Store2(a, b, _, _) => k == a || k == b
    case Nap(a, b) => k == a || k == b
    case Rel1(a, b) => k == a || k == b
    case Rel2(_, b) => k == b
    case Stuck(a, b) => k == a || k == b
    case _ => false
  }

  predicate SignalHolds(p: Post, k: nat) {
    match p
    case Locking(_, j) => k < j
    case Holding(_) => true
    case Unlocking(_, j) => k >= j
    case _ => false
  }

  ghost predicate Range(owner: seq<Owner>, n: nat) {
    forall k | 0 <= k < |owner| :: owner[k].ByWorker? ==> owner[k].i < n
  }

  /** Each mutex is owned by the thread whose place says so, and by no other. */
  ghost predicate Owners(owner: seq<Owner>, workers: seq<Place>, signal: Post) {
    && Range(owner, |workers|)
    && (forall i, k | 0 <= i < |workers| && 0 <= k < |owner| ::
          HoldsShelf(workers[i], k) <==> owner[k] == ByWorker(i))
    && (forall k | 0 <= k < |owner| :: SignalHolds(signal, k) <==> owner[k] == BySignal)
  }

  ghost predicate FlagOwner(owner: Owner, workers: seq<Place>, signal: Post) {
    && (owner.ByWorker? ==> owner.i < |workers|)
    && (forall i | 0 <= i < |workers| :: workers[i].InFlag? <==> owner == ByWorker(i))
    && (signal.FlagHeld? <==> owner == BySignal)
  }

  /** What a swapping worker has read is still there. */
  ghost predicate ReadsOk(shelves: seq<int>, p: Place)
    requires PlaceSane(p, |shelves|)
  {
    match p
    case Store1(a, b, x, y) => shelves[a] == x > y == shelves[b]
    case Store2(a, b, x, y) => shelves[a] == y < x
    case _ => true
  }

  ghost predicate Reads(s: State)
    requires Sane(s)
  {
    forall i | 0 <= i < |s.workers| :: ReadsOk(s.shelves, s.workers[i])
  }

  /** The product that belongs on a shelf: inside a swap, between the two assignments, the first
      shelf's product is for a moment nowhere but in the worker's hand. */
  ghost function ProductAt(s: State, k: nat): int
    requires Range(s.owner, |s.workers|) && k < |s.shelves| == |s.owner|
  {
    if s.owner[k].ByWorker? then
      var p := s.workers[s.owner[k].i];
      if p.Store2? && p.b == k then p.x else s.shelves[k]
    else s.shelves[k]
  }

  ghost function Stock(s: State): (r: seq<int>)
    requires Range(s.owner, |s.workers|) && |s.shelves| == |s.owner|
    ensures |r| == |s.shelves|
  {
    seq(|s.shelves|, k requires 0 <= k < |s.shelves| => ProductAt(s, k))
  }

  ghost predicate Complete(s: State)
    requires Range(s.owner, |s.workers|) && |s.shelves| == |s.owner|
  {
    multiset(Stock(s)) == multiset(Products(|s.shelves|))
  }

  /** The table of active workers lists each worker not yet cancelled once. */
  ghost predicate Roster(cancelled: seq<bool>, active: seq<nat>) {
    && (forall j | 0 <= j < |active| :: active[j] < |cancelled| && !cancelled[active[j]])
    && (forall j, k | 0 <= j < k < |active| :: active[j] != active[k])
    && (forall i | 0 <= i < |cancelled| && !cancelled[i] :: i in active)
  }

  /** The flag is what the signal thread sets last, and without workers left to cancel it is on its way
      to that. */
  predicate Closing(s: State) {
    && (s.flag <==> s.signal == Gone)
    && (|s.cancelled| > 0 && s.active == [] ==> s.signal in {FlagWanted, FlagHeld, Gone})
  }

  ghost predicate Inv(s: State) {
    && Sane(s)
    && Owners(s.owner, s.workers, s.signal)
    && FlagOwner(s.flagOwner, s.workers, s.signal)
    && Reads(s) && Complete(s) && Roster(s.cancelled, s.active) && Closing(s)
  }

  lemma InitInv(s: State)
    requires Init(s)
    ensures Inv(s)
  {
    assert Stock(s) == s.shelves;
    forall i | 0 <= i < |s.cancelled| ensures i in s.active {
      assert s.active[i] == i;
    }
  }

  // ---------- one step ----------

  lemma SameHoldings(owner: seq<Owner>, workers: seq<Place>, signal: Post, i: nat, q: Place)
    requires Owners(owner, workers, signal) && i < |workers|
    requires forall k :: HoldsShelf(q, k) <==> HoldsShelf(workers[i], k)
    ensures Owners(owner, workers[i := q], signal)
  {
  }

  lemma TakesShelf(owner: seq<Owner>, workers: seq<Place>, signal: Post, i: nat, q: Place, k: nat)
    requires Owners(owner, workers, signal) && i < |workers| && k < |owner| && owner[k] == Free
    requires forall j :: HoldsShelf(q, j) <==> HoldsShelf(workers[i], j) || j == k
    ensures Owners(owner[k := ByWorker(i)], workers[i := q], signal)
  {
  }

  lemma GivesShelf(owner: seq<Owner>, workers: seq<Place>, signal: Post, i: nat, q: Place, k: nat)
    requires Owners(owner, workers, signal) && i < |workers| && k < |owner| && HoldsShelf(workers[i], k)
    requires forall j :: HoldsShelf(q, j) <==> HoldsShelf(workers[i], j) && j != k
    ensures Owners(owner[k := Free], workers[i := q], signal)
  {
  }

  lemma WorkerKeepsOwners(s: State, i: nat, t: State)
    requires Sane(s) && Owners(s.owner, s.workers, s.signal) && i < |s.workers| && WorkerSteps(s, i, t)
    ensures Owners(t.owner, t.workers, t.signal)
  {
    hide Owners, ReadsOk;
    var q := t.workers[i];
    match s.workers[i] {
      case Want1(a, b) => TakesShelf(s.owner, s.workers, s.signal, i, q, a);
      case Want2(a, b) => TakesShelf(s.owner, s.workers, s.signal, i, q, b);
      case Rel1(a, b) => GivesShelf(s.owner, s.workers, s.signal, i, q, a);
      case Rel2(a, b) => GivesShelf(s.owner, s.workers, s.signal, i, q, b);
      case _ => SameHoldings(s.owner, s.workers, s.signal, i, q);
    }
  }

  lemma SignalSameHoldings(owner: seq<Owner>, workers: seq<Place>, signal: Post, post: Post)
    requires Owners(owner, workers, signal)
    requires forall k | 0 <= k < |owner| :: SignalHolds(post, k) <==> SignalHolds(signal, k)
    ensures Owners(owner, workers, post)
  {
  }

  lemma SignalTakes(owner: seq<Owner>, workers: seq<Place>, signal: Post, post: Post, k: nat)
    requires Owners(owner, workers, signal) && k < |owner| && owner[k] == Free
    requires forall j | 0 <= j < |owner| :: SignalHolds(post, j) <==> SignalHolds(signal, j) || j == k
    ensures Owners(owner[k := BySignal], workers, post)
  {
  }

  lemma SignalGives(owner: seq<Owner>, workers: seq<Place>, signal: Post, post: Post, k: nat)
    requires Owners(owner, workers, signal) && k < |owner| && SignalHolds(signal, k)
    requires forall j | 0 <= j < |owner| :: SignalHolds(post, j) <==> SignalHolds(signal, j) && j != k
    ensures Owners(owner[k := Free], workers, post)
  {
  }

  lemma SignalKeepsOwners(s: State, t: State)
    requires Sane(s) && Owners(s.owner, s.workers, s.signal) && SignalSteps(s, t)
    ensures Owners(t.owner, t.workers, t.signal)
  {
    hide Shuffle.Shuffled, Owners;
    if s.signal.Locking? && s.signal.k < |s.owner| {
      SignalTakes(s.owner, s.workers, s.signal, t.signal, s.signal.k);
    } else if s.signal.Unlocking? && s.signal.k < |s.owner| {
      SignalGives(s.owner, s.workers, s.signal, t.signal, s.signal.k);
    } else {
      assert t.owner == s.owner && t.workers == s.workers;
      SignalSameHoldings(s.owner, s.workers, s.signal, t.signal);
    }
  }

  lemma WorkerKeepsFlagOwner(s: State, i: nat, t: State)
    requires Sane(s) && FlagOwner(s.flagOwner, s.workers, s.signal) && i < |s.workers| && WorkerSteps(s, i, t)
    ensures FlagOwner(t.flagOwner, t.workers, t.signal)
  {
    var q := t.workers[i];
    assert t.workers == s.workers[i := q];
    assert t.signal == s.signal;
    assert s.workers[i].InFlag? ==> t.flagOwner == Free && !q.InFlag?;
    assert s.workers[i].Idle? ==> s.flagOwner == Free && t.flagOwner == ByWorker(i) && q.InFlag?;
    assert !s.workers[i].InFlag? && !s.workers[i].Idle? ==> t.flagOwner == s.flagOwner && !q.InFlag?;
    FlagChange(s.flagOwner, s.workers, s.signal, i, q, t.flagOwner);
  }

  lemma FlagChange(owner: Owner, workers: seq<Place>, signal: Post, i: nat, q: Place, owner': Owner)
    requires FlagOwner(owner, workers, signal) && i < |workers|
    requires if workers[i].InFlag? then owner' == Free && !q.InFlag?
             else if q.InFlag? then owner == Free && owner' == ByWorker(i)
             else owner' == owner
    ensures FlagOwner(owner', workers[i := q], signal)
  {
  }

  lemma SignalKeepsFlagOwner(s: State, t: State)
    requires Sane(s) && FlagOwner(s.flagOwner, s.workers, s.signal) && SignalSteps(s, t)
    ensures FlagOwner(t.flagOwner, t.workers, t.signal)
  {
    hide Shuffle.Shuffled, Sane;
  }

  /** Two workers never hold the same shelf. */
  lemma Exclusion(s: State, i: nat, j: nat, k: nat)
    requires Owners(s.owner, s.workers, s.signal)
    requires i < |s.workers| && j < |s.workers| && k < |s.owner|
    requires HoldsShelf(s.workers[i], k) && HoldsShelf(s.workers[j], k)
    ensures i == j && !SignalHolds(s.signal, k)
  {
    assert s.owner[k] == ByWorker(i) && s.owner[k] == ByWorker(j);
  }

  lemma OthersRead(s: State, i: nat, q: Place, k: nat, x: int)
    requires Sane(s) && Owners(s.owner, s.workers, s.signal) && Reads(s)
    requires i < |s.workers| && k < |s.shelves| && HoldsShelf(s.workers[i], k)
    requires PlaceSane(q, |s.shelves|) && ReadsOk(s.shelves[k := x], q)
    ensures Sane(Put(At(s, i, q), k, x)) && Reads(Put(At(s, i, q), k, x))
  {
    var t := Put(At(s, i, q), k, x);
    forall j | 0 <= j < |t.workers| && j != i ensures ReadsOk(t.shelves, t.workers[j]) {
      if HoldsShelf(s.workers[j], k) {
        Exclusion(s, i, j, k);
      }
      assert ReadsOk(s.shelves, s.workers[j]);
    }
  }

  lemma WorkerKeepsReads(s: State, i: nat, t: State)
    requires Sane(s) && Owners(s.owner, s.workers, s.signal) && Reads(s) && i < |s.workers| && WorkerSteps(s, i, t)
    ensures Sane(t) && Reads(t)
  {
    hide Owners, Reads;
    if s.workers[i].Store1? || s.workers[i].Store2? {
      StoreKeepsReads(s, i, t);
    } else {
      OtherKeepsReads(s, i, t);
    }
  }

  lemma StoreKeepsReads(s: State, i: nat, t: State)
    requires Sane(s) && Owners(s.owner, s.workers, s.signal) && Reads(s) && i < |s.workers| && WorkerSteps(s, i, t)
    requires s.workers[i].Store1? || s.workers[i].Store2?
    ensures Sane(t) && Reads(t)
  {
    hide Owners;
    var p, q := s.workers[i], t.workers[i];
    assert ReadsOk(s.shelves, p) && PlaceSane(p, |s.shelves|);
    if p.Store1? {
      OthersRead(s, i, q, p.a, p.y);
    } else {
      OthersRead(s, i, q, p.b, p.x);
    }
  }

  lemma OtherKeepsReads(s: State, i: nat, t: State)
    requires Sane(s) && Reads(s) && i < |s.workers| && WorkerSteps(s, i, t)
    requires !s.workers[i].Store1? && !s.workers[i].Store2?
    ensures Sane(t) && Reads(t)
  {
    hide Reads, WorkerSteps;
    NextPlaceIsSane(s, i, t);
    SameShelves(s, i, t.workers[i], t);
  }

  lemma NextPlaceIsSane(s: State, i: nat, t: State)
    requires Sane(s) && i < |s.workers| && WorkerSteps(s, i, t)
    requires !s.workers[i].Store1? && !s.workers[i].Store2?
    ensures t.shelves == s.shelves && |t.workers| == |s.workers| && t.workers == s.workers[i := t.workers[i]]
    ensures t.signal == s.signal && t.cancelled == s.cancelled && |t.owner| == |s.owner|
    ensures PlaceSane(t.workers[i], |s.shelves|) && ReadsOk(s.shelves, t.workers[i])
  {
  }

  lemma SameShelves(s: State, i: nat, q: Place, t: State)
    requires Sane(s) && Reads(s) && i < |s.workers|
    requires PlaceSane(q, |s.shelves|) && ReadsOk(s.shelves, q)
    requires t.shelves == s.shelves && t.workers == s.workers[i := q] && t.signal == s.signal
    requires t.cancelled == s.cancelled && |t.owner| == |s.owner|
    ensures Sane(t) && Reads(t)
  {
    forall j | 0 <= j < |t.workers| ensures PlaceSane(t.workers[j], |t.shelves|) && ReadsOk(t.shelves, t.workers[j]) {
      assert j != i ==> ReadsOk(s.shelves, s.workers[j]);
    }
  }

  /** While the signal thread holds every mutex no worker is inside a swap. */
  lemma NobodySwaps(s: State)
    requires Sane(s) && Owners(s.owner, s.workers, s.signal) && s.signal.Holding?
    ensures forall i | 0 <= i < |s.workers| :: !s.workers[i].Store1? && !s.workers[i].Store2?
    ensures Stock(s) == s.shelves
  {
    forall i | 0 <= i < |s.workers| ensures !s.workers[i].Store1? && !s.workers[i].Store2? {
      var p := s.workers[i];
      if p.Store1? || p.Store2? {
        assert s.owner[p.a] == BySignal;
        assert HoldsShelf(p, p.a);
        assert false;
      }
    }
    assert forall k | 0 <= k < |s.owner| :: SignalHolds(s.signal, k);
  }

  // ---------- the stock ----------

  lemma SameStock(s: State, i: nat, q: Place, owner': seq<Owner>, t: State)
    requires Range(s.owner, |s.workers|) && |s.shelves| == |s.owner| == |owner'| && i < |s.workers|
    requires !s.workers[i].Store2? && !q.Store2?
    requires forall k | 0 <= k < |owner'| :: owner'[k] == s.owner[k] || (owner'[k] in {Free, ByWorker(i)} && s.owner[k] in {Free, ByWorker(i)})
    requires t.shelves == s.shelves && t.workers == s.workers[i := q] && t.owner == owner'
    ensures Range(t.owner, |t.workers|) && Stock(t) == Stock(s)
  {
    forall k | 0 <= k < |s.shelves| ensures ProductAt(t, k) == ProductAt(s, k) {
    }
  }

  lemma FirstStore(s: State, i: nat, t: State)
    requires Sane(s) && Owners(s.owner, s.workers, s.signal) && Reads(s) && i < |s.workers|
    requires s.workers[i].Store1? && WorkerSteps(s, i, t)
    ensures Range(t.owner, |t.workers|) && Stock(t) == Shuffle.Swap(Stock(s), s.workers[i].a, s.workers[i].b)
    ensures Stock(s)[s.workers[i].a] > Stock(s)[s.workers[i].b]
  {
    var a, b := s.workers[i].a, s.workers[i].b;
    assert ReadsOk(s.shelves, s.workers[i]);
    assert HoldsShelf(s.workers[i], a) && HoldsShelf(s.workers[i], b);
    assert s.owner[a] == ByWorker(i) && s.owner[b] == ByWorker(i);
    forall k | 0 <= k < |s.shelves| ensures ProductAt(t, k) == Shuffle.Swap(Stock(s), a, b)[k] {
      if k != a && k != b {
        assert !HoldsShelf(s.workers[i], k);
        assert s.owner[k] != ByWorker(i);
      }
    }
  }

  lemma SecondStore(s: State, i: nat, t: State)
    requires Sane(s) && Owners(s.owner, s.workers, s.signal) && i < |s.workers|
    requires s.workers[i].Store2? && WorkerSteps(s, i, t)
    ensures Range(t.owner, |t.workers|) && Stock(t) == Stock(s)
  {
    var a, b := s.workers[i].a, s.workers[i].b;
    assert HoldsShelf(s.workers[i], a) && HoldsShelf(s.workers[i], b);
    assert s.owner[a] == ByWorker(i) && s.owner[b] == ByWorker(i);
    forall k | 0 <= k < |s.shelves| ensures ProductAt(t, k) == ProductAt(s, k) {
      if k != a && k != b {
        assert !HoldsShelf(s.workers[i], k);
        assert s.owner[k] != ByWorker(i);
      }
    }
  }

  /** The stock changes, by one swap of an inversion, exactly when a worker stores the first of its
      two products. */
  lemma WorkerStock(s: State, i: nat, t: State)
    requires Sane(s) && Owners(s.owner, s.workers, s.signal) && Reads(s) && i < |s.workers| && WorkerSteps(s, i, t)
    ensures Range(t.owner, |t.workers|) && |t.owner| == |t.shelves|
    ensures match s.workers[i]
            case Store1(a, b, _, _) => Stock(s)[a] > Stock(s)[b] && Stock(t) == Shuffle.Swap(Stock(s), a, b)
            case _ => Stock(t) == Stock(s)
  {
    hide Stock, Reads;
    match s.workers[i] {
      case Store1(_, _, _, _) => FirstStore(s, i, t);
      case Store2(_, _, _, _) => SecondStore(s, i, t);
      case _ => OtherSteps(s, i, t);
    }
  }

  lemma OtherSteps(s: State, i: nat, t: State)
    requires Sane(s) && Owners(s.owner, s.workers, s.signal) && i < |s.workers| && WorkerSteps(s, i, t)
    requires !s.workers[i].Store1? && !s.workers[i].Store2?
    ensures Range(t.owner, |t.workers|) && |t.owner| == |t.shelves| && Stock(t) == Stock(s)
  {
    hide Stock;
    var p := s.workers[i];
    assert p.Rel1? ==> HoldsShelf(p, p.a) && s.owner[p.a] == ByWorker(i);
    assert p.Rel2? ==> HoldsShelf(p, p.b) && s.owner[p.b] == ByWorker(i);
    SameStock(s, i, t.workers[i], t.owner, t);
  }

  lemma SignalStock(s: State, t: State)
    requires Sane(s) && Owners(s.owner, s.workers, s.signal) && SignalSteps(s, t)
    ensures Range(t.owner, |t.workers|) && |t.owner| == |t.shelves| == |s.shelves|
    ensures s.signal == Holding(Mix) ==> Stock(s) == s.shelves && Stock(t) == t.shelves && multiset(t.shelves) == multiset(s.shelves)
    ensures s.signal != Holding(Mix) ==> Stock(t) == Stock(s)
  {
    hide Shuffle.Shuffled;
    if s.signal == Holding(Mix) {
      NobodySwaps(s);
      var js :| Shuffle.Choices(js, |s.shelves|)
                && t == s.(signal := Unlocking(Mix, 0), shelves := Shuffle.Shuffled(s.shelves, js));
      Shuffle.ShufflePermutes(s.shelves, js);
      assert |multiset(t.shelves)| == |t.shelves|;
      assert forall k | 0 <= k < |s.owner| :: SignalHolds(s.signal, k);
    } else {
      SignalOwnership(s, t);
      assert t.shelves == s.shelves && t.workers == s.workers;
      forall k | 0 <= k < |s.shelves| ensures ProductAt(t, k) == ProductAt(s, k) {
      }
    }
  }

  lemma SignalOwnership(s: State, t: State)
    requires Sane(s) && Owners(s.owner, s.workers, s.signal) && SignalSteps(s, t) && s.signal != Holding(Mix)
    ensures t.shelves == s.shelves && t.workers == s.workers && |t.owner| == |s.owner|
    ensures forall k | 0 <= k < |s.owner| :: t.owner[k] == s.owner[k] || (!t.owner[k].ByWorker? && !s.owner[k].ByWorker?)
  {
    if s.signal.Unlocking? && s.signal.k < |s.owner| {
      assert SignalHolds(s.signal, s.signal.k);
    }
  }
}
