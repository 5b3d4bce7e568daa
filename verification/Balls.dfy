/** Ball throwers: each ball is taken from those waiting, lands in a bin and is tallied, under three
    kinds of mutex; the main thread waits for the tally and then reads the bins without any lock.
    Every `+= 1` is a load and a store of its own. A state machine over the threads' steps. */
module Balls {
  import opened Basics

  const BIN_COUNT := 11

  datatype Owner = Free | ByWorker(i: nat) | ByMain

  datatype Pc =
    | Start                       // about to lock ballsWaiting
    | AtWaiting                   // waiting held
    | LoadedWaiting(v: int)       // waiting held
    | Took                        // waiting held
    | Throwing
    | WantBin(b: nat)
    | AtBin(b: nat)               // the bin held
    | LoadedBin(b: nat, v: int)   // the bin held
    | Binned(b: nat)              // the bin held
    | WantTally
    | AtTally                     // ballsThrown held
    | LoadedTally(v: int)         // ballsThrown held
    | Tallied                     // ballsThrown held
    | Adding                      // about to count the ball as this thread's
    | Finished

  /** `coins` is the throw of the ball that the thread has in hand. */
  datatype Worker = Worker(pc: Pc, own: int, coins: seq<bool>)

  datatype Main = Sleeping | Reading | Summing(seen: seq<int>)

  /** `landed` is bookkeeping: the throws of the balls that lie in bins. */
  datatype State = State(
    total: int,
    waiting: int, bins: seq<int>, thrown: int,
    waitingOwner: Owner, binOwner: seq<Owner>, thrownOwner: Owner,
    workers: seq<Worker>, main: Main,
    landed: seq<seq<bool>>)

  ghost predicate Init(s: State) {
    && s.total > 0 && s.waiting == s.total && s.thrown == 0
    && s.bins == seq(BIN_COUNT, _ => 0) && s.binOwner == seq(BIN_COUNT, _ => Free)
    && s.waitingOwner == Free && s.thrownOwner == Free
    && (forall i | 0 <= i < |s.workers| :: s.workers[i] == Worker(Start, 0, []))
    && s.main == Sleeping && s.landed == []
  }

  /** A throw: one coin for each pin. */
  predicate Throw(coins: seq<bool>) { |coins| == BIN_COUNT - 1 }

  function Heads(coins: seq<bool>): nat {
    if coins == [] then 0 else Heads(coins[1..]) + if coins[0] then 1 else 0
  }

  lemma {:induction false} HeadsInRange(coins: seq<bool>)
    ensures Heads(coins) <= |coins|
  {
    if coins != [] {
      HeadsInRange(coins[1..]);
    }
  }

  // ---------- steps ----------

  function Go(s: State, i: nat, p: Pc): State
    requires i < |s.workers|
  {
    s.(workers := s.workers[i := s.workers[i].(pc := p)])
  }

  predicate Bin(b: nat) { b < BIN_COUNT }

  predicate Sized(s: State) { |s.bins| == |s.binOwner| == BIN_COUNT }

  predicate WorkerSteps(s: State, i: nat, t: State)
    requires Sized(s) && i < |s.workers|
  {
    match s.workers[i].pc
    case Start => s.waitingOwner == Free && t == Go(s, i, AtWaiting).(waitingOwner := ByWorker(i))
    case AtWaiting =>
      if s.waiting > 0 then t == Go(s, i, LoadedWaiting(s.waiting))
      else t == Go(s, i, Finished).(waitingOwner := Free)
    case LoadedWaiting(v) => t == Go(s, i, Took).(waiting := v - 1)
    case Took => t == Go(s, i, Throwing).(waitingOwner := Free)
    case Throwing =>
      && i < |t.workers| && Throw(t.workers[i].coins)
      && var coins := t.workers[i].coins;
         t == s.(workers := s.workers[i := s.workers[i].(pc := WantBin(Heads(coins)), coins := coins)])
    case WantBin(b) => Bin(b) && s.binOwner[b] == Free && t == Go(s, i, AtBin(b)).(binOwner := s.binOwner[b := ByWorker(i)])
    case AtBin(b) => Bin(b) && t == Go(s, i, LoadedBin(b, s.bins[b]))
    case LoadedBin(b, v) => Bin(b) && t == Go(s, i, Binned(b)).(bins := s.bins[b := v + 1], landed := s.landed + [s.workers[i].coins])
    case Binned(b) => Bin(b) && t == Go(s, i, WantTally).(binOwner := s.binOwner[b := Free])
    case WantTally => s.thrownOwner == Free && t == Go(s, i, AtTally).(thrownOwner := ByWorker(i))
    case AtTally => t == Go(s, i, LoadedTally(s.thrown))
    case LoadedTally(v) => t == Go(s, i, Tallied).(thrown := v + 1)
    case Tallied => t == Go(s, i, Adding).(thrownOwner := Free)
    case Adding => t == s.(workers := s.workers[i := s.workers[i].(pc := Start, own := s.workers[i].own + 1)])
    case Finished => false
  }

  predicate MainSteps(s: State, t: State)
    requires Sized(s)
  {
    match s.main
    case Sleeping => s.thrownOwner == Free && t == s.(main := Reading, thrownOwner := ByMain)
    case Reading => t == s.(main := if s.thrown < s.total then Sleeping else Summing([]), thrownOwner := Free)
    case Summing(seen) => |seen| < BIN_COUNT && t == s.(main := Summing(seen + [s.bins[|seen|]]))
  }

  datatype Step = OfWorker(i: nat) | OfMain

  predicate Takes(s: State, e: Step, t: State)
    requires Sized(s)
  {
    match e
    case OfWorker(i) => i < |s.workers| && WorkerSteps(s, i, t)
    case OfMain => MainSteps(s, t)
  }

  // ---------- invariants ----------

  predicate HoldsWaiting(p: Pc) { p.AtWaiting? || p.LoadedWaiting? || p.Took? }

  predicate HoldsBin(p: Pc, b: nat) { (p.AtBin? || p.LoadedBin? || p.Binned?) && p.b == b }

  function BinHolders(b: nat): Pc -> bool {
    p => HoldsBin(p, b)
  }

  predicate HoldsTally(p: Pc) { p.AtTally? || p.LoadedTally? || p.Tallied? }

  ghost predicate OwnedBy(o: Owner, ws: seq<Worker>, holds: Pc -> bool) {
    (o.ByWorker? ==> o.i < |ws|) && forall i | 0 <= i < |ws| :: holds(ws[i].pc) <==> o == ByWorker(i)
  }

  ghost predicate Owners(s: State) {
    && Sized(s)
    && OwnedBy(s.waitingOwner, s.workers, HoldsWaiting) && s.waitingOwner != ByMain
    && OwnedBy(s.thrownOwner, s.workers, HoldsTally) && (s.thrownOwner == ByMain <==> s.main == Reading)
    && forall b: nat | b < BIN_COUNT :: OwnedBy(s.binOwner[b], s.workers, BinHolders(b)) && s.binOwner[b] != ByMain
  }

  /** What a thread has loaded is still there when it stores. */
  predicate LoadOk(p: Pc, waiting: int, bins: seq<int>, thrown: int)
    requires |bins| == BIN_COUNT
  {
    match p
    case LoadedWaiting(v) => v == waiting > 0
    case WantBin(b) => Bin(b)
    case AtBin(b) => Bin(b)
    case LoadedBin(b, v) => Bin(b) && v == bins[b]
    case Binned(b) => Bin(b)
    case LoadedTally(v) => v == thrown
    case _ => true
  }

  ghost predicate Loads(s: State)
    requires Sized(s)
  {
    forall i | 0 <= i < |s.workers| :: LoadOk(s.workers[i].pc, s.waiting, s.bins, s.thrown)
  }

  predicate InFlight(p: Pc) { p.Took? || p.Throwing? || p.WantBin? || p.AtBin? || p.LoadedBin? }

  predicate Untallied(p: Pc) { p.Binned? || p.WantTally? || p.AtTally? || p.LoadedTally? }

  predicate Unadded(p: Pc) { p.Tallied? || p.Adding? }

  function HowMany(ws: seq<Worker>, f: Pc -> bool): nat {
    if ws == [] then 0 else HowMany(ws[1..], f) + if f(ws[0].pc) then 1 else 0
  }

  function OwnSum(ws: seq<Worker>): int {
    if ws == [] then 0 else OwnSum(ws[1..]) + ws[0].own
  }

  /** Every ball waits, flies, or lies in a bin; every ball in a bin is tallied or about to be; and
      every tallied one is some thread's own or about to be. */
  ghost predicate Conserved(s: State) {
    && s.waiting >= 0
    && s.waiting + HowMany(s.workers, InFlight) + Sum(s.bins) == s.total
    && s.thrown + HowMany(s.workers, Untallied) == Sum(s.bins)
    && OwnSum(s.workers) + HowMany(s.workers, Unadded) == s.thrown
  }

  /** How many of the throws came up with `b` heads. */
  function InBin(throws: seq<seq<bool>>, b: int): nat {
    if throws == [] then 0 else InBin(throws[1..], b) + if Heads(throws[0]) == b then 1 else 0
  }

  /** A ball is on its way to the bin of its throw. */
  predicate ThrownOk(w: Worker) {
    match w.pc
    case WantBin(b) => Throw(w.coins) && b == Heads(w.coins)
    case AtBin(b) => Throw(w.coins) && b == Heads(w.coins)
    case LoadedBin(b, _) => Throw(w.coins) && b == Heads(w.coins)
    case _ => true
  }

  /** Each bin holds as many balls as there were throws with its number of heads. */
  ghost predicate Histogram(s: State)
    requires Sized(s)
  {
    && (forall i | 0 <= i < |s.workers| :: ThrownOk(s.workers[i]))
    && (forall k | 0 <= k < |s.landed| :: Throw(s.landed[k]))
    && (forall b | 0 <= b < BIN_COUNT :: s.bins[b] == InBin(s.landed, b))
    && |s.landed| == Sum(s.bins)
  }

  /** A thread only stops when no ball is waiting. */
  ghost predicate NoneIdle(s: State) {
    (exists i :: 0 <= i < |s.workers| && s.workers[i].pc == Finished) ==> s.waiting == 0
  }

  /** All balls lie in bins. */
  ghost predicate Settled(s: State) {
    s.waiting == 0 && HowMany(s.workers, InFlight) == 0
  }

  ghost predicate MainOk(s: State) {
    s.main.Summing? ==> Settled(s) && |s.main.seen| <= |s.bins| && s.main.seen == s.bins[..|s.main.seen|]
  }

  ghost predicate Inv(s: State) {
    Owners(s) && Loads(s) && Conserved(s) && Histogram(s) && NoneIdle(s) && MainOk(s)
  }

  lemma {:induction false} NobodyYet(ws: seq<Worker>, f: Pc -> bool)
    requires forall i | 0 <= i < |ws| :: ws[i] == Worker(Start, 0, [])
    requires !f(Start)
    ensures HowMany(ws, f) == 0 && OwnSum(ws) == 0
  {
    if ws != [] {
      NobodyYet(ws[1..], f);
    }
  }

  lemma {:induction false} SumOfZeros(n: nat)
    ensures Sum(seq(n, _ => 0)) == 0
  {
    if n > 0 {
      assert seq(n, _ => 0)[1..] == seq(n - 1, _ => 0);
      SumOfZeros(n - 1);
    }
  }

  lemma InitInv(s: State)
    requires Init(s)
    ensures Inv(s)
  {
    NobodyYet(s.workers, InFlight);
    NobodyYet(s.workers, Untallied);
    NobodyYet(s.workers, Unadded);
    SumOfZeros(BIN_COUNT);
  }

  // ---------- one step ----------

  lemma {:induction false} HowManyAt(ws: seq<Worker>, i: nat, w: Worker, f: Pc -> bool)
    requires i < |ws|
    ensures HowMany(ws[i := w], f) ==
            HowMany(ws, f) - (if f(ws[i].pc) then 1 else 0) + (if f(w.pc) then 1 else 0)
    ensures OwnSum(ws[i := w]) == OwnSum(ws) - ws[i].own + w.own
  {
    if i > 0 {
      assert ws[i := w][1..] == ws[1..][i - 1 := w];
      HowManyAt(ws[1..], i - 1, w, f);
    } else {
      assert ws[0 := w][1..] == ws[1..];
    }
  }

  lemma {:induction false} SumAt(xs: seq<int>, b: nat, x: int)
    requires b < |xs|
    ensures Sum(xs[b := x]) == Sum(xs) - xs[b] + x
  {
    if b > 0 {
      assert xs[b := x][1..] == xs[1..][b - 1 := x];
      SumAt(xs[1..], b - 1, x);
    } else {
      assert xs[0 := x][1..] == xs[1..];
    }
  }

  /** A mutex changes hands just as its holder's place in the code says. */
  predicate Handed(o: Owner, o': Owner, i: nat, before: bool, after: bool) {
    if before == after then o' == o
    else if after then o == Free && o' == ByWorker(i) else o' == Free
  }

  lemma OwnedAt(o: Owner, ws: seq<Worker>, holds: Pc -> bool, i: nat, w: Worker, o': Owner)
    requires OwnedBy(o, ws, holds) && i < |ws| && Handed(o, o', i, holds(ws[i].pc), holds(w.pc))
    ensures OwnedBy(o', ws[i := w], holds)
    ensures holds(ws[i].pc) <==> o == ByWorker(i)
  {
    assert holds(ws[i].pc) <==> o == ByWorker(i);
  }

  lemma LocksFollow(s: State, i: nat, t: State)
    requires Sized(s) && i < |s.workers| && WorkerSteps(s, i, t)
    ensures |t.workers| == |s.workers| && t.workers == s.workers[i := t.workers[i]]
    ensures Sized(t) && t.main == s.main && t.total == s.total
    ensures var p, q := s.workers[i].pc, t.workers[i].pc;
            && Handed(s.waitingOwner, t.waitingOwner, i, HoldsWaiting(p), HoldsWaiting(q))
            && Handed(s.thrownOwner, t.thrownOwner, i, HoldsTally(p), HoldsTally(q))
  {
  }

  lemma BinLocksFollow(s: State, i: nat, t: State)
    requires Sized(s) && i < |s.workers| && WorkerSteps(s, i, t)
    ensures |t.workers| == |s.workers| && Sized(t)
    ensures forall b: nat | b < BIN_COUNT ::
              Handed(s.binOwner[b], t.binOwner[b], i, HoldsBin(s.workers[i].pc, b), HoldsBin(t.workers[i].pc, b))
  {
  }

  lemma WorkerKeepsOwners(s: State, i: nat, t: State)
    requires Owners(s) && i < |s.workers| && WorkerSteps(s, i, t)
    ensures Owners(t)
  {
    hide OwnedBy, WorkerSteps, HoldsWaiting, HoldsTally, HoldsBin;
    LocksFollow(s, i, t);
    BinLocksFollow(s, i, t);
    OwnedAt(s.waitingOwner, s.workers, HoldsWaiting, i, t.workers[i], t.waitingOwner);
    OwnedAt(s.thrownOwner, s.workers, HoldsTally, i, t.workers[i], t.thrownOwner);
    forall b: nat | b < BIN_COUNT ensures OwnedBy(t.binOwner[b], t.workers, BinHolders(b)) {
      OwnedAt(s.binOwner[b], s.workers, BinHolders(b), i, t.workers[i], t.binOwner[b]);
    }
  }

  /** Only the owner of a mutex is where its counter is loaded or stored. */
  lemma Alone(s: State, i: nat, j: nat)
    requires Owners(s) && i < |s.workers| && j < |s.workers| && i != j
    ensures var p, q := s.workers[i].pc, s.workers[j].pc;
            && !(HoldsWaiting(p) && HoldsWaiting(q)) && !(HoldsTally(p) && HoldsTally(q))
            && forall b: nat | b < BIN_COUNT :: !(HoldsBin(p, b) && HoldsBin(q, b))
  {
    assert HoldsWaiting(s.workers[i].pc) <==> s.waitingOwner == ByWorker(i);
    assert HoldsWaiting(s.workers[j].pc) <==> s.waitingOwner == ByWorker(j);
    assert HoldsTally(s.workers[i].pc) <==> s.thrownOwner == ByWorker(i);
    assert HoldsTally(s.workers[j].pc) <==> s.thrownOwner == ByWorker(j);
    forall b: nat | b < BIN_COUNT ensures !(HoldsBin(s.workers[i].pc, b) && HoldsBin(s.workers[j].pc, b)) {
      assert BinHolders(b)(s.workers[i].pc) <==> s.binOwner[b] == ByWorker(i);
      assert BinHolders(b)(s.workers[j].pc) <==> s.binOwner[b] == ByWorker(j);
    }
  }

  /** What a worker's step stores. */
  lemma OneStore(s: State, i: nat, t: State)
    requires Sized(s) && i < |s.workers| && WorkerSteps(s, i, t)
    requires LoadOk(s.workers[i].pc, s.waiting, s.bins, s.thrown)
    ensures |t.workers| == |s.workers| && Sized(t) && LoadOk(t.workers[i].pc, t.waiting, t.bins, t.thrown)
    ensures var p := s.workers[i].pc;
            && (if p.LoadedWaiting? then s.waiting > 0 && t.waiting == s.waiting - 1 else t.waiting == s.waiting)
            && (if p.LoadedTally? then t.thrown == s.thrown + 1 else t.thrown == s.thrown)
            && (if p.LoadedBin? then Bin(p.b) && t.bins == s.bins[p.b := s.bins[p.b] + 1] else t.bins == s.bins)
  {
    if s.workers[i].pc == Throwing {
      HeadsInRange(t.workers[i].coins);
    }
  }

  /** And where it takes its ball. */
  lemma OneBall(s: State, i: nat, t: State)
    requires Sized(s) && i < |s.workers| && WorkerSteps(s, i, t)
    ensures |t.workers| == |s.workers|
    ensures var p, q := s.workers[i].pc, t.workers[i].pc;
            && (InFlight(q) <==> (InFlight(p) && !p.LoadedBin?) || p.LoadedWaiting?)
            && (Untallied(q) <==> (Untallied(p) && !p.LoadedTally?) || p.LoadedBin?)
            && (Unadded(q) <==> (Unadded(p) && !p.Adding?) || p.LoadedTally?)
            && t.workers[i].own == s.workers[i].own + if p.Adding? then 1 else 0
  {
  }

  lemma WorkerKeepsLoads(s: State, i: nat, t: State)
    requires Owners(s) && Loads(s) && i < |s.workers| && WorkerSteps(s, i, t)
    ensures Sized(t) && Loads(t)
  {
    hide WorkerSteps, OwnedBy;
    LocksFollow(s, i, t);
    OneStore(s, i, t);
    forall j | 0 <= j < |t.workers| && j != i ensures LoadOk(t.workers[j].pc, t.waiting, t.bins, t.thrown) {
      Alone(s, i, j);
      assert LoadOk(s.workers[j].pc, s.waiting, s.bins, s.thrown);
      assert s.workers[i].pc.LoadedBin? ==> HoldsBin(s.workers[i].pc, s.workers[i].pc.b);
      assert s.workers[j].pc.LoadedBin? ==> HoldsBin(s.workers[j].pc, s.workers[j].pc.b);
    }
  }

  lemma WorkerConserves(s: State, i: nat, t: State)
    requires Sized(s) && Loads(s) && Conserved(s) && i < |s.workers| && WorkerSteps(s, i, t)
    ensures Conserved(t)
  {
    hide WorkerSteps, LoadOk, InFlight, Untallied, Unadded;
    LocksFollow(s, i, t);
    OneStore(s, i, t);
    OneBall(s, i, t);
    HowManyAt(s.workers, i, t.workers[i], InFlight);
    HowManyAt(s.workers, i, t.workers[i], Untallied);
    HowManyAt(s.workers, i, t.workers[i], Unadded);
    StageOf(s.workers[i].pc);
    if s.workers[i].pc.LoadedBin? {
      var b := s.workers[i].pc.b;
      SumAt(s.bins, b, s.bins[b] + 1);
    }
  }

  lemma StageOf(p: Pc)
    ensures p.LoadedWaiting? ==> !InFlight(p)
    ensures p.LoadedBin? ==> InFlight(p) && !Untallied(p)
    ensures p.LoadedTally? ==> Untallied(p) && !Unadded(p)
    ensures p.Adding? ==> Unadded(p)
  {
  }

  lemma {:induction false} OneMoreLanded(throws: seq<seq<bool>>, coins: seq<bool>, b: int)
    ensures InBin(throws + [coins], b) == InBin(throws, b) + if Heads(coins) == b then 1 else 0
  {
    if throws == [] {
      assert throws + [coins] == [coins] && [coins][1..] == [];
    } else {
      assert (throws + [coins])[1..] == throws[1..] + [coins] && (throws + [coins])[0] == throws[0];
      OneMoreLanded(throws[1..], coins, b);
    }
  }

  lemma OneThrow(s: State, i: nat, t: State)
    requires Sized(s) && i < |s.workers| && WorkerSteps(s, i, t) && ThrownOk(s.workers[i])
    ensures |t.workers| == |s.workers| && ThrownOk(t.workers[i])
    ensures var w := s.workers[i];
            if w.pc.LoadedBin? then Throw(w.coins) && w.pc.b == Heads(w.coins) && t.landed == s.landed + [w.coins]
            else t.landed == s.landed
    ensures t.workers[i].pc == Finished ==> s.waiting <= 0
  {
  }

  lemma WorkerKeepsHistogram(s: State, i: nat, t: State)
    requires Sized(s) && Loads(s) && Histogram(s) && i < |s.workers| && WorkerSteps(s, i, t)
    ensures Sized(t) && Histogram(t)
  {
    hide WorkerSteps, LoadOk, ThrownOk, InBin;
    LocksFollow(s, i, t);
    assert ThrownOk(s.workers[i]);
    OneThrow(s, i, t);
    OneStore(s, i, t);
    var w := s.workers[i];
    if w.pc.LoadedBin? {
      SumAt(s.bins, w.pc.b, s.bins[w.pc.b] + 1);
      forall b | 0 <= b < BIN_COUNT ensures t.bins[b] == InBin(t.landed, b) {
        OneMoreLanded(s.landed, w.coins, b);
      }
    }
  }

  lemma WorkerKeepsNoneIdle(s: State, i: nat, t: State)
    requires Inv(s) && i < |s.workers| && WorkerSteps(s, i, t)
    ensures NoneIdle(t)
  {
    hide WorkerSteps, OwnedBy, Conserved, LoadOk, MainOk;
    LocksFollow(s, i, t);
    assert ThrownOk(s.workers[i]);
    OneThrow(s, i, t);
    OneStore(s, i, t);
    NeverNegative(s);
    if k :| 0 <= k < |t.workers| && t.workers[k].pc == Finished && k != i {
      assert s.workers[k].pc == Finished;
    }
  }

  lemma NeverNegative(s: State)
    requires Conserved(s)
    ensures s.waiting >= 0
  {
  }

  lemma {:induction false} NobodyFlies(ws: seq<Worker>, i: nat)
    requires HowMany(ws, InFlight) == 0 && i < |ws|
    ensures !InFlight(ws[i].pc)
  {
    if i > 0 {
      NobodyFlies(ws[1..], i - 1);
    }
  }

  /** Once all balls lie in bins, no bin changes any more. */
  lemma SettledStays(s: State, i: nat, t: State)
    requires Sized(s) && Loads(s) && Settled(s) && i < |s.workers| && WorkerSteps(s, i, t)
    ensures Settled(t) && t.bins == s.bins
  {
    hide WorkerSteps, InFlight;
    LocksFollow(s, i, t);
    OneStore(s, i, t);
    OneBall(s, i, t);
    NobodyFlies(s.workers, i);
    StageOf(s.workers[i].pc);
    HowManyAt(s.workers, i, t.workers[i], InFlight);
  }

  lemma WorkerKeepsInv(s: State, i: nat, t: State)
    requires Inv(s) && i < |s.workers| && WorkerSteps(s, i, t)
    ensures Inv(t)
  {
    hide WorkerSteps, OwnedBy, Loads, Conserved, Settled, Histogram, NoneIdle;
    WorkerKeepsOwners(s, i, t);
    WorkerKeepsLoads(s, i, t);
    WorkerConserves(s, i, t);
    WorkerKeepsHistogram(s, i, t);
    WorkerKeepsNoneIdle(s, i, t);
    LocksFollow(s, i, t);
    if s.main.Summing? {
      SettledStays(s, i, t);
    }
  }

  /** A full tally means every ball lies in a bin. */
  lemma FullTallySettles(s: State)
    requires Conserved(s) && s.thrown >= s.total
    ensures Settled(s) && Sum(s.bins) == s.total == s.thrown
  {
  }

  lemma MainKeepsInv(s: State, t: State)
    requires Inv(s) && MainSteps(s, t)
    ensures Inv(t)
  {
    if s.main == Reading && s.thrown >= s.total {
      FullTallySettles(s);
    }
  }

  lemma StepKeepsInv(s: State, e: Step, t: State)
    requires Inv(s) && Takes(s, e, t)
    ensures Inv(t)
  {
    hide WorkerSteps, MainSteps, OwnedBy, Loads, Conserved, Histogram, NoneIdle, MainOk;
    match e {
      case OfWorker(i) => WorkerKeepsInv(s, i, t);
      case OfMain => MainKeepsInv(s, t);
    }
  }

  // ---------- runs ----------

  ghost predicate Next(s: State, t: State) {
    Sized(s) && exists e :: Takes(s, e, t)
  }

  ghost predicate IsRun(run: seq<State>) {
    run != [] && forall i | 0 <= i < |run| - 1 :: Next(run[i], run[i + 1])
  }

  lemma {:induction false} RunKeepsInv(run: seq<State>, i: nat)
    requires IsRun(run) && Inv(run[0]) && i < |run|
    ensures Inv(run[i])
    decreases i
  {
    hide Inv, Takes;
    if i > 0 {
      RunKeepsInv(run, i - 1);
      assert Next(run[i - 1], run[i - 1 + 1]);
      var e :| Takes(run[i - 1], e, run[i]);
      StepKeepsInv(run[i - 1], e, run[i]);
    }
  }

  /** In every reachable state no ball is lost or counted twice, on its way from the waiting ones
      into the bins, the tally and the throwers' own counts. */
  lemma BallsConserved(run: seq<State>, i: nat)
    requires IsRun(run) && Init(run[0]) && i < |run|
    ensures var s := run[i];
            && 0 <= s.waiting && s.waiting + HowMany(s.workers, InFlight) + Sum(s.bins) == s.total
            && s.thrown == Sum(s.bins) - HowMany(s.workers, Untallied)
            && OwnSum(s.workers) == s.thrown - HowMany(s.workers, Unadded)
  {
    hide Owners, Loads, Histogram, NoneIdle, MainOk;
    InitInv(run[0]);
    RunKeepsInv(run, i);
  }

  /** The bins that main reads without a lock, one after the other, are the final ones, and hold
      every ball, each in the bin of its throw: the histogram is exact. */
  lemma UnlockedReadIsExact(run: seq<State>, i: nat, j: nat)
    requires IsRun(run) && Init(run[0]) && i <= j < |run|
    requires run[i].main.Summing? && |run[i].main.seen| == BIN_COUNT
    ensures run[i].main.seen == run[i].bins == run[j].bins
    ensures Sum(run[i].main.seen) == run[i].total == |run[i].landed|
    ensures forall b | 0 <= b < BIN_COUNT :: run[i].main.seen[b] == InBin(run[i].landed, b)
  {
    InitInv(run[0]);
    RunKeepsInv(run, i);
    BinsStay(run, i, j);
    assert run[i].bins[..BIN_COUNT] == run[i].bins;
    SettledSum(run[i]);
  }

  lemma SettledSum(s: State)
    requires Conserved(s) && Settled(s)
    ensures Sum(s.bins) == s.total
  {
  }

  lemma {:induction false} BinsStay(run: seq<State>, i: nat, j: nat)
    requires IsRun(run) && Inv(run[0]) && i <= j < |run| && run[i].main.Summing?
    ensures run[j].main.Summing? && run[j].bins == run[i].bins
    decreases j
  {
    hide Inv, Takes;
    if i < j {
      BinsStay(run, i, j - 1);
      RunKeepsInv(run, j - 1);
      assert Next(run[j - 1], run[j - 1 + 1]);
      var e :| Takes(run[j - 1], e, run[j]);
      SummingStep(run[j - 1], e, run[j]);
    }
  }

  lemma SummingStep(s: State, e: Step, t: State)
    requires Inv(s) && Takes(s, e, t) && s.main.Summing?
    ensures t.main.Summing? && t.bins == s.bins
  {
    hide WorkerSteps, OwnedBy, Loads, Conserved, Settled, Histogram, NoneIdle;
    match e {
      case OfWorker(i) =>
        LocksFollow(s, i, t);
        SettledStays(s, i, t);
      case OfMain =>
    }
  }

  // ---------- every throw, and the end ----------

  /** Any ten coins may come up. */
  lemma AnyThrow(s: State, i: nat, coins: seq<bool>)
    requires Sized(s) && i < |s.workers| && s.workers[i].pc == Throwing && Throw(coins)
    ensures exists t :: WorkerSteps(s, i, t) && t.workers[i].coins == coins && t.workers[i].pc == WantBin(Heads(coins))
  {
    HeadsInRange(coins);
    var t := s.(workers := s.workers[i := s.workers[i].(pc := WantBin(Heads(coins)), coins := coins)]);
    assert WorkerSteps(s, i, t);
  }

  /** How far a thread is from taking its next ball, and then from stopping. */
  function Distance(p: Pc): nat {
    match p
    case Finished => 0
    case LoadedWaiting(_) => 0
    case AtWaiting => 1
    case Start => 2
    case Adding => 3
    case Tallied => 4
    case LoadedTally(_) => 5
    case AtTally => 6
    case WantTally => 7
    case Binned(_) => 8
    case LoadedBin(_, _) => 9
    case AtBin(_) => 10
    case WantBin(_) => 11
    case Throwing => 12
    case Took => 13
  }

  function Distances(ws: seq<Worker>): nat {
    if ws == [] then 0 else Distance(ws[0].pc) + Distances(ws[1..])
  }

  function Rank(s: State): int {
    16 * s.waiting + Distances(s.workers)
  }

  lemma {:induction false} DistancesAt(ws: seq<Worker>, i: nat, w: Worker)
    requires i < |ws|
    ensures Distances(ws[i := w]) == Distances(ws) - Distance(ws[i].pc) + Distance(w.pc)
  {
    if i > 0 {
      assert ws[i := w][1..] == ws[1..][i - 1 := w];
      DistancesAt(ws[1..], i - 1, w);
    } else {
      assert ws[0 := w][1..] == ws[1..];
    }
  }

  lemma WorkerNearer(s: State, i: nat, t: State)
    requires Sized(s) && i < |s.workers| && WorkerSteps(s, i, t)
    requires LoadOk(s.workers[i].pc, s.waiting, s.bins, s.thrown)
    ensures |t.workers| == |s.workers|
    ensures 16 * t.waiting + Distance(t.workers[i].pc) < 16 * s.waiting + Distance(s.workers[i].pc)
  {
  }

  /** Every step of a thrower brings the end nearer. */
  lemma StepsBringNearer(s: State, i: nat, t: State)
    requires Inv(s) && i < |s.workers| && WorkerSteps(s, i, t)
    ensures 0 <= Rank(t) < Rank(s)
  {
    hide WorkerSteps, LoadOk, OwnedBy, Conserved, Histogram, NoneIdle, MainOk;
    LocksFollow(s, i, t);
    assert LoadOk(s.workers[i].pc, s.waiting, s.bins, s.thrown);
    WorkerNearer(s, i, t);
    DistancesAt(s.workers, i, t.workers[i]);
    WorkerConserves(s, i, t);
    NeverNegative(t);
  }

  predicate Stopped(s: State) {
    forall i | 0 <= i < |s.workers| :: s.workers[i].pc == Finished
  }

  /** Until all throwers have stopped, one of them can step, unless main is about to unlock. */
  lemma SomeoneThrows(s: State)
    requires Inv(s) && !Stopped(s) && s.main != Reading
    ensures exists i: nat, t :: i < |s.workers| && WorkerSteps(s, i, t)
  {
    hide Conserved, Histogram, NoneIdle, MainOk, WorkerSteps, LoadOk, Sum;
    var i :| 0 <= i < |s.workers| && s.workers[i].pc != Finished;
    assert LoadOk(s.workers[i].pc, s.waiting, s.bins, s.thrown);
    LoadedBinIs(s, i);
    var j := i;
    match s.workers[i].pc {
      case Start => if s.waitingOwner != Free { j := s.waitingOwner.i; }
      case WantTally => if s.thrownOwner != Free { j := s.thrownOwner.i; }
      case WantBin(b) => if s.binOwner[b] != Free { j := HolderOf(s, b); }
      case _ =>
    }
    assert LoadOk(s.workers[j].pc, s.waiting, s.bins, s.thrown);
    LoadedBinIs(s, j);
    CanGoOn(s, j);
  }

  lemma LoadedBinIs(s: State, i: nat)
    requires Sized(s) && i < |s.workers| && LoadOk(s.workers[i].pc, s.waiting, s.bins, s.thrown)
    ensures s.workers[i].pc.WantBin? || s.workers[i].pc.AtBin? || s.workers[i].pc.LoadedBin? || s.workers[i].pc.Binned? ==>
              Bin(s.workers[i].pc.b)
  {
  }

  lemma HolderOf(s: State, b: nat) returns (j: nat)
    requires Owners(s) && b < BIN_COUNT && s.binOwner[b] != Free
    ensures j < |s.workers| && HoldsBin(s.workers[j].pc, b)
  {
    assert OwnedBy(s.binOwner[b], s.workers, BinHolders(b)) && s.binOwner[b] != ByMain;
    j := s.binOwner[b].i;
    assert BinHolders(b)(s.workers[j].pc) <==> s.binOwner[b] == ByWorker(j);
  }

  lemma CanGoOn(s: State, i: nat)
    requires Sized(s) && i < |s.workers| && s.workers[i].pc != Finished
    requires s.workers[i].pc == Start ==> s.waitingOwner == Free
    requires s.workers[i].pc == WantTally ==> s.thrownOwner == Free
    requires s.workers[i].pc.WantBin? ==> Bin(s.workers[i].pc.b) && s.binOwner[s.workers[i].pc.b] == Free
    requires s.workers[i].pc.AtBin? || s.workers[i].pc.LoadedBin? || s.workers[i].pc.Binned? ==> Bin(s.workers[i].pc.b)
    ensures exists t :: WorkerSteps(s, i, t)
  {
    var w := s.workers[i];
    var t := match w.pc
      case Start => Go(s, i, AtWaiting).(waitingOwner := ByWorker(i))
      case AtWaiting =>
        if s.waiting > 0 then Go(s, i, LoadedWaiting(s.waiting)) else Go(s, i, Finished).(waitingOwner := Free)
      case LoadedWaiting(v) => Go(s, i, Took).(waiting := v - 1)
      case Took => Go(s, i, Throwing).(waitingOwner := Free)
      case Throwing =>
        var coins := seq(BIN_COUNT - 1, _ => false);
        s.(workers := s.workers[i := w.(pc := WantBin(Heads(coins)), coins := coins)])
      case WantBin(b) => Go(s, i, AtBin(b)).(binOwner := s.binOwner[b := ByWorker(i)])
      case AtBin(b) => Go(s, i, LoadedBin(b, s.bins[b]))
      case LoadedBin(b, v) => Go(s, i, Binned(b)).(bins := s.bins[b := v + 1], landed := s.landed + [w.coins])
      case Binned(b) => Go(s, i, WantTally).(binOwner := s.binOwner[b := Free])
      case WantTally => Go(s, i, AtTally).(thrownOwner := ByWorker(i))
      case AtTally => Go(s, i, LoadedTally(s.thrown))
      case LoadedTally(v) => Go(s, i, Tallied).(thrown := v + 1)
      case Tallied => Go(s, i, Adding).(thrownOwner := Free)
      case Adding => s.(workers := s.workers[i := w.(pc := Start, own := w.own + 1)])
      case Finished => s;
    assert WorkerSteps(s, i, t);
  }

  /** When all throwers have stopped the tally is full, so main's next look at it is its last. */
  lemma StoppedMeansFull(s: State)
    requires Inv(s) && Stopped(s) && s.workers != []
    ensures s.waiting == 0 && s.thrown == s.total == Sum(s.bins) == OwnSum(s.workers)
    ensures forall t | MainSteps(s, t) && s.main == Reading :: t.main == Summing([])
  {
    hide Owners, Loads, Histogram, Sum;
    assert s.workers[0].pc == Finished;
    NobodyAtWork(s.workers, InFlight);
    NobodyAtWork(s.workers, Untallied);
    NobodyAtWork(s.workers, Unadded);
  }

  lemma {:induction false} NobodyAtWork(ws: seq<Worker>, f: Pc -> bool)
    requires !f(Finished) && forall i | 0 <= i < |ws| :: ws[i].pc == Finished
    ensures HowMany(ws, f) == 0
  {
    if ws != [] {
      NobodyAtWork(ws[1..], f);
    }
  }

  // ---------- the mean ----------

  /** The sum of the bins' numbers, each as often as it has balls; `k` is the first bin's number. */
  function Weighted(bins: seq<int>, k: nat): int {
    if bins == [] then 0 else k * bins[0] + Weighted(bins[1..], k + 1)
  }

  function AllHeads(throws: seq<seq<bool>>): nat {
    if throws == [] then 0 else Heads(throws[0]) + AllHeads(throws[1..])
  }

  lemma {:induction false} WeightedAt(bins: seq<int>, k: nat, b: nat)
    requires b < |bins|
    ensures Weighted(bins[b := bins[b] + 1], k) == Weighted(bins, k) + k + b
  {
    if b == 0 {
      assert bins[0 := bins[0] + 1][1..] == bins[1..];
      OneMoreTime(k, bins[0]);
    } else {
      assert bins[b := bins[b] + 1][1..] == bins[1..][b - 1 := bins[1..][b - 1] + 1];
      WeightedAt(bins[1..], k + 1, b - 1);
    }
  }

  lemma OneMoreTime(k: nat, x: int)
    ensures k * (x + 1) == k * x + k
  {
  }

  lemma {:induction false} WeightedZeros(n: nat, k: nat)
    ensures Weighted(seq(n, _ => 0), k) == 0
  {
    if n > 0 {
      assert seq(n, _ => 0)[1..] == seq(n - 1, _ => 0);
      WeightedZeros(n - 1, k + 1);
    }
  }

  /** A histogram has the weight of all the heads of its throws. */
  lemma {:induction false} WeightIsHeads(throws: seq<seq<bool>>, bins: seq<int>)
    requires |bins| == BIN_COUNT && forall k | 0 <= k < |throws| :: Throw(throws[k])
    requires forall b | 0 <= b < BIN_COUNT :: bins[b] == InBin(throws, b)
    ensures Weighted(bins, 0) == AllHeads(throws)
  {
    if throws == [] {
      assert bins == seq(BIN_COUNT, _ => 0);
      WeightedZeros(BIN_COUNT, 0);
    } else {
      var h, less := Heads(throws[0]), seq(BIN_COUNT, b => InBin(throws[1..], b));
      HeadsInRange(throws[0]);
      WeightIsHeads(throws[1..], less);
      assert bins == less[h := less[h] + 1];
      WeightedAt(less, 0, h);
    }
  }

  /** What main prints at the end: the number of balls and their mean bin. */
  method Report(bins: array<int>) returns (count: int, mean: real)
    requires Sum(bins[..]) > 0
    ensures count == Sum(bins[..]) && mean == Weighted(bins[..], 0) as real / count as real
  {
    var weight := 0;
    count := 0;
    var i := 0;
    while i < bins.Length
      invariant i <= bins.Length && count + Sum(bins[i..]) == Sum(bins[..])
      invariant weight + Weighted(bins[i..], i) == Weighted(bins[..], 0)
    {
      assert bins[i..][1..] == bins[i + 1..];
      count := count + bins[i];
      weight := weight + i * bins[i];
      i := i + 1;
    }
    mean := weight as real / count as real;
  }

  /** Over any run, that mean is the average number of heads in a throw. */
  lemma MeanIsAverage(run: seq<State>, i: nat)
    requires IsRun(run) && Init(run[0]) && i < |run| && run[i].main.Summing? && |run[i].main.seen| == BIN_COUNT
    ensures Weighted(run[i].main.seen, 0) == AllHeads(run[i].landed) && Sum(run[i].main.seen) == |run[i].landed|
  {
    hide Inv;
    UnlockedReadIsExact(run, i, i);
    InitInv(run[0]);
    RunKeepsInv(run, i);
    LandedAreThrows(run[i]);
    WeightIsHeads(run[i].landed, run[i].main.seen);
  }

  lemma LandedAreThrows(s: State)
    requires Inv(s)
    ensures |s.bins| == BIN_COUNT && forall k | 0 <= k < |s.landed| :: Throw(s.landed[k])
  {
  }

  // ---------- the code ----------

  /** throwBall: how many of ten coins came up heads. */
  method ThrowBall() returns (res: nat, ghost coins: seq<bool>)
    ensures Throw(coins) && res == Heads(coins) && Bin(res)
  {
    res, coins := 0, [];
    var i := 0;
    while i < BIN_COUNT - 1
      invariant 0 <= i == |coins| <= BIN_COUNT - 1 && res == Heads(coins) <= i
    {
      var head: bool := *;
      OneMoreCoin(coins, head);
      if head {
        res := res + 1;
      }
      coins := coins + [head];
      i := i + 1;
    }
  }

  lemma {:induction false} OneMoreCoin(coins: seq<bool>, head: bool)
    ensures Heads(coins + [head]) == Heads(coins) + if head then 1 else 0
  {
    if coins == [] {
      assert coins + [head] == [head] && [head][1..] == [];
    } else {
      assert (coins + [head])[1..] == coins[1..] + [head];
      OneMoreCoin(coins[1..], head);
    }
  }

  /** The counters that the threads share. */
  class Stall {
    const bins: array<int>
    var waiting: int
    var thrown: int

    constructor (balls: nat)
      ensures waiting == balls && thrown == 0 && fresh(bins) && bins[..] == seq(BIN_COUNT, _ => 0)
    {
      bins := new int[BIN_COUNT](_ => 0);
      waiting, thrown := balls, 0;
    }

    /** work, by a thread that is alone with what is waiting: all of it ends up in the tally, as the
        thread's own, and each ball in the bin of its throw. */
    method Work() returns (own: int, ghost throws: seq<seq<bool>>)
      requires bins.Length == BIN_COUNT && waiting >= 0
      modifies this, bins
      ensures waiting == 0 && own == old(waiting) == |throws| && thrown == old(thrown) + own
      ensures forall k | 0 <= k < |throws| :: Throw(throws[k])
      ensures forall b | 0 <= b < BIN_COUNT :: bins[b] == old(bins[b]) + InBin(throws, b)
      ensures Sum(bins[..]) == Sum(old(bins[..])) + own
    {
      own, throws := 0, [];
      while waiting > 0
        invariant waiting >= 0 && own == old(waiting) - waiting == |throws|
        invariant thrown == old(thrown) + own && Sum(bins[..]) == Sum(old(bins[..])) + own
        invariant forall k | 0 <= k < |throws| :: Throw(throws[k])
        invariant forall b | 0 <= b < BIN_COUNT :: bins[b] == old(bins[b]) + InBin(throws, b)
        decreases waiting
      {
        waiting := waiting - 1;
        var b, coins := ThrowBall();
        ghost var before := bins[..];
        SumAt(before, b, before[b] + 1);
        forall k ensures InBin(throws + [coins], k) == InBin(throws, k) + if k == b then 1 else 0 {
          OneMoreLanded(throws, coins, k);
        }
        bins[b] := bins[b] + 1;
        assert bins[..] == before[b := before[b] + 1];
        throws := throws + [coins];
        thrown := thrown + 1;
        own := own + 1;
      }
    }
  }
}
