/** What the shop's protocol guarantees over whole runs. */
module ShopResults {
  import opened Basics
  import opened Shop

  // ---------- every step keeps the invariant ----------

  lemma WorkerStepKeepsInv(s: State, i: nat, t: State)
    requires Inv(s) && i < |s.workers| && WorkerSteps(s, i, t)
    ensures Inv(t)
  {
    hide Owners, FlagOwner, Reads, Roster, Stock, Sane;
    WorkerKeepsOwners(s, i, t);
    WorkerKeepsFlagOwner(s, i, t);
    WorkerKeepsReads(s, i, t);
    WorkerStock(s, i, t);
    WorkerLeaves(s, i, t);
    if s.workers[i].Store1? {
      Shuffle.SwapPermutes(Stock(s), s.workers[i].a, s.workers[i].b);
    }
  }

  lemma WorkerLeaves(s: State, i: nat, t: State)
    requires Sane(s) && i < |s.workers| && WorkerSteps(s, i, t)
    ensures t.cancelled == s.cancelled && t.active == s.active && |t.shelves| == |s.shelves|
    ensures t.signal == s.signal && t.flag == s.flag
    ensures s.workers[i].Store1? ==> s.workers[i].a < |s.shelves| && s.workers[i].b < |s.shelves|
    ensures |s.owner| == |s.shelves|
  {
  }

  lemma CancelKeepsInv(s: State, i: nat, t: State)
    requires Inv(s) && i < |s.workers| && CancelActs(s, i, t)
    ensures Inv(t)
  {
    hide Owners, FlagOwner, Roster, Stock;
    var q := t.workers[i];
    assert ReadsOk(s.shelves, s.workers[i]);
    SameHoldings(s.owner, s.workers, s.signal, i, q);
    FlagChange(s.flagOwner, s.workers, s.signal, i, q, s.flagOwner);
    SameShelves(s, i, q, t);
    OwnersRange(s);
    SameStock(s, i, q, s.owner, t);
  }

  lemma OwnersRange(s: State)
    requires Owners(s.owner, s.workers, s.signal)
    ensures Range(s.owner, |s.workers|)
  {
  }

  lemma SignalStepKeepsInv(s: State, t: State)
    requires Inv(s) && SignalSteps(s, t)
    ensures Inv(t)
  {
    hide Owners, FlagOwner, Roster, Stock, Reads, Sane, SignalSteps, Closing;
    SignalKeepsClosing(s, t);
    SignalKeepsOwners(s, t);
    SignalKeepsFlagOwner(s, t);
    SignalStock(s, t);
    SignalKeepsReads(s, t);
    SignalKeepsRoster(s, t);
  }

  lemma SignalKeepsReads(s: State, t: State)
    requires Sane(s) && Owners(s.owner, s.workers, s.signal) && Reads(s) && SignalSteps(s, t)
    ensures Sane(t) && Reads(t) && |s.owner| == |s.shelves|
  {
    hide Owners, Shuffle.Shuffled;
    if s.signal == Holding(Mix) {
      NobodySwaps(s);
    }
    forall i | 0 <= i < |t.workers| ensures PlaceSane(t.workers[i], |t.shelves|) && ReadsOk(t.shelves, t.workers[i]) {
      assert PlaceSane(s.workers[i], |s.shelves|) && ReadsOk(s.shelves, s.workers[i]);
    }
  }

  lemma SignalKeepsClosing(s: State, t: State)
    requires Sane(s) && Closing(s) && SignalSteps(s, t)
    ensures Closing(t)
  {
    hide Shuffle.Shuffled, Sane;
  }

  lemma SignalKeepsRoster(s: State, t: State)
    requires Sane(s) && Roster(s.cancelled, s.active) && SignalSteps(s, t)
    ensures Roster(t.cancelled, t.active)
  {
    hide Shuffle.Shuffled, Sane;
    if s.signal == Waiting && t.active != s.active {
      var id: nat :| id < |s.active| && CancelsOne(s, id, t);
      LastTakesSlot(s.cancelled, s.active, id);
    }
  }

  /** Each worker is cancelled at most once: the table never offers a cancelled one. */
  lemma LastTakesSlot(cancelled: seq<bool>, active: seq<nat>, id: nat)
    requires Roster(cancelled, active) && id < |active|
    ensures Roster(cancelled[active[id] := true], SwapRemove(active, id))
  {
    var last := |active| - 1;
    var left := SwapRemove(active, id);
    forall i | 0 <= i < |cancelled| && !cancelled[active[id] := true][i] ensures i in left {
      var k :| 0 <= k < |active| && active[k] == i;
      assert left[if k == last then id else k] == i;
    }
  }

  lemma StepKeepsInv(s: State, e: Step, t: State)
    requires Inv(s) && Takes(s, e, t)
    ensures Inv(t)
  {
    hide Inv, WorkerSteps, SignalSteps, CancelActs;
    match e {
      case Ordinary(i) => WorkerStepKeepsInv(s, i, t);
      case Cancel(i) => CancelKeepsInv(s, i, t);
      case Signal => SignalStepKeepsInv(s, t);
    }
  }

  // ---------- runs ----------

  ghost predicate Next(s: State, t: State) {
    Sane(s) && exists e :: Takes(s, e, t)
  }

  ghost predicate IsRun(run: seq<State>) {
    run != [] && forall i | 0 <= i < |run| - 1 :: Next(run[i], run[i + 1])
  }

  lemma {:induction false} RunKeepsInv(run: seq<State>, i: nat)
    requires IsRun(run) && Inv(run[0]) && i < |run|
    ensures Inv(run[i])
    decreases i
  {
    hide Inv, Takes;
    if i > 0 {
      RunKeepsInv(run, i - 1);
      assert Next(run[i - 1], run[i - 1 + 1]);
      var e :| Takes(run[i - 1], e, run[i]);
      StepKeepsInv(run[i - 1], e, run[i]);
    }
  }

  /** Whatever the interleaving, and wherever cancellations strike: once the signal thread holds
      every mutex, the shelves hold each product exactly once. */
  lemma HoldingSeesAllProducts(run: seq<State>, i: nat)
    requires IsRun(run) && Init(run[0]) && i < |run| && run[i].signal.Holding?
    ensures multiset(run[i].shelves) == multiset(Products(|run[i].shelves|))
  {
    hide Owners, FlagOwner, Reads, Roster, Stock;
    InitInv(run[0]);
    RunKeepsInv(run, i);
    NobodySwaps(run[i]);
  }
}
