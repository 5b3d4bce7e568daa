/** How the shop closes, and what a shuffle and a worker's choice can come to. */
module ShopEnd {
  import opened Basics
  import opened Shop
  import opened ShopResults
  import opened ShopProgress

  // ---------- once the flag is set ----------

  /** How many steps a worker is from the end once the flag is set. */
  function Distance(p: Place): nat {
    match p
    case Left => 0
    case Cancelled => 0
    case Stuck(_, _) => 0
    case InFlag => 1
    case Idle => 2
    case Reporting => 3
    case Rel2(_, _) => 3
    case Rel1(_, _) => 4
    case Nap(_, _) => 5
    case Store2(_, _, _, _) => 6
    case Store1(_, _, _, _) => 7
    case Both(_, _) => 8
    case Want2(_, _) => 9
    case Want1(_, _) => 10
    case Asleep(_, _) => 11
  }

  function Rank(ws: seq<Place>): nat {
    if ws == [] then 0 else Distance(ws[0]) + Rank(ws[1..])
  }

  lemma {:induction false} RankAt(ws: seq<Place>, i: nat, p: Place)
    requires i < |ws|
    ensures Rank(ws[i := p]) == Rank(ws) - Distance(ws[i]) + Distance(p)
  {
    if i > 0 {
      assert ws[i := p][1..] == ws[1..][i - 1 := p];
      RankAt(ws[1..], i - 1, p);
    } else {
      assert ws[0 := p][1..] == ws[1..];
    }
  }

  lemma WorkerNearer(s: State, i: nat, t: State)
    requires Sane(s) && s.flag && i < |s.workers| && (WorkerSteps(s, i, t) || CancelActs(s, i, t))
    ensures |t.workers| == |s.workers| && t.workers == s.workers[i := t.workers[i]]
    ensures Distance(t.workers[i]) < Distance(s.workers[i]) && t.flag == s.flag
  {
  }

  /** Once the flag is set, every step of any thread, and every cancellation that takes effect, brings
      the end nearer. */
  lemma StepsBringNearer(s: State, t: State)
    requires Inv(s) && Next(s, t) && s.flag
    ensures t.flag && Rank(t.workers) < Rank(s.workers)
  {
    hide Owners, FlagOwner, Reads, Complete, Roster, Rank, Distance, WorkerSteps, CancelActs;
    var e :| Takes(s, e, t);
    match e {
      case Ordinary(i) =>
        WorkerNearer(s, i, t);
        RankAt(s.workers, i, t.workers[i]);
      case Cancel(i) =>
        WorkerNearer(s, i, t);
        RankAt(s.workers, i, t.workers[i]);
      case Signal =>
        assert false;
    }
  }

  /** So the shop comes to rest after at most `Rank` steps, however they are interleaved. */
  lemma {:induction false} ClosingIsBounded(run: seq<State>, i: nat, j: nat)
    requires IsRun(run) && Inv(run[0]) && i <= j < |run| && run[i].flag
    ensures run[j].flag && Rank(run[j].workers) + (j - i) <= Rank(run[i].workers)
    decreases j
  {
    hide Inv, Takes, Rank;
    if i < j {
      ClosingIsBounded(run, i, j - 1);
      RunKeepsInv(run, j - 1);
      assert Next(run[j - 1], run[j - 1 + 1]);
      StepsBringNearer(run[j - 1], run[j]);
    }
  }

  predicate Ended(p: Place) { p.Left? || p.Cancelled? }

  /** When it rests, main has every worker to join if and only if none was cancelled inside its critical
      section. */
  lemma AllJoinedIff(s: State)
    requires Inv(s) && s.flag && forall u :: !Able(s, u)
    ensures (forall i | 0 <= i < |s.workers| :: Ended(s.workers[i])) <==>
            (forall i | 0 <= i < |s.workers| :: !s.workers[i].Stuck?)
  {
    hide Inv, Able, Wants;
    if forall i | 0 <= i < |s.workers| :: !s.workers[i].Stuck? {
      forall i | 0 <= i < |s.workers| ensures Ended(s.workers[i]) {
        var me := ShopProgress.Worker(i);
        if Wants(s, me).Some? {
          NoDeadlock(s, me);
          assert false;
        } else if !Ended(s.workers[i]) {
          InvIsSane(s);
          AbleWorker(s, i);
        }
      }
    }
  }

  lemma InvIsSane(s: State)
    requires Inv(s)
    ensures Sane(s)
  {
  }

  /** The flag is set, or the signal thread is about to, once every worker has been cancelled. */
  lemma LastCancellationCloses(run: seq<State>, i: nat)
    requires IsRun(run) && Init(run[0]) && i < |run| && run[i].cancelled != []
    requires forall w | 0 <= w < |run[i].cancelled| :: run[i].cancelled[w]
    ensures run[i].signal in {FlagWanted, FlagHeld, Gone} && (run[i].flag <==> run[i].signal == Gone)
  {
    hide Owners, FlagOwner, Reads, Complete, Sane, Init;
    InitInv(run[0]);
    RunKeepsInv(run, i);
    if run[i].active != [] {
      ListedIsNotCancelled(run[i]);
    }
  }

  lemma ListedIsNotCancelled(s: State)
    requires Inv(s) && s.active != []
    ensures exists w | 0 <= w < |s.cancelled| :: !s.cancelled[w]
  {
    hide Owners, FlagOwner, Reads, Complete;
    assert !s.cancelled[s.active[0]];
  }

  // ---------- what can come ----------

  /** A shuffle can leave the shelves in every order, and in no other contents. */
  lemma AnyOrderCanFollow(s: State, order: seq<int>)
    requires Inv(s) && s.signal == Holding(Mix)
    ensures (exists t :: SignalSteps(s, t) && t.shelves == order) <==> multiset(order) == multiset(Products(|s.shelves|))
  {
    hide Shuffle.Shuffled, Reads, FlagOwner, Roster, Shuffle.Choices;
    NobodySwaps(s);
    ShelvesAreDistinct(s);
    Shuffle.EachPermutationOnce(s.shelves, order);
    if multiset(order) == multiset(Products(|s.shelves|)) {
      var js :| Shuffle.Choices(js, |s.shelves|) && Shuffle.Shuffled(s.shelves, js) == order;
      assert SignalSteps(s, s.(signal := Unlocking(Mix, 0), shelves := order));
    }
  }

  lemma ShelvesAreDistinct(s: State)
    requires multiset(s.shelves) == multiset(Products(|s.shelves|))
    ensures Shuffle.Distinct(s.shelves)
  {
    var n := |s.shelves|;
    forall x ensures multiset(Products(n))[x] <= 1 {
      Shuffle.DistinctOnce(Products(n), x);
    }
    forall i, j | 0 <= i < j < n ensures s.shelves[i] != s.shelves[j] {
      if s.shelves[i] == s.shelves[j] {
        Shuffle.SameTwice(s.shelves, i, j);
      }
    }
  }

  /** A worker that finds the flag not set can pick any two shelves, and goes for the lower one first. */
  lemma AnyPairCanBePicked(s: State, i: nat, a: nat, b: nat)
    requires Inv(s) && i < |s.workers| && s.workers[i] == InFlag
    ensures (exists t, u :: WorkerSteps(s, i, t) && Sane(t) && i < |t.workers| && WorkerSteps(t, i, u)
                            && i < |u.workers| && u.workers[i] == Want1(a, b)) <==>
            !s.flag && a < b < |s.shelves|
  {
    hide Owners, FlagOwner, Reads, Complete, Roster;
    if !s.flag && a < b < |s.shelves| {
      var t := At(s, i, Asleep(a, b)).(flagOwner := Free);
      assert WorkerSteps(s, i, t) && Sane(t);
      assert WorkerSteps(t, i, At(t, i, Want1(a, b)));
    }
  }
}
