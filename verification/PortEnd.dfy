/** Whatever has happened in the port, it can be closed. */
module PortEnd {
  import opened Port

  ghost predicate Leads(s: State, t: State) {
    exists run :: IsRun(run) && run[0] == s && run[|run| - 1] == t
  }

  predicate AllDone(s: State) {
    s.signal == Gone && forall i | 0 <= i < |s.workers| :: s.workers[i] == Done
  }

  lemma NoStep(s: State)
    ensures Leads(s, s)
  {
    assert IsRun([s]) && [s][0] == s && [s][|[s]| - 1] == s;
  }

  lemma StepThenRun(s: State, t: State, u: State)
    requires Next(s, t) && Leads(t, u)
    ensures Leads(s, u)
  {
    hide Next;
    var run :| IsRun(run) && run[0] == t && run[|run| - 1] == u;
    var more := [s] + run;
    forall i | 0 <= i < |more| - 1 ensures Next(more[i], more[i + 1]) {
      assert i > 0 ==> Next(run[i - 1], run[i - 1 + 1]);
    }
    assert more[0] == s && more[|more| - 1] == u;
  }

  lemma OneStep(s: State, e: Step) returns (t: State)
    requires Inv(s) && Able(s, e)
    ensures Takes(s, e, t) && Next(s, t) && Inv(t)
  {
    hide Inv, WorkerSteps, SignalSteps;
    match e {
      case Worker(i) => t :| WorkerSteps(s, i, t);
      case Signal => t :| SignalSteps(s, t);
    }
    StepKeepsInv(s, e, t);
  }

  // ---------- up to the closing ----------

  /** How many of its steps the signal thread is from closing the port, if SIGINT comes as soon as it
      can. */
  function StepsToClose(p: Post): nat {
    match p
    case WantDock => 7
    case Docking => 6
    case Docked => 5
    case DockedUnlock => 4
    case Waiting => 3
    case WantClose => 2
    case Closing => 1
    case _ => 0
  }

  /** How many steps a worker still keeps the state mutex. */
  function StepsToFree(o: Owner, ws: seq<Place>): nat {
    if o.ByWorker? && o.i < |ws| then
      match ws[o.i]
      case Taken => 2
      case Testing => 2
      case Checking => 3
      case _ => 1
    else 0
  }

  lemma SignalGoesOn(s: State, t: State)
    requires SignalSteps(s, t) && s.signal != Waiting
    ensures s.signal in {WantDock, Docking, Docked, DockedUnlock, WantClose, Closing} ==>
              StepsToClose(t.signal) < StepsToClose(s.signal)
  {
    hide WakeAll;
  }

  lemma HolderGoesOn(s: State, i: nat, t: State)
    requires s.stateOwner == ByWorker(i) && i < |s.workers| && HoldsState(s.workers[i]) && WorkerSteps(s, i, t)
    ensures t.signal == s.signal && t.terminate == s.terminate
    ensures StepsToFree(t.stateOwner, t.workers) < StepsToFree(s.stateOwner, s.workers)
  {
  }

  lemma BeforeClosing(s: State)
    requires Inv(s) && !s.terminate
    ensures s.signal in {WantDock, Docking, Docked, DockedUnlock, Waiting, WantClose, Closing}
    ensures SignalHolds(s.signal) ==> s.stateOwner == BySignal
    ensures s.stateOwner.ByWorker? ==> s.stateOwner.i < |s.workers| && HoldsState(s.workers[s.stateOwner.i])
    ensures s.stateOwner == BySignal ==> SignalHolds(s.signal)
  {
    hide ShipOwner, Conserved, Announced, NoneForgotten;
  }

  lemma {:induction false} CanBeTold(s: State) returns (t: State)
    requires Inv(s)
    ensures Inv(t) && Leads(s, t) && t.terminate
    decreases if s.terminate then 0 else StepsToClose(s.signal), StepsToFree(s.stateOwner, s.workers)
  {
    hide Inv, Leads, WorkerSteps, SignalSteps, Able;
    if s.terminate {
      NoStep(s);
      return s;
    }
    BeforeClosing(s);
    var u;
    if s.signal == Waiting {
      u := s.(signal := WantClose);
      SigintIsTaken(s, u);
      StepKeepsInv(s, Signal, u);
    } else if s.stateOwner.ByWorker? && !SignalHolds(s.signal) {
      var i := s.stateOwner.i;
      HolderIsAble(s, i);
      u := OneStep(s, Worker(i));
      HolderGoesOn(s, i, u);
    } else {
      AbleSignal(s);
      u := OneStep(s, Signal);
      SignalGoesOn(s, u);
    }
    t := CanBeTold(u);
    StepThenRun(s, u, t);
  }

  lemma HolderIsAble(s: State, i: nat)
    requires i < |s.workers| && HoldsState(s.workers[i])
    ensures Able(s, Worker(i))
  {
    hide Able;
    AbleWorker(s, i);
  }

  lemma SigintIsTaken(s: State, u: State)
    requires s.signal == Waiting && u == s.(signal := WantClose)
    ensures Takes(s, Signal, u) && Next(s, u)
  {
    assert Takes(s, Signal, u);
  }

  // ---------- and to the end ----------

  lemma {:induction false} CanEnd(s: State) returns (t: State)
    requires Inv(s) && s.terminate
    ensures Inv(t) && Leads(s, t) && AllDone(t)
    decreases Rank(s)
  {
    hide Inv, Leads, Takes, Able, Rank;
    ClosingEnds(s);
    if Rank(s) == 0 {
      NoStep(s);
      t := s;
    } else {
      var e :| Able(s, e);
      var u := OneStep(s, e);
      StepsBringNearer(s, u);
      StepAfterTerminate(s, u);
      t := CanEnd(u);
      StepThenRun(s, u, t);
    }
  }

  lemma {:induction false} RunsJoin(s: State, t: State, u: State)
    requires Leads(s, t) && Leads(t, u)
    ensures Leads(s, u)
  {
    hide Next;
    var first :| IsRun(first) && first[0] == s && first[|first| - 1] == t;
    var second :| IsRun(second) && second[0] == t && second[|second| - 1] == u;
    var run := first + second[1..];
    forall i | 0 <= i < |run| - 1 ensures Next(run[i], run[i + 1]) {
      if i < |first| - 1 {
        assert Next(first[i], first[i + 1]);
      } else {
        var j := i - (|first| - 1);
        assert Next(second[j], second[j + 1]);
      }
    }
    assert run[0] == s && run[|run| - 1] == u;
  }

  /** From every state that a run reaches, the port can be closed so that all threads end. */
  lemma PortCanAlwaysClose(run: seq<State>, i: nat)
    requires IsRun(run) && Init(run[0]) && i < |run|
    ensures exists t :: Leads(run[i], t) && AllDone(t)
  {
    hide Init, Inv, Next, Leads, AllDone;
    InitInv(run[0]);
    RunKeepsInv(run, i);
    var told := CanBeTold(run[i]);
    var t := CanEnd(told);
    RunsJoin(run[i], told, t);
  }

  // ---------- a ship ----------

  /** The signal thread brings a ship of n packages exactly to an empty port, and only of 30 to 60. */
  lemma DocksIff(s: State, n: int)
    requires Inv(s) && s.signal == Docking
    ensures (exists t :: SignalSteps(s, t) && t.signal == Docked && t.left == n) <==> s.left == 0 && 30 <= n <= 60
  {
    hide StateOwner, ShipOwner, Announced, NoneForgotten;
    var t := s.(signal := Docked, left := n, docked := s.docked + n);
    if s.left == 0 && 30 <= n <= 60 {
      assert SignalSteps(s, t);
    }
  }
}
