/** When the teacher comes to its end: exactly if no request is lost. */
module TeacherEnd {
  import opened Basics
  import opened Teacher

  // ---------- the end ----------

  ghost predicate NoneMerged(s: State) {
    forall w | 0 <= w < |s.students| :: !s.students[w].merged
  }

  lemma StudentCanStep(s: State, w: nat)
    requires w < |s.students| && StudentOk(s.students[w], s.parts, s.steps, s.usr1Pending == Some(w), s.accepting == Some(w))
    requires !s.students[w].merged && s.usr1Pending != Some(w) && s.accepting != Some(w) && s.students[w].pc != Exited
    ensures exists t :: StudentSteps(s, w, t)
  {
    var x := s.students[w];
    var t := match x.pc
      case Working(k, j) => With(s, w, if j < s.steps then Worked(x, k, j + 1, 0) else x.(pc := Clearing(k)))
      case Clearing(k) => With(s, w, x.(pc := Sending(k), confirmed := false))
      case Sending(k) =>
        if s.usr1Pending == None then With(s, w, x.(pc := Waiting(k))).(usr1Pending := Some(w))
        else With(s, w, x.(pc := Waiting(k), merged := true))
      case Waiting(k) =>
        if x.confirmed then With(s, w, x.(pc := if k < s.parts then Working(k + 1, 0) else Leaving))
        else With(s, w, x.(ackPending := false, confirmed := true))
      case Leaving => With(s, w, x.(pc := Exited)).(chldPending := true)
      case Exited => s;
    assert StudentSteps(s, w, t);
  }

  /** Suspended with no handler at work: a signal is pending, or a student can go on. */
  lemma SomeoneMoves(s: State)
    requires Inv(s) && s.main == Suspended(false) && NoneMerged(s)
    ensures exists e, t :: Takes(s, e, t)
  {
    hide NoneForgotten, StudentOk, Tally, StudentSteps, ReaperSteps, AccepterSteps;
    if s.chldPending {
      assert TeacherSteps(s, s.(chldPending := false, reaper := Looping, main := Suspended(true)));
      assert Takes(s, OfTeacher, s.(chldPending := false, reaper := Looping, main := Suspended(true)));
    } else if s.usr1Pending.Some? {
      assert TeacherSteps(s, s.(usr1Pending := None, accepting := s.usr1Pending, main := Suspended(true)));
      assert Takes(s, OfTeacher, s.(usr1Pending := None, accepting := s.usr1Pending, main := Suspended(true)));
    } else {
      var w := SomeoneIsLeft(s);
      StudentCanStep(s, w);
      var t :| StudentSteps(s, w, t);
      assert Takes(s, OfStudent(w), t);
    }
  }

  lemma SomeoneIsLeft(s: State) returns (w: nat)
    requires Inv(s) && s.main == Suspended(false) && !s.chldPending
    ensures w < |s.students| && s.students[w].pc != Exited
  {
    hide Students;
    w := SomeUnreaped(s.students);
    assert !Zombie(s.students[w]);
  }

  lemma {:induction false} SomeUnreaped(xs: seq<Student>) returns (w: nat)
    requires Unreaped(xs) > 0
    ensures w < |xs| && !xs[w].reaped
  {
    if !xs[0].reaped {
      w := 0;
    } else {
      w := SomeUnreaped(xs[1..]);
      w := w + 1;
    }
  }

  lemma HandlersMove(s: State)
    requires Inv(s) && s.main == Suspended(true)
    ensures exists t :: TeacherSteps(s, t)
  {
    hide Students, NoneForgotten;
    if s.accepting.Some? {
      var i := s.accepting.value;
      var x := s.students[i];
      var t := With(s, i, x.(ackPending := true, acked := x.acked + 1)).(accepting := None);
      assert AccepterSteps(s, t);
      assert TeacherSteps(s, t);
    } else if s.reaper == Off {
      assert TeacherSteps(s, s.(main := Testing));
    } else {
      ReaperMoves(s);
    }
  }

  lemma ReaperMoves(s: State)
    requires Tally(s) && s.reaper != Off && s.main.Suspended?
    ensures exists t :: TeacherSteps(s, t)
  {
    var t: State;
    match s.reaper {
      case Looping =>
        if i: nat :| i < |s.students| && Zombie(s.students[i]) {
          t := With(s, i, s.students[i].(reaped := true)).(reaper := Counting(i));
        } else {
          t := s.(reaper := Off);
        }
      case Counting(i) => t := s.(left := s.left - 1, reaper := Storing(i));
      case Storing(i) => t := s.(table := s.table[i := ExitStatus(s.students[i])], reaper := Looping);
      case _ => t := s;
    }
    assert ReaperSteps(s, t);
    assert TeacherSteps(s, t);
  }

  /** As long as no request has been merged and the teacher is not done, someone can step. */
  lemma NeverStuckUnmerged(s: State)
    requires Inv(s) && s.main != Done && NoneMerged(s)
    ensures exists e, t :: Takes(s, e, t)
  {
    hide Inv, StudentSteps, TeacherSteps, NoneMerged;
    if s.main == Suspended(false) {
      SomeoneMoves(s);
    } else {
      if s.main == Testing {
        TestingMoves(s);
      } else {
        HandlersMove(s);
      }
      var t :| TeacherSteps(s, t);
      assert Takes(s, OfTeacher, t);
    }
  }

  lemma TestingMoves(s: State)
    requires s.main == Testing
    ensures exists t :: TeacherSteps(s, t)
  {
    assert TeacherSteps(s, s.(main := if s.left > 0 then Suspended(false) else Done));
  }

  /** How many steps a student, and what it sets off in the teacher, can still take. */
  function ToGo(x: Student, parts: nat, steps: nat): int {
    match x.pc
    case Working(k, j) => (steps - j) + 17 + (parts - k) * (steps + 9)
    case Clearing(k) => 16 + (parts - k) * (steps + 9)
    case Sending(k) => 15 + (parts - k) * (steps + 9)
    case Waiting(k) => (if x.confirmed then 9 else 10) + (parts - k) * (steps + 9)
    case Leaving => 8
    case Exited => if x.reaped then 0 else 3
  }

  function AllToGo(xs: seq<Student>, parts: nat, steps: nat): int {
    if xs == [] then 0 else ToGo(xs[0], parts, steps) + AllToGo(xs[1..], parts, steps)
  }

  function TeacherToGo(s: State): nat {
    4 * One(s.chldPending) + 4 * One(s.usr1Pending.Some?) + One(s.accepting.Some?)
    + (match s.reaper case Off => 0 case Looping => 1 case Storing(_) => 2 case Counting(_) => 3)
    + (match s.main case Testing => 1 case Suspended(ran) => 2 * One(ran) case Done => 0)
  }

  function Rank(s: State): int {
    AllToGo(s.students, s.parts, s.steps) + TeacherToGo(s)
  }

  lemma {:induction false} AllToGoAt(xs: seq<Student>, i: nat, x: Student, parts: nat, steps: nat)
    requires i < |xs|
    ensures AllToGo(xs[i := x], parts, steps) == AllToGo(xs, parts, steps) - ToGo(xs[i], parts, steps) + ToGo(x, parts, steps)
  {
    if i > 0 {
      assert xs[i := x][1..] == xs[1..][i - 1 := x];
      AllToGoAt(xs[1..], i - 1, x, parts, steps);
    } else {
      assert xs[0 := x][1..] == xs[1..];
    }
  }

  lemma OnePartLess(parts: nat, k: nat, steps: nat)
    requires k < parts
    ensures (parts - k) * (steps + 9) == (parts - (k + 1)) * (steps + 9) + steps + 9
  {
  }

  lemma NothingLess(parts: nat, k: nat, steps: nat)
    requires k <= parts
    ensures (parts - k) * (steps + 9) >= 0
  {
  }

  lemma StudentBringsNearer(s: State, i: nat, t: State)
    requires i < |s.students| && StudentSteps(s, i, t)
    requires StudentOk(s.students[i], s.parts, s.steps, s.usr1Pending == Some(i), s.accepting == Some(i))
    ensures |t.students| == |s.students|
    ensures ToGo(t.students[i], s.parts, s.steps) + 4 * One(t.usr1Pending.Some?) + 4 * One(t.chldPending)
            < ToGo(s.students[i], s.parts, s.steps) + 4 * One(s.usr1Pending.Some?) + 4 * One(s.chldPending)
  {
    if s.students[i].pc.Waiting? {
      var k := s.students[i].pc.part;
      if k < s.parts {
        OnePartLess(s.parts, k, s.steps);
      }
    }
  }

  /** Every step, of a student or of the teacher, brings the end nearer. */
  lemma StepsBringNearer(s: State, e: Step, t: State)
    requires Inv(s) && Takes(s, e, t)
    ensures Rank(t) < Rank(s)
  {
    hide StudentSteps, TeacherSteps, StudentOk, ToGo;
    match e {
      case OfStudent(i) =>
        StudentAdvances(s, i, t);
        StudentBringsNearer(s, i, t);
        AllToGoAt(s.students, i, t.students[i], s.parts, s.steps);
      case OfTeacher => TeacherBringsNearer(s, t);
    }
  }

  lemma TeacherBringsNearer(s: State, t: State)
    requires Inv(s) && TeacherSteps(s, t)
    ensures Rank(t) < Rank(s)
  {
    hide Students, NoneForgotten, ReaperSteps, AccepterSteps;
    if s.main.Suspended? && ReaperSteps(s, t) {
      ReaperBringsNearer(s, t);
    } else if s.main.Suspended? && AccepterSteps(s, t) {
      AccepterBringsNearer(s, t);
    }
  }

  lemma ReaperBringsNearer(s: State, t: State)
    requires ReaperSteps(s, t)
    ensures Rank(t) < Rank(s)
  {
    if t.reaper.Counting? {
      AllToGoAt(s.students, t.reaper.i, t.students[t.reaper.i], s.parts, s.steps);
    }
  }

  lemma AccepterBringsNearer(s: State, t: State)
    requires AccepterSteps(s, t)
    ensures Rank(t) < Rank(s)
  {
    AllToGoAt(s.students, s.accepting.value, t.students[s.accepting.value], s.parts, s.steps);
  }

  lemma {:induction false} NobodyBelowZero(s: State, n: nat)
    requires Students(s) && n <= |s.students|
    ensures AllToGo(s.students[n..], s.parts, s.steps) >= 0
    decreases |s.students| - n
  {
    if n < |s.students| {
      var x := s.students[n];
      assert s.students[n..][0] == x && s.students[n..][1..] == s.students[n + 1..];
      assert StudentOk(x, s.parts, s.steps, s.usr1Pending == Some(n), s.accepting == Some(n));
      if Part(x.pc) <= s.parts {
        NothingLess(s.parts, Part(x.pc), s.steps);
      }
      NobodyBelowZero(s, n + 1);
    }
  }

  /** Whatever the schedule, no run is longer than the rank of its first state. */
  lemma {:induction false} RunsAreBounded(run: seq<State>, j: nat)
    requires IsRun(run) && Inv(run[0]) && j < |run|
    ensures Rank(run[j]) + j <= Rank(run[0]) && Rank(run[j]) >= 0
    decreases j
  {
    hide Inv, Takes, Rank;
    RunKeepsInv(run, j);
    RankIsNat(run[j]);
    if j > 0 {
      RunsAreBounded(run, j - 1);
      RunKeepsInv(run, j - 1);
      assert Next(run[j - 1], run[j - 1 + 1]);
      var e :| Takes(run[j - 1], e, run[j]);
      StepsBringNearer(run[j - 1], e, run[j]);
    }
  }

  lemma RankIsNat(s: State)
    requires Inv(s)
    ensures Rank(s) >= 0
  {
    hide Tally, NoneForgotten, Places, StudentOk;
    NobodyBelowZero(s, 0);
    assert s.students[0..] == s.students;
  }

  /** No step is possible any more. */
  ghost predicate Final(s: State) {
    forall t :: !Next(s, t)
  }

  lemma NotFinalYet(s: State)
    requires Inv(s) && NoneMerged(s) && s.main != Done
    ensures !Final(s)
  {
    hide Inv, Takes, NoneMerged;
    NeverStuckUnmerged(s);
    var e, t :| Takes(s, e, t);
    assert Next(s, t);
  }

  /** A run that has come to its end, and every run comes to one, has the teacher done if and only if
      no request was merged with another student's. */
  lemma EndsDoneIff(run: seq<State>)
    requires IsRun(run) && Init(run[0]) && Final(run[|run| - 1])
    ensures run[|run| - 1].main == Done <==> forall i | 0 <= i < |run| :: NoneMerged(run[i])
    ensures |run| - 1 <= Rank(run[0])
  {
    hide Inv, Takes, Rank, Init, Final;
    var last := |run| - 1;
    InitInv(run[0]);
    RunKeepsInv(run, last);
    RunsAreBounded(run, last);
    if i :| 0 <= i < |run| && !NoneMerged(run[i]) {
      var w :| 0 <= w < |run[i].students| && run[i].students[w].merged;
      MergedRequestHangs(run, i, last, w);
    } else if run[last].main != Done {
      NotFinalYet(run[last]);
    }
  }

  // ---------- when a request can be merged ----------

  /** A student's first way to its request, however many steps a part has. */
  function Way(steps: nat, i: nat): Pc {
    if i <= steps then Working(1, i)
    else if i == steps + 1 then Clearing(1)
    else if i == steps + 2 then Sending(1)
    else Waiting(1)
  }

  /** Drawing only zeros, the student `w` has gone `i` steps of its way, all others and the teacher none. */
  function Ahead(s: State, w: nat, i: nat): State
    requires w < |s.students|
  {
    var sent := i > s.steps + 2;
    var worked, prob := if i <= s.steps then i else s.steps, s.students[w].prob;
    var x := Student(Way(s.steps, i), if prob > 0 then worked else 0, false, false, false, 0, sent && s.usr1Pending.Some?,
                     prob, Zeros(worked));
    With(s, w, x).(usr1Pending := if sent && s.usr1Pending == None then Some(w) else s.usr1Pending)
  }

  lemma OneAhead(s: State, w: nat, i: nat)
    requires w < |s.students| && i < s.steps + 3
    ensures Takes(Ahead(s, w, i), OfStudent(w), Ahead(s, w, i + 1))
  {
    var a, t := Ahead(s, w, i), Ahead(s, w, i + 1);
    assert t.students == a.students[w := t.students[w]];
    if i < s.steps {
      OneMoreZero(i);
      assert t.students[w] == Worked(a.students[w], 1, i + 1, 0);
    }
  }

  function Zeros(n: nat): (r: seq<nat>)
    ensures |r| == n
  {
    seq(n, _ => 0)
  }

  lemma OneMoreZero(n: nat)
    ensures Zeros(n + 1) == Zeros(n) + [0]
  {
  }

  lemma AheadFromStart(s: State, w: nat)
    requires w < |s.students| && s.students[w] == New(s.students[w].prob)
    ensures Ahead(s, w, 0) == s
  {
    assert Zeros(0) == [];
    assert s.students[w := s.students[w]] == s.students;
  }

  lemma {:induction false} GoesAhead(s: State, w: nat, n: nat) returns (run: seq<State>)
    requires w < |s.students| && s.students[w] == New(s.students[w].prob)
    requires n <= s.steps + 3
    ensures IsRun(run) && run[0] == s && run[|run| - 1] == Ahead(s, w, n)
  {
    hide Takes, Ahead;
    if n == 0 {
      AheadFromStart(s, w);
      run := [s];
    } else {
      run := GoesAhead(s, w, n - 1);
      OneAhead(s, w, n - 1);
      run := Longer(run, Ahead(s, w, n), OfStudent(w));
    }
  }

  lemma Longer(run: seq<State>, t: State, e: Step) returns (longer: seq<State>)
    requires IsRun(run) && Takes(run[|run| - 1], e, t)
    ensures IsRun(longer) && longer[0] == run[0] && longer[|longer| - 1] == t
  {
    hide Takes;
    longer := run + [t];
    forall i | 0 <= i < |longer| - 1 ensures Next(longer[i], longer[i + 1]) {
      if i == |run| - 1 {
        assert longer[i] == run[|run| - 1] && longer[i + 1] == t;
      } else {
        assert Next(run[i], run[i + 1]);
      }
    }
  }

  lemma Joined(run: seq<State>, more: seq<State>) returns (all: seq<State>)
    requires IsRun(run) && IsRun(more) && run[|run| - 1] == more[0]
    ensures IsRun(all) && all[0] == run[0] && all[|all| - 1] == more[|more| - 1]
  {
    hide Next;
    all := run + more[1..];
    forall i | 0 <= i < |all| - 1 ensures Next(all[i], all[i + 1]) {
      if i < |run| - 1 {
        assert all[i] == run[i] && all[i + 1] == run[i + 1];
      } else {
        var j := i - (|run| - 1);
        assert all[i] == more[j] && all[i + 1] == more[j + 1];
      }
    }
  }

  ghost predicate CanMerge(s: State) {
    exists run :: IsRun(run) && run[0] == s && !NoneMerged(run[|run| - 1])
  }

  /** Two students that finish a part one after the other, before the teacher gets to look. */
  lemma TwoMerge(s: State)
    requires Init(s) && |s.students| >= 2
    ensures CanMerge(s)
  {
    var n := s.steps + 3;
    var first := GoesAhead(s, 0, n);
    var u := Ahead(s, 0, n);
    assert u.students[1] == s.students[1] && u.steps == s.steps;
    var second := GoesAhead(u, 1, n);
    var run := Joined(first, second);
    assert run[|run| - 1].students[1].merged;
  }

  lemma LoneStep(s: State, e: Step, t: State)
    requires Inv(s) && |s.students| <= 1 && NoneMerged(s) && Takes(s, e, t)
    ensures NoneMerged(t) && |t.students| == |s.students|
  {
    hide Inv, NoneMerged, StudentSteps, TeacherSteps;
    match e {
      case OfStudent(i) => LoneStudentStep(s, i, t);
      case OfTeacher => TeacherMergesNone(s, t);
    }
  }

  lemma LoneStudentStep(s: State, i: nat, t: State)
    requires Inv(s) && |s.students| <= 1 && NoneMerged(s) && i < |s.students| && StudentSteps(s, i, t)
    ensures NoneMerged(t) && |t.students| == |s.students|
  {
    hide NoneForgotten, Tally, Students;
    if s.students[i].pc.Sending? {
      MergedIff(s, i, t);
    }
  }

  lemma TeacherMergesNone(s: State, t: State)
    requires NoneMerged(s) && TeacherSteps(s, t)
    ensures NoneMerged(t) && |t.students| == |s.students|
  {
  }

  lemma {:induction false} LoneRun(run: seq<State>, i: nat)
    requires IsRun(run) && Inv(run[0]) && NoneMerged(run[0]) && |run[0].students| <= 1 && i < |run|
    ensures NoneMerged(run[i]) && |run[i].students| <= 1
    decreases i
  {
    hide Inv, Takes, NoneMerged;
    if i > 0 {
      LoneRun(run, i - 1);
      RunKeepsInv(run, i - 1);
      assert Next(run[i - 1], run[i - 1 + 1]);
      var e :| Takes(run[i - 1], e, run[i]);
      LoneStep(run[i - 1], e, run[i]);
    }
  }

  /** A class can lose a request, and its teacher hang, if and only if it has two students or more. */
  lemma CanMergeIff(s: State)
    requires Init(s)
    ensures CanMerge(s) <==> |s.students| >= 2
  {
    hide Inv, Next;
    if |s.students| >= 2 {
      TwoMerge(s);
    } else if CanMerge(s) {
      var run :| IsRun(run) && run[0] == s && !NoneMerged(run[|run| - 1]);
      InitInv(s);
      LoneRun(run, |run| - 1);
    }
  }

  /** So a class of one always ends with the teacher done. */
  lemma LoneStudentEnds(run: seq<State>)
    requires IsRun(run) && Init(run[0]) && |run[0].students| <= 1 && Final(run[|run| - 1])
    ensures run[|run| - 1].main == Done
  {
    hide Inv, Takes, Final;
    InitInv(run[0]);
    forall i | 0 <= i < |run| ensures NoneMerged(run[i]) {
      LoneRun(run, i);
    }
    EndsDoneIff(run);
  }
}
