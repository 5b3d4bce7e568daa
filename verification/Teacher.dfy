/** A teacher process and its students: exits arrive as SIGCHLD, requests as SIGUSR1 and their
    acceptance as SIGUSR2. Each kind is one pending bit: a second SIGCHLD or SIGUSR1 that finds one
    pending is merged into it, and of SIGUSR1 only the first sender is remembered. A state machine
    over the processes' steps; the teacher's two handlers may interrupt each other, so their steps
    interleave. */
module Teacher {
  import opened Basics

  /** Parts count from 1, as in the program. */
  datatype Pc =
    | Working(part: nat, step: nat)
    | Clearing(part: nat)        // about to clear g_confirmed
    | Sending(part: nat)         // about to send SIGUSR1
    | Waiting(part: nat)         // in the loop around sigsuspend
    | Leaving
    | Exited

  /** `acked`, `merged` and `draws` are bookkeeping: how many SIGUSR2 the teacher has sent this student,
      whether its present request was merged into another's, and the random numbers it has drawn, one
      for each step of its work. */
  datatype Student = Student(
    pc: Pc, issues: nat, confirmed: bool, ackPending: bool, reaped: bool,
    acked: nat, merged: bool,
    prob: nat, draws: seq<nat>)

  function New(prob: nat): Student {
    Student(Working(1, 0), 0, false, false, false, 0, false, prob, [])
  }

  /** sigchld_handler: about to call waitpid; about to count a reaped student; about to store its
      exit status. */
  datatype Reaper = Off | Looping | Counting(i: nat) | Storing(i: nat)

  datatype Main = Testing | Suspended(ran: bool) | Done

  datatype State = State(
    parts: nat, steps: nat,
    students: seq<Student>,
    left: int, table: seq<int>,
    chldPending: bool, usr1Pending: Option<nat>,
    reaper: Reaper, accepting: Option<nat>,
    main: Main)

  predicate Init(s: State) {
    && 1 <= s.parts <= 10 && 1 < s.steps <= 10
    && (forall i | 0 <= i < |s.students| :: s.students[i] == New(s.students[i].prob) && s.students[i].prob <= 100)
    && s.left == |s.students| && |s.table| == |s.students|
    && !s.chldPending && s.usr1Pending == None && s.reaper == Off && s.accepting == None && s.main == Testing
  }

  // ---------- steps ----------

  function With(s: State, i: nat, x: Student): State
    requires i < |s.students|
  {
    s.(students := s.students[i := x])
  }

  /** A step of work with the random number `r`. */
  function Worked(x: Student, k: nat, j: nat, r: nat): Student {
    x.(pc := Working(k, j), draws := x.draws + [r], issues := x.issues + if r < x.prob then 1 else 0)
  }

  ghost predicate StudentSteps(s: State, i: nat, t: State)
    requires i < |s.students|
  {
    var x := s.students[i];
    match x.pc
    case Working(k, j) =>
      if j < s.steps then
        && |t.students| == |s.students| && t.students[i].draws != []
        && var r := t.students[i].draws[|t.students[i].draws| - 1];
           r < 100 && t == With(s, i, Worked(x, k, j + 1, r))
      else t == With(s, i, x.(pc := Clearing(k)))
    case Clearing(k) => t == With(s, i, x.(pc := Sending(k), confirmed := false))
    case Sending(k) =>
      if s.usr1Pending == None then t == With(s, i, x.(pc := Waiting(k))).(usr1Pending := Some(i))
      else t == With(s, i, x.(pc := Waiting(k), merged := true))
    case Waiting(k) =>
      if x.confirmed then
        t == With(s, i, x.(pc := if k < s.parts then Working(k + 1, 0) else Leaving))
      else x.ackPending && t == With(s, i, x.(ackPending := false, confirmed := true))
    case Leaving => t == With(s, i, x.(pc := Exited)).(chldPending := true)
    case Exited => false
  }

  predicate Zombie(x: Student) { x.pc == Exited && !x.reaped }

  function ExitStatus(x: Student): nat { x.issues % 256 }

  ghost predicate ReaperSteps(s: State, t: State) {
    match s.reaper
    case Off => false
    case Looping =>
      if i: nat :| i < |s.students| && Zombie(s.students[i]) then
        t.reaper.Counting? && t.reaper.i < |s.students| && Zombie(s.students[t.reaper.i])
        && t == With(s, t.reaper.i, s.students[t.reaper.i].(reaped := true)).(reaper := Counting(t.reaper.i))
      else t == s.(reaper := Off)
    case Counting(i) => t == s.(left := s.left - 1, reaper := Storing(i))
    case Storing(i) =>
      i < |s.students| && i < |s.table|
      && t == s.(table := s.table[i := ExitStatus(s.students[i])], reaper := Looping)
  }

  predicate AccepterSteps(s: State, t: State) {
    match s.accepting
    case None => false
    case Some(i) =>
      i < |s.students|
      && var x := s.students[i]; t == With(s, i, x.(ackPending := true, acked := x.acked + 1)).(accepting := None)
  }

  ghost predicate TeacherSteps(s: State, t: State) {
    match s.main
    case Testing => t == s.(main := if s.left > 0 then Suspended(false) else Done)
    case Suspended(ran) =>
      || (s.chldPending && s.reaper == Off && t == s.(chldPending := false, reaper := Looping, main := Suspended(true)))
      || (s.usr1Pending.Some? && s.accepting == None
          && t == s.(usr1Pending := None, accepting := s.usr1Pending, main := Suspended(true)))
      || ReaperSteps(s, t)
      || AccepterSteps(s, t)
      || (ran && s.reaper == Off && s.accepting == None && t == s.(main := Testing))
    case Done => false
  }

  datatype Step = OfStudent(i: nat) | OfTeacher

  ghost predicate Takes(s: State, e: Step, t: State) {
    match e
    case OfStudent(i) => i < |s.students| && StudentSteps(s, i, t)
    case OfTeacher => TeacherSteps(s, t)
  }

  // ---------- invariants ----------

  function One(b: bool): nat { if b then 1 else 0 }

  /** In how many places the present request, or its answer, is: with the kernel, with the handler,
      lost, on its way back, or received. */
  function Whereabouts(x: Student, pending: bool, accepting: bool): nat {
    One(pending) + One(accepting) + One(x.merged) + One(x.ackPending) + One(x.confirmed)
  }

  predicate Idle(x: Student, pending: bool, accepting: bool) {
    !pending && !accepting && !x.merged && !x.ackPending
  }

  /** How many steps of work a student has behind it. */
  function StepsDone(p: Pc, parts: nat, steps: nat): int {
    match p
    case Working(k, j) => (k - 1) * steps + j
    case Clearing(k) => k * steps
    case Sending(k) => k * steps
    case Waiting(k) => k * steps
    case Leaving => parts * steps
    case Exited => parts * steps
  }

  /** What a student's place in the code says about its request and its answers. */
  predicate StudentOk(x: Student, parts: nat, steps: nat, pending: bool, accepting: bool) {
    && x.issues <= StepsDone(x.pc, parts, steps)
    && match x.pc
       case Working(k, j) =>
         1 <= k <= parts && j <= steps && x.acked == k - 1 && Idle(x, pending, accepting) && !x.reaped
       case Clearing(k) =>
         1 <= k <= parts && x.acked == k - 1 && Idle(x, pending, accepting) && !x.reaped
       case Sending(k) =>
         1 <= k <= parts && x.acked == k - 1 && Idle(x, pending, accepting) && !x.confirmed && !x.reaped
       case Waiting(k) =>
         && 1 <= k <= parts && Whereabouts(x, pending, accepting) == 1
         && x.acked == k - 1 + One(x.ackPending || x.confirmed) && !x.reaped
       case Leaving => x.acked == parts && Idle(x, pending, accepting) && !x.reaped
       case Exited => x.acked == parts && Idle(x, pending, accepting)
  }

  ghost predicate Students(s: State) {
    forall i | 0 <= i < |s.students| ::
      StudentOk(s.students[i], s.parts, s.steps, s.usr1Pending == Some(i), s.accepting == Some(i))
  }

  /** No exit is forgotten: as long as one has not been reaped, the handler is to run, or to go on. */
  ghost predicate NoneForgotten(s: State) {
    (exists i :: 0 <= i < |s.students| && Zombie(s.students[i])) ==> s.chldPending || s.reaper != Off
  }

  function Unreaped(xs: seq<Student>): nat {
    if xs == [] then 0 else Unreaped(xs[1..]) + One(!xs[0].reaped)
  }

  ghost predicate Tally(s: State) {
    && |s.table| == |s.students|
    && s.left == Unreaped(s.students) + One(s.reaper.Counting?)
    && (s.reaper.Counting? || s.reaper.Storing? ==> s.reaper.i < |s.students| && s.students[s.reaper.i].reaped)
    && (forall i | 0 <= i < |s.students| && s.students[i].reaped && s.reaper != Counting(i) && s.reaper != Storing(i) ::
          s.table[i] == s.students[i].issues)
  }

  ghost predicate Places(s: State) {
    && s.parts <= 10 && s.steps <= 10
    && (s.usr1Pending.Some? ==> s.usr1Pending.value < |s.students|)
    && (s.accepting.Some? ==> s.accepting.value < |s.students|)
    && (!s.main.Suspended? || s.main == Suspended(false) ==> s.reaper == Off && s.accepting == None)
    && (s.main == Suspended(false) ==> s.left > 0)
    && (s.main == Done ==> s.left <= 0)
  }

  ghost predicate Inv(s: State) {
    Students(s) && NoneForgotten(s) && Tally(s) && Places(s)
  }

  lemma {:induction false} AllUnreaped(xs: seq<Student>)
    requires forall i | 0 <= i < |xs| :: !xs[i].reaped
    ensures Unreaped(xs) == |xs|
  {
    if xs != [] {
      AllUnreaped(xs[1..]);
    }
  }

  lemma InitInv(s: State)
    requires Init(s)
    ensures Inv(s)
  {
    AllUnreaped(s.students);
  }

  // ---------- one step ----------

  lemma {:induction false} UnreapedAt(xs: seq<Student>, i: nat, x: Student)
    requires i < |xs|
    ensures Unreaped(xs[i := x]) == Unreaped(xs) - One(!xs[i].reaped) + One(!x.reaped)
  {
    if i > 0 {
      assert xs[i := x][1..] == xs[1..][i - 1 := x];
      UnreapedAt(xs[1..], i - 1, x);
    } else {
      assert xs[0 := x][1..] == xs[1..];
    }
  }

  lemma NextPart(k: nat, steps: nat)
    ensures (k + 1 - 1) * steps + 0 == k * steps
    ensures k > 0 ==> (k - 1) * steps + steps == k * steps
  {
  }

  predicate Within(p: Pc, parts: nat, steps: nat) {
    (p.Leaving? || p.Exited? || 1 <= p.part <= parts) && (p.Working? ==> p.step <= steps)
  }

  predicate Follows(p: Pc, q: Pc, parts: nat, steps: nat) {
    match p
    case Working(k, j) => q == if j < steps then Working(k, j + 1) else Clearing(k)
    case Clearing(k) => q == Sending(k)
    case Sending(k) => q == Waiting(k)
    case Waiting(k) => q == p || q == if k < parts then Working(k + 1, 0) else Leaving
    case Leaving => q == Exited
    case Exited => false
  }

  predicate AtWork(p: Pc, steps: nat) {
    p.Working? && p.step < steps
  }

  lemma OneStepDone(p: Pc, q: Pc, parts: nat, steps: nat)
    requires Within(p, parts, steps) && Follows(p, q, parts, steps)
    ensures StepsDone(q, parts, steps) == StepsDone(p, parts, steps) + if AtWork(p, steps) then 1 else 0
  {
    match p {
      case Working(k, _) => NextPart(k, steps);
      case Waiting(k) => NextPart(k, steps);
      case _ =>
    }
  }

  /** What a step does to a student's work. */
  lemma StepAtWork(s: State, i: nat, t: State)
    requires i < |s.students| && StudentSteps(s, i, t)
    ensures |t.students| == |s.students|
    ensures var x, y := s.students[i], t.students[i];
            && Follows(x.pc, y.pc, s.parts, s.steps) && y.prob == x.prob
            && if AtWork(x.pc, s.steps)
               then y.draws != [] && y.draws[|y.draws| - 1] < 100
                    && y == Worked(x, x.pc.part, x.pc.step + 1, y.draws[|y.draws| - 1])
               else y.issues == x.issues && y.draws == x.draws
  {
  }

  /** A student's step, on the student. */
  lemma StudentAdvances(s: State, i: nat, t: State)
    requires i < |s.students| && StudentSteps(s, i, t)
    requires StudentOk(s.students[i], s.parts, s.steps, s.usr1Pending == Some(i), s.accepting == Some(i))
    ensures |t.students| == |s.students| && t.students == s.students[i := t.students[i]]
    ensures StudentOk(t.students[i], s.parts, s.steps, t.usr1Pending == Some(i), t.accepting == Some(i))
    ensures !t.students[i].reaped && !s.students[i].reaped
    ensures t.usr1Pending == s.usr1Pending || (s.usr1Pending == None && t.usr1Pending == Some(i))
    ensures t == s.(students := t.students, usr1Pending := t.usr1Pending, chldPending := t.chldPending)
    ensures Zombie(t.students[i]) || s.chldPending ==> t.chldPending
  {
    hide StepsDone;
    StepAtWork(s, i, t);
    OneStepDone(s.students[i].pc, t.students[i].pc, s.parts, s.steps);
  }

  lemma StudentKeepsInv(s: State, i: nat, t: State)
    requires Inv(s) && i < |s.students| && StudentSteps(s, i, t)
    ensures Inv(t)
  {
    hide StudentSteps, StudentOk;
    StudentAdvances(s, i, t);
    UnreapedAt(s.students, i, t.students[i]);
    forall j | 0 <= j < |t.students|
      ensures StudentOk(t.students[j], t.parts, t.steps, t.usr1Pending == Some(j), t.accepting == Some(j))
    {
      assert StudentOk(s.students[j], s.parts, s.steps, s.usr1Pending == Some(j), s.accepting == Some(j));
    }
  }

  /** An acceptance only ever goes to a student that is alive and waiting for it. */
  lemma AcceptanceFindsStudent(s: State, t: State)
    requires Inv(s) && AccepterSteps(s, t)
    ensures s.students[s.accepting.value].pc.Waiting? && !s.students[s.accepting.value].confirmed
    ensures Students(t)
  {
    var i := s.accepting.value;
    assert StudentOk(s.students[i], s.parts, s.steps, s.usr1Pending == Some(i), s.accepting == Some(i));
    forall j | 0 <= j < |t.students| && j != i
      ensures StudentOk(t.students[j], t.parts, t.steps, t.usr1Pending == Some(j), t.accepting == Some(j))
    {
      assert StudentOk(s.students[j], s.parts, s.steps, s.usr1Pending == Some(j), s.accepting == Some(j));
    }
  }

  lemma AccepterKeepsInv(s: State, t: State)
    requires Inv(s) && s.main.Suspended? && AccepterSteps(s, t)
    ensures Inv(t)
  {
    hide StudentOk;
    AcceptanceFindsStudent(s, t);
    UnreapedAt(s.students, s.accepting.value, t.students[s.accepting.value]);
  }

  lemma ReaperKeepsInv(s: State, t: State)
    requires Inv(s) && s.main.Suspended? && ReaperSteps(s, t)
    ensures Inv(t)
  {
    match s.reaper {
      case Looping => WaitpidKeepsInv(s, t);
      case Storing(i) => StoringKeepsInv(s, t);
      case _ =>
    }
  }

  lemma WaitpidKeepsInv(s: State, t: State)
    requires Inv(s) && s.main.Suspended? && s.reaper == Looping && ReaperSteps(s, t)
    ensures Inv(t)
  {
    if t.reaper.Counting? {
      var i := t.reaper.i;
      UnreapedAt(s.students, i, t.students[i]);
      forall j | 0 <= j < |t.students|
        ensures StudentOk(t.students[j], t.parts, t.steps, t.usr1Pending == Some(j), t.accepting == Some(j))
      {
        assert StudentOk(s.students[j], s.parts, s.steps, s.usr1Pending == Some(j), s.accepting == Some(j));
      }
    }
  }

  /** At most ten parts of ten steps: the count survives the eight bits of an exit status. */
  lemma StatusIsCount(s: State, i: nat)
    requires Students(s) && Places(s) && i < |s.students| && s.students[i].reaped
    ensures s.students[i].pc == Exited && s.students[i].issues <= 100 && ExitStatus(s.students[i]) == s.students[i].issues
  {
    assert StudentOk(s.students[i], s.parts, s.steps, s.usr1Pending == Some(i), s.accepting == Some(i));
    Hundred(s.parts, s.steps, s.students[i].issues);
  }

  lemma Hundred(parts: nat, steps: nat, issues: nat)
    requires parts <= 10 && steps <= 10 && issues <= parts * steps
    ensures issues <= 100
  {
    assert parts * steps <= 10 * steps;
  }

  lemma StoringKeepsInv(s: State, t: State)
    requires Inv(s) && s.main.Suspended? && s.reaper.Storing? && ReaperSteps(s, t)
    ensures Inv(t)
  {
    hide StudentOk;
    StatusIsCount(s, s.reaper.i);
    SameStudents(s, t);
  }

  lemma SameStudents(s: State, t: State)
    requires Students(s) && t.students == s.students && t.parts == s.parts && t.steps == s.steps
    requires forall i | 0 <= i < |s.students| ::
               (t.usr1Pending == Some(i) <==> s.usr1Pending == Some(i)) && (t.accepting == Some(i) <==> s.accepting == Some(i))
    ensures Students(t)
  {
    forall i | 0 <= i < |t.students|
      ensures StudentOk(t.students[i], t.parts, t.steps, t.usr1Pending == Some(i), t.accepting == Some(i))
    {
      assert StudentOk(s.students[i], s.parts, s.steps, s.usr1Pending == Some(i), s.accepting == Some(i));
    }
  }

  /** SIGUSR1 passes from pending to being handled. */
  lemma Delivered(s: State, t: State)
    requires Students(s) && s.usr1Pending.Some? && s.accepting == None
    requires t == s.(usr1Pending := None, accepting := s.usr1Pending, main := t.main)
    ensures Students(t)
  {
    forall i | 0 <= i < |t.students|
      ensures StudentOk(t.students[i], t.parts, t.steps, t.usr1Pending == Some(i), t.accepting == Some(i))
    {
      assert StudentOk(s.students[i], s.parts, s.steps, s.usr1Pending == Some(i), s.accepting == Some(i));
    }
  }

  lemma TeacherKeepsInv(s: State, t: State)
    requires Inv(s) && TeacherSteps(s, t)
    ensures Inv(t)
  {
    hide StudentOk, ReaperSteps, AccepterSteps;
    if s.main.Suspended? && ReaperSteps(s, t) {
      ReaperKeepsInv(s, t);
    } else if s.main.Suspended? && AccepterSteps(s, t) {
      AccepterKeepsInv(s, t);
    } else if t.usr1Pending != s.usr1Pending {
      Delivered(s, t);
    } else {
      SameStudents(s, t);
    }
  }

  lemma StepKeepsInv(s: State, e: Step, t: State)
    requires Inv(s) && Takes(s, e, t)
    ensures Inv(t)
  {
    hide Inv, StudentSteps, TeacherSteps;
    match e {
      case OfStudent(i) => StudentKeepsInv(s, i, t);
      case OfTeacher => TeacherKeepsInv(s, t);
    }
  }

  // ---------- runs ----------

  ghost predicate Next(s: State, t: State) {
    exists e :: Takes(s, e, t)
  }

  ghost predicate IsRun(run: seq<State>) {
    run != [] && forall i | 0 <= i < |run| - 1 :: Next(run[i], run[i + 1])
  }

  lemma {:induction false} RunKeepsInv(run: seq<State>, i: nat)
    requires IsRun(run) && Inv(run[0]) && i < |run|
    ensures Inv(run[i])
    decreases i
  {
    hide Inv, Takes;
    if i > 0 {
      RunKeepsInv(run, i - 1);
      assert Next(run[i - 1], run[i - 1 + 1]);
      var e :| Takes(run[i - 1], e, run[i]);
      StepKeepsInv(run[i - 1], e, run[i]);
    }
  }

  /** However exits bunch together: one that has not been reaped has its SIGCHLD still to come, or
      the handler that took it still looping; and outside the handler the teacher's count is right. */
  lemma NoExitLost(run: seq<State>, i: nat, w: nat)
    requires IsRun(run) && Init(run[0]) && i < |run| && w < |run[i].students|
    ensures Zombie(run[i].students[w]) ==> run[i].chldPending || run[i].reaper != Off
    ensures run[i].reaper == Off ==> run[i].left == Unreaped(run[i].students)
  {
    hide Students, Places;
    InitInv(run[0]);
    RunKeepsInv(run, i);
  }

  lemma {:induction false} NoneUnreaped(xs: seq<Student>)
    requires Unreaped(xs) == 0
    ensures forall i | 0 <= i < |xs| :: xs[i].reaped
  {
    if xs != [] {
      NoneUnreaped(xs[1..]);
      assert forall i | 1 <= i < |xs| :: xs[i] == xs[1..][i - 1];
    }
  }

  // ---------- the draws ----------

  /** How many of the numbers drawn mean an issue. */
  function Hits(draws: seq<nat>, prob: nat): nat {
    if draws == [] then 0 else Hits(draws[..|draws| - 1], prob) + if draws[|draws| - 1] < prob then 1 else 0
  }

  ghost predicate DrawsOk(x: Student, parts: nat, steps: nat) {
    && |x.draws| == StepsDone(x.pc, parts, steps)
    && (forall k | 0 <= k < |x.draws| :: x.draws[k] < 100)
    && x.issues == Hits(x.draws, x.prob)
  }

  ghost predicate Drawn(s: State) {
    forall i | 0 <= i < |s.students| :: DrawsOk(s.students[i], s.parts, s.steps)
  }

  lemma WorkIsDrawn(s: State, i: nat, t: State)
    requires i < |s.students| && StudentSteps(s, i, t) && DrawsOk(s.students[i], s.parts, s.steps)
    requires StudentOk(s.students[i], s.parts, s.steps, s.usr1Pending == Some(i), s.accepting == Some(i))
    ensures |t.students| == |s.students| && DrawsOk(t.students[i], s.parts, s.steps)
    ensures t.students[i].prob == s.students[i].prob
  {
    hide StepsDone, StudentSteps;
    StepAtWork(s, i, t);
    OneStepDone(s.students[i].pc, t.students[i].pc, s.parts, s.steps);
    var x, y := s.students[i], t.students[i];
    if x.pc.Working? && x.pc.step < s.steps {
      assert y.draws[..|y.draws| - 1] == x.draws;
    }
  }

  lemma StepKeepsDrawn(s: State, e: Step, t: State)
    requires Inv(s) && Drawn(s) && Takes(s, e, t)
    ensures Drawn(t) && |t.students| == |s.students| && t.parts == s.parts && t.steps == s.steps
    ensures forall i | 0 <= i < |s.students| :: t.students[i].prob == s.students[i].prob
  {
    hide DrawsOk, StudentSteps, TeacherSteps, StudentOk, NoneForgotten, Tally;
    match e {
      case OfStudent(i) =>
        assert StudentOk(s.students[i], s.parts, s.steps, s.usr1Pending == Some(i), s.accepting == Some(i));
        StudentAdvances(s, i, t);
        WorkIsDrawn(s, i, t);
      case OfTeacher =>
        TeacherLeavesWork(s, t);
        forall i | 0 <= i < |t.students| ensures DrawsOk(t.students[i], t.parts, t.steps) {
          SameDraws(s.students[i], t.students[i], s.parts, s.steps);
        }
    }
  }

  lemma SameDraws(x: Student, y: Student, parts: nat, steps: nat)
    requires DrawsOk(x, parts, steps) && y.pc == x.pc && y.issues == x.issues && y.draws == x.draws && y.prob == x.prob
    ensures DrawsOk(y, parts, steps)
  {
  }

  lemma TeacherLeavesWork(s: State, t: State)
    requires TeacherSteps(s, t)
    ensures |t.students| == |s.students| && t.parts == s.parts && t.steps == s.steps
    ensures forall i | 0 <= i < |s.students| ::
              var x, y := s.students[i], t.students[i];
              y.pc == x.pc && y.issues == x.issues && y.draws == x.draws && y.prob == x.prob
  {
  }

  lemma {:induction false} RunKeepsDrawn(run: seq<State>, i: nat)
    requires IsRun(run) && Init(run[0]) && i < |run|
    ensures Drawn(run[i]) && |run[i].students| == |run[0].students|
    ensures run[i].parts == run[0].parts && run[i].steps == run[0].steps
    ensures forall w | 0 <= w < |run[i].students| :: run[i].students[w].prob == run[0].students[w].prob
    decreases i
  {
    hide Inv, Takes, Drawn, Init;
    if i > 0 {
      RunKeepsDrawn(run, i - 1);
      InitInv(run[0]);
      RunKeepsInv(run, i - 1);
      assert Next(run[i - 1], run[i - 1 + 1]);
      var e :| Takes(run[i - 1], e, run[i]);
      StepKeepsDrawn(run[i - 1], e, run[i]);
    } else {
      NothingDrawn(run[0]);
    }
  }

  lemma NothingDrawn(s: State)
    requires Init(s)
    ensures Drawn(s)
  {
  }

  /** When the teacher's loop ends every student is gone, and its row holds how many of the numbers it
      drew, one for each step of each part, were below its probability of an issue. */
  lemma FinalTable(run: seq<State>, i: nat)
    requires IsRun(run) && Init(run[0]) && i < |run| && run[i].main == Done
    ensures var s := run[i];
            && |s.table| == |s.students| == |run[0].students|
            && forall w | 0 <= w < |s.students| ::
                 var x := s.students[w];
                 && x.pc == Exited && x.acked == s.parts == run[0].parts
                 && |x.draws| == run[0].parts * run[0].steps && (forall k | 0 <= k < |x.draws| :: x.draws[k] < 100)
                 && s.table[w] == Hits(x.draws, run[0].students[w].prob)
  {
    hide StudentOk, NoneForgotten, Hits, Takes;
    InitInv(run[0]);
    RunKeepsInv(run, i);
    RunKeepsDrawn(run, i);
    var s := run[i];
    NoneUnreaped(s.students);
    forall w | 0 <= w < |s.students| ensures s.students[w].pc == Exited && s.students[w].acked == s.parts {
      StatusIsCount(s, w);
      ExitedHasAll(s, w);
    }
    forall w | 0 <= w < |s.students|
      ensures var x := s.students[w];
              && |x.draws| == s.parts * s.steps && (forall k | 0 <= k < |x.draws| :: x.draws[k] < 100)
              && s.table[w] == Hits(x.draws, x.prob)
    {
      assert DrawsOk(s.students[w], s.parts, s.steps);
    }
  }

  /** In particular, who always has issues has one in each step, and who never has them none. */
  lemma {:induction false} SureIssues(draws: seq<nat>)
    requires forall k | 0 <= k < |draws| :: draws[k] < 100
    ensures Hits(draws, 100) == |draws| && Hits(draws, 0) == 0
  {
    if draws != [] {
      SureIssues(draws[..|draws| - 1]);
    }
  }

  /** Any number below 100 may be drawn. */
  lemma AnyDraw(s: State, i: nat, r: nat)
    requires i < |s.students| && s.students[i].pc.Working? && s.students[i].pc.step < s.steps && r < 100
    ensures exists t :: StudentSteps(s, i, t) && |t.students| == |s.students| && t.students[i].draws == s.students[i].draws + [r]
  {
    var x := s.students[i];
    var t := With(s, i, Worked(x, x.pc.part, x.pc.step + 1, r));
    assert t.students[i].draws == x.draws + [r];
    assert StudentSteps(s, i, t);
  }

  lemma ExitedHasAll(s: State, w: nat)
    requires Inv(s) && w < |s.students| && s.students[w].pc == Exited
    ensures s.students[w].acked == s.parts
  {
    assert StudentOk(s.students[w], s.parts, s.steps, s.usr1Pending == Some(w), s.accepting == Some(w));
  }

  /** The search in sigchld_handler: the row of the student whose process it was, and no other. */
  method StoreStatus(students: array<int>, issues: array<int>, pid: int, status: int)
    requires students != issues && students.Length == issues.Length
    requires forall i, j | 0 <= i < j < students.Length :: students[i] != students[j]
    modifies issues
    ensures forall i | 0 <= i < issues.Length :: issues[i] == if students[i] == pid then status else old(issues[i])
  {
    var i := 0;
    while i < students.Length
      invariant i <= students.Length && forall j | 0 <= j < i :: students[j] != pid
      invariant issues[..] == old(issues[..])
    {
      if students[i] == pid {
        issues[i] := status;
        break;
      }
      i := i + 1;
    }
  }

  /** The teacher's globals, and the children that are gone and not been waited for, with their exit
      statuses; one that a signal killed has none. */
  class Class {
    const students: array<int>
    const issues: array<int>
    var left: int
    var zombies: map<int, Option<int>>

    constructor (pids: seq<int>)
      requires forall i, j | 0 <= i < j < |pids| :: pids[i] != pids[j]
      ensures Valid() && students[..] == pids && left == |pids| && zombies == map[] && fresh(issues)
    {
      students := new int[|pids|](i requires 0 <= i < |pids| => pids[i]);
      issues := new int[|pids|](_ => 0);
      left, zombies := |pids|, map[];
    }

    ghost predicate Valid()
      reads this, students
    {
      && students != issues && students.Length == issues.Length
      && forall i, j | 0 <= i < j < students.Length :: students[i] != students[j]
    }

    /** waitpid without blocking. */
    method Waitpid() returns (pid: Option<int>, status: Option<int>)
      modifies this`zombies
      ensures match pid
              case None => old(zombies) == map[] == zombies
              case Some(c) => c in old(zombies) && status == old(zombies)[c] && zombies == old(zombies) - {c}
                              && |zombies| == |old(zombies)| - 1
    {
      if c :| c in zombies {
        assert (zombies - {c}).Keys == zombies.Keys - {c};
        status := zombies[c];
        zombies := zombies - {c};
        return Some(c), status;
      }
      assert forall c :: c !in zombies.Keys;
      assert zombies.Keys == {};
      return None, None;
    }

    /** sigchld_handler: however many exits the one signal stands for, all are reaped and counted, and
        the statuses there are, stored in their own rows. */
    method SigchldHandler()
      requires Valid()
      modifies this`left, this`zombies, issues
      ensures Valid() && zombies == map[] && left == old(left) - |old(zombies)|
      ensures forall i | 0 <= i < issues.Length ::
                issues[i] == if students[i] in old(zombies) && old(zombies)[students[i]].Some?
                             then old(zombies)[students[i]].value else old(issues[i])
    {
      while true
        invariant Valid() && zombies.Keys <= old(zombies).Keys
        invariant forall c | c in zombies :: zombies[c] == old(zombies)[c]
        invariant left == old(left) - (|old(zombies)| - |zombies|)
        invariant forall i | 0 <= i < issues.Length ::
                    issues[i] == if students[i] in old(zombies) && students[i] !in zombies
                                    && old(zombies)[students[i]].Some?
                                 then old(zombies)[students[i]].value else old(issues[i])
        decreases |zombies|
      {
        var pid, status := Waitpid();
        if pid == None {
          break;
        }
        left := left - 1;
        if status.Some? {
          StoreStatus(students, issues, pid.value, status.value);
        }
      }
    }
  }

  // ---------- the handshake ----------

  function Part(p: Pc): nat {
    match p
    case Working(k, _) => k
    case Clearing(k) => k
    case Sending(k) => k
    case Waiting(k) => k
    case _ => 0
  }

  /** A student has at most one request, or answer to one, on its way, and none while it works; it
      is at its part k only once the teacher has sent it k - 1 acceptances, one for each part
      before, and finds itself accepted only by an acceptance of this very part. */
  lemma Handshake(run: seq<State>, i: nat, w: nat)
    requires IsRun(run) && Init(run[0]) && i < |run| && w < |run[i].students|
    ensures var s := run[i]; var x := s.students[w]; var k := Part(x.pc);
            && (x.pc.Working? || x.pc.Clearing? || x.pc.Sending? ==>
                  x.acked == k - 1 && Idle(x, s.usr1Pending == Some(w), s.accepting == Some(w)))
            && (x.pc.Waiting? ==> Whereabouts(x, s.usr1Pending == Some(w), s.accepting == Some(w)) == 1)
            && (x.pc.Waiting? ==> x.acked == (if x.confirmed || x.ackPending then k else k - 1))
            && (x.pc.Leaving? || x.pc.Exited? ==> x.acked == s.parts)
  {
    InitInv(run[0]);
    RunKeepsInv(run, i);
    var s := run[i];
    assert StudentOk(s.students[w], s.parts, s.steps, s.usr1Pending == Some(w), s.accepting == Some(w));
  }

  /** Not every request is answered: one that is sent while another is pending is merged into it,
      and its student then waits for good, and with it the teacher. */
  lemma {:induction false} MergedRequestHangs(run: seq<State>, i: nat, j: nat, w: nat)
    requires IsRun(run) && Inv(run[0]) && i <= j < |run|
    requires w < |run[i].students| && run[i].students[w].merged
    ensures Inv(run[j]) && w < |run[j].students| && run[j].students[w] == run[i].students[w]
    ensures run[j].main != Done
    decreases j
  {
    hide Inv, Takes;
    RunKeepsInv(run, j);
    if i < j {
      MergedRequestHangs(run, i, j - 1, w);
      assert Next(run[j - 1], run[j - 1 + 1]);
      var e :| Takes(run[j - 1], e, run[j]);
      MergedStep(run[j - 1], e, run[j], w);
    }
    MergedIsNotReaped(run[j], w);
  }

  lemma MergedStep(s: State, e: Step, t: State, w: nat)
    requires Inv(s) && Takes(s, e, t) && w < |s.students| && s.students[w].merged
    ensures w < |t.students| && t.students[w] == s.students[w]
  {
    hide NoneForgotten, Tally, StudentOk, StudentSteps, TeacherSteps;
    match e {
      case OfStudent(i) =>
        MergedCannotStep(s, w);
        assert StudentOk(s.students[i], s.parts, s.steps, s.usr1Pending == Some(i), s.accepting == Some(i));
        StudentAdvances(s, i, t);
      case OfTeacher => TeacherPassesOver(s, t, w);
    }
  }

  lemma MergedCannotStep(s: State, w: nat)
    requires Students(s) && w < |s.students| && s.students[w].merged
    ensures forall t :: !StudentSteps(s, w, t)
    ensures s.accepting != Some(w) && !Zombie(s.students[w])
  {
    assert StudentOk(s.students[w], s.parts, s.steps, s.usr1Pending == Some(w), s.accepting == Some(w));
  }

  lemma TeacherPassesOver(s: State, t: State, w: nat)
    requires Students(s) && TeacherSteps(s, t) && w < |s.students| && s.students[w].merged
    ensures w < |t.students| && t.students[w] == s.students[w]
  {
    hide StudentOk, StudentSteps;
    MergedCannotStep(s, w);
  }

  lemma MergedIsNotReaped(s: State, w: nat)
    requires Inv(s) && w < |s.students| && s.students[w].merged
    ensures s.main != Done
  {
    assert StudentOk(s.students[w], s.parts, s.steps, s.usr1Pending == Some(w), s.accepting == Some(w));
    if Unreaped(s.students) == 0 {
      NoneUnreaped(s.students);
    }
  }

  /** A request is merged exactly when it is sent while another student's is pending. */
  lemma MergedIff(s: State, w: nat, t: State)
    requires Inv(s) && w < |s.students| && s.students[w].pc.Sending? && StudentSteps(s, w, t)
    ensures |t.students| == |s.students| && (t.students[w].merged <==> s.usr1Pending.Some?)
    ensures s.usr1Pending != Some(w)
  {
    assert StudentOk(s.students[w], s.parts, s.steps, s.usr1Pending == Some(w), s.accepting == Some(w));
  }
}
