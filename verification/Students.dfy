/** Students moving through the years of a course while the main thread cancels some of them. One
    mutex, deferred cancellation, a cleanup handler. A state machine over the threads' steps. */
module Students {

  datatype Owner = Free | ByStudent(i: nat) | ByMain

  /** Where a student's thread is. `Sleeping` and `Checkpoint` are the cancellation points; the moves,
      and what comes before and after them, are none. */
  datatype Pc =
    | Fresh
    | ToRegister
    | Registering1         // mutex held: about to set the state
    | Registering2         // held: about to enter the first year
    | Registered           // held: about to unlock
    | Sleeping(k: nat)
    | Checkpoint(k: nat)
    | ToMove(k: nat)
    | Move1(k: nat)        // held: about to leave year k
    | Move2(k: nat)        // held: about to enter year k + 1
    | Move3(k: nat)        // held: about to set current
    | Move4(k: nat)        // held: about to unlock
    | ToFinish
    | Finish1              // held: about to set the state
    | Finish2              // held: about to unlock
    | Finished
    | ToClean
    | Clean1               // held: about to leave the current year
    | Clean2               // held: about to set the state
    | Clean3               // held: about to unlock
    | Ended

  /** A student's thread, its `current` field, its entry of the shared state array, and whether a
      cancellation has been requested. */
  datatype Student = Student(pc: Pc, current: int, state: int, cancelled: bool)

  datatype Main =
    | Choosing
    | Picked(i: nat)       // about to lock
    | Reading(i: nat)      // held
    | Decided(i: nat, state: int)
    | Joining(i: nat)
    | Printing             // held
    | Printed(year: seq<int>)

  datatype State = State(students: seq<Student>, year: seq<int>, mutex: Owner, main: Main)

  ghost predicate Init(s: State) {
    && (forall i | 0 <= i < |s.students| :: s.students[i] == Student(Fresh, -1, 0, false))
    && s.year == [0, 0, 0, 0] && s.mutex == Free && s.main == Choosing
  }

  // ---------- steps ----------

  predicate Held(p: Pc) {
    || p.Registering1? || p.Registering2? || p.Registered?
    || p.Move1? || p.Move2? || p.Move3? || p.Move4? || p.Finish1? || p.Finish2?
    || p.Clean1? || p.Clean2? || p.Clean3?
  }

  function Go(s: State, i: nat, p: Pc): State
    requires i < |s.students|
  {
    s.(students := s.students[i := s.students[i].(pc := p)])
  }

  function Lock(s: State, i: nat, p: Pc): State
    requires i < |s.students|
  {
    Go(s, i, p).(mutex := ByStudent(i))
  }

  function Unlock(s: State, i: nat, p: Pc): State
    requires i < |s.students|
  {
    Go(s, i, p).(mutex := Free)
  }

  function Mark(s: State, i: nat, p: Pc, state: int): State
    requires i < |s.students|
  {
    s.(students := s.students[i := s.students[i].(pc := p, state := state)])
  }

  function SetCurrent(s: State, i: nat, p: Pc, current: int): State
    requires i < |s.students|
  {
    s.(students := s.students[i := s.students[i].(pc := p, current := current)])
  }

  function Count(s: State, k: nat, d: int): State
    requires k < |s.year|
  {
    s.(year := s.year[k := s.year[k] + d])
  }

  ghost predicate Sane(s: State) {
    && |s.year| == 4
    && forall i | 0 <= i < |s.students| :: StudentOk(s.students[i])
  }

  /** What a student's place in the code says about its fields. */
  predicate StudentOk(x: Student) {
    match x.pc
    case Fresh => x.current == -1 && x.state == 0
    case ToRegister => x.current == 0 && x.state == 0
    case Registering1 => x.current == 0 && x.state == 0
    case Registering2 => x.current == 0 && x.state == 0
    case Registered => x.current == 0 && x.state == 0
    case Sleeping(k) => k < 3 && x.current == k && x.state == 0
    case Checkpoint(k) => k < 3 && x.current == k && x.state == 0
    case ToMove(k) => k < 3 && x.current == k && x.state == 0
    case Move1(k) => k < 3 && x.current == k && x.state == 0
    case Move2(k) => k < 3 && x.current == k && x.state == 0
    case Move3(k) => k < 3 && x.current == k && x.state == 0
    case Move4(k) => k < 3 && x.current == k + 1 && x.state == 0
    case ToFinish => x.current == 3 && x.state == 0
    case Finish1 => x.current == 3 && x.state == 0
    case Finish2 => x.current == 3 && x.state == 1
    case Finished => x.current == 3 && x.state == 1
    case ToClean => 0 <= x.current < 3 && x.state == 0
    case Clean1 => 0 <= x.current < 3 && x.state == 0
    case Clean2 => 0 <= x.current < 3 && x.state == 0
    case Clean3 => 0 <= x.current < 3 && x.state == 2
    case Ended => 0 <= x.current < 3 && x.state == 2
  }

  predicate StudentSteps(s: State, i: nat, t: State)
    requires i < |s.students| && |s.year| == 4
  {
    var x := s.students[i];
    match x.pc
    case Fresh => t == SetCurrent(s, i, ToRegister, 0)
    case ToRegister => s.mutex == Free && t == Lock(s, i, Registering1)
    case Registering1 => t == Mark(s, i, Registering2, 0)
    case Registering2 => 0 <= x.current < 4 && t == Count(Go(s, i, Registered), x.current, 1)
    case Registered => t == Unlock(s, i, Sleeping(0))
    case Sleeping(k) => t == Go(s, i, Checkpoint(k))
    case Checkpoint(k) => !x.cancelled && t == Go(s, i, ToMove(k))
    case ToMove(k) => s.mutex == Free && t == Lock(s, i, Move1(k))
    case Move1(k) => k < 3 && t == Count(Go(s, i, Move2(k)), k, -1)
    case Move2(k) => k < 3 && t == Count(Go(s, i, Move3(k)), k + 1, 1)
    case Move3(k) => t == SetCurrent(s, i, Move4(k), k + 1)
    case Move4(k) => t == Unlock(s, i, if k < 2 then Sleeping(k + 1) else ToFinish)
    case ToFinish => s.mutex == Free && t == Lock(s, i, Finish1)
    case Finish1 => t == Mark(s, i, Finish2, 1)
    case Finish2 => t == Unlock(s, i, Finished)
    case Finished => false
    case ToClean => s.mutex == Free && t == Lock(s, i, Clean1)
    case Clean1 => t == if 0 <= x.current < 4 then Count(Go(s, i, Clean2), x.current, -1) else Go(s, i, Clean2)
    case Clean2 => t == Mark(s, i, Clean3, 2)
    case Clean3 => t == Unlock(s, i, Ended)
    case Ended => false
  }

  /** A requested cancellation acts in the sleep or at pthread_testcancel, and nowhere else. */
  predicate CancelActs(s: State, i: nat, t: State)
    requires i < |s.students|
  {
    var x := s.students[i];
    x.cancelled && (x.pc.Sleeping? || x.pc.Checkpoint?) && t == Go(s, i, ToClean)
  }

  predicate MainSteps(s: State, t: State) {
    match s.main
    case Choosing =>
      || (t.main.Picked? && t.main.i < |s.students| && t == s.(main := Picked(t.main.i)))
      || t == s.(main := Joining(0))
    case Picked(i) => s.mutex == Free && t == s.(main := Reading(i), mutex := ByMain)
    case Reading(i) => i < |s.students| && t == s.(main := Decided(i, s.students[i].state), mutex := Free)
    case Decided(i, state) =>
      if state == 0 && i < |s.students|
      then t == s.(main := Choosing, students := s.students[i := s.students[i].(cancelled := true)])
      else t == s.(main := Choosing)
    case Joining(i) =>
      if i < |s.students| then (s.students[i].pc.Finished? || s.students[i].pc.Ended?) && t == s.(main := Joining(i + 1))
      else s.mutex == Free && t == s.(main := Printing, mutex := ByMain)
    case Printing => t == s.(main := Printed(s.year), mutex := Free)
    case Printed(_) => false
  }

  datatype Step = OfStudent(i: nat) | Cancel(i: nat) | OfMain

  ghost predicate Takes(s: State, e: Step, t: State)
    requires |s.year| == 4
  {
    match e
    case OfStudent(i) => i < |s.students| && StudentSteps(s, i, t)
    case Cancel(i) => i < |s.students| && CancelActs(s, i, t)
    case OfMain => MainSteps(s, t)
  }

  // ---------- invariants ----------

  /** The year a student is being counted in. */
  function CountedIn(x: Student): int {
    match x.pc
    case Fresh => -1
    case ToRegister => -1
    case Registering1 => -1
    case Registering2 => -1
    case Move2(_) => -1
    case Move3(k) => k + 1
    case Clean2 => -1
    case Clean3 => -1
    case Ended => -1
    case _ => x.current
  }

  function HowMany(xs: seq<Student>, k: int): nat {
    if xs == [] then 0 else HowMany(xs[1..], k) + if CountedIn(xs[0]) == k then 1 else 0
  }

  ghost predicate YearsAgree(year: seq<int>, xs: seq<Student>) {
    |year| == 4 && forall k | 0 <= k < 4 :: year[k] == HowMany(xs, k)
  }

  ghost predicate MutexOwner(o: Owner, xs: seq<Student>, main: Main) {
    && (o.ByStudent? ==> o.i < |xs|)
    && (forall i | 0 <= i < |xs| :: Held(xs[i].pc) <==> o == ByStudent(i))
    && (main.Reading? || main == Printing <==> o == ByMain)
  }

  predicate Over(p: Pc) { p.Finished? || p.Ended? }

  ghost predicate JoinedAreOver(xs: seq<Student>, main: Main) {
    && (main.Joining? ==> main.i <= |xs| && forall i | 0 <= i < main.i :: Over(xs[i].pc))
    && (main.Printing? || main.Printed? ==> forall i | 0 <= i < |xs| :: Over(xs[i].pc))
  }

  ghost predicate Inv(s: State) {
    && Sane(s) && MutexOwner(s.mutex, s.students, s.main)
    && YearsAgree(s.year, s.students) && JoinedAreOver(s.students, s.main)
    && (s.main.Printed? ==> s.main.year == s.year)
    && (s.main.Picked? || s.main.Reading? ==> s.main.i < |s.students|)
  }

  lemma InitInv(s: State)
    requires Init(s)
    ensures Inv(s)
  {
    NobodyCounted(s.students);
  }

  lemma {:induction false} NobodyCounted(xs: seq<Student>)
    requires forall i | 0 <= i < |xs| :: CountedIn(xs[i]) == -1
    ensures forall k | 0 <= k < 4 :: HowMany(xs, k) == 0
  {
    if xs != [] {
      NobodyCounted(xs[1..]);
    }
  }

  // ---------- one step ----------

  lemma {:induction false} HowManyAt(xs: seq<Student>, i: nat, x: Student, k: int)
    requires i < |xs|
    ensures HowMany(xs[i := x], k) ==
            HowMany(xs, k) - (if CountedIn(xs[i]) == k then 1 else 0) + (if CountedIn(x) == k then 1 else 0)
  {
    if i > 0 {
      assert xs[i := x][1..] == xs[1..][i - 1 := x];
      HowManyAt(xs[1..], i - 1, x, k);
    } else {
      assert xs[0 := x][1..] == xs[1..];
    }
  }

  predicate Agreed(o: Owner, o': Owner, i: nat, p: Pc, q: Pc) {
    if Held(p) == Held(q) then o' == o
    else if Held(q) then o == Free && o' == ByStudent(i) else o' == Free
  }

  lemma MutexFollows(s: State, i: nat, t: State)
    requires Sane(s) && i < |s.students| && (StudentSteps(s, i, t) || CancelActs(s, i, t))
    ensures |t.students| == |s.students|
    ensures Agreed(s.mutex, t.mutex, i, s.students[i].pc, t.students[i].pc)
  {
    hide StudentOk;
  }

  /** A student's step changes its own record, takes or gives back the mutex with its place in the
      code, and changes the years just as it changes where the student is counted. */
  lemma OneStudentMoves(s: State, i: nat, t: State)
    requires Sane(s) && i < |s.students| && (StudentSteps(s, i, t) || CancelActs(s, i, t))
    ensures |t.students| == |s.students| && t.students == s.students[i := t.students[i]]
    ensures StudentOk(t.students[i]) && t.main == s.main && |t.year| == 4
    ensures !Over(s.students[i].pc)
  {
    assert StudentOk(s.students[i]);
  }

  lemma YearsFollow(s: State, i: nat, t: State)
    requires Sane(s) && i < |s.students| && (StudentSteps(s, i, t) || CancelActs(s, i, t))
    ensures |t.students| == |s.students| && |t.year| == 4
    ensures forall k | 0 <= k < 4 ::
              t.year[k] == s.year[k] - (if CountedIn(s.students[i]) == k then 1 else 0)
                                     + (if CountedIn(t.students[i]) == k then 1 else 0)
  {
    assert StudentOk(s.students[i]);
  }

  lemma StudentKeepsInv(s: State, i: nat, t: State)
    requires Inv(s) && i < |s.students| && (StudentSteps(s, i, t) || CancelActs(s, i, t))
    ensures Inv(t)
  {
    hide StudentSteps, CancelActs, MutexOwner, StudentOk, Agreed, CountedIn;
    OneStudentMoves(s, i, t);
    MutexFollows(s, i, t);
    YearsFollow(s, i, t);
    OwnerFollows(s.mutex, s.students, s.main, i, t.students[i], t.mutex);
    forall k | 0 <= k < 4 ensures t.year[k] == HowMany(t.students, k) {
      HowManyAt(s.students, i, t.students[i], k);
    }
  }

  lemma OwnerFollows(o: Owner, xs: seq<Student>, main: Main, i: nat, x: Student, o': Owner)
    requires MutexOwner(o, xs, main) && i < |xs| && Agreed(o, o', i, xs[i].pc, x.pc)
    ensures MutexOwner(o', xs[i := x], main)
  {
    assert Held(xs[i].pc) <==> o == ByStudent(i);
  }

  lemma MainKeepsInv(s: State, t: State)
    requires Inv(s) && MainSteps(s, t)
    ensures Inv(t)
  {
    hide YearsAgree, StudentOk;
    if s.main.Decided? && s.main.state == 0 && s.main.i < |s.students| {
      var i := s.main.i;
      var x := s.students[i].(cancelled := true);
      SameFields(s.students[i], x);
      forall k | 0 <= k < 4 ensures HowMany(s.students[i := x], k) == HowMany(s.students, k) {
        HowManyAt(s.students, i, x, k);
      }
      SameYears(s.year, s.students, t.students);
      assert forall j | 0 <= j < |t.students| :: t.students[j].pc == s.students[j].pc;
    }
  }

  lemma SameFields(x: Student, y: Student)
    requires y == x.(cancelled := true)
    ensures StudentOk(x) == StudentOk(y) && CountedIn(x) == CountedIn(y)
  {
  }

  lemma SameYears(year: seq<int>, xs: seq<Student>, ys: seq<Student>)
    requires YearsAgree(year, xs) && forall k | 0 <= k < 4 :: HowMany(ys, k) == HowMany(xs, k)
    ensures YearsAgree(year, ys)
  {
  }

  lemma StepKeepsInv(s: State, e: Step, t: State)
    requires Inv(s) && Takes(s, e, t)
    ensures Inv(t)
  {
    hide StudentSteps, CancelActs, MainSteps, Inv;
    match e {
      case OfStudent(i) => StudentKeepsInv(s, i, t);
      case Cancel(i) => StudentKeepsInv(s, i, t);
      case OfMain => MainKeepsInv(s, t);
    }
  }

  // ---------- runs ----------

  ghost predicate Next(s: State, t: State) {
    |s.year| == 4 && exists e :: Takes(s, e, t)
  }

  ghost predicate IsRun(run: seq<State>) {
    run != [] && forall i | 0 <= i < |run| - 1 :: Next(run[i], run[i + 1])
  }

  lemma {:induction false} RunKeepsInv(run: seq<State>, i: nat)
    requires IsRun(run) && Inv(run[0]) && i < |run|
    ensures Inv(run[i])
    decreases i
  {
    hide Inv, Takes;
    if i > 0 {
      RunKeepsInv(run, i - 1);
      assert Next(run[i - 1], run[i - 1 + 1]);
      var e :| Takes(run[i - 1], e, run[i]);
      StepKeepsInv(run[i - 1], e, run[i]);
    }
  }

  /** Registered and not cleaned up. */
  predicate Here(x: Student) {
    !(x.pc.Fresh? || x.pc.ToRegister? || x.pc.Ended?)
  }

  function HereIn(xs: seq<Student>, k: int): nat {
    if xs == [] then 0 else HereIn(xs[1..], k) + if Here(xs[0]) && xs[0].current == k then 1 else 0
  }

  lemma {:induction false} CountedIsHere(xs: seq<Student>, k: nat)
    requires forall i | 0 <= i < |xs| :: StudentOk(xs[i]) && !Held(xs[i].pc)
    ensures HowMany(xs, k) == HereIn(xs, k)
  {
    if xs != [] {
      assert StudentOk(xs[0]);
      CountedIsHere(xs[1..], k);
    }
  }

  /** Whenever the mutex is free, each year's number is the number of students who have registered,
      have not been cleaned up, and whose current year it is: in every interleaving of moves and
      cancellations. */
  lemma YearsAreRight(run: seq<State>, i: nat, k: nat)
    requires IsRun(run) && Init(run[0]) && i < |run| && run[i].mutex == Free && k < 4
    ensures |run[i].year| == 4 && run[i].year[k] == HereIn(run[i].students, k)
  {
    InitInv(run[0]);
    RunKeepsInv(run, i);
    CountedIsHere(run[i].students, k);
  }

  function Dropped(xs: seq<Student>): nat {
    if xs == [] then 0 else Dropped(xs[1..]) + if xs[0].state == 2 then 1 else 0
  }

  lemma {:induction false} OverCounts(xs: seq<Student>)
    requires forall i | 0 <= i < |xs| :: StudentOk(xs[i]) && Over(xs[i].pc)
    ensures HowMany(xs, 0) == HowMany(xs, 1) == HowMany(xs, 2) == 0
    ensures HowMany(xs, 3) + Dropped(xs) == |xs|
  {
    if xs != [] {
      assert StudentOk(xs[0]) && Over(xs[0].pc);
      OverCounts(xs[1..]);
    }
  }

  // ---------- who is dropped ----------

  predicate CleaningUp(p: Pc) { p.ToClean? || p.Clean1? || p.Clean2? || p.Clean3? || p.Ended? }

  /** A sleep or a pthread_testcancel is still to come, or under way. */
  predicate InTime(p: Pc) {
    match p
    case ToMove(k) => k < 2
    case Move1(k) => k < 2
    case Move2(k) => k < 2
    case Move3(k) => k < 2
    case Move4(k) => k < 2
    case ToFinish => false
    case Finish1 => false
    case Finish2 => false
    case Finished => false
    case _ => !CleaningUp(p)
  }

  /** A cancellation has been requested in time. */
  predicate Doomed(x: Student) {
    x.cancelled && (InTime(x.pc) || CleaningUp(x.pc))
  }

  lemma OwnStep(s: State, i: nat, t: State)
    requires Sane(s) && i < |s.students| && (StudentSteps(s, i, t) || CancelActs(s, i, t))
    ensures |t.students| == |s.students| && t.students == s.students[i := t.students[i]]
    ensures Doomed(s.students[i]) ==> Doomed(t.students[i])
    ensures CleaningUp(t.students[i].pc) && !CleaningUp(s.students[i].pc) ==> s.students[i].cancelled && InTime(s.students[i].pc)
  {
    assert StudentOk(s.students[i]);
  }

  lemma StepOf(s: State, e: Step, t: State, j: nat)
    requires Sane(s) && Takes(s, e, t) && j < |s.students|
    ensures |t.students| == |s.students|
    ensures Doomed(s.students[j]) ==> Doomed(t.students[j])
    ensures CleaningUp(t.students[j].pc) && !CleaningUp(s.students[j].pc) ==> s.students[j].cancelled && InTime(s.students[j].pc)
  {
    hide StudentSteps, CancelActs, StudentOk;
    match e {
      case OfStudent(i) => OwnStep(s, i, t);
      case Cancel(i) => OwnStep(s, i, t);
      case OfMain =>
    }
  }

  ghost predicate CancelledInTime(run: seq<State>, i: nat, j: nat)
    requires i < |run|
  {
    exists h | 0 <= h <= i :: j < |run[h].students| && run[h].students[j].cancelled && InTime(run[h].students[j].pc)
  }

  lemma StepInRun(run: seq<State>, i: nat, j: nat)
    requires IsRun(run) && Init(run[0]) && 0 < i < |run| && j < |run[0].students|
    ensures |run[i].students| == |run[i - 1].students|
    ensures j < |run[i].students| ==>
              var x, y := run[i - 1].students[j], run[i].students[j];
              && (Doomed(x) ==> Doomed(y))
              && (CleaningUp(y.pc) && !CleaningUp(x.pc) ==> x.cancelled && InTime(x.pc))
  {
    hide Inv, Takes, Doomed;
    InitInv(run[0]);
    RunKeepsInv(run, i - 1);
    InvIsSane(run[i - 1]);
    assert Next(run[i - 1], run[i - 1 + 1]);
    var e :| Takes(run[i - 1], e, run[i]);
    if j < |run[i - 1].students| {
      StepOf(run[i - 1], e, run[i], j);
    } else {
      SameClass(run[i - 1], e, run[i]);
    }
  }

  lemma SameClass(s: State, e: Step, t: State)
    requires Sane(s) && Takes(s, e, t)
    ensures |t.students| == |s.students|
  {
  }

  /** Once doomed, always doomed; and nobody cleans up who was not. */
  lemma {:induction false} FateOf(run: seq<State>, i: nat, j: nat)
    requires IsRun(run) && Init(run[0]) && i < |run| && j < |run[0].students|
    ensures |run[i].students| == |run[0].students|
    ensures CancelledInTime(run, i, j) ==> Doomed(run[i].students[j])
    ensures CleaningUp(run[i].students[j].pc) ==> CancelledInTime(run, i, j)
    decreases i
  {
    hide Init, Doomed, CleaningUp, InTime;
    if i > 0 {
      FateOf(run, i - 1, j);
      StepInRun(run, i, j);
      InTimeIsDoomed(run[i].students[j]);
    } else {
      FreshIsClean(run, j);
    }
  }

  lemma InTimeIsDoomed(x: Student)
    ensures x.cancelled && InTime(x.pc) ==> Doomed(x)
  {
  }

  lemma FreshIsClean(run: seq<State>, j: nat)
    requires IsRun(run) && Init(run[0]) && j < |run[0].students|
    ensures !CleaningUp(run[0].students[j].pc) && !CancelledInTime(run, 0, j)
  {
  }

  /** What main prints once every student has been joined: nobody is left in years one to three. A
      student has been dropped if and only if its cancellation was requested while a sleep or a
      test for cancellation was still to come; all others have graduated. */
  lemma FinalCount(run: seq<State>, i: nat)
    requires IsRun(run) && Init(run[0]) && i < |run| && run[i].main.Printed?
    ensures var s, year := run[i], run[i].main.year;
            && |year| == 4 && year[0] == year[1] == year[2] == 0
            && |s.students| == |run[0].students| && year[3] + Dropped(s.students) == |s.students|
            && forall j | 0 <= j < |s.students| :: s.students[j].state == if CancelledInTime(run, i, j) then 2 else 1
  {
    hide Takes, Next, Doomed, CancelledInTime, MutexOwner;
    InitInv(run[0]);
    RunKeepsInv(run, i);
    OverCounts(run[i].students);
    StillAll(run, i);
    forall j | 0 <= j < |run[i].students|
      ensures run[i].students[j].state == if CancelledInTime(run, i, j) then 2 else 1
    {
      FateOf(run, i, j);
      assert StudentOk(run[i].students[j]);
      DoomedIsEnded(run[i].students[j]);
    }
  }

  lemma DoomedIsEnded(x: Student)
    requires StudentOk(x) && Over(x.pc)
    ensures Doomed(x) ==> x.state == 2
    ensures x.state == (if CleaningUp(x.pc) then 2 else 1)
  {
  }

  lemma {:induction false} StillAll(run: seq<State>, i: nat)
    requires IsRun(run) && Init(run[0]) && i < |run|
    ensures |run[i].students| == |run[0].students|
    decreases i
  {
    hide Inv, Takes;
    if i > 0 {
      StillAll(run, i - 1);
      InitInv(run[0]);
      RunKeepsInv(run, i - 1);
      InvIsSane(run[i - 1]);
      assert Next(run[i - 1], run[i - 1 + 1]);
      var e :| Takes(run[i - 1], e, run[i]);
      SameClass(run[i - 1], e, run[i]);
    }
  }

  /** A cancellation that acts leaves the student counted in the year it sleeps in, and the cleanup
      then takes it out of that year. */
  lemma CountedOut(s: State, i: nat, t: State)
    requires Sane(s) && i < |s.students|
    ensures CancelActs(s, i, t) ==>
              var k := s.students[i].current;
              && (s.students[i].pc == Sleeping(k) || s.students[i].pc == Checkpoint(k)) && t.year == s.year
              && |t.students| == |s.students| && t.students[i].pc == ToClean && t.students[i].current == k
    ensures s.students[i].pc == Clean1 && StudentSteps(s, i, t) ==>
              var k := s.students[i].current;
              0 <= k < 3 && t.year == s.year[k := s.year[k] - 1]
  {
    assert StudentOk(s.students[i]);
  }

  lemma InvIsSane(s: State)
    requires Inv(s)
    ensures Sane(s)
  {
  }

  // ---------- requests, and progress ----------

  /** Main requests a cancellation exactly when it has read that the student it picked is still
      studying, and anyone can be picked. */
  lemma RequestIff(s: State, t: State, i: nat)
    requires Sane(s) && MainSteps(s, t) && i < |s.students|
    ensures |t.students| == |s.students|
    ensures t.students[i].cancelled <==> s.students[i].cancelled || s.main == Decided(i, 0)
    ensures s.main == Reading(i) ==> t.main == Decided(i, s.students[i].state)
  {
  }

  lemma AnyoneCanBePicked(s: State, i: nat)
    requires s.main == Choosing && i < |s.students|
    ensures exists t :: MainSteps(s, t) && t.main == Picked(i)
  {
    var t := s.(main := Picked(i));
    assert MainSteps(s, t);
  }

  function AfterStudent(s: State, i: nat): State
    requires i < |s.students| && |s.year| == 4 && StudentOk(s.students[i])
  {
    var x := s.students[i];
    match x.pc
    case Fresh => SetCurrent(s, i, ToRegister, 0)
    case ToRegister => Lock(s, i, Registering1)
    case Registering1 => Mark(s, i, Registering2, 0)
    case Registering2 => Count(Go(s, i, Registered), x.current, 1)
    case Registered => Unlock(s, i, Sleeping(0))
    case Sleeping(k) => Go(s, i, Checkpoint(k))
    case Checkpoint(k) => Go(s, i, if x.cancelled then ToClean else ToMove(k))
    case ToMove(k) => Lock(s, i, Move1(k))
    case Move1(k) => Count(Go(s, i, Move2(k)), k, -1)
    case Move2(k) => Count(Go(s, i, Move3(k)), k + 1, 1)
    case Move3(k) => SetCurrent(s, i, Move4(k), k + 1)
    case Move4(k) => Unlock(s, i, if k < 2 then Sleeping(k + 1) else ToFinish)
    case ToFinish => Lock(s, i, Finish1)
    case Finish1 => Mark(s, i, Finish2, 1)
    case Finish2 => Unlock(s, i, Finished)
    case ToClean => Lock(s, i, Clean1)
    case Clean1 => Count(Go(s, i, Clean2), x.current, -1)
    case Clean2 => Mark(s, i, Clean3, 2)
    case Clean3 => Unlock(s, i, Ended)
    case _ => s
  }

  predicate WantsMutex(p: Pc) { p.ToRegister? || p.ToMove? || p.ToFinish? || p.ToClean? }

  lemma StudentCanStep(s: State, i: nat)
    requires Sane(s) && i < |s.students| && !Over(s.students[i].pc)
    requires WantsMutex(s.students[i].pc) ==> s.mutex == Free
    ensures exists e :: Takes(s, e, AfterStudent(s, i))
  {
    assert StudentOk(s.students[i]);
    var t := AfterStudent(s, i);
    if s.students[i].pc.Checkpoint? && s.students[i].cancelled {
      assert Takes(s, Cancel(i), t);
    } else {
      assert Takes(s, OfStudent(i), t);
    }
  }

  lemma MainCanStep(s: State)
    requires !s.main.Printed? && (s.main.Picked? ==> s.mutex == Free) && (s.main.Reading? ==> s.main.i < |s.students|)
    requires s.main.Joining? ==> if s.main.i < |s.students| then Over(s.students[s.main.i].pc) else s.mutex == Free
    requires |s.year| == 4
    ensures exists t :: Takes(s, OfMain, t)
  {
    var t := match s.main
      case Choosing => s.(main := Joining(0))
      case Picked(i) => s.(main := Reading(i), mutex := ByMain)
      case Reading(i) => s.(main := Decided(i, s.students[i].state), mutex := Free)
      case Decided(i, state) =>
        if state == 0 && i < |s.students| then s.(main := Choosing, students := s.students[i := s.students[i].(cancelled := true)])
        else s.(main := Choosing)
      case Joining(i) => if i < |s.students| then s.(main := Joining(i + 1)) else s.(main := Printing, mutex := ByMain)
      case _ => s.(main := Printed(s.year), mutex := Free);
    assert Takes(s, OfMain, t);
  }

  /** Until the result is printed, some thread can step: nobody waits for the mutex, or to be
      joined, for good. */
  lemma NeverStuck(s: State)
    requires Inv(s) && !s.main.Printed?
    ensures exists e, t :: Takes(s, e, t)
  {
    hide Takes, StudentOk, YearsAgree;
    match s.mutex {
      case ByStudent(i) =>
        assert Held(s.students[i].pc);
        StudentCanStep(s, i);
      case ByMain => MainCanStep(s);
      case Free =>
        if s.main.Joining? && s.main.i < |s.students| && !Over(s.students[s.main.i].pc) {
          StudentCanStep(s, s.main.i);
        } else {
          MainCanStep(s);
        }
    }
  }

  // ---------- a cancellation in the first sleep ----------

  lemma Longer(run: seq<State>, e: Step, t: State) returns (longer: seq<State>)
    requires IsRun(run) && |run[|run| - 1].year| == 4 && Takes(run[|run| - 1], e, t)
    ensures IsRun(longer) && longer[0] == run[0] && longer[|longer| - 1] == t
  {
    hide Takes;
    longer := run + [t];
    forall i | 0 <= i < |longer| - 1 ensures Next(longer[i], longer[i + 1]) {
      if i == |run| - 1 {
        assert longer[i] == run[|run| - 1] && longer[i + 1] == t;
      } else {
        assert Next(run[i], run[i + 1]);
      }
    }
  }

  /** One student, where it is, and the years. */
  function Alone(pc: Pc, current: int, state: int, cancelled: bool, first: int, mutex: Owner, main: Main): State {
    State([Student(pc, current, state, cancelled)], [first, 0, 0, 0], mutex, main)
  }

  lemma AloneSleeps() returns (run: seq<State>)
    ensures IsRun(run) && Init(run[0]) && run[|run| - 1] == Alone(Sleeping(0), 0, 0, false, 1, Free, Choosing)
  {
    var me, no := OfStudent(0), Choosing;
    run := [Alone(Fresh, -1, 0, false, 0, Free, no)];
    run := Longer(run, me, Alone(ToRegister, 0, 0, false, 0, Free, no));
    run := Longer(run, me, Alone(Registering1, 0, 0, false, 0, ByStudent(0), no));
    run := Longer(run, me, Alone(Registering2, 0, 0, false, 0, ByStudent(0), no));
    run := Longer(run, me, Alone(Registered, 0, 0, false, 1, ByStudent(0), no));
    run := Longer(run, me, Alone(Sleeping(0), 0, 0, false, 1, Free, no));
  }

  lemma AloneIsCancelled() returns (run: seq<State>)
    ensures IsRun(run) && Init(run[0]) && run[|run| - 1] == Alone(ToClean, 0, 0, true, 1, Free, Choosing)
  {
    var no := Choosing;
    run := AloneSleeps();
    run := Longer(run, OfMain, Alone(Sleeping(0), 0, 0, false, 1, Free, Picked(0)));
    run := Longer(run, OfMain, Alone(Sleeping(0), 0, 0, false, 1, ByMain, Reading(0)));
    run := Longer(run, OfMain, Alone(Sleeping(0), 0, 0, false, 1, Free, Decided(0, 0)));
    run := Longer(run, OfMain, Alone(Sleeping(0), 0, 0, true, 1, Free, no));
    run := Longer(run, Cancel(0), Alone(ToClean, 0, 0, true, 1, Free, no));
  }

  lemma AloneCleansUp() returns (run: seq<State>)
    ensures IsRun(run) && Init(run[0]) && run[|run| - 1] == Alone(Clean2, 0, 0, true, 0, ByStudent(0), Choosing)
  {
    var me, no := OfStudent(0), Choosing;
    run := AloneIsCancelled();
    run := Longer(run, me, Alone(Clean1, 0, 0, true, 1, ByStudent(0), no));
    run := Longer(run, me, Alone(Clean2, 0, 0, true, 0, ByStudent(0), no));
  }

  lemma AloneIsDropped() returns (run: seq<State>)
    ensures IsRun(run) && Init(run[0]) && run[|run| - 1] == Alone(Ended, 0, 2, true, 0, Free, Choosing)
  {
    var me, no := OfStudent(0), Choosing;
    run := AloneCleansUp();
    run := Longer(run, me, Alone(Clean3, 0, 2, true, 0, ByStudent(0), no));
    run := Longer(run, me, Alone(Ended, 0, 2, true, 0, Free, no));
  }

  /** A single student that is cancelled in its first sleep: all four years are printed as 0. */
  lemma NobodyGraduates() returns (run: seq<State>)
    ensures IsRun(run) && Init(run[0]) && run[|run| - 1].main == Printed([0, 0, 0, 0])
  {
    run := AloneIsDropped();
    run := Longer(run, OfMain, Alone(Ended, 0, 2, true, 0, Free, Joining(0)));
    run := Longer(run, OfMain, Alone(Ended, 0, 2, true, 0, Free, Joining(1)));
    run := Longer(run, OfMain, Alone(Ended, 0, 2, true, 0, ByMain, Printing));
    run := Longer(run, OfMain, Alone(Ended, 0, 2, true, 0, Free, Printed([0, 0, 0, 0])));
  }

  // ---------- the code on the shared record ----------

  /** Those of `here` whose current year is `k`. */
  ghost function Those(here: set<nat>, current: seq<int>, k: int): set<nat>
    requires forall i | i in here :: i < |current|
  {
    set i | i in here && current[i] == k
  }

  lemma OneMore(here: set<nat>, current: seq<int>, id: nat)
    requires (forall i | i in here :: i < |current|) && id < |current| && id !in here
    ensures forall k :: |Those(here + {id}, current[id := 0], k)| == |Those(here, current, k)| + if k == 0 then 1 else 0
  {
    forall k ensures Those(here + {id}, current[id := 0], k) == Those(here, current, k) + if k == 0 then {id} else {} {
    }
  }

  lemma OneMoves(here: set<nat>, current: seq<int>, id: nat, to: int)
    requires (forall i | i in here :: i < |current|) && id in here && current[id] != to
    ensures forall k :: |Those(here, current[id := to], k)| ==
                        |Those(here, current, k)| + (if k == to then 1 else 0) - (if k == current[id] then 1 else 0)
  {
    forall k
      ensures Those(here, current[id := to], k) ==
              Those(here, current, k) + (if k == to then {id} else {}) - (if k == current[id] then {id} else {})
    {
    }
  }

  lemma OneLess(here: set<nat>, current: seq<int>, id: nat)
    requires (forall i | i in here :: i < |current|) && id in here
    ensures forall k :: |Those(here - {id}, current, k)| == |Those(here, current, k)| - if k == current[id] then 1 else 0
  {
    forall k ensures Those(here - {id}, current, k) == Those(here, current, k) - if k == current[id] then {id} else {} {
    }
  }

  /** Shared, with the students' current fields; each method is one critical section. `here` is who
      has registered and not been cleaned up. */
  class Course {
    const year: array<int>
    const state: array<int>
    const current: array<int>
    ghost var here: set<nat>

    ghost function InYear(k: int): set<nat>
      requires forall i | i in here :: i < current.Length
      reads this, current
    {
      Those(here, current[..], k)
    }

    ghost predicate Valid()
      reads this, year, state, current
    {
      && year != state && year != current && state != current
      && year.Length == 4 && state.Length == current.Length == 100
      && (forall i | i in here :: i < 100 && 0 <= current[i] < 4)
      && (forall k | 0 <= k < 4 :: year[k] == |InYear(k)|)
    }

    constructor ()
      ensures Valid() && here == {} && fresh(year) && fresh(state) && fresh(current)
    {
      year := new int[4](_ => 0);
      state := new int[100](_ => 0);
      current := new int[100](_ => -1);
      here := {};
    }

    method Register(id: nat)
      requires Valid() && id < 100 && id !in here
      modifies this, year, state, current
      ensures Valid() && here == old(here) + {id} && current[id] == 0 && state[id] == 0
      ensures forall i | 0 <= i < 100 && i != id :: current[i] == old(current[i]) && state[i] == old(state[i])
      ensures year[0] == old(year[0]) + 1 && forall k | 1 <= k < 4 :: year[k] == old(year[k])
    {
      ghost var before := current[..];
      OneMore(here, before, id);
      current[id] := 0;
      state[id] := 0;
      year[current[id]] := year[current[id]] + 1;
      here := here + {id};
      assert current[..] == before[id := 0];
    }

    method MoveYear(id: nat, from: nat, to: nat)
      requires Valid() && id in here && from < 4 && to < 4 && from != to && current[id] == from
      modifies year, current
      ensures Valid() && current[id] == to
      ensures forall i | 0 <= i < 100 && i != id :: current[i] == old(current[i])
      ensures year[from] == old(year[from]) - 1 && year[to] == old(year[to]) + 1
      ensures forall k | 0 <= k < 4 && k != from && k != to :: year[k] == old(year[k])
    {
      ghost var before := current[..];
      OneMoves(here, before, id, to);
      year[from] := year[from] - 1;
      year[to] := year[to] + 1;
      current[id] := to;
      assert current[..] == before[id := to];
    }

    method Cleanup(id: nat)
      requires Valid() && id in here
      modifies this, year, state
      ensures Valid() && here == old(here) - {id} && state[id] == 2
      ensures forall i | 0 <= i < 100 && i != id :: state[i] == old(state[i])
      ensures forall k | 0 <= k < 4 :: year[k] == old(year[k]) - if k == current[id] then 1 else 0
    {
      OneLess(here, current[..], id);
      if 0 <= current[id] < 4 {
        year[current[id]] := year[current[id]] - 1;
      }
      state[id] := 2;
      here := here - {id};
    }
  }
}
