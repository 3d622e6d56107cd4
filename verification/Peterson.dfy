/** peterson.c: two processes that increment a shared counter under Peterson's algorithm, any number of times each. */
module Peterson {
  // Every access to a shared variable is a step of its own, in sequentially consistent order.

  datatype Pc =
    | Remainder        // flag[id] = 1, if there are iterations left
    | SettingTurn      // turn = other
    | TestingFlag      // reads flag[other]
    | TestingTurn      // has seen flag[other] == 1; reads turn
    | Loading          // temp = shared_counter
    | Storing(temp: int)
    | ClearingFlag     // flag[id] = 0

  datatype Proc = Proc(pc: Pc, flag: bool, left: nat)

  /** `turn` and `counter` are shared; flag[id] is kept with process id. */
  datatype State = State(procs: seq<Proc>, turn: nat, counter: int)

  function Initial(k: nat): State {
    State([Proc(Remainder, false, k), Proc(Remainder, false, k)], 0, 0)
  }

  function Other(i: nat): nat
    requires i < 2
  {
    1 - i
  }

  predicate CanStep(s: State, i: nat) {
    |s.procs| == 2 && i < 2 && (s.procs[i].pc.Remainder? || s.procs[i].pc.ClearingFlag? ==> s.procs[i].left > 0)
  }

  function Goto(s: State, i: nat, pc: Pc): State
    requires i < |s.procs|
  {
    s.(procs := s.procs[i := s.procs[i].(pc := pc)])
  }

  function Step(s: State, i: nat): State
    requires CanStep(s, i)
  {
    var other := Other(i);
    match s.procs[i].pc
    case Remainder => s.(procs := s.procs[i := s.procs[i].(pc := SettingTurn, flag := true)])
    case SettingTurn => Goto(s, i, TestingFlag).(turn := other)
    case TestingFlag => Goto(s, i, if s.procs[other].flag then TestingTurn else Loading)
    case TestingTurn => Goto(s, i, if s.turn == other then TestingFlag else Loading)
    case Loading => Goto(s, i, Storing(s.counter))
    case Storing(temp) => Goto(s, i, ClearingFlag).(counter := temp + 1)
    case ClearingFlag => s.(procs := s.procs[i := Proc(Remainder, false, s.procs[i].left - 1)])
  }

  predicate Runs(s: State, schedule: seq<nat>)
    decreases |schedule|
  {
    schedule == [] || (CanStep(s, schedule[0]) && Runs(Step(s, schedule[0]), schedule[1..]))
  }

  function After(s: State, schedule: seq<nat>): State
    requires Runs(s, schedule)
    decreases |schedule|
  {
    if schedule == [] then s else After(Step(s, schedule[0]), schedule[1..])
  }

  // ---------------------------------------------------------------- mutual exclusion

  predicate Waiting(pc: Pc) {
    pc.TestingFlag? || pc.TestingTurn?
  }

  predicate Critical(pc: Pc) {
    pc.Loading? || pc.Storing? || pc.ClearingFlag?
  }

  function Increments(p: Proc, k: nat): int {
    k - p.left + if p.pc.ClearingFlag? then 1 else 0
  }

  ghost predicate ProcOk(s: State, i: nat)
    requires i < 2 == |s.procs|
  {
    var me, you := s.procs[i], s.procs[Other(i)];
    && (me.flag <==> !me.pc.Remainder?)
    && (!me.pc.Remainder? ==> me.left > 0)
    && (Critical(me.pc) && (Waiting(you.pc) || Critical(you.pc)) ==> s.turn == i)
    && (me.pc.Storing? ==> me.pc.temp == s.counter)
  }

  ghost predicate Inv(s: State, k: nat) {
    && |s.procs| == 2 && s.turn < 2 && ProcOk(s, 0) && ProcOk(s, 1)
    && s.counter == Increments(s.procs[0], k) + Increments(s.procs[1], k)
  }

  lemma ProcStep(s: State, k: nat, i: nat, q: nat)
    requires Inv(s, k) && CanStep(s, i) && q < 2
    ensures ProcOk(Step(s, i), q)
  {
    assert ProcOk(s, i) && ProcOk(s, Other(i));
  }

  lemma InvStep(s: State, k: nat, i: nat)
    requires Inv(s, k) && CanStep(s, i)
    ensures Inv(Step(s, i), k)
  {
    ProcStep(s, k, i, 0);
    ProcStep(s, k, i, 1);
    assert ProcOk(s, i);
  }

  lemma {:induction false} InvAlways(s: State, k: nat, schedule: seq<nat>)
    requires Inv(s, k) && Runs(s, schedule)
    ensures Inv(After(s, schedule), k)
    decreases |schedule|
  {
    if schedule != [] {
      InvStep(s, k, schedule[0]);
      InvAlways(Step(s, schedule[0]), k, schedule[1..]);
    }
  }

  /** The two are never in the critical section together, and when both are done the counter is 2k: no
      increment is lost although the read and the write are separate steps. */
  lemma MutualExclusion(k: nat, schedule: seq<nat>)
    requires Runs(Initial(k), schedule)
    ensures var s := After(Initial(k), schedule);
      && |s.procs| == 2
      && !(Critical(s.procs[0].pc) && Critical(s.procs[1].pc))
      && (!CanStep(s, 0) && !CanStep(s, 1) ==> s.counter == 2 * k)
  {
    InvAlways(Initial(k), k, schedule);
  }

  // ---------------------------------------------------------------- bounded waiting

  /** Process i stays between its turn = other and the critical section during the whole run. */
  predicate KeepsWaiting(s: State, schedule: seq<nat>, i: nat)
    requires i < 2 && Runs(s, schedule)
    decreases |schedule|
  {
    && |s.procs| == 2 && Waiting(s.procs[i].pc)
    && (schedule == [] || KeepsWaiting(Step(s, schedule[0]), schedule[1..], i))
  }

  /** How often process j enters the critical section in a run. */
  function Entries(s: State, schedule: seq<nat>, j: nat): nat
    requires j < 2 && Runs(s, schedule)
    decreases |schedule|
  {
    if schedule == [] then 0
    else
      var s' := Step(s, schedule[0]);
      (if schedule[0] == j && !Critical(s.procs[j].pc) && |s'.procs| == 2 && Critical(s'.procs[j].pc) then 1 else 0)
        + Entries(s', schedule[1..], j)
  }

  /** What the other can still do before i gets in: enter once, if it was already waiting when i set turn. */
  function Allowance(s: State, i: nat): nat
    requires i < 2 == |s.procs|
  {
    if s.turn != i && Waiting(s.procs[Other(i)].pc) then 1 else 0
  }

  lemma {:induction false} EntriesBounded(s: State, k: nat, schedule: seq<nat>, i: nat)
    requires Inv(s, k) && i < 2 && Runs(s, schedule) && KeepsWaiting(s, schedule, i)
    ensures Entries(s, schedule, Other(i)) <= Allowance(s, i)
    decreases |schedule|
  {
    if schedule != [] {
      InvStep(s, k, schedule[0]);
      EntriesBounded(Step(s, schedule[0]), k, schedule[1..], i);
      assert ProcOk(s, i) && ProcOk(s, Other(i));
    }
  }

  /** A waiter that has set turn is overtaken at most once. */
  lemma OvertakenAtMostOnce(k: nat, before: seq<nat>, schedule: seq<nat>, i: nat)
    requires Runs(Initial(k), before) && i < 2
    requires Runs(After(Initial(k), before), schedule) && KeepsWaiting(After(Initial(k), before), schedule, i)
    ensures Entries(After(Initial(k), before), schedule, Other(i)) <= 1
  {
    InvAlways(Initial(k), k, before);
    EntriesBounded(After(Initial(k), before), k, schedule, i);
  }

  function Count(schedule: seq<nat>, i: nat): nat {
    if schedule == [] then 0 else (if schedule[0] == i then 1 else 0) + Count(schedule[1..], i)
  }

  /** A waiter that has the turn does not spin: it takes at most one more step before the one that lets it in,
      whatever the other does in between. */
  lemma {:induction false} TurnGetsIn(s: State, k: nat, schedule: seq<nat>, i: nat)
    requires Inv(s, k) && i < 2 && Runs(s, schedule) && KeepsWaiting(s, schedule, i) && s.turn == i
    ensures Count(schedule, i) <= if s.procs[i].pc.TestingFlag? then 1 else 0
    decreases |schedule|
  {
    if schedule != [] {
      assert ProcOk(s, i) && ProcOk(s, Other(i));
      InvStep(s, k, schedule[0]);
      TurnGetsIn(Step(s, schedule[0]), k, schedule[1..], i);
    }
  }

  /** The other cannot come back past a waiter: once it sets turn again it does not enter any more before the waiter
      does, however often each of them is scheduled, and the waiter fails at most one more test. */
  lemma {:induction false} ReturnGivesWay(s: State, k: nat, schedule: seq<nat>, i: nat)
    requires Inv(s, k) && i < 2 && Runs(s, schedule) && KeepsWaiting(s, schedule, i)
    requires schedule != [] && schedule[0] == Other(i) && s.procs[Other(i)].pc.SettingTurn?
    ensures Entries(s, schedule, Other(i)) == 0 && Count(schedule, i) <= 1
  {
    EntriesBounded(s, k, schedule, i);
    assert ProcOk(s, i) && ProcOk(s, Other(i));
    InvStep(s, k, schedule[0]);
    TurnGetsIn(Step(s, schedule[0]), k, schedule[1..], i);
  }

  /** A waiter fails a test only for a reason: it has just seen the flag of the other up, or the turn is the other's. */
  lemma FailsForAReason(s: State, k: nat, i: nat)
    requires Inv(s, k) && i < 2 && Waiting(s.procs[i].pc) && CanStep(s, i)
    ensures Waiting(Step(s, i).procs[i].pc) || Critical(Step(s, i).procs[i].pc)
    ensures Waiting(Step(s, i).procs[i].pc) <==>
      if s.procs[i].pc.TestingFlag? then s.procs[Other(i)].flag else s.turn == Other(i)
  {
  }

  /** The other is outside its entry section, critical section and exit section during the whole run. */
  predicate StaysAway(s: State, schedule: seq<nat>, j: nat)
    requires j < 2 && Runs(s, schedule)
    decreases |schedule|
  {
    && |s.procs| == 2 && s.procs[j].pc.Remainder?
    && (schedule == [] || StaysAway(Step(s, schedule[0]), schedule[1..], j))
  }

  /** While the other stays away a waiter does not spin, whoever has the turn: it takes at most one more step before
      the one that lets it in. */
  lemma {:induction false} AloneGetsIn(s: State, k: nat, schedule: seq<nat>, i: nat)
    requires Inv(s, k) && i < 2 && Runs(s, schedule) && KeepsWaiting(s, schedule, i) && StaysAway(s, schedule, Other(i))
    ensures Count(schedule, i) <= if s.procs[i].pc.TestingFlag? then 0 else 1
    decreases |schedule|
  {
    if schedule != [] {
      assert ProcOk(s, i) && ProcOk(s, Other(i));
      InvStep(s, k, schedule[0]);
      AloneGetsIn(Step(s, schedule[0]), k, schedule[1..], i);
    }
  }

  /** Somebody who finds the other away is through an iteration in six steps, and has added one to the counter. */
  lemma IterationAlone(s: State, k: nat, i: nat)
    requires Inv(s, k) && i < 2 && s.procs[i].left > 0
    requires s.procs[i].pc.Remainder? && s.procs[Other(i)].pc.Remainder?
    ensures Runs(s, [i, i, i, i, i, i])
    ensures var s' := After(s, [i, i, i, i, i, i]);
      s'.procs == s.procs[i := Proc(Remainder, false, s.procs[i].left - 1)] && s'.counter == s.counter + 1
  {
    assert ProcOk(s, Other(i));
    var s1 := Step(s, i);
    var s2 := Step(s1, i);
    var s3 := Step(s2, i);
    var s4 := Step(s3, i);
    assert s4.procs == s.procs[i := Proc(Storing(s.counter), true, s.procs[i].left)];
    var s5 := Step(s4, i);
    var s6 := Step(s5, i);
    assert s6.procs == s.procs[i := Proc(Remainder, false, s.procs[i].left - 1)];
    Next(s5, s6, i, 0);
    Next(s4, s6, i, 1);
    Next(s3, s6, i, 2);
    Next(s2, s6, i, 3);
    Next(s1, s6, i, 4);
    Next(s, s6, i, 5);
    assert Solo(i, 6) == [i, i, i, i, i, i];
  }

  lemma Next(s: State, end: State, i: nat, n: nat)
    requires CanStep(s, i) && Runs(Step(s, i), Solo(i, n)) && After(Step(s, i), Solo(i, n)) == end
    ensures Runs(s, Solo(i, n + 1)) && After(s, Solo(i, n + 1)) == end
  {
    assert Solo(i, n + 1)[1..] == Solo(i, n);
  }

  /** n steps of process i. */
  function Solo(i: nat, n: nat): seq<nat> {
    if n == 0 then [] else [i] + Solo(i, n - 1)
  }

  /** As long as somebody has iterations left, somebody can take a step. */
  lemma NoDeadlock(s: State, k: nat, i: nat)
    requires Inv(s, k) && i < 2
    ensures CanStep(s, i) <==> s.procs[i].left > 0
  {
    assert ProcOk(s, i);
  }
}
