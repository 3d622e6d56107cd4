/** Workers that acquire resources in ascending order (syncdeadlock.c); the philosophers of dining.c are an instance. */
module OrderedAcquisition {
  // For any number of workers, resources, instances and cycles.

  /** What each worker needs, how many instances of each resource there are, and how often everything is done. */
  datatype Config = Config(needs: seq<seq<nat>>, capacities: seq<nat>, cycles: nat)

  /** Acquiring: the first k needs are held.  Releasing: still k of them, the last acquired going first. */
  datatype Pc = Acquiring(cycle: nat, k: nat) | Releasing(cycle: nat, k: nat) | Exiting | Done

  datatype State = State(pcs: seq<Pc>, sems: seq<int>, completed: seq<nat>)

  ghost predicate Ascending(need: seq<nat>) {
    forall i, j {:trigger need[i], need[j]} :: 0 <= i < j < |need| ==> need[i] < need[j]
  }

  ghost predicate ConfigOk(c: Config) {
    && (forall i {:trigger c.needs[i]} :: 0 <= i < |c.needs| ==>
         Ascending(c.needs[i]) && forall k {:trigger c.needs[i][k]} :: 0 <= k < |c.needs[i]| ==>
             c.needs[i][k] < |c.capacities|)
    && (forall r {:trigger c.capacities[r]} :: 0 <= r < |c.capacities| ==> c.capacities[r] > 0)
  }

  function Initial(c: Config): State {
    State(seq(|c.needs|, i => if c.cycles > 0 then Acquiring(1, 0) else Exiting), c.capacities, seq(|c.needs|, i => 0))
  }

  /** A worker is only ever stopped by a semaphore at 0. */
  predicate CanStep(c: Config, s: State, i: nat)
    requires i < |s.pcs|
  {
    && i < |c.needs| && i < |s.completed|
    && match s.pcs[i]
       case Acquiring(_, k) =>
         k < |c.needs[i]| ==> c.needs[i][k] < |s.sems| && s.sems[c.needs[i][k]] > 0
       case Releasing(_, k) => 0 < k ==> k <= |c.needs[i]| && c.needs[i][k - 1] < |s.sems|
       case Exiting => true
       case Done => false
  }

  function Step(c: Config, s: State, i: nat): State
    requires i < |s.pcs| && CanStep(c, s, i)
  {
    match s.pcs[i]
    case Acquiring(cycle, k) =>
      if k < |c.needs[i]| then
        var r := c.needs[i][k];
        s.(pcs := s.pcs[i := Acquiring(cycle, k + 1)], sems := s.sems[r := s.sems[r] - 1])
      else
        s.(pcs := s.pcs[i := Releasing(cycle, k)])
    case Releasing(cycle, k) =>
      if k > 0 then
        var r := c.needs[i][k - 1];
        s.(pcs := s.pcs[i := Releasing(cycle, k - 1)], sems := s.sems[r := s.sems[r] + 1])
      else
        s.(pcs := s.pcs[i := if cycle < c.cycles then Acquiring(cycle + 1, 0) else Exiting])
    case Exiting => s.(pcs := s.pcs[i := Done], completed := s.completed[i := c.cycles])
  }

  // ---------------------------------------------------------------- the invariant

  function HeldCount(pc: Pc): nat {
    if pc.Acquiring? || pc.Releasing? then pc.k else 0
  }

  ghost predicate Holds(c: Config, s: State, i: nat, r: nat)
    requires i < |s.pcs| && i < |c.needs|
  {
    HeldCount(s.pcs[i]) <= |c.needs[i]| && r in c.needs[i][..HeldCount(s.pcs[i])]
  }

  /** How many of the first n workers hold resource r. */
  ghost function Holders(c: Config, s: State, r: nat, n: nat): nat
    requires n <= |s.pcs| && n <= |c.needs|
  {
    if n == 0 then 0 else Holders(c, s, r, n - 1) + if Holds(c, s, n - 1, r) then 1 else 0
  }

  ghost predicate PcOk(c: Config, s: State, i: nat)
    requires i < |s.pcs| && i < |c.needs| && i < |s.completed|
  {
    && HeldCount(s.pcs[i]) <= |c.needs[i]|
    && (s.pcs[i].Acquiring? || s.pcs[i].Releasing? ==> 1 <= s.pcs[i].cycle <= c.cycles)
    && (s.pcs[i].Done? ==> s.completed[i] == c.cycles)
  }

  /** Instances are neither lost nor made: those free and those held add up to the capacity. */
  ghost predicate Conserved(c: Config, s: State, r: nat)
    requires r < |s.sems| && r < |c.capacities| && |s.pcs| == |c.needs|
  {
    s.sems[r] >= 0 && s.sems[r] + Holders(c, s, r, |s.pcs|) == c.capacities[r]
  }

  ghost predicate Inv(c: Config, s: State) {
    && |s.pcs| == |c.needs| == |s.completed| && |s.sems| == |c.capacities|
    && (forall i {:trigger PcOk(c, s, i)} :: 0 <= i < |s.pcs| ==> PcOk(c, s, i))
    && (forall r {:trigger Conserved(c, s, r)} :: 0 <= r < |s.sems| ==> Conserved(c, s, r))
  }

  lemma {:induction false} NobodyHolds(c: Config, s: State, r: nat, n: nat)
    requires n <= |s.pcs| && n <= |c.needs|
    requires forall i {:trigger s.pcs[i]} :: 0 <= i < n ==> HeldCount(s.pcs[i]) == 0
    ensures Holders(c, s, r, n) == 0
  {
    if n > 0 {
      NobodyHolds(c, s, r, n - 1);
    }
  }

  lemma InvInitially(c: Config)
    requires ConfigOk(c)
    ensures Inv(c, Initial(c))
  {
    var s := Initial(c);
    forall r | 0 <= r < |s.sems| ensures Conserved(c, s, r) {
      NobodyHolds(c, s, r, |s.pcs|);
    }
  }

  /** Changing worker i changes the number of holders by its own change. */
  lemma {:induction false} HoldersChange(c: Config, s: State, s': State, i: nat, r: nat, n: nat)
    requires n <= |s.pcs| == |s'.pcs| == |c.needs| && i < |s.pcs|
    requires forall j {:trigger s'.pcs[j]} :: 0 <= j < |s.pcs| && j != i ==> s'.pcs[j] == s.pcs[j]
    ensures Holders(c, s', r, n) - Holders(c, s, r, n) ==
      if i >= n then 0 else (if Holds(c, s', i, r) then 1 else 0) - (if Holds(c, s, i, r) then 1 else 0)
  {
    if n > 0 {
      HoldersChange(c, s, s', i, r, n - 1);
    }
  }

  /** One more need held: that resource, which was not held before. */
  lemma OneMore(need: seq<nat>, k: nat, r: nat)
    requires Ascending(need) && k < |need|
    ensures r in need[..k + 1] <==> r in need[..k] || r == need[k]
    ensures need[k] !in need[..k]
  {
    assert need[..k + 1] == need[..k] + [need[k]];
  }

  lemma InvStep(c: Config, s: State, i: nat)
    requires ConfigOk(c) && Inv(c, s) && i < |s.pcs| && CanStep(c, s, i)
    ensures Inv(c, Step(c, s, i))
  {
    var s' := Step(c, s, i);
    assert PcOk(c, s, i);
    forall j | 0 <= j < |s'.pcs| ensures PcOk(c, s', j) {
      assert PcOk(c, s, j);
    }
    forall r | 0 <= r < |s'.sems| ensures Conserved(c, s', r) {
      assert Conserved(c, s, r);
      HoldersChange(c, s, s', i, r, |s.pcs|);
      var pc := s.pcs[i];
      if pc.Acquiring? && pc.k < |c.needs[i]| {
        OneMore(c.needs[i], pc.k, r);
      } else if pc.Releasing? && pc.k > 0 {
        OneMore(c.needs[i], pc.k - 1, r);
      }
    }
  }

  // ---------------------------------------------------------------- no deadlock

  lemma {:induction false} AHolder(c: Config, s: State, r: nat, n: nat) returns (h: nat)
    requires n <= |s.pcs| && n <= |c.needs| && Holders(c, s, r, n) > 0
    ensures h < n && Holds(c, s, h, r)
  {
    if Holds(c, s, n - 1, r) {
      h := n - 1;
    } else {
      h := AHolder(c, s, r, n - 1);
    }
  }

  /** Starting from any unfinished worker, following who holds what it waits for climbs the resource order and so
      ends at a worker that can go on. */
  lemma {:induction false} SomebodyCanStep(c: Config, s: State, i: nat) returns (j: nat)
    requires ConfigOk(c) && Inv(c, s) && i < |s.pcs| && !s.pcs[i].Done?
    ensures j < |s.pcs| && CanStep(c, s, j)
    decreases if s.pcs[i].Acquiring? && s.pcs[i].k < |c.needs[i]| then |s.sems| - c.needs[i][s.pcs[i].k] else 0
  {
    assert PcOk(c, s, i);
    if CanStep(c, s, i) {
      j := i;
    } else {
      var r := c.needs[i][s.pcs[i].k];
      assert Conserved(c, s, r);
      var h := AHolder(c, s, r, |s.pcs|);
      assert PcOk(c, s, h);
      j := SomebodyCanStep(c, s, h);
    }
  }

  // ---------------------------------------------------------------- every run ends

  /** The number of steps a worker still has to take. */
  function Remaining(c: Config, i: nat, pc: Pc): int
    requires i < |c.needs|
  {
    var len := |c.needs[i]|;
    match pc
    case Acquiring(cycle, k) => (c.cycles - cycle) * (2 * len + 2) + (len - k) + 1 + len + 1 + 1
    case Releasing(cycle, k) => (c.cycles - cycle) * (2 * len + 2) + k + 1 + 1
    case Exiting => 1
    case Done => 0
  }

  function Work(c: Config, s: State, n: nat): int
    requires n <= |s.pcs| && n <= |c.needs|
  {
    if n == 0 then 0 else Work(c, s, n - 1) + Remaining(c, n - 1, s.pcs[n - 1])
  }

  lemma StepRemaining(c: Config, s: State, i: nat)
    requires Inv(c, s) && i < |s.pcs| && CanStep(c, s, i)
    ensures Remaining(c, i, Step(c, s, i).pcs[i]) == Remaining(c, i, s.pcs[i]) - 1
  {
    assert PcOk(c, s, i);
    var pc := s.pcs[i];
    if pc.Releasing? && pc.k == 0 && pc.cycle < c.cycles {
      var len := 2 * |c.needs[i]| + 2;
      assert (c.cycles - pc.cycle) * len == (c.cycles - (pc.cycle + 1)) * len + len;
    } else if pc.Releasing? && pc.k == 0 {
      assert (c.cycles - pc.cycle) * (2 * |c.needs[i]| + 2) == 0;
    }
  }

  lemma {:induction false} WorkChange(c: Config, s: State, s': State, i: nat, n: nat)
    requires n <= |s.pcs| == |s'.pcs| == |c.needs| && i < |s.pcs|
    requires forall j {:trigger s'.pcs[j]} :: 0 <= j < |s.pcs| && j != i ==> s'.pcs[j] == s.pcs[j]
    ensures Work(c, s', n) - Work(c, s, n) == if i >= n then 0 else Remaining(c, i, s'.pcs[i]) - Remaining(c, i,
        s.pcs[i])
  {
    if n > 0 {
      WorkChange(c, s, s', i, n - 1);
    }
  }

  lemma {:induction false} WorkSign(c: Config, s: State, n: nat)
    requires Inv(c, s) && n <= |s.pcs|
    ensures Work(c, s, n) >= 0
    ensures Work(c, s, n) == 0 <==> forall i {:trigger s.pcs[i]} :: 0 <= i < n ==> s.pcs[i].Done?
  {
    if n > 0 {
      WorkSign(c, s, n - 1);
      assert PcOk(c, s, n - 1);
      RemainingSign(c, s, n - 1);
    }
  }

  lemma RemainingSign(c: Config, s: State, i: nat)
    requires Inv(c, s) && i < |s.pcs|
    ensures Remaining(c, i, s.pcs[i]) >= 0 && (Remaining(c, i, s.pcs[i]) == 0 <==> s.pcs[i].Done?)
  {
    assert PcOk(c, s, i);
    var pc := s.pcs[i];
    if pc.Acquiring? || pc.Releasing? {
      assert (c.cycles - pc.cycle) * (2 * |c.needs[i]| + 2) >= 0;
    }
  }

  /** A schedule names the worker that takes each step. */
  predicate Runs(c: Config, s: State, schedule: seq<nat>)
    decreases |schedule|
  {
    schedule == [] ||
    (schedule[0] < |s.pcs| && CanStep(c, s, schedule[0]) && Runs(c, Step(c, s, schedule[0]), schedule[1..]))
  }

  function After(c: Config, s: State, schedule: seq<nat>): State
    requires Runs(c, s, schedule)
    decreases |schedule|
  {
    if schedule == [] then s else After(c, Step(c, s, schedule[0]), schedule[1..])
  }

  lemma {:induction false} RunInv(c: Config, s: State, schedule: seq<nat>)
    requires ConfigOk(c) && Inv(c, s) && Runs(c, s, schedule)
    ensures var s' := After(c, s, schedule);
      Inv(c, s') && Work(c, s', |s'.pcs|) + |schedule| == Work(c, s, |s.pcs|)
    decreases |schedule|
  {
    if schedule != [] {
      var i := schedule[0];
      var s1 := Step(c, s, i);
      InvStep(c, s, i);
      StepRemaining(c, s, i);
      WorkChange(c, s, s1, i, |s.pcs|);
      RunInv(c, s1, schedule[1..]);
    }
  }

  /** Whatever the schedule, a run can be extended until every worker has completed all its cycles, all instances
      are back, and exactly the planned number of steps has been taken. */
  lemma EveryRunCompletes(c: Config, schedule: seq<nat>)
    requires ConfigOk(c) && Runs(c, Initial(c), schedule)
    ensures |schedule| <= Work(c, Initial(c), |c.needs|)
    ensures var s := After(c, Initial(c), schedule);
      && Inv(c, s)
      && ((forall i {:trigger CanStep(c, s, i)} :: 0 <= i < |s.pcs| ==> !CanStep(c, s, i)) <==>
          |schedule| == Work(c, Initial(c), |c.needs|))
      && (|schedule| == Work(c, Initial(c), |c.needs|) ==>
          s.sems == c.capacities && s.completed == seq(|c.needs|, i => c.cycles))
  {
    InvInitially(c);
    RunInv(c, Initial(c), schedule);
    var s := After(c, Initial(c), schedule);
    WorkSign(c, s, |s.pcs|);
    if i :| 0 <= i < |s.pcs| && !s.pcs[i].Done? {
      var j := SomebodyCanStep(c, s, i);
    } else {
      forall r | 0 <= r < |s.sems| ensures s.sems[r] == c.capacities[r] {
        assert Conserved(c, s, r);
        NobodyHolds(c, s, r, |s.pcs|);
      }
      forall i | 0 <= i < |s.pcs| ensures s.completed[i] == c.cycles {
        assert PcOk(c, s, i);
      }
    }
  }

  // ---------------------------------------------------------------- dining philosophers

  /** The forks of philosopher id, the lower number first. */
  function Forks(id: nat, n: nat): seq<nat>
    requires id < n
  {
    var left, right := id, (id + 1) % n;
    if left < right then [left, right] else [right, left]
  }

  /** One binary semaphore per fork. */
  function Table(n: nat, cycles: nat): Config {
    Config(seq(n, i requires 0 <= i < n => Forks(i, n)), seq(n, i => 1), cycles)
  }

  /** The lower-numbered fork first is an ascending order exactly when there are at least two philosophers: a
      single one would wait for the fork it holds. */
  lemma DiningOrdered(n: nat, cycles: nat)
    requires n > 0
    ensures ConfigOk(Table(n, cycles)) <==> n >= 2
  {
    var c := Table(n, cycles);
    if n >= 2 {
      forall i | 0 <= i < n ensures c.needs[i][0] < c.needs[i][1] < n {
        assert (i + 1) % n == if i + 1 == n then 0 else i + 1;
      }
    } else {
      var need := c.needs[0];
      assert need == [0, 0] && need[0] == need[1];
      assert !Ascending(need);
    }
  }

  /** And it does wait: after taking the fork once it can never go on. */
  lemma LonePhilosopherStarves(cycles: nat)
    requires cycles > 0
    ensures var c := Table(1, cycles); Runs(c, Initial(c), [0])
    ensures var c := Table(1, cycles); var s := After(c, Initial(c), [0]);
      && |s.pcs| == 1 && s.pcs[0] == Acquiring(1, 1) && s.completed == [0]
      && forall schedule {:trigger Runs(c, s, schedule)} :: Runs(c, s, schedule) ==> schedule == []
  {
    var c := Table(1, cycles);
    assert c.needs[0] == [0, 0];
    var s := Step(c, Initial(c), 0);
    assert [0][1..] == [];
    assert After(c, Initial(c), [0]) == s;
    assert s.completed == [0];
  }

  predicate Eating(pc: Pc) {
    (pc.Acquiring? || pc.Releasing?) && pc.k == 2
  }

  /** Neighbours never eat at the same time. */
  lemma NeighboursDoNotEat(n: nat, cycles: nat, schedule: seq<nat>, i: nat)
    requires n >= 2 && i < n && Runs(Table(n, cycles), Initial(Table(n, cycles)), schedule)
    ensures var s := After(Table(n, cycles), Initial(Table(n, cycles)), schedule);
      |s.pcs| == n && !(Eating(s.pcs[i]) && Eating(s.pcs[(i + 1) % n]))
  {
    var c := Table(n, cycles);
    DiningOrdered(n, cycles);
    InvInitially(c);
    RunInv(c, Initial(c), schedule);
    var s, j := After(c, Initial(c), schedule), (i + 1) % n;
    if Eating(s.pcs[i]) && Eating(s.pcs[j]) {
      SharedFork(c, s, n, i);
      assert Conserved(c, s, j);
      TwoHolders(c, s, i, j, j, n);
      assert false;
    }
  }

  /** The forks of a philosopher are its own number and the next one in the circle. */
  lemma ForksOf(i: nat, n: nat)
    requires i < n
    ensures (i + 1) % n == if i + 1 == n then 0 else i + 1
    ensures |Forks(i, n)| == 2 && i in Forks(i, n) && (i + 1) % n in Forks(i, n)
  {
    var right := (i + 1) % n;
    assert Forks(i, n)[0] == i || Forks(i, n)[1] == i;
    assert Forks(i, n)[0] == right || Forks(i, n)[1] == right;
  }

  lemma SharedFork(c: Config, s: State, n: nat, i: nat)
    requires n >= 2 && i < n && |s.pcs| == n && c.needs == seq(n, i requires 0 <= i < n => Forks(i, n))
    requires Eating(s.pcs[i]) && Eating(s.pcs[(i + 1) % n])
    ensures (i + 1) % n != i && Holds(c, s, i, (i + 1) % n) && Holds(c, s, (i + 1) % n, (i + 1) % n)
  {
    ForksOf(i, n);
    var j := (i + 1) % n;
    ForksOf(j, n);
    assert c.needs[i] == Forks(i, n) && c.needs[j] == Forks(j, n);
    assert c.needs[i][..2] == c.needs[i] && c.needs[j][..2] == c.needs[j];
  }

  lemma {:induction false} TwoHolders(c: Config, s: State, i: nat, j: nat, r: nat, n: nat)
    requires n <= |s.pcs| && n <= |c.needs| && i < |s.pcs| && j < |s.pcs| && i != j
    requires i < |c.needs| && j < |c.needs| && Holds(c, s, i, r) && Holds(c, s, j, r)
    ensures Holders(c, s, r, n) >= (if i < n then 1 else 0) + (if j < n then 1 else 0)
  {
    if n > 0 {
      TwoHolders(c, s, i, j, r, n - 1);
    }
  }
}
