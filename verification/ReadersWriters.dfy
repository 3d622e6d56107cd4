/** readwrite.c: readers and writers with a turnstile, for any number of each and any number of rounds, over atomic
    counting semaphores.  A step is one statement of the program; a semaphore remembers who took its unit, which is
    never tested but lets the invariant say who may do what. */
module ReadersWriters {

  datatype ReaderPc =
    | Resting         // sem_down(TURNSTILE)
    | HasTurn         // sem_down(MUTEX)
    | HasMutex        // read_count++
    | Counted         // sem_down(RW_LOCK) if read_count == 1
    | Unlocking       // sem_up(MUTEX)
    | Leaving         // sem_up(TURNSTILE)
    | Reading         // reads, then sem_down(MUTEX)
    | Exiting         // read_count--
    | Discounted      // sem_up(RW_LOCK) if read_count == 0
    | ExitUnlocking   // sem_up(MUTEX)

  datatype WriterPc =
    | Idle            // sem_down(TURNSTILE)
    | Waiting         // sem_down(RW_LOCK)
    | Loading         // reads shared_data
    | Storing(v: int) // writes v + 1 to shared_data
    | ReleasingLock   // sem_up(RW_LOCK)
    | ReleasingTurn   // sem_up(TURNSTILE)

  datatype Reader = Reader(pc: ReaderPc, left: nat)
  datatype Writer = Writer(pc: WriterPc, left: nat)

  datatype Who = Nobody | R(i: nat) | W(j: nat) | AllReaders

  /** A semaphore; `owner` is a history variable that records who took the unit and is never tested. */
  datatype Semaphore = Semaphore(value: int, owner: Who)

  datatype State = State(readers: seq<Reader>, writers: seq<Writer>, turnstile: Semaphore, mutex: Semaphore,
                         rwLock: Semaphore, readCount: int, sharedData: int)

  const FREE := Semaphore(1, Nobody)

  function Initial(n: nat, m: nat, rounds: nat): State {
    State(seq(n, i => Reader(Resting, rounds)), seq(m, j => Writer(Idle, rounds)), FREE, FREE, FREE, 0, 0)
  }

  function Down(s: Semaphore, w: Who): Semaphore {
    Semaphore(s.value - 1, w)
  }

  function Up(s: Semaphore): Semaphore {
    Semaphore(s.value + 1, Nobody)
  }

  predicate CanStep(s: State, w: Who) {
    match w
    case R(i) =>
      i < |s.readers| &&
      (match s.readers[i].pc
       case Resting => s.readers[i].left > 0 && s.turnstile.value > 0
       case HasTurn => s.mutex.value > 0
       case Counted => s.readCount == 1 ==> s.rwLock.value > 0
       case Reading => s.mutex.value > 0
       case ExitUnlocking => s.readers[i].left > 0
       case _ => true)
    case W(j) =>
      j < |s.writers| &&
      (match s.writers[j].pc
       case Idle => s.writers[j].left > 0 && s.turnstile.value > 0
       case Waiting => s.rwLock.value > 0
       case ReleasingTurn => s.writers[j].left > 0
       case _ => true)
    case _ => false
  }

  function Step(s: State, w: Who): State
    requires CanStep(s, w)
  {
    if w.R? then ReaderStep(s, w.i) else WriterStep(s, w.j)
  }

  function AtReader(s: State, i: nat, pc: ReaderPc): State
    requires i < |s.readers|
  {
    s.(readers := s.readers[i := s.readers[i].(pc := pc)])
  }

  function ReaderStep(s: State, i: nat): State
    requires CanStep(s, R(i))
  {
    match s.readers[i].pc
    case Resting => AtReader(s, i, HasTurn).(turnstile := Down(s.turnstile, R(i)))
    case HasTurn => AtReader(s, i, HasMutex).(mutex := Down(s.mutex, R(i)))
    case HasMutex => AtReader(s, i, Counted).(readCount := s.readCount + 1)
    case Counted =>
      AtReader(s, i, Unlocking).(rwLock := if s.readCount == 1 then Down(s.rwLock, AllReaders) else s.rwLock)
    case Unlocking => AtReader(s, i, Leaving).(mutex := Up(s.mutex))
    case Leaving => AtReader(s, i, Reading).(turnstile := Up(s.turnstile))
    case Reading => AtReader(s, i, Exiting).(mutex := Down(s.mutex, R(i)))
    case Exiting => AtReader(s, i, Discounted).(readCount := s.readCount - 1)
    case Discounted =>
      AtReader(s, i, ExitUnlocking).(rwLock := if s.readCount == 0 then Up(s.rwLock) else s.rwLock)
    case ExitUnlocking =>
      s.(readers := s.readers[i := Reader(Resting, s.readers[i].left - 1)], mutex := Up(s.mutex))
  }

  function AtWriter(s: State, j: nat, pc: WriterPc): State
    requires j < |s.writers|
  {
    s.(writers := s.writers[j := s.writers[j].(pc := pc)])
  }

  function WriterStep(s: State, j: nat): State
    requires CanStep(s, W(j))
  {
    match s.writers[j].pc
    case Idle => AtWriter(s, j, Waiting).(turnstile := Down(s.turnstile, W(j)))
    case Waiting => AtWriter(s, j, Loading).(rwLock := Down(s.rwLock, W(j)))
    case Loading => AtWriter(s, j, Storing(s.sharedData))
    case Storing(v) => AtWriter(s, j, ReleasingLock).(sharedData := v + 1)
    case ReleasingLock => AtWriter(s, j, ReleasingTurn).(rwLock := Up(s.rwLock))
    case ReleasingTurn =>
      s.(writers := s.writers[j := Writer(Idle, s.writers[j].left - 1)], turnstile := Up(s.turnstile))
  }

  // ---------------------------------------------------------------- the invariant

  predicate ReaderHasTurn(pc: ReaderPc) {
    pc.HasTurn? || pc.HasMutex? || pc.Counted? || pc.Unlocking? || pc.Leaving?
  }

  predicate ReaderHasMutex(pc: ReaderPc) {
    pc.HasMutex? || pc.Counted? || pc.Unlocking? || pc.Exiting? || pc.Discounted? || pc.ExitUnlocking?
  }

  /** Counted in read_count. */
  predicate Inside(pc: ReaderPc) {
    pc.Counted? || pc.Unlocking? || pc.Leaving? || pc.Reading? || pc.Exiting?
  }

  predicate WriterHasLock(pc: WriterPc) {
    pc.Loading? || pc.Storing? || pc.ReleasingLock?
  }

  ghost function InsideCount(readers: seq<Reader>, n: nat): nat
    requires n <= |readers|
  {
    if n == 0 then 0 else InsideCount(readers, n - 1) + if Inside(readers[n - 1].pc) then 1 else 0
  }

  /** How many rounds' writes a writer has completed. */
  function Written(w: Writer, rounds: nat): int {
    rounds - w.left + if w.pc.ReleasingLock? || w.pc.ReleasingTurn? then 1 else 0
  }

  ghost function WrittenTotal(writers: seq<Writer>, rounds: nat, n: nat): int
    requires n <= |writers|
  {
    if n == 0 then 0 else WrittenTotal(writers, rounds, n - 1) + Written(writers[n - 1], rounds)
  }

  ghost predicate ReaderOk(s: State, i: nat)
    requires i < |s.readers|
  {
    && (ReaderHasTurn(s.readers[i].pc) <==> s.turnstile.owner == R(i))
    && (ReaderHasMutex(s.readers[i].pc) <==> s.mutex.owner == R(i))
    && (s.readers[i].pc != Resting ==> s.readers[i].left > 0)
  }

  ghost predicate WriterOk(s: State, j: nat)
    requires j < |s.writers|
  {
    && (s.writers[j].pc != Idle <==> s.turnstile.owner == W(j))
    && (WriterHasLock(s.writers[j].pc) <==> s.rwLock.owner == W(j))
    && (s.writers[j].pc.Storing? ==> s.writers[j].pc.v == s.sharedData)
    && (s.writers[j].pc != Idle ==> s.writers[j].left > 0)
  }

  ghost predicate Binary(s: Semaphore) {
    s == FREE || (s.value == 0 && s.owner != Nobody)
  }

  /** The readers hold RW_LOCK together, except between the first one's count and its sem_down; the last one
      still holds it between its discount and its sem_up. */
  ghost predicate ReadersLock(s: State) {
    var m := s.mutex.owner;
    if m.R? && m.i < |s.readers| && s.readers[m.i].pc.Counted? then s.readCount > 1
    else if m.R? && m.i < |s.readers| && s.readers[m.i].pc.Discounted? then true
    else s.readCount > 0
  }

  ghost predicate OwnersExist(s: State) {
    && Binary(s.turnstile) && Binary(s.mutex) && Binary(s.rwLock)
    && (match s.turnstile.owner
        case Nobody => true
        case R(i) => i < |s.readers|
        case W(j) => j < |s.writers|
        case AllReaders => false)
    && (match s.mutex.owner
        case Nobody => true
        case R(i) => i < |s.readers|
        case _ => false)
    && (match s.rwLock.owner
        case Nobody => true
        case R(i) => false
        case W(j) => j < |s.writers|
        case AllReaders => true)
  }

  ghost predicate Inv(s: State, rounds: nat) {
    && OwnersExist(s)
    && (forall i {:trigger ReaderOk(s, i)} :: 0 <= i < |s.readers| ==> ReaderOk(s, i))
    && (forall j {:trigger WriterOk(s, j)} :: 0 <= j < |s.writers| ==> WriterOk(s, j))
    && (s.rwLock.owner == AllReaders <==> ReadersLock(s))
    && s.readCount == InsideCount(s.readers, |s.readers|)
    && s.sharedData == WrittenTotal(s.writers, rounds, |s.writers|)
  }

  lemma {:induction false} InsideChange(readers: seq<Reader>, i: nat, x: Reader, n: nat)
    requires n <= |readers| && i < |readers|
    ensures InsideCount(readers[i := x], n) - InsideCount(readers, n) ==
      if i >= n then 0 else (if Inside(x.pc) then 1 else 0) - (if Inside(readers[i].pc) then 1 else 0)
  {
    if n > 0 {
      InsideChange(readers, i, x, n - 1);
    }
  }

  lemma {:induction false} WrittenChange(writers: seq<Writer>, rounds: nat, j: nat, x: Writer, n: nat)
    requires n <= |writers| && j < |writers|
    ensures WrittenTotal(writers[j := x], rounds, n) - WrittenTotal(writers, rounds, n) ==
      if j >= n then 0 else Written(x, rounds) - Written(writers[j], rounds)
  {
    if n > 0 {
      WrittenChange(writers, rounds, j, x, n - 1);
    }
  }

  lemma {:induction false} InsideAtLeast(readers: seq<Reader>, i: nat, k: nat, n: nat)
    requires n <= |readers| && i < |readers| && k < |readers| && i != k
    ensures InsideCount(readers, n) >=
      (if i < n && Inside(readers[i].pc) then 1 else 0) + (if k < n && Inside(readers[k].pc) then 1 else 0)
  {
    if n > 0 {
      InsideAtLeast(readers, i, k, n - 1);
    }
  }

  lemma {:induction false} NobodyInside(n: nat, m: nat, rounds: nat, k: nat)
    requires k <= n
    ensures InsideCount(Initial(n, m, rounds).readers, k) == 0
  {
    if k > 0 {
      NobodyInside(n, m, rounds, k - 1);
    }
  }

  lemma {:induction false} NothingWritten(n: nat, m: nat, rounds: nat, k: nat)
    requires k <= m
    ensures WrittenTotal(Initial(n, m, rounds).writers, rounds, k) == 0
  {
    if k > 0 {
      NothingWritten(n, m, rounds, k - 1);
    }
  }

  lemma InvInitially(n: nat, m: nat, rounds: nat)
    ensures Inv(Initial(n, m, rounds), rounds)
  {
    NobodyInside(n, m, rounds, n);
    NothingWritten(n, m, rounds, m);
  }

  /** A writer holds RW_LOCK only while it holds the turnstile. */
  lemma LockNeedsTurn(s: State, rounds: nat)
    requires Inv(s, rounds)
    ensures s.rwLock.owner.W? ==> s.turnstile.owner == s.rwLock.owner
  {
    if s.rwLock.owner.W? {
      assert WriterOk(s, s.rwLock.owner.j);
    }
  }

  /** A reader that counts itself as the first finds RW_LOCK free: writers hold it only with the turnstile. */
  lemma FirstReaderDoesNotBlock(s: State, rounds: nat, i: nat)
    requires Inv(s, rounds) && i < |s.readers| && s.readers[i].pc.Counted? && s.readCount == 1
    ensures s.rwLock == FREE
  {
    assert ReaderOk(s, i);
    LockNeedsTurn(s, rounds);
  }

  /** Who owns what, after a step of reader i. */
  lemma ReaderOwners(s: State, rounds: nat, i: nat, k: nat)
    requires Inv(s, rounds) && CanStep(s, R(i)) && k < |s.readers|
    ensures ReaderOk(ReaderStep(s, i), k)
  {
    assert ReaderOk(s, i) && ReaderOk(s, k);
  }

  lemma ReaderWriters(s: State, rounds: nat, i: nat, j: nat)
    requires Inv(s, rounds) && CanStep(s, R(i)) && j < |s.writers|
    ensures WriterOk(ReaderStep(s, i), j)
  {
    assert ReaderOk(s, i) && WriterOk(s, j);
    LockNeedsTurn(s, rounds);
  }

  /** The lock of the readers after a step of reader i. */
  lemma ReaderLock(s: State, rounds: nat, i: nat)
    requires Inv(s, rounds) && CanStep(s, R(i))
    ensures var s' := ReaderStep(s, i);
      && OwnersExist(s') && (s'.rwLock.owner == AllReaders <==> ReadersLock(s'))
      && s'.readCount == InsideCount(s'.readers, |s'.readers|)
  {
    var s' := ReaderStep(s, i);
    assert ReaderOk(s, i);
    if s.readers[i].pc.Counted? && s.readCount == 1 {
      FirstReaderDoesNotBlock(s, rounds, i);
    }
    InsideChange(s.readers, i, s'.readers[i], |s.readers|);
    assert s'.readers == s.readers[i := s'.readers[i]];
  }

  lemma ReaderInv(s: State, rounds: nat, i: nat)
    requires Inv(s, rounds) && CanStep(s, R(i))
    ensures Inv(ReaderStep(s, i), rounds)
  {
    var s' := ReaderStep(s, i);
    ReaderLock(s, rounds, i);
    forall k | 0 <= k < |s'.readers| ensures ReaderOk(s', k) {
      ReaderOwners(s, rounds, i, k);
    }
    forall j | 0 <= j < |s'.writers| ensures WriterOk(s', j) {
      ReaderWriters(s, rounds, i, j);
    }
  }

  lemma WriterInv(s: State, rounds: nat, j: nat)
    requires Inv(s, rounds) && CanStep(s, W(j))
    ensures Inv(WriterStep(s, j), rounds)
  {
    var s' := WriterStep(s, j);
    assert WriterOk(s, j);
    WrittenChange(s.writers, rounds, j, s'.writers[j], |s.writers|);
    forall k | 0 <= k < |s'.readers| ensures ReaderOk(s', k) {
      assert ReaderOk(s, k);
    }
    forall k | 0 <= k < |s'.writers| ensures WriterOk(s', k) {
      assert WriterOk(s, k);
    }
  }

  lemma InvStep(s: State, rounds: nat, w: Who)
    requires Inv(s, rounds) && CanStep(s, w)
    ensures Inv(Step(s, w), rounds)
  {
    if w.R? {
      ReaderInv(s, rounds, w.i);
    } else {
      WriterInv(s, rounds, w.j);
    }
  }

  // ---------------------------------------------------------------- what the protocol promises

  predicate Writing(pc: WriterPc) {
    pc.Loading? || pc.Storing?
  }

  /** A writer that writes is alone: no reader reads and no other writer writes. */
  lemma WriterExcludes(s: State, rounds: nat, j: nat)
    requires Inv(s, rounds) && j < |s.writers| && Writing(s.writers[j].pc)
    ensures forall i {:trigger s.readers[i]} :: 0 <= i < |s.readers| ==> !s.readers[i].pc.Reading?
    ensures forall k {:trigger s.writers[k]} :: 0 <= k < |s.writers| && k != j ==> !Writing(s.writers[k].pc)
  {
    assert WriterOk(s, j);
    forall i | 0 <= i < |s.readers| ensures !s.readers[i].pc.Reading? {
      ReadingHoldsLock(s, rounds, i);
    }
    forall k | 0 <= k < |s.writers| && k != j ensures !Writing(s.writers[k].pc) {
      assert WriterOk(s, k);
    }
  }

  /** What a reader sees does not change while it reads. */
  lemma ReadsAreStable(s: State, rounds: nat, i: nat, w: Who)
    requires Inv(s, rounds) && i < |s.readers| && s.readers[i].pc.Reading? && CanStep(s, w)
    ensures Step(s, w).sharedData == s.sharedData
  {
    if w.W? && Writing(s.writers[w.j].pc) {
      WriterExcludes(s, rounds, w.j);
    }
  }

  lemma ReadingHoldsLock(s: State, rounds: nat, i: nat)
    requires Inv(s, rounds) && i < |s.readers|
    ensures s.readers[i].pc.Reading? ==> s.rwLock.owner == AllReaders && s.readCount > 0
  {
    var m := s.mutex.owner;
    var k := if m.R? && m.i < |s.readers| && m.i != i then m.i else if i == 0 then 1 else 0;
    assert ReaderOk(s, i);
    assert m.R? ==> ReaderOk(s, m.i);
    if k < |s.readers| {
      InsideAtLeast(s.readers, i, k, |s.readers|);
    } else {
      InsideOne(s.readers, i, |s.readers|);
    }
  }

  lemma {:induction false} InsideOne(readers: seq<Reader>, i: nat, n: nat)
    requires n <= |readers| && i < |readers|
    ensures InsideCount(readers, n) >= if i < n && Inside(readers[i].pc) then 1 else 0
  {
    if n > 0 {
      InsideOne(readers, i, n - 1);
    }
  }

  lemma {:induction false} SomebodyInside(readers: seq<Reader>, n: nat) returns (i: nat)
    requires n <= |readers| && InsideCount(readers, n) > 0
    ensures i < n && Inside(readers[i].pc)
  {
    if Inside(readers[n - 1].pc) {
      i := n - 1;
    } else {
      i := SomebodyInside(readers, n - 1);
    }
  }

  /** While a writer has the turnstile no reader comes in: the readers it waits for can only become fewer. */
  lemma NoReaderOvertakes(s: State, rounds: nat, j: nat, w: Who, i: nat)
    requires Inv(s, rounds) && j < |s.writers| && s.writers[j].pc != Idle && CanStep(s, w) && i < |s.readers|
    ensures Inside(Step(s, w).readers[i].pc) ==> Inside(s.readers[i].pc)
    ensures Step(s, w).readCount <= s.readCount
  {
    assert WriterOk(s, j) && ReaderOk(s, i);
    assert w.R? ==> ReaderOk(s, w.i);
  }

  predicate Finished(s: State, w: Who) {
    match w
    case R(i) => i < |s.readers| && s.readers[i] == Reader(Resting, 0)
    case W(j) => j < |s.writers| && s.writers[j] == Writer(Idle, 0)
    case _ => false
  }

  predicate Exists(s: State, w: Who) {
    (w.R? && w.i < |s.readers|) || (w.W? && w.j < |s.writers|)
  }

  /** No reachable state is deadlocked: while somebody has not finished, somebody can take a step. */
  lemma NoDeadlock(s: State, rounds: nat, w: Who) returns (x: Who)
    requires Inv(s, rounds) && Exists(s, w) && !Finished(s, w)
    ensures CanStep(s, x)
  {
    if s.rwLock.owner.W? {
      x := s.rwLock.owner;
      assert WriterOk(s, x.j);
    } else if s.mutex.owner.R? {
      x := s.mutex.owner;
      assert ReaderOk(s, x.i);
      if s.readers[x.i].pc.Counted? && s.readCount == 1 {
        FirstReaderDoesNotBlock(s, rounds, x.i);
      }
    } else if s.readCount > 0 {
      var i := SomebodyInside(s.readers, |s.readers|);
      x := R(i);
      assert ReaderOk(s, i);
    } else if s.turnstile.owner != Nobody {
      x := s.turnstile.owner;
      assert x.R? ==> ReaderOk(s, x.i);
      assert x.W? ==> WriterOk(s, x.j);
    } else {
      x := w;
      assert x.R? ==> ReaderOk(s, x.i);
      assert x.W? ==> WriterOk(s, x.j);
    }
  }

  // ---------------------------------------------------------------- every run ends

  function ReaderRank(pc: ReaderPc): nat {
    match pc
    case Resting => 0
    case HasTurn => 1
    case HasMutex => 2
    case Counted => 3
    case Unlocking => 4
    case Leaving => 5
    case Reading => 6
    case Exiting => 7
    case Discounted => 8
    case ExitUnlocking => 9
  }

  function WriterRank(pc: WriterPc): nat {
    match pc
    case Idle => 0
    case Waiting => 1
    case Loading => 2
    case Storing(_) => 3
    case ReleasingLock => 4
    case ReleasingTurn => 5
  }

  /** The number of steps still to take: ten for each round of a reader, six for each round of a writer. */
  function ReaderWork(readers: seq<Reader>, n: nat): int
    requires n <= |readers|
  {
    if n == 0 then 0 else ReaderWork(readers, n - 1) + 10 * readers[n - 1].left - ReaderRank(readers[n - 1].pc)
  }

  function WriterWork(writers: seq<Writer>, n: nat): int
    requires n <= |writers|
  {
    if n == 0 then 0 else WriterWork(writers, n - 1) + 6 * writers[n - 1].left - WriterRank(writers[n - 1].pc)
  }

  function Work(s: State): int {
    ReaderWork(s.readers, |s.readers|) + WriterWork(s.writers, |s.writers|)
  }

  lemma {:induction false} ReaderWorkChange(readers: seq<Reader>, i: nat, x: Reader, n: nat)
    requires n <= |readers| && i < |readers|
    requires 10 * x.left - ReaderRank(x.pc) == 10 * readers[i].left - ReaderRank(readers[i].pc) - 1
    ensures ReaderWork(readers[i := x], n) == ReaderWork(readers, n) - if i < n then 1 else 0
  {
    if n > 0 {
      ReaderWorkChange(readers, i, x, n - 1);
    }
  }

  lemma {:induction false} WriterWorkChange(writers: seq<Writer>, j: nat, x: Writer, n: nat)
    requires n <= |writers| && j < |writers|
    requires 6 * x.left - WriterRank(x.pc) == 6 * writers[j].left - WriterRank(writers[j].pc) - 1
    ensures WriterWork(writers[j := x], n) == WriterWork(writers, n) - if j < n then 1 else 0
  {
    if n > 0 {
      WriterWorkChange(writers, j, x, n - 1);
    }
  }

  lemma ReaderWorks(s: State, rounds: nat, i: nat)
    requires Inv(s, rounds) && CanStep(s, R(i))
    ensures Work(ReaderStep(s, i)) == Work(s) - 1
  {
    var s' := ReaderStep(s, i);
    assert ReaderOk(s, i) && s'.readers == s.readers[i := s'.readers[i]];
    ReaderWorkChange(s.readers, i, s'.readers[i], |s.readers|);
  }

  lemma WriterWorks(s: State, rounds: nat, j: nat)
    requires Inv(s, rounds) && CanStep(s, W(j))
    ensures Work(WriterStep(s, j)) == Work(s) - 1
  {
    var s' := WriterStep(s, j);
    assert WriterOk(s, j) && s'.writers == s.writers[j := s'.writers[j]];
    WriterWorkChange(s.writers, j, s'.writers[j], |s.writers|);
  }

  lemma StepWorks(s: State, rounds: nat, w: Who)
    requires Inv(s, rounds) && CanStep(s, w)
    ensures Work(Step(s, w)) == Work(s) - 1
  {
    if w.R? {
      ReaderWorks(s, rounds, w.i);
    } else {
      WriterWorks(s, rounds, w.j);
    }
  }

  predicate Runs(s: State, schedule: seq<Who>)
    decreases |schedule|
  {
    schedule == [] || (CanStep(s, schedule[0]) && Runs(Step(s, schedule[0]), schedule[1..]))
  }

  function After(s: State, schedule: seq<Who>): State
    requires Runs(s, schedule)
    decreases |schedule|
  {
    if schedule == [] then s else After(Step(s, schedule[0]), schedule[1..])
  }

  lemma {:induction false} RunInv(s: State, rounds: nat, schedule: seq<Who>)
    requires Inv(s, rounds) && Runs(s, schedule)
    ensures var s' := After(s, schedule);
      && Inv(s', rounds) && Work(s') + |schedule| == Work(s)
      && |s'.readers| == |s.readers| && |s'.writers| == |s.writers|
    decreases |schedule|
  {
    if schedule != [] {
      InvStep(s, rounds, schedule[0]);
      StepWorks(s, rounds, schedule[0]);
      RunInv(Step(s, schedule[0]), rounds, schedule[1..]);
    }
  }

  lemma {:induction false} InitialWork(n: nat, m: nat, rounds: nat, a: nat, b: nat)
    requires a <= n && b <= m
    ensures ReaderWork(Initial(n, m, rounds).readers, a) == 10 * rounds * a
    ensures WriterWork(Initial(n, m, rounds).writers, b) == 6 * rounds * b
  {
    if a > 0 {
      InitialWork(n, m, rounds, a - 1, b);
    }
    if b > 0 {
      InitialWork(n, m, rounds, a, b - 1);
    }
  }

  lemma {:induction false} AllWritten(s: State, rounds: nat, n: nat)
    requires n <= |s.writers| && forall j {:trigger s.writers[j]} :: 0 <= j < n ==> s.writers[j] == Writer(Idle, 0)
    ensures WrittenTotal(s.writers, rounds, n) == rounds * n
  {
    if n > 0 {
      AllWritten(s, rounds, n - 1);
    }
  }

  /** Every run can go on until all processes have finished, however they are scheduled, and then shared_data
      counts the rounds of all writers. */
  lemma EveryRunCompletes(n: nat, m: nat, rounds: nat, schedule: seq<Who>)
    requires Runs(Initial(n, m, rounds), schedule)
    requires forall w {:trigger CanStep(After(Initial(n, m, rounds), schedule), w)} :: !CanStep(After(Initial(n, m,
        rounds), schedule), w)
    ensures var s := After(Initial(n, m, rounds), schedule);
      && (forall w {:trigger Finished(s, w)} :: Exists(s, w) ==> Finished(s, w))
      && s.sharedData == m * rounds && s.readCount == 0
      && s.turnstile == FREE && s.mutex == FREE && s.rwLock == FREE
    ensures |schedule| == 10 * rounds * n + 6 * rounds * m
  {
    var s0 := Initial(n, m, rounds);
    InvInitially(n, m, rounds);
    RunInv(s0, rounds, schedule);
    InitialWork(n, m, rounds, n, m);
    var s := After(s0, schedule);
    forall w | Exists(s, w) ensures Finished(s, w) {
      if !Finished(s, w) {
        var x := NoDeadlock(s, rounds, w);
        assert false;
      }
    }
    forall i | 0 <= i < |s.readers| ensures s.readers[i] == Reader(Resting, 0) {
      assert Finished(s, R(i));
    }
    forall j | 0 <= j < |s.writers| ensures s.writers[j] == Writer(Idle, 0) {
      assert Finished(s, W(j));
    }
    AllWritten(s, rounds, |s.writers|);
    AllFree(s, rounds);
    WorkSign(s, |s.readers|, |s.writers|);
  }

  lemma {:induction false} WorkSign(s: State, a: nat, b: nat)
    requires a <= |s.readers| && b <= |s.writers|
    requires forall i {:trigger s.readers[i]} :: 0 <= i < |s.readers| ==> s.readers[i] == Reader(Resting, 0)
    requires forall j {:trigger s.writers[j]} :: 0 <= j < |s.writers| ==> s.writers[j] == Writer(Idle, 0)
    ensures ReaderWork(s.readers, a) == 0 && WriterWork(s.writers, b) == 0
  {
    if a > 0 {
      WorkSign(s, a - 1, b);
    }
    if b > 0 {
      WorkSign(s, a, b - 1);
    }
  }

  lemma AllFree(s: State, rounds: nat)
    requires Inv(s, rounds)
    requires forall i {:trigger s.readers[i]} :: 0 <= i < |s.readers| ==> s.readers[i] == Reader(Resting, 0)
    requires forall j {:trigger s.writers[j]} :: 0 <= j < |s.writers| ==> s.writers[j] == Writer(Idle, 0)
    ensures s.readCount == 0 && s.turnstile == FREE && s.mutex == FREE && s.rwLock == FREE
  {
    assert s.turnstile.owner.R? ==> ReaderOk(s, s.turnstile.owner.i);
    assert s.turnstile.owner.W? ==> WriterOk(s, s.turnstile.owner.j);
    assert s.mutex.owner.R? ==> ReaderOk(s, s.mutex.owner.i);
    assert s.rwLock.owner.W? ==> WriterOk(s, s.rwLock.owner.j);
    if s.readCount > 0 {
      var i := SomebodyInside(s.readers, |s.readers|);
      assert false;
    }
  }
}
