/** prodcons.c: one producer and one consumer over a ring buffer, for any buffer size and any number of items. */
module ProducerConsumer {

  /** The producer's loop body, by the statement it is about to execute. */
  datatype ProducerPc =
    | DownEmpty | LockP | Put | AdvanceIn | UnlockP | UpFull

  datatype ConsumerPc =
    | DownFull | LockC | Take | AdvanceOut | UnlockC | UpEmpty

  /** `i` is the number of the item being produced (from 1), `j` the number of items taken off so far.  `produced`
      and `consumed` record what was put in and taken out. */
  datatype State = State(
    buf: seq<int>, inAt: nat, outAt: nat, mutex: int, empty: int, full: int,
    p: ProducerPc, i: nat, c: ConsumerPc, j: nat, produced: seq<int>, consumed: seq<int>)

  datatype Who = Producer | Consumer

  function Initial(buf: seq<int>): State {
    State(buf, 0, 0, 1, |buf|, 0, DownEmpty, 1, DownFull, 0, [], [])
  }

  predicate CanStep(s: State, w: Who, iters: nat) {
    && |s.buf| > 0 && s.inAt < |s.buf| && s.outAt < |s.buf|
    && match w
       case Producer =>
         s.i <= iters && (s.p.DownEmpty? ==> s.empty > 0) && (s.p.LockP? ==> s.mutex > 0)
       case Consumer =>
         s.j < iters && (s.c.DownFull? ==> s.full > 0) && (s.c.LockC? ==> s.mutex > 0)
  }

  function Step(s: State, w: Who, iters: nat): State
    requires CanStep(s, w, iters)
  {
    if w.Producer? then ProducerStep(s, iters) else ConsumerStep(s, iters)
  }

  function ProducerStep(s: State, iters: nat): State
    requires CanStep(s, Producer, iters)
  {
    match s.p
    case DownEmpty => s.(empty := s.empty - 1, p := LockP)
    case LockP => s.(mutex := s.mutex - 1, p := Put)
    case Put => s.(buf := s.buf[s.inAt := s.i], produced := s.produced + [s.i], p := AdvanceIn)
    case AdvanceIn => s.(inAt := (s.inAt + 1) % |s.buf|, p := UnlockP)
    case UnlockP => s.(mutex := s.mutex + 1, p := UpFull)
    case UpFull => s.(full := s.full + 1, i := s.i + 1, p := DownEmpty)
  }

  function ConsumerStep(s: State, iters: nat): State
    requires CanStep(s, Consumer, iters)
  {
    match s.c
    case DownFull => s.(full := s.full - 1, c := LockC)
    case LockC => s.(mutex := s.mutex - 1, c := Take)
    case Take => s.(consumed := s.consumed + [s.buf[s.outAt]], c := AdvanceOut)
    case AdvanceOut => s.(outAt := (s.outAt + 1) % |s.buf|, c := UnlockC)
    case UnlockC => s.(mutex := s.mutex + 1, c := UpEmpty)
    case UpEmpty => s.(empty := s.empty + 1, j := s.j + 1, c := DownFull)
  }

  // ---------------------------------------------------------------- the invariant

  function IntoBuffer(s: State): int {
    s.i - 1 + if s.p.AdvanceIn? || s.p.UnlockP? || s.p.UpFull? then 1 else 0
  }

  function OutOfBuffer(s: State): nat {
    s.j + if s.c.AdvanceOut? || s.c.UnlockC? || s.c.UpEmpty? then 1 else 0
  }

  function TransitP(s: State): int {
    if s.p.DownEmpty? then 0 else 1
  }

  function TransitC(s: State): int {
    if s.c.DownFull? then 0 else 1
  }

  predicate LockedP(s: State) {
    s.p.Put? || s.p.AdvanceIn? || s.p.UnlockP?
  }

  predicate LockedC(s: State) {
    s.c.Take? || s.c.AdvanceOut? || s.c.UnlockC?
  }

  ghost predicate Counters(s: State, iters: nat) {
    && |s.buf| > 0 && 1 <= s.i <= iters + 1 && s.j <= iters
    && (s.i == iters + 1 ==> s.p.DownEmpty?) && (s.j == iters ==> s.c.DownFull?)
    && s.mutex == 1 - (if LockedP(s) then 1 else 0) - (if LockedC(s) then 1 else 0) && s.mutex >= 0
    && s.full == s.i - 1 - s.j - TransitC(s) && s.full >= 0
    && s.empty == |s.buf| - (s.i - 1) - TransitP(s) + s.j && s.empty >= 0
    && s.inAt == (s.i - 1 + if s.p.UnlockP? || s.p.UpFull? then 1 else 0) % |s.buf|
    && s.outAt == (s.j + if s.c.UnlockC? || s.c.UpEmpty? then 1 else 0) % |s.buf|
  }

  /** The numbers 1, 2, ..., n. */
  function UpTo(n: nat): (s: seq<int>)
    ensures |s| == n && forall x {:trigger s[x]} :: 0 <= x < n ==> s[x] == x + 1
  {
    if n == 0 then [] else UpTo(n - 1) + [n]
  }

  /** Item x is still in the buffer, in its slot. */
  ghost predicate InSlot(s: State, x: nat)
    requires |s.buf| > 0
  {
    s.buf[x % |s.buf|] == x + 1
  }

  ghost predicate Inv(s: State, iters: nat) {
    && Counters(s, iters)
    && s.produced == UpTo(IntoBuffer(s)) && s.consumed == UpTo(OutOfBuffer(s))
    && (forall x: nat {:trigger InSlot(s, x)} :: OutOfBuffer(s) <= x < IntoBuffer(s) ==> InSlot(s, x))
  }

  /** Items that are less than a buffer length apart are in different slots. */
  lemma SlotsDiffer(x: nat, y: nat, n: nat)
    requires n > 0 && x < y < x + n
    ensures x % n != y % n
  {
    var q := y / n - x / n;
    assert y - x == n * q + y % n - x % n;
  }

  /** Advancing an index modulo n is the index of the next item. */
  lemma NextSlot(x: nat, n: nat)
    requires n > 0
    ensures (x % n + 1) % n == (x + 1) % n
  {
    NextRemainder(x, x / n, x % n, n);
    NextRemainder(x % n, 0, x % n, n);
  }

  lemma NextRemainder(x: nat, q: nat, r: nat, n: nat)
    requires n > 0 && r < n && x == n * q + r
    ensures (x + 1) % n == if r + 1 == n then 0 else r + 1
  {
    if r + 1 == n {
      assert n * (q + 1) == n * q + n;
      Remainder(x + 1, q + 1, 0, n);
    } else {
      Remainder(x + 1, q, r + 1, n);
    }
  }

  lemma Remainder(x: nat, q: nat, r: nat, n: nat)
    requires n > 0 && r < n && x == n * q + r
    ensures x % n == r
  {
    var d := x / n - q;
    assert n * d == r - x % n;
  }

  lemma InvInitially(buf: seq<int>, iters: nat)
    requires |buf| > 0
    ensures Inv(Initial(buf), iters)
  {
  }

  lemma ProducerSlots(s: State, iters: nat, x: nat)
    requires Inv(s, iters) && CanStep(s, Producer, iters)
    requires OutOfBuffer(s) <= x < IntoBuffer(ProducerStep(s, iters))
    ensures InSlot(ProducerStep(s, iters), x)
  {
    if x < IntoBuffer(s) {
      assert InSlot(s, x);
      if s.p.Put? {
        SlotsDiffer(x, s.i - 1, |s.buf|);
      }
    }
  }

  lemma ProducerInv(s: State, iters: nat)
    requires Inv(s, iters) && CanStep(s, Producer, iters)
    ensures Inv(ProducerStep(s, iters), iters)
  {
    var s' := ProducerStep(s, iters);
    NextSlot(s.i - 1, |s.buf|);
    forall x: nat | OutOfBuffer(s') <= x < IntoBuffer(s') ensures InSlot(s', x) {
      ProducerSlots(s, iters, x);
    }
  }

  lemma ConsumerInv(s: State, iters: nat)
    requires Inv(s, iters) && CanStep(s, Consumer, iters)
    ensures Inv(ConsumerStep(s, iters), iters)
  {
    var s' := ConsumerStep(s, iters);
    NextSlot(s.j, |s.buf|);
    if s.c.Take? {
      assert InSlot(s, s.j);
    }
    forall x: nat | OutOfBuffer(s') <= x < IntoBuffer(s') ensures InSlot(s', x) {
      assert InSlot(s, x);
    }
  }

  // ---------------------------------------------------------------- what the protocol promises

  /** The buffer never over- or underflows, units of EMPTY and FULL are only ever in transit, and what has been
      consumed is the beginning of what has been produced. */
  lemma Safe(s: State, iters: nat)
    requires Inv(s, iters)
    ensures 0 <= |s.produced| - |s.consumed| <= |s.buf| && s.consumed <= s.produced
    ensures s.empty + s.full + TransitP(s) + TransitC(s) == |s.buf|
    ensures !(LockedP(s) && LockedC(s))
  {
  }

  /** Somebody can always go on until everything has been consumed. */
  lemma NoDeadlock(s: State, iters: nat)
    requires Inv(s, iters)
    ensures CanStep(s, Producer, iters) || CanStep(s, Consumer, iters) || (s.i == iters + 1 && s.j == iters)
  {
  }

  function RankP(p: ProducerPc): nat {
    match p
    case DownEmpty => 0 case LockP => 1 case Put => 2 case AdvanceIn => 3 case UnlockP => 4 case UpFull => 5
  }

  function RankC(c: ConsumerPc): nat {
    match c
    case DownFull => 0 case LockC => 1 case Take => 2 case AdvanceOut => 3 case UnlockC => 4 case UpEmpty => 5
  }

  function Work(s: State, iters: nat): int {
    6 * (iters + 1 - s.i) - RankP(s.p) + 6 * (iters - s.j) - RankC(s.c)
  }

  predicate Runs(s: State, schedule: seq<Who>, iters: nat)
    decreases |schedule|
  {
    schedule == [] || (CanStep(s, schedule[0], iters) && Runs(Step(s, schedule[0], iters), schedule[1..], iters))
  }

  function After(s: State, schedule: seq<Who>, iters: nat): State
    requires Runs(s, schedule, iters)
    decreases |schedule|
  {
    if schedule == [] then s else After(Step(s, schedule[0], iters), schedule[1..], iters)
  }

  lemma StepInv(s: State, w: Who, iters: nat)
    requires Inv(s, iters) && CanStep(s, w, iters)
    ensures Inv(Step(s, w, iters), iters) && Work(Step(s, w, iters), iters) == Work(s, iters) - 1
  {
    if w.Producer? {
      ProducerInv(s, iters);
    } else {
      ConsumerInv(s, iters);
    }
  }

  lemma {:induction false} RunInv(s: State, schedule: seq<Who>, iters: nat)
    requires Inv(s, iters) && Runs(s, schedule, iters)
    ensures Inv(After(s, schedule, iters), iters)
    ensures Work(After(s, schedule, iters), iters) + |schedule| == Work(s, iters)
    decreases |schedule|
  {
    if schedule != [] {
      StepInv(s, schedule[0], iters);
      RunInv(Step(s, schedule[0], iters), schedule[1..], iters);
    }
  }

  /** However the two are scheduled: the consumed items are always a prefix of the produced ones, a run that
      cannot go on has consumed exactly 1, 2, ..., iters in this order, and every run gets there. */
  lemma EveryRunConsumesAll(buf: seq<int>, iters: nat, schedule: seq<Who>)
    requires |buf| > 0 && Runs(Initial(buf), schedule, iters)
    ensures |schedule| <= 12 * iters
    ensures var s := After(Initial(buf), schedule, iters);
      && s.consumed <= s.produced && |s.produced| - |s.consumed| <= |buf|
      && (!CanStep(s, Producer, iters) && !CanStep(s, Consumer, iters) <==> |schedule| == 12 * iters)
      && (|schedule| == 12 * iters ==> s.consumed == s.produced == UpTo(iters))
  {
    InvInitially(buf, iters);
    RunInv(Initial(buf), schedule, iters);
    var s := After(Initial(buf), schedule, iters);
    BufferSize(Initial(buf), schedule, iters);
    Safe(s, iters);
    NoDeadlock(s, iters);
  }

  lemma {:induction false} BufferSize(s: State, schedule: seq<Who>, iters: nat)
    requires Runs(s, schedule, iters)
    ensures |After(s, schedule, iters).buf| == |s.buf|
    decreases |schedule|
  {
    if schedule != [] {
      BufferSize(Step(s, schedule[0], iters), schedule[1..], iters);
    }
  }
}
