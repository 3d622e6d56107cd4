/** The priority scheduler of kernel/proc.c with its aging, on one CPU. */
module Scheduler {
  // A circular scan for the best priority, and promotion of processes that have waited for 30 timer ticks.

  datatype ProcState = UNUSED | USED | SLEEPING | RUNNABLE | RUNNING | ZOMBIE

  /** The fields of struct proc that the scheduler reads or writes. */
  datatype Entry = Entry(pid: int, state: ProcState, priority: int, waitTicks: int)

  const LOWEST: int := 20
  const AGE_LIMIT: int := 30

  /** What holds of every entry at all times. */
  predicate EntryOk(e: Entry) {
    1 <= e.priority <= LOWEST && 0 <= e.waitTicks < AGE_LIMIT
  }

  ghost predicate TableOk(table: seq<Entry>) {
    forall i {:trigger table[i]} :: 0 <= i < |table| ==> EntryOk(table[i])
  }

  /** How many slots the circular scan visits before slot i. */
  function Distance(cursor: nat, i: nat, n: nat): (d: nat)
    requires cursor < n && i < n
    ensures d < n
  {
    if i >= cursor then i - cursor else i + n - cursor
  }

  /** The slot visited after `off` others, as the source computes it. */
  lemma ScanOrder(cursor: nat, off: nat, n: nat)
    requires cursor < n && off < n
    ensures (cursor + off) % n < n && Distance(cursor, (cursor + off) % n, n) == off
  {
    if cursor + off < n {
      assert (cursor + off) % n == cursor + off;
    } else {
      assert (cursor + off) % n == cursor + off - n;
    }
  }

  /** Slot i precedes slot j: a better priority, or the same one and met earlier. */
  predicate Before(table: seq<Entry>, cursor: nat, i: nat, j: nat)
    requires cursor < |table| && i < |table| && j < |table|
  {
    || table[i].priority < table[j].priority
    || (table[i].priority == table[j].priority && Distance(cursor, i, |table|) < Distance(cursor, j, |table|))
  }

  ghost predicate IsBest(table: seq<Entry>, cursor: nat, b: nat)
    requires cursor < |table|
  {
    && b < |table| && table[b].state == RUNNABLE
    && forall j {:trigger table[j]} :: 0 <= j < |table| && j != b && table[j].state == RUNNABLE ==>
         Before(table, cursor, b, j)
  }

  function AgedEntry(e: Entry): Entry {
    if e.state != RUNNABLE then e.(waitTicks := 0)
    else if e.waitTicks + 1 < AGE_LIMIT then e.(waitTicks := e.waitTicks + 1)
    else e.(waitTicks := 0, priority := if e.priority > 1 then e.priority - 1 else e.priority)
  }

  function Aged(table: seq<Entry>): seq<Entry> {
    seq(|table|, i requires 0 <= i < |table| => AgedEntry(table[i]))
  }

  function Dispatched(table: seq<Entry>, b: nat): seq<Entry>
    requires b < |table|
  {
    table[b := table[b].(waitTicks := 0, state := RUNNING)]
  }

  class Cpu {
    const proc: array<Entry>
    var cursor: nat

    ghost predicate Valid()
      reads this, proc
    {
      cursor < proc.Length && TableOk(proc[..])
    }

    /** procinit: an empty table, with the default priority that allocproc and freeproc set. */
    constructor (nproc: nat)
      requires nproc > 0
      ensures Valid() && cursor == 0 && proc.Length == nproc && fresh(proc)
      ensures forall j :: 0 <= j < nproc ==> proc[j].state == UNUSED && proc[j].priority == 10 && proc[j].waitTicks == 0
    {
      proc := new Entry[nproc](i => Entry(0, UNUSED, 10, 0));
      cursor := 0;
    }

    /** The scan of scheduler(): the best runnable process, or -1. */
    method PickBest() returns (best: int)
      requires Valid()
      ensures best == -1 ==> forall j :: 0 <= j < proc.Length ==> proc[j].state != RUNNABLE
      ensures best != -1 ==> 0 <= best && IsBest(proc[..], cursor, best)
    {
      best := -1;
      var bestPriority := 21;
      var off, n := 0, proc.Length;
      while off < n
        invariant 0 <= off <= n
        invariant best == -1 ==> bestPriority == 21
        invariant best != -1 ==> 0 <= best < n && proc[best].state == RUNNABLE && proc[best].priority == bestPriority
        invariant best != -1 ==> Distance(cursor, best, n) < off
        invariant forall j {:trigger proc[j]} ::
                    0 <= j < n && Distance(cursor, j, n) < off && proc[j].state == RUNNABLE ==>
                    best != -1 && (j == best || Before(proc[..], cursor, best, j))
      {
        var index := (cursor + off) % n;
        ScanOrder(cursor, off, n);
        assert forall j :: 0 <= j < n && Distance(cursor, j, n) == off ==> j == index;
        assert EntryOk(proc[..][index]);
        if proc[index].state == RUNNABLE && proc[index].priority < bestPriority {
          best := index;
          bestPriority := proc[index].priority;
        }
        off := off + 1;
      }
    }

    /** One round of scheduler's loop up to the context switch: the best process runs and has waited no tick, and nobody
        else notices. */
    method Dispatch() returns (best: int)
      requires Valid()
      modifies this, proc
      ensures Valid()
      ensures best == -1 ==> proc[..] == old(proc[..]) && cursor == old(cursor)
      ensures best == -1 ==> forall j :: 0 <= j < proc.Length ==> proc[j].state != RUNNABLE
      ensures best != -1 ==> 0 <= best && IsBest(old(proc[..]), old(cursor), best)
      ensures best != -1 ==> proc[best].state == RUNNING && proc[best].waitTicks == 0
      ensures best != -1 ==> proc[best].pid == old(proc[best].pid) && proc[best].priority == old(proc[best].priority)
      ensures best != -1 ==> forall j :: 0 <= j < proc.Length && j != best ==> proc[j] == old(proc[j])
      ensures best != -1 ==> proc[..] == Dispatched(old(proc[..]), best) && cursor == (best + 1) % proc.Length
    {
      ghost var table := proc[..];
      best := PickBest();
      if best != -1 {
        if proc[best].state == RUNNABLE {
          proc[best] := proc[best].(waitTicks := 0);
          proc[best] := proc[best].(state := RUNNING);
          cursor := (best + 1) % proc.Length;
        }
        assert proc[..] == Dispatched(table, best);
      }
    }

    /** age_processes, called once per timer tick: a process that waits has waited one tick more, and with the 30th is
        promoted by one and starts again; one that does not wait has waited no tick. */
    method AgeProcesses()
      requires Valid()
      modifies proc
      ensures Valid() && proc[..] == Aged(old(proc[..]))
      ensures forall j :: 0 <= j < proc.Length ==>
                proc[j].pid == old(proc[j].pid) && proc[j].state == old(proc[j].state)
      ensures forall j :: 0 <= j < proc.Length && old(proc[j].state) != RUNNABLE ==>
                proc[j].priority == old(proc[j].priority) && proc[j].waitTicks == 0
      ensures forall j :: 0 <= j < proc.Length && old(proc[j].state) == RUNNABLE && old(proc[j].waitTicks) < 29 ==>
                proc[j].priority == old(proc[j].priority) && proc[j].waitTicks == old(proc[j].waitTicks) + 1
      ensures forall j :: 0 <= j < proc.Length && old(proc[j].state) == RUNNABLE && old(proc[j].waitTicks) == 29 ==>
                proc[j].waitTicks == 0 &&
                proc[j].priority == if old(proc[j].priority) == 1 then 1 else old(proc[j].priority) - 1
    {
      ghost var table := proc[..];
      var p := 0;
      while p < proc.Length
        invariant 0 <= p <= proc.Length
        invariant forall j {:trigger proc[j]} :: 0 <= j < proc.Length ==>
            proc[j] == if j < p then AgedEntry(table[j]) else table[j]
      {
        if proc[p].state == RUNNABLE {
          proc[p] := proc[p].(waitTicks := proc[p].waitTicks + 1);
          if proc[p].waitTicks >= 30 {
            if proc[p].priority > 1 {
              proc[p] := proc[p].(priority := proc[p].priority - 1);
            }
            proc[p] := proc[p].(waitTicks := 0);
          }
        } else {
          proc[p] := proc[p].(waitTicks := 0);
        }
        p := p + 1;
      }
      assert forall j :: 0 <= j < |table| ==> EntryOk(table[j]);
    }

    /** ksetpriority: the first used slot with this pid, if the priority is in range. */
    method KSetPriority(pid: int, priority: int) returns (ok: bool)
      requires Valid()
      modifies proc
      ensures Valid()
      ensures !ok ==> proc[..] == old(proc[..])
      ensures !ok <==> priority < 1 || priority > 20 || !old(Exists(proc[..], pid))
      ensures ok ==> exists i: nat :: First(old(proc[..]), pid, i)
                                 && proc[..] == old(proc[..])[i := old(proc[i]).(priority := priority, waitTicks := 0)]
    {
      if priority < 1 || priority > 20 {
        return false;
      }
      ghost var table := proc[..];
      var p := 0;
      while p < proc.Length
        invariant 0 <= p <= proc.Length && proc[..] == table
        invariant forall j {:trigger proc[j]} :: 0 <= j < p ==> !(proc[j].pid == pid && proc[j].state != UNUSED)
      {
        if proc[p].pid == pid && proc[p].state != UNUSED {
          assert First(table, pid, p);
          proc[p] := proc[p].(priority := priority);
          proc[p] := proc[p].(waitTicks := 0);
          assert proc[..] == table[p := table[p].(priority := priority, waitTicks := 0)];
          return true;
        }
        p := p + 1;
      }
      return false;
    }
  }

  ghost predicate Exists(table: seq<Entry>, pid: int) {
    exists i {:trigger table[i]} :: 0 <= i < |table| && table[i].pid == pid && table[i].state != UNUSED
  }

  ghost predicate First(table: seq<Entry>, pid: int, i: nat) {
    && i < |table| && table[i].pid == pid && table[i].state != UNUSED
    && forall j {:trigger table[j]} :: 0 <= j < i ==> !(table[j].pid == pid && table[j].state != UNUSED)
  }

  // ---------------------------------------------------------------- runs

  /** The scheduler picks process b, the timer ticks, or anything else happens to the table: processes yield,
      sleep, wake, fork, exit or change priorities. */
  datatype Event = Pick(b: nat) | Tick | Others(table: seq<Entry>)

  datatype State = State(table: seq<Entry>, cursor: nat)

  ghost predicate Ok(s: State) {
    s.cursor < |s.table| && TableOk(s.table)
  }

  ghost predicate Enabled(s: State, e: Event)
    requires Ok(s)
  {
    match e
    case Pick(b) => IsBest(s.table, s.cursor, b)
    case Tick => true
    case Others(table) => |table| == |s.table| && TableOk(table)
  }

  ghost function Step(s: State, e: Event): (s': State)
    requires Ok(s) && Enabled(s, e)
    ensures Ok(s') && |s'.table| == |s.table|
  {
    match e
    case Pick(b) => State(Dispatched(s.table, b), (b + 1) % |s.table|)
    case Tick => AgedOk(s.table); State(Aged(s.table), s.cursor)
    case Others(table) => State(table, s.cursor)
  }

  lemma AgedOk(table: seq<Entry>)
    requires TableOk(table)
    ensures TableOk(Aged(table))
  {
    forall i | 0 <= i < |table| ensures EntryOk(Aged(table)[i]) {
      assert EntryOk(table[i]);
    }
  }

  /** A run in which nothing but the timer and the scheduler makes process q runnable: whatever else happens leaves it
      in another state. */
  ghost predicate KeepsOff(s: State, es: seq<Event>, q: nat)
    requires Ok(s) && q < |s.table|
    decreases |es|
  {
    es == [] ||
    (Enabled(s, es[0]) && (es[0].Others? ==> es[0].table[q].state != RUNNABLE) && KeepsOff(Step(s, es[0]), es[1..], q))
  }

  /** A process that was picked is running, and is not picked again before some other event makes it runnable. */
  lemma PickedOnce(s: State, es: seq<Event>, b: nat)
    requires Ok(s) && Enabled(s, Pick(b)) && KeepsOff(Step(s, Pick(b)), es, b)
    ensures Step(s, Pick(b)).table[b].state == RUNNING && Pick(b) !in es
  {
    NotPicked(Step(s, Pick(b)), es, b);
  }

  lemma {:induction false} NotPicked(s: State, es: seq<Event>, q: nat)
    requires Ok(s) && q < |s.table| && s.table[q].state != RUNNABLE && KeepsOff(s, es, q)
    ensures Pick(q) !in es
    decreases |es|
  {
    if es != [] {
      NotPicked(Step(s, es[0]), es[1..], q);
    }
  }

  /** A run in which process q is passed over: it stays runnable, nobody sets its priority, and it is never
      picked. */
  ghost predicate PassesOver(s: State, es: seq<Event>, q: nat)
    requires Ok(s) && q < |s.table|
    decreases |es|
  {
    es == [] || (Enabled(s, es[0]) && Leaves(s, es[0], q) && PassesOver(Step(s, es[0]), es[1..], q))
  }

  ghost predicate Leaves(s: State, e: Event, q: nat)
    requires Ok(s) && q < |s.table| && Enabled(s, e)
  {
    match e
    case Pick(b) => b != q
    case Tick => true
    case Others(table) => table[q] == s.table[q]
  }

  ghost function After(s: State, es: seq<Event>, q: nat): (s': State)
    requires Ok(s) && q < |s.table| && PassesOver(s, es, q)
    ensures Ok(s') && |s'.table| == |s.table|
    decreases |es|
  {
    if es == [] then s else After(Step(s, es[0]), es[1..], q)
  }

  function Ticks(es: seq<Event>): nat {
    if es == [] then 0 else (if es[0].Tick? then 1 else 0) + Ticks(es[1..])
  }

  function Picks(es: seq<Event>): nat {
    if es == [] then 0 else (if es[0].Pick? then 1 else 0) + Picks(es[1..])
  }

  /** 30 * priority - wait_ticks. */
  function Patience(e: Entry): int {
    AGE_LIMIT * e.priority - e.waitTicks
  }

  /** A tick takes exactly one off the patience of a waiting process until its priority is 1, and then the
      priority stays. */
  lemma TickAges(e: Entry)
    requires EntryOk(e) && e.state == RUNNABLE
    ensures AgedEntry(e).state == RUNNABLE
    ensures e.priority > 1 ==> Patience(AgedEntry(e)) == Patience(e) - 1
    ensures e.priority == 1 ==> AgedEntry(e).priority == 1
  {
  }

  /** Over a run that passes q over, the patience falls by exactly the number of ticks, until priority 1. */
  lemma {:induction false} RunAges(s: State, es: seq<Event>, q: nat)
    requires Ok(s) && q < |s.table| && s.table[q].state == RUNNABLE && PassesOver(s, es, q)
    ensures var e := After(s, es, q).table[q];
      && e.state == RUNNABLE
      && (e.priority > 1 ==> Patience(e) == Patience(s.table[q]) - Ticks(es))
      && (s.table[q].priority == 1 ==> e.priority == 1)
    decreases |es|
  {
    if es != [] {
      assert EntryOk(s.table[q]);
      TickAges(s.table[q]);
      RunAges(Step(s, es[0]), es[1..], q);
    }
  }

  /** After that many ticks the priority is 1. */
  lemma PromotedBy(s: State, es: seq<Event>, q: nat)
    requires Ok(s) && q < |s.table| && s.table[q].state == RUNNABLE && PassesOver(s, es, q)
    requires Ticks(es) >= Patience(s.table[q]) - AGE_LIMIT
    ensures After(s, es, q).table[q].state == RUNNABLE && After(s, es, q).table[q].priority == 1
  {
    RunAges(s, es, q);
    assert EntryOk(After(s, es, q).table[q]);
  }

  /** The slot after b in the circle. */
  lemma SlotAfter(b: nat, n: nat)
    requires b < n
    ensures (b + 1) % n == if b + 1 == n then 0 else b + 1
  {
  }

  /** Moving the cursor past a slot that comes before q brings it closer to q. */
  lemma CursorApproaches(cursor: nat, b: nat, q: nat, n: nat)
    requires cursor < n && b < n && q < n && Distance(cursor, b, n) < Distance(cursor, q, n)
    ensures (b + 1) % n < n && Distance((b + 1) % n, q, n) < Distance(cursor, q, n)
  {
    SlotAfter(b, n);
    if b + 1 == n {
      assert Distance(0, q, n) == q;
    } else {
      assert Distance(b + 1, q, n) == if q > b then q - (b + 1) else q + n - (b + 1);
    }
  }

  /** At priority 1, every pick of another process brings the cursor strictly closer. */
  lemma PickApproaches(s: State, b: nat, q: nat)
    requires Ok(s) && q < |s.table| && s.table[q].state == RUNNABLE && s.table[q].priority == 1
    requires IsBest(s.table, s.cursor, b) && b != q
    ensures Distance((b + 1) % |s.table|, q, |s.table|) < Distance(s.cursor, q, |s.table|)
  {
    assert EntryOk(s.table[b]);
    assert Before(s.table, s.cursor, b, q);
    CursorApproaches(s.cursor, b, q, |s.table|);
  }

  lemma {:induction false} RunApproaches(s: State, es: seq<Event>, q: nat)
    requires Ok(s) && q < |s.table| && s.table[q].state == RUNNABLE && s.table[q].priority == 1
    requires PassesOver(s, es, q)
    ensures Distance(After(s, es, q).cursor, q, |s.table|) <= Distance(s.cursor, q, |s.table|) - Picks(es)
    decreases |es|
  {
    if es != [] {
      assert EntryOk(s.table[q]);
      if es[0].Pick? {
        PickApproaches(s, es[0].b, q);
      }
      RunApproaches(Step(s, es[0]), es[1..], q);
    }
  }

  /** No starvation: once q has waited 30 * (priority - 1) - wait_ticks ticks, it cannot be passed over for as
      many picks as the table has slots. */
  lemma NoStarvation(s: State, es1: seq<Event>, es2: seq<Event>, q: nat)
    requires Ok(s) && q < |s.table| && s.table[q].state == RUNNABLE && PassesOver(s, es1, q)
    requires Ticks(es1) >= Patience(s.table[q]) - AGE_LIMIT
    requires PassesOver(After(s, es1, q), es2, q)
    ensures Picks(es2) < |s.table|
  {
    PromotedBy(s, es1, q);
    RunApproaches(After(s, es1, q), es2, q);
  }

  /** While some process is runnable there is exactly one that the scheduler can pick. */
  lemma BestExists(s: State, q: nat)
    requires Ok(s) && q < |s.table| && s.table[q].state == RUNNABLE
    ensures exists b: nat :: IsBest(s.table, s.cursor, b)
    ensures forall b: nat, c: nat :: IsBest(s.table, s.cursor, b) && IsBest(s.table, s.cursor, c) ==> b == c
  {
    var b := BestAmong(s.table, s.cursor, q, |s.table|);
    assert IsBest(s.table, s.cursor, b);
  }

  lemma {:induction false} BestAmong(table: seq<Entry>, cursor: nat, q: nat, n: nat) returns (b: nat)
    requires cursor < |table| && q < |table| && table[q].state == RUNNABLE && n <= |table|
    ensures b < |table| && table[b].state == RUNNABLE
    ensures forall j {:trigger table[j]} :: (0 <= j < n || j == q) && j != b && table[j].state == RUNNABLE ==>
              Before(table, cursor, b, j)
  {
    if n == 0 {
      b := q;
    } else {
      b := BestAmong(table, cursor, q, n - 1);
      if table[n - 1].state == RUNNABLE && n - 1 != b && !Before(table, cursor, b, n - 1) {
        b := n - 1;
      }
    }
  }
}
