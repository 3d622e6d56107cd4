/** The semaphores of kernel/sysproc.c on top of sleep_prepare, sleep and wakeup of kernel/proc.c. */
module Semaphores {
  // Steps are taken at the granularity of the locks, by any number of processes on any number of semaphores.

  /** p->chan: a semaphore, or any other channel of the kernel. */
  datatype Chan = NoChan | OnSem(id: nat) | OnOther(c: nat)

  /** Where a process is in sys_sem_wait or sys_sem_signal of a semaphore. */
  datatype Pc =
    | Outside                   // not in a semaphore call
    | Entering(id: nat)         // sem_wait: about to acquire the semaphore's lock for the first time
    | Testing(id: nat)          // at the head of the while loop, with the lock
    | Preparing(id: nat)        // saw 0, about to call sleep_prepare, with the lock
    | Releasing(id: nat)        // registered, about to release the lock
    | Sleeping(id: nat)         // about to call sleep
    | Asleep(id: nat)           // inside sched, until the scheduler runs the process again
    | Reacquiring(id: nat)      // back from sleep, without the lock
    | Checking(id: nat)         // about to test killed, with the lock
    | SignalEntering(id: nat)   // sem_signal: about to acquire the lock
    | Waking(id: nat, k: nat)   // has added a unit; wakeup is about to lock process k

  /** `sleeping` is state == SLEEPING; `result` is what the last semaphore call returned. */
  datatype Proc = Proc(pc: Pc, chan: Chan, sleeping: bool, killed: bool, result: int)

  datatype Lock = Free | HeldBy(p: nat)

  datatype Semaphore = Semaphore(value: int, initialized: bool, lk: Lock)

  datatype System = System(procs: seq<Proc>, sems: seq<Semaphore>)

  datatype Event =
    | Init(id: nat, value: int)       // sem_init, before the semaphore is used
    | CallWait(p: nat, id: nat)
    | CallSignal(p: nat, id: nat)
    | Advance(p: nat)                 // the next step of a call in progress
    | Kill(p: nat)                    // kkill
    | Elsewhere(p: nat, chan: Chan)   // other kernel code registers the process, or a wakeup there clears it

  // ---------------------------------------------------------------- the steps

  function InitialSystem(n: nat, m: nat): System {
    System(seq(n, i => Proc(Outside, NoChan, false, false, 0)),
           seq(m, i => Semaphore(0, false, Free)))
  }

  /** A process about to acquire a lock needs it free; a process inside sched needs to have been made runnable. */
  predicate Enabled(s: System, e: Event) {
    match e
    case Init(id, value) => id < |s.sems| && value >= 0 && !s.sems[id].initialized && s.sems[id].lk.Free?
    case CallWait(p, id) => p < |s.procs| && s.procs[p].pc.Outside? && id < |s.sems|
    case CallSignal(p, id) => p < |s.procs| && s.procs[p].pc.Outside? && id < |s.sems|
    case Advance(p) => p < |s.procs| && CanAdvance(s, p)
    case Kill(p) => p < |s.procs|
    case Elsewhere(p, chan) => p < |s.procs| && s.procs[p].pc.Outside? && !chan.OnSem?
  }

  predicate CanAdvance(s: System, p: nat)
    requires p < |s.procs|
  {
    var pc := s.procs[p].pc;
    && !pc.Outside? && pc.id < |s.sems|
    && (pc.Entering? || pc.Reacquiring? || pc.SignalEntering? ==> s.sems[pc.id].lk.Free?)
    && (pc.Asleep? ==> !s.procs[p].sleeping)
  }

  function Step(s: System, e: Event): (s': System)
    requires Enabled(s, e)
    ensures |s'.procs| == |s.procs| && |s'.sems| == |s.sems|
  {
    match e
    case Init(id, value) => s.(sems := s.sems[id := Semaphore(value, true, Free)])
    case CallWait(p, id) => Goto(s, p, Entering(id))
    case CallSignal(p, id) => Goto(s, p, SignalEntering(id))
    case Advance(p) => AdvanceStep(s, p)
    case Kill(p) => s.(procs := s.procs[p := s.procs[p].(killed := true, sleeping := false)])
    case Elsewhere(p, chan) => s.(procs := s.procs[p := s.procs[p].(chan := chan)])
  }

  function Goto(s: System, p: nat, pc: Pc): System
    requires p < |s.procs|
  {
    s.(procs := s.procs[p := s.procs[p].(pc := pc)])
  }

  function Return(s: System, p: nat, result: int): System
    requires p < |s.procs|
  {
    s.(procs := s.procs[p := s.procs[p].(pc := Outside, result := result)])
  }

  function SetLock(s: System, id: nat, lk: Lock): System
    requires id < |s.sems|
  {
    s.(sems := s.sems[id := s.sems[id].(lk := lk)])
  }

  function AdvanceStep(s: System, p: nat): System
    requires p < |s.procs| && CanAdvance(s, p)
  {
    var me, id := s.procs[p], s.procs[p].pc.id;
    var sem := s.sems[id];
    match me.pc
    case Entering(_) =>
      if sem.initialized then Goto(SetLock(s, id, HeldBy(p)), p, Testing(id)) else Return(s, p, -1)
    case Testing(_) =>
      if sem.value == 0 then Goto(s, p, Preparing(id))
      else Return(s.(sems := s.sems[id := sem.(value := sem.value - 1, lk := Free)]), p, 0)
    case Preparing(_) =>
      s.(procs := s.procs[p := me.(pc := Releasing(id), chan := OnSem(id))])
    case Releasing(_) => Goto(SetLock(s, id, Free), p, Sleeping(id))
    case Sleeping(_) =>
      if me.chan.NoChan? then Goto(s, p, Reacquiring(id))
      else s.(procs := s.procs[p := me.(pc := Asleep(id), sleeping := true)])
    case Asleep(_) => Goto(s, p, Reacquiring(id))
    case Reacquiring(_) => Goto(SetLock(s, id, HeldBy(p)), p, Checking(id))
    case Checking(_) =>
      if me.killed then Return(SetLock(s, id, Free), p, -1) else Goto(s, p, Testing(id))
    case SignalEntering(_) =>
      if !sem.initialized then Return(s, p, -1)
      else Goto(s.(sems := s.sems[id := sem.(value := sem.value + 1, lk := HeldBy(p))]),
                p, Waking(id, 0))
    case Waking(_, k) =>
      if k < |s.procs| then Goto(WakeOne(s, id, k), p, Waking(id, k + 1))
      else Return(SetLock(s, id, Free), p, 0)
    case Outside => s
  }

  /** One round of wakeup's loop, under the lock of process k. */
  function WakeOne(s: System, id: nat, k: nat): System
    requires k < |s.procs|
  {
    if s.procs[k].chan == OnSem(id) then s.(procs := s.procs[k := s.procs[k].(chan := NoChan,
        sleeping := false)]) else s
  }

  predicate Runs(s: System, es: seq<Event>)
    decreases |es|
  {
    es == [] || (Enabled(s, es[0]) && Runs(Step(s, es[0]), es[1..]))
  }

  function After(s: System, es: seq<Event>): System
    requires Runs(s, es)
    decreases |es|
  {
    if es == [] then s else After(Step(s, es[0]), es[1..])
  }

  // ---------------------------------------------------------------- the invariant

  predicate WithLock(pc: Pc, id: nat) {
    (pc.Testing? || pc.Preparing? || pc.Releasing? || pc.Checking? || pc.Waking?) && pc.id == id
  }

  /** A lock is held exactly by the process whose program counter says so. */
  ghost predicate LockOk(s: System, p: nat, id: nat)
    requires p < |s.procs| && id < |s.sems|
  {
    s.sems[id].lk == HeldBy(p) <==> WithLock(s.procs[p].pc, id)
  }

  /** The scan of a wakeup in progress has not reached the registered process p yet. */
  ghost predicate ScanAhead(s: System, id: nat, p: nat)
    requires id < |s.sems|
  {
    && s.sems[id].lk.HeldBy? && s.sems[id].lk.p < |s.procs|
    && s.procs[s.sems[id].lk.p].pc.Waking? && s.procs[s.sems[id].lk.p].pc.k <= p
  }

  /** The heart of the matter: a registered process is one that the scan in progress will still reach, or the
      value is 0. */
  ghost predicate Registered(s: System, p: nat)
    requires p < |s.procs|
  {
    var chan := s.procs[p].chan;
    chan.OnSem? ==>
      && chan.id < |s.sems| && s.sems[chan.id].initialized
      && (s.sems[chan.id].value == 0 || ScanAhead(s, chan.id, p))
  }

  ghost predicate ProcOk(s: System, p: nat)
    requires p < |s.procs|
  {
    var P := s.procs[p];
    && (!P.pc.Outside? ==> P.pc.id < |s.sems|)
    && (!P.pc.Outside? && !P.pc.Entering? && !P.pc.SignalEntering? ==> s.sems[P.pc.id].initialized)
    && (P.pc.Preparing? ==> s.sems[P.pc.id].value == 0)
    && (P.pc.Waking? ==> s.sems[P.pc.id].value > 0)
    && (P.pc.Releasing? || P.pc.Sleeping? ==> P.chan == NoChan || P.chan == OnSem(P.pc.id))
    && (P.sleeping ==> P.pc.Asleep? && P.chan == OnSem(P.pc.id))
  }

  ghost predicate SemOk(s: System, id: nat)
    requires id < |s.sems|
  {
    var sem := s.sems[id];
    sem.value >= 0 && (!sem.initialized ==> sem.value == 0) && (sem.lk.HeldBy? ==> sem.lk.p < |s.procs|)
  }

  ghost predicate Inv(s: System) {
    && (forall p {:trigger ProcOk(s, p)} :: 0 <= p < |s.procs| ==> ProcOk(s, p))
    && (forall p {:trigger Registered(s, p)} :: 0 <= p < |s.procs| ==> Registered(s, p))
    && (forall id {:trigger SemOk(s, id)} :: 0 <= id < |s.sems| ==> SemOk(s, id))
    && (forall p, id {:trigger LockOk(s, p, id)} :: 0 <= p < |s.procs| && 0 <= id < |s.sems| ==> LockOk(s, p, id))
  }

  lemma InvInitially(n: nat, m: nat)
    ensures Inv(InitialSystem(n, m))
  {
    var s := InitialSystem(n, m);
    forall id | 0 <= id < |s.sems| ensures SemOk(s, id) {
      assert s.sems[id].value == 0;
    }
  }

  /** What a step of p may assume about itself and a process q. */
  lemma Facts(s: System, p: nat, q: nat)
    requires Inv(s) && p < |s.procs| && q < |s.procs|
    ensures ProcOk(s, p) && ProcOk(s, q) && Registered(s, q)
    ensures !s.procs[p].pc.Outside? ==> SemOk(s, s.procs[p].pc.id) && LockOk(s, p, s.procs[p].pc.id)
    ensures !s.procs[p].pc.Outside? ==> LockOk(s, q, s.procs[p].pc.id)
  {
    assert ProcOk(s, p) && ProcOk(s, q) && Registered(s, q);
    if !s.procs[p].pc.Outside? {
      var id := s.procs[p].pc.id;
      assert SemOk(s, id) && LockOk(s, p, id) && LockOk(s, q, id);
    }
  }

  /** A step of wakeup's scan: every registered process is still ahead of it. */
  lemma RegisteredWaking(s: System, p: nat, q: nat)
    requires Inv(s) && p < |s.procs| && q < |s.procs| && CanAdvance(s, p) && s.procs[p].pc.Waking?
    ensures Registered(AdvanceStep(s, p), q)
  {
    assert ProcOk(s, p) && LockOk(s, p, s.procs[p].pc.id);
    RegisteredHolder(s, p, q);
  }

  lemma RegisteredOther(s: System, p: nat, q: nat)
    requires Inv(s) && p < |s.procs| && q < |s.procs| && CanAdvance(s, p) && !s.procs[p].pc.Waking?
    ensures Registered(AdvanceStep(s, p), q)
  {
    assert ProcOk(s, p);
    RegisteredHolder(s, p, q);
  }

  lemma RegisteredHolder(s: System, p: nat, q: nat)
    requires Inv(s) && p < |s.procs| && q < |s.procs|
    ensures Registered(s, q)
    ensures s.procs[q].chan.OnSem? ==>
      var id := s.procs[q].chan.id;
      && LockOk(s, p, id) && SemOk(s, id)
      && (s.sems[id].lk.HeldBy? ==> LockOk(s, s.sems[id].lk.p, id))
  {
    assert Registered(s, q);
    if s.procs[q].chan.OnSem? {
      var id := s.procs[q].chan.id;
      assert LockOk(s, p, id) && SemOk(s, id);
      assert s.sems[id].lk.HeldBy? ==> LockOk(s, s.sems[id].lk.p, id);
    }
  }

  lemma ProcAdvance(s: System, p: nat, q: nat)
    requires Inv(s) && p < |s.procs| && q < |s.procs| && CanAdvance(s, p)
    ensures ProcOk(AdvanceStep(s, p), q)
  {
    Facts(s, p, q);
  }

  lemma InvAdvance(s: System, p: nat)
    requires Inv(s) && p < |s.procs| && CanAdvance(s, p)
    ensures Inv(AdvanceStep(s, p))
  {
    var s' := AdvanceStep(s, p);
    forall q | 0 <= q < |s'.procs| ensures ProcOk(s', q) && Registered(s', q) {
      ProcAdvance(s, p, q);
      if s.procs[p].pc.Waking? {
        RegisteredWaking(s, p, q);
      } else {
        RegisteredOther(s, p, q);
      }
    }
    Facts(s, p, p);
    forall id | 0 <= id < |s'.sems| ensures SemOk(s', id) {
      assert SemOk(s, id);
    }
    forall q, id | 0 <= q < |s'.procs| && 0 <= id < |s'.sems| ensures LockOk(s', q, id) {
      assert LockOk(s, q, id) && LockOk(s, p, id);
    }
  }

  lemma InvStep(s: System, e: Event)
    requires Inv(s) && Enabled(s, e)
    ensures Inv(Step(s, e)) && |Step(s, e).sems| == |s.sems|
  {
    if e.Advance? {
      InvAdvance(s, e.p);
    } else {
      var s' := Step(s, e);
      var p := if e.Init? then 0 else e.p;
      forall q | 0 <= q < |s'.procs| ensures ProcOk(s', q) && Registered(s', q) {
        assert ProcOk(s, q) && Registered(s, q);
      }
      forall id | 0 <= id < |s'.sems| ensures SemOk(s', id) {
        assert SemOk(s, id);
      }
      forall q, id | 0 <= q < |s'.procs| && 0 <= id < |s'.sems| ensures LockOk(s', q, id) {
        assert LockOk(s, q, id);
      }
    }
  }

  /** The invariant holds after every run. */
  lemma {:induction false} InvAlways(s: System, es: seq<Event>)
    requires Inv(s) && Runs(s, es)
    ensures Inv(After(s, es)) && |After(s, es).sems| == |s.sems|
    decreases |es|
  {
    if es != [] {
      InvStep(s, es[0]);
      InvAlways(Step(s, es[0]), es[1..]);
    }
  }

  // ---------------------------------------------------------------- what the invariant means

  /** No wakeup is lost: with the lock free and a unit available, nobody is registered and nobody sleeps. */
  lemma NoLostWakeup(s: System, p: nat, id: nat)
    requires Inv(s) && p < |s.procs| && id < |s.sems| && s.sems[id].lk.Free? && s.sems[id].value > 0
    ensures s.procs[p].chan != OnSem(id)
    ensures !(s.procs[p].pc == Asleep(id) && s.procs[p].sleeping)
  {
    assert ProcOk(s, p) && Registered(s, p);
  }

  /** A process inside a call can take a step, or waits for a lock whose holder can, or sleeps on a semaphore
      without units. */
  lemma Progress(s: System, p: nat)
    requires Inv(s) && p < |s.procs| && !s.procs[p].pc.Outside?
    ensures s.procs[p].pc.id < |s.sems|
    ensures var sem := s.sems[s.procs[p].pc.id];
      || CanAdvance(s, p)
      || (sem.lk.HeldBy? && sem.lk.p < |s.procs| && CanAdvance(s, sem.lk.p))
      || (s.procs[p].pc.Asleep? && s.procs[p].sleeping && sem.value == 0)
  {
    Facts(s, p, p);
    var id := s.procs[p].pc.id;
    if s.sems[id].lk.HeldBy? {
      assert SemOk(s, id) && LockOk(s, s.sems[id].lk.p, id);
    }
  }

  /** When nobody can move, everybody inside a call sleeps on a semaphore without units. */
  lemma Quiescent(s: System, p: nat)
    requires Inv(s) && p < |s.procs| && !s.procs[p].pc.Outside?
    requires forall q {:trigger CanAdvance(s, q)} :: 0 <= q < |s.procs| ==> !CanAdvance(s, q)
    ensures s.procs[p].pc.Asleep? && s.procs[p].sleeping && s.procs[p].pc.id < |s.sems|
    ensures s.sems[s.procs[p].pc.id].value == 0
  {
    Progress(s, p);
    assert SemOk(s, s.procs[p].pc.id);
  }

  /** sem_init on a semaphore in use. */
  function Reinit(s: System, id: nat, value: int): System
    requires id < |s.sems|
  {
    s.(sems := s.sems[id := Semaphore(value, true, Free)])
  }

  /** Initialising again is safe exactly when it sets 0 or finds nobody registered: sem_init wakes no one. */
  lemma ReinitIff(s: System, id: nat, value: int)
    requires Inv(s) && id < |s.sems| && s.sems[id].lk.Free? && value >= 0
    ensures Inv(Reinit(s, id, value)) <==>
      value == 0 || forall p {:trigger s.procs[p]} :: 0 <= p < |s.procs| ==> s.procs[p].chan != OnSem(id)
  {
    var s' := Reinit(s, id, value);
    if value == 0 || forall p {:trigger s.procs[p]} :: 0 <= p < |s.procs| ==> s.procs[p].chan != OnSem(id) {
      forall p | 0 <= p < |s'.procs| ensures ProcOk(s', p) && Registered(s', p) {
        assert ProcOk(s, p) && Registered(s, p);
        assert s.procs[p].chan.OnSem? ==> SemOk(s, s.procs[p].chan.id);
        assert LockOk(s, p, id);
      }
      forall i | 0 <= i < |s'.sems| ensures SemOk(s', i) {
        assert SemOk(s, i);
      }
      forall p, i | 0 <= p < |s'.procs| && 0 <= i < |s'.sems| ensures LockOk(s', p, i) {
        assert LockOk(s, p, i);
      }
    } else {
      var p :| 0 <= p < |s.procs| && s.procs[p].chan == OnSem(id);
      assert !Registered(s', p);
    }
  }

  /** A semaphore is initialised to 0 and a process waits on it until it sleeps. */
  function BlockedWait(): seq<Event> {
    [Init(0, 0), CallWait(0, 0), Advance(0), Advance(0), Advance(0), Advance(0), Advance(0)]
  }

  lemma {:induction false} OneMoreEvent(s: System, es: seq<Event>, e: Event)
    requires Runs(s, es) && Enabled(After(s, es), e)
    ensures Runs(s, es + [e]) && After(s, es + [e]) == Step(After(s, es), e)
    decreases |es|
  {
    if es == [] {
      assert es + [e] == [e];
    } else {
      OneMoreEvent(Step(s, es[0]), es[1..], e);
      assert (es + [e])[1..] == es[1..] + [e];
    }
  }

  lemma BlockedWaitSleeps()
    ensures Runs(InitialSystem(1, 1), BlockedWait())
    ensures After(InitialSystem(1, 1), BlockedWait())
         == System([Proc(Asleep(0), OnSem(0), true, false, 0)], [Semaphore(0, true, Free)])
  {
    var s, es := InitialSystem(1, 1), BlockedWait();
    assert Runs(s, []) && After(s, []) == s;
    var k := 0;
    while k < 7
      invariant 0 <= k <= 7 && Runs(s, es[..k]) && After(s, es[..k]) == Blocking(k)
    {
      OneMoreEvent(s, es[..k], es[k]);
      assert es[..k + 1] == es[..k] + [es[k]];
      k := k + 1;
    }
    assert es[..7] == es;
  }

  /** The states that the run goes through. */
  function Blocking(k: nat): System {
    var sem := Semaphore(0, k > 0, if 3 <= k <= 5 then HeldBy(0) else Free);
    var pc := if k < 2 then Outside else if k == 2 then Entering(0) else if k == 3 then Testing(0)
      else if k == 4 then Preparing(0) else if k == 5 then Releasing(0) else if k == 6 then Sleeping(0) else Asleep(0);
    System([Proc(pc, if k < 5 then NoChan else OnSem(0), k >= 7, false, 0)], [sem])
  }

  /** The unsafe case is reached from the start: after that run, initialising the semaphore again to 1 leaves the
      process asleep although a unit is there and the lock is free, and no step of its own will ever wake it. */
  lemma ReinitLosesWakeup()
    ensures Runs(InitialSystem(1, 1), BlockedWait()) && |After(InitialSystem(1, 1), BlockedWait()).sems| == 1
    ensures var s := Reinit(After(InitialSystem(1, 1), BlockedWait()), 0, 1);
      && |s.procs| == 1 && s.procs[0].pc == Asleep(0) && s.procs[0].sleeping && !s.procs[0].killed
      && s.sems[0].value == 1 && s.sems[0].lk.Free? && !CanAdvance(s, 0) && !Inv(s)
  {
    BlockedWaitSleeps();
    var s := Reinit(After(InitialSystem(1, 1), BlockedWait()), 0, 1);
    assert s.procs[0].chan == OnSem(0);
    assert !Registered(s, 0);
  }

  // ---------------------------------------------------------------- the atomic counting semaphore

  /** The specification: a wait takes a unit in one step and is only possible when there is one. */
  datatype Atomic = TakeUnit(id: nat) | AddUnit(id: nat) | SetUnits(id: nat, value: int) | Nothing

  predicate Possible(v: seq<int>, a: Atomic) {
    match a
    case TakeUnit(id) => id < |v| && v[id] > 0
    case AddUnit(id) => id < |v|
    case SetUnits(id, value) => id < |v| && value >= 0
    case Nothing => true
  }

  function Effect(v: seq<int>, a: Atomic): seq<int>
    requires Possible(v, a)
  {
    match a
    case TakeUnit(id) => v[id := v[id] - 1]
    case AddUnit(id) => v[id := v[id] + 1]
    case SetUnits(id, value) => v[id := value]
    case Nothing => v
  }

  predicate AtomicRuns(v: seq<int>, trace: seq<Atomic>)
    decreases |trace|
  {
    trace == [] || (Possible(v, trace[0]) && AtomicRuns(Effect(v, trace[0]), trace[1..]))
  }

  function AtomicAfter(v: seq<int>, trace: seq<Atomic>): seq<int>
    requires AtomicRuns(v, trace)
    decreases |trace|
  {
    if trace == [] then v else AtomicAfter(Effect(v, trace[0]), trace[1..])
  }

  /** The values that the atomic semaphores have. */
  function Values(s: System): (v: seq<int>)
    ensures |v| == |s.sems|
  {
    seq(|s.sems|, i requires 0 <= i < |s.sems| => s.sems[i].value)
  }

  /** What a call that returns tells its caller: a wait that returns 0 took a unit, a signal that returns 0 has
      added one; everything else is invisible. */
  function Observed(s: System, e: Event): Atomic
    requires Enabled(s, e)
  {
    match e
    case Init(id, value) => SetUnits(id, value)
    case Advance(p) =>
      var s', pc := Step(s, e), s.procs[p].pc;
      if pc.SignalEntering? && s'.procs[p].pc.Waking? then AddUnit(pc.id)
      else if !pc.SignalEntering? && !pc.Waking? && s'.procs[p].pc.Outside? &&
          s'.procs[p].result == 0 then TakeUnit(pc.id)
      else Nothing
    case _ => Nothing
  }

  lemma StepRefines(s: System, e: Event)
    requires Inv(s) && Enabled(s, e)
    ensures Possible(Values(s), Observed(s, e)) && Values(Step(s, e)) == Effect(Values(s), Observed(s, e))
  {
    if e.Advance? {
      Facts(s, e.p, e.p);
    }
  }

  function Trace(s: System, es: seq<Event>): (t: seq<Atomic>)
    requires Runs(s, es)
    ensures |t| == |es|
    decreases |es|
  {
    if es == [] then [] else [Observed(s, es[0])] + Trace(Step(s, es[0]), es[1..])
  }

  /** Every run of the kernel's semaphores is a run of atomic counting semaphores with the same successful
      calls, and ends with the same values. */
  lemma {:induction false} Refines(s: System, es: seq<Event>)
    requires Inv(s) && Runs(s, es)
    ensures AtomicRuns(Values(s), Trace(s, es))
    ensures Values(After(s, es)) == AtomicAfter(Values(s), Trace(s, es))
    decreases |es|
  {
    if es != [] {
      StepRefines(s, es[0]);
      InvStep(s, es[0]);
      Refines(Step(s, es[0]), es[1..]);
      assert Trace(s, es)[1..] == Trace(Step(s, es[0]), es[1..]);
    }
  }

  /** A wait that a kill cuts short returns -1 and leaves the semaphore alone, even if it was woken by a signal;
      the unit stays for the next one. */
  lemma KilledTakesNothing(s: System, p: nat)
    requires Inv(s) && p < |s.procs| && CanAdvance(s, p)
    requires !s.procs[p].pc.Waking? && !s.procs[p].pc.SignalEntering?
    requires AdvanceStep(s, p).procs[p].pc.Outside? && s.procs[p].pc.id < |s.sems| &&
        s.sems[s.procs[p].pc.id].initialized
    ensures var s' := AdvanceStep(s, p);
      && (s'.procs[p].result == -1 <==> Values(s') == Values(s))
      && (s'.procs[p].result == -1 ==> s.procs[p].killed)
      && s'.sems[s.procs[p].pc.id].lk.Free?
  {
    var id, s' := s.procs[p].pc.id, AdvanceStep(s, p);
    assert Values(s')[id] == s'.sems[id].value && Values(s)[id] == s.sems[id].value;
  }

  // ---------------------------------------------------------------- what the calls return

  /** The semaphore call that a process has made last, as the events tell. */
  datatype Call = NoCall | Wait(id: nat) | Signal(id: nat)

  function Noted(calls: seq<Call>, e: Event): (noted: seq<Call>)
    ensures |noted| == |calls|
  {
    match e
    case CallWait(p, id) => if p < |calls| then calls[p := Wait(id)] else calls
    case CallSignal(p, id) => if p < |calls| then calls[p := Signal(id)] else calls
    case _ => calls
  }

  /** Inside a call, the program counter belongs to the call made last. */
  ghost predicate InCall(s: System, calls: seq<Call>, p: nat)
    requires p < |s.procs| == |calls|
  {
    var pc := s.procs[p].pc;
    !pc.Outside? ==> calls[p] == if pc.SignalEntering? || pc.Waking? then Signal(pc.id) else Wait(pc.id)
  }

  ghost predicate InCalls(s: System, calls: seq<Call>) {
    |calls| == |s.procs| && forall p {:trigger InCall(s, calls, p)} :: 0 <= p < |s.procs| ==> InCall(s, calls, p)
  }

  lemma InCallsStep(s: System, calls: seq<Call>, e: Event)
    requires Inv(s) && InCalls(s, calls) && Enabled(s, e)
    ensures InCalls(Step(s, e), Noted(calls, e))
  {
    forall p | 0 <= p < |s.procs| ensures InCall(Step(s, e), Noted(calls, e), p) {
      assert InCall(s, calls, p) && ProcOk(s, p);
    }
  }

  /** The step makes a call return this result. */
  predicate Returns(s: System, e: Event, result: int)
    requires Enabled(s, e)
  {
    e.Advance? && Step(s, e).procs[e.p].pc.Outside? && Step(s, e).procs[e.p].result == result
  }

  /** How many calls c return 0 in a run. */
  function Succeeded(s: System, calls: seq<Call>, es: seq<Event>, c: Call): nat
    requires Runs(s, es) && |calls| == |s.procs|
    decreases |es|
  {
    if es == [] then 0
    else (if Returns(s, es[0], 0) && calls[es[0].p] == c then 1 else 0)
           + Succeeded(Step(s, es[0]), Noted(calls, es[0]), es[1..], c)
  }

  /** The units that sem_init puts into a semaphore in a run. */
  function InitialUnits(es: seq<Event>, id: nat): int {
    if es == [] then 0
    else (if es[0].Init? && es[0].id == id then es[0].value else 0) + InitialUnits(es[1..], id)
  }

  /** The calls of sem_signal that have added their unit and not returned yet: at most one, by the lock. */
  function InFlight(s: System, id: nat): nat {
    if id < |s.sems| && s.sems[id].lk.HeldBy? && s.sems[id].lk.p < |s.procs| && s.procs[s.sems[id].lk.p].pc.Waking?
    then 1 else 0
  }

  function Units(a: Atomic, b: Atomic): nat {
    if a == b then 1 else 0
  }

  /** A unit is taken exactly when a wait returns 0, and added exactly once for every signal that returns 0. */
  lemma StepCounts(s: System, calls: seq<Call>, e: Event, id: nat)
    requires Inv(s) && InCalls(s, calls) && Enabled(s, e) && id < |s.sems|
    ensures Units(Observed(s, e), TakeUnit(id)) == if Returns(s, e, 0) && calls[e.p] == Wait(id) then 1 else 0
    ensures Units(Observed(s, e), AddUnit(id))
         == (if Returns(s, e, 0) && calls[e.p] == Signal(id) then 1 else 0) + InFlight(Step(s, e), id) - InFlight(s, id)
  {
    if e.Advance? {
      Facts(s, e.p, e.p);
      assert InCall(s, calls, e.p) && LockOk(s, e.p, id) && SemOk(s, id);
    } else {
      assert SemOk(s, id);
      if s.sems[id].lk.HeldBy? {
        assert LockOk(s, s.sems[id].lk.p, id);
      }
    }
  }

  lemma StepValue(s: System, e: Event, id: nat)
    requires Inv(s) && Enabled(s, e) && id < |s.sems|
    ensures Step(s, e).sems[id].value == s.sems[id].value + InitialUnits([e], id)
              + Units(Observed(s, e), AddUnit(id)) - Units(Observed(s, e), TakeUnit(id))
  {
    StepRefines(s, e);
    assert SemOk(s, id);
    assert Values(Step(s, e))[id] == Step(s, e).sems[id].value && Values(s)[id] == s.sems[id].value;
  }

  /** Over every run: the value changes by what sem_init puts in, plus the signals that return 0, minus the waits that
      return 0, up to the one signal that may be on its way out at either end. */
  lemma {:induction false} Accounts(s: System, calls: seq<Call>, es: seq<Event>, id: nat)
    requires Inv(s) && InCalls(s, calls) && Runs(s, es) && id < |s.sems|
    ensures |After(s, es).sems| == |s.sems|
    ensures After(s, es).sems[id].value - InFlight(After(s, es), id)
         == s.sems[id].value - InFlight(s, id) + InitialUnits(es, id)
            + Succeeded(s, calls, es, Signal(id)) - Succeeded(s, calls, es, Wait(id))
    decreases |es|
  {
    if es != [] {
      var e := es[0];
      InvStep(s, e);
      InCallsStep(s, calls, e);
      StepCounts(s, calls, e, id);
      StepValue(s, e, id);
      Accounts(Step(s, e), Noted(calls, e), es[1..], id);
    }
  }

  /** From the start, and with the lock free: the value is what sem_init put in, plus the calls of sem_signal that
      returned 0, minus the calls of sem_wait that returned 0. */
  lemma Conservation(n: nat, m: nat, es: seq<Event>, id: nat)
    requires Runs(InitialSystem(n, m), es) && id < m
    ensures var s0, calls := InitialSystem(n, m), seq(n, i => NoCall);
      var s := After(s0, es);
      && |s.sems| == m
      && 0 <= s.sems[id].value == InitialUnits(es, id) + Succeeded(s0, calls, es, Signal(id)) + InFlight(s, id)
                                   - Succeeded(s0, calls, es, Wait(id))
      && (s.sems[id].lk.Free? ==> InFlight(s, id) == 0)
  {
    var s0, calls := InitialSystem(n, m), seq(n, i => NoCall);
    InvInitially(n, m);
    Accounts(s0, calls, es, id);
    InvAlways(s0, es);
    assert SemOk(After(s0, es), id);
  }

  /** The atomic trace of a run takes a unit for every wait that returns 0 and adds one for every signal that
      returns 0. */
  lemma {:induction false} TraceCounts(s: System, calls: seq<Call>, es: seq<Event>, id: nat)
    requires Inv(s) && InCalls(s, calls) && Runs(s, es) && id < |s.sems|
    ensures Occurrences(Trace(s, es), TakeUnit(id)) == Succeeded(s, calls, es, Wait(id))
    ensures Occurrences(Trace(s, es), AddUnit(id))
         == Succeeded(s, calls, es, Signal(id)) + InFlight(After(s, es), id) - InFlight(s, id)
    decreases |es|
  {
    if es != [] {
      InvStep(s, es[0]);
      InCallsStep(s, calls, es[0]);
      StepCounts(s, calls, es[0], id);
      TraceCounts(Step(s, es[0]), Noted(calls, es[0]), es[1..], id);
      assert Trace(s, es)[1..] == Trace(Step(s, es[0]), es[1..]);
    }
  }

  function Occurrences(trace: seq<Atomic>, a: Atomic): nat {
    if trace == [] then 0 else Units(trace[0], a) + Occurrences(trace[1..], a)
  }

  /** A semaphore is initialised exactly from its sem_init on. */
  lemma {:induction false} InitializedBy(s: System, es: seq<Event>, id: nat)
    requires Inv(s) && Runs(s, es) && id < |s.sems|
    ensures |After(s, es).sems| == |s.sems|
    ensures After(s, es).sems[id].initialized <==>
      s.sems[id].initialized || exists e {:trigger e.Init?} :: e in es && e.Init? && e.id == id
    decreases |es|
  {
    if es != [] {
      InvStep(s, es[0]);
      if es[0].Advance? {
        Facts(s, es[0].p, es[0].p);
      }
      InitializedBy(Step(s, es[0]), es[1..], id);
    }
  }

  /** How many calls a process makes in a run, and how many of its calls return. */
  function CallsMade(es: seq<Event>, p: nat): nat {
    if es == [] then 0
    else (if (es[0].CallWait? || es[0].CallSignal?) && es[0].p == p then 1 else 0) + CallsMade(es[1..], p)
  }

  function CallsReturned(s: System, es: seq<Event>, p: nat): nat
    requires Runs(s, es)
    decreases |es|
  {
    if es == [] then 0
    else (if es[0] == Advance(p) && Step(s, es[0]).procs[p].pc.Outside? then 1 else 0)
           + CallsReturned(Step(s, es[0]), es[1..], p)
  }

  function Inside(s: System, p: nat): nat {
    if p < |s.procs| && !s.procs[p].pc.Outside? then 1 else 0
  }

  /** Every call that was made is in progress or has returned, once. */
  lemma {:induction false} CallsAccounted(s: System, es: seq<Event>, p: nat)
    requires Runs(s, es) && p < |s.procs|
    ensures Inside(s, p) + CallsMade(es, p) == CallsReturned(s, es, p) + Inside(After(s, es), p)
    decreases |es|
  {
    if es != [] {
      CallsAccounted(Step(s, es[0]), es[1..], p);
    }
  }

  /** What a result means: a signal fails exactly on a semaphore that is not initialised; a wait fails exactly on such
      a semaphore or for a process that was killed, and otherwise has taken a unit. */
  lemma ResultsMean(s: System, calls: seq<Call>, e: Event, result: int)
    requires Inv(s) && InCalls(s, calls) && Enabled(s, e) && Returns(s, e, result)
    ensures result == 0 || result == -1
    ensures calls[e.p].Signal? && calls[e.p].id < |s.sems| ==> (result == 0 <==> s.sems[calls[e.p].id].initialized)
    ensures calls[e.p].Wait? && calls[e.p].id < |s.sems| ==>
      var sem, sem' := s.sems[calls[e.p].id], Step(s, e).sems[calls[e.p].id];
      && (result == 0 ==> sem.initialized && sem'.value == sem.value - 1)
      && (result == -1 ==> (!sem.initialized || s.procs[e.p].killed) && sem'.value == sem.value)
  {
    Facts(s, e.p, e.p);
    assert InCall(s, calls, e.p);
  }

  /** When a signal returns 0, nobody is registered on the semaphore any more, and nobody sleeps on it. */
  lemma SignalWakesAll(s: System, calls: seq<Call>, e: Event, id: nat, q: nat)
    requires Inv(s) && InCalls(s, calls) && Enabled(s, e) && Returns(s, e, 0) && calls[e.p] == Signal(id)
    requires id < |s.sems| && q < |s.procs|
    ensures var s' := Step(s, e);
      s'.procs[q].chan != OnSem(id) && !(s'.procs[q].pc == Asleep(id) && s'.procs[q].sleeping)
  {
    Facts(s, e.p, q);
    assert InCall(s, calls, e.p) && LockOk(s, e.p, id);
    InvStep(s, e);
    assert ProcOk(Step(s, e), q);
  }

  // ---------------------------------------------------------------- how far a call has got

  /** Every step of a call by itself brings it closer to its end or to sleep. */
  function Left(pc: Pc, n: nat): nat {
    match pc
    case Outside => 0
    case Entering(_) => 7
    case Reacquiring(_) => 7
    case Checking(_) => 6
    case Testing(_) => 5
    case Preparing(_) => 4
    case Releasing(_) => 3
    case Sleeping(_) => 2
    case Asleep(_) => 1
    case SignalEntering(_) => n + 2
    case Waking(_, k) => if k <= n then n + 1 - k else 1
  }

  /** The step takes a process back to the lock after sleep() has returned. */
  predicate Retries(s: System, e: Event)
    requires Enabled(s, e)
  {
    e.Advance? && Step(s, e).procs[e.p].pc.Reacquiring?
  }

  /** Each step of a call leaves fewer to take, unless sleep() has returned. */
  lemma StepsDown(s: System, p: nat)
    requires p < |s.procs| && CanAdvance(s, p)
    ensures Retries(s, Advance(p)) || Left(AdvanceStep(s, p).procs[p].pc, |s.procs|) < Left(s.procs[p].pc, |s.procs|)
    ensures Retries(s, Advance(p)) ==> s.procs[p].pc.Sleeping? || s.procs[p].pc.Asleep?
  {
  }

  /** Process p is on its way back although nothing is owed to its own steps: its registration was cleared, or it
      was made runnable inside sched. */
  function Owed(s: System, p: nat): nat
    requires p < |s.procs|
  {
    var P := s.procs[p];
    if (P.pc.Releasing? || P.pc.Sleeping?) && P.chan.NoChan? then 1
    else if P.pc.Asleep? && !P.sleeping then 1 else 0
  }

  /** Another process clears the registration of p, or p is killed. */
  predicate Rouses(s: System, e: Event, p: nat)
    requires Enabled(s, e) && p < |s.procs|
  {
    || e == Kill(p)
    || (e != Advance(p) && !e.Elsewhere? && s.procs[p].chan.OnSem? && Step(s, e).procs[p].chan.NoChan?)
  }

  function CountRetries(s: System, es: seq<Event>, p: nat): nat
    requires Runs(s, es)
    decreases |es|
  {
    if es == [] then 0
    else (if Retries(s, es[0]) && es[0].p == p then 1 else 0) + CountRetries(Step(s, es[0]), es[1..], p)
  }

  function CountRouses(s: System, es: seq<Event>, p: nat): nat
    requires Runs(s, es) && p < |s.procs|
    decreases |es|
  {
    if es == [] then 0
    else (if Rouses(s, es[0], p) then 1 else 0) + CountRouses(Step(s, es[0]), es[1..], p)
  }

  lemma RetryStep(s: System, e: Event, p: nat)
    requires Inv(s) && Enabled(s, e) && p < |s.procs|
    ensures (if Retries(s, e) && e.p == p then 1 else 0) + Owed(Step(s, e), p)
         <= (if Rouses(s, e, p) then 1 else 0) + Owed(s, p)
  {
    assert ProcOk(s, p);
    if e.Advance? {
      Facts(s, e.p, p);
    }
  }

  /** Only a kill, or a signal on the very semaphore on which a process is registered, rouses it. */
  lemma RousedBySignal(s: System, calls: seq<Call>, e: Event, p: nat)
    requires Inv(s) && InCalls(s, calls) && Enabled(s, e) && p < |s.procs| && Rouses(s, e, p) && e != Kill(p)
    ensures e.Advance? && s.procs[p].chan.OnSem? && calls[e.p] == Signal(s.procs[p].chan.id)
  {
    assert ProcOk(s, p);
    if e.Advance? {
      Facts(s, e.p, p);
      assert InCall(s, calls, e.p);
    }
  }

  /** Waiting is not busy: in every run a process comes back from sleep() at most as often as somebody wakes or kills
      it. */
  lemma {:induction false} RetriesAreRoused(s: System, es: seq<Event>, p: nat)
    requires Inv(s) && Runs(s, es) && p < |s.procs|
    ensures CountRetries(s, es, p) <= CountRouses(s, es, p) + Owed(s, p)
    decreases |es|
  {
    if es != [] {
      InvStep(s, es[0]);
      RetryStep(s, es[0], p);
      RetriesAreRoused(Step(s, es[0]), es[1..], p);
    }
  }

  // ---------------------------------------------------------------- killing

  /** A killed process that is on its way out of sem_wait, d steps from returning -1. */
  predicate Leaving(s: System, p: nat, d: nat)
    requires p < |s.procs|
  {
    var P := s.procs[p];
    && P.killed
    && match d
       case 0 => P.pc.Outside? && P.result == -1
       case 1 => P.pc.Checking?
       case 2 => P.pc.Reacquiring?
       case 3 => P.pc.Asleep? && !P.sleeping
       case _ => false
  }

  function CountSteps(es: seq<Event>, p: nat): nat {
    if es == [] then 0 else (if es[0] == Advance(p) then 1 else 0) + CountSteps(es[1..], p)
  }

  /** kkill sets the flag and makes a sleeper runnable, and does nothing else to anybody. */
  lemma KillRouses(s: System, p: nat, q: nat)
    requires Inv(s) && p < |s.procs| && q < |s.procs|
    ensures var s' := Step(s, Kill(p));
      && s'.procs[p].killed && !s'.procs[p].sleeping && s'.sems == s.sems
      && (s.procs[p].pc.Asleep? ==> Leaving(s', p, 3))
      && (s.procs[p].pc.Reacquiring? ==> Leaving(s', p, 2)) && (s.procs[p].pc.Checking? ==> Leaving(s', p, 1))
      && (q != p ==> s'.procs[q] == s.procs[q])
  {
    assert ProcOk(s, p);
  }

  predicate MakesNoCall(es: seq<Event>, p: nat) {
    es == [] || (!(es[0].CallWait? && es[0].p == p) && !(es[0].CallSignal? && es[0].p == p) && MakesNoCall(es[1..], p))
  }

  /** And it stays on its way: in every run in which it makes no new call, it has returned -1 after as many steps of
      its own as were left. */
  lemma {:induction false} KilledReturns(s: System, es: seq<Event>, p: nat, d: nat)
    requires Inv(s) && Runs(s, es) && p < |s.procs| && Leaving(s, p, d) && CountSteps(es, p) <= d
    requires MakesNoCall(es, p)
    ensures p < |After(s, es).procs| && Leaving(After(s, es), p, d - CountSteps(es, p))
    decreases |es|
  {
    if es != [] {
      var e := es[0];
      InvStep(s, e);
      if e == Advance(p) {
        KilledReturns(Step(s, e), es[1..], p, d - 1);
      } else {
        KilledReturns(Step(s, e), es[1..], p, d);
      }
    }
  }
}
