/** fork, exit and wait in kernel/proc.c, for any number of processes in every interleaving. */
module ExitWait {
  // The parent links, the wait lock, and the sleep and wakeup of parents, as steps at the granularity of the locks.

  datatype ProcState = UNUSED | USED | ACTIVE | SLEEPING | ZOMBIE

  /** p->chan: the process structure of some process, or any other channel. */
  datatype Chan = NoChan | OnProc(q: nat) | OnOther(c: nat)

  /** p->parent. */
  datatype Parent = NoParent | ChildOf(q: nat)

  /** Where a process is inside kfork, kexit or kwait. */
  datatype Pc =
    | Outside
    | Linking(c: nat)             // kfork: has allocated c, about to set its parent under wait_lock
    | Starting(c: nat)            // kfork: about to make c runnable
    | ExitEntering                // kexit: about to acquire wait_lock
    | Reparenting(k: nat)         // kexit, with the lock: about to look at slot k
    | WakingInit(k: nat, j: nat)  // kexit, with the lock: has given slot k to init, wakeup(initproc) is at slot j
    | WakingParent(j: nat)        // kexit, with the lock: wakeup(p->parent) is at slot j
    | WaitEntering                // kwait: about to acquire wait_lock
    | Scanning(k: nat, kids: bool) // kwait, with the lock: about to look at slot k
    | Preparing                   // kwait, with the lock: about to call sleep_prepare
    | Releasing                   // kwait, with the lock: registered
    | Resting                     // kwait: about to call sleep
    | Asleep                      // kwait: inside sched

  /** `result` is what the last kfork or kwait returned. */
  datatype Proc = Proc(state: ProcState, pid: nat, parent: Parent, chan: Chan, killed: bool, pc: Pc, result: int)

  datatype Lock = Free | HeldBy(p: nat)

  /** `reaped` records the pids that kwait has returned. */
  datatype System = System(procs: seq<Proc>, waitLock: Lock, nextPid: nat, reaped: seq<nat>)

  const INIT: nat := 0
  const EMPTY := Proc(UNUSED, 0, NoParent, NoChan, false, Outside, 0)

  function InitialSystem(n: nat): System
    requires n > 0
  {
    System(seq(n, i => if i == INIT then Proc(ACTIVE, 1, NoParent, NoChan, false, Outside, 0) else EMPTY), Free, 2, [])
  }

  datatype Event =
    | BeginFork(p: nat, c: nat)   // allocproc finds slot c unused
    | AbortFork(p: nat)           // memory runs out; the new slot is freed again
    | BeginExit(p: nat)
    | BeginWait(p: nat)
    | CopyFails(p: nat)           // kwait's copyout of the exit status fails
    | Advance(p: nat)
    | Kill(p: nat)
    | Elsewhere(p: nat, chan: Chan)

  predicate IsActive(s: System, p: nat) {
    p < |s.procs| && s.procs[p].state == ACTIVE
  }

  predicate Enabled(s: System, e: Event) {
    match e
    case BeginFork(p, c) => IsActive(s, p) && s.procs[p].pc.Outside? && c < |s.procs| && s.procs[c].state == UNUSED
    case AbortFork(p) => IsActive(s, p) && s.procs[p].pc.Linking? && s.procs[p].pc.c < |s.procs| && s.procs[p].pc.c != p
    case BeginExit(p) => IsActive(s, p) && s.procs[p].pc.Outside? && p != INIT
    case BeginWait(p) => IsActive(s, p) && s.procs[p].pc.Outside?
    case CopyFails(p) => IsActive(s, p) && FoundZombie(s, p)
    case Advance(p) => IsActive(s, p) && CanAdvance(s, p)
    case Kill(p) => p < |s.procs|
    case Elsewhere(p, chan) => IsActive(s, p) && s.procs[p].pc.Outside? && !chan.OnProc?
  }

  predicate FoundZombie(s: System, p: nat)
    requires p < |s.procs|
  {
    var pc := s.procs[p].pc;
    pc.Scanning? && pc.k < |s.procs| && s.procs[pc.k].parent == ChildOf(p) && s.procs[pc.k].state == ZOMBIE
  }

  predicate CanAdvance(s: System, p: nat)
    requires p < |s.procs|
  {
    match s.procs[p].pc
    case Outside => false
    case Linking(c) => c < |s.procs| && s.waitLock.Free?
    case Starting(c) => c < |s.procs| && c != p
    case ExitEntering => s.waitLock.Free?
    case WaitEntering => s.waitLock.Free?
    case _ => true
  }

  function At(s: System, p: nat, pc: Pc): System
    requires p < |s.procs|
  {
    s.(procs := s.procs[p := s.procs[p].(pc := pc)])
  }

  function Return(s: System, p: nat, result: int): System
    requires p < |s.procs|
  {
    s.(procs := s.procs[p := s.procs[p].(pc := Outside, result := result)])
  }

  /** freeproc, with the parent link that kwait clears first. */
  function FreeSlot(s: System, c: nat): System
    requires c < |s.procs|
  {
    s.(procs := s.procs[c := EMPTY])
  }

  /** One round of wakeup's loop, under the lock of slot j. */
  function WakeOne(s: System, chan: Chan, j: nat): System
    requires j < |s.procs|
  {
    if s.procs[j].chan == chan then
      s.(procs := s.procs[j := s.procs[j].(chan := NoChan,
           state := if s.procs[j].state == SLEEPING then ACTIVE else s.procs[j].state)])
    else s
  }

  function ParentChan(s: System, p: nat): Chan
    requires p < |s.procs|
  {
    match s.procs[p].parent case NoParent => NoChan case ChildOf(q) => OnProc(q)
  }

  function Step(s: System, e: Event): (s': System)
    requires Enabled(s, e)
    ensures |s'.procs| == |s.procs|
  {
    match e
    case BeginFork(p, c) =>
      At(s.(procs := s.procs[c := s.procs[c].(pid := s.nextPid, state := USED)], nextPid := s.nextPid + 1), p,
          Linking(c))
    case AbortFork(p) => Return(FreeSlot(s, s.procs[p].pc.c), p, -1)
    case BeginExit(p) => At(s, p, ExitEntering)
    case BeginWait(p) => At(s, p, WaitEntering)
    case CopyFails(p) => Return(s.(waitLock := Free), p, -1)
    case Advance(p) => AdvanceStep(s, p)
    case Kill(p) =>
      var P := s.procs[p];
      s.(procs := s.procs[p := P.(killed := true, state := if P.state == SLEEPING then ACTIVE else P.state)])
    case Elsewhere(p, chan) => s.(procs := s.procs[p := s.procs[p].(chan := chan)])
  }

  function AdvanceStep(s: System, p: nat): System
    requires IsActive(s, p) && CanAdvance(s, p)
  {
    if Forking(s.procs[p].pc) then ForkAdvance(s, p)
    else if Exits(s.procs[p].pc) then ExitAdvance(s, p)
    else WaitAdvance(s, p)
  }

  /** kfork, once the child's slot is set up. */
  function ForkAdvance(s: System, p: nat): System
    requires p < |s.procs| && CanAdvance(s, p) && Forking(s.procs[p].pc)
  {
    var c := s.procs[p].pc.c;
    if s.procs[p].pc.Linking? then
      At(s.(procs := s.procs[c := s.procs[c].(parent := ChildOf(p))]), p, Starting(c))
    else
      Return(s.(procs := s.procs[c := s.procs[c].(state := ACTIVE)]), p, s.procs[c].pid)
  }

  /** kexit, with reparent and the two wakeups. */
  function ExitAdvance(s: System, p: nat): System
    requires p < |s.procs| && CanAdvance(s, p) && Exits(s.procs[p].pc)
  {
    var me, n := s.procs[p], |s.procs|;
    match me.pc
    case ExitEntering => At(s.(waitLock := HeldBy(p)), p, Reparenting(0))
    case Reparenting(k) =>
      if k >= n then At(s, p, WakingParent(0))
      else if s.procs[k].parent == ChildOf(p) then
        At(s.(procs := s.procs[k := s.procs[k].(parent := ChildOf(INIT))]), p, WakingInit(k, 0))
      else At(s, p, Reparenting(k + 1))
    case WakingInit(k, j) =>
      if j < n then At(WakeOne(s, OnProc(INIT), j), p, WakingInit(k, j + 1)) else At(s, p, Reparenting(k + 1))
    case WakingParent(j) =>
      if j < n then At(WakeOne(s, ParentChan(s, p), j), p, WakingParent(j + 1))
      else s.(procs := s.procs[p := me.(state := ZOMBIE, pc := Outside)], waitLock := Free)
  }

  /** kwait, with sleep_prepare and sleep. */
  function WaitAdvance(s: System, p: nat): System
    requires p < |s.procs| && CanAdvance(s, p) && !Forking(s.procs[p].pc) && !Exits(s.procs[p].pc)
  {
    var me, n := s.procs[p], |s.procs|;
    match me.pc
    case WaitEntering => At(s.(waitLock := HeldBy(p)), p, Scanning(0, false))
    case Scanning(k, kids) =>
      if k >= n then
        (if !kids || me.killed then Return(s.(waitLock := Free), p, -1) else At(s, p, Preparing))
      else if s.procs[k].parent != ChildOf(p) then At(s, p, Scanning(k + 1, kids))
      else if s.procs[k].state == ZOMBIE then
        Return(FreeSlot(s, k).(waitLock := Free, reaped := s.reaped + [s.procs[k].pid]), p, s.procs[k].pid)
      else At(s, p, Scanning(k + 1, true))
    case Preparing => s.(procs := s.procs[p := me.(chan := OnProc(p), pc := Releasing)])
    case Releasing => At(s.(waitLock := Free), p, Resting)
    case Resting =>
      if me.chan.NoChan? then At(s, p, WaitEntering) else s.(procs := s.procs[p := me.(state := SLEEPING,
          pc := Asleep)])
    case Asleep => At(s, p, WaitEntering)
  }

  predicate Forking(pc: Pc) {
    pc.Linking? || pc.Starting?
  }

  predicate Exits(pc: Pc) {
    pc.ExitEntering? || pc.Reparenting? || pc.WakingInit? || pc.WakingParent?
  }

  // ---------------------------------------------------------------- the invariant

  predicate WithLock(pc: Pc) {
    pc.Reparenting? || pc.WakingInit? || pc.WakingParent? || pc.Scanning? || pc.Preparing? || pc.Releasing?
  }

  predicate Alive(st: ProcState) {
    st == ACTIVE || st == SLEEPING
  }

  predicate Registered(s: System, p: nat)
    requires p < |s.procs|
  {
    s.procs[p].chan == OnProc(p)
  }

  predicate Child(s: System, p: nat, c: nat)
    requires c < |s.procs|
  {
    s.procs[c].parent == ChildOf(p)
  }

  /** What each slot looks like in each state. */
  ghost predicate SlotOk(s: System, p: nat)
    requires p < |s.procs|
  {
    var P := s.procs[p];
    && (P.state == UNUSED ==> P.pid == 0 && P.parent == NoParent)
    && (P.state == UNUSED || P.state == USED ==> P.chan == NoChan)
    && (P.pc != Outside ==> Alive(P.state))
    && (P.state == SLEEPING ==> P.pc == Asleep && Registered(s, p))
    && (P.chan.OnProc? ==> P.chan.q == p)
    && (P.pc == Resting || P.pc == Releasing ==> P.chan == NoChan || Registered(s, p))
    && (P.parent.ChildOf? ==> P.parent.q < |s.procs|)
    && (Forking(P.pc) ==> P.pc.c < |s.procs|)
    && (p == INIT ==> Alive(P.state) && P.pid == 1 && P.parent == NoParent && !Exits(P.pc))
    && (p != INIT && (Alive(P.state) || P.state == ZOMBIE) ==> P.parent.ChildOf?)
    && (P.state != UNUSED ==> 1 <= P.pid < s.nextPid && P.pid !in s.reaped)
    && (P.state != UNUSED && p != INIT ==> P.pid > 1)
  }

  ghost predicate LockOk(s: System, p: nat)
    requires p < |s.procs|
  {
    s.waitLock == HeldBy(p) <==> WithLock(s.procs[p].pc)
  }

  /** A set parent link leads to a living process with a smaller pid; an exiting parent loses its children slot
      by slot. */
  ghost predicate LinkOk(s: System, p: nat, c: nat)
    requires p < |s.procs| && c < |s.procs|
  {
    var pc := s.procs[p].pc;
    Child(s, p, c) ==>
      && Alive(s.procs[p].state) && s.procs[c].state != UNUSED && s.procs[p].pid < s.procs[c].pid
      && (pc.Reparenting? ==> c >= pc.k) && (pc.WakingInit? ==> c > pc.k) && !pc.WakingParent?
  }

  /** A slot being set up by kfork belongs to one parent. */
  ghost predicate ForkOk(s: System, p: nat, c: nat)
    requires p < |s.procs| && c < |s.procs|
  {
    && (s.procs[p].pc == Linking(c) ==>
         p != c && s.procs[c].state == USED && s.procs[c].parent == NoParent && s.procs[p].pid < s.procs[c].pid)
    && (s.procs[p].pc == Starting(c) ==> p != c && s.procs[c].state == USED && Child(s, p, c))
    && (p != c && Forking(s.procs[p].pc) && Forking(s.procs[c].pc) ==> s.procs[p].pc.c != s.procs[c].pc.c)
    && (p != c && s.procs[p].state != UNUSED && s.procs[c].state != UNUSED ==> s.procs[p].pid != s.procs[c].pid)
  }

  /** wakeup(initproc) has not yet reached init after slot c was given to it. */
  ghost predicate InitToBeWoken(s: System, p: nat, c: nat) {
    && p == INIT && s.waitLock.HeldBy? && s.waitLock.p < |s.procs|
    && var pc := s.procs[s.waitLock.p].pc; pc.WakingInit? && pc.k == c && pc.j <= INIT
  }

  /** A zombie child of p: p is not registered on its own channel, unless it is about to be woken; a scan by p has
      not passed it; and p is not about to register. */
  ghost predicate ZombieOk(s: System, p: nat, c: nat)
    requires p < |s.procs| && c < |s.procs|
  {
    var pc := s.procs[p].pc;
    Child(s, p, c) && s.procs[c].state == ZOMBIE ==>
      && (Registered(s, p) ==> InitToBeWoken(s, p, c))
      && (pc.Scanning? ==> c >= pc.k) && !pc.Preparing?
  }

  /** The last wakeup of an exiting process c has passed its parent, or the parent is not registered; a scan that
      has seen a child remembers it. */
  ghost predicate WakeOk(s: System, p: nat, c: nat)
    requires p < |s.procs| && c < |s.procs|
  {
    && (Child(s, p, c) && s.procs[c].pc.WakingParent? && Registered(s, p) ==> s.procs[c].pc.j <= p)
    && (Child(s, p, c) && s.procs[p].pc.Scanning? && c < s.procs[p].pc.k ==> s.procs[p].pc.kids)
  }

  ghost predicate Inv(s: System) {
    && |s.procs| > 0
    && (s.waitLock.HeldBy? ==> s.waitLock.p < |s.procs|)
    && (forall x {:trigger s.reaped[x]} :: 0 <= x < |s.reaped| ==>
        s.reaped[x] < s.nextPid && s.reaped[x] !in s.reaped[..x])
    && (forall p {:trigger SlotOk(s, p)} :: 0 <= p < |s.procs| ==> SlotOk(s, p))
    && (forall p {:trigger LockOk(s, p)} :: 0 <= p < |s.procs| ==> LockOk(s, p))
    && (forall p, c {:trigger LinkOk(s, p, c)} :: 0 <= p < |s.procs| && 0 <= c < |s.procs| ==> LinkOk(s, p, c))
    && (forall p, c {:trigger ForkOk(s, p, c)} :: 0 <= p < |s.procs| && 0 <= c < |s.procs| ==> ForkOk(s, p, c))
    && (forall p, c {:trigger ZombieOk(s, p, c)} :: 0 <= p < |s.procs| && 0 <= c < |s.procs| ==> ZombieOk(s, p, c))
    && (forall p, c {:trigger WakeOk(s, p, c)} :: 0 <= p < |s.procs| && 0 <= c < |s.procs| ==> WakeOk(s, p, c))
  }

  // ---------------------------------------------------------------- steps that leave the tree alone

  function Woken(P: Proc): Proc {
    P.(chan := NoChan, state := if P.state == SLEEPING then ACTIVE else P.state)
  }

  /** Only process p moves, at most waking others; no slot is taken, linked, ended or freed. */
  ghost predicate Quiet(s: System, s': System, p: nat) {
    && |s'.procs| == |s.procs| && s'.nextPid == s.nextPid && s'.reaped == s.reaped && p < |s.procs|
    && (var P, P' := s.procs[p], s'.procs[p];
        && P'.pid == P.pid && P'.parent == P.parent && (Forking(P.pc) || Forking(P'.pc) ==> P'.pc == P.pc)
        && (P'.state == P.state || (Alive(P.state) && Alive(P'.state))))
    && (forall q {:trigger s'.procs[q]} :: 0 <= q < |s.procs| && q != p ==>
         s'.procs[q] == s.procs[q] || s'.procs[q] == Woken(s.procs[q]))
    && (s'.waitLock == s.waitLock || (s.waitLock.Free? && s'.waitLock == HeldBy(p)) ||
        (s.waitLock == HeldBy(p) && s'.waitLock.Free?))
  }

  /** What remains to be shown about p itself. */
  ghost predicate QuietOk(s': System, p: nat, c: nat)
    requires p < |s'.procs| && c < |s'.procs|
  {
    LinkOk(s', p, c) && ZombieOk(s', p, c) && WakeOk(s', p, c) && WakeOk(s', c, p)
  }

  lemma QuietPair(s: System, s': System, p: nat, q: nat, c: nat)
    requires Inv(s) && Quiet(s, s', p) && q < |s.procs| && c < |s.procs|
    requires QuietOk(s', p, c) && QuietOk(s', p, q) && LockOk(s', p)
    requires InitToBeWoken(s, q, c) && Registered(s', q) ==> InitToBeWoken(s', q, c)
    ensures LinkOk(s', q, c) && ForkOk(s', q, c) && ZombieOk(s', q, c) && WakeOk(s', q, c)
  {
    assert LinkOk(s, q, c) && ForkOk(s, q, c) && ZombieOk(s, q, c) && WakeOk(s, q, c);
  }

  lemma QuietInv(s: System, s': System, p: nat)
    requires Inv(s) && Quiet(s, s', p) && SlotOk(s', p) && LockOk(s', p)
    requires forall c {:trigger QuietOk(s', p, c)} :: 0 <= c < |s.procs| ==> QuietOk(s', p, c)
    requires forall c {:trigger InitToBeWoken(s', INIT, c)} :: 0 <= c < |s.procs| ==>
               InitToBeWoken(s, INIT, c) && Registered(s', INIT) ==> InitToBeWoken(s', INIT, c)
    ensures Inv(s')
  {
    forall q | 0 <= q < |s.procs| ensures SlotOk(s', q) && LockOk(s', q) {
      assert SlotOk(s, q) && LockOk(s, q) && LockOk(s, p);
    }
    forall q, c | 0 <= q < |s.procs| && 0 <= c < |s.procs|
      ensures LinkOk(s', q, c) && ForkOk(s', q, c) && ZombieOk(s', q, c) && WakeOk(s', q, c)
    {
      assert QuietOk(s', p, c) && QuietOk(s', p, q);
      QuietPair(s, s', p, q, c);
    }
  }

  /** The facts about p that its own steps depend on. */
  lemma Facts(s: System, p: nat, c: nat)
    requires Inv(s) && p < |s.procs| && c < |s.procs|
    ensures SlotOk(s, p) && LockOk(s, p)
    ensures LinkOk(s, p, c) && ZombieOk(s, p, c) && WakeOk(s, p, c) && WakeOk(s, c, p)
  {
    assert SlotOk(s, p) && LockOk(s, p) && LinkOk(s, p, c) && ZombieOk(s, p, c) && WakeOk(s, p, c) && WakeOk(s, c, p);
  }

  /** kexit takes the lock and walks past slots that are not its children. */
  predicate QuietExit(s: System, p: nat)
    requires p < |s.procs|
  {
    match s.procs[p].pc
    case ExitEntering => true
    case Reparenting(k) => k >= |s.procs| || !Child(s, p, k)
    case WakingInit(k, j) => j >= |s.procs|
    case _ => false
  }

  lemma QuietExitStep(s: System, p: nat)
    requires Inv(s) && IsActive(s, p) && CanAdvance(s, p) && QuietExit(s, p)
    ensures Inv(ExitAdvance(s, p))
  {
    var s' := ExitAdvance(s, p);
    Facts(s, p, p);
    forall c | 0 <= c < |s.procs| ensures QuietOk(s', p, c) {
      Facts(s, p, c);
    }
    QuietInv(s, s', p);
  }

  /** The two wakeups in kexit. */
  predicate Wakes(s: System, p: nat) {
    IsActive(s, p) && (s.procs[p].pc.WakingInit? || s.procs[p].pc.WakingParent?) && s.procs[p].pc.j < |s.procs|
  }

  lemma WakeQuiet(s: System, p: nat, c: nat)
    requires Inv(s) && Wakes(s, p) && c < |s.procs|
    ensures QuietOk(ExitAdvance(s, p), p, c)
  {
    Facts(s, p, c);
  }

  lemma WakeIsQuiet(s: System, p: nat)
    requires Inv(s) && Wakes(s, p)
    ensures Quiet(s, ExitAdvance(s, p), p) && SlotOk(ExitAdvance(s, p), p) && LockOk(ExitAdvance(s, p), p)
  {
    Facts(s, p, p);
  }

  lemma WakeStep(s: System, p: nat)
    requires Inv(s) && Wakes(s, p)
    ensures Inv(ExitAdvance(s, p))
  {
    var s' := ExitAdvance(s, p);
    WakeIsQuiet(s, p);
    forall c | 0 <= c < |s.procs| ensures QuietOk(s', p, c) {
      WakeQuiet(s, p, c);
    }
    QuietInv(s, s', p);
  }

  /** kwait walks past slots that are not its zombie children, registers, and goes to sleep. */
  predicate QuietWait(s: System, p: nat)
    requires p < |s.procs|
  {
    match s.procs[p].pc
    case Scanning(k, kids) => k >= |s.procs| || !Child(s, p, k) || s.procs[k].state != ZOMBIE
    case WaitEntering => true
    case Preparing => true
    case Releasing => true
    case Resting => true
    case Asleep => true
    case _ => false
  }

  lemma QuietWaitLinks(s: System, p: nat, c: nat)
    requires Inv(s) && IsActive(s, p) && CanAdvance(s, p) && QuietWait(s, p) && c < |s.procs|
    ensures LinkOk(WaitAdvance(s, p), p, c) && ZombieOk(WaitAdvance(s, p), p, c)
  {
    Facts(s, p, c);
  }

  lemma QuietWaitWakes(s: System, p: nat, c: nat)
    requires Inv(s) && IsActive(s, p) && CanAdvance(s, p) && QuietWait(s, p) && c < |s.procs|
    ensures WakeOk(WaitAdvance(s, p), p, c) && WakeOk(WaitAdvance(s, p), c, p)
  {
    assert WakeOk(s, p, c) && WakeOk(s, c, p) && LockOk(s, p) && LockOk(s, c);
  }

  lemma QuietWaitStep(s: System, p: nat)
    requires Inv(s) && IsActive(s, p) && CanAdvance(s, p) && QuietWait(s, p)
    ensures Inv(WaitAdvance(s, p))
  {
    var s' := WaitAdvance(s, p);
    assert SlotOk(s, p) && LockOk(s, p);
    forall c | 0 <= c < |s.procs| ensures QuietOk(s', p, c) {
      QuietWaitLinks(s, p, c);
      QuietWaitWakes(s, p, c);
    }
    QuietInv(s, s', p);
  }

  predicate OtherEvent(e: Event) {
    e.BeginExit? || e.BeginWait? || e.CopyFails? || e.Kill? || e.Elsewhere?
  }

  lemma OtherQuiet(s: System, e: Event, c: nat)
    requires Inv(s) && Enabled(s, e) && OtherEvent(e) && c < |s.procs|
    ensures QuietOk(Step(s, e), e.p, c)
  {
    Facts(s, e.p, c);
  }

  lemma OtherStep(s: System, e: Event)
    requires Inv(s) && Enabled(s, e) && OtherEvent(e)
    ensures Inv(Step(s, e))
  {
    var s' := Step(s, e);
    Facts(s, e.p, e.p);
    forall c | 0 <= c < |s.procs| ensures QuietOk(s', e.p, c) {
      OtherQuiet(s, e, c);
    }
    QuietInv(s, s', e.p);
  }

  // ---------------------------------------------------------------- steps that change the tree

  /** The facts about slots p and c, and about the actor x, that a change of the tree depends on. */
  lemma TreeFacts(s: System, x: nat, p: nat, c: nat)
    requires Inv(s) && x < |s.procs| && p < |s.procs| && c < |s.procs|
    ensures SlotOk(s, x) && SlotOk(s, p) && SlotOk(s, c) && SlotOk(s, INIT) && LockOk(s, x) && LockOk(s, p)
    ensures LinkOk(s, p, c) && ForkOk(s, p, c) && ZombieOk(s, p, c) && WakeOk(s, p, c)
    ensures ForkOk(s, x, p) && ForkOk(s, x, c)
  {
    assert SlotOk(s, x) && SlotOk(s, p) && SlotOk(s, c) && SlotOk(s, INIT) && LockOk(s, x) && LockOk(s, p);
    assert LinkOk(s, p, c) && ForkOk(s, p, c) && ZombieOk(s, p, c) && WakeOk(s, p, c);
    assert ForkOk(s, x, p) && ForkOk(s, x, c);
  }

  predicate SlotEvent(e: Event) {
    e.BeginFork? || e.AbortFork?
  }

  function SlotOf(s: System, e: Event): nat
    requires Enabled(s, e) && SlotEvent(e)
  {
    if e.BeginFork? then e.c else s.procs[e.p].pc.c
  }

  /** kfork takes a slot or gives it back. */
  lemma TakeLinks(s: System, e: Event, p: nat, c: nat)
    requires Inv(s) && Enabled(s, e) && SlotEvent(e) && p < |s.procs| && c < |s.procs|
    ensures LinkOk(Step(s, e), p, c)
  {
    assert LinkOk(s, p, c) && SlotOk(s, e.p) && SlotOk(s, p) && SlotOk(s, c) && ForkOk(s, e.p, p) && ForkOk(s, e.p, c);
  }

  lemma TakeForks(s: System, e: Event, p: nat, c: nat)
    requires Inv(s) && Enabled(s, e) && SlotEvent(e) && p < |s.procs| && c < |s.procs|
    ensures ForkOk(Step(s, e), p, c)
  {
    assert ForkOk(s, p, c) && SlotOk(s, e.p) && SlotOk(s, p) && SlotOk(s, c);
    assert ForkOk(s, e.p, p) && ForkOk(s, e.p, c) && ForkOk(s, p, SlotOf(s, e)) && ForkOk(s, c, SlotOf(s, e));
  }

  lemma TakeWakes(s: System, e: Event, p: nat, c: nat)
    requires Inv(s) && Enabled(s, e) && SlotEvent(e) && p < |s.procs| && c < |s.procs|
    ensures ZombieOk(Step(s, e), p, c) && WakeOk(Step(s, e), p, c)
  {
    assert ZombieOk(s, p, c) && WakeOk(s, p, c) && SlotOk(s, c) && LockOk(s, p);
    assert ForkOk(s, e.p, p) && ForkOk(s, e.p, c) && LockOk(s, e.p);
    if s.waitLock.HeldBy? {
      var h := s.waitLock.p;
      assert LockOk(s, h) && SlotOk(s, h) && ForkOk(s, e.p, h);
    }
  }

  lemma TakeSlot(s: System, e: Event, p: nat)
    requires Inv(s) && Enabled(s, e) && SlotEvent(e) && p < |s.procs|
    ensures SlotOk(Step(s, e), p) && LockOk(Step(s, e), p)
  {
    assert SlotOk(s, e.p) && SlotOk(s, p) && LockOk(s, p) && ForkOk(s, e.p, p);
  }

  lemma TakeInv(s: System, e: Event)
    requires Inv(s) && Enabled(s, e) && SlotEvent(e)
    ensures Inv(Step(s, e))
  {
    var s' := Step(s, e);
    forall p | 0 <= p < |s.procs| ensures SlotOk(s', p) && LockOk(s', p) {
      TakeSlot(s, e, p);
    }
    forall p, c | 0 <= p < |s.procs| && 0 <= c < |s.procs|
      ensures LinkOk(s', p, c) && ForkOk(s', p, c) && ZombieOk(s', p, c) && WakeOk(s', p, c)
    {
      TakeLinks(s, e, p, c);
      TakeForks(s, e, p, c);
      TakeWakes(s, e, p, c);
    }
  }

  /** kfork links its child and starts it. */
  lemma StartLinks(s: System, x: nat, p: nat, c: nat)
    requires Inv(s) && IsActive(s, x) && CanAdvance(s, x) && Forking(s.procs[x].pc) && p < |s.procs| && c < |s.procs|
    ensures LinkOk(ForkAdvance(s, x), p, c) && ForkOk(ForkAdvance(s, x), p, c)
  {
    assert LinkOk(s, p, c) && ForkOk(s, p, c) && SlotOk(s, x) && SlotOk(s, p) && SlotOk(s, c);
    assert ForkOk(s, x, p) && ForkOk(s, x, c) && ForkOk(s, p, s.procs[x].pc.c) && ForkOk(s, c, s.procs[x].pc.c);
  }

  lemma StartWakes(s: System, x: nat, p: nat, c: nat)
    requires Inv(s) && IsActive(s, x) && CanAdvance(s, x) && Forking(s.procs[x].pc) && p < |s.procs| && c < |s.procs|
    ensures ZombieOk(ForkAdvance(s, x), p, c) && WakeOk(ForkAdvance(s, x), p, c)
  {
    assert ZombieOk(s, p, c) && WakeOk(s, p, c) && SlotOk(s, c) && LockOk(s, p);
    assert ForkOk(s, x, p) && ForkOk(s, x, c) && LockOk(s, x);
    if s.waitLock.HeldBy? {
      var h := s.waitLock.p;
      assert LockOk(s, h) && SlotOk(s, h) && ForkOk(s, x, h);
    }
  }

  lemma StartSlot(s: System, x: nat, p: nat)
    requires Inv(s) && IsActive(s, x) && CanAdvance(s, x) && Forking(s.procs[x].pc) && p < |s.procs|
    ensures SlotOk(ForkAdvance(s, x), p) && LockOk(ForkAdvance(s, x), p)
  {
    assert SlotOk(s, x) && SlotOk(s, p) && LockOk(s, p) && ForkOk(s, x, p);
  }

  lemma StartInv(s: System, x: nat)
    requires Inv(s) && IsActive(s, x) && CanAdvance(s, x) && Forking(s.procs[x].pc)
    ensures Inv(ForkAdvance(s, x))
  {
    var s' := ForkAdvance(s, x);
    forall p | 0 <= p < |s.procs| ensures SlotOk(s', p) && LockOk(s', p) {
      StartSlot(s, x, p);
    }
    forall p, c | 0 <= p < |s.procs| && 0 <= c < |s.procs|
      ensures LinkOk(s', p, c) && ForkOk(s', p, c) && ZombieOk(s', p, c) && WakeOk(s', p, c)
    {
      StartLinks(s, x, p, c);
      StartWakes(s, x, p, c);
    }
  }

  predicate Adopts(s: System, x: nat) {
    IsActive(s, x) && s.procs[x].pc.Reparenting? && s.procs[x].pc.k < |s.procs| && Child(s, x, s.procs[x].pc.k)
  }

  /** A child of an exiting process goes to init. */
  lemma AdoptPair(s: System, x: nat, p: nat, c: nat)
    requires Inv(s) && Adopts(s, x)
    requires p < |s.procs| && c < |s.procs|
    ensures var s' := ExitAdvance(s, x); LinkOk(s', p, c) && ForkOk(s', p, c) && ZombieOk(s', p, c) && WakeOk(s', p, c)
  {
    TreeFacts(s, x, p, c);
    TreeFacts(s, x, x, c);
    assert LockOk(s, c) && LinkOk(s, x, s.procs[x].pc.k);
  }

  lemma AdoptSlot(s: System, x: nat, p: nat)
    requires Inv(s) && Adopts(s, x) && p < |s.procs|
    ensures SlotOk(ExitAdvance(s, x), p) && LockOk(ExitAdvance(s, x), p)
  {
    assert SlotOk(s, x) && SlotOk(s, p) && LockOk(s, p) && LinkOk(s, x, p);
  }

  lemma AdoptInv(s: System, x: nat)
    requires Inv(s) && Adopts(s, x)
    ensures Inv(ExitAdvance(s, x))
  {
    var s' := ExitAdvance(s, x);
    forall p | 0 <= p < |s.procs| ensures SlotOk(s', p) && LockOk(s', p) {
      AdoptSlot(s, x, p);
    }
    forall p, c | 0 <= p < |s.procs| && 0 <= c < |s.procs|
      ensures LinkOk(s', p, c) && ForkOk(s', p, c) && ZombieOk(s', p, c) && WakeOk(s', p, c)
    {
      AdoptPair(s, x, p, c);
    }
  }

  predicate Dies(s: System, x: nat) {
    IsActive(s, x) && s.procs[x].pc.WakingParent? && s.procs[x].pc.j >= |s.procs|
  }

  /** An exiting process that has given away its children and woken its parent becomes a zombie. */
  lemma DeathPair(s: System, x: nat, p: nat, c: nat)
    requires Inv(s) && Dies(s, x)
    requires p < |s.procs| && c < |s.procs|
    ensures var s' := ExitAdvance(s, x); LinkOk(s', p, c) && ForkOk(s', p, c) && ZombieOk(s', p, c) && WakeOk(s', p, c)
  {
    TreeFacts(s, x, p, c);
  }

  lemma DeathSlot(s: System, x: nat, p: nat)
    requires Inv(s) && Dies(s, x) && p < |s.procs|
    ensures SlotOk(ExitAdvance(s, x), p) && LockOk(ExitAdvance(s, x), p)
  {
    assert SlotOk(s, x) && SlotOk(s, p) && LockOk(s, p) && LockOk(s, x);
  }

  lemma DeathInv(s: System, x: nat)
    requires Inv(s) && Dies(s, x)
    ensures Inv(ExitAdvance(s, x))
  {
    var s' := ExitAdvance(s, x);
    forall p | 0 <= p < |s.procs| ensures SlotOk(s', p) && LockOk(s', p) {
      DeathSlot(s, x, p);
    }
    forall p, c | 0 <= p < |s.procs| && 0 <= c < |s.procs|
      ensures LinkOk(s', p, c) && ForkOk(s', p, c) && ZombieOk(s', p, c) && WakeOk(s', p, c)
    {
      DeathPair(s, x, p, c);
    }
  }

  /** A waiting parent frees a zombie child. */
  lemma ReapPair(s: System, x: nat, p: nat, c: nat)
    requires Inv(s) && IsActive(s, x) && FoundZombie(s, x)
    requires p < |s.procs| && c < |s.procs|
    ensures var s' := WaitAdvance(s, x); LinkOk(s', p, c) && ForkOk(s', p, c) && ZombieOk(s', p, c) && WakeOk(s', p, c)
  {
    assert SlotOk(s, x) && SlotOk(s, p) && SlotOk(s, c) && LockOk(s, x) && LockOk(s, p);
    assert LinkOk(s, p, c) && ForkOk(s, p, c) && ZombieOk(s, p, c) && WakeOk(s, p, c);
  }

  lemma ReapSlot(s: System, x: nat, p: nat)
    requires Inv(s) && IsActive(s, x) && FoundZombie(s, x) && p < |s.procs|
    ensures SlotOk(WaitAdvance(s, x), p) && LockOk(WaitAdvance(s, x), p)
  {
    assert SlotOk(s, x) && SlotOk(s, p) && LockOk(s, p) && LockOk(s, x) && ForkOk(s, p, s.procs[x].pc.k);
  }

  lemma ReapInv(s: System, x: nat)
    requires Inv(s) && IsActive(s, x) && FoundZombie(s, x)
    ensures Inv(WaitAdvance(s, x))
  {
    var s' := WaitAdvance(s, x);
    forall p | 0 <= p < |s.procs| ensures SlotOk(s', p) && LockOk(s', p) {
      ReapSlot(s, x, p);
    }
    forall p, c | 0 <= p < |s.procs| && 0 <= c < |s.procs|
      ensures LinkOk(s', p, c) && ForkOk(s', p, c) && ZombieOk(s', p, c) && WakeOk(s', p, c)
    {
      ReapPair(s, x, p, c);
    }
    assert SlotOk(s, s.procs[x].pc.k);
    forall y | 0 <= y < |s'.reaped| ensures s'.reaped[y] < s'.nextPid && s'.reaped[y] !in s'.reaped[..y] {
      assert y < |s.reaped| ==> s'.reaped[..y] == s.reaped[..y] && s'.reaped[y] == s.reaped[y];
      assert y == |s.reaped| ==> s'.reaped[..y] == s.reaped;
    }
  }

  // ---------------------------------------------------------------- every run

  lemma InvInitially(n: nat)
    requires n > 0
    ensures Inv(InitialSystem(n))
  {
  }

  lemma AdvanceInv(s: System, p: nat)
    requires Inv(s) && IsActive(s, p) && CanAdvance(s, p)
    ensures Inv(AdvanceStep(s, p))
  {
    var pc := s.procs[p].pc;
    if Forking(pc) {
      StartInv(s, p);
    } else if Adopts(s, p) {
      AdoptInv(s, p);
    } else if Dies(s, p) {
      DeathInv(s, p);
    } else if FoundZombie(s, p) {
      ReapInv(s, p);
    } else if QuietExit(s, p) {
      QuietExitStep(s, p);
    } else if QuietWait(s, p) {
      QuietWaitStep(s, p);
    } else {
      WakeStep(s, p);
    }
  }

  lemma InvStep(s: System, e: Event)
    requires Inv(s) && Enabled(s, e)
    ensures Inv(Step(s, e))
  {
    if SlotEvent(e) {
      TakeInv(s, e);
    } else if e.Advance? {
      AdvanceInv(s, e.p);
    } else {
      OtherStep(s, e);
    }
  }

  predicate Runs(s: System, es: seq<Event>)
    decreases |es|
  {
    es == [] || (Enabled(s, es[0]) && Runs(Step(s, es[0]), es[1..]))
  }

  function After(s: System, es: seq<Event>): System
    requires Runs(s, es)
    decreases |es|
  {
    if es == [] then s else After(Step(s, es[0]), es[1..])
  }

  lemma {:induction false} InvAlways(s: System, es: seq<Event>)
    requires Inv(s) && Runs(s, es)
    ensures Inv(After(s, es))
    decreases |es|
  {
    if es != [] {
      InvStep(s, es[0]);
      InvAlways(Step(s, es[0]), es[1..]);
    }
  }

  // ---------------------------------------------------------------- the life of a slot

  /** The changes of state that a slot goes through, with who makes them. */
  predicate Moves(s: System, e: Event, c: nat, to: ProcState)
    requires e.p < |s.procs| && c < |s.procs|
  {
    match (s.procs[c].state, to)
    case (UNUSED, USED) => e.BeginFork? && e.c == c
    case (USED, UNUSED) => e.AbortFork? && s.procs[e.p].pc == Linking(c)
    case (USED, ACTIVE) => e.Advance? && s.procs[e.p].pc == Starting(c) && Child(s, e.p, c)
    case (ACTIVE, SLEEPING) => e == Advance(c) && s.procs[c].pc.Resting? && Registered(s, c)
    case (SLEEPING, ACTIVE) => e == Kill(c) || (e.Advance? && Rouser(s, e.p, c))
    case (ACTIVE, ZOMBIE) => e == Advance(c) && s.procs[c].pc.WakingParent?
    case (ZOMBIE, UNUSED) => e.Advance? && FoundZombie(s, e.p) && s.procs[e.p].pc.k == c
    case _ => false
  }

  /** An exiting process wakes its parent, and init when it gives a child to it. */
  predicate Rouser(s: System, x: nat, p: nat)
    requires x < |s.procs|
  {
    x != p && ((s.procs[x].pc.WakingParent? && Child(s, p, x)) || (s.procs[x].pc.WakingInit? && p == INIT))
  }

  /** A pid is handed out once and stays until the slot is freed; a slot that is freed is as good as new. */
  predicate KeepsPid(s: System, s': System, c: nat)
    requires c < |s.procs| == |s'.procs|
  {
    var P, P' := s.procs[c], s'.procs[c];
    && (P'.pid != P.pid ==> P'.state != P.state && (P.state == UNUSED || P'.state == UNUSED))
    && (P.state == UNUSED && P'.state == USED ==> P'.pid == s.nextPid && s.nextPid < s'.nextPid)
    && (P.state != UNUSED && P'.state == UNUSED ==> P' == Proc(UNUSED, 0, NoParent, NoChan, false, Outside, 0))
  }

  /** A parent link is set by the parent's kfork, and given up by the parent only: to init when it exits, to nobody
      when it frees the slot. */
  predicate KeepsParent(s: System, s': System, e: Event, c: nat)
    requires e.p < |s.procs| && c < |s.procs| == |s'.procs|
  {
    var P, P' := s.procs[c], s'.procs[c];
    P'.parent != P.parent ==>
      && e.Advance?
      && match P'.parent
         case NoParent => P.parent == ChildOf(e.p) && P.state == ZOMBIE && P'.state == UNUSED
         case ChildOf(q) =>
           || (P.parent == NoParent && q == e.p && s.procs[e.p].pc == Linking(c))
           || (P.parent == ChildOf(e.p) && q == INIT && Exits(s.procs[e.p].pc))
  }

  /** What one step may do to one slot; and only a process itself moves inside its calls. */
  predicate SlotLaw(s: System, s': System, e: Event, c: nat) {
    && e.p < |s.procs| == |s'.procs| && c < |s.procs|
    && (s'.procs[c].state != s.procs[c].state ==> Moves(s, e, c, s'.procs[c].state))
    && KeepsPid(s, s', c) && KeepsParent(s, s', e, c)
    && (e.p != c ==> s'.procs[c].pc == s.procs[c].pc)
  }

  lemma TakeLaw(s: System, e: Event, c: nat)
    requires Inv(s) && Enabled(s, e) && SlotEvent(e) && c < |s.procs|
    ensures SlotLaw(s, Step(s, e), e, c)
  {
    assert SlotOk(s, c) && SlotOk(s, e.p) && ForkOk(s, e.p, c);
  }

  lemma ForkLaw(s: System, p: nat, c: nat)
    requires Inv(s) && IsActive(s, p) && CanAdvance(s, p) && Forking(s.procs[p].pc) && c < |s.procs|
    ensures SlotLaw(s, ForkAdvance(s, p), Advance(p), c)
  {
    assert SlotOk(s, c) && SlotOk(s, p) && ForkOk(s, p, c);
  }

  lemma ExitLaw(s: System, p: nat, c: nat)
    requires Inv(s) && IsActive(s, p) && CanAdvance(s, p) && Exits(s.procs[p].pc) && c < |s.procs|
    ensures SlotLaw(s, ExitAdvance(s, p), Advance(p), c)
  {
    assert SlotOk(s, c) && SlotOk(s, p) && LinkOk(s, p, c);
  }

  lemma WaitLaw(s: System, p: nat, c: nat)
    requires Inv(s) && IsActive(s, p) && CanAdvance(s, p) && !Forking(s.procs[p].pc) && !Exits(s.procs[p].pc)
    requires c < |s.procs|
    ensures SlotLaw(s, WaitAdvance(s, p), Advance(p), c)
  {
    assert SlotOk(s, c) && SlotOk(s, p);
  }

  lemma OtherLaw(s: System, e: Event, c: nat)
    requires Inv(s) && Enabled(s, e) && OtherEvent(e) && c < |s.procs|
    ensures SlotLaw(s, Step(s, e), e, c)
  {
    assert SlotOk(s, c);
  }

  /** Every step of every process leaves every slot on the way through its life. */
  lemma LifeCycle(s: System, e: Event, c: nat)
    requires Inv(s) && Enabled(s, e) && c < |s.procs|
    ensures SlotLaw(s, Step(s, e), e, c)
  {
    if SlotEvent(e) {
      TakeLaw(s, e, c);
    } else if !e.Advance? {
      OtherLaw(s, e, c);
    } else if Forking(s.procs[e.p].pc) {
      ForkLaw(s, e.p, c);
    } else if Exits(s.procs[e.p].pc) {
      ExitLaw(s, e.p, c);
    } else {
      WaitLaw(s, e.p, c);
    }
  }

  // ---------------------------------------------------------------- children and slots that are really there

  /** A kwait that counts on having a child has one. */
  ghost predicate HasChild(s: System, p: nat)
    requires p < |s.procs|
  {
    Counts(s.procs[p].pc) ==> exists c {:trigger Child(s, p, c)} :: 0 <= c < |s.procs| && Child(s, p, c)
  }

  predicate Counts(pc: Pc) {
    (pc.Scanning? && pc.kids) || pc.Preparing? || pc.Releasing? || pc.Resting? || pc.Asleep?
  }

  /** A slot in state USED is being set up by somebody's kfork. */
  ghost predicate HasForker(s: System, c: nat)
    requires c < |s.procs|
  {
    s.procs[c].state == USED ==>
      exists x {:trigger s.procs[x]} :: 0 <= x < |s.procs| && Forking(s.procs[x].pc) && s.procs[x].pc.c == c
  }

  ghost predicate Witnessed(s: System) {
    && (forall p {:trigger HasChild(s, p)} :: 0 <= p < |s.procs| ==> HasChild(s, p))
    && (forall c {:trigger HasForker(s, c)} :: 0 <= c < |s.procs| ==> HasForker(s, c))
  }

  /** Children stay with a parent that neither exits nor frees them. */
  lemma ChildStays(s: System, e: Event, p: nat, c: nat)
    requires Inv(s) && Enabled(s, e) && p < |s.procs| && c < |s.procs| && Child(s, p, c)
    requires e != Advance(p) || !(Exits(s.procs[p].pc) || FoundZombie(s, p))
    ensures Child(Step(s, e), p, c)
  {
    LifeCycle(s, e, c);
  }

  lemma CountsWait(s: System, p: nat)
    requires Inv(s) && IsActive(s, p) && CanAdvance(s, p) && !Forking(s.procs[p].pc) && !Exits(s.procs[p].pc)
    requires Counts(WaitAdvance(s, p).procs[p].pc)
    ensures Counts(s.procs[p].pc) ||
      (s.procs[p].pc.Scanning? && s.procs[p].pc.k < |s.procs| && Child(s, p, s.procs[p].pc.k))
    ensures !FoundZombie(s, p)
  {
  }

  /** Nobody starts to count on a child that it has not seen. */
  lemma CountsStep(s: System, e: Event, p: nat)
    requires Inv(s) && Enabled(s, e) && p < |s.procs| && e.p == p && Counts(Step(s, e).procs[p].pc)
    ensures Counts(s.procs[p].pc) ||
      (s.procs[p].pc.Scanning? && s.procs[p].pc.k < |s.procs| && Child(s, p, s.procs[p].pc.k))
    ensures !(e == Advance(p) && (Exits(s.procs[p].pc) || FoundZombie(s, p)))
  {
    if e.Advance? && !Forking(s.procs[p].pc) && !Exits(s.procs[p].pc) {
      CountsWait(s, p);
    }
  }

  lemma HasChildStep(s: System, e: Event, p: nat)
    requires Inv(s) && Enabled(s, e) && p < |s.procs| && HasChild(s, p)
    ensures HasChild(Step(s, e), p)
  {
    if Counts(Step(s, e).procs[p].pc) {
      if e.p == p {
        CountsStep(s, e, p);
      } else {
        LifeCycle(s, e, p);
      }
      var c: nat :| c < |s.procs| && Child(s, p, c);
      ChildStays(s, e, p, c);
      assert Child(Step(s, e), p, c);
    }
  }

  lemma SetupMoves(s: System, e: Event, c: nat)
    requires Inv(s) && Enabled(s, e) && Forking(s.procs[e.p].pc) && s.procs[e.p].pc.c == c < |s.procs|
    requires Step(s, e).procs[c].state == USED
    ensures Forking(Step(s, e).procs[e.p].pc) && Step(s, e).procs[e.p].pc.c == c
  {
    assert ForkOk(s, e.p, c) && SlotOk(s, e.p);
  }

  lemma HasForkerStep(s: System, e: Event, c: nat)
    requires Inv(s) && Enabled(s, e) && c < |s.procs| && HasForker(s, c)
    ensures HasForker(Step(s, e), c)
  {
    var s' := Step(s, e);
    if s'.procs[c].state == USED && s.procs[c].state == USED {
      var x: nat :| x < |s.procs| && Forking(s.procs[x].pc) && s.procs[x].pc.c == c;
      LifeCycle(s, e, c);
      if e.p == x {
        SetupMoves(s, e, c);
      } else {
        LifeCycle(s, e, x);
      }
      assert Forking(s'.procs[x].pc) && s'.procs[x].pc.c == c;
    } else if s'.procs[c].state == USED {
      LifeCycle(s, e, c);
      assert Forking(s'.procs[e.p].pc) && s'.procs[e.p].pc.c == c;
    }
  }

  lemma WitnessedStep(s: System, e: Event)
    requires Inv(s) && Witnessed(s) && Enabled(s, e)
    ensures Witnessed(Step(s, e))
  {
    forall p | 0 <= p < |s.procs| ensures HasChild(Step(s, e), p) && HasForker(Step(s, e), p) {
      assert HasChild(s, p) && HasForker(s, p);
      HasChildStep(s, e, p);
      HasForkerStep(s, e, p);
    }
  }

  lemma {:induction false} WitnessedAlways(s: System, es: seq<Event>)
    requires Inv(s) && Witnessed(s) && Runs(s, es)
    ensures Inv(After(s, es)) && Witnessed(After(s, es))
    decreases |es|
  {
    if es != [] {
      InvStep(s, es[0]);
      WitnessedStep(s, es[0]);
      WitnessedAlways(Step(s, es[0]), es[1..]);
    }
  }

  lemma WitnessedInitially(n: nat)
    requires n > 0
    ensures Witnessed(InitialSystem(n))
  {
  }

  // ---------------------------------------------------------------- what the invariant means

  /** No exit is missed: whenever wait_lock is free, a process registered on its own channel, and in particular
      one that sleeps in kwait, has no zombie child. */
  lemma NoMissedExit(s: System, p: nat, c: nat)
    requires Inv(s) && p < |s.procs| && c < |s.procs| && s.waitLock.Free?
    requires Registered(s, p) || (s.procs[p].pc == Asleep && s.procs[p].state == SLEEPING)
    ensures !(Child(s, p, c) && s.procs[c].state == ZOMBIE)
  {
    assert ZombieOk(s, p, c) && SlotOk(s, p);
  }

  /** A set parent link never leads to an unused or zombie process, and always to a smaller pid; every process but
      init that lives or waits to be reaped has such a link. */
  lemma ParentsLive(s: System, c: nat)
    requires Inv(s) && c < |s.procs|
    ensures s.procs[c].parent.ChildOf? ==>
      var q := s.procs[c].parent.q; q < |s.procs| && Alive(s.procs[q].state) && s.procs[q].pid < s.procs[c].pid
    ensures c != INIT && (Alive(s.procs[c].state) || s.procs[c].state == ZOMBIE) ==> s.procs[c].parent.ChildOf?
  {
    assert SlotOk(s, c);
    if s.procs[c].parent.ChildOf? {
      assert LinkOk(s, s.procs[c].parent.q, c);
    }
  }

  /** Following the parent links from any living process ends at init: the links form a tree. */
  lemma {:induction false} AncestorIsInit(s: System, c: nat) returns (path: seq<nat>)
    requires Inv(s) && c < |s.procs| && (Alive(s.procs[c].state) || s.procs[c].state == ZOMBIE)
    ensures path != [] && path[0] == c && path[|path| - 1] == INIT
    ensures forall i {:trigger path[i]} :: 0 <= i < |path| ==> path[i] < |s.procs|
    ensures forall i {:trigger Up(s, path, i)} :: 0 <= i < |path| - 1 ==> Up(s, path, i)
    decreases s.procs[c].pid
  {
    ParentsLive(s, c);
    if c == INIT {
      path := [c];
    } else {
      var rest := AncestorIsInit(s, s.procs[c].parent.q);
      path := [c] + rest;
      forall i | 0 <= i < |path| - 1 ensures Up(s, path, i) {
        assert i > 0 ==> Up(s, rest, i - 1);
      }
    }
  }

  predicate Up(s: System, path: seq<nat>, i: nat) {
    i + 1 < |path| && path[i] < |s.procs| && Child(s, path[i + 1], path[i])
  }

  /** kwait returns a pid at most once over the whole life of the system, and only that of a zombie child. */
  lemma ReapedOnce(s: System, es: seq<Event>, x: nat, y: nat)
    requires Inv(s) && Runs(s, es) && x < y < |After(s, es).reaped|
    ensures After(s, es).reaped[x] != After(s, es).reaped[y]
  {
    InvAlways(s, es);
    var r := After(s, es).reaped;
    assert r[y] !in r[..y] && r[x] in r[..y];
  }

  lemma ReapsAChild(s: System, e: Event)
    requires Inv(s) && Enabled(s, e)
    ensures Step(s, e).reaped == s.reaped || (e.Advance? && FoundZombie(s, e.p))
    ensures Step(s, e).reaped != s.reaped ==>
      var k := s.procs[e.p].pc.k;
      && Child(s, e.p, k) && s.procs[k].state == ZOMBIE && s.procs[k].pid !in s.reaped
      && Step(s, e).reaped == s.reaped + [s.procs[k].pid] && Step(s, e).procs[k] == EMPTY
  {
    if e.Advance? && FoundZombie(s, e.p) {
      assert SlotOk(s, s.procs[e.p].pc.k) && SlotOk(s, e.p);
    }
  }

  /** Everybody outside a set is as before. */
  ghost predicate Others(s: System, s': System, changed: set<nat>) {
    && |s'.procs| == |s.procs|
    && forall q {:trigger s'.procs[q]} :: 0 <= q < |s.procs| && q !in changed ==> s'.procs[q] == s.procs[q]
  }

  /** A kwait that comes to a zombie child frees its slot and returns its pid, with wait_lock free again. */
  lemma ReapsZombie(s: System, p: nat)
    requires Inv(s) && IsActive(s, p) && FoundZombie(s, p)
    ensures var s', k := Step(s, Advance(p)), s.procs[p].pc.k;
      && k != p && s'.reaped == s.reaped + [s.procs[k].pid] && s'.waitLock.Free? && s'.nextPid == s.nextPid
      && Others(s, s', {k, p})
      && s'.procs[k] == Proc(UNUSED, 0, NoParent, NoChan, false, Outside, 0)
      && s'.procs[p] == s.procs[p].(pc := Outside, result := s.procs[k].pid) && s'.procs[p].result > 0
  {
    assert SlotOk(s, s.procs[p].pc.k) && SlotOk(s, p);
  }

  /** At the end of its scan kwait has no zombie child; it returns -1 exactly when it has no child at all or has been
      killed, and otherwise goes on to sleep. */
  lemma GivesUpRightly(s: System, p: nat)
    requires Inv(s) && Witnessed(s) && IsActive(s, p) && s.procs[p].pc.Scanning? && s.procs[p].pc.k >= |s.procs|
    ensures forall c {:trigger Child(s, p, c)} :: 0 <= c < |s.procs| && Child(s, p, c) ==> s.procs[c].state != ZOMBIE
    ensures var s', childless := Step(s, Advance(p)), forall c :: 0 <= c < |s.procs| ==> !Child(s, p, c);
      && Others(s, s', {p}) && s'.reaped == s.reaped
      && if childless || s.procs[p].killed
         then s'.waitLock.Free? && s'.procs[p] == s.procs[p].(pc := Outside, result := -1)
         else s'.waitLock == HeldBy(p) && s'.procs[p] == s.procs[p].(pc := Preparing)
  {
    assert HasChild(s, p) && LockOk(s, p);
    forall c | 0 <= c < |s.procs| ensures Child(s, p, c) ==> s.procs[c].state != ZOMBIE && s.procs[p].pc.kids {
      assert WakeOk(s, p, c) && ZombieOk(s, p, c);
    }
  }

  /** So a kwait on its way through the table returns in two ways only: with a zombie child's pid, or with -1 at the
      end of the scan; a copy that fails is the one exception. */
  lemma LeavesScan(s: System, e: Event, p: nat)
    requires Inv(s) && Enabled(s, e) && p < |s.procs| && s.procs[p].pc.Scanning? && Step(s, e).procs[p].pc.Outside?
    ensures e == Advance(p) || e == CopyFails(p)
    ensures e == Advance(p) && Step(s, e).reaped == s.reaped ==> s.procs[p].pc.k >= |s.procs|
    ensures e == Advance(p) && Step(s, e).reaped != s.reaped ==> FoundZombie(s, p)
    ensures e == CopyFails(p) ==>
      && FoundZombie(s, p) && Step(s, e).procs[p].result == -1
      && Step(s, e).reaped == s.reaped && Step(s, e).waitLock.Free? && Others(s, Step(s, e), {p})
  {
    assert SlotOk(s, p);
    if SlotEvent(e) || e.Advance? {
      assert ForkOk(s, e.p, p) && LockOk(s, p);
    }
  }

  // ---------------------------------------------------------------- fork, exit and kill

  /** A kfork in progress: slot c has this pid and belongs to p alone. */
  ghost predicate Setting(s: System, p: nat, c: nat, pid: nat) {
    && p < |s.procs| && c < |s.procs| && (s.procs[p].pc == Linking(c) || s.procs[p].pc == Starting(c))
    && s.procs[c].state == USED && s.procs[c].pid == pid && (s.procs[p].pc.Starting? ==> Child(s, p, c))
  }

  /** allocproc takes a slot with a pid that no process has or has had. */
  lemma ForkBegins(s: System, p: nat, c: nat)
    requires Inv(s) && Enabled(s, BeginFork(p, c))
    ensures var s' := Step(s, BeginFork(p, c));
      Setting(s', p, c, s.nextPid) && s'.nextPid == s.nextPid + 1 && Others(s, s', {p, c})
    ensures s.nextPid !in s.reaped
    ensures forall q {:trigger s.procs[q]} :: 0 <= q < |s.procs| ==> s.procs[q].pid < s.nextPid
  {
    assert SlotOk(s, c) && SlotOk(s, p);
    forall q | 0 <= q < |s.procs| ensures s.procs[q].pid < s.nextPid {
      assert SlotOk(s, q) && SlotOk(s, INIT);
    }
  }

  lemma ForkOwn(s: System, e: Event, c: nat, pid: nat)
    requires Inv(s) && Enabled(s, e) && Setting(s, e.p, c, pid)
    ensures Setting(Step(s, e), e.p, c, pid) || ForkEnds(s, Step(s, e), e, e.p, c, pid)
  {
    assert SlotOk(s, e.p) && SlotOk(s, c) && ForkOk(s, e.p, c);
  }

  /** A kfork ends with its child running as its child and returns the pid that it took, or ends with the slot empty
      again and returns -1. */
  ghost predicate ForkEnds(s: System, s': System, e: Event, p: nat, c: nat, pid: nat)
    requires p < |s.procs| == |s'.procs| && c < |s.procs|
  {
    && Others(s, s', {p, c})
    && if s'.procs[p].result >= 0
       then e == Advance(p) && s'.procs[p] == s.procs[p].(pc := Outside, result := pid) && pid > 0
            && s'.procs[c] == s.procs[c].(state := ACTIVE) && Child(s', p, c)
       else e == AbortFork(p) && s'.procs[p] == s.procs[p].(pc := Outside, result := -1)
            && s'.procs[c] == Proc(UNUSED, 0, NoParent, NoChan, false, Outside, 0)
  }

  /** Whatever the others do, the slot is left alone until the kfork ends. */
  lemma ForkStep(s: System, e: Event, p: nat, c: nat, pid: nat)
    requires Inv(s) && Enabled(s, e) && Setting(s, p, c, pid)
    ensures Setting(Step(s, e), p, c, pid) || ForkEnds(s, Step(s, e), e, p, c, pid)
  {
    if e.p == p {
      ForkOwn(s, e, c, pid);
    } else {
      LifeCycle(s, e, p);
      LifeCycle(s, e, c);
      assert ForkOk(s, e.p, p);
    }
  }

  /** A process dies with wait_lock given back, its link and pid kept for its parent, and no child left. */
  lemma ExitCompletes(s: System, p: nat, c: nat)
    requires Inv(s) && Dies(s, p) && c < |s.procs|
    ensures var s' := Step(s, Advance(p));
      && s'.procs[p] == s.procs[p].(state := ZOMBIE, pc := Outside) && s'.waitLock.Free? && Others(s, s', {p})
      && !Child(s', p, c) && s'.procs[p].parent.ChildOf?
  {
    assert LinkOk(s, p, c) && SlotOk(s, p);
  }

  /** An exiting process that comes to a child gives it to init and wakes init from the first slot on. */
  lemma Adoption(s: System, p: nat)
    requires Inv(s) && Adopts(s, p)
    ensures var s', k := Step(s, Advance(p)), s.procs[p].pc.k;
      && k != p && s'.procs[k] == s.procs[k].(parent := ChildOf(INIT)) && Others(s, s', {k, p})
      && s'.procs[p] == s.procs[p].(pc := WakingInit(k, 0)) && s'.waitLock == s.waitLock
  {
    assert LinkOk(s, p, s.procs[p].pc.k);
  }

  /** A process that has begun to exit: exiting, a zombie, or returned by a wait. */
  ghost predicate Doomed(s: System, p: nat, pid: nat) {
    || pid in s.reaped
    || (p < |s.procs| && s.procs[p].pid == pid && s.procs[p].state == ACTIVE && Exits(s.procs[p].pc))
    || (p < |s.procs| && s.procs[p].pid == pid && s.procs[p].state == ZOMBIE)
  }

  lemma DoomedOwn(s: System, e: Event)
    requires Inv(s) && Enabled(s, e) && Exits(s.procs[e.p].pc)
    ensures Exits(Step(s, e).procs[e.p].pc) || Step(s, e).procs[e.p].state == ZOMBIE
  {
  }

  lemma DoomedStep(s: System, e: Event, p: nat, pid: nat)
    requires Inv(s) && Enabled(s, e) && Doomed(s, p, pid)
    ensures Doomed(Step(s, e), p, pid)
  {
    ReapsAChild(s, e);
    if pid !in s.reaped {
      LifeCycle(s, e, p);
      assert SlotOk(s, p);
      if e.p == p && s.procs[p].state == ACTIVE {
        DoomedOwn(s, e);
      }
      if e.Advance? && FoundZombie(s, e.p) {
        ReapsZombie(s, e.p);
      }
    }
  }

  /** kexit does not return. */
  lemma {:induction false} ExitNeverReturns(s: System, es: seq<Event>, p: nat, pid: nat)
    requires Inv(s) && Runs(s, es) && Doomed(s, p, pid)
    ensures Doomed(After(s, es), p, pid)
    decreases |es|
  {
    if es != [] {
      DoomedStep(s, es[0], p, pid);
      InvStep(s, es[0]);
      ExitNeverReturns(Step(s, es[0]), es[1..], p, pid);
    }
  }

  /** kkill sets the flag and makes a sleeper runnable, and does nothing else to anybody. */
  lemma KillRouses(s: System, p: nat)
    requires Inv(s) && p < |s.procs|
    ensures var P, P', s' := s.procs[p], Step(s, Kill(p)).procs[p], Step(s, Kill(p));
      && P'.killed && (P.state == SLEEPING ==> P'.state == ACTIVE && CanAdvance(s', p) && P'.pc == Asleep)
      && (P.state != SLEEPING ==> P'.state == P.state)
      && P'.pid == P.pid && P'.parent == P.parent && P'.chan == P.chan && P'.pc == P.pc && P'.result == P.result
      && Others(s, s', {p}) && s'.waitLock == s.waitLock && s'.reaped == s.reaped && s'.nextPid == s.nextPid
  {
    assert SlotOk(s, p);
  }

  // ---------------------------------------------------------------- what the calls return

  /** The call that a process has made last, as the events tell. */
  datatype Call = NoCall | Fork | Exit | Wait

  function Noted(calls: seq<Call>, e: Event): (noted: seq<Call>)
    ensures |noted| == |calls|
  {
    match e
    case BeginFork(p, _) => if p < |calls| then calls[p := Fork] else calls
    case BeginExit(p) => if p < |calls| then calls[p := Exit] else calls
    case BeginWait(p) => if p < |calls| then calls[p := Wait] else calls
    case _ => calls
  }

  /** Inside a call, the program counter belongs to the call made last. */
  ghost predicate InCall(s: System, calls: seq<Call>, p: nat)
    requires p < |s.procs| == |calls|
  {
    var pc := s.procs[p].pc;
    !pc.Outside? ==> calls[p] == if Forking(pc) then Fork else if Exits(pc) then Exit else Wait
  }

  ghost predicate InCalls(s: System, calls: seq<Call>) {
    |calls| == |s.procs| && forall p {:trigger InCall(s, calls, p)} :: 0 <= p < |s.procs| ==> InCall(s, calls, p)
  }

  lemma InCallOwn(s: System, calls: seq<Call>, e: Event)
    requires Inv(s) && InCalls(s, calls) && Enabled(s, e)
    ensures InCall(Step(s, e), Noted(calls, e), e.p)
  {
    assert InCall(s, calls, e.p) && SlotOk(s, e.p);
  }

  lemma InCallsStep(s: System, calls: seq<Call>, e: Event)
    requires Inv(s) && InCalls(s, calls) && Enabled(s, e)
    ensures InCalls(Step(s, e), Noted(calls, e))
  {
    forall p | 0 <= p < |s.procs| ensures InCall(Step(s, e), Noted(calls, e), p) {
      if p == e.p {
        InCallOwn(s, calls, e);
      } else {
        LifeCycle(s, e, p);
        assert InCall(s, calls, p);
      }
    }
  }

  /** The pid that the step makes a call of this kind return, if it does. */
  function Returned(s: System, calls: seq<Call>, e: Event, c: Call): (pids: seq<nat>)
    requires Enabled(s, e) && |calls| == |s.procs|
  {
    var before, after := s.procs[e.p], Step(s, e).procs[e.p];
    if calls[e.p] == c && !before.pc.Outside? && after.pc.Outside? && after.result >= 0 then [after.result] else []
  }

  /** All the pids that calls of this kind return in a run. */
  function Results(s: System, calls: seq<Call>, es: seq<Event>, c: Call): seq<nat>
    requires Runs(s, es) && |calls| == |s.procs|
    decreases |es|
  {
    if es == [] then []
    else Returned(s, calls, es[0], c) + Results(Step(s, es[0]), Noted(calls, es[0]), es[1..], c)
  }

  /** A call that begins is a call in progress, and nothing else has changed but the slot that a fork takes. */
  lemma CallBegins(s: System, calls: seq<Call>, e: Event)
    requires Inv(s) && InCalls(s, calls) && Enabled(s, e) && (e.BeginFork? || e.BeginExit? || e.BeginWait?)
    ensures var s', pc' := Step(s, e), Step(s, e).procs[e.p].pc;
      && !pc'.Outside? && s'.procs[e.p] == s.procs[e.p].(pc := pc')
      && Others(s, s', if e.BeginFork? then {e.p, e.c} else {e.p}) && s'.waitLock == s.waitLock
      && Noted(calls, e)[e.p] == (if e.BeginFork? then Fork else if e.BeginExit? then Exit else Wait)
      && InCall(s', Noted(calls, e), e.p)
      && (e.BeginExit? ==> Doomed(s', e.p, s.procs[e.p].pid))
  {
    assert SlotOk(s, e.p);
  }

  /** A wait returns a pid exactly when it frees a zombie child, and that pid; a fork exactly when it starts its
      child, and its pid. */
  lemma StepReturns(s: System, calls: seq<Call>, e: Event)
    requires Inv(s) && InCalls(s, calls) && Enabled(s, e)
    ensures Step(s, e).reaped == s.reaped + Returned(s, calls, e, Wait)
    ensures Returned(s, calls, e, Wait)
         == if e.Advance? && FoundZombie(s, e.p) then [s.procs[s.procs[e.p].pc.k].pid] else []
    ensures Returned(s, calls, e, Fork) == if Starts(s, e) then [s.procs[s.procs[e.p].pc.c].pid] else []
  {
    assert InCall(s, calls, e.p) && SlotOk(s, e.p);
    if Starts(s, e) {
      assert ForkOk(s, e.p, s.procs[e.p].pc.c);
    }
  }

  predicate Starts(s: System, e: Event)
    requires Enabled(s, e)
  {
    e.Advance? && s.procs[e.p].pc.Starting?
  }

  /** A child that has been started and not yet been returned by a wait. */
  predicate Lives(s: System, c: nat) {
    c < |s.procs| && c != INIT && (Alive(s.procs[c].state) || s.procs[c].state == ZOMBIE)
  }

  ghost predicate HasSlot(s: System, pid: nat) {
    exists c: nat {:trigger Lives(s, c)} :: Lives(s, c) && s.procs[c].pid == pid
  }

  predicate Distinct(pids: seq<nat>) {
    forall x, y :: 0 <= x < y < |pids| ==> pids[x] != pids[y]
  }

  /** The pids that kfork has returned are those of the living and the zombies, and those that kwait has returned. */
  ghost predicate Ledger(s: System, forked: seq<nat>) {
    && Distinct(forked)
    && (forall pid {:trigger HasSlot(s, pid)} :: pid in forked ==> pid in s.reaped || HasSlot(s, pid))
    && (forall pid {:trigger pid in s.reaped} :: pid in s.reaped ==> pid in forked)
    && (forall c: nat {:trigger Lives(s, c)} :: Lives(s, c) ==> s.procs[c].pid in forked)
  }

  /** A child lives on until it is reaped, and nobody else begins to live but the child that a fork starts. */
  lemma LivesOn(s: System, e: Event, c: nat)
    requires Inv(s) && Enabled(s, e) && c < |s.procs|
    ensures Lives(s, c) && !Lives(Step(s, e), c) ==> s.procs[c].pid in Step(s, e).reaped
    ensures Lives(Step(s, e), c) && !Lives(s, c) ==> Starts(s, e) && s.procs[e.p].pc.c == c
    ensures Lives(Step(s, e), c) ==> Step(s, e).procs[c].pid == s.procs[c].pid
  {
    LifeCycle(s, e, c);
    if e.Advance? && FoundZombie(s, e.p) {
      ReapsZombie(s, e.p);
    }
  }

  lemma FreshlyForked(s: System, forked: seq<nat>, e: Event)
    requires Inv(s) && Ledger(s, forked) && Enabled(s, e) && Starts(s, e)
    ensures var c := s.procs[e.p].pc.c;
      s.procs[c].pid !in forked && Lives(Step(s, e), c) && Step(s, e).procs[c].pid == s.procs[c].pid
  {
    var c := s.procs[e.p].pc.c;
    assert ForkOk(s, e.p, c) && SlotOk(s, c) && SlotOk(s, INIT);
    forall d: nat | Lives(s, d) ensures s.procs[d].pid != s.procs[c].pid {
      assert ForkOk(s, d, c);
    }
    assert !HasSlot(s, s.procs[c].pid);
  }

  lemma LedgerStep(s: System, forked: seq<nat>, calls: seq<Call>, e: Event)
    requires Inv(s) && InCalls(s, calls) && Ledger(s, forked) && Enabled(s, e)
    ensures Ledger(Step(s, e), forked + Returned(s, calls, e, Fork))
  {
    var s', forked' := Step(s, e), forked + Returned(s, calls, e, Fork);
    StepReturns(s, calls, e);
    if Starts(s, e) {
      FreshlyForked(s, forked, e);
    }
    forall pid | pid in forked' ensures pid in s'.reaped || HasSlot(s', pid) {
      if pid in forked && pid !in s.reaped {
        assert HasSlot(s, pid);
        var c: nat :| Lives(s, c) && s.procs[c].pid == pid;
        LivesOn(s, e, c);
      }
    }
    forall pid | pid in s'.reaped ensures pid in forked' {
      if pid !in s.reaped {
        assert SlotOk(s, s.procs[e.p].pc.k) && SlotOk(s, INIT) && Lives(s, s.procs[e.p].pc.k);
      }
    }
    forall c: nat | Lives(s', c) ensures s'.procs[c].pid in forked' {
      LivesOn(s, e, c);
    }
  }

  lemma {:induction false} LedgerAlways(s: System, forked: seq<nat>, calls: seq<Call>, es: seq<Event>)
    requires Inv(s) && InCalls(s, calls) && Ledger(s, forked) && Runs(s, es)
    ensures Ledger(After(s, es), forked + Results(s, calls, es, Fork))
    decreases |es|
  {
    if es == [] {
      assert forked + [] == forked;
    } else {
      var r := Returned(s, calls, es[0], Fork);
      InvStep(s, es[0]);
      InCallsStep(s, calls, es[0]);
      LedgerStep(s, forked, calls, es[0]);
      LedgerAlways(Step(s, es[0]), forked + r, Noted(calls, es[0]), es[1..]);
      ResultsSplit(s, calls, es, Fork, forked);
    }
  }

  lemma ResultsSplit(s: System, calls: seq<Call>, es: seq<Event>, c: Call, before: seq<nat>)
    requires es != [] && Runs(s, es) && |calls| == |s.procs|
    ensures before + Results(s, calls, es, c)
         == before + Returned(s, calls, es[0], c) + Results(Step(s, es[0]), Noted(calls, es[0]), es[1..], c)
  {
  }

  lemma {:induction false} ReapedAreReturned(s: System, calls: seq<Call>, es: seq<Event>)
    requires Inv(s) && InCalls(s, calls) && Runs(s, es)
    ensures After(s, es).reaped == s.reaped + Results(s, calls, es, Wait)
    decreases |es|
  {
    if es == [] {
      assert s.reaped + [] == s.reaped;
    } else {
      InvStep(s, es[0]);
      InCallsStep(s, calls, es[0]);
      StepReturns(s, calls, es[0]);
      ReapedAreReturned(Step(s, es[0]), Noted(calls, es[0]), es[1..]);
      ResultsSplit(s, calls, es, Wait, s.reaped);
    }
  }

  /** Over every run from the start: no two forks return the same pid and no two waits do; a wait returns only what a
      fork has returned; and every child that a fork has returned is either in the table, alive or a zombie, or has
      been returned by a wait. */
  lemma EveryChildOnce(n: nat, es: seq<Event>)
    requires n > 0 && Runs(InitialSystem(n), es)
    ensures var s0, calls := InitialSystem(n), seq(n, i => NoCall);
      var s, forked, waited := After(s0, es), Results(s0, calls, es, Fork), Results(s0, calls, es, Wait);
      && Distinct(forked) && Distinct(waited)
      && (forall pid {:trigger pid in waited} :: pid in waited ==> pid in forked)
      && (forall pid {:trigger pid in forked} :: pid in forked ==> (HasSlot(s, pid) <==> pid !in waited))
      && (forall c: nat {:trigger Lives(s, c)} :: Lives(s, c) ==> s.procs[c].pid in forked)
  {
    var s0, calls := InitialSystem(n), seq(n, i => NoCall);
    InvInitially(n);
    LedgerAlways(s0, [], calls, es);
    ReapedAreReturned(s0, calls, es);
    InvAlways(s0, es);
    var s, forked, waited := After(s0, es), Results(s0, calls, es, Fork), Results(s0, calls, es, Wait);
    assert [] + forked == forked && [] + waited == waited;
    forall x, y | 0 <= x < y < |waited| ensures waited[x] != waited[y] {
      assert s.reaped[y] !in s.reaped[..y] && s.reaped[x] in s.reaped[..y];
    }
    forall pid | pid in forked && HasSlot(s, pid) ensures pid !in waited {
      var c: nat :| Lives(s, c) && s.procs[c].pid == pid;
      assert SlotOk(s, c);
    }
  }

  // ---------------------------------------------------------------- how far a call has got

  /** A measure of the work that a call has left, in stages and within a stage. */
  function Stage(pc: Pc, n: nat): nat {
    match pc
    case Outside => 0
    case Linking(_) => 2
    case Starting(_) => 1
    case ExitEntering => 2 * n + 4
    case Reparenting(k) => if k <= n then 2 * (n - k) + 3 else 3
    case WakingInit(k, _) => if k < n then 2 * (n - k) + 2 else 4
    case WakingParent(_) => 2
    case WaitEntering => 6
    case Scanning(_, _) => 5
    case Preparing => 4
    case Releasing => 3
    case Resting => 2
    case Asleep => 1
  }

  function Rounds(pc: Pc, n: nat): nat {
    var k := if pc.Scanning? then pc.k else if pc.WakingInit? || pc.WakingParent? then pc.j else n;
    if k <= n then n - k else 0
  }

  /** kwait starts over after sleep() has returned. */
  predicate Retries(s: System, e: Event)
    requires Enabled(s, e)
  {
    e.Advance? && Step(s, e).procs[e.p].pc.WaitEntering?
  }

  predicate Less(pc': Pc, pc: Pc, n: nat) {
    Stage(pc', n) < Stage(pc, n) || (Stage(pc', n) == Stage(pc, n) && Rounds(pc', n) < Rounds(pc, n))
  }

  lemma ExitDown(s: System, p: nat)
    requires Inv(s) && IsActive(s, p) && CanAdvance(s, p) && Exits(s.procs[p].pc)
    ensures Less(ExitAdvance(s, p).procs[p].pc, s.procs[p].pc, |s.procs|)
    ensures !ExitAdvance(s, p).procs[p].pc.WaitEntering?
  {
    assert Adopts(s, p) ==> LinkOk(s, p, s.procs[p].pc.k);
  }

  lemma WaitDown(s: System, p: nat)
    requires Inv(s) && IsActive(s, p) && CanAdvance(s, p) && !Forking(s.procs[p].pc) && !Exits(s.procs[p].pc)
    ensures var pc, pc' := s.procs[p].pc, WaitAdvance(s, p).procs[p].pc;
      if pc'.WaitEntering? then pc.Resting? || pc.Asleep? else Less(pc', pc, |s.procs|)
  {
    assert SlotOk(s, p);
  }

  /** Each step of a call leaves less to do, unless sleep() has returned. */
  lemma StepsDown(s: System, p: nat)
    requires Inv(s) && Enabled(s, Advance(p))
    ensures var pc, pc' := s.procs[p].pc, Step(s, Advance(p)).procs[p].pc;
      if Retries(s, Advance(p)) then pc.Resting? || pc.Asleep? else Less(pc', pc, |s.procs|)
  {
    if Forking(s.procs[p].pc) {
      assert ForkOk(s, p, s.procs[p].pc.c);
    } else if Exits(s.procs[p].pc) {
      ExitDown(s, p);
    } else {
      WaitDown(s, p);
    }
  }

  /** Process p is on its way back to the scan: its registration was cleared, or it was made runnable inside sched. */
  function Owed(s: System, p: nat): nat
    requires p < |s.procs|
  {
    var P := s.procs[p];
    if (P.pc.Releasing? || P.pc.Resting?) && P.chan.NoChan? then 1
    else if P.pc.Asleep? && P.state != SLEEPING then 1 else 0
  }

  /** Another process clears the registration of p, or p is killed. */
  predicate Rouses(s: System, e: Event, p: nat)
    requires Enabled(s, e) && p < |s.procs|
  {
    || e == Kill(p)
    || (e != Advance(p) && !e.Elsewhere? && Alive(s.procs[p].state) && Registered(s, p)
        && Step(s, e).procs[p].chan.NoChan?)
  }

  function CountRetries(s: System, es: seq<Event>, p: nat): nat
    requires Runs(s, es)
    decreases |es|
  {
    if es == [] then 0
    else (if Retries(s, es[0]) && es[0].p == p then 1 else 0) + CountRetries(Step(s, es[0]), es[1..], p)
  }

  function CountRouses(s: System, es: seq<Event>, p: nat): nat
    requires Runs(s, es) && p < |s.procs|
    decreases |es|
  {
    if es == [] then 0
    else (if Rouses(s, es[0], p) then 1 else 0) + CountRouses(Step(s, es[0]), es[1..], p)
  }

  lemma RetryOwn(s: System, e: Event)
    requires Inv(s) && Enabled(s, e)
    ensures (if Retries(s, e) then 1 else 0) + Owed(Step(s, e), e.p) <= (if e == Kill(e.p) then 1 else 0) + Owed(s, e.p)
  {
    assert SlotOk(s, e.p);
  }

  lemma RetryStep(s: System, e: Event, p: nat)
    requires Inv(s) && Enabled(s, e) && p < |s.procs|
    ensures (if Retries(s, e) && e.p == p then 1 else 0) + Owed(Step(s, e), p)
         <= (if Rouses(s, e, p) then 1 else 0) + Owed(s, p)
  {
    if e.p == p {
      RetryOwn(s, e);
    } else {
      LifeCycle(s, e, p);
      assert SlotOk(s, p);
    }
  }

  /** Only a kill, or a child that exits or is given to init, rouses a parent. */
  lemma RousedByChild(s: System, e: Event, p: nat)
    requires Inv(s) && Enabled(s, e) && p < |s.procs| && Rouses(s, e, p) && e != Kill(p)
    ensures e.Advance? && Rouser(s, e.p, p)
  {
    assert SlotOk(s, p);
    if SlotEvent(e) || e.Advance? {
      assert SlotOk(s, e.p) && ForkOk(s, e.p, p);
    }
  }

  /** Waiting is not busy: in every run a process comes back from sleep() at most as often as a child rouses it or
      somebody kills it. */
  lemma {:induction false} RetriesAreRoused(s: System, es: seq<Event>, p: nat)
    requires Inv(s) && Runs(s, es) && p < |s.procs|
    ensures |After(s, es).procs| == |s.procs|
    ensures CountRetries(s, es, p) + Owed(After(s, es), p) <= CountRouses(s, es, p) + Owed(s, p)
    decreases |es|
  {
    if es != [] {
      InvStep(s, es[0]);
      RetryStep(s, es[0], p);
      RetriesAreRoused(Step(s, es[0]), es[1..], p);
    }
  }

  /** A killed process that is in kwait and not on its way to sleep. */
  predicate Leaving(s: System, p: nat) {
    && IsActive(s, p) && s.procs[p].killed
    && (s.procs[p].pc.Asleep? || s.procs[p].pc.WaitEntering? || s.procs[p].pc.Scanning?)
  }

  /** It does not sleep again: it goes on scanning until it returns, with -1 or the pid of a zombie child. */
  lemma KilledLeaves(s: System, e: Event, p: nat)
    requires Inv(s) && Enabled(s, e) && Leaving(s, p)
    ensures var s' := Step(s, e);
      || Leaving(s', p)
      || (e.p == p && s'.procs[p].pc.Outside? && s'.waitLock.Free? && (s'.procs[p].result == -1 || FoundZombie(s, p)))
  {
    if e.p != p {
      LifeCycle(s, e, p);
    }
  }

  // ---------------------------------------------------------------- no deadlock

  predicate CanStep(s: System, p: nat) {
    IsActive(s, p) && CanAdvance(s, p)
  }

  /** A process inside a call can take a step, or waits for wait_lock whose holder can, or sleeps in kwait. */
  lemma Progress(s: System, p: nat)
    requires Inv(s) && p < |s.procs| && !s.procs[p].pc.Outside?
    ensures CanStep(s, p) || (s.waitLock.HeldBy? && CanStep(s, s.waitLock.p))
      || (s.procs[p].state == SLEEPING && s.procs[p].pc.Asleep?)
  {
    assert SlotOk(s, p);
    if Forking(s.procs[p].pc) {
      assert ForkOk(s, p, s.procs[p].pc.c);
    }
    if s.waitLock.HeldBy? {
      assert SlotOk(s, s.waitLock.p) && LockOk(s, s.waitLock.p);
    }
  }

  /** When nobody inside a call can move, a process that sleeps in kwait has a living child. */
  lemma Waits(s: System, p: nat) returns (c: nat)
    requires Inv(s) && Witnessed(s) && p < |s.procs| && s.procs[p].state == SLEEPING
    requires forall q: nat {:trigger CanStep(s, q)} :: !CanStep(s, q)
    ensures c < |s.procs| && Child(s, p, c) && Alive(s.procs[c].state) && s.procs[c].pid > s.procs[p].pid
  {
    assert SlotOk(s, p) && HasChild(s, p);
    c :| c < |s.procs| && Child(s, p, c);
    assert LinkOk(s, p, c);
    if s.waitLock.HeldBy? {
      assert LockOk(s, s.waitLock.p);
      Progress(s, s.waitLock.p);
    }
    NoMissedExit(s, p, c);
    if s.procs[c].state == USED {
      assert HasForker(s, c);
      var x: nat :| x < |s.procs| && Forking(s.procs[x].pc) && s.procs[x].pc.c == c;
      Progress(s, x);
    }
  }

  /** Waiting never deadlocks: when nobody inside a call can move, a process that sleeps in kwait waits, through
      children that sleep in kwait themselves, for one that runs outside these calls. */
  lemma {:induction false} SomebodyRuns(s: System, p: nat) returns (path: seq<nat>)
    requires Inv(s) && Witnessed(s) && p < |s.procs| && s.procs[p].state == SLEEPING
    requires forall q: nat {:trigger CanStep(s, q)} :: !CanStep(s, q)
    ensures |path| > 1 && path[0] == p
    ensures forall i {:trigger Down(s, path, i)} :: 0 <= i < |path| - 1 ==> Down(s, path, i)
    ensures var q := path[|path| - 1]; IsActive(s, q) && s.procs[q].pc.Outside?
    decreases s.nextPid - s.procs[p].pid
  {
    var c := Waits(s, p);
    assert SlotOk(s, c);
    if s.procs[c].pc.Outside? {
      path := [p, c];
    } else {
      Progress(s, c);
      if s.waitLock.HeldBy? {
        assert !CanStep(s, s.waitLock.p);
      }
      var rest := SomebodyRuns(s, c);
      path := [p] + rest;
      forall i | 0 <= i < |path| - 1 ensures Down(s, path, i) {
        assert i > 0 ==> Down(s, rest, i - 1);
      }
    }
  }

  predicate Down(s: System, path: seq<nat>, i: nat) {
    i + 1 < |path| && path[i] < |s.procs| && path[i + 1] < |s.procs| && s.procs[path[i]].state == SLEEPING
    && Child(s, path[i], path[i + 1])
  }
}
