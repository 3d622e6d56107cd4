/** The memory side of kernel/proc.c and kernel/sysproc.c: building, growing, copying, sharing and freeing the address
    spaces of processes and threads.

    Kernel holds the machine and the process table.  Each of its methods is one system call, or the part of one that
    concerns memory, and keeps the invariant Consistent of module KernelState, unless it takes the kernel down.  What
    a call does to the maps, to the counts and to the process table is stated in full: page by page on success, and
    on failure that maps and data are as before, together with how few frames must have been free for it to fail.

    The predicates before the class collect these outcomes, one for each operation, as relations between two views of
    the kernel.  Run strings operations together: every sequence of them, by any processes with any arguments, is a
    chain of views in which each comes from the one before by what the operation does.  TearDown then frees whatever
    processes are left, in any order, and says which frames come back. */
module AddressSpaces {
  import opened Sv39
  import opened VmState
  import opened PageMaps
  import opened VirtualMemory
  import opened KernelState

  /** How a call ends: it succeeds, it returns -1, or it takes the kernel down. */
  datatype Outcome = Done | Failed | Panic

  /** A thread may start at fcn on a stack that ends at `stack`: user pages below the size, executable and writable. */
  ghost predicate Startable(s: State, P: Proc, fcn: nat, stack: nat) {
    var m := MapOf(s, P);
    && fcn < P.sz && 0 < stack <= P.sz && fcn / PGSIZE in m && (stack - 1) / PGSIZE in m
    && m[fcn / PGSIZE].flags.u && m[fcn / PGSIZE].flags.x
    && m[(stack - 1) / PGSIZE].flags.u && m[(stack - 1) / PGSIZE].flags.w
  }

  ghost predicate Executable(m: map<nat, Word>, va: nat) {
    va / PGSIZE in m && m[va / PGSIZE].flags.x
  }

  /** What the checks of kclone come to: Done if it goes on to allocate a thread. */
  ghost function CloneCheck(s: State, P: Proc, fcn: nat, stack: nat, returnaddr: nat): Outcome {
    if !Startable(s, P, fcn, stack) then Failed
    else if returnaddr >= MAXVPN * PGSIZE then Panic
    else if Executable(MapOf(s, P), returnaddr) then Done
    else Failed
  }

  /** What process i can ask of the kernel, or suffer; Boot creates the first one. */
  datatype Op =
    | Boot | Fork(i: nat) | Clone(i: nat, fcn: nat, stack: nat, returnaddr: nat) | Break(i: nat, n: int, eager: bool)
    | Exec(i: nat, newsz: nat, xperm: Flags) | PageFault(i: nat, va: nat) | Share(i: nat) | Reap(i: nat)

  /** A clone whose return address is no user address at all. */
  predicate Wild(op: Op) {
    op.Clone? && op.returnaddr >= MAXVPN * PGSIZE
  }

  /** The kernel between two operations. */
  datatype View = View(s: State, procs: seq<Proc>, lost: multiset<nat>)

  ghost predicate Usable(v: View, i: nat) {
    i < |v.procs| && v.procs[i].used && v.procs[i].pagetable != 0
  }

  /** An operation that fails leaves processes, maps and data frames as they were. */
  ghost predicate Refused(v: View, v': View) {
    v'.procs == v.procs && v'.lost == v.lost && v'.s.maps == v.s.maps && Keeps(v.s, v'.s)
  }

  /** Process j has appeared. */
  ghost predicate Appears(v: View, v': View, j: nat) {
    && j < |v.procs| == |v'.procs| && v.procs[j] == UNUSED && v'.procs == v.procs[j := v'.procs[j]]
    && v'.lost == v.lost
  }

  ghost predicate BootDone(v: View, v': View, trampoline: nat) {
    || (exists j: nat {:trigger Appears(v, v', j)} :: Appears(v, v', j) && NewProc(v.s, v'.s, v'.procs[j], trampoline))
    || (Refused(v, v') && (AllUsed(v.procs) || |v.s.free| < 6))
  }

  ghost predicate ForkDone(v: View, i: nat, v': View) {
    Usable(v, i) &&
    ((exists j: nat {:trigger Appears(v, v', j)} :: Appears(v, v', j) && Forked(v.s, v'.s, v.procs[i], v'.procs[j])) ||
     (Refused(v, v') && (AllUsed(v.procs) || |v.s.free| < 6 + 3 * MappedPages(v.s, v.procs[i]))))
  }

  ghost predicate CloneDone(v: View, op: Op, v': View)
    requires op.Clone?
  {
    Usable(v, op.i) &&
    match CloneCheck(v.s, v.procs[op.i], op.fcn, op.stack, op.returnaddr)
    case Panic => false
    case Failed => v' == v
    case Done =>
      || (exists j: nat {:trigger Appears(v, v', j)} ::
            Appears(v, v', j) && Cloned(v.s, v'.s, v.procs[op.i], v'.procs[j]))
      || (Refused(v, v') && (AllUsed(v.procs) || |v.s.free| < 8 + 2 * MappedPages(v.s, v.procs[op.i])))
  }

  /** The size of process i is now sz. */
  ghost predicate Sized(v: View, i: nat, sz: int, v': View) {
    Usable(v, i) && sz >= 0 && v'.procs == v.procs[i := v.procs[i].(sz := sz)] && v'.lost == v.lost
  }

  ghost predicate BreakDone(v: View, op: Op, v': View)
    requires op.Break?
  {
    Usable(v, op.i) &&
    var P := v.procs[op.i];
    if -0x8000_0000 <= op.n < 0x8000_0000 then
      || (Refused(v, v') && op.n > 0 && Refusable(P.sz, op.n, |v.s.free|))
      || (Sized(v, op.i, if P.sz + op.n >= 0 then P.sz + op.n else P.sz, v') &&
          if op.eager || op.n < 0 then GrownOrShrunk(v.s, v'.s, P.pagetable, P.sz, v'.procs[op.i].sz) else v'.s == v.s)
    else
      v' == v
  }

  ghost predicate ExecDone(v: View, op: Op, v': View)
    requires op.Exec?
  {
    Usable(v, op.i) &&
    var P := v.procs[op.i];
    if P.sz < op.newsz <= TRAPFRAME * PGSIZE then
      || (Refused(v, v') && |v.s.free| < 3 * (Pages(op.newsz) - Pages(P.sz)))
      || (Sized(v, op.i, op.newsz, v') &&
          Grown(v.s, v'.s, P.pagetable, Pages(P.sz), Pages(op.newsz), UserFlags(op.xperm)))
    else
      Refused(v, v')
  }

  ghost predicate FaultPage(v: View, r: nat, va: nat, pa: nat, v': View)
    requires r in v.s.maps
  {
    Allocated(v.s, v'.s, r, va / PGSIZE, pa, Flags(true, true, true, false, true, 0), Fill(ZERO))
  }

  ghost predicate FaultDone(v: View, i: nat, va: nat, v': View) {
    Usable(v, i) && v.procs[i].pagetable in v.s.maps && v'.procs == v.procs && v'.lost == v.lost &&
    var fit := va < v.procs[i].sz && va / PGSIZE !in v.s.maps[v.procs[i].pagetable];
    || (Refused(v, v') && (!fit || |v.s.free| < 3))
    || (fit && exists pa {:trigger FaultPage(v, v.procs[i].pagetable, va, pa, v')} ::
          FaultPage(v, v.procs[i].pagetable, va, pa, v'))
  }

  /** If nothing is mapped at SHM_VA, the shm page is mapped there, or memory for tables has run out. */
  ghost predicate ShareDone(v: View, i: nat, v': View) {
    Usable(v, i) && v.procs[i].pagetable in v.s.maps && v'.procs == v.procs && v'.lost == v.lost &&
    var r := v.procs[i].pagetable;
    if SHM in v.s.maps[r] then v' == v
    else
      || (Refused(v, v') && |v.s.free| < 2)
      || (v'.s.maps == Bind(v.s.maps, r, SHM, Word(v.s.shm, Flags(true, true, true, false, true, 0))) &&
          Keeps(v.s, v'.s))
  }

  ghost predicate ReapDone(v: View, i: nat, v': View) {
    && Usable(v, i) && v'.procs == v.procs[i := UNUSED] && v'.s.maps == v.s.maps - {v.procs[i].pagetable}
    && v'.lost == v.lost + Stray(v.s, v.procs[i].pagetable) && Shrinks(v.s, v'.s)
  }

  /** What an operation that does not panic does. */
  ghost predicate Performed(v: View, op: Op, v': View, trampoline: nat) {
    if op.Boot? then BootDone(v, v', trampoline)
    else if !Usable(v, op.i) then v' == v
    else match op
      case Fork(i) => ForkDone(v, i, v')
      case Clone(_, _, _, _) => CloneDone(v, op, v')
      case Break(_, _, _) => BreakDone(v, op, v')
      case Exec(_, _, _) => ExecDone(v, op, v')
      case PageFault(i, va) => FaultDone(v, i, va, v')
      case Share(i) => ShareDone(v, i, v')
      case Reap(i) => ReapDone(v, i, v')
  }

  /** The kernel goes from each view to the next by what the operation does. */
  ghost predicate History(views: seq<View>, ops: seq<Op>, trampoline: nat) {
    && 0 < |views| <= |ops| + 1
    && forall k {:trigger ops[k]} :: 0 <= k < |views| - 1 ==> Performed(views[k], ops[k], views[k + 1], trampoline)
  }

  lemma HistoryNext(views: seq<View>, ops: seq<Op>, v: View, trampoline: nat)
    requires History(views, ops, trampoline) && |views| <= |ops|
    requires Performed(views[|views| - 1], ops[|views| - 1], v, trampoline)
    ensures History(views + [v], ops, trampoline)
  {
  }

  /** Why an operation may panic. */
  ghost predicate Panics(v: View, op: Op) {
    match op
    case Fork(i) => Usable(v, i) && Collides(v.s, v.procs[i])
    case Clone(i, fcn, stack, returnaddr) =>
      && Usable(v, i)
      && var check := CloneCheck(v.s, v.procs[i], fcn, stack, returnaddr);
         check == Panic || (check == Done && Collides(v.s, v.procs[i]))
    case Break(i, n, eager) => Usable(v, i) && eager && InTheWay(v.s, v.procs[i], n)
    case Exec(i, newsz, _) => Usable(v, i) && InTheWay(v.s, v.procs[i], newsz - v.procs[i].sz)
    case _ => false
  }

  class Kernel {
    const m: Machine
    const proc: array<Proc>
    const trampoline: nat

    /** The frames that freeproc has left allocated although nothing refers to them any more. */
    ghost var lost: multiset<nat>

    ghost function S(): State
      reads m, m.mem, m.references
    {
      m.S()
    }

    ghost predicate Valid()
      reads this, m, m.mem, m.references, proc
    {
      Consistent(m.S(), proc[..], lost)
    }

    ghost function Now(): View
      reads this, m, m.mem, m.references, proc
    {
      View(S(), proc[..], lost)
    }

    /** Nothing was lost and no size reaches beyond SHM_VA. */
    ghost predicate Tidy()
      reads this, m, m.mem, m.references, proc
    {
      lost == multiset{} && KernelInv(m.S(), proc[..])
    }

    /** kinit and procinit: an empty process table and the page for shm_get. */
    constructor (npages: nat, end: nat, nproc: nat, trampoline: nat)
      requires 0 < end < npages
      ensures Tidy() && proc.Length == nproc && forall i :: 0 <= i < nproc ==> proc[i] == UNUSED
      ensures |m.free| == npages - end - 1
      ensures fresh(m) && fresh(m.mem) && fresh(m.references) && fresh(proc)
    {
      m := new Machine(npages, end);
      proc := new Proc[nproc](i => UNUSED);
      this.trampoline := trampoline;
      lost := multiset{};
      new;
      Procinit();
    }

    /** The shared page, allocated once. */
    method Procinit()
      requires m.Valid() && HoldsOk(S()) && m.maps == map[] && m.free != [] && lost == multiset{}
      requires forall p :: 0 <= p < m.mem.Length ==> m.holds[p] == 0
      requires forall i :: 0 <= i < proc.Length ==> proc[i] == UNUSED
      modifies m, m.mem, m.references
      ensures Tidy() && |m.free| + 1 == |old(m.free)|
      ensures m.shm_page_pa < m.mem.Length && m.mem[m.shm_page_pa] == Fill(ZERO)
    {
      ghost var s, procs := S(), proc[..];
      var page := m.KallocFilled(0);
      ShmCreated(s);
      m.shm_page_pa := page;
      KernelBooted(s, S(), procs);
    }

    /** Maps one of the special pages, which own no reference; `Remap` if something is mapped there already. */
    method MapSpecial(pagetable: nat, v: nat, pa: nat, perm: Flags) returns (r: Mapping)
      requires m.Valid() && pagetable in m.maps && Mappable(S(), v, Word(pa, perm.(v := true)))
      requires v !in m.maps[pagetable] ==> !Owning(m.shm_page_pa, v, pa)
      modifies m, m.mem, m.references
      ensures m.Valid() && m.shm_page_pa == old(m.shm_page_pa) && m.holds == old(m.holds)
      ensures Extends(old(S()), S(), pagetable)
      ensures r.Remap? <==> v in old(m.maps[pagetable])
      ensures m.maps == if r.Mapped? then Bind(old(m.maps), pagetable, v, Word(pa, perm.(v := true))) else old(m.maps)
      ensures |m.free| + 2 >= |old(m.free)| && (r.NoMemory? ==> |old(m.free)| < 2)
    {
      ghost var s := S();
      assert MappableAt(s, v, pa, perm.(v := true), 0);
      ghost var done;
      r, done := m.Mappages(pagetable, v, 1, pa, perm);
      SpecialInstalled(s, S(), pagetable, v, pa, perm.(v := true), done);
    }

    /** A page table with no user memory, or 0 with everything as before. */
    method ProcPagetable(trapframe: nat) returns (pagetable: nat)
      requires m.Valid() && HoldsOk(S())
      modifies m, m.mem, m.references
      ensures m.Valid() && m.holds == old(m.holds) && Keeps(old(S()), S())
      ensures pagetable == 0 ==> m.maps == old(m.maps) && |old(m.free)| < 5
      ensures pagetable != 0 ==> |m.free| + 5 >= |old(m.free)|
      ensures pagetable != 0 ==> pagetable !in old(m.maps) && Extends(old(S()), S(), pagetable)
      ensures pagetable != 0 ==> m.maps == old(m.maps)[pagetable := NewMap(trampoline, trapframe)]
    {
      ghost var s0 := S();
      pagetable := m.Uvmcreate();
      if pagetable == 0 {
        return 0;
      }
      ghost var s1 := S();
      var r := MapSpecial(pagetable, TRAMPOLINE, trampoline, RX);
      ExtendsTransitive(s0, s1, S(), pagetable);
      HalfBuilt(s0.maps, pagetable, trampoline);
      if !r.Mapped? {
        Abandon(s0, S(), pagetable);
        return 0;
      }
      var ok := MapTrapframe(s0, pagetable, trapframe);
      if !ok {
        return 0;
      }
    }

    /** The second half of proc_pagetable. */
    method MapTrapframe(ghost s0: State, pagetable: nat, trapframe: nat) returns (ok: bool)
      requires m.Valid() && HoldsOk(S()) && Inv(s0, NOSLOT) && Extends(s0, S(), pagetable) && m.holds == s0.holds
      requires pagetable !in s0.maps
      requires m.maps == s0.maps[pagetable := HalfMap(trampoline)]
      modifies m, m.mem, m.references
      ensures m.Valid() && m.holds == s0.holds && Keeps(s0, S())
      ensures ok ==> Extends(s0, S(), pagetable)
      ensures m.maps == if ok then s0.maps[pagetable := NewMap(trampoline, trapframe)] else s0.maps
      ensures if ok then |m.free| + 2 >= |old(m.free)| else |old(m.free)| < 2
    {
      ghost var s2 := S();
      var r := MapSpecial(pagetable, TRAPFRAME, trapframe, RW);
      ok := r.Mapped?;
      ExtendsTransitive(s0, s2, S(), pagetable);
      if !ok {
        ghost var s3 := S();
        m.Uvmunmap(pagetable, TRAMPOLINE, 1, false);
        UnmappedAt(s3, S(), pagetable, TRAMPOLINE);
        Unbuilt(s0.maps, pagetable, trampoline);
        Abandon(s0, s3, pagetable);
      } else {
        Built(s0.maps, pagetable, trampoline, trapframe);
      }
    }

    method Abandon(ghost s0: State, ghost s1: State, pagetable: nat)
      requires m.Valid() && HoldsOk(S()) && Inv(s0, NOSLOT) && Inv(s1, NOSLOT)
      requires Extends(s0, s1, pagetable) && Shrinks(s1, S()) && m.tbl == s1.tbl
      requires pagetable !in s0.maps && m.maps == s0.maps[pagetable := map[]] && m.holds == s0.holds
      modifies m, m.mem, m.references
      ensures m.Valid() && m.maps == s0.maps && m.holds == s0.holds && Keeps(s0, S())
    {
      ghost var s2 := S();
      m.Uvmfree(pagetable, 0);
      AbandonedTree(s0, s1, s2, S(), pagetable);
    }

    /** The unmapping of the three special pages that opens both branches of freeproc; none of the panics of
        uvmunmap can fire.  No frame is freed: one mapped at SHM_VA that is not the shm page is left to the
        kernel. */
    method UnmapSpecials(pagetable: nat)
      requires m.Valid() && HoldsOk(S()) && pagetable in m.maps
      requires TRAMPOLINE in m.maps[pagetable] && TRAPFRAME in m.maps[pagetable]
      requires forall v {:trigger v in m.maps[pagetable]} :: v in m.maps[pagetable] ==> v < MAXVPN
      modifies m, m.mem, m.references
      ensures m.Valid() && HoldsOk(S()) && SpecialsGone(old(S()), S(), pagetable)
    {
      ghost var s := S();
      UnmapSpecial(s, pagetable, TRAMPOLINE);
      UnmapSpecial(s, pagetable, TRAPFRAME);
      var mapped := m.Ismapped(pagetable, SHM);
      if mapped {
        UnmapSpecial(s, pagetable, SHM);
      } else {
        assert m.maps[pagetable] == m.maps[pagetable] - {SHM};
      }
      SpecialsGoneBy(s, S(), pagetable);
    }

    method UnmapSpecial(ghost s0: State, pagetable: nat, v: nat)
      requires m.Valid() && HoldsOk(S()) && Fewer(s0, S(), pagetable) && v in m.maps[pagetable]
      modifies m, m.mem, m.references
      ensures m.Valid() && HoldsOk(S()) && Fewer(s0, S(), pagetable)
      ensures m.maps[pagetable] == old(m.maps[pagetable]) - {v}
      ensures m.holds == Transfer(old(m.holds), m.shm_page_pa, v, old(m.maps[pagetable][v].ppn), 1)
    {
      ghost var s := S();
      m.Uvmunmap(pagetable, v, 1, false);
      UnmappedAt(s, S(), pagetable, v);
      FewerStill(s0, s, S(), pagetable, v);
    }

    /** proc_freepagetable. */
    method ProcFreepagetable(pagetable: nat, sz: nat)
      requires m.Valid() && HoldsOk(S()) && pagetable in m.maps && Pages(sz) <= TRAPFRAME
      requires TRAMPOLINE in m.maps[pagetable] && TRAPFRAME in m.maps[pagetable]
      requires forall v {:trigger v in m.maps[pagetable]} :: v in m.maps[pagetable] ==>
                 v < Pages(sz) || v == TRAMPOLINE || v == TRAPFRAME || v == SHM
      modifies m, m.mem, m.references
      ensures m.Valid() && HoldsOk(S()) && SpaceReleased(old(S()), S(), pagetable)
    {
      ghost var s := S();
      UnmapSpecials(pagetable);
      ghost var s1 := S();
      m.Uvmfree(pagetable, sz);
      ReleasedAfter(s, s1, S(), pagetable);
    }

    /** The branch of freeproc for threads. */
    method ThreadFreepagetable(pagetable: nat, sz: nat)
      requires m.Valid() && HoldsOk(S()) && pagetable in m.maps && Pages(sz) <= TRAPFRAME
      requires TRAMPOLINE in m.maps[pagetable] && TRAPFRAME in m.maps[pagetable]
      requires forall v {:trigger v in m.maps[pagetable]} :: v in m.maps[pagetable] ==>
                 v < Pages(sz) || v == TRAMPOLINE || v == TRAPFRAME || v == SHM
      modifies m, m.mem, m.references
      ensures m.Valid() && HoldsOk(S()) && SpaceReleased(old(S()), S(), pagetable)
    {
      ghost var s := S();
      UnmapSpecials(pagetable);
      ghost var s1 := S();
      m.UvmunmapSparse(pagetable, 0, Pages(sz));
      ghost var s2 := S();
      EmptiedRoot(s1, s2, pagetable, Pages(sz));
      assert KeyOk(s2, Root(pagetable));
      m.Freewalk(Root(pagetable), pagetable);
      ReleasedBy(s1, s2, S(), pagetable, Pages(sz));
      ReleasedAfter(s, s1, S(), pagetable);
    }

    /** freeproc: any process or thread can be torn down in any state the kernel reaches.  What other page tables map
        stays as it is; a frame mapped at SHM_VA that is not the shm page is lost. */
    method Freeproc(i: nat)
      requires Valid() && i < proc.Length && proc[i].used
      modifies this, m, m.mem, m.references, proc
      ensures Valid() && m.shm_page_pa == old(m.shm_page_pa) && proc[..] == old(proc[..])[i := UNUSED]
      ensures m.maps == old(m.maps) - {old(proc[i].pagetable)} && Shrinks(old(S()), S())
      ensures lost == old(lost) + Stray(old(S()), old(proc[i].pagetable))
    {
      ghost var s := S();
      FreeTrapframe(i);
      ghost var s1 := S();
      FreeSpace(i);
      ShrinksTransitive(s, s1, S());
      NoNullRoot(S());
      ghost var procs' := proc[..];
      KernelMark(S(), procs', lost, i, UNUSED);
      proc[i] := UNUSED;
      assert proc[..] == procs'[i := UNUSED];
    }

    method FreeTrapframe(i: nat)
      requires Valid() && i < proc.Length && proc[i].used
      modifies m, m.mem, m.references, proc
      ensures Valid() && m.shm_page_pa == old(m.shm_page_pa)
      ensures proc[..] == old(proc[..])[i := old(proc[i]).(trapframe := 0)]
      ensures m.maps == old(m.maps) && Shrinks(old(S()), S())
    {
      ghost var procs := proc[..];
      if proc[i].trapframe != 0 {
        KernelDropTrapframe(S(), procs, lost, i);
        m.Kfree(proc[i].trapframe);
      }
      proc[i] := proc[i].(trapframe := 0);
      assert proc[..] == procs[i := proc[i]];
      assert procs[i].trapframe == 0 ==> proc[..] == procs;
    }

    method FreeSpace(i: nat)
      requires Valid() && i < proc.Length && proc[i].used
      modifies this, m, m.mem, m.references, proc
      ensures Valid() && m.shm_page_pa == old(m.shm_page_pa)
      ensures proc[..] == old(proc[..])[i := old(proc[i]).(pagetable := 0)]
      ensures m.maps == old(m.maps) - {old(proc[i].pagetable)} && Shrinks(old(S()), S())
      ensures lost == old(lost) + Stray(old(S()), old(proc[i].pagetable))
    {
      ghost var procs, s1 := proc[..], S();
      assert ProcOk(s1, procs[i]);
      NoNullRoot(s1);
      if proc[i].pagetable != 0 {
        if proc[i].isThread {
          ThreadFreepagetable(proc[i].pagetable, proc[i].sz);
        } else {
          ProcFreepagetable(proc[i].pagetable, proc[i].sz);
        }
        KernelReleased(s1, S(), procs, lost, i);
      }
      lost := lost + Stray(s1, procs[i].pagetable);
      proc[i] := proc[i].(pagetable := 0);
      assert proc[..] == procs[i := proc[i]];
      assert procs[i].pagetable == 0 ==> proc[..] == procs && lost == old(lost);
    }

    /** allocproc: a slot with a trapframe and an empty page table, or nothing changed. */
    method Allocproc() returns (found: bool, i: nat)
      requires Valid()
      modifies this, m, m.mem, m.references, proc
      ensures Valid() && m.shm_page_pa == old(m.shm_page_pa) && lost == old(lost)
      ensures found ==> i < proc.Length && old(proc[i]) == UNUSED && NewProc(old(S()), S(), proc[i], trampoline)
      ensures found ==> MapOf(S(), proc[i]) == map[
                TRAMPOLINE := Word(trampoline, Flags(true, true, false, true, false, 0)),
                TRAPFRAME := Word(proc[i].trapframe, Flags(true, true, true, false, false, 0))]
      ensures found ==> proc[..] == old(proc[..])[i := proc[i]]
      ensures !found ==> proc[..] == old(proc[..]) && m.maps == old(m.maps) && Keeps(old(S()), S())
      ensures if found then |m.free| + 6 >= |old(m.free)| else AllUsed(old(proc[..])) || |old(m.free)| < 6
    {
      i := 0;
      while i < proc.Length && proc[i].used
        invariant i <= proc.Length && forall j :: 0 <= j < i ==> proc[j].used
      {
        i := i + 1;
      }
      if i == proc.Length {
        return false, 0;
      }
      ghost var s, procs := S(), proc[..];
      assert procs[i] == UNUSED;
      KernelMark(S(), procs, lost, i, UNUSED.(used := true));
      proc[i] := UNUSED.(used := true);
      assert proc[..] == procs[i := UNUSED.(used := true)];
      found := BuildProc(i);
      if !found {
        assert proc[..] == procs;
        CountsDetermined(s, S(), procs, lost);
      }
    }

    /** The part of allocproc after `found`. */
    method BuildProc(i: nat) returns (ok: bool)
      requires Valid() && i < proc.Length && proc[i] == UNUSED.(used := true)
      modifies this, m, m.mem, m.references, proc
      ensures Valid() && m.shm_page_pa == old(m.shm_page_pa) && lost == old(lost)
      ensures ok ==> NewProc(old(S()), S(), proc[i], trampoline) && proc[..] == old(proc[..])[i := proc[i]]
      ensures !ok ==> proc[..] == old(proc[..])[i := UNUSED] && m.maps == old(m.maps) && SameBytes(old(S()), S())
      ensures if ok then |m.free| + 6 >= |old(m.free)| else |old(m.free)| < 6
    {
      ghost var s, procs := S(), proc[..];
      ok := Equip(i);
      ghost var s1, procs1 := S(), proc[..];
      Overwritten(procs, procs1, i, UNUSED);
      if !ok {
        NoNullRoot(S());
        Freeproc(i);
        assert lost == old(lost);
        BytesThrough(s, s1, S());
      }
    }

    method Equip(i: nat) returns (ok: bool)
      requires Valid() && i < proc.Length && proc[i] == UNUSED.(used := true)
      modifies this, m, m.mem, m.references, proc
      ensures Valid() && m.shm_page_pa == old(m.shm_page_pa) && lost == old(lost)
      ensures proc[..] == old(proc[..])[i := proc[i]]
      ensures ok ==> NewProc(old(S()), S(), proc[i], trampoline)
      ensures !ok ==> proc[i].used && proc[i].pagetable == 0 && m.maps == old(m.maps) && Keeps(old(S()), S())
      ensures if ok then |m.free| + 6 >= |old(m.free)| else |old(m.free)| < 6
    {
      ghost var s0 := S();
      ok := GiveTrapframe(i);
      if ok {
        ghost var s1 := S();
        ok := GivePagetable(i);
        assert Extends(s0, s1, 0);
        KeepsTransitive(s0, s1, S());
        if ok {
          ExtendsTransitive(s0, s1, S(), proc[i].pagetable);
        }
      }
    }

    method GiveTrapframe(i: nat) returns (ok: bool)
      requires Valid() && i < proc.Length && proc[i] == UNUSED.(used := true)
      modifies this, m, m.mem, m.references, proc
      ensures Valid() && m.shm_page_pa == old(m.shm_page_pa) && lost == old(lost) && m.maps == old(m.maps)
      ensures ok ==> proc[i] == UNUSED.(used := true, trapframe := proc[i].trapframe) && proc[i].trapframe != 0
      ensures ok ==> forall r :: Extends(old(S()), S(), r)
      ensures !ok ==> proc[i] == UNUSED.(used := true) && S() == old(S())
      ensures proc[..] == old(proc[..])[i := proc[i]]
      ensures if ok then |m.free| + 1 >= |old(m.free)| else old(m.free) == []
    {
      ghost var s, procs := S(), proc[..];
      assert m.free != [] ==> FreeOk(s, |m.free| - 1);
      var trapframe := m.Kalloc();
      if trapframe == 0 {
        assert proc[..] == procs[i := proc[i]];
        return false;
      }
      KernelAddTrapframe(s, procs, lost, i);
      forall r {
        ExtendsKalloc(s, r);
      }
      proc[i] := proc[i].(trapframe := trapframe);
      assert proc[..] == procs[i := proc[i]];
      return true;
    }

    method GivePagetable(i: nat) returns (ok: bool)
      requires Valid() && i < proc.Length && proc[i].used && proc[i].pagetable == 0 && proc[i].trapframe != 0
      modifies this, m, m.mem, m.references, proc
      ensures Valid() && m.shm_page_pa == old(m.shm_page_pa) && lost == old(lost) && Keeps(old(S()), S())
      ensures proc[i] == old(proc[i]).(pagetable := proc[i].pagetable) && proc[..] == old(proc[..])[i := proc[i]]
      ensures ok ==> proc[i].pagetable != 0 && proc[i].pagetable !in old(m.maps)
      ensures ok ==> Extends(old(S()), S(), proc[i].pagetable)
      ensures ok ==> m.maps == old(m.maps)[proc[i].pagetable := NewMap(trampoline, proc[i].trapframe)]
      ensures !ok ==> m.maps == old(m.maps) && proc[i].pagetable == 0
      ensures if ok then |m.free| + 5 >= |old(m.free)| else |old(m.free)| < 5
    {
      ghost var s, procs := S(), proc[..];
      NoNullRoot(s);
      assert ProcOk(s, procs[i]);
      var pagetable := ProcPagetable(proc[i].trapframe);
      KernelGrows(s, S(), procs, lost, i, procs[i].(pagetable := pagetable));
      proc[i] := proc[i].(pagetable := pagetable);
      assert proc[..] == procs[i := proc[i]];
      return pagetable != 0;
    }

    /** userinit: the first process. */
    method Userinit() returns (found: bool, i: nat)
      requires Valid()
      modifies this, m, m.mem, m.references, proc
      ensures Valid() && m.shm_page_pa == old(m.shm_page_pa) && lost == old(lost)
      ensures found ==> i < proc.Length && old(proc[i]) == UNUSED && NewProc(old(S()), S(), proc[i], trampoline)
      ensures found ==> proc[..] == old(proc[..])[i := proc[i]]
      ensures !found ==> proc[..] == old(proc[..]) && m.maps == old(m.maps) && Keeps(old(S()), S())
      ensures if found then |m.free| + 6 >= |old(m.free)| else AllUsed(old(proc[..])) || |old(m.free)| < 6
    {
      found, i := Allocproc();
    }

    /** kfork's memory: the child gets a private copy of the parent's pages, or nothing has changed and every
        data frame has its old count.  If the parent's size covers SHM_VA and a page is mapped there, uvmcopy has
        given the child a page at that address by the time kfork maps the shm page there, and the kernel panics
        instead of succeeding. */
    method Kfork(i: nat) returns (r: Outcome, j: nat)
      requires Valid() && i < proc.Length && proc[i].used && proc[i].pagetable != 0
      modifies this, m, m.mem, m.references, proc
      ensures r != Panic ==> Valid() && m.shm_page_pa == old(m.shm_page_pa) && lost == old(lost)
      ensures r == Done ==> j < proc.Length && old(proc[j]) == UNUSED && Forked(old(S()), S(), old(proc[i]), proc[j])
      ensures r == Done ==> proc[..] == old(proc[..])[j := proc[j]]
      ensures r == Failed ==> proc[..] == old(proc[..]) && m.maps == old(m.maps) && Keeps(old(S()), S())
      ensures r == Failed ==> AllUsed(old(proc[..])) || |old(m.free)| < 6 + 3 * MappedPages(old(S()), old(proc[i]))
      ensures if Collides(old(S()), old(proc[i])) then r != Done else r != Panic
      ensures r == Done && old(SHM in MapOf(S(), proc[i])) ==>
                SHM in MapOf(S(), proc[j]) || |old(m.free)| < 8 + 3 * MappedPages(old(S()), old(proc[i]))
      ensures r == Done && SHM in MapOf(S(), proc[j]) ==>
                MapOf(S(), proc[j])[SHM] == Word(m.shm_page_pa, Flags(true, true, true, false, true, 0))
    {
      ghost var s0, procs := S(), proc[..];
      assert ProcOk(s0, procs[i]);
      SizeAboveShm(proc[i].sz);
      var ok;
      ok, j := Allocproc();
      r := Failed;
      if ok {
        ghost var procs1 := proc[..];
        r := CopySpace(s0, i, j);
        Overwritten(procs, procs1, j, proc[j]);
        assert r == Failed ==> proc[..] == procs;
      }
      if r == Failed && ok {
        CountsDetermined(s0, S(), procs, lost);
      }
    }

    /** The part of kfork that copies memory into the new process j. */
    method CopySpace(ghost s0: State, i: nat, j: nat) returns (r: Outcome)
      requires Valid() && i < proc.Length && j < proc.Length && i != j && proc[i].used && proc[i].pagetable != 0
      requires Inv(s0, NOSLOT) && HoldsOk(s0) && ShmOk(s0) && proc[i].pagetable in s0.maps
      requires Pages(proc[i].sz) <= TRAPFRAME && NewProc(s0, S(), proc[j], trampoline)
      modifies this, m, m.mem, m.references, proc
      ensures r != Panic ==> Valid() && m.shm_page_pa == old(m.shm_page_pa) && lost == old(lost)
      ensures r == Done ==> Forked(s0, S(), proc[i], proc[j]) && proc[..] == old(proc[..])[j := proc[j]]
      ensures r == Failed ==> proc[..] == old(proc[..])[j := UNUSED] && m.maps == s0.maps && SameBytes(s0, S())
      ensures r == Failed ==> |old(m.free)| < 3 * MappedPages(s0, old(proc[i]))
      ensures if Collides(s0, old(proc[i])) then r != Done else r != Panic
      ensures r == Done && SHM in MapOf(s0, proc[i]) ==>
                SHM in MapOf(S(), proc[j]) || |old(m.free)| < 2 + 3 * MappedPages(s0, proc[i])
    {
      ghost var s1 := S();
      var ok := CopyPages(s0, i, j);
      if ok {
        r := FinishFork(s0, s1, i, j);
      } else {
        AbandonCopy(s0, s1, j);
        r := Failed;
      }
    }

    /** uvmcopy into the new process. */
    method CopyPages(ghost s0: State, i: nat, j: nat) returns (ok: bool)
      requires Valid() && i < proc.Length && j < proc.Length && i != j && proc[i].used && proc[i].pagetable != 0
      requires Inv(s0, NOSLOT) && proc[i].pagetable in s0.maps
      requires Pages(proc[i].sz) <= TRAPFRAME && NewProc(s0, S(), proc[j], trampoline)
      modifies m, m.mem, m.references
      ensures m.Valid() && BackedBelow(old(S()), proc[i].pagetable, Pages(proc[i].sz))
      ensures ok ==> Filled(old(S()), S(), proc[j].pagetable,
                            CopyWanted(old(S()), proc[i].pagetable, Pages(proc[i].sz)), 0, Pages(proc[i].sz))
      ensures !ok ==> Grows(old(S()), S(), proc[j].pagetable)
      ensures if ok then |m.free| + 3 * MappedPages(s0, proc[i]) >= |old(m.free)|
              else |old(m.free)| < 3 * MappedPages(s0, proc[i])
    {
      assert MapOf(S(), proc[i]) == MapOf(s0, proc[i]);
      NewMapVacant(trampoline, proc[j].trapframe, Pages(proc[i].sz));
      ok := m.Uvmcopy(proc[i].pagetable, proc[j].pagetable, proc[i].sz);
    }

    /** kfork's way out. */
    method AbandonCopy(ghost s0: State, ghost s1: State, j: nat)
      requires m.Valid() && j < proc.Length && proc[j].used && Consistent(s1, proc[..], lost)
      requires NewProc(s0, s1, proc[j], trampoline) && Grows(s1, S(), proc[j].pagetable)
      modifies this, m, m.mem, m.references, proc
      ensures Valid() && m.shm_page_pa == s1.shm && lost == old(lost)
      ensures proc[..] == old(proc[..])[j := UNUSED] && m.maps == s0.maps && SameBytes(s0, S())
    {
      assert S().shm == s1.shm;
      GrownSame(s1, S(), proc[..], lost, j);
      KeepsTransitive(s0, s1, S());
      Discard(s0, j);
    }

    /** The end of kfork: the size and the shm page. */
    method FinishFork(ghost s0: State, ghost s1: State, i: nat, j: nat) returns (r: Outcome)
      requires i < proc.Length && j < proc.Length && i != j && proc[i].used && proc[i].pagetable in s0.maps
      requires Inv(s0, NOSLOT) && HoldsOk(s0) && ShmOk(s0) && Pages(proc[i].sz) <= TRAPFRAME
      requires NewProc(s0, s1, proc[j], trampoline) && Consistent(s1, proc[..], lost) && m.Valid()
      requires BackedBelow(s1, proc[i].pagetable, Pages(proc[i].sz))
      requires Filled(s1, S(), proc[j].pagetable, CopyWanted(s1, proc[i].pagetable, Pages(proc[i].sz)), 0,
          Pages(proc[i].sz))
      modifies m, m.mem, m.references, proc
      ensures r == if Collides(s0, old(proc[i])) then Panic else Done
      ensures r == Done ==> Valid() && m.shm_page_pa == s1.shm
      ensures r == Done ==> Forked(s0, S(), proc[i], proc[j]) && proc[..] == old(proc[..])[j := proc[j]]
      ensures r == Done && SHM in MapOf(s0, proc[i]) ==> SHM in MapOf(S(), proc[j]) || |old(m.free)| < 2
    {
      ghost var s2, procs := S(), proc[..];
      assert s2.shm == s1.shm;
      var sz := proc[i].sz;
      KernelFilled(s1, s2, procs, lost, j, procs[j].(sz := sz), CopyWanted(s1, proc[i].pagetable, Pages(sz)), 0);
      ForkedBy(s0, s1, s2, procs[i], procs[j].(sz := sz), trampoline);
      Resize(j, sz);
      r := InheritShm(s0, s2, i, j);
    }

    /** p->sz = sz. */
    method Resize(i: nat, sz: nat)
      requires i < proc.Length && Consistent(S(), proc[..][i := proc[i].(sz := sz)], lost)
      modifies proc
      ensures Valid() && m.shm_page_pa == old(m.shm_page_pa) && proc[..] == old(proc[..])[i := old(proc[i]).(sz := sz)]
    {
      ghost var procs := proc[..];
      proc[i] := proc[i].(sz := sz);
      assert proc[..] == procs[i := procs[i].(sz := sz)];
    }

    /** The way out of kfork and kclone when memory is exhausted: the half-built process goes. */
    method Discard(ghost s0: State, j: nat)
      requires Valid() && j < proc.Length && proc[j].used && AddedOne(s0.maps, m.maps, proc[j].pagetable)
      requires SHM !in m.maps[proc[j].pagetable] && KeepsPages(s0, S())
      modifies this, m, m.mem, m.references, proc
      ensures Valid() && m.shm_page_pa == old(m.shm_page_pa) && lost == old(lost)
      ensures proc[..] == old(proc[..])[j := UNUSED] && m.maps == s0.maps && SameBytes(s0, S())
    {
      ghost var s := S();
      Freeproc(j);
      assert m.maps == s0.maps;
      assert lost == old(lost);
      BytesThrough(s0, s, S());
    }

    /** The end of kfork: the child sees the shm page if the parent does and memory allows it.  What is mapped in
        the parent is not looked at. */
    method InheritShm(ghost s0: State, ghost s2: State, i: nat, j: nat) returns (r: Outcome)
      requires Valid() && i < proc.Length && j < proc.Length && i != j && proc[j].used && S() == s2
      requires proc[i].pagetable in s0.maps && Forked(s0, S(), proc[i], proc[j])
      requires SHM in m.maps[proc[j].pagetable] <==> SHM < Pages(proc[i].sz) && SHM in s0.maps[proc[i].pagetable]
      modifies m, m.mem, m.references
      ensures r == if Collides(s0, proc[i]) then Panic else Done
      ensures r == Done ==> Valid() && m.shm_page_pa == old(m.shm_page_pa) && Forked(s0, S(), proc[i], proc[j])
      ensures r == Done && SHM in MapOf(s0, proc[i]) ==> SHM in MapOf(S(), proc[j]) || |old(m.free)| < 2
    {
      var src, dst := proc[i].pagetable, proc[j].pagetable;
      ghost var P, Q := proc[i], proc[j];
      SizeAboveShm(proc[i].sz);
      assert s2.maps[src] == s0.maps[src];
      var mapped := m.Ismapped(src, SHM);
      r := Done;
      if mapped {
        var done := MapSpecial(dst, SHM, m.shm_page_pa, RWU);
        if done.Remap? {
          r := Panic;
        } else {
          ForkedStill(s0, s2, S(), P, Q);
          KernelShmMapped(s2, S(), proc[..], lost, j);
        }
      }
    }

    /** The checks of kclone before it allocates anything: the entry point must be executable and the top of the
        stack writable user memory below the size, and the return address executable.  Only the first two
        addresses are bounded before they are walked. */
    method CheckClone(i: nat, fcn: nat, stack: nat, returnaddr: nat) returns (r: Outcome)
      requires Valid() && i < proc.Length && proc[i].used && proc[i].pagetable != 0
      modifies m, m.mem, m.references
      ensures S() == old(S()) && r == CloneCheck(S(), proc[i], fcn, stack, returnaddr)
      ensures var m, sz, entry, top, back :=
          MapOf(S(), proc[i]), proc[i].sz, fcn / PGSIZE, (stack - 1) / PGSIZE, returnaddr / PGSIZE;
        && (r != Failed <==>
             && fcn < sz && entry in m && m[entry].flags.u && m[entry].flags.x
             && 0 < stack <= sz && top in m && m[top].flags.u && m[top].flags.w
             && (returnaddr < MAXVPN * PGSIZE ==> back in m && m[back].flags.x))
        && (r == Panic <==> r != Failed && returnaddr >= MAXVPN * PGSIZE)
    {
      ghost var s, procs := S(), proc[..];
      assert ProcOk(s, procs[i]);
      var p := proc[i];
      if fcn >= p.sz || stack == 0 || stack > p.sz {
        return Failed;
      }
      UserPage(s, procs, lost, i, fcn);
      UserPage(s, procs, lost, i, stack - 1);
      var pa := m.Walkaddr(p.pagetable, fcn);
      if pa == 0 {
        return Failed;
      }
      pa := m.Walkaddr(p.pagetable, stack - 1);
      if pa == 0 {
        return Failed;
      }
      r := CheckEntries(p, fcn, stack, returnaddr);
    }

    /** The permissions of the three page-table entries; walk panics on an address at or above MAXVA. */
    method CheckEntries(p: Proc, fcn: nat, stack: nat, returnaddr: nat) returns (r: Outcome)
      requires m.Valid() && p.pagetable in m.maps && fcn < p.sz && 0 < stack <= p.sz && Pages(p.sz) <= TRAPFRAME
      requires fcn / PGSIZE in m.maps[p.pagetable] && m.maps[p.pagetable][fcn / PGSIZE].flags.u
      requires (stack - 1) / PGSIZE in m.maps[p.pagetable] && m.maps[p.pagetable][(stack - 1) / PGSIZE].flags.u
      modifies m, m.mem, m.references
      ensures S() == old(S()) && r == CloneCheck(S(), p, fcn, stack, returnaddr)
    {
      var flags := m.Lookup(p.pagetable, fcn / PGSIZE);
      if !flags.x {
        return Failed;
      }
      flags := m.Lookup(p.pagetable, (stack - 1) / PGSIZE);
      if !flags.w {
        return Failed;
      }
      if returnaddr >= MAXVPN * PGSIZE {
        return Panic;
      }
      flags := m.Lookup(p.pagetable, returnaddr / PGSIZE);
      return if flags.x then Done else Failed;
    }

    /** kclone: the checks, and then the memory.  It takes the kernel down exactly when the checks do, or when they
        pass, memory suffices and the size covers a page mapped at SHM_VA. */
    method Kclone(i: nat, fcn: nat, stack: nat, returnaddr: nat) returns (r: Outcome, j: nat)
      requires Valid() && i < proc.Length && proc[i].used && proc[i].pagetable != 0
      modifies this, m, m.mem, m.references, proc
      ensures r != Panic ==> Valid() && m.shm_page_pa == old(m.shm_page_pa) && lost == old(lost)
      ensures CloneCheck(old(S()), old(proc[i]), fcn, stack, returnaddr) == Panic ==> r == Panic
      ensures CloneCheck(old(S()), old(proc[i]), fcn, stack, returnaddr) == Failed ==> r == Failed && S() == old(S())
      ensures CloneCheck(old(S()), old(proc[i]), fcn, stack, returnaddr) == Done ==>
                if Collides(old(S()), old(proc[i])) then r != Done else r != Panic
      ensures r == Done ==> j < proc.Length && old(proc[j]) == UNUSED && Cloned(old(S()), S(), old(proc[i]), proc[j])
      ensures r == Done ==> proc[..] == old(proc[..])[j := proc[j]]
      ensures r == Failed ==> proc[..] == old(proc[..]) && m.maps == old(m.maps) && Keeps(old(S()), S())
      ensures r == Failed && CloneCheck(old(S()), old(proc[i]), fcn, stack, returnaddr) == Done ==>
                AllUsed(old(proc[..])) || |old(m.free)| < 8 + 2 * MappedPages(old(S()), old(proc[i]))
    {
      r := CheckClone(i, fcn, stack, returnaddr);
      j := 0;
      if r == Done {
        r, j := CloneMemory(i);
      }
    }

    /** kclone's memory: the thread shares every page of its creator, or nothing has changed and every data
        frame has its old count. */
    method CloneMemory(i: nat) returns (r: Outcome, j: nat)
      requires Valid() && i < proc.Length && proc[i].used && proc[i].pagetable != 0
      modifies this, m, m.mem, m.references, proc
      ensures r != Panic ==> Valid() && m.shm_page_pa == old(m.shm_page_pa) && lost == old(lost)
      ensures r == Done ==> j < proc.Length && old(proc[j]) == UNUSED && Cloned(old(S()), S(), old(proc[i]), proc[j])
      ensures r == Done ==> proc[..] == old(proc[..])[j := proc[j]]
      ensures r == Failed ==> proc[..] == old(proc[..]) && m.maps == old(m.maps) && Keeps(old(S()), S())
      ensures r == Failed ==> AllUsed(old(proc[..])) || |old(m.free)| < 8 + 2 * MappedPages(old(S()), old(proc[i]))
      ensures if Collides(old(S()), old(proc[i])) then r != Done else r != Panic
    {
      ghost var s0, procs := S(), proc[..];
      assert ProcOk(s0, procs[i]);
      var ok;
      ok, j := Allocproc();
      r := Failed;
      if ok {
        ghost var procs1 := proc[..];
        r := ShareSpace(s0, i, j);
        Overwritten(procs, procs1, j, proc[j]);
        assert r == Failed ==> proc[..] == procs;
      }
      if r == Failed && ok {
        CountsDetermined(s0, S(), procs, lost);
      }
    }

    /** The part of kclone that shares memory with the new thread j. */
    method ShareSpace(ghost s0: State, i: nat, j: nat) returns (r: Outcome)
      requires Valid() && i < proc.Length && j < proc.Length && i != j && proc[i].used && proc[i].pagetable != 0
      requires Inv(s0, NOSLOT) && HoldsOk(s0) && proc[i].pagetable in s0.maps && Pages(proc[i].sz) <= TRAPFRAME
      requires NewProc(s0, S(), proc[j], trampoline)
      modifies this, m, m.mem, m.references, proc
      ensures r != Panic ==> Valid() && m.shm_page_pa == old(m.shm_page_pa) && lost == old(lost)
      ensures r == Done ==> Cloned(s0, S(), proc[i], proc[j]) && proc[..] == old(proc[..])[j := proc[j]]
      ensures r == Failed ==> proc[..] == old(proc[..])[j := UNUSED] && m.maps == s0.maps && SameBytes(s0, S())
      ensures r == Failed ==> |old(m.free)| < 2 + 2 * MappedPages(s0, old(proc[i]))
      ensures if Collides(s0, old(proc[i])) then r != Done else r != Panic
    {
      ghost var s1, procs := S(), proc[..];
      assert MapOf(s1, proc[i]) == MapOf(s0, proc[i]);
      var ok := ShareUser(i, j);
      assert proc[i] == procs[i];
      ghost var procs1 := proc[..];
      Overwritten(procs, procs1, j, UNUSED);
      if ok {
        r := FinishClone(s0, s1, i, j);
        if r == Failed {
          Discard(s0, j);
        }
      } else {
        KeepsTransitive(s0, s1, S());
        Discard(s0, j);
        r := Failed;
      }
    }

    /** The end of kclone: the shm page. */
    method FinishClone(ghost s0: State, ghost s1: State, i: nat, j: nat) returns (r: Outcome)
      requires m.Valid() && i < proc.Length && j < proc.Length && i != j && proc[i].used && proc[j].used
      requires proc[i].pagetable in s0.maps && proc[i].pagetable in m.maps && proc[j].pagetable in m.maps
      requires m.maps[proc[i].pagetable] == s0.maps[proc[i].pagetable]
      requires if Collides(s0, proc[i]) then SHM in m.maps[proc[j].pagetable]
               else Valid() && CloneReady(s0, s1, S(), proc[i], proc[j], trampoline)
      modifies m, m.mem, m.references
      ensures r == Panic <==> Collides(s0, proc[i])
      ensures r != Panic ==> Valid() && m.shm_page_pa == s1.shm
      ensures r == Done ==> Cloned(s0, S(), proc[i], proc[j])
      ensures r == Failed ==> AddedOne(s0.maps, m.maps, proc[j].pagetable) && SHM !in m.maps[proc[j].pagetable]
      ensures r == Failed ==> |old(m.free)| < 2 && KeepsPages(s0, S())
    {
      ghost var s2, procs, P, Q := S(), proc[..], proc[i], proc[j];
      if !Collides(s0, P) {
        ClonePrepared(s0, s1, s2, P, Q, trampoline);
        if SHM in s2.maps[P.pagetable] {
          SeesShm(s2, procs, lost, i);
        }
      }
      var done := ShareShm(proc[i].pagetable, proc[j].pagetable);
      match done {
        case Remap =>
          r := Panic;
        case NoMemory =>
          r := Failed;
          GrownSame(s2, S(), procs, lost, j);
          CloneRefused(s0, s1, s2, S(), P, Q, trampoline);
        case Mapped =>
          r := Done;
          CloneFinished(s0, s1, s2, S(), procs, lost, i, j, P, Q, trampoline);
      }
    }

    /** The fields kclone sets, and uvmshare. */
    method ShareUser(i: nat, j: nat) returns (ok: bool)
      requires Valid() && i < proc.Length && j < proc.Length && i != j && proc[i].used && proc[i].pagetable != 0
      requires proc[i].pagetable in m.maps && Pages(proc[i].sz) <= TRAPFRAME
      requires proc[j].used && proc[j].pagetable in m.maps && proc[j].pagetable != 0 && proc[j].sz == 0
      requires m.maps[proc[j].pagetable] == NewMap(trampoline, proc[j].trapframe)
      modifies m, m.mem, m.references, proc
      ensures m.Valid() && proc[..] == old(proc[..])[j := old(proc[j]).(isThread := true, sz := proc[i].sz)]
      ensures proc[i].pagetable in m.maps && m.maps[proc[i].pagetable] == old(m.maps[proc[i].pagetable])
      ensures proc[j].pagetable in m.maps
      ensures ok ==> if Collides(old(S()), proc[i]) then SHM in m.maps[proc[j].pagetable] else
                       Valid() && Shared(old(S()), S(), proc[i].pagetable, proc[j].pagetable, Pages(proc[i].sz))
      ensures !ok ==> Valid() && m.maps == old(m.maps) && Keeps(old(S()), S())
      ensures if ok then |m.free| + 2 * MappedPages(old(S()), proc[i]) >= |old(m.free)|
              else |old(m.free)| < 2 * MappedPages(old(S()), proc[i])
    {
      ghost var s1, procs := S(), proc[..];
      assert ProcOk(s1, procs[j]) && Disjoint(procs[if i < j then i else j], procs[if i < j then j else i]);
      ghost var Q := procs[j].(isThread := true, sz := procs[i].sz);
      proc[j] := proc[j].(isThread := true, sz := proc[i].sz);
      assert proc[..] == procs[j := Q];
      NewMapVacant(trampoline, procs[j].trapframe, Pages(procs[i].sz));
      SizeAboveShm(procs[i].sz);
      ok := m.Uvmshare(proc[i].pagetable, proc[j].pagetable, proc[i].sz);
      if ok {
        if !Collides(s1, procs[i]) {
          KernelShared(s1, S(), procs, lost, procs[i].pagetable, j, Q);
        }
      } else {
        KernelGrows(s1, S(), procs, lost, j, Q);
      }
    }

    /** The thread sees what its creator sees at SHM_VA, through an equal page-table entry. */
    method ShareShm(src: nat, dst: nat) returns (r: Mapping)
      requires m.Valid() && src in m.maps && dst in m.maps
      requires SHM in m.maps[src] && SHM !in m.maps[dst] ==> m.maps[src][SHM].ppn == m.shm_page_pa
      modifies m, m.mem, m.references
      ensures m.Valid() && m.shm_page_pa == old(m.shm_page_pa) && m.holds == old(m.holds)
      ensures Extends(old(S()), S(), dst)
      ensures r.Remap? <==> SHM in old(m.maps[src]) && SHM in old(m.maps[dst])
      ensures m.maps == if r.Mapped? && SHM in old(m.maps[src])
                        then Bind(old(m.maps), dst, SHM, old(m.maps[src][SHM])) else old(m.maps)
      ensures r.NoMemory? ==> |old(m.free)| < 2
    {
      ghost var s := S();
      var found, page, index := m.Walk(src, SHM, false);
      SlotOfPage(s, src, SHM);
      r := Mapped;
      if found && m.mem[page][index].flags.v {
        var pte := m.mem[page][index];
        DropLeafInv(s, src, SHM);
        assert pte.flags.(v := false).(v := true) == pte.flags;
        r := MapSpecial(dst, SHM, pte.ppn, pte.flags.(v := false));
      }
    }

    // -------------------------------------------------------------- kernel/sysproc.c

    /** growproc.  The bound it checks lets a size cover SHM_VA: if the shm page is mapped there, mappages panics
        unless memory runs out first. */
    method Growproc(i: nat, n: int) returns (r: Outcome)
      requires Valid() && i < proc.Length && proc[i].used && proc[i].pagetable != 0
      requires -0x8000_0000 <= n < 0x8000_0000
      modifies m, m.mem, m.references, proc
      ensures r != Panic ==> Valid() && m.shm_page_pa == old(m.shm_page_pa) && proc[..] == old(proc[..])[i := proc[i]]
      ensures r != Panic ==>
                proc[i] == old(proc[i]).(sz :=
                  if r == Done && old(proc[i]).sz + n >= 0 then old(proc[i]).sz + n else old(proc[i]).sz)
      ensures r == Failed ==> m.maps == old(m.maps) && n > 0 && Refusable(old(proc[i]).sz, n, |old(m.free)|)
      ensures r == Failed ==> Keeps(old(S()), S())
      ensures r == Done ==> GrownOrShrunk(old(S()), S(), proc[i].pagetable, old(proc[i]).sz, proc[i].sz)
      ensures r == Panic ==> InTheWay(old(S()), old(proc[i]), n)
      ensures InTheWay(old(S()), old(proc[i]), n) ==> r != Done
      ensures old(Tidy()) && r == Done ==> (Tidy() <==> old(proc[i]).sz + n <= SHM * PGSIZE)
    {
      ghost var procs := proc[..];
      assert ProcOk(S(), procs[i]);
      if n > 0 {
        r := GrowBy(i, n);
      } else {
        if n < 0 {
          Shrink(i, Wrapped(proc[i].sz + n));
        }
        r := Done;
      }
      assert procs == procs[i := procs[i]];
      if r == Done {
        BelowShmIff(procs, proc[..], i);
      }
    }

    /** The growing branch of growproc, with its bound. */
    method GrowBy(i: nat, n: nat) returns (r: Outcome)
      requires Valid() && i < proc.Length && proc[i].used && proc[i].pagetable in m.maps && proc[i].pagetable != 0
      requires n > 0
      modifies m, m.mem, m.references, proc
      ensures r != Panic ==> Valid() && m.shm_page_pa == old(m.shm_page_pa) && proc[..] == old(proc[..])[i := proc[i]]
      ensures r != Panic ==>
                proc[i] == old(proc[i]).(sz := if r == Done then old(proc[i]).sz + n else old(proc[i]).sz)
      ensures r == Failed ==> m.maps == old(m.maps) && Refusable(old(proc[i]).sz, n, |old(m.free)|)
      ensures r == Failed ==> Keeps(old(S()), S())
      ensures r == Done ==> GrownOrShrunk(old(S()), S(), proc[i].pagetable, old(proc[i]).sz, proc[i].sz)
      ensures r == Panic ==> InTheWay(old(S()), old(proc[i]), n)
      ensures InTheWay(old(S()), old(proc[i]), n) ==> r != Done
    {
      if proc[i].sz + n > TRAPFRAME * PGSIZE {
        r := Failed;
        assert proc[..] == old(proc[..])[i := proc[i]];
      } else {
        r := Grow(i, proc[i].sz + n, NONE.(w := true));
      }
    }

    /** The shrinking branch of growproc. */
    method Shrink(i: nat, newsz: nat)
      requires Valid() && i < proc.Length && proc[i].used && proc[i].pagetable in m.maps && proc[i].pagetable != 0
      modifies m, m.mem, m.references, proc
      ensures Valid() && m.shm_page_pa == old(m.shm_page_pa) && proc[..] == old(proc[..])[i := proc[i]]
      ensures proc[i] == old(proc[i]).(sz := if newsz >= old(proc[i].sz) then old(proc[i].sz) else newsz)
      ensures GrownOrShrunk(old(S()), S(), proc[i].pagetable, old(proc[i]).sz, proc[i].sz)
    {
      ghost var procs := proc[..];
      assert ProcOk(S(), procs[i]);
      var sz := m.Uvmdealloc(proc[i].pagetable, proc[i].sz, newsz);
      KernelDealloced(old(S()), S(), procs, lost, i, sz);
      Resize(i, sz);
    }

    /** The growing branch of growproc. */
    method Grow(i: nat, newsz: nat, xperm: Flags) returns (r: Outcome)
      requires Valid() && i < proc.Length && proc[i].used && proc[i].pagetable in m.maps && proc[i].pagetable != 0
      requires proc[i].sz < newsz <= TRAPFRAME * PGSIZE
      modifies m, m.mem, m.references, proc
      ensures r != Panic ==> Valid() && m.shm_page_pa == old(m.shm_page_pa) && proc[..] == old(proc[..])[i := proc[i]]
      ensures r != Panic ==> proc[i] == old(proc[i]).(sz := if r == Done then newsz else old(proc[i]).sz)
      ensures r == Failed ==> m.maps == old(m.maps) && |old(m.free)| < 3 * (Pages(newsz) - Pages(old(proc[i].sz)))
      ensures r == Failed ==> Keeps(old(S()), S())
      ensures r == Done ==>
                Grown(old(S()), S(), proc[i].pagetable, Pages(old(proc[i]).sz), Pages(newsz), UserFlags(xperm))
      ensures r == Panic ==> InTheWay(old(S()), old(proc[i]), newsz - old(proc[i].sz))
      ensures InTheWay(old(S()), old(proc[i]), newsz - old(proc[i].sz)) ==> r != Done
    {
      ghost var s, procs, lo := S(), proc[..], Pages(proc[i].sz);
      assert ProcOk(s, procs[i]);
      OnlyShmInTheWay(s, procs[i], newsz);
      var sz, remap := m.Uvmalloc(proc[i].pagetable, proc[i].sz, newsz, xperm);
      if remap {
        r := Panic;
      } else if sz == 0 {
        GrownSame(s, S(), procs, lost, i);
        assert procs == procs[i := procs[i]];
        r := Failed;
      } else {
        Settle(s, i, sz, lo, xperm);
        r := Done;
      }
    }

    /** The new size of a process whose pages have been added. */
    method Settle(ghost s: State, i: nat, sz: nat, ghost lo: nat, ghost xperm: Flags)
      requires m.Valid() && i < proc.Length && proc[i].used && proc[i].pagetable != 0
      requires Consistent(s, proc[..], lost) && proc[i].sz < sz && Pages(sz) <= TRAPFRAME && lo == Pages(proc[i].sz)
      requires Filled(s, S(), proc[i].pagetable, Wanted(lo, Pages(sz), UserFlags(xperm)), lo, Pages(sz))
      modifies proc
      ensures Valid() && m.shm_page_pa == s.shm && proc[..] == old(proc[..])[i := old(proc[i]).(sz := sz)]
    {
      assert S().shm == s.shm;
      KernelFilled(s, S(), proc[..], lost, i, proc[i].(sz := sz), Wanted(lo, Pages(sz), UserFlags(xperm)), lo);
      Resize(i, sz);
    }

    /** What loading a program does to memory: pages with permissions of their own are added below newsz.  Sizes
        that growproc would refuse are left to the loader to refuse. */
    method Load(i: nat, newsz: nat, xperm: Flags) returns (r: Outcome)
      requires Valid() && i < proc.Length && proc[i].used && proc[i].pagetable != 0
      modifies m, m.mem, m.references, proc
      ensures r != Panic ==> Valid() && m.shm_page_pa == old(m.shm_page_pa) && proc[..] == old(proc[..])[i := proc[i]]
      ensures r != Panic ==> proc[i] == old(proc[i]).(sz := if r == Done then newsz else old(proc[i]).sz)
      ensures r == Failed ==> m.maps == old(m.maps) && Keeps(old(S()), S())
      ensures r == Done ==> old(proc[i].sz) < newsz <= TRAPFRAME * PGSIZE
      ensures r == Failed && old(proc[i].sz) < newsz <= TRAPFRAME * PGSIZE ==>
                |old(m.free)| < 3 * (Pages(newsz) - Pages(old(proc[i].sz)))
      ensures r == Done ==>
                Grown(old(S()), S(), proc[i].pagetable, Pages(old(proc[i]).sz), Pages(newsz), UserFlags(xperm))
      ensures r == Panic ==> InTheWay(old(S()), old(proc[i]), newsz - old(proc[i].sz))
    {
      assert ProcOk(S(), proc[..][i]);
      if proc[i].sz < newsz <= TRAPFRAME * PGSIZE {
        r := Grow(i, newsz, xperm);
      } else {
        r := Failed;
        assert proc[..] == old(proc[..])[i := proc[i]];
      }
    }

    /** sys_sbrk: eager or shrinking requests go to growproc; lazy ones only move the size. */
    method Sbrk(i: nat, n: int, eager: bool) returns (r: Outcome, addr: nat)
      requires Valid() && i < proc.Length && proc[i].used && proc[i].pagetable != 0
      requires -0x8000_0000 <= n < 0x8000_0000
      modifies m, m.mem, m.references, proc
      ensures r != Panic ==> Valid() && m.shm_page_pa == old(m.shm_page_pa) && proc[..] == old(proc[..])[i := proc[i]]
      ensures r != Panic ==>
                proc[i] == old(proc[i]).(sz :=
                  if r == Done && old(proc[i]).sz + n >= 0 then old(proc[i]).sz + n else old(proc[i]).sz)
      ensures r == Failed ==> m.maps == old(m.maps) && n > 0 && Refusable(old(proc[i]).sz, n, |old(m.free)|)
      ensures r == Failed ==> Keeps(old(S()), S())
      ensures r == Failed && !eager ==> old(proc[i]).sz + n > TRAPFRAME * PGSIZE
      ensures r == Done ==> addr == old(proc[i]).sz
      ensures r == Done && (eager || n < 0) ==>
                GrownOrShrunk(old(S()), S(), proc[i].pagetable, old(proc[i]).sz, proc[i].sz)
      ensures r == Done && !eager && n >= 0 ==> S() == old(S())
      ensures r == Panic ==> eager && InTheWay(old(S()), old(proc[i]), n)
      ensures eager && InTheWay(old(S()), old(proc[i]), n) ==> r != Done
      ensures old(Tidy()) && r == Done ==> (Tidy() <==> old(proc[i]).sz + n <= SHM * PGSIZE)
    {
      ghost var procs := proc[..];
      addr := proc[i].sz;
      if eager || n < 0 {
        r := Growproc(i, n);
      } else if addr + n > TRAPFRAME * PGSIZE {
        r := Failed;
        assert proc[..] == procs[i := proc[i]];
      } else {
        KernelSized(S(), procs, lost, i, addr + n);
        Resize(i, addr + n);
        r := Done;
      }
    }

    /** Growing by n bytes and shrinking by n bytes: the process and every page map are as before, every data frame
        has its old count and contents, and all other frames come back exactly when the process had no empty page
        table to begin with. */
    method GrowAndShrink(i: nat, n: int) returns (r: Outcome)
      requires Valid() && i < proc.Length && proc[i].used && proc[i].pagetable != 0 && 0 < n < 0x8000_0000
      modifies m, m.mem, m.references, proc
      ensures r == Done ==> Valid() && proc[..] == old(proc[..]) && m.maps == old(m.maps) && m.holds == old(m.holds)
      ensures r == Done ==> Keeps(old(S()), S())
      ensures r == Done && Pages(proc[i].sz + n) > Pages(proc[i].sz) ==>
                (m.tbl == old(m.tbl) <==> NoEmptyTable(old(S()), proc[i].pagetable))
      ensures r == Done && Pages(proc[i].sz + n) > Pages(proc[i].sz) ==>
                (SameRefs(old(S()), S()) <==> NoEmptyTable(old(S()), proc[i].pagetable))
    {
      ghost var s0, procs, P := S(), proc[..], proc[i];
      assert ProcOk(s0, procs[i]);
      r := Growproc(i, n);
      if r == Done {
        assert ProcOk(S(), proc[..][i]);
        ShrinkBack(s0, procs, i, proc[i].sz - n);
      }
    }

    /** Its second half. */
    method ShrinkBack(ghost s0: State, ghost procs: seq<Proc>, i: nat, oldsz: nat)
      requires Valid() && i < proc.Length == |procs| && Inv(s0, NOSLOT)
      requires procs[i].used && procs[i].pagetable != 0 && procs[i].sz == oldsz
      requires proc[..] == procs[i := proc[i]] && proc[i] == procs[i].(sz := proc[i].sz)
      requires oldsz < proc[i].sz <= oldsz + 0x8000_0000 && CanGrow(s0, procs[i], proc[i].sz)
      requires GrownOrShrunk(s0, S(), procs[i].pagetable, oldsz, proc[i].sz)
      modifies m, m.mem, m.references, proc
      ensures Valid() && proc[..] == procs && m.maps == s0.maps && m.holds == s0.holds && Keeps(s0, S())
      ensures Pages(old(proc[i].sz)) > Pages(oldsz) ==>
                && (m.tbl == s0.tbl <==> NoEmptyTable(s0, proc[i].pagetable))
                && (SameRefs(s0, S()) <==> NoEmptyTable(s0, proc[i].pagetable))
    {
      ghost var s1, newsz := S(), proc[i].sz;
      var r := Growproc(i, oldsz - proc[i].sz);
      Restored(procs, old(proc[..]), i);
      assert proc[i].sz == oldsz;
      ResizedBack(s0, s1, S(), procs[i], newsz);
    }

    /** A page fault of process i at va: lazily grown memory appears zeroed. */
    method Fault(i: nat, va: nat) returns (pa: nat)
      requires Valid() && i < proc.Length && proc[i].used && proc[i].pagetable != 0
      modifies m, m.mem, m.references
      ensures Valid() && m.shm_page_pa == old(m.shm_page_pa) && proc[i].pagetable in old(m.maps)
      ensures pa == 0 ==> m.maps == old(m.maps) && Keeps(old(S()), S())
      ensures pa == 0 ==> va >= proc[i].sz || va / PGSIZE in m.maps[proc[i].pagetable] || |old(m.free)| < 3
      ensures pa != 0 ==> va < proc[i].sz && va / PGSIZE !in old(m.maps[proc[i].pagetable])
      ensures |m.free| + 3 >= |old(m.free)|
      ensures pa != 0 ==> Allocated(old(S()), S(), proc[i].pagetable, va / PGSIZE, pa,
          Flags(true, true, true, false, true, 0), Fill(ZERO))
    {
      ghost var s, procs := S(), proc[..];
      assert ProcOk(s, procs[i]);
      pa := m.Vmfault(proc[i].pagetable, proc[i].sz, va);
      if pa == 0 {
        if va >= proc[i].sz || va / PGSIZE in s.maps[proc[i].pagetable] {
          assert S() == s;
        } else {
          GrownSame(s, S(), procs, lost, i);
        }
      } else {
        KernelFaulted(s, S(), procs, lost, i, va / PGSIZE, pa);
      }
    }

    /** sys_shm_get: the shm page is mapped at SHM_VA, unless memory for tables runs out or a page of the heap is
        there already, which is then taken for the shm page. */
    method ShmGet(i: nat) returns (ok: bool)
      requires Valid() && i < proc.Length && proc[i].used && proc[i].pagetable != 0
      modifies m, m.mem, m.references
      ensures Valid() && Keeps(old(S()), S())
      ensures proc[i].pagetable in old(m.maps) && proc[i].pagetable in m.maps
      ensures ok ==> SHM in m.maps[proc[i].pagetable]
      ensures ok ==> (m.maps[proc[i].pagetable][SHM].ppn == m.shm_page_pa <==>
                       Stray(old(S()), proc[i].pagetable) == multiset{})
      ensures ok && (SHM !in old(m.maps[proc[i].pagetable]) || proc[i].sz <= SHM * PGSIZE) ==>
                m.maps[proc[i].pagetable][SHM] == Word(m.shm_page_pa, Flags(true, true, true, false, true, 0))
      ensures ok ==> forall r, v {:trigger m.maps[r][v]} :: r in m.maps && v in m.maps[r] ==>
                || (r == proc[i].pagetable && v == SHM)
                || (r in old(m.maps) && v in old(m.maps[r]) && m.maps[r][v] == old(m.maps[r][v]))
      ensures SHM in old(m.maps[proc[i].pagetable]) ==> ok && S() == old(S())
      ensures ok && SHM !in old(m.maps[proc[i].pagetable]) ==>
                m.maps == Bind(old(m.maps), proc[i].pagetable, SHM,
                               Word(m.shm_page_pa, Flags(true, true, true, false, true, 0)))
      ensures !ok ==> m.maps == old(m.maps) && |old(m.free)| < 2
      ensures |m.free| + 2 >= |old(m.free)|
    {
      ghost var s, procs := S(), proc[..];
      assert ProcOk(s, procs[i]);
      var pagetable := proc[i].pagetable;
      var mapped := m.Ismapped(pagetable, SHM);
      if mapped {
        SizeAboveShm(proc[i].sz);
        return true;
      }
      var r := MapSpecial(pagetable, SHM, m.shm_page_pa, RWU);
      KernelShmMapped(s, S(), procs, lost, i);
      return r.Mapped?;
    }

    // -------------------------------------------------------------- runs

    /** In a tidy kernel fork cannot panic. */
    method DoFork(i: nat) returns (panicked: bool)
      requires Valid() && i < proc.Length && proc[i].used && proc[i].pagetable != 0
      modifies this, m, m.mem, m.references, proc
      ensures if panicked then Panics(old(Now()), Fork(i))
              else Valid() && m.shm_page_pa == old(m.shm_page_pa) && ForkDone(old(Now()), i, Now())
      ensures old(Tidy()) ==> !panicked && Tidy()
    {
      ghost var procs, v := proc[..], Now();
      assert BelowShm(procs) ==> procs[i].sz <= SHM * PGSIZE;
      var r, j := Kfork(i);
      panicked := r == Outcome.Panic;
      if !panicked {
        assert r == Done ==> Appears(v, Now(), j);
        BelowShmCopied(procs, proc[..], i, j);
      }
    }

    /** In a tidy kernel clone can only panic over its return address. */
    method DoClone(i: nat, fcn: nat, stack: nat, returnaddr: nat) returns (panicked: bool)
      requires Valid() && i < proc.Length && proc[i].used && proc[i].pagetable != 0
      modifies this, m, m.mem, m.references, proc
      ensures var op := Clone(i, fcn, stack, returnaddr);
        if panicked then Panics(old(Now()), op)
        else Valid() && m.shm_page_pa == old(m.shm_page_pa) && CloneDone(old(Now()), op, Now())
      ensures old(Tidy()) ==> if panicked then returnaddr >= MAXVPN * PGSIZE else Tidy()
    {
      ghost var procs, v := proc[..], Now();
      assert BelowShm(procs) ==> procs[i].sz <= SHM * PGSIZE;
      var r, j := Kclone(i, fcn, stack, returnaddr);
      panicked := r == Outcome.Panic;
      if !panicked {
        assert r == Done ==> Appears(v, Now(), j);
        BelowShmCopied(procs, proc[..], i, j);
      }
    }

    /** In a tidy kernel a size change can only panic, or leave it untidy, by a request beyond SHM_VA. */
    method DoBreak(i: nat, n: int, eager: bool) returns (panicked: bool)
      requires Valid() && i < proc.Length && proc[i].used && proc[i].pagetable != 0
      requires -0x8000_0000 <= n < 0x8000_0000
      modifies m, m.mem, m.references, proc
      ensures var op := Break(i, n, eager);
        if panicked then Panics(old(Now()), op)
        else Valid() && m.shm_page_pa == old(m.shm_page_pa) && BreakDone(old(Now()), op, Now())
      ensures old(Tidy()) && !Crosses(old(proc[i].sz) + n) ==> !panicked && Tidy()
    {
      ghost var procs, v := proc[..], Now();
      assert BelowShm(procs) ==> procs[i].sz <= SHM * PGSIZE;
      var r, _ := Sbrk(i, n, eager);
      panicked := r == Outcome.Panic;
      if !panicked {
        BelowShmIff(procs, proc[..], i);
        if r == Failed {
          assert Refused(v, Now()) by {
            assert proc[..] == procs;
          }
        } else {
          assert Sized(v, i, if procs[i].sz + n >= 0 then procs[i].sz + n else procs[i].sz, Now());
        }
      }
    }

    method DoExec(i: nat, newsz: nat, xperm: Flags) returns (panicked: bool)
      requires Valid() && i < proc.Length && proc[i].used && proc[i].pagetable != 0
      modifies m, m.mem, m.references, proc
      ensures var op := Exec(i, newsz, xperm);
        if panicked then Panics(old(Now()), op)
        else Valid() && m.shm_page_pa == old(m.shm_page_pa) && ExecDone(old(Now()), op, Now())
      ensures old(Tidy()) && !Crosses(newsz) ==> !panicked && Tidy()
    {
      ghost var procs, v := proc[..], Now();
      assert BelowShm(procs) ==> procs[i].sz <= SHM * PGSIZE;
      var r := Load(i, newsz, xperm);
      panicked := r == Outcome.Panic;
      if !panicked {
        BelowShmIff(procs, proc[..], i);
        assert r == Failed ==> proc[..] == procs;
      }
    }

    method DoFault(i: nat, va: nat)
      requires Valid() && i < proc.Length && proc[i].used && proc[i].pagetable != 0
      modifies m, m.mem, m.references
      ensures Valid() && m.shm_page_pa == old(m.shm_page_pa) && FaultDone(old(Now()), i, va, Now())
    {
      ghost var v := Now();
      var pa := Fault(i, va);
      if pa != 0 {
        assert FaultPage(v, proc[i].pagetable, va, pa, Now());
      }
    }

    method DoShare(i: nat)
      requires Valid() && i < proc.Length && proc[i].used && proc[i].pagetable != 0
      modifies m, m.mem, m.references
      ensures Valid() && m.shm_page_pa == old(m.shm_page_pa) && ShareDone(old(Now()), i, Now())
    {
      var _ := ShmGet(i);
    }

    /** In a tidy kernel nothing is lost when a process goes. */
    method DoReap(i: nat)
      requires Valid() && i < proc.Length && proc[i].used && proc[i].pagetable != 0
      modifies this, m, m.mem, m.references, proc
      ensures Valid() && m.shm_page_pa == old(m.shm_page_pa) && ReapDone(old(Now()), i, Now())
      ensures old(Tidy()) ==> Tidy()
    {
      ghost var s, procs := S(), proc[..];
      assert ProcOk(s, procs[i]);
      NoNullRoot(s);
      StrayBelow(s, procs, i);
      Freeproc(i);
      BelowShmIff(procs, proc[..], i);
      assert BelowShm(procs) ==> procs[i].sz <= SHM * PGSIZE;
    }

    /** One system call or fault.  `crossed` tells whether it asked for a size between SHM_VA and the bound that the
        code checks. */
    method Perform(op: Op) returns (panicked: bool, ghost crossed: bool)
      requires Valid()
      modifies this, m, m.mem, m.references, proc
      ensures if panicked then Panics(old(Now()), op)
              else Valid() && m.shm_page_pa == old(m.shm_page_pa) && Performed(old(Now()), op, Now(), trampoline)
      ensures old(Tidy()) && !crossed ==> if panicked then Wild(op) else Tidy()
    {
      panicked, crossed := false, false;
      if op.Boot? {
        DoBoot();
      } else if op.i < proc.Length && proc[op.i].used && proc[op.i].pagetable != 0 {
        match op
        case Fork(i) => {
          panicked := DoFork(i);
        }
        case Clone(i, fcn, stack, returnaddr) => {
          panicked := DoClone(i, fcn, stack, returnaddr);
        }
        case Break(i, n, eager) => {
          crossed := Crosses(proc[i].sz + n);
          if -0x8000_0000 <= n < 0x8000_0000 {
            panicked := DoBreak(i, n, eager);
          }
        }
        case Exec(i, newsz, xperm) => {
          crossed := Crosses(newsz);
          panicked := DoExec(i, newsz, xperm);
        }
        case PageFault(i, va) => { DoFault(i, va); }
        case Share(i) => { DoShare(i); }
        case Reap(i) => { DoReap(i); }
      }
    }

    method DoBoot()
      requires Valid()
      modifies this, m, m.mem, m.references, proc
      ensures Valid() && m.shm_page_pa == old(m.shm_page_pa) && BootDone(old(Now()), Now(), trampoline)
      ensures old(Tidy()) ==> Tidy()
    {
      ghost var procs, v := proc[..], Now();
      var found, i := Userinit();
      if found {
        assert Appears(v, Now(), i);
        BelowShmIff(procs, proc[..], i);
      }
    }

    /** Any sequence of system calls and faults, in any interleaving of the processes, goes from each state to the next
        by what the operation does, and keeps the invariant up to a panic.  While no request reaches beyond SHM_VA,
        nothing is lost, and only a clone with a return address at or above MAXVA can panic. */
    method Run(ops: seq<Op>) returns (panicked: bool, ghost crossed: bool, ghost views: seq<View>)
      requires Valid()
      modifies this, m, m.mem, m.references, proc
      ensures !panicked ==> Valid() && m.shm_page_pa == old(m.shm_page_pa)
      ensures History(views, ops, trampoline) && views[0] == old(Now())
      ensures if panicked then |views| <= |ops| && Panics(views[|views| - 1], ops[|views| - 1])
              else |views| == |ops| + 1 && views[|ops|] == Now()
      ensures old(Tidy()) && !crossed ==> if panicked then exists op :: op in ops && Wild(op) else Tidy()
    {
      panicked, crossed, views := false, false, [Now()];
      for k := 0 to |ops|
        invariant !panicked && Valid() && m.shm_page_pa == old(m.shm_page_pa)
        invariant |views| == k + 1 && views[0] == old(Now()) && views[k] == Now() && History(views, ops, trampoline)
        invariant old(Tidy()) && !crossed ==> Tidy()
      {
        ghost var here;
        panicked, here := Perform(ops[k]);
        crossed := crossed || here;
        if panicked {
          assert ops[k] in ops;
          return;
        }
        HistoryNext(views, ops, Now(), trampoline);
        views := views + [Now()];
      }
    }

    /** One round of a tear-down: what process i would lose is lost. */
    method FreeOne(i: nat)
      requires Valid() && i < proc.Length && proc[i].used
      modifies this, m, m.mem, m.references, proc
      ensures Valid() && proc[..] == old(proc[..])[i := UNUSED]
      ensures lost + Strays(S(), proc[..]) == old(lost) + Strays(old(S()), old(proc[..]))
    {
      ghost var s, procs, before := S(), proc[..], lost;
      Freeproc(i);
      StraysDrop(s, S(), procs, before, i);
    }

    /** Whatever the processes did before, they can be torn down in any order that names them all.  Then every frame
        except the shm page is free if and only if nothing had been lost before and no process had a frame other
        than the shm page mapped at SHM_VA; those frames are lost. */
    method TearDown(order: seq<nat>)
      requires Valid()
      requires Named(proc[..], order)
      modifies this, m, m.mem, m.references, proc
      ensures Valid() && lost == old(lost) + Strays(old(S()), old(proc[..]))
      ensures OnlyShmLeft(S()) <==> lost == multiset{}
    {
      var k := 0;
      while k < |order|
        invariant 0 <= k <= |order| && Valid()
        invariant Named(proc[..], order[k..])
        invariant lost + Strays(S(), proc[..]) == old(lost) + Strays(old(S()), old(proc[..]))
      {
        ghost var procs := proc[..];
        if order[k] < proc.Length && proc[order[k]].used {
          FreeOne(order[k]);
        }
        NamedNext(procs, proc[..], order, k);
        k := k + 1;
      }
      AllGone(S(), proc[..], lost, order[k..]);
    }
  }
}
