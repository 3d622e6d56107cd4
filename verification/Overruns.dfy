/** What the two loose checks of kernel/proc.c and kernel/sysproc.c lead to, as continuations and runs of the kernel. */
module Overruns {
  // AddressSpaces.Kernel.Run says that nothing is lost, and that only a clone can panic, as long as no size reaches
  // beyond SHM_VA.  Here is the converse: from every state in which some size does, a page fault and an exit lose a
  // frame, and a page fault and a fork take the kernel down.  The last four methods are runs from boot that reach
  // each of the failures.

  import opened Sv39
  import opened VmState
  import opened PageMaps
  import opened VirtualMemory
  import opened KernelState
  import opened AddressSpaces

  lemma {:induction false} NoneMappedBelow(m: map<nat, Word>, n: nat)
    requires Vacant(m, 0, n)
    ensures MappedBelow(m, n) == 0
  {
    if n > 0 {
      NoneMappedBelow(m, n - 1);
    }
  }

  lemma {:induction false} OneMoreMapped(m: map<nat, Word>, v: nat, w: Word, n: nat)
    ensures MappedBelow(m[v := w], n) <= MappedBelow(m, n) + if v < n then 1 else 0
  {
    if n > 0 {
      OneMoreMapped(m, v, w, n - 1);
    }
  }

  /** A process whose size covers SHM_VA, touches that page and exits takes a frame with it. */
  method TouchAndExit(k: Kernel, i: nat) returns (pa: nat)
    requires k.Valid() && i < k.proc.Length && k.proc[i].used && k.proc[i].pagetable != 0
    requires k.proc[i].sz > SHM * PGSIZE && SHM !in MapOf(k.S(), k.proc[i]) && |k.m.free| >= 3
    modifies k, k.m, k.m.mem, k.m.references, k.proc
    ensures k.Valid() && k.proc[..] == old(k.proc[..])[i := UNUSED]
    ensures k.lost == old(k.lost) + multiset{pa} && InRange(k.S(), pa) && k.m.references[pa] > 0
  {
    assert ProcOk(k.S(), k.proc[..][i]);
    pa := k.Fault(i, SHM * PGSIZE);
    FreshStray(k.S(), k.proc[i].pagetable, pa);
    k.Freeproc(i);
    Accounting(k.S(), k.proc[..], k.lost, pa);
  }

  lemma FreshStray(s: State, r: nat, p: nat)
    requires Inv(s, NOSLOT) && ShmOk(s)
    requires r in s.maps && SHM in s.maps[r] && s.maps[r][SHM].ppn == p && p != s.shm
    ensures Stray(s, r) == multiset{p}
  {
  }

  /** A process whose size covers SHM_VA, touches that page, or has the shm page there, and forks takes the kernel
      down, if a slot and memory for the child can be found. */
  method TouchAndFork(k: Kernel, i: nat) returns (r: Outcome)
    requires k.Valid() && i < k.proc.Length && k.proc[i].used && k.proc[i].pagetable != 0
    requires k.proc[i].sz > SHM * PGSIZE && !AllUsed(k.proc[..])
    requires |k.m.free| >= 12 + 3 * MappedPages(k.S(), k.proc[i])
    modifies k, k.m, k.m.mem, k.m.references, k.proc
    ensures r == Panic
  {
    ghost var s, P := k.S(), k.proc[i];
    assert ProcOk(s, k.proc[..][i]);
    var pa := k.Fault(i, SHM * PGSIZE);
    if pa != 0 {
      OneMoreMapped(MapOf(s, P), SHM, Word(pa, UserFlags(NONE.(w := true))), Pages(P.sz));
    }
    assert Collides(k.S(), P);
    var j;
    r, j := k.Kfork(i);
  }

  /** A process raises its size to newsz by lazy requests, one of which takes at most 2^31 - 1 bytes. */
  method GrowLazily(k: Kernel, i: nat, newsz: nat)
    requires k.Valid() && i < k.proc.Length && k.proc[i].used && k.proc[i].pagetable != 0
    requires k.proc[i].sz <= newsz <= TRAPFRAME * PGSIZE
    modifies k.m, k.m.mem, k.m.references, k.proc
    ensures k.Valid() && k.S() == old(k.S()) && k.proc[..] == old(k.proc[..])[i := old(k.proc[i]).(sz := newsz)]
  {
    ghost var procs := k.proc[..];
    while k.proc[i].sz < newsz
      invariant k.Valid() && k.S() == old(k.S()) && k.proc[i].sz <= newsz
      invariant k.proc[i] == procs[i].(sz := k.proc[i].sz) && k.proc[..] == procs[i := k.proc[i]]
      decreases newsz - k.proc[i].sz
    {
      var n := newsz - k.proc[i].sz;
      var _, _ := k.Sbrk(i, if n < 0x8000_0000 then n else 0x7FFF_FFFF, false);
    }
  }

  /** The first process of a kernel with room for another one. */
  method Boot() returns (k: Kernel, i: nat)
    ensures k.Tidy() && fresh(k) && fresh(k.m) && fresh(k.m.mem) && fresh(k.m.references) && fresh(k.proc)
    ensures i < k.proc.Length == 2 && k.proc[i].used && k.proc[i].pagetable != 0 && k.proc[i].sz == 0
    ensures k.proc[1 - i] == UNUSED && |k.m.free| >= 24
    ensures MapOf(k.S(), k.proc[i]) == NewMap(k.trampoline, k.proc[i].trapframe)
  {
    k := new Kernel(32, 1, 2, 0);
    ghost var procs := k.proc[..];
    var found;
    found, i := k.Userinit();
    assert procs[0] == UNUSED && procs[1] == UNUSED;
    assert found;
    BelowShmIff(procs, k.proc[..], i);
  }

  /** The first process asks for all addresses below the trapframe, touches the last page and exits.  No process is
      left, but the free frames are not all there. */
  method LosingRun() returns (k: Kernel)
    ensures k.Valid() && !OnlyShmLeft(k.S()) && forall j :: 0 <= j < k.proc.Length ==> k.proc[j] == UNUSED
  {
    var i;
    k, i := Boot();
    GrowLazily(k, i, TRAPFRAME * PGSIZE);
    var pa := TouchAndExit(k, i);
    NothingLeaks(k.S(), k.proc[..], k.lost);
  }

  /** It asks for all addresses, touches the last page and forks. */
  method PanickingFork() returns (r: Outcome)
    ensures r == Panic
  {
    var k, i := Boot();
    GrowLazily(k, i, TRAPFRAME * PGSIZE);
    NoUserPage(k.S(), k.proc[i], k.trampoline, Pages(k.proc[i].sz));
    assert !k.proc[..][1 - i].used;
    r := TouchAndFork(k, i);
  }

  lemma NoUserPage(s: State, P: Proc, trampoline: nat, n: nat)
    requires MapOf(s, P) == NewMap(trampoline, P.trapframe) && n == Pages(P.sz) <= TRAPFRAME
    ensures MappedPages(s, P) == 0
  {
    NewMapVacant(trampoline, P.trapframe, n);
    NoneMappedBelow(MapOf(s, P), n);
  }

  /** It attaches to the shm page and grows by one page at SHM_VA. */
  method PanickingGrowth() returns (r: Outcome)
    ensures r == Panic
  {
    var k, i := Boot();
    var attached := k.ShmGet(i);
    GrowLazily(k, i, SHM * PGSIZE);
    var addr;
    r, addr := k.Sbrk(i, PGSIZE, true);
  }

  /** It has a page of code and data, and starts a thread that is to return to the first address after the last one
      there is. */
  method PanickingClone() returns (r: Outcome)
    ensures r == Panic
  {
    var k, i := Boot();
    ghost var s := k.S();
    r := k.Load(i, PGSIZE, NONE.(w := true, x := true));
    assert r == Done;
    LoadedPage(s, k.S(), k.proc[i]);
    var j;
    r, j := k.Kclone(i, 0, PGSIZE, MAXVPN * PGSIZE);
  }

  lemma LoadedPage(s: State, s': State, P: Proc)
    requires P.sz == PGSIZE && P.pagetable in s'.maps
    requires Grown(s, s', P.pagetable, Pages(0), Pages(PGSIZE), UserFlags(NONE.(w := true, x := true)))
    ensures Startable(s', P, 0, PGSIZE)
  {
    var want := Wanted(0, 1, UserFlags(NONE.(w := true, x := true)));
    assert 0 in want && FreshAt(s, s', P.pagetable, 0, want[0].0, want[0].1);
  }
}
