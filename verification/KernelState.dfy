/** Processes and threads as owners of page tables and trapframes (kernel/proc.c). */
module KernelState {
  // The invariant of every history, which lets any of them be torn down at any time.
  import opened Sv39
  import opened VmState
  import opened PageMaps

  /** The fields of struct proc that concern memory; a slot that is not used is UNUSED in the source. */
  datatype Proc = Proc(used: bool, isThread: bool, sz: nat, pagetable: nat, trapframe: nat)

  const UNUSED := Proc(false, false, 0, 0, 0)

  /** A frame held once by the kernel and mapped by no user page. */
  ghost predicate Held(s: State, p: nat)
    requires |s.refs| == |s.mem| == |s.holds|
  {
    Live(s, p) && s.holds[p] == 1 && Owners(s.maps, s.shm, p) == {}
  }

  /** Every mapping of a process lies below its size, or is one of the three special pages.  The trampoline is
      readable and executable and the trapframe readable and writable, both by the kernel only.  At SHM_VA a process
      sees the shm page, readable and writable by the user, unless its size covers that address. */
  ghost predicate MapOk(s: State, P: Proc)
    requires P.pagetable in s.maps
  {
    var m := s.maps[P.pagetable];
    && TRAMPOLINE in m && m[TRAMPOLINE].flags == Flags(true, true, false, true, false, 0)
    && TRAPFRAME in m && m[TRAPFRAME].flags == Flags(true, true, true, false, false, 0)
    && (P.trapframe != 0 ==> m[TRAPFRAME].ppn == P.trapframe)
    && (SHM in m && Pages(P.sz) <= SHM ==> m[SHM] == Word(s.shm, Flags(true, true, true, false, true, 0)))
    && (forall v {:trigger v in m} :: v in m ==> v < Pages(P.sz) || v == TRAMPOLINE || v == TRAPFRAME || v == SHM)
  }

  /** A process may lack its trapframe or its page table while it is being built or freed. */
  ghost predicate ProcOk(s: State, P: Proc)
    requires |s.refs| == |s.mem| == |s.holds|
  {
    && Pages(P.sz) <= TRAPFRAME
    && (P.trapframe != 0 ==> Held(s, P.trapframe) && P.trapframe != s.shm)
    && (P.pagetable != 0 ==> P.pagetable in s.maps && MapOk(s, P))
  }

  ghost predicate Disjoint(P: Proc, Q: Proc) {
    (P.pagetable != 0 ==> P.pagetable != Q.pagetable) && (P.trapframe != 0 ==> P.trapframe != Q.trapframe)
  }

  ghost predicate AllUsed(procs: seq<Proc>) {
    forall i {:trigger procs[i]} :: 0 <= i < |procs| ==> procs[i].used
  }

  /** Every page table belongs to a process. */
  ghost predicate Owned(procs: seq<Proc>, r: nat) {
    exists i :: 0 <= i < |procs| && procs[i].used && procs[i].pagetable == r
  }

  /** The kernel's own references: the shm page and the trapframes. */
  ghost predicate HeldBy(shm: nat, procs: seq<Proc>, p: nat) {
    p == shm || exists i :: 0 <= i < |procs| && procs[i].trapframe == p
  }

  /** What the kernel's references to a frame are for: it holds the shm page and the trapframes, and it still has
      those of the frames that were lost. */
  ghost predicate KeptOk(s: State, procs: seq<Proc>, lost: multiset<nat>, p: nat)
    requires p < |s.holds|
  {
    s.holds[p] == (if HeldBy(s.shm, procs, p) then 1 else 0) + lost[p]
  }

  /** The invariant of every history.  A frame is in `lost` if a process was freed while it mapped the frame at
      SHM_VA without it being the shm page: freeproc leaves whatever is mapped there allocated. */
  ghost predicate Consistent(s: State, procs: seq<Proc>, lost: multiset<nat>) {
    && Inv(s, NOSLOT) && HoldsOk(s) && Held(s, s.shm)
    && (forall p {:trigger KeptOk(s, procs, lost, p)} :: InRange(s, p) ==> KeptOk(s, procs, lost, p))
    && (forall p {:trigger lost[p]} :: lost[p] > 0 ==> InRange(s, p))
    && (forall i {:trigger procs[i]} :: 0 <= i < |procs| ==>
         if procs[i].used then ProcOk(s, procs[i]) else procs[i] == UNUSED)
    && (forall i, j {:trigger procs[i], procs[j]} :: 0 <= i < j < |procs| ==> Disjoint(procs[i], procs[j]))
    && (forall r {:trigger Owned(procs, r)} :: r in s.maps ==> Owned(procs, r))
  }

  /** No size reaches beyond SHM_VA. */
  ghost predicate BelowShm(procs: seq<Proc>) {
    forall i {:trigger procs[i]} :: 0 <= i < |procs| ==> procs[i].sz <= SHM * PGSIZE
  }

  /** The invariant that the layout of the address space is meant to have: no size covers the shm page, and no
      frame was ever lost. */
  ghost predicate KernelInv(s: State, procs: seq<Proc>) {
    Consistent(s, procs, multiset{}) && BelowShm(procs)
  }

  /** After a change to process i the sizes stay below SHM_VA exactly when its own does. */
  lemma BelowShmIff(procs: seq<Proc>, procs': seq<Proc>, i: nat)
    requires i < |procs| == |procs'| && procs' == procs[i := procs'[i]]
    ensures BelowShm(procs) ==> (BelowShm(procs') <==> procs'[i].sz <= SHM * PGSIZE)
  {
  }

  lemma BelowShmCopied(procs: seq<Proc>, procs': seq<Proc>, i: nat, j: nat)
    requires i < |procs| == |procs'|
    requires procs' == procs || (j < |procs| && procs' == procs[j := procs'[j]] && procs'[j].sz == procs[i].sz)
    ensures BelowShm(procs) ==> BelowShm(procs')
  {
    assert BelowShm(procs) ==> procs[i].sz <= SHM * PGSIZE;
  }

  /** What the invariant says about a frame p that the allocator manages: its count is the number of its owners
      (user mappings, the kernel for the shm page, trapframes and lost frames, and the one link to a page-table
      page), and it is on the free list exactly when it has none. */
  lemma Accounting(s: State, procs: seq<Proc>, lost: multiset<nat>, p: nat)
    requires Consistent(s, procs, lost) && InRange(s, p)
    ensures s.refs[p] == |Owners(s.maps, s.shm, p)| + (if HeldBy(s.shm, procs, p) then 1 else 0) + lost[p]
                       + (if p in s.keyOf then 1 else 0)
    ensures IsFree(s, p) <==> s.refs[p] == 0
    ensures p == s.shm ==> s.refs[p] == 1
  {
    assert CountOk(s, p) && KeptOk(s, procs, lost, p);
    assert s.rank[p] < |s.free| ==> FreeOk(s, s.rank[p]);
    assert p == s.shm ==> Held(s, p);
  }

  /** The free list has no duplicates, and a frame that a user page maps is not on it. */
  lemma FreeListSound(s: State, procs: seq<Proc>, lost: multiset<nat>, i: nat, j: nat, r: nat, v: nat)
    requires Consistent(s, procs, lost)
    ensures i < j < |s.free| ==> s.free[i] != s.free[j]
    ensures r in s.maps && v in s.maps[r] && v < TRAPFRAME && i < |s.free| ==> s.maps[r][v].ppn != s.free[i]
  {
    assert i < |s.free| ==> FreeOk(s, i);
    assert j < |s.free| ==> FreeOk(s, j);
    if r in s.maps && v in s.maps[r] && v < TRAPFRAME {
      MappedLive(s, r, v);
    }
  }

  // ---------------------------------------------------------------- held frames

  /** Growing operations leave a held frame held. */
  lemma HeldKeeps(s: State, s': State, p: nat)
    requires Inv(s, NOSLOT) && Inv(s', NOSLOT) && Keeps(s, s') && s'.holds == s.holds && Held(s, p)
    ensures Held(s', p)
  {
    assert s'.refs[p] == s.refs[p];
    assert CountOk(s, p) && CountOk(s', p);
  }

  lemma FewerTables(s: State, s': State, p: nat)
    requires TreeInv(s) && TreeInv(s')
    requires forall k {:trigger k in s'.tbl} :: k in s'.tbl ==> k in s.tbl && s'.tbl[k] == s.tbl[k]
    ensures p in s'.keyOf ==> p in s.keyOf
  {
    if p in s'.keyOf {
      assert TableOk(s', p) && KeyOk(s, s'.keyOf[p]);
    }
  }

  /** Shrinking operations leave a held frame held. */
  lemma HeldShrinks(s: State, s': State, p: nat)
    requires Inv(s, NOSLOT) && Inv(s', NOSLOT) && Shrinks(s, s') && Held(s, p)
    requires p < |s'.holds| && s'.holds[p] == s.holds[p]
    requires forall k {:trigger k in s'.tbl} :: k in s'.tbl ==> k in s.tbl && s'.tbl[k] == s.tbl[k]
    requires forall r {:trigger r in s'.maps} :: r in s'.maps ==> r in s.maps && Submap(s'.maps[r], s.maps[r])
    ensures Held(s', p)
  {
    FewerTables(s, s', p);
    assert CountOk(s', p);
  }

  ghost predicate Submap(m': map<nat, Word>, m: map<nat, Word>) {
    forall v {:trigger v in m'} :: v in m' ==> v in m && m[v] == m'[v]
  }

  // ---------------------------------------------------------------- one process changes

  /** All page tables but one are as before. */
  ghost predicate OthersSame(s: State, s': State, r: nat, r': nat) {
    && s'.shm == s.shm
    && (forall t {:trigger t in s'.maps} :: t in s.maps && t != r ==> t in s'.maps && s'.maps[t] == s.maps[t])
    && (forall t {:trigger t in s'.maps} :: t in s'.maps ==> t == r' || (t in s.maps && t != r))
  }

  /** What becomes of the kernel's references when process i is replaced by P: its trapframe is no longer held, the
      one of P is, and the frames in `more` are lost. */
  ghost predicate Reheld(s: State, s': State, tf: nat, tf': nat, more: multiset<nat>) {
    && |s'.mem| == |s.mem| && |s'.holds| == |s.holds| && s'.end == s.end
    && forall p {:trigger s'.holds[p]} :: InRange(s, p) && p < |s.holds| ==>
         s'.holds[p] == s.holds[p] + (if p == tf' then 1 else 0) - (if p == tf then 1 else 0) + more[p]
  }

  /** Replacing one process in a state where the others are untouched. */
  lemma KernelStep(s: State, s': State, procs: seq<Proc>, lost: multiset<nat>, i: nat, P: Proc, more: multiset<nat>)
    requires Consistent(s, procs, lost) && i < |procs| && Inv(s', NOSLOT) && HoldsOk(s') && Held(s', s'.shm)
    requires OthersSame(s, s', procs[i].pagetable, P.pagetable)
    requires forall j {:trigger procs[j]} :: 0 <= j < |procs| && j != i && procs[j].trapframe != 0 ==>
        Held(s', procs[j].trapframe)
    requires if P.used then ProcOk(s', P) else P == UNUSED
    requires P.pagetable == 0 ==> 0 !in s'.maps
    requires forall j {:trigger procs[j]} :: 0 <= j < |procs| && j != i ==> Disjoint(procs[j], P)
    requires Reheld(s, s', procs[i].trapframe, P.trapframe, more)
    requires forall p {:trigger more[p]} :: more[p] > 0 ==> InRange(s, p)
    ensures Consistent(s', procs[i := P], lost + more)
  {
    var procs' := procs[i := P];
    forall p | InRange(s', p) ensures KeptOk(s', procs', lost + more, p) {
      assert KeptOk(s, procs, lost, p);
      HeldByStep(s, procs, i, P, p);
    }
    forall j | 0 <= j < |procs'| && j != i
      ensures if procs'[j].used then ProcOk(s', procs'[j]) else procs'[j] == UNUSED
    {
      assert procs'[j] == procs[j];
      assert Disjoint(procs[if i < j then i else j], procs[if i < j then j else i]);
    }
    forall j, k | 0 <= j < k < |procs'| ensures Disjoint(procs'[j], procs'[k]) {
      assert j != i ==> procs'[j] == procs[j];
      assert k != i ==> procs'[k] == procs[k];
    }
    forall r | r in s'.maps ensures Owned(procs', r) {
      StillOwned(s, s', procs, i, P, r);
    }
  }

  lemma StillOwned(s: State, s': State, procs: seq<Proc>, i: nat, P: Proc, r: nat)
    requires i < |procs| && OthersSame(s, s', procs[i].pagetable, P.pagetable) && r in s'.maps
    requires P.used || (P.pagetable == 0 && 0 !in s'.maps)
    requires r in s.maps ==> Owned(procs, r)
    ensures Owned(procs[i := P], r)
  {
    var procs' := procs[i := P];
    if r == P.pagetable {
      assert procs'[i].used && procs'[i].pagetable == r;
    } else {
      var j :| 0 <= j < |procs| && procs[j].used && procs[j].pagetable == r;
      assert procs'[j] == procs[j];
    }
  }

  lemma HeldByStep(s: State, procs: seq<Proc>, i: nat, P: Proc, p: nat)
    requires i < |procs| && p != 0 && procs[i].trapframe != s.shm && (P.trapframe == p ==> p != s.shm)
    requires forall j {:trigger procs[j]} :: 0 <= j < |procs| && j != i ==> Disjoint(procs[j], P)
    requires forall i, j {:trigger procs[i], procs[j]} :: 0 <= i < j < |procs| ==> Disjoint(procs[i], procs[j])
    ensures HeldBy(s.shm, procs[i := P], p) <==>
              p == P.trapframe || (HeldBy(s.shm, procs, p) && p != procs[i].trapframe)
    ensures p == procs[i].trapframe ==> HeldBy(s.shm, procs, p)
    ensures p == P.trapframe && p != procs[i].trapframe ==> !HeldBy(s.shm, procs, p)
  {
    var procs' := procs[i := P];
    assert procs'[i] == P;
    forall j | 0 <= j < |procs| && j != i ensures procs'[j] == procs[j] && Disjoint(procs[j], P) {
      assert Disjoint(procs[if i < j then i else j], procs[if i < j then j else i]);
    }
    forall j | 0 <= j < |procs| && j != i ensures procs[j].trapframe == p ==> p != procs[i].trapframe {
      assert Disjoint(procs[if i < j then i else j], procs[if i < j then j else i]);
    }
  }

  lemma NoNullRoot(s: State)
    requires Inv(s, NOSLOT)
    ensures 0 !in s.maps
  {
    assert 0 in s.maps ==> Root(0) in s.tbl && KeyOk(s, Root(0));
  }

  /** A growing operation on the memory of one process. */
  lemma KernelGrows(s: State, s': State, procs: seq<Proc>, lost: multiset<nat>, i: nat, P: Proc)
    requires Consistent(s, procs, lost) && i < |procs| && Inv(s', NOSLOT) && Keeps(s, s') && s'.holds == s.holds
    requires procs[i].used && P.used && P.trapframe == procs[i].trapframe && Pages(P.sz) <= TRAPFRAME
    requires OthersSame(s, s', procs[i].pagetable, P.pagetable)
    requires P.pagetable == procs[i].pagetable || P.pagetable !in s.maps
    requires P.pagetable != 0 ==> P.pagetable in s'.maps && MapOk(s', P)
    ensures Consistent(s', procs[i := P], lost)
  {
    HeldKeeps(s, s', s.shm);
    forall j | 0 <= j < |procs| && procs[j].trapframe != 0 ensures Held(s', procs[j].trapframe) {
      HeldKeeps(s, s', procs[j].trapframe);
    }
    NoNullRoot(s');
    KernelStep(s, s', procs, lost, i, P, multiset{});
    assert lost + multiset{} == lost;
  }

  /** A shrinking operation on the memory of one process, after which the frames in `more` are lost. */
  lemma KernelShrinks(s: State, s': State, procs: seq<Proc>, lost: multiset<nat>, i: nat, P: Proc, more: multiset<nat>)
    requires Consistent(s, procs, lost) && i < |procs| && Inv(s', NOSLOT) && HoldsOk(s') && Shrinks(s, s')
    requires Reheld(s, s', 0, 0, more) && forall p {:trigger more[p]} :: more[p] > 0 ==> InRange(s, p) && !Held(s, p)
    requires procs[i].used && P.used && P.trapframe == procs[i].trapframe && Pages(P.sz) <= TRAPFRAME
    requires forall k {:trigger k in s'.tbl} :: k in s'.tbl ==> k in s.tbl && s'.tbl[k] == s.tbl[k]
    requires OthersSame(s, s', procs[i].pagetable, P.pagetable)
    requires P.pagetable == procs[i].pagetable || P.pagetable == 0
    requires P.pagetable != 0 ==> P.pagetable in s'.maps && MapOk(s', P)
    requires P.pagetable != 0 ==> Submap(s'.maps[P.pagetable], s.maps[P.pagetable])
    ensures Consistent(s', procs[i := P], lost + more)
  {
    NoNullRoot(s');
    forall r | r in s'.maps ensures r in s.maps && Submap(s'.maps[r], s.maps[r]) {
    }
    HeldShrinks(s, s', s.shm);
    forall j | 0 <= j < |procs| && procs[j].trapframe != 0 ensures Held(s', procs[j].trapframe) {
      HeldShrinks(s, s', procs[j].trapframe);
    }
    KernelStep(s, s', procs, lost, i, P, more);
  }

  /** Returning the trapframe of a process. */
  lemma KernelDropTrapframe(s: State, procs: seq<Proc>, lost: multiset<nat>, i: nat)
    requires Consistent(s, procs, lost) && i < |procs| && procs[i].trapframe != 0
    ensures InRange(s, procs[i].trapframe)
    ensures Consistent(AfterKfree(s, procs[i].trapframe), procs[i := procs[i].(trapframe := 0)], lost)
  {
    var tf, P := procs[i].trapframe, procs[i].(trapframe := 0);
    assert procs[i].used && ProcOk(s, procs[i]) && CountOk(s, tf);
    KfreeInv(s, tf, NOSLOT);
    var s' := AfterKfree(s, tf);
    forall j | 0 <= j < |procs| && j != i && procs[j].trapframe != 0 ensures Held(s', procs[j].trapframe) {
      assert Disjoint(procs[if i < j then i else j], procs[if i < j then j else i]);
    }
    NoNullRoot(s');
    KernelStep(s, s', procs, lost, i, P, multiset{});
    assert lost + multiset{} == lost;
  }

  /** Taking a frame for the trapframe of a process. */
  lemma KernelAddTrapframe(s: State, procs: seq<Proc>, lost: multiset<nat>, i: nat)
    requires Consistent(s, procs, lost) && i < |procs| && procs[i] == UNUSED.(used := true) && s.free != []
    ensures s.head != 0 && Consistent(AfterKalloc(s), procs[i := procs[i].(trapframe := s.head)], lost)
  {
    KallocInv(s, NOSLOT);
    var s', P := AfterKalloc(s), procs[i].(trapframe := s.head);
    forall j | 0 <= j < |procs| && j != i ensures Disjoint(procs[j], P) {
      assert procs[j].trapframe != 0 ==> Held(s, procs[j].trapframe);
    }
    NoNullRoot(s');
    KernelStep(s, s', procs, lost, i, P, multiset{});
    assert lost + multiset{} == lost;
  }

  /** Marking a slot as used or unused when it owns nothing. */
  lemma KernelMark(s: State, procs: seq<Proc>, lost: multiset<nat>, i: nat, P: Proc)
    requires Consistent(s, procs, lost) && i < |procs| && procs[i].pagetable == 0 && procs[i].trapframe == 0
    requires P == UNUSED || (P.used && P.sz == 0 && P.pagetable == 0 && P.trapframe == 0)
    ensures Consistent(s, procs[i := P], lost)
  {
    NoNullRoot(s);
    KernelStep(s, s, procs, lost, i, P, multiset{});
    assert lost + multiset{} == lost;
  }

  // ---------------------------------------------------------------- releasing a page table

  /** The kernel's references after what the tree of r maps at SHM_VA was unmapped without freeing it. */
  ghost function Stranded(s: State, r: nat): seq<int>
    requires r in s.maps
  {
    if SHM in s.maps[r] then Transfer(s.holds, s.shm, SHM, s.maps[r][SHM].ppn, 1) else s.holds
  }

  /** The frame that is lost when that happens: whatever is mapped at SHM_VA and is not the shm page. */
  ghost function Stray(s: State, r: nat): multiset<nat> {
    if r in s.maps && SHM in s.maps[r] && s.maps[r][SHM].ppn != s.shm then multiset{s.maps[r][SHM].ppn} else multiset{}
  }

  /** Only the user pages below SHM_VA are left in the map of r. */
  ghost predicate SpecialsGone(s: State, s': State, r: nat) {
    && Fewer(s, s', r) && s'.holds == Stranded(s, r)
    && (forall v {:trigger v in s'.maps[r]} :: v in s'.maps[r] <==> v in s.maps[r] && v < SHM)
  }

  lemma SpecialsGoneBy(s: State, s': State, r: nat)
    requires Fewer(s, s', r) && s'.holds == Stranded(s, r)
    requires s'.maps[r] == s.maps[r] - {TRAMPOLINE} - {TRAPFRAME} - {SHM}
    requires forall v {:trigger v in s.maps[r]} :: v in s.maps[r] ==> v < MAXVPN
    ensures SpecialsGone(s, s', r)
  {
  }

  /** Some pages of r have been unmapped, without touching a table or a frame that stays in use. */
  ghost predicate Fewer(s: State, s': State, r: nat) {
    && r in s.maps && r in s'.maps && s'.maps == s.maps[r := s'.maps[r]] && s'.tbl == s.tbl && Shrinks(s, s')
  }

  lemma FewerStill(s: State, s1: State, s2: State, r: nat, v: nat)
    requires Fewer(s, s1, r) && UnmappedRange(s1, s2, r, v, v + 1, false) && s2.maps == Unbind(s1.maps, r, v)
    ensures Fewer(s, s2, r)
  {
  }

  /** Released, except that a frame stranded at SHM_VA is left to the kernel. */
  ghost predicate SpaceReleased(s: State, s': State, r: nat) {
    && r in s.maps && s'.maps == s.maps - {r} && s'.holds == Stranded(s, r) && Shrinks(s, s')
    && (forall j {:trigger j in s'.tbl} {:trigger j in s.tbl} :: j in s'.tbl <==> j in s.tbl && j.root != r)
    && (forall j {:trigger s'.tbl[j]} :: j in s'.tbl ==> s'.tbl[j] == s.tbl[j])
  }

  lemma ReleasedAfter(s: State, s1: State, s2: State, r: nat)
    requires SpecialsGone(s, s1, r) && Released(s1, s2, r)
    ensures SpaceReleased(s, s2, r)
  {
    assert s1.maps - {r} == s.maps - {r};
  }

  /** Releasing a page table loses the frame stranded at SHM_VA, and nothing else. */
  lemma KernelReleased(s: State, s': State, procs: seq<Proc>, lost: multiset<nat>, i: nat)
    requires Consistent(s, procs, lost) && i < |procs| && procs[i].used && procs[i].pagetable != 0
    requires Inv(s', NOSLOT) && SpaceReleased(s, s', procs[i].pagetable)
    ensures Consistent(s', procs[i := procs[i].(pagetable := 0)], lost + Stray(s, procs[i].pagetable))
  {
    var r, more := procs[i].pagetable, Stray(s, procs[i].pagetable);
    assert ProcOk(s, procs[i]);
    assert SHM in s.maps[r] ==> MappedOk(s, r, SHM);
    forall p | more[p] > 0 ensures InRange(s, p) && !Held(s, p) {
      assert (r, SHM) in Owners(s.maps, s.shm, p);
    }
    KernelShrinks(s, s', procs, lost, i, procs[i].(pagetable := 0), more);
  }

  // ---------------------------------------------------------------- building a page table

  const RX := NONE.(r := true, x := true)
  const RW := NONE.(r := true, w := true)
  const RWU := NONE.(r := true, w := true, u := true)

  /** A page table with the two pages every process has. */
  function NewMap(trampoline: nat, trapframe: nat): map<nat, Word> {
    map[TRAMPOLINE := Word(trampoline, RX.(v := true)), TRAPFRAME := Word(trapframe, RW.(v := true))]
  }

  function HalfMap(trampoline: nat): map<nat, Word> {
    map[TRAMPOLINE := Word(trampoline, RX.(v := true))]
  }

  lemma HalfBuilt(maps: map<nat, map<nat, Word>>, r: nat, trampoline: nat)
    ensures Bind(maps[r := map[]], r, TRAMPOLINE, Word(trampoline, RX.(v := true))) == maps[r := HalfMap(trampoline)]
  {
  }

  lemma Built(maps: map<nat, map<nat, Word>>, r: nat, trampoline: nat, trapframe: nat)
    ensures Bind(maps[r := HalfMap(trampoline)], r, TRAPFRAME, Word(trapframe, RW.(v := true)))
         == maps[r := NewMap(trampoline, trapframe)]
  {
  }

  lemma Unbuilt(maps: map<nat, map<nat, Word>>, r: nat, trampoline: nat)
    ensures UnbindRange(maps[r := HalfMap(trampoline)], r, TRAMPOLINE, TRAMPOLINE + 1) == maps[r := map[]]
  {
    var m := maps[r := HalfMap(trampoline)];
    assert UnbindRange(m, r, TRAMPOLINE, TRAMPOLINE) == m;
    assert HalfMap(trampoline) - {TRAMPOLINE} == map[];
  }

  /** Giving up on a tree that was being built leaves everything as it was before it was started: s1 is the
      state before its last mappings are taken back, and s3 the one after the tree has gone. */
  lemma AbandonedTree(s0: State, s1: State, s2: State, s3: State, r: nat)
    requires Inv(s0, NOSLOT) && Inv(s1, NOSLOT) && Inv(s3, NOSLOT)
    requires Extends(s0, s1, r) && r !in s0.maps && s2.maps == s0.maps[r := map[]] && s2.holds == s0.holds
    requires Shrinks(s1, s2) && s2.tbl == s1.tbl && Released(s2, s3, r)
    ensures s3.maps == s0.maps && s3.holds == s0.holds && Keeps(s0, s3)
  {
    assert s3.maps == s0.maps;
    forall p | p in s3.keyOf ensures p in s1.keyOf {
      FewerTables(s1, s3, p);
    }
    Undone(s0, s1, s3, r);
  }

  lemma SpecialInstalled(s: State, s': State, r: nat, v: nat, p: nat, f: Flags, done: nat)
    requires r in s.maps && done <= 1 && (done == 1 ==> !Owning(s.shm, v, p)) && InstalledRange(s, s', r, v, p, f, done)
    ensures s'.holds == s.holds && Extends(s, s', r)
    ensures done == 0 ==> s'.maps == s.maps
    ensures done == 1 ==> s'.maps == Bind(s.maps, r, v, Word(p, f))
  {
    assert BindRange(s.maps, r, v, p, f, 0) == s.maps;
    assert TransferRange(s.holds, s.shm, v, p, 0, -1) == s.holds;
  }

  /** The first frame taken from a fresh allocator becomes the shm page. */
  lemma ShmCreated(s: State)
    requires Inv(s, NOSLOT) && HoldsOk(s) && s.maps == map[] && s.free != []
    ensures s.head < |s.mem|
    ensures var s' := WithPage(AfterKalloc(s), s.head, Fill(ZERO)).(shm := s.head);
      Inv(s', NOSLOT) && HoldsOk(s') && Held(s', s'.shm)
  {
    KallocInv(s, NOSLOT);
    WithPageInv(AfterKalloc(s), s.head, Fill(ZERO), NOSLOT);
    var s1 := WithPage(AfterKalloc(s), s.head, Fill(ZERO));
    var s' := s1.(shm := s.head);
    AllocFrame(s1, s');
    forall p | InRange(s', p) ensures CountOk(s', p) {
      assert CountOk(s1, p);
    }
    forall k ensures k !in s.tbl {
      assert k in s.tbl ==> KeyOk(s, k);
    }
    forall p ensures p !in s.keyOf {
      assert p in s.keyOf ==> TableOk(s, p);
    }
  }

  lemma UnmappedAt(s: State, s': State, r: nat, v: nat)
    requires r in s.maps && v in s.maps[r] && UnmappedRange(s, s', r, v, v + 1, false)
    ensures r in s'.maps && s'.maps == Unbind(s.maps, r, v) && s'.maps == s.maps[r := s'.maps[r]]
    ensures s'.holds == Transfer(s.holds, s.shm, v, s.maps[r][v].ppn, 1)
  {
    assert UnbindRange(s.maps, r, v, v) == s.maps;
    assert TransferUnbound(s.holds, s.shm, s.maps[r], v, v) == s.holds;
  }

  /** A process as allocproc delivers it. */
  ghost predicate NewProc(s: State, s': State, P: Proc, trampoline: nat) {
    && P == Proc(true, false, 0, P.pagetable, P.trapframe) && P.pagetable != 0 && P.trapframe != 0
    && AddedOne(s.maps, s'.maps, P.pagetable) && s'.maps[P.pagetable] == NewMap(trampoline, P.trapframe)
    && Extends(s, s', P.pagetable)
  }

  lemma ExtendsKalloc(s: State, r: nat)
    requires Inv(s, NOSLOT) && s.free != []
    ensures Extends(s, AfterKalloc(s), r)
  {
    KallocInv(s, NOSLOT);
  }

  lemma Overwritten(procs: seq<Proc>, procs': seq<Proc>, j: nat, P: Proc)
    requires j < |procs| == |procs'| && procs' == procs[j := procs'[j]]
    ensures procs'[j := P] == procs[j := P]
  {
  }

  lemma Restored(procs: seq<Proc>, procs': seq<Proc>, j: nat)
    requires j < |procs| == |procs'| && procs' == procs[j := procs'[j]]
    ensures procs'[j := procs[j]] == procs
  {
  }

  lemma KernelBooted(s: State, s': State, procs: seq<Proc>)
    requires Inv(s', NOSLOT) && HoldsOk(s') && Held(s', s'.shm) && s'.maps == map[]
    requires |s'.holds| == |s.holds| && forall p {:trigger s'.holds[p]} :: 0 <= p < |s'.holds| && s'.holds[p] > 0 ==>
        p == s'.shm
    requires forall i {:trigger procs[i]} :: 0 <= i < |procs| ==> procs[i] == UNUSED
    ensures KernelInv(s', procs)
  {
    forall p | InRange(s', p) ensures KeptOk(s', procs, multiset{}, p) {
    }
  }

  // ---------------------------------------------------------------- fork

  /** One tree has been added and no other tree has changed. */
  ghost predicate AddedOne(maps: map<nat, map<nat, Word>>, maps': map<nat, map<nat, Word>>, r: nat) {
    r !in maps && r in maps' && maps' == maps[r := maps'[r]]
  }

  lemma AddedStill(m0: map<nat, map<nat, Word>>, m1: map<nat, map<nat, Word>>, m2: map<nat, map<nat, Word>>, r: nat)
    requires AddedOne(m0, m1, r) && r in m2 && m2 == m1[r := m2[r]]
    ensures AddedOne(m0, m2, r)
  {
  }

  /** The child's user pages are private copies on frames that were free: the same pages are mapped, with the
      same flags and the same bytes, and holes stay holes. */
  ghost predicate Copied(s: State, s': State, src: nat, dst: nat, n: nat) {
    && src in s.maps && dst in s'.maps
    && (forall v {:trigger v in s'.maps[dst]} :: v < n ==> (v in s'.maps[dst] <==> v in s.maps[src]))
    && (forall v {:trigger v in s.maps[src]} :: v < n && v in s.maps[src] ==>
         s.maps[src][v].ppn < |s.mem| && FreshAt(s, s', dst, v, s.maps[src][v].flags, s.mem[s.maps[src][v].ppn]))
  }

  /** The page map of a process. */
  ghost function MapOf(s: State, P: Proc): map<nat, Word> {
    if P.pagetable in s.maps then s.maps[P.pagetable] else map[]
  }

  /** The number of user pages that a process has mapped. */
  ghost function MappedPages(s: State, P: Proc): nat {
    MappedBelow(MapOf(s, P), Pages(P.sz))
  }

  /** Copying or sharing the memory of the process would put a page where the shm page goes. */
  ghost predicate Collides(s: State, P: Proc) {
    P.sz > SHM * PGSIZE && SHM in MapOf(s, P)
  }

  lemma SizeAboveShm(sz: nat)
    ensures sz > SHM * PGSIZE <==> Pages(sz) > SHM
  {
  }

  lemma NewMapVacant(trampoline: nat, trapframe: nat, n: nat)
    requires n <= TRAPFRAME
    ensures Vacant(NewMap(trampoline, trapframe), 0, n)
  {
  }

  /** What fork makes of the memory: everything that existed is untouched, and the child has its own copy of
      the user pages and possibly the shm page, readable and writable by the user. */
  ghost predicate Forked(s: State, s': State, P: Proc, Q: Proc) {
    && Q == Proc(true, false, P.sz, Q.pagetable, Q.trapframe)
    && AddedOne(s.maps, s'.maps, Q.pagetable) && Extends(s, s', Q.pagetable)
    && Copied(s, s', P.pagetable, Q.pagetable, Pages(P.sz))
    && (SHM in s'.maps[Q.pagetable] ==> SHM in s.maps[P.pagetable])
    && (SHM in s'.maps[Q.pagetable] && Pages(P.sz) <= SHM ==>
         s'.maps[Q.pagetable][SHM] == Word(s'.shm, Flags(true, true, true, false, true, 0)))
  }

  /** Copying after the child was built. */
  lemma ForkedBy(s0: State, s1: State, s2: State, P: Proc, Q: Proc, trampoline: nat)
    requires Inv(s0, NOSLOT) && HoldsOk(s0) && ShmOk(s0) && Inv(s1, NOSLOT) && P.pagetable in s0.maps
    requires Pages(P.sz) <= TRAPFRAME && Q.used && !Q.isThread && Q.sz == P.sz
    requires NewProc(s0, s1, Q.(sz := 0), trampoline)
    requires BackedBelow(s1, P.pagetable, Pages(P.sz))
    requires Filled(s1, s2, Q.pagetable, CopyWanted(s1, P.pagetable, Pages(P.sz)), 0, Pages(P.sz))
    ensures Forked(s0, s2, P, Q)
    ensures SHM in s2.maps[Q.pagetable] <==> SHM < Pages(P.sz) && SHM in s0.maps[P.pagetable]
  {
    CopiedAfter(s0, s1, s2, P.pagetable, Q.pagetable, Pages(P.sz));
    ExtendsTransitive(s0, s1, s2, Q.pagetable);
    AddedStill(s0.maps, s1.maps, s2.maps, Q.pagetable);
  }

  lemma ForkedStill(s0: State, s2: State, s3: State, P: Proc, Q: Proc)
    requires Forked(s0, s2, P, Q) && SHM in s0.maps[P.pagetable] && Extends(s2, s3, Q.pagetable) && Pages(P.sz) <= SHM
    requires s3.maps == s2.maps
      || s3.maps == Bind(s2.maps, Q.pagetable, SHM, Word(s2.shm, Flags(true, true, true, false, true, 0)))
    ensures Forked(s0, s3, P, Q)
  {
    ExtendsTransitive(s0, s2, s3, Q.pagetable);
  }

  lemma CopiedAfter(s0: State, s1: State, s2: State, src: nat, dst: nat, n: nat)
    requires Inv(s0, NOSLOT) && HoldsOk(s0) && ShmOk(s0) && Inv(s1, NOSLOT) && src in s0.maps && n <= TRAPFRAME
    requires src in s1.maps && s1.maps[src] == s0.maps[src] && Extends(s0, s1, dst)
    requires BackedBelow(s1, src, n)
    requires Filled(s1, s2, dst, CopyWanted(s1, src, n), 0, n)
    requires forall v {:trigger v in s1.maps[dst]} :: v in s1.maps[dst] ==> v >= n
    ensures Copied(s0, s2, src, dst, n)
  {
    var want := CopyWanted(s1, src, n);
    forall v | v < n && v in s0.maps[src]
      ensures s0.maps[src][v].ppn < |s0.mem|
      ensures FreshAt(s0, s2, dst, v, s0.maps[src][v].flags, s0.mem[s0.maps[src][v].ppn])
    {
      MappedLive(s0, src, v);
      var p := s0.maps[src][v].ppn;
      assert s1.refs[p] == s0.refs[p];
      assert v in want && FreshAt(s1, s2, dst, v, want[v].0, want[v].1);
      StillFree(s0, s1, dst, s2.maps[dst][v].ppn);
    }
  }

  lemma KernelFilled(s: State, s': State, procs: seq<Proc>, lost: multiset<nat>, i: nat, P: Proc,
      want: map<nat, (Flags, Page)>, lo: nat)
    requires Consistent(s, procs, lost) && i < |procs| && Inv(s', NOSLOT)
    requires procs[i].used && procs[i].pagetable != 0 && P == procs[i].(sz := P.sz) && Pages(P.sz) <= TRAPFRAME
    requires Pages(P.sz) >= Pages(procs[i].sz)
    requires Filled(s, s', procs[i].pagetable, want, lo, Pages(P.sz))
    ensures Consistent(s', procs[i := P], lost)
  {
    assert ProcOk(s, procs[i]);
    KernelGrows(s, s', procs, lost, i, P);
  }

  // ---------------------------------------------------------------- clone

  /** The thread maps the same frames with the same flags, and each frame is counted once more for every page
      that now maps it again. */
  ghost predicate Cloned(s: State, s': State, P: Proc, Q: Proc) {
    && Q == Proc(true, true, P.sz, Q.pagetable, Q.trapframe)
    && P.pagetable in s.maps && AddedOne(s.maps, s'.maps, Q.pagetable)
    && (forall v {:trigger v in s'.maps[Q.pagetable]} :: v < Pages(P.sz) || v == SHM ==>
         (v in s'.maps[Q.pagetable] <==> v in s.maps[P.pagetable]))
    && (forall v {:trigger s'.maps[Q.pagetable][v]} :: (v < Pages(P.sz) || v == SHM) && v in s.maps[P.pagetable] ==>
         v in s'.maps[Q.pagetable] && s'.maps[Q.pagetable][v] == s.maps[P.pagetable][v])
    && CountedOnceMore(s, s', P.pagetable, Q.pagetable, Pages(P.sz))
  }

  /** Every data frame keeps its contents and gains one reference per page of src below n that it backs. */
  ghost predicate CountedOnceMore(s: State, s': State, src: nat, dst: nat, n: nat) {
    && src in s.maps && KeepsPages(s, s')
    && (forall p: nat {:trigger s'.refs[p]} :: Live(s, p) ==>
         s'.refs[p] == s.refs[p] + |Sharers(s.maps, src, dst, n, p)|)
  }

  /** A held frame is not among the shared ones. */
  lemma HeldShared(s: State, s': State, src: nat, dst: nat, n: nat, p: nat)
    requires Inv(s, NOSLOT) && Inv(s', NOSLOT) && Shared(s, s', src, dst, n) && n <= TRAPFRAME && Held(s, p)
    requires NoShmBelow(s, src, n) && Vacant(s.maps[dst], 0, n)
    ensures Held(s', p)
  {
    forall v | v in s.maps[src] && v < n ensures s.maps[src][v].ppn != p {
      assert (src, v) !in Owners(s.maps, s.shm, p);
      assert MappedOk(s, src, v);
    }
    assert Sharers(s.maps, src, dst, n, p) == {};
    assert s'.refs[p] >= s.refs[p];
    NoShmShared(s, src, n);
    SharedOwners(s.maps, s'.maps, s.shm, src, dst, n, p);
    assert |Owners(s'.maps, s'.shm, p)| == 0;
  }

  lemma KernelShared(s: State, s': State, procs: seq<Proc>, lost: multiset<nat>, src: nat, i: nat, P: Proc)
    requires Consistent(s, procs, lost) && i < |procs| && Inv(s', NOSLOT)
    requires procs[i].used && procs[i].pagetable in s.maps && procs[i].pagetable != 0 && procs[i].sz == 0
    requires Vacant(s.maps[procs[i].pagetable], 0, Pages(P.sz))
    requires P == procs[i].(isThread := true, sz := P.sz) && Pages(P.sz) <= TRAPFRAME
    requires Shared(s, s', src, procs[i].pagetable, Pages(P.sz)) && NoShmBelow(s, src, Pages(P.sz))
    ensures Consistent(s', procs[i := P], lost)
  {
    var dst, n := procs[i].pagetable, Pages(P.sz);
    assert ProcOk(s, procs[i]);
    assert Pages(0) == 0;
    HeldShared(s, s', src, dst, n, s.shm);
    forall j | 0 <= j < |procs| && procs[j].trapframe != 0 ensures Held(s', procs[j].trapframe) {
      HeldShared(s, s', src, dst, n, procs[j].trapframe);
    }
    NoNullRoot(s');
    KernelStep(s, s', procs, lost, i, P, multiset{});
    assert lost + multiset{} == lost;
  }

  /** A thread that shares what its creator may share has nothing at SHM_VA yet. */
  lemma ClonePrepared(s0: State, s1: State, s2: State, P: Proc, Q: Proc, trampoline: nat)
    requires P.pagetable in s0.maps && NewProc(s0, s1, Q.(isThread := false, sz := 0), trampoline)
    requires Shared(s1, s2, P.pagetable, Q.pagetable, Pages(P.sz)) && !Collides(s0, P)
    ensures AddedOne(s0.maps, s2.maps, Q.pagetable) && SHM !in s2.maps[Q.pagetable] && s2.shm == s1.shm
  {
    SizeAboveShm(P.sz);
    AddedStill(s0.maps, s1.maps, s2.maps, Q.pagetable);
    assert s1.maps[P.pagetable] == s0.maps[P.pagetable];
  }

  /** Up to SHM_VA, a process sees the shm page there, readable and writable by the user, or nothing. */
  lemma SeesShm(s: State, procs: seq<Proc>, lost: multiset<nat>, i: nat)
    requires Consistent(s, procs, lost) && i < |procs| && procs[i].used && procs[i].pagetable in s.maps
    requires procs[i].sz <= SHM * PGSIZE && SHM in s.maps[procs[i].pagetable]
    ensures s.maps[procs[i].pagetable][SHM] == Word(s.shm, Flags(true, true, true, false, true, 0))
  {
    NoNullRoot(s);
    SizeAboveShm(procs[i].sz);
    assert ProcOk(s, procs[i]);
  }

  /** Sharing after the thread was built, and the shm page mapped last. */
  lemma ClonedBy(s0: State, s1: State, s2: State, s3: State, P: Proc, Q: Proc, trampoline: nat)
    requires Inv(s0, NOSLOT) && HoldsOk(s0) && Inv(s1, NOSLOT) && Inv(s2, NOSLOT) && Pages(P.sz) <= TRAPFRAME
    requires P.pagetable in s0.maps && NewProc(s0, s1, Q.(isThread := false, sz := 0), trampoline)
    requires SHM < Pages(P.sz) ==> SHM !in s0.maps[P.pagetable]
    requires Q.used && Q.isThread && Q.sz == P.sz
    requires Shared(s1, s2, P.pagetable, Q.pagetable, Pages(P.sz)) && Extends(s2, s3, Q.pagetable)
    requires s3.maps == if SHM in s0.maps[P.pagetable]
                        then Bind(s2.maps, Q.pagetable, SHM, s0.maps[P.pagetable][SHM]) else s2.maps
    ensures Cloned(s0, s3, P, Q)
  {
    assert s1.maps[P.pagetable] == s0.maps[P.pagetable];
    ClonedCounts(s0, s1, s2, s3, P.pagetable, Q.pagetable, Pages(P.sz));
    assert SHM !in s2.maps[Q.pagetable];
  }

  /** The thread Q was built and shares the user pages of P, with nothing in the way of the shm page: s0 is the state
      before, s1 the one after allocproc, s2 the one after uvmshare. */
  ghost predicate CloneReady(s0: State, s1: State, s2: State, P: Proc, Q: Proc, trampoline: nat) {
    && Inv(s0, NOSLOT) && HoldsOk(s0) && Inv(s1, NOSLOT) && Inv(s2, NOSLOT) && Pages(P.sz) <= TRAPFRAME
    && P.pagetable in s0.maps && NewProc(s0, s1, Q.(isThread := false, sz := 0), trampoline)
    && Q.used && Q.isThread && Q.sz == P.sz && !Collides(s0, P)
    && Shared(s1, s2, P.pagetable, Q.pagetable, Pages(P.sz))
  }

  /** When memory for the last table runs out, no data frame has been touched. */
  lemma CloneRefused(s0: State, s1: State, s2: State, s3: State, P: Proc, Q: Proc, trampoline: nat)
    requires CloneReady(s0, s1, s2, P, Q, trampoline) && Keeps(s2, s3)
    ensures KeepsPages(s0, s3)
  {
    PagesTransitive(s0, s1, s2);
    PagesTransitive(s0, s2, s3);
  }

  /** The end of kclone when nothing is in the way: the thread is a clone, and the invariant holds. */
  lemma CloneFinished(s0: State, s1: State, s2: State, s3: State, procs: seq<Proc>, lost: multiset<nat>, i: nat, j: nat,
      P: Proc, Q: Proc, trampoline: nat)
    requires CloneReady(s0, s1, s2, P, Q, trampoline) && Consistent(s2, procs, lost) && Inv(s3, NOSLOT)
    requires i < |procs| && j < |procs| && procs[i] == P && procs[j] == Q && P.used
    requires Extends(s2, s3, Q.pagetable) && s3.holds == s2.holds && P.pagetable in s2.maps
    requires s3.maps == if SHM in s2.maps[P.pagetable]
                        then Bind(s2.maps, Q.pagetable, SHM, s2.maps[P.pagetable][SHM]) else s2.maps
    ensures Consistent(s3, procs, lost) && Cloned(s0, s3, P, Q)
  {
    SizeAboveShm(P.sz);
    assert s1.maps[P.pagetable] == s0.maps[P.pagetable];
    KernelShmShared(s2, s3, procs, lost, i, j);
    ClonedBy(s0, s1, s2, s3, P, Q, trampoline);
  }

  lemma ClonedCounts(s0: State, s1: State, s2: State, s3: State, src: nat, dst: nat, n: nat)
    requires Inv(s0, NOSLOT) && Inv(s1, NOSLOT) && Inv(s2, NOSLOT) && n <= TRAPFRAME
    requires Extends(s0, s1, dst) && Shared(s1, s2, src, dst, n) && Extends(s2, s3, dst)
    requires dst in s1.maps && Vacant(s1.maps[dst], 0, n) && NoShmBelow(s1, src, n)
    requires src in s0.maps && src in s1.maps && s1.maps[src] == s0.maps[src]
    ensures CountedOnceMore(s0, s3, src, dst, n)
  {
    forall p: nat | Live(s0, p)
      ensures s3.refs[p] >= s0.refs[p] && s3.mem[p] == s0.mem[p] && p !in s3.keyOf
      ensures s3.refs[p] == s0.refs[p] + |Sharers(s0.maps, src, dst, n, p)|
    {
      ClonedCount(s0, s1, s2, s3, src, dst, n, p);
    }
  }

  lemma ClonedCount(s0: State, s1: State, s2: State, s3: State, src: nat, dst: nat, n: nat, p: nat)
    requires Inv(s0, NOSLOT) && Inv(s1, NOSLOT) && Inv(s2, NOSLOT) && n <= TRAPFRAME && Live(s0, p)
    requires Extends(s0, s1, dst) && Shared(s1, s2, src, dst, n) && Extends(s2, s3, dst)
    requires dst in s1.maps && Vacant(s1.maps[dst], 0, n) && NoShmBelow(s1, src, n)
    requires src in s0.maps && src in s1.maps && s1.maps[src] == s0.maps[src]
    ensures |s3.refs| == |s3.mem| == |s0.mem|
    ensures s3.refs[p] >= s0.refs[p] && s3.mem[p] == s0.mem[p] && p !in s3.keyOf
    ensures s3.refs[p] == s0.refs[p] + |Sharers(s0.maps, src, dst, n, p)|
  {
    assert s1.refs[p] == s0.refs[p];
    assert s2.refs[p] >= s1.refs[p];
    assert s3.refs[p] == s2.refs[p];
    SharedCounts(s1, s2, src, dst, n, p);
  }

  // ---------------------------------------------------------------- resizing

  /** An operation that only added empty tables, or nothing at all. */
  lemma GrownSame(s: State, s': State, procs: seq<Proc>, lost: multiset<nat>, i: nat)
    requires Consistent(s, procs, lost) && i < |procs| && procs[i].used && Inv(s', NOSLOT)
    requires s'.maps == s.maps && s'.holds == s.holds && Keeps(s, s')
    ensures Consistent(s', procs, lost)
  {
    NoNullRoot(s);
    assert ProcOk(s, procs[i]);
    KernelGrows(s, s', procs, lost, i, procs[i]);
    assert procs[i := procs[i]] == procs;
  }

  /** The shm page appears in, or fails to be added to, the map of a process. */
  lemma KernelShmMapped(s: State, s': State, procs: seq<Proc>, lost: multiset<nat>, i: nat)
    requires Consistent(s, procs, lost) && Inv(s', NOSLOT)
    requires i < |procs| && procs[i].used && procs[i].pagetable in s.maps
    requires s'.holds == s.holds && Keeps(s, s')
    requires s'.maps == s.maps
      || s'.maps == Bind(s.maps, procs[i].pagetable, SHM, Word(s.shm, Flags(true, true, true, false, true, 0)))
    ensures Consistent(s', procs, lost)
  {
    NoNullRoot(s);
    assert ProcOk(s, procs[i]);
    KernelGrows(s, s', procs, lost, i, procs[i]);
    assert procs[i := procs[i]] == procs;
  }

  /** The same for a thread, which gets the entry of its creator, if there is one. */
  lemma KernelShmShared(s: State, s': State, procs: seq<Proc>, lost: multiset<nat>, i: nat, j: nat)
    requires Consistent(s, procs, lost) && i < |procs| && j < |procs| && procs[i].used && procs[j].used
    requires procs[i].pagetable in s.maps && procs[j].pagetable in s.maps && Inv(s', NOSLOT)
    requires procs[i].sz > SHM * PGSIZE ==> SHM !in s.maps[procs[i].pagetable]
    requires s'.holds == s.holds && Keeps(s, s')
    requires s'.maps == if SHM in s.maps[procs[i].pagetable]
                        then Bind(s.maps, procs[j].pagetable, SHM, s.maps[procs[i].pagetable][SHM]) else s.maps
    ensures Consistent(s', procs, lost)
  {
    NoNullRoot(s);
    assert ProcOk(s, procs[i]);
    SizeAboveShm(procs[i].sz);
    KernelShmMapped(s, s', procs, lost, j);
  }

  /** An address below the size lies on a page that can only be backed by a frame in use. */
  lemma UserPage(s: State, procs: seq<Proc>, lost: multiset<nat>, i: nat, va: nat)
    requires Consistent(s, procs, lost) && i < |procs| && procs[i].used && procs[i].pagetable in s.maps
    requires va < procs[i].sz
    ensures va / PGSIZE < TRAPFRAME
    ensures va / PGSIZE in s.maps[procs[i].pagetable] ==> s.maps[procs[i].pagetable][va / PGSIZE].ppn != 0
  {
    assert ProcOk(s, procs[i]);
    if va / PGSIZE in s.maps[procs[i].pagetable] {
      MappedLive(s, procs[i].pagetable, va / PGSIZE);
    }
  }

  /** A lazily grown page appears. */
  lemma KernelFaulted(s: State, s': State, procs: seq<Proc>, lost: multiset<nat>, i: nat, v: nat, p: nat)
    requires Consistent(s, procs, lost) && Inv(s', NOSLOT)
    requires i < |procs| && procs[i].used && procs[i].pagetable in s.maps
    requires v < Pages(procs[i].sz) && s'.holds == s.holds && Keeps(s, s')
    requires exists w: Word :: s'.maps == Bind(s.maps, procs[i].pagetable, v, w)
    ensures Consistent(s', procs, lost)
  {
    NoNullRoot(s);
    assert ProcOk(s, procs[i]);
    KernelGrows(s, s', procs, lost, i, procs[i]);
    assert procs[i := procs[i]] == procs;
  }

  /** The value of a signed sum in a 64-bit unsigned word. */
  function Wrapped(x: int): (w: nat)
    requires x >= -0x1_0000_0000_0000_0000
  {
    if x < 0 then x + 0x1_0000_0000_0000_0000 else x
  }

  /** A size that the code allows although it covers SHM_VA. */
  predicate Crosses(newsz: int) {
    SHM * PGSIZE < newsz <= TRAPFRAME * PGSIZE
  }

  /** Why growing by n may fail: the size would pass the bound, or three frames per new page were not free. */
  predicate Refusable(sz: nat, n: int, free: nat) {
    sz + n > TRAPFRAME * PGSIZE || (sz + n >= 0 && free < 3 * (Pages(sz + n) - Pages(sz)))
  }

  /** The pages from lo to hi have been added, zeroed and with the given flags. */
  ghost predicate Grown(s: State, s': State, r: nat, lo: nat, hi: nat, perm: Flags) {
    r in s.maps && if lo < hi then Filled(s, s', r, Wanted(lo, hi, perm), lo, hi) else s' == s
  }

  ghost predicate GrownOrShrunk(s: State, s': State, r: nat, oldsz: nat, newsz: nat) {
    && r in s.maps
    && (newsz > oldsz ==> Grown(s, s', r, Pages(oldsz), Pages(newsz), RWU.(v := true)))
    && (newsz <= oldsz ==>
         if Pages(newsz) < Pages(oldsz) then Dealloced(s, s', r, Pages(newsz), Pages(oldsz)) else s' == s)
  }

  /** Growing by n would map a page where the shm page is. */
  ghost predicate InTheWay(s: State, P: Proc, n: int) {
    P.sz <= SHM * PGSIZE < P.sz + n <= TRAPFRAME * PGSIZE && SHM in MapOf(s, P)
  }

  /** What growproc sees when it grows a process without meeting the shm page. */
  ghost predicate CanGrow(s: State, P: Proc, newsz: nat) {
    P.pagetable in s.maps && MapOk(s, P) && newsz <= TRAPFRAME * PGSIZE && !InTheWay(s, P, newsz - P.sz)
  }

  /** Nothing else can be in the way of growth. */
  lemma OnlyShmInTheWay(s: State, P: Proc, newsz: nat)
    requires P.pagetable in s.maps && MapOk(s, P) && P.sz < newsz <= TRAPFRAME * PGSIZE
    ensures Pages(newsz) <= TRAPFRAME
    ensures InTheWay(s, P, newsz - P.sz) <==> !Vacant(s.maps[P.pagetable], Pages(P.sz), Pages(newsz))
  {
    SizeAboveShm(P.sz);
    SizeAboveShm(newsz);
    var m := s.maps[P.pagetable];
    if !Vacant(m, Pages(P.sz), Pages(newsz)) {
      var v :| Pages(P.sz) <= v < Pages(newsz) && v in m;
      assert v == SHM;
    }
  }

  /** Every frame has the count it had. */
  ghost predicate SameRefs(s: State, s': State) {
    && |s.refs| == |s.mem| == |s'.refs| == |s'.mem|
    && forall p {:trigger s'.refs[p]} :: InRange(s, p) ==> s'.refs[p] == s.refs[p]
  }

  lemma ResizedBack(s0: State, s1: State, s2: State, P: Proc, newsz: nat)
    requires Inv(s0, NOSLOT) && Inv(s1, NOSLOT) && Inv(s2, NOSLOT) && newsz > P.sz && CanGrow(s0, P, newsz)
    requires GrownOrShrunk(s0, s1, P.pagetable, P.sz, newsz) && GrownOrShrunk(s1, s2, P.pagetable, newsz, P.sz)
    ensures s2.maps == s0.maps && s2.holds == s0.holds && Keeps(s0, s2)
    ensures Pages(newsz) > Pages(P.sz) ==>
              && (s2.tbl == s0.tbl <==> NoEmptyTable(s0, P.pagetable))
              && (SameRefs(s0, s2) <==> NoEmptyTable(s0, P.pagetable))
  {
    var r, lo, hi := P.pagetable, Pages(P.sz), Pages(newsz);
    OnlyShmInTheWay(s0, P, newsz);
    if lo < hi {
      AllocDeallocRoundTrip(s0, s1, s2, r, Wanted(lo, hi, RWU.(v := true)), lo, hi);
    }
  }

  lemma KernelDealloced(s: State, s': State, procs: seq<Proc>, lost: multiset<nat>, i: nat, sz: nat)
    requires Consistent(s, procs, lost) && Inv(s', NOSLOT)
    requires i < |procs| && procs[i].used && procs[i].pagetable in s.maps
    requires sz <= procs[i].sz
    requires if Pages(sz) < Pages(procs[i].sz) then Dealloced(s, s', procs[i].pagetable, Pages(sz), Pages(procs[i].sz))
             else s' == s
    ensures Consistent(s', procs[i := procs[i].(sz := sz)], lost)
  {
    NoNullRoot(s);
    var r, P := procs[i].pagetable, procs[i].(sz := sz);
    assert ProcOk(s, procs[i]);
    if Pages(sz) < Pages(procs[i].sz) {
      UnbindRangeFrame(s.maps, r, Pages(sz), Pages(procs[i].sz));
      forall v: nat ensures v in s'.maps[r] <==> v in s.maps[r] && !(Pages(sz) <= v < Pages(procs[i].sz)) {
        UnbindRangeAt(s.maps, r, Pages(sz), Pages(procs[i].sz), v);
      }
      forall v | v in s'.maps[r] ensures s'.maps[r][v] == s.maps[r][v] {
        UnbindRangeAt(s.maps, r, Pages(sz), Pages(procs[i].sz), v);
      }
      KernelShrinks(s, s', procs, lost, i, P, multiset{});
      assert lost + multiset{} == lost;
    } else {
      KernelGrows(s, s', procs, lost, i, P);
    }
  }

  /** A size change without a memory operation: lazy growth, or none. */
  lemma KernelSized(s: State, procs: seq<Proc>, lost: multiset<nat>, i: nat, sz: nat)
    requires Consistent(s, procs, lost) && i < |procs| && procs[i].used && procs[i].pagetable != 0
    requires procs[i].sz <= sz && Pages(sz) <= TRAPFRAME
    ensures Consistent(s, procs[i := procs[i].(sz := sz)], lost)
  {
    NoNullRoot(s);
    assert ProcOk(s, procs[i]);
    KernelGrows(s, s, procs, lost, i, procs[i].(sz := sz));
  }

  /** Frames that held data and still do have the same contents. */
  ghost predicate SameBytes(s: State, s': State) {
    && |s.mem| == |s.refs| == |s'.mem| == |s'.refs| && s'.end == s.end && s'.shm == s.shm
    && forall p: nat {:trigger s'.mem[p]} :: Live(s, p) && Live(s', p) ==> s'.mem[p] == s.mem[p]
  }

  lemma KeepsTransitive(s: State, s1: State, s2: State)
    requires Keeps(s, s1) && Keeps(s1, s2)
    ensures Keeps(s, s2)
  {
    forall p | InRange(s, p) && s.refs[p] > 0 && p !in s.keyOf
      ensures s2.refs[p] == s.refs[p] && s2.mem[p] == s.mem[p] && p !in s2.keyOf
    {
      assert s1.refs[p] == s.refs[p];
    }
  }

  /** What is built up and then taken down again leaves the contents alone. */
  lemma BytesThrough(s: State, s1: State, s2: State)
    requires KeepsPages(s, s1) && Shrinks(s1, s2)
    ensures SameBytes(s, s2)
  {
    forall p: nat | Live(s, p) && Live(s2, p) ensures s2.mem[p] == s.mem[p] {
      assert s1.refs[p] >= s.refs[p];
    }
  }

  lemma PagesTransitive(s: State, s1: State, s2: State)
    requires KeepsPages(s, s1) && KeepsPages(s1, s2)
    ensures KeepsPages(s, s2)
  {
    forall p | InRange(s, p) && s.refs[p] > 0 && p !in s.keyOf
      ensures s2.refs[p] >= s.refs[p] && s2.mem[p] == s.mem[p] && p !in s2.keyOf
    {
      assert s1.refs[p] >= s.refs[p];
    }
  }

  /** The counts of data frames are a function of the page maps and the process table. */
  lemma CountsDetermined(s: State, s': State, procs: seq<Proc>, lost: multiset<nat>)
    requires Consistent(s, procs, lost) && Consistent(s', procs, lost)
    requires s'.maps == s.maps && SameBytes(s, s')
    ensures Keeps(s, s')
  {
    forall p: nat | Live(s, p) ensures Live(s', p) && s'.refs[p] == s.refs[p] && s'.mem[p] == s.mem[p] {
      CountDetermined(s, s', procs, lost, p);
    }
  }

  lemma CountDetermined(s: State, s': State, procs: seq<Proc>, lost: multiset<nat>, p: nat)
    requires Consistent(s, procs, lost) && Consistent(s', procs, lost) && Live(s, p)
    requires s'.maps == s.maps && s'.shm == s.shm && s'.end == s.end && |s'.mem| == |s.mem|
    ensures Live(s', p) && s'.refs[p] == s.refs[p]
  {
    assert CountOk(s, p) && CountOk(s', p) && KeptOk(s, procs, lost, p) && KeptOk(s', procs, lost, p);
    if s.holds[p] > 0 {
      assert p in s'.keyOf ==> TableOk(s', p);
    } else {
      assert Owners(s.maps, s.shm, p) != {};
      var r, v :| (r, v) in Owners(s.maps, s.shm, p);
      assert MappedOk(s', r, v);
    }
  }

  // ---------------------------------------------------------------- the end of all processes

  /** No page table exists, and every frame but the shm page is on the free list. */
  ghost predicate OnlyShmLeft(s: State)
    requires |s.refs| == |s.mem| == |s.rank|
  {
    && s.maps == map[] && s.tbl == map[]
    && InRange(s, s.shm) && s.refs[s.shm] == 1
    && (forall p: nat {:trigger IsFree(s, p)} :: InRange(s, p) && p != s.shm ==> s.refs[p] == 0 && IsFree(s, p))
  }

  /** Without processes, the references left are the one to the shm page and those to the lost frames: everything
      is free if and only if no frame was lost. */
  lemma NothingLeaks(s: State, procs: seq<Proc>, lost: multiset<nat>)
    requires Consistent(s, procs, lost) && forall i {:trigger procs[i]} :: 0 <= i < |procs| ==> procs[i] == UNUSED
    ensures s.maps == map[] && s.tbl == map[] && lost[s.shm] == 0
    ensures forall p: nat {:trigger s.refs[p]} :: InRange(s, p) ==>
              s.refs[p] == lost[p] + (if p == s.shm then 1 else 0) && (IsFree(s, p) <==> s.refs[p] == 0)
    ensures OnlyShmLeft(s) <==> lost == multiset{}
  {
    forall r ensures r !in s.maps {
      assert r in s.maps ==> Owned(procs, r);
      NoNullRoot(s);
    }
    forall k ensures k !in s.tbl {
      assert k in s.tbl ==> KeyOk(s, k);
    }
    assert KeptOk(s, procs, lost, s.shm);
    forall p: nat | InRange(s, p)
      ensures s.refs[p] == lost[p] + (if p == s.shm then 1 else 0) && (IsFree(s, p) <==> s.refs[p] == 0)
    {
      assert p in s.keyOf ==> TableOk(s, p);
      assert Owners(s.maps, s.shm, p) == {};
      Accounting(s, procs, lost, p);
    }
    if OnlyShmLeft(s) {
      forall p: nat ensures lost[p] == 0 {
        if InRange(s, p) {
          assert s.refs[p] == lost[p] + if p == s.shm then 1 else 0;
        }
      }
      assert lost == multiset{};
    }
  }

  /** All frames that would be lost if every process were freed now. */
  ghost function Strays(s: State, procs: seq<Proc>): multiset<nat> {
    if procs == [] then multiset{} else Stray(s, procs[0].pagetable) + Strays(s, procs[1..])
  }

  lemma {:induction false} NoStrays(s: State, procs: seq<Proc>)
    requires Inv(s, NOSLOT) && forall i {:trigger procs[i]} :: 0 <= i < |procs| ==> procs[i] == UNUSED
    ensures Strays(s, procs) == multiset{}
  {
    NoNullRoot(s);
    if procs != [] {
      NoStrays(s, procs[1..]);
    }
  }

  lemma {:induction false} StraysChange(s: State, s': State, procs: seq<Proc>, procs': seq<Proc>)
    requires |procs'| == |procs|
    requires forall j {:trigger procs[j]} {:trigger procs'[j]} :: 0 <= j < |procs| ==>
               Stray(s', procs'[j].pagetable) == Stray(s, procs[j].pagetable)
    ensures Strays(s', procs') == Strays(s, procs)
  {
    if procs != [] {
      assert procs[0] == procs[0] && procs'[0] == procs'[0];
      forall j | 0 <= j < |procs| - 1
        ensures Stray(s', procs'[1..][j].pagetable) == Stray(s, procs[1..][j].pagetable)
      {
        assert procs'[1..][j] == procs'[j + 1] && procs[1..][j] == procs[j + 1];
      }
      StraysChange(s, s', procs[1..], procs'[1..]);
    }
  }

  lemma {:induction false} StraysSplit(s: State, procs: seq<Proc>, i: nat)
    requires i < |procs|
    ensures Strays(s, procs) == Strays(s, procs[..i]) + Stray(s, procs[i].pagetable) + Strays(s, procs[i + 1..])
  {
    if i > 0 {
      StraysSplit(s, procs[1..], i - 1);
      assert procs[1..][..i - 1] == procs[..i][1..] && procs[1..][i..] == procs[i + 1..];
    }
  }

  lemma StrayKept(s: State, s': State, procs: seq<Proc>, lost: multiset<nat>, i: nat, j: nat)
    requires Consistent(s, procs, lost) && i < |procs| && j < |procs| && i != j && procs[i].used
    requires 0 !in s'.maps && s'.shm == s.shm && s'.maps == s.maps - {procs[i].pagetable}
    ensures Stray(s', procs[j].pagetable) == Stray(s, procs[j].pagetable)
  {
    NoNullRoot(s);
    assert Disjoint(procs[if i < j then i else j], procs[if i < j then j else i]);
  }

  /** Freeing a process takes its stray out of the sum. */
  lemma StraysDrop(s: State, s': State, procs: seq<Proc>, lost: multiset<nat>, i: nat)
    requires Consistent(s, procs, lost) && i < |procs| && procs[i].used
    requires Inv(s', NOSLOT) && s'.shm == s.shm && s'.maps == s.maps - {procs[i].pagetable}
    ensures Strays(s, procs) == Strays(s', procs[i := UNUSED]) + Stray(s, procs[i].pagetable)
  {
    var procs' := procs[i := UNUSED];
    NoNullRoot(s);
    NoNullRoot(s');
    StraysSplit(s, procs, i);
    StraysSplit(s', procs', i);
    forall j | 0 <= j < |procs| && j != i
      ensures Stray(s', procs'[j].pagetable) == Stray(s, procs[j].pagetable)
    {
      StrayKept(s, s', procs, lost, i, j);
    }
    forall j | 0 <= j < i ensures Stray(s', procs'[..i][j].pagetable) == Stray(s, procs[..i][j].pagetable) {
      assert procs'[..i][j] == procs'[j] && procs[..i][j] == procs[j];
    }
    StraysChange(s, s', procs[..i], procs'[..i]);
    assert procs'[i + 1..] == procs[i + 1..];
    var rest := procs[i + 1..];
    forall j | 0 <= j < |rest| ensures Stray(s', rest[j].pagetable) == Stray(s, rest[j].pagetable) {
      assert rest[j] == procs'[i + 1 + j] && rest[j] == procs[i + 1 + j];
    }
    StraysChange(s, s', rest, rest);
    assert procs'[i] == UNUSED;
  }

  /** A size up to SHM_VA leaves nothing to lose. */
  lemma StrayBelow(s: State, procs: seq<Proc>, i: nat)
    requires i < |procs| && (procs[i].pagetable != 0 ==> procs[i].pagetable in s.maps && MapOk(s, procs[i]))
    ensures procs[i].sz <= SHM * PGSIZE && procs[i].pagetable != 0 ==> Stray(s, procs[i].pagetable) == multiset{}
  {
    SizeAboveShm(procs[i].sz);
  }

  /** The order of a tear-down names every process. */
  ghost predicate Named(procs: seq<Proc>, order: seq<nat>) {
    forall i {:trigger procs[i]} :: 0 <= i < |procs| && procs[i].used ==> i in order
  }

  lemma NamedNext(procs: seq<Proc>, procs': seq<Proc>, order: seq<nat>, k: nat)
    requires k < |order| && Named(procs, order[k..])
    requires if order[k] < |procs| && procs[order[k]].used then procs' == procs[order[k] := UNUSED] else procs' == procs
    ensures Named(procs', order[k + 1..])
  {
    assert order[k..] == [order[k]] + order[k + 1..];
    forall i | 0 <= i < |procs'| && procs'[i].used ensures i in order[k + 1..] {
      assert procs[i].used;
    }
  }

  lemma AllGone(s: State, procs: seq<Proc>, lost: multiset<nat>, order: seq<nat>)
    requires Consistent(s, procs, lost) && Named(procs, order) && order == []
    ensures Strays(s, procs) == multiset{} && (OnlyShmLeft(s) <==> lost == multiset{})
  {
    forall i | 0 <= i < |procs| ensures procs[i] == UNUSED {
      assert procs[i].used ==> i in order;
    }
    NothingLeaks(s, procs, lost);
    NoStrays(s, procs);
  }
}
