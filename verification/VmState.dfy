/** The value of physical memory together with its ghost bookkeeping, the invariant that ties the two, and
    the steps that kernel/kalloc.c and kernel/vm.c take on them.

    The invariant has six parts: the free list is a chain of unreferenced frames; no unreferenced frame is
    missing from it; the count of a frame is its number of owners; the page tables form one tree per root;
    every mapping has a leaf table and a frame to point to; every slot of every table says what the tree or
    the map says.  A function that is half way through a change exempts the one slot it is about to write.
    Each step comes as a function from state to state and a lemma that it keeps the invariant; the methods of
    module VirtualMemory are proved equal to compositions of these steps. */
module VmState {
  import opened Sv39

  /** A page-table page: the tree it belongs to, its level (2 is the root) and the prefix it serves. */
  datatype Key = Key(root: nat, level: nat, prefix: nat)

  /** `mem`, `refs`, `head` and `shm` are the real memory, the `references` array, `kmem.freelist` and
      `shm_page_pa`.  The rest is ghost: the free list as a sequence with each frame's position in it, the page of
      each table and its inverse, the page map of each root, and for each frame how many references the kernel
      itself holds. */
  datatype State = State(
    mem: seq<Page>, refs: seq<int>, head: nat, end: nat, shm: nat,
    free: seq<nat>, rank: seq<nat>,
    tbl: map<Key, nat>, keyOf: map<nat, Key>,
    maps: map<nat, map<nat, Word>>, holds: seq<int>)

  /** A slot exempt from the link invariant while a function is half way through changing it. */
  type Slot = (nat, nat)

  const NOSLOT: Slot := (0, 0)

  function Child(k: Key, i: nat): Key
    requires k.level > 0
  {
    Key(k.root, k.level - 1, k.prefix * 512 + i)
  }

  function Parent(k: Key): Key {
    Key(k.root, k.level + 1, k.prefix / 512)
  }

  function Root(r: nat): Key {
    Key(r, 2, 0)
  }

  /** A mapping of page v to frame p owns a reference to the frame: it lies below the trapframe and is not one of
      the shm page, which the kernel keeps for itself. */
  predicate Owning(shm: nat, v: nat, p: nat) {
    v < TRAPFRAME && p != shm
  }

  /** The mappings that own a reference to a frame. */
  ghost function Owners(maps: map<nat, map<nat, Word>>, shm: nat, p: nat): set<(nat, nat)> {
    set r, v | r in maps && v in maps[r] && Owning(shm, v, p) && maps[r][v].ppn == p :: (r, v)
  }

  predicate InRange(s: State, p: int) {
    s.end <= p < |s.mem|
  }

  /** The frame linked from position k of the free list, or the null pointer; the head is the last position. */
  function Next(free: seq<nat>, k: nat): nat
    requires k <= |free|
  {
    if k == 0 then 0 else free[k - 1]
  }

  ghost predicate FreeOk(s: State, k: nat)
    requires |s.mem| == |s.refs| == |s.rank| && k < |s.free|
  {
    var p := s.free[k];
    InRange(s, p) && s.refs[p] == 0 && s.rank[p] == k && s.mem[p][0] == Word(Next(s.free, k), NONE)
  }

  /** The free list is a chain of unreferenced frames, threaded through their first words, in which the
      frame at position k has rank k and so occurs once. */
  ghost predicate AllocInv(s: State) {
    && |s.mem| == |s.refs| == |s.holds| == |s.rank|
    && 0 < s.end <= |s.mem|
    && s.head == Next(s.free, |s.free|)
    && (forall k {:trigger FreeOk(s, k)} :: 0 <= k < |s.free| ==> FreeOk(s, k))
    && (forall p {:trigger s.refs[p]} :: InRange(s, p) ==> s.refs[p] >= 0)
  }

  predicate IsFree(s: State, p: nat)
    requires p < |s.rank|
  {
    s.rank[p] < |s.free| && s.free[s.rank[p]] == p
  }

  /** Every frame whose count is 0 is on the free list. */
  ghost predicate NoLeak(s: State)
    requires |s.refs| == |s.rank|
  {
    forall p {:trigger IsFree(s, p)} :: s.end <= p < |s.refs| && s.refs[p] == 0 ==> IsFree(s, p)
  }

  /** The number of owners of a frame: user mappings, kernel holders, and the one link (or process field)
      that leads to a page-table page. */
  ghost function Count(s: State, p: nat): int
    requires p < |s.holds|
  {
    |Owners(s.maps, s.shm, p)| + s.holds[p] + (if p in s.keyOf then 1 else 0)
  }

  ghost predicate CountOk(s: State, p: nat)
    requires p < |s.refs| == |s.holds|
  {
    s.refs[p] == Count(s, p) && (s.refs[p] == 0 ==> s.holds[p] == 0)
  }

  /** The count of every frame is its number of owners, and a frame with count 0 has none of any kind. */
  ghost predicate CountInv(s: State)
    requires |s.mem| == |s.refs| == |s.holds|
  {
    forall p {:trigger CountOk(s, p)} :: InRange(s, p) ==> CountOk(s, p)
  }

  ghost predicate KeyOk(s: State, k: Key)
    requires k in s.tbl
  {
    && k.level <= 2 && k.root in s.maps && InRange(s, s.tbl[k])
    && s.tbl[k] in s.keyOf && s.keyOf[s.tbl[k]] == k
    && (if k.level == 2 then k.prefix == 0 && s.tbl[k] == k.root else Parent(k) in s.tbl)
  }

  ghost predicate TableOk(s: State, p: nat)
    requires p in s.keyOf
  {
    p < |s.holds| && s.keyOf[p] in s.tbl && s.tbl[s.keyOf[p]] == p && s.holds[p] == 0
  }

  /** The page-table pages form one tree per root, and no page serves two tables. */
  ghost predicate TreeInv(s: State) {
    && (forall k {:trigger KeyOk(s, k)} :: k in s.tbl ==> KeyOk(s, k))
    && (forall p {:trigger TableOk(s, p)} :: p in s.keyOf ==> TableOk(s, p))
    && (forall r {:trigger Root(r)} :: r in s.maps ==> Root(r) in s.tbl)
  }

  ghost predicate MappedOk(s: State, r: nat, v: nat)
    requires r in s.maps && v in s.maps[r]
  {
    var w := s.maps[r][v];
    && v < MAXVPN
    && Leaf(w)
    && Key(r, 0, v / 512) in s.tbl
    && (Owning(s.shm, v, w.ppn) ==> InRange(s, w.ppn) && w.ppn !in s.keyOf)
    && (v < SHM ==> w.ppn != s.shm)
  }

  ghost predicate MapInv(s: State) {
    forall r, v {:trigger MappedOk(s, r, v)} ::
      r in s.maps && v in s.maps[r] ==> MappedOk(s, r, v)
  }

  /** A slot of a table agrees with the ghost tree (levels 2 and 1) or the ghost map (level 0): it is zero if
      nothing is there. */
  ghost predicate SlotOk(s: State, k: Key, i: nat, w: Word) {
    if k.level > 0 then
      w == if Child(k, i) in s.tbl then Word(s.tbl[Child(k, i)], Flags(true, false, false, false, false, 0)) else ZERO
    else
      && k.root in s.maps
      && var v := k.prefix * 512 + i;
         if v in s.maps[k.root] then w.flags.v && w == s.maps[k.root][v] else w == ZERO
  }

  ghost predicate Links(s: State, hole: Slot) {
    forall k, i {:trigger SlotOk(s, k, i, s.mem[s.tbl[k]][i])} ::
      k in s.tbl && s.tbl[k] < |s.mem| && 0 <= i < PTES && (s.tbl[k], i) != hole ==>
        SlotOk(s, k, i, s.mem[s.tbl[k]][i])
  }

  ghost predicate Inv(s: State, hole: Slot) {
    AllocInv(s) && NoLeak(s) && CountInv(s) && TreeInv(s) && MapInv(s) && Links(s, hole)
  }

  /** Kernel holders are never negative between operations. */
  ghost predicate HoldsOk(s: State) {
    forall p :: 0 <= p < |s.holds| ==> s.holds[p] >= 0
  }

  // ---------------------------------------------------------------- the allocator's steps

  ghost function AfterKalloc(s: State): State
    requires AllocInv(s) && s.free != []
  {
    var n := |s.free| - 1;
    assert FreeOk(s, n);
    var p := s.free[n];
    s.(mem := s.mem[p := Fill(ALLOCJUNK)], refs := s.refs[p := 1], head := Next(s.free, n),
       free := s.free[..n], holds := s.holds[p := s.holds[p] + 1])
  }

  ghost function AfterKfree(s: State, p: nat): State
    requires AllocInv(s) && InRange(s, p)
  {
    if s.refs[p] > 1 then
      s.(refs := s.refs[p := s.refs[p] - 1], holds := s.holds[p := s.holds[p] - 1])
    else
      s.(mem := s.mem[p := Fill(FREEJUNK)[0 := Word(s.head, NONE)]], refs := s.refs[p := 0], head := p,
         free := s.free + [p], rank := s.rank[p := |s.free|], holds := s.holds[p := s.holds[p] - s.refs[p]])
  }

  ghost function AfterKaddref(s: State, p: nat): State
    requires AllocInv(s) && InRange(s, p)
  {
    s.(refs := s.refs[p := s.refs[p] + 1], holds := s.holds[p := s.holds[p] + 1])
  }

  lemma KallocAllocInv(s: State)
    requires AllocInv(s) && s.free != []
    ensures AllocInv(AfterKalloc(s))
    ensures NoLeak(s) ==> NoLeak(AfterKalloc(s))
  {
    var s' := AfterKalloc(s);
    assert FreeOk(s, |s.free| - 1);
    forall k | 0 <= k < |s'.free| ensures FreeOk(s', k) {
      assert FreeOk(s, k);
    }
    if NoLeak(s) {
      forall p | s'.end <= p < |s'.refs| && s'.refs[p] == 0 ensures IsFree(s', p) {
        assert IsFree(s, p);
      }
    }
  }

  lemma KfreeAllocInv(s: State, p: nat)
    requires AllocInv(s) && InRange(s, p) && !IsFree(s, p)
    ensures AllocInv(AfterKfree(s, p))
    ensures NoLeak(s) ==> NoLeak(AfterKfree(s, p))
  {
    var s' := AfterKfree(s, p);
    forall k | 0 <= k < |s'.free| ensures FreeOk(s', k) {
      if k < |s.free| {
        assert FreeOk(s, k);
      }
    }
    if NoLeak(s) {
      forall q | s'.end <= q < |s'.refs| && s'.refs[q] == 0 ensures IsFree(s', q) {
        if q != p {
          assert IsFree(s, q);
          assert FreeOk(s, s.rank[q]);
        }
      }
    }
  }

  /** The tree, map and link invariants only depend on the page-table pages. */
  lemma TablesFrame(s: State, s': State, hole: Slot)
    requires |s.mem| == |s.holds| == |s'.mem| == |s'.holds| && s'.end == s.end && s'.shm == s.shm
    requires s'.tbl == s.tbl && s'.keyOf == s.keyOf && s'.maps == s.maps
    requires TreeInv(s) && MapInv(s) && Links(s, hole)
    requires forall p {:trigger p in s.keyOf} :: p in s.keyOf && p < |s.mem| ==>
               s'.mem[p] == s.mem[p] && s'.holds[p] == s.holds[p]
    ensures TreeInv(s') && MapInv(s') && Links(s', hole)
  {
    forall k | k in s.tbl ensures KeyOk(s', k) {
      assert KeyOk(s, k);
    }
    forall p | p in s.keyOf ensures TableOk(s', p) {
      assert TableOk(s, p);
    }
    forall r, v | r in s.maps && v in s.maps[r] ensures MappedOk(s', r, v) {
      assert MappedOk(s, r, v);
    }
    forall k, i | k in s'.tbl && s'.tbl[k] < |s'.mem| && 0 <= i < PTES && (s'.tbl[k], i) != hole
      ensures SlotOk(s', k, i, s'.mem[s'.tbl[k]][i])
    {
      assert SlotOk(s, k, i, s.mem[s.tbl[k]][i]);
    }
  }

  /** Page-table pages and the shm page have no owner among the user mappings. */
  lemma NoOwners(s: State, p: nat)
    requires MapInv(s) && (p in s.keyOf || p == s.shm)
    ensures Owners(s.maps, s.shm, p) == {}
  {
    forall r, v | r in s.maps && v in s.maps[r] && Owning(s.shm, v, p) ensures s.maps[r][v].ppn != p {
      assert MappedOk(s, r, v);
    }
  }

  /** The allocator's invariant only depends on the counts and on the contents of the free frames. */
  lemma AllocFrame(s: State, s': State)
    requires AllocInv(s) && NoLeak(s)
    requires |s'.mem| == |s.mem| && |s'.holds| == |s.holds| && s'.end == s.end
    requires s'.refs == s.refs && s'.head == s.head && s'.free == s.free && s'.rank == s.rank
    requires forall p {:trigger s'.mem[p]} :: InRange(s, p) && s.refs[p] == 0 ==> s'.mem[p] == s.mem[p]
    ensures AllocInv(s') && NoLeak(s')
  {
    forall k | 0 <= k < |s'.free| ensures FreeOk(s', k) {
      assert FreeOk(s, k);
    }
    forall q | s'.end <= q < |s'.refs| && s'.refs[q] == 0 ensures IsFree(s', q) {
      assert IsFree(s, q);
    }
  }

  lemma TableRefs(s: State, p: nat, hole: Slot)
    requires Inv(s, hole) && p in s.keyOf
    ensures InRange(s, p) && s.refs[p] == 1 && !IsFree(s, p) && s.holds[p] == 0
  {
    NoOwners(s, p);
    assert TableOk(s, p) && KeyOk(s, s.keyOf[p]);
    assert CountOk(s, p);
    assert s.rank[p] < |s.free| ==> FreeOk(s, s.rank[p]);
  }

  lemma KallocInv(s: State, hole: Slot)
    requires Inv(s, hole) && s.free != []
    ensures Inv(AfterKalloc(s), hole) && InRange(s, s.head) && s.head !in s.keyOf
    ensures s.refs[s.head] == 0 && Owners(s.maps, s.shm, s.head) == {} && s.holds[s.head] == 0
  {
    var p, s' := s.head, AfterKalloc(s);
    KallocAllocInv(s);
    assert FreeOk(s, |s.free| - 1);
    if p in s.keyOf {
      TableRefs(s, p, hole);
    }
    assert CountOk(s, p);
    forall q | InRange(s', q) ensures CountOk(s', q) {
      assert CountOk(s, q);
    }
    TablesFrame(s, s', hole);
  }

  /** Returning a reference: the last one may only be returned by a kernel holder. */
  lemma KfreeInv(s: State, p: nat, hole: Slot)
    requires Inv(s, hole) && InRange(s, p) && s.refs[p] > 0 && p !in s.keyOf
    requires s.refs[p] == 1 ==> s.holds[p] == 1
    ensures !IsFree(s, p) && Inv(AfterKfree(s, p), hole)
  {
    var s' := AfterKfree(s, p);
    assert s.rank[p] < |s.free| ==> FreeOk(s, s.rank[p]);
    KfreeAllocInv(s, p);
    forall q | InRange(s', q) ensures CountOk(s', q) {
      assert CountOk(s, q);
    }
    TablesFrame(s, s', hole);
  }

  lemma KaddrefInv(s: State, p: nat, hole: Slot)
    requires Inv(s, hole) && InRange(s, p) && s.refs[p] > 0 && p !in s.keyOf
    ensures Inv(AfterKaddref(s, p), hole)
  {
    var s' := AfterKaddref(s, p);
    forall k | 0 <= k < |s'.free| ensures FreeOk(s', k) {
      assert FreeOk(s, k);
    }
    forall q | s'.end <= q < |s'.refs| && s'.refs[q] == 0 ensures IsFree(s', q) {
      assert IsFree(s, q);
    }
    forall q | InRange(s', q) ensures CountOk(s', q) {
      assert CountOk(s, q);
    }
    TablesFrame(s, s', hole);
  }

  // ---------------------------------------------------------------- steps on the page tables

  lemma ChildInjective(k: Key, i: nat, k': Key, i': nat)
    requires k.level > 0 && k'.level > 0 && i < PTES && i' < PTES
    ensures Child(k, i) == Child(k', i') <==> k == k' && i == i'
    ensures Parent(Child(k, i)) == k
  {
  }

  /** Writing an ordinary word into a page that is not a table, and is in use. */
  ghost function WithPage(s: State, p: nat, page: Page): State
    requires p < |s.mem|
  {
    s.(mem := s.mem[p := page])
  }

  lemma WithPageInv(s: State, p: nat, page: Page, hole: Slot)
    requires Inv(s, hole) && InRange(s, p) && s.refs[p] > 0 && p !in s.keyOf
    ensures Inv(WithPage(s, p, page), hole)
  {
    var s' := WithPage(s, p, page);
    AllocFrame(s, s');
    forall q | InRange(s', q) ensures CountOk(s', q) {
      assert CountOk(s, q);
    }
    TablesFrame(s, s', hole);
  }

  ghost function WithSlot(s: State, k: Key, i: nat, w: Word): State
    requires k in s.tbl && s.tbl[k] < |s.mem| && i < PTES
  {
    s.(mem := s.mem[s.tbl[k] := s.mem[s.tbl[k]][i := w]])
  }

  /** Storing the word that the ghost tree expects closes the exempt slot. */
  lemma WithSlotInv(s: State, k: Key, i: nat, w: Word)
    requires k in s.tbl && i < PTES && Inv(s, (s.tbl[k], i)) && SlotOk(s, k, i, w)
    ensures s.tbl[k] < |s.mem| && Inv(WithSlot(s, k, i, w), NOSLOT)
  {
    assert KeyOk(s, k);
    var t := s.tbl[k];
    var s' := WithSlot(s, k, i, w);
    TableRefs(s, t, (t, i));
    AllocFrame(s, s');
    forall q | InRange(s', q) ensures CountOk(s', q) {
      assert CountOk(s, q);
    }
    WithSlotTables(s, k, i, w);
  }

  lemma WithSlotTables(s: State, k: Key, i: nat, w: Word)
    requires k in s.tbl && i < PTES && SlotOk(s, k, i, w) && s.tbl[k] < |s.mem| == |s.holds|
    requires TreeInv(s) && MapInv(s) && Links(s, (s.tbl[k], i))
    ensures var s' := WithSlot(s, k, i, w); TreeInv(s') && MapInv(s') && Links(s', NOSLOT)
  {
    var s' := WithSlot(s, k, i, w);
    forall j | j in s.tbl ensures KeyOk(s', j) {
      assert KeyOk(s, j);
    }
    forall p | p in s.keyOf ensures TableOk(s', p) {
      assert TableOk(s, p);
    }
    forall r, v | r in s.maps && v in s.maps[r] ensures MappedOk(s', r, v) {
      assert MappedOk(s, r, v);
    }
    forall j, n | j in s'.tbl && s'.tbl[j] < |s'.mem| && 0 <= n < PTES && (s'.tbl[j], n) != NOSLOT
      ensures SlotOk(s', j, n, s'.mem[s'.tbl[j]][n])
    {
      WrittenSlot(s, k, i, w, j, n);
    }
  }

  lemma WrittenSlot(s: State, k: Key, i: nat, w: Word, j: Key, n: nat)
    requires k in s.tbl && i < PTES && SlotOk(s, k, i, w) && s.tbl[k] < |s.mem| == |s.holds|
    requires TreeInv(s) && Links(s, (s.tbl[k], i)) && j in s.tbl && s.tbl[j] < |s.mem| && n < PTES
    ensures var s' := WithSlot(s, k, i, w); SlotOk(s', j, n, s'.mem[s'.tbl[j]][n])
  {
    assert KeyOk(s, j) && KeyOk(s, k);
    if j != k || n != i {
      assert SlotOk(s, j, n, s.mem[s.tbl[j]][n]);
    }
  }

  /** A zeroed kernel-held page becomes the table below slot i of table k; the slot still has to be written. */
  ghost function AddTable(s: State, k: Key, i: nat, p: nat): State
    requires k.level > 0 && p < |s.holds|
  {
    s.(tbl := s.tbl[Child(k, i) := p], keyOf := s.keyOf[p := Child(k, i)], holds := s.holds[p := 0])
  }

  lemma AddTableInv(s: State, k: Key, i: nat, p: nat)
    requires Inv(s, NOSLOT) && k in s.tbl && k.level > 0 && i < PTES && Child(k, i) !in s.tbl
    requires InRange(s, p) && p !in s.keyOf && s.holds[p] == 1 && Owners(s.maps, s.shm, p) == {}
    requires s.mem[p] == Fill(ZERO)
    ensures Inv(AddTable(s, k, i, p), (s.tbl[k], i))
  {
    var s' := AddTable(s, k, i, p);
    AllocFrame(s, s');
    forall q | InRange(s', q) ensures CountOk(s', q) {
      assert CountOk(s, q);
    }
    AddTableTables(s, k, i, p);
  }

  lemma AddTableTables(s: State, k: Key, i: nat, p: nat)
    requires TreeInv(s) && MapInv(s) && Links(s, NOSLOT) && 0 < s.end && |s.mem| == |s.holds|
    requires k in s.tbl && k.level > 0 && i < PTES && Child(k, i) !in s.tbl
    requires InRange(s, p) && p !in s.keyOf && Owners(s.maps, s.shm, p) == {} && s.mem[p] == Fill(ZERO)
    ensures var s' := AddTable(s, k, i, p); TreeInv(s') && MapInv(s') && Links(s', (s.tbl[k], i))
  {
    var s', c := AddTable(s, k, i, p), Child(k, i);
    assert KeyOk(s, k);
    forall j | j in s'.tbl ensures KeyOk(s', j) {
      if j == c {
        ChildInjective(k, i, k, i);
      } else {
        assert KeyOk(s, j);
      }
    }
    forall q | q in s'.keyOf ensures TableOk(s', q) {
      if q != p {
        assert TableOk(s, q);
      }
    }
    forall r, v | r in s'.maps && v in s'.maps[r] ensures MappedOk(s', r, v) {
      assert MappedOk(s, r, v);
      assert Owning(s.shm, v, p) && s.maps[r][v].ppn == p ==> (r, v) in Owners(s.maps, s.shm, p);
    }
    forall j, n | j in s'.tbl && s'.tbl[j] < |s'.mem| && 0 <= n < PTES && (s'.tbl[j], n) != (s.tbl[k], i)
      ensures SlotOk(s', j, n, s'.mem[s'.tbl[j]][n])
    {
      AddTableSlot(s, k, i, p, j, n);
    }
  }

  lemma HasParent(s: State, k: Key)
    requires TreeInv(s)
    ensures k in s.tbl && k.level < 2 ==> Parent(k) in s.tbl
  {
    if k in s.tbl {
      assert KeyOk(s, k);
    }
  }

  lemma HasLeafTable(s: State, r: nat, v: nat)
    requires MapInv(s) && r in s.maps
    ensures v in s.maps[r] ==> Key(r, 0, v / 512) in s.tbl
  {
    if v in s.maps[r] {
      assert MappedOk(s, r, v);
    }
  }

  lemma AddTableSlot(s: State, k: Key, i: nat, p: nat, j: Key, n: nat)
    requires TreeInv(s) && MapInv(s) && Links(s, NOSLOT) && 0 < s.end && |s.mem| == |s.holds| && p < |s.mem|
    requires k in s.tbl && k.level > 0 && i < PTES && Child(k, i) !in s.tbl && s.mem[p] == Fill(ZERO)
    requires j in AddTable(s, k, i, p).tbl && n < PTES && (j, n) != (k, i)
    ensures var s' := AddTable(s, k, i, p); s'.tbl[j] < |s'.mem| && SlotOk(s', j, n, s'.mem[s'.tbl[j]][n])
  {
    var c := Child(k, i);
    assert KeyOk(s, k);
    if j == c {
      if c.level > 0 {
        ChildInjective(c, n, c, n);
        HasParent(s, Child(c, n));
      } else {
        HasLeafTable(s, c.root, c.prefix * 512 + n);
      }
    } else {
      assert KeyOk(s, j);
      assert SlotOk(s, j, n, s.mem[s.tbl[j]][n]);
      if j.level > 0 {
        ChildInjective(j, n, k, i);
      }
    }
  }

  /** A table with nothing below it leaves the tree; its page becomes a kernel-held page, still linked from
      the parent's slot. */
  ghost function DropTable(s: State, k: Key): State
    requires k in s.tbl && s.tbl[k] < |s.holds|
  {
    s.(tbl := s.tbl - {k}, keyOf := s.keyOf - {s.tbl[k]}, holds := s.holds[s.tbl[k] := 1])
  }

  ghost function ParentSlot(s: State, k: Key): Slot {
    if Parent(k) in s.tbl then (s.tbl[Parent(k)], k.prefix % 512) else NOSLOT
  }

  /** No mapping of the root passes through the table. */
  ghost predicate Unused(maps: map<nat, map<nat, Word>>, k: Key) {
    k.root in maps && forall v {:trigger v in maps[k.root]} :: v in maps[k.root] ==> Prefix(k.level, v) != k.prefix
  }

  ghost predicate NoChildren(s: State, k: Key) {
    k.level > 0 ==> forall i {:trigger Child(k, i)} :: 0 <= i < PTES ==> Child(k, i) !in s.tbl
  }

  lemma DropTableInv(s: State, k: Key)
    requires Inv(s, NOSLOT) && k in s.tbl && k.level < 2 && Unused(s.maps, k) && NoChildren(s, k)
    ensures InRange(s, s.tbl[k]) && s.refs[s.tbl[k]] == 1
    ensures Inv(DropTable(s, k), ParentSlot(s, k))
  {
    assert KeyOk(s, k);
    var p := s.tbl[k];
    TableRefs(s, p, NOSLOT);
    var s' := DropTable(s, k);
    AllocFrame(s, s');
    forall q | InRange(s', q) ensures CountOk(s', q) {
      assert CountOk(s, q);
    }
    DropTableTables(s, k);
  }

  lemma DropTableTables(s: State, k: Key)
    requires TreeInv(s) && MapInv(s) && Links(s, NOSLOT) && 0 < s.end && |s.mem| == |s.holds|
    requires k in s.tbl && s.tbl[k] < |s.holds| && k.level < 2 && Unused(s.maps, k) && NoChildren(s, k)
    ensures var s' := DropTable(s, k); TreeInv(s') && MapInv(s') && Links(s', ParentSlot(s, k))
  {
    var s' := DropTable(s, k);
    assert KeyOk(s, k);
    forall j | j in s'.tbl ensures KeyOk(s', j) {
      assert KeyOk(s, j);
      assert k.level > 0 ==> Child(k, j.prefix % 512) !in s.tbl;
    }
    forall q | q in s'.keyOf ensures TableOk(s', q) {
      assert TableOk(s, q);
    }
    forall r, v | r in s'.maps && v in s'.maps[r] ensures MappedOk(s', r, v) {
      assert MappedOk(s, r, v);
    }
    forall j, n | j in s'.tbl && s'.tbl[j] < |s'.mem| && 0 <= n < PTES && (s'.tbl[j], n) != ParentSlot(s, k)
      ensures SlotOk(s', j, n, s'.mem[s'.tbl[j]][n])
    {
      assert KeyOk(s, j);
      assert SlotOk(s, j, n, s.mem[s.tbl[j]][n]);
      if j.level > 0 && Child(j, n) == k {
        ChildInjective(j, n, j, n);
      }
    }
  }

  /** A zeroed kernel-held page becomes the root of a new, empty tree. */
  ghost function AddRoot(s: State, r: nat): State
    requires r < |s.holds|
  {
    s.(tbl := s.tbl[Root(r) := r], keyOf := s.keyOf[r := Root(r)], maps := s.maps[r := map[]],
       holds := s.holds[r := 0])
  }

  lemma NewRootOwners(s: State, r: nat, p: nat)
    requires r !in s.maps
    ensures Owners(s.maps[r := map[]], s.shm, p) == Owners(s.maps, s.shm, p)
  {
  }

  lemma AddRootInv(s: State, r: nat)
    requires Inv(s, NOSLOT) && InRange(s, r) && r !in s.keyOf
    requires s.holds[r] == 1 && Owners(s.maps, s.shm, r) == {} && s.mem[r] == Fill(ZERO)
    ensures r !in s.maps && Inv(AddRoot(s, r), NOSLOT)
  {
    assert r in s.maps ==> Root(r) in s.tbl && KeyOk(s, Root(r));
    var s' := AddRoot(s, r);
    AllocFrame(s, s');
    forall q | InRange(s', q) ensures CountOk(s', q) {
      assert CountOk(s, q);
      NewRootOwners(s, r, q);
    }
    forall j | j in s'.tbl ensures KeyOk(s', j) {
      if j != Root(r) {
        assert KeyOk(s, j);
      }
    }
    AddRootTables(s, r);
  }

  lemma AddRootTables(s: State, r: nat)
    requires TreeInv(s) && MapInv(s) && Links(s, NOSLOT) && 0 < s.end && |s.mem| == |s.holds|
    requires InRange(s, r) && r !in s.maps && r !in s.keyOf && Owners(s.maps, s.shm, r) == {} && s.mem[r] == Fill(ZERO)
    ensures var s' := AddRoot(s, r); TreeInv(s') && MapInv(s') && Links(s', NOSLOT)
  {
    var s' := AddRoot(s, r);
    forall j | j in s'.tbl ensures KeyOk(s', j) {
      assert j != Root(r) ==> KeyOk(s, j);
    }
    forall q | q in s'.keyOf ensures TableOk(s', q) {
      assert q != r ==> TableOk(s, q) && KeyOk(s, s.keyOf[q]);
    }
    forall t, v | t in s'.maps && v in s'.maps[t] ensures MappedOk(s', t, v) {
      assert MappedOk(s, t, v);
      assert Owning(s.shm, v, r) && s.maps[t][v].ppn == r ==> (t, v) in Owners(s.maps, s.shm, r);
    }
    forall j, n | j in s'.tbl && s'.tbl[j] < |s'.mem| && 0 <= n < PTES && (s'.tbl[j], n) != NOSLOT
      ensures SlotOk(s', j, n, s'.mem[s'.tbl[j]][n])
    {
      if j == Root(r) {
        assert Child(j, n) in s.tbl ==> KeyOk(s, Child(j, n));
      } else {
        assert KeyOk(s, j);
        assert SlotOk(s, j, n, s.mem[s.tbl[j]][n]);
      }
    }
  }

  /** A root with nothing below it disappears; its page becomes a kernel-held page. */
  ghost function DropRoot(s: State, r: nat): State
    requires r < |s.holds|
  {
    s.(tbl := s.tbl - {Root(r)}, keyOf := s.keyOf - {r}, maps := s.maps - {r}, holds := s.holds[r := 1])
  }

  lemma DropRootInv(s: State, r: nat)
    requires Inv(s, NOSLOT) && r in s.maps && s.maps[r] == map[] && NoChildren(s, Root(r))
    ensures InRange(s, r) && s.refs[r] == 1 && Root(r) in s.tbl && s.tbl[Root(r)] == r
    ensures Inv(DropRoot(s, r), NOSLOT)
  {
    assert Root(r) in s.tbl && KeyOk(s, Root(r));
    TableRefs(s, r, NOSLOT);
    var s' := DropRoot(s, r);
    AllocFrame(s, s');
    forall q | InRange(s', q) ensures CountOk(s', q) {
      assert CountOk(s, q);
      assert Owners(s'.maps, s'.shm, q) == Owners(s.maps, s.shm, q);
    }
    DropRootTables(s, r);
  }

  lemma DropRootTables(s: State, r: nat)
    requires TreeInv(s) && MapInv(s) && Links(s, NOSLOT) && 0 < s.end && |s.mem| == |s.holds| && r < |s.holds|
    requires r in s.maps && s.maps[r] == map[] && NoChildren(s, Root(r))
    ensures var s' := DropRoot(s, r); TreeInv(s') && MapInv(s') && Links(s', NOSLOT)
  {
    var s' := DropRoot(s, r);
    assert Root(r) in s.tbl && KeyOk(s, Root(r));
    forall j | j in s'.tbl ensures KeyOk(s', j) {
      assert KeyOk(s, j);
      OnlyRoot(s, r, j);
    }
    forall q | q in s'.keyOf ensures TableOk(s', q) {
      assert TableOk(s, q);
    }
    forall t, v | t in s'.maps && v in s'.maps[t] ensures MappedOk(s', t, v) {
      assert MappedOk(s, t, v);
      assert t != r;
    }
    forall j, n | j in s'.tbl && s'.tbl[j] < |s'.mem| && 0 <= n < PTES && (s'.tbl[j], n) != NOSLOT
      ensures SlotOk(s', j, n, s'.mem[s'.tbl[j]][n])
    {
      assert KeyOk(s, j);
      OnlyRoot(s, r, j);
      assert SlotOk(s, j, n, s.mem[s.tbl[j]][n]);
    }
  }

  /** A root without children is the only table of its tree. */
  lemma OnlyRoot(s: State, r: nat, j: Key)
    requires TreeInv(s) && NoChildren(s, Root(r)) && j in s.tbl
    ensures j.root == r ==> j == Root(r)
  {
    assert KeyOk(s, j);
    assert j.level < 2 ==> KeyOk(s, Parent(j));
    assert j.level == 0 ==> KeyOk(s, Parent(Parent(j)));
    var i := if j.level == 1 then j.prefix else Parent(j).prefix;
    assert i < PTES ==> Child(Root(r), i) !in s.tbl;
  }

  // ---------------------------------------------------------------- mapping and unmapping one page

  function LeafKey(r: nat, v: nat): Key {
    Key(r, 0, v / 512)
  }

  ghost function LeafSlot(s: State, r: nat, v: nat): Slot
    requires LeafKey(r, v) in s.tbl
  {
    (s.tbl[LeafKey(r, v)], v % 512)
  }

  function Bind(maps: map<nat, map<nat, Word>>, r: nat, v: nat, w: Word): map<nat, map<nat, Word>>
    requires r in maps
  {
    var m: map<nat, Word> := maps[r][v := w];
    maps[r := m]
  }

  function Unbind(maps: map<nat, map<nat, Word>>, r: nat, v: nat): map<nat, map<nat, Word>>
    requires r in maps
  {
    maps[r := maps[r] - {v}]
  }

  /** Adding d to the kernel's references to a frame, if the mapping owns a reference at all. */
  function Transfer(holds: seq<int>, shm: nat, v: nat, p: nat, d: int): seq<int> {
    if Owning(shm, v, p) && p < |holds| then holds[p := holds[p] + d] else holds
  }

  /** A kernel reference to the frame of w becomes the user mapping of page v; the slot still has to be
      written. */
  ghost function AddLeaf(s: State, r: nat, v: nat, w: Word): State
    requires r in s.maps
  {
    s.(maps := Bind(s.maps, r, v, w), holds := Transfer(s.holds, s.shm, v, w.ppn, -1))
  }

  ghost predicate CanMap(s: State, r: nat, v: nat, w: Word)
    requires |s.refs| == |s.mem|
  {
    r in s.maps && v !in s.maps[r] && Mappable(s, v, w)
  }

  /** What a caller of mappages must see to: the mapping is a leaf, and a frame that it owns is in use. */
  ghost predicate Mappable(s: State, v: nat, w: Word)
    requires |s.refs| == |s.mem|
  {
    && v < MAXVPN && Leaf(w)
    && (Owning(s.shm, v, w.ppn) ==> InRange(s, w.ppn) && w.ppn !in s.keyOf && s.refs[w.ppn] > 0)
    && (v < SHM ==> w.ppn != s.shm)
  }

  lemma OwnersAdd(maps: map<nat, map<nat, Word>>, shm: nat, r: nat, v: nat, w: Word, p: nat)
    requires r in maps && v !in maps[r]
    ensures var maps' := Bind(maps, r, v, w);
      |Owners(maps', shm, p)| == |Owners(maps, shm, p)| + (if Owning(shm, v, p) && w.ppn == p then 1 else 0)
  {
    var before, after := Owners(maps, shm, p), Owners(Bind(maps, r, v, w), shm, p);
    var added := Owning(shm, v, p) && w.ppn == p;
    forall x: (nat, nat) ensures x in after <==> x in before || (x == (r, v) && added) {
    }
    OneMore(before, after, (r, v), added);
  }

  lemma OneMore(a: set<(nat, nat)>, b: set<(nat, nat)>, x: (nat, nat), added: bool)
    requires x !in a && forall y: (nat, nat) {:trigger y in b} :: y in b <==> y in a || (y == x && added)
    ensures |b| == |a| + if added then 1 else 0
  {
    assert b == a + if added then {x} else {};
  }

  lemma AddLeafInv(s: State, r: nat, v: nat, w: Word)
    requires Inv(s, NOSLOT) && CanMap(s, r, v, w) && LeafKey(r, v) in s.tbl
    ensures Inv(AddLeaf(s, r, v, w), LeafSlot(s, r, v))
    ensures SlotOk(AddLeaf(s, r, v, w), LeafKey(r, v), v % 512, w)
  {
    var s' := AddLeaf(s, r, v, w);
    AllocFrame(s, s');
    forall q | InRange(s', q) ensures CountOk(s', q) {
      assert CountOk(s, q);
      OwnersAdd(s.maps, s.shm, r, v, w, q);
    }
    AddLeafTables(s, r, v, w);
  }

  lemma AddLeafTables(s: State, r: nat, v: nat, w: Word)
    requires TreeInv(s) && MapInv(s) && Links(s, NOSLOT) && 0 < s.end && |s.mem| == |s.holds| == |s.refs|
    requires CanMap(s, r, v, w) && LeafKey(r, v) in s.tbl
    ensures var s' := AddLeaf(s, r, v, w); TreeInv(s') && MapInv(s') && Links(s', LeafSlot(s, r, v))
  {
    var s' := AddLeaf(s, r, v, w);
    forall j | j in s'.tbl ensures KeyOk(s', j) {
      assert KeyOk(s, j);
    }
    forall q | q in s'.keyOf ensures TableOk(s', q) {
      assert TableOk(s, q);
    }
    forall t, u | t in s'.maps && u in s'.maps[t] ensures MappedOk(s', t, u) {
      assert (t, u) != (r, v) ==> MappedOk(s, t, u);
    }
    assert forall t :: t in s'.maps ==> Root(t) in s'.tbl;
    forall j, n | j in s'.tbl && s'.tbl[j] < |s'.mem| && 0 <= n < PTES && (s'.tbl[j], n) != LeafSlot(s, r, v)
      ensures SlotOk(s', j, n, s'.mem[s'.tbl[j]][n])
    {
      assert KeyOk(s, j);
      AddLeafSlot(s, r, v, w, j, n);
    }
  }

  lemma AddLeafSlot(s: State, r: nat, v: nat, w: Word, j: Key, n: nat)
    requires Links(s, NOSLOT) && r in s.maps && LeafKey(r, v) in s.tbl && j in s.tbl && s.tbl[j] < |s.mem|
    requires n < PTES && (s.tbl[j], n) != LeafSlot(s, r, v) && s.tbl[j] > 0
    ensures SlotOk(AddLeaf(s, r, v, w), j, n, s.mem[s.tbl[j]][n])
  {
    assert SlotOk(s, j, n, s.mem[s.tbl[j]][n]);
  }

  /** The user mapping of page v becomes a kernel reference to its frame; the slot still has to be cleared. */
  ghost function DropLeaf(s: State, r: nat, v: nat): State
    requires r in s.maps && v in s.maps[r]
  {
    s.(maps := Unbind(s.maps, r, v), holds := Transfer(s.holds, s.shm, v, s.maps[r][v].ppn, 1))
  }

  lemma OwnersDrop(maps: map<nat, map<nat, Word>>, shm: nat, r: nat, v: nat, p: nat)
    requires r in maps && v in maps[r]
    ensures var maps' := Unbind(maps, r, v);
      |Owners(maps', shm, p)| == |Owners(maps, shm, p)| - (if Owning(shm, v, p) && maps[r][v].ppn == p then 1 else 0)
  {
    var w := maps[r][v];
    assert Bind(Unbind(maps, r, v), r, v, w) == maps by {
      var m: map<nat, Word> := (maps[r] - {v})[v := w];
      assert m == maps[r];
    }
    OwnersAdd(Unbind(maps, r, v), shm, r, v, w, p);
  }

  lemma DropLeafInv(s: State, r: nat, v: nat)
    requires Inv(s, NOSLOT) && r in s.maps && v in s.maps[r]
    ensures LeafKey(r, v) in s.tbl && Inv(DropLeaf(s, r, v), LeafSlot(s, r, v))
    ensures var p := s.maps[r][v].ppn; Owning(s.shm, v, p) ==> InRange(s, p) && p !in s.keyOf && s.refs[p] > 0
  {
    assert MappedOk(s, r, v);
    var s', p := DropLeaf(s, r, v), s.maps[r][v].ppn;
    AllocFrame(s, s');
    if Owning(s.shm, v, p) {
      assert CountOk(s, p);
      OwnersDrop(s.maps, s.shm, r, v, p);
    }
    forall q | InRange(s', q) ensures CountOk(s', q) {
      assert CountOk(s, q);
      OwnersDrop(s.maps, s.shm, r, v, q);
    }
    DropLeafTables(s, r, v);
  }

  lemma DropLeafTables(s: State, r: nat, v: nat)
    requires TreeInv(s) && MapInv(s) && Links(s, NOSLOT) && 0 < s.end && |s.mem| == |s.holds| == |s.refs|
    requires r in s.maps && v in s.maps[r] && LeafKey(r, v) in s.tbl
    ensures var s' := DropLeaf(s, r, v); TreeInv(s') && MapInv(s') && Links(s', LeafSlot(s, r, v))
  {
    var s' := DropLeaf(s, r, v);
    assert MappedOk(s, r, v);
    forall j | j in s'.tbl ensures KeyOk(s', j) {
      assert KeyOk(s, j);
    }
    forall q | q in s'.keyOf ensures TableOk(s', q) {
      assert TableOk(s, q);
    }
    forall t, u | t in s'.maps && u in s'.maps[t] ensures MappedOk(s', t, u) {
      assert MappedOk(s, t, u);
    }
    assert forall t :: t in s'.maps ==> Root(t) in s'.tbl;
    forall j, n | j in s'.tbl && s'.tbl[j] < |s'.mem| && 0 <= n < PTES && (s'.tbl[j], n) != LeafSlot(s, r, v)
      ensures SlotOk(s', j, n, s'.mem[s'.tbl[j]][n])
    {
      assert KeyOk(s, j);
      DropLeafSlot(s, r, v, j, n);
    }
  }

  lemma DropLeafSlot(s: State, r: nat, v: nat, j: Key, n: nat)
    requires Links(s, NOSLOT) && r in s.maps && v in s.maps[r] && LeafKey(r, v) in s.tbl
    requires j in s.tbl && s.tbl[j] < |s.mem| && n < PTES && (s.tbl[j], n) != LeafSlot(s, r, v) && s.tbl[j] > 0
    ensures SlotOk(DropLeaf(s, r, v), j, n, s.mem[s.tbl[j]][n])
  {
    assert SlotOk(s, j, n, s.mem[s.tbl[j]][n]);
  }
}
