/** What the operations of kernel/vm.c do to the maps and tables, as relations between memory states, and
    the composite steps that implement them.

    Keeps and Extends say what growing operations leave alone, Shrinks what is left after shrinking ones;
    the other relations say exactly which mappings, tables and frames have come or gone. */
module PageMaps {
  import opened Sv39
  import opened VmState

  /** Frames in use that are not page-table pages keep their contents, their counts and their role. */
  ghost predicate Keeps(s: State, s': State) {
    && |s.mem| == |s.refs| == |s'.mem| == |s'.refs| && s'.end == s.end && s'.shm == s.shm
    && forall p {:trigger s'.refs[p]} {:trigger s'.mem[p]} {:trigger p in s'.keyOf} ::
         InRange(s, p) && s.refs[p] > 0 && p !in s.keyOf ==>
           s'.refs[p] == s.refs[p] && s'.mem[p] == s.mem[p] && p !in s'.keyOf
  }

  /** Tables are only added, and only to one tree; nothing that was mapped or held is touched. */
  ghost predicate Extends(s: State, s': State, root: nat) {
    && (forall k {:trigger k in s'.tbl} :: k in s.tbl ==> k in s'.tbl && s'.tbl[k] == s.tbl[k])
    && (forall k {:trigger k in s'.tbl} :: k in s'.tbl && k !in s.tbl ==> k.root == root)
    && Keeps(s, s')
  }

  ghost predicate Grows(s: State, s': State, root: nat) {
    s'.maps == s.maps && s'.holds == s.holds && Extends(s, s', root)
  }

  lemma ExtendsTransitive(s: State, s': State, s'': State, root: nat)
    requires Extends(s, s', root) && Extends(s', s'', root)
    ensures Extends(s, s'', root)
  {
    forall p | InRange(s, p) && s.refs[p] > 0 && p !in s.keyOf
      ensures s''.refs[p] == s.refs[p] && s''.mem[p] == s.mem[p] && p !in s''.keyOf
    {
      assert s'.refs[p] == s.refs[p];
    }
    forall k | k in s.tbl ensures k in s''.tbl && s''.tbl[k] == s.tbl[k] {
      assert k in s'.tbl;
    }
  }

  /** Allocating, clearing and linking a table below slot i of table k. */
  ghost function NewTable(s: State, k: Key, i: nat): State
    requires AllocInv(s) && s.free != [] && k in s.tbl && k.level > 0 && s.tbl[k] < |s.mem| && i < PTES
  {
    var p := s.free[|s.free| - 1];
    assert FreeOk(s, |s.free| - 1);
    WithSlot(AddTable(WithPage(AfterKalloc(s), p, Fill(ZERO)), k, i, p), k, i, TableWord(p))
  }

  lemma NewTableInv(s: State, k: Key, i: nat)
    requires Inv(s, NOSLOT) && s.free != [] && k in s.tbl && k.level > 0 && i < PTES && Child(k, i) !in s.tbl
    ensures s.tbl[k] < |s.mem| && Inv(NewTable(s, k, i), NOSLOT) && Grows(s, NewTable(s, k, i), k.root)
  {
    assert KeyOk(s, k) && FreeOk(s, |s.free| - 1);
    var p := s.free[|s.free| - 1];
    KallocInv(s, NOSLOT);
    var s1 := AfterKalloc(s);
    WithPageInv(s1, p, Fill(ZERO), NOSLOT);
    var s2 := WithPage(s1, p, Fill(ZERO));
    AddTableInv(s2, k, i, p);
    var s3 := AddTable(s2, k, i, p);
    WithSlotInv(s3, k, i, TableWord(p));
    TableRefs(s, s.tbl[k], NOSLOT);
  }

  /** Without the table on its path, a page has no leaf table. */
  lemma MissingTable(s: State, k: Key, i: nat, vpn: nat)
    requires TreeInv(s) && k.level > 0 && k.level <= 2 && k.prefix == Prefix(k.level, vpn) && i == PX(k.level, vpn)
    requires Child(k, i) !in s.tbl
    ensures LeafKey(k.root, vpn) !in s.tbl
  {
    var leaf := LeafKey(k.root, vpn);
    PrefixStep(k.level, vpn);
    PrefixStep(0, vpn);
    assert leaf in s.tbl ==> KeyOk(s, leaf);
  }

  // ---------------------------------------------------------------- mapping a range

  function BindRange(maps: map<nat, map<nat, Word>>, r: nat, v: nat, p: nat, f: Flags, n: nat)
    : (m: map<nat, map<nat, Word>>)
    requires r in maps
    ensures r in m
  {
    if n == 0 then maps else Bind(BindRange(maps, r, v, p, f, n - 1), r, v + n - 1, Word(p + n - 1, f))
  }

  function TransferRange(holds: seq<int>, shm: nat, v: nat, p: nat, n: nat, d: int): seq<int> {
    if n == 0 then holds else Transfer(TransferRange(holds, shm, v, p, n - 1, d), shm, v + n - 1, p + n - 1, d)
  }

  /** What a page maps to after a range has been mapped. */
  lemma {:induction false} BindRangeAt(maps: map<nat, map<nat, Word>>, r: nat, v: nat, p: nat, f: Flags, n: nat, u: nat)
    requires r in maps
    ensures var m := BindRange(maps, r, v, p, f, n);
      && (u in m[r] <==> u in maps[r] || v <= u < v + n)
      && (u in m[r] ==> m[r][u] == if v <= u < v + n then Word(p + u - v, f) else maps[r][u])
  {
    if n > 0 {
      BindRangeAt(maps, r, v, p, f, n - 1, u);
    }
  }

  ghost function MapOne(s: State, r: nat, v: nat, w: Word): State
    requires r in s.maps && LeafKey(r, v) in s.tbl && s.tbl[LeafKey(r, v)] < |s.mem|
  {
    WithSlot(AddLeaf(s, r, v, w), LeafKey(r, v), v % 512, w)
  }

  lemma MapOneInv(s: State, r: nat, v: nat, w: Word)
    requires Inv(s, NOSLOT) && CanMap(s, r, v, w) && LeafKey(r, v) in s.tbl
    ensures s.tbl[LeafKey(r, v)] < |s.mem| && !s.mem[s.tbl[LeafKey(r, v)]][v % 512].flags.v
    ensures Inv(MapOne(s, r, v, w), NOSLOT) && Extends(s, MapOne(s, r, v, w), r)
  {
    var k := LeafKey(r, v);
    assert KeyOk(s, k) && SlotOk(s, k, v % 512, s.mem[s.tbl[k]][v % 512]);
    AddLeafInv(s, r, v, w);
    WithSlotInv(AddLeaf(s, r, v, w), k, v % 512, w);
    TableRefs(s, s.tbl[k], NOSLOT);
  }

  ghost predicate MappableAt(s: State, v: nat, p: nat, f: Flags, i: nat)
    requires |s.refs| == |s.mem|
  {
    Mappable(s, v + i, Word(p + i, f))
  }

  ghost predicate Installed(s: State, s': State, r: nat, v: nat, w: Word)
    requires r in s.maps
  {
    s'.maps == Bind(s.maps, r, v, w) && s'.holds == Transfer(s.holds, s.shm, v, w.ppn, -1) && Extends(s, s', r)
  }

  ghost predicate InstalledRange(s: State, s': State, r: nat, v: nat, p: nat, f: Flags, n: nat)
    requires r in s.maps
  {
    && s'.maps == BindRange(s.maps, r, v, p, f, n)
    && s'.holds == TransferRange(s.holds, s.shm, v, p, n, -1)
    && Extends(s, s', r)
  }

  lemma InstalledNext(s: State, s': State, s'': State, r: nat, v: nat, p: nat, f: Flags, n: nat, a: nat, w: Word)
    requires r in s.maps && InstalledRange(s, s', r, v, p, f, n) && Installed(s', s'', r, a, w)
    requires a == v + n && w == Word(p + n, f)
    ensures InstalledRange(s, s'', r, v, p, f, n + 1)
  {
    ExtendsTransitive(s, s', s'', r);
  }

  lemma InstalledGrows(s: State, s': State, s'': State, r: nat, v: nat, p: nat, f: Flags, n: nat)
    requires r in s.maps && InstalledRange(s, s', r, v, p, f, n) && Grows(s', s'', r)
    ensures InstalledRange(s, s'', r, v, p, f, n)
  {
    ExtendsTransitive(s, s', s'', r);
  }

  lemma NextMappable(s: State, s': State, r: nat, v: nat, p: nat, f: Flags, n: nat, a: nat, w: Word)
    requires |s.refs| == |s.mem| && r in s.maps && InstalledRange(s, s', r, v, p, f, n)
    requires MappableAt(s, v, p, f, n) && a == v + n && w == Word(p + n, f)
    ensures r in s'.maps && (a in s'.maps[r] <==> a in s.maps[r]) && Mappable(s', a, w)
  {
    BindRangeAt(s.maps, r, v, p, f, n, v + n);
    assert Owning(s.shm, v + n, p + n) ==> s'.refs[p + n] == s.refs[p + n];
  }

  // ---------------------------------------------------------------- unmapping a range

  /** Frames that are still in use and are not page-table pages were so before, with the same contents. */
  ghost predicate Shrinks(s: State, s': State) {
    && |s.mem| == |s.refs| == |s'.mem| == |s'.refs| && s'.end == s.end && s'.shm == s.shm
    && forall p {:trigger s'.refs[p]} {:trigger s'.mem[p]} :: InRange(s', p) && s'.refs[p] > 0 && p !in s'.keyOf ==>
         s.refs[p] > 0 && s'.mem[p] == s.mem[p] && p !in s.keyOf
  }

  lemma ShrinksTransitive(s: State, s': State, s'': State)
    requires Shrinks(s, s') && Shrinks(s', s'')
    ensures Shrinks(s, s'')
  {
    forall p | InRange(s'', p) && s''.refs[p] > 0 && p !in s''.keyOf
      ensures s.refs[p] > 0 && s''.mem[p] == s.mem[p] && p !in s.keyOf
    {
      assert s'.refs[p] > 0;
    }
  }

  /** Clearing the leaf entry of page v, and freeing the frame if asked to and it is not the shm page.  Without
      freeing, a reference that the mapping owned stays with the kernel. */
  ghost function UnmapOne(s: State, r: nat, v: nat, free: bool): State
    requires AllocInv(s) && r in s.maps && v in s.maps[r] && LeafKey(r, v) in s.tbl && s.tbl[LeafKey(r, v)] < |s.mem|
    requires free && s.maps[r][v].ppn != s.shm ==> InRange(s, s.maps[r][v].ppn)
  {
    var s1 := DropLeaf(s, r, v);
    AllocOfDropLeaf(s, r, v);
    var s2 := if free && s.maps[r][v].ppn != s.shm then AfterKfree(s1, s.maps[r][v].ppn) else s1;
    WithSlot(s2, LeafKey(r, v), v % 512, ZERO)
  }

  lemma AllocOfDropLeaf(s: State, r: nat, v: nat)
    requires AllocInv(s) && r in s.maps && v in s.maps[r]
    ensures AllocInv(DropLeaf(s, r, v))
  {
    var s' := DropLeaf(s, r, v);
    forall k | 0 <= k < |s'.free| ensures FreeOk(s', k) {
      assert FreeOk(s, k);
    }
  }

  ghost predicate Unmapped(s: State, s': State, r: nat, v: nat, free: bool)
    requires r in s.maps && v in s.maps[r]
  {
    && s'.maps == Unbind(s.maps, r, v) && s'.tbl == s.tbl && s'.keyOf == s.keyOf && Shrinks(s, s')
    && s'.holds == if free then s.holds else Transfer(s.holds, s.shm, v, s.maps[r][v].ppn, 1)
  }

  lemma UnmapOneInv(s: State, r: nat, v: nat, free: bool)
    requires Inv(s, NOSLOT) && HoldsOk(s) && r in s.maps && v in s.maps[r] && (free ==> v < TRAPFRAME)
    ensures LeafKey(r, v) in s.tbl && s.tbl[LeafKey(r, v)] < |s.mem|
    ensures s.mem[s.tbl[LeafKey(r, v)]][v % 512] == s.maps[r][v] && Leaf(s.maps[r][v])
    ensures free && s.maps[r][v].ppn != s.shm ==> InRange(s, s.maps[r][v].ppn)
    ensures AllocInv(DropLeaf(s, r, v))
    ensures Inv(UnmapOne(s, r, v, free), NOSLOT) && Unmapped(s, UnmapOne(s, r, v, free), r, v, free)
  {
    var k, p := LeafKey(r, v), s.maps[r][v].ppn;
    assert MappedOk(s, r, v);
    assert KeyOk(s, k) && SlotOk(s, k, v % 512, s.mem[s.tbl[k]][v % 512]);
    DropLeafInv(s, r, v);
    var s1 := DropLeaf(s, r, v);
    if free && p != s.shm {
      assert CountOk(s1, p);
      KfreeInv(s1, p, LeafSlot(s, r, v));
      WithSlotInv(AfterKfree(s1, p), k, v % 512, ZERO);
    } else {
      WithSlotInv(s1, k, v % 512, ZERO);
    }
  }

  function UnbindRange(maps: map<nat, map<nat, Word>>, r: nat, lo: nat, hi: nat): (m: map<nat, map<nat, Word>>)
    requires r in maps && lo <= hi
    ensures r in m
    decreases hi - lo
  {
    if lo == hi then maps else Unbind(UnbindRange(maps, r, lo, hi - 1), r, hi - 1)
  }

  lemma {:induction false} UnbindRangeAt(maps: map<nat, map<nat, Word>>, r: nat, lo: nat, hi: nat, u: nat)
    requires r in maps && lo <= hi
    ensures var m := UnbindRange(maps, r, lo, hi);
      && (u in m[r] <==> u in maps[r] && !(lo <= u < hi))
      && (u in m[r] ==> m[r][u] == maps[r][u])
    decreases hi - lo
  {
    if lo < hi {
      UnbindRangeAt(maps, r, lo, hi - 1, u);
    }
  }

  /** The kernel's references after the pages from lo to hi were unmapped without freeing their frames. */
  function TransferUnbound(holds: seq<int>, shm: nat, m: map<nat, Word>, lo: nat, hi: nat): seq<int>
    requires lo <= hi
    decreases hi - lo
  {
    if lo == hi then holds
    else
      var h := TransferUnbound(holds, shm, m, lo, hi - 1);
      if hi - 1 in m then Transfer(h, shm, hi - 1, m[hi - 1].ppn, 1) else h
  }

  ghost predicate UnmappedRange(s: State, s': State, r: nat, lo: nat, hi: nat, free: bool)
    requires r in s.maps && lo <= hi
  {
    && s'.maps == UnbindRange(s.maps, r, lo, hi)
    && s'.holds == (if free then s.holds else TransferUnbound(s.holds, s.shm, s.maps[r], lo, hi))
    && s'.tbl == s.tbl && s'.keyOf == s.keyOf && Shrinks(s, s')
  }

  lemma UnmappedNext(s: State, s': State, s'': State, r: nat, lo: nat, hi: nat, free: bool)
    requires r in s.maps && lo <= hi && UnmappedRange(s, s', r, lo, hi, free) && hi in s'.maps[r]
    requires Unmapped(s', s'', r, hi, free) || (free && UnmappedRange(s', s'', r, hi, hi + 1, true))
    ensures UnmappedRange(s, s'', r, lo, hi + 1, free)
  {
    UnbindRangeAt(s.maps, r, lo, hi, hi);
    assert UnbindRange(s'.maps, r, hi, hi) == s'.maps;
  }

  lemma UnmappedHole(s: State, s': State, r: nat, lo: nat, hi: nat)
    requires r in s.maps && lo <= hi && UnmappedRange(s, s', r, lo, hi, true) && hi !in s'.maps[r]
    ensures UnmappedRange(s, s', r, lo, hi + 1, true)
  {
    var m := UnbindRange(s.maps, r, lo, hi);
    assert m[r] - {hi} == m[r];
    assert Unbind(m, r, hi) == m;
  }

  /** A page is mapped exactly when its slot exists and is valid, and then the slot holds the mapping; an invalid
      slot is zero. */
  lemma SlotOfPage(s: State, r: nat, v: nat)
    requires Inv(s, NOSLOT) && r in s.maps
    ensures v in s.maps[r] <==>
      var k := LeafKey(r, v); k in s.tbl && s.tbl[k] < |s.mem| && s.mem[s.tbl[k]][v % 512].flags.v
    ensures v in s.maps[r] ==> Leaf(s.maps[r][v]) && s.mem[s.tbl[LeafKey(r, v)]][v % 512] == s.maps[r][v]
    ensures var k := LeafKey(r, v);
      v !in s.maps[r] && k in s.tbl ==> s.tbl[k] < |s.mem| && s.mem[s.tbl[k]][v % 512] == ZERO
  {
    var k := LeafKey(r, v);
    assert k in s.tbl ==> KeyOk(s, k) && SlotOk(s, k, v % 512, s.mem[s.tbl[k]][v % 512]);
    assert v in s.maps[r] ==> MappedOk(s, r, v);
  }

  // ---------------------------------------------------------------- fresh pages

  /** A frame that holds data: in use, and not a page table. */
  ghost predicate Live(s: State, p: nat)
    requires |s.refs| == |s.mem|
  {
    InRange(s, p) && s.refs[p] > 0 && p !in s.keyOf
  }

  /** The shm page is in use. */
  ghost predicate ShmOk(s: State)
    requires |s.refs| == |s.mem|
  {
    Live(s, s.shm)
  }

  lemma KeepsShm(s: State, s': State)
    requires Keeps(s, s') && ShmOk(s)
    ensures ShmOk(s')
  {
    assert s'.refs[s.shm] == s.refs[s.shm];
  }

  /** Allocating, filling and mapping one page: only the new mapping and the frame it uses appear. */
  ghost predicate Allocated(s: State, s': State, r: nat, v: nat, p: nat, f: Flags, content: Page)
    requires r in s.maps
  {
    && s'.maps == Bind(s.maps, r, v, Word(p, f)) && s'.holds == s.holds && Extends(s, s', r)
    && InRange(s', p) && s.refs[p] == 0 && s'.refs[p] == 1 && s'.mem[p] == content && p !in s'.keyOf
  }

  lemma AllocatedInv(s: State, s1: State, s2: State, r: nat, v: nat, p: nat, f: Flags, content: Page)
    requires Inv(s, NOSLOT) && ShmOk(s) && s.free != [] && p == s.head && r in s.maps && v < TRAPFRAME
    requires p < |s.mem| && s1 == WithPage(AfterKalloc(s), p, content)
    requires Inv(s2, NOSLOT) && InstalledRange(s1, s2, r, v, p, f, 1)
    ensures Allocated(s, s2, r, v, p, f, content)
  {
    KallocInv(s, NOSLOT);
    assert BindRange(s1.maps, r, v, p, f, 0) == s1.maps;
    assert TransferRange(s1.holds, s1.shm, v, p, 0, -1) == s1.holds;
    assert s2.holds == s.holds;
    assert s2.refs[p] == s1.refs[p] && s2.mem[p] == s1.mem[p];
    ExtendsFromKalloc(s, s1, s2, r, p, content);
  }

  lemma ExtendsFromKalloc(s: State, s1: State, s2: State, r: nat, p: nat, content: Page)
    requires Inv(s, NOSLOT) && s.free != [] && p == s.head
    requires p < |s.mem| && s1 == WithPage(AfterKalloc(s), p, content) && Extends(s1, s2, r)
    ensures Extends(s, s2, r)
  {
    KallocInv(s, NOSLOT);
    forall q | InRange(s, q) && s.refs[q] > 0 && q !in s.keyOf
      ensures s2.refs[q] == s.refs[q] && s2.mem[q] == s.mem[q] && q !in s2.keyOf
    {
      assert q != p && s1.refs[q] == s.refs[q];
    }
    forall k | k in s.tbl ensures k in s2.tbl && s2.tbl[k] == s.tbl[k] {
      assert k in s1.tbl;
    }
  }

  /** A frame that could not be mapped goes back to the allocator. */
  lemma NotAllocatedInv(s: State, s1: State, s2: State, r: nat, v: nat, p: nat, f: Flags, content: Page)
    requires Inv(s, NOSLOT) && s.free != [] && p == s.head && r in s.maps
    requires p < |s.mem| && s1 == WithPage(AfterKalloc(s), p, content)
    requires Inv(s2, NOSLOT) && InstalledRange(s1, s2, r, v, p, f, 0)
    ensures InRange(s2, p) && Inv(AfterKfree(s2, p), NOSLOT) && Grows(s, AfterKfree(s2, p), r)
  {
    KallocInv(s, NOSLOT);
    assert s2.refs[p] == s1.refs[p] && p !in s2.keyOf;
    KfreeInv(s2, p, NOSLOT);
    ExtendsFromKalloc(s, s1, s2, r, p, content);
    var s3 := AfterKfree(s2, p);
    forall q | InRange(s, q) && s.refs[q] > 0 && q !in s.keyOf
      ensures s3.refs[q] == s.refs[q] && s3.mem[q] == s.mem[q] && q !in s3.keyOf
    {
      assert q != p && s2.refs[q] == s.refs[q];
    }
    forall k | k in s.tbl ensures k in s3.tbl && s3.tbl[k] == s.tbl[k] {
      assert k in s2.tbl;
    }
    assert s3.holds == s.holds;
  }

  lemma FreshMappable(s: State, s1: State, r: nat, v: nat, p: nat, f: Flags, content: Page)
    requires Inv(s, NOSLOT) && ShmOk(s) && s.free != [] && p == s.head && r in s.maps
    requires v < TRAPFRAME && Leaf(Word(p, f))
    requires p < |s.mem| && s1 == WithPage(AfterKalloc(s), p, content)
    ensures Inv(s1, NOSLOT) && s1.maps == s.maps && MappableAt(s1, v, p, f, 0)
  {
    KallocInv(s, NOSLOT);
    WithPageInv(AfterKalloc(s), p, content, NOSLOT);
  }

  /** Allocating and clearing a frame and making it the root of an empty tree. */
  ghost function NewRoot(s: State): State
    requires AllocInv(s) && s.free != [] && s.head < |s.mem|
  {
    AddRoot(WithPage(AfterKalloc(s), s.head, Fill(ZERO)), s.head)
  }

  lemma NewRootInv(s: State)
    requires Inv(s, NOSLOT) && s.free != []
    ensures InRange(s, s.head) && s.head !in s.maps && Inv(NewRoot(s), NOSLOT)
    ensures NewRoot(s).holds == s.holds && Extends(s, NewRoot(s), s.head)
  {
    KallocInv(s, NOSLOT);
    WithPageInv(AfterKalloc(s), s.head, Fill(ZERO), NOSLOT);
    var s1 := WithPage(AfterKalloc(s), s.head, Fill(ZERO));
    AddRootInv(s1, s.head);
    assert NewRoot(s).holds == s.holds;
    assert Root(s.head) in s.tbl ==> KeyOk(s, Root(s.head));
    var s2 := NewRoot(s);
    forall q | InRange(s, q) && s.refs[q] > 0 && q !in s.keyOf
      ensures s2.refs[q] == s.refs[q] && s2.mem[q] == s.mem[q] && q !in s2.keyOf
    {
      assert q != s.head;
    }
  }

  // ---------------------------------------------------------------- filling and emptying a range

  ghost predicate FreshAt(s0: State, s: State, r: nat, v: nat, f: Flags, content: Page) {
    && |s0.refs| == |s0.mem| == |s.refs| == |s.mem|
    && r in s.maps && v in s.maps[r]
    && var p := s.maps[r][v].ppn;
    && s.maps[r][v].flags == f
    && InRange(s, p) && s0.refs[p] == 0 && s.refs[p] == 1 && p !in s.keyOf && s.mem[p] == content
  }

  /** Exactly the wanted pages of lo..hi have been added to the map of r, each on a frame of its own that was
      free before, with the wanted flags and contents.  Nothing else that was mapped or held has changed. */
  ghost predicate Filled(s0: State, s: State, r: nat, want: map<nat, (Flags, Page)>, lo: nat, hi: nat) {
    && r in s0.maps && r in s.maps && s.maps == s0.maps[r := s.maps[r]] && s.holds == s0.holds && Extends(s0, s, r)
    && (forall v {:trigger v in s.maps[r]} :: v in s.maps[r] <==> v in s0.maps[r] || (lo <= v < hi && v in want))
    && (forall v {:trigger s.maps[r][v]} :: v in s0.maps[r] ==> v in s.maps[r] && s.maps[r][v] == s0.maps[r][v])
    && (forall v {:trigger v in want} :: lo <= v < hi && v in want ==> FreshAt(s0, s, r, v, want[v].0, want[v].1))
  }

  lemma StillFree(s0: State, s: State, r: nat, p: nat)
    requires Inv(s0, NOSLOT) && Inv(s, NOSLOT) && Extends(s0, s, r) && InRange(s, p) && s.refs[p] == 0
    ensures s0.refs[p] == 0
  {
    if p in s0.keyOf {
      TableRefs(s0, p, NOSLOT);
      var k := s0.keyOf[p];
      assert TableOk(s0, p) && k in s.tbl && KeyOk(s, k);
      TableRefs(s, p, NOSLOT);
    }
  }

  lemma FilledNext(s0: State, s: State, s': State, r: nat, want: map<nat, (Flags, Page)>, lo: nat, hi: nat, p: nat)
    requires Inv(s0, NOSLOT) && Inv(s, NOSLOT) && Inv(s', NOSLOT) && lo <= hi
    requires Filled(s0, s, r, want, lo, hi) && hi in want && hi !in s0.maps[r]
    requires Allocated(s, s', r, hi, p, want[hi].0, want[hi].1)
    ensures Filled(s0, s', r, want, lo, hi + 1)
  {
    ExtendsTransitive(s0, s, s', r);
    StillFree(s0, s, r, p);
    forall v | lo <= v < hi + 1 && v in want ensures FreshAt(s0, s', r, v, want[v].0, want[v].1) {
      if v < hi {
        assert FreshAt(s0, s, r, v, want[v].0, want[v].1);
        var q := s.maps[r][v].ppn;
        assert s'.refs[q] == s.refs[q];
      }
    }
  }

  /** Adding empty tables to the tree does not disturb what has been filled in. */
  lemma FilledGrows(s0: State, s: State, s': State, r: nat, want: map<nat, (Flags, Page)>, lo: nat, hi: nat)
    requires Filled(s0, s, r, want, lo, hi) && Grows(s, s', r)
    ensures Filled(s0, s', r, want, lo, hi)
  {
    ExtendsTransitive(s0, s, s', r);
    forall v | lo <= v < hi && v in want ensures FreshAt(s0, s', r, v, want[v].0, want[v].1) {
      assert FreshAt(s0, s, r, v, want[v].0, want[v].1);
      var q := s.maps[r][v].ppn;
      assert s'.refs[q] == s.refs[q];
    }
  }

  /** No page from lo up to hi is mapped. */
  ghost predicate Vacant(m: map<nat, Word>, lo: nat, hi: nat) {
    forall v {:trigger v in m} :: lo <= v < hi ==> v !in m
  }

  lemma VacantNext(m: map<nat, Word>, lo: nat, hi: nat)
    requires Vacant(m, lo, hi) && hi !in m
    ensures Vacant(m, lo, hi + 1)
  {
  }

  lemma VacantPart(m: map<nat, Word>, i: nat, hi: nat)
    requires Vacant(m, 0, hi) && i < hi
    ensures Vacant(m, 0, i) && i !in m
  {
  }

  /** The number of pages below n that are mapped. */
  ghost function MappedBelow(m: map<nat, Word>, n: nat): nat {
    if n == 0 then 0 else MappedBelow(m, n - 1) + if n - 1 in m then 1 else 0
  }

  lemma {:induction false} MappedBelowGrows(m: map<nat, Word>, i: nat, n: nat)
    requires i <= n
    ensures MappedBelow(m, i) <= MappedBelow(m, n)
    decreases n - i
  {
    if i < n {
      MappedBelowGrows(m, i, n - 1);
    }
  }

  /** Unmapping only touches one root. */
  lemma {:induction false} UnbindRangeFrame(maps: map<nat, map<nat, Word>>, r: nat, lo: nat, hi: nat)
    requires r in maps && lo <= hi
    ensures UnbindRange(maps, r, lo, hi) == maps[r := UnbindRange(maps, r, lo, hi)[r]]
    decreases hi - lo
  {
    if lo < hi {
      UnbindRangeFrame(maps, r, lo, hi - 1);
    } else {
      assert maps == maps[r := maps[r]];
    }
  }

  lemma UndoneMaps(s0: State, s1: State, r: nat, want: map<nat, (Flags, Page)>, lo: nat, hi: nat)
    requires lo <= hi && Filled(s0, s1, r, want, lo, hi)
    requires r in s0.maps && Vacant(s0.maps[r], lo, hi)
    ensures UnbindRange(s1.maps, r, lo, hi) == s0.maps
  {
    var m := UnbindRange(s1.maps, r, lo, hi);
    UnbindRangeFrame(s1.maps, r, lo, hi);
    forall v ensures v in m[r] <==> v in s0.maps[r] {
      UnbindRangeAt(s1.maps, r, lo, hi, v);
    }
    forall v | v in m[r] ensures m[r][v] == s0.maps[r][v] {
      UnbindRangeAt(s1.maps, r, lo, hi, v);
    }
    assert m[r] == s0.maps[r];
    assert s0.maps == s0.maps[r := s0.maps[r]];
  }

  /** The count of a data frame is determined by the maps and the kernel's references. */
  lemma RefsDetermined(s: State, s': State, p: nat)
    requires Inv(s, NOSLOT) && Inv(s', NOSLOT) && s.maps == s'.maps && s.holds == s'.holds && s.shm == s'.shm
    requires InRange(s, p) && InRange(s', p) && (p in s.keyOf <==> p in s'.keyOf)
    ensures s.refs[p] == s'.refs[p]
  {
    assert CountOk(s, p) && CountOk(s', p);
  }

  /** Taking back what was filled in restores the maps, the counts and the contents of every data frame. */
  lemma Undone(s0: State, s1: State, s2: State, r: nat)
    requires Inv(s0, NOSLOT) && Inv(s1, NOSLOT) && Inv(s2, NOSLOT) && Extends(s0, s1, r)
    requires s2.maps == s0.maps && s2.holds == s0.holds && Shrinks(s1, s2)
    requires forall p {:trigger p in s2.keyOf} :: p in s2.keyOf ==> p in s1.keyOf
    ensures Keeps(s0, s2)
  {
    forall p | InRange(s0, p) && s0.refs[p] > 0 && p !in s0.keyOf
      ensures s2.refs[p] == s0.refs[p] && s2.mem[p] == s0.mem[p] && p !in s2.keyOf
    {
      assert s1.refs[p] == s0.refs[p];
      RefsDetermined(s0, s2, p);
    }
  }

  lemma UndoneUnmapped(s0: State, s1: State, s2: State, r: nat, want: map<nat, (Flags, Page)>, lo: nat, hi: nat)
    requires Inv(s0, NOSLOT) && Inv(s1, NOSLOT) && Inv(s2, NOSLOT) && lo <= hi
    requires Filled(s0, s1, r, want, lo, hi) && UnmappedRange(s1, s2, r, lo, hi, true)
    requires r in s0.maps && Vacant(s0.maps[r], lo, hi)
    ensures Grows(s0, s2, r)
  {
    UndoneMaps(s0, s1, r, want, lo, hi);
    Undone(s0, s1, s2, r);
  }

  /** What uvmdealloc does when there is at least one page to remove. */
  ghost predicate Dealloced(s: State, s': State, r: nat, lo: nat, hi: nat)
    requires r in s.maps && lo <= hi
  {
    && s'.maps == UnbindRange(s.maps, r, lo, hi) && s'.holds == s.holds && Shrinks(s, s')
    && (forall j {:trigger j in s'.tbl} {:trigger j in s.tbl} ::
         j in s'.tbl <==> j in s.tbl && !(j.root == r && j.level < 2 && Unused(s'.maps, j)))
    && (forall j {:trigger s'.tbl[j]} :: j in s'.tbl ==> s'.tbl[j] == s.tbl[j])
  }

  lemma BelowRoot(s: State, r: nat, j: Key)
    requires TreeInv(s) && j in s.tbl
    ensures Below(j, Root(r), PTES) <==> j.root == r && j.level < 2
  {
    assert KeyOk(s, j);
    assert j.level < 2 ==> KeyOk(s, Parent(j));
    assert j.level == 0 ==> KeyOk(s, Parent(Parent(j)));
  }

  lemma DeallocedBy(s: State, s1: State, s2: State, r: nat, lo: nat, hi: nat)
    requires r in s.maps && lo <= hi && Inv(s1, NOSLOT)
    requires UnmappedRange(s, s1, r, lo, hi, true) && Pruned(s1, s2, Root(r), PTES)
    ensures Dealloced(s, s2, r, lo, hi)
  {
    forall j ensures j in s2.tbl <==> j in s.tbl && !(j.root == r && j.level < 2 && Unused(s2.maps, j)) {
      if j in s1.tbl {
        BelowRoot(s1, r, j);
      }
    }
  }

  lemma UndoneDealloced(s0: State, s1: State, s2: State, r: nat, want: map<nat, (Flags, Page)>, lo: nat, hi: nat)
    requires Inv(s0, NOSLOT) && Inv(s1, NOSLOT) && Inv(s2, NOSLOT) && lo <= hi
    requires Filled(s0, s1, r, want, lo, hi) && Dealloced(s1, s2, r, lo, hi)
    requires r in s0.maps && Vacant(s0.maps[r], lo, hi)
    ensures s2.maps == s0.maps && s2.holds == s0.holds && Keeps(s0, s2)
  {
    UndoneMaps(s0, s1, r, want, lo, hi);
    forall p | p in s2.keyOf ensures p in s1.keyOf {
      var k := s2.keyOf[p];
      assert TableOk(s2, p) && k in s1.tbl && KeyOk(s1, k);
    }
    Undone(s0, s1, s2, r);
  }

  /** The pages that uvmalloc adds: zeroed, readable by the user, with the extra permissions. */
  function Wanted(lo: nat, hi: nat, perm: Flags): (m: map<nat, (Flags, Page)>)
    ensures forall v {:trigger v in m} :: v in m <==> lo <= v < hi
    ensures forall v {:trigger m[v]} :: v in m ==> m[v] == (perm, Fill(ZERO))
  {
    if lo >= hi then map[] else Wanted(lo, hi - 1, perm)[hi - 1 := (perm, Fill(ZERO))]
  }

  // ---------------------------------------------------------------- releasing, copying and sharing a tree

  /** A tree and everything it mapped is gone; the other trees are untouched. */
  ghost predicate Released(s: State, s': State, r: nat) {
    && s'.maps == s.maps - {r} && s'.holds == s.holds && Shrinks(s, s')
    && (forall j {:trigger j in s'.tbl} {:trigger j in s.tbl} :: j in s'.tbl <==> j in s.tbl && j.root != r)
    && (forall j {:trigger s'.tbl[j]} :: j in s'.tbl ==> s'.tbl[j] == s.tbl[j])
  }

  lemma ReleasedBy(s: State, s1: State, s2: State, r: nat, hi: nat)
    requires r in s.maps && Inv(s1, NOSLOT) && UnmappedRange(s, s1, r, 0, hi, true) && Gone(s1, s2, Root(r))
    ensures Released(s, s2, r)
  {
    UnbindRangeFrame(s.maps, r, 0, hi);
    assert s1.maps - {r} == s.maps - {r};
    forall j ensures j in s2.tbl <==> j in s.tbl && j.root != r {
      if j in s1.tbl {
        BelowRoot(s1, r, j);
        assert KeyOk(s1, j);
      }
    }
  }

  lemma EmptiedRoot(s: State, s1: State, r: nat, hi: nat)
    requires r in s.maps && UnmappedRange(s, s1, r, 0, hi, true)
    requires forall v {:trigger v in s.maps[r]} :: v in s.maps[r] ==> v < hi
    ensures r in s1.maps && s1.maps[r] == map[] && Unused(s1.maps, Root(r))
  {
    forall v ensures v !in s1.maps[r] {
      UnbindRangeAt(s.maps, r, 0, hi, v);
    }
  }

  /** A frame behind a user mapping is in use; only at SHM_VA can it be the shm page. */
  lemma MappedLive(s: State, r: nat, v: nat)
    requires Inv(s, NOSLOT) && HoldsOk(s) && ShmOk(s) && r in s.maps && v in s.maps[r] && v < TRAPFRAME
    ensures Live(s, s.maps[r][v].ppn) && (s.maps[r][v].ppn == s.shm ==> v == SHM) && Leaf(s.maps[r][v])
  {
    assert MappedOk(s, r, v);
    var p := s.maps[r][v].ppn;
    if p != s.shm {
      assert CountOk(s, p);
      assert (r, v) in Owners(s.maps, s.shm, p);
    }
  }

  /** Every page of r below n is backed by a frame. */
  ghost predicate BackedBelow(s: State, r: nat, n: nat) {
    r in s.maps && forall v {:trigger s.maps[r][v]} :: v in s.maps[r] && v < n ==> s.maps[r][v].ppn < |s.mem|
  }

  /** The pages uvmcopy creates: the flags and the bytes of every mapped page of the source below n. */
  ghost function CopyWanted(s: State, r: nat, n: nat): map<nat, (Flags, Page)>
    requires BackedBelow(s, r, n)
  {
    map v | v in s.maps[r] && v < n :: (s.maps[r][v].flags, s.mem[s.maps[r][v].ppn])
  }

  lemma CopyWantedAt(s: State, r: nat, n: nat, i: nat)
    requires BackedBelow(s, r, n) && i < n
    ensures i in CopyWanted(s, r, n) <==> i in s.maps[r]
    ensures i in s.maps[r] ==> s.maps[r][i].ppn < |s.mem|
    ensures i in s.maps[r] ==> CopyWanted(s, r, n)[i] == (s.maps[r][i].flags, s.mem[s.maps[r][i].ppn])
  {
  }

  lemma CopyDefined(s: State, r: nat, n: nat)
    requires Inv(s, NOSLOT) && ShmOk(s) && r in s.maps && n <= TRAPFRAME
    ensures BackedBelow(s, r, n)
  {
    forall v | v in s.maps[r] && v < n ensures s.maps[r][v].ppn < |s.mem| {
      assert MappedOk(s, r, v);
    }
  }

  /** Data frames keep their role and contents, and lose no reference. */
  ghost predicate KeepsPages(s: State, s': State) {
    && |s.mem| == |s.refs| == |s'.mem| == |s'.refs| && s'.end == s.end && s'.shm == s.shm
    && forall p {:trigger s'.refs[p]} {:trigger s'.mem[p]} {:trigger p in s'.keyOf} ::
         InRange(s, p) && s.refs[p] > 0 && p !in s.keyOf ==>
           s'.refs[p] >= s.refs[p] && s'.mem[p] == s.mem[p] && p !in s'.keyOf
  }

  /** The mappings of the source below n now also exist, word for word, in the destination. */
  ghost predicate Shared(s0: State, s: State, src: nat, dst: nat, n: nat) {
    && src in s0.maps && dst in s0.maps && dst in s.maps && src != dst
    && s.maps == s0.maps[dst := s.maps[dst]] && s.holds == s0.holds && KeepsPages(s0, s)
    && (forall v {:trigger v in s.maps[dst]} :: v in s.maps[dst] <==> v in s0.maps[dst] || (v < n && v in s0.maps[src]))
    && (forall v {:trigger s.maps[dst][v]} :: v in s.maps[dst] ==>
         s.maps[dst][v] == if v in s0.maps[dst] then s0.maps[dst][v] else s0.maps[src][v])
  }

  lemma SharedMappable(s0: State, s: State, src: nat, dst: nat, n: nat)
    requires Inv(s, NOSLOT) && HoldsOk(s) && ShmOk(s) && Shared(s0, s, src, dst, n) && n < TRAPFRAME
    requires n in s0.maps[src] && n !in s0.maps[dst]
    ensures n in s.maps[src] && n !in s.maps[dst] && s.maps[src][n] == s0.maps[src][n]
    ensures Live(s, s.maps[src][n].ppn) && Leaf(s.maps[src][n])
    ensures MappableAt(s, n, s.maps[src][n].ppn, s.maps[src][n].flags, 0)
  {
    MappedLive(s, src, n);
  }

  lemma SharedNext(s0: State, s: State, s1: State, src: nat, dst: nat, n: nat, p: nat, f: Flags)
    requires Inv(s, NOSLOT) && Inv(s1, NOSLOT) && Shared(s0, s, src, dst, n) && n < TRAPFRAME && p != s.shm
    requires n in s0.maps[src] && n !in s0.maps[dst] && s0.maps[src][n] == Word(p, f)
    requires Live(s, p) && InstalledRange(s, s1, dst, n, p, f, 1)
    ensures Live(s1, p) && Inv(AfterKaddref(s1, p), NOSLOT) && Shared(s0, AfterKaddref(s1, p), src, dst, n + 1)
  {
    assert s1.refs[p] == s.refs[p];
    KaddrefInv(s1, p, NOSLOT);
    var s2 := AfterKaddref(s1, p);
    assert BindRange(s.maps, dst, n, p, f, 0) == s.maps;
    assert TransferRange(s.holds, s.shm, n, p, 0, -1) == s.holds;
    assert s2.holds == s.holds;
    forall q | InRange(s0, q) && s0.refs[q] > 0 && q !in s0.keyOf
      ensures s2.refs[q] >= s0.refs[q] && s2.mem[q] == s0.mem[q] && q !in s2.keyOf
    {
      assert s.refs[q] >= s0.refs[q];
      assert s1.refs[q] == s.refs[q];
    }
  }

  /** Sharing the shm page at SHM_VA: the kernel, not the mapping, gains the reference that kaddref counts. */
  lemma SharedShm(s: State, s1: State, dst: nat, n: nat, f: Flags)
    requires Inv(s, NOSLOT) && Inv(s1, NOSLOT) && ShmOk(s) && dst in s.maps
    requires InstalledRange(s, s1, dst, n, s.shm, f, 1)
    ensures ShmOk(s1) && s1.shm == s.shm && dst in s1.maps && n in s1.maps[dst]
    ensures s1.maps == s.maps[dst := s1.maps[dst]]
    ensures Inv(AfterKaddref(s1, s.shm), NOSLOT) && ShmOk(AfterKaddref(s1, s.shm))
  {
    assert s1.refs[s.shm] == s.refs[s.shm];
    KaddrefInv(s1, s.shm, NOSLOT);
    BindRangeAt(s.maps, dst, n, s.shm, f, 1, n);
    assert BindRange(s.maps, dst, n, s.shm, f, 0) == s.maps;
  }

  lemma SharedGrows(s0: State, s: State, s': State, src: nat, dst: nat, n: nat)
    requires Shared(s0, s, src, dst, n) && Grows(s, s', dst)
    ensures Shared(s0, s', src, dst, n)
  {
    forall q | InRange(s0, q) && s0.refs[q] > 0 && q !in s0.keyOf
      ensures s'.refs[q] >= s0.refs[q] && s'.mem[q] == s0.mem[q] && q !in s'.keyOf
    {
      assert s.refs[q] >= s0.refs[q];
      assert s'.refs[q] == s.refs[q];
    }
  }

  lemma UndoneShared(s0: State, s1: State, s2: State, src: nat, dst: nat, n: nat)
    requires Inv(s0, NOSLOT) && Inv(s1, NOSLOT) && Inv(s2, NOSLOT)
    requires Shared(s0, s1, src, dst, n) && UnmappedRange(s1, s2, dst, 0, n, true)
    requires dst in s0.maps && Vacant(s0.maps[dst], 0, n)
    ensures s2.maps == s0.maps && s2.holds == s0.holds && Keeps(s0, s2)
  {
    var m := UnbindRange(s1.maps, dst, 0, n);
    UnbindRangeFrame(s1.maps, dst, 0, n);
    forall v ensures v in m[dst] <==> v in s0.maps[dst] {
      UnbindRangeAt(s1.maps, dst, 0, n, v);
    }
    forall v | v in m[dst] ensures m[dst][v] == s0.maps[dst][v] {
      UnbindRangeAt(s1.maps, dst, 0, n, v);
    }
    assert m[dst] == s0.maps[dst];
    assert s0.maps == s0.maps[dst := s0.maps[dst]];
    forall p | InRange(s0, p) && s0.refs[p] > 0 && p !in s0.keyOf
      ensures s2.refs[p] == s0.refs[p] && s2.mem[p] == s0.mem[p] && p !in s2.keyOf
    {
      assert s1.refs[p] >= s0.refs[p];
      RefsDetermined(s0, s2, p);
    }
  }

  /** The mappings of p that sharing the pages of src below n adds to dst. */
  ghost function Sharers(maps: map<nat, map<nat, Word>>, src: nat, dst: nat, n: nat, p: nat): set<(nat, nat)>
    requires src in maps
  {
    set v | v in maps[src] && v < n && maps[src][v].ppn == p :: (dst, v)
  }

  /** Sharing raises the count of each frame by exactly one for every page of the source that it backs. */
  lemma SharedCounts(s0: State, s: State, src: nat, dst: nat, n: nat, p: nat)
    requires Inv(s0, NOSLOT) && Inv(s, NOSLOT) && Shared(s0, s, src, dst, n) && n <= TRAPFRAME && Live(s0, p)
    requires NoShmBelow(s0, src, n) && Vacant(s0.maps[dst], 0, n)
    ensures src in s0.maps && s.refs[p] == s0.refs[p] + |Sharers(s0.maps, src, dst, n, p)|
  {
    assert CountOk(s0, p) && CountOk(s, p);
    assert s.refs[p] >= s0.refs[p] && p !in s.keyOf;
    NoShmShared(s0, src, n);
    SharedOwners(s0.maps, s.maps, s0.shm, src, dst, n, p);
  }

  /** Below SHM_VA the question does not arise. */
  lemma NoShmYet(s: State, r: nat, i: nat)
    requires Inv(s, NOSLOT) && i < TRAPFRAME
    ensures NoShmBelow(s, r, i) && (NoShmBelow(s, r, i + 1) <==> !ShowsShm(s, r, i))
  {
    assert r in s.maps && i in s.maps[r] ==> MappedOk(s, r, i);
  }

  ghost predicate ShowsShm(s: State, r: nat, v: nat) {
    r in s.maps && v in s.maps[r] && s.maps[r][v].ppn == s.shm
  }

  /** No page of r below n shows the shm page: it could only be the one at SHM_VA. */
  ghost predicate NoShmBelow(s: State, r: nat, n: nat) {
    SHM < n ==> !ShowsShm(s, r, SHM)
  }

  lemma NoShmShared(s: State, r: nat, n: nat)
    requires Inv(s, NOSLOT) && r in s.maps && NoShmBelow(s, r, n) && n <= TRAPFRAME
    ensures forall v {:trigger s.maps[r][v]} :: v in s.maps[r] && v < n ==> s.maps[r][v].ppn != s.shm
  {
    forall v | v in s.maps[r] && v < n ensures s.maps[r][v].ppn != s.shm {
      assert MappedOk(s, r, v);
    }
  }

  lemma SharedOwners(maps: map<nat, map<nat, Word>>, maps': map<nat, map<nat, Word>>, shm: nat, src: nat, dst: nat,
      n: nat, p: nat)
    requires src in maps && dst in maps && dst in maps' && src != dst && maps' == maps[dst := maps'[dst]]
    requires n <= TRAPFRAME && forall v {:trigger maps[src][v]} :: v in maps[src] && v < n ==> maps[src][v].ppn != shm
    requires Vacant(maps[dst], 0, n)
    requires forall v {:trigger v in maps'[dst]} :: v in maps'[dst] <==> v in maps[dst] || (v < n && v in maps[src])
    requires forall v {:trigger maps'[dst][v]} :: v in maps'[dst] ==>
               maps'[dst][v] == if v in maps[dst] then maps[dst][v] else maps[src][v]
    ensures |Owners(maps', shm, p)| == |Owners(maps, shm, p)| + |Sharers(maps, src, dst, n, p)|
  {
    var old_, new_ := Owners(maps, shm, p), Sharers(maps, src, dst, n, p);
    forall r: nat, v: nat ensures (r, v) in Owners(maps', shm, p) <==> (r, v) in old_ || (r, v) in new_ {
      if r != dst {
        assert r in maps' <==> r in maps;
        assert r in maps ==> maps'[r] == maps[r];
      }
    }
    forall x: (nat, nat) ensures x in Owners(maps', shm, p) <==> x in old_ + new_ {
      var (r, v) := x;
    }
    assert Owners(maps', shm, p) == old_ + new_;
    assert old_ !! new_;
  }

  /** The round trip of growing and shrinking by the same pages: the map of every tree, the counts and the
      contents of every data frame come back; the tables, and with them the set of free frames, come back
      exactly when the tree had no empty table to begin with. */
  lemma AllocDeallocRoundTrip(
      s0: State, s1: State, s2: State, r: nat, want: map<nat, (Flags, Page)>, lo: nat, hi: nat)
    requires Inv(s0, NOSLOT) && Inv(s1, NOSLOT) && Inv(s2, NOSLOT) && lo <= hi
    requires Filled(s0, s1, r, want, lo, hi) && Dealloced(s1, s2, r, lo, hi)
    requires r in s0.maps && Vacant(s0.maps[r], lo, hi)
    ensures s2.maps == s0.maps && s2.holds == s0.holds && Keeps(s0, s2)
    ensures forall j {:trigger j in s2.tbl} :: j in s2.tbl ==> j in s0.tbl && s2.tbl[j] == s0.tbl[j]
    ensures s2.tbl == s0.tbl <==> NoEmptyTable(s0, r)
    ensures NoEmptyTable(s0, r) <==> forall p {:trigger s2.refs[p]} :: InRange(s0, p) ==> s2.refs[p] == s0.refs[p]
  {
    UndoneDealloced(s0, s1, s2, r, want, lo, hi);
    forall j | j in s2.tbl ensures j in s0.tbl && s2.tbl[j] == s0.tbl[j] {
      SurvivorWasThere(s0, s1, s2, r, j, lo, hi);
    }
    if NoEmptyTable(s0, r) {
      forall p | InRange(s0, p) ensures s2.refs[p] == s0.refs[p] {
        SameTables(s0, s2, p);
        RefsDetermined(s0, s2, p);
      }
    } else {
      var j :| j in s0.tbl && j.root == r && j.level < 2 && Unused(s0.maps, j);
      LostTable(s0, s2, j);
    }
  }

  lemma SameTables(s: State, s': State, p: nat)
    requires TreeInv(s) && TreeInv(s') && s.tbl == s'.tbl
    ensures p in s.keyOf <==> p in s'.keyOf
  {
    assert p in s.keyOf ==> TableOk(s, p) && KeyOk(s', s.keyOf[p]);
    assert p in s'.keyOf ==> TableOk(s', p) && KeyOk(s, s'.keyOf[p]);
  }

  /** A table that has gone has returned its frame. */
  lemma LostTable(s: State, s': State, j: Key)
    requires Inv(s, NOSLOT) && Inv(s', NOSLOT) && s'.maps == s.maps && s'.holds == s.holds && s'.end == s.end
    requires s'.shm == s.shm && |s'.mem| == |s.mem| && j in s.tbl && j !in s'.tbl
    requires forall k {:trigger k in s'.tbl} :: k in s'.tbl ==> k in s.tbl && s'.tbl[k] == s.tbl[k]
    ensures InRange(s, s.tbl[j]) && s.refs[s.tbl[j]] == 1 && s'.refs[s.tbl[j]] == 0
  {
    var p := s.tbl[j];
    assert KeyOk(s, j);
    TableRefs(s, p, NOSLOT);
    NoOwners(s, p);
    assert p in s'.keyOf ==> TableOk(s', p) && KeyOk(s, s'.keyOf[p]);
    assert CountOk(s', p);
  }

  /** No table below the root is without mappings. */
  ghost predicate NoEmptyTable(s: State, r: nat) {
    forall j {:trigger j in s.tbl} :: j in s.tbl && j.root == r && j.level < 2 ==> !Unused(s.maps, j)
  }

  lemma SurvivorWasThere(s0: State, s1: State, s2: State, r: nat, j: Key, lo: nat, hi: nat)
    requires Inv(s0, NOSLOT) && Inv(s1, NOSLOT) && lo <= hi && r in s1.maps && r in s0.maps
    requires Extends(s0, s1, r) && Dealloced(s1, s2, r, lo, hi) && s2.maps == s0.maps && j in s2.tbl
    ensures j in s0.tbl && s2.tbl[j] == s0.tbl[j]
  {
    assert KeyOk(s1, j);
    assert j in s1.tbl;
    if j !in s0.tbl {
      assert j.root == r;
      if j.level < 2 {
        NothingBelow(s0, j);
      }
    }
    assert Root(r) in s0.tbl;
  }

  // ---------------------------------------------------------------- booting the allocator

  /** The allocator after freerange has handed in the frames from end up to p. */
  ghost predicate Booting(s: State, p: nat) {
    && AllocInv(s) && s.end <= p <= |s.mem| && |s.free| == p - s.end
    && s.tbl == map[] && s.keyOf == map[] && s.maps == map[]
    && (forall q {:trigger s.refs[q]} {:trigger s.holds[q]} :: 0 <= q < |s.refs| ==> s.refs[q] == 0 && s.holds[q] == 0)
    && (forall q {:trigger IsFree(s, q)} :: s.end <= q < p ==> IsFree(s, q))
    && (forall k {:trigger s.free[k]} :: 0 <= k < |s.free| ==> s.free[k] < p)
  }

  lemma BootNext(s: State, p: nat)
    requires Booting(s, p) && p < |s.mem|
    ensures Booting(AfterKfree(s, p), p + 1)
  {
    KfreeAllocInv(s, p);
    var s' := AfterKfree(s, p);
    forall q | s'.end <= q < p + 1 ensures IsFree(s', q) {
      assert q < p ==> IsFree(s, q);
    }
  }

  lemma Booted(s: State)
    requires Booting(s, |s.mem|)
    ensures Inv(s, NOSLOT) && HoldsOk(s)
  {
    forall p | InRange(s, p) ensures CountOk(s, p) {
      assert s.refs[p] == 0 && s.holds[p] == 0;
      assert Owners(s.maps, s.shm, p) == {};
    }
    forall p | s.end <= p < |s.refs| && s.refs[p] == 0 ensures IsFree(s, p) {
    }
  }

  // ---------------------------------------------------------------- freeing tables

  /** The child of k on the way down to j. */
  function Branch(j: Key, k: Key): nat {
    if j.level + 1 == k.level then j.prefix else j.prefix / 512
  }

  /** j lies strictly below k, under one of its first n slots. */
  predicate Below(j: Key, k: Key, n: nat) {
    j.root == k.root && j.level < k.level && k.prefix * 512 <= Branch(j, k) < k.prefix * 512 + n
  }

  /** No mapping of the root passes through one of the first n slots of the table. */
  ghost predicate UnusedBelow(maps: map<nat, map<nat, Word>>, k: Key, n: nat) {
    k.root in maps && forall v {:trigger v in maps[k.root]} ::
      v in maps[k.root] && Prefix(k.level, v) == k.prefix ==> PX(k.level, v) >= n
  }

  lemma UnusedStep(maps: map<nat, map<nat, Word>>, k: Key, i: nat)
    requires k.level <= 2 && i < PTES
    ensures k.level > 0 ==> (UnusedBelow(maps, k, i + 1) <==> UnusedBelow(maps, k, i) && Unused(maps, Child(k, i)))
    ensures k.level == 0 && k.root in maps ==>
              (UnusedBelow(maps, k, i + 1) <==> UnusedBelow(maps, k, i) && k.prefix * 512 + i !in maps[k.root])
  {
    if k.root in maps {
      forall v | v in maps[k.root]
        ensures Prefix(k.level, v) == k.prefix && PX(k.level, v) == i <==>
          if k.level > 0 then Prefix(k.level - 1, v) == k.prefix * 512 + i else v == k.prefix * 512 + i
      {
        PrefixStep(k.level, v);
      }
    }
  }

  /** The tables under the first n slots of k through which nothing is mapped are gone, and nothing else. */
  ghost predicate Pruned(s: State, s': State, k: Key, n: nat) {
    && s'.maps == s.maps && s'.holds == s.holds && Shrinks(s, s')
    && (forall j {:trigger j in s'.tbl} {:trigger j in s.tbl} ::
         j in s'.tbl <==> j in s.tbl && !(Below(j, k, n) && Unused(s.maps, j)))
    && (forall j {:trigger s'.tbl[j]} :: j in s'.tbl ==> s'.tbl[j] == s.tbl[j])
  }

  /** An invalid slot has no table and no mapping below it. */
  lemma PrunedHole(s: State, s': State, k: Key, i: nat)
    requires Inv(s', NOSLOT) && k in s'.tbl && i < PTES && Pruned(s, s', k, i)
    requires s'.tbl[k] < |s'.mem| && SlotOk(s', k, i, s'.mem[s'.tbl[k]][i]) && !s'.mem[s'.tbl[k]][i].flags.v
    ensures Pruned(s, s', k, i + 1)
    ensures UnusedBelow(s'.maps, k, i + 1) <==> UnusedBelow(s'.maps, k, i)
  {
    assert KeyOk(s', k);
    UnusedStep(s'.maps, k, i);
    if k.level > 0 {
      NothingBelow(s', Child(k, i));
      forall j ensures j in s'.tbl <==> j in s.tbl && !(Below(j, k, i + 1) && Unused(s.maps, j)) {
      }
    }
  }

  /** Below a missing table there is nothing. */
  lemma NothingBelow(s: State, c: Key)
    requires Inv(s, NOSLOT) && c.level < 2 && c !in s.tbl && c.root in s.maps
    ensures Unused(s.maps, c)
    ensures forall j {:trigger j in s.tbl} :: j in s.tbl ==> !Below(j, c, PTES)
  {
    forall v | v in s.maps[c.root] ensures Prefix(c.level, v) != c.prefix {
      assert MappedOk(s, c.root, v);
      assert KeyOk(s, LeafKey(c.root, v));
      PrefixStep(0, v);
      PrefixStep(1, v);
    }
    forall j | j in s.tbl ensures !Below(j, c, PTES) {
      assert KeyOk(s, j);
    }
  }

  /** A valid entry without R, W and X leads to a table of the next level. */
  lemma SlotIsTable(s: State, k: Key, i: nat)
    requires Inv(s, NOSLOT) && k in s.tbl && i < PTES && s.tbl[k] < |s.mem| && SlotOk(s, k, i, s.mem[s.tbl[k]][i])
    requires s.mem[s.tbl[k]][i].flags.v && !Leaf(s.mem[s.tbl[k]][i])
    ensures 0 < k.level <= 2 && Child(k, i) in s.tbl && s.tbl[Child(k, i)] == s.mem[s.tbl[k]][i].ppn
    ensures ParentSlot(s, Child(k, i)) == (s.tbl[k], i)
  {
    assert KeyOk(s, k);
    if k.level == 0 {
      SlotOfPage(s, k.root, k.prefix * 512 + i);
    } else {
      ChildInjective(k, i, k, i);
    }
  }

  lemma PrunedChild(s: State, s1: State, s2: State, k: Key, i: nat)
    requires 0 < k.level <= 2 && i < PTES && Pruned(s, s1, k, i) && Child(k, i) in s1.tbl
    requires Pruned(s1, s2, Child(k, i), PTES) && k in s1.tbl
    ensures k in s2.tbl && s2.tbl[k] == s1.tbl[k] && Child(k, i) in s2.tbl && s2.tbl[Child(k, i)] == s1.tbl[Child(k, i)]
    ensures Unused(s2.maps, Child(k, i)) ==> NoChildren(s2, Child(k, i))
    ensures !Unused(s2.maps, Child(k, i)) ==> Pruned(s, s2, k, i + 1)
    ensures UnusedBelow(s2.maps, k, i + 1) <==> UnusedBelow(s2.maps, k, i) && Unused(s2.maps, Child(k, i))
    ensures Shrinks(s, s2)
  {
    var c := Child(k, i);
    UnusedStep(s.maps, k, i);
    if Unused(s2.maps, c) && c.level > 0 {
      forall n | 0 <= n < PTES ensures Child(c, n) !in s2.tbl {
      }
    }
    if !Unused(s2.maps, c) {
      forall j ensures j in s2.tbl <==> j in s.tbl && !(Below(j, k, i + 1) && Unused(s.maps, j)) {
      }
    }
  }

  /** Unlinking and freeing a table with nothing below it. */
  ghost function FreeTable(s: State, k: Key): State
    requires AllocInv(s) && k in s.tbl && InRange(s, s.tbl[k])
  {
    AllocOfDropTable(s, k);
    AfterKfree(DropTable(s, k), s.tbl[k])
  }

  lemma AllocOfDropTable(s: State, k: Key)
    requires AllocInv(s) && k in s.tbl && s.tbl[k] < |s.holds|
    ensures AllocInv(DropTable(s, k))
  {
    var s' := DropTable(s, k);
    forall k | 0 <= k < |s'.free| ensures FreeOk(s', k) {
      assert FreeOk(s, k);
    }
  }

  lemma FreeTableInv(s: State, k: Key)
    requires Inv(s, NOSLOT) && k in s.tbl && k.level < 2 && Unused(s.maps, k) && NoChildren(s, k)
    ensures InRange(s, s.tbl[k]) && AllocInv(DropTable(s, k)) && Inv(FreeTable(s, k), ParentSlot(s, k))
    ensures Parent(k) in s.tbl && Parent(k) != k && s.tbl[Parent(k)] != s.tbl[k] && s.tbl[Parent(k)] < |s.mem|
    ensures FreeTable(s, k).holds == s.holds && Shrinks(s, FreeTable(s, k))
  {
    assert KeyOk(s, k) && KeyOk(s, Parent(k));
    TableRefs(s, s.tbl[k], NOSLOT);
    DropTableInv(s, k);
    KfreeInv(DropTable(s, k), s.tbl[k], ParentSlot(s, k));
  }

  ghost function RemoveTable(s: State, k: Key): State
    requires AllocInv(s) && k in s.tbl && InRange(s, s.tbl[k])
    requires Parent(k) in s.tbl && Parent(k) != k && s.tbl[Parent(k)] < |s.mem|
  {
    WithSlot(FreeTable(s, k), Parent(k), k.prefix % 512, ZERO)
  }

  lemma RemoveTableInv(s: State, k: Key)
    requires Inv(s, NOSLOT) && k in s.tbl && k.level < 2 && Unused(s.maps, k) && NoChildren(s, k)
    ensures InRange(s, s.tbl[k]) && AllocInv(DropTable(s, k))
    ensures Parent(k) in s.tbl && Parent(k) != k && s.tbl[Parent(k)] < |s.mem|
    ensures Inv(RemoveTable(s, k), NOSLOT) && Shrinks(s, RemoveTable(s, k)) && RemoveTable(s, k).holds == s.holds
  {
    FreeTableInv(s, k);
    var s1 := FreeTable(s, k);
    assert k == Child(Parent(k), k.prefix % 512);
    WithSlotInv(s1, Parent(k), k.prefix % 512, ZERO);
    assert KeyOk(s, Parent(k));
    TableRefs(s, s.tbl[Parent(k)], NOSLOT);
  }

  lemma PrunedRemove(s: State, s1: State, s2: State, s3: State, k: Key, i: nat)
    requires 0 < k.level <= 2 && i < PTES && Pruned(s, s1, k, i) && Child(k, i) in s1.tbl
    requires Pruned(s1, s2, Child(k, i), PTES) && Unused(s2.maps, Child(k, i))
    requires s3.maps == s2.maps && s3.holds == s2.holds && s3.tbl == s2.tbl - {Child(k, i)} && Shrinks(s2, s3)
    ensures Pruned(s, s3, k, i + 1)
  {
    forall j ensures j in s3.tbl <==> j in s.tbl && !(Below(j, k, i + 1) && Unused(s.maps, j)) {
    }
  }

  /** The tables under the first n slots of k are gone, and nothing else. */
  ghost predicate Freed(s: State, s': State, k: Key, n: nat) {
    && s'.maps == s.maps && s'.holds == s.holds && Shrinks(s, s')
    && (forall j {:trigger j in s'.tbl} {:trigger j in s.tbl} :: j in s'.tbl <==> j in s.tbl && !Below(j, k, n))
    && (forall j {:trigger s'.tbl[j]} :: j in s'.tbl ==> s'.tbl[j] == s.tbl[j])
  }

  /** The table k and all tables below it are gone, together with the tree if k is its root. */
  ghost predicate Gone(s: State, s': State, k: Key) {
    && s'.maps == (if k.level == 2 then s.maps - {k.root} else s.maps) && s'.holds == s.holds && Shrinks(s, s')
    && (forall j {:trigger j in s'.tbl} {:trigger j in s.tbl} ::
         j in s'.tbl <==> j in s.tbl && j != k && !Below(j, k, PTES))
    && (forall j {:trigger s'.tbl[j]} :: j in s'.tbl ==> s'.tbl[j] == s.tbl[j])
  }

  lemma FreedHole(s: State, s': State, k: Key, i: nat)
    requires Inv(s', NOSLOT) && k in s'.tbl && i < PTES && Freed(s, s', k, i)
    requires s'.tbl[k] < |s'.mem| && SlotOk(s', k, i, s'.mem[s'.tbl[k]][i]) && !s'.mem[s'.tbl[k]][i].flags.v
    ensures Freed(s, s', k, i + 1)
  {
    assert KeyOk(s', k);
    if k.level > 0 {
      NothingBelow(s', Child(k, i));
      forall j ensures j in s'.tbl <==> j in s.tbl && !Below(j, k, i + 1) {
      }
    }
  }

  /** freewalk never meets a leaf in a table through which nothing is mapped. */
  lemma UnusedNoLeaf(s: State, k: Key, i: nat)
    requires Inv(s, NOSLOT) && k in s.tbl && i < PTES && Unused(s.maps, k)
    ensures s.tbl[k] < |s.mem| && SlotOk(s, k, i, s.mem[s.tbl[k]][i]) && !Leaf(s.mem[s.tbl[k]][i])
  {
    assert KeyOk(s, k) && SlotOk(s, k, i, s.mem[s.tbl[k]][i]);
    if k.level == 0 {
    }
  }

  lemma FreedChild(s: State, s1: State, s2: State, k: Key, i: nat)
    requires 0 < k.level <= 2 && i < PTES && Freed(s, s1, k, i) && k in s1.tbl && k in s.tbl && s1.tbl[k] < |s1.mem|
    requires Gone(s1, s2, Child(k, i)) && Inv(s2, (s1.tbl[k], i)) && Unused(s1.maps, k)
    ensures k in s2.tbl && s2.tbl[k] == s1.tbl[k] && s2.tbl[k] < |s2.mem|
    ensures Inv(WithSlot(s2, k, i, ZERO), NOSLOT) && Freed(s, WithSlot(s2, k, i, ZERO), k, i + 1)
    ensures s2.maps == s1.maps
  {
    assert k in s2.tbl;
    assert KeyOk(s2, k);
    WithSlotInv(s2, k, i, ZERO);
    TableRefs(s2, s2.tbl[k], (s1.tbl[k], i));
    var s3 := WithSlot(s2, k, i, ZERO);
    forall j ensures j in s3.tbl <==> j in s.tbl && !Below(j, k, i + 1) {
    }
  }

  lemma FreedAll(s: State, s': State, k: Key)
    requires Inv(s', NOSLOT) && Freed(s, s', k, PTES) && k in s'.tbl && k.level <= 2 && Unused(s'.maps, k)
    ensures NoChildren(s', k)
    ensures k.level == 2 ==> k == Root(k.root) && s'.maps[k.root] == map[]
  {
    assert KeyOk(s', k);
    if k.level > 0 {
      forall n | 0 <= n < PTES ensures Child(k, n) !in s'.tbl {
      }
    }
    if k.level == 2 {
      forall v ensures v !in s'.maps[k.root] {
        assert v in s'.maps[k.root] ==> MappedOk(s', k.root, v);
      }
    }
  }

  /** Freeing the root of an empty tree. */
  ghost function FreeRoot(s: State, r: nat): State
    requires AllocInv(s) && InRange(s, r)
  {
    AllocOfDropRoot(s, r);
    AfterKfree(DropRoot(s, r), r)
  }

  lemma AllocOfDropRoot(s: State, r: nat)
    requires AllocInv(s) && r < |s.holds|
    ensures AllocInv(DropRoot(s, r))
  {
    var s' := DropRoot(s, r);
    forall k | 0 <= k < |s'.free| ensures FreeOk(s', k) {
      assert FreeOk(s, k);
    }
  }

  lemma FreeRootInv(s: State, r: nat)
    requires Inv(s, NOSLOT) && r in s.maps && s.maps[r] == map[] && NoChildren(s, Root(r))
    ensures InRange(s, r) && Root(r) in s.tbl && s.tbl[Root(r)] == r && AllocInv(DropRoot(s, r))
    ensures Inv(FreeRoot(s, r), NOSLOT) && FreeRoot(s, r).holds == s.holds && Shrinks(s, FreeRoot(s, r))
  {
    assert Root(r) in s.tbl && KeyOk(s, Root(r));
    TableRefs(s, r, NOSLOT);
    DropRootInv(s, r);
    KfreeInv(DropRoot(s, r), r, NOSLOT);
  }
}
