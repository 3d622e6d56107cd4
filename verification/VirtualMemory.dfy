/** kernel/kalloc.c and kernel/vm.c: the page allocator with its reference counts, and the page tables that live in
    the pages it hands out.

    Machine holds physical memory as an array of pages, the references array and the head of the free list, which is
    threaded through the first words of the free pages.  Its methods are the functions of the two files.  They read
    and write page-table entries in memory, as the source does; the ghost fields only say what these entries mean.

    The longer functions are split at the rounds of their loops and at their ways out, so that each part can be stated
    on its own.  A part that runs while the invariant is broken says in its contract which slot is exempt from it.
    Arguments that the source takes as page-aligned addresses are page numbers here, and a frame number stands for
    the physical address of the frame. */
module VirtualMemory {
  import opened Sv39
  import opened VmState
  import opened PageMaps

  /** PTE_R | PTE_U | xperm, with PTE_V. */
  function UserFlags(xperm: Flags): Flags {
    xperm.(v := true, r := true, u := true)
  }

  /** How a call that maps pages ends: all are mapped, memory for page tables ran out (-1 in the source), or
      mappages met a valid entry, where the kernel panics ("remap"). */
  datatype Mapping = Mapped | NoMemory | Remap

  class Machine {
    const mem: array<Page>
    const references: array<int>
    var freelist: nat
    const end: nat
    var shm_page_pa: nat

    ghost var free: seq<nat>
    ghost var rank: seq<nat>
    ghost var tbl: map<Key, nat>
    ghost var keyOf: map<nat, Key>
    ghost var maps: map<nat, map<nat, Word>>
    ghost var holds: seq<int>

    ghost function S(): State
      reads this, mem, references
    {
      State(mem[..], references[..], freelist, end, shm_page_pa, free, rank, tbl, keyOf, maps, holds)
    }

    ghost predicate Valid()
      reads this, mem, references
    {
      Inv(S(), NOSLOT)
    }

    // -------------------------------------------------------------- kernel/kalloc.c

    /** kinit: every frame from `end_` up to the end of RAM goes on the free list. */
    constructor (npages: nat, end_: nat)
      requires 0 < end_ <= npages
      ensures Valid() && HoldsOk(S()) && fresh(mem) && fresh(references)
      ensures maps == map[] && end == end_ && mem.Length == npages && |free| == npages - end_ && shm_page_pa == 0
      ensures forall p :: 0 <= p < npages ==> holds[p] == 0
    {
      mem := new Page[npages](i => Fill(ZERO));
      references := new int[npages](i => 0);
      freelist, end, shm_page_pa := 0, end_, 0;
      free, rank, holds := [], seq(npages, i => 0), seq(npages, i => 0);
      tbl, keyOf, maps := map[], map[], map[];
      new;
      Freerange(end_, npages);
    }

    method Freerange(start: nat, stop: nat)
      requires start == end && stop == mem.Length && Booting(S(), start)
      modifies this, mem, references
      ensures Booting(S(), stop) && Valid() && HoldsOk(S())
      ensures shm_page_pa == old(shm_page_pa)
    {
      var p := start;
      while p + 1 <= stop
        invariant start <= p <= stop && Booting(S(), p) && shm_page_pa == old(shm_page_pa)
      {
        BootNext(S(), p);
        Kfree(p);
        p := p + 1;
      }
      Booted(S());
    }

    method Kalloc() returns (r: nat)
      requires AllocInv(S())
      modifies this, mem, references
      ensures old(free) == [] ==> r == 0 && S() == old(S())
      ensures old(free) != [] ==> r == old(freelist) && r != 0 && S() == AfterKalloc(old(S()))
      ensures old(free) != [] ==> r < mem.Length && old(free) == free + [r] && old(references[r]) == 0
      ensures old(free) != [] ==> references[..] == old(references[..])[r := 1]
      ensures old(free) != [] ==> mem[..] == old(mem[..])[r := Fill(ALLOCJUNK)]
    {
      assert free != [] ==> FreeOk(S(), |free| - 1);
      assert free != [] ==> free == free[..|free| - 1] + [freelist];
      r := freelist;
      if r != 0 {
        freelist := mem[r][0].ppn;
        references[r] := 1;
        free, holds := free[..|free| - 1], holds[r := holds[r] + 1];
      }
      if r != 0 {
        mem[r] := Fill(ALLOCJUNK);
      }
    }

    method Kfree(pa: nat)
      requires AllocInv(S()) && end <= pa < mem.Length
      modifies this, mem, references
      ensures S() == AfterKfree(old(S()), pa)
      ensures old(references[pa]) > 1 ==> references[..] == old(references[..])[pa := old(references[pa]) - 1]
      ensures old(references[pa]) > 1 ==> mem[..] == old(mem[..]) && free == old(free)
      ensures old(references[pa]) <= 1 ==> references[..] == old(references[..])[pa := 0] && free == old(free) + [pa]
      ensures old(references[pa]) <= 1 ==> mem[..] == old(mem[..])[pa := Fill(FREEJUNK)[0 := Word(old(freelist), NONE)]]
    {
      if references[pa] > 1 {
        references[pa] := references[pa] - 1;
        holds := holds[pa := holds[pa] - 1];
        return;
      }
      holds := holds[pa := holds[pa] - references[pa]];
      references[pa] := 0;
      mem[pa] := Fill(FREEJUNK);
      mem[pa] := mem[pa][0 := Word(freelist, NONE)];
      freelist := pa;
      rank, free := rank[pa := |free|], free + [pa];
    }

    method Kaddref(pa: nat)
      requires AllocInv(S()) && end <= pa < mem.Length && references[pa] >= 1
      modifies this, references
      ensures S() == AfterKaddref(old(S()), pa)
      ensures references[..] == old(references[..])[pa := old(references[pa]) + 1]
    {
      references[pa] := references[pa] + 1;
      holds := holds[pa := holds[pa] + 1];
    }

    // -------------------------------------------------------------- kernel/vm.c

    /** The part of walk that allocates, clears and links a missing table. */
    method LinkNewTable(ghost key: Key, page: nat, i: nat) returns (child: nat)
      requires Valid() && key in tbl && key.level > 0 && i < PTES && Child(key, i) !in tbl
      requires page == tbl[key] < mem.Length
      modifies this, mem, references
      ensures Valid() && Grows(old(S()), S(), key.root)
      ensures child == 0 ==> free == [] && S() == old(S())
      ensures |free| + 1 >= |old(free)|
      ensures child != 0 ==> Child(key, i) in tbl && tbl[Child(key, i)] == child < mem.Length
    {
      assert free != [] ==> FreeOk(S(), |free| - 1);
      child := Kalloc();
      if child != 0 {
        NewTableInv(old(S()), key, i);
        mem[child] := Fill(ZERO);
        tbl, keyOf, holds := tbl[Child(key, i) := child], keyOf[child := Child(key, i)], holds[child := 0];
        mem[page] := mem[page][i := TableWord(child)];
        assert S() == NewTable(old(S()), key, i);
      }
    }

    /** Finds the slot of a page, adding the missing tables if alloc; the panic for addresses at or above
        MAXVA is excluded by the precondition. */
    method Walk(pagetable: nat, vpn: nat, alloc: bool) returns (found: bool, page: nat, index: nat)
      requires Valid() && pagetable in maps && vpn < MAXVPN
      modifies this, mem, references
      ensures Valid() && Grows(old(S()), S(), pagetable)
      ensures found <==> LeafKey(pagetable, vpn) in tbl
      ensures found ==> page == tbl[LeafKey(pagetable, vpn)] && page < mem.Length && index == vpn % 512
      ensures !found && alloc ==> |old(free)| < 2
      ensures |free| + 2 >= |old(free)|
      ensures !alloc ==> S() == old(S())
    {
      page, index := pagetable, PX(0, vpn);
      ghost var key := Root(pagetable);
      assert key in tbl && KeyOk(S(), key);
      var level := 2;
      while level > 0
        invariant 0 <= level <= 2
        invariant Valid() && Grows(old(S()), S(), pagetable)
        invariant key == Key(pagetable, level, Prefix(level, vpn)) && key in tbl && tbl[key] == page < mem.Length
        invariant !alloc ==> S() == old(S())
        invariant |free| + 2 - level >= |old(free)|
      {
        var i := PX(level, vpn);
        PrefixStep(level, vpn);
        ghost var s := S();
        assert KeyOk(s, key) && SlotOk(s, key, i, s.mem[s.tbl[key]][i]);
        var pte := mem[page][i];
        if pte.flags.v {
          page := pte.ppn;
          assert KeyOk(s, Child(key, i));
        } else {
          if !alloc {
            MissingTable(s, key, i, vpn);
            return false, 0, 0;
          }
          var child := LinkNewTable(key, page, i);
          if child == 0 {
            MissingTable(s, key, i, vpn);
            return false, 0, 0;
          }
          ExtendsTransitive(old(S()), s, S(), pagetable);
          page := child;
        }
        key := Child(key, i);
        level := level - 1;
      }
      return true, page, index;
    }

    /** The flag bits of a page's slot, none of them set if there is no slot. */
    method Lookup(pagetable: nat, vpn: nat) returns (flags: Flags)
      requires Valid() && pagetable in maps && vpn < MAXVPN
      modifies this, mem, references
      ensures S() == old(S())
      ensures flags == if vpn in maps[pagetable] then maps[pagetable][vpn].flags else NONE
    {
      var found, page, index := Walk(pagetable, vpn, false);
      SlotOfPage(S(), pagetable, vpn);
      return if found then mem[page][index].flags else NONE;
    }

    /** The frame of a user page, or 0. */
    method Walkaddr(pagetable: nat, va: nat) returns (pa: nat)
      requires Valid() && pagetable in maps
      modifies this, mem, references
      ensures S() == old(S())
      ensures pa == if va / PGSIZE in maps[pagetable] && maps[pagetable][va / PGSIZE].flags.u
                    then maps[pagetable][va / PGSIZE].ppn else 0
    {
      if va >= MAXVPN * PGSIZE {
        assert va / PGSIZE in maps[pagetable] ==> MappedOk(S(), pagetable, va / PGSIZE);
        return 0;
      }
      var found, page, index := Walk(pagetable, va / PGSIZE, false);
      SlotOfPage(S(), pagetable, va / PGSIZE);
      if !found || !mem[page][index].flags.v || !mem[page][index].flags.u {
        return 0;
      }
      return mem[page][index].ppn;
    }

    /** One round of mappages' loop. */
    method InstallPte(pagetable: nat, a: nat, w: Word) returns (r: Mapping)
      requires Valid() && pagetable in maps && Mappable(S(), a, w)
      modifies this, mem, references
      ensures Valid() && (r.Remap? <==> a in old(maps[pagetable]))
      ensures if r.Mapped? then Installed(old(S()), S(), pagetable, a, w) else Grows(old(S()), S(), pagetable)
      ensures r.NoMemory? ==> |old(free)| < 2
      ensures |free| + 2 >= |old(free)|
    {
      var found, page, index := Walk(pagetable, a, true);
      ghost var s := S();
      SlotOfPage(s, pagetable, a);
      if !found {
        return NoMemory;
      }
      if mem[page][index].flags.v {
        return Remap;
      }
      WriteLeaf(old(S()), pagetable, a, w, page, index);
      return Mapped;
    }

    /** The part of mappages that writes the new entry. */
    method WriteLeaf(ghost s0: State, pagetable: nat, a: nat, w: Word, page: nat, index: nat)
      requires Valid() && Grows(s0, S(), pagetable) && CanMap(S(), pagetable, a, w) && LeafKey(pagetable, a) in tbl
      requires page == tbl[LeafKey(pagetable, a)] < mem.Length && index == a % 512
      modifies mem, `maps, `holds
      ensures Valid() && Installed(s0, S(), pagetable, a, w)
    {
      ghost var s := S();
      MapOneInv(s, pagetable, a, w);
      mem[page] := mem[page][index := w];
      maps, holds := Bind(maps, pagetable, a, w), Transfer(holds, shm_page_pa, a, w.ppn, -1);
      assert S() == MapOne(s, pagetable, a, w);
      ExtendsTransitive(s0, s, S(), pagetable);
    }

    /** The same round, seen as part of the range. */
    method InstallNext(ghost s0: State, pagetable: nat, ghost vpn: nat, ghost pa: nat, f: Flags, ghost done: nat,
        a: nat, p: nat) returns (r: Mapping)
      requires Valid() && |s0.refs| == |s0.mem| && pagetable in s0.maps && a == vpn + done && p == pa + done
      requires InstalledRange(s0, S(), pagetable, vpn, pa, f, done) && MappableAt(s0, vpn, pa, f, done)
      modifies this, mem, references
      ensures Valid() && InstalledRange(s0, S(), pagetable, vpn, pa, f, if r.Mapped? then done + 1 else done)
      ensures r.Remap? <==> a in s0.maps[pagetable]
      ensures r.NoMemory? ==> |old(free)| < 2
      ensures |free| + 2 >= |old(free)|
    {
      ghost var s := S();
      NextMappable(s0, s, pagetable, vpn, pa, f, done, a, Word(p, f));
      r := InstallPte(pagetable, a, Word(p, f));
      if r.Mapped? {
        InstalledNext(s0, s, S(), pagetable, vpn, pa, f, done, a, Word(p, f));
      } else {
        InstalledGrows(s0, s, S(), pagetable, vpn, pa, f, done);
      }
    }

    /** Installs mappings for npages pages.  `done` counts the mappings installed before memory ran out or the
        next page turned out to be mapped already, which is when the kernel panics. */
    method Mappages(pagetable: nat, vpn: nat, npages: nat, pa: nat, perm: Flags) returns (r: Mapping, ghost done: nat)
      requires Valid() && pagetable in maps && 0 < npages && vpn + npages <= MAXVPN && Readable(perm)
      requires forall i {:trigger MappableAt(S(), vpn, pa, perm.(v := true), i)} ::
                 0 <= i < npages ==> MappableAt(S(), vpn, pa, perm.(v := true), i)
      modifies this, mem, references
      ensures Valid() && InstalledRange(old(S()), S(), pagetable, vpn, pa, perm.(v := true), done)
      ensures done <= npages && (r.Mapped? <==> done == npages)
      ensures Vacant(old(maps[pagetable]), vpn, vpn + done)
      ensures r.Remap? <==> done < npages && vpn + done in old(maps[pagetable])
      ensures |free| + 2 * npages >= |old(free)| && (r.NoMemory? ==> |old(free)| < 2 * npages)
    {
      var a, p, last := vpn, pa, vpn + npages - 1;
      done := 0;
      ghost var s0 := S();
      var f := perm.(v := true);
      while true
        invariant done < npages && a == vpn + done && p == pa + done
        invariant Valid() && InstalledRange(s0, S(), pagetable, vpn, pa, f, done)
        invariant Vacant(s0.maps[pagetable], vpn, a) && |free| + 2 * done >= |old(free)|
        decreases npages - done
      {
        r := InstallNext(s0, pagetable, vpn, pa, f, done, a, p);
        if !r.Mapped? {
          break;
        }
        VacantNext(s0.maps[pagetable], vpn, a);
        done := done + 1;
        if a == last {
          break;
        }
        a, p := a + 1, p + 1;
      }
    }

    /** One round of uvmunmap's loop: none of its three panics can fire. */
    method UnmapPte(pagetable: nat, a: nat, doFree: bool)
      requires Valid() && HoldsOk(S()) && pagetable in maps && a in maps[pagetable] && (doFree ==> a < TRAPFRAME)
      modifies this, mem, references
      ensures Valid() && Unmapped(old(S()), S(), pagetable, a, doFree)
    {
      ghost var s := S();
      assert MappedOk(s, pagetable, a);
      var found, page, index := Walk(pagetable, a, false);
      assert found;
      UnmapOneInv(s, pagetable, a, doFree);
      var pte := mem[page][index];
      assert pte.flags.v && pte.flags != NONE.(v := true);
      holds, maps := Transfer(holds, shm_page_pa, a, maps[pagetable][a].ppn, 1), Unbind(maps, pagetable, a);
      assert S() == DropLeaf(s, pagetable, a);
      if doFree {
        var pa := pte.ppn;
        if pa != shm_page_pa {
          Kfree(pa);
        }
      }
      mem[page] := mem[page][index := ZERO];
      assert S() == UnmapOne(s, pagetable, a, doFree);
    }

    method Uvmunmap(pagetable: nat, vpn: nat, npages: nat, doFree: bool)
      requires Valid() && HoldsOk(S()) && pagetable in maps
      requires doFree ==> vpn + npages <= TRAPFRAME
      requires forall v {:trigger v in maps[pagetable]} :: vpn <= v < vpn + npages ==> v in maps[pagetable]
      modifies this, mem, references
      ensures Valid() && UnmappedRange(old(S()), S(), pagetable, vpn, vpn + npages, doFree)
    {
      ghost var s0 := S();
      var a := vpn;
      while a < vpn + npages
        invariant vpn <= a <= vpn + npages
        invariant Valid() && HoldsOk(S()) && UnmappedRange(s0, S(), pagetable, vpn, a, doFree)
      {
        ghost var s := S();
        UnbindRangeAt(s0.maps, pagetable, vpn, a, a);
        UnmapPte(pagetable, a, doFree);
        UnmappedNext(s0, s, S(), pagetable, vpn, a, doFree);
        a := a + 1;
      }
    }

    method UvmunmapSparse(pagetable: nat, start: nat, end_: nat)
      requires Valid() && HoldsOk(S()) && pagetable in maps && start <= end_ <= TRAPFRAME
      modifies this, mem, references
      ensures Valid() && UnmappedRange(old(S()), S(), pagetable, start, end_, true)
    {
      ghost var s0 := S();
      var i := start;
      while i < end_
        invariant start <= i <= end_
        invariant Valid() && UnmappedRange(s0, S(), pagetable, start, i, true)
      {
        ghost var s := S();
        UnbindRangeAt(s0.maps, pagetable, start, i, i);
        var found, page, index := Walk(pagetable, i, false);
        SlotOfPage(s, pagetable, i);
        if found && mem[page][index].flags.v && Readable(mem[page][index].flags) {
          Uvmunmap(pagetable, i, 1, true);
          UnmappedNext(s0, s, S(), pagetable, start, i, true);
        } else {
          UnmappedHole(s0, s, pagetable, start, i);
        }
        i := i + 1;
      }
    }

    /** The part of free_empty_tables that returns an empty table and clears its slot. */
    method FreeChild(ghost key: Key, child: nat, pagetable: nat, i: nat)
      requires Valid() && key in tbl && key.level < 2 && Unused(maps, key) && NoChildren(S(), key) && tbl[key] == child
      requires ParentSlot(S(), key) == (pagetable, i) && Parent(key) in tbl && i < PTES
      modifies this, mem, references
      ensures Valid() && Shrinks(old(S()), S())
      ensures maps == old(maps) && holds == old(holds) && tbl == old(tbl) - {key}
    {
      ghost var s := S();
      RemoveTableInv(s, key);
      tbl, keyOf, holds := tbl - {key}, keyOf - {child}, holds[child := 1];
      assert S() == DropTable(s, key);
      Kfree(child);
      mem[pagetable] := mem[pagetable][i := ZERO];
      assert S() == RemoveTable(s, key);
    }

    /** The part of free_empty_tables that treats a slot leading to a lower table. */
    method FreeEmptyChild(ghost s0: State, ghost key: Key, pagetable: nat, i: nat,
        child: nat) returns (childEmpty: bool)
      requires Valid() && 0 < key.level <= 2 && i < PTES && key in tbl && tbl[key] == pagetable
      requires Pruned(s0, S(), key, i) && Child(key, i) in tbl && tbl[Child(key, i)] == child
      requires ParentSlot(S(), Child(key, i)) == (pagetable, i)
      modifies this, mem, references
      ensures Valid() && Pruned(s0, S(), key, i + 1) && key in tbl && tbl[key] == pagetable
      ensures UnusedBelow(maps, key, i + 1) <==> UnusedBelow(maps, key, i) && childEmpty
      decreases key.level, 0
    {
      ghost var s1 := S();
      childEmpty := FreeEmptyTables(Child(key, i), child);
      ghost var s2 := S();
      PrunedChild(s0, s1, s2, key, i);
      ChildInjective(key, i, key, i);
      if childEmpty {
        FreeChild(Child(key, i), child, pagetable, i);
        PrunedRemove(s0, s1, s2, S(), key, i);
      }
    }

    /** Frees the tables below a table through which no page is mapped, and reports whether the table itself
        is empty.  The ghost key names the table that `pagetable` holds. */
    method FreeEmptyTables(ghost key: Key, pagetable: nat) returns (empty: bool)
      requires Valid() && key in tbl && tbl[key] == pagetable
      modifies this, mem, references
      ensures Valid() && Pruned(old(S()), S(), key, PTES)
      ensures empty <==> Unused(maps, key)
      decreases key.level, 1
    {
      empty := true;
      ghost var s0 := S();
      assert KeyOk(s0, key);
      var i := 0;
      while i < PTES
        invariant 0 <= i <= PTES
        invariant Valid() && Pruned(s0, S(), key, i) && key in tbl && tbl[key] == pagetable < mem.Length
        invariant empty <==> UnusedBelow(maps, key, i)
      {
        ghost var s1 := S();
        assert SlotOk(s1, key, i, s1.mem[s1.tbl[key]][i]);
        var pte := mem[pagetable][i];
        if !pte.flags.v {
          PrunedHole(s0, s1, key, i);
        } else if Readable(pte.flags) {
          empty := false;
        } else {
          SlotIsTable(s1, key, i);
          var childEmpty := FreeEmptyChild(s0, key, pagetable, i, pte.ppn);
          empty := empty && childEmpty;
        }
        i := i + 1;
      }
    }

    /** Frees a table through which no page is mapped, with every table below it; the panic on a leaf cannot
        fire.  The parent's slot still leads to the freed page afterwards, as in the source. */
    method Freewalk(ghost key: Key, pagetable: nat)
      requires Valid() && key in tbl && tbl[key] == pagetable && Unused(maps, key)
      modifies this, mem, references
      ensures Gone(old(S()), S(), key)
      ensures Inv(S(), if key.level < 2 then ParentSlot(old(S()), key) else NOSLOT)
      decreases key.level, 1
    {
      ghost var s0 := S();
      assert KeyOk(s0, key);
      var i := 0;
      while i < PTES
        invariant 0 <= i <= PTES
        invariant Valid() && Freed(s0, S(), key, i) && key in tbl && tbl[key] == pagetable < mem.Length
        invariant maps == s0.maps && ParentSlot(S(), key) == ParentSlot(s0, key)
      {
        ghost var s1 := S();
        UnusedNoLeaf(s1, key, i);
        var pte := mem[pagetable][i];
        if pte.flags.v && !Readable(pte.flags) {
          SlotIsTable(s1, key, i);
          FreewalkChild(s0, key, pagetable, i, pte.ppn);
        } else {
          FreedHole(s0, s1, key, i);
        }
        i := i + 1;
      }
      FreeSwept(s0, key, pagetable);
    }

    /** The part of freewalk that treats a slot leading to a lower table. */
    method FreewalkChild(ghost s0: State, ghost key: Key, pagetable: nat, i: nat, child: nat)
      requires Valid() && key in tbl && tbl[key] == pagetable && 0 < key.level <= 2 && i < PTES && Unused(maps, key)
      requires key in s0.tbl && maps == s0.maps && ParentSlot(S(), key) == ParentSlot(s0, key)
      requires Freed(s0, S(), key, i) && Child(key, i) in tbl && tbl[Child(key, i)] == child
      requires ParentSlot(S(), Child(key, i)) == (pagetable, i)
      modifies this, mem, references
      ensures Valid() && Freed(s0, S(), key, i + 1) && key in tbl && tbl[key] == pagetable < mem.Length
      ensures maps == s0.maps && ParentSlot(S(), key) == ParentSlot(s0, key)
      decreases key.level, 0
    {
      ghost var s1 := S();
      assert KeyOk(s1, key);
      Freewalk(Child(key, i), child);
      FreedChild(s0, s1, S(), key, i);
      mem[pagetable] := mem[pagetable][i := ZERO];
    }

    /** The end of freewalk: the table has no child left and goes. */
    method FreeSwept(ghost s0: State, ghost key: Key, pagetable: nat)
      requires Valid() && key in tbl && tbl[key] == pagetable && Unused(maps, key) && key.level <= 2
      requires Freed(s0, S(), key, PTES)
      modifies this, mem, references
      ensures Gone(s0, S(), key)
      ensures Inv(S(), if key.level < 2 then ParentSlot(old(S()), key) else NOSLOT)
    {
      ghost var s1 := S();
      assert KeyOk(s1, key);
      FreedAll(s0, s1, key);
      if key.level == 2 {
        FreeRootInv(s1, pagetable);
        tbl, keyOf, holds := tbl - {key}, keyOf - {pagetable}, holds[pagetable := 1];
        maps := maps - {pagetable};
        assert S() == DropRoot(s1, pagetable);
      } else {
        FreeTableInv(s1, key);
        tbl, keyOf, holds := tbl - {key}, keyOf - {pagetable}, holds[pagetable := 1];
        assert S() == DropTable(s1, key);
      }
      Kfree(pagetable);
    }

    // -------------------------------------------------------------- address spaces

    method Uvmcreate() returns (pagetable: nat)
      requires Valid()
      modifies this, mem, references
      ensures Valid()
      ensures pagetable == 0 ==> free == [] && S() == old(S())
      ensures |free| + 1 >= |old(free)|
      ensures pagetable != 0 ==> pagetable !in old(maps) && maps == old(maps)[pagetable := map[]]
      ensures pagetable != 0 ==> holds == old(holds) && Extends(old(S()), S(), pagetable)
    {
      ghost var s := S();
      assert free != [] ==> FreeOk(s, |free| - 1);
      pagetable := KallocFilled(0);
      if pagetable == 0 {
        return 0;
      }
      NewRootInv(s);
      tbl, keyOf := tbl[Root(pagetable) := pagetable], keyOf[pagetable := Root(pagetable)];
      maps, holds := maps[pagetable := map[]], holds[pagetable := 0];
      assert S() == NewRoot(s);
    }

    /** kalloc followed by clearing the frame, or by copying the frame src into it. */
    method KallocFilled(src: nat) returns (p: nat)
      requires Valid() && (src == 0 || Live(S(), src))
      modifies this, mem, references
      ensures p == 0 ==> S() == old(S()) && free == []
      ensures p != 0 ==> old(free) != [] && p == old(freelist) < mem.Length
      ensures p != 0 ==> S() == WithPage(AfterKalloc(old(S())), p, if src == 0 then Fill(ZERO) else old(mem[src]))
    {
      assert free != [] ==> FreeOk(S(), |free| - 1);
      p := Kalloc();
      if p != 0 {
        mem[p] := if src == 0 then Fill(ZERO) else mem[src];
      }
    }

    /** The pattern shared by uvmalloc, uvmcopy and vmfault: allocate a frame, clear it or copy another one
        into it, map it, and give it back if mapping fails. */
    method AllocPage(pagetable: nat, a: nat, src: nat, perm: Flags) returns (r: Mapping, p: nat)
      requires Valid() && ShmOk(S()) && pagetable in maps && a < TRAPFRAME && Readable(perm)
      requires src == 0 || Live(S(), src)
      modifies this, mem, references
      ensures r.Remap? <==> a in old(maps[pagetable]) && old(free) != []
      ensures !r.Remap? ==> Valid() && ShmOk(S())
      ensures r.NoMemory? ==> Grows(old(S()), S(), pagetable) && |old(free)| < 3
      ensures r.Mapped? ==> a !in old(maps[pagetable]) && |free| + 3 >= |old(free)|
      ensures r.Mapped? ==> Allocated(old(S()), S(), pagetable, a, p, perm.(v := true),
                                      if src == 0 then Fill(ZERO) else old(mem[src]))
    {
      ghost var s := S();
      p := KallocFilled(src);
      if p == 0 {
        return NoMemory, 0;
      }
      ghost var content := if src == 0 then Fill(ZERO) else s.mem[src];
      r := MapFresh(s, pagetable, a, p, perm, content);
      if !r.Remap? {
        KeepsShm(s, S());
      }
    }

    /** The part that maps the new frame, or gives it back. */
    method MapFresh(ghost s: State, pagetable: nat, a: nat, p: nat, perm: Flags, ghost content: Page)
      returns (r: Mapping)
      requires Inv(s, NOSLOT) && ShmOk(s) && s.free != [] && p == s.head < |s.mem|
      requires S() == WithPage(AfterKalloc(s), p, content)
      requires pagetable in s.maps && a < TRAPFRAME && Readable(perm)
      modifies this, mem, references
      ensures r.Remap? <==> a in s.maps[pagetable]
      ensures !r.Remap? ==> Valid()
      ensures r.Mapped? ==> Allocated(s, S(), pagetable, a, p, perm.(v := true), content) && |free| + 3 >= |s.free|
      ensures r.NoMemory? ==> Grows(s, S(), pagetable) && |s.free| < 3
    {
      ghost var f, s1 := perm.(v := true), S();
      FreshMappable(s, s1, pagetable, a, p, f, content);
      ghost var done;
      r, done := Mappages(pagetable, a, 1, p, perm);
      if r.NoMemory? {
        NotAllocatedInv(s, s1, S(), pagetable, a, p, f, content);
        Kfree(p);
      } else if r.Mapped? {
        AllocatedInv(s, s1, S(), pagetable, a, p, f, content);
      }
    }

    /** The same as one round of a loop that fills the pages from lo on. */
    method AllocNext(ghost s0: State, pagetable: nat, ghost want: map<nat, (Flags, Page)>, ghost lo: nat, a: nat,
        src: nat, perm: Flags) returns (r: Mapping)
      requires Inv(s0, NOSLOT) && Valid() && ShmOk(S()) && lo <= a < TRAPFRAME && Readable(perm)
      requires Filled(s0, S(), pagetable, want, lo, a) && a in want && (src == 0 || Live(S(), src))
      requires want[a] == (perm.(v := true), if src == 0 then Fill(ZERO) else mem[src])
      modifies this, mem, references
      ensures r.Remap? ==> a in s0.maps[pagetable]
      ensures a in s0.maps[pagetable] ==> !r.Mapped?
      ensures !r.Remap? ==> Valid() && ShmOk(S())
      ensures r.Mapped? ==> Filled(s0, S(), pagetable, want, lo, a + 1) && |free| + 3 >= |old(free)|
      ensures r.NoMemory? ==> Grows(old(S()), S(), pagetable) && |old(free)| < 3
    {
      ghost var s := S();
      var p;
      r, p := AllocPage(pagetable, a, src, perm);
      if r.Mapped? {
        FilledNext(s0, s, S(), pagetable, want, lo, a, p);
      }
    }

    method Uvmdealloc(pagetable: nat, oldsz: nat, newsz: nat) returns (sz: nat)
      requires Valid() && HoldsOk(S()) && pagetable in maps && Pages(oldsz) <= TRAPFRAME
      modifies this, mem, references
      ensures Valid() && sz == (if newsz >= oldsz then oldsz else newsz)
      ensures Pages(newsz) >= Pages(oldsz) ==> S() == old(S())
      ensures Pages(newsz) < Pages(oldsz) ==> Dealloced(old(S()), S(), pagetable, Pages(newsz), Pages(oldsz))
    {
      if newsz >= oldsz {
        return oldsz;
      }
      if Pages(newsz) < Pages(oldsz) {
        UvmunmapSparse(pagetable, Pages(newsz), Pages(oldsz));
        ghost var s1 := S();
        assert KeyOk(s1, Root(pagetable));
        var _ := FreeEmptyTables(Root(pagetable), pagetable);
        DeallocedBy(old(S()), s1, S(), pagetable, Pages(newsz), Pages(oldsz));
      }
      return newsz;
    }

    /** Growth from oldsz to newsz; `remap` says that mappages met a page that was mapped already. */
    method Uvmalloc(pagetable: nat, oldsz: nat, newsz: nat, xperm: Flags) returns (sz: nat, remap: bool)
      requires Valid() && HoldsOk(S()) && ShmOk(S()) && pagetable in maps && Pages(newsz) <= TRAPFRAME
      modifies this, mem, references
      ensures remap ==> !Vacant(old(maps[pagetable]), Pages(oldsz), Pages(newsz))
      ensures !remap ==> Valid() && ShmOk(S())
      ensures newsz < oldsz ==> !remap && sz == oldsz && S() == old(S())
      ensures newsz >= oldsz && Pages(newsz) == Pages(oldsz) ==> !remap && sz == newsz && S() == old(S())
      ensures newsz >= oldsz ==> sz == newsz || sz == 0
      ensures newsz >= oldsz && sz == newsz && newsz > 0 ==> !remap
      ensures newsz >= oldsz && sz == newsz && newsz > 0 ==>
                Filled(old(S()), S(), pagetable, Wanted(Pages(oldsz), Pages(newsz), UserFlags(xperm)),
                       Pages(oldsz), Pages(newsz))
      ensures newsz >= oldsz && sz == newsz && newsz > 0 ==>
                Vacant(old(maps[pagetable]), Pages(oldsz), Pages(newsz))
      ensures newsz >= oldsz && sz == 0 && newsz > 0 && !remap ==> |old(free)| < 3 * (Pages(newsz) - Pages(oldsz))
      ensures newsz >= oldsz && sz == 0 && newsz > 0 && !remap ==>
                maps == old(maps) && holds == old(holds) && Keeps(old(S()), S())
    {
      if newsz < oldsz {
        return oldsz, false;
      }
      ghost var s0, want := S(), Wanted(Pages(oldsz), Pages(newsz), UserFlags(xperm));
      var a := Pages(oldsz);
      while a * PGSIZE < newsz
        invariant Pages(oldsz) <= a <= Pages(newsz)
        invariant Valid() && ShmOk(S()) && Filled(s0, S(), pagetable, want, Pages(oldsz), a)
        invariant a == Pages(oldsz) ==> S() == s0
        invariant Vacant(s0.maps[pagetable], Pages(oldsz), a) && |free| + 3 * (a - Pages(oldsz)) >= |old(free)|
      {
        PageBelow(a, newsz);
        ghost var s := S();
        var r := AllocNext(s0, pagetable, want, Pages(oldsz), a, 0, xperm.(r := true, u := true));
        if r.Remap? {
          return 0, true;
        }
        if r.NoMemory? {
          UndoAlloc(s0, s, pagetable, want, Pages(oldsz), a);
          return 0, false;
        }
        VacantNext(s0.maps[pagetable], Pages(oldsz), a);
        a := a + 1;
      }
      PageBelow(a, newsz);
      return newsz, false;
    }

    /** uvmalloc's way out when memory is exhausted. */
    method UndoAlloc(ghost s0: State, ghost s: State, pagetable: nat, ghost want: map<nat, (Flags, Page)>, lo: nat,
        a: nat)
      requires Valid() && Inv(s0, NOSLOT) && HoldsOk(s0) && ShmOk(s0) && lo <= a <= TRAPFRAME
      requires Filled(s0, s, pagetable, want, lo, a) && Grows(s, S(), pagetable) && Vacant(s0.maps[pagetable], lo, a)
      modifies this, mem, references
      ensures Valid() && ShmOk(S()) && maps == s0.maps && holds == s0.holds && Keeps(s0, S())
    {
      ghost var s1 := S();
      FilledGrows(s0, s, s1, pagetable, want, lo, a);
      assert Pages(a * PGSIZE) == a && Pages(lo * PGSIZE) == lo;
      var _ := Uvmdealloc(pagetable, a * PGSIZE, lo * PGSIZE);
      if lo < a {
        UndoneDealloced(s0, s1, S(), pagetable, want, lo, a);
      } else {
        UndoneMaps(s0, s1, pagetable, want, lo, a);
      }
      KeepsShm(s0, S());
    }

    /** Frees the user pages below sz and then the whole tree. */
    method Uvmfree(pagetable: nat, sz: nat)
      requires Valid() && HoldsOk(S()) && pagetable in maps && Pages(sz) <= TRAPFRAME
      requires forall v {:trigger v in maps[pagetable]} :: v in maps[pagetable] ==> v < Pages(sz)
      modifies this, mem, references
      ensures Valid() && Released(old(S()), S(), pagetable)
    {
      ghost var s := S();
      if sz > 0 {
        UvmunmapSparse(pagetable, 0, Pages(sz));
      }
      ghost var s1 := S();
      EmptiedRoot(s, s1, pagetable, Pages(sz));
      assert KeyOk(s1, Root(pagetable));
      Freewalk(Root(pagetable), pagetable);
      ReleasedBy(s, s1, S(), pagetable, Pages(sz));
    }

    /** Maps a zeroed page at a faulting address below the process size, unless one is there already. */
    method Vmfault(pagetable: nat, psz: nat, va: nat) returns (pa: nat)
      requires Valid() && ShmOk(S()) && pagetable in maps && Pages(psz) <= TRAPFRAME
      modifies this, mem, references
      ensures Valid() && ShmOk(S())
      ensures va >= psz || va / PGSIZE in old(maps[pagetable]) ==> pa == 0 && S() == old(S())
      ensures pa == 0 ==> Grows(old(S()), S(), pagetable)
      ensures |free| + 3 >= |old(free)|
      ensures pa == 0 && va < psz && va / PGSIZE !in old(maps[pagetable]) ==> |old(free)| < 3
      ensures pa != 0 ==> Allocated(old(S()), S(), pagetable, va / PGSIZE, pa,
                                    UserFlags(NONE.(w := true)), Fill(ZERO))
    {
      if va >= psz {
        return 0;
      }
      var a := va / PGSIZE;
      var mapped := Ismapped(pagetable, a);
      if mapped {
        return 0;
      }
      var r;
      r, pa := AllocPage(pagetable, a, 0, NONE.(w := true, u := true, r := true));
      if !r.Mapped? {
        return 0;
      }
    }

    method Ismapped(pagetable: nat, vpn: nat) returns (mapped: bool)
      requires Valid() && pagetable in maps && vpn < MAXVPN
      modifies this, mem, references
      ensures S() == old(S()) && (mapped <==> vpn in maps[pagetable])
    {
      var found, page, index := Walk(pagetable, vpn, false);
      SlotOfPage(S(), pagetable, vpn);
      if !found {
        return false;
      }
      return mem[page][index].flags.v;
    }

    /** One round of uvmcopy's loop; holes stay holes. */
    method CopyPage(ghost s0: State, src: nat, dst: nat, i: nat, ghost want: map<nat, (Flags, Page)>) returns (ok: bool)
      requires Inv(s0, NOSLOT) && HoldsOk(s0) && ShmOk(s0) && Valid() && ShmOk(S()) && src in s0.maps && src != dst
      requires Filled(s0, S(), dst, want, 0, i) && i !in s0.maps[dst] && i < TRAPFRAME
      requires i in want <==> i in s0.maps[src]
      requires i in want ==> s0.maps[src][i].ppn < |s0.mem|
      requires i in want ==> want[i] == (s0.maps[src][i].flags, s0.mem[s0.maps[src][i].ppn])
      modifies this, mem, references
      ensures Valid() && ShmOk(S())
      ensures ok ==> Filled(s0, S(), dst, want, 0, i + 1) && |free| + (if i in want then 3 else 0) >= |old(free)|
      ensures !ok ==> Filled(s0, S(), dst, want, 0, i) && |old(free)| < 3 && i in want
    {
      ghost var s := S();
      var found, page, index := Walk(src, i, false);
      SlotOfPage(s, src, i);
      if !found || !mem[page][index].flags.v {
        return true;
      }
      var pa, flags := mem[page][index].ppn, mem[page][index].flags;
      MappedLive(s0, src, i);
      assert s.refs[pa] == s0.refs[pa];
      var r := AllocNext(s0, dst, want, 0, i, pa, flags);
      if !r.Mapped? {
        FilledGrows(s0, s, S(), dst, want, 0, i);
        return false;
      }
      return true;
    }

    /** fork's copy: all or nothing. */
    method Uvmcopy(src: nat, dst: nat, sz: nat) returns (ok: bool)
      requires Valid() && HoldsOk(S()) && ShmOk(S()) && src in maps && dst in maps && src != dst
      requires Pages(sz) <= TRAPFRAME && Vacant(maps[dst], 0, Pages(sz))
      modifies this, mem, references
      ensures Valid() && ShmOk(S())
      ensures !ok ==> Grows(old(S()), S(), dst) && |old(free)| < 3 * old(MappedBelow(maps[src], Pages(sz)))
      ensures BackedBelow(old(S()), src, Pages(sz))
      ensures ok ==> Filled(old(S()), S(), dst, CopyWanted(old(S()), src, Pages(sz)), 0, Pages(sz))
      ensures ok ==> |free| + 3 * old(MappedBelow(maps[src], Pages(sz))) >= |old(free)|
    {
      ghost var s0, m := S(), maps[src];
      CopyDefined(s0, src, Pages(sz));
      ghost var want := CopyWanted(s0, src, Pages(sz));
      var i := 0;
      while i * PGSIZE < sz
        invariant 0 <= i <= Pages(sz)
        invariant Valid() && ShmOk(S()) && Filled(s0, S(), dst, want, 0, i)
        invariant |free| + 3 * MappedBelow(m, i) >= |old(free)|
      {
        PageBelow(i, sz);
        VacantPart(s0.maps[dst], i, Pages(sz));
        CopyWantedAt(s0, src, Pages(sz), i);
        var copied := CopyPage(s0, src, dst, i, want);
        if !copied {
          UndoCopy(s0, dst, want, i);
          MappedBelowGrows(m, i + 1, Pages(sz));
          return false;
        }
        i := i + 1;
      }
      PageBelow(i, sz);
      return true;
    }

    /** uvmcopy's way out. */
    method UndoCopy(ghost s0: State, dst: nat, ghost want: map<nat, (Flags, Page)>, i: nat)
      requires Valid() && Inv(s0, NOSLOT) && HoldsOk(s0) && ShmOk(s0) && i <= TRAPFRAME
      requires Filled(s0, S(), dst, want, 0, i) && Vacant(s0.maps[dst], 0, i)
      modifies this, mem, references
      ensures Valid() && ShmOk(S()) && Grows(s0, S(), dst)
    {
      ghost var s1 := S();
      UvmunmapSparse(dst, 0, i);
      UndoneUnmapped(s0, s1, S(), dst, want, 0, i);
      KeepsShm(s0, S());
    }

    /** One round of uvmshare's loop. */
    method SharePage(ghost s0: State, src: nat, dst: nat, i: nat) returns (ok: bool)
      requires HoldsOk(s0) && Valid() && ShmOk(S()) && i < TRAPFRAME && Shared(s0, S(), src, dst, i)
      requires i !in s0.maps[dst]
      modifies this, mem, references
      ensures Valid() && ShmOk(S())
      ensures dst in maps && src in maps && maps[src] == s0.maps[src]
      ensures ok && ShowsShm(s0, src, i) ==> i in maps[dst]
      ensures if ok then ShowsShm(s0, src, i) || Shared(s0, S(), src, dst, i + 1) else Shared(s0, S(), src, dst, i)
      ensures ok ==> |free| + (if i in s0.maps[src] then 2 else 0) >= |old(free)|
      ensures !ok ==> |old(free)| < 2 && i in s0.maps[src]
    {
      var found, page, index := Walk(src, i, false);
      SlotOfPage(S(), src, i);
      ok := true;
      if !found || !mem[page][index].flags.v {
        assert i !in s0.maps[src];
      } else if !Readable(mem[page][index].flags) {
        ok := false;
      } else {
        ok := SharePte(s0, src, dst, i, mem[page][index]);
      }
    }

    /** The part of uvmshare that maps a frame once more and counts the new reference. */
    method SharePte(ghost s0: State, src: nat, dst: nat, i: nat, pte: Word) returns (ok: bool)
      requires HoldsOk(s0) && Valid() && ShmOk(S()) && i < TRAPFRAME && Shared(s0, S(), src, dst, i)
      requires i !in s0.maps[dst] && i in s0.maps[src] && s0.maps[src][i] == pte
      modifies this, mem, references
      ensures Valid() && ShmOk(S())
      ensures dst in maps && src in maps && maps[src] == s0.maps[src]
      ensures ok && ShowsShm(s0, src, i) ==> i in maps[dst]
      ensures if ok then ShowsShm(s0, src, i) || Shared(s0, S(), src, dst, i + 1) else Shared(s0, S(), src, dst, i)
      ensures if ok then |free| + 2 >= |old(free)| else |old(free)| < 2
    {
      ghost var s := S();
      var pa, flags := pte.ppn, pte.flags;
      SharedMappable(s0, s, src, dst, i);
      var r, done := Mappages(dst, i, 1, pa, flags.(v := false));
      if !r.Mapped? {
        assert Grows(s, S(), dst);
        SharedGrows(s0, s, S(), src, dst, i);
        return false;
      }
      CountShared(s0, s, src, dst, i, pa, flags);
      return true;
    }

    /** The call of kaddref in uvmshare. */
    method CountShared(ghost s0: State, ghost s: State, ghost src: nat, dst: nat, i: nat, pa: nat, ghost flags: Flags)
      requires Inv(s, NOSLOT) && ShmOk(s) && Valid() && i < TRAPFRAME && Shared(s0, s, src, dst, i)
      requires i !in s0.maps[dst] && i in s0.maps[src] && s0.maps[src][i] == Word(pa, flags) && Live(s, pa)
      requires InstalledRange(s, S(), dst, i, pa, flags, 1)
      modifies this, references
      ensures Valid() && ShmOk(S()) && |free| == |old(free)|
      ensures dst in maps && src in maps && maps[src] == s0.maps[src]
      ensures ShowsShm(s0, src, i) ==> i in maps[dst]
      ensures ShowsShm(s0, src, i) || Shared(s0, S(), src, dst, i + 1)
    {
      if pa != shm_page_pa {
        SharedNext(s0, s, S(), src, dst, i, pa, flags);
        KeepsShm(s, S());
      } else {
        SharedShm(s, S(), dst, i, flags);
      }
      Kaddref(pa);
    }

    /** clone's sharing: the same frames with the same flags, each counted once more; all or nothing.  If the size
        covers SHM_VA and the shm page is mapped there, it is shared like any other page. */
    method Uvmshare(src: nat, dst: nat, sz: nat) returns (ok: bool)
      requires Valid() && HoldsOk(S()) && ShmOk(S()) && src in maps && dst in maps && src != dst
      requires Pages(sz) <= TRAPFRAME && Vacant(maps[dst], 0, Pages(sz))
      modifies this, mem, references
      ensures Valid() && ShmOk(S())
      ensures dst in maps && src in maps && maps[src] == old(maps[src])
      ensures ok ==> if NoShmBelow(old(S()), src, Pages(sz)) then Shared(old(S()), S(), src, dst, Pages(sz))
                     else SHM in maps[dst]
      ensures ok ==> |free| + 2 * old(MappedBelow(maps[src], Pages(sz))) >= |old(free)|
      ensures !ok ==> maps == old(maps) && holds == old(holds) && Keeps(old(S()), S())
      ensures !ok ==> |old(free)| < 2 * old(MappedBelow(maps[src], Pages(sz)))
    {
      ghost var s0, m := S(), maps[src];
      var i := 0;
      while i * PGSIZE < sz
        invariant 0 <= i <= Pages(sz) && Valid() && ShmOk(S())
        invariant dst in maps && src in maps && maps[src] == s0.maps[src]
        invariant if NoShmBelow(s0, src, i) then Shared(s0, S(), src, dst, i) else SHM in maps[dst]
        invariant |free| + 2 * MappedBelow(m, i) >= |old(free)|
      {
        PageBelow(i, sz);
        NoShmYet(s0, src, i);
        VacantPart(s0.maps[dst], i, Pages(sz));
        var shared := SharePage(s0, src, dst, i);
        if !shared {
          UndoShare(s0, src, dst, i);
          MappedBelowGrows(m, i + 1, Pages(sz));
          return false;
        }
        i := i + 1;
      }
      PageBelow(i, sz);
      return true;
    }

    /** uvmshare's way out. */
    method UndoShare(ghost s0: State, ghost src: nat, dst: nat, i: nat)
      requires Valid() && Inv(s0, NOSLOT) && HoldsOk(s0) && ShmOk(s0) && i <= TRAPFRAME
      requires Shared(s0, S(), src, dst, i) && Vacant(s0.maps[dst], 0, i)
      modifies this, mem, references
      ensures Valid() && ShmOk(S()) && maps == s0.maps && holds == s0.holds && Keeps(s0, S())
    {
      ghost var s1 := S();
      UvmunmapSparse(dst, 0, i);
      UndoneShared(s0, s1, S(), src, dst, i);
      KeepsShm(s0, S());
    }
  }
}
