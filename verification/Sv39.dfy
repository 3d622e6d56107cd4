/** The Sv39 layout that kernel/vm.c relies on (section 4.4 of the RISC-V Privileged Architecture manual). */
module Sv39 {
  // Three levels of 512-entry tables, indexed by nine bits of the virtual page number each.  Page frames are
  // numbered from KERNBASE, so frame 0 is the first page of the kernel image; it is never handed out by the
  // allocator and doubles as the null pointer.  Addresses that the source requires to be page aligned are
  // represented by their page numbers.

  const PTES: nat := 512
  const PGSIZE: nat := 4096

  /** MAXVA / PGSIZE, with MAXVA = 2^38. */
  const MAXVPN: nat := 0x400_0000

  const TRAMPOLINE: nat := MAXVPN - 1
  const TRAPFRAME: nat := MAXVPN - 2
  const SHM: nat := MAXVPN - 3

  /** The ten low bits of a page-table entry: V, R, W, X, U and five bits the kernel never looks at. */
  datatype Flags = Flags(v: bool, r: bool, w: bool, x: bool, u: bool, rest: nat)

  /** A 64-bit memory word, seen as a frame number and the flag bits.  A pointer to a page has no flag set. */
  datatype Word = Word(ppn: nat, flags: Flags)

  const NONE := Flags(false, false, false, false, false, 0)
  const ZERO := Word(0, NONE)

  type Page = p: seq<Word> | |p| == PTES witness seq(PTES, i => ZERO)

  /** memset(pa, c, PGSIZE) for a byte c whose 64-bit repetition is the word w. */
  function Fill(w: Word): (p: Page)
    ensures forall i :: 0 <= i < PTES ==> p[i] == w
  {
    seq(PTES, i => w)
  }

  /** The repetitions of the junk bytes 1 and 5: the low ten bits of 0x01..01 have V set, those of 0x05..05
      have V and W set. */
  const FREEJUNK := Word(0x40_4040_4040_40, Flags(true, false, false, false, false, 8))
  const ALLOCJUNK := Word(0x141_4141_4141_41, Flags(true, false, true, false, false, 8))

  predicate Readable(f: Flags) {
    f.r || f.w || f.x
  }

  predicate Leaf(w: Word) {
    w.flags.v && Readable(w.flags)
  }

  /** PA2PTE(child) | PTE_V. */
  function TableWord(child: nat): Word {
    Word(child, NONE.(v := true))
  }

  /** PX(level, va). */
  function PX(level: nat, vpn: nat): (i: nat)
    ensures i < PTES
  {
    if level == 0 then vpn % 512 else if level == 1 then vpn / 512 % 512 else vpn / 262144 % 512
  }

  /** The part of the page number that selects the table visited at a level. */
  function Prefix(level: nat, vpn: nat): nat {
    if level == 0 then vpn / 512 else if level == 1 then vpn / 262144 else vpn / 134217728
  }

  /** PGROUNDUP(sz) / PGSIZE. */
  function Pages(sz: nat): nat {
    (sz + PGSIZE - 1) / PGSIZE
  }

  /** The loops over a size run once for each of its pages. */
  lemma PageBelow(i: nat, sz: nat)
    ensures i * PGSIZE < sz <==> i < Pages(sz)
  {
  }

  /** Walking down one level appends the next index to the prefix, and the last index completes the page
      number: different pages never share a slot. */
  lemma PrefixStep(level: nat, vpn: nat)
    requires level <= 2
    ensures Prefix(level, vpn) * 512 + PX(level, vpn) == if level == 0 then vpn else Prefix(level - 1, vpn)
    ensures level < 2 ==> Prefix(level, vpn) / 512 == Prefix(level + 1, vpn)
    ensures vpn < MAXVPN ==> Prefix(2, vpn) == 0
  {
  }
}
