/** Address spaces as the kernel's page system calls leave them.

    A page table entry exists for an address exactly when it is present; the
    page tables themselves are the set `dirs` of (environment, 4MB region)
    pairs, as read through `vpd`. A physical page is identified by its number
    and its contents by `ram`; `pp_ref` is the number of entries naming it. */
module AddressSpace {
  import opened Wrappers

  const BY2PG: nat := 4096
  const PDE2PD: nat := 1024
  /** Page number of the scratch page of the fault handler, UTEXT - BY2PG. */
  const SCRATCH: nat := 0x7ff
  /** USTACKTOP / BY2PG: fork duplicates the pages below this one. */
  const USTACK_END: nat := 0xeebfe
  /** Page number of the user exception stack, UXSTACKTOP - BY2PG. */
  const UXSTACK: nat := 0xeebff
  /** UTOP / BY2PG: no page from here on may be named in a system call. */
  const UTOP_PAGE: nat := 0xeec00

  type Data = d: seq<byte> | |d| == BY2PG witness seq(BY2PG, _ => 0)

  function Zeros(): Data {
    seq(BY2PG, _ => 0)
  }

  datatype Perm = Perm(u: bool, w: bool, lib: bool, cow: bool)

  const PERM_UW := Perm(true, true, false, false)
  const PERM_COW := Perm(true, false, false, true)
  const PERM_RO := Perm(true, false, false, false)
  /** PTE_USER holds every bit a system call may set, the copy-on-write bit included. */
  const PERM_ALL := Perm(true, true, true, true)

  /** What user code may do with a page: a write to a page it may not write faults,
      and pgfault copies the page if it is copy-on-write. */
  predicate MayRead(p: Perm) { p.u }

  predicate MayWrite(p: Perm) { (p.u && p.w) || p.cow }

  /** Written only after a fault has copied it; and written freely by one environment. */
  predicate CopyOnWrite(p: Perm) { p.u && p.cow && !p.w && !p.lib }

  predicate OwnWritable(p: Perm) { p.u && p.w && !p.lib && !p.cow }

  datatype Pte = Pte(page: nat, perm: Perm)

  datatype Loc = Loc(env: nat, vpn: nat)

  datatype Memory = Memory(pt: map<Loc, Pte>, dirs: set<(nat, nat)>, ram: map<nat, Data>)

  function Dir(l: Loc): (nat, nat) {
    (l.env, l.vpn / PDE2PD)
  }

  /** Every entry lies in a page table and names a page that exists. */
  ghost predicate WellMapped(m: Memory) {
    forall l <- m.pt :: Dir(l) in m.dirs && m.pt[l].page in m.ram
  }

  predicate IsFree(m: Memory, page: nat) {
    page in m.ram && forall l <- m.pt :: m.pt[l].page != page
  }

  /** page_insert: the entry at `l` is replaced, its page table made if missing. */
  function Insert(m: Memory, l: Loc, page: nat, perm: Perm): Memory {
    m.(pt := m.pt[l := Pte(page, perm)], dirs := m.dirs + {Dir(l)})
  }

  /** page_remove */
  function Remove(m: Memory, l: Loc): Memory {
    m.(pt := m.pt - {l})
  }

  /** page_lookup does not test the present bit: an address whose page table
      exists but whose entry is empty looks up as physical page 0. */
  function Lookup(m: Memory, l: Loc): (r: Option<nat>) {
    if Dir(l) !in m.dirs then None
    else if l in m.pt then Some(m.pt[l].page)
    else Some(0)
  }

  /** A page freshly handed out by page_alloc, zeroed and mapped. */
  function MapNew(m: Memory, l: Loc, page: nat, perm: Perm): Memory {
    Insert(m.(ram := m.ram[page := Zeros()]), l, page, perm)
  }

  function MapFrom(m: Memory, src: Loc, dst: Loc, perm: Perm): Memory {
    match Lookup(m, src)
    case None => m
    case Some(page) => Insert(m, dst, page, perm)
  }

  /** Environment teardown removes every mapping and page table of `e`. */
  function RemoveAll(m: Memory, e: nat): Memory {
    Memory(map l <- m.pt | l.env != e :: m.pt[l], (set d <- m.dirs | d.0 != e), m.ram)
  }

  function Poke(m: Memory, page: nat, off: nat, x: byte): Memory
    requires page in m.ram && off < BY2PG
  {
    m.(ram := m.ram[page := m.ram[page][off := x]])
  }

  function CopyPage(m: Memory, from: nat, to: nat): Memory
    requires from in m.ram
  {
    m.(ram := m.ram[to := m.ram[from]])
  }

  // --------------------------------------- what fork's own code leaves behind

  /** The four system calls and the copy of the write fault handler. */
  function AfterPgfault(m: Memory, e: nat, v: nat, page: nat): Memory
    requires Loc(e, v) in m.pt && m.pt[Loc(e, v)].page in m.ram && m.pt[Loc(e, v)].page != page
  {
    var here, tmp := Loc(e, v), Loc(e, SCRATCH);
    var filled := CopyPage(MapNew(m, tmp, page, PERM_UW), m.pt[here].page, page);
    Remove(MapFrom(filled, tmp, here, PERM_UW), tmp)
  }

  lemma AfterPgfaultIs(m: Memory, e: nat, v: nat, page: nat)
    requires WellMapped(m) && Loc(e, v) in m.pt && m.pt[Loc(e, v)].page != page && v != SCRATCH &&
             Loc(e, SCRATCH) !in m.pt
    ensures AfterPgfault(m, e, v, page).pt == m.pt[Loc(e, v) := Pte(page, PERM_UW)]
    ensures AfterPgfault(m, e, v, page).ram == m.ram[page := m.ram[m.pt[Loc(e, v)].page]]
    ensures AfterPgfault(m, e, v, page).dirs == m.dirs + {Dir(Loc(e, SCRATCH))}
  {
    var here, tmp := Loc(e, v), Loc(e, SCRATCH);
    var pt := m.pt[tmp := Pte(page, PERM_UW)][here := Pte(page, PERM_UW)];
    assert AfterPgfault(m, e, v, page).pt == pt - {tmp};
    assert pt - {tmp} == m.pt[here := Pte(page, PERM_UW)];
  }

  /** The calls of duppage for one page. */
  function AfterDuppage(m: Memory, e: nat, c: nat, v: nat): Memory {
    var a, b := Loc(e, v), Loc(c, v);
    if a !in m.pt || !m.pt[a].perm.u then m
    else
      var p := m.pt[a].perm;
      if p.lib then MapFrom(m, a, b, PERM_ALL)
      else if p.w || p.cow then MapFrom(MapFrom(m, a, b, PERM_COW), b, a, PERM_COW)
      else MapFrom(m, a, b, PERM_RO)
  }
}
