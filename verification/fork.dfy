/** The user-level code of fork, run by one environment without interference:
    `pgfault`, `duppage` and `fork` as they change the page tables. */
module Fork {
  import opened Wrappers
  import opened AddressSpace

  datatype Error = NoMem | Inval | BadEnv | Panic

  /** A user fault handler and the top of its stack. */
  datatype Upcall = Upcall(handler: nat, xstacktop: nat)

  /** The page that was mapped at l, if that was its last mapping. Physical page 0
      belongs to the kernel and is never freed. */
  function Dropped(was: Memory, now: Memory, l: Loc): set<nat> {
    if l in was.pt && was.pt[l].page != 0 && IsFree(now, was.pt[l].page) then {was.pt[l].page} else {}
  }

  /** Page p was mapped at l, and now nowhere: it has to be freed. */
  ghost predicate Released(was: Memory, now: Memory, l: Loc, p: nat) {
    l in was.pt && was.pt[l].page == p && p != 0 && forall k <- now.pt :: now.pt[k].page != p
  }

  /** Duplicating one page leaves this: both sides name the page the parent had,
      and a private writable page has become copy-on-write on both sides. */
  ghost predicate Duplicated(was: Memory, now: Memory, a: Loc, b: Loc) {
    if a in was.pt && was.pt[a].perm.u then
      var page, p := was.pt[a].page, was.pt[a].perm;
      a in now.pt && b in now.pt &&
      if p.lib then now.pt[a] == was.pt[a] && now.pt[b] == Pte(page, PERM_ALL)
      else if p.w || p.cow then now.pt[a] == Pte(page, PERM_COW) && now.pt[b] == Pte(page, PERM_COW)
      else now.pt[a] == was.pt[a] && now.pt[b] == Pte(page, PERM_RO)
    else Unchanged(was, now, a) && Unchanged(was, now, b)
  }

  ghost predicate Unchanged(was: Memory, now: Memory, l: Loc) {
    (l in now.pt <==> l in was.pt) && (l in was.pt ==> now.pt[l] == was.pt[l])
  }

  ghost predicate Contents(was: Memory, now: Memory) {
    forall l <- was.pt ::
        was.pt[l].page in was.ram && was.pt[l].page in now.ram && now.ram[was.pt[l].page] == was.ram[was.pt[l].page]
  }

  /** Page v when fork has come to page i. */
  ghost predicate PageWalked(was: Memory, now: Memory, e: nat, c: nat, v: nat, i: nat) {
    Loc(c, v) !in was.pt &&
    if v < i && v < USTACK_END then Duplicated(was, now, Loc(e, v), Loc(c, v))
    else Unchanged(was, now, Loc(e, v)) && Unchanged(was, now, Loc(c, v))
  }

  ghost predicate Walked(was: Memory, now: Memory, e: nat, c: nat, i: nat) {
    (forall v: nat :: PageWalked(was, now, e, c, v, i)) &&
    (forall l: Loc | l.env != c && l.env != e :: Unchanged(was, now, l))
  }

  ghost predicate OnlyAt(was: Memory, now: Memory, a: Loc, b: Loc) {
    forall l | l != a && l != b :: Unchanged(was, now, l)
  }

  lemma WalkOne(was: Memory, before: Memory, now: Memory, e: nat, c: nat, i: nat, j: nat)
    requires e != c && i < USTACK_END && j == i + 1 && Walked(was, before, e, c, i)
    requires Duplicated(before, now, Loc(e, i), Loc(c, i)) && OnlyAt(before, now, Loc(e, i), Loc(c, i))
    ensures Walked(was, now, e, c, j)
  {
    forall v: nat ensures PageWalked(was, now, e, c, v, j) {
      assert PageWalked(was, before, e, c, v, i);
      if v != i {
        assert Unchanged(before, now, Loc(e, v)) && Unchanged(before, now, Loc(c, v));
      }
    }
    forall l: Loc | l.env != c && l.env != e ensures Unchanged(was, now, l) {
      assert Unchanged(was, before, l) && Unchanged(before, now, l);
    }
  }

  /** Pages that are not mapped need no duplication. */
  lemma WalkOver(was: Memory, now: Memory, e: nat, c: nat, i: nat, j: nat)
    requires i <= j && Walked(was, now, e, c, i)
    requires forall v: nat | i <= v < j :: Loc(e, v) !in now.pt
    ensures Walked(was, now, e, c, j)
  {
    forall v: nat ensures PageWalked(was, now, e, c, v, j) {
      assert PageWalked(was, now, e, c, v, i);
    }
  }

  /** The child holds the parent's pages below the stack top and at most an
      exception stack above; nobody else's mappings differ. */
  ghost predicate Forked(was: Memory, now: Memory, e: nat, c: nat) {
    (forall v: nat | v < USTACK_END :: Duplicated(was, now, Loc(e, v), Loc(c, v))) &&
    (forall v: nat | v >= USTACK_END && v != UXSTACK :: Loc(c, v) !in now.pt) &&
    (forall l: Loc | l.env != c && !(l.env == e && l.vpn < USTACK_END) :: Unchanged(was, now, l))
  }

  lemma WalkedAll(was: Memory, walked: Memory, now: Memory, e: nat, c: nat, i: nat)
    requires i >= USTACK_END && Walked(was, walked, e, c, i) && OnlyAt(walked, now, Loc(c, UXSTACK), Loc(c, UXSTACK))
    requires e != c
    ensures Forked(was, now, e, c)
  {
    forall l: Loc | l != Loc(c, UXSTACK) ensures Unchanged(walked, now, l) {}
    forall v: nat ensures
      if v < USTACK_END then Duplicated(was, now, Loc(e, v), Loc(c, v)) else v != UXSTACK ==> Loc(c, v) !in now.pt
    {
      assert PageWalked(was, walked, e, c, v, i);
      assert Unchanged(walked, now, Loc(e, v)) && (v != UXSTACK ==> Unchanged(walked, now, Loc(c, v)));
    }
    forall l: Loc | l.env != c && !(l.env == e && l.vpn < USTACK_END) ensures Unchanged(was, now, l) {
      assert PageWalked(was, walked, e, c, l.vpn, i) && Unchanged(walked, now, l);
    }
  }

  /** Duplication never takes a page out of use. */
  lemma WalkedPages(was: Memory, walked: Memory, e: nat, c: nat, i: nat)
    requires e != c && Walked(was, walked, e, c, i) && WellMapped(was)
    ensures forall l <- was.pt :: l in walked.pt && walked.pt[l].page == was.pt[l].page
  {
    forall l <- was.pt ensures l in walked.pt && walked.pt[l].page == was.pt[l].page {
      assert PageWalked(was, walked, e, c, l.vpn, i);
    }
  }

  /** Page v makes duppage panic if it cannot be mapped; otherwise the failure
      is ignored. */
  predicate Vital(m: Memory, l: Loc) {
    l in m.pt && m.pt[l].perm.u && !m.pt[l].perm.lib && (m.pt[l].perm.w || m.pt[l].perm.cow)
  }

  /** Page tables of the child exist only below page d. */
  ghost predicate TablesBelow(m: Memory, c: nat, d: nat) {
    forall q: nat | (c, q) in m.dirs :: q * PDE2PD < d
  }

  /** Nothing is left to make a page table of, and page d needs one. */
  ghost predicate Starved(m: Memory, free: set<nat>, c: nat, d: nat) {
    free == {} && forall q: nat | (c, q) in m.dirs :: q < d / PDE2PD
  }

  /** What may be done with a page after fork. A page of the parent alone that could be
      written is copy-on-write on both sides, so that the next write to it is a fault
      that pgfault handles; a page that could only be read stays so; a library page
      stays as it is and is writable in the child. */
  predicate RightsAfter(was: Perm, parent: Perm, child: Perm) {
    if was.lib then parent == was && child.lib && child.u && child.w
    else if was.w || was.cow then CopyOnWrite(parent) && CopyOnWrite(child)
    else parent == was && child.u && !child.w && !child.cow && !child.lib
  }

  /** Fork takes no right from the parent, and gives the child the parent's, but that
      it may write every library page. */
  ghost predicate RightsKept(was: Memory, now: Memory, e: nat, c: nat) {
    forall v: nat | v < USTACK_END && Loc(e, v) in was.pt && was.pt[Loc(e, v)].perm.u ::
      Loc(e, v) in now.pt && Loc(c, v) in now.pt &&
      var p, q, r := was.pt[Loc(e, v)].perm, now.pt[Loc(e, v)].perm, now.pt[Loc(c, v)].perm;
      && RightsAfter(p, q, r) && MayRead(q) && MayRead(r)
      && (MayWrite(q) <==> MayWrite(p)) && (MayWrite(r) <==> p.lib || MayWrite(p))
  }

  lemma ForkedRights(was: Memory, now: Memory, e: nat, c: nat)
    requires Forked(was, now, e, c)
    ensures RightsKept(was, now, e, c)
  {
    forall v: nat | v < USTACK_END && Loc(e, v) in was.pt && was.pt[Loc(e, v)].perm.u
      ensures Loc(e, v) in now.pt && Loc(c, v) in now.pt &&
              RightsAfter(was.pt[Loc(e, v)].perm, now.pt[Loc(e, v)].perm, now.pt[Loc(c, v)].perm)
    {
      assert Duplicated(was, now, Loc(e, v), Loc(c, v));
    }
  }

  /** What holds of fork's changes however it ends. */
  ghost predicate Harmless(was: Memory, now: Memory, e: nat, c: nat) {
    Contents(was, now) &&
    (forall l: Loc | l.env != c && !(l.env == e && l.vpn < USTACK_END) :: Unchanged(was, now, l)) &&
    (forall v: nat | Loc(e, v) in was.pt :: Loc(e, v) in now.pt && now.pt[Loc(e, v)].page == was.pt[Loc(e, v)].page)
  }

  /** The environments there are, the page tables, the contents of physical memory
      and the list of free pages, as the system calls change them. */
  class Machine {
    const live: set<nat>
    var mem: Memory
    var free: set<nat>
    var upcalls: map<nat, Upcall>
    var runnable: set<nat>

    ghost predicate Valid()
      reads this
    {
      WellMapped(mem) && 0 in mem.ram &&
      (forall l <- mem.pt :: l.vpn < UTOP_PAGE) &&
      (forall p <- free :: p != 0 && IsFree(mem, p))
    }

    constructor (live: set<nat>, mem: Memory, free: set<nat>)
      ensures this.live == live && this.mem == mem && this.free == free && upcalls == map[] && runnable == {}
    {
      this.live, this.mem, this.free := live, mem, free;
      upcalls, runnable := map[], {};
    }

    method PageAlloc() returns (page: Option<nat>)
      modifies this`free
      ensures page.Some? <==> old(free) != {}
      ensures page.Some? ==> page.value in old(free) && free == old(free) - {page.value}
      ensures page.None? ==> free == old(free)
    {
      page := None;
      if free != {} {
        var p :| p in free;
        free := free - {p};
        page := Some(p);
      }
    }

    /** page_insert fails exactly if a page table is needed and no page is left;
        then it changes nothing. */
    method PageInsert(l: Loc, page: nat, perm: Perm) returns (ok: bool)
      requires Valid() && l.vpn < UTOP_PAGE && page in mem.ram && page !in free
      modifies this`mem, this`free
      ensures Valid()
      ensures ok <==> Dir(l) in old(mem).dirs || old(free) != {}
      ensures !ok ==> mem == old(mem) && free == old(free)
      ensures ok ==> mem == Insert(old(mem), l, page, perm)
      ensures ok && Dir(l) in old(mem).dirs ==> free == old(free) + Dropped(old(mem), mem, l)
      ensures ok && Dir(l) !in old(mem).dirs ==> exists t <- old(free) :: free == old(free) - {t}
      ensures ok && Dir(l) in old(mem).dirs ==>
                forall p :: p in free <==> p in old(free) || Released(old(mem), mem, l, p)
    {
      if Dir(l) !in mem.dirs {
        var table := PageAlloc();
        if table.None? {
          return false;
        }
      }
      var was := mem;
      mem := Insert(mem, l, page, perm);
      free := free + Dropped(was, mem, l);
      ok := true;
    }

    /** A zeroed page, not mapped yet. */
    method FreshPage() returns (page: Option<nat>)
      requires Valid()
      modifies this`mem, this`free
      ensures Valid()
      ensures page.Some? <==> old(free) != {}
      ensures page.None? ==> mem == old(mem) && free == old(free)
      ensures page.Some? ==> page.value in old(free) && page.value in mem.ram && free == old(free) - {page.value}
      ensures page.Some? ==> mem == old(mem).(ram := old(mem).ram[page.value := Zeros()])
      ensures page.Some? ==> IsFree(old(mem), page.value)
    {
      page := PageAlloc();
      if page.Some? {
        mem := mem.(ram := mem.ram[page.value := Zeros()]);
      }
    }

    /** sys_mem_alloc. If there is no such environment, or no page table can be had,
        the page it took is lost: it is neither mapped nor free. */
    method SysMemAlloc(l: Loc, perm: Perm) returns (page: Option<nat>, e: Error)
      requires Valid()
      modifies this`mem, this`free
      ensures Valid()
      ensures page.Some? <==>
        l.vpn < UTOP_PAGE && l.env in live && |old(free)| >= (if Dir(l) in old(mem).dirs then 1 else 2)
      ensures page.Some? ==>
                page.value in old(free) && page.value !in free && mem == MapNew(old(mem), l, page.value, perm)
      ensures page.Some? ==> free <= old(free) - {page.value} + Dropped(old(mem), mem, l)
      ensures page.None? ==>
        e == if l.vpn >= UTOP_PAGE then Inval else if old(free) != {} && l.env !in live then BadEnv else NoMem
      ensures page.None? ==> mem.pt == old(mem).pt && mem.dirs == old(mem).dirs && free <= old(free)
      ensures page.None? ==> |free| == if e == Inval then |old(free)| else if e == BadEnv then |old(free)| - 1 else 0
      ensures forall p | p in old(mem).ram && p !in old(free) :: p in mem.ram && mem.ram[p] == old(mem).ram[p]
    {
      hide Zeros;
      if l.vpn >= UTOP_PAGE {
        return None, Inval;
      }
      page := FreshPage();
      if page.None? {
        return None, NoMem;
      }
      OneLess(old(free), page.value);
      if l.env !in live {
        return None, BadEnv;
      }
      hide WellMapped, IsFree;
      var ok := PageInsert(l, page.value, perm);
      if !ok {
        return None, NoMem;
      }
      return page, NoMem;
    }

    /** sys_mem_map. It does not check the permission. */
    method SysMemMap(src: Loc, dst: Loc, perm: Perm) returns (r: Option<Error>)
      requires Valid()
      modifies this`mem, this`free
      ensures Valid()
      ensures r == (if src.vpn >= UTOP_PAGE || dst.vpn >= UTOP_PAGE then Some(Inval)
                    else if src.env !in live || dst.env !in live then Some(BadEnv)
                    else if Dir(src) !in old(mem).dirs then Some(Inval)
                    else if Dir(dst) !in old(mem).dirs && old(free) == {} then Some(NoMem)
                    else None)
      ensures r.Some? ==> mem == old(mem) && free == old(free)
      ensures r.None? ==> mem == MapFrom(old(mem), src, dst, perm)
      ensures r.None? && Dir(dst) in old(mem).dirs ==> free == old(free) + Dropped(old(mem), mem, dst)
      ensures r.None? && Dir(dst) !in old(mem).dirs ==> exists t <- old(free) :: free == old(free) - {t}
    {
      if src.vpn >= UTOP_PAGE || dst.vpn >= UTOP_PAGE {
        return Some(Inval);
      }
      if src.env !in live || dst.env !in live {
        return Some(BadEnv);
      }
      var page := Lookup(mem, src);
      if page.None? {
        return Some(Inval);
      }
      var ok := PageInsert(dst, page.value, perm);
      r := if ok then None else Some(NoMem);
    }

    method SysMemUnmap(l: Loc) returns (r: Option<Error>)
      requires Valid()
      modifies this`mem, this`free
      ensures Valid()
      ensures r == if l.vpn >= UTOP_PAGE then Some(Inval) else if l.env !in live then Some(BadEnv) else None
      ensures mem == if r.None? then Remove(old(mem), l) else old(mem)
      ensures free == old(free) + Dropped(old(mem), mem, l)
      ensures r.None? ==> forall p :: p in free <==> p in old(free) || Released(old(mem), mem, l, p)
    {
      if l.vpn >= UTOP_PAGE {
        return Some(Inval);
      }
      if l.env !in live {
        return Some(BadEnv);
      }
      var was := mem;
      mem := Remove(mem, l);
      free := free + Dropped(was, mem, l);
      r := None;
    }

    /** sys_set_pgfault_handler and sys_set_env_status, as fork uses them on a child. */
    method SetUpcall(c: nat, upcall: Upcall) returns (r: Option<Error>)
      modifies this`upcalls
      ensures r == if c in live then None else Some(BadEnv)
      ensures upcalls == if c in live then old(upcalls)[c := upcall] else old(upcalls)
    {
      if c !in live {
        return Some(BadEnv);
      }
      upcalls := upcalls[c := upcall];
      r := None;
    }

    method SetRunnable(c: nat) returns (r: Option<Error>)
      modifies this`runnable
      ensures r == if c in live then None else Some(BadEnv)
      ensures runnable == if c in live then old(runnable) + {c} else old(runnable)
    {
      if c !in live {
        return Some(BadEnv);
      }
      runnable := runnable + {c};
      r := None;
    }

    /** bcopy of a whole page, byte by byte. */
    method CopyPage(src: Loc, dst: Loc)
      requires src in mem.pt && dst in mem.pt && mem.pt[src].page in mem.ram && mem.pt[dst].page in mem.ram
      requires mem.pt[src].page != mem.pt[dst].page
      modifies this`mem
      ensures mem == AddressSpace.CopyPage(old(mem), old(mem).pt[src].page, old(mem).pt[dst].page)
    {
      var from, to := mem.pt[src].page, mem.pt[dst].page;
      var i := 0;
      while i < BY2PG
        invariant 0 <= i <= BY2PG
        invariant to in mem.ram && mem.ram[to][..i] == old(mem).ram[from][..i]
        invariant mem == old(mem).(ram := old(mem).ram[to := mem.ram[to]])
      {
        mem := Poke(mem, to, i, mem.ram[from][i]);
        i := i + 1;
      }
      assert mem.ram[to] == mem.ram[to][..BY2PG] == old(mem).ram[from][..BY2PG] == old(mem).ram[from];
    }

    /** The page fault handler. It succeeds exactly on a write to a copy-on-write
        page while memory is left for the copy, and for a page table if the
        scratch page needs one; then the page is private, writable and holds what
        it held, the scratch page is unmapped, and everything else is as before.
        In every other case it panics. */
    method Pgfault(e: nat, v: nat, write: bool) returns (r: Option<nat>)
      requires Valid() && e in live && Loc(e, SCRATCH) !in mem.pt && v != SCRATCH
      modifies this`mem, this`free
      ensures Valid()
      ensures r.Some? <==> write && Loc(e, v) in old(mem).pt && old(mem).pt[Loc(e, v)].perm.cow &&
                           |old(free)| >= if Dir(Loc(e, SCRATCH)) in old(mem).dirs then 1 else 2
      ensures r.None? ==> mem.pt == old(mem).pt && mem.dirs == old(mem).dirs
      ensures r.Some? ==> r.value in old(free) && mem == AfterPgfault(old(mem), e, v, r.value)
      ensures r.Some? ==> OwnWritable(mem.pt[Loc(e, v)].perm) && mem.pt == old(mem).pt[Loc(e, v) := mem.pt[Loc(e, v)]]
      ensures r.Some? ==> mem.pt[Loc(e, v)].page == r.value
      ensures r.Some? ==> mem.ram == old(mem).ram[r.value := old(mem).ram[old(mem).pt[Loc(e, v)].page]]
      ensures r.Some? ==> free <= old(free) + {old(mem).pt[Loc(e, v)].page}
      ensures r.Some? ==> forall p | Released(old(mem), mem, Loc(e, v), p) :: p in free
    {
      var here, tmp := Loc(e, v), Loc(e, SCRATCH);
      if !(write && here in mem.pt && mem.pt[here].perm.cow) {
        return None;
      }
      AfterPgfaultAll(mem, e, v);
      ghost var m := mem;
      r := FillScratch(e, v);
      if r.None? {
        return;
      }
      hide WellMapped, Zeros;
      var _ := SysMemMap(tmp, here, PERM_UW);
      assert mem == MapFrom(AddressSpace.CopyPage(MapNew(m, tmp, r.value, PERM_UW), m.pt[here].page, r.value), tmp,
                            here, PERM_UW);
      assert tmp in mem.pt && here in mem.pt && mem.pt[here].page == mem.pt[tmp].page;
      var _ := SysMemUnmap(tmp);
    }

    /** Its first two steps: the scratch page holds what the faulting page holds. */
    method FillScratch(e: nat, v: nat) returns (page: Option<nat>)
      requires Valid() && e in live && Loc(e, SCRATCH) !in mem.pt && v != SCRATCH && Loc(e, v) in mem.pt
      modifies this`mem, this`free
      ensures Valid() && free <= old(free)
      ensures page.Some? <==> |old(free)| >= if Dir(Loc(e, SCRATCH)) in old(mem).dirs then 1 else 2
      ensures page.None? ==> mem.pt == old(mem).pt && mem.dirs == old(mem).dirs
      ensures page.Some? ==> page.value in old(free) && page.value !in free
      ensures page.Some? ==>
        mem == AddressSpace.CopyPage(MapNew(old(mem), Loc(e, SCRATCH), page.value, PERM_UW),
                                     old(mem).pt[Loc(e, v)].page, page.value)
    {
      var got, _ := SysMemAlloc(Loc(e, SCRATCH), PERM_UW);
      page := got;
      if page.Some? {
        CopyPage(Loc(e, v), Loc(e, SCRATCH));
      }
    }

    /** One page of fork; `false` is a panic. */
    method Duppage(e: nat, c: nat, v: nat) returns (ok: bool)
      requires Valid() && e in live && c in live && e != c && Loc(c, v) !in mem.pt && v < UTOP_PAGE
      modifies this`mem, this`free
      ensures Valid() && mem.ram == old(mem).ram && free <= old(free)
      ensures forall d: (nat, nat) | d != (c, v / PDE2PD) :: d in mem.dirs <==> d in old(mem).dirs
      ensures var a, b := Loc(e, v), Loc(c, v);
              var room := Dir(b) in old(mem).dirs || old(free) != {};
              && (ok <==> room || !Vital(old(mem), a))
              && (room ==> mem == AfterDuppage(old(mem), e, c, v) && Duplicated(old(mem), mem, a, b) &&
                           OnlyAt(old(mem), mem, a, b))
              && (room && a in old(mem).pt && old(mem).pt[a].perm.u ==>
                    RightsAfter(old(mem).pt[a].perm, mem.pt[a].perm, mem.pt[b].perm))
              && (!room ==> mem == old(mem) && free == old(free))
      ensures Taken(old(mem), old(free), mem, free, Loc(e, v), Loc(c, v))
    {
      var a, b := Loc(e, v), Loc(c, v);
      ok := true;
      if a in mem.pt && mem.pt[a].perm.u {
        if mem.pt[a].perm.lib {
          var _ := SysMemMap(a, b, PERM_ALL);
          return;
        }
        if mem.pt[a].perm.w || mem.pt[a].perm.cow {
          var r := SysMemMap(a, b, PERM_COW);
          if r.Some? {
            return false;
          }
          r := SysMemMap(b, a, PERM_COW);
          if r.Some? {
            return false;
          }
        } else {
          var _ := SysMemMap(a, b, PERM_RO);
        }
      }
    }

    /** The loop of fork. It skips whole page tables that do not exist, so it may
        end beyond the stack top. It duplicates everything up to page d; it stops
        short of i only when no page is left, ignoring errors, and panics if a
        page it should have shared copy-on-write is among the rest. */
    method DupPages(e: nat, c: nat) returns (ok: bool, ghost d: nat)
      requires Valid() && e in live && c in live && e != c
      requires forall v: nat :: Loc(c, v) !in mem.pt && (c, v) !in mem.dirs
      modifies this`mem, this`free
      ensures Valid() && mem.ram == old(mem).ram && Walked(old(mem), mem, e, c, d)
      ensures d >= USTACK_END || free == {}
      ensures !ok ==> d < USTACK_END
      ensures ok <==> !VitalLost(old(mem), |old(free)|, e)
      ensures ok ==> (|free| >= (if (c, UXSTACK / PDE2PD) in mem.dirs then 1 else 2) <==>
                      |old(free)| >= ForkCost(old(mem), e))
    {
      hide AfterDuppage, Progress, Walked, Counted, Taken, Vital, Tables, ForkCost;
      ghost var all := |free|;
      CountedStart(mem, free, e, c);
      var i := 0;
      d := 0;
      ok := true;
      ProgressStart(mem, free, e, c);
      while i < USTACK_END
        invariant i % PDE2PD == 0 || (e, i / PDE2PD) in mem.dirs
        invariant Valid() && mem.ram == old(mem).ram && Progress(old(mem), mem, free, e, c, i, d)
        invariant Counted(old(mem), all, mem, free, e, c, i, d)
        decreases USTACK_END - i
      {
        if (e, i / PDE2PD) in mem.dirs {
          ghost var before, had := mem, free;
          if Loc(e, i) in mem.pt {
            ProgressChild(old(mem), mem, free, e, c, i, d);
            ok := Duppage(e, c, i);
            CountedPage(old(mem), all, before, had, mem, free, e, c, i, d, ok);
            d := ProgressPage(old(mem), before, had, mem, free, e, c, i, d, ok);
            if !ok {
              ProgressMeans(old(mem), mem, free, e, c, i + 1, d);
              return;
            }
          } else {
            CountedSkip(old(mem), all, mem, free, e, c, i, i + 1, d);
            d := ProgressSkip(old(mem), mem, free, e, c, i, i + 1, d);
          }
          i := i + 1;
        } else {
          CountedSkip(old(mem), all, mem, free, e, c, i, i + PDE2PD, d);
          d := ProgressSkip(old(mem), mem, free, e, c, i, i + PDE2PD, d);
          i := i + PDE2PD;
        }
      }
      ProgressMeans(old(mem), mem, free, e, c, i, d);
      CountedEnd(old(mem), all, mem, free, e, c, i, d);
    }

    /** fork, after sys_env_alloc has made the empty child c. If it succeeds, the
        child sees what the parent sees below the stack top, in the same pages, and
        has its own zeroed exception stack: no mapping can have failed on the way,
        although some failures are ignored. If it fails or panics, nobody but the
        child has lost a page, and no page's contents have changed. The child has
        its upcall and is made runnable in the first case and in no other. */
    method Fork(e: nat, c: nat, upcall: Upcall) returns (error: Option<Error>)
      requires Valid() && e in live && c in live && e != c
      requires forall v: nat :: Loc(c, v) !in mem.pt && (c, v) !in mem.dirs
      modifies this`mem, this`free, this`upcalls, this`runnable
      ensures Valid() && Harmless(old(mem), mem, e, c)
      ensures error.None? ==> Forked(old(mem), mem, e, c)
      ensures error.None? ==> RightsKept(old(mem), mem, e, c)
      ensures error.None? <==> |old(free)| >= ForkCost(old(mem), e)
      ensures error == Some(Panic) <==> VitalLost(old(mem), |old(free)|, e)
      ensures error.Some? ==> error.value in {Panic, NoMem}
      ensures error.None? <==> Loc(c, UXSTACK) in mem.pt
      ensures upcalls == (if error.None? then old(upcalls)[c := upcall] else old(upcalls))
      ensures runnable == (if error.None? then old(runnable) + {c} else old(runnable))
      ensures error.None? ==>
                OwnWritable(mem.pt[Loc(c, UXSTACK)].perm) && mem.ram[mem.pt[Loc(c, UXSTACK)].page] == Zeros()
      ensures error.None? ==>
                forall l <- mem.pt | l != Loc(c, UXSTACK) :: mem.pt[l].page != mem.pt[Loc(c, UXSTACK)].page
    {
      hide Tables, ForkCost, VitalLost;
      var ok;
      ghost var d;
      ok, d := DupPages(e, c);
      ghost var walked := mem;
      WalkedPages(old(mem), walked, e, c, d);
      WalkedHarmless(old(mem), walked, walked, e, c, d);
      assert PageWalked(old(mem), walked, e, c, UXSTACK, d);
      if !ok {
        VitalCosts(old(mem), |old(free)|, e);
        return Some(Panic);
      }
      var page, e1 := SysMemAlloc(Loc(c, UXSTACK), PERM_UW);
      WalkedHarmless(old(mem), walked, mem, e, c, d);
      if page.None? {
        return Some(e1);
      }
      WalkedAll(old(mem), walked, mem, e, c, d);
      ForkedRights(old(mem), mem, e, c);
      hide RightsKept;
      error := SetUpcall(c, upcall);
      if error.None? {
        error := SetRunnable(c);
      }
    }
  }

  lemma WalkedHarmless(was: Memory, walked: Memory, now: Memory, e: nat, c: nat, i: nat)
    requires e != c && Walked(was, walked, e, c, i) && WellMapped(was) && WellMapped(walked) && walked.ram == was.ram
    requires OnlyAt(walked, now, Loc(c, UXSTACK), Loc(c, UXSTACK))
    requires forall l <- walked.pt ::
               walked.pt[l].page in now.ram && now.ram[walked.pt[l].page] == walked.ram[walked.pt[l].page]
    ensures Harmless(was, now, e, c)
  {
    WalkedPages(was, walked, e, c, i);
    forall l: Loc | l.env != c && !(l.env == e && l.vpn < USTACK_END) ensures Unchanged(was, now, l) {
      assert PageWalked(was, walked, e, c, l.vpn, i) && Unchanged(walked, now, l);
    }
    forall v: nat | Loc(e, v) in was.pt
      ensures Loc(e, v) in now.pt && now.pt[Loc(e, v)].page == was.pt[Loc(e, v)].page
    {
      assert Unchanged(walked, now, Loc(e, v));
    }
  }

  /** The loop of fork at page i has duplicated what is below d: all of it, or no
      page is left to make a page table of. */
  ghost predicate Progress(was: Memory, now: Memory, free: set<nat>, e: nat, c: nat, i: nat, d: nat) {
    (forall q: (nat, nat) | q.0 != c :: q in now.dirs <==> q in was.dirs) && Walked(was, now, e, c, d) && d <= i &&
    if d == i then TablesBelow(now, c, i) else d < USTACK_END && Starved(now, free, c, d)
  }

  lemma ProgressStart(m: Memory, free: set<nat>, e: nat, c: nat)
    requires forall v: nat :: Loc(c, v) !in m.pt && (c, v) !in m.dirs
    ensures Progress(m, m, free, e, c, 0, 0)
  {
    forall v: nat ensures PageWalked(m, m, e, c, v, 0) {}
  }

  lemma ProgressMeans(was: Memory, now: Memory, free: set<nat>, e: nat, c: nat, i: nat, d: nat)
    requires Progress(was, now, free, e, c, i, d)
    ensures Walked(was, now, e, c, d) && (d == i || (free == {} && d < USTACK_END))
  {
    hide Walked;
  }

  lemma ProgressChild(was: Memory, now: Memory, free: set<nat>, e: nat, c: nat, i: nat, d: nat)
    requires Progress(was, now, free, e, c, i, d)
    ensures Loc(c, i) !in now.pt
  {
    assert PageWalked(was, now, e, c, i, d);
  }

  /** Pages from i to j are not mapped. */
  lemma ProgressSkip(was: Memory, now: Memory, free: set<nat>, e: nat, c: nat, i: nat, j: nat, d: nat) returns (d': nat)
    requires Progress(was, now, free, e, c, i, d) && i <= j && forall v: nat | i <= v < j :: Loc(e, v) !in now.pt
    ensures Progress(was, now, free, e, c, j, d') && d' == if d == i then j else d
  {
    d' := d;
    if d == i {
      WalkOver(was, now, e, c, i, j);
      d' := j;
    }
    hide Walked;
  }

  /** Page i has been handed to duppage. */
  lemma ProgressPage(was: Memory, before: Memory, had: set<nat>, now: Memory, free: set<nat>,
                     e: nat, c: nat, i: nat, d: nat, ok: bool) returns (d': nat)
    requires e != c && i < USTACK_END && Progress(was, before, had, e, c, i, d) && free <= had
    requires forall q: (nat, nat) | q != (c, i / PDE2PD) :: q in now.dirs <==> q in before.dirs
    requires var room := Dir(Loc(c, i)) in before.dirs || had != {};
             && (ok <==> room || !Vital(before, Loc(e, i)))
             && if room then Duplicated(before, now, Loc(e, i), Loc(c, i)) && OnlyAt(before, now, Loc(e, i), Loc(c, i))
                else now == before && free == had
    ensures Progress(was, now, free, e, c, i + 1, d') && (!ok ==> d' < USTACK_END)
    ensures d' == if d == i && Shareable(before, had, e, c, i) then i + 1 else d
  {
    hide Walked, Duplicated, OnlyAt;
    d' := d;
    if d == i {
      DupOne(was, before, had, now, e, c, i);
      d' := if Shareable(before, had, e, c, i) then i + 1 else i;
    }
  }

  // ------------------------------------------------------ how much memory fork takes

  predicate UserAt(m: Memory, e: nat, v: nat) {
    v < USTACK_END && Loc(e, v) in m.pt && m.pt[Loc(e, v)].perm.u
  }

  /** The page tables the child needs for the user pages below i. */
  ghost function Tables(m: Memory, e: nat, i: nat): set<nat> {
    set v: nat | v < i && UserAt(m, e, v) :: v / PDE2PD
  }

  lemma TablesNext(m: Memory, e: nat, i: nat)
    ensures Tables(m, e, i + 1) == Tables(m, e, i) + if UserAt(m, e, i) then {i / PDE2PD} else {}
  {
    var a, b := Tables(m, e, i + 1), Tables(m, e, i) + if UserAt(m, e, i) then {i / PDE2PD} else {};
    forall q ensures q in a <==> q in b {
      if q in a {
        var v: nat :| v < i + 1 && UserAt(m, e, v) && q == v / PDE2PD;
      }
    }
  }

  lemma TablesSkip(m: Memory, e: nat, i: nat, j: nat)
    requires i <= j && forall v: nat | i <= v < j :: !UserAt(m, e, v)
    ensures Tables(m, e, j) == Tables(m, e, i)
  {
    forall q ensures q in Tables(m, e, j) <==> q in Tables(m, e, i) {
      if q in Tables(m, e, j) {
        var v: nat :| v < j && UserAt(m, e, v) && q == v / PDE2PD;
      }
    }
  }

  lemma {:induction false} TablesGrow(m: Memory, e: nat, i: nat, j: nat)
    requires i <= j
    ensures Tables(m, e, i) <= Tables(m, e, j) && |Tables(m, e, i)| <= |Tables(m, e, j)|
    decreases j
  {
    if i < j {
      TablesGrow(m, e, i, j - 1);
      TablesNext(m, e, j - 1);
      assert |Tables(m, e, j)| >= |Tables(m, e, j - 1)| by {
        if UserAt(m, e, j - 1) && (j - 1) / PDE2PD !in Tables(m, e, j - 1) {
          assert Tables(m, e, j) - {(j - 1) / PDE2PD} == Tables(m, e, j - 1);
        }
      }
    }
  }

  /** Each page table the child has cost a page; and where fork stopped short, the next
      one was the first for which there was no page, and nothing vital came after. */
  ghost predicate Counted(was: Memory, all: nat, now: Memory, free: set<nat>, e: nat, c: nat, i: nat, d: nat) {
    (forall q: nat :: (c, q) in now.dirs <==> q in Tables(was, e, d)) &&
    |free| + |Tables(was, e, d)| == all && d <= i &&
    (d < i ==> free == {} && UserAt(was, e, d) && d / PDE2PD !in Tables(was, e, d)) &&
    (forall v: nat | d <= v < i && v < USTACK_END :: !Vital(was, Loc(e, v)))
  }

  lemma CountedStart(m: Memory, free: set<nat>, e: nat, c: nat)
    requires forall v: nat :: Loc(c, v) !in m.pt && (c, v) !in m.dirs
    ensures Counted(m, |free|, m, free, e, c, 0, 0)
  {
  }

  /** Pages from i to j are not mapped. */
  lemma CountedSkip(was: Memory, all: nat, now: Memory, free: set<nat>, e: nat, c: nat, i: nat, j: nat, d: nat)
    requires Counted(was, all, now, free, e, c, i, d) && Progress(was, now, free, e, c, i, d)
    requires i <= j && forall v: nat | i <= v < j :: Loc(e, v) !in now.pt
    ensures Counted(was, all, now, free, e, c, j, if d == i then j else d)
  {
    forall v: nat | i <= v < j ensures Loc(e, v) !in was.pt {
      assert PageWalked(was, now, e, c, v, d);
    }
    if d == i {
      TablesSkip(was, e, i, j);
    }
    hide Tables, Progress;
  }

  /** Page i has been handed to duppage. */
  lemma CountedPage(was: Memory, all: nat, before: Memory, had: set<nat>, now: Memory, free: set<nat>,
                    e: nat, c: nat, i: nat, d: nat, ok: bool)
    requires e != c && i < USTACK_END
    requires Counted(was, all, before, had, e, c, i, d) && Progress(was, before, had, e, c, i, d)
    requires Taken(before, had, now, free, Loc(e, i), Loc(c, i))
    requires ok <==> HasRoom(before, had, Loc(c, i)) || !Vital(before, Loc(e, i))
    ensures ok ==>
              Counted(was, all, now, free, e, c, i + 1, if d == i && Shareable(before, had, e, c, i) then i + 1 else d)
    ensures ok || (Vital(was, Loc(e, i)) && |Tables(was, e, i + 1)| > all)
  {
    assert PageWalked(was, before, e, c, i, d);
    assert Vital(was, Loc(e, i)) <==> Vital(before, Loc(e, i));
    assert UserAt(was, e, i) <==> Loc(e, i) in before.pt && before.pt[Loc(e, i)].perm.u;
    if d < i {
      assert Starved(before, had, c, d);
      hide Progress, Walked, PageWalked, WellMapped;
      CountedStarved(was, all, before, had, e, c, i, d);
    } else {
      hide Progress, Walked, PageWalked, WellMapped;
      CountedOne(was, all, before, had, now, free, e, c, i);
    }
  }

  /** With no page left nothing is taken any more. */
  lemma CountedStarved(was: Memory, all: nat, m: Memory, free: set<nat>, e: nat, c: nat, i: nat, d: nat)
    requires d < i && Counted(was, all, m, free, e, c, i, d) && Starved(m, free, c, d)
    ensures !HasRoom(m, free, Loc(c, i)) && |Tables(was, e, i + 1)| > all
    ensures !Vital(was, Loc(e, i)) ==> Counted(was, all, m, free, e, c, i + 1, d)
  {
    assert i / PDE2PD >= d / PDE2PD;
    TablesNext(was, e, d);
    TablesGrow(was, e, d + 1, i + 1);
    hide Tables;
  }

  lemma CountedOne(was: Memory, all: nat, before: Memory, had: set<nat>, now: Memory, free: set<nat>, e: nat, c: nat,
                   i: nat)
    requires i < USTACK_END && Counted(was, all, before, had, e, c, i, i)
    requires Taken(before, had, now, free, Loc(e, i), Loc(c, i))
    requires UserAt(was, e, i) <==> Loc(e, i) in before.pt && before.pt[Loc(e, i)].perm.u
    ensures if Shareable(before, had, e, c, i) then Counted(was, all, now, free, e, c, i + 1, i + 1)
            else |Tables(was, e, i + 1)| > all &&
                 (!Vital(was, Loc(e, i)) ==> Counted(was, all, now, free, e, c, i + 1, i))
    ensures Vital(was, Loc(e, i)) ==> UserAt(was, e, i)
  {
    TablesNext(was, e, i);
    hide Tables;
    if UserAt(was, e, i) && Shareable(before, had, e, c, i) && Dir(Loc(c, i)) !in before.dirs {
      var t :| t in had && free == had - {t};
      assert |free| == |had| - 1;
    }
  }

  predicate HasRoom(m: Memory, free: set<nat>, b: Loc) {
    Dir(b) in m.dirs || free != {}
  }

  /** What one duplication costs: a page if a page table is made. */
  ghost predicate Taken(before: Memory, had: set<nat>, now: Memory, free: set<nat>, a: Loc, b: Loc) {
    if a in before.pt && before.pt[a].perm.u && HasRoom(before, had, b) then
      now.dirs == before.dirs + {Dir(b)} &&
      if Dir(b) in before.dirs then free == had else exists t <- had :: free == had - {t}
    else now.dirs == before.dirs && free == had
  }

  /** The pages that fork takes: one for the exception stack, and one for each of the
      child's page tables. */
  ghost function ForkCost(m: Memory, e: nat): nat {
    |Tables(m, e, USTACK_END) + {UXSTACK / PDE2PD}| + 1
  }

  /** Some page that has to become copy-on-write lies in a page table that cannot be had. */
  ghost predicate VitalLost(m: Memory, all: nat, e: nat) {
    exists v: nat :: v < USTACK_END && Vital(m, Loc(e, v)) && |Tables(m, e, v + 1)| > all
  }

  lemma CountedEnd(was: Memory, all: nat, now: Memory, free: set<nat>, e: nat, c: nat, i: nat, d: nat)
    requires Counted(was, all, now, free, e, c, i, d) && i >= USTACK_END
    ensures !VitalLost(was, all, e)
    ensures |free| >= (if (c, UXSTACK / PDE2PD) in now.dirs then 1 else 2) <==> all >= ForkCost(was, e)
  {
    if d >= USTACK_END {
      TablesTop(was, e, d);
      OneMore(Tables(was, e, USTACK_END), UXSTACK / PDE2PD);
    } else {
      TablesNext(was, e, d);
      TablesGrow(was, e, d + 1, USTACK_END);
      OneMore(Tables(was, e, USTACK_END), UXSTACK / PDE2PD);
    }
    forall v: nat | v < USTACK_END && Vital(was, Loc(e, v)) ensures |Tables(was, e, v + 1)| <= all {
      TablesGrow(was, e, v + 1, d);
    }
    hide Tables;
  }

  lemma OneMore(s: set<nat>, x: nat)
    ensures |s + {x}| == if x in s then |s| else |s| + 1
  {
    assert x in s ==> s + {x} == s;
  }

  lemma VitalCosts(m: Memory, all: nat, e: nat)
    requires VitalLost(m, all, e)
    ensures all < ForkCost(m, e)
  {
    var v: nat :| v < USTACK_END && Vital(m, Loc(e, v)) && |Tables(m, e, v + 1)| > all;
    TablesGrow(m, e, v + 1, USTACK_END);
    OneMore(Tables(m, e, USTACK_END), UXSTACK / PDE2PD);
    hide Tables;
  }

  lemma TablesTop(m: Memory, e: nat, d: nat)
    requires d >= USTACK_END
    ensures Tables(m, e, d) == Tables(m, e, USTACK_END)
  {
  }

  /** The page can be mapped in the child, or is not for user code at all. */
  predicate Shareable(m: Memory, free: set<nat>, e: nat, c: nat, i: nat) {
    Dir(Loc(c, i)) in m.dirs || free != {} || !(Loc(e, i) in m.pt && m.pt[Loc(e, i)].perm.u)
  }

  lemma DupOne(was: Memory, before: Memory, had: set<nat>, now: Memory, e: nat, c: nat, i: nat)
    requires e != c && i < USTACK_END && Walked(was, before, e, c, i) && TablesBelow(before, c, i)
    requires forall d: (nat, nat) | d != (c, i / PDE2PD) :: d in now.dirs <==> d in before.dirs
    requires if Dir(Loc(c, i)) in before.dirs || had != {}
             then Duplicated(before, now, Loc(e, i), Loc(c, i)) && OnlyAt(before, now, Loc(e, i), Loc(c, i))
             else now == before
    ensures if Shareable(before, had, e, c, i) then Walked(was, now, e, c, i + 1) && TablesBelow(now, c, i + 1)
            else Walked(was, now, e, c, i) && Starved(now, had, c, i)
  {
    if Shareable(before, had, e, c, i) {
      var j := i + 1;
      WalkOne(was, before, now, e, c, i, j);
      hide Walked;
      forall q: nat | (c, q) in now.dirs ensures q * PDE2PD < j {
        assert q != i / PDE2PD ==> (c, q) != (c, i / PDE2PD);
      }
    }
  }

  lemma AfterPgfaultAll(m: Memory, e: nat, v: nat)
    requires WellMapped(m) && Loc(e, v) in m.pt && v != SCRATCH && Loc(e, SCRATCH) !in m.pt
    ensures forall page | page != m.pt[Loc(e, v)].page ::
      && AfterPgfault(m, e, v, page).pt == m.pt[Loc(e, v) := Pte(page, PERM_UW)]
      && AfterPgfault(m, e, v, page).ram == m.ram[page := m.ram[m.pt[Loc(e, v)].page]]
  {
    forall page | page != m.pt[Loc(e, v)].page
      ensures AfterPgfault(m, e, v, page).pt == m.pt[Loc(e, v) := Pte(page, PERM_UW)]
      ensures AfterPgfault(m, e, v, page).ram == m.ram[page := m.ram[m.pt[Loc(e, v)].page]]
    {
      AfterPgfaultIs(m, e, v, page);
    }
  }

  lemma OneLess(s: set<nat>, x: nat)
    requires x in s
    ensures |s - {x}| == |s| - 1
  {
  }
}
