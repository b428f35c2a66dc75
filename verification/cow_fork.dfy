/** Copy-on-write fork, one system call or one user store at a time.

    Any number of environments run interleaved. `fork` is a sequence of page
    duplications in the parent, each page taking one or two sys_mem_map calls;
    the write-fault handler takes four steps (allocate a scratch page, copy,
    map over the faulting page, unmap the scratch page). Other environments
    may run between any two of these. */
module CowFork {
  import opened Wrappers
  import opened AddressSpace

  /** How far an environment is in `pgfault`. */
  datatype Fault = NoFault | Allocated(v: nat) | Copied(v: nat) | Remapped(v: nat)

  /** How far an environment is in `fork`. `Half(c, v)`: the first of the two
      sys_mem_map calls of duppage has mapped page v into child c. */
  datatype Fork = NoFork | Scan(child: nat) | Half(child: nat, v: nat)

  /** Environments are named by their ids, which are not reused; an environment
      destroyed inside fork leaves its entry in `fork`, and its child is never
      run. `embryos` maps a child that was never made runnable to its parent.
      `pushed` are the pages an environment has stored to since its fork began,
      less those it has duplicated since. */
  datatype Sys = Sys(mem: Memory, live: set<nat>, embryos: map<nat, nat>,
                     fault: map<nat, Fault>, fork: map<nat, Fork>, pushed: map<nat, set<nat>>)

  function FaultOf(s: Sys, e: nat): Fault {
    if e in s.fault then s.fault[e] else NoFault
  }

  function ForkOf(s: Sys, e: nat): Fork {
    if e in s.fork then s.fork[e] else NoFork
  }

  function PushedOf(s: Sys, e: nat): set<nat> {
    if e in s.pushed then s.pushed[e] else {}
  }

  datatype Step =
    | Store(e: nat, v: nat, off: nat, x: byte)
    | Grow(e: nat, v: nat, page: nat, perm: Perm)
    | Unmap(e: nat, v: nat)
    | Share(e: nat, u: nat, r: nat, v: nat, perm: Perm)
    | FaultAlloc(e: nat, v: nat, page: nat)
    | FaultCopy(e: nat)
    | FaultMap(e: nat)
    | FaultUnmap(e: nat)
    | ForkAlloc(e: nat, c: nat)
    | DupShared(e: nat, v: nat)
    | DupFirst(e: nat, v: nat)
    | DupSecond(e: nat)
    | ForkFinish(e: nat, page: nat)
    | Destroy(e: nat)

  predicate Running(s: Sys, e: nat) {
    e in s.live && e !in s.embryos
  }

  function PteAt(s: Sys, e: nat, v: nat): Pte
    requires Loc(e, v) in s.mem.pt
  {
    s.mem.pt[Loc(e, v)]
  }

  /** Between its two mappings of a page duppage stores into its own stack frames
      only. It has pushed those before the first mapping, so it stores to the
      page it is duplicating only if it has done so before. */
  predicate InFrame(s: Sys, e: nat, v: nat) {
    ForkOf(s, e).Half? && ForkOf(s, e).v == v ==> v in PushedOf(s, e)
  }

  /** What lets a step happen: the processor's permission check for a store, the
      test of `pgfault` for a fault, and the branch of `duppage` for a duplication. */
  predicate Enabled(s: Sys, t: Step) {
    Running(s, t.e) &&
    match t
    case Store(e, v, off, x) =>
      v != SCRATCH && off < BY2PG && Loc(e, v) in s.mem.pt && PteAt(s, e, v).perm.u && PteAt(s, e, v).perm.w &&
      InFrame(s, e, v)
    case Grow(e, v, page, perm) =>
      ForkOf(s, e) == NoFork && FaultOf(s, e) == NoFault && v != SCRATCH && IsFree(s.mem, page) && !perm.cow
    case Unmap(e, v) =>
      ForkOf(s, e) == NoFork && FaultOf(s, e) == NoFault && v != SCRATCH
    case Share(e, u, r, v, perm) =>
      Running(s, r) && ForkOf(s, r) == NoFork && FaultOf(s, r) == NoFault && v != SCRATCH &&
      Loc(e, u) in s.mem.pt && PteAt(s, e, u).perm.lib && perm.lib && (perm.cow ==> perm.u && perm.w)
    case FaultAlloc(e, v, page) =>
      FaultOf(s, e) == NoFault && v != SCRATCH && IsFree(s.mem, page) &&
      Loc(e, v) in s.mem.pt && !PteAt(s, e, v).perm.w && PteAt(s, e, v).perm.cow &&
      InFrame(s, e, v)
    case FaultCopy(e) => FaultOf(s, e).Allocated?
    case FaultMap(e) => FaultOf(s, e).Copied?
    case FaultUnmap(e) => FaultOf(s, e).Remapped?
    case ForkAlloc(e, c) =>
      ForkOf(s, e) == NoFork && FaultOf(s, e) == NoFault && c !in s.live && ForkOf(s, c) == NoFork
    case DupShared(e, v) =>
      ForkOf(s, e).Scan? && FaultOf(s, e) == NoFault && v < USTACK_END && v != SCRATCH &&
      Loc(ForkOf(s, e).child, v) !in s.mem.pt &&
      Loc(e, v) in s.mem.pt && var p := PteAt(s, e, v).perm; p.u && (p.lib || !(p.w || p.cow))
    case DupFirst(e, v) =>
      ForkOf(s, e).Scan? && FaultOf(s, e) == NoFault && v < USTACK_END && v != SCRATCH &&
      Loc(ForkOf(s, e).child, v) !in s.mem.pt &&
      Loc(e, v) in s.mem.pt && var p := PteAt(s, e, v).perm; p.u && !p.lib && (p.w || p.cow)
    case DupSecond(e) => ForkOf(s, e).Half? && FaultOf(s, e) == NoFault
    case ForkFinish(e, page) => ForkOf(s, e).Scan? && FaultOf(s, e) == NoFault && IsFree(s.mem, page)
    case Destroy(e) => true
  }

  function Next(s: Sys, t: Step): Sys
    requires Enabled(s, t) && Inv(s)
  {
    match t
    case Store(e, v, off, x) =>
      s.(mem := Poke(s.mem, PteAt(s, e, v).page, off, x), pushed := s.pushed[e := PushedOf(s, e) + {v}])
    case Grow(e, v, page, perm) => s.(mem := MapNew(s.mem, Loc(e, v), page, perm))
    case Unmap(e, v) => s.(mem := Remove(s.mem, Loc(e, v)))
    case Share(e, u, r, v, perm) => s.(mem := MapFrom(s.mem, Loc(e, u), Loc(r, v), perm))
    case FaultAlloc(e, v, page) =>
      s.(mem := MapNew(s.mem, Loc(e, SCRATCH), page, PERM_UW), fault := s.fault[e := Allocated(v)])
    case FaultCopy(e) =>
      assert FaultInv(s, e);
      var v := FaultOf(s, e).v;
      s.(mem := CopyPage(s.mem, PteAt(s, e, v).page, PteAt(s, e, SCRATCH).page), fault := s.fault[e := Copied(v)])
    case FaultMap(e) =>
      var v := FaultOf(s, e).v;
      s.(mem := MapFrom(s.mem, Loc(e, SCRATCH), Loc(e, v), PERM_UW), fault := s.fault[e := Remapped(v)])
    case FaultUnmap(e) =>
      s.(mem := Remove(s.mem, Loc(e, SCRATCH)), fault := s.fault - {e})
    case ForkAlloc(e, c) =>
      s.(live := s.live + {c}, embryos := s.embryos[c := e], fork := s.fork[e := Scan(c)],
          pushed := s.pushed[e := {}])
    case DupShared(e, v) =>
      var perm := if PteAt(s, e, v).perm.lib then PERM_ALL else PERM_RO;
      s.(mem := MapFrom(s.mem, Loc(e, v), Loc(ForkOf(s, e).child, v), perm))
    case DupFirst(e, v) =>
      var c := ForkOf(s, e).child;
      s.(mem := MapFrom(s.mem, Loc(e, v), Loc(c, v), PERM_COW), fork := s.fork[e := Half(c, v)])
    case DupSecond(e) =>
      var Half(c, v) := ForkOf(s, e);
      s.(mem := MapFrom(s.mem, Loc(c, v), Loc(e, v), PERM_COW), fork := s.fork[e := Scan(c)],
          pushed := s.pushed[e := PushedOf(s, e) - {v}])
    case ForkFinish(e, page) =>
      var c := ForkOf(s, e).child;
      s.(mem := MapNew(s.mem, Loc(c, UXSTACK), page, PERM_UW), embryos := s.embryos - {c}, fork := s.fork - {e})
    case Destroy(e) =>
      s.(mem := RemoveAll(s.mem, e), live := s.live - {e}, fault := s.fault - {e})
  }

  // ---------------------------------------------------------------- invariant

  /** b is the child's half of a page that a's environment is duplicating. */
  predicate HalfPair(s: Sys, a: Loc, b: Loc) {
    ForkOf(s, a.env) == Half(b.env, a.vpn) && b.vpn == a.vpn
  }

  /** a is the scratch mapping and b the page it has just replaced. */
  predicate ScratchPair(s: Sys, a: Loc, b: Loc) {
    a.env == b.env && a.vpn == SCRATCH && FaultOf(s, a.env) == Remapped(b.vpn)
  }

  /** Two mappings of one physical page are both shared on purpose, or neither
      is writable, or they are a pair an operation in progress accounts for. */
  ghost predicate PairOk(s: Sys, a: Loc, b: Loc) {
    a in s.mem.pt && b in s.mem.pt && a != b && s.mem.pt[a].page == s.mem.pt[b].page ==>
      var p, q := s.mem.pt[a].perm, s.mem.pt[b].perm;
      p.lib == q.lib &&
      (p.lib || !p.w || ScratchPair(s, a, b) || ScratchPair(s, b, a) || (HalfPair(s, a, b) && !q.w))
  }

  ghost predicate FaultInv(s: Sys, e: nat)
    requires WellMapped(s.mem)
  {
    (Loc(e, SCRATCH) in s.mem.pt <==> FaultOf(s, e) != NoFault) &&
    (FaultOf(s, e) != NoFault ==>
      var t, v := PteAt(s, e, SCRATCH), FaultOf(s, e).v;
      e in s.live && e !in s.embryos && v != SCRATCH && OwnWritable(t.perm) && Loc(e, v) in s.mem.pt &&
      var p := PteAt(s, e, v);
      !p.perm.lib &&
      match FaultOf(s, e)
      case Allocated(_) => !p.perm.w && p.perm.cow
      case Copied(_) => !p.perm.w && p.perm.cow && s.mem.ram[t.page] == s.mem.ram[p.page]
      case Remapped(_) => t.page == p.page)
  }

  ghost predicate ForkInv(s: Sys, e: nat) {
    ForkOf(s, e) != NoFork ==>
      var c := ForkOf(s, e).child;
      e !in s.embryos && c in s.embryos && s.embryos[c] == e && c in s.live && c != e &&
      (ForkOf(s, e).Half? ==>
        var v := ForkOf(s, e).v;
        v < USTACK_END && v != SCRATCH &&
        (e in s.live ==> Loc(e, v) in s.mem.pt && var p := PteAt(s, e, v).perm; p.u && !p.lib && MayWrite(p)) &&
        Loc(c, v) in s.mem.pt && CopyOnWrite(PteAt(s, c, v).perm))
  }

  ghost predicate Inv(s: Sys) {
    WellMapped(s.mem) &&
    s.embryos.Keys <= s.live &&
    (forall l <- s.mem.pt ::
      l.env in s.live && var p := s.mem.pt[l].perm; p.cow ==> p.u && (p.lib ==> p.w)) &&
    (forall a, b :: PairOk(s, a, b)) &&
    (forall e :: FaultInv(s, e)) &&
    (forall e :: ForkInv(s, e))
  }

  lemma StorePair(s: Sys, e: nat, v: nat, off: nat, x: byte, a: Loc, b: Loc)
    requires Inv(s) && Enabled(s, Store(e, v, off, x))
    ensures PairOk(Next(s, Store(e, v, off, x)), a, b)
  {
    assert FaultInv(s, e) && ForkInv(s, e);
    assert PairOk(s, a, b);
  }

  lemma StoreInv(s: Sys, e: nat, v: nat, off: nat, x: byte)
    requires Inv(s) && Enabled(s, Store(e, v, off, x))
    ensures Inv(Next(s, Store(e, v, off, x)))
  {
    var s' := Next(s, Store(e, v, off, x));
    assert FaultInv(s, e) && ForkInv(s, e);
    assert WellMapped(s'.mem);
    forall a, b ensures PairOk(s', a, b) {
      StorePair(s, e, v, off, x, a, b);
    }
    forall f ensures FaultInv(s', f) {
      assert FaultInv(s, f) && PairOk(s, Loc(e, v), Loc(f, SCRATCH)) && ForkInv(s, e);
      if FaultOf(s, f) != NoFault {
        assert PairOk(s, Loc(e, v), Loc(f, FaultOf(s, f).v));
      }
    }
    forall f ensures ForkInv(s', f) {
      assert ForkInv(s, f);
    }
  }

  lemma GrowInv(s: Sys, e: nat, v: nat, page: nat, perm: Perm)
    requires Inv(s) && Enabled(s, Grow(e, v, page, perm))
    ensures Inv(Next(s, Grow(e, v, page, perm)))
  {
    var s' := Next(s, Grow(e, v, page, perm));
    assert FaultInv(s, e) && ForkInv(s, e);
    assert WellMapped(s'.mem);
    forall a, b ensures PairOk(s', a, b) {
      assert PairOk(s, a, b);
    }
    forall f ensures FaultInv(s', f) {
      assert FaultInv(s, f);
    }
    forall f ensures ForkInv(s', f) {
      assert ForkInv(s, f);
    }
  }

  lemma UnmapInv(s: Sys, e: nat, v: nat)
    requires Inv(s) && Enabled(s, Unmap(e, v))
    ensures Inv(Next(s, Unmap(e, v)))
  {
    var s' := Next(s, Unmap(e, v));
    assert FaultInv(s, e) && ForkInv(s, e);
    assert WellMapped(s'.mem);
    forall a, b ensures PairOk(s', a, b) {
      assert PairOk(s, a, b);
    }
    forall f ensures FaultInv(s', f) {
      assert FaultInv(s, f);
    }
    forall f ensures ForkInv(s', f) {
      assert ForkInv(s, f);
    }
  }

  lemma SharePair(s: Sys, e: nat, u: nat, r: nat, v: nat, perm: Perm, a: Loc, b: Loc)
    requires Inv(s) && Enabled(s, Share(e, u, r, v, perm))
    ensures PairOk(Next(s, Share(e, u, r, v, perm)), a, b)
  {
    assert FaultInv(s, e) && ForkInv(s, e) && FaultInv(s, r) && ForkInv(s, r);
    assert PairOk(s, a, b) && ForkInv(s, a.env) && ForkInv(s, b.env);
    var x := Loc(e, u);
    assert PairOk(s, a, x) && PairOk(s, x, a) &&
           PairOk(s, b, x) && PairOk(s, x, b);
  }

  /** Mapping a library page at another address, as dup and pipe do, or in another
      environment, as a message with a page does. */
  lemma ShareInv(s: Sys, e: nat, u: nat, r: nat, v: nat, perm: Perm)
    requires Inv(s) && Enabled(s, Share(e, u, r, v, perm))
    ensures Inv(Next(s, Share(e, u, r, v, perm)))
  {
    var s' := Next(s, Share(e, u, r, v, perm));
    assert FaultInv(s, e) && ForkInv(s, e) && FaultInv(s, r) && ForkInv(s, r);
    assert WellMapped(s'.mem);
    forall a, b ensures PairOk(s', a, b) {
      SharePair(s, e, u, r, v, perm, a, b);
    }
    hide PairOk;
    forall f ensures FaultInv(s', f) {
      assert FaultInv(s, f);
    }
    forall f ensures ForkInv(s', f) {
      assert ForkInv(s, f);
    }
  }

  lemma FaultAllocPair(s: Sys, e: nat, v: nat, page: nat, a: Loc, b: Loc)
    requires Inv(s) && Enabled(s, FaultAlloc(e, v, page))
    ensures PairOk(Next(s, FaultAlloc(e, v, page)), a, b)
  {
    assert FaultInv(s, e) && ForkInv(s, e);
    assert PairOk(s, a, b);
  }

  lemma FaultAllocInv(s: Sys, e: nat, v: nat, page: nat)
    requires Inv(s) && Enabled(s, FaultAlloc(e, v, page))
    ensures Inv(Next(s, FaultAlloc(e, v, page)))
  {
    var s' := Next(s, FaultAlloc(e, v, page));
    assert FaultInv(s, e) && ForkInv(s, e);
    assert WellMapped(s'.mem);
    forall a, b ensures PairOk(s', a, b) {
      FaultAllocPair(s, e, v, page, a, b);
    }
    hide PairOk;
    forall f ensures FaultInv(s', f) {
      assert FaultInv(s, f);
    }
    forall f ensures ForkInv(s', f) {
      assert ForkInv(s, f);
    }
  }

  lemma FaultCopyInv(s: Sys, e: nat)
    requires Inv(s) && Enabled(s, FaultCopy(e))
    ensures Inv(Next(s, FaultCopy(e)))
  {
    var s' := Next(s, FaultCopy(e));
    assert FaultInv(s, e) && ForkInv(s, e);
    assert WellMapped(s'.mem);
    forall a, b ensures PairOk(s', a, b) {
      assert PairOk(s, a, b);
    }
    forall f ensures FaultInv(s', f) {
      assert FaultInv(s, f) && PairOk(s, Loc(e, SCRATCH), Loc(f, SCRATCH)) && ForkInv(s, e);
      if FaultOf(s, f) != NoFault {
        assert PairOk(s, Loc(e, SCRATCH), Loc(f, FaultOf(s, f).v));
      }
    }
    forall f ensures ForkInv(s', f) {
      assert ForkInv(s, f);
    }
  }

  lemma FaultMapPair(s: Sys, e: nat, a: Loc, b: Loc)
    requires Inv(s) && Enabled(s, FaultMap(e))
    ensures PairOk(Next(s, FaultMap(e)), a, b)
  {
    assert FaultInv(s, e) && ForkInv(s, e);
    assert PairOk(s, a, b);
    assert PairOk(s, a, Loc(e, SCRATCH)) && PairOk(s, Loc(e, SCRATCH), a) &&
           PairOk(s, b, Loc(e, SCRATCH)) && PairOk(s, Loc(e, SCRATCH), b);
  }

  lemma FaultMapInv(s: Sys, e: nat)
    requires Inv(s) && Enabled(s, FaultMap(e))
    ensures Inv(Next(s, FaultMap(e)))
  {
    var s' := Next(s, FaultMap(e));
    assert FaultInv(s, e) && ForkInv(s, e);
    assert WellMapped(s'.mem);
    forall a, b ensures PairOk(s', a, b) {
      FaultMapPair(s, e, a, b);
    }
    hide PairOk;
    forall f ensures FaultInv(s', f) {
      assert FaultInv(s, f);
    }
    forall f ensures ForkInv(s', f) {
      assert ForkInv(s, f);
    }
  }

  lemma FaultUnmapPair(s: Sys, e: nat, a: Loc, b: Loc)
    requires Inv(s) && Enabled(s, FaultUnmap(e))
    ensures PairOk(Next(s, FaultUnmap(e)), a, b)
  {
    assert FaultInv(s, e) && ForkInv(s, e);
    assert PairOk(s, a, b);
  }

  lemma FaultUnmapInv(s: Sys, e: nat)
    requires Inv(s) && Enabled(s, FaultUnmap(e))
    ensures Inv(Next(s, FaultUnmap(e)))
  {
    var s' := Next(s, FaultUnmap(e));
    assert FaultInv(s, e) && ForkInv(s, e);
    assert WellMapped(s'.mem);
    forall a, b ensures PairOk(s', a, b) {
      FaultUnmapPair(s, e, a, b);
    }
    hide PairOk;
    forall f ensures FaultInv(s', f) {
      assert FaultInv(s, f);
    }
    forall f ensures ForkInv(s', f) {
      assert ForkInv(s, f);
    }
  }

  lemma ForkAllocInv(s: Sys, e: nat, c: nat)
    requires Inv(s) && Enabled(s, ForkAlloc(e, c))
    ensures Inv(Next(s, ForkAlloc(e, c)))
  {
    var s' := Next(s, ForkAlloc(e, c));
    assert FaultInv(s, e) && ForkInv(s, e);
    assert WellMapped(s'.mem);
    forall a, b ensures PairOk(s', a, b) {
      assert PairOk(s, a, b);
    }
    forall f ensures FaultInv(s', f) {
      assert FaultInv(s, f);
    }
    forall f ensures ForkInv(s', f) {
      assert ForkInv(s, f);
    }
  }

  lemma DupSharedPair(s: Sys, e: nat, v: nat, a: Loc, b: Loc)
    requires Inv(s) && Enabled(s, DupShared(e, v))
    ensures PairOk(Next(s, DupShared(e, v)), a, b)
  {
    assert FaultInv(s, e) && ForkInv(s, e);
    assert PairOk(s, a, b) && ForkInv(s, a.env) && ForkInv(s, b.env);
    var x := Loc(e, v);
    assert PairOk(s, a, x) && PairOk(s, x, a) &&
           PairOk(s, b, x) && PairOk(s, x, b);
  }

  lemma DupSharedInv(s: Sys, e: nat, v: nat)
    requires Inv(s) && Enabled(s, DupShared(e, v))
    ensures Inv(Next(s, DupShared(e, v)))
  {
    var s' := Next(s, DupShared(e, v));
    assert FaultInv(s, e) && ForkInv(s, e);
    assert WellMapped(s'.mem);
    forall a, b ensures PairOk(s', a, b) {
      DupSharedPair(s, e, v, a, b);
    }
    hide PairOk;
    forall f ensures FaultInv(s', f) {
      assert FaultInv(s, f);
    }
    forall f ensures ForkInv(s', f) {
      assert ForkInv(s, f);
    }
  }

  lemma DupFirstPair(s: Sys, e: nat, v: nat, a: Loc, b: Loc)
    requires Inv(s) && Enabled(s, DupFirst(e, v))
    ensures PairOk(Next(s, DupFirst(e, v)), a, b)
  {
    assert FaultInv(s, e) && ForkInv(s, e);
    assert PairOk(s, a, b) && ForkInv(s, a.env) && ForkInv(s, b.env);
    var x := Loc(e, v);
    assert PairOk(s, a, x) && PairOk(s, x, a) &&
           PairOk(s, b, x) && PairOk(s, x, b);
  }

  lemma DupFirstInv(s: Sys, e: nat, v: nat)
    requires Inv(s) && Enabled(s, DupFirst(e, v))
    ensures Inv(Next(s, DupFirst(e, v)))
  {
    var s' := Next(s, DupFirst(e, v));
    assert FaultInv(s, e) && ForkInv(s, e);
    assert WellMapped(s'.mem);
    forall a, b ensures PairOk(s', a, b) {
      DupFirstPair(s, e, v, a, b);
    }
    hide PairOk;
    forall f ensures FaultInv(s', f) {
      assert FaultInv(s, f);
    }
    forall f ensures ForkInv(s', f) {
      assert ForkInv(s, f);
    }
  }

  lemma DupSecondPair(s: Sys, e: nat, a: Loc, b: Loc)
    requires Inv(s) && Enabled(s, DupSecond(e))
    ensures PairOk(Next(s, DupSecond(e)), a, b)
  {
    assert FaultInv(s, e) && ForkInv(s, e);
    assert PairOk(s, a, b) && ForkInv(s, a.env) && ForkInv(s, b.env) && FaultInv(s, a.env) && FaultInv(s, b.env);
    var x := Loc(ForkOf(s, e).child, ForkOf(s, e).v);
    assert PairOk(s, a, x) && PairOk(s, x, a) &&
           PairOk(s, b, x) && PairOk(s, x, b);
  }

  lemma DupSecondInv(s: Sys, e: nat)
    requires Inv(s) && Enabled(s, DupSecond(e))
    ensures Inv(Next(s, DupSecond(e)))
  {
    var s' := Next(s, DupSecond(e));
    assert FaultInv(s, e) && ForkInv(s, e);
    assert WellMapped(s'.mem);
    forall a, b ensures PairOk(s', a, b) {
      DupSecondPair(s, e, a, b);
    }
    hide PairOk;
    forall f ensures FaultInv(s', f) {
      assert FaultInv(s, f);
    }
    forall f ensures ForkInv(s', f) {
      assert ForkInv(s, f);
    }
  }

  lemma ForkFinishInv(s: Sys, e: nat, page: nat)
    requires Inv(s) && Enabled(s, ForkFinish(e, page))
    ensures Inv(Next(s, ForkFinish(e, page)))
  {
    var s' := Next(s, ForkFinish(e, page));
    assert FaultInv(s, e) && ForkInv(s, e);
    assert WellMapped(s'.mem);
    forall a, b ensures PairOk(s', a, b) {
      assert PairOk(s, a, b);
    }
    forall f ensures FaultInv(s', f) {
      assert FaultInv(s, f);
    }
    forall f ensures ForkInv(s', f) {
      assert ForkInv(s, f);
    }
  }

  lemma DestroyPair(s: Sys, e: nat, a: Loc, b: Loc)
    requires Inv(s) && Enabled(s, Destroy(e))
    ensures PairOk(Next(s, Destroy(e)), a, b)
  {
    assert FaultInv(s, e) && ForkInv(s, e);
    assert PairOk(s, a, b);
  }

  lemma DestroyInv(s: Sys, e: nat)
    requires Inv(s) && Enabled(s, Destroy(e))
    ensures Inv(Next(s, Destroy(e)))
  {
    var s' := Next(s, Destroy(e));
    assert FaultInv(s, e) && ForkInv(s, e);
    assert WellMapped(s'.mem);
    forall a, b ensures PairOk(s', a, b) {
      DestroyPair(s, e, a, b);
    }
    hide PairOk;
    forall f ensures FaultInv(s', f) {
      assert FaultInv(s, f);
    }
    forall f ensures ForkInv(s', f) {
      assert ForkInv(s, f);
    }
  }

  lemma NextInv(s: Sys, t: Step)
    requires Inv(s) && Enabled(s, t)
    ensures Inv(Next(s, t))
  {
    match t
    case Store(e, v, off, x) => StoreInv(s, e, v, off, x);
    case Grow(e, v, page, perm) => GrowInv(s, e, v, page, perm);
    case Unmap(e, v) => UnmapInv(s, e, v);
    case Share(e, u, r, v, perm) => ShareInv(s, e, u, r, v, perm);
    case FaultAlloc(e, v, page) => FaultAllocInv(s, e, v, page);
    case FaultCopy(e) => FaultCopyInv(s, e);
    case FaultMap(e) => FaultMapInv(s, e);
    case FaultUnmap(e) => FaultUnmapInv(s, e);
    case ForkAlloc(e, c) => ForkAllocInv(s, e, c);
    case DupShared(e, v) => DupSharedInv(s, e, v);
    case DupFirst(e, v) => DupFirstInv(s, e, v);
    case DupSecond(e) => DupSecondInv(s, e);
    case ForkFinish(e, page) => ForkFinishInv(s, e, page);
    case Destroy(e) => DestroyInv(s, e);
  }

  // ------------------------------------------------- private copies, the ideal

  /** One page as a program sees it, and whether it may read and write it; a write
      may fault on the way. Pages with the same `id` are one deliberately shared
      library page. */
  datatype Cell =
    | Private(data: Data, read: bool, write: bool)
    | Shared(id: nat, data: Data, read: bool, write: bool)

  /** Memory as programs would see it if every environment had its own. */
  type Ideal = map<Loc, Cell>

  datatype Event =
    | Put(l: Loc, off: nat, x: byte)
    | Fresh(l: Loc, cell: Cell)
    | Drop(l: Loc)
    | CopyTo(src: Loc, dst: Loc)
    | ShareTo(src: Loc, dst: Loc, read: bool, write: bool)
    | DropAll(e: nat)
    | Nothing

  function PutCell(i: Ideal, l: Loc, off: nat, x: byte, k: Loc): Cell
    requires k in i && l in i && off < BY2PG
  {
    if k == l || (i[k].Shared? && i[l].Shared? && i[k].id == i[l].id) then i[k].(data := i[k].data[off := x])
    else i[k]
  }

  function IdealNext(i: Ideal, ev: Event): Ideal {
    match ev
    case Put(l, off, x) => if l in i && off < BY2PG then map k <- i :: PutCell(i, l, off, x, k) else i
    case Fresh(l, cell) => i[l := cell]
    case Drop(l) => i - {l}
    case CopyTo(src, dst) => if src in i then i[dst := i[src]] else i
    case ShareTo(src, dst, read, write) => if src in i then i[dst := i[src].(read := read, write := write)] else i
    case DropAll(e) => map k <- i | k.env != e :: i[k]
    case Nothing => i
  }

  /** The scratch page and a page half way through duplication are not yet part
      of any program's memory. */
  predicate Visible(s: Sys, l: Loc) {
    l in s.mem.pt && l.vpn != SCRATCH &&
    !(l.env in s.embryos && ForkOf(s, s.embryos[l.env]) == Half(l.env, l.vpn))
  }

  function CellOf(page: nat, p: Perm, data: Data): Cell {
    if p.lib then Shared(page, data, MayRead(p), MayWrite(p)) else Private(data, MayRead(p), MayWrite(p))
  }

  function CellAt(s: Sys, l: Loc): Cell
    requires WellMapped(s.mem) && l in s.mem.pt
  {
    var p := s.mem.pt[l];
    CellOf(p.page, p.perm, s.mem.ram[p.page])
  }

  ghost function Abs(s: Sys): Ideal
    requires WellMapped(s.mem)
  {
    map l <- s.mem.pt | Visible(s, l) :: CellAt(s, l)
  }

  /** What each step means to a program that believes in private memory: the
      fault handler and the first half of a duplication mean nothing. A page in the
      child may be read and written as in the parent, but duppage maps a library
      page with every bit set. */
  function EventOf(s: Sys, t: Step): Event
    requires Enabled(s, t)
  {
    match t
    case Store(e, v, off, x) => Put(Loc(e, v), off, x)
    case Grow(e, v, page, perm) => Fresh(Loc(e, v), CellOf(page, perm, Zeros()))
    case Unmap(e, v) => Drop(Loc(e, v))
    case Share(e, u, r, v, p) => ShareTo(Loc(e, u), Loc(r, v), MayRead(p), MayWrite(p))
    case DupShared(e, v) =>
      var a, b := Loc(e, v), Loc(ForkOf(s, e).child, v);
      if PteAt(s, e, v).perm.lib then ShareTo(a, b, true, true) else CopyTo(a, b)
    case DupSecond(e) => CopyTo(Loc(e, ForkOf(s, e).v), Loc(ForkOf(s, e).child, ForkOf(s, e).v))
    case ForkFinish(e, page) => Fresh(Loc(ForkOf(s, e).child, UXSTACK), Private(Zeros(), true, true))
    case Destroy(e) => DropAll(e)
    case _ => Nothing
  }

  /** Between the two halves of a duplication, parent and child still hold the
      same bytes in that page. */
  ghost predicate HalvesAgree(s: Sys, e: nat)
    requires Inv(s) && ForkOf(s, e).Half? && e in s.live
  {
    assert ForkInv(s, e);
    var Half(c, v) := ForkOf(s, e);
    s.mem.ram[PteAt(s, e, v).page] == s.mem.ram[PteAt(s, c, v).page]
  }

  ghost predicate Agrees(s: Sys, i: Ideal, l: Loc)
    requires WellMapped(s.mem)
  {
    (l in i <==> Visible(s, l)) && (l in i ==> i[l] == CellAt(s, l))
  }

  lemma StoreCell(s: Sys, e: nat, v: nat, off: nat, x: byte, l: Loc)
    requires Inv(s) && Enabled(s, Store(e, v, off, x)) && WellMapped(Next(s, Store(e, v, off, x)).mem)
    ensures Agrees(Next(s, Store(e, v, off, x)), IdealNext(Abs(s), EventOf(s, Store(e, v, off, x))), l)
  {
    assert Agrees(s, Abs(s), l) && FaultInv(s, e) && ForkInv(s, e) && ForkInv(s, l.env);
    assert PairOk(s, Loc(e, v), l) && PairOk(s, l, Loc(e, v)) && FaultInv(s, l.env) && ForkInv(s, l.env);
  }

  lemma GrowCell(s: Sys, e: nat, v: nat, page: nat, perm: Perm, l: Loc)
    requires Inv(s) && Enabled(s, Grow(e, v, page, perm)) && WellMapped(Next(s, Grow(e, v, page, perm)).mem)
    ensures Agrees(Next(s, Grow(e, v, page, perm)), IdealNext(Abs(s), EventOf(s, Grow(e, v, page, perm))), l)
  {
    assert Agrees(s, Abs(s), l) && FaultInv(s, e) && ForkInv(s, e) && ForkInv(s, l.env);
  }

  lemma UnmapCell(s: Sys, e: nat, v: nat, l: Loc)
    requires Inv(s) && Enabled(s, Unmap(e, v)) && WellMapped(Next(s, Unmap(e, v)).mem)
    ensures Agrees(Next(s, Unmap(e, v)), IdealNext(Abs(s), EventOf(s, Unmap(e, v))), l)
  {
    assert Agrees(s, Abs(s), l) && FaultInv(s, e) && ForkInv(s, e) && ForkInv(s, l.env);
  }

  lemma ShareCell(s: Sys, e: nat, u: nat, r: nat, v: nat, perm: Perm, l: Loc)
    requires Inv(s) && Enabled(s, Share(e, u, r, v, perm)) && WellMapped(Next(s, Share(e, u, r, v, perm)).mem)
    ensures Agrees(Next(s, Share(e, u, r, v, perm)), IdealNext(Abs(s), EventOf(s, Share(e, u, r, v, perm))), l)
  {
    assert Agrees(s, Abs(s), l) && Agrees(s, Abs(s), Loc(e, u));
    assert FaultInv(s, e) && ForkInv(s, e) && FaultInv(s, r) && ForkInv(s, r) && ForkInv(s, l.env);
  }

  lemma FaultAllocCell(s: Sys, e: nat, v: nat, page: nat, l: Loc)
    requires Inv(s) && Enabled(s, FaultAlloc(e, v, page)) && WellMapped(Next(s, FaultAlloc(e, v, page)).mem)
    ensures Agrees(Next(s, FaultAlloc(e, v, page)), IdealNext(Abs(s), EventOf(s, FaultAlloc(e, v, page))), l)
  {
    assert Agrees(s, Abs(s), l) && FaultInv(s, e) && ForkInv(s, e) && ForkInv(s, l.env);
  }

  lemma FaultCopyCell(s: Sys, e: nat, l: Loc)
    requires Inv(s) && Enabled(s, FaultCopy(e)) && WellMapped(Next(s, FaultCopy(e)).mem)
    ensures Agrees(Next(s, FaultCopy(e)), IdealNext(Abs(s), EventOf(s, FaultCopy(e))), l)
  {
    assert Agrees(s, Abs(s), l) && FaultInv(s, e) && ForkInv(s, e) && ForkInv(s, l.env);
    assert PairOk(s, Loc(e, SCRATCH), l);
  }

  lemma FaultMapCell(s: Sys, e: nat, l: Loc)
    requires Inv(s) && Enabled(s, FaultMap(e)) && WellMapped(Next(s, FaultMap(e)).mem)
    ensures Agrees(Next(s, FaultMap(e)), IdealNext(Abs(s), EventOf(s, FaultMap(e))), l)
  {
    assert Agrees(s, Abs(s), l) && FaultInv(s, e) && ForkInv(s, e) && ForkInv(s, l.env);
  }

  lemma FaultUnmapCell(s: Sys, e: nat, l: Loc)
    requires Inv(s) && Enabled(s, FaultUnmap(e)) && WellMapped(Next(s, FaultUnmap(e)).mem)
    ensures Agrees(Next(s, FaultUnmap(e)), IdealNext(Abs(s), EventOf(s, FaultUnmap(e))), l)
  {
    assert Agrees(s, Abs(s), l) && FaultInv(s, e) && ForkInv(s, e) && ForkInv(s, l.env);
  }

  lemma ForkAllocCell(s: Sys, e: nat, c: nat, l: Loc)
    requires Inv(s) && Enabled(s, ForkAlloc(e, c)) && WellMapped(Next(s, ForkAlloc(e, c)).mem)
    ensures Agrees(Next(s, ForkAlloc(e, c)), IdealNext(Abs(s), EventOf(s, ForkAlloc(e, c))), l)
  {
    assert Agrees(s, Abs(s), l) && FaultInv(s, e) && ForkInv(s, e) && ForkInv(s, l.env);
  }

  lemma DupSharedCell(s: Sys, e: nat, v: nat, l: Loc)
    requires Inv(s) && Enabled(s, DupShared(e, v)) && WellMapped(Next(s, DupShared(e, v)).mem)
    ensures Agrees(Next(s, DupShared(e, v)), IdealNext(Abs(s), EventOf(s, DupShared(e, v))), l)
  {
    assert Agrees(s, Abs(s), l) && FaultInv(s, e) && ForkInv(s, e) && ForkInv(s, l.env);
  }

  lemma DupFirstCell(s: Sys, e: nat, v: nat, l: Loc)
    requires Inv(s) && Enabled(s, DupFirst(e, v)) && WellMapped(Next(s, DupFirst(e, v)).mem)
    ensures Agrees(Next(s, DupFirst(e, v)), IdealNext(Abs(s), EventOf(s, DupFirst(e, v))), l)
  {
    assert Agrees(s, Abs(s), l) && FaultInv(s, e) && ForkInv(s, e) && ForkInv(s, l.env);
  }

  /** The second half of a duplication maps the child's page back into the
      parent, so it shows the child's copy there, whatever the parent had. */
  lemma DupSecondCell(s: Sys, e: nat, l: Loc)
    requires Inv(s) && Enabled(s, DupSecond(e)) && WellMapped(Next(s, DupSecond(e)).mem)
    requires HalvesAgree(s, e)
    ensures Agrees(Next(s, DupSecond(e)), IdealNext(Abs(s), EventOf(s, DupSecond(e))), l)
  {
    assert Agrees(s, Abs(s), l) && FaultInv(s, e) && ForkInv(s, e) && ForkInv(s, l.env);
  }

  lemma ForkFinishCell(s: Sys, e: nat, page: nat, l: Loc)
    requires Inv(s) && Enabled(s, ForkFinish(e, page)) && WellMapped(Next(s, ForkFinish(e, page)).mem)
    ensures Agrees(Next(s, ForkFinish(e, page)), IdealNext(Abs(s), EventOf(s, ForkFinish(e, page))), l)
  {
    assert Agrees(s, Abs(s), l) && FaultInv(s, e) && ForkInv(s, e) && ForkInv(s, l.env);
  }

  lemma DestroyCell(s: Sys, e: nat, l: Loc)
    requires Inv(s) && Enabled(s, Destroy(e)) && WellMapped(Next(s, Destroy(e)).mem)
    ensures Agrees(Next(s, Destroy(e)), IdealNext(Abs(s), EventOf(s, Destroy(e))), l)
  {
    assert Agrees(s, Abs(s), l) && FaultInv(s, e) && ForkInv(s, e) && ForkInv(s, l.env);
  }

  lemma NextCell(s: Sys, t: Step, l: Loc)
    requires Inv(s) && Enabled(s, t) && WellMapped(Next(s, t).mem)
    requires t.DupSecond? ==> HalvesAgree(s, t.e)
    ensures Agrees(Next(s, t), IdealNext(Abs(s), EventOf(s, t)), l)
  {
    match t
    case Store(e, v, off, x) => StoreCell(s, e, v, off, x, l);
    case Grow(e, v, page, perm) => GrowCell(s, e, v, page, perm, l);
    case Unmap(e, v) => UnmapCell(s, e, v, l);
    case Share(e, u, r, v, perm) => ShareCell(s, e, u, r, v, perm, l);
    case FaultAlloc(e, v, page) => FaultAllocCell(s, e, v, page, l);
    case FaultCopy(e) => FaultCopyCell(s, e, l);
    case FaultMap(e) => FaultMapCell(s, e, l);
    case FaultUnmap(e) => FaultUnmapCell(s, e, l);
    case ForkAlloc(e, c) => ForkAllocCell(s, e, c, l);
    case DupShared(e, v) => DupSharedCell(s, e, v, l);
    case DupFirst(e, v) => DupFirstCell(s, e, v, l);
    case DupSecond(e) => DupSecondCell(s, e, l);
    case ForkFinish(e, page) => ForkFinishCell(s, e, page, l);
    case Destroy(e) => DestroyCell(s, e, l);
  }

  lemma AbsIs(s: Sys, i: Ideal)
    requires WellMapped(s.mem) && forall l :: Agrees(s, i, l)
    ensures Abs(s) == i
  {
    forall l ensures (l in Abs(s) <==> l in i) && (l in i ==> Abs(s)[l] == i[l]) {
      assert Agrees(s, i, l);
    }
  }

  /** One step refines private memory exactly when it is not the second half of
      a duplication whose two halves have come to differ. */
  lemma NextRefines(s: Sys, t: Step)
    requires Inv(s) && Enabled(s, t)
    ensures Inv(Next(s, t))
    ensures Abs(Next(s, t)) == IdealNext(Abs(s), EventOf(s, t)) <==> (t.DupSecond? ==> HalvesAgree(s, t.e))
  {
    NextInv(s, t);
    var s', i := Next(s, t), IdealNext(Abs(s), EventOf(s, t));
    if t.DupSecond? ==> HalvesAgree(s, t.e) {
      forall l ensures Agrees(s', i, l) {
        NextCell(s, t, l);
      }
      AbsIs(s', i);
    } else {
      LostHalf(s, t.e);
    }
  }

  lemma LostHalf(s: Sys, e: nat)
    requires Inv(s) && Enabled(s, DupSecond(e)) && Inv(Next(s, DupSecond(e)))
    requires !HalvesAgree(s, e)
    ensures Abs(Next(s, DupSecond(e))) != IdealNext(Abs(s), EventOf(s, DupSecond(e)))
  {
    assert ForkInv(s, e);
    var s' := Next(s, DupSecond(e));
    var l := Loc(e, ForkOf(s, e).v);
    assert Visible(s, l) && Visible(s', l);
    assert Abs(s')[l].data != Abs(s)[l].data;
  }

  // ---------------------------------------------------------------- whole runs

  ghost predicate RunOk(s: Sys, ts: seq<Step>)
    requires Inv(s)
    decreases |ts|
  {
    ts != [] ==> Enabled(s, ts[0]) && (NextInv(s, ts[0]); RunOk(Next(s, ts[0]), ts[1..]))
  }

  ghost function Final(s: Sys, ts: seq<Step>): (r: Sys)
    requires Inv(s) && RunOk(s, ts)
    ensures Inv(r)
    decreases |ts|
  {
    if ts == [] then s else NextInv(s, ts[0]); Final(Next(s, ts[0]), ts[1..])
  }

  /** The same run with private memory. */
  ghost function IdealFinal(s: Sys, ts: seq<Step>, i: Ideal): Ideal
    requires Inv(s) && RunOk(s, ts)
    decreases |ts|
  {
    if ts == [] then i else NextInv(s, ts[0]); IdealFinal(Next(s, ts[0]), ts[1..], IdealNext(i, EventOf(s, ts[0])))
  }

  predicate Writable(s: Sys, l: Loc) {
    l.vpn != SCRATCH && l in s.mem.pt && s.mem.pt[l].perm.w
  }

  /** The pages pushed to are still writable. */
  predicate PushedOk(s: Sys, e: nat) {
    ForkOf(s, e) != NoFork && e in s.live ==> forall v <- PushedOf(s, e) :: Writable(s, Loc(e, v))
  }

  /** No write fault is being handled on the page half duplicated, and its two
      halves are one page. */
  ghost predicate InStep(s: Sys, e: nat)
    requires Inv(s)
  {
    PushedOk(s, e) &&
    (ForkOf(s, e).Half? && e in s.live ==>
      ForkInv(s, e) &&
      var Half(c, v) := ForkOf(s, e);
      PteAt(s, e, v).page == PteAt(s, c, v).page && (FaultOf(s, e) != NoFault ==> FaultOf(s, e).v != v))
  }

  /** The parent cannot fault on the page it is half way through duplicating: a
      page it stores to then was stored to before, and nothing in between takes
      the right to write it away. */
  lemma HalfNeverFaults(s: Sys, e: nat, v: nat, page: nat)
    requires Inv(s) && InStep(s, e) && Enabled(s, FaultAlloc(e, v, page))
    ensures !(ForkOf(s, e).Half? && ForkOf(s, e).v == v)
  {
  }

  /** A mapping of a forking parent or of its child stays under every step other
      than the two that map over it. */
  lemma NextPte(s: Sys, t: Step, l: Loc)
    requires Inv(s) && Enabled(s, t) && l in s.mem.pt && l.vpn != SCRATCH && l.env in Next(s, t).live
    requires ForkOf(s, l.env) != NoFork || (l.env in s.embryos && l.vpn != UXSTACK)
    requires !(t == DupSecond(l.env) && ForkOf(s, l.env).v == l.vpn)
    requires !(t == FaultMap(l.env) && FaultOf(s, l.env).v == l.vpn)
    ensures l in Next(s, t).mem.pt && Next(s, t).mem.pt[l] == s.mem.pt[l]
  {
    Untouched(s, t, l);
    hide *;
    TouchesOnly(s, t, l);
  }

  /** Where a step maps or unmaps a page. */
  predicate Touches(s: Sys, t: Step, l: Loc) {
    match t
    case Store(_, _, _, _) => false
    case Grow(e, v, _, _) => l == Loc(e, v)
    case Unmap(e, v) => l == Loc(e, v)
    case Share(_, _, r, v, _) => l == Loc(r, v)
    case FaultAlloc(e, _, _) => l == Loc(e, SCRATCH)
    case FaultCopy(_) => false
    case FaultMap(e) => FaultOf(s, e) != NoFault && l == Loc(e, FaultOf(s, e).v)
    case FaultUnmap(e) => l == Loc(e, SCRATCH)
    case ForkAlloc(_, _) => false
    case DupShared(e, v) => ForkOf(s, e) != NoFork && l == Loc(ForkOf(s, e).child, v)
    case DupFirst(e, v) => ForkOf(s, e) != NoFork && l == Loc(ForkOf(s, e).child, v)
    case DupSecond(e) => ForkOf(s, e).Half? && l == Loc(e, ForkOf(s, e).v)
    case ForkFinish(e, _) => ForkOf(s, e) != NoFork && l == Loc(ForkOf(s, e).child, UXSTACK)
    case Destroy(e) => l.env == e
  }

  lemma TouchesOnly(s: Sys, t: Step, l: Loc)
    requires Inv(s) && Enabled(s, t) && l in s.mem.pt && !Touches(s, t, l)
    ensures l in Next(s, t).mem.pt && Next(s, t).mem.pt[l] == s.mem.pt[l]
  {
    hide Inv, InFrame;
  }

  lemma Untouched(s: Sys, t: Step, l: Loc)
    requires Inv(s) && Enabled(s, t) && l in s.mem.pt && l.vpn != SCRATCH && l.env in Next(s, t).live
    requires ForkOf(s, l.env) != NoFork || (l.env in s.embryos && l.vpn != UXSTACK)
    requires !(t == DupSecond(l.env) && ForkOf(s, l.env).v == l.vpn)
    requires !(t == FaultMap(l.env) && FaultOf(s, l.env).v == l.vpn)
    ensures !Touches(s, t, l)
  {
    assert ForkInv(s, l.env) && ForkInv(s, t.e) && (t.Destroy? ==> t.e !in Next(s, t).live);
    hide PairOk, FaultInv, Next;
  }

  /** No step takes the right to write a page away from another environment, and
      in fork only the second mapping takes it from the parent. */
  lemma NextWritable(s: Sys, t: Step, e: nat, v: nat)
    requires Inv(s) && Enabled(s, t) && ForkOf(s, e) != NoFork && ForkOf(Next(s, t), e) != NoFork &&
             e in Next(s, t).live
    requires Writable(s, Loc(e, v)) && e in s.live && !(t == DupSecond(e) && ForkOf(s, e).v == v)
    ensures Writable(Next(s, t), Loc(e, v))
  {
    assert FaultInv(s, e);
    hide PairOk, Next, ForkInv;
    NextPte(s, t, Loc(e, v));
  }

  lemma NextPushedOk(s: Sys, t: Step, e: nat)
    requires Inv(s) && Enabled(s, t) && PushedOk(s, e)
    ensures PushedOk(Next(s, t), e)
  {
    var s' := Next(s, t);
    assert ForkInv(s, e) && ForkInv(s, t.e);
    if ForkOf(s', e) != NoFork && e in s'.live {
      forall v <- PushedOf(s', e) ensures Writable(s', Loc(e, v)) {
        if ForkOf(s, e) != NoFork && v in PushedOf(s, e) {
          NextWritable(s, t, e, v);
        }
      }
    }
  }

  /** A step between the two mappings leaves the fork where it is, and a fault on
      another page too. */
  lemma HalfFork(s: Sys, t: Step, e: nat)
    requires Inv(s) && Enabled(s, t) && ForkOf(s, e).Half? && ForkOf(Next(s, t), e).Half?
    ensures ForkOf(Next(s, t), e) == ForkOf(s, e) && t != DupSecond(e)
    ensures var f, f' := FaultOf(s, e), FaultOf(Next(s, t), e);
            f' == NoFault || (f != NoFault && f'.v == f.v) || (t.FaultAlloc? && t.e == e && f'.v == t.v)
  {
    hide PairOk;
    assert ForkInv(s, e) && ForkInv(s, t.e);
  }

  lemma HalfStays(s: Sys, t: Step, e: nat)
    requires Inv(s) && Enabled(s, t) && Inv(Next(s, t)) && ForkOf(s, e).Half? && ForkOf(Next(s, t), e).Half?
    requires e in s.live && e in Next(s, t).live && InStep(s, e)
    ensures InStep(Next(s, t), e)
  {
    var s' := Next(s, t);
    var Half(c, v) := ForkOf(s, e);
    assert ForkInv(s, e) && ForkInv(s', e);
    NextPushedOk(s, t, e);
    HalfFork(s, t, e);
    if t.FaultAlloc? && t.e == e {
      HalfNeverFaults(s, e, t.v, t.page);
    }
    assert InStep(s, e) && v != UXSTACK;
    hide Next, PairOk, PushedOk, FaultInv;
    NextPte(s, t, Loc(e, v));
    NextPte(s, t, Loc(c, v));
  }

  lemma LiveStays(s: Sys, t: Step, e: nat)
    requires Inv(s) && Enabled(s, t) && ForkOf(s, e) != NoFork && e in Next(s, t).live
    ensures e in s.live
  {
    hide PairOk, FaultInv, ForkInv;
  }

  /** The first mapping makes the two halves one page. */
  lemma HalfBegins(s: Sys, t: Step, e: nat)
    requires Inv(s) && Enabled(s, t) && !ForkOf(s, e).Half? && ForkOf(Next(s, t), e).Half?
    ensures t.DupFirst? && t.e == e
    ensures var Half(c, v) := ForkOf(Next(s, t), e);
            v == t.v && Loc(e, v) in Next(s, t).mem.pt && Loc(c, v) in Next(s, t).mem.pt &&
            PteAt(Next(s, t), e, v).page == PteAt(Next(s, t), c, v).page && FaultOf(Next(s, t), e) == NoFault
  {
    hide PairOk, FaultInv;
    assert ForkInv(s, e);
  }

  lemma NextInStep(s: Sys, t: Step, e: nat)
    requires Inv(s) && Enabled(s, t) && InStep(s, e)
    ensures Inv(Next(s, t)) && InStep(Next(s, t), e)
  {
    NextInv(s, t);
    NextPushedOk(s, t, e);
    var s' := Next(s, t);
    assert ForkInv(s', e);
    if ForkOf(s', e).Half? && e in s'.live {
      if ForkOf(s, e).Half? {
        LiveStays(s, t, e);
        HalfStays(s, t, e);
      } else {
        HalfBegins(s, t, e);
      }
    }
  }

  /** Nothing is in progress: a state to start from. */
  predicate Quiet(s: Sys) {
    s.fault == map[] && s.fork == map[] && s.embryos == map[]
  }

  lemma QuietInStep(s: Sys)
    requires Inv(s) && Quiet(s)
    ensures forall e :: InStep(s, e)
  {
  }

  /** Over any run of forks, faults, stores, growth, sharing of library pages,
      unmapping and teardown by any environments, interleaved system call by
      system call, sharing physical pages is indistinguishable from giving every
      environment its own memory. */
  lemma {:induction false} ForkIsIsolation(s: Sys, ts: seq<Step>)
    requires Inv(s) && (forall e :: InStep(s, e)) && RunOk(s, ts)
    ensures Abs(Final(s, ts)) == IdealFinal(s, ts, Abs(s))
    decreases |ts|
  {
    if ts != [] {
      assert InStep(s, ts[0].e);
      NextRefines(s, ts[0]);
      forall e ensures InStep(Next(s, ts[0]), e) {
        NextInStep(s, ts[0], e);
      }
      ForkIsIsolation(Next(s, ts[0]), ts[1..]);
    }
  }

  /** No store is ever visible at another address, unless both are one shared
      library page. */
  lemma StoreIsPrivate(s: Sys, e: nat, v: nat, off: nat, x: byte, l: Loc)
    requires Inv(s) && Enabled(s, Store(e, v, off, x))
    requires Visible(s, l) && l != Loc(e, v)
    ensures Inv(Next(s, Store(e, v, off, x))) && Visible(Next(s, Store(e, v, off, x)), l)
    ensures var shared := s.mem.pt[l].perm.lib && s.mem.pt[l].page == PteAt(s, e, v).page;
            CellAt(Next(s, Store(e, v, off, x)), l) ==
            if shared then CellAt(s, l).(data := CellAt(s, l).data[off := x]) else CellAt(s, l)
  {
    NextInv(s, Store(e, v, off, x));
    assert PairOk(s, Loc(e, v), l) && PairOk(s, l, Loc(e, v));
    assert FaultInv(s, l.env) && ForkInv(s, l.env) && ForkInv(s, e);
  }

  ghost predicate Takes(s: Sys, t: Step, s': Sys) {
    Inv(s) && Enabled(s, t) && s' == Next(s, t) && Inv(s')
  }

  lemma Take(s: Sys, t: Step) returns (s': Sys)
    requires Inv(s) && Enabled(s, t)
    ensures Takes(s, t, s') && s' == Next(s, t)
  {
    NextInv(s, t);
    s' := Next(s, t);
  }

  /** The first two steps of the fault handler fill the scratch page. */
  lemma FaultFill(s: Sys, e: nat, v: nat, page: nat) returns (s1: Sys, s2: Sys)
    requires Inv(s) && Enabled(s, FaultAlloc(e, v, page))
    ensures Takes(s, FaultAlloc(e, v, page), s1) && Takes(s1, FaultCopy(e), s2) && FaultOf(s2, e) == Copied(v) &&
            Enabled(s2, FaultMap(e))
    ensures s2.mem.pt == s.mem.pt[Loc(e, SCRATCH) := Pte(page, PERM_UW)]
    ensures s2.mem.ram == s.mem.ram[page := s.mem.ram[PteAt(s, e, v).page]]
    ensures s2.mem.dirs == s.mem.dirs + {Dir(Loc(e, SCRATCH))}
    ensures s2.fork == s.fork && s2.live == s.live && s2.embryos == s.embryos && s2.pushed == s.pushed
  {
    assert FaultInv(s, e);
    hide Inv;
    s1 := Take(s, FaultAlloc(e, v, page));
    s2 := Take(s1, FaultCopy(e));
  }

  /** The last two move it over the faulting page. */
  lemma FaultMove(s2: Sys, e: nat, page: nat) returns (s3: Sys, s4: Sys)
    requires Inv(s2) && Enabled(s2, FaultMap(e))
    requires Loc(e, SCRATCH) in s2.mem.pt && PteAt(s2, e, SCRATCH).page == page
    ensures Takes(s2, FaultMap(e), s3) && Takes(s3, FaultUnmap(e), s4) && FaultOf(s4, e) == NoFault
    ensures s4.mem.pt == s2.mem.pt[Loc(e, FaultOf(s2, e).v) := Pte(page, PERM_UW)] - {Loc(e, SCRATCH)}
    ensures s4.mem.ram == s2.mem.ram && s4.mem.dirs == s2.mem.dirs && s4.fork == s2.fork && s4.live == s2.live &&
            s4.embryos == s2.embryos && s4.pushed == s2.pushed
  {
    assert FaultInv(s2, e) && Dir(Loc(e, SCRATCH)) in s2.mem.dirs && Dir(Loc(e, FaultOf(s2, e).v)) in s2.mem.dirs;
    hide Inv;
    s3 := Take(s2, FaultMap(e));
    s4 := Take(s3, FaultUnmap(e));
  }

  lemma ScratchGone(pt: map<Loc, Pte>, scratch: Loc, p: Pte, l: Loc, q: Pte)
    requires scratch !in pt && scratch != l
    ensures pt[scratch := p][l := q] - {scratch} == pt[l := q]
  {
  }

  /** The four steps of the fault handler, uninterrupted: the faulting page
      becomes a private writable page with the old contents, and no other
      mapping and no other page changes. */
  lemma FaultRun(s: Sys, e: nat, v: nat, page: nat) returns (s1: Sys, s2: Sys, s3: Sys, s4: Sys)
    requires Inv(s) && Enabled(s, FaultAlloc(e, v, page))
    ensures Takes(s, FaultAlloc(e, v, page), s1) && Takes(s1, FaultCopy(e), s2)
    ensures Takes(s2, FaultMap(e), s3) && Takes(s3, FaultUnmap(e), s4)
    ensures s4.mem.pt == s.mem.pt[Loc(e, v) := Pte(page, PERM_UW)]
    ensures s4.mem.ram == s.mem.ram[page := s.mem.ram[PteAt(s, e, v).page]]
    ensures s4.mem.dirs == s.mem.dirs + {Dir(Loc(e, SCRATCH))}
    ensures s4.fork == s.fork && s4.live == s.live && s4.embryos == s.embryos && FaultOf(s4, e) == NoFault
    ensures s4.pushed == s.pushed
  {
    assert FaultInv(s, e);
    ScratchGone(s.mem.pt, Loc(e, SCRATCH), Pte(page, PERM_UW), Loc(e, v), Pte(page, PERM_UW));
    hide *;
    s1, s2 := FaultFill(s, e, v, page);
    s3, s4 := FaultMove(s2, e, page);
  }
}
