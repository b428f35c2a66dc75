/** Runs of fork and of its fault handler from beginning to end: they can always be
    carried out, and what they leave is what private memory would hold. */
module ForkRuns {
  import opened Wrappers
  import opened AddressSpace
  import opened CowFork

  ghost predicate Reaches(s: Sys, ts: seq<Step>, t: Sys) {
    Inv(s) && RunOk(s, ts) && Final(s, ts) == t && Inv(t)
  }

  lemma ReachNone(s: Sys)
    requires Inv(s)
    ensures Reaches(s, [], s)
  {
  }

  lemma ReachOne(s: Sys, t: Step)
    requires Inv(s) && Enabled(s, t)
    ensures Inv(Next(s, t)) && Reaches(s, [t], Next(s, t))
  {
    NextInv(s, t);
    assert [t][1..] == [];
    assert RunOk(Next(s, t), []) && Final(Next(s, t), []) == Next(s, t);
    hide Inv, Enabled, Next;
  }

  /** The steps that mean nothing to programs. */
  predicate Silent(t: Step) {
    t.FaultAlloc? || t.FaultCopy? || t.FaultMap? || t.FaultUnmap? || t.ForkAlloc? || t.DupFirst?
  }

  lemma SilentOne(s: Sys, t: Step, u: Sys)
    requires Takes(s, t, u) && Silent(t)
    ensures Reaches(s, [t], u) && Abs(u) == Abs(s)
  {
    assert EventOf(s, t) == Nothing;
    hide Inv, Enabled, Next, Reaches, Abs, EventOf;
    ActRefines(s, t);
  }

  lemma {:induction false} ReachMore(s: Sys, ts: seq<Step>, t: Sys, us: seq<Step>, u: Sys)
    requires Reaches(s, ts, t) && Reaches(t, us, u)
    ensures Reaches(s, ts + us, u)
    decreases |ts|
  {
    hide Inv, Enabled, Next;
    if ts == [] {
      assert ts + us == us;
    } else {
      NextInv(s, ts[0]);
      ReachMore(Next(s, ts[0]), ts[1..], t, us, u);
      assert (ts + us)[1..] == ts[1..] + us;
    }
  }

  // ------------------------------------------------------------ a write fault

  /** What a page may be used for is what the steps allow: the right to write is a
      store, or a fault that can be taken while there is a page for the copy. */
  lemma WriteRight(s: Sys, e: nat, v: nat, off: nat, x: byte, page: nat)
    requires Inv(s) && Running(s, e) && FaultOf(s, e) == NoFault && InFrame(s, e, v) && IsFree(s.mem, page)
    requires v != SCRATCH && off < BY2PG && Loc(e, v) in s.mem.pt
    ensures CellAt(s, Loc(e, v)).write <==> Enabled(s, Store(e, v, off, x)) || Enabled(s, FaultAlloc(e, v, page))
  {
  }

  /** A right to write can be used: perhaps after a fault, handled to the end, of which
      nobody sees anything, the page can be stored to. */
  lemma WriteWorks(s: Sys, e: nat, v: nat, off: nat, x: byte, page: nat) returns (ts: seq<Step>, t: Sys)
    requires Inv(s) && Running(s, e) && FaultOf(s, e) == NoFault && InFrame(s, e, v) && IsFree(s.mem, page)
    requires v != SCRATCH && off < BY2PG && Loc(e, v) in s.mem.pt && CellAt(s, Loc(e, v)).write
    ensures Reaches(s, ts, t) && Abs(t) == Abs(s) && Enabled(t, Store(e, v, off, x))
  {
    WriteRight(s, e, v, off, x, page);
    if Enabled(s, Store(e, v, off, x)) {
      ts, t := [], s;
      ReachNone(s);
    } else {
      ts, t := FaultThenStore(s, e, v, off, x, page);
    }
    hide *;
  }

  lemma FaultThenStore(s: Sys, e: nat, v: nat, off: nat, x: byte, page: nat) returns (ts: seq<Step>, t: Sys)
    requires Inv(s) && Enabled(s, FaultAlloc(e, v, page)) && off < BY2PG
    ensures Reaches(s, ts, t) && Abs(t) == Abs(s) && Enabled(t, Store(e, v, off, x))
  {
    assert Running(s, e) && InFrame(s, e, v) && v != SCRATCH;
    hide *;
    var s1, s2, s3, s4 := FaultRun(s, e, v, page);
    ts, t := [FaultAlloc(e, v, page)] + [FaultCopy(e)] + [FaultMap(e)] + [FaultUnmap(e)], s4;
    FaultSteps(s, e, v, page, s1, s2, s3, s4);
    assert s4.mem.pt[Loc(e, v)] == Pte(page, PERM_UW);
    StoreReady(s, s4, e, v, off, x);
  }

  lemma StoreReady(s: Sys, t: Sys, e: nat, v: nat, off: nat, x: byte)
    requires Running(s, e) && InFrame(s, e, v) && t.live == s.live && t.embryos == s.embryos && t.fork == s.fork
    requires t.pushed == s.pushed && v != SCRATCH && off < BY2PG
    requires Loc(e, v) in t.mem.pt && t.mem.pt[Loc(e, v)].perm == PERM_UW
    ensures Enabled(t, Store(e, v, off, x))
  {
  }

  lemma FaultSteps(s: Sys, e: nat, v: nat, page: nat, s1: Sys, s2: Sys, s3: Sys, s4: Sys)
    requires Takes(s, FaultAlloc(e, v, page), s1) && Takes(s1, FaultCopy(e), s2)
    requires Takes(s2, FaultMap(e), s3) && Takes(s3, FaultUnmap(e), s4)
    ensures Reaches(s, [FaultAlloc(e, v, page)] + [FaultCopy(e)] + [FaultMap(e)] + [FaultUnmap(e)], s4)
    ensures Abs(s4) == Abs(s)
  {
    hide Takes, Reaches, Abs;
    SilentOne(s, FaultAlloc(e, v, page), s1);
    SilentOne(s1, FaultCopy(e), s2);
    SilentOne(s2, FaultMap(e), s3);
    SilentOne(s3, FaultUnmap(e), s4);
    ReachMore(s, [FaultAlloc(e, v, page)], s1, [FaultCopy(e)], s2);
    ReachMore(s, [FaultAlloc(e, v, page)] + [FaultCopy(e)], s2, [FaultMap(e)], s3);
    ReachMore(s, [FaultAlloc(e, v, page)] + [FaultCopy(e)] + [FaultMap(e)], s3, [FaultUnmap(e)], s4);
  }

  /** Programs may grow, shrink, share library pages and end whenever they are not in the
      fault handler or in fork. */
  lemma ProgramsMay(s: Sys, e: nat, v: nat, page: nat, perm: Perm, r: nat, u: nat)
    requires Running(s, e) && v != SCRATCH
    ensures Enabled(s, Destroy(e))
    ensures ForkOf(s, e) == NoFork && FaultOf(s, e) == NoFault ==>
              Enabled(s, Unmap(e, v)) && (IsFree(s.mem, page) && !perm.cow ==> Enabled(s, Grow(e, v, page, perm)))
    ensures Running(s, r) && ForkOf(s, r) == NoFork && FaultOf(s, r) == NoFault && Loc(e, u) in s.mem.pt &&
            s.mem.pt[Loc(e, u)].perm.lib && perm == s.mem.pt[Loc(e, u)].perm && (perm.cow ==> perm.u && perm.w) ==>
              Enabled(s, Share(e, u, r, v, perm))
  {
  }

  /** A page that fork has stored to it may store to again between its two mappings: the
      frames of duppage can be pushed. */
  lemma FrameStays(s: Sys, e: nat, v: nat, off: nat, x: byte)
    requires Inv(s) && ForkOf(s, e).Scan? && FaultOf(s, e) == NoFault && Enabled(s, Store(e, v, off, x))
    requires Loc(ForkOf(s, e).child, v) !in s.mem.pt && v < USTACK_END && !PteAt(s, e, v).perm.lib
    ensures var s1 := Next(s, Store(e, v, off, x));
            && Inv(s1) && Enabled(s1, DupFirst(e, v))
            && Inv(Next(s1, DupFirst(e, v))) && Enabled(Next(s1, DupFirst(e, v)), Store(e, v, off, x))
  {
    NextInv(s, Store(e, v, off, x));
    var s1 := Next(s, Store(e, v, off, x));
    NextInv(s1, DupFirst(e, v));
    assert ForkInv(s, e);
    hide Inv;
  }

  // --------------------------------------------------------------- one page

  /** Environment e is between two pages of a fork into c. */
  predicate Scanning(s: Sys, e: nat, c: nat) {
    Running(s, e) && ForkOf(s, e) == Scan(c) && FaultOf(s, e) == NoFault
  }

  /** A page that fork duplicates: mapped for user code, below the stack top. */
  predicate UserPage(m: Memory, e: nat, v: nat) {
    v < USTACK_END && v != SCRATCH && Loc(e, v) in m.pt && m.pt[Loc(e, v)].perm.u
  }

  /** What the child sees of a page of the parent. */
  function ChildCell(x: Cell): Cell {
    if x.Shared? then x.(read := true, write := true) else x
  }

  /** duppage of any user page can be carried out, and gives the child the page. */
  lemma DuppageRuns(s: Sys, e: nat, c: nat, v: nat) returns (ts: seq<Step>, t: Sys)
    requires Inv(s) && Scanning(s, e, c) && UserPage(s.mem, e, v) && Loc(c, v) !in s.mem.pt
    ensures Reaches(s, ts, t) && Scanning(t, e, c) && t.mem == AfterDuppage(s.mem, e, c, v)
    ensures Loc(e, v) in Abs(s) && Abs(t) == Abs(s)[Loc(c, v) := ChildCell(Abs(s)[Loc(e, v)])]
    ensures t.embryos == s.embryos && t.live == s.live
  {
    var p := PteAt(s, e, v).perm;
    if p.lib || !(p.w || p.cow) {
      ts, t := [DupShared(e, v)], Next(s, DupShared(e, v));
      DupSharedAct(s, e, c, v);
    } else {
      ts, t := DupTwo(s, e, c, v);
    }
    hide *;
  }

  lemma DupSharedAct(s: Sys, e: nat, c: nat, v: nat)
    requires Inv(s) && Scanning(s, e, c) && UserPage(s.mem, e, v) && Loc(c, v) !in s.mem.pt
    requires var p := PteAt(s, e, v).perm; p.lib || !(p.w || p.cow)
    ensures Enabled(s, DupShared(e, v)) && Reaches(s, [DupShared(e, v)], Next(s, DupShared(e, v)))
    ensures var t := Next(s, DupShared(e, v));
            && Scanning(t, e, c) && t.mem == AfterDuppage(s.mem, e, c, v) && t.embryos == s.embryos && t.live == s.live
            && Loc(e, v) in Abs(s) && Inv(t) && Abs(t) == Abs(s)[Loc(c, v) := ChildCell(Abs(s)[Loc(e, v)])]
  {
    DupSharedEvent(s, e, c, v);
    hide *;
    ActRefines(s, DupShared(e, v));
  }

  lemma DupSharedEvent(s: Sys, e: nat, c: nat, v: nat)
    requires Inv(s) && Scanning(s, e, c) && UserPage(s.mem, e, v) && Loc(c, v) !in s.mem.pt
    requires var p := PteAt(s, e, v).perm; p.lib || !(p.w || p.cow)
    ensures Enabled(s, DupShared(e, v))
    ensures var t := Next(s, DupShared(e, v));
            Scanning(t, e, c) && t.mem == AfterDuppage(s.mem, e, c, v) && t.embryos == s.embryos && t.live == s.live
    ensures Loc(e, v) in Abs(s)
    ensures IdealNext(Abs(s), EventOf(s, DupShared(e, v))) == Abs(s)[Loc(c, v) := ChildCell(Abs(s)[Loc(e, v)])]
  {
    assert Visible(s, Loc(e, v)) && Abs(s)[Loc(e, v)] == CellAt(s, Loc(e, v));
    hide Inv, Abs;
  }

  /** A step that refines private memory. */
  lemma ActRefines(s: Sys, t: Step)
    requires Inv(s) && Enabled(s, t) && (t.DupSecond? ==> HalvesAgree(s, t.e))
    ensures Inv(Next(s, t)) && Reaches(s, [t], Next(s, t)) && Abs(Next(s, t)) == IdealNext(Abs(s), EventOf(s, t))
  {
    ReachOne(s, t);
    NextRefines(s, t);
    hide Inv, Enabled, Next, Reaches, Abs, IdealNext, EventOf;
  }

  lemma DupTwo(s: Sys, e: nat, c: nat, v: nat) returns (ts: seq<Step>, t: Sys)
    requires Inv(s) && Scanning(s, e, c) && UserPage(s.mem, e, v) && Loc(c, v) !in s.mem.pt
    requires var p := PteAt(s, e, v).perm; !p.lib && (p.w || p.cow)
    ensures Reaches(s, ts, t) && Scanning(t, e, c) && t.mem == AfterDuppage(s.mem, e, c, v)
    ensures Loc(e, v) in Abs(s) && Abs(t) == Abs(s)[Loc(c, v) := ChildCell(Abs(s)[Loc(e, v)])]
    ensures t.embryos == s.embryos && t.live == s.live
  {
    DupFirstAct(s, e, c, v);
    hide *;
    var s1 := Next(s, DupFirst(e, v));
    SilentOne(s, DupFirst(e, v), s1);
    t := Next(s1, DupSecond(e));
    DupSecondAct(s1, e, c, v);
    ts := [DupFirst(e, v)] + [DupSecond(e)];
    ReachMore(s, [DupFirst(e, v)], s1, [DupSecond(e)], t);
  }

  lemma DupFirstAct(s: Sys, e: nat, c: nat, v: nat)
    requires Inv(s) && Scanning(s, e, c) && UserPage(s.mem, e, v) && Loc(c, v) !in s.mem.pt
    requires var p := PteAt(s, e, v).perm; !p.lib && (p.w || p.cow)
    ensures Enabled(s, DupFirst(e, v)) && Silent(DupFirst(e, v))
    ensures var s1 := Next(s, DupFirst(e, v));
            && Takes(s, DupFirst(e, v), s1) && Enabled(s1, DupSecond(e)) && ForkOf(s1, e) == Half(c, v)
            && Loc(e, v) in s1.mem.pt && Loc(c, v) in s1.mem.pt
            && s1.mem.pt[Loc(e, v)].page == s1.mem.pt[Loc(c, v)].page
            && s1.embryos == s.embryos && s1.live == s.live
            && MapFrom(s1.mem, Loc(c, v), Loc(e, v), PERM_COW) == AfterDuppage(s.mem, e, c, v)
    ensures Loc(e, v) in Abs(s) && ChildCell(Abs(s)[Loc(e, v)]) == Abs(s)[Loc(e, v)]
  {
    NextInv(s, DupFirst(e, v));
    assert ForkInv(s, e) && Visible(s, Loc(e, v));
    hide Inv;
  }

  lemma DupSecondAct(s: Sys, e: nat, c: nat, v: nat)
    requires Inv(s) && Enabled(s, DupSecond(e)) && ForkOf(s, e) == Half(c, v) && Loc(e, v) in s.mem.pt
    requires Loc(c, v) in s.mem.pt && s.mem.pt[Loc(e, v)].page == s.mem.pt[Loc(c, v)].page
    ensures var t := Next(s, DupSecond(e));
            && Inv(t) && Reaches(s, [DupSecond(e)], t) && Scanning(t, e, c)
            && t.mem == MapFrom(s.mem, Loc(c, v), Loc(e, v), PERM_COW) && t.embryos == s.embryos && t.live == s.live
            && Loc(e, v) in Abs(s) && Abs(t) == Abs(s)[Loc(c, v) := Abs(s)[Loc(e, v)]]
  {
    DupSecondEvent(s, e, c, v);
    hide *;
    ActRefines(s, DupSecond(e));
  }

  lemma DupSecondEvent(s: Sys, e: nat, c: nat, v: nat)
    requires Inv(s) && Enabled(s, DupSecond(e)) && ForkOf(s, e) == Half(c, v) && Loc(e, v) in s.mem.pt
    requires Loc(c, v) in s.mem.pt && s.mem.pt[Loc(e, v)].page == s.mem.pt[Loc(c, v)].page
    ensures HalvesAgree(s, DupSecond(e).e)
    ensures var t := Next(s, DupSecond(e));
            && Scanning(t, e, c) && t.mem == MapFrom(s.mem, Loc(c, v), Loc(e, v), PERM_COW)
            && t.embryos == s.embryos && t.live == s.live
    ensures Loc(e, v) in Abs(s)
    ensures IdealNext(Abs(s), EventOf(s, DupSecond(e))) == Abs(s)[Loc(c, v) := Abs(s)[Loc(e, v)]]
  {
    assert ForkInv(s, e) && Visible(s, Loc(e, v));
    hide Inv;
  }

  // ---------------------------------------------------------------- all pages

  /** The pages vs of e are all still to be duplicated into c. */
  ghost predicate ToDo(m: Memory, e: nat, c: nat, vs: seq<nat>) {
    (forall v <- vs :: UserPage(m, e, v) && Loc(c, v) !in m.pt) &&
    (forall i, j | 0 <= i < j < |vs| :: vs[i] != vs[j])
  }

  /** The ideal memory once the pages vs have been copied. */
  function Copied(i: Ideal, e: nat, c: nat, vs: seq<nat>): Ideal
    decreases |vs|
  {
    if vs == [] then i
    else
      var j := if Loc(e, vs[0]) in i then i[Loc(c, vs[0]) := ChildCell(i[Loc(e, vs[0])])] else i;
      Copied(j, e, c, vs[1..])
  }

  lemma ToDoNext(m: Memory, e: nat, c: nat, vs: seq<nat>)
    requires e != c && vs != [] && ToDo(m, e, c, vs) && WellMapped(m)
    ensures ToDo(AfterDuppage(m, e, c, vs[0]), e, c, vs[1..])
    ensures forall page | IsFree(m, page) :: IsFree(AfterDuppage(m, e, c, vs[0]), page)
  {
    var v, n := vs[0], AfterDuppage(m, e, c, vs[0]);
    assert UserPage(m, e, v) && Loc(c, v) !in m.pt;
    forall w <- vs[1..] ensures UserPage(n, e, w) && Loc(c, w) !in n.pt {
      assert w in vs;
    }
  }

  lemma {:induction false} DupAll(s: Sys, e: nat, c: nat, vs: seq<nat>) returns (ts: seq<Step>, t: Sys)
    requires Inv(s) && Scanning(s, e, c) && e != c && ToDo(s.mem, e, c, vs)
    ensures Reaches(s, ts, t) && Scanning(t, e, c) && Abs(t) == Copied(Abs(s), e, c, vs)
    ensures t.embryos == s.embryos && t.live == s.live
    ensures forall page | IsFree(s.mem, page) :: IsFree(t.mem, page)
    decreases |vs|
  {
    if vs == [] {
      ts, t := [], s;
      ReachNone(s);
    } else {
      assert vs[0] in vs;
      var us, u := DuppageRuns(s, e, c, vs[0]);
      ToDoNext(s.mem, e, c, vs);
      var ws, w := DupAll(u, e, c, vs[1..]);
      ts, t := us + ws, w;
      ReachMore(s, us, u, ws, w);
    }
    hide Inv, Reaches, Abs, IsFree, UserPage;
  }

  /** Page by page: the child holds what the parent holds, and nothing else differs. */
  lemma {:induction false} CopiedAt(i: Ideal, e: nat, c: nat, vs: seq<nat>, l: Loc)
    requires e != c && (forall v <- vs :: Loc(e, v) in i) && forall i, j | 0 <= i < j < |vs| :: vs[i] != vs[j]
    ensures var k := Copied(i, e, c, vs);
            if l.env == c && l.vpn in vs then l in k && k[l] == ChildCell(i[Loc(e, l.vpn)])
            else (l in k <==> l in i) && (l in i ==> k[l] == i[l])
    decreases |vs|
  {
    if vs != [] {
      assert vs[0] in vs && forall v <- vs[1..] :: v in vs;
      CopiedAt(i[Loc(c, vs[0]) := ChildCell(i[Loc(e, vs[0])])], e, c, vs[1..], l);
    }
  }

  /** What place l holds after fork, beside what it held before. */
  predicate ForkedAt(i: Ideal, k: Ideal, e: nat, c: nat, vs: seq<nat>, l: Loc) {
    if l.env != c then (l in k <==> l in i) && (l in i ==> k[l] == i[l])
    else if l.vpn == UXSTACK then l in k && k[l] == Private(Zeros(), true, true)
    else if l.vpn in vs then l in k && Loc(e, l.vpn) in i && k[l] == ChildCell(i[Loc(e, l.vpn)])
    else l !in k
  }

  /** Fork can always be carried out, and then the child is running and has, page for
      page, what the parent has and may do with it, its own empty exception stack, and
      nothing else; nobody else sees a difference. */
  lemma ForkCompletes(s: Sys, e: nat, c: nat, vs: seq<nat>, page: nat) returns (ts: seq<Step>, t: Sys)
    requires Inv(s) && Running(s, e) && ForkOf(s, e) == NoFork && FaultOf(s, e) == NoFault
    requires c !in s.live && ForkOf(s, c) == NoFork && IsFree(s.mem, page)
    requires (forall v <- vs :: UserPage(s.mem, e, v)) && forall i, j | 0 <= i < j < |vs| :: vs[i] != vs[j]
    ensures Reaches(s, ts, t) && Running(t, e) && Running(t, c) && ForkOf(t, e) == NoFork
    ensures forall l :: ForkedAt(Abs(s), Abs(t), e, c, vs, l)
  {
    NextInv(s, ForkAlloc(e, c));
    var s1 := Next(s, ForkAlloc(e, c));
    ChildEmpty(s, e, c, vs);
    hide *;
    SilentOne(s, ForkAlloc(e, c), s1);
    var us, s2 := DupAll(s1, e, c, vs);
    FinishRuns(s2, e, c, page);
    t := Next(s2, ForkFinish(e, page));
    ts := [ForkAlloc(e, c)] + us + [ForkFinish(e, page)];
    ReachMore(s, [ForkAlloc(e, c)], s1, us, s2);
    ReachMore(s, [ForkAlloc(e, c)] + us, s2, [ForkFinish(e, page)], t);
    forall l ensures ForkedAt(Abs(s), Abs(t), e, c, vs, l) {
      AllForked(Abs(s), Abs(t), e, c, vs, l);
    }
  }

  lemma AllForked(i: Ideal, k: Ideal, e: nat, c: nat, vs: seq<nat>, l: Loc)
    requires k == Copied(i, e, c, vs)[Loc(c, UXSTACK) := Private(Zeros(), true, true)]
    requires e != c && (forall v <- vs :: Loc(e, v) in i) && (forall i, j | 0 <= i < j < |vs| :: vs[i] != vs[j])
    requires (forall l: Loc | l.env == c :: l !in i) && !(UXSTACK in vs)
    ensures ForkedAt(i, k, e, c, vs, l)
  {
    CopiedAt(i, e, c, vs, l);
    hide Copied;
  }

  lemma ChildEmpty(s: Sys, e: nat, c: nat, vs: seq<nat>)
    requires Inv(s) && Enabled(s, ForkAlloc(e, c))
    requires (forall v <- vs :: UserPage(s.mem, e, v)) && forall i, j | 0 <= i < j < |vs| :: vs[i] != vs[j]
    ensures e != c && ToDo(s.mem, e, c, vs)
    ensures (forall l: Loc | l.env == c :: l !in Abs(s)) && forall v <- vs :: Loc(e, v) in Abs(s)
    ensures Next(s, ForkAlloc(e, c)).mem == s.mem && Scanning(Next(s, ForkAlloc(e, c)), e, c)
    ensures !(UXSTACK in vs) && Silent(ForkAlloc(e, c)) && c in Next(s, ForkAlloc(e, c)).embryos
    ensures Inv(Next(s, ForkAlloc(e, c))) ==> Takes(s, ForkAlloc(e, c), Next(s, ForkAlloc(e, c)))
  {
    assert ForkInv(s, e) && FaultInv(s, e);
    assert UXSTACK in vs ==> UserPage(s.mem, e, UXSTACK);
  }

  lemma FinishRuns(s: Sys, e: nat, c: nat, page: nat)
    requires Inv(s) && Scanning(s, e, c) && IsFree(s.mem, page)
    ensures Enabled(s, ForkFinish(e, page)) && Inv(Next(s, ForkFinish(e, page)))
    ensures Reaches(s, [ForkFinish(e, page)], Next(s, ForkFinish(e, page)))
    ensures var t := Next(s, ForkFinish(e, page));
            Running(t, e) && Running(t, c) && ForkOf(t, e) == NoFork &&
            Abs(t) == Abs(s)[Loc(c, UXSTACK) := Private(Zeros(), true, true)]
  {
    ReachOne(s, ForkFinish(e, page));
    NextRefines(s, ForkFinish(e, page));
    assert ForkInv(s, e);
    hide Reaches, Abs;
  }
}
