/** The code of `fork` and the steps of `cow_fork` are one thing: run without
    interference, the steps change memory as the code does. */
module ForkSteps {
  import opened AddressSpace
  import opened CowFork

  /** duppage of a writable or copy-on-write page is its two steps. */
  lemma DuppageIsTwoSteps(s: Sys, e: nat, v: nat)
    requires Inv(s) && Enabled(s, DupFirst(e, v))
    ensures Inv(Next(s, DupFirst(e, v))) && Enabled(Next(s, DupFirst(e, v)), DupSecond(e))
    ensures var t := Next(Next(s, DupFirst(e, v)), DupSecond(e));
            t.mem == AfterDuppage(s.mem, e, ForkOf(s, e).child, v) && t.fork == s.fork
  {
    NextInv(s, DupFirst(e, v));
    assert ForkInv(s, e);
    hide Inv;
  }

  /** duppage of a library or a read-only page is one step. */
  lemma DuppageIsOneStep(s: Sys, e: nat, v: nat)
    requires Inv(s) && Enabled(s, DupShared(e, v))
    ensures Next(s, DupShared(e, v)).mem == AfterDuppage(s.mem, e, ForkOf(s, e).child, v)
  {
  }

  /** The page fault handler is its four steps. */
  lemma PgfaultIsFourSteps(s: Sys, e: nat, v: nat, page: nat) returns (s1: Sys, s2: Sys, s3: Sys, s4: Sys)
    requires Inv(s) && Enabled(s, FaultAlloc(e, v, page))
    ensures Takes(s, FaultAlloc(e, v, page), s1) && Takes(s1, FaultCopy(e), s2)
    ensures Takes(s2, FaultMap(e), s3) && Takes(s3, FaultUnmap(e), s4)
    ensures Loc(e, v) in s.mem.pt && s.mem.pt[Loc(e, v)].page in s.mem.ram && s.mem.pt[Loc(e, v)].page != page
    ensures s4.mem == AfterPgfault(s.mem, e, v, page)
  {
    assert FaultInv(s, e);
    AfterPgfaultIs(s.mem, e, v, page);
    hide *;
    s1, s2, s3, s4 := FaultRun(s, e, v, page);
  }
}
