/** Is the other end of the pipe closed? `_pipeisclosed` compares two reference
    counts that other environments change one system call at a time.

    A slot is one descriptor number in one environment. For one pipe the state
    records which slots have a descriptor page of the read end, which of the
    write end, and which have the pipe page mapped in their data window. The
    counts `pp_ref` are the sizes of these sets. */
module PipeClosed {

  datatype End = Read | Write

  datatype Slot = Slot(env: nat, fd: nat)

  /** Which read order the compiler chose for `pageref(fd) == pageref(p)`. */
  datatype Order = FdFirst | PipeFirst

  /** Where an environment is between two system calls or two loads. */
  datatype Activity =
    | Idle
    | CloseFd(i: nat, reopen: Reopen)
    | CloseData(i: nat, reopen: Reopen)
    | DupData(from: nat, to: nat)
    | DupFd(from: nat, to: nat)
    | Loaded(i: nat, order: Order, t: nat)
    | Half(i: nat, order: Order, t: nat, first: nat)
    | Both(i: nat, order: Order, t: nat, first: nat, second: nat)

  /** dup begins by closing the number it will reuse. */
  datatype Reopen = Done | ThenDup(from: nat)

  datatype Sys = Sys(fds: map<Slot, End>, data: set<Slot>, live: set<nat>,
                     cur: nat, runs: map<nat, nat>, act: map<nat, Activity>)

  function Act(s: Sys, e: nat): Activity {
    if e in s.act then s.act[e] else Idle
  }

  function Runs(s: Sys, e: nat): nat {
    if e in s.runs then s.runs[e] else 0
  }

  function Holders(s: Sys, end: End): set<Slot> {
    set k <- s.fds | s.fds[k] == end
  }

  function Other(end: End): End {
    if end == Read then Write else Read
  }

  datatype Step =
    | Switch(to: nat)
    | BeginClose(i: nat)
    | BeginDup(from: nat, to: nat)
    | BeginTest(i: nat, order: Order)
    | Go
    | Fail
    | Fork(child: nat)
    | Destroy(e: nat)
    | Answer

  /** Only the current environment acts. `Go` is its next system call or load;
      `Fail` is a mapping that dup could not make, which it undoes by unmapping
      both pages of the new number, the descriptor first; `Answer` ends a test.
      fork and spawn copy all slots at once. */
  predicate Enabled(s: Sys, t: Step) {
    match t
    case Switch(to) => to in s.live
    case BeginClose(i) => s.cur in s.live && Act(s, s.cur) == Idle
    case BeginDup(from, to) => s.cur in s.live && Act(s, s.cur) == Idle && Slot(s.cur, from) in s.fds
    case BeginTest(i, order) => s.cur in s.live && Act(s, s.cur) == Idle && Slot(s.cur, i) in s.fds
    case Go => s.cur in s.live && Act(s, s.cur) != Idle && !Act(s, s.cur).Both?
    case Fail => s.cur in s.live && (Act(s, s.cur).DupData? || Act(s, s.cur).DupFd?)
    case Fork(child) => s.cur in s.live && Act(s, s.cur) == Idle && child !in s.live
    case Destroy(e) => s.cur in s.live && e in s.live && (e == s.cur || Act(s, s.cur) == Idle)
    case Answer => s.cur in s.live && Act(s, s.cur).Both?
  }

  function SetAct(s: Sys, a: Activity): Sys {
    s.(act := s.act[s.cur := a])
  }

  /** pageref of the page a test loads: the descriptor page of slot i, or the pipe page. */
  function Load(s: Sys, i: nat, fd: bool): nat {
    if fd then if Slot(s.cur, i) in s.fds then |Holders(s, s.fds[Slot(s.cur, i)])| else 0
    else |s.data|
  }

  /** Unmap a slot's descriptor page, or its data page. */
  function DropFd(s: Sys, k: Slot): Sys { s.(fds := s.fds - {k}) }

  function DropData(s: Sys, k: Slot): Sys { s.(data := s.data - {k}) }

  /** The next system call or load of the current environment. */
  function GoOn(s: Sys): Sys
    requires Enabled(s, Go)
  {
    var e := s.cur;
    match Act(s, e)
    case CloseFd(i, r) => SetAct(DropFd(s, Slot(e, i)), CloseData(i, r))
    case CloseData(i, r) => SetAct(DropData(s, Slot(e, i)), if r.Done? then Idle else DupData(r.from, i))
    case DupData(from, to) =>
      SetAct(if Slot(e, from) in s.data then s.(data := s.data + {Slot(e, to)}) else s, DupFd(from, to))
    case DupFd(from, to) =>
      SetAct(if Slot(e, from) in s.fds then s.(fds := s.fds[Slot(e, to) := s.fds[Slot(e, from)]]) else s, Idle)
    case Loaded(i, order, t) => SetAct(s, Half(i, order, t, Load(s, i, order == FdFirst)))
    case Half(i, order, t, first) => SetAct(s, Both(i, order, t, first, Load(s, i, order != FdFirst)))
    case _ => s
  }

  function ChildOf(slots: set<Slot>, e: nat, child: nat): set<Slot> {
    set k <- slots | k.env == e :: Slot(child, k.fd)
  }

  function Next(s: Sys, t: Step): Sys
    requires Enabled(s, t)
  {
    match t
    case Switch(to) => s.(cur := to, runs := s.runs[to := Runs(s, to) + 1])
    case BeginClose(i) =>
      if Slot(s.cur, i) in s.fds then SetAct(s, CloseFd(i, Done)) else s
    case BeginDup(from, to) =>
      if Slot(s.cur, to) in s.fds then SetAct(s, CloseFd(to, ThenDup(from))) else SetAct(s, DupData(from, to))
    case BeginTest(i, order) => SetAct(s, Loaded(i, order, Runs(s, s.cur)))
    case Go => GoOn(s)
    case Fail =>
      var a := Act(s, s.cur);
      SetAct(s, CloseFd(a.to, Done))
    case Fork(child) =>
      s.(live := s.live + {child},
         fds := s.fds + map k <- ChildOf(s.fds.Keys, s.cur, child) :: s.fds[Slot(s.cur, k.fd)],
         data := s.data + ChildOf(s.data, s.cur, child))
    case Destroy(e) =>
      Sys(map k <- s.fds | k.env != e :: s.fds[k], (set k <- s.data | k.env != e), s.live - {e}, s.cur, s.runs,
          s.act - {e})
    case Answer =>
      var a := Act(s, s.cur);
      SetAct(s, if Runs(s, s.cur) == a.t then Idle else Loaded(a.i, a.order, Runs(s, s.cur)))
  }

  // ---------------------------------------------------------------- invariant

  /** The slot an environment's operation has half opened or half closed. */
  predicate InFlight(s: Sys, k: Slot) {
    match Act(s, k.env)
    case CloseFd(i, _) => i == k.fd
    case CloseData(i, _) => i == k.fd
    case DupFd(_, to) => to == k.fd
    case _ => false
  }

  /** Every descriptor page comes with its pipe page, and a pipe page without a
      descriptor page belongs to an operation in progress. */
  ghost predicate SlotInv(s: Sys, k: Slot) {
    (k in s.fds ==> k in s.data && k.env in s.live) &&
    (k in s.data ==> k.env in s.live && (k in s.fds || InFlight(s, k)))
  }

  ghost predicate ActInv(s: Sys, e: nat) {
    (Act(s, e) != Idle ==> e in s.live) &&
    match Act(s, e)
    case Idle => true
    case CloseFd(_, _) => true
    case CloseData(i, _) => Slot(e, i) !in s.fds
    case DupData(from, to) => Slot(e, to) !in s.fds
    case DupFd(from, to) => Slot(e, to) !in s.fds && (Slot(e, from) in s.fds <==> Slot(e, to) in s.data)
    case Loaded(i, order, t) => Slot(e, i) in s.fds && t <= Runs(s, e)
    case Half(i, order, t, first) =>
      Slot(e, i) in s.fds && t <= Runs(s, e) &&
      (s.cur == e && Runs(s, e) == t ==> first == Load(s, i, order == FdFirst))
    case Both(i, order, t, first, second) =>
      Slot(e, i) in s.fds && t <= Runs(s, e) &&
      (s.cur == e && Runs(s, e) == t ==> first == Load(s, i, order == FdFirst) &&
                                         second == Load(s, i, order != FdFirst))
  }

  ghost predicate Inv(s: Sys) {
    (forall k :: SlotInv(s, k)) && (forall e :: ActInv(s, e))
  }

  lemma NextSlot(s: Sys, t: Step, k: Slot)
    requires Inv(s) && Enabled(s, t)
    ensures SlotInv(Next(s, t), k)
  {
    assert SlotInv(s, k) && SlotInv(s, Slot(s.cur, k.fd)) && ActInv(s, s.cur) && ActInv(s, k.env);
    if Act(s, s.cur).DupFd? {
      assert SlotInv(s, Slot(s.cur, Act(s, s.cur).from));
    }
  }

  lemma NextAct(s: Sys, t: Step, e: nat)
    requires Inv(s) && Enabled(s, t)
    ensures ActInv(Next(s, t), e)
  {
    if t.Go? {
      GoAct(s, e);
    } else {
      assert ActInv(s, e) && ActInv(s, s.cur);
    }
    hide GoOn, SlotInv;
  }

  lemma GoAct(s: Sys, e: nat)
    requires Inv(s) && Enabled(s, Go)
    ensures ActInv(GoOn(s), e)
  {
    assert ActInv(s, e) && ActInv(s, s.cur);
    if Act(s, s.cur).DupData? {
      assert SlotInv(s, Slot(s.cur, Act(s, s.cur).from)) && SlotInv(s, Slot(s.cur, Act(s, s.cur).to));
    }
    hide SlotInv;
  }

  lemma NextInv(s: Sys, t: Step)
    requires Inv(s) && Enabled(s, t)
    ensures Inv(Next(s, t))
  {
    forall k ensures SlotInv(Next(s, t), k) {
      NextSlot(s, t, k);
    }
    forall e ensures ActInv(Next(s, t), e) {
      NextAct(s, t, e);
    }
  }

  /** A pipe as pipe() returns it: one environment, one slot for each end. */
  function Created(e: nat, rfd: nat, wfd: nat): Sys {
    Sys(map[Slot(e, rfd) := Read, Slot(e, wfd) := Write], {Slot(e, rfd), Slot(e, wfd)}, {e}, e, map[e := 1], map[])
  }

  lemma CreatedInv(e: nat, rfd: nat, wfd: nat)
    requires rfd != wfd
    ensures Inv(Created(e, rfd, wfd))
  {
  }

  // ------------------------------------------------------------ the inequality

  /** refs(pipe page) >= refs(read descriptor page) + refs(write descriptor page),
      with equality exactly when no slot is half open. */
  lemma PipeRefsBound(s: Sys)
    requires Inv(s)
    ensures |s.data| >= |Holders(s, Read)| + |Holders(s, Write)|
    ensures |s.data| == |Holders(s, Read)| + |Holders(s, Write)| <==> forall k <- s.data :: k in s.fds
  {
    forall k | k in s.fds ensures k in s.data {
      assert SlotInv(s, k);
    }
    hide Inv;
    EndsPartition(s);
    SubsetSize(s.fds.Keys, s.data);
    if forall k <- s.data :: k in s.fds {
      assert s.data == s.fds.Keys;
    }
  }

  lemma EndsPartition(s: Sys)
    ensures |Holders(s, Read)| + |Holders(s, Write)| == |s.fds.Keys|
  {
    var r, w := Holders(s, Read), Holders(s, Write);
    assert r !! w && r + w == s.fds.Keys;
  }

  lemma {:induction false} SubsetSize(a: set<Slot>, b: set<Slot>)
    requires a <= b
    ensures |a| <= |b|
    ensures |a| == |b| ==> a == b
    decreases |a|
  {
    if a != {} {
      var k :| k in a;
      SubsetSize(a - {k}, b - {k});
      assert b == (b - {k}) + {k};
    } else if b != {} {
      var k :| k in b;
    }
  }

  /** The value `_pipeisclosed` returns if it returns now. */
  predicate SaysClosed(s: Sys)
    requires Enabled(s, Answer)
  {
    Act(s, s.cur).first == Act(s, s.cur).second
  }

  predicate Returns(s: Sys)
    requires Enabled(s, Answer)
  {
    Act(s, s.cur).t == Runs(s, s.cur)
  }

  function TestedEnd(s: Sys): End
    requires Enabled(s, Answer) && Slot(s.cur, Act(s, s.cur).i) in s.fds
  {
    s.fds[Slot(s.cur, Act(s, s.cur).i)]
  }

  /** A test that returns 1 is right, whichever count it loaded first: at that
      moment no environment has the other end's descriptor mapped. If no dup or
      close is half done anywhere, it returns 1 exactly then. */
  lemma AnswerIsSound(s: Sys)
    requires Inv(s) && Enabled(s, Answer) && Returns(s)
    ensures Slot(s.cur, Act(s, s.cur).i) in s.fds
    ensures SaysClosed(s) ==> Holders(s, Other(TestedEnd(s))) == {}
    ensures (forall k :: !InFlight(s, k)) ==> (SaysClosed(s) <==> Holders(s, Other(TestedEnd(s))) == {})
  {
    assert ActInv(s, s.cur);
    var end := TestedEnd(s);
    assert SaysClosed(s) <==> |Holders(s, end)| == |s.data|;
    PipeRefsBound(s);
    if forall k :: !InFlight(s, k) {
      assert forall k <- s.data :: SlotInv(s, k);
    }
  }

  // ---------------------------------------------------------------- whole runs

  ghost predicate RunOk(s: Sys, ts: seq<Step>)
    decreases |ts|
  {
    ts != [] ==> Enabled(s, ts[0]) && RunOk(Next(s, ts[0]), ts[1..])
  }

  ghost function Final(s: Sys, ts: seq<Step>): Sys
    requires RunOk(s, ts)
    decreases |ts|
  {
    if ts == [] then s else Final(Next(s, ts[0]), ts[1..])
  }

  lemma {:induction false} RunInv(s: Sys, ts: seq<Step>)
    requires Inv(s) && RunOk(s, ts)
    ensures Inv(Final(s, ts))
    decreases |ts|
  {
    if ts != [] {
      NextInv(s, ts[0]);
      RunInv(Next(s, ts[0]), ts[1..]);
    }
  }

  /** Where the descriptor page in slot k comes from, if step t maps it. */
  function Source(s: Sys, t: Step, k: Slot): Slot {
    if k in s.fds then k
    else if t.Go? && Act(s, s.cur).DupFd? then Slot(s.cur, Act(s, s.cur).from)
    else Slot(s.cur, k.fd)
  }

  lemma AppearsByCopy(s: Sys, t: Step, k: Slot)
    requires Enabled(s, t) && Inv(s) && k in Next(s, t).fds
    ensures Source(s, t, k) in s.fds && s.fds[Source(s, t, k)] == Next(s, t).fds[k]
  {
    assert ActInv(s, s.cur) && SlotInv(s, k);
  }

  /** An end nobody holds can never be opened again. */
  lemma {:induction false} ClosedIsForever(s: Sys, ts: seq<Step>, end: End)
    requires Inv(s) && RunOk(s, ts) && Holders(s, end) == {}
    ensures Holders(Final(s, ts), end) == {}
    decreases |ts|
  {
    if ts != [] {
      NextInv(s, ts[0]);
      forall k ensures k !in Holders(Next(s, ts[0]), end) {
        if k in Next(s, ts[0]).fds {
          AppearsByCopy(s, ts[0], k);
          assert Source(s, ts[0], k) !in Holders(s, end);
        }
      }
      ClosedIsForever(Next(s, ts[0]), ts[1..], end);
    }
  }

  /** From the creation of the pipe on, over any interleaving of dup, close, exit,
      fork and tests by any number of environments: a test that returns 1 says
      that the other end is closed and will never be open again. */
  lemma ClosedMeansClosed(e: nat, rfd: nat, wfd: nat, before: seq<Step>, after: seq<Step>)
    requires rfd != wfd && RunOk(Created(e, rfd, wfd), before)
    requires var s := Final(Created(e, rfd, wfd), before);
             Enabled(s, Answer) && Returns(s) && SaysClosed(s) && RunOk(s, after)
    ensures var s := Final(Created(e, rfd, wfd), before);
            Slot(s.cur, Act(s, s.cur).i) in s.fds && Holders(Final(s, after), Other(TestedEnd(s))) == {}
  {
    CreatedInv(e, rfd, wfd);
    RunInv(Created(e, rfd, wfd), before);
    var s := Final(Created(e, rfd, wfd), before);
    AnswerIsSound(s);
    ClosedIsForever(s, after, Other(TestedEnd(s)));
  }

  // ------------------------------------------------- operations run to their end

  /** Environment e is running and is in no operation. */
  predicate Ready(s: Sys, e: nat) {
    s.cur == e && e in s.live && Act(s, e) == Idle
  }

  lemma RunGo(s: Sys)
    ensures RunOk(s, []) && Final(s, []) == s
    ensures Enabled(s, Go) ==> RunOk(s, [Go]) && Final(s, [Go]) == Next(s, Go)
  {
    assert [Go][1..] == [];
    if Enabled(s, Go) {
      assert RunOk(Next(s, Go), []);
    }
  }

  lemma {:induction false} RunMore(s: Sys, ts: seq<Step>, us: seq<Step>)
    requires RunOk(s, ts) && RunOk(Final(s, ts), us)
    ensures RunOk(s, ts + us) && Final(s, ts + us) == Final(Final(s, ts), us)
    decreases |ts|
  {
    hide Enabled, Next;
    if ts == [] {
      assert ts + us == us;
    } else {
      assert (ts + us)[1..] == ts[1..] + us;
      RunMore(Next(s, ts[0]), ts[1..], us);
    }
  }

  /** What the operation of e leaves: the slots given, and e idle again. */
  ghost predicate Leaves(s: Sys, t: Sys, e: nat, fds: map<Slot, End>, data: set<Slot>) {
    t.fds == fds && t.data == data && Ready(t, e) && t.live == s.live && t.runs == s.runs &&
    forall o | o != e :: Act(t, o) == Act(s, o)
  }

  /** The two unmappings of close. */
  lemma CloseRuns(s: Sys, e: nat, i: nat)
    requires s.cur == e && e in s.live && Act(s, e) == CloseFd(i, Done)
    ensures RunOk(s, [Go, Go])
    ensures Leaves(s, Final(s, [Go, Go]), e, s.fds - {Slot(e, i)}, s.data - {Slot(e, i)})
  {
    var s1 := Next(s, Go);
    RunGo(s);
    RunGo(s1);
    RunMore(s, [Go], [Go]);
    assert [Go] + [Go] == [Go, Go];
  }

  /** The two mappings of dup. */
  lemma DupRuns(s: Sys, e: nat, from: nat, to: nat)
    requires s.cur == e && e in s.live && Act(s, e) == DupData(from, to)
    requires Slot(e, from) in s.fds && Slot(e, from) in s.data
    ensures RunOk(s, [Go, Go])
    ensures Leaves(s, Final(s, [Go, Go]), e, s.fds[Slot(e, to) := s.fds[Slot(e, from)]], s.data + {Slot(e, to)})
  {
    var s1 := Next(s, Go);
    RunGo(s);
    RunGo(s1);
    RunMore(s, [Go], [Go]);
    assert [Go] + [Go] == [Go, Go];
  }

  lemma BeginRuns(s: Sys, t: Step, us: seq<Step>)
    requires Enabled(s, t) && RunOk(Next(s, t), us)
    ensures RunOk(s, [t] + us) && Final(s, [t] + us) == Final(Next(s, t), us)
  {
    assert ([t] + us)[1..] == us;
  }

  /** close, from its call to its return: the descriptor is in neither window. */
  lemma CloseCloses(s: Sys, e: nat, i: nat)
    requires Ready(s, e) && Slot(e, i) in s.fds
    ensures RunOk(s, [BeginClose(i)] + [Go, Go])
    ensures Leaves(s, Final(s, [BeginClose(i)] + [Go, Go]), e, s.fds - {Slot(e, i)}, s.data - {Slot(e, i)})
  {
    CloseRuns(Next(s, BeginClose(i)), e, i);
    BeginRuns(s, BeginClose(i), [Go, Go]);
  }

  /** The steps of a dup: the number it reuses is closed first. */
  function DupSteps(s: Sys, e: nat, from: nat, to: nat): seq<Step> {
    [BeginDup(from, to)] + (if Slot(e, to) in s.fds then [Go, Go] else []) + [Go, Go]
  }

  /** dup, from its call to its return, opens the same end under the new number and
      changes nothing else. */
  lemma DupOpens(s: Sys, e: nat, from: nat, to: nat)
    requires Inv(s) && Ready(s, e) && Slot(e, from) in s.fds && from != to
    ensures RunOk(s, DupSteps(s, e, from, to))
    ensures Leaves(s, Final(s, DupSteps(s, e, from, to)), e,
                   s.fds[Slot(e, to) := s.fds[Slot(e, from)]], s.data + {Slot(e, to)})
  {
    assert SlotInv(s, Slot(e, from)) && SlotInv(s, Slot(e, to));
    var s1 := Next(s, BeginDup(from, to));
    if Slot(e, to) in s.fds {
      ReopenRuns(s1, e, from, to);
      BeginRuns(s, BeginDup(from, to), [Go, Go] + [Go, Go]);
      assert DupSteps(s, e, from, to) == [BeginDup(from, to)] + ([Go, Go] + [Go, Go]);
      assert (s.fds - {Slot(e, to)})[Slot(e, to) := s.fds[Slot(e, from)]] == s.fds[Slot(e, to) := s.fds[Slot(e, from)]];
      assert s.data - {Slot(e, to)} + {Slot(e, to)} == s.data + {Slot(e, to)};
    } else {
      DupRuns(s1, e, from, to);
      BeginRuns(s, BeginDup(from, to), [Go, Go]);
      assert DupSteps(s, e, from, to) == [BeginDup(from, to)] + [Go, Go];
    }
  }

  lemma ReopenRuns(s: Sys, e: nat, from: nat, to: nat)
    requires s.cur == e && e in s.live && Act(s, e) == CloseFd(to, ThenDup(from)) && from != to
    requires Slot(e, from) in s.fds && Slot(e, from) in s.data
    ensures RunOk(s, [Go, Go] + [Go, Go])
    ensures Leaves(s, Final(s, [Go, Go] + [Go, Go]), e,
                   (s.fds - {Slot(e, to)})[Slot(e, to) := s.fds[Slot(e, from)]], s.data - {Slot(e, to)} + {Slot(e, to)})
  {
    var s1 := Next(s, Go);
    var s2 := Next(s1, Go);
    RunGo(s);
    RunGo(s1);
    RunMore(s, [Go], [Go]);
    assert [Go] + [Go] == [Go, Go];
    DupRuns(s2, e, from, to);
    RunMore(s, [Go, Go], [Go, Go]);
  }

  /** A dup that cannot make a mapping leaves the new number closed. */
  lemma FailUndoes(s: Sys, e: nat, from: nat, to: nat)
    requires s.cur == e && e in s.live && Act(s, e) in {DupData(from, to), DupFd(from, to)}
    ensures RunOk(s, [Fail] + [Go, Go])
    ensures Leaves(s, Final(s, [Fail] + [Go, Go]), e, s.fds - {Slot(e, to)}, s.data - {Slot(e, to)})
  {
    CloseRuns(Next(s, Fail), e, to);
    BeginRuns(s, Fail, [Go, Go]);
  }

  /** The child of a fork holds what the parent holds, and nobody else changes. */
  lemma ForkCopies(s: Sys, e: nat, child: nat)
    requires Inv(s) && Ready(s, e) && child !in s.live
    ensures Enabled(s, Fork(child)) && Next(s, Fork(child)).live == s.live + {child}
    ensures forall k: Slot :: SameSlot(s, Next(s, Fork(child)), if k.env == child then Slot(e, k.fd) else k, k)
    ensures Ready(Next(s, Fork(child)), e) && forall o :: Act(Next(s, Fork(child)), o) == Act(s, o)
  {
    var t := Next(s, Fork(child));
    forall k: Slot ensures SameSlot(s, t, if k.env == child then Slot(e, k.fd) else k, k) {
      assert SlotInv(s, k);
      assert k.env == child ==> (k in ChildOf(s.fds.Keys, e, child) <==> Slot(e, k.fd) in s.fds.Keys);
      assert k.env == child ==> (k in ChildOf(s.data, e, child) <==> Slot(e, k.fd) in s.data);
    }
  }

  /** Slot k of t is as slot j of s. */
  predicate SameSlot(s: Sys, t: Sys, j: Slot, k: Slot) {
    (k in t.data <==> j in s.data) && (k in t.fds <==> j in s.fds) && (k in t.fds ==> t.fds[k] == s.fds[j])
  }

  /** An environment that ends holds nothing any more, and nobody else changes. */
  lemma DestroyDrops(s: Sys, e: nat)
    requires s.cur in s.live && e in s.live && (e == s.cur || Act(s, s.cur) == Idle)
    ensures Enabled(s, Destroy(e)) && Next(s, Destroy(e)).live == s.live - {e}
    ensures var t := Next(s, Destroy(e));
            && (forall k :: k in t.fds <==> k in s.fds && k.env != e) && (forall k <- t.fds :: t.fds[k] == s.fds[k])
            && (forall k :: k in t.data <==> k in s.data && k.env != e)
  {
  }

  /** Any environment may be given the processor, which counts as one more run of it. */
  lemma SwitchGives(s: Sys, to: nat)
    requires to in s.live
    ensures Enabled(s, Switch(to))
    ensures var t := Next(s, Switch(to));
            && t.cur == to && t.fds == s.fds && t.data == s.data && t.live == s.live && t.act == s.act
            && forall e :: Runs(t, e) == if e == to then Runs(s, e) + 1 else Runs(s, e)
  {
  }

  /** close of a number that is not open does nothing. */
  lemma CloseNothing(s: Sys, e: nat, i: nat)
    requires Ready(s, e) && Slot(e, i) !in s.fds
    ensures Enabled(s, BeginClose(i)) && Next(s, BeginClose(i)) == s
  {
  }

  /** A test whose environment has not run again since it began is over; any other one
      loads both counts again, under the number of runs it has now. */
  lemma AnswerOrAgain(s: Sys)
    requires Enabled(s, Answer)
    ensures var t := Next(s, Answer);
            && t.fds == s.fds && t.data == s.data && t.live == s.live && t.cur == s.cur && t.runs == s.runs
            && (forall o | o != s.cur :: Act(t, o) == Act(s, o))
            && var a := Act(s, s.cur);
               Act(t, s.cur) == if Returns(s) then Idle else Loaded(a.i, a.order, Runs(s, s.cur))
  {
  }

  /** A test, from its call to its answer with nobody in between, and nothing half done
      anywhere: it answers, and says closed exactly if nobody holds the other end. */
  lemma TestAnswers(s: Sys, e: nat, i: nat, order: Order)
    requires Inv(s) && Ready(s, e) && Slot(e, i) in s.fds && forall k :: !InFlight(s, k)
    ensures RunOk(s, [BeginTest(i, order)] + [Go, Go])
    ensures var t := Final(s, [BeginTest(i, order)] + [Go, Go]);
            && Enabled(t, Answer) && Returns(t) && Leaves(s, Next(t, Answer), e, s.fds, s.data)
            && (SaysClosed(t) <==> Holders(s, Other(s.fds[Slot(e, i)])) == {})
  {
    var ts := [BeginTest(i, order)] + [Go, Go];
    TestLoads(s, e, i, order);
    RunInv(s, ts);
    var t := Final(s, ts);
    hide Inv, Next, RunOk, Final;
    AnswerIsSound(t);
    AnswerOrAgain(t);
  }

  /** The two loads of a test. */
  lemma TestLoads(s: Sys, e: nat, i: nat, order: Order)
    requires Ready(s, e) && Slot(e, i) in s.fds
    ensures RunOk(s, [BeginTest(i, order)] + [Go, Go])
    ensures var t := Final(s, [BeginTest(i, order)] + [Go, Go]);
            && t.fds == s.fds && t.data == s.data && t.live == s.live && t.cur == s.cur && t.runs == s.runs
            && Enabled(t, Answer) && Returns(t) && Act(t, e).i == i && (forall o | o != e :: Act(t, o) == Act(s, o))
            && forall k :: InFlight(t, k) ==> InFlight(s, k)
  {
    var s1 := Next(s, BeginTest(i, order));
    var s2 := Next(s1, Go);
    RunGo(s1);
    RunGo(s2);
    RunMore(s1, [Go], [Go]);
    assert [Go] + [Go] == [Go, Go];
    BeginRuns(s, BeginTest(i, order), [Go, Go]);
  }

  // ----------------------------------------------------- an end that stays open

  /** Step t begins to give up slot k: its owner closes it or reuses its number, or
      ends. */
  predicate GivesUp(s: Sys, t: Step, k: Slot) {
    match t
    case BeginClose(i) => s.cur == k.env && i == k.fd
    case BeginDup(_, to) => s.cur == k.env && to == k.fd
    case Destroy(e) => e == k.env
    case _ => false
  }

  predicate Held(s: Sys, k: Slot, end: End) {
    k in s.fds && s.fds[k] == end && !(Act(s, k.env).CloseFd? && Act(s, k.env).i == k.fd)
  }

  lemma HeldStays(s: Sys, t: Step, k: Slot, end: End)
    requires Inv(s) && Enabled(s, t) && Held(s, k, end) && !GivesUp(s, t, k)
    ensures Held(Next(s, t), k, end)
  {
    assert SlotInv(s, k) && ActInv(s, s.cur) && ActInv(s, k.env);
    hide ActInv, SlotInv;
  }

  ghost predicate NeverGivesUp(s: Sys, ts: seq<Step>, k: Slot)
    requires RunOk(s, ts)
    decreases |ts|
  {
    ts != [] ==> !GivesUp(s, ts[0], k) && NeverGivesUp(Next(s, ts[0]), ts[1..], k)
  }

  /** A test of that end is about to answer. */
  predicate Asks(s: Sys, end: End) {
    Enabled(s, Answer) && Returns(s) && Slot(s.cur, Act(s, s.cur).i) in s.fds && TestedEnd(s) == end
  }

  /** An end stays open as long as an environment that has it mapped neither closes it
      nor ends, whatever the others do, and no test of the other end says otherwise. */
  lemma {:induction false} StaysOpen(s: Sys, ts: seq<Step>, k: Slot, end: End)
    requires Inv(s) && RunOk(s, ts) && Held(s, k, end) && NeverGivesUp(s, ts, k)
    ensures Held(Final(s, ts), k, end) && (Asks(Final(s, ts), Other(end)) ==> !SaysClosed(Final(s, ts)))
    decreases |ts|
  {
    if ts == [] {
      if Asks(s, Other(end)) {
        AnswerIsSound(s);
        assert k in Holders(s, end);
      }
    } else {
      NextInv(s, ts[0]);
      HeldStays(s, ts[0], k, end);
      StaysOpen(Next(s, ts[0]), ts[1..], k, end);
    }
  }
}
