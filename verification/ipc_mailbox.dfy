/** The mailboxes of the file-server protocol are what kernel message passing
    gives: every step of the protocol is a step of the kernel model. */
module IpcMailbox {
  import opened Wrappers
  import opened AddressSpace
  import K = Ipc
  import F = FsProtocol

  /** Not in ipc_recv, waiting in it, or back from the system call with a message
      to read. */
  function BoxOf(s: K.Sys, e: nat): F.Box<nat> {
    if e !in s.waiting || e !in s.k.envs then F.Closed
    else if s.k.envs[e].recving then F.Open
    else F.Full(s.k.envs[e].from, s.k.envs[e].value)
  }

  ghost predicate OthersSame(s: K.Sys, t: K.Sys, e: nat) {
    forall o | o != e :: BoxOf(t, o) == BoxOf(s, o)
  }

  /** The arguments of a send are in order: it can fail only because the target is
      not receiving, which ipc_send answers by trying again. */
  predicate GoodSend(s: K.Sys, e: nat, to: nat, src: nat, bits: K.Bits, room: bool) {
    to in s.k.envs && var err := K.SendError(s.k, e, to, src, bits, room); err == None || err == Some(K.IpcNotRecv)
  }

  /** That is: there is such an environment, and if it is receiving and both sides name a
      page, the page may be sent and finds a page table. */
  lemma GoodSendMeans(s: K.Sys, e: nat, to: nat, src: nat, bits: K.Bits, room: bool)
    ensures GoodSend(s, e, to, src, bits, room) <==>
            to in s.k.envs &&
            (s.k.envs[to].recving && src != 0 && s.k.envs[to].dst != 0 ==> K.GoodPage(s.k.mem, e, src, bits) && room)
  {
  }

  lemma RecvOpens(s: K.Sys, e: nat, dst: nat)
    requires K.Inv(s) && K.Enabled(s, K.RecvStep(e, dst))
    ensures var t := K.Next(s, K.RecvStep(e, dst));
            BoxOf(s, e) == F.Closed && BoxOf(t, e) == F.Open && OthersSame(s, t, e) && t.k.envs.Keys == s.k.envs.Keys
  {
    assert K.EnvInv(s, e);
  }

  /** A send fills the box if it is open, sharing the sender's page if both sides
      name one, and otherwise is refused and changes nothing. */
  lemma SendFills(s: K.Sys, e: nat, to: nat, value: nat, src: nat, bits: K.Bits, room: bool)
    requires K.Inv(s) && K.Enabled(s, K.SendStep(e, to, value, src, bits, room)) && GoodSend(s, e, to, src, bits, room)
    ensures var t := K.Next(s, K.SendStep(e, to, value, src, bits, room));
            && BoxOf(t, to) == (if BoxOf(s, to).Open? then F.Full(e, value) else BoxOf(s, to))
            && OthersSame(s, t, to) && t.k.envs.Keys == s.k.envs.Keys
            && (!BoxOf(s, to).Open? ==> t.k == s.k)
            && (BoxOf(s, to).Open? && src != 0 && s.k.envs[to].dst != 0 ==>
                  Loc(to, s.k.envs[to].dst) in t.k.mem.pt &&
                  Some(t.k.mem.pt[Loc(to, s.k.envs[to].dst)].page) == Lookup(s.k.mem, Loc(e, src)))
  {
    assert K.EnvInv(s, to) && K.EnvInv(s, e);
  }

  lemma ReadCloses(s: K.Sys, e: nat)
    requires K.Inv(s) && K.Enabled(s, K.ReadStep(e))
    ensures var t := K.Next(s, K.ReadStep(e));
            && BoxOf(s, e) == F.Full(K.Found(s.k, e).from, K.Found(s.k, e).value) && BoxOf(t, e) == F.Closed
            && OthersSame(s, t, e) && t.k == s.k
  {
    assert K.EnvInv(s, e);
  }

  predicate Party<S, A>(p: F.Sys<S, A, nat>, e: nat) {
    e == F.SERVER || e in p.pc
  }

  /** The box of a client or of the server as the protocol has it. */
  function PartyBox<S, A>(p: F.Sys<S, A, nat>, e: nat): F.Box<nat> {
    if e == F.SERVER then p.srvBox else if e in p.box then p.box[e] else F.Closed
  }

  /** The clients and the server are environments, and their boxes agree. */
  ghost predicate Agree<S, A>(p: F.Sys<S, A, nat>, s: K.Sys) {
    F.SERVER !in p.pc && forall e | Party(p, e) :: e in s.k.envs && PartyBox(p, e) == BoxOf(s, e)
  }

  /** What the kernel does in a protocol step: `dst` is where the receiver wants its
      page, `src` and `bits` what the sender offers. None if it does nothing. */
  function KernelStep<S, A>(p: F.Sys<S, A, nat>, t: F.Step<A>, dst: nat, src: nat, bits: K.Bits): Option<K.Step>
    requires F.Enabled(p, t)
  {
    match t
    case Fill(_, _, _) => None
    case TrySend(c) => Some(K.SendStep(c, F.SERVER, p.pc[c].code, src, bits, true))
    case CallRecv(c) => Some(K.RecvStep(c, dst))
    case Collect(c) => Some(K.ReadStep(c))
    case ServerRecv => Some(K.RecvStep(F.SERVER, dst))
    case ServerTake => Some(K.ReadStep(F.SERVER))
    case Serve => None
    case TryReply => Some(K.SendStep(F.SERVER, p.srv.whom, p.srv.r, src, bits, true))
  }

  /** The environment whose box a kernel step is about. */
  function Target(u: K.Step): nat {
    if u.SendStep? then u.to else u.e
  }

  /** What it leaves in that box. */
  function BoxAfter(u: K.Step, box: F.Box<nat>): F.Box<nat> {
    match u
    case RecvStep(_, _) => F.Open
    case SendStep(e, _, value, _, _, _) => if box.Open? then F.Full(e, value) else box
    case ReadStep(_) => F.Closed
  }

  lemma KernelBoxes(s: K.Sys, u: K.Step)
    requires K.Inv(s) && K.Enabled(s, u)
    requires u.SendStep? ==> GoodSend(s, u.e, u.to, u.src, u.bits, u.room)
    ensures var t := K.Next(s, u);
            BoxOf(t, Target(u)) == BoxAfter(u, BoxOf(s, Target(u))) && OthersSame(s, t, Target(u)) &&
            t.k.envs.Keys == s.k.envs.Keys
  {
    match u
    case RecvStep(e, dst) => RecvOpens(s, e, dst);
    case SendStep(e, to, value, src, bits, room) => SendFills(s, e, to, value, src, bits, room);
    case ReadStep(e) => ReadCloses(s, e);
  }

  lemma ProtocolBoxes<S, A>(f: F.Handler<S, A, nat>, s0: S, p: F.Sys<S, A, nat>, t: F.Step<A>, dst: nat, src: nat,
                            bits: K.Bits)
    requires F.Inv(f, s0, p) && F.Enabled(p, t) && F.SERVER !in p.pc
    ensures var p' := F.Next(f, p, t);
            && p'.pc.Keys == p.pc.Keys
            && match KernelStep(p, t, dst, src, bits)
               case None => forall o :: PartyBox(p', o) == PartyBox(p, o)
               case Some(u) => Party(p, Target(u)) && PartyBox(p', Target(u)) == BoxAfter(u, PartyBox(p, Target(u))) &&
                               forall o | o != Target(u) :: PartyBox(p', o) == PartyBox(p, o)
  {
    hide F.ClientInv, F.Faithful, F.Replay;
  }

  /** Every protocol step is a kernel step that changes the boxes as it does. */
  lemma StepRefines<S, A>(f: F.Handler<S, A, nat>, s0: S, p: F.Sys<S, A, nat>, s: K.Sys, t: F.Step<A>,
                          dst: nat, src: nat, bits: K.Bits)
    requires F.Inv(f, s0, p) && F.Enabled(p, t) && K.Inv(s) && Agree(p, s) && dst < UTOP_PAGE
    requires SendGood(p, s, t, dst, src, bits)
    ensures match KernelStep(p, t, dst, src, bits)
            case None => Agree(F.Next(f, p, t), s)
            case Some(u) => K.Enabled(s, u) && K.Inv(K.Next(s, u)) && Agree(F.Next(f, p, t), K.Next(s, u))
  {
    ProtocolBoxes(f, s0, p, t, dst, src, bits);
    match KernelStep(p, t, dst, src, bits)
    case None =>
    case Some(u) =>
      KernelReady(f, s0, p, s, t, dst, src, bits);
      K.NextInv(s, u);
      SameStep(p, t, dst, src, bits);
      hide *;
      KernelBoxes(s, u);
      AgreeMoves(p, F.Next(f, p, t), s, K.Next(s, u), Target(u));
  }

  lemma AgreeMoves<S, A>(p: F.Sys<S, A, nat>, p': F.Sys<S, A, nat>, s: K.Sys, s': K.Sys, o: nat)
    requires Agree(p, s) && p'.pc.Keys == p.pc.Keys && s'.k.envs.Keys == s.k.envs.Keys && OthersSame(s, s', o)
    requires PartyBox(p', o) == BoxOf(s', o) && forall x | x != o :: PartyBox(p', x) == PartyBox(p, x)
    ensures Agree(p', s')
  {
    hide BoxOf, PartyBox;
  }

  /** If the step is a send, its arguments are in order. */
  predicate SendGood<S, A>(p: F.Sys<S, A, nat>, s: K.Sys, t: F.Step<A>, dst: nat, src: nat, bits: K.Bits)
    requires F.Enabled(p, t)
  {
    match KernelStep(p, t, dst, src, bits)
    case Some(SendStep(e, to, _, _, _, _)) => GoodSend(s, e, to, src, bits, true)
    case _ => true
  }

  lemma SameStep<S, A>(p: F.Sys<S, A, nat>, t: F.Step<A>, dst: nat, src: nat, bits: K.Bits)
    requires F.Enabled(p, t)
    ensures match KernelStep(p, t, dst, src, bits)
            case Some(SendStep(_, _, _, src', bits', room)) => src' == src && bits' == bits && room
            case _ => true
  {
  }

  lemma KernelReady<S, A>(f: F.Handler<S, A, nat>, s0: S, p: F.Sys<S, A, nat>, s: K.Sys, t: F.Step<A>,
                          dst: nat, src: nat, bits: K.Bits)
    requires F.Inv(f, s0, p) && F.Enabled(p, t) && K.Inv(s) && Agree(p, s) && dst < UTOP_PAGE
    requires KernelStep(p, t, dst, src, bits).Some?
    ensures K.Enabled(s, KernelStep(p, t, dst, src, bits).value)
  {
    var e := KernelStep(p, t, dst, src, bits).value.e;
    assert K.EnvInv(s, e);
    if e != F.SERVER {
      assert F.ClientInv(p, e);
    }
  }

  // ---------------------------------------------------------------- whole runs

  /** A step of a client or the server, or of any other environment. */
  datatype Move<A> = Ours(t: F.Step<A>, dst: nat, src: nat, bits: K.Bits) | Other(u: K.Step)

  /** Other environments may do anything but send to a client or the server. */
  ghost predicate MoveOk<S, A>(p: F.Sys<S, A, nat>, s: K.Sys, m: Move<A>) {
    match m
    case Ours(t, dst, src, bits) => F.Enabled(p, t) && dst < UTOP_PAGE && SendGood(p, s, t, dst, src, bits)
    case Other(u) => K.Enabled(s, u) && !Party(p, u.e) && !Party(p, Target(u))
  }

  /** The step the kernel takes, if it takes one. */
  function Taken<S, A>(p: F.Sys<S, A, nat>, m: Move<A>): Option<K.Step>
    requires m.Ours? ==> F.Enabled(p, m.t)
  {
    match m
    case Ours(t, dst, src, bits) => KernelStep(p, t, dst, src, bits)
    case Other(u) => Some(u)
  }

  function After<S, A>(f: F.Handler<S, A, nat>, p: F.Sys<S, A, nat>, m: Move<A>): F.Sys<S, A, nat>
    requires m.Ours? ==> F.Enabled(p, m.t)
  {
    if m.Ours? then F.Next(f, p, m.t) else p
  }

  function KernelAfter<S, A>(p: F.Sys<S, A, nat>, s: K.Sys, m: Move<A>): K.Sys
    requires m.Ours? ==> F.Enabled(p, m.t)
  {
    match Taken(p, m)
    case Some(u) => if K.Enabled(s, u) then K.Next(s, u) else s
    case None => s
  }

  /** What the kernel has handed to ipc_recv of each client since `base`, all of it
      from the server, is what the client has taken for its answers. */
  ghost predicate Logged<S, A>(base: K.Sys, p: F.Sys<S, A, nat>, s: K.Sys) {
    forall c <- p.pc :: c in p.answered && GotSince(base, s, c, p.answered[c])
  }

  predicate GotSince(base: K.Sys, s: K.Sys, c: nat, xs: seq<nat>) {
    Extends(K.Log(base.got, c), K.Log(s.got, c), xs)
  }

  /** Log `now` is `was` and then messages of the server with values xs. */
  predicate Extends(was: seq<K.Msg>, now: seq<K.Msg>, xs: seq<nat>) {
    was <= now && FromServer(now[|was|..], xs)
  }

  predicate FromServer(ms: seq<K.Msg>, xs: seq<nat>) {
    |ms| == |xs| && forall i | 0 <= i < |ms| :: ms[i].from == F.SERVER && ms[i].value == xs[i]
  }

  lemma GotOne(was: seq<K.Msg>, now: seq<K.Msg>, m: K.Msg, xs: seq<nat>)
    requires Extends(was, now, xs) && m.from == F.SERVER
    ensures Extends(was, now + [m], xs + [m.value])
  {
    assert (now + [m])[|was|..] == now[|was|..] + [m];
  }

  ghost predicate Alike<S, A>(f: F.Handler<S, A, nat>, s0: S, base: K.Sys, p: F.Sys<S, A, nat>, s: K.Sys) {
    F.Inv(f, s0, p) && K.Inv(s) && Agree(p, s) && Logged(base, p, s)
  }

  /** Only filling a request and serving it take no step of the kernel; and only sends can
      have bad arguments. */
  lemma TakenMeans<S, A>(p: F.Sys<S, A, nat>, s: K.Sys, m: Move<A>)
    requires m.Ours? ==> F.Enabled(p, m.t)
    ensures m.Other? ==> Taken(p, m) == Some(m.u)
    ensures m.Ours? ==> (Taken(p, m).None? <==> m.t.Fill? || m.t.Serve?)
    ensures m.Ours? && !(m.t.TrySend? || m.t.TryReply?) ==> SendGood(p, s, m.t, m.dst, m.src, m.bits)
    ensures m.Ours? && m.t.TrySend? ==>
              (SendGood(p, s, m.t, m.dst, m.src, m.bits) <==> GoodSend(s, m.t.c, F.SERVER, m.src, m.bits, true))
    ensures m.Ours? && m.t.TryReply? ==>
              (SendGood(p, s, m.t, m.dst, m.src, m.bits) <==> GoodSend(s, F.SERVER, p.srv.whom, m.src, m.bits, true))
  {
  }

  lemma OtherKeeps<S, A>(p: F.Sys<S, A, nat>, s: K.Sys, u: K.Step)
    requires K.Inv(s) && Agree(p, s) && K.Enabled(s, u) && !Party(p, u.e) && !Party(p, Target(u))
    ensures Agree(p, K.Next(s, u))
  {
    assert K.EnvInv(s, u.e);
    forall e | Party(p, e) ensures e in K.Next(s, u).k.envs && BoxOf(K.Next(s, u), e) == BoxOf(s, e) {
      assert e in s.k.envs;
    }
  }

  lemma GotMoves(base: K.Sys, s: K.Sys, u: K.Step, c: nat, xs: seq<nat>)
    requires GotSince(base, s, c, xs) && K.Enabled(s, u)
    requires u == K.ReadStep(c) ==> K.Found(s.k, c).from == F.SERVER
    ensures GotSince(base, K.Next(s, u), c, if u == K.ReadStep(c) then xs + [K.Found(s.k, c).value] else xs)
  {
    if u == K.ReadStep(c) {
      assert K.Log(K.Next(s, u).got, c) == K.Log(s.got, c) + [K.Found(s.k, c)];
      GotOne(K.Log(base.got, c), K.Log(s.got, c), K.Found(s.k, c), xs);
    } else {
      assert K.Log(K.Next(s, u).got, c) == K.Log(s.got, c);
    }
    hide K.Next, K.Found;
  }

  lemma AnswersMove<S, A>(f: F.Handler<S, A, nat>, s0: S, p: F.Sys<S, A, nat>, t: F.Step<A>, c: nat)
    requires F.Inv(f, s0, p) && F.Enabled(p, t) && c in p.pc
    ensures var p' := F.Next(f, p, t);
            p'.pc.Keys == p.pc.Keys && c in p.answered && c in p'.answered && c in p.box &&
            (t == F.Collect(c) ==> p.box[c].Full? && p.box[c].from == F.SERVER &&
                                   p'.answered[c] == p.answered[c] + [p.box[c].x]) &&
            (t != F.Collect(c) ==> p'.answered[c] == p.answered[c])
  {
    assert F.IsClient(p, c) && F.ClientInv(p, c);
    hide F.Faithful, F.Replay, F.InService, F.Busy;
  }

  lemma LoggedMoves<S, A>(f: F.Handler<S, A, nat>, s0: S, base: K.Sys, p: F.Sys<S, A, nat>, s: K.Sys, m: Move<A>,
                          c: nat)
    requires Alike(f, s0, base, p, s) && MoveOk(p, s, m) && c in p.pc
    requires Taken(p, m).Some? ==> K.Enabled(s, Taken(p, m).value)
    ensures c in After(f, p, m).answered && GotSince(base, KernelAfter(p, s, m), c, After(f, p, m).answered[c])
  {
    assert F.IsClient(p, c) && Party(p, c) && F.SERVER !in p.pc;
    if m.Ours? {
      AnswersMove(f, s0, p, m.t, c);
      if m.t == F.Collect(c) {
        ReadCloses(s, c);
      }
    }
    if Taken(p, m).Some? {
      GotMoves(base, s, Taken(p, m).value, c, p.answered[c]);
    }
    hide K.Inv, F.Inv, K.Next, F.Next, GotSince, OthersSame, SendGood;
  }

  /** Every move is a step the kernel can take, and keeps kernel and protocol alike. */
  lemma MoveKeeps<S, A>(f: F.Handler<S, A, nat>, s0: S, base: K.Sys, p: F.Sys<S, A, nat>, s: K.Sys, m: Move<A>)
    requires Alike(f, s0, base, p, s) && MoveOk(p, s, m)
    ensures Taken(p, m).Some? ==> K.Enabled(s, Taken(p, m).value)
    ensures Alike(f, s0, base, After(f, p, m), KernelAfter(p, s, m)) && After(f, p, m).pc.Keys == p.pc.Keys
  {
    Lockstep(f, s0, p, s, m);
    var p', s' := After(f, p, m), KernelAfter(p, s, m);
    hide *;
    forall c | c in p'.pc ensures c in p'.answered && GotSince(base, s', c, p'.answered[c]) {
      LoggedMoves(f, s0, base, p, s, m, c);
    }
    AllLogged(base, p', s');
  }

  lemma AllLogged<S, A>(base: K.Sys, p: F.Sys<S, A, nat>, s: K.Sys)
    requires forall c | c in p.pc :: c in p.answered && GotSince(base, s, c, p.answered[c])
    ensures Logged(base, p, s)
  {
  }

  lemma Lockstep<S, A>(f: F.Handler<S, A, nat>, s0: S, p: F.Sys<S, A, nat>, s: K.Sys, m: Move<A>)
    requires F.Inv(f, s0, p) && K.Inv(s) && Agree(p, s) && MoveOk(p, s, m)
    ensures Taken(p, m).Some? ==> K.Enabled(s, Taken(p, m).value)
    ensures var p', s' := After(f, p, m), KernelAfter(p, s, m);
            F.Inv(f, s0, p') && K.Inv(s') && Agree(p', s') && p'.pc.Keys == p.pc.Keys
  {
    match m
    case Ours(t, dst, src, bits) =>
      StepRefines(f, s0, p, s, t, dst, src, bits);
      ProtocolBoxes(f, s0, p, t, dst, src, bits);
      F.NextInv(f, s0, p, t);
      hide K.Inv, F.Inv, K.Next, F.Next, KernelStep, Agree;
    case Other(u) =>
      OtherKeeps(p, s, u);
      K.NextInv(s, u);
      hide K.Inv, F.Inv, K.Next, F.Next, KernelStep, Agree;
  }

  ghost predicate RunOk<S, A>(f: F.Handler<S, A, nat>, p: F.Sys<S, A, nat>, s: K.Sys, ms: seq<Move<A>>)
    decreases |ms|
  {
    ms != [] ==>
      MoveOk(p, s, ms[0]) && RunOk(f, After(f, p, ms[0]), KernelAfter(p, s, ms[0]), ms[1..])
  }

  /** The steps of the protocol in a run. */
  ghost function OurSteps<A>(ms: seq<Move<A>>): seq<F.Step<A>> {
    if ms == [] then [] else (if ms[0].Ours? then [ms[0].t] else []) + OurSteps(ms[1..])
  }

  /** The steps of the kernel in it. */
  ghost function KernelSteps<S, A>(f: F.Handler<S, A, nat>, p: F.Sys<S, A, nat>, s: K.Sys,
                                   ms: seq<Move<A>>): seq<K.Step>
    requires RunOk(f, p, s, ms)
    decreases |ms|
  {
    if ms == [] then []
    else
      (if Taken(p, ms[0]).Some? then [Taken(p, ms[0]).value] else []) +
      KernelSteps(f, After(f, p, ms[0]), KernelAfter(p, s, ms[0]), ms[1..])
  }

  lemma OurCons<S, A>(f: F.Handler<S, A, nat>, p: F.Sys<S, A, nat>, m: Move<A>, ts: seq<F.Step<A>>)
    requires (m.Ours? ==> F.Enabled(p, m.t)) && F.RunOk(f, After(f, p, m), ts)
    ensures var us := (if m.Ours? then [m.t] else []) + ts;
            F.RunOk(f, p, us) && F.Final(f, p, us) == F.Final(f, After(f, p, m), ts)
  {
    hide F.Next, F.Enabled;
    if m.Ours? {
      assert ([m.t] + ts)[1..] == ts;
    } else {
      assert [] + ts == ts;
    }
  }

  lemma KernelCons<S, A>(p: F.Sys<S, A, nat>, s: K.Sys, m: Move<A>, ts: seq<K.Step>)
    requires (m.Ours? ==> F.Enabled(p, m.t)) && (Taken(p, m).Some? ==> K.Enabled(s, Taken(p, m).value))
    requires K.RunOk(KernelAfter(p, s, m), ts)
    ensures var us := (if Taken(p, m).Some? then [Taken(p, m).value] else []) + ts;
            K.RunOk(s, us) && K.Final(s, us) == K.Final(KernelAfter(p, s, m), ts)
  {
    hide K.Next, K.Enabled, F.Enabled, Taken;
    if Taken(p, m).Some? {
      assert ([Taken(p, m).value] + ts)[1..] == ts;
    } else {
      assert [] + ts == ts;
    }
  }

  /** Any schedule of the protocol between any other environments is a run of the
      kernel, at the end of which kernel and protocol are alike. */
  lemma {:induction false} RunRefines<S, A>(f: F.Handler<S, A, nat>, s0: S, base: K.Sys, p: F.Sys<S, A, nat>, s: K.Sys,
                                            ms: seq<Move<A>>)
    requires Alike(f, s0, base, p, s) && RunOk(f, p, s, ms)
    ensures F.RunOk(f, p, OurSteps(ms)) && K.RunOk(s, KernelSteps(f, p, s, ms))
    ensures Alike(f, s0, base, F.Final(f, p, OurSteps(ms)), K.Final(s, KernelSteps(f, p, s, ms)))
    ensures F.Final(f, p, OurSteps(ms)).pc.Keys == p.pc.Keys
    decreases |ms|
  {
    hide Alike, MoveOk, Taken, After, KernelAfter, F.RunOk, K.RunOk, F.Enabled, K.Enabled, F.Final, K.Final;
    if ms == [] {
      NoSteps(f, p, s);
    } else {
      Ready(p, s, ms[0]);
      MoveKeeps(f, s0, base, p, s, ms[0]);
      var p', s' := After(f, p, ms[0]), KernelAfter(p, s, ms[0]);
      RunRefines(f, s0, base, p', s', ms[1..]);
      OurCons(f, p, ms[0], OurSteps(ms[1..]));
      KernelCons(p, s, ms[0], KernelSteps(f, p', s', ms[1..]));
    }
  }

  lemma Ready<S, A>(p: F.Sys<S, A, nat>, s: K.Sys, m: Move<A>)
    requires MoveOk(p, s, m)
    ensures m.Ours? ==> F.Enabled(p, m.t)
  {
  }

  lemma NoSteps<S, A>(f: F.Handler<S, A, nat>, p: F.Sys<S, A, nat>, s: K.Sys)
    ensures F.RunOk(f, p, []) && F.Final(f, p, []) == p && K.RunOk(s, []) && K.Final(s, []) == s
  {
  }

  /** On the kernel: the k-th message ipc_recv has returned to a client since the
      start is from the server, and its value is the server's result for the
      k-th request of that client, the requests being handled one after the other. */
  lemma KernelReplies<S, A>(f: F.Handler<S, A, nat>, s0: S, p: F.Sys<S, A, nat>, s: K.Sys, ms: seq<Move<A>>, c: nat)
    requires F.Initial(p, s0) && K.Inv(s) && Agree(p, s) && RunOk(f, p, s, ms) && c in p.pc
    ensures F.RunOk(f, p, OurSteps(ms)) && K.RunOk(s, KernelSteps(f, p, s, ms))
    ensures var z, t := F.Final(f, p, OurSteps(ms)), K.Final(s, KernelSteps(f, p, s, ms));
            && F.Faithful(f, s0, z.log) && F.IsClient(z, c)
            && K.Log(s.got, c) <= K.Log(t.got, c)
            && var mail, mine := K.Log(t.got, c)[|K.Log(s.got, c)|..], F.Of(z.log, c);
               && |mail| <= |mine| <= |z.asked[c]| <= |mail| + 1
               && (forall k | 0 <= k < |mail| :: mail[k].from == F.SERVER && mine[k].ask == z.asked[c][k] &&
                                                 mail[k].value == mine[k].r)
  {
    StartAlike(f, s0, p, s);
    RunRefines(f, s0, s, p, s, ms);
    var z, t := F.Final(f, p, OurSteps(ms)), K.Final(s, KernelSteps(f, p, s, ms));
    F.RepliesMatchRequests(f, s0, p, OurSteps(ms), c);
    GotAnswers(f, s0, s, z, t, c);
    hide *;
    assert FromServer(K.Log(t.got, c)[|K.Log(s.got, c)|..], z.answered[c]);
  }

  lemma StartAlike<S, A>(f: F.Handler<S, A, nat>, s0: S, p: F.Sys<S, A, nat>, s: K.Sys)
    requires F.Initial(p, s0) && K.Inv(s) && Agree(p, s)
    ensures Alike(f, s0, s, p, s)
  {
    hide K.Inv, Agree;
  }

  lemma GotAnswers<S, A>(f: F.Handler<S, A, nat>, s0: S, base: K.Sys, p: F.Sys<S, A, nat>, s: K.Sys, c: nat)
    requires Alike(f, s0, base, p, s) && c in p.pc
    ensures c in p.answered && K.Log(base.got, c) <= K.Log(s.got, c)
    ensures FromServer(K.Log(s.got, c)[|K.Log(base.got, c)|..], p.answered[c])
  {
    hide F.Inv, K.Inv, Agree;
  }
}
