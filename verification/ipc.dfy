/** Kernel message passing: sys_ipc_recv and sys_ipc_can_send, and the user code
    that reads a received message out of its environment structure. */
module Ipc {
  import opened Wrappers
  import opened AddressSpace

  datatype Error = BadEnv | IpcNotRecv | Inval | NoMem

  datatype Status = Runnable | NotRunnable

  /** The permission argument: the bits a mapping may have, the present bit, and
      whether any other bit is set. */
  datatype Bits = Bits(present: bool, perm: Perm, other: bool)

  datatype Env = Env(status: Status, recving: bool, dst: nat, value: nat, from: nat, perm: Option<Perm>)

  datatype Kernel = Kernel(envs: map<nat, Env>, mem: Memory)

  /** sys_ipc_recv; page 0 stands for "no page wanted". */
  function Recv(k: Kernel, e: nat, dst: nat): Kernel
    requires e in k.envs
  {
    k.(envs := k.envs[e := k.envs[e].(recving := true, dst := dst, status := NotRunnable)])
  }

  /** The checks of sys_ipc_can_send, in order. `room` says whether page_insert
      could get a page table. */
  function SendError(k: Kernel, from: nat, to: nat, src: nat, bits: Bits, room: bool): Option<Error> {
    if to !in k.envs then Some(BadEnv)
    else if !k.envs[to].recving then Some(IpcNotRecv)
    else if src == 0 || k.envs[to].dst == 0 then None
    else if src >= UTOP_PAGE then Some(Inval)
    else if !bits.present || !bits.perm.u || bits.other then Some(Inval)
    else if Lookup(k.mem, Loc(from, src)).None? then Some(Inval)
    else if !room then Some(NoMem)
    else None
  }

  function Deliver(k: Kernel, from: nat, to: nat, value: nat, src: nat, bits: Bits): Kernel
    requires to in k.envs
  {
    var e := k.envs[to];
    var pageSent := src != 0 && e.dst != 0;
    var mem := if pageSent then MapFrom(k.mem, Loc(from, src), Loc(to, e.dst), bits.perm) else k.mem;
    Kernel(k.envs[to := Env(Runnable, false, e.dst, value, from, if pageSent then Some(bits.perm) else None)], mem)
  }

  function CanSend(k: Kernel, from: nat, to: nat, value: nat, src: nat, bits: Bits, room: bool)
      : (Kernel, Option<Error>) {
    match SendError(k, from, to, src, bits, room)
    case Some(err) => (k, Some(err))
    case None => if to in k.envs then (Deliver(k, from, to, value, src, bits), None) else (k, Some(BadEnv))
  }

  /** A page may be sent: below UTOP, with the present and user bits and none that a
      mapping may not have, in a page table that exists. */
  predicate GoodPage(m: Memory, from: nat, src: nat, bits: Bits) {
    src < UTOP_PAGE && bits.present && bits.perm.u && !bits.other && Dir(Loc(from, src)) in m.dirs
  }

  /** The page it is: physical page 0 for an empty entry. */
  function PageAt(m: Memory, l: Loc): nat {
    if l in m.pt then m.pt[l].page else 0
  }

  /** The kernel's own code, one field at a time. */
  class KernelState {
    var envs: map<nat, Env>
    var mem: Memory

    function View(): Kernel
      reads this
    {
      Kernel(envs, mem)
    }

    /** The caller must not be receiving already; otherwise the kernel panics. */
    method SysIpcRecv(cur: nat, dst: nat)
      requires cur in envs && !envs[cur].recving && dst < UTOP_PAGE
      modifies this
      ensures View() == Recv(old(View()), cur, dst)
    {
      envs := envs[cur := envs[cur].(recving := true)];
      envs := envs[cur := envs[cur].(dst := dst)];
      envs := envs[cur := envs[cur].(status := NotRunnable)];
    }

    method SysIpcCanSend(cur: nat, envid: nat, value: nat, src: nat, bits: Bits, room: bool) returns (r: Option<Error>)
      modifies this
      ensures (View(), r) == CanSend(old(View()), cur, envid, value, src, bits, room)
      ensures r.Some? ==> View() == old(View())
      ensures r == Some(BadEnv) <==> envid !in old(envs)
      ensures r == Some(IpcNotRecv) <==> envid in old(envs) && !old(envs)[envid].recving
      ensures envid in old(envs) && old(envs)[envid].recving ==>
        var dst := old(envs)[envid].dst;
        && (r.None? <==> src == 0 || dst == 0 || (GoodPage(old(mem), cur, src, bits) && room))
        && (r == Some(Inval) <==> src != 0 && dst != 0 && !GoodPage(old(mem), cur, src, bits))
        && (r == Some(NoMem) <==> src != 0 && dst != 0 && GoodPage(old(mem), cur, src, bits) && !room)
      ensures r.None? ==>
        var dst := old(envs)[envid].dst;
        var paged := src != 0 && dst != 0;
        && envs == old(envs)[envid := Env(Runnable, false, dst, value, cur, if paged then Some(bits.perm) else None)]
        && (!paged ==> mem == old(mem))
        && (paged ==> mem.pt == old(mem).pt[Loc(envid, dst) := Pte(PageAt(old(mem), Loc(cur, src)), bits.perm)] &&
                      mem.ram == old(mem).ram && mem.dirs == old(mem).dirs + {Dir(Loc(envid, dst))})
    {
      if envid !in envs {
        return Some(BadEnv);
      }
      if !envs[envid].recving {
        return Some(IpcNotRecv);
      }
      if src != 0 && envs[envid].dst != 0 {
        if src >= UTOP_PAGE {
          return Some(Inval);
        }
        if !bits.present || !bits.perm.u || bits.other {
          return Some(Inval);
        }
        var page := Lookup(mem, Loc(cur, src));
        if page.None? {
          return Some(Inval);
        }
        if !room {
          return Some(NoMem);
        }
        mem := Insert(mem, Loc(envid, envs[envid].dst), page.value, bits.perm);
        envs := envs[envid := envs[envid].(perm := Some(bits.perm))];
      } else {
        envs := envs[envid := envs[envid].(perm := None)];
      }
      envs := envs[envid := envs[envid].(recving := false)];
      envs := envs[envid := envs[envid].(from := cur)];
      envs := envs[envid := envs[envid].(value := value)];
      envs := envs[envid := envs[envid].(status := Runnable)];
      assert envs == Deliver(old(View()), cur, envid, value, src, bits).envs;
      r := None;
    }
  }

  // ---------------------------------------------------------------- whole runs

  /** A message as sent and as received: the page is the physical page mapped. */
  datatype Msg = Msg(from: nat, value: nat, perm: Option<Perm>, page: Option<nat>)

  /** `waiting` environments are inside ipc_recv; the logs list, per environment,
      the sends to it that succeeded and the messages its ipc_recv returned. */
  datatype Sys = Sys(k: Kernel, waiting: set<nat>, sent: map<nat, seq<Msg>>, got: map<nat, seq<Msg>>)

  datatype Step =
    | RecvStep(e: nat, dst: nat)
    | SendStep(e: nat, to: nat, value: nat, src: nat, bits: Bits, room: bool)
    | ReadStep(e: nat)

  function Log(m: map<nat, seq<Msg>>, e: nat): seq<Msg> {
    if e in m then m[e] else []
  }

  /** A running environment calls ipc_recv, tries a send, or, back from the
      system call in ipc_recv, reads the message. */
  predicate Enabled(s: Sys, t: Step) {
    t.e in s.k.envs && s.k.envs[t.e].status == Runnable &&
    match t
    case RecvStep(e, dst) => e !in s.waiting && dst < UTOP_PAGE
    case SendStep(e, _, _, _, _, _) => e !in s.waiting
    case ReadStep(e) => e in s.waiting
  }

  /** What ipc_recv finds when it returns. */
  function Found(k: Kernel, e: nat): Msg
    requires e in k.envs
  {
    var v := k.envs[e];
    Msg(v.from, v.value, v.perm, if v.perm.Some? && Loc(e, v.dst) in k.mem.pt then Some(k.mem.pt[Loc(e, v.dst)].page)
        else None)
  }

  /** What a successful send hands over. */
  function Handed(k: Kernel, from: nat, to: nat, value: nat, src: nat, bits: Bits): Msg
    requires to in k.envs
  {
    if src != 0 && k.envs[to].dst != 0 then Msg(from, value, Some(bits.perm), Lookup(k.mem, Loc(from, src)))
    else Msg(from, value, None, None)
  }

  function Next(s: Sys, t: Step): Sys
    requires Enabled(s, t)
  {
    match t
    case RecvStep(e, dst) => s.(k := Recv(s.k, e, dst), waiting := s.waiting + {e})
    case SendStep(e, to, value, src, bits, room) =>
      var (k, err) := CanSend(s.k, e, to, value, src, bits, room);
      if err.Some? || to !in s.k.envs then s.(k := k)
      else s.(k := k, sent := s.sent[to := Log(s.sent, to) + [Handed(s.k, e, to, value, src, bits)]])
    case ReadStep(e) => s.(waiting := s.waiting - {e}, got := s.got[e := Log(s.got, e) + [Found(s.k, e)]])
  }

  ghost predicate EnvInv(s: Sys, e: nat) {
    e in s.k.envs ==>
      var v := s.k.envs[e];
      (v.recving <==> v.status == NotRunnable) &&
      (e !in s.waiting ==> !v.recving && Log(s.sent, e) == Log(s.got, e)) &&
      (e in s.waiting && v.recving ==> Log(s.sent, e) == Log(s.got, e)) &&
      (e in s.waiting && !v.recving ==> Log(s.sent, e) == Log(s.got, e) + [Found(s.k, e)])
  }

  ghost predicate Inv(s: Sys) {
    forall e :: EnvInv(s, e)
  }

  lemma NextInv(s: Sys, t: Step)
    requires Inv(s) && Enabled(s, t)
    ensures Inv(Next(s, t))
  {
    forall e ensures EnvInv(Next(s, t), e) {
      assert EnvInv(s, e) && EnvInv(s, t.e);
      if t.SendStep? && e == t.to {
        assert Log(Next(s, t).sent, e) == Log(s.sent, e) ||
               Found(Next(s, t).k, e) == Handed(s.k, t.e, t.to, t.value, t.src, t.bits);
      } else if t.SendStep? && e in s.k.envs {
        assert Found(Next(s, t).k, e) == Found(s.k, e);
      }
    }
  }

  ghost predicate RunOk(s: Sys, ts: seq<Step>)
    decreases |ts|
  {
    ts != [] ==> Enabled(s, ts[0]) && RunOk(Next(s, ts[0]), ts[1..])
  }

  ghost function Final(s: Sys, ts: seq<Step>): Sys
    requires RunOk(s, ts)
    decreases |ts|
  {
    if ts == [] then s else Final(Next(s, ts[0]), ts[1..])
  }

  /** Over any run of receives and sends by any environments, every environment
      has received exactly the messages successfully sent to it, in order, each
      with its sender, value, permission and page, at most the last of them not
      read yet; and an environment is off the run queue exactly while it waits
      for a message. */
  lemma {:induction false} ExactlyOnce(s: Sys, ts: seq<Step>, e: nat)
    requires Inv(s) && RunOk(s, ts) && e in Final(s, ts).k.envs
    ensures var f := Final(s, ts);
            && Log(f.got, e) <= Log(f.sent, e) && |Log(f.sent, e)| <= |Log(f.got, e)| + 1
            && (f.k.envs[e].recving <==> f.k.envs[e].status == NotRunnable)
            && (f.k.envs[e].recving ==> Log(f.got, e) == Log(f.sent, e))
    decreases |ts|
  {
    if ts == [] {
      assert EnvInv(s, e);
    } else {
      NextInv(s, ts[0]);
      ExactlyOnce(Next(s, ts[0]), ts[1..], e);
    }
  }

  /** Between a delivery and the receiver's next ipc_recv every other send to it
      is refused and changes nothing. */
  lemma SecondSenderRefused(s: Sys, e: nat, to: nat, value: nat, src: nat, bits: Bits, room: bool)
    requires Inv(s) && to in s.k.envs && s.k.envs[to].status == Runnable
    ensures CanSend(s.k, e, to, value, src, bits, room) == (s.k, Some(IpcNotRecv))
  {
    assert EnvInv(s, to);
  }
}
