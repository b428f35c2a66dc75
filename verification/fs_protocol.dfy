/** Clients and the file server: fsipc on one side, the serve loop on the other,
    over the one-message mailbox that kernel message passing gives every
    environment. What the server does with a request is a function of its state,
    the request code and the argument page. */
module FsProtocol {

  /** env_ipc_recving, then the message until it is read. */
  datatype Box<R> = Closed | Open | Full(from: nat, x: R)

  /** A client between two steps of fsipc. `Requesting` retries its send; `Sent`
      has not called ipc_recv yet. */
  datatype Client = Thinking | Requesting(code: nat) | Sent | Awaiting

  datatype Server<R> = Resting | Ready | Serving(whom: nat, code: nat) | Replying(whom: nat, r: R)

  /** One request as it was asked and as it was served. */
  datatype Ask<A> = Ask(code: nat, arg: A)
  datatype Served<A, R> = Served(whom: nat, ask: Ask<A>, r: R)

  const SERVER: nat := 1

  /** `buf` holds each client's argument page, which the server sees at REQVA while
      it serves that client. `log` is what the server has served, in order. */
  datatype Sys<S, A, R> = Sys(
    pc: map<nat, Client>, box: map<nat, Box<R>>, buf: map<nat, A>,
    srv: Server<R>, srvBox: Box<nat>, state: S, log: seq<Served<A, R>>,
    asked: map<nat, seq<Ask<A>>>, answered: map<nat, seq<R>>)

  type Handler<!S, !A, !R> = (S, nat, A) -> (S, R)

  datatype Step<A> =
    | Fill(c: nat, code: nat, arg: A)
    | TrySend(c: nat)
    | CallRecv(c: nat)
    | Collect(c: nat)
    | ServerRecv
    | ServerTake
    | Serve
    | TryReply

  predicate IsClient<S, A, R>(s: Sys<S, A, R>, c: nat) {
    c in s.pc && c in s.box && c in s.buf && c in s.asked && c in s.answered
  }

  predicate Enabled<S, A, R>(s: Sys<S, A, R>, t: Step<A>) {
    match t
    case Fill(c, _, _) => IsClient(s, c) && s.pc[c] == Thinking
    case TrySend(c) => IsClient(s, c) && s.pc[c].Requesting?
    case CallRecv(c) => IsClient(s, c) && s.pc[c] == Sent
    case Collect(c) => IsClient(s, c) && s.pc[c] == Awaiting && s.box[c].Full?
    case ServerRecv => s.srv.Resting?
    case ServerTake => s.srv.Ready? && s.srvBox.Full?
    case Serve => s.srv.Serving? && s.srv.whom in s.buf
    case TryReply => s.srv.Replying? && s.srv.whom in s.box
  }

  function Next<S, A, R>(f: Handler<S, A, R>, s: Sys<S, A, R>, t: Step<A>): Sys<S, A, R>
    requires Enabled(s, t)
  {
    match t
    case Fill(c, code, arg) =>
      s.(pc := s.pc[c := Requesting(code)], buf := s.buf[c := arg],
         asked := s.asked[c := s.asked[c] + [Ask(code, arg)]])
    case TrySend(c) =>
      if s.srvBox.Open? then s.(srvBox := Full(c, s.pc[c].code), pc := s.pc[c := Sent]) else s
    case CallRecv(c) => s.(box := s.box[c := Open], pc := s.pc[c := Awaiting])
    case Collect(c) =>
      s.(box := s.box[c := Closed], pc := s.pc[c := Thinking],
         answered := s.answered[c := s.answered[c] + [s.box[c].x]])
    case ServerRecv => s.(srv := Ready, srvBox := Open)
    case ServerTake => s.(srv := Serving(s.srvBox.from, s.srvBox.x), srvBox := Closed)
    case Serve =>
      var Serving(c, code) := s.srv;
      var (state, r) := f(s.state, code, s.buf[c]);
      s.(state := state, srv := Replying(c, r), log := s.log + [Served(c, Ask(code, s.buf[c]), r)])
    case TryReply =>
      var Replying(c, r) := s.srv;
      if s.box[c].Open? then s.(box := s.box[c := Full(SERVER, r)], srv := Resting) else s
  }

  // ---------------------------------------------------------------- the log

  /** The served requests of one client. */
  function Of<A, R>(log: seq<Served<A, R>>, c: nat): seq<Served<A, R>> {
    if log == [] then []
    else
      var n := |log| - 1;
      if log[n].whom == c then Of(log[..n], c) + [log[n]] else Of(log[..n], c)
  }

  lemma OfSnoc<A, R>(log: seq<Served<A, R>>, e: Served<A, R>, c: nat)
    ensures Of(log + [e], c) == if e.whom == c then Of(log, c) + [e] else Of(log, c)
  {
    assert (log + [e])[..|log|] == log;
  }

  function Asks<A, R>(log: seq<Served<A, R>>): seq<Ask<A>> {
    seq(|log|, i requires 0 <= i < |log| => log[i].ask)
  }

  function Results<A, R>(log: seq<Served<A, R>>): seq<R> {
    seq(|log|, i requires 0 <= i < |log| => log[i].r)
  }

  /** The state a server reaches by serving the log alone, and whether the log
      records what it answered. */
  function Replay<S, A, R>(f: Handler<S, A, R>, s0: S, log: seq<Served<A, R>>): S {
    if log == [] then s0
    else f(Replay(f, s0, log[..|log| - 1]), log[|log| - 1].ask.code, log[|log| - 1].ask.arg).0
  }

  ghost predicate Faithful<S, A, R>(f: Handler<S, A, R>, s0: S, log: seq<Served<A, R>>) {
    forall i | 0 <= i < |log| :: log[i].r == f(Replay(f, s0, log[..i]), log[i].ask.code, log[i].ask.arg).1
  }

  // ---------------------------------------------------------------- invariant

  /** The request of c is in the server's mailbox or being served. */
  predicate Pending<S, A, R>(s: Sys<S, A, R>, c: nat) {
    (s.srvBox.Full? && s.srvBox.from == c) || (s.srv.Serving? && s.srv.whom == c)
  }

  predicate Busy<S, A, R>(s: Sys<S, A, R>, c: nat) {
    Pending(s, c) || (s.srv.Replying? && s.srv.whom == c)
  }

  /** Where client c stands between asking and being answered. */
  ghost predicate ClientInv<S, A, R>(s: Sys<S, A, R>, c: nat)
    requires IsClient(s, c)
  {
    var mine, asked, answered := Of(s.log, c), s.asked[c], s.answered[c];
    match s.pc[c]
    case Thinking => s.box[c] == Closed && !Busy(s, c) && asked == Asks(mine) && answered == Results(mine)
    case Requesting(code) =>
      s.box[c] == Closed && !Busy(s, c) && answered == Results(mine) && asked == Asks(mine) + [Ask(code, s.buf[c])]
    case Sent => s.box[c] == Closed && Busy(s, c) && InService(s, c)
    case Awaiting =>
      if s.box[c].Full? then !Busy(s, c) && s.box[c].from == SERVER && asked == Asks(mine) &&
        answered + [s.box[c].x] == Results(mine)
      else s.box[c] == Open && Busy(s, c) && InService(s, c)
  }

  /** While the server has the request, its code and argument page are as asked. */
  ghost predicate InService<S, A, R>(s: Sys<S, A, R>, c: nat)
    requires IsClient(s, c) && Busy(s, c)
  {
    var mine, asked, answered := Of(s.log, c), s.asked[c], s.answered[c];
    if Pending(s, c) then
      answered == Results(mine) &&
      asked == Asks(mine) + [Ask(if s.srvBox.Full? && s.srvBox.from == c then s.srvBox.x else s.srv.code, s.buf[c])]
    else
      asked == Asks(mine) && answered + [s.srv.r] == Results(mine)
  }

  ghost predicate Inv<S, A, R>(f: Handler<S, A, R>, s0: S, s: Sys<S, A, R>) {
    Faithful(f, s0, s.log) && s.state == Replay(f, s0, s.log) &&
    (forall c | c in s.pc :: IsClient(s, c)) &&
    (forall c | c in s.pc :: IsClient(s, c) && ClientInv(s, c)) &&
    (s.srv.Ready? <==> s.srvBox != Closed) &&
    (s.srvBox.Full? ==> s.srvBox.from in s.pc) &&
    (s.srv.Serving? || s.srv.Replying? ==> s.srv.whom in s.pc)
  }

  lemma ReplaySnoc<S, A, R>(f: Handler<S, A, R>, s0: S, log: seq<Served<A, R>>, e: Served<A, R>)
    requires Faithful(f, s0, log) && e.r == f(Replay(f, s0, log), e.ask.code, e.ask.arg).1
    ensures Faithful(f, s0, log + [e])
    ensures Replay(f, s0, log + [e]) == f(Replay(f, s0, log), e.ask.code, e.ask.arg).0
  {
    var longer := log + [e];
    assert longer[..|log|] == log;
    forall i | 0 <= i < |longer|
      ensures longer[i].r == f(Replay(f, s0, longer[..i]), longer[i].ask.code, longer[i].ask.arg).1
    {
      if i < |log| {
        assert longer[..i] == log[..i];
      }
    }
  }

  lemma ServeClient<S, A, R>(f: Handler<S, A, R>, s0: S, s: Sys<S, A, R>, c: nat)
    requires Inv(f, s0, s) && Enabled(s, Serve) && c in s.pc
    ensures IsClient(Next(f, s, Serve), c) && ClientInv(Next(f, s, Serve), c)
  {
    assert ClientInv(s, c);
    var s' := Next(f, s, Serve);
    var e := s'.log[|s.log|];
    OfSnoc(s.log, e, c);
    if e.whom == c {
      assert Asks(Of(s'.log, c)) == Asks(Of(s.log, c)) + [e.ask];
      assert Results(Of(s'.log, c)) == Results(Of(s.log, c)) + [e.r];
    }
  }

  lemma MailClient<S, A, R>(f: Handler<S, A, R>, s0: S, s: Sys<S, A, R>, t: Step<A>, c: nat)
    requires Inv(f, s0, s) && Enabled(s, t) && c in s.pc && (t.TrySend? || t.TryReply? || t.ServerTake?)
    ensures c in Next(f, s, t).pc && IsClient(Next(f, s, t), c) && ClientInv(Next(f, s, t), c)
  {
    var who := if t.TrySend? then t.c else if t.TryReply? then s.srv.whom else s.srvBox.from;
    assert ClientInv(s, c) && ClientInv(s, who) && Next(f, s, t).log == s.log;
  }

  lemma NextClient<S, A, R>(f: Handler<S, A, R>, s0: S, s: Sys<S, A, R>, t: Step<A>, c: nat)
    requires Inv(f, s0, s) && Enabled(s, t) && c in s.pc
    ensures c in Next(f, s, t).pc && IsClient(Next(f, s, t), c) && ClientInv(Next(f, s, t), c)
  {
    if t.Serve? {
      ServeClient(f, s0, s, c);
    } else if t.TrySend? || t.TryReply? || t.ServerTake? {
      MailClient(f, s0, s, t, c);
    } else {
      assert ClientInv(s, c) && Next(f, s, t).log == s.log;
    }
  }

  lemma NextInv<S, A, R>(f: Handler<S, A, R>, s0: S, s: Sys<S, A, R>, t: Step<A>)
    requires Inv(f, s0, s) && Enabled(s, t)
    ensures Inv(f, s0, Next(f, s, t))
  {
    var s' := Next(f, s, t);
    forall c | c in s'.pc ensures IsClient(s', c) && ClientInv(s', c) {
      NextClient(f, s0, s, t, c);
    }
    if t.Serve? {
      assert ClientInv(s, s.srv.whom);
      ReplaySnoc(f, s0, s.log, s'.log[|s.log|]);
    }
  }

  ghost predicate RunOk<S, A, R>(f: Handler<S, A, R>, s: Sys<S, A, R>, ts: seq<Step<A>>)
    decreases |ts|
  {
    ts != [] ==> Enabled(s, ts[0]) && RunOk(f, Next(f, s, ts[0]), ts[1..])
  }

  ghost function Final<S, A, R>(f: Handler<S, A, R>, s: Sys<S, A, R>, ts: seq<Step<A>>): Sys<S, A, R>
    requires RunOk(f, s, ts)
    decreases |ts|
  {
    if ts == [] then s else Final(f, Next(f, s, ts[0]), ts[1..])
  }

  lemma {:induction false} RunInv<S, A, R>(f: Handler<S, A, R>, s0: S, s: Sys<S, A, R>, ts: seq<Step<A>>)
    requires Inv(f, s0, s) && RunOk(f, s, ts)
    ensures Inv(f, s0, Final(f, s, ts))
    decreases |ts|
  {
    if ts != [] {
      NextInv(f, s0, s, ts[0]);
      RunInv(f, s0, Next(f, s, ts[0]), ts[1..]);
    }
  }

  /** Every client thinking, the server about to rest, nothing asked or served. */
  ghost predicate Initial<S, A, R>(s: Sys<S, A, R>, s0: S) {
    s.srv == Resting && s.srvBox == Closed && s.state == s0 && s.log == [] &&
    forall c | c in s.pc ::
        IsClient(s, c) && s.pc[c] == Thinking && s.box[c] == Closed && s.asked[c] == [] && s.answered[c] == []
  }

  /** For any number of clients and any schedule: the server's answers are those
      of a server that handles the requests of the log one after the other; each
      client's k-th answer is the server's answer to that client's k-th request,
      and at most one request of a client is unanswered. */
  lemma RepliesMatchRequests<S, A, R>(f: Handler<S, A, R>, s0: S, s: Sys<S, A, R>, ts: seq<Step<A>>, c: nat)
    requires Initial(s, s0) && RunOk(f, s, ts) && c in Final(f, s, ts).pc
    ensures var z := Final(f, s, ts);
            && Faithful(f, s0, z.log) && IsClient(z, c)
            && var mine := Of(z.log, c);
               && |z.answered[c]| <= |mine| <= |z.asked[c]| <= |z.answered[c]| + 1
               && (forall k | 0 <= k < |z.answered[c]| :: mine[k].ask == z.asked[c][k] && z.answered[c][k] == mine[k].r)
  {
    assert Inv(f, s0, s);
    RunInv(f, s0, s, ts);
    var z := Final(f, s, ts);
    assert ClientInv(z, c);
    var mine := Of(z.log, c);
    assert Asks(mine) <= z.asked[c] && z.answered[c] <= Results(mine);
    assert |Asks(mine)| == |mine| == |Results(mine)|;
    forall k | 0 <= k < |z.answered[c]| ensures mine[k].ask == z.asked[c][k] && z.answered[c][k] == mine[k].r {
      assert Asks(mine)[k] == mine[k].ask && Results(mine)[k] == mine[k].r;
    }
  }

  /** The assertion in fsipc never fails: what a client collects comes from the
      server. */
  lemma CollectsFromServer<S, A, R>(f: Handler<S, A, R>, s0: S, s: Sys<S, A, R>, ts: seq<Step<A>>, c: nat)
    requires Initial(s, s0) && RunOk(f, s, ts) && Enabled(Final(f, s, ts), Collect(c))
    ensures Final(f, s, ts).box[c].from == SERVER
  {
    assert Inv(f, s0, s);
    RunInv(f, s0, s, ts);
    assert ClientInv(Final(f, s, ts), c);
  }

  /** When the server serves a request, the argument page still holds what the
      client asked with, and the code is the one asked. */
  lemma ArgumentStands<S, A, R>(f: Handler<S, A, R>, s0: S, s: Sys<S, A, R>, ts: seq<Step<A>>)
    requires Initial(s, s0) && RunOk(f, s, ts) && Enabled(Final(f, s, ts), Serve)
    ensures var z := Final(f, s, ts);
            var c := z.srv.whom;
            IsClient(z, c) && z.asked[c] != [] && z.asked[c][|z.asked[c]| - 1] == Ask(z.srv.code, z.buf[c]) &&
            |Of(z.log, c)| == |z.asked[c]| - 1
  {
    assert Inv(f, s0, s);
    RunInv(f, s0, s, ts);
    assert ClientInv(Final(f, s, ts), Final(f, s, ts).srv.whom);
  }

  // ------------------------------------------------- one request, all the way round

  lemma RunStep<S, A, R>(f: Handler<S, A, R>, s: Sys<S, A, R>, t: Step<A>, ts: seq<Step<A>>)
    requires Enabled(s, t) && RunOk(f, Next(f, s, t), ts)
    ensures RunOk(f, s, [t] + ts) && Final(f, s, [t] + ts) == Final(f, Next(f, s, t), ts)
  {
    assert ([t] + ts)[1..] == ts;
    hide Enabled, Next;
  }

  lemma RunNone<S, A, R>(f: Handler<S, A, R>, s: Sys<S, A, R>)
    ensures RunOk(f, s, []) && Final(f, s, []) == s
  {
  }

  /** The client's half: the request reaches the server's box and the client waits. */
  function Asked<S, A, R>(s: Sys<S, A, R>, c: nat, code: nat, arg: A): Sys<S, A, R>
    requires IsClient(s, c)
  {
    s.(pc := s.pc[c := Awaiting], box := s.box[c := Open], buf := s.buf[c := arg], srv := Ready,
       srvBox := Full(c, code), asked := s.asked[c := s.asked[c] + [Ask(code, arg)]])
  }

  lemma AskRuns<S, A, R>(f: Handler<S, A, R>, s: Sys<S, A, R>, c: nat, code: nat, arg: A, ts: seq<Step<A>>)
    requires IsClient(s, c) && s.pc[c] == Thinking && s.srv == Resting && RunOk(f, Asked(s, c, code, arg), ts)
    ensures var us := [ServerRecv] + ([Fill(c, code, arg)] + ([TrySend(c)] + ([CallRecv(c)] + ts)));
            RunOk(f, s, us) && Final(f, s, us) == Final(f, Asked(s, c, code, arg), ts)
  {
    var s1 := Next(f, s, ServerRecv);
    var s2 := Next(f, s1, Fill(c, code, arg));
    var s3 := Next(f, s2, TrySend(c));
    assert Next(f, s3, CallRecv(c)).pc == Asked(s, c, code, arg).pc;
    assert Next(f, s3, CallRecv(c)) == Asked(s, c, code, arg);
    hide RunOk, Final;
    RunStep(f, s3, CallRecv(c), ts);
    RunStep(f, s2, TrySend(c), [CallRecv(c)] + ts);
    RunStep(f, s1, Fill(c, code, arg), [TrySend(c)] + ([CallRecv(c)] + ts));
    RunStep(f, s, ServerRecv, [Fill(c, code, arg)] + ([TrySend(c)] + ([CallRecv(c)] + ts)));
  }

  /** A request made while the server is free is carried out and answered: the server's
      state changes as the handler says, the client has its result, and both are as
      free as before. */
  lemma RequestRuns<S, A, R>(f: Handler<S, A, R>, s: Sys<S, A, R>, c: nat, code: nat, arg: A) returns (ts: seq<Step<A>>)
    requires IsClient(s, c) && s.pc[c] == Thinking && s.box[c] == Closed && s.srv == Resting && s.srvBox == Closed
    ensures RunOk(f, s, ts)
    ensures var z, (state, r) := Final(f, s, ts), f(s.state, code, arg);
            && z.state == state && z.answered == s.answered[c := s.answered[c] + [r]]
            && z.asked == s.asked[c := s.asked[c] + [Ask(code, arg)]] && z.log == s.log + [Served(c, Ask(code, arg), r)]
            && z.pc == s.pc && z.box == s.box && z.srv == Resting && z.srvBox == Closed && z.buf == s.buf[c := arg]
  {
    var q := Asked(s, c, code, arg);
    var s1 := Next(f, q, ServerTake);
    var s2 := Next(f, s1, Serve);
    var s3 := Next(f, s2, TryReply);
    var z := Next(f, s3, Collect(c));
    assert z.pc == s.pc && z.box == s.box;
    RunNone(f, z);
    RunStep(f, s3, Collect(c), []);
    RunStep(f, s2, TryReply, [Collect(c)] + []);
    RunStep(f, s1, Serve, [TryReply] + ([Collect(c)] + []));
    var us := [ServerTake] + ([Serve] + ([TryReply] + ([Collect(c)] + [])));
    RunStep(f, q, ServerTake, [Serve] + ([TryReply] + ([Collect(c)] + [])));
    hide RunOk, Final;
    AskRuns(f, s, c, code, arg, us);
    ts := [ServerRecv] + ([Fill(c, code, arg)] + ([TrySend(c)] + ([CallRecv(c)] + us)));
  }
}
