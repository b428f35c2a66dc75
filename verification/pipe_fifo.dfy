/** The pipe's ring buffer, with one reader and one writer interleaved at every
    access to the shared page. Positions are 32-bit. */
module PipeFifo {
  import opened Wrappers

  const BY2PIPE: nat := 32
  const U32: nat := 0x1_0000_0000

  type Ring = b: seq<byte> | |b| == BY2PIPE witness seq(BY2PIPE, _ => 0)

  /** piperead(n) after copying `got`; `Take` has passed the emptiness test, and
      `Took` has read the byte but not yet moved p_rpos. */
  datatype Reader =
    | RIdle
    | RTest(n: nat, got: seq<byte>)
    | REmpty(n: nat, got: seq<byte>)
    | Take(n: nat, got: seq<byte>)
    | Took(n: nat, got: seq<byte>, x: byte)

  /** pipewrite(data) after copying i bytes. */
  datatype Writer =
    | WIdle
    | WTest(data: seq<byte>, i: nat)
    | WFull(data: seq<byte>, i: nat)
    | Put(data: seq<byte>, i: nat)
    | Stored(data: seq<byte>, i: nat)

  /** `returned` lists what each finished read returned; `accepted` lists the
      bytes each finished write put into the pipe, all of its data unless it
      gave up on a closed pipe; `results` what the writes returned. */
  datatype Pipe = Pipe(rpos: nat, wpos: nat, buf: Ring, reader: Reader, writer: Writer,
                       returned: seq<seq<byte>>, accepted: seq<seq<byte>>, results: seq<nat>)

  datatype Step =
    | Read(n: nat)
    | Write(data: seq<byte>)
    | ReaderStep(closed: bool)
    | WriterStep(closed: bool)

  predicate Enabled(p: Pipe, t: Step) {
    match t
    case Read(_) => p.reader == RIdle
    case Write(_) => p.writer == WIdle
    case ReaderStep(_) => p.reader != RIdle
    case WriterStep(_) => p.writer != WIdle
  }

  function ReadLoop(p: Pipe, n: nat, got: seq<byte>): Pipe {
    if |got| < n then p.(reader := RTest(n, got)) else ReadDone(p, got)
  }

  function ReadDone(p: Pipe, got: seq<byte>): Pipe {
    p.(reader := RIdle, returned := p.returned + [got])
  }

  function WriteLoop(p: Pipe, data: seq<byte>, i: nat): Pipe
    requires i <= |data|
  {
    if i < |data| then p.(writer := WTest(data, i)) else WriteDone(p, data, |data|)
  }

  function WriteDone(p: Pipe, put: seq<byte>, r: nat): Pipe {
    p.(writer := WIdle, accepted := p.accepted + [put], results := p.results + [r])
  }

  predicate LooksEmpty(p: Pipe) {
    p.rpos >= p.wpos
  }

  predicate LooksFull(p: Pipe) {
    (p.rpos + BY2PIPE) % U32 <= p.wpos
  }

  /** One access of the reader. `closed` is what `_pipeisclosed` answers if this
      step asks it. */
  function ReaderNext(p: Pipe, closed: bool): Pipe {
    match p.reader
    case RIdle => p
    case RTest(n, got) => if LooksEmpty(p) then p.(reader := REmpty(n, got)) else p.(reader := Take(n, got))
    case REmpty(n, got) =>
      if closed then ReadDone(p, got)
      else if got == [] then p.(reader := RTest(n, got))
      else ReadDone(p, got)
    case Take(n, got) => p.(reader := Took(n, got, p.buf[p.rpos % BY2PIPE]))
    case Took(n, got, x) => ReadLoop(p.(rpos := (p.rpos + 1) % U32), n, got + [x])
  }

  function WriterNext(p: Pipe, closed: bool): Pipe {
    match p.writer
    case WIdle => p
    case WTest(data, i) => if LooksFull(p) then p.(writer := WFull(data, i)) else p.(writer := Put(data, i))
    case WFull(data, i) =>
      if closed then WriteDone(p, if i <= |data| then data[..i] else data, 0) else p.(writer := WTest(data, i))
    case Put(data, i) =>
      if i < |data| then p.(buf := p.buf[p.wpos % BY2PIPE := data[i]], writer := Stored(data, i)) else p
    case Stored(data, i) =>
      if i < |data| then WriteLoop(p.(wpos := (p.wpos + 1) % U32), data, i + 1) else p
  }

  function Next(p: Pipe, t: Step): Pipe
    requires Enabled(p, t)
  {
    match t
    case Read(n) => ReadLoop(p, n, [])
    case Write(data) => WriteLoop(p, data, 0)
    case ReaderStep(closed) => ReaderNext(p, closed)
    case WriterStep(closed) => WriterNext(p, closed)
  }

  // ---------------------------------------------------------------- invariant

  function Flat(ss: seq<seq<byte>>): seq<byte> {
    if ss == [] then [] else Flat(ss[..|ss| - 1]) + ss[|ss| - 1]
  }

  lemma FlatSnoc(ss: seq<seq<byte>>, s: seq<byte>)
    ensures Flat(ss + [s]) == Flat(ss) + s
  {
    assert (ss + [s])[..|ss|] == ss;
  }

  /** Everything reads have taken out so far, in order. */
  function Received(p: Pipe): seq<byte> {
    Flat(p.returned) + if p.reader == RIdle then [] else p.reader.got
  }

  /** Everything writes have published so far, in order. */
  function Sent(p: Pipe): seq<byte> {
    Flat(p.accepted) +
    if p.writer == WIdle then [] else if p.writer.i <= |p.writer.data| then p.writer.data[..p.writer.i] else []
  }

  ghost predicate RingInv(p: Pipe, sent: seq<byte>, received: seq<byte>) {
    p.rpos == |received| && p.wpos == |sent| && p.rpos <= p.wpos < U32 &&
    received == sent[..p.rpos] &&
    p.wpos - p.rpos <= BY2PIPE &&
    (forall k | p.rpos <= k < p.wpos :: p.buf[k % BY2PIPE] == sent[k]) &&
    (p.reader != RIdle ==> |p.reader.got| < p.reader.n) &&
    (p.reader.Take? || p.reader.Took? ==> p.rpos < p.wpos) &&
    (p.reader.Took? ==> p.reader.x == sent[p.rpos]) &&
    (p.writer != WIdle ==> p.writer.i < |p.writer.data|) &&
    (p.writer.Put? || p.writer.Stored? ==> p.wpos < p.rpos + BY2PIPE && p.wpos + 1 < U32) &&
    (p.writer.Stored? ==> p.buf[p.wpos % BY2PIPE] == p.writer.data[p.writer.i])
  }

  ghost predicate Inv(p: Pipe) {
    RingInv(p, Sent(p), Received(p))
  }

  function EmptyRing(): Ring {
    seq(BY2PIPE, _ => 0)
  }

  function NewPipe(): Pipe {
    Pipe(0, 0, EmptyRing(), RIdle, WIdle, [], [], [])
  }

  /** Among a full ring of consecutive positions no two share a cell. */
  lemma CellsDiffer(a: nat, b: nat)
    requires a < b < a + BY2PIPE
    ensures a % BY2PIPE != b % BY2PIPE
  {
  }

  /** The bytes a step adds to what was received, and to what was sent. */
  function Taken(p: Pipe): seq<byte> {
    if p.reader.Took? then [p.reader.x] else []
  }

  function Published(p: Pipe): seq<byte> {
    if p.writer.Stored? && p.writer.i < |p.writer.data| then [p.writer.data[p.writer.i]] else []
  }

  lemma ReaderRing(p: Pipe, closed: bool, sent: seq<byte>, received: seq<byte>)
    requires RingInv(p, sent, received) && p.reader != RIdle
    ensures RingInv(ReaderNext(p, closed), sent, received + Taken(p))
  {
  }

  /** The store goes to a cell that no unread byte is in. */
  lemma PutRing(p: Pipe, sent: seq<byte>, received: seq<byte>)
    requires RingInv(p, sent, received) && p.writer.Put? && p.writer.i < |p.writer.data|
    ensures var data, i := p.writer.data, p.writer.i;
            RingInv(p.(buf := p.buf[p.wpos % BY2PIPE := data[i]], writer := Stored(data, i)), sent, received)
  {
    forall k | p.rpos <= k < p.wpos ensures k % BY2PIPE != p.wpos % BY2PIPE {
      CellsDiffer(k, p.wpos);
    }
  }

  /** Moving p_wpos makes the byte stored the last one unread. */
  lemma PublishRing(p: Pipe, sent: seq<byte>, received: seq<byte>)
    requires RingInv(p, sent, received) && p.writer.Stored? && p.writer.i < |p.writer.data|
    ensures RingInv(WriteLoop(p.(wpos := (p.wpos + 1) % U32), p.writer.data, p.writer.i + 1),
                    sent + [p.writer.data[p.writer.i]], received)
  {
  }

  lemma WriterRing(p: Pipe, closed: bool, sent: seq<byte>, received: seq<byte>)
    requires RingInv(p, sent, received) && p.writer != WIdle
    ensures RingInv(WriterNext(p, closed), sent + Published(p), received)
  {
    if p.writer.Put? {
      PutRing(p, sent, received);
    } else if p.writer.Stored? {
      PublishRing(p, sent, received);
    } else {
      assert sent + [] == sent;
    }
  }

  lemma ReceivedGrows(p: Pipe, closed: bool)
    requires p.reader != RIdle && |p.reader.got| < p.reader.n
    ensures Received(ReaderNext(p, closed)) == Received(p) + Taken(p) && Sent(ReaderNext(p, closed)) == Sent(p)
  {
    var got, t := p.reader.got, Taken(p);
    FlatSnoc(p.returned, got + t);
    assert Flat(p.returned) + (got + t) == Flat(p.returned) + got + t;
    assert got + [] == got;
    hide Flat;
  }

  lemma ReaderInv(p: Pipe, closed: bool)
    requires Inv(p) && p.reader != RIdle
    ensures Inv(ReaderNext(p, closed)) && Sent(ReaderNext(p, closed)) == Sent(p)
  {
    ReaderRing(p, closed, Sent(p), Received(p));
    ReceivedGrows(p, closed);
    hide ReaderNext, Sent, Received;
  }

  lemma Assoc(a: seq<byte>, b: seq<byte>, c: seq<byte>)
    ensures a + (b + c) == a + b + c && a + [] == a
  {
  }

  lemma SentGrows(p: Pipe, closed: bool)
    requires p.writer != WIdle && p.writer.i < |p.writer.data|
    ensures Sent(WriterNext(p, closed)) == Sent(p) + Published(p)
  {
    if p.writer.Stored? {
      StoredGrows(p);
    } else {
      FlatSnoc(p.accepted, p.writer.data[..p.writer.i]);
      Assoc(Sent(p), [], []);
    }
    hide Flat;
  }

  lemma StoredGrows(p: Pipe)
    requires p.writer.Stored? && p.writer.i < |p.writer.data|
    ensures Sent(WriterNext(p, false)) == Sent(WriterNext(p, true)) == Sent(p) + [p.writer.data[p.writer.i]]
  {
    var data, i := p.writer.data, p.writer.i;
    FlatSnoc(p.accepted, data);
    assert data[..i + 1] == data[..i] + [data[i]];
    Assoc(Flat(p.accepted), data[..i], [data[i]]);
    if i + 1 == |data| {
      assert data[..i + 1] == data;
    }
    hide Flat;
  }

  lemma WriterInv(p: Pipe, closed: bool)
    requires Inv(p) && p.writer != WIdle
    ensures Inv(WriterNext(p, closed)) && Received(WriterNext(p, closed)) == Received(p)
  {
    WriterRing(p, closed, Sent(p), Received(p));
    SentGrows(p, closed);
  }

  /** Beginning a call moves no byte. */
  lemma CallKeeps(p: Pipe, t: Step)
    requires Enabled(p, t) && (t.Read? || t.Write?)
    ensures Sent(Next(p, t)) == Sent(p) && Received(Next(p, t)) == Received(p)
  {
    FlatSnoc(p.returned, []);
    FlatSnoc(p.accepted, []);
    assert t.Write? && t.data == [] ==> t.data[..0] == t.data;
  }

  lemma NextInv(p: Pipe, t: Step)
    requires Inv(p) && Enabled(p, t)
    ensures Inv(Next(p, t))
  {
    match t
    case ReaderStep(closed) => ReaderInv(p, closed);
    case WriterStep(closed) => WriterInv(p, closed);
    case Read(_) => CallKeeps(p, t);
    case Write(_) => CallKeeps(p, t);
  }

  // ---------------------------------------------------------------- whole runs

  ghost predicate RunOk(p: Pipe, ts: seq<Step>)
    decreases |ts|
  {
    ts != [] ==> Enabled(p, ts[0]) && RunOk(Next(p, ts[0]), ts[1..])
  }

  ghost function Final(p: Pipe, ts: seq<Step>): Pipe
    requires RunOk(p, ts)
    decreases |ts|
  {
    if ts == [] then p else Final(Next(p, ts[0]), ts[1..])
  }

  lemma {:induction false} RunInv(p: Pipe, ts: seq<Step>)
    requires Inv(p) && RunOk(p, ts)
    ensures Inv(Final(p, ts))
    decreases |ts|
  {
    if ts != [] {
      NextInv(p, ts[0]);
      RunInv(Next(p, ts[0]), ts[1..]);
    }
  }

  /** In every interleaving, and in spite of the 32-bit positions: what the reads
      return is a prefix of what the writes put in, at most BY2PIPE bytes
      behind, and the ring holds exactly the bytes in between. */
  lemma PipeIsFifo(ts: seq<Step>)
    requires RunOk(NewPipe(), ts)
    ensures var p := Final(NewPipe(), ts);
            && Received(p) <= Sent(p) && 0 <= |Sent(p)| - |Received(p)| <= BY2PIPE
            && p.rpos == |Received(p)| && p.wpos == |Sent(p)|
            && forall k | |Received(p)| <= k < |Sent(p)| :: p.buf[k % BY2PIPE] == Sent(p)[k]
  {
    assert Inv(NewPipe());
    RunInv(NewPipe(), ts);
  }

  /** The test for a full pipe is right exactly while fewer than 2^32 - 32 bytes
      have been read; from then on it calls every pipe full. */
  lemma FullTestIsRight(p: Pipe)
    requires Inv(p)
    ensures LooksFull(p) <==> |Sent(p)| - |Received(p)| == BY2PIPE || |Received(p)| >= U32 - BY2PIPE
    ensures LooksEmpty(p) <==> |Sent(p)| == |Received(p)|
  {
  }

  /** So a pipe dies: once 2^32 - 32 bytes have been read, no write that has not
      already passed the test ever puts another byte in. */
  lemma {:induction false} PipeWearsOut(p: Pipe, ts: seq<Step>)
    requires Inv(p) && RunOk(p, ts)
    requires |Received(p)| >= U32 - BY2PIPE && !p.writer.Put? && !p.writer.Stored?
    ensures Sent(Final(p, ts)) == Sent(p)
    decreases |ts|
  {
    if ts != [] {
      var q := Next(p, ts[0]);
      NextInv(p, ts[0]);
      WornStep(p, ts[0]);
      PipeWearsOut(q, ts[1..]);
    }
  }

  lemma WornWriter(p: Pipe, closed: bool)
    requires Inv(p) && p.writer != WIdle
    requires p.rpos >= U32 - BY2PIPE && !p.writer.Put? && !p.writer.Stored?
    ensures var q := WriterNext(p, closed);
            Sent(q) == Sent(p) && q.rpos == p.rpos && !q.writer.Put? && !q.writer.Stored?
  {
    FullTestIsRight(p);
    SentGrows(p, closed);
  }

  lemma WornReader(p: Pipe, closed: bool)
    requires Inv(p) && p.reader != RIdle
    ensures var q := ReaderNext(p, closed); Sent(q) == Sent(p) && q.rpos >= p.rpos && q.writer == p.writer
  {
    ReaderInv(p, closed);
  }

  lemma WornStep(p: Pipe, t: Step)
    requires Inv(p) && Enabled(p, t)
    requires p.rpos >= U32 - BY2PIPE && !p.writer.Put? && !p.writer.Stored?
    ensures var q := Next(p, t);
            Sent(q) == Sent(p) && q.rpos >= p.rpos && !q.writer.Put? && !q.writer.Stored?
  {
    hide Inv;
    match t
    case Read(_) =>
      CallKeeps(p, t);
    case ReaderStep(closed) =>
      WornReader(p, closed);
    case Write(_) =>
      CallKeeps(p, t);
    case WriterStep(closed) =>
      WornWriter(p, closed);
  }

  // ------------------------------------------------------- when the calls return

  /** How a read ended: what was asked and what came; whether, the last time it tested,
      every byte sent had been received; and whether a closed test after that said yes. */
  datatype ReadReport = ReadReport(n: nat, bytes: seq<byte>, empty: bool, closed: bool)

  /** How a write ended: what was given, what went in, and the result; whether, the
      last time it tested, the pipe had no room, and whether it was then told closed. */
  datatype WriteReport = WriteReport(data: seq<byte>, put: seq<byte>, r: nat, full: bool, closed: bool)

  /** All bytes sent have been received; and there is no room, or the positions are used up. */
  predicate Drained(p: Pipe) {
    |Sent(p)| == |Received(p)|
  }

  predicate NoRoom(p: Pipe) {
    |Sent(p)| - |Received(p)| == BY2PIPE || |Received(p)| >= U32 - BY2PIPE
  }

  /** A read returns all it was asked for; or less, and then it had received every byte
      sent; and nothing at all only if it was told that the other end is closed. */
  predicate ReadFair(r: ReadReport) {
    |r.bytes| == r.n || (|r.bytes| < r.n && r.empty && (r.bytes == [] ==> r.closed))
  }

  /** A write puts in all it was given and returns its length; or it was told, at a full
      pipe, that the other end is closed, and returns 0. */
  predicate WriteFair(r: WriteReport) {
    (r.put == r.data && r.r == |r.data|) || (r.put < r.data && r.r == 0 && r.full && r.closed)
  }

  /** The pipe with an eye on the reads: what is asked, what the state is when a read
      tests it, what closed tests say, and what each read that returns has done. */
  datatype ReadWatch = ReadWatch(p: Pipe, n: nat, empty: bool, log: seq<ReadReport>)

  function WatchRead(w: ReadWatch, t: Step): ReadWatch
    requires Enabled(w.p, t)
  {
    var q := Next(w.p, t);
    var n := if t.Read? then t.n else w.n;
    var empty := if t.ReaderStep? && w.p.reader.RTest? then Drained(w.p) else w.empty;
    var told := t.ReaderStep? && t.closed && w.p.reader.REmpty?;
    ReadWatch(q, n, empty,
              if |q.returned| > |w.p.returned| then w.log + [ReadReport(n, q.returned[|q.returned| - 1], empty, told)]
              else w.log)
  }

  datatype WriteWatch = WriteWatch(p: Pipe, data: seq<byte>, full: bool, log: seq<WriteReport>)

  function WatchWrite(w: WriteWatch, t: Step): WriteWatch
    requires Enabled(w.p, t)
  {
    var q := Next(w.p, t);
    var data := if t.Write? then t.data else w.data;
    var full := if t.WriterStep? && w.p.writer.WTest? then NoRoom(w.p) else w.full;
    var told := t.WriterStep? && t.closed && w.p.writer.WFull?;
    WriteWatch(q, data, full,
               if |q.accepted| > |w.p.accepted| && |q.results| > 0
               then w.log + [WriteReport(data, q.accepted[|q.accepted| - 1], q.results[|q.results| - 1], full, told)]
               else w.log)
  }

  ghost predicate ReadInv(w: ReadWatch) {
    Inv(w.p) && (w.p.reader != RIdle ==> w.p.reader.n == w.n) && (w.p.reader.REmpty? ==> w.empty) &&
    ReadLog(w.log, w.p.returned)
  }

  predicate ReadLog(log: seq<ReadReport>, returned: seq<seq<byte>>) {
    |log| == |returned| && forall k | 0 <= k < |log| :: ReadFair(log[k]) && log[k].bytes == returned[k]
  }

  ghost predicate WriteInv(w: WriteWatch) {
    Inv(w.p) && (w.p.writer != WIdle ==> w.p.writer.data == w.data) && (w.p.writer.WFull? ==> w.full) &&
    WriteLog(w.log, w.p.accepted, w.p.results)
  }

  predicate WriteLog(log: seq<WriteReport>, accepted: seq<seq<byte>>, results: seq<nat>) {
    |log| == |accepted| == |results| &&
    forall k | 0 <= k < |log| :: WriteFair(log[k]) && log[k].put == accepted[k] && log[k].r == results[k]
  }

  /** A step goes on with the read, or ends it fairly. */
  lemma ReaderEnds(p: Pipe, t: Step)
    requires Enabled(p, t) && (p.reader != RIdle ==> |p.reader.got| < p.reader.n)
    ensures var q, n := Next(p, t), if t.Read? then t.n else if p.reader != RIdle then p.reader.n else 0;
            if |q.returned| == |p.returned| then
              q.returned == p.returned && (q.reader != RIdle ==> (t.Read? || p.reader != RIdle) && q.reader.n == n) &&
              (q.reader.REmpty? ==> if t.ReaderStep? then p.reader.RTest? && LooksEmpty(p) else p.reader.REmpty?)
            else
              && q.reader == RIdle && |q.returned| == |p.returned| + 1 && q.returned[..|p.returned|] == p.returned
              && (t.Read? || p.reader != RIdle)
              && var b := q.returned[|p.returned|];
                 |b| == n || (t.ReaderStep? && p.reader.REmpty? && |b| < n && (b == [] ==> t.closed))
  {
  }

  lemma WriterEnds(p: Pipe, t: Step)
    requires Enabled(p, t) && (p.writer != WIdle ==> p.writer.i < |p.writer.data|) && |p.accepted| == |p.results|
    ensures var q, data := Next(p, t), if t.Write? then t.data else if p.writer != WIdle then p.writer.data else [];
            && |q.accepted| == |q.results|
            && if |q.accepted| == |p.accepted| then
                 q.accepted == p.accepted && q.results == p.results &&
                 (q.writer != WIdle ==> (t.Write? || p.writer != WIdle) && q.writer.data == data) &&
                 (q.writer.WFull? ==> if t.WriterStep? then p.writer.WTest? && LooksFull(p) else p.writer.WFull?)
               else
                 && q.writer == WIdle && |q.accepted| == |p.accepted| + 1 && (t.Write? || p.writer != WIdle)
                 && q.accepted[..|p.accepted|] == p.accepted && q.results[..|p.results|] == p.results
                 && var b, r := q.accepted[|p.accepted|], q.results[|p.results|];
                    (b == data && r == |b|) || (t.WriterStep? && p.writer.WFull? && b < data && r == 0 && t.closed)
  {
  }

  lemma ReadSnoc(log: seq<ReadReport>, was: seq<seq<byte>>, now: seq<seq<byte>>, r: ReadReport)
    requires ReadLog(log, was) && |now| == |was| + 1 && now[..|was|] == was && ReadFair(r) && r.bytes == now[|was|]
    ensures ReadLog(log + [r], now)
  {
    assert forall k | 0 <= k < |was| :: now[k] == now[..|was|][k];
  }

  lemma WriteSnoc(log: seq<WriteReport>, was: seq<seq<byte>>, now: seq<seq<byte>>, rs: seq<nat>, rs': seq<nat>,
                  r: WriteReport)
    requires WriteLog(log, was, rs) && |now| == |was| + 1 == |rs'| && now[..|was|] == was && rs'[..|rs|] == rs
    requires WriteFair(r) && r.put == now[|was|] && r.r == rs'[|rs|]
    ensures WriteLog(log + [r], now, rs')
  {
    assert forall k | 0 <= k < |was| :: now[k] == now[..|was|][k] && rs'[k] == rs'[..|rs|][k];
  }

  lemma ReadWatched(w: ReadWatch, t: Step)
    requires ReadInv(w) && Enabled(w.p, t)
    ensures ReadInv(WatchRead(w, t))
  {
    assert w.p.reader != RIdle ==> |w.p.reader.got| < w.p.reader.n;
    NextInv(w.p, t);
    ReaderEnds(w.p, t);
    FullTestIsRight(w.p);
    assert Drained(w.p) <==> LooksEmpty(w.p);
    var v := WatchRead(w, t);
    hide Inv, Next, Drained, LooksEmpty, Enabled, ReadLog;
    if |v.p.returned| > |w.p.returned| {
      ReadSnoc(w.log, w.p.returned, v.p.returned, v.log[|v.log| - 1]);
    }
  }

  lemma WriteWatched(w: WriteWatch, t: Step)
    requires WriteInv(w) && Enabled(w.p, t)
    ensures WriteInv(WatchWrite(w, t))
  {
    assert w.p.writer != WIdle ==> w.p.writer.i < |w.p.writer.data|;
    NextInv(w.p, t);
    WriterEnds(w.p, t);
    FullTestIsRight(w.p);
    assert NoRoom(w.p) <==> LooksFull(w.p);
    var v := WatchWrite(w, t);
    assert |w.log| == |w.p.accepted| == |w.p.results|;
    hide Inv, Next, NoRoom, LooksFull, Enabled, WriteLog;
    if |v.p.accepted| > |w.p.accepted| {
      WriteSnoc(w.log, w.p.accepted, v.p.accepted, w.p.results, v.p.results, v.log[|v.log| - 1]);
    }
  }

  ghost function ReadRun(w: ReadWatch, ts: seq<Step>): ReadWatch
    requires RunOk(w.p, ts)
    decreases |ts|
  {
    if ts == [] then w else ReadRun(WatchRead(w, ts[0]), ts[1..])
  }

  ghost function WriteRun(w: WriteWatch, ts: seq<Step>): WriteWatch
    requires RunOk(w.p, ts)
    decreases |ts|
  {
    if ts == [] then w else WriteRun(WatchWrite(w, ts[0]), ts[1..])
  }

  lemma {:induction false} ReadsWatched(w: ReadWatch, ts: seq<Step>)
    requires ReadInv(w) && RunOk(w.p, ts)
    ensures ReadInv(ReadRun(w, ts)) && ReadRun(w, ts).p == Final(w.p, ts)
    decreases |ts|
  {
    hide ReadInv;
    if ts != [] {
      ReadWatched(w, ts[0]);
      ReadsWatched(WatchRead(w, ts[0]), ts[1..]);
    }
  }

  lemma {:induction false} WritesWatched(w: WriteWatch, ts: seq<Step>)
    requires WriteInv(w) && RunOk(w.p, ts)
    ensures WriteInv(WriteRun(w, ts)) && WriteRun(w, ts).p == Final(w.p, ts)
    decreases |ts|
  {
    hide WriteInv;
    if ts != [] {
      WriteWatched(w, ts[0]);
      WritesWatched(WatchWrite(w, ts[0]), ts[1..]);
    }
  }

  /** In every interleaving of reads, writes and closed tests, every call that has
      returned has done so for one of these reasons. */
  lemma CallsAreFair(ts: seq<Step>)
    requires RunOk(NewPipe(), ts)
    ensures var w := ReadRun(ReadWatch(NewPipe(), 0, false, []), ts);
            w.p == Final(NewPipe(), ts) && ReadLog(w.log, w.p.returned)
    ensures var w := WriteRun(WriteWatch(NewPipe(), [], false, []), ts);
            w.p == Final(NewPipe(), ts) && WriteLog(w.log, w.p.accepted, w.p.results)
  {
    assert Inv(NewPipe());
    ReadsWatched(ReadWatch(NewPipe(), 0, false, []), ts);
    WritesWatched(WriteWatch(NewPipe(), [], false, []), ts);
    hide Inv, ReadFair, WriteFair;
  }

  // ------------------------------------------------------- calls without interference

  lemma {:induction false} RunMore(p: Pipe, ts: seq<Step>, us: seq<Step>)
    requires RunOk(p, ts) && RunOk(Final(p, ts), us)
    ensures RunOk(p, ts + us) && Final(p, ts + us) == Final(Final(p, ts), us)
    decreases |ts|
  {
    hide Enabled, Next;
    if ts == [] {
      assert ts + us == us;
    } else {
      assert (ts + us)[1..] == ts[1..] + us;
      RunMore(Next(p, ts[0]), ts[1..], us);
    }
  }

  lemma RunOne(p: Pipe, t: Step)
    requires Enabled(p, t)
    ensures RunOk(p, [t]) && Final(p, [t]) == Next(p, t)
  {
    assert [t][1..] == [] && RunOk(Next(p, t), []);
    hide Enabled, Next;
  }

  lemma RunTwo(p: Pipe, t: Step, u: Step)
    requires Enabled(p, t) && Enabled(Next(p, t), u)
    ensures RunOk(p, [t, u]) && Final(p, [t, u]) == Next(Next(p, t), u)
  {
    RunOne(p, t);
    RunOne(Next(p, t), u);
    RunMore(p, [t], [u]);
    assert [t] + [u] == [t, u];
    hide Enabled, Next;
  }

  function Less(a: nat, b: nat): nat {
    if a < b then a else b
  }

  /** The three steps of the loop that take a byte out. */
  lemma ReadByte(p: Pipe) returns (ts: seq<Step>)
    requires Inv(p) && p.reader.RTest? && p.rpos < p.wpos
    ensures RunOk(p, ts) && Inv(Final(p, ts)) && Sent(Final(p, ts)) == Sent(p) && p.rpos < |Sent(p)|
    ensures Final(p, ts) == ReadLoop(p.(rpos := p.rpos + 1), p.reader.n, p.reader.got + [Sent(p)[p.rpos]])
  {
    var t := ReaderStep(false);
    ts := [t, t] + [t];
    assert p.buf[p.rpos % BY2PIPE] == Sent(p)[p.rpos];
    assert Sent(ReadLoop(p.(rpos := p.rpos + 1), p.reader.n, p.reader.got + [Sent(p)[p.rpos]])) == Sent(p);
    hide Inv, Sent;
    RunTwo(p, t, t);
    var q := Final(p, [t, t]);
    RunOne(q, t);
    RunMore(p, [t, t], [t]);
    RunInv(p, ts);
  }

  lemma CutOne(was: seq<byte>, s: seq<byte>, a: nat, m: nat)
    requires 0 < m && a + m <= |s|
    ensures was + [s[a]] + s[a + 1..a + m] == was + s[a..a + m]
  {
  }

  /** A reader at its test after m more bytes. */
  function AfterReading(p: Pipe, m: nat): Pipe
    requires p.reader.RTest? && p.rpos + m <= |Sent(p)|
  {
    ReadLoop(p.(rpos := p.rpos + m), p.reader.n, p.reader.got + Sent(p)[p.rpos..p.rpos + m])
  }

  /** How many it can take now. */
  function Takes(p: Pipe): int
    requires p.reader.RTest?
  {
    if p.reader.n - |p.reader.got| < p.wpos - p.rpos then p.reader.n - |p.reader.got| else p.wpos - p.rpos
  }

  lemma ReadNone(p: Pipe)
    requires Inv(p) && p.reader.RTest?
    ensures p.rpos <= p.wpos == |Sent(p)| && |p.reader.got| < p.reader.n && AfterReading(p, 0) == p
  {
    assert p.reader.got + Sent(p)[p.rpos..p.rpos] == p.reader.got;
  }

  lemma ReadFirst(p: Pipe)
    requires Inv(p) && p.reader.RTest? && p.rpos < p.wpos
    ensures p.rpos < |Sent(p)| && 0 < Takes(p) && p.rpos + Takes(p) <= |Sent(p)|
    ensures var q := ReadLoop(p.(rpos := p.rpos + 1), p.reader.n, p.reader.got + [Sent(p)[p.rpos]]);
            && Sent(q) == Sent(p) && q.wpos - q.rpos == p.wpos - p.rpos - 1
            && if q.reader.RTest? then
                 Takes(q) == Takes(p) - 1 >= 0 && q.rpos + Takes(q) <= |Sent(q)| &&
                 AfterReading(q, Takes(q)) == AfterReading(p, Takes(p))
               else AfterReading(p, Takes(p)) == q
  {
    ReadNone(p);
    assert Sent(p)[p.rpos..p.rpos + 1] == [Sent(p)[p.rpos]];
    CutOne(p.reader.got, Sent(p), p.rpos, Takes(p));
  }

  /** The loop takes as many bytes as are there and are wanted. */
  lemma {:induction false} ReadBytes(p: Pipe) returns (ts: seq<Step>)
    requires Inv(p) && p.reader.RTest?
    ensures RunOk(p, ts) && 0 <= Takes(p) && p.rpos + Takes(p) <= |Sent(p)| && Final(p, ts) == AfterReading(p, Takes(p))
    decreases p.wpos - p.rpos
  {
    ReadNone(p);
    if p.rpos == p.wpos {
      ts := [];
      RunNone(p);
    } else {
      ReadFirst(p);
      hide *;
      ts := ReadByte(p);
      var q := Final(p, ts);
      if q.reader.RTest? {
        var us := ReadBytes(q);
        RunMore(p, ts, us);
        ts := ts + us;
      }
    }
  }

  lemma RunNone(p: Pipe)
    ensures RunOk(p, []) && Final(p, []) == p
  {
  }

  /** Two steps of a reader that has taken the last byte return what it got. */
  lemma DrainedReturns(q: Pipe, n: nat, got: seq<byte>)
    requires q.reader == RTest(n, got) && got != [] && q.rpos == q.wpos
    ensures var t := ReaderStep(false);
            RunOk(q, [t, t]) && Final(q, [t, t]) == q.(reader := RIdle, returned := q.returned + [got])
  {
    RunTwo(q, ReaderStep(false), ReaderStep(false));
  }

  /** A read that finds bytes returns as many as it was asked for, or all there are. */
  lemma ReadReturns(p: Pipe, n: nat) returns (ts: seq<Step>)
    requires Inv(p) && p.reader == RIdle && n > 0 && p.rpos < p.wpos
    ensures var m := Less(n, p.wpos - p.rpos);
            && RunOk(p, [Read(n)] + ts) && p.rpos + m <= |Sent(p)|
            && Final(p, [Read(n)] + ts) ==
               p.(rpos := p.rpos + m, returned := p.returned + [Sent(p)[p.rpos..p.rpos + m]])
  {
    var p1 := Next(p, Read(n));
    NextInv(p, Read(n));
    CallKeeps(p, Read(n));
    RunOne(p, Read(n));
    var m := Less(n, p.wpos - p.rpos);
    ts := ReadBytes(p1);
    var got := Sent(p)[p.rpos..p.rpos + m];
    assert [] + got == got;
    var q := Final(p1, ts);
    assert q == ReadLoop(p1.(rpos := p.rpos + m), n, got);
    hide Inv, Sent;
    RunMore(p, [Read(n)], ts);
    if m < n {
      var t := ReaderStep(false);
      DrainedReturns(q, n, got);
      hide Next, ReadLoop;
      RunMore(p, [Read(n)] + ts, [t, t]);
      assert [Read(n)] + ts + [t, t] == [Read(n)] + (ts + [t, t]);
      ts := ts + [t, t];
    }
  }

  /** A read of a pipe that holds nothing asks whether the other end is closed, and
      returns nothing, or tests again. */
  lemma ReadWaits(p: Pipe, n: nat, any: bool, closed: bool)
    requires Inv(p) && p.reader == RIdle && n > 0 && p.rpos == p.wpos
    ensures var ts := [Read(n)] + [ReaderStep(any), ReaderStep(closed)];
            && RunOk(p, ts)
            && Final(p, ts) == if closed then p.(returned := p.returned + [[]]) else p.(reader := RTest(n, []))
  {
    hide Inv;
    RunOne(p, Read(n));
    var p1 := Next(p, Read(n));
    RunTwo(p1, ReaderStep(any), ReaderStep(closed));
    RunMore(p, [Read(n)], [ReaderStep(any), ReaderStep(closed)]);
  }

  function Room(p: Pipe): int {
    BY2PIPE - (p.wpos - p.rpos)
  }

  /** The three steps of the loop that put a byte in. */
  lemma WriteByte(p: Pipe) returns (ts: seq<Step>)
    requires Inv(p) && p.writer.WTest? && Room(p) > 0 && p.rpos < U32 - BY2PIPE
    ensures RunOk(p, ts) && Inv(Final(p, ts))
    ensures HasPut(p, Final(p, ts), 1)
  {
    var t := WriterStep(false);
    ts := [t, t] + [t];
    var p1 := WriterNext(p, false);
    var p2 := WriterNext(p1, false);
    assert p1.writer.Put? && p2.writer.Stored?;
    SentGrows(p, false);
    SentGrows(p1, false);
    SentGrows(p2, false);
    assert Sent(p) + [] + [] == Sent(p);
    assert p.writer.data[p.writer.i..p.writer.i + 1] == [p.writer.data[p.writer.i]];
    hide Inv, Sent;
    RunTwo(p, t, t);
    RunOne(p2, t);
    RunMore(p, [t, t], [t]);
    RunInv(p, ts);
  }

  /** How many bytes it can put in now. */
  function Puts(p: Pipe): int
    requires p.writer.WTest?
  {
    if |p.writer.data| - p.writer.i < Room(p) then |p.writer.data| - p.writer.i else Room(p)
  }

  /** q is p after its writer has put in m more bytes and come back to its test. */
  predicate HasPut(p: Pipe, q: Pipe, m: nat)
    requires p.writer.WTest?
  {
    var data, i := p.writer.data, p.writer.i;
    i + m <= |data| && Sent(q) == Sent(p) + data[i..i + m] &&
    q == WriteLoop(p.(wpos := p.wpos + m, buf := q.buf), data, i + m)
  }

  lemma PutNone(p: Pipe)
    requires Inv(p) && p.writer.WTest?
    ensures p.writer.i < |p.writer.data| && Room(p) >= 0 && HasPut(p, p, 0)
  {
    assert Sent(p) + p.writer.data[p.writer.i..p.writer.i] == Sent(p);
    hide Sent;
  }

  lemma PutMore(p: Pipe, q: Pipe, r: Pipe, m: nat)
    requires p.writer.WTest? && q.writer.WTest? && HasPut(p, q, 1) && HasPut(q, r, m)
    ensures HasPut(p, r, m + 1)
  {
    var data, i := p.writer.data, p.writer.i;
    assert data[i..i + 1] == [data[i]];
    CutOne(Sent(p), data, i, m + 1);
    hide Sent;
  }

  /** The loop puts in as many bytes as there are and as fit. */
  lemma {:induction false} WriteBytes(p: Pipe) returns (ts: seq<Step>)
    requires Inv(p) && p.writer.WTest? && p.rpos < U32 - BY2PIPE
    ensures RunOk(p, ts) && Inv(Final(p, ts)) && 0 <= Puts(p) && HasPut(p, Final(p, ts), Puts(p))
    decreases Room(p)
  {
    PutNone(p);
    hide Inv, Sent, RunOk, Final;
    if Room(p) == 0 {
      ts := [];
      RunNone(p);
    } else {
      ts := WriteByte(p);
      var q := Final(p, ts);
      if q.writer.WTest? {
        var us := WriteBytes(q);
        RunMore(p, ts, us);
        ts := ts + us;
        hide HasPut;
        PutMore(p, q, Final(p, ts), Puts(q));
      }
    }
  }

  /** A write that fits is carried out: its bytes are sent, and it returns their number. */
  lemma WriteReturns(p: Pipe, data: seq<byte>) returns (ts: seq<Step>)
    requires Inv(p) && p.writer == WIdle && data != [] && |data| <= Room(p) && p.rpos < U32 - BY2PIPE
    ensures RunOk(p, [Write(data)] + ts)
    ensures var q := Final(p, [Write(data)] + ts);
            && Sent(q) == Sent(p) + data
            && q == p.(wpos := p.wpos + |data|, buf := q.buf, accepted := p.accepted + [data],
                       results := p.results + [|data|])
  {
    var p1 := Next(p, Write(data));
    NextInv(p, Write(data));
    CallKeeps(p, Write(data));
    RunOne(p, Write(data));
    ts := WriteBytes(p1);
    RunMore(p, [Write(data)], ts);
    assert data[0..0 + |data|] == data;
    hide Inv, Sent;
  }

  /** A writer that finds no room asks whether the other end is closed, and gives up, or
      tests again. */
  lemma WriteWaits(p: Pipe, any: bool, closed: bool)
    requires Inv(p) && p.writer.WTest? && Room(p) == 0
    ensures var ts, data, i := [WriterStep(any), WriterStep(closed)], p.writer.data, p.writer.i;
            && RunOk(p, ts) && i < |data|
            && Final(p, ts) ==
               if closed then p.(writer := WIdle, accepted := p.accepted + [data[..i]], results := p.results + [0])
                               else p
  {
    FullTestIsRight(p);
    RunTwo(p, WriterStep(any), WriterStep(closed));
    hide Sent;
  }
}
