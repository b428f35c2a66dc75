/** The 16-entry block cache of the image builder: getblk, putblk, flushb and
    flushdisk, on a little-endian host, where swizzling is the identity. Block
    contents are of any type T with a value `zero` for a cleared block. */
module LruCache {
  import opened Wrappers

  const NCACHE: nat := 16

  datatype Entry<T> = Entry(busy: bool, bno: nat, used: nat, buf: T)

  /** `clock` is the static counter t of getblk. */
  datatype State<T> = State(cache: seq<Entry<T>>, disk: seq<T>, clock: nat)

  ghost predicate EntryOk<T>(s: State<T>, i: nat)
    requires i < |s.cache|
  {
    s.cache[i].used <= s.clock && s.cache[i].bno < |s.disk| &&
    (s.cache[i].used == 0 ==> s.cache[i].bno == 0 && !s.cache[i].busy)
  }

  /** A nonzero block is in at most one entry, and no two entries were last used
      at the same time. */
  ghost predicate Apart<T>(s: State<T>, i: nat, j: nat)
    requires i < |s.cache| && j < |s.cache|
  {
    (s.cache[i].bno == s.cache[j].bno ==> s.cache[i].bno == 0) &&
    (s.cache[i].used == s.cache[j].used ==> s.cache[i].used == 0)
  }

  ghost predicate Inv<T>(s: State<T>) {
    |s.cache| == NCACHE && |s.disk| > 0 &&
    (forall i | 0 <= i < NCACHE :: EntryOk(s, i)) &&
    (forall i, j | 0 <= i < NCACHE && 0 <= j < NCACHE && i != j :: Apart(s, i, j))
  }

  /** Index of the first entry for block bno from i on, or |cache|. */
  function Find<T>(cache: seq<Entry<T>>, bno: nat, i: nat): (r: nat)
    requires i <= |cache|
    ensures i <= r <= |cache| && (r < |cache| ==> cache[r].bno == bno)
    ensures forall k | i <= k < r :: cache[k].bno != bno
    decreases |cache| - i
  {
    if i == |cache| || cache[i].bno == bno then i else Find(cache, bno, i + 1)
  }

  /** The choice the scan of getblk makes among the first n entries: the least
      recently used one that is not busy, -1 if all are busy. */
  function Victim<T>(cache: seq<Entry<T>>, n: nat): (v: int)
    requires n <= |cache|
    ensures v == -1 ==> forall i | 0 <= i < n :: cache[i].busy
    ensures v != -1 ==> 0 <= v < n && !cache[v].busy &&
                        forall i | 0 <= i < n && !cache[i].busy :: cache[v].used <= cache[i].used
  {
    if n == 0 then -1
    else
      var v := Victim(cache, n - 1);
      if !cache[n - 1].busy && (v == -1 || cache[n - 1].used < cache[v].used) then n - 1 else v
  }

  /** flushb writes the buffer to its block, even block 0 of an unused entry. */
  function FlushOne<T>(s: State<T>, i: nat): State<T>
    requires i < |s.cache|
  {
    if s.cache[i].bno < |s.disk| then s.(disk := s.disk[s.cache[i].bno := s.cache[i].buf]) else s
  }

  /** getblk; None is an exit of the program: past the end of the disk, block
      busy already, or every buffer busy. */
  function Get<T>(s: State<T>, bno: nat, clr: bool, zero: T): Option<(State<T>, nat)>
    requires |s.cache| == NCACHE
  {
    if bno >= |s.disk| then None
    else
      var i := Find(s.cache, bno, 0);
      if i < NCACHE then
        if s.cache[i].busy then None
        else
          var e := s.cache[i];
          var cache := s.cache[i := Entry(true, e.bno, s.clock + 1, if clr then zero else e.buf)];
          Some((State(cache, s.disk, s.clock + 1), i))
      else
        var v := Victim(s.cache, NCACHE);
        if v == -1 then None
        else
          var disk := FlushOne(s, v).disk;
          if bno >= |disk| then None
          else
            var cache := s.cache[v := Entry(true, bno, s.clock + 1, if clr then zero else disk[bno])];
            Some((State(cache, disk, s.clock + 1), v))
  }

  function Edit<T>(s: State<T>, i: nat, x: T): State<T>
    requires i < |s.cache|
  {
    s.(cache := s.cache[i := s.cache[i].(buf := x)])
  }

  function Put<T>(s: State<T>, i: nat): State<T>
    requires i < |s.cache|
  {
    s.(cache := s.cache[i := s.cache[i].(busy := false)])
  }

  /** flushdisk from entry i on. */
  function FlushFrom<T>(s: State<T>, i: nat): State<T>
    requires |s.cache| == NCACHE
    decreases NCACHE - i
  {
    if i >= NCACHE then s
    else FlushFrom(if s.cache[i].used != 0 then FlushOne(s, i) else s, i + 1)
  }

  // ---------------------------------------------------------------- transparency

  /** What block b would read as if there were no cache. */
  function BlockAt<T>(s: State<T>, b: nat): T
    requires b < |s.disk|
  {
    var i := Find(s.cache, b, 0);
    if i < |s.cache| then s.cache[i].buf else s.disk[b]
  }

  /** The cache shows the flat image, block 0 excepted. */
  ghost predicate Shows<T>(s: State<T>, flat: seq<T>) {
    |flat| == |s.disk| && forall b | 0 < b < |flat| :: BlockAt(s, b) == flat[b]
  }

  lemma Sized<T>(s: State<T>)
    requires Inv(s)
    ensures |s.cache| == NCACHE && forall i | 0 <= i < NCACHE :: s.cache[i].bno < |s.disk|
  {
    forall i | 0 <= i < NCACHE ensures s.cache[i].bno < |s.disk| {
      assert EntryOk(s, i);
    }
  }

  lemma FindOnly<T>(s: State<T>, i: nat)
    requires Inv(s) && i < NCACHE && s.cache[i].bno != 0
    ensures Find(s.cache, s.cache[i].bno, 0) == i
  {
    forall k | 0 <= k < i ensures s.cache[k].bno != s.cache[i].bno {
      assert Apart(s, k, i);
    }
  }

  lemma {:induction false} FindSame<T>(c: seq<Entry<T>>, d: seq<Entry<T>>, b: nat, i: nat)
    requires |c| == |d| && i <= |c| && forall k | i <= k < |c| :: c[k].bno == b <==> d[k].bno == b
    ensures Find(c, b, i) == Find(d, b, i)
    decreases |c| - i
  {
    if i < |c| && c[i].bno != b {
      FindSame(c, d, b, i + 1);
    }
  }

  lemma FlushOneShows<T>(s: State<T>, i: nat, flat: seq<T>)
    requires Inv(s) && i < NCACHE && Shows(s, flat)
    ensures Inv(FlushOne(s, i)) && Shows(FlushOne(s, i), flat)
    ensures forall b | 0 < b < |flat| && s.cache[i].bno == b :: FlushOne(s, i).disk[b] == flat[b]
    ensures forall b | 0 < b < |flat| && s.cache[i].bno != b :: FlushOne(s, i).disk[b] == s.disk[b]
  {
    var t := FlushOne(s, i);
    assert EntryOk(s, i);
    forall k | 0 <= k < NCACHE ensures EntryOk(t, k) {
      assert EntryOk(s, k);
    }
    forall k, j | 0 <= k < NCACHE && 0 <= j < NCACHE && k != j ensures Apart(t, k, j) {
      assert Apart(s, k, j);
    }
    if s.cache[i].bno != 0 {
      FindOnly(s, i);
      assert BlockAt(s, s.cache[i].bno) == s.cache[i].buf;
    }
  }

  function FlatGet<T>(flat: seq<T>, bno: nat, clr: bool, zero: T): seq<T> {
    if clr && bno < |flat| then flat[bno := zero] else flat
  }

  lemma GetInv<T>(s: State<T>, bno: nat, clr: bool, zero: T)
    requires Inv(s) && Get(s, bno, clr, zero).Some?
    ensures var (t, i) := Get(s, bno, clr, zero).value;
            Inv(t) && i < NCACHE && t.cache[i].bno == bno && t.cache[i].busy && !s.cache[i].busy && |t.disk| == |s.disk|
    ensures var (t, i) := Get(s, bno, clr, zero).value;
            forall k | 0 <= k < NCACHE && k != i :: t.cache[k] == s.cache[k]
  {
    var (t, i) := Get(s, bno, clr, zero).value;
    forall k | 0 <= k < NCACHE ensures EntryOk(t, k) {
      assert EntryOk(s, k);
    }
    forall k, j | 0 <= k < NCACHE && 0 <= j < NCACHE && k != j ensures Apart(t, k, j) {
      assert Apart(s, k, j) && EntryOk(s, k) && EntryOk(s, j);
    }
  }

  /** getblk shows the flat image with at most the asked block cleared, whether
      it hits or replaces an entry. */
  lemma GetShows<T>(s: State<T>, bno: nat, clr: bool, zero: T, flat: seq<T>)
    requires Inv(s) && Shows(s, flat) && 0 < bno && Get(s, bno, clr, zero).Some?
    ensures var (t, i) := Get(s, bno, clr, zero).value;
            Shows(t, FlatGet(flat, bno, clr, zero)) && t.cache[i].buf == FlatGet(flat, bno, clr, zero)[bno]
  {
    GetInv(s, bno, clr, zero);
    var (t, i) := Get(s, bno, clr, zero).value;
    var hit := Find(s.cache, bno, 0);
    if hit == NCACHE {
      FlushOneShows(s, i, flat);
    }
    forall b | 0 < b < |flat| ensures BlockAt(t, b) == FlatGet(flat, bno, clr, zero)[b] {
      assert BlockAt(s, b) == flat[b];
      if b == bno {
        FindOnly(t, i);
      } else if hit < NCACHE {
        FindSame(s.cache, t.cache, b, 0);
      } else if b == s.cache[i].bno {
        forall k | 0 <= k < NCACHE ensures t.cache[k].bno != b {
          assert k != i ==> Apart(s, i, k);
        }
      } else {
        FindSame(s.cache, t.cache, b, 0);
      }
    }
  }

  lemma EditShows<T>(s: State<T>, i: nat, x: T, flat: seq<T>)
    requires Inv(s) && Shows(s, flat) && i < NCACHE && s.cache[i].bno != 0
    ensures EntryOk(s, i) && Inv(Edit(s, i, x)) && Shows(Edit(s, i, x), flat[s.cache[i].bno := x])
  {
    var t := Edit(s, i, x);
    assert EntryOk(s, i);
    forall k | 0 <= k < NCACHE ensures EntryOk(t, k) {
      assert EntryOk(s, k);
    }
    forall k, j | 0 <= k < NCACHE && 0 <= j < NCACHE && k != j ensures Apart(t, k, j) {
      assert Apart(s, k, j);
    }
    forall b | 0 < b < |flat| ensures BlockAt(t, b) == flat[s.cache[i].bno := x][b] {
      FindSame(s.cache, t.cache, b, 0);
      FindOnly(t, i);
      assert BlockAt(s, b) == flat[b];
    }
  }

  lemma PutShows<T>(s: State<T>, i: nat, flat: seq<T>)
    requires Inv(s) && Shows(s, flat) && i < NCACHE
    ensures Inv(Put(s, i)) && Shows(Put(s, i), flat)
  {
    var t := Put(s, i);
    forall k | 0 <= k < NCACHE ensures EntryOk(t, k) {
      assert EntryOk(s, k);
    }
    forall k, j | 0 <= k < NCACHE && 0 <= j < NCACHE && k != j ensures Apart(t, k, j) {
      assert Apart(s, k, j);
    }
    forall b | 0 < b < |flat| ensures BlockAt(t, b) == flat[b] {
      FindSame(s.cache, t.cache, b, 0);
      assert BlockAt(s, b) == flat[b];
    }
  }

  /** flushdisk leaves the flat image on the disk. */
  lemma {:induction false} FlushFromShows<T>(s: State<T>, i: nat, flat: seq<T>)
    requires Inv(s) && Shows(s, flat) && i <= NCACHE
    requires forall b, k | 0 < b < |flat| && 0 <= k < i && s.cache[k].bno == b :: s.disk[b] == flat[b]
    ensures var t := FlushFrom(s, i); |t.disk| == |flat| && forall b | 0 < b < |flat| :: t.disk[b] == flat[b]
    decreases NCACHE - i
  {
    if i < NCACHE {
      assert EntryOk(s, i);
      var t := if s.cache[i].used != 0 then FlushOne(s, i) else s;
      FlushOneShows(s, i, flat);
      FlushFromShows(t, i + 1, flat);
    } else {
      forall b | 0 < b < |flat| ensures s.disk[b] == flat[b] {
        assert BlockAt(s, b) == flat[b];
      }
    }
  }

  // ------------------------------------------------------------ busy buffers

  /** The blocks whose buffers are busy. */
  ghost function Busy<T>(s: State<T>): set<nat> {
    BusyBelow(s, |s.cache|)
  }

  ghost function BusyBelow<T>(s: State<T>, n: nat): set<nat>
    requires n <= |s.cache|
  {
    set i | 0 <= i < n && s.cache[i].busy :: s.cache[i].bno
  }

  /** Busy buffers are as many as busy blocks. */
  lemma {:induction false} BusyCount<T>(s: State<T>, n: nat)
    requires Inv(s) && n <= NCACHE && 0 !in Busy(s)
    ensures |BusyBelow(s, n)| <= n && (|BusyBelow(s, n)| == n <==> forall i | 0 <= i < n :: s.cache[i].busy)
  {
    if n > 0 {
      var m := n - 1;
      BusyCount(s, m);
      if s.cache[m].busy {
        assert s.cache[m].bno in Busy(s);
        forall i | 0 <= i < m ensures s.cache[i].bno != s.cache[m].bno {
          assert Apart(s, i, m);
        }
        assert BusyBelow(s, n) == BusyBelow(s, m) + {s.cache[m].bno};
      } else {
        assert BusyBelow(s, n) == BusyBelow(s, m);
      }
    } else {
      assert BusyBelow(s, 0) == {};
    }
  }

  /** What getblk does to the entries. It takes the block's own entry if there is one,
      and otherwise writes back and reuses the one not busy that was taken longest ago;
      the entry it takes is then the one taken last. */
  lemma GetTakes<T>(s: State<T>, bno: nat, clr: bool, zero: T)
    requires Inv(s) && Get(s, bno, clr, zero).Some?
    ensures var (t, i) := Get(s, bno, clr, zero).value;
            && i < NCACHE && t.cache[i].bno == bno && t.cache[i].busy && !s.cache[i].busy
            && (forall k | 0 <= k < NCACHE && k != i :: t.cache[k] == s.cache[k] && t.cache[k].used < t.cache[i].used)
            && if exists k :: 0 <= k < NCACHE && s.cache[k].bno == bno then
                 s.cache[i].bno == bno && t.disk == s.disk && t.cache[i].buf == if clr then zero else s.cache[i].buf
               else
                 && (forall k | 0 <= k < NCACHE && !s.cache[k].busy :: s.cache[i].used <= s.cache[k].used)
                 && s.cache[i].bno < |s.disk| && t.disk == s.disk[s.cache[i].bno := s.cache[i].buf]
                 && bno < |t.disk| && t.cache[i].buf == if clr then zero else t.disk[bno]
  {
    GetInv(s, bno, clr, zero);
    var (t, i) := Get(s, bno, clr, zero).value;
    Sized(s);
    forall k | 0 <= k < NCACHE && k != i ensures t.cache[k].used < t.cache[i].used {
      assert EntryOk(s, k);
    }
  }

  /** getblk does not exit if and only if the block is on the disk, its buffer is
      not busy, and some buffer is not. */
  lemma GetWhen<T>(s: State<T>, bno: nat, clr: bool, zero: T)
    requires Inv(s) && 0 < bno && 0 !in Busy(s)
    ensures Get(s, bno, clr, zero).Some? <==> bno < |s.disk| && bno !in Busy(s) && |Busy(s)| < NCACHE
    ensures Get(s, bno, clr, zero).Some? ==> Busy(Get(s, bno, clr, zero).value.0) == Busy(s) + {bno}
  {
    BusyCount(s, NCACHE);
    var i := Find(s.cache, bno, 0);
    if i < NCACHE {
      forall k | 0 <= k < NCACHE && k != i ensures s.cache[k].bno != bno {
        assert Apart(s, k, i);
      }
      assert s.cache[i].busy ==> bno in Busy(s);
    }
    if Get(s, bno, clr, zero).Some? {
      GetInv(s, bno, clr, zero);
      var (t, v) := Get(s, bno, clr, zero).value;
      forall b ensures b in Busy(t) <==> b in Busy(s) || b == bno {
        if b in Busy(s) {
          var k :| 0 <= k < NCACHE && s.cache[k].busy && s.cache[k].bno == b;
          assert t.cache[k] == s.cache[k];
        }
        if b == bno {
          assert t.cache[v].busy && t.cache[v].bno == b;
        }
      }
    }
  }

  lemma PutFrees<T>(s: State<T>, i: nat)
    requires Inv(s) && i < NCACHE && s.cache[i].busy && s.cache[i].bno != 0
    ensures Busy(Put(s, i)) == Busy(s) - {s.cache[i].bno}
  {
    var t := Put(s, i);
    forall b ensures b in Busy(t) <==> b in Busy(s) && b != s.cache[i].bno {
      if b in Busy(s) && b != s.cache[i].bno {
        var k :| 0 <= k < NCACHE && s.cache[k].busy && s.cache[k].bno == b;
        assert t.cache[k] == s.cache[k];
      }
      if b in Busy(t) {
        var k :| 0 <= k < NCACHE && t.cache[k].busy && t.cache[k].bno == b;
        assert Apart(s, k, i) && s.cache[k].busy;
      }
    }
  }

  lemma EditKeepsBusy<T>(s: State<T>, i: nat, x: T)
    requires i < |s.cache|
    ensures Busy(Edit(s, i, x)) == Busy(s)
  {
    var t := Edit(s, i, x);
    forall b ensures b in Busy(t) <==> b in Busy(s) {
      if b in Busy(s) {
        var k :| 0 <= k < |s.cache| && s.cache[k].busy && s.cache[k].bno == b;
        assert t.cache[k].busy && t.cache[k].bno == b;
      }
    }
  }

  /** A buffer holds what the image shows of its block. */
  lemma BufferShows<T>(s: State<T>, i: nat, flat: seq<T>)
    requires Inv(s) && Shows(s, flat) && i < NCACHE && s.cache[i].bno != 0
    ensures s.cache[i].bno < |flat| && s.cache[i].buf == flat[s.cache[i].bno]
  {
    FindOnly(s, i);
    assert EntryOk(s, i) && BlockAt(s, s.cache[i].bno) == s.cache[i].buf;
  }

  // ---------------------------------------------------------------- whole runs

  datatype Op<T> = GetBlk(bno: nat, clr: bool) | Change(i: nat, x: T) | PutBlk(i: nat)

  /** A buffer is changed only between its getblk and its putblk. */
  predicate Enabled<T>(s: State<T>, op: Op<T>, zero: T) {
    |s.cache| == NCACHE &&
    match op
    case GetBlk(bno, clr) => 0 < bno && Get(s, bno, clr, zero).Some?
    case Change(i, _) => i < NCACHE && s.cache[i].busy && s.cache[i].bno != 0
    case PutBlk(i) => i < NCACHE
  }

  function Next<T>(s: State<T>, op: Op<T>, zero: T): State<T>
    requires Enabled(s, op, zero)
  {
    match op
    case GetBlk(bno, clr) => Get(s, bno, clr, zero).value.0
    case Change(i, x) => Edit(s, i, x)
    case PutBlk(i) => Put(s, i)
  }

  /** When the operations can be done, and what changing and putting back do to the
      entries; what getting does is in GetTakes. */
  lemma OpsMean<T>(s: State<T>, op: Op<T>, zero: T)
    requires |s.cache| == NCACHE
    ensures op.GetBlk? ==> (Enabled(s, op, zero) <==> 0 < op.bno && Get(s, op.bno, op.clr, zero).Some?)
    ensures op.Change? && op.i < NCACHE && s.cache[op.i].busy && s.cache[op.i].bno != 0 ==>
              Enabled(s, op, zero) &&
              Next(s, op, zero) == State(s.cache[op.i := s.cache[op.i].(buf := op.x)], s.disk, s.clock)
    ensures op.PutBlk? && op.i < NCACHE ==>
              Enabled(s, op, zero) &&
              Next(s, op, zero) == State(s.cache[op.i := s.cache[op.i].(busy := false)], s.disk, s.clock)
  {
  }

  /** The same operation on the flat image. */
  function FlatNext<T>(s: State<T>, op: Op<T>, zero: T, flat: seq<T>): seq<T>
    requires Enabled(s, op, zero)
  {
    match op
    case GetBlk(bno, clr) => FlatGet(flat, bno, clr, zero)
    case Change(i, x) => if s.cache[i].bno < |flat| then flat[s.cache[i].bno := x] else flat
    case PutBlk(i) => flat
  }

  ghost predicate RunOk<T>(s: State<T>, ops: seq<Op<T>>, zero: T)
    decreases |ops|
  {
    ops != [] ==> Enabled(s, ops[0], zero) && RunOk(Next(s, ops[0], zero), ops[1..], zero)
  }

  ghost function Final<T>(s: State<T>, ops: seq<Op<T>>, zero: T): State<T>
    requires RunOk(s, ops, zero)
    decreases |ops|
  {
    if ops == [] then s else Final(Next(s, ops[0], zero), ops[1..], zero)
  }

  ghost function FlatFinal<T>(s: State<T>, ops: seq<Op<T>>, zero: T, flat: seq<T>): seq<T>
    requires RunOk(s, ops, zero)
    decreases |ops|
  {
    if ops == [] then flat else FlatFinal(Next(s, ops[0], zero), ops[1..], zero, FlatNext(s, ops[0], zero, flat))
  }

  lemma NextShows<T>(s: State<T>, op: Op<T>, zero: T, flat: seq<T>)
    requires Inv(s) && Shows(s, flat) && Enabled(s, op, zero)
    ensures Inv(Next(s, op, zero)) && Shows(Next(s, op, zero), FlatNext(s, op, zero, flat))
  {
    match op
    case GetBlk(bno, clr) =>
      GetInv(s, bno, clr, zero);
      GetShows(s, bno, clr, zero, flat);
    case Change(i, x) => EditShows(s, i, x, flat);
    case PutBlk(i) => PutShows(s, i, flat);
  }

  lemma {:induction false} RunShows<T>(s: State<T>, ops: seq<Op<T>>, zero: T, flat: seq<T>)
    requires Inv(s) && Shows(s, flat) && RunOk(s, ops, zero)
    ensures Inv(Final(s, ops, zero)) && Shows(Final(s, ops, zero), FlatFinal(s, ops, zero, flat))
    decreases |ops|
  {
    if ops != [] {
      NextShows(s, ops[0], zero, flat);
      var t, f := Next(s, ops[0], zero), FlatNext(s, ops[0], zero, flat);
      RunShows(t, ops[1..], zero, f);
      hide Inv, Shows, Next, FlatNext;
    }
  }

  /** Any sequence of getblk, changes to busy buffers and putblk, followed by
      flushdisk, leaves on the disk exactly what the same changes to a flat
      array of blocks would, block 0 excepted. */
  lemma CacheIsTransparent<T>(s: State<T>, ops: seq<Op<T>>, zero: T, flat: seq<T>)
    requires Inv(s) && Shows(s, flat) && RunOk(s, ops, zero)
    ensures |Final(s, ops, zero).cache| == NCACHE
    ensures var disk := FlushFrom(Final(s, ops, zero), 0).disk;
            |disk| == |FlatFinal(s, ops, zero, flat)| > 0 && disk[1..] == FlatFinal(s, ops, zero, flat)[1..]
  {
    RunShows(s, ops, zero, flat);
    FlushFromShows(Final(s, ops, zero), 0, FlatFinal(s, ops, zero, flat));
  }

  // ---------------------------------------------------------------- the program

  class Buffers<T(==)> {
    const zero: T
    var cache: seq<Entry<T>>
    var disk: seq<T>
    var clock: nat

    ghost function View(): State<T>
      reads this
    {
      State(cache, disk, clock)
    }

    constructor (zero: T, disk: seq<T>)
      requires |disk| > 0
      ensures this.zero == zero && this.disk == disk && Inv(View()) && Shows(View(), disk)
      ensures forall e <- cache :: !e.busy
    {
      this.zero, this.disk, clock := zero, disk, 0;
      cache := seq(NCACHE, _ => Entry(false, 0, 0, zero));
      new;
      forall k | 0 <= k < NCACHE ensures EntryOk(View(), k) {}
      forall k, j | 0 <= k < NCACHE && 0 <= j < NCACHE && k != j ensures Apart(View(), k, j) {}
      assert forall b | 0 < b < |disk| :: Find(cache, b, 0) == NCACHE;
    }

    method Flushb(i: nat)
      requires i < |cache| && cache[i].bno < |disk|
      modifies this`disk
      ensures View() == FlushOne(old(View()), i)
    {
      disk := disk[cache[i].bno := cache[i].buf];
    }

    /** The scan for the block, which meanwhile looks for a victim. */
    method Scan(bno: nat) returns (i: nat, least: int)
      requires |cache| == NCACHE
      ensures i == Find(cache, bno, 0) && (i == NCACHE ==> least == Victim(cache, NCACHE))
    {
      least, i := -1, 0;
      while i < NCACHE && cache[i].bno != bno
        invariant 0 <= i <= NCACHE
        invariant forall k | 0 <= k < i :: cache[k].bno != bno
        invariant least == Victim(cache, i)
      {
        if !cache[i].busy && (least == -1 || cache[i].used < cache[least].used) {
          least := i;
        }
        i := i + 1;
      }
    }

    method Getblk(bno: nat, clr: bool) returns (r: Option<nat>)
      requires Inv(View())
      modifies this
      ensures match Get(old(View()), bno, clr, zero)
              case None => r.None?
              case Some((t, i)) => r == Some(i) && View() == t
      ensures r.Some? ==> Inv(View()) && forall i | 0 <= i < NCACHE && i != r.value :: cache[i] == old(cache)[i]
    {
      Sized(View());
      if Get(View(), bno, clr, zero).Some? {
        GetInv(View(), bno, clr, zero);
      }
      hide Inv, Find, Victim;
      if bno >= |disk| {
        return None;
      }
      var i, least := Scan(bno);
      if i == NCACHE {
        if least == -1 {
          return None;
        }
        i := least;
        Flushb(i);
        cache := cache[i := cache[i].(bno := bno, buf := disk[bno])];
      }
      clock := clock + 1;
      var e := cache[i];
      if clr {
        e := e.(buf := zero);
      }
      e := e.(used := clock);
      if e.busy {
        return None;
      }
      cache := cache[i := e.(busy := true)];
      r := Some(i);
    }

    /** A change to the buffer getblk has given out. */
    method Fill(i: nat, x: T)
      requires i < |cache|
      modifies this`cache
      ensures View() == Edit(old(View()), i, x)
    {
      cache := cache[i := cache[i].(buf := x)];
    }

    method Putblk(i: nat)
      requires i < |cache|
      modifies this`cache
      ensures View() == Put(old(View()), i)
    {
      cache := cache[i := cache[i].(busy := false)];
    }

    method Flushdisk()
      requires Inv(View())
      modifies this`disk
      ensures View() == FlushFrom(old(View()), 0)
    {
      var i := 0;
      while i < NCACHE
        invariant 0 <= i <= NCACHE && |disk| == old(|disk|)
        invariant FlushFrom(View(), i) == FlushFrom(old(View()), 0)
      {
        assert cache[i].bno < |disk| by { assert EntryOk(old(View()), i); }
        hide Inv, FlushOne;
        if cache[i].used != 0 {
          Flushb(i);
        }
        i := i + 1;
      }
    }
  }
}
