/** The write-back block cache: a disk block is read or zero-mapped into memory
    once, changed there, and written back when its page is dirty. */
module BlockCache {
  import opened Wrappers

  const BY2BLK: nat := 4096

  type Data = d: seq<byte> | |d| == BY2BLK witness seq(BY2BLK, _ => 0)

  function Zeros(): Data {
    seq(BY2BLK, _ => 0)
  }

  /** `dirty` are the pages with the dirty bit set in the server's page table.
      `blank` are the blocks map_block zero-mapped and nobody has written since.
      Clients store into file blocks through mappings of their own, which leaves
      the server's bit alone: `unmarked` are the blocks so changed since they were
      last written, until FSREQ_DIRTY or the server itself sets the bit. Pages in
      these two sets are clean but need not equal the disk. */
  datatype Cache = Cache(nblocks: nat, page: map<nat, Data>, dirty: set<nat>, blank: set<nat>, unmarked: set<nat>,
                         disk: map<nat, Data>)

  predicate Settled(c: Cache, b: nat) {
    b !in c.blank && b !in c.unmarked
  }

  ghost predicate Coherent(c: Cache) {
    c.page.Keys <= c.disk.Keys && (forall b :: b in c.disk <==> 0 <= b < c.nblocks) &&
    c.dirty <= c.page.Keys && c.blank <= c.page.Keys && c.unmarked <= c.page.Keys && c.unmarked !! c.dirty &&
    forall b <- c.page :: b in c.dirty || !Settled(c, b) || c.page[b] == c.disk[b]
  }

  /** What the file system means by block b. */
  function Contents(c: Cache, b: nat): Data
    requires b in c.page || b in c.disk
  {
    if b in c.page then c.page[b] else c.disk[b]
  }

  /** The cache as one flat array of blocks. */
  ghost function Flat(c: Cache): map<nat, Data>
    requires Coherent(c)
  {
    map b <- c.disk :: Contents(c, b)
  }

  datatype Op =
    | Load(b: nat)
    | ZeroMap(b: nat)
    | Store(b: nat, off: nat, x: byte)
    | ClientStore(b: nat, off: nat, x: byte)
    | MarkDirty(b: nat)
    | WriteBack(b: nat)
    | Evict(b: nat)
    | SyncAll

  /** write_block panics on an unmapped block; unmap_block asserts that the block
      is clean (or free, which is not considered here). */
  predicate Enabled(c: Cache, op: Op) {
    match op
    case Load(b) => b < c.nblocks
    case ZeroMap(b) => b < c.nblocks
    case Store(b, off, _) => b in c.page && off < BY2BLK
    case ClientStore(b, off, _) => b in c.page && off < BY2BLK
    case MarkDirty(b) => b in c.page
    case WriteBack(b) => b in c.page
    case Evict(b) => b in c.page && b !in c.dirty && Settled(c, b)
    case SyncAll => true
  }

  function Written(c: Cache, b: nat): Cache
    requires b in c.page
  {
    if b in c.dirty then c.(disk := c.disk[b := c.page[b]], dirty := c.dirty - {b}, blank := c.blank - {b}) else c
  }

  /** fs_sync from block b on. */
  function SyncFrom(c: Cache, b: nat): Cache
    decreases c.nblocks - b
  {
    if b >= c.nblocks then c
    else SyncFrom(if b in c.page && b in c.dirty then Written(c, b) else c, b + 1)
  }

  /** A store by the server, as of the first byte onto itself in file_dirty. */
  function Marked(c: Cache, b: nat): Cache {
    c.(dirty := c.dirty + {b}, unmarked := c.unmarked - {b})
  }

  /** The transfer of read_block stores into the page, so it leaves it dirty. */
  function Next(c: Cache, op: Op): Cache
    requires Enabled(c, op) && Coherent(c)
  {
    match op
    case Load(b) => if b in c.page then c else c.(page := c.page[b := c.disk[b]], dirty := c.dirty + {b})
    case ZeroMap(b) => if b in c.page then c else c.(page := c.page[b := Zeros()], blank := c.blank + {b})
    case Store(b, off, x) => Marked(c.(page := c.page[b := c.page[b][off := x]]), b)
    case ClientStore(b, off, x) =>
      var d := c.(page := c.page[b := c.page[b][off := x]]);
      if b in c.dirty then d else d.(unmarked := c.unmarked + {b}, blank := c.blank - {b})
    case MarkDirty(b) => Marked(c, b)
    case WriteBack(b) => Written(c, b)
    case Evict(b) => c.(page := c.page - {b})
    case SyncAll => SyncFrom(c, 0)
  }

  /** The same operation on a flat array: only stores change it, and allocating
      an unmapped block, which reads as zeros from then on. */
  function FlatNext(c: Cache, op: Op, flat: map<nat, Data>): map<nat, Data> {
    match op
    case Store(b, off, x) => if b in flat && off < BY2BLK then flat[b := flat[b][off := x]] else flat
    case ClientStore(b, off, x) => if b in flat && off < BY2BLK then flat[b := flat[b][off := x]] else flat
    case ZeroMap(b) => if b in c.page then flat else flat[b := Zeros()]
    case _ => flat
  }

  lemma WrittenKeeps(c: Cache, b: nat)
    requires Coherent(c) && b in c.page
    ensures var d := Written(c, b);
            && Coherent(d) && Flat(d) == Flat(c) && d.page == c.page && b !in d.dirty && d.dirty <= c.dirty
            && d.unmarked == c.unmarked && (Settled(d, b) ==> d.page[b] == d.disk[b])
  {
  }

  /** After fs_sync no block is dirty, every mapped block that is not a blank zero
      page or changed behind the server's back is on the disk as it is in memory,
      and no block's contents have changed. */
  lemma {:induction false} SyncFromKeeps(c: Cache, b: nat)
    requires Coherent(c) && forall k <- c.dirty :: b <= k
    ensures var d := SyncFrom(c, b);
            && Coherent(d) && Flat(d) == Flat(c) && d.dirty == {} && d.page == c.page && d.nblocks == c.nblocks
            && d.unmarked == c.unmarked && (forall k <- d.page :: !Settled(d, k) || d.page[k] == d.disk[k])
    decreases c.nblocks - b
  {
    if b < c.nblocks {
      if b in c.page && b in c.dirty {
        WrittenKeeps(c, b);
        SyncFromKeeps(Written(c, b), b + 1);
      } else {
        SyncFromKeeps(c, b + 1);
      }
    } else {
      assert forall k <- c.dirty :: k in c.disk;
    }
  }

  lemma MappedKeeps(c: Cache, op: Op)
    requires Coherent(c) && Enabled(c, op) && (op.Load? || op.ZeroMap? || op.Evict?)
    ensures Coherent(Next(c, op)) && Flat(Next(c, op)) == FlatNext(c, op, Flat(c))
  {
  }

  lemma StoreKeeps(c: Cache, op: Op)
    requires Coherent(c) && Enabled(c, op) && (op.Store? || op.ClientStore? || op.MarkDirty?)
    ensures Coherent(Next(c, op)) && Flat(Next(c, op)) == FlatNext(c, op, Flat(c))
  {
  }

  /** Every operation keeps the cache coherent and acts on the flat array as the
      operation without a cache would: loading, writing back, syncing and
      evicting change no block's contents. */
  lemma NextKeeps(c: Cache, op: Op)
    requires Coherent(c) && Enabled(c, op)
    ensures Coherent(Next(c, op)) && Flat(Next(c, op)) == FlatNext(c, op, Flat(c))
  {
    match op
    case SyncAll => SyncFromKeeps(c, 0);
    case WriteBack(b) => WrittenKeeps(c, b);
    case Load(_) => MappedKeeps(c, op);
    case ZeroMap(_) => MappedKeeps(c, op);
    case Evict(_) => MappedKeeps(c, op);
    case MarkDirty(_) => StoreKeeps(c, op);
    case Store(_, _, _) => StoreKeeps(c, op);
    case ClientStore(_, _, _) => StoreKeeps(c, op);
    hide *;
  }

  /** What the operations do to pages, dirty bits and disk, and when they can be done. */
  lemma OpsMean(c: Cache, b: nat, off: nat, x: byte)
    requires Coherent(c) && b < c.nblocks
    ensures Enabled(c, Load(b)) && Enabled(c, ZeroMap(b)) && Enabled(c, SyncAll)
    ensures b in Next(c, Load(b)).page && (b !in c.page ==> b in Next(c, Load(b)).dirty)
    ensures b in Next(c, ZeroMap(b)).page && (b !in c.page ==> Next(c, ZeroMap(b)).page[b] == Zeros())
    ensures b in c.page && off < BY2BLK ==>
              Enabled(c, Store(b, off, x)) && Enabled(c, ClientStore(b, off, x)) &&
              var s, t := Next(c, Store(b, off, x)), Next(c, ClientStore(b, off, x));
              && s.page == c.page[b := c.page[b][off := x]] == t.page && s.disk == c.disk == t.disk
              && s.dirty == c.dirty + {b} && t.dirty == c.dirty && (b !in c.dirty ==> b in t.unmarked)
    ensures b in c.page ==>
              Enabled(c, MarkDirty(b)) && Enabled(c, WriteBack(b)) &&
              Next(c, MarkDirty(b)).dirty == c.dirty + {b} && Next(c, WriteBack(b)).dirty == c.dirty - {b} &&
              Next(c, WriteBack(b)).disk == (if b in c.dirty then c.disk[b := c.page[b]] else c.disk)
    ensures b in c.page && b !in c.dirty && Settled(c, b) ==>
              Enabled(c, Evict(b)) && Next(c, Evict(b)).page == c.page - {b} && Next(c, Evict(b)).disk == c.disk
  {
  }

  ghost predicate RunOk(c: Cache, ops: seq<Op>)
    requires Coherent(c)
    decreases |ops|
  {
    ops != [] ==> Enabled(c, ops[0]) && (NextKeeps(c, ops[0]); RunOk(Next(c, ops[0]), ops[1..]))
  }

  ghost function Final(c: Cache, ops: seq<Op>): (d: Cache)
    requires Coherent(c) && RunOk(c, ops)
    ensures Coherent(d)
    decreases |ops|
  {
    if ops == [] then c else NextKeeps(c, ops[0]); Final(Next(c, ops[0]), ops[1..])
  }

  ghost function FlatFinal(c: Cache, ops: seq<Op>, flat: map<nat, Data>): map<nat, Data>
    requires Coherent(c) && RunOk(c, ops)
    decreases |ops|
  {
    if ops == [] then flat else NextKeeps(c, ops[0]); FlatFinal(Next(c, ops[0]), ops[1..], FlatNext(c, ops[0], flat))
  }

  /** Over any run the cache is invisible, and a final sync leaves the whole flat
      array on the disk, outside the blank zero pages and the blocks that clients
      have changed and not reported. */
  lemma {:induction false} CacheIsTransparent(c: Cache, ops: seq<Op>)
    requires Coherent(c) && RunOk(c, ops)
    ensures Flat(Final(c, ops)) == FlatFinal(c, ops, Flat(c))
    ensures var d := SyncFrom(Final(c, ops), 0);
            d.unmarked == Final(c, ops).unmarked &&
            forall b <- d.disk ::
                !Settled(d, b) || (b in FlatFinal(c, ops, Flat(c)) && d.disk[b] == FlatFinal(c, ops, Flat(c))[b])
    decreases |ops|
  {
    if ops == [] {
      SyncFromKeeps(c, 0);
      assert forall b <- SyncFrom(c, 0).disk :: b in Flat(c) && Flat(SyncFrom(c, 0))[b] == Flat(c)[b];
    } else {
      NextKeeps(c, ops[0]);
      CacheIsTransparent(Next(c, ops[0]), ops[1..]);
    }
  }

  /** The memory of the server, its disk and its page-table dirty bits. */
  class Blocks {
    const nblocks: nat
    var page: map<nat, Data>
    var dirty: set<nat>
    var disk: map<nat, Data>
    ghost var blank: set<nat>
    ghost var unmarked: set<nat>

    ghost function View(): Cache
      reads this
    {
      Cache(nblocks, page, dirty, blank, unmarked, disk)
    }

    method BlockIsDirty(b: nat) returns (r: bool)
      ensures r <==> b in page && b in dirty
    {
      r := b in page && b in dirty;
    }

    method ReadBlock(b: nat)
      requires Coherent(View()) && b < nblocks
      modifies this
      ensures View() == Next(old(View()), Load(b))
      ensures Coherent(View()) && Flat(View()) == old(Flat(View()))
    {
      NextKeeps(View(), Load(b));
      if b !in page {
        page, dirty := page[b := disk[b]], dirty + {b};
      }
    }

    /** file_dirty, for the block it finds: the first byte is stored onto itself. */
    method FileDirty(b: nat)
      requires Coherent(View()) && b < nblocks
      modifies this
      ensures View() == Next(Next(old(View()), Load(b)), MarkDirty(b))
      ensures Coherent(View()) && Flat(View()) == old(Flat(View())) && b in dirty
    {
      NextKeeps(View(), Load(b));
      NextKeeps(Next(View(), Load(b)), MarkDirty(b));
      ReadBlock(b);
      ghost var loaded := page;
      assert page[b][0 := page[b][0]] == page[b];
      page := page[b := page[b][0 := page[b][0]]];
      assert page == loaded;
      dirty, unmarked := dirty + {b}, unmarked - {b};
    }

    method MapBlock(b: nat)
      requires Coherent(View()) && b < nblocks
      modifies this
      ensures View() == Next(old(View()), ZeroMap(b))
      ensures Coherent(View())
    {
      NextKeeps(View(), ZeroMap(b));
      if b !in page {
        page, blank := page[b := Zeros()], blank + {b};
      }
    }

    method WriteBlock(b: nat)
      requires Coherent(View()) && b in page
      modifies this
      ensures View() == Next(old(View()), WriteBack(b))
      ensures Coherent(View()) && Flat(View()) == old(Flat(View())) && b !in dirty
    {
      NextKeeps(View(), WriteBack(b));
      var d := BlockIsDirty(b);
      if !d {
        return;
      }
      disk := disk[b := page[b]];
      dirty, blank := dirty - {b}, blank - {b};
    }

    method FsSync()
      requires Coherent(View())
      modifies this
      ensures View() == Next(old(View()), SyncAll)
      ensures Coherent(View()) && Flat(View()) == old(Flat(View())) && dirty == {}
      ensures unmarked == old(unmarked) && forall b <- page :: b in blank || b in unmarked || page[b] == disk[b]
    {
      SyncFromKeeps(View(), 0);
      var i := 0;
      while i < nblocks
        invariant 0 <= i <= nblocks && Coherent(View())
        invariant SyncFrom(View(), i) == SyncFrom(old(View()), 0)
      {
        WriteBlockIf(i);
        i := i + 1;
      }
    }

    method WriteBlockIf(b: nat)
      requires Coherent(View())
      modifies this
      ensures Coherent(View()) && Flat(View()) == old(Flat(View())) && page == old(page) && unmarked == old(unmarked)
      ensures b in page ==> b !in dirty
      ensures View() == if b in page && b in old(dirty) then Written(old(View()), b) else old(View())
    {
      var d := BlockIsDirty(b);
      if d {
        WriteBlock(b);
      }
    }

    /** file_flush. `ptrs` are the disk blocks of the file in order, 0 for a
        hole; at a hole the loop gives up. Everything before the first hole
        reaches the disk, and no contents change. */
    method FileFlush(ptrs: seq<nat>)
      requires Coherent(View())
      modifies this
      ensures Coherent(View()) && Flat(View()) == old(Flat(View())) && page == old(page) && dirty <= old(dirty)
      ensures forall i | 0 <= i < |ptrs| && 0 !in ptrs[..i + 1] && ptrs[i] in page :: ptrs[i] !in dirty
      ensures unmarked == old(unmarked) &&
              forall b <- page :: b in dirty || b in blank || b in unmarked || page[b] == disk[b]
      ensures forall b | b in old(dirty) && b !in ptrs :: b in dirty
    {
      var i := 0;
      while i < |ptrs|
        invariant 0 <= i <= |ptrs| && 0 !in ptrs[..i]
        invariant Coherent(View()) && Flat(View()) == old(Flat(View())) && page == old(page) && dirty <= old(dirty)
        invariant forall k | 0 <= k < i && ptrs[k] in page :: ptrs[k] !in dirty
        invariant unmarked == old(unmarked) && forall b | b in old(dirty) && b !in ptrs :: b in dirty
      {
        if ptrs[i] == 0 {
          return;
        }
        WriteBlockIf(ptrs[i]);
        i := i + 1;
      }
    }
  }
}
