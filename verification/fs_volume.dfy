/** The block map of the file server: which disk blocks a file owns.

    A volume is the free-block bitmap, the set of blocks mapped in memory, the
    contents of each block read as block numbers (memory if mapped, disk
    otherwise), the files, and how many physical pages are left. */
module Volume {

  const NDIRECT: nat := 10
  const NINDIRECT: nat := 1024
  const BY2BLK: nat := 4096

  datatype Error = NoDisk | NoMem | NotFound | Inval

  /** A panic stops the server. */
  datatype Result<+T> = Ok(value: T) | Err(error: Error) | Panic

  type Table = t: seq<nat> | |t| == NINDIRECT witness seq(NINDIRECT, _ => 0)

  type Direct = d: seq<nat> | |d| == NDIRECT witness seq(NDIRECT, _ => 0)

  datatype File = File(size: nat, direct: Direct, indirect: nat)

  datatype Vol = Vol(nblocks: nat, free: set<nat>, mapped: set<nat>, pages: nat,
                     blk: map<nat, Table>, files: map<nat, File>)

  function ZeroTable(): Table {
    seq(NINDIRECT, _ => 0)
  }

  function ZeroFile(): File {
    File(0, seq(NDIRECT, _ => 0), 0)
  }

  function Lowest(free: set<nat>, b: nat, n: nat): (r: nat)
    requires b <= n
    ensures b <= r <= n && (r < n ==> r in free) && forall k | b <= k < r :: k !in free
    decreases n - b
  {
    if b == n || b in free then b else Lowest(free, b + 1, n)
  }

  /** alloc_block: the lowest free block from 2 on, mapped into memory. It is
      zeroed only if it was not mapped already. */
  function AllocBlock(v: Vol): (Vol, Result<nat>)
    requires v.nblocks >= 2
  {
    var b := Lowest(v.free, 2, v.nblocks);
    if b == v.nblocks then (v, Err(NoDisk))
    else if b in v.mapped then (v.(free := v.free - {b}), Ok(b))
    else if v.pages == 0 then (v, Err(NoMem))
    else (v.(free := v.free - {b}, mapped := v.mapped + {b}, pages := v.pages - 1, blk := v.blk[b := ZeroTable()]),
          Ok(b))
  }

  function ReadBlock(v: Vol, b: nat): (Vol, Result<()>) {
    if b >= v.nblocks || b in v.free then (v, Panic)
    else if b in v.mapped then (v, Ok(()))
    else if v.pages == 0 then (v, Err(NoMem))
    else (v.(mapped := v.mapped + {b}, pages := v.pages - 1), Ok(()))
  }

  function SetIndirect(v: Vol, f: nat, b: nat): Vol
    requires f in v.files
  {
    v.(files := v.files[f := v.files[f].(indirect := b)])
  }

  /** file_block_walk, up to the pointer it finds: afterwards the pointer for
      block i of file f can be read and written. */
  function Walk(v: Vol, f: nat, i: nat, alloc: bool): (Vol, Result<()>)
    requires v.nblocks >= 2 && f in v.files
  {
    if i < NDIRECT then (v, Ok(()))
    else if i >= NINDIRECT then (v, Err(Inval))
    else if v.files[f].indirect != 0 then ReadBlock(v, v.files[f].indirect)
    else if !alloc then (v, Err(NotFound))
    else
      match AllocBlock(v)
      case (v', Ok(b)) => ReadBlock(SetIndirect(v', f, b), b)
      case (v', Err(e)) => (v', Err(e))
      case (v', Panic) => (v', Panic)
  }

  /** The pointer for block i of file f, 0 if there is none. */
  function BlockOf(v: Vol, f: nat, i: nat): nat {
    if f !in v.files then 0
    else if i < NDIRECT then v.files[f].direct[i]
    else if i >= NINDIRECT || v.files[f].indirect == 0 || v.files[f].indirect !in v.blk then 0
    else v.blk[v.files[f].indirect][i]
  }

  function SetBlock(v: Vol, f: nat, i: nat, b: nat): Vol
    requires f in v.files
  {
    if i < NDIRECT then v.(files := v.files[f := v.files[f].(direct := v.files[f].direct[i := b])])
    else if i < NINDIRECT && v.files[f].indirect in v.blk then
      v.(blk := v.blk[v.files[f].indirect := v.blk[v.files[f].indirect][i := b]])
    else v
  }

  function MapBlock(v: Vol, f: nat, i: nat, alloc: bool): (Vol, Result<nat>)
    requires v.nblocks >= 2 && f in v.files
  {
    match Walk(v, f, i, alloc)
    case (v', Err(e)) => (v', Err(e))
    case (v', Panic) => (v', Panic)
    case (v', Ok(_)) =>
      if BlockOf(v', f, i) != 0 then (v', Ok(BlockOf(v', f, i)))
      else if !alloc then (v', Err(NotFound))
      else
        match AllocBlock(v')
        case (w, Ok(b)) => (SetBlock(w, f, i, b), Ok(b))
        case (w, Err(e)) => (w, Err(e))
        case (w, Panic) => (w, Panic)
  }

  function ClearBlock(v: Vol, f: nat, i: nat): (Vol, Result<()>)
    requires v.nblocks >= 2 && f in v.files
  {
    match Walk(v, f, i, false)
    case (v', Ok(_)) =>
      var b := BlockOf(v', f, i);
      if b == 0 then (v', Ok(())) else (SetBlock(v'.(free := v'.free + {b}), f, i, 0), Ok(()))
    case (v', r) => (v', r)
  }

  // ---------------------------------------------------------------- ownership

  /** A place in the volume that may name a block. */
  datatype Slot = Direct(f: nat, i: nat) | Indirect(f: nat) | Entry(f: nat, i: nat)

  function Named(v: Vol, s: Slot): nat {
    match s
    case Direct(f, i) => if i < NDIRECT then BlockOf(v, f, i) else 0
    case Indirect(f) => if f in v.files then v.files[f].indirect else 0
    case Entry(f, i) => if NDIRECT <= i then BlockOf(v, f, i) else 0
  }

  function SlotFor(f: nat, i: nat): Slot {
    if i < NDIRECT then Slot.Direct(f, i) else Entry(f, i)
  }

  /** Boot block, super-block and bitmap. */
  function Reserved(v: Vol): nat {
    2 + (v.nblocks + 32767) / 32768
  }

  ghost predicate Shape(v: Vol) {
    v.nblocks >= 2 &&
    (forall b <- v.free :: Reserved(v) <= b < v.nblocks) &&
    (forall b | 0 <= b < v.nblocks :: b in v.blk)
  }

  predicate InUse(v: Vol, b: nat) {
    Reserved(v) <= b < v.nblocks && b !in v.free
  }

  /** Every block number in a file names a block of the data area that is in use,
      and no block is named twice. */
  ghost predicate Owned(v: Vol) {
    Shape(v) &&
    (forall s :: Named(v, s) != 0 ==> InUse(v, Named(v, s))) &&
    (forall s, t :: s != t && Named(v, s) != 0 ==> Named(v, s) != Named(v, t))
  }

  ghost predicate Unnamed(v: Vol, b: nat) {
    forall s :: Named(v, s) != b
  }

  /** No data block is in use without being named, except those in `but`. */
  ghost predicate NoLeak(v: Vol, but: set<nat>) {
    forall b | InUse(v, b) :: b in but || !Unnamed(v, b)
  }

  /** As an indirect block, t names blocks. */
  predicate StaleWords(t: Table) {
    exists j | NDIRECT <= j < NINDIRECT :: t[j] != 0
  }

  /** The call has to take a block to be f's indirect block. */
  predicate TakesIndirect(v: Vol, f: nat, i: nat, alloc: bool) {
    alloc && NDIRECT <= i < NINDIRECT && f in v.files && v.files[f].indirect == 0
  }

  /** And the next block alloc_block would hand out is still mapped with words in
      it that would be taken for block numbers. */
  predicate TakesStale(v: Vol, f: nat, i: nat, alloc: bool)
    requires v.nblocks >= 2
  {
    var b := Lowest(v.free, 2, v.nblocks);
    TakesIndirect(v, f, i, alloc) && b < v.nblocks && b in v.mapped && b in v.blk && StaleWords(v.blk[b])
  }

  ghost predicate SameNames(v: Vol, w: Vol) {
    forall s :: Named(w, s) == Named(v, s)
  }

  lemma AllocNames(v: Vol)
    requires Owned(v)
    ensures var (w, r) := AllocBlock(v);
            SameNames(v, w) && Owned(w) && w.files == v.files && w.nblocks == v.nblocks && !r.Panic? &&
            (r.Ok? ==> r.value in v.free && w.free == v.free - {r.value} && Unnamed(w, r.value) && InUse(w, r.value) &&
                       r.value in w.mapped) &&
            (r.Ok? ==> r.value == Lowest(v.free, 2, v.nblocks) && r.value in v.blk &&
                       w.blk == if r.value in v.mapped then v.blk else v.blk[r.value := ZeroTable()]) &&
            (!r.Ok? ==> w == v)
  {
    var (w, r) := AllocBlock(v);
    if r.Ok? {
      forall s ensures Named(w, s) == Named(v, s) && Named(w, s) != r.value {
        if !s.Indirect? {
          assert Named(v, Indirect(s.f)) != 0 ==> InUse(v, Named(v, Indirect(s.f)));
        }
        assert Named(v, s) != 0 ==> InUse(v, Named(v, s));
      }
    }
  }

  ghost predicate NamesBut(v: Vol, w: Vol, at: Slot, b: nat) {
    forall s :: Named(w, s) == if s == at then b else Named(v, s)
  }

  predicate Reachable(v: Vol, f: nat, i: nat) {
    f in v.files && (i < NDIRECT || (i < NINDIRECT && v.files[f].indirect != 0))
  }

  lemma SetNames(v: Vol, f: nat, i: nat, b: nat)
    requires Owned(v) && Reachable(v, f, i)
    ensures NamesBut(v, SetBlock(v, f, i, b), SlotFor(f, i), b)
  {
    var w := SetBlock(v, f, i, b);
    if i >= NDIRECT {
      assert InUse(v, Named(v, Indirect(f)));
    }
    forall s ensures Named(w, s) == if s == SlotFor(f, i) then b else Named(v, s) {
      assert s.f != f && Named(v, Indirect(s.f)) != 0 ==> Named(v, Indirect(s.f)) != Named(v, Indirect(f)) by {
        assert Indirect(s.f) != Indirect(f) <==> s.f != f;
      }
    }
  }

  lemma GiveBlock(v: Vol, f: nat, i: nat, b: nat)
    requires Owned(v) && Reachable(v, f, i) && Unnamed(v, b) && InUse(v, b)
    ensures Owned(SetBlock(v, f, i, b)) && NamesBut(v, SetBlock(v, f, i, b), SlotFor(f, i), b)
  {
    SetNames(v, f, i, b);
  }

  lemma GiveIndirect(v: Vol, f: nat, b: nat)
    requires Owned(v) && f in v.files && v.files[f].indirect == 0
    requires Unnamed(v, b) && InUse(v, b) && !StaleWords(v.blk[b])
    ensures Owned(SetIndirect(v, f, b)) && NamesBut(v, SetIndirect(v, f, b), Indirect(f), b)
  {
    var w := SetIndirect(v, f, b);
    forall s ensures Named(w, s) == if s == Indirect(f) then b else Named(v, s) {}
  }

  lemma TakeBlock(v: Vol, f: nat, i: nat)
    requires Owned(v) && Reachable(v, f, i) && BlockOf(v, f, i) != 0
    ensures var w := SetBlock(v.(free := v.free + {BlockOf(v, f, i)}), f, i, 0);
            Owned(w) && NamesBut(v, w, SlotFor(f, i), 0)
  {
    var b := BlockOf(v, f, i);
    var u := v.(free := v.free + {b});
    var w := SetBlock(u, f, i, 0);
    SetNames(v, f, i, 0);
    assert w == SetBlock(v, f, i, 0).(free := u.free);
    forall s ensures Named(w, s) == Named(SetBlock(v, f, i, 0), s) {}
    assert Named(v, SlotFor(f, i)) == b;
  }

  ghost predicate SameMap(v: Vol, w: Vol) {
    forall g, j :: BlockOf(w, g, j) == BlockOf(v, g, j)
  }

  /** Only block i of file f may differ. */
  ghost predicate SameMapBut(v: Vol, w: Vol, f: nat, i: nat) {
    forall g, j | !(g == f && j == i) :: BlockOf(w, g, j) == BlockOf(v, g, j)
  }

  ghost predicate SameSizes(v: Vol, w: Vol) {
    w.files.Keys == v.files.Keys && forall g <- v.files :: w.files[g].size == v.files[g].size
  }

  /** No block's contents as the server reads them change, names included. */
  lemma ReadKeeps(v: Vol, b: nat)
    requires Owned(v)
    ensures var (w, r) := ReadBlock(v, b);
            SameNames(v, w) && Owned(w) && w == v.(mapped := w.mapped, pages := w.pages) && (InUse(v, b) ==> !r.Panic?)
  {
    var (w, r) := ReadBlock(v, b);
    forall s ensures Named(w, s) == Named(v, s) {}
  }

  lemma SameNamesMap(v: Vol, w: Vol)
    requires SameNames(v, w)
    ensures SameMap(v, w)
  {
    forall g, j ensures BlockOf(w, g, j) == BlockOf(v, g, j) {
      assert Named(w, SlotFor(g, j)) == Named(v, SlotFor(g, j));
    }
  }

  /** The indirect block f owns in w but not in v. */
  function NewIndirect(v: Vol, w: Vol, f: nat): set<nat> {
    if Named(w, Indirect(f)) != Named(v, Indirect(f)) then {Named(w, Indirect(f))} else {}
  }

  lemma WalkKeeps(v: Vol, f: nat, i: nat, alloc: bool)
    requires Owned(v) && f in v.files && !TakesStale(v, f, i, alloc)
    ensures var (w, r) := Walk(v, f, i, alloc);
            && Owned(w) && !r.Panic? && SameMap(v, w) && SameSizes(v, w)
            && w.free == v.free - NewIndirect(v, w, f) && w.nblocks == v.nblocks
            && (r.Ok? ==> Reachable(w, f, i)) && (r == Err(Inval) <==> i >= NINDIRECT)
            && (!alloc ==> w == v.(mapped := w.mapped, pages := w.pages))
            && (r == Err(NotFound) ==> !alloc && BlockOf(v, f, i) == 0)
            && (NamesBut(v, w, Indirect(f), Named(w, Indirect(f))))
  {
    var (w, r) := Walk(v, f, i, alloc);
    if i < NDIRECT || i >= NINDIRECT || (v.files[f].indirect == 0 && !alloc) {
    } else if v.files[f].indirect != 0 {
      assert InUse(v, Named(v, Indirect(f)));
      ReadKeeps(v, v.files[f].indirect);
      SameNamesMap(v, w);
    } else {
      AllocNames(v);
      var (v', got) := AllocBlock(v);
      if got.Ok? {
        GiveIndirect(v', f, got.value);
        ReadKeeps(SetIndirect(v', f, got.value), got.value);
        forall g, j ensures BlockOf(w, g, j) == BlockOf(v, g, j) {
          assert Named(w, SlotFor(g, j)) == Named(v, SlotFor(g, j));
        }
      }
    }
  }

  lemma NoLeakStep(v: Vol, w: Vol, at: Slot)
    requires NoLeak(v, {}) && w.nblocks == v.nblocks && NamesBut(v, w, at, Named(w, at))
    requires Named(v, at) == 0 || Named(v, at) == Named(w, at)
    requires forall b | b in v.free && b !in w.free :: b == Named(w, at)
    ensures NoLeak(w, {})
  {
    forall b | InUse(w, b) ensures !Unnamed(w, b) {
      if b != Named(w, at) {
        assert InUse(v, b);
        var s :| Named(v, s) == b;
        assert Named(w, s) == b;
      }
    }
  }

  /** file_map_block keeps ownership on success and on every error; it changes
      at most the one map entry asked for, it takes exactly the blocks it
      names, and it never hands out a block that was in use. */
  lemma MapBlockKeeps(v: Vol, f: nat, i: nat, alloc: bool)
    requires Owned(v) && f in v.files && !TakesStale(v, f, i, alloc)
    ensures var (w, r) := MapBlock(v, f, i, alloc);
            && Owned(w) && !r.Panic? && SameMapBut(v, w, f, i) && SameSizes(v, w)
            && (r.Ok? ==> r.value == BlockOf(w, f, i) != 0)
            && (BlockOf(v, f, i) != 0 || !r.Ok? ==> SameMap(v, w) && w.free == v.free - NewIndirect(v, w, f))
            && (BlockOf(v, f, i) == 0 && r.Ok? ==>
                  r.value in v.free && w.free == v.free - NewIndirect(v, w, f) - {r.value})
            && (r == Err(Inval) <==> i >= NINDIRECT) && (r == Err(NotFound) ==> !alloc && BlockOf(v, f, i) == 0)
            && (!alloc ==> w == v.(mapped := w.mapped, pages := w.pages))
  {
    WalkKeeps(v, f, i, alloc);
    var (u, found) := Walk(v, f, i, alloc);
    if found.Ok? && BlockOf(u, f, i) == 0 && alloc {
      AllocNames(u);
      var (x, got) := AllocBlock(u);
      SameNamesMap(u, x);
      if got.Ok? {
        GiveBlock(x, f, i, got.value);
        var w := SetBlock(x, f, i, got.value);
        forall g, j | !(g == f && j == i) ensures BlockOf(w, g, j) == BlockOf(v, g, j) {
          assert Named(w, SlotFor(g, j)) == Named(x, SlotFor(g, j));
        }
        assert Named(w, SlotFor(f, i)) == got.value && Named(w, Indirect(f)) == Named(x, Indirect(f));
      }
    }
  }

  /** Nor does it lose track of a block, not even when it runs out half way. */
  lemma MapBlockNoLeak(v: Vol, f: nat, i: nat, alloc: bool)
    requires Owned(v) && NoLeak(v, {}) && f in v.files && !TakesStale(v, f, i, alloc)
    ensures NoLeak(MapBlock(v, f, i, alloc).0, {})
  {
    WalkKeeps(v, f, i, alloc);
    var (u, found) := Walk(v, f, i, alloc);
    NoLeakStep(v, u, Indirect(f));
    if found.Ok? && BlockOf(u, f, i) == 0 && alloc {
      AllocNames(u);
      var (x, got) := AllocBlock(u);
      if got.Ok? {
        GiveBlock(x, f, i, got.value);
        NoLeakStep(u, SetBlock(x, f, i, got.value), SlotFor(f, i));
      }
    }
  }

  /** A stale indirect block always breaks ownership: what it names is free, or not
      a data block, or named already. */
  lemma StaleBreaks(v: Vol, f: nat, i: nat)
    requires Owned(v) && NoLeak(v, {}) && TakesStale(v, f, i, true)
    ensures !Owned(MapBlock(v, f, i, true).0)
  {
    var b := Lowest(v.free, 2, v.nblocks);
    var j: nat :| NDIRECT <= j < NINDIRECT && v.blk[b][j] != 0;
    var w, x := MapBlock(v, f, i, true).0, v.blk[b][j];
    StaleNames(v, f, i, j);
    if InUse(v, x) {
      var s :| Named(v, s) == x;
      assert Named(w, s) == x && s != Entry(f, j);
    } else if x == b {
      assert Named(w, Indirect(f)) == b;
    } else if x in v.free && x !in w.free {
      assert Named(w, Entry(f, i)) == x && i != j;
    }
  }

  /** What such a call does to the names, word j of the block being stale. */
  lemma StaleNames(v: Vol, f: nat, i: nat, j: nat)
    requires Owned(v) && TakesStale(v, f, i, true)
    requires NDIRECT <= j < NINDIRECT && v.blk[Lowest(v.free, 2, v.nblocks)][j] != 0
    ensures var b, w := Lowest(v.free, 2, v.nblocks), MapBlock(v, f, i, true).0;
            && w.nblocks == v.nblocks && Named(w, Indirect(f)) == b && Named(w, Entry(f, j)) == v.blk[b][j]
            && (forall s | Named(v, s) != 0 :: Named(w, s) == Named(v, s))
            && Named(v, Entry(f, j)) == 0
            && (forall x | x in v.free && x !in w.free && x != b :: x == Named(w, Entry(f, i)) && i != j)
  {
    var b := Lowest(v.free, 2, v.nblocks);
    var u, w := Walk(v, f, i, true).0, MapBlock(v, f, i, true).0;
    assert u == SetIndirect(v.(free := v.free - {b}), f, b);
    forall s | Named(v, s) != 0 ensures Named(w, s) == Named(v, s) {
      if !s.Indirect? {
        assert Named(v, Indirect(s.f)) != 0 ==> InUse(v, Named(v, Indirect(s.f)));
      }
    }
  }

  /** file_map_block keeps ownership of a volume with no block lost if and only if
      it does not take a stale block to be an indirect block. */
  lemma MapBlockExact(v: Vol, f: nat, i: nat, alloc: bool)
    requires Owned(v) && NoLeak(v, {}) && f in v.files
    ensures Owned(MapBlock(v, f, i, alloc).0) <==> !TakesStale(v, f, i, alloc)
  {
    if TakesStale(v, f, i, alloc) {
      StaleBreaks(v, f, i);
    } else {
      MapBlockKeeps(v, f, i, alloc);
    }
  }

  lemma ClearBlockKeeps(v: Vol, f: nat, i: nat)
    requires Owned(v) && f in v.files
    ensures var (w, r) := ClearBlock(v, f, i);
            && Owned(w) && !r.Panic? && SameMapBut(v, w, f, i) && SameSizes(v, w) && w.nblocks == v.nblocks
            && (forall g :: Named(w, Indirect(g)) == Named(v, Indirect(g)))
            && (BlockOf(w, f, i) == if r.Ok? then 0 else BlockOf(v, f, i))
            && w.free == v.free + (if r.Ok? && BlockOf(v, f, i) != 0 then {BlockOf(v, f, i)} else {})
            && v.mapped <= w.mapped &&
              (r == Err(NoMem) ==> NDIRECT <= i && v.pages == 0 && v.files[f].indirect !in v.mapped)
            && (r.Err? ==> r == Err(NoMem) || BlockOf(v, f, i) == 0)
            && (r.Ok? && i >= NDIRECT ==> v.files[f].indirect in w.mapped)
  {
    WalkKeeps(v, f, i, false);
    var (u, found) := Walk(v, f, i, false);
    if i >= NDIRECT && i < NINDIRECT && v.files[f].indirect != 0 {
      assert InUse(v, Named(v, Indirect(f)));
    }
    if found.Ok? && BlockOf(u, f, i) != 0 {
      TakeBlock(u, f, i);
      var w := ClearBlock(v, f, i).0;
      forall g, j | !(g == f && j == i) ensures BlockOf(w, g, j) == BlockOf(v, g, j) {
        assert Named(w, SlotFor(g, j)) == Named(u, SlotFor(g, j));
      }
      forall g ensures Named(w, Indirect(g)) == Named(v, Indirect(g)) {
        assert Named(w, Indirect(g)) == Named(u, Indirect(g));
      }
      assert Named(w, SlotFor(f, i)) == 0;
    }
  }

  /** Clearing never loses track of a block either. */
  lemma ClearBlockNoLeak(v: Vol, f: nat, i: nat)
    requires Owned(v) && NoLeak(v, {}) && f in v.files
    ensures NoLeak(ClearBlock(v, f, i).0, {})
  {
    ClearBlockKeeps(v, f, i);
    var w := ClearBlock(v, f, i).0;
    forall b | InUse(w, b) ensures !Unnamed(w, b) {
      assert InUse(v, b);
      var s :| Named(v, s) == b;
      assert Named(w, s) == b by {
        if !s.Indirect? && !(s.f == f && s.i == i) {
          assert BlockOf(w, s.f, s.i) == BlockOf(v, s.f, s.i);
        }
      }
    }
  }

  // ---------------------------------------------------------------- truncation

  /** Blocks needed for `size` bytes, in 32-bit arithmetic. */
  function BlockCount(size: nat): nat {
    (size + BY2BLK - 1) % 0x1_0000_0000 / BY2BLK
  }

  /** The loop of file_truncate; an error of file_clear_block is ignored. */
  function ClearFrom(v: Vol, f: nat, i: nat, n: nat): (w: Vol)
    requires v.nblocks >= 2 && f in v.files
    ensures w.files.Keys == v.files.Keys && w.nblocks == v.nblocks
    decreases n - i
  {
    if i >= n then v
    else ClearFrom(ClearBlock(v, f, i).0, f, i + 1, n)
  }

  function SetSize(v: Vol, f: nat, size: nat): (w: Vol)
    requires f in v.files
    ensures SameNames(v, w) && SameMap(v, w) && (Owned(v) <==> Owned(w))
  {
    var w := v.(files := v.files[f := v.files[f].(size := size)]);
    assert forall s :: Named(w, s) == Named(v, s);
    SameNamesMap(v, w);
    w
  }

  /** A panic of file_clear_block in the loop is not ignored. It takes a broken
      volume: the indirect block is free, or becomes free on the way. */
  predicate ClearPanics(v: Vol, f: nat, i: nat, n: nat)
    requires v.nblocks >= 2 && f in v.files
    decreases n - i
  {
    i < n && (ClearBlock(v, f, i).1.Panic? || ClearPanics(ClearBlock(v, f, i).0, f, i + 1, n))
  }

  lemma {:induction false} NoClearPanics(v: Vol, f: nat, i: nat, n: nat)
    requires Owned(v) && f in v.files
    ensures !ClearPanics(v, f, i, n)
    decreases n - i
  {
    if i < n {
      ClearBlockKeeps(v, f, i);
      NoClearPanics(ClearBlock(v, f, i).0, f, i + 1, n);
    }
  }

  /** file_truncate as written: if the file no longer needs its indirect block,
      the block is freed but the file goes on naming it. */
  function Truncate(v: Vol, f: nat, newsize: nat): (r: (Vol, Result<()>))
    requires v.nblocks >= 2 && f in v.files
    ensures r.0.files.Keys == v.files.Keys
  {
    var oldn, newn := BlockCount(v.files[f].size), BlockCount(newsize);
    var w := ClearFrom(SetSize(v, f, newsize), f, newn, oldn);
    if ClearPanics(SetSize(v, f, newsize), f, newn, oldn) then (w, Panic)
    else if oldn > NDIRECT && newn <= NDIRECT then
      if v.files[f].indirect == 0 then (w, Panic)
      else (w.(free := w.free + {v.files[f].indirect}), Ok(()))
    else (w, Ok(()))
  }

  predicate Crosses(v: Vol, f: nat, newsize: nat)
    requires f in v.files
  {
    BlockCount(v.files[f].size) > NDIRECT && BlockCount(newsize) <= NDIRECT
  }

  ghost function Removed(v: Vol, f: nat, i: nat, n: nat): set<nat> {
    set j: nat | i <= j < n && BlockOf(v, f, j) != 0 :: BlockOf(v, f, j)
  }

  /** The indirect block, if there is one, is in memory or can be brought there. */
  predicate CanRead(v: Vol, f: nat)
    requires f in v.files
  {
    v.files[f].indirect in v.mapped || v.pages > 0
  }

  /** How far the clearing loop gets: errors of file_clear_block are ignored, and
      without a page for the indirect block nothing in it is cleared. */
  function Reach(v: Vol, f: nat, n: nat): nat
    requires f in v.files
  {
    if CanRead(v, f) || n < NDIRECT then n else NDIRECT
  }

  lemma ClearReads(v: Vol, f: nat, i: nat)
    requires Owned(v) && f in v.files
    ensures var u := ClearBlock(v, f, i).0; f in u.files && (CanRead(u, f) <==> CanRead(v, f))
  {
    if NDIRECT <= i && v.files[f].indirect != 0 {
      assert InUse(v, Named(v, Indirect(f)));
    }
  }

  lemma RemovedFirst(v: Vol, u: Vol, f: nat, i: nat, n: nat)
    requires i < n && SameMapBut(v, u, f, i)
    ensures Removed(v, f, i, n) == Removed(u, f, i + 1, n) + if BlockOf(v, f, i) != 0 then {BlockOf(v, f, i)} else {}
  {
    forall j: nat | i < j < n ensures BlockOf(u, f, j) == BlockOf(v, f, j) {}
  }

  lemma {:induction false} ClearFromExact(v: Vol, f: nat, i: nat, n: nat)
    requires Owned(v) && f in v.files
    ensures var w := ClearFrom(v, f, i, n);
            && Owned(w) && SameSizes(v, w) && w.nblocks == v.nblocks
            && (forall g, j: nat :: BlockOf(w, g, j) == if g == f && i <= j < Reach(v, f, n) then 0
                else BlockOf(v, g, j))
            && (forall g :: Named(w, Indirect(g)) == Named(v, Indirect(g)))
            && w.free == v.free + Removed(v, f, i, Reach(v, f, n))
    decreases n - i
  {
    if i < n {
      ClearOne(v, f, i, n);
      var u := ClearBlock(v, f, i).0;
      ClearFromExact(u, f, i + 1, n);
      hide Owned, Removed, ClearBlock, BlockOf, Reach, CanRead;
    }
  }

  /** One round of the loop. */
  lemma ClearOne(v: Vol, f: nat, i: nat, n: nat)
    requires Owned(v) && f in v.files && i < n
    ensures var u := ClearBlock(v, f, i).0;
            && Owned(u) && f in u.files && Reach(u, f, n) == Reach(v, f, n) && SameSizes(v, u) && u.nblocks == v.nblocks
            && (forall g, j :: BlockOf(u, g, j) == if g == f && j == i < Reach(v, f, n) then 0 else BlockOf(v, g, j))
            && (forall g :: Named(u, Indirect(g)) == Named(v, Indirect(g)))
            && u.free + Removed(u, f, i + 1, Reach(v, f, n)) == v.free + Removed(v, f, i, Reach(v, f, n))
  {
    ClearBlockKeeps(v, f, i);
    ClearReads(v, f, i);
    var u := ClearBlock(v, f, i).0;
    var end := Reach(v, f, n);
    assert Named(u, Indirect(f)) == Named(v, Indirect(f));
    if i < end {
      hide Owned;
      RemovedFirst(v, u, f, i, end);
    }
  }

  lemma {:induction false} ClearFromNoLeak(v: Vol, f: nat, i: nat, n: nat)
    requires Owned(v) && f in v.files && NoLeak(v, {})
    ensures NoLeak(ClearFrom(v, f, i, n), {})
    decreases n - i
  {
    if i < n {
      ClearBlockKeeps(v, f, i);
      ClearBlockNoLeak(v, f, i);
      ClearFromNoLeak(ClearBlock(v, f, i).0, f, i + 1, n);
    }
  }

  /** file_truncate, exactly. It panics if and only if it crosses NDIRECT in a
      file without an indirect block. Otherwise the map below the new length and
      every other file stay, everything up to the old length is cleared as far
      as the loop reaches, the free set grows by exactly the blocks so removed
      and by the indirect block if NDIRECT is crossed. Ownership survives if and
      only if NDIRECT is not crossed: then the indirect block is named although
      it is free. */
  lemma TruncateExact(v: Vol, f: nat, newsize: nat)
    requires Owned(v) && f in v.files
    ensures var (w, r) := Truncate(v, f, newsize);
            var end, newn, ind := Reach(v, f, BlockCount(v.files[f].size)), BlockCount(newsize), v.files[f].indirect;
            && (r.Panic? <==> Crosses(v, f, newsize) && ind == 0)
            && (forall g, j: nat :: BlockOf(w, g, j) == if g == f && newn <= j < end then 0 else BlockOf(v, g, j))
            && f in w.files && w.files[f].size == newsize
            && (forall g :: Named(w, Indirect(g)) == Named(v, Indirect(g)))
            && w.free == v.free + Removed(v, f, newn, end) + (if Crosses(v, f, newsize) && ind != 0 then {ind} else {})
            && (!r.Panic? ==> (Owned(w) <==> !Crosses(v, f, newsize)))
  {
    var oldn, newn := BlockCount(v.files[f].size), BlockCount(newsize);
    var u := SetSize(v, f, newsize);
    ClearFromExact(u, f, newn, oldn);
    NoClearPanics(u, f, newn, oldn);
    var c := ClearFrom(u, f, newn, oldn);
    var w := Truncate(v, f, newsize).0;
    assert Removed(u, f, newn, Reach(v, f, oldn)) == Removed(v, f, newn, Reach(v, f, oldn));
    forall g ensures Named(w, Indirect(g)) == Named(v, Indirect(g)) {
      assert Named(c, Indirect(g)) == Named(u, Indirect(g)) == Named(v, Indirect(g));
    }
    forall g, j: nat ensures BlockOf(w, g, j) == BlockOf(c, g, j) {}
    if Crosses(v, f, newsize) && v.files[f].indirect != 0 {
      assert Named(w, Indirect(f)) == v.files[f].indirect && !InUse(w, Named(w, Indirect(f)));
    }
  }

  /** The blocks counted are those that hold a byte below the size. Within 4095 bytes of
      2^32 the sum wraps, and no blocks are counted. */
  lemma CountMeans(size: nat)
    requires size < 0x1_0000_0000
    ensures size <= 0x1_0000_0000 - BY2BLK ==> forall i: nat :: i < BlockCount(size) <==> i * BY2BLK < size
    ensures size > 0x1_0000_0000 - BY2BLK ==> BlockCount(size) == 0
  {
  }

  /** Every block that holds a byte below both sizes is kept; and between the new size and
      the old one nothing is left if the indirect block can be reached. */
  lemma TruncateBytes(v: Vol, f: nat, newsize: nat)
    requires Owned(v) && f in v.files && v.files[f].size <= 0x1_0000_0000 - BY2BLK
    requires newsize <= 0x1_0000_0000 - BY2BLK
    ensures var w, size := Truncate(v, f, newsize).0, v.files[f].size;
            && (forall i: nat | i * BY2BLK < newsize || i * BY2BLK >= size :: BlockOf(w, f, i) == BlockOf(v, f, i))
            && (CanRead(v, f) ==> forall i: nat | newsize <= i * BY2BLK < size :: BlockOf(w, f, i) == 0)
  {
    TruncateExact(v, f, newsize);
    CountMeans(newsize);
    CountMeans(v.files[f].size);
    hide Owned, Truncate, BlockOf, BlockCount;
  }

  /** With a new size above that bound it clears every block instead, and from an old one
      none. */
  lemma TruncateWraps(v: Vol, f: nat, newsize: nat)
    requires Owned(v) && f in v.files && v.files[f].size < 0x1_0000_0000 && newsize < 0x1_0000_0000
    ensures var w, size := Truncate(v, f, newsize).0, v.files[f].size;
            && (newsize > 0x1_0000_0000 - BY2BLK && size <= 0x1_0000_0000 - BY2BLK && CanRead(v, f) ==>
                  forall i: nat | i * BY2BLK < size :: BlockOf(w, f, i) == 0)
            && (size > 0x1_0000_0000 - BY2BLK ==> forall i: nat :: BlockOf(w, f, i) == BlockOf(v, f, i))
  {
    TruncateExact(v, f, newsize);
    CountMeans(newsize);
    CountMeans(v.files[f].size);
    hide Owned, Truncate, BlockOf, BlockCount;
  }

  /** Freeing a file's indirect block and forgetting it takes with it every name
      in its table. */
  lemma DropIndirect(c: Vol, f: nat)
    requires Owned(c) && f in c.files && c.files[f].indirect != 0
    ensures var w := SetIndirect(c.(free := c.free + {c.files[f].indirect}), f, 0);
            && Owned(w)
            && (forall s :: Named(w, s) == if s == Indirect(f) || (s.Entry? && s.f == f) then 0 else Named(c, s))
  {
    var ind := c.files[f].indirect;
    var w := SetIndirect(c.(free := c.free + {ind}), f, 0);
    assert Named(c, Indirect(f)) == ind;
    forall s ensures Named(w, s) == if s == Indirect(f) || (s.Entry? && s.f == f) then 0 else Named(c, s) {}
    assert InUse(c, ind);
  }

  lemma DropIndirectNoLeak(c: Vol, f: nat)
    requires Owned(c) && f in c.files && c.files[f].indirect != 0 && NoLeak(c, {})
    ensures NoLeak(SetIndirect(c.(free := c.free + {c.files[f].indirect}), f, 0), {}) <==>
            forall j: nat | j >= NDIRECT :: BlockOf(c, f, j) == 0
  {
    DropIndirect(c, f);
    var w := SetIndirect(c.(free := c.free + {c.files[f].indirect}), f, 0);
    if j: nat :| j >= NDIRECT && BlockOf(c, f, j) != 0 {
      var b := Named(c, Entry(f, j));
      assert InUse(c, b) && b != Named(c, Indirect(f));
      assert InUse(w, b) && Unnamed(w, b);
    } else {
      forall b | InUse(w, b) ensures !Unnamed(w, b) {
        assert InUse(c, b);
        var s :| Named(c, s) == b;
        assert Named(w, s) == b;
      }
    }
  }

  /** The loop does all that is asked exactly if a page for the indirect block
      can be had, or there is nothing to clear in it. */
  lemma TruncateClears(v: Vol, f: nat, newsize: nat)
    requires Owned(v) && f in v.files
    ensures var w, oldn, newn := Truncate(v, f, newsize).0, BlockCount(v.files[f].size), BlockCount(newsize);
            (forall j: nat | newn <= j < oldn :: BlockOf(w, f, j) == 0) <==>
            CanRead(v, f) || forall j: nat | newn <= j < oldn && NDIRECT <= j :: BlockOf(v, f, j) == 0
  {
    TruncateExact(v, f, newsize);
    var w, oldn, newn := Truncate(v, f, newsize).0, BlockCount(v.files[f].size), BlockCount(newsize);
    hide Owned, Truncate, BlockOf;
    forall j: nat | newn <= j < oldn
      ensures BlockOf(w, f, j) == 0 <==> CanRead(v, f) || j < NDIRECT || BlockOf(v, f, j) == 0 {}
  }

  /** The repair the comment on file_truncate asks for: clearing f_indirect when
      the block is freed restores ownership, and loses no block if and only if
      the table is empty from where the loop stopped. */
  lemma TruncateRepaired(v: Vol, f: nat, newsize: nat)
    requires Owned(v) && f in v.files && Crosses(v, f, newsize) && v.files[f].indirect != 0
    ensures var w := SetIndirect(Truncate(v, f, newsize).0, f, 0);
            Owned(w) &&
            (NoLeak(v, {}) ==>
              (NoLeak(w, {}) <==> forall j: nat | j >= Reach(v, f, BlockCount(v.files[f].size)) ::
               BlockOf(v, f, j) == 0))
  {
    var oldn, newn := BlockCount(v.files[f].size), BlockCount(newsize);
    var u := SetSize(v, f, newsize);
    ClearFromExact(u, f, newn, oldn);
    NoClearPanics(u, f, newn, oldn);
    var c := ClearFrom(u, f, newn, oldn);
    assert Named(c, Indirect(f)) == Named(u, Indirect(f)) == Named(v, Indirect(f));
    DropIndirect(c, f);
    var end := Reach(v, f, oldn);
    assert forall j: nat :: BlockOf(c, f, j) == if newn <= j < end then 0 else BlockOf(v, f, j);
    if NoLeak(v, {}) {
      SetSizeNoLeak(v, f, newsize);
      ClearFromNoLeak(u, f, newn, oldn);
      DropIndirectNoLeak(c, f);
      hide Owned, NoLeak, Truncate, ClearFrom, BlockOf, SetSize, Named;
      if forall j: nat | j >= NDIRECT :: BlockOf(c, f, j) == 0 {
        forall j: nat | j >= end ensures BlockOf(v, f, j) == 0 {
          assert BlockOf(c, f, j) == BlockOf(v, f, j);
        }
      }
      if forall j: nat | j >= end :: BlockOf(v, f, j) == 0 {
        forall j: nat | j >= NDIRECT ensures BlockOf(c, f, j) == 0 {
          assert j < end ==> newn <= j;
        }
      }
    }
  }

  lemma SetSizeNoLeak(v: Vol, f: nat, size: nat)
    requires Owned(v) && f in v.files && NoLeak(v, {})
    ensures NoLeak(SetSize(v, f, size), {})
  {
    var u := SetSize(v, f, size);
    forall b | InUse(u, b) ensures !Unnamed(u, b) {
      assert InUse(v, b);
      var s :| Named(v, s) == b;
      assert Named(u, s) == b;
    }
  }

  function Nonzero(v: Vol, f: nat, i: nat, n: nat): nat
    decreases n - i
  {
    if i >= n then 0 else (if BlockOf(v, f, i) != 0 then 1 else 0) + Nonzero(v, f, i + 1, n)
  }

  /** As a number: truncation frees one block per nonzero map entry it clears,
      plus the indirect block. Conservation needs that no block is named twice. */
  lemma TruncateCount(v: Vol, f: nat, newsize: nat)
    requires Owned(v) && f in v.files
    ensures |Truncate(v, f, newsize).0.free| ==
            |v.free| + Nonzero(v, f, BlockCount(newsize), Reach(v, f, BlockCount(v.files[f].size))) +
            if Crosses(v, f, newsize) && v.files[f].indirect != 0 then 1 else 0
  {
    var newn, end := BlockCount(newsize), Reach(v, f, BlockCount(v.files[f].size));
    TruncateExact(v, f, newsize);
    RemovedCount(v, f, newn, end);
    RemovedWereUsed(v, f, newn, end);
    hide Owned, Truncate, BlockOf;
    assert v.free !! Removed(v, f, newn, end);
  }

  lemma RemovedWereUsed(v: Vol, f: nat, i: nat, n: nat)
    requires Owned(v) && f in v.files
    ensures forall b <- Removed(v, f, i, n) :: b !in v.free && b != v.files[f].indirect
    ensures v.files[f].indirect != 0 ==> v.files[f].indirect !in v.free
  {
    assert Named(v, Indirect(f)) == v.files[f].indirect;
    forall b <- Removed(v, f, i, n) ensures b !in v.free && b != v.files[f].indirect {
      var j: nat :| i <= j < n && BlockOf(v, f, j) == b && b != 0;
      assert Named(v, SlotFor(f, j)) == b;
    }
  }

  lemma {:induction false} RemovedCount(v: Vol, f: nat, i: nat, n: nat)
    requires Owned(v)
    ensures |Removed(v, f, i, n)| == Nonzero(v, f, i, n)
    decreases n - i
  {
    if i < n {
      RemovedCount(v, f, i + 1, n);
      var b, rest := BlockOf(v, f, i), Removed(v, f, i + 1, n);
      if b != 0 {
        assert Removed(v, f, i, n) == rest + {b};
        forall j: nat | i < j < n ensures BlockOf(v, f, j) != b {
          assert Named(v, SlotFor(f, i)) == b && Named(v, SlotFor(f, j)) == BlockOf(v, f, j);
          assert SlotFor(f, i) != SlotFor(f, j);
        }
      } else {
        assert Removed(v, f, i, n) == rest;
      }
    } else {
      assert Removed(v, f, i, n) == {};
    }
  }

  // ------------------------------------------- after an indirect block is freed

  /** What the server does for other files meanwhile. */
  datatype Use = Map(g: nat, j: nat, alloc: bool) | Clear(g: nat, j: nat)

  lemma UsedShape(v: Vol, use: Use)
    requires v.nblocks >= 2 && use.g in v.files
    ensures var w := if use.Map? then MapBlock(v, use.g, use.j, use.alloc).0 else ClearBlock(v, use.g, use.j).0;
            w.files.Keys == v.files.Keys && w.nblocks == v.nblocks
  {
    var alloc := use.Map? && use.alloc;
    WalkShape(v, use.g, use.j, alloc);
    AllocShape(Walk(v, use.g, use.j, alloc).0);
    hide Walk, AllocBlock, BlockOf;
  }

  lemma AllocShape(v: Vol)
    requires v.nblocks >= 2
    ensures AllocBlock(v).0.files == v.files && AllocBlock(v).0.nblocks == v.nblocks
  {
  }

  lemma WalkShape(v: Vol, f: nat, i: nat, alloc: bool)
    requires v.nblocks >= 2 && f in v.files
    ensures Walk(v, f, i, alloc).0.files.Keys == v.files.Keys && Walk(v, f, i, alloc).0.nblocks == v.nblocks
  {
    AllocShape(v);
    hide AllocBlock;
  }

  function Used(v: Vol, use: Use): (w: Vol)
    requires v.nblocks >= 2 && use.g in v.files
    ensures w.files.Keys == v.files.Keys && w.nblocks == v.nblocks
  {
    UsedShape(v, use);
    match use
    case Map(g, j, alloc) => MapBlock(v, g, j, alloc).0
    case Clear(g, j) => ClearBlock(v, g, j).0
  }

  predicate UseStale(v: Vol, use: Use)
    requires v.nblocks >= 2
  {
    use.Map? && TakesStale(v, use.g, use.j, use.alloc)
  }

  /** Other files than f are used, and no new indirect block is stale. */
  ghost predicate UsesOk(v: Vol, f: nat, uses: seq<Use>)
    requires v.nblocks >= 2
    decreases |uses|
  {
    uses != [] ==>
      uses[0].g in v.files && uses[0].g != f && !UseStale(v, uses[0]) &&
      UsesOk(Used(v, uses[0]), f, uses[1..])
  }

  ghost function AfterUses(v: Vol, f: nat, uses: seq<Use>): (w: Vol)
    requires v.nblocks >= 2 && UsesOk(v, f, uses)
    ensures w.files.Keys == v.files.Keys && w.nblocks == v.nblocks
    decreases |uses|
  {
    if uses == [] then v else AfterUses(Used(v, uses[0]), f, uses[1..])
  }

  /** v without the indirect pointer of f. */
  function Forgotten(v: Vol, f: nat): Vol
    requires f in v.files
  {
    SetIndirect(v, f, 0)
  }

  /** File f still names block ind as its indirect block, which is free or has
      been given to another file; all else is owned as it should be. */
  ghost predicate Dangling(v: Vol, f: nat, ind: nat) {
    f in v.files && v.files[f].indirect == ind != 0 && ind < v.nblocks && Owned(Forgotten(v, f)) &&
    (forall j: nat | j < NDIRECT :: v.files[f].direct[j] != ind) &&
    (ind in v.free || !Unnamed(Forgotten(v, f), ind))
  }

  lemma SetBlockApart(v: Vol, f: nat, g: nat, j: nat, b: nat)
    requires f in v.files && g in v.files && g != f
    ensures SetBlock(Forgotten(v, f), g, j, b) == Forgotten(SetBlock(v, g, j, b), f)
  {
    assert SetBlock(Forgotten(v, f), g, j, b).files == Forgotten(SetBlock(v, g, j, b), f).files;
  }

  lemma AllocApart(v: Vol, f: nat)
    requires v.nblocks >= 2 && f in v.files
    ensures var (w, r) := AllocBlock(v);
            f in w.files && w.files == v.files && AllocBlock(Forgotten(v, f)) == (Forgotten(w, f), r)
  {
  }

  lemma WalkApart(v: Vol, f: nat, g: nat, j: nat, alloc: bool)
    requires v.nblocks >= 2 && f in v.files && g in v.files && g != f
    ensures var (w, r) := Walk(v, g, j, alloc);
            f in w.files && g in w.files && w.nblocks == v.nblocks && w.files[f] == v.files[f] &&
            Walk(Forgotten(v, f), g, j, alloc) == (Forgotten(w, f), r)
  {
    AllocApart(v, f);
    var x := AllocBlock(v).0;
    var b := if AllocBlock(v).1.Ok? then AllocBlock(v).1.value else 0;
    assert SetIndirect(Forgotten(x, f), g, b).files == Forgotten(SetIndirect(x, g, b), f).files;
    hide AllocBlock;
  }

  /** Using another file does not look at f. */
  lemma UsedApart(v: Vol, f: nat, use: Use)
    requires v.nblocks >= 2 && f in v.files && use.g in v.files && use.g != f
    ensures Used(Forgotten(v, f), use) == Forgotten(Used(v, use), f)
    ensures Used(v, use).files[f] == v.files[f]
  {
    var g, j := use.g, use.j;
    WalkApart(v, f, g, j, use.Map? && use.alloc);
    var w := Walk(v, g, j, use.Map? && use.alloc).0;
    assert BlockOf(Forgotten(w, f), g, j) == BlockOf(w, g, j);
    if use.Map? {
      AllocApart(w, f);
      var (x, r) := AllocBlock(w);
      SetBlockApart(x, f, g, j, if r.Ok? then r.value else 0);
    } else {
      SetBlockApart(w.(free := w.free + {BlockOf(w, g, j)}), f, g, j, 0);
    }
    hide Walk, AllocBlock, BlockOf, SetBlock;
  }

  /** file_map_block and file_clear_block keep every name, but for the one cleared. */
  lemma NamesStay(v: Vol, use: Use, s: Slot)
    requires Owned(v) && use.g in v.files && !UseStale(v, use) && Named(v, s) != 0
    ensures Named(Used(v, use), s) == Named(v, s) || Named(v, s) in Used(v, use).free
  {
    var g, j, w := use.g, use.j, Used(v, use);
    if use.Map? {
      WalkKeeps(v, g, j, use.alloc);
      MapBlockKeeps(v, g, j, use.alloc);
      var (u, found) := Walk(v, g, j, use.alloc);
      if found.Ok? && BlockOf(u, g, j) == 0 && use.alloc {
        AllocNames(u);
        var (x, got) := AllocBlock(u);
        if got.Ok? {
          GiveBlock(x, g, j, got.value);
        }
      }
    } else {
      ClearBlockKeeps(v, g, j);
    }
    if !s.Indirect? {
      assert BlockOf(v, s.f, s.i) == Named(v, s);
      assert !(s.f == g && s.i == j) ==> BlockOf(w, s.f, s.i) == BlockOf(v, s.f, s.i);
    }
  }

  /** A block that other files take is named by one of them. */
  lemma TakenIsNamed(v: Vol, use: Use, b: nat)
    requires Owned(v) && use.g in v.files && !UseStale(v, use)
    requires b in v.free && b !in Used(v, use).free
    ensures !Unnamed(Used(v, use), b)
  {
    var g, j, w := use.g, use.j, Used(v, use);
    if use.Map? {
      MapBlockKeeps(v, g, j, use.alloc);
      assert Named(w, SlotFor(g, j)) == BlockOf(w, g, j);
      assert b == Named(w, Indirect(g)) || b == Named(w, SlotFor(g, j));
    } else {
      ClearBlockKeeps(v, g, j);
    }
  }

  lemma UsedKeepsDangling(v: Vol, f: nat, ind: nat, use: Use)
    requires v.nblocks >= 2 && Dangling(v, f, ind) && use.g in v.files && use.g != f && !UseStale(v, use)
    ensures Dangling(Used(v, use), f, ind)
  {
    UsedApart(v, f, use);
    var u := Forgotten(v, f);
    assert Lowest(u.free, 2, u.nblocks) == Lowest(v.free, 2, v.nblocks);
    var w := Used(u, use);
    if use.Map? {
      MapBlockKeeps(u, use.g, use.j, use.alloc);
    } else {
      ClearBlockKeeps(u, use.g, use.j);
    }
    if ind !in w.free {
      if ind in v.free {
        TakenIsNamed(u, use, ind);
      } else {
        var s :| Named(u, s) == ind;
        NamesStay(u, use, s);
      }
    }
  }

  lemma {:induction false} UsesKeepDangling(v: Vol, f: nat, ind: nat, uses: seq<Use>)
    requires v.nblocks >= 2 && Dangling(v, f, ind) && UsesOk(v, f, uses)
    ensures Dangling(AfterUses(v, f, uses), f, ind)
    decreases |uses|
  {
    if uses != [] {
      UsedKeepsDangling(v, f, ind, uses[0]);
      UsesKeepDangling(Used(v, uses[0]), f, ind, uses[1..]);
    }
  }

  lemma TruncateDangles(v: Vol, f: nat, newsize: nat)
    requires Owned(v) && f in v.files && Crosses(v, f, newsize) && v.files[f].indirect != 0
    ensures Dangling(Truncate(v, f, newsize).0, f, v.files[f].indirect) &&
            v.files[f].indirect in Truncate(v, f, newsize).0.free
  {
    TruncateExact(v, f, newsize);
    TruncateRepaired(v, f, newsize);
    var w := Truncate(v, f, newsize).0;
    assert Named(w, Indirect(f)) == Named(v, Indirect(f));
    assert InUse(v, Named(v, Indirect(f)));
    assert Owned(Forgotten(w, f));
    forall j: nat | j < NDIRECT ensures w.files[f].direct[j] != v.files[f].indirect {
      assert BlockOf(w, f, j) == 0 || BlockOf(w, f, j) == BlockOf(v, f, j) == Named(v, Direct(f, j));
    }
  }

  /** What the missing store costs. After such a truncation and whatever is done
      for other files, the next use of the file beyond its direct blocks panics if
      and only if the old indirect block is still free. If it is not, another file
      owns it too, and an allocation writes into it. */
  lemma TruncateCosts(v: Vol, f: nat, newsize: nat, uses: seq<Use>, i: nat, alloc: bool)
    requires Owned(v) && f in v.files && Crosses(v, f, newsize) && v.files[f].indirect != 0 && NDIRECT <= i < NINDIRECT
    requires var t := Truncate(v, f, newsize).0; t.nblocks >= 2 && UsesOk(t, f, uses)
    ensures var ind, w := v.files[f].indirect, AfterUses(Truncate(v, f, newsize).0, f, uses);
            f in w.files &&
            var (x, r) := MapBlock(w, f, i, alloc);
            && (r.Panic? <==> ind in w.free)
            && (ind !in w.free ==> exists s: Slot :: s.f != f && Named(w, s) == ind)
            && (alloc && BlockOf(w, f, i) == 0 && r.Ok? ==>
                ind in w.blk && ind in x.blk && x.blk[ind] == w.blk[ind][i := r.value])
  {
    var ind := v.files[f].indirect;
    TruncateDangles(v, f, newsize);
    var t := Truncate(v, f, newsize).0;
    UsesKeepDangling(t, f, ind, uses);
    var w := AfterUses(t, f, uses);
    DanglingUse(w, f, ind, i, alloc);
  }

  lemma DanglingUse(w: Vol, f: nat, ind: nat, i: nat, alloc: bool)
    requires w.nblocks >= 2 && Dangling(w, f, ind) && NDIRECT <= i < NINDIRECT
    ensures var (x, r) := MapBlock(w, f, i, alloc);
            && (r.Panic? <==> ind in w.free)
            && (ind !in w.free ==> exists s: Slot :: s.f != f && Named(w, s) == ind)
            && (alloc && BlockOf(w, f, i) == 0 && r.Ok? ==>
                ind in w.blk && ind in x.blk && x.blk[ind] == w.blk[ind][i := r.value])
  {
    if ind !in w.free {
      var u := Forgotten(w, f);
      var s :| Named(u, s) == ind;
      assert Named(w, s) == Named(u, s);
      assert s.f != f;
    }
  }
}
