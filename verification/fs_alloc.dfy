/** When blocks can be had: the exact outcome of alloc_block and read_block, and from
    it when file_map_block and the growth of a directory succeed. */
module BlockSupply {
  import opened Volume
  import opened DirGrowth

  predicate IsLowest(v: Vol, b: nat) {
    2 <= b < v.nblocks && b in v.free && forall c | 2 <= c < b :: c !in v.free
  }

  /** A free block can be taken: it is in memory, or there is a page for it. */
  ghost predicate CanAlloc(v: Vol) {
    exists b :: IsLowest(v, b) && (b in v.mapped || v.pages > 0)
  }

  /** What alloc_block may make of v. It takes the lowest free block, which is zero
      unless it was in memory. */
  ghost predicate Allocates(v: Vol, w: Vol, r: Result<nat>) {
    match r
    case Ok(b) =>
      IsLowest(v, b) &&
      if b in v.mapped then w == v.(free := v.free - {b})
      else v.pages > 0 && w == v.(free := v.free - {b}, mapped := v.mapped + {b}, pages := v.pages - 1, blk := w.blk) &&
           w.blk.Keys == v.blk.Keys + {b} && (forall c <- w.blk :: w.blk[c] == if c == b then ZeroTable() else v.blk[c])
    case Err(e) =>
      w == v &&
      if e == NoDisk then forall b | 2 <= b < v.nblocks :: b !in v.free
      else e == NoMem && v.pages == 0 && exists b :: IsLowest(v, b) && b !in v.mapped
    case Panic => false
  }

  lemma LowestOne(v: Vol, b: nat, c: nat)
    requires IsLowest(v, b) && IsLowest(v, c)
    ensures b == c
  {
  }

  /** alloc_block does that, and whether it succeeds can be told beforehand. */
  lemma AllocExact(v: Vol)
    requires v.nblocks >= 2
    ensures Allocates(v, AllocBlock(v).0, AllocBlock(v).1)
    ensures AllocBlock(v).1.Ok? <==> CanAlloc(v)
    ensures AllocBlock(v).1 == Err(NoDisk) <==> forall b | 2 <= b < v.nblocks :: b !in v.free
  {
    var b := Lowest(v.free, 2, v.nblocks);
    if b < v.nblocks {
      assert IsLowest(v, b);
      forall c | IsLowest(v, c) ensures c == b {
        LowestOne(v, b, c);
      }
    }
  }

  /** Nothing else does. */
  lemma AllocOnly(v: Vol, w: Vol, r: Result<nat>, w': Vol, r': Result<nat>)
    requires Allocates(v, w, r) && Allocates(v, w', r')
    ensures w == w' && r == r'
  {
    if r.Ok? && r'.Ok? {
      LowestOne(v, r.value, r'.value);
      assert w.blk == w'.blk;
    }
    forall b, c | IsLowest(v, b) && IsLowest(v, c) ensures b == c {
      LowestOne(v, b, c);
    }
  }

  /** What read_block may make of v. */
  ghost predicate Reads(v: Vol, b: nat, w: Vol, r: Result<()>) {
    (r.Panic? <==> b >= v.nblocks || b in v.free) &&
    (r.Ok? <==> b < v.nblocks && b !in v.free && (b in v.mapped || v.pages > 0)) &&
    (r.Err? ==> r.error == NoMem) &&
    if r.Ok? && b !in v.mapped then w == v.(mapped := v.mapped + {b}, pages := v.pages - 1) else w == v
  }

  lemma ReadExact(v: Vol, b: nat)
    ensures Reads(v, b, ReadBlock(v, b).0, ReadBlock(v, b).1)
  {
  }

  // ---------------------------------------------------------- mapping a block

  /** The volume once b has been taken for an indirect block. */
  function Without(v: Vol, b: nat): Vol {
    var pages := if b in v.mapped || v.pages == 0 then v.pages else v.pages - 1;
    v.(free := v.free - {b}, mapped := v.mapped + {b}, pages := pages)
  }

  /** The volume once block b has been brought into memory. */
  function Loaded(v: Vol, b: nat): Vol {
    v.(mapped := v.mapped + {b}, pages := if b in v.mapped || v.pages == 0 then v.pages else v.pages - 1)
  }

  /** Block i of file f can be found or had: its pointer can be reached, and names a
      block or a block can be taken for it. */
  ghost predicate CanMap(v: Vol, f: nat, i: nat)
    requires f in v.files
  {
    var ind := v.files[f].indirect;
    if i < NDIRECT then v.files[f].direct[i] != 0 || CanAlloc(v)
    else if i >= NINDIRECT then false
    else if ind != 0 then
      (ind in v.mapped || v.pages > 0) && (BlockOf(v, f, i) != 0 || CanAlloc(Loaded(v, ind)))
    else
      exists b :: IsLowest(v, b) && (b in v.mapped || v.pages > 0) &&
        ((b in v.mapped && b in v.blk && v.blk[b][i] != 0) || CanAlloc(Without(v, b)))
  }

  /** file_map_block succeeds exactly then; without `alloc` exactly if the pointer can be
      reached and is not 0. */
  lemma MapSucceeds(v: Vol, f: nat, i: nat)
    requires Owned(v) && f in v.files
    ensures MapBlock(v, f, i, true).1.Ok? <==> CanMap(v, f, i)
    ensures MapBlock(v, f, i, false).1.Ok? <==>
            BlockOf(v, f, i) != 0 && (i < NDIRECT || v.files[f].indirect in v.mapped || v.pages > 0)
  {
    AllocExact(v);
    var ind := v.files[f].indirect;
    if i >= NDIRECT && i < NINDIRECT {
      if ind != 0 {
        assert InUse(v, Named(v, Indirect(f)));
        AllocExact(ReadBlock(v, ind).0);
        assert ReadBlock(v, ind).1.Ok? ==> ReadBlock(v, ind).0 == Loaded(v, ind);
      } else {
        MapTakes(v, f, i);
      }
    }
  }

  lemma MapTakes(v: Vol, f: nat, i: nat)
    requires Owned(v) && f in v.files && NDIRECT <= i < NINDIRECT && v.files[f].indirect == 0
    ensures MapBlock(v, f, i, true).1.Ok? <==> CanMap(v, f, i)
  {
    AllocExact(v);
    var (w, r) := AllocBlock(v);
    if r.Ok? {
      var b := r.value;
      forall c | IsLowest(v, c) ensures c == b {
        LowestOne(v, b, c);
      }
      var u := SetIndirect(w, f, b);
      assert ReadBlock(u, b) == (u, Ok(()));
      AllocExact(u);
      SameSupply(u, Without(v, b));
      assert BlockOf(u, f, i) == u.blk[b][i];
    }
  }

  lemma SameSupply(v: Vol, w: Vol)
    requires v.free == w.free && v.nblocks == w.nblocks && v.mapped == w.mapped && (v.pages > 0 <==> w.pages > 0)
    ensures CanAlloc(v) <==> CanAlloc(w)
  {
    forall b ensures IsLowest(v, b) <==> IsLowest(w, b) {}
  }

  // -------------------------------------------------------- growing a directory

  /** The volume when the pointer of the directory's next block has been reached. */
  function Reached(v: Vol, d: nat): Vol
    requires d in v.files
  {
    if Next(v, d) < NDIRECT || v.files[d].indirect == 0 then v else Loaded(v, v.files[d].indirect)
  }

  /** The growth of a directory succeeds exactly if its next block can be had; should it
      have one already, that must be in memory or there must be a page for it. */
  lemma GrowSucceeds(v: Vol, d: nat, g0: nat)
    requires Owned(v) && d in v.files && FreshIds(v, g0) && !TakesStale(v, d, Next(v, d), true)
    ensures GrowDir(v, d, g0).1.Ok? <==>
            CanMap(v, d, Next(v, d)) &&
            (BlockOf(v, d, Next(v, d)) == 0 ||
             BlockOf(v, d, Next(v, d)) in Reached(v, d).mapped || Reached(v, d).pages > 0)
  {
    var i := Next(v, d);
    var (w, r) := MapBlock(v, d, i, true);
    MapSucceeds(v, d, i);
    GrowDirIs(v, d, g0);
    LongerKeeps(v, d, g0);
    ReadExact(Longer(v, d), if r.Ok? then r.value else 0);
    if r.Ok? {
      MapsGrowth(v, d);
      ReachedIs(v, d);
      hide MapBlock, GrowDir, Longer, Walk, CanMap, Owned, GrowthBlock, ReadBlock;
    }
  }

  lemma ReachedIs(v: Vol, d: nat)
    requires Owned(v) && d in v.files && !TakesStale(v, d, Next(v, d), true)
    requires MapBlock(v, d, Next(v, d), true).1.Ok?
    ensures var u := Walk(v, d, Next(v, d), true).0;
            BlockOf(u, d, Next(v, d)) == BlockOf(v, d, Next(v, d)) &&
            (BlockOf(v, d, Next(v, d)) != 0 ==>
              u.mapped == Reached(v, d).mapped && u.pages == Reached(v, d).pages &&
              GrowthBlock(v, d) == BlockOf(v, d, Next(v, d)))
  {
    WalkKeeps(v, d, Next(v, d), true);
    ReadExact(v, v.files[d].indirect);
  }
}
