/** Directories growing: the end of dir_alloc_file, on the block map. The new block
    is read as File structures, whatever it holds. */
module DirGrowth {
  import opened Volume

  /** File structure j of a directory block, 64 words each: the name is in the
      first 32, then size, type, direct blocks and the indirect block. */
  const FILE2BLK: nat := 16

  function FileAt(t: Table, j: nat): File
    requires j < FILE2BLK
  {
    var o := 64 * j;
    File(t[o + 32], t[o + 34..o + 44], t[o + 44])
  }

  /** No block number in the structure. */
  predicate NoPointers(f: File) {
    f.indirect == 0 && forall k | 0 <= k < NDIRECT :: f.direct[k] == 0
  }

  /** As a directory block, t names no blocks. Names and sizes do not matter. */
  predicate Harmless(t: Table) {
    forall j | 0 <= j < FILE2BLK :: NoPointers(FileAt(t, j))
  }

  /** The directory is longer by a block even if no block can be had. Its
      structures, files g0 and on, are what the block holds; file_create sets no
      more than the name. */
  function GrowDir(v: Vol, d: nat, g0: nat): (Vol, Result<nat>)
    requires v.nblocks >= 2 && d in v.files
  {
    var (w, r) := MapBlock(SetSize(v, d, NewSize(v, d)), d, Next(v, d), true);
    match r
    case Ok(b) =>
      var (x, read) := ReadBlock(w, b);
      (match read
       case Ok(_) => (if b in x.blk then AddFiles(x, g0, x.blk[b]) else x, Ok(b))
       case Err(e) => (x, Err(e))
       case Panic => (x, Panic))
    case Err(e) => (w, Err(e))
    case Panic => (w, Panic)
  }

  function NewSize(v: Vol, d: nat): nat
    requires d in v.files
  {
    (v.files[d].size + BY2BLK) % 0x1_0000_0000
  }

  /** The index of the directory's new block. */
  function Next(v: Vol, d: nat): nat
    requires d in v.files
  {
    v.files[d].size / BY2BLK
  }

  predicate NewId(g0: nat, g: nat) {
    g0 <= g < g0 + FILE2BLK
  }

  function AddFiles(v: Vol, g0: nat, t: Table): Vol {
    var files := v.files + map g: nat | g < g0 + FILE2BLK && NewId(g0, g) :: FileAt(t, g - g0);
    Vol(v.nblocks, v.free, v.mapped, v.pages, v.blk, files)
  }

  /** No file has one of the new identities yet. */
  ghost predicate FreshIds(v: Vol, g0: nat) {
    forall g <- v.files :: !NewId(g0, g)
  }

  /** The new files are the structures in t, and have no blocks. */
  ghost predicate NewFiles(w: Vol, g0: nat, t: Table) {
    forall g: nat | NewId(g0, g) :: g in w.files && w.files[g] == FileAt(t, g - g0) && NoPointers(w.files[g])
  }

  // ------------------------------------------------------ adding structures

  lemma OldNames(v: Vol, g0: nat, t: Table, s: Slot)
    requires FreshIds(v, g0)
    ensures !NewId(g0, s.f) ==> Named(AddFiles(v, g0, t), s) == Named(v, s)
    ensures NewId(g0, s.f) ==> Named(v, s) == 0
  {
  }

  lemma AddFilesKeeps(v: Vol, g0: nat, t: Table)
    requires Owned(v) && FreshIds(v, g0) && Harmless(t)
    ensures var w := AddFiles(v, g0, t); Owned(w) && SameNames(v, w) && SameMap(v, w)
  {
    var w := AddFiles(v, g0, t);
    assert w.free == v.free && w.nblocks == v.nblocks && w.blk == v.blk;
    forall s ensures Named(w, s) == Named(v, s) {
      OldNames(v, g0, t, s);
      if NewId(g0, s.f) {
        assert NoPointers(FileAt(t, s.f - g0)) && w.files[s.f] == FileAt(t, s.f - g0);
      }
    }
    hide *;
    SameNamesMap(v, w);
    SameNamesOwned(v, w);
  }

  lemma SameNamesOwned(v: Vol, w: Vol)
    requires Owned(v) && SameNames(v, w) && w.free == v.free && w.nblocks == v.nblocks && w.blk == v.blk
    ensures Owned(w)
  {
  }

  /** Adding structures repairs nothing. */
  lemma AddFilesReflects(v: Vol, g0: nat, t: Table)
    requires FreshIds(v, g0) && Owned(AddFiles(v, g0, t))
    ensures Owned(v)
  {
    var w := AddFiles(v, g0, t);
    forall s ensures Named(v, s) != 0 ==> Named(w, s) == Named(v, s) {
      OldNames(v, g0, t, s);
    }
    forall s ensures Named(v, s) != 0 ==> InUse(v, Named(v, s)) {
      assert Named(w, s) != 0 ==> InUse(w, Named(w, s));
    }
    forall s, u | s != u && Named(v, s) != 0 ensures Named(v, s) != Named(v, u) {
      assert Named(w, s) != Named(w, u);
    }
  }

  lemma PointerIn(v: Vol, g0: nat, t: Table) returns (s: Slot)
    requires !Harmless(t)
    ensures Named(AddFiles(v, g0, t), s) != 0 && NewId(g0, s.f)
  {
    var j: nat :| j < FILE2BLK && !NoPointers(FileAt(t, j));
    var g := g0 + j;
    assert NewId(g0, g) && AddFiles(v, g0, t).files[g] == FileAt(t, j);
    if FileAt(t, j).indirect != 0 {
      s := Indirect(g);
    } else {
      var k: nat :| k < NDIRECT && FileAt(t, j).direct[k] != 0;
      s := Direct(g, k);
    }
  }

  /** A structure with a block number always breaks ownership. */
  lemma PointerBreaks(v: Vol, g0: nat, t: Table)
    requires Owned(v) && NoLeak(v, {}) && FreshIds(v, g0) && !Harmless(t)
    ensures !Owned(AddFiles(v, g0, t))
  {
    var w := AddFiles(v, g0, t);
    var s := PointerIn(v, g0, t);
    var p := Named(w, s);
    if InUse(v, p) {
      var u :| Named(v, u) == p;
      OldNames(v, g0, t, u);
      assert Named(w, u) == p && u != s;
    } else {
      assert !InUse(w, p);
    }
  }

  /** Reading a block as File structures keeps ownership of a volume with no block
      lost if and only if there is no block number in any of the sixteen. */
  lemma AddFilesExact(v: Vol, g0: nat, t: Table)
    requires Owned(v) && NoLeak(v, {}) && FreshIds(v, g0)
    ensures Owned(AddFiles(v, g0, t)) <==> Harmless(t)
  {
    if Harmless(t) {
      AddFilesKeeps(v, g0, t);
    } else {
      PointerBreaks(v, g0, t);
    }
  }

  // ------------------------------------------------------------- growing

  /** The block that will hold the new structures, once an indirect block the
      directory may need has been taken, if there is one. */
  function GrowthBlock(v: Vol, d: nat): nat
    requires v.nblocks >= 2 && d in v.files
  {
    var u := Walk(v, d, Next(v, d), true).0;
    if BlockOf(u, d, Next(v, d)) != 0 then BlockOf(u, d, Next(v, d)) else Lowest(u.free, 2, u.nblocks)
  }

  /** That block can be had without being cleared, and has block numbers in it. */
  predicate GrowsStale(v: Vol, d: nat)
    requires v.nblocks >= 2 && d in v.files
  {
    var (u, found) := Walk(v, d, Next(v, d), true);
    var b := GrowthBlock(v, d);
    found.Ok? && b < u.nblocks && b in u.blk && !Harmless(u.blk[b]) &&
    (b in u.mapped || (BlockOf(u, d, Next(v, d)) != 0 && u.pages > 0))
  }

  // Mapping a block does not look at the size.

  lemma AllocSize(v: Vol, d: nat, size: nat)
    requires v.nblocks >= 2 && d in v.files
    ensures var (x, r) := AllocBlock(v);
            && x.files == v.files && x.nblocks == v.nblocks
            && AllocBlock(SetSize(v, d, size)) == (SetSize(x, d, size), r)
  {
    hide SameNames, SameMap, Owned;
  }

  lemma ReadSize(v: Vol, d: nat, size: nat, b: nat)
    requires d in v.files
    ensures var (x, r) := ReadBlock(v, b);
            && x.files == v.files && x.nblocks == v.nblocks
            && ReadBlock(SetSize(v, d, size), b) == (SetSize(x, d, size), r)
  {
    hide SameNames, SameMap, Owned;
  }

  lemma SetSizeApart(v: Vol, d: nat, size: nat, i: nat, b: nat)
    requires d in v.files
    ensures d in SetIndirect(v, d, b).files && d in SetBlock(v, d, i, b).files
    ensures SetIndirect(SetSize(v, d, size), d, b) == SetSize(SetIndirect(v, d, b), d, size)
    ensures SetBlock(SetSize(v, d, size), d, i, b) == SetSize(SetBlock(v, d, i, b), d, size)
    ensures BlockOf(SetSize(v, d, size), d, i) == BlockOf(v, d, i)
  {
    hide SameNames, SameMap, Owned;
    assert SetIndirect(SetSize(v, d, size), d, b).files == SetSize(SetIndirect(v, d, b), d, size).files;
    assert SetBlock(SetSize(v, d, size), d, i, b).files == SetSize(SetBlock(v, d, i, b), d, size).files;
  }

  lemma WalkSize(v: Vol, d: nat, size: nat, i: nat)
    requires v.nblocks >= 2 && d in v.files
    ensures var (u, r) := Walk(v, d, i, true);
            && d in u.files && u.nblocks == v.nblocks && u.files[d].size == v.files[d].size
            && Walk(SetSize(v, d, size), d, i, true) == (SetSize(u, d, size), r)
  {
    AllocSize(v, d, size);
    var (x, r) := AllocBlock(v);
    var b := if r.Ok? then r.value else 0;
    SetSizeApart(x, d, size, i, b);
    ReadSize(SetIndirect(x, d, b), d, size, b);
    ReadSize(v, d, size, v.files[d].indirect);
    hide AllocBlock, ReadBlock, SameNames, SameMap, Owned;
  }

  lemma MapSize(v: Vol, d: nat, size: nat, i: nat)
    requires v.nblocks >= 2 && d in v.files
    ensures var (w, r) := MapBlock(v, d, i, true);
            d in w.files && MapBlock(SetSize(v, d, size), d, i, true) == (SetSize(w, d, size), r)
  {
    hide Walk, AllocBlock, SetSize, SetBlock, BlockOf;
    WalkSize(v, d, size, i);
    var u := Walk(v, d, i, true).0;
    AllocSize(u, d, size);
    var (x, r) := AllocBlock(u);
    SetSizeApart(x, d, size, i, if r.Ok? then r.value else 0);
    SetSizeApart(u, d, size, i, 0);
  }

  /** The block mapped is GrowthBlock, as it was or cleared. */
  lemma MapsGrowth(v: Vol, d: nat)
    requires Owned(v) && d in v.files && !TakesStale(v, d, Next(v, d), true) && MapBlock(v, d, Next(v, d), true).1.Ok?
    ensures var (u, w, b) := (Walk(v, d, Next(v, d), true).0, MapBlock(v, d, Next(v, d), true).0, GrowthBlock(v, d));
            && MapBlock(v, d, Next(v, d), true).1 == Ok(b) && b < u.nblocks && b in u.blk && b in w.blk
            && w.blk[b] == (if BlockOf(u, d, Next(v, d)) != 0 || b in u.mapped then u.blk[b] else ZeroTable())
            && (BlockOf(u, d, Next(v, d)) != 0 ==> w == u) && (BlockOf(u, d, Next(v, d)) == 0 ==> b in w.mapped)
  {
    var i := Next(v, d);
    WalkKeeps(v, d, i, true);
    var u := Walk(v, d, i, true).0;
    if BlockOf(u, d, i) == 0 {
      AllocNames(u);
      assert Named(u, Indirect(d)) != Lowest(u.free, 2, u.nblocks);
    } else {
      assert InUse(u, Named(u, SlotFor(d, i)));
    }
  }

  lemma ZeroHarmless()
    ensures Harmless(ZeroTable())
  {
  }

  /** The directory once its new block is mapped and its size stored. */
  function Longer(v: Vol, d: nat): Vol
    requires v.nblocks >= 2 && d in v.files
  {
    MapSize(v, d, NewSize(v, d), Next(v, d));
    SetSize(MapBlock(v, d, Next(v, d), true).0, d, NewSize(v, d))
  }

  /** Growth is stale exactly if structures are read, and name blocks. */
  lemma StaleMeans(v: Vol, d: nat)
    requires Owned(v) && d in v.files && !TakesStale(v, d, Next(v, d), true)
    ensures var z, r := Longer(v, d), MapBlock(v, d, Next(v, d), true).1;
            GrowsStale(v, d) <==>
            r.Ok? && r.value in z.blk && ReadBlock(z, r.value).1.Ok? && !Harmless(z.blk[r.value])
  {
    var i := Next(v, d);
    var (u, found) := Walk(v, d, i, true);
    var (w, r) := MapBlock(v, d, i, true);
    WalkKeeps(v, d, i, true);
    ZeroHarmless();
    if r.Ok? {
      MapsGrowth(v, d);
      MapBlockKeeps(v, d, i, true);
      assert Named(w, SlotFor(d, i)) == r.value && InUse(w, r.value);
      ReadSize(w, d, NewSize(v, d), r.value);
    } else if found.Ok? {
      AllocNames(u);
    }
    hide Owned, Walk, BlockOf, Harmless;
  }

  lemma GrowDirIs(v: Vol, d: nat, g0: nat)
    requires v.nblocks >= 2 && d in v.files
    ensures var r := MapBlock(v, d, Next(v, d), true).1;
            if !r.Ok? then GrowDir(v, d, g0) == (Longer(v, d), r)
            else
              var (x, read) := ReadBlock(Longer(v, d), r.value);
              && GrowDir(v, d, g0).0 == (if read.Ok? && r.value in x.blk then AddFiles(x, g0, x.blk[r.value]) else x)
              && (GrowDir(v, d, g0).1.Ok? ==> GrowDir(v, d, g0).1 == r) && (GrowDir(v, d, g0).1.Panic? <==> read.Panic?)
              && (read.Ok? <==> GrowDir(v, d, g0).1.Ok?)
  {
    MapSize(v, d, NewSize(v, d), Next(v, d));
    hide MapBlock, SetSize, ReadBlock, AddFiles;
  }

  /** Up to the reading of the structures nothing can go wrong but a stale indirect
      block. */
  lemma LongerKeeps(v: Vol, d: nat, g0: nat)
    requires Owned(v) && d in v.files && FreshIds(v, g0) && !TakesStale(v, d, Next(v, d), true)
    ensures var z, (w, r) := Longer(v, d), MapBlock(v, d, Next(v, d), true);
            && Owned(z) && FreshIds(z, g0) && SameMapBut(v, z, d, Next(v, d)) && !r.Panic?
            && d in z.files && z.files[d].size == NewSize(v, d) && z.mapped == w.mapped && z.pages == w.pages &&
               z.blk == w.blk
            && z.nblocks == w.nblocks && z.free == w.free
            && (r.Ok? ==> r.value == BlockOf(z, d, Next(v, d)) != 0 && InUse(z, r.value) && r.value in z.blk)
            && (NoLeak(v, {}) ==> NoLeak(z, {}))
  {
    var i := Next(v, d);
    var (w, r) := MapBlock(v, d, i, true);
    MapBlockKeeps(v, d, i, true);
    if NoLeak(v, {}) {
      MapBlockNoLeak(v, d, i, true);
      SetSizeNoLeak(w, d, NewSize(v, d));
    }
    if r.Ok? {
      var z := Longer(v, d);
      assert Named(z, SlotFor(d, i)) == r.value;
    }
    hide MapBlock, NoLeak;
  }

  lemma ReadNoLeak(v: Vol, b: nat)
    requires Owned(v) && NoLeak(v, {})
    ensures NoLeak(ReadBlock(v, b).0, {})
  {
    ReadKeeps(v, b);
    var w := ReadBlock(v, b).0;
    forall c | InUse(w, c) ensures !Unnamed(w, c) {
      assert InUse(v, c);
      var s :| Named(v, s) == c;
      assert Named(w, s) == c;
    }
  }

  /** Growing a directory keeps ownership whether or not it succeeds, if no stale
      block is taken to be an indirect block or a directory block. No other file's
      blocks are touched, and the new files have none. */
  lemma GrowDirKeeps(v: Vol, d: nat, g0: nat)
    requires Owned(v) && d in v.files && FreshIds(v, g0)
    requires !TakesStale(v, d, Next(v, d), true) && !GrowsStale(v, d)
    ensures var (w, r) := GrowDir(v, d, g0);
            && Owned(w) && !r.Panic? && SameMapBut(v, w, d, Next(v, d))
            && (r.Ok? ==> r.value == BlockOf(w, d, Next(v, d)) != 0 && r.value in w.blk)
            && d in w.files && w.files[d].size == (v.files[d].size + BY2BLK) % 0x1_0000_0000
            && (r.Ok? ==> NewFiles(w, g0, w.blk[r.value]))
  {
    assert v.nblocks >= 2;
    hide *;
    var z, w := Longer(v, d), GrowDir(v, d, g0).0;
    var r := MapBlock(v, d, Next(v, d), true).1;
    StaleMeans(v, d);
    LongerKeeps(v, d, g0);
    GrowDirIs(v, d, g0);
    if r.Ok? {
      ReadThenAdd(z, d, Next(v, d), g0, r.value);
    } else {
      SameSelf(z);
    }
    MapTrans(v, z, w, d, Next(v, d));
  }

  lemma SameSelf(z: Vol)
    ensures SameMap(z, z)
  {
  }

  lemma MapTrans(v: Vol, z: Vol, w: Vol, d: nat, i: nat)
    requires SameMapBut(v, z, d, i) && SameMap(z, w)
    ensures SameMapBut(v, w, d, i) && BlockOf(w, d, i) == BlockOf(z, d, i)
  {
    hide BlockOf;
  }

  /** Reading a mapped block, then adding what it holds. */
  lemma ReadThenAdd(z: Vol, d: nat, i: nat, g0: nat, b: nat)
    requires Owned(z) && FreshIds(z, g0) && b == BlockOf(z, d, i) && InUse(z, b) && b in z.blk && d in z.files
    ensures var (x, read) := ReadBlock(z, b);
            && !read.Panic? && Owned(x) && FreshIds(x, g0) && x.files == z.files && x.blk == z.blk && SameMap(z, x) &&
               b in x.blk
            && (Harmless(z.blk[b]) ==>
                  var w := AddFiles(x, g0, z.blk[b]);
                  && Owned(w) && SameMap(z, w) && w.blk == z.blk && NewFiles(w, g0, z.blk[b])
                  && (forall g <- z.files :: g in w.files && w.files[g] == z.files[g]))
  {
    ReadKeeps(z, b);
    var x := ReadBlock(z, b).0;
    SameNamesMap(z, x);
    if Harmless(z.blk[b]) {
      AddFilesKeeps(x, g0, z.blk[b]);
    }
    hide Owned, BlockOf;
  }

  /** Growing a directory of a volume with no block lost keeps ownership if and only
      if it takes no stale block, neither as an indirect block nor as its own. */
  lemma GrowDirExact(v: Vol, d: nat, g0: nat)
    requires Owned(v) && NoLeak(v, {}) && d in v.files && FreshIds(v, g0)
    ensures Owned(GrowDir(v, d, g0).0) <==> !TakesStale(v, d, Next(v, d), true) && !GrowsStale(v, d)
  {
    var i := Next(v, d);
    if TakesStale(v, d, i, true) {
      StaleBreaks(v, d, i);
      StaleStays(v, d, g0);
    } else if !GrowsStale(v, d) {
      GrowDirKeeps(v, d, g0);
    } else {
      var r := MapBlock(v, d, i, true).1;
      StaleMeans(v, d);
      LongerKeeps(v, d, g0);
      GrowDirIs(v, d, g0);
      hide MapBlock, Longer, GrowDir, GrowsStale, TakesStale;
      var z := Longer(v, d);
      ReadThenAdd(z, d, i, g0, r.value);
      ReadNoLeak(z, r.value);
      AddFilesExact(ReadBlock(z, r.value).0, g0, z.blk[r.value]);
    }
  }

  /** What a stale indirect block has broken, reading the new block does not mend. */
  lemma StaleStays(v: Vol, d: nat, g0: nat)
    requires v.nblocks >= 2 && d in v.files && FreshIds(v, g0) && !Owned(MapBlock(v, d, Next(v, d), true).0)
    ensures !Owned(GrowDir(v, d, g0).0)
  {
    var (w, r) := MapBlock(v, d, Next(v, d), true);
    MapSize(v, d, NewSize(v, d), Next(v, d));
    GrowDirIs(v, d, g0);
    MapKeys(v, d);
    var z := Longer(v, d);
    if r.Ok? {
      var (x, read) := ReadBlock(z, r.value);
      ReadReflects(z, r.value);
      if read.Ok? && r.value in x.blk && Owned(AddFiles(x, g0, x.blk[r.value])) {
        AddFilesReflects(x, g0, x.blk[r.value]);
      }
    }
    hide Owned, MapBlock, ReadBlock, GrowDir, AddFiles;
  }

  lemma MapKeys(v: Vol, d: nat)
    requires v.nblocks >= 2 && d in v.files
    ensures MapBlock(v, d, Next(v, d), true).0.files.Keys == v.files.Keys
  {
    var u := Walk(v, d, Next(v, d), true).0;
    assert u.files.Keys == v.files.Keys && u.nblocks == v.nblocks;
    hide Walk, BlockOf;
  }

  lemma ReadReflects(v: Vol, b: nat)
    ensures var x := ReadBlock(v, b).0; x.files == v.files && (Owned(x) ==> Owned(v))
  {
    var x := ReadBlock(v, b).0;
    forall s ensures Named(v, s) == Named(x, s) {}
  }

  // ------------------------------------------------------ two concrete volumes

  /** Why the directory's own block has to be clean, even if the next block is:
      here directory 0 outgrows its direct blocks, a clean block becomes its
      indirect block, and the stale block after it holds a structure, file 10,
      that names a block of file 1. */
  lemma StaleDirectory() returns (v: Vol)
    ensures Owned(v) && 0 in v.files && FreshIds(v, 10) && !TakesStale(v, 0, Next(v, 0), true) && GrowsStale(v, 0)
    ensures var (w, r) := GrowDir(v, 0, 10); r == Ok(4) && BlockOf(w, 10, 0) == 5 == BlockOf(w, 1, 0) && !Owned(w)
  {
    var stale: Table := ZeroTable()[34 := 5];
    v := StaleDirectoryVolume(stale);
    StaleOwned(stale);
    StaleGrowth(v, stale);
    var w := GrowDir(v, 0, 10).0;
    hide GrowDir, Shape;
    assert FileAt(stale, 0).direct[0] == 5;
    assert Named(w, Direct(10, 0)) == 5 && Named(w, Direct(1, 0)) == 5;
  }

  lemma StaleOwned(stale: Table)
    ensures var v := StaleDirectoryVolume(stale); Owned(v) && FreshIds(v, 10)
  {
    var v := StaleDirectoryVolume(stale);
    assert Named(v, Direct(1, 0)) == 5;
    forall s ensures Named(v, s) == if s == Direct(1, 0) then 5 else 0 {}
    assert Lowest(v.free, 2, 8) == 3;
  }

  function StaleDirectoryVolume(stale: Table): Vol {
    var z := ZeroTable();
    Vol(8, {3, 4}, {3, 4}, 0, map[0 := z, 1 := z, 2 := z, 3 := z, 4 := stale, 5 := z, 6 := z, 7 := z],
        map[0 := ZeroFile().(size := NDIRECT * BY2BLK), 1 := ZeroFile().(direct := ZeroFile().direct[0 := 5])])
  }

  lemma StaleGrowth(v: Vol, stale: Table)
    requires v.nblocks == 8 && v.free == v.mapped == {3, 4} && 3 in v.blk && 4 in v.blk && v.blk[3] == ZeroTable() &&
             v.blk[4] == stale
    requires 0 in v.files && v.files[0] == ZeroFile().(size := NDIRECT * BY2BLK) && !NewId(10, 0)
    ensures var (w, r) := GrowDir(v, 0, 10);
            && r == Ok(4) && 10 in w.files && w.files[10] == FileAt(stale, 0)
            && (1 in v.files ==> 1 in w.files && w.files[1] == v.files[1])
  {
    assert Lowest(v.free, 2, 8) == 3;
    var u := SetSize(v, 0, (NDIRECT * BY2BLK + BY2BLK) % 0x1_0000_0000);
    var x := Walk(u, 0, 10, true).0;
    assert x.free == {4} && x.files[0].indirect == 3 && x.blk == v.blk && x.mapped == {3, 4};
    assert Lowest(x.free, 2, 8) == 4;
    var (w, r) := MapBlock(u, 0, 10, true);
    assert r == Ok(4) && w.blk[4] == stale && w.mapped == {3, 4} && w.free == {};
    assert NewId(10, 10) && !NewId(10, 1);
  }

  /** Why the next block has to be clean: a freed block stays mapped with its old
      contents, and as an indirect block it brings old names back to life. Here
      file 0 is given, as its block 10, a block that belongs to file 1. */
  lemma StaleIndirect() returns (v: Vol)
    ensures Owned(v) && 0 in v.files && TakesStale(v, 0, 10, true)
    ensures var (w, r) := MapBlock(v, 0, 10, true); r == Ok(5) && BlockOf(w, 1, 0) == 5 && !Owned(w)
  {
    var stale: Table := ZeroTable()[10 := 5];
    var theirs := ZeroFile().(direct := ZeroFile().direct[0 := 5]);
    var z := ZeroTable();
    var blk := map[0 := z, 1 := z, 2 := z, 3 := stale, 4 := z, 5 := z, 6 := z, 7 := z];
    v := Vol(8, {3, 4}, {3}, 0, blk, map[0 := ZeroFile(), 1 := theirs]);
    assert Named(v, Direct(1, 0)) == 5;
    forall s ensures Named(v, s) == if s == Direct(1, 0) then 5 else 0 {}
    assert Lowest(v.free, 2, 8) == 3;
    var w := MapBlock(v, 0, 10, true).0;
    assert Named(w, Entry(0, 10)) == 5 && Named(w, Direct(1, 0)) == 5;
  }
}
