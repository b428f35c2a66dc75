/** The image builder, step by step, and what the file server finds on the image
    it leaves. */
module Format {
  import opened Wrappers
  import opened FsImage
  import V = Volume
  import P = Paths
  import D = BuilderDisk

  const DISKMAX: nat := 0xC000_0000

  /** The part of a path after its last slash. */
  function Base(path: string): (r: string)
    ensures '/' !in r
  {
    if path == "" then ""
    else if path[|path| - 1] == '/' then ""
    else Base(path[..|path| - 1]) + [path[|path| - 1]]
  }

  /** There is exactly one such part: it has no slash, and before it comes one or nothing. */
  lemma {:induction false} BaseIs(path: string)
    ensures '/' !in Base(path) && |Base(path)| <= |path|
    ensures var n := |path| - |Base(path)|; path[n..] == Base(path) && (n > 0 ==> path[n - 1] == '/')
  {
    if path != "" && path[|path| - 1] != '/' {
      BaseIs(path[..|path| - 1]);
    }
  }

  // ------------------------------------------------ when the builder finishes

  /** What one file takes from `nextb` on, its directory block aside. */
  function EndAfter(nextb: nat, data: seq<byte>): nat {
    nextb + BlocksFor(|data|) + (if BlocksFor(|data|) > V.NDIRECT then 1 else 0)
  }

  /** Every sixteenth file needs a new directory block. */
  function DirBlock(k: nat): nat {
    if k % FILE2BLK == 0 then 1 else 0
  }

  /** The next free block after `files`: three blocks are reserved. */
  function EndOf(files: seq<Source>): (r: nat)
    ensures r >= 3
  {
    if files == [] then 3
    else
      var k := |files| - 1;
      EndAfter(EndOf(files[..k]) + DirBlock(k), files[k].data)
  }

  predicate Ragged(s: Source) {
    |s.data| % BY2BLK != 0
  }

  /** A length that is a whole number of blocks leaves one buffer busy for good,
      which stops the builder at the next file. */
  predicate Stuck(files: seq<Source>) {
    files != [] && !Ragged(files[|files| - 1])
  }

  /** The next file needs no new directory block, or getblk gives one. */
  predicate PlaceFor(files: seq<Source>, nextb: nat, nblock: nat) {
    DirBlock(|files|) == 0 || (!Stuck(files) && nextb < nblock)
  }

  predicate Completes(files: seq<Source>, nblock: nat) {
    (forall k | 0 <= k < |files| - 1 :: Ragged(files[k])) &&
    (forall s <- files :: BlocksFor(|s.data|) <= V.NINDIRECT) &&
    EndOf(files) + (if Stuck(files) then 1 else 0) <= nblock
  }

  lemma CompletesPrefix(files: seq<Source>, n: nat, nblock: nat)
    requires n <= |files| && Completes(files, nblock)
    ensures Completes(files[..n], nblock)
    decreases |files|
  {
    if n < |files| {
      var k := |files| - 1;
      assert forall s <- files[..k] :: s in files;
      assert k > 0 ==> files[..k][k - 1] == files[k - 1];
      CompletesPrefix(files[..k], n, nblock);
      assert files[..k][..n] == files[..n];
    } else {
      assert files[..n] == files;
    }
  }

  // ------------------------------------------------------ blocks nobody names

  /** Blocks that no file names do not matter. */
  lemma OthersStay(img: seq<Content>, nextb: nat, root: V.File, slots: seq<Entry>, files: seq<Source>,
                   img': seq<Content>)
    requires Built(img, nextb, root, slots, files) && |img'| == |img|
    requires forall b | V.Reserved(VolOf(img, root, slots, nextb)) <= b < nextb :: img'[b] == img[b]
    ensures Built(img', nextb, root, slots, files)
  {
    var v, w := VolOf(img, root, slots, nextb), VolOf(img', root, slots, nextb);
    OthersNames(img, nextb, root, slots, img');
    SameNamesSound(v, w);
    OthersDirs(img, nextb, root, slots, files, img');
    hide Sound, VolOf, HasBlocks, DirOk;
    forall k | 0 <= k < |files| ensures FileOk(img', w, slots, files, k) {
      assert FileOk(img, v, slots, files, k);
      OthersBlocks(img, nextb, root, slots, img', k + 1, files[k].data, BlocksFor(|files[k].data|));
    }
  }

  lemma OthersDirs(img: seq<Content>, nextb: nat, root: V.File, slots: seq<Entry>, files: seq<Source>,
                   img': seq<Content>)
    requires Built(img, nextb, root, slots, files) && |img'| == |img|
    requires forall b | V.Reserved(VolOf(img, root, slots, nextb)) <= b < nextb :: img'[b] == img[b]
    ensures forall d | 0 <= d < root.size / BY2BLK :: DirOk(img', nextb, root, slots, d)
  {
    var v := VolOf(img, root, slots, nextb);
    forall d | 0 <= d < root.size / BY2BLK ensures DirOk(img', nextb, root, slots, d) {
      assert DirOk(img, nextb, root, slots, d);
      assert V.Named(v, V.Slot.Direct(0, d)) == root.direct[d];
    }
  }

  lemma OthersNames(img: seq<Content>, nextb: nat, root: V.File, slots: seq<Entry>, img': seq<Content>)
    requires Sound(VolOf(img, root, slots, nextb)) && |img'| == |img| >= nextb
    requires forall b | V.Reserved(VolOf(img, root, slots, nextb)) <= b < nextb :: img'[b] == img[b]
    ensures var v, w := VolOf(img, root, slots, nextb), VolOf(img', root, slots, nextb);
            V.SameNames(v, w) && w.free == v.free && w.nblocks == v.nblocks && V.Shape(w)
  {
    var v, w := VolOf(img, root, slots, nextb), VolOf(img', root, slots, nextb);
    forall s ensures V.Named(w, s) == V.Named(v, s) {
      var ind := V.Named(v, V.Indirect(s.f));
      if ind != 0 {
        assert V.InUse(v, ind);
        NamedBlock(img, root, slots, nextb, V.Indirect(s.f), s);
      }
    }
  }

  lemma OthersBlocks(img: seq<Content>, nextb: nat, root: V.File, slots: seq<Entry>, img': seq<Content>, f: nat,
                     data: seq<byte>, n: nat)
    requires Sound(VolOf(img, root, slots, nextb)) && |img'| == |img| >= nextb
    requires forall b | V.Reserved(VolOf(img, root, slots, nextb)) <= b < nextb :: img'[b] == img[b]
    requires HasBlocks(img, VolOf(img, root, slots, nextb), f, data, n)
    ensures HasBlocks(img', VolOf(img', root, slots, nextb), f, data, n)
  {
    var v, w := VolOf(img, root, slots, nextb), VolOf(img', root, slots, nextb);
    OthersNames(img, nextb, root, slots, img');
    V.SameNamesMap(v, w);
    forall i: nat | i < n ensures img'[V.BlockOf(v, f, i)] == img[V.BlockOf(v, f, i)] {
      var s := V.SlotFor(f, i);
      assert V.Named(v, s) == V.BlockOf(v, f, i);
      assert V.InUse(v, V.Named(v, s));
      NamedBlock(img, root, slots, nextb, s, s);
    }
  }

  // --------------------------------------------------------------- the builder

  function Ones(): seq<bool> {
    seq(BIT2BLK, _ => true)
  }

  /** The blocks of the root that are full and have been replaced by a new one.
      writefile got their buffers and did not put them back. */
  ghost function Leaked(root: V.File): set<nat> {
    LeakedBelow(root, root.size / BY2BLK - 1)
  }

  ghost function LeakedBelow(root: V.File, n: int): set<nat> {
    set d | 0 <= d < n && d < V.NDIRECT :: root.direct[d]
  }

  /** The buffer that the end of the last input left busy. */
  ghost function Tail(files: seq<Source>, nextb: nat): set<nat> {
    if Stuck(files) then {nextb} else {}
  }

  /** How one step of the builder ends. `Overrun` is a store past the end of f_direct
      or f_name: what C does then is not modelled. */
  datatype Outcome = Done | Exit | Overrun

  class Builder {
    var disk: D.Disk
    var nextb: nat
    var root: V.File
    ghost var slots: seq<Entry>
    ghost var files: seq<Source>

    constructor ()
    {
      disk := new D.Disk([Zero]);
      nextb, root := 0, V.ZeroFile();
    }

    /** The image as it is, or will be once the buffers are written. At most twelve
        buffers have ever been busy at a time. */
    ghost predicate Valid() reads this, disk, disk.cache {
      disk.Valid() && Built(disk.img, nextb, root, slots, files) && 3 <= |disk.img| <= BIT2BLK &&
      disk.img[2] == Bits(Ones()) &&
      |slots| < |files| + FILE2BLK && |files| <= V.NDIRECT * FILE2BLK && nextb == EndOf(files) &&
      Completes(files, |disk.img|) &&
      disk.held.Keys == Leaked(root) + Tail(files, nextb) && disk.peak <= 12
    }

    /** opendisk. A disk too small for the reserved blocks makes getblk exit, at the
        latest in finishfs. */
    method OpenDisk(blocks: seq<Content>, size: nat) returns (done: bool)
      requires size / BY2BLK == |blocks|
      modifies this
      ensures done <==> 3 * BY2BLK <= size <= 4 * 1024 * 1024
      ensures done ==> fresh(disk) && fresh(disk.cache) && Valid() && files == [] &&
                       disk.img == blocks[2 := Bits(Ones())]
    {
      if size < 1024 || size > 4 * 1024 * 1024 || |blocks| == 0 {
        return false;
      }
      hide D.Disk.Valid, Built, Completes, EndOf, Leaked, Tail, Ones, V.ZeroFile;
      nextb := 3;
      root := V.ZeroFile();
      slots, files := [], [];
      disk := new D.Disk(blocks);
      done := MarkAll();
      if done {
        EmptyBuilt(disk.img);
        NothingHeld(|blocks|);
      }
    }

    /** Every bit of the bitmap is set. */
    method MarkAll() returns (done: bool)
      requires disk.Valid() && disk.held == map[] && disk.peak <= 12
      modifies disk, disk.cache
      ensures done <==> 2 < |old(disk.img)|
      ensures done ==> disk.Valid() && disk.img == old(disk.img)[2 := Bits(Ones())] && disk.held == map[] &&
                       disk.peak <= 12
    {
      hide D.Disk.Valid, D.Tied, D.Cleared, Ones;
      D.ClearedOff(disk.img, 2);
      var b := disk.Get(2, false);
      if b.None? {
        return false;
      }
      disk.Fill(b.value, 2, Bits(Ones()));
      disk.Release(b.value, 2);
      D.Back(map[], 2, b.value);
      return true;
    }

    /** getblk of a block that is cleared, and what is then stored into its buffer. */
    method NewBlock(bno: nat, x: Content) returns (b: Option<nat>)
      requires disk.Valid() && 0 < bno && |disk.held| <= 11 && disk.peak <= 12
      modifies disk, disk.cache
      ensures |disk.img| == |old(disk.img)|
      ensures b.Some? <==> bno < |disk.img| && bno !in old(disk.held)
      ensures b.Some? ==> disk.Valid() && disk.img == old(disk.img)[bno := x] &&
                          disk.held == old(disk.held)[bno := b.value]
      ensures b.Some? ==> disk.peak <= 12
    {
      D.ClearedOn(disk.img, bno);
      hide D.Disk.Valid, D.Tied, D.Cleared;
      b := disk.Get(bno, true);
      if b.Some? {
        disk.Fill(b.value, bno, x);
      }
    }

    /** Word n of an indirect block the file has already. */
    method PutWord(ind: nat, n: nat, w: nat)
      requires disk.Valid() && 0 < ind < |disk.img| && ind !in disk.held && |disk.held| <= 11 && disk.peak <= 12 &&
               n < V.NINDIRECT
      modifies disk, disk.cache
      ensures disk.Valid() && disk.held == old(disk.held) && disk.peak <= 12
      ensures disk.img == old(disk.img)[ind := Words(AsWords(old(disk.img)[ind])[n := w])]
    {
      hide D.Disk.Valid, D.Tied, D.Cleared;
      D.ClearedOff(disk.img, ind);
      ghost var img, held := disk.img, disk.held;
      var bindir := disk.Get(ind, false);
      var words := disk.Read(bindir.value, ind);
      disk.Fill(bindir.value, ind, Words(AsWords(words)[n := w]));
      disk.Release(bindir.value, ind);
      assert disk.img == img[ind := Words(AsWords(words)[n := w])];
      D.Back(held, ind, bindir.value);
    }

    /** Where the next File structure goes, counted over the root's blocks, and the
        buffer of its directory block: the first unused structure in the last
        block, or else a new block. The buffer of a full block stays busy. */
    method FindPlace() returns (r: Outcome, dirb: nat, k: nat)
      requires Valid()
      modifies this`nextb, this`root, this`slots, disk, disk.cache
      ensures |disk.img| == |old(disk.img)|
      ensures r.Done? <==> |files| < V.NDIRECT * FILE2BLK && PlaceFor(files, old(nextb), |disk.img|)
      ensures r.Overrun? <==> |files| == V.NDIRECT * FILE2BLK && PlaceFor(files, old(nextb), |disk.img|)
      ensures r.Done? ==> disk.Valid() && Built(disk.img, nextb, root, slots, files) &&
                          nextb == old(nextb) + DirBlock(|files|)
      ensures r.Done? ==> k == |files| < |slots| <= |files| + FILE2BLK && disk.img[2] == old(disk.img)[2] &&
                          disk.peak <= 12
      ensures r.Done? ==> k / FILE2BLK == root.size / BY2BLK - 1
      ensures r.Done? ==> Pending(disk.held, root, k / FILE2BLK, dirb, Tail(files, nextb))
    {
      hide Built, Completes, Stuck, EndOf, D.Disk.Valid, D.Tied, LeakedBelow, DirBlock, Pending, Tail;
      EndHigh(files);
      Sizes(disk.img, nextb, root, slots, files);
      var at: Option<nat>;
      dirb, at := LookLast();
      if at.Some? {
        return Done, dirb, at.value;
      }
      if root.size / BY2BLK == V.NDIRECT {
        RootHeld(disk.img, nextb, root, slots, files, disk.held, V.NDIRECT);
        var b := NewBlock(nextb, Zero);
        return if b.None? then Exit else Overrun, 0, 0;
      }
      var done;
      done, dirb, k := GrowRoot();
      r := if done then Done else Exit;
    }

    /** An unused structure in the root's last block, if it has one; the block's
        buffer is not put back. */
    method LookLast() returns (dirb: nat, at: Option<nat>)
      requires Valid()
      modifies disk, disk.cache
      ensures disk.Valid() && disk.img == old(disk.img) && disk.peak <= 12
      ensures at == if |files| < |slots| then Some(|files|) else None
      ensures at.Some? ==>
        DirBlock(|files|) == 0 && |files| / FILE2BLK == root.size / BY2BLK - 1 &&
        Pending(disk.held, root, |files| / FILE2BLK, dirb, Tail(files, nextb))
      ensures at.None? ==>
        DirBlock(|files|) == 1 && |files| == |slots| &&
        disk.held.Keys == LeakedBelow(root, root.size / BY2BLK) + Tail(files, nextb)
    {
      hide Built, Completes, Stuck, EndOf, D.Disk.Valid, D.Tied, LeakedBelow, Pending, Tail, DirBlock;
      Sizes(disk.img, nextb, root, slots, files);
      DirBlockWhen(|files|, root.size / BY2BLK);
      LeakedFacts(disk.img, nextb, root, slots, files);
      dirb, at := 0, None;
      if root.size > 0 {
        dirb := LastBlock();
        at := Unused(dirb, root.size / BY2BLK - 1);
      }
    }

    /** The root's last block. */
    method LastBlock() returns (dirb: nat)
      requires Valid() && root.size > 0
      modifies disk, disk.cache
      ensures disk.Valid() && disk.img == old(disk.img) && disk.peak <= 12
      ensures disk.held.Keys == LeakedBelow(root, root.size / BY2BLK) + Tail(files, nextb)
      ensures root.size / BY2BLK > 0 && Pending(disk.held, root, root.size / BY2BLK - 1, dirb, Tail(files, nextb))
    {
      hide Built, Completes, EndOf, LeakedBelow, D.Disk.Valid, D.Tied, D.Cleared, Tail, Stuck;
      BuiltFacts(disk.img, nextb, root, slots, files);
      LeakedFacts(disk.img, nextb, root, slots, files);
      var d := root.size / BY2BLK - 1;
      DirFacts(disk.img, nextb, root, slots, d);
      RootHeld(disk.img, nextb, root, slots, files, disk.held, d);
      D.ClearedOff(disk.img, root.direct[d]);
      var got := disk.Get(root.direct[d], false);
      dirb := got.value;
    }

    /** The first unused structure of directory block d, the last one. */
    method Unused(dirb: nat, d: nat) returns (at: Option<nat>)
      requires disk.Valid() && Built(disk.img, nextb, root, slots, files) && d + 1 == root.size / BY2BLK &&
               d < V.NDIRECT
      requires Pending(disk.held, root, d, dirb, Tail(files, nextb)) && FILE2BLK * d <= |files|
      ensures at == if |files| < |slots| then Some(|files|) else None
    {
      BuiltFacts(disk.img, nextb, root, slots, files);
      hide Built;
      var buf := disk.Read(dirb, root.direct[d]);
      var i := 0;
      while i < FILE2BLK
        invariant 0 <= i <= FILE2BLK && FILE2BLK * d + i <= |files|
      {
        SlotUsed(disk.img, nextb, root, slots, files, d, i);
        if AsDir(buf)[i].name == "" {
          return Some(FILE2BLK * d + i);
        }
        i := i + 1;
      }
      return None;
    }

    /** A new block of structures for the root, or exit. */
    method GrowRoot() returns (done: bool, dirb: nat, k: nat)
      requires disk.Valid() && Built(disk.img, nextb, root, slots, files) && |files| == |slots| < V.NDIRECT * FILE2BLK
      requires disk.held.Keys == LeakedBelow(root, root.size / BY2BLK) + Tail(files, nextb) && 3 <= nextb &&
               disk.peak <= 12
      modifies this`nextb, this`root, this`slots, disk, disk.cache
      ensures |disk.img| == |old(disk.img)|
      ensures done <==> !Stuck(files) && old(nextb) < |disk.img|
      ensures done ==> disk.Valid() && Built(disk.img, nextb, root, slots, files) && nextb == old(nextb) + 1 &&
                       |slots| == |files| + FILE2BLK
      ensures done ==> disk.img[2] == old(disk.img)[2] && disk.peak <= 12
      ensures done ==> k == |files| && k / FILE2BLK == root.size / BY2BLK - 1
      ensures done ==> Pending(disk.held, root, k / FILE2BLK, dirb, Tail(files, nextb))
    {
      hide Built, LeakedBelow, D.Disk.Valid, D.Tied, D.Cleared, Stuck, Pending, Tail, ZeroDir, DirOk;
      BuiltFacts(disk.img, nextb, root, slots, files);
      RootHeld(disk.img, nextb, root, slots, files, disk.held, root.size / BY2BLK);
      ghost var img, held := disk.img, disk.held;
      var got := NewBlock(nextb, Dir(ZeroDir()));
      if got.None? {
        return false, 0, 0;
      }
      dirb, k := got.value, FILE2BLK * (root.size / BY2BLK);
      RootGrown(img, nextb, root, slots, files, held, dirb);
      root := root.(direct := root.direct[root.size / BY2BLK := nextb]);
      nextb := nextb + 1;
      root := root.(size := root.size + BY2BLK);
      slots := slots + ZeroDir();
      done := true;
    }

    /** What the copying loop does with one chunk, in buffer b: the block number goes
        into the File structure or the indirect block. */
    method PlaceBlock(b: nat, n: nat, cur: Entry, ghost c: seq<byte>) returns (done: bool, now: Entry)
      requires disk.Valid() && nextb in disk.held && disk.held[nextb] == b && nextb < |disk.img| &&
               disk.img[nextb] == Bytes(c)
      requires |disk.held| <= 11 && (forall h <- disk.held :: h <= nextb) && disk.peak <= 12
      requires (n <= V.NDIRECT ==> cur.file.indirect == 0) && (n > V.NDIRECT ==> 0 < cur.file.indirect < nextb)
      requires cur.file.indirect !in disk.held
      modifies this`nextb, disk, disk.cache
      ensures |disk.img| == |old(disk.img)|
      ensures done <==> PutChunk(old(disk.img), cur, old(nextb), n, c).Some?
      ensures done ==> disk.Valid() && Some((disk.img, now, nextb)) == PutChunk(old(disk.img), cur, old(nextb), n, c)
      ensures done ==> disk.held == old(disk.held) - {old(nextb)} && disk.peak <= 12 && now.name == cur.name
    {
      hide D.Disk.Valid, D.Tied, V.ZeroTable;
      assert disk.img[nextb := Bytes(c)] == disk.img;
      now := cur;
      var bno := nextb;
      nextb := nextb + 1;
      if n < V.NDIRECT {
        now := SetDirect(now, n, bno);
      } else if n < V.NINDIRECT {
        if now.file.indirect == 0 {
          var bindir := NewBlock(nextb, Words(V.ZeroTable()[n := bno]));
          if bindir.None? {
            return false, now;
          }
          disk.Release(bindir.value, nextb);
          now := SetIndirectOf(now, nextb);
          nextb := nextb + 1;
        } else {
          PutWord(now.file.indirect, n, bno);
        }
      } else {
        return false, now;
      }
      disk.Release(b, bno);
      return true, now;
    }

    /** The copying loop of writefile, from the opened input into new blocks; `cur`
        is the File structure in the busy directory buffer. If the input fills its
        last block, one more buffer is got and not put back. `flat` is the image
        without that. */
    method CopyData(name: string, data: seq<byte>, ghost k: nat)
        returns (done: bool, cur: Entry, ghost flat: seq<Content>)
      requires disk.Valid() && k < |slots| && 3 <= nextb <= |disk.img| && disk.peak <= 12
      requires Writing(disk.img, nextb, VolOf(disk.img, root, slots, nextb), disk.img, nextb, root, slots, k,
                       Entry(name, V.ZeroFile()), data, 0)
      requires (forall h <- disk.held :: 0 < h <= nextb) && |disk.held| <= (if nextb in disk.held then 11 else 10)
      modifies this`nextb, disk, disk.cache
      ensures |disk.img| == |old(disk.img)|
      ensures done <==> CopyFits(old(nextb), data, old(disk.held), |disk.img|)
      ensures done ==> disk.Valid() && disk.peak <= 12 && nextb == EndAfter(old(nextb), data) && cur.name == name &&
                       |flat| == |disk.img|
      ensures done ==> Writing(old(disk.img), old(nextb), VolOf(old(disk.img), root, slots, old(nextb)), flat, nextb,
                               root, slots, k, cur, data, BlocksFor(|data|))
      ensures done ==> TailDone(flat, old(disk.held), nextb, disk.img, disk.held, TailBlock(data))
    {
      hide Copying, CopyFits, Writing, VolOf, PutChunk, Chunk, BlocksFor, EndAfter, TailBlock, D.Disk.Valid, D.Tied;
      ghost var img0, nextb0, held := disk.img, nextb, disk.held;
      cur, flat := Entry(name, V.ZeroFile()), disk.img;
      var n := 0;
      CopyStart(img0, nextb0, root, slots, k, name, data, held);
      while true
        invariant disk.Valid() && disk.peak <= 12 && disk.held == held && |disk.img| == |img0|
        invariant Copying(img0, nextb0, root, slots, k, name, data, held, disk.img, nextb, cur, n)
        invariant n * BY2BLK <= |data|
        decreases |data| - n * BY2BLK
      {
        CopyFacts(img0, nextb0, root, slots, k, name, data, held, disk.img, nextb, cur, n);
        flat := disk.img;
        ghost var cur0, at := cur, nextb;
        var c := if (n + 1) * BY2BLK <= |data| then BY2BLK else |data| - n * BY2BLK;
        var b := NewBlock(nextb, if c == 0 then Zero else Bytes(Chunk(data, n)));
        if b.None? {
          return false, cur, flat;
        }
        if c == 0 {
          break;
        }
        PutTwice(flat, cur, nextb, n, Chunk(data, n));
        D.Back(held, nextb, b.value);
        var placed, now := PlaceBlock(b.value, n, cur, Chunk(data, n));
        if !placed {
          CopyFails(img0, nextb0, root, slots, k, name, data, held, flat, at, cur0, n);
          return false, cur, flat;
        }
        cur := now;
        CopyNext(img0, nextb0, root, slots, k, name, data, held, flat, at, cur0, n, disk.img, nextb, cur);
        n := n + 1;
        flat := disk.img;
        if c < BY2BLK {
          break;
        }
      }
      return true, cur, flat;
    }

    /** writefile. It finishes exactly if the disk has room, the file before did not
        leave its last buffer busy, and number and name are within bounds; the
        cache never runs out of buffers. A path that ends in a slash can be no
        file's. */
    method WriteFile(path: string, data: seq<byte>) returns (r: Outcome)
      requires Valid()
      modifies this`nextb, this`root, this`slots, this`files, disk, disk.cache
      ensures |disk.img| == |old(disk.img)|
      ensures r.Done? <==>
        0 < |Base(path)| < P.MAXNAMELEN && |old(files)| < V.NDIRECT * FILE2BLK &&
        Completes(old(files) + [Source(Base(path), data)], |disk.img|)
      ensures r.Overrun? <==>
        Base(path) != "" && (|Base(path)| >= P.MAXNAMELEN || |old(files)| == V.NDIRECT * FILE2BLK) &&
        PlaceFor(old(files), old(nextb), |disk.img|)
      ensures r.Done? ==> Valid() && files == old(files) + [Source(Base(path), data)]
    {
      hide Built, Completes, Stuck, EndOf, EndAfter, BlocksFor, TailBlock, Base, Ones, DirBlock, Leaked, Tail,
           D.Disk.Valid, D.Tied, Pending;
      var src := Source(Base(path), data);
      NextEnd(files, src, |disk.img|);
      if Completes(files + [src], |disk.img|) {
        NextPlace(files, src, nextb, |disk.img|);
      }
      EndHigh(files);
      hide Completes, PlaceFor;
      if Base(path) == "" {
        return Exit;
      }
      var dirb, k;
      r, dirb, k := FindPlace();
      if !r.Done? {
        return;
      }
      if |Base(path)| >= P.MAXNAMELEN {
        return Overrun;
      }
      var done := FillPlace(dirb, k, Base(path), data);
      r := if done then Done else Exit;
    }

    /** The loop of main. */
    method WriteFiles(inputs: seq<Source>) returns (r: Outcome)
      requires Valid() && files == []
      modifies this`nextb, this`root, this`slots, this`files, disk, disk.cache
      ensures |disk.img| == |old(disk.img)|
      ensures r.Done? <==> InBounds(inputs) && Completes(Sources(inputs), |disk.img|)
      ensures r.Overrun? ==> !InBounds(inputs)
      ensures r.Done? ==> Valid() && files == Sources(inputs)
    {
      ghost var srcs := Sources(inputs);
      hide Built, Stuck, EndOf, Base, Leaked, Tail, D.Disk.Valid, D.Tied, Ones, PlaceFor;
      var i := 0;
      while i < |inputs|
        invariant 0 <= i <= |inputs| && Valid() && files == srcs[..i] && |disk.img| == |old(disk.img)|
        invariant forall s <- inputs[..i] :: 0 < |Base(s.name)| < P.MAXNAMELEN
      {
        hide Completes;
        assert inputs[i] in inputs;
        r := WriteFile(inputs[i].name, inputs[i].data);
        assert srcs[..i] + [srcs[i]] == srcs[..i + 1];
        if !r.Done? {
          if Completes(srcs, |disk.img|) {
            CompletesPrefix(srcs, i + 1, |disk.img|);
          }
          return;
        }
        assert inputs[..i + 1] == inputs[..i] + [inputs[i]];
        i := i + 1;
      }
      assert srcs[..|inputs|] == srcs && inputs[..|inputs|] == inputs;
      return Done;
    }

    /** The file goes into slot k, whose directory block is in buffer dirb. */
    method FillPlace(dirb: nat, k: nat, name: string, data: seq<byte>) returns (done: bool)
      requires disk.Valid() && Built(disk.img, nextb, root, slots, files) && disk.peak <= 12 && 3 <= nextb && name != ""
      requires k == |files| < |slots| && k / FILE2BLK + 1 == root.size / BY2BLK
      requires Pending(disk.held, root, k / FILE2BLK, dirb, Tail(files, nextb))
      modifies this`nextb, this`slots, this`files, disk, disk.cache
      ensures |disk.img| == |old(disk.img)|
      ensures done <==> !Stuck(old(files)) && BlocksFor(|data|) <= V.NINDIRECT &&
                        EndAfter(old(nextb), data) + TailBlock(data) <= |disk.img|
      ensures done ==> files == old(files) + [Source(name, data)] && nextb == EndAfter(old(nextb), data) &&
                       |slots| == |old(slots)|
      ensures done ==> disk.Valid() && Built(disk.img, nextb, root, slots, files) && disk.peak <= 12 && |disk.img| > 2
      ensures done ==> disk.held.Keys == Leaked(root) + Tail(files, nextb) && disk.img[2] == old(disk.img)[2]
    {
      hide Built, Writing, VolOf, DirOk, Stuck, EndAfter, BlocksFor, TailBlock, SetSizeOf, AsDir, Chunk;
      hide D.Disk.Valid, D.Tied, Pending, Leaked, TailDone, Tail, CopyFits;
      var d := k / FILE2BLK;
      FillStart(disk.img, nextb, root, slots, files, disk.held, name, data, d, dirb);
      FitsMeans(files, nextb, data, disk.held, |disk.img|);
      var b := root.direct[d];
      var buf := disk.Read(dirb, b);
      var dir := AsDir(buf);
      ghost var img0, nextb0, held0 := disk.img, nextb, disk.held;
      var copied, cur, flat := CopyData(name, data, k);
      if !copied {
        return false;
      }
      dir := dir[k - FILE2BLK * d := SetSizeOf(cur, |data|)];
      FillDone(img0, nextb0, held0, root, slots, files, Source(name, data), flat, nextb, cur, disk.img, disk.held, k, d,
               dir);
      PutDir(dirb, b, dir);
      slots, files := slots[k := SetSizeOf(cur, |data|)], files + [Source(name, data)];
      return true;
    }

    /** A directory block is stored into its buffer, and the buffer put back. */
    method PutDir(dirb: nat, ghost b: nat, dir: seq<Entry>)
      requires disk.Valid() && b in disk.held && disk.held[b] == dirb
      modifies disk, disk.cache
      ensures disk.Valid() && b < |old(disk.img)| && disk.img == old(disk.img)[b := Dir(dir)]
      ensures disk.held == old(disk.held) - {b} && disk.peak == old(disk.peak)
    {
      disk.Fill(dirb, b, Dir(dir));
      disk.Release(dirb, b);
    }

    /** One round of finishfs: bit i of the bitmap. */
    method ClearBit(i: nat, ghost img0: seq<Content>, ghost bits: seq<bool>)
      requires disk.Valid() && 2 !in disk.held && |disk.held| <= 11 && disk.peak <= 12
      requires |img0| > 2 && disk.img == img0[2 := Bits(bits)] && i < |bits|
      modifies disk, disk.cache
      ensures disk.Valid() && disk.held == old(disk.held) && disk.peak <= 12 &&
              disk.img == img0[2 := Bits(bits[i := false])]
    {
      hide D.Disk.Valid, D.Tied, D.Cleared;
      D.ClearedOff(disk.img, 2);
      ghost var held := disk.held;
      var b := disk.Get(2, false);
      var buf := disk.Read(b.value, 2);
      disk.Fill(b.value, 2, Bits(BitsOf(buf)[i := false]));
      disk.Release(b.value, 2);
      D.Back(held, 2, b.value);
    }

    /** finishfs. */
    method FinishFs()
      requires Valid()
      modifies disk, disk.cache
      ensures disk.Valid() && disk.peak <= 12 && |disk.img| == |old(disk.img)|
      ensures Finished(disk.img, nextb, root, slots, files) && nextb == EndOf(files)
    {
      hide Built, D.Disk.Valid, D.Tied, D.Cleared, Completes, Leaked, Tail, EndOf, Finished, Ones;
      FinishHeld(disk.img, nextb, root, slots, files, disk.held);
      ghost var img0 := disk.img;
      ghost var bits := ClearUsed(img0);
      D.SizeOf(disk);
      if |disk.cache.disk| != BIT2BLK {
        bits := ClearRest(img0, bits);
      }
      PutSuper();
      FinishImage(img0, nextb, root, slots, files, bits, disk.img);
    }

    /** The super-block. */
    method PutSuper()
      requires disk.Valid() && 1 !in disk.held && |disk.held| <= 11 && disk.peak <= 12 && 1 < |disk.img|
      modifies disk, disk.cache
      ensures disk.Valid() && disk.peak <= 12 && disk.img == old(disk.img)[1 := Super(FS_MAGIC, |old(disk.img)|, root)]
    {
      hide D.Disk.Valid, D.Tied, D.Cleared;
      D.SizeOf(disk);
      var nblock := |disk.cache.disk|;
      var b := NewBlock(1, Super(FS_MAGIC, nblock, root));
      disk.Release(b.value, 1);
    }

    /** The bits of the blocks in use. */
    method ClearUsed(ghost img0: seq<Content>) returns (ghost bits: seq<bool>)
      requires disk.Valid() && 2 !in disk.held && |disk.held| <= 11 && disk.peak <= 12
      requires |img0| > 2 && disk.img == img0 && img0[2] == Bits(Ones()) && nextb <= BIT2BLK
      modifies disk, disk.cache
      ensures disk.Valid() && disk.held == old(disk.held) && disk.peak <= 12 && disk.img == img0[2 := Bits(bits)]
      ensures |bits| == BIT2BLK && forall b | 0 <= b < BIT2BLK :: bits[b] == (b >= nextb)
    {
      bits := Ones();
      hide D.Disk.Valid, D.Tied, D.Cleared;
      assert disk.img == img0[2 := Bits(bits)];
      var i := 0;
      while i < nextb
        invariant 0 <= i <= nextb && |bits| == BIT2BLK && disk.held == old(disk.held)
        invariant disk.Valid() && disk.peak <= 12 && disk.img == img0[2 := Bits(bits)]
        invariant forall b | 0 <= b < BIT2BLK :: bits[b] == (b >= i)
      {
        ClearBit(i, img0, bits);
        bits := bits[i := false];
        i := i + 1;
      }
    }

    /** The bits beyond the end of the disk. */
    method ClearRest(ghost img0: seq<Content>, ghost bits0: seq<bool>) returns (ghost bits: seq<bool>)
      requires disk.Valid() && 2 !in disk.held && |disk.held| <= 11 && disk.peak <= 12
      requires 2 < |img0| < BIT2BLK && disk.img == img0[2 := Bits(bits0)] && |bits0| == BIT2BLK
      modifies disk, disk.cache
      ensures disk.Valid() && disk.held == old(disk.held) && disk.peak <= 12 && disk.img == img0[2 := Bits(bits)]
      ensures |bits| == BIT2BLK && forall b | 0 <= b < BIT2BLK :: bits[b] == (bits0[b] && b < |img0|)
    {
      hide D.Disk.Valid, D.Tied, D.Cleared;
      D.ClearedOff(disk.img, 2);
      ghost var held := disk.held;
      D.SizeOf(disk);
      var i := |disk.cache.disk| % BIT2BLK;
      var b := disk.Get(2, false);
      var buf := disk.Read(b.value, 2);
      var now := BitsOf(buf);
      while i < BIT2BLK
        invariant |img0| <= i <= BIT2BLK && |now| == BIT2BLK
        invariant forall b | 0 <= b < BIT2BLK :: now[b] == (bits0[b] && !(|img0| <= b < i))
      {
        now := now[i := false];
        i := i + 1;
      }
      disk.Fill(b.value, 2, Bits(now));
      disk.Release(b.value, 2);
      D.Back(held, 2, b.value);
      bits := now;
    }
  }

  lemma FinishHeld(img: seq<Content>, nextb: nat, root: V.File, slots: seq<Entry>, files: seq<Source>,
                   held: map<nat, nat>)
    requires Built(img, nextb, root, slots, files) && held.Keys == Leaked(root) + Tail(files, nextb) &&
             nextb == EndOf(files)
    ensures |held| <= 11 && 1 !in held && 2 !in held && 3 <= nextb <= |img|
  {
    hide Built, EndOf, LeakedBelow;
    EndHigh(files);
    LeakedFacts(img, nextb, root, slots, files);
    BuiltFacts(img, nextb, root, slots, files);
    var n := root.size / BY2BLK;
    RootHeld(img, nextb, root, slots, files, held, if n == 0 then 0 else n - 1);
  }

  lemma FinishImage(img0: seq<Content>, nextb: nat, root: V.File, slots: seq<Entry>, files: seq<Source>,
                    bits: seq<bool>, img: seq<Content>)
    requires Built(img0, nextb, root, slots, files) && 3 <= nextb && 2 < |img0| <= BIT2BLK && |bits| == BIT2BLK
    requires forall b | 0 <= b < BIT2BLK :: bits[b] == (nextb <= b < |img0|)
    requires img == img0[2 := Bits(bits)][1 := Super(FS_MAGIC, |img0|, root)]
    ensures Finished(img, nextb, root, slots, files)
  {
    assert V.Reserved(VolOf(img0, root, slots, nextb)) >= 3;
    OthersStay(img0, nextb, root, slots, files, img);
    assert bits == FreeBits(nextb, |img|);
  }

  lemma NoTail(files: seq<Source>, nextb: nat)
    requires !Stuck(files)
    ensures Tail(files, nextb) == {}
  {
  }

  lemma StuckNext(files: seq<Source>, src: Source)
    ensures Stuck(files + [src]) == (TailBlock(src.data) == 1)
  {
  }

  lemma PendingHeld(img: seq<Content>, nextb: nat, root: V.File, slots: seq<Entry>, files: seq<Source>,
                    held: map<nat, nat>, d: nat, dirb: nat)
    requires Built(img, nextb, root, slots, files) && d + 1 == root.size / BY2BLK &&
             Pending(held, root, d, dirb, Tail(files, nextb))
    ensures d < V.NDIRECT && root.direct[d] in held && held[root.direct[d]] == dirb && DirOk(img, nextb, root, slots, d)
    ensures (forall h <- held :: 0 < h <= nextb) && |held| <= (if nextb in held then 11 else 10) &&
            (nextb in held <==> Stuck(files))
    ensures !Stuck(files) ==> held.Keys == Leaked(root) + {root.direct[d]}
    ensures root.direct[d] !in Leaked(root)
  {
    hide Built, Leaked, LeakedBelow, Stuck, Tail, DirOk;
    LeakedFacts(img, nextb, root, slots, files);
    BuiltFacts(img, nextb, root, slots, files);
    RootHeld(img, nextb, root, slots, files, held, d + 1);
  }

  /** What lets the builder begin on a file: its directory block is in a buffer. */
  lemma FillStart(img: seq<Content>, nextb: nat, root: V.File, slots: seq<Entry>, files: seq<Source>,
                  held: map<nat, nat>, name: string, data: seq<byte>, d: nat, dirb: nat)
    requires Built(img, nextb, root, slots, files) && d + 1 == root.size / BY2BLK && |files| < |slots|
    requires Pending(held, root, d, dirb, Tail(files, nextb))
    ensures d < V.NDIRECT && root.direct[d] in held && held[root.direct[d]] == dirb && nextb <= |img|
    ensures (forall h <- held :: 0 < h <= nextb) && |held| <= (if nextb in held then 11 else 10) &&
            (nextb in held <==> Stuck(files))
    ensures Writing(img, nextb, VolOf(img, root, slots, nextb), img, nextb, root, slots, |files|,
                    Entry(name, V.ZeroFile()), data, 0)
    ensures !Stuck(files) ==> held.Keys == Leaked(root) + {root.direct[d]} && root.direct[d] !in Leaked(root)
  {
    hide *;
    PendingHeld(img, nextb, root, slots, files, held, d, dirb);
    BuiltFacts(img, nextb, root, slots, files);
    WritingStart(img, nextb, root, slots, files, name, data);
  }

  /** Storing the finished structure into that buffer, whatever block the loop
      left busy after the data. */
  lemma FillDone(img0: seq<Content>, nextb0: nat, held0: map<nat, nat>, root: V.File, slots: seq<Entry>,
                 files: seq<Source>, src: Source, flat: seq<Content>, nextb: nat, cur: Entry, img: seq<Content>,
                 held: map<nat, nat>, k: nat, d: nat, dir: seq<Entry>)
    requires Built(img0, nextb0, root, slots, files) && k == |files| < |slots| && d == k / FILE2BLK && 3 <= nextb0
    requires d < V.NDIRECT && d + 1 == root.size / BY2BLK && root.direct[d] < |img0| && cur.name == src.name != ""
    requires Writing(img0, nextb0, VolOf(img0, root, slots, nextb0), flat, nextb, root, slots, k, cur, src.data,
                     BlocksFor(|src.data|))
    requires TailDone(flat, held0, nextb, img, held, TailBlock(src.data))
    requires held0.Keys == Leaked(root) + {root.direct[d]} && root.direct[d] !in Leaked(root)
    requires k - FILE2BLK * d < FILE2BLK &&
             dir == AsDir(img0[root.direct[d]])[k - FILE2BLK * d := SetSizeOf(cur, |src.data|)]
    ensures var b := root.direct[d];
            b < |img| == |img0| && b in held && held[b] == held0[b] && b > 2 && |img| > 2 && img[2] == img0[2] &&
            (held - {b}).Keys == Leaked(root) + Tail(files + [src], nextb) &&
            Built(img[b := Dir(dir)], nextb, root, slots[k := SetSizeOf(cur, |src.data|)], files + [src])
  {
    var b, e := root.direct[d], SetSizeOf(cur, |src.data|);
    BuiltFacts(img0, nextb0, root, slots, files);
    DirFacts(img0, nextb0, root, slots, d);
    DirUpdate(slots, k, d, e);
    DirBlockHigh(img0, nextb0, root, slots, files, d);
    WritingFacts(img0, nextb0, VolOf(img0, root, slots, nextb0), flat, nextb, root, slots, k, cur, src.data,
                 BlocksFor(|src.data|));
    StuckNext(files, src);
    hide *;
    FinishBuilt(img0, nextb0, root, slots, files, flat, nextb, cur, src, flat[b := Dir(dir)], slots[k := e],
                files + [src], k, d);
    TailImage(flat, held0, nextb, img, held, TailBlock(src.data), root, slots[k := e], files + [src], b, Dir(dir));
    TailHeld(held0, Leaked(root), b, flat, nextb, img, held, TailBlock(src.data), files + [src]);
  }

  /** After an input the directory block can be put back, and what stays busy is the
      full directory blocks and perhaps the next block. */
  lemma TailHeld(held0: map<nat, nat>, leaked: set<nat>, b: nat, flat: seq<Content>, nextb: nat, img: seq<Content>,
                 held: map<nat, nat>,
                 tail: nat, files: seq<Source>)
    requires held0.Keys == leaked + {b} && b !in leaked && TailDone(flat, held0, nextb, img, held, tail) &&
             Stuck(files) == (tail == 1)
    ensures b in held && held[b] == held0[b] && (held - {b}).Keys == leaked + Tail(files, nextb)
  {
    assert (held - {b}).Keys == held.Keys - {b};
    hide Stuck;
    assert b in held0.Keys;
  }

  /** And the image has the new directory block. */
  lemma TailImage(flat: seq<Content>, held0: map<nat, nat>, nextb: nat, img: seq<Content>, held: map<nat, nat>,
                  tail: nat,
                  root: V.File, slots: seq<Entry>, files: seq<Source>, b: nat, x: Content)
    requires TailDone(flat, held0, nextb, img, held, tail) && b < nextb && b < |flat|
    requires Built(flat[b := x], nextb, root, slots, files)
    ensures |img| == |flat| && Built(img[b := x], nextb, root, slots, files)
    ensures forall a | 0 <= a < nextb && a < |img| :: img[a] == flat[a]
  {
    if tail == 1 {
      FreeStays(flat[b := x], nextb, root, slots, files);
      assert img[b := x] == flat[b := x][nextb := Zero];
    }
  }

  /** What is left busy, and zeroed, after an input. */
  ghost predicate TailDone(flat: seq<Content>, held: map<nat, nat>, nextb: nat, img: seq<Content>, now: map<nat, nat>,
                           tail: nat) {
    if tail != 1 then img == flat && now == held
    else
      nextb < |flat| && img == flat[nextb := Zero] && now.Keys == held.Keys + {nextb} && nextb !in held &&
      forall b <- held :: now[b] == held[b]
  }

  /** The next block's buffer is free and there is room for the file, and for one
      block more if its last block is full. */
  predicate CopyFits(nextb: nat, data: seq<byte>, held: map<nat, nat>, nblock: nat) {
    nextb !in held && BlocksFor(|data|) <= V.NINDIRECT && EndAfter(nextb, data) + TailBlock(data) <= nblock
  }

  lemma FitsMeans(files: seq<Source>, nextb: nat, data: seq<byte>, held: map<nat, nat>, nblock: nat)
    requires nextb in held <==> Stuck(files)
    ensures CopyFits(nextb, data, held, nblock) <==>
            !Stuck(files) && BlocksFor(|data|) <= V.NINDIRECT && EndAfter(nextb, data) + TailBlock(data) <= nblock
  {
  }

  /** The blocks and buffers taken by n blocks of an input. */
  predicate CopyShape(nextb0: nat, size: nat, held: map<nat, nat>, nextb: nat, n: nat) {
    n * BY2BLK <= size && 0 < nextb0 && nextb == nextb0 + n + (if n > V.NDIRECT then 1 else 0) &&
    (forall h <- held :: 0 < h <= nextb0) && |held| <= (if nextb0 in held then 11 else 10) &&
    (n > 0 ==> nextb0 !in held)
  }

  /** n blocks of the input have been copied. */
  ghost predicate Copying(img0: seq<Content>, nextb0: nat, root: V.File, slots: seq<Entry>, k: nat, name: string,
                          data: seq<byte>, held: map<nat, nat>, img: seq<Content>, nextb: nat, cur: Entry, n: nat) {
    cur.name == name && CopyShape(nextb0, |data|, held, nextb, n) &&
    Writing(img0, nextb0, VolOf(img0, root, slots, nextb0), img, nextb, root, slots, k, cur, data, n)
  }

  lemma CopyStart(img0: seq<Content>, nextb0: nat, root: V.File, slots: seq<Entry>, k: nat, name: string,
                  data: seq<byte>, held: map<nat, nat>)
    requires Writing(img0, nextb0, VolOf(img0, root, slots, nextb0), img0, nextb0, root, slots, k,
                     Entry(name, V.ZeroFile()), data, 0)
    requires 0 < nextb0 && (forall h <- held :: 0 < h <= nextb0) && |held| <= (if nextb0 in held then 11 else 10)
    ensures Copying(img0, nextb0, root, slots, k, name, data, held, img0, nextb0, Entry(name, V.ZeroFile()), 0)
  {
    hide Writing;
  }

  lemma CopyFacts(img0: seq<Content>, nextb0: nat, root: V.File, slots: seq<Entry>, k: nat, name: string,
                  data: seq<byte>, held: map<nat, nat>, img: seq<Content>, nextb: nat, cur: Entry, n: nat)
    requires Copying(img0, nextb0, root, slots, k, name, data, held, img, nextb, cur, n)
    ensures n * BY2BLK <= |data| && 0 < nextb <= |img| && cur.name == name
    ensures |held| <= (if nextb in held then 11 else 10) && (forall h <- held :: h <= nextb) && 0 !in held
    ensures (n <= V.NDIRECT ==> cur.file.indirect == 0) && (n > V.NDIRECT ==> 0 < cur.file.indirect < nextb)
    ensures cur.file.indirect !in held
    ensures nextb in held || nextb >= |img| ==> !CopyFits(nextb0, data, held, |img|)
    ensures n * BY2BLK == |data| ==>
              n == BlocksFor(|data|) && TailBlock(data) == 1 && nextb == EndAfter(nextb0, data) &&
              (nextb !in held && nextb < |img| ==> CopyFits(nextb0, data, held, |img|)) &&
              Writing(img0, nextb0, VolOf(img0, root, slots, nextb0), img, nextb, root, slots, k, cur, data, n)
  {
    RoundsLeft(|data|, n, nextb0, data);
    WritingFacts(img0, nextb0, VolOf(img0, root, slots, nextb0), img, nextb, root, slots, k, cur, data, n);
    hide Writing, VolOf, EndAfter, BlocksFor, TailBlock;
  }

  lemma CopyFails(img0: seq<Content>, nextb0: nat, root: V.File, slots: seq<Entry>, k: nat, name: string,
                  data: seq<byte>, held: map<nat, nat>, img: seq<Content>, nextb: nat, cur: Entry, n: nat)
    requires Copying(img0, nextb0, root, slots, k, name, data, held, img, nextb, cur, n) && n * BY2BLK < |data|
    requires nextb < |img| && PutChunk(img, cur, nextb, n, Chunk(data, n)).None?
    ensures !CopyFits(nextb0, data, held, |img|)
  {
    RoundsLeft(|data|, n, nextb0, data);
    WritingFacts(img0, nextb0, VolOf(img0, root, slots, nextb0), img, nextb, root, slots, k, cur, data, n);
    hide Writing, VolOf, EndAfter, BlocksFor, TailBlock, PutChunk, Chunk;
    PutChunkFails(img, cur, nextb, n, Chunk(data, n));
  }

  lemma CopyNext(img0: seq<Content>, nextb0: nat, root: V.File, slots: seq<Entry>, k: nat, name: string,
                 data: seq<byte>, held: map<nat, nat>, img: seq<Content>, nextb: nat, cur: Entry, n: nat,
                 img': seq<Content>, nextb': nat, cur': Entry)
    requires Copying(img0, nextb0, root, slots, k, name, data, held, img, nextb, cur, n) && n * BY2BLK < |data|
    requires nextb !in held && cur'.name == name
    requires PutChunk(img, cur, nextb, n, Chunk(data, n)) == Some((img', cur', nextb'))
    ensures |img'| == |img|
    ensures (n + 1) * BY2BLK <= |data| ==>
              Copying(img0, nextb0, root, slots, k, name, data, held, img', nextb', cur', n + 1)
    ensures (n + 1) * BY2BLK > |data| ==>
              TailBlock(data) == 0 && nextb' == EndAfter(nextb0, data) && CopyFits(nextb0, data, held, |img'|) &&
              Writing(img0, nextb0, VolOf(img0, root, slots, nextb0), img', nextb', root, slots, k, cur', data,
                      BlocksFor(|data|))
  {
    hide *;
    if (n + 1) * BY2BLK <= |data| {
      CopyMore(img0, nextb0, root, slots, k, name, data, held, img, nextb, cur, n, img', nextb', cur');
    } else {
      CopyEnds(img0, nextb0, root, slots, k, name, data, held, img, nextb, cur, n, img', nextb', cur');
    }
  }

  lemma CopyMore(img0: seq<Content>, nextb0: nat, root: V.File, slots: seq<Entry>, k: nat, name: string,
                 data: seq<byte>, held: map<nat, nat>, img: seq<Content>, nextb: nat, cur: Entry, n: nat,
                 img': seq<Content>, nextb': nat, cur': Entry)
    requires Copying(img0, nextb0, root, slots, k, name, data, held, img, nextb, cur, n)
    requires nextb !in held && cur'.name == name
    requires PutChunk(img, cur, nextb, n, Chunk(data, n)) == Some((img', cur', nextb'))
    requires (n + 1) * BY2BLK <= |data|
    ensures |img'| == |img| && Copying(img0, nextb0, root, slots, k, name, data, held, img', nextb', cur', n + 1)
  {
    assert CopyShape(nextb0, |data|, held, nextb, n);
    hide PutChunk, Chunk, Writing, VolOf, BlocksFor, TailBlock, EndAfter, CopyShape;
    CopyRound(img0, nextb0, root, slots, k, name, data, held, img, nextb, cur, n, img', nextb', cur');
    ShapeNext(nextb0, |data|, held, nextb, n, nextb');
  }

  lemma CopyEnds(img0: seq<Content>, nextb0: nat, root: V.File, slots: seq<Entry>, k: nat, name: string,
                 data: seq<byte>, held: map<nat, nat>, img: seq<Content>, nextb: nat, cur: Entry, n: nat,
                 img': seq<Content>, nextb': nat, cur': Entry)
    requires Copying(img0, nextb0, root, slots, k, name, data, held, img, nextb, cur, n)
    requires nextb !in held && cur'.name == name
    requires PutChunk(img, cur, nextb, n, Chunk(data, n)) == Some((img', cur', nextb'))
    requires n * BY2BLK < |data| < (n + 1) * BY2BLK
    ensures |img'| == |img| && TailBlock(data) == 0 && nextb' == EndAfter(nextb0, data)
    ensures CopyFits(nextb0, data, held, |img'|)
    ensures Writing(img0, nextb0, VolOf(img0, root, slots, nextb0), img', nextb', root, slots, k, cur', data,
                    BlocksFor(|data|))
  {
    assert CopyShape(nextb0, |data|, held, nextb, n);
    hide PutChunk, Chunk, Writing, VolOf, BlocksFor, TailBlock, EndAfter, CopyShape;
    CopyRound(img0, nextb0, root, slots, k, name, data, held, img, nextb, cur, n, img', nextb', cur');
    ShapeNext(nextb0, |data|, held, nextb, n, nextb');
    CopyLast(nextb0, data, n);
  }

  lemma ShapeNext(nextb0: nat, size: nat, held: map<nat, nat>, nextb: nat, n: nat, nextb': nat)
    requires CopyShape(nextb0, size, held, nextb, n) && nextb !in held
    requires nextb' == nextb0 + n + 1 + if n + 1 > V.NDIRECT then 1 else 0
    ensures nextb0 !in held && ((n + 1) * BY2BLK <= size ==> CopyShape(nextb0, size, held, nextb', n + 1))
  {
  }

  /** The block just copied was the last one, and not full. */
  lemma CopyLast(nextb0: nat, data: seq<byte>, n: nat)
    requires n * BY2BLK < |data| < (n + 1) * BY2BLK
    ensures BlocksFor(|data|) == n + 1 && TailBlock(data) == 0
    ensures EndAfter(nextb0, data) == nextb0 + n + 1 + if n + 1 > V.NDIRECT then 1 else 0
  {
    RoundsLeft(|data|, n, nextb0, data);
  }

  lemma CopyRound(img0: seq<Content>, nextb0: nat, root: V.File, slots: seq<Entry>, k: nat, name: string,
                  data: seq<byte>, held: map<nat, nat>, img: seq<Content>, nextb: nat, cur: Entry, n: nat,
                  img': seq<Content>, nextb': nat, cur': Entry)
    requires Copying(img0, nextb0, root, slots, k, name, data, held, img, nextb, cur, n) && n * BY2BLK < |data|
    requires PutChunk(img, cur, nextb, n, Chunk(data, n)) == Some((img', cur', nextb'))
    ensures |img'| == |img| && nextb' <= |img'| && n < V.NINDIRECT
    ensures nextb' == nextb0 + n + 1 + if n + 1 > V.NDIRECT then 1 else 0
    ensures Writing(img0, nextb0, VolOf(img0, root, slots, nextb0), img', nextb', root, slots, k, cur', data, n + 1)
  {
    WritingFacts(img0, nextb0, VolOf(img0, root, slots, nextb0), img, nextb, root, slots, k, cur, data, n);
    hide Writing, VolOf, PutChunk, Chunk;
    NextbAfter(img, cur, nextb, n, Chunk(data, n));
    PutChunkKeeps(img0, nextb0, VolOf(img0, root, slots, nextb0), img, nextb, root, slots, k, cur, data, n);
  }

  lemma PutTwice(img: seq<Content>, cur: Entry, nextb: nat, n: nat, c: seq<byte>)
    requires nextb < |img| && cur.file.indirect < nextb
    ensures PutChunk(img[nextb := Bytes(c)], cur, nextb, n, c) == PutChunk(img, cur, nextb, n, c)
  {
    assert img[nextb := Bytes(c)][nextb := Bytes(c)] == img[nextb := Bytes(c)];
  }

  lemma PutChunkFails(img: seq<Content>, cur: Entry, nextb: nat, n: nat, c: seq<byte>)
    requires nextb < |img| && PutChunk(img, cur, nextb, n, c).None? && cur.file.indirect < nextb
    ensures n >= V.NINDIRECT || (V.NDIRECT <= n && cur.file.indirect == 0 && nextb + 1 >= |img|)
  {
  }

  lemma NextbAfter(img: seq<Content>, cur: Entry, nextb: nat, n: nat, c: seq<byte>)
    requires PutChunk(img, cur, nextb, n, c).Some?
    ensures PutChunk(img, cur, nextb, n, c).value.2 == nextb + if V.NDIRECT <= n && cur.file.indirect == 0 then 2 else 1
    ensures |PutChunk(img, cur, nextb, n, c).value.0| == |img| && n < V.NINDIRECT &&
            PutChunk(img, cur, nextb, n, c).value.2 <= |img|
  {
  }

  lemma NothingHeld(nblock: nat)
    requires 3 <= nblock
    ensures Completes([], nblock) && EndOf([]) == 3 && Leaked(V.ZeroFile()) + Tail([], 3) == {}
  {
  }

  /** The buffer of directory block d is got; those of full ones and of the end of
      the last input were never put back. */
  ghost predicate Pending(held: map<nat, nat>, root: V.File, d: nat, dirb: nat, tail: set<nat>) {
    d < V.NDIRECT && root.direct[d] in held && held[root.direct[d]] == dirb &&
    held.Keys == Leaked(root) + {root.direct[d]} + tail
  }

  /** The new block is of empty structures, in buffer dirb. */
  lemma RootGrown(img: seq<Content>, nextb: nat, root: V.File, slots: seq<Entry>, files: seq<Source>,
                  held: map<nat, nat>, dirb: nat)
    requires Built(img, nextb, root, slots, files) && |files| == |slots| < V.NDIRECT * FILE2BLK && nextb < |img|
    requires held.Keys == LeakedBelow(root, root.size / BY2BLK) && !Stuck(files)
    ensures var d := root.size / BY2BLK;
            d < V.NDIRECT &&
            var root' := root.(direct := root.direct[d := nextb], size := root.size + BY2BLK);
            root'.size / BY2BLK == d + 1 && FILE2BLK * d == |files| && |ZeroDir()| == FILE2BLK &&
            Built(img[nextb := Dir(ZeroDir())], nextb + 1, root', slots + ZeroDir(), files) &&
            Pending(held[nextb := dirb], root', d, dirb, Tail(files, nextb + 1))
  {
    hide Built, LeakedBelow, Pending, Tail, DirOk, Stuck;
    BuiltFacts(img, nextb, root, slots, files);
    NoTail(files, nextb + 1);
    GrowBuilt(img, nextb, root, slots, files);
    PendingNew(held[nextb := dirb], root, nextb, dirb);
  }

  lemma PendingNew(held: map<nat, nat>, root: V.File, b: nat, dirb: nat)
    requires root.size % BY2BLK == 0 && root.size / BY2BLK < V.NDIRECT
    requires b in held && held[b] == dirb && held.Keys == LeakedBelow(root, root.size / BY2BLK) + {b}
    ensures var root' := root.(direct := root.direct[root.size / BY2BLK := b], size := root.size + BY2BLK);
            root'.size / BY2BLK == root.size / BY2BLK + 1 && Pending(held, root', root.size / BY2BLK, dirb, {})
  {
    LeakedGrows(root, b);
  }

  lemma Sizes(img: seq<Content>, nextb: nat, root: V.File, slots: seq<Entry>, files: seq<Source>)
    requires Built(img, nextb, root, slots, files)
    ensures |slots| == root.size / BY2BLK * FILE2BLK && |files| <= |slots| <= |files| + FILE2BLK &&
            |slots| <= V.NDIRECT * FILE2BLK
  {
  }

  lemma DirBlockWhen(files: nat, n: nat)
    requires files <= FILE2BLK * n < files + FILE2BLK
    ensures DirBlock(files) == if files < FILE2BLK * n then 0 else 1
    ensures files / FILE2BLK == if files < FILE2BLK * n then n - 1 else n
  {
  }

  lemma EndHigh(files: seq<Source>)
    ensures EndOf(files) >= 3
  {
  }

  lemma {:induction false} LeakedCount(root: V.File, n: nat)
    requires n <= V.NDIRECT
    ensures |LeakedBelow(root, n)| <= n
  {
    if n == 0 {
      assert LeakedBelow(root, 0) == {};
    } else {
      LeakedCount(root, n - 1);
      assert LeakedBelow(root, n) == LeakedBelow(root, n - 1) + {root.direct[n - 1]};
    }
  }

  /** Few buffers are busy, and the next block's only if the last input left it. */
  lemma RootHeld(img: seq<Content>, nextb: nat, root: V.File, slots: seq<Entry>, files: seq<Source>,
                 held: map<nat, nat>, n: nat)
    requires Built(img, nextb, root, slots, files) && n <= root.size / BY2BLK
    requires held.Keys == LeakedBelow(root, n) + Tail(files, nextb)
    ensures |held| <= V.NDIRECT + (if Stuck(files) then 1 else 0) && (n < V.NDIRECT ==> |held| <= V.NDIRECT)
    ensures (forall h <- held :: 0 < h <= nextb) && (nextb in held <==> Stuck(files)) &&
            (!Stuck(files) ==> held.Keys == LeakedBelow(root, n))
    ensures forall d | n <= d < root.size / BY2BLK && d < V.NDIRECT :: root.direct[d] !in held
  {
    hide Built;
    DirBlocks(img, nextb, root, slots, files);
    HeldCount(root, n, Tail(files, nextb), held);
  }

  lemma HeldCount(root: V.File, n: nat, tail: set<nat>, held: map<nat, nat>)
    requires n <= V.NDIRECT && held.Keys == LeakedBelow(root, n) + tail
    ensures |held| <= n + |tail|
  {
    LeakedCount(root, n);
    var few := LeakedBelow(root, n);
    assert |few + tail| + |few * tail| == |few| + |tail|;
    assert |held.Keys| == |held|;
  }

  /** The root's blocks are distinct and lie below nextb. */
  lemma DirBlocks(img: seq<Content>, nextb: nat, root: V.File, slots: seq<Entry>, files: seq<Source>)
    requires Built(img, nextb, root, slots, files)
    ensures root.size / BY2BLK <= V.NDIRECT && 0 < nextb
    ensures forall d | 0 <= d < root.size / BY2BLK && d < V.NDIRECT :: 2 < root.direct[d] < nextb
    ensures forall d, e | 0 <= e < d < root.size / BY2BLK && d < V.NDIRECT :: root.direct[d] != root.direct[e]
  {
    forall d | 0 <= d < root.size / BY2BLK && d < V.NDIRECT ensures 2 < root.direct[d] < nextb {
      assert DirOk(img, nextb, root, slots, d);
      DirBlockHigh(img, nextb, root, slots, files, d);
    }
    forall d, e | 0 <= e < d < root.size / BY2BLK && d < V.NDIRECT ensures root.direct[d] != root.direct[e] {
      assert DirOk(img, nextb, root, slots, d) && DirOk(img, nextb, root, slots, e);
      DirBlocksApart(img, nextb, root, slots, d, e);
    }
  }

  lemma LeakedGrows(root: V.File, b: nat)
    requires root.size % BY2BLK == 0 && root.size / BY2BLK < V.NDIRECT
    ensures var root' := root.(direct := root.direct[root.size / BY2BLK := b], size := root.size + BY2BLK);
            Leaked(root') == LeakedBelow(root, root.size / BY2BLK) && root'.size / BY2BLK == root.size / BY2BLK + 1
  {
    var n := root.size / BY2BLK;
    var direct := root.direct[n := b];
    assert (root.size + BY2BLK) / BY2BLK == n + 1;
    assert forall d | 0 <= d < n :: direct[d] == root.direct[d];
  }

  /** Directory blocks are distinct and lie below nextb. */
  lemma LeakedFacts(img: seq<Content>, nextb: nat, root: V.File, slots: seq<Entry>, files: seq<Source>)
    requires Built(img, nextb, root, slots, files)
    ensures forall b <- LeakedBelow(root, root.size / BY2BLK) :: 2 < b < nextb
    ensures forall b <- Leaked(root) :: 2 < b < nextb
    ensures root.size / BY2BLK == 0 ==> Leaked(root) == LeakedBelow(root, 0)
    ensures root.size / BY2BLK > 0 ==>
      var last := root.size / BY2BLK - 1;
      last < V.NDIRECT && root.direct[last] !in Leaked(root) &&
      LeakedBelow(root, last + 1) == Leaked(root) + {root.direct[last]}
  {
    hide Built;
    DirBlocks(img, nextb, root, slots, files);
  }

  /** The structures of the last directory block are used up to the last file. */
  lemma SlotUsed(img: seq<Content>, nextb: nat, root: V.File, slots: seq<Entry>, files: seq<Source>, d: nat, i: nat)
    requires Built(img, nextb, root, slots, files) && d < root.size / BY2BLK && i < FILE2BLK &&
             FILE2BLK * d + i <= |files|
    ensures d < V.NDIRECT && root.direct[d] < |img|
    ensures AsDir(img[root.direct[d]])[i].name == "" <==> FILE2BLK * d + i == |files|
  {
    var k := FILE2BLK * d + i;
    assert DirOk(img, nextb, root, slots, d);
    assert AsDir(img[root.direct[d]])[i] == slots[k];
    if k < |files| {
      assert FileOk(img, VolOf(img, root, slots, nextb), slots, files, k);
    } else {
      assert slots[k] == ZeroEntry();
    }
  }

  lemma FreeStays(img: seq<Content>, nextb: nat, root: V.File, slots: seq<Entry>, files: seq<Source>)
    requires Built(img, nextb, root, slots, files) && nextb < |img|
    ensures Built(img[nextb := Zero], nextb, root, slots, files)
  {
    OthersStay(img, nextb, root, slots, files, img[nextb := Zero]);
  }

  lemma BuiltFacts(img: seq<Content>, nextb: nat, root: V.File, slots: seq<Entry>, files: seq<Source>)
    requires Built(img, nextb, root, slots, files)
    ensures 0 < nextb <= |img| && |slots| == root.size / BY2BLK * FILE2BLK && |files| <= |slots| <= |files| + FILE2BLK
    ensures |slots| <= V.NDIRECT * FILE2BLK && root.size % BY2BLK == 0 && root.size / BY2BLK <= V.NDIRECT
    ensures forall d | 0 <= d < root.size / BY2BLK :: DirOk(img, nextb, root, slots, d)
  {
  }

  lemma DirFacts(img: seq<Content>, nextb: nat, root: V.File, slots: seq<Entry>, d: nat)
    requires DirOk(img, nextb, root, slots, d)
    ensures d < V.NDIRECT && 0 < root.direct[d] < nextb && root.direct[d] < |img| && FILE2BLK * (d + 1) <= |slots|
    ensures AsDir(img[root.direct[d]]) == slots[FILE2BLK * d..FILE2BLK * (d + 1)]
  {
  }

  lemma DirUpdate(slots: seq<Entry>, k: nat, d: nat, e: Entry)
    requires d == k / FILE2BLK && FILE2BLK * (d + 1) <= |slots|
    ensures slots[FILE2BLK * d..FILE2BLK * (d + 1)][k - FILE2BLK * d := e] ==
              slots[k := e][FILE2BLK * d..FILE2BLK * (d + 1)]
  {
  }

  lemma DirBlockHigh(img: seq<Content>, nextb: nat, root: V.File, slots: seq<Entry>, files: seq<Source>, d: nat)
    requires Built(img, nextb, root, slots, files) && DirOk(img, nextb, root, slots, d)
    ensures root.direct[d] > 2
  {
    var v := VolOf(img, root, slots, nextb);
    assert V.Named(v, V.Slot.Direct(0, d)) == root.direct[d];
    assert V.InUse(v, root.direct[d]);
  }

  lemma RoomNeeded(nextb: nat, data: seq<byte>)
    ensures nextb < EndAfter(nextb, data) + TailBlock(data)
  {
  }

  /** The buffer got only to find the end of the input. */
  function TailBlock(data: seq<byte>): nat {
    if |data| % BY2BLK == 0 then 1 else 0
  }

  lemma RoundsLeft(size: nat, n: nat, nextb: nat, data: seq<byte>)
    requires n * BY2BLK <= size == |data|
    ensures n <= BlocksFor(size) && (n < BlocksFor(size) <==> n * BY2BLK < size)
    ensures size < (n + 1) * BY2BLK ==> BlocksFor(size) <= n + 1
    ensures TailBlock(data) == if size % BY2BLK == 0 then 1 else 0
    ensures n * BY2BLK == size ==> TailBlock(data) == 1
    ensures n * BY2BLK < size < (n + 1) * BY2BLK ==> TailBlock(data) == 0
    ensures EndAfter(nextb, data) == nextb + BlocksFor(size) + (if BlocksFor(size) > V.NDIRECT then 1 else 0)
  {
  }

  lemma WritingFacts(img0: seq<Content>, nextb0: nat, v0: V.Vol, img: seq<Content>, nextb: nat,
                     root: V.File, slots: seq<Entry>, k: nat, cur: Entry, data: seq<byte>, n: nat)
    requires Writing(img0, nextb0, v0, img, nextb, root, slots, k, cur, data, n)
    ensures n <= V.NINDIRECT && (cur.file.indirect == 0 <==> n <= V.NDIRECT)
    ensures cur.file.indirect != 0 ==> nextb0 <= cur.file.indirect < nextb <= |img|
    ensures nextb0 <= nextb <= |img| == |img0| && forall b | 0 <= b < nextb0 :: img[b] == img0[b]
  {
  }

  lemma EndOfLast(files: seq<Source>, k: nat)
    requires |files| == k + 1
    ensures EndOf(files) == EndAfter(EndOf(files[..k]) + DirBlock(k), files[k].data)
  {
    hide EndAfter, DirBlock;
  }

  lemma EndOfNext(files: seq<Source>, src: Source, next: seq<Source>)
    requires next == files + [src]
    ensures EndOf(next) == EndAfter(EndOf(files) + DirBlock(|files|), src.data)
  {
    hide *;
    EndOfLast(next, |files|);
    assert next[..|files|] == files && next[|files|] == src;
  }

  lemma NextEnd(files: seq<Source>, src: Source, nblock: nat)
    requires Completes(files, nblock)
    ensures var next := EndOf(files) + DirBlock(|files|);
            EndOf(files + [src]) == EndAfter(next, src.data) && Stuck(files + [src]) == (TailBlock(src.data) == 1) &&
            (Completes(files + [src], nblock) <==>
              !Stuck(files) && BlocksFor(|src.data|) <= V.NINDIRECT &&
              EndAfter(next, src.data) + TailBlock(src.data) <= nblock)
  {
    EndOfNext(files, src, files + [src]);
    hide BlocksFor, EndOf, EndAfter, DirBlock;
    var files' := files + [src];
    assert Stuck(files') == !Ragged(src);
    var k := |files| - 1;
    assert Stuck(files) ==> !Ragged(files'[k]);
    assert src in files';
    if !Stuck(files) {
      forall j | 0 <= j < |files'| - 1 ensures Ragged(files'[j]) {
        assert files'[j] == files[j];
      }
    }
    assert forall s :: s in files' <==> s in files || s == src;
  }

  lemma NextPlace(files: seq<Source>, src: Source, nextb: nat, nblock: nat)
    requires Completes(files, nblock) && nextb == EndOf(files) && Completes(files + [src], nblock)
    ensures PlaceFor(files, nextb, nblock)
  {
    NextEnd(files, src, nblock);
    RoomNeeded(nextb + DirBlock(|files|), src.data);
    hide Completes, Stuck, EndOf, EndAfter, TailBlock, BlocksFor;
  }

  lemma EmptyBuilt(img: seq<Content>)
    requires 3 <= |img| <= BIT2BLK
    ensures Built(img, 3, V.ZeroFile(), [], [])
  {
    var v := VolOf(img, V.ZeroFile(), [], 3);
    assert v.files == map[0 := V.ZeroFile()];
    forall s ensures V.Named(v, s) == 0 {}
    assert V.Reserved(v) == 3;
  }

  // ------------------------------------------------------------------ mounting

  function BitsOf(c: Content): seq<bool> {
    if c.Bits? then c.bits else []
  }

  predicate BitSet(bits: seq<bool>, b: nat) {
    b < |bits| && bits[b]
  }

  /** block_is_free, for every block at once. */
  function FreeSet(bits: seq<bool>, nblocks: nat): set<nat> {
    set b: nat | b < nblocks && BitSet(bits, b)
  }

  /** The File structures of the root's blocks, in order. */
  function SlotsFrom(img: seq<Content>, root: V.File, n: nat): (s: seq<Entry>)
    requires n <= V.NDIRECT
    ensures |s| == n * FILE2BLK
  {
    if n == 0 then []
    else
      var b := root.direct[n - 1];
      SlotsFrom(img, root, n - 1) + AsDir(if b < |img| then img[b] else Zero)
  }

  function Ids(d: nat): seq<nat> {
    seq(FILE2BLK, j requires 0 <= j => FILE2BLK * d + j + 1)
  }

  function RootBlocks(n: nat): seq<P.Block> {
    seq(n, d requires 0 <= d => P.Slots(Ids(d)))
  }

  function StoreFile(root: V.File, slots: seq<Entry>, g: nat): P.File
    requires g <= |slots|
  {
    if g == 0 then P.File("/", true, RootBlocks(root.size / BY2BLK)) else P.File(slots[g - 1].name, false, [])
  }

  function StoreOf(root: V.File, slots: seq<Entry>): P.Store {
    map g: nat | g <= |slots| :: StoreFile(root, slots, g)
  }

  datatype Mounted = Mounted(vol: V.Vol, store: P.Store)

  /** What the server works on after fs_init: the super-block and bitmap it reads,
      the files of the root, nothing mapped yet. None stands for a panic. */
  function Mount(img: seq<Content>, pages: nat): Option<Mounted> {
    if |img| < 3 || !img[1].Super? || img[1].magic != FS_MAGIC || img[1].nblocks > DISKMAX / BY2BLK ||
      img[1].nblocks > |img| then None
    else if BitSet(BitsOf(img[2]), 0) || BitSet(BitsOf(img[2]), 1) then None
    else
      var root := img[1].root;
      if root.size / BY2BLK > V.NDIRECT then None
      else
        var slots := SlotsFrom(img, root, root.size / BY2BLK);
        var v := VolOf(img[..img[1].nblocks], root, slots, 0);
        Some(Mounted(V.Vol(v.nblocks, FreeSet(BitsOf(img[2]), v.nblocks), {}, pages, v.blk, v.files),
                     StoreOf(root, slots)))
  }

  /** Any disk the server accepts: the super-block is one, the volume is no larger than
      the disk or the window, and boot block, super-block and what lies beyond the volume
      count as used. */
  lemma MountGood(img: seq<Content>, pages: nat)
    requires Mount(img, pages).Some?
    ensures |img| >= 3 && img[1].Super? && img[1].magic == FS_MAGIC
    ensures var v := Mount(img, pages).value.vol;
            && v.nblocks == img[1].nblocks <= |img| && v.nblocks * BY2BLK <= DISKMAX && v.mapped == {}
            && forall b <- v.free :: 2 <= b < v.nblocks && img[2].Bits? && b < |img[2].bits| && img[2].bits[b]
  {
  }

  /** Reading all of file f, block after block. */
  function FileBytes(img: seq<Content>, v: V.Vol, f: nat): seq<byte>
    requires f in v.files
  {
    seq(v.files[f].size, j requires 0 <= j => ByteAt(img, v, f, j))
  }

  function ByteAt(img: seq<Content>, v: V.Vol, f: nat, j: nat): byte {
    var b := V.BlockOf(v, f, j / BY2BLK);
    if 0 < b < |img| && img[b].Bytes? && j % BY2BLK < |img[b].data| then img[b].data[j % BY2BLK] else 0
  }

  function FreeBits(nextb: nat, nblocks: nat): seq<bool> {
    seq(BIT2BLK, i => nextb <= i < nblocks)
  }

  /** What finishfs leaves: bitmap and super-block agree with the files. */
  ghost predicate Finished(img: seq<Content>, nextb: nat, root: V.File, slots: seq<Entry>, files: seq<Source>) {
    Built(img, nextb, root, slots, files) && 3 <= nextb && |img| <= BIT2BLK &&
    img[1] == Super(FS_MAGIC, |img|, root) &&
    img[2] == Bits(FreeBits(nextb, |img|))
  }

  lemma {:induction false} SlotsRead(img: seq<Content>, nextb: nat, root: V.File, slots: seq<Entry>, n: nat)
    requires n <= V.NDIRECT && n * FILE2BLK <= |slots|
    requires forall d | 0 <= d < n :: DirOk(img, nextb, root, slots, d)
    ensures SlotsFrom(img, root, n) == slots[..n * FILE2BLK]
  {
    if n > 0 {
      SlotsRead(img, nextb, root, slots, n - 1);
      assert DirOk(img, nextb, root, slots, n - 1);
    }
  }

  /** The bitmap the server reads marks exactly the blocks from nextb on as free,
      the block map is the builder's, and no block is lost or shared. */
  lemma MountVolume(img: seq<Content>, nextb: nat, root: V.File, slots: seq<Entry>, files: seq<Source>, pages: nat)
    requires Finished(img, nextb, root, slots, files)
    ensures Mount(img, pages).Some?
    ensures var m := Mount(img, pages).value;
            V.Owned(m.vol) && V.NoLeak(m.vol, {}) && m.vol.nblocks == |img| && m.store == StoreOf(root, slots) &&
            (forall b: nat :: b in m.vol.free <==> nextb <= b < |img|) &&
            V.SameNames(VolOf(img, root, slots, nextb), m.vol) && m.vol.files == VolOf(img, root, slots, nextb).files
  {
    SlotsRead(img, nextb, root, slots, root.size / BY2BLK);
    assert slots[..root.size / BY2BLK * FILE2BLK] == slots && img[..|img|] == img;
    var v, w := VolOf(img, root, slots, nextb), Mount(img, pages).value.vol;
    assert forall b: nat :: BitSet(BitsOf(img[2]), b) <==> nextb <= b < |img|;
    assert forall b: nat :: b in v.free <==> b < |img| && FreeFrom(nextb, b);
    assert w.free == v.free;
    forall s ensures V.Named(w, s) == V.Named(v, s) {}
    SameNamesSound(v, w);
  }

  lemma BytesRead(img: seq<Content>, v: V.Vol, f: nat, data: seq<byte>)
    requires f in v.files && v.files[f].size == |data| && HasBlocks(img, v, f, data, BlocksFor(|data|))
    ensures FileBytes(img, v, f) == data
  {
    forall j: nat | j < |data| ensures ByteAt(img, v, f, j) == data[j] {
      var i := j / BY2BLK;
      assert i < BlocksFor(|data|);
      assert img[V.BlockOf(v, f, i)] == Bytes(Chunk(data, i));
    }
  }

  /** The server's file_map_block finds any block the files name. */
  lemma MapFinds(v: V.Vol, f: nat, i: nat)
    requires V.Owned(v) && f in v.files && V.BlockOf(v, f, i) != 0 && v.pages > 0
    ensures V.MapBlock(v, f, i, false).1 == V.Ok(V.BlockOf(v, f, i))
    ensures V.MapBlock(v, f, i, false).0.free == v.free
  {
    V.WalkKeeps(v, f, i, false);
    var ind := V.Named(v, V.Indirect(f));
    assert ind != 0 ==> V.InUse(v, ind);
    var w := V.Walk(v, f, i, false).0;
    assert V.BlockOf(w, f, i) == V.BlockOf(v, f, i);
  }

  ghost predicate Formatted(img: seq<Content>, files: seq<Source>) {
    3 <= |img| && img[1].Super? && img[1].root.size / BY2BLK <= V.NDIRECT &&
    Finished(img, EndOf(files), img[1].root, SlotsFrom(img, img[1].root, img[1].root.size / BY2BLK), files)
  }

  lemma FinishedSlots(img: seq<Content>, nextb: nat, root: V.File, slots: seq<Entry>, files: seq<Source>)
    requires Finished(img, nextb, root, slots, files) && nextb == EndOf(files)
    ensures Formatted(img, files)
  {
    SlotsRead(img, nextb, root, slots, root.size / BY2BLK);
    assert slots[..root.size / BY2BLK * FILE2BLK] == slots;
  }

  ghost predicate Distinct(files: seq<Source>) {
    forall j, k | 0 <= j < k < |files| :: files[j].name != files[k].name
  }

  predicate Plain(name: string) {
    name != "" && |name| < P.MAXNAMELEN && '/' !in name
  }

  /** A name without slashes is its own only component, with or without a slash
      in front. */
  lemma PlainPath(name: string)
    requires Plain(name)
    ensures P.Components(name) == [name] == P.Components("/" + name)
  {
    P.WordComponent(name, |name|);
    assert name[..|name|] == name && name[|name|..] == "";
    assert P.Components("") == [];
    assert ("/" + name)[1..] == name;
    P.SlashSkipped("/" + name);
  }

  /** Slot k of the root is File structure k + 1 of the store, and nothing else is
      in a directory. */
  lemma RootHas(root: V.File, slots: seq<Entry>, f: nat)
    requires |slots| == root.size / BY2BLK * FILE2BLK
    ensures P.In(StoreOf(root, slots), 0, f) <==> 1 <= f <= |slots|
    ensures P.Readable(StoreOf(root, slots), 0)
  {
    var n := root.size / BY2BLK;
    var st := StoreOf(root, slots);
    assert st[0].blocks == RootBlocks(n);
    if 1 <= f <= |slots| {
      var d, j := (f - 1) / FILE2BLK, (f - 1) % FILE2BLK;
      assert Ids(d)[j] == f;
      assert RootBlocks(n)[d] == P.Slots(Ids(d));
      assert RootBlocks(n)[d] in st[0].blocks;
    }
    if P.In(st, 0, f) {
      var b :| b in st[0].blocks && b.Slots? && f in b.ids;
      var d: nat :| d < n && b == RootBlocks(n)[d];
      var j: nat :| j < FILE2BLK && Ids(d)[j] == f;
      assert FILE2BLK * d + j < FILE2BLK * n;
    }
  }

  /** Looking a name up in the root finds the file of that name, or that there is
      none. */
  lemma NameFound(img: seq<Content>, nextb: nat, root: V.File, slots: seq<Entry>, files: seq<Source>, name: string)
    requires Built(img, nextb, root, slots, files) && Distinct(files) && name != ""
    ensures forall k | 0 <= k < |files| && files[k].name == name ::
              P.DirLookup(StoreOf(root, slots), 0, name) == P.Hit(k + 1)
    ensures (forall k | 0 <= k < |files| :: files[k].name != name) ==>
              P.DirLookup(StoreOf(root, slots), 0, name) == P.Miss
  {
    var st := StoreOf(root, slots);
    P.LookupSpec(st, 0, name);
    RootHas(root, slots, 0);
    forall f: nat | 1 <= f <= |slots| ensures P.In(st, 0, f) && P.NameOf(st, f) == NameAt(files, f - 1) {
      RootHas(root, slots, f);
      NameIs(img, nextb, root, slots, files, f - 1);
    }
    hide Built, StoreOf, P.In, P.DirLookup, P.NameOf, P.Readable;
    match P.DirLookup(st, 0, name)
    case Hit(f) =>
      RootHas(root, slots, f);
      assert NameAt(files, f - 1) == name;
    case Miss =>
      forall k | 0 <= k < |files| ensures files[k].name != name {
        var f := k + 1;
        assert 1 <= f <= |slots| by { BuiltFacts(img, nextb, root, slots, files); }
        assert P.In(st, 0, f);
      }
    case IoError =>
  }

  function NameAt(files: seq<Source>, k: nat): string {
    if k < |files| then files[k].name else ""
  }

  lemma NameIs(img: seq<Content>, nextb: nat, root: V.File, slots: seq<Entry>, files: seq<Source>, k: nat)
    requires Built(img, nextb, root, slots, files) && k < |slots|
    ensures P.NameOf(StoreOf(root, slots), k + 1) == NameAt(files, k)
  {
    hide Sound, HasBlocks;
    if k < |files| {
      assert FileOk(img, VolOf(img, root, slots, nextb), slots, files, k);
    } else {
      assert slots[k] == ZeroEntry();
    }
  }

  /** The server finds file k by its name, a regular file with its size and its bytes. */
  ghost predicate Delivered(img: seq<Content>, m: Mounted, k: nat, src: Source) {
    P.Resolve(m.store, 0, "/" + src.name) == P.Found(Some(0), k + 1) &&
    k + 1 in m.store && m.store[k + 1] == P.File(src.name, false, []) &&
    k + 1 in m.vol.files && m.vol.files[k + 1].size == |src.data| && FileBytes(img, m.vol, k + 1) == src.data &&
    HasBlocks(img, m.vol, k + 1, src.data, BlocksFor(|src.data|))
  }

  /** Format, then mount: every file comes back under its name, byte for byte, no
      other name is found, the bitmap marks exactly the blocks nothing was written
      to, and no block is shared or lost. */
  lemma FormatThenMount(img: seq<Content>, files: seq<Source>, pages: nat)
    requires Formatted(img, files) && Distinct(files) && forall s <- files :: Plain(s.name)
    ensures Mount(img, pages).Some?
    ensures var m := Mount(img, pages).value;
            V.Owned(m.vol) && V.NoLeak(m.vol, {}) &&
            (forall b: nat :: b in m.vol.free <==> EndOf(files) <= b < |img|) &&
            (forall k | 0 <= k < |files| :: Delivered(img, m, k, files[k])) &&
            (forall name | Plain(name) && (forall s <- files :: s.name != name) ::
             P.Resolve(m.store, 0, "/" + name) == P.Missing(0, name))
  {
    var nextb, root := EndOf(files), img[1].root;
    var slots := SlotsFrom(img, root, root.size / BY2BLK);
    MountVolume(img, nextb, root, slots, files, pages);
    var v, m := VolOf(img, root, slots, nextb), Mount(img, pages).value;
    V.SameNamesMap(v, m.vol);
    hide Built, Distinct, Plain, P.Resolve, VolOf, StoreOf, V.Owned, V.NoLeak, V.SameMap, V.SameNames, Delivered, Mount,
         SlotsFrom;
    forall k | 0 <= k < |files| ensures Delivered(img, m, k, files[k]) {
      assert files[k] in files;
      FileDelivered(img, nextb, root, slots, files, m, k);
    }
    forall name | Plain(name) && (forall s <- files :: s.name != name)
      ensures P.Resolve(m.store, 0, "/" + name) == P.Missing(0, name)
    {
      NameMissing(img, nextb, root, slots, files, name);
    }
  }

  lemma NameMissing(img: seq<Content>, nextb: nat, root: V.File, slots: seq<Entry>, files: seq<Source>, name: string)
    requires Built(img, nextb, root, slots, files) && Distinct(files) && Plain(name) &&
             forall s <- files :: s.name != name
    ensures P.Resolve(StoreOf(root, slots), 0, "/" + name) == P.Missing(0, name)
  {
    NameFound(img, nextb, root, slots, files, name);
    forall k | 0 <= k < |files| ensures files[k].name != name {
      assert files[k] in files;
    }
    ResolvesTo(StoreOf(root, slots), name);
  }

  lemma BlocksMoved(img: seq<Content>, v: V.Vol, w: V.Vol, f: nat, data: seq<byte>, n: nat)
    requires HasBlocks(img, v, f, data, n) && V.SameMap(v, w)
    ensures HasBlocks(img, w, f, data, n)
  {
    forall i: nat ensures V.BlockOf(w, f, i) == V.BlockOf(v, f, i) {}
  }

  lemma ResolvesTo(st: P.Store, name: string)
    requires Plain(name) && 0 in st && st[0].isDir
    ensures P.Resolve(st, 0, "/" + name) ==
      match P.DirLookup(st, 0, name)
      case Hit(f) => P.Found(Some(0), f)
      case Miss => P.Missing(0, name)
      case IoError => P.Fail(P.Io)
  {
    PlainPath(name);
    assert [name][1..] == [];
    assert P.Resolve(st, 0, "/" + name) == P.Fold(st, None, 0, [name]);
    match P.DirLookup(st, 0, name)
    case Hit(f) => assert P.Fold(st, Some(0), f, []) == P.Found(Some(0), f);
    case Miss =>
    case IoError =>
  }

  lemma FileDelivered(img: seq<Content>, nextb: nat, root: V.File, slots: seq<Entry>, files: seq<Source>, m: Mounted,
                      k: nat)
    requires Built(img, nextb, root, slots, files) && Distinct(files) && k < |files| && Plain(files[k].name)
    requires V.SameMap(VolOf(img, root, slots, nextb), m.vol) && m.vol.files == VolOf(img, root, slots, nextb).files
    requires m.store == StoreOf(root, slots)
    ensures Delivered(img, m, k, files[k])
  {
    var v := VolOf(img, root, slots, nextb);
    assert FileOk(img, v, slots, files, k);
    NameFound(img, nextb, root, slots, files, files[k].name);
    BlocksMoved(img, v, m.vol, k + 1, files[k].data, BlocksFor(|files[k].data|));
    BytesRead(img, m.vol, k + 1, files[k].data);
    ResolvesTo(m.store, files[k].name);
    assert m.vol.files[k + 1] == slots[k].file;
    assert m.store[k + 1] == P.File(slots[k].name, false, []);
    assert P.DirLookup(m.store, 0, files[k].name) == P.Hit(k + 1);
    hide Built, BlocksFor, HasBlocks, P.DirLookup, P.Resolve, FileBytes, StoreOf;
  }

  // ---------------------------------------------------------- the whole program

  /** No more files than the root can hold, and names that fit. */
  predicate InBounds(inputs: seq<Source>) {
    |inputs| <= V.NDIRECT * FILE2BLK && forall s <- inputs :: 0 < |Base(s.name)| < P.MAXNAMELEN
  }

  function Sources(inputs: seq<Source>): seq<Source> {
    seq(|inputs|, k requires 0 <= k < |inputs| => Source(Base(inputs[k].name), inputs[k].data))
  }

  /** What mounting needs is on the disk from block 1 on. */
  lemma FormattedDisk(img: seq<Content>, disk: seq<Content>, nextb: nat, root: V.File, slots: seq<Entry>,
                      files: seq<Source>)
    requires Finished(img, nextb, root, slots, files) && nextb == EndOf(files)
    requires |disk| == |img| && forall b | 0 < b < |img| :: disk[b] == img[b]
    ensures Formatted(disk, files)
  {
    OthersStay(img, nextb, root, slots, files, disk);
    FinishedSlots(disk, nextb, root, slots, files);
  }

  /** main: it finishes exactly when the disk has a good size, the inputs are within
      bounds, the files fit and none but the last fills its blocks to the end. Then
      flushdisk has left the whole image on the disk. No more than 12 of the 16
      buffers are ever busy. */
  method FsFormat(blocks: seq<Content>, size: nat, inputs: seq<Source>)
      returns (r: Outcome, disk: seq<Content>, ghost peak: nat)
    requires size / BY2BLK == |blocks|
    ensures r.Done? <==> 3 * BY2BLK <= size <= 4 * 1024 * 1024 && InBounds(inputs) &&
                         Completes(Sources(inputs), |blocks|)
    ensures r.Overrun? ==> !InBounds(inputs)
    ensures r.Done? ==> |disk| == |blocks| && Formatted(disk, Sources(inputs)) && peak <= 12
  {
    var b := new Builder();
    var ready := b.OpenDisk(blocks, size);
    if !ready {
      return Exit, [], 0;
    }
    hide Built, Completes, Stuck, EndOf, Base, Leaked, Tail, D.Disk.Valid, D.Tied, Ones, InBounds;
    r := b.WriteFiles(inputs);
    if !r.Done? {
      return r, [], 0;
    }
    b.FinishFs();
    ghost var img := b.disk.img;
    b.disk.Flush();
    FormattedDisk(img, b.disk.cache.disk, b.nextb, b.root, b.slots, b.files);
    return Done, b.disk.cache.disk, b.disk.peak;
  }
}
