/** The block-map code of the file server as it runs: 32-bit bitmap words and
    File structures updated in place. Each method is proved to do to the volume
    what the function of the same purpose in `Volume` says. */
module FileServer {
  import opened Volume
  import S = BlockSupply

  /** A 32-bit word of the bitmap, lowest bit first. */
  type Word = w: seq<bool> | |w| == 32 witness seq(32, _ => false)

  /** A set bit marks a free block. */
  predicate BitSet(words: seq<Word>, b: nat) {
    b / 32 < |words| && words[b / 32][b % 32]
  }

  /** words[b/32] with bit b%32 set or cleared. */
  function PutBit(words: seq<Word>, b: nat, bit: bool): seq<Word>
    requires b / 32 < |words|
  {
    words[b / 32 := words[b / 32][b % 32 := bit]]
  }

  ghost function FreeBits(words: seq<Word>, n: nat): set<nat> {
    set b: nat | b < n && BitSet(words, b)
  }

  /** Writing one bit of one word changes one block's state and no other's. */
  lemma PutBitFrees(words: seq<Word>, n: nat, b: nat, bit: bool)
    requires b < n && b / 32 < |words|
    ensures FreeBits(PutBit(words, b, bit), n) == if bit then FreeBits(words, n) + {b} else FreeBits(words, n) - {b}
  {
    forall k: nat ensures BitSet(PutBit(words, b, bit), k) <==> if k == b then bit else BitSet(words, k) {
      if k / 32 == b / 32 && k % 32 == b % 32 {
        assert k == b;
      }
    }
  }

  /** Every block of the disk has contents: an invariant of the model. */
  ghost predicate Backed(v: Vol) {
    forall b | 0 <= b < v.nblocks :: b in v.blk
  }

  /** The block numbers of file f lie on the disk; free_block does not check. */
  ghost predicate InRange(v: Vol, f: nat) {
    Backed(v) && f in v.files && v.files[f].indirect < v.nblocks && forall j: nat :: BlockOf(v, f, j) < v.nblocks
  }

  class Server {
    const nblocks: nat
    const bitmap: array<Word>
    var mapped: set<nat>
    var pages: nat
    var blk: map<nat, Table>
    var files: map<nat, File>

    ghost predicate Valid()
      reads this, bitmap
    {
      nblocks >= 2 && nblocks <= 32 * bitmap.Length
    }

    ghost function View(): Vol
      reads this, bitmap
    {
      Vol(nblocks, FreeBits(bitmap[..], nblocks), mapped, pages, blk, files)
    }

    method BlockIsFree(b: nat) returns (r: bool)
      requires Valid()
      ensures r <==> b in View().free
    {
      r := b < nblocks && bitmap[b / 32][b % 32];
    }

    method FreeBlock(b: nat)
      requires Valid() && 0 < b < nblocks
      modifies bitmap
      ensures View() == old(View()).(free := old(View()).free + {b})
    {
      PutBitFrees(bitmap[..], nblocks, b, true);
      bitmap[b / 32] := bitmap[b / 32][b % 32 := true];
      assert bitmap[..] == PutBit(old(bitmap[..]), b, true);
    }

    method AllocBlockNum() returns (r: Result<nat>)
      requires Valid()
      modifies bitmap
      ensures var b := Lowest(old(View()).free, 2, nblocks);
              if b < nblocks then r == Ok(b) && View() == old(View()).(free := old(View()).free - {b})
              else r == Err(NoDisk) && View() == old(View())
    {
      var b := 2;
      while b < nblocks
        invariant 2 <= b <= nblocks
        invariant bitmap[..] == old(bitmap[..])
        invariant forall k | 2 <= k < b :: k !in View().free
      {
        if bitmap[b / 32][b % 32] {
          LowestIs(View().free, 2, nblocks, b);
          PutBitFrees(bitmap[..], nblocks, b, false);
          bitmap[b / 32] := bitmap[b / 32][b % 32 := false];
          assert bitmap[..] == PutBit(old(bitmap[..]), b, false);
          return Ok(b);
        }
        b := b + 1;
      }
      LowestIs(View().free, 2, nblocks, b);
      r := Err(NoDisk);
    }

    method AllocBlock() returns (r: Result<nat>)
      requires Valid()
      modifies this, bitmap
      ensures (View(), r) == Volume.AllocBlock(old(View()))
      ensures S.Allocates(old(View()), View(), r)
    {
      S.AllocExact(View());
      hide S.Allocates;
      r := AllocBlockNum();
      if r.Err? {
        return;
      }
      var b := r.value;
      if b !in mapped {
        if pages == 0 {
          FreeBlock(b);
          assert View().free == old(View()).free;
          return Err(NoMem);
        }
        mapped, pages, blk := mapped + {b}, pages - 1, blk[b := ZeroTable()];
      }
    }

    method ReadBlock(b: nat) returns (r: Result<()>)
      requires Valid()
      modifies this
      ensures (View(), r) == Volume.ReadBlock(old(View()), b)
      ensures S.Reads(old(View()), b, View(), r)
    {
      var isFree := BlockIsFree(b);
      if b >= nblocks || isFree {
        return Panic;
      }
      if b !in mapped {
        if pages == 0 {
          return Err(NoMem);
        }
        mapped, pages := mapped + {b}, pages - 1;
      }
      r := Ok(());
    }

    method FileBlockWalk(f: nat, i: nat, alloc: bool) returns (r: Result<()>)
      requires Valid() && f in files
      modifies this, bitmap
      ensures (View(), r) == Walk(old(View()), f, i, alloc)
    {
      if i < NDIRECT {
        return Ok(());
      } else if i < NINDIRECT {
        if files[f].indirect == 0 {
          if !alloc {
            return Err(NotFound);
          }
          var got := AllocBlock();
          if got.Err? {
            return Err(got.error);
          }
          files := files[f := files[f].(indirect := got.value)];
        }
        r := ReadBlock(files[f].indirect);
      } else {
        return Err(Inval);
      }
    }

    /** file_map_block. Ownership survives unless a stale block is taken to be an
        indirect block, and if no block was lost it does not survive that. */
    method FileMapBlock(f: nat, i: nat, alloc: bool) returns (r: Result<nat>)
      requires Valid() && f in files && Backed(View())
      modifies this, bitmap
      ensures (View(), r) == MapBlock(old(View()), f, i, alloc)
      ensures Owned(old(View())) && !TakesStale(old(View()), f, i, alloc) ==>
        Owned(View()) && !r.Panic? && SameMapBut(old(View()), View(), f, i)
      ensures Owned(old(View())) && NoLeak(old(View()), {}) ==>
        (Owned(View()) <==> !TakesStale(old(View()), f, i, alloc))
      ensures Owned(old(View())) && alloc ==> (r.Ok? <==> S.CanMap(old(View()), f, i))
    {
      hide Owned, NoLeak, TakesStale, SameMapBut, SetBlock, Lowest, FreeBits, Walk, Volume.AllocBlock, Backed, BlockOf;
      hide S.CanMap, S.Allocates, S.Reads;
      if Owned(View()) {
        S.MapSucceeds(View(), f, i);
      }
      MapFacts(View(), f, i, alloc);
      WalkReaches(View(), f, i, alloc);
      var found := FileBlockWalk(f, i, alloc);
      if found.Panic? {
        return Panic;
      }
      if found.Err? {
        return Err(found.error);
      }
      var b := BlockOf(Vol(nblocks, {}, mapped, pages, blk, files), f, i);
      BlockOfSame(Vol(nblocks, {}, mapped, pages, blk, files), View(), f, i);
      if b == 0 {
        if !alloc {
          return Err(NotFound);
        }
        AllocReaches(View(), f, i);
        r := AllocBlock();
        if !r.Ok? {
          return;
        }
        StoreBlock(f, i, r.value);
        b := r.value;
      }
      r := Ok(b);
    }

    /** *ptr = b, for the pointer file_block_walk found. */
    method StoreBlock(f: nat, i: nat, b: nat)
      requires f in files && i < NINDIRECT && (i >= NDIRECT ==> files[f].indirect in blk)
      modifies this
      ensures View() == SetBlock(old(View()), f, i, b)
    {
      if i < NDIRECT {
        files := files[f := files[f].(direct := files[f].direct[i := b])];
      } else {
        blk := blk[files[f].indirect := blk[files[f].indirect][i := b]];
      }
    }

    method FileClearBlock(f: nat, i: nat) returns (r: Result<()>)
      requires Valid() && f in files && Backed(View()) && BlockOf(View(), f, i) < nblocks
      modifies this, bitmap
      ensures (View(), r) == ClearBlock(old(View()), f, i)
      ensures f in files
    {
      r := FileBlockWalk(f, i, false);
      if !r.Ok? {
        return;
      }
      var b := BlockOf(Vol(nblocks, {}, mapped, pages, blk, files), f, i);
      assert b == BlockOf(View(), f, i);
      if b != 0 {
        FreeBlock(b);
        StoreBlock(f, i, 0);
      }
    }

    /** The loop of file_truncate. */
    method ClearBlocks(f: nat, newn: nat, oldn: nat) returns (ok: bool)
      requires Valid() && InRange(View(), f)
      modifies this, bitmap
      ensures ok <==> !ClearPanics(old(View()), f, newn, oldn)
      ensures ok ==> View() == ClearFrom(old(View()), f, newn, oldn)
      ensures ok ==> InRange(View(), f) && files[f].indirect == old(files)[f].indirect
    {
      hide BlockOf, ClearBlock, FreeBits;
      var bno := newn;
      while bno < oldn
        invariant Valid() && InRange(View(), f)
        invariant ClearFrom(View(), f, bno, oldn) == ClearFrom(old(View()), f, newn, oldn)
        invariant ClearPanics(View(), f, bno, oldn) == ClearPanics(old(View()), f, newn, oldn)
        invariant files[f].indirect == old(files)[f].indirect
      {
        ClearStaysInRange(View(), f, bno);
        var c := FileClearBlock(f, bno);
        if c.Panic? {
          return false;
        }
        bno := bno + 1;
      }
      return true;
    }

    /** The pointers lie on the disk; after a panic there is no state. */
    method FileTruncate(f: nat, newsize: nat) returns (r: Result<()>)
      requires Valid() && InRange(View(), f)
      modifies this, bitmap
      ensures r == Truncate(old(View()), f, newsize).1
      ensures !r.Panic? ==> View() == Truncate(old(View()), f, newsize).0
    {
      hide BlockOf, ClearFrom, ClearPanics, FreeBits;
      var oldn, newn := BlockCount(files[f].size), BlockCount(newsize);
      SizeInRange(View(), f, newsize);
      files := files[f := files[f].(size := newsize)];
      assert View() == SetSize(old(View()), f, newsize);
      var ok := ClearBlocks(f, newn, oldn);
      if !ok {
        return Panic;
      }
      if oldn > NDIRECT && newn <= NDIRECT {
        if files[f].indirect == 0 {
          return Panic;
        }
        FreeBlock(files[f].indirect);
      }
      r := Ok(());
    }
  }

  lemma MapFacts(v: Vol, f: nat, i: nat, alloc: bool)
    requires v.nblocks >= 2 && f in v.files
    ensures var (w, r) := MapBlock(v, f, i, alloc);
            && (Owned(v) && !TakesStale(v, f, i, alloc) ==> Owned(w) && !r.Panic? && SameMapBut(v, w, f, i))
            && (Owned(v) && NoLeak(v, {}) ==> (Owned(w) <==> !TakesStale(v, f, i, alloc)))
  {
    if Owned(v) && !TakesStale(v, f, i, alloc) {
      MapBlockKeeps(v, f, i, alloc);
    }
    if Owned(v) && NoLeak(v, {}) {
      MapBlockExact(v, f, i, alloc);
    }
  }

  lemma BlockOfSame(v: Vol, w: Vol, f: nat, i: nat)
    requires v.files == w.files && v.blk == w.blk
    ensures BlockOf(v, f, i) == BlockOf(w, f, i)
  {
  }

  /** The pointer can be stored to after the walk, and after an allocation. */
  ghost predicate CanStore(v: Vol, f: nat, i: nat) {
    f in v.files && i < NINDIRECT && (i >= NDIRECT ==> v.files[f].indirect in v.blk)
  }

  lemma WalkReaches(v: Vol, f: nat, i: nat, alloc: bool)
    requires v.nblocks >= 2 && f in v.files && Backed(v)
    ensures var (w, r) := Walk(v, f, i, alloc); r.Ok? ==> CanStore(w, f, i)
  {
  }

  lemma AllocReaches(v: Vol, f: nat, i: nat)
    requires v.nblocks >= 2 && CanStore(v, f, i)
    ensures CanStore(Volume.AllocBlock(v).0, f, i)
  {
  }

  lemma SizeInRange(v: Vol, f: nat, size: nat)
    requires InRange(v, f)
    ensures InRange(SetSize(v, f, size), f)
  {
    forall j: nat ensures BlockOf(SetSize(v, f, size), f, j) == BlockOf(v, f, j) {}
  }

  lemma ClearStaysInRange(v: Vol, f: nat, i: nat)
    requires v.nblocks >= 2 && InRange(v, f)
    ensures var (w, r) := ClearBlock(v, f, i); InRange(w, f) && w.files[f].indirect == v.files[f].indirect
  {
    var w := ClearBlock(v, f, i).0;
    var u := Walk(v, f, i, false).0;
    assert u == v.(mapped := u.mapped, pages := u.pages);
    forall j: nat ensures BlockOf(w, f, j) < w.nblocks {
      assert BlockOf(w, f, j) == 0 || BlockOf(w, f, j) == BlockOf(v, f, j);
    }
  }

  lemma OwnedInRange(v: Vol, f: nat)
    requires Owned(v) && f in v.files
    ensures InRange(v, f)
  {
    assert Named(v, Indirect(f)) == v.files[f].indirect;
    forall j: nat ensures BlockOf(v, f, j) < v.nblocks {
      assert Named(v, SlotFor(f, j)) == BlockOf(v, f, j);
    }
  }

  lemma {:induction false} LowestIs(free: set<nat>, from: nat, n: nat, b: nat)
    requires from <= b <= n && (b < n ==> b in free) && forall k | from <= k < b :: k !in free
    ensures Lowest(free, from, n) == b
    decreases b - from
  {
    if from < b {
      LowestIs(free, from + 1, n, b);
    }
  }
}
