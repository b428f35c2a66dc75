/** The image builder's disk as its code uses it: getblk, buffers filled in place,
    putblk and flushdisk over the block cache, and the flat image they show. */
module BuilderDisk {
  import opened Wrappers
  import opened FsImage
  import L = LruCache

  function Cleared(img: seq<Content>, bno: nat, clr: bool): seq<Content> {
    L.FlatGet(img, bno, clr, Zero)
  }

  lemma ClearedOn(img: seq<Content>, bno: nat)
    ensures Cleared(img, bno, true) == if bno < |img| then img[bno := Zero] else img
  {
  }

  lemma ClearedOff(img: seq<Content>, bno: nat)
    ensures Cleared(img, bno, false) == img
  {
  }

  /** Buffer i has been got for block b. */
  predicate Got(s: L.State<Content>, i: nat, b: nat) {
    i < |s.cache| && s.cache[i].busy && s.cache[i].bno == b
  }

  ghost predicate AllGot(s: L.State<Content>, held: map<nat, nat>) {
    forall b <- held :: Got(s, held[b], b)
  }

  /** The cache shows img, and its busy buffers are those in `held`. */
  ghost predicate Tied(s: L.State<Content>, img: seq<Content>, held: map<nat, nat>) {
    L.Inv(s) && L.Shows(s, img) && L.Busy(s) == held.Keys && 0 !in held && AllGot(s, held)
  }

  lemma SameSize(s: L.State<Content>, img: seq<Content>, held: map<nat, nat>)
    requires Tied(s, img, held)
    ensures |s.cache| == L.NCACHE && |img| == |s.disk| && |L.Busy(s)| == |held|
  {
    assert |held.Keys| == |held|;
  }

  /** getblk, on the whole: when it exits, and what it shows and holds otherwise. */
  lemma GetTied(s: L.State<Content>, img: seq<Content>, held: map<nat, nat>, bno: nat, clr: bool)
    requires Tied(s, img, held) && 0 < bno
    ensures |s.cache| == L.NCACHE
    ensures L.Get(s, bno, clr, Zero).Some? <==> bno < |img| && bno !in held && |held| < L.NCACHE
    ensures L.Get(s, bno, clr, Zero).Some? ==>
      var (t, i) := L.Get(s, bno, clr, Zero).value; Tied(t, Cleared(img, bno, clr), held[bno := i])
  {
    SameSize(s, img, held);
    hide L.Inv, L.Shows, L.Busy, L.Get, L.FlatGet, AllGot;
    L.GetWhen(s, bno, clr, Zero);
    if L.Get(s, bno, clr, Zero).Some? {
      L.GetInv(s, bno, clr, Zero);
      L.GetShows(s, bno, clr, Zero, img);
      var (t, i) := L.Get(s, bno, clr, Zero).value;
      GotMore(s, t, i, held, bno);
    }
  }

  lemma GotMore(s: L.State<Content>, t: L.State<Content>, i: nat, held: map<nat, nat>, bno: nat)
    requires |s.cache| == |t.cache| && i < |s.cache| && !s.cache[i].busy && Got(t, i, bno)
    requires forall k | 0 <= k < |s.cache| && k != i :: t.cache[k] == s.cache[k]
    requires AllGot(s, held)
    ensures AllGot(t, held[bno := i]) && held[bno := i].Keys == held.Keys + {bno}
  {
    forall b <- held ensures held[b] != i && Got(t, held[b], b) {
      assert Got(s, held[b], b);
    }
  }

  lemma EditTied(s: L.State<Content>, img: seq<Content>, held: map<nat, nat>, bno: nat, x: Content)
    requires Tied(s, img, held) && bno in held
    ensures bno < |img| && held[bno] < |s.cache| && s.cache[held[bno]].buf == img[bno]
    ensures Tied(L.Edit(s, held[bno], x), img[bno := x], held)
  {
    var i := held[bno];
    assert Got(s, i, bno);
    L.BufferShows(s, i, img);
    L.EditShows(s, i, x, img);
    L.EditKeepsBusy(s, i, x);
    var t := L.Edit(s, i, x);
    hide L.Inv, L.Shows, L.Busy;
    forall b <- held ensures Got(t, held[b], b) {
      assert Got(s, held[b], b);
    }
  }

  lemma PutTied(s: L.State<Content>, img: seq<Content>, held: map<nat, nat>, bno: nat)
    requires Tied(s, img, held) && bno in held
    ensures held[bno] < |s.cache| && Tied(L.Put(s, held[bno]), img, held - {bno})
  {
    var i := held[bno];
    assert Got(s, i, bno);
    L.PutShows(s, i, img);
    L.PutFrees(s, i);
    var t := L.Put(s, i);
    hide L.Inv, L.Shows, L.Busy;
    forall b <- held - {bno} ensures Got(t, held[b], b) {
      assert Got(s, held[b], b);
    }
  }

  /** `img` is the image as the cache shows it, `held` the buffer got for each block
      whose buffer is busy, and `peak` the most there have been at a time. */
  class Disk {
    const cache: L.Buffers<Content>
    ghost var img: seq<Content>
    ghost var held: map<nat, nat>
    ghost var peak: nat

    ghost predicate Valid() reads this, cache {
      cache.zero == Zero && Tied(cache.View(), img, held) && |held| <= peak
    }

    constructor (disk: seq<Content>)
      requires |disk| > 0
      ensures Valid() && fresh(cache) && img == disk && held == map[] && peak == 0
    {
      cache := new L.Buffers(Zero, disk);
      img, held, peak := disk, map[], 0;
      new;
      assert L.Busy(cache.View()) == {};
    }

    /** getblk exits exactly if the block is not on the disk, its buffer is busy, or
        all buffers are. */
    method Get(bno: nat, clr: bool) returns (i: Option<nat>)
      requires Valid() && 0 < bno
      modifies this, cache
      ensures |img| == |old(img)|
      ensures i.Some? <==> bno < |img| && bno !in old(held) && |old(held)| < L.NCACHE
      ensures i.Some? ==> Valid() && held == old(held)[bno := i.value] && img == Cleared(old(img), bno, clr)
      ensures peak == if i.Some? && |held| > old(peak) then |held| else old(peak)
    {
      GetTied(cache.View(), img, held, bno, clr);
      assert L.Inv(cache.View());
      hide Tied, L.Inv, L.Get;
      i := cache.Getblk(bno, clr);
      if i.Some? {
        img, held := Cleared(img, bno, clr), held[bno := i.value];
        peak := if |held| > peak then |held| else peak;
      }
    }

    method Read(i: nat, ghost bno: nat) returns (x: Content)
      requires Valid() && bno in held && held[bno] == i
      ensures bno < |img| && x == img[bno]
    {
      EditTied(cache.View(), img, held, bno, Zero);
      x := cache.cache[i].buf;
    }

    /** A store into a buffer. */
    method Fill(i: nat, ghost bno: nat, x: Content)
      requires Valid() && bno in held && held[bno] == i
      modifies this`img, cache
      ensures Valid() && bno < |old(img)| && img == old(img)[bno := x]
    {
      EditTied(cache.View(), img, held, bno, x);
      hide Tied;
      cache.Fill(i, x);
      img := img[bno := x];
    }

    /** putblk */
    method Release(i: nat, ghost bno: nat)
      requires Valid() && bno in held && held[bno] == i
      modifies this`held, cache
      ensures Valid() && held == old(held) - {bno}
    {
      PutTied(cache.View(), img, held, bno);
      Fewer(held, bno);
      hide Tied;
      cache.Putblk(i);
      held := held - {bno};
    }

    /** flushdisk leaves the image on the disk, block 0 excepted. */
    method Flush()
      requires Valid()
      modifies cache
      ensures |cache.disk| == |img| && forall b | 0 < b < |img| :: cache.disk[b] == img[b]
    {
      L.FlushFromShows(cache.View(), 0, img);
      cache.Flushdisk();
    }
  }

  /** What a block that is got and put back leaves. */
  lemma Back(m: map<nat, nat>, b: nat, i: nat)
    requires b !in m
    ensures m[b := i] - {b} == m
  {
  }

  lemma SizeOf(d: Disk)
    requires d.Valid()
    ensures |d.cache.disk| == |d.img|
  {
  }

  lemma Fewer(m: map<nat, nat>, b: nat)
    requires b in m
    ensures |m - {b}| < |m| && (m - {b}).Keys == m.Keys - {b}
  {
    assert (m - {b}).Keys == m.Keys - {b};
    assert |m.Keys| == |m| && |(m - {b}).Keys| == |m - {b}|;
  }
}
