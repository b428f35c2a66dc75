/** The file system image: what the image builder writes and the server reads.
    Blocks hold typed contents. While a file is written its File structure is
    kept apart, in `cur`, and goes into its directory block at the end. */
module FsImage {
  import opened Wrappers
  import V = Volume
  import P = Paths

  const BY2BLK: nat := 4096
  const FILE2BLK: nat := 16
  const BIT2BLK: nat := 32768
  const FS_MAGIC: nat := 0x6828_6097

  /** A File structure; the builder only makes regular files in the root. */
  datatype Entry = Entry(name: string, file: V.File)

  datatype Content =
    | Zero
    | Bytes(data: seq<byte>)
    | Words(words: V.Table)
    | Dir(entries: seq<Entry>)
    | Bits(bits: seq<bool>)
    | Super(magic: nat, nblocks: nat, root: V.File)

  function ZeroEntry(): Entry {
    Entry("", V.ZeroFile())
  }

  function ZeroDir(): seq<Entry> {
    seq(FILE2BLK, _ => ZeroEntry())
  }

  function AsWords(c: Content): V.Table {
    if c.Words? then c.words else V.ZeroTable()
  }

  function AsDir(c: Content): (d: seq<Entry>)
    ensures |d| == FILE2BLK
  {
    if c.Dir? && |c.entries| == FILE2BLK then c.entries else ZeroDir()
  }

  /** Block i of a file's bytes, padded with zeros. */
  function Chunk(data: seq<byte>, i: nat): (c: seq<byte>)
    requires i * BY2BLK <= |data|
    ensures |c| == BY2BLK
  {
    if (i + 1) * BY2BLK <= |data| then data[i * BY2BLK..(i + 1) * BY2BLK]
    else data[i * BY2BLK..] + seq((i + 1) * BY2BLK - |data|, _ => 0)
  }

  /** The volume an image shows: file 0 is the root, file k + 1 is slot k of the
      root directory, and blocks from nextb on are free. */
  function VolOf(img: seq<Content>, root: V.File, slots: seq<Entry>, nextb: nat): V.Vol {
    V.Vol(|img|, set b: nat | b < |img| && FreeFrom(nextb, b), {}, 0,
          map b: nat | b < |img| :: AsWords(img[b]),
          map g: nat | g <= |slots| :: FileNo(root, slots, g))
  }

  predicate FreeFrom(nextb: nat, b: nat) {
    nextb <= b
  }

  function FileNo(root: V.File, slots: seq<Entry>, g: nat): V.File
    requires g <= |slots|
  {
    if g == 0 then root else slots[g - 1].file
  }

  // ------------------------------------------------ the builder's three moves

  function Taken(v: V.Vol, b: nat): V.Vol {
    V.Vol(v.nblocks, v.free - {b}, v.mapped, v.pages, v.blk[b := V.ZeroTable()], v.files)
  }

  /** Taking a free block names nothing. */
  lemma TakeKeeps(v: V.Vol, b: nat)
    requires V.Owned(v) && b in v.free
    ensures V.Owned(Taken(v, b)) && V.SameNames(v, Taken(v, b))
    ensures V.Unnamed(Taken(v, b), b) && V.InUse(Taken(v, b), b)
  {
    var w := Taken(v, b);
    forall s ensures V.Named(w, s) == V.Named(v, s) && V.Named(w, s) != b {
      if !s.Indirect? {
        assert V.Named(v, V.Indirect(s.f)) != 0 ==> V.InUse(v, V.Named(v, V.Indirect(s.f)));
      }
      assert V.Named(v, s) != 0 ==> V.InUse(v, V.Named(v, s));
    }
  }

  ghost predicate Sound(v: V.Vol) {
    V.Owned(v) && V.NoLeak(v, {})
  }

  /** A free block becomes block i of file f. */
  lemma AddBlock(v: V.Vol, f: nat, i: nat, b: nat)
    requires Sound(v) && V.Reachable(v, f, i) && V.BlockOf(v, f, i) == 0 && b in v.free
    ensures var w := V.SetBlock(Taken(v, b), f, i, b);
            Sound(w) && V.NamesBut(v, w, V.SlotFor(f, i), b)
  {
    TakeKeeps(v, b);
    var u := Taken(v, b);
    V.GiveBlock(u, f, i, b);
    var w := V.SetBlock(u, f, i, b);
    assert V.NamesBut(v, w, V.SlotFor(f, i), b);
    assert V.Named(v, V.SlotFor(f, i)) == 0 && V.Named(w, V.SlotFor(f, i)) == b;
    V.NoLeakStep(v, w, V.SlotFor(f, i));
  }

  /** A free block becomes the indirect block of file f. */
  lemma AddIndirect(v: V.Vol, f: nat, b: nat)
    requires Sound(v) && f in v.files && v.files[f].indirect == 0 && b in v.free
    ensures var w := V.SetIndirect(Taken(v, b), f, b);
            Sound(w) && V.NamesBut(v, w, V.Indirect(f), b)
  {
    TakeKeeps(v, b);
    var u := Taken(v, b);
    V.GiveIndirect(u, f, b);
    var w := V.SetIndirect(u, f, b);
    assert V.NamesBut(v, w, V.Indirect(f), b);
    assert V.Named(v, V.Indirect(f)) == 0 && V.Named(w, V.Indirect(f)) == b;
    V.NoLeakStep(v, w, V.Indirect(f));
  }

  lemma NextBlockView(img: seq<Content>, root: V.File, slots: seq<Entry>, nextb: nat, c: Content)
    requires nextb < |img|
    ensures var v := VolOf(img, root, slots, nextb);
            VolOf(img[nextb := c], root, slots, nextb + 1) ==
            V.Vol(v.nblocks, v.free - {nextb}, v.mapped, v.pages, v.blk[nextb := AsWords(c)], v.files)
  {
    hide AsWords;
  }

  lemma WordsView(img: seq<Content>, root: V.File, slots: seq<Entry>, nextb: nat, b: nat, t: V.Table)
    requires b < |img|
    ensures var v := VolOf(img, root, slots, nextb);
            VolOf(img[b := Words(t)], root, slots, nextb) == v.(blk := v.blk[b := t])
  {
  }

  lemma EntryView(img: seq<Content>, root: V.File, slots: seq<Entry>, nextb: nat, k: nat, e: Entry)
    requires k < |slots|
    ensures var v := VolOf(img, root, slots, nextb);
            VolOf(img, root, slots[k := e], nextb) == v.(files := v.files[k + 1 := e.file])
  {
    hide AsWords;
  }

  // ------------------------------------------------ the moves on the image

  /** The current file is slot k, its structure cur still in a busy buffer. */
  function Cur(img: seq<Content>, root: V.File, slots: seq<Entry>, k: nat, cur: Entry, nextb: nat): V.Vol
    requires k < |slots|
  {
    VolOf(img, root, slots[k := cur], nextb)
  }

  lemma CurEntry(img: seq<Content>, root: V.File, slots: seq<Entry>, k: nat, cur: Entry, nextb: nat)
    requires k < |slots|
    ensures var v := Cur(img, root, slots, k, cur, nextb);
            k + 1 in v.files && v.files[k + 1] == cur.file && v.nblocks == |img| && v.mapped == {} && v.pages == 0
    ensures forall b: nat | b < |img| ::
              b in Cur(img, root, slots, k, cur, nextb).blk &&
              Cur(img, root, slots, k, cur, nextb).blk[b] == AsWords(img[b])
  {
    hide AsWords;
  }

  function SetDirect(e: Entry, i: nat, b: nat): Entry
    requires i < V.NDIRECT
  {
    e.(file := e.file.(direct := e.file.direct[i := b]))
  }

  function SetSizeOf(e: Entry, size: nat): Entry {
    e.(file := e.file.(size := size))
  }

  /** A data block found through f_direct. */
  lemma StoreDirect(img: seq<Content>, root: V.File, slots: seq<Entry>, k: nat, cur: Entry, nextb: nat, i: nat,
                    data: seq<byte>)
    requires k < |slots| && i < V.NDIRECT && nextb < |img| && cur.file.direct[i] == 0
    requires Sound(Cur(img, root, slots, k, cur, nextb))
    ensures var v, w := Cur(img, root, slots, k, cur, nextb),
                        Cur(img[nextb := Bytes(data)], root, slots, k, SetDirect(cur, i, nextb), nextb + 1);
            Sound(w) && V.NamesBut(v, w, V.SlotFor(k + 1, i), nextb)
  {
    var v := Cur(img, root, slots, k, cur, nextb);
    var w := Cur(img[nextb := Bytes(data)], root, slots, k, SetDirect(cur, i, nextb), nextb + 1);
    AddBlock(v, k + 1, i, nextb);
    assert w == V.SetBlock(Taken(v, nextb), k + 1, i, nextb);
  }

  /** A data block found through the indirect block the file has already. */
  lemma StoreIndirect(img: seq<Content>, root: V.File, slots: seq<Entry>, k: nat, cur: Entry, nextb: nat, i: nat,
                      data: seq<byte>)
    requires k < |slots| && V.NDIRECT <= i < V.NINDIRECT && nextb < |img|
    requires 0 < cur.file.indirect < nextb && AsWords(img[cur.file.indirect])[i] == 0
    requires Sound(Cur(img, root, slots, k, cur, nextb))
    ensures var ind := cur.file.indirect;
            var v, w := Cur(img, root, slots, k, cur, nextb),
                        Cur(img[nextb := Bytes(data)][ind := Words(AsWords(img[ind])[i := nextb])], root, slots, k, cur,
                            nextb + 1);
            Sound(w) && V.NamesBut(v, w, V.SlotFor(k + 1, i), nextb)
  {
    var ind := cur.file.indirect;
    var v := Cur(img, root, slots, k, cur, nextb);
    var w := Cur(img[nextb := Bytes(data)][ind := Words(AsWords(img[ind])[i := nextb])], root, slots, k, cur,
                 nextb + 1);
    AddBlock(v, k + 1, i, nextb);
    CurEntry(img, root, slots, k, cur, nextb);
    NextBlockView(img, root, slots[k := cur], nextb, Bytes(data));
    WordsView(img[nextb := Bytes(data)], root, slots[k := cur], nextb + 1, ind, AsWords(img[ind])[i := nextb]);
    hide Sound, VolOf, V.NamesBut;
    assert w == V.SetBlock(Taken(v, nextb), k + 1, i, nextb);
  }

  /** The first block beyond the direct ones: the data block is taken first, the
      indirect block right after it. */
  lemma StoreFirstIndirect(img: seq<Content>, root: V.File, slots: seq<Entry>, k: nat, cur: Entry, nextb: nat, i: nat,
                           data: seq<byte>)
    requires k < |slots| && V.NDIRECT <= i < V.NINDIRECT && nextb + 1 < |img| && cur.file.indirect == 0
    requires Sound(Cur(img, root, slots, k, cur, nextb))
    ensures var v, w := Cur(img, root, slots, k, cur, nextb),
                        Cur(img[nextb := Bytes(data)][nextb + 1 := Words(V.ZeroTable()[i := nextb])], root, slots, k,
                            SetIndirectOf(cur, nextb + 1), nextb + 2);
            Sound(w) &&
            (forall s :: V.Named(w, s) ==
              (if s == V.Indirect(k + 1) then nextb + 1 else if s == V.Entry(k + 1, i) then nextb else V.Named(v, s)))
  {
    var v := Cur(img, root, slots, k, cur, nextb);
    AddIndirect(v, k + 1, nextb + 1);
    var u := V.SetIndirect(Taken(v, nextb + 1), k + 1, nextb + 1);
    assert u.blk[nextb + 1] == V.ZeroTable();
    AddBlock(u, k + 1, i, nextb);
    FirstIndirectView(img, root, slots, k, cur, nextb, i, data);
  }

  function SetIndirectOf(e: Entry, ind: nat): Entry {
    e.(file := e.file.(indirect := ind))
  }

  /** Taking b as indirect block and then a as the block it names at i. */
  lemma TwoTaken(v: V.Vol, f: nat, a: nat, b: nat, i: nat)
    requires f in v.files && a != b && V.NDIRECT <= i < V.NINDIRECT
    ensures var u := V.SetIndirect(Taken(v, b), f, b);
            f in u.files &&
            V.SetBlock(Taken(u, a), f, i, a) ==
            V.Vol(v.nblocks, v.free - {a} - {b}, v.mapped, v.pages,
                  v.blk[a := V.ZeroTable()][b := V.ZeroTable()[i := a]], v.files[f := v.files[f].(indirect := b)])
  {
  }

  lemma FirstIndirectView(img: seq<Content>, root: V.File, slots: seq<Entry>, k: nat, cur: Entry, nextb: nat, i: nat,
                          data: seq<byte>)
    requires k < |slots| && V.NDIRECT <= i < V.NINDIRECT && nextb + 1 < |img| && cur.file.indirect == 0
    ensures var v := Cur(img, root, slots, k, cur, nextb);
            k + 1 in v.files &&
            var u := V.SetIndirect(Taken(v, nextb + 1), k + 1, nextb + 1);
            k + 1 in u.files &&
            Cur(img[nextb := Bytes(data)][nextb + 1 := Words(V.ZeroTable()[i := nextb])], root, slots, k,
                SetIndirectOf(cur, nextb + 1), nextb + 2) == V.SetBlock(Taken(u, nextb), k + 1, i, nextb)
  {
    var v := Cur(img, root, slots, k, cur, nextb);
    var e, c, t := SetIndirectOf(cur, nextb + 1), Bytes(data), Words(V.ZeroTable()[i := nextb]);
    CurEntry(img, root, slots, k, cur, nextb);
    TwoTaken(v, k + 1, nextb, nextb + 1, i);
    EntryView(img, root, slots[k := cur], nextb, k, e);
    NextBlockView(img, root, slots[k := e], nextb, c);
    NextBlockView(img[nextb := c], root, slots[k := e], nextb + 1, t);
    assert slots[k := cur][k := e] == slots[k := e];
    hide VolOf, Taken, V.SetBlock, V.SetIndirect, V.ZeroTable;
  }

  /** A new block of empty structures for the root directory. */
  lemma NewDirBlock(img: seq<Content>, root: V.File, slots: seq<Entry>, nextb: nat, i: nat)
    requires i < V.NDIRECT && nextb < |img| && root.direct[i] == 0
    requires Sound(VolOf(img, root, slots, nextb))
    ensures var root' := root.(direct := root.direct[i := nextb], size := root.size + BY2BLK);
            var v, w := VolOf(img, root, slots, nextb),
                        VolOf(img[nextb := Dir(ZeroDir())], root', slots + ZeroDir(), nextb + 1);
            Sound(w) && V.NamesBut(v, w, V.SlotFor(0, i), nextb)
  {
    var root' := root.(direct := root.direct[i := nextb], size := root.size + BY2BLK);
    var v, w := VolOf(img, root, slots, nextb),
                VolOf(img[nextb := Dir(ZeroDir())], root', slots + ZeroDir(), nextb + 1);
    AddBlock(v, 0, i, nextb);
    var u := V.SetBlock(Taken(v, nextb), 0, i, nextb);
    V.SetSizeNoLeak(u, 0, root.size + BY2BLK);
    var x := V.SetSize(u, 0, root.size + BY2BLK);
    forall s ensures V.Named(w, s) == V.Named(x, s) {}
    assert w.free == x.free;
    SameNamesSound(x, w);
  }

  lemma SameNamesSound(v: V.Vol, w: V.Vol)
    requires Sound(v) && V.SameNames(v, w) && w.free == v.free && w.nblocks == v.nblocks && V.Shape(w)
    ensures Sound(w)
  {
    forall b | V.InUse(w, b) ensures !V.Unnamed(w, b) {
      assert V.InUse(v, b);
      var s :| V.Named(v, s) == b;
      assert V.Named(w, s) == b;
    }
  }

  // ---------------------------------------------------------- what is written

  /** The first n blocks of file f hold its data in order, and it has no others. */
  ghost predicate HasBlocks(img: seq<Content>, v: V.Vol, f: nat, data: seq<byte>, n: nat) {
    (forall i: nat | i < n ::
      i * BY2BLK < |data| && 0 < V.BlockOf(v, f, i) < |img| && img[V.BlockOf(v, f, i)] == Bytes(Chunk(data, i))) &&
    (forall i: nat | i >= n :: V.BlockOf(v, f, i) == 0)
  }

  /** All of the data. */
  function BlocksFor(size: nat): nat {
    (size + BY2BLK - 1) / BY2BLK
  }

  datatype Source = Source(name: string, data: seq<byte>)

  /** One round of the copying loop of writefile: block n of the current file
      takes the next free block, and its first indirect one the block after. */
  function PutChunk(img: seq<Content>, cur: Entry, nextb: nat, n: nat, c: seq<byte>)
      : Option<(seq<Content>, Entry, nat)> {
    if nextb >= |img| || n >= V.NINDIRECT then None
    else if n < V.NDIRECT then Some((img[nextb := Bytes(c)], SetDirect(cur, n, nextb), nextb + 1))
    else if cur.file.indirect == 0 then
      if nextb + 1 >= |img| then None
      else Some((img[nextb := Bytes(c)][nextb + 1 := Words(V.ZeroTable()[n := nextb])], SetIndirectOf(cur, nextb + 1),
                 nextb + 2))
    else if cur.file.indirect >= |img| then None
    else
      var ind := cur.file.indirect;
      Some((img[nextb := Bytes(c)][ind := Words(AsWords(img[ind])[n := nextb])], cur, nextb + 1))
  }

  /** The file in slot k is written up to block n, its structure still in a busy
      buffer; older blocks and other files are as they were when it was begun. */
  ghost predicate Writing(img0: seq<Content>, nextb0: nat, v0: V.Vol, img: seq<Content>, nextb: nat,
                          root: V.File, slots: seq<Entry>, k: nat, cur: Entry, data: seq<byte>, n: nat)
  {
    k < |slots| && |img| == |img0| && nextb0 <= nextb <= |img| && n <= V.NINDIRECT &&
    (forall b | 0 <= b < nextb0 :: img[b] == img0[b]) &&
    (cur.file.indirect == 0 <==> n <= V.NDIRECT) && (cur.file.indirect != 0 ==> nextb0 <= cur.file.indirect < nextb) &&
    var v := Cur(img, root, slots, k, cur, nextb);
    Sound(v) && (forall s: V.Slot | s.f != k + 1 :: V.Named(v, s) == V.Named(v0, s)) &&
      HasBlocks(img, v, k + 1, data, n)
  }

  /** What happens to the names in one round. */
  ghost predicate RoundNames(v: V.Vol, w: V.Vol, f: nat, n: nat, b: nat, ind: nat) {
    forall s :: V.Named(w, s) == if s == V.SlotFor(f, n) then b else if s == V.Indirect(f) then ind else V.Named(v, s)
  }

  lemma RoundSound(img: seq<Content>, root: V.File, slots: seq<Entry>, k: nat, cur: Entry, nextb: nat, n: nat,
                   c: seq<byte>)
    requires k < |slots| && Sound(Cur(img, root, slots, k, cur, nextb)) && PutChunk(img, cur, nextb, n, c).Some?
    requires V.BlockOf(Cur(img, root, slots, k, cur, nextb), k + 1, n) == 0
    requires cur.file.indirect < nextb && (n < V.NDIRECT ==> cur.file.indirect == 0)
    ensures var (img', cur', nextb') := PutChunk(img, cur, nextb, n, c).value;
            var w := Cur(img', root, slots, k, cur', nextb');
            Sound(w) && RoundNames(Cur(img, root, slots, k, cur, nextb), w, k + 1, n, nextb, cur'.file.indirect)
  {
    hide Sound, VolOf, Cur, V.Named, V.BlockOf, V.ZeroTable, RoundNames;
    if n < V.NDIRECT {
      RoundDirect(img, root, slots, k, cur, nextb, n, c);
    } else if cur.file.indirect == 0 {
      RoundFirst(img, root, slots, k, cur, nextb, n, c);
    } else {
      RoundTable(img, root, slots, k, cur, nextb, n, c);
    }
  }

  lemma RoundDirect(img: seq<Content>, root: V.File, slots: seq<Entry>, k: nat, cur: Entry, nextb: nat, n: nat,
                    c: seq<byte>)
    requires k < |slots| && Sound(Cur(img, root, slots, k, cur, nextb)) && n < V.NDIRECT && nextb < |img|
    requires V.BlockOf(Cur(img, root, slots, k, cur, nextb), k + 1, n) == 0 && cur.file.indirect == 0
    ensures var w := Cur(img[nextb := Bytes(c)], root, slots, k, SetDirect(cur, n, nextb), nextb + 1);
            Sound(w) && RoundNames(Cur(img, root, slots, k, cur, nextb), w, k + 1, n, nextb, 0)
  {
    DirectClear(img, root, slots, k, cur, nextb, n);
    IndirectName(img, root, slots, k, cur, nextb);
    hide *;
    StoreDirect(img, root, slots, k, cur, nextb, n, c);
    ButIsRound(Cur(img, root, slots, k, cur, nextb),
               Cur(img[nextb := Bytes(c)], root, slots, k, SetDirect(cur, n, nextb), nextb + 1),
               k + 1, n, nextb, 0);
  }

  lemma RoundTable(img: seq<Content>, root: V.File, slots: seq<Entry>, k: nat, cur: Entry, nextb: nat, n: nat,
                   c: seq<byte>)
    requires k < |slots| && Sound(Cur(img, root, slots, k, cur, nextb)) && V.NDIRECT <= n < V.NINDIRECT && nextb < |img|
    requires V.BlockOf(Cur(img, root, slots, k, cur, nextb), k + 1, n) == 0 && 0 < cur.file.indirect < nextb
    ensures var ind := cur.file.indirect;
            var w := Cur(img[nextb := Bytes(c)][ind := Words(AsWords(img[ind])[n := nextb])], root, slots, k, cur,
                         nextb + 1);
            Sound(w) && RoundNames(Cur(img, root, slots, k, cur, nextb), w, k + 1, n, nextb, ind)
  {
    var ind := cur.file.indirect;
    TableClear(img, root, slots, k, cur, nextb, n);
    IndirectName(img, root, slots, k, cur, nextb);
    hide *;
    StoreIndirect(img, root, slots, k, cur, nextb, n, c);
    ButIsRound(Cur(img, root, slots, k, cur, nextb),
               Cur(img[nextb := Bytes(c)][ind := Words(AsWords(img[ind])[n := nextb])], root, slots, k, cur, nextb + 1),
               k + 1, n, nextb, ind);
  }

  lemma RoundFirst(img: seq<Content>, root: V.File, slots: seq<Entry>, k: nat, cur: Entry, nextb: nat, n: nat,
                   c: seq<byte>)
    requires k < |slots| && Sound(Cur(img, root, slots, k, cur, nextb)) && V.NDIRECT <= n < V.NINDIRECT &&
             nextb + 1 < |img|
    requires cur.file.indirect == 0
    ensures var w := Cur(img[nextb := Bytes(c)][nextb + 1 := Words(V.ZeroTable()[n := nextb])], root, slots, k,
                         SetIndirectOf(cur, nextb + 1), nextb + 2);
            Sound(w) && RoundNames(Cur(img, root, slots, k, cur, nextb), w, k + 1, n, nextb, nextb + 1)
  {
    hide *;
    StoreFirstIndirect(img, root, slots, k, cur, nextb, n, c);
    FirstIsRound(Cur(img, root, slots, k, cur, nextb),
                 Cur(img[nextb := Bytes(c)][nextb + 1 := Words(V.ZeroTable()[n := nextb])], root, slots, k,
                     SetIndirectOf(cur, nextb + 1), nextb + 2), k + 1, n, nextb, nextb + 1);
  }

  lemma IndirectName(img: seq<Content>, root: V.File, slots: seq<Entry>, k: nat, cur: Entry, nextb: nat)
    requires k < |slots|
    ensures V.Named(Cur(img, root, slots, k, cur, nextb), V.Indirect(k + 1)) == cur.file.indirect
  {
    CurEntry(img, root, slots, k, cur, nextb);
    hide VolOf, Cur;
  }

  lemma FirstIsRound(v: V.Vol, w: V.Vol, f: nat, n: nat, b: nat, ind: nat)
    requires V.NDIRECT <= n
    requires forall s :: V.Named(w, s) ==
               (if s == V.Indirect(f) then ind else if s == V.Entry(f, n) then b else V.Named(v, s))
    ensures RoundNames(v, w, f, n, b, ind)
  {
    hide V.Named;
  }

  lemma ButIsRound(v: V.Vol, w: V.Vol, f: nat, n: nat, b: nat, ind: nat)
    requires V.NamesBut(v, w, V.SlotFor(f, n), b) && V.Named(v, V.Indirect(f)) == ind
    ensures RoundNames(v, w, f, n, b, ind)
  {
    hide V.Named;
  }

  lemma DirectClear(img: seq<Content>, root: V.File, slots: seq<Entry>, k: nat, cur: Entry, nextb: nat, n: nat)
    requires k < |slots| && n < V.NDIRECT && V.BlockOf(Cur(img, root, slots, k, cur, nextb), k + 1, n) == 0
    ensures cur.file.direct[n] == 0
  {
    CurEntry(img, root, slots, k, cur, nextb);
  }

  lemma TableClear(img: seq<Content>, root: V.File, slots: seq<Entry>, k: nat, cur: Entry, nextb: nat, n: nat)
    requires k < |slots| && V.NDIRECT <= n < V.NINDIRECT &&
             V.BlockOf(Cur(img, root, slots, k, cur, nextb), k + 1, n) == 0
    requires 0 < cur.file.indirect < |img|
    ensures AsWords(img[cur.file.indirect])[n] == 0
  {
    CurEntry(img, root, slots, k, cur, nextb);
    hide VolOf, Cur;
  }

  /** Blocks in use lie below nextb, and no data block is the indirect block. */
  lemma OldBlock(img: seq<Content>, root: V.File, slots: seq<Entry>, k: nat, cur: Entry, nextb: nat, i: nat)
    requires k < |slots| && Sound(Cur(img, root, slots, k, cur, nextb))
    requires V.BlockOf(Cur(img, root, slots, k, cur, nextb), k + 1, i) != 0
    ensures V.BlockOf(Cur(img, root, slots, k, cur, nextb), k + 1, i) < nextb
    ensures V.BlockOf(Cur(img, root, slots, k, cur, nextb), k + 1, i) != cur.file.indirect
  {
    var v := Cur(img, root, slots, k, cur, nextb);
    assert v.files[k + 1] == cur.file;
    var b := V.Named(v, V.SlotFor(k + 1, i));
    assert V.InUse(v, b) && FreeFrom(nextb, b) == (b in v.free);
    assert V.Named(v, V.Indirect(k + 1)) == cur.file.indirect;
  }

  lemma RoundBlockOf(v: V.Vol, w: V.Vol, f: nat, n: nat, b: nat, ind: nat, i: nat)
    requires RoundNames(v, w, f, n, b, ind)
    ensures V.BlockOf(w, f, i) == if i == n then b else V.BlockOf(v, f, i)
  {
    assert V.Named(w, V.SlotFor(f, i)) == if i == n then b else V.Named(v, V.SlotFor(f, i));
  }

  lemma RoundBlocks(img: seq<Content>, root: V.File, slots: seq<Entry>, k: nat, cur: Entry, nextb: nat, data: seq<byte>,
                    n: nat)
    requires k < |slots| && Sound(Cur(img, root, slots, k, cur, nextb)) && n * BY2BLK < |data|
    requires HasBlocks(img, Cur(img, root, slots, k, cur, nextb), k + 1, data, n)
    requires cur.file.indirect < nextb && (n < V.NDIRECT ==> cur.file.indirect == 0)
    requires PutChunk(img, cur, nextb, n, Chunk(data, n)).Some?
    ensures var (img', cur', nextb') := PutChunk(img, cur, nextb, n, Chunk(data, n)).value;
            HasBlocks(img', Cur(img', root, slots, k, cur', nextb'), k + 1, data, n + 1)
  {
    var (img', cur', nextb') := PutChunk(img, cur, nextb, n, Chunk(data, n)).value;
    var v, w := Cur(img, root, slots, k, cur, nextb), Cur(img', root, slots, k, cur', nextb');
    RoundSound(img, root, slots, k, cur, nextb, n, Chunk(data, n));
    var f := k + 1;
    hide *;
    forall i: nat ensures V.BlockOf(w, f, i) == if i == n then nextb else V.BlockOf(v, f, i) {
      RoundBlockOf(v, w, f, n, nextb, cur'.file.indirect, i);
    }
    forall i: nat | V.BlockOf(v, f, i) != 0
      ensures V.BlockOf(v, f, i) < |img| && img'[V.BlockOf(v, f, i)] == img[V.BlockOf(v, f, i)]
    {
      OldBlock(img, root, slots, k, cur, nextb, i);
      ChunkWritten(img, cur, nextb, n, Chunk(data, n), V.BlockOf(v, f, i));
    }
    ChunkWritten(img, cur, nextb, n, Chunk(data, n), nextb);
    BlocksExtend(img, v, img', w, f, data, n, nextb);
  }

  lemma BlocksExtend(img: seq<Content>, v: V.Vol, img': seq<Content>, w: V.Vol, f: nat, data: seq<byte>, n: nat, b: nat)
    requires HasBlocks(img, v, f, data, n) && n * BY2BLK < |data| && |img'| == |img| && 0 < b < |img|
    requires forall i: nat :: V.BlockOf(w, f, i) == if i == n then b else V.BlockOf(v, f, i)
    requires forall i: nat | V.BlockOf(v, f, i) != 0 ::
               V.BlockOf(v, f, i) < |img| && img'[V.BlockOf(v, f, i)] == img[V.BlockOf(v, f, i)]
    requires img'[b] == Bytes(Chunk(data, n))
    ensures HasBlocks(img', w, f, data, n + 1)
  {
    hide V.BlockOf, Chunk;
  }

  /** A round writes its data block, and no block below but the indirect one. */
  lemma ChunkWritten(img: seq<Content>, cur: Entry, nextb: nat, n: nat, c: seq<byte>, b: nat)
    requires PutChunk(img, cur, nextb, n, c).Some? && cur.file.indirect < nextb && b <= nextb
    ensures var (img', _, _) := PutChunk(img, cur, nextb, n, c).value;
            |img'| == |img| && b < |img| && img'[nextb] == Bytes(c) &&
              (b < nextb && b != cur.file.indirect ==> img'[b] == img[b])
  {
  }

  lemma PutChunkKeeps(img0: seq<Content>, nextb0: nat, v0: V.Vol, img: seq<Content>, nextb: nat,
                      root: V.File, slots: seq<Entry>, k: nat, cur: Entry, data: seq<byte>, n: nat)
    requires Writing(img0, nextb0, v0, img, nextb, root, slots, k, cur, data, n) && n * BY2BLK < |data|
    requires PutChunk(img, cur, nextb, n, Chunk(data, n)).Some? && 0 < nextb0
    ensures var (img', cur', nextb') := PutChunk(img, cur, nextb, n, Chunk(data, n)).value;
            Writing(img0, nextb0, v0, img', nextb', root, slots, k, cur', data, n + 1)
  {
    var (img', cur', nextb') := PutChunk(img, cur, nextb, n, Chunk(data, n)).value;
    assert cur.file.indirect < nextb && (n < V.NDIRECT ==> cur.file.indirect == 0);
    assert V.BlockOf(Cur(img, root, slots, k, cur, nextb), k + 1, n) == 0;
    RoundSound(img, root, slots, k, cur, nextb, n, Chunk(data, n));
    RoundBlocks(img, root, slots, k, cur, nextb, data, n);
    RoundIndirect(img, cur, nextb, n, Chunk(data, n));
    OthersKeep(Cur(img, root, slots, k, cur, nextb), Cur(img', root, slots, k, cur', nextb'), k + 1, n, nextb,
               cur'.file.indirect);
    forall b | 0 <= b < nextb0 ensures img'[b] == img[b] {
      ChunkWritten(img, cur, nextb, n, Chunk(data, n), b);
    }
    hide Sound, HasBlocks, Cur, PutChunk, RoundNames, Chunk, V.Named;
  }

  lemma RoundIndirect(img: seq<Content>, cur: Entry, nextb: nat, n: nat, c: seq<byte>)
    requires PutChunk(img, cur, nextb, n, c).Some? && (n < V.NDIRECT ==> cur.file.indirect == 0)
    ensures var (img', cur', nextb') := PutChunk(img, cur, nextb, n, c).value;
            |img'| == |img| && nextb < nextb' <= |img| && n < V.NINDIRECT &&
            (cur'.file.indirect == 0 <==> n < V.NDIRECT) &&
            (cur'.file.indirect == cur.file.indirect || nextb < cur'.file.indirect < nextb')
  {
  }

  lemma OthersKeep(v: V.Vol, w: V.Vol, f: nat, n: nat, b: nat, ind: nat)
    requires RoundNames(v, w, f, n, b, ind)
    ensures forall s: V.Slot | s.f != f :: V.Named(w, s) == V.Named(v, s)
  {
    hide V.Named;
  }

  // -------------------------------------------------- between two files

  ghost predicate DirOk(img: seq<Content>, nextb: nat, root: V.File, slots: seq<Entry>, d: nat) {
    d < V.NDIRECT && 0 < root.direct[d] < nextb && root.direct[d] < |img| && FILE2BLK * (d + 1) <= |slots| &&
    img[root.direct[d]] == Dir(slots[FILE2BLK * d..FILE2BLK * (d + 1)])
  }

  ghost predicate FileOk(img: seq<Content>, v: V.Vol, slots: seq<Entry>, files: seq<Source>, k: nat) {
    k < |slots| && k < |files| &&
    slots[k].name == files[k].name != "" && slots[k].file.size == |files[k].data| &&
    HasBlocks(img, v, k + 1, files[k].data, BlocksFor(|files[k].data|))
  }

  /** The image holds exactly `files`, in order in the slots of the root. */
  ghost predicate Built(img: seq<Content>, nextb: nat, root: V.File, slots: seq<Entry>, files: seq<Source>) {
    0 < nextb <= |img| && root.indirect == 0 && root.size % BY2BLK == 0 && root.size / BY2BLK <= V.NDIRECT &&
    |slots| == root.size / BY2BLK * FILE2BLK && |files| <= |slots| <= |files| + FILE2BLK &&
    Sound(VolOf(img, root, slots, nextb)) &&
    (forall d | 0 <= d < root.size / BY2BLK :: DirOk(img, nextb, root, slots, d)) &&
    (forall d | root.size / BY2BLK <= d < V.NDIRECT :: root.direct[d] == 0) &&
    (forall k | 0 <= k < |files| :: FileOk(img, VolOf(img, root, slots, nextb), slots, files, k)) &&
    (forall k | |files| <= k < |slots| :: slots[k] == ZeroEntry())
  }

  /** A block named in v is below nextb, and only one slot names it. */
  lemma NamedBlock(img: seq<Content>, root: V.File, slots: seq<Entry>, nextb: nat, s: V.Slot, t: V.Slot)
    requires Sound(VolOf(img, root, slots, nextb)) && V.Named(VolOf(img, root, slots, nextb), s) != 0
    ensures V.Named(VolOf(img, root, slots, nextb), s) < nextb
    ensures s != t ==> V.Named(VolOf(img, root, slots, nextb), s) != V.Named(VolOf(img, root, slots, nextb), t)
  {
    var v := VolOf(img, root, slots, nextb);
    assert V.InUse(v, V.Named(v, s)) && FreeFrom(nextb, V.Named(v, s)) == (V.Named(v, s) in v.free);
  }

  /** A file's blocks are untouched if its names stay and only the blocks of
      other slots, or new ones, are written. */
  lemma BlocksStay(img: seq<Content>, root: V.File, slots: seq<Entry>, nextb: nat,
                   img': seq<Content>, w: V.Vol, f: nat, data: seq<byte>, n: nat, other: V.Slot)
    requires Sound(VolOf(img, root, slots, nextb)) && HasBlocks(img, VolOf(img, root, slots, nextb), f, data, n)
    requires |img'| == |img| && other.Direct? && other.f != f
    requires forall s: V.Slot | s.f == f :: V.Named(w, s) == V.Named(VolOf(img, root, slots, nextb), s)
    requires forall b | 0 <= b < nextb && b != V.Named(VolOf(img, root, slots, nextb), other) && b < |img| ::
               img'[b] == img[b]
    ensures HasBlocks(img', w, f, data, n)
  {
    var v := VolOf(img, root, slots, nextb);
    forall i: nat ensures V.BlockOf(w, f, i) == V.BlockOf(v, f, i) {
      assert V.SlotFor(f, i).f == f;
      assert V.Named(w, V.SlotFor(f, i)) == V.Named(v, V.SlotFor(f, i));
    }
    forall i: nat | i < n ensures img'[V.BlockOf(v, f, i)] == img[V.BlockOf(v, f, i)] {
      assert V.Named(v, V.SlotFor(f, i)) == V.BlockOf(v, f, i);
      NamedBlock(img, root, slots, nextb, V.SlotFor(f, i), other);
    }
  }

  /** Files stay as they are when names of other files only are added and no old
      block but one of the root's is written. */
  lemma FilesStay(img: seq<Content>, root: V.File, slots: seq<Entry>, nextb: nat, files: seq<Source>,
                  img': seq<Content>, slots': seq<Entry>, w: V.Vol, k: nat, d: nat)
    requires Sound(VolOf(img, root, slots, nextb)) && FileOk(img, VolOf(img, root, slots, nextb), slots, files, k)
    requires |img'| == |img| && k < |slots'| && slots'[k] == slots[k]
    requires forall s: V.Slot | s.f == k + 1 :: V.Named(w, s) == V.Named(VolOf(img, root, slots, nextb), s)
    requires forall b | 0 <= b < nextb && b != V.Named(VolOf(img, root, slots, nextb), V.Slot.Direct(0, d)) &&
             b < |img| :: img'[b] == img[b]
    ensures FileOk(img', w, slots', files, k)
  {
    BlocksStay(img, root, slots, nextb, img', w, k + 1, files[k].data, BlocksFor(|files[k].data|), V.Slot.Direct(0, d));
  }

  /** The root grows by a block of empty structures. */
  lemma GrowBuilt(img: seq<Content>, nextb: nat, root: V.File, slots: seq<Entry>, files: seq<Source>)
    requires Built(img, nextb, root, slots, files) && |files| == |slots| < V.NDIRECT * FILE2BLK && nextb < |img|
    ensures var d := root.size / BY2BLK;
            d < V.NDIRECT &&
            Built(img[nextb := Dir(ZeroDir())], nextb + 1,
                  root.(direct := root.direct[d := nextb], size := root.size + BY2BLK), slots + ZeroDir(), files)
  {
    var d := root.size / BY2BLK;
    var img', slots' := img[nextb := Dir(ZeroDir())], slots + ZeroDir();
    var root' := root.(direct := root.direct[d := nextb], size := root.size + BY2BLK);
    NewDirBlock(img, root, slots, nextb, d);
    var nextb' := nextb + 1;
    GrowDirs(img, nextb, root, slots, files, img', nextb', root', slots');
    var v, w := VolOf(img, root, slots, nextb), VolOf(img', root', slots', nextb');
    assert forall k | |files| <= k < |slots'| :: slots'[k] == ZeroEntry();
    hide Sound, VolOf, HasBlocks, DirOk, V.BlockOf;
    forall k | 0 <= k < |files| ensures FileOk(img', w, slots', files, k) {
      assert FileOk(img, v, slots, files, k);
      FilesStay(img, root, slots, nextb, files, img', slots', w, k, d);
    }
  }

  lemma GrowDirs(img: seq<Content>, nextb: nat, root: V.File, slots: seq<Entry>, files: seq<Source>,
                 img': seq<Content>, nextb': nat, root': V.File, slots': seq<Entry>)
    requires Built(img, nextb, root, slots, files) && |files| == |slots| < V.NDIRECT * FILE2BLK && nextb < |img|
    requires var d := root.size / BY2BLK;
             d < V.NDIRECT && img' == img[nextb := Dir(ZeroDir())] && nextb' == nextb + 1 &&
               slots' == slots + ZeroDir() &&
             root' == root.(direct := root.direct[d := nextb], size := root.size + BY2BLK)
    ensures forall e | 0 <= e < root'.size / BY2BLK :: DirOk(img', nextb', root', slots', e)
  {
    hide Sound, VolOf, FileOk;
    forall e | 0 <= e < root'.size / BY2BLK ensures DirOk(img', nextb', root', slots', e) {
      if e < root.size / BY2BLK {
        assert DirOk(img, nextb, root, slots, e);
        assert slots'[FILE2BLK * e..FILE2BLK * (e + 1)] == slots[FILE2BLK * e..FILE2BLK * (e + 1)];
      } else {
        assert slots'[FILE2BLK * e..FILE2BLK * (e + 1)] == ZeroDir();
      }
    }
  }

  lemma WritingStart(img: seq<Content>, nextb: nat, root: V.File, slots: seq<Entry>, files: seq<Source>, name: string,
                     data: seq<byte>)
    requires Built(img, nextb, root, slots, files) && |files| < |slots|
    ensures Writing(img, nextb, VolOf(img, root, slots, nextb), img, nextb, root, slots, |files|,
                    Entry(name, V.ZeroFile()), data, 0)
  {
    var k := |files|;
    var cur := Entry(name, V.ZeroFile());
    assert slots[k] == ZeroEntry();
    var v, w := VolOf(img, root, slots, nextb), Cur(img, root, slots, k, cur, nextb);
    assert v.files == w.files;
    assert v == w;
  }

  /** The structure of a finished file goes into its directory block. */
  lemma FinishBuilt(img0: seq<Content>, nextb0: nat, root: V.File, slots: seq<Entry>, files: seq<Source>,
                    img: seq<Content>, nextb: nat, cur: Entry, src: Source,
                    img': seq<Content>, slots': seq<Entry>, files': seq<Source>, k: nat, d: nat)
    requires Built(img0, nextb0, root, slots, files) && k == |files| < |slots| && d == k / FILE2BLK
    requires Writing(img0, nextb0, VolOf(img0, root, slots, nextb0), img, nextb, root, slots, k, cur, src.data,
                     BlocksFor(|src.data|))
    requires cur.name == src.name != "" && slots' == slots[k := SetSizeOf(cur, |src.data|)] && files' == files + [src]
    requires DirOk(img0, nextb0, root, slots, d)
    requires img' == img[root.direct[d] := Dir(slots'[FILE2BLK * d..FILE2BLK * (d + 1)])]
    ensures Built(img', nextb, root, slots', files')
  {
    var v0, v, w := VolOf(img0, root, slots, nextb0), Cur(img, root, slots, k, cur, nextb),
      VolOf(img', root, slots', nextb);
    RootNames(img0, root, slots, nextb0, d);
    RootNames(img, root, slots[k := cur], nextb, d);
    FinishSound(img, root, slots, nextb, cur, |src.data|, img', slots', k, root.direct[d]);
    FinishDirs(img0, nextb0, root, slots, files, img, nextb, img', slots', k, d);
    hide Sound, VolOf, V.BlockOf, DirOk;
    forall j | 0 <= j < |files'| ensures FileOk(img', w, slots', files', j) {
      if j < k {
        assert FileOk(img0, v0, slots, files, j);
        assert FileOk(img0, v0, slots, files', j);
        FilesStay(img0, root, slots, nextb0, files', img', slots', w, j, d);
      } else {
        CurStays(img, root, slots, nextb, cur, img', w, k, d, src.data, BlocksFor(|src.data|));
      }
    }
  }

  lemma RootNames(img: seq<Content>, root: V.File, slots: seq<Entry>, nextb: nat, d: nat)
    requires d < V.NDIRECT
    ensures V.Named(VolOf(img, root, slots, nextb), V.Slot.Direct(0, d)) == root.direct[d]
  {
    hide AsWords;
  }

  /** Storing the finished structure changes one thing the volume shows: the
      size in it. */
  lemma FinishView(img: seq<Content>, root: V.File, slots: seq<Entry>, nextb: nat, cur: Entry, size: nat,
                   img': seq<Content>, slots': seq<Entry>, k: nat, b: nat)
    requires k < |slots| && slots' == slots[k := SetSizeOf(cur, size)]
    requires b < |img| == |img'| && img' == img[b := img'[b]] && AsWords(img'[b]) == AsWords(img[b])
    ensures k + 1 in Cur(img, root, slots, k, cur, nextb).files
    ensures VolOf(img', root, slots', nextb) == V.SetSize(Cur(img, root, slots, k, cur, nextb), k + 1, size)
  {
    var v, w := Cur(img, root, slots, k, cur, nextb), VolOf(img', root, slots', nextb);
    hide AsWords;
    assert w.blk == v.blk;
    assert w.files == v.files[k + 1 := cur.file.(size := size)];
  }

  lemma FinishSound(img: seq<Content>, root: V.File, slots: seq<Entry>, nextb: nat, cur: Entry, size: nat,
                    img': seq<Content>, slots': seq<Entry>, k: nat, b: nat)
    requires k < |slots| && slots' == slots[k := SetSizeOf(cur, size)] && Sound(Cur(img, root, slots, k, cur, nextb))
    requires b < |img| == |img'| && img' == img[b := img'[b]] && img[b].Dir? && img'[b].Dir?
    ensures Sound(VolOf(img', root, slots', nextb))
    ensures V.SameNames(Cur(img, root, slots, k, cur, nextb), VolOf(img', root, slots', nextb))
  {
    FinishView(img, root, slots, nextb, cur, size, img', slots', k, b);
    hide VolOf, Cur;
    V.SetSizeNoLeak(Cur(img, root, slots, k, cur, nextb), k + 1, size);
  }

  lemma FinishDirs(img0: seq<Content>, nextb0: nat, root: V.File, slots: seq<Entry>, files: seq<Source>,
                   img: seq<Content>, nextb: nat, img': seq<Content>, slots': seq<Entry>, k: nat, d: nat)
    requires Built(img0, nextb0, root, slots, files) && k == |files| < |slots| && d == k / FILE2BLK
    requires nextb0 <= nextb && |img| == |img0| && forall b | 0 <= b < nextb0 :: b < |img| && img[b] == img0[b]
    requires DirOk(img0, nextb0, root, slots, d)
    requires |slots'| == |slots| && slots' == slots[k := slots'[k]]
    requires img' == img[root.direct[d] := Dir(slots'[FILE2BLK * d..FILE2BLK * (d + 1)])]
    ensures forall e | 0 <= e < root.size / BY2BLK :: DirOk(img', nextb, root, slots', e)
  {
    forall e | 0 <= e < root.size / BY2BLK ensures DirOk(img', nextb, root, slots', e) {
      assert DirOk(img0, nextb0, root, slots, e);
      if e != d {
        DirBlocksApart(img0, nextb0, root, slots, d, e);
        hide Sound, VolOf;
        assert slots'[FILE2BLK * e..FILE2BLK * (e + 1)] == slots[FILE2BLK * e..FILE2BLK * (e + 1)];
      }
    }
  }

  lemma DirBlocksApart(img: seq<Content>, nextb: nat, root: V.File, slots: seq<Entry>, d: nat, e: nat)
    requires Sound(VolOf(img, root, slots, nextb)) && DirOk(img, nextb, root, slots, d) &&
             DirOk(img, nextb, root, slots, e) && d != e
    ensures root.direct[d] != root.direct[e]
  {
    var v := VolOf(img, root, slots, nextb);
    assert V.Named(v, V.Slot.Direct(0, d)) == root.direct[d] && V.Named(v, V.Slot.Direct(0, e)) == root.direct[e];
    NamedBlock(img, root, slots, nextb, V.Slot.Direct(0, d), V.Slot.Direct(0, e));
  }

  lemma CurStays(img: seq<Content>, root: V.File, slots: seq<Entry>, nextb: nat, cur: Entry,
                 img': seq<Content>, w: V.Vol, k: nat, d: nat, data: seq<byte>, n: nat)
    requires k < |slots| && Sound(Cur(img, root, slots, k, cur, nextb)) &&
             HasBlocks(img, Cur(img, root, slots, k, cur, nextb), k + 1, data, n)
    requires |img'| == |img| && V.SameNames(Cur(img, root, slots, k, cur, nextb), w)
    requires forall b | 0 <= b < |img| && b != V.Named(Cur(img, root, slots, k, cur, nextb), V.Slot.Direct(0, d)) ::
               img'[b] == img[b]
    ensures HasBlocks(img', w, k + 1, data, n)
  {
    BlocksStay(img, root, slots[k := cur], nextb, img', w, k + 1, data, n, V.Slot.Direct(0, d));
  }
}
