/** Names in a directory that grows: the end of dir_alloc_file and file_create, the new
    block holding whatever it holds. */
module DirNames {
  import opened Wrappers
  import opened Paths
  import V = Volume
  import G = DirGrowth

  /** A block of File structures: which they are, in order, and what the block that
      was taken for them holds. */
  datatype Taken = Taken(ids: seq<nat>, held: map<nat, File>)

  /** The structures are none that the store knows. */
  ghost predicate NewBlock(s: Store, b: Taken) {
    |b.ids| == FILE2BLK && (forall f :: f in b.held <==> f in b.ids) && b.held.Keys !! s.Keys &&
    (forall f, g | f in b.held && Lists(b.held[f], g) :: g in s || g in b.held)
  }

  /** dir_alloc_file when no structure is unused: one more block, if one can be had,
      with whatever structures there are in it. */
  function Grow(s: Store, d: nat, got: Option<Taken>): Store
    requires d in s
  {
    match got
    case None => s[d := s[d].(blocks := s[d].blocks + [Unreadable])]
    case Some(b) => s[d := s[d].(blocks := s[d].blocks + [Slots(b.ids)])] + b.held
  }

  predicate Grows(s: Store, d: nat) {
    !DirLookup(s, d, "").Hit?
  }

  /** What dir_alloc_file makes of the directory. */
  function Roomy(s: Store, d: nat, got: Option<Taken>): Store
    requires d in s
  {
    if Grows(s, d) then Grow(s, d, got) else s
  }

  predicate HasFirst(b: Taken) {
    b.ids != [] && b.ids[0] in b.held
  }

  /** The block with its first structure named. */
  function Named(b: Taken, name: string): Taken
    requires HasFirst(b)
  {
    b.(held := b.held[b.ids[0] := b.held[b.ids[0]].(name := name)])
  }

  /** Naming the first structure of a new block is growing by the named block. */
  lemma NamedGrow(s: Store, d: nat, b: Taken, name: string)
    requires d in s && NewBlock(s, b)
    ensures HasFirst(b) && b.ids[0] in Grow(s, d, Some(b)) && NewBlock(s, Named(b, name))
    ensures SetName(Grow(s, d, Some(b)), b.ids[0], name) == Grow(s, d, Some(Named(b, name)))
  {
    assert b.ids[0] in b.ids;
    var c := Named(b, name);
    forall f, g | f in c.held && Lists(c.held[f], g) ensures g in s || g in c.held {
      assert Lists(b.held[f], g);
    }
  }

  /** What is where after growth. */
  lemma GrownIn(s: Store, d: nat, b: Taken, c: nat, g: nat)
    requires d in s && NewBlock(s, b)
    ensures In(Grow(s, d, Some(b)), c, g) <==>
            In(s, c, g) || (c == d && g in b.held) || (c in b.held && Lists(b.held[c], g))
  {
    var t := Grow(s, d, Some(b));
    if c == d {
      assert t[d].blocks[|s[d].blocks|] == Slots(b.ids);
      assert forall x | x in t[d].blocks :: x in s[d].blocks || x == Slots(b.ids);
      assert forall x <- s[d].blocks :: x in t[d].blocks;
    }
  }

  lemma GrownNames(s: Store, d: nat, b: Taken)
    requires d in s && NewBlock(s, b)
    ensures forall g :: NameOf(Grow(s, d, Some(b)), g) == if g in b.held then b.held[g].name else NameOf(s, g)
  {
  }

  predicate HasName(b: Taken, n: string) {
    exists f <- b.held :: b.held[f].name == n
  }

  /** The lookups after growth: what was found is found still, and besides it what
      the block holds. */
  lemma GrownLookup(s: Store, d: nat, b: Taken, c: nat, n: string)
    requires Listed(s) && d in s && NewBlock(s, b) && c in s
    ensures var was, now := DirLookup(s, c, n), DirLookup(Grow(s, d, Some(b)), c, n);
            && (c != d || !was.Miss? ==> now == was)
            && (c == d && was.Miss? ==> now == FindIn(Grow(s, d, Some(b)), [Slots(b.ids)], n))
  {
    var t := Grow(s, d, Some(b));
    GrownNames(s, d, b);
    forall x <- s[c].blocks | x.Slots? ensures forall g <- x.ids :: NameOf(s, g) == n <==> NameOf(t, g) == n {
      forall g <- x.ids ensures NameOf(s, g) == n <==> NameOf(t, g) == n {
        assert In(s, c, g);
      }
    }
    FindInSame(s, t, s[c].blocks, n);
    FindInAppend(t, s[d].blocks, Slots(b.ids), n);
  }

  /** What is found in the block alone. */
  lemma BlockLookup(s: Store, d: nat, b: Taken, n: string)
    requires d in s && NewBlock(s, b)
    ensures var r := FindIn(Grow(s, d, Some(b)), [Slots(b.ids)], n);
            (if HasName(b, n) then r.Hit? else r.Miss?) && b.ids[0] in b.held &&
            (b.held[b.ids[0]].name == n ==> r == Hit(b.ids[0]))
  {
    var t := Grow(s, d, Some(b));
    assert b.ids[0] in b.ids && [Slots(b.ids)][1..] == [];
    GrownNames(s, d, b);
    FindSlotSpec(t, b.ids, n);
  }

  lemma GrownKeeps(s: Store, d: nat, b: Taken)
    requires Listed(s) && d in s && NewBlock(s, b)
    ensures Listed(Grow(s, d, Some(b))) && Kept(s, Grow(s, d, Some(b)), d)
  {
    var t := Grow(s, d, Some(b));
    forall c, g ensures In(t, c, g) ==> g in t {
      GrownIn(s, d, b, c, g);
      assert In(s, c, g) ==> g in s;
    }
    forall c, n | c in s && (c != d || DirLookup(s, c, n).Hit?) ensures DirLookup(t, c, n) == DirLookup(s, c, n) {
      GrownLookup(s, d, b, c, n);
    }
  }

  predicate KnownName(s: Store, d: nat, name: string, n: string) {
    n == "" || n == name || DirLookup(s, d, n).Hit?
  }

  /** Of the structures after the first, which is about to be named: each has no name,
      or one that is in d, or the new one. */
  predicate NamesKnown(s: Store, d: nat, name: string, b: Taken)
    requires HasFirst(b)
  {
    forall f <- b.held | f != b.ids[0] :: KnownName(s, d, name, b.held[f].name)
  }

  /** The same of those names that can be in a path. */
  predicate PathsKnown(s: Store, d: nat, name: string, b: Taken)
    requires HasFirst(b)
  {
    forall f <- b.held | f != b.ids[0] && Plain(b.held[f].name) :: KnownName(s, d, name, b.held[f].name)
  }

  /** The name is in the block, other than in the first structure. */
  predicate InRest(b: Taken, n: string)
    requires HasFirst(b)
  {
    exists f <- b.held :: f != b.ids[0] && b.held[f].name == n
  }

  lemma KnownRest(s: Store, d: nat, name: string, b: Taken)
    requires HasFirst(b)
    ensures NamesKnown(s, d, name, b) <==> forall n | InRest(b, n) :: KnownName(s, d, name, n)
    ensures PathsKnown(s, d, name, b) <==> forall n | InRest(b, n) :: Plain(n) ==> KnownName(s, d, name, n)
  {
    hide KnownName, Plain;
    forall f <- b.held | f != b.ids[0] ensures InRest(b, b.held[f].name) {}
  }

  /** n is in the block, other than in the first structure, and was not in d. */
  predicate Appears(s: Store, d: nat, name: string, b: Taken, n: string)
    requires HasFirst(b)
  {
    n != name && !DirLookup(s, d, n).Hit? && InRest(b, n)
  }

  lemma NameAppears(s: Store, d: nat, b: Taken, name: string, n: string)
    requires Listed(s) && d in s && NewBlock(s, b) && DirLookup(s, d, name).Miss?
    ensures HasFirst(b)
    ensures DirLookup(Grow(s, d, Some(Named(b, name))), d, n) != DirLookup(s, d, n) && n != name <==>
            Appears(s, d, name, b, n)
    ensures DirLookup(Grow(s, d, Some(Named(b, name))), d, name) == Hit(b.ids[0])
  {
    NamedGrow(s, d, b, name);
    var e := Named(b, name);
    GrownLookup(s, d, e, d, n);
    BlockLookup(s, d, e, n);
    GrownLookup(s, d, e, d, name);
    BlockLookup(s, d, e, name);
    LookupSpec(s, d, name);
    LookupSpec(s, d, n);
    hide DirLookup, FindIn, Grow, NewBlock, Listed;
  }

  lemma AppearsNot(s: Store, d: nat, name: string, b: Taken)
    requires HasFirst(b)
    ensures NamesKnown(s, d, name, b) <==> forall n | n != "" :: !Appears(s, d, name, b, n)
    ensures PathsKnown(s, d, name, b) <==> forall n | Plain(n) :: !Appears(s, d, name, b, n)
  {
    KnownRest(s, d, name, b);
    assert !Plain("");
    hide DirLookup, Plain, NamesKnown, PathsKnown, InRest;
    forall n ensures Appears(s, d, name, b, n) <==> InRest(b, n) && n != name && !DirLookup(s, d, n).Hit? {}
    forall n | n != "" ensures KnownName(s, d, name, n) <==> n == name || DirLookup(s, d, n).Hit? {}
  }

  /** After a directory has grown by the block and its first structure is named, all
      other lookups are as before if and only if the names in the block are known. */
  lemma LookupsExact(s: Store, d: nat, b: Taken, name: string)
    requires Listed(s) && d in s && s[d].isDir && NewBlock(s, b) && DirLookup(s, d, name).Miss?
    ensures HasFirst(b)
    ensures var t := Grow(s, d, Some(Named(b, name)));
            && (SameBut(s, t, d, name) <==> NamesKnown(s, d, name, b))
            && (SamePaths(s, t, d, name) <==> PathsKnown(s, d, name, b))
            && DirLookup(t, d, name) == Hit(b.ids[0])
  {
    NamedGrow(s, d, b, name);
    var e := Named(b, name);
    var t := Grow(s, d, Some(e));
    GrownKeeps(s, d, e);
    forall n ensures DirLookup(t, d, n) != DirLookup(s, d, n) && n != name <==> Appears(s, d, name, b, n) {
      NameAppears(s, d, b, name, n);
    }
    NameAppears(s, d, b, name, name);
    forall c, n | c in s && c != d ensures DirLookup(t, c, n) == DirLookup(s, c, n) {
      GrownLookup(s, d, e, c, n);
    }
    hide NewBlock, DirLookup, Grow;
    AppearsNot(s, d, name, b);
  }

  /** The names in the block are new to d and differ. */
  predicate NamesFresh(s: Store, d: nat, b: Taken) {
    (forall f <- b.held :: b.held[f].name == "" || !DirLookup(s, d, b.held[f].name).Hit?) &&
    (forall f, g | f in b.held && g in b.held && f != g ::
      b.held[f].name == "" || b.held[f].name != b.held[g].name)
  }

  /** What the structures in the block list, if they come as directories: known
      structures that are in no other directory, with different names. */
  ghost predicate ContentsApart(s: Store, b: Taken) {
    (forall f, g | f in b.held && Lists(b.held[f], g) :: g in s && Homeless(s, g)) &&
    (forall f, e, g | f in b.held && e in b.held && f != e :: !Lists(b.held[f], g) || !Lists(b.held[e], g)) &&
    (forall f, g, h | f in b.held && Lists(b.held[f], g) && Lists(b.held[f], h) && g != h ::
      NameOf(s, g) == "" || NameOf(s, g) != NameOf(s, h))
  }

  ghost predicate Homeless(s: Store, g: nat) {
    forall c :: !In(s, c, g)
  }

  /** Names in d stay unique if and only if those in the block are fresh. */
  lemma NamesExact(s: Store, d: nat, b: Taken)
    requires WellFormed(s) && d in s && Readable(s, d) && NewBlock(s, b)
    ensures (forall f, g :: NamesDiffer(Grow(s, d, Some(b)), d, f, g)) <==> NamesFresh(s, d, b)
  {
    var t := Grow(s, d, Some(b));
    GrownNames(s, d, b);
    forall g ensures In(t, d, g) <==> In(s, d, g) || g in b.held {
      GrownIn(s, d, b, d, g);
    }
    if NamesFresh(s, d, b) {
      forall f, g ensures NamesDiffer(t, d, f, g) {
        FreshDiffers(s, d, b, f, g);
      }
    } else if f :| f in b.held && b.held[f].name != "" && DirLookup(s, d, b.held[f].name).Hit? {
      LookupSpec(s, d, b.held[f].name);
      var g := DirLookup(s, d, b.held[f].name).f;
      assert SlotOk(s, d, g) && !NamesDiffer(t, d, f, g);
    } else {
      var f, g :| f in b.held && g in b.held && f != g && b.held[f].name != "" && b.held[f].name == b.held[g].name;
      assert !NamesDiffer(t, d, f, g);
    }
  }

  lemma FreshDiffers(s: Store, d: nat, b: Taken, f: nat, g: nat)
    requires WellFormed(s) && d in s && Readable(s, d) && NewBlock(s, b) && NamesFresh(s, d, b)
    ensures NamesDiffer(Grow(s, d, Some(b)), d, f, g)
  {
    assert NamesDiffer(s, d, f, g) && SlotOk(s, d, f) && SlotOk(s, d, g);
    GrownIn(s, d, b, d, f);
    GrownIn(s, d, b, d, g);
    GrownNames(s, d, b);
    LookupSpec(s, d, NameOf(s, f));
    LookupSpec(s, d, NameOf(s, g));
    hide WellFormed, Grow, DirLookup, In, Lists, Readable;
  }

  /** A store stays well formed if and only if the names in the block are fresh and what
      its structures list is in no other directory. */
  lemma WellFormedExact(s: Store, d: nat, b: Taken)
    requires WellFormed(s) && d in s && Readable(s, d) && NewBlock(s, b)
    ensures WellFormed(Grow(s, d, Some(b))) <==> NamesFresh(s, d, b) && ContentsApart(s, b)
  {
    NamesExact(s, d, b);
    if NamesFresh(s, d, b) && ContentsApart(s, b) {
      ApartKeeps(s, d, b);
    } else if WellFormed(Grow(s, d, Some(b))) {
      KeptApart(s, d, b);
    }
  }

  lemma ApartKeeps(s: Store, d: nat, b: Taken)
    requires WellFormed(s) && d in s && Readable(s, d) && NewBlock(s, b) && NamesFresh(s, d, b) && ContentsApart(s, b)
    ensures WellFormed(Grow(s, d, Some(b)))
  {
    var t := Grow(s, d, Some(b));
    forall c, g ensures SlotOk(t, c, g) {
      GrownIn(s, d, b, c, g);
      assert SlotOk(s, c, g);
    }
    forall c, e, g ensures OneHome(t, c, e, g) {
      ApartHomes(s, d, b, c, e, g);
    }
    forall c, f, g ensures NamesDiffer(t, c, f, g) {
      ApartNames(s, d, b, c, f, g);
    }
    hide Grow, NewBlock;
  }

  lemma ApartHomes(s: Store, d: nat, b: Taken, c: nat, e: nat, g: nat)
    requires WellFormed(s) && d in s && NewBlock(s, b) && ContentsApart(s, b)
    ensures OneHome(Grow(s, d, Some(b)), c, e, g)
  {
    GrownIn(s, d, b, c, g);
    GrownIn(s, d, b, e, g);
    assert OneHome(s, c, e, g) && SlotOk(s, c, g) && SlotOk(s, e, g);
    hide Grow, WellFormed, NameOf, Lists, In;
  }

  lemma ApartNames(s: Store, d: nat, b: Taken, c: nat, f: nat, g: nat)
    requires WellFormed(s) && d in s && Readable(s, d) && NewBlock(s, b) && NamesFresh(s, d, b) && ContentsApart(s, b)
    ensures NamesDiffer(Grow(s, d, Some(b)), c, f, g)
  {
    hide *;
    if c == d {
      FreshDiffers(s, d, b, f, g);
    } else if c in b.held {
      HeldDiffer(s, d, b, c, f, g);
    } else {
      OldDiffer(s, d, b, c, f, g);
    }
  }

  lemma HeldDiffer(s: Store, d: nat, b: Taken, c: nat, f: nat, g: nat)
    requires d in s && NewBlock(s, b) && ContentsApart(s, b) && c in b.held
    ensures NamesDiffer(Grow(s, d, Some(b)), c, f, g)
  {
    GrownIn(s, d, b, c, f);
    GrownIn(s, d, b, c, g);
    GrownNames(s, d, b);
    assert c !in s && !In(s, c, f) && !In(s, c, g);
    hide Grow, NameOf, Lists, In, Homeless;
  }

  lemma OldDiffer(s: Store, d: nat, b: Taken, c: nat, f: nat, g: nat)
    requires WellFormed(s) && d in s && NewBlock(s, b) && c != d && c !in b.held
    ensures NamesDiffer(Grow(s, d, Some(b)), c, f, g)
  {
    GrownIn(s, d, b, c, f);
    GrownIn(s, d, b, c, g);
    GrownNames(s, d, b);
    assert NamesDiffer(s, c, f, g) && SlotOk(s, c, f) && SlotOk(s, c, g);
    hide Grow, WellFormed, NameOf, Lists, In;
  }

  lemma KeptApart(s: Store, d: nat, b: Taken)
    requires WellFormed(s) && d in s && NewBlock(s, b) && WellFormed(Grow(s, d, Some(b)))
    ensures ContentsApart(s, b)
  {
    var t := Grow(s, d, Some(b));
    forall c, g
      ensures In(t, c, g) <==> In(s, c, g) || (c == d && g in b.held) || (c in b.held && Lists(b.held[c], g))
    {
      GrownIn(s, d, b, c, g);
    }
    forall f, g | f in b.held && Lists(b.held[f], g) ensures g in s && Homeless(s, g) {
      assert OneHome(t, f, d, g);
      forall c ensures !In(s, c, g) {
        assert OneHome(t, f, c, g) && (In(s, c, g) ==> c in s);
      }
    }
    forall f, e, g | f in b.held && e in b.held && f != e ensures !Lists(b.held[f], g) || !Lists(b.held[e], g) {
      assert OneHome(t, f, e, g);
    }
    GrownNames(s, d, b);
    forall f, g, h | f in b.held && Lists(b.held[f], g) && Lists(b.held[f], h) && g != h
      ensures NameOf(s, g) == "" || NameOf(s, g) != NameOf(s, h)
    {
      assert NamesDiffer(t, f, g, h);
    }
  }

  /** A block that cannot be had spoils no names; but from then on a name that is not in
      the directory is an unreadable block there. */
  lemma NoGrowth(s: Store, d: nat)
    requires d in s
    ensures forall c, n | c in s ::
              var was, now := DirLookup(s, c, n), DirLookup(Grow(s, d, None), c, n);
              now == if c == d && was.Miss? then IoError else was
    ensures Listed(s) ==> Listed(Grow(s, d, None))
    ensures WellFormed(s) ==> WellFormed(Grow(s, d, None))
  {
    var t := Grow(s, d, None);
    forall c, n | c in s
      ensures var was := DirLookup(s, c, n); DirLookup(t, c, n) == if c == d && was.Miss? then IoError else was
    {
      FindInSame(s, t, s[c].blocks, n);
      FindInAppend(t, s[c].blocks, Unreadable, n);
    }
    forall c, g ensures In(t, c, g) <==> In(s, c, g) {
      if c == d {
        assert forall x <- s[d].blocks :: x in t[d].blocks;
        assert forall x <- t[d].blocks :: x in s[d].blocks || x == Unreadable;
      }
    }
    forall g ensures NameOf(t, g) == NameOf(s, g) {}
    if WellFormed(s) {
      forall c, g ensures SlotOk(t, c, g) {
        assert SlotOk(s, c, g);
      }
      forall c, e, g ensures OneHome(t, c, e, g) {
        assert OneHome(s, c, e, g);
      }
      forall c, f, g ensures NamesDiffer(t, c, f, g) {
        assert NamesDiffer(s, c, f, g);
      }
    }
  }

  /** A structure of a page that was cleared. */
  function Blank(): File {
    File("", false, [])
  }

  /** A block that was cleared brings nothing. */
  lemma BlankHarmless(s: Store, d: nat, b: Taken, name: string)
    requires NewBlock(s, b) && d in s && !DirLookup(s, d, name).Hit? && forall f <- b.held :: b.held[f] == Blank()
    ensures HasFirst(b) && NamesKnown(s, d, name, b) && PathsKnown(s, d, name, b)
    ensures NamesFresh(s, d, Named(b, name)) && ContentsApart(s, b)
  {
    assert b.ids[0] in b.ids;
    forall f <- b.held ensures b.held[f].name == "" && b.held[f].blocks == [] {}
  }

  // ------------------------------------------------------------ creating a file

  /** The store t after f has been created at p: what p and the other paths lead to. */
  ghost predicate Created(s: Store, t: Store, root: nat, p: string, got: Option<Taken>, f: nat)
    requires Resolve(s, root, p).Missing? && (got.Some? ==> HasFirst(got.value))
  {
    var Missing(d, name) := Resolve(s, root, p);
    Resolve(t, root, p) == Found(Some(d), f) &&
    (forall q | Resolve(s, root, q).Found? :: Resolve(t, root, q) == Resolve(s, root, q)) &&
    ((forall q :: Opened(s, t, root, d, name, f, q)) <==>
      (Grows(s, d) && got.Some? ==> PathsKnown(s, d, name, got.value))) &&
    (SameBut(s, t, d, name) <==> (Grows(s, d) && got.Some? ==> NamesKnown(s, d, name, got.value)))
  }

  /** What the block must hold for names to stay unique, if the directory grows by it. */
  ghost predicate NamesKept(s: Store, root: nat, p: string, got: Option<Taken>)
    requires Resolve(s, root, p).Missing? && (got.Some? ==> HasFirst(got.value))
  {
    var Missing(d, name) := Resolve(s, root, p);
    Grows(s, d) && got.Some? ==> NamesFresh(s, d, Named(got.value, name)) && ContentsApart(s, got.value)
  }

  /** Creating a file in a directory that has to grow. */
  lemma GrowthCreates(s: Store, root: nat, p: string, d: nat, name: string, b: Taken)
    requires Listed(s) && Resolve(s, root, p) == Missing(d, name) && d in s && Readable(s, d) && Grows(s, d)
    requires NewBlock(s, b)
    ensures var grown := Grow(s, d, Some(b));
            b.ids[0] in grown &&
            var t := SetName(grown, b.ids[0], name);
            && Listed(t) && Created(s, t, root, p, Some(b), b.ids[0])
            && (WellFormed(s) ==> (WellFormed(t) <==> NamesKept(s, root, p, Some(b))))
  {
    FoldMissing(s, None, root, Components(p));
    NamedGrow(s, d, b, name);
    GrownKeeps(s, d, Named(b, name));
    LookupsExact(s, d, b, name);
    CreateOpens(s, Grow(s, d, Some(Named(b, name))), root, p, d, name);
    NamedContents(s, b, name);
    if WellFormed(s) {
      WellFormedExact(s, d, Named(b, name));
    }
  }

  lemma NamedContents(s: Store, b: Taken, name: string)
    requires HasFirst(b)
    ensures ContentsApart(s, Named(b, name)) <==> ContentsApart(s, b)
  {
    var c := Named(b, name);
    forall f, g | f in b.held ensures Lists(c.held[f], g) <==> Lists(b.held[f], g) {}
  }

  /** Creating a file in an unused structure. */
  lemma NamingCreates(s: Store, root: nat, p: string, d: nat, name: string, got: Option<Taken>, f: nat)
    requires Listed(s) && Resolve(s, root, p) == Missing(d, name) && d in s && DirLookup(s, d, "") == Hit(f)
    requires got.Some? ==> HasFirst(got.value)
    ensures f in s && Listed(SetName(s, f, name))
    ensures WellFormed(s) ==> Created(s, SetName(s, f, name), root, p, got, f) && WellFormed(SetName(s, f, name))
  {
    LookupSpec(s, d, "");
    FoldMissing(s, None, root, Components(p));
    ComponentsPlain(p);
    var t := SetName(s, f, name);
    forall c, g | In(t, c, g) ensures In(s, c, g) {}
    if WellFormed(s) {
      NamingKeeps(s, d, f, name);
      CreateOpens(s, t, root, p, d, name);
    }
  }

  // ------------------------------------------------ what a block of words holds

  function ByteAt(t: V.Table, k: nat): nat
    requires k < V.BY2BLK
  {
    var w := t[k / 4];
    (match k % 4
     case 0 => w
     case 1 => w / 0x100
     case 2 => w / 0x1_0000
     case _ => w / 0x100_0000) % 0x100
  }

  /** The string that strcmp sees at byte k. It may run on into the fields after the
      name. */
  function CString(t: V.Table, k: nat): string
    decreases V.BY2BLK - k
  {
    if k >= V.BY2BLK || ByteAt(t, k) == 0 then "" else [ByteAt(t, k) as char] + CString(t, k + 1)
  }

  /** It is the bytes up to the first that is 0, or to the end of the block. */
  lemma {:induction false} CStringMeans(t: V.Table, k: nat)
    requires k <= V.BY2BLK
    ensures var n := |CString(t, k)|;
            && k + n <= V.BY2BLK && (k + n < V.BY2BLK ==> ByteAt(t, k + n) == 0)
            && forall i | 0 <= i < n :: CString(t, k)[i] as int == ByteAt(t, k + i) != 0
    decreases V.BY2BLK - k
  {
    if k < V.BY2BLK && ByteAt(t, k) != 0 {
      CStringMeans(t, k + 1);
    }
    hide ByteAt;
  }

  const FTYPE_DIR: nat := 1

  /** The name of structure j. */
  function NameAt(t: V.Table, j: nat): string {
    CString(t, 256 * j)
  }

  /** Structure j of block t, read as file f. What a directory lists is in other
      blocks; here there is only how many. */
  predicate Decodes(t: V.Table, j: nat, f: File) {
    f.name == NameAt(t, j) && j < FILE2BLK && f.isDir == (t[64 * j + 33] == FTYPE_DIR) &&
    |f.blocks| == if f.isDir then G.FileAt(t, j).size / V.BY2BLK else 0
  }

  ghost predicate HoldsTable(t: V.Table, b: Taken) {
    |b.ids| == FILE2BLK && (forall f <- b.held :: f in b.ids) &&
    (forall j, k | 0 <= j < k < FILE2BLK :: b.ids[j] != b.ids[k]) &&
    forall j | 0 <= j < FILE2BLK :: b.ids[j] in b.held && Decodes(t, j, b.held[b.ids[j]])
  }

  /** The conditions on the words of the block: structures 1 to 15. */
  predicate WordsKnown(s: Store, d: nat, name: string, t: V.Table) {
    forall j | 1 <= j < FILE2BLK :: KnownName(s, d, name, NameAt(t, j))
  }

  predicate PathWordsKnown(s: Store, d: nat, name: string, t: V.Table) {
    forall j | 1 <= j < FILE2BLK :: Plain(NameAt(t, j)) ==> KnownName(s, d, name, NameAt(t, j))
  }

  lemma HoldsAt(t: V.Table, b: Taken, j: nat)
    requires HoldsTable(t, b) && j < FILE2BLK
    ensures HasFirst(b) && |b.ids| == FILE2BLK && b.ids[j] in b.held && b.held[b.ids[j]].name == NameAt(t, j)
    ensures j > 0 ==> b.ids[j] != b.ids[0]
  {
    assert Decodes(t, j, b.held[b.ids[j]]) && b.ids[0] in b.held;
    hide Decodes, NameAt;
  }

  lemma IndexOf(t: V.Table, b: Taken, f: nat) returns (j: nat)
    requires HoldsTable(t, b) && f in b.held
    ensures j < FILE2BLK == |b.ids| && b.ids[j] == f && Decodes(t, j, b.held[f]) && b.held[f].name == NameAt(t, j)
  {
    j :| j < |b.ids| && b.ids[j] == f;
    assert Decodes(t, j, b.held[b.ids[j]]);
    hide NameAt;
  }

  lemma WordsExact(s: Store, d: nat, name: string, t: V.Table, b: Taken)
    requires HoldsTable(t, b)
    ensures HasFirst(b)
    ensures NamesKnown(s, d, name, b) <==> WordsKnown(s, d, name, t)
    ensures PathsKnown(s, d, name, b) <==> PathWordsKnown(s, d, name, t)
  {
    HoldsAt(t, b, 0);
    hide *;
    forall n ensures InRest(b, n) <==> InWords(t, n) {
      RestWords(t, b, n);
    }
    KnownRest(s, d, name, b);
    KnownWords(s, d, name, t);
  }

  predicate InWords(t: V.Table, n: string) {
    exists j | 1 <= j < FILE2BLK :: NameAt(t, j) == n
  }

  lemma RestWords(t: V.Table, b: Taken, n: string)
    requires HoldsTable(t, b) && HasFirst(b)
    ensures InRest(b, n) <==> InWords(t, n)
  {
    if InRest(b, n) {
      var f :| f in b.held && f != b.ids[0] && b.held[f].name == n;
      var j := IndexOf(t, b, f);
    }
    if InWords(t, n) {
      var j: nat :| 1 <= j < FILE2BLK && NameAt(t, j) == n;
      HoldsAt(t, b, j);
    }
    hide HoldsTable, NameAt;
  }

  lemma KnownWords(s: Store, d: nat, name: string, t: V.Table)
    ensures WordsKnown(s, d, name, t) <==> forall n | InWords(t, n) :: KnownName(s, d, name, n)
    ensures PathWordsKnown(s, d, name, t) <==> forall n | InWords(t, n) :: Plain(n) ==> KnownName(s, d, name, n)
  {
    hide KnownName, Plain, NameAt;
    forall j | 1 <= j < FILE2BLK ensures InWords(t, NameAt(t, j)) {}
  }

  /** If the block a directory grows by was not mapped, it has been cleared, and brings
      nothing. */
  lemma UnmappedHarmless(v: V.Vol, e: nat, s: Store, d: nat, b: Taken, name: string)
    requires V.Owned(v) && e in v.files && !V.TakesStale(v, e, G.Next(v, e), true)
    requires V.MapBlock(v, e, G.Next(v, e), true).1.Ok?
    requires var u := V.Walk(v, e, G.Next(v, e), true).0;
             V.BlockOf(u, e, G.Next(v, e)) == 0 && G.GrowthBlock(v, e) !in u.mapped
    requires var (w, r) := V.MapBlock(v, e, G.Next(v, e), true); r.value in w.blk ==> HoldsTable(w.blk[r.value], b)
    requires NewBlock(s, b) && d in s && !DirLookup(s, d, name).Hit?
    ensures HasFirst(b) && NamesKnown(s, d, name, b) && PathsKnown(s, d, name, b)
    ensures NamesFresh(s, d, Named(b, name)) && ContentsApart(s, b)
  {
    G.MapsGrowth(v, e);
    hide *;
    ZeroBlank(b);
    BlankHarmless(s, d, b, name);
  }

  lemma ZeroBlank(b: Taken)
    requires HoldsTable(V.ZeroTable(), b)
    ensures forall f <- b.held :: b.held[f] == Blank()
  {
    forall f <- b.held ensures b.held[f] == Blank() {
      var j := IndexOf(V.ZeroTable(), b, f);
      ZeroDecodes(j, b.held[f]);
    }
    hide HoldsTable;
  }

  lemma ZeroDecodes(j: nat, f: File)
    requires Decodes(V.ZeroTable(), j, f)
    ensures f == Blank()
  {
    assert ByteAt(V.ZeroTable(), 256 * j) == 0;
  }

  // ------------------------------------------------------------ a concrete case

  function OneLetter(g: nat): string {
    [(97 + g % 26) as char]
  }

  /** A root directory with sixteen files in its one block. */
  function FullRoot(): Store {
    map g: nat | g <= 16 :: if g == 0 then File("/", true, [Slots(Upto(1))]) else File(OneLetter(g), false, [])
  }

  function Upto(g: nat): seq<nat> {
    seq(FILE2BLK, i requires 0 <= i => g + i)
  }

  /** The block that comes with an old directory entry in front, a name from elsewhere,
      and a name that is in the root already. */
  function OldBlock(): Taken {
    Taken(Upto(17), map g <- Upto(17) :: OldFile(g))
  }

  function OldFile(g: nat): File {
    if g == 17 then File("was", true, [])
    else if g == 18 then File("old", false, [])
    else if g == 19 then File(OneLetter(1), false, [])
    else Blank()
  }

  lemma UptoIn(g: nat, f: nat)
    ensures f in Upto(g) <==> g <= f < g + FILE2BLK
  {
    if g <= f < g + FILE2BLK {
      assert Upto(g)[f - g] == f;
    }
  }

  lemma FullRootIn(d: nat, f: nat)
    ensures In(FullRoot(), d, f) <==> d == 0 && 1 <= f <= 16
  {
    UptoIn(1, f);
    assert FullRoot()[0].blocks == [Slots(Upto(1))];
    assert Slots(Upto(1)) in FullRoot()[0].blocks;
  }

  lemma FullRootWell()
    ensures WellFormed(FullRoot()) && Readable(FullRoot(), 0)
  {
    var s := FullRoot();
    forall d, f ensures In(s, d, f) <==> d == 0 && 1 <= f <= 16 {
      FullRootIn(d, f);
    }
    forall d, f, g ensures NamesDiffer(s, d, f, g) {}
    forall d, f ensures SlotOk(s, d, f) {}
  }

  lemma OldBlockNew()
    ensures NewBlock(FullRoot(), OldBlock()) && OldBlock().ids[0] == 17
  {
    forall f: nat ensures f in OldBlock().ids <==> 17 <= f <= 32 {
      UptoIn(17, f);
    }
    forall f <- OldBlock().held ensures OldBlock().held[f] == OldFile(f) && OldFile(f).blocks == [] {}
  }

  lemma FullRootLookup(n: string)
    ensures |n| != 1 ==> DirLookup(FullRoot(), 0, n).Miss?
    ensures DirLookup(FullRoot(), 0, OneLetter(1)).Hit?
  {
    FullRootWell();
    LookupSpec(FullRoot(), 0, n);
    LookupSpec(FullRoot(), 0, OneLetter(1));
    if DirLookup(FullRoot(), 0, n).Hit? {
      FullRootIn(0, DirLookup(FullRoot(), 0, n).f);
    }
    FullRootIn(0, 1);
  }

  /** Creating "/new" in the full root: "/old", which led nowhere, leads to a file now,
      two files have one name, and "/new" is a directory. */
  lemma OldNamesReturn()
    ensures var s, b := FullRoot(), OldBlock();
            && WellFormed(s) && NewBlock(s, b)
            && Resolve(s, 0, "/new") == Missing(0, "new") && Resolve(s, 0, "/old") == Missing(0, "old")
            && var grown := Grow(s, 0, Some(b));
            && 17 in grown
            && var t := SetName(grown, 17, "new");
            && Resolve(t, 0, "/new") == Found(Some(0), 17) && t[17].isDir
            && Resolve(t, 0, "/old").Found? && !WellFormed(t)
  {
    var s, b := FullRoot(), OldBlock();
    FullRootWell();
    OldBlockNew();
    FullRootLookup("new");
    FullRootLookup("old");
    FullRootLookup("");
    assert 0 in s && s[0].isDir;
    OldBlockHolds();
    hide FullRoot, OldBlock;
    OldBlockBrings(s, b, "new", "old", OneLetter(1));
  }

  lemma OldBlockHolds()
    ensures var b := OldBlock();
            b.ids[0] == 17 && 17 in b.held && b.held[17].isDir &&
            18 in b.held && b.held[18].name == "old" && 19 in b.held && b.held[19].name == OneLetter(1)
  {
    OldBlockNew();
    UptoIn(17, 17);
    UptoIn(17, 18);
    UptoIn(17, 19);
  }

  lemma OldBlockBrings(s: Store, b: Taken, name: string, other: string, twice: string)
    requires WellFormed(s) && NewBlock(s, b) && 0 in s && s[0].isDir && Readable(s, 0) && Grows(s, 0)
    requires Plain(name) && DirLookup(s, 0, name).Miss? && Plain(other) && DirLookup(s, 0, other).Miss? && name != other
    requires b.ids[0] == 17 && 18 in b.held && b.held[18].name == other && 19 in b.held && b.held[19].name == twice
    requires twice != "" && DirLookup(s, 0, twice).Hit?
    ensures Resolve(s, 0, "/" + name) == Missing(0, name) && Resolve(s, 0, "/" + other) == Missing(0, other)
    ensures 17 in Grow(s, 0, Some(b))
    ensures var t := SetName(Grow(s, 0, Some(b)), 17, name);
            Resolve(t, 0, "/" + name) == Found(Some(0), 17) && Resolve(t, 0, "/" + other).Found? && !WellFormed(t)
  {
    WellListed(s);
    RootPath(s, name);
    RootPath(s, other);
    GrowthCreates(s, 0, "/" + name, 0, name, b);
    NamedGrow(s, 0, b, name);
    NameAppears(s, 0, b, name, other);
    var e := Named(b, name);
    assert e.held[18].name == other && e.held[19].name == twice;
    assert HasName(e, other) && !NamesFresh(s, 0, e);
    hide Resolve, WellFormed, NewBlock, DirLookup, Components, ContentsApart;
    GrownLookup(s, 0, e, 0, other);
    BlockLookup(s, 0, e, other);
    RootPath(Grow(s, 0, Some(e)), other);
  }

  lemma RootPath(s: Store, n: string)
    requires 0 in s && s[0].isDir && Plain(n)
    ensures Components("/" + n) == [n]
    ensures DirLookup(s, 0, n).Miss? ==> Resolve(s, 0, "/" + n) == Missing(0, n)
    ensures DirLookup(s, 0, n).Hit? ==> Resolve(s, 0, "/" + n).Found?
  {
    assert Join([n]) == "/" + n + "" == "/" + n;
    JoinComponents([n]);
    assert [n][1..] == [];
    if DirLookup(s, 0, n).Hit? {
      assert Fold(s, Some(0), DirLookup(s, 0, n).f, [n][1..]).Found?;
    }
  }
}
