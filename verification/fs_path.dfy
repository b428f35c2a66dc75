/** Directories and path names: dir_lookup, walk_path, and what naming and clearing a
    structure do to lookups and paths. File structures are named by identity. */
module Paths {
  import opened Wrappers

  const MAXNAMELEN: nat := 128
  const FILE2BLK: nat := 16

  datatype Error = NotFound | BadPath | FileExists | Io

  /** One block of a directory: its File structures, or a block that
      file_get_block cannot deliver. */
  datatype Block = Slots(ids: seq<nat>) | Unreadable

  /** A File structure is unused exactly when its name is empty. A directory's
      length is a whole number of blocks; the blocks of other files are no File
      structures and left out. */
  datatype File = File(name: string, isDir: bool, blocks: seq<Block>)

  type Store = map<nat, File>

  function NameOf(s: Store, f: nat): string {
    if f in s then s[f].name else ""
  }

  // -------------------------------------------------------------- dir_lookup

  function FindSlot(s: Store, ids: seq<nat>, name: string): Option<nat> {
    if ids == [] then None
    else if NameOf(s, ids[0]) == name then Some(ids[0])
    else FindSlot(s, ids[1..], name)
  }

  datatype Lookup = Hit(f: nat) | Miss | IoError

  function FindIn(s: Store, blocks: seq<Block>, name: string): Lookup {
    if blocks == [] then Miss
    else if blocks[0].Unreadable? then IoError
    else
      match FindSlot(s, blocks[0].ids, name)
      case Some(f) => Hit(f)
      case None => FindIn(s, blocks[1..], name)
  }

  function DirLookup(s: Store, d: nat, name: string): Lookup {
    if d in s then FindIn(s, s[d].blocks, name) else Miss
  }

  // -------------------------------------------------------- path components

  /** The pieces between slashes, empty ones included. */
  function Split(p: string): seq<string> {
    if p == "" then [""]
    else if p[0] == '/' then [""] + Split(p[1..])
    else [[p[0]] + Split(p[1..])[0]] + Split(p[1..])[1..]
  }

  function NonEmpty(ws: seq<string>): seq<string> {
    if ws == [] then [] else (if ws[0] == "" then [] else [ws[0]]) + NonEmpty(ws[1..])
  }

  function Components(p: string): seq<string> {
    NonEmpty(Split(p))
  }

  // ----------------------------------------------------------------- walking

  /** `Found` carries the directory the file is in, unless it is the root. */
  datatype Walk =
    | Found(dir: Option<nat>, file: nat)
    | Missing(parent: nat, last: string)
    | Fail(error: Error)

  /** Looking up one component after the other from `cur`. */
  function Fold(s: Store, dir: Option<nat>, cur: nat, ws: seq<string>): Walk
    decreases |ws|
  {
    if ws == [] then Found(dir, cur)
    else if |ws[0]| >= MAXNAMELEN then Fail(BadPath)
    else if cur !in s || !s[cur].isDir then Fail(NotFound)
    else
      match DirLookup(s, cur, ws[0])
      case Hit(f) => Fold(s, Some(cur), f, ws[1..])
      case Miss => if |ws| == 1 then Missing(cur, ws[0]) else Fail(NotFound)
      case IoError => Fail(Io)
  }

  function Resolve(s: Store, root: nat, p: string): Walk {
    Fold(s, None, root, Components(p))
  }

  /** A slash at the front changes nothing; a word at the front is the first
      component. */
  lemma SlashSkipped(p: string)
    requires p != "" && p[0] == '/'
    ensures Components(p) == Components(p[1..])
  {
    assert Split(p)[1..] == Split(p[1..]);
  }

  lemma {:induction false} WordFirst(p: string, n: nat)
    requires n <= |p| && (forall k | 0 <= k < n :: p[k] != '/') && (n == |p| || p[n] == '/')
    ensures Split(p)[0] == p[..n]
    ensures Split(p)[1..] == if n == |p| then [] else Split(p[n + 1..])
    decreases n
  {
    if n > 0 {
      WordFirst(p[1..], n - 1);
      assert p[..n] == [p[0]] + p[1..][..n - 1];
      if n < |p| {
        assert p[n + 1..] == p[1..][n..];
      }
    }
  }

  lemma WordComponent(p: string, n: nat)
    requires 0 < n <= |p| && (forall k | 0 <= k < n :: p[k] != '/') && (n == |p| || p[n] == '/')
    ensures Components(p) == [p[..n]] + Components(p[n..])
  {
    WordFirst(p, n);
    if n < |p| {
      SlashSkipped(p[n..]);
      assert p[n..][1..] == p[n + 1..];
    } else {
      assert Components(p[n..]) == [];
    }
  }

  // ------------------------------------------------- creating and removing

  ghost predicate Lists(dir: File, f: nat) {
    exists b <- dir.blocks :: b.Slots? && f in b.ids
  }

  /** f is one of the File structures in directory d. */
  ghost predicate In(s: Store, d: nat, f: nat) {
    d in s && Lists(s[d], f)
  }

  /** Every structure in a directory is known. */
  ghost predicate Listed(s: Store) {
    forall d, f :: In(s, d, f) ==> f in s
  }

  ghost predicate SlotOk(s: Store, d: nat, f: nat) {
    In(s, d, f) ==> f in s && f != d
  }

  ghost predicate OneHome(s: Store, d: nat, e: nat, f: nat) {
    In(s, d, f) && In(s, e, f) ==> d == e
  }

  ghost predicate NamesDiffer(s: Store, d: nat, f: nat, g: nat) {
    In(s, d, f) && In(s, d, g) && f != g ==> NameOf(s, f) == "" || NameOf(s, f) != NameOf(s, g)
  }

  /** A File structure lies in at most one directory, and no two used ones in a
      directory have the same name. */
  ghost predicate WellFormed(s: Store) {
    (forall d, f :: SlotOk(s, d, f)) && (forall d, e, f :: OneHome(s, d, e, f)) &&
      (forall d, f, g :: NamesDiffer(s, d, f, g))
  }

  lemma WellListed(s: Store)
    requires WellFormed(s)
    ensures Listed(s)
  {
    forall d, f | In(s, d, f) ensures f in s {
      assert SlotOk(s, d, f);
    }
  }

  predicate Readable(s: Store, d: nat) {
    d in s ==> forall b <- s[d].blocks :: b.Slots?
  }

  lemma {:induction false} FindSlotSpec(s: Store, ids: seq<nat>, name: string)
    ensures FindSlot(s, ids, name).Some? ==>
              FindSlot(s, ids, name).value in ids && NameOf(s, FindSlot(s, ids, name).value) == name
    ensures FindSlot(s, ids, name).None? ==> forall f <- ids :: NameOf(s, f) != name
  {
    if ids != [] {
      FindSlotSpec(s, ids[1..], name);
    }
  }

  lemma {:induction false} FindInSpec(s: Store, blocks: seq<Block>, name: string)
    ensures FindIn(s, blocks, name).Hit? ==>
      NameOf(s, FindIn(s, blocks, name).f) == name &&
      exists b <- blocks :: b.Slots? && FindIn(s, blocks, name).f in b.ids
    ensures FindIn(s, blocks, name).Miss? ==>
      forall b <- blocks :: b.Slots? && forall f <- b.ids :: NameOf(s, f) != name
    ensures FindIn(s, blocks, name).IoError? ==> exists b <- blocks :: b.Unreadable?
  {
    if blocks != [] && blocks[0].Slots? {
      FindSlotSpec(s, blocks[0].ids, name);
      FindInSpec(s, blocks[1..], name);
    }
  }

  /** dir_lookup finds a structure of that name in the directory, and misses only
      if there is none and every block could be read. */
  lemma LookupSpec(s: Store, d: nat, name: string)
    ensures DirLookup(s, d, name).Hit? ==>
              In(s, d, DirLookup(s, d, name).f) && NameOf(s, DirLookup(s, d, name).f) == name
    ensures DirLookup(s, d, name).Miss? ==> Readable(s, d) && forall f | In(s, d, f) :: NameOf(s, f) != name
    ensures DirLookup(s, d, name).IoError? ==> !Readable(s, d)
  {
    if d in s {
      FindInSpec(s, s[d].blocks, name);
    }
  }

  /** If no structure in the blocks changes whether it is called `name`, neither
      does the result of looking it up. */
  lemma {:induction false} FindInSame(s: Store, t: Store, blocks: seq<Block>, name: string)
    requires forall b <- blocks :: b.Slots? ==> forall f <- b.ids :: NameOf(s, f) == name <==> NameOf(t, f) == name
    ensures FindIn(s, blocks, name) == FindIn(t, blocks, name)
  {
    if blocks != [] && blocks[0].Slots? {
      FindSlotSame(s, t, blocks[0].ids, name);
      FindInSame(s, t, blocks[1..], name);
    }
  }

  lemma {:induction false} FindSlotSame(s: Store, t: Store, ids: seq<nat>, name: string)
    requires forall f <- ids :: NameOf(s, f) == name <==> NameOf(t, f) == name
    ensures FindSlot(s, ids, name) == FindSlot(t, ids, name)
  {
    if ids != [] {
      FindSlotSame(s, t, ids[1..], name);
    }
  }

  lemma {:induction false} FindInAppend(s: Store, blocks: seq<Block>, b: Block, name: string)
    ensures FindIn(s, blocks + [b], name) ==
            if FindIn(s, blocks, name).Miss? then FindIn(s, [b], name) else FindIn(s, blocks, name)
  {
    if blocks != [] {
      assert (blocks + [b])[1..] == blocks[1..] + [b];
      FindInAppend(s, blocks[1..], b, name);
    } else {
      assert blocks + [b] == [b];
    }
  }

  function SetName(s: Store, f: nat, name: string): Store
    requires f in s
  {
    s[f := s[f].(name := name)]
  }

  /** A word that can be a component of a path. */
  predicate Plain(n: string) {
    n != "" && |n| < MAXNAMELEN && '/' !in n
  }

  /** t answers every lookup by name as s does, except that `name` in d has
      changed, and no directory has stopped being one. */
  ghost predicate SameBut(s: Store, t: Store, d: nat, name: string) {
    (forall c <- s :: c in t && t[c].isDir == s[c].isDir) &&
    (forall c, n | n != "" && !(c == d && n == name) && c in s && s[c].isDir ::
     DirLookup(t, c, n) == DirLookup(s, c, n))
  }

  /** The same of the names that a path can have. */
  ghost predicate SamePaths(s: Store, t: Store, d: nat, name: string) {
    (forall c <- s :: c in t && t[c].isDir == s[c].isDir) &&
    (forall c, n | Plain(n) && !(c == d && n == name) && c in s && s[c].isDir ::
     DirLookup(t, c, n) == DirLookup(s, c, n))
  }

  /** The same, except that more may be found in d. */
  ghost predicate Kept(s: Store, t: Store, d: nat) {
    (forall c <- s :: c in t && t[c].isDir == s[c].isDir) &&
    (forall c, n | Plain(n) && c in s && s[c].isDir && (c != d || DirLookup(s, c, n).Hit?) ::
     DirLookup(t, c, n) == DirLookup(s, c, n))
  }

  lemma NamingKeeps(s: Store, d: nat, f: nat, name: string)
    requires WellFormed(s) && In(s, d, f) && NameOf(s, f) == "" && name != "" && DirLookup(s, d, name).Miss?
    ensures f in s && WellFormed(SetName(s, f, name)) && SameBut(s, SetName(s, f, name), d, name)
    ensures DirLookup(SetName(s, f, name), d, name) == Hit(f)
  {
    assert SlotOk(s, d, f);
    var t := SetName(s, f, name);
    LookupSpec(s, d, name);
    LookupSpec(t, d, name);
    forall c, g ensures In(t, c, g) <==> In(s, c, g) {}
    forall c, g ensures SlotOk(t, c, g) {
      assert SlotOk(s, c, g);
    }
    forall c, e, g ensures OneHome(t, c, e, g) {
      assert OneHome(s, c, e, g);
    }
    forall c, g, h ensures NamesDiffer(t, c, g, h) {
      assert NamesDiffer(s, c, g, h) && OneHome(s, c, d, f);
    }
    forall c, n | n != "" && !(c == d && n == name) && c in s ensures DirLookup(t, c, n) == DirLookup(s, c, n) {
      forall b <- s[c].blocks | b.Slots? ensures forall g <- b.ids :: NameOf(s, g) == n <==> NameOf(t, g) == n {
        forall g <- b.ids ensures NameOf(s, g) == n <==> NameOf(t, g) == n {
          assert In(s, c, g) && OneHome(s, c, d, g);
        }
      }
      FindInSame(s, t, s[c].blocks, n);
    }
    assert In(t, d, f) && NameOf(t, f) == name && Readable(t, d);
    assert forall g | In(s, d, g) && g != f :: NameOf(t, g) != name;
  }

  // ------------------------------------------------------------ creating a file

  /** The components left over where a walk from `cur` finds no `name` in d, if
      that is where it ends. */
  function MissedAt(s: Store, cur: nat, ws: seq<string>, d: nat, name: string): Option<seq<string>>
    decreases |ws|
  {
    if ws == [] || |ws[0]| >= MAXNAMELEN || cur !in s || !s[cur].isDir then None
    else
      match DirLookup(s, cur, ws[0])
      case Hit(f) => MissedAt(s, f, ws[1..], d, name)
      case Miss => if cur == d && ws[0] == name then Some(ws[1..]) else None
      case IoError => None
  }

  /** Once d has a file of that name, a walk that missed it goes on there, and every
      other walk ends as before, with the same file or the same error. */
  lemma {:induction false} FoldNamed(s: Store, t: Store, d: nat, name: string, dir: Option<nat>, cur: nat,
                                     ws: seq<string>)
    requires SamePaths(s, t, d, name) && Listed(s) && cur in s && forall w <- ws :: w != "" && '/' !in w
    requires DirLookup(s, d, name).Miss? && DirLookup(t, d, name).Hit?
    ensures Fold(t, dir, cur, ws) ==
            match MissedAt(s, cur, ws, d, name)
            case Some(rest) => Fold(t, Some(d), DirLookup(t, d, name).f, rest)
            case None => Fold(s, dir, cur, ws)
    decreases |ws|
  {
    if ws != [] {
      assert ws[0] in ws;
      LookupSpec(s, cur, ws[0]);
    }
    if ws != [] && |ws[0]| < MAXNAMELEN && s[cur].isDir && DirLookup(s, cur, ws[0]).Hit? {
      assert forall w <- ws[1..] :: w in ws;
      FoldNamed(s, t, d, name, Some(cur), DirLookup(s, cur, ws[0]).f, ws[1..]);
    }
  }

  /** If nothing has stopped being found, neither has any path, and a walk that missed
      a name in d finds what is there now. */
  lemma {:induction false} FoldKept(s: Store, t: Store, d: nat, dir: Option<nat>, cur: nat, ws: seq<string>)
    requires Kept(s, t, d) && Listed(s) && cur in s && forall w <- ws :: w != "" && '/' !in w
    ensures Fold(s, dir, cur, ws).Found? ==> Fold(t, dir, cur, ws) == Fold(s, dir, cur, ws)
    ensures Fold(s, dir, cur, ws).Missing? && Fold(s, dir, cur, ws).parent == d ==>
              Fold(t, dir, cur, ws) ==
              match DirLookup(t, d, Fold(s, dir, cur, ws).last)
              case Hit(f) => Found(Some(d), f)
              case Miss => Missing(d, Fold(s, dir, cur, ws).last)
              case IoError => Fail(Io)
    decreases |ws|
  {
    if ws != [] {
      assert ws[0] in ws;
      LookupSpec(s, cur, ws[0]);
    }
    if ws != [] && |ws[0]| < MAXNAMELEN && s[cur].isDir && DirLookup(s, cur, ws[0]).Hit? {
      assert forall w <- ws[1..] :: w in ws;
      FoldKept(s, t, d, Some(cur), DirLookup(s, cur, ws[0]).f, ws[1..]);
    }
  }

  /** Where a walk missed one name it misses any other that is not there. */
  lemma {:induction false} FoldSibling(s: Store, dir: Option<nat>, cur: nat, ws: seq<string>, n: string)
    requires Fold(s, dir, cur, ws).Missing? && |n| < MAXNAMELEN && DirLookup(s, Fold(s, dir, cur, ws).parent, n).Miss?
    ensures Fold(s, dir, cur, ws[..|ws| - 1] + [n]) == Missing(Fold(s, dir, cur, ws).parent, n)
    decreases |ws|
  {
    var vs := ws[..|ws| - 1] + [n];
    if |ws| > 1 {
      assert DirLookup(s, cur, ws[0]).Hit?;
      FoldSibling(s, Some(cur), DirLookup(s, cur, ws[0]).f, ws[1..], n);
      assert vs[0] == ws[0] && vs[1..] == ws[1..][..|ws| - 2] + [n];
    }
  }

  /** A walk that misses a name misses no other. */
  lemma {:induction false} MissesOne(s: Store, d: nat, name: string, dir: Option<nat>, cur: nat, ws: seq<string>)
    ensures Fold(s, dir, cur, ws).Found? ==> MissedAt(s, cur, ws, d, name).None?
    ensures Fold(s, dir, cur, ws).Missing? ==>
              MissedAt(s, cur, ws, d, name) == if Fold(s, dir, cur, ws) == Missing(d, name) then Some([]) else None
    decreases |ws|
  {
    if ws != [] && cur in s && s[cur].isDir && DirLookup(s, cur, ws[0]).Hit? {
      MissesOne(s, d, name, Some(cur), DirLookup(s, cur, ws[0]).f, ws[1..]);
    }
    assert |ws| == 1 ==> ws[1..] == [];
  }

  lemma {:induction false} SplitPlain(p: string)
    ensures forall w <- Split(p) :: '/' !in w
  {
    if p != "" {
      SplitPlain(p[1..]);
      forall w <- Split(p) ensures '/' !in w {
        if p[0] != '/' && w == [p[0]] + Split(p[1..])[0] {
          assert Split(p[1..])[0] in Split(p[1..]);
        }
      }
    }
  }

  lemma {:induction false} NonEmptyFrom(ws: seq<string>)
    ensures forall w <- NonEmpty(ws) :: w != "" && w in ws
  {
    if ws != [] {
      NonEmptyFrom(ws[1..]);
    }
  }

  lemma ComponentsPlain(p: string)
    ensures forall w <- Components(p) :: w != "" && '/' !in w
  {
    SplitPlain(p);
    NonEmptyFrom(Split(p));
  }

  /** A path of given components. */
  function Join(ws: seq<string>): string {
    if ws == [] then "" else "/" + ws[0] + Join(ws[1..])
  }

  lemma {:induction false} JoinComponents(ws: seq<string>)
    requires forall w <- ws :: w != "" && '/' !in w
    ensures Components(Join(ws)) == ws
  {
    if ws == [] {
      assert Components("") == [];
    } else {
      var p, n := Join(ws), |ws[0]|;
      assert ws[0] in ws && forall w <- ws[1..] :: w in ws;
      SlashSkipped(p);
      assert p[1..] == ws[0] + Join(ws[1..]);
      WordComponent(p[1..], n);
      assert p[1..][n..] == Join(ws[1..]) && p[1..][..n] == ws[0];
      JoinComponents(ws[1..]);
    }
  }

  /** What file_remove leaves of a File structure: no blocks and no name. */
  function Cleared(s: Store, f: nat): Store
    requires f in s
  {
    s[f := File("", s[f].isDir, [])]
  }

  /** Clearing a structure keeps names unique, and finds nothing that was not there. */
  lemma ClearingKeeps(s: Store, f: nat)
    requires WellFormed(s) && f in s
    ensures WellFormed(Cleared(s, f))
    ensures forall c, g | In(Cleared(s, f), c, g) :: In(s, c, g)
  {
    var t := Cleared(s, f);
    forall c, g ensures In(t, c, g) ==> In(s, c, g) {}
    forall c, g ensures SlotOk(t, c, g) {
      assert SlotOk(s, c, g);
    }
    forall c, e, g ensures OneHome(t, c, e, g) {
      assert OneHome(s, c, e, g);
    }
    forall c, g, h ensures NamesDiffer(t, c, g, h) {
      assert NamesDiffer(s, c, g, h);
    }
  }

  /** Fewer names, fewer hits. */
  lemma {:induction false} FindInFewer(s: Store, t: Store, blocks: seq<Block>, name: string)
    requires forall h | NameOf(t, h) == name :: NameOf(s, h) == name
    ensures FindIn(t, blocks, name).Hit? ==> FindIn(s, blocks, name).Hit?
  {
    if blocks != [] && blocks[0].Slots? {
      FindSlotSpec(s, blocks[0].ids, name);
      FindSlotSpec(t, blocks[0].ids, name);
      FindInFewer(s, t, blocks[1..], name);
    }
  }

  /** After a structure is cleared a lookup hits exactly where it did before, but for
      that structure and in it. */
  lemma LookupCleared(s: Store, f: nat, c: nat, name: string)
    requires WellFormed(s) && f in s && name != ""
    ensures var was, now := DirLookup(s, c, name), DirLookup(Cleared(s, f), c, name);
            && (now.Hit? <==> was.Hit? && c != f && was.f != f)
            && (now.Hit? ==> now == was)
  {
    var t := Cleared(s, f);
    LookupSpec(s, c, name);
    LookupSpec(t, c, name);
    if c in s && c != f {
      FindInFewer(s, t, s[c].blocks, name);
      var was := DirLookup(s, c, name);
      if was.Hit? && was.f != f {
        forall b <- s[c].blocks | b.Slots? ensures forall h <- b.ids :: NameOf(s, h) == name <==> NameOf(t, h) == name {
          forall h <- b.ids ensures NameOf(s, h) == name <==> NameOf(t, h) == name {
            assert In(s, c, h) && NamesDiffer(s, c, was.f, h);
          }
        }
        FindInSame(s, t, s[c].blocks, name);
      } else if was.Hit? {
        ClearedMisses(s, f, c, name);
      }
    }
  }

  lemma ClearedMisses(s: Store, f: nat, c: nat, name: string)
    requires WellFormed(s) && f in s && name != "" && DirLookup(s, c, name) == Hit(f)
    ensures !DirLookup(Cleared(s, f), c, name).Hit?
  {
    var t := Cleared(s, f);
    LookupSpec(s, c, name);
    LookupSpec(t, c, name);
    ClearingKeeps(s, f);
    forall h | In(t, c, h) ensures NameOf(t, h) != name {
      assert In(s, c, h) && NamesDiffer(s, c, f, h);
    }
  }

  /** The walk along ws from cur comes through file f, its start and its end
      included. */
  predicate Through(s: Store, cur: nat, ws: seq<string>, f: nat)
    decreases |ws|
  {
    cur == f || (ws != [] && DirLookup(s, cur, ws[0]).Hit? && Through(s, DirLookup(s, cur, ws[0]).f, ws[1..], f))
  }

  /** Clearing a file cuts off exactly the walks that come through it. */
  lemma {:induction false} FoldCleared(s: Store, f: nat, dir: Option<nat>, cur: nat, ws: seq<string>)
    requires WellFormed(s) && f in s && forall w <- ws :: w != ""
    ensures var was, now := Fold(s, dir, cur, ws), Fold(Cleared(s, f), dir, cur, ws);
            && (now.Found? <==> was.Found? && (ws == [] || !Through(s, cur, ws, f)))
            && (now.Found? ==> now == was)
    decreases |ws|
  {
    if ws != [] && |ws[0]| < MAXNAMELEN && cur in s && s[cur].isDir {
      var t := Cleared(s, f);
      assert ws[0] in ws && forall w <- ws[1..] :: w in ws;
      LookupCleared(s, f, cur, ws[0]);
      var was := DirLookup(s, cur, ws[0]);
      if was.Hit? {
        FoldCleared(s, f, Some(cur), was.f, ws[1..]);
      }
    }
  }

  /** The last lookup of a successful walk. */
  lemma {:induction false} FoldLast(s: Store, dir: Option<nat>, cur: nat, ws: seq<string>)
    requires Fold(s, dir, cur, ws).Found? && ws != []
    ensures var Found(d, f) := Fold(s, dir, cur, ws);
            d.Some? && d.value in s && s[d.value].isDir && DirLookup(s, d.value, ws[|ws| - 1]) == Hit(f)
    decreases |ws|
  {
    if |ws| > 1 {
      FoldLast(s, Some(cur), DirLookup(s, cur, ws[0]).f, ws[1..]);
    } else {
      assert Fold(s, Some(cur), DirLookup(s, cur, ws[0]).f, ws[1..]) == Found(Some(cur), DirLookup(s, cur, ws[0]).f);
    }
  }

  lemma {:induction false} FoldMissing(s: Store, dir: Option<nat>, cur: nat, ws: seq<string>)
    requires Fold(s, dir, cur, ws).Missing?
    ensures var Missing(d, name) := Fold(s, dir, cur, ws);
            d in s && s[d].isDir && DirLookup(s, d, name).Miss? && |name| < MAXNAMELEN && cur in s &&
            ws != [] && name == ws[|ws| - 1]
    decreases |ws|
  {
    if DirLookup(s, cur, ws[0]).Hit? {
      FoldMissing(s, Some(cur), DirLookup(s, cur, ws[0]).f, ws[1..]);
    }
  }

  predicate PathThrough(s: Store, root: nat, p: string, f: nat) {
    Through(s, root, Components(p), f)
  }

  /** q leads to a file after f is cleared exactly if it did and did not come
      through f, and then to the same one. The root itself is always found. */
  ghost predicate CutOff(s: Store, t: Store, root: nat, f: nat, q: string) {
    var was, now := Resolve(s, root, q), Resolve(t, root, q);
    (now.Found? <==> was.Found? && (Components(q) == [] || !PathThrough(s, root, q, f))) && (now.Found? ==> now == was)
  }

  /** Path q after f has been made in d under that name: a walk that missed the name
      there goes on in f, and any other ends as before. */
  ghost predicate Opened(s: Store, t: Store, root: nat, d: nat, name: string, f: nat, q: string) {
    Resolve(t, root, q) ==
      match MissedAt(s, root, Components(q), d, name)
      case Some(rest) => Fold(t, Some(d), f, rest)
      case None => Resolve(s, root, q)
  }

  /** If nothing has stopped being found, a path that was missing leads to the file
      now made, every path to a file leads there still, and the other paths are as
      they were if and only if no other name has appeared that a path can have. */
  lemma CreateOpens(s: Store, t: Store, root: nat, p: string, d: nat, name: string)
    requires Resolve(s, root, p) == Missing(d, name) && Listed(s) && Kept(s, t, d) && DirLookup(t, d, name).Hit?
    ensures Resolve(t, root, p) == Found(Some(d), DirLookup(t, d, name).f)
    ensures forall q | Resolve(s, root, q).Found? :: Resolve(t, root, q) == Resolve(s, root, q)
    ensures (forall q :: Opened(s, t, root, d, name, DirLookup(t, d, name).f, q)) <==> SamePaths(s, t, d, name)
  {
    FoldMissing(s, None, root, Components(p));
    ComponentsPlain(p);
    FoldKept(s, t, d, None, root, Components(p));
    forall q | Resolve(s, root, q).Found? ensures Resolve(t, root, q) == Resolve(s, root, q) {
      ComponentsPlain(q);
      FoldKept(s, t, d, None, root, Components(q));
    }
    if SamePaths(s, t, d, name) {
      forall q ensures Opened(s, t, root, d, name, DirLookup(t, d, name).f, q) {
        ComponentsPlain(q);
        FoldNamed(s, t, d, name, None, root, Components(q));
      }
    } else {
      var c, n :| Plain(n) && !(c == d && n == name) && c in s && s[c].isDir &&
                  DirLookup(t, c, n) != DirLookup(s, c, n);
      NewName(s, t, root, p, d, name, n);
    }
  }

  /** A name that has appeared besides is found by a path that led nowhere. */
  lemma NewName(s: Store, t: Store, root: nat, p: string, d: nat, name: string, n: string)
    requires Resolve(s, root, p) == Missing(d, name) && Listed(s) && Kept(s, t, d) && DirLookup(t, d, name).Hit?
    requires Plain(n) && n != name && !DirLookup(s, d, n).Hit? && DirLookup(t, d, n) != DirLookup(s, d, n)
    ensures var q := Join(Components(p)[..|Components(p)| - 1] + [n]);
            Resolve(s, root, q) == Missing(d, n) && !Opened(s, t, root, d, name, DirLookup(t, d, name).f, q)
    ensures DirLookup(t, d, n).Hit? ==>
      Resolve(t, root, Join(Components(p)[..|Components(p)| - 1] + [n])) == Found(Some(d), DirLookup(t, d, n).f)
  {
    var ws := Components(p);
    var vs := ws[..|ws| - 1] + [n];
    FoldMissing(s, None, root, ws);
    ComponentsPlain(p);
    forall w <- vs ensures w != "" && '/' !in w {
      assert w in ws || w == n;
    }
    LookupSpec(s, d, name);
    LookupSpec(s, d, n);
    FoldSibling(s, None, root, ws, n);
    JoinComponents(vs);
    FoldKept(s, t, d, None, root, vs);
    MissesOne(s, d, name, None, root, vs);
  }

  /** The new file is the end of every path through it unless its structure came as a
      directory in which something is found. */
  lemma NewFileEnds(t: Store, d: nat, f: nat)
    ensures (forall rest | rest != [] && PlainAll(rest) :: !Fold(t, Some(d), f, rest).Found?) <==>
            !(f in t && t[f].isDir) || forall n | Plain(n) :: !DirLookup(t, f, n).Hit?
  {
    if f in t && t[f].isDir {
      forall n | Plain(n) && DirLookup(t, f, n).Hit?
        ensures [n] != [] && PlainAll([n]) && Fold(t, Some(d), f, [n]).Found?
      {
        assert Fold(t, Some(f), DirLookup(t, f, n).f, [n][1..]).Found?;
      }
      forall rest | rest != [] && PlainAll(rest) ensures Plain(rest[0]) {
        assert rest[0] in rest;
      }
    }
  }

  predicate PlainAll(ws: seq<string>) {
    forall w <- ws :: Plain(w)
  }

  /** Removing a file, or a directory with all that is in it, or the root: exactly
      the paths that came through it lead nowhere any more. */
  lemma RemoveCloses(s: Store, root: nat, f: nat)
    requires WellFormed(s) && f in s
    ensures WellFormed(Cleared(s, f)) && forall q :: CutOff(s, Cleared(s, f), root, f, q)
  {
    ClearingKeeps(s, f);
    forall q ensures CutOff(s, Cleared(s, f), root, f, q) {
      ComponentsPlain(q);
      FoldCleared(s, f, None, root, Components(q));
    }
  }

  /** A path to a file comes through it. */
  lemma {:induction false} FoundThrough(s: Store, dir: Option<nat>, cur: nat, ws: seq<string>)
    requires Fold(s, dir, cur, ws).Found?
    ensures Through(s, cur, ws, Fold(s, dir, cur, ws).file)
    decreases |ws|
  {
    if ws != [] {
      FoundThrough(s, Some(cur), DirLookup(s, cur, ws[0]).f, ws[1..]);
    }
  }

  /** And a regular file ends every path that comes through it. */
  lemma {:induction false} RegularEnds(s: Store, dir: Option<nat>, cur: nat, ws: seq<string>, f: nat)
    requires Fold(s, dir, cur, ws).Found? && Through(s, cur, ws, f) && f in s && !s[f].isDir
    ensures Fold(s, dir, cur, ws).file == f
    decreases |ws|
  {
    if ws != [] {
      RegularEnds(s, Some(cur), DirLookup(s, cur, ws[0]).f, ws[1..], f);
    }
  }

  /** Where every block of its directory can be read, a removed regular file is
      simply missing there. */
  lemma {:induction false} FoldRemoved(s: Store, f: nat, dir: Option<nat>, cur: nat, ws: seq<string>)
    requires WellFormed(s) && f in s && !s[f].isDir && (forall w <- ws :: w != "") && ws != []
    requires Fold(s, dir, cur, ws).Found? && Fold(s, dir, cur, ws).file == f
    requires Fold(s, dir, cur, ws).dir.Some? && Readable(s, Fold(s, dir, cur, ws).dir.value)
    ensures Fold(Cleared(s, f), dir, cur, ws) == Missing(Fold(s, dir, cur, ws).dir.value, ws[|ws| - 1])
    decreases |ws|
  {
    assert ws[0] in ws && forall w <- ws[1..] :: w in ws;
    LookupCleared(s, f, cur, ws[0]);
    var g := DirLookup(s, cur, ws[0]).f;
    if |ws| == 1 {
      assert Fold(s, Some(cur), g, ws[1..]) == Found(Some(cur), g);
      LookupSpec(Cleared(s, f), cur, ws[0]);
    } else {
      FoldRemoved(s, f, Some(cur), g, ws[1..]);
    }
  }

  lemma FoundExists(s: Store, dir: Option<nat>, cur: nat, ws: seq<string>)
    requires cur in s && Fold(s, dir, cur, ws).Found? && forall w <- ws :: w != ""
    ensures Fold(s, dir, cur, ws).file in s
  {
    if ws != [] {
      FoldLast(s, dir, cur, ws);
      var Found(d, f) := Fold(s, dir, cur, ws);
      assert ws[|ws| - 1] in ws;
      LookupSpec(s, d.value, ws[|ws| - 1]);
    }
  }

  lemma StillListed(s: Store, f: nat)
    requires Listed(s) && f in s
    ensures Listed(Cleared(s, f))
  {
    forall c, g | In(Cleared(s, f), c, g) ensures In(s, c, g) {}
  }

  lemma FoldOne(s: Store, dir: Option<nat>, cur: nat, name: string, rest: seq<string>)
    ensures Fold(s, dir, cur, [name] + rest) ==
            if |name| >= MAXNAMELEN then Fail(BadPath)
            else if cur !in s || !s[cur].isDir then Fail(NotFound)
            else
              match DirLookup(s, cur, name)
              case Hit(f) => Fold(s, Some(cur), f, rest)
              case Miss => if rest == [] then Missing(cur, name) else Fail(NotFound)
              case IoError => Fail(Io)
  {
    assert ([name] + rest)[1..] == rest;
  }

  lemma LastComponent(p: string)
    requires p == "" || p[0] != '/'
    ensures Components(p) == [] <==> p == ""
  {
    if p != "" {
      assert Split(p)[0] != "";
    }
  }
}
