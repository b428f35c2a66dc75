/** The server's code over its tree of directories: dir_lookup, walk_path,
    dir_alloc_file, file_create, file_open and file_remove. */
module FileTree {
  import opened Wrappers
  import opened Paths
  import opened DirNames

  class Tree {
    const root: nat
    var store: Store

    method FindInDir(d: nat, name: string) returns (r: Lookup)
      requires d in store
      ensures r == DirLookup(store, d, name)
    {
      var i := 0;
      while i < |store[d].blocks|
        invariant 0 <= i <= |store[d].blocks|
        invariant FindIn(store, store[d].blocks[i..], name) == DirLookup(store, d, name)
      {
        if store[d].blocks[i].Unreadable? {
          return IoError;
        }
        var ids := store[d].blocks[i].ids;
        var j := 0;
        while j < |ids|
          invariant 0 <= j <= |ids|
          invariant FindSlot(store, ids[j..], name) == FindSlot(store, ids, name)
        {
          if NameOf(store, ids[j]) == name {
            return Hit(ids[j]);
          }
          j := j + 1;
        }
        i := i + 1;
      }
      r := Miss;
    }

    /** Skip over slashes. */
    method SkipSlash(p: string, i: nat) returns (j: nat)
      requires i <= |p|
      ensures i <= j <= |p| && (j < |p| ==> p[j] != '/')
      ensures Components(p[j..]) == Components(p[i..])
    {
      j := i;
      while j < |p| && p[j] == '/'
        invariant i <= j <= |p| && Components(p[j..]) == Components(p[i..])
      {
        SlashSkipped(p[j..]);
        assert p[j..][1..] == p[j + 1..];
        j := j + 1;
      }
    }

    /** One component: the characters up to the next slash, then the slashes. */
    method NextWord(p: string, i: nat) returns (name: string, j: nat)
      requires i < |p| && p[i] != '/'
      ensures i < j <= |p| && (j < |p| ==> p[j] != '/')
      ensures Components(p[i..]) == [name] + Components(p[j..])
      ensures Components(p[j..]) == [] <==> j == |p|
    {
      j := i;
      while j < |p| && p[j] != '/'
        invariant i <= j <= |p|
        invariant forall k | i <= k < j :: p[k] != '/'
      {
        j := j + 1;
      }
      name := p[i..j];
      WordComponent(p[i..], j - i);
      assert p[i..][..j - i] == name && p[i..][j - i..] == p[j..];
      j := SkipSlash(p, j);
      LastComponent(p[j..]);
    }

    /** walk_path is the fold of dir_lookup over the nonempty components. */
    method WalkPath(p: string) returns (r: Walk)
      ensures r == Resolve(store, root, p)
    {
      var i := SkipSlash(p, 0);
      assert p[0..] == p;
      var file, dir := root, None;
      while i < |p|
        invariant 0 <= i <= |p| && (i < |p| ==> p[i] != '/')
        invariant Fold(store, dir, file, Components(p[i..])) == Resolve(store, root, p)
        decreases |p| - i
      {
        var name, j := NextWord(p, i);
        FoldOne(store, dir, file, name, Components(p[j..]));
        i := j;
        if |name| >= MAXNAMELEN {
          return Fail(BadPath);
        }
        if file !in store || !store[file].isDir {
          return Fail(NotFound);
        }
        var hit := FindInDir(file, name);
        match hit
        case Hit(f) =>
          dir, file := Some(file), f;
        case Miss =>
          return if i == |p| then Missing(file, name) else Fail(NotFound);
        case IoError =>
          return Fail(Io);
      }
      assert p[i..] == "" && Components("") == [];
      r := Found(dir, file);
    }

    /** dir_alloc_file. `got` is the block a directory grows by, if file_get_block
        can deliver one, and what it holds. */
    method DirAllocFile(d: nat, got: Option<Taken>) returns (r: Option<nat>)
      requires d in store && Readable(store, d) && (got.Some? ==> NewBlock(store, got.value))
      modifies this
      ensures match DirLookup(old(store), d, "")
              case Hit(f) => store == old(store) && r == Some(f)
              case Miss =>
                store == Grow(old(store), d, got) && r == (if got.Some? then Some(got.value.ids[0]) else None)
              case IoError => false
    {
      LookupSpec(store, d, "");
      var hit := FindInDir(d, "");
      if hit.Hit? {
        return Some(hit.f);
      }
      store := Grow(store, d, got);
      r := if got.Some? then Some(got.value.ids[0]) else None;
    }

    /** file_create succeeds exactly if the path is missing from an existing
        directory and a structure can be had. Then the path opens the new file and
        every path that opened a file opens the same file still. All other paths are
        as they were, and names unique, exactly if the names in a block the directory
        grew by allow it. A directory that could not grow is reported as a missing
        file. */
    method FileCreate(p: string, got: Option<Taken>) returns (f: Option<nat>, e: Error)
      requires Listed(store) && (got.Some? ==> NewBlock(store, got.value))
      modifies this
      ensures Listed(store)
      ensures f.Some? <==> Resolve(old(store), root, p).Missing? &&
                           (got.Some? || !Grows(old(store), Resolve(old(store), root, p).parent))
      ensures Resolve(old(store), root, p).Found? ==> f.None? && e == FileExists && store == old(store)
      ensures Resolve(old(store), root, p).Fail? ==>
                f.None? && e == Resolve(old(store), root, p).error && store == old(store)
      ensures Resolve(old(store), root, p).Missing? && f.None? ==> e == NotFound
      ensures Resolve(old(store), root, p).Missing? ==>
        var Missing(d, name) := Resolve(old(store), root, p);
        d in old(store) &&
        var grown := Roomy(old(store), d, got);
        if f.None? then store == grown else f.value in grown && store == SetName(grown, f.value, name)
      ensures f.Some? && (WellFormed(old(store)) || Grows(old(store), Resolve(old(store), root, p).parent)) ==>
        Created(old(store), store, root, p, got, f.value)
      ensures WellFormed(old(store)) ==> (WellFormed(store) <==> (f.Some? ==> NamesKept(old(store), root, p, got)))
    {
      var w := WalkPath(p);
      match w
      case Found(_, _) =>
        return None, FileExists;
      case Fail(err) =>
        return None, err;
      case Missing(d, name) =>
        ghost var s := store;
        FoldMissing(s, None, root, Components(p));
        ComponentsPlain(p);
        LookupSpec(s, d, name);
        LookupSpec(s, d, "");
        var slot := DirAllocFile(d, got);
        if slot.None? {
          NoGrowth(s, d);
          return None, NotFound;
        }
        if Grows(s, d) {
          GrowthCreates(s, root, p, d, name, got.value);
        } else {
          NamingCreates(s, root, p, d, name, got, slot.value);
        }
        store := SetName(store, slot.value, name);
        return slot, NotFound;
    }

    method FileOpen(p: string) returns (f: Option<nat>)
      ensures f.Some? <==> Resolve(store, root, p).Found?
      ensures f.Some? ==> f.value == Resolve(store, root, p).file
    {
      var w := WalkPath(p);
      f := if w.Found? then Some(w.file) else None;
    }

    /** file_remove, of whatever the path leads to. Where names are unique, exactly
        the paths that come through it lead nowhere any more; for a regular file these
        are the paths to it. */
    method FileRemove(p: string) returns (ok: bool)
      requires Listed(store) && root in store
      modifies this
      ensures Listed(store) && (WellFormed(old(store)) ==> WellFormed(store))
      ensures ok <==> Resolve(old(store), root, p).Found?
      ensures !ok ==> store == old(store)
      ensures ok ==> Resolve(old(store), root, p).file in old(store) &&
                     store == Cleared(old(store), Resolve(old(store), root, p).file)
      ensures ok && WellFormed(old(store)) && Components(p) != [] ==> !Resolve(store, root, p).Found?
      ensures ok && WellFormed(old(store)) && Components(p) != [] ==>
        var Found(d, f) := Resolve(old(store), root, p);
        d.Some? && (!old(store)[f].isDir && Readable(old(store), d.value) ==>
          Resolve(store, root, p) == Missing(d.value, Components(p)[|Components(p)| - 1]))
      ensures ok && WellFormed(old(store)) ==>
        forall q :: CutOff(old(store), store, root, Resolve(old(store), root, p).file, q)
    {
      var w := WalkPath(p);
      if !w.Found? {
        return false;
      }
      ComponentsPlain(p);
      FoundExists(store, None, root, Components(p));
      StillListed(store, w.file);
      if WellFormed(store) {
        FoundThrough(store, None, root, Components(p));
        RemoveCloses(store, root, w.file);
        assert CutOff(store, Cleared(store, w.file), root, w.file, p);
        if Components(p) != [] {
          FoldLast(store, None, root, Components(p));
          if !store[w.file].isDir && Readable(store, w.dir.value) {
            FoldRemoved(store, w.file, None, root, Components(p));
          }
        }
      }
      store := Cleared(store, w.file);
      ok := true;
    }
  }
}
