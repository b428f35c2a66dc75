/** The file server's table of open files: open_alloc, open_lookup, and why an old
    file id stays dead. */
module OpenTable {
  import opened Wrappers

  const MAXOPEN: nat := 1024
  const U32: nat := 0x1_0000_0000

  datatype Error = NoMem | MaxOpen

  /** The id slot i has after being allocated g times. */
  function FileId(i: nat, g: nat): nat {
    (i + g * MAXOPEN) % U32
  }

  /** A u_int read as a C int. */
  function AsInt(n: nat): int {
    if n < U32 / 2 then n else n - U32
  }

  /** open_alloc returns the id as an int, and serve_open takes a negative one for an
      error, although the slot has moved on: that is so for the second half of
      each 2^22 generations. */
  lemma IdLooksLikeError(i: nat, g: nat)
    requires i < MAXOPEN
    ensures AsInt(FileId(i, g)) < 0 <==> g % 0x40_0000 >= 0x20_0000
  {
    var q, r := g / 0x40_0000, g % 0x40_0000;
    assert g == q * 0x40_0000 + r;
    assert i + g * MAXOPEN == q * U32 + (i + r * MAXOPEN);
    ModOf(q, i + r * MAXOPEN);
  }

  lemma ModOf(q: nat, r: nat)
    requires r < U32
    ensures (q * U32 + r) % U32 == r
  {
  }

  lemma NextId(i: nat, g: nat)
    ensures FileId(i, g + 1) == (FileId(i, g) + MAXOPEN) % U32
  {
  }

  /** An id leads back to its slot for ever, even after the counter wraps. */
  lemma SlotOfId(i: nat, g: nat)
    requires i < MAXOPEN
    ensures FileId(i, g) % MAXOPEN == i
  {
    var n := i + g * MAXOPEN;
    assert n == n / U32 * U32 + n % U32;
    assert U32 == 0x40_0000 * MAXOPEN;
    assert n % U32 == i + (g - n / U32 * 0x40_0000) * MAXOPEN;
    SlotOf(i, g - n / U32 * 0x40_0000, n % U32);
  }

  lemma SlotOf(i: nat, k: int, n: nat)
    requires i < MAXOPEN && n == i + k * MAXOPEN
    ensures n % MAXOPEN == i
  {
  }

  /** Generations of one slot have equal ids exactly if they are equal modulo 2^22. */
  lemma IdsRepeat(i: nat, g: nat, h: nat)
    requires i < MAXOPEN && g < 0x40_0000 && h < 0x40_0000
    ensures FileId(i, g) == FileId(i, h) <==> g == h
  {
  }

  class Table {
    var fileid: seq<nat>
    /** pageref of the slot's descriptor page: 0 before the first use, 1 when only
        the server maps it. */
    var refs: seq<nat>
    ghost var gen: seq<nat>

    ghost predicate Valid()
      reads this
    {
      |fileid| == |refs| == |gen| == MAXOPEN &&
      (forall i | 0 <= i < MAXOPEN :: fileid[i] == FileId(i, gen[i])) &&
      (forall i | 0 <= i < MAXOPEN :: refs[i] == 0 <==> gen[i] == 0)
    }

    /** serve_init */
    constructor ()
      ensures Valid() && forall i | 0 <= i < MAXOPEN :: gen[i] == 0
    {
      fileid := seq(MAXOPEN, i => i);
      refs := seq(MAXOPEN, _ => 0);
      gen := seq(MAXOPEN, _ => 0);
    }

    /** open_alloc takes the first slot whose page no client maps and moves it to
        its next generation. `mem` says whether a page could be allocated. The
        caller sees r, which is negative also for ids from 2^31 on. */
    method OpenAlloc(mem: bool) returns (slot: Option<nat>, e: Error, r: int)
      requires Valid()
      modifies this
      ensures Valid()
      ensures slot.Some? ==>
        var i := slot.value;
        && i < MAXOPEN && old(refs)[i] <= 1 && (forall k | 0 <= k < i :: old(refs)[k] > 1)
        && (old(refs)[i] == 0 ==> mem)
        && gen == old(gen)[i := old(gen)[i] + 1] && refs == old(refs)[i := 1]
        && fileid == old(fileid)[i := FileId(i, gen[i])]
      ensures slot.None? ==> fileid == old(fileid) && refs == old(refs) && gen == old(gen)
      ensures slot.None? ==>
        if e == MaxOpen then forall i | 0 <= i < MAXOPEN :: refs[i] > 1
        else e == NoMem && !mem && exists i :: 0 <= i < MAXOPEN && refs[i] == 0 && forall k | 0 <= k < i :: refs[k] > 1
      ensures slot.Some? ==> r == AsInt(fileid[slot.value])
      ensures r < 0 <==> slot.None? || gen[slot.value] % 0x40_0000 >= 0x20_0000
    {
      hide FileId;
      var i := 0;
      while i < MAXOPEN
        invariant 0 <= i <= MAXOPEN && Valid()
        invariant fileid == old(fileid) && refs == old(refs) && gen == old(gen)
        invariant forall k | 0 <= k < i :: refs[k] > 1
      {
        if refs[i] <= 1 {
          if refs[i] == 0 {
            if !mem {
              return None, NoMem, -4;
            }
            refs := refs[i := 1];
          }
          NextId(i, gen[i]);
          fileid := fileid[i := (fileid[i] + MAXOPEN) % U32];
          gen := gen[i := gen[i] + 1];
          IdLooksLikeError(i, gen[i]);
          return Some(i), MaxOpen, AsInt(fileid[i]);
        }
        i := i + 1;
      }
      return None, MaxOpen, -8;
    }

    /** Clients map and unmap the page; the server's own mapping stays. */
    method ClientsMap(i: nat, n: nat)
      requires Valid() && i < MAXOPEN && refs[i] > 0 && n > 0
      modifies this
      ensures Valid() && refs == old(refs)[i := n] && fileid == old(fileid) && gen == old(gen)
    {
      refs := refs[i := n];
    }

    /** open_lookup */
    method OpenLookup(id: nat) returns (slot: Option<nat>)
      requires Valid()
      ensures slot.Some? <==> refs[id % MAXOPEN] != 1 && fileid[id % MAXOPEN] == id
      ensures slot.Some? ==> slot.value == id % MAXOPEN
    {
      var i := id % MAXOPEN;
      if refs[i] == 1 || fileid[i] != id {
        return None;
      }
      slot := Some(i);
    }

    /** The id handed out for generation g of slot i is accepted exactly while that
        generation is the current one and some client still maps its page: a
        later open of the slot, or the last close, kills it for good. */
    lemma StaleIdsRejected(i: nat, g: nat)
      requires Valid() && i < MAXOPEN && 1 <= g <= gen[i] < 0x40_0000
      ensures var id := FileId(i, g);
              id % MAXOPEN == i && ((refs[i] != 1 && fileid[i] == id) <==> (refs[i] > 1 && g == gen[i]))
    {
      SlotOfId(i, g);
      IdsRepeat(i, g, gen[i]);
    }

    /** The test has one gap: the id of generation 0, which is never handed out, is
        accepted exactly for a slot that has never been opened, because the
        reference count of its missing page is 0 and not 1. */
    lemma NeverOpenedAccepted(i: nat)
      requires Valid() && i < MAXOPEN && gen[i] < 0x40_0000
      ensures FileId(i, 0) == i && ((refs[i] != 1 && fileid[i] == i) <==> gen[i] == 0)
    {
      IdsRepeat(i, 0, gen[i]);
    }
  }
}
