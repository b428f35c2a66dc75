/** The table of environments: the intrusive free list of inc/queue.h, and
    environment ids. */
module EnvTable {
  import opened Wrappers
  import A = AddressSpace

  const NENV: nat := 1024
  const U32: nat := 0x1_0000_0000

  /** The address of a pointer that leads to an element: the list head, or the
      le_next field of another element. */
  datatype Link = Head | NextOf(i: nat)

  /** The head and the le_next and le_prev fields of all elements. */
  datatype Links = Links(first: Option<nat>, next: seq<Option<nat>>, prev: seq<Link>)

  /** Where element k of the list must be pointed to from, and what must follow. */
  function BackLink(list: seq<nat>, k: nat): Link
    requires k < |list|
  {
    if k == 0 then Head else NextOf(list[k - 1])
  }

  function Follower(list: seq<nat>, k: nat): Option<nat>
    requires k < |list|
  {
    if k + 1 < |list| then Some(list[k + 1]) else None
  }

  /** The pointers spell out `list`, and every back link is the link by which its
      element is reached. */
  ghost predicate Spells(q: Links, list: seq<nat>) {
    |q.prev| == |q.next| &&
    q.first == (if list == [] then None else Some(list[0])) &&
    (forall k | 0 <= k < |list| :: At(q, list, k)) &&
    (forall j, k | 0 <= j < k < |list| :: list[j] != list[k])
  }

  ghost predicate At(q: Links, list: seq<nat>, k: nat)
    requires |q.prev| == |q.next| && k < |list|
  {
    list[k] < |q.next| && q.next[list[k]] == Follower(list, k) && q.prev[list[k]] == BackLink(list, k)
  }

  /** *link = v */
  function StoreLink(q: Links, link: Link, v: Option<nat>): Links
    requires link.NextOf? ==> link.i < |q.next|
  {
    match link
    case Head => q.(first := v)
    case NextOf(i) => q.(next := q.next[i := v])
  }

  /** What LIST_REMOVE does to the pointers. */
  function Unlinked(q: Links, e: nat): Links
    requires e < |q.next| == |q.prev|
  {
    var r := if q.next[e].Some? && q.next[e].value < |q.prev| then q.(prev := q.prev[q.next[e].value := q.prev[e]])
      else q;
    if r.prev[e].NextOf? && r.prev[e].i >= |r.next| then r else StoreLink(r, r.prev[e], r.next[e])
  }

  lemma UnlinkedSpells(q: Links, e: nat, list: seq<nat>, k: nat)
    requires Spells(q, list) && k < |list| && list[k] == e
    ensures e < |q.next| && Spells(Unlinked(q, e), list[..k] + list[k + 1..])
  {
    assert At(q, list, k);
    var r, shorter := Unlinked(q, e), list[..k] + list[k + 1..];
    if k + 1 < |list| {
      assert At(q, list, k + 1);
    }
    if k > 0 {
      assert At(q, list, k - 1);
    }
    forall j | 0 <= j < |shorter| ensures At(r, shorter, j) {
      assert At(q, list, if j < k then j else j + 1);
    }
  }

  /** Linking e in before position k, whatever order the pointers are written in:
      the link that led to position k leads to e, and e leads on. */
  function Linked(q: Links, e: nat, list: seq<nat>, k: nat): (r: Links)
    requires e < |q.next| == |q.prev| && k <= |list| && forall x <- list :: x < |q.next|
    ensures |r.next| == |r.prev| == |q.next|
  {
    assert k > 0 ==> list[k - 1] in list;
    assert k < |list| ==> list[k] in list;
    var link := if k == 0 then Head else NextOf(list[k - 1]);
    var after := if k < |list| then Some(list[k]) else None;
    var r := StoreLink(q.(next := q.next[e := after]), link, Some(e));
    var prev := if k < |list| then r.prev[list[k] := NextOf(e)] else r.prev;
    r.(prev := prev[e := link])
  }

  lemma LinkedSpells(q: Links, e: nat, list: seq<nat>, k: nat)
    requires Spells(q, list) && e < |q.next| && e !in list && k <= |list|
    ensures (forall x <- list :: x < |q.next|) && Spells(Linked(q, e, list, k), list[..k] + [e] + list[k..])
  {
    forall j | 0 <= j < |list| ensures list[j] < |q.next| {
      assert At(q, list, j);
    }
    var r, longer := Linked(q, e, list, k), list[..k] + [e] + list[k..];
    assert |r.prev| == |r.next| == |q.next|;
    forall j | 0 <= j < |longer| ensures At(r, longer, j) {
      LinkedAt(q, e, list, k, j);
    }
    assert r.first == Some(longer[0]);
    hide Linked, At;
  }

  lemma LinkedAt(q: Links, e: nat, list: seq<nat>, k: nat, j: nat)
    requires Spells(q, list) && e < |q.next| && e !in list && k <= |list| && j <= |list| &&
             forall x <- list :: x < |q.next|
    ensures var r := Linked(q, e, list, k);
            |r.prev| == |r.next| && At(r, list[..k] + [e] + list[k..], j)
  {
    assert (k < |list| ==> list[k] in list) && (k > 0 ==> list[k - 1] in list);
    if j != k {
      assert At(q, list, if j < k then j else j - 1);
    }
  }

  class List {
    var q: Links

    constructor (n: nat)
      ensures Spells(q, []) && |q.next| == n
    {
      q := Links(None, seq(n, _ => None), seq(n, _ => Head));
    }

    /** LIST_INIT */
    method Init()
      requires |q.prev| == |q.next|
      modifies this
      ensures Spells(q, []) && |q.next| == old(|q.next|)
    {
      q := q.(first := None);
    }

    /** LIST_INSERT_HEAD */
    method InsertHead(e: nat, ghost list: seq<nat>)
      requires Spells(q, list) && e < |q.next| && e !in list
      modifies this
      ensures Spells(q, [e] + list) && |q.next| == old(|q.next|)
    {
      LinkedSpells(q, e, list, 0);
      assert list != [] ==> At(q, list, 0);
      q := q.(next := q.next[e := q.first]);
      if q.first.Some? {
        q := q.(prev := q.prev[q.first.value := NextOf(e)]);
      }
      q := q.(first := Some(e));
      q := q.(prev := q.prev[e := Head]);
      assert q == Linked(old(q), e, list, 0) && list[..0] + [e] + list[0..] == [e] + list;
    }

    /** LIST_INSERT_AFTER */
    method InsertAfter(at: nat, e: nat, ghost list: seq<nat>, ghost k: nat)
      requires Spells(q, list) && e < |q.next| && e !in list && k < |list| && list[k] == at
      modifies this
      ensures Spells(q, list[..k + 1] + [e] + list[k + 1..]) && |q.next| == old(|q.next|)
    {
      LinkedSpells(q, e, list, k + 1);
      assert At(q, list, k) && (k + 1 < |list| ==> At(q, list, k + 1));
      q := q.(next := q.next[e := q.next[at]]);
      if q.next[e].Some? {
        q := q.(prev := q.prev[q.next[at].value := NextOf(e)]);
      }
      q := q.(next := q.next[at := Some(e)]);
      q := q.(prev := q.prev[e := NextOf(at)]);
      assert q == Linked(old(q), e, list, k + 1);
    }

    /** LIST_INSERT_BEFORE reaches the place only through the back link. */
    method InsertBefore(at: nat, e: nat, ghost list: seq<nat>, ghost k: nat)
      requires Spells(q, list) && e < |q.next| && e !in list && k < |list| && list[k] == at
      modifies this
      ensures Spells(q, list[..k] + [e] + list[k..]) && |q.next| == old(|q.next|)
    {
      LinkedSpells(q, e, list, k);
      assert At(q, list, k) && (k > 0 ==> At(q, list, k - 1));
      q := q.(prev := q.prev[e := q.prev[at]]);
      q := q.(next := q.next[e := Some(at)]);
      q := StoreLink(q, q.prev[at], Some(e));
      q := q.(prev := q.prev[at := NextOf(e)]);
      assert q == Linked(old(q), e, list, k);
    }

    /** LIST_REMOVE */
    method Remove(e: nat, ghost list: seq<nat>, ghost k: nat)
      requires Spells(q, list) && k < |list| && list[k] == e
      modifies this
      ensures Spells(q, list[..k] + list[k + 1..]) && |q.next| == old(|q.next|)
    {
      UnlinkedSpells(q, e, list, k);
      assert At(q, list, k) && (k > 0 ==> At(q, list, k - 1)) && (k + 1 < |list| ==> At(q, list, k + 1));
      if q.next[e].Some? {
        q := q.(prev := q.prev[q.next[e].value := q.prev[e]]);
      }
      q := StoreLink(q, q.prev[e], q.next[e]);
      assert q == Unlinked(old(q), e);
    }
  }

  // ---------------------------------------------------------------- ids

  /** The id mkenvid makes from the counter value n and slot i, in 32 bits. The
      low bits of the shifted counter are zero, so the bitwise or is a sum. */
  function Mkenvid(n: nat, i: nat): nat
    requires i < NENV
  {
    n * 2048 % U32 + i
  }

  /** ENVX */
  function Envx(id: nat): nat {
    id % NENV
  }

  /** An id leads back to its slot, and as a C int it is positive exactly while
      the counter, modulo 2^21, is below 2^20 and the id is not zero. */
  lemma EnvidSlot(n: nat, i: nat)
    requires i < NENV
    ensures Envx(Mkenvid(n, i)) == i
    ensures 0 < Mkenvid(n, i) < U32 / 2 <==> n % 0x20_0000 < 0x10_0000 && (n % 0x20_0000 != 0 || i != 0)
  {
    assert n * 2048 % U32 == n % 0x20_0000 * 2048 by {
      var q, r := n / 0x20_0000, n % 0x20_0000;
      assert n * 2048 == q * U32 + r * 2048;
      ModOf(q, r * 2048);
    }
  }

  lemma ModOf(q: nat, r: nat)
    requires r < U32
    ensures (q * U32 + r) % U32 == r
  {
  }

  /** The first 2^20 - 1 ids are distinct. */
  lemma EnvidDistinct(n: nat, i: nat, m: nat, j: nat)
    requires n < 0x10_0000 && m < 0x10_0000 && i < NENV && j < NENV
    ensures Mkenvid(n, i) == Mkenvid(m, j) <==> n == m && i == j
  {
  }

  datatype Status = Free | Runnable | NotRunnable

  datatype Error = NoFreeEnv | NoMem | BadEnv

  /** Page directory entries below UTOP. */
  const USER_PDES: nat := 955

  const USTACKTOP: nat := 0xeebf_e000
  const UTEXT: nat := 0x80_0000

  /** The part of the trap frame env_alloc sets: five segment registers for user
      mode, stack and instruction pointer; of the flags only some are set. */
  datatype Flag = Interrupts | IoPrivilege | Other(n: nat)
  datatype Frame = Frame(user: bool, esp: nat, eip: nat, eflags: set<Flag>)

  datatype Fields = Fields(tf: Frame, recving: bool, handler: nat, xstacktop: nat, runs: nat)

  /** What env_alloc makes of the fields of slot e: nothing of the environment before is
      left but flags it had set; slot 1, the file server's, gets I/O privilege. */
  predicate FreshFields(was: Fields, f: Fields, e: nat) {
    !f.recving && f.handler == 0 && f.xstacktop == 0 && f.runs == 0 &&
    f.tf.user && f.tf.esp == USTACKTOP && f.tf.eip == UTEXT + 0x20 &&
    f.tf.eflags == was.tf.eflags + {Interrupts} + (if e == 1 then {IoPrivilege} else {})
  }

  /** Slot e is in use under the n-th id. */
  ghost predicate HoldsIn(issued: seq<nat>, id: seq<nat>, n: nat, e: nat) {
    n < |issued| && issued[n] == e && e < NENV && e < |id| && id[e] == Mkenvid(n + 1, e) &&
    forall m | n < m < |issued| :: issued[m] != e
  }

  ghost predicate AliveIn(issued: seq<nat>, id: seq<nat>, status: seq<Status>, n: nat) {
    n < |issued| && issued[n] < |status| && status[issued[n]] != Free && HoldsIn(issued, id, n, issued[n])
  }

  /** The list holds the free slots, and every slot in use has the last id given
      out for it. */
  ghost predicate Slots(order: seq<nat>, issued: seq<nat>, id: seq<nat>, status: seq<Status>) {
    |id| == |status| == NENV &&
    (forall e <- order :: e < NENV) &&
    (forall e | 0 <= e < NENV :: e in order <==> status[e] == Free) &&
    (forall n | 0 <= n < |issued| :: issued[n] < NENV) &&
    (forall e | 0 <= e < NENV && status[e] != Free :: exists n: nat :: HoldsIn(issued, id, n, e))
  }

  lemma HoldsOn(issued: seq<nat>, id: seq<nat>, k: nat, x: nat, n: nat, f: nat)
    requires k < |id| && f != k && n < |issued|
    ensures HoldsIn(issued + [k], id[k := x], n, f) <==> HoldsIn(issued, id, n, f)
  {
    var longer := issued + [k];
    assert forall m | 0 <= m < |issued| :: longer[m] == issued[m];
    assert longer[|issued|] == k;
  }

  lemma HeadIs(q: Links, order: seq<nat>)
    requires Spells(q, order)
    ensures q.first == if order == [] then None else Some(order[0])
    ensures forall i, j | 0 <= i < j < |order| :: order[i] != order[j]
  {
  }

  /** A new id for slot k, which was free, ends no other environment. */
  lemma StillAlive(issued: seq<nat>, id: seq<nat>, status: seq<Status>, k: nat)
    requires |id| == |status| == NENV && k < NENV && status[k] == Free
    requires forall f | 0 <= f < NENV && status[f] != Free :: exists n: nat :: HoldsIn(issued, id, n, f)
    ensures var longer, ids, now := issued + [k], id[k := Mkenvid(|issued| + 1, k)], status[k := Runnable];
            && AliveIn(longer, ids, now, |issued|)
            && (forall n: nat | n < |issued| :: AliveIn(longer, ids, now, n) <==> AliveIn(issued, id, status, n))
            && (forall f | 0 <= f < NENV && now[f] != Free :: exists n: nat :: HoldsIn(longer, ids, n, f))
  {
    var longer, ids, now := issued + [k], id[k := Mkenvid(|issued| + 1, k)], status[k := Runnable];
    assert HoldsIn(longer, ids, |issued|, k);
    forall n: nat | n < |issued| ensures AliveIn(longer, ids, now, n) <==> AliveIn(issued, id, status, n) {
      if issued[n] == k {
        assert longer[|issued|] == k && longer[n] == k;
      } else {
        HoldsOn(issued, id, k, Mkenvid(|issued| + 1, k), n, issued[n]);
      }
    }
    forall f | 0 <= f < NENV && now[f] != Free ensures exists n: nat :: HoldsIn(longer, ids, n, f) {
      if f != k {
        var n: nat :| HoldsIn(issued, id, n, f);
        HoldsOn(issued, id, k, Mkenvid(|issued| + 1, k), n, f);
      }
    }
  }

  /** env_alloc takes the first free slot. */
  lemma SlotsAfterAlloc(order: seq<nat>, issued: seq<nat>, id: seq<nat>, status: seq<Status>)
    requires order != [] && Slots(order, issued, id, status)
    requires forall i, j | 0 <= i < j < |order| :: order[i] != order[j]
    ensures var k := order[0];
            && k < NENV
            && Slots(order[1..], issued + [k], id[k := Mkenvid(|issued| + 1, k)], status[k := Runnable])
            && AliveIn(issued + [k], id[k := Mkenvid(|issued| + 1, k)], status[k := Runnable], |issued|)
            && (forall n: nat | n < |issued| ::
                  AliveIn(issued + [k], id[k := Mkenvid(|issued| + 1, k)], status[k := Runnable], n) <==>
                    AliveIn(issued, id, status, n))
  {
    var k := order[0];
    assert k in order;
    StillAlive(issued, id, status, k);
    hide HoldsIn, AliveIn;
    forall e: nat ensures e in order[1..] <==> e in order && e != k {
      if e in order && e != k {
        var i :| 0 <= i < |order| && order[i] == e;
        assert order[1..][i - 1] == e;
      }
    }
  }

  /** env_free puts a slot back. */
  lemma SlotsAfterFree(order: seq<nat>, issued: seq<nat>, id: seq<nat>, status: seq<Status>, e: nat)
    requires Slots(order, issued, id, status) && e < NENV
    ensures Slots([e] + order, issued, id, status[e := Free])
    ensures forall n: nat :: AliveIn(issued, id, status[e := Free], n) <==>
            AliveIn(issued, id, status, n) && issued[n] != e
  {
    hide HoldsIn;
  }

  /** User mappings and page tables lie below UTOP. */
  ghost predicate UserOnly(m: A.Memory) {
    (forall l <- m.pt :: l.vpn < A.UTOP_PAGE) && (forall d <- m.dirs :: d.1 < USER_PDES)
  }

  class Envs {
    const free: List
    var status: seq<Status>
    var id: seq<nat>
    var parent: seq<nat>
    var fields: seq<Fields>
    var mem: A.Memory
    var cur: Option<nat>
    var nextId: nat
    /** The free list in order, and the slot of every id handed out so far. */
    ghost var order: seq<nat>
    ghost var issued: seq<nat>

    ghost predicate Valid()
      reads this, free
    {
      |status| == |id| == |parent| == |fields| == NENV == |free.q.next| && UserOnly(mem) &&
      (cur.Some? ==> cur.value < NENV) && nextId == |issued| &&
      Spells(free.q, order) && Slots(order, issued, id, status)
    }

    /** The environment that was given the n-th id still exists. */
    ghost predicate Alive(n: nat)
      reads this
    {
      AliveIn(issued, id, status, n)
    }

    /** env_init: all slots free, slot 0 first. */
    constructor ()
      ensures Valid() && fresh(free) && order == seq(NENV, i => i) && issued == [] && cur == None
    {
      free := new List(NENV);
      status := seq(NENV, _ => Free);
      id, parent := seq(NENV, _ => 0), seq(NENV, _ => 0);
      fields := seq(NENV, _ => Fields(Frame(false, 0, 0, {}), false, 0, 0, 0));
      mem := A.Memory(map[], {}, map[]);
      cur, nextId, issued, order := None, 0, [], [];
      new;
      var i: int := NENV - 1;
      while i >= 0
        invariant -1 <= i < NENV
        invariant Spells(free.q, order) && |free.q.next| == NENV && order == seq(NENV - 1 - i, k => i + 1 + k)
        invariant |status| == |id| == |parent| == |fields| == NENV && UserOnly(mem) &&
                  forall k | 0 <= k < NENV :: status[k] == Free
        invariant nextId == 0 && issued == [] && cur == None
        decreases i
      {
        free.InsertHead(i, order);
        order := [i] + order;
        i := i - 1;
      }
      forall e: nat | e < NENV ensures e in order {
        assert order[e] == e;
      }
    }

    /** env_alloc. `vm` says whether env_setup_vm could allocate a page directory.
        A failed call changes nothing; a successful one takes the first slot of
        the free list and gives it an id no slot has had. */
    method EnvAlloc(parentId: nat, vm: bool) returns (e: Option<nat>, err: Error)
      requires Valid()
      modifies this, free
      ensures Valid()
      ensures e.Some? <==> old(order) != [] && vm
      ensures e.None? ==> free.q == old(free.q) && order == old(order) && status == old(status) && id == old(id) &&
                          issued == old(issued)
      ensures e.None? ==> err == if old(order) == [] then NoFreeEnv else NoMem
      ensures e.Some? ==> order == old(order)[1..] && e.value == old(order)[0]
      ensures e.Some? ==> issued == old(issued) + [e.value] && Alive(|issued| - 1)
      ensures e.Some? ==> id == old(id)[e.value := Mkenvid(|issued|, e.value)]
      ensures e.Some? ==> status == old(status)[e.value := Runnable] && parent == old(parent)[e.value := parentId]
      ensures e.Some? ==> fields == old(fields)[e.value := fields[e.value]]
      ensures e.Some? ==> FreshFields(old(fields)[e.value], fields[e.value], e.value)
      ensures cur == old(cur) && mem == old(mem) && (e.None? ==> parent == old(parent) && fields == old(fields))
      ensures forall n: nat | n < |old(issued)| :: Alive(n) <==> old(Alive(n))
    {
      hide HoldsIn, AliveIn, UserOnly, Mkenvid, Slots, FreshFields;
      HeadIs(free.q, order);
      hide Spells;
      if free.q.first.None? {
        return None, NoFreeEnv;
      }
      var k := free.q.first.value;
      if !vm {
        return None, NoMem;
      }
      SlotsAfterAlloc(order, issued, id, status);
      nextId := nextId + 1;
      id := id[k := Mkenvid(nextId, k)];
      parent := parent[k := parentId];
      status := status[k := Runnable];
      InitFields(k);
      free.Remove(k, order, 0);
      assert order[..0] + order[1..] == order[1..];
      order, issued := order[1..], issued + [k];
      e, err := Some(k), NoMem;
    }

    method InitFields(k: nat)
      requires k < |fields|
      modifies this`fields
      ensures |fields| == |old(fields)| && fields == old(fields)[k := fields[k]]
      ensures FreshFields(old(fields)[k], fields[k], k)
    {
      var f := fields[k];
      f := f.(tf := f.tf.(user := true, esp := USTACKTOP, eip := UTEXT + 0x20, eflags := f.tf.eflags + {Interrupts}));
      if k == 1 {
        f := f.(tf := f.tf.(eflags := f.tf.eflags + {IoPrivilege}));
      }
      f := f.(recving := false, handler := 0, xstacktop := 0, runs := 0);
      assert f.tf.eflags == fields[k].tf.eflags + {Interrupts} + (if k == 1 then {IoPrivilege} else {});
      fields := fields[k := f];
    }

    /** Environment e has lost its pages below page i and its page tables below q. */
    ghost predicate FreedTo(was: A.Memory, e: nat, i: nat, q: nat)
      reads this`mem
    {
      mem.ram == was.ram &&
      (forall l :: l in mem.pt <==> l in was.pt && !(l.env == e && l.vpn < i)) &&
      (forall l <- mem.pt :: l in was.pt && mem.pt[l] == was.pt[l]) &&
      (forall d :: d in mem.dirs <==> d in was.dirs && !(d.0 == e && d.1 < q))
    }

    /** The two loops of env_free: page_remove for every page, table by table. */
    method FreePages(e: nat)
      requires UserOnly(mem) && A.WellMapped(mem)
      modifies this`mem
      ensures mem == A.RemoveAll(old(mem), e)
    {
      var pdeno := 0;
      while pdeno < USER_PDES
        invariant 0 <= pdeno <= USER_PDES && FreedTo(old(mem), e, pdeno * A.PDE2PD, pdeno)
      {
        FreeTable(e, pdeno, old(mem));
        pdeno := pdeno + 1;
      }
      assert mem.pt == A.RemoveAll(old(mem), e).pt;
      assert mem.dirs == A.RemoveAll(old(mem), e).dirs;
    }

    method FreeTable(e: nat, pdeno: nat, ghost was: A.Memory)
      requires FreedTo(was, e, pdeno * A.PDE2PD, pdeno) && A.WellMapped(was)
      modifies this`mem
      ensures FreedTo(was, e, (pdeno + 1) * A.PDE2PD, pdeno + 1)
    {
      if (e, pdeno) !in mem.dirs {
        forall l <- was.pt | l.env == e ensures l.vpn / A.PDE2PD != pdeno {
          assert A.Dir(l) in was.dirs;
        }
        forall d: (nat, nat) ensures d in mem.dirs <==> d in was.dirs && !(d.0 == e && d.1 < pdeno + 1) {
          assert d == (d.0, d.1);
        }
        return;
      }
      var pteno := 0;
      while pteno < A.PDE2PD
        invariant 0 <= pteno <= A.PDE2PD && FreedTo(was, e, pdeno * A.PDE2PD + pteno, pdeno)
      {
        var l := A.Loc(e, pdeno * A.PDE2PD + pteno);
        if l in mem.pt {
          mem := A.Remove(mem, l);
        }
        pteno := pteno + 1;
      }
      mem := mem.(dirs := mem.dirs - {(e, pdeno)});
      forall d: (nat, nat) ensures d in mem.dirs <==> d in was.dirs && !(d.0 == e && d.1 < pdeno + 1) {
        assert d == (d.0, d.1);
      }
    }

    /** env_free, of an environment that exists: its pages and page tables go, and
        its slot heads the free list. */
    method EnvFree(e: nat)
      requires Valid() && e < NENV && status[e] != Free && A.WellMapped(mem)
      modifies this, free
      ensures Valid() && mem == A.RemoveAll(old(mem), e) && fields == old(fields)
      ensures order == [e] + old(order) && status == old(status)[e := Free] && issued == old(issued) && id == old(id)
      ensures parent == old(parent) && cur == old(cur)
      ensures forall n: nat :: Alive(n) <==> old(Alive(n)) && issued[n] != e
    {
      SlotsAfterFree(order, issued, id, status, e);
      assert e !in order && UserOnly(A.RemoveAll(mem, e));
      hide Slots, HoldsIn, AliveIn, Spells;
      FreePages(e);
      status := status[e := Free];
      free.InsertHead(e, order);
      order := [e] + order;
    }

    /** env_destroy, up to the call of sched_yield: the current environment, if it
        was the one destroyed, is forgotten. */
    method EnvDestroy(e: nat) returns (reschedule: bool)
      requires Valid() && e < NENV && status[e] != Free && A.WellMapped(mem)
      modifies this, free
      ensures Valid() && mem == A.RemoveAll(old(mem), e) && fields == old(fields)
      ensures order == [e] + old(order) && status == old(status)[e := Free] && issued == old(issued) && id == old(id)
      ensures parent == old(parent) && cur == if old(cur) == Some(e) then None else old(cur)
      ensures reschedule <==> old(cur) == Some(e)
      ensures forall n: nat :: Alive(n) <==> old(Alive(n)) && issued[n] != e
    {
      EnvFree(e);
      reschedule := cur == Some(e);
      if reschedule {
        cur := None;
      }
    }

    /** envid2env. Id 0 means the current environment. */
    method Envid2env(envid: nat, checkperm: bool) returns (e: Option<nat>)
      requires Valid()
      requires envid == 0 || checkperm ==> cur.Some?
      ensures envid == 0 ==> e == cur
      ensures envid != 0 ==>
        (e.Some? <==> (status[Envx(envid)] != Free && id[Envx(envid)] == envid &&
                       (checkperm ==> id[cur.value] == envid || id[cur.value] == parent[Envx(envid)])))
      ensures envid != 0 && e.Some? ==> e == Some(Envx(envid))
    {
      if envid == 0 {
        return cur;
      }
      var k := Envx(envid);
      if status[k] == Free || id[k] != envid {
        return None;
      }
      if checkperm && parent[k] != id[cur.value] && id[k] != id[cur.value] {
        return None;
      }
      e := Some(k);
    }

    /** While fewer than 2^20 ids have been handed out, the n-th of them leads to
        an environment exactly as long as that environment exists, and to its
        slot: a freed id is refused for ever. */
    lemma IdResolves(n: nat)
      requires Valid() && n < |issued| < 0x10_0000
      ensures var envid := Mkenvid(n + 1, issued[n]);
              envid != 0 && Envx(envid) == issued[n] &&
              ((status[issued[n]] != Free && id[issued[n]] == envid) <==> Alive(n))
    {
      var e := issued[n];
      EnvidSlot(n + 1, e);
      if status[e] != Free {
        var m: nat :| HoldsIn(issued, id, m, e);
        EnvidDistinct(n + 1, e, m + 1, e);
      }
    }
  }
}
