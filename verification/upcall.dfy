/** User page-fault upcalls: the frame the kernel pushes, the assembly that
    unwinds it, and faults inside the handler. Addresses count words; all stack
    pointers are word aligned. */
module Upcall {

  /** The exception stack is one page below XTOP. */
  const XTOP: int := 0xeec0_0000 / 4
  const BY2PG: int := 1024

  type Mem = map<int, int>

  datatype Regs = Regs(eip: int, esp: int, eflags: int, eax: int, ecx: int, edx: int)

  function At(m: Mem, a: int): int {
    if a in m then m[a] else 0
  }

  predicate OnExceptionStack(a: int) {
    XTOP - BY2PG <= a < XTOP
  }

  /** The top word of the frame for a fault at stack pointer esp. */
  function Top(esp: int): int {
    if OnExceptionStack(esp) then esp - 1 else XTOP - 1
  }

  /** Stack pointer of the handler: the frame is the ten words from here up. */
  function FrameSp(esp: int): int {
    Top(esp) - 9
  }

  /** The frame of page_fault_handler: five spare words above eip, eflags, esp,
      error code and faulting address. */
  function Pushed(m: Mem, r: Regs, va: int, err: int): Mem {
    var t := Top(r.esp);
    m[t := 0][t - 1 := 0][t - 2 := 0][t - 3 := 0][t - 4 := 0]
    [t - 5 := r.eip][t - 6 := r.eflags][t - 7 := r.esp][t - 8 := err][t - 9 := va]
  }

  /** The handler saves the caller-save registers in three of the spare words. */
  function Saved(m: Mem, r: Regs, sp: int): Mem {
    m[sp + 7 := r.eax][sp + 6 := r.ecx][sp + 5 := r.edx]
  }

  // ------------------------------------------------------- one step at a time

  class Cpu {
    var mem: Mem
    var r: Regs

    /** page_fault_handler, for a user fault with a handler installed. */
    method PageFaultHandler(va: int, err: int, handler: int)
      modifies this
      ensures mem == Pushed(old(mem), old(r), va, err)
      ensures r == old(r).(eip := handler, esp := FrameSp(old(r).esp))
    {
      var tos := XTOP - 1;
      if r.esp >= XTOP - BY2PG && r.esp < XTOP {
        tos := r.esp - 1;
      }
      mem := mem[tos := 0];
      mem := mem[tos - 1 := 0];
      mem := mem[tos - 2 := 0];
      mem := mem[tos - 3 := 0];
      mem := mem[tos - 4 := 0];
      mem := mem[tos - 5 := r.eip];
      mem := mem[tos - 6 := r.eflags];
      mem := mem[tos - 7 := r.esp];
      mem := mem[tos - 8 := err];
      mem := mem[tos - 9 := va];
      tos := tos - 9;
      r := r.(eip := handler, esp := tos);
    }

    /** __asm_pgfault_handler before the call. */
    method SaveRegisters()
      modifies this`mem
      ensures mem == Saved(old(mem), r, r.esp)
    {
      mem := mem[r.esp + 7 := r.eax];
      mem := mem[r.esp + 6 := r.ecx];
      mem := mem[r.esp + 5 := r.edx];
    }

    /** __asm_pgfault_handler after the call, up to its first store. */
    method LoadEip()
      modifies this`r
      ensures r == AtFirst(mem, old(r))
    {
      r := r.(eax := At(mem, r.esp + 2));
      r := r.(edx := At(mem, r.esp + 4));
    }

    /** The store of eip under the trap-time stack pointer. */
    method StoreEip()
      modifies this`mem
      ensures mem == First(old(mem), r)
    {
      mem := mem[r.eax - 1 := r.edx];
    }

    method LoadFlags()
      modifies this`r
      ensures r == AtSecond(mem, old(r))
    {
      r := r.(edx := At(mem, r.esp + 3));
    }

    /** The store of eflags below it. */
    method StoreFlags()
      modifies this`mem
      ensures mem == Second(old(mem), r)
    {
      mem := mem[r.eax - 2 := r.edx];
    }

    /** The registers come back, and popfl and ret end it. */
    method Resume()
      modifies this`r
      ensures r == Resumed(mem, old(r))
    {
      r := r.(eax := At(mem, r.esp + 7));
      r := r.(ecx := At(mem, r.esp + 6));
      r := r.(edx := At(mem, r.esp + 5));
      r := r.(esp := At(mem, r.esp + 2));
      r := r.(esp := r.esp - 2);
      r := r.(eflags := At(mem, r.esp), esp := r.esp + 1);
      r := r.(eip := At(mem, r.esp), esp := r.esp + 1);
    }

    /** All of it, when neither store faults. */
    method Return()
      modifies this
      ensures var m, ra := old(mem), AtFirst(old(mem), old(r));
              var m1 := First(m, ra);
              var rb := AtSecond(m1, ra);
              mem == Second(m1, rb) && r == Resumed(mem, rb)
    {
      LoadEip();
      StoreEip();
      LoadFlags();
      StoreFlags();
      Resume();
    }
  }

  // ------------------------------------------------------ the return sequence

  /** The registers at the first store, and what it makes of memory. */
  function AtFirst(m: Mem, r: Regs): Regs {
    r.(eax := At(m, r.esp + 2), edx := At(m, r.esp + 4))
  }

  function First(m: Mem, r: Regs): Mem {
    m[r.eax - 1 := r.edx]
  }

  /** The same of the second store. */
  function AtSecond(m: Mem, r: Regs): Regs {
    r.(edx := At(m, r.esp + 3))
  }

  function Second(m: Mem, r: Regs): Mem {
    m[r.eax - 2 := r.edx]
  }

  function Resumed(m: Mem, r: Regs): Regs {
    var back := At(m, r.esp + 2);
    Regs(At(m, back - 1), back, At(m, back - 2), At(m, r.esp + 7), At(m, r.esp + 6), At(m, r.esp + 5))
  }

  // ---------------------------------------------------------------- handlers

  /** What the C handler may do: write words below its stack pointer, change the
      caller-save registers and the flags, or fault again further down. */
  datatype Act =
    | Scratch(a: int, x: int)
    | Clobber(eflags: int, eax: int, ecx: int, edx: int)
    | Fault(at: Regs, again: Nest)

  /** A fault and its whole upcall: what the handler does, and the faults taken at
      each of the two stores of the return sequence, which go to the interrupted
      stack; after each the store is tried again. */
  datatype Nest = Nest(va: int, err: int, body: seq<Act>, first: seq<Nest>, second: seq<Nest>)

  /** The stack pointer inside the C handler, below the return address. */
  function BodySp(esp: int): int {
    FrameSp(esp) - 1
  }

  /** The handler stays on its stack: it writes only below its frame and on the
      page, and faults only with its stack pointer below its frame, with room
      for another frame. */
  predicate Fits(sp: int, acts: seq<Act>)
    decreases acts, 0
  {
    acts != [] ==>
      (match acts[0]
       case Scratch(a, _) => XTOP - BY2PG <= a < sp
       case Clobber(_, _, _, _) => true
       case Fault(at, n) => XTOP - BY2PG <= at.esp <= sp && (assert n < acts[0]; NestFits(at.esp, n))) &&
      Fits(sp, acts[1..])
  }

  /** There is room for the frame of a fault at stack pointer esp, for its handler,
      and below the frame for the faults of the return sequence. */
  predicate NestFits(esp: int, n: Nest)
    decreases n, 1
  {
    var sp := FrameSp(esp);
    BodySp(esp) >= XTOP - BY2PG && Fits(sp, n.body) && AllFit(sp, n.first) && AllFit(sp, n.second)
  }

  predicate AllFit(esp: int, ns: seq<Nest>)
    decreases ns, 0
  {
    ns != [] ==> NestFits(esp, ns[0]) && AllFit(esp, ns[1..])
  }

  // ------------------------------------------------------------------- room

  /** Words below stack pointer esp on the exception stack a fault there goes to. */
  function Room(esp: int): int {
    if OnExceptionStack(esp) then esp - (XTOP - BY2PG) else BY2PG
  }

  /** Upcalls nested k deep below the first: every handler stores below its stack
      pointer, changes registers and faults again, and so do both stores of every
      return sequence. */
  function Deep(r: Regs, esp: int, k: nat): Nest
    decreases k
  {
    if k == 0 then Nest(0, 0, [], [], [])
    else
      var low, sp := BodySp(esp), FrameSp(esp);
      Nest(0, 0, [Scratch(low, 1), Clobber(2, 3, 4, 5), Fault(r.(esp := low), Deep(r, low, k - 1))],
           [Deep(r, sp, k - 1)], [Deep(r, sp, k - 1)])
  }

  /** An upcall takes eleven words, so 93 of them fit one inside the other. */
  lemma {:induction false} DeepFits(r: Regs, esp: int, k: nat)
    ensures NestFits(esp, Deep(r, esp, k)) <==> Room(esp) >= 11 * (k + 1)
    decreases k
  {
    var low, sp, n := BodySp(esp), FrameSp(esp), Deep(r, esp, k);
    if k == 0 {
      assert Fits(sp, []) && AllFit(sp, []);
    } else if low >= XTOP - BY2PG {
      DeepFits(r, low, k - 1);
      DeepFits(r, sp, k - 1);
      var fault := Fault(r.(esp := low), Deep(r, low, k - 1));
      assert n.body[1..] == [Clobber(2, 3, 4, 5), fault] && n.body[1..][1..] == [fault] && [fault][1..] == [];
      assert Fits(sp, [fault]) <==> NestFits(low, Deep(r, low, k - 1));
      assert Fits(sp, n.body) <==> Fits(sp, [fault]);
      assert n.first[1..] == [];
      assert AllFit(sp, n.first) <==> NestFits(sp, Deep(r, sp, k - 1));
    }
  }

  function Run(m: Mem, r: Regs, acts: seq<Act>): (Mem, Regs)
    decreases acts, 0
  {
    if acts == [] then (m, r)
    else
      match acts[0]
      case Scratch(a, x) => Run(m[a := x], r, acts[1..])
      case Clobber(f, a, c, d) => Run(m, r.(eflags := f, eax := a, ecx := c, edx := d), acts[1..])
      case Fault(at, n) =>
        assert n < acts[0];
        var (m1, r1) := Handle(m, at, n);
        Run(m1, r.(eflags := r1.eflags, eax := r1.eax, ecx := r1.ecx, edx := r1.edx), acts[1..])
  }

  /** Faults at one instruction, one upcall after the other. */
  function Faults(m: Mem, r: Regs, ns: seq<Nest>): (Mem, Regs)
    decreases ns, 0
  {
    if ns == [] then (m, r)
    else
      var (m1, r1) := Handle(m, r, ns[0]);
      Faults(m1, r1, ns[1..])
  }

  /** A whole upcall: the kernel pushes, the assembly saves, the C handler runs
      and returns with its stack pointer restored, and the assembly unwinds, with
      a fault possible before each of its two stores. */
  function Handle(m: Mem, r: Regs, n: Nest): (Mem, Regs)
    decreases n, 1
  {
    var sp := FrameSp(r.esp);
    var (m1, r1) := Run(Entered(m, r, n.va, n.err), r.(esp := sp), n.body);
    var (m2, r2) := Faults(m1, AtFirst(m1, r1.(esp := sp)), n.first);
    var m3 := First(m2, r2);
    var (m4, r4) := Faults(m3, AtSecond(m3, r2), n.second);
    var m5 := Second(m4, r4);
    (m5, Resumed(m5, r4))
  }

  /** A word the upcall must not change: anything off the exception stack except
      the two words under the trap-time stack pointer, and on the exception
      stack everything from the trap-time stack pointer up, if that is there. */
  predicate Live(esp: int, a: int) {
    if OnExceptionStack(esp) then !OnExceptionStack(a) || a >= esp
    else !OnExceptionStack(a) && a != esp - 1 && a != esp - 2
  }

  /** At or above a frame, or off the exception page. */
  predicate Above(sp: int, a: int) {
    a >= sp || a < XTOP - BY2PG
  }

  predicate OnPage(sp: int) {
    OnExceptionStack(sp - 1) && sp < XTOP
  }

  lemma {:induction false} RunKeeps(m: Mem, r: Regs, acts: seq<Act>, sp: int, a: int)
    requires Fits(sp, acts) && OnPage(sp) && Above(sp, a)
    ensures At(Run(m, r, acts).0, a) == At(m, a)
    decreases acts, 0
  {
    if acts != [] {
      match acts[0]
      case Scratch(b, x) => RunKeeps(m[b := x], r, acts[1..], sp, a);
      case Clobber(f, x, c, d) => RunKeeps(m, r.(eflags := f, eax := x, ecx := c, edx := d), acts[1..], sp, a);
      case Fault(at, n) =>
        assert n < acts[0];
        UpcallRestores(m, at, n, a);
        var (m1, r1) := Handle(m, at, n);
        RunKeeps(m1, r.(eflags := r1.eflags, eax := r1.eax, ecx := r1.ecx, edx := r1.edx), acts[1..], sp, a);
    }
  }

  /** Faults at a store of the return sequence come back to it with all registers
      as they were, and leave the frame and everything above it alone. */
  lemma {:induction false} FaultsKeep(m: Mem, r: Regs, ns: seq<Nest>, a: int)
    requires AllFit(r.esp, ns) && OnPage(r.esp) && Above(r.esp, a)
    ensures Faults(m, r, ns).1 == r
    ensures At(Faults(m, r, ns).0, a) == At(m, a)
    decreases ns, 0
  {
    if ns != [] {
      UpcallRestores(m, r, ns[0], a);
      FaultsKeep(Handle(m, r, ns[0]).0, r, ns[1..], a);
    }
  }

  /** The frame the C handler starts with. */
  function Entered(m: Mem, r: Regs, va: int, err: int): Mem {
    Saved(Pushed(m, r, va, err), r, FrameSp(r.esp))[FrameSp(r.esp) - 1 := 0]
  }

  /** The six words the return sequence needs, and nothing above the frame. */
  ghost predicate FrameHolds(m: Mem, sp: int, r: Regs) {
    At(m, sp + 2) == r.esp && At(m, sp + 3) == r.eflags && At(m, sp + 4) == r.eip &&
    At(m, sp + 5) == r.edx && At(m, sp + 6) == r.ecx && At(m, sp + 7) == r.eax
  }

  /** The handler finds the faulting address and the error code at its stack
      pointer, above them all that the return needs. */
  lemma FrameBuilt(m: Mem, r: Regs, va: int, err: int, a: int)
    ensures FrameHolds(Entered(m, r, va, err), FrameSp(r.esp), r)
    ensures At(Entered(m, r, va, err), FrameSp(r.esp)) == va && At(Entered(m, r, va, err), FrameSp(r.esp) + 1) == err
    ensures a > Top(r.esp) || a < BodySp(r.esp) ==> At(Entered(m, r, va, err), a) == At(m, a)
  {
  }

  lemma {:induction false} FrameSurvives(m: Mem, r: Regs, body: seq<Act>, sp: int, saved: Regs)
    requires Fits(sp, body) && OnPage(sp) && FrameHolds(m, sp, saved)
    ensures FrameHolds(Run(m, r, body).0, sp, saved)
    decreases body, 1
  {
    RunKeeps(m, r, body, sp, sp + 2);
    RunKeeps(m, r, body, sp, sp + 3);
    RunKeeps(m, r, body, sp, sp + 4);
    RunKeeps(m, r, body, sp, sp + 5);
    RunKeeps(m, r, body, sp, sp + 6);
    RunKeeps(m, r, body, sp, sp + 7);
  }

  /** It survives the faults of the return sequence as well. */
  lemma {:induction false} FrameSurvivesFaults(m: Mem, r: Regs, ns: seq<Nest>, saved: Regs)
    requires AllFit(r.esp, ns) && OnPage(r.esp) && FrameHolds(m, r.esp, saved)
    ensures FrameHolds(Faults(m, r, ns).0, r.esp, saved) && Faults(m, r, ns).1 == r
    decreases ns, 1
  {
    FaultsKeep(m, r, ns, r.esp + 2);
    FaultsKeep(m, r, ns, r.esp + 3);
    FaultsKeep(m, r, ns, r.esp + 4);
    FaultsKeep(m, r, ns, r.esp + 5);
    FaultsKeep(m, r, ns, r.esp + 6);
    FaultsKeep(m, r, ns, r.esp + 7);
  }

  /** The two words stored under the trap-time stack pointer never touch the part
      of the frame still to be read, nested or not. */
  lemma StoresMissFrame(m: Mem, r: Regs, r2: Regs)
    requires FrameHolds(m, FrameSp(r.esp), r) && r2.eax == r.esp
    ensures FrameHolds(First(m, r2), FrameSp(r.esp), r) && FrameHolds(Second(m, r2), FrameSp(r.esp), r)
  {
  }

  /** Up to and with the first store. */
  lemma {:induction false} FirstWorks(m: Mem, r: Regs, r1: Regs, ns: seq<Nest>, a: int)
    requires FrameHolds(m, r1.esp, r) && AllFit(r1.esp, ns) && r1.esp == FrameSp(r.esp) && OnPage(r1.esp)
    ensures var (m2, r2) := Faults(m, AtFirst(m, r1), ns);
            r2 == AtFirst(m, r1) && r2.eax == r.esp && FrameHolds(First(m2, r2), r1.esp, r) &&
            At(First(m2, r2), r.esp - 1) == r.eip &&
            (a != r.esp - 1 && Above(r1.esp, a) ==> At(First(m2, r2), a) == At(m, a))
    decreases ns, 2
  {
    var ra := AtFirst(m, r1);
    FrameSurvivesFaults(m, ra, ns, r);
    StoresMissFrame(Faults(m, ra, ns).0, r, ra);
    if Above(ra.esp, a) {
      FaultsKeep(m, ra, ns, a);
    }
    hide Faults, AllFit;
  }

  lemma ResumedIs(m: Mem, r: Regs, r4: Regs)
    requires FrameHolds(m, r4.esp, r) && r4.esp == FrameSp(r.esp) && r4.eax == r.esp && r4.edx == r.eflags
    requires At(m, r.esp - 1) == r.eip
    ensures Resumed(Second(m, r4), r4) == r
  {
    StoresMissFrame(m, r, r4);
  }

  /** From there to the end. */
  lemma {:induction false} SecondWorks(m: Mem, r: Regs, r2: Regs, ns: seq<Nest>, a: int)
    requires FrameHolds(m, r2.esp, r) && AllFit(r2.esp, ns) && r2.esp == FrameSp(r.esp) && OnPage(r2.esp)
    requires r2.eax == r.esp && At(m, r.esp - 1) == r.eip
    ensures var (m4, r4) := Faults(m, AtSecond(m, r2), ns);
            Resumed(Second(m4, r4), r4) == r &&
              (a != r.esp - 2 && Above(r2.esp, a) ==> At(Second(m4, r4), a) == At(m, a))
    decreases ns, 2
  {
    var rb := AtSecond(m, r2);
    FrameSurvivesFaults(m, rb, ns, r);
    FaultsKeep(m, rb, ns, r.esp - 1);
    assert rb.edx == r.eflags;
    if Above(rb.esp, a) {
      FaultsKeep(m, rb, ns, a);
    }
    hide Faults, AllFit, FrameHolds, Resumed;
    ResumedIs(Faults(m, rb, ns).0, r, rb);
  }

  /** The return sequence from the end of the C handler: whatever faults its two
      stores take, it gives back the registers of the interrupted code and changes
      only the two words it stores. */
  lemma {:induction false} ReturnWorks(m: Mem, r: Regs, r1: Regs, n: Nest, a: int)
    requires FrameHolds(m, FrameSp(r.esp), r) && NestFits(r.esp, n) && r1.esp == FrameSp(r.esp)
    ensures var (m2, r2) := Faults(m, AtFirst(m, r1), n.first);
            var m3 := First(m2, r2);
            var (m4, r4) := Faults(m3, AtSecond(m3, r2), n.second);
            Resumed(Second(m4, r4), r4) == r &&
            (a != r.esp - 1 && a != r.esp - 2 && Above(r1.esp, a) ==> At(Second(m4, r4), a) == At(m, a))
    decreases n, 0
  {
    FirstWorks(m, r, r1, n.first, a);
    var (m2, r2) := Faults(m, AtFirst(m, r1), n.first);
    SecondWorks(First(m2, r2), r, r2, n.second, a);
  }

  /** For any depth of nesting that fits the exception page, faults at the stores
      of the return sequence included: the upcall returns with eip, esp, eflags,
      eax, ecx and edx as they were at the fault, and no live word has changed. */
  lemma {:induction false} UpcallRestores(m: Mem, r: Regs, n: Nest, a: int)
    requires NestFits(r.esp, n)
    ensures Handle(m, r, n).1 == r
    ensures Live(r.esp, a) ==> At(Handle(m, r, n).0, a) == At(m, a)
    decreases n, 2
  {
    var sp, m0 := FrameSp(r.esp), Entered(m, r, n.va, n.err);
    var (m1, r1) := Run(m0, r.(esp := sp), n.body);
    FrameBuilt(m, r, n.va, n.err, a);
    FrameSurvives(m0, r.(esp := sp), n.body, sp, r);
    ReturnWorks(m1, r, r1.(esp := sp), n, a);
    if Live(r.esp, a) {
      RunKeeps(m0, r.(esp := sp), n.body, sp, a);
    }
    hide Run, Entered, Faults, AllFit, Fits, First, Second, AtFirst, AtSecond, Resumed;
  }
}
