/** The initial stack page of a spawned program: init_stack lays out argc, argv
    and the argument strings, and the child finds them again. */
module ArgStack {
  import opened Wrappers

  const BY2PG: nat := 4096
  const USTACKTOP: nat := 0xeebf_e000
  /** Where the child will see the page. */
  const BASE: nat := USTACKTOP - BY2PG

  /** A C string without its NUL. */
  type Str = s: seq<byte> | 0 !in s

  /** strlen + 1, summed over the first k arguments. */
  function Size(argv: seq<Str>, k: nat): nat
    requires k <= |argv|
  {
    if k == 0 then 0 else Size(argv, k - 1) + |argv[k - 1]| + 1
  }

  function Round4(n: nat): nat {
    (n + 3) / 4 * 4
  }

  lemma {:induction false} SizeMonotone(argv: seq<Str>, j: nat, k: nat)
    requires j <= k <= |argv|
    ensures Size(argv, j) <= Size(argv, k)
    decreases k
  {
    if j < k {
      SizeMonotone(argv, j, k - 1);
    }
  }

  /** A little-endian word. */
  function WordAt(page: seq<byte>, i: nat): nat
    requires i + 4 <= |page|
  {
    page[i] as nat + 0x100 * page[i + 1] as nat + 0x1_0000 * page[i + 2] as nat + 0x100_0000 * page[i + 3] as nat
  }

  /** A NUL-terminated string at offset i of the page. */
  ghost predicate StringAt(page: seq<byte>, i: int, s: Str) {
    0 <= i && i + |s| < |page| && page[i..i + |s|] == s && page[i + |s|] == 0
  }

  /** What a program started with stack pointer esp reads: argc at esp, the
      address of argv above it, and through argv the strings and a null. */
  ghost predicate Decodes(page: seq<byte>, esp: nat, argv: seq<Str>) {
    |page| == BY2PG && BASE <= esp && esp - BASE + 8 <= BY2PG &&
    WordAt(page, esp - BASE) == |argv| &&
    var args := WordAt(page, esp - BASE + 4);
    BASE <= args && args - BASE + 4 * |argv| + 4 <= BY2PG &&
    WordAt(page, args - BASE + 4 * |argv|) == 0 &&
    forall k | 0 <= k < |argv| :: StringAt(page, WordAt(page, args - BASE + 4 * k) - BASE, argv[k])
  }

  predicate Fits(argv: seq<Str>) {
    Round4(Size(argv, |argv|)) + 4 * (|argv| + 3) <= BY2PG
  }

  /** The lowest byte of v, and the rest. */
  method Low(v: nat) returns (b: byte, rest: nat)
    ensures v == b as nat + 0x100 * rest
  {
    b, rest := (v % 0x100) as byte, v / 0x100;
  }

  method PutWord(page: array<byte>, i: nat, v: nat)
    requires i + 4 <= page.Length && v < 0x1_0000_0000
    modifies page
    ensures WordAt(page[..], i) == v
    ensures forall k | 0 <= k < page.Length && !(i <= k < i + 4) :: page[k] == old(page[k])
  {
    var b0, r0 := Low(v);
    var b1, r1 := Low(r0);
    var b2, r2 := Low(r1);
    var b3, r3 := Low(r2);
    page[i], page[i + 1], page[i + 2], page[i + 3] := b0, b1, b2, b3;
  }

  method Strcpy(page: array<byte>, i: nat, s: Str)
    requires i + |s| < page.Length
    modifies page
    ensures StringAt(page[..], i, s)
    ensures forall k | 0 <= k < page.Length && !(i <= k <= i + |s|) :: page[k] == old(page[k])
  {
    var n := 0;
    while n < |s|
      invariant 0 <= n <= |s|
      invariant forall k | 0 <= k < n :: page[i + k] == s[k]
      invariant forall k | 0 <= k < page.Length && !(i <= k < i + n) :: page[k] == old(page[k])
    {
      page[i + n] := s[n];
      n := n + 1;
    }
    page[i + n] := 0;
  }

  /** Argument k has been copied in: its pointer and its string. */
  ghost predicate Placed(page: seq<byte>, argv: seq<Str>, args: nat, k: nat)
    requires k < |argv| && |page| == BY2PG && args + 4 * |argv| + 4 <= BY2PG
  {
    var at := BY2PG - Size(argv, |argv|) + Size(argv, k);
    WordAt(page, args + 4 * k) == BASE + at && StringAt(page, at, argv[k])
  }

  ghost predicate SameOutside(p: seq<byte>, q: seq<byte>, lo: nat, hi: nat) {
    |p| == |q| && forall k | 0 <= k < |p| && !(lo <= k < hi) :: p[k] == q[k]
  }

  /** Stores beside the pointer and the string of argument k leave it placed. */
  lemma StaysPlaced(p: seq<byte>, q: seq<byte>, argv: seq<Str>, args: nat, k: nat, lo: nat, hi: nat)
    requires k < |argv| && |p| == BY2PG && args + 4 * |argv| + 4 <= BY2PG
    requires Placed(p, argv, args, k) && SameOutside(p, q, lo, hi)
    requires hi <= args + 4 * k || args + 4 * k + 4 <= lo
    requires var at := BY2PG - Size(argv, |argv|) + Size(argv, k); hi <= at || at + |argv[k]| < lo
    ensures Placed(q, argv, args, k)
  {
    var at := BY2PG - Size(argv, |argv|) + Size(argv, k);
    assert p[at..at + |argv[k]|] == q[at..at + |argv[k]|];
  }

  /** init_stack, filling the scratch page. It refuses exactly the arguments that
      do not fit; otherwise every store is inside the page, and the child decodes
      argc and every argument as given. The size test is tight: the lowest word
      stored, argc, is as many bytes above the page's start as the test leaves. */
  method InitStack(argv: seq<Str>, page: array<byte>) returns (esp: Option<nat>)
    requires page.Length == BY2PG
    modifies page
    ensures esp.Some? <==> Fits(argv)
    ensures esp.Some? ==> Decodes(page[..], esp.value, argv)
    ensures esp.Some? ==> esp.value == BASE + BY2PG - (Round4(Size(argv, |argv|)) + 4 * (|argv| + 3))
    ensures esp.None? ==> page[..] == old(page[..])
  {
    hide Decodes, Placed, StringAt, WordAt;
    var argc, tot := 0, 0;
    while argc < |argv|
      invariant 0 <= argc <= |argv| && tot == Size(argv, argc)
    {
      tot := tot + |argv[argc]| + 1;
      argc := argc + 1;
    }
    if Round4(tot) + 4 * (argc + 3) > BY2PG {
      return None;
    }
    var strings := BY2PG - tot;
    var args := BY2PG - Round4(tot) - 4 * (argc + 1);
    var i := 0;
    while i < argc
      invariant 0 <= i <= argc && strings == BY2PG - tot + Size(argv, i)
      invariant forall k | 0 <= k < i :: Placed(page[..], argv, args, k)
    {
      SizeMonotone(argv, i + 1, argc);
      PlaceArg(page, argv, args, i, strings);
      strings := strings + |argv[i]| + 1;
      i := i + 1;
    }
    PushArgs(page, argv, args, argc);
    esp := Some(BASE + args - 8);
  }

  /** A word beside another keeps its value. */
  lemma WordStays(p: seq<byte>, q: seq<byte>, i: nat, lo: nat, hi: nat)
    requires i + 4 <= |p| && SameOutside(p, q, lo, hi) && (i + 4 <= lo || hi <= i)
    ensures WordAt(q, i) == WordAt(p, i)
  {
  }

  /** The null word, the argv and argc words. */
  method PushArgs(page: array<byte>, argv: seq<Str>, args: nat, argc: nat)
    requires page.Length == BY2PG && argc == |argv| && 8 <= args && args + 4 * |argv| + 4 <= BY2PG - Size(argv, |argv|)
    requires forall k | 0 <= k < |argv| :: Placed(page[..], argv, args, k)
    modifies page
    ensures Decodes(page[..], BASE + args - 8, argv)
  {
    hide WordAt, StringAt;
    ghost var p0 := page[..];
    PutWord(page, args + 4 * argc, 0);
    ghost var p1 := page[..];
    PutWord(page, args - 4, BASE + args);
    ghost var p2 := page[..];
    PutWord(page, args - 8, argc);
    ghost var p3 := page[..];
    forall k | 0 <= k < |argv| ensures Placed(p3, argv, args, k) {
      SizeMonotone(argv, k + 1, |argv|);
      StaysPlaced(p0, p1, argv, args, k, args + 4 * argc, args + 4 * argc + 4);
      StaysPlaced(p1, p2, argv, args, k, args - 4, args);
      StaysPlaced(p2, p3, argv, args, k, args - 8, args - 4);
    }
    WordStays(p1, p2, args + 4 * argc, args - 4, args);
    WordStays(p2, p3, args + 4 * argc, args - 8, args - 4);
    WordStays(p2, p3, args - 4, args - 8, args - 4);
    Readable(p3, argv, args);
  }

  lemma DecodesFrom(p: seq<byte>, argv: seq<Str>, args: nat, esp: nat)
    requires |p| == BY2PG && 8 <= args && args + 4 * |argv| + 4 <= BY2PG && esp == BASE + args - 8
    requires WordAt(p, args - 8) == |argv| && WordAt(p, args - 4) == BASE + args && WordAt(p, args + 4 * |argv|) == 0
    requires forall k | 0 <= k < |argv| :: StringAt(p, WordAt(p, args + 4 * k) - BASE, argv[k])
    ensures Decodes(p, esp, argv)
  {
    hide WordAt, StringAt;
    assert esp - BASE == args - 8 && esp - BASE + 4 == args - 4;
  }

  /** The words and the strings in place are what the child decodes. */
  lemma Readable(p: seq<byte>, argv: seq<Str>, args: nat)
    requires |p| == BY2PG && 8 <= args && args + 4 * |argv| + 4 <= BY2PG
    requires WordAt(p, args - 8) == |argv| && WordAt(p, args - 4) == BASE + args && WordAt(p, args + 4 * |argv|) == 0
    requires forall k | 0 <= k < |argv| :: Placed(p, argv, args, k)
    ensures Decodes(p, BASE + args - 8, argv)
  {
    hide WordAt, StringAt, Decodes;
    forall k | 0 <= k < |argv| ensures StringAt(p, WordAt(p, args + 4 * k) - BASE, argv[k]) {
      assert Placed(p, argv, args, k);
    }
    DecodesFrom(p, argv, args, BASE + args - 8);
  }

  /** One round of the copying loop. */
  method PlaceArg(page: array<byte>, argv: seq<Str>, args: nat, i: nat, strings: nat)
    requires page.Length == BY2PG && i < |argv| && args + 4 * |argv| + 4 <= BY2PG - Size(argv, |argv|)
    requires Size(argv, i + 1) <= Size(argv, |argv|) && strings == BY2PG - Size(argv, |argv|) + Size(argv, i)
    requires forall k | 0 <= k < i :: Placed(page[..], argv, args, k)
    modifies page
    ensures forall k | 0 <= k <= i :: Placed(page[..], argv, args, k)
  {
    hide WordAt, StringAt, Placed;
    ghost var p0 := page[..];
    Strcpy(page, strings, argv[i]);
    ghost var p1 := page[..];
    PutWord(page, args + 4 * i, BASE + strings);
    ghost var p2 := page[..];
    forall k | 0 <= k < i ensures Placed(p2, argv, args, k) {
      SizeMonotone(argv, k + 1, i);
      StaysPlaced(p0, p1, argv, args, k, strings, strings + |argv[i]| + 1);
      StaysPlaced(p1, p2, argv, args, k, args + 4 * i, args + 4 * i + 4);
    }
    JustPlaced(p1, p2, argv, args, i);
  }

  lemma JustPlaced(p: seq<byte>, q: seq<byte>, argv: seq<Str>, args: nat, i: nat)
    requires i < |argv| && |p| == BY2PG && args + 4 * |argv| + 4 <= BY2PG - Size(argv, |argv|)
    requires SameOutside(p, q, args + 4 * i, args + 4 * i + 4)
    requires var at := BY2PG - Size(argv, |argv|) + Size(argv, i);
             StringAt(p, at, argv[i]) && WordAt(q, args + 4 * i) == BASE + at
    ensures Placed(q, argv, args, i)
  {
    var at := BY2PG - Size(argv, |argv|) + Size(argv, i);
    assert p[at..at + |argv[i]|] == q[at..at + |argv[i]|];
  }
}
