/** The first stack page of a spawned program (user/lib/spawn.c), and what its entry stub
    (user/lib/entry.S) finds there. */
module InitStack {
  import opened Mmu

  /** The bytes of the page that the parent fills at UTEMP and the child sees below USTACKTOP. */
  type Page = s: seq<nat> | |s| == BY2PG witness seq(BY2PG, _ => 0)

  /** A C string without its terminating NUL. */
  predicate CString(s: seq<nat>) { forall i | 0 <= i < |s| :: 0 < s[i] < 256 }

  // ---------- layout ----------

  function Round4(n: nat): nat { (n + 3) / 4 * 4 }

  /** The strings one after the other, each with its NUL. */
  function Joined(argv: seq<seq<nat>>): seq<nat> {
    if argv == [] then [] else Joined(argv[..|argv| - 1]) + argv[|argv| - 1] + [0]
  }

  /** The place of string i among them. */
  function Start(argv: seq<seq<nat>>, i: nat): nat
    requires i <= |argv|
  {
    |Joined(argv[..i])|
  }

  predicate Fits(argv: seq<seq<nat>>) { Round4(|Joined(argv)|) + 4 * (|argv| + 3) <= BY2PG }

  /** The address in the child of offset x of the page. */
  function Child(x: nat): nat { USTACKTOP - BY2PG + x }

  function StringsAt(argv: seq<seq<nat>>): nat
    requires Fits(argv)
  {
    BY2PG - |Joined(argv)|
  }

  /** The lowest word in use, where the child's stack pointer starts. */
  function Bottom(argv: seq<seq<nat>>): nat
    requires Fits(argv)
  {
    BY2PG - Round4(|Joined(argv)|) - 4 * (|argv| + 3)
  }

  /** The words from there on: argc, argv, the pointers, and where the comment in the source
      promises a 0, a pointer to the last byte of the page. */
  function Words(argv: seq<seq<nat>>): (w: seq<nat>)
    requires Fits(argv)
    ensures |w| == |argv| + 3
  {
    [|argv|, Child(Bottom(argv) + 8)]
    + seq(|argv|, i requires 0 <= i < |argv| => Child(StringsAt(argv) + Start(argv, i)))
    + [Child(BY2PG - 1)]
  }

  /** Byte k of a little-endian word. */
  function ByteOf(w: nat, k: nat): nat
    requires k < 4
  {
    if k == 0 then w % 256
    else if k == 1 then w / 256 % 256
    else if k == 2 then w / 0x1_0000 % 256
    else w / 0x100_0000 % 256
  }

  function PartlyAt(argv: seq<seq<nat>>, lo: nat, hi: nat, x: nat): nat
    requires Fits(argv) && hi <= |argv| + 3 && x < BY2PG
  {
    if x >= StringsAt(argv) then Joined(argv)[x - StringsAt(argv)]
    else if Bottom(argv) + 4 * lo <= x < Bottom(argv) + 4 * hi then
      ByteOf(Words(argv)[(x - Bottom(argv)) / 4], (x - Bottom(argv)) % 4)
    else 0
  }

  /** The page with the strings, and the words from lo to hi, in their places. */
  function Partly(argv: seq<seq<nat>>, lo: nat, hi: nat): Page
    requires Fits(argv) && hi <= |argv| + 3
  {
    seq(BY2PG, x requires 0 <= x < BY2PG => PartlyAt(argv, lo, hi, x))
  }

  function StackPage(argv: seq<seq<nat>>): Page
    requires Fits(argv)
  {
    Partly(argv, 0, |argv| + 3)
  }

  /** Strings, pointers and header lie inside the page, in this order from its top, and aligned. */
  lemma NoOverlap(argv: seq<seq<nat>>)
    requires Fits(argv)
    ensures Bottom(argv) % 4 == 0
    ensures Bottom(argv) + 4 * |Words(argv)| <= StringsAt(argv) <= BY2PG
    ensures StringsAt(argv) + |Joined(argv)| == BY2PG
  {
  }

  // ---------- reading it back ----------

  function WordAt(page: Page, x: nat): nat
    requires x + 4 <= BY2PG
  {
    page[x] + 0x100 * page[x + 1] + 0x1_0000 * page[x + 2] + 0x100_0000 * page[x + 3]
  }

  lemma BytesMakeWord(w: nat)
    requires w < 0x1_0000_0000
    ensures ByteOf(w, 0) + 0x100 * ByteOf(w, 1) + 0x1_0000 * ByteOf(w, 2) + 0x100_0000 * ByteOf(w, 3) == w
  {
    assert w == w / 256 * 256 + w % 256;
    assert w / 256 == w / 0x1_0000 * 256 + w / 256 % 256;
    assert w / 0x1_0000 == w / 0x100_0000 * 256 + w / 0x1_0000 % 256;
    assert w / 0x100_0000 < 256;
  }

  /** The string at offset x: the bytes up to the next NUL. */
  function StringAt(page: Page, x: nat): seq<nat>
    decreases BY2PG - x
  {
    if x >= BY2PG || page[x] == 0 then [] else [page[x]] + StringAt(page, x + 1)
  }

  lemma {:induction false} StringFound(page: Page, x: nat, s: seq<nat>)
    requires CString(s) && x + |s| < BY2PG && page[x..x + |s|] == s && page[x + |s|] == 0
    ensures StringAt(page, x) == s
    decreases |s|
  {
    if s != [] {
      assert page[x] == page[x..x + |s|][0] == s[0];
      assert page[x + 1..x + |s|] == page[x..x + |s|][1..];
      StringFound(page, x + 1, s[1..]);
    }
  }

  lemma {:induction false} JoinedHas(argv: seq<seq<nat>>, i: nat)
    requires i < |argv|
    ensures Start(argv, i) + |argv[i]| < |Joined(argv)|
    ensures Joined(argv)[Start(argv, i)..Start(argv, i) + |argv[i]|] == argv[i]
    ensures Joined(argv)[Start(argv, i) + |argv[i]|] == 0
    decreases |argv|
  {
    var n := |argv| - 1;
    var front := argv[..n];
    if i < n {
      JoinedHas(front, i);
      assert front[..i] == argv[..i];
      var a, b := Start(argv, i), Start(argv, i) + |argv[i]|;
      assert Joined(argv)[a..b] == Joined(front)[a..b];
    } else {
      assert Joined(argv) == Joined(front) + argv[n] + [0];
    }
  }

  lemma WordFound(argv: seq<seq<nat>>, k: nat)
    requires Fits(argv) && k < |argv| + 3 && Words(argv)[k] < 0x1_0000_0000
    ensures Bottom(argv) + 4 * k + 4 <= BY2PG
    ensures WordAt(StackPage(argv), Bottom(argv) + 4 * k) == Words(argv)[k]
  {
    NoOverlap(argv);
    BytesMakeWord(Words(argv)[k]);
    var page, x := StackPage(argv), Bottom(argv) + 4 * k;
    forall b: nat | b < 4 ensures page[x + b] == ByteOf(Words(argv)[k], b) {
      assert (x + b - Bottom(argv)) / 4 == k && (x + b - Bottom(argv)) % 4 == b;
    }
  }

  /** The entry stub finds argc and argv at the stack pointer.  The entry after the pointers is
      not the null pointer but the address of the last byte of the page. */
  lemma HeaderReadsBack(argv: seq<seq<nat>>)
    requires Fits(argv)
    ensures var page, sp := StackPage(argv), Bottom(argv);
      && sp % 4 == 0 && sp + 4 * (|argv| + 3) <= BY2PG
      && WordAt(page, sp) == |argv|
      && WordAt(page, sp + 4) == Child(sp + 8)
      && WordAt(page, sp + 8 + 4 * |argv|) == Child(BY2PG - 1)
  {
    NoOverlap(argv);
    WordFound(argv, 0);
    WordFound(argv, 1);
    WordFound(argv, 2 + |argv|);
  }

  /** Each of the argc pointers leads to a copy of the string it stands for. */
  lemma ArgumentReadsBack(argv: seq<seq<nat>>, i: nat)
    requires Fits(argv) && i < |argv| && CString(argv[i])
    ensures Bottom(argv) + 8 + 4 * i + 4 <= BY2PG
    ensures var p := WordAt(StackPage(argv), Bottom(argv) + 8 + 4 * i);
      p >= Child(0) && StringAt(StackPage(argv), p - Child(0)) == argv[i]
  {
    PointerWord(argv, i);
    PointerLeads(argv, i);
  }

  lemma PointerWord(argv: seq<seq<nat>>, i: nat)
    requires Fits(argv) && i < |argv|
    ensures Bottom(argv) + 8 + 4 * i + 4 <= BY2PG
    ensures WordAt(StackPage(argv), Bottom(argv) + 8 + 4 * i) == Child(StringsAt(argv) + Start(argv, i))
  {
    NoOverlap(argv);
    JoinedHas(argv, i);
    WordFound(argv, 2 + i);
    assert Bottom(argv) + 4 * (2 + i) == Bottom(argv) + 8 + 4 * i;
  }

  lemma PointerLeads(argv: seq<seq<nat>>, i: nat)
    requires Fits(argv) && i < |argv| && CString(argv[i])
    ensures StringAt(StackPage(argv), StringsAt(argv) + Start(argv, i)) == argv[i]
  {
    JoinedHas(argv, i);
    var page, x := StackPage(argv), StringsAt(argv) + Start(argv, i);
    assert page[x..x + |argv[i]|] == Joined(argv)[Start(argv, i)..Start(argv, i) + |argv[i]|];
    StringFound(page, x, argv[i]);
  }

  // ---------- filling the page ----------

  function SetWord(page: Page, x: nat, w: nat): Page
    requires x + 4 <= BY2PG
  {
    page[x := ByteOf(w, 0)][x + 1 := ByteOf(w, 1)][x + 2 := ByteOf(w, 2)][x + 3 := ByteOf(w, 3)]
  }

  lemma SetNextWord(argv: seq<seq<nat>>, lo: nat, hi: nat)
    requires Fits(argv) && lo <= hi < |argv| + 3
    ensures Bottom(argv) + 4 * hi + 4 <= BY2PG
    ensures SetWord(Partly(argv, lo, hi), Bottom(argv) + 4 * hi, Words(argv)[hi]) == Partly(argv, lo, hi + 1)
  {
    NoOverlap(argv);
  }

  lemma SetWordBelow(argv: seq<seq<nat>>, lo: nat, hi: nat)
    requires Fits(argv) && lo < hi <= |argv| + 3
    ensures Bottom(argv) + 4 * lo + 4 <= BY2PG
    ensures SetWord(Partly(argv, lo + 1, hi), Bottom(argv) + 4 * lo, Words(argv)[lo]) == Partly(argv, lo, hi)
  {
    NoOverlap(argv);
  }

  lemma SetPointer(argv: seq<seq<nat>>, i: nat)
    requires Fits(argv) && i < |argv|
    ensures Bottom(argv) + 8 + 4 * i + 4 <= BY2PG
    ensures SetWord(Partly(argv, 2, 2 + i), Bottom(argv) + 8 + 4 * i, Child(StringsAt(argv) + Start(argv, i)))
      == Partly(argv, 2, 2 + (i + 1))
  {
    assert Bottom(argv) + 4 * (2 + i) == Bottom(argv) + 8 + 4 * i;
    SetNextWord(argv, 2, 2 + i);
  }

  method PutWord(page: array<nat>, x: nat, w: nat)
    requires page.Length == BY2PG && x + 4 <= BY2PG
    modifies page
    ensures page[..] == SetWord(old(page[..]), x, w)
  {
    page[x] := ByteOf(w, 0);
    page[x + 1] := ByteOf(w, 1);
    page[x + 2] := ByteOf(w, 2);
    page[x + 3] := ByteOf(w, 3);
  }

  lemma JoinedNext(argv: seq<seq<nat>>, i: nat)
    requires i < |argv|
    ensures Joined(argv[..i + 1]) == Joined(argv[..i]) + argv[i] + [0]
    ensures Start(argv, i + 1) == Start(argv, i) + |argv[i]| + 1
  {
    assert argv[..i + 1][..i] == argv[..i];
  }

  /** The first loop: argc and the space for the strings. */
  method Measure(argv: seq<seq<nat>>) returns (argc: nat, tot: nat)
    ensures argc == |argv| && tot == |Joined(argv)|
  {
    argc, tot := 0, 0;
    while argc < |argv|
      invariant argc <= |argv| && tot == Start(argv, argc)
    {
      JoinedNext(argv, argc);
      tot := tot + |argv[argc]| + 1;
      argc := argc + 1;
    }
    assert argv[..argc] == argv;
  }

  /** One round of the second loop: a string and its NUL go to ctemp. */
  method CopyString(page: array<nat>, ctemp0: nat, s: seq<nat>) returns (ctemp: nat)
    requires ctemp0 + |s| < page.Length
    modifies page
    ensures ctemp == ctemp0 + |s| + 1
    ensures page[..] == old(page[..])[..ctemp0] + s + [0] + old(page[..])[ctemp..]
  {
    ctemp := ctemp0;
    var j := 0;
    while j < |s|
      invariant j <= |s| && ctemp == ctemp0 + j
      invariant page[..] == old(page[..])[..ctemp0] + s[..j] + old(page[..])[ctemp..]
    {
      page[ctemp] := s[j];
      ctemp := ctemp + 1;
      j := j + 1;
    }
    page[ctemp] := 0;
    ctemp := ctemp + 1;
  }

  /** Strings between zeros. */
  function Laid(before: nat, strings: seq<nat>, left: nat): seq<nat> {
    seq(before, _ => 0) + strings + seq(left, _ => 0)
  }

  /** A string and its NUL written over the zeros that follow the strings before it. */
  lemma LaidNext(before: nat, strings: seq<nat>, left: nat, s: seq<nat>)
    requires |s| < left
    ensures var x, page := before + |strings|, Laid(before, strings, left);
      Laid(before, strings + s + [0], left - |s| - 1) == page[..x] + s + [0] + page[x + |s| + 1..]
  {
    var x, page := before + |strings|, Laid(before, strings, left);
    assert page[..x] == seq(before, _ => 0) + strings;
    assert page[x + |s| + 1..] == seq(left - |s| - 1, _ => 0);
  }

  /** The page with the first i strings. */
  function Copied(argv: seq<seq<nat>>, i: nat): seq<nat>
    requires Fits(argv) && i <= |argv| && Start(argv, i) <= |Joined(argv)|
  {
    Laid(StringsAt(argv), Joined(argv[..i]), |Joined(argv)| - Start(argv, i))
  }

  lemma NextStart(argv: seq<seq<nat>>, i: nat)
    requires i < |argv|
    ensures Start(argv, i + 1) == Start(argv, i) + |argv[i]| + 1 <= |Joined(argv)|
  {
    JoinedNext(argv, i);
    JoinedHas(argv, i);
  }

  lemma CopiedNext(argv: seq<seq<nat>>, i: nat)
    requires Fits(argv) && i < |argv| && Start(argv, i + 1) == Start(argv, i) + |argv[i]| + 1 <= |Joined(argv)|
    ensures var x, page := StringsAt(argv) + Start(argv, i), Copied(argv, i);
      Copied(argv, i + 1) == page[..x] + argv[i] + [0] + page[x + |argv[i]| + 1..]
  {
    JoinedNext(argv, i);
    LaidNext(StringsAt(argv), Joined(argv[..i]), |Joined(argv)| - Start(argv, i), argv[i]);
  }

  lemma CopiedAll(argv: seq<seq<nat>>)
    requires Fits(argv)
    ensures Start(argv, |argv|) == |Joined(argv)| && Copied(argv, |argv|) == Partly(argv, 2, 2)
  {
    assert argv[..|argv|] == argv;
  }

  /** The second loop: all the strings. */
  method CopyStrings(page: array<nat>, argv: seq<seq<nat>>, strings: nat)
    requires Fits(argv) && page.Length == BY2PG && strings == StringsAt(argv)
    requires page[..] == seq(BY2PG, _ => 0)
    modifies page
    ensures page[..] == Partly(argv, 2, 2)
  {
    var ctemp, i := strings, 0;
    assert page[..] == Copied(argv, 0);
    while i < |argv|
      invariant i <= |argv| && Start(argv, i) <= |Joined(argv)| && ctemp == strings + Start(argv, i)
      invariant page[..] == Copied(argv, i)
    {
      NextStart(argv, i);
      CopiedNext(argv, i);
      ctemp := CopyString(page, ctemp, argv[i]);
      i := i + 1;
    }
    CopiedAll(argv);
  }

  /** The third loop; ctemp is an address in the child. */
  method PutPointers(page: array<nat>, argv: seq<seq<nat>>, args: nat, strings: nat) returns (ctemp: nat)
    requires Fits(argv) && page.Length == BY2PG && strings == StringsAt(argv) && args == Bottom(argv) + 8
    requires page[..] == Partly(argv, 2, 2)
    modifies page
    ensures page[..] == Partly(argv, 2, |argv| + 2) && ctemp == Child(BY2PG)
  {
    var i := 0;
    ctemp := Child(strings);
    while i < |argv|
      invariant i <= |argv| && ctemp == Child(strings + Start(argv, i))
      invariant page[..] == Partly(argv, 2, 2 + i)
    {
      JoinedNext(argv, i);
      PutPointer(page, argv, args, i, ctemp);
      ctemp := ctemp + |argv[i]| + 1;
      i := i + 1;
    }
    assert argv[..i] == argv;
  }

  /** args[i] = ctemp. */
  method PutPointer(page: array<nat>, argv: seq<seq<nat>>, args: nat, i: nat, ctemp: nat)
    requires Fits(argv) && page.Length == BY2PG && args == Bottom(argv) + 8 && i < |argv|
    requires ctemp == Child(StringsAt(argv) + Start(argv, i)) && page[..] == Partly(argv, 2, 2 + i)
    modifies page
    ensures page[..] == Partly(argv, 2, 2 + (i + 1))
  {
    SetPointer(argv, i);
    PutWord(page, args + 4 * i, ctemp);
  }

  /** The words around the pointers. */
  method PutHeader(page: array<nat>, argv: seq<seq<nat>>, args: nat, argc: nat, ctemp: nat)
    requires Fits(argv) && page.Length == BY2PG && args == Bottom(argv) + 8
    requires argc == |argv| && ctemp == Child(BY2PG) && page[..] == Partly(argv, 2, |argv| + 2)
    modifies page
    ensures page[..] == StackPage(argv)
  {
    SetNextWord(argv, 2, argc + 2);
    PutWord(page, args + 4 * argc, ctemp - 1);
    PutBelow(page, argv, 1, args - 4, Child(args));
    PutBelow(page, argv, 0, args - 8, argc);
  }

  /** One more word below the pointers. */
  method PutBelow(page: array<nat>, argv: seq<seq<nat>>, lo: nat, x: nat, w: nat)
    requires Fits(argv) && page.Length == BY2PG && lo < 2 && x == Bottom(argv) + 4 * lo && w == Words(argv)[lo]
    requires page[..] == Partly(argv, lo + 1, |argv| + 3)
    modifies page
    ensures page[..] == Partly(argv, lo, |argv| + 3)
  {
    SetWordBelow(argv, lo, |argv| + 3);
    PutWord(page, x, w);
  }

  /** init_stack, with the results of its three system calls; `given` says whether the child
      has the page, at the top of its stack. */
  method InitStack(argv: seq<seq<nat>>, alloc: int, share: int, unmap: int)
    returns (page: array<nat>, initSp: nat, given: bool, r: int)
    ensures r == if !Fits(argv) then -E_NO_MEM
                 else if alloc < 0 then alloc else if share < 0 then share else if unmap < 0 then unmap else 0
    ensures given <==> Fits(argv) && alloc >= 0 && share >= 0
    ensures Fits(argv) && alloc >= 0 ==> page[..] == StackPage(argv) && initSp == Child(Bottom(argv))
  {
    page := new nat[BY2PG](_ => 0);
    initSp := 0;
    var argc, tot := Measure(argv);
    if Round4(tot) + 4 * (argc + 3) > BY2PG {
      return page, initSp, false, -E_NO_MEM;
    }
    var strings := BY2PG - tot;
    var args := BY2PG - Round4(tot) - 4 * (argc + 1);
    if alloc < 0 {
      return page, initSp, false, alloc;
    }
    CopyStrings(page, argv, strings);
    var ctemp := PutPointers(page, argv, args, strings);
    PutHeader(page, argv, args, argc, ctemp);
    initSp := Child(args - 8);
    if share < 0 {
      return page, initSp, false, share;
    }
    if unmap < 0 {
      return page, initSp, true, unmap;
    }
    return page, initSp, true, 0;
  }
}
