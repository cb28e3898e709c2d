/** Loading a program segment (lib/elfloader.c) with the mappers of kern/env.c and
    user/lib/spawn.c. */
module SegmentLoad {
  import opened Mmu

  /** The bytes of one page. */
  type Page = s: seq<nat> | |s| == BY2PG witness seq(BY2PG, _ => 0)

  /** pages: the address space the segment goes into; writable: the pages mapped with PTE_D;
      budget: how many more calls of the mapper find the memory they need. */
  datatype Space = Space(pages: map<nat, Page>, writable: set<nat>, budget: nat)

  /** A zeroed page with src copied to `offset`. */
  function Filled(offset: nat, src: seq<nat>): Page {
    seq(BY2PG, j => if offset <= j < offset + |src| then src[j - offset] else 0)
  }

  function WithPerm(writable: set<nat>, d: bool, p: nat): set<nat> {
    if d then writable + {p} else writable - {p}
  }

  /** The mapper: a new page, with the bytes copied if there are any, in place of what was
      mapped at the page of va. */
  function MapPage(s: Space, d: bool, va: nat, offset: nat, src: seq<nat>): (r: (Space, int))
    requires offset + |src| <= BY2PG
  {
    if s.budget == 0 then (s, -E_NO_MEM)
    else (Space(s.pages[va / BY2PG := Filled(offset, src)], WithPerm(s.writable, d, va / BY2PG), s.budget - 1), 0)
  }

  function Min(a: nat, b: nat): nat { if a < b then a else b }

  /** The loop over the bytes of the file, from i on; also the i it ends with. */
  function FileLoop(s: Space, d: bool, va: nat, i: nat, bin: seq<nat>): (r: (Space, nat, int))
    decreases |bin| - i, s
  {
    if i >= |bin| then (s, i, 0)
    else
      var (s1, r) := MapPage(s, d, va + i, 0, bin[i..Min(i + BY2PG, |bin|)]);
      if r != 0 then (s1, i, r) else FileLoop(s1, d, va, i + BY2PG, bin)
  }

  /** The loop that maps pages without file contents, from i on. */
  function ZeroLoop(s: Space, d: bool, va: nat, i: nat, memsz: nat): (r: (Space, int))
    decreases memsz - i, s
  {
    if i >= memsz then (s, 0)
    else
      var (s1, r) := MapPage(s, d, va + i, 0, []);
      if r != 0 then (s1, r) else ZeroLoop(s1, d, va, i + BY2PG, memsz)
  }

  /** elf_load_seg; bin has p_filesz bytes, and d says whether p_flags has PF_W. */
  function LoadSeg(s: Space, d: bool, va: nat, bin: seq<nat>, memsz: nat): (r: (Space, int))
  {
    var offset := va % BY2PG;
    var first := Min(|bin|, BY2PG - offset);
    var (s1, r1) := if offset != 0 then MapPage(s, d, va, offset, bin[..first]) else (s, 0);
    if r1 != 0 then (s1, r1)
    else
      var (s2, i, r2) := FileLoop(s1, d, va, if offset != 0 then first else 0, bin);
      if r2 != 0 then (s2, r2) else ZeroLoop(s2, d, va, i, memsz)
  }

  // ---------- pages ----------

  predicate SamePage(s: Space, s': Space, q: nat) {
    && (q in s'.pages <==> q in s.pages) && (q in s.pages ==> s'.pages[q] == s.pages[q])
    && (q in s'.writable <==> q in s.writable)
  }

  /** From s to s', n pages from p on have been mapped; the rest is as it was. */
  ghost predicate OnlyMaps(s: Space, s': Space, d: bool, p: nat, n: nat) {
    && (forall q: nat | p <= q < p + n :: q in s'.pages && (q in s'.writable <==> d))
    && (forall q: nat | !(p <= q < p + n) :: q in s'.pages <==> q in s.pages)
    && (forall q: nat | !(p <= q < p + n) && q in s.pages :: s'.pages[q] == s.pages[q])
    && (forall q: nat | !(p <= q < p + n) :: q in s'.writable <==> q in s.writable)
  }

  function PagesFor(size: int): nat { if size <= 0 then 0 else (size + BY2PG - 1) / BY2PG }

  /** One page, and then n more. */
  lemma MapsOneMore(s: Space, s1: Space, s': Space, d: bool, p: nat, page: Page, n: nat)
    requires s1.pages == s.pages[p := page] && s1.writable == WithPerm(s.writable, d, p)
    requires OnlyMaps(s1, s', d, p + 1, n)
    ensures OnlyMaps(s, s', d, p, n + 1) && s'.pages[p] == page
  {
  }

  lemma OneMorePage(va: nat, i: nat, size: nat)
    requires i < size
    ensures (va + i + BY2PG) / BY2PG == (va + i) / BY2PG + 1
    ensures PagesFor(size - i) == PagesFor(size - (i + BY2PG)) + 1
  {
  }

  /** n zeroed pages from p on. */
  ghost predicate MapsZeros(s: Space, s': Space, d: bool, p: nat, n: nat) {
    OnlyMaps(s, s', d, p, n) && forall q: nat | p <= q < p + n :: s'.pages[q] == Filled(0, [])
  }

  lemma MapsOneMoreZero(s: Space, s1: Space, s': Space, d: bool, p: nat, n: nat)
    requires s1.pages == s.pages[p := Filled(0, [])] && s1.writable == WithPerm(s.writable, d, p)
    requires MapsZeros(s1, s', d, p + 1, n)
    ensures MapsZeros(s, s', d, p, n + 1)
  {
    MapsOneMore(s, s1, s', d, p, Filled(0, []), n);
  }

  /** The second loop maps zeroed pages, one for every BY2PG bytes or part of them. */
  lemma {:induction false} ZeroLoopMaps(s: Space, d: bool, va: nat, i: nat, memsz: nat)
    ensures var (s', r) := ZeroLoop(s, d, va, i, memsz);
      r == 0 ==> MapsZeros(s, s', d, (va + i) / BY2PG, PagesFor(memsz - i))
    decreases memsz - i
  {
    if i < memsz && s.budget > 0 {
      var s1 := MapPage(s, d, va + i, 0, []).0;
      ZeroLoopMaps(s1, d, va, i + BY2PG, memsz);
      OneMorePage(va, i, memsz);
      var (s', r) := ZeroLoop(s1, d, va, i + BY2PG, memsz);
      if r == 0 {
        MapsOneMoreZero(s, s1, s', d, (va + i) / BY2PG, PagesFor(memsz - (i + BY2PG)));
      }
    }
  }

  // ---------- when loading succeeds ----------

  /** How often elf_load_seg calls the mapper: once for the page that va does not begin, once for
      each further page of the file, and once for each page beyond that. */
  function MapperCalls(va: nat, size: nat, memsz: nat): nat {
    var offset := va % BY2PG;
    var i := if offset != 0 then Min(size, BY2PG - offset) else 0;
    var n := PagesFor(size - i);
    (if offset != 0 then 1 else 0) + n + PagesFor(memsz - (i + n * BY2PG))
  }

  lemma {:induction false} FileLoopCalls(s: Space, d: bool, va: nat, i: nat, bin: seq<nat>)
    ensures var (s', i', r) := FileLoop(s, d, va, i, bin); var n := PagesFor(|bin| - i);
      && (r == 0 <==> n <= s.budget) && (r != 0 ==> r == -E_NO_MEM && s'.budget == 0)
      && (r == 0 ==> s'.budget + n == s.budget && i' == i + n * BY2PG)
    decreases |bin| - i
  {
    if i < |bin| && s.budget > 0 {
      FileLoopCalls(MapPage(s, d, va + i, 0, bin[i..Min(i + BY2PG, |bin|)]).0, d, va, i + BY2PG, bin);
      OneMorePage(va, i, |bin|);
    }
  }

  lemma {:induction false} ZeroLoopCalls(s: Space, d: bool, va: nat, i: nat, memsz: nat)
    ensures var (s', r) := ZeroLoop(s, d, va, i, memsz); var n := PagesFor(memsz - i);
      && (r == 0 <==> n <= s.budget) && (r != 0 ==> r == -E_NO_MEM && s'.budget == 0)
      && (r == 0 ==> s'.budget + n == s.budget)
    decreases memsz - i
  {
    if i < memsz && s.budget > 0 {
      ZeroLoopCalls(MapPage(s, d, va + i, 0, []).0, d, va, i + BY2PG, memsz);
      OneMorePage(va, i, memsz);
    }
  }

  /** Loading succeeds exactly if so many calls of the mapper do, and otherwise reports that of
      the first one that does not. */
  lemma LoadSucceedsExactlyWhen(s: Space, d: bool, va: nat, bin: seq<nat>, memsz: nat)
    ensures var (s', r) := LoadSeg(s, d, va, bin, memsz); var n := MapperCalls(va, |bin|, memsz);
      && (r == 0 <==> n <= s.budget) && (r != 0 ==> r == -E_NO_MEM && s'.budget == 0)
      && (r == 0 ==> s'.budget + n == s.budget)
  {
    var offset := va % BY2PG;
    var first := Min(|bin|, BY2PG - offset);
    var s1 := if offset != 0 then MapPage(s, d, va, offset, bin[..first]).0 else s;
    var i := if offset != 0 then first else 0;
    FileLoopCalls(s1, d, va, i, bin);
    var (s2, i2, _) := FileLoop(s1, d, va, i, bin);
    ZeroLoopCalls(s2, d, va, i2, memsz);
  }

  // ---------- what is loaded ----------

  /** Byte a of the address space is v, on a page that is writable if and only if d. */
  predicate ByteIs(s: Space, d: bool, a: nat, v: nat) {
    a / BY2PG in s.pages && s.pages[a / BY2PG][a % BY2PG] == v && (a / BY2PG in s.writable <==> d)
  }

  /** What a segment has at its k-th byte. */
  function Content(bin: seq<nat>, k: nat): nat { if k < |bin| then bin[k] else 0 }

  /** The BY2PG bytes from va + i on, on a page of their own. */
  lemma PageBytes(s: Space, d: bool, va: nat, i: nat, bin: seq<nat>)
    requires (va + i) % BY2PG == 0 && i < |bin|
    requires var p := (va + i) / BY2PG;
      p in s.pages && s.pages[p] == Filled(0, bin[i..Min(i + BY2PG, |bin|)]) && (p in s.writable <==> d)
    ensures forall k: nat | i <= k < i + BY2PG :: ByteIs(s, d, va + k, Content(bin, k))
  {
    forall k: nat | i <= k < i + BY2PG ensures ByteIs(s, d, va + k, Content(bin, k)) {
      assert (va + k) / BY2PG == (va + i) / BY2PG && (va + k) % BY2PG == k - i;
    }
  }

  /** The first loop, when it starts at the beginning of a page, fills whole pages. */
  lemma {:induction false} FileLoopMaps(s: Space, d: bool, va: nat, i: nat, bin: seq<nat>)
    requires (va + i) % BY2PG == 0
    ensures var (s', i', r) := FileLoop(s, d, va, i, bin);
      && i' >= i && (va + i') % BY2PG == 0
      && (r == 0 ==>
            && i' >= |bin| && i' == i + PagesFor(|bin| - i) * BY2PG
            && OnlyMaps(s, s', d, (va + i) / BY2PG, PagesFor(|bin| - i))
            && forall k: nat | i <= k < i' :: ByteIs(s', d, va + k, Content(bin, k)))
    decreases |bin| - i
  {
    if i < |bin| && s.budget > 0 {
      var s1 := MapPage(s, d, va + i, 0, bin[i..Min(i + BY2PG, |bin|)]).0;
      FileLoopMaps(s1, d, va, i + BY2PG, bin);
      OneMorePage(va, i, |bin|);
      var (s', i', r) := FileLoop(s1, d, va, i + BY2PG, bin);
      if r == 0 {
        var page := Filled(0, bin[i..Min(i + BY2PG, |bin|)]);
        MapsOneMore(s, s1, s', d, (va + i) / BY2PG, page, PagesFor(|bin| - (i + BY2PG)));
        PageBytes(s', d, va, i, bin);
      }
    }
  }

  // ---------- the segment ----------

  /** Every byte of the segment is mapped and right: the file's bytes, then zeros, with the
      segment's permission. */
  ghost predicate Image(s: Space, d: bool, va: nat, bin: seq<nat>, memsz: nat) {
    forall k: nat | k < |bin| || k < memsz :: ByteIs(s, d, va + k, Content(bin, k))
  }

  /** The part of the segment before i is right, and lies on pages before that of va + i. */
  ghost predicate ImageUpTo(s: Space, d: bool, va: nat, bin: seq<nat>, i: nat) {
    (va + i) % BY2PG == 0 && forall k: nat | k < i :: ByteIs(s, d, va + k, Content(bin, k))
  }

  /** Both loops together, once i is at the beginning of a page. */
  lemma AlignedLoops(s: Space, d: bool, va: nat, i: nat, bin: seq<nat>, memsz: nat)
    requires ImageUpTo(s, d, va, bin, i)
    ensures var (s2, i2, r2) := FileLoop(s, d, va, i, bin);
      r2 == 0 && ZeroLoop(s2, d, va, i2, memsz).1 == 0 ==> Image(ZeroLoop(s2, d, va, i2, memsz).0, d, va, bin, memsz)
  {
    FileLoopMaps(s, d, va, i, bin);
    var (s2, i2, r2) := FileLoop(s, d, va, i, bin);
    if r2 == 0 {
      forall k: nat | k < i2 ensures ByteIs(s2, d, va + k, Content(bin, k)) {
        assert k < i ==> (va + k) / BY2PG < (va + i) / BY2PG;
      }
      ZeroTail(s2, d, va, i2, bin, memsz);
    }
  }

  lemma ZeroTail(s: Space, d: bool, va: nat, i: nat, bin: seq<nat>, memsz: nat)
    requires ImageUpTo(s, d, va, bin, i) && i >= |bin|
    ensures ZeroLoop(s, d, va, i, memsz).1 == 0 ==> Image(ZeroLoop(s, d, va, i, memsz).0, d, va, bin, memsz)
  {
    ZeroLoopMaps(s, d, va, i, memsz);
    var (s', r) := ZeroLoop(s, d, va, i, memsz);
    if r == 0 {
      forall k: nat | k < |bin| || k < memsz ensures ByteIs(s', d, va + k, Content(bin, k)) {
        if k < i {
          assert (va + k) / BY2PG < (va + i) / BY2PG;
        } else {
          PageOfByte(va, i, k, memsz);
        }
      }
    }
  }

  /** The page of byte k is among those of the bytes from i to memsz. */
  lemma PageOfByte(va: nat, i: nat, k: nat, memsz: nat)
    requires i <= k < memsz && (va + i) % BY2PG == 0
    ensures (va + i) / BY2PG <= (va + k) / BY2PG < (va + i) / BY2PG + PagesFor(memsz - i)
  {
    assert (va + k) / BY2PG == (va + i) / BY2PG + (k - i) / BY2PG;
  }

  /** The first page, when the segment starts in the middle of it. */
  lemma FirstPage(s: Space, d: bool, va: nat, bin: seq<nat>, k: nat)
    requires k < BY2PG - va % BY2PG && s.budget > 0
    ensures var s1 := MapPage(s, d, va, va % BY2PG, bin[..Min(|bin|, BY2PG - va % BY2PG)]).0;
      ByteIs(s1, d, va + k, Content(bin, k))
  {
    assert (va + k) / BY2PG == va / BY2PG && (va + k) % BY2PG == va % BY2PG + k;
  }

  /** The segment starts a page, or the file's bytes fill its first page, or there is nothing
      after them; or else the file's bytes are all zeros, and the loop that starts again on
      the first page still gets as far as the last. */
  predicate Loadable(va: nat, bin: seq<nat>, memsz: nat) {
    var offset := va % BY2PG;
    || offset == 0 || |bin| >= BY2PG - offset || memsz <= |bin|
    || ((forall k: nat | k < |bin| :: bin[k] == 0) && (memsz - |bin| - 1) % BY2PG + offset + |bin| < BY2PG)
  }

  lemma LoadFirstFull(s: Space, d: bool, va: nat, bin: seq<nat>, memsz: nat)
    requires LoadSeg(s, d, va, bin, memsz).1 == 0 && (va % BY2PG == 0 || |bin| >= BY2PG - va % BY2PG)
    ensures Image(LoadSeg(s, d, va, bin, memsz).0, d, va, bin, memsz)
  {
    var offset := va % BY2PG;
    if offset == 0 {
      AlignedLoops(s, d, va, 0, bin, memsz);
    } else {
      var s1 := MapPage(s, d, va, offset, bin[..BY2PG - offset]).0;
      forall k: nat | k < BY2PG - offset ensures ByteIs(s1, d, va + k, Content(bin, k)) {
        FirstPage(s, d, va, bin, k);
      }
      AlignedLoops(s1, d, va, BY2PG - offset, bin, memsz);
    }
  }

  /** The short segment: the loop for the zeros starts again on the page just filled. */
  lemma LoadShort(s: Space, d: bool, va: nat, bin: seq<nat>, memsz: nat)
    requires va % BY2PG != 0 && |bin| < BY2PG - va % BY2PG && LoadSeg(s, d, va, bin, memsz).1 == 0
    ensures var s', n := LoadSeg(s, d, va, bin, memsz).0, PagesFor(memsz - |bin|);
      && (n == 0 ==> Image(s', d, va, bin, memsz))
      && (n > 0 ==>
            && OnlyMaps(s, s', d, va / BY2PG, n)
            && forall q: nat | va / BY2PG <= q < va / BY2PG + n :: s'.pages[q] == Filled(0, []))
  {
    var s1 := MapPage(s, d, va, va % BY2PG, bin[..|bin|]).0;
    assert (va + |bin|) / BY2PG == va / BY2PG;
    ZeroLoopMaps(s1, d, va, |bin|, memsz);
    forall k: nat | k < |bin| ensures ByteIs(s1, d, va + k, Content(bin, k)) {
      FirstPage(s, d, va, bin, k);
    }
  }

  lemma ShortReach(va: nat, size: nat, memsz: nat)
    requires va % BY2PG + size < BY2PG && memsz > size
    ensures (va + memsz - 1) / BY2PG < va / BY2PG + PagesFor(memsz - size)
      <==> (memsz - size - 1) % BY2PG + va % BY2PG + size < BY2PG
  {
    var x := memsz - size - 1;
    assert PagesFor(memsz - size) == x / BY2PG + 1;
    assert va + memsz - 1 == va / BY2PG * BY2PG + x / BY2PG * BY2PG + (x % BY2PG + va % BY2PG + size);
  }

  lemma LoadShortImage(s: Space, d: bool, va: nat, bin: seq<nat>, memsz: nat)
    requires va % BY2PG != 0 && |bin| < BY2PG - va % BY2PG < BY2PG && memsz > |bin|
    requires LoadSeg(s, d, va, bin, memsz).1 == 0 && Loadable(va, bin, memsz)
    ensures Image(LoadSeg(s, d, va, bin, memsz).0, d, va, bin, memsz)
  {
    LoadShort(s, d, va, bin, memsz);
    ShortReach(va, |bin|, memsz);
    var s' := LoadSeg(s, d, va, bin, memsz).0;
    forall k: nat | k < memsz ensures ByteIs(s', d, va + k, Content(bin, k)) {
      assert va / BY2PG <= (va + k) / BY2PG <= (va + memsz - 1) / BY2PG;
    }
  }

  /** A segment that meets the condition is loaded as it should be, whatever was mapped before. */
  lemma LoadSegImage(s: Space, d: bool, va: nat, bin: seq<nat>, memsz: nat)
    requires Loadable(va, bin, memsz) && LoadSeg(s, d, va, bin, memsz).1 == 0
    ensures Image(LoadSeg(s, d, va, bin, memsz).0, d, va, bin, memsz)
  {
    if va % BY2PG == 0 || |bin| >= BY2PG - va % BY2PG {
      LoadFirstFull(s, d, va, bin, memsz);
    } else if memsz > |bin| {
      LoadShortImage(s, d, va, bin, memsz);
    } else {
      LoadShort(s, d, va, bin, memsz);
    }
  }

  predicate Unmapped(s: Space, va: nat, k: nat) { (va + k) / BY2PG !in s.pages }

  /** The other direction: where nothing of the segment was mapped before, the image is right
      only if the condition holds.  File bytes other than zeros are lost, and the last page may
      be missing. */
  lemma LoadSegImageExactly(s: Space, d: bool, va: nat, bin: seq<nat>, memsz: nat)
    requires LoadSeg(s, d, va, bin, memsz).1 == 0
    requires forall k: nat | k < memsz :: Unmapped(s, va, k)
    ensures Image(LoadSeg(s, d, va, bin, memsz).0, d, va, bin, memsz) <==> Loadable(va, bin, memsz)
  {
    var s' := LoadSeg(s, d, va, bin, memsz).0;
    if Loadable(va, bin, memsz) {
      LoadSegImage(s, d, va, bin, memsz);
    } else {
      LoadShort(s, d, va, bin, memsz);
      ShortReach(va, |bin|, memsz);
      if k: nat :| k < |bin| && bin[k] != 0 {
        assert (va + k) / BY2PG == va / BY2PG;
        assert !ByteIs(s', d, va + k, Content(bin, k));
      } else {
        assert Unmapped(s, va, memsz - 1);
        assert !ByteIs(s', d, va + (memsz - 1), Content(bin, memsz - 1));
      }
    }
  }

  /** Page q lies before the segment, or after its last byte. */
  predicate Outside(va: nat, size: nat, q: nat) {
    q < va / BY2PG || q * BY2PG >= va + size
  }

  lemma OutsidePages(va: nat, i: nat, size: nat, q: nat)
    requires Outside(va, size, q)
    ensures !((va + i) / BY2PG <= q < (va + i) / BY2PG + PagesFor(size - i))
  {
    if i < size && q >= va / BY2PG {
      var n := PagesFor(size - i);
      assert n * BY2PG <= size - i + BY2PG - 1;
      assert (va + i) / BY2PG * BY2PG <= va + i;
    }
  }

  lemma ZeroLoopFrame(s: Space, d: bool, va: nat, i: nat, memsz: nat, q: nat)
    requires Outside(va, memsz, q)
    ensures ZeroLoop(s, d, va, i, memsz).1 == 0 ==> SamePage(s, ZeroLoop(s, d, va, i, memsz).0, q)
  {
    ZeroLoopMaps(s, d, va, i, memsz);
    OutsidePages(va, i, memsz, q);
  }

  lemma FileLoopFrame(s: Space, d: bool, va: nat, i: nat, bin: seq<nat>, q: nat)
    requires Outside(va, |bin|, q) && ((va + i) % BY2PG == 0 || i >= |bin|)
    ensures FileLoop(s, d, va, i, bin).2 == 0 ==> SamePage(s, FileLoop(s, d, va, i, bin).0, q)
  {
    if i < |bin| {
      FileLoopMaps(s, d, va, i, bin);
      OutsidePages(va, i, |bin|, q);
    }
  }

  /** Pages outside the segment stay as they were. */
  lemma LoadSegFrame(s: Space, d: bool, va: nat, bin: seq<nat>, memsz: nat, q: nat)
    requires LoadSeg(s, d, va, bin, memsz).1 == 0 && Outside(va, |bin|, q) && Outside(va, memsz, q)
    ensures SamePage(s, LoadSeg(s, d, va, bin, memsz).0, q)
  {
    var offset := va % BY2PG;
    var first := Min(|bin|, BY2PG - offset);
    var s1 := if offset != 0 then MapPage(s, d, va, offset, bin[..first]).0 else s;
    var i := if offset != 0 then first else 0;
    var (s2, i2, _) := FileLoop(s1, d, va, i, bin);
    FileLoopFrame(s1, d, va, i, bin, q);
    ZeroLoopFrame(s2, d, va, i2, memsz, q);
  }

  // ---------- in place ----------

  class AddressSpace {
    var pages: map<nat, Page>
    var writable: set<nat>
    var budget: nat

    function State(): Space
      reads this
    {
      Space(pages, writable, budget)
    }

    /** load_icode_mapper and spawn_mapper. */
    method Map(d: bool, va: nat, offset: nat, src: seq<nat>) returns (r: int)
      requires offset + |src| <= BY2PG
      modifies this
      ensures (State(), r) == MapPage(old(State()), d, va, offset, src)
    {
      if budget == 0 {
        return -E_NO_MEM;
      }
      pages := pages[va / BY2PG := Filled(offset, src)];
      writable := WithPerm(writable, d, va / BY2PG);
      budget := budget - 1;
      return 0;
    }

    method ElfLoadSeg(d: bool, va: nat, bin: seq<nat>, memsz: nat) returns (r: int)
      modifies this
      ensures (State(), r) == LoadSeg(old(State()), d, va, bin, memsz)
    {
      var offset := va % BY2PG;
      var first := Min(|bin|, BY2PG - offset);
      if offset != 0 {
        r := Map(d, va, offset, bin[..first]);
        if r != 0 {
          return r;
        }
      }
      var i: nat := if offset != 0 then first else 0;
      ghost var s1 := State();
      while i < |bin|
        invariant FileLoop(State(), d, va, i, bin) == FileLoop(s1, d, va, if offset != 0 then first else 0, bin)
        decreases |bin| - i
      {
        r := Map(d, va + i, 0, bin[i..Min(i + BY2PG, |bin|)]);
        if r != 0 {
          return r;
        }
        i := i + BY2PG;
      }
      ghost var s2, i2 := State(), i;
      while i < memsz
        invariant ZeroLoop(State(), d, va, i, memsz) == ZeroLoop(s2, d, va, i2, memsz)
        decreases memsz - i
      {
        r := Map(d, va + i, 0, []);
        if r != 0 {
          return r;
        }
        i := i + BY2PG;
      }
      return 0;
    }
  }
}
