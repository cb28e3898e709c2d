/** Physical pages, two-level page tables and the TLB as a machine state, with the
    operations of kern/pmap.c as functions on it.  The directory of an address space
    is found through its ASID: kern/env.c always passes env_pgdir and env_asid of the
    same environment together. */
module PageTables {
  import opened Mmu

  /** mem: contents of each physical page; refs: pp_ref of each page; free: the order of
      page_free_list; tlb: translations the TLB holds, by (ASID, virtual page);
      spaces: directory page of each live ASID; boot: pages in use for good, since
      page_init or since a fault that UpperSlots describes. */
  datatype Machine = Machine(
    mem: seq<Frame>,
    refs: seq<nat>,
    free: seq<nat>,
    tlb: map<(nat, nat), Word>,
    spaces: map<nat, nat>,
    boot: set<nat>)

  // ---------- slots: the places that hold a counted reference to a page ----------

  datatype Slot =
    | Leaf(asid: nat, vpn: nat)      // a page-table entry for a user page
    | Table(asid: nat, pdx: nat)     // a user entry of a directory
    | Dir(asid: nat)                 // env_pgdir
    | Boot(page: nat)                // a page in use for good

  ghost predicate IsSlot(m: Machine, s: Slot) {
    match s
    case Leaf(a, v) => a in m.spaces && v < USER_PAGES
    case Table(a, d) => a in m.spaces && d < USER_TABLES
    case Dir(a) => a in m.spaces
    case Boot(p) => p in m.boot
  }

  ghost function AllSlots(m: Machine): (s: set<Slot>)
    ensures forall r :: r in s <==> IsSlot(m, r)
  {
    (set a, v | a in m.spaces.Keys && 0 <= v < USER_PAGES :: Leaf(a, v))
    + (set a, d | a in m.spaces.Keys && 0 <= d < USER_TABLES :: Table(a, d))
    + (set a | a in m.spaces.Keys :: Dir(a))
    + (set p | p in m.boot :: Boot(p))
  }

  /** The directory entry of space `a` at index `d`. */
  function DirEntry(m: Machine, a: nat, d: nat): Word
    requires a in m.spaces && d < ENTRIES
  {
    if m.spaces[a] < |m.mem| then m.mem[m.spaces[a]][d] else ZERO
  }

  /** The page-table entry for virtual page `v`; a zero word when there is no table. */
  function Pte(m: Machine, a: nat, v: nat): Word
    requires a in m.spaces && v < USER_PAGES
  {
    var e := DirEntry(m, a, v / ENTRIES);
    if e.perm.v && e.ppn < |m.mem| then m.mem[e.ppn][v % ENTRIES] else ZERO
  }

  ghost function Target(m: Machine, s: Slot): Option<nat>
    requires IsSlot(m, s)
  {
    match s
    case Leaf(a, v) => var w := Pte(m, a, v); if w.perm.v then Some(w.ppn) else None
    case Table(a, d) => var w := DirEntry(m, a, d); if w.perm.v then Some(w.ppn) else None
    case Dir(a) => Some(m.spaces[a])
    case Boot(p) => Some(p)
  }

  ghost function RefsTo(m: Machine, p: nat): set<Slot> {
    set s | s in AllSlots(m) && Target(m, s) == Some(p)
  }

  // ---------- invariant ----------

  predicate Sized(m: Machine) {
    && |m.refs| == |m.mem|
    && (forall i | 0 <= i < |m.refs| :: m.refs[i] < 0x1_0000)  // unsigned short
    && (forall i | 0 <= i < |m.free| :: m.free[i] < |m.mem|)
  }

  ghost predicate InRange(m: Machine) {
    forall s | IsSlot(m, s) && Target(m, s).Some? :: Target(m, s).value < |m.mem|
  }

  /** Enough for every page number the code looks up to be a real page. */
  ghost predicate Shape(m: Machine) {
    Sized(m) && InRange(m)
  }

  /** Directories, page tables and boot pages are referenced once; only user pages are shared. */
  ghost predicate Separate(m: Machine) {
    forall s1, s2 | IsSlot(m, s1) && IsSlot(m, s2) && s1 != s2
      && Target(m, s1).Some? && Target(m, s1) == Target(m, s2) :: s1.Leaf? && s2.Leaf?
  }

  ghost predicate Counted(m: Machine)
    requires Sized(m)
  {
    forall p | 0 <= p < |m.mem| :: m.refs[p] == |RefsTo(m, p)|
  }

  ghost predicate FreeIsUnused(m: Machine)
    requires Sized(m)
  {
    Distinct(m.free) && forall p | p in m.free :: p < |m.mem| && m.refs[p] == 0
  }

  /** Every translation the TLB holds for a user page is the current page-table entry of the
      live space with that ASID; an ASID no space uses has no valid translation left. */
  ghost predicate Coherent(m: Machine) {
    forall a, v | (a, v) in m.tlb && v < USER_PAGES ::
      m.tlb[(a, v)] == if a in m.spaces then Pte(m, a, v) else ZERO
  }

  /** Page-table words are valid or zero. */
  ghost predicate Clean(m: Machine) {
    forall a, v: nat | a in m.spaces && v < USER_PAGES :: Pte(m, a, v).perm.v || Pte(m, a, v) == ZERO
  }

  ghost predicate Inv(m: Machine) {
    Shape(m) && Separate(m) && Counted(m) && FreeIsUnused(m) && Coherent(m) && Clean(m)
  }

  /** Pages allocated but not (or no longer) referenced from any slot. */
  ghost function Held(m: Machine): set<nat> {
    set p | 0 <= p < |m.mem| && p < |m.refs| && m.refs[p] == 0 && p !in m.free
  }

  ghost predicate OnlyLeaves(m: Machine, p: nat) {
    forall s | IsSlot(m, s) && Target(m, s) == Some(p) :: s.Leaf?
  }

  /** A page that may be mapped for a user: not free, and no table, directory or boot page. */
  ghost predicate Mappable(m: Machine, p: nat) {
    p < |m.mem| && p !in m.free && OnlyLeaves(m, p)
  }

  // ---------- effect of one change on the slots ----------

  /** m' has the same slots as m, and all but s0 refer to what they referred to. */
  ghost predicate OnlyChanges(m: Machine, m': Machine, s0: Slot) {
    && m'.spaces == m.spaces && m'.boot == m.boot && |m'.mem| == |m.mem|
    && IsSlot(m, s0)
    && forall s | IsSlot(m, s) && s != s0 :: Target(m', s) == Target(m, s)
  }

  lemma RefsOfOthers(m: Machine, m': Machine, s0: Slot, p: nat)
    requires OnlyChanges(m, m', s0)
    ensures RefsTo(m', p) - {s0} == RefsTo(m, p) - {s0}
  {
    assert forall s :: IsSlot(m', s) == IsSlot(m, s);
  }

  lemma RefsAfter(m: Machine, m': Machine, s0: Slot, p: nat)
    requires OnlyChanges(m, m', s0)
    ensures |RefsTo(m', p)| == |RefsTo(m, p)|
      - (if Target(m, s0) == Some(p) then 1 else 0) + (if Target(m', s0) == Some(p) then 1 else 0)
  {
    RefsOfOthers(m, m', s0, p);
    assert Target(m, s0) == Some(p) <==> s0 in RefsTo(m, p);
    assert Target(m', s0) == Some(p) <==> s0 in RefsTo(m', p);
    SizeWithout(RefsTo(m, p), s0);
    SizeWithout(RefsTo(m', p), s0);
  }

  lemma SizeWithout<T>(s: set<T>, x: T)
    ensures |s| == |s - {x}| + (if x in s then 1 else 0)
  {
    if x in s {
      assert s == (s - {x}) + {x};
    } else {
      assert s == s - {x};
    }
  }

  function StoreWord(m: Machine, p: nat, i: nat, w: Word): Machine
    requires p < |m.mem| && i < ENTRIES
  {
    m.(mem := m.mem[p := m.mem[p][i := w]])
  }

  /** Writing a page-table entry changes that translation and nothing else. */
  lemma StorePte(m: Machine, a: nat, v: nat, w: Word)
    requires Shape(m) && Separate(m) && a in m.spaces && v < USER_PAGES
    requires m.spaces[a] < |m.mem| && DirEntry(m, a, v / ENTRIES).perm.v
    requires DirEntry(m, a, v / ENTRIES).ppn < |m.mem|
    ensures var m' := StoreWord(m, DirEntry(m, a, v / ENTRIES).ppn, v % ENTRIES, w);
      && OnlyChanges(m, m', Leaf(a, v))
      && Target(m', Leaf(a, v)) == (if w.perm.v then Some(w.ppn) else None)
      && Pte(m', a, v) == w
      && (forall b, u: nat | b in m.spaces && u < USER_PAGES && (b, u) != (a, v) :: Pte(m', b, u) == Pte(m, b, u))
      && (forall b, d: nat | b in m.spaces && d < ENTRIES :: DirEntry(m', b, d) == DirEntry(m, b, d))
  {
    var t := DirEntry(m, a, v / ENTRIES).ppn;
    var m' := StoreWord(m, t, v % ENTRIES, w);
    assert Target(m, Table(a, v / ENTRIES)) == Some(t);
    forall b | b in m.spaces
      ensures m.spaces[b] != t && m.spaces[b] < |m.mem|
    {
      assert Target(m, Dir(b)) == Some(m.spaces[b]);
    }
    assert forall b, d: nat | b in m.spaces && d < ENTRIES :: DirEntry(m', b, d) == DirEntry(m, b, d);
    forall b, u: nat | b in m.spaces && u < USER_PAGES && (b, u) != (a, v)
      ensures Pte(m', b, u) == Pte(m, b, u)
    {
      var e := DirEntry(m, b, u / ENTRIES);
      if e.perm.v && e.ppn == t {
        assert Target(m, Table(b, u / ENTRIES)) == Some(t);
        assert Table(b, u / ENTRIES) == Table(a, v / ENTRIES);
        assert u % ENTRIES != v % ENTRIES;
      }
    }
    forall s | IsSlot(m, s) && s != Leaf(a, v)
      ensures Target(m', s) == Target(m, s)
    {
    }
  }

  // ---------- operations ----------

  function PageAlloc(m: Machine): (r: (Machine, Option<nat>))
    requires Sized(m)
  {
    if m.free == [] then (m, None)
    else
      var p := m.free[0];
      (m.(free := m.free[1..], mem := m.mem[p := ZeroFrame()]), Some(p))
  }

  function SetRef(m: Machine, p: nat, n: nat): Machine
    requires p < |m.refs|
  {
    m.(refs := m.refs[p := n])
  }

  function PushFree(m: Machine, p: nat): Machine {
    m.(free := [p] + m.free)
  }

  /** Decrement and increment of an unsigned short. */
  function Dec16(n: nat): nat { if n == 0 then 0xFFFF else n - 1 }
  function Inc16(n: nat): nat { if n == 0xFFFF then 0 else n + 1 }

  function PageDecref(m: Machine, p: nat): (r: Machine)
    requires Sized(m) && p < |m.mem|
  {
    var n := Dec16(m.refs[p]);
    if n == 0 then PushFree(SetRef(m, p, n), p) else SetRef(m, p, n)
  }

  function TlbInvalidate(m: Machine, a: nat, v: nat): Machine {
    m.(tlb := m.tlb - {(a, v)})
  }

  /** The result of pgdir_walk: the page holding the entry, if there is one. */
  datatype Walk = Walk(m: Machine, table: Option<nat>, error: int)

  const TABLE_PERM := NO_PERM.(v := true, d := true)

  function PgdirWalk(m: Machine, a: nat, v: nat, create: bool): (r: Walk)
    requires Inv(m) && a in m.spaces && v < USER_PAGES
  {
    var e := DirEntry(m, a, v / ENTRIES);
    if e.perm.v then Walk(m, Some(e.ppn), 0)
    else if !create then Walk(m, None, 0)
    else
      var (m1, page) := PageAlloc(m);
      if page.None? then Walk(m1, None, -E_NO_MEM)
      else
        assert Target(m, Dir(a)) == Some(m.spaces[a]);
        Walk(StoreWord(SetRef(m1, page.value, 1), m.spaces[a], v / ENTRIES, Word(page.value, TABLE_PERM)), page, 0)
  }

  function PageLookup(m: Machine, a: nat, v: nat): (r: Option<Word>)
    requires Inv(m) && a in m.spaces && v < USER_PAGES
  {
    var w := PgdirWalk(m, a, v, false);
    if w.table.None? then None
    else
      assert Target(m, Table(a, v / ENTRIES)) == w.table;
      var pte := m.mem[w.table.value][v % ENTRIES];
      if pte.perm.v then Some(pte) else None
  }

  function PageRemove(m: Machine, a: nat, v: nat): (r: Machine)
    requires Inv(m) && a in m.spaces && v < USER_PAGES
  {
    var found := PageLookup(m, a, v);
    if found.None? then m
    else
      assert Target(m, Table(a, v / ENTRIES)) == Some(DirEntry(m, a, v / ENTRIES).ppn);
      assert Target(m, Leaf(a, v)) == Some(found.value.ppn);
      var m1 := PageDecref(m, found.value.ppn);
      var m2 := StoreWord(m1, DirEntry(m, a, v / ENTRIES).ppn, v % ENTRIES, ZERO);
      TlbInvalidate(m2, a, v)
  }

  // ---------- page_alloc ----------

  lemma UnusedHasNoSlot(m: Machine, p: nat)
    requires Sized(m) && Counted(m) && p < |m.mem| && m.refs[p] == 0
    ensures forall s | IsSlot(m, s) :: Target(m, s) != Some(p)
  {
    assert RefsTo(m, p) == {};
    forall s | IsSlot(m, s)
      ensures Target(m, s) != Some(p)
    {
      assert s !in RefsTo(m, p);
    }
  }

  lemma AllocKeepsInv(m: Machine)
    requires Inv(m)
    ensures var (m', page) := PageAlloc(m);
      && Inv(m')
      && (page.None? <==> m.free == [])
      && (page.None? ==> m' == m)
      && (page.Some? ==>
            && page.value in Held(m') && page.value !in Held(m)
            && Held(m') == Held(m) + {page.value}
            && m'.mem[page.value] == ZeroFrame()
            && (forall s | IsSlot(m, s) :: IsSlot(m', s) && Target(m', s) == Target(m, s)))
      && (forall a, v: nat | a in m.spaces && v < USER_PAGES :: Pte(m', a, v) == Pte(m, a, v))
      && (forall a, d: nat | a in m.spaces && d < ENTRIES :: DirEntry(m', a, d) == DirEntry(m, a, d))
  {
    if m.free != [] {
      var p := m.free[0];
      var m' := PageAlloc(m).0;
      UnusedHasNoSlot(m, p);
      forall a | a in m.spaces ensures m.spaces[a] != p {
        assert Target(m, Dir(a)) == Some(m.spaces[a]);
      }
      forall a, d: nat | a in m.spaces && d < ENTRIES
        ensures DirEntry(m', a, d) == DirEntry(m, a, d)
      {
      }
      forall a, v: nat | a in m.spaces && v < USER_PAGES
        ensures Pte(m', a, v) == Pte(m, a, v)
      {
        var e := DirEntry(m, a, v / ENTRIES);
        if e.perm.v {
          assert Target(m, Table(a, v / ENTRIES)) == Some(e.ppn);
        }
      }
      assert forall s :: IsSlot(m', s) == IsSlot(m, s);
      forall s | IsSlot(m, s)
        ensures Target(m', s) == Target(m, s)
      {
      }
      assert AllSlots(m') == AllSlots(m);
      forall q | 0 <= q < |m.mem| ensures RefsTo(m', q) == RefsTo(m, q) {
      }
      assert Distinct(m'.free) && p !in m'.free;
    }
  }

  // ---------- how one changed slot carries the invariant over ----------

  /** What stays the same when only user translations change: spaces, boot pages, the page tables
      already there, and the directory entries above UTOP. */
  ghost predicate SameFrame(m: Machine, m': Machine) {
    && m'.spaces == m.spaces && m'.boot == m.boot && |m'.mem| == |m.mem|
    && (forall s | IsSlot(m, s) && !s.Leaf? && Target(m, s).Some? :: Target(m', s) == Target(m, s))
    && (forall b, e: nat | b in m.spaces && USER_TABLES <= e < ENTRIES :: DirEntry(m', b, e) == DirEntry(m, b, e))
  }

  /** Pages holding user data keep their contents. */
  ghost predicate SameData(m: Machine, m': Machine)
    requires |m'.mem| == |m.mem|
  {
    forall q: nat | Mappable(m, q) :: m'.mem[q] == m.mem[q]
  }

  /** Every translation other than the one for (a, v) is as before. */
  ghost predicate OthersKeep(m: Machine, m': Machine, a: nat, v: nat)
    requires m'.spaces == m.spaces
  {
    forall b, u: nat | b in m.spaces && u < USER_PAGES && (b, u) != (a, v) :: Pte(m', b, u) == Pte(m, b, u)
  }

  /** Targets depend on memory contents, spaces and boot pages only. */
  lemma SameMemSameTargets(m: Machine, m': Machine)
    requires m'.mem == m.mem && m'.spaces == m.spaces && m'.boot == m.boot
    ensures forall s :: IsSlot(m', s) == IsSlot(m, s)
    ensures forall s | IsSlot(m, s) :: Target(m', s) == Target(m, s)
    ensures forall a, v: nat | a in m.spaces && v < USER_PAGES :: Pte(m', a, v) == Pte(m, a, v)
  {
  }

  lemma SeparateAfter(m: Machine, m': Machine, s0: Slot)
    requires InRange(m) && Separate(m) && OnlyChanges(m, m', s0)
    requires Target(m', s0).Some? ==>
      && Target(m', s0).value < |m.mem|
      && forall s | IsSlot(m, s) && s != s0 && Target(m, s) == Target(m', s0) :: s.Leaf? && s0.Leaf?
    ensures InRange(m') && Separate(m')
  {
    assert forall s :: IsSlot(m', s) == IsSlot(m, s);
  }

  lemma DecrefCounts(m: Machine, m': Machine, s0: Slot, p: nat)
    requires Sized(m) && Counted(m) && p < |m.mem|
    requires OnlyChanges(m, m', s0) && Target(m, s0) == Some(p) && Target(m', s0) == None
    requires m'.refs == PageDecref(m, p).refs
    ensures m.refs[p] > 0
    ensures forall q | 0 <= q < |m.mem| :: m'.refs[q] == |RefsTo(m', q)|
  {
    assert s0 in RefsTo(m, p);
    forall q: nat | q < |m.mem| ensures m'.refs[q] == |RefsTo(m', q)| {
      RefsAfter(m, m', s0, q);
      assert m.refs[q] == |RefsTo(m, q)|;
    }
  }

  /** The free list and the held pages after one reference to p has been dropped. */
  lemma DecrefFree(m: Machine, m': Machine, p: nat)
    requires Sized(m) && FreeIsUnused(m) && p < |m.mem| && m.refs[p] > 0
    requires |m'.mem| == |m.mem| && m'.refs == PageDecref(m, p).refs && m'.free == PageDecref(m, p).free
    ensures Sized(m') && FreeIsUnused(m') && Held(m') == Held(m)
    ensures m'.free == if m.refs[p] == 1 then [p] + m.free else m.free
  {
    assert p !in m.free;
  }

  /** Dropping the TLB entry of the one translation that changed keeps the TLB coherent. */
  lemma CoherentAfter(m: Machine, m': Machine, a: nat, v: nat)
    requires Coherent(m) && m'.spaces == m.spaces && OthersKeep(m, m', a, v)
    requires m'.tlb == m.tlb - {(a, v)}
    ensures Coherent(m')
  {
  }

  /** Tables and directories do not hold user data, so writing them keeps all user data. */
  lemma TableNotMappable(m: Machine, a: nat, d: nat, q: nat)
    requires a in m.spaces && d < USER_TABLES && Mappable(m, q)
    ensures DirEntry(m, a, d).perm.v ==> DirEntry(m, a, d).ppn != q
    ensures m.spaces[a] != q
  {
    if DirEntry(m, a, d).perm.v {
      assert Target(m, Table(a, d)) == Some(DirEntry(m, a, d).ppn);
    }
    assert Target(m, Dir(a)) == Some(m.spaces[a]);
  }

  /** Rewriting the entry for (a, v), its TLB entry dropped: the one translation changes. */
  lemma WriteEntry(m: Machine, m': Machine, a: nat, v: nat, w: Word)
    requires Shape(m) && Separate(m) && Coherent(m) && Clean(m) && a in m.spaces && v < USER_PAGES
    requires DirEntry(m, a, v / ENTRIES).perm.v && DirEntry(m, a, v / ENTRIES).ppn < |m.mem|
    requires w.perm.v || w == ZERO
    requires w.perm.v ==> w.ppn < |m.mem| && OnlyLeaves(m, w.ppn)
    requires m'.mem == StoreWord(m, DirEntry(m, a, v / ENTRIES).ppn, v % ENTRIES, w).mem
    requires m'.spaces == m.spaces && m'.boot == m.boot && m'.tlb == m.tlb - {(a, v)}
    ensures OnlyChanges(m, m', Leaf(a, v)) && Pte(m', a, v) == w
    ensures Target(m', Leaf(a, v)) == (if w.perm.v then Some(w.ppn) else None)
    ensures InRange(m') && Separate(m') && OthersKeep(m, m', a, v) && Coherent(m') && Clean(m')
    ensures SameFrame(m, m') && SameData(m, m')
  {
    var t := DirEntry(m, a, v / ENTRIES).ppn;
    assert Target(m, Dir(a)) == Some(m.spaces[a]);
    var mS := StoreWord(m, t, v % ENTRIES, w);
    StorePte(m, a, v, w);
    SameMemSameTargets(mS, m');
    SeparateAfter(m, m', Leaf(a, v));
    CoherentAfter(m, m', a, v);
    forall q: nat | Mappable(m, q) ensures m'.mem[q] == m.mem[q] {
      TableNotMappable(m, a, v / ENTRIES, q);
    }
  }

  // ---------- page_remove ----------

  lemma RemoveKeepsInv(m: Machine, a: nat, v: nat)
    requires Inv(m) && a in m.spaces && v < USER_PAGES
    ensures var m' := PageRemove(m, a, v);
      && Inv(m') && Held(m') == Held(m)
      && SameFrame(m, m') && SameData(m, m') && OthersKeep(m, m', a, v)
      && DirEntry(m', a, v / ENTRIES) == DirEntry(m, a, v / ENTRIES)
      && Pte(m', a, v) == ZERO
  {
    var found := PageLookup(m, a, v);
    if found.Some? {
      var p := found.value.ppn;
      var m' := PageRemove(m, a, v);
      assert Target(m, Table(a, v / ENTRIES)) == Some(DirEntry(m, a, v / ENTRIES).ppn);
      assert Target(m, Leaf(a, v)) == Some(p);
      assert Leaf(a, v) in RefsTo(m, p);
      WriteEntry(m, m', a, v, ZERO);
      DecrefCounts(m, m', Leaf(a, v), p);
      DecrefFree(m, m', p);
      assert Target(m, Dir(a)) == Some(m.spaces[a]);
    }
  }

  // ---------- pgdir_walk ----------

  /** Hanging an empty, unreferenced page below a directory changes no translation. */
  lemma StoreDirEntry(m: Machine, a: nat, d: nat, p: nat)
    requires Shape(m) && Separate(m) && a in m.spaces && d < USER_TABLES
    requires p < |m.mem| && m.mem[p] == ZeroFrame() && !DirEntry(m, a, d).perm.v
    requires forall s | IsSlot(m, s) :: Target(m, s) != Some(p)
    ensures m.spaces[a] < |m.mem|
    ensures var m' := StoreWord(m, m.spaces[a], d, Word(p, TABLE_PERM));
      && OnlyChanges(m, m', Table(a, d)) && Target(m', Table(a, d)) == Some(p)
      && DirEntry(m', a, d) == Word(p, TABLE_PERM)
      && (forall b, u: nat | b in m.spaces && u < USER_PAGES :: Pte(m', b, u) == Pte(m, b, u))
      && (forall b, e: nat | b in m.spaces && e < ENTRIES && (b, e) != (a, d) ::
            DirEntry(m', b, e) == DirEntry(m, b, e))
  {
    assert Target(m, Dir(a)) == Some(m.spaces[a]);
    var m' := StoreWord(m, m.spaces[a], d, Word(p, TABLE_PERM));
    forall b, e: nat | b in m.spaces && e < ENTRIES && (b, e) != (a, d)
      ensures DirEntry(m', b, e) == DirEntry(m, b, e)
    {
      assert Target(m, Dir(b)) == Some(m.spaces[b]);
    }
    forall b, u: nat | b in m.spaces && u < USER_PAGES
      ensures Pte(m', b, u) == Pte(m, b, u)
    {
      var e := DirEntry(m, b, u / ENTRIES);
      if e.perm.v {
        assert Target(m, Table(b, u / ENTRIES)) == Some(e.ppn);
      }
    }
    forall s | IsSlot(m, s) && s != Table(a, d)
      ensures Target(m', s) == Target(m, s)
    {
    }
  }

  lemma NewTableKeepsInv(m: Machine, a: nat, v: nat)
    requires Inv(m) && a in m.spaces && v < USER_PAGES
    requires !DirEntry(m, a, v / ENTRIES).perm.v && m.free != []
    ensures var w := PgdirWalk(m, a, v, true);
      && w.error == 0 && w.table == Some(m.free[0])
      && Inv(w.m) && Held(w.m) == Held(m)
      && SameFrame(m, w.m) && SameData(m, w.m)
      && DirEntry(w.m, a, v / ENTRIES) == Word(m.free[0], TABLE_PERM)
      && w.m.refs == m.refs[m.free[0] := 1] && w.m.free == m.free[1..] && w.m.tlb == m.tlb
      && forall b, u: nat | b in m.spaces && u < USER_PAGES :: Pte(w.m, b, u) == Pte(m, b, u)
  {
    var p := m.free[0];
    var m1 := PageAlloc(m).0;
    AllocKeepsInv(m);
    UnusedHasNoSlot(m1, p);
    StoreDirEntry(m1, a, v / ENTRIES, p);
    var m2 := StoreWord(m1, m.spaces[a], v / ENTRIES, Word(p, TABLE_PERM));
    var m' := PgdirWalk(m, a, v, true).m;
    SameMemSameTargets(m2, m');
    assert Target(m, Dir(a)) == Some(m.spaces[a]);
    NewTableInv(m1, m', Table(a, v / ENTRIES), p);
  }

  /** A page that was held gets its first reference. */
  lemma NewTableInv(m: Machine, m': Machine, s0: Slot, p: nat)
    requires Inv(m) && p in Held(m) && OnlyChanges(m, m', s0) && Target(m, s0) == None && Target(m', s0) == Some(p)
    requires m'.refs == m.refs[p := 1] && m'.free == m.free && m'.tlb == m.tlb
    requires forall s | IsSlot(m, s) :: Target(m, s) != Some(p)
    requires forall b, u: nat | b in m.spaces && u < USER_PAGES :: Pte(m', b, u) == Pte(m, b, u)
    ensures Inv(m') && Held(m') == Held(m) - {p}
  {
    SeparateAfter(m, m', s0);
    FirstReference(m, m', s0, p);
  }

  /** Its directory entry has PTE_V and PTE_D, and no other bit. */
  lemma NewTableEntry(m: Machine, a: nat, v: nat)
    requires Inv(m) && a in m.spaces && v < USER_PAGES
    requires !DirEntry(m, a, v / ENTRIES).perm.v && m.free != []
    ensures DirEntry(PgdirWalk(m, a, v, true).m, a, v / ENTRIES) == Word(m.free[0], Perm(true, true, false, false, 0))
  {
    NewTableKeepsInv(m, a, v);
  }

  lemma FirstReference(m: Machine, m': Machine, s0: Slot, p: nat)
    requires Sized(m) && Counted(m) && p < |m.mem| && m.refs[p] == 0
    requires OnlyChanges(m, m', s0) && Target(m, s0) == None && Target(m', s0) == Some(p)
    requires m'.refs == m.refs[p := 1]
    ensures forall q | 0 <= q < |m.mem| :: m'.refs[q] == |RefsTo(m', q)|
  {
    IncrefCounts(m, m', s0, p);
  }

  // ---------- page_insert ----------

  function MappedWord(p: nat, perm: Perm): Word {
    Word(p, perm.(v := true))
  }

  /** page_insert up to the point where the entry is written: the old mapping removed, the
      TLB entry dropped, the table walked with create set. */
  function InsertWalk(m: Machine, a: nat, v: nat): (w: Walk)
    requires Inv(m) && a in m.spaces && v < USER_PAGES
  {
    RemoveKeepsInv(m, a, v);
    var m1 := PageRemove(m, a, v);
    InvalidateKeepsInv(m1, a, v);
    PgdirWalk(TlbInvalidate(m1, a, v), a, v, true)
  }

  lemma InvalidateKeepsInv(m: Machine, a: nat, v: nat)
    requires Inv(m)
    ensures var m' := TlbInvalidate(m, a, v);
      && Inv(m') && Held(m') == Held(m)
      && (forall s :: IsSlot(m', s) == IsSlot(m, s))
      && (forall s | IsSlot(m, s) :: Target(m', s) == Target(m, s))
      && (forall b, u: nat | b in m.spaces && u < USER_PAGES :: Pte(m', b, u) == Pte(m, b, u))
  {
    var m' := TlbInvalidate(m, a, v);
    SameMemSameTargets(m, m');
    assert AllSlots(m') == AllSlots(m);
    forall q: nat | q < |m.mem| ensures RefsTo(m', q) == RefsTo(m, q) {
    }
  }

  function PageInsert(m: Machine, a: nat, p: nat, v: nat, perm: Perm): (r: (Machine, int))
    requires Inv(m) && a in m.spaces && v < USER_PAGES && p < |m.mem|
  {
    var found := PageLookup(m, a, v);
    if found.Some? && found.value.ppn == p then
      assert Target(m, Table(a, v / ENTRIES)) == Some(DirEntry(m, a, v / ENTRIES).ppn);
      (StoreWord(TlbInvalidate(m, a, v), DirEntry(m, a, v / ENTRIES).ppn, v % ENTRIES, MappedWord(p, perm)), 0)
    else
      var w := InsertWalk(m, a, v);
      if w.error != 0 then (w.m, -E_NO_MEM)
      else
        InsertWalkEffect(m, a, v);
        var m3 := StoreWord(w.m, w.table.value, v % ENTRIES, MappedWord(p, perm));
        (SetRef(m3, p, Inc16(w.m.refs[p])), 0)
  }

  lemma InsertWalkEffect(m: Machine, a: nat, v: nat)
    requires Inv(m) && a in m.spaces && v < USER_PAGES
    ensures var w := InsertWalk(m, a, v);
      && Inv(w.m) && Held(w.m) == Held(m) && SameFrame(m, w.m) && SameData(m, w.m)
      && OthersKeep(m, w.m, a, v) && !Pte(w.m, a, v).perm.v && (a, v) !in w.m.tlb
      && (w.error == 0 ==> (
            && DirEntry(w.m, a, v / ENTRIES).perm.v
            && w.table == Some(DirEntry(w.m, a, v / ENTRIES).ppn) && w.table.value < |w.m.mem|
            && !Mappable(m, w.table.value)))
      && (w.error != 0 <==> !DirEntry(m, a, v / ENTRIES).perm.v && m.free == [])
      && (w.error != 0 ==> w.m.(tlb := m.tlb) == m)
  {
    RemoveKeepsInv(m, a, v);
    var m1 := PageRemove(m, a, v);
    InvalidateKeepsInv(m1, a, v);
    var m2 := TlbInvalidate(m1, a, v);
    if !DirEntry(m2, a, v / ENTRIES).perm.v && m2.free != [] {
      NewTableKeepsInv(m2, a, v);
    }
    assert DirEntry(m, a, v / ENTRIES).perm.v ==>
      Target(m, Table(a, v / ENTRIES)) == Some(DirEntry(m, a, v / ENTRIES).ppn);
  }

  lemma OneLeafOnlyLeaves(m: Machine, s: Slot, p: nat)
    requires Separate(m) && IsSlot(m, s) && s.Leaf? && Target(m, s) == Some(p)
    ensures OnlyLeaves(m, p)
  {
  }

  lemma SameLeafTargets(m: Machine, m': Machine, a: nat, v: nat)
    requires m'.spaces == m.spaces && OthersKeep(m, m', a, v)
    ensures forall s | IsSlot(m, s) && s.Leaf? && s != Leaf(a, v) :: IsSlot(m', s) && Target(m', s) == Target(m, s)
  {
  }

  lemma SameLeafRefs(m: Machine, m': Machine, a: nat, v: nat, p: nat)
    requires m'.spaces == m.spaces && m'.boot == m.boot && OthersKeep(m, m', a, v)
    requires a in m.spaces && v < USER_PAGES
    requires Target(m, Leaf(a, v)) != Some(p) && Target(m', Leaf(a, v)) != Some(p)
    requires OnlyLeaves(m, p) && OnlyLeaves(m', p)
    ensures RefsTo(m', p) == RefsTo(m, p)
  {
    SameLeafTargets(m, m', a, v);
  }

  /** A mappable page other than the one mapped at (a, v) is still mappable after that
      translation has been removed and, perhaps, a table added. */
  lemma MappableSurvives(m: Machine, m': Machine, a: nat, v: nat, p: nat)
    requires Sized(m) && Counted(m) && Sized(m') && Counted(m') && Separate(m') && FreeIsUnused(m')
    requires p < |m.mem| && p !in m.free && OnlyLeaves(m, p) && a in m.spaces && v < USER_PAGES
    requires |m'.mem| == |m.mem| && m'.spaces == m.spaces && m'.boot == m.boot
    requires OthersKeep(m, m', a, v) && Held(m') == Held(m)
    requires Target(m, Leaf(a, v)) != Some(p) && Target(m', Leaf(a, v)) != Some(p)
    ensures p !in m'.free && OnlyLeaves(m', p) && m'.refs[p] == m.refs[p]
  {
    if m.refs[p] == 0 {
      assert p in Held(m);
      assert p in Held(m');
      UnusedHasNoSlot(m', p);
    } else {
      assert RefsTo(m, p) != {} by {
        assert m.refs[p] == |RefsTo(m, p)|;
      }
      var s :| s in RefsTo(m, p);
      SameLeafTargets(m, m', a, v);
      OneLeafOnlyLeaves(m', s, p);
      SameLeafRefs(m, m', a, v, p);
    }
  }

  // ---------- page_insert: the main result ----------

  lemma IncrefCounts(m: Machine, m': Machine, s0: Slot, p: nat)
    requires Sized(m) && Counted(m) && p < |m.mem| && m.refs[p] < 0xFFFF
    requires OnlyChanges(m, m', s0) && Target(m, s0) == None && Target(m', s0) == Some(p)
    requires m'.refs == m.refs[p := Inc16(m.refs[p])]
    ensures forall q | 0 <= q < |m.mem| :: m'.refs[q] == |RefsTo(m', q)|
  {
    forall q: nat | q < |m.mem| ensures m'.refs[q] == |RefsTo(m', q)| {
      RefsAfter(m, m', s0, q);
      assert m.refs[q] == |RefsTo(m, q)|;
    }
  }

  lemma SameTargetCounts(m: Machine, m': Machine, s0: Slot)
    requires Sized(m) && Counted(m) && OnlyChanges(m, m', s0) && Target(m', s0) == Target(m, s0)
    requires m'.refs == m.refs
    ensures forall q | 0 <= q < |m.mem| :: m'.refs[q] == |RefsTo(m', q)|
  {
    forall q: nat | q < |m.mem| ensures m'.refs[q] == |RefsTo(m', q)| {
      RefsAfter(m, m', s0, q);
      assert m.refs[q] == |RefsTo(m, q)|;
    }
  }

  ghost predicate CanInsert(m: Machine, a: nat, p: nat, v: nat) {
    Inv(m) && a in m.spaces && v < USER_PAGES && Mappable(m, p)
  }

  /** m' is m with v of space a mapped to p, and all else about mappings and data unchanged. */
  ghost predicate Mapped(m: Machine, m': Machine, a: nat, p: nat, v: nat, perm: Perm) {
    && Inv(m') && Held(m') == Held(m) - {p} && SameFrame(m, m')
    && a in m.spaces && v < USER_PAGES && Pte(m', a, v) == MappedWord(p, perm)
    && OthersKeep(m, m', a, v) && SameData(m, m')
  }

  lemma LookupIsPte(m: Machine, a: nat, v: nat)
    requires Inv(m) && a in m.spaces && v < USER_PAGES
    ensures PageLookup(m, a, v) == if Pte(m, a, v).perm.v then Some(Pte(m, a, v)) else None
  {
    if DirEntry(m, a, v / ENTRIES).perm.v {
      assert Target(m, Table(a, v / ENTRIES)) == Some(DirEntry(m, a, v / ENTRIES).ppn);
    }
  }

  /** Remapping the page already mapped at v only rewrites the entry. */
  lemma RemapKeepsInv(m: Machine, a: nat, p: nat, v: nat, perm: Perm)
    requires CanInsert(m, a, p, v) && Pte(m, a, v).perm.v && Pte(m, a, v).ppn == p
    ensures var (m', r) := PageInsert(m, a, p, v, perm);
      r == 0 && Mapped(m, m', a, p, v, perm) && m'.refs == m.refs && m'.free == m.free
  {
    var m' := PageInsert(m, a, p, v, perm).0;
    assert Target(m, Table(a, v / ENTRIES)) == Some(DirEntry(m, a, v / ENTRIES).ppn);
    assert Target(m, Leaf(a, v)) == Some(p);
    LookupIsPte(m, a, v);
    WriteEntry(m, m', a, v, MappedWord(p, perm));
    SameTargetCounts(m, m', Leaf(a, v));
    assert Leaf(a, v) in RefsTo(m, p);
  }

  /** The last two statements of page_insert: the entry is written and pp_ref incremented. */
  lemma FinishInsert(m: Machine, m': Machine, a: nat, p: nat, v: nat, perm: Perm)
    requires CanInsert(m, a, p, v) && m.refs[p] < 0xFFFF && !Pte(m, a, v).perm.v && (a, v) !in m.tlb
    requires DirEntry(m, a, v / ENTRIES).perm.v && DirEntry(m, a, v / ENTRIES).ppn < |m.mem|
    requires m' ==
      SetRef(StoreWord(m, DirEntry(m, a, v / ENTRIES).ppn, v % ENTRIES, MappedWord(p, perm)), p, Inc16(m.refs[p]))
    ensures Mapped(m, m', a, p, v, perm)
  {
    assert m.tlb - {(a, v)} == m.tlb;
    assert Target(m, Leaf(a, v)) == None;
    WriteEntry(m, m', a, v, MappedWord(p, perm));
    IncrefCounts(m, m', Leaf(a, v), p);
  }

  /** Two steps that each keep the frame, seen as one. */
  lemma MappedAfterWalk(m: Machine, n: Machine, m': Machine, a: nat, p: nat, v: nat, perm: Perm)
    requires a in m.spaces && v < USER_PAGES
    requires SameFrame(m, n) && SameData(m, n) && OthersKeep(m, n, a, v) && Held(n) == Held(m)
    requires Mapped(n, m', a, p, v, perm)
    requires forall q: nat | Mappable(m, q) :: m'.mem[q] == n.mem[q]
    ensures Mapped(m, m', a, p, v, perm)
  {
    assert SameFrame(m, m') by {
      assert forall s :: IsSlot(m, s) == IsSlot(n, s);
    }
  }

  /** page_insert refines a map update, and fails without a change only for want of a page table. */
  lemma InsertKeepsInv(m: Machine, a: nat, p: nat, v: nat, perm: Perm)
    requires CanInsert(m, a, p, v) && m.refs[p] < 0xFFFF
    ensures var (m', r) := PageInsert(m, a, p, v, perm);
      && (r == 0 || r == -E_NO_MEM)
      && (r != 0 <==> !DirEntry(m, a, v / ENTRIES).perm.v && m.free == [])
      && (r == 0 ==> Mapped(m, m', a, p, v, perm))
      && (r != 0 ==> Inv(m') && m'.(tlb := m.tlb) == m)
  {
    LookupIsPte(m, a, v);
    if Pte(m, a, v).perm.v && Pte(m, a, v).ppn == p {
      RemapKeepsInv(m, a, p, v, perm);
    } else {
      InsertWalkEffect(m, a, v);
      var w := InsertWalk(m, a, v);
      if w.error == 0 {
        InsertMovesPage(m, w, a, p, v, perm);
      }
    }
  }

  lemma InsertMovesPage(m: Machine, w: Walk, a: nat, p: nat, v: nat, perm: Perm)
    requires CanInsert(m, a, p, v) && m.refs[p] < 0xFFFF
    requires !(Pte(m, a, v).perm.v && Pte(m, a, v).ppn == p)
    requires w == InsertWalk(m, a, v) && w.error == 0
    ensures Mapped(m, PageInsert(m, a, p, v, perm).0, a, p, v, perm)
  {
    LookupIsPte(m, a, v);
    InsertWalkEffect(m, a, v);
    var m' := PageInsert(m, a, p, v, perm).0;
    assert Target(w.m, Leaf(a, v)) == None;
    MappableSurvives(m, w.m, a, v, p);
    FinishInsert(w.m, m', a, p, v, perm);
    MappedAfterWalk(m, w.m, m', a, p, v, perm);
  }
}
