/** Whole address spaces: setting one up, tearing one down, and refilling the TLB from one
    (kern/env.c, kern/tlbex.c). */
module AddressSpaces {
  import opened Mmu
  import opened PageTables

  // ---------- env_free ----------

  /** The virtual page that entry t of table d maps. */
  function PageIn(d: nat, t: nat): (v: nat)
    requires d < USER_TABLES && t < ENTRIES
    ensures v < USER_PAGES && v / ENTRIES == d && v % ENTRIES == t
  {
    d * ENTRIES + t
  }

  /** The inner loop of env_free: unmap the pages of table d from entry t on. */
  function FreeLeaves(m: Machine, a: nat, d: nat, t: nat): (r: Machine)
    requires Inv(m) && a in m.spaces && d < USER_TABLES && t <= ENTRIES
    decreases d, ENTRIES - t
  {
    if t == ENTRIES then m
    else
      FreeLeafEffect(m, a, PageIn(d, t));
      FreeLeaves(FreeLeaf(m, a, PageIn(d, t)), a, d, t + 1)
  }

  predicate Owns(a: nat, s: Slot) {
    match s
    case Leaf(b, _) => b == a
    case Table(b, _) => b == a
    case Dir(b) => b == a
    case Boot(_) => false
  }

  /** Page q is neither the directory nor a page table of space a. */
  ghost predicate NotOwned(m: Machine, a: nat, q: nat)
    requires a in m.spaces
  {
    m.spaces[a] != q && forall d: nat | d < USER_TABLES :: Target(m, Table(a, d)) != Some(q)
  }

  /** From m to m', slots of space a have been emptied, and nothing else has happened:
      in particular a page enters the free list exactly when its last slot is emptied. */
  ghost predicate Releases(m: Machine, m': Machine, a: nat) {
    && Inv(m') && Held(m') == Held(m) && a in m.spaces
    && m'.spaces == m.spaces && m'.boot == m.boot && |m'.mem| == |m.mem|
    && (forall s | IsSlot(m, s) :: Target(m', s) == Target(m, s) || (Owns(a, s) && Target(m', s) == None))
    && (forall b, u: nat | b in m.spaces && b != a && u < USER_PAGES :: Pte(m', b, u) == Pte(m, b, u))
    && (forall q: nat | q < |m.mem| && NotOwned(m, a, q) :: m'.mem[q] == m.mem[q])
    && (forall b, e: nat | b in m.spaces && USER_TABLES <= e < ENTRIES :: DirEntry(m', b, e) == DirEntry(m, b, e))
  }

  lemma ReleasesTrans(m: Machine, n: Machine, k: Machine, a: nat)
    requires Releases(m, n, a) && Releases(n, k, a)
    ensures Releases(m, k, a)
  {
    assert forall s :: IsSlot(n, s) == IsSlot(m, s);
    forall q: nat | q < |m.mem| && NotOwned(m, a, q) ensures k.mem[q] == m.mem[q] {
      forall d: nat | d < USER_TABLES ensures Target(n, Table(a, d)) != Some(q) {
        assert IsSlot(m, Table(a, d));
      }
      assert NotOwned(n, a, q);
    }
  }

  lemma RemoveReleases(m: Machine, a: nat, v: nat)
    requires Inv(m) && a in m.spaces && v < USER_PAGES
    ensures Releases(m, PageRemove(m, a, v), a)
  {
    RemoveKeepsInv(m, a, v);
    var m' := PageRemove(m, a, v);
    forall s | IsSlot(m, s)
      ensures Target(m', s) == Target(m, s) || (Owns(a, s) && Target(m', s) == None)
    {
      if s.Table? && Target(m, s) == None {
        DirectoryKept(m, a, v, s.asid, s.pdx);
      }
    }
    if DirEntry(m, a, v / ENTRIES).perm.v {
      assert Target(m, Table(a, v / ENTRIES)) == Some(DirEntry(m, a, v / ENTRIES).ppn);
    }
  }

  /** page_remove leaves every directory entry alone. */
  lemma DirectoryKept(m: Machine, a: nat, v: nat, b: nat, d: nat)
    requires Inv(m) && a in m.spaces && v < USER_PAGES && b in m.spaces && d < ENTRIES
    ensures PageRemove(m, a, v).spaces == m.spaces
    ensures DirEntry(PageRemove(m, a, v), b, d) == DirEntry(m, b, d)
  {
    if DirEntry(m, a, v / ENTRIES).perm.v {
      assert Target(m, Table(a, v / ENTRIES)) == Some(DirEntry(m, a, v / ENTRIES).ppn);
      assert Target(m, Dir(b)) == Some(m.spaces[b]);
    }
  }

  /** Unmapping v (if it is mapped) clears its entry and leaves those of other pages alone. */
  function FreeLeaf(m: Machine, a: nat, v: nat): Machine
    requires Inv(m) && a in m.spaces && v < USER_PAGES
  {
    if Pte(m, a, v).perm.v then PageRemove(m, a, v) else m
  }

  lemma FreeLeafEffect(m: Machine, a: nat, v: nat)
    requires Inv(m) && a in m.spaces && v < USER_PAGES
    ensures var n := FreeLeaf(m, a, v);
      && Inv(n) && n.spaces == m.spaces && Pte(n, a, v) == ZERO
      && (forall u: nat | u < USER_PAGES && u != v :: Pte(n, a, u) == Pte(m, a, u))
      && (forall e: nat | e < ENTRIES :: DirEntry(n, a, e) == DirEntry(m, a, e))
  {
    RemoveKeepsInv(m, a, v);
    forall e: nat | e < ENTRIES ensures DirEntry(FreeLeaf(m, a, v), a, e) == DirEntry(m, a, e) {
      DirectoryKept(m, a, v, a, e);
    }
  }

  lemma FreeLeafReleases(m: Machine, a: nat, v: nat)
    requires Inv(m) && a in m.spaces && v < USER_PAGES
    ensures Releases(m, FreeLeaf(m, a, v), a)
  {
    RemoveReleases(m, a, v);
  }

  lemma FreeLeavesClears(m: Machine, a: nat, d: nat, t: nat, u: nat)
    requires Inv(m) && a in m.spaces && d < USER_TABLES && t <= ENTRIES && u < USER_PAGES
    ensures FreeLeaves(m, a, d, t).spaces == m.spaces
    ensures Pte(m, a, u) == ZERO || d * ENTRIES + t <= u < d * ENTRIES + ENTRIES ==>
      Pte(FreeLeaves(m, a, d, t), a, u) == ZERO
    decreases ENTRIES - t
  {
    if t < ENTRIES {
      FreeLeafEffect(m, a, PageIn(d, t));
      FreeLeavesClears(FreeLeaf(m, a, PageIn(d, t)), a, d, t + 1, u);
    }
  }

  lemma FreeLeavesKeepDirectory(m: Machine, a: nat, d: nat, t: nat, e: nat)
    requires Inv(m) && a in m.spaces && d < USER_TABLES && t <= ENTRIES && e < ENTRIES
    ensures FreeLeaves(m, a, d, t).spaces == m.spaces
    ensures DirEntry(FreeLeaves(m, a, d, t), a, e) == DirEntry(m, a, e)
    decreases ENTRIES - t
  {
    if t < ENTRIES {
      FreeLeafEffect(m, a, PageIn(d, t));
      FreeLeavesKeepDirectory(FreeLeaf(m, a, PageIn(d, t)), a, d, t + 1, e);
    }
  }

  lemma FreeLeavesReleases(m: Machine, a: nat, d: nat, t: nat)
    requires Inv(m) && a in m.spaces && d < USER_TABLES && t <= ENTRIES
    ensures Releases(m, FreeLeaves(m, a, d, t), a)
    decreases ENTRIES - t
  {
    if t < ENTRIES {
      var v := PageIn(d, t);
      FreeLeafEffect(m, a, v);
      FreeLeafReleases(m, a, v);
      FreeLeavesReleases(FreeLeaf(m, a, v), a, d, t + 1);
      ReleasesTrans(m, FreeLeaf(m, a, v), FreeLeaves(m, a, d, t), a);
    }
  }

  /** Virtual pages of the page-table windows at UVPT and KSEG2. */
  function UvptPage(d: nat): nat { UVPT / BY2PG + d }
  function Kseg2Page(d: nat): nat { KSEG2 / BY2PG + d }

  function DropWindows(m: Machine, a: nat, d: nat): Machine {
    TlbInvalidate(TlbInvalidate(m, a, UvptPage(d)), a, Kseg2Page(d))
  }

  /** One round of the outer loop of env_free: empty table d and give its page back. */
  function FreeTable(m: Machine, a: nat, d: nat): (r: Machine)
    requires Inv(m) && a in m.spaces && d < USER_TABLES
  {
    var e := DirEntry(m, a, d);
    if !e.perm.v then m
    else
      FreeLeavesReleases(m, a, d, 0);
      FreeLeavesKeepDirectory(m, a, d, 0, d);
      var m1 := FreeLeaves(m, a, d, 0);
      assert Target(m1, Dir(a)) == Some(m1.spaces[a]);
      assert Target(m1, Table(a, d)) == Some(e.ppn);
      var m2 := StoreWord(m1, m1.spaces[a], d, ZERO);
      DropWindows(PageDecref(m2, e.ppn), a, d)
  }

  /** Unhooking a table without valid entries changes no translation. */
  lemma ClearDirEntry(m: Machine, a: nat, d: nat)
    requires Shape(m) && Separate(m) && a in m.spaces && d < USER_TABLES && m.spaces[a] < |m.mem|
    requires DirEntry(m, a, d).perm.v
    requires forall u: nat | d * ENTRIES <= u < d * ENTRIES + ENTRIES :: Pte(m, a, u) == ZERO
    ensures var m' := StoreWord(m, m.spaces[a], d, ZERO);
      && OnlyChanges(m, m', Table(a, d)) && Target(m', Table(a, d)) == None
      && (forall b, u: nat | b in m.spaces && u < USER_PAGES :: Pte(m', b, u) == Pte(m, b, u))
      && (forall e: nat | e < ENTRIES && e != d :: DirEntry(m', a, e) == DirEntry(m, a, e))
  {
    assert Target(m, Dir(a)) == Some(m.spaces[a]);
    var m' := StoreWord(m, m.spaces[a], d, ZERO);
    forall b, e: nat | b in m.spaces && e < ENTRIES && (b, e) != (a, d)
      ensures DirEntry(m', b, e) == DirEntry(m, b, e)
    {
      assert Target(m, Dir(b)) == Some(m.spaces[b]);
    }
    forall b, u: nat | b in m.spaces && u < USER_PAGES
      ensures Pte(m', b, u) == Pte(m, b, u)
    {
      var e := DirEntry(m, b, u / ENTRIES);
      if e.perm.v {
        assert Target(m, Table(b, u / ENTRIES)) == Some(e.ppn);
      }
      if b == a && u / ENTRIES == d {
        assert d * ENTRIES <= u < d * ENTRIES + ENTRIES;
      }
    }
    forall s | IsSlot(m, s) && s != Table(a, d)
      ensures Target(m', s) == Target(m, s)
    {
    }
  }

  /** m' is m with the slot of the empty table d cleared and its reference dropped. */
  ghost predicate Unhooks(m: Machine, m': Machine, a: nat, d: nat) {
    && Inv(m) && a in m.spaces && d < USER_TABLES && m.spaces[a] < |m.mem| && DirEntry(m, a, d).perm.v
    && DirEntry(m, a, d).ppn < |m.mem|
    && (forall u: nat | d * ENTRIES <= u < d * ENTRIES + ENTRIES :: Pte(m, a, u) == ZERO)
    && m' == DropWindows(PageDecref(StoreWord(m, m.spaces[a], d, ZERO), DirEntry(m, a, d).ppn), a, d)
  }

  lemma UnhookSlots(m: Machine, m': Machine, a: nat, d: nat)
    requires Unhooks(m, m', a, d)
    ensures OnlyChanges(m, m', Table(a, d)) && Target(m', Table(a, d)) == None
    ensures forall b, u: nat | b in m.spaces && u < USER_PAGES :: Pte(m', b, u) == Pte(m, b, u)
    ensures forall e: nat | e < ENTRIES && e != d :: DirEntry(m', a, e) == DirEntry(m, a, e)
  {
    ClearDirEntry(m, a, d);
    SameMemSameTargets(StoreWord(m, m.spaces[a], d, ZERO), m');
  }

  lemma UnhookCounts(m: Machine, m': Machine, a: nat, d: nat)
    requires Unhooks(m, m', a, d)
    ensures Inv(m') && Held(m') == Held(m)
  {
    var p := DirEntry(m, a, d).ppn;
    assert Target(m, Table(a, d)) == Some(p);
    assert Table(a, d) in RefsTo(m, p);
    UnhookSlots(m, m', a, d);
    SeparateAfter(m, m', Table(a, d));
    DecrefCounts(m, m', Table(a, d), p);
    DecrefFree(m, m', p);
    assert Coherent(m');
  }

  /** Emptying the slot of table d (in m') and dropping its reference keeps the invariant. */
  lemma UnhookKeepsInv(m: Machine, m': Machine, a: nat, d: nat)
    requires Unhooks(m, m', a, d)
    ensures Releases(m, m', a) && Target(m', Table(a, d)) == None
    ensures forall u: nat | u < USER_PAGES :: Pte(m', a, u) == Pte(m, a, u)
    ensures forall e: nat | e < ENTRIES && e != d :: DirEntry(m', a, e) == DirEntry(m, a, e)
  {
    UnhookSlots(m, m', a, d);
    UnhookCounts(m, m', a, d);
    forall b, e: nat | b in m.spaces && USER_TABLES <= e < ENTRIES ensures DirEntry(m', b, e) == DirEntry(m, b, e) {
      assert Target(m, Dir(b)) == Some(m.spaces[b]);
      assert Target(m, Dir(a)) == Some(m.spaces[a]);
    }
  }

  lemma TableEmptied(m: Machine, a: nat, d: nat)
    requires Inv(m) && a in m.spaces && d < USER_TABLES
    ensures FreeLeaves(m, a, d, 0).spaces == m.spaces
    ensures forall u: nat | d * ENTRIES <= u < d * ENTRIES + ENTRIES :: Pte(FreeLeaves(m, a, d, 0), a, u) == ZERO
    ensures forall e: nat | e < ENTRIES :: DirEntry(FreeLeaves(m, a, d, 0), a, e) == DirEntry(m, a, e)
  {
    FreeLeavesKeepDirectory(m, a, d, 0, d);
    forall u: nat | d * ENTRIES <= u < d * ENTRIES + ENTRIES ensures Pte(FreeLeaves(m, a, d, 0), a, u) == ZERO {
      FreeLeavesClears(m, a, d, 0, u);
    }
    forall e: nat | e < ENTRIES ensures DirEntry(FreeLeaves(m, a, d, 0), a, e) == DirEntry(m, a, e) {
      FreeLeavesKeepDirectory(m, a, d, 0, e);
    }
  }

  ghost predicate EmptyTable(m: Machine, a: nat, d: nat, e: Word) {
    && Inv(m) && a in m.spaces && d < USER_TABLES && m.spaces[a] < |m.mem|
    && DirEntry(m, a, d) == e && e.perm.v && e.ppn < |m.mem|
    && (forall u: nat | d * ENTRIES <= u < d * ENTRIES + ENTRIES :: Pte(m, a, u) == ZERO)
  }

  lemma LeavesFreed(m: Machine, a: nat, d: nat)
    requires Inv(m) && a in m.spaces && d < USER_TABLES && DirEntry(m, a, d).perm.v
    ensures EmptyTable(FreeLeaves(m, a, d, 0), a, d, DirEntry(m, a, d))
  {
    FreeLeavesReleases(m, a, d, 0);
    TableEmptied(m, a, d);
    var m1 := FreeLeaves(m, a, d, 0);
    assert Target(m1, Dir(a)) == Some(m1.spaces[a]);
    assert Target(m1, Table(a, d)) == Some(DirEntry(m, a, d).ppn);
  }

  /** What a round does once the table is empty. */
  lemma FreeTableUnhooks(m: Machine, a: nat, d: nat)
    requires Inv(m) && a in m.spaces && d < USER_TABLES && DirEntry(m, a, d).perm.v
    ensures Unhooks(FreeLeaves(m, a, d, 0), FreeTable(m, a, d), a, d)
  {
    LeavesFreed(m, a, d);
  }

  lemma FreeTableReleases(m: Machine, a: nat, d: nat)
    requires Inv(m) && a in m.spaces && d < USER_TABLES
    ensures Releases(m, FreeTable(m, a, d), a) && Target(FreeTable(m, a, d), Table(a, d)) == None
    ensures FreeTable(m, a, d).spaces == m.spaces
    ensures forall e: nat | e < ENTRIES && e != d :: DirEntry(FreeTable(m, a, d), a, e) == DirEntry(m, a, e)
  {
    if DirEntry(m, a, d).perm.v {
      var m1 := FreeLeaves(m, a, d, 0);
      FreeTableUnhooks(m, a, d);
      FreeLeavesReleases(m, a, d, 0);
      TableEmptied(m, a, d);
      UnhookKeepsInv(m1, FreeTable(m, a, d), a, d);
      ReleasesTrans(m, m1, FreeTable(m, a, d), a);
    }
  }

  /** The outer loop of env_free from table d on. */
  function FreeTables(m: Machine, a: nat, d: nat): (r: Machine)
    requires Inv(m) && a in m.spaces && d <= USER_TABLES
    decreases a, USER_TABLES - d
  {
    if d == USER_TABLES then m
    else
      FreeTableReleases(m, a, d);
      FreeTables(FreeTable(m, a, d), a, d + 1)
  }

  lemma FreeTablesReleases(m: Machine, a: nat, d: nat)
    requires Inv(m) && a in m.spaces && d <= USER_TABLES
    ensures Releases(m, FreeTables(m, a, d), a)
    decreases USER_TABLES - d
  {
    if d < USER_TABLES {
      FreeTableReleases(m, a, d);
      FreeTablesReleases(FreeTable(m, a, d), a, d + 1);
      ReleasesTrans(m, FreeTable(m, a, d), FreeTables(m, a, d), a);
    }
  }

  lemma FreeTablesClears(m: Machine, a: nat, d: nat, e: nat)
    requires Inv(m) && a in m.spaces && d <= USER_TABLES && e < USER_TABLES
    requires d <= e || Target(m, Table(a, e)) == None
    ensures FreeTables(m, a, d).spaces == m.spaces
    ensures Target(FreeTables(m, a, d), Table(a, e)) == None
    decreases USER_TABLES - d
  {
    if d < USER_TABLES {
      FreeTableReleases(m, a, d);
      assert IsSlot(m, Table(a, e));
      FreeTablesClears(FreeTable(m, a, d), a, d + 1, e);
    }
  }

  /** env_free, as far as memory is concerned: tables, directory, then the ASID's space is gone. */
  function EnvFree(m: Machine, a: nat): (r: Machine)
    requires Inv(m) && a in m.spaces
  {
    FreeTablesReleases(m, a, 0);
    var m1 := FreeTables(m, a, 0);
    assert Target(m1, Dir(a)) == Some(m1.spaces[a]);
    DropSpace(DropWindows(PageDecref(m1, m1.spaces[a]), a, PDX(UVPT)), a)
  }

  function DropSpace(m: Machine, a: nat): Machine {
    m.(spaces := m.spaces - {a})
  }

  lemma DropSpaceTargets(m: Machine, m': Machine, a: nat)
    requires a in m.spaces && m'.mem == m.mem && m'.boot == m.boot && m'.spaces == m.spaces - {a}
    requires forall s | IsSlot(m, s) && Owns(a, s) && s != Dir(a) :: Target(m, s) == None
    ensures forall s :: IsSlot(m', s) <==> IsSlot(m, s) && !Owns(a, s)
    ensures forall s | IsSlot(m', s) :: Target(m', s) == Target(m, s)
    ensures forall b, u: nat | b in m'.spaces && u < USER_PAGES :: Pte(m', b, u) == Pte(m, b, u)
    ensures forall p :: RefsTo(m', p) == RefsTo(m, p) - {Dir(a)}
  {
  }

  lemma DropSpaceKeepsInv(m: Machine, m': Machine, a: nat)
    requires Inv(m) && a in m.spaces && m.spaces[a] < |m.mem|
    requires forall s | IsSlot(m, s) && Owns(a, s) && s != Dir(a) :: Target(m, s) == None
    requires m' == DropSpace(DropWindows(PageDecref(m, m.spaces[a]), a, PDX(UVPT)), a)
    ensures Inv(m') && Held(m') == Held(m)
  {
    var p := m.spaces[a];
    DropSpaceTargets(m, m', a);
    DropSpaceCounts(m, m', a);
    DecrefFree(m, m', p);
    forall v: nat | v < USER_PAGES ensures Pte(m, a, v) == ZERO {
      assert IsSlot(m, Table(a, v / ENTRIES)) && Target(m, Table(a, v / ENTRIES)) == None;
    }
  }

  lemma DropSpaceCounts(m: Machine, m': Machine, a: nat)
    requires Sized(m) && Counted(m) && a in m.spaces && m.spaces[a] < |m.mem|
    requires m'.refs == PageDecref(m, m.spaces[a]).refs
    requires forall q :: RefsTo(m', q) == RefsTo(m, q) - {Dir(a)}
    ensures m.refs[m.spaces[a]] > 0
    ensures forall q | 0 <= q < |m.mem| :: m'.refs[q] == |RefsTo(m', q)|
  {
    assert Target(m, Dir(a)) == Some(m.spaces[a]);
    assert Dir(a) in RefsTo(m, m.spaces[a]);
    forall q: nat | q < |m.mem| ensures m'.refs[q] == |RefsTo(m', q)| {
      SizeWithout(RefsTo(m, q), Dir(a));
      assert m.refs[q] == |RefsTo(m, q)|;
    }
  }

  lemma AllReleased(m: Machine, a: nat)
    requires Inv(m) && a in m.spaces
    ensures var m1 := FreeTables(m, a, 0);
      Releases(m, m1, a) && forall s | IsSlot(m1, s) && Owns(a, s) && s != Dir(a) :: Target(m1, s) == None
  {
    FreeTablesReleases(m, a, 0);
    var m1 := FreeTables(m, a, 0);
    forall s | IsSlot(m1, s) && Owns(a, s) && s != Dir(a) ensures Target(m1, s) == None {
      match s
      case Table(_, e) => FreeTablesClears(m, a, 0, e);
      case Leaf(_, v) => FreeTablesClears(m, a, 0, v / ENTRIES);
    }
  }

  /** Destroying an environment keeps the invariant, leaves every other environment's
      translations alone, and no valid user translation for its ASID stays in the TLB. */
  lemma EnvFreeKeepsInv(m: Machine, a: nat)
    requires Inv(m) && a in m.spaces
    ensures var m' := EnvFree(m, a);
      && Inv(m') && Held(m') == Held(m) && m'.spaces == m.spaces - {a} && |m'.mem| == |m.mem|
      && (forall b, u: nat | b in m'.spaces && u < USER_PAGES :: Pte(m', b, u) == Pte(m, b, u))
      && (forall b, e: nat | b in m'.spaces && USER_TABLES <= e < ENTRIES :: DirEntry(m', b, e) == DirEntry(m, b, e))
      && (forall v: nat | v < USER_PAGES && (a, v) in m'.tlb :: m'.tlb[(a, v)] == ZERO)
      && (forall q: nat | q < |m.mem| && NotOwned(m, a, q) :: m'.mem[q] == m.mem[q])
  {
    AllReleased(m, a);
    var m1 := FreeTables(m, a, 0);
    assert Target(m1, Dir(a)) == Some(m1.spaces[a]);
    DropSpaceTargets(m1, EnvFree(m, a), a);
    DropSpaceKeepsInv(m1, EnvFree(m, a), a);
  }

  /** The slots of p that env_free does not empty. */
  ghost function OthersRefs(m: Machine, a: nat, p: nat): set<Slot> {
    set s | s in RefsTo(m, p) && !Owns(a, s)
  }

  /** Conservation: every page loses exactly the references that space a held, and the free
      list gains exactly the pages that only space a referred to. */
  lemma EnvFreeConserves(m: Machine, a: nat, p: nat)
    requires Inv(m) && a in m.spaces && p < |m.mem|
    ensures var m' := EnvFree(m, a);
      && p < |m'.refs| && m'.refs[p] == |OthersRefs(m, a, p)|
      && (p in m'.free <==> p in m.free || (m.refs[p] > 0 && OthersRefs(m, a, p) == {}))
  {
    EnvFreeKeepsInv(m, a);
    EnvFreeRefs(m, a, p);
    var m' := EnvFree(m, a);
    assert m'.refs[p] == |RefsTo(m', p)| && m.refs[p] == |RefsTo(m, p)|;
    assert p in Held(m') <==> p in Held(m);
  }

  lemma EnvFreeRefs(m: Machine, a: nat, p: nat)
    requires Inv(m) && a in m.spaces
    ensures RefsTo(EnvFree(m, a), p) == OthersRefs(m, a, p)
  {
    AllReleased(m, a);
    var m1 := FreeTables(m, a, 0);
    DropSpaceTargets(m1, EnvFree(m, a), a);
    assert forall s :: IsSlot(m1, s) == IsSlot(m, s);
  }
}
