/** The TLB entries of the page-table windows at UVPT and KSEG2: refilling user pages from them,
    and what keeps them right (kern/entry.S, kern/tlbex.c, kern/env.c). */
module Windows {
  import opened Mmu
  import opened PageTables
  import opened AddressSpaces
  import opened MemoryCalls

  const SELF: nat := PDX(UVPT)

  /** The directory slots whose window pages the model follows: user tables, and the directory. */
  predicate Followed(d: nat) { d < USER_TABLES || d == SELF }

  predicate IsWindow(w: nat, d: nat) { w == UvptPage(d) || w == Kseg2Page(d) }

  /** The page that slot d of the directory of space a leads to. */
  ghost function SlotPage(m: Machine, a: nat, d: nat): Option<nat>
    requires a in m.spaces && Followed(d)
  {
    if d == SELF then Some(m.spaces[a]) else Target(m, Table(a, d))
  }

  /** A valid TLB entry for a window page of an ASID leads to the table or the directory that the
      live space with that ASID has there now. */
  ghost predicate EntryRight(m: Machine, a: nat, d: nat, w: nat) {
    Followed(d) && IsWindow(w, d) && (a, w) in m.tlb && m.tlb[(a, w)].perm.v ==>
      a in m.spaces && SlotPage(m, a, d) == Some(m.tlb[(a, w)].ppn)
  }

  ghost predicate WindowsRight(m: Machine) {
    forall a: nat, d: nat, w: nat :: EntryRight(m, a, d, w)
  }

  ghost predicate AllSelfMapped(m: Machine) {
    forall a | a in m.spaces :: SelfMapped(m, a)
  }

  /** What every reachable state has beyond the invariant of the page tables. */
  ghost predicate Mirrored(m: Machine) {
    AllSelfMapped(m) && WindowsRight(m)
  }

  lemma WindowsApart(d: nat, w: nat)
    requires Followed(d) && IsWindow(w, d)
    ensures w >= USER_PAGES
  {
    UserLimits();
  }

  // ---------- operations on user pages ----------

  /** From m to m' the TLB has only lost entries, as far as windows go. */
  predicate WindowTlbShrinks(m: Machine, m': Machine) {
    forall k | k in m'.tlb && k.1 >= USER_PAGES :: k in m.tlb && m'.tlb[k] == m.tlb[k]
  }

  /** No table of a live space goes, and the upper parts of the directories stay. */
  ghost predicate KeepsTables(m: Machine, m': Machine) {
    && m'.spaces == m.spaces
    && (forall a, d: nat | a in m.spaces && d < USER_TABLES && Target(m, Table(a, d)).Some? ::
          Target(m', Table(a, d)) == Target(m, Table(a, d)))
    && (forall a, e: nat | a in m.spaces && USER_TABLES <= e < ENTRIES :: DirEntry(m', a, e) == DirEntry(m, a, e))
  }

  lemma SameFrameKeepsTables(m: Machine, m': Machine)
    requires SameFrame(m, m')
    ensures KeepsTables(m, m')
  {
    forall a, d: nat | a in m.spaces && d < USER_TABLES && Target(m, Table(a, d)).Some?
      ensures Target(m', Table(a, d)) == Target(m, Table(a, d))
    {
      assert IsSlot(m, Table(a, d));
    }
  }

  lemma KeepsMirrored(m: Machine, m': Machine)
    requires Mirrored(m) && KeepsTables(m, m') && WindowTlbShrinks(m, m')
    ensures Mirrored(m')
  {
    UserLimits();
    forall a | a in m'.spaces ensures SelfMapped(m', a) {
      assert SelfMapped(m, a);
    }
    forall a: nat, d: nat, w: nat ensures EntryRight(m', a, d, w) {
      assert EntryRight(m, a, d, w);
      if Followed(d) && IsWindow(w, d) {
        WindowsApart(d, w);
      }
    }
  }

  lemma RemoveTlb(m: Machine, a: nat, v: nat)
    requires Inv(m) && a in m.spaces && v < USER_PAGES
    ensures WindowTlbShrinks(m, PageRemove(m, a, v))
  {
  }

  lemma InsertTlb(m: Machine, a: nat, p: nat, v: nat, perm: Perm)
    requires Inv(m) && a in m.spaces && v < USER_PAGES && p < |m.mem|
    ensures WindowTlbShrinks(m, PageInsert(m, a, p, v, perm).0)
  {
    RemoveTlb(m, a, v);
  }

  lemma RemoveMirrored(m: Machine, a: nat, v: nat)
    requires Inv(m) && a in m.spaces && v < USER_PAGES && Mirrored(m)
    ensures Mirrored(PageRemove(m, a, v))
  {
    RemoveKeepsInv(m, a, v);
    SameFrameKeepsTables(m, PageRemove(m, a, v));
    RemoveTlb(m, a, v);
    KeepsMirrored(m, PageRemove(m, a, v));
  }

  /** page_insert of a page that may be mapped keeps the windows, whether it succeeds or not. */
  lemma InsertMirrored(m: Machine, a: nat, p: nat, v: nat, perm: Perm)
    requires CanInsert(m, a, p, v) && m.refs[p] < 0xFFFF && Mirrored(m)
    ensures Mirrored(PageInsert(m, a, p, v, perm).0)
  {
    InsertKeepsInv(m, a, p, v, perm);
    var (m', r) := PageInsert(m, a, p, v, perm);
    InsertTlb(m, a, p, v, perm);
    if r == 0 {
      SameFrameKeepsTables(m, m');
    } else {
      SameMemSameTargets(m, m');
    }
    KeepsMirrored(m, m');
  }

  lemma AllocMirrored(m: Machine)
    requires Inv(m) && Mirrored(m)
    ensures Mirrored(PageAlloc(m).0)
  {
    AllocKeepsInv(m);
    var m' := PageAlloc(m).0;
    forall a, d: nat | a in m.spaces && d < USER_TABLES ensures Target(m', Table(a, d)) == Target(m, Table(a, d)) {
      assert IsSlot(m, Table(a, d));
    }
    KeepsMirrored(m, m');
  }

  lemma TlbWriteMirrored(m: Machine, a: nat, v: nat, evicted: set<(nat, nat)>)
    requires Inv(m) && a in m.spaces && v < USER_PAGES && Mirrored(m)
    ensures Mirrored(TlbWrite(m, a, v, evicted))
  {
    SameMemSameTargets(m, TlbWrite(m, a, v, evicted));
    KeepsMirrored(m, TlbWrite(m, a, v, evicted));
  }

  lemma RefillMirrored(m: Machine, a: nat, v: nat, evicted: set<(nat, nat)>)
    requires Inv(m) && a in m.spaces && v < USER_PAGES && TlbRefill(m, a, v, evicted).Some? && Mirrored(m)
    ensures Mirrored(TlbRefill(m, a, v, evicted).value)
  {
    if PageLookup(m, a, v).Some? {
      TlbWriteMirrored(m, a, v, evicted);
    } else {
      PassiveAllocMaps(m, a, v);
      PassiveMirrored(m, a, v);
      TlbWriteMirrored(PassiveAlloc(m, a, v).value, a, v, evicted);
    }
  }

  lemma PassiveMirrored(m: Machine, a: nat, v: nat)
    requires Inv(m) && a in m.spaces && v < USER_PAGES && PassiveAlloc(m, a, v).Some? && Mirrored(m)
    ensures Mirrored(PassiveAlloc(m, a, v).value)
  {
    AllocInsertMirrored(m, a, v, NO_PERM.(d := true));
  }

  lemma AllocInsertMirrored(m: Machine, a: nat, v: nat, perm: Perm)
    requires Inv(m) && a in m.spaces && v < USER_PAGES && m.free != [] && Mirrored(m)
    ensures m.free[0] < |m.mem| && Inv(PageAlloc(m).0)
    ensures Mirrored(PageInsert(PageAlloc(m).0, a, m.free[0], v, perm).0)
  {
    AllocKeepsInv(m);
    AllocMirrored(m);
    UnusedIsMappable(PageAlloc(m).0, m.free[0]);
    InsertMirrored(PageAlloc(m).0, a, m.free[0], v, perm);
  }

  // ---------- whole spaces ----------

  /** A new space starts self-mapped, and finds no window entry of an earlier owner of its ASID. */
  lemma SetupMirrored(m: Machine, a: nat, template: Frame)
    requires Inv(m) && a !in m.spaces && Mirrored(m)
    ensures Mirrored(EnvSetupVm(m, a, template).0)
  {
    if m.free != [] {
      var m1, p := PageAlloc(m).0, m.free[0];
      var m' := EnvSetupVm(m, a, template).0;
      AllocKeepsInv(m);
      AllocMirrored(m);
      UnusedHasNoSlot(m1, p);
      InstallTargets(m1, m', a, p, NewDirectory(template, p));
      forall b | b in m'.spaces ensures SelfMapped(m', b) {
        assert b != a ==> SelfMapped(m1, b);
      }
      forall b: nat, d: nat, w: nat ensures EntryRight(m', b, d, w) {
        assert EntryRight(m1, b, d, w);
        assert b in m1.spaces && d < USER_TABLES ==> IsSlot(m1, Table(b, d));
      }
    }
  }

  lemma FreeLeafMirrored(m: Machine, a: nat, v: nat)
    requires Inv(m) && a in m.spaces && v < USER_PAGES && Mirrored(m)
    ensures Mirrored(FreeLeaf(m, a, v))
  {
    if Pte(m, a, v).perm.v {
      RemoveMirrored(m, a, v);
    }
  }

  lemma {:induction false} FreeLeavesMirrored(m: Machine, a: nat, d: nat, t: nat)
    requires Inv(m) && a in m.spaces && d < USER_TABLES && t <= ENTRIES && Mirrored(m)
    ensures Mirrored(FreeLeaves(m, a, d, t))
    decreases ENTRIES - t
  {
    if t < ENTRIES {
      FreeLeafMirrored(m, a, PageIn(d, t));
      FreeLeafEffect(m, a, PageIn(d, t));
      FreeLeavesMirrored(FreeLeaf(m, a, PageIn(d, t)), a, d, t + 1);
    }
  }

  /** Unhooking a table drops the window entries that led to it. */
  lemma UnhookMirrored(m: Machine, m': Machine, a: nat, d: nat)
    requires Mirrored(m) && Releases(m, m', a) && d < USER_TABLES && Target(m', Table(a, d)) == None
    requires forall e: nat | e < ENTRIES && e != d :: DirEntry(m', a, e) == DirEntry(m, a, e)
    requires forall k | k in m'.tlb ::
      k in m.tlb && m'.tlb[k] == m.tlb[k] && k != (a, UvptPage(d)) && k != (a, Kseg2Page(d))
    ensures Mirrored(m')
  {
    UserLimits();
    forall b | b in m'.spaces ensures SelfMapped(m', b) {
      assert SelfMapped(m, b);
    }
    forall b: nat, e: nat, w: nat ensures EntryRight(m', b, e, w) {
      assert EntryRight(m, b, e, w);
      assert b in m.spaces && e < USER_TABLES ==> IsSlot(m, Table(b, e));
    }
  }

  lemma FreeTableMirrored(m: Machine, a: nat, d: nat)
    requires Inv(m) && a in m.spaces && d < USER_TABLES && Mirrored(m)
    ensures Mirrored(FreeTable(m, a, d))
  {
    if DirEntry(m, a, d).perm.v {
      FreeLeavesMirrored(m, a, d, 0);
      FreeTableUnhooks(m, a, d);
      UnhookKeepsInv(FreeLeaves(m, a, d, 0), FreeTable(m, a, d), a, d);
      UnhookMirrored(FreeLeaves(m, a, d, 0), FreeTable(m, a, d), a, d);
    }
  }

  lemma {:induction false} FreeTablesMirrored(m: Machine, a: nat, d: nat)
    requires Inv(m) && a in m.spaces && d <= USER_TABLES && Mirrored(m)
    ensures Mirrored(FreeTables(m, a, d))
    decreases USER_TABLES - d
  {
    if d < USER_TABLES {
      FreeTableMirrored(m, a, d);
      FreeTableReleases(m, a, d);
      FreeTablesMirrored(FreeTable(m, a, d), a, d + 1);
    }
  }

  lemma DropMirrored(m: Machine, m': Machine, a: nat)
    requires Mirrored(m) && a in m.spaces && m'.mem == m.mem && m'.boot == m.boot && m'.spaces == m.spaces - {a}
    requires forall s | IsSlot(m, s) && Owns(a, s) && s != Dir(a) :: Target(m, s) == None
    requires m'.tlb == m.tlb - {(a, UvptPage(SELF)), (a, Kseg2Page(SELF))}
    ensures Mirrored(m')
  {
    DropSpaceTargets(m, m', a);
    forall b | b in m'.spaces ensures SelfMapped(m', b) {
      assert SelfMapped(m, b);
    }
    forall b: nat, e: nat, w: nat ensures EntryRight(m', b, e, w) {
      assert EntryRight(m, b, e, w);
      assert b in m.spaces && e < USER_TABLES ==> IsSlot(m, Table(b, e));
    }
  }

  /** After env_free no valid window entry for the ASID is left. */
  lemma FreeMirrored(m: Machine, a: nat)
    requires Inv(m) && a in m.spaces && Mirrored(m)
    ensures Mirrored(EnvFree(m, a))
  {
    AllReleased(m, a);
    FreeTablesMirrored(m, a, 0);
    DropMirrored(FreeTables(m, a, 0), EnvFree(m, a), a);
  }

  // ---------- a window page that env_free forgets ----------

  /** The directory is at slot PDX(KSEG2) too, so it shows at this page of the UVPT window. */
  const SECOND_VIEW: nat := UvptPage(PDX(KSEG2))

  predicate Stays(m: Machine, m': Machine, k: (nat, nat)) {
    (k in m'.tlb <==> k in m.tlb) && (k in m.tlb ==> m'.tlb[k] == m.tlb[k])
  }

  lemma {:induction false} FreeLeavesStays(m: Machine, a: nat, d: nat, t: nat, w: nat)
    requires Inv(m) && a in m.spaces && d < USER_TABLES && t <= ENTRIES && w >= USER_PAGES
    ensures Stays(m, FreeLeaves(m, a, d, t), (a, w))
    decreases ENTRIES - t
  {
    if t < ENTRIES {
      FreeLeafEffect(m, a, PageIn(d, t));
      FreeLeavesStays(FreeLeaf(m, a, PageIn(d, t)), a, d, t + 1, w);
    }
  }

  lemma FreeTableStays(m: Machine, a: nat, d: nat)
    requires Inv(m) && a in m.spaces && d < USER_TABLES
    ensures Stays(m, FreeTable(m, a, d), (a, SECOND_VIEW))
  {
    UserLimits();
    if DirEntry(m, a, d).perm.v {
      FreeLeavesStays(m, a, d, 0, SECOND_VIEW);
      FreeTableUnhooks(m, a, d);
    }
  }

  lemma {:induction false} FreeTablesStays(m: Machine, a: nat, d: nat)
    requires Inv(m) && a in m.spaces && d <= USER_TABLES
    ensures Stays(m, FreeTables(m, a, d), (a, SECOND_VIEW))
    decreases USER_TABLES - d
  {
    if d < USER_TABLES {
      FreeTableStays(m, a, d);
      FreeTableReleases(m, a, d);
      FreeTablesStays(FreeTable(m, a, d), a, d + 1);
    }
  }

  lemma DirectoryHasOneRef(m: Machine, a: nat)
    requires Inv(m) && a in m.spaces
    ensures m.spaces[a] < |m.mem| && m.refs[m.spaces[a]] > 0 && OthersRefs(m, a, m.spaces[a]) == {}
  {
    assert Target(m, Dir(a)) == Some(m.spaces[a]);
    assert Dir(a) in RefsTo(m, m.spaces[a]);
    assert m.refs[m.spaces[a]] == |RefsTo(m, m.spaces[a])|;
  }

  /** env_free invalidates the pages of the windows that show the tables and, at slot PDX(UVPT),
      the directory.  But the TLB entry for the directory at slot PDX(KSEG2) is there afterwards
      exactly if it was there before; then it outlives the space, valid, and leads to a free page. */
  lemma SecondViewOutlives(m: Machine, a: nat)
    requires Inv(m) && Mirrored(m) && a in m.spaces
    requires (a, SECOND_VIEW) in m.tlb ==> m.tlb[(a, SECOND_VIEW)] == DirEntry(m, a, PDX(KSEG2))
    ensures var m' := EnvFree(m, a);
      && ((a, SECOND_VIEW) in m'.tlb <==> (a, SECOND_VIEW) in m.tlb)
      && ((a, SECOND_VIEW) in m'.tlb ==> (
            && m'.tlb[(a, SECOND_VIEW)].perm.v && m'.tlb[(a, SECOND_VIEW)].ppn in m'.free
            && a !in m'.spaces))
  {
    UserLimits();
    assert SelfMapped(m, a);
    FreeTablesStays(m, a, 0);
    FreeTablesReleases(m, a, 0);
    DirectoryHasOneRef(m, a);
    EnvFreeKeepsInv(m, a);
    EnvFreeConserves(m, a, m.spaces[a]);
  }

  // ---------- refills from and of the windows ----------

  /** The handler at the refill vector: the word it loads through the KSEG2 window becomes the
      entry for v.  None where the load itself misses. */
  function FastRefill(m: Machine, a: nat, v: nat, evicted: set<(nat, nat)>): (r: Option<Machine>)
    requires v < USER_PAGES
  {
    var k := (a, Kseg2Page(v / ENTRIES));
    if k !in m.tlb || !m.tlb[k].perm.v || m.tlb[k].ppn >= |m.mem| then None
    else Some(m.(tlb := (m.tlb - evicted)[(a, v) := m.mem[m.tlb[k].ppn][v % ENTRIES]]))
  }

  /** The fast refill writes what the slow one would: the current page-table entry. */
  lemma FastRefillIsPte(m: Machine, a: nat, v: nat, evicted: set<(nat, nat)>)
    requires Inv(m) && Mirrored(m) && v < USER_PAGES && FastRefill(m, a, v, evicted).Some?
    ensures a in m.spaces && FastRefill(m, a, v, evicted).value == TlbWrite(m, a, v, evicted)
  {
    var d := v / ENTRIES;
    assert EntryRight(m, a, d, Kseg2Page(d));
    assert Target(m, Table(a, d)) == Some(DirEntry(m, a, d).ppn);
  }

  lemma FastRefillKeeps(m: Machine, a: nat, v: nat, evicted: set<(nat, nat)>)
    requires Inv(m) && Mirrored(m) && v < USER_PAGES && FastRefill(m, a, v, evicted).Some?
    ensures var m' := FastRefill(m, a, v, evicted).value;
      Inv(m') && Held(m') == Held(m) && Mirrored(m')
  {
    FastRefillIsPte(m, a, v, evicted);
    TlbWriteKeepsInv(m, a, v, evicted);
    TlbWriteMirrored(m, a, v, evicted);
  }

  function WindowWrite(m: Machine, a: nat, d: nat, w: nat, evicted: set<(nat, nat)>): Machine
    requires a in m.spaces && Followed(d)
  {
    UserLimits();
    m.(tlb := (m.tlb - evicted)[(a, w) := DirEntry(m, a, d)])
  }

  /** do_tlb_refill for the window page w of slot d: the walk goes through the directory as if
      it were a table, so passive_alloc makes the page table that is missing. */
  function WindowRefill(m: Machine, a: nat, d: nat, w: nat, evicted: set<(nat, nat)>): (r: Option<Machine>)
    requires Inv(m) && a in m.spaces && Followed(d) && IsWindow(w, d)
  {
    UserLimits();
    if DirEntry(m, a, d).perm.v then Some(WindowWrite(m, a, d, w, evicted))
    else if d == SELF || m.free == [] then None
    else Some(WindowWrite(TlbInvalidate(PgdirWalk(m, a, d * ENTRIES, true).m, a, w), a, d, w, evicted))
  }

  /** A user load from vpt that the handler at the refill vector serves: it finds the directory
      entry through the window's own slice of the window, valid or not. */
  function FastWindowRefill(m: Machine, a: nat, d: nat, evicted: set<(nat, nat)>): (r: Option<Machine>)
    requires d < USER_TABLES
  {
    var k := (a, Kseg2Page(SELF));
    if k !in m.tlb || !m.tlb[k].perm.v || m.tlb[k].ppn >= |m.mem| then None
    else Some(m.(tlb := (m.tlb - evicted)[(a, UvptPage(d)) := m.mem[m.tlb[k].ppn][d]]))
  }

  lemma SlotOfWindow(w: nat, d: nat, e: nat)
    requires Followed(d) && Followed(e) && IsWindow(w, d) && IsWindow(w, e)
    ensures d == e
  {
    UserLimits();
  }

  lemma WindowWriteKeeps(m: Machine, a: nat, d: nat, w: nat, evicted: set<(nat, nat)>)
    requires Inv(m) && Mirrored(m) && a in m.spaces && Followed(d) && IsWindow(w, d)
    ensures var m' := WindowWrite(m, a, d, w, evicted);
      Inv(m') && Held(m') == Held(m) && Mirrored(m')
  {
    var m' := WindowWrite(m, a, d, w, evicted);
    WindowsApart(d, w);
    SameMemSameTargets(m, m');
    WindowWriteInv(m, m');
    forall b | b in m'.spaces ensures SelfMapped(m', b) {
      assert SelfMapped(m, b);
    }
    forall b: nat, e: nat, u: nat ensures EntryRight(m', b, e, u) {
      assert EntryRight(m, b, e, u);
      if (b, u) == (a, w) && Followed(e) && IsWindow(u, e) {
        SlotOfWindow(w, d, e);
        assert SelfMapped(m, a);
      }
    }
  }

  /** TLB entries beyond the user pages are no part of the invariant of the page tables. */
  lemma WindowWriteInv(m: Machine, m': Machine)
    requires Inv(m) && m' == m.(tlb := m'.tlb)
    requires forall k | k in m'.tlb && k.1 < USER_PAGES :: k in m.tlb && m'.tlb[k] == m.tlb[k]
    ensures Inv(m') && Held(m') == Held(m)
  {
    SameMemSameTargets(m, m');
    assert AllSlots(m') == AllSlots(m);
    forall q: nat | q < |m.mem| ensures RefsTo(m', q) == RefsTo(m, q) {
    }
  }

  /** A page table made through a window is one like any other. */
  lemma WindowRefillKeeps(m: Machine, a: nat, d: nat, w: nat, evicted: set<(nat, nat)>)
    requires Inv(m) && Mirrored(m) && a in m.spaces && Followed(d) && IsWindow(w, d)
    requires WindowRefill(m, a, d, w, evicted).Some?
    ensures var m' := WindowRefill(m, a, d, w, evicted).value;
      Inv(m') && Held(m') == Held(m) && Mirrored(m')
  {
    UserLimits();
    if DirEntry(m, a, d).perm.v {
      WindowWriteKeeps(m, a, d, w, evicted);
    } else {
      var m1 := PgdirWalk(m, a, d * ENTRIES, true).m;
      NewTableKeepsInv(m, a, d * ENTRIES);
      SameFrameKeepsTables(m, m1);
      KeepsMirrored(m, m1);
      InvalidateKeepsInv(m1, a, w);
      KeepsMirrored(m1, TlbInvalidate(m1, a, w));
      WindowWriteKeeps(TlbInvalidate(m1, a, w), a, d, w, evicted);
    }
  }

  lemma FastWindowRefillKeeps(m: Machine, a: nat, d: nat, evicted: set<(nat, nat)>)
    requires Inv(m) && Mirrored(m) && d < USER_TABLES && FastWindowRefill(m, a, d, evicted).Some?
    ensures var m' := FastWindowRefill(m, a, d, evicted).value;
      && a in m.spaces && m' == WindowWrite(m, a, d, UvptPage(d), evicted)
      && Inv(m') && Held(m') == Held(m) && Mirrored(m')
  {
    UserLimits();
    assert EntryRight(m, a, SELF, Kseg2Page(SELF));
    WindowWriteKeeps(m, a, d, UvptPage(d), evicted);
  }

  /** The handler at the refill vector serves a miss exactly if the TLB has a valid entry for the
      window page it loads from; the other one panics exactly if a table is missing and there is
      no page for it. */
  lemma RefillsServeExactlyWhen(m: Machine, a: nat, v: nat, d: nat, w: nat, evicted: set<(nat, nat)>)
    requires Inv(m) && Mirrored(m) && v < USER_PAGES && d < USER_TABLES
    ensures var k := (a, KSEG2 / BY2PG + v / ENTRIES);
      FastRefill(m, a, v, evicted).Some? <==> k in m.tlb && m.tlb[k].perm.v
    ensures var k := (a, KSEG2 / BY2PG + 511);
      FastWindowRefill(m, a, d, evicted).Some? <==> k in m.tlb && m.tlb[k].perm.v
    ensures a in m.spaces && IsWindow(w, d) ==>
      (WindowRefill(m, a, d, w, evicted).None? <==> !DirEntry(m, a, d).perm.v && m.free == [])
    ensures a in m.spaces && IsWindow(w, SELF) ==> WindowRefill(m, a, SELF, w, evicted).Some?
  {
    UserLimits();
    assert EntryRight(m, a, v / ENTRIES, Kseg2Page(v / ENTRIES));
    assert EntryRight(m, a, SELF, Kseg2Page(SELF));
    if a in m.spaces {
      assert SelfMapped(m, a);
      assert Target(m, Dir(a)) == Some(m.spaces[a]);
      assert IsSlot(m, Table(a, v / ENTRIES));
    }
  }

  // ---------- what a load through a window finds ----------

  /** The word at index i of the page a valid window entry leads to. */
  function Loaded(m: Machine, a: nat, w: nat, i: nat): Option<Word>
    requires i < ENTRIES
  {
    if (a, w) !in m.tlb || !m.tlb[(a, w)].perm.v || m.tlb[(a, w)].ppn >= |m.mem| then None
    else Some(m.mem[m.tlb[(a, w)].ppn][i])
  }

  /** What vpt[v], or the fast refill, loads through the TLB is the page-table entry for v now;
      what vpd[d] loads is the directory entry. */
  lemma LoadsAreCurrent(m: Machine, a: nat, v: nat, d: nat, w: nat)
    requires Inv(m) && Mirrored(m) && v < USER_PAGES && d < ENTRIES
    ensures IsWindow(w, v / ENTRIES) && Loaded(m, a, w, v % ENTRIES).Some? ==>
      a in m.spaces && Loaded(m, a, w, v % ENTRIES).value == Pte(m, a, v)
    ensures IsWindow(w, SELF) && Loaded(m, a, w, d).Some? ==>
      a in m.spaces && Loaded(m, a, w, d).value == DirEntry(m, a, d)
  {
    UserLimits();
    assert EntryRight(m, a, v / ENTRIES, w);
    assert EntryRight(m, a, SELF, w);
  }
}
