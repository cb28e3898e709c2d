/** The steps of CowFork are what the system calls of fork.c do to the page tables. */
module ForkCalls {
  import opened Mmu
  import opened PageTables
  import opened MemoryCalls
  import opened VmView
  import opened CowFork

  ghost function SysOf(m: Machine): Sys {
    Sys(View(m), m.mem, map[], map[], {})
  }

  /** memcpy of one whole page onto another. */
  function CopyPage(m: Machine, src: nat, dst: nat): Machine
    requires src < |m.mem| && dst < |m.mem|
  {
    m.(mem := m.mem[dst := m.mem[src]])
  }

  lemma CopyPageView(m: Machine, src: nat, dst: nat)
    requires Inv(m) && src < |m.mem| && dst < |m.mem| && OnlyLeaves(m, dst)
    ensures var m' := CopyPage(m, src, dst);
      Inv(m') && View(m') == View(m) && m'.spaces == m.spaces
  {
    DataPageInv(m, CopyPage(m, src, dst), dst);
  }

  /** A frame mapped at one page only is referenced once. */
  lemma MappedOnce(m: Machine, k: VPage)
    requires Inv(m) && k in View(m)
    requires forall j | j in View(m) && j != k :: View(m)[j].ppn != View(m)[k].ppn
    ensures View(m)[k].ppn < |m.mem| && m.refs[View(m)[k].ppn] == 1
  {
    var p := View(m)[k].ppn;
    LeafPageMappable(m, k.a, k.v);
    assert Target(m, Leaf(k.a, k.v)) == Some(p);
    forall s | s in RefsTo(m, p) ensures s == Leaf(k.a, k.v) {
      assert s.Leaf? && VPage(s.asid, s.vpn) in View(m);
    }
    assert RefsTo(m, p) == {Leaf(k.a, k.v)};
    assert m.refs[p] == |RefsTo(m, p)|;
  }

  /** The four calls of cow_entry. */
  function CowCalls(m: Machine, a: nat, v: nat, perm: Perm): (r: (Machine, bool))
    requires Inv(m) && a in m.spaces && LegalPage(v) && Pte(m, a, v).perm.v && |m.free| >= 2
  {
    MemAllocView(m, Some(a), UCOW, perm);
    var r1 := SysMemAlloc(m, Some(a), UCOW, perm);
    LeafPageMappable(m, a, v);
    var src, dst := Pte(m, a, v).ppn, m.free[0];
    NewPageIsData(m, a, perm);
    CopyPageView(r1.0, src, dst);
    var m2 := CopyPage(r1.0, src, dst);
    var r3 := SysMemMap(m2, Some(a), UCOW, Some(a), v * BY2PG, perm);
    CopyIsMapped(m, a, v, perm);
    var r4 := SysMemUnmap(r3.0, Some(a), UCOW);
    (r4.0, r1.1 == 0 && r3.1 == 0 && r4.1 == 0)
  }

  lemma NewPageIsData(m: Machine, a: nat, perm: Perm)
    requires Inv(m) && a in m.spaces && |m.free| >= 2
    ensures var (m1, r) := SysMemAlloc(m, Some(a), UCOW, perm);
      && r == 0 && Inv(m1) && m1.spaces == m.spaces && m.free[0] < |m1.mem| == |m.mem| && OnlyLeaves(m1, m.free[0])
      && View(m1) == View(m)[VPage(a, UCOW_PAGE) := MappedWord(m.free[0], perm)]
      && FrameUnused(View(m), m.free[0]) && DataKept(View(m), m.mem, m1.mem)
  {
    MemAllocView(m, Some(a), UCOW, perm);
    AllocInsert(m, a, VPN(UCOW), perm);
    var m1 := SysMemAlloc(m, Some(a), UCOW, perm).0;
    assert VPage(a, UCOW_PAGE) in View(m1);
    LeafPageMappable(m1, a, UCOW_PAGE);
  }

  predicate LegalPage(v: nat) { FIRST_PAGE <= v < USER_PAGES }

  /** sys_mem_map in terms of page numbers. */
  lemma MapPages(m: Machine, b: nat, u: nat, a: nat, v: nat, perm: Perm)
    requires Inv(m) && b in m.spaces && a in m.spaces && LegalPage(u) && LegalPage(v)
    requires Pte(m, b, u).perm.v && RoomForReference(m, Pte(m, b, u).ppn)
    requires m.free != [] || Pte(m, a, v).perm.v
    ensures var (m', r) := SysMemMap(m, Some(b), u * BY2PG, Some(a), v * BY2PG, perm);
      && r == 0 && Inv(m') && m'.spaces == m.spaces && SharedTo(m, m', VPage(b, u), VPage(a, v), perm)
  {
    assert VPN(u * BY2PG) == u && VPN(v * BY2PG) == v;
    MapIsInsert(m, b, u * BY2PG, a, v * BY2PG, perm);
    ShareView(m, b, u, a, v, perm);
  }

  /** The third call of cow_entry: the page at UCOW, mapped there only, goes over v. */
  lemma MapSolePage(m: Machine, a: nat, v: nat, perm: Perm)
    requires Inv(m) && a in m.spaces && LegalPage(v)
    requires VPage(a, UCOW_PAGE) in View(m) && VPage(a, v) in View(m)
    requires forall j | j in View(m) && j != VPage(a, UCOW_PAGE) :: View(m)[j].ppn != View(m)[VPage(a, UCOW_PAGE)].ppn
    ensures var (m', r) := SysMemMap(m, Some(a), UCOW, Some(a), v * BY2PG, perm);
      && r == 0 && Inv(m') && m'.spaces == m.spaces && SharedTo(m, m', VPage(a, UCOW_PAGE), VPage(a, v), perm)
  {
    MappedOnce(m, VPage(a, UCOW_PAGE));
    assert UCOW_PAGE * BY2PG == UCOW;
    MapPages(m, a, UCOW_PAGE, a, v, perm);
  }

  lemma CopyIsMapped(m: Machine, a: nat, v: nat, perm: Perm)
    requires Inv(m) && a in m.spaces && LegalPage(v) && Pte(m, a, v).perm.v && |m.free| >= 2
    ensures Pte(m, a, v).ppn < |m.mem|
    ensures var q := m.free[0];
      var m1 := SysMemAlloc(m, Some(a), UCOW, perm).0;
      && q < |m1.mem| == |m.mem|
      && var m2 := CopyPage(m1, Pte(m, a, v).ppn, q);
      && Inv(m2) && a in m2.spaces && View(m2) == View(m1)
      && var (m3, r) := SysMemMap(m2, Some(a), UCOW, Some(a), v * BY2PG, perm);
      && r == 0 && Inv(m3) && a in m3.spaces
      && SharedTo(m2, m3, VPage(a, UCOW_PAGE), VPage(a, v), perm)
  {
    NewPageIsData(m, a, perm);
    LeafPageMappable(m, a, v);
    var m1 := SysMemAlloc(m, Some(a), UCOW, perm).0;
    CopyPageView(m1, Pte(m, a, v).ppn, m.free[0]);
    var m2 := CopyPage(m1, Pte(m, a, v).ppn, m.free[0]);
    assert VPage(a, v) in View(m) && VPage(a, v) in View(m2);
    MapSolePage(m2, a, v, perm);
  }

  /** With two free pages, the calls of cow_entry succeed and do what CowEntry says. */
  lemma CowEntryByCalls(m: Machine, a: nat, v: nat)
    requires Inv(m) && a in m.spaces && LegalPage(v) && v != UCOW_PAGE
    requires Pte(m, a, v).perm.v && Pte(m, a, v).perm.cow && |m.free| >= 2
    ensures var perm := Pte(m, a, v).perm.(cow := false, d := true);
      var (m', ok) := CowCalls(m, a, v, perm);
      && ok && Inv(m') && VPage(a, v) in View(m) && View(m)[VPage(a, v)].ppn < |m.mem| && m.free[0] < |m.mem|
      && var s' := CowEntry(SysOf(m), a, v, m.free[0]);
      && View(m') == s'.pt && DataKept(s'.pt, s'.mem, m'.mem)
  {
    var perm := Pte(m, a, v).perm.(cow := false, d := true);
    NewPageIsData(m, a, perm);
    LeafPageMappable(m, a, v);
    CopyIsMapped(m, a, v, perm);
    var q := m.free[0];
    var m1 := SysMemAlloc(m, Some(a), UCOW, perm).0;
    var m2 := CopyPage(m1, Pte(m, a, v).ppn, q);
    var m3 := SysMemMap(m2, Some(a), UCOW, Some(a), v * BY2PG, perm).0;
    MemUnmapView(m3, Some(a), UCOW);
    CowDataKept(m, m1, m2, m3, CowCalls(m, a, v, perm).0, a, v, q, perm);
  }

  /** Below UTEMP the third call is refused, and the page at UCOW goes again: the faulting page
      stays as it is, and the store that led to cow_entry faults anew. */
  lemma CowEntryRefused(m: Machine, a: nat, v: nat, perm: Perm)
    requires Inv(m) && a in m.spaces && v < FIRST_PAGE && Pte(m, a, v).perm.v && |m.free| >= 2
    ensures Pte(m, a, v).ppn < |m.mem| && m.free[0] < |m.mem|
    ensures var m1 := SysMemAlloc(m, Some(a), UCOW, perm).0;
      && |m1.mem| == |m.mem|
      && var m2 := CopyPage(m1, Pte(m, a, v).ppn, m.free[0]);
      && Inv(m2) && a in m2.spaces
      && SysMemMap(m2, Some(a), UCOW, Some(a), v * BY2PG, perm) == (m2, -E_INVAL)
      && var m4 := SysMemUnmap(m2, Some(a), UCOW).0;
      && Inv(m4) && View(m4) == View(m) - {VPage(a, UCOW_PAGE)} && DataKept(View(m4), m.mem, m4.mem)
  {
    NewPageIsData(m, a, perm);
    LeafPageMappable(m, a, v);
    var m1 := SysMemAlloc(m, Some(a), UCOW, perm).0;
    CopyPageView(m1, Pte(m, a, v).ppn, m.free[0]);
    var m2 := CopyPage(m1, Pte(m, a, v).ppn, m.free[0]);
    assert v * BY2PG < UTEMP;
    MemUnmapView(m2, Some(a), UCOW);
    RefusedDataKept(m, m1, m2, SysMemUnmap(m2, Some(a), UCOW).0, a, m.free[0], MappedWord(m.free[0], perm));
  }

  lemma RefusedDataKept(m: Machine, m1: Machine, m2: Machine, m4: Machine, a: nat, q: nat, word: Word)
    requires q < |m.mem| && FrameUnused(View(m), q)
    requires View(m1) == View(m)[VPage(a, UCOW_PAGE) := word] && DataKept(View(m), m.mem, m1.mem)
    requires |m2.mem| == |m1.mem| && View(m2) == View(m1)
    requires forall p: nat | p < |m1.mem| && p != q :: m2.mem[p] == m1.mem[p]
    requires View(m4) == View(m2) - {VPage(a, UCOW_PAGE)} && DataKept(View(m2), m2.mem, m4.mem)
    ensures View(m4) == View(m) - {VPage(a, UCOW_PAGE)} && DataKept(View(m4), m.mem, m4.mem)
  {
  }

  lemma CowDataKept(m: Machine, m1: Machine, m2: Machine, m3: Machine, m4: Machine, a: nat, v: nat, q: nat, perm: Perm)
    requires v != UCOW_PAGE && VPage(a, v) in View(m) && View(m)[VPage(a, v)].ppn < |m.mem|
    requires perm == View(m)[VPage(a, v)].perm.(cow := false, d := true)
    requires q < |m.mem| && FrameUnused(View(m), q)
    requires View(m1) == View(m)[VPage(a, UCOW_PAGE) := MappedWord(q, perm)] && DataKept(View(m), m.mem, m1.mem)
    requires m2 == CopyPage(m1, View(m)[VPage(a, v)].ppn, q)
    requires View(m3) == View(m1)[VPage(a, v) := MappedWord(q, perm)] && DataKept(View(m1), m2.mem, m3.mem)
    requires View(m4) == View(m3) - {VPage(a, UCOW_PAGE)} && DataKept(View(m3), m3.mem, m4.mem)
    ensures var s' := CowEntry(SysOf(m), a, v, q);
      View(m4) == s'.pt && DataKept(s'.pt, s'.mem, m4.mem)
  {
    var s' := CowEntry(SysOf(m), a, v, q);
    assert View(m4) == s'.pt;
    assert VPage(a, UCOW_PAGE) in View(m1) && View(m1)[VPage(a, UCOW_PAGE)].ppn == q;
    forall k | k in s'.pt && s'.pt[k].ppn < |s'.mem|
      ensures m4.mem[s'.pt[k].ppn] == s'.mem[s'.pt[k].ppn]
    {
      if k != VPage(a, v) {
        assert k in View(m) && k in View(m1) && k in View(m3);
      } else {
        assert k in View(m3) && View(m3)[k].ppn == q;
      }
    }
  }

  /** Below UTEMP sys_mem_map refuses whatever it is asked. */
  lemma RefusedPage(m: Machine, b: nat, u: nat, a: nat, v: nat, perm: Perm)
    requires Inv(m) && b in m.spaces && a in m.spaces && v < FIRST_PAGE
    ensures SysMemMap(m, Some(b), u * BY2PG, Some(a), v * BY2PG, perm) == (m, -E_INVAL)
  {
    assert v * BY2PG < UTEMP;
  }

  /** The first call of duppage is its step in CowFork on every page that fork comes to, and it
      fails exactly where that step loses the page. */
  lemma DupPageByCalls(m: Machine, a: nat, c: nat, v: nat)
    requires Inv(m) && a in m.spaces && c in m.spaces && a != c && v < STACK_PAGES
    requires Pte(m, a, v).perm.v && RoomForReference(m, Pte(m, a, v).ppn)
    ensures VPage(a, v) in View(m)
    ensures var word := View(m)[VPage(a, v)];
      var perm := if SharedAsIs(word.perm) then word.perm else word.perm.(d := false, cow := true);
      var (m1, r1) := SysMemMap(m, Some(a), v * BY2PG, Some(c), v * BY2PG, perm);
      var s1 := DupFirstCall(SysOf(m), a, c, v, HasRoom(m, c, v));
      && Inv(m1) && View(m1) == s1.pt && DataKept(View(m), m.mem, m1.mem)
      && (r1 == 0 <==> VPage(c, v) !in s1.lost)
      && (r1 != 0 ==> r1 == if v < FIRST_PAGE then -E_INVAL else -E_NO_MEM)
  {
    LeafPageMappable(m, a, v);
    var word := View(m)[VPage(a, v)];
    var perm := if SharedAsIs(word.perm) then word.perm else word.perm.(d := false, cow := true);
    if v < FIRST_PAGE {
      RefusedPage(m, a, v, c, v, perm);
    } else {
      MapResult(m, a, c, v, perm);
    }
  }

  /** sys_mem_map of one page number in two spaces. */
  lemma MapResult(m: Machine, a: nat, c: nat, v: nat, perm: Perm)
    requires Inv(m) && a in m.spaces && c in m.spaces && LegalPage(v)
    requires Pte(m, a, v).perm.v && RoomForReference(m, Pte(m, a, v).ppn)
    ensures var (m1, r1) := SysMemMap(m, Some(a), v * BY2PG, Some(c), v * BY2PG, perm);
      && Inv(m1) && (r1 == 0 <==> HasRoom(m, c, v)) && (r1 != 0 ==> r1 == -E_NO_MEM)
      && (r1 == 0 ==> SharedTo(m, m1, VPage(a, v), VPage(c, v), perm))
      && (r1 != 0 ==> View(m1) == View(m) && m1.mem == m.mem)
  {
    assert VPN(v * BY2PG) == v;
    MapIsInsert(m, a, v * BY2PG, c, v * BY2PG, perm);
    LeafPageMappable(m, a, v);
    ShareView(m, a, v, c, v, perm);
    InsertView(m, a, v, c, v, perm);
    InsertFails(m, c, Pte(m, a, v).ppn, v, perm);
  }

  /** The second call of duppage: the parent's own mapping is rewritten, whatever the parent
      has stored in between and whatever became of the first call, but not below UTEMP. */
  lemma RemapByCall(m: Machine, a: nat, v: nat, c: nat, perm: Perm)
    requires Inv(m) && a in m.spaces && v < STACK_PAGES
    requires Pte(m, a, v).perm.v && RoomForReference(m, Pte(m, a, v).ppn)
    ensures VPage(a, v) in View(m)
    ensures var (m1, r1) := SysMemMap(m, Some(a), v * BY2PG, Some(a), v * BY2PG, perm);
      && Inv(m1) && DataKept(View(m), m.mem, m1.mem)
      && r1 == (if v < FIRST_PAGE then -E_INVAL else 0)
      && (v < FIRST_PAGE ==> m1 == m)
      && (v >= FIRST_PAGE ==> View(m1) == DupSecondCall(SysOf(m).(pend := map[a := Pending(c, v, perm)]), a).pt)
      && (perm == View(m)[VPage(a, v)].perm.(d := false, cow := true) ==> View(m1) == ProtectCall(SysOf(m), a, v).pt)
  {
    LeafPageMappable(m, a, v);
    if v < FIRST_PAGE {
      RefusedPage(m, a, v, a, v, perm);
    } else {
      MapPages(m, a, v, a, v, perm);
    }
  }

  /** A page that came with a message to address 0 is one that the receiver's children do not
      inherit: every call of duppage on it is refused. */
  lemma SentToZeroIsLost(m: Machine, src: nat, srcva: nat, dst: nat, perm: Perm, c: nat)
    requires Inv(m) && src in m.spaces && dst in m.spaces && c in m.spaces && !IllegalVa(srcva)
    requires VPage(src, VPN(srcva)) in View(m) && RoomForReference(m, View(m)[VPage(src, VPN(srcva))].ppn)
    requires HasRoom(m, dst, 0)
    ensures var m1 := SendPage(m, src, srcva, dst, 0, perm).0;
      && Inv(m1) && dst in m1.spaces && c in m1.spaces
      && VPage(dst, 0) in View(m1) && View(m1)[VPage(dst, 0)].ppn == View(m)[VPage(src, VPN(srcva))].ppn
      && forall q :: SysMemMap(m1, Some(dst), 0, Some(c), 0, q) == (m1, -E_INVAL)
  {
    SendPageView(m, src, srcva, dst, 0, perm);
    LookupIsPte(m, src, VPN(srcva));
    ShareView(m, src, VPN(srcva), dst, 0, perm);
  }
}
