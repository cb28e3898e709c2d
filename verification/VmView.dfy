/** The plain map that the page tables refine, and what the memory system calls and user
    stores do to it (kern/syscall_all.c over kern/pmap.c). */
module VmView {
  import opened Mmu
  import opened PageTables
  import opened MemoryCalls

  /** A virtual page of an address space. */
  datatype VPage = VPage(a: nat, v: nat)

  type Mapping = map<VPage, Word>

  ghost function UserPagesOf(m: Machine): (s: set<VPage>)
    ensures forall k :: k in s <==> k.a in m.spaces && k.v < USER_PAGES
  {
    set a, v | a in m.spaces.Keys && 0 <= v < USER_PAGES :: VPage(a, v)
  }

  /** (space, virtual page) to (frame, permissions). */
  ghost function View(m: Machine): Mapping {
    map k | k in UserPagesOf(m) && Pte(m, k.a, k.v).perm.v :: Pte(m, k.a, k.v)
  }

  ghost predicate FrameUnused(pt: Mapping, p: nat) {
    forall k | k in pt :: pt[k].ppn != p
  }

  /** Every frame mapped in pt keeps its contents. */
  ghost predicate DataKept(pt: Mapping, mem: seq<Frame>, mem': seq<Frame>) {
    |mem'| == |mem| && forall k | k in pt && pt[k].ppn < |mem| :: mem'[pt[k].ppn] == mem[pt[k].ppn]
  }

  lemma ViewUpdate(m: Machine, m': Machine, a: nat, v: nat)
    requires m'.spaces == m.spaces && a in m.spaces && v < USER_PAGES && OthersKeep(m, m', a, v)
    ensures View(m') == if Pte(m', a, v).perm.v then View(m)[VPage(a, v) := Pte(m', a, v)] else View(m) - {VPage(a, v)}
  {
    assert UserPagesOf(m') == UserPagesOf(m);
    forall k | k in UserPagesOf(m) && k != VPage(a, v) ensures Pte(m', k.a, k.v) == Pte(m, k.a, k.v) {
      assert k == VPage(k.a, k.v);
    }
  }

  lemma SameDataView(m: Machine, m': Machine)
    requires Inv(m) && |m'.mem| == |m.mem| && SameData(m, m')
    ensures DataKept(View(m), m.mem, m'.mem)
  {
    forall k | k in View(m)
      ensures View(m)[k].ppn < |m.mem| && m'.mem[View(m)[k].ppn] == m.mem[View(m)[k].ppn]
    {
      LeafPageMappable(m, k.a, k.v);
    }
  }

  lemma ViewMapped(m: Machine, m': Machine, a: nat, p: nat, v: nat, perm: Perm)
    requires Inv(m) && Mapped(m, m', a, p, v, perm)
    ensures View(m') == View(m)[VPage(a, v) := MappedWord(p, perm)]
    ensures DataKept(View(m), m.mem, m'.mem)
  {
    ViewUpdate(m, m', a, v);
    SameDataView(m, m');
  }

  lemma LeafPageMappable(m: Machine, a: nat, v: nat)
    requires Inv(m) && a in m.spaces && v < USER_PAGES && Pte(m, a, v).perm.v
    ensures Pte(m, a, v).ppn < |m.mem| && Mappable(m, Pte(m, a, v).ppn) && m.refs[Pte(m, a, v).ppn] > 0
  {
    var p := Pte(m, a, v).ppn;
    assert Target(m, Leaf(a, v)) == Some(p);
    OneLeafOnlyLeaves(m, Leaf(a, v), p);
    assert Leaf(a, v) in RefsTo(m, p);
    assert m.refs[p] == |RefsTo(m, p)|;
  }

  // ---------- system calls ----------

  predicate IllegalVa(va: nat) { va < UTEMP || va >= UTOP }

  /** The space of the environment envid2env found, if it found one. */
  predicate Live(m: Machine, env: Option<nat>) {
    env.Some? ==> env.value in m.spaces
  }

  function SysMemAlloc(m: Machine, env: Option<nat>, va: nat, perm: Perm): (r: (Machine, int))
    requires Inv(m) && Live(m, env)
  {
    if IllegalVa(va) then (m, -E_INVAL)
    else if env.None? then (m, -E_BAD_ENV)
    else if m.free == [] then (m, -E_NO_MEM)
    else
      AllocInsert(m, env.value, VPN(va), perm);
      PageInsert(PageAlloc(m).0, env.value, PageAlloc(m).1.value, VPN(va), perm)
  }

  function SysMemMap(m: Machine, src: Option<nat>, srcva: nat, dst: Option<nat>, dstva: nat, perm: Perm)
    : (r: (Machine, int))
    requires Inv(m) && Live(m, src) && Live(m, dst)
  {
    if IllegalVa(srcva) || IllegalVa(dstva) then (m, -E_INVAL)
    else if src.None? || dst.None? then (m, -E_BAD_ENV)
    else
      var found := PageLookup(m, src.value, VPN(srcva));
      if found.None? then (m, -E_INVAL)
      else
        LookupIsPte(m, src.value, VPN(srcva));
        LeafPageMappable(m, src.value, VPN(srcva));
        PageInsert(m, dst.value, found.value.ppn, VPN(dstva), perm)
  }

  function SysMemUnmap(m: Machine, env: Option<nat>, va: nat): (r: (Machine, int))
    requires Inv(m) && Live(m, env)
  {
    if IllegalVa(va) then (m, -E_INVAL)
    else if env.None? then (m, -E_BAD_ENV)
    else (PageRemove(m, env.value, VPN(va)), 0)
  }

  /** m' maps, at k, a zeroed frame that m did not map, and is otherwise the same map. */
  ghost predicate NewPage(m: Machine, m': Machine, k: VPage, perm: Perm) {
    && m.free != [] && Held(m') == Held(m) && FrameUnused(View(m), m.free[0])
    && View(m') == View(m)[k := MappedWord(m.free[0], perm)]
    && DataKept(View(m), m.mem, m'.mem)
    && m.free[0] < |m'.mem| && m'.mem[m.free[0]] == ZeroFrame()
  }

  /** sys_mem_alloc maps a zeroed frame nobody else maps; when it fails for want of a page
      table it loses the page it allocated, and otherwise it fails without a change. */
  lemma MemAllocView(m: Machine, env: Option<nat>, va: nat, perm: Perm)
    requires Inv(m) && Live(m, env)
    ensures var (m', r) := SysMemAlloc(m, env, va, perm);
      && Inv(m')
      && (r == 0 ==> env.Some? && NewPage(m, m', VPage(env.value, VPN(va)), perm))
      && (r != 0 ==> View(m') == View(m) && (m' == m || (r == -E_NO_MEM && Held(m') == Held(m) + {m.free[0]})))
      && (r == -E_INVAL <==> IllegalVa(va))
      && (r == -E_BAD_ENV <==> !IllegalVa(va) && env.None?)
      && (r == -E_NO_MEM <==> !IllegalVa(va) && env.Some? && !RoomForPage(m, env.value, VPN(va)))
      && (r == 0 <==> !IllegalVa(va) && env.Some? && RoomForPage(m, env.value, VPN(va)))
      && (m' == m <==> r != 0 && (r == -E_NO_MEM ==> m.free == []))
  {
    if !IllegalVa(va) && env.Some? && m.free != [] {
      AllocInsertView(m, env.value, VPN(va), perm);
      AllocChanges(m, SysMemAlloc(m, env, va, perm).0, VPage(env.value, VPN(va)), perm);
    }
  }

  /** A page that was free is mapped, or dropped. */
  lemma AllocChanges(m: Machine, m': Machine, k: VPage, perm: Perm)
    requires m.free != [] && (NewPage(m, m', k, perm) || Held(m') == Held(m) + {m.free[0]})
    ensures m' != m
  {
    assert m.free[0] in m.free && m.free[0] !in Held(m);
    if NewPage(m, m', k, perm) {
      assert k in View(m') && View(m')[k].ppn == m.free[0];
    }
  }

  lemma AllocInsertView(m: Machine, a: nat, v: nat, perm: Perm)
    requires Inv(m) && a in m.spaces && v < USER_PAGES && m.free != []
    ensures var m1 := PageAlloc(m).0;
      && Inv(m1) && a in m1.spaces && m.free[0] < |m1.mem|
      && var (m', r) := PageInsert(m1, a, m.free[0], v, perm);
      && Inv(m') && (r == 0 || r == -E_NO_MEM)
      && (r == 0 <==> RoomForPage(m, a, v))
      && (r == 0 ==> NewPage(m, m', VPage(a, v), perm))
      && (r != 0 ==> View(m') == View(m) && Held(m') == Held(m) + {m.free[0]})
  {
    AllocInsert(m, a, v, perm);
    var m1 := PageAlloc(m).0;
    var (m', r) := PageInsert(m1, a, m.free[0], v, perm);
    if r == 0 {
      AllocMapped(m, m', a, v, perm);
    } else {
      AllocView(m);
      SameMemSameTargets(m1, m');
    }
  }

  lemma AllocMapped(m: Machine, m': Machine, a: nat, v: nat, perm: Perm)
    requires Inv(m) && m.free != [] && Mapped(PageAlloc(m).0, m', a, m.free[0], v, perm)
    requires Held(m') == Held(m) && m.free[0] < |m'.mem| && m'.mem[m.free[0]] == ZeroFrame()
    ensures NewPage(m, m', VPage(a, v), perm)
  {
    AllocKeepsInv(m);
    AllocView(m);
    ViewMapped(PageAlloc(m).0, m', a, m.free[0], v, perm);
  }

  lemma AllocView(m: Machine)
    requires Inv(m) && m.free != []
    ensures var m1 := PageAlloc(m).0;
      && View(m1) == View(m) && DataKept(View(m), m.mem, m1.mem) && FrameUnused(View(m), m.free[0])
  {
    AllocKeepsInv(m);
    UnusedHasNoSlot(m, m.free[0]);
    forall k | k in View(m) ensures View(m)[k].ppn != m.free[0] {
      assert Target(m, Leaf(k.a, k.v)) == Some(View(m)[k].ppn);
    }
  }

  /** m' maps dst to the frame that src is mapped to, and is otherwise the same map. */
  ghost predicate SharedTo(m: Machine, m': Machine, src: VPage, dst: VPage, perm: Perm) {
    && src in View(m) && View(m') == View(m)[dst := MappedWord(View(m)[src].ppn, perm)]
    && DataKept(View(m), m.mem, m'.mem)
  }

  /** pp_ref can still count one more reference to p. */
  predicate RoomForReference(m: Machine, p: nat) {
    p < |m.refs| ==> m.refs[p] < 0xFFFF
  }

  lemma ShareView(m: Machine, b: nat, u: nat, a: nat, v: nat, perm: Perm)
    requires Inv(m) && b in m.spaces && u < USER_PAGES && a in m.spaces && v < USER_PAGES
    requires Pte(m, b, u).perm.v && RoomForReference(m, Pte(m, b, u).ppn)
    ensures Pte(m, b, u).ppn < |m.mem|
    ensures var (m', r) := PageInsert(m, a, Pte(m, b, u).ppn, v, perm);
      && Inv(m') && Held(m') == Held(m) && m'.spaces == m.spaces
      && (m.free != [] || Pte(m, a, v).perm.v ==> r == 0)
      && (r == 0 ==> SharedTo(m, m', VPage(b, u), VPage(a, v), perm))
      && (r != 0 ==> r == -E_NO_MEM && m'.(tlb := m.tlb) == m)
  {
    LeafPageMappable(m, b, u);
    var p := Pte(m, b, u).ppn;
    InsertKeepsInv(m, a, p, v, perm);
    var (m', r) := PageInsert(m, a, p, v, perm);
    if r == 0 {
      ViewMapped(m, m', a, p, v, perm);
    }
  }

  /** With legal addresses and a mapped source, sys_mem_map is page_insert of the source's page. */
  lemma MapIsInsert(m: Machine, b: nat, srcva: nat, a: nat, dstva: nat, perm: Perm)
    requires Inv(m) && b in m.spaces && a in m.spaces && !IllegalVa(srcva) && !IllegalVa(dstva)
    requires Pte(m, b, VPN(srcva)).perm.v
    ensures Pte(m, b, VPN(srcva)).ppn < |m.mem|
    ensures SysMemMap(m, Some(b), srcva, Some(a), dstva, perm)
      == PageInsert(m, a, Pte(m, b, VPN(srcva)).ppn, VPN(dstva), perm)
  {
    LookupIsPte(m, b, VPN(srcva));
    LeafPageMappable(m, b, VPN(srcva));
  }

  /** There is a page table for the page, or a page for one. */
  predicate HasRoom(m: Machine, a: nat, v: nat)
    requires a in m.spaces && v < USER_PAGES
  {
    DirEntry(m, a, v / ENTRIES).perm.v || m.free != []
  }

  /** sys_mem_map makes two addresses share a frame, or changes nothing; and which of them it does
      and reports is settled before: by the addresses, the environments, the source's mapping,
      and last by whether there is a table or a page for one. */
  lemma MemMapView(m: Machine, src: Option<nat>, srcva: nat, dst: Option<nat>, dstva: nat, perm: Perm)
    requires Inv(m) && Live(m, src) && Live(m, dst)
    requires src.Some? && VPage(src.value, VPN(srcva)) in View(m) ==>
      RoomForReference(m, View(m)[VPage(src.value, VPN(srcva))].ppn)
    ensures var (m', r) := SysMemMap(m, src, srcva, dst, dstva, perm);
      && Inv(m') && Held(m') == Held(m)
      && (r == 0 ==>
            && src.Some? && dst.Some?
            && SharedTo(m, m', VPage(src.value, VPN(srcva)), VPage(dst.value, VPN(dstva)), perm))
      && (r != 0 ==> m'.(tlb := m.tlb) == m)
      && (r == -E_BAD_ENV <==> !IllegalVa(srcva) && !IllegalVa(dstva) && (src.None? || dst.None?))
      && (r == -E_INVAL <==> (IllegalVa(srcva) || IllegalVa(dstva)
            || (src.Some? && dst.Some? && VPage(src.value, VPN(srcva)) !in View(m))))
      && r in {0, -E_INVAL, -E_BAD_ENV, -E_NO_MEM}
      && (r == 0 ==> HasRoom(m, dst.value, VPN(dstva)))
      && (r == -E_NO_MEM ==> !HasRoom(m, dst.value, VPN(dstva)))
  {
    if !IllegalVa(srcva) && !IllegalVa(dstva) && src.Some? && dst.Some? {
      LookupIsPte(m, src.value, VPN(srcva));
      if Pte(m, src.value, VPN(srcva)).perm.v {
        MapIsInsert(m, src.value, srcva, dst.value, dstva, perm);
        ShareView(m, src.value, VPN(srcva), dst.value, VPN(dstva), perm);
        LeafPageMappable(m, src.value, VPN(srcva));
        InsertFails(m, dst.value, Pte(m, src.value, VPN(srcva)).ppn, VPN(dstva), perm);
      }
    }
  }

  lemma MemUnmapView(m: Machine, env: Option<nat>, va: nat)
    requires Inv(m) && Live(m, env)
    ensures var (m', r) := SysMemUnmap(m, env, va);
      && Inv(m') && Held(m') == Held(m)
      && (r == 0 <==> !IllegalVa(va) && env.Some?)
      && (r == -E_INVAL <==> IllegalVa(va)) && (r == -E_BAD_ENV <==> !IllegalVa(va) && env.None?)
      && (r == 0 ==> View(m') == View(m) - {VPage(env.value, VPN(va))} && DataKept(View(m), m.mem, m'.mem))
      && (r != 0 ==> m' == m)
  {
    if !IllegalVa(va) && env.Some? {
      RemoveKeepsInv(m, env.value, VPN(va));
      ViewUpdate(m, SysMemUnmap(m, env, va).0, env.value, VPN(va));
      SameDataView(m, SysMemUnmap(m, env, va).0);
    }
  }

  // ---------- the page of a message ----------

  /** sys_ipc_recv takes 0 for "no page", and does not forget it when a page is sent. */
  predicate RecvVa(va: nat) { va == 0 || !IllegalVa(va) }

  /** The last step of sys_ipc_try_send, given a nonzero source address: the receiver's address
      is not looked at again, and the result of page_insert is dropped. */
  function SendPage(m: Machine, src: nat, srcva: nat, dst: nat, dstva: nat, perm: Perm): (r: (Machine, int))
    requires Inv(m) && src in m.spaces && dst in m.spaces && !IllegalVa(srcva) && RecvVa(dstva)
  {
    var found := PageLookup(m, src, VPN(srcva));
    if found.None? then (m, -E_INVAL)
    else
      LookupIsPte(m, src, VPN(srcva));
      LeafPageMappable(m, src, VPN(srcva));
      (PageInsert(m, dst, found.value.ppn, VPN(dstva), perm).0, 0)
  }

  /** A send that reports success has mapped the page exactly when there was a table for the
      receiver's address or a page for one; otherwise it has changed no mapping.  A receiver
      that gave 0 gets the page at address 0. */
  lemma SendPageView(m: Machine, src: nat, srcva: nat, dst: nat, dstva: nat, perm: Perm)
    requires Inv(m) && src in m.spaces && dst in m.spaces && !IllegalVa(srcva) && RecvVa(dstva)
    requires VPage(src, VPN(srcva)) in View(m) ==> RoomForReference(m, View(m)[VPage(src, VPN(srcva))].ppn)
    ensures var (m', r) := SendPage(m, src, srcva, dst, dstva, perm);
      && Inv(m') && Held(m') == Held(m)
      && (r == 0 <==> VPage(src, VPN(srcva)) in View(m)) && (r != 0 ==> r == -E_INVAL && m' == m)
      && (r == 0 && HasRoom(m, dst, VPN(dstva)) ==>
            SharedTo(m, m', VPage(src, VPN(srcva)), VPage(dst, VPN(dstva)), perm))
      && (r == 0 && !HasRoom(m, dst, VPN(dstva)) ==>
            m'.(tlb := m.tlb) == m && View(m') == View(m) && VPage(dst, VPN(dstva)) !in View(m))
  {
    LookupIsPte(m, src, VPN(srcva));
    if Pte(m, src, VPN(srcva)).perm.v {
      InsertView(m, src, VPN(srcva), dst, VPN(dstva), perm);
    }
  }

  lemma TlbOnlyView(m: Machine, m': Machine)
    requires m'.(tlb := m.tlb) == m
    ensures View(m') == View(m)
  {
    SameMemSameTargets(m, m');
  }

  lemma InsertFails(m: Machine, a: nat, p: nat, v: nat, perm: Perm)
    requires CanInsert(m, a, p, v) && m.refs[p] < 0xFFFF
    ensures PageInsert(m, a, p, v, perm).1 == 0 <==> HasRoom(m, a, v)
  {
    InsertKeepsInv(m, a, p, v, perm);
  }

  lemma InsertView(m: Machine, b: nat, u: nat, a: nat, v: nat, perm: Perm)
    requires Inv(m) && b in m.spaces && u < USER_PAGES && a in m.spaces && v < USER_PAGES
    requires Pte(m, b, u).perm.v && RoomForReference(m, Pte(m, b, u).ppn)
    ensures Pte(m, b, u).ppn < |m.mem|
    ensures var (m', r) := PageInsert(m, a, Pte(m, b, u).ppn, v, perm);
      && Inv(m') && Held(m') == Held(m)
      && (HasRoom(m, a, v) ==> SharedTo(m, m', VPage(b, u), VPage(a, v), perm))
      && (!HasRoom(m, a, v) ==>
            m'.(tlb := m.tlb) == m && View(m') == View(m) && VPage(a, v) !in View(m))
  {
    ShareView(m, b, u, a, v, perm);
    LeafPageMappable(m, b, u);
    InsertFails(m, a, Pte(m, b, u).ppn, v, perm);
    var (m', r) := PageInsert(m, a, Pte(m, b, u).ppn, v, perm);
    if r != 0 {
      TlbOnlyView(m, m');
    }
  }

  // ---------- user stores ----------

  /** A store the TLB lets through: word i of the frame mapped at v. */
  function UserStore(m: Machine, a: nat, v: nat, i: nat, w: Word): Machine
    requires Inv(m) && a in m.spaces && v < USER_PAGES && i < ENTRIES && Pte(m, a, v).perm.v
  {
    LeafPageMappable(m, a, v);
    StoreWord(m, Pte(m, a, v).ppn, i, w)
  }

  /** Changing the contents of a page of user data changes no mapping and no count. */
  lemma DataPageInv(m: Machine, m': Machine, p: nat)
    requires Inv(m) && p < |m.mem| && OnlyLeaves(m, p)
    requires |m'.mem| == |m.mem| && (forall q: nat | q < |m.mem| && q != p :: m'.mem[q] == m.mem[q])
    requires m' == m.(mem := m'.mem)
    ensures Inv(m') && View(m') == View(m)
  {
    DataPageTargets(m, m', p);
    assert AllSlots(m') == AllSlots(m);
    forall q: nat | q < |m.mem| ensures RefsTo(m', q) == RefsTo(m, q) {
    }
  }

  /** A user can change one frame of user data by a store, and no mapping or count. */
  lemma UserStoreView(m: Machine, a: nat, v: nat, i: nat, w: Word)
    requires Inv(m) && a in m.spaces && v < USER_PAGES && i < ENTRIES && Pte(m, a, v).perm.v
    ensures var m' := UserStore(m, a, v, i, w);
      && Inv(m') && Held(m') == Held(m) && View(m') == View(m)
      && var p := Pte(m, a, v).ppn;
      && p < |m.mem| && m'.mem == m.mem[p := m.mem[p][i := w]]
  {
    LeafPageMappable(m, a, v);
    DataPageInv(m, UserStore(m, a, v, i, w), Pte(m, a, v).ppn);
  }

  lemma DataPageTargets(m: Machine, m': Machine, p: nat)
    requires Shape(m) && p < |m.mem| && OnlyLeaves(m, p)
    requires |m'.mem| == |m.mem| && (forall q: nat | q < |m.mem| && q != p :: m'.mem[q] == m.mem[q])
    requires m'.spaces == m.spaces && m'.boot == m.boot
    ensures forall s :: IsSlot(m', s) == IsSlot(m, s)
    ensures forall s | IsSlot(m, s) :: Target(m', s) == Target(m, s)
    ensures forall b, u: nat | b in m.spaces && u < USER_PAGES :: Pte(m', b, u) == Pte(m, b, u)
  {
    forall b, e: nat | b in m.spaces && e < ENTRIES ensures DirEntry(m', b, e) == DirEntry(m, b, e) {
      assert Target(m, Dir(b)) == Some(m.spaces[b]);
    }
    forall b, u: nat | b in m.spaces && u < USER_PAGES ensures Pte(m', b, u) == Pte(m, b, u) {
      var e := DirEntry(m, b, u / ENTRIES);
      if e.perm.v {
        assert Target(m, Table(b, u / ENTRIES)) == Some(e.ppn);
      }
    }
    forall s | IsSlot(m, s) ensures Target(m', s) == Target(m, s) {
    }
  }
}
