/** Creating address spaces, refilling the TLB, the memory system calls, and what they mean
    for a plain map from (space, page) to (frame, permissions)
    (kern/pmap.c, kern/env.c, kern/tlbex.c, kern/syscall_all.c). */
module MemoryCalls {
  import opened Mmu
  import opened PageTables
  import opened AddressSpaces

  // ---------- page_init ----------

  /** LIST_INSERT_HEAD on pages used, used + 1, ..., npage - 1 in that order. */
  function InitialFree(used: nat, npage: nat): seq<nat>
    requires used <= npage
  {
    seq(npage - used, i requires 0 <= i < npage - used => npage - 1 - i)
  }

  function Below(n: nat): (s: set<nat>)
    ensures forall p: nat :: p in s <==> p < n
  {
    if n == 0 then {} else Below(n - 1) + {n - 1}
  }

  function PageInit(mem: seq<Frame>, used: nat): Machine
    requires used <= |mem|
  {
    Machine(mem, seq(|mem|, i => if i < used then 1 else 0), InitialFree(used, |mem|), map[], map[],
            Below(used))
  }

  lemma PageInitInv(mem: seq<Frame>, used: nat)
    requires used <= |mem|
    ensures var m := PageInit(mem, used);
      && Inv(m) && Held(m) == {} && m.mem == mem && m.spaces == map[] && m.tlb == map[]
      && (forall p: nat | p < |mem| :: p in m.free <==> used <= p)
  {
    var m := PageInit(mem, used);
    forall p: nat | p < |mem| ensures m.refs[p] == |RefsTo(m, p)| {
      assert RefsTo(m, p) == if p < used then {Boot(p)} else {};
    }
    forall p: nat | p < |mem| ensures p in m.free <==> used <= p {
      if used <= p {
        assert m.free[|mem| - 1 - p] == p;
      }
    }
  }

  // ---------- env_setup_vm ----------

  const SELF_PERM := NO_PERM.(v := true)

  /** The new directory: empty below UTOP, the template between UTOP and UVPT, and itself at
      UVPT and KSEG2. */
  function NewDirectory(template: Frame, p: nat): (f: Frame)
    ensures forall d: nat | d < USER_TABLES :: f[d] == ZERO
    ensures f[PDX(UVPT)] == Word(p, SELF_PERM) && f[PDX(KSEG2)] == Word(p, SELF_PERM)
  {
    UserLimits();
    seq(ENTRIES, i requires 0 <= i < ENTRIES =>
      if i == PDX(UVPT) || i == PDX(KSEG2) then Word(p, SELF_PERM)
      else if PDX(UTOP) <= i < PDX(UVPT) then template[i]
      else ZERO)
  }

  function InstallSpace(m: Machine, a: nat, p: nat, dir: Frame): Machine
    requires p < |m.mem|
  {
    m.(mem := m.mem[p := dir], spaces := m.spaces[a := p])
  }

  function EnvSetupVm(m: Machine, a: nat, template: Frame): (r: (Machine, int))
    requires Inv(m) && a !in m.spaces
  {
    var r := PageAlloc(m);
    if r.1.None? then (m, -E_NO_MEM)
    else
      var p := r.1.value;
      (InstallSpace(SetRef(r.0, p, Inc16(r.0.refs[p])), a, p, NewDirectory(template, p)), 0)
  }

  lemma InstallTargets(m: Machine, m': Machine, a: nat, p: nat, dir: Frame)
    requires Shape(m) && a !in m.spaces && p < |m.mem|
    requires forall s | IsSlot(m, s) :: Target(m, s) != Some(p)
    requires forall d: nat | d < USER_TABLES :: dir[d] == ZERO
    requires m'.mem == m.mem[p := dir] && m'.spaces == m.spaces[a := p] && m'.boot == m.boot
    ensures forall s | IsSlot(m, s) :: IsSlot(m', s) && Target(m', s) == Target(m, s)
    ensures forall s | IsSlot(m', s) && !IsSlot(m, s) ::
      Owns(a, s) && Target(m', s) == if s == Dir(a) then Some(p) else None
    ensures forall b, u: nat | b in m.spaces && u < USER_PAGES :: Pte(m', b, u) == Pte(m, b, u)
    ensures forall b, e: nat | b in m.spaces && e < ENTRIES :: DirEntry(m', b, e) == DirEntry(m, b, e)
    ensures forall u: nat | u < USER_PAGES :: Pte(m', a, u) == ZERO
  {
    forall b, e: nat | b in m.spaces && e < ENTRIES
      ensures DirEntry(m', b, e) == DirEntry(m, b, e)
    {
      assert Target(m, Dir(b)) == Some(m.spaces[b]);
    }
    forall b, u: nat | b in m.spaces && u < USER_PAGES
      ensures Pte(m', b, u) == Pte(m, b, u)
    {
      var e := DirEntry(m, b, u / ENTRIES);
      if e.perm.v {
        assert Target(m, Table(b, u / ENTRIES)) == Some(e.ppn);
      }
    }
    forall d: nat | d < USER_TABLES ensures DirEntry(m', a, d) == ZERO {
    }
    forall s | IsSlot(m, s) ensures IsSlot(m', s) && Target(m', s) == Target(m, s) {
    }
  }

  /** A new space starts empty and clean, whatever its ASID was used for before. */
  lemma EnvSetupKeepsInv(m: Machine, a: nat, template: Frame)
    requires Inv(m) && a !in m.spaces
    ensures var (m', r) := EnvSetupVm(m, a, template);
      && Inv(m') && Held(m') == Held(m)
      && (r == 0 <==> m.free != []) && (r != 0 ==> r == -E_NO_MEM && m' == m)
      && (r == 0 ==>
            && m'.spaces == m.spaces[a := m.free[0]] && m'.free == m.free[1..]
            && (forall q: nat | q < |m.mem| && q != m.free[0] :: |m'.mem| == |m.mem| && m'.mem[q] == m.mem[q])
            && (forall u: nat | u < USER_PAGES :: Pte(m', a, u) == ZERO)
            && (forall b, u: nat | b in m.spaces && u < USER_PAGES :: Pte(m', b, u) == Pte(m, b, u))
            && DirEntry(m', a, PDX(UVPT)) == Word(m.free[0], Perm(true, false, false, false, 0))
            && DirEntry(m', a, PDX(KSEG2)) == DirEntry(m', a, PDX(UVPT))
            && (forall d: nat | PDX(UTOP) <= d < PDX(UVPT) :: DirEntry(m', a, d) == template[d])
            && (forall d: nat | PDX(UVPT) < d < ENTRIES && d != PDX(KSEG2) :: DirEntry(m', a, d) == ZERO)
            && (forall b, d: nat | b in m.spaces && d < ENTRIES :: DirEntry(m', b, d) == DirEntry(m, b, d)))
  {
    var (m', r) := EnvSetupVm(m, a, template);
    if r == 0 {
      var m1 := PageAlloc(m).0;
      var p := m.free[0];
      AllocKeepsInv(m);
      UnusedHasNoSlot(m1, p);
      InstallTargets(m1, m', a, p, NewDirectory(template, p));
      InstallKeepsInv(m1, m', a, p);
      assert p !in m1.free;
    }
  }

  lemma InstallKeepsInv(m: Machine, m': Machine, a: nat, p: nat)
    requires Inv(m) && a !in m.spaces && p < |m.mem| && m.refs[p] == 0 && p !in m.free
    requires m'.refs == m.refs[p := 1] && m'.free == m.free && m'.tlb == m.tlb && |m'.mem| == |m.mem|
    requires m'.spaces == m.spaces[a := p] && m'.boot == m.boot
    requires forall s | IsSlot(m, s) :: IsSlot(m', s) && Target(m', s) == Target(m, s) && Target(m, s) != Some(p)
    requires forall s | IsSlot(m', s) && !IsSlot(m, s) ::
      Owns(a, s) && Target(m', s) == if s == Dir(a) then Some(p) else None
    requires forall b, u: nat | b in m.spaces && u < USER_PAGES :: Pte(m', b, u) == Pte(m, b, u)
    requires forall u: nat | u < USER_PAGES :: Pte(m', a, u) == ZERO
    ensures Inv(m') && Held(m') == Held(m) - {p}
  {
    InstallSeparate(m, m', a, p);
    forall q: nat | q < |m.mem| ensures m'.refs[q] == |RefsTo(m', q)| {
      InstallRefs(m, m', a, p, q);
      assert m.refs[q] == |RefsTo(m, q)|;
    }
  }

  lemma InstallSeparate(m: Machine, m': Machine, a: nat, p: nat)
    requires InRange(m) && Separate(m) && a !in m.spaces && p < |m.mem| && |m'.mem| == |m.mem|
    requires forall s | IsSlot(m, s) :: IsSlot(m', s) && Target(m', s) == Target(m, s) && Target(m, s) != Some(p)
    requires forall s | IsSlot(m', s) && !IsSlot(m, s) ::
      Owns(a, s) && Target(m', s) == if s == Dir(a) then Some(p) else None
    ensures InRange(m') && Separate(m')
  {
    assert !IsSlot(m, Dir(a));
  }

  lemma InstallRefs(m: Machine, m': Machine, a: nat, p: nat, q: nat)
    requires a !in m.spaces && m'.spaces == m.spaces[a := p]
    requires forall s | IsSlot(m, s) :: IsSlot(m', s) && Target(m', s) == Target(m, s) && Target(m, s) != Some(p)
    requires forall s | IsSlot(m', s) && !IsSlot(m, s) ::
      Owns(a, s) && Target(m', s) == if s == Dir(a) then Some(p) else None
    ensures RefsTo(m', q) == RefsTo(m, q) + (if q == p then {Dir(a)} else {})
    ensures q == p ==> RefsTo(m, q) == {}
  {
    assert !IsSlot(m, Dir(a)) && IsSlot(m', Dir(a));
  }

  // ---------- the page-table windows ----------

  /** The word a load from va reads: its physical page and index, found as the hardware and
      va2pa find it, through the directory and one table. */
  function Va2Word(m: Machine, a: nat, va: nat): Option<(nat, nat)>
    requires a in m.spaces
  {
    var table := DirEntry(m, a, PDX(va));
    if !table.perm.v || table.ppn >= |m.mem| then None
    else
      var page := m.mem[table.ppn][PTX(va)];
      if page.perm.v then Some((page.ppn, va % BY2PG / 4)) else None
  }

  ghost predicate SelfMapped(m: Machine, a: nat)
    requires a in m.spaces
  {
    DirEntry(m, a, PDX(UVPT)) == DirEntry(m, a, PDX(KSEG2)) == Word(m.spaces[a], SELF_PERM)
  }

  lemma WindowAddress(base: nat, v: nat)
    requires base % PDMAP == 0 && v < USER_PAGES
    ensures PDX(base + 4 * v) == PDX(base) && PTX(base + 4 * v) == v / ENTRIES
    ensures (base + 4 * v) % BY2PG / 4 == v % ENTRIES
  {
    var q := base / PDMAP;
    assert base == q * PDMAP;
    assert (base + 4 * v) / PDMAP == q;
    assert (base + 4 * v) / BY2PG == q * 1024 + v / 1024;
  }

  /** Reading vpt[VPN(va)], or the word the fast refill loads, is reading the page-table entry
      for va; both fault exactly when va has no page table. */
  lemma WindowsReadPte(m: Machine, a: nat, v: nat)
    requires Inv(m) && a in m.spaces && SelfMapped(m, a) && v < USER_PAGES
    ensures var e := DirEntry(m, a, v / ENTRIES);
      && Va2Word(m, a, UVPT + 4 * v) == (if e.perm.v then Some((e.ppn, v % ENTRIES)) else None)
      && Va2Word(m, a, KSEG2 + 4 * v) == Va2Word(m, a, UVPT + 4 * v)
      && (e.perm.v ==> e.ppn < |m.mem| && m.mem[e.ppn][v % ENTRIES] == Pte(m, a, v))
  {
    WindowAddress(UVPT, v);
    WindowAddress(KSEG2, v);
    assert Target(m, Dir(a)) == Some(m.spaces[a]);
    if DirEntry(m, a, v / ENTRIES).perm.v {
      assert Target(m, Table(a, v / ENTRIES)) == Some(DirEntry(m, a, v / ENTRIES).ppn);
    }
  }

  /** vpd, the window's own slice of the window, is the directory. */
  lemma VpdReadsDirectory(m: Machine, a: nat, d: nat)
    requires Inv(m) && a in m.spaces && SelfMapped(m, a) && d < ENTRIES
    ensures Va2Word(m, a, UVPT + PDX(UVPT) * BY2PG + 4 * d) == Some((m.spaces[a], d))
  {
    UserLimits();
    assert Target(m, Dir(a)) == Some(m.spaces[a]);
    var va := UVPT + PDX(UVPT) * BY2PG + 4 * d;
    assert va / 0x40_0000 == 511 && va / 4096 == 511 * 1024 + 511 && va % 4096 == 4 * d;
  }

  // ---------- the width of pp_ref ----------

  lemma FinishInsertCounts(m: Machine, m': Machine, a: nat, p: nat, v: nat, perm: Perm)
    requires CanInsert(m, a, p, v) && !Pte(m, a, v).perm.v && (a, v) !in m.tlb
    requires DirEntry(m, a, v / ENTRIES).perm.v && DirEntry(m, a, v / ENTRIES).ppn < |m.mem|
    requires m' ==
      SetRef(StoreWord(m, DirEntry(m, a, v / ENTRIES).ppn, v % ENTRIES, MappedWord(p, perm)), p, Inc16(m.refs[p]))
    ensures |RefsTo(m', p)| == m.refs[p] + 1 && p < |m'.refs| && m'.refs[p] == Inc16(m.refs[p])
  {
    assert m.tlb - {(a, v)} == m.tlb;
    assert Target(m, Leaf(a, v)) == None;
    WriteEntry(m, m', a, v, MappedWord(p, perm));
    RefsAfter(m, m', Leaf(a, v), p);
    assert m.refs[p] == |RefsTo(m, p)|;
  }

  /** Inserting a page at an address where it is not mapped yet records the number of its
      references exactly when there were fewer than 65535 of them. */
  lemma InsertCountsUntilWrap(m: Machine, a: nat, p: nat, v: nat, perm: Perm)
    requires CanInsert(m, a, p, v) && !(Pte(m, a, v).perm.v && Pte(m, a, v).ppn == p)
    requires PageInsert(m, a, p, v, perm).1 == 0
    ensures var m' := PageInsert(m, a, p, v, perm).0;
      && p < |m'.refs| && |RefsTo(m', p)| == |RefsTo(m, p)| + 1
      && (m'.refs[p] == |RefsTo(m', p)| <==> |RefsTo(m, p)| < 0xFFFF)
  {
    var m' := PageInsert(m, a, p, v, perm).0;
    var w := InsertWalk(m, a, v);
    LookupIsPte(m, a, v);
    InsertWalkEffect(m, a, v);
    assert Target(w.m, Leaf(a, v)) == None;
    MappableSurvives(m, w.m, a, v, p);
    FinishInsertCounts(w.m, m', a, p, v, perm);
    assert m.refs[p] == |RefsTo(m, p)|;
  }

  // ---------- TLB refill ----------

  /** passive_alloc for a user page; None stands for a kernel panic. */
  function PassiveAlloc(m: Machine, a: nat, v: nat): (r: Option<Machine>)
    requires Inv(m) && a in m.spaces && v < USER_PAGES
  {
    if v == VPN(USTACKTOP) then None
    else
      AllocKeepsInv(m);
      var r := PageAlloc(m);
      if r.1.None? then None
      else
        var i := PageInsert(r.0, a, r.1.value, v, NO_PERM.(d := true));
        if i.1 != 0 then None else Some(i.0)
  }

  function TlbWrite(m: Machine, a: nat, v: nat, evicted: set<(nat, nat)>): Machine
    requires a in m.spaces && v < USER_PAGES
  {
    m.(tlb := (m.tlb - evicted)[(a, v) := Pte(m, a, v)])
  }

  /** do_tlb_refill: the page is allocated if it is missing, and its entry written over
      whatever the TLB's random replacement gives up. */
  function TlbRefill(m: Machine, a: nat, v: nat, evicted: set<(nat, nat)>): (r: Option<Machine>)
    requires Inv(m) && a in m.spaces && v < USER_PAGES
  {
    if PageLookup(m, a, v).Some? then Some(TlbWrite(m, a, v, evicted))
    else
      var r := PassiveAlloc(m, a, v);
      if r.None? then None else
        PassiveAllocMaps(m, a, v);
        Some(TlbWrite(r.value, a, v, evicted))
  }

  lemma UnusedIsMappable(m: Machine, p: nat)
    requires Inv(m) && p in Held(m)
    ensures Mappable(m, p)
  {
    UnusedHasNoSlot(m, p);
  }

  /** Storing a page just allocated: all of page_alloc followed by page_insert. */
  lemma AllocInsert(m: Machine, a: nat, v: nat, perm: Perm)
    requires Inv(m) && a in m.spaces && v < USER_PAGES && m.free != []
    ensures var p := m.free[0];
      var m1 := PageAlloc(m).0;
      && Inv(m1) && a in m1.spaces && p < |m1.mem|
      && var (m', r) := PageInsert(m1, a, p, v, perm);
      && Inv(m') && (r == 0 || r == -E_NO_MEM)
      && (r != 0 <==> !DirEntry(m, a, v / ENTRIES).perm.v && |m.free| == 1)
      && (r != 0 ==> Held(m') == Held(m) + {p} && m' == m1.(tlb := m'.tlb))
      && (r == 0 ==>
            && Mapped(m1, m', a, p, v, perm) && Held(m') == Held(m)
            && OthersKeep(m, m', a, v) && m'.mem[p] == ZeroFrame())
  {
    AllocKeepsInv(m);
    var p := m.free[0];
    var m1 := PageAlloc(m).0;
    UnusedIsMappable(m1, p);
    InsertKeepsInv(m1, a, p, v, perm);
  }

  lemma PassiveAllocMaps(m: Machine, a: nat, v: nat)
    requires Inv(m) && a in m.spaces && v < USER_PAGES && PassiveAlloc(m, a, v).Some?
    ensures var m' := PassiveAlloc(m, a, v).value;
      && Inv(m') && a in m'.spaces && Held(m') == Held(m)
      && m'.spaces == m.spaces && OthersKeep(m, m', a, v)
      && m.free != [] && Pte(m', a, v) == MappedWord(m.free[0], NO_PERM.(d := true))
      && m.free[0] < |m'.mem| && m'.mem[m.free[0]] == ZeroFrame()
  {
    AllocInsert(m, a, v, NO_PERM.(d := true));
  }

  /** There is a free page, and a table for it or a second free page. */
  predicate RoomForPage(m: Machine, a: nat, v: nat)
    requires a in m.spaces && v < USER_PAGES
  {
    m.free != [] && (DirEntry(m, a, v / ENTRIES).perm.v || |m.free| >= 2)
  }

  /** The kernel panics over a load or store of a user exactly if it misses a page that is not
      mapped, and that is the first page above the stack or there is no room for it. */
  lemma RefillPanicsExactlyWhen(m: Machine, a: nat, v: nat, evicted: set<(nat, nat)>)
    requires Inv(m) && a in m.spaces && v < USER_PAGES
    ensures TlbRefill(m, a, v, evicted).None?
      <==> !Pte(m, a, v).perm.v && (v == USER_PAGES - 2 || !RoomForPage(m, a, v))
    ensures PassiveAlloc(m, a, v).None? <==> v == USER_PAGES - 2 || !RoomForPage(m, a, v)
  {
    Layout();
    LookupIsPte(m, a, v);
    if m.free != [] {
      AllocInsert(m, a, v, NO_PERM.(d := true));
    }
  }

  /** A refill, whatever it evicts, leaves the TLB coherent, holding the entry for v; a page
      that was missing has become a zero-filled writable one of its own. */
  lemma TlbRefillCoherent(m: Machine, a: nat, v: nat, evicted: set<(nat, nat)>)
    requires Inv(m) && a in m.spaces && v < USER_PAGES && TlbRefill(m, a, v, evicted).Some?
    ensures var m' := TlbRefill(m, a, v, evicted).value;
      && Inv(m') && m'.spaces == m.spaces && OthersKeep(m, m', a, v) && Held(m') == Held(m)
      && (a, v) in m'.tlb && m'.tlb[(a, v)] == Pte(m', a, v) && Pte(m', a, v).perm.v
      && (Pte(m, a, v).perm.v ==> m' == m.(tlb := m'.tlb))
      && (!Pte(m, a, v).perm.v ==>
            && m.free != [] && Pte(m', a, v) == MappedWord(m.free[0], NO_PERM.(d := true))
            && m.free[0] < |m'.mem| && m'.mem[m.free[0]] == ZeroFrame())
  {
    LookupIsPte(m, a, v);
    var n := if Pte(m, a, v).perm.v then m else PassiveAlloc(m, a, v).value;
    if !Pte(m, a, v).perm.v {
      PassiveAllocMaps(m, a, v);
    }
    TlbWriteKeepsInv(n, a, v, evicted);
  }

  lemma TlbWriteKeepsInv(m: Machine, a: nat, v: nat, evicted: set<(nat, nat)>)
    requires Inv(m) && a in m.spaces && v < USER_PAGES
    ensures var m' := TlbWrite(m, a, v, evicted);
      && Inv(m') && Held(m') == Held(m)
      && forall b, u: nat | b in m.spaces && u < USER_PAGES :: Pte(m', b, u) == Pte(m, b, u)
  {
    var m' := TlbWrite(m, a, v, evicted);
    SameMemSameTargets(m, m');
    assert AllSlots(m') == AllSlots(m);
    forall q: nat | q < |m.mem| ensures RefsTo(m', q) == RefsTo(m, q) {
    }
  }
}
