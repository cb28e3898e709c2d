/** Whole runs of the memory system: page faults, user stores and the memory system calls of
    any number of environments, from page_init on. */
module MemoryRuns {
  import opened Mmu
  import opened PageTables
  import opened AddressSpaces
  import opened MemoryCalls
  import opened VmView
  import opened Windows
  import opened UpperSlots

  /** An environment argument is what envid2env finds, if it finds one; `evicted` is what the
      TLB's random replacement gives up.  SendPage is the page transfer of sys_ipc_try_send; the
      last four operations are refills by the handler at the refill vector, and of TLB entries
      for the page-table windows. */
  datatype Op =
    | Alloc(env: Option<nat>, va: nat, perm: Perm)
    | Map(src: Option<nat>, srcva: nat, dst: Option<nat>, dstva: nat, perm: Perm)
    | Unmap(env: Option<nat>, va: nat)
    | Setup(asid: nat, template: Frame)
    | Destroy(asid: nat)
    | Refill(asid: nat, v: nat, evicted: set<(nat, nat)>)
    | Store(asid: nat, v: nat, i: nat, w: Word)
    | SendPage(from: nat, srcva: nat, to: nat, dstva: nat, perm: Perm)
    | FastRefill(asid: nat, v: nat, evicted: set<(nat, nat)>)
    | WindowRefill(asid: nat, d: nat, window: nat, evicted: set<(nat, nat)>)
    | FastWindowRefill(asid: nat, d: nat, evicted: set<(nat, nat)>)
    | UpperRefill(asid: nat, d: nat, evicted: set<(nat, nat)>)

  ghost predicate RoomToShare(m: Machine, a: nat, v: nat) {
    VPage(a, v) in View(m) ==> RoomForReference(m, View(m)[VPage(a, v)].ppn)
  }

  /** The operation is one that live environments can bring about, it does not take a pp_ref
      past 65535, and the kernel does not panic over it. */
  ghost predicate CanDo(m: Machine, op: Op)
    requires Inv(m)
  {
    match op
    case Alloc(env, _, _) => Live(m, env)
    case Map(src, srcva, dst, _, _) =>
      && Live(m, src) && Live(m, dst)
      && (src.Some? ==> RoomToShare(m, src.value, VPN(srcva)))
    case Unmap(env, _) => Live(m, env)
    case Setup(a, _) => a !in m.spaces
    case Destroy(a) => a in m.spaces
    case Refill(a, v, evicted) => a in m.spaces && v < USER_PAGES && TlbRefill(m, a, v, evicted).Some?
    case Store(a, v, i, _) => a in m.spaces && v < USER_PAGES && i < ENTRIES && Pte(m, a, v).perm.v
    case SendPage(src, srcva, dst, dstva, _) =>
      && src in m.spaces && dst in m.spaces && !IllegalVa(srcva) && RecvVa(dstva)
      && RoomToShare(m, src, VPN(srcva))
    case FastRefill(a, v, evicted) => v < USER_PAGES && Windows.FastRefill(m, a, v, evicted).Some?
    case WindowRefill(a, d, w, evicted) =>
      a in m.spaces && Followed(d) && IsWindow(w, d) && Windows.WindowRefill(m, a, d, w, evicted).Some?
    case FastWindowRefill(a, d, evicted) => d < USER_TABLES && Windows.FastWindowRefill(m, a, d, evicted).Some?
    case UpperRefill(a, d, evicted) => a in m.spaces && Upper(d) && UpperSlots.UpperRefill(m, a, d, evicted).Some?
  }

  ghost function Do(m: Machine, op: Op): Machine
    requires Inv(m) && CanDo(m, op)
  {
    match op
    case Alloc(env, va, perm) => SysMemAlloc(m, env, va, perm).0
    case Map(src, srcva, dst, dstva, perm) => SysMemMap(m, src, srcva, dst, dstva, perm).0
    case Unmap(env, va) => SysMemUnmap(m, env, va).0
    case Setup(a, template) => EnvSetupVm(m, a, template).0
    case Destroy(a) => EnvFree(m, a)
    case Refill(a, v, evicted) => TlbRefill(m, a, v, evicted).value
    case Store(a, v, i, w) => UserStore(m, a, v, i, w)
    case SendPage(src, srcva, dst, dstva, perm) => VmView.SendPage(m, src, srcva, dst, dstva, perm).0
    case FastRefill(a, v, evicted) => Windows.FastRefill(m, a, v, evicted).value
    case WindowRefill(a, d, w, evicted) => Windows.WindowRefill(m, a, d, w, evicted).value
    case FastWindowRefill(a, d, evicted) => Windows.FastWindowRefill(m, a, d, evicted).value
    case UpperRefill(a, d, evicted) => UpperSlots.UpperRefill(m, a, d, evicted).value
  }

  /** The page that sys_mem_alloc drops when page_insert finds no page for a table. */
  ghost function Lost(m: Machine, op: Op): set<nat>
    requires Inv(m) && CanDo(m, op)
  {
    if op.Alloc? && m.free != [] && SysMemAlloc(m, op.env, op.va, op.perm).0 != m
      && SysMemAlloc(m, op.env, op.va, op.perm).1 != 0 then {m.free[0]} else {}
  }

  /** The page that a fault at a window page from PDX(UTOP) on puts out of env_free's reach. */
  ghost function Stuck(m: Machine, op: Op): set<nat>
    requires Inv(m) && CanDo(m, op)
  {
    if op.UpperRefill? then Forgotten(m, op.asid, op.d) else {}
  }

  /** One operation keeps the counts exact, the TLB coherent and the free list clean, loses no
      page but those two, and keeps every space mapped into its own windows. */
  lemma DoKeepsInv(m: Machine, op: Op)
    requires Inv(m) && Mirrored(m) && CanDo(m, op)
    ensures Inv(Do(m, op)) && Held(Do(m, op)) == Held(m) + Lost(m, op) && Lost(m, op) !! Held(m)
    ensures Mirrored(Do(m, op)) && Do(m, op).boot == m.boot + Stuck(m, op) && Stuck(m, op) !! m.boot
  {
    DoBoot(m, op);
    match op
    case Alloc(env, va, perm) => AllocLoses(m, env, va, perm); SysAllocMirrored(m, env, va, perm);
    case Map(src, srcva, dst, dstva, perm) => MapKeeps(m, src, srcva, dst, dstva, perm);
    case Unmap(env, va) => MemUnmapView(m, env, va); UnmapMirrored(m, env, va);
    case Setup(a, template) => EnvSetupKeepsInv(m, a, template); SetupMirrored(m, a, template);
    case Destroy(a) => EnvFreeKeepsInv(m, a); FreeMirrored(m, a);
    case Refill(a, v, evicted) => TlbRefillCoherent(m, a, v, evicted); RefillMirrored(m, a, v, evicted);
    case Store(a, v, i, w) => UserStoreView(m, a, v, i, w); StoreMirrored(m, a, v, i, w);
    case SendPage(src, srcva, dst, dstva, perm) => SendKeeps(m, src, srcva, dst, dstva, perm);
    case FastRefill(a, v, evicted) => FastRefillKeeps(m, a, v, evicted);
    case WindowRefill(a, d, w, evicted) => WindowRefillKeeps(m, a, d, w, evicted);
    case FastWindowRefill(a, d, evicted) => FastWindowRefillKeeps(m, a, d, evicted);
    case UpperRefill(a, d, evicted) => UpperRefillKeeps(m, a, d, evicted);
  }

  /** What is in use for good. */
  lemma DoBoot(m: Machine, op: Op)
    requires Inv(m) && Mirrored(m) && CanDo(m, op)
    ensures Do(m, op).boot == m.boot + Stuck(m, op) && Stuck(m, op) !! m.boot
  {
    if op.UpperRefill? {
      UpperRefillKeeps(m, op.asid, op.d, op.evicted);
    } else {
      BootKept(m, op);
    }
  }

  lemma BootKept(m: Machine, op: Op)
    requires Inv(m) && CanDo(m, op) && !op.UpperRefill?
    ensures Do(m, op).boot == m.boot
  {
    match op
    case Alloc(env, va, perm) =>
      if !IllegalVa(va) && env.Some? && m.free != [] {
        AllocInsert(m, env.value, VPN(va), perm);
        InsertBoot(PageAlloc(m).0, env.value, m.free[0], VPN(va), perm);
      }
    case Map(src, srcva, dst, dstva, perm) =>
      if SysMemMap(m, src, srcva, dst, dstva, perm).1 != -E_INVAL && src.Some? && dst.Some? {
        LookupIsPte(m, src.value, VPN(srcva));
        LeafPageMappable(m, src.value, VPN(srcva));
        InsertBoot(m, dst.value, Pte(m, src.value, VPN(srcva)).ppn, VPN(dstva), perm);
      }
    case SendPage(src, srcva, dst, dstva, perm) =>
      LookupIsPte(m, src, VPN(srcva));
      if Pte(m, src, VPN(srcva)).perm.v {
        LeafPageMappable(m, src, VPN(srcva));
        InsertBoot(m, dst, Pte(m, src, VPN(srcva)).ppn, VPN(dstva), perm);
      }
    case Refill(a, v, evicted) =>
      if PageLookup(m, a, v).None? {
        AllocInsert(m, a, v, NO_PERM.(d := true));
        InsertBoot(PageAlloc(m).0, a, m.free[0], v, NO_PERM.(d := true));
      }
    case Destroy(a) => FreeTablesReleases(m, a, 0);
    case _ =>
  }

  lemma InsertBoot(m: Machine, a: nat, p: nat, v: nat, perm: Perm)
    requires Inv(m) && a in m.spaces && v < USER_PAGES && p < |m.mem|
    ensures PageInsert(m, a, p, v, perm).0.boot == m.boot
  {
  }

  lemma SysAllocMirrored(m: Machine, env: Option<nat>, va: nat, perm: Perm)
    requires Inv(m) && Mirrored(m) && Live(m, env)
    ensures Mirrored(SysMemAlloc(m, env, va, perm).0)
  {
    if !IllegalVa(va) && env.Some? && m.free != [] {
      AllocInsertMirrored(m, env.value, VPN(va), perm);
    }
  }

  lemma UnmapMirrored(m: Machine, env: Option<nat>, va: nat)
    requires Inv(m) && Mirrored(m) && Live(m, env)
    ensures Mirrored(SysMemUnmap(m, env, va).0)
  {
    if !IllegalVa(va) && env.Some? {
      RemoveMirrored(m, env.value, VPN(va));
    }
  }

  lemma ShareMirrored(m: Machine, b: nat, u: nat, a: nat, v: nat, perm: Perm)
    requires Inv(m) && Mirrored(m) && b in m.spaces && u < USER_PAGES && a in m.spaces && v < USER_PAGES
    requires Pte(m, b, u).perm.v && RoomToShare(m, b, u)
    ensures Pte(m, b, u).ppn < |m.mem| && Mirrored(PageInsert(m, a, Pte(m, b, u).ppn, v, perm).0)
  {
    LeafPageMappable(m, b, u);
    assert View(m)[VPage(b, u)] == Pte(m, b, u);
    InsertMirrored(m, a, Pte(m, b, u).ppn, v, perm);
  }

  lemma MapKeeps(m: Machine, src: Option<nat>, srcva: nat, dst: Option<nat>, dstva: nat, perm: Perm)
    requires Inv(m) && Mirrored(m) && Live(m, src) && Live(m, dst)
    requires src.Some? ==> RoomToShare(m, src.value, VPN(srcva))
    ensures var m' := SysMemMap(m, src, srcva, dst, dstva, perm).0;
      Inv(m') && Held(m') == Held(m) && Mirrored(m')
  {
    MemMapView(m, src, srcva, dst, dstva, perm);
    if !IllegalVa(srcva) && !IllegalVa(dstva) && src.Some? && dst.Some? {
      LookupIsPte(m, src.value, VPN(srcva));
      if Pte(m, src.value, VPN(srcva)).perm.v {
        ShareMirrored(m, src.value, VPN(srcva), dst.value, VPN(dstva), perm);
      }
    }
  }

  lemma SendKeeps(m: Machine, src: nat, srcva: nat, dst: nat, dstva: nat, perm: Perm)
    requires Inv(m) && Mirrored(m) && src in m.spaces && dst in m.spaces && !IllegalVa(srcva) && RecvVa(dstva)
    requires RoomToShare(m, src, VPN(srcva))
    ensures var m' := VmView.SendPage(m, src, srcva, dst, dstva, perm).0;
      Inv(m') && Held(m') == Held(m) && Mirrored(m')
  {
    SendPageView(m, src, srcva, dst, dstva, perm);
    LookupIsPte(m, src, VPN(srcva));
    if Pte(m, src, VPN(srcva)).perm.v {
      ShareMirrored(m, src, VPN(srcva), dst, VPN(dstva), perm);
    }
  }

  lemma StoreMirrored(m: Machine, a: nat, v: nat, i: nat, w: Word)
    requires Inv(m) && Mirrored(m) && a in m.spaces && v < USER_PAGES && i < ENTRIES && Pte(m, a, v).perm.v
    ensures Mirrored(UserStore(m, a, v, i, w))
  {
    var m' := UserStore(m, a, v, i, w);
    LeafPageMappable(m, a, v);
    DataPageTargets(m, m', Pte(m, a, v).ppn);
    forall b, e: nat | b in m.spaces && e < ENTRIES ensures DirEntry(m', b, e) == DirEntry(m, b, e) {
      assert Target(m, Dir(b)) == Some(m.spaces[b]);
    }
    forall b, d: nat | b in m.spaces && d < USER_TABLES ensures Target(m', Table(b, d)) == Target(m, Table(b, d)) {
      assert IsSlot(m, Table(b, d));
    }
    KeepsMirrored(m, m');
  }

  lemma AllocLoses(m: Machine, env: Option<nat>, va: nat, perm: Perm)
    requires Inv(m) && Live(m, env)
    ensures var (m', r) := SysMemAlloc(m, env, va, perm);
      && Inv(m')
      && (r == 0 || m' == m ==> Held(m') == Held(m))
      && (r != 0 && m' != m ==> m.free != [] && Held(m') == Held(m) + {m.free[0]})
      && (m.free != [] ==> m.free[0] !in Held(m))
  {
    MemAllocView(m, env, va, perm);
    if m.free != [] {
      assert m.free[0] in m.free;
    }
  }

  ghost predicate Runs(m: Machine, ops: seq<Op>)
    decreases |ops|
  {
    ops == [] || (Inv(m) && CanDo(m, ops[0]) && Runs(Do(m, ops[0]), ops[1..]))
  }

  ghost function After(m: Machine, ops: seq<Op>): Machine
    requires Runs(m, ops)
    decreases |ops|
  {
    if ops == [] then m else After(Do(m, ops[0]), ops[1..])
  }

  /** How many pages the failed calls of sys_mem_alloc have dropped. */
  ghost function Dropped(m: Machine, ops: seq<Op>): nat
    requires Runs(m, ops)
    decreases |ops|
  {
    if ops == [] then 0 else |Lost(m, ops[0])| + Dropped(Do(m, ops[0]), ops[1..])
  }

  /** How many pages faults at window pages from PDX(UTOP) on have put out of reach. */
  ghost function StuckPages(m: Machine, ops: seq<Op>): nat
    requires Runs(m, ops)
    decreases |ops|
  {
    if ops == [] then 0 else |Stuck(m, ops[0])| + StuckPages(Do(m, ops[0]), ops[1..])
  }

  lemma {:induction false} RunKeepsInv(m: Machine, ops: seq<Op>)
    requires Inv(m) && Mirrored(m) && Runs(m, ops)
    ensures Inv(After(m, ops)) && |Held(After(m, ops))| == |Held(m)| + Dropped(m, ops)
    ensures Mirrored(After(m, ops))
    ensures m.boot <= After(m, ops).boot && |After(m, ops).boot| == |m.boot| + StuckPages(m, ops)
    decreases |ops|
  {
    if ops != [] {
      DoKeepsInv(m, ops[0]);
      assert |m.boot + Stuck(m, ops[0])| == |m.boot| + |Stuck(m, ops[0])|;
      assert |Held(m) + Lost(m, ops[0])| == |Held(m)| + |Lost(m, ops[0])|;
      RunKeepsInv(Do(m, ops[0]), ops[1..]);
    }
  }

  lemma {:induction false} BelowSize(n: nat)
    ensures |Below(n)| == n
  {
    if n > 0 {
      BelowSize(n - 1);
    }
  }

  /** In every state that can be reached from boot: the count of every page is the number of
      page-table entries, directory entries and directories that refer to it; what the TLB
      holds for a user page of a live space is its current entry; and a page is free, or
      referred to, or one of those that failed calls of sys_mem_alloc have dropped, of which
      there are no more than there were such calls.  The pages that will never be free again are
      those before the first unused one and one for each fault at an empty directory slot from
      PDX(UTOP) on. */
  lemma BootRun(mem: seq<Frame>, used: nat, ops: seq<Op>, p: nat, a: nat, v: nat)
    requires used <= |mem| && Runs(PageInit(mem, used), ops) && v < USER_PAGES
    ensures var m := After(PageInit(mem, used), ops);
      && Inv(m) && Mirrored(m)
      && (p < |m.mem| && p < |m.refs| ==>
            && m.refs[p] == |RefsTo(m, p)|
            && (m.refs[p] > 0 || p in m.free || p in Held(m))
            && (p in m.free ==> m.refs[p] == 0 && p !in Held(m)))
      && |Held(m)| == Dropped(PageInit(mem, used), ops)
      && |m.boot| == used + StuckPages(PageInit(mem, used), ops)
      && (p in m.boot ==> p < |m.refs| && m.refs[p] == 1 && p !in m.free)
      && ((a, v) in m.tlb && a in m.spaces ==> m.tlb[(a, v)] == Pte(m, a, v))
  {
    PageInitInv(mem, used);
    RunKeepsInv(PageInit(mem, used), ops);
    BelowSize(used);
    assert PageInit(mem, used).boot == Below(used);
    if p in After(PageInit(mem, used), ops).boot {
      BootOnly(After(PageInit(mem, used), ops), p);
    }
  }

  /** In every state that can be reached from boot, the windows of a live space show its page
      tables and its directory: by the walk that va2pa and the slow refill do, and by every load
      that a TLB entry lets through. */
  lemma WindowsInEveryRun(mem: seq<Frame>, used: nat, ops: seq<Op>, a: nat, v: nat, d: nat, w: nat)
    requires used <= |mem| && Runs(PageInit(mem, used), ops) && v < USER_PAGES && d < ENTRIES
    ensures var m := After(PageInit(mem, used), ops);
      && (a in m.spaces ==>
            && SelfMapped(m, a)
            && var e := DirEntry(m, a, v / ENTRIES);
            && Va2Word(m, a, UVPT + 4 * v) == (if e.perm.v then Some((e.ppn, v % ENTRIES)) else None)
            && Va2Word(m, a, KSEG2 + 4 * v) == Va2Word(m, a, UVPT + 4 * v)
            && Va2Word(m, a, UVPT + PDX(UVPT) * BY2PG + 4 * d) == Some((m.spaces[a], d)))
      && (IsWindow(w, v / ENTRIES) && Loaded(m, a, w, v % ENTRIES).Some? ==>
            a in m.spaces && Loaded(m, a, w, v % ENTRIES).value == Pte(m, a, v))
      && (IsWindow(w, SELF) && Loaded(m, a, w, d).Some? ==>
            a in m.spaces && Loaded(m, a, w, d).value == DirEntry(m, a, d))
  {
    PageInitInv(mem, used);
    RunKeepsInv(PageInit(mem, used), ops);
    var m := After(PageInit(mem, used), ops);
    LoadsAreCurrent(m, a, v, d, w);
    if a in m.spaces {
      WindowsReadPte(m, a, v);
      VpdReadsDirectory(m, a, d);
    }
  }
}
