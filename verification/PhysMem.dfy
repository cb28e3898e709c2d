/** kern/pmap.c in its own form: the pages array, the intrusive free list, physical memory and
    the TLB are updated in place.  Each method is tied to the function of PageTables,
    AddressSpaces or MemoryCalls that says what it does to the machine state. */
module PhysMem {
  import opened Mmu
  import opened PageTables
  import opened AddressSpaces
  import opened MemoryCalls
  import Queues

  class PhysicalMemory {
    const mem: array<Frame>
    const refs: array<nat>
    const freeList: Queues.List
    var tlb: map<(nat, nat), Word>
    var spaces: map<nat, nat>
    ghost var free: seq<nat>
    ghost var boot: set<nat>

    ghost function Repr(): set<object> {
      {this, mem, refs, freeList, freeList.next, freeList.prev}
    }

    ghost function State(): Machine
      reads Repr()
    {
      Machine(mem[..], refs[..], free, tlb, spaces, boot)
    }

    /** The free list is well formed at pointer level, and the numbers are in range. */
    ghost predicate Valid()
      reads Repr()
    {
      && freeList.Valid() && Queues.ListOf(freeList.Links(), free)
      && freeList.next.Length == mem.Length
      && Sized(State())
    }

    constructor (used: nat, frames: seq<Frame>)
      requires used <= |frames|
      ensures Valid() && fresh(Repr())
      ensures State() == PageInit(frames, used)
    {
      var n := |frames|;
      mem := new Frame[n](i requires 0 <= i < n => frames[i]);
      refs := new nat[n](i => 0);
      freeList := new Queues.List(n);
      tlb, spaces, free, boot := map[], map[], [], Below(used);
      new;
      assert mem[..] == frames;
      MarkUsed(used);
      FreeFrom(used);
    }

    /** Step 3 of page_init. */
    method MarkUsed(used: nat)
      requires used <= refs.Length
      modifies refs
      ensures forall j: nat | j < used :: refs[j] == 1
    {
      var i := 0;
      while i < used
        invariant 0 <= i <= used
        invariant forall j: nat | j < i :: refs[j] == 1
      {
        refs[i] := 1;
        i := i + 1;
      }
    }

    /** Step 4 of page_init: pages from used on are inserted at the head of the free list. */
    method FreeFrom(used: nat)
      requires used <= refs.Length == mem.Length && (forall j: nat | j < used :: refs[j] == 1)
      requires FreedUpTo(used, used)
      requires tlb == map[] && spaces == map[] && boot == Below(used)
      modifies refs, freeList, freeList.next, freeList.prev, `free
      ensures Valid() && State() == PageInit(mem[..], used)
      ensures mem[..] == old(mem[..])
    {
      var i: nat := used;
      while i < refs.Length
        invariant used <= i <= refs.Length && FreedUpTo(used, i)
        invariant forall j: nat | j < i :: refs[j] == if j < used then 1 else 0
      {
        refs[i] := 0;
        Queues.ListInsertHeadPrepends(freeList.Links(), free, i);
        freeList.InsertHead(i);
        free := [i] + free;
        i := i + 1;
      }
      assert refs[..] == PageInit(mem[..], used).refs;
    }

    /** The free list holds the pages from used up to i. */
    ghost predicate FreedUpTo(used: nat, i: nat)
      requires used <= i
      reads Repr()
    {
      && freeList.next.Length == mem.Length
      && free == InitialFree(used, i)
      && freeList.Valid() && Queues.ListOf(freeList.Links(), free)
    }

    method PageAlloc() returns (page: Option<nat>)
      requires Valid()
      modifies Repr()
      ensures Valid() && (State(), page) == PageTables.PageAlloc(old(State()))
    {
      if freeList.first.None? {
        return None;
      }
      var p := freeList.first.value;
      assert Queues.LinkedAt(freeList.Links(), free, 0);
      Queues.ListRemoveTakesOut(freeList.Links(), free, p);
      freeList.Remove(p);
      free := free[1..];
      mem[p] := ZeroFrame();
      return Some(p);
    }

    method PageFree(p: nat)
      requires Valid() && p < mem.Length && refs[p] == 0 && p !in free
      modifies Repr()
      ensures Valid() && State() == PushFree(old(State()), p)
    {
      Queues.ListInsertHeadPrepends(freeList.Links(), free, p);
      freeList.InsertHead(p);
      free := [p] + free;
    }

    method PageDecref(p: nat)
      requires Valid() && p < mem.Length && refs[p] > 0 && p !in free
      modifies Repr()
      ensures Valid() && State() == PageTables.PageDecref(old(State()), p)
    {
      refs[p] := Dec16(refs[p]);
      if refs[p] == 0 {
        PageFree(p);
      }
    }

    method TlbInvalidate(a: nat, v: nat)
      requires Valid()
      modifies `tlb
      ensures Valid() && State() == PageTables.TlbInvalidate(old(State()), a, v)
    {
      tlb := tlb - {(a, v)};
    }

    method PgdirWalk(a: nat, v: nat, create: bool) returns (table: Option<nat>, r: int)
      requires Valid() && Inv(State()) && a in spaces && v < USER_PAGES
      modifies Repr()
      ensures Valid() && Walk(State(), table, r) == PageTables.PgdirWalk(old(State()), a, v, create)
    {
      assert Target(State(), Dir(a)) == Some(spaces[a]);
      var dir := spaces[a];
      var e := mem[dir][v / ENTRIES];
      if !e.perm.v {
        if !create {
          return None, 0;
        }
        table := PageAlloc();
        if table.None? {
          return None, -E_NO_MEM;
        }
        refs[table.value] := 1;
        mem[dir] := mem[dir][v / ENTRIES := Word(table.value, TABLE_PERM)];
        return table, 0;
      }
      return Some(e.ppn), 0;
    }

    method PageLookup(a: nat, v: nat) returns (found: Option<Word>)
      requires Valid() && Inv(State()) && a in spaces && v < USER_PAGES
      modifies Repr()
      ensures Valid() && State() == old(State()) && found == PageTables.PageLookup(State(), a, v)
    {
      var table, _ := PgdirWalk(a, v, false);
      if table.None? {
        return None;
      }
      assert Target(State(), Table(a, v / ENTRIES)) == table;
      var pte := mem[table.value][v % ENTRIES];
      return if pte.perm.v then Some(pte) else None;
    }

    method PageRemove(a: nat, v: nat)
      requires Valid() && Inv(State()) && a in spaces && v < USER_PAGES
      modifies Repr()
      ensures Valid() && State() == PageTables.PageRemove(old(State()), a, v)
    {
      var found := PageLookup(a, v);
      if found.None? {
        return;
      }
      MappedInUse(State(), a, v);
      Unmap(a, v, found.value.ppn, mem[spaces[a]][v / ENTRIES].ppn);
    }

    /** The end of page_remove, for entry v of the page table in page `table`. */
    method Unmap(a: nat, v: nat, p: nat, table: nat)
      requires Valid() && p < mem.Length && refs[p] > 0 && p !in free && table < mem.Length
      modifies Repr()
      ensures var m := old(State());
        && Valid()
        && State() == PageTables.TlbInvalidate(StoreWord(PageTables.PageDecref(m, p), table, v % ENTRIES, ZERO), a, v)
    {
      PageDecref(p);
      mem[table] := mem[table][v % ENTRIES := ZERO];
      TlbInvalidate(a, v);
    }

    /** The case of page_insert that only changes the permissions. */
    method Remap(a: nat, v: nat, p: nat, perm: Perm, table: nat)
      requires Valid() && table < mem.Length
      modifies Repr()
      ensures Valid()
      ensures State()
        == StoreWord(PageTables.TlbInvalidate(old(State()), a, v), table, v % ENTRIES, MappedWord(p, perm))
    {
      TlbInvalidate(a, v);
      mem[table] := mem[table][v % ENTRIES := MappedWord(p, perm)];
    }

    /** Steps 3 and 4 of page_insert: walk again with create set, then write the entry. */
    method MapPage(a: nat, p: nat, v: nat, perm: Perm) returns (r: int)
      requires Valid() && Inv(State()) && a in spaces && v < USER_PAGES && p < mem.Length
      requires var w := PageTables.PgdirWalk(State(), a, v, true);
        w.error == 0 ==> w.table.Some? && w.table.value < |w.m.mem| && Sized(w.m) && p < |w.m.refs|
      modifies Repr()
      ensures Valid()
      ensures var w := PageTables.PgdirWalk(old(State()), a, v, true);
        if w.error != 0 then State() == w.m && r == -E_NO_MEM
        else
          && r == 0
          && State() == SetRef(StoreWord(w.m, w.table.value, v % ENTRIES, MappedWord(p, perm)), p, Inc16(w.m.refs[p]))
    {
      var table, error := PgdirWalk(a, v, true);
      if error != 0 {
        return -E_NO_MEM;
      }
      mem[table.value] := mem[table.value][v % ENTRIES := MappedWord(p, perm)];
      refs[p] := Inc16(refs[p]);
      return 0;
    }

    method PageInsert(a: nat, p: nat, v: nat, perm: Perm) returns (r: int)
      requires Valid() && Inv(State()) && a in spaces && v < USER_PAGES && p < mem.Length
      modifies Repr()
      ensures Valid() && (State(), r) == PageTables.PageInsert(old(State()), a, p, v, perm)
    {
      ghost var m := State();
      var found := PageLookup(a, v);
      if found.Some? {
        if found.value.ppn == p {
          MappedInUse(m, a, v);
          Remap(a, v, p, perm, mem[spaces[a]][v / ENTRIES].ppn);
          return 0;
        }
        PageRemove(a, v);
      }
      RemoveKeepsInv(m, a, v);
      InvalidateKeepsInv(State(), a, v);
      InsertWalkEffect(m, a, v);
      TlbInvalidate(a, v);
      r := MapPage(a, p, v, perm);
    }

    // ---------- kern/env.c ----------

    method EnvSetupVm(a: nat, template: Frame) returns (r: int)
      requires Valid() && Inv(State()) && a !in spaces
      modifies Repr()
      ensures Valid() && (State(), r) == MemoryCalls.EnvSetupVm(old(State()), a, template)
    {
      var page := PageAlloc();
      if page.None? {
        return -E_NO_MEM;
      }
      var p := page.value;
      refs[p] := Inc16(refs[p]);
      mem[p] := NewDirectory(template, p);
      spaces := spaces[a := p];
      return 0;
    }

    method FreeLeaf(a: nat, v: nat)
      requires Valid() && Inv(State()) && a in spaces && v < USER_PAGES
      modifies Repr()
      ensures Valid() && State() == AddressSpaces.FreeLeaf(old(State()), a, v)
      ensures Inv(State()) && a in spaces
    {
      FreeLeafEffect(State(), a, v);
      LookupIsPte(State(), a, v);
      var found := PageLookup(a, v);
      if found.Some? {
        PageRemove(a, v);
      }
    }

    /** One round of the inner loop of env_free. */
    method FreeEntry(a: nat, d: nat, t: nat, ghost m0: Machine)
      requires Valid() && LeavesFrom(m0, State(), a, d, t) && t < ENTRIES
      modifies Repr()
      ensures Valid() && LeavesFrom(m0, State(), a, d, t + 1)
    {
      LeavesFromNext(m0, State(), a, d, t);
      FreeLeaf(a, PageIn(d, t));
    }

    /** The inner loop of env_free over the entries of one table. */
    method FreeLeaves(a: nat, d: nat)
      requires Valid() && Inv(State()) && a in spaces && d < USER_TABLES
      modifies Repr()
      ensures Valid() && State() == AddressSpaces.FreeLeaves(old(State()), a, d, 0)
    {
      var t := 0;
      while t < ENTRIES
        invariant t <= ENTRIES && Valid() && LeavesFrom(old(State()), State(), a, d, t)
      {
        FreeEntry(a, d, t, old(State()));
        t := t + 1;
      }
    }

    /** One round of the outer loop of env_free. */
    method FreeTable(a: nat, d: nat)
      requires Valid() && Inv(State()) && a in spaces && d < USER_TABLES
      modifies Repr()
      ensures Valid() && State() == AddressSpaces.FreeTable(old(State()), a, d)
      ensures Inv(State()) && a in spaces
    {
      ghost var m := State();
      FreeTableReleases(m, a, d);
      assert Target(m, Dir(a)) == Some(spaces[a]);
      var e := mem[spaces[a]][d];
      if !e.perm.v {
        return;
      }
      FreeLeavesReleases(m, a, d, 0);
      FreeLeavesKeepDirectory(m, a, d, 0, d);
      FreeLeaves(a, d);
      DirectoryInUse(State(), a, d);
      Unhook(a, d, e.ppn);
    }

    /** The end of a round of the outer loop: the directory entry, the table, its windows. */
    method Unhook(a: nat, d: nat, table: nat)
      requires Valid() && a in spaces && d < USER_TABLES && spaces[a] < mem.Length
      requires table < mem.Length && refs[table] > 0 && table !in free
      modifies Repr()
      ensures var m := old(State());
        && Valid() && m.spaces[a] < |m.mem|
        && State() == DropWindows(PageTables.PageDecref(StoreWord(m, m.spaces[a], d, ZERO), table), a, d)
    {
      mem[spaces[a]] := mem[spaces[a]][d := ZERO];
      PageDecref(table);
      TlbInvalidate(a, UvptPage(d));
      TlbInvalidate(a, Kseg2Page(d));
    }

    /** env_free: every table, then the directory. */
    method EnvFree(a: nat)
      requires Valid() && Inv(State()) && a in spaces
      modifies Repr()
      ensures Valid() && State() == AddressSpaces.EnvFree(old(State()), a)
    {
      ghost var m := State();
      var d := 0;
      while d < USER_TABLES
        invariant d <= USER_TABLES && Valid() && Inv(State()) && a in spaces
        invariant FreeTables(State(), a, d) == FreeTables(m, a, 0)
      {
        FreeTable(a, d);
        d := d + 1;
      }
      FreeDirectory(a);
    }

    method FreeDirectory(a: nat)
      requires Valid() && Inv(State()) && a in spaces
      modifies Repr()
      ensures var m := old(State());
        && Valid() && m.spaces[a] < |m.mem|
        && State() == DropSpace(DropWindows(PageTables.PageDecref(m, m.spaces[a]), a, PDX(UVPT)), a)
    {
      SpaceInUse(State(), a);
      PageDecref(spaces[a]);
      TlbInvalidate(a, UvptPage(PDX(UVPT)));
      TlbInvalidate(a, Kseg2Page(PDX(UVPT)));
      spaces := spaces - {a};
    }

    // ---------- kern/tlbex.c ----------

    /** Returns false where passive_alloc panics. */
    method PassiveAlloc(a: nat, v: nat) returns (ok: bool)
      requires Valid() && Inv(State()) && a in spaces && v < USER_PAGES
      modifies Repr()
      ensures ok <==> MemoryCalls.PassiveAlloc(old(State()), a, v).Some?
      ensures ok ==> Valid() && State() == MemoryCalls.PassiveAlloc(old(State()), a, v).value
    {
      if v == VPN(USTACKTOP) {
        return false;
      }
      AllocKeepsInv(State());
      var page := PageAlloc();
      if page.None? {
        return false;
      }
      var r := PageInsert(a, page.value, v, NO_PERM.(d := true));
      return r == 0;
    }

    /** do_tlb_refill; the TLB gives up the translations in `evicted` for the new one. */
    method TlbRefill(a: nat, v: nat, evicted: set<(nat, nat)>) returns (ok: bool)
      requires Valid() && Inv(State()) && a in spaces && v < USER_PAGES
      modifies Repr()
      ensures ok <==> MemoryCalls.TlbRefill(old(State()), a, v, evicted).Some?
      ensures ok ==> Valid() && State() == MemoryCalls.TlbRefill(old(State()), a, v, evicted).value
    {
      ghost var m := State();
      ghost var rounds := 0;
      LookupIsPte(m, a, v);
      var found := PageLookup(a, v);
      while found.None?
        invariant Valid() && Inv(State()) && a in spaces && 0 <= rounds <= 1
        invariant found == PageTables.PageLookup(State(), a, v)
        invariant rounds == 0 ==> State() == m
        invariant rounds == 1 ==>
          && PageTables.PageLookup(m, a, v).None? && found.Some?
          && MemoryCalls.PassiveAlloc(m, a, v) == Some(State())
        decreases 1 - rounds
      {
        var done := PassiveAlloc(a, v);
        if !done {
          return false;
        }
        PassiveAllocMaps(m, a, v);
        LookupIsPte(State(), a, v);
        found := PageLookup(a, v);
        rounds := rounds + 1;
      }
      LookupIsPte(State(), a, v);
      tlb := (tlb - evicted)[(a, v) := found.value];
      return true;
    }
  }

  /** At m the inner loop of env_free, which began at m0, has entry t of table d before it. */
  ghost predicate LeavesFrom(m0: Machine, m: Machine, a: nat, d: nat, t: nat) {
    && d < USER_TABLES && t <= ENTRIES
    && Inv(m0) && a in m0.spaces
    && Inv(m) && a in m.spaces
    && AddressSpaces.FreeLeaves(m, a, d, t) == AddressSpaces.FreeLeaves(m0, a, d, 0)
  }

  lemma LeavesFromNext(m0: Machine, m: Machine, a: nat, d: nat, t: nat)
    requires LeavesFrom(m0, m, a, d, t) && t < ENTRIES
    ensures LeavesFrom(m0, AddressSpaces.FreeLeaf(m, a, PageIn(d, t)), a, d, t + 1)
  {
    FreeLeafEffect(m, a, PageIn(d, t));
  }

  lemma MappedInUse(m: Machine, a: nat, v: nat)
    requires Inv(m) && a in m.spaces && v < USER_PAGES && PageTables.PageLookup(m, a, v).Some?
    ensures m.spaces[a] < |m.mem| && DirEntry(m, a, v / ENTRIES).ppn < |m.mem|
    ensures Pte(m, a, v).ppn < |m.mem| && m.refs[Pte(m, a, v).ppn] > 0 && Pte(m, a, v).ppn !in m.free
    ensures PageTables.PageLookup(m, a, v) == Some(Pte(m, a, v))
  {
    LookupIsPte(m, a, v);
    assert Target(m, Dir(a)) == Some(m.spaces[a]);
    assert Target(m, Table(a, v / ENTRIES)) == Some(DirEntry(m, a, v / ENTRIES).ppn);
    assert Target(m, Leaf(a, v)) == Some(Pte(m, a, v).ppn);
    assert Leaf(a, v) in RefsTo(m, Pte(m, a, v).ppn);
  }

  lemma DirectoryInUse(m: Machine, a: nat, d: nat)
    requires Inv(m) && a in m.spaces && d < USER_TABLES && DirEntry(m, a, d).perm.v
    ensures m.spaces[a] < |m.mem| && DirEntry(m, a, d).ppn < |m.mem|
    ensures m.refs[DirEntry(m, a, d).ppn] > 0 && DirEntry(m, a, d).ppn !in m.free
  {
    assert Target(m, Dir(a)) == Some(m.spaces[a]);
    assert Target(m, Table(a, d)) == Some(DirEntry(m, a, d).ppn);
    assert Table(a, d) in RefsTo(m, DirEntry(m, a, d).ppn);
  }

  lemma SpaceInUse(m: Machine, a: nat)
    requires Inv(m) && a in m.spaces
    ensures m.spaces[a] < |m.mem| && m.refs[m.spaces[a]] > 0
  {
    assert Target(m, Dir(a)) == Some(m.spaces[a]);
    assert Dir(a) in RefsTo(m, m.spaces[a]);
  }
}
