/** Faults at pages of the UVPT window that belong to directory slots from PDX(UTOP) on: the page
    that the kernel puts there is one that env_free never gives back (kern/tlbex.c, kern/env.c). */
module UpperSlots {
  import opened Mmu
  import opened PageTables
  import opened AddressSpaces
  import opened MemoryCalls
  import opened Windows

  /** A slot that is neither a user's nor one of the two that show the directory itself. */
  predicate Upper(d: nat) { USER_TABLES <= d < ENTRIES && d != SELF && d != PDX(KSEG2) }

  /** passive_alloc for the window page of an empty slot: the walk ends in the directory, so the
      new page is inserted into the slot.  In the books of the model it is in use for good. */
  function UpperAlloc(m: Machine, a: nat, d: nat): (r: Machine)
    requires Inv(m) && a in m.spaces && Upper(d) && m.free != []
  {
    var (m1, page) := PageAlloc(m);
    var p := page.value;
    assert Target(m, Dir(a)) == Some(m.spaces[a]);
    var m2 := SetRef(TlbInvalidate(m1, a, UvptPage(d)), p, Inc16(m1.refs[p]));
    StoreWord(m2, m.spaces[a], d, MappedWord(p, NO_PERM.(d := true))).(boot := m.boot + {p})
  }

  function UpperWrite(m: Machine, a: nat, d: nat, evicted: set<(nat, nat)>): Machine
    requires a in m.spaces && Upper(d)
  {
    m.(tlb := (m.tlb - evicted)[(a, UvptPage(d)) := DirEntry(m, a, d)])
  }

  /** do_tlb_refill for such a page. */
  function UpperRefill(m: Machine, a: nat, d: nat, evicted: set<(nat, nat)>): (r: Option<Machine>)
    requires Inv(m) && a in m.spaces && Upper(d)
  {
    if DirEntry(m, a, d).perm.v then Some(UpperWrite(m, a, d, evicted))
    else if m.free == [] then None
    else Some(UpperWrite(UpperAlloc(m, a, d), a, d, evicted))
  }

  /** The kernel panics exactly if the slot is empty and no page is free. */
  lemma UpperPanicsExactlyWhen(m: Machine, a: nat, d: nat, evicted: set<(nat, nat)>)
    requires Inv(m) && a in m.spaces && Upper(d)
    ensures UpperRefill(m, a, d, evicted).None? <==> !DirEntry(m, a, d).perm.v && m.free == []
  {
  }

  /** The page that the refill puts out of reach. */
  function Forgotten(m: Machine, a: nat, d: nat): set<nat>
    requires Inv(m) && a in m.spaces && Upper(d)
  {
    if DirEntry(m, a, d).perm.v || m.free == [] then {} else {m.free[0]}
  }

  lemma UpperWindow(d: nat, e: nat, w: nat)
    requires Upper(d) && Followed(e) && IsWindow(w, e)
    ensures w != UvptPage(d) && UvptPage(d) >= USER_PAGES
  {
    UserLimits();
  }

  lemma UpperWriteKeeps(m: Machine, a: nat, d: nat, evicted: set<(nat, nat)>)
    requires Inv(m) && Mirrored(m) && a in m.spaces && Upper(d)
    ensures var m' := UpperWrite(m, a, d, evicted);
      Inv(m') && Held(m') == Held(m) && Mirrored(m')
  {
    var m' := UpperWrite(m, a, d, evicted);
    UpperWindow(d, SELF, UvptPage(SELF));
    SameMemSameTargets(m, m');
    WindowWriteInv(m, m');
    forall b | b in m'.spaces ensures SelfMapped(m', b) {
      assert SelfMapped(m, b);
    }
    forall b: nat, e: nat, u: nat ensures EntryRight(m', b, e, u) {
      assert EntryRight(m, b, e, u);
      if Followed(e) && IsWindow(u, e) {
        UpperWindow(d, e, u);
      }
    }
  }

  /** The new entry is in no slot that anything else looks at. */
  lemma UpperTargets(m: Machine, m': Machine, a: nat, d: nat, w: Word, p: nat)
    requires Shape(m) && Separate(m) && a in m.spaces && Upper(d) && m.spaces[a] < |m.mem|
    requires m'.mem == StoreWord(m, m.spaces[a], d, w).mem && m'.spaces == m.spaces && m'.boot == m.boot + {p}
    ensures forall s :: IsSlot(m', s) <==> IsSlot(m, s) || s == Boot(p)
    ensures forall s | IsSlot(m, s) :: Target(m', s) == Target(m, s)
    ensures forall b, u: nat | b in m.spaces && u < USER_PAGES :: Pte(m', b, u) == Pte(m, b, u)
    ensures forall b, e: nat | b in m.spaces && e < ENTRIES && (b, e) != (a, d) ::
      DirEntry(m', b, e) == DirEntry(m, b, e)
  {
    forall b, e: nat | b in m.spaces && e < ENTRIES && (b, e) != (a, d)
      ensures DirEntry(m', b, e) == DirEntry(m, b, e)
    {
      assert Target(m, Dir(b)) == Some(m.spaces[b]) && Target(m, Dir(a)) == Some(m.spaces[a]);
    }
    forall b, u: nat | b in m.spaces && u < USER_PAGES ensures Pte(m', b, u) == Pte(m, b, u) {
      UserLimits();
      var e := DirEntry(m, b, u / ENTRIES);
      if e.perm.v {
        assert Target(m, Table(b, u / ENTRIES)) == Some(e.ppn);
        assert Target(m, Dir(a)) == Some(m.spaces[a]);
      }
    }
    forall s | IsSlot(m, s) ensures Target(m', s) == Target(m, s) {
    }
  }

  /** One more reference for good. */
  lemma UpperCounts(m: Machine, m': Machine, p: nat, q: nat)
    requires forall s | IsSlot(m, s) :: Target(m, s) != Some(p)
    requires forall s :: IsSlot(m', s) <==> IsSlot(m, s) || s == Boot(p)
    requires forall s | IsSlot(m, s) :: Target(m', s) == Target(m, s)
    ensures |RefsTo(m', q)| == if q == p then 1 else |RefsTo(m, q)|
  {
    if q == p {
      assert RefsTo(m', q) == {Boot(p)};
    } else {
      assert RefsTo(m', q) == RefsTo(m, q);
    }
  }

  lemma UpperSeparate(m: Machine, m': Machine, p: nat)
    requires InRange(m) && Separate(m) && p < |m.mem| && |m'.mem| == |m.mem|
    requires forall s | IsSlot(m, s) :: Target(m, s) != Some(p)
    requires forall s :: IsSlot(m', s) <==> IsSlot(m, s) || s == Boot(p)
    requires forall s | IsSlot(m, s) :: Target(m', s) == Target(m, s)
    ensures InRange(m') && Separate(m')
  {
  }

  lemma UpperAllocInv(m: Machine, a: nat, d: nat)
    requires Inv(m) && a in m.spaces && Upper(d) && m.free != []
    ensures var m' := UpperAlloc(m, a, d);
      && Inv(m') && Held(m') == Held(m) && KeepsUsers(m, m', a, d) && m'.boot == m.boot + {m.free[0]}
  {
    var m1, p, m' := PageAlloc(m).0, m.free[0], UpperAlloc(m, a, d);
    AllocKeepsInv(m);
    UnusedHasNoSlot(m1, p);
    assert Target(m1, Dir(a)) == Some(m.spaces[a]);
    UpperTargets(m1, m', a, d, MappedWord(p, NO_PERM.(d := true)), p);
    UpperSeparate(m1, m', p);
    forall q: nat | q < |m.mem| ensures m'.refs[q] == |RefsTo(m', q)| {
      UpperCounts(m1, m', p, q);
      assert m1.refs[q] == |RefsTo(m1, q)|;
    }
    assert p !in m'.free;
  }

  /** All tables and window slots are as they were. */
  ghost predicate KeepsUsers(m: Machine, m': Machine, a: nat, d: nat) {
    && m'.spaces == m.spaces
    && (forall b, e: nat | b in m.spaces && e < USER_TABLES :: Target(m', Table(b, e)) == Target(m, Table(b, e)))
    && (forall b, e: nat | b in m.spaces && e < ENTRIES && (b, e) != (a, d) :: DirEntry(m', b, e) == DirEntry(m, b, e))
  }

  lemma KeepsUsersMirrored(m: Machine, m': Machine, a: nat, d: nat)
    requires Mirrored(m) && KeepsUsers(m, m', a, d) && Upper(d) && WindowTlbShrinks(m, m')
    ensures Mirrored(m')
  {
    UserLimits();
    forall b | b in m'.spaces ensures SelfMapped(m', b) {
      assert SelfMapped(m, b);
    }
    forall b: nat, e: nat, w: nat ensures EntryRight(m', b, e, w) {
      assert EntryRight(m, b, e, w);
      if Followed(e) && IsWindow(w, e) {
        WindowsApart(e, w);
      }
    }
  }

  /** The fault keeps counts, tables, windows and the free list right, and takes one page out of
      circulation if and only if the slot was empty. */
  lemma UpperRefillKeeps(m: Machine, a: nat, d: nat, evicted: set<(nat, nat)>)
    requires Inv(m) && Mirrored(m) && a in m.spaces && Upper(d) && UpperRefill(m, a, d, evicted).Some?
    ensures var m' := UpperRefill(m, a, d, evicted).value;
      && Inv(m') && Held(m') == Held(m) && Mirrored(m') && m'.spaces == m.spaces
      && m'.boot == m.boot + Forgotten(m, a, d) && Forgotten(m, a, d) !! m.boot
      && DirEntry(m', a, d).perm.v
      && (Forgotten(m, a, d) != {} ==> Forgotten(m, a, d) == {DirEntry(m', a, d).ppn})
  {
    if DirEntry(m, a, d).perm.v {
      UpperWriteKeeps(m, a, d, evicted);
    } else {
      UpperAllocInv(m, a, d);
      KeepsUsersMirrored(m, UpperAlloc(m, a, d), a, d);
      UpperWriteKeeps(UpperAlloc(m, a, d), a, d, evicted);
      FreeIsNotBoot(m, m.free[0]);
    }
  }

  lemma FreeIsNotBoot(m: Machine, p: nat)
    requires Inv(m) && p in m.free
    ensures p !in m.boot
  {
    if p in m.boot {
      BootOnly(m, p);
    }
  }

  /** Such a page is never free again, and the death of its environment leaves nothing that
      leads to it: only the books of the model do. */
  lemma ForgottenForGood(m: Machine, a: nat, p: nat)
    requires Inv(m) && a in m.spaces && p in m.boot
    ensures var m' := EnvFree(m, a);
      && Inv(m') && p in m'.boot && p !in m'.free && p < |m'.refs| && m'.refs[p] == 1
      && forall s | IsSlot(m', s) && Target(m', s) == Some(p) :: s == Boot(p)
  {
    EnvFreeKeepsInv(m, a);
    var m' := EnvFree(m, a);
    FreeTablesReleases(m, a, 0);
    assert p in m'.boot;
    BootOnly(m', p);
  }

  lemma BootOnly(m: Machine, p: nat)
    requires Inv(m) && p in m.boot
    ensures p < |m.refs| && m.refs[p] == 1 && p !in m.free
    ensures forall s | IsSlot(m, s) && Target(m, s) == Some(p) :: s == Boot(p)
  {
    assert Target(m, Boot(p)) == Some(p);
    assert forall s | s in RefsTo(m, p) :: s == Boot(p);
    assert Boot(p) in RefsTo(m, p);
    assert RefsTo(m, p) == {Boot(p)};
    assert m.refs[p] == |RefsTo(m, p)|;
  }
}
