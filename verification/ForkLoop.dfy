/** The page loop of fork and the fault handler, as they update the mappings in place
    (user/lib/fork.c). */
module ForkLoop {
  import opened Mmu
  import opened VmView
  import opened CowFork

  /** The permissions both mappings of a page have once duppage is done with it. */
  function DupPerm(perm: Perm): Perm {
    if SharedAsIs(perm) then perm else perm.(d := false, cow := true)
  }

  /** Page v of the parent reaches the child; `full` are the pages for whose table in the child
      the kernel finds no page. */
  predicate Arrives(s0: Sys, a: nat, v: nat, full: set<nat>) {
    VPage(a, v) in s0.pt && FIRST_PAGE <= v && v !in full
  }

  /** Space c has been given space a's pages below n, and of them exactly those that sys_mem_map
      accepts, the rest of s is as in s0. */
  ghost predicate Duplicated(s0: Sys, s: Sys, a: nat, c: nat, n: nat, full: set<nat>) {
    && a != c && s.mem == s0.mem && s.embryos == s0.embryos && s.pend == s0.pend
    && (forall k: VPage | k.a != c :: k in s.pt <==> k in s0.pt)
    && (forall v: nat :: VPage(c, v) in s.pt <==> v < n && Arrives(s0, a, v, full))
    && (forall k: VPage | k.a != c && !(k.a == a && FIRST_PAGE <= k.v < n) && k in s0.pt :: s.pt[k] == s0.pt[k])
    && (forall v: nat | FIRST_PAGE <= v < n && VPage(a, v) in s0.pt ::
          s.pt[VPage(a, v)] == Word(s0.pt[VPage(a, v)].ppn, DupPerm(s0.pt[VPage(a, v)].perm)))
    && (forall v: nat | v < n && Arrives(s0, a, v, full) :: s.pt[VPage(c, v)] == s.pt[VPage(a, v)])
  }

  /** What is lost to c are the parent's other pages below n. */
  ghost predicate LostBelow(s0: Sys, s: Sys, a: nat, c: nat, n: nat, full: set<nat>) {
    forall k: VPage :: k in s.lost <==>
      k in s0.lost || (k.a == c && k.v < n && VPage(a, k.v) in s0.pt && !Arrives(s0, a, k.v, full))
  }

  ghost predicate DupProgress(s0: Sys, s: Sys, a: nat, c: nat, n: nat, full: set<nat>) {
    Duplicated(s0, s, a, c, n, full) && LostBelow(s0, s, a, c, n, full)
  }

  /** The steps of CowFork that one call of duppage consists of. */
  function DupSteps(s: Sys, a: nat, c: nat, v: nat, room: bool): (r: Sys)
    requires Sane(s) && a != c && a !in s.embryos && Enabled(s, DupFirst(a, c, v, room))
    ensures Sane(r)
  {
    var s1 := Next(s, DupFirst(a, c, v, room));
    if SharedAsIs(s.pt[VPage(a, v)].perm) then s1
    else if Inherited(v, room) then Next(s1, DupSecond(a))
    else Next(s1, Protect(a, v))
  }

  class Spaces {
    var sys: Sys

    constructor (s: Sys)
      ensures sys == s
    {
      sys := s;
    }

    /** sys_mem_map of the parent's page v into space c: refused below UTEMP, and without `room`. */
    method MemMap(a: nat, v: nat, c: nat, perm: Perm, room: bool) returns (r: int)
      requires VPage(a, v) in sys.pt
      modifies this
      ensures r == if v < FIRST_PAGE then -E_INVAL else if !room then -E_NO_MEM else 0
      ensures sys == if r != 0 then old(sys) else
        old(sys).(pt := old(sys).pt[VPage(c, v) := MapWord(old(sys).pt[VPage(a, v)].ppn, perm)])
    {
      if v * BY2PG < UTEMP {
        return -E_INVAL;
      }
      if !room {
        return -E_NO_MEM;
      }
      sys := sys.(pt := sys.pt[VPage(c, v) := MapWord(sys.pt[VPage(a, v)].ppn, perm)]);
      return 0;
    }

    /** duppage: the page is mapped into the child, then, if need be, again into the parent.  The
        results of the calls are used only to say what is pending or lost. */
    method DupPage(c: nat, a: nat, v: nat, room: bool)
      requires Sane(sys) && a != c && a !in sys.embryos && Enabled(sys, DupFirst(a, c, v, room))
      modifies this
      ensures Sane(sys) && sys == DupSteps(old(sys), a, c, v, room)
    {
      var perm := sys.pt[VPage(a, v)].perm;
      if !perm.d || perm.lib || perm.cow {
        var r := MemMap(a, v, c, perm, room);
        sys := sys.(lost := if r == 0 then sys.lost else sys.lost + {VPage(c, v)});
      } else {
        perm := perm.(d := false, cow := true);
        var r := MemMap(a, v, c, perm, room);
        sys := sys.(lost := if r == 0 then sys.lost else sys.lost + {VPage(c, v)},
                    pend := if r == 0 then sys.pend[a := Pending(c, v, perm)] else sys.pend);
        var r2 := MemMap(a, v, a, perm, true);
        sys := sys.(pend := if r == 0 then sys.pend - {a} else sys.pend);
      }
    }

    method DupIfMapped(ghost s1: Sys, a: nat, c: nat, v: nat, full: set<nat>)
      requires Building(s1, a, c) && v < STACK_PAGES
      requires Sane(sys) && DupProgress(s1, sys, a, c, v, full)
      modifies this
      ensures Sane(sys) && DupProgress(s1, sys, a, c, v + 1, full)
    {
      if VPage(a, v) in sys.pt {
        var room := v !in full;
        DuplicatedStep(s1, sys, a, c, v, room, full);
        DupPage(c, a, v, room);
      } else {
        SkippedPage(s1, sys, a, c, v, full);
      }
    }

    /** The inner loop of fork: the pages of the table at page i. */
    method DupTable(ghost s1: Sys, a: nat, c: nat, i: nat, full: set<nat>)
      requires i <= STACK_PAGES && Building(s1, a, c)
      requires Sane(sys) && DupProgress(s1, sys, a, c, i, full)
      modifies this
      ensures var n := if i + ENTRIES < STACK_PAGES then i + ENTRIES else STACK_PAGES;
        Sane(sys) && DupProgress(s1, sys, a, c, n, full)
    {
      var j := 0;
      while j < ENTRIES && i + j < STACK_PAGES
        invariant j <= ENTRIES && i + j <= STACK_PAGES
        invariant Sane(sys) && DupProgress(s1, sys, a, c, i + j, full)
      {
        DupIfMapped(s1, a, c, i + j, full);
        j := j + 1;
      }
    }

    /** Steps 2 to 4 of fork, uninterrupted: the pages mapped below USTACKTOP reach the child, save
        those that sys_mem_map refuses.  `vpd` holds the indices of the parent's page tables. */
    method Fork(a: nat, c: nat, vpd: set<nat>, full: set<nat>)
      requires Wf(sys) && Sane(sys) && LostOk(sys) && Enabled(sys, StartFork(a, c)) && a !in sys.pend
      requires forall v: nat | VPage(a, v) in sys.pt :: v / ENTRIES in vpd
      modifies this
      ensures Duplicated(old(sys), sys, a, c, STACK_PAGES, full) && sys.lost == old(sys).lost
    {
      ghost var s0 := sys;
      sys := sys.(embryos := sys.embryos[c := a]);
      ghost var s1 := sys;
      StartDuplicated(s0, s1, a, c, full);
      var i := 0;
      while i < STACK_PAGES
        invariant i % ENTRIES == 0
        invariant var n := if i < STACK_PAGES then i else STACK_PAGES;
          Sane(sys) && DupProgress(s1, sys, a, c, n, full)
      {
        if i / ENTRIES in vpd {
          DupTable(s1, a, c, i, full);
        } else {
          SkippedTable(s1, sys, a, c, i, if i + ENTRIES < STACK_PAGES then i + ENTRIES else STACK_PAGES, full, vpd);
        }
        i := i + ENTRIES;
      }
      ghost var s2 := sys;
      sys := sys.(embryos := sys.embryos - {c}, lost := NotOf(sys.lost, c));
      EndDuplicated(s0, s1, s2, sys, a, c, full);
    }
  }

  /** The child c is under construction by a, which is between two pages. */
  ghost predicate Building(s: Sys, a: nat, c: nat) {
    Wf(s) && c in s.embryos && s.embryos[c] == a && a !in s.pend && forall k | k in s.lost :: k.a != c
  }

  lemma StartDuplicated(s0: Sys, s1: Sys, a: nat, c: nat, full: set<nat>)
    requires Wf(s0) && LostOk(s0) && Enabled(s0, StartFork(a, c)) && a !in s0.pend
    requires s1 == s0.(embryos := s0.embryos[c := a])
    ensures a != c && Building(s1, a, c) && DupProgress(s1, s1, a, c, 0, full)
  {
    forall x | x in s0.pend ensures s0.pend[x].child != c {
      assert PendingOk(s0, x);
    }
    SamePtSharing(s0, s1);
    EmbryoPend(s0, s1, c);
  }

  lemma EndDuplicated(s0: Sys, s1: Sys, s2: Sys, s: Sys, a: nat, c: nat, full: set<nat>)
    requires c !in s0.embryos && LostOk(s0) && s1 == s0.(embryos := s0.embryos[c := a])
    requires DupProgress(s1, s2, a, c, STACK_PAGES, full)
    requires s == s2.(embryos := s2.embryos - {c}, lost := NotOf(s2.lost, c))
    ensures Duplicated(s0, s, a, c, STACK_PAGES, full) && s.lost == s0.lost
  {
    assert s1.embryos - {c} == s0.embryos;
    forall k ensures k in s.lost <==> k in s0.lost {
    }
  }

  /** The child is released whole exactly if every page of the parent arrived. */
  lemma SparedExactlyWhen(s1: Sys, s2: Sys, a: nat, c: nat, full: set<nat>)
    requires Building(s1, a, c) && DupProgress(s1, s2, a, c, STACK_PAGES, full)
    ensures Spares(s2, EndFork(c)) <==>
      forall v: nat | v < STACK_PAGES && VPage(a, v) in s1.pt :: Arrives(s1, a, v, full)
  {
    if v: nat :| v < STACK_PAGES && VPage(a, v) in s1.pt && !Arrives(s1, a, v, full) {
      assert VPage(c, v) in s2.lost && VPage(c, v) !in NotOf(s2.lost, c);
    } else {
      forall k | k in s2.lost ensures k in NotOf(s2.lost, c) {
      }
    }
  }

  /** duppage leaves both mappings with the frame and the same permissions, or the child without
      one. */
  lemma DupEffect(s: Sys, a: nat, c: nat, v: nat, room: bool)
    requires Sane(s) && a != c && a !in s.embryos && Enabled(s, DupFirst(a, c, v, room)) && s.pt[VPage(a, v)].perm.v
    ensures var w := Word(s.pt[VPage(a, v)].ppn, DupPerm(s.pt[VPage(a, v)].perm));
      DupSteps(s, a, c, v, room) ==
      if Inherited(v, room) then s.(pt := s.pt[VPage(c, v) := w][VPage(a, v) := w])
      else s.(pt := if v < FIRST_PAGE then s.pt else s.pt[VPage(a, v) := w], lost := s.lost + {VPage(c, v)})
  {
    var s1 := Next(s, DupFirst(a, c, v, room));
    if SharedAsIs(s.pt[VPage(a, v)].perm) {
      assert s1.pt == s1.pt[VPage(a, v) := s.pt[VPage(a, v)]];
    } else if Inherited(v, room) {
      assert s1.pend - {a} == s.pend;
    }
  }

  /** One more page. */
  lemma DuplicatedStep(s0: Sys, s: Sys, a: nat, c: nat, n: nat, room: bool, full: set<nat>)
    requires Building(s0, a, c) && Sane(s) && DupProgress(s0, s, a, c, n, full)
    requires room == (n !in full) && n < STACK_PAGES && VPage(a, n) in s.pt
    ensures a !in s.embryos && Enabled(s, DupFirst(a, c, n, room))
    ensures DupProgress(s0, DupSteps(s, a, c, n, room), a, c, n + 1, full)
  {
    assert s.pt[VPage(a, n)] == s0.pt[VPage(a, n)];
    DupEffect(s, a, c, n, room);
    var w := Word(s.pt[VPage(a, n)].ppn, DupPerm(s.pt[VPage(a, n)].perm));
    DuplicatedMore(s0, s, DupSteps(s, a, c, n, room), a, c, n, w, full);
  }

  lemma DuplicatedMore(s0: Sys, s: Sys, s': Sys, a: nat, c: nat, n: nat, w: Word, full: set<nat>)
    requires DupProgress(s0, s, a, c, n, full) && VPage(a, n) in s0.pt
    requires w == Word(s0.pt[VPage(a, n)].ppn, DupPerm(s0.pt[VPage(a, n)].perm))
    requires s' ==
      if Inherited(n, n !in full) then s.(pt := s.pt[VPage(c, n) := w][VPage(a, n) := w])
      else s.(pt := if n < FIRST_PAGE then s.pt else s.pt[VPage(a, n) := w], lost := s.lost + {VPage(c, n)})
    ensures DupProgress(s0, s', a, c, n + 1, full)
  {
    if Inherited(n, n !in full) {
      MoreGiven(s0, s, s', a, c, n, w, full);
    } else {
      MoreLost(s0, s, s', a, c, n, w, full);
    }
  }

  lemma MoreGiven(s0: Sys, s: Sys, s': Sys, a: nat, c: nat, n: nat, w: Word, full: set<nat>)
    requires DupProgress(s0, s, a, c, n, full) && Arrives(s0, a, n, full)
    requires w == Word(s0.pt[VPage(a, n)].ppn, DupPerm(s0.pt[VPage(a, n)].perm))
    requires s' == s.(pt := s.pt[VPage(c, n) := w][VPage(a, n) := w])
    ensures DupProgress(s0, s', a, c, n + 1, full)
  {
    MoreGivenMaps(s0, s, s', a, c, n, w, full);
  }

  lemma MoreGivenMaps(s0: Sys, s: Sys, s': Sys, a: nat, c: nat, n: nat, w: Word, full: set<nat>)
    requires Duplicated(s0, s, a, c, n, full) && Arrives(s0, a, n, full)
    requires w == Word(s0.pt[VPage(a, n)].ppn, DupPerm(s0.pt[VPage(a, n)].perm))
    requires s' == s.(pt := s.pt[VPage(c, n) := w][VPage(a, n) := w])
    ensures Duplicated(s0, s', a, c, n + 1, full)
  {
  }

  lemma MoreLost(s0: Sys, s: Sys, s': Sys, a: nat, c: nat, n: nat, w: Word, full: set<nat>)
    requires DupProgress(s0, s, a, c, n, full) && VPage(a, n) in s0.pt && !Arrives(s0, a, n, full)
    requires w == Word(s0.pt[VPage(a, n)].ppn, DupPerm(s0.pt[VPage(a, n)].perm))
    requires s' == s.(pt := if n < FIRST_PAGE then s.pt else s.pt[VPage(a, n) := w], lost := s.lost + {VPage(c, n)})
    ensures DupProgress(s0, s', a, c, n + 1, full)
  {
    MoreLostMaps(s0, s, s', a, c, n, w, full);
  }

  lemma MoreLostMaps(s0: Sys, s: Sys, s': Sys, a: nat, c: nat, n: nat, w: Word, full: set<nat>)
    requires Duplicated(s0, s, a, c, n, full) && VPage(a, n) in s0.pt && !Arrives(s0, a, n, full)
    requires w == Word(s0.pt[VPage(a, n)].ppn, DupPerm(s0.pt[VPage(a, n)].perm))
    requires s' == s.(pt := if n < FIRST_PAGE then s.pt else s.pt[VPage(a, n) := w], lost := s.lost + {VPage(c, n)})
    ensures Duplicated(s0, s', a, c, n + 1, full)
  {
  }

  lemma SkippedPage(s0: Sys, s: Sys, a: nat, c: nat, n: nat, full: set<nat>)
    requires DupProgress(s0, s, a, c, n, full) && VPage(a, n) !in s.pt
    ensures DupProgress(s0, s, a, c, n + 1, full)
  {
  }

  /** A table that is not there maps no pages. */
  lemma SkippedTable(s0: Sys, s: Sys, a: nat, c: nat, n: nat, m: nat, full: set<nat>, vpd: set<nat>)
    requires DupProgress(s0, s, a, c, n, full) && n % ENTRIES == 0 && n <= m <= n + ENTRIES && n / ENTRIES !in vpd
    requires forall v: nat | VPage(a, v) in s0.pt :: v / ENTRIES in vpd
    ensures DupProgress(s0, s, a, c, m, full)
  {
    forall v: nat | n <= v < m ensures VPage(a, v) !in s0.pt {
      assert v / ENTRIES == n / ENTRIES;
    }
  }

  /** After an uninterrupted fork the child reads at a page below USTACKTOP what the parent read
      before if and only if the parent had nothing there, or the page is not below UTEMP and the
      kernel found a page for its table.  The parent reads what it read before. */
  lemma ForkCopiesReads(s0: Sys, s: Sys, a: nat, c: nat, v: nat, full: set<nat>)
    requires Sane(s0) && Duplicated(s0, s, a, c, STACK_PAGES, full) && v < STACK_PAGES
    ensures Reads(s, VPage(c, v)) == Reads(s0, VPage(a, v))
      <==> VPage(a, v) !in s0.pt || (v >= FIRST_PAGE && v !in full)
    ensures forall u: nat :: Reads(s, VPage(a, u)) == Reads(s0, VPage(a, u))
  {
    if Arrives(s0, a, v, full) {
      assert s.pt[VPage(c, v)].ppn == s0.pt[VPage(a, v)].ppn;
    }
    forall u: nat ensures Reads(s, VPage(a, u)) == Reads(s0, VPage(a, u)) {
      assert VPage(a, u) in s.pt <==> VPage(a, u) in s0.pt;
    }
  }
}
