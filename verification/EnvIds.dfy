/** Address-space numbers and environment ids (kern/env.c). */
module EnvIds {
  import opened Mmu
  import opened Bitmaps

  // ---------- ASIDs ----------

  const NASID: nat := 64

  /** bitmap: asid_bitmap; asid: env_asid of every environment; live: those not free. */
  datatype Asids = Asids(bitmap: seq<BitWord>, asid: seq<nat>, live: set<nat>)

  predicate Packed(bitmap: seq<BitWord>) { |bitmap| == NASID / BITS }

  /** The first number from n on whose bit is clear, or NASID. */
  function FirstClear(bitmap: seq<BitWord>, n: nat): (r: nat)
    requires Packed(bitmap) && n <= NASID
    ensures n <= r <= NASID
    ensures r < NASID ==> !Has(bitmap, r)
    ensures forall k: nat | n <= k < r :: Has(bitmap, k)
    decreases NASID - n, bitmap
  {
    if n == NASID || !Has(bitmap, n) then n else FirstClear(bitmap, n + 1)
  }

  class AsidTable {
    const bitmap: array<BitWord>

    ghost predicate Valid() { bitmap.Length == NASID / BITS }

    constructor ()
      ensures Valid() && fresh(bitmap) && forall k: nat | k < NASID :: !Has(bitmap[..], k)
    {
      bitmap := new BitWord[NASID / BITS](_ => Zeros());
    }

    /** asid_alloc: the number it stores, or None where it returns -E_NO_FREE_ENV. */
    method Alloc() returns (asid: Option<nat>)
      requires Valid()
      modifies bitmap
      ensures var n := FirstClear(old(bitmap[..]), 0);
        if n == NASID then asid == None && bitmap[..] == old(bitmap[..])
        else asid == Some(n) && bitmap[..] == SetBit(old(bitmap[..]), n)
    {
      var i: nat := 0;
      while i < NASID
        invariant i <= NASID && bitmap[..] == old(bitmap[..])
        invariant FirstClear(bitmap[..], i) == FirstClear(bitmap[..], 0)
      {
        var index, inner := i / BITS, i % BITS;
        if !bitmap[index][inner] {
          bitmap[index] := bitmap[index][inner := true];
          return Some(i);
        }
        i := i + 1;
      }
      return None;
    }

    /** asid_free. */
    method Free(i: nat)
      requires Valid() && i < NASID
      modifies bitmap
      ensures bitmap[..] == ClearBit(old(bitmap[..]), i)
    {
      var index, inner := i / BITS, i % BITS;
      bitmap[index] := bitmap[index][inner := false];
    }
  }

  /** env_alloc, which takes no notice when asid_alloc fails: the field keeps its old value. */
  function EnvAlloc(s: Asids, e: nat): Asids
    requires Packed(s.bitmap) && e < |s.asid|
  {
    var n := FirstClear(s.bitmap, 0);
    if n == NASID then s.(live := s.live + {e})
    else Asids(SetBit(s.bitmap, n), s.asid[e := n], s.live + {e})
  }

  function EnvFree(s: Asids, e: nat): Asids
    requires Packed(s.bitmap) && e < |s.asid| && s.asid[e] < NASID
  {
    s.(bitmap := ClearBit(s.bitmap, s.asid[e]), live := s.live - {e})
  }

  predicate Sized(s: Asids) {
    && Packed(s.bitmap)
    && (forall e | 0 <= e < |s.asid| :: s.asid[e] < NASID)
    && (forall e | e in s.live :: e < |s.asid|)
  }

  ghost predicate Used(s: Asids, n: nat)
    requires Sized(s)
  {
    exists e :: e in s.live && s.asid[e] == n
  }

  /** No two live environments have the same ASID, and the bitmap marks exactly theirs. */
  ghost predicate AsidsOk(s: Asids) {
    && Sized(s)
    && (forall e, f | e in s.live && f in s.live && e != f :: s.asid[e] != s.asid[f])
    && (forall n: nat | n < NASID :: Has(s.bitmap, n) <==> Used(s, n))
  }

  /** The ASIDs of the environments in `who`. */
  ghost function AsidsOf(s: Asids, who: set<nat>): set<nat>
    requires Sized(s) && who <= s.live
  {
    set e | e in who :: s.asid[e]
  }

  lemma {:induction false} AsManyAsids(s: Asids, who: set<nat>)
    requires AsidsOk(s) && who <= s.live
    ensures |AsidsOf(s, who)| == |who|
    decreases |who|
  {
    if who != {} {
      var e :| e in who;
      AsManyAsids(s, who - {e});
      assert AsidsOf(s, who) == AsidsOf(s, who - {e}) + {s.asid[e]};
    }
  }

  lemma {:induction false} CountBelow(n: nat, s: set<nat>)
    requires forall x | x in s :: x < n
    ensures |s| <= n && (|s| == n <==> forall x: nat | x < n :: x in s)
    decreases n
  {
    if n > 0 {
      CountBelow(n - 1, s - {n - 1});
      assert |s| == |s - {n - 1}| + if n - 1 in s then 1 else 0 by {
        assert n - 1 !in s ==> s - {n - 1} == s;
      }
      assert forall x: nat | x < n - 1 :: x in s - {n - 1} <==> x in s;
    } else {
      assert s == {};
    }
  }

  /** asid_alloc fails exactly when 64 environments are live. */
  lemma FullWhen64(s: Asids)
    requires AsidsOk(s)
    ensures |s.live| <= NASID
    ensures FirstClear(s.bitmap, 0) == NASID <==> |s.live| == NASID
  {
    AsManyAsids(s, s.live);
    var used := AsidsOf(s, s.live);
    CountBelow(NASID, used);
    forall n: nat | n < NASID ensures n in used <==> Has(s.bitmap, n) {
      assert n in used <==> Used(s, n);
    }
  }

  /** Allocating an environment keeps ASIDs apart exactly when fewer than 64 are live. */
  lemma AllocKeepsApart(s: Asids, e: nat)
    requires AsidsOk(s) && e < |s.asid| && e !in s.live
    ensures AsidsOk(EnvAlloc(s, e)) <==> |s.live| < NASID
  {
    FullWhen64(s);
    var n := FirstClear(s.bitmap, 0);
    if n < NASID {
      FreshAsid(s, e, n);
    } else {
      assert Has(s.bitmap, s.asid[e]) && Used(s, s.asid[e]);
    }
  }

  lemma FreshAsid(s: Asids, e: nat, n: nat)
    requires AsidsOk(s) && e < |s.asid| && e !in s.live && n < NASID && !Has(s.bitmap, n)
    ensures AsidsOk(Asids(SetBit(s.bitmap, n), s.asid[e := n], s.live + {e}))
  {
    var s' := Asids(SetBit(s.bitmap, n), s.asid[e := n], s.live + {e});
    assert !Used(s, n);
    forall k: nat | k < NASID ensures Has(s'.bitmap, k) <==> Used(s', k) {
      SetBitMembers(s.bitmap, n, k);
      if Used(s, k) {
        var f :| f in s.live && s.asid[f] == k;
        assert f in s'.live && s'.asid[f] == k;
      }
      if k == n {
        assert e in s'.live && s'.asid[e] == k;
      }
    }
  }

  /** Freeing a live environment makes its ASID, and no other, available again. */
  lemma FreeKeepsApart(s: Asids, e: nat)
    requires AsidsOk(s) && e in s.live
    ensures AsidsOk(EnvFree(s, e)) && !Has(EnvFree(s, e).bitmap, s.asid[e])
  {
    var s' := EnvFree(s, e);
    ClearBitMembers(s.bitmap, s.asid[e], s.asid[e]);
    forall k: nat | k < NASID ensures Has(s'.bitmap, k) <==> Used(s', k) {
      ClearBitMembers(s.bitmap, s.asid[e], k);
      if Used(s, k) && k != s.asid[e] {
        var f :| f in s.live && s.asid[f] == k;
        assert f in s'.live && s'.asid[f] == k;
      }
    }
  }

  // ---------- environment ids ----------

  const NENV: nat := 1024
  const GENERATIONS: nat := 0x20_0000

  /** mkenvid, when its counter has reached i: the shift drops the upper bits of a 32-bit word. */
  function MkEnvId(i: nat, e: nat): nat
    requires e < NENV
  {
    i * 0x800 % 0x1_0000_0000 + e
  }

  datatype Slot = Slot(free: bool, id: nat, parent: nat)

  /** made: how often mkenvid has been called; maker: which of these calls made each env_id. */
  datatype Table = Table(slots: seq<Slot>, made: nat, maker: seq<nat>)

  predicate TableOk(t: Table) {
    && |t.slots| == |t.maker| == NENV
    && forall e: nat | e < NENV && !t.slots[e].free :: OwnId(t, e)
  }

  predicate OwnId(t: Table, e: nat)
    requires |t.slots| == |t.maker| == NENV && e < NENV
  {
    1 <= t.maker[e] <= t.made && t.slots[e].id == MkEnvId(t.maker[e], e)
  }

  /** envid2env: the index of the environment, or None for -E_BAD_ENV. */
  function Envid2Env(t: Table, cur: nat, envid: nat, check: bool): (r: Option<nat>)
    requires |t.slots| == NENV && cur < NENV
  {
    if envid == 0 then Some(cur)
    else
      var e := envid % NENV;
      if t.slots[e].free || t.slots[e].id != envid then None
      else if check && e != cur && t.slots[e].parent != t.slots[cur].id then None
      else Some(e)
  }

  /** env_alloc as far as ids go. */
  function Make(t: Table, e: nat, parent: nat): Table
    requires |t.slots| == |t.maker| == NENV && e < NENV
  {
    Table(t.slots[e := Slot(false, MkEnvId(t.made + 1, e), parent)], t.made + 1, t.maker[e := t.made + 1])
  }

  function Retire(t: Table, e: nat): Table
    requires |t.slots| == NENV && e < NENV
  {
    t.(slots := t.slots[e := t.slots[e].(free := true)])
  }

  lemma MakeKeepsTable(t: Table, e: nat, parent: nat)
    requires TableOk(t) && e < NENV
    ensures TableOk(Make(t, e, parent)) && TableOk(Retire(t, e))
  {
    forall x: nat | x < NENV && !Make(t, e, parent).slots[x].free ensures OwnId(Make(t, e, parent), x) {
      assert x != e ==> OwnId(t, x);
    }
    forall x: nat | x < NENV && !Retire(t, e).slots[x].free ensures OwnId(Retire(t, e), x) {
      assert OwnId(t, x);
    }
  }

  /** The shift by 11 bits keeps the lower 21 bits of the counter. */
  lemma Shifted(i: nat)
    ensures i * 0x800 % 0x1_0000_0000 == i % GENERATIONS * 0x800
  {
    var q, r := i / GENERATIONS, i % GENERATIONS;
    assert i == q * GENERATIONS + r;
    assert i * 0x800 == q * 0x1_0000_0000 + r * 0x800;
    WholeWords(q, r * 0x800);
  }

  lemma WholeWords(q: nat, x: nat)
    requires x < 0x1_0000_0000
    ensures (q * 0x1_0000_0000 + x) % 0x1_0000_0000 == x
  {
  }

  lemma LowPart(q: nat, e: nat)
    requires e < NENV
    ensures (q * NENV + e) % NENV == e
  {
  }

  lemma HighPart(r: nat, e: nat)
    requires e < NENV
    ensures (r * 0x800 + e) / 0x800 == r
  {
  }

  lemma IdParts(i: nat, e: nat)
    requires e < NENV
    ensures MkEnvId(i, e) % NENV == e && MkEnvId(i, e) / 0x800 == i % GENERATIONS
    ensures MkEnvId(i, e) == i % GENERATIONS * 0x800 + e
  {
    Shifted(i);
    LowPart(2 * (i % GENERATIONS), e);
    HighPart(i % GENERATIONS, e);
  }

  /** Two calls of mkenvid make the same id exactly for the same slot and counters that agree
      in their lower 21 bits. */
  lemma SameId(i: nat, e: nat, j: nat, f: nat)
    requires e < NENV && f < NENV
    ensures MkEnvId(i, e) == MkEnvId(j, f) <==> e == f && i % GENERATIONS == j % GENERATIONS
  {
    IdParts(i, e);
    IdParts(j, f);
  }

  // ---------- runs ----------

  /** Before the first env_alloc. */
  function NoEnvs(): Table {
    Table(seq(NENV, _ => Slot(true, 0, 0)), 0, seq(NENV, _ => 0))
  }

  /** env_alloc for a slot off the free list, and env_free. */
  datatype Op = Alloc(e: nat, parent: nat) | Free(e: nat)

  predicate CanDo(t: Table, op: Op)
    requires |t.slots| == |t.maker| == NENV
  {
    op.e < NENV && t.slots[op.e].free == op.Alloc?
  }

  function Do(t: Table, op: Op): (r: Table)
    requires |t.slots| == |t.maker| == NENV && CanDo(t, op)
    ensures |r.slots| == |r.maker| == NENV
  {
    match op
    case Alloc(e, parent) => Make(t, e, parent)
    case Free(e) => Retire(t, e)
  }

  predicate Runs(t: Table, ops: seq<Op>)
    requires |t.slots| == |t.maker| == NENV
    decreases |ops|
  {
    ops == [] || (CanDo(t, ops[0]) && Runs(Do(t, ops[0]), ops[1..]))
  }

  function After(t: Table, ops: seq<Op>): (r: Table)
    requires |t.slots| == |t.maker| == NENV && Runs(t, ops)
    ensures |r.slots| == |r.maker| == NENV
    decreases |ops|
  {
    if ops == [] then t else After(Do(t, ops[0]), ops[1..])
  }

  /** What a run leaves of a slot that was last given an id by call j. */
  lemma {:induction false} SlotAfter(t: Table, ops: seq<Op>, e: nat, j: nat)
    requires TableOk(t) && Runs(t, ops) && e < NENV && j <= t.made
    requires t.slots[e].free || t.maker[e] >= j
    ensures var t' := After(t, ops);
      && TableOk(t') && t.made <= t'.made
      && (t'.slots[e].free || t'.maker[e] >= j)
      && (t.slots[e].free || t.maker[e] > j ==> t'.slots[e].free || t'.maker[e] > j)
      && (!t.slots[e].free && Free(e) !in ops ==> t'.slots[e] == t.slots[e] && t'.maker[e] == t.maker[e])
      && (!t.slots[e].free && Free(e) in ops ==> t'.slots[e].free || t'.maker[e] > j)
    decreases |ops|
  {
    if ops != [] {
      MakeKeepsTable(t, ops[0].e, if ops[0].Alloc? then ops[0].parent else 0);
      SlotAfter(Do(t, ops[0]), ops[1..], e, j);
      assert Free(e) in ops <==> ops[0] == Free(e) || Free(e) in ops[1..];
    }
  }

  lemma NoEnvsOk(ops: seq<Op>)
    requires Runs(NoEnvs(), ops)
    ensures TableOk(After(NoEnvs(), ops))
  {
    SlotAfter(NoEnvs(), ops, 0, 0);
  }

  /** The id that env_alloc makes in a run, looked up at any later point of the run.  While the
      counter has not gone all the way round, the lookup finds the environment exactly until it
      is freed, and an error after that.  Exactly if the slot has been given away again by a
      call that many calls later, the id finds the later environment; and only in slot 0, at
      such a call, is the id the 0 that means the caller. */
  lemma IdFindsItsOwner(before: seq<Op>, e: nat, parent: nat, later: seq<Op>, cur: nat)
    requires Runs(NoEnvs(), before) && CanDo(After(NoEnvs(), before), Alloc(e, parent)) && cur < NENV
    requires Runs(Make(After(NoEnvs(), before), e, parent), later)
    ensures var t0 := Make(After(NoEnvs(), before), e, parent);
      var t, id := After(t0, later), t0.slots[e].id;
      && (id == 0 <==> e == 0 && t0.made % GENERATIONS == 0)
      && (id != 0 ==>
            Envid2Env(t, cur, id, false) ==
              if !t.slots[e].free && t.maker[e] % GENERATIONS == t0.made % GENERATIONS then Some(e) else None)
      && (id != 0 && t.made < t0.made + GENERATIONS ==>
            Envid2Env(t, cur, id, false) == if Free(e) in later then None else Some(e))
  {
    NoEnvsOk(before);
    var t0 := Make(After(NoEnvs(), before), e, parent);
    MakeKeepsTable(After(NoEnvs(), before), e, parent);
    SlotAfter(t0, later, e, t0.made);
    LookupById(After(t0, later), cur, t0.made, e);
  }

  /** With the permission test, as the calls on memory and on the state of others make it: while the
      counter has not gone all the way round, the id finds the environment only for itself and
      for the one whose id was given as its parent; and 0 always means the caller. */
  lemma OnlySelfAndParent(before: seq<Op>, e: nat, parent: nat, later: seq<Op>, cur: nat)
    requires Runs(NoEnvs(), before) && CanDo(After(NoEnvs(), before), Alloc(e, parent)) && cur < NENV
    requires Runs(Make(After(NoEnvs(), before), e, parent), later)
    ensures var t0 := Make(After(NoEnvs(), before), e, parent);
      var t, id := After(t0, later), t0.slots[e].id;
      && Envid2Env(t, cur, 0, true) == Some(cur)
      && (id != 0 && t.made < t0.made + GENERATIONS ==>
            Envid2Env(t, cur, id, true) ==
              if Free(e) !in later && (cur == e || t.slots[cur].id == parent) then Some(e) else None)
  {
    NoEnvsOk(before);
    var t0 := Make(After(NoEnvs(), before), e, parent);
    MakeKeepsTable(After(NoEnvs(), before), e, parent);
    SlotAfter(t0, later, e, t0.made);
    IdFindsItsOwner(before, e, parent, later, cur);
    IdParts(t0.made, e);
  }

  lemma LookupById(t: Table, cur: nat, j: nat, e: nat)
    requires TableOk(t) && cur < NENV && e < NENV && 1 <= j <= t.made
    ensures MkEnvId(j, e) == 0 <==> e == 0 && j % GENERATIONS == 0
    ensures MkEnvId(j, e) != 0 ==>
      Envid2Env(t, cur, MkEnvId(j, e), false) ==
        if !t.slots[e].free && t.maker[e] % GENERATIONS == j % GENERATIONS then Some(e) else None
    ensures !t.slots[e].free && j <= t.maker[e] && t.made < j + GENERATIONS ==>
      (t.maker[e] % GENERATIONS == j % GENERATIONS <==> t.maker[e] == j)
  {
    IdParts(j, e);
    if !t.slots[e].free {
      assert OwnId(t, e);
      SameId(t.maker[e], e, j, e);
    }
  }
}
