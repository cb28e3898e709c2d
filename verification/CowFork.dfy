/** Copy-on-write fork (user/lib/fork.c) over the plain map of VmView, against a fork that
    copies every private page at once. */
module CowFork {
  import opened Mmu
  import opened VmView

  const UCOW_PAGE: nat := VPN(UCOW)

  /** sys_mem_map refuses the pages below this one; fork looks at those below STACK_PAGES. */
  const FIRST_PAGE: nat := VPN(UTEMP)
  const STACK_PAGES: nat := VPN(USTACKTOP)

  /** Between the two sys_mem_map calls of duppage: which child and page, and the permissions
      the parent is about to give its own mapping. */
  datatype Pending = Pending(child: nat, vpn: nat, perm: Perm)

  /** pt: mappings of all spaces; mem: frames; pend: parents between two calls of duppage;
      embryos: children not yet runnable, with the parent that is building them; lost: pages of
      embryos that duppage tried to map and could not, without anybody noticing. */
  datatype Sys = Sys(pt: Mapping, mem: seq<Frame>, pend: map<nat, Pending>, embryos: map<nat, nat>, lost: set<VPage>)

  /** `p` is the frame the kernel hands out, for the events that need one; `room` says that it has
      a page table for the child's page, or a page for one. */
  datatype Event =
    | Touch(a: nat, v: nat, p: nat)                        // a load, page allocated on demand
    | Store(a: nat, v: nat, i: nat, w: Word, p: nat, q: nat) // a store, with its faults
    | StartFork(a: nat, c: nat)
    | DupFirst(a: nat, c: nat, v: nat, room: bool)
    | DupSecond(a: nat)
    | Protect(a: nat, v: nat)                              // the second call, when the first has failed
    | EndFork(c: nat)

  predicate Writable(perm: Perm) { perm.d || perm.cow }

  predicate Usable(s: Sys, p: nat) {
    p < |s.mem| && forall k | k in s.pt :: s.pt[k].ppn != p
  }

  /** duppage maps the page into the child with the parent's own permissions. */
  predicate SharedAsIs(perm: Perm) { !perm.d || perm.lib || perm.cow }

  /** The first call of duppage succeeds. */
  predicate Inherited(v: nat, room: bool) { FIRST_PAGE <= v && room }

  /** A page that users may touch; the kernel panics over a fault in the one above the stack. */
  predicate UserPage(v: nat, mapped: bool) {
    v < USER_PAGES && v != UCOW_PAGE && (mapped || v != STACK_PAGES)
  }

  predicate Enabled(s: Sys, ev: Event) {
    match ev
    case Touch(a, v, p) =>
      && a !in s.embryos && UserPage(v, VPage(a, v) in s.pt)
      && (VPage(a, v) !in s.pt ==> Usable(s, p))
    case Store(a, v, i, w, p, q) =>
      && a !in s.embryos && UserPage(v, VPage(a, v) in s.pt) && i < ENTRIES
      && (VPage(a, v) !in s.pt ==> Usable(s, p))
      // otherwise cow_entry panics, or is refused the page and the store faults for ever
      && (VPage(a, v) in s.pt && !s.pt[VPage(a, v)].perm.d ==>
            s.pt[VPage(a, v)].perm.cow && FIRST_PAGE <= v && Usable(s, q))
    case StartFork(a, c) =>
      a !in s.embryos && c !in s.embryos && c != a && (forall k | k in s.pt :: k.a != c)
      && (forall x | x in s.embryos :: s.embryos[x] != c) && c !in s.pend
    case DupFirst(a, c, v, _) =>
      && c in s.embryos && s.embryos[c] == a && a !in s.pend && v < STACK_PAGES
      && VPage(a, v) in s.pt && VPage(c, v) !in s.pt && VPage(c, v) !in s.lost  // fork tries a page once
    case DupSecond(a) => a in s.pend && VPage(a, s.pend[a].vpn) in s.pt
    case Protect(a, v) =>
      a !in s.embryos && a !in s.pend && VPage(a, v) in s.pt && !SharedAsIs(s.pt[VPage(a, v)].perm)
    case EndFork(c) => c in s.embryos && s.embryos[c] !in s.pend
  }

  // ---------- what the code does ----------

  /** Every mapping leads to a frame there is. */
  predicate Sane(s: Sys) {
    forall k | k in s.pt :: s.pt[k].ppn < |s.mem|
  }

  function MapWord(p: nat, perm: Perm): Word { Word(p, perm.(v := true)) }

  function DemandZero(s: Sys, a: nat, v: nat, p: nat): (r: Sys)
    requires VPage(a, v) !in s.pt ==> p < |s.mem|
  {
    if VPage(a, v) in s.pt then s
    else s.(pt := s.pt[VPage(a, v) := MapWord(p, NO_PERM.(d := true))], mem := s.mem[p := ZeroFrame()])
  }

  /** cow_entry: a copy at UCOW, mapped over the faulting page, then UCOW unmapped. */
  function CowEntry(s: Sys, a: nat, v: nat, q: nat): (r: Sys)
    requires VPage(a, v) in s.pt && s.pt[VPage(a, v)].ppn < |s.mem| && q < |s.mem|
  {
    var perm := s.pt[VPage(a, v)].perm.(cow := false, d := true);
    var copied := s.mem[q := s.mem[s.pt[VPage(a, v)].ppn]];
    s.(mem := copied,
       pt := s.pt[VPage(a, UCOW_PAGE) := MapWord(q, perm)][VPage(a, v) := MapWord(q, perm)] - {VPage(a, UCOW_PAGE)})
  }

  function WriteThrough(s: Sys, a: nat, v: nat, i: nat, w: Word): (r: Sys)
    requires VPage(a, v) in s.pt && s.pt[VPage(a, v)].ppn < |s.mem| && i < ENTRIES
  {
    var f := s.pt[VPage(a, v)].ppn;
    s.(mem := s.mem[f := s.mem[f][i := w]])
  }

  /** duppage does not look at the result of the call. */
  function DupFirstCall(s: Sys, a: nat, c: nat, v: nat, room: bool): (r: Sys)
    requires VPage(a, v) in s.pt
  {
    var word := s.pt[VPage(a, v)];
    if !Inherited(v, room) then s.(lost := s.lost + {VPage(c, v)})
    else if SharedAsIs(word.perm) then s.(pt := s.pt[VPage(c, v) := MapWord(word.ppn, word.perm)])
    else
      var perm := word.perm.(d := false, cow := true);
      s.(pt := s.pt[VPage(c, v) := MapWord(word.ppn, perm)], pend := s.pend[a := Pending(c, v, perm)])
  }

  function DupSecondCall(s: Sys, a: nat): (r: Sys)
    requires a in s.pend && VPage(a, s.pend[a].vpn) in s.pt
  {
    var k := VPage(a, s.pend[a].vpn);
    s.(pt := s.pt[k := MapWord(s.pt[k].ppn, s.pend[a].perm)], pend := s.pend - {a})
  }

  function ProtectCall(s: Sys, a: nat, v: nat): (r: Sys)
    requires VPage(a, v) in s.pt
  {
    var k := VPage(a, v);
    if v < FIRST_PAGE then s
    else s.(pt := s.pt[k := MapWord(s.pt[k].ppn, s.pt[k].perm.(d := false, cow := true))])
  }

  /** The pages of children other than c. */
  function NotOf(lost: set<VPage>, c: nat): set<VPage> {
    set k | k in lost && k.a != c
  }

  function Next(s: Sys, ev: Event): (r: Sys)
    requires Sane(s) && Enabled(s, ev)
    ensures Sane(r)
  {
    match ev
    case Touch(a, v, p) => DemandZero(s, a, v, p)
    case Store(a, v, i, w, p, q) =>
      var s1 := DemandZero(s, a, v, p);
      var s2 := if s1.pt[VPage(a, v)].perm.d then s1 else CowEntry(s1, a, v, q);
      WriteThrough(s2, a, v, i, w)
    case StartFork(a, c) => s.(embryos := s.embryos[c := a])
    case DupFirst(a, c, v, room) => DupFirstCall(s, a, c, v, room)
    case DupSecond(a) => DupSecondCall(s, a)
    case Protect(a, v) => ProtectCall(s, a, v)
    case EndFork(c) => s.(embryos := s.embryos - {c}, lost := NotOf(s.lost, c))
  }

  // ---------- the invariant on sharing ----------

  /** kc is the child's mapping of the page that the parent mapping kp is being shared as. */
  predicate PendingPair(s: Sys, kp: VPage, kc: VPage) {
    kp.a in s.pend && s.pend[kp.a].vpn == kp.v && kc == VPage(s.pend[kp.a].child, kp.v)
  }

  predicate IsPendingChild(s: Sys, k: VPage) {
    k.a in s.embryos && PendingPair(s, VPage(s.embryos[k.a], k.v), k)
  }

  ghost predicate WordsOk(s: Sys) {
    forall k | k in s.pt ::
      && s.pt[k].ppn < |s.mem| && s.pt[k].perm.v && k.v < USER_PAGES && k.v != UCOW_PAGE
      && !(s.pt[k].perm.cow && (s.pt[k].perm.d || s.pt[k].perm.lib))
  }

  /** A frame that can be written through one mapping has no other, unless both are library
      pages, or the other is that of a child the page is just being shared with. */
  ghost predicate SharingOk(s: Sys) {
    forall k1, k2 | k1 in s.pt && k2 in s.pt && k1 != k2 && s.pt[k1].ppn == s.pt[k2].ppn && s.pt[k1].perm.d ::
      (s.pt[k1].perm.lib && s.pt[k2].perm.lib) || PendingPair(s, k1, k2)
  }

  ghost predicate PendOk(s: Sys) {
    && (forall c | c in s.embryos :: s.embryos[c] !in s.embryos && c !in s.pend)
    && forall a | a in s.pend :: PendingOk(s, a)
  }

  predicate PendingOk(s: Sys, a: nat)
    requires a in s.pend
  {
    var d := s.pend[a];
    && d.child in s.embryos && s.embryos[d.child] == a && FIRST_PAGE <= d.vpn
    && VPage(a, d.vpn) in s.pt && VPage(d.child, d.vpn) in s.pt
    && s.pt[VPage(a, d.vpn)].ppn == s.pt[VPage(d.child, d.vpn)].ppn
    && s.pt[VPage(a, d.vpn)].perm.d && !s.pt[VPage(a, d.vpn)].perm.lib && !s.pt[VPage(a, d.vpn)].perm.cow
    && d.perm == s.pt[VPage(a, d.vpn)].perm.(d := false, cow := true)
    && s.pt[VPage(d.child, d.vpn)].perm == d.perm
  }

  ghost predicate Wf(s: Sys) {
    WordsOk(s) && SharingOk(s) && PendOk(s)
  }

  // ---------- eager copying ----------

  /** A page of the eager machine holds its own contents, or names a library frame. */
  datatype Page = Own(data: Frame, writable: bool) | Lib(frame: nat, writable: bool)

  datatype Eager = Eager(pages: map<VPage, Page>, shared: map<nat, Frame>)

  function EagerZero(e: Eager, a: nat, v: nat): Eager {
    if VPage(a, v) in e.pages then e else e.(pages := e.pages[VPage(a, v) := Own(ZeroFrame(), true)])
  }

  function EagerPut(e: Eager, a: nat, v: nat, i: nat, w: Word): Eager
    requires i < ENTRIES
  {
    var e1 := EagerZero(e, a, v);
    match e1.pages[VPage(a, v)]
    case Own(data, writable) => e1.(pages := e1.pages[VPage(a, v) := Own(data[i := w], writable)])
    case Lib(f, _) => if f in e1.shared then e1.(shared := e1.shared[f := e1.shared[f][i := w]]) else e1
  }

  /** The child gets a copy of its own of a private page, and the same library frame. */
  function EagerCopy(e: Eager, a: nat, c: nat, v: nat): Eager {
    if VPage(a, v) in e.pages then e.(pages := e.pages[VPage(c, v) := e.pages[VPage(a, v)]]) else e
  }

  /** The eager machine copies a page, wherever it is, when duppage finishes with it. */
  function EagerNext(e: Eager, s: Sys, ev: Event): Eager
    requires Enabled(s, ev)
  {
    match ev
    case Touch(a, v, _) => EagerZero(e, a, v)
    case Store(a, v, i, w, _, _) => EagerPut(e, a, v, i, w)
    case StartFork(_, _) => e
    case DupFirst(a, c, v, room) =>
      if SharedAsIs(s.pt[VPage(a, v)].perm) || !Inherited(v, room) then EagerCopy(e, a, c, v) else e
    case DupSecond(a) => EagerCopy(e, a, s.pend[a].child, s.pend[a].vpn)
    case Protect(_, _) => e
    case EndFork(_) => e
  }

  /** The page at k in one machine is what it is in the other. */
  ghost predicate SamePage(s: Sys, e: Eager, k: VPage)
    requires k in s.pt && s.pt[k].ppn < |s.mem| && k in e.pages
  {
    var w := s.pt[k];
    if w.perm.lib then
      e.pages[k] == Lib(w.ppn, Writable(w.perm)) && w.ppn in e.shared && e.shared[w.ppn] == s.mem[w.ppn]
    else
      e.pages[k] == Own(s.mem[w.ppn], Writable(w.perm))
  }

  /** What environment a finds at page v: the contents, or nothing if it has not touched it. */
  ghost function Reads(s: Sys, k: VPage): Option<Frame> {
    if k in s.pt && s.pt[k].ppn < |s.mem| then Some(s.mem[s.pt[k].ppn]) else None
  }

  ghost function EagerReads(e: Eager, k: VPage): Option<Frame> {
    if k !in e.pages then None
    else match e.pages[k]
      case Own(data, _) => Some(data)
      case Lib(f, _) => if f in e.shared then Some(e.shared[f]) else None
  }

  /** What is lost is missing to a child under construction. */
  ghost predicate LostOk(s: Sys) {
    forall k | k in s.lost :: k.a in s.embryos && k !in s.pt
  }

  /** The two machines show every page alike; a page half way through duppage is not the
      child's yet, and a lost one is there in the eager machine only. */
  ghost predicate Agree(s: Sys, e: Eager) {
    && Sane(s)
    && (forall k :: k in e.pages <==> (k in s.pt && !IsPendingChild(s, k)) || k in s.lost)
    && (forall k | k in e.pages && k !in s.lost :: SamePage(s, e, k))
    && LostOk(s)
    && forall k | k in s.lost :: EagerReads(e, k).Some?
  }

  ghost predicate Matches(s: Sys, e: Eager) {
    Wf(s) && Agree(s, e)
  }

  // ---------- one event ----------

  /** The mappings that the calls of duppage in progress are about have not changed. */
  lemma PendKept(s: Sys, s': Sys)
    requires PendOk(s) && s'.pend == s.pend && s'.embryos == s.embryos
    requires forall a | a in s.pend :: (
      var d := s.pend[a];
      && VPage(a, d.vpn) in s'.pt && VPage(d.child, d.vpn) in s'.pt
      && s'.pt[VPage(a, d.vpn)] == s.pt[VPage(a, d.vpn)] && s'.pt[VPage(d.child, d.vpn)] == s.pt[VPage(d.child, d.vpn)])
    ensures PendOk(s')
    ensures forall k :: IsPendingChild(s', k) == IsPendingChild(s, k)
    ensures forall k1, k2 :: PendingPair(s', k1, k2) == PendingPair(s, k1, k2)
  {
    forall x | x in s'.pend ensures PendingOk(s', x) {
      assert PendingOk(s, x);
    }
  }

  lemma RunnableIsNoPendingChild(s: Sys, k: VPage)
    requires k.a !in s.embryos
    ensures !IsPendingChild(s, k)
  {
  }

  /** Mapping k to a frame that no other page uses keeps the sharing discipline. */
  lemma FreshFrameSharing(s: Sys, s': Sys, k: VPage)
    requires SharingOk(s) && k in s'.pt && s'.pend == s.pend
    requires forall j | j in s'.pt && j != k :: j in s.pt && s'.pt[j] == s.pt[j] && s.pt[j].ppn != s'.pt[k].ppn
    ensures SharingOk(s')
  {
    forall k1, k2 | k1 in s'.pt && k2 in s'.pt && k1 != k2
      && s'.pt[k1].ppn == s'.pt[k2].ppn && s'.pt[k1].perm.d
      ensures (s'.pt[k1].perm.lib && s'.pt[k2].perm.lib) || PendingPair(s', k1, k2)
    {
      assert k1 != k && k2 != k;
    }
  }

  ghost predicate SamePending(s: Sys, s': Sys) {
    forall k :: IsPendingChild(s', k) == IsPendingChild(s, k)
  }

  lemma ZeroWf(s: Sys, a: nat, v: nat, p: nat)
    requires Wf(s) && a !in s.embryos && v < USER_PAGES && v != UCOW_PAGE && VPage(a, v) !in s.pt && Usable(s, p)
    ensures Wf(DemandZero(s, a, v, p)) && SamePending(s, DemandZero(s, a, v, p))
  {
    var s' := DemandZero(s, a, v, p);
    FreshFrameSharing(s, s', VPage(a, v));
    assert forall x | x in s.pend :: PendingOk(s, x);
    PendKept(s, s');
  }

  /** Pages other than k, mapped as before to frames with the same contents, still agree. */
  lemma SamePagesElsewhere(s: Sys, e: Eager, s': Sys, e': Eager, k: VPage)
    requires Agree(s, e) && Sane(s') && s'.lost == s.lost && e'.shared == e.shared
    requires forall j | j in e'.pages && j != k :: j in e.pages && e'.pages[j] == e.pages[j]
    requires forall j | j in e.pages && j !in s.lost && j != k ::
      j in s'.pt && s'.pt[j] == s.pt[j] && s'.mem[s.pt[j].ppn] == s.mem[s.pt[j].ppn]
    ensures forall j | j in e'.pages && j !in s.lost && j != k :: j in s'.pt && SamePage(s', e', j)
  {
    forall j | j in e'.pages && j !in s.lost && j != k ensures j in s'.pt && SamePage(s', e', j) {
      assert SamePage(s, e, j);
    }
  }

  lemma ZeroMatches(s: Sys, e: Eager, a: nat, v: nat, p: nat)
    requires Matches(s, e) && a !in s.embryos && v < USER_PAGES && v != UCOW_PAGE
    requires VPage(a, v) !in s.pt ==> Usable(s, p)
    ensures Matches(DemandZero(s, a, v, p), EagerZero(e, a, v))
  {
    if VPage(a, v) !in s.pt {
      var s', e' := DemandZero(s, a, v, p), EagerZero(e, a, v);
      ZeroWf(s, a, v, p);
      ZeroAgree(s, e, a, v, p);
    }
  }

  lemma ZeroAgree(s: Sys, e: Eager, a: nat, v: nat, p: nat)
    requires Agree(s, e) && a !in s.embryos && VPage(a, v) !in s.pt && Usable(s, p)
    requires SamePending(s, DemandZero(s, a, v, p))
    ensures Agree(DemandZero(s, a, v, p), EagerZero(e, a, v))
  {
    RunnableIsNoPendingChild(s, VPage(a, v));
    MorePages(s, e, DemandZero(s, a, v, p), EagerZero(e, a, v), VPage(a, v));
    SamePagesElsewhere(s, e, DemandZero(s, a, v, p), EagerZero(e, a, v), VPage(a, v));
  }

  lemma CowWf(s: Sys, a: nat, v: nat, q: nat)
    requires Wf(s) && a !in s.embryos && v != UCOW_PAGE
    requires VPage(a, v) in s.pt && s.pt[VPage(a, v)].perm.cow && Usable(s, q)
    ensures Wf(CowEntry(s, a, v, q)) && SamePending(s, CowEntry(s, a, v, q))
    ensures CowEntry(s, a, v, q).pt.Keys == s.pt.Keys
  {
    var s' := CowEntry(s, a, v, q);
    FreshFrameSharing(s, s', VPage(a, v));
    assert forall x | x in s.pend :: PendingOk(s, x);
    PendKept(s, s');
  }

  lemma CowAgree(s: Sys, e: Eager, a: nat, v: nat, q: nat)
    requires Agree(s, e) && VPage(a, v) in s.pt && Usable(s, q) && v != UCOW_PAGE
    requires s.pt[VPage(a, v)].perm.cow && !s.pt[VPage(a, v)].perm.lib
    requires SamePending(s, CowEntry(s, a, v, q)) && CowEntry(s, a, v, q).pt.Keys == s.pt.Keys
    ensures Agree(CowEntry(s, a, v, q), e)
  {
    SamePagesElsewhere(s, e, CowEntry(s, a, v, q), e, VPage(a, v));
    if VPage(a, v) in e.pages {
      assert SamePage(s, e, VPage(a, v));
    }
  }

  lemma CowMatches(s: Sys, e: Eager, a: nat, v: nat, q: nat)
    requires Matches(s, e) && a !in s.embryos && v != UCOW_PAGE
    requires VPage(a, v) in s.pt && s.pt[VPage(a, v)].perm.cow && Usable(s, q)
    ensures Matches(CowEntry(s, a, v, q), e) && CowEntry(s, a, v, q).pt[VPage(a, v)].perm.d
  {
    CowWf(s, a, v, q);
    CowAgree(s, e, a, v, q);
  }

  lemma WriteWf(s: Sys, a: nat, v: nat, i: nat, w: Word)
    requires Wf(s) && i < ENTRIES && VPage(a, v) in s.pt
    ensures Wf(WriteThrough(s, a, v, i, w)) && SamePending(s, WriteThrough(s, a, v, i, w))
  {
    assert forall x | x in s.pend :: PendingOk(s, x);
    PendKept(s, WriteThrough(s, a, v, i, w));
  }

  lemma WriteMatches(s: Sys, e: Eager, a: nat, v: nat, i: nat, w: Word)
    requires Matches(s, e) && a !in s.embryos && i < ENTRIES
    requires VPage(a, v) in s.pt && s.pt[VPage(a, v)].perm.d
    ensures Matches(WriteThrough(s, a, v, i, w), EagerPut(e, a, v, i, w))
  {
    WriteWf(s, a, v, i, w);
    RunnableIsNoPendingChild(s, VPage(a, v));
    var s', e' := WriteThrough(s, a, v, i, w), EagerPut(e, a, v, i, w);
    assert SamePage(s, e, VPage(a, v));
    forall k | k in e'.pages && k !in s.lost ensures SamePage(s', e', k) {
      WriteSamePage(s, e, a, v, i, w, k);
    }
  }

  /** What a store to (a, v) does to one page k of the two machines. */
  lemma WriteSamePage(s: Sys, e: Eager, a: nat, v: nat, i: nat, w: Word, k: VPage)
    requires Sane(s) && SharingOk(s) && PendOk(s) && i < ENTRIES
    requires VPage(a, v) in s.pt && s.pt[VPage(a, v)].perm.d && VPage(a, v) in e.pages && SamePage(s, e, VPage(a, v))
    requires k in s.pt && k in e.pages && SamePage(s, e, k) && !IsPendingChild(s, k)
    ensures SamePage(WriteThrough(s, a, v, i, w), EagerPut(e, a, v, i, w), k)
  {
    if k != VPage(a, v) && s.pt[k].ppn == s.pt[VPage(a, v)].ppn
      && !(s.pt[k].perm.lib && s.pt[VPage(a, v)].perm.lib) {
      WritableNotShared(s, a, v, k);
    }
  }

  /** A private page that can be written is seen by nobody else, save a half-shared child. */
  lemma WritableNotShared(s: Sys, a: nat, v: nat, k: VPage)
    requires SharingOk(s) && PendOk(s) && VPage(a, v) in s.pt && s.pt[VPage(a, v)].perm.d
    requires k in s.pt && k != VPage(a, v) && s.pt[k].ppn == s.pt[VPage(a, v)].ppn
    requires !(s.pt[k].perm.lib && s.pt[VPage(a, v)].perm.lib)
    ensures IsPendingChild(s, k)
  {
    assert PendingPair(s, VPage(a, v), k);
    assert PendingOk(s, a);
  }

  lemma StoreMatches(s: Sys, e: Eager, ev: Event)
    requires Matches(s, e) && Enabled(s, ev) && ev.Store?
    ensures Matches(Next(s, ev), EagerNext(e, s, ev))
  {
    var Store(a, v, i, w, p, q) := ev;
    ZeroMatches(s, e, a, v, p);
    var s1, e1 := DemandZero(s, a, v, p), EagerZero(e, a, v);
    RunnableIsNoPendingChild(s1, VPage(a, v));
    if !s1.pt[VPage(a, v)].perm.d {
      CowMatches(s1, e1, a, v, q);
      WriteMatches(CowEntry(s1, a, v, q), e1, a, v, i, w);
    } else {
      WriteMatches(s1, e1, a, v, i, w);
    }
  }

  lemma EmbryoPend(s: Sys, s': Sys, c: nat)
    requires PendOk(s) && s'.pt == s.pt && s'.pend == s.pend
    requires forall x | x != c ::
      (x in s'.embryos <==> x in s.embryos) && (x in s.embryos ==> s'.embryos[x] == s.embryos[x])
    requires forall x | x in s'.embryos :: s'.embryos[x] !in s'.embryos && x !in s.pend
    requires forall a | a in s.pend :: s.pend[a].child != c
    ensures PendOk(s') && SamePending(s, s')
  {
    forall x | x in s'.pend ensures PendingOk(s', x) {
      assert PendingOk(s, x);
    }
    forall k ensures IsPendingChild(s', k) == IsPendingChild(s, k) {
      if k.a != c {
        assert k.a in s'.embryos <==> k.a in s.embryos;
      }
    }
  }

  lemma SamePtSharing(s: Sys, s': Sys)
    requires SharingOk(s) && s'.pt == s.pt && s'.pend == s.pend
    ensures SharingOk(s')
  {
    forall k1, k2 | k1 in s'.pt && k2 in s'.pt && k1 != k2
      && s'.pt[k1].ppn == s'.pt[k2].ppn && s'.pt[k1].perm.d
      ensures (s'.pt[k1].perm.lib && s'.pt[k2].perm.lib) || PendingPair(s', k1, k2)
    {
      assert PendingPair(s', k1, k2) == PendingPair(s, k1, k2);
    }
  }

  /** Only the set of children under construction changes. */
  lemma EmbryoMatches(s: Sys, s': Sys, e: Eager, c: nat)
    requires Matches(s, e) && s'.pt == s.pt && s'.mem == s.mem && s'.pend == s.pend
    requires forall x | x != c ::
      (x in s'.embryos <==> x in s.embryos) && (x in s.embryos ==> s'.embryos[x] == s.embryos[x])
    requires forall x | x in s'.embryos :: s'.embryos[x] !in s'.embryos && x !in s.pend
    requires forall a | a in s.pend :: s.pend[a].child != c
    requires s'.lost == s.lost && forall k | k in s.lost :: k.a in s'.embryos
    ensures Matches(s', e)
  {
    SamePtSharing(s, s');
    EmbryoPend(s, s', c);
    EmbryoAgree(s, s', e);
  }

  lemma EmbryoAgree(s: Sys, s': Sys, e: Eager)
    requires Agree(s, e) && s'.pt == s.pt && s'.mem == s.mem && SamePending(s, s')
    requires s'.lost == s.lost && forall k | k in s.lost :: k.a in s'.embryos
    ensures Agree(s', e)
  {
    forall k | k in e.pages && k !in s.lost ensures SamePage(s', e, k) {
      assert SamePage(s, e, k);
    }
  }

  /** Fork begins or ends the construction of a child about which nothing is pending. */
  lemma ForkMatches(s: Sys, e: Eager, ev: Event, c: nat)
    requires Matches(s, e) && Enabled(s, ev)
    requires (ev == EndFork(c) && NotOf(s.lost, c) == s.lost) || (ev.StartFork? && ev.c == c)
    ensures Matches(Next(s, ev), e)
  {
    forall x | x in s.pend ensures s.pend[x].child != c {
      assert PendingOk(s, x);
    }
    EmbryoMatches(s, Next(s, ev), e, c);
  }

  /** From s to s' the child has been given, at kc, the parent's frame at ka, not writable unless
      both are library pages. */
  ghost predicate CopiedMapping(s: Sys, s': Sys, ka: VPage, kc: VPage)
    requires kc in s'.pt
  {
    && ka in s.pt && ka.a !in s.embryos && kc !in s.pt
    && s'.pt == s.pt[kc := s'.pt[kc]] && s'.pt[kc].ppn == s.pt[ka].ppn && s'.pt[kc].perm.lib == s.pt[ka].perm.lib
    && (s'.pt[kc].perm.d ==> s'.pt[kc].perm.lib && s.pt[ka].perm.d)
    && (s.pt[ka].perm.d && !s.pt[ka].perm.lib ==> PendingPair(s', ka, kc) && ka.a !in s.pend)
    && (forall k1, k2 | PendingPair(s, k1, k2) :: PendingPair(s', k1, k2))
  }

  lemma ParentIsNoPendingChild(s: Sys, k: VPage, ka: VPage)
    requires PendOk(s) && ka.a !in s.embryos
    ensures !PendingPair(s, k, ka)
  {
    assert k.a in s.pend ==> PendingOk(s, k.a);
  }

  lemma CopiedPair(s: Sys, s': Sys, ka: VPage, kc: VPage, k: VPage)
    requires SharingOk(s) && PendOk(s) && kc in s'.pt && CopiedMapping(s, s', ka, kc)
    requires k in s.pt && k != ka && s.pt[k].ppn == s.pt[ka].ppn
    ensures s.pt[k].perm.d ==> s.pt[k].perm.lib && s.pt[ka].perm.lib
    ensures s'.pt[kc].perm.d ==> s.pt[k].perm.lib
  {
    ParentIsNoPendingChild(s, k, ka);
  }

  lemma CopiedMappingSharing(s: Sys, s': Sys, ka: VPage, kc: VPage)
    requires SharingOk(s) && PendOk(s) && kc in s'.pt && CopiedMapping(s, s', ka, kc)
    ensures SharingOk(s')
  {
    forall k1, k2 | k1 in s'.pt && k2 in s'.pt && k1 != k2
      && s'.pt[k1].ppn == s'.pt[k2].ppn && s'.pt[k1].perm.d
      ensures (s'.pt[k1].perm.lib && s'.pt[k2].perm.lib) || PendingPair(s', k1, k2)
    {
      if k1 == kc && k2 != ka {
        CopiedPair(s, s', ka, kc, k2);
      } else if k2 == kc && k1 != ka {
        CopiedPair(s, s', ka, kc, k1);
      } else if k1 != kc && k2 != kc {
        assert (s.pt[k1].perm.lib && s.pt[k2].perm.lib) || PendingPair(s, k1, k2);
      }
    }
  }

  /** The call that maps a's page v into c is made, and succeeds. */
  predicate Gives(s: Sys, a: nat, c: nat, v: nat) {
    Enabled(s, DupFirst(a, c, v, true)) && FIRST_PAGE <= v
  }

  lemma DupAsIsWf(s: Sys, a: nat, c: nat, v: nat)
    requires Wf(s) && Gives(s, a, c, v) && SharedAsIs(s.pt[VPage(a, v)].perm)
    ensures Wf(DupFirstCall(s, a, c, v, true)) && SamePending(s, DupFirstCall(s, a, c, v, true))
  {
    var s' := DupFirstCall(s, a, c, v, true);
    CopiedMappingSharing(s, s', VPage(a, v), VPage(c, v));
    assert forall x | x in s.pend :: PendingOk(s, x);
    PendKept(s, s');
  }

  lemma DupAsIsAgree(s: Sys, e: Eager, a: nat, c: nat, v: nat)
    requires Agree(s, e) && Gives(s, a, c, v) && SharedAsIs(s.pt[VPage(a, v)].perm)
    requires s.pt[VPage(a, v)].perm.v && !IsPendingChild(s, VPage(a, v)) && !IsPendingChild(s, VPage(c, v))
    requires SamePending(s, DupFirstCall(s, a, c, v, true))
    ensures Agree(DupFirstCall(s, a, c, v, true), EagerCopy(e, a, c, v))
  {
    var s', e' := DupFirstCall(s, a, c, v, true), EagerCopy(e, a, c, v);
    MorePages(s, e, s', e', VPage(c, v));
    CopyKeepsLost(s, e, a, c, v);
    forall k | k in e'.pages && k !in s.lost ensures SamePage(s', e', k) {
      DupAsIsSamePage(s, e, a, c, v, k);
    }
  }

  /** Both machines gain page k. */
  lemma MorePages(s: Sys, e: Eager, s': Sys, e': Eager, k: VPage)
    requires Agree(s, e) && SamePending(s, s') && !IsPendingChild(s, k) && s'.lost == s.lost
    requires s'.pt.Keys == s.pt.Keys + {k} && e'.pages.Keys == e.pages.Keys + {k}
    ensures forall j :: j in e'.pages <==> (j in s'.pt && !IsPendingChild(s', j)) || j in s'.lost
  {
  }

  /** A copy of a page that is not lost changes nothing about the lost ones. */
  lemma CopyKeepsLost(s: Sys, e: Eager, a: nat, c: nat, v: nat)
    requires VPage(c, v) !in s.lost
    ensures forall k | k in s.lost :: EagerReads(EagerCopy(e, a, c, v), k) == EagerReads(e, k)
  {
  }

  lemma DupAsIsSamePage(s: Sys, e: Eager, a: nat, c: nat, v: nat, k: VPage)
    requires Agree(s, e) && VPage(a, v) in e.pages && VPage(a, v) in s.pt && SharedAsIs(s.pt[VPage(a, v)].perm)
    requires s.pt[VPage(a, v)].perm.v && VPage(c, v) !in s.pt && FIRST_PAGE <= v
    requires VPage(a, v) !in s.lost && k !in s.lost && (k in e.pages || k == VPage(c, v))
    ensures var s', e' := DupFirstCall(s, a, c, v, true), EagerCopy(e, a, c, v);
      k in s'.pt && s'.pt[k].ppn < |s'.mem| && k in e'.pages && SamePage(s', e', k)
  {
    assert SamePage(s, e, VPage(a, v));
    if k in e.pages {
      assert SamePage(s, e, k);
    }
  }

  /** After the first of the two calls the child's mapping is pending, and hidden. */
  lemma DupHalfPend(s: Sys, a: nat, c: nat, v: nat)
    requires Sane(s) && WordsOk(s) && PendOk(s) && Gives(s, a, c, v) && !SharedAsIs(s.pt[VPage(a, v)].perm)
    ensures var s' := Next(s, DupFirst(a, c, v, true));
      && PendOk(s') && IsPendingChild(s', VPage(c, v))
      && forall k | k != VPage(c, v) :: IsPendingChild(s', k) == IsPendingChild(s, k)
  {
    var s' := Next(s, DupFirst(a, c, v, true));
    forall x | x in s'.pend ensures PendingOk(s', x) {
      if x != a {
        assert PendingOk(s, x);
      }
    }
  }

  lemma DupHalfWf(s: Sys, a: nat, c: nat, v: nat)
    requires Wf(s) && Gives(s, a, c, v) && !SharedAsIs(s.pt[VPage(a, v)].perm)
    ensures Wf(DupFirstCall(s, a, c, v, true))
  {
    DupHalfPend(s, a, c, v);
    CopiedMappingSharing(s, DupFirstCall(s, a, c, v, true), VPage(a, v), VPage(c, v));
  }

  lemma DupHalfAgree(s: Sys, e: Eager, a: nat, c: nat, v: nat)
    requires Agree(s, e) && Gives(s, a, c, v) && !SharedAsIs(s.pt[VPage(a, v)].perm)
    requires var s' := DupFirstCall(s, a, c, v, true);
      IsPendingChild(s', VPage(c, v)) && forall k | k != VPage(c, v) :: IsPendingChild(s', k) == IsPendingChild(s, k)
    ensures Agree(DupFirstCall(s, a, c, v, true), e)
  {
    SamePagesElsewhere(s, e, DupFirstCall(s, a, c, v, true), e, VPage(c, v));
  }

  /** The second call ends what was pending about the child's page, and nothing else. */
  lemma DupSecondPend(s: Sys, a: nat)
    requires PendOk(s) && Enabled(s, DupSecond(a))
    ensures PendOk(DupSecondCall(s, a))
    ensures !IsPendingChild(DupSecondCall(s, a), VPage(s.pend[a].child, s.pend[a].vpn))
    ensures forall k | k != VPage(s.pend[a].child, s.pend[a].vpn) ::
      IsPendingChild(DupSecondCall(s, a), k) == IsPendingChild(s, k)
  {
    var s' := DupSecondCall(s, a);
    assert PendingOk(s, a);
    forall x | x in s'.pend ensures PendingOk(s', x) {
      assert PendingOk(s, x);
    }
  }

  lemma DupSecondSharing(s: Sys, a: nat)
    requires SharingOk(s) && PendOk(s) && Enabled(s, DupSecond(a))
    ensures SharingOk(DupSecondCall(s, a))
  {
    var s' := DupSecondCall(s, a);
    assert PendingOk(s, a);
    forall k1, k2 | k1 in s'.pt && k2 in s'.pt && k1 != k2
      && s'.pt[k1].ppn == s'.pt[k2].ppn && s'.pt[k1].perm.d
      ensures (s'.pt[k1].perm.lib && s'.pt[k2].perm.lib) || PendingPair(s', k1, k2)
    {
      assert s.pt[k1].ppn == s.pt[k2].ppn;
    }
  }

  lemma DupSecondWf(s: Sys, a: nat)
    requires Wf(s) && Enabled(s, DupSecond(a))
    ensures Wf(DupSecondCall(s, a))
  {
    assert PendingOk(s, a);
    DupSecondPend(s, a);
    DupSecondSharing(s, a);
  }

  lemma DupSecondAgree(s: Sys, e: Eager, a: nat)
    requires Agree(s, e) && PendOk(s) && Enabled(s, DupSecond(a))
    ensures Agree(DupSecondCall(s, a), EagerCopy(e, a, s.pend[a].child, s.pend[a].vpn))
  {
    var s', e' := DupSecondCall(s, a), EagerCopy(e, a, s.pend[a].child, s.pend[a].vpn);
    DupSecondKeys(s, e, a);
    forall k | k in e'.pages && k !in s.lost ensures SamePage(s', e', k) {
      DupSecondSamePage(s, e, a, k);
    }
  }

  lemma DupSecondKeys(s: Sys, e: Eager, a: nat)
    requires Agree(s, e) && PendOk(s) && Enabled(s, DupSecond(a))
    ensures PendingOk(s, a) && VPage(a, s.pend[a].vpn) in e.pages && VPage(a, s.pend[a].vpn) !in s.lost
    ensures var s', e' := DupSecondCall(s, a), EagerCopy(e, a, s.pend[a].child, s.pend[a].vpn);
      && (forall k :: k in e'.pages <==> (k in s'.pt && !IsPendingChild(s', k)) || k in s'.lost)
      && e'.pages.Keys == e.pages.Keys + {VPage(s.pend[a].child, s.pend[a].vpn)}
      && LostOk(s') && (forall k | k in s'.lost :: EagerReads(e', k) == EagerReads(e, k))
  {
    assert PendingOk(s, a);
    RunnableIsNoPendingChild(s, VPage(a, s.pend[a].vpn));
    CopyKeepsLost(s, e, a, s.pend[a].child, s.pend[a].vpn);
    DupSecondPend(s, a);
    assert DupSecondCall(s, a).pt.Keys == s.pt.Keys;
  }

  lemma DupSecondSamePage(s: Sys, e: Eager, a: nat, k: VPage)
    requires Agree(s, e) && Enabled(s, DupSecond(a)) && PendingOk(s, a) && VPage(a, s.pend[a].vpn) in e.pages
    requires k !in s.lost && VPage(a, s.pend[a].vpn) !in s.lost
    requires k in e.pages || k == VPage(s.pend[a].child, s.pend[a].vpn)
    ensures var s', e' := DupSecondCall(s, a), EagerCopy(e, a, s.pend[a].child, s.pend[a].vpn);
      k in s'.pt && s'.pt[k].ppn < |s'.mem| && k in e'.pages && SamePage(s', e', k)
  {
    assert SamePage(s, e, VPage(a, s.pend[a].vpn));
    if k in e.pages {
      assert SamePage(s, e, k);
    }
  }

  /** A page that duppage fails to map is the child's in the eager machine only. */
  lemma LostMatches(s: Sys, e: Eager, a: nat, c: nat, v: nat, room: bool)
    requires Matches(s, e) && Enabled(s, DupFirst(a, c, v, room)) && !Inherited(v, room)
    ensures Matches(DupFirstCall(s, a, c, v, room), EagerCopy(e, a, c, v))
  {
    var s', e' := DupFirstCall(s, a, c, v, room), EagerCopy(e, a, c, v);
    assert forall x | x in s.pend :: PendingOk(s, x);
    PendKept(s, s');
    SamePtSharing(s, s');
    RunnableIsNoPendingChild(s, VPage(a, v));
    assert SamePage(s, e, VPage(a, v));
    forall k | k in e'.pages && k !in s'.lost ensures SamePage(s', e', k) {
      assert SamePage(s, e, k);
    }
  }

  /** Its parent's page becomes copy-on-write all the same. */
  lemma ProtectMatches(s: Sys, e: Eager, a: nat, v: nat)
    requires Matches(s, e) && Enabled(s, Protect(a, v))
    ensures Matches(ProtectCall(s, a, v), e)
  {
    if FIRST_PAGE <= v {
      ProtectPend(s, a, v);
      ProtectSharing(s, a, v);
      ProtectAgree(s, e, a, v);
    }
  }

  lemma ProtectPend(s: Sys, a: nat, v: nat)
    requires PendOk(s) && Enabled(s, Protect(a, v))
    ensures PendOk(ProtectCall(s, a, v)) && SamePending(s, ProtectCall(s, a, v))
  {
    assert forall x | x in s.pend :: PendingOk(s, x);
    PendKept(s, ProtectCall(s, a, v));
  }

  lemma ProtectAgree(s: Sys, e: Eager, a: nat, v: nat)
    requires Agree(s, e) && Enabled(s, Protect(a, v)) && s.pt[VPage(a, v)].perm.v
    requires SamePending(s, ProtectCall(s, a, v))
    ensures Agree(ProtectCall(s, a, v), e)
  {
    var s', k := ProtectCall(s, a, v), VPage(a, v);
    SamePagesElsewhere(s, e, s', e, k);
    RunnableIsNoPendingChild(s, k);
    assert SamePage(s, e, k);
  }

  lemma ProtectSharing(s: Sys, a: nat, v: nat)
    requires SharingOk(s) && Enabled(s, Protect(a, v))
    ensures SharingOk(ProtectCall(s, a, v))
  {
    var s' := ProtectCall(s, a, v);
    forall k1, k2 | k1 in s'.pt && k2 in s'.pt && k1 != k2
      && s'.pt[k1].ppn == s'.pt[k2].ppn && s'.pt[k1].perm.d
      ensures (s'.pt[k1].perm.lib && s'.pt[k2].perm.lib) || PendingPair(s', k1, k2)
    {
      assert s.pt[k1].ppn == s.pt[k2].ppn && s.pt[k1].perm.d;
    }
  }

  /** No child is released by this event while pages of it are lost. */
  predicate Spares(s: Sys, ev: Event) {
    ev.EndFork? ==> NotOf(s.lost, ev.c) == s.lost
  }

  /** Every event keeps the two machines alike, a child released without all its pages apart. */
  lemma NextMatches(s: Sys, e: Eager, ev: Event)
    requires Matches(s, e) && Enabled(s, ev) && Spares(s, ev)
    ensures Matches(Next(s, ev), EagerNext(e, s, ev))
  {
    match ev
    case Touch(a, v, p) => ZeroMatches(s, e, a, v, p);
    case Store(_, _, _, _, _, _) => StoreMatches(s, e, ev);
    case StartFork(a, c) => ForkMatches(s, e, ev, c);
    case DupFirst(a, c, v, room) =>
      if !Inherited(v, room) {
        LostMatches(s, e, a, c, v, room);
      } else if SharedAsIs(s.pt[VPage(a, v)].perm) {
        DupAsIsWf(s, a, c, v);
        RunnableIsNoPendingChild(s, VPage(a, v));
        DupAsIsAgree(s, e, a, c, v);
      } else {
        DupHalfWf(s, a, c, v);
        DupHalfPend(s, a, c, v);
        DupHalfAgree(s, e, a, c, v);
      }
    case DupSecond(a) =>
      DupSecondWf(s, a);
      DupSecondAgree(s, e, a);
    case Protect(a, v) => ProtectMatches(s, e, a, v);
    case EndFork(c) => ForkMatches(s, e, ev, c);
  }

  // ---------- whole runs ----------

  ghost predicate Runs(s: Sys, evs: seq<Event>)
    requires Sane(s)
    decreases |evs|
  {
    evs == [] || (Enabled(s, evs[0]) && Runs(Next(s, evs[0]), evs[1..]))
  }

  ghost function After(s: Sys, evs: seq<Event>): Sys
    requires Sane(s) && Runs(s, evs)
    decreases |evs|
  {
    if evs == [] then s else After(Next(s, evs[0]), evs[1..])
  }

  ghost function EagerAfter(e: Eager, s: Sys, evs: seq<Event>): Eager
    requires Sane(s) && Runs(s, evs)
    decreases |evs|
  {
    if evs == [] then e else EagerAfter(EagerNext(e, s, evs[0]), Next(s, evs[0]), evs[1..])
  }

  /** No child is released in the run while pages of it are lost. */
  ghost predicate Whole(s: Sys, evs: seq<Event>)
    requires Sane(s) && Runs(s, evs)
    decreases |evs|
  {
    evs == [] || (Spares(s, evs[0]) && Whole(Next(s, evs[0]), evs[1..]))
  }

  /** The two machines show every runnable environment the same. */
  ghost predicate SameReads(s: Sys, e: Eager) {
    forall k: VPage | k.a !in s.embryos :: Reads(s, k) == EagerReads(e, k)
  }

  lemma MatchesSameReads(s: Sys, e: Eager)
    requires Matches(s, e)
    ensures SameReads(s, e)
  {
    forall k: VPage | k.a !in s.embryos ensures Reads(s, k) == EagerReads(e, k) {
      RunnableIsNoPendingChild(s, k);
      if k in e.pages {
        assert SamePage(s, e, k);
      }
    }
  }

  /** Copy-on-write refines eager copying: after any run that releases no child with lost pages,
      every runnable environment reads, at every page, what it would read had fork copied each
      private page. */
  lemma {:induction false} RunMatches(s: Sys, e: Eager, evs: seq<Event>)
    requires Matches(s, e) && Runs(s, evs) && Whole(s, evs)
    ensures Matches(After(s, evs), EagerAfter(e, s, evs)) && SameReads(After(s, evs), EagerAfter(e, s, evs))
    decreases |evs|
  {
    if evs != [] {
      NextMatches(s, e, evs[0]);
      RunMatches(Next(s, evs[0]), EagerNext(e, s, evs[0]), evs[1..]);
    } else {
      MatchesSameReads(s, e);
    }
  }

  /** The two machines show the same at every moment of the run. */
  ghost predicate SameThroughout(s: Sys, e: Eager, evs: seq<Event>)
    requires Sane(s) && Runs(s, evs)
    decreases |evs|
  {
    SameReads(s, e) && (evs == [] || SameThroughout(Next(s, evs[0]), EagerNext(e, s, evs[0]), evs[1..]))
  }

  /** A child that is released without one of its pages reads nothing there. */
  lemma ReleasedShort(s: Sys, e: Eager, c: nat)
    requires Matches(s, e) && Enabled(s, EndFork(c)) && !Spares(s, EndFork(c))
    ensures !SameReads(Next(s, EndFork(c)), e)
  {
    var k :| k in s.lost && k.a == c;
    assert Reads(Next(s, EndFork(c)), k) == None && EagerReads(e, k).Some?;
  }

  /** A run shows everybody what eager copying does, from the first moment to the last, if and
      only if it releases no child with lost pages. */
  lemma {:induction false} SameExactlyWhenWhole(s: Sys, e: Eager, evs: seq<Event>)
    requires Matches(s, e) && Runs(s, evs)
    ensures SameThroughout(s, e, evs) <==> Whole(s, evs)
    decreases |evs|
  {
    MatchesSameReads(s, e);
    if evs != [] {
      if Spares(s, evs[0]) {
        NextMatches(s, e, evs[0]);
        SameExactlyWhenWhole(Next(s, evs[0]), EagerNext(e, s, evs[0]), evs[1..]);
      } else {
        ReleasedShort(s, e, evs[0].c);
      }
    }
  }

  lemma {:induction false} SameAtTheEnd(s: Sys, e: Eager, evs: seq<Event>)
    requires Sane(s) && Runs(s, evs) && SameThroughout(s, e, evs)
    ensures SameReads(After(s, evs), EagerAfter(e, s, evs))
    decreases |evs|
  {
    if evs != [] {
      SameAtTheEnd(Next(s, evs[0]), EagerNext(e, s, evs[0]), evs[1..]);
    }
  }

  // ---------- consequences ----------

  /** What eager copying starts from, given the pages as they are; what a page already lost held
      is unknown. */
  ghost function EagerOf(s: Sys): Eager
    requires Sane(s)
  {
    Eager(map k | k in s.pt.Keys + s.lost && (k in s.pt ==> !IsPendingChild(s, k)) ::
            if k !in s.pt then Own(ZeroFrame(), true)
            else if s.pt[k].perm.lib then Lib(s.pt[k].ppn, Writable(s.pt[k].perm))
            else Own(s.mem[s.pt[k].ppn], Writable(s.pt[k].perm)),
          map p: nat | 0 <= p < |s.mem| :: s.mem[p])
  }

  /** Any system that keeps the sharing discipline has an eager counterpart to compare with. */
  lemma EagerOfMatches(s: Sys)
    requires Wf(s) && LostOk(s)
    ensures Matches(s, EagerOf(s))
  {
    forall k | k in EagerOf(s).pages && k !in s.lost ensures SamePage(s, EagerOf(s), k) {
    }
  }

  /** While a page is mapped copy-on-write, save by a child only half given it, no mapping of
      its frame can be written through. */
  lemma CowNotWritable(s: Sys, k: VPage, j: VPage)
    requires Wf(s) && k in s.pt && s.pt[k].perm.cow && !IsPendingChild(s, k)
    requires j in s.pt && s.pt[j].ppn == s.pt[k].ppn
    ensures !s.pt[j].perm.d
  {
    if j != k && s.pt[j].perm.d {
      WritableNotShared(s, j.a, j.v, k);
    }
  }

  /** So no event changes such a frame: cow_entry can copy it at leisure. */
  lemma CowFrameStable(s: Sys, ev: Event, k: VPage)
    requires Wf(s) && Enabled(s, ev) && k in s.pt && s.pt[k].perm.cow && !IsPendingChild(s, k)
    ensures s.pt[k].ppn < |Next(s, ev).mem| == |s.mem|
    ensures Next(s, ev).mem[s.pt[k].ppn] == s.mem[s.pt[k].ppn]
  {
    if ev.Store? {
      var kv := VPage(ev.a, ev.v);
      if kv in s.pt && s.pt[kv].ppn == s.pt[k].ppn {
        CowNotWritable(s, k, kv);
      }
    }
  }

  // ---------- what single events do for the environments ----------

  /** The first access to a page shows zeros there, to the one that made it. */
  lemma TouchShowsZeros(s: Sys, a: nat, v: nat, p: nat)
    requires Wf(s) && a !in s.embryos && v < USER_PAGES && v != UCOW_PAGE && v != STACK_PAGES
    requires VPage(a, v) !in s.pt && Usable(s, p)
    ensures Enabled(s, Touch(a, v, p))
    ensures var s' := Next(s, Touch(a, v, p));
      && Reads(s', VPage(a, v)) == Some(ZeroFrame()) && s'.pt[VPage(a, v)].perm.d
      && forall k | k != VPage(a, v) :: Reads(s', k) == Reads(s, k)
  {
  }

  /** A store to a private page goes through, from a copy if need be, and nobody else sees it. */
  lemma StoreIsPrivate(s: Sys, a: nat, v: nat, i: nat, w: Word, p: nat, q: nat)
    requires Wf(s) && a !in s.embryos && VPage(a, v) in s.pt && !s.pt[VPage(a, v)].perm.lib && i < ENTRIES
    requires s.pt[VPage(a, v)].perm.d || (s.pt[VPage(a, v)].perm.cow && FIRST_PAGE <= v && Usable(s, q))
    ensures Enabled(s, Store(a, v, i, w, p, q))
    ensures var s' := Next(s, Store(a, v, i, w, p, q)); var was := s.mem[s.pt[VPage(a, v)].ppn];
      && Reads(s', VPage(a, v)) == Some(was[i := w]) && s'.pt[VPage(a, v)].perm.d
      && forall k | k != VPage(a, v) && !IsPendingChild(s, k) :: Reads(s', k) == Reads(s, k)
  {
    var s' := Next(s, Store(a, v, i, w, p, q));
    forall k | k != VPage(a, v) && !IsPendingChild(s, k) ensures Reads(s', k) == Reads(s, k) {
      if k in s.pt && s.pt[k].ppn == s.pt[VPage(a, v)].ppn && s.pt[VPage(a, v)].perm.d {
        WritableNotShared(s, a, v, k);
      }
    }
  }

  /** A store to a library page is seen by all that have it. */
  lemma LibraryStoreIsSeen(s: Sys, a: nat, v: nat, i: nat, w: Word, p: nat, q: nat, k: VPage)
    requires Wf(s) && a !in s.embryos && VPage(a, v) in s.pt && s.pt[VPage(a, v)].perm.d && i < ENTRIES
    requires k in s.pt && s.pt[k].ppn == s.pt[VPage(a, v)].ppn
    ensures Enabled(s, Store(a, v, i, w, p, q))
    ensures Reads(Next(s, Store(a, v, i, w, p, q)), k) == Some(s.mem[s.pt[k].ppn][i := w])
  {
  }

  /** One page through a fork that is not interrupted. */
  function ForkPage(s: Sys, a: nat, c: nat, v: nat): seq<Event>
    requires VPage(a, v) in s.pt
  {
    if SharedAsIs(s.pt[VPage(a, v)].perm) then [StartFork(a, c), DupFirst(a, c, v, true), EndFork(c)]
    else [StartFork(a, c), DupFirst(a, c, v, true), DupSecond(a), EndFork(c)]
  }

  /** c runs, with the contents that a had and has at page v; everybody else reads what they did. */
  ghost predicate PageForked(s: Sys, s': Sys, a: nat, c: nat, v: nat) {
    && s'.embryos == s.embryos && s'.pend == s.pend && s'.mem == s.mem && c !in s'.embryos
    && Reads(s', VPage(c, v)) == Reads(s', VPage(a, v)) == Reads(s, VPage(a, v)) != None
    && forall k: VPage | k.a != c :: Reads(s', k) == Reads(s, k)
  }

  /** The page of a new child is there once the child has been released, with what its parent has,
      and the parent has it as before. */
  lemma ForkGivesPage(s: Sys, a: nat, c: nat, v: nat)
    requires Wf(s) && LostOk(s) && Enabled(s, StartFork(a, c)) && a !in s.pend
    requires VPage(a, v) in s.pt && FIRST_PAGE <= v < STACK_PAGES
    ensures Runs(s, ForkPage(s, a, c, v)) && PageForked(s, After(s, ForkPage(s, a, c, v)), a, c, v)
  {
    if SharedAsIs(s.pt[VPage(a, v)].perm) {
      SharedPageForked(s, a, c, v);
    } else {
      CopiedPageForked(s, a, c, v);
    }
  }

  lemma SharedPageForked(s: Sys, a: nat, c: nat, v: nat)
    requires Wf(s) && LostOk(s) && Enabled(s, StartFork(a, c)) && a !in s.pend
    requires VPage(a, v) in s.pt && FIRST_PAGE <= v < STACK_PAGES && SharedAsIs(s.pt[VPage(a, v)].perm)
    ensures Runs(s, ForkPage(s, a, c, v)) && PageForked(s, After(s, ForkPage(s, a, c, v)), a, c, v)
  {
    var s1 := Next(s, StartFork(a, c));
    assert VPage(c, v) !in s1.lost;
    var x, y, z := StartFork(a, c), DupFirst(a, c, v, true), EndFork(c);
    SharedPageStep(s1, a, c, v);
    ForkedReads(s, Next(Next(s1, y), z), a, c, v);
    ThreeEvents(s, EagerOf(s), x, y, z);
  }

  lemma SharedPageStep(s: Sys, a: nat, c: nat, v: nat)
    requires Sane(s) && Enabled(s, DupFirst(a, c, v, true))
    requires FIRST_PAGE <= v && SharedAsIs(s.pt[VPage(a, v)].perm)
    ensures var s1 := Next(s, DupFirst(a, c, v, true));
      && Enabled(s1, EndFork(c)) && s1.pend == s.pend && s1.mem == s.mem && s1.embryos == s.embryos
      && s1.pt.Keys == s.pt.Keys + {VPage(c, v)} && s1.pt[VPage(c, v)].ppn == s.pt[VPage(a, v)].ppn
      && forall k | k in s.pt :: s1.pt[k].ppn == s.pt[k].ppn
  {
  }

  lemma CopiedPageForked(s: Sys, a: nat, c: nat, v: nat)
    requires Wf(s) && LostOk(s) && Enabled(s, StartFork(a, c)) && a !in s.pend
    requires VPage(a, v) in s.pt && FIRST_PAGE <= v < STACK_PAGES && !SharedAsIs(s.pt[VPage(a, v)].perm)
    ensures Runs(s, ForkPage(s, a, c, v)) && PageForked(s, After(s, ForkPage(s, a, c, v)), a, c, v)
  {
    var s1, e := Next(s, StartFork(a, c)), EagerOf(s);
    assert VPage(c, v) !in s1.lost;
    var x, y, z := DupFirst(a, c, v, true), DupSecond(a), EndFork(c);
    CopiedPageSteps(s1, a, c, v);
    ForkedReads(s, Next(Next(Next(s1, x), y), z), a, c, v);
    FourEvents(s, e, StartFork(a, c), x, y, z);
  }

  lemma FourEvents(s: Sys, e: Eager, x: Event, y: Event, z: Event, last: Event)
    requires Sane(s) && Enabled(s, x) && Enabled(Next(s, x), y) && Enabled(Next(Next(s, x), y), z)
    requires Enabled(Next(Next(Next(s, x), y), z), last)
    ensures Runs(s, [x, y, z, last]) && After(s, [x, y, z, last]) == Next(Next(Next(Next(s, x), y), z), last)
  {
    ThreeEvents(Next(s, x), EagerNext(e, s, x), y, z, last);
    OneMore(s, e, x, [y, z, last]);
    assert [x] + [y, z, last] == [x, y, z, last];
  }

  lemma ForkedReads(s: Sys, s': Sys, a: nat, c: nat, v: nat)
    requires Sane(s) && VPage(a, v) in s.pt && a != c && c !in s.embryos
    requires s'.embryos == s.embryos[c := a] - {c} && s'.pend == s.pend && s'.mem == s.mem
    requires s'.pt.Keys == s.pt.Keys + {VPage(c, v)} && s'.pt[VPage(c, v)].ppn == s.pt[VPage(a, v)].ppn
    requires forall k | k in s.pt :: s'.pt[k].ppn == s.pt[k].ppn
    ensures PageForked(s, s', a, c, v)
  {
    assert s'.embryos == s.embryos;
  }

  lemma CopiedPageSteps(s: Sys, a: nat, c: nat, v: nat)
    requires Sane(s) && Enabled(s, DupFirst(a, c, v, true)) && a !in s.embryos
    requires FIRST_PAGE <= v && !SharedAsIs(s.pt[VPage(a, v)].perm)
    ensures var s1 := Next(s, DupFirst(a, c, v, true));
      && Enabled(s1, DupSecond(a))
      && var s2 := Next(s1, DupSecond(a));
      && Enabled(s2, EndFork(c)) && s2.pend == s.pend && s2.mem == s.mem && s2.embryos == s.embryos
      && s2.pt.Keys == s.pt.Keys + {VPage(c, v)} && s2.pt[VPage(c, v)].ppn == s.pt[VPage(a, v)].ppn
      && forall k | k in s.pt :: s2.pt[k].ppn == s.pt[k].ppn
  {
    var s1 := Next(s, DupFirst(a, c, v, true));
    assert Next(s1, DupSecond(a)).pend == s.pend;
  }

  // ---------- the discipline is exactly what copying needs ----------

  /** Every run that releases no child with lost pages ends with the same in both machines. */
  ghost predicate AllRunsMatch(s: Sys, e: Eager)
    requires Sane(s)
  {
    forall evs | Runs(s, evs) && Whole(s, evs) :: SameReads(After(s, evs), EagerAfter(e, s, evs))
  }

  /** An event and a run from what it leads to. */
  lemma OneMore(s: Sys, e: Eager, ev: Event, evs: seq<Event>)
    requires Sane(s) && Enabled(s, ev) && Runs(Next(s, ev), evs)
    ensures var all := [ev] + evs;
      && Runs(s, all) && (Whole(s, all) <==> Spares(s, ev) && Whole(Next(s, ev), evs))
      && After(s, all) == After(Next(s, ev), evs)
      && EagerAfter(e, s, all) == EagerAfter(EagerNext(e, s, ev), Next(s, ev), evs)
  {
    var all := [ev] + evs;
    assert all != [] && all[0] == ev && all[1..] == evs;
  }

  lemma LaterMismatch(s: Sys, e: Eager, ev: Event)
    requires Sane(s) && Enabled(s, ev) && Spares(s, ev) && !AllRunsMatch(Next(s, ev), EagerNext(e, s, ev))
    ensures !AllRunsMatch(s, e)
  {
    var s', e' := Next(s, ev), EagerNext(e, s, ev);
    var evs :| Runs(s', evs) && Whole(s', evs) && !SameReads(After(s', evs), EagerAfter(e', s', evs));
    OneMore(s, e, ev, evs);
  }

  lemma MismatchNow(s: Sys, e: Eager, k: VPage)
    requires Sane(s) && k.a !in s.embryos && Reads(s, k) != EagerReads(e, k)
    ensures !AllRunsMatch(s, e)
  {
    assert Runs(s, []) && Whole(s, []) && After(s, []) == s && EagerAfter(e, s, []) == e;
  }

  /** A difference in a page of a child shows up once the child runs. */
  lemma HiddenMismatch(s: Sys, e: Eager, k: VPage)
    requires Sane(s) && PendOk(s) && s.lost == {}
    requires k in s.pt && !IsPendingChild(s, k) && Reads(s, k) != EagerReads(e, k)
    ensures !AllRunsMatch(s, e)
  {
    if k.a !in s.embryos {
      MismatchNow(s, e, k);
    } else if s.embryos[k.a] in s.pend {
      var a := s.embryos[k.a];
      assert PendingOk(s, a);
      HiddenAfterRelease(Next(s, DupSecond(a)), EagerNext(e, s, DupSecond(a)), k);
      LaterMismatch(s, e, DupSecond(a));
    } else {
      HiddenAfterRelease(s, e, k);
    }
  }

  lemma HiddenAfterRelease(s: Sys, e: Eager, k: VPage)
    requires Sane(s) && s.lost == {} && k.a in s.embryos && s.embryos[k.a] !in s.pend && Reads(s, k) != EagerReads(e, k)
    ensures !AllRunsMatch(s, e)
  {
    MismatchNow(Next(s, EndFork(k.a)), e, k);
    LaterMismatch(s, e, EndFork(k.a));
  }

  /** One frame, two mappings: a store through k1 changes what k2 shows, in one machine only. */
  ghost predicate Leaky(s: Sys, k1: VPage, k2: VPage) {
    && k1 in s.pt && k2 in s.pt && k1 != k2 && s.pt[k1].ppn == s.pt[k2].ppn && s.pt[k1].perm.d
    && !(s.pt[k1].perm.lib && s.pt[k2].perm.lib) && !PendingPair(s, k1, k2)
  }

  function Differs(w: Word): (r: Word)
    ensures r != w
  {
    if w == ZERO then Word(1, NO_PERM) else ZERO
  }

  function LeakingStore(s: Sys, k: VPage): Event
    requires Sane(s) && k in s.pt
  {
    Store(k.a, k.v, 0, Differs(s.mem[s.pt[k].ppn][0]), 0, 0)
  }

  lemma StoreShows(s: Sys, e: Eager, k1: VPage, k2: VPage)
    requires WordsOk(s) && s.lost == {} && Agree(s, e) && Leaky(s, k1, k2) && k1.a !in s.embryos && k2 in e.pages
    ensures Enabled(s, LeakingStore(s, k1))
    ensures Reads(Next(s, LeakingStore(s, k1)), k2) != EagerReads(EagerNext(e, s, LeakingStore(s, k1)), k2)
  {
    var ev, f := LeakingStore(s, k1), s.pt[k1].ppn;
    RunnableIsNoPendingChild(s, k1);
    assert k1 == VPage(k1.a, k1.v);
    assert SamePage(s, e, k1) && SamePage(s, e, k2);
    var s' := Next(s, ev);
    assert s' == WriteThrough(s, k1.a, k1.v, 0, ev.w);
    assert s'.mem[f][0] == ev.w != s.mem[f][0];
    assert Reads(s', k2) == Some(s'.mem[f]);
    assert EagerReads(EagerNext(e, s, ev), k2) == Some(s.mem[f]);
  }

  lemma StoreKeepsPending(s: Sys, k: VPage)
    requires WordsOk(s) && PendOk(s) && k in s.pt && s.pt[k].perm.d && k.a !in s.embryos
    ensures PendOk(Next(s, LeakingStore(s, k))) && SamePending(s, Next(s, LeakingStore(s, k)))
    ensures Next(s, LeakingStore(s, k)).pt == s.pt
  {
    assert k == VPage(k.a, k.v);
    assert forall x | x in s.pend :: PendingOk(s, x);
    PendKept(s, Next(s, LeakingStore(s, k)));
  }

  lemma RunnableLeak(s: Sys, e: Eager, k1: VPage, k2: VPage)
    requires WordsOk(s) && PendOk(s) && s.lost == {} && Agree(s, e)
    requires Leaky(s, k1, k2) && k1.a !in s.embryos
    ensures !AllRunsMatch(s, e)
  {
    if IsPendingChild(s, k2) {
      // then the parent's mapping of that page, which is writable too, is another one of the frame
      var kp := VPage(s.embryos[k2.a], k2.v);
      assert PendingOk(s, kp.a);
      assert Leaky(s, k1, kp) by {
        assert PendingPair(s, k1, kp) ==> PendingOk(s, k1.a);
      }
      RunnableIsNoPendingChild(s, kp);
      LeakShows(s, e, k1, kp);
    } else {
      LeakShows(s, e, k1, k2);
    }
  }

  lemma LeakShows(s: Sys, e: Eager, k1: VPage, k2: VPage)
    requires WordsOk(s) && PendOk(s) && s.lost == {} && Agree(s, e)
    requires Leaky(s, k1, k2) && k1.a !in s.embryos
    requires !IsPendingChild(s, k2)
    ensures !AllRunsMatch(s, e)
  {
    var ev := LeakingStore(s, k1);
    StoreShows(s, e, k1, k2);
    StoreKeepsPending(s, k1);
    HiddenMismatch(Next(s, ev), EagerNext(e, s, ev), k2);
    LaterMismatch(s, e, ev);
  }

  /** Once nothing is pending about it, a child can be set running, and store itself. */
  lemma ReleasedLeak(s: Sys, e: Eager, k1: VPage, k2: VPage)
    requires WordsOk(s) && PendOk(s) && s.lost == {} && Agree(s, e) && Leaky(s, k1, k2)
    requires k1.a in s.embryos && s.embryos[k1.a] !in s.pend
    ensures !AllRunsMatch(s, e)
  {
    var s' := Next(s, EndFork(k1.a));
    forall x | x in s.pend ensures s.pend[x].child != k1.a {
      assert PendingOk(s, x);
    }
    EmbryoPend(s, s', k1.a);
    EmbryoAgree(s, s', e);
    RunnableLeak(s', e, k1, k2);
    LaterMismatch(s, e, EndFork(k1.a));
  }

  lemma DupSecondWords(s: Sys, a: nat)
    requires WordsOk(s) && PendOk(s) && Enabled(s, DupSecond(a))
    ensures WordsOk(Next(s, DupSecond(a)))
  {
    assert PendingOk(s, a);
  }

  lemma DupSecondLeaky(s: Sys, a: nat, k1: VPage, k2: VPage)
    requires Sane(s) && PendOk(s) && Enabled(s, DupSecond(a)) && Leaky(s, k1, k2) && k1.a in s.embryos
    ensures Leaky(Next(s, DupSecond(a)), k1, k2)
  {
    assert PendingOk(s, a);
  }

  lemma AnyLeak(s: Sys, e: Eager, k1: VPage, k2: VPage)
    requires WordsOk(s) && PendOk(s) && s.lost == {} && Agree(s, e) && Leaky(s, k1, k2)
    ensures !AllRunsMatch(s, e)
  {
    if k1.a !in s.embryos {
      RunnableLeak(s, e, k1, k2);
    } else if s.embryos[k1.a] in s.pend {
      var a := s.embryos[k1.a];
      var ev := DupSecond(a);
      assert PendingOk(s, a);
      DupSecondPend(s, a);
      DupSecondAgree(s, e, a);
      DupSecondWords(s, a);
      DupSecondLeaky(s, a, k1, k2);
      ReleasedLeak(Next(s, ev), EagerNext(e, s, ev), k1, k2);
      LaterMismatch(s, e, ev);
    } else {
      ReleasedLeak(s, e, k1, k2);
    }
  }

  /** With nothing lost so far, two things are exactly what copying needs.  Every run shows every
      runnable environment what eager copying would for as long as no child is released with
      lost pages, if and only if the system starts with no frame that is mapped twice and
      writable through a mapping that is not a library page in both places (save the child of a
      page that is half way through duppage). */
  lemma CopiesExactlyWhen(s: Sys, e: Eager)
    requires WordsOk(s) && PendOk(s) && s.lost == {} && Agree(s, e)
    ensures (forall evs | Runs(s, evs) :: SameThroughout(s, e, evs) <==> Whole(s, evs)) <==> SharingOk(s)
  {
    if SharingOk(s) {
      forall evs | Runs(s, evs) ensures SameThroughout(s, e, evs) <==> Whole(s, evs) {
        SameExactlyWhenWhole(s, e, evs);
      }
    } else {
      var evs := BadRun(s, e);
    }
  }

  /** Without the discipline some run goes wrong that loses no page. */
  lemma BadRun(s: Sys, e: Eager) returns (evs: seq<Event>)
    requires WordsOk(s) && PendOk(s) && s.lost == {} && Agree(s, e) && !SharingOk(s)
    ensures Runs(s, evs) && Whole(s, evs) && !SameThroughout(s, e, evs)
  {
    var k1, k2 :| k1 in s.pt && k2 in s.pt && k1 != k2 && s.pt[k1].ppn == s.pt[k2].ppn && s.pt[k1].perm.d
      && !((s.pt[k1].perm.lib && s.pt[k2].perm.lib) || PendingPair(s, k1, k2));
    AnyLeak(s, e, k1, k2);
    evs :| Runs(s, evs) && Whole(s, evs) && !SameReads(After(s, evs), EagerAfter(e, s, evs));
    if SameThroughout(s, e, evs) {
      SameAtTheEnd(s, e, evs);
    }
  }

  /** A page below UTEMP, or one for whose table there is no page, is lost whatever else holds:
      the child reads nothing where its parent has contents, which eager copying gives it; and a
      page below UTEMP stays as writable in the parent as it was. */
  lemma LostPageLeavesNothing(s: Sys, a: nat, c: nat, v: nat, room: bool)
    requires Sane(s) && Enabled(s, DupFirst(a, c, v, room)) && a !in s.embryos && !Inherited(v, room)
    ensures var evs := [DupFirst(a, c, v, room), EndFork(c)];
      && Runs(s, evs) && !Whole(s, evs)
      && After(s, evs).pt == s.pt && Reads(After(s, evs), VPage(c, v)) == None
      && EagerReads(EagerAfter(EagerOf(s), s, evs), VPage(c, v)) == Reads(s, VPage(a, v)) != None
      && (v < FIRST_PAGE && Enabled(s, Protect(a, v)) ==> Next(s, Protect(a, v)) == s)
  {
    var ev, e, k := DupFirst(a, c, v, room), EagerOf(s), VPage(a, v);
    var s1, e1 := Next(s, ev), EagerNext(e, s, ev);
    RunnableIsNoPendingChild(s, k);
    assert k in e.pages && EagerReads(e, k) == Reads(s, k);
    assert e1 == EagerCopy(e, a, c, v);
    assert VPage(c, v) in s1.lost && VPage(c, v) !in NotOf(s1.lost, c);
    OneMore(s1, e1, EndFork(c), []);
    assert [EndFork(c)] + [] == [EndFork(c)] && [ev] + [EndFork(c)] == [ev, EndFork(c)];
    OneMore(s, e, ev, [EndFork(c)]);
  }

  /** fork does not repair such a frame, which sys_mem_map can make at any time: where a private
      writable frame is mapped at two pages of the parent, the child's page v1 shows what the
      parent stores through v2 after v1 has been shared.  The page v2 may be one that the child
      does not get at all. */
  lemma AliasedPageLeaks(s: Sys, a: nat, c: nat, v1: nat, v2: nat)
    requires Sane(s) && a !in s.embryos && a !in s.pend && c in s.embryos && s.embryos[c] == a
    requires VPage(a, v1) in s.pt && VPage(a, v2) in s.pt && v1 != v2 && UserPage(v2, true)
    requires FIRST_PAGE <= v1 < STACK_PAGES && VPage(c, v1) !in s.pt && VPage(c, v1) !in s.lost
    requires s.pt[VPage(a, v1)].ppn == s.pt[VPage(a, v2)].ppn
    requires !SharedAsIs(s.pt[VPage(a, v1)].perm) && !SharedAsIs(s.pt[VPage(a, v2)].perm)
    ensures var evs := [DupFirst(a, c, v1, true), DupSecond(a), LeakingStore(s, VPage(a, v2))];
      && Runs(s, evs)
      && Reads(After(s, evs), VPage(c, v1)) != Reads(s, VPage(a, v1))
      && EagerReads(EagerAfter(EagerOf(s), s, evs), VPage(c, v1)) == Reads(s, VPage(a, v1))
  {
    var k1, k2, kc, f := VPage(a, v1), VPage(a, v2), VPage(c, v1), s.pt[VPage(a, v1)].ppn;
    var e, ev := EagerOf(s), LeakingStore(s, k2);
    var s1, e1 := Next(s, DupFirst(a, c, v1, true)), EagerNext(e, s, DupFirst(a, c, v1, true));
    var s2, e2 := Next(s1, DupSecond(a)), EagerNext(e1, s1, DupSecond(a));
    assert s2.pt[k2] == s.pt[k2] && s2.pt[kc].ppn == f && s2.mem == s.mem;
    assert e1 == e && e2 == EagerCopy(e, a, c, v1) && e2.pages[kc] == Own(s.mem[f], true);
    var s3, e3 := Next(s2, ev), EagerNext(e2, s2, ev);
    assert s3.mem[f][0] == ev.w != s.mem[f][0] && s3.pt[kc].ppn == f;
    assert e3.pages[kc] == Own(s.mem[f], true);
    ThreeEvents(s, e, DupFirst(a, c, v1, true), DupSecond(a), ev);
  }

  lemma ThreeEvents(s: Sys, e: Eager, x: Event, y: Event, z: Event)
    requires Sane(s) && Enabled(s, x) && Enabled(Next(s, x), y) && Enabled(Next(Next(s, x), y), z)
    ensures var s1, e1 := Next(s, x), EagerNext(e, s, x);
      var s2, e2 := Next(s1, y), EagerNext(e1, s1, y);
      && Runs(s, [x, y, z])
      && After(s, [x, y, z]) == Next(s2, z) && EagerAfter(e, s, [x, y, z]) == EagerNext(e2, s2, z)
  {
    var s1, e1 := Next(s, x), EagerNext(e, s, x);
    var s2, e2 := Next(s1, y), EagerNext(e1, s1, y);
    OneMore(s2, e2, z, []);
    assert [z] + [] == [z] && [y] + [z] == [y, z] && [x] + [y, z] == [x, y, z];
    OneMore(s1, e1, y, [z]);
    OneMore(s, e, x, [y, z]);
  }

  // ---------- why the order of the two calls of duppage is needed ----------

  /** duppage with its two calls swapped: the parent's mapping first, then the child's. */
  function SwappedDup(s: Sys, a: nat, c: nat, v: nat, i: nat, w: Word, q: nat): Sys
    requires Sane(s) && VPage(a, v) in s.pt && q < |s.mem| && i < ENTRIES && v != UCOW_PAGE
  {
    var k, perm := VPage(a, v), s.pt[VPage(a, v)].perm.(d := false, cow := true);
    var s1 := s.(pt := s.pt[k := MapWord(s.pt[k].ppn, perm)]);
    var s2 := WriteThrough(CowEntry(s1, a, v, q), a, v, i, w);  // the parent stores in between
    s2.(pt := s2.pt[VPage(c, v) := MapWord(s2.pt[k].ppn, perm)])
  }

  /** In the swapped order a store between the calls leaves the parent a writable mapping of
      the frame the child holds copy-on-write. */
  lemma SwappedDupLeaks(s: Sys, a: nat, c: nat, v: nat, i: nat, w: Word, q: nat)
    requires Wf(s) && VPage(a, v) in s.pt && a != c && q < |s.mem| && i < ENTRIES && v != UCOW_PAGE && FIRST_PAGE <= v
    requires !SharedAsIs(s.pt[VPage(a, v)].perm) && a !in s.pend
    ensures var s' := SwappedDup(s, a, c, v, i, w, q);
      && VPage(a, v) in s'.pt && VPage(c, v) in s'.pt
      && s'.pt[VPage(a, v)].ppn == s'.pt[VPage(c, v)].ppn
      && s'.pt[VPage(a, v)].perm.d && s'.pt[VPage(c, v)].perm.cow
      && !SharingOk(s')
  {
    var s' := SwappedDup(s, a, c, v, i, w, q);
    assert s'.pt[VPage(a, v)].perm.d && !s'.pt[VPage(a, v)].perm.lib;
    assert !PendingPair(s', VPage(a, v), VPage(c, v));
  }
}
