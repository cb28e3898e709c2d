/** The intrusive lists of include/queue.h.  Elements are indices into an array of
    structures; a "previous" pointer is the address of the word that points at the element. */
module Queues {
  import opened Mmu

  /** Address of a next pointer: the one in the head, or the one in an element. */
  datatype Link = AtHead | AtNext(elm: nat)

  /** s with its first occurrence of e taken out. */
  function Without(s: seq<nat>, e: nat): (r: seq<nat>) {
    if s == [] then [] else if s[0] == e then s[1..] else [s[0]] + Without(s[1..], e)
  }

  lemma {:induction false} WithoutAt(s: seq<nat>, k: nat)
    requires k < |s| && Distinct(s)
    ensures Without(s, s[k]) == s[..k] + s[k + 1..]
  {
    if k > 0 {
      assert s[0] != s[k];
      WithoutAt(s[1..], k - 1);
      assert s[1..][..k - 1] == s[1..k];
      assert s[1..][k..] == s[k + 1..];
      assert s[..k] == [s[0]] + s[1..k];
    }
  }

  lemma {:induction false} WithoutAbsent(s: seq<nat>, e: nat)
    requires e !in s
    ensures Without(s, e) == s
  {
    if s != [] {
      WithoutAbsent(s[1..], e);
    }
  }

  lemma WithoutDistinct(s: seq<nat>, e: nat)
    requires Distinct(s)
    ensures Distinct(Without(s, e))
    ensures forall x :: x in Without(s, e) <==> x in s && x != e
  {
    if e in s {
      var k :| 0 <= k < |s| && s[k] == e;
      WithoutAt(s, k);
    } else {
      WithoutAbsent(s, e);
    }
  }

  // ---------- LIST ----------

  /** The head and the links of a LIST. */
  datatype ListLinks = ListLinks(first: Option<nat>, next: seq<Option<nat>>, prev: seq<Link>)

  function First(s: seq<nat>): Option<nat> {
    if s == [] then None else Some(s[0])
  }

  function Last(s: seq<nat>): Link {
    if s == [] then AtHead else AtNext(s[|s| - 1])
  }

  /** Element i of s is linked to its neighbours in s. */
  predicate LinkedAt(q: ListLinks, s: seq<nat>, i: nat)
    requires i < |s|
  {
    && s[i] < |q.next| == |q.prev|
    && q.next[s[i]] == First(s[i + 1..])
    && q.prev[s[i]] == Last(s[..i])
  }

  /** The links describe the list of elements s. */
  ghost predicate ListOf(q: ListLinks, s: seq<nat>) {
    && |q.next| == |q.prev| && Distinct(s) && q.first == First(s)
    && forall i: nat | i < |s| :: LinkedAt(q, s, i)
  }

  /** No link leads outside the array. */
  predicate LinksInRange(next: seq<Option<nat>>, prev: seq<Link>) {
    && |next| == |prev|
    && (forall i | 0 <= i < |next| && next[i].Some? :: next[i].value < |next|)
    && (forall i | 0 <= i < |prev| && prev[i].AtNext? :: prev[i].elm < |prev|)
  }

  function SetPrev(prev: seq<Link>, at: Option<nat>, link: Link): seq<Link> {
    if at.Some? && at.value < |prev| then prev[at.value := link] else prev
  }

  /** next after *link = v, where the head word is kept apart. */
  function SetNext(next: seq<Option<nat>>, link: Link, v: Option<nat>): seq<Option<nat>> {
    if link.AtNext? && link.elm < |next| then next[link.elm := v] else next
  }

  function SetHead(head: Option<nat>, link: Link, v: Option<nat>): Option<nat> {
    if link.AtHead? then v else head
  }

  function ListInsertHead(q: ListLinks, e: nat): ListLinks
    requires e < |q.next| == |q.prev|
  {
    ListLinks(Some(e), q.next[e := q.first], SetPrev(q.prev, q.first, AtNext(e))[e := AtHead])
  }

  function ListRemove(q: ListLinks, e: nat): ListLinks
    requires e < |q.next| == |q.prev|
  {
    ListLinks(SetHead(q.first, q.prev[e], q.next[e]),
              SetNext(q.next, q.prev[e], q.next[e]),
              SetPrev(q.prev, q.next[e], q.prev[e]))
  }

  lemma ListInsertHeadPrepends(q: ListLinks, s: seq<nat>, e: nat)
    requires ListOf(q, s) && e < |q.next| && e !in s
    ensures ListOf(ListInsertHead(q, e), [e] + s)
  {
    var q', t := ListInsertHead(q, e), [e] + s;
    forall i: nat | i < |t| ensures LinkedAt(q', t, i) {
      if i == 0 {
        assert t[1..] == s;
      } else {
        assert LinkedAt(q, s, i - 1) && t[i] == s[i - 1] != e;
        assert t[i + 1..] == s[i..] && t[..i] == [e] + s[..i - 1];
        assert s[i - 1] == s[0] <==> i == 1;
      }
    }
  }

  lemma ListRemoveTakesOut(q: ListLinks, s: seq<nat>, e: nat)
    requires ListOf(q, s) && e in s
    ensures e < |q.next| && ListOf(ListRemove(q, e), Without(s, e))
  {
    var k: nat :| k < |s| && s[k] == e;
    assert LinkedAt(q, s, k);
    WithoutAt(s, k);
    WithoutDistinct(s, e);
    FirstAfterRemove(q, s, k);
    var t := s[..k] + s[k + 1..];
    forall i: nat | i < |t| ensures LinkedAt(ListRemove(q, e), t, i) {
      RemoveRelinks(q, s, k, i);
    }
  }

  lemma FirstAfterRemove(q: ListLinks, s: seq<nat>, k: nat)
    requires ListOf(q, s) && k < |s| && s[k] < |q.next|
    ensures ListRemove(q, s[k]).first == First(s[..k] + s[k + 1..])
  {
    assert LinkedAt(q, s, k);
  }

  lemma RemoveRelinks(q: ListLinks, s: seq<nat>, k: nat, i: nat)
    requires ListOf(q, s) && k < |s| && s[k] < |q.next| && i < |s| - 1
    ensures LinkedAt(ListRemove(q, s[k]), s[..k] + s[k + 1..], i)
  {
    if i < k {
      RemoveRelinksBefore(q, s, k, i);
    } else {
      RemoveRelinksAfter(q, s, k, i);
    }
  }

  lemma RemoveRelinksBefore(q: ListLinks, s: seq<nat>, k: nat, i: nat)
    requires ListOf(q, s) && i < k < |s| && s[k] < |q.next|
    ensures LinkedAt(ListRemove(q, s[k]), s[..k] + s[k + 1..], i)
  {
    var t := s[..k] + s[k + 1..];
    assert LinkedAt(q, s, k) && LinkedAt(q, s, i) && t[i] == s[i];
    assert s[k + 1..] != [] ==> First(s[k + 1..]) == Some(s[k + 1]);
    assert Last(s[..k]) == AtNext(s[k - 1]);
    assert t[..i] == s[..i];
    assert i + 1 < k ==> First(t[i + 1..]) == Some(s[i + 1]);
    assert i + 1 == k ==> t[i + 1..] == s[k + 1..];
    assert s[i] == s[k - 1] <==> i == k - 1;
    assert k + 1 < |s| ==> s[i] != s[k + 1];
  }

  lemma RemoveRelinksAfter(q: ListLinks, s: seq<nat>, k: nat, i: nat)
    requires ListOf(q, s) && k <= i < |s| - 1 && s[k] < |q.next|
    ensures LinkedAt(ListRemove(q, s[k]), s[..k] + s[k + 1..], i)
  {
    var t := s[..k] + s[k + 1..];
    assert LinkedAt(q, s, k) && LinkedAt(q, s, i + 1) && t[i] == s[i + 1];
    assert First(s[k + 1..]) == Some(s[k + 1]);
    assert k > 0 ==> Last(s[..k]) == AtNext(s[k - 1]);
    assert t[i + 1..] == s[i + 2..];
    assert i > k ==> Last(t[..i]) == AtNext(s[i]);
    assert i == k ==> t[..i] == s[..k];
    assert s[i + 1] == s[k + 1] <==> i == k;
    assert k > 0 ==> s[i + 1] != s[k - 1];
  }

  class List {
    var first: Option<nat>
    const next: array<Option<nat>>
    const prev: array<Link>

    ghost function Links(): ListLinks
      reads this, next, prev
    {
      ListLinks(first, next[..], prev[..])
    }

    predicate Valid()
      reads this, next, prev
    {
      && LinksInRange(next[..], prev[..])
      && (first.Some? ==> first.value < next.Length)
    }

    constructor (n: nat)
      ensures Valid() && next.Length == n && fresh(next) && fresh(prev)
      ensures ListOf(Links(), [])
    {
      first := None;
      next := new Option<nat>[n](_ => None);
      prev := new Link[n](_ => AtHead);
    }

    method InsertHead(e: nat)
      requires Valid() && e < next.Length
      modifies this, next, prev
      ensures Valid() && Links() == ListInsertHead(old(Links()), e)
    {
      next[e] := first;
      if first.Some? {
        prev[first.value] := AtNext(e);
      }
      first := Some(e);
      prev[e] := AtHead;
    }

    method Remove(e: nat)
      requires Valid() && e < next.Length
      modifies this, next, prev
      ensures Valid() && Links() == ListRemove(old(Links()), e)
    {
      if next[e].Some? {
        prev[next[e].value] := prev[e];
      }
      match prev[e]
      case AtHead => first := next[e];
      case AtNext(i) => next[i] := next[e];
    }
  }

  // ---------- TAILQ ----------

  /** The head and the links of a TAILQ. */
  datatype TailLinks = TailLinks(first: Option<nat>, last: Link, next: seq<Option<nat>>, prev: seq<Link>)

  /** The links describe the tail queue of elements s. */
  ghost predicate TailqOf(q: TailLinks, s: seq<nat>) {
    && ListOf(ListLinks(q.first, q.next, q.prev), s)
    && q.last == Last(s)
  }

  function TailqInsertHead(q: TailLinks, e: nat): TailLinks
    requires e < |q.next| == |q.prev|
  {
    TailLinks(Some(e), if q.first.Some? then q.last else AtNext(e),
              q.next[e := q.first], SetPrev(q.prev, q.first, AtNext(e))[e := AtHead])
  }

  function TailqInsertTail(q: TailLinks, e: nat): TailLinks
    requires e < |q.next| == |q.prev|
  {
    TailLinks(SetHead(q.first, q.last, Some(e)), AtNext(e),
              SetNext(q.next[e := None], q.last, Some(e)), q.prev[e := q.last])
  }

  function TailqRemove(q: TailLinks, e: nat): TailLinks
    requires e < |q.next| == |q.prev|
  {
    TailLinks(SetHead(q.first, q.prev[e], q.next[e]),
              if q.next[e].Some? then q.last else q.prev[e],
              SetNext(q.next, q.prev[e], q.next[e]),
              SetPrev(q.prev, q.next[e], q.prev[e]))
  }

  lemma TailqInsertHeadPrepends(q: TailLinks, s: seq<nat>, e: nat)
    requires TailqOf(q, s) && e < |q.next| && e !in s
    ensures TailqOf(TailqInsertHead(q, e), [e] + s)
  {
    ListInsertHeadPrepends(ListLinks(q.first, q.next, q.prev), s, e);
  }

  lemma TailqInsertTailAppends(q: TailLinks, s: seq<nat>, e: nat)
    requires TailqOf(q, s) && e < |q.next| && e !in s
    ensures TailqOf(TailqInsertTail(q, e), s + [e])
  {
    var q', t := TailqInsertTail(q, e), s + [e];
    var l, l' := ListLinks(q.first, q.next, q.prev), ListLinks(q'.first, q'.next, q'.prev);
    forall i: nat | i < |t| ensures LinkedAt(l', t, i) {
      if i == |s| {
        assert t[..i] == s && t[i + 1..] == [];
      } else {
        assert LinkedAt(l, s, i) && t[i] == s[i] != e;
        assert t[..i] == s[..i] && t[i + 1..] == s[i + 1..] + [e];
        assert s[i] == s[|s| - 1] <==> i == |s| - 1;
      }
    }
    if s != [] {
      assert LinkedAt(l, s, |s| - 1);
    }
  }

  lemma TailqRemoveTakesOut(q: TailLinks, s: seq<nat>, e: nat)
    requires TailqOf(q, s) && e in s
    ensures e < |q.next| && TailqOf(TailqRemove(q, e), Without(s, e))
  {
    ListRemoveTakesOut(ListLinks(q.first, q.next, q.prev), s, e);
    LastAfterRemove(q, s, e);
  }

  /** The tail pointer moves exactly when the last element goes. */
  lemma LastAfterRemove(q: TailLinks, s: seq<nat>, e: nat)
    requires TailqOf(q, s) && e in s && e < |q.next|
    ensures TailqRemove(q, e).last == Last(Without(s, e))
  {
    var k: nat :| k < |s| && s[k] == e;
    WithoutAt(s, k);
    assert LinkedAt(ListLinks(q.first, q.next, q.prev), s, k);
  }

  /** The stale links of an element that is off the queue still fit the queue: what its
      "previous" pointer leads to is its next element, and points back. */
  predicate StaleLinksFit(q: TailLinks, s: seq<nat>, e: nat)
    requires e < |q.next| == |q.prev|
  {
    && (q.next[e].None? ==> q.last == q.prev[e])
    && (q.next[e].Some? && q.next[e].value in s && q.next[e].value < |q.prev| ==> q.prev[q.next[e].value] == q.prev[e])
    && (q.prev[e].AtHead? ==> q.first == q.next[e])
    && (q.prev[e].AtNext? && q.prev[e].elm in s && q.prev[e].elm < |q.next| ==> q.next[q.prev[e].elm] == q.next[e])
  }

  /** TAILQ_REMOVE of an element that is not on the queue leaves the queue intact exactly when
      the element's stale links still fit it. */
  lemma RemoveAbsent(q: TailLinks, s: seq<nat>, e: nat)
    requires TailqOf(q, s) && e < |q.next| && e !in s
    ensures TailqOf(TailqRemove(q, e), s) <==> StaleLinksFit(q, s, e)
  {
    if TailqOf(TailqRemove(q, e), s) {
      IntactMeansFit(q, s, e);
    }
    if StaleLinksFit(q, s, e) {
      FitMeansIntact(q, s, e);
    }
  }

  lemma IntactMeansFit(q: TailLinks, s: seq<nat>, e: nat)
    requires TailqOf(q, s) && e < |q.next| && e !in s && TailqOf(TailqRemove(q, e), s)
    ensures StaleLinksFit(q, s, e)
  {
    var q' := TailqRemove(q, e);
    var l, l' := ListLinks(q.first, q.next, q.prev), ListLinks(q'.first, q'.next, q'.prev);
    if q.next[e].Some? && q.next[e].value in s {
      var i: nat :| i < |s| && s[i] == q.next[e].value;
      assert LinkedAt(l, s, i) && LinkedAt(l', s, i);
    }
    if q.prev[e].AtNext? && q.prev[e].elm in s {
      var i: nat :| i < |s| && s[i] == q.prev[e].elm;
      assert LinkedAt(l, s, i) && LinkedAt(l', s, i);
    }
  }

  lemma FitMeansIntact(q: TailLinks, s: seq<nat>, e: nat)
    requires TailqOf(q, s) && e < |q.next| && e !in s && StaleLinksFit(q, s, e)
    ensures TailqOf(TailqRemove(q, e), s)
  {
    var q' := TailqRemove(q, e);
    var l, l' := ListLinks(q.first, q.next, q.prev), ListLinks(q'.first, q'.next, q'.prev);
    forall i: nat | i < |s| ensures LinkedAt(l', s, i) {
      assert LinkedAt(l, s, i) && s[i] in s;
    }
  }

  /** Element 1 is taken off [0, 1], element 2 joins, and 1 is taken off again: 2 is lost. */
  lemma RemoveTwiceLosesElement()
    ensures var q0 := TailLinks(None, AtHead, [None, None, None], [AtHead, AtHead, AtHead]);
      var q := TailqInsertTail(TailqRemove(TailqInsertTail(TailqInsertTail(q0, 0), 1), 1), 2);
      && TailqOf(q, [0, 2]) && !StaleLinksFit(q, [0, 2], 1)
      && TailqOf(TailqRemove(q, 1), [0])
  {
    assert forall s: seq<nat> | |s| == 1 :: s[..0] == [] && s[1..] == [];
    var q0 := TailLinks(None, AtHead, [None, None, None], [AtHead, AtHead, AtHead]);
    var q := TailqInsertTail(TailqRemove(TailqInsertTail(TailqInsertTail(q0, 0), 1), 1), 2);
    assert [0, 2][..1] == [0] && [0, 2][1..] == [2] && [0, 2][2..] == [] && [0, 2][..0] == [];
  }

  class Tailq {
    var first: Option<nat>
    var last: Link
    const next: array<Option<nat>>
    const prev: array<Link>

    ghost function Links(): TailLinks
      reads this, next, prev
    {
      TailLinks(first, last, next[..], prev[..])
    }

    predicate Valid()
      reads this, next, prev
    {
      && LinksInRange(next[..], prev[..])
      && (first.Some? ==> first.value < next.Length)
      && (last.AtNext? ==> last.elm < next.Length)
    }

    constructor (n: nat)
      ensures Valid() && next.Length == n && fresh(next) && fresh(prev)
      ensures TailqOf(Links(), [])
    {
      first, last := None, AtHead;
      next := new Option<nat>[n](_ => None);
      prev := new Link[n](_ => AtHead);
    }

    method InsertHead(e: nat)
      requires Valid() && e < next.Length
      modifies this, next, prev
      ensures Valid() && Links() == TailqInsertHead(old(Links()), e)
    {
      next[e] := first;
      if first.Some? {
        prev[first.value] := AtNext(e);
      } else {
        last := AtNext(e);
      }
      first := Some(e);
      prev[e] := AtHead;
    }

    method InsertTail(e: nat)
      requires Valid() && e < next.Length
      modifies this, next, prev
      ensures Valid() && Links() == TailqInsertTail(old(Links()), e)
    {
      next[e] := None;
      prev[e] := last;
      if last.AtHead? {
        first := Some(e);
      } else {
        next[last.elm] := Some(e);
      }
      last := AtNext(e);
    }

    method Remove(e: nat)
      requires Valid() && e < next.Length
      modifies this, next, prev
      ensures Valid() && Links() == TailqRemove(old(Links()), e)
    {
      if next[e].Some? {
        prev[next[e].value] := prev[e];
      } else {
        last := prev[e];
      }
      match prev[e]
      case AtHead => first := next[e];
      case AtNext(i) => next[i] := next[e];
    }
  }
}
