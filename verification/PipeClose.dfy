/** Telling that a pipe is closed by comparing two reference counts, while descriptors are
    being duplicated and closed one page at a time (user/lib/pipe.c, user/lib/fd.c,
    user/lib/pageref.c). */
module PipeClose {

  datatype End = Reader | Writer

  function Other(e: End): End { if e.Reader? then Writer else Reader }

  /** A descriptor number in an environment, the latter by its id: ids are not used again. */
  datatype Slot = Slot(env: nat, fd: nat)

  /** What an environment is in the middle of: dup has mapped the data page for `into`,
      or pipe_close has unmapped the descriptor page of `slot`. */
  datatype Op = DupMid(from: Slot, into: Slot) | CloseMid(slot: Slot)

  /** fds: slots where a descriptor page of the pipe is mapped, and of which end; data: slots
      where the pipe's data page is mapped; half: slots of a child to which fork or spawn has
      given the descriptor page and not yet the data page, which lies above it. */
  datatype Pipes = Pipes(fds: map<Slot, End>, data: set<Slot>, ops: map<nat, Op>, half: set<Slot>)

  datatype Step =
    | DupData(from: Slot, into: Slot)
    | DupFd(env: nat)
    | CloseFd(slot: Slot)
    | CloseData(env: nat)
    | ShareFd(from: Slot, child: nat)
    | ShareData(from: Slot, child: nat)
    | Die(env: nat, killer: nat)

  function Moved(s: Slot, c: nat): Slot { Slot(c, s.fd) }

  /** A child under construction does not run, so it closes and duplicates nothing. */
  predicate Enabled(p: Pipes, st: Step) {
    match st
    case DupData(from, into) =>
      && from in p.fds && from !in p.half && from.env == into.env && from.env !in p.ops
      && into !in p.fds && into !in p.data
    case DupFd(e) => e in p.ops && p.ops[e].DupMid? && p.ops[e].from in p.fds
    case CloseFd(slot) => slot in p.fds && slot !in p.half && slot.env !in p.ops
    case CloseData(e) => e in p.ops && p.ops[e].CloseMid?
    case ShareFd(from, c) =>
      && from in p.fds && c != from.env && c !in p.ops
      && Moved(from, c) !in p.fds && Moved(from, c) !in p.data
    case ShareData(from, c) => from in p.data && Moved(from, c) in p.half
    case Die(_, _) => true
  }

  /** env_free unmaps all that an environment has, whatever it was in the middle of, before
      anything else can run. */
  function Without(p: Pipes, e: nat): Pipes {
    p.(fds := map s | s in p.fds && s.env != e :: p.fds[s], data := (set s | s in p.data && s.env != e),
       ops := p.ops - {e}, half := (set s | s in p.half && s.env != e))
  }

  function Next(p: Pipes, st: Step): Pipes
    requires Enabled(p, st)
  {
    match st
    case DupData(from, into) =>
      p.(data := p.data + {into}, ops := p.ops[from.env := DupMid(from, into)])
    case DupFd(e) =>
      p.(fds := p.fds[p.ops[e].into := p.fds[p.ops[e].from]], ops := p.ops - {e})
    case CloseFd(slot) =>
      p.(fds := p.fds - {slot}, ops := p.ops[slot.env := CloseMid(slot)])
    case CloseData(e) =>
      p.(data := p.data - {p.ops[e].slot}, ops := p.ops - {e})
    case ShareFd(from, c) =>
      p.(fds := p.fds[Moved(from, c) := p.fds[from]], half := p.half + {Moved(from, c)})
    case ShareData(from, c) =>
      p.(data := p.data + {Moved(from, c)}, half := p.half - {Moved(from, c)})
    case Die(e, _) => Without(p, e)
  }

  /** Every mapped descriptor page has its data page, save in a child that is half given it:
      the order of the two steps of dup and of pipe_close sees to it.  A data page without its
      descriptor belongs to one half made or half closed, of which an environment has at most
      one. */
  ghost predicate Covered(p: Pipes) {
    && (forall s | s in p.fds :: s in p.data || s in p.half)
    && (forall s | s in p.half :: s in p.fds && s !in p.data)
    && (forall e | e in p.ops :: Busy(p.ops[e]) in p.data && Busy(p.ops[e]) !in p.fds && Busy(p.ops[e]).env == e)
    && (forall s | s in p.data :: s in p.fds || (s.env in p.ops && Busy(p.ops[s.env]) == s))
  }

  function Busy(op: Op): Slot {
    match op case DupMid(_, into) => into case CloseMid(slot) => slot
  }

  /** What pageref returns for a descriptor page of an end, and for the data page. */
  ghost function FdRefs(p: Pipes, e: End): set<Slot> {
    set s | s in p.fds && p.fds[s] == e
  }

  lemma NextCovered(p: Pipes, st: Step)
    requires Covered(p) && Enabled(p, st)
    ensures Covered(Next(p, st))
  {
    var p' := Next(p, st);
    forall e | e in p'.ops
      ensures Busy(p'.ops[e]) in p'.data && Busy(p'.ops[e]) !in p'.fds && Busy(p'.ops[e]).env == e
    {
    }
    forall s | s in p'.data ensures s in p'.fds || (s.env in p'.ops && Busy(p'.ops[s.env]) == s) {
      assert s in p.data ==> s in p.fds || (s.env in p.ops && Busy(p.ops[s.env]) == s);
    }
  }

  /** The data pages of descriptors half made or half closed. */
  ghost function BusySlots(ops: map<nat, Op>): set<Slot> {
    set e | e in ops :: Busy(ops[e])
  }

  lemma {:induction false} BusySlotsSize(ops: map<nat, Op>)
    requires forall e | e in ops :: Busy(ops[e]).env == e
    ensures |BusySlots(ops)| == |ops|
    decreases |ops|
  {
    if ops != map[] {
      var e :| e in ops;
      var rest := ops - {e};
      BusySlotsSize(rest);
      assert ops.Keys == rest.Keys + {e};
      assert BusySlots(ops) == BusySlots(rest) + {Busy(ops[e])};
    }
  }

  /** The data page is referenced once for every reader and every writer, and once for every
      descriptor half made or half closed, but not for those a fork is half way through
      sharing. */
  lemma CountsCover(p: Pipes, e: End)
    requires Covered(p)
    ensures |p.data| + |p.half| == |FdRefs(p, e)| + |FdRefs(p, Other(e))| + |p.ops|
  {
    BusySlotsSize(p.ops);
    FdsAndBusy(p);
    EndsApart(p, e);
    DisjointSize(p.fds.Keys, BusySlots(p.ops));
    DisjointSize(p.data, p.half);
  }

  lemma EndsApart(p: Pipes, e: End)
    ensures |p.fds.Keys| == |FdRefs(p, e)| + |FdRefs(p, Other(e))|
  {
    var mine, theirs := FdRefs(p, e), FdRefs(p, Other(e));
    forall s | s in p.fds.Keys ensures s in mine + theirs {
    }
    assert p.fds.Keys == mine + theirs;
    DisjointSize(mine, theirs);
  }

  lemma FdsAndBusy(p: Pipes)
    requires Covered(p)
    ensures p.fds.Keys !! BusySlots(p.ops) && p.data !! p.half
    ensures p.fds.Keys + BusySlots(p.ops) == p.data + p.half
  {
    forall s | s in p.data ensures s in p.fds.Keys + BusySlots(p.ops) {
    }
    forall s | s in BusySlots(p.ops) ensures s in p.data && s !in p.fds {
      var e :| e in p.ops && s == Busy(p.ops[e]);
    }
  }

  lemma DisjointSize<T>(a: set<T>, b: set<T>)
    requires a !! b
    ensures |a + b| == |a| + |b|
  {
  }

  /** What equal counts mean: the descriptors of the other end, and those half made or closed,
      are as many as forks are half way through sharing.  So the other end is closed exactly
      if as many descriptors are half made or closed as are half shared. */
  lemma EqualCountsMean(p: Pipes, e: End)
    requires Covered(p)
    ensures |FdRefs(p, e)| == |p.data| <==> |FdRefs(p, Other(e))| + |p.ops| == |p.half|
    ensures |FdRefs(p, e)| == |p.data| ==> (FdRefs(p, Other(e)) == {} <==> |p.half| == |p.ops|)
  {
    CountsCover(p, e);
  }

  // ---------- what the steps come to ----------

  /** Only slot s may have come, gone or changed. */
  ghost predicate OnlySlot(p: Pipes, p': Pipes, s: Slot) {
    && (forall t | t != s :: (t in p'.fds <==> t in p.fds) && (t in p'.data <==> t in p.data))
    && (forall t | t != s && t in p.fds && t in p'.fds :: p'.fds[t] == p.fds[t])
    && (forall t | t != s :: t in p'.half <==> t in p.half)
  }

  /** Slot s is open, as end e, with both its pages. */
  predicate OpenAs(p: Pipes, s: Slot, e: End) {
    s in p.fds && p.fds[s] == e && s in p.data && s !in p.half
  }

  predicate Shut(p: Pipes, s: Slot) { s !in p.fds && s !in p.data && s !in p.half }

  /** dup opens a second descriptor of the same end. */
  lemma DupOpens(p: Pipes, from: Slot, into: Slot)
    requires Covered(p) && from in p.fds && from !in p.half && from.env == into.env && from.env !in p.ops
    requires Shut(p, into)
    ensures Enabled(p, DupData(from, into)) && Enabled(Next(p, DupData(from, into)), DupFd(from.env))
    ensures var p' := Next(Next(p, DupData(from, into)), DupFd(from.env));
      OpenAs(p', into, p.fds[from]) && OnlySlot(p, p', into) && p'.ops == p.ops
  {
    assert into !in p.half;
    assert Next(Next(p, DupData(from, into)), DupFd(from.env)).ops == p.ops;
  }

  /** close shuts the one descriptor. */
  lemma CloseShuts(p: Pipes, slot: Slot)
    requires Covered(p) && slot in p.fds && slot !in p.half && slot.env !in p.ops
    ensures Enabled(p, CloseFd(slot)) && Enabled(Next(p, CloseFd(slot)), CloseData(slot.env))
    ensures var p' := Next(Next(p, CloseFd(slot)), CloseData(slot.env));
      OpenAs(p, slot, p.fds[slot]) && Shut(p', slot) && OnlySlot(p, p', slot) && p'.ops == p.ops
  {
    assert Next(Next(p, CloseFd(slot)), CloseData(slot.env)).ops == p.ops;
  }

  /** fork opens the same end in the child once it has shared both pages, whatever has become of
      other slots in between. */
  lemma SharingOpens(p: Pipes, q: Pipes, from: Slot, c: nat)
    requires Covered(p) && from in p.fds && c != from.env && c !in p.ops && Shut(p, Moved(from, c))
    ensures Enabled(p, ShareFd(from, c))
    requires var s := Moved(from, c); var p1 := Next(p, ShareFd(from, c));
      && (s in q.fds <==> s in p1.fds) && (s in q.fds ==> q.fds[s] == p1.fds[s])
      && (s in q.data <==> s in p1.data) && (s in q.half <==> s in p1.half)
    requires from in q.data
    ensures OnlySlot(p, Next(p, ShareFd(from, c)), Moved(from, c))
    ensures Next(p, ShareFd(from, c)).ops == p.ops
    ensures Enabled(q, ShareData(from, c))
    ensures var q' := Next(q, ShareData(from, c));
      OpenAs(q', Moved(from, c), p.fds[from]) && OnlySlot(q, q', Moved(from, c)) && q'.ops == q.ops
  {
  }

  /** The death of an environment shuts all its descriptors and no other, and ends what it was in
      the middle of. */
  lemma DeathShuts(p: Pipes, e: nat, killer: nat, s: Slot)
    ensures Enabled(p, Die(e, killer))
    ensures var p' := Next(p, Die(e, killer));
      && (s.env == e ==> Shut(p', s)) && e !in p'.ops
      && (s.env != e ==>
            && (s in p'.fds <==> s in p.fds) && (s in p'.data <==> s in p.data) && (s in p'.half <==> s in p.half)
            && (s in p.fds && s in p'.fds ==> p'.fds[s] == p.fds[s]))
      && forall x | x != e :: (x in p'.ops <==> x in p.ops) && (x in p.ops && x in p'.ops ==> p'.ops[x] == p.ops[x])
  {
  }

  ghost predicate Enables(p: Pipes, sts: seq<Step>)
    decreases |sts|
  {
    sts == [] || (Enabled(p, sts[0]) && Enables(Next(p, sts[0]), sts[1..]))
  }

  ghost function AfterSteps(p: Pipes, sts: seq<Step>): Pipes
    requires Enables(p, sts)
    decreases |sts|
  {
    if sts == [] then p else AfterSteps(Next(p, sts[0]), sts[1..])
  }

  /** The pages of the descriptors at `froms` that fork has yet to share, in the order of their
      addresses: the descriptor pages lie below the data pages. */
  function FdSteps(froms: seq<Slot>, c: nat): seq<Step> {
    seq(|froms|, i requires 0 <= i < |froms| => ShareFd(froms[i], c))
  }

  function DataSteps(froms: seq<Slot>, c: nat): seq<Step> {
    seq(|froms|, i requires 0 <= i < |froms| => ShareData(froms[i], c))
  }

  /** Different descriptors of one environment, which is not in the middle of anything. */
  ghost predicate ToShare(p: Pipes, froms: seq<Slot>, a: nat, c: nat) {
    && a != c && c !in p.ops
    && (forall i | 0 <= i < |froms| :: froms[i].env == a && froms[i] in p.fds && froms[i] in p.data)
    && (forall i, j | 0 <= i < j < |froms| :: froms[i] != froms[j])
  }

  /** The child's slots that stand for those from i on. */
  predicate MovedFrom(froms: seq<Slot>, i: nat, c: nat, s: Slot) {
    exists j :: i <= j < |froms| && s == Moved(froms[j], c)
  }

  lemma {:induction false} FdStepsShare(p: Pipes, froms: seq<Slot>, a: nat, c: nat)
    requires ToShare(p, froms, a, c) && forall i | 0 <= i < |froms| :: Shut(p, Moved(froms[i], c))
    ensures Enables(p, FdSteps(froms, c))
    ensures var p' := AfterSteps(p, FdSteps(froms, c));
      && p'.data == p.data && p'.ops == p.ops
      && (forall s :: s in p'.fds <==> s in p.fds || MovedFrom(froms, 0, c, s))
      && (forall s | s in p.fds :: s in p'.fds && p'.fds[s] == p.fds[s])
      && (forall i | 0 <= i < |froms| :: Moved(froms[i], c) in p'.fds && p'.fds[Moved(froms[i], c)] == p.fds[froms[i]])
      && (forall s :: s in p'.half <==> s in p.half || MovedFrom(froms, 0, c, s))
    decreases |froms|
  {
    if froms != [] {
      var p1, rest := Next(p, ShareFd(froms[0], c)), froms[1..];
      assert FdSteps(froms, c)[1..] == FdSteps(rest, c);
      FdStepsShare(p1, rest, a, c);
      MovedRest(froms, c);
    }
  }

  lemma MovedRest(froms: seq<Slot>, c: nat)
    requires froms != []
    ensures forall s :: MovedFrom(froms, 0, c, s) <==> s == Moved(froms[0], c) || MovedFrom(froms[1..], 0, c, s)
  {
    forall s ensures MovedFrom(froms, 0, c, s) <==> s == Moved(froms[0], c) || MovedFrom(froms[1..], 0, c, s) {
      if MovedFrom(froms, 0, c, s) {
        var j :| 0 <= j < |froms| && s == Moved(froms[j], c);
        assert j > 0 ==> froms[1..][j - 1] == froms[j];
      }
      if MovedFrom(froms[1..], 0, c, s) {
        var j :| 0 <= j < |froms| - 1 && s == Moved(froms[1..][j], c);
        assert froms[j + 1] == froms[1..][j];
      }
    }
  }

  lemma {:induction false} DataStepsShare(p: Pipes, froms: seq<Slot>, a: nat, c: nat)
    requires ToShare(p, froms, a, c) && forall i | 0 <= i < |froms| :: Moved(froms[i], c) in p.half
    ensures Enables(p, DataSteps(froms, c))
    ensures var p' := AfterSteps(p, DataSteps(froms, c));
      && p'.fds == p.fds && p'.ops == p.ops
      && (forall s :: s in p'.data <==> s in p.data || MovedFrom(froms, 0, c, s))
      && (forall s :: s in p'.half <==> s in p.half && !MovedFrom(froms, 0, c, s))
    decreases |froms|
  {
    if froms != [] {
      var p1, rest := Next(p, ShareData(froms[0], c)), froms[1..];
      assert DataSteps(froms, c)[1..] == DataSteps(rest, c);
      assert forall i | 0 <= i < |rest| :: Moved(rest[i], c) in p1.half;
      DataStepsShare(p1, rest, a, c);
      MovedRest(froms, c);
    }
  }

  /** A fork that has shared all the pages of descriptors of the pipe: the child has each of them
      open as its parent has, nothing is half shared any more, and so, with nothing else half
      done, equal counts mean again that the other end is open nowhere, before the fork or now. */
  lemma FinishedForkIsSound(p: Pipes, froms: seq<Slot>, a: nat, c: nat, e: End)
    requires Covered(p) && p.ops == map[] && p.half == {} && ToShare(p, froms, a, c)
    requires forall i | 0 <= i < |froms| :: Shut(p, Moved(froms[i], c))
    ensures Enables(p, FdSteps(froms, c)) && Enables(AfterSteps(p, FdSteps(froms, c)), DataSteps(froms, c))
    ensures var p' := AfterSteps(AfterSteps(p, FdSteps(froms, c)), DataSteps(froms, c));
      && (forall i | 0 <= i < |froms| :: OpenAs(p', Moved(froms[i], c), p.fds[froms[i]]))
      && (forall s | !MovedFrom(froms, 0, c, s) ::
            && (s in p'.fds <==> s in p.fds) && (s in p'.data <==> s in p.data)
            && (s in p.fds && s in p'.fds ==> p'.fds[s] == p.fds[s]))
      && Covered(p') && p'.ops == map[] && p'.half == {}
      && (|FdRefs(p', e)| == |p'.data| <==> FdRefs(p', Other(e)) == {})
      && (FdRefs(p', Other(e)) == {} <==> FdRefs(p, Other(e)) == {})
  {
    FdStepsShare(p, froms, a, c);
    var p1 := AfterSteps(p, FdSteps(froms, c));
    DataStepsShare(p1, froms, a, c);
    var p' := AfterSteps(p1, DataSteps(froms, c));
    assert p'.half == {};
    EqualCountsMean(p', e);
    SameEndsOpen(p, p', froms, c, Other(e));
  }

  lemma SameEndsOpen(p: Pipes, p': Pipes, froms: seq<Slot>, c: nat, e: End)
    requires forall s :: s in p'.fds <==> s in p.fds || MovedFrom(froms, 0, c, s)
    requires forall s | s in p.fds :: s in p'.fds && p'.fds[s] == p.fds[s]
    requires forall i | 0 <= i < |froms| :: froms[i] in p.fds
    requires forall i | 0 <= i < |froms| ::
      Moved(froms[i], c) in p'.fds && p'.fds[Moved(froms[i], c)] == p.fds[froms[i]]
    ensures FdRefs(p', e) == {} <==> FdRefs(p, e) == {}
  {
    forall s | s in FdRefs(p', e) ensures FdRefs(p, e) != {} {
      if s in p.fds {
        assert s in FdRefs(p, e);
      } else {
        var j :| 0 <= j < |froms| && s == Moved(froms[j], c);
        assert froms[j] in FdRefs(p, e);
      }
    }
    forall s | s in FdRefs(p, e) ensures FdRefs(p', e) != {} {
      assert s in FdRefs(p', e);
    }
  }

  /** An end that is open nowhere stays so: descriptors are made from descriptors. */
  lemma NextStaysClosed(p: Pipes, st: Step, e: End)
    requires Enabled(p, st) && FdRefs(p, e) == {}
    ensures FdRefs(Next(p, st), e) == {}
  {
    assert forall s | s in p.fds :: p.fds[s] != e by {
      forall s | s in p.fds ensures p.fds[s] != e {
        assert s !in FdRefs(p, e);
      }
    }
  }

  // ---------- the test of _pipe_is_closed among other steps ----------

  /** The pipe, the running environment, and env_runs of each environment. */
  datatype World = World(p: Pipes, running: nat, runs: map<nat, nat>)

  /** The running environment takes a step, or the scheduler runs an environment. */
  datatype Event = Act(st: Step) | Run(env: nat)

  function Actor(p: Pipes, st: Step): nat {
    match st
    case DupData(from, _) => from.env
    case DupFd(e) => e
    case CloseFd(slot) => slot.env
    case CloseData(e) => e
    case ShareFd(from, _) => from.env
    case ShareData(from, _) => from.env
    case Die(_, killer) => killer
  }

  predicate Possible(w: World, ev: Event) {
    ev.Act? ==> Enabled(w.p, ev.st) && Actor(w.p, ev.st) == w.running
  }

  function RunsOf(w: World, e: nat): nat { if e in w.runs then w.runs[e] else 0 }

  function Do(w: World, ev: Event): World
    requires Possible(w, ev)
  {
    match ev
    case Act(st) => w.(p := Next(w.p, st))
    case Run(e) => w.(running := e, runs := w.runs[e := RunsOf(w, e) + 1])
  }

  ghost predicate Happens(w: World, evs: seq<Event>)
    decreases |evs|
  {
    evs == [] || (Possible(w, evs[0]) && Happens(Do(w, evs[0]), evs[1..]))
  }

  ghost function After(w: World, evs: seq<Event>): World
    requires Happens(w, evs)
    decreases |evs|
  {
    if evs == [] then w else After(Do(w, evs[0]), evs[1..])
  }

  /** The environment e itself takes none of the steps. */
  ghost predicate Quiet(w: World, evs: seq<Event>, e: nat)
    requires Happens(w, evs)
    decreases |evs|
  {
    evs == [] || ((evs[0].Act? ==> w.running != e) && Quiet(Do(w, evs[0]), evs[1..], e))
  }

  lemma {:induction false} RunsGrow(w: World, evs: seq<Event>, e: nat)
    requires Happens(w, evs)
    ensures RunsOf(w, e) <= RunsOf(After(w, evs), e)
    ensures w.running != e && After(w, evs).running == e ==> RunsOf(w, e) < RunsOf(After(w, evs), e)
    decreases |evs|
  {
    if evs != [] {
      RunsGrow(Do(w, evs[0]), evs[1..], e);
    }
  }

  /** If env_runs of the checking environment reads the same before and after, nothing has
      happened to the pipe between. */
  lemma {:induction false} SameRunsSameState(w: World, evs: seq<Event>, e: nat)
    requires Happens(w, evs) && Quiet(w, evs, e)
    requires w.running == e && After(w, evs).running == e && RunsOf(After(w, evs), e) == RunsOf(w, e)
    ensures After(w, evs).p == w.p
    decreases |evs|
  {
    if evs != [] {
      RunsGrow(Do(w, evs[0]), evs[1..], e);
    }
  }

  lemma {:induction false} StaysCovered(w: World, evs: seq<Event>)
    requires Happens(w, evs) && Covered(w.p)
    ensures Covered(After(w, evs).p)
    decreases |evs|
  {
    if evs != [] {
      if evs[0].Act? {
        NextCovered(w.p, evs[0].st);
      }
      StaysCovered(Do(w, evs[0]), evs[1..]);
    }
  }

  lemma {:induction false} StaysClosed(w: World, evs: seq<Event>, e: End)
    requires Happens(w, evs) && FdRefs(w.p, e) == {}
    ensures FdRefs(After(w, evs).p, e) == {}
    decreases |evs|
  {
    if evs != [] {
      if evs[0].Act? {
        NextStaysClosed(w.p, evs[0].st, e);
      }
      StaysClosed(Do(w, evs[0]), evs[1..], e);
    }
  }

  /** A test that took this long: the checker reads the count of its descriptor page, lets
      `mid` happen, reads the count of the data page, lets `fin` happen, and is running again. */
  ghost predicate TestRuns(w: World, mid: seq<Event>, fin: seq<Event>, checker: nat) {
    && w.running == checker
    && Happens(w, mid) && Quiet(w, mid, checker) && After(w, mid).running == checker
    && Happens(After(w, mid), fin) && Quiet(After(w, mid), fin, checker)
    && After(After(w, mid), fin).running == checker
  }

  ghost function TestEnd(w: World, mid: seq<Event>, fin: seq<Event>): World
    requires Happens(w, mid) && Happens(After(w, mid), fin)
  {
    After(After(w, mid), fin)
  }

  /** The two numbers that the test compares are equal. */
  ghost predicate CountsEqual(w: World, mid: seq<Event>, e: End)
    requires Happens(w, mid)
  {
    |FdRefs(w.p, e)| == |After(w, mid).p.data|
  }

  /** env_runs is what it was, so the loop of _pipe_is_closed ends here. */
  ghost predicate RunsUnchanged(w: World, mid: seq<Event>, fin: seq<Event>, checker: nat)
    requires Happens(w, mid) && Happens(After(w, mid), fin)
  {
    RunsOf(TestEnd(w, mid, fin), checker) == RunsOf(w, checker)
  }

  /** What the answer of _pipe_is_closed means, whatever dup, close, fork, spawn and the death
      of environments do between its steps.  It is "closed" if and only if the descriptors of
      the other end and the operations half done are as many as the descriptors half shared;
      that is right if and only if as many operations are half done as descriptors are half
      shared, as when there are none of either; and then it is right for good. */
  lemma ClosedTestSound(w: World, mid: seq<Event>, fin: seq<Event>, later: seq<Event>, checker: nat, e: End)
    requires Covered(w.p) && TestRuns(w, mid, fin, checker) && RunsUnchanged(w, mid, fin, checker)
    requires Happens(TestEnd(w, mid, fin), later)
    ensures var p := TestEnd(w, mid, fin).p;
      && p == w.p
      && (CountsEqual(w, mid, e) <==> |FdRefs(p, Other(e))| + |p.ops| == |p.half|)
      && (CountsEqual(w, mid, e) ==> (FdRefs(p, Other(e)) == {} <==> |p.half| == |p.ops|))
      && (CountsEqual(w, mid, e) && |p.half| == |p.ops| ==>
            FdRefs(After(TestEnd(w, mid, fin), later).p, Other(e)) == {})
  {
    var w1 := After(w, mid);
    RunsGrow(w, mid, checker);
    RunsGrow(w1, fin, checker);
    SameRunsSameState(w, mid, checker);
    SameRunsSameState(w1, fin, checker);
    EqualCountsMean(w.p, e);
    if FdRefs(w.p, Other(e)) == {} {
      StaysClosed(TestEnd(w, mid, fin), later, Other(e));
    }
  }

  // ---------- what each precaution is for ----------

  /** Nothing is half done, and the other end of the pipe is open once. */
  ghost predicate OneOther(p: Pipes, e: End) {
    Covered(p) && p.ops == map[] && p.half == {} && |FdRefs(p, Other(e))| == 1
  }

  lemma SetSize<T>(s: set<T>, x: T)
    ensures |s + {x}| == |s| + if x in s then 0 else 1
    ensures |s - {x}| == |s| - if x in s then 1 else 0
  {
    if x in s {
      assert s + {x} == s;
      assert s == (s - {x}) + {x};
    } else {
      assert s - {x} == s;
    }
  }

  /** An environment closes one of its descriptors of end e, while the checker does not run. */
  function ClosingEvents(slot: Slot, checker: nat): seq<Event> {
    [Run(slot.env), Act(CloseFd(slot)), Act(CloseData(slot.env)), Run(checker)]
  }

  lemma ClosingHappens(w: World, slot: Slot, checker: nat)
    requires Covered(w.p) && w.p.ops == map[] && w.p.half == {} && slot in w.p.fds && slot.env != checker
    requires w.running == checker
    ensures Happens(w, ClosingEvents(slot, checker)) && Quiet(w, ClosingEvents(slot, checker), checker)
    ensures var w' := After(w, ClosingEvents(slot, checker));
      && w'.running == checker && RunsOf(w', checker) == RunsOf(w, checker) + 1
      && w'.p == w.p.(fds := w.p.fds - {slot}, data := w.p.data - {slot})
  {
    var evs := ClosingEvents(slot, checker);
    var w1 := Do(w, evs[0]);
    var w2 := Do(w1, evs[1]);
    var w3 := Do(w2, evs[2]);
    var w4 := Do(w3, evs[3]);
    assert w3.p == w.p.(fds := w.p.fds - {slot}, data := w.p.data - {slot});
    assert evs[1..][1..] == evs[2..] && evs[2..][1..] == evs[3..] && evs[3..][1..] == [];
    assert Happens(w4, []);
    assert Happens(w3, evs[3..]) && After(w3, evs[3..]) == w4 && Quiet(w3, evs[3..], checker);
    assert Happens(w2, evs[2..]) && After(w2, evs[2..]) == w4 && Quiet(w2, evs[2..], checker);
    assert Happens(w1, evs[1..]) && After(w1, evs[1..]) == w4 && Quiet(w1, evs[1..], checker);
  }

  /** Without the retry the answer can be wrong with nothing half done: whenever another
      environment closes a descriptor of the checker's end between the two reads, and the
      other end is open once, the counts are equal. */
  lemma NeedsRetry(w: World, slot: Slot, checker: nat, e: End)
    requires OneOther(w.p, e) && w.running == checker
    requires slot in w.p.fds && w.p.fds[slot] == e && slot.env != checker
    ensures var mid := ClosingEvents(slot, checker);
      && TestRuns(w, mid, [], checker) && CountsEqual(w, mid, e) && !RunsUnchanged(w, mid, [], checker)
      && FdRefs(TestEnd(w, mid, []).p, Other(e)) != {}
  {
    ClosingHappens(w, slot, checker);
    CountsCover(w.p, e);
    SetSize(w.p.data, slot);
    var p := After(w, ClosingEvents(slot, checker)).p;
    assert FdRefs(p, Other(e)) == FdRefs(w.p, Other(e));
  }

  /** pipe_close with its two calls swapped, after the first of them. */
  function SwappedClose(w: World, slot: Slot): World {
    w.(p := w.p.(data := w.p.data - {slot}))
  }

  /** In that order the answer can be wrong with env_runs unchanged: whenever the environment is
      interrupted between the two calls, and the other end is open once. */
  lemma NeedsCloseOrder(w: World, slot: Slot, checker: nat, e: End)
    requires OneOther(w.p, e) && slot in w.p.fds && w.p.fds[slot] == e
    ensures var w1 := Do(SwappedClose(w, slot), Run(checker));
      && TestRuns(w1, [], [], checker) && RunsUnchanged(w1, [], [], checker)
      && CountsEqual(w1, [], e) && FdRefs(w1.p, Other(e)) != {}
  {
    CountsCover(w.p, e);
    SetSize(w.p.data, slot);
    var p := SwappedClose(w, slot).p;
    assert FdRefs(p, e) == FdRefs(w.p, e) && FdRefs(p, Other(e)) == FdRefs(w.p, Other(e));
  }

  /** fork and spawn share pages in ascending order, descriptor pages first.  Whenever an
      environment is interrupted after sharing a descriptor of the checker's end, and the
      other end is open once, the answer is wrong. */
  lemma ForkLooksClosed(w: World, from: Slot, child: nat, checker: nat, e: End)
    requires OneOther(w.p, e) && w.running == from.env && from in w.p.fds && w.p.fds[from] == e
    requires Possible(w, Act(ShareFd(from, child)))
    ensures var evs := [Act(ShareFd(from, child)), Run(checker)];
      && Happens(w, evs)
      && var w1 := After(w, evs);
      && TestRuns(w1, [], [], checker) && RunsUnchanged(w1, [], [], checker)
      && CountsEqual(w1, [], e) && FdRefs(w1.p, Other(e)) != {}
  {
    ShareThenRun(w, from, child, checker);
    ShareFdCounts(w.p, from, child, e);
    CountsCover(w.p, e);
  }

  lemma ShareThenRun(w: World, from: Slot, child: nat, checker: nat)
    requires Possible(w, Act(ShareFd(from, child)))
    ensures var evs := [Act(ShareFd(from, child)), Run(checker)];
      && Happens(w, evs)
      && After(w, evs).p == Next(w.p, ShareFd(from, child)) && After(w, evs).running == checker
  {
    var evs := [Act(ShareFd(from, child)), Run(checker)];
    var w1 := Do(w, evs[0]);
    var w2 := Do(w1, evs[1]);
    assert evs[1..] == [Run(checker)] && [Run(checker)][1..] == [];
    assert Happens(w2, []);
    assert Happens(w1, [Run(checker)]) && After(w1, [Run(checker)]) == w2;
  }

  lemma ShareFdCounts(p: Pipes, from: Slot, c: nat, e: End)
    requires Enabled(p, ShareFd(from, c)) && p.fds[from] == e
    ensures var p' := Next(p, ShareFd(from, c));
      |FdRefs(p', e)| == |FdRefs(p, e)| + 1 && FdRefs(p', Other(e)) == FdRefs(p, Other(e)) && p'.data == p.data
  {
    var p', k := Next(p, ShareFd(from, c)), Moved(from, c);
    assert FdRefs(p', e) == FdRefs(p, e) + {k};
    SetSize(FdRefs(p, e), k);
  }
}
