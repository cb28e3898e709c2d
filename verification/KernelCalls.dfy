/** What the system calls of Scheduling and the clock change, and what they leave as it was; and
    that a forked child gets to run (kern/sched.c, kern/env.c, kern/syscall_all.c). */
module KernelCalls {
  import opened Mmu
  import opened Queues
  import opened Scheduling
  import opened Fairness

  /** Only environments in `who` may have changed. */
  predicate OthersSame(k: Kernel, k': Kernel, who: set<nat>) {
    |k'.envs| == |k.envs| && forall x: nat | x < |k.envs| && x !in who :: k'.envs[x] == k.envs[x]
  }

  /** The queue has lost e, and the others keep their order. */
  ghost predicate Leaves(q: seq<nat>, q': seq<nat>, e: nat) {
    e !in q' && exists i: nat :: i < |q| && q[i] == e && q' == q[..i] + q[i + 1..]
  }

  lemma WithoutLeaves(q: seq<nat>, e: nat)
    requires Distinct(q) && e in q
    ensures Leaves(q, Without(q, e), e)
  {
    var i: nat :| i < |q| && q[i] == e;
    WithoutAt(q, i);
    WithoutDistinct(q, e);
  }

  // ---------- schedule ----------

  /** e runs next: it is current, at the head of the queue, and has one more run to its account. */
  predicate RunsNext(k: Kernel, k': Kernel, e: nat) {
    && e < |k.envs| == |k'.envs| && k'.cur == Some(e) && k'.queue != [] && k'.queue[0] == e
    && k'.envs[e] == k.envs[e].(runs := k.envs[e].runs + 1) && k'.free == k.free
  }

  /** The clock takes a slice off the current turn while there are any left, and a yield ends the
      turn at once; then the next environment in the queue begins one, with one slice less than
      its priority, and the one before goes to the tail. */
  lemma TickAndYield(k: Kernel, giveUp: bool)
    requires UserMode(k)
    ensures Schedule(k, giveUp).Some?
    ensures var k' := Schedule(k, giveUp).value;
      if giveUp || k.count == 0 then
        && k'.queue == k.queue[1..] + k.queue[..1] && RunsNext(k, k', k'.queue[0])
        && k'.count + 1 == Slices(k.envs[k'.queue[0]]) && OthersSame(k, k', {k'.queue[0]})
      else
        && k'.queue == k.queue && RunsNext(k, k', k.cur.value)
        && k'.count + 1 == k.count && OthersSame(k, k', {k.cur.value})
  {
    assert k.queue[0] in k.queue;
    ScheduleUserMode(k, giveUp);
    RequeuedIsRunnable(k);
    assert k.queue[..1] == [k.queue[0]];
  }

  /** Before anything has run, the first environment in the queue begins its turn. */
  lemma FirstRun(k: Kernel, giveUp: bool)
    requires BeforeSchedule(k) && k.cur == None
    ensures Schedule(k, giveUp).None? <==> k.queue == []
    ensures Schedule(k, giveUp).Some? ==>
      var k' := Schedule(k, giveUp).value;
      && k'.queue == k.queue && RunsNext(k, k', k.queue[0])
      && k'.count + 1 == Slices(k.envs[k.queue[0]]) && OthersSame(k, k', {k.queue[0]})
  {
    assert k.queue != [] ==> k.queue[0] in k.queue;
  }

  /** The current environment waits for a message, off the queue, and the next one begins its
      turn; the kernel panics exactly if there is no next one. */
  lemma RecvBlocks(k: Kernel)
    requires UserMode(k)
    ensures SysIpcRecv(k).None? <==> |k.queue| == 1
    ensures SysIpcRecv(k).Some? ==>
      var k', c := SysIpcRecv(k).value, k.cur.value;
      && k'.queue == k.queue[1..] && c !in k'.queue && k.queue[1] != c && RunsNext(k, k', k.queue[1])
      && k'.count + 1 == Slices(k.envs[k.queue[1]]) && OthersSame(k, k', {c, k.queue[1]})
      && k'.envs[c] == k.envs[c].(recving := true, status := NotRunnable)
  {
    var k0 := Receiving(k);
    RecvBeforeSchedule(k);
    RequeuedIsRunnable(k0);
    HeadOnce(k.queue);
    assert Requeued(k0) == k.queue[1..];
    assert |k.queue| > 1 ==> k.queue[1] in k.queue;
  }

  // ---------- messages ----------

  /** Every result of sys_ipc_try_send has one meaning, and whatever is not a delivery changes
      nothing. */
  lemma SendResults(k: Kernel, t: Option<nat>, value: nat, src: SrcPage)
    requires UserMode(k) && Allowed(k, Send(t, value, src))
    ensures var (k', r) := SysIpcTrySend(k, t, value, src);
      var delivered := src != IllegalPage && t.Some? && k.envs[t.value].recving;
      && (r == -E_BAD_ENV <==> src != IllegalPage && t.None?)
      && (r == -E_IPC_NOT_RECV <==> src != IllegalPage && t.Some? && !k.envs[t.value].recving)
      && (r == -E_INVAL <==> (src == IllegalPage || (delivered && src == UnmappedPage)))
      && (r == 0 <==> delivered && src != UnmappedPage)
      && (!delivered ==> k' == k)
      && (delivered ==>
            && k'.envs[t.value] ==
                 k.envs[t.value].(value := value, from := k.cur.value, recving := false, status := Runnable)
            && t.value !in k.queue && k'.queue == k.queue + [t.value] && OthersSame(k, k', {t.value})
            && k'.cur == k.cur && k'.count == k.count && k'.free == k.free)
  {
  }

  // ---------- sys_set_env_status ----------

  /** The environment gets the status, and joins the queue at its tail, leaves it, or keeps its
      place; nothing else changes. */
  lemma SetStatusChanges(k: Kernel, e: nat, status: Status)
    requires e < |k.envs| && status != Free && k.envs[e].status != Free && Distinct(k.queue)
    requires e in k.queue <==> k.envs[e].status == Runnable
    ensures var k', was := SysSetEnvStatus(k, e, status), k.envs[e].status;
      && OthersSame(k, k', {e}) && k'.envs[e].status == status
      && k'.envs[e].(status := was) == k.envs[e]
      && k'.cur == k.cur && k'.count == k.count && k'.free == k.free
      && (was == status ==> k'.queue == k.queue)
      && (was == NotRunnable && status == Runnable ==> k'.queue == k.queue + [e])
      && (was == Runnable && status == NotRunnable ==> Leaves(k.queue, k'.queue, e))
      && (e in k'.queue <==> status == Runnable)
  {
    if e in k.queue {
      WithoutLeaves(k.queue, e);
    }
  }

  // ---------- environments come and go ----------

  /** A child takes the first free slot, cannot run yet, and has its parent's priority. */
  lemma ExoforkMakesChild(k: Kernel)
    requires UserMode(k)
    ensures var (k', child) := SysExofork(k);
      && (child.None? <==> k.free == []) && (child.None? ==> k' == k)
      && (child.Some? ==>
            var c := child.value;
            && [c] + k'.free == k.free && c < |k.envs| && Some(c) != k.cur && c !in k.queue
            && OthersSame(k, k', {c}) && k'.queue == k.queue && k'.cur == k.cur && k'.count == k.count
            && k'.envs[c] == k.envs[c].(status := NotRunnable, pri := k.envs[k.cur.value].pri, runs := 0)
            && !k'.envs[c].recving)
  {
    assert k.free != [] ==> k.free[0] in k.free;
  }

  /** An environment that is destroyed leaves the queue for the head of the free list; nothing
      else changes unless it was the current one. */
  lemma DestroyOther(k: Kernel, e: nat)
    requires UserMode(k) && Allowed(k, Destroy(e)) && k.cur != Some(e)
    ensures EnvDestroy(k, e).Some?
    ensures var k' := EnvDestroy(k, e).value;
      && k'.envs[e] == k.envs[e].(status := Free) && OthersSame(k, k', {e})
      && Leaves(k.queue, k'.queue, e) && k'.free == [e] + k.free
      && k'.cur == k.cur && k'.count == k.count
  {
    WithoutLeaves(k.queue, e);
  }

  /** If it was, the next one begins its turn; the kernel panics exactly if there is none. */
  lemma DestroyCurrent(k: Kernel)
    requires UserMode(k)
    ensures Allowed(k, Destroy(k.cur.value))
    ensures EnvDestroy(k, k.cur.value).None? <==> |k.queue| == 1
    ensures EnvDestroy(k, k.cur.value).Some? ==>
      var k', c := EnvDestroy(k, k.cur.value).value, k.cur.value;
      && k'.envs[c] == k.envs[c].(status := Free) && k'.free == [c] + k.free
      && k'.queue == k.queue[1..] && k.queue[1] != c && RunsNext(k.(free := k'.free), k', k.queue[1])
      && k'.count + 1 == Slices(k.envs[k.queue[1]]) && OthersSame(k, k', {c, k.queue[1]})
  {
    var c := k.cur.value;
    assert c in k.queue;
    DestroyBeforeSchedule(k, c);
    var k0 := EnvFreeSlot(k, c).(cur := None);
    HeadOnce(k.queue);
    assert k0.queue == k.queue[1..];
    assert |k.queue| > 1 ==> k.queue[1] in k.queue;
  }

  /** Boot: all environments are free, and will be taken in index order; the ones created go
      in front of each other. */
  lemma BootAndCreate(n: nat, k: Kernel, pri: nat)
    requires BeforeSchedule(k) && k.cur == None
    ensures var b := EnvInit(n);
      && |b.envs| == |b.free| == n && b.queue == [] && b.count == 0 && b.cur == None
      && forall e: nat | e < n :: b.envs[e].status == Free && !b.envs[e].recving && b.free[e] == e
    ensures var (k', made) := EnvCreate(k, pri);
      && (made.None? <==> k.free == []) && (made.None? ==> k' == k)
      && (made.Some? ==>
            var e := made.value;
            && [e] + k'.free == k.free && e !in k.queue && k'.queue == [e] + k.queue && e < |k.envs|
            && OthersSame(k, k', {e}) && k'.cur == None && k'.count == k.count
            && k'.envs[e] == k.envs[e].(status := Runnable, pri := pri, runs := 0))
  {
    assert k.free != [] ==> k.free[0] in k.free;
  }

  // ---------- a forked child runs ----------

  ghost function After(k: Kernel, evs: seq<Event>): Kernel
    requires Runs(k, evs)
    decreases |evs|
  {
    if evs == [] then k else After(Step(k, evs[0]).value, evs[1..])
  }

  /** A child that nobody has set running yet. */
  ghost predicate Unborn(k: Kernel, c: nat) {
    UserMode(k) && c < |k.envs| && k.envs[c].status == NotRunnable && !k.envs[c].recving
  }

  lemma StaysUnborn(k: Kernel, ev: Event, c: nat)
    requires Unborn(k, c) && Allowed(k, ev) && Step(k, ev).Some? && Spares(ev, c)
    ensures Unborn(Step(k, ev).value, c)
  {
    StepUserMode(k, ev);
    assert c !in k.queue && c !in k.free;
    match ev
    case Tick => TickAndYield(k, false); QueueRuns(k, c);
    case Yield => TickAndYield(k, true); QueueRuns(k, c);
    case Recv => RecvBlocks(k); QueueRuns(k, c);
    case Send(t, value, src) => SendResults(k, t, value, src);
    case SetStatus(e, status) => SetStatusChanges(k, e, status);
    case Exofork => ExoforkMakesChild(k); assert k.free != [] ==> k.free[0] in k.free;
    case Destroy(e) =>
      QueueRuns(k, c);
      if k.cur == Some(e) {
        DestroyCurrent(k);
      } else {
        DestroyOther(k, e);
      }
  }

  lemma QueueRuns(k: Kernel, c: nat)
    requires UserMode(k) && c !in k.queue
    ensures forall i: nat | i < |k.queue| :: k.queue[i] != c && (k.queue[1..] + k.queue[..1])[i] != c
    ensures k.cur != Some(c)
  {
    forall i: nat | i < |k.queue| ensures k.queue[i] != c && (k.queue[1..] + k.queue[..1])[i] != c {
      assert k.queue[i] in k.queue;
      assert (k.queue[1..] + k.queue[..1])[i] in k.queue;
    }
  }

  lemma {:induction false} UnbornAfter(k: Kernel, evs: seq<Event>, c: nat)
    requires Unborn(k, c) && Runs(k, evs) && forall i | 0 <= i < |evs| :: Spares(evs[i], c)
    ensures Unborn(After(k, evs), c)
    decreases |evs|
  {
    if evs != [] {
      StaysUnborn(k, evs[0], c);
      UnbornAfter(Step(k, evs[0]).value, evs[1..], c);
    }
  }

  /** The last step of fork: whatever happens between sys_exofork and the call that sets the child
      running, and after that, the child gets its turn before schedule has been called as often
      as all the environments queued at that moment may run, with what is left of the current
      turn. */
  lemma ForkedChildRuns(k: Kernel, building: seq<Event>, evs: seq<Event>)
    requires UserMode(k) && SysExofork(k).1.Some?
    requires var (k1, child) := SysExofork(k); var c := child.value;
      && Runs(k1, building) && (forall i | 0 <= i < |building| :: Spares(building[i], c))
      && var k2 := After(k1, building);
      && InTable(k2) && k2.cur.Some? && Allowed(k2, SetStatus(c, Runnable))
      && var k3 := SysSetEnvStatus(k2, c, Runnable);
      && Runs(k3, evs) && (forall i | 0 <= i < |evs| :: Spares(evs[i], c))
      && ScheduleCalls(k3, evs) >= k2.count + Weight(k2.envs, k2.queue)
    ensures var (k1, child) := SysExofork(k); var c := child.value;
      && var k3 := SysSetEnvStatus(After(k1, building), c, Runnable);
      GetsTurn(k3, evs, c)
  {
    var (k1, child) := SysExofork(k);
    var c := child.value;
    ExoforkMakesChild(k);
    ExoforkUserMode(k);
    UnbornAfter(k1, building, c);
    var k2 := After(k1, building);
    ReleasedWaits(k2, c);
    BoundedWaiting(SysSetEnvStatus(k2, c, Runnable), evs, c);
  }

  /** The wait of a child just set running is that of the whole queue before it. */
  lemma ReleasedWaits(k: Kernel, c: nat)
    requires Unborn(k, c) && Allowed(k, SetStatus(c, Runnable))
    ensures var k' := SysSetEnvStatus(k, c, Runnable);
      UserMode(k') && c in k'.queue && Wait(k', c) <= k.count + Weight(k.envs, k.queue)
  {
    var k' := SysSetEnvStatus(k, c, Runnable);
    SetStatusUserMode(k, c, Runnable);
    SetStatusChanges(k, c, Runnable);
    WaitBound(k', c);
    BeforeLast(k.queue, c);
    PrisKept(k, k'.envs);
    WeightSame(k.envs, k'.envs, k.queue);
  }

  lemma {:induction false} BeforeLast(s: seq<nat>, e: nat)
    requires e !in s
    ensures Before(s + [e], e) == s
  {
    if s != [] {
      assert (s + [e])[1..] == s[1..] + [e];
      BeforeLast(s[1..], e);
    }
  }
}
