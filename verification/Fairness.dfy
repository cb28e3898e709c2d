/** How long a runnable environment waits for its turn (kern/sched.c). */
module Fairness {
  import opened Mmu
  import opened Queues
  import opened Scheduling

  /** The number of consecutive slices an environment gets per turn. */
  function Slices(env: Env): nat { if env.pri == 0 then 1 else env.pri }

  function Weight(envs: seq<Env>, s: seq<nat>): nat {
    if s == [] then 0 else (if s[0] < |envs| then Slices(envs[s[0]]) else 0) + Weight(envs, s[1..])
  }

  predicate SamePri(envs: seq<Env>, envs': seq<Env>, x: nat) {
    x < |envs| && x < |envs'| && envs'[x].pri == envs[x].pri
  }

  /** The priorities of the queued environments are the same in envs'. */
  predicate QueuedPris(k: Kernel, envs': seq<Env>) {
    forall i | 0 <= i < |k.queue| :: SamePri(k.envs, envs', k.queue[i])
  }

  lemma PrisKept(k: Kernel, envs': seq<Env>)
    requires InTable(k) && |envs'| == |k.envs|
    requires forall x: nat | x < |k.envs| && x in k.queue :: envs'[x].pri == k.envs[x].pri
    ensures QueuedPris(k, envs')
  {
    forall i | 0 <= i < |k.queue| ensures SamePri(k.envs, envs', k.queue[i]) {
      assert k.queue[i] in k.queue;
    }
  }

  /** The elements of s ahead of e. */
  function Before(s: seq<nat>, e: nat): (r: seq<nat>)
    ensures |r| <= |s| && forall i | 0 <= i < |r| :: r[i] == s[i]
  {
    if s == [] || s[0] == e then [] else [s[0]] + Before(s[1..], e)
  }

  /** A bound on the calls of schedule before e runs: what is left of the current turn, and a
      turn of everyone between the head and e. */
  function Wait(k: Kernel, e: nat): nat
    requires k.queue != []
  {
    k.count + 1 + Weight(k.envs, Before(k.queue[1..], e))
  }

  lemma {:induction false} BeforeAppend(s: seq<nat>, t: seq<nat>, e: nat)
    requires e in s
    ensures Before(s + t, e) == Before(s, e)
  {
    if s[0] != e {
      assert (s + t)[1..] == s[1..] + t;
      BeforeAppend(s[1..], t, e);
    }
  }

  lemma {:induction false} WeightSame(envs: seq<Env>, envs': seq<Env>, s: seq<nat>)
    requires forall i | 0 <= i < |s| :: SamePri(envs, envs', s[i])
    ensures Weight(envs', s) == Weight(envs, s)
  {
    if s != [] {
      WeightSame(envs, envs', s[1..]);
    }
  }

  /** Taking another environment off the queue does not lengthen the wait. */
  lemma {:induction false} WeightWithout(envs: seq<Env>, s: seq<nat>, x: nat, e: nat)
    requires x != e && e in s
    ensures e in Without(s, x)
    ensures Weight(envs, Before(Without(s, x), e)) <= Weight(envs, Before(s, e))
  {
    if s[0] == x {
      assert Before(s, e) == [s[0]] + Before(s[1..], e);
      assert Before(s, e)[1..] == Before(s[1..], e);
    } else if s[0] != e {
      WeightWithout(envs, s[1..], x, e);
      assert Without(s, x)[1..] == Without(s[1..], x);
      assert Before(s, e)[1..] == Before(s[1..], e);
      assert Before(Without(s, x), e)[1..] == Before(Without(s[1..], x), e);
    } else {
      assert Without(s, x)[0] == e;
    }
  }

  predicate Schedules(k: Kernel, ev: Event) {
    ev.Tick? || ev.Yield? || ev.Recv? || (ev.Destroy? && k.cur == Some(ev.e))
  }

  /** The event does not itself take e off the queue. */
  predicate Spares(ev: Event, e: nat) {
    (ev.Destroy? ==> ev.e != e) && (ev.SetStatus? ==> ev.e != e)
  }

  ghost predicate Waiting(k: Kernel, e: nat) {
    UserMode(k) && e in k.queue && k.cur != Some(e)
  }

  /** A switch brings e one place forward, and the turns ahead of it shrink by the one begun. */
  lemma SwitchProgress(k: Kernel, k0: Kernel, k1: Kernel, e: nat, last: seq<nat>)
    requires k.queue != [] && e in k.queue[1..] && QueuedPris(k, k0.envs)
    requires k0.queue == k.queue[1..] + last && k0.queue[0] < |k0.envs|
    requires k1 == EnvRun(k0.(count := Dec(k0.envs[k0.queue[0]].pri)), k0.queue[0])
    ensures k1.queue != [] && e in k1.queue
    ensures k1.cur == Some(e) || Wait(k1, e) + 1 + k.count <= Wait(k, e)
  {
    assert k1.queue == k.queue[1..] + last;
    if k.queue[1] != e {
      SwitchWeight(k, k1, e, last);
      SecondWeight(k, k1, e);
      assert SamePri(k.envs, k0.envs, k.queue[1]);
    }
  }

  lemma SwitchWeight(k: Kernel, k1: Kernel, e: nat, last: seq<nat>)
    requires |k.queue| > 1 && e in k.queue[1..] && k.queue[1] != e && k.queue[1] < |k.envs|
    requires k1.queue == k.queue[1..] + last
    ensures Wait(k1, e) == k1.count + 1 + Weight(k1.envs, Before(k.queue[1..][1..], e))
    ensures Wait(k, e) == k.count + 1 + Slices(k.envs[k.queue[1]]) + Weight(k.envs, Before(k.queue[1..][1..], e))
  {
    var q := k.queue[1..];
    assert k1.queue[1..] == q[1..] + last;
    BeforeNext(q, e);
    BeforeAppend(q[1..], last, e);
  }

  lemma BeforeNext(q: seq<nat>, e: nat)
    requires q != [] && q[0] != e && e in q
    ensures Before(q, e) == [q[0]] + Before(q[1..], e) && Before(q, e)[1..] == Before(q[1..], e)
  {
  }

  lemma SecondWeight(k: Kernel, k1: Kernel, e: nat)
    requires |k.queue| > 1 && QueuedPris(k, k1.envs)
    ensures Weight(k1.envs, Before(k.queue[1..][1..], e)) == Weight(k.envs, Before(k.queue[1..][1..], e))
  {
    var s := Before(k.queue[1..][1..], e);
    forall i | 0 <= i < |s| ensures SamePri(k.envs, k1.envs, s[i]) {
      assert s[i] == k.queue[1..][1..][i] == k.queue[i + 2];
    }
    WeightSame(k.envs, k1.envs, s);
  }

  /** The wait depends on the queue between the head and e, and on priorities, only. */
  lemma SameWeight(k: Kernel, k1: Kernel, e: nat)
    requires k.queue != [] && QueuedPris(k, k1.envs)
    ensures Weight(k1.envs, Before(k.queue[1..], e)) == Weight(k.envs, Before(k.queue[1..], e))
  {
    var s := Before(k.queue[1..], e);
    forall i | 0 <= i < |s| ensures SamePri(k.envs, k1.envs, s[i]) {
      assert s[i] == k.queue[i + 1];
    }
    WeightSame(k.envs, k1.envs, s);
  }

  lemma ScheduleProgress(k: Kernel, k0: Kernel, giveUp: bool, e: nat)
    requires Waiting(k, e) && BeforeSchedule(k0) && |k0.envs| == |k.envs|
    requires forall x: nat | x < |k.envs| :: k0.envs[x].pri == k.envs[x].pri
    requires
      || (k0.queue == k.queue && k0.cur == k.cur && k0.count == k.count)
      || (k0.queue == k.queue[1..] && k0.cur == None)
    requires Schedule(k0, giveUp).Some?
    ensures var k1 := Schedule(k0, giveUp).value;
      && InTable(k1) && k1.queue != [] && e in k1.queue
      && (k1.cur == Some(e) || Wait(k1, e) + 1 <= Wait(k, e))
  {
    var k1 := Schedule(k0, giveUp).value;
    assert e in k.queue[1..];
    PrisKept(k, k0.envs);
    PrisKept(k, k1.envs);
    if MustSwitch(k0, giveUp) {
      RequeuedIsRunnable(k0);
      var q := Requeued(k0);
      var last := q[|k.queue| - 1..];
      assert q == k.queue[1..] + last;
      SwitchProgress(k, k0.(queue := q), k1, e, last);
    } else {
      SameWeight(k, k1, e);
    }
  }

  ghost predicate Progress(k: Kernel, k1: Kernel, e: nat, calls: nat)
    requires k.queue != []
  {
    && e in k1.queue && k1.queue != []
    && (k1.cur == Some(e) || Wait(k1, e) + calls <= Wait(k, e))
  }

  lemma BlockProgress(k: Kernel, e: nat)
    requires Waiting(k, e) && SysIpcRecv(k).Some?
    ensures Progress(k, SysIpcRecv(k).value, e, 1)
  {
    var c := k.cur.value;
    var k0 := SetEnv(k, c, k.envs[c].(recving := true, status := NotRunnable));
    assert BeforeSchedule(k0);
    ScheduleProgress(k, k0, true, e);
  }

  lemma DeathProgress(k: Kernel, e: nat)
    requires Waiting(k, e) && EnvDestroy(k, k.cur.value).Some?
    requires Allowed(k, Destroy(k.cur.value))
    ensures Progress(k, EnvDestroy(k, k.cur.value).value, e, 1)
  {
    var x := k.cur.value;
    DestroyBeforeSchedule(k, x);
    var k0 := EnvFreeSlot(k, x).(cur := None);
    assert k0.queue == k.queue[1..];
    ScheduleProgress(k, k0, true, e);
  }

  /** Another environment, neither e nor the current one, leaves the queue. */
  lemma LeaveProgress(k: Kernel, k1: Kernel, x: nat, e: nat)
    requires Waiting(k, e) && x != e && Some(x) != k.cur && k1.queue == Without(k.queue, x)
    requires k1.cur == k.cur && k1.count == k.count
    requires QueuedPris(k, k1.envs)
    ensures Progress(k, k1, e, 0)
  {
    assert e in k.queue[1..];
    assert k1.queue == [k.queue[0]] + Without(k.queue[1..], x);
    assert k1.queue[1..] == Without(k.queue[1..], x);
    WeightWithout(k1.envs, k.queue[1..], x, e);
    SameWeight(k, k1, e);
  }

  /** Environments join at the tail, or nothing happens to the queue. */
  lemma JoinProgress(k: Kernel, k1: Kernel, t: seq<nat>, e: nat)
    requires Waiting(k, e) && k1.queue == k.queue + t && k1.cur == k.cur && k1.count == k.count
    requires QueuedPris(k, k1.envs)
    ensures Progress(k, k1, e, 0)
  {
    assert e in k.queue[1..];
    assert k1.queue[1..] == k.queue[1..] + t;
    BeforeAppend(k.queue[1..], t, e);
    SameWeight(k, k1, e);
  }

  /** No event moves a waiting environment back, and every call of schedule moves it on. */
  lemma StepProgress(k: Kernel, ev: Event, e: nat)
    requires Waiting(k, e) && Allowed(k, ev) && Step(k, ev).Some? && Spares(ev, e)
    ensures Progress(k, Step(k, ev).value, e, if Schedules(k, ev) then 1 else 0)
  {
    var k1 := Step(k, ev).value;
    if !ev.Exofork? && !Schedules(k, ev) {
      PrisKept(k, k1.envs);
    }
    match ev
    case Tick => ScheduleProgress(k, k, false, e);
    case Yield => ScheduleProgress(k, k, true, e);
    case Recv => BlockProgress(k, e);
    case Destroy(x) =>
      if k.cur == Some(x) {
        DeathProgress(k, e);
      } else {
        LeaveProgress(k, k1, x, e);
      }
    case Send(_, _, _) => JoinProgress(k, k1, k1.queue[|k.queue|..], e);
    case SetStatus(x, status) =>
      if k.envs[x].status == Runnable && status == NotRunnable {
        LeaveProgress(k, k1, x, e);
      } else {
        JoinProgress(k, k1, k1.queue[|k.queue|..], e);
      }
    case Exofork =>
      assert k1.queue == k.queue + [];
      ExoforkPris(k);
      JoinProgress(k, k1, [], e);
  }

  /** A new child's slot was free, so it is not on the run queue. */
  lemma ExoforkPris(k: Kernel)
    requires UserMode(k)
    ensures QueuedPris(k, SysExofork(k).0.envs)
  {
    assert k.free != [] ==> k.free[0] in k.free;
    PrisKept(k, SysExofork(k).0.envs);
  }

  // ---------- whole runs ----------

  ghost predicate Runs(k: Kernel, evs: seq<Event>)
    decreases |evs|
  {
    evs == [] || (
      && InTable(k) && k.cur.Some? && Allowed(k, evs[0])
      && Step(k, evs[0]).Some? && Runs(Step(k, evs[0]).value, evs[1..]))
  }

  ghost function ScheduleCalls(k: Kernel, evs: seq<Event>): nat
    requires Runs(k, evs)
    decreases |evs|
  {
    if evs == [] then 0
    else (if Schedules(k, evs[0]) then 1 else 0) + ScheduleCalls(Step(k, evs[0]).value, evs[1..])
  }

  /** At some point of the run e is the current environment. */
  ghost predicate GetsTurn(k: Kernel, evs: seq<Event>, e: nat)
    requires Runs(k, evs)
    decreases |evs|
  {
    k.cur == Some(e) || (evs != [] && GetsTurn(Step(k, evs[0]).value, evs[1..], e))
  }

  /** Bounded waiting: in any run with Wait(k, e) calls of schedule, whatever the others do,
      a runnable environment that nobody stops gets its turn. */
  lemma {:induction false} BoundedWaiting(k: Kernel, evs: seq<Event>, e: nat)
    requires UserMode(k) && e in k.queue && Runs(k, evs)
    requires forall i | 0 <= i < |evs| :: Spares(evs[i], e)
    requires ScheduleCalls(k, evs) >= Wait(k, e)
    ensures GetsTurn(k, evs, e)
    decreases |evs|
  {
    if k.cur != Some(e) {
      assert evs != [];
      StepProgress(k, evs[0], e);
      StepUserMode(k, evs[0]);
      var k1 := Step(k, evs[0]).value;
      if k1.cur != Some(e) {
        BoundedWaiting(k1, evs[1..], e);
      } else {
        assert GetsTurn(k1, evs[1..], e);
      }
    }
  }

  /** In particular the turns of those ahead of e, with what is left of the current one, bound
      the wait of the environment. */
  lemma WaitBound(k: Kernel, e: nat)
    requires Waiting(k, e)
    ensures Wait(k, e) <= k.count + Weight(k.envs, Before(k.queue, e))
  {
    assert Before(k.queue, e)[1..] == Before(k.queue[1..], e);
  }

  // ---------- the length of a turn ----------

  function Ticks(k: Kernel, n: nat): (r: Option<Kernel>)
    requires InTable(k)
    ensures r.Some? ==> InTable(r.value)
  {
    if n == 0 then Some(k)
    else
      var r := Ticks(k, n - 1);
      if r.None? then None
      else
        WithoutMembersIfAny(r.value);
        Schedule(r.value, false)
  }

  lemma WithoutMembersIfAny(k: Kernel)
    ensures k.cur.Some? ==> forall x | x in Without(k.queue, k.cur.value) :: x in k.queue
  {
    if k.cur.Some? {
      WithoutMembers(k.queue, k.cur.value);
    }
  }

  /** k1 is k after n ticks that left the running environment its turn. */
  ghost predicate InTurn(k: Kernel, k1: Kernel, n: nat) {
    && UserMode(k1) && k1.cur == k.cur && k1.queue == k.queue && k1.count + n == k.count
    && |k1.envs| == |k.envs|
    && (k.cur.Some? && k.cur.value < |k.envs| ==> k1.envs[k.cur.value].pri == k.envs[k.cur.value].pri)
  }

  lemma TickInTurn(k: Kernel)
    requires UserMode(k) && k.count > 0
    ensures Schedule(k, false).Some? && InTurn(k, Schedule(k, false).value, 1)
  {
    assert k.queue[0] in k.queue;
    ScheduleUserMode(k, false);
  }

  lemma TickEndsTurn(k: Kernel)
    requires UserMode(k) && k.count == 0
    ensures Schedule(k, false).Some? && UserMode(Schedule(k, false).value)
    ensures Schedule(k, false).value.queue == k.queue[1..] + [k.queue[0]]
    ensures Schedule(k, false).value.cur == Some((k.queue[1..] + [k.queue[0]])[0])
  {
    assert k.queue[0] in k.queue;
    ScheduleUserMode(k, false);
    RequeuedIsRunnable(k);
  }

  /** The turn lasts while slices are left. */
  lemma {:induction false} TurnGoesOn(k: Kernel, n: nat)
    requires UserMode(k) && n <= k.count
    ensures Ticks(k, n).Some? && InTurn(k, Ticks(k, n).value, n)
  {
    if n > 0 {
      TurnGoesOn(k, n - 1);
      TickInTurn(Ticks(k, n - 1).value);
    }
  }

  /** An environment whose turn has just begun, and which is not interrupted, keeps the
      processor for exactly max(1, env_pri) slices; then the next one gets it. */
  lemma TurnLength(k: Kernel, n: nat)
    requires UserMode(k) && k.count == Dec(k.envs[k.cur.value].pri) && n <= Slices(k.envs[k.cur.value])
    ensures Ticks(k, n).Some? && UserMode(Ticks(k, n).value)
    ensures var k1 := Ticks(k, n).value;
      if n < Slices(k.envs[k.cur.value]) then
        k1.cur == k.cur && k1.queue == k.queue && k1.count == k.count - n
      else
        k1.cur == Some((k.queue[1..] + [k.queue[0]])[0]) && k1.queue == k.queue[1..] + [k.queue[0]]
  {
    if n <= k.count {
      TurnGoesOn(k, n);
    } else {
      TurnGoesOn(k, n - 1);
      TickEndsTurn(Ticks(k, n - 1).value);
    }
  }
}
