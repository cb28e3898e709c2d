/** Environment states, the run queue and message passing as a state machine
    (kern/sched.c, kern/env.c, kern/syscall_all.c). */
module Scheduling {
  import opened Mmu
  import opened Queues

  datatype Status = Free | Runnable | NotRunnable

  /** The fields of struct Env that scheduling and IPC use. */
  datatype Env = Env(status: Status, pri: nat, recving: bool, value: nat, from: nat, runs: nat)

  /** queue: env_sched_list in order; cur: curenv; count: the static of schedule;
      free: env_free_list in order. */
  datatype Kernel = Kernel(envs: seq<Env>, queue: seq<nat>, cur: Option<nat>, count: nat, free: seq<nat>)

  predicate InTable(k: Kernel) {
    && (forall e | e in k.queue :: e < |k.envs|)
    && (forall e | e in k.free :: e < |k.envs|)
    && (k.cur.Some? ==> k.cur.value < |k.envs|)
  }

  /** What holds in user mode: the run queue is exactly the runnable environments, each once,
      and the running one is at its head. */
  ghost predicate UserMode(k: Kernel) {
    && InTable(k) && Distinct(k.queue) && Distinct(k.free)
    && (forall e: nat | e < |k.envs| :: e in k.queue <==> k.envs[e].status == Runnable)
    && (forall e: nat | e < |k.envs| :: e in k.free <==> k.envs[e].status == Free)
    && (forall e: nat | e < |k.envs| && k.envs[e].recving :: k.envs[e].status == NotRunnable)
    && k.cur.Some? && k.queue != [] && k.queue[0] == k.cur.value
  }

  /** What schedule may count on: as in user mode, except that the current environment may
      have blocked, or be gone. */
  ghost predicate BeforeSchedule(k: Kernel) {
    && InTable(k) && Distinct(k.queue) && Distinct(k.free)
    && (forall e: nat | e < |k.envs| && Some(e) != k.cur :: e in k.queue <==> k.envs[e].status == Runnable)
    && (forall e: nat | e < |k.envs| :: e in k.free <==> k.envs[e].status == Free)
    && (forall e: nat | e < |k.envs| && k.envs[e].recving :: k.envs[e].status == NotRunnable)
    && (k.cur.Some? ==> k.queue != [] && k.queue[0] == k.cur.value)
  }

  // ---------- operations ----------

  function SetEnv(k: Kernel, e: nat, env: Env): Kernel
    requires e < |k.envs|
  {
    k.(envs := k.envs[e := env])
  }

  predicate MustSwitch(k: Kernel, giveUp: bool)
    requires k.cur.Some? ==> k.cur.value < |k.envs|
  {
    k.cur.None? || giveUp || k.count == 0 || k.envs[k.cur.value].status != Runnable
  }

  /** The run queue after schedule has dealt with the environment that was running. */
  function Requeued(k: Kernel): seq<nat>
    requires k.cur.Some? ==> k.cur.value < |k.envs|
  {
    if k.cur.None? then k.queue
    else Without(k.queue, k.cur.value) + (if k.envs[k.cur.value].status == Runnable then [k.cur.value] else [])
  }

  function Dec(n: nat): nat { if n > 0 then n - 1 else 0 }

  function EnvRun(k: Kernel, e: nat): Kernel
    requires e < |k.envs|
  {
    SetEnv(k, e, k.envs[e].(runs := k.envs[e].runs + 1)).(cur := Some(e))
  }

  /** schedule; None where it panics for want of a runnable environment. */
  function Schedule(k: Kernel, giveUp: bool): (r: Option<Kernel>)
    requires InTable(k)
  {
    if !MustSwitch(k, giveUp) then Some(EnvRun(k.(count := Dec(k.count)), k.cur.value))
    else
      var q := Requeued(k);
      if q == [] || q[0] >= |k.envs| then None
      else Some(EnvRun(k.(queue := q, count := Dec(k.envs[q[0]].pri)), q[0]))
  }

  /** The current environment waits for a message. */
  function Receiving(k: Kernel): Kernel
    requires InTable(k) && k.cur.Some?
  {
    var e := k.cur.value;
    SetEnv(k, e, k.envs[e].(recving := true, status := NotRunnable))
  }

  /** sys_ipc_recv with a legal address. */
  function SysIpcRecv(k: Kernel): (r: Option<Kernel>)
    requires InTable(k) && k.cur.Some?
  {
    Schedule(Receiving(k), true)
  }

  /** How the page argument of sys_ipc_try_send turns out. */
  datatype SrcPage = NoPage | IllegalPage | UnmappedPage | MappedPage

  /** sys_ipc_try_send; target is what envid2env found. */
  function SysIpcTrySend(k: Kernel, target: Option<nat>, value: nat, src: SrcPage): (r: (Kernel, int))
    requires InTable(k) && k.cur.Some? && (target.Some? ==> target.value < |k.envs|)
  {
    if src == IllegalPage then (k, -E_INVAL)
    else if target.None? then (k, -E_BAD_ENV)
    else if !k.envs[target.value].recving then (k, -E_IPC_NOT_RECV)
    else
      var e := target.value;
      var env := k.envs[e].(value := value, from := k.cur.value, recving := false, status := Runnable);
      (SetEnv(k, e, env).(queue := k.queue + [e]), if src == UnmappedPage then -E_INVAL else 0)
  }

  /** The run queue once environment e has taken a status in place of the one it had. */
  function QueueOn(queue: seq<nat>, e: nat, was: Status, status: Status): seq<nat> {
    if was == Runnable && status == NotRunnable then Without(queue, e)
    else if was == NotRunnable && status == Runnable then queue + [e]
    else queue
  }

  function SysSetEnvStatus(k: Kernel, e: nat, status: Status): Kernel
    requires e < |k.envs| && status != Free
  {
    SetEnv(k, e, k.envs[e].(status := status)).(queue := QueueOn(k.queue, e, k.envs[e].status, status))
  }

  /** sys_exofork: the first free environment becomes a child that cannot run yet. */
  function SysExofork(k: Kernel): (r: (Kernel, Option<nat>))
    requires InTable(k) && k.cur.Some?
  {
    if k.free == [] then (k, None)
    else
      var e := k.free[0];
      assert e in k.free;
      var env := k.envs[e].(runs := 0, status := NotRunnable, pri := k.envs[k.cur.value].pri);
      (SetEnv(k, e, env).(free := k.free[1..]), Some(e))
  }

  function EnvFreeSlot(k: Kernel, e: nat): Kernel
    requires e < |k.envs|
  {
    SetEnv(k, e, k.envs[e].(status := Free)).(free := [e] + k.free, queue := Without(k.queue, e))
  }

  /** env_destroy; a new environment is scheduled when the current one is the victim. */
  function EnvDestroy(k: Kernel, e: nat): (r: Option<Kernel>)
    requires InTable(k) && e < |k.envs|
  {
    var k1 := EnvFreeSlot(k, e);
    if k.cur == Some(e) then
      WithoutMembers(k.queue, e);
      Schedule(k1.(cur := None), true)
    else Some(k1)
  }

  lemma {:induction false} WithoutMembers(s: seq<nat>, e: nat)
    ensures forall x | x in Without(s, e) :: x in s
  {
    if s != [] && s[0] != e {
      WithoutMembers(s[1..], e);
    }
  }

  // ---------- events ----------

  datatype Event =
    | Tick
    | Yield
    | Recv
    | Send(target: Option<nat>, value: nat, src: SrcPage)
    | SetStatus(e: nat, status: Status)
    | Exofork
    | Destroy(e: nat)

  /** Status changes are for other environments that are not blocked in a receive, and only
      runnable environments are destroyed; the system keeps something to run. */
  predicate Allowed(k: Kernel, ev: Event)
    requires InTable(k) && k.cur.Some?
  {
    match ev
    case Send(t, _, _) => t.Some? ==> t.value < |k.envs| && k.envs[t.value].status != Free
    case SetStatus(e, status) =>
      && e < |k.envs| && status != Free && k.envs[e].status != Free
      && Some(e) != k.cur && !k.envs[e].recving
    case Destroy(e) => e < |k.envs| && k.envs[e].status == Runnable
    case _ => true
  }

  function Step(k: Kernel, ev: Event): (r: Option<Kernel>)
    requires InTable(k) && k.cur.Some? && Allowed(k, ev)
  {
    match ev
    case Tick => Schedule(k, false)
    case Yield => Schedule(k, true)
    case Recv => SysIpcRecv(k)
    case Send(t, value, src) => Some(SysIpcTrySend(k, t, value, src).0)
    case SetStatus(e, status) => Some(SysSetEnvStatus(k, e, status))
    case Exofork => Some(SysExofork(k).0)
    case Destroy(e) => EnvDestroy(k, e)
  }

  // ---------- the run-queue invariant ----------

  lemma RequeuedIsRunnable(k: Kernel)
    requires BeforeSchedule(k)
    ensures var q := Requeued(k);
      && Distinct(q)
      && (forall e :: e in q ==> e < |k.envs|)
      && (forall e: nat | e < |k.envs| :: e in q <==> k.envs[e].status == Runnable)
      && (k.cur.Some? ==> q == k.queue[1..] + (if k.envs[k.cur.value].status == Runnable then [k.cur.value] else []))
  {
    if k.cur.Some? {
      assert k.queue[0] in k.queue;
      HeadToTail(k.queue, k.envs[k.cur.value].status == Runnable);
      forall e | e in Requeued(k) ensures e in k.queue {
      }
    } else {
      assert forall e: nat | e < |k.envs| :: Some(e) != k.cur;
    }
  }

  /** Taking the head off, and perhaps putting it back at the tail. */
  lemma HeadToTail(s: seq<nat>, back: bool)
    requires Distinct(s) && s != []
    ensures var q := Without(s, s[0]) + (if back then [s[0]] else []);
      && Distinct(q) && q == s[1..] + (if back then [s[0]] else [])
      && forall e :: e in q <==> (e in s && e != s[0]) || (e == s[0] && back)
  {
    var q := s[1..] + (if back then [s[0]] else []);
    assert Without(s, s[0]) == s[1..];
    forall e ensures e in q <==> e in s[1..] || (back && e == s[0]) {
    }
    HeadOnce(s);
  }

  lemma HeadOnce(s: seq<nat>)
    requires Distinct(s) && s != []
    ensures s[0] !in s[1..] && forall e :: e in s <==> e in s[1..] || e == s[0]
  {
    assert s == [s[0]] + s[1..];
  }

  lemma ScheduleUserMode(k: Kernel, giveUp: bool)
    requires BeforeSchedule(k)
    ensures var r := Schedule(k, giveUp); r.Some? ==> UserMode(r.value)
    ensures Schedule(k, giveUp).None? <==> (forall e: nat | e < |k.envs| :: k.envs[e].status != Runnable)
  {
    RequeuedIsRunnable(k);
    var q := Requeued(k);
    assert k.cur.Some? && k.envs[k.cur.value].status == Runnable ==> k.cur.value in q;
    if q != [] && MustSwitch(k, giveUp) {
      assert q[0] in q;
      EnvRunUserMode(k, k.(queue := q, count := Dec(k.envs[q[0]].pri)), q[0]);
    } else if q != [] {
      EnvRunUserMode(k, k.(count := Dec(k.count)), k.cur.value);
    }
  }

  /** Running the head of a queue that holds exactly the runnable environments. */
  lemma EnvRunUserMode(k: Kernel, k1: Kernel, e: nat)
    requires BeforeSchedule(k) && k1 == k.(queue := k1.queue, count := k1.count)
    requires Distinct(k1.queue) && k1.queue != [] && k1.queue[0] == e
    requires forall x :: x in k1.queue ==> x < |k.envs|
    requires forall x: nat | x < |k.envs| :: x in k1.queue <==> k.envs[x].status == Runnable
    ensures e < |k.envs| && UserMode(EnvRun(k1, e))
  {
    assert e in k1.queue;
  }

  lemma SendUserMode(k: Kernel, t: Option<nat>, value: nat, src: SrcPage)
    requires UserMode(k) && Allowed(k, Send(t, value, src))
    ensures UserMode(SysIpcTrySend(k, t, value, src).0)
  {
    if src != IllegalPage && t.Some? && k.envs[t.value].recving {
      assert t.value !in k.queue;
      AppendDistinct(k.queue, t.value);
    }
  }

  lemma AppendDistinct(s: seq<nat>, e: nat)
    requires Distinct(s) && e !in s
    ensures Distinct(s + [e]) && forall x :: x in s + [e] <==> x in s || x == e
  {
  }

  lemma SetStatusUserMode(k: Kernel, e: nat, status: Status)
    requires UserMode(k) && Allowed(k, SetStatus(e, status))
    ensures UserMode(SysSetEnvStatus(k, e, status))
  {
    WithoutDistinct(k.queue, e);
    if e !in k.queue {
      AppendDistinct(k.queue, e);
    }
  }

  lemma ExoforkUserMode(k: Kernel)
    requires UserMode(k)
    ensures UserMode(SysExofork(k).0)
  {
    if k.free != [] {
      assert k.free[0] in k.free;
      assert forall x :: x in k.free[1..] <==> x in k.free && x != k.free[0];
    }
  }

  lemma RecvBeforeSchedule(k: Kernel)
    requires UserMode(k)
    ensures BeforeSchedule(Receiving(k))
  {
  }

  lemma DestroyBeforeSchedule(k: Kernel, e: nat)
    requires UserMode(k) && Allowed(k, Destroy(e))
    ensures BeforeSchedule(EnvFreeSlot(k, e).(cur := None))
  {
    WithoutDistinct(k.queue, e);
    var k1 := EnvFreeSlot(k, e);
    assert forall x :: x in k1.free <==> x in k.free || x == e;
  }

  lemma DestroyUserMode(k: Kernel, e: nat)
    requires UserMode(k) && Allowed(k, Destroy(e))
    ensures var r := EnvDestroy(k, e); r.Some? ==> UserMode(r.value)
  {
    WithoutDistinct(k.queue, e);
    var k1 := EnvFreeSlot(k, e);
    assert forall x :: x in k1.free <==> x in k.free || x == e;
    if k.cur == Some(e) {
      ScheduleUserMode(k1.(cur := None), true);
    } else {
      assert Without(k.queue, e)[0] == k.queue[0];
    }
  }

  /** Every event leads from user mode back to user mode, unless the kernel panics. */
  lemma StepUserMode(k: Kernel, ev: Event)
    requires UserMode(k) && Allowed(k, ev)
    ensures Step(k, ev).Some? ==> UserMode(Step(k, ev).value)
  {
    match ev
    case Tick => ScheduleUserMode(k, false);
    case Yield => ScheduleUserMode(k, true);
    case Recv =>
      RecvBeforeSchedule(k);
      ScheduleUserMode(Receiving(k), true);
    case Send(t, value, src) => SendUserMode(k, t, value, src);
    case SetStatus(e, status) => SetStatusUserMode(k, e, status);
    case Exofork => ExoforkUserMode(k);
    case Destroy(e) => DestroyUserMode(k, e);
  }

  // ---------- boot ----------

  function Upto(n: nat): seq<nat> { seq(n, i => i) }

  /** env_init: every environment is free, in index order. */
  function EnvInit(n: nat): Kernel {
    Kernel(seq(n, _ => Env(Free, 0, false, 0, 0, 0)), [], None, 0, Upto(n))
  }

  /** env_create, used before anything runs: the new environment goes to the head of the queue. */
  function EnvCreate(k: Kernel, pri: nat): (r: (Kernel, Option<nat>))
    requires InTable(k)
  {
    if k.free == [] then (k, None)
    else
      var e := k.free[0];
      assert e in k.free;
      var env := k.envs[e].(runs := 0, status := Runnable, pri := pri);
      (SetEnv(k, e, env).(free := k.free[1..], queue := [e] + k.queue), Some(e))
  }

  /** Boot leads to a state that the first call of schedule turns into user mode. */
  lemma BootBeforeSchedule(n: nat)
    ensures BeforeSchedule(EnvInit(n)) && EnvInit(n).cur == None
  {
    var k := EnvInit(n);
    forall e: nat | e < n ensures e in k.free {
      assert k.free[e] == e;
    }
  }

  lemma CreateBeforeSchedule(k: Kernel, pri: nat)
    requires BeforeSchedule(k) && k.cur == None
    ensures BeforeSchedule(EnvCreate(k, pri).0) && EnvCreate(k, pri).0.cur == None
  {
    if k.free != [] {
      var e := k.free[0];
      var k1 := EnvCreate(k, pri).0;
      assert e in k.free && e !in k.queue;
      assert forall x :: x in k1.free <==> x in k.free && x != e;
      assert forall x :: x in k1.queue <==> x in k.queue || x == e;
    }
  }
}
