/** The environment table with its two intrusive lists, updated in place as kern/env.c,
    kern/sched.c and kern/syscall_all.c do.  Each method is tied to the function of
    Scheduling that says what it does. */
module EnvTable {
  import opened Mmu
  import opened Queues
  import opened Scheduling
  import opened VmView

  class Envs {
    const envs: array<Env>
    const schedList: Tailq
    const freeList: List
    var curenv: Option<nat>
    var count: nat
    ghost var queue: seq<nat>
    ghost var free: seq<nat>

    ghost function Repr(): set<object> {
      {this, envs, schedList, schedList.next, schedList.prev, freeList, freeList.next, freeList.prev}
    }

    ghost function State(): Kernel
      reads Repr()
    {
      Kernel(envs[..], queue, curenv, count, free)
    }

    /** Both lists are well formed at pointer level. */
    ghost predicate Valid()
      reads Repr()
    {
      && schedList.next != freeList.next && schedList.prev != freeList.prev
      && schedList.next.Length == envs.Length == freeList.next.Length
      && schedList.Valid() && TailqOf(schedList.Links(), queue)
      && freeList.Valid() && ListOf(freeList.Links(), free)
      && InTable(State())
    }

    /** env_init: inserting at the head in reverse order leaves the free list in index order. */
    constructor (n: nat)
      ensures Valid() && fresh(Repr()) && State() == EnvInit(n)
    {
      envs := new Env[n](_ => Env(Free, 0, false, 0, 0, 0));
      schedList := new Tailq(n);
      freeList := new List(n);
      curenv, count, queue, free := None, 0, [], [];
      new;
      FillFreeList();
    }

    /** The free list holds the environments from i on, in index order. */
    ghost predicate FreeFrom(i: nat)
      reads Repr()
    {
      && i <= envs.Length && free == Upto(envs.Length)[i..]
      && freeList.next.Length == envs.Length && freeList.Valid() && ListOf(freeList.Links(), free)
    }

    method FillFreeList()
      requires FreeFrom(envs.Length)
      modifies freeList, freeList.next, freeList.prev, `free
      ensures FreeFrom(0)
    {
      var i: nat := envs.Length;
      while i > 0
        invariant FreeFrom(i)
      {
        i := i - 1;
        assert Upto(envs.Length)[i..] == [i] + Upto(envs.Length)[i + 1..];
        ListInsertHeadPrepends(freeList.Links(), free, i);
        freeList.InsertHead(i);
        free := [i] + free;
      }
    }

    method Enqueue(e: nat)
      requires Valid() && e < envs.Length && e !in queue
      modifies Repr()
      ensures Valid() && State() == old(State()).(queue := old(queue) + [e])
    {
      TailqInsertTailAppends(schedList.Links(), queue, e);
      schedList.InsertTail(e);
      queue := queue + [e];
    }

    /** TAILQ_INSERT_HEAD on the run queue. */
    method EnqueueFirst(e: nat)
      requires Valid() && e < envs.Length && e !in queue
      modifies Repr()
      ensures Valid() && State() == old(State()).(queue := [e] + old(queue))
    {
      TailqInsertHeadPrepends(schedList.Links(), queue, e);
      schedList.InsertHead(e);
      queue := [e] + queue;
    }

    method Unqueue(e: nat)
      requires Valid() && e in queue
      modifies Repr()
      ensures Valid() && State() == old(State()).(queue := Without(old(queue), e))
    {
      TailqRemoveTakesOut(schedList.Links(), queue, e);
      WithoutMembers(queue, e);
      schedList.Remove(e);
      queue := Without(queue, e);
    }

    /** Takes the first environment off the free list. */
    method TakeFree() returns (e: Option<nat>)
      requires Valid()
      modifies Repr()
      ensures Valid()
      ensures e.None? <==> old(free) == []
      ensures e.None? ==> State() == old(State())
      ensures e.Some? ==> e.value == old(free)[0] < envs.Length && State() == old(State()).(free := old(free)[1..])
    {
      if freeList.first.None? {
        return None;
      }
      e := freeList.first;
      assert LinkedAt(freeList.Links(), free, 0);
      ListRemoveTakesOut(freeList.Links(), free, e.value);
      freeList.Remove(e.value);
      assert forall x | x in free[1..] :: x in free;
      assert free[0] in free;
      free := free[1..];
    }

    method EnvRun(e: nat)
      requires Valid() && e < envs.Length
      modifies Repr()
      ensures Valid() && State() == Scheduling.EnvRun(old(State()), e)
    {
      curenv := Some(e);
      envs[e] := envs[e].(runs := envs[e].runs + 1);
    }

    /** The environment that was running leaves the head of the queue, for its tail if it can
        still run. */
    method Requeue()
      requires Valid() && BeforeSchedule(State())
      modifies Repr()
      ensures Valid() && State() == old(State()).(queue := Requeued(old(State())))
    {
      if curenv.Some? {
        var e := curenv.value;
        WithoutDistinct(queue, e);
        assert e in queue;
        Unqueue(e);
        if envs[e].status == Runnable {
          Enqueue(e);
        } else {
          assert queue == queue + [];
        }
      }
    }

    /** The choice of the next environment: the head of the queue, with its slices. */
    method PickNext() returns (e: Option<nat>)
      requires Valid() && BeforeSchedule(State())
      modifies Repr()
      ensures var q := Requeued(old(State()));
        && Valid() && (e.None? <==> q == [])
        && (e.None? ==> State() == old(State()).(queue := q))
        && (e.Some? ==>
              && e.value == q[0] < envs.Length
              && State() == old(State()).(queue := q, count := old(envs[..])[q[0]].pri))
    {
      Requeue();
      e := schedList.first;
      if e.Some? {
        assert e.value in queue;
        count := envs[e.value].pri;
      }
    }

    /** The last two statements of schedule. */
    method UseSlice(e: nat)
      requires Valid() && e < envs.Length
      modifies Repr()
      ensures Valid() && State() == Scheduling.EnvRun(old(State()).(count := Dec(old(count))), e)
    {
      if count > 0 {
        count := count - 1;
      }
      EnvRun(e);
    }

    /** schedule; false where it panics. */
    method Schedule(giveUp: bool) returns (ok: bool)
      requires Valid() && BeforeSchedule(State())
      modifies Repr()
      ensures ok <==> Scheduling.Schedule(old(State()), giveUp).Some?
      ensures ok ==> Valid() && State() == Scheduling.Schedule(old(State()), giveUp).value
    {
      var e := curenv;
      if curenv.None? || giveUp || count == 0 || envs[curenv.value].status != Runnable {
        e := PickNext();
        if e.None? {
          return false;
        }
      }
      UseSlice(e.value);
      return true;
    }

    /** sys_ipc_recv; false where schedule panics.  The result is what the caller gets, at once
        or when a message has arrived. */
    method SysIpcRecv(dstva: nat) returns (ok: bool, r: int)
      requires Valid() && UserMode(State())
      modifies Repr()
      ensures !RecvVa(dstva) ==> ok && r == -E_INVAL && Valid() && State() == old(State())
      ensures RecvVa(dstva) ==> r == 0 && (ok <==> Scheduling.SysIpcRecv(old(State())).Some?)
      ensures RecvVa(dstva) && ok ==> Valid() && State() == Scheduling.SysIpcRecv(old(State())).value
    {
      if dstva != 0 && IllegalVa(dstva) {
        return true, -E_INVAL;
      }
      RecvBeforeSchedule(State());
      var e := curenv.value;
      envs[e] := envs[e].(recving := true, status := NotRunnable);
      r := 0;
      ok := Schedule(true);
    }

    method SysIpcTrySend(target: Option<nat>, value: nat, src: SrcPage) returns (r: int)
      requires Valid() && UserMode(State()) && Allowed(State(), Send(target, value, src))
      modifies Repr()
      ensures Valid() && (State(), r) == Scheduling.SysIpcTrySend(old(State()), target, value, src)
    {
      if src == IllegalPage {
        return -E_INVAL;
      }
      if target.None? {
        return -E_BAD_ENV;
      }
      var e := target.value;
      if !envs[e].recving {
        return -E_IPC_NOT_RECV;
      }
      envs[e] := envs[e].(value := value, from := curenv.value, recving := false, status := Runnable);
      Enqueue(e);
      if src == UnmappedPage {
        return -E_INVAL;
      }
      return 0;
    }

    /** The two list operations of sys_set_env_status. */
    method MoveOn(e: nat, status: Status)
      requires Valid() && e < envs.Length && (e in queue <==> envs[e].status == Runnable)
      modifies Repr()
      ensures Valid()
      ensures State() == old(State()).(queue := QueueOn(old(queue), e, old(envs[e].status), status))
    {
      if envs[e].status == Runnable && status == NotRunnable {
        Unqueue(e);
      } else if envs[e].status == NotRunnable && status == Runnable {
        Enqueue(e);
      }
    }

    /** sys_set_env_status; target is what envid2env finds, and Free stands for every status
        that is neither of the two that can be asked for. */
    method SysSetEnvStatus(target: Option<nat>, status: Status) returns (r: int)
      requires Valid() && UserMode(State())
      requires status != Free && target.Some? ==> Allowed(State(), SetStatus(target.value, status))
      modifies Repr()
      ensures Valid()
      ensures r == if status == Free then -E_INVAL else if target.None? then -E_BAD_ENV else 0
      ensures r != 0 ==> State() == old(State())
      ensures r == 0 ==> State() == Scheduling.SysSetEnvStatus(old(State()), target.value, status)
    {
      if status != Runnable && status != NotRunnable {
        return -E_INVAL;
      }
      if target.None? {
        return -E_BAD_ENV;
      }
      var e := target.value;
      MoveOn(e, status);
      envs[e] := envs[e].(status := status);
      return 0;
    }

    method SysExofork() returns (child: Option<nat>)
      requires Valid() && UserMode(State())
      modifies Repr()
      ensures Valid() && (State(), child) == Scheduling.SysExofork(old(State()))
    {
      child := TakeFree();
      if child.Some? {
        var e := child.value;
        envs[e] := envs[e].(runs := 0, status := NotRunnable, pri := envs[curenv.value].pri);
      }
    }

    method EnvCreate(pri: nat) returns (e: Option<nat>)
      requires Valid() && BeforeSchedule(State()) && curenv == None
      modifies Repr()
      ensures Valid() && (State(), e) == Scheduling.EnvCreate(old(State()), pri)
    {
      assert free != [] ==> free[0] in free && free[0] !in queue;
      e := TakeFree();
      if e.Some? {
        envs[e.value] := envs[e.value].(runs := 0, pri := pri, status := Runnable);
        EnqueueFirst(e.value);
      }
    }

    /** The end of env_free. */
    method FreeSlot(e: nat)
      requires Valid() && e in queue && e !in free && e < envs.Length
      modifies Repr()
      ensures Valid() && State() == EnvFreeSlot(old(State()), e)
    {
      envs[e] := envs[e].(status := Free);
      ListInsertHeadPrepends(freeList.Links(), free, e);
      freeList.InsertHead(e);
      free := [e] + free;
      Unqueue(e);
    }

    /** env_destroy; false where schedule panics. */
    method EnvDestroy(e: nat) returns (ok: bool)
      requires Valid() && UserMode(State()) && Allowed(State(), Destroy(e))
      modifies Repr()
      ensures ok <==> Scheduling.EnvDestroy(old(State()), e).Some?
      ensures ok ==> Valid() && State() == Scheduling.EnvDestroy(old(State()), e).value
    {
      DestroyBeforeSchedule(State(), e);
      FreeSlot(e);
      if curenv == Some(e) {
        curenv := None;
        ok := Schedule(true);
      } else {
        ok := true;
      }
    }
  }
}
