/** Message passing: what receivers get is what was sent to them (kern/syscall_all.c,
    user/lib/ipc.c). */
module Messages {
  import opened Mmu
  import opened Scheduling

  datatype Msg = Msg(from: nat, value: nat)

  /** Where an environment is in ipc_recv: not in it, blocked in the system call, or past it
      and about to read the fields of its struct Env. */
  datatype Phase = Idle | Blocked | Arrived

  /** The kernel, with the messages delivered to and returned by ipc_recv in each environment. */
  datatype Ipc = Ipc(k: Kernel, phase: seq<Phase>, sent: seq<seq<Msg>>, got: seq<seq<Msg>>)

  datatype Act = Sys(ev: Event) | Read

  /** The send gets past all the checks of sys_ipc_try_send that precede the delivery. */
  predicate Delivers(k: Kernel, t: Option<nat>, src: SrcPage) {
    src != IllegalPage && t.Some? && t.value < |k.envs| && k.envs[t.value].recving
  }

  predicate Shape(s: Ipc) {
    && InTable(s.k) && s.k.cur.Some?
    && |s.phase| == |s.sent| == |s.got| == |s.k.envs|
  }

  /** ipc_recv makes its system call, then reads, in that order. */
  predicate Able(s: Ipc, act: Act)
    requires Shape(s)
  {
    match act
    case Read => s.phase[s.k.cur.value] == Arrived
    case Sys(ev) =>
      && Allowed(s.k, ev) && Step(s.k, ev).Some?
      && (ev.Recv? ==> s.phase[s.k.cur.value] == Idle)
  }

  function Current(k: Kernel, e: nat): Msg
    requires e < |k.envs|
  {
    Msg(k.envs[e].from, k.envs[e].value)
  }

  function Do(s: Ipc, act: Act): (r: Ipc)
    requires Shape(s) && Able(s, act)
  {
    var c := s.k.cur.value;
    match act
    case Read => s.(phase := s.phase[c := Idle], got := s.got[c := s.got[c] + [Current(s.k, c)]])
    case Sys(ev) =>
      var s1 := s.(k := Step(s.k, ev).value);
      match ev
      case Recv => s1.(phase := s.phase[c := Blocked])
      case Send(t, value, src) =>
        if Delivers(s.k, t, src) then
          s1.(phase := s.phase[t.value := Arrived], sent := s.sent[t.value := s.sent[t.value] + [Msg(c, value)]])
        else s1
      case Exofork =>
        var child := SysExofork(s.k).1;
        if child.Some? && child.value < |s.phase| then
          s1.(phase := s.phase[child.value := Idle], sent := s.sent[child.value := []], got := s.got[child.value := []])
        else s1
      case _ => s1
  }

  /** The messages delivered to e are those it has returned, and at most one it has yet to read. */
  ghost predicate Settled(s: Ipc, e: nat)
    requires Shape(s) && e < |s.phase|
  {
    && (s.phase[e] == Blocked <==> s.k.envs[e].recving)
    && s.sent[e] == s.got[e] + (if s.phase[e] == Arrived then [Current(s.k, e)] else [])
  }

  ghost predicate IpcInv(s: Ipc) {
    Shape(s) && UserMode(s.k) && forall e: nat | e < |s.phase| :: Settled(s, e)
  }

  predicate SameIpc(k: Kernel, k1: Kernel, e: nat) {
    && e < |k.envs| && e < |k1.envs|
    && k1.envs[e].recving == k.envs[e].recving
    && k1.envs[e].value == k.envs[e].value && k1.envs[e].from == k.envs[e].from
  }

  /** schedule touches no field of IPC. */
  lemma ScheduleSameIpc(k: Kernel, giveUp: bool)
    requires InTable(k) && Schedule(k, giveUp).Some?
    ensures |Schedule(k, giveUp).value.envs| == |k.envs|
    ensures forall e: nat | e < |k.envs| :: SameIpc(k, Schedule(k, giveUp).value, e)
  {
  }

  /** Apart from the receiver's own call and a delivery to it, no event touches its fields. */
  lemma StepSameIpc(k: Kernel, ev: Event, e: nat)
    requires UserMode(k) && Allowed(k, ev) && Step(k, ev).Some? && e < |k.envs|
    requires !(ev.Recv? && k.cur == Some(e)) && !(ev.Send? && ev.target == Some(e) && Delivers(k, ev.target, ev.src))
    ensures |Step(k, ev).value.envs| == |k.envs| && SameIpc(k, Step(k, ev).value, e)
  {
    assert k.free != [] ==> k.free[0] in k.free;
    match ev
    case Tick => ScheduleSameIpc(k, false);
    case Yield => ScheduleSameIpc(k, true);
    case Recv =>
      ScheduleSameIpc(Receiving(k), true);
    case Destroy(x) =>
      if k.cur == Some(x) {
        WithoutMembers(k.queue, x);
        ScheduleSameIpc(EnvFreeSlot(k, x).(cur := None), true);
      }
    case _ =>
  }

  lemma DoSysKeepsInv(s: Ipc, ev: Event)
    requires IpcInv(s) && Able(s, Sys(ev))
    ensures IpcInv(Do(s, Sys(ev)))
  {
    var s1 := Do(s, Sys(ev));
    StepUserMode(s.k, ev);
    StepKeepsTable(s.k, ev);
    forall e: nat | e < |s.phase| ensures Settled(s1, e) {
      DoSysSettled(s, ev, e);
    }
  }

  lemma DoSysSettled(s: Ipc, ev: Event, e: nat)
    requires IpcInv(s) && Able(s, Sys(ev)) && e < |s.phase|
    ensures Shape(Do(s, Sys(ev))) ==> Settled(Do(s, Sys(ev)), e)
  {
    assert Settled(s, e);
    if ev.Recv? && s.k.cur == Some(e) {
      ScheduleSameIpc(Receiving(s.k), true);
    } else if ev.Send? && ev.target == Some(e) && Delivers(s.k, ev.target, ev.src) {
    } else {
      StepSameIpc(s.k, ev, e);
      if ev.Exofork? && s.k.free != [] && e == s.k.free[0] {
        assert e in s.k.free;
      }
    }
  }

  lemma StepKeepsTable(k: Kernel, ev: Event)
    requires UserMode(k) && Allowed(k, ev) && Step(k, ev).Some?
    ensures |Step(k, ev).value.envs| == |k.envs|
  {
    assert k.free != [] ==> k.free[0] in k.free;
    if ev.Destroy? {
      WithoutMembers(k.queue, ev.e);
    }
  }

  lemma DoKeepsInv(s: Ipc, act: Act)
    requires IpcInv(s) && Able(s, act)
    ensures IpcInv(Do(s, act))
  {
    match act
    case Sys(ev) => DoSysKeepsInv(s, ev);
    case Read =>
      var s1, c := Do(s, act), s.k.cur.value;
      forall e: nat | e < |s.phase| ensures Settled(s1, e) {
        assert Settled(s, e);
      }
  }

  ghost predicate Runs(s: Ipc, acts: seq<Act>)
    decreases |acts|
  {
    acts == [] || (Shape(s) && Able(s, acts[0]) && Runs(Do(s, acts[0]), acts[1..]))
  }

  ghost function After(s: Ipc, acts: seq<Act>): Ipc
    requires Runs(s, acts)
    decreases |acts|
  {
    if acts == [] then s else After(Do(s, acts[0]), acts[1..])
  }

  /** Exactly-once delivery: in every run, what the ipc_recv calls of an environment have
      returned is, in order, what has been delivered to it, up to one message not read yet. */
  lemma {:induction false} DeliveredOnceInOrder(s: Ipc, acts: seq<Act>, e: nat)
    requires IpcInv(s) && Runs(s, acts) && e < |s.phase|
    ensures var s1 := After(s, acts);
      && IpcInv(s1) && e < |s1.phase|
      && (s1.got[e] == s1.sent[e] || (s1.sent[e] != [] && s1.got[e] == s1.sent[e][..|s1.sent[e]| - 1]))
    decreases |acts|
  {
    if acts != [] {
      DoKeepsInv(s, acts[0]);
      DoSameSize(s, acts[0]);
      DeliveredOnceInOrder(Do(s, acts[0]), acts[1..], e);
    } else {
      assert Settled(s, e);
    }
  }

  lemma DoSameSize(s: Ipc, act: Act)
    requires IpcInv(s) && Able(s, act)
    ensures |Do(s, act).phase| == |s.phase|
  {
  }

  /** A delivery goes to an environment that is blocked in ipc_recv, so no message already
      delivered is overwritten before it is read; and it is reported as a success exactly
      when the page argument, if there is one, is mapped in the sender.  Whether it then is in
      the receiver is the subject of VmView.SendPageView. */
  lemma DeliveryOverwritesNothing(s: Ipc, t: Option<nat>, value: nat, src: SrcPage)
    requires IpcInv(s) && Able(s, Sys(Send(t, value, src)))
    ensures Delivers(s.k, t, src) ==> s.phase[t.value] == Blocked && s.got[t.value] == s.sent[t.value]
    ensures SysIpcTrySend(s.k, t, value, src).1 == 0 <==> Delivers(s.k, t, src) && src != UnmappedPage
  {
    if Delivers(s.k, t, src) {
      assert Settled(s, t.value);
    }
  }

  /** With an unmapped page argument the sender is told of a failure, but its value has been
      delivered and the receiver woken. */
  lemma UnmappedSendIsDelivered(s: Ipc, e: nat, value: nat)
    requires IpcInv(s) && e < |s.k.envs| && s.k.envs[e].recving
    ensures var (k1, r) := SysIpcTrySend(s.k, Some(e), value, UnmappedPage);
      && r == -E_INVAL && k1.envs[e].value == value && k1.envs[e].status == Runnable
      && k1.queue == s.k.queue + [e]
  {
  }
}
