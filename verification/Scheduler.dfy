/**
  The preemptive round-robin scheduler. Interrupts are off inside `schedule`, so
  spawn, tick, yield and exit are atomic steps; the context switch itself is the
  change of the current process.
*/
module Scheduler {
  import opened Basics

  const DEFAULT_TIME_SLICE_TICKS := 5

  datatype ProcState = Ready | Running | Blocked | Exited

  datatype Proc = Proc(state: ProcState, ticksLeft: nat)

  /** The scheduler's statics: processes by pid, the ready queue, the current process, the next pid. */
  datatype Sched = Sched(procs: map<nat, Proc>, queue: seq<nat>, current: Option<nat>, nextPid: nat)

  // ---- the steps as functions ------------------------------------------------------

  function Initialised(s: Sched): (r: Sched)
  {
    if s.current.Some? then s
    else s.(procs := s.procs[0 := Proc(Running, DEFAULT_TIME_SLICE_TICKS)], current := Some(0))
  }

  /** A process that is running goes to the back of the queue. */
  function Requeued(s: Sched, prev: nat): (r: Sched)
  {
    if prev in s.procs && s.procs[prev].state == Running
    then s.(procs := s.procs[prev := s.procs[prev].(state := Ready)], queue := s.queue + [prev])
    else s
  }

  function Switched(s: Sched, next: nat): (r: Sched)
  {
    s.(procs := s.procs[next := Proc(Running, DEFAULT_TIME_SLICE_TICKS)], current := Some(next))
  }

  function Scheduled(s: Sched): (r: Sched)
  {
    if s.queue == [] then s
    else
      var next := s.queue[0];
      var s1 := s.(queue := s.queue[1..]);
      if s.current.None? || s.current.value == next then s1
      else Switched(Requeued(s1, s.current.value), next)
  }

  function Ticked(s: Sched): (r: Sched)
  {
    if s.current.None? || s.current.value !in s.procs then s
    else
      var c := s.current.value;
      var left := if s.procs[c].ticksLeft > 0 then s.procs[c].ticksLeft - 1 else 0;
      if left == 0 then Scheduled(s.(procs := s.procs[c := s.procs[c].(ticksLeft := DEFAULT_TIME_SLICE_TICKS)]))
      else s.(procs := s.procs[c := s.procs[c].(ticksLeft := left)])
  }

  function ExitedCurrent(s: Sched): (r: Sched)
  {
    if s.current.Some? && s.current.value in s.procs
    then Scheduled(s.(procs := s.procs[s.current.value := s.procs[s.current.value].(state := Exited)]))
    else Scheduled(s)
  }

  function Spawned(s: Sched): (r: Sched)
  {
    var s1 := Initialised(s);
    s1.(procs := s1.procs[s1.nextPid := Proc(Ready, DEFAULT_TIME_SLICE_TICKS)],
        queue := s1.queue + [s1.nextPid], nextPid := s1.nextPid + 1)
  }

  /** A spawn that runs out of memory after taking its pid. */
  function SpawnFailed(s: Sched): (r: Sched)
  {
    var s1 := Initialised(s);
    s1.(nextPid := s1.nextPid + 1)
  }

  datatype Event = Tick | Yield | Exit | Spawn | FailSpawn | RejectSpawn

  function Step(s: Sched, e: Event): (r: Sched)
  {
    match e
    case Tick => Ticked(s)
    case Yield => Scheduled(s)
    case Exit => ExitedCurrent(s)
    case Spawn => Spawned(s)
    case FailSpawn => SpawnFailed(s)
    case RejectSpawn => Initialised(s)
  }

  function Run(s: Sched, es: seq<Event>): (r: Sched)
    decreases |es|
  {
    if es == [] then s else Run(Step(s, es[0]), es[1..])
  }

  const BOOT := Sched(map[], [], None, 1)

  // ---- the invariant ------------------------------------------------------------------

  ghost predicate ProcOk(s: Sched, p: nat)
    requires p in s.procs
  {
    && p < s.nextPid && 1 <= s.procs[p].ticksLeft <= DEFAULT_TIME_SLICE_TICKS
    && (s.procs[p].state == Exited || (s.current == Some(p) && s.procs[p].state == Running) ||
        (p in s.queue && s.procs[p].state == Ready))
  }

  /** Queue without duplicates, all queued ready, the current one not queued, everyone else exited. */
  ghost predicate Inv(s: Sched)
  {
    && s.nextPid >= 1 && Distinct(s.queue)
    && (s.current.None? ==> s.queue == [] && s.procs == map[])
    && (s.current.Some? ==> s.current.value in s.procs && 0 in s.procs && s.current.value !in s.queue)
    && (forall p :: p in s.procs ==> ProcOk(s, p))
    && (forall p :: p in s.queue ==> p in s.procs && s.procs[p].state == Ready)
  }

  lemma ScheduledKeepsInv(s: Sched)
    requires Inv(s)
    ensures Inv(Scheduled(s))
  {
    if s.queue != [] {
      var next, c := s.queue[0], s.current.value;
      var r := Scheduled(s);
      assert forall p :: p in s.queue <==> p == next || p in s.queue[1..];
      assert forall p :: p in r.queue ==> p in s.queue[1..] || p == c;
      forall p | p in r.procs ensures ProcOk(r, p) {
        assert p in s.procs && ProcOk(s, p);
        assert p in s.queue[1..] ==> p in r.queue;
      }
    }
  }

  lemma StepKeepsInv(s: Sched, e: Event)
    requires Inv(s)
    ensures Inv(Step(s, e))
  {
    match e {
      case Tick =>
        if s.current.Some? {
          var c := s.current.value;
          assert ProcOk(s, c);
          if s.procs[c].ticksLeft == 1 {
            var s1 := s.(procs := s.procs[c := s.procs[c].(ticksLeft := DEFAULT_TIME_SLICE_TICKS)]);
            assert forall p :: p in s1.procs ==> p in s.procs && ProcOk(s, p);
            assert Inv(s1);
            ScheduledKeepsInv(s1);
          } else {
            assert forall p :: p in s.procs ==> ProcOk(s, p);
          }
        }
      case Yield => ScheduledKeepsInv(s);
      case Exit =>
        if s.current.Some? {
          var c := s.current.value;
          var s1 := s.(procs := s.procs[c := s.procs[c].(state := Exited)]);
          assert forall p :: p in s1.procs ==> p in s.procs && ProcOk(s, p);
          ScheduledKeepsInv(s1);
        }
      case Spawn =>
        InitialisedKeepsInv(s);
        SpawnKeepsInv(Initialised(s));
      case FailSpawn =>
        InitialisedKeepsInv(s);
        var s1 := Initialised(s);
        assert forall p :: p in s1.procs ==> ProcOk(s1, p);
      case RejectSpawn => InitialisedKeepsInv(s);
    }
  }

  lemma InitialisedKeepsInv(s: Sched)
    requires Inv(s)
    ensures Inv(Initialised(s)) && Initialised(s).current.Some?
  {
  }

  lemma SpawnKeepsInv(s: Sched)
    requires Inv(s) && s.current.Some?
    ensures Inv(Spawned(s))
  {
    var r := Spawned(s);
    var pid := s.nextPid;
    assert forall p :: p in s.procs ==> ProcOk(s, p);
    assert pid !in s.procs;
    forall p | p in r.procs ensures ProcOk(r, p) {
      if p != pid { assert ProcOk(s, p); }
      assert p in s.queue ==> p in r.queue;
    }
  }

  /** Over every run from boot the scheduler's structure is sound. */
  lemma {:induction false} RunKeepsInv(s: Sched, es: seq<Event>)
    requires Inv(s)
    ensures Inv(Run(s, es))
    decreases |es|
  {
    if es != [] {
      StepKeepsInv(s, es[0]);
      RunKeepsInv(Step(s, es[0]), es[1..]);
    }
  }

  // ---- exit --------------------------------------------------------------------------

  predicate HasExited(s: Sched, p: nat)
  {
    p in s.procs && s.procs[p].state == Exited
  }

  lemma ExitedStep(s: Sched, e: Event, p: nat)
    requires Inv(s) && HasExited(s, p)
    ensures HasExited(Step(s, e), p)
    ensures s.current != Some(p) ==> Step(s, e).current != Some(p)
  {
    assert ProcOk(s, p);
    assert s.nextPid != p && p !in s.queue;
    assert s.queue != [] ==> s.queue[0] in s.queue;
  }

  /** An exited process stays exited and, once switched away from, never runs again. */
  lemma {:induction false} ExitedForever(s: Sched, es: seq<Event>, p: nat)
    requires Inv(s) && HasExited(s, p)
    ensures HasExited(Run(s, es), p)
    ensures s.current != Some(p) ==> Run(s, es).current != Some(p)
    decreases |es|
  {
    if es != [] {
      StepKeepsInv(s, es[0]);
      ExitedStep(s, es[0], p);
      ExitedForever(Step(s, es[0]), es[1..], p);
    }
  }

  /** While the boot process lives, another process's exit always hands over to a ready process. */
  lemma ExitFindsSuccessor(s: Sched)
    requires Inv(s) && s.current.Some? && s.current.value != 0 && !HasExited(s, 0)
    ensures s.queue != []
    ensures var r := Step(s, Exit);
            && r.current == Some(s.queue[0]) && r.current != s.current && HasExited(r, s.current.value)
            && r.procs[s.queue[0]].state == Running && r.queue == s.queue[1..]
  {
    assert ProcOk(s, 0);
    assert s.queue[0] in s.queue;
  }

  // ---- bounded waiting ------------------------------------------------------------------

  /** Upper bound on the timer ticks until `p` runs: the rest of this slice and one slice per process ahead. */
  function WaitBound(s: Sched, p: nat): (n: nat)
    requires s.current.Some? && s.current.value in s.procs && p in s.queue
  {
    s.procs[s.current.value].ticksLeft + DEFAULT_TIME_SLICE_TICKS * IndexOf(s.queue, p)
  }

  function Ticks(es: seq<Event>): (n: nat)
  {
    if es == [] then 0 else (if es[0] == Tick then 1 else 0) + Ticks(es[1..])
  }

  lemma {:induction false} IndexAppend(q: seq<nat>, t: seq<nat>, p: nat)
    requires p in q
    ensures p in q + t && IndexOf(q + t, p) == IndexOf(q, p)
  {
    if q[0] != p {
      assert (q + t)[1..] == q[1..] + t;
      IndexAppend(q[1..], t, p);
    }
  }

  /** A pop either runs `p` or moves it one place up with a fresh slice ahead of it. */
  lemma ScheduledWait(s: Sched, p: nat)
    requires Inv(s) && s.current.Some? && p in s.queue
    ensures var r := Scheduled(s);
            || r.current == Some(p)
            || (r.current.Some? && r.current.value in r.procs && p in r.queue &&
                WaitBound(r, p) == DEFAULT_TIME_SLICE_TICKS * IndexOf(s.queue, p))
  {
    var next, c := s.queue[0], s.current.value;
    assert next in s.queue;
    if p != next {
      assert p in s.queue[1..];
      IndexAppend(s.queue[1..], [c], p);
    }
  }

  lemma StepWait(s: Sched, e: Event, p: nat)
    requires Inv(s) && p in s.queue
    ensures var r := Step(s, e);
            || r.current == Some(p)
            || (r.current.Some? && r.current.value in r.procs && p in r.queue &&
                WaitBound(r, p) + (if e == Tick then 1 else 0) <= WaitBound(s, p))
  {
    var c := s.current.value;
    assert ProcOk(s, c);
    match e {
      case Tick =>
        if s.procs[c].ticksLeft == 1 {
          var s1 := s.(procs := s.procs[c := s.procs[c].(ticksLeft := DEFAULT_TIME_SLICE_TICKS)]);
          assert forall q :: q in s1.procs ==> q in s.procs && ProcOk(s, q);
          ScheduledWait(s1, p);
        }
      case Yield => ScheduledWait(s, p);
      case Exit =>
        var s1 := s.(procs := s.procs[c := s.procs[c].(state := Exited)]);
        assert forall q :: q in s1.procs ==> q in s.procs && ProcOk(s, q);
        ScheduledWait(s1, p);
      case Spawn => IndexAppend(s.queue, [s.nextPid], p);
      case FailSpawn =>
      case RejectSpawn =>
    }
  }

  /**
    A queued process becomes current within its wait bound of timer ticks, whatever
    spawns, yields and exits come in between.
  */
  lemma {:induction false} BoundedWaiting(s: Sched, es: seq<Event>, p: nat) returns (k: nat)
    requires Inv(s) && p in s.queue && s.current.Some?
    requires Ticks(es) >= WaitBound(s, p)
    ensures k <= |es| && Run(s, es[..k]).current == Some(p)
    ensures Ticks(es[..k]) <= WaitBound(s, p)
    decreases |es|
  {
    assert ProcOk(s, s.current.value);
    var s1 := Step(s, es[0]);
    StepKeepsInv(s, es[0]);
    StepWait(s, es[0], p);
    if s1.current == Some(p) {
      k := 1;
      assert es[..1] == [es[0]];
      assert Run(s, [es[0]]) == Run(s1, []);
    } else {
      var j := BoundedWaiting(s1, es[1..], p);
      k := j + 1;
      assert es[..k][1..] == es[1..][..j];
    }
  }

  /** The rest of the current slice and one slice per queued process; a full slice if nothing runs yet. */
  function SpawnBound(s: Sched): (n: nat)
    requires s.current.Some? ==> s.current.value in s.procs
  {
    (if s.current.Some? then s.procs[s.current.value].ticksLeft else DEFAULT_TIME_SLICE_TICKS) + DEFAULT_TIME_SLICE_TICKS * |s.queue|
  }

  /** A process spawned now becomes current within its bound of timer ticks. */
  lemma SpawnedRuns(s: Sched, es: seq<Event>) returns (k: nat)
    requires Inv(s) && Ticks(es) >= SpawnBound(s)
    ensures s.nextPid !in s.procs
    ensures k <= |es| && Run(Step(s, Spawn), es[..k]).current == Some(s.nextPid)
    ensures Ticks(es[..k]) <= SpawnBound(s)
  {
    var pid, r := s.nextPid, Step(s, Spawn);
    assert forall p :: p in s.procs ==> ProcOk(s, p);
    StepKeepsInv(s, Spawn);
    assert r.queue == s.queue + [pid];
    assert pid !in s.queue;
    LastIndex(s.queue, pid);
    k := BoundedWaiting(r, es, pid);
  }

  lemma {:induction false} LastIndex(q: seq<nat>, p: nat)
    requires p !in q
    ensures p in q + [p] && IndexOf(q + [p], p) == |q|
  {
    if q != [] {
      assert (q + [p])[1..] == q[1..] + [p];
      LastIndex(q[1..], p);
    }
  }

  // ---- time slices ----------------------------------------------------------------------

  /** The current process neither yields nor exits. */
  predicate Undisturbed(es: seq<Event>)
  {
    Yield !in es && Exit !in es
  }

  /** Until its slice is used up a process stays current, and those behind it keep their order. */
  lemma {:induction false} KeepsSlice(s: Sched, es: seq<Event>)
    requires Inv(s) && s.current.Some? && Undisturbed(es) && Ticks(es) < s.procs[s.current.value].ticksLeft
    ensures var r, c := Run(s, es), s.current.value;
            && r.current == s.current && c in r.procs && r.procs[c] == s.procs[c].(ticksLeft := s.procs[c].ticksLeft - Ticks(es))
            && s.queue <= r.queue
    decreases |es|
  {
    if es != [] {
      var c := s.current.value;
      assert ProcOk(s, c);
      assert es[0] in es && forall e :: e in es[1..] ==> e in es;
      StepKeepsInv(s, es[0]);
      KeepsSlice(Step(s, es[0]), es[1..]);
    }
  }

  /** The tick that uses up the slice hands over to the process that has waited longest. */
  lemma SliceEnds(s: Sched, es: seq<Event>)
    requires Inv(s) && s.current.Some? && s.queue != [] && Undisturbed(es)
    requires Ticks(es) + 1 == s.procs[s.current.value].ticksLeft
    ensures var r, c := Run(s, es + [Tick]), s.current.value;
            && r.current == Some(s.queue[0]) && s.queue[0] in r.procs && c in r.procs
            && r.procs[s.queue[0]] == Proc(Running, DEFAULT_TIME_SLICE_TICKS)
            && (s.procs[c].state == Running ==>
                  r.procs[c] == Proc(Ready, DEFAULT_TIME_SLICE_TICKS) && r.queue != [] && r.queue[|r.queue| - 1] == c)
            && s.queue[1..] <= r.queue
  {
    var m := Run(s, es);
    KeepsSlice(s, es);
    RunKeepsInv(s, es);
    RunOneMore(s, es, Tick);
    assert m.queue[0] in m.queue;
    assert m.queue[1..][..|s.queue| - 1] == s.queue[1..];
  }

  lemma {:induction false} RunOneMore(s: Sched, es: seq<Event>, e: Event)
    ensures Run(s, es + [e]) == Step(Run(s, es), e)
    decreases |es|
  {
    if es == [] {
      assert es + [e] == [e] && [e][1..] == [];
    } else {
      assert (es + [e])[1..] == es[1..] + [e];
      RunOneMore(Step(s, es[0]), es[1..], e);
    }
  }

  /**
    The processor passes from the current process to the head of the queue, which gets a full slice;
    the current one goes to the back if it still runs, and nothing else changes.
  */
  ghost predicate HandsOver(s: Sched, r: Sched)
    requires Inv(s) && s.current.Some? && s.queue != []
  {
    var next, prev := s.queue[0], s.current.value;
    && r.current == Some(next) && r.nextPid == s.nextPid && r.procs.Keys == s.procs.Keys
    && next in r.procs && r.procs[next] == Proc(Running, 5)
    && r.queue == s.queue[1..] + (if s.procs[prev].state == Running then [prev] else [])
    && (forall p :: p in s.procs && p != next ==>
          r.procs[p] == if p == prev && s.procs[p].state == Running then Proc(Ready, s.procs[p].ticksLeft) else s.procs[p])
  }

  /** The current process has `left` ticks to go; nothing else changes. */
  function WithTicks(s: Sched, left: nat): (r: Sched)
    requires s.current.Some? && s.current.value in s.procs
  {
    s.(procs := s.procs[s.current.value := s.procs[s.current.value].(ticksLeft := left)])
  }

  // ---- the scheduler --------------------------------------------------------------------

  /** One tick of a time slice; `expired` when the slice was used up and reloaded. */
  method ConsumeTick(ticksLeft: nat, defaultSlice: nat) returns (left: nat, expired: bool)
    ensures expired <==> ticksLeft <= 1
    ensures left == if expired then defaultSlice else ticksLeft - 1
  {
    left := ticksLeft;
    if left > 0 {
      left := left - 1;
    }
    if left == 0 {
      left := defaultSlice;
      expired := true;
    } else {
      expired := false;
    }
  }

  class Scheduler {
    var procs: map<nat, Proc>
    var readyQueue: seq<nat>
    var current: Option<nat>
    var nextPid: nat

    ghost function State(): (s: Sched)
      reads this
    {
      Sched(procs, readyQueue, current, nextPid)
    }

    constructor ()
      ensures State() == BOOT && Inv(State())
    {
      procs, readyQueue, current, nextPid := map[], [], None, 1;
    }

    method Init()
      modifies this
      ensures State() == Initialised(old(State()))
      ensures old(current).Some? ==> State() == old(State())
      ensures old(current).None? ==>
                && current == Some(0) && procs == old(procs)[0 := Proc(Running, 5)]
                && readyQueue == old(readyQueue) && nextPid == old(nextPid)
    {
      if current.Some? {
        return;
      }
      procs := procs[0 := Proc(Running, DEFAULT_TIME_SLICE_TICKS)];
      current := Some(0);
    }

    method PushReady(pid: nat)
      requires pid in procs
      modifies this
      ensures procs == old(procs)[pid := old(procs)[pid].(state := Ready)] && readyQueue == old(readyQueue) + [pid]
      ensures current == old(current) && nextPid == old(nextPid)
    {
      procs := procs[pid := procs[pid].(state := Ready)];
      readyQueue := readyQueue + [pid];
    }

    method Schedule()
      requires Inv(State())
      modifies this
      ensures State() == Scheduled(old(State())) && Inv(State())
      ensures old(readyQueue) == [] ==> State() == old(State())
      ensures old(readyQueue) != [] ==> HandsOver(old(State()), State())
    {
      ScheduledKeepsInv(State());
      if readyQueue == [] {
        return;
      }
      var next := readyQueue[0];
      assert next in readyQueue;
      readyQueue := readyQueue[1..];
      var previous := current.value;
      if previous == next {
        return;
      }
      if procs[previous].state == Running {
        procs := procs[previous := procs[previous].(state := Ready)];
        readyQueue := readyQueue + [previous];
      }
      procs := procs[next := procs[next].(state := Running)];
      procs := procs[next := procs[next].(ticksLeft := DEFAULT_TIME_SLICE_TICKS)];
      current := Some(next);
    }

    method OnTimerTick()
      requires Inv(State())
      modifies this
      ensures State() == Step(old(State()), Tick) && Inv(State())
      ensures old(current).None? ==> State() == old(State())
      ensures old(current).Some? ==>
                var left := old(procs)[old(current).value].ticksLeft;
                && (left > 1 ==> State() == WithTicks(old(State()), left - 1))
                && (left == 1 ==>
                      var s := WithTicks(old(State()), 5);
                      Inv(s) && if old(readyQueue) == [] then State() == s else HandsOver(s, State()))
    {
      StepKeepsInv(State(), Tick);
      if current.None? {
        return;
      }
      var c := current.value;
      assert ProcOk(State(), c);
      var left, expired := ConsumeTick(procs[c].ticksLeft, DEFAULT_TIME_SLICE_TICKS);
      ghost var s0 := State();
      procs := procs[c := procs[c].(ticksLeft := left)];
      if expired {
        assert forall p :: p in procs ==> p in s0.procs && ProcOk(s0, p);
        assert Inv(State());
        Schedule();
      }
    }

    method YieldNow()
      requires Inv(State())
      modifies this
      ensures State() == Step(old(State()), Yield) && Inv(State())
      ensures old(readyQueue) == [] ==> State() == old(State())
      ensures old(readyQueue) != [] ==> HandsOver(old(State()), State())
    {
      Schedule();
    }

    method ExitCurrent()
      requires Inv(State())
      modifies this
      ensures State() == Step(old(State()), Exit) && Inv(State())
      ensures old(current).None? ==> State() == old(State())
      ensures old(current).Some? ==>
                var c := old(current).value;
                && HasExited(State(), c) && c !in readyQueue && nextPid == old(nextPid) && procs.Keys == old(procs).Keys
                && current == (if old(readyQueue) == [] then Some(c) else Some(old(readyQueue)[0]))
                && readyQueue == (if old(readyQueue) == [] then [] else old(readyQueue)[1..])
                && (forall p :: p in procs && p != c && current != Some(p) ==> procs[p] == old(procs)[p])
                && (current != Some(c) ==> procs[current.value] == Proc(Running, 5))
    {
      StepKeepsInv(State(), Exit);
      ghost var s0 := State();
      if current.Some? {
        procs := procs[current.value := procs[current.value].(state := Exited)];
        assert forall p :: p in procs ==> p in s0.procs && ProcOk(s0, p);
      }
      Schedule();
    }

    /** Spawn a process; `memory` says whether its stacks and pages could be allocated. */
    method SpawnProcess(accepted: bool, memory: bool) returns (pid: Option<nat>)
      requires Inv(State())
      modifies this
      ensures Inv(State())
      ensures State() == Step(old(State()), if !accepted then RejectSpawn else if !memory then FailSpawn else Spawn)
      ensures pid == (if accepted && memory then Some(old(nextPid)) else None)
      ensures nextPid == old(nextPid) + (if accepted then 1 else 0)
      ensures current == (if old(current).None? then Some(0) else old(current))
      ensures pid.Some? ==>
                && pid.value !in old(procs) && pid.value in procs && procs[pid.value] == Proc(Ready, 5)
                && readyQueue == old(readyQueue) + [pid.value]
      ensures pid.None? ==> readyQueue == old(readyQueue)
      ensures forall p :: p in procs <==> p in old(procs) || (old(current).None? && p == 0) || pid == Some(p)
      ensures forall p :: p in old(procs) ==> procs[p] == old(procs)[p]
      ensures old(current).None? ==> procs[0] == Proc(Running, 5)
    {
      assert forall p :: p in procs ==> ProcOk(State(), p);
      StepKeepsInv(State(), if !accepted then RejectSpawn else if !memory then FailSpawn else Spawn);
      Init();
      if !accepted {
        return None;
      }
      var id := nextPid;
      nextPid := nextPid + 1;
      if !memory {
        return None;
      }
      procs := procs[id := Proc(Ready, DEFAULT_TIME_SLICE_TICKS)];
      PushReady(id);
      return Some(id);
    }
  }
}
