/** The timer part of one turn of `ev_run`: expired timers become pending, then what is pending is called. A callback
    may feed and clear pending events and start, stop and restart timers. */
module TimerRun {
  import opened Wrappers
  import opened Pending
  import opened Heap4
  import opened T = Timers

  /** What a callback does, as far as timers and pending events are concerned. */
  datatype TimerAction =
    | Pend(action: Action)      // ev_feed_event, ev_clear_pending
    | StartTimer(w: Watcher)    // ev_timer_start
    | StopTimer(w: Watcher)     // ev_timer_stop
    | AgainTimer(w: Watcher)    // ev_timer_again

  /** The running timers with their times, and the `at` fields of all. */
  datatype Schedule = Schedule(armed: Times, ats: Times)

  function At(ats: Times, w: Watcher): real { if w in ats then ats[w] else 0.0 }

  function Stopped(s: Schedule, w: Watcher, now: real): Schedule {
    if w !in s.armed then s else Schedule(s.armed - {w}, s.ats[w := At(s.ats, w) - now])
  }

  function Acted(s: Schedule, a: TimerAction, repeats: Times, now: real): Schedule {
    match a
    case Pend(_) => s
    case StartTimer(w) =>
      if w in s.armed then s else Schedule(s.armed[w := At(s.ats, w) + now], s.ats[w := At(s.ats, w) + now])
    case StopTimer(w) => Stopped(s, w, now)
    case AgainTimer(w) =>
      if Repeat(repeats, w) != 0.0 then
        Schedule(s.armed[w := now + Repeat(repeats, w)], s.ats[w := now + Repeat(repeats, w)])
      else
        Stopped(s, w, now)
  }

  function ActedAll(s: Schedule, actions: seq<TimerAction>, repeats: Times, now: real): Schedule {
    if actions == [] then s
    else Acted(ActedAll(s, actions[..|actions| - 1], repeats, now), actions[|actions| - 1], repeats, now)
  }

  lemma {:induction false} ActedMore(s: Schedule, a: seq<TimerAction>, b: seq<TimerAction>, repeats: Times, now: real)
    ensures ActedAll(s, a + b, repeats, now) == ActedAll(ActedAll(s, a, repeats, now), b, repeats, now)
    decreases |b|
  {
    if b == [] {
      assert a + b == a;
    } else {
      var c := b[..|b| - 1];
      assert (a + b)[..|a + b| - 1] == a + c;
      ActedMore(s, a, c, repeats, now);
    }
  }

  /** What the first `n` callbacks did. */
  function Done(script: seq<seq<TimerAction>>, n: nat): seq<TimerAction> {
    if n == 0 then [] else Done(script, n - 1) + if n <= |script| then script[n - 1] else []
  }

  /** The number of calls. */
  function Invocations(log: seq<Event>): nat {
    if log == [] then 0 else Invocations(log[..|log| - 1]) + if log[|log| - 1].Invoked? then 1 else 0
  }

  lemma {:induction false} InvocationsMore(log: seq<Event>, more: seq<Event>)
    requires forall i :: 1 <= i < |more| ==> !more[i].Invoked?
    ensures Invocations(log + more) == Invocations(log) + if more != [] && more[0].Invoked? then 1 else 0
    decreases |more|
  {
    if more == [] {
      assert log + more == log;
    } else {
      var init := more[..|more| - 1];
      assert (log + more)[..|log + more| - 1] == log + init;
      InvocationsMore(log, init);
    }
  }

  ghost function ScheduleOf(t: T.Timers): Schedule
    reads t.heap.watchers`active, t.heap.watchers`at
  {
    Schedule(t.Armed(), t.Ats())
  }

  ghost predicate MayAct(t: T.Timers, actions: seq<TimerAction>)
    reads t.heap.watchers`repeat
  {
    forall i :: 0 <= i < |actions| ==>
      if actions[i].Pend? then actions[i].action.w in t.q.watchers
      else actions[i].w in t.heap.watchers && actions[i].w.repeat >= 0.0
  }

  lemma ArmedIs(t: T.Timers, w: Watcher)
    requires w in t.heap.watchers
    ensures w in t.Armed() <==> w.active != 0
    ensures At(t.Ats(), w) == w.at && Repeat(t.Repeats(), w) == w.repeat
  {
  }

  /** One action. */
  method Act(t: T.Timers, a: TimerAction) returns (log: seq<Event>)
    requires t.Valid() && MayAct(t, [a])
    modifies t.heap`slots, t.heap`gone, t.heap.watchers`active, t.heap.watchers`at, t.q`pendings, t.q.watchers`pending
    ensures t.Valid() && Replay(old(t.q.Pending()), log) == Some(t.q.Pending())
    ensures forall i :: 0 <= i < |log| ==> !log[i].Invoked?
    ensures EachStays(old(t.q.pendings), t.q.pendings, log)
    ensures ScheduleOf(t) == Acted(old(ScheduleOf(t)), a, t.Repeats(), t.now)
  {
    hide Queues.Valid, Queues.Pending, Heap.Valid, T.Timers.Cached, T.Timers.Armed, T.Timers.Ats, T.Timers.Repeats;
    hide EachStays, With;
    assert [a][0] == a;
    t.q.StackCount();
    ReplayNone(t.q.Pending());
    label Start:
    match a
    case Pend(Feed(w, events)) =>
      t.q.FeedEvent(w, events);
      log := [Fed(w, events)];
      t.HeapKept@Start();
    case Pend(Clear(w)) =>
      var _ := t.q.ClearPending(w);
      log := [Cleared(w)];
      t.HeapKept@Start();
    case StartTimer(w) =>
      ArmedIs(t, w);
      t.Start(w);
      log := [];
      SameStays(t.q.pendings, []);
      t.AtsAre@Start(w);
    case StopTimer(w) =>
      ArmedIs(t, w);
      t.Stop(w);
      log := [Cleared(w)];
      t.AtsAre@Start(w);
    case AgainTimer(w) =>
      ArmedIs(t, w);
      t.Again(w);
      log := [Cleared(w)];
      t.AtsAre@Start(w);
  }

  /** A callback. */
  method CallTimers(t: T.Timers, actions: seq<TimerAction>) returns (log: seq<Event>)
    requires t.Valid() && MayAct(t, actions)
    modifies t.heap`slots, t.heap`gone, t.heap.watchers`active, t.heap.watchers`at, t.q`pendings, t.q.watchers`pending
    ensures t.Valid() && Replay(old(t.q.Pending()), log) == Some(t.q.Pending())
    ensures forall i :: 0 <= i < |log| ==> !log[i].Invoked?
    ensures EachStays(old(t.q.pendings), t.q.pendings, log)
    ensures ScheduleOf(t) == ActedAll(old(ScheduleOf(t)), actions, t.Repeats(), t.now)
    ensures actions == [] ==> log == [] && t.q.pendings == old(t.q.pendings)
  {
    hide Queues.Valid, Queues.Pending, Heap.Valid, T.Timers.Cached, ScheduleOf, T.Timers.Repeats, EachStays, Acted;
    hide ActedAll, Replay;
    ghost var entry := ScheduleOf(t);
    log := [];
    ReplayNone(t.q.Pending());
    t.q.StackCount();
    SameStays(t.q.pendings, []);
    NothingDone(entry, t.Repeats(), t.now);
    for k := 0 to |actions|
      invariant t.Valid() && Replay(old(t.q.Pending()), log) == Some(t.q.Pending())
      invariant forall i :: 0 <= i < |log| ==> !log[i].Invoked?
      invariant EachStays(old(t.q.pendings), t.q.pendings, log)
      invariant ScheduleOf(t) == ActedAll(entry, actions[..k], t.Repeats(), t.now)
      invariant k == 0 ==> log == [] && t.q.pendings == old(t.q.pendings)
    {
      ghost var stacks := t.q.pendings;
      var more := Act(t, actions[k]);
      ReplayJoin(old(t.q.Pending()), log, more);
      EachStaysOn(old(t.q.pendings), stacks, t.q.pendings, log, more);
      ActedNext(entry, actions, k, t.Repeats(), t.now);
      log := log + more;
    }
    assert actions[..|actions|] == actions;
  }

  lemma NothingDone(s: Schedule, repeats: Times, now: real)
    ensures ActedAll(s, [], repeats, now) == s
  {
  }

  lemma ActedNext(s: Schedule, actions: seq<TimerAction>, k: nat, repeats: Times, now: real)
    requires k < |actions|
    ensures ActedAll(s, actions[..k + 1], repeats, now)
              == Acted(ActedAll(s, actions[..k], repeats, now), actions[k], repeats, now)
  {
    assert actions[..k + 1][..k] == actions[..k];
  }

  /** One turn of the inner loop of `ev_invoke_pending`. */
  method InvokeTop(t: T.Timers, pri: nat, actions: seq<TimerAction>) returns (log: seq<Event>)
    requires t.Valid() && MayAct(t, actions)
    requires pri < NUM_PRI == |t.q.pendings| && t.q.pendings[pri] != []
    modifies t.heap`slots, t.heap`gone, t.heap.watchers`active, t.heap.watchers`at
    modifies t.q`pendings, t.q.watchers`pending, t.q.dummy`pending
    ensures t.Valid() && Replay(old(t.q.Pending()), log) == Some(t.q.Pending())
    ensures log != [] ==> log[0].Invoked? && log[0].w.priority == pri
    ensures forall i :: 1 <= i < |log| ==> !log[i].Invoked?
    ensures var top := old(t.q.pendings)[pri][|old(t.q.pendings)[pri]| - 1];
      && (if log == [] then top.w == t.q.dummy else log[0].w == top.w)
      && (actions == [] ==> log == if top.w == t.q.dummy then [] else [Invoked(top.w, top.events)])
    ensures log == [] || actions == [] ==>
      t.q.pendings == old(t.q.pendings)[pri := old(t.q.pendings)[pri][..|old(t.q.pendings)[pri]| - 1]]
    ensures actions == [] ==> forall w :: w in t.q.Pending() ==> w in old(t.q.Pending())
    ensures EachStays(old(t.q.pendings)[pri := old(t.q.pendings)[pri][..|old(t.q.pendings)[pri]| - 1]], t.q.pendings,
                      log)
    ensures ScheduleOf(t) ==
      if log == [] then old(ScheduleOf(t)) else ActedAll(old(ScheduleOf(t)), actions, t.Repeats(), t.now)
  {
    hide Queues.Valid, Queues.Pending, Heap.Valid, T.Timers.Cached, T.Timers.Armed, T.Timers.Ats;
    hide T.Timers.Repeats, EachStays, ActedAll, Replay;
    ghost var was := t.q.Pending();
    t.q.StackCount();
    label Start:
    var top := t.q.Pop(pri);
    ghost var stacks := t.q.pendings;
    t.HeapKept@Start();
    ReplayNone(was);
    if top.w == t.q.dummy {
      SameStays(stacks, []);
      return [];
    }
    OnlyLess(was, Invoked(top.w, top.events));
    ReplayNone(t.q.Pending());
    var first := [Invoked(top.w, top.events)];
    var rest := CallTimers(t, actions);
    ReplayStep(was, [], first[0]);
    assert [] + [first[0]] == first;
    ReplayJoin(was, first, rest);
    SameStays(stacks, first);
    EachStaysOn(stacks, stacks, t.q.pendings, first, rest);
    log := first + rest;
  }

  /** `ev_invoke_pending` when the k-th callback does `script[k]` and later ones nothing; `done` is what they did in
      all. */
  method InvokeTimers(t: T.Timers, script: seq<seq<TimerAction>>) returns (log: seq<Event>)
    requires t.Valid() && forall k :: 0 <= k < |script| ==> MayAct(t, script[k])
    modifies t.heap`slots, t.heap`gone, t.heap.watchers`active, t.heap.watchers`at
    modifies t.q`pendings, t.q.watchers`pending, t.q.dummy`pending
    ensures t.Valid() && Replay(old(t.q.Pending()), log) == Some(t.q.Pending())
    ensures StacksInTurn(old(t.q.pendings), log, 0, t.q.dummy) && Falling(log, 0)
    ensures ScheduleOf(t) == ActedAll(old(ScheduleOf(t)), Done(script, Invocations(log)), t.Repeats(), t.now)
    ensures |old(t.q.pendings)| == NUM_PRI
    ensures script == [] ==> log == DrainAll(old(t.q.pendings), NUM_PRI, t.q.dummy) && t.q.Pending() == map[]
  {
    hide Queues.Valid, Queues.Pending, Heap.Valid, T.Timers.Cached, ScheduleOf, T.Timers.Repeats, EachStays, ActedAll;
    hide Replay;
    hide Drain, DrainAll, StacksInTurn, AllHolding, OfStacks, OnceEach, Done, Invocations, Falling;
    ghost var entry, schedule, dummy := t.q.pendings, ScheduleOf(t), t.q.dummy;
    t.q.StackFacts();
    t.q.StackCount();
    InTurnNone(entry, dummy);
    log := [];
    var k, pri := 0, NUM_PRI;
    FallingNone(pri);
    ReplayNone(t.q.Pending());
    NothingCalled(script, schedule, t.Repeats(), t.now);
    while pri > 0
      invariant 0 <= pri <= NUM_PRI && 0 <= k <= |script| && t.Valid()
      invariant Replay(old(t.q.Pending()), log) == Some(t.q.Pending())
      invariant ScheduleOf(t) == ActedAll(schedule, Done(script, Invocations(log)), t.Repeats(), t.now)
      invariant k == if Invocations(log) <= |script| then Invocations(log) else |script|
      invariant |t.q.pendings| == NUM_PRI && Falling(log, pri)
      invariant script == [] ==> forall p :: 0 <= p < pri ==> t.q.pendings[p] == entry[p]
      invariant script == [] ==> log + DrainAll(entry, pri, dummy) == DrainAll(entry, NUM_PRI, dummy)
      invariant script == [] ==> forall w :: w in t.q.Pending() ==> w.priority < pri
      invariant AllHolding(entry, t.q.pendings, log, dummy) && StacksInTurn(entry, log, pri, dummy)
    {
      DrainAllStep(entry, pri, dummy);
      FallingLower(log, pri);
      pri := pri - 1;
      ghost var first := log;
      while t.q.pendings[pri] != []
        invariant 0 <= k <= |script| && t.Valid() && |t.q.pendings| == NUM_PRI && Falling(log, pri)
        invariant Replay(old(t.q.Pending()), log) == Some(t.q.Pending())
        invariant ScheduleOf(t) == ActedAll(schedule, Done(script, Invocations(log)), t.Repeats(), t.now)
        invariant k == if Invocations(log) <= |script| then Invocations(log) else |script|
        invariant script == [] ==> forall p :: 0 <= p < pri ==> t.q.pendings[p] == entry[p]
        invariant script == [] ==> log + Drain(t.q.pendings[pri], dummy) == first + Drain(entry[pri], dummy)
        invariant script == [] ==> forall w :: w in t.q.Pending() ==> w.priority <= pri
        invariant AllHolding(entry, t.q.pendings, log, dummy) && StacksInTurn(entry, log, pri + 1, dummy)
        decreases |script| - k, |t.q.pendings[pri]|
      {
        ghost var stack, stacks := t.q.pendings[pri], t.q.pendings;
        t.q.StackFacts();
        var actions := if k < |script| then script[k] else [];
        var more := InvokeTop(t, pri, actions);
        NextCalled(script, schedule, log, more, actions, t.Repeats(), t.now);
        if more != [] && k < |script| { k := k + 1; }
        ReplayJoin(old(t.q.Pending()), log, more);
        FallingMore(log, more, pri);
        DrainStep(log, stack, dummy);
        InTurnMore(entry, stacks, t.q.pendings, log, more, pri, pri + 1, dummy);
        log := log + more;
        t.q.StackCount();
      }
      t.q.PendingAt(pri);
      DrainNone(log, dummy);
      InTurnLower(entry, t.q.pendings, log, pri, dummy);
    }
    DrainNone(log, dummy);
    t.q.StackCount();
  }

  lemma NothingCalled(script: seq<seq<TimerAction>>, s: Schedule, repeats: Times, now: real)
    ensures Invocations([]) == 0 && ActedAll(s, Done(script, 0), repeats, now) == s
  {
  }

  lemma NextCalled(script: seq<seq<TimerAction>>, s: Schedule, log: seq<Event>, more: seq<Event>,
                   actions: seq<TimerAction>,
                   repeats: Times, now: real)
    requires forall i :: 1 <= i < |more| ==> !more[i].Invoked?
    requires more != [] ==> more[0].Invoked?
    requires actions == if Invocations(log) < |script| then script[Invocations(log)] else []
    ensures Invocations(log + more) == Invocations(log) + if more == [] then 0 else 1
    ensures ActedAll(s, Done(script, Invocations(log + more)), repeats, now) ==
      if more == [] then ActedAll(s, Done(script, Invocations(log)), repeats, now)
      else ActedAll(ActedAll(s, Done(script, Invocations(log)), repeats, now), actions, repeats, now)
  {
    InvocationsMore(log, more);
    ActedMore(s, Done(script, Invocations(log)), actions, repeats, now);
  }

  /** What `ev_run` does with timers: make the expired ones pending, then call what is pending; the k-th callback
      feeds, clears, starts, stops and restarts as `script[k]` says. If none of the expired timers was pending before,
      they are called in the order in which they expired: of two of one priority that no callback clears or stops, the
      earlier one is called first, and of any two the later one only after the earlier one was called, cleared or
      stopped, unless this happened to it before. Starting and restarting arms timers, and makes none pending. Without
      such callbacks the whole order is known. */
  method RunTimers(t: T.Timers, script: seq<seq<TimerAction>>) returns (fired: seq<Anhe>, log: seq<Event>)
    requires t.Valid() && t.q.rfeeds == [] && forall k :: 0 <= k < |script| ==> MayAct(t, script[k])
    modifies t.heap`slots, t.heap`gone, t.heap.watchers`active, t.heap.watchers`at
    modifies t.q`pendings, t.q`rfeeds, t.q.watchers`pending, t.q.dummy`pending
    ensures t.Valid() && Falling(log, 0)
    ensures EachFirst(old(t.Armed()), fired, t.Repeats(), t.now)
    ensures Expired(After(old(t.Armed()), fired, t.Repeats(), t.now), t.now) == {}
    ensures ScheduleOf(t) ==
      ActedAll(Schedule(After(old(t.Armed()), fired, t.Repeats(), t.now),
                        Settled(old(t.Ats()), fired, t.Repeats(), t.now)),
               Done(script, Invocations(log)), t.Repeats(), t.now)
    ensures Replay(FedAll(old(t.q.Pending()) - t.OneShots(fired), Names(fired), EV_TIMER), log) == Some(t.q.Pending())
    ensures script == [] ==> t.q.Pending() == map[] && t.Armed() == After(old(t.Armed()), fired, t.Repeats(), t.now)
    ensures NonePending(Expired(old(t.Armed()), t.now), old(t.q.Pending())) ==>
      && InExpiryOrder(fired, log)
      && |old(t.q.pendings)| == NUM_PRI
      && (script == [] ==> log == TimersFirst(old(t.q.pendings), fired, NUM_PRI, t.q.dummy))
  {
    hide Queues.Valid, Queues.Pending, Heap.Valid, T.Timers.Cached, T.Timers.Armed, T.Timers.Ats, T.Timers.Repeats;
    hide EachFirst, After, Settled, T.Timers.OneShots, FedAll, Pushed, NonePending, Expired, DrainAll, TimersFirst;
    hide StacksInTurn, InExpiryOrder, ActedAll, Replay, Falling;
    fired := t.Reify();
    ghost var schedule := Schedule(t.Armed(), t.Ats());
    ghost var stacks := t.q.pendings;
    t.q.StackCount();
    ghost var clean := NonePending(Expired(old(t.Armed()), t.now), old(t.q.Pending()));
    if clean {
      t.NotDummy(fired);
      DrainTimersFirst(old(t.q.pendings), stacks, fired, NUM_PRI, t.q.dummy);
    }
    log := InvokeTimers(t, script);
    NoneActed(Invocations(log), schedule, t.Repeats(), t.now);
    if clean { OrderOfExpiry(old(t.q.pendings), stacks, fired, log, t.q.dummy); }
  }

  lemma {:induction false} NoneActed(n: nat, s: Schedule, repeats: Times, now: real)
    ensures Done([], n) == []
    ensures ActedAll(s, Done([], n), repeats, now) == s
  {
    if n > 0 { NoneActed(n - 1, s, repeats, now); }
  }
}
