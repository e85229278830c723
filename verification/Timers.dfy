/** Timers of `libev/ev.c`: relative timeouts on the 4-heap, and how expired timers become pending. */
module Timers {

  import opened Wrappers
  import opened Pending
  import opened Heap4

  function MaxOf(a: real, b: real): real { if a < b then b else a }

  // ---------- Expiry, on the map from running timers to their times ----------

  type Times = map<Watcher, real>

  function Names(fired: seq<Anhe>): (r: seq<Watcher>)
    ensures |r| == |fired| && forall i :: 0 <= i < |r| ==> r[i] == fired[i].w
  {
    seq(|fired|, i requires 0 <= i < |fired| => fired[i].w)
  }

  /** A repeating timer that expires is rescheduled, but never into the past; any other stops. */
  function Rearmed(m: Times, e: Anhe, repeat: real, now: real): Times {
    if repeat != 0.0 then m[e.w := MaxOf(e.at + repeat, now)] else m - {e.w}
  }

  function Repeat(repeats: Times, w: Watcher): real { if w in repeats then repeats[w] else 0.0 }

  function After(m: Times, fired: seq<Anhe>, repeats: Times, now: real): Times {
    if fired == [] then m
    else Rearmed(After(m, fired[..|fired| - 1], repeats, now), fired[|fired| - 1],
                 Repeat(repeats, fired[|fired| - 1].w), now)
  }

  /** `e` has expired and no running timer expires before it. */
  predicate First(m: Times, e: Anhe, now: real) {
    e.w in m && m[e.w] == e.at && e.at < now && forall w :: w in m ==> e.at <= m[w]
  }

  /** The `at` field of a timer that expires: that of a repeating timer is its new time, any other becomes relative. */
  function AtSet(ats: Times, e: Anhe, repeat: real, now: real): Times {
    ats[e.w := if repeat != 0.0 then MaxOf(e.at + repeat, now) else e.at - now]
  }

  function Settled(ats: Times, fired: seq<Anhe>, repeats: Times, now: real): Times {
    if fired == [] then ats
    else
      var e := fired[|fired| - 1];
      AtSet(Settled(ats, fired[..|fired| - 1], repeats, now), e, Repeat(repeats, e.w), now)
  }

  lemma SettledMore(ats: Times, fired: seq<Anhe>, e: Anhe, repeats: Times, now: real)
    ensures Settled(ats, fired + [e], repeats, now)
              == AtSet(Settled(ats, fired, repeats, now), e, Repeat(repeats, e.w), now)
  {
    assert (fired + [e])[..|fired|] == fired;
  }

  predicate EachFirst(m: Times, fired: seq<Anhe>, repeats: Times, now: real) {
    fired == [] ||
    (EachFirst(m, fired[..|fired| - 1], repeats, now)
     && First(After(m, fired[..|fired| - 1], repeats, now), fired[|fired| - 1], now))
  }

  function Expired(m: Times, now: real): (s: set<Watcher>) {
    set w | w in m && m[w] < now
  }

  predicate FiredIn(fired: seq<Anhe>, w: Watcher) {
    exists i :: 0 <= i < |fired| && fired[i].w == w
  }

  /** The timers taken so far: each once, with the time it had, in the order of these times. */
  ghost predicate InOrder(m: Times, fired: seq<Anhe>, now: real) {
    && (forall i :: 0 <= i < |fired| ==> fired[i].w in m && m[fired[i].w] == fired[i].at < now)
    && (forall i, j :: 0 <= i < j < |fired| ==> fired[i].w != fired[j].w && fired[i].at <= fired[j].at)
  }

  /** What became of each timer. */
  ghost predicate Outcome(m: Times, fired: seq<Anhe>, x: Times, repeats: Times, now: real) {
    && (forall w :: w in x ==> w in m)
    && (forall w :: w in m && !FiredIn(fired, w) ==> w in x && x[w] == m[w])
    && (forall w :: w in m && FiredIn(fired, w) ==> (w in x <==> Repeat(repeats, w) != 0.0))
    && (forall w :: w in x && FiredIn(fired, w) ==> x[w] == MaxOf(m[w] + Repeat(repeats, w), now))
  }

  ghost predicate NoneBefore(fired: seq<Anhe>, x: Times) {
    forall i, w :: 0 <= i < |fired| && w in x ==> fired[i].at <= x[w]
  }

  /** Taking the first expired timer again and again takes each one once, in the order of their times, and none twice:
      a repeating timer does not come back. */
  lemma {:induction false} ExpiryOrder(m: Times, fired: seq<Anhe>, repeats: Times, now: real)
    requires EachFirst(m, fired, repeats, now)
    ensures InOrder(m, fired, now)
    ensures Outcome(m, fired, After(m, fired, repeats, now), repeats, now)
    ensures NoneBefore(fired, After(m, fired, repeats, now))
  {
    hide InOrder, Outcome, NoneBefore, First, Rearmed;
    if fired == [] {
      NothingFired(m, repeats, now);
    } else {
      var n := |fired| - 1;
      var init, e := fired[..n], fired[n];
      ExpiryOrder(m, init, repeats, now);
      var before := After(m, init, repeats, now);
      assert fired == init + [e];
      NotAgain(m, init, before, e, repeats, now);
      OneMoreOutcome(m, init, before, e, repeats, now);
      OneMoreInOrder(m, init, before, e, repeats, now);
      OneMoreBefore(init, before, e, repeats, now);
    }
  }

  lemma NothingFired(m: Times, repeats: Times, now: real)
    ensures InOrder(m, [], now) && Outcome(m, [], m, repeats, now) && NoneBefore([], m)
  {
  }

  lemma NotAgain(m: Times, init: seq<Anhe>, before: Times, e: Anhe, repeats: Times, now: real)
    requires InOrder(m, init, now) && Outcome(m, init, before, repeats, now) && First(before, e, now)
    ensures !FiredIn(init, e.w) && e.w in m && m[e.w] == e.at
  {
    FiredLater(m, init, before, repeats, now);
  }

  /** A timer that fired and still runs is not due. */
  lemma FiredLater(m: Times, init: seq<Anhe>, before: Times, repeats: Times, now: real)
    requires Outcome(m, init, before, repeats, now)
    ensures forall w :: w in before && FiredIn(init, w) ==> before[w] >= now
  {
  }

  lemma OneMoreOutcome(m: Times, init: seq<Anhe>, before: Times, e: Anhe, repeats: Times, now: real)
    requires Outcome(m, init, before, repeats, now) && !FiredIn(init, e.w) && e.w in m && m[e.w] == e.at
    ensures Outcome(m, init + [e], Rearmed(before, e, Repeat(repeats, e.w), now), repeats, now)
  {
    hide FiredIn;
    FiredMore(init, e);
  }

  lemma OneMoreInOrder(m: Times, init: seq<Anhe>, before: Times, e: Anhe, repeats: Times, now: real)
    requires InOrder(m, init, now) && NoneBefore(init, before) && !FiredIn(init, e.w) && First(before, e, now)
    requires e.w in m && m[e.w] == e.at
    ensures InOrder(m, init + [e], now)
  {
    var fired := init + [e];
    forall i, j | 0 <= i < j < |fired|
      ensures fired[i].w != fired[j].w && fired[i].at <= fired[j].at
    {
      assert fired[i] == init[i];
      if j < |init| { assert fired[j] == init[j]; } else { assert init[i].at <= before[e.w]; }
    }
  }

  lemma OneMoreBefore(init: seq<Anhe>, before: Times, e: Anhe, repeats: Times, now: real)
    requires NoneBefore(init, before) && First(before, e, now)
    ensures NoneBefore(init + [e], Rearmed(before, e, Repeat(repeats, e.w), now))
  {
    var fired, x := init + [e], Rearmed(before, e, Repeat(repeats, e.w), now);
    forall i, w | 0 <= i < |fired| && w in x
      ensures fired[i].at <= x[w]
    {
      if i < |init| { assert init[i].at <= before[e.w]; }
      if w != e.w { assert w in before && x[w] == before[w]; }
    }
  }

  lemma FiredMore(init: seq<Anhe>, e: Anhe)
    ensures forall w :: FiredIn(init + [e], w) <==> FiredIn(init, w) || w == e.w
  {
    forall w
      ensures FiredIn(init + [e], w) <==> FiredIn(init, w) || w == e.w
    {
      if FiredIn(init, w) {
        var i :| 0 <= i < |init| && init[i].w == w;
        assert (init + [e])[i].w == w;
      }
      assert (init + [e])[|init|] == e;
    }
  }

  /** If in the end nothing has expired, exactly the timers that had expired were taken. */
  lemma {:induction false} ExactlyExpired(m: Times, fired: seq<Anhe>, repeats: Times, now: real, w: Watcher)
    requires EachFirst(m, fired, repeats, now) && Expired(After(m, fired, repeats, now), now) == {}
    ensures FiredIn(fired, w) <==> w in m && m[w] < now
  {
    ExpiryOrder(m, fired, repeats, now);
    var x := After(m, fired, repeats, now);
    assert w in x && x[w] < now <==> w in Expired(x, now);
  }

  /** What became of the timers, as can be told before: one that is not due keeps its time, one that is due and
      repeats gets its next time or now, if that has passed already, and any other stops. */
  lemma {:induction false} NewTimes(m: Times, fired: seq<Anhe>, repeats: Times, now: real)
    requires EachFirst(m, fired, repeats, now) && Expired(After(m, fired, repeats, now), now) == {}
    ensures var x := After(m, fired, repeats, now);
      && (forall w :: w in x <==> w in m && (m[w] >= now || Repeat(repeats, w) != 0.0))
      && (forall w :: w in x && m[w] >= now ==> x[w] == m[w])
      && (forall w :: w in x && m[w] < now ==>
            x[w] == if m[w] + Repeat(repeats, w) >= now then m[w] + Repeat(repeats, w) else now)
  {
    ExpiryOrder(m, fired, repeats, now);
    forall w
      ensures FiredIn(fired, w) <==> w in m && m[w] < now
    {
      ExactlyExpired(m, fired, repeats, now, w);
    }
    hide EachFirst, After, Expired, FiredIn;
  }

  lemma OneLess(m: Times, e: Anhe, repeat: real, now: real)
    requires First(m, e, now)
    ensures Expired(Rearmed(m, e, repeat, now), now) == Expired(m, now) - {e.w}
    ensures e.w in Expired(m, now)
  {
  }

  lemma FireOnce(m: Times, fired: seq<Anhe>, e: Anhe, repeats: Times, now: real)
    requires EachFirst(m, fired, repeats, now) && First(After(m, fired, repeats, now), e, now)
    ensures EachFirst(m, fired + [e], repeats, now)
    ensures After(m, fired + [e], repeats, now) == Rearmed(After(m, fired, repeats, now), e, Repeat(repeats, e.w), now)
    ensures Names(fired + [e]) == Names(fired) + [e.w]
  {
    assert (fired + [e])[..|fired|] == fired;
  }

  /** The fired timers of one priority, in order. */
  function FiredOf(fired: seq<Anhe>, pri: nat): (r: seq<Anhe>) {
    if fired == [] then []
    else FiredOf(fired[..|fired| - 1], pri) + if fired[|fired| - 1].w.priority == pri then [fired[|fired| - 1]] else []
  }

  /** They are called in the order of the times at which they expired, and none is left out. */
  lemma {:induction false} CalledInOrder(fired: seq<Anhe>, pri: nat)
    requires forall i, j :: 0 <= i < j < |fired| ==> fired[i].at <= fired[j].at
    ensures OfPriority(Names(fired), pri) == Names(FiredOf(fired, pri))
    ensures forall e :: e in FiredOf(fired, pri) <==> e in fired && e.w.priority == pri
    ensures forall i, j :: 0 <= i < j < |FiredOf(fired, pri)| ==> FiredOf(fired, pri)[i].at <= FiredOf(fired, pri)[j].at
  {
    if fired != [] {
      var init, e := fired[..|fired| - 1], fired[|fired| - 1];
      CalledInOrder(init, pri);
      assert fired == init + [e];
      assert Names(fired)[..|fired| - 1] == Names(init);
      var r := FiredOf(init, pri);
      assert Names(r + [e]) == Names(r) + [e.w];
      forall x | x in r
        ensures x.at <= e.at
      {
        var i :| 0 <= i < |init| && init[i] == x;
        assert fired[i] == x;
      }
    }
  }

  /** Per priority, highest first: the fired timers in order, then what was pending before. */
  function TimersFirst(stacks: seq<seq<Slot>>, fired: seq<Anhe>, pri: nat, dummy: Watcher): (log: seq<Event>)
    requires pri <= |stacks|
  {
    if pri == 0 then []
    else
      CallsOf(OfPriority(Names(fired), pri - 1), EV_TIMER) + Drain(stacks[pri - 1], dummy)
      + TimersFirst(stacks, fired, pri - 1, dummy)
  }

  lemma {:induction false} DrainTimersFirst(before: seq<seq<Slot>>, stacks: seq<seq<Slot>>, fired: seq<Anhe>, pri: nat,
                                            dummy: Watcher)
    requires pri <= |before| == |stacks| && dummy !in Names(fired)
    requires forall p :: 0 <= p < |stacks| ==> stacks[p] == before[p] + Pushed(Names(fired), p, EV_TIMER)
    ensures DrainAll(stacks, pri, dummy) == TimersFirst(before, fired, pri, dummy)
  {
    if pri > 0 {
      hide Drain, Pushed, CallsOf, OfPriority, Names, DrainAll, TimersFirst;
      OneStack(before[pri - 1], stacks[pri - 1], fired, pri - 1, dummy);
      DrainTimersFirst(before, stacks, fired, pri - 1, dummy);
      DrainAllStep(stacks, pri, dummy);
      TimersFirstStep(before, fired, pri, dummy);
    }
  }

  lemma OneStack(before: seq<Slot>, stack: seq<Slot>, fired: seq<Anhe>, pri: nat, dummy: Watcher)
    requires dummy !in Names(fired) && stack == before + Pushed(Names(fired), pri, EV_TIMER)
    ensures Drain(stack, dummy) == CallsOf(OfPriority(Names(fired), pri), EV_TIMER) + Drain(before, dummy)
  {
    ReverseThenDrain(before, Names(fired), pri, EV_TIMER, dummy);
  }

  lemma TimersFirstStep(stacks: seq<seq<Slot>>, fired: seq<Anhe>, pri: nat, dummy: Watcher)
    requires 0 < pri <= |stacks|
    ensures TimersFirst(stacks, fired, pri, dummy) ==
      CallsOf(OfPriority(Names(fired), pri - 1), EV_TIMER) + Drain(stacks[pri - 1], dummy)
        + TimersFirst(stacks, fired, pri - 1, dummy)
  {
  }

  /** The expired timers of each priority are called in turn, first to last, and each is called unless it is cleared. */
  ghost predicate InExpiryOrder(fired: seq<Anhe>, log: seq<Event>) {
    && (forall i :: 0 <= i < |fired| ==> Touched(log, |log|, fired[i].w))
    && (forall i, j :: 0 <= i < j < |fired| && fired[i].w.priority == fired[j].w.priority ==>
          InTurn(log, fired[i].w, fired[j].w)
          && (!ClearedBy(log, |log|, fired[i].w) && !ClearedBy(log, |log|, fired[j].w) ==>
                CalledBefore(log, fired[i].w, fired[j].w)))
  }

  lemma OrderOfExpiry(before: seq<seq<Slot>>, stacks: seq<seq<Slot>>, fired: seq<Anhe>, log: seq<Event>, dummy: Watcher)
    requires |before| == |stacks| == NUM_PRI && dummy !in Names(fired) && StacksInTurn(stacks, log, 0, dummy)
    requires forall p :: 0 <= p < NUM_PRI ==> stacks[p] == before[p] + Pushed(Names(fired), p, EV_TIMER)
    requires forall i :: 0 <= i < |fired| ==> fired[i].w.priority < NUM_PRI
    ensures InExpiryOrder(fired, log)
  {
    hide Touched, ClearedBy, CalledBefore, Pushed;
    var ws := Names(fired);
    forall i | 0 <= i < |fired|
      ensures Touched(log, |log|, fired[i].w)
    {
      var p := fired[i].w.priority;
      var y := PushedAt(ws, p, EV_TIMER, i);
      assert stacks[p][|before[p]| + y].w == ws[i] && AllTouched(stacks[p], log, dummy);
    }
    forall i, j | 0 <= i < j < |fired| && fired[i].w.priority == fired[j].w.priority
      ensures InTurn(log, fired[i].w, fired[j].w)
      ensures !ClearedBy(log, |log|, fired[i].w) && !ClearedBy(log, |log|, fired[j].w) ==>
                CalledBefore(log, fired[i].w, fired[j].w)
    {
      var p := fired[i].w.priority;
      var x, y := PushedOrder(ws, p, EV_TIMER, i, j);
      assert stacks[p][|before[p]| + x].w == ws[j] && stacks[p][|before[p]| + y].w == ws[i];
      assert TopDown(stacks[p], log, dummy);
      assert InTurn(log, fired[i].w, fired[j].w);
      UpperFirstIf(log, fired[i].w, fired[j].w);
    }
  }

  lemma UpperFirstIf(log: seq<Event>, upper: Watcher, lower: Watcher)
    requires InTurn(log, upper, lower) && Touched(log, |log|, upper)
    ensures !ClearedBy(log, |log|, upper) && !ClearedBy(log, |log|, lower) ==> CalledBefore(log, upper, lower)
  {
    if !ClearedBy(log, |log|, upper) && !ClearedBy(log, |log|, lower) { UpperFirst(log, upper, lower); }
  }

  class Timers {
    const heap: Heap
    const q: Queues
    var now: real                          // mn_now

    /** Each slot's cached time is its watcher's. */
    ghost predicate Cached(h: seq<Anhe>) reads heap.watchers`at {
      forall i :: 0 <= i < |h| ==> h[i].w in heap.watchers && h[i].at == h[i].w.at
    }

    lemma CachedSame(a: seq<Anhe>, b: seq<Anhe>)
      requires multiset(a) == multiset(b) && Cached(a)
      ensures Cached(b)
    {
      forall i | 0 <= i < |b|
        ensures b[i].w in heap.watchers && b[i].at == b[i].w.at
      {
        assert b[i] in multiset(a);
      }
    }

    lemma CachedMore(a: seq<Anhe>, b: seq<Anhe>, e: Anhe)
      requires multiset(b) == multiset(a) + multiset{e} && Cached(a) && e.w in heap.watchers && e.at == e.w.at
      ensures Cached(b)
    {
      assert multiset(a + [e]) == multiset(b);
      CachedSame(a + [e], b);
    }

    ghost predicate Valid()
      reads heap`slots, heap`gone, heap.watchers`active, heap.watchers`at, q`pendings, q.watchers`pending
    {
      && heap.watchers <= q.watchers
      && heap.Valid() && Cached(heap.slots) && q.Valid()
    }

    /** The running timers and when they expire. */
    ghost function Armed(): map<Watcher, real> reads heap.watchers`active, heap.watchers`at {
      map w | w in heap.watchers && w.active != 0 :: w.at
    }

    /** The `at` fields of all timers, running or not. */
    ghost function Ats(): Times reads heap.watchers`at {
      map w | w in heap.watchers :: w.at
    }

    twostate lemma AtsAre(w: Watcher)
      requires w in heap.watchers && forall x :: x in heap.watchers && x != w ==> x.at == old(x.at)
      ensures Ats() == old(Ats())[w := w.at]
    {
    }

    constructor (ghost watchers: set<Watcher>, q: Queues, now: real)
      requires watchers <= q.watchers && q.Valid() && forall w :: w in watchers ==> w.active == 0
      ensures Valid() && Armed() == map[] && this.q == q && this.now == now && fresh(heap) && heap.watchers == watchers
    {
      heap := new Heap(watchers);
      this.q, this.now := q, now;
    }

    /** The heap holds exactly the running timers. */
    lemma SlotArmed(i: nat)
      requires Valid() && i < |heap.slots|
      ensures heap.slots[i].w in Armed() && Armed()[heap.slots[i].w] == heap.slots[i].at
    {
    }

    lemma ArmedSlot(w: Watcher)
      requires Valid() && w in Armed()
      ensures heap.At(w.active) && heap.slots[w.active - HEAP0] == Anhe(w, Armed()[w])
    {
    }

    /** Its first slot expires first. */
    lemma RootFirst()
      requires Valid()
      ensures heap.slots == [] ==> Armed() == map[]
      ensures heap.slots != [] ==> heap.slots[0].w in Armed() && Armed()[heap.slots[0].w] == heap.slots[0].at
      ensures forall w :: w in Armed() ==> heap.slots != [] && heap.slots[0].at <= Armed()[w]
    {
      hide Ordered, OrderedTo, Cached, Queues.Valid;
      forall w | w in Armed()
        ensures heap.slots != [] && heap.slots[0].at <= Armed()[w]
      {
        ArmedSlot(w);
        RootIsLeast(heap.slots, w.active - HEAP0);
      }
      if heap.slots != [] { SlotArmed(0); }
    }

    twostate lemma CachedStill(w: Watcher)
      requires old(heap.Indexed()) && old(Cached(heap.slots)) && w in heap.watchers && old(w.active) == 0
      requires forall x :: x in heap.watchers && x != w ==> x.at == old(x.at)
      ensures Cached(old(heap.slots))
    {
    }

    twostate lemma ArmedMore(w: Watcher)
      requires w in heap.watchers && heap.Running() == old(heap.Running()) + {w}
      requires forall x :: x in heap.watchers && x != w ==> x.at == old(x.at)
      ensures w.active != 0 && Armed() == old(Armed())[w := w.at]
    {
      forall x | x in heap.watchers
        ensures x in Armed() <==> x == w || x in old(Armed())
      {
        assert x in heap.Running() <==> x == w || x in old(heap.Running());
      }
    }

    twostate lemma QueuesKept()
      requires old(q.Valid()) && q.pendings == old(q.pendings)
               && forall w :: w in q.watchers ==> w.pending == old(w.pending)
      ensures q.Valid() && q.Pending() == old(q.Pending())
    {
    }

    twostate lemma HeapKept()
      requires old(Valid()) && heap.slots == old(heap.slots) && heap.gone == old(heap.gone) && q.Valid()
      requires forall w :: w in heap.watchers ==> w.active == old(w.active) && w.at == old(w.at)
      ensures Valid() && Armed() == old(Armed())
    {
    }

    /** `ev_timer_start` */
    method Start(w: Watcher)
      requires Valid() && w in heap.watchers && w.repeat >= 0.0
      modifies heap`slots, heap`gone, heap.watchers`active, w`at
      ensures Valid() && w.active != 0
      ensures old(w.active) != 0 ==> Armed() == old(Armed()) && heap.slots == old(heap.slots) && w.at == old(w.at)
      ensures old(w.active) == 0 ==> w.at == old(w.at) + now && Armed() == old(Armed())[w := w.at]
    {
      hide Heap.Indexed, OrderedTo, Ordered, Cached, Armed, Queues.Valid, Heap.Running;
      if w.active != 0 { return; }
      ghost var before := heap.slots;
      w.at := w.at + now;
      heap.Insert(w, w.at);
      CachedStill(w);
      CachedMore(before, heap.slots, Anhe(w, w.at));
      ArmedMore(w);
      QueuesKept();
    }

    twostate lemma CachedLess(w: Watcher)
      requires old(heap.Indexed()) && old(Cached(heap.slots)) && heap.SlotsNamed() && w in heap.gone
      requires multiset(heap.slots) <= old(multiset(heap.slots))
      requires forall x :: x in heap.watchers && x != w ==> x.at == old(x.at)
      ensures Cached(heap.slots)
    {
      forall i | 0 <= i < |heap.slots|
        ensures heap.slots[i].w in heap.watchers && heap.slots[i].at == heap.slots[i].w.at
      {
        var e := heap.slots[i];
        assert e in multiset(heap.slots);
        assert e in old(multiset(heap.slots));
        assert e.w != w;
      }
    }

    twostate lemma ArmedLess(w: Watcher)
      requires w in heap.watchers && w.active == 0
      requires forall x :: x in heap.watchers && x != w ==> x.at == old(x.at) && (x.active == 0 <==> old(x.active) == 0)
      ensures Armed() == old(Armed()) - {w}
    {
    }

    /** `ev_timer_stop` */
    method Stop(w: Watcher)
      requires Valid() && w in heap.watchers
      modifies heap`slots, heap`gone, heap.watchers`active, w`at, q`pendings, w`pending
      ensures Valid() && w.active == 0 && w.pending == 0
      ensures Armed() == old(Armed()) - {w} && q.Pending() == old(q.Pending()) - {w}
      ensures w.at == if old(w.active) == 0 then old(w.at) else old(w.at) - now
      ensures old(w.pending) == 0 ==> q.pendings == old(q.pendings)
      ensures EachStays(old(q.pendings), q.pendings, [Cleared(w)])
    {
      hide Heap.Indexed, OrderedTo, Ordered, Cached, Armed, Queues.Valid, Queues.Pending, Heap.Running, EachStays;
      var _ := q.ClearPending(w);
      if w.active == 0 {
        ArmedLess(w);
        return;
      }
      label Cleared:
      Remove(w);
      QueuesKept@Cleared();
    }

    method Remove(w: Watcher)
      requires heap.Valid() && Cached(heap.slots) && w in heap.watchers && w.active != 0
      modifies heap`slots, heap`gone, heap.watchers`active, w`at
      ensures heap.Valid() && Cached(heap.slots) && w.active == 0
      ensures Armed() == old(Armed()) - {w} && w.at == old(w.at) - now
    {
      hide Heap.Indexed, OrderedTo, Ordered, Cached, Armed, Heap.Running;
      heap.Delete(w);
      heap.SlotsOf();
      w.at := w.at - now;
      CachedLess(w);
      label Deleted:
      w.active := 0;
      heap.gone := {};
      heap.Stopped@Deleted(w);
      RunningLess(w);
      ArmedLess(w);
    }

    twostate lemma RunningLess(w: Watcher)
      requires heap.Running() == old(heap.Running()) - {w}
      ensures forall x :: x in heap.watchers && x != w ==> (x.active == 0 <==> old(x.active) == 0)
    {
      forall x | x in heap.watchers && x != w
        ensures x.active == 0 <==> old(x.active) == 0
      {
        assert x in heap.Running() <==> x in old(heap.Running());
      }
    }

    /** A running timer gets a new time. */
    method Restart(w: Watcher, at: real)
      requires heap.Valid() && Cached(heap.slots) && w in heap.watchers && w.active != 0
      modifies heap`slots, heap`gone, heap.watchers`active, w`at
      ensures heap.Valid() && Cached(heap.slots) && w.at == at && w.active != 0
      ensures Armed() == old(Armed())[w := at]
    {
      hide Heap.Indexed, OrderedTo, Ordered, Cached, Armed, Heap.Running;
      heap.SlotOf(w);
      ghost var k: nat := w.active - HEAP0;
      w.at := at;
      CachedReplaced(w, k);
      heap.Rekey(w, w.at);
      CachedSame(old(heap.slots)[k := Anhe(w, at)], heap.slots);
      RunningSame();
      ArmedAt(w);
    }

    /** The same for the timer in the first slot. */
    method RestartRoot(at: real)
      requires heap.Valid() && Cached(heap.slots) && heap.slots != []
      modifies heap`slots, heap`gone, heap.watchers`active, heap.watchers`at
      ensures heap.Valid() && Cached(heap.slots)
      ensures var w := old(heap.slots[0].w);
        && w in heap.watchers && w.at == at && w.active != 0 && Armed() == old(Armed())[w := at]
        && forall x :: x in heap.watchers && x != w ==> x.at == old(x.at)
    {
      hide Heap.Indexed, OrderedTo, Ordered, Cached, Armed, Heap.Running;
      var w := heap.slots[0].w;
      heap.NameOf(0);
      w.at := at;
      CachedReplaced(w, 0);
      heap.RekeyRoot(w.at);
      CachedSame(old(heap.slots)[0 := Anhe(w, at)], heap.slots);
      RunningSame();
      ArmedAt(w);
    }

    twostate lemma CachedReplaced(w: Watcher, new k: nat)
      requires heap.Indexed() && heap.slots == old(heap.slots) && w in heap.watchers && k < |heap.slots|
               && heap.slots[k].w == w
      requires old(Cached(heap.slots)) && forall x :: x in heap.watchers && x != w ==> x.at == old(x.at)
      ensures Cached(heap.slots[k := Anhe(w, w.at)])
    {
    }

    twostate lemma RunningSame()
      requires heap.Running() == old(heap.Running())
      ensures forall x :: x in heap.watchers ==> (x.active == 0 <==> old(x.active) == 0)
    {
      forall x | x in heap.watchers
        ensures x.active == 0 <==> old(x.active) == 0
      {
        assert x in heap.Running() <==> x in old(heap.Running());
      }
    }

    twostate lemma ArmedAt(w: Watcher)
      requires w in heap.watchers && w.active != 0
      requires forall x :: x in heap.watchers ==> (x.active == 0 <==> old(x.active) == 0)
      requires forall x :: x in heap.watchers && x != w ==> x.at == old(x.at)
      ensures Armed() == old(Armed())[w := w.at]
    {
    }

    twostate lemma ArmedIdle(w: Watcher)
      requires w.active == 0
      requires forall x :: x in heap.watchers ==> x.active == old(x.active)
      requires forall x :: x in heap.watchers && x != w ==> x.at == old(x.at)
      ensures Armed() == old(Armed())
    {
    }

    /** `ev_timer_again` */
    method Again(w: Watcher)
      requires Valid() && w in heap.watchers && (w.active == 0 ==> w.repeat >= 0.0)
      modifies heap`slots, heap`gone, heap.watchers`active, w`at, q`pendings, w`pending
      ensures Valid() && w.pending == 0 && q.Pending() == old(q.Pending()) - {w}
      ensures w.repeat != 0.0 ==> Armed() == old(Armed())[w := now + w.repeat] && w.at == now + w.repeat
      ensures w.repeat == 0.0 ==> Armed() == old(Armed()) - {w}
      ensures w.repeat == 0.0 ==> w.at == if old(w.active) == 0 then old(w.at) else old(w.at) - now
      ensures EachStays(old(q.pendings), q.pendings, [Cleared(w)])
    {
      hide Heap.Indexed, OrderedTo, Ordered, Cached, Armed, Queues.Valid, Queues.Pending, Heap.Running, EachStays;
      var _ := q.ClearPending(w);
      label Cleared:
      if w.active != 0 {
        if w.repeat != 0.0 {
          Restart(w, now + w.repeat);
          QueuesKept@Cleared();
        } else {
          Stop(w);
          NoKey(old(q.Pending()) - {w}, w);
        }
      } else if w.repeat != 0.0 {
        w.at := w.repeat;
        CachedStill(w);
        ArmedIdle(w);
        QueuesKept@Cleared();
        Start(w);
        QueuesKept@Cleared();
      } else {
        ArmedLess(w);
      }
    }

    /** One turn of the loop in `timers_reify`. */
    method FireRoot() returns (e: Anhe)
      requires Valid() && heap.slots != [] && heap.slots[0].at < now
      modifies heap`slots, heap`gone, heap.watchers`active, heap.watchers`at, q`pendings, q`rfeeds
      modifies heap.watchers`pending
      ensures Valid() && e == old(heap.slots[0]) && e.w in heap.watchers
      ensures First(old(Armed()), e, now) && Armed() == Rearmed(old(Armed()), e, e.w.repeat, now)
      ensures e.w.at == if e.w.repeat != 0.0 then MaxOf(e.at + e.w.repeat, now) else e.at - now
      ensures Ats() == AtSet(old(Ats()), e, e.w.repeat, now)
      ensures forall x :: x in heap.watchers && x != e.w ==> x.at == old(x.at) && x.pending == old(x.pending)
      ensures q.rfeeds == old(q.rfeeds) + [e.w]
      ensures q.Pending() == if e.w.repeat != 0.0 then old(q.Pending()) else old(q.Pending()) - {e.w}
      ensures old(e.w.pending) == 0 ==> e.w.pending == 0 && q.pendings == old(q.pendings)
    {
      hide Heap.Indexed, OrderedTo, Ordered, Cached, Armed, Queues.Valid, Queues.Pending, Heap.Running, Ats;
      RootFirst();
      e := heap.slots[0];
      var w := e.w;
      ArmedHere(w);
      label Start:
      if w.repeat != 0.0 {
        var at := w.at + w.repeat;
        if at < now { at := now; }
        RestartRoot(at);
        QueuesKept@Start();
      } else {
        Stop(w);
      }
      AtsAre@Start(w);
      q.FeedReverse(w);
    }

    lemma ArmedHere(w: Watcher)
      requires w in Armed()
      ensures w in heap.watchers && w.active != 0 && Armed()[w] == w.at
    {
    }

    ghost function Repeats(): Times reads heap.watchers`repeat {
      map w | w in heap.watchers :: w.repeat
    }

    /** The fired timers that do not repeat; their pending events, if any, are cleared before they are fed. */
    ghost function OneShots(fired: seq<Anhe>): set<Watcher> reads heap.watchers`repeat {
      set w | w in heap.watchers && FiredIn(fired, w) && w.repeat == 0.0
    }

    lemma RepeatOf(w: Watcher)
      requires w in heap.watchers
      ensures Repeat(Repeats(), w) == w.repeat
    {
    }

    /** `timers_reify`. It takes expired timers, always the first, until none is left (ExpiryOrder and ExactlyExpired
        say what that means), and feeds them in reverse. */
    method Reify() returns (fired: seq<Anhe>)
      requires Valid() && q.rfeeds == []
      modifies heap`slots, heap`gone, heap.watchers`active, heap.watchers`at, q`pendings, q`rfeeds, q.watchers`pending
      ensures Valid() && q.rfeeds == []
      ensures EachFirst(old(Armed()), fired, Repeats(), now) && Armed() == After(old(Armed()), fired, Repeats(), now)
      ensures Expired(Armed(), now) == {} && Ats() == Settled(old(Ats()), fired, Repeats(), now)
      ensures Moved(old(Armed()), Armed())
      ensures forall i :: 0 <= i < |fired| ==> fired[i].w in heap.watchers
      ensures q.Pending() == FedAll(old(q.Pending()) - OneShots(fired), Names(fired), EV_TIMER)
      ensures NonePending(Expired(old(Armed()), now), old(q.Pending())) ==>
        |q.pendings| == NUM_PRI == |old(q.pendings)|
        && forall p :: 0 <= p < NUM_PRI ==> q.pendings[p] == old(q.pendings)[p] + Pushed(Names(fired), p, EV_TIMER)
    {
      hide Heap.Indexed, OrderedTo, Ordered, Cached, Armed, Queues.Valid, Queues.Pending, Heap.Running;
      hide EachFirst, First, After, Rearmed, OneShots, FedAll, Pushed, NonePending, Repeats, Expired, Settled, AtSet;
      hide Ats, Names, FiredIn, Heap.Valid, Moved;
      fired := [];
      ghost var m, repeats := Armed(), Repeats();
      ghost var clean := NonePending(Expired(m, now), q.Pending());
      NothingYet(m, repeats);
      q.StackCount();
      while heap.slots != [] && heap.slots[0].at < now
        invariant Valid()
        invariant EachFirst(m, fired, repeats, now) && Armed() == After(m, fired, repeats, now)
        invariant Ats() == Settled(old(Ats()), fired, repeats, now)
        invariant forall i :: 0 <= i < |fired| ==> fired[i].w in heap.watchers
        invariant q.rfeeds == Names(fired)
        invariant q.Pending() == old(q.Pending()) - OneShots(fired)
        invariant clean ==> q.pendings == old(q.pendings)
        decreases |Expired(Armed(), now)|
      {
        ghost var before, owed := Armed(), q.Pending();
        if clean { IsClean(m, old(q.Pending()), fired, repeats); }
        var e := FireRoot();
        SettledMore(old(Ats()), fired, e, repeats, now);
        FireOnce(m, fired, e, repeats, now);
        RepeatOf(e.w);
        OneLess(before, e, e.w.repeat, now);
        OneMoreShot(old(q.Pending()), fired, e);
        fired := fired + [e];
      }
      NoneExpired();
      ArmedWatched();
      HasMoved(m, fired);
      ghost var owed := q.Pending();
      if clean { AllClean(m, old(q.Pending()), fired, repeats); }
      if fired != [] {
        q.FeedReverseDone(EV_TIMER);
      } else {
        NoneLeft(owed, q.pendings, EV_TIMER);
      }
    }

    lemma NotDummy(fired: seq<Anhe>)
      requires q.Valid() && heap.watchers <= q.watchers && forall i :: 0 <= i < |fired| ==> fired[i].w in heap.watchers
      ensures q.dummy !in Names(fired) && forall i :: 0 <= i < |fired| ==> fired[i].w.priority < NUM_PRI
    {
      forall i | 0 <= i < |fired|
        ensures fired[i].w.priority < NUM_PRI
      {
        q.SlotOf(fired[i].w);
      }
    }

    /** Which timers' pending events are cleared can be told before the call: those that have expired and do not
        repeat. */
    lemma OneShotsAre(m: Times, fired: seq<Anhe>, w: Watcher)
      requires EachFirst(m, fired, Repeats(), now) && Expired(After(m, fired, Repeats(), now), now) == {}
      ensures w in OneShots(fired) <==> w in heap.watchers && w in m && m[w] < now && w.repeat == 0.0
    {
      hide EachFirst, After, Expired, Repeats;
      ExactlyExpired(m, fired, Repeats(), now, w);
    }

    /** After `timers_reify` a watcher with pending events is owed these and, if it expired, EV_TIMER, exactly unless
        it is an expired timer that does not repeat and the events say more than EV_TIMER: then they are lost. */
    lemma {:induction false} EventsKept(m: Times, owed: Owed, fired: seq<Anhe>, w: Watcher)
      requires EachFirst(m, fired, Repeats(), now) && Expired(After(m, fired, Repeats(), now), now) == {}
      requires forall i :: 0 <= i < |fired| ==> fired[i].w in heap.watchers
      requires w in owed
      ensures var after := FedAll(owed - OneShots(fired), Names(fired), EV_TIMER);
        var due := w in m && m[w] < now;
        && w in after
        && (after[w] == (if due then Or(owed[w], EV_TIMER) else owed[w])
            <==> !(due && w in heap.watchers && w.repeat == 0.0 && Or(owed[w], EV_TIMER) != EV_TIMER))
        && (due && w in heap.watchers && w.repeat == 0.0 ==> after[w] == EV_TIMER)
    {
      hide FedAll, After, Expired, Repeats, OneShots, Or, Outcome, NoneBefore, EachFirst;
      OneShotsAre(m, fired, w);
      ExpiryOrder(m, fired, Repeats(), now);
      ExactlyExpired(m, fired, Repeats(), now, w);
      DistinctNames(m, fired, w);
      FedAllIs(owed - OneShots(fired), Names(fired), EV_TIMER, w);
      OrNone(EV_TIMER);
    }

    lemma DistinctNames(m: Times, fired: seq<Anhe>, w: Watcher)
      requires InOrder(m, fired, now)
      ensures Distinct(Names(fired)) && (w in Names(fired) <==> FiredIn(fired, w))
    {
      if FiredIn(fired, w) {
        var i :| 0 <= i < |fired| && fired[i].w == w;
        assert Names(fired)[i] == w;
      }
    }

    lemma OneMoreShot(owed: Owed, fired: seq<Anhe>, e: Anhe)
      requires e.w in heap.watchers
      ensures e.w.repeat == 0.0 ==> (owed - OneShots(fired)) - {e.w} == owed - OneShots(fired + [e])
      ensures e.w.repeat != 0.0 ==> owed - OneShots(fired) == owed - OneShots(fired + [e])
    {
      hide FiredIn;
      FiredMore(fired, e);
      assert OneShots(fired + [e]) == OneShots(fired) + if e.w.repeat == 0.0 then {e.w} else {};
    }

    /** The first timer is not pending if no expired one was. */
    lemma IsClean(m: Times, owed: Owed, fired: seq<Anhe>, repeats: Times)
      requires Valid() && heap.slots != [] && heap.slots[0].at < now
      requires EachFirst(m, fired, repeats, now) && Armed() == After(m, fired, repeats, now)
      requires NonePending(Expired(m, now), owed) && q.Pending() == owed - OneShots(fired)
      ensures heap.slots[0].w.pending == 0
    {
      hide Heap.Indexed, OrderedTo, Ordered, Cached, Armed, Queues.Valid, Queues.Pending, Heap.Running, EachFirst;
      hide OneShots;
      var e := heap.slots[0];
      RootFirst();
      ExpiryOrder(m, fired, repeats, now);
      NotAgain(m, fired, Armed(), e, repeats, now);
      assert e.w in Expired(m, now);
      heap.NameOf(0);
      q.SlotOf(e.w);
    }

    lemma AllClean(m: Times, owed: Owed, fired: seq<Anhe>, repeats: Times)
      requires q.Valid() && heap.watchers <= q.watchers && EachFirst(m, fired, repeats, now)
      requires forall i :: 0 <= i < |fired| ==> fired[i].w in heap.watchers
      requires NonePending(Expired(m, now), owed) && q.Pending() == owed - OneShots(fired)
      ensures Distinct(Names(fired)) && forall i :: 0 <= i < |Names(fired)| ==> Names(fired)[i].pending == 0
    {
      hide Queues.Valid, Queues.Pending, EachFirst, OneShots;
      ExpiryOrder(m, fired, repeats, now);
      forall i | 0 <= i < |Names(fired)|
        ensures Names(fired)[i].pending == 0
      {
        assert fired[i].w in Expired(m, now);
        q.SlotOf(fired[i].w);
      }
    }

    lemma NothingYet(m: Times, repeats: Times)
      ensures EachFirst(m, [], repeats, now) && After(m, [], repeats, now) == m && Names([]) == [] && OneShots([]) == {}
      ensures Settled(Ats(), [], repeats, now) == Ats()
    {
    }

    /** A timer that is not due keeps its time; one that is due and repeats gets its next time, or now if that has
        passed; any other stops. */
    ghost predicate Moved(m: Times, x: Times) reads this`now, heap.watchers`repeat {
      && (forall w :: w in x ==> w in m && w in heap.watchers)
      && (forall w :: w in m && w in heap.watchers ==> (w in x <==> m[w] >= now || w.repeat != 0.0))
      && (forall w :: w in x && w in m && m[w] >= now ==> x[w] == m[w])
      && (forall w :: w in x && w in m && w in heap.watchers && m[w] < now ==>
            x[w] == if m[w] + w.repeat >= now then m[w] + w.repeat else now)
    }

    lemma HasMoved(m: Times, fired: seq<Anhe>)
      requires EachFirst(m, fired, Repeats(), now) && Expired(After(m, fired, Repeats(), now), now) == {}
      requires forall w :: w in After(m, fired, Repeats(), now) ==> w in heap.watchers
      ensures Moved(m, After(m, fired, Repeats(), now))
    {
      hide EachFirst, After, Expired, Repeats, Repeat;
      NewTimes(m, fired, Repeats(), now);
      forall w | w in heap.watchers
        ensures Repeat(Repeats(), w) == w.repeat
      {
        RepeatOf(w);
      }
    }

    lemma ArmedWatched()
      ensures forall w :: w in Armed() ==> w in heap.watchers
    {
    }

    lemma NoneExpired()
      requires Valid() && (heap.slots == [] || heap.slots[0].at >= now)
      ensures Expired(Armed(), now) == {}
    {
      hide Heap.Indexed, OrderedTo, Ordered, Cached, Armed, Queues.Valid;
      RootFirst();
    }
  }

  /** A one-shot timer that expired a second ago. */
  method ExpiredOneShot() returns (w: Watcher, q: Queues, timers: Timers)
    ensures timers.Valid() && timers.q == q && q.rfeeds == [] && timers.now == 0.0 && w in timers.heap.watchers
            && w.repeat == 0.0
    ensures w in timers.Armed() && timers.Armed()[w] == -1.0 && q.Pending() == map[]
    ensures fresh(w) && fresh(q) && fresh(timers) && fresh(timers.heap) && fresh(q.dummy)
            && fresh(timers.heap.watchers) && fresh(q.watchers)
  {
    hide Queues.Valid, Queues.Pending, Timers.Armed, Heap.Valid, Timers.Cached;
    w := new Watcher(0, -1.0, 0.0);
    q := new Queues({w});
    timers := new Timers({w}, q, 0.0);
    timers.Start(w);
  }

  /** If it is pending for EV_READ, `timers_reify` loses the EV_READ. */
  method LosesEvents() returns (w: Watcher, events: bv32)
    ensures events == EV_TIMER != Or(EV_READ, EV_TIMER)
  {
    hide Queues.Valid, Queues.Pending, Timers.Armed, Heap.Valid, Timers.Cached, EachFirst, After, FedAll;
    hide Timers.Repeats, Timers.OneShots, Pushed, NonePending;
    var q, timers;
    w, q, timers := ExpiredOneShot();
    label Started:
    q.FeedEvent(w, EV_READ);
    timers.HeapKept@Started();
    ghost var m := timers.Armed();
    ghost var owed := q.Pending();
    var fired := timers.Reify();
    timers.EventsKept(m, owed, fired, w);
    events := q.ClearPending(w);
  }

  predicate NonePending(ws: set<Watcher>, owed: Owed) {
    forall w :: w in ws ==> w !in owed
  }
}
