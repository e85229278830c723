/** Pending events of `libev/ev.c`: one stack of (watcher, events) per priority, with the watcher's `pending` as a
    back-index that starts at 1.  Clearing leaves a slot behind that points to a watcher which does nothing. */
module Pending {

  import opened Wrappers

  /** EV_MAXPRI - EV_MINPRI + 1. */
  const NUM_PRI: nat := 5

  const EV_READ: bv32 := 0x01
  const EV_WRITE: bv32 := 0x02
  const EV_TIMER: bv32 := 0x100
  const EV_ERROR: bv32 := 0x8000_0000

  /** Bits of an event mask: EV_READ, EV_WRITE, EV__IOFDSET; and EV_ANFD_REIFY of `reify`. */
  datatype Bit = Read | Write | IoFdSet | AnfdReify

  /** The fields of a watcher that the loop itself uses: those of every watcher, of `ev_timer` (`at`, `repeat`) and of
      `ev_io` (`fd`, `events`).  `priority` counts from EV_MINPRI and is in range. */
  class Watcher {
    const priority: nat
    const fd: nat
    var pending: nat
    var active: nat
    var at: real
    var repeat: real
    var events: set<Bit>

    constructor (priority: nat, at: real, repeat: real)
      ensures this.priority == priority && this.at == at && this.repeat == repeat
      ensures pending == 0 && active == 0 && fd == 0 && events == {}
    {
      this.priority, this.at, this.repeat, pending, active := priority, at, repeat, 0, 0;
      fd, events := 0, {};
    }

    constructor Io(priority: nat, fd: nat, events: set<Bit>)
      ensures this.priority == priority && this.fd == fd && this.events == events
      ensures pending == 0 && active == 0 && at == 0.0 && repeat == 0.0
    {
      this.priority, this.fd, this.events, pending, active := priority, fd, events, 0, 0;
      at, repeat := 0.0, 0.0;
    }
  }

  /** `ANPENDING`. */
  datatype Slot = Slot(w: Watcher, events: bv32)

  // ---------- What it means ----------

  /** What each watcher is owed: the events it will be called with. */
  type Owed = map<Watcher, bv32>

  datatype Event =
    | Fed(w: Watcher, events: bv32)
    | Cleared(w: Watcher)
    | Invoked(w: Watcher, events: bv32)

  function Or(a: bv32, b: bv32): bv32 { a | b }

  lemma OrNone(a: bv32)
    ensures Or(0, a) == a
  {
  }

  function With(m: Owed, w: Watcher, events: bv32): Owed {
    m[w := Or(if w in m then m[w] else 0, events)]
  }

  lemma WithIs(m: Owed, w: Watcher, events: bv32)
    ensures With(m, w, events).Keys == m.Keys + {w}
    ensures With(m, w, events)[w] == if w in m then m[w] | events else events
  {
    OrNone(events);
    if w in m { OrIs(m[w], events); }
    hide Or;
  }

  lemma OrIs(a: bv32, b: bv32)
    ensures Or(a, b) == a | b
  {
  }

  /** Feeding merges with what is owed; a callback gets exactly what is owed, and then nothing is. */
  function Apply(m: Owed, e: Event): (r: Option<Owed>) {
    match e
    case Fed(w, events) => Some(With(m, w, events))
    case Cleared(w) => Some(m - {w})
    case Invoked(w, events) => if w in m && m[w] == events then Some(m - {w}) else None
  }

  function Replay(m: Owed, log: seq<Event>): (r: Option<Owed>) {
    if log == [] then
      Some(m)
    else
      var before := Replay(m, log[..|log| - 1]);
      if before.None? then None else Apply(before.value, log[|log| - 1])
  }

  lemma {:induction false} ReplayStep(m: Owed, log: seq<Event>, e: Event)
    ensures Replay(m, log + [e]) == if Replay(m, log).None? then None else Apply(Replay(m, log).value, e)
  {
    assert (log + [e])[..|log|] == log;
  }

  lemma {:induction false} ReplayJoin(m: Owed, a: seq<Event>, b: seq<Event>)
    requires Replay(m, a).Some?
    ensures Replay(m, a + b) == Replay(Replay(m, a).value, b)
    decreases |b|
  {
    if b == [] {
      assert a + b == a;
    } else {
      var c := b[..|b| - 1];
      ReplayJoin(m, a, c);
      assert a + b == (a + c) + [b[|b| - 1]];
      ReplayStep(m, a + c, b[|b| - 1]);
    }
  }

  /** The same for one watcher alone: the OR of everything fed since it was last invoked or cleared. */
  function Due(m: Owed, w: Watcher, log: seq<Event>): (r: Option<bv32>) {
    if log == [] then
      if w in m then Some(m[w]) else None
    else
      var before := Due(m, w, log[..|log| - 1]);
      var e := log[|log| - 1];
      if e.w != w then before
      else if e.Fed? then Some(Or(if before.Some? then before.value else 0, e.events))
      else None
  }

  /** Watchers do not influence each other: in a log that replays, every callback gets the OR of what its watcher was
      fed since its last callback or clearing, and what is still owed at the end is the same OR. */
  lemma {:induction false} EachGetsItsDue(m: Owed, log: seq<Event>, w: Watcher)
    requires Replay(m, log).Some?
    ensures w in Replay(m, log).value <==> Due(m, w, log).Some?
    ensures w in Replay(m, log).value ==> Replay(m, log).value[w] == Due(m, w, log).value
    ensures forall i :: 0 <= i < |log| && log[i].Invoked? && log[i].w == w ==>
                Due(m, w, log[..i]) == Some(log[i].events)
  {
    if log != [] {
      var n := |log| - 1;
      var init := log[..n];
      EachGetsItsDue(m, init, w);
      forall i | 0 <= i < |log| && log[i].Invoked? && log[i].w == w
        ensures Due(m, w, log[..i]) == Some(log[i].events)
      {
        if i < n {
          assert init[..i] == log[..i];
          assert init[i] == log[i];
        }
      }
    }
  }

  function And(a: bv32, b: bv32): bv32 { a & b }

  predicate Carries(events: bv32, mask: bv32) { And(events, mask) != 0 }

  lemma OrCarries(a: bv32, b: bv32, mask: bv32)
    ensures Carries(Or(a, b), mask) <==> Carries(a, mask) || Carries(b, mask)
  {
    hide Or, And;
    Distributes(a, b, mask);
    BothNone(And(a, mask), And(b, mask));
  }

  lemma Distributes(a: bv32, b: bv32, mask: bv32)
    ensures And(Or(a, b), mask) == Or(And(a, mask), And(b, mask))
  {
  }

  lemma BothNone(a: bv32, b: bv32)
    ensures Or(a, b) == 0 <==> a == 0 && b == 0
  {
  }

  /** `w` was fed an event of the mask, or was owed one at the start, and was not called or cleared since. */
  ghost predicate FedSince(m: Owed, w: Watcher, log: seq<Event>, mask: bv32) {
    || (w in m && Carries(m[w], mask) && forall k :: 0 <= k < |log| && log[k].w == w ==> log[k].Fed?)
    || exists j :: FedAt(w, log, j, mask)
  }

  ghost predicate FedAt(w: Watcher, log: seq<Event>, j: nat, mask: bv32) {
    && j < |log| && log[j].Fed? && log[j].w == w && Carries(log[j].events, mask)
    && forall k :: j < k < |log| && log[k].w == w ==> log[k].Fed?
  }

  /** Bit by bit: an event is due exactly if it was fed since the last call or clearing. */
  lemma {:induction false} DueBits(m: Owed, w: Watcher, log: seq<Event>, mask: bv32)
    ensures Due(m, w, log).Some? && Carries(Due(m, w, log).value, mask) <==> FedSince(m, w, log, mask)
  {
    hide Carries, Or;
    if log != [] {
      var n := |log| - 1;
      var init, e := log[..n], log[n];
      DueBits(m, w, init, mask);
      assert log == init + [e];
      FedMoreSince(m, w, init, e, mask);
      NothingCarried(mask);
      if e.w == w && e.Fed? {
        OrCarries(if Due(m, w, init).Some? then Due(m, w, init).value else 0, e.events, mask);
      }
    }
  }

  lemma NothingCarried(mask: bv32)
    ensures !Carries(0, mask)
  {
  }

  lemma FedMoreSince(m: Owed, w: Watcher, log: seq<Event>, e: Event, mask: bv32)
    ensures FedSince(m, w, log + [e], mask) <==>
              if e.w != w then FedSince(m, w, log, mask)
              else e.Fed? && (FedSince(m, w, log, mask) || Carries(e.events, mask))
  {
    hide Carries;
    var both := log + [e];
    assert both[|log|] == e;
    forall j: nat | j < |log|
      ensures FedAt(w, both, j, mask) <==> FedAt(w, log, j, mask) && (e.w == w ==> e.Fed?)
    {
      assert both[j] == log[j];
      if FedAt(w, both, j, mask) {
        forall k | j < k < |log| && log[k].w == w
          ensures log[k].Fed?
        {
          assert both[k] == log[k];
        }
      }
    }
    assert FedAt(w, both, |log|, mask) <==> e.Fed? && e.w == w && Carries(e.events, mask);
    assert forall k :: 0 <= k < |log| ==> both[k] == log[k];
  }

  /** So every callback gets an event exactly if its watcher was fed it, or owed it, since its last call or clearing. */
  lemma {:induction false} CallBits(m: Owed, log: seq<Event>, w: Watcher, i: nat, mask: bv32)
    requires Replay(m, log).Some? && i < |log| && log[i].Invoked? && log[i].w == w
    ensures log[i].events & mask != 0 <==> FedSince(m, w, log[..i], mask)
  {
    EachGetsItsDue(m, log, w);
    DueBits(m, w, log[..i], mask);
  }

  function Calls(log: seq<Event>, w: Watcher): (n: nat) {
    if log == [] then 0
    else Calls(log[..|log| - 1], w) + if log[|log| - 1].Invoked? && log[|log| - 1].w == w then 1 else 0
  }

  /** Exactly once: a watcher that is owed a callback, is fed nothing more and is not cleared, is called once if it is
      owed nothing at the end, and not at all otherwise. */
  lemma {:induction false} CalledOnce(m: Owed, log: seq<Event>, w: Watcher)
    requires Replay(m, log).Some?
    requires forall i :: 0 <= i < |log| && log[i].w == w ==> log[i].Invoked?
    ensures Calls(log, w) == if w in m && w !in Replay(m, log).value then 1 else 0
    ensures w in Replay(m, log).value ==> w in m
  {
    if log != [] {
      var init := log[..|log| - 1];
      forall i | 0 <= i < |init| && init[i].w == w
        ensures init[i].Invoked?
      {
        assert init[i] == log[i];
      }
      CalledOnce(m, init, w);
    }
  }

  /** What the callbacks do when they are called, as far as the pending events are concerned. */
  datatype Action = Feed(w: Watcher, events: bv32) | Clear(w: Watcher)

  predicate Acceptable(actions: seq<Action>, watchers: set<Watcher>) {
    forall i :: 0 <= i < |actions| ==> actions[i].w in watchers
  }

  predicate Falling(log: seq<Event>, low: nat) {
    && (forall i :: 0 <= i < |log| && log[i].Invoked? ==> log[i].w.priority >= low)
    && (forall i,
          j :: 0 <= i < j < |log| && log[i].Invoked? && log[j].Invoked? ==> log[i].w.priority >= log[j].w.priority)
  }

  /** Fed by a callback of a lower priority. */
  ghost predicate Late(log: seq<Event>, w: Watcher) {
    exists i, j :: 0 <= i < j < |log| && log[i].Invoked? && log[i].w.priority < w.priority && log[j].Fed?
      && log[j].w == w
  }

  /** The callbacks for one stack, top first. */
  function Drain(stack: seq<Slot>, dummy: Watcher): (log: seq<Event>) {
    if stack == [] then []
    else
      var top := stack[|stack| - 1];
      (if top.w == dummy then [] else [Invoked(top.w, top.events)]) + Drain(stack[..|stack| - 1], dummy)
  }

  /** The callbacks for all priorities below `pri`, highest first. */
  function DrainAll(stacks: seq<seq<Slot>>, pri: nat, dummy: Watcher): (log: seq<Event>)
    requires pri <= |stacks|
  {
    if pri == 0 then [] else Drain(stacks[pri - 1], dummy) + DrainAll(stacks, pri - 1, dummy)
  }

  // ---------- Order within a stack ----------

  predicate CallsAt(log: seq<Event>, m: int, w: Watcher) {
    0 <= m < |log| && log[m].Invoked? && log[m].w == w
  }

  /** `w` was called, cleared, or either, in the first `n` events. */
  ghost predicate CalledBy(log: seq<Event>, n: int, w: Watcher) {
    exists m :: m < n && CallsAt(log, m, w)
  }

  ghost predicate ClearedBy(log: seq<Event>, n: int, w: Watcher) {
    exists m :: 0 <= m < |log| && m < n && log[m] == Cleared(w)
  }

  ghost predicate Touched(log: seq<Event>, n: int, w: Watcher) {
    exists m :: 0 <= m < |log| && m < n && log[m].w == w && !log[m].Fed?
  }

  /** `lower` is called only after `upper` was called or cleared, unless `lower` itself was called or cleared before. */
  ghost predicate InTurn(log: seq<Event>, upper: Watcher, lower: Watcher) {
    forall n :: CallsAt(log, n, lower) ==> Touched(log, n, lower) || Touched(log, n, upper)
  }

  /** So it is for any two slots of a stack. */
  ghost predicate TopDown(stack: seq<Slot>, log: seq<Event>, dummy: Watcher) {
    forall i, j :: 0 <= i < j < |stack| && stack[i].w != dummy && stack[j].w != dummy ==>
        InTurn(log, stack[j].w, stack[i].w)
  }

  ghost predicate AllTouched(stack: seq<Slot>, log: seq<Event>, dummy: Watcher) {
    forall i :: 0 <= i < |stack| && stack[i].w != dummy ==> Touched(log, |log|, stack[i].w)
  }

  /** `a` is called, and its first call comes before any call of `b`. */
  ghost predicate CalledBefore(log: seq<Event>, a: Watcher, b: Watcher) {
    exists m :: CallsAt(log, m, a) && !CalledBy(log, m, b)
  }

  lemma TouchedIs(log: seq<Event>, n: int, w: Watcher)
    ensures Touched(log, n, w) <==> CalledBy(log, n, w) || ClearedBy(log, n, w)
  {
    if Touched(log, n, w) {
      var m :| 0 <= m < |log| && m < n && log[m].w == w && !log[m].Fed?;
      assert CallsAt(log, m, w) || log[m] == Cleared(w);
    }
    if CalledBy(log, n, w) {
      var m :| m < n && CallsAt(log, m, w);
      assert log[m].w == w && !log[m].Fed?;
    }
    if ClearedBy(log, n, w) {
      var m :| 0 <= m < |log| && m < n && log[m] == Cleared(w);
      assert log[m].w == w && !log[m].Fed?;
    }
  }

  lemma Sooner(log: seq<Event>, m: int, n: int, w: Watcher)
    requires m <= n
    ensures CalledBy(log, m, w) ==> CalledBy(log, n, w)
    ensures ClearedBy(log, m, w) ==> ClearedBy(log, n, w)
    ensures Touched(log, m, w) ==> Touched(log, n, w)
  {
  }

  lemma {:induction false} FirstCall(log: seq<Event>, w: Watcher, n: nat) returns (m: nat)
    requires CallsAt(log, n, w)
    ensures m <= n && CallsAt(log, m, w) && !CalledBy(log, m, w)
  {
    if x: nat :| x < n && CallsAt(log, x, w) {
      m := FirstCall(log, w, x);
    } else {
      m := n;
    }
  }

  /** A watcher is called only after each one above it in its stack was called or cleared, unless it was itself
      cleared. */
  lemma {:induction false} OnlyAfter(log: seq<Event>, upper: Watcher, lower: Watcher, n: nat)
    requires InTurn(log, upper, lower) && CallsAt(log, n, lower) && !ClearedBy(log, n, lower)
    ensures Touched(log, n, upper)
  {
    var m := FirstCall(log, lower, n);
    hide CalledBy, ClearedBy, Touched;
    Sooner(log, m, n, lower);
    Sooner(log, m, n, upper);
    TouchedIs(log, m, lower);
  }

  /** If neither is cleared and the upper one is called at all, its first call comes before any call of the lower
      one. */
  lemma {:induction false} UpperFirst(log: seq<Event>, upper: Watcher, lower: Watcher)
    requires InTurn(log, upper, lower) && Touched(log, |log|, upper)
    requires !ClearedBy(log, |log|, upper) && !ClearedBy(log, |log|, lower)
    ensures CalledBefore(log, upper, lower)
  {
    hide ClearedBy, Touched, InTurn;
    TouchedIs(log, |log|, upper);
    var k :| k < |log| && CallsAt(log, k, upper);
    var m := FirstCall(log, upper, k);
    forall n: nat | n < m
      ensures !CallsAt(log, n, lower)
    {
      Sooner(log, n, |log|, lower);
      Sooner(log, n, |log|, upper);
      Sooner(log, n, m, upper);
      TouchedIs(log, n, upper);
      hide CalledBy;
      OnlyAfterIf(log, upper, lower, n);
    }
  }

  lemma OnlyAfterIf(log: seq<Event>, upper: Watcher, lower: Watcher, n: nat)
    requires InTurn(log, upper, lower) && !ClearedBy(log, n, lower)
    ensures CallsAt(log, n, lower) ==> Touched(log, n, upper)
  {
    if CallsAt(log, n, lower) { OnlyAfter(log, upper, lower, n); }
  }

  /** Slots keep their watchers, but those of watchers that were touched meanwhile. */
  ghost predicate Stays(was: seq<Slot>, now: seq<Slot>, log: seq<Event>) {
    |was| <= |now| && forall i :: 0 <= i < |was| ==> now[i].w == was[i].w || Touched(log, |log|, was[i].w)
  }

  ghost predicate EachStays(was: seq<seq<Slot>>, now: seq<seq<Slot>>, log: seq<Event>) {
    |was| == NUM_PRI == |now| && forall p :: 0 <= p < NUM_PRI ==> Stays(was[p], now[p], log)
  }

  lemma EachStaysOn(a: seq<seq<Slot>>, b: seq<seq<Slot>>, c: seq<seq<Slot>>, log: seq<Event>, more: seq<Event>)
    requires EachStays(a, b, log) && EachStays(b, c, more)
    ensures EachStays(a, c, log + more)
  {
    hide Stays;
    forall p | 0 <= p < NUM_PRI
      ensures Stays(a[p], c[p], log + more)
    {
      StaysOn(a[p], b[p], c[p], log, more);
    }
  }

  /** One stack changed. */
  lemma OneStays(a: seq<seq<Slot>>, p: nat, stack: seq<Slot>, log: seq<Event>)
    requires |a| == NUM_PRI && p < NUM_PRI && Stays(a[p], stack, log)
    ensures EachStays(a, a[p := stack], log)
  {
  }

  lemma SameStays(a: seq<seq<Slot>>, log: seq<Event>)
    requires |a| == NUM_PRI
    ensures EachStays(a, a, log)
  {
  }

  lemma ClearedTouched(w: Watcher)
    ensures Touched([Cleared(w)], 1, w)
  {
    assert [Cleared(w)][0].w == w;
  }

  /** What was on the stack at the start and was not touched since is still in its place. */
  ghost predicate Holding(entry: seq<Slot>, now: seq<Slot>, log: seq<Event>, dummy: Watcher) {
    forall i :: 0 <= i < |entry| && entry[i].w != dummy && !Touched(log, |log|, entry[i].w) ==>
        i < |now| && now[i].w == entry[i].w
  }

  /** The watchers of the stack have its priority. */
  predicate OfStack(stack: seq<Slot>, pri: nat, dummy: Watcher) {
    forall i :: 0 <= i < |stack| ==> stack[i].w == dummy || stack[i].w.priority == pri
  }

  predicate OnceEach(stack: seq<Slot>, dummy: Watcher) {
    forall i, j :: 0 <= i < j < |stack| && stack[i].w != dummy ==> stack[i].w != stack[j].w
  }

  lemma TouchedMore(log: seq<Event>, more: seq<Event>)
    ensures forall w :: Touched(log + more, |log + more|, w) <==> Touched(log, |log|, w) || Touched(more, |more|, w)
    ensures forall n, w :: n <= |log| ==> (Touched(log + more, n, w) <==> Touched(log, n, w))
  {
    var both := log + more;
    forall w
      ensures Touched(both, |both|, w) <==> Touched(log, |log|, w) || Touched(more, |more|, w)
    {
      if Touched(both, |both|, w) {
        var m :| 0 <= m < |both| && both[m].w == w && !both[m].Fed?;
        if m < |log| { assert log[m] == both[m]; } else { assert more[m - |log|] == both[m]; }
      }
      if Touched(log, |log|, w) {
        var m :| 0 <= m < |log| && log[m].w == w && !log[m].Fed?;
        assert both[m] == log[m];
      }
      if Touched(more, |more|, w) {
        var m :| 0 <= m < |more| && more[m].w == w && !more[m].Fed?;
        assert both[|log| + m] == more[m];
      }
    }
    forall n, w | n <= |log|
      ensures Touched(both, n, w) <==> Touched(log, n, w)
    {
      if Touched(log, n, w) {
        var m :| 0 <= m < |log| && m < n && log[m].w == w && !log[m].Fed?;
        assert both[m] == log[m];
      }
      if Touched(both, n, w) {
        var m :| 0 <= m < |both| && m < n && both[m].w == w && !both[m].Fed?;
        assert log[m] == both[m];
      }
    }
  }

  lemma StaysOn(a: seq<Slot>, b: seq<Slot>, c: seq<Slot>, log: seq<Event>, more: seq<Event>)
    requires Stays(a, b, log) && Stays(b, c, more)
    ensures Stays(a, c, log + more)
  {
    hide Touched;
    TouchedMore(log, more);
  }

  /** One turn of the loop on the stack it works on. */
  lemma HoldingPopped(entry: seq<Slot>, was: seq<Slot>, now: seq<Slot>, log: seq<Event>, more: seq<Event>,
                      dummy: Watcher)
    requires Holding(entry, was, log, dummy) && was != [] && Stays(was[..|was| - 1], now, more)
    requires var top := was[|was| - 1].w; top == dummy || Touched(more, |more|, top)
    ensures Holding(entry, now, log + more, dummy)
  {
    hide Touched;
    TouchedMore(log, more);
  }

  /** On any other stack. */
  lemma HoldingStays(entry: seq<Slot>, was: seq<Slot>, now: seq<Slot>, log: seq<Event>, more: seq<Event>,
                     dummy: Watcher)
    requires Holding(entry, was, log, dummy) && Stays(was, now, more)
    ensures Holding(entry, now, log + more, dummy)
  {
    hide Touched;
    TouchedMore(log, more);
  }

  lemma HoldingNone(entry: seq<Slot>, log: seq<Event>, dummy: Watcher)
    requires Holding(entry, [], log, dummy)
    ensures AllTouched(entry, log, dummy)
  {
  }

  lemma AllTouchedMore(entry: seq<Slot>, log: seq<Event>, more: seq<Event>, dummy: Watcher)
    requires AllTouched(entry, log, dummy)
    ensures AllTouched(entry, log + more, dummy)
  {
    hide Touched;
    TouchedMore(log, more);
  }

  /** The call of the top slot comes in turn. */
  lemma TopDownMore(entry: seq<Slot>, was: seq<Slot>, log: seq<Event>, more: seq<Event>, dummy: Watcher)
    requires TopDown(entry, log, dummy) && Holding(entry, was, log, dummy) && OnceEach(was, dummy)
    requires forall i :: 1 <= i < |more| ==> !more[i].Invoked?
    requires more != [] && was != [] && more[0].Invoked? && more[0].w == was[|was| - 1].w
    ensures TopDown(entry, log + more, dummy)
  {
    hide Touched;
    TouchedMore(log, more);
    forall i, j | 0 <= i < j < |entry| && entry[i].w != dummy && entry[j].w != dummy
      ensures InTurn(log + more, entry[j].w, entry[i].w)
    {
      assert InTurn(log, entry[j].w, entry[i].w);
      forall n | CallsAt(log + more, n, entry[i].w)
        ensures Touched(log + more, n, entry[i].w) || Touched(log + more, n, entry[j].w)
      {
        if n < |log| { assert CallsAt(log, n, entry[i].w); }
      }
    }
  }

  /** A call on another stack changes nothing here. */
  lemma TopDownElse(entry: seq<Slot>, log: seq<Event>, more: seq<Event>, pri: nat, dummy: Watcher)
    requires TopDown(entry, log, dummy) && OfStack(entry, pri, dummy)
    requires forall i :: 0 <= i < |more| && more[i].Invoked? ==> more[i].w.priority != pri
    ensures TopDown(entry, log + more, dummy)
  {
    hide Touched;
    TouchedMore(log, more);
    forall i, j | 0 <= i < j < |entry| && entry[i].w != dummy && entry[j].w != dummy
      ensures InTurn(log + more, entry[j].w, entry[i].w)
    {
      assert InTurn(log, entry[j].w, entry[i].w);
      forall n | CallsAt(log + more, n, entry[i].w)
        ensures Touched(log + more, n, entry[i].w) || Touched(log + more, n, entry[j].w)
      {
        assert (log + more)[n].w.priority == pri;
        assert n < |log| ==> CallsAt(log, n, entry[i].w);
        assert n >= |log| ==> (log + more)[n] == more[n - |log|];
      }
    }
  }

  ghost predicate AllHolding(entry: seq<seq<Slot>>, now: seq<seq<Slot>>, log: seq<Event>, dummy: Watcher) {
    |entry| == NUM_PRI == |now| && forall p :: 0 <= p < NUM_PRI ==> Holding(entry[p], now[p], log, dummy)
  }

  /** Every stack is called top down, and those from `pri` on completely. */
  ghost predicate StacksInTurn(entry: seq<seq<Slot>>, log: seq<Event>, pri: nat, dummy: Watcher) {
    && |entry| == NUM_PRI
    && (forall p :: 0 <= p < NUM_PRI ==> TopDown(entry[p], log, dummy))
    && (forall p: nat :: pri <= p < NUM_PRI ==> AllTouched(entry[p], log, dummy))
  }

  predicate OfStacks(entry: seq<seq<Slot>>, dummy: Watcher) {
    |entry| == NUM_PRI && forall p :: 0 <= p < NUM_PRI ==> OfStack(entry[p], p, dummy)
  }

  lemma InTurnNone(entry: seq<seq<Slot>>, dummy: Watcher)
    requires |entry| == NUM_PRI
    ensures AllHolding(entry, entry, [], dummy) && StacksInTurn(entry, [], NUM_PRI, dummy)
  {
  }

  /** One turn of the loop, for all stacks. */
  lemma InTurnMore(entry: seq<seq<Slot>>, was: seq<seq<Slot>>, now: seq<seq<Slot>>, log: seq<Event>, more: seq<Event>,
                   pri: nat, from: nat, dummy: Watcher)
    requires AllHolding(entry, was, log, dummy) && StacksInTurn(entry, log, from, dummy) && OfStacks(entry, dummy)
    requires pri < NUM_PRI && was[pri] != [] && OnceEach(was[pri], dummy)
    requires EachStays(was[pri := was[pri][..|was[pri]| - 1]], now, more)
    requires forall i :: 1 <= i < |more| ==> !more[i].Invoked?
    requires var top := was[pri][|was[pri]| - 1].w;
      if more == [] then top == dummy else more[0].Invoked? && more[0].w == top && top.priority == pri
    ensures AllHolding(entry, now, log + more, dummy) && StacksInTurn(entry, log + more, from, dummy)
  {
    hide Touched, Holding, TopDown, AllTouched, Stays, OfStack, OnceEach;
    if more != [] { TopTouched(more); }
    forall p | 0 <= p < NUM_PRI
      ensures Holding(entry[p], now[p], log + more, dummy)
    {
      if p == pri {
        HoldingPopped(entry[p], was[p], now[p], log, more, dummy);
      } else {
        HoldingStays(entry[p], was[p], now[p], log, more, dummy);
      }
    }
    forall p | 0 <= p < NUM_PRI
      ensures TopDown(entry[p], log + more, dummy)
    {
      if more == [] {
        assert log + more == log;
      } else if p == pri {
        TopDownMore(entry[p], was[p], log, more, dummy);
      } else {
        TopDownElse(entry[p], log, more, p, dummy);
      }
    }
    forall p: nat | from <= p < NUM_PRI
      ensures AllTouched(entry[p], log + more, dummy)
    {
      AllTouchedMore(entry[p], log, more, dummy);
    }
  }

  lemma TopTouched(more: seq<Event>)
    requires more != [] && more[0].Invoked?
    ensures Touched(more, |more|, more[0].w)
  {
  }

  lemma InTurnLower(entry: seq<seq<Slot>>, now: seq<seq<Slot>>, log: seq<Event>, pri: nat, dummy: Watcher)
    requires AllHolding(entry, now, log, dummy) && StacksInTurn(entry, log, pri + 1, dummy) && pri < NUM_PRI
             && now[pri] == []
    ensures StacksInTurn(entry, log, pri, dummy)
  {
    HoldingNone(entry[pri], log, dummy);
    hide AllTouched, TopDown, Holding;
  }

  // ---------- Feeding in reverse ----------

  /** `ws` fed last to first. */
  function FedAll(m: Owed, ws: seq<Watcher>, events: bv32): Owed
    decreases |ws|
  {
    if ws == [] then m else FedAll(With(m, ws[|ws| - 1], events), ws[..|ws| - 1], events)
  }

  /** What that pushes on the stack of `pri`. */
  function Pushed(ws: seq<Watcher>, pri: nat, events: bv32): (r: seq<Slot>) {
    if ws == [] then []
    else
      (if ws[|ws| - 1].priority == pri then [Slot(ws[|ws| - 1], events)] else [])
      + Pushed(ws[..|ws| - 1], pri, events)
  }

  predicate Distinct(ws: seq<Watcher>) {
    forall i, j :: 0 <= i < j < |ws| ==> ws[i] != ws[j]
  }

  /** Those of one priority, in order. */
  function OfPriority(ws: seq<Watcher>, pri: nat): (r: seq<Watcher>) {
    if ws == [] then []
    else OfPriority(ws[..|ws| - 1], pri) + if ws[|ws| - 1].priority == pri then [ws[|ws| - 1]] else []
  }

  function CallsOf(ws: seq<Watcher>, events: bv32): (log: seq<Event>)
    ensures |log| == |ws| && forall i :: 0 <= i < |ws| ==> log[i] == Invoked(ws[i], events)
  {
    seq(|ws|, i requires 0 <= i < |ws| => Invoked(ws[i], events))
  }

  /** Twice reversed is in order: what was fed in reverse is called first to last, before the rest of the stack. */
  lemma {:induction false} ReverseThenDrain(stack: seq<Slot>, ws: seq<Watcher>, pri: nat, events: bv32, dummy: Watcher)
    requires dummy !in ws
    ensures Drain(stack + Pushed(ws, pri, events), dummy) == CallsOf(OfPriority(ws, pri), events) + Drain(stack, dummy)
  {
    DrainJoin(stack, Pushed(ws, pri, events), dummy);
    DrainPushed(ws, pri, events, dummy);
  }

  lemma {:induction false} DrainJoin(a: seq<Slot>, b: seq<Slot>, dummy: Watcher)
    ensures Drain(a + b, dummy) == Drain(b, dummy) + Drain(a, dummy)
    decreases |b|
  {
    if b == [] {
      assert a + b == a;
    } else {
      var c := b[..|b| - 1];
      assert (a + b)[..|a + b| - 1] == a + c;
      DrainJoin(a, c, dummy);
    }
  }

  lemma {:induction false} DrainPushed(ws: seq<Watcher>, pri: nat, events: bv32, dummy: Watcher)
    requires dummy !in ws
    ensures Drain(Pushed(ws, pri, events), dummy) == CallsOf(OfPriority(ws, pri), events)
  {
    if ws != [] {
      var init, w := ws[..|ws| - 1], ws[|ws| - 1];
      DrainPushed(init, pri, events, dummy);
      if w.priority == pri {
        DrainJoin([Slot(w, events)], Pushed(init, pri, events), dummy);
        assert [Slot(w, events)][..0] == [];
        assert Drain([Slot(w, events)], dummy) == [Invoked(w, events)];
      } else {
        assert [] + Pushed(init, pri, events) == Pushed(init, pri, events);
      }
    }
  }

  lemma {:induction false} PushedAt(ws: seq<Watcher>, pri: nat, events: bv32, i: nat) returns (y: nat)
    requires i < |ws| && ws[i].priority == pri
    ensures y < |Pushed(ws, pri, events)| && Pushed(ws, pri, events)[y].w == ws[i]
  {
    var n := |ws| - 1;
    if i == n {
      y := 0;
    } else {
      y := PushedAt(ws[..n], pri, events, i);
      if ws[n].priority == pri { y := y + 1; }
    }
  }

  /** What was collected first lies above. */
  lemma {:induction false} PushedOrder(ws: seq<Watcher>, pri: nat, events: bv32, i: nat, j: nat)
    returns (x: nat, y: nat)
    requires i < j < |ws| && ws[i].priority == pri && ws[j].priority == pri
    ensures x < y < |Pushed(ws, pri, events)|
    ensures Pushed(ws, pri, events)[x].w == ws[j] && Pushed(ws, pri, events)[y].w == ws[i]
  {
    var n := |ws| - 1;
    if j == n {
      y := PushedAt(ws[..n], pri, events, i);
      x, y := 0, y + 1;
    } else {
      x, y := PushedOrder(ws[..n], pri, events, i, j);
      if ws[n].priority == pri { x, y := x + 1, y + 1; }
    }
  }

  lemma {:induction false} FedAllIs(m: Owed, ws: seq<Watcher>, events: bv32, w: Watcher)
    requires Distinct(ws)
    ensures w in FedAll(m, ws, events) <==> w in m || w in ws
    ensures w in m && w !in ws ==> FedAll(m, ws, events)[w] == m[w]
    ensures w in ws ==> FedAll(m, ws, events)[w] == Or(if w in m then m[w] else 0, events)
    decreases |ws|
  {
    if ws != [] {
      FedAllIs(With(m, ws[|ws| - 1], events), ws[..|ws| - 1], events, w);
    }
  }

  // ---------- The code ----------

  class Queues {
    ghost const watchers: set<Watcher>     // every watcher the program uses
    const dummy: Watcher                   // pending_w
    var pendings: seq<seq<Slot>>
    var rfeeds: seq<Watcher>

    ghost predicate StackOk(stack: seq<Slot>, pri: nat) reads watchers`pending {
      forall i :: 0 <= i < |stack| ==>
        stack[i].w == dummy || (stack[i].w in watchers && stack[i].w.priority == pri && stack[i].w.pending == i + 1)
    }

    ghost predicate SlotsOk() reads this`pendings, watchers`pending {
      |pendings| == NUM_PRI && forall p :: 0 <= p < NUM_PRI ==> StackOk(pendings[p], p)
    }

    ghost predicate WatcherOk(w: Watcher) reads this`pendings, w`pending {
      w.priority < |pendings|
      && (w.pending > 0 ==> w.pending <= |pendings[w.priority]| && pendings[w.priority][w.pending - 1].w == w)
    }

    /** Each slot names a watcher that names it, or the dummy; no watcher has two slots. */
    ghost predicate Valid() reads this`pendings, watchers`pending {
      && dummy !in watchers
      && SlotsOk()
      && (forall w :: w in watchers ==> WatcherOk(w))
    }

    ghost function Pending(): Owed
      reads this`pendings, watchers`pending
      requires Valid()
    {
      map w | w in watchers && w.pending > 0 :: pendings[w.priority][w.pending - 1].events
    }

    constructor (ghost watchers: set<Watcher>)
      requires forall w :: w in watchers ==> w.pending == 0 && w.priority < NUM_PRI
      ensures this.watchers == watchers && Valid() && Pending() == map[] && fresh(dummy) && rfeeds == []
    {
      this.watchers := watchers;
      dummy := new Watcher(0, 0.0, 0.0);
      pendings, rfeeds := [[], [], [], [], []], [];
    }

    /** Only the stack of `pri` and the back-index of `w` changed, and every other watcher kept its slot. */
    twostate predicate Changed(w: Watcher, new pri: nat)
      reads this`pendings, watchers`pending
    {
      && (w in watchers ==> w.priority == pri)
      && pri < NUM_PRI && |old(pendings)| == NUM_PRI == |pendings|
      && pendings == old(pendings)[pri := pendings[pri]]
      && (forall x :: x in watchers && x != w ==> x.pending == old(x.pending))
      && (var was := old(pendings)[pri];
          forall i :: 0 <= i < |was| && was[i].w != w && was[i].w != dummy ==>
              i < |pendings[pri]| && pendings[pri][i] == was[i])
    }

    twostate lemma StacksKept(w: Watcher, new pri: nat)
      requires old(Valid()) && Changed(w, pri) && StackOk(pendings[pri], pri)
      ensures SlotsOk()
    {
      forall p | 0 <= p < NUM_PRI
        ensures StackOk(pendings[p], p)
      {
        assert old(StackOk(pendings[p], p));
      }
    }

    twostate lemma WatchersKept(w: Watcher, new pri: nat)
      requires old(Valid()) && Changed(w, pri)
      requires w in watchers ==> WatcherOk(w)
      ensures forall x :: x in watchers ==> WatcherOk(x)
    {
      hide SlotsOk;
      forall x | x in watchers
        ensures WatcherOk(x)
      {
        assert old(WatcherOk(x));
      }
    }

    twostate lemma OwedKept(w: Watcher, new pri: nat)
      requires old(Valid()) && Valid() && Changed(w, pri)
      ensures Pending() - {w} == old(Pending()) - {w}
    {
      hide SlotsOk;
      forall x | x in watchers && x != w
        ensures x in Pending() <==> x in old(Pending())
        ensures x in Pending() ==> Pending()[x] == old(Pending())[x]
      {
        assert old(WatcherOk(x));
      }
    }

    lemma SlotOf(w: Watcher)
      requires Valid() && w in watchers
      ensures WatcherOk(w) && |pendings| == NUM_PRI && w.priority < NUM_PRI && StackOk(pendings[w.priority], w.priority)
      ensures w in Pending() <==> w.pending > 0
      ensures w.pending > 0 ==>
                w.pending <= |pendings[w.priority]| && pendings[w.priority][w.pending - 1] == Slot(w, Pending()[w])
    {
    }

    twostate lemma Kept(w: Watcher, new pri: nat)
      requires old(Valid()) && Changed(w, pri) && StackOk(pendings[pri], pri) && (w in watchers ==> WatcherOk(w))
      ensures Valid() && Pending() - {w} == old(Pending()) - {w}
    {
      StacksKept(w, pri);
      WatchersKept(w, pri);
      OwedKept(w, pri);
    }

    /** `ev_feed_event`. */
    method FeedEvent(w: Watcher, revents: bv32)
      requires Valid() && w in watchers
      modifies this`pendings, w`pending
      ensures Valid() && Pending() == With(old(Pending()), w, revents) && w.pending > 0
      ensures Pending().Keys == old(Pending()).Keys + {w}
      ensures Pending()[w] == if old(w.pending) > 0 then old(Pending())[w] | revents else revents
      ensures old(w.pending) == 0 ==>
                pendings == old(pendings)[w.priority := old(pendings)[w.priority] + [Slot(w, revents)]]
      ensures old(w.pending) > 0 ==> w.pending == old(w.pending)
      ensures EachStays(old(pendings), pendings, [Fed(w, revents)])
    {
      hide Valid, Pending, SlotsOk, With, Or;
      SlotOf(w);
      OrNone(revents);
      var pri := w.priority;
      var stack := pendings[pri];
      if w.pending > 0 {
        var slot := stack[w.pending - 1];
        stack := stack[w.pending - 1 := Slot(slot.w, Or(slot.events, revents))];
      } else {
        w.pending := |stack| + 1;
        stack := stack + [Slot(w, revents)];
      }
      OneStays(pendings, pri, stack, [Fed(w, revents)]);
      pendings := pendings[pri := stack];
      Kept(w, pri);
      SlotOf(w);
      IsWith(old(Pending()), Pending(), w, revents);
      assert Pending() == With(old(Pending()), w, revents);
      WithIs(old(Pending()), w, revents);
    }

    /** `ev_clear_pending`, and `clear_pending` when the result is not used. */
    method ClearPending(w: Watcher) returns (events: bv32)
      requires Valid() && w in watchers
      modifies this`pendings, w`pending
      ensures Valid() && w.pending == 0 && Pending() == old(Pending()) - {w}
      ensures events == if w in old(Pending()) then old(Pending())[w] else 0
      ensures old(w.pending) == 0 ==> pendings == old(pendings)
      ensures EachStays(old(pendings), pendings, [Cleared(w)])
    {
      hide Valid, Pending, SlotsOk, Touched;
      SlotOf(w);
      ClearedTouched(w);
      if w.pending == 0 {
        SameStays(pendings, [Cleared(w)]);
        NoKey(Pending(), w);
        return 0;
      }
      var pri := w.priority;
      var stack := pendings[pri];
      var slot := stack[w.pending - 1];
      stack := stack[w.pending - 1 := Slot(dummy, slot.events)];
      OneStays(pendings, pri, stack, [Cleared(w)]);
      pendings := pendings[pri := stack];
      w.pending := 0;
      Kept(w, pri);
      SlotOf(w);
      NoKey(Pending(), w);
      events := slot.events;
    }

    /** `feed_reverse` */
    method FeedReverse(w: Watcher)
      modifies this`rfeeds
      ensures rfeeds == old(rfeeds) + [w]
    {
      rfeeds := rfeeds + [w];
    }

    /** `feed_reverse_done` */
    method FeedReverseDone(revents: bv32)
      requires Valid() && rfeeds != [] && forall i :: 0 <= i < |rfeeds| ==> rfeeds[i] in watchers
      modifies this`pendings, this`rfeeds, watchers`pending
      ensures Valid() && rfeeds == [] && Pending() == FedAll(old(Pending()), old(rfeeds), revents)
      ensures Distinct(old(rfeeds)) && (forall i :: 0 <= i < |old(rfeeds)| ==> old(rfeeds[i].pending) == 0) ==>
        |pendings| == NUM_PRI && |old(pendings)| == NUM_PRI
        && forall p :: 0 <= p < NUM_PRI ==> pendings[p] == old(pendings)[p] + Pushed(old(rfeeds), p, revents)
    {
      hide Valid, Pending, With, FedAll, Pushed, Distinct;
      ghost var ws := rfeeds;
      ghost var was := pendings;
      ghost var owed := Pending();
      ghost var clean := Distinct(ws) && forall i :: 0 <= i < |ws| ==> ws[i].pending == 0;
      StackCount();
      PushedAll(was, ws, revents);
      while true
        invariant Valid() && rfeeds != [] && |rfeeds| <= |ws| && rfeeds == ws[..|rfeeds|]
        invariant FedAll(Pending(), rfeeds, revents) == FedAll(owed, ws, revents)
        invariant |pendings| == NUM_PRI == |was|
        invariant clean ==> forall i :: 0 <= i < |rfeeds| ==> ws[i].pending == 0
        invariant clean ==>
                    forall p :: 0 <= p < NUM_PRI ==>
                        pendings[p] + Pushed(rfeeds, p, revents) == was[p] + Pushed(ws, p, revents)
        decreases |rfeeds|
      {
        ghost var before := Pending();
        ghost var mid := pendings;
        ghost var left := rfeeds;
        var w := rfeeds[|rfeeds| - 1];
        rfeeds := rfeeds[..|rfeeds| - 1];
        FeedEvent(w, revents);
        StackCount();
        FedAllStep(before, left, revents);
        if clean { PushedStep(mid, left, revents, ws); }
        if |rfeeds| == 0 { break; }
      }
      NoneLeft(Pending(), pendings, revents);
    }

    twostate lemma DummyOwedNothing()
      requires old(Valid()) && Valid() && Pending() - {dummy} == old(Pending()) - {dummy}
      ensures Pending() == old(Pending())
    {
      NoKey(Pending(), dummy);
      NoKey(old(Pending()), dummy);
    }

    lemma StackAt(pri: nat)
      requires Valid() && pri < NUM_PRI
      ensures |pendings| == NUM_PRI && StackOk(pendings[pri], pri)
    {
    }

    /** The body of the inner loop up to the call. */
    method Pop(pri: nat) returns (top: Slot)
      requires Valid() && pri < NUM_PRI && pendings[pri] != []
      modifies this`pendings, watchers`pending, dummy`pending
      ensures Valid() && top == old(pendings)[pri][|old(pendings)[pri]| - 1]
      ensures pendings == old(pendings)[pri := old(pendings)[pri][..|old(pendings)[pri]| - 1]]
      ensures top.w == dummy ==> Pending() == old(Pending())
      ensures top.w != dummy ==> top.w in watchers && top.w.priority == pri
      ensures top.w != dummy ==> Apply(old(Pending()), Invoked(top.w, top.events)) == Some(Pending())
    {
      hide Pending, SlotsOk;
      StackAt(pri);
      var stack := pendings[pri];
      top := stack[|stack| - 1];
      stack := stack[..|stack| - 1];
      if top.w != dummy { SlotOf(top.w); }
      pendings := pendings[pri := stack];
      top.w.pending := 0;
      Kept(top.w, pri);
      if top.w == dummy {
        DummyOwedNothing();
      } else {
        SlotOf(top.w);
        NoKey(Pending(), top.w);
      }
    }

    lemma PendingAt(pri: nat)
      requires Valid() && pri < NUM_PRI && pendings[pri] == []
      ensures forall w :: w in Pending() ==> w.priority != pri
    {
    }

    lemma StackCount()
      requires Valid()
      ensures |pendings| == NUM_PRI && forall w :: w in Pending() ==> w in watchers && w.priority < NUM_PRI
    {
    }

    lemma StackFacts()
      requires Valid()
      ensures OfStacks(pendings, dummy) && forall p :: 0 <= p < NUM_PRI ==> OnceEach(pendings[p], dummy)
    {
      forall p | 0 <= p < NUM_PRI
        ensures OfStack(pendings[p], p, dummy) && OnceEach(pendings[p], dummy)
      {
        assert StackOk(pendings[p], p);
      }
    }

    /** A callback: it may feed and clear any watchers. */
    method Call(actions: seq<Action>) returns (log: seq<Event>)
      requires Valid() && Acceptable(actions, watchers)
      modifies this`pendings, watchers`pending
      ensures Valid() && Replay(old(Pending()), log) == Some(Pending())
      ensures forall i :: 0 <= i < |log| ==> !log[i].Invoked?
      ensures forall w :: w in Pending() && w !in old(Pending()) ==> FedIn(log, w)
      ensures actions == [] ==> log == [] && pendings == old(pendings)
      ensures EachStays(old(pendings), pendings, log)
    {
      hide Valid, Pending, Replay, With, EachStays;
      log := [];
      ReplayNone(Pending());
      StackCount();
      SameStays(pendings, []);
      for k := 0 to |actions|
        invariant Valid() && Replay(old(Pending()), log) == Some(Pending())
        invariant forall i :: 0 <= i < |log| ==> !log[i].Invoked?
        invariant forall w :: w in Pending() && w !in old(Pending()) ==> FedIn(log, w)
        invariant k == 0 ==> log == [] && pendings == old(pendings)
        invariant EachStays(old(pendings), pendings, log)
      {
        ghost var was, stacks := Pending(), pendings;
        match actions[k]
        case Feed(w, events) =>
          FeedEvent(w, events);
          ReplayStep(old(Pending()), log, Fed(w, events));
          FedMore(was, log, w, events);
          EachStaysOn(old(pendings), stacks, pendings, log, [Fed(w, events)]);
          log := log + [Fed(w, events)];
        case Clear(w) =>
          var _ := ClearPending(w);
          ReplayStep(old(Pending()), log, Cleared(w));
          FedStill(log, Cleared(w));
          OnlyLess(was, Cleared(w));
          EachStaysOn(old(pendings), stacks, pendings, log, [Cleared(w)]);
          log := log + [Cleared(w)];
      }
    }

    /** `ev_invoke_pending`; the k-th callback does `script[k]`, later ones nothing. */
    method InvokePending(script: seq<seq<Action>>) returns (log: seq<Event>)
      requires Valid() && forall k :: 0 <= k < |script| ==> Acceptable(script[k], watchers)
      modifies this`pendings, watchers`pending, dummy`pending
      ensures Valid() && Replay(old(Pending()), log) == Some(Pending())
      ensures Falling(log, 0)
      ensures forall w :: w in Pending() ==> Late(log, w)
      ensures script == [] ==> log == DrainAll(old(pendings), NUM_PRI, dummy) && Pending() == map[]
      ensures StacksInTurn(old(pendings), log, 0, dummy)
    {
      hide Valid, Pending, Replay, With, Falling, Late, Drain, DrainAll, StacksInTurn, AllHolding, OfStacks, OnceEach;
      hide EachStays;
      ghost var entry := pendings;
      StackFacts();
      InTurnNone(entry, dummy);
      log := [];
      var k := 0;
      var pri := NUM_PRI;
      ReplayNone(Pending());
      StackCount();
      FallingNone(pri);
      while pri > 0
        invariant 0 <= pri <= NUM_PRI && 0 <= k <= |script| && Valid()
        invariant Replay(old(Pending()), log) == Some(Pending())
        invariant Falling(log, pri)
        invariant forall w :: w in Pending() && w.priority >= pri ==> Late(log, w)
        invariant |pendings| == NUM_PRI
        invariant script == [] ==> forall p :: 0 <= p < pri ==> pendings[p] == old(pendings)[p]
        invariant script == [] ==> log + DrainAll(old(pendings), pri, dummy) == DrainAll(old(pendings), NUM_PRI, dummy)
        invariant script == [] ==> forall w :: w in Pending() ==> w.priority < pri
        invariant AllHolding(entry, pendings, log, dummy) && StacksInTurn(entry, log, pri, dummy)
      {
        DrainAllStep(old(pendings), pri, dummy);
        FallingLower(log, pri);
        pri := pri - 1;
        StackCount();
        ghost var first := log;
        while pendings[pri] != []
          invariant 0 <= k <= |script| && Valid() && |pendings| == NUM_PRI
          invariant Replay(old(Pending()), log) == Some(Pending())
          invariant Falling(log, pri)
          invariant forall w :: w in Pending() && w.priority > pri ==> Late(log, w)
          invariant script == [] ==> forall p :: 0 <= p < pri ==> pendings[p] == old(pendings)[p]
          invariant script == [] ==> log + Drain(pendings[pri], dummy) == first + Drain(old(pendings)[pri], dummy)
          invariant script == [] ==> forall w :: w in Pending() ==> w.priority <= pri
          invariant AllHolding(entry, pendings, log, dummy) && StacksInTurn(entry, log, pri + 1, dummy)
          decreases |script| - k, |pendings[pri]|
        {
          ghost var was := Pending();
          ghost var stack, stacks := pendings[pri], pendings;
          StackFacts();
          var more := InvokeOne(pri, if k < |script| then script[k] else []);
          if more != [] && k < |script| { k := k + 1; }
          ReplayJoin(old(Pending()), log, more);
          FallingMore(log, more, pri);
          LateMore(log, more, pri);
          DrainStep(log, stack, dummy);
          InTurnMore(entry, stacks, pendings, log, more, pri, pri + 1, dummy);
          log := log + more;
          StackCount();
        }
        PendingAt(pri);
        DrainNone(log, dummy);
        InTurnLower(entry, pendings, log, pri, dummy);
      }
      DrainNone(log, dummy);
      StackCount();
    }

    method InvokeOne(pri: nat, actions: seq<Action>) returns (log: seq<Event>)
      requires Valid() && pri < NUM_PRI && pendings[pri] != [] && Acceptable(actions, watchers)
      modifies this`pendings, watchers`pending, dummy`pending
      ensures Valid() && Replay(old(Pending()), log) == Some(Pending())
      ensures log != [] ==> log[0].Invoked? && log[0].w.priority == pri
      ensures forall i :: 1 <= i < |log| ==> !log[i].Invoked?
      ensures forall w :: w in Pending() && w !in old(Pending()) ==> log != [] && FedIn(log, w)
      ensures log == [] || actions == [] ==>
                pendings == old(pendings)[pri := old(pendings)[pri][..|old(pendings)[pri]| - 1]]
      ensures log == [] || actions == [] ==>
        var top := old(pendings)[pri][|old(pendings)[pri]| - 1];
        log == if top.w == dummy then [] else [Invoked(top.w, top.events)]
      ensures var top := old(pendings)[pri][|old(pendings)[pri]| - 1];
        if log == [] then top.w == dummy else log[0].w == top.w
      ensures EachStays(old(pendings)[pri := old(pendings)[pri][..|old(pendings)[pri]| - 1]], pendings, log)
    {
      hide Valid, Pending, Replay, With, EachStays;
      StackCount();
      ghost var was := Pending();
      var top := Pop(pri);
      ghost var stacks := pendings;
      if top.w == dummy {
        ReplayNone(was);
        SameStays(stacks, []);
        return [];
      }
      OnlyLess(was, Invoked(top.w, top.events));
      var first := [Invoked(top.w, top.events)];
      var rest := Call(actions);
      ReplayNone(was);
      ReplayStep(was, [], first[0]);
      assert [] + [first[0]] == first;
      ReplayJoin(was, first, rest);
      FedAfter(first, rest);
      SameStays(stacks, first);
      EachStaysOn(stacks, stacks, pendings, first, rest);
      log := first + rest;
    }
  }

  ghost predicate FedIn(log: seq<Event>, w: Watcher) {
    exists j :: 0 <= j < |log| && log[j].Fed? && log[j].w == w
  }

  lemma ReplayNone(m: Owed)
    ensures Replay(m, []) == Some(m)
  {
  }

  lemma FallingNone(pri: nat)
    ensures Falling([], pri)
  {
  }

  lemma FallingLower(log: seq<Event>, pri: nat)
    requires Falling(log, pri)
    ensures pri > 0 ==> Falling(log, pri - 1)
  {
  }

  lemma FallingMore(log: seq<Event>, more: seq<Event>, pri: nat)
    requires Falling(log, pri) && (more != [] ==> more[0].Invoked? && more[0].w.priority == pri)
    requires forall i :: 1 <= i < |more| ==> !more[i].Invoked?
    ensures Falling(log + more, pri)
  {
  }

  lemma LateMore(log: seq<Event>, more: seq<Event>, pri: nat)
    requires more != [] ==> more[0].Invoked? && more[0].w.priority == pri
    ensures forall w :: Late(log, w) ==> Late(log + more, w)
    ensures forall w :: FedIn(more, w) && w.priority > pri ==> Late(log + more, w)
  {
    var both := log + more;
    forall w | Late(log, w)
      ensures Late(both, w)
    {
      var i, j :| 0 <= i < j < |log| && log[i].Invoked? && log[i].w.priority < w.priority && log[j].Fed?
        && log[j].w == w;
      assert both[i] == log[i] && both[j] == log[j];
    }
    forall w | FedIn(more, w) && w.priority > pri
      ensures Late(both, w)
    {
      var j :| 0 <= j < |more| && more[j].Fed? && more[j].w == w;
      assert both[|log|] == more[0] && both[|log| + j] == more[j];
    }
  }

  lemma DrainStep(log: seq<Event>, stack: seq<Slot>, dummy: Watcher)
    requires stack != []
    ensures var top := stack[|stack| - 1];
      log + Drain(stack, dummy)
        == log + (if top.w == dummy then [] else [Invoked(top.w, top.events)]) + Drain(stack[..|stack| - 1], dummy)
  {
  }

  lemma DrainNone(log: seq<Event>, dummy: Watcher)
    ensures log + Drain([], dummy) == log && log + DrainAll([], 0, dummy) == log
    ensures forall stacks :: DrainAll(stacks, 0, dummy) == []
  {
  }

  lemma DrainAllStep(stacks: seq<seq<Slot>>, pri: nat, dummy: Watcher)
    requires 0 < pri <= |stacks|
    ensures DrainAll(stacks, pri, dummy) == Drain(stacks[pri - 1], dummy) + DrainAll(stacks, pri - 1, dummy)
  {
  }

  lemma OnlyLess(m: Owed, e: Event)
    requires !e.Fed?
    ensures Apply(m, e).Some? ==> forall w :: w in Apply(m, e).value ==> w in m
  {
  }

  lemma FedAllStep(m: Owed, ws: seq<Watcher>, events: bv32)
    requires ws != []
    ensures FedAll(m, ws, events) == FedAll(With(m, ws[|ws| - 1], events), ws[..|ws| - 1], events)
  {
  }

  lemma PushedAll(stacks: seq<seq<Slot>>, ws: seq<Watcher>, events: bv32)
    ensures ws[..|ws|] == ws
  {
  }

  lemma PushedStep(stacks: seq<seq<Slot>>, left: seq<Watcher>, events: bv32, ws: seq<Watcher>)
    requires left != [] && |left| <= |ws| && left == ws[..|left|] && Distinct(ws)
    ensures forall i :: 0 <= i < |left| - 1 ==> ws[i] != left[|left| - 1]
    ensures var w := left[|left| - 1]; forall p :: 0 <= p < |stacks| ==>
      stacks[p] + Pushed(left, p, events)
        == (if p == w.priority then stacks[p] + [Slot(w, events)] else stacks[p])
          + Pushed(left[..|left| - 1], p, events)
  {
    assert left[|left| - 1] == ws[|left| - 1];
  }

  lemma NoneLeft(m: Owed, stacks: seq<seq<Slot>>, events: bv32)
    ensures FedAll(m, [], events) == m
    ensures forall p :: 0 <= p < |stacks| ==> stacks[p] + Pushed([], p, events) == stacks[p]
  {
  }

  lemma FedStill(log: seq<Event>, e: Event)
    ensures forall w :: FedIn(log, w) ==> FedIn(log + [e], w)
  {
    forall w | FedIn(log, w)
      ensures FedIn(log + [e], w)
    {
      var j :| 0 <= j < |log| && log[j].Fed? && log[j].w == w;
      assert (log + [e])[j] == log[j];
    }
  }

  lemma FedMore(m: Owed, log: seq<Event>, w: Watcher, events: bv32)
    ensures forall x :: FedIn(log, x) ==> FedIn(log + [Fed(w, events)], x)
    ensures FedIn(log + [Fed(w, events)], w)
    ensures forall x :: x in With(m, w, events) ==> x in m || x == w
  {
    FedStill(log, Fed(w, events));
    assert (log + [Fed(w, events)])[|log|] == Fed(w, events);
  }

  lemma FedAfter(first: seq<Event>, rest: seq<Event>)
    ensures forall w :: FedIn(rest, w) ==> FedIn(first + rest, w)
  {
    forall w | FedIn(rest, w)
      ensures FedIn(first + rest, w)
    {
      var j :| 0 <= j < |rest| && rest[j].Fed? && rest[j].w == w;
      assert (first + rest)[|first| + j] == rest[j];
    }
  }

  lemma IsWith(a: Owed, b: Owed, w: Watcher, events: bv32)
    requires a - {w} == b - {w} && w in b && b[w] == Or(if w in a then a[w] else 0, events)
    ensures b == With(a, w, events)
  {
    forall x | x != w
      ensures x in a <==> x in b
      ensures x in a ==> a[x] == b[x]
    {
      assert x in a - {w} <==> x in b - {w};
      if x in a { assert (a - {w})[x] == (b - {w})[x]; }
    }
  }

  lemma NoKey(a: Owed, w: Watcher)
    requires w !in a
    ensures a - {w} == a
  {
  }
}
