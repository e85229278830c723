/** The queues of libevent's event base (`event.c`): inserted, active and timed events, the lists of common timeouts,
    and the counters. Every method runs with the base locked. Times are microseconds; the mark that the code keeps in
    unused bits of `tv_usec` is the index of a common-timeout list, or -1. */
module EventQueues {

  import opened Wrappers

  class Event {
    const internal: bool       // EVLIST_INTERNAL
    const pri: nat
    const watches: bool        // EV_READ, EV_WRITE or EV_SIGNAL
    const persist: bool
    var inserted: bool         // EVLIST_INSERTED
    var active: bool           // EVLIST_ACTIVE
    var timed: bool            // EVLIST_TIMEOUT
    var at: int                // ev_timeout
    var common: int            // its mark
    var expired: bool          // ev_res & EV_TIMEOUT

    constructor (internal: bool, pri: nat, watches: bool, persist: bool)
      ensures this.internal == internal && this.pri == pri && this.watches == watches && this.persist == persist
      ensures !inserted && !active && !timed && !expired && at == 0 && common == -1
    {
      this.internal, this.pri, this.watches, this.persist := internal, pri, watches, persist;
      inserted, active, timed, at, common, expired := false, false, false, 0, -1, false;
    }
  }

  /** A `struct timeval` with its mark. */
  datatype Time = Time(at: int, common: int)

  predicate NoDup(s: seq<Event>) {
    forall i, j :: 0 <= i < j < |s| ==> s[i] != s[j]
  }

  /** `TAILQ_REMOVE` */
  function Without(s: seq<Event>, e: Event): (r: seq<Event>) {
    if s == [] then [] else if s[0] == e then s[1..] else [s[0]] + Without(s[1..], e)
  }

  lemma {:induction false} WithoutIs(s: seq<Event>, e: Event)
    requires NoDup(s)
    ensures NoDup(Without(s, e)) && forall x :: x in Without(s, e) <==> x in s && x != e
    ensures s != [] && s[0] != e ==> Without(s, e) != [] && Without(s, e)[0] == s[0]
  {
    if s != [] {
      assert s == [s[0]] + s[1..];
      if s[0] != e {
        WithoutIs(s[1..], e);
        var r := Without(s[1..], e);
        assert Without(s, e) == [s[0]] + r;
        forall i, j | 0 <= i < j < |r| + 1
          ensures ([s[0]] + r)[i] != ([s[0]] + r)[j]
        {
          if i == 0 { assert r[j - 1] in r; }
        }
      }
    }
  }

  /** The first occurrence goes, the rest keeps its order. */
  lemma {:induction false} WithoutAt(s: seq<Event>, e: Event) returns (i: nat)
    ensures e !in s ==> Without(s, e) == s
    ensures e in s ==> i < |s| && s[i] == e && e !in s[..i] && Without(s, e) == s[..i] + s[i + 1..]
  {
    i := 0;
    if s != [] && s[0] != e {
      assert s == [s[0]] + s[1..];
      var j := WithoutAt(s[1..], e);
      i := j + 1;
      if e in s {
        assert s[1..][..j] == s[1..i] && s[1..][j + 1..] == s[i + 1..];
        assert s[..i] == [s[0]] + s[1..i];
      }
    }
  }

  /** On the active queues: `ev` leaves its own, or goes to its end. */
  function OffActive(q: seq<seq<Event>>, e: Event): seq<seq<Event>> {
    if e.pri < |q| then q[e.pri := Without(q[e.pri], e)] else q
  }

  function ToActive(q: seq<seq<Event>>, e: Event): seq<seq<Event>> {
    if e.pri < |q| then q[e.pri := q[e.pri] + [e]] else q
  }

  /** One event after the other leaves its queue and goes to the end of it. */
  function Expired(q: seq<seq<Event>>, order: seq<Event>): (r: seq<seq<Event>>)
    ensures |r| == |q|
  {
    if order == [] then q
    else
      var e := order[|order| - 1];
      ToActive(OffActive(Expired(q, order[..|order| - 1]), e), e)
  }

  function OfPri(order: seq<Event>, p: nat): seq<Event> {
    if order == [] then []
    else OfPri(order[..|order| - 1], p) + if order[|order| - 1].pri == p then [order[|order| - 1]] else []
  }

  function Rest(s: seq<Event>, gone: seq<Event>): seq<Event> {
    if gone == [] then s else Without(Rest(s, gone[..|gone| - 1]), gone[|gone| - 1])
  }

  lemma OneMoreExpired(q: seq<seq<Event>>, s: seq<Event>, order: seq<Event>, e: Event)
    ensures Expired(q, order + [e]) == ToActive(OffActive(Expired(q, order), e), e)
    ensures Rest(s, order + [e]) == Without(Rest(s, order), e)
  {
    assert (order + [e])[..|order|] == order;
  }

  /** In every queue those that stay come first, then the others in their order. */
  lemma {:induction false} ExpiredIs(q: seq<seq<Event>>, order: seq<Event>, p: nat)
    requires p < |q| && NoDup(order)
    ensures Expired(q, order)[p] == Rest(q[p], OfPri(order, p)) + OfPri(order, p)
  {
    if order != [] {
      var n := |order| - 1;
      var init, e := order[..n], order[n];
      ExpiredIs(q, init, p);
      OfPriIn(init, p);
      assert e !in init;
      var own := OfPri(init, p);
      if e.pri == p {
        RestMore(q[p], own, e);
      } else {
        assert own + [] == own;
      }
    }
  }

  lemma RestMore(s: seq<Event>, own: seq<Event>, e: Event)
    requires e !in own
    ensures Without(Rest(s, own) + own, e) + [e] == Rest(s, own + [e]) + (own + [e])
  {
    assert (own + [e])[..|own|] == own;
    WithoutJoin(Rest(s, own), own, e);
  }

  lemma {:induction false} OfPriIn(order: seq<Event>, p: nat)
    ensures forall e :: e in OfPri(order, p) <==> e in order && e.pri == p
  {
    if order != [] {
      OfPriIn(order[..|order| - 1], p);
      assert order == order[..|order| - 1] + [order[|order| - 1]];
    }
  }

  lemma {:induction false} WithoutJoin(a: seq<Event>, b: seq<Event>, e: Event)
    requires e !in b
    ensures Without(a + b, e) == Without(a, e) + b
  {
    if a == [] {
      assert a + b == b;
      var _ := WithoutAt(b, e);
    } else {
      assert (a + b)[1..] == a[1..] + b;
      if a[0] != e { WithoutJoin(a[1..], b, e); }
    }
  }

  lemma AddNoDup(s: seq<Event>, e: Event)
    requires NoDup(s) && e !in s
    ensures NoDup(s + [e]) && forall x :: x in s + [e] <==> x in s || x == e
  {
  }

  class Base {
    ghost const events: set<Event>
    const keepers: seq<Event>              // the timeout_event of each common_timeout_list
    var queue: seq<Event>                  // eventqueue
    var actives: seq<seq<Event>>           // activequeues, by priority
    var heap: set<Event>                   // timeheap
    var lists: seq<seq<Event>>             // the events of each common_timeout_list
    var count: int
    var countActive: int
    var starting: Event?                   // taken from the active queue, its callback has yet to get the lock

    // ---------- Flags and membership ----------

    ghost predicate InsertedOk() reads this`queue, events`inserted {
      && NoDup(queue)
      && (forall e :: e in queue ==> e in events && e.inserted)
      && (forall e :: e in events && e.inserted ==> e in queue)
    }

    ghost predicate ActivesOk() reads this`actives, events`active {
      && (forall p :: 0 <= p < |actives| ==> NoDup(actives[p]))
      && (forall p, e :: 0 <= p < |actives| && e in actives[p] ==> e in events && e.active && e.pri == p)
      && (forall e :: e in events ==> e.pri < |actives| && (e.active ==> e in actives[e.pri]))
    }

    ghost predicate HeapOk() reads this`heap, events`timed, events`common {
      && (forall e :: e in heap ==> e in events && e.timed && e.common < 0)
      && (forall e :: e in events && e.timed && e.common < 0 ==> e in heap)
    }

    ghost predicate ListsOk() reads this`lists, events`timed, events`common {
      && |lists| == |keepers|
      && (forall c :: 0 <= c < |lists| ==> NoDup(lists[c]))
      && (forall c, e :: 0 <= c < |lists| && e in lists[c] ==> e in events && e.timed && e.common == c)
      && (forall e :: e in events && e.timed && e.common >= 0 ==> e.common < |lists| && e in lists[e.common])
    }

    ghost predicate Sorted(s: seq<Event>) reads events`at {
      forall i, j :: 0 <= i < j < |s| ==> s[i] in events && s[j] in events && s[i].at <= s[j].at
    }

    ghost predicate ListsSorted() reads this`lists, events`at {
      forall c :: 0 <= c < |lists| ==> Sorted(lists[c])
    }

    ghost function Inserted(): set<Event> reads events`inserted { set e | e in events && e.inserted && !e.internal }
    ghost function Active(): set<Event> reads events`active { set e | e in events && e.active && !e.internal }
    ghost function Timed(): set<Event> reads events`timed { set e | e in events && e.timed && !e.internal }
    ghost function AllActive(): set<Event> reads events`active { set e | e in events && e.active }

    /** `event_count` is the number of pairs of a non-internal event and a queue that it is on. */
    ghost predicate Counted()
      reads this`count, this`countActive, events`inserted, events`active, events`timed
    {
      && count == |Inserted()| + |Active()| + |Timed()|
      && countActive == |AllActive()|
    }

    ghost predicate Queues()
      reads this`queue, this`actives, this`heap, this`lists, this`count, this`countActive
      reads events`inserted, events`active, events`timed, events`common, events`at
    {
      InsertedOk() && ActivesOk() && Timers() && Counted()
    }

    twostate lemma InsertedGrows(ev: Event)
      requires ev in events && !old(ev.inserted) && ev.inserted
               && forall e :: e in events && e != ev ==> e.inserted == old(e.inserted)
      ensures |Inserted()| == old(|Inserted()|) + if ev.internal then 0 else 1
    {
      assert Inserted() == old(Inserted()) + if ev.internal then {} else {ev};
    }

    twostate lemma InsertedShrinks(ev: Event)
      requires ev in events && old(ev.inserted) && !ev.inserted
               && forall e :: e in events && e != ev ==> e.inserted == old(e.inserted)
      ensures |Inserted()| == old(|Inserted()|) - if ev.internal then 0 else 1
    {
      assert Inserted() == old(Inserted()) - if ev.internal then {} else {ev};
    }

    twostate lemma ActiveGrows(ev: Event)
      requires ev in events && !old(ev.active) && ev.active
               && forall e :: e in events && e != ev ==> e.active == old(e.active)
      ensures |Active()| == old(|Active()|) + if ev.internal then 0 else 1
    {
      assert Active() == old(Active()) + if ev.internal then {} else {ev};
    }

    twostate lemma ActiveShrinks(ev: Event)
      requires ev in events && old(ev.active) && !ev.active
               && forall e :: e in events && e != ev ==> e.active == old(e.active)
      ensures |Active()| == old(|Active()|) - if ev.internal then 0 else 1
    {
      assert Active() == old(Active()) - if ev.internal then {} else {ev};
    }

    twostate lemma TimedGrows(ev: Event)
      requires ev in events && !old(ev.timed) && ev.timed
               && forall e :: e in events && e != ev ==> e.timed == old(e.timed)
      ensures |Timed()| == old(|Timed()|) + if ev.internal then 0 else 1
    {
      assert Timed() == old(Timed()) + if ev.internal then {} else {ev};
    }

    twostate lemma TimedShrinks(ev: Event)
      requires ev in events && old(ev.timed) && !ev.timed
               && forall e :: e in events && e != ev ==> e.timed == old(e.timed)
      ensures |Timed()| == old(|Timed()|) - if ev.internal then 0 else 1
    {
      assert Timed() == old(Timed()) - if ev.internal then {} else {ev};
    }

    twostate lemma AllActiveGrows(ev: Event)
      requires ev in events && !old(ev.active) && ev.active
               && forall e :: e in events && e != ev ==> e.active == old(e.active)
      ensures |AllActive()| == old(|AllActive()|) + 1
    {
      assert AllActive() == old(AllActive()) + {ev};
    }

    twostate lemma AllActiveShrinks(ev: Event)
      requires ev in events && old(ev.active) && !ev.active
               && forall e :: e in events && e != ev ==> e.active == old(e.active)
      ensures |AllActive()| == old(|AllActive()|) - 1
    {
      assert AllActive() == old(AllActive()) - {ev};
    }

    /** A new base: nothing is queued, and each common timeout has its own internal event and an empty list. */
    constructor (ghost events: set<Event>, keepers: seq<Event>, npri: nat)
      requires forall e :: e in events ==> !e.inserted && !e.active && !e.timed && e.pri < npri
      requires NoDup(keepers)
      requires forall c :: 0 <= c < |keepers| ==>
        keepers[c] in events && keepers[c].internal && !keepers[c].watches && !keepers[c].persist
        && keepers[c].common == -1
      ensures Valid() && this.events == events && this.keepers == keepers
      ensures |actives| == npri && |lists| == |keepers| && heap == {} && queue == [] && count == 0
    {
      this.events, this.keepers := events, keepers;
      queue, heap, count, countActive, starting := [], {}, 0, 0, null;
      actives := seq(npri, p => []);
      lists := seq(|keepers|, c => []);
      new;
      assert Inserted() == {} && Active() == {} && Timed() == {} && AllActive() == {};
    }

    /** `event_queue_insert` for EVLIST_INSERTED */
    method InsertInserted(ev: Event)
      requires Queues() && ev in events && !ev.inserted
      modifies this`queue, this`count, ev`inserted
      ensures Queues() && ev.inserted && queue == old(queue) + [ev]
    {
      hide InsertedOk, ActivesOk, HeapOk, ListsOk, ListsSorted, Inserted, Active, Timed, AllActive;
      if !ev.internal { count := count + 1; }
      ev.inserted := true;
      queue := queue + [ev];
      InsertedMore(ev);
      InsertedGrows(ev);
    }

    twostate lemma InsertedMore(ev: Event)
      requires old(InsertedOk()) && ev in events && !old(ev.inserted) && ev.inserted && queue == old(queue) + [ev]
      requires forall e :: e in events && e != ev ==> e.inserted == old(e.inserted)
      ensures InsertedOk()
    {
      AddNoDup(old(queue), ev);
    }

    /** `event_queue_remove` for EVLIST_INSERTED */
    method RemoveInserted(ev: Event)
      requires Queues() && ev in events && ev.inserted
      modifies this`queue, this`count, ev`inserted
      ensures Queues() && !ev.inserted && queue == Without(old(queue), ev)
    {
      hide InsertedOk, ActivesOk, HeapOk, ListsOk, ListsSorted, Inserted, Active, Timed, AllActive;
      if !ev.internal { count := count - 1; }
      ev.inserted := false;
      queue := Without(queue, ev);
      InsertedLess(ev);
      InsertedShrinks(ev);
    }

    twostate lemma InsertedLess(ev: Event)
      requires old(InsertedOk()) && ev in events && !ev.inserted && queue == Without(old(queue), ev)
      requires forall e :: e in events && e != ev ==> e.inserted == old(e.inserted)
      ensures InsertedOk()
    {
      WithoutIs(old(queue), ev);
    }

    lemma ActivesFor(ev: Event)
      requires ActivesOk() && ev in events
      ensures ev.pri < |actives|
    {
    }

    /** `event_queue_insert` for EVLIST_ACTIVE */
    method InsertActive(ev: Event)
      requires Queues() && ev in events
      modifies this`actives, this`count, this`countActive, ev`active
      ensures Queues() && ev.active && ev.pri < |old(actives)|
      ensures actives == if old(ev.active) then old(actives) else old(actives)[ev.pri := old(actives)[ev.pri] + [ev]]
    {
      hide InsertedOk, ActivesOk, HeapOk, ListsOk, ListsSorted, Inserted, Active, Timed, AllActive;
      ActivesFor(ev);
      if ev.active { return; }
      if !ev.internal { count := count + 1; }
      ev.active := true;
      countActive := countActive + 1;
      actives := actives[ev.pri := actives[ev.pri] + [ev]];
      ActivesMore(ev);
      ActiveGrows(ev);
      AllActiveGrows(ev);
    }

    twostate lemma ActivesMore(ev: Event)
      requires old(ActivesOk()) && ev in events && !old(ev.active) && ev.active && ev.pri < |old(actives)|
      requires actives == old(actives)[ev.pri := old(actives)[ev.pri] + [ev]]
      requires forall e :: e in events && e != ev ==> e.active == old(e.active)
      ensures ActivesOk()
    {
      AddNoDup(old(actives)[ev.pri], ev);
    }

    /** `event_queue_remove` for EVLIST_ACTIVE */
    method RemoveActive(ev: Event)
      requires Queues() && ev in events && ev.active
      modifies this`actives, this`count, this`countActive, ev`active
      ensures Queues() && !ev.active && ev.pri < |old(actives)|
      ensures actives == old(actives)[ev.pri := Without(old(actives)[ev.pri], ev)]
    {
      hide InsertedOk, ActivesOk, HeapOk, ListsOk, ListsSorted, Inserted, Active, Timed, AllActive;
      ActivesFor(ev);
      if !ev.internal { count := count - 1; }
      ev.active := false;
      countActive := countActive - 1;
      actives := actives[ev.pri := Without(actives[ev.pri], ev)];
      ActivesLess(ev);
      ActiveShrinks(ev);
      AllActiveShrinks(ev);
    }

    twostate lemma ActivesLess(ev: Event)
      requires old(ActivesOk()) && ev in events && !ev.active && ev.pri < |old(actives)|
      requires actives == old(actives)[ev.pri := Without(old(actives)[ev.pri], ev)]
      requires forall e :: e in events && e != ev ==> e.active == old(e.active)
      ensures ActivesOk()
    {
      WithoutIs(old(actives)[ev.pri], ev);
    }

    /** `insert_common_timeout_inorder`: after the last event that is not later. */
    method InsertInOrder(list: seq<Event>, ev: Event) returns (r: seq<Event>)
      requires ev in events && forall x :: x in list ==> x in events
      ensures exists k :: InsertedAt(list, ev, k, r)
    {
      var k := |list|;
      while k > 0
        invariant 0 <= k <= |list| && forall i :: k <= i < |list| ==> ev.at < list[i].at
      {
        if ev.at >= list[k - 1].at {
          r := list[..k] + [ev] + list[k..];
          assert InsertedAt(list, ev, k, r);
          return;
        }
        k := k - 1;
      }
      r := [ev] + list;
      assert list[..0] + [ev] + list[0..] == r;
      assert InsertedAt(list, ev, 0, r);
    }

    /** `ev` stands between those that are not later and those that are. */
    ghost predicate InsertedAt(list: seq<Event>, ev: Event, k: nat, r: seq<Event>) reads events`at, ev`at {
      && (forall x :: x in list ==> x in events)
      && k <= |list| && r == list[..k] + [ev] + list[k..]
      && (k > 0 ==> list[k - 1].at <= ev.at)
      && (forall i :: k <= i < |list| ==> ev.at < list[i].at)
    }

    lemma InsertedFacts(list: seq<Event>, ev: Event, k: nat, r: seq<Event>)
      requires Sorted(list) && ev in events && InsertedAt(list, ev, k, r) && forall x :: x in list ==> x in events
      ensures Sorted(r) && forall x :: x in r <==> x in list || x == ev
      ensures r != [] && (if k == 0 then r[0] == ev else list != [] && r[0] == list[0] && list[0].at <= ev.at)
      ensures NoDup(list) && ev !in list ==> NoDup(r)
    {
      hide Sorted, NoDup;
      InsertedShape(list, ev, k, r);
      InsertedSorted(list, ev, k, r);
      InsertedNoDup(list, ev, k, r);
      InsertedMembers(list, ev, k, r);
    }

    lemma InsertedMembers(list: seq<Event>, ev: Event, k: nat, r: seq<Event>)
      requires k <= |list| && r == list[..k] + [ev] + list[k..]
      ensures forall x :: x in r <==> x in list || x == ev
    {
      assert list == list[..k] + list[k..];
      forall x
        ensures x in r <==> x in list[..k] || x == ev || x in list[k..]
      {
      }
      forall x
        ensures x in list <==> x in list[..k] || x in list[k..]
      {
      }
    }

    lemma InsertedNoDup(list: seq<Event>, ev: Event, k: nat, r: seq<Event>)
      requires k <= |list| && r == list[..k] + [ev] + list[k..]
      ensures NoDup(list) && ev !in list ==> NoDup(r)
    {
      if NoDup(list) && ev !in list {
        assert forall i :: 0 <= i < k ==> r[i] == list[i];
        assert forall i :: k < i < |r| ==> r[i] == list[i - 1];
        forall i, j | 0 <= i < j < |r|
          ensures r[i] != r[j]
        {
          if i == k { assert list[j - 1] in list; }
          if j == k { assert list[i] in list; }
        }
      }
    }

    lemma InsertedShape(list: seq<Event>, ev: Event, k: nat, r: seq<Event>)
      requires k <= |list| && r == list[..k] + [ev] + list[k..]
      ensures |r| == |list| + 1
              && forall i :: 0 <= i < |r| ==> r[i] == if i < k then list[i] else if i == k then ev else list[i - 1]
    {
    }

    lemma InsertedSorted(list: seq<Event>, ev: Event, k: nat, r: seq<Event>)
      requires Sorted(list) && ev in events && InsertedAt(list, ev, k, r) && forall x :: x in list ==> x in events
      requires |r| == |list| + 1
               && forall i :: 0 <= i < |r| ==> r[i] == if i < k then list[i] else if i == k then ev else list[i - 1]
      ensures Sorted(r)
    {
      forall i, j | 0 <= i < j < |r|
        ensures r[i] in events && r[j] in events && r[i].at <= r[j].at
      {
        if i < k <= j && k > 0 {
          assert list[i] in list && list[k - 1] in list;
          assert list[i].at <= list[k - 1].at <= ev.at;
          if j > k { assert list[j - 1] in list; }
        } else if i == k {
          assert list[j - 1] in list;
        } else if i > k {
          assert list[i - 1] in list && list[j - 1] in list;
        } else {
          assert list[i] in list && list[j] in list;
        }
      }
    }

    lemma ListFor(c: nat)
      requires ListsOk() && ListsSorted() && c < |lists|
      ensures NoDup(lists[c]) && Sorted(lists[c])
              && forall e :: e in lists[c] ==> e in events && e.timed && e.common == c
    {
    }

    /** The list of common timeout `c` with `ev` in its place. */
    method InList(c: nat, ev: Event) returns (r: seq<Event>)
      requires ListsOk() && ListsSorted() && c < |lists| && ev in events && !ev.timed
      ensures NoDup(r) && Sorted(r) && forall x :: x in r <==> x in lists[c] || x == ev
      ensures exists k :: InsertedAt(lists[c], ev, k, r)
      ensures r != [] && (r[0] == ev || (lists[c] != [] && r[0] == lists[c][0] && r[0].at <= ev.at))
    {
      hide ListsOk, ListsSorted, InsertedAt, NoDup, Sorted;
      ListFor(c);
      r := InsertInOrder(lists[c], ev);
      ghost var k: nat :| InsertedAt(lists[c], ev, k, r);
      InsertedFacts(lists[c], ev, k, r);
    }

    ghost predicate Timers()
      reads this`heap, this`lists, events`timed, events`common, events`at
    {
      HeapOk() && ListsOk() && ListsSorted()
    }

    /** `event_queue_insert` for EVLIST_TIMEOUT */
    method InsertTimeout(ev: Event)
      requires Queues() && ev in events && !ev.timed && ev.common < |lists|
      modifies this`heap, this`lists, this`count, ev`timed
      ensures Queues() && ev.timed && |lists| == |old(lists)|
      ensures ev.common < 0 ==> lists == old(lists) && heap == old(heap) + {ev}
      ensures ev.common >= 0 ==> heap == old(heap)
      ensures forall c :: 0 <= c < |lists| && c != ev.common ==> lists[c] == old(lists)[c]
      ensures ev.common >= 0 ==> Entered(old(lists)[ev.common], lists[ev.common], ev)
    {
      hide InsertedOk, ActivesOk, Inserted, Active, Timed, AllActive, HeapOk, ListsOk, ListsSorted, Entered;
      if !ev.internal { count := count + 1; }
      Place(ev);
      TimedGrows(ev);
    }

    method Place(ev: Event)
      requires Timers() && ev in events && !ev.timed && ev.common < |lists|
      modifies this`heap, this`lists, ev`timed
      ensures Timers() && ev.timed && |lists| == |old(lists)|
      ensures ev.common < 0 ==> lists == old(lists) && heap == old(heap) + {ev}
      ensures ev.common >= 0 ==> heap == old(heap)
      ensures forall c :: 0 <= c < |lists| && c != ev.common ==> lists[c] == old(lists)[c]
      ensures ev.common >= 0 ==> Entered(old(lists)[ev.common], lists[ev.common], ev)
    {
      hide HeapOk, ListsOk, ListsSorted, Sorted, NoDup;
      if ev.common >= 0 {
        var list := InList(ev.common, ev);
        ev.timed := true;
        lists := lists[ev.common := list];
        HeapSame();
        ListsMore(ev);
        SortedMore(ev.common);
      } else {
        ev.timed := true;
        heap := heap + {ev};
        HeapMore(ev);
        ListsSame();
      }
    }

    /** The list has `ev` too, in its place. */
    ghost predicate Entered(was: seq<Event>, now: seq<Event>, ev: Event) reads events`at, ev`at {
      && (exists k :: InsertedAt(was, ev, k, now))
      && now != [] && (now[0] == ev || (was != [] && now[0] == was[0]))
      && (forall x :: x in now ==> x in was || x == ev)
      && (forall x :: x in was ==> x in now) && ev in now
    }

    twostate lemma HeapMore(ev: Event)
      requires old(HeapOk()) && ev in events && !old(ev.timed) && ev.timed && ev.common < 0 && heap == old(heap) + {ev}
      requires forall e :: e in events && e != ev ==> e.timed == old(e.timed)
      requires forall e :: e in events ==> e.common == old(e.common)
      ensures HeapOk()
    {
    }

    twostate lemma HeapSame()
      requires old(HeapOk()) && heap == old(heap)
      requires forall e :: e in events && e.common < 0 ==> e.timed == old(e.timed)
      requires forall e :: e in events ==> e.common == old(e.common)
      ensures HeapOk()
    {
    }

    twostate lemma ListsSame()
      requires old(ListsOk()) && lists == old(lists)
      requires forall e :: e in events && e.common >= 0 ==> e.timed == old(e.timed)
      requires forall e :: e in events ==> e.common == old(e.common)
      ensures ListsOk()
    {
    }

    twostate lemma ListsMore(ev: Event)
      requires old(ListsOk()) && ev in events && !old(ev.timed) && ev.timed && 0 <= ev.common < |lists| == |old(lists)|
      requires forall c :: 0 <= c < |lists| && c != ev.common ==> lists[c] == old(lists)[c]
      requires NoDup(lists[ev.common]) && forall x :: x in lists[ev.common] <==> x in old(lists)[ev.common] || x == ev
      requires forall e :: e in events && e != ev ==> e.timed == old(e.timed)
      requires forall e :: e in events ==> e.common == old(e.common)
      ensures ListsOk()
    {
      forall c, e | 0 <= c < |lists| && e in lists[c]
        ensures e in events && e.timed && e.common == c
      {
        if e != ev { assert e in old(lists)[c]; }
      }
    }

    twostate lemma SortedMore(new c: nat)
      requires old(ListsSorted()) && |lists| == |old(lists)| && c < |lists| && Sorted(lists[c])
      requires forall d :: 0 <= d < |lists| && d != c ==> lists[d] == old(lists)[d]
      requires forall e :: e in events ==> e.at == old(e.at)
      ensures ListsSorted()
    {
      forall d | 0 <= d < |lists|
        ensures Sorted(lists[d])
      {
        if d != c { assert old(Sorted(lists[d])); }
      }
    }

    /** `event_queue_remove` for EVLIST_TIMEOUT */
    method RemoveTimeout(ev: Event)
      requires Queues() && ev in events && ev.timed
      modifies this`heap, this`lists, this`count, ev`timed
      ensures Queues() && !ev.timed && |lists| == |old(lists)|
      ensures heap == old(heap) - {ev}
      ensures forall c :: 0 <= c < |lists| ==> Left(old(lists)[c], lists[c], ev)
    {
      hide InsertedOk, ActivesOk, Inserted, Active, Timed, AllActive, HeapOk, ListsOk, ListsSorted, Left;
      if !ev.internal { count := count - 1; }
      Displace(ev);
      TimedShrinks(ev);
    }

    /** The list without `ev`. */
    predicate Left(was: seq<Event>, now: seq<Event>, ev: Event) {
      && now == Without(was, ev)
      && (forall x :: x in now ==> x in was && x != ev)
      && (forall x :: x in was && x != ev ==> x in now)
    }

    lemma LeftOf(was: seq<Event>, ev: Event)
      requires NoDup(was) || ev !in was
      ensures Left(was, Without(was, ev), ev)
      ensures ev !in was ==> Without(was, ev) == was
    {
      var i := WithoutAt(was, ev);
      if ev in was { WithoutIs(was, ev); }
    }

    lemma AllLeft(ev: Event)
      requires forall c :: 0 <= c < |lists| ==> ev !in lists[c]
      ensures forall c :: 0 <= c < |lists| ==> Left(lists[c], lists[c], ev)
    {
      forall c | 0 <= c < |lists|
        ensures Left(lists[c], lists[c], ev)
      {
        LeftOf(lists[c], ev);
      }
    }

    method Displace(ev: Event)
      requires Timers() && ev in events && ev.timed
      modifies this`heap, this`lists, ev`timed
      ensures Timers() && !ev.timed && |lists| == |old(lists)|
      ensures heap == old(heap) - {ev}
      ensures forall c :: 0 <= c < |lists| ==> Left(old(lists)[c], lists[c], ev)
    {
      hide HeapOk, ListsOk, ListsSorted, Sorted, NoDup, Left;
      TimedAt(ev);
      forall c | 0 <= c < |lists|
        ensures Left(lists[c], if c == ev.common then Without(lists[c], ev) else lists[c], ev)
      {
        LeftOf(lists[c], ev);
      }
      ev.timed := false;
      if ev.common >= 0 {
        var list := Without(lists[ev.common], ev);
        WithoutIs(lists[ev.common], ev);
        WithoutSorted(lists[ev.common], ev);
        lists := lists[ev.common := list];
        HeapSame();
        ListsLess(ev);
        SortedMore(ev.common);
      } else {
        heap := heap - {ev};
        HeapLess(ev);
        ListsSame();
      }
    }

    lemma TimedAt(ev: Event)
      requires Timers() && ev in events && ev.timed
      ensures ev.common < |lists| && (ev in heap <==> ev.common < 0) && (ev.common >= 0 ==> ev in lists[ev.common])
      ensures ev.common >= 0 ==> NoDup(lists[ev.common]) && Sorted(lists[ev.common])
      ensures forall c :: 0 <= c < |lists| && c != ev.common ==> ev !in lists[c]
    {
    }

    lemma {:induction false} WithoutSorted(s: seq<Event>, e: Event)
      requires Sorted(s)
      ensures Sorted(Without(s, e))
    {
      if e in s {
        var k := WithoutAt(s, e);
        var r := Without(s, e);
        forall i, j | 0 <= i < j < |r|
          ensures r[i] in events && r[j] in events && r[i].at <= r[j].at
        {
          assert r[i] == s[if i < k then i else i + 1] && r[j] == s[if j < k then j else j + 1];
        }
      } else {
        var _ := WithoutAt(s, e);
      }
    }

    twostate lemma HeapLess(ev: Event)
      requires old(HeapOk()) && ev in events && !ev.timed && heap == old(heap) - {ev}
      requires forall e :: e in events && e != ev ==> e.timed == old(e.timed)
      requires forall e :: e in events ==> e.common == old(e.common)
      ensures HeapOk()
    {
    }

    twostate lemma ListsLess(ev: Event)
      requires old(ListsOk()) && ev in events && !ev.timed && 0 <= ev.common < |lists| == |old(lists)|
      requires forall c :: 0 <= c < |lists| && c != ev.common ==> lists[c] == old(lists)[c]
      requires NoDup(lists[ev.common]) && forall x :: x in lists[ev.common] <==> x in old(lists)[ev.common] && x != ev
      requires forall e :: e in events && e != ev ==> e.timed == old(e.timed)
      requires forall e :: e in events ==> e.common == old(e.common)
      ensures ListsOk()
    {
    }

    // ---------- Common timeouts ----------

    ghost predicate KeepersOk() reads keepers {
      && NoDup(keepers)
      && forall c :: 0 <= c < |keepers| ==>
        keepers[c] in events && keepers[c].internal && !keepers[c].watches && !keepers[c].persist
        && keepers[c].common == -1
    }

    /** The keeper of a list is timed no later than any event on it, or active, or about to run. */
    ghost predicate Covered(c: nat) reads this`lists, this`starting, events`timed, events`active, events`at {
      && c < |keepers| && c < |lists| && keepers[c] in events
      && ((keepers[c].timed && forall e :: e in lists[c] ==> e in events && keepers[c].at <= e.at)
          || keepers[c].active || starting == keepers[c])
    }

    ghost predicate ListsCovered() reads this`lists, this`starting, events`timed, events`active, events`at {
      forall c :: 0 <= c < |lists| && lists[c] != [] ==> Covered(c)
    }

    ghost predicate Valid()
      reads this, keepers, events
    {
      Queues() && KeepersOk() && ListsCovered()
    }

    /** The timeout part of `event_add_internal`. */
    method SetTimeout(ev: Event, at: int, common: int)
      requires Queues() && ev in events && -1 <= common < |lists|
      modifies this`actives, this`heap, this`lists, this`count, this`countActive
      modifies ev`active, ev`timed, ev`at, ev`common
      ensures Queues() && ev.timed && ev.at == at && ev.common == common && |lists| == |old(lists)|
      ensures ev.active == (old(ev.active) && !ev.expired)
      ensures actives == if old(ev.active && ev.expired) then OffActive(old(actives), ev) else old(actives)
      ensures heap == if common < 0 then old(heap) + {ev} else old(heap) - {ev}
      ensures forall c :: 0 <= c < |lists| && c != common ==> Left(old(lists)[c], lists[c], ev)
      ensures common >= 0 ==> Joined(old(lists)[common], lists[common], ev)
    {
      hide InsertedOk, ActivesOk, Counted, Timers, Left, Entered, Joined;
      if ev.timed {
        RemoveTimeout(ev);
      } else {
        NotListed(ev);
      }
      if ev.active && ev.expired {
        RemoveActive(ev);
      }
      ghost var mid := lists;
      label Off:
      ev.at, ev.common := at, common;
      Untimed@Off(ev);
      InsertTimeout(ev);
      if common >= 0 { LeftJoined(old(lists)[common], mid[common], lists[common], ev); }
    }

    lemma NotListed(ev: Event)
      requires Queues() && ev in events && !ev.timed
      ensures ev !in heap && forall c :: 0 <= c < |lists| ==> Left(lists[c], lists[c], ev)
    {
      hide Left;
      AllLeft(ev);
    }

    twostate lemma Untimed(ev: Event)
      requires old(Timers()) && ev in events && !old(ev.timed) && !ev.timed && heap == old(heap) && lists == old(lists)
      requires forall e :: e in events && e != ev ==>
                   e.timed == old(e.timed) && e.at == old(e.at) && e.common == old(e.common)
      ensures Timers()
    {
      forall c | 0 <= c < |lists|
        ensures Sorted(lists[c])
      {
        assert old(Sorted(lists[c]));
        assert ev !in lists[c];
      }
    }

    /** `ev` joined the list, wherever it was before: it is behind all that are not later, and before the others. */
    ghost predicate Joined(was: seq<Event>, now: seq<Event>, ev: Event) reads events`at, ev`at {
      && (exists k :: InsertedAt(Without(was, ev), ev, k, now))
      && now != [] && (now[0] == ev || now[0] in was) && ev in now
      && (forall x :: x in now ==> x in was || x == ev)
      && (forall x :: x in was ==> x in now)
    }

    lemma LeftJoined(was: seq<Event>, mid: seq<Event>, now: seq<Event>, ev: Event)
      requires Left(was, mid, ev) && Entered(mid, now, ev)
      ensures Joined(was, now, ev)
    {
      hide InsertedAt;
    }

    /** `common_timeout_schedule` */
    method Schedule(c: nat, keeper: Event, at: int)
      requires Queues() && KeepersOk() && c < |keepers| && keeper == keepers[c]
      modifies this`actives, this`heap, this`lists, this`count, this`countActive
      modifies keeper`active, keeper`timed, keeper`at, keeper`common
      ensures Queues() && KeepersOk() && |lists| == |old(lists)|
      ensures keeper.timed && keeper.at == at && keeper.active == (old(keeper.active) && !keeper.expired)
      ensures actives == if old(keeper.active && keeper.expired) then OffActive(old(actives), keeper) else old(actives)
      ensures heap == old(heap) + {keeper}
      ensures forall d :: 0 <= d < |lists| ==> Left(old(lists)[d], lists[d], keeper)
    {
      hide InsertedOk, ActivesOk, Counted, Timers, Left, Joined, KeepersOk;
      KeeperOf(c);
      SetTimeout(keeper, at, -1);
      StillKeepers(c);
    }

    lemma KeeperOf(c: nat)
      requires KeepersOk() && c < |keepers|
      ensures keepers[c] in events
    {
    }

    twostate lemma StillKeepers(new c: nat)
      requires old(KeepersOk()) && c < |keepers| && keepers[c].common == -1
      requires forall e :: e in events && e != keepers[c] ==> e.common == old(e.common)
      ensures KeepersOk()
    {
    }

    ghost predicate CoveredBut(but: int) reads this`lists, this`starting, events`timed, events`active, events`at {
      forall c :: 0 <= c < |lists| && c != but && lists[c] != [] ==> Covered(c)
    }

    /** The other lists only lose an event, and their keepers do not change. */
    twostate lemma OthersCovered(ev: Event, new but: int)
      requires old(ListsCovered()) && |lists| == |old(lists)| == |keepers| && ev in events && starting == old(starting)
      requires forall c :: 0 <= c < |lists| && c != but ==> Left(old(lists)[c], lists[c], ev) && keepers[c] != ev
      requires forall e :: e in events && e != ev ==>
                   e.at == old(e.at) && e.timed == old(e.timed) && e.active == old(e.active)
      ensures CoveredBut(but)
    {
      forall c | 0 <= c < |lists| && c != but && lists[c] != []
        ensures Covered(c)
      {
        assert lists[c][0] in old(lists)[c];
        assert old(Covered(c));
      }
    }

    /** Behind an earlier head nothing changes for the keeper. */
    twostate lemma JoinedCovered(ev: Event)
      requires old(ListsCovered()) && |lists| == |old(lists)| == |keepers| && ev in events && starting == old(starting)
      requires 0 <= ev.common < |lists| && Joined(old(lists)[ev.common], lists[ev.common], ev)
      requires lists[ev.common][0] != ev && Sorted(lists[ev.common]) && keepers[ev.common] != ev
      requires forall e :: e in events && e != ev ==>
                   e.at == old(e.at) && e.timed == old(e.timed) && e.active == old(e.active)
      ensures Covered(ev.common)
    {
      var c := ev.common;
      var now := lists[c];
      assert now[0] in old(lists)[c];
      assert old(Covered(c));
      var i :| 0 <= i < |now| && now[i] == ev;
      assert now[0].at <= now[i].at;
    }

    /** The keeper takes the time of the new head. */
    twostate lemma HeadCovered(new c: nat)
      requires old(CoveredBut(c)) && |lists| == |old(lists)| == |keepers| && c < |lists| && starting == old(starting)
      requires KeepersOk() && keepers[c].timed && old(lists)[c] != [] && keepers[c].at == old(lists)[c][0].at
      requires Sorted(old(lists)[c]) && forall e :: e in old(lists)[c] ==> e in events && e != keepers[c]
      requires forall d :: 0 <= d < |lists| ==> Left(old(lists)[d], lists[d], keepers[c])
      requires forall e :: e in events && e != keepers[c] ==>
                   e.at == old(e.at) && e.timed == old(e.timed) && e.active == old(e.active)
      ensures ListsCovered()
    {
      forall d | 0 <= d < |lists| && lists[d] != []
        ensures Covered(d)
      {
        assert lists[d][0] in old(lists)[d];
        if d != c {
          assert old(Covered(d));
        } else {
          forall e | e in lists[c]
            ensures e in events && keepers[c].at <= e.at
          {
            var i :| 0 <= i < |old(lists)[c]| && old(lists)[c][i] == e;
            assert i > 0 ==> old(lists)[c][0].at <= old(lists)[c][i].at;
          }
        }
      }
    }

    /** An event of the program, or an internal one other than a keeper. */
    ghost predicate Ordinary(ev: Event) {
      ev in events && ev !in keepers
    }

    /** `event_add_internal` for an ordinary event.  With `refused`, the backend does not take it. */
    method Add(ev: Event, tv: Option<Time>, absolute: bool, now: int, refused: bool) returns (res: int)
      requires Valid() && Ordinary(ev) && (tv.Some? ==> -1 <= tv.value.common < |lists|)
      modifies this`queue, this`actives, this`heap, this`lists, this`count, this`countActive, events
      ensures Valid() && |lists| == |old(lists)|
      ensures res == if ev.watches && !old(ev.inserted) && !old(ev.active) && refused then -1 else 0
      ensures res == -1 ==> Unchanged({})
      ensures res == 0 ==> Unchanged({ev})
      ensures res == 0 ==> ev.inserted == (old(ev.inserted) || (ev.watches && !old(ev.active)))
      ensures res == 0 && tv.None? ==> ev.timed == old(ev.timed) && ev.at == old(ev.at) && ev.active == old(ev.active)
      ensures res == 0 && tv.Some? ==>
        && ev.timed && ev.common == tv.value.common && ev.at == (if absolute then tv.value.at else now + tv.value.at)
        && ev.active == (old(ev.active) && !old(ev.expired))
      ensures queue == old(queue) + if ev.inserted && !old(ev.inserted) then [ev] else []
      ensures if res == 0 && tv.Some? then TimedAs(ev, tv.value.common)
              else actives == old(actives) && heap == old(heap) && lists == old(lists) && OthersKept(-1)
    {
      hide Queues, KeepersOk, ListsCovered, Joined;
      KeepersHere();
      res := 0;
      if ev.watches && !(ev.inserted || ev.active) {
        if refused {
          return -1;
        }
        InsertOrdinary(ev);
      }
      if tv.Some? {
        AddTimeout(ev, if absolute then tv.value.at else now + tv.value.at, tv.value.common);
      }
    }

    /** No ordinary event outside `but` changed. */
    twostate predicate Unchanged(but: set<Event>) reads events, keepers {
      forall e :: e in events && e !in keepers && e !in but ==>
        e.inserted == old(e.inserted) && e.active == old(e.active) && e.timed == old(e.timed)
        && e.at == old(e.at) && e.common == old(e.common) && e.expired == old(e.expired)
    }

    lemma KeepersHere()
      requires KeepersOk()
      ensures forall c :: 0 <= c < |keepers| ==> keepers[c] in events
    {
    }

    method InsertOrdinary(ev: Event)
      requires Valid() && Ordinary(ev) && !ev.inserted
      modifies this`queue, this`count, ev`inserted
      ensures Valid() && ev.inserted && queue == old(queue) + [ev]
    {
      hide InsertedOk, ActivesOk, Counted, Timers, KeepersOk, Covered;
      InsertInserted(ev);
      CoveredSame();
    }

    /** `ListsCovered` depends on nothing else. */
    twostate lemma CoveredSame()
      requires old(ListsCovered()) && lists == old(lists) && starting == old(starting)
      requires forall e :: e in events ==> e.at == old(e.at) && e.timed == old(e.timed) && (old(e.active) ==> e.active)
      ensures ListsCovered()
    {
      forall c | 0 <= c < |lists| && lists[c] != []
        ensures Covered(c)
      {
        assert old(Covered(c));
      }
    }

    /** The rest of `event_add_internal`: the timeout, and the keeper's if the event is now the first of its list. */
    method AddTimeout(ev: Event, at: int, common: int)
      requires Valid() && Ordinary(ev) && -1 <= common < |lists|
      modifies this`actives, this`heap, this`lists, this`count, this`countActive, events`active, events`timed
      modifies events`at, events`common
      ensures Valid() && |lists| == |old(lists)| && Unchanged({ev})
      ensures ev.timed && ev.at == at && ev.common == common && ev.active == (old(ev.active) && !ev.expired)
      ensures TimedAs(ev, common)
    {
      hide InsertedOk, ActivesOk, Counted, Timers, KeepersOk, Covered, Left, Joined;
      ListsAreKept();
      SetTimeout(ev, at, common);
      KeepersStill(ev);
      OthersCovered(ev, common);
      NotKept(ev);
      LeftIs(ev, common);
      if common >= 0 {
        ListOf(common);
        JoinedSome(old(lists)[common], lists[common], ev);
        if ev == lists[common][0] {
          label Placed:
          ScheduleFirst(common, keepers[common], ev);
          JoinedStill@Placed((old(lists)[common], lists[common], ev));
        } else {
          JoinedCovered(ev);
        }
      }
    }

    /** The keeper's part of it. */
    method ScheduleFirst(c: nat, keeper: Event, ev: Event)
      requires Queues() && KeepersOk() && CoveredBut(c) && c < |lists| == |keepers| && keeper == keepers[c]
      requires lists[c] != [] && lists[c][0] == ev
      modifies this`actives, this`heap, this`lists, this`count, this`countActive
      modifies keeper`active, keeper`timed, keeper`at, keeper`common
      ensures Queues() && KeepersOk() && ListsCovered() && lists == old(lists)
      ensures ev !in keepers && Scheduled(c, old(ev.at)) && heap == old(heap) + {keeper}
      ensures actives == if old(Late(c)) then OffActive(old(actives), keeper) else old(actives)
    {
      hide InsertedOk, ActivesOk, Counted, Timers, KeepersOk, Covered, Left;
      ListsAreKept();
      ListOf(c);
      NoneKept();
      Schedule(c, keeper, ev.at);
      HeadCovered(c);
      KeeperUnlisted(keeper);
    }

    lemma NoneKept()
      requires Queues() && KeepersOk()
      ensures forall c, e :: 0 <= c < |lists| && e in lists[c] ==> e !in keepers
    {
      assert ListsOk();
    }

    lemma NotKept(ev: Event)
      requires Queues() && KeepersOk() && ev !in keepers
      ensures forall c :: 0 <= c < |keepers| ==> keepers[c] in events && keepers[c] != ev
      ensures forall c, d :: 0 <= c < d < |keepers| ==> keepers[c] != keepers[d]
    {
    }

    twostate lemma LeftIs(ev: Event, new common: int)
      requires |lists| == |old(lists)|
      requires forall c :: 0 <= c < |lists| && c != common ==> Left(old(lists)[c], lists[c], ev)
      ensures forall c :: 0 <= c < |lists| && c != common ==> lists[c] == Without(old(lists)[c], ev)
    {
    }

    twostate lemma KeeperUnlisted(keeper: Event)
      requires |lists| == |old(lists)| && forall d :: 0 <= d < |lists| ==> Left(old(lists)[d], lists[d], keeper)
      requires forall c :: 0 <= c < |old(lists)| ==> keeper !in old(lists)[c]
      ensures lists == old(lists)
    {
      forall c | 0 <= c < |lists|
        ensures lists[c] == old(lists)[c]
      {
        LeftOf(old(lists)[c], keeper);
      }
    }

    twostate lemma JoinedStill(x: (seq<Event>, seq<Event>, Event))
      requires old(Joined(x.0, x.1, x.2)) && forall e :: e in x.1 ==> e.at == old(e.at)
      ensures Joined(x.0, x.1, x.2)
    {
      var k: nat :| old(InsertedAt(Without(x.0, x.2), x.2, k, x.1));
      var rest := Without(x.0, x.2);
      assert x.1 == rest[..k] + [x.2] + rest[k..] && rest == rest[..k] + rest[k..];
      forall e | e in rest
        ensures e in x.1
      {
      }
      assert InsertedAt(rest, x.2, k, x.1);
    }

    lemma JoinedSome(was: seq<Event>, now: seq<Event>, ev: Event)
      requires Joined(was, now, ev)
      ensures now != []
    {
    }

    /** The event is on the heap, or in its place on its list and on no other; if it became the first there, the
        keeper has its time now, and no other keeper changed. */
    twostate predicate TimedAs(ev: Event, new common: int)
      reads this`actives, this`heap, this`lists, events, ev
    {
      && |lists| == |old(lists)| == |keepers| && -1 <= common < |lists|
      && (forall c :: 0 <= c < |lists| && c != common ==> lists[c] == Without(old(lists)[c], ev))
      && (common >= 0 ==> Joined(old(lists)[common], lists[common], ev))
      && var first := common >= 0 && lists[common][0] == ev;
      && (first ==> Scheduled(common, ev.at))
      && OthersKept(if first then common else -1)
      && heap == (if common < 0 then old(heap) + {ev} else old(heap) - {ev}) + (if first then {keepers[common]} else {})
      && var q := if old(ev.active && ev.expired) then OffActive(old(actives), ev) else old(actives);
      && actives == if first && old(Late(common)) then OffActive(q, keepers[common]) else q
    }

    /** The keeper is active because of an earlier timeout. */
    ghost predicate Late(c: int) reads events {
      0 <= c < |keepers| && keepers[c] in events && keepers[c].active && keepers[c].expired
    }

    /** The keeper is timed for `at`. */
    twostate predicate Scheduled(new c: int, new at: int) reads events {
      && 0 <= c < |keepers| && keepers[c] in events
      && keepers[c].timed && keepers[c].at == at && keepers[c].active == (old(keepers[c].active) && !old(Late(c)))
    }

    /** The keepers of all other lists are as they were. */
    twostate predicate OthersKept(new but: int) reads events {
      forall d :: 0 <= d < |keepers| && d != but ==>
        keepers[d] in events && keepers[d].timed == old(keepers[d].timed) && keepers[d].at == old(keepers[d].at)
        && keepers[d].active == old(keepers[d].active) && keepers[d].expired == old(keepers[d].expired)
    }

    lemma ListsAreKept()
      requires Queues() && KeepersOk()
      ensures |lists| == |keepers| && forall c :: 0 <= c < |keepers| ==> keepers[c] in events && keepers[c] in keepers
    {
    }

    twostate lemma KeepersStill(ev: Event)
      requires old(KeepersOk()) && ev !in keepers
      requires forall e :: e in events && e != ev ==> e.common == old(e.common)
      ensures KeepersOk()
    {
    }

    lemma ListOf(c: nat)
      requires Queues() && KeepersOk() && c < |lists|
      ensures Sorted(lists[c]) && forall e :: e in lists[c] ==> e in events && e !in keepers
    {
      assert ListsOk() && ListsSorted();
    }

    /** `event_del_internal` */
    method DelInternal(ev: Event)
      requires Queues() && ev in events
      modifies this`queue, this`actives, this`heap, this`lists, this`count, this`countActive, ev`inserted, ev`active
      modifies ev`timed
      ensures Queues() && !ev.timed && !ev.active && !ev.inserted && |lists| == |old(lists)|
      ensures Dropped(ev)
    {
      hide InsertedOk, ActivesOk, Counted, Timers, Left;
      if ev.timed {
        RemoveTimeout(ev);
      } else {
        NotListed(ev);
      }
      NotQueued(ev);
      if ev.active {
        RemoveActive(ev);
      }
      if ev.inserted {
        RemoveInserted(ev);
      }
    }

    /** The event is off every queue, and nothing else changed there. */
    twostate predicate Dropped(ev: Event)
      reads this`queue, this`actives, this`heap, this`lists
    {
      && queue == Without(old(queue), ev)
      && actives == OffActive(old(actives), ev)
      && heap == old(heap) - {ev}
      && |lists| == |old(lists)| && forall c :: 0 <= c < |lists| ==> Left(old(lists)[c], lists[c], ev)
    }

    lemma NotQueued(ev: Event)
      requires InsertedOk() && ActivesOk() && ev in events
      ensures ev.pri < |actives|
      ensures !ev.inserted ==> Without(queue, ev) == queue
      ensures !ev.active ==> OffActive(actives, ev) == actives
    {
      var _ := WithoutAt(queue, ev);
      var _ := WithoutAt(actives[ev.pri], ev);
    }

    /** `event_del` */
    method Del(ev: Event)
      requires Valid() && Ordinary(ev)
      modifies this`queue, this`actives, this`heap, this`lists, this`count, this`countActive, ev`inserted, ev`active
      modifies ev`timed
      ensures Valid() && !ev.timed && !ev.active && !ev.inserted && Dropped(ev)
    {
      hide InsertedOk, ActivesOk, Counted, Timers, KeepersOk, Covered, Left;
      ListsAreKept();
      DelInternal(ev);
      KeepersStill(ev);
      OthersCovered(ev, -1);
    }

    /** `event_active_nolock` */
    method Activate(ev: Event, timeout: bool)
      requires Queues() && ev in events
      modifies this`actives, this`count, this`countActive, ev`active, ev`expired
      ensures Queues() && ev.active
      ensures ev.expired == (timeout || (old(ev.active) && old(ev.expired)))
      ensures actives == if old(ev.active) then old(actives) else ToActive(old(actives), ev)
    {
      if ev.active {
        ev.expired := ev.expired || timeout;
        return;
      }
      ev.expired := timeout;
      InsertActive(ev);
    }

    /** `event_active` */
    method MakeActive(ev: Event, timeout: bool)
      requires Valid() && Ordinary(ev)
      modifies this`actives, this`count, this`countActive, ev`active, ev`expired
      ensures Valid() && ev.active && ev.expired == (timeout || (old(ev.active) && old(ev.expired)))
      ensures actives == if old(ev.active) then old(actives) else ToActive(old(actives), ev)
    {
      hide Queues, KeepersOk, Covered;
      Activate(ev, timeout);
      CoveredSame();
    }

    /** The event is taken off all queues and made active: `timeout_process` and `common_timeout_callback`. */
    method Expire(ev: Event)
      requires Queues() && ev in events
      modifies this`queue, this`actives, this`heap, this`lists, this`count, this`countActive
      modifies ev`inserted, ev`active, ev`timed, ev`expired
      ensures Queues() && !ev.timed && !ev.inserted && ev.active && ev.expired && |lists| == |old(lists)|
      ensures queue == Without(old(queue), ev) && heap == old(heap) - {ev}
      ensures actives == ToActive(OffActive(old(actives), ev), ev)
      ensures forall c :: 0 <= c < |lists| ==> Left(old(lists)[c], lists[c], ev)
    {
      hide Queues, Left;
      DelInternal(ev);
      Activate(ev, true);
    }

    ghost function Flags(): map<Event, (bool, bool, bool, bool)>
      reads events
    {
      map e | e in events :: (e.inserted, e.active, e.timed, e.expired)
    }

    /** The events in `gone` are active for their timeout and nowhere else; all others are as they were. */
    ghost predicate OnlyExpired(was: map<Event, (bool, bool, bool, bool)>, gone: seq<Event>)
      reads events
    {
      && (forall e :: e in gone ==> e in events && !e.timed && !e.inserted && e.active && e.expired)
      && (forall e :: e in events && e !in gone ==> e in was && was[e] == (e.inserted, e.active, e.timed, e.expired))
    }

    twostate lemma OneMoreGone(x: (map<Event, (bool, bool, bool, bool)>, seq<Event>, Event))
      requires old(OnlyExpired(x.0, x.1)) && x.2 in events
      requires !x.2.timed && !x.2.inserted && x.2.active && x.2.expired
      requires forall e :: e in events && e != x.2 ==> e.inserted == old(e.inserted) && e.active == old(e.active)
      requires forall e :: e in events && e != x.2 ==> e.timed == old(e.timed) && e.expired == old(e.expired)
      ensures OnlyExpired(x.0, x.1 + [x.2])
    {
    }

    /** The same when the lists have their keepers. */
    method ExpireKept(ev: Event)
      requires Valid() && ev in events
      modifies this`queue, this`actives, this`heap, this`lists, this`count, this`countActive
      modifies ev`inserted, ev`active, ev`timed, ev`expired
      ensures Valid() && !ev.timed && !ev.inserted && ev.active && ev.expired && |lists| == |old(lists)|
      ensures queue == Without(old(queue), ev) && heap == old(heap) - {ev}
      ensures actives == ToActive(OffActive(old(actives), ev), ev)
      ensures forall c :: 0 <= c < |lists| ==> Left(old(lists)[c], lists[c], ev)
    {
      hide Queues, KeepersOk, Covered, Left;
      Expire(ev);
      KeepersSame();
      ExpiredCovered(ev);
    }

    /** The top of the heap; which of several equal ones is left open. */
    method Top() returns (e: Event)
      requires heap != {}
      ensures e in heap && forall f :: f in heap ==> e.at <= f.at
    {
      Least(heap);
      e :| e in heap && forall f :: f in heap ==> e.at <= f.at;
    }

    lemma {:induction false} Least(h: set<Event>)
      requires h != {}
      ensures exists e :: e in h && forall f :: f in h ==> e.at <= f.at
    {
      var x :| x in h;
      if h != {x} {
        var rest := h - {x};
        assert h == rest + {x};
        Least(rest);
        var y :| y in rest && forall f :: f in rest ==> y.at <= f.at;
        var z := if x.at <= y.at then x else y;
        assert z in h && forall f :: f in h ==> z.at <= f.at;
      }
    }

    /** `timeout_process`: exactly the events on the heap that are due become active, whatever queues they were on, one
        after the other by their times; a keeper that is due stays responsible for its list. */
    method TimeoutProcess(now: int) returns (ghost order: seq<Event>)
      requires Valid()
      modifies this`queue, this`actives, this`heap, this`lists, this`count, this`countActive
      modifies events`inserted, events`active, events`timed, events`expired
      ensures Valid() && lists == old(lists)
      ensures forall e :: e in heap <==> e in old(heap) && e.at > now
      ensures forall e :: e in old(heap) && e.at <= now ==> !e.timed && !e.inserted && e.active && e.expired
      ensures forall e :: e in events && !(e in old(heap) && e.at <= now) ==>
        e.inserted == old(e.inserted) && e.active == old(e.active) && e.timed == old(e.timed)
        && e.expired == old(e.expired)
      ensures NoDup(order) && Sorted(order) && forall e :: e in order <==> e in old(heap) && e.at <= now
      ensures actives == Expired(old(actives), order) && queue == Rest(old(queue), order)
    {
      hide Queues, KeepersOk, ListsCovered, Expired, Rest, Sorted, NoDup, OnlyExpired;
      ghost var flags := Flags();
      order := ExpireHeap(now);
      FlagsOf(flags, order);
    }

    /** Its loop. */
    method ExpireHeap(now: int) returns (ghost order: seq<Event>)
      requires Valid()
      modifies this`queue, this`actives, this`heap, this`lists, this`count, this`countActive
      modifies events`inserted, events`active, events`timed, events`expired
      ensures Valid() && lists == old(lists) && heap <= old(heap) && forall e :: e in heap ==> e.at > now
      ensures OnlyExpired(old(Flags()), order) && forall e :: e in order ==> e.at <= now
      ensures NoDup(order) && Sorted(order) && forall e :: e in order <==> e in old(heap) && e !in heap
      ensures actives == Expired(old(actives), order) && queue == Rest(old(queue), order)
    {
      hide Queues, KeepersOk, ListsCovered, Left, Expired, Rest, Sorted, NoDup, NoneEarlier, HeapOk;
      hide OnlyExpired;
      ghost var was, flags := heap, Flags();
      order := [];
      NoneExpired(actives, queue);
      while heap != {}
        invariant Valid() && lists == old(lists) && heap <= was
        invariant OnlyExpired(flags, order) && forall e :: e in order ==> e.at <= now
        invariant NoDup(order) && Sorted(order) && forall e :: e in order <==> e in was && e !in heap
        invariant NoneEarlier(order, heap)
        invariant actives == Expired(old(actives), order) && queue == Rest(old(queue), order)
        decreases |heap|
      {
        var ev := Top();
        if ev.at > now {
          break;
        }
        InHeap(ev);
        NextInTime(order, heap, ev);
        label Before:
        ExpireKept(ev);
        OneMoreGone@Before((flags, order, ev));
        KeeperUnlisted@Before(ev);
        OneMoreExpired(old(actives), old(queue), order, ev);
        AddNoDup(order, ev);
        order := order + [ev];
      }
      assert forall e :: e in heap ==> e.at > now;
    }

    lemma FlagsOf(was: map<Event, (bool, bool, bool, bool)>, gone: seq<Event>)
      requires OnlyExpired(was, gone)
      ensures forall e :: e in gone ==> e in events && !e.timed && !e.inserted && e.active && e.expired
      ensures forall e :: e in events && e !in gone ==> e in was && was[e] == (e.inserted, e.active, e.timed, e.expired)
    {
    }

    lemma NoneExpired(q: seq<seq<Event>>, s: seq<Event>)
      ensures Expired(q, []) == q && Rest(s, []) == s && NoDup([]) && Sorted([]) && forall h :: NoneEarlier([], h)
      ensures OnlyExpired(Flags(), [])
    {
    }

    /** Nothing in the heap is earlier than what was taken from it. */
    ghost predicate NoneEarlier(order: seq<Event>, h: set<Event>) reads events`at {
      forall e, f :: e in order && f in h ==> e in events && f in events && e.at <= f.at
    }

    lemma NextInTime(order: seq<Event>, h: set<Event>, ev: Event)
      requires Sorted(order) && NoneEarlier(order, h) && ev in h && HeapOk() && h == heap
      requires forall f :: f in h ==> ev.at <= f.at
      ensures Sorted(order + [ev]) && NoneEarlier(order + [ev], h - {ev})
    {
    }

    lemma InHeap(ev: Event)
      requires Queues() && ev in heap
      ensures HeapOk() && ev in events && ev.timed && forall c :: 0 <= c < |lists| ==> ev !in lists[c]
    {
      assert HeapOk() && ListsOk();
    }

    twostate lemma KeepersSame()
      requires old(KeepersOk()) && forall e :: e in events ==> e.common == old(e.common)
      ensures KeepersOk()
    {
    }

    /** Making an event active, keeper or not, leaves no list without a keeper. */
    twostate lemma ExpiredCovered(ev: Event)
      requires old(ListsCovered()) && |lists| == |old(lists)| && ev in events && starting == old(starting) && ev.active
      requires forall c :: 0 <= c < |lists| ==> Left(old(lists)[c], lists[c], ev)
      requires forall e :: e in events ==> e.at == old(e.at)
      requires forall e :: e in events && e != ev ==> e.timed == old(e.timed) && e.active == old(e.active)
      ensures ListsCovered()
    {
      forall c | 0 <= c < |lists| && lists[c] != []
        ensures Covered(c)
      {
        assert lists[c][0] in old(lists)[c];
        assert old(Covered(c));
      }
    }

    /** The start of one turn in `event_process_active_single_queue`, before the base is unlocked for the callback. */
    method TakeActive(pri: nat) returns (ev: Event)
      requires Valid() && pri < |actives| && actives[pri] != [] && starting == null
      modifies this`queue, this`actives, this`heap, this`lists, this`count, this`countActive, this`starting
      modifies events`inserted, events`active, events`timed
      ensures Valid() && ev == old(actives)[pri][0] && ev in events && !ev.active
      ensures !ev.persist ==> !ev.inserted && !ev.timed
      ensures ev.persist ==> ev.inserted == old(ev.inserted) && ev.timed == old(ev.timed)
      ensures starting == (if ev in keepers then ev else null)
      ensures Unchanged({ev})
      ensures if ev.persist then actives == OffActive(old(actives), ev) && queue == old(queue) && heap == old(heap)
                                 && lists == old(lists)
              else Dropped(ev)
    {
      hide InsertedOk, Counted, Timers, KeepersOk, Covered, Left;
      ev := actives[pri][0];
      FirstActive(pri);
      KeepersOneShot();
      label Before:
      if ev.persist {
        RemoveActive(ev);
      } else {
        DelInternal(ev);
      }
      if ev in keepers { starting := ev; }
      KeepersSame@Before();
      TakenCovered@Before(ev);
    }

    lemma FirstActive(pri: nat)
      requires ActivesOk() && pri < |actives| && actives[pri] != []
      ensures actives[pri][0] in events && actives[pri][0].active
    {
    }

    lemma KeepersOneShot()
      requires KeepersOk()
      ensures forall e :: e in keepers ==> !e.persist
    {
    }

    twostate lemma TakenCovered(ev: Event)
      requires old(ListsCovered()) && |lists| == |old(lists)| && ev in events && old(starting) == null
      requires starting == (if ev in keepers then ev else null)
      requires lists == old(lists) || forall c :: 0 <= c < |lists| ==> Left(old(lists)[c], lists[c], ev)
      requires forall e :: e in events ==> e.at == old(e.at)
      requires forall e :: e in events && e != ev ==> e.timed == old(e.timed) && e.active == old(e.active)
      ensures ListsCovered()
    {
      forall c | 0 <= c < |lists| && lists[c] != []
        ensures Covered(c)
      {
        assert lists[c][0] in old(lists)[c];
        assert old(Covered(c));
      }
    }

    /** The loop of `common_timeout_callback`: the first `n` events of the list, those that are due, become active. */
    method ExpireDue(c: nat, now: int) returns (ghost n: nat)
      requires Valid() && c < |keepers| && starting == keepers[c]
      modifies this`queue, this`actives, this`heap, this`lists, this`count, this`countActive
      modifies events`inserted, events`active, events`timed, events`expired
      ensures Valid() && c < |old(lists)| == |keepers|
      ensures n <= |old(lists)[c]| && lists == old(lists)[c := old(lists)[c][n..]]
      ensures forall i :: 0 <= i < n ==> old(lists)[c][i].at <= now
      ensures lists[c] == [] || lists[c][0].at > now
      ensures actives == Expired(old(actives), old(lists)[c][..n]) && queue == Rest(old(queue), old(lists)[c][..n])
      ensures heap == old(heap)
      ensures forall e :: e in old(lists)[c][..n] ==> !e.timed && !e.inserted && e.active && e.expired
      ensures forall e :: e in events && e !in old(lists)[c][..n] ==>
        e.inserted == old(e.inserted) && e.active == old(e.active) && e.timed == old(e.timed)
        && e.expired == old(e.expired)
    {
      hide Queues, KeepersOk, ListsCovered, Left, Expired, Rest, OnlyExpired;
      ListsAreKept();
      ghost var was, flags := lists[c], Flags();
      n := 0;
      NoneExpired(actives, queue);
      while lists[c] != []
        invariant Valid() && n <= |was| && lists == old(lists)[c := was[n..]] && heap == old(heap)
        invariant forall i :: 0 <= i < n ==> was[i].at <= now
        invariant actives == Expired(old(actives), was[..n]) && queue == Rest(old(queue), was[..n])
        invariant OnlyExpired(flags, was[..n])
        decreases |was| - n
      {
        var ev := lists[c][0];
        if ev.at > now {
          break;
        }
        HeadOnly(c);
        label Before:
        ExpireKept(ev);
        HeadGone@Before(c);
        OneMoreGone@Before((flags, was[..n], ev));
        assert was[..n + 1] == was[..n] + [ev] && was[n..][1..] == was[n + 1..];
        OneMoreExpired(old(actives), old(queue), was[..n], ev);
        n := n + 1;
      }
      FlagsOf(flags, was[..n]);
    }

    /** The first event of a list is on no other, nor on the heap. */
    lemma HeadOnly(c: nat)
      requires Queues() && c < |lists| && lists[c] != []
      ensures lists[c][0] in events && lists[c][0] !in heap
      ensures forall d :: 0 <= d < |lists| && d != c ==> lists[c][0] !in lists[d]
    {
      assert HeapOk() && ListsOk();
    }

    twostate lemma HeadGone(new c: nat)
      requires c < |old(lists)| == |lists| && old(lists)[c] != []
      requires forall d :: 0 <= d < |lists| ==> Left(old(lists)[d], lists[d], old(lists)[c][0])
      requires forall d :: 0 <= d < |lists| && d != c ==> old(lists)[c][0] !in old(lists)[d]
      ensures lists == old(lists)[c := old(lists)[c][1..]]
    {
      forall d | 0 <= d < |lists| && d != c
        ensures lists[d] == old(lists)[d]
      {
        LeftOf(old(lists)[d], old(lists)[c][0]);
      }
    }

    /** Its end: the keeper takes the time of the first event that is left. */
    method Reschedule(c: nat, keeper: Event)
      requires Valid() && c < |keepers| && keeper == keepers[c] && starting == keeper
      modifies this`actives, this`heap, this`lists, this`count, this`countActive, this`starting
      modifies keeper`active, keeper`timed, keeper`at, keeper`common
      ensures Valid() && lists == old(lists) && |lists| == |keepers| && starting == null
      ensures lists[c] != [] ==> keeper !in lists[c] && Scheduled(c, lists[c][0].at) && heap == old(heap) + {keeper}
      ensures lists[c] == [] ==>
        keeper.timed == old(keeper.timed) && keeper.at == old(keeper.at) && keeper.active == old(keeper.active)
        && heap == old(heap)
      ensures actives == if lists[c] != [] && old(Late(c)) then OffActive(old(actives), keeper) else old(actives)
    {
      hide Queues, KeepersOk, Covered, Left;
      ListsAreKept();
      ListOf(c);
      HeadFirst(c);
      NoneKept();
      if lists[c] != [] {
        var at := lists[c][0].at;
        label Done:
        Schedule(c, keeper, at);
        HeadCovered@Done(c);
        KeeperUnlisted@Done(keeper);
      }
      label Last:
      starting := null;
      NoneStarting@Last(c);
    }

    /** `common_timeout_callback`: exactly the events of the list that are due become active, in the order of the
        list, and if any are left the keeper takes the time of the first of them. */
    method CommonCallback(c: nat, keeper: Event, now: int) returns (ghost n: nat)
      requires Valid() && c < |keepers| && keeper == keepers[c] && starting == keeper
      modifies this`queue, this`actives, this`heap, this`lists, this`count, this`countActive, this`starting
      modifies events`inserted, events`active, events`timed, events`expired
      modifies keeper`at, keeper`common
      ensures Valid() && c < |lists| == |old(lists)| == |keepers| && starting == null
      ensures n <= |old(lists)[c]| && lists == old(lists)[c := old(lists)[c][n..]]
      ensures forall e :: e in lists[c] <==> e in old(lists)[c] && old(e.at) > now
      ensures forall e :: e in old(lists)[c] && e.at <= now ==> !e.timed && !e.inserted && e.active && e.expired
      ensures forall e :: e in events && e != keeper && !(e in old(lists)[c] && e.at <= now) ==>
        && e.inserted == old(e.inserted) && e.active == old(e.active) && e.timed == old(e.timed)
           && e.expired == old(e.expired)
      ensures lists[c] != [] ==>
        keeper.timed && keeper.at == lists[c][0].at && keeper.active == (old(keeper.active) && !old(Late(c)))
        && heap == old(heap) + {keeper}
      ensures lists[c] == [] ==>
        keeper.timed == old(keeper.timed) && keeper.at == old(keeper.at) && keeper.active == old(keeper.active)
        && heap == old(heap)
      ensures queue == Rest(old(queue), old(lists)[c][..n])
      ensures var q := Expired(old(actives), old(lists)[c][..n]);
        actives == if lists[c] != [] && old(Late(c)) then OffActive(q, keeper) else q
    {
      hide Queues, KeepersOk, ListsCovered, Left, Expired, Rest, OffActive;
      ListsAreKept();
      ListOf(c);
      NoneKept();
      n := ExpireDue(c, now);
      ListOf(c);
      DueFirst(c, n, old(lists)[c], now);
      Reschedule(c, keeper);
    }

    /** In a sorted list those that are due come first. */
    lemma DueFirst(c: nat, n: nat, was: seq<Event>, now: int)
      requires Sorted(was) && n <= |was| && (was[n..] == [] || was[n..][0].at > now)
      requires forall i :: 0 <= i < n ==> was[i].at <= now
      ensures forall e :: e in was[..n] <==> e in was && e.at <= now
      ensures forall e :: e in was[n..] <==> e in was && e.at > now
    {
      forall i | n <= i < |was|
        ensures was[i].at > now
      {
        assert was[n] == was[n..][0];
      }
      assert was == was[..n] + was[n..];
      forall e
        ensures e in was <==> e in was[..n] || e in was[n..]
      {
      }
    }

    lemma HeadFirst(c: nat)
      requires c < |lists| && Sorted(lists[c])
      ensures forall e :: e in lists[c] ==> lists[c][0].at <= e.at
    {
      forall e | e in lists[c]
        ensures lists[c][0].at <= e.at
      {
        var i :| 0 <= i < |lists[c]| && lists[c][i] == e;
      }
    }

    twostate lemma NoneStarting(new c: nat)
      requires old(ListsCovered()) && KeepersOk() && lists == old(lists) && c < |keepers| == |lists|
               && old(starting) == keepers[c] && starting == null
      requires lists[c] == []
               || (keepers[c].timed && forall e :: e in lists[c] ==> e in events && keepers[c].at <= e.at)
      requires forall e :: e in events ==> e.at == old(e.at) && e.timed == old(e.timed) && e.active == old(e.active)
      ensures ListsCovered()
    {
      forall d | 0 <= d < |lists| && lists[d] != []
        ensures Covered(d)
      {
        assert old(Covered(d));
        assert d != c ==> keepers[d] != keepers[c];
      }
    }

    /** What `timeout_next` relies on: when nothing is active or about to run, the top of the heap is no later than any
        timeout of any event, those on common-timeout lists included. */
    lemma {:induction false} NextTimeout(ev: Event)
      requires Valid() && ev in events && ev.timed && AllActive() == {} && starting == null
      ensures exists e :: e in heap && e.at <= ev.at
    {
      assert HeapOk() && ListsOk();
      if ev.common < 0 {
        assert ev in heap;
      } else {
        var c := ev.common;
        assert ev in lists[c];
        assert Covered(c);
        var k := keepers[c];
        assert k !in AllActive();
        assert k in heap;
      }
    }
  }
}
