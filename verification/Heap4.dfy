/** The 4-ary heap of `libev/ev.c`: slots that cache the expiry time, and watchers that know their slot.  The first slot
    has number HEAP0; the unused slots before it are not stored, so slot k is `slots[k - HEAP0]`. */
module Heap4 {

  import opened Pending

  const DHEAP: nat := 4
  const HEAP0: nat := 3

  /** `ANHE` */
  datatype Anhe = Anhe(w: Watcher, at: real)

  /** C division truncates towards zero. */
  function CDiv(a: int, b: nat): int
    requires b > 0
  {
    if a >= 0 then a / b else -((-a) / b)
  }

  /** `HPARENT`: the root is its own parent, because -1 / 4 is 0 in C. */
  function HParent(k: int): int {
    CDiv(k - HEAP0 - 1, DHEAP) + HEAP0
  }

  /** Position of the parent, counted from 0. */
  function Parent(i: nat): (p: nat)
    ensures p <= i && (i > 0 ==> p < i)
  {
    if i == 0 then 0 else (i - 1) / 4
  }

  lemma HParentIs(i: nat)
    ensures HParent(i + HEAP0) == Parent(i) + HEAP0
  {
  }

  /** The children of slot k are the four from `DHEAP * (k - HEAP0) + HEAP0 + 1` on. */
  lemma ChildrenAre(i: nat, c: nat)
    requires c > 0
    ensures Parent(c) == i <==> 4 * i + 1 <= c <= 4 * i + 4
  {
  }

  // ---------- Order ----------

  predicate Edge(h: seq<Anhe>, i: nat) {
    0 < i < |h| ==> h[Parent(i)].at <= h[i].at
  }

  /** Children of `k` are not below the parent of `k`. */
  predicate Skip(h: seq<Anhe>, k: nat, i: nat) {
    k < |h| && 0 < i < |h| && Parent(i) == k ==> h[Parent(k)].at <= h[i].at || k == 0
  }

  /** The first `n` slots are a heap. */
  predicate OrderedTo(h: seq<Anhe>, n: nat) {
    forall i: nat :: i < n ==> Edge(h, i)
  }

  predicate Ordered(h: seq<Anhe>) {
    OrderedTo(h, |h|)
  }

  /** Only the edges below `k` may be wrong. */
  predicate DownOk(h: seq<Anhe>, k: nat) {
    && (forall i: nat :: i < |h| && (i > 0 ==> Parent(i) != k) ==> Edge(h, i))
    && (forall i: nat :: i < |h| ==> Skip(h, k, i))
  }

  /** Among the first `n` slots, only the edge above `k` may be wrong. */
  predicate UpOk(h: seq<Anhe>, n: nat, k: nat) {
    && (forall i: nat :: i < n && i != k ==> Edge(h, i))
    && (forall i: nat :: i < n ==> Skip(h, k, i))
  }

  /** Only edges at `k` may be wrong. */
  predicate AnyOk(h: seq<Anhe>, k: nat) {
    && (forall i: nat :: i < |h| && i != k && (i > 0 ==> Parent(i) != k) ==> Edge(h, i))
    && (forall i: nat :: i < |h| ==> Skip(h, k, i))
  }

  function Swapped(h: seq<Anhe>, i: nat, j: nat): (r: seq<Anhe>)
    requires i < |h| && j < |h| && i != j
    ensures |r| == |h| && r[i] == h[j] && r[j] == h[i] && multiset(r) == multiset(h)
    ensures forall x :: 0 <= x < |h| && x != i && x != j ==> r[x] == h[x]
  {
    h[i := h[j]][j := h[i]]
  }

  lemma {:induction false} SinkKeeps(h: seq<Anhe>, k: nat, m: nat)
    requires k < |h| && 4 * k + 1 <= m < |h| && m <= 4 * k + 4 && DownOk(h, k) && h[m].at < h[k].at
    requires forall c :: 4 * k + 1 <= c <= 4 * k + 4 && c < |h| ==> h[m].at <= h[c].at
    ensures DownOk(Swapped(h, k, m), m)
  {
    var r := Swapped(h, k, m);
    forall i: nat | i < |r|
      ensures (i > 0 ==> Parent(i) != m) ==> Edge(r, i)
      ensures Skip(r, m, i)
    {
      assert Edge(h, i) || (i > 0 && Parent(i) == k);
      assert Skip(h, k, i) && Skip(h, k, m);
      if i > 0 { ChildrenAre(k, i); ChildrenAre(m, i); }
      ChildrenAre(k, m);
      if k > 0 && i == k { assert Edge(h, k); }
    }
  }

  lemma {:induction false} SinkDone(h: seq<Anhe>, k: nat)
    requires k < |h| && DownOk(h, k)
    requires forall c :: 4 * k + 1 <= c <= 4 * k + 4 && c < |h| ==> h[k].at <= h[c].at
    ensures Ordered(h)
  {
    forall i: nat | i < |h|
      ensures Edge(h, i)
    {
      if i > 0 { ChildrenAre(k, i); }
    }
  }

  lemma {:induction false} RiseKeeps(h: seq<Anhe>, n: nat, k: nat)
    requires 0 < k < n <= |h| && UpOk(h, n, k) && h[k].at < h[Parent(k)].at
    ensures UpOk(Swapped(h, k, Parent(k)), n, Parent(k))
  {
    var p := Parent(k);
    var r := Swapped(h, k, p);
    forall i: nat | i < n
      ensures i != p ==> Edge(r, i)
      ensures Skip(r, p, i)
    {
      assert i != k ==> Edge(h, i);
      assert Skip(h, k, i);
      assert p > 0 ==> Edge(h, p);
    }
  }

  lemma {:induction false} RiseDone(h: seq<Anhe>, n: nat, k: nat)
    requires k < n <= |h| && UpOk(h, n, k) && Edge(h, k)
    ensures OrderedTo(h, n)
  {
  }

  /** Replacing one key of a heap leaves only its own edges in doubt. */
  lemma {:induction false} Rekeyed(h: seq<Anhe>, k: nat, e: Anhe)
    requires Ordered(h) && k < |h|
    ensures AnyOk(h[k := e], k)
  {
    var r := h[k := e];
    forall i: nat | i < |r|
      ensures i != k && (i > 0 ==> Parent(i) != k) ==> Edge(r, i)
      ensures Skip(r, k, i)
    {
      assert Edge(h, i) && Edge(h, k);
    }
  }

  lemma {:induction false} AnyUp(h: seq<Anhe>, k: nat)
    requires 0 < k < |h| && AnyOk(h, k) && h[k].at <= h[Parent(k)].at
    ensures UpOk(h, |h|, k)
  {
    forall i: nat | i < |h| && i != k
      ensures Edge(h, i)
    {
      assert Skip(h, k, i);
    }
  }

  lemma {:induction false} AnyDown(h: seq<Anhe>, k: nat)
    requires k < |h| && AnyOk(h, k) && (k == 0 || h[k].at > h[Parent(k)].at)
    ensures DownOk(h, k)
  {
  }

  lemma {:induction false} Appended(h: seq<Anhe>, e: Anhe)
    requires Ordered(h)
    ensures UpOk(h + [e], |h| + 1, |h|)
  {
    var r := h + [e];
    forall i: nat | i < |r| && i != |h|
      ensures Edge(r, i)
    {
      assert Edge(h, i);
    }
  }

  lemma {:induction false} Shortened(h: seq<Anhe>)
    requires Ordered(h) && h != []
    ensures Ordered(h[..|h| - 1])
  {
    var r := h[..|h| - 1];
    forall i: nat | i < |r|
      ensures Edge(r, i)
    {
      assert Edge(h, i);
    }
  }

  lemma {:induction false} RootIsLeast(h: seq<Anhe>, i: nat)
    requires Ordered(h) && i < |h|
    ensures h[0].at <= h[i].at
  {
    if i > 0 {
      RootIsLeast(h, Parent(i));
      assert Edge(h, i);
    }
  }

  // ---------- The code ----------

  class Heap {
    ghost const watchers: set<Watcher>     // the watchers of this kind
    var slots: seq<Anhe>
    ghost var gone: set<Watcher>           // taken off the heap, but not yet marked as stopped

    /** Slot and watcher name each other. */
    ghost predicate Indexed() reads this`slots, this`gone, watchers`active {
      SlotsNamed() && WatchersNamed()
    }

    ghost predicate SlotsNamed() reads this`slots, this`gone, watchers`active {
      forall i :: 0 <= i < |slots| ==> slots[i].w in watchers && slots[i].w !in gone && slots[i].w.active == i + HEAP0
    }

    ghost predicate WatchersNamed() reads this`slots, this`gone, watchers`active {
      forall w :: w in watchers && w !in gone && w.active != 0 ==> At(w.active) && slots[w.active - HEAP0].w == w
    }

    /** The same while `he` is in flight and slot `k` is stale. */
    ghost predicate Hole(k: nat, he: Anhe) reads this`slots, this`gone, watchers`active {
      && he.w in watchers && he.w !in gone && he.w.active != 0
      && HoleSlots(k, he.w)
      && HoleWatchers(k, he.w)
    }

    ghost predicate HoleSlots(k: nat, flying: Watcher) reads this`slots, this`gone, watchers`active {
      forall i :: 0 <= i < |slots| && i != k ==>
        slots[i].w in watchers && slots[i].w !in gone && slots[i].w != flying && slots[i].w.active == i + HEAP0
    }

    ghost predicate HoleWatchers(k: nat, flying: Watcher) reads this`slots, this`gone, watchers`active {
      forall w :: w in watchers && w !in gone && w != flying && w.active != 0 ==>
        At(w.active) && w.active - HEAP0 != k && slots[w.active - HEAP0].w == w
    }

    predicate At(k: nat) reads this`slots { HEAP0 <= k < |slots| + HEAP0 }

    ghost predicate Valid() reads this`slots, this`gone, watchers`active {
      gone == {} && Indexed() && Ordered(slots)
    }

    constructor (ghost watchers: set<Watcher>)
      requires forall w :: w in watchers ==> w.active == 0
      ensures Valid() && slots == [] && this.watchers == watchers
    {
      this.watchers, slots, gone := watchers, [], {};
    }

    /** The child with the least time, scanned as the code does. */
    method LeastChild(k: nat) returns (m: nat)
      requires At(k) && DHEAP * (k - HEAP0) + HEAP0 + 1 < |slots| + HEAP0
      ensures At(m) && 4 * (k - HEAP0) + 1 <= m - HEAP0 <= 4 * (k - HEAP0) + 4
      ensures forall c :: 4 * (k - HEAP0) + 1 <= c <= 4 * (k - HEAP0) + 4 && c < |slots| ==>
                  slots[m - HEAP0].at <= slots[c].at
    {
      var pos := DHEAP * (k - HEAP0) + HEAP0 + 1;
      var end := |slots| + HEAP0;
      m := pos;
      if pos + DHEAP - 1 < end {
        if slots[pos + 1 - HEAP0].at < slots[m - HEAP0].at { m := pos + 1; }
        if slots[pos + 2 - HEAP0].at < slots[m - HEAP0].at { m := pos + 2; }
        if slots[pos + 3 - HEAP0].at < slots[m - HEAP0].at { m := pos + 3; }
      } else {
        if pos + 1 < end && slots[pos + 1 - HEAP0].at < slots[m - HEAP0].at { m := pos + 1; }
        if pos + 2 < end && slots[pos + 2 - HEAP0].at < slots[m - HEAP0].at { m := pos + 2; }
        // the code also tests for a fourth child, which cannot be there on this path
      }
    }

    /** `heap [k] = heap [m]` with its back-index. */
    method Shift(k: nat, m: nat, ghost he: Anhe)
      requires At(k) && At(m) && k != m && Hole(k - HEAP0, he)
      modifies this`slots, watchers`active
      ensures slots == old(slots[k - HEAP0 := slots[m - HEAP0]]) && Hole(m - HEAP0, he)
      ensures Running() == old(Running())
    {
      hide Hole;
      InHole(k - HEAP0, m - HEAP0, he);
      slots := slots[k - HEAP0 := slots[m - HEAP0]];
      slots[m - HEAP0].w.active := k;
      HoleMoves(k - HEAP0, m - HEAP0, he);
    }

    /** `heap [k] = he` with its back-index. */
    method Land(k: nat, he: Anhe)
      requires At(k) && Hole(k - HEAP0, he)
      modifies this`slots, watchers`active
      ensures slots == old(slots)[k - HEAP0 := he] && Indexed()
      ensures Running() == old(Running())
    {
      hide Hole, Indexed;
      InFlight(k - HEAP0, he);
      slots := slots[k - HEAP0 := he];
      he.w.active := k;
      Settled(k - HEAP0, he);
    }

    ghost function Running(): set<Watcher> reads watchers`active {
      set w | w in watchers && w.active != 0
    }

    /** `downheap` */
    method Downheap(k0: nat)
      requires At(k0) && DownOk(slots, k0 - HEAP0) && Hole(k0 - HEAP0, slots[k0 - HEAP0])
      modifies this`slots, watchers`active
      ensures Indexed() && Ordered(slots) && multiset(slots) == old(multiset(slots)) && |slots| == old(|slots|)
      ensures Running() == old(Running())
    {
      hide DownOk, Ordered, Indexed, Hole, Sinking, Running;
      var k: nat := k0;
      var he := slots[k - HEAP0];
      ghost var was := multiset(slots);
      SinkStart(slots, k - HEAP0);
      while true
        invariant At(k) && |slots| == old(|slots|)
        invariant Sinking(slots, k - HEAP0, he, was) && Hole(k - HEAP0, he)
        invariant Running() == old(Running())
        decreases |slots| + HEAP0 - k
      {
        if DHEAP * (k - HEAP0) + HEAP0 + 1 >= |slots| + HEAP0 {
          break;
        }
        var m := LeastChild(k);
        if he.at <= slots[m - HEAP0].at {
          break;
        }
        SinkNext(slots, k - HEAP0, m - HEAP0, he, was);
        Shift(k, m, he);
        k := m;
      }
      SinkEnd(slots, k - HEAP0, he, was);
      Land(k, he);
    }

    /** `upheap` */
    method Upheap(k0: nat, ghost n: nat)
      requires At(k0) && k0 - HEAP0 < n <= |slots| && UpOk(slots, n, k0 - HEAP0) && Hole(k0 - HEAP0, slots[k0 - HEAP0])
      modifies this`slots, watchers`active
      ensures Indexed() && OrderedTo(slots, n) && multiset(slots) == old(multiset(slots)) && |slots| == old(|slots|)
      ensures Running() == old(Running())
    {
      hide UpOk, OrderedTo, Indexed, Hole, Rising, Running;
      var k: nat := k0;
      var he := slots[k - HEAP0];
      ghost var was := multiset(slots);
      RiseStart(slots, n, k - HEAP0);
      while true
        invariant At(k) && |slots| == old(|slots|) && k - HEAP0 < n
        invariant Rising(slots, n, k - HEAP0, he, was) && Hole(k - HEAP0, he)
        invariant Running() == old(Running())
        decreases k
      {
        HParentIs(k - HEAP0);
        var p: nat := HParent(k);
        if p == k || slots[p - HEAP0].at <= he.at {
          break;
        }
        RiseNext(slots, n, k - HEAP0, he, was);
        Shift(k, p, he);
        k := p;
      }
      HParentIs(k - HEAP0);
      RiseEnd(slots, n, k - HEAP0, he, was);
      Land(k, he);
    }

    /** `adjustheap` */
    method AdjustHeap(k: nat)
      requires At(k) && AnyOk(slots, k - HEAP0) && Hole(k - HEAP0, slots[k - HEAP0])
      modifies this`slots, watchers`active
      ensures Indexed() && Ordered(slots) && multiset(slots) == old(multiset(slots)) && |slots| == old(|slots|)
      ensures Running() == old(Running())
    {
      hide Hole, Running, Indexed, OrderedTo;
      HParentIs(k - HEAP0);
      if k > HEAP0 && slots[k - HEAP0].at <= slots[HParent(k) - HEAP0].at {
        AnyUp(slots, k - HEAP0);
        Upheap(k, |slots|);
      } else {
        AnyDown(slots, k - HEAP0);
        Downheap(k);
      }
    }

    /** `reheap`: whatever the times now are, the slots become a heap of the same entries. */
    method Reheap()
      requires gone == {} && Indexed()
      modifies this`slots, watchers`active
      ensures Valid() && multiset(slots) == old(multiset(slots))
      ensures Running() == old(Running())
    {
      hide Indexed, Hole, OrderedTo, UpOk, Running;
      OrderedNone(slots);
      for i := 0 to |slots|
        invariant |slots| == old(|slots|) && Indexed() && OrderedTo(slots, i)
        invariant multiset(slots) == old(multiset(slots))
        invariant Running() == old(Running())
      {
        OrderedGrows(slots, i);
        MakeHole(i);
        Upheap(i + HEAP0, i + 1);
      }
    }

    lemma MakeHole(k: nat)
      requires k < |slots| && Indexed()
      ensures Hole(k, slots[k])
    {
    }

    /** A new last slot that rises to its place. */
    method Insert(w: Watcher, at: real)
      requires Valid() && w in watchers && w.active == 0
      modifies this`slots, watchers`active
      ensures Valid() && w.active != 0 && multiset(slots) == old(multiset(slots)) + multiset{Anhe(w, at)}
      ensures Running() == old(Running()) + {w}
    {
      hide OrderedTo, UpOk, Indexed, Hole, Running;
      ghost var before := Running();
      w.active := |slots| + 1 + HEAP0 - 1;
      Appended(slots, Anhe(w, at));
      slots := slots + [Anhe(w, at)];
      NewSlot(Anhe(w, at));
      RunningMore(w);
      Upheap(w.active, |slots|);
      RunningIs(w);
    }

    /** `ANHE_at_cache` and `adjustheap` for a running watcher whose time changed. */
    method Rekey(w: Watcher, at: real)
      requires Valid() && w in watchers && w.active != 0
      modifies this`slots, watchers`active
      ensures Valid() && Running() == old(Running())
      ensures multiset(slots) == old(multiset(slots) - multiset{slots[w.active - HEAP0]} + multiset{Anhe(w, at)})
    {
      hide Indexed, Hole, Running, Ordered, OrderedTo, AnyOk;
      SlotOf(w);
      var k: nat := w.active;
      Rekeyed(slots, k - HEAP0, Anhe(w, at));
      slots := slots[k - HEAP0 := Anhe(w, at)];
      NewKey(k - HEAP0, w, at);
      AdjustHeap(k);
    }

    /** The same for the first slot, where only `downheap` is needed. */
    method RekeyRoot(at: real)
      requires Valid() && slots != []
      modifies this`slots, watchers`active
      ensures Valid() && Running() == old(Running())
      ensures multiset(slots) == old(multiset(slots) - multiset{slots[0]} + multiset{Anhe(slots[0].w, at)})
    {
      hide Indexed, Hole, Running, Ordered, OrderedTo, AnyOk;
      var w := slots[0].w;
      Rekeyed(slots, 0, Anhe(w, at));
      slots := slots[0 := Anhe(w, at)];
      NewKey(0, w, at);
      AnyDown(slots, 0);
      Downheap(HEAP0);
    }

    /** The slot work of `ev_timer_stop`: the last slot fills the place of `w`, whose own index stays stale. */
    method Delete(w: Watcher)
      requires Valid() && w in watchers && w.active != 0
      modifies this`slots, this`gone, watchers`active
      ensures gone == {w} && Indexed() && Ordered(slots) && Running() == old(Running())
      ensures multiset(slots) == old(Without(slots, w.active - HEAP0))
    {
      hide Indexed, Hole, Running, Ordered, OrderedTo, AnyOk, Without;
      SlotOf(w);
      var active: nat := w.active;
      gone := {w};
      var last := slots[|slots| - 1];
      var count := |slots| - 1;
      ghost var rest := Without(slots, active - HEAP0);
      Shortened(slots);
      Dropped(slots, active - HEAP0);
      if active < count + HEAP0 {
        Rekeyed(slots[..count], active - HEAP0, last);
        var filled := slots[..count][active - HEAP0 := last];
        assert multiset(filled) == rest;
        slots := filled;
        Filled(w, active - HEAP0);
        AdjustHeap(active);
        assert multiset(slots) == rest;
      } else {
        slots := slots[..count];
        Popped(w, active - HEAP0);
      }
    }

    lemma NameOf(i: nat)
      requires Indexed() && i < |slots|
      ensures slots[i].w in watchers && slots[i].w.active != 0
    {
    }

    lemma SlotOf(w: Watcher)
      requires gone == {} && Indexed() && w in watchers && w.active != 0
      ensures At(w.active) && slots[w.active - HEAP0].w == w
    {
    }

    lemma SlotsOf()
      requires Indexed()
      ensures SlotsNamed()
    {
    }

    twostate lemma SameRunning()
      requires forall x :: x in watchers ==> x.active == old(x.active)
      ensures Running() == old(Running())
    {
    }

    twostate lemma NewKey(new k: nat, w: Watcher, new at: real)
      requires gone == old(gone) == {}
      requires old(Indexed()) && k < old(|slots|) && w == old(slots[k].w) && slots == old(slots)[k := Anhe(w, at)]
      requires forall x :: x in watchers ==> x.active == old(x.active)
      ensures Hole(k, Anhe(w, at)) && Running() == old(Running())
    {
      hide WatchersNamed;
      assert old(slots[k].w) in watchers && w.active == k + HEAP0;
      NewKeyWatchers(k, w, at);
      SameRunning();
    }

    twostate lemma NewKeyWatchers(new k: nat, w: Watcher, new at: real)
      requires gone == old(gone) == {}
      requires old(WatchersNamed()) && k < old(|slots|) && w == old(slots[k].w) && slots == old(slots)[k := Anhe(w, at)]
      requires forall x :: x in watchers ==> x.active == old(x.active)
      ensures HoleWatchers(k, w)
    {
      forall x | x in watchers && x != w && x.active != 0
        ensures At(x.active) && x.active - HEAP0 != k && slots[x.active - HEAP0].w == x
      {
        assert old(slots[x.active - HEAP0].w) == x;
      }
    }

    /** The slots without `w`: the last one moved to its place, or it was the last. */
    twostate predicate Removed(w: Watcher, new k: nat)
      reads this`slots, this`gone, watchers`active
    {
      && old(gone) == {} && gone == {w}
      && w in watchers && k < old(|slots|) && w.active == k + HEAP0 && old(slots[k].w) == w
      && |slots| == old(|slots|) - 1
      && (forall i :: 0 <= i < |slots| ==> slots[i] == if i == k then old(slots[|slots| - 1]) else old(slots[i]))
      && (forall x :: x in watchers ==> x.active == old(x.active))
    }

    twostate lemma Filled(w: Watcher, new k: nat)
      requires old(Indexed()) && Removed(w, k) && k < |slots|
      ensures Hole(k, slots[k]) && Running() == old(Running())
    {
      FilledSlots(w, k);
      FilledWatchers(w, k);
      SameRunning();
    }

    twostate lemma FilledSlots(w: Watcher, new k: nat)
      requires old(SlotsNamed()) && Removed(w, k) && k < |slots|
      ensures HoleSlots(k, slots[k].w) && slots[k].w in watchers && slots[k].w != w
              && slots[k].w.active == |slots| + HEAP0
    {
      assert old(slots[|slots| - 1].w.active) == |slots| + HEAP0;
      forall i | 0 <= i < |slots| && i != k
        ensures slots[i].w in watchers && slots[i].w != w && slots[i].w != slots[k].w && slots[i].w.active == i + HEAP0
      {
        assert old(slots[i].w.active) == i + HEAP0;
      }
    }

    twostate lemma FilledWatchers(w: Watcher, new k: nat)
      requires old(WatchersNamed()) && Removed(w, k) && k < |slots|
      ensures HoleWatchers(k, slots[k].w)
    {
      forall x | x in watchers && x != w && x != slots[k].w && x.active != 0
        ensures At(x.active) && x.active - HEAP0 != k && slots[x.active - HEAP0].w == x
      {
        assert old(slots[x.active - HEAP0].w) == x;
      }
    }

    twostate lemma Popped(w: Watcher, new k: nat)
      requires old(Indexed()) && Removed(w, k) && k == |slots|
      ensures Indexed() && Running() == old(Running())
    {
      PoppedSlots(w, k);
      PoppedWatchers(w, k);
      SameRunning();
    }

    twostate lemma PoppedSlots(w: Watcher, new k: nat)
      requires old(SlotsNamed()) && Removed(w, k) && k == |slots|
      ensures SlotsNamed()
    {
      forall i | 0 <= i < |slots|
        ensures slots[i].w in watchers && slots[i].w != w && slots[i].w.active == i + HEAP0
      {
        assert old(slots[i].w.active) == i + HEAP0;
      }
    }

    twostate lemma PoppedWatchers(w: Watcher, new k: nat)
      requires old(WatchersNamed()) && Removed(w, k) && k == |slots|
      ensures WatchersNamed()
    {
      forall x | x in watchers && x != w && x.active != 0
        ensures At(x.active) && slots[x.active - HEAP0].w == x
      {
        assert old(slots[x.active - HEAP0].w) == x;
      }
    }

    /** `ev_stop` ends the exception. */
    twostate lemma Stopped(w: Watcher)
      requires old(gone == {w} && Indexed()) && gone == {} && w in watchers && w.active == 0 && slots == old(slots)
      requires forall x :: x in watchers && x != w ==> x.active == old(x.active)
      ensures Indexed() && Running() == old(Running()) - {w}
    {
      StoppedSlots(w);
      StoppedWatchers(w);
    }

    twostate lemma StoppedSlots(w: Watcher)
      requires old(gone == {w} && SlotsNamed()) && gone == {} && slots == old(slots)
      requires forall x :: x in watchers && x != w ==> x.active == old(x.active)
      ensures SlotsNamed()
    {
      forall i | 0 <= i < |slots|
        ensures slots[i].w in watchers && slots[i].w.active == i + HEAP0
      {
        assert old(slots[i].w.active) == i + HEAP0;
      }
    }

    twostate lemma StoppedWatchers(w: Watcher)
      requires old(gone == {w} && WatchersNamed()) && gone == {} && slots == old(slots) && w.active == 0
      requires forall x :: x in watchers && x != w ==> x.active == old(x.active)
      ensures WatchersNamed()
    {
    }

    twostate lemma NewSlot(e: Anhe)
      requires gone == old(gone)
      requires old(Indexed()) && gone == {} && e.w in watchers && old(e.w.active) == 0
      requires slots == old(slots) + [e] && e.w.active == |slots| + HEAP0 - 1
      requires forall x :: x in watchers && x != e.w ==> x.active == old(x.active)
      ensures Hole(|slots| - 1, e)
    {
      NewHoleSlots(e);
      NewHoleWatchers(e);
    }

    twostate lemma NewHoleSlots(e: Anhe)
      requires gone == old(gone)
      requires old(Indexed()) && old(e.w.active) == 0 && slots == old(slots) + [e]
      requires forall x :: x in watchers && x != e.w ==> x.active == old(x.active)
      ensures HoleSlots(|slots| - 1, e.w)
    {
    }

    twostate lemma NewHoleWatchers(e: Anhe)
      requires gone == old(gone)
      requires old(Indexed()) && slots == old(slots) + [e]
      requires forall x :: x in watchers && x != e.w ==> x.active == old(x.active)
      ensures HoleWatchers(|slots| - 1, e.w)
    {
    }

    twostate lemma RunningMore(w: Watcher)
      requires w in watchers && w.active != 0
      requires forall x :: x in watchers && x != w ==> x.active == old(x.active)
      ensures Running() == old(Running()) + {w}
    {
    }

    lemma RunningIs(w: Watcher)
      requires w in watchers
      ensures w in Running() <==> w.active != 0
    {
    }

    lemma InFlight(k: nat, he: Anhe)
      requires Hole(k, he)
      ensures he.w in watchers && he.w !in gone && he.w.active != 0
    {
    }

    lemma InHole(k: nat, m: nat, he: Anhe)
      requires k < |slots| && m < |slots| && k != m && Hole(k, he)
      ensures slots[m].w in watchers && slots[m].w !in gone && slots[m].w != he.w && slots[m].w.active == m + HEAP0
    {
    }

    twostate lemma HoleMoves(new k: nat, new m: nat, he: Anhe)
      requires gone == old(gone)
      requires k < old(|slots|) && m < old(|slots|) && k != m && old(Hole(k, he))
      requires slots == old(slots)[k := old(slots)[m]] && slots[m].w.active == k + HEAP0
      requires forall w :: w in watchers && w != slots[m].w ==> w.active == old(w.active)
      ensures Hole(m, he)
    {
      HoleSlotsMove(k, m, he.w);
      HoleWatchersMove(k, m, he.w);
    }

    twostate lemma HoleSlotsMove(new k: nat, new m: nat, flying: Watcher)
      requires gone == old(gone)
      requires k < old(|slots|) && m < old(|slots|) && k != m && old(HoleSlots(k, flying))
      requires slots == old(slots)[k := old(slots)[m]] && slots[m].w.active == k + HEAP0
      requires forall w :: w in watchers && w != slots[m].w ==> w.active == old(w.active)
      ensures HoleSlots(m, flying)
    {
    }

    twostate lemma HoleWatchersMove(new k: nat, new m: nat, flying: Watcher)
      requires gone == old(gone)
      requires k < old(|slots|) && m < old(|slots|) && k != m && old(HoleWatchers(k, flying))
      requires old(slots[m].w.active) == m + HEAP0
      requires slots == old(slots)[k := old(slots)[m]] && slots[m].w.active == k + HEAP0
      requires forall w :: w in watchers && w != slots[m].w ==> w.active == old(w.active)
      ensures HoleWatchers(m, flying)
    {
    }

    twostate lemma Settled(new k: nat, he: Anhe)
      requires gone == old(gone)
      requires k < old(|slots|) && old(Hole(k, he))
      requires slots == old(slots)[k := he] && he.w.active == k + HEAP0
      requires forall w :: w in watchers && w != he.w ==> w.active == old(w.active)
      ensures Indexed()
    {
      SettledSlots(k, he);
      SettledWatchers(k, he);
    }

    twostate lemma SettledSlots(new k: nat, he: Anhe)
      requires gone == old(gone)
      requires k < old(|slots|) && he.w in watchers && he.w !in gone && old(HoleSlots(k, he.w))
      requires slots == old(slots)[k := he] && he.w.active == k + HEAP0
      requires forall w :: w in watchers && w != he.w ==> w.active == old(w.active)
      ensures SlotsNamed()
    {
    }

    twostate lemma SettledWatchers(new k: nat, he: Anhe)
      requires gone == old(gone)
      requires k < old(|slots|) && old(HoleWatchers(k, he.w))
      requires slots == old(slots)[k := he] && he.w.active == k + HEAP0
      requires forall w :: w in watchers && w != he.w ==> w.active == old(w.active)
      ensures WatchersNamed()
    {
    }
  }

  lemma OrderedNone(h: seq<Anhe>)
    ensures OrderedTo(h, 0)
  {
  }

  lemma OrderedGrows(h: seq<Anhe>, n: nat)
    requires n < |h| && OrderedTo(h, n)
    ensures UpOk(h, n + 1, n)
  {
  }

  /** The entries other than the one in slot `k`. */
  ghost function Without(h: seq<Anhe>, k: int): multiset<Anhe>
    requires 0 <= k < |h|
  {
    multiset(h) - multiset{h[k]}
  }

  lemma Dropped(h: seq<Anhe>, k: nat)
    requires k < |h|
    ensures k < |h| - 1 ==> multiset(h[..|h| - 1][k := h[|h| - 1]]) == Without(h, k)
    ensures k == |h| - 1 ==> multiset(h[..|h| - 1]) == Without(h, k)
  {
    assert h == h[..|h| - 1] + [h[|h| - 1]];
  }

  /** With `he` in slot `k`, `h` has the entries `was`, and only the edges below `k` may be wrong. */
  ghost predicate Sinking(h: seq<Anhe>, k: nat, he: Anhe, was: multiset<Anhe>) {
    k < |h| && multiset(h[k := he]) == was && DownOk(h[k := he], k)
  }

  /** Likewise for the edge above `k`, among the first `n` slots. */
  ghost predicate Rising(h: seq<Anhe>, n: nat, k: nat, he: Anhe, was: multiset<Anhe>) {
    k < n <= |h| && multiset(h[k := he]) == was && UpOk(h[k := he], n, k)
  }

  lemma SinkStart(h: seq<Anhe>, k: nat)
    requires k < |h| && DownOk(h, k)
    ensures Sinking(h, k, h[k], multiset(h))
  {
    assert h == h[k := h[k]];
  }

  lemma SinkNext(h: seq<Anhe>, k: nat, m: nat, he: Anhe, was: multiset<Anhe>)
    requires Sinking(h, k, he, was) && 4 * k + 1 <= m < |h| && m <= 4 * k + 4 && h[m].at < he.at
    requires forall c :: 4 * k + 1 <= c <= 4 * k + 4 && c < |h| ==> h[m].at <= h[c].at
    ensures Sinking(h[k := h[m]], m, he, was)
  {
    hide DownOk;
    var full := h[k := he];
    SinkKeeps(full, k, m);
    assert Swapped(full, k, m) == h[k := h[m]][m := he];
  }

  lemma SinkEnd(h: seq<Anhe>, k: nat, he: Anhe, was: multiset<Anhe>)
    requires Sinking(h, k, he, was)
    requires forall c :: 4 * k + 1 <= c <= 4 * k + 4 && c < |h| ==> he.at <= h[c].at
    ensures k < |h| && Ordered(h[k := he]) && multiset(h[k := he]) == was
  {
    SinkDone(h[k := he], k);
  }

  lemma RiseStart(h: seq<Anhe>, n: nat, k: nat)
    requires k < n <= |h| && UpOk(h, n, k)
    ensures Rising(h, n, k, h[k], multiset(h))
  {
    assert h == h[k := h[k]];
  }

  lemma RiseNext(h: seq<Anhe>, n: nat, k: nat, he: Anhe, was: multiset<Anhe>)
    requires Rising(h, n, k, he, was) && k > 0 && he.at < h[Parent(k)].at
    ensures Rising(h[k := h[Parent(k)]], n, Parent(k), he, was)
  {
    hide UpOk;
    var full := h[k := he];
    RiseKeeps(full, n, k);
    assert Swapped(full, k, Parent(k)) == h[k := h[Parent(k)]][Parent(k) := he];
  }

  lemma RiseEnd(h: seq<Anhe>, n: nat, k: nat, he: Anhe, was: multiset<Anhe>)
    requires Rising(h, n, k, he, was) && (k > 0 ==> h[Parent(k)].at <= he.at)
    ensures OrderedTo(h[k := he], n) && multiset(h[k := he]) == was
  {
    RiseDone(h[k := he], n, k);
  }
}
