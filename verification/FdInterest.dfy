/** Interest in file descriptors (`libev/ev.c`): watchers are listed per descriptor, changes are noted in `fdchanges`,
    and `fd_reify` tells the backend. The backend may find a descriptor unusable and call back through `fd_kill`. */
module FdInterest {

  import opened Pending

  const UNUSABLE: bv32 := EV_ERROR | EV_READ | EV_WRITE

  /** `ANFD`; the list of watchers that starts at `head` as a sequence. */
  datatype Anfd = Anfd(head: seq<Watcher>, events: set<Bit>, reify: set<Bit>)

  type Table = map<nat, set<Bit>>

  /** What a backend has to hold after it was told `nev` about `fd`. */
  function Told(t: Table, fd: nat, nev: set<Bit>): Table {
    if nev == {} then t - {fd} else t[fd := nev]
  }

  /** Pending events after the watchers in `dead` were stopped and told so. */
  function WithErrors(m: Owed, dead: set<Watcher>): Owed {
    m + map w | w in dead :: UNUSABLE
  }

  lemma OneError(m: Owed, dead: set<Watcher>, w: Watcher)
    ensures With(WithErrors(m, dead) - {w}, w, UNUSABLE) == WithErrors(m, dead + {w})
  {
    OrNone(UNUSABLE);
  }

  lemma MoreErrors(m: Owed, a: set<Watcher>, b: set<Watcher>)
    ensures WithErrors(WithErrors(m, a), b) == WithErrors(m, a + b)
    ensures WithErrors(m, {}) == m
  {
  }

  function Holds(t: Table, fd: nat): set<Bit> {
    if fd in t then t[fd] else {}
  }

  class Fds {
    ghost const watchers: set<Watcher>     // the io watchers
    const q: Queues
    var anfds: seq<Anfd>
    var fdchanges: seq<nat>
    var table: Table                       // what the backend (the kernel, or its own tables) holds

    ghost predicate ListOk(head: seq<Watcher>, fd: nat) reads watchers`active, watchers`events {
      && (forall k :: 0 <= k < |head| ==>
              head[k] in watchers && head[k].fd == fd && head[k].active == 1 && head[k].events <= {Read, Write})
      && (forall j, k :: 0 <= j < k < |head| ==> head[j] != head[k])
    }

    /** The OR of the masks of the watchers in a list. */
    ghost function Mask(head: seq<Watcher>): (m: set<Bit>) reads watchers`events {
      set w, b | w in head && w in watchers && b in w.events :: b
    }

    /** Running watchers are listed, exactly once, with their descriptor. */
    ghost predicate Lists() reads this`anfds, watchers`active, watchers`events {
      && (forall fd :: 0 <= fd < |anfds| ==> ListOk(anfds[fd].head, fd))
      && (forall w :: w in watchers && w.active != 0 ==> w.fd < |anfds| && w in anfds[w.fd].head)
    }

    ghost predicate Queued(fd: nat, from: nat) reads this`fdchanges {
      exists j :: from <= j < |fdchanges| && fdchanges[j] == fd
    }

    /** From position `from` on, `fdchanges` holds each descriptor with pending changes exactly once, and no other. */
    ghost predicate Changes(from: nat) reads this`anfds, this`fdchanges {
      && from <= |fdchanges|
      && (forall j :: from <= j < |fdchanges| ==> fdchanges[j] < |anfds| && anfds[fdchanges[j]].reify != {})
      && (forall j, k :: from <= j < k < |fdchanges| ==> fdchanges[j] != fdchanges[k])
      && (forall fd :: 0 <= fd < |anfds| && anfds[fd].reify != {} ==> Queued(fd, from))
    }

    /** A descriptor without pending changes has the mask of its watchers. */
    ghost predicate Masks() reads this`anfds, watchers`events {
      forall fd :: 0 <= fd < |anfds| && anfds[fd].reify == {} ==> anfds[fd].events == Mask(anfds[fd].head)
    }

    /** The backend holds what it was last told about `fd`. */
    predicate Agrees(fd: nat) reads this`anfds, this`table {
      fd < |anfds| && if anfds[fd].events == {} then fd !in table else fd in table && table[fd] == anfds[fd].events
    }

    /** It dropped `fd`, and has yet to be told that the watchers are gone. */
    predicate Dropped(fd: nat) reads this`anfds, this`table {
      fd < |anfds| && fd !in table && anfds[fd].events != {} && anfds[fd].reify != {} && anfds[fd].head == []
    }

    ghost predicate AllAgree() reads this`anfds, this`table {
      forall fd :: 0 <= fd < |anfds| ==> Agrees(fd)
    }

    ghost predicate Backend() reads this`anfds, this`table {
      && (forall fd :: fd in table ==> fd < |anfds|)
      && (forall fd :: 0 <= fd < |anfds| ==> Agrees(fd) || Dropped(fd))
    }

    ghost predicate Valid()
      reads this`anfds, this`fdchanges, this`table, watchers`active, watchers`events, q`pendings, q.watchers`pending
    {
      && watchers <= q.watchers && q.Valid()
      && Lists() && Changes(0) && Masks() && Backend() && AllAgree()
    }

    constructor (ghost watchers: set<Watcher>, q: Queues)
      requires watchers <= q.watchers && q.Valid() && forall w :: w in watchers ==> w.active == 0
      ensures Valid() && this.watchers == watchers && this.q == q && table == map[]
    {
      this.watchers, this.q, anfds, fdchanges, table := watchers, q, [], [], map[];
    }

    /** `fd_change` */
    method FdChange(fd: nat, flags: set<Bit>, ghost from: nat)
      requires fd < |anfds| && flags != {} && Changes(from)
      modifies this`anfds, this`fdchanges
      ensures Changes(from)
      ensures anfds == old(anfds)[fd := old(anfds)[fd].(reify := old(anfds)[fd].reify + flags)]
      ensures fdchanges == old(fdchanges) + if old(anfds)[fd].reify == {} then [fd] else []
    {
      var reify := anfds[fd].reify;
      anfds := anfds[fd := anfds[fd].(reify := reify + flags)];
      if reify == {} {
        fdchanges := fdchanges + [fd];
        assert fdchanges[|fdchanges| - 1] == fd;
      }
      forall x | 0 <= x < |anfds| && anfds[x].reify != {}
        ensures Queued(x, from)
      {
        if x != fd || reify != {} {
          assert old(Queued(x, from));
          var j :| from <= j < old(|fdchanges|) && old(fdchanges)[j] == x;
          assert fdchanges[j] == x;
        }
      }
    }

    /** One element is taken out of the list, the others keep their order. */
    ghost predicate Unlinked(was: seq<Watcher>, now: seq<Watcher>, elem: Watcher) {
      exists k :: 0 <= k < |was| && was[k] == elem && now == was[..k] + was[k + 1..]
    }

    /** `wlist_del` */
    method WlistDel(head: seq<Watcher>, elem: Watcher) returns (r: seq<Watcher>)
      ensures elem !in head ==> r == head
      ensures elem in head ==> Unlinked(head, r, elem)
    {
      var k := 0;
      while k < |head|
        invariant 0 <= k <= |head| && elem !in head[..k]
      {
        if head[k] == elem {
          r := head[..k] + head[k + 1..];
          assert Unlinked(head, r, elem);
          return;
        }
        k := k + 1;
      }
      assert head[..k] == head;
      r := head;
    }

    /** Everything but the agreement with the backend. */
    ghost predicate Loose(from: nat)
      reads this`anfds, this`fdchanges, watchers`active, watchers`events, q`pendings, q.watchers`pending
    {
      && watchers <= q.watchers && q.Valid()
      && Lists() && Changes(from) && Masks()
    }

    twostate predicate OthersSame(new fd: nat) reads this`anfds {
      && |anfds| == |old(anfds)| && fd < |anfds|
      && anfds[fd].events == old(anfds)[fd].events
      && forall x :: 0 <= x < |anfds| && x != fd ==> anfds[x] == old(anfds)[x]
    }

    /** `ev_io_stop` */
    method IoStop(w: Watcher, ghost from: nat)
      requires Loose(from) && w in watchers
      modifies this`anfds, this`fdchanges, w`active, q`pendings, w`pending
      ensures Loose(from) && w.active == 0 && w.pending == 0
      ensures q.Pending() == old(q.Pending()) - {w}
      ensures old(w.active) == 0 ==> anfds == old(anfds) && fdchanges == old(fdchanges)
      ensures old(w.active) != 0 ==>
        && w.fd < |anfds| && OthersSame(w.fd)
        && anfds[w.fd].reify == old(anfds)[w.fd].reify + {AnfdReify}
        && Unlinked(old(anfds)[w.fd].head, anfds[w.fd].head, w)
        && (forall x :: x in anfds[w.fd].head <==> x in old(anfds)[w.fd].head && x != w)
      ensures old(Valid()) && from == 0 ==> Valid()
    {
      hide Queues.Valid, Queues.Pending, Changes, Masks, Lists, Agrees, Dropped, Unlinked;
      var _ := q.ClearPending(w);
      if w.active == 0 {
        return;
      }
      ListedAt(w);
      label Cleared:
      var fd := w.fd;
      var head := WlistDel(anfds[fd].head, w);
      RemovedFrom(anfds[fd].head, w, head);
      anfds := anfds[fd := anfds[fd].(head := head)];
      w.active := 0;
      ListsLess(w);
      ChangesSame(from);
      label Unlisted:
      FdChange(fd, {AnfdReify}, from);
      ListsSame@Unlisted();
      MasksSame(fd);
      if old(Valid()) && from == 0 { AgreesSame(); }
    }

    twostate lemma AgreesSame()
      requires |old(anfds)| <= |anfds| && table == old(table)
               && (forall x :: 0 <= x < |old(anfds)| ==> anfds[x].events == old(anfds)[x].events)
      requires forall x :: |old(anfds)| <= x < |anfds| ==> anfds[x].events == {}
      requires old(Backend()) && forall fd :: 0 <= fd < |old(anfds)| ==> old(Agrees(fd))
      ensures Backend() && forall fd :: 0 <= fd < |anfds| ==> Agrees(fd)
    {
      forall fd | 0 <= fd < |anfds|
        ensures Agrees(fd)
      {
        if fd < |old(anfds)| { assert old(Agrees(fd)); }
      }
    }

    twostate lemma ListsLess(w: Watcher)
      requires old(Lists()) && w in watchers && old(w.active) != 0 && w.active == 0 && w.fd < |anfds| == |old(anfds)|
      requires forall x :: x in watchers && x != w ==> x.active == old(x.active)
      requires forall x :: x in watchers ==> x.events == old(x.events)
      requires forall x :: 0 <= x < |anfds| && x != w.fd ==> anfds[x] == old(anfds)[x]
      requires forall x :: x in anfds[w.fd].head <==> x in old(anfds)[w.fd].head && x != w
      requires forall j, k :: 0 <= j < k < |anfds[w.fd].head| ==> anfds[w.fd].head[j] != anfds[w.fd].head[k]
      ensures Lists()
    {
      forall fd | 0 <= fd < |anfds|
        ensures ListOk(anfds[fd].head, fd)
      {
        assert old(ListOk(anfds[fd].head, fd));
        if fd == w.fd {
          var head := anfds[fd].head;
          forall k | 0 <= k < |head|
            ensures head[k] in watchers && head[k].fd == fd && head[k].active == 1 && head[k].events <= {Read, Write}
          {
            assert head[k] in old(anfds)[fd].head;
          }
        }
      }
    }

    twostate lemma ListsSame()
      requires old(Lists()) && |anfds| == |old(anfds)|
      requires forall x :: x in watchers ==> x.active == old(x.active) && x.events == old(x.events)
      requires forall x :: 0 <= x < |anfds| ==> anfds[x].head == old(anfds)[x].head
      ensures Lists()
    {
      forall fd | 0 <= fd < |anfds|
        ensures ListOk(anfds[fd].head, fd)
      {
        assert old(ListOk(anfds[fd].head, fd));
      }
    }

    twostate lemma ChangesSame(new from: nat)
      requires old(Changes(from)) && |anfds| == |old(anfds)| && fdchanges == old(fdchanges)
      requires forall x :: 0 <= x < |anfds| ==> anfds[x].reify == old(anfds)[x].reify
      ensures Changes(from)
    {
      forall fd | 0 <= fd < |anfds| && anfds[fd].reify != {}
        ensures Queued(fd, from)
      {
        assert old(Queued(fd, from));
      }
    }

    twostate lemma MasksSame(new fd: nat)
      requires old(Masks()) && |anfds| == |old(anfds)| && fd < |anfds| && anfds[fd].reify != {}
      requires forall x :: x in watchers ==> x.events == old(x.events)
      requires forall x :: 0 <= x < |anfds| && x != fd ==> anfds[x] == old(anfds)[x]
      ensures Masks()
    {
    }

    lemma ListedAt(w: Watcher)
      requires Lists() && w in watchers && w.active != 0
      ensures w.fd < |anfds| && w in anfds[w.fd].head && ListOk(anfds[w.fd].head, w.fd)
    {
    }

    lemma RemovedFrom(head: seq<Watcher>, w: Watcher, r: seq<Watcher>)
      requires w in head && ListOk(head, w.fd)
      requires Unlinked(head, r, w)
      ensures |r| == |head| - 1 && forall x :: x in r <==> x in head && x != w
      ensures forall j, k :: 0 <= j < k < |r| ==> r[j] != r[k]
    {
      var k :| 0 <= k < |head| && head[k] == w && r == head[..k] + head[k + 1..];
      forall x
        ensures x in r <==> x in head && x != w
      {
        if x in head && x != w {
          var j :| 0 <= j < |head| && head[j] == x;
          assert r[if j < k then j else j - 1] == x;
        }
        if x in r {
          var j :| 0 <= j < |r| && r[j] == x;
          assert head[if j < k then j else j + 1] == x;
        }
      }
    }

    /** `array_needsize` with `array_init_zero` */
    method Grow(size: nat)
      requires Valid()
      modifies this`anfds
      ensures Valid() && |anfds| == if |old(anfds)| < size then size else |old(anfds)|
      ensures forall x :: 0 <= x < |old(anfds)| ==> anfds[x] == old(anfds)[x]
      ensures forall x :: |old(anfds)| <= x < |anfds| ==> anfds[x] == Anfd([], {}, {})
    {
      hide Queues.Valid;
      if |anfds| < size {
        anfds := anfds + seq(size - |anfds|, i => Anfd([], {}, {}));
        ListsGrown();
        ChangesGrown();
        MasksGrown();
        AgreesSame();
      }
    }

    twostate lemma ListsGrown()
      requires old(Lists()) && |old(anfds)| <= |anfds|
      requires forall x :: x in watchers ==> x.active == old(x.active) && x.events == old(x.events)
      requires forall x :: 0 <= x < |old(anfds)| ==> anfds[x] == old(anfds)[x]
      requires forall x :: |old(anfds)| <= x < |anfds| ==> anfds[x] == Anfd([], {}, {})
      ensures Lists()
    {
      forall fd | 0 <= fd < |anfds|
        ensures ListOk(anfds[fd].head, fd)
      {
        if fd < |old(anfds)| { assert old(ListOk(anfds[fd].head, fd)); }
      }
    }

    twostate lemma ChangesGrown()
      requires old(Changes(0)) && |old(anfds)| <= |anfds| && fdchanges == old(fdchanges)
      requires forall x :: 0 <= x < |old(anfds)| ==> anfds[x] == old(anfds)[x]
      requires forall x :: |old(anfds)| <= x < |anfds| ==> anfds[x] == Anfd([], {}, {})
      ensures Changes(0)
    {
      forall fd | 0 <= fd < |anfds| && anfds[fd].reify != {}
        ensures Queued(fd, 0)
      {
        assert old(Queued(fd, 0));
      }
    }

    twostate lemma MasksGrown()
      requires old(Masks()) && |old(anfds)| <= |anfds|
      requires forall x :: x in watchers ==> x.events == old(x.events)
      requires forall x :: 0 <= x < |old(anfds)| ==> anfds[x] == old(anfds)[x]
      requires forall x :: |old(anfds)| <= x < |anfds| ==> anfds[x] == Anfd([], {}, {})
      ensures Masks()
    {
    }

    /** `ev_io_start` */
    method IoStart(w: Watcher)
      requires Valid() && w in watchers && (w.active == 0 ==> w.events <= {Read, Write, IoFdSet})
      modifies this`anfds, this`fdchanges, w`active, w`events
      ensures Valid() && w.active != 0
      ensures old(w.active) != 0 ==> anfds == old(anfds) && fdchanges == old(fdchanges) && w.events == old(w.events)
      ensures old(w.active) == 0 ==> w.events == old(w.events) - {IoFdSet} && w.fd < |anfds|
      ensures old(w.active) == 0 ==>
        var was := if w.fd < |old(anfds)| then old(anfds)[w.fd] else Anfd([], {}, {});
        anfds[w.fd] == Anfd([w] + was.head, was.events, was.reify + (old(w.events) * {IoFdSet} + {AnfdReify}))
      ensures |anfds| >= |old(anfds)|
      ensures forall x :: 0 <= x < |old(anfds)| && x != w.fd ==> anfds[x] == old(anfds)[x]
      ensures forall x :: |old(anfds)| <= x < |anfds| && x != w.fd ==> anfds[x] == Anfd([], {}, {})
    {
      if w.active != 0 { return; }
      Grow(w.fd + 1);
      Enlist(w);
    }

    method Enlist(w: Watcher)
      requires Valid() && w in watchers && w.active == 0 && w.events <= {Read, Write, IoFdSet} && w.fd < |anfds|
      modifies this`anfds, this`fdchanges, w`active, w`events
      ensures Valid() && w.active != 0 && w.events == old(w.events) - {IoFdSet} && |anfds| == |old(anfds)|
      ensures var was := old(anfds)[w.fd];
        anfds[w.fd] == Anfd([w] + was.head, was.events, was.reify + (old(w.events) * {IoFdSet} + {AnfdReify}))
      ensures forall x :: 0 <= x < |anfds| && x != w.fd ==> anfds[x] == old(anfds)[x]
    {
      hide Queues.Valid, Changes, Masks, Lists, Agrees, Dropped;
      w.active := 1;
      anfds := anfds[w.fd := anfds[w.fd].(head := [w] + anfds[w.fd].head)];
      ChangesSame(0);
      FdChange(w.fd, w.events * {IoFdSet} + {AnfdReify}, 0);
      w.events := w.events - {IoFdSet};
      ListsMore(w);
      MasksMore(w);
      AgreesSame();
    }

    twostate lemma ListsMore(w: Watcher)
      requires old(Lists()) && w in watchers && old(w.active) == 0 && w.active == 1 && w.fd < |anfds| == |old(anfds)|
               && w.events <= {Read, Write}
      requires forall x :: x in watchers && x != w ==> x.active == old(x.active) && x.events == old(x.events)
      requires forall x :: 0 <= x < |anfds| && x != w.fd ==> anfds[x] == old(anfds)[x]
      requires anfds[w.fd].head == [w] + old(anfds)[w.fd].head
      ensures Lists()
    {
      forall fd | 0 <= fd < |anfds|
        ensures ListOk(anfds[fd].head, fd)
      {
        assert old(ListOk(anfds[fd].head, fd));
        if fd == w.fd {
          assert forall k :: 0 <= k < |old(anfds)[fd].head| ==> old(anfds)[fd].head[k] != w;
        }
      }
      forall x | x in watchers && x.active != 0
        ensures x.fd < |anfds| && x in anfds[x.fd].head
      {
        if x == w { assert anfds[x.fd].head[0] == x; }
      }
    }

    twostate lemma MasksMore(w: Watcher)
      requires old(Masks()) && old(Lists()) && w in watchers && old(w.active) == 0 && w.fd < |anfds| == |old(anfds)|
               && anfds[w.fd].reify != {}
      requires forall x :: x in watchers && x != w ==> x.events == old(x.events)
      requires forall x :: 0 <= x < |anfds| && x != w.fd ==> anfds[x] == old(anfds)[x]
      ensures Masks()
    {
      forall fd | 0 <= fd < |anfds| && anfds[fd].reify == {}
        ensures anfds[fd].events == Mask(anfds[fd].head)
      {
        assert old(ListOk(anfds[fd].head, fd));
        assert w !in anfds[fd].head;
        assert old(Mask(anfds[fd].head)) == Mask(anfds[fd].head);
      }
    }

    ghost function Running(): set<Watcher> reads watchers`active {
      set w | w in watchers && w.active != 0
    }

    ghost function ListedSet(fd: nat): set<Watcher> reads this`anfds {
      if fd < |anfds| then set w | w in anfds[fd].head else {}
    }

    /** `fd_kill` */
    method FdKill(fd: nat, ghost from: nat)
      requires Loose(from) && fd < |anfds|
      modifies this`anfds, this`fdchanges, watchers`active, q`pendings, q.watchers`pending
      ensures Loose(from) && OthersSame(fd) && anfds[fd].head == []
      ensures anfds[fd].reify == old(anfds)[fd].reify + if old(anfds)[fd].head == [] then {} else {AnfdReify}
      ensures q.Pending() == WithErrors(old(q.Pending()), old(ListedSet(fd)))
      ensures Running() == old(Running()) - old(ListedSet(fd)) && old(ListedSet(fd)) <= old(Running())
      ensures old(anfds)[fd].head == [] ==> fdchanges == old(fdchanges)
      ensures old(Valid()) && from == 0 ==> Valid()
    {
      hide Queues.Valid, Queues.Pending, Changes, Masks, Lists, Running, WithErrors;
      ghost var all := ListedSet(fd);
      ghost var dead: set<Watcher> := {};
      MoreErrors(q.Pending(), {}, {});
      ListedRun(fd);
      while anfds[fd].head != []
        invariant Loose(from) && OthersSame(fd)
        invariant dead + ListedSet(fd) == all && dead !! ListedSet(fd)
        invariant anfds[fd].reify == old(anfds)[fd].reify + if dead == {} then {} else {AnfdReify}
        invariant q.Pending() == WithErrors(old(q.Pending()), dead)
        invariant Running() == old(Running()) - dead && all <= old(Running())
        invariant dead == {} ==> anfds == old(anfds) && fdchanges == old(fdchanges)
        decreases |anfds[fd].head|
      {
        var w := anfds[fd].head[0];
        HeadIs(fd);
        label Before:
        ghost var head := anfds[fd].head;
        IoStop(w, from);
        OneShorter(head, anfds[fd].head, w);
        q.FeedEvent(w, UNUSABLE);
        OneError(old(q.Pending()), dead, w);
        RunningLess@Before(w);
        dead := dead + {w};
      }
      assert ListedSet(fd) == {};
      assert dead == all;
      if old(Valid()) && from == 0 { AgreesSame(); }
    }

    lemma OneShorter(was: seq<Watcher>, now: seq<Watcher>, w: Watcher)
      requires Unlinked(was, now, w)
      ensures |now| == |was| - 1
    {
    }

    lemma ListedRun(fd: nat)
      requires Lists() && fd < |anfds|
      ensures ListedSet(fd) <= Running()
    {
    }

    lemma HeadIs(fd: nat)
      requires Lists() && fd < |anfds| && anfds[fd].head != []
      ensures var w := anfds[fd].head[0]; w in watchers && w.fd == fd && w.active != 0 && w in ListedSet(fd)
    {
      assert ListOk(anfds[fd].head, fd);
    }

    twostate lemma RunningLess(w: Watcher)
      requires w.active == 0 && forall x :: x in watchers && x != w ==> x.active == old(x.active)
      ensures Running() == old(Running()) - {w}
    {
    }

    /** The loop in `fd_reify` that ORs the masks. */
    method OrMasks(head: seq<Watcher>) returns (events: set<Bit>)
      requires forall k :: 0 <= k < |head| ==> head[k] in watchers
      ensures events == Mask(head)
    {
      events := {};
      for k := 0 to |head|
        invariant forall b :: b in events <==> exists j :: 0 <= j < k && b in head[j].events
      {
        events := events + head[k].events;
      }
      forall b
        ensures b in events <==> b in Mask(head)
      {
        if b in Mask(head) {
          var w :| w in head && w in watchers && b in w.events;
          var j :| 0 <= j < |head| && head[j] == w;
        }
      }
    }

    ghost predicate AgreeBut(but: nat) reads this`anfds, this`table {
      forall fd :: 0 <= fd < |anfds| && fd != but ==> Agrees(fd)
    }

    ghost predicate BackendBut(but: nat) reads this`anfds, this`table {
      && (forall fd :: fd in table ==> fd < |anfds|)
      && (forall fd :: 0 <= fd < |anfds| && fd != but ==> Agrees(fd) || Dropped(fd))
    }

    /** `backend_modify`. A descriptor in `refuses` cannot be watched: the backend drops it and kills it. A backend
        that never does so is always told, as the old mask, what it holds. */
    method BackendModify(fd: nat, oev: set<Bit>, nev: set<Bit>, refuses: set<nat>, ghost from: nat)
      requires oev == Holds(table, fd) || (refuses != {} && fd !in table && nev == {})
      requires Loose(from) && BackendBut(fd) && (refuses == {} ==> AgreeBut(fd)) && fd < |anfds|
               && anfds[fd].events == nev
      requires anfds[fd].reify == {} && (nev != {} ==> anfds[fd].head != [])
      modifies this`anfds, this`fdchanges, this`table, watchers`active, q`pendings, q.watchers`pending
      ensures Loose(from) && Backend() && (refuses == {} ==> AllAgree()) && OthersSame(fd)
      ensures var dead := if fd in refuses && nev != {} then old(ListedSet(fd)) else {};
        && dead <= old(Running()) && Running() == old(Running()) - dead
        && q.Pending() == WithErrors(old(q.Pending()), dead)
      ensures fd in refuses && nev != {} ==> anfds[fd].head == [] && old(ListedSet(fd)) != {}
      ensures !(fd in refuses && nev != {}) ==>
                anfds == old(anfds) && fdchanges == old(fdchanges) && table == Told(old(table), fd, nev)
    {
      hide Queues.Valid, Queues.Pending, Changes, Masks, Lists, Running, WithErrors, AllAgree, AgreeBut;
      if fd in refuses && nev != {} {
        table := table - {fd};
        assert anfds[fd].head[0] in ListedSet(fd);
        FdKill(fd, from);
        ButDropped(fd);
      } else {
        table := Told(table, fd, nev);
        MoreErrors(q.Pending(), {}, {});
        ButTold(fd);
      }
    }

    twostate lemma ButDropped(new fd: nat)
      requires old(BackendBut(fd)) && OthersSame(fd) && table == old(table) - {fd}
      requires anfds[fd].events != {} && anfds[fd].reify != {} && anfds[fd].head == []
      ensures Backend()
    {
      forall x | 0 <= x < |anfds|
        ensures Agrees(x) || Dropped(x)
      {
        if x != fd { assert old(Agrees(x) || Dropped(x)); }
      }
    }

    twostate lemma ButTold(new fd: nat)
      requires old(BackendBut(fd)) && fd < |anfds| && anfds == old(anfds)
               && table == Told(old(table), fd, anfds[fd].events)
      ensures Backend() && (old(AgreeBut(fd)) ==> AllAgree())
    {
      forall x | 0 <= x < |anfds|
        ensures Agrees(x) || Dropped(x)
        ensures old(AgreeBut(fd)) ==> Agrees(x)
      {
        if x != fd { assert old(Agrees(x) || Dropped(x)); }
        if x != fd && old(AgreeBut(fd)) { assert old(Agrees(x)); }
      }
    }

    /** The backend has to be told, and what it is told to watch is something that it cannot watch. */
    ghost predicate Refused(a: Anfd, fd: nat, refuses: set<nat>) reads watchers`events {
      && fd in refuses && a.reify != {} && Mask(a.head) != {}
      && (a.events != Mask(a.head) || IoFdSet in a.reify)
    }

    /** The body of the loop in `fd_reify`; `dead` are the watchers it had to stop. */
    method ReifyOne(i: nat, refuses: set<nat>) returns (ghost dead: set<Watcher>)
      requires Loose(i) && Backend() && i < |fdchanges| && (refuses == {} ==> AllAgree())
      modifies this`anfds, this`fdchanges, this`table, watchers`active, q`pendings, q.watchers`pending
      ensures Loose(i + 1) && Backend() && (refuses == {} ==> AllAgree())
      ensures old(fdchanges[i]) < |anfds| && OneDone(old(anfds), anfds, old(fdchanges[i]), refuses)
      ensures dead <= old(Running()) && Running() == old(Running()) - dead
      ensures q.Pending() == WithErrors(old(q.Pending()), dead)
      ensures dead == {} ==> fdchanges == old(fdchanges)
    {
      hide Queues.Valid, Queues.Pending, Changes, Masks, Lists, Running, WithErrors, AllAgree, AgreeBut;
      var fd := fdchanges[i];
      ChangeAt(i);
      var oEvents, oReify := anfds[fd].events, anfds[fd].reify;
      var events := OrMasks(anfds[fd].head);
      anfds := anfds[fd := anfds[fd].(reify := {}, events := events)];
      ListsSame();
      ChangeDone(i);
      MasksDone(fd);
      if oEvents != events { oReify := {IoFdSet}; }
      if IoFdSet in oReify {
        Others(fd);
        NoneIsEmpty(fd);
        dead := if fd in refuses && events != {} then ListedSet(fd) else {};
        BackendModify(fd, oEvents, events, refuses, i + 1);
      } else {
        dead := {};
        StillBackend(fd);
        MoreErrors(q.Pending(), {}, {});
      }
    }

    lemma ChangeAt(i: nat)
      requires Changes(i) && Lists() && i < |fdchanges|
      ensures fdchanges[i] < |anfds| && anfds[fdchanges[i]].reify != {}
              && ListOk(anfds[fdchanges[i]].head, fdchanges[i])
    {
    }

    twostate lemma ChangeDone(new i: nat)
      requires old(Changes(i)) && i < |fdchanges| && fdchanges == old(fdchanges) && |anfds| == |old(anfds)|
      requires fdchanges[i] < |anfds| && anfds[fdchanges[i]].reify == {}
      requires forall x :: 0 <= x < |anfds| && x != fdchanges[i] ==> anfds[x] == old(anfds)[x]
      ensures Changes(i + 1)
    {
      forall x | 0 <= x < |anfds| && anfds[x].reify != {}
        ensures Queued(x, i + 1)
      {
        assert old(Queued(x, i));
      }
    }

    twostate lemma MasksDone(new fd: nat)
      requires old(Masks()) && fd < |anfds| == |old(anfds)| && anfds[fd].events == Mask(anfds[fd].head)
      requires forall x :: x in watchers ==> x.events == old(x.events)
      requires forall x :: 0 <= x < |anfds| && x != fd ==> anfds[x] == old(anfds)[x]
      ensures Masks()
    {
    }

    twostate lemma Others(new fd: nat)
      requires old(Backend()) && |anfds| == |old(anfds)| && table == old(table)
      requires forall x :: 0 <= x < |anfds| && x != fd ==> anfds[x] == old(anfds)[x]
      requires fd < |anfds| && anfds[fd].head == old(anfds)[fd].head
      ensures BackendBut(fd) && (old(AllAgree()) ==> AgreeBut(fd))
      ensures old(anfds)[fd].events == Holds(table, fd) || (!old(AllAgree()) && fd !in table && anfds[fd].head == [])
    {
      assert old(Agrees(fd) || Dropped(fd));
      forall x | 0 <= x < |anfds| && x != fd
        ensures Agrees(x) || Dropped(x)
        ensures old(AllAgree()) ==> Agrees(x)
      {
        assert old(Agrees(x) || Dropped(x));
        if old(AllAgree()) { assert old(Agrees(x)); }
      }
    }

    lemma NoneIsEmpty(fd: nat)
      requires fd < |anfds|
      ensures anfds[fd].head == [] ==> Mask(anfds[fd].head) == {}
    {
    }

    twostate lemma StillBackend(new fd: nat)
      requires old(Backend()) && fd < |anfds| == |old(anfds)| && table == old(table)
      requires anfds[fd].events == old(anfds)[fd].events == Mask(anfds[fd].head)
               && anfds[fd].head == old(anfds)[fd].head
      requires forall x :: 0 <= x < |anfds| && x != fd ==> anfds[x] == old(anfds)[x]
      ensures Backend() && (old(AllAgree()) ==> AllAgree())
    {
      NoneIsEmpty(fd);
      forall x | 0 <= x < |anfds|
        ensures Agrees(x) || Dropped(x)
        ensures old(AllAgree()) ==> Agrees(x)
      {
        assert old(Agrees(x) || Dropped(x));
        if old(AllAgree()) { assert old(Agrees(x)); }
      }
    }

    /** The descriptors that have watchers, with the masks. */
    ghost function Interest(): Table reads this`anfds, watchers`events {
      map fd | 0 <= fd < |anfds| && Mask(anfds[fd].head) != {} :: Mask(anfds[fd].head)
    }

    /** The running watchers of the descriptors that will be refused. */
    ghost function Doomed(refuses: set<nat>): set<Watcher>
      reads this`anfds, watchers`active, watchers`events
    {
      set w | w in watchers && w.active != 0 && w.fd < |anfds| && Refused(anfds[w.fd], w.fd, refuses)
    }

    /** `fd` was done; it keeps changes only if it was refused. */
    ghost predicate OneDone(a: seq<Anfd>, b: seq<Anfd>, fd: nat, refuses: set<nat>) reads watchers`events {
      && |a| == |b| && fd < |b|
      && (forall x :: 0 <= x < |b| && x != fd ==> b[x] == a[x])
      && b[fd].head == (if Refused(a[fd], fd, refuses) then [] else a[fd].head)
      && (b[fd].reify != {} ==> Refused(a[fd], fd, refuses))
    }

    /** Each descriptor is as it was, or done; one that was refused may come back, without watchers. */
    ghost predicate Progress(a: seq<Anfd>, b: seq<Anfd>, refuses: set<nat>) reads watchers`events {
      && |a| == |b|
      && forall fd :: 0 <= fd < |b| ==>
        || b[fd] == a[fd]
        || (b[fd].head == (if Refused(a[fd], fd, refuses) then [] else a[fd].head)
            && (b[fd].reify != {} ==> Refused(a[fd], fd, refuses)))
    }

    lemma ProgressStep(a: seq<Anfd>, b: seq<Anfd>, c: seq<Anfd>, fd: nat, refuses: set<nat>)
      requires Progress(a, b, refuses) && OneDone(b, c, fd, refuses)
      ensures Progress(a, c, refuses)
    {
    }

    /** When no changes are left, each descriptor is done. */
    lemma AllDone(a: seq<Anfd>, refuses: set<nat>)
      requires Progress(a, anfds, refuses) && Changes(|fdchanges|)
      ensures forall fd :: 0 <= fd < |anfds| ==>
        anfds[fd].reify == {} && anfds[fd].head == (if Refused(a[fd], fd, refuses) then [] else a[fd].head)
    {
      forall fd | 0 <= fd < |anfds|
        ensures anfds[fd].reify == {}
      {
        assert !Queued(fd, |fdchanges|);
      }
    }

    lemma InterestIs()
      requires Backend() && Masks() && forall fd :: 0 <= fd < |anfds| ==> anfds[fd].reify == {}
      ensures table == Interest() && forall fd :: 0 <= fd < |anfds| ==> Agrees(fd)
    {
      forall fd | 0 <= fd < |anfds|
        ensures Agrees(fd)
      {
        assert Agrees(fd) || Dropped(fd);
      }
      forall fd
        ensures fd in table <==> fd in Interest()
        ensures fd in table ==> table[fd] == Interest()[fd]
      {
        if 0 <= fd < |anfds| {
          assert Agrees(fd);
          assert anfds[fd].events == Mask(anfds[fd].head);
        }
      }
    }

    lemma SameRest(all: set<Watcher>, a: set<Watcher>, b: set<Watcher>)
      requires a <= all && b <= all && all - a == all - b
      ensures a == b
    {
      assert a == all - (all - a);
      assert b == all - (all - b);
    }

    twostate lemma DoomedStopped(refuses: set<nat>)
      requires old(Lists()) && Lists() && |anfds| == |old(anfds)| && Running() <= old(Running())
      requires forall w :: w in watchers ==> w.events == old(w.events)
      requires forall fd :: 0 <= fd < |anfds| ==>
        anfds[fd].head == if old(Refused(anfds[fd], fd, refuses)) then [] else old(anfds)[fd].head
      ensures Running() == old(Running()) - old(Doomed(refuses)) && old(Doomed(refuses)) <= old(Running())
    {
      forall w | w in old(Running())
        ensures w in Running() <==> w !in old(Doomed(refuses))
      {
        ListedAt2(w);
        RunningIs(w);
      }
    }

    twostate lemma ListedAt2(w: Watcher)
      requires old(Lists()) && w in watchers && old(w.active) != 0
      ensures w.fd < |old(anfds)| && w in old(anfds)[w.fd].head
    {
    }

    lemma RunningIs(w: Watcher)
      requires Lists() && w in watchers
      ensures w in Running() <==> w.fd < |anfds| && w in anfds[w.fd].head
    {
      if w.fd < |anfds| { assert ListOk(anfds[w.fd].head, w.fd); }
    }

    /** The loop of `fd_reify`; `dead` are the watchers that were stopped. */
    method ReifyAll(refuses: set<nat>) returns (ghost dead: set<Watcher>)
      requires Valid()
      modifies this`anfds, this`fdchanges, this`table, watchers`active, q`pendings, q.watchers`pending
      ensures Loose(|fdchanges|) && Backend() && Progress(old(anfds), anfds, refuses) && |anfds| == |old(anfds)|
      ensures dead <= old(Running()) && Running() == old(Running()) - dead
      ensures q.Pending() == WithErrors(old(q.Pending()), dead)
    {
      hide Queues.Valid, Queues.Pending, Changes, Masks, Lists, Running, WithErrors, Refused, Agrees, Dropped;
      hide Backend, Progress, OneDone, AllAgree;
      var i: nat := 0;
      ghost var was, all := anfds, Running();
      dead := {};
      MoreErrors(q.Pending(), {}, {});
      NoProgress(was, refuses);
      ChangesBound(0);
      while i < |fdchanges|
        invariant Loose(i) && Backend() && Progress(was, anfds, refuses) && i <= |fdchanges| && |anfds| == |was|
        invariant refuses == {} ==> AllAgree()
        invariant dead <= all && Running() == all - dead
        invariant q.Pending() == WithErrors(old(q.Pending()), dead)
        decreases |Running()|, |fdchanges| - i
      {
        ghost var mid, fd := anfds, fdchanges[i];
        ghost var more := ReifyOne(i, refuses);
        ProgressStep(was, mid, anfds, fd, refuses);
        SameSize(mid, fd, refuses);
        MoreErrors(old(q.Pending()), dead, more);
        dead := dead + more;
        i := i + 1;
        ChangesBound(i);
      }
    }

    /** `fd_reify`.  Afterwards nothing is left to tell, and the backend holds exactly what the watchers want, even when
        descriptors were killed on the way: their watchers, and no others, were stopped and got an error event. */
    method FdReify(refuses: set<nat>)
      requires Valid()
      modifies this`anfds, this`fdchanges, this`table, watchers`active, q`pendings, q.watchers`pending
      ensures Valid() && fdchanges == [] && table == Interest() && |anfds| == |old(anfds)|
      ensures forall fd :: 0 <= fd < |anfds| ==>
        anfds[fd].reify == {}
        && anfds[fd].head == (if old(Refused(anfds[fd], fd, refuses)) then [] else old(anfds)[fd].head)
      ensures Running() == old(Running()) - old(Doomed(refuses))
      ensures q.Pending() == WithErrors(old(q.Pending()), old(Doomed(refuses)))
    {
      hide Queues.Valid, Queues.Pending, Changes, Masks, Lists, Running, WithErrors, Refused, Agrees, Dropped;
      hide Backend, Progress, Doomed, Interest;
      ghost var was, all := anfds, Running();
      ghost var dead := ReifyAll(refuses);
      AllDone(was, refuses);
      DoomedStopped(refuses);
      SameRest(all, dead, old(Doomed(refuses)));
      InterestIs();
      fdchanges := [];
      NoChanges();
    }

    lemma SameSize(mid: seq<Anfd>, fd: nat, refuses: set<nat>)
      requires OneDone(mid, anfds, fd, refuses)
      ensures |mid| == |anfds|
    {
    }

    lemma NoProgress(a: seq<Anfd>, refuses: set<nat>)
      ensures Progress(a, a, refuses)
    {
    }

    lemma ChangesBound(i: nat)
      requires Changes(i)
      ensures i <= |fdchanges|
    {
    }

    lemma NoChanges()
      requires fdchanges == [] && forall fd :: 0 <= fd < |anfds| ==> anfds[fd].reify == {}
      ensures Changes(0)
    {
    }
  }
}
