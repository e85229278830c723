/** The poll backend of libev (`ev_poll.c`): a dense array of `pollfd`, and for each descriptor its index there. */
module PollTable {

  import opened Pending
  import opened FdInterest

  datatype PollBit = PollIn | PollOut

  datatype PollFd = PollFd(fd: nat, events: set<PollBit>)

  function ToPoll(ev: set<Bit>): (p: set<PollBit>) {
    (if Read in ev then {PollIn} else {}) + (if Write in ev then {PollOut} else {})
  }

  function FromPoll(p: set<PollBit>): (ev: set<Bit>) {
    (if PollIn in p then {Read} else {}) + (if PollOut in p then {Write} else {})
  }

  lemma {:induction false} PollBits(ev: set<Bit>)
    requires ev <= {Read, Write}
    ensures FromPoll(ToPoll(ev)) == ev && (ToPoll(ev) == {} <==> ev == {})
  {
    assert Read in ev ==> PollIn in ToPoll(ev);
    assert Write in ev ==> PollOut in ToPoll(ev);
    assert forall b :: b in ev ==> b == Read || b == Write;
  }

  /** Each index names a slot that names it back. */
  predicate Cross(polls: seq<PollFd>, idxs: seq<int>) {
    && (forall fd :: 0 <= fd < |idxs| ==> idxs[fd] == -1 || (0 <= idxs[fd] < |polls| && polls[idxs[fd]].fd == fd))
    && (forall i :: 0 <= i < |polls| ==> polls[i].fd < |idxs| && idxs[polls[i].fd] == i)
  }

  /** What `poll` will watch. */
  ghost function Watched(polls: seq<PollFd>, idxs: seq<int>): (t: Table)
    requires Cross(polls, idxs)
  {
    map fd: nat | fd < |idxs| && idxs[fd] != -1 :: FromPoll(polls[idxs[fd]].events)
  }

  predicate NonEmpty(polls: seq<PollFd>) {
    forall i :: 0 <= i < |polls| ==> polls[i].events != {}
  }

  lemma Longer(polls: seq<PollFd>, idxs: seq<int>, more: seq<int>)
    requires Cross(polls, idxs) && forall k :: 0 <= k < |more| ==> more[k] == -1
    ensures Cross(polls, idxs + more) && Watched(polls, idxs + more) == Watched(polls, idxs)
  {
  }

  lemma {:induction false} Replaced(polls: seq<PollFd>, idxs: seq<int>, fd: nat, nev: set<Bit>)
    requires Cross(polls, idxs) && NonEmpty(polls) && fd < |idxs| && idxs[fd] != -1 && nev <= {Read, Write} && nev != {}
    ensures var r := polls[idxs[fd] := PollFd(fd, ToPoll(nev))];
      Cross(r, idxs) && NonEmpty(r) && Watched(r, idxs) == Told(Watched(polls, idxs), fd, nev)
  {
    PollBits(nev);
  }

  lemma {:induction false} Appended(polls: seq<PollFd>, idxs: seq<int>, fd: nat, nev: set<Bit>)
    requires Cross(polls, idxs) && NonEmpty(polls) && fd < |idxs| && idxs[fd] == -1 && nev <= {Read, Write} && nev != {}
    ensures var r, x := polls + [PollFd(fd, ToPoll(nev))], idxs[fd := |polls|];
      Cross(r, x) && NonEmpty(r) && Watched(r, x) == Told(Watched(polls, idxs), fd, nev)
  {
    PollBits(nev);
  }

  /** The last slot moves into the gap, and its index with it. */
  lemma {:induction false} SwappedOut(polls: seq<PollFd>, idxs: seq<int>, fd: nat)
    requires Cross(polls, idxs) && NonEmpty(polls) && fd < |idxs| && idxs[fd] != -1 && idxs[fd] < |polls| - 1
    ensures var last := polls[|polls| - 1];
      var r, x := polls[idxs[fd] := last][..|polls| - 1], idxs[fd := -1][last.fd := idxs[fd]];
      Cross(r, x) && NonEmpty(r) && Watched(r, x) == Told(Watched(polls, idxs), fd, {})
  {
    var last := polls[|polls| - 1];
    assert idxs[last.fd] == |polls| - 1;
    var r, x := polls[idxs[fd] := last][..|polls| - 1], idxs[fd := -1][last.fd := idxs[fd]];
    forall k | 0 <= k < |x|
      ensures x[k] == -1 || (0 <= x[k] < |r| && r[x[k]].fd == k)
    {
      if x[k] != -1 && k != last.fd { assert polls[idxs[k]].fd == k; }
    }
  }

  lemma {:induction false} LastOut(polls: seq<PollFd>, idxs: seq<int>, fd: nat)
    requires Cross(polls, idxs) && NonEmpty(polls) && fd < |idxs| && idxs[fd] == |polls| - 1 && polls != []
    ensures var r, x := polls[..|polls| - 1], idxs[fd := -1];
      Cross(r, x) && NonEmpty(r) && Watched(r, x) == Told(Watched(polls, idxs), fd, {})
  {
    var r, x := polls[..|polls| - 1], idxs[fd := -1];
    forall k | 0 <= k < |x|
      ensures x[k] == -1 || (0 <= x[k] < |r| && r[x[k]].fd == k)
    {
      if x[k] != -1 { assert polls[idxs[k]].fd == k; }
    }
  }

  class Poll {
    var polls: seq<PollFd>
    var pollidxs: seq<int>

    ghost predicate Valid() reads this {
      Cross(polls, pollidxs) && NonEmpty(polls)
    }

    constructor ()
      ensures Valid() && Watched(polls, pollidxs) == map[]
    {
      polls, pollidxs := [], [];
    }

    /** `poll_modify`: it does what a backend must, given that the caller's old mask is what the table holds. */
    method Modify(fd: nat, oev: set<Bit>, nev: set<Bit>)
      requires Valid() && oev == Holds(Watched(polls, pollidxs), fd) && nev <= {Read, Write}
      modifies this
      ensures Valid() && Watched(polls, pollidxs) == Told(old(Watched(polls, pollidxs)), fd, nev)
    {
      hide Cross, NonEmpty, ToPoll, FromPoll, Watched, Holds, Told;
      if oev == nev {
        HoldsTold(polls, pollidxs, fd, nev);
        return;
      }
      if |pollidxs| <= fd {
        Longer(polls, pollidxs, seq(fd + 1 - |pollidxs|, i => -1));
        pollidxs := pollidxs + seq(fd + 1 - |pollidxs|, i => -1);
      }
      ghost var polls0, idxs0 := polls, pollidxs;
      var idx := pollidxs[fd];
      if idx < 0 {
        AtIndex(polls, pollidxs, fd);
        Appended(polls0, idxs0, fd, nev);
        idx := |polls|;
        pollidxs := pollidxs[fd := idx];
        polls := polls + [PollFd(fd, {})];
      } else {
        AtIndex(polls, pollidxs, fd);
        if nev != {} { Replaced(polls0, idxs0, fd, nev); }
      }
      assert polls[idx].fd == fd;
      if nev != {} {
        polls := polls[idx := PollFd(fd, ToPoll(nev))];
        assert idxs0[fd] == -1 ==> polls == polls0 + [PollFd(fd, ToPoll(nev))];
      } else {
        pollidxs := pollidxs[fd := -1];
        var last := polls[|polls| - 1];
        if idx < |polls| - 1 {
          AtSlot(polls0, idxs0, |polls0| - 1);
          SwappedOut(polls0, idxs0, fd);
          polls := polls[idx := last];
          pollidxs := pollidxs[last.fd := idx];
        } else {
          LastOut(polls0, idxs0, fd);
        }
        polls := polls[..|polls| - 1];
      }
    }
  }

  lemma AtIndex(polls: seq<PollFd>, idxs: seq<int>, fd: nat)
    requires Cross(polls, idxs) && fd < |idxs|
    ensures idxs[fd] == -1 || (0 <= idxs[fd] < |polls| && polls[idxs[fd]].fd == fd)
    ensures idxs[fd] == -1 ==> Holds(Watched(polls, idxs), fd) == {}
  {
  }

  lemma AtSlot(polls: seq<PollFd>, idxs: seq<int>, i: nat)
    requires Cross(polls, idxs) && i < |polls|
    ensures polls[i].fd < |idxs| && idxs[polls[i].fd] == i
  {
  }

  lemma HoldsTold(polls: seq<PollFd>, idxs: seq<int>, fd: nat, nev: set<Bit>)
    requires Cross(polls, idxs) && NonEmpty(polls) && nev == Holds(Watched(polls, idxs), fd)
    ensures Told(Watched(polls, idxs), fd, nev) == Watched(polls, idxs)
  {
    var t := Watched(polls, idxs);
    if fd in t {
      var e := polls[idxs[fd]].events;
      var b :| b in e;
      assert (if b == PollIn then Read else Write) in FromPoll(e);
    }
  }
}
