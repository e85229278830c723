/** Suspension in a rate-limit group (`bufferevent_ratelim.c`), one direction of traffic: member threads race with the
    group's refill.  The group lock nests inside the member locks, so while it is held member locks are only tried.
    One step is one access under the lock that protects it; a loop over the members is one step per member, in any
    order (which covers the random starting point). */
module GroupLimit {

  type Thread = nat
  type Bev = nat

  /** Who holds the group lock, and how far its loop over the members is. */
  datatype GroupOp =
    | Free
    | Suspending(holder: Thread, todo: set<Bev>)
    | Unsuspending(holder: Thread, todo: set<Bev>, again: bool)

  /** Between releasing the group lock and touching the member's own flags. */
  datatype Window =
    | Joining(suspend: bool)       // bufferevent_add_to_rate_limit_group
    | Leaving(unsuspend: bool)     // bufferevent_remove_from_rate_limit_group_internal

  datatype State = State(
    members: set<Bev>,
    suspended: bool,               // g->read_suspended
    pending: bool,                 // g->pending_unsuspend_read
    flagged: set<Bev>,             // members whose read_suspended has BEV_SUSPEND_BW_GROUP
    owner: map<Bev, Thread>,       // the member locks that are held
    window: map<Bev, Window>,      // members whose holder is inside a window
    freed: set<Bev>,               // bufferevents that are being destroyed
    op: GroupOp)

  ghost predicate Init(s: State) {
    s == State({}, false, false, {}, map[], map[], {}, Free)
  }

  /** Thread `t` is between two accesses of one function and does nothing else. */
  predicate Busy(s: State, t: Thread) {
    || (exists b :: b in s.window && b in s.owner && s.owner[b] == t)
    || (s.op != Free && s.op.holder == t)
  }

  /** `EVLOCK_TRY_LOCK` on a recursive lock. */
  predicate CanLock(s: State, t: Thread, b: Bev) {
    b !in s.owner || s.owner[b] == t
  }

  datatype Step =
    | Lock(t: Thread, b: Bev)
    | Unlock(t: Thread, b: Bev)
    | StartSuspend(t: Thread)      // _bev_group_suspend_reading
    | SuspendOne(b: Bev)
    | EndSuspend
    | StartUnsuspend(t: Thread)    // _bev_group_unsuspend_reading, when spending brought the limit above zero
    | RefillTick(t: Thread, enough: bool)  // _bev_group_refill_callback; the limit is (not) at least the least share
    | UnsuspendOne(b: Bev)
    | EndUnsuspend
    | GetMax(t: Thread, b: Bev)    // the group part of _bufferevent_get_rlim_max
    | Join(t: Thread, b: Bev)
    | JoinEnd(b: Bev)
    | Leave(t: Thread, b: Bev, unsuspend: bool)
    | LeaveEnd(b: Bev)

  function Unsuspend(s: State, t: Thread): State {
    s.(suspended := false, op := Unsuspending(t, s.members, false))
  }

  /** The guard in `_bev_group_refill_callback`. */
  predicate RefillActs(s: State, enough: bool) {
    s.pending || (s.suspended && enough)
  }

  ghost predicate Next(a: State, b: State, step: Step) {
    match step
    case Lock(t, v) =>
      && !Busy(a, t) && v !in a.owner && v !in a.freed
      && b == a.(owner := a.owner[v := t])
    case Unlock(t, v) =>
      && !Busy(a, t) && v in a.owner && a.owner[v] == t
      && b == a.(owner := a.owner - {v})
    case StartSuspend(t) =>
      && !Busy(a, t) && a.op == Free
      && b == a.(suspended := true, pending := false, op := Suspending(t, a.members))
    case SuspendOne(v) =>
      && a.op.Suspending? && v in a.op.todo
      && b == a.(flagged := if CanLock(a, a.op.holder, v) then a.flagged + {v} else a.flagged,
                 op := Suspending(a.op.holder, a.op.todo - {v}))
    case EndSuspend =>
      && a.op.Suspending? && a.op.todo == {}
      && b == a.(op := Free)
    case StartUnsuspend(t) =>
      && !Busy(a, t) && a.op == Free
      && b == Unsuspend(a, t)
    case RefillTick(t, enough) =>
      && !Busy(a, t) && a.op == Free
      && b == if RefillActs(a, enough) then Unsuspend(a, t) else a
    case UnsuspendOne(v) =>
      && a.op.Unsuspending? && v in a.op.todo
      && b == a.(flagged := if CanLock(a, a.op.holder, v) then a.flagged - {v} else a.flagged,
                 op := Unsuspending(a.op.holder, a.op.todo - {v}, a.op.again || !CanLock(a, a.op.holder, v)))
    case EndUnsuspend =>
      && a.op.Unsuspending? && a.op.todo == {}
      && b == a.(pending := a.op.again, op := Free)
    case GetMax(t, v) =>
      && !Busy(a, t) && a.op == Free && v in a.members && v in a.owner && a.owner[v] == t
      && b == a.(flagged := if a.suspended then a.flagged + {v} else a.flagged)
    case Join(t, v) =>
      && !Busy(a, t) && a.op == Free && v !in a.members && v !in a.freed && v in a.owner && a.owner[v] == t
      && b == a.(members := a.members + {v}, window := a.window[v := Joining(a.suspended)])
    case JoinEnd(v) =>
      && v in a.window && a.window[v].Joining?
      && b == a.(flagged := if a.window[v].suspend then a.flagged + {v} else a.flagged, window := a.window - {v})
    case Leave(t, v, unsuspend) =>
      && !Busy(a, t) && a.op == Free && v in a.members && v in a.owner && a.owner[v] == t
      && b == a.(members := a.members - {v}, window := a.window[v := Leaving(unsuspend)],
                 freed := if unsuspend then a.freed else a.freed + {v})
    case LeaveEnd(v) =>
      && v in a.window && a.window[v].Leaving?
      && b == a.(flagged := if a.window[v].unsuspend then a.flagged - {v} else a.flagged, window := a.window - {v})
  }

  ghost predicate Taken(run: seq<State>, steps: seq<Step>, i: nat) {
    && |run| == |steps| + 1 && i < |steps|
    && Next(run[i], run[i + 1], steps[i])
  }

  /** A run: any interleaving of any number of threads and bufferevents. */
  ghost predicate Run(run: seq<State>, steps: seq<Step>) {
    && |run| == |steps| + 1
    && Init(run[0])
    && forall i: nat :: i < |steps| ==> Taken(run, steps, i)
  }

  // ---------- The invariant ----------

  /** Whoever holds BEV_SUSPEND_BW_GROUP (or is about to set it) will be looked at again: the group is suspended, or a
      later refill will try, or the refill under way has yet to come to it or will ask for another. */
  predicate Remembered(s: State, v: Bev) {
    if s.op.Unsuspending? then v in s.op.todo || s.op.again else s.suspended || s.pending
  }

  ghost predicate Inv(s: State) {
    && (forall v :: v in s.members && v in s.flagged ==> Remembered(s, v))
    && (forall v :: v in s.window && s.window[v] == Joining(true) ==> Remembered(s, v))
    && (forall v :: v in s.window ==> v in s.owner && (v in s.members <==> s.window[v].Joining?))
    && (forall v :: v in s.flagged ==> v in s.members || v in s.window || v in s.freed)
    && (s.op.Suspending? ==> s.suspended && s.op.todo <= s.members)
    && (s.op.Unsuspending? ==> !s.suspended && s.op.todo <= s.members)
    && (s.op != Free ==> forall v :: v in s.window ==> s.owner[v] != s.op.holder)
    && s.members !! s.freed
    && (forall v :: v in s.window ==> (v in s.freed <==> s.window[v] == Leaving(false)))
  }

  lemma {:induction false} InvNext(a: State, b: State, step: Step)
    requires Inv(a) && Next(a, b, step)
    ensures Inv(b)
  {
    if step.Lock? || step.Unlock? || step.Join? || step.JoinEnd? || step.Leave? || step.LeaveEnd? {
      MemberStep(a, b, step);
    } else {
      GroupStep(a, b, step);
    }
  }

  lemma {:induction false} MemberStep(a: State, b: State, step: Step)
    requires step.Lock? || step.Unlock? || step.Join? || step.JoinEnd? || step.Leave? || step.LeaveEnd?
    requires Inv(a) && Next(a, b, step)
    ensures Inv(b)
  {
    match step
    case Lock(t, v) =>
    case Unlock(t, v) =>
    case Join(t, v) =>
    case JoinEnd(v) =>
    case Leave(t, v, unsuspend) =>
    case LeaveEnd(v) =>
  }

  lemma {:induction false} GroupStep(a: State, b: State, step: Step)
    requires !(step.Lock? || step.Unlock? || step.Join? || step.JoinEnd? || step.Leave? || step.LeaveEnd?)
    requires Inv(a) && Next(a, b, step)
    ensures Inv(b)
  {
    match step
    case StartSuspend(t) =>
    case SuspendOne(v) =>
    case EndSuspend =>
    case StartUnsuspend(t) =>
    case RefillTick(t, enough) =>
    case UnsuspendOne(v) =>
    case EndUnsuspend =>
    case GetMax(t, v) =>
  }

  lemma {:induction false} InvRun(run: seq<State>, steps: seq<Step>, n: nat)
    requires Run(run, steps) && n < |run|
    ensures Inv(run[n])
  {
    if n > 0 {
      InvRun(run, steps, n - 1);
      assert Taken(run, steps, n - 1);
      InvNext(run[n - 1], run[n], steps[n - 1]);
    }
  }

  // ---------- What it gives ----------

  /** Whenever the group lock is free: a member that carries the group's suspension while the group is not suspended is
      owed a refill, and so is one that is about to set it. */
  lemma {:induction false} NotStuck(run: seq<State>, steps: seq<Step>, n: nat, v: Bev)
    requires Run(run, steps) && n < |run| && run[n].op == Free && !run[n].suspended
    requires v in run[n].members && (v in run[n].flagged || (v in run[n].window && run[n].window[v] == Joining(true)))
    ensures run[n].pending
  {
    InvRun(run, steps, n);
  }

  /** A bufferevent outside the group carries the group's suspension only while its own removal is under way or when it
      is being destroyed. */
  lemma {:induction false} OutsideIsFree(run: seq<State>, steps: seq<Step>, n: nat, v: Bev)
    requires Run(run, steps) && n < |run| && v in run[n].flagged && v !in run[n].members && v !in run[n].freed
    ensures v in run[n].owner && v in run[n].window && run[n].window[v] == Leaving(true)
  {
    InvRun(run, steps, n);
  }

  /** The group lock's holder never waits for a member: each of its steps is enabled whoever holds the member locks. */
  lemma {:induction false} GroupNeverBlocks(s: State)
    requires s.op != Free
    ensures exists b, step ::
      && Next(s, b, step)
      && (b.op == Free || (b.op.holder == s.op.holder && b.op.todo < s.op.todo))
  {
    if s.op.todo == {} {
      if s.op.Suspending? {
        assert Next(s, s.(op := Free), EndSuspend);
      } else {
        assert Next(s, s.(pending := s.op.again, op := Free), EndUnsuspend);
      }
    } else {
      var v :| v in s.op.todo;
      if s.op.Suspending? {
        var b := s.(flagged := if CanLock(s, s.op.holder, v) then s.flagged + {v} else s.flagged,
                    op := Suspending(s.op.holder, s.op.todo - {v}));
        assert Next(s, b, SuspendOne(v));
      } else {
        var b := s.(flagged := if CanLock(s, s.op.holder, v) then s.flagged - {v} else s.flagged,
                    op := Unsuspending(s.op.holder, s.op.todo - {v}, s.op.again || !CanLock(s, s.op.holder, v)));
        assert Next(s, b, UnsuspendOne(v));
      }
    }
  }

  /** The members whose lock the refilling thread cannot get. */
  function Locked(s: State, t: Thread): (r: set<Bev>) {
    set v | v in s.members && !CanLock(s, t, v)
  }

  /** What a suspension does when nobody interferes, in whatever order it visits the members: it suspends exactly
      those that it can lock, and leaves nothing owed from before. */
  lemma {:induction false} Suspension(run: seq<State>, steps: seq<Step>, t: Thread)
    requires |run| == |steps| + 1 >= 3
    requires forall i: nat :: i < |steps| ==> Taken(run, steps, i)
    requires steps[0] == StartSuspend(t) && steps[|steps| - 1] == EndSuspend
    requires forall i :: 1 <= i < |steps| - 1 ==> steps[i].SuspendOne?
    ensures var a, b := run[0], run[|run| - 1];
      && b.op == Free && b.suspended && !b.pending && b.members == a.members && b.owner == a.owner
      && b.flagged == a.flagged + (a.members - Locked(a, t))
  {
    assert Taken(run, steps, 0);
    SuspendSweep(run, steps, t, |steps| - 1);
    assert Taken(run, steps, |steps| - 1);
  }

  lemma {:induction false} SuspendSweep(run: seq<State>, steps: seq<Step>, t: Thread, n: nat)
    requires |run| == |steps| + 1 >= 3 && 1 <= n < |run|
    requires forall i: nat :: i < |steps| ==> Taken(run, steps, i)
    requires steps[0] == StartSuspend(t) && forall i :: 1 <= i < n ==> steps[i].SuspendOne?
    ensures var a, b := run[0], run[n];
      && b.op.Suspending? && b.op.holder == t && b.op.todo <= a.members
      && b.suspended && !b.pending && b.members == a.members && b.owner == a.owner
      && b.flagged == a.flagged + (a.members - b.op.todo - Locked(a, t))
  {
    assert Taken(run, steps, n - 1);
    if n > 1 {
      SuspendSweep(run, steps, t, n - 1);
      var a, c, v := run[0], run[n - 1], steps[n - 1].b;
      assert CanLock(c, t, v) == CanLock(a, t, v) == (v !in Locked(a, t));
    }
  }

  /** A member that missed the suspension because another thread had it locked is suspended as soon as it asks. */
  lemma {:induction false} AskingSuspends(run: seq<State>, steps: seq<Step>, n: nat, t: Thread, v: Bev)
    requires Run(run, steps) && n < |steps| && steps[n] == GetMax(t, v) && run[n].suspended
    ensures v in run[n + 1].flagged && v in run[n + 1].members && run[n + 1].suspended
  {
    assert Taken(run, steps, n);
  }

  /** One that joins a suspended group is suspended when it has joined, whatever happens in between. */
  lemma {:induction false} JoiningSuspends(run: seq<State>, steps: seq<Step>, i: nat, j: nat, t: Thread, v: Bev)
    requires Run(run, steps) && i < j < |steps| && steps[i] == Join(t, v) && run[i].suspended
    requires steps[j] == JoinEnd(v) && forall k :: i < k < j ==> steps[k] != JoinEnd(v)
    ensures v in run[j + 1].flagged && v in run[j + 1].members
  {
    JoinUnderWay(run, steps, i, j, t, v);
    InvRun(run, steps, j);
    assert Taken(run, steps, j);
  }

  lemma {:induction false} JoinUnderWay(run: seq<State>, steps: seq<Step>, i: nat, j: nat, t: Thread, v: Bev)
    requires Run(run, steps) && i < j < |run| && steps[i] == Join(t, v) && run[i].suspended
    requires forall k :: i < k < j ==> steps[k] != JoinEnd(v)
    ensures v in run[j].window && run[j].window[v] == Joining(true)
    decreases j
  {
    assert Taken(run, steps, j - 1);
    if j - 1 > i {
      JoinUnderWay(run, steps, i, j - 1, t, v);
      InvRun(run, steps, j - 1);
    }
  }

  /** And it stays so: as long as the group stays suspended and the member does not leave, nothing takes the
      suspension from it. */
  lemma {:induction false} StaysSuspended(run: seq<State>, steps: seq<Step>, i: nat, j: nat, v: Bev)
    requires Run(run, steps) && i <= j < |run| && v in run[i].flagged
    requires forall k :: i <= k <= j ==> run[k].suspended && v in run[k].members
    ensures v in run[j].flagged
    decreases j
  {
    if i < j {
      StaysSuspended(run, steps, i, j - 1, v);
      InvRun(run, steps, j - 1);
      assert Taken(run, steps, j - 1);
    }
  }

  /** The step starts to unsuspend the members: a refill that has a reason to, or a refund. */
  predicate Starts(s: State, t: Thread, step: Step) {
    || step == StartUnsuspend(t)
    || (step.RefillTick? && step.t == t && RefillActs(s, step.enough))
  }

  /** What the refill does when nobody interferes, in whatever order it visits the members: exactly those it could not
      lock keep the suspension, and another refill is owed exactly when there are such members.  So once no member is
      locked by another thread, one refill frees them all. */
  lemma {:induction false} Refill(run: seq<State>, steps: seq<Step>, t: Thread)
    requires |run| == |steps| + 1 >= 3
    requires forall i: nat :: i < |steps| ==> Taken(run, steps, i)
    requires Starts(run[0], t, steps[0]) && steps[|steps| - 1] == EndUnsuspend
    requires forall i :: 1 <= i < |steps| - 1 ==> steps[i].UnsuspendOne?
    ensures var a, b := run[0], run[|run| - 1];
      && b.op == Free && !b.suspended && b.members == a.members && b.owner == a.owner
      && b.flagged == a.flagged - (a.members - Locked(a, t))
      && (b.pending <==> Locked(a, t) != {})
  {
    var a := run[0];
    assert Taken(run, steps, 0);
    var n := |steps| - 1;
    Sweep(run, steps, t, n);
    assert Taken(run, steps, n);
  }

  /** What is owed is paid: when a member outside a suspended group carries its suspension, the next tick of the refill
      timer acts, however little the group may move, and if it is not disturbed and no other thread has a member
      locked, afterwards no member is suspended and nothing is owed. */
  lemma {:induction false} OwedIsPaid(run: seq<State>, steps: seq<Step>, n: nat, v: Bev,
                                      later: seq<State>, next: seq<Step>, t: Thread, enough: bool)
    requires Run(run, steps) && n < |run| && run[n].op == Free && !run[n].suspended
    requires v in run[n].members && v in run[n].flagged
    requires |later| == |next| + 1 >= 3 && later[0] == run[n] && next[0] == RefillTick(t, enough)
             && next[|next| - 1] == EndUnsuspend
    requires forall i: nat :: i < |next| ==> Taken(later, next, i)
    requires forall i :: 1 <= i < |next| - 1 ==> next[i].UnsuspendOne?
    requires Locked(run[n], t) == {}
    ensures var b := later[|later| - 1];
      b.flagged !! b.members && !b.pending && !b.suspended && b.members == run[n].members
  {
    NotStuck(run, steps, n, v);
    Refill(later, next, t);
  }

  lemma {:induction false} Sweep(run: seq<State>, steps: seq<Step>, t: Thread, n: nat)
    requires |run| == |steps| + 1 >= 3 && 1 <= n < |run|
    requires forall i: nat :: i < |steps| ==> Taken(run, steps, i)
    requires Starts(run[0], t, steps[0])
    requires forall i :: 1 <= i < n ==> steps[i].UnsuspendOne?
    ensures var a, b := run[0], run[n];
      && b.op.Unsuspending? && b.op.holder == t && !b.suspended && b.members == a.members && b.owner == a.owner
      && b.op.todo <= a.members
      && b.flagged == a.flagged - (a.members - b.op.todo - Locked(a, t))
      && (b.op.again <==> Locked(a, t) - b.op.todo != {})
  {
    var a := run[0];
    assert Taken(run, steps, n - 1);
    if n > 1 {
      Sweep(run, steps, t, n - 1);
      var c, b, v := run[n - 1], run[n], steps[n - 1].b;
      assert CanLock(c, t, v) == CanLock(a, t, v) == (v !in Locked(a, t));
      if v in Locked(a, t) {
        assert v in Locked(a, t) - b.op.todo;
      } else {
        assert Locked(a, t) - b.op.todo == Locked(a, t) - c.op.todo;
      }
    }
  }

  // ---------- Locks ----------

  /** The thread is between two accesses of one function: in a window of a bufferevent it has locked, or inside a loop
      under the group lock. */
  ghost predicate Inside(s: State, t: Thread) {
    || (exists v :: v in s.window && v in s.owner && s.owner[v] == t)
    || (s.op.Suspending? && s.op.holder == t)
    || (s.op.Unsuspending? && s.op.holder == t)
  }

  /** A lock is its owner's until the owner unlocks it, and only the owner asks, joins and leaves. */
  lemma {:induction false} LocksExclude(a: State, b: State, step: Step, v: Bev)
    requires Next(a, b, step)
    ensures v in a.owner ==> (v in b.owner && b.owner[v] == a.owner[v]) || step == Unlock(a.owner[v], v)
    ensures v in b.owner ==> (v in a.owner && b.owner[v] == a.owner[v]) || step == Lock(b.owner[v], v)
    ensures step.Unlock? ==> (v in b.owner <==> v in a.owner && v != step.b)
    ensures step.Lock? ==> step.b in b.owner && b.owner[step.b] == step.t
    ensures step.GetMax? || step.Join? || step.Leave? ==>
              step.b in a.owner && a.owner[step.b] == step.t && a.op == Free && !Inside(a, step.t)
    ensures step.StartSuspend? || step.StartUnsuspend? || step.RefillTick? ==> a.op == Free && !Inside(a, step.t)
  {
  }

  /** A thread that is not inside a function can take any free lock, give back its own, and enter any function whose
      locks it has, as soon as the group lock is free. */
  lemma {:induction false} ThreadsGoOn(s: State, t: Thread, v: Bev, enough: bool, unsuspend: bool)
    requires !Inside(s, t)
    ensures v !in s.owner && v !in s.freed ==> exists b :: Next(s, b, Lock(t, v))
    ensures v in s.owner && s.owner[v] == t ==> exists b :: Next(s, b, Unlock(t, v))
    ensures s.op == Free ==> exists b :: Next(s, b, StartSuspend(t))
    ensures s.op == Free ==> exists b :: Next(s, b, StartUnsuspend(t))
    ensures s.op == Free ==> exists b :: Next(s, b, RefillTick(t, enough))
    ensures s.op == Free && v in s.members && v in s.owner && s.owner[v] == t ==> exists b :: Next(s, b, GetMax(t, v))
    ensures s.op == Free && v in s.members && v in s.owner && s.owner[v] == t ==>
              exists b :: Next(s, b, Leave(t, v, unsuspend))
    ensures s.op == Free && v !in s.members && v !in s.freed && v in s.owner && s.owner[v] == t ==>
              exists b :: Next(s, b, Join(t, v))
  {
    assert !Busy(s, t);
    assert v !in s.owner && v !in s.freed ==> Next(s, s.(owner := s.owner[v := t]), Lock(t, v));
    assert v in s.owner && s.owner[v] == t ==> Next(s, s.(owner := s.owner - {v}), Unlock(t, v));
    if s.op == Free {
      assert Next(s, s.(suspended := true, pending := false, op := Suspending(t, s.members)), StartSuspend(t));
      assert Next(s, Unsuspend(s, t), StartUnsuspend(t));
      assert Next(s, if RefillActs(s, enough) then Unsuspend(s, t) else s, RefillTick(t, enough));
      if v in s.owner && s.owner[v] == t {
        if v in s.members {
          assert Next(s, s.(flagged := if s.suspended then s.flagged + {v} else s.flagged), GetMax(t, v));
          assert Next(s, s.(members := s.members - {v}, window := s.window[v := Leaving(unsuspend)],
                            freed := if unsuspend then s.freed else s.freed + {v}), Leave(t, v, unsuspend));
        } else if v !in s.freed {
          assert Next(s, s.(members := s.members + {v}, window := s.window[v := Joining(s.suspended)]), Join(t, v));
        }
      }
    }
  }

  /** Every window can be closed, whoever holds the group lock, and closing it closes this one only. */
  lemma {:induction false} WindowsClose(s: State, v: Bev)
    requires v in s.window
    ensures exists b, step :: Next(s, b, step) && (step == JoinEnd(v) || step == LeaveEnd(v))
              && b.window == s.window - {v}
  {
    match s.window[v]
    case Joining(suspend) =>
      assert Next(s, s.(flagged := if suspend then s.flagged + {v} else s.flagged, window := s.window - {v}),
                  JoinEnd(v));
    case Leaving(unsuspend) =>
      assert Next(s, s.(flagged := if unsuspend then s.flagged - {v} else s.flagged, window := s.window - {v}),
                  LeaveEnd(v));
  }

  /** A tick that has no reason to act changes nothing: the group is not suspended, or the limit is below the least
      share, and no member is owed. */
  lemma {:induction false} IdleTick(a: State, b: State, t: Thread, enough: bool)
    requires Next(a, b, RefillTick(t, enough))
    ensures (b == a) <==> !a.pending && !(a.suspended && enough)
  {
  }
}
