/** The bucket of a rate limit group over whole runs: what its members take, asking and accounting in any order, against
    what the bucket gave. */
module GroupShare {
  import opened Wrappers
  import opened Arithmetic
  import opened TokenBucket

  /** A group with a fixed number of members.  `alone`: each asks only after the others' transfers are accounted for, as
      when one thread serves them all. */
  datatype Setup = Setup(members: nat, rate: nat, maximum: nat, minShare: nat, alone: bool) {
    /** `ConfiguredOk` says that every group is of this kind. */
    predicate Ok() { members > 0 && 1 <= rate <= maximum && minShare <= rate }
  }

  /** `bufferevent_rate_limit_group_set_min_share`: the least share is kept within the rates of both directions. */
  method MinShare(share: nat, readRate: nat, writeRate: nat) returns (r: nat)
    ensures r <= share && r <= readRate && r <= writeRate && (r == share || r == readRate || r == writeRate)
  {
    r := share;
    if r > readRate { r := readRate; }
    if r > writeRate { r := writeRate; }
  }

  /** Whatever least share is asked for, and whatever configuration `ev_token_bucket_cfg_new` allows. */
  method ConfiguredOk(half: int, members: nat, readRate: nat, readBurst: nat, writeRate: nat, writeBurst: nat,
                      share: nat, alone: bool)
    returns (read: Setup, write: Setup)
    requires members > 0 && RateOk(half, readRate, readBurst) && RateOk(half, writeRate, writeBurst)
    ensures read.Ok() && (read.members, read.rate, read.maximum, read.alone) == (members, readRate, readBurst, alone)
    ensures write.Ok()
            && (write.members, write.rate, write.maximum, write.alone) == (members, writeRate, writeBurst, alone)
    ensures read.minShare == write.minShare == Min(share, Min(readRate, writeRate))
  {
    var least := MinShare(share, readRate, writeRate);
    read := Setup(members, readRate, readBurst, least, alone);
    write := Setup(members, writeRate, writeBurst, least, alone);
  }

  /** One direction of `struct bufferevent_rate_limit_group`, and for each member what it was allowed and has not yet
      accounted for (0: nothing).  `taken`, `added` and `ticks` record the transfers and the refills. */
  datatype Group = Group(limit: int, suspended: bool, granted: seq<nat>, taken: nat, added: int, ticks: nat)

  datatype Step =
    | Ask(m: nat, own: Option<int>)   // _bufferevent_get_rlim_max; `own` is the member's own limit, if any
    | Account(m: nat, bytes: nat)     // _bufferevent_decrement_read_buckets, after a transfer of that many bytes
    | Drop(m: nat)                    // there was nothing to transfer
    // _bev_group_refill_callback, `n` ticks after the last (0: none, or time rolled back)
    | Tick(n: nat)

  function Sum(s: seq<nat>): nat {
    if s == [] then 0 else s[|s| - 1] + Sum(s[..|s| - 1])
  }

  /** A member holds its own lock from asking to accounting, so that it has at most one grant. */
  predicate Enabled(c: Setup, s: Group, step: Step) {
    match step
    case Ask(m, _) => m < |s.granted| && s.granted[m] == 0 && (c.alone ==> Sum(s.granted) == 0)
    case Account(m, bytes) => m < |s.granted| && 1 <= bytes <= s.granted[m]
    case Drop(m) => m < |s.granted|
    case Tick(_) => true
  }

  function Granted(c: Setup, limit: int, suspended: bool, own: Option<int>): nat
    requires c.Ok()
  {
    Allowed(own, Some(Share(suspended, limit, c.members, c.minShare)))
  }

  function Exec(c: Setup, s: Group, step: Step): Group
    requires c.Ok() && Enabled(c, s, step)
  {
    match step
    case Ask(m, own) => s.(granted := s.granted[m := Granted(c, s.limit, s.suspended, own)])
    case Account(m, bytes) =>
      s.(limit := s.limit - bytes, suspended := s.limit - bytes <= 0, granted := s.granted[m := 0],
         taken := s.taken + bytes)
    case Drop(m) => s.(granted := s.granted[m := 0])
    case Tick(n) =>
      var limit := Refilled(s.limit, c.rate, c.maximum, n);
      s.(limit := limit, suspended := s.suspended && limit < c.minShare, added := s.added + limit - s.limit,
         ticks := s.ticks + n)
  }

  /** The group after these steps, if each of them can be taken. */
  function After(c: Setup, s: Group, steps: seq<Step>): Option<Group>
    requires c.Ok()
    decreases |steps|
  {
    if steps == [] then Some(s)
    else if Enabled(c, s, steps[0]) then After(c, Exec(c, s, steps[0]), steps[1..])
    else None
  }

  // ---------- What can be taken at most ----------

  /** The largest grant that can be outstanding. */
  function Most(c: Setup): nat
    requires c.Ok()
  {
    Max(c.maximum / c.members, c.minShare)
  }

  /** By how much the members can overdraw the bucket. */
  function Overdraft(c: Setup): (r: int)
    requires c.Ok()
  {
    if c.alone then Max(0, c.minShare - 1)
    else if c.minShare == 0 then (c.members - 1) * Max(0, c.maximum / c.members - 1)
    else (c.members - 1) * Most(c) + c.minShare - 1
  }

  /** A group between transfers, with the records at zero. */
  predicate Idle(c: Setup, s: Group) {
    && s.taken == 0 && s.added == 0 && s.ticks == 0
    && |s.granted| == c.members && (forall i :: 0 <= i < |s.granted| ==> s.granted[i] == 0)
    && s.limit <= c.maximum
    && (!s.suspended ==> s.limit >= Min(c.minShare, 1))
  }

  ghost predicate Inv(c: Setup, start: int, s: Group)
    requires c.Ok()
  {
    && |s.granted| == c.members && (forall i :: 0 <= i < |s.granted| ==> s.granted[i] <= Most(c))
    && s.limit <= c.maximum
    && (!s.suspended ==> s.limit >= Min(c.minShare, 1))
    && s.taken + s.limit == start + s.added
    && 0 <= s.added <= s.ticks * c.rate
    && ((s.taken == 0 && Sum(s.granted) == 0) || s.limit - Sum(s.granted) >= -Overdraft(c))
  }

  lemma {:induction false} SumUpdate(s: seq<nat>, m: nat, x: nat)
    requires m < |s|
    ensures Sum(s[m := x]) == Sum(s) - s[m] + x
  {
    var n: nat := |s| - 1;
    if m == n {
      assert s[m := x][..n] == s[..n];
    } else {
      assert s[m := x][..n] == s[..n][m := x];
      SumUpdate(s[..n], m, x);
    }
  }

  lemma {:induction false} SumBounded(s: seq<nat>, m: nat, most: nat)
    requires m < |s| && s[m] == 0 && forall i :: 0 <= i < |s| ==> s[i] <= most
    ensures Sum(s) <= (|s| - 1) * most
  {
    var n: nat := |s| - 1;
    if m == n {
      SumAtMost(s[..n], most);
    } else {
      SumBounded(s[..n], m, most);
      Distribute(most, n, 1);
    }
  }

  lemma {:induction false} SumAtMost(s: seq<nat>, most: nat)
    requires forall i :: 0 <= i < |s| ==> s[i] <= most
    ensures Sum(s) <= |s| * most
  {
    if s != [] {
      SumAtMost(s[..|s| - 1], most);
      Distribute(most, |s|, 1);
    }
  }

  lemma {:induction false} SumNothing(s: seq<nat>)
    requires forall i :: 0 <= i < |s| ==> s[i] == 0
    ensures Sum(s) == 0
  {
    SumAtMost(s, 0);
  }

  lemma PartIs(limit: nat, members: nat, maximum: nat)
    requires members > 0 && limit <= maximum
    ensures limit / members <= maximum / members && members * (limit / members) <= limit
  {
    DivMod(limit, members);
    DivMod(maximum, members);
    if limit / members > maximum / members {
      Distribute(members, limit / members, maximum / members);
      Multiple(members, limit / members - maximum / members);
    }
  }

  /** What a grant leaves when everything else outstanding, `others`, is taken too. */
  lemma {:induction false} GrantLeaves(c: Setup, limit: int, suspended: bool, own: Option<int>, others: nat)
    requires c.Ok() && limit <= c.maximum && (!suspended ==> limit >= Min(c.minShare, 1))
    requires others <= (c.members - 1) * Most(c) && (c.alone ==> others == 0)
    ensures Granted(c, limit, suspended, own) <= Most(c)
    ensures Granted(c, limit, suspended, own) > 0 ==>
              limit - others - Granted(c, limit, suspended, own) >= -Overdraft(c)
  {
    var g := Granted(c, limit, suspended, own);
    if g > 0 {
      PartIs(limit, c.members, c.maximum);
      var part := limit / c.members;
      assert g <= Max(part, c.minShare);
      Distribute(part, c.members, 1);
      if c.minShare == 0 {
        assert g <= part;
        Left(c, part, limit, g, others);
      } else {
        assert limit - g >= 1 - c.minShare by { Multiple(c.members, part); PartAtMost(c.members, part); }
      }
    }
  }

  lemma PartAtMost(members: nat, part: nat)
    requires members > 0
    ensures part <= members * part
  {
  }

  lemma {:induction false} Left(c: Setup, part: nat, limit: nat, g: nat, others: nat)
    requires c.Ok() && c.minShare == 0 && 0 < g <= part <= c.maximum / c.members && c.members * part <= limit
    requires others <= (c.members - 1) * Most(c) && (c.alone ==> others == 0)
    ensures limit - others - g >= -Overdraft(c)
  {
    Distribute(part, c.members, 1);
    PartAtMost(c.members, part);
    if !c.alone {
      var k := c.members - 1;
      assert limit - g >= k * part;
      if k > 0 { Multiple(k, part); }
      Distribute(k, c.maximum / c.members, 1);
    }
  }

  lemma {:induction false} InvStep(c: Setup, start: int, s: Group, step: Step)
    requires c.Ok() && Inv(c, start, s) && Enabled(c, s, step)
    ensures Inv(c, start, Exec(c, s, step))
  {
    hide Inv, Sum, Granted, Most, Overdraft, Refilled, Enabled, Exec;
    match step
    case Ask(m, own) => InvAsk(c, start, s, m, own);
    case Account(m, bytes) => InvAccount(c, start, s, m, bytes);
    case Drop(m) => InvDrop(c, start, s, m);
    case Tick(n) => InvTick(c, start, s, n);
  }

  lemma {:induction false} InvAsk(c: Setup, start: int, s: Group, m: nat, own: Option<int>)
    requires c.Ok() && Inv(c, start, s) && Enabled(c, s, Ask(m, own))
    ensures Inv(c, start, Exec(c, s, Ask(m, own)))
  {
    hide Sum, Granted, Most, Overdraft;
    SumUpdate(s.granted, m, Granted(c, s.limit, s.suspended, own));
    SumBounded(s.granted, m, Most(c));
    GrantLeaves(c, s.limit, s.suspended, own, Sum(s.granted));
  }

  lemma {:induction false} InvAccount(c: Setup, start: int, s: Group, m: nat, bytes: nat)
    requires c.Ok() && Inv(c, start, s) && Enabled(c, s, Account(m, bytes))
    ensures Inv(c, start, Exec(c, s, Account(m, bytes)))
  {
    hide Sum, Most, Overdraft;
    SumUpdate(s.granted, m, 0);
  }

  lemma {:induction false} InvDrop(c: Setup, start: int, s: Group, m: nat)
    requires c.Ok() && Inv(c, start, s) && Enabled(c, s, Drop(m))
    ensures Inv(c, start, Exec(c, s, Drop(m)))
  {
    hide Sum, Most, Overdraft;
    SumUpdate(s.granted, m, 0);
  }

  lemma {:induction false} InvTick(c: Setup, start: int, s: Group, n: nat)
    requires c.Ok() && Inv(c, start, s) && Enabled(c, s, Tick(n))
    ensures Inv(c, start, Exec(c, s, Tick(n)))
  {
    hide Sum, Most, Overdraft;
    Distribute(c.rate, s.ticks, n);
    Product(n, c.rate);
  }

  lemma {:induction false} InvAfter(c: Setup, start: int, s: Group, steps: seq<Step>)
    requires c.Ok() && Inv(c, start, s) && After(c, s, steps).Some?
    ensures Inv(c, start, After(c, s, steps).value)
    decreases |steps|
  {
    hide Inv, Enabled, Exec;
    if steps != [] {
      InvStep(c, start, s, steps[0]);
      InvAfter(c, start, Exec(c, s, steps[0]), steps[1..]);
    }
  }

  lemma IdleInv(c: Setup, s: Group)
    requires c.Ok() && Idle(c, s)
    ensures Inv(c, s.limit, s)
  {
    SumNothing(s.granted);
  }

  /** Over every run, with any grants outstanding in between and any refills: the members take no more than what the
      bucket held (or nothing, if it was overdrawn) plus what the refills added, plus the overdraft; the refills add
      at most the rate for every tick. */
  lemma {:induction false} TakenBounded(c: Setup, s: Group, steps: seq<Step>)
    requires c.Ok() && Idle(c, s) && After(c, s, steps).Some?
    ensures var e := After(c, s, steps).value;
            && e.taken <= Max(0, s.limit) + e.added + Overdraft(c)
            && 0 <= e.added <= e.ticks * c.rate
            && e.limit == s.limit + e.added - e.taken
  {
    hide After, Idle;
    IdleInv(c, s);
    InvAfter(c, s.limit, s, steps);
    OverdraftIs(c);
  }

  lemma {:induction false} OverdraftIs(c: Setup)
    requires c.Ok()
    ensures Overdraft(c) >= 0
    ensures Overdraft(c) == 0 <==>
      if c.alone || c.members == 1 then c.minShare <= 1 else c.minShare == 0 && c.maximum < 2 * c.members
  {
    var k, part := c.members - 1, c.maximum / c.members;
    Product(k, Most(c));
    Product(k, Max(0, part - 1));
    TwoEach(c.maximum, c.members);
  }

  lemma {:induction false} Product(k: nat, x: nat)
    ensures k * x >= 0 && (k * x == 0 <==> k == 0 || x == 0)
  {
    if k > 0 { Multiple(k, x); }
  }

  lemma {:induction false} TwoEach(maximum: nat, members: nat)
    requires members > 0
    ensures 0 <= maximum / members <= 1 <==> maximum < 2 * members
  {
    DivMod(maximum, members);
    Distribute(members, maximum / members, 2);
    Multiple(members, maximum / members - 2);
    Multiple(members, maximum / members);
  }

  // ---------- The bound is reached ----------

  lemma {:induction false} AfterBoth(c: Setup, s: Group, a: seq<Step>, b: seq<Step>)
    requires c.Ok() && After(c, s, a).Some?
    ensures After(c, s, a + b) == After(c, After(c, s, a).value, b)
    decreases |a|
  {
    hide Enabled, Exec;
    if a == [] {
      assert a + b == b;
    } else {
      assert (a + b)[1..] == a[1..] + b;
      AfterBoth(c, Exec(c, s, a[0]), a[1..], b);
    }
  }

  lemma AfterOne(c: Setup, s: Group, step: Step)
    requires c.Ok() && Enabled(c, s, step)
    ensures After(c, s, [step]) == Some(Exec(c, s, step))
  {
    hide Enabled, Exec;
    assert After(c, Exec(c, s, step), []) == Some(Exec(c, s, step));
  }

  /** `g` outstanding for each of the members 1 to `k - 1`. */
  function Given(members: nat, k: nat, g: nat): (r: seq<nat>)
    ensures |r| == members && forall i :: 0 <= i < members ==> r[i] == if 1 <= i < k then g else 0
  {
    seq(members, i => if 1 <= i < k then g else 0)
  }

  function Fresh(c: Setup, limit: int): Group {
    Group(limit, false, Given(c.members, 0, 0), 0, 0, 0)
  }

  lemma {:induction false} AskAll(c: Setup, s: Group, k: nat) returns (steps: seq<Step>)
    requires c.Ok() && !c.alone && 1 <= k <= c.members
    requires !s.suspended && s.limit == c.maximum && s.granted == Given(c.members, 1, Most(c))
    ensures After(c, s, steps) == Some(s.(granted := Given(c.members, k, Most(c))))
    decreases k
  {
    var g := Most(c);
    if k == 1 {
      steps := [];
    } else {
      var first := AskAll(c, s, k - 1);
      var mid := s.(granted := Given(c.members, k - 1, g));
      var step := Ask(k - 1, Some(g));
      assert Given(c.members, k - 1, g)[k - 1 := g] == Given(c.members, k, g);
      assert Exec(c, mid, step) == s.(granted := Given(c.members, k, g));
      hide Exec, Enabled, Given, Most;
      AfterOne(c, mid, step);
      AfterBoth(c, s, first, [step]);
      steps := first + [step];
    }
  }

  lemma {:induction false} AccountAll(c: Setup, s: Group, k: nat, g: nat) returns (steps: seq<Step>)
    requires c.Ok() && g > 0 && 1 <= k <= c.members && s.granted == Given(c.members, k, g)
    ensures After(c, s, steps).Some?
    ensures var e := After(c, s, steps).value;
            e.taken == s.taken + (k - 1) * g && e.added == s.added
    decreases k
  {
    if k == 1 {
      steps := [];
    } else {
      var step := Account(k - 1, g);
      var next := AccountOne(c, s, k, g);
      hide Exec, Enabled, Given, After;
      var rest := AccountAll(c, next, k - 1, g);
      AfterBoth(c, s, [step], rest);
      steps := [step] + rest;
      OneLess(k, g);
    }
  }

  lemma OneLess(k: int, g: int)
    ensures (k - 1) * g == (k - 2) * g + g
  {
  }

  lemma AccountOne(c: Setup, s: Group, k: nat, g: nat) returns (next: Group)
    requires c.Ok() && g > 0 && 1 < k <= c.members && s.granted == Given(c.members, k, g)
    ensures After(c, s, [Account(k - 1, g)]) == Some(next)
    ensures next.taken == s.taken + g && next.added == s.added && next.granted == Given(c.members, k - 1, g)
  {
    next := Exec(c, s, Account(k - 1, g));
    assert Given(c.members, k, g)[k - 1 := 0] == Given(c.members, k - 1, g);
    AfterOne(c, s, Account(k - 1, g));
  }

  /** Member 0 asks for some of its share and accounts for it. */
  lemma {:induction false} TakeSome(c: Setup, s: Group, bytes: nat) returns (steps: seq<Step>)
    requires c.Ok() && bytes > 0 && 0 < |s.granted| == c.members && s.granted[0] == 0
             && (c.alone ==> Sum(s.granted) == 0)
    requires !s.suspended && s.limit > 0
    requires bytes <= c.minShare || bytes <= s.limit / c.members
    ensures After(c, s, steps) ==
            Some(s.(limit := s.limit - bytes, suspended := s.limit - bytes <= 0, taken := s.taken + bytes))
  {
    var ask, account := Ask(0, Some(bytes)), Account(0, bytes);
    assert Granted(c, s.limit, s.suspended, Some(bytes)) == bytes;
    var mid := s.(granted := s.granted[0 := bytes]);
    assert Exec(c, s, ask) == mid && Enabled(c, s, ask);
    assert mid.granted[0 := 0] == s.granted;
    assert Exec(c, mid, account)
             == s.(limit := s.limit - bytes, suspended := s.limit - bytes <= 0, taken := s.taken + bytes);
    assert Enabled(c, mid, account);
    hide Exec, Enabled, Sum, Granted;
    AfterOne(c, s, ask);
    AfterOne(c, mid, account);
    AfterBoth(c, s, [ask], [account]);
    steps := [ask] + [account];
  }

  /** Byte by byte down to `floor`. */
  lemma {:induction false} DrainTo(c: Setup, s: Group, floor: nat) returns (steps: seq<Step>)
    requires c.Ok() && 0 < |s.granted| == c.members && s.granted[0] == 0 && (c.alone ==> Sum(s.granted) == 0)
    requires !s.suspended && 1 <= floor <= s.limit && (c.minShare >= 1 || floor >= c.members - 1)
    ensures After(c, s, steps) == Some(s.(limit := floor, taken := s.taken + s.limit - floor))
    decreases s.limit
  {
    hide Sum, Exec, Enabled;
    if s.limit == floor {
      steps := [];
    } else {
      if c.minShare == 0 { DivMod(s.limit, c.members); Multiple(c.members, s.limit / c.members); }
      var first := TakeSome(c, s, 1);
      var mid := s.(limit := s.limit - 1, taken := s.taken + 1);
      var rest := DrainTo(c, mid, floor);
      AfterBoth(c, s, first, rest);
      steps := first + rest;
    }
  }

  /** Ticks until the bucket is full. */
  lemma {:induction false} FillUp(c: Setup, limit: nat) returns (steps: seq<Step>, full: Group)
    requires c.Ok() && limit <= c.maximum
    ensures After(c, Fresh(c, limit), steps) == Some(full)
    ensures full.granted == Given(c.members, 0, 0) && !full.suspended && full.taken == 0
    ensures full.limit == c.maximum == limit + full.added
  {
    var n := c.maximum - limit + 1;
    Multiple(n, c.rate);
    var s := Fresh(c, limit);
    full := Exec(c, s, Tick(n));
    steps := [Tick(n)];
    hide Given;
    AfterOne(c, s, Tick(n));
  }

  /** A bound that can be exceeded at all is reached. */
  lemma {:induction false} OverdraftReached(c: Setup, limit: nat) returns (steps: seq<Step>)
    requires c.Ok() && limit <= c.maximum && Overdraft(c) > 0
    ensures After(c, Fresh(c, limit), steps).Some?
    ensures var e := After(c, Fresh(c, limit), steps).value;
            e.taken == limit + e.added + Overdraft(c)
  {
    var fill, full := FillUp(c, limit);
    var rest := FromFull(c, full);
    hide After, Fresh, Given, Overdraft;
    AfterBoth(c, Fresh(c, limit), fill, rest);
    steps := fill + rest;
  }

  lemma {:induction false} FromFull(c: Setup, full: Group) returns (steps: seq<Step>)
    requires c.Ok() && Overdraft(c) > 0
    requires full.granted == Given(c.members, 0, 0) && !full.suspended && full.taken == 0 && full.limit == c.maximum
    ensures After(c, full, steps).Some?
    ensures var e := After(c, full, steps).value;
            e.added == full.added && e.taken == c.maximum + Overdraft(c)
  {
    hide After, Sum, Most;
    if c.alone {
      SumNothing(full.granted);
      steps := TakeDown(c, full);
    } else {
      OverdraftGrants(c);
      hide Overdraft;
      steps := AskTakeAccount(c, full, Most(c));
    }
  }

  lemma OverdraftGrants(c: Setup)
    requires c.Ok() && !c.alone && Overdraft(c) > 0
    ensures Most(c) > 0 && (c.minShare > 0 || 1 <= c.members - 1 <= c.maximum)
    ensures Overdraft(c) == (c.members - 1) * Most(c) + if c.minShare > 0 then c.minShare - 1 else 1 - c.members
  {
    var k, part := c.members - 1, c.maximum / c.members;
    Product(k, Max(0, part - 1));
    TwoEach(c.maximum, c.members);
    Distribute(k, part, 1);
  }

  lemma {:induction false} AskTakeAccount(c: Setup, full: Group, g: nat) returns (steps: seq<Step>)
    requires c.Ok() && !c.alone && g == Most(c) > 0 && (c.minShare > 0 || 1 <= c.members - 1 <= c.maximum)
    requires full.granted == Given(c.members, 0, 0) && !full.suspended && full.taken == 0 && full.limit == c.maximum
    ensures After(c, full, steps).Some?
    ensures var e := After(c, full, steps).value;
            && e.added == full.added
            && e.taken == c.maximum + (c.members - 1) * g + if c.minShare > 0 then c.minShare - 1 else 1 - c.members
  {
    assert Given(c.members, 0, 0) == Given(c.members, 1, g);
    var held := full.(granted := Given(c.members, c.members, g));
    assert |held.granted| == c.members && held.granted[0] == 0;
    hide Given, After, Sum, Most, Enabled, Exec;
    var asked := AskAll(c, full, c.members);
    var taken := TakeDown(c, held);
    var low := After(c, held, taken).value;
    var accounted := AccountAll(c, low, c.members, g);
    AfterBoth(c, held, taken, accounted);
    AfterBoth(c, full, asked, taken + accounted);
    steps := asked + (taken + accounted);
  }

  /** With what is granted to the others left aside, member 0 can bring a full bucket down to here. */
  lemma {:induction false} TakeDown(c: Setup, s: Group) returns (steps: seq<Step>)
    requires c.Ok() && (c.minShare > 0 || 1 <= c.members - 1 <= c.maximum)
    requires 0 < |s.granted| == c.members && s.granted[0] == 0 && (c.alone ==> Sum(s.granted) == 0)
    requires !s.suspended && s.limit == c.maximum
    ensures After(c, s, steps).Some?
    ensures var e := After(c, s, steps).value;
            && e.granted == s.granted && e.added == s.added
            && e.taken == s.taken + c.maximum + if c.minShare > 0 then c.minShare - 1 else 1 - c.members
  {
    hide Sum;
    var floor := if c.minShare > 0 then 1 else c.members - 1;
    var drain := DrainTo(c, s, floor);
    var low := s.(limit := floor, taken := s.taken + s.limit - floor);
    if c.minShare == 0 {
      steps := drain;
    } else {
      var last := TakeSome(c, low, c.minShare);
      AfterBoth(c, s, drain, last);
      steps := drain + last;
    }
  }

  // ---------- When the group stays within its bucket ----------

  /** The members take no more than the bucket held and the refills added. */
  predicate Within(c: Setup, limit: nat, steps: seq<Step>)
    requires c.Ok()
  {
    var e := After(c, Fresh(c, limit), steps);
    e.Some? ==> e.value.taken <= limit + e.value.added
  }

  /** Whatever the members do, they stay within the bucket exactly under this condition: with a least share of two or
      more never. */
  lemma {:induction false} WithinExact(c: Setup, limit: nat)
    requires c.Ok() && 1 <= limit <= c.maximum
    ensures (forall steps :: Within(c, limit, steps)) <==>
      if c.alone || c.members == 1 then c.minShare <= 1 else c.minShare == 0 && c.maximum < 2 * c.members
  {
    OverdraftIs(c);
    assert Idle(c, Fresh(c, limit));
    hide After, Overdraft, Fresh, Idle;
    if Overdraft(c) == 0 {
      forall steps
        ensures Within(c, limit, steps)
      {
        if After(c, Fresh(c, limit), steps).Some? { FreshBounded(c, limit, steps); }
      }
    } else {
      var steps := OverdraftReached(c, limit);
      assert !Within(c, limit, steps);
    }
  }

  lemma FreshBounded(c: Setup, limit: nat, steps: seq<Step>)
    requires c.Ok() && 1 <= limit <= c.maximum && After(c, Fresh(c, limit), steps).Some?
    ensures After(c, Fresh(c, limit), steps).value.taken <= limit + After(c, Fresh(c, limit), steps).value.added
              + Overdraft(c)
  {
    hide After, Overdraft;
    TakenBounded(c, Fresh(c, limit), steps);
  }

  /** Two members with a least share of 40 take turns at a bucket of 100 and get 130. */
  lemma TurnsExceed()
    ensures var c := Setup(2, 40, 100, 40, true);
            var steps := [Ask(0, None), Account(0, 50)]
                + ([Ask(1, None), Account(1, 40)] + [Ask(0, None), Account(0, 40)]);
            var e := After(c, Fresh(c, 100), steps);
            e.Some? && e.value.taken == 130 && e.value.added == 0
  {
    var c := Setup(2, 40, 100, 40, true);
    SumNothing([0, 0]);
    Turn(c, Group(100, false, [0, 0], 0, 0, 0), 0, 50);
    Turn(c, Group(50, false, [0, 0], 50, 0, 0), 1, 40);
    Turn(c, Group(10, false, [0, 0], 90, 0, 0), 0, 40);
    assert Fresh(c, 100) == Group(100, false, [0, 0], 0, 0, 0);
    hide After, Fresh;
    AfterBoth(c, Group(50, false, [0, 0], 50, 0, 0), [Ask(1, None), Account(1, 40)], [Ask(0, None), Account(0, 40)]);
    AfterBoth(c, Fresh(c, 100), [Ask(0, None), Account(0, 50)],
              [Ask(1, None), Account(1, 40)] + [Ask(0, None), Account(0, 40)]);
  }

  /** Without a least share: one member accounts late for its 50 of 100, the other takes 50 and 25 meanwhile. */
  lemma LateExceeds()
    ensures var c := Setup(2, 40, 100, 0, false);
            var steps := [Ask(1, None)]
                + ([Ask(0, None), Account(0, 50)] + ([Ask(0, None), Account(0, 25)] + [Account(1, 50)]));
            var e := After(c, Fresh(c, 100), steps);
            e.Some? && e.value.taken == 125 && e.value.added == 0
  {
    var c := Setup(2, 40, 100, 0, false);
    var s0, s1 := Group(100, false, [0, 0], 0, 0, 0), Group(100, false, [0, 50], 0, 0, 0);
    var s2, s3 := Group(50, false, [0, 50], 50, 0, 0), Group(25, false, [0, 50], 75, 0, 0);
    assert Fresh(c, 100) == s0;
    assert Exec(c, s0, Ask(1, None)) == s1 && Exec(c, s3, Account(1, 50)) == Group(-25, true, [0, 0], 125, 0, 0);
    AfterOne(c, s0, Ask(1, None));
    Turn(c, s1, 0, 50);
    Turn(c, s2, 0, 25);
    AfterOne(c, s3, Account(1, 50));
    hide After, Fresh;
    AfterBoth(c, s2, [Ask(0, None), Account(0, 25)], [Account(1, 50)]);
    AfterBoth(c, s1, [Ask(0, None), Account(0, 50)], [Ask(0, None), Account(0, 25)] + [Account(1, 50)]);
    AfterBoth(c, s0, [Ask(1, None)],
              [Ask(0, None), Account(0, 50)] + ([Ask(0, None), Account(0, 25)] + [Account(1, 50)]));
  }

  /** A member asks and transfers at most what it gets. */
  lemma Turn(c: Setup, s: Group, m: nat, bytes: nat)
    requires c.Ok() && m < |s.granted| && s.granted[m] == 0 && (c.alone ==> Sum(s.granted) == 0)
    requires 0 < bytes <= Granted(c, s.limit, s.suspended, None)
    ensures After(c, s, [Ask(m, None), Account(m, bytes)]) ==
            Some(s.(limit := s.limit - bytes, suspended := s.limit - bytes <= 0, taken := s.taken + bytes))
  {
    var g := Granted(c, s.limit, s.suspended, None);
    var mid := s.(granted := s.granted[m := g]);
    assert mid.granted[m := 0] == s.granted;
    assert Exec(c, s, Ask(m, None)) == mid && Enabled(c, s, Ask(m, None)) && Enabled(c, mid, Account(m, bytes));
    assert Exec(c, mid, Account(m, bytes))
        == s.(limit := s.limit - bytes, suspended := s.limit - bytes <= 0, taken := s.taken + bytes);
    hide Enabled, Exec;
    AfterOne(c, s, Ask(m, None));
    AfterOne(c, mid, Account(m, bytes));
    AfterBoth(c, s, [Ask(m, None)], [Account(m, bytes)]);
    assert [Ask(m, None)] + [Account(m, bytes)] == [Ask(m, None), Account(m, bytes)];
  }

  /** A suspended group resumes with the refill that pays its debt and the least share, and then whoever asks gets at
      least the least share and at least an equal part, if nothing else limits it. */
  lemma {:induction false} Recovers(c: Setup, s: Group, n: nat, m: nat)
    requires c.Ok() && s.limit <= c.maximum && m < |s.granted| && s.granted[m] == 0 && (c.alone ==> Sum(s.granted) == 0)
    ensures var e := Exec(c, s, Tick(n));
      && (e.suspended <==> s.suspended && s.limit + n * c.rate < c.minShare)
      && var g := Exec(c, e, Ask(m, None)).granted[m];
      && (e.suspended ==> g == 0)
      && (!e.suspended ==> g >= Min(c.minShare, 16384))
      && (!e.suspended && e.limit >= 0 ==> g == Min(Max(e.limit / c.members, c.minShare), 16384))
  {
  }

  // ---------- The code ----------

  /** The fields of the group that the code updates in place. */
  class GroupBucket {
    const c: Setup
    var limit: int
    var suspended: bool

    /** `bufferevent_rate_limit_group_new`: the bucket starts at the rate. */
    constructor (c: Setup)
      ensures this.c == c && limit == c.rate && !suspended
    {
      this.c, limit, suspended := c, c.rate, false;
    }

    /** The group's part of `_bufferevent_get_rlim_max`. */
    method MaxFor(own: Option<int>) returns (r: nat)
      requires c.Ok()
      ensures r == Granted(c, limit, suspended, own)
    {
      var most := if own.Some? then own.value else MAX_TO_MOVE_EVER;
      var share := 0;
      if !suspended {
        share := if limit >= 0 then limit / c.members else -(-limit / c.members);
        if share < c.minShare { share := c.minShare; }
      }
      if most > share { most := share; }
      if most < 0 { most := 0; }
      r := most;
    }

    /** The group's part of `_bufferevent_decrement_read_buckets`. */
    method Decrement(bytes: nat)
      modifies this
      ensures limit == old(limit) - bytes && suspended == (limit <= 0)
    {
      limit := limit - bytes;
      if limit <= 0 {
        suspended := true;
      } else if suspended {
        suspended := false;
      }
    }

    /** `_bev_group_refill_callback`. */
    method RefillTick(n: nat)
      modifies this
      ensures limit == Refilled(old(limit), c.rate, c.maximum, n)
      ensures suspended == (old(suspended) && limit < c.minShare)
    {
      limit := Refilled(limit, c.rate, c.maximum, n);
      if suspended && limit >= c.minShare {
        suspended := false;
      }
    }
  }

  /** A whole run on the code's own fields: it goes as `After` says, and the bound holds for it. */
  method Serve(c: Setup, steps: seq<Step>) returns (end: Option<Group>)
    requires c.Ok()
    ensures end == After(c, Fresh(c, c.rate), steps)
    ensures end.Some? ==> end.value.taken <= c.rate + end.value.ticks * c.rate + Overdraft(c)
  {
    hide Overdraft, Granted, Refilled, Sum;
    var g := new GroupBucket(c);
    var granted: seq<nat> := Given(c.members, 0, 0);
    var taken: nat, added: int, ticks: nat := 0, 0, 0;
    var i := 0;
    while i < |steps|
      invariant 0 <= i <= |steps| && g.c == c
      invariant After(c, Fresh(c, c.rate), steps)
             == After(c, Group(g.limit, g.suspended, granted, taken, added, ticks), steps[i..])
    {
      if !Enabled(c, Group(g.limit, g.suspended, granted, taken, added, ticks), steps[i]) { return None; }
      assert steps[i..][1..] == steps[i + 1..];
      match steps[i] {
        case Ask(m, own) =>
          var most := g.MaxFor(own);
          granted := granted[m := most];
        case Account(m, bytes) =>
          g.Decrement(bytes);
          granted, taken := granted[m := 0], taken + bytes;
        case Drop(m) =>
          granted := granted[m := 0];
        case Tick(n) =>
          var before := g.limit;
          g.RefillTick(n);
          added, ticks := added + g.limit - before, ticks + n;
      }
      i := i + 1;
    }
    end := Some(Group(g.limit, g.suspended, granted, taken, added, ticks));
    TakenBounded(c, Fresh(c, c.rate), steps);
  }
}
