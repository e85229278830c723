/** Token buckets of `bufferevent_ratelim.c`: the refill in the machine's own arithmetic, and how much can pass. */
module TokenBucket {

  import opened Wrappers
  import opened Arithmetic

  const INT_MAX: nat := 0x7fff_ffff

  /** `size_t` has values below `2 * half` and `ev_ssize_t` those from `-half` up to `half - 1`. */
  predicate Width(half: int) { half >= 0x8000_0000 }

  function Unsigned(half: int, x: int): (r: nat)
    requires Width(half)
    ensures r < 2 * half
  {
    x % (2 * half)
  }

  function Signed(half: int, x: int): (r: int)
    requires Width(half)
    ensures -half <= r < half
  {
    var u := Unsigned(half, x);
    if u < half then u else u - 2 * half
  }

  function Min(a: int, b: int): int { if a <= b then a else b }
  function Max(a: int, b: int): int { if a <= b then b else a }

  /** `struct ev_token_bucket_cfg`; configurations are compared by address. */
  class Config {
    const half: int
    const readRate: nat
    const readMaximum: nat
    const writeRate: nat
    const writeMaximum: nat

    constructor (half: int, readRate: nat, readBurst: nat, writeRate: nat, writeBurst: nat)
      ensures this.half == half && this.readRate == readRate && this.readMaximum == readBurst
      ensures this.writeRate == writeRate && this.writeMaximum == writeBurst
    {
      this.half, this.readRate, this.readMaximum := half, readRate, readBurst;
      this.writeRate, this.writeMaximum := writeRate, writeBurst;
    }

    predicate Ok() {
      && Width(half)
      && RateOk(half, readRate, readMaximum)
      && RateOk(half, writeRate, writeMaximum)
    }
  }

  predicate RateOk(half: int, rate: nat, maximum: nat) {
    1 <= rate <= maximum < half
  }

  /** `ev_token_bucket_cfg_new`: the bounds below are what the rest relies on. */
  method NewConfig(half: int, readRate: nat, readBurst: nat, writeRate: nat, writeBurst: nat) returns (c: Config?)
    requires Width(half) && readRate < 2 * half && readBurst < 2 * half && writeRate < 2 * half && writeBurst < 2 * half
    ensures c != null <==> RateOk(half, readRate, readBurst) && RateOk(half, writeRate, writeBurst)
    ensures c != null ==> c.Ok() && fresh(c) && c.half == half
    ensures c != null ==> (c.readRate, c.readMaximum, c.writeRate, c.writeMaximum)
                          == (readRate, readBurst, writeRate, writeBurst)
  {
    if readRate > readBurst || writeRate > writeBurst || readRate < 1 || writeRate < 1 {
      return null;
    }
    var most := half - 1;
    if readRate > most || writeRate > most || readBurst > most || writeBurst > most {
      return null;
    }
    c := new Config(half, readRate, readBurst, writeRate, writeBurst);
  }

  // ---------- Refilling ----------

  /** What a refill by `n` ticks means. */
  function Refilled(limit: int, rate: nat, maximum: nat, n: nat): int {
    Min(maximum, limit + n * rate)
  }

  /** How the code adds `n` ticks to one limit without a wide multiplication; every operator wraps. */
  function Added(half: int, limit: int, rate: nat, maximum: nat, n: nat): int
    requires Width(half) && n > 0
  {
    if Unsigned(half, maximum - limit) / n < rate then
      Signed(half, maximum)
    else
      Signed(half, limit + Unsigned(half, n * rate))
  }

  lemma {:induction false} DivideBelow(x: nat, n: nat, rate: nat)
    requires n > 0
    ensures x / n < rate <==> x < n * rate
  {
    assert x == n * (x / n) + x % n;
    if x / n < rate {
      assert n * (x / n + 1) <= n * rate;
    } else {
      assert n * rate <= n * (x / n);
    }
  }

  lemma {:induction false} Wraps(half: int, x: int, y: int)
    requires Width(half) && 0 <= y < 2 * half && (x == y || x == y + 2 * half || x == y - 2 * half)
    ensures Unsigned(half, x) == y
  {
    ModUnique(2 * half, if x == y then 0 else if x > y then 1 else -1, x, y);
  }

  /** Exactly when the arithmetic does what it means: always for a limit that is not above the maximum; for one above it
      (after a refund) only if so many ticks passed that the wrapped difference is used up. */
  lemma {:induction false} AddedExact(half: int, limit: int, rate: nat, maximum: nat, n: nat)
    requires Width(half) && RateOk(half, rate, maximum) && n > 0 && -half <= limit < half
    ensures Added(half, limit, rate, maximum, n) == Refilled(limit, rate, maximum, n)
            <==> (limit <= maximum || n * rate >= 2 * half - (limit - maximum))
  {
    var d := if limit <= maximum then maximum - limit else maximum - limit + 2 * half;
    Wraps(half, maximum - limit, d);
    DivideBelow(d, n, rate);
    Wraps(half, maximum, maximum);
    var p := n * rate;
    if p <= d {
      Wraps(half, p, p);
      AddedSum(half, limit, maximum, p, d);
    }
  }

  lemma {:induction false} AddedSum(half: int, limit: int, maximum: nat, p: nat, d: nat)
    requires Width(half) && maximum < half && -half <= limit < half && 0 < p <= d
    requires d == if limit <= maximum then maximum - limit else maximum - limit + 2 * half
    ensures limit <= maximum ==> Signed(half, limit + p) == limit + p
    ensures limit > maximum ==> (Signed(half, limit + p) == maximum <==> p == d)
  {
    var sum := limit + p;
    var u := if sum < 0 then sum + 2 * half else if sum >= 2 * half then sum - 2 * half else sum;
    Wraps(half, sum, u);
  }

  /** A refund that lifts the limit above the maximum, and the next tick lifts it further. */
  lemma RefundGrows()
    ensures Refilled(20, 5, 10, 1) == 10 && Added(0x8000_0000, 20, 5, 10, 1) == 25
  {
  }

  /** Refilling tick by tick or all at once is the same. */
  lemma {:induction false} RefillsCompose(limit: int, rate: nat, maximum: nat, n: nat, m: nat)
    ensures Refilled(Refilled(limit, rate, maximum, n), rate, maximum, m) == Refilled(limit, rate, maximum, n + m)
  {
    assert (n + m) * rate == n * rate + m * rate;
  }

  // ---------- Ticks ----------

  /** One direction of a bucket. */
  datatype Side = Side(limit: int, last: nat)

  function TicksBetween(last: nat, tick: nat): (r: nat) {
    (tick - last) % TWO_TO_32
  }

  /** One direction of `ev_token_bucket_update`. */
  function Updated(half: int, s: Side, rate: nat, maximum: nat, tick: nat): Side
    requires Width(half)
  {
    var n := TicksBetween(s.last, tick);
    if n == 0 || n > INT_MAX then s else Side(Added(half, s.limit, rate, maximum, n), tick)
  }

  lemma {:induction false} TickWrap(before: nat, now: nat)
    requires before <= now < before + TWO_TO_32
    ensures TicksBetween(before % TWO_TO_32, now % TWO_TO_32) == now - before
  {
    var a, b := before / TWO_TO_32, now / TWO_TO_32;
    assert before == a * TWO_TO_32 + before % TWO_TO_32 && now == b * TWO_TO_32 + now % TWO_TO_32;
    var d := now % TWO_TO_32 - before % TWO_TO_32;
    assert d == now - before - (b - a) * TWO_TO_32;
    assert b - a == 0 || b - a == 1;
  }

  /** Whatever the 32-bit tick counter did in between, an update after at most INT_MAX real ticks refills by exactly
      those ticks. */
  lemma {:induction false} UpdateIsRefill(half: int, limit: int, rate: nat, maximum: nat, before: nat, now: nat)
    requires Width(half) && RateOk(half, rate, maximum) && -half <= limit <= maximum
    requires before <= now <= before + 0x7fff_ffff
    ensures Updated(half, Side(limit, before % 0x1_0000_0000), rate, maximum, now % 0x1_0000_0000)
            == Side(Refilled(limit, rate, maximum, now - before), now % 0x1_0000_0000)
    ensures -half <= Refilled(limit, rate, maximum, now - before) <= maximum
  {
    TickWrap(before, now);
    if now > before {
      AddedExact(half, limit, rate, maximum, now - before);
    }
    assert (now - before) * rate >= 0;
  }

  /** When time rolled back by at most INT_MAX ticks nothing changes. */
  lemma {:induction false} RollbackIgnored(half: int, s: Side, rate: nat, maximum: nat, now: nat, back: nat)
    requires Width(half) && 1 <= back <= 0x7fff_ffff && s.last == (now + back) % 0x1_0000_0000
    ensures Updated(half, s, rate, maximum, now % 0x1_0000_0000) == s
  {
    var n := TicksBetween(s.last, now % TWO_TO_32);
    TickWrap(now, now + back);
    var d := now % TWO_TO_32 - s.last;
    assert (s.last - now % TWO_TO_32) % TWO_TO_32 == back;
    if d > 0 { assert n == d && -d + TWO_TO_32 == back; } else { assert -d == back && n == d + TWO_TO_32; }
  }

  /** An exhausted bucket becomes positive again after exactly the ticks that pay its debt. */
  lemma {:induction false} DebtPaid(limit: int, rate: nat, maximum: nat, n: nat)
    requires 1 <= rate <= maximum && limit <= 0
    ensures Refilled(limit, rate, maximum, n) > 0 <==> n > -limit / rate
  {
    DivideBelow(-limit, rate, n);
    assert n * rate == rate * n;
  }

  // ---------- The bound ----------

  /** `_bufferevent_get_rlim_max` from the bufferevent's own limit and its share of the group's. */
  function Allowed(own: Option<int>, share: Option<int>): (r: nat) {
    var most := if own.Some? then own.value else MAX_TO_MOVE_EVER;
    var clamped := if share.Some? && most > share.value then share.value else most;
    if clamped < 0 then 0 else clamped
  }

  const MAX_TO_MOVE_EVER: nat := 16384

  /** MAX_TO_READ_EVER and MAX_TO_WRITE_EVER cap the amount exactly when the bufferevent has no limit of its own, or its
      limit or the group's share is below them anyway. */
  lemma CapHolds(own: Option<int>, share: Option<int>)
    ensures Allowed(own, share) <= 16384 <==>
      own.None? || own.value <= 16384 || (share.Some? && share.value <= 16384)
  {
  }

  /** A bucket of 20000 bytes lets 20000 pass at once. */
  lemma CapFails()
    ensures Allowed(Some(20000), None) == 20000 > 16384
  {
  }

  // ---------- The group's share ----------

  /** What `_bufferevent_get_rlim_max` grants one of `members` members: nothing while the group is suspended,
      otherwise an equal part of what the group may still move (C division), but at least `minShare`. */
  function Share(suspended: bool, limit: int, members: nat, minShare: nat): (r: int)
    requires members > 0
  {
    if suspended then 0
    else
      var part := if limit >= 0 then limit / members else -(-limit / members);
      if part < minShare then minShare else part
  }

  /** One round: if all members ask at one moment and move their shares, they stay within what the group had exactly
      when the least share is no more than an equal part. `GroupShare` has whole runs. */
  lemma {:induction false} SharesFit(limit: nat, members: nat, minShare: nat)
    requires members > 0
    ensures members * Share(false, limit, members, minShare) <= limit <==> minShare <= limit / members
  {
    DivMod(limit, members);
    if minShare > limit / members {
      Distribute(members, minShare, limit / members);
      Multiple(members, minShare - limit / members);
    }
  }

  /** Two members with a least share of 64 take 128 from a group that had 100. */
  lemma SharesExceed()
    ensures 2 * Share(false, 100, 2, 64) == 128
  {
  }

  /** A transfer in real tick `at`, when the group (if any) allowed `share`. */
  datatype Transfer = Transfer(at: nat, share: Option<int>, bytes: nat)

  ghost predicate Took(half: int, rate: nat, maximum: nat, a: Side, t: Transfer, b: Side)
    requires Width(half)
  {
    var u := Updated(half, a, rate, maximum, t.at % TWO_TO_32);
    && t.bytes <= Allowed(Some(u.limit), t.share)
    && b == u.(limit := u.limit - t.bytes)
  }

  function Total(ts: seq<Transfer>): nat {
    if ts == [] then 0 else Total(ts[..|ts| - 1]) + ts[|ts| - 1].bytes
  }

  function EndOf(start: nat, ts: seq<Transfer>): nat {
    if ts == [] then start else ts[|ts| - 1].at
  }

  /** The bucket before the first and after each transfer, with pauses of at most INT_MAX ticks. */
  ghost predicate Run(half: int, rate: nat, maximum: nat, start: nat, sides: seq<Side>, ts: seq<Transfer>)
    requires Width(half)
  {
    && |sides| == |ts| + 1
    && sides[0].last == start % TWO_TO_32
    && -half <= sides[0].limit <= maximum
    && (forall i: nat :: i < |ts| ==> EndOf(start, ts[..i]) <= ts[i].at <= EndOf(start, ts[..i]) + INT_MAX)
    && (forall i: nat :: i < |ts| ==> Took(half, rate, maximum, sides[i], ts[i], sides[i + 1]))
  }

  lemma {:induction false} RunPrefix(half: int, rate: nat, maximum: nat, start: nat, sides: seq<Side>,
                                     ts: seq<Transfer>)
    requires Width(half) && Run(half, rate, maximum, start, sides, ts) && ts != []
    ensures Run(half, rate, maximum, start, sides[..|sides| - 1], ts[..|ts| - 1])
  {
    var us := ts[..|ts| - 1];
    forall i: nat | i < |us|
      ensures us[..i] == ts[..i]
    {
    }
  }

  lemma {:induction false} OneTransfer(limit: int, filled: int, paid: nat, maximum: nat, share: Option<int>, bytes: nat)
    requires limit <= maximum && filled == Min(maximum, limit + paid) && bytes <= Allowed(Some(filled), share)
    ensures bytes + Max(0, filled - bytes) <= Max(0, limit) + paid
    ensures Min(filled, 0) <= filled - bytes <= maximum
  {
  }

  /** Over any run of transfers, from any moment on, no more bytes pass than what the bucket held then (or nothing, if
      it was overdrawn) plus the rate for every tick since; in particular never more than burst plus ticks times
      rate. */
  lemma {:induction false} RateHolds(half: int, rate: nat, maximum: nat, start: nat, sides: seq<Side>,
                                     ts: seq<Transfer>)
    requires Width(half) && RateOk(half, rate, maximum) && Run(half, rate, maximum, start, sides, ts)
    ensures EndOf(start, ts) >= start
    ensures sides[|ts|].last == EndOf(start, ts) % TWO_TO_32 && -half <= sides[|ts|].limit <= maximum
    ensures Total(ts) + Max(0, sides[|ts|].limit) <= Max(0, sides[0].limit) + (EndOf(start, ts) - start) * rate
    ensures Total(ts) <= maximum + (EndOf(start, ts) - start) * rate
    decreases |ts|
  {
    hide Run, Took, Allowed, Updated, Refilled;
    RunStart(half, rate, maximum, start, sides, ts);
    if ts != [] {
      var n: nat := |ts| - 1;
      var before, now := EndOf(start, ts[..n]), ts[n].at;
      RunPrefix(half, rate, maximum, start, sides, ts);
      RateHolds(half, rate, maximum, start, sides[..n + 1], ts[..n]);
      var paid := LastTransfer(half, rate, maximum, start, sides, ts, n);
      Spread(now, before, start, rate);
    }
  }

  lemma Spread(now: nat, before: nat, start: nat, rate: nat)
    ensures (now - start) * rate == (now - before) * rate + (before - start) * rate
  {
  }

  lemma {:induction false} RunStart(half: int, rate: nat, maximum: nat, start: nat, sides: seq<Side>, ts: seq<Transfer>)
    requires Width(half) && Run(half, rate, maximum, start, sides, ts)
    ensures |sides| == |ts| + 1 && sides[0].last == start % TWO_TO_32 && -half <= sides[0].limit <= maximum
  {
  }

  lemma {:induction false} LastTransfer(half: int, rate: nat, maximum: nat, start: nat, sides: seq<Side>,
                                        ts: seq<Transfer>, n: nat)
    returns (paid: nat)
    requires Width(half) && RateOk(half, rate, maximum) && Run(half, rate, maximum, start, sides, ts)
    requires |ts| == n + 1 && |sides| == n + 2
    requires sides[n].last == EndOf(start, ts[..n]) % TWO_TO_32 && -half <= sides[n].limit <= maximum
    ensures EndOf(start, ts[..n]) <= ts[n].at && paid == (ts[n].at - EndOf(start, ts[..n])) * rate
    ensures sides[n + 1].last == ts[n].at % TWO_TO_32 && -half <= sides[n + 1].limit <= maximum
    ensures ts[n].bytes + Max(0, sides[n + 1].limit) <= Max(0, sides[n].limit) + paid
  {
    hide Updated, Refilled, Allowed, Run, Took;
    LastTook(half, rate, maximum, start, sides, ts, n);
    paid := StepPaid(half, rate, maximum, EndOf(start, ts[..n]), sides[n], ts[n], sides[n + 1]);
  }

  lemma LastTook(half: int, rate: nat, maximum: nat, start: nat, sides: seq<Side>, ts: seq<Transfer>, n: nat)
    requires Width(half) && Run(half, rate, maximum, start, sides, ts) && |ts| == n + 1 && |sides| == n + 2
    ensures Took(half, rate, maximum, sides[n], ts[n], sides[n + 1])
    ensures EndOf(start, ts[..n]) <= ts[n].at <= EndOf(start, ts[..n]) + INT_MAX
  {
  }

  lemma {:induction false} StepPaid(half: int, rate: nat, maximum: nat, before: nat, a: Side, t: Transfer, b: Side)
    returns (paid: nat)
    requires Width(half) && RateOk(half, rate, maximum) && Took(half, rate, maximum, a, t, b)
    requires a.last == before % TWO_TO_32 && -half <= a.limit <= maximum && before <= t.at <= before + INT_MAX
    ensures paid == (t.at - before) * rate
    ensures b.last == t.at % TWO_TO_32 && -half <= b.limit <= maximum
    ensures t.bytes + Max(0, b.limit) <= Max(0, a.limit) + paid
  {
    hide Updated, Refilled, Allowed;
    UpdateIsRefill(half, a.limit, rate, maximum, before, t.at);
    assert a == Side(a.limit, before % TWO_TO_32);
    paid := (t.at - before) * rate;
    var filled := Refilled(a.limit, rate, maximum, t.at - before);
    RefilledIs(a.limit, rate, maximum, t.at - before, paid);
    OneTransfer(a.limit, filled, paid, maximum, t.share, t.bytes);
  }

  lemma RefilledIs(limit: int, rate: nat, maximum: nat, n: nat, paid: int)
    requires paid == n * rate
    ensures Refilled(limit, rate, maximum, n) == Min(maximum, limit + paid)
  {
  }
}
