/** A bufferevent's own rate limit (`bufferevent_ratelim.c`, `bufferevent.c`): the bucket, the reasons for which each
    direction is suspended, and the refill timer.  Every method runs under the bufferevent's lock. */
module RateLimit {

  import opened Wrappers
  import opened Arithmetic
  import opened TokenBucket

  /** `bufferevent_suspend_flags`. */
  datatype Reason = Watermark | Bandwidth | Group | Lookup | FilterRead

  /** `struct ev_token_bucket`. */
  class Bucket {
    var readLimit: int
    var writeLimit: int
    var last: nat

    ghost predicate Fits(half: int) reads this {
      Width(half) && -half <= readLimit < half && -half <= writeLimit < half && last < TWO_TO_32
    }

    function Read(): Side reads this { Side(readLimit, last) }
    function Write(): Side reads this { Side(writeLimit, last) }

    constructor ()
      ensures readLimit == 0 && writeLimit == 0 && last == 0
    {
      readLimit, writeLimit, last := 0, 0, 0;
    }

    /** `ev_token_bucket_init`. */
    method Init(cfg: Config, tick: nat, reinitialize: bool)
      requires cfg.Ok() && tick < TWO_TO_32 && (reinitialize ==> Fits(cfg.half))
      modifies this
      ensures Fits(cfg.half) && readLimit <= cfg.readMaximum && writeLimit <= cfg.writeMaximum
      ensures reinitialize ==> Read() == old(Read()).(limit := Min(old(readLimit), cfg.readMaximum))
      ensures reinitialize ==> Write() == old(Write()).(limit := Min(old(writeLimit), cfg.writeMaximum))
      ensures !reinitialize ==> Read() == Side(cfg.readRate, tick) && Write() == Side(cfg.writeRate, tick)
    {
      if reinitialize {
        if readLimit > cfg.readMaximum { readLimit := cfg.readMaximum; }
        if writeLimit > cfg.writeMaximum { writeLimit := cfg.writeMaximum; }
      } else {
        readLimit, writeLimit, last := cfg.readRate, cfg.writeRate, tick;
      }
    }

    /** `ev_token_bucket_update`: one call serves both directions. */
    method Update(cfg: Config, tick: nat) returns (changed: bool)
      requires cfg.Ok() && Fits(cfg.half) && tick < TWO_TO_32
      modifies this
      ensures Fits(cfg.half)
      ensures Read() == Updated(cfg.half, old(Read()), cfg.readRate, cfg.readMaximum, tick)
      ensures Write() == Updated(cfg.half, old(Write()), cfg.writeRate, cfg.writeMaximum, tick)
      ensures changed <==> 1 <= TicksBetween(old(last), tick) <= INT_MAX
      ensures old(readLimit) <= cfg.readMaximum ==> old(readLimit) <= readLimit <= cfg.readMaximum
      ensures old(writeLimit) <= cfg.writeMaximum ==> old(writeLimit) <= writeLimit <= cfg.writeMaximum
    {
      var half := cfg.half;
      var ticks := (tick - last) % TWO_TO_32;
      if ticks == 0 || ticks > INT_MAX {
        return false;
      }
      AddedRises(half, readLimit, cfg.readRate, cfg.readMaximum, ticks);
      AddedRises(half, writeLimit, cfg.writeRate, cfg.writeMaximum, ticks);
      if Unsigned(half, cfg.readMaximum - readLimit) / ticks < cfg.readRate {
        readLimit := Signed(half, cfg.readMaximum);
      } else {
        readLimit := Signed(half, readLimit + Unsigned(half, ticks * cfg.readRate));
      }
      if Unsigned(half, cfg.writeMaximum - writeLimit) / ticks < cfg.writeRate {
        writeLimit := Signed(half, cfg.writeMaximum);
      } else {
        writeLimit := Signed(half, writeLimit + Unsigned(half, ticks * cfg.writeRate));
      }
      last := tick;
      changed := true;
    }
  }

  lemma {:induction false} AddedRises(half: int, limit: int, rate: nat, maximum: nat, n: nat)
    requires Width(half) && RateOk(half, rate, maximum) && n > 0 && -half <= limit < half
    ensures -half <= Added(half, limit, rate, maximum, n) < half
    ensures limit <= maximum ==> limit <= Added(half, limit, rate, maximum, n) <= maximum
  {
    hide Signed, Unsigned;
    AddedExact(half, limit, rate, maximum, n);
    assert n * rate >= 0;
  }

  /** What a member sees of its group, for one direction. */
  datatype GroupState = GroupState(suspended: bool, limit: int, members: nat, minShare: nat)

  function ShareOf(group: Option<GroupState>): (r: Option<int>)
    requires group.Some? ==> group.value.members > 0
  {
    match group
    case None => None
    case Some(g) => Some(Share(g.suspended, g.limit, g.members, g.minShare))
  }

  /** The clamping in `_bufferevent_get_rlim_max`. */
  lemma AllowedIs(most: int, own: Option<int>, share: Option<int>)
    requires most == if own.Some? then own.value else MAX_TO_MOVE_EVER
    ensures Allowed(own, share) == Max(0, if share.Some? then Min(most, share.value) else most)
  {
  }

  lemma NothingAllowedLess(own: Option<int>, share: Option<int>)
    requires own.None? && share.None?
    ensures Allowed(own, share) == MAX_TO_MOVE_EVER
  {
  }

  /** `struct bufferevent_private`, as far as suspension goes. */
  class Bufferevent {
    const half: int
    const limit: Bucket                    // rlim->limit
    var limiting: bool                     // rate_limiting is allocated
    var cfg: Config?
    var readSuspended: set<Reason>
    var writeSuspended: set<Reason>
    var readEnabled: bool                  // enabled & EV_READ
    var writeEnabled: bool
    var readOn: bool                       // what the backend was last told
    var writeOn: bool
    var scheduled: bool                    // the refill timer is pending or active
    var firing: bool                       // its callback has begun and waits for the lock

    /** A direction is on in the backend exactly when the user enabled it and nothing suspends it. */
    ghost predicate Gated() reads this {
      && (readOn <==> readEnabled && readSuspended == {})
      && (writeOn <==> writeEnabled && writeSuspended == {})
    }

    /** Whoever is suspended for bandwidth is limited and will be looked at again. */
    ghost predicate Timed() reads this, limit {
      && (cfg != null ==> limiting && cfg.Ok() && cfg.half == half && limit.Fits(half))
      && (cfg == null ==> !scheduled)
      && (Bandwidth in readSuspended || Bandwidth in writeSuspended ==> cfg != null && (scheduled || firing))
    }

    ghost predicate Valid() reads this, limit { Width(half) && Gated() && Timed() }

    /** An exhausted bucket moves no traffic; lost only by refunds above the maximum (see RefundGrows). */
    ghost predicate Enforced() reads this, limit {
      cfg != null ==>
        && limit.readLimit <= cfg.readMaximum && limit.writeLimit <= cfg.writeMaximum
        && (limit.readLimit <= 0 ==> Bandwidth in readSuspended)
        && (limit.writeLimit <= 0 ==> Bandwidth in writeSuspended)
    }

    constructor (half: int)
      requires Width(half)
      ensures Valid() && Enforced() && cfg == null && fresh(limit) && this.half == half
      ensures !limiting && !firing && readSuspended == writeSuspended == {} && !readEnabled && !writeEnabled
    {
      this.half := half;
      limit := new Bucket();
      limiting, cfg, readSuspended, writeSuspended := false, null, {}, {};
      readEnabled, writeEnabled, readOn, writeOn, scheduled, firing := false, false, false, false, false, false;
    }

    // ---------- Suspension flags (bufferevent.c) ----------

    method SuspendRead(what: set<Reason>)
      requires Gated() && what != {}
      modifies this`readOn, this`readSuspended
      ensures Gated() && readSuspended == old(readSuspended) + what
    {
      if readSuspended == {} { readOn := false; }
      readSuspended := readSuspended + what;
    }

    method UnsuspendRead(what: set<Reason>)
      requires Gated()
      modifies this`readOn, this`readSuspended
      ensures Gated() && readSuspended == old(readSuspended) - what
    {
      readSuspended := readSuspended - what;
      if readSuspended == {} && readEnabled { readOn := true; }
    }

    method SuspendWrite(what: set<Reason>)
      requires Gated() && what != {}
      modifies this`writeOn, this`writeSuspended
      ensures Gated() && writeSuspended == old(writeSuspended) + what
    {
      if writeSuspended == {} { writeOn := false; }
      writeSuspended := writeSuspended + what;
    }

    method UnsuspendWrite(what: set<Reason>)
      requires Gated()
      modifies this`writeOn, this`writeSuspended
      ensures Gated() && writeSuspended == old(writeSuspended) - what
    {
      writeSuspended := writeSuspended - what;
      if writeSuspended == {} && writeEnabled { writeOn := true; }
    }

    /** `bufferevent_enable`. */
    method Enable(read: bool, write: bool)
      requires Gated()
      modifies this`readEnabled, this`writeEnabled, this`readOn, this`writeOn
      ensures Gated() && readEnabled == (old(readEnabled) || read) && writeEnabled == (old(writeEnabled) || write)
    {
      var implRead := read && readSuspended == {};
      var implWrite := write && writeSuspended == {};
      readEnabled, writeEnabled := readEnabled || read, writeEnabled || write;
      if implRead { readOn := true; }
      if implWrite { writeOn := true; }
    }

    /** `bufferevent_disable`. */
    method Disable(read: bool, write: bool)
      requires Gated()
      modifies this`readEnabled, this`writeEnabled, this`readOn, this`writeOn
      ensures Gated() && readEnabled == (old(readEnabled) && !read) && writeEnabled == (old(writeEnabled) && !write)
    {
      readEnabled, writeEnabled := readEnabled && !read, writeEnabled && !write;
      if read { readOn := false; }
      if write { writeOn := false; }
    }

    // ---------- Spending ----------

    /** `_bufferevent_decrement_read_buckets`, the bufferevent's own bucket.  A negative amount is a refund. */
    method DecrementRead(bytes: int)
      requires Valid() && (cfg != null ==> -half <= limit.readLimit - bytes < half)
      modifies this`readOn, this`readSuspended, this`scheduled, limit`readLimit
      ensures Valid()
      ensures cfg == null ==> limit.readLimit == old(limit.readLimit) && readSuspended == old(readSuspended)
      ensures cfg != null ==> limit.readLimit == old(limit.readLimit) - bytes
      ensures cfg != null ==>
                readSuspended == if limit.readLimit <= 0 then old(readSuspended) + {Bandwidth}
                                 else old(readSuspended) - {Bandwidth}
      ensures cfg != null ==>
                scheduled == if limit.readLimit <= 0 then true
                             else old(scheduled) && (Bandwidth in writeSuspended || Bandwidth !in old(readSuspended))
      ensures old(Enforced()) && (cfg != null ==> limit.readLimit <= cfg.readMaximum) ==> Enforced()
    {
      if !limiting { return; }
      if cfg != null {
        limit.readLimit := limit.readLimit - bytes;
        if limit.readLimit <= 0 {
          SuspendRead({Bandwidth});
          scheduled := true;
        } else if Bandwidth in readSuspended {
          if Bandwidth !in writeSuspended { scheduled := false; }
          UnsuspendRead({Bandwidth});
        }
      }
    }

    /** `_bufferevent_decrement_write_buckets`, likewise. */
    method DecrementWrite(bytes: int)
      requires Valid() && (cfg != null ==> -half <= limit.writeLimit - bytes < half)
      modifies this`writeOn, this`writeSuspended, this`scheduled, limit`writeLimit
      ensures Valid()
      ensures cfg == null ==> limit.writeLimit == old(limit.writeLimit) && writeSuspended == old(writeSuspended)
      ensures cfg != null ==> limit.writeLimit == old(limit.writeLimit) - bytes
      ensures cfg != null ==>
                writeSuspended == if limit.writeLimit <= 0 then old(writeSuspended) + {Bandwidth}
                                 else old(writeSuspended) - {Bandwidth}
      ensures cfg != null ==>
                scheduled == if limit.writeLimit <= 0 then true
                             else old(scheduled) && (Bandwidth in readSuspended || Bandwidth !in old(writeSuspended))
      ensures old(Enforced()) && (cfg != null ==> limit.writeLimit <= cfg.writeMaximum) ==> Enforced()
    {
      if !limiting { return; }
      if cfg != null {
        limit.writeLimit := limit.writeLimit - bytes;
        if limit.writeLimit <= 0 {
          SuspendWrite({Bandwidth});
          scheduled := true;
        } else if Bandwidth in writeSuspended {
          if Bandwidth !in readSuspended { scheduled := false; }
          UnsuspendWrite({Bandwidth});
        }
      }
    }

    /** `bufferevent_update_buckets` */
    method UpdateBuckets(tick: nat)
      requires Valid() && cfg != null && tick < TWO_TO_32
      modifies limit
      ensures Valid() && (old(Enforced()) ==> Enforced())
      ensures limit.Read() == Updated(half, old(limit.Read()), cfg.readRate, cfg.readMaximum, tick)
      ensures limit.Write() == Updated(half, old(limit.Write()), cfg.writeRate, cfg.writeMaximum, tick)
    {
      if tick != limit.last {
        var _ := limit.Update(cfg, tick);
      }
    }

    /** The group's part of `_bufferevent_get_rlim_max` for reading. */
    method JoinRead(g: GroupState) returns (share: int)
      requires Gated() && g.members > 0
      modifies this`readOn, this`readSuspended
      ensures Gated() && readSuspended == old(readSuspended) + if g.suspended then {Group} else {}
      ensures share == Share(g.suspended, g.limit, g.members, g.minShare)
    {
      if g.suspended {
        SuspendRead({Group});
        return 0;
      }
      share := if g.limit >= 0 then g.limit / g.members else -(-g.limit / g.members);
      if share < g.minShare { share := g.minShare; }
    }

    /** The group's part of `_bufferevent_get_rlim_max` for writing. */
    method JoinWrite(g: GroupState) returns (share: int)
      requires Gated() && g.members > 0
      modifies this`writeOn, this`writeSuspended
      ensures Gated() && writeSuspended == old(writeSuspended) + if g.suspended then {Group} else {}
      ensures share == Share(g.suspended, g.limit, g.members, g.minShare)
    {
      if g.suspended {
        SuspendWrite({Group});
        return 0;
      }
      share := if g.limit >= 0 then g.limit / g.members else -(-g.limit / g.members);
      if share < g.minShare { share := g.minShare; }
    }

    /** `_bufferevent_get_rlim_max` for reading. A member that finds its group suspended takes over the suspension.
        With a configuration the constant cap does not apply (CapHolds says when it is kept all the same). */
    method ReadMax(tick: nat, group: Option<GroupState>) returns (r: nat)
      requires Valid() && tick < TWO_TO_32 && (group.Some? ==> group.value.members > 0)
      modifies limit, this`readOn, this`readSuspended
      ensures Valid() && (old(Enforced()) ==> Enforced())
      ensures cfg == null ==> limit.Read() == old(limit.Read()) && limit.Write() == old(limit.Write())
      ensures cfg != null ==> limit.Read() == Updated(half, old(limit.Read()), cfg.readRate, cfg.readMaximum, tick)
      ensures cfg != null ==> limit.Write() == Updated(half, old(limit.Write()), cfg.writeRate, cfg.writeMaximum, tick)
      ensures readSuspended ==
              old(readSuspended) + if limiting && group.Some? && group.value.suspended then {Group} else {}
      ensures r == Allowed(if cfg != null then Some(limit.readLimit) else None,
                           if limiting then ShareOf(group) else None)
      ensures r <= MAX_TO_MOVE_EVER <==>
                cfg == null || limit.readLimit <= MAX_TO_MOVE_EVER
                || (group.Some? && ShareOf(group).value <= MAX_TO_MOVE_EVER)
    {
      hide Allowed, Updated, Share;
      CapHolds(if cfg != null then Some(limit.readLimit) else None, if limiting then ShareOf(group) else None);
      var most: int := MAX_TO_MOVE_EVER;
      if !limiting {
        NothingAllowedLess(None, None);
        return most;
      }
      if cfg != null {
        UpdateBuckets(tick);
        most := limit.readLimit;
      }
      CapHolds(if cfg != null then Some(limit.readLimit) else None, ShareOf(group));
      AllowedIs(most, if cfg != null then Some(limit.readLimit) else None, ShareOf(group));
      if group.Some? {
        var share := JoinRead(group.value);
        if most > share { most := share; }
      }
      if most < 0 { most := 0; }
      r := most;
    }

    /** `_bufferevent_get_rlim_max` for writing. A member that finds its group suspended takes over the suspension.
        With a configuration the constant cap does not apply (CapHolds says when it is kept all the same). */
    method WriteMax(tick: nat, group: Option<GroupState>) returns (r: nat)
      requires Valid() && tick < TWO_TO_32 && (group.Some? ==> group.value.members > 0)
      modifies limit, this`writeOn, this`writeSuspended
      ensures Valid() && (old(Enforced()) ==> Enforced())
      ensures cfg == null ==> limit.Read() == old(limit.Read()) && limit.Write() == old(limit.Write())
      ensures cfg != null ==> limit.Read() == Updated(half, old(limit.Read()), cfg.readRate, cfg.readMaximum, tick)
      ensures cfg != null ==> limit.Write() == Updated(half, old(limit.Write()), cfg.writeRate, cfg.writeMaximum, tick)
      ensures writeSuspended ==
              old(writeSuspended) + if limiting && group.Some? && group.value.suspended then {Group} else {}
      ensures r == Allowed(if cfg != null then Some(limit.writeLimit) else None,
                           if limiting then ShareOf(group) else None)
      ensures r <= MAX_TO_MOVE_EVER <==>
                cfg == null || limit.writeLimit <= MAX_TO_MOVE_EVER
                || (group.Some? && ShareOf(group).value <= MAX_TO_MOVE_EVER)
    {
      hide Allowed, Updated, Share;
      CapHolds(if cfg != null then Some(limit.writeLimit) else None, if limiting then ShareOf(group) else None);
      var most: int := MAX_TO_MOVE_EVER;
      if !limiting {
        NothingAllowedLess(None, None);
        return most;
      }
      if cfg != null {
        UpdateBuckets(tick);
        most := limit.writeLimit;
      }
      CapHolds(if cfg != null then Some(limit.writeLimit) else None, ShareOf(group));
      AllowedIs(most, if cfg != null then Some(limit.writeLimit) else None, ShareOf(group));
      if group.Some? {
        var share := JoinWrite(group.value);
        if most > share { most := share; }
      }
      if most < 0 { most := 0; }
      r := most;
    }

    /** `bufferevent_decrement_read_limit`: only a crossing of zero changes the suspension. */
    method DecrementReadLimit(bytes: int)
      requires Valid() && cfg != null && -half <= limit.readLimit - bytes < half
      modifies this`readOn, this`readSuspended, this`scheduled, limit`readLimit
      ensures Valid()
      ensures limit.readLimit == old(limit.readLimit) - bytes
      ensures readSuspended == if old(limit.readLimit) > 0 >= limit.readLimit then old(readSuspended) + {Bandwidth}
                               else if old(limit.readLimit) <= 0 < limit.readLimit then old(readSuspended) - {Bandwidth}
                               else old(readSuspended)
      ensures scheduled == if old(limit.readLimit) > 0 >= limit.readLimit then true
                           else if old(limit.readLimit) <= 0 < limit.readLimit then old(scheduled)
                                  && Bandwidth in writeSuspended
                           else old(scheduled)
      ensures old(Enforced()) && limit.readLimit <= cfg.readMaximum ==> Enforced()
    {
      var before := limit.readLimit;
      limit.readLimit := limit.readLimit - bytes;
      if before > 0 && limit.readLimit <= 0 {
        SuspendRead({Bandwidth});
        scheduled := true;
      } else if before <= 0 && limit.readLimit > 0 {
        if Bandwidth !in writeSuspended { scheduled := false; }
        UnsuspendRead({Bandwidth});
      }
    }

    /** `bufferevent_decrement_write_limit`. */
    method DecrementWriteLimit(bytes: int)
      requires Valid() && cfg != null && -half <= limit.writeLimit - bytes < half
      modifies this`writeOn, this`writeSuspended, this`scheduled, limit`writeLimit
      ensures Valid()
      ensures limit.writeLimit == old(limit.writeLimit) - bytes
      ensures writeSuspended == if old(limit.writeLimit) > 0 >= limit.writeLimit then old(writeSuspended) + {Bandwidth}
                                else if old(limit.writeLimit) <= 0 < limit.writeLimit
                                         then old(writeSuspended) - {Bandwidth}
                                else old(writeSuspended)
      ensures scheduled == if old(limit.writeLimit) > 0 >= limit.writeLimit then true
                           else if old(limit.writeLimit) <= 0 < limit.writeLimit then old(scheduled)
                                  && Bandwidth in readSuspended
                           else old(scheduled)
      ensures old(Enforced()) && limit.writeLimit <= cfg.writeMaximum ==> Enforced()
    {
      var before := limit.writeLimit;
      limit.writeLimit := limit.writeLimit - bytes;
      if before > 0 && limit.writeLimit <= 0 {
        SuspendWrite({Bandwidth});
        scheduled := true;
      } else if before <= 0 && limit.writeLimit > 0 {
        if Bandwidth !in readSuspended { scheduled := false; }
        UnsuspendWrite({Bandwidth});
      }
    }

    // ---------- The refill timer ----------

    /** The loop takes the expired timer; the callback has yet to get the lock. */
    method Fire()
      requires Valid() && scheduled && !firing
      modifies this`scheduled, this`firing
      ensures Valid() && !scheduled && firing
    {
      scheduled, firing := false, true;
    }

    /** `_bev_refill_callback`: it looks at the state as it is now, whatever happened since the timer expired. */
    method Refill(tick: nat)
      requires Valid() && firing && tick < TWO_TO_32
      modifies this`readOn, this`writeOn, this`readSuspended, this`writeSuspended, this`scheduled, this`firing, limit
      ensures Valid() && !firing && (old(Enforced()) ==> Enforced())
      ensures cfg == null ==> limit.Read() == old(limit.Read()) && limit.Write() == old(limit.Write())
      ensures cfg == null ==> readSuspended == old(readSuspended) && writeSuspended == old(writeSuspended)
      ensures cfg != null ==> limit.Read() == Updated(half, old(limit.Read()), cfg.readRate, cfg.readMaximum, tick)
      ensures cfg != null ==> limit.Write() == Updated(half, old(limit.Write()), cfg.writeRate, cfg.writeMaximum, tick)
      ensures cfg != null ==> readSuspended == old(readSuspended) - (if limit.readLimit > 0 then {Bandwidth} else {})
      ensures cfg != null ==> writeSuspended == old(writeSuspended) - (if limit.writeLimit > 0 then {Bandwidth} else {})
      ensures scheduled == (old(scheduled) || Bandwidth in readSuspended || Bandwidth in writeSuspended)
    {
      firing := false;
      if !limiting || cfg == null { return; }
      var again := false;
      var _ := limit.Update(cfg, tick);
      if Bandwidth in readSuspended {
        if limit.readLimit > 0 { UnsuspendRead({Bandwidth}); } else { again := true; }
      }
      if Bandwidth in writeSuspended {
        if limit.writeLimit > 0 { UnsuspendWrite({Bandwidth}); } else { again := true; }
      }
      if again { scheduled := true; }
    }

    /** `bufferevent_set_rate_limit`. */
    method SetRateLimit(wanted: Config?, tick: nat)
      requires Valid() && tick < TWO_TO_32 && (wanted != null ==> wanted.Ok() && wanted.half == half)
      modifies this`cfg, this`limiting, this`readOn, this`writeOn, this`readSuspended, this`writeSuspended
      modifies this`scheduled, limit
      ensures Valid() && cfg == wanted && (old(Enforced()) ==> Enforced())
      ensures wanted == old(cfg) ==> limit.Read() == old(limit.Read()) && limit.Write() == old(limit.Write())
      ensures wanted == old(cfg) ==>
                readSuspended == old(readSuspended) && writeSuspended == old(writeSuspended)
                && scheduled == old(scheduled)
      ensures wanted == null ==>
                readSuspended == old(readSuspended) - {Bandwidth} && writeSuspended == old(writeSuspended) - {Bandwidth}
      ensures wanted != null && old(cfg) == null ==>
        && limit.Read() == Side(wanted.readRate, tick) && limit.Write() == Side(wanted.writeRate, tick)
        && readSuspended == old(readSuspended) - {Bandwidth} && writeSuspended == old(writeSuspended) - {Bandwidth}
      ensures wanted != null && old(cfg) != null && wanted != old(cfg) ==>
        && limit.Read() == old(limit.Read()).(limit := Min(old(limit.readLimit), wanted.readMaximum))
        && limit.Write() == old(limit.Write()).(limit := Min(old(limit.writeLimit), wanted.writeMaximum))
        && Enforced()
        && readSuspended
             == (if limit.readLimit > 0 then old(readSuspended) - {Bandwidth} else old(readSuspended) + {Bandwidth})
        && writeSuspended
             == (if limit.writeLimit > 0 then old(writeSuspended) - {Bandwidth} else old(writeSuspended) + {Bandwidth})
        && scheduled == (limit.readLimit <= 0 || limit.writeLimit <= 0)
    {
      if wanted == null {
        if limiting {
          cfg := null;
          UnsuspendRead({Bandwidth});
          UnsuspendWrite({Bandwidth});
          scheduled := false;
        }
        return;
      }
      if limiting && cfg == wanted { return; }
      var suspended := false;
      limiting := true;
      var reinitialize := cfg != null;
      cfg := wanted;
      limit.Init(wanted, tick, reinitialize);
      if reinitialize { scheduled := false; }
      if limit.readLimit > 0 {
        UnsuspendRead({Bandwidth});
      } else {
        SuspendRead({Bandwidth});
        suspended := true;
      }
      if limit.writeLimit > 0 {
        UnsuspendWrite({Bandwidth});
      } else {
        SuspendWrite({Bandwidth});
        suspended := true;
      }
      if suspended { scheduled := true; }
    }
  }

  // ---------- The methods against the bound ----------

  /** A read of at most `wanted` bytes in real tick `at`. */
  datatype Request = Request(at: nat, group: Option<GroupState>, wanted: nat)

  function Before(start: nat, reqs: seq<Request>, i: nat): (t: nat)
    requires i <= |reqs|
  {
    if i == 0 then start else reqs[i - 1].at
  }

  ghost predicate Paced(start: nat, reqs: seq<Request>) {
    && (forall i :: 0 <= i < |reqs| ==> Before(start, reqs, i) <= reqs[i].at <= Before(start, reqs, i) + INT_MAX)
    && (forall i :: 0 <= i < |reqs| && reqs[i].group.Some? ==> reqs[i].group.value.members > 0)
  }

  /** Reads as a bufferevent does them: ask what is allowed, read no more, account for it. */
  method Reads(bev: Bufferevent, start: nat, reqs: seq<Request>) returns (ts: seq<Transfer>, ghost sides: seq<Side>)
    requires bev.Valid() && bev.cfg != null && bev.limit.readLimit <= bev.cfg.readMaximum
             && bev.limit.last == start % TWO_TO_32
    requires Paced(start, reqs)
    modifies bev`readOn, bev`readSuspended, bev`scheduled, bev.limit
    ensures bev.Valid() && |ts| == |reqs| && |sides| == |ts| + 1 && sides[0] == old(bev.limit.Read())
    ensures forall i :: 0 <= i < |ts| ==> ts[i].at == reqs[i].at && ts[i].bytes <= reqs[i].wanted
    ensures Run(bev.half, bev.cfg.readRate, bev.cfg.readMaximum, start, sides, ts)
            && EndOf(start, ts) == Before(start, reqs, |reqs|)
  {
    hide Run, Took, RateOk, Paced, EndOf;
    ghost var half, rate, maximum := bev.half, bev.cfg.readRate, bev.cfg.readMaximum;
    sides := [bev.limit.Read()];
    ts := [];
    RunNothing(half, rate, maximum, start, sides[0]);
    var i := 0;
    assert Before(start, reqs, 0) == start;
    hide Before, Bufferevent.Valid;
    while i < |reqs|
      invariant 0 <= i <= |reqs| && |ts| == i && bev.Valid()
      invariant Run(half, rate, maximum, start, sides, ts) && |sides| == i + 1 && sides[i] == bev.limit.Read()
      invariant sides[0] == old(bev.limit.Read()) && EndOf(start, ts) == Before(start, reqs, i)
      invariant forall k :: 0 <= k < i ==> ts[k].at == reqs[k].at && ts[k].bytes <= reqs[k].wanted
    {
      PacedAt(start, reqs, i);
      var t := OneRead(bev, reqs[i]);
      RunMore(half, rate, maximum, start, sides, ts, t, bev.limit.Read());
      sides := sides + [bev.limit.Read()];
      ts := ts + [t];
      i := i + 1;
    }
  }

  /** Whatever is wanted and whatever the group says, no more passes than the bucket held plus the rate for every tick,
      and never more than burst plus ticks times rate. */
  method ReadsBounded(bev: Bufferevent, start: nat, reqs: seq<Request>) returns (ts: seq<Transfer>)
    requires bev.Valid() && bev.cfg != null && bev.limit.readLimit <= bev.cfg.readMaximum
             && bev.limit.last == start % TWO_TO_32
    requires Paced(start, reqs)
    modifies bev`readOn, bev`readSuspended, bev`scheduled, bev.limit
    ensures bev.Valid() && |ts| == |reqs| && Before(start, reqs, |reqs|) >= start
    ensures forall i :: 0 <= i < |ts| ==> ts[i].at == reqs[i].at && ts[i].bytes <= reqs[i].wanted
    ensures Total(ts) <= Max(0, old(bev.limit.readLimit)) + (Before(start, reqs, |reqs|) - start) * bev.cfg.readRate
    ensures Total(ts) <= bev.cfg.readMaximum + (Before(start, reqs, |reqs|) - start) * bev.cfg.readRate
  {
    hide Run, Before, EndOf, Total, Paced;
    ghost var sides;
    ts, sides := Reads(bev, start, reqs);
    RateHolds(bev.half, bev.cfg.readRate, bev.cfg.readMaximum, start, sides, ts);
  }

  method OneRead(bev: Bufferevent, req: Request) returns (t: Transfer)
    requires bev.Valid() && bev.cfg != null && (req.group.Some? ==> req.group.value.members > 0)
    modifies bev`readOn, bev`readSuspended, bev`scheduled, bev.limit
    ensures bev.Valid() && t.at == req.at && t.bytes <= req.wanted
    ensures Took(bev.half, bev.cfg.readRate, bev.cfg.readMaximum, old(bev.limit.Read()), t, bev.limit.Read())
  {
    hide Took, Updated, Allowed;
    var most := bev.ReadMax(req.at % TWO_TO_32, req.group);
    var bytes := if req.wanted <= most then req.wanted else most;
    AllowedFits(bev.limit.readLimit, ShareOf(req.group), most);
    ghost var u := bev.limit.Read();
    bev.DecrementRead(bytes);
    t := Transfer(req.at, ShareOf(req.group), bytes);
    TookIs(bev.half, bev.cfg.readRate, bev.cfg.readMaximum, old(bev.limit.Read()), t, u, bev.limit.Read());
  }

  lemma RunNothing(half: int, rate: nat, maximum: nat, start: nat, side: Side)
    requires Width(half) && side.last == start % TWO_TO_32 && -half <= side.limit <= maximum
    ensures Run(half, rate, maximum, start, [side], []) && EndOf(start, []) == start
  {
  }

  lemma PacedAt(start: nat, reqs: seq<Request>, i: nat)
    requires Paced(start, reqs) && i < |reqs|
    ensures Before(start, reqs, i) <= reqs[i].at <= Before(start, reqs, i) + INT_MAX
    ensures Before(start, reqs, i + 1) == reqs[i].at && (reqs[i].group.Some? ==> reqs[i].group.value.members > 0)
  {
  }

  lemma RunMore(half: int, rate: nat, maximum: nat, start: nat, sides: seq<Side>, ts: seq<Transfer>, t: Transfer,
                side: Side)
    requires Width(half) && Run(half, rate, maximum, start, sides, ts) && |sides| == |ts| + 1
    requires EndOf(start, ts) <= t.at <= EndOf(start, ts) + INT_MAX && Took(half, rate, maximum, sides[|ts|], t, side)
    ensures Run(half, rate, maximum, start, sides + [side], ts + [t]) && EndOf(start, ts + [t]) == t.at
  {
    hide Took;
    forall i: nat | i < |ts| + 1
      ensures (ts + [t])[..i] == ts[..i]
    {
    }
    assert ts[..|ts|] == ts;
  }

  lemma TookIs(half: int, rate: nat, maximum: nat, a: Side, t: Transfer, u: Side, b: Side)
    requires Width(half) && u == Updated(half, a, rate, maximum, t.at % TWO_TO_32)
    requires t.bytes <= Allowed(Some(u.limit), t.share) && b == u.(limit := u.limit - t.bytes)
    ensures Took(half, rate, maximum, a, t, b)
  {
  }

  lemma AllowedFits(limit: int, share: Option<int>, most: nat)
    requires most == Allowed(Some(limit), share)
    ensures Min(limit, 0) <= limit - most
  {
  }

  /** A bufferevent with a burst of 20000 bytes may read 20000 at once, above MAX_TO_READ_EVER. */
  method ReadAboveTheCap() returns (r: nat)
    ensures r == 20000 > MAX_TO_MOVE_EVER
  {
    var bev := new Bufferevent(0x8000_0000);
    var cfg := NewConfig(0x8000_0000, 20000, 20000, 1, 1);
    bev.SetRateLimit(cfg, 0);
    r := bev.ReadMax(0, None);
  }
}
