/** The wake-up protocol of libev: any number of threads and signal handlers hand events to one loop that may be
    about to block in its poll call.  Every shared read and write of `evpipe_write`, `ev_async_send`,
    `ev_feed_signal`, `pipecb` and the polling part of `ev_run` is one atomic step of a transition system
    (sequentially consistent: the fences in the source are there for that). */
module WakeUp {

  // ---------- State ----------

  /** The two flags an event can be announced through: `sig_pending` and `async_pending`. */
  datatype Flag = SigFlag | AsyncFlag

  /** What a sender raises: `signals [n].pending` or the `sent` field of an async watcher. */
  datatype Source = Signal(number: nat) | Async(watcher: nat)

  function FlagOf(s: Source): Flag {
    if s.Signal? then SigFlag else AsyncFlag
  }

  /** Where a sender stands in `evpipe_write`; each value names the next access it makes. */
  datatype SenderPc =
    | ReadFlag(flag: Flag)
    | SetFlag(flag: Flag)
    | SetSkipped
    | ReadWanted
    | ClearSkipped
    | WritePipe

  /** Where the loop stands; each value names the next access it makes. */
  datatype LoopPc =
    | Outside                              // callbacks, fd and timer work; next: pipe_write_wanted = 1
    | CheckSkipped                         // decide whether to wait
    | Polling(block: bool)                 // inside backend_poll
    | ClearWanted(readable: bool)
    | CheckSkippedAfter(readable: bool)
    | Fed(readable: bool)                  // pipe_w is pending; other callbacks may run first
    | CallbackClearSkipped                 // pipecb, after its read
    | CheckFlag(flag: Flag)
    | ClearFlag(flag: Flag)
    | ScanTest(flag: Flag, left: nat)      // look at source left - 1
    | ScanFeed(flag: Flag, left: nat)      // it was raised: lower it and feed its event

  datatype State = State(
    wanted: bool,                  // pipe_write_wanted
    skipped: bool,                 // pipe_write_skipped
    sigPending: bool,
    asyncPending: bool,
    pipe: nat,                     // unread bytes (or the eventfd counter)
    raised: set<Source>,
    signals: seq<Source>,          // the signal table, in index order
    asyncs: seq<Source>,           // the started async watchers, in index order
    senders: map<nat, SenderPc>,   // threads and handlers inside evpipe_write
    pc: LoopPc,
    fed: seq<Source>)              // every event fed so far
  {
    function FlagSet(f: Flag): bool {
      if f.SigFlag? then sigPending else asyncPending
    }

    function WithFlag(f: Flag, b: bool): State {
      if f.SigFlag? then this.(sigPending := b) else this.(asyncPending := b)
    }

    /** The array that `pipecb` scans once it has seen flag `f`. */
    function Scanned(f: Flag): seq<Source> {
      if f.SigFlag? then signals else asyncs
    }
  }

  ghost predicate Distinct(s: seq<Source>) {
    forall i, j :: 0 <= i < j < |s| ==> s[i] != s[j]
  }

  ghost predicate Tables(st: State) {
    && (forall s :: s in st.signals ==> s.Signal?)
    && (forall s :: s in st.asyncs ==> s.Async?)
    && Distinct(st.signals)
    && Distinct(st.asyncs)
  }

  /** A registered source: a slot of the signal table or a started async watcher. */
  ghost predicate Registered(st: State, s: Source) {
    s in st.Scanned(FlagOf(s))
  }

  ghost predicate Init(st: State) {
    && Tables(st)
    && !st.wanted && !st.skipped && !st.sigPending && !st.asyncPending
    && st.pipe == 0 && st.raised == {} && st.senders == map[] && st.pc == Outside
  }

  // ---------- Steps of the senders ----------

  /** `w->sent = 1` or `signals [n].pending = 1`, then enter `evpipe_write`. */
  ghost predicate Raise(a: State, b: State, t: nat, s: Source) {
    && t !in a.senders
    && b == a.(raised := a.raised + {s}, senders := a.senders[t := ReadFlag(FlagOf(s))])
  }

  ghost predicate Leave(a: State, b: State, t: nat) {
    b == a.(senders := a.senders - {t})
  }

  /** One access of `evpipe_write` by thread `t`. */
  ghost predicate SenderStep(a: State, b: State, t: nat) {
    && t in a.senders
    && match a.senders[t]
       case ReadFlag(f) =>
         if a.FlagSet(f) then Leave(a, b, t) else b == a.(senders := a.senders[t := SetFlag(f)])
       case SetFlag(f) =>
         b == a.WithFlag(f, true).(senders := a.senders[t := SetSkipped])
       case SetSkipped =>
         b == a.(skipped := true, senders := a.senders[t := ReadWanted])
       case ReadWanted =>
         if a.wanted then b == a.(senders := a.senders[t := ClearSkipped]) else Leave(a, b, t)
       case ClearSkipped =>
         b == a.(skipped := false, senders := a.senders[t := WritePipe])
       case WritePipe =>
         // a full pipe refuses the byte, but then it is not empty
         || b == a.(pipe := a.pipe + 1, senders := a.senders - {t})
         || (a.pipe > 0 && Leave(a, b, t))
  }

  // ---------- Steps of the loop ----------

  /** What `pipecb` reads: one byte of a pipe, or the whole counter of an eventfd. */
  function AfterRead(eventfd: bool, pipe: nat): nat {
    if eventfd || pipe == 0 then 0 else pipe - 1
  }

  /** Where `pipecb` goes once it is done with flag `f`. */
  function AfterFlag(f: Flag): LoopPc {
    if f.SigFlag? then CheckFlag(AsyncFlag) else Outside
  }

  /** Leaving `backend_poll`.  A waiting poll returns for other reasons too (a timeout, another descriptor); it
      reports the pipe readable exactly when it is, unless the call was interrupted. */
  ghost predicate PollReturns(a: State, b: State, interrupted: bool) {
    && a.pc.Polling?
    && b == a.(pc := ClearWanted(!interrupted && a.pipe > 0))
  }

  /** The one access the loop makes at its present point; `mayWait` is the rest of the condition for waiting
      (EVRUN_NOWAIT, idle watchers, no active watchers), `interrupted` an EINTR from the poll call. */
  ghost predicate LoopStep(eventfd: bool, a: State, b: State, mayWait: bool, interrupted: bool) {
    match a.pc
    case Outside => b == a.(wanted := true, pc := CheckSkipped)
    case CheckSkipped => b == a.(pc := Polling(mayWait && !a.skipped))
    case Polling(_) => PollReturns(a, b, interrupted)
    case ClearWanted(readable) => b == a.(wanted := false, pc := CheckSkippedAfter(readable))
    case CheckSkippedAfter(readable) =>
      b == a.(pc := if readable || a.skipped then Fed(readable) else Outside)
    case Fed(readable) =>
      b == a.(pipe := if readable then AfterRead(eventfd, a.pipe) else a.pipe, pc := CallbackClearSkipped)
    case CallbackClearSkipped => b == a.(skipped := false, pc := CheckFlag(SigFlag))
    case CheckFlag(f) => b == a.(pc := if a.FlagSet(f) then ClearFlag(f) else AfterFlag(f))
    case ClearFlag(f) => b == a.WithFlag(f, false).(pc := ScanTest(f, |a.Scanned(f)|))
    case ScanTest(f, left) =>
      && left <= |a.Scanned(f)|
      && b == a.(pc := if left == 0 then AfterFlag(f)
                       else if a.Scanned(f)[left - 1] in a.raised then ScanFeed(f, left)
                       else ScanTest(f, left - 1))
    case ScanFeed(f, left) =>
      && 0 < left <= |a.Scanned(f)|
      && var s := a.Scanned(f)[left - 1];
         b == a.(raised := a.raised - {s}, fed := a.fed + [s], pc := ScanTest(f, left - 1))
  }

  /** `ev_async_start` from a callback. */
  ghost predicate AsyncStart(a: State, b: State, w: Source) {
    && (a.pc.Outside? || a.pc.Fed?)
    && w.Async? && w !in a.asyncs
    && b == a.(raised := a.raised - {w}, asyncs := a.asyncs + [w])
  }

  /** `ev_async_stop` from a callback: the last watcher takes the freed slot. */
  ghost predicate AsyncStop(a: State, b: State, slot: nat) {
    && (a.pc.Outside? || a.pc.Fed?)
    && slot < |a.asyncs|
    && b == a.(asyncs := a.asyncs[slot := a.asyncs[|a.asyncs| - 1]][..|a.asyncs| - 1])
  }

  datatype Step =
    | RaiseStep(t: nat, s: Source)
    | EvpipeStep(t: nat)
    | LoopAccess(mayWait: bool, interrupted: bool)
    | StartStep(w: Source)
    | StopStep(slot: nat)

  ghost predicate NextStep(eventfd: bool, a: State, b: State, step: Step) {
    match step
    case RaiseStep(t, s) => Raise(a, b, t, s)
    case EvpipeStep(t) => SenderStep(a, b, t)
    case LoopAccess(mayWait, interrupted) => LoopStep(eventfd, a, b, mayWait, interrupted)
    case StartStep(w) => AsyncStart(a, b, w)
    case StopStep(slot) => AsyncStop(a, b, slot)
  }

  ghost predicate Next(eventfd: bool, a: State, b: State) {
    exists step :: NextStep(eventfd, a, b, step)
  }

  /** A run: any interleaving of any number of senders with the loop. */
  ghost predicate Run(eventfd: bool, run: seq<State>) {
    && run != []
    && Init(run[0])
    && forall i {:trigger Next(eventfd, run[i - 1], run[i])} :: 0 < i < |run| ==> Next(eventfd, run[i - 1], run[i])
  }

  // ---------- The invariant ----------

  /** The present call of `pipecb` has yet to look at flag `f`. */
  predicate WillCheck(pc: LoopPc, f: Flag) {
    match pc
    case CallbackClearSkipped => true
    case CheckFlag(g) => f == g || g.SigFlag?
    case ClearFlag(g) => f == g || g.SigFlag?
    case ScanTest(g, _) => f.AsyncFlag? && g.SigFlag?
    case ScanFeed(g, _) => f.AsyncFlag? && g.SigFlag?
    case _ => false
  }

  ghost predicate InPrefix(row: seq<Source>, n: nat, s: Source) {
    exists k :: 0 <= k < n && k < |row| && row[k] == s
  }

  /** The present scan has yet to look at source `s`. */
  ghost predicate WillScan(st: State, s: Source) {
    && (st.pc.ScanTest? || st.pc.ScanFeed?)
    && st.pc.flag == FlagOf(s)
    && InPrefix(st.Scanned(FlagOf(s)), st.pc.left, s)
  }

  /** Some sender is about to make `pipe_write_skipped` true or the pipe non-empty. */
  ghost predicate Announcing(st: State) {
    exists t :: t in st.senders
      && (st.senders[t].SetSkipped? || st.senders[t].ClearSkipped? || st.senders[t].WritePipe?)
  }

  /** Some sender has raised `pipe_write_skipped` and not yet reached its write. */
  ghost predicate Writing(st: State) {
    exists t :: t in st.senders
      && (st.senders[t].ReadWanted? || st.senders[t].ClearSkipped? || st.senders[t].WritePipe?)
  }

  /** Some sender is about to look at, or set, flag `f`. */
  ghost predicate Entering(st: State, f: Flag) {
    exists t :: t in st.senders && (st.senders[t] == ReadFlag(f) || st.senders[t] == SetFlag(f))
  }

  ghost predicate FlagCovered(st: State, f: Flag) {
    st.FlagSet(f) ==> WillCheck(st.pc, f) || st.skipped || st.pipe > 0 || Announcing(st)
  }

  ghost predicate SourceCovered(st: State, s: Source) {
    s in st.raised && Registered(st, s) ==> st.FlagSet(FlagOf(s)) || Entering(st, FlagOf(s)) || WillScan(st, s)
  }

  ghost predicate PcValid(st: State) {
    && (st.wanted <==> st.pc.CheckSkipped? || st.pc.Polling? || st.pc.ClearWanted?)
    && (st.pc.ScanTest? ==> st.pc.left <= |st.Scanned(st.pc.flag)|)
    && (st.pc.ScanFeed? ==>
          0 < st.pc.left <= |st.Scanned(st.pc.flag)| && st.Scanned(st.pc.flag)[st.pc.left - 1] in st.raised)
    && (st.pc.ClearFlag? ==> st.FlagSet(st.pc.flag))
  }

  ghost predicate Inv(st: State) {
    && Tables(st)
    && PcValid(st)
    && FlagCovered(st, SigFlag)
    && FlagCovered(st, AsyncFlag)
    && (st.pc == Polling(true) && st.skipped ==> st.pipe > 0 || Writing(st))
    && forall s :: s in st.raised ==> SourceCovered(st, s)
  }

  lemma InvInit(st: State)
    requires Init(st)
    ensures Inv(st)
  {
  }

  lemma InvRaise(a: State, b: State, t: nat, s: Source)
    requires Inv(a) && Raise(a, b, t, s)
    ensures Inv(b)
  {
    OthersStay(a, b, t);
    assert b.senders[t] == ReadFlag(FlagOf(s));
    forall s' | s' in b.raised ensures SourceCovered(b, s') {
      if s' in a.raised { assert SourceCovered(a, s'); }
    }
  }

  /** Threads other than `t` keep their place, so what they are bound to do stays so. */
  lemma OthersStay(a: State, b: State, t: nat)
    requires forall u :: u != t ==> (u in a.senders <==> u in b.senders)
    requires forall u :: u in a.senders && u != t ==> a.senders[u] == b.senders[u]
    ensures Announcing(a) ==>
              Announcing(b)
              || (t in a.senders && !a.senders[t].ReadFlag? && !a.senders[t].SetFlag? && !a.senders[t].ReadWanted?)
    ensures Writing(a) ==>
              Writing(b)
              || (t in a.senders && (a.senders[t].ReadWanted? || a.senders[t].ClearSkipped? || a.senders[t].WritePipe?))
    ensures forall f :: Entering(a, f) ==>
                Entering(b, f) || (t in a.senders && (a.senders[t] == ReadFlag(f) || a.senders[t] == SetFlag(f)))
  {
    if Announcing(a) {
      var u :| u in a.senders && (a.senders[u].SetSkipped? || a.senders[u].ClearSkipped? || a.senders[u].WritePipe?);
      assert u != t ==> u in b.senders && b.senders[u] == a.senders[u];
    }
    if Writing(a) {
      var u :| u in a.senders && (a.senders[u].ReadWanted? || a.senders[u].ClearSkipped? || a.senders[u].WritePipe?);
      assert u != t ==> u in b.senders && b.senders[u] == a.senders[u];
    }
    forall f | Entering(a, f)
      ensures Entering(b, f) || (t in a.senders && (a.senders[t] == ReadFlag(f) || a.senders[t] == SetFlag(f)))
    {
      var u :| u in a.senders && (a.senders[u] == ReadFlag(f) || a.senders[u] == SetFlag(f));
      assert u != t ==> u in b.senders && b.senders[u] == a.senders[u];
    }
  }

  lemma SenderFlags(a: State, b: State, t: nat, f: Flag)
    requires Inv(a) && SenderStep(a, b, t)
    ensures FlagCovered(b, f)
  {
    OthersStay(a, b, t);
    assert FlagCovered(a, SigFlag) && FlagCovered(a, AsyncFlag);
    match a.senders[t]
    case ReadFlag(g) =>
    case SetFlag(g) => assert b.senders[t] == SetSkipped;
    case SetSkipped =>
    case ReadWanted =>
    case ClearSkipped => assert b.senders[t] == WritePipe;
    case WritePipe =>
  }

  lemma SenderWrites(a: State, b: State, t: nat)
    requires SenderStep(a, b, t) && (a.wanted <==> a.pc.CheckSkipped? || a.pc.Polling? || a.pc.ClearWanted?)
    requires a.pc == Polling(true) && a.skipped ==> a.pipe > 0 || Writing(a)
    ensures b.pc == Polling(true) && b.skipped ==> b.pipe > 0 || Writing(b)
  {
    OthersStay(a, b, t);
    match a.senders[t]
    case ReadFlag(g) =>
    case SetFlag(g) =>
    case SetSkipped => assert b.senders[t] == ReadWanted;
    case ReadWanted => assert a.wanted ==> t in b.senders && b.senders[t] == ClearSkipped;
    case ClearSkipped =>
    case WritePipe =>
  }

  /** What no sender's step touches, and how a step moves a thread towards setting its flag. */
  lemma SenderFrame(a: State, b: State, t: nat)
    requires SenderStep(a, b, t)
    ensures b.signals == a.signals && b.asyncs == a.asyncs && b.pc == a.pc && b.raised == a.raised
    ensures b.wanted == a.wanted && b.fed == a.fed && b.pipe >= a.pipe
    ensures forall f :: a.FlagSet(f) ==> b.FlagSet(f)
    ensures forall u :: u != t ==> (u in a.senders <==> u in b.senders)
    ensures forall u :: u in a.senders && u != t ==> a.senders[u] == b.senders[u]
    ensures a.senders[t].ReadFlag? ==>
              b.FlagSet(a.senders[t].flag) || (t in b.senders && b.senders[t] == SetFlag(a.senders[t].flag))
    ensures a.senders[t].SetFlag? ==> b.FlagSet(a.senders[t].flag)
  {
    match a.senders[t]
    case ReadFlag(g) =>
    case SetFlag(g) =>
    case SetSkipped =>
    case ReadWanted =>
    case ClearSkipped =>
    case WritePipe =>
  }

  lemma SenderSources(a: State, b: State, t: nat, s: Source)
    requires SenderStep(a, b, t)
    requires s in a.raised && SourceCovered(a, s)
    ensures SourceCovered(b, s)
  {
    SenderFrame(a, b, t);
    if Entering(a, FlagOf(s)) && !b.FlagSet(FlagOf(s)) {
      OthersStay(a, b, t);
      assert a.senders[t] == ReadFlag(FlagOf(s)) ==> t in b.senders && b.senders[t] == SetFlag(FlagOf(s));
    }
  }

  lemma InvSender(a: State, b: State, t: nat)
    requires Inv(a) && SenderStep(a, b, t)
    ensures Inv(b)
  {
    hide SenderStep, FlagCovered, SourceCovered, Writing;
    SenderFrame(a, b, t);
    SenderFlags(a, b, t, SigFlag);
    SenderFlags(a, b, t, AsyncFlag);
    SenderWrites(a, b, t);
    forall s | s in b.raised ensures SourceCovered(b, s) {
      SenderSources(a, b, t, s);
    }
  }

  lemma LoopFlags(eventfd: bool, a: State, b: State, mayWait: bool, interrupted: bool, f: Flag)
    requires Inv(a) && LoopStep(eventfd, a, b, mayWait, interrupted)
    ensures FlagCovered(b, f)
  {
    OthersStay(a, b, 0);
    assert FlagCovered(a, f);
  }

  /** What no access of the loop touches. */
  lemma LoopFrame(eventfd: bool, a: State, b: State, mayWait: bool, interrupted: bool)
    requires LoopStep(eventfd, a, b, mayWait, interrupted)
    ensures b.senders == a.senders && b.signals == a.signals && b.asyncs == a.asyncs
  {
  }

  lemma EnteringSame(a: State, b: State, f: Flag)
    requires b.senders == a.senders
    ensures Entering(b, f) <==> Entering(a, f)
  {
  }

  lemma LoopSources(eventfd: bool, a: State, b: State, mayWait: bool, interrupted: bool, s: Source)
    requires PcValid(a) && LoopStep(eventfd, a, b, mayWait, interrupted)
    requires s in a.raised && s in b.raised && SourceCovered(a, s)
    ensures SourceCovered(b, s)
  {
    hide Entering, InPrefix;
    LoopFrame(eventfd, a, b, mayWait, interrupted);
    EnteringSame(a, b, FlagOf(s));
    var row := a.Scanned(FlagOf(s));
    PrefixFacts(row, s);
  }

  lemma PrefixFacts(row: seq<Source>, s: Source)
    ensures s in row ==> InPrefix(row, |row|, s)
    ensures !InPrefix(row, 0, s)
    ensures forall n: nat :: 0 < n <= |row| && InPrefix(row, n, s) && row[n - 1] != s ==> InPrefix(row, n - 1, s)
  {
    forall n: nat | 0 < n <= |row| && InPrefix(row, n, s) && row[n - 1] != s ensures InPrefix(row, n - 1, s) {
      var k :| 0 <= k < n && k < |row| && row[k] == s;
    }
  }

  lemma LoopWrites(eventfd: bool, a: State, b: State, mayWait: bool, interrupted: bool)
    requires PcValid(a) && LoopStep(eventfd, a, b, mayWait, interrupted)
    ensures PcValid(b)
    ensures b.signals == a.signals && b.asyncs == a.asyncs
    ensures !(b.pc == Polling(true) && b.skipped)
    ensures b.raised <= a.raised
  {
  }

  lemma InvLoop(eventfd: bool, a: State, b: State, mayWait: bool, interrupted: bool)
    requires Inv(a) && LoopStep(eventfd, a, b, mayWait, interrupted)
    ensures Inv(b)
  {
    LoopFlags(eventfd, a, b, mayWait, interrupted, SigFlag);
    LoopFlags(eventfd, a, b, mayWait, interrupted, AsyncFlag);
    LoopWrites(eventfd, a, b, mayWait, interrupted);
    forall s | s in b.raised ensures SourceCovered(b, s) {
      LoopSources(eventfd, a, b, mayWait, interrupted, s);
    }
  }

  lemma InvStart(a: State, b: State, w: Source)
    requires Inv(a) && AsyncStart(a, b, w)
    ensures Inv(b)
  {
    OthersStay(a, b, 0);
    forall s | s in b.raised ensures SourceCovered(b, s) {
      assert SourceCovered(a, s);
    }
  }

  lemma InvStop(a: State, b: State, slot: nat)
    requires Inv(a) && AsyncStop(a, b, slot)
    ensures Inv(b)
  {
    OthersStay(a, b, 0);
    forall s | s in b.asyncs ensures s in a.asyncs {}
    forall s | s in b.raised ensures SourceCovered(b, s) {
      assert SourceCovered(a, s);
    }
  }

  lemma InvNext(eventfd: bool, a: State, b: State)
    requires Inv(a) && Next(eventfd, a, b)
    ensures Inv(b)
  {
    var step :| NextStep(eventfd, a, b, step);
    match step
    case RaiseStep(t, s) => InvRaise(a, b, t, s);
    case EvpipeStep(t) => InvSender(a, b, t);
    case LoopAccess(mayWait, interrupted) => InvLoop(eventfd, a, b, mayWait, interrupted);
    case StartStep(w) => InvStart(a, b, w);
    case StopStep(slot) => InvStop(a, b, slot);
  }

  lemma {:induction false} InvRun(eventfd: bool, run: seq<State>, i: nat)
    requires Run(eventfd, run) && i < |run|
    ensures Inv(run[i])
  {
    if i == 0 {
      InvInit(run[0]);
    } else {
      InvRun(eventfd, run, i - 1);
      assert Next(eventfd, run[i - 1], run[i]);
      InvNext(eventfd, run[i - 1], run[i]);
    }
  }

  // ---------- Safety: no wake-up is lost ----------

  /** Thread `t` has set its flag and, as long as the loop wants wake-ups, is bound to write the pipe. */
  predicate Committed(st: State, t: nat) {
    t in st.senders && !st.senders[t].ReadFlag? && !st.senders[t].SetFlag?
  }

  /** The number of accesses a committed sender still makes. */
  function AccessesLeft(pc: SenderPc): nat {
    match pc
    case WritePipe => 1
    case ClearSkipped => 2
    case ReadWanted => 3
    case SetSkipped => 4
    case SetFlag(_) => 5
    case ReadFlag(_) => 6
  }

  /** In every run: whenever the loop waits in the poll call while a flag is set, the pipe is readable or some
      sender is past its flag write and bound to write the pipe. */
  lemma NoLostWakeup(eventfd: bool, run: seq<State>, i: nat)
    requires Run(eventfd, run) && i < |run|
    requires run[i].pc == Polling(true)
    requires run[i].sigPending || run[i].asyncPending
    ensures run[i].wanted
    ensures run[i].pipe > 0 || exists t :: Committed(run[i], t)
  {
    var st := run[i];
    InvRun(eventfd, run, i);
    assert FlagCovered(st, SigFlag) && FlagCovered(st, AsyncFlag);
    if st.pipe == 0 {
      if Announcing(st) {
        var t :| t in st.senders
          && (st.senders[t].SetSkipped? || st.senders[t].ClearSkipped? || st.senders[t].WritePipe?);
        assert Committed(st, t);
      } else {
        var t :| t in st.senders
          && (st.senders[t].ReadWanted? || st.senders[t].ClearSkipped? || st.senders[t].WritePipe?);
        assert Committed(st, t);
      }
    }
  }

  /** The same for what the flags stand for: while a raised source waits behind a sleeping loop, the pipe is readable,
      or some sender is bound to write it, or a sender is about to set the flag of this kind of source. */
  lemma NoLostSource(eventfd: bool, run: seq<State>, i: nat, s: Source)
    requires Run(eventfd, run) && i < |run|
    requires run[i].pc == Polling(true)
    requires s in run[i].raised && Registered(run[i], s)
    ensures run[i].pipe > 0 || (exists t :: Committed(run[i], t)) || Entering(run[i], FlagOf(s))
  {
    var st := run[i];
    InvRun(eventfd, run, i);
    assert SourceCovered(st, s);
    if st.FlagSet(FlagOf(s)) {
      NoLostWakeup(eventfd, run, i);
    } else {
      assert Entering(st, FlagOf(s));
    }
  }

  /** A committed sender keeps its word: its own accesses lead to a readable pipe, and nobody else's access takes
      that away while the loop stays in the poll call. */
  lemma CommittedWrites(eventfd: bool, a: State, b: State, t: nat, step: Step)
    requires PcValid(a) && Committed(a, t) && a.pc.Polling? && b.pc.Polling?
    requires NextStep(eventfd, a, b, step)
    ensures b.pipe >= a.pipe
    ensures step == EvpipeStep(t) ==>
              b.pipe > 0 || (Committed(b, t) && AccessesLeft(b.senders[t]) < AccessesLeft(a.senders[t]))
    ensures step != EvpipeStep(t) ==> Committed(b, t) && b.senders[t] == a.senders[t]
  {
    if step.EvpipeStep? {
      SenderFrame(a, b, step.t);
    }
  }

  /** A raised source stays raised until its event is fed: between two points of a run during which it stays
      registered, either it is still raised or it has been fed. */
  lemma {:induction false} RaisedUntilFed(eventfd: bool, run: seq<State>, i: nat, j: nat, s: Source)
    requires Run(eventfd, run) && i <= j < |run|
    requires s in run[i].raised
    requires forall k :: i <= k <= j ==> Registered(run[k], s)
    ensures run[i].fed <= run[j].fed
    ensures s in run[j].raised || s in run[j].fed[|run[i].fed|..]
  {
    if i < j {
      RaisedUntilFed(eventfd, run, i, j - 1, s);
      InvRun(eventfd, run, j - 1);
      assert Next(eventfd, run[j - 1], run[j]) && Registered(run[j - 1], s);
      OneStepFeeds(eventfd, run[j - 1], run[j], s);
      SuffixGrows(run[i].fed, run[j - 1].fed, run[j].fed, s);
    }
  }

  lemma SuffixGrows(before: seq<Source>, now: seq<Source>, next: seq<Source>, s: Source)
    requires before <= now <= next
    ensures s in now[|before|..] ==> s in next[|before|..]
    ensures next == now + [s] ==> s in next[|before|..]
  {
    assert next[|before|..] == now[|before|..] + next[|now|..];
  }

  lemma OneStepFeeds(eventfd: bool, a: State, b: State, s: Source)
    requires Next(eventfd, a, b) && Registered(a, s) && Tables(a)
    ensures a.fed <= b.fed
    ensures s in a.raised ==> s in b.raised || b.fed == a.fed + [s]
  {
    var step :| NextStep(eventfd, a, b, step);
    match step
    case EvpipeStep(t) => SenderFrame(a, b, t);
    case LoopAccess(mayWait, interrupted) => LoopFeeds(eventfd, a, b, mayWait, interrupted);
    case _ =>
  }

  lemma LoopFeeds(eventfd: bool, a: State, b: State, mayWait: bool, interrupted: bool)
    requires LoopStep(eventfd, a, b, mayWait, interrupted)
    ensures || (b.fed == a.fed && b.raised == a.raised)
            || (a.pc.ScanFeed? && exists s :: b.fed == a.fed + [s] && b.raised == a.raised - {s})
  {
    if a.pc.ScanFeed? {
      var s := a.Scanned(a.pc.flag)[a.pc.left - 1];
      assert b.fed == a.fed + [s] && b.raised == a.raised - {s};
    }
  }

  // ---------- Only what was raised is fed ----------

  lemma StepFeeds(eventfd: bool, a: State, b: State, step: Step)
    requires PcValid(a) && NextStep(eventfd, a, b, step)
    ensures b.fed != a.fed ==>
              b.raised <= a.raised && exists s :: b.fed == a.fed + [s] && s in a.raised && s !in b.raised
    ensures b.raised <= a.raised || (step.RaiseStep? && b.raised <= a.raised + {step.s})
  {
    match step
    case EvpipeStep(t) => SenderFrame(a, b, t);
    case LoopAccess(mayWait, interrupted) =>
      LoopFeeds(eventfd, a, b, mayWait, interrupted);
      if a.pc.ScanFeed? {
        var s := a.Scanned(a.pc.flag)[a.pc.left - 1];
        assert b.fed == a.fed + [s] && s in a.raised && s !in b.raised;
      }
    case _ =>
  }

  /** In every run: nothing is fed that is not raised, and feeding it lowers it. */
  lemma FeedsOnlyRaised(eventfd: bool, run: seq<State>, i: nat, s: Source)
    requires Run(eventfd, run) && i + 1 < |run| && run[i + 1].fed == run[i].fed + [s]
    ensures s in run[i].raised && s !in run[i + 1].raised
  {
    InvRun(eventfd, run, i);
    var k := i + 1;
    assert Next(eventfd, run[k - 1], run[k]);
    var step :| NextStep(eventfd, run[i], run[i + 1], step);
    StepFeeds(eventfd, run[i], run[i + 1], step);
    assert run[i + 1].fed[|run[i].fed|] == s;
  }

  /** `steps[i]` leads from `run[i]` to the next state. */
  ghost predicate Takes(eventfd: bool, run: seq<State>, steps: seq<Step>) {
    |run| == |steps| + 1 && forall i :: 0 <= i < |steps| ==> NextStep(eventfd, run[i], run[i + 1], steps[i])
  }

  function Raises(steps: seq<Step>, s: Source): nat {
    if steps == [] then 0
    else Raises(steps[..|steps| - 1], s) + if steps[|steps| - 1].RaiseStep? && steps[|steps| - 1].s == s then 1 else 0
  }

  /** In every run, from any point to any later one: a source is fed at most as often as it is raised, and once more
      if it was raised before; and if it is still raised in the end, once less. */
  lemma {:induction false} FedAtMostRaised(eventfd: bool, run: seq<State>, steps: seq<Step>, i: nat, j: nat, s: Source)
    requires Run(eventfd, run) && Takes(eventfd, run, steps) && i <= j < |run|
    ensures run[i].fed <= run[j].fed
    ensures multiset(run[j].fed[|run[i].fed|..])[s] + OneIf(s in run[j].raised)
            <= Raises(steps[i..j], s) + OneIf(s in run[i].raised)
    decreases j
  {
    hide NextStep, Run;
    if i < j {
      FedAtMostRaised(eventfd, run, steps, i, j - 1, s);
      InvRun(eventfd, run, j - 1);
      assert NextStep(eventfd, run[j - 1], run[j - 1 + 1], steps[j - 1]);
      StepFeeds(eventfd, run[j - 1], run[j], steps[j - 1]);
      assert steps[i..j][..j - 1 - i] == steps[i..j - 1];
      OneMoreFed(run[i].fed, run[j - 1].fed, run[j].fed, s);
    }
  }

  lemma OneMoreFed(before: seq<Source>, now: seq<Source>, next: seq<Source>, s: Source)
    requires before <= now
    ensures next != now && (exists x :: next == now + [x]) ==>
              before <= next && multiset(next[|before|..])[s]
                                == multiset(now[|before|..])[s] + OneIf(next[|next| - 1] == s)
  {
    if x :| next == now + [x] {
      assert next[|before|..] == now[|before|..] + [x];
    }
  }

  function OneIf(b: bool): nat { if b then 1 else 0 }

  // ---------- Progress: the loop delivers ----------

  /** The loop's next access when nothing but the pipe can wake it and the poll call is not interrupted. */
  ghost function LoopNext(eventfd: bool, a: State): (b: State)
    requires PcValid(a)
    ensures LoopStep(eventfd, a, b, true, false)
    ensures b.signals == a.signals && b.asyncs == a.asyncs && b.senders == a.senders
  {
    match a.pc
    case Outside => a.(wanted := true, pc := CheckSkipped)
    case CheckSkipped => a.(pc := Polling(!a.skipped))
    case Polling(_) => a.(pc := ClearWanted(a.pipe > 0))
    case ClearWanted(readable) => a.(wanted := false, pc := CheckSkippedAfter(readable))
    case CheckSkippedAfter(readable) => a.(pc := if readable || a.skipped then Fed(readable) else Outside)
    case Fed(readable) => a.(pipe := if readable then AfterRead(eventfd, a.pipe) else a.pipe,
                             pc := CallbackClearSkipped)
    case CallbackClearSkipped => a.(skipped := false, pc := CheckFlag(SigFlag))
    case CheckFlag(f) => a.(pc := if a.FlagSet(f) then ClearFlag(f) else AfterFlag(f))
    case ClearFlag(f) => a.WithFlag(f, false).(pc := ScanTest(f, |a.Scanned(f)|))
    case ScanTest(f, left) =>
      a.(pc := if left == 0 then AfterFlag(f)
               else if a.Scanned(f)[left - 1] in a.raised then ScanFeed(f, left)
               else ScanTest(f, left - 1))
    case ScanFeed(f, left) =>
      var s := a.Scanned(f)[left - 1];
      a.(raised := a.raised - {s}, fed := a.fed + [s], pc := ScanTest(f, left - 1))
  }

  /** Only the pipe wakes the loop, and it is empty. */
  predicate Asleep(st: State) {
    st.pc == Polling(true) && st.pipe == 0
  }

  /** Running alone, the loop feeds `s` within `n` accesses and never falls asleep before. */
  ghost predicate FeedsWithin(eventfd: bool, st: State, s: Source, n: nat)
    requires PcValid(st)
    decreases n
  {
    && n > 0
    && !Asleep(st)
    && var b := LoopNext(eventfd, st);
       || b.fed == st.fed + [s]
       || (PcValid(b) && FeedsWithin(eventfd, b, s, n - 1))
  }

  /** Accesses until the loop is back outside, with `p` signals and `q` async watchers to scan. */
  function Remaining(pc: LoopPc, p: nat, q: nat): nat {
    match pc
    case Outside => 2 * p + 2 * q + 19
    case CheckSkipped => 2 * p + 2 * q + 18
    case Polling(_) => 2 * p + 2 * q + 17
    case ClearWanted(_) => 2 * p + 2 * q + 16
    case CheckSkippedAfter(_) => 2 * p + 2 * q + 15
    case Fed(_) => 2 * p + 2 * q + 14
    case CallbackClearSkipped => 2 * p + 2 * q + 13
    case CheckFlag(f) => if f.SigFlag? then 2 * p + 2 * q + 12 else 2 * q + 3
    case ClearFlag(f) => if f.SigFlag? then 2 * p + 2 * q + 11 else 2 * q + 2
    case ScanTest(f, left) => 2 * left + if f.SigFlag? then 2 * q + 5 else 1
    case ScanFeed(f, left) => 2 * left + if f.SigFlag? then 2 * q + 4 else 0
  }

  /** The present turn of the loop will feed `s`. */
  ghost predicate ThisTurn(st: State, s: Source) {
    match st.pc
    case Outside => true
    case CheckSkipped => true
    case Polling(_) => true
    case ClearWanted(readable) => readable || st.skipped
    case CheckSkippedAfter(readable) => readable || st.skipped
    case Fed(_) => true
    case _ => WillCheck(st.pc, FlagOf(s)) || WillScan(st, s)
  }

  ghost function Rank(st: State, s: Source): nat {
    Remaining(st.pc, |st.signals|, |st.asyncs|) +
    if ThisTurn(st, s) then 0 else Remaining(Outside, |st.signals|, |st.asyncs|)
  }

  lemma RemainingDrops(eventfd: bool, a: State)
    requires PcValid(a)
    ensures var b := LoopNext(eventfd, a);
            b.pc == Outside ||
            Remaining(b.pc, |b.signals|, |b.asyncs|) < Remaining(a.pc, |a.signals|, |a.asyncs|)
  {
    hide LoopStep, Tables, LoopNext, Remaining, PcValid;
    if a.pc.ScanTest? || a.pc.ScanFeed? {
      ScanDrops(eventfd, a);
    } else {
      OtherDrops(eventfd, a);
    }
  }

  lemma ScanDrops(eventfd: bool, a: State)
    requires PcValid(a) && (a.pc.ScanTest? || a.pc.ScanFeed?)
    ensures var b := LoopNext(eventfd, a);
            b.pc == Outside ||
            Remaining(b.pc, |b.signals|, |b.asyncs|) < Remaining(a.pc, |a.signals|, |a.asyncs|)
  {
    hide LoopStep, Tables;
  }

  lemma OtherDrops(eventfd: bool, a: State)
    requires PcValid(a) && !a.pc.ScanTest? && !a.pc.ScanFeed?
    ensures var b := LoopNext(eventfd, a);
            b.pc == Outside ||
            Remaining(b.pc, |b.signals|, |b.asyncs|) < Remaining(a.pc, |a.signals|, |a.asyncs|)
  {
    hide LoopStep, Tables;
  }

  /** The point before a flag is looked at: nothing is lost when it is set. */
  lemma TurnEntered(eventfd: bool, a: State, s: Source)
    requires Inv(a) && a.senders == map[] && s in a.raised && Registered(a, s)
    requires a.pc.Outside? || a.pc.CheckSkipped? || a.pc.Polling? || a.pc.ClearWanted? || a.pc.CheckSkippedAfter?
    ensures !Asleep(a)
    ensures var b := LoopNext(eventfd, a); ThisTurn(a, s) ==> ThisTurn(b, s) && b.pc != Outside
  {
    assert SourceCovered(a, s) && FlagCovered(a, FlagOf(s));
    assert !Announcing(a) && !Writing(a) && !Entering(a, FlagOf(s));
  }

  lemma TurnChecks(eventfd: bool, a: State, s: Source)
    requires Inv(a) && a.senders == map[] && s in a.raised && Registered(a, s)
    requires a.pc.Fed? || a.pc.CallbackClearSkipped? || a.pc.CheckFlag? || a.pc.ClearFlag?
    ensures var b := LoopNext(eventfd, a); ThisTurn(a, s) ==> ThisTurn(b, s) && b.pc != Outside
  {
    assert SourceCovered(a, s) && !Entering(a, FlagOf(s));
    PrefixFacts(a.Scanned(FlagOf(s)), s);
    hide InPrefix, Entering, FlagCovered, SourceCovered, Tables;
  }

  lemma TurnScans(eventfd: bool, a: State, s: Source)
    requires PcValid(a) && s in a.raised && Registered(a, s)
    requires a.pc.ScanTest? || a.pc.ScanFeed?
    ensures var b := LoopNext(eventfd, a);
            b.fed == a.fed + [s] || (ThisTurn(a, s) ==> ThisTurn(b, s) && b.pc != Outside)
  {
    PrefixFacts(a.Scanned(FlagOf(s)), s);
    hide InPrefix, LoopStep;
  }

  /** With no sender under way, one access of the loop either feeds the raised source `s` or brings the feed nearer. */
  lemma OneAccessNearer(eventfd: bool, a: State, s: Source)
    requires Inv(a) && a.senders == map[] && s in a.raised && Registered(a, s)
    ensures !Asleep(a)
    ensures var b := LoopNext(eventfd, a);
            b.fed == a.fed + [s] || (s in b.raised && Rank(b, s) < Rank(a, s))
  {
    var b := LoopNext(eventfd, a);
    RemainingDrops(eventfd, a);
    LoopFeeds(eventfd, a, b, true, false);
    if a.pc.Outside? || a.pc.CheckSkipped? || a.pc.Polling? || a.pc.ClearWanted? || a.pc.CheckSkippedAfter? {
      TurnEntered(eventfd, a, s);
    } else if !a.pc.ScanTest? && !a.pc.ScanFeed? {
      TurnChecks(eventfd, a, s);
    } else {
      TurnScans(eventfd, a, s);
    }
  }

  lemma RankPositive(st: State, s: Source)
    requires PcValid(st)
    ensures Rank(st, s) > 0
  {
  }

  lemma LoopAloneStep(eventfd: bool, st: State, s: Source)
    requires Inv(st) && st.senders == map[] && s in st.raised && Registered(st, s)
    ensures PcValid(st) && !Asleep(st)
    ensures var b := LoopNext(eventfd, st);
            && Rank(st, s) > 0 && Inv(b) && b.senders == map[] && Registered(b, s)
            && (b.fed == st.fed + [s] || (s in b.raised && Rank(b, s) < Rank(st, s)))
  {
    RankPositive(st, s);
    hide Rank, FlagCovered, SourceCovered;
    OneAccessNearer(eventfd, st, s);
    InvLoop(eventfd, st, LoopNext(eventfd, st), true, false);
  }

  lemma {:induction false} LoopAloneFeeds(eventfd: bool, st: State, s: Source)
    requires Inv(st) && st.senders == map[] && s in st.raised && Registered(st, s)
    ensures PcValid(st) && FeedsWithin(eventfd, st, s, Rank(st, s))
    decreases Rank(st, s)
  {
    hide Inv, Rank, LoopNext, Registered, PcValid;
    LoopAloneStep(eventfd, st, s);
    var b := LoopNext(eventfd, st);
    if b.fed != st.fed + [s] {
      LoopAloneFeeds(eventfd, b, s);
      FeedsLater(eventfd, b, s, Rank(b, s), Rank(st, s) - 1);
    }
  }

  lemma {:induction false} FeedsLater(eventfd: bool, st: State, s: Source, m: nat, n: nat)
    requires PcValid(st) && m <= n && FeedsWithin(eventfd, st, s, m)
    ensures FeedsWithin(eventfd, st, s, n)
    decreases m
  {
    var b := LoopNext(eventfd, st);
    if b.fed != st.fed + [s] {
      FeedsLater(eventfd, b, s, m - 1, n - 1);
    }
  }

  /** Delivery: at any point of any run, if the senders have finished, a raised source is fed within two turns of the
      loop even if nothing but the pipe can wake it; the bound depends only on the two table sizes. */
  lemma Delivery(eventfd: bool, run: seq<State>, i: nat, s: Source)
    requires Run(eventfd, run) && i < |run|
    requires run[i].senders == map[] && s in run[i].raised && Registered(run[i], s)
    ensures PcValid(run[i])
    ensures FeedsWithin(eventfd, run[i], s, 4 * |run[i].signals| + 4 * |run[i].asyncs| + 38)
  {
    InvRun(eventfd, run, i);
    hide Run, FeedsWithin, FlagCovered, SourceCovered;
    LoopAloneFeeds(eventfd, run[i], s);
    FeedsLater(eventfd, run[i], s, Rank(run[i], s), 4 * |run[i].signals| + 4 * |run[i].asyncs| + 38);
  }

  // ---------- Progress with senders under way ----------

  /** The accesses that the senders still make. */
  ghost function AccessSet(senders: map<nat, SenderPc>): set<(nat, nat)> {
    set t, k | t in senders.Keys && 0 <= k < 6 && k < AccessesLeft(senders[t]) :: (t, k)
  }

  /** One access of a sender under way, or of a loop that only the pipe can wake. */
  ghost predicate Onward(eventfd: bool, a: State, b: State)
    requires PcValid(a)
  {
    (!Asleep(a) && b == LoopNext(eventfd, a)) || exists t :: SenderStep(a, b, t)
  }

  /** In whatever order the loop and the senders under way go on, `s` is fed within `n` accesses, and before that some
      access can always be made. */
  ghost predicate FeedsAnyhow(eventfd: bool, st: State, s: Source, n: nat)
    requires PcValid(st)
    decreases n
  {
    && n > 0
    && (!Asleep(st) || st.senders != map[])
    && forall b :: Onward(eventfd, st, b) ==> b.fed == st.fed + [s] || (PcValid(b) && FeedsAnyhow(eventfd, b, s, n - 1))
  }

  /** The present turn of the loop ends without taking a byte from the pipe or lowering `skipped`. */
  predicate Idle(st: State) {
    match st.pc
    case Outside => false
    case CheckSkipped => false
    case Polling(block) => !block && st.pipe == 0 && !st.skipped
    case ClearWanted(readable) => !(readable && st.pipe > 0) && !st.skipped
    case CheckSkippedAfter(readable) => !(readable && st.pipe > 0) && !st.skipped
    case Fed(readable) => !(readable && st.pipe > 0) && !st.skipped
    case CallbackClearSkipped => !st.skipped
    case _ => true
  }

  /** How many more turns the loop makes before it falls asleep, if no sender moves. */
  function Turns(st: State): nat {
    st.pipe + OneIf(st.skipped) + OneIf(Idle(st))
  }

  function TurnLength(st: State): nat {
    2 * |st.signals| + 2 * |st.asyncs| + 20
  }

  function Left(st: State): nat {
    Remaining(st.pc, |st.signals|, |st.asyncs|)
  }

  ghost function Accesses(st: State): nat {
    Left(st) + TurnLength(st) * Turns(st) + (TurnLength(st) + 1) * |AccessSet(st.senders)|
  }

  lemma TurnEnds(eventfd: bool, a: State)
    requires PcValid(a) && !Asleep(a)
    ensures var b := LoopNext(eventfd, a);
            Turns(b) <= Turns(a) && (b.pc == Outside ==> Turns(b) < Turns(a))
  {
    hide LoopStep, Remaining;
  }

  lemma LoopTurns(eventfd: bool, a: State)
    requires PcValid(a) && !Asleep(a)
    ensures var b := LoopNext(eventfd, a);
            || (Turns(b) <= Turns(a) && Left(b) < Left(a))
            || (Turns(b) < Turns(a) && Left(b) < TurnLength(a))
    ensures Left(a) > 0
  {
    TurnEnds(eventfd, a);
    RemainingDrops(eventfd, a);
    LeftPositive(a);
    hide LoopNext, Turns, Asleep, PcValid;
  }

  lemma LeftPositive(a: State)
    requires PcValid(a)
    ensures Left(a) > 0
    ensures a.pc == Outside ==> Left(a) < TurnLength(a)
  {
  }

  lemma SenderTurns(a: State, b: State, t: nat)
    requires SenderStep(a, b, t)
    ensures Turns(b) <= Turns(a) + 1 && Left(b) == Left(a)
  {
  }

  lemma SenderAccesses(a: State, b: State, t: nat)
    requires SenderStep(a, b, t)
    ensures |AccessSet(b.senders)| < |AccessSet(a.senders)|
  {
    SenderFrame(a, b, t);
    var k := AccessesLeft(a.senders[t]) - 1;
    assert t in b.senders ==> AccessesLeft(b.senders[t]) <= k by { hide AccessSet; }
    assert (t, k) in AccessSet(a.senders) && (t, k) !in AccessSet(b.senders);
    assert AccessSet(b.senders) <= AccessSet(a.senders) - {(t, k)};
    Fewer(AccessSet(b.senders), AccessSet(a.senders) - {(t, k)});
  }

  lemma {:induction false} Fewer(x: set<(nat, nat)>, y: set<(nat, nat)>)
    requires x <= y
    ensures |x| <= |y|
    decreases x
  {
    if p :| p in x {
      Fewer(x - {p}, y - {p});
    }
  }

  lemma Product(t: nat, c: nat, d: nat)
    ensures c <= d ==> t * c <= t * d
    ensures c < d ==> t * c + t <= t * d
    ensures t * (c + 1) == t * c + t
  {
  }

  lemma LoopCounts(eventfd: bool, a: State)
    requires PcValid(a) && !Asleep(a)
    ensures Accesses(LoopNext(eventfd, a)) < Accesses(a)
  {
    var b := LoopNext(eventfd, a);
    LoopTurns(eventfd, a);
    hide Turns, Left, LoopNext, LoopStep, Asleep, AccessSet, PcValid;
    assert TurnLength(b) == TurnLength(a);
    Product(TurnLength(a), Turns(b), Turns(a));
  }

  lemma SenderCounts(a: State, b: State, t: nat)
    requires SenderStep(a, b, t)
    ensures Accesses(b) < Accesses(a)
    ensures b.signals == a.signals && b.asyncs == a.asyncs
  {
    SenderTurns(a, b, t);
    SenderAccesses(a, b, t);
    SenderFrame(a, b, t);
    hide Turns, Left, AccessSet, SenderStep;
    assert TurnLength(b) == TurnLength(a);
    Product(TurnLength(a), Turns(b), Turns(a) + 1);
    Product(TurnLength(a), Turns(a), Turns(a));
    Product(TurnLength(a) + 1, |AccessSet(b.senders)|, |AccessSet(a.senders)|);
  }

  /** Every access, of the loop or of a sender, uses up one of these. */
  lemma OnwardCounts(eventfd: bool, a: State, b: State)
    requires PcValid(a) && Onward(eventfd, a, b)
    ensures Accesses(b) < Accesses(a)
    ensures b.signals == a.signals && b.asyncs == a.asyncs
  {
    hide Accesses, LoopNext, LoopStep, Asleep, SenderStep, PcValid;
    if t :| SenderStep(a, b, t) {
      SenderCounts(a, b, t);
    } else {
      LoopCounts(eventfd, a);
    }
  }

  lemma OnwardKeeps(eventfd: bool, a: State, b: State, s: Source)
    requires Inv(a) && s in a.raised && Registered(a, s) && Onward(eventfd, a, b)
    ensures Inv(b) && Registered(b, s)
    ensures b.fed == a.fed + [s] || s in b.raised
  {
    if !Asleep(a) && b == LoopNext(eventfd, a) {
      InvLoop(eventfd, a, b, true, false);
      LoopFeeds(eventfd, a, b, true, false);
    } else {
      var t :| SenderStep(a, b, t);
      InvSender(a, b, t);
      SenderFrame(a, b, t);
    }
  }

  lemma NotStuck(eventfd: bool, st: State, s: Source)
    requires Inv(st) && s in st.raised && Registered(st, s)
    ensures !Asleep(st) || st.senders != map[]
  {
    if st.senders == map[] && st.pc.Polling? {
      TurnEntered(eventfd, st, s);
    }
  }

  lemma {:induction false} AnyhowFeeds(eventfd: bool, st: State, s: Source, n: nat)
    requires Inv(st) && s in st.raised && Registered(st, s) && Accesses(st) <= n && n > 0
    ensures PcValid(st) && FeedsAnyhow(eventfd, st, s, n)
    decreases n
  {
    NotStuck(eventfd, st, s);
    hide Accesses, Registered, PcValid, Onward, Asleep;
    assert PcValid(st) by { hide FlagCovered, SourceCovered, Tables; }
    forall b | Onward(eventfd, st, b) && b.fed != st.fed + [s]
      ensures PcValid(b) && FeedsAnyhow(eventfd, b, s, n - 1)
    {
      OnwardKeeps(eventfd, st, b, s);
      OnwardCounts(eventfd, st, b);
      AccessesPositive(b);
      AnyhowFeeds(eventfd, b, s, n - 1);
    }
  }

  lemma AccessesPositive(st: State)
    requires PcValid(st)
    ensures Accesses(st) > 0
  {
    Product(TurnLength(st), 0, Turns(st));
    Product(TurnLength(st) + 1, 0, |AccessSet(st.senders)|);
  }

  function Own(t: nat): (r: set<(nat, nat)>)
    ensures |r| <= 6
  {
    {(t, 0), (t, 1), (t, 2), (t, 3), (t, 4), (t, 5)}
  }

  lemma OneSender(senders: map<nat, SenderPc>, t: nat)
    requires t in senders
    ensures AccessSet(senders) <= AccessSet(senders - {t}) + Own(t)
  {
    hide AccessesLeft;
    var rest := senders - {t};
    forall p | p in AccessSet(senders)
      ensures p in AccessSet(rest) + Own(t)
    {
      if p.0 != t {
        assert p.0 in rest.Keys && rest[p.0] == senders[p.0];
        assert p == (p.0, p.1) && p in AccessSet(rest);
      } else {
        assert p in Own(t);
      }
    }
  }

  lemma {:induction false} AtMostSixEach(senders: map<nat, SenderPc>)
    ensures |AccessSet(senders)| <= 6 * |senders.Keys|
    decreases |senders.Keys|
  {
    if t :| t in senders {
      var rest := senders - {t};
      OneSender(senders, t);
      hide AccessSet, Own;
      assert senders.Keys == rest.Keys + {t} && t !in rest.Keys;
      AtMostSixEach(rest);
      Fewer(AccessSet(senders), AccessSet(rest) + Own(t));
    } else {
      assert AccessSet(senders) == {};
    }
  }

  /** The bound in numbers: a turn for each byte in the pipe and two more, and for each sender six turns at most. */
  lemma AccessesAtMost(st: State)
    requires PcValid(st)
    ensures Accesses(st) <= TurnLength(st) * (st.pipe + 3) + (TurnLength(st) + 1) * (6 * |st.senders.Keys|)
  {
    AtMostSixEach(st.senders);
    Product(TurnLength(st), Turns(st), st.pipe + 2);
    Product(TurnLength(st), st.pipe + 2, st.pipe + 3);
    Product(TurnLength(st) + 1, |AccessSet(st.senders)|, 6 * |st.senders.Keys|);
    LeftAtMost(st);
    hide Left, AccessSet, TurnLength, PcValid;
  }

  lemma LeftAtMost(st: State)
    requires PcValid(st)
    ensures Left(st) <= TurnLength(st)
  {
  }

  /** Delivery with senders under way: at any point of any run, in whatever order they and the loop go on, a raised
      source is fed within this many accesses if nobody raises another. */
  lemma DeliveryAnyhow(eventfd: bool, run: seq<State>, i: nat, s: Source)
    requires Run(eventfd, run) && i < |run|
    requires s in run[i].raised && Registered(run[i], s)
    ensures PcValid(run[i])
    ensures FeedsAnyhow(eventfd, run[i], s, Accesses(run[i]))
  {
    InvRun(eventfd, run, i);
    hide Run, FeedsAnyhow, FlagCovered, SourceCovered, Accesses;
    AccessesPositive(run[i]);
    AnyhowFeeds(eventfd, run[i], s, Accesses(run[i]));
  }

  /** So whatever is sent is delivered: once a sender has raised a registered source and entered `evpipe_write`, in
      whatever order everybody goes on, the source is fed. */
  lemma SentIsFed(eventfd: bool, run: seq<State>, steps: seq<Step>, i: nat, t: nat, s: Source)
    requires Run(eventfd, run) && Takes(eventfd, run, steps) && i < |steps| && steps[i] == RaiseStep(t, s)
    requires Registered(run[i], s)
    ensures t in run[i + 1].senders && PcValid(run[i + 1])
    ensures FeedsAnyhow(eventfd, run[i + 1], s, Accesses(run[i + 1]))
  {
    assert NextStep(eventfd, run[i], run[i + 1], steps[i]);
    hide Accesses, FeedsAnyhow, Run;
    DeliveryAnyhow(eventfd, run, i + 1, s);
  }

  // ---------- Registering ----------

  /** Starting a watcher adds it at the end, with nothing sent; whatever else was sent stays so. */
  lemma StartRegisters(eventfd: bool, run: seq<State>, steps: seq<Step>, i: nat, w: Source)
    requires Run(eventfd, run) && Takes(eventfd, run, steps) && i < |steps| && steps[i] == StartStep(w)
    ensures Registered(run[i + 1], w) && !Registered(run[i], w) && w !in run[i + 1].raised
    ensures forall s :: s != w ==> (Registered(run[i + 1], s) <==> Registered(run[i], s))
    ensures forall s :: s != w ==> (s in run[i + 1].raised <==> s in run[i].raised)
  {
    assert NextStep(eventfd, run[i], run[i + 1], steps[i]);
    assert w in run[i + 1].asyncs;
  }

  /** Stopping removes exactly the watcher in the slot. */
  lemma StopRemoves(eventfd: bool, run: seq<State>, steps: seq<Step>, i: nat, slot: nat)
    requires Run(eventfd, run) && Takes(eventfd, run, steps) && i < |steps| && steps[i] == StopStep(slot)
    ensures slot < |run[i].asyncs| && !Registered(run[i + 1], run[i].asyncs[slot])
    ensures forall s :: s != run[i].asyncs[slot] ==> (Registered(run[i + 1], s) <==> Registered(run[i], s))
    ensures run[i + 1].raised == run[i].raised
  {
    InvRun(eventfd, run, i);
    assert NextStep(eventfd, run[i], run[i + 1], steps[i]);
    hide Run, Takes, FlagCovered, SourceCovered, Writing;
    var a, b := run[i].asyncs, run[i + 1].asyncs;
    var w := a[slot];
    SlotFreed(a, b, slot);
    assert forall s :: Registered(run[i], s) <==> s in run[i].Scanned(FlagOf(s));
    assert w.Async?;
  }

  lemma SlotFreed(a: seq<Source>, b: seq<Source>, slot: nat)
    requires Distinct(a) && slot < |a| && b == a[slot := a[|a| - 1]][..|a| - 1]
    ensures a[slot] !in b && forall s :: s != a[slot] ==> (s in b <==> s in a)
  {
    forall s | s != a[slot] && s in a
      ensures s in b
    {
      var k :| 0 <= k < |a| && a[k] == s;
      assert b[if k == |a| - 1 then slot else k] == s;
    }
  }

  // ---------- Only what was asked for is written ----------

  /** A thread writes the pipe only if it found the loop wanting it. */
  lemma {:induction false} WritesOnlyWanted(eventfd: bool, run: seq<State>, steps: seq<Step>, j: nat, t: nat)
    requires Run(eventfd, run) && Takes(eventfd, run, steps) && j < |run|
    requires t in run[j].senders && (run[j].senders[t].ClearSkipped? || run[j].senders[t].WritePipe?)
    ensures exists i :: 0 <= i < j && steps[i] == EvpipeStep(t) && run[i].wanted
    decreases j
  {
    if j > 0 {
      var a, b := run[j - 1], run[j];
      assert NextStep(eventfd, run[j - 1], run[j - 1 + 1], steps[j - 1]);
      if t in a.senders && (a.senders[t].ClearSkipped? || a.senders[t].WritePipe?) {
        WritesOnlyWanted(eventfd, run, steps, j - 1, t);
      } else {
        EntersWriting(eventfd, a, b, steps[j - 1], t);
      }
    }
  }

  lemma EntersWriting(eventfd: bool, a: State, b: State, step: Step, t: nat)
    requires NextStep(eventfd, a, b, step)
    requires t in b.senders && (b.senders[t].ClearSkipped? || b.senders[t].WritePipe?)
    requires !(t in a.senders && (a.senders[t].ClearSkipped? || a.senders[t].WritePipe?))
    ensures step == EvpipeStep(t) && a.wanted
  {
    match step
    case EvpipeStep(u) => SenderFrame(a, b, u);
    case LoopAccess(mayWait, interrupted) => LoopFrame(eventfd, a, b, mayWait, interrupted);
    case _ =>
  }
}
