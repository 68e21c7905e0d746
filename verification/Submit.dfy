/** What a transfer goes through between two locked sections of its submitter, while the rest of the
    system services, takes offline and brings online the engine in any order. */
module Submit {
  import opened Descriptor
  import opened Fetch
  import opened Scatter
  import opened Compile
  import opened EngineModel
  import opened EngineInvariant
  import opened EngineRuns
  import opened EngineDriver

  /** What the rest of the system may do between two locked sections of the submitter: an interrupt
      is served (BUSY clear), a polled write-back is served (possibly lagging behind the device),
      some other report is served, the device makes a step, the engine goes offline or online. */
  datatype Env =
    | Irq(st: Status, again: Status)
    | Poll(lag: nat, err: bool, st: Status, again: Status)
    | Misreport(report: Report)
    | Device
    | GoOffline
    | GoOnline

  /** The report an interrupt or a poll leads to: counts are those of the device's current run. */
  function ReportOf(e: Eng, s: Env): (r: Report)
    requires s.Irq? || s.Poll?
    ensures Fresh(e, r) && r.Valid() && (r.count == 0 ==> !r.st.busy)
  {
    var reg := e.hw.executed % 0x1_0000_0000;
    if s.Irq? then Report(0, false, s.st.(busy := false), reg, s.again)
    else
      var count := (if s.lag <= e.hw.executed then e.hw.executed - s.lag else 0) % 0x100_0000;
      Report(count, s.err, if count == 0 then s.st.(busy := false) else s.st, reg, s.again)
  }

  predicate WellFormed(s: Env) {
    s.Misreport? ==> s.report.Valid() && (s.report.count == 0 ==> !s.report.st.busy)
  }

  predicate AllWellFormed(steps: seq<Env>) { forall i | 0 <= i < |steps| :: WellFormed(steps[i]) }

  /** The device reports truthfully. */
  predicate Honest(steps: seq<Env>) { forall i | 0 <= i < |steps| :: !steps[i].Misreport? }

  /** A poll that finds no write-back at all does not call the service routine. */
  predicate Silent(e: Eng, s: Env) {
    s.Poll? && !s.err && ReportOf(e, s).count == 0
  }

  ghost function EnvStep(c: Conf, e: Eng, s: Env): (r: Eng)
    requires Inv(c, e) && WellFormed(s)
    ensures Inv(c, r)
  {
    hide Loaded, OnHead, EngineModel.Service, HwStep;
    match s
    case Irq(_, _) => ServiceKeeps(c, e, ReportOf(e, s)); EngineModel.Service(e, ReportOf(e, s))
    case Poll(_, _, _, _) =>
      if Silent(e, s) then e
      else ServiceKeeps(c, e, ReportOf(e, s)); EngineModel.Service(e, ReportOf(e, s))
    case Misreport(r) => ServiceKeeps(c, e, r); EngineModel.Service(e, r)
    case Device => HwStepKeeps(c, e); HwStep(c, e)
    case GoOffline => OfflineKeeps(c, e); EngineModel.Offline(e)
    case GoOnline => EngineModel.Online(e)
  }

  ghost function EnvRun(c: Conf, e: Eng, steps: seq<Env>): (r: Eng)
    requires Inv(c, e) && AllWellFormed(steps)
    ensures Inv(c, r)
    decreases |steps|
  {
    if steps == [] then e else EnvRun(c, EnvStep(c, e, steps[0]), steps[1..])
  }

  /** Ring, cursor, count and what the transfers were built as are the same. */
  ghost predicate SameAccount(e: Eng, e1: Eng) {
    && e1.ring == e.ring && e1.index == e.index && e1.used == e.used && e1.xfer.Keys == e.xfer.Keys
    && (forall id | id in e.xfer :: SameStatic(e.xfer[id], e1.xfer[id]))
  }

  /** The fields no environment step touches. */
  ghost predicate SameJobs(e: Eng, e1: Eng) {
    SameAccount(e, e1) && e1.submitted == e.submitted
  }

  predicate SameStatic(x: Xfer, y: Xfer) {
    y == x.(state := y.state, cmpl := y.cmpl)
  }

  lemma {:induction false} ServeListSameJobs(e: Eng, cnt: int)
    requires e.Known()
    ensures SameJobs(e, ServeList(e, cnt).0) && ServeList(e, cnt).0.Known()
    decreases |e.queue|
  {
    hide ServeList;
    if e.queue == [] || cnt <= e.Head().num {
      ServeListEnds(e, cnt);
    } else {
      ServeListGoesOn(e, cnt);
      ServeListSameJobs(Pop(e, e.Head().(state := Completed)).(dequeued := e.dequeued + e.Head().num),
                        cnt - e.Head().num);
    }
  }

  lemma PopSameJobs(e: Eng, x: Xfer)
    requires e.Known() && e.queue != [] && SameStatic(e.Head(), x)
    ensures Pop(e, x).Known() && SameJobs(e, Pop(e, x))
  {
  }

  lemma FinalSameJobs(e: Eng, cnt: int)
    requires e.Known()
    ensures Final(e, cnt).Known() && SameJobs(e, Final(e, cnt))
  {
    hide Pop, SameJobs;
    if e.queue == [] {
      SameJobsSelf(e);
    } else {
      var x := e.Head();
      var e1 := e.(dequeued := e.dequeued + x.num);
      DequeuedSameJobs(e, x);
      PopSameJobs(Stop(e), x.(state := Failed));
      PopSameJobs(e1, x.(state := Failed, cmpl := if cnt < 0 then 0 else cnt));
      PopSameJobs(e1, x.(state := Completed, cmpl := x.num));
      SameJobsTransitive(e, Stop(e), Pop(Stop(e), x.(state := Failed)));
      SameJobsTransitive(e, e1, Pop(e1, x.(state := Failed, cmpl := if cnt < 0 then 0 else cnt)));
      SameJobsTransitive(e, e1, Pop(e1, x.(state := Completed, cmpl := x.num)));
    }
  }

  lemma DequeuedSameJobs(e: Eng, x: Xfer)
    ensures SameJobs(e, e.(dequeued := e.dequeued + x.num)) && SameJobs(e, Stop(e))
  {
  }

  lemma ResumeSameJobs(e: Eng, st: Status)
    requires e.Known()
    ensures SameJobs(e, Resume(e, st))
  {
  }

  lemma SameJobsTransitive(a: Eng, b: Eng, c: Eng)
    requires SameJobs(a, b) && SameJobs(b, c)
    ensures SameJobs(a, c)
  {
  }

  lemma ServiceSameJobs(e: Eng, r: Report)
    requires e.Known()
    ensures SameJobs(e, EngineModel.Service(e, r))
  {
    QuietlySame(e, r);
    hide SameJobs, ServeList, Final, Resume, Quiesce;
    if e.running && r.Count() != 0 {
      var e1 := Quiesce(e, r);
      var cnt := Sub32(r.Count(), e1.dequeued);
      ServeListSameJobs(e1, cnt);
      var (e2, left) := ServeList(e1, cnt);
      FinalSameJobs(e2, left);
      ResumeSameJobs(Final(e2, left), r.again);
      SameJobsTransitive(e, e1, e2);
      SameJobsTransitive(e, e2, Final(e2, left));
      SameJobsTransitive(e, Final(e2, left), Resume(Final(e2, left), r.again));
    }
  }

  lemma QuietlySame(e: Eng, r: Report)
    requires e.Known()
    ensures SameJobs(e, e.(status := r.st)) && SameJobs(e, Quiesce(e, r)) && Quiesce(e, r).Known()
  {
  }

  lemma EnvSameJobs(c: Conf, e: Eng, s: Env)
    requires Inv(c, e) && WellFormed(s)
    ensures SameJobs(e, EnvStep(c, e, s))
  {
    hide Loaded, OnHead, EngineModel.Service, Step, Executes, ReportOf;
    if (s.Irq? || s.Poll?) && !Silent(e, s) { ServiceSameJobs(e, ReportOf(e, s)); }
    if s.Misreport? { ServiceSameJobs(e, s.report); }
  }

  lemma TimeoutSame(e: Eng, id: Id, st: Status)
    requires e.Known() && id in e.xfer
    ensures SameJobs(e, Timeout(e, id, st))
  {
    hide SameJobs, Abort;
    var e1 := e.(status := st);
    StoppedSame(e, st);
    AbortSame(e1, id);
    StoppedSame(Abort(e1, id), st);
    SameJobsTransitive(e, e1, Abort(e1, id));
    SameJobsTransitive(e, Abort(e1, id), Stop(Abort(e1, id)));
  }

  lemma StoppedSame(e: Eng, st: Status)
    ensures SameJobs(e, e.(status := st)) && SameJobs(e, Stop(e))
  {
  }

  lemma AbortSame(e: Eng, id: Id)
    requires e.Known() && id in e.xfer
    ensures SameJobs(e, Abort(e, id))
  {
    hide SameJobs, Pop;
    SameJobsSelf(e);
    if e.xfer[id].num != 0 {
      var e1 := if e.queue != [] && e.queue[0] == id then Pop(e, e.xfer[id]) else e;
      PopSelf(e);
      MarkSame(e1, id);
      SameJobsTransitive(e, e1, e1.(xfer := e1.xfer[id := e1.xfer[id].(state := Aborted)]));
    }
  }

  /** Taking the head off the queue as it is. */
  lemma PopSelf(e: Eng)
    requires e.Known()
    ensures e.queue != [] ==> SameJobs(e, Pop(e, e.Head())) && Pop(e, e.Head()).xfer == e.xfer
  {
  }

  lemma MarkSame(e: Eng, id: Id)
    requires id in e.xfer
    ensures SameJobs(e, e.(xfer := e.xfer[id := e.xfer[id].(state := Aborted)]))
  {
  }

  // --- an idle engine ------------------------------------------------------------------------

  ghost predicate Idle(c: Conf, e: Eng) {
    Inv(c, e) && e.queue == []
  }

  lemma IdleStep(c: Conf, e: Eng, s: Env)
    requires Idle(c, e) && WellFormed(s)
    ensures var e1 := EnvStep(c, e, s);
            && e1.queue == [] && SameJobs(e, e1) && e1.hw.log == e.hw.log && e1.removed == e.removed
            && e1.xfer == e.xfer
  {
    hide Loaded, OnHead, Step, Executes, ReportOf, SameJobs;
    EnvSameJobs(c, e, s);
  }

  lemma {:induction false} IdleRun(c: Conf, e: Eng, steps: seq<Env>)
    requires Idle(c, e) && AllWellFormed(steps)
    ensures var e1 := EnvRun(c, e, steps);
            && e1.queue == [] && SameJobs(e, e1) && e1.hw.log == e.hw.log && e1.xfer == e.xfer
    decreases |steps|
  {
    hide Inv, SameJobs, EnvStep;
    if steps != [] {
      IdleStep(c, e, steps[0]);
      var e1 := EnvStep(c, e, steps[0]);
      IdleRun(c, e1, steps[1..]);
      SameJobsTransitive(e, e1, EnvRun(c, e1, steps[1..]));
    } else {
      SameJobsSelf(e);
    }
  }

  lemma SameJobsSelf(e: Eng)
    ensures SameJobs(e, e)
  {
  }

  // --- an engine with one outstanding transfer --------------------------------------------------

  /** From the moment `e0` at which transfer `id` alone was started: it is the only one queued, or it
      has been settled; the device has executed its first k descriptors and moved nothing else. If
      the device reports truthfully, a completed transfer has been executed to the end. */
  ghost predicate Pending(c: Conf, e0: Eng, e: Eng, id: Id, k: nat, honest: bool) {
    && Inv(c, e) && SameJobs(e0, e) && id in e.xfer
    && var x := e.xfer[id];
       && k <= x.num && x.index + x.num <= |e.ring|
       && e.hw.log == e0.hw.log + ChainMoves(e.ring, x.index, k, c.mode)
       && (e.queue == [id] || (e.queue == [] && (x.state == Completed || x.state == Failed)))
       && (e.running ==> e.hw.executed == k && e.hw.mark == |e0.hw.log|)
       && (honest && x.state == Completed ==> k == x.num)
  }

  lemma PendingDevice(c: Conf, e0: Eng, e: Eng, id: Id, k: nat, honest: bool) returns (k': nat)
    requires Pending(c, e0, e, id, k, honest)
    ensures Pending(c, e0, HwStep(c, e), id, k', honest)
  {
    hide Step, Executes, Loaded, ChainMoves, Left, Programmed;
    HwStepKeeps(c, e);
    var e1 := HwStep(c, e);
    k' := if e.running then e1.hw.executed else k;
    if e.running {
      assert e.hw.log[..e.hw.mark] == e0.hw.log;
      LoadedFits(c, e, id);
      assert OnHead(c, e1);
      MarkStays(c, e);
    }
  }

  lemma LoadedFits(c: Conf, e: Eng, id: Id)
    requires Inv(c, e) && e.queue == [id]
    ensures id in e.xfer && e.xfer[id].index + e.xfer[id].num <= |e.ring| && 0 < e.xfer[id].num
  {
    hide Chained, ChainMoves;
    assert Loaded(c, e.ring, e.xfer[e.queue[0]]);
  }

  lemma MarkStays(c: Conf, e: Eng)
    requires e.hw.mark <= |e.hw.log|
    ensures HwStep(c, e).hw.mark == e.hw.mark && e.hw.log <= HwStep(c, e).hw.log
    ensures HwStep(c, e).hw.log[..e.hw.mark] == e.hw.log[..e.hw.mark]
  {
    hide Step, Executes;
  }

  lemma PendingService(c: Conf, e0: Eng, e: Eng, id: Id, k: nat, honest: bool, r: Report)
    requires Pending(c, e0, e, id, k, honest)
    requires r.Valid() && (r.count == 0 ==> !r.st.busy) && (honest ==> Fresh(e, r))
    ensures Pending(c, e0, EngineModel.Service(e, r), id, k, honest)
  {
    ServiceKeeps(c, e, r);
    ServiceSameJobs(e, r);
    SameJobsTransitive(e0, e, EngineModel.Service(e, r));
    if e.running {
      if r.Count() == 0 {
        ServiceStops(c, e, r);
      } else {
        LoadedFits(c, e, id);
        HeadVerdict(c, e, r);
        ServiceTakesOne(c, e, r, id);
      }
    } else {
      hide Loaded, OnHead, ChainMoves;
    }
    hide Inv, ChainMoves, Quiesce, EngineModel.Service;
  }

  lemma ServiceStops(c: Conf, e: Eng, r: Report)
    requires Inv(c, e) && e.running && r.Valid() && r.Count() == 0 && !r.st.busy
    ensures var e1 := EngineModel.Service(e, r);
            e1.queue == e.queue && e1.xfer == e.xfer && !e1.running && e1.hw.log == e.hw.log
  {
    hide Loaded, OnHead;
  }

  /** A service call that sees a count empties a one-transfer queue. */
  lemma ServiceTakesOne(c: Conf, e: Eng, r: Report, id: Id)
    requires Inv(c, e) && e.running && r.Valid() && (r.count == 0 ==> !r.st.busy) && r.Count() != 0
    requires e.queue == [id]
    ensures EngineModel.Service(e, r).queue == [] && !EngineModel.Service(e, r).running
  {
    ServiceKeeps(c, e, r);
    ServiceGrows(e, r);
    ServiceSameJobs(e, r);
    HeadVerdict(c, e, r);
    OneLeft(e, EngineModel.Service(e, r), id);
    hide EngineModel.Service;
    var e1 := EngineModel.Service(e, r);
    assert e1.queue == [];
  }

  lemma OneLeft(e: Eng, e1: Eng, id: Id)
    requires e.queue == [id] && e1.submitted == e.submitted && Grows(e, e1)
    requires e.removed + e.queue == e.submitted && e1.removed + e1.queue == e1.submitted && id !in e1.queue
    ensures e1.queue == []
  {
    LastSubmitted(e);
    LastSubmitted(e1);
  }

  lemma LastSubmitted(e: Eng)
    requires e.removed + e.queue == e.submitted
    ensures |e.submitted| == |e.removed| + |e.queue|
    ensures e.queue != [] ==> e.submitted[|e.submitted| - 1] == e.queue[|e.queue| - 1]
  {
  }

  lemma PendingStep(c: Conf, e0: Eng, e: Eng, id: Id, k: nat, honest: bool, s: Env) returns (k': nat)
    requires Pending(c, e0, e, id, k, honest) && WellFormed(s) && (honest ==> !s.Misreport?)
    ensures Pending(c, e0, EnvStep(c, e, s), id, k', honest)
  {
    k' := k;
    match s
    case Irq(_, _) =>
      PendingService(c, e0, e, id, k, honest, ReportOf(e, s));
      hide Pending, EngineModel.Service, ReportOf;
    case Poll(_, _, _, _) =>
      if !Silent(e, s) { PendingService(c, e0, e, id, k, honest, ReportOf(e, s)); }
      hide Pending, EngineModel.Service, ReportOf;
    case Misreport(r) =>
      PendingService(c, e0, e, id, k, honest, r);
      hide Pending, EngineModel.Service;
    case Device =>
      k' := PendingDevice(c, e0, e, id, k, honest);
      hide Pending, HwStep;
    case GoOffline =>
      EnvSameJobs(c, e, s);
      hide OnHead, Loaded, ChainMoves;
      SameJobsTransitive(e0, e, EnvStep(c, e, s));
      hide SameJobs;
    case GoOnline =>
      EnvSameJobs(c, e, s);
      hide OnHead, Loaded, ChainMoves;
      SameJobsTransitive(e0, e, EnvStep(c, e, s));
      hide SameJobs;
  }

  /** Over any interleaving at most this one transfer is outstanding, on the queue exactly while
      SUBMITTED, and the device moves a prefix of its job. */
  lemma {:induction false} PendingRun(c: Conf, e0: Eng, e: Eng, id: Id, k: nat, honest: bool, steps: seq<Env>)
    returns (k': nat)
    requires Pending(c, e0, e, id, k, honest) && AllWellFormed(steps) && (honest ==> Honest(steps))
    ensures Pending(c, e0, EnvRun(c, e, steps), id, k', honest)
    decreases |steps|
  {
    hide EnvStep;
    k' := k;
    if steps != [] {
      k' := PendingStep(c, e0, e, id, k, honest, steps[0]);
      k' := PendingRun(c, e0, EnvStep(c, e, steps[0]), id, k', honest, steps[1..]);
    }
  }

  // --- what the submitter sees ---------------------------------------------------------------------------

  /** Any sequence of environment steps, executed on the engine. */
  method Environment(e: Engine, steps: seq<Env>)
    requires Inv(e.conf, e.View()) && AllWellFormed(steps)
    modifies e
    ensures e.View() == EnvRun(e.conf, old(e.View()), steps)
  {
    var i := 0;
    while i < |steps|
      invariant i <= |steps| && Inv(e.conf, e.View())
      invariant EnvRun(e.conf, e.View(), steps[i..]) == EnvRun(e.conf, old(e.View()), steps)
    {
      hide Inv;
      assert steps[i..][1..] == steps[i + 1..];
      OneStep(e, steps[i]);
      i := i + 1;
    }
  }

  /** An interrupt is served. */
  method OneInterrupt(e: Engine, st: Status, again: Status)
    requires Inv(e.conf, e.View())
    modifies e
    ensures e.View() == EngineModel.Service(old(e.View()), ReportOf(old(e.View()), Irq(st, again)))
  {
    InvKnown(e.conf, e.View());
    hide Inv, EngineModel.Service;
    var reg := e.hw.executed % 0x1_0000_0000;
    e.Service(Report(0, false, st.(busy := false), reg, again));
  }

  /** The poller looks at the write-back, and serves it unless it finds none. */
  method OnePoll(e: Engine, lag: nat, err: bool, st: Status, again: Status)
    requires Inv(e.conf, e.View())
    modifies e
    ensures var s := Poll(lag, err, st, again);
            e.View() == if Silent(old(e.View()), s) then old(e.View())
                        else EngineModel.Service(old(e.View()), ReportOf(old(e.View()), s))
  {
    InvKnown(e.conf, e.View());
    hide Inv, EngineModel.Service;
    var reg := e.hw.executed % 0x1_0000_0000;
    var count := (if lag <= e.hw.executed then e.hw.executed - lag else 0) % 0x100_0000;
    if count != 0 || err {
      e.Service(Report(count, err, if count == 0 then st.(busy := false) else st, reg, again));
    }
  }

  method OneStep(e: Engine, s: Env)
    requires Inv(e.conf, e.View()) && WellFormed(s)
    modifies e
    ensures e.View() == EnvStep(e.conf, old(e.View()), s)
  {
    InvKnown(e.conf, e.View());
    hide Inv, EngineModel.Service, HwStep, ReportOf, Silent;
    match s
    case Irq(st, again) => OneInterrupt(e, st, again);
    case Poll(lag, err, st, again) => OnePoll(e, lag, err, st, again);
    case Misreport(r) => e.Service(r);
    case Device => e.Device();
    case GoOffline => e.Offline();
    case GoOnline => e.Online();
  }

  lemma InvKnown(c: Conf, e: Eng)
    requires Inv(c, e)
    ensures e.Known()
  {
  }

  datatype Rv = Ok | Busy | IoError | Restart

  /** One round of the submit loop as seen from outside: what happens before the transfer is queued,
      the offline flag as it was checked and the status read when starting, what happens until the
      waiter goes on (completion, timeout or signal), and whether the status can be read then. */
  datatype Turn = Turn(before: seq<Env>, offline: bool, st: Status, during: seq<Env>, readable: bool, last: Status)
  {
    predicate Valid() { AllWellFormed(before) && AllWellFormed(during) }
    predicate Truthful() { Honest(before) && Honest(during) }
  }

  /** The copy the next `n` software descriptors of a request stand for. */
  function JobAt(sdesc: seq<Seg>, from: nat, n: nat, ep: nat, m: Mode): seq<Move>
    requires from + n <= |sdesc|
  {
    LinearCopy(Flatten(sdesc[from..from + n]), ep, m)
  }

  lemma {:induction false} ChainMovesPrefix(ring: seq<Desc>, p: nat, k: nat, n: nat, m: Mode)
    requires k <= n && p + n <= |ring|
    ensures ChainMoves(ring, p, k, m) <= ChainMoves(ring, p, n, m)
  {
    hide DescMoves;
    if k < n { ChainMovesPrefix(ring, p, k, n - 1, m); }
  }

  /** A freshly started transfer is pending, with nothing executed. */
  lemma StartedIsPending(c: Conf, e: Eng, id: Id, offline: bool, st: Status, honest: bool)
    requires Idle(c, e) && id in e.xfer && e.xfer[id].num != 0 && Loaded(c, e.ring, e.xfer[id])
    requires Queue(e, id, offline, st).1
    ensures var e0 := Queue(e, id, offline, st).0; Pending(c, e0, e0, id, 0, honest)
  {
    hide Chained, Left, Programmed;
    QueueKeeps(c, e, id, offline, st);
    SameJobsSelf(Queue(e, id, offline, st).0);
  }

  /** What the submitter finds after the wait. */
  lemma WaitOutcome(c: Conf, e0: Eng, e: Eng, id: Id, k: nat, honest: bool) returns (moved: nat)
    requires Pending(c, e0, e, id, k, honest)
    requires id in e0.xfer && Loaded(c, e0.ring, e0.xfer[id]) 
    ensures moved <= |e0.xfer[id].job| && e.hw.log == e0.hw.log + e0.xfer[id].job[..moved]
    ensures honest && e.xfer[id].state == Completed ==> moved == |e0.xfer[id].job|
    ensures e.queue == [id] || e.queue == []
    ensures e.queue == [id] <==> e.xfer[id].state == Submitted
    ensures e.queue == [] <==> e.xfer[id].state == Completed || e.xfer[id].state == Failed
  {
    hide Chained, OnHead;
    var x := e0.xfer[id];
    assert SameStatic(x, e.xfer[id]);
    ChainMovesPrefix(e.ring, x.index, k, x.num, c.mode);
    moved := |ChainMoves(e.ring, x.index, k, c.mode)|;
  }

  lemma StopOne(c: Conf, e: Eng, id: Id, st: Status)
    requires Inv(c, e) && e.queue == [id] && id in e.xfer && e.xfer[id].num != 0
    ensures Idle(c, Timeout(e, id, st))
    ensures var e1 := Timeout(e, id, st);
            SameJobs(e, e1) && e1.hw.log == e.hw.log && id in e1.xfer
  {
    hide Inv, Abort, SameJobs;
    TimeoutKeeps(c, e, id, st);
    QueueOfOne(c, e, id);
    TimeoutSame(e, id, st);
    AbortHead(e.(status := st), id);
  }

  lemma QueueOfOne(c: Conf, e: Eng, id: Id)
    requires Inv(c, e) && e.queue == [id]
    ensures e.Known() && id in e.xfer
  {
    hide Loaded, OnHead;
    assert e.queue[0] == id;
  }

  lemma AbortHead(e: Eng, id: Id)
    requires e.Known() && e.queue == [id] && id in e.xfer
    ensures var e1 := Abort(e, id);
            && e1.hw == e.hw && id in e1.xfer && (e.xfer[id].num != 0 ==> e1.queue == [])
  {
  }

  /** What building a slice on an idle engine establishes. */
  lemma BuiltFacts(c: Conf, e: Eng, id: Id, pieces: seq<Seg>, ep: nat)
    requires Idle(c, e) && pieces != [] && e.index + |pieces| <= |e.ring|
    ensures var e1 := Build(c, e, id, pieces, ep);
            && Idle(c, e1) && id in e1.xfer && Loaded(c, e1.ring, e1.xfer[id])
            && e1.xfer[id].num == |pieces| && e1.xfer[id].len == TotalLen(pieces)
            && e1.xfer[id].job == LinearCopy(Flatten(pieces), ep, c.mode)
            && e1.hw.log == e.hw.log && e1.used == e.used + |pieces|
            && e1.index == (e.index + |pieces|) % |e.ring|
  {
    hide Place, LinearCopy, Flatten, Loaded, OnHead, TotalLen;
    BuildKeeps(c, e, id, pieces, ep);
    BuiltIsLoaded(c, e, id, pieces, ep);
  }

  /** The world runs before the transfer is queued: nothing of it changes. */
  lemma BeforeFacts(c: Conf, e: Eng, id: Id, steps: seq<Env>)
    requires Idle(c, e) && AllWellFormed(steps) && id in e.xfer && Loaded(c, e.ring, e.xfer[id])
    ensures var e1 := EnvRun(c, e, steps);
            && Idle(c, e1) && id in e1.xfer && Loaded(c, e1.ring, e1.xfer[id]) && e1.xfer[id] == e.xfer[id]
            && e1.hw.log == e.hw.log && e1.used == e.used && e1.index == e.index && e1.ring == e.ring
  {
    hide Loaded, OnHead;
    IdleRun(c, e, steps);
  }

  /** Queueing it and waiting: it is queued while SUBMITTED, settled otherwise. */
  lemma AfterFacts(c: Conf, e: Eng, id: Id, offline: bool, st: Status, honest: bool, steps: seq<Env>)
    returns (moved: nat)
    requires Idle(c, e) && id in e.xfer && Loaded(c, e.ring, e.xfer[id])
    requires AllWellFormed(steps) && (honest ==> Honest(steps))
    ensures e.Known() && Inv(c, Queue(e, id, offline, st).0)
    ensures var (e0, ok) := Queue(e, id, offline, st);
            if !ok then e0 == e
            else
              var e1 := EnvRun(c, e0, steps);
              var x := e.xfer[id];
              && id in e1.xfer && e1.xfer[id].num == x.num && e1.xfer[id].len == x.len
              && e1.used == e.used && e1.index == e.index && e1.ring == e.ring
              && (e1.queue == [id] || e1.queue == [])
              && (e1.queue == [id] <==> e1.xfer[id].state == Submitted)
              && (e1.queue == [] <==> e1.xfer[id].state == Completed || e1.xfer[id].state == Failed)
              && moved <= |x.job| && e1.hw.log == e.hw.log + x.job[..moved]
              && (honest && e1.xfer[id].state == Completed ==> moved == |x.job|)
  {
    QueueKeeps(c, e, id, offline, st);
    var (e0, ok) := Queue(e, id, offline, st);
    moved := 0;
    if ok {
      StartedIsPending(c, e, id, offline, st, honest);
      hide Loaded, OnHead, EnvRun, Inv;
      var k := PendingRun(c, e0, e0, id, 0, honest, steps);
      moved := WaitOutcome(c, e0, EnvRun(c, e0, steps), id, k, honest);
    }
  }
}
