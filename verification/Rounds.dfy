/** One round of the synchronous submit path as a function of the engine and the schedule, and what it
    leaves behind. */
module Rounds {
  import opened Arith
  import opened Descriptor
  import opened Fetch
  import opened Scatter
  import opened Compile
  import opened EngineModel
  import opened EngineInvariant
  import opened EngineRuns
  import opened Submit

  // --- one round ----------------------------------------------------------------------------------

  /** The engine when the transfer is offered to the queue: its slice built, other steps in between. */
  ghost function Offered(c: Conf, e: Eng, id: Id, pieces: seq<Seg>, ep: nat, turn: Turn): (r: Eng)
    requires Idle(c, e) && pieces != [] && e.index + |pieces| <= |e.ring| && turn.Valid()
    ensures Idle(c, r) && id in r.xfer && Loaded(c, r.ring, r.xfer[id]) && r.xfer[id].num == |pieces|
  {
    hide Loaded, OnHead, Place, LinearCopy, Flatten, EnvRun;
    BuiltFacts(c, e, id, pieces, ep);
    BeforeFacts(c, Build(c, e, id, pieces, ep), id, turn.before);
    EnvRun(c, Build(c, e, id, pieces, ep), turn.before)
  }

  /** transfer_queue takes the transfer. */
  predicate Accepts(e: Eng, turn: Turn) { !turn.offline && !e.request }

  /** The engine when the waiter goes on. */
  ghost function Waited(c: Conf, e: Eng, id: Id, turn: Turn): (r: Eng)
    requires Idle(c, e) && id in e.xfer && e.xfer[id].num != 0 && Loaded(c, e.ring, e.xfer[id]) && turn.Valid()
    requires Accepts(e, turn)
    ensures Inv(c, r) && r.Known() && id in r.xfer && r.xfer[id].num == e.xfer[id].num
    ensures r.queue == [id] || r.queue == []
    ensures r.queue == [id] <==> r.xfer[id].state == Submitted
    ensures r.queue == [] <==> r.xfer[id].state == Completed || r.xfer[id].state == Failed
  {
    hide Loaded, OnHead, EnvRun;
    WaitStates(c, e, id, turn);
    EnvRun(c, Queue(e, id, turn.offline, turn.st).0, turn.during)
  }

  lemma WaitStates(c: Conf, e: Eng, id: Id, turn: Turn)
    requires Idle(c, e) && id in e.xfer && e.xfer[id].num != 0 && Loaded(c, e.ring, e.xfer[id]) && turn.Valid()
    requires Accepts(e, turn)
    ensures Inv(c, Queue(e, id, turn.offline, turn.st).0) && Queue(e, id, turn.offline, turn.st).1
    ensures var r := EnvRun(c, Queue(e, id, turn.offline, turn.st).0, turn.during);
            && Inv(c, r) && r.Known() && id in r.xfer && r.xfer[id].num == e.xfer[id].num
            && (r.queue == [id] || r.queue == [])
            && (r.queue == [id] <==> r.xfer[id].state == Submitted)
            && (r.queue == [] <==> r.xfer[id].state == Completed || r.xfer[id].state == Failed)
  {
    var moved := AfterFacts(c, e, id, turn.offline, turn.st, false, turn.during);
    hide Loaded, OnHead, EnvRun;
  }

  /** transfer_destroy's memset. */
  function Cleared(ring: seq<Desc>, p: nat, n: nat): (r: seq<Desc>)
    ensures |r| == |ring|
  {
    seq(|ring|, j requires 0 <= j < |ring| => if p <= j < p + n then Desc(0, 0, 0, 0, 0, 0, 0, 0) else ring[j])
  }

  /** Slots [p, p + n) are all-zero descriptors, every other slot is as it was. */
  ghost predicate Wiped(was: seq<Desc>, ring: seq<Desc>, p: nat, n: nat) {
    && |ring| == |was|
    && forall j | 0 <= j < |ring| ::
         if p <= j < p + n then ring[j] == Desc(0, 0, 0, 0, 0, 0, 0, 0) else ring[j] == was[j]
  }

  lemma ClearedIsWiped(ring: seq<Desc>, p: nat, n: nat)
    ensures Wiped(ring, Cleared(ring, p, n), p, n)
  {
  }

  /** How far slot j lies ahead of slot p, going round a ring of d slots. */
  function Ahead(j: nat, p: nat, d: nat): nat
    requires p < d
  {
    (j + d - p) % d
  }

  /** Going round the ring from slot p: the next n slots are all-zero descriptors, the others as they were. */
  ghost predicate WipedRound(was: seq<Desc>, ring: seq<Desc>, p: nat, n: nat)
    requires p < |was|
  {
    && |ring| == |was|
    && forall j | 0 <= j < |ring| ::
         if Ahead(j, p, |was|) < n then ring[j] == Desc(0, 0, 0, 0, 0, 0, 0, 0) else ring[j] == was[j]
  }

  lemma WipedAtOnce(ring: seq<Desc>, p: nat)
    requires p < |ring|
    ensures WipedRound(ring, ring, p, 0)
  {
  }

  lemma AheadIs(j: nat, p: nat, d: nat)
    requires j < d && p < d
    ensures Ahead(j, p, d) == if j < p then j + d - p else j - p
  {
    if j < p { DivUnique(j + d - p, d, 0, j + d - p); } else { DivUnique(j + d - p, d, 1, j - p); }
  }

  /** The slot n further on, within one turn. */
  lemma SlotAfter(p: nat, n: nat, d: nat)
    requires p < d && n < d
    ensures (p + n) % d == if p + n < d then p + n else p + n - d
  {
    if p + n < d { DivUnique(p + n, d, 0, p + n); } else { DivUnique(p + n, d, 1, p + n - d); }
  }

  /** The slots ahead of p by less than n + k: those ahead by less than n, and the k from slot q on, which
      is n ahead. */
  lemma SlotAhead(j: nat, p: nat, n: nat, d: nat, q: nat, k: nat)
    requires j < d && p < d && q + k <= d && (n < d ==> q == if p + n < d then p + n else p + n - d)
    ensures Ahead(j, p, d) < n + k <==> Ahead(j, p, d) < n || q <= j < q + k
  {
    hide Ahead;
    AheadIs(j, p, d);
  }

  /** Wiping the next slice carries on from where the slots before it end. */
  lemma WipedOn(was: seq<Desc>, ring: seq<Desc>, next: seq<Desc>, p: nat, n: nat, k: nat)
    requires p < |was| && WipedRound(was, ring, p, n) && (p + n) % |was| + k <= |was|
    requires Wiped(ring, next, (p + n) % |was|, k)
    ensures WipedRound(was, next, p, n + k) && ((p + n) % |was| + k) % |was| == (p + n + k) % |was|
  {
    hide Wiped, WipedRound;
    ModPlus(p + n, k, |was|);
    if n < |was| { SlotAfter(p, n, |was|); }
    WipedFrom(was, ring, next, p, n, k, (p + n) % |was|);
  }

  lemma WipedFrom(was: seq<Desc>, ring: seq<Desc>, next: seq<Desc>, p: nat, n: nat, k: nat, q: nat)
    requires p < |was| && WipedRound(was, ring, p, n) && q + k <= |was| && Wiped(ring, next, q, k)
    requires n < |was| ==> q == if p + n < |was| then p + n else p + n - |was|
    ensures WipedRound(was, next, p, n + k)
  {
    hide Ahead;
    forall j | 0 <= j < |was|
      ensures if Ahead(j, p, |was|) < n + k then next[j] == Desc(0, 0, 0, 0, 0, 0, 0, 0) else next[j] == was[j]
    {
      SlotAhead(j, p, n, |was|, q, k);
    }
  }

  /** The device does not execute a wiped slot: it has no magic. */
  lemma WipedIsNotExecuted(c: Conf, was: seq<Desc>, ring: seq<Desc>, p: nat, n: nat, j: nat, left: nat)
    requires Wiped(was, ring, p, n) && p <= j < p + n && j < |ring|
    ensures !Executes(Ring(ring, c.base), At(c.base + 32 * j, left))
  {
    var r := Ring(ring, c.base);
    assert 32 * j % 32 == 0 && 32 * j / 32 == j;
    assert r.Holds(c.base + 32 * j) && r.SlotOf(c.base + 32 * j) == j;
    NoMagic();
  }

  lemma NoMagic()
    ensures Magic(0) != 0xAD4B
  {
  }

  /** The descriptors of a finished transfer given back. */
  function Released(e: Eng, p: nat, n: nat): Eng {
    e.(ring := Cleared(e.ring, p, n), used := e.used - n)
  }

  /** One round: build, other steps, queue, other steps, and what the waiter finds and does. */
  ghost function Round(c: Conf, e: Eng, id: Id, pieces: seq<Seg>, ep: nat, turn: Turn): (r: (Eng, Rv))
    requires Idle(c, e) && pieces != [] && e.index + |pieces| <= |e.ring| && turn.Valid()
  {
    hide Loaded, Idle;
    var offered := Offered(c, e, id, pieces, ep, turn);
    if !Accepts(offered, turn) then (offered, Busy)
    else
      NumOfLoaded(c, offered, id);
      var w := Waited(c, offered, id, turn);
      if w.xfer[id].state == Completed then (Released(w, e.index, |pieces|), Ok)
      else if w.xfer[id].state == Failed then (Released(w, e.index, |pieces|), IoError)
      else (Released(if turn.readable then Timeout(w, id, turn.last) else w, e.index, |pieces|), Restart)
  }

  lemma NumOfLoaded(c: Conf, e: Eng, id: Id)
    requires id in e.xfer && Loaded(c, e.ring, e.xfer[id])
    ensures e.xfer[id].num != 0
  {
  }

  /** What the caller is told: rejected exactly if the device was seen offline or the engine was under a
      shutdown request; otherwise the state of the transfer when the wait ended. */
  lemma RoundVerdict(c: Conf, e: Eng, id: Id, pieces: seq<Seg>, ep: nat, turn: Turn)
    requires Idle(c, e) && pieces != [] && e.index + |pieces| <= |e.ring| && turn.Valid()
    ensures var offered := Offered(c, e, id, pieces, ep, turn);
            var rv := Round(c, e, id, pieces, ep, turn).1;
            && (rv == Busy <==> turn.offline || offered.request)
            && (Accepts(offered, turn) ==>
                  && offered.xfer[id].num != 0
                  && var w := Waited(c, offered, id, turn);
                     && (rv == Ok <==> w.xfer[id].state == Completed && w.queue == [])
                     && (rv == IoError <==> w.xfer[id].state == Failed && w.queue == [])
                     && (rv == Restart <==> w.xfer[id].state == Submitted && w.queue == [id]))
  {
    var offered := Offered(c, e, id, pieces, ep, turn);
    NumOfLoaded(c, offered, id);
    hide Loaded, Idle, Offered, Waited;
  }

  /** transfer_destroy's memset: an idle engine does not mind. */
  lemma ClearKeeps(c: Conf, e: Eng, ring: seq<Desc>, used: int)
    requires Idle(c, e) && |ring| == |e.ring|
    ensures Idle(c, e.(ring := ring, used := used))
  {
  }

  /** What a round leaves behind: the ring cursor behind the slice, desc_used as before unless the transfer
      was rejected, an idle engine unless the status could not be read after a timeout, and a prefix of
      the copy moved, all of it under truthful reports if it reports success. The slots of the slice are
      wiped, and those of a rejected transfer hold it as it was built. */
  lemma RoundFacts(c: Conf, e: Eng, id: Id, pieces: seq<Seg>, ep: nat, turn: Turn) returns (moved: nat)
    requires Idle(c, e) && pieces != [] && e.index + |pieces| <= |e.ring| && turn.Valid()
    ensures var (e1, rv) := Round(c, e, id, pieces, ep, turn);
            var job := LinearCopy(Flatten(pieces), ep, c.mode);
            && |e1.ring| == |e.ring| && e1.index == (e.index + |pieces|) % |e.ring|
            && e1.used == e.used + (if rv == Busy then |pieces| else 0)
            && (if rv == Busy then e1.ring == Place(e.ring, c.base, e.index, pieces, ep, c.mode)
                else Wiped(e.ring, e1.ring, e.index, |pieces|))
            && (if rv == Restart && !turn.readable
                then e1.queue == [id] && id in e1.xfer && e1.xfer[id].state == Submitted else Idle(c, e1))
            && moved <= |job| && e1.hw.log == e.hw.log + job[..moved]
            && (turn.Truthful() && rv == Ok ==> moved == |job|)
  {
    hide Inv, Loaded, EnvRun, LinearCopy, Flatten, Place, Timeout, Wiped, Cleared;
    BuiltFacts(c, e, id, pieces, ep);
    var built := Build(c, e, id, pieces, ep);
    PlaceThenWipe(c, e.ring, e.index, pieces, ep);
    BeforeFacts(c, built, id, turn.before);
    var offered := Offered(c, e, id, pieces, ep, turn);
    NumOfLoaded(c, offered, id);
    moved := AfterFacts(c, offered, id, turn.offline, turn.st, turn.Truthful(), turn.during);
    if Accepts(offered, turn) {
      hide Queue;
      WaitEnds(c, Waited(c, offered, id, turn), id, turn, e.index, |pieces|);
      hide Inv, Idle, Timeout;
    } else {
      moved := 0;
      NothingMoved(e.hw.log, LinearCopy(Flatten(pieces), ep, c.mode));
    }
  }

  lemma NothingMoved(log: seq<Move>, job: seq<Move>)
    ensures log == log + job[..0]
  {
  }

  /** Building a slice and wiping it changes nothing else. */
  lemma PlaceThenWipe(c: Conf, ring: seq<Desc>, p: nat, pieces: seq<Seg>, ep: nat)
    requires p + |pieces| <= |ring|
    ensures Wiped(ring, Cleared(Place(ring, c.base, p, pieces, ep, c.mode), p, |pieces|), p, |pieces|)
  {
    hide Place, CompiledDesc, EpAt;
    var built := Place(ring, c.base, p, pieces, ep, c.mode);
    PlaceFrame(ring, c, p, pieces, ep, 0, p);
    PlaceFrame(ring, c, p, pieces, ep, p + |pieces|, |ring| - p - |pieces|);
    ClearedIsWiped(built, p, |pieces|);
  }

  /** Settling a transfer: giving back its descriptors leaves an idle engine, also after an abort. */
  lemma WaitEnds(c: Conf, w: Eng, id: Id, turn: Turn, p: nat, n: nat)
    requires Inv(c, w) && w.Known() && id in w.xfer && w.xfer[id].num != 0 && (w.queue == [] || w.queue == [id])
    ensures w.queue == [] ==> Idle(c, Released(w, p, n))
    ensures w.queue == [id] && turn.readable ==>
      var e1 := Timeout(w, id, turn.last);
      && Idle(c, Released(e1, p, n)) && e1.hw.log == w.hw.log
      && e1.ring == w.ring && e1.index == w.index && e1.used == w.used
  {
    if w.queue == [] {
      ClearKeeps(c, w, Cleared(w.ring, p, n), w.used - n);
    } else if turn.readable {
      StopOne(c, w, id, turn.last);
      var e1 := Timeout(w, id, turn.last);
      hide Inv, Timeout;
      ClearKeeps(c, e1, Cleared(e1.ring, p, n), e1.used - n);
    }
  }

  // --- when a round is rejected --------------------------------------------------------------------

  /** The shutdown request after steps that cannot start the engine. */
  function RequestAfter(request: bool, steps: seq<Env>): bool
    decreases |steps|
  {
    if steps == [] then request
    else RequestAfter(if steps[0].GoOffline? then true else if steps[0].GoOnline? then false else request, steps[1..])
  }

  lemma IdleRequest(c: Conf, e: Eng, s: Env)
    requires Idle(c, e) && WellFormed(s)
    ensures Idle(c, EnvStep(c, e, s))
    ensures EnvStep(c, e, s).request == (if s.GoOffline? then true else if s.GoOnline? then false else e.request)
  {
    IdleStep(c, e, s);
    hide Loaded, OnHead, Step, Executes, ReportOf;
  }

  lemma {:induction false} IdleRequests(c: Conf, e: Eng, steps: seq<Env>)
    requires Idle(c, e) && AllWellFormed(steps)
    ensures EnvRun(c, e, steps).request == RequestAfter(e.request, steps)
    decreases |steps|
  {
    hide Inv, EnvStep;
    if steps != [] {
      IdleRequest(c, e, steps[0]);
      IdleRequests(c, EnvStep(c, e, steps[0]), steps[1..]);
    }
  }

  /** A round is rejected exactly if the caller saw the device offline, or the last offline or online
      step before it was queued left the engine under a shutdown request. */
  lemma BusyIff(c: Conf, e: Eng, id: Id, pieces: seq<Seg>, ep: nat, turn: Turn)
    requires Idle(c, e) && pieces != [] && e.index + |pieces| <= |e.ring| && turn.Valid()
    ensures Round(c, e, id, pieces, ep, turn).1 == Busy <==> turn.offline || RequestAfter(e.request, turn.before)
  {
    RoundVerdict(c, e, id, pieces, ep, turn);
    BuiltFacts(c, e, id, pieces, ep);
    IdleRequests(c, Build(c, e, id, pieces, ep), turn.before);
    hide Idle, Round, EnvRun, Waited, Loaded;
  }

  // --- when a round succeeds -------------------------------------------------------------------------

  /** Descriptors the device may execute among the steps. */
  function DeviceSteps(steps: seq<Env>): nat {
    if steps == [] then 0 else DeviceSteps(steps[..|steps| - 1]) + (if steps[|steps| - 1].Device? then 1 else 0)
  }

  /** Steps that leave the waiter's transfer to the device. */
  predicate Working(steps: seq<Env>) { forall i | 0 <= i < |steps| :: steps[i].Device? || steps[i].GoOnline? }

  /** A report that shows a finished transfer of n descriptors as it is: an interrupt without an error
      bit, or a poll of a write-back that has caught up. */
  predicate Settles(s: Env, st: Status, n: nat) {
    match s
    case Irq(now, _) => !now.err && n < 0x1_0000_0000
    case Poll(lag, err, _, _) => lag == 0 && !err && !st.err && n < 0x100_0000
    case _ => false
  }

  /** The schedule queues the transfer, lets the device execute n descriptors and then reports them. */
  ghost predicate Serves(turn: Turn, k: nat, n: nat) {
    && k < |turn.during| && Working(turn.during[..k]) && n <= DeviceSteps(turn.during[..k])
    && Settles(turn.during[k], turn.st, n) && !turn.offline
  }

  /** The device at work on the only transfer, k descriptors into it. */
  ghost predicate AtWork(c: Conf, e: Eng, id: Id, n: nat, st: Status, k: nat) {
    && Inv(c, e) && e.queue == [id] && e.running && id in e.xfer && e.xfer[id].num == n
    && e.status == st && k <= n && k == e.hw.executed
  }

  lemma WorkStep(c: Conf, e: Eng, id: Id, n: nat, st: Status, k: nat, s: Env)
    requires AtWork(c, e, id, n, st, k) && (s.Device? || s.GoOnline?)
    ensures AtWork(c, EnvStep(c, e, s), id, n, st, if s.Device? && k < n then k + 1 else k)
  {
    hide Loaded, OnHead, Step, Executes;
    if s.Device? { HwStepKeeps(c, e); }
  }

  lemma {:induction false} EnvRunSnoc(c: Conf, e: Eng, steps: seq<Env>, k: nat)
    requires Inv(c, e) && AllWellFormed(steps) && k < |steps|
    ensures EnvRun(c, e, steps[..k + 1]) == EnvStep(c, EnvRun(c, e, steps[..k]), steps[k])
    decreases |steps|
  {
    hide Inv, EnvStep;
    if k == 0 {
      assert steps[..1][1..] == [];
    } else {
      EnvRunSnoc(c, EnvStep(c, e, steps[0]), steps[1..], k - 1);
      assert steps[..k + 1][1..] == steps[1..][..k];
      assert steps[..k][1..] == steps[1..][..k - 1];
    }
  }

  lemma {:induction false} EnvRunConcat(c: Conf, e: Eng, a: seq<Env>, b: seq<Env>)
    requires Inv(c, e) && AllWellFormed(a) && AllWellFormed(b)
    ensures AllWellFormed(a + b) && EnvRun(c, e, a + b) == EnvRun(c, EnvRun(c, e, a), b)
    decreases |a|
  {
    hide Inv, EnvStep;
    if a == [] {
      assert a + b == b;
    } else {
      EnvRunConcat(c, EnvStep(c, e, a[0]), a[1..], b);
      assert (a + b)[1..] == a[1..] + b;
    }
  }

  lemma {:induction false} WorkRun(c: Conf, e: Eng, id: Id, n: nat, st: Status, steps: seq<Env>)
    requires AtWork(c, e, id, n, st, 0) && Working(steps) && AllWellFormed(steps)
    ensures AtWork(c, EnvRun(c, e, steps), id, n, st, Min(n, DeviceSteps(steps)))
    decreases |steps|
  {
    hide Inv, EnvStep;
    if steps != [] {
      var k := |steps| - 1;
      WorkRun(c, e, id, n, st, steps[..k]);
      EnvRunSnoc(c, e, steps, k);
      assert steps[..k + 1] == steps;
      WorkStep(c, EnvRun(c, e, steps[..k]), id, n, st, Min(n, DeviceSteps(steps[..k])), steps[k]);
    }
  }

  /** What a service call is told once the device has executed m descriptors: the count (0 if it is not
      called, or sees none), and the error bit it goes by if the status was st when the engine started. */
  function CountSeen(s: Env, m: nat): nat {
    match s
    case Irq(_, _) => m
    case Poll(lag, err, _, _) => if lag < m then m - lag else if err then m else 0
    case _ => 0
  }

  function BitSeen(s: Env, st: Status, m: nat): bool {
    match s
    case Irq(now, _) => now.err
    case Poll(lag, err, now, _) => if err || m <= lag then now.err else st.err
    case _ => false
  }

  /** The counts fit their fields: 32 bits in the register, 24 in a write-back. */
  predicate CountFits(s: Env, m: nat) {
    if s.Poll? then m < 0x100_0000 else m < 0x1_0000_0000
  }

  /** The first report of a transfer: it is taken off as COMPLETED exactly if the report shows all of its
      descriptors and no error bit, otherwise as FAILED. */
  lemma SettleStep(c: Conf, e: Eng, id: Id, n: nat, st: Status, m: nat, s: Env)
    requires AtWork(c, e, id, n, st, m) && WellFormed(s) && (s.Irq? || s.Poll?) && CountFits(s, m) && 0 < CountSeen(s, m)
    ensures var e1 := EnvStep(c, e, s);
            && Idle(c, e1) && id in e1.xfer
            && e1.xfer[id].state == if CountSeen(s, m) == n && !BitSeen(s, st, m) then Completed else Failed
  {
    hide Inv, EngineModel.Service, Loaded;
    LoadedFits(c, e, id);
    RunningFacts(c, e);
    var r := ReportOf(e, s);
    HeadVerdict(c, e, r);
    ServiceTakesOne(c, e, r, id);
    ServiceKeeps(c, e, r);
  }

  /** Queueing on an idle engine starts the device on the transfer. */
  lemma WorkStarts(c: Conf, e: Eng, id: Id, offline: bool, st: Status)
    requires Idle(c, e) && id in e.xfer && e.xfer[id].num != 0 && Loaded(c, e.ring, e.xfer[id])
    requires !offline && !e.request
    ensures var e1 := Queue(e, id, offline, st).0;
            AtWork(c, e1, id, e.xfer[id].num, st, 0)
  {
    hide Loaded, OnHead;
    QueueKeeps(c, e, id, offline, st);
  }

  /** The schedule queues the transfer and leaves it to the device until step k, the first report; the
      device has then executed m of its n descriptors. */
  ghost predicate Reports(turn: Turn, k: nat, n: nat, m: nat) {
    && k < |turn.during| && Working(turn.during[..k]) && m == Min(n, DeviceSteps(turn.during[..k])) && !turn.offline
    && (turn.during[k].Irq? || turn.during[k].Poll?) && CountFits(turn.during[k], m) && 0 < CountSeen(turn.during[k], m)
  }

  /** The first report decides what the waiter finds, whatever happens afterwards. */
  lemma ReportedWait(c: Conf, e: Eng, id: Id, turn: Turn, k: nat, m: nat)
    requires Idle(c, e) && id in e.xfer && e.xfer[id].num != 0 && Loaded(c, e.ring, e.xfer[id]) && turn.Valid()
    requires Accepts(e, turn) && Reports(turn, k, e.xfer[id].num, m)
    ensures Waited(c, e, id, turn).xfer[id].state ==
              if CountSeen(turn.during[k], m) == e.xfer[id].num && !BitSeen(turn.during[k], turn.st, m) then Completed else Failed
  {
    hide Inv, Loaded, Queue, EnvStep, CountSeen, BitSeen, CountFits, DeviceSteps;
    var n := e.xfer[id].num;
    WorkStarts(c, e, id, turn.offline, turn.st);
    var e0 := Queue(e, id, turn.offline, turn.st).0;
    var a, b := turn.during[..k + 1], turn.during[k + 1..];
    assert turn.during == a + b;
    WorkRun(c, e0, id, n, turn.st, turn.during[..k]);
    var e1 := EnvRun(c, e0, turn.during[..k]);
    SettleStep(c, e1, id, n, turn.st, m, turn.during[k]);
    EnvRunSnoc(c, e0, turn.during, k);
    EnvRunConcat(c, e0, a, b);
    IdleRun(c, EnvRun(c, e0, a), b);
  }

  /** What the caller is told is decided by the first report: success exactly if it shows all descriptors
      and no error bit, otherwise an I/O error. */
  lemma FirstReportDecides(c: Conf, e: Eng, id: Id, pieces: seq<Seg>, ep: nat, turn: Turn, k: nat, m: nat)
    requires Idle(c, e) && pieces != [] && e.index + |pieces| <= |e.ring| && turn.Valid()
    requires !RequestAfter(e.request, turn.before) && Reports(turn, k, |pieces|, m)
    ensures Round(c, e, id, pieces, ep, turn).1 ==
              if CountSeen(turn.during[k], m) == |pieces| && !BitSeen(turn.during[k], turn.st, m) then Ok else IoError
  {
    BusyIff(c, e, id, pieces, ep, turn);
    RoundVerdict(c, e, id, pieces, ep, turn);
    hide Idle, Loaded, Waited, Working, CountSeen, BitSeen, CountFits, DeviceSteps;
    ReportedWait(c, Offered(c, e, id, pieces, ep, turn), id, turn, k, m);
  }

  /** A round whose schedule does not put the engine under a shutdown request, lets the device work
      and reports it, succeeds. */
  lemma ServedRound(c: Conf, e: Eng, id: Id, pieces: seq<Seg>, ep: nat, turn: Turn, k: nat)
    requires Idle(c, e) && pieces != [] && e.index + |pieces| <= |e.ring| && turn.Valid()
    requires !RequestAfter(e.request, turn.before) && Serves(turn, k, |pieces|)
    ensures Round(c, e, id, pieces, ep, turn).1 == Ok
  {
    hide Idle, Loaded, Waited, Working, DeviceSteps, Round;
    FirstReportDecides(c, e, id, pieces, ep, turn, k, |pieces|);
  }

  /** A transfer whose last descriptor is reported with an error bit in the status register ends the round
      with an I/O error, whether an interrupt or a write-back with its error flag set reports it. */
  lemma ErrorEndsRound(c: Conf, e: Eng, id: Id, pieces: seq<Seg>, ep: nat, turn: Turn, k: nat)
    requires Idle(c, e) && pieces != [] && e.index + |pieces| <= |e.ring| && turn.Valid()
    requires !RequestAfter(e.request, turn.before) && !turn.offline && |pieces| < 0x100_0000
    requires k < |turn.during| && Working(turn.during[..k]) && |pieces| <= DeviceSteps(turn.during[..k])
    requires var s := turn.during[k]; (s.Irq? || (s.Poll? && s.err)) && s.st.err
    ensures Round(c, e, id, pieces, ep, turn).1 == IoError
  {
    hide Idle, Loaded, Waited, Working, DeviceSteps, Round;
    FirstReportDecides(c, e, id, pieces, ep, turn, k, |pieces|);
  }

  // --- staying online ----------------------------------------------------------------------------------

  predicate NoOffline(steps: seq<Env>) { forall i | 0 <= i < |steps| :: !steps[i].GoOffline? }

  lemma {:induction false} ServeListRequest(e: Eng, cnt: int)
    requires e.Known()
    ensures ServeList(e, cnt).0.request == e.request && ServeList(e, cnt).0.Known()
    decreases |e.queue|
  {
    hide ServeList;
    if e.queue == [] || cnt <= e.Head().num {
      ServeListEnds(e, cnt);
    } else {
      ServeListGoesOn(e, cnt);
      ServeListRequest(Pop(e, Served(e)).(dequeued := e.dequeued + e.Head().num), cnt - e.Head().num);
    }
  }

  lemma ServiceRequest(e: Eng, r: Report)
    requires e.Known() && !e.request
    ensures !EngineModel.Service(e, r).request
  {
    hide ServeList, Sub32;
    if e.running && r.Count() != 0 {
      var e1 := Quiesce(e, r);
      ServeListRequest(e1, Sub32(r.Count(), e1.dequeued));
    }
  }

  lemma StepRequest(c: Conf, e: Eng, s: Env)
    requires Inv(c, e) && WellFormed(s) && !s.GoOffline? && !e.request
    ensures !EnvStep(c, e, s).request
  {
    hide Loaded, OnHead, EngineModel.Service, ReportOf, Step, Executes;
    if (s.Irq? || s.Poll?) && !Silent(e, s) { ServiceRequest(e, ReportOf(e, s)); }
    if s.Misreport? { ServiceRequest(e, s.report); }
  }

  lemma {:induction false} StaysOnline(c: Conf, e: Eng, steps: seq<Env>)
    requires Inv(c, e) && AllWellFormed(steps) && NoOffline(steps) && !e.request
    ensures !EnvRun(c, e, steps).request
    decreases |steps|
  {
    hide Inv, EnvStep;
    if steps != [] {
      StepRequest(c, e, steps[0]);
      StaysOnline(c, EnvStep(c, e, steps[0]), steps[1..]);
    }
  }

  lemma QueueRequest(c: Conf, e: Eng, id: Id, turn: Turn)
    requires Idle(c, e) && id in e.xfer && Loaded(c, e.ring, e.xfer[id]) && !e.request
    ensures !Queue(e, id, turn.offline, turn.st).0.request
  {
    hide Loaded, OnHead;
  }

  /** A round on an engine that is online, during which nobody takes it offline, leaves it online. */
  lemma RoundStaysOnline(c: Conf, e: Eng, id: Id, pieces: seq<Seg>, ep: nat, turn: Turn)
    requires Idle(c, e) && pieces != [] && e.index + |pieces| <= |e.ring| && turn.Valid()
    requires !e.request && NoOffline(turn.before) && NoOffline(turn.during)
    requires Round(c, e, id, pieces, ep, turn).1 == Ok
    ensures !Round(c, e, id, pieces, ep, turn).0.request
  {
    BuiltFacts(c, e, id, pieces, ep);
    StaysOnline(c, Build(c, e, id, pieces, ep), turn.before);
    var offered := Offered(c, e, id, pieces, ep, turn);
    hide Loaded, OnHead, EnvRun, NoOffline;
    if Accepts(offered, turn) {
      NumOfLoaded(c, offered, id);
      WaitStates(c, offered, id, turn);
      QueueRequest(c, offered, id, turn);
      hide Queue;
      StaysOnline(c, Queue(offered, id, turn.offline, turn.st).0, turn.during);
    }
    hide Idle, Inv;
  }

  lemma {:induction false} NoOfflineRequest(request: bool, steps: seq<Env>)
    requires !request && NoOffline(steps)
    ensures !RequestAfter(request, steps)
    decreases |steps|
  {
    if steps != [] { NoOfflineRequest(false, steps[1..]); }
  }
}
