/** The scatter-gather engine as a state machine. Every step is one section of the driver that
    runs under the engine lock, or one descriptor executed by the device. */
module EngineModel {
  import opened Descriptor
  import opened Fetch
  import opened Scatter
  import opened Compile

  /** The address of a struct xdma_transfer. */
  type Id = nat

  datatype XferState = New | Submitted | Completed | Failed | Aborted

  /** struct xdma_transfer. `job` is the copy the transfer stands for; only specifications use it. */
  datatype Xfer = Xfer(index: nat, bus: nat, adjacent: nat, num: nat, len: nat,
                       state: XferState, cmpl: nat, job: seq<Move>)

  /** The status bits the driver looks at: BUSY, and any error bit of the engine's direction. */
  datatype Status = Status(busy: bool, err: bool)

  /** The device: RUN bit, programmed first descriptor, fetch position, descriptors executed in
      this run, bytes moved so far; `mark` is how many of those had moved when the run began. */
  datatype Hw = Hw(run: bool, first: State, at: State, executed: nat, log: seq<Move>, mark: nat)

  /** Bus address of the ring, direction and address mode of the engine. */
  datatype Conf = Conf(base: nat, mode: Mode)

  /** struct xdma_engine and the device; `submitted` and `removed` are the history of its queue. */
  datatype Eng = Eng(ring: seq<Desc>, index: nat, used: int,
                     running: bool, request: bool, idle: bool, status: Status,
                     queue: seq<Id>, xfer: map<Id, Xfer>, dequeued: int,
                     hw: Hw, submitted: seq<Id>, removed: seq<Id>)
  {
    ghost predicate Known() {
      (forall i | 0 <= i < |queue| :: queue[i] in xfer)
    }
    function Head(): Xfer
      requires queue != [] && Known()
    {
      xfer[queue[0]]
    }
  }

  // --- the locked sections -----------------------------------------------------------

  /** engine_start */
  function Start(e: Eng, st: Status): Eng
    requires e.queue != [] && e.Known()
  {
    var first := At(e.Head().bus, GetNextAdj(e.Head().adjacent, Lo(e.Head().bus)));
    e.(request := false, idle := false, dequeued := 0, running := true, status := st,
       hw := Hw(true, first, first, 0, e.hw.log, |e.hw.log|))
  }

  /** xdma_engine_stop: clears RUN. */
  function Stop(e: Eng): Eng {
    e.(running := false, hw := e.hw.(run := false))
  }

  /** The locked part of transfer_queue; `offline` is what the earlier flag check saw. */
  function Queue(e: Eng, id: Id, offline: bool, st: Status): (r: (Eng, bool))
    requires e.Known() && id in e.xfer
  {
    if e.xfer[id].num == 0 || offline || e.request then (e, false)
    else
      var e1 := e.(xfer := e.xfer[id := e.xfer[id].(state := Submitted)],
                   queue := e.queue + [id], submitted := e.submitted + [id]);
      (if e.running then e1 else Start(e1, st), true)
  }

  /** Removes the head of the queue, leaving its structure as `x`. */
  function Pop(e: Eng, x: Xfer): Eng
    requires e.queue != []
  {
    e.(xfer := e.xfer[e.queue[0] := x], queue := e.queue[1..], removed := e.removed + [e.queue[0]])
  }

  /** engine_service_transfer_list: completes every transfer but the last the count reaches. */
  function ServeList(e: Eng, cnt: int): (Eng, int)
    requires e.Known()
    decreases |e.queue|
  {
    if e.queue == [] || cnt <= e.Head().num then (e, cnt)
    else
      ServeList(Pop(e, e.Head().(state := Completed)).(dequeued := e.dequeued + e.Head().num),
                cnt - e.Head().num)
  }

  /** engine_service_final_transfer without eop_flush. */
  function Final(e: Eng, cnt: int): Eng
    requires e.Known()
  {
    if e.queue == [] then e
    else if e.status.err then Pop(Stop(e), e.Head().(state := Failed))
    else if cnt < e.Head().num then
      Pop(e.(dequeued := e.dequeued + e.Head().num), e.Head().(state := Failed, cmpl := if cnt < 0 then 0 else cnt))
    else
      Pop(e.(dequeued := e.dequeued + e.Head().num), e.Head().(state := Completed, cmpl := e.Head().num))
  }

  /** engine_service_resume */
  function Resume(e: Eng, st: Status): Eng
    requires e.Known()
  {
    if !e.running then
      if e.queue != [] then Start(e, st)
      else if e.request then e.(idle := true)
      else e
    else if e.queue == [] then Stop(e)
    else e
  }

  /** 32-bit subtraction. */
  function Sub32(a: nat, b: int): nat { (a - b) % 0x1_0000_0000 }

  /** What a service call was given and what it reads: the written-back count and error flag
      (0, false from the interrupt path), status register, completed-count register, and the
      status register again if it restarts the engine. */
  datatype Report = Report(count: nat, err: bool, st: Status, reg: nat, again: Status)
  {
    predicate Valid() { count < 0x100_0000 && reg < 0x1_0000_0000 }
    function Count(): nat { if count == 0 then reg else count }
  }

  /** engine_service up to the point where it has a non-zero count. */
  function Quiesce(e: Eng, r: Report): Eng {
    var e1 := if r.count == 0 || r.err then e.(status := r.st) else e;
    if !e1.status.busy || r.count != 0 then Stop(e1) else e1
  }

  function Service(e: Eng, r: Report): Eng
    requires e.Known()
  {
    if !e.running then e.(status := r.st)
    else
      var e1 := Quiesce(e, r);
      if r.Count() == 0 then e1
      else
        hide ServeList, Final, Sub32;
        ServeListKnown(e1, Sub32(r.Count(), e1.dequeued));
        var (e2, cnt) := ServeList(e1, Sub32(r.Count(), e1.dequeued));
        FinalKnown(e2, cnt);
        Resume(Final(e2, cnt), r.again)
  }

  /** One turn of the loop, and its end. */
  lemma ServeListGoesOn(e: Eng, cnt: int)
    requires e.Known() && e.queue != [] && cnt > e.Head().num
    ensures var e1 := Pop(e, e.Head().(state := Completed)).(dequeued := e.dequeued + e.Head().num);
            e1.Known() && |e1.queue| == |e.queue| - 1 && ServeList(e, cnt) == ServeList(e1, cnt - e.Head().num)
  {
  }

  lemma ServeListEnds(e: Eng, cnt: int)
    requires e.Known() && (e.queue == [] || cnt <= e.Head().num)
    ensures ServeList(e, cnt) == (e, cnt)
  {
  }

  lemma {:induction false} ServeListKnown(e: Eng, cnt: int)
    requires e.Known()
    ensures ServeList(e, cnt).0.Known()
    decreases |e.queue|
  {
    hide ServeList;
    if e.queue == [] || cnt <= e.Head().num {
      ServeListEnds(e, cnt);
    } else {
      ServeListGoesOn(e, cnt);
      ServeListKnown(Pop(e, e.Head().(state := Completed)).(dequeued := e.dequeued + e.Head().num),
                     cnt - e.Head().num);
    }
  }

  lemma FinalKnown(e: Eng, cnt: int)
    requires e.Known()
    ensures Final(e, cnt).Known()
  {
  }

  /** transfer_abort */
  function Abort(e: Eng, id: Id): Eng
    requires e.Known() && id in e.xfer
  {
    if e.xfer[id].num == 0 then e
    else
      var e1 := if e.queue != [] && e.queue[0] == id then Pop(e, e.xfer[id]) else e;
      if e.xfer[id].state == Submitted then e1.(xfer := e1.xfer[id := e1.xfer[id].(state := Aborted)]) else e1
  }

  /** The timeout branch of a waiter: read status, abort, stop. */
  function Timeout(e: Eng, id: Id, st: Status): Eng
    requires e.Known() && id in e.xfer
  {
    var e1 := e.(status := st);
    if e.xfer[id].num == 0 then e1 else Stop(Abort(e1, id))
  }

  function Offline(e: Eng): Eng { Stop(e.(request := true)) }
  function Online(e: Eng): Eng { e.(request := false) }

  /** transfer_init: builds a slice at the cursor and describes it in the transfer structure. */
  function Build(c: Conf, e: Eng, id: Id, pieces: seq<Seg>, ep: nat): Eng
    requires 0 < |e.ring|
  {
    var x := Xfer(e.index, c.base + 32 * e.index, |pieces|, |pieces|, TotalLen(pieces), New, 0,
                  LinearCopy(Flatten(pieces), ep, c.mode));
    e.(ring := Place(e.ring, c.base, e.index, pieces, ep, c.mode),
       xfer := e.xfer[id := x],
       index := (e.index + |pieces|) % |e.ring|,
       used := e.used + |pieces|)
  }

  /** The device executes one descriptor, if it is running. */
  function HwStep(c: Conf, e: Eng): Eng {
    var r := Ring(e.ring, c.base);
    if !e.hw.run then e
    else
      var at := Step(r, e.hw.at);
      if Executes(r, e.hw.at) then
        e.(hw := e.hw.(at := at, executed := e.hw.executed + 1,
                       log := e.hw.log + DescMoves(e.ring[r.SlotOf(e.hw.at.addr)], c.mode)))
      else e.(hw := e.hw.(at := at))
  }

  // --- runs ---------------------------------------------------------------------------

  datatype Event =
    | EvBuild(id: Id, pieces: seq<Seg>, ep: nat)
    | EvQueue(id: Id, offline: bool, st: Status)
    | EvService(report: Report)
    | EvTimeout(id: Id, st: Status)
    | EvOffline
    | EvOnline
    | EvHw

  ghost predicate Disjoint(e: Eng, p: nat, n: nat) {
    forall i | 0 <= i < |e.queue| :: e.queue[i] in e.xfer ==>
      p + n <= e.xfer[e.queue[i]].index || e.xfer[e.queue[i]].index + e.xfer[e.queue[i]].num <= p
  }

  /** A transfer whose slice is in the ring as it was built. */
  ghost predicate Loaded(c: Conf, ring: seq<Desc>, x: Xfer) {
    && 0 < x.num && x.index + x.num <= |ring|
    && x.bus == c.base + 32 * x.index && x.adjacent == x.num
    && Chained(Ring(ring, c.base), x.index, x.num)
    && ChainMoves(ring, x.index, x.num, c.mode) == x.job
  }

  /** What the driver's callers and the device guarantee: a transfer is built into free slots and
      queued once, an interrupt comes with BUSY clear, and a waiter only aborts the queue head. */
  ghost predicate Legal(c: Conf, e: Eng, ev: Event) {
    match ev
    case EvBuild(id, pieces, _) =>
      && id !in e.queue && pieces != [] && e.index + |pieces| <= |e.ring|
      && Disjoint(e, e.index, |pieces|)
    case EvQueue(id, _, _) => id in e.xfer && id !in e.queue && (e.xfer[id].num == 0 || Loaded(c, e.ring, e.xfer[id]))
    case EvService(r) => r.Valid() && (r.count == 0 ==> !r.st.busy)
    case EvTimeout(id, _) => id in e.xfer && (id in e.queue ==> e.queue[0] == id)
    case _ => true
  }

  ghost function Apply(c: Conf, e: Eng, ev: Event): Eng
    requires e.Known() && Legal(c, e, ev)
  {
    match ev
    case EvBuild(id, pieces, ep) => Build(c, e, id, pieces, ep)
    case EvQueue(id, offline, st) => Queue(e, id, offline, st).0
    case EvService(r) => Service(e, r)
    case EvTimeout(id, st) => Timeout(e, id, st)
    case EvOffline => Offline(e)
    case EvOnline => Online(e)
    case EvHw => HwStep(c, e)
  }

  // --- the invariant -------------------------------------------------------------------

  ghost predicate Distinct(q: seq<Id>) {
    forall i, j | 0 <= i < j < |q| :: q[i] != q[j]
  }

  /** Where the device is in the head transfer. */
  ghost predicate OnHead(c: Conf, e: Eng)
    requires e.queue != [] && e.Known()
  {
    var x := e.Head();
    && Loaded(c, e.ring, x)
    && e.hw.first == Programmed(x.bus, x.num)
    && e.hw.executed <= x.num && e.hw.mark <= |e.hw.log|
    && e.hw.at == (if e.hw.executed == x.num then Done
                   else At(x.bus + 32 * e.hw.executed, Left(Ring(e.ring, c.base), x.index, x.num, e.hw.executed)))
    && e.hw.log == e.hw.log[..e.hw.mark] + ChainMoves(e.ring, x.index, e.hw.executed, c.mode)
  }

  /** Holds at every release of the engine lock. */
  ghost predicate Inv(c: Conf, e: Eng) {
    && c.base % 32 == 0 && e.index < |e.ring|
    && e.Known() && Distinct(e.queue)
    && (forall i | 0 <= i < |e.queue| :: Loaded(c, e.ring, e.xfer[e.queue[i]]))
    && (forall id | id in e.xfer :: id in e.queue <==> e.xfer[id].state == Submitted)
    && (e.running ==> e.queue != [] && e.dequeued == 0 && OnHead(c, e))
    && e.hw.run == e.running
    && (e.request ==> !e.running)
    && !e.idle
    && e.removed + e.queue == e.submitted
  }
}
