/** The invariant of the engine is kept by every step, hence over every run. */
module EngineInvariant {
  import opened Descriptor
  import opened Fetch
  import opened Scatter
  import opened Compile
  import opened EngineModel

  /** The part of the invariant that does not speak of the running device. */
  ghost predicate Base(c: Conf, e: Eng) {
    && c.base % 32 == 0 && e.index < |e.ring|
    && e.Known() && Distinct(e.queue)
    && (forall i | 0 <= i < |e.queue| :: Loaded(c, e.ring, e.xfer[e.queue[i]]))
    && (forall id | id in e.xfer :: id in e.queue <==> e.xfer[id].state == Submitted)
    && !e.idle
    && e.removed + e.queue == e.submitted
  }

  // --- the ring ------------------------------------------------------------------------

  ghost predicate SameSlots(a: seq<Desc>, b: seq<Desc>, p: nat, n: nat) {
    |a| == |b| && p + n <= |a| && forall j | p <= j < p + n :: a[j] == b[j]
  }

  lemma {:induction false} ChainMovesFrame(a: seq<Desc>, b: seq<Desc>, p: nat, k: nat, m: Mode)
    requires SameSlots(a, b, p, k)
    ensures ChainMoves(a, p, k, m) == ChainMoves(b, p, k, m)
  {
    hide DescMoves;
    if k > 0 { ChainMovesFrame(a, b, p, k - 1, m); }
  }

  lemma LoadedFrame(c: Conf, a: seq<Desc>, b: seq<Desc>, x: Xfer)
    requires Loaded(c, a, x) && SameSlots(a, b, x.index, x.num)
    ensures Loaded(c, b, x)
  {
    ChainMovesFrame(a, b, x.index, x.num, c.mode);
    forall i | 0 <= i < x.num ensures LinkOk(Ring(b, c.base), x.index, x.num, i) {
      hide Magic, Adjacent, Stopped, GetNextAdj, Lo, Hi, ChainMoves;
      assert LinkOk(Ring(a, c.base), x.index, x.num, i);
      assert a[x.index + i] == b[x.index + i];
    }
  }

  lemma PlaceFrame(ring: seq<Desc>, c: Conf, p: nat, pieces: seq<Seg>, ep: nat, q: nat, n: nat)
    requires q + n <= |ring| && (p + |pieces| <= q || q + n <= p)
    ensures SameSlots(ring, Place(ring, c.base, p, pieces, ep, c.mode), q, n)
  {
    hide CompiledDesc, EpAt;
  }

  /** What transfer_init has built is loaded. */
  lemma BuiltIsLoaded(c: Conf, e: Eng, id: Id, pieces: seq<Seg>, ep: nat)
    requires c.base % 32 == 0 && pieces != [] && e.index + |pieces| <= |e.ring|
    ensures var e1 := Build(c, e, id, pieces, ep); id in e1.xfer && Loaded(c, e1.ring, e1.xfer[id])
    ensures var x := Build(c, e, id, pieces, ep).xfer[id];
            x.index == e.index && x.num == |pieces| && x.len == TotalLen(pieces) && x.state == New && x.cmpl == 0
  {
    hide CompiledDesc, Chained, LinearCopy, Flatten, TotalLen;
    PlaceCompiles(e.ring, c.base, e.index, pieces, ep, c.mode);
    var ring := Place(e.ring, c.base, e.index, pieces, ep, c.mode);
    CompiledIsChained(ring, c.base, e.index, pieces, ep, c.mode);
    ChainMovesLinear(ring, c.base, e.index, pieces, ep, c.mode, |pieces|);
    assert pieces[..|pieces|] == pieces;
  }

  // --- single steps ---------------------------------------------------------------------

  lemma StartKeeps(c: Conf, e: Eng, st: Status)
    requires Base(c, e) && e.queue != []
    ensures Inv(c, Start(e, st))
  {
    hide Chained, LinkOk, GetNextAdj, Lo;
    var x := e.Head();
    assert Loaded(c, e.ring, e.xfer[e.queue[0]]);
    AdjIsLeft(Ring(e.ring, c.base), x.index, x.num, 0);
    assert e.hw.log[..|e.hw.log|] == e.hw.log;
  }

  lemma StopKeeps(c: Conf, e: Eng)
    requires Base(c, e)
    ensures Inv(c, Stop(e))
  {
    hide Loaded;
  }

  lemma PopKeeps(c: Conf, e: Eng, x: Xfer)
    requires Base(c, e) && e.queue != [] && x.state != Submitted
    ensures Base(c, Pop(e, x))
  {
    hide Loaded;
    var e1 := Pop(e, x);
    assert e.queue == [e.queue[0]] + e1.queue;
    assert e1.removed + e1.queue == e.removed + e.queue;
  }

  /** Fields that the completion loop and the final transfer leave alone. */
  ghost predicate SameDevice(e: Eng, e1: Eng) {
    && e1.running == e.running && e1.request == e.request && e1.idle == e.idle
    && e1.status == e.status && e1.hw == e.hw && e1.ring == e.ring
    && e1.index == e.index && e1.used == e.used && e1.xfer.Keys == e.xfer.Keys
  }

  function Served(e: Eng): Xfer
    requires e.queue != [] && e.Known()
  {
    e.Head().(state := Completed)
  }

  lemma {:induction false} ServeListKeeps(c: Conf, e: Eng, cnt: int)
    requires Base(c, e)
    ensures Base(c, ServeList(e, cnt).0) && SameDevice(e, ServeList(e, cnt).0)
    decreases |e.queue|
  {
    hide Base, ServeList;
    BaseKnown(c, e);
    if e.queue == [] || cnt <= e.Head().num {
      ServeListEnds(e, cnt);
    } else {
      ServeListGoesOn(e, cnt);
      PopKeeps(c, e, Served(e));
      var e1 := Pop(e, Served(e)).(dequeued := e.dequeued + e.Head().num);
      BaseDequeued(c, Pop(e, Served(e)), e.dequeued + e.Head().num);
      ServeListKeeps(c, e1, cnt - e.Head().num);
    }
  }

  lemma BaseKnown(c: Conf, e: Eng)
    requires Base(c, e)
    ensures e.Known()
    ensures e.queue != [] ==> 0 < e.Head().num
  {
    hide Chained, ChainMoves;
    if e.queue != [] { assert Loaded(c, e.ring, e.xfer[e.queue[0]]); }
  }

  /** The service counters, the status and the device do not matter to the queue. */
  lemma BaseDequeued(c: Conf, e: Eng, dequeued: int)
    requires Base(c, e)
    ensures Base(c, e.(dequeued := dequeued))
  {
    hide Loaded;
  }

  lemma FinalKeeps(c: Conf, e: Eng, cnt: int)
    requires Base(c, e) && !e.running && !e.hw.run
    ensures Base(c, Final(e, cnt)) && SameDevice(e, Final(e, cnt))
  {
    hide Base;
    BaseKnown(c, e);
    if e.queue != [] {
      var x := e.Head();
      var e1 := e.(dequeued := e.dequeued + x.num);
      BaseDequeued(c, e, e.dequeued + x.num);
      PopKeeps(c, e, x.(state := Failed));
      PopKeeps(c, e1, x.(state := Failed, cmpl := if cnt < 0 then 0 else cnt));
      PopKeeps(c, e1, x.(state := Completed, cmpl := x.num));
      assert Stop(e) == e;
    }
  }

  lemma ResumeKeeps(c: Conf, e: Eng, st: Status)
    requires Base(c, e) && !e.running && !e.hw.run && !e.request
    ensures Inv(c, Resume(e, st))
    ensures Resume(e, st).running <==> e.queue != []
  {
    if e.queue != [] { StartKeeps(c, e, st); } else { StopKeeps(c, e); assert Stop(e) == e; }
  }

  lemma InvBase(c: Conf, e: Eng)
    requires Inv(c, e)
    ensures Base(c, e)
  {
  }

  /** A running engine: the device is inside the head transfer, and nothing was dequeued since it started. */
  lemma RunningFacts(c: Conf, e: Eng)
    requires Inv(c, e) && e.running
    ensures e.Known() && Distinct(e.queue) && e.queue != [] && e.dequeued == 0 && e.hw.executed <= e.Head().num
  {
    hide Loaded, Left, ChainMoves, Programmed;
  }

  lemma BaseStatus(c: Conf, e: Eng, st: Status)
    requires Base(c, e)
    ensures Base(c, e.(status := st))
  {
    hide Loaded;
  }

  /** One call of engine_service on a running engine: whatever it is told, the invariant is kept;
      if it sees a non-zero count, the engine runs afterwards exactly when transfers are queued. */
  lemma ServiceKeeps(c: Conf, e: Eng, r: Report)
    requires Inv(c, e) && r.Valid() && (r.count == 0 ==> !r.st.busy)
    ensures Inv(c, Service(e, r))
    ensures e.running && r.Count() != 0 ==> (Service(e, r).running <==> Service(e, r).queue != [])
  {
    hide Base, Sub32, Loaded, OnHead, ServeList, Final, Distinct;
    InvBase(c, e);
    if !e.running {
      StatusKeeps(c, e, r.st);
    } else {
      var e0 := if r.count == 0 || r.err then e.(status := r.st) else e;
      BaseStatus(c, e, r.st);
      var e1 := Quiesce(e, r);
      StopKeeps(c, e0);
      InvBase(c, Stop(e0));
      if r.Count() != 0 {
        var cnt := Sub32(r.Count(), e1.dequeued);
        ServeListKeeps(c, e1, cnt);
        var (e2, left) := ServeList(e1, cnt);
        BaseKnown(c, e2);
        FinalKeeps(c, e2, left);
        ResumeKeeps(c, Final(e2, left), r.again);
      }
    }
  }

  lemma StatusKeeps(c: Conf, e: Eng, st: Status)
    requires Inv(c, e)
    ensures Inv(c, e.(status := st))
  {
    hide Loaded, Left, ChainMoves, Programmed;
  }

  lemma HwStepKeeps(c: Conf, e: Eng)
    requires Inv(c, e)
    ensures Inv(c, HwStep(c, e))
    ensures e.hw.run ==>
      HwStep(c, e).hw.executed == if e.hw.executed < e.Head().num then e.hw.executed + 1 else e.hw.executed
    ensures HwStep(c, e) == e.(hw := HwStep(c, e).hw)
  {
    hide OnHead, Loaded, Step, Executes;
    if e.hw.run { OnHeadStep(c, e); }
  }

  /** Where the device is after k descriptors of the head. */
  function PlaceAt(c: Conf, e: Eng, x: Xfer, k: nat): State {
    if k >= x.num then Done else At(x.bus + 32 * k, Left(Ring(e.ring, c.base), x.index, x.num, k))
  }

  /** A step of the device on the head transfer: the next descriptor, or none if all are executed. */
  lemma HwStepIs(c: Conf, e: Eng)
    requires e.hw.run && e.queue != [] && e.Known() && OnHead(c, e) && c.base % 32 == 0
    ensures var x, k := e.Head(), e.hw.executed;
            && x.index + x.num <= |e.ring|
            && HwStep(c, e) ==
                 if k >= x.num then e
                 else e.(hw := e.hw.(at := PlaceAt(c, e, x, k + 1), executed := k + 1,
                                     log := e.hw.log + DescMoves(e.ring[x.index + k], c.mode)))
  {
    hide Step, Executes, Left, Programmed, Chained, DescMoves, ChainMoves;
    var x := e.Head();
    var r := Ring(e.ring, c.base);
    var k := e.hw.executed;
    if k < x.num {
      StepAlong(r, x.index, x.num, k);
      assert r.Addr(x.index + k) == x.bus + 32 * k && r.Addr(x.index + k + 1) == x.bus + 32 * (k + 1);
    } else {
      DoneSteps(r);
    }
  }

  lemma OnHeadStep(c: Conf, e: Eng)
    requires e.hw.run && e.queue != [] && e.Known() && OnHead(c, e) && c.base % 32 == 0
    ensures OnHead(c, HwStep(c, e)) && HwStep(c, e).hw.run
    ensures HwStep(c, e).hw.executed == if e.hw.executed < e.Head().num then e.hw.executed + 1 else e.hw.executed
  {
    hide HwStep, Left, Programmed, Chained, DescMoves;
    HwStepIs(c, e);
    var x, k := e.Head(), e.hw.executed;
    if k < x.num {
      LogGrows(e.hw.log, e.hw.mark, ChainMoves(e.ring, x.index, k, c.mode), DescMoves(e.ring[x.index + k], c.mode));
    }
  }

  lemma LogGrows(log: seq<Move>, mark: nat, moved: seq<Move>, more: seq<Move>)
    requires mark <= |log| && log == log[..mark] + moved
    ensures log + more == (log + more)[..mark] + (moved + more)
  {
  }

  lemma DoneSteps(r: Ring)
    ensures !Executes(r, Done) && Step(r, Done) == Done
  {
  }

  lemma OnHeadFrame(c: Conf, e: Eng, e1: Eng)
    requires e.queue != [] && e.Known() && OnHead(c, e)
    requires e1.queue != [] && e1.Known() && e1.hw == e.hw && e1.Head() == e.Head()
    requires SameSlots(e.ring, e1.ring, e.Head().index, e.Head().num)
    ensures OnHead(c, e1)
  {
    hide Chained, Left;
    var x := e.Head();
    LoadedFrame(c, e.ring, e1.ring, x);
    ChainMovesFrame(e.ring, e1.ring, x.index, e.hw.executed, c.mode);
    LeftFrame(e.ring, e1.ring, c, x, e.hw.executed);
  }

  /** The place in a block depends on addresses alone. */
  lemma LeftFrame(a: seq<Desc>, b: seq<Desc>, c: Conf, x: Xfer, k: nat)
    ensures k < x.num ==> Left(Ring(a, c.base), x.index, x.num, k) == Left(Ring(b, c.base), x.index, x.num, k)
  {
    hide BlockIndex;
  }

  lemma BuildKeeps(c: Conf, e: Eng, id: Id, pieces: seq<Seg>, ep: nat)
    requires Inv(c, e) && Legal(c, e, EvBuild(id, pieces, ep))
    ensures Inv(c, Build(c, e, id, pieces, ep))
  {
    hide Loaded, OnHead, Place, LinearCopy, Flatten;
    var e1 := Build(c, e, id, pieces, ep);
    forall i | 0 <= i < |e.queue| ensures Loaded(c, e1.ring, e1.xfer[e1.queue[i]]) {
      QueuedFrame(c, e, id, pieces, ep, i);
      LoadedFrame(c, e.ring, e1.ring, e.xfer[e.queue[i]]);
    }
    if e.running {
      QueuedFrame(c, e, id, pieces, ep, 0);
      OnHeadFrame(c, e, e1);
    }
  }

  lemma QueuedFrame(c: Conf, e: Eng, id: Id, pieces: seq<Seg>, ep: nat, i: nat)
    requires Inv(c, e) && Legal(c, e, EvBuild(id, pieces, ep)) && i < |e.queue|
    ensures var e1 := Build(c, e, id, pieces, ep);
            && e1.xfer[e1.queue[i]] == e.xfer[e.queue[i]]
            && SameSlots(e.ring, e1.ring, e.xfer[e.queue[i]].index, e.xfer[e.queue[i]].num)
  {
    hide Place, Chained, ChainMoves, OnHead, LinearCopy, Flatten;
    var x := e.xfer[e.queue[i]];
    assert Loaded(c, e.ring, x);
    PlaceFrame(e.ring, c, e.index, pieces, ep, x.index, x.num);
  }

  lemma QueueKeeps(c: Conf, e: Eng, id: Id, offline: bool, st: Status)
    requires Inv(c, e) && Legal(c, e, EvQueue(id, offline, st))
    ensures Inv(c, Queue(e, id, offline, st).0)
    ensures var (e1, ok) := Queue(e, id, offline, st);
            if ok then e1.running && id in e1.queue else e1 == e
  {
    hide Chained, ChainMoves, Left, Programmed;
    var (e1, ok) := Queue(e, id, offline, st);
    if ok {
      var e2 := e.(xfer := e.xfer[id := e.xfer[id].(state := Submitted)],
                   queue := e.queue + [id], submitted := e.submitted + [id]);
      assert e2.removed + e2.queue == e.removed + e.queue + [id];
      forall i | 0 <= i < |e2.queue| ensures Loaded(c, e2.ring, e2.xfer[e2.queue[i]]) {
        if i < |e.queue| { assert Loaded(c, e.ring, e.xfer[e.queue[i]]); }
      }
      assert e2.queue[|e.queue|] == id;
      assert Base(c, e2);
      if e.running {
        assert OnHead(c, e2);
      } else {
        StartKeeps(c, e2, st);
      }
    }
  }

  lemma TimeoutKeeps(c: Conf, e: Eng, id: Id, st: Status)
    requires Inv(c, e) && Legal(c, e, EvTimeout(id, st))
    ensures Inv(c, Timeout(e, id, st))
  {
    hide Loaded, OnHead;
    InvBase(c, e);
    BaseStatus(c, e, st);
    StatusKeeps(c, e, st);
    if e.xfer[id].num != 0 {
      var e1 := e.(status := st);
      if e1.queue != [] && e1.queue[0] == id {
        PopKeeps(c, e1, e.xfer[id].(state := Aborted));
        assert Abort(e1, id) == Pop(e1, e.xfer[id].(state := Aborted));
      } else {
        assert id !in e.queue;
        assert Abort(e1, id) == e1;
      }
      StopKeeps(c, Abort(e1, id));
    }
  }

  lemma StepKeeps(c: Conf, e: Eng, ev: Event)
    requires Inv(c, e) && Legal(c, e, ev)
    ensures Inv(c, Apply(c, e, ev))
  {
    hide Build, Queue, Service, Timeout, HwStep, Loaded, OnHead;
    match ev
    case EvBuild(id, pieces, ep) => BuildKeeps(c, e, id, pieces, ep);
    case EvQueue(id, offline, st) => QueueKeeps(c, e, id, offline, st);
    case EvService(r) => ServiceKeeps(c, e, r);
    case EvTimeout(id, st) => TimeoutKeeps(c, e, id, st);
    case EvOffline => InvBase(c, e); OfflineKeeps(c, e);
    case EvOnline =>
    case EvHw => HwStepKeeps(c, e);
  }

  lemma OfflineKeeps(c: Conf, e: Eng)
    requires Inv(c, e)
    ensures Inv(c, Offline(e))
  {
    hide Loaded, OnHead;
    InvBase(c, e);
  }
}
