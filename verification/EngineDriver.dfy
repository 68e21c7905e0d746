/** The driver's engine: the fields of struct xdma_engine, updated in place. Every locked section
    is proved against the corresponding step of EngineModel. */
module EngineDriver {
  import opened Arith
  import opened Descriptor
  import opened Fetch
  import opened Scatter
  import opened Compile
  import opened EngineModel

  /** struct xdma_request_cb: software descriptors, and how far they have been laid out. */
  class Request {
    const sdesc: seq<Seg>
    var swDescIdx: nat
    var epAddr: nat

    constructor (sdesc: seq<Seg>, epAddr: nat)
      ensures this.sdesc == sdesc && swDescIdx == 0 && this.epAddr == epAddr
    {
      this.sdesc := sdesc;
      this.swDescIdx := 0;
      this.epAddr := epAddr;
    }
  }

  // --- the passes over one descriptor -----------------------------------------------------

  function Linked(d: Desc, base: nat, p: nat, n: nat, i: nat): Desc
    requires i < n
  {
    var next := if i == n - 1 then 0 else base + 32 * (p + i + 1);
    d.(nextLo := Lo(next), nextHi := Hi(next), bytes := 0, control := DESC_MAGIC)
  }

  /** xdma_desc_set */
  function Filled(d: Desc, sw: Seg, ep: nat, dir: Dir): Desc {
    if dir == ToDevice then
      d.(bytes := sw.len, srcLo := Lo(sw.addr), srcHi := Hi(sw.addr), dstLo := Lo(ep), dstHi := Hi(ep))
    else
      d.(bytes := sw.len, srcLo := Lo(ep), srcHi := Hi(ep), dstLo := Lo(sw.addr), dstHi := Hi(sw.addr))
  }

  /** xdma_desc_set on one slot. */
  method DescSet(desc: array<Desc>, slot: nat, seg: Seg, ep: nat, dir: Dir)
    requires slot < desc.Length
    modifies desc
    ensures desc[..] == old(desc[..])[slot := Filled(old(desc[..])[slot], seg, ep, dir)]
  {
    hide *;
    desc[slot] := Filled(desc[slot], seg, ep, dir);
  }

  function Controlled(d: Desc, n: nat, i: nat): Desc
    requires i < n
  {
    LastFits();
    var control := if i == n - 1 then ControlSet(d.control, LAST_CONTROL) else d.control;
    d.(control := SetAdjacent(control, GetNextAdj(n - i - 1, d.nextLo)))
  }

  /** Linking, filling and controlling a descriptor, in the driver's order, is the closed form. */
  lemma StagesAreCompiled(d: Desc, base: nat, p: nat, n: nat, i: nat, sw: Seg, ep: nat, dir: Dir)
    requires i < n
    ensures Controlled(Filled(Linked(d, base, p, n, i), sw, ep, dir), n, i)
         == CompiledDesc(base, p, n, i, sw, ep, dir)
  {
    hide SetAdjacent, GetNextAdj, Lo, Hi;
    NoField();
  }

  lemma NoField()
    ensures FitsByte(0) && ControlSet(DESC_MAGIC, 0) == DESC_MAGIC
  {
  }

  /** The first i pieces of a transfer are filled in from slot p on. */
  ghost predicate FilledTo(desc: seq<Desc>, before: seq<Desc>, p: nat, pieces: seq<Seg>, ep: nat, m: Mode, i: nat) {
    && |desc| == |before| && i <= |pieces| && p + |pieces| <= |desc|
    && forall j | 0 <= j < |desc| ::
         desc[j] == if p <= j < p + i then Filled(before[j], pieces[j - p], EpAt(pieces, ep, j - p, m), m.dir) else before[j]
  }

  lemma NoneFilled(before: seq<Desc>, p: nat, pieces: seq<Seg>, ep: nat, m: Mode)
    requires p + |pieces| <= |before|
    ensures FilledTo(before, before, p, pieces, ep, m, 0) && TotalLen(pieces[..0]) == 0 && EpAt(pieces, ep, 0, m) == ep
  {
  }

  lemma AllFilledIn(desc: seq<Desc>, before: seq<Desc>, p: nat, pieces: seq<Seg>, ep: nat, m: Mode)
    requires FilledTo(desc, before, p, pieces, ep, m, |pieces|)
    ensures |desc| == |before| && EpAt(pieces, ep, |pieces|, m) == m.Advance(ep, TotalLen(pieces))
    ensures forall j | 0 <= j < |desc| ::
      desc[j] == if p <= j < p + |pieces| then Filled(before[j], pieces[j - p], EpAt(pieces, ep, j - p, m), m.dir) else before[j]
  {
    hide Filled;
    assert pieces[..|pieces|] == pieces;
  }

  lemma FilledNext(desc: seq<Desc>, before: seq<Desc>, p: nat, pieces: seq<Seg>, ep: nat, m: Mode, i: nat)
    requires FilledTo(desc, before, p, pieces, ep, m, i) && i < |pieces|
    ensures p + i < |desc|
    ensures FilledTo(desc[p + i := Filled(desc[p + i], pieces[i], EpAt(pieces, ep, i, m), m.dir)], before, p, pieces, ep, m, i + 1)
  {
    hide Filled, EpAt;
  }

  lemma OneFurther(pieces: seq<Seg>, ep: nat, m: Mode, i: nat)
    requires i < |pieces|
    ensures TotalLen(pieces[..i + 1]) == TotalLen(pieces[..i]) + pieces[i].len
    ensures EpAt(pieces, ep, i + 1, m) == m.Advance(EpAt(pieces, ep, i, m), pieces[i].len)
  {
    hide TotalLen;
    assert pieces[..i + 1] == pieces[..i] + [pieces[i]];
    FlattenSnoc(pieces[..i], pieces[i]);
  }

  // --- the engine ---------------------------------------------------------------------------

  class Engine {
    const conf: Conf
    const desc: array<Desc>
    var descIdx: nat
    var descUsed: int
    var running: bool
    var shutdownRequest: bool
    var shutdownIdle: bool
    var status: Status
    var transferList: seq<Id>
    var transfers: map<Id, Xfer>
    var descDequeued: int
    var hw: Hw
    ghost var submitted: seq<Id>
    ghost var removed: seq<Id>

    ghost function View(): Eng
      reads this, desc
    {
      Eng(desc[..], descIdx, descUsed, running, shutdownRequest, shutdownIdle, status,
          transferList, transfers, descDequeued, hw, submitted, removed)
    }

    constructor (conf: Conf, descMax: nat)
      requires conf.base % 32 == 0 && 0 < descMax
      ensures this.conf == conf && fresh(desc) && desc.Length == descMax
      ensures Inv(conf, View()) && transferList == [] && descUsed == 0 && hw.log == []
    {
      this.conf := conf;
      this.desc := new Desc[descMax](_ => Desc(0, 0, 0, 0, 0, 0, 0, 0));
      this.descIdx, this.descUsed := 0, 0;
      this.running, this.shutdownRequest, this.shutdownIdle := false, false, false;
      this.status := Status(false, false);
      this.transferList, this.transfers, this.descDequeued := [], map[], 0;
      this.hw := Hw(false, Done, Done, 0, [], 0);
      this.submitted, this.removed := [], [];
    }

    // --- starting, stopping, servicing -----------------------------------------------

    /** xdma_engine_stop */
    method Stop()
      modifies this`running, this`hw
      ensures View() == EngineModel.Stop(old(View()))
      ensures !running && hw == old(hw).(run := false)
    {
      hw := hw.(run := false);
      running := false;
    }

    /** Programs the device with a transfer, reads the status and sets RUN. */
    method Program(transfer: Xfer, st: Status)
      modifies this`hw, this`status, this`running
      ensures running && status == st
      ensures var first := At(transfer.bus, GetNextAdj(transfer.adjacent, Lo(transfer.bus)));
              hw == Hw(true, first, first, 0, old(hw.log), |old(hw.log)|)
    {
      hide GetNextAdj, Lo;
      var first := At(transfer.bus, GetNextAdj(transfer.adjacent, Lo(transfer.bus)));
      hw := Hw(true, first, first, 0, hw.log, |hw.log|);
      status := st;
      running := true;
    }

    /** engine_start: refuses a running engine and an empty queue. */
    method Start(st: Status) returns (started: bool)
      requires View().Known()
      modifies this`shutdownRequest, this`shutdownIdle, this`descDequeued, this`hw, this`status, this`running
      ensures started == (!old(running) && transferList != [])
      ensures View() == if started then EngineModel.Start(old(View()), st) else old(View())
      ensures started ==> running && status == st && !shutdownRequest && !shutdownIdle && descDequeued == 0
      ensures started ==>
        var first := At(transfers[transferList[0]].bus,
                        GetNextAdj(transfers[transferList[0]].adjacent, Lo(transfers[transferList[0]].bus)));
        hw == Hw(true, first, first, 0, old(hw.log), |old(hw.log)|)
    {
      hide GetNextAdj, Lo;
      if running || transferList == [] { return false; }
      var transfer := transfers[transferList[0]];
      shutdownRequest, shutdownIdle, descDequeued := false, false, 0;
      Program(transfer, st);
      started := true;
    }

    /** list_del of the head of the queue. */
    method RemoveHead(x: Xfer)
      requires transferList != []
      modifies this`transferList, this`transfers, this`removed
      ensures View() == Pop(old(View()), x)
      ensures transferList == old(transferList)[1..] && removed == old(removed) + [old(transferList)[0]]
      ensures transfers == old(transfers)[old(transferList)[0] := x]
    {
      transfers := transfers[transferList[0] := x];
      removed := removed + [transferList[0]];
      transferList := transferList[1..];
    }

    /** engine_service_transfer_list */
    method ServiceTransferList(count: int) returns (left: int)
      requires View().Known()
      modifies this`transferList, this`transfers, this`removed, this`descDequeued
      ensures (View(), left) == ServeList(old(View()), count)
    {
      hide ServeList;
      left := count;
      while transferList != [] && left > transfers[transferList[0]].num
        invariant View().Known()
        invariant ServeList(View(), left) == ServeList(old(View()), count)
        decreases |transferList|
      {
        ServeListGoesOn(View(), left);
        var transfer := transfers[transferList[0]];
        left := left - transfer.num;
        RemoveHead(transfer.(state := Completed));
        descDequeued := descDequeued + transfer.num;
      }
      ServeListEnds(View(), left);
    }

    /** engine_service_final_transfer */
    method ServiceFinalTransfer(count: int)
      requires View().Known()
      modifies this`running, this`hw, this`transferList, this`transfers, this`removed, this`descDequeued
      ensures View() == Final(old(View()), count)
      ensures old(transferList) == [] ==> View() == old(View())
      ensures old(transferList) != [] ==>
        var id, x := old(transferList)[0], old(transfers)[old(transferList)[0]];
        && transferList == old(transferList)[1..] && running == (old(running) && !status.err)
        && descDequeued == old(descDequeued) + (if status.err then 0 else x.num)
        && transfers == old(transfers)[id :=
             if status.err then x.(state := Failed)
             else if x.num <= count then x.(state := Completed, cmpl := x.num)
             else x.(state := Failed, cmpl := if 0 <= count then count else 0)]
    {
      if transferList == [] { return; }
      var transfer := transfers[transferList[0]];
      if status.err {
        transfer := transfer.(state := Failed);
        Stop();
      } else if count < transfer.num {
        transfer := transfer.(state := Failed, cmpl := if count < 0 then 0 else count);
        descDequeued := descDequeued + transfer.num;
      } else {
        transfer := transfer.(state := Completed, cmpl := transfer.num);
        descDequeued := descDequeued + transfer.num;
      }
      RemoveHead(transfer);
    }

    /** engine_service_resume */
    method ServiceResume(st: Status)
      requires View().Known()
      modifies this`shutdownRequest, this`shutdownIdle, this`descDequeued, this`hw, this`status, this`running
      ensures View() == Resume(old(View()), st)
      ensures running == (transferList != [])
      ensures running && !old(running) ==> status == st && descDequeued == 0 && hw.run && hw.executed == 0
      ensures running && old(running) ==> View() == old(View())
      ensures shutdownIdle == (if !old(running) && running then false
                               else old(shutdownIdle) || (!old(running) && old(shutdownRequest)))
    {
      if !running {
        if transferList != [] {
          var started := Start(st);
        } else if shutdownRequest {
          shutdownIdle := true;
        }
      } else if transferList == [] {
        Stop();
      }
    }

    /** engine_service */
    method Service(r: Report)
      requires View().Known()
      modifies this`running, this`hw, this`transferList, this`transfers, this`removed, this`descDequeued,
               this`shutdownRequest, this`shutdownIdle, this`status
      ensures View() == EngineModel.Service(old(View()), r)
    {
      if !running {
        status := r.st;
        return;
      }
      if r.count == 0 || r.err { status := r.st; }
      if !status.busy || r.count != 0 { Stop(); }
      assert View() == Quiesce(old(View()), r);
      var count := if r.count == 0 then r.reg else r.count;
      if count == 0 { return; }
      var left := Sub32(count, descDequeued);
      ServeListKnown(View(), left);
      left := ServiceTransferList(left);
      FinalKnown(View(), left);
      ServiceFinalTransfer(left);
      ServiceResume(r.again);
    }

    /** transfer_queue; `offline` is the device flag as it was when the caller checked it. */
    method TransferQueue(id: Id, offline: bool, st: Status) returns (ok: bool)
      requires View().Known() && id in transfers
      modifies this`transferList, this`transfers, this`submitted,
               this`shutdownRequest, this`shutdownIdle, this`descDequeued, this`hw, this`status, this`running
      ensures (View(), ok) == Queue(old(View()), id, offline, st)
      ensures ok <==> old(transfers)[id].num != 0 && !offline && !old(shutdownRequest)
      ensures if ok then
                && transferList == old(transferList) + [id] && running
                && transfers == old(transfers)[id := old(transfers)[id].(state := Submitted)]
                && (if old(running) then status == old(status) && hw == old(hw) else status == st && hw.executed == 0)
              else View() == old(View())
    {
      if transfers[id].num == 0 || offline || shutdownRequest { return false; }
      transfers := transfers[id := transfers[id].(state := Submitted)];
      transferList := transferList + [id];
      submitted := submitted + [id];
      if !running {
        var started := Start(st);
      }
      ok := true;
    }

    /** transfer_abort */
    method TransferAbort(id: Id) returns (ok: bool)
      requires View().Known() && id in transfers
      modifies this`transferList, this`transfers, this`removed
      ensures ok == (old(transfers)[id].num != 0)
      ensures View() == Abort(old(View()), id)
      ensures ok ==> transferList == if old(transferList) != [] && old(transferList)[0] == id
                                     then old(transferList)[1..] else old(transferList)
      ensures ok ==> transfers == if old(transfers)[id].state == Submitted
                                  then old(transfers)[id := old(transfers)[id].(state := Aborted)] else old(transfers)
    {
      if transfers[id].num == 0 { return false; }
      if transferList != [] && transferList[0] == id {
        RemoveHead(transfers[id]);
        assert transfers == old(transfers);
      }
      if transfers[id].state == Submitted {
        transfers := transfers[id := transfers[id].(state := Aborted)];
      }
      ok := true;
    }

    /** xdma_device_offline and xdma_device_online, for this engine. */
    method Offline()
      modifies this`shutdownRequest, this`running, this`hw
      ensures View() == EngineModel.Offline(old(View()))
      ensures shutdownRequest && !running && hw == old(hw).(run := false)
    {
      shutdownRequest := true;
      Stop();
    }

    method Online()
      modifies this`shutdownRequest
      ensures View() == EngineModel.Online(old(View())) && !shutdownRequest
    {
      shutdownRequest := false;
    }

    /** The device executes a descriptor. */
    method Device()
      modifies this`hw
      ensures View() == HwStep(conf, old(View()))
    {
      var r := Ring(desc[..], conf.base);
      if hw.run {
        var at := Step(r, hw.at);
        if Executes(r, hw.at) {
          hw := hw.(at := at, executed := hw.executed + 1,
                    log := hw.log + DescMoves(desc[r.SlotOf(hw.at.addr)], conf.mode));
        } else {
          hw := hw.(at := at);
        }
      }
    }

    // --- building a transfer ------------------------------------------------------------

    /** transfer_desc_init: chains `count` descriptors from slot p, terminates the last. */
    method DescInit(p: nat, count: nat)
      requires 0 < count && p + count <= desc.Length
      modifies desc
      ensures forall j | 0 <= j < desc.Length ::
        desc[j] == if p <= j < p + count then Linked(old(desc[j]), conf.base, p, count, j - p) else old(desc[j])
    {
      var descBus := conf.base + 32 * p;
      var i := 0;
      while i < count - 1
        invariant 0 <= i <= count - 1 && descBus == conf.base + 32 * (p + i)
        invariant forall j | 0 <= j < desc.Length ::
          desc[j] == if p <= j < p + i then Linked(old(desc[j]), conf.base, p, count, j - p) else old(desc[j])
      {
        descBus := descBus + 32;
        desc[p + i] := desc[p + i].(nextLo := Lo(descBus), nextHi := Hi(descBus), bytes := 0, control := DESC_MAGIC);
        i := i + 1;
      }
      desc[p + i] := desc[p + i].(nextLo := 0, nextHi := 0, bytes := 0, control := DESC_MAGIC);
    }

    /** The next software descriptor of a slice. */
    method FillNext(req: Request, p: nat, i: nat, ghost before: seq<Desc>, ghost pieces: seq<Seg>, ghost ep: nat)
      returns (len: nat)
      requires i < |pieces| && req.swDescIdx + i < |req.sdesc| && pieces[i] == req.sdesc[req.swDescIdx + i]
      requires FilledTo(desc[..], before, p, pieces, ep, conf.mode, i) && req.epAddr == EpAt(pieces, ep, i, conf.mode)
      modifies desc, req`epAddr
      ensures len == pieces[i].len
      ensures FilledTo(desc[..], before, p, pieces, ep, conf.mode, i + 1)
      ensures req.epAddr == EpAt(pieces, ep, i + 1, conf.mode)
    {
      hide Filled, FilledTo, EpAt;
      FilledNext(desc[..], before, p, pieces, ep, conf.mode, i);
      OneFurther(pieces, ep, conf.mode, i);
      var sw := req.sdesc[req.swDescIdx + i];
      DescSet(desc, p + i, sw, req.epAddr, conf.mode.dir);
      len := sw.len;
      if !conf.mode.nonIncr { req.epAddr := req.epAddr + sw.len; }
    }

    /** transfer_build: fills in addresses and lengths, advances the request. */
    method TransferBuild(req: Request, p: nat, count: nat) returns (len: nat)
      requires p + count <= desc.Length && req.swDescIdx + count <= |req.sdesc|
      modifies desc, req
      ensures var pieces := req.sdesc[old(req.swDescIdx)..old(req.swDescIdx) + count];
              && (forall j | 0 <= j < desc.Length ::
                   desc[j] == if p <= j < p + count
                              then Filled(old(desc[j]), pieces[j - p], EpAt(pieces, old(req.epAddr), j - p, conf.mode), conf.mode.dir)
                              else old(desc[j]))
              && len == TotalLen(pieces)
              && req.epAddr == conf.mode.Advance(old(req.epAddr), len)
      ensures req.swDescIdx == old(req.swDescIdx) + count
    {
      ghost var pieces, ep, before := req.sdesc[req.swDescIdx..req.swDescIdx + count], req.epAddr, desc[..];
      hide Filled, FilledTo, EpAt, TotalLen;
      len := 0;
      NoneFilled(before, p, pieces, ep, conf.mode);
      for i := 0 to count
        invariant req.swDescIdx == old(req.swDescIdx)
        invariant len == TotalLen(pieces[..i]) && req.epAddr == EpAt(pieces, ep, i, conf.mode)
        invariant FilledTo(desc[..], before, p, pieces, ep, conf.mode, i)
      {
        OneFurther(pieces, ep, conf.mode, i);
        var swLen := FillNext(req, p, i, before, pieces, ep);
        len := len + swLen;
      }
      AllFilledIn(desc[..], before, p, pieces, ep, conf.mode);
      assert pieces[..count] == pieces;
      req.swDescIdx := req.swDescIdx + count;
    }

    /** The last two passes of transfer_init: control bits on the last descriptor, then the
        adjacency hints. */
    method SetControls(p: nat, count: nat)
      requires 0 < count && p + count <= desc.Length
      modifies desc
      ensures forall j | 0 <= j < desc.Length ::
        desc[j] == if p <= j < p + count then Controlled(old(desc[j]), count, j - p) else old(desc[j])
    {
      LastFits();
      var last := p + count - 1;
      desc[last] := desc[last].(control := ControlSet(desc[last].control, LAST_CONTROL));
      for i := 0 to count
        invariant forall j | 0 <= j < desc.Length ::
          desc[j] == if p <= j < p + i then Controlled(old(desc[j]), count, j - p)
                     else if j == last then old(desc[j]).(control := ControlSet(old(desc[j]).control, LAST_CONTROL))
                     else old(desc[j])
      {
        hide ControlSet, SetAdjacent, GetNextAdj;
        var nextAdj := GetNextAdj(count - i - 1, desc[p + i].nextLo);
        desc[p + i] := desc[p + i].(control := SetAdjacent(desc[p + i].control, nextAdj));
      }
    }

    /** The passes of transfer_init over its slice. */
    method LaySlice(req: Request, p: nat, count: nat) returns (len: nat)
      requires 0 < count && p + count <= desc.Length && req.swDescIdx + count <= |req.sdesc|
      modifies desc, req
      ensures var pieces := req.sdesc[old(req.swDescIdx)..old(req.swDescIdx) + count];
              && desc[..] == Place(old(desc[..]), conf.base, p, pieces, old(req.epAddr), conf.mode)
              && len == TotalLen(pieces)
              && req.epAddr == conf.mode.Advance(old(req.epAddr), len)
      ensures req.swDescIdx == old(req.swDescIdx) + count
    {
      hide Linked, Filled, Controlled, EpAt, CompiledDesc;
      ghost var pieces := req.sdesc[req.swDescIdx..req.swDescIdx + count];
      ghost var ep := req.epAddr;
      DescInit(p, count);
      len := TransferBuild(req, p, count);
      SetControls(p, count);
      forall j | 0 <= j < desc.Length
        ensures desc[j] == Place(old(desc[..]), conf.base, p, pieces, ep, conf.mode)[j]
      {
        if p <= j < p + count {
          StagesAreCompiled(old(desc[j]), conf.base, p, count, j - p, pieces[j - p],
                            EpAt(pieces, ep, j - p, conf.mode), conf.mode.dir);
        }
      }
    }

    /** transfer_init: takes as many descriptors as are left, as the ring holds and as fit before
        its end, builds them at the cursor, and advances the cursor. */
    method TransferInit(req: Request, id: Id) returns (descMax: nat)
      requires descIdx < desc.Length && req.swDescIdx < |req.sdesc|
      modifies desc, req, this`transfers, this`descIdx, this`descUsed
      ensures descMax == SliceLen(old(descIdx), |req.sdesc| - old(req.swDescIdx), desc.Length)
      ensures 0 < descMax && old(descIdx) + descMax <= desc.Length && old(req.swDescIdx) + descMax <= |req.sdesc|
      ensures req.swDescIdx == old(req.swDescIdx) + descMax
      ensures var pieces := req.sdesc[old(req.swDescIdx)..req.swDescIdx];
              && View() == Build(conf, old(View()), id, pieces, old(req.epAddr))
              && req.epAddr == conf.mode.Advance(old(req.epAddr), TotalLen(pieces))
    {
      hide Place, LinearCopy, Flatten, TotalLen;
      descMax := Min(|req.sdesc| - req.swDescIdx, desc.Length);
      if descIdx + descMax >= desc.Length { descMax := desc.Length - descIdx; }
      var index := descIdx;
      var job := LinearCopy(Flatten(req.sdesc[req.swDescIdx..req.swDescIdx + descMax]), req.epAddr, conf.mode);
      var len := LaySlice(req, index, descMax);
      transfers := transfers[id := Xfer(index, conf.base + 32 * index, descMax, descMax, len, New, 0, job)];
      descIdx := (index + descMax) % desc.Length;
      descUsed := descUsed + descMax;
    }
  }
}
