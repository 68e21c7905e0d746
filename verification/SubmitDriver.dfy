/** xdma_xfer_submit on the engine that is updated in place, proved against the rounds of SubmitLoop. */
module SubmitDriver {
  import opened Descriptor
  import opened Fetch
  import opened Scatter
  import opened Compile
  import opened EngineModel
  import opened EngineInvariant
  import opened EngineDriver
  import opened Submit
  import opened Rounds
  import opened SubmitLoop

  /** transfer_destroy's memset. */
  method TransferDestroy(e: Engine, p: nat, n: nat)
    requires p + n <= e.desc.Length
    modifies e.desc
    ensures e.View() == old(e.View()).(ring := Cleared(old(e.desc[..]), p, n))
    ensures forall j | 0 <= j < e.desc.Length ::
      if p <= j < p + n then e.desc[j] == Desc(0, 0, 0, 0, 0, 0, 0, 0) else e.desc[j] == old(e.desc[j])
  {
    forall j | p <= j < p + n { e.desc[j] := Desc(0, 0, 0, 0, 0, 0, 0, 0); }
    assert e.desc[..] == Cleared(old(e.desc[..]), p, n);
  }

  /** The timeout branch: abort and stop if the status can be read. */
  method GiveUp(e: Engine, id: Id, turn: Turn)
    requires e.View().Known() && id in e.transfers && e.transfers[id].num != 0
    modifies e
    ensures e.View() == if turn.readable then Timeout(old(e.View()), id, turn.last) else old(e.View())
    ensures e.descUsed == old(e.descUsed)
    ensures turn.readable ==> e.status == turn.last && !e.running && e.hw == old(e.hw).(run := false)
    ensures turn.readable && old(e.transferList) == [id] && old(e.transfers)[id].state == Submitted ==>
      e.transferList == [] && e.transfers == old(e.transfers)[id := old(e.transfers)[id].(state := Aborted)]
  {
    if turn.readable {
      e.status := turn.last;
      var ok := e.TransferAbort(id);
      if ok { e.Stop(); }
    }
  }

  /** The length in the transfer structure is that of the slice it was built from. */
  lemma LenStays(c: Conf, e: Eng, id: Id, pieces: seq<Seg>, ep: nat, turn: Turn)
    requires Idle(c, e) && pieces != [] && e.index + |pieces| <= |e.ring| && turn.Valid()
    ensures var offered := Offered(c, e, id, pieces, ep, turn);
            Accepts(offered, turn) ==>
              && offered.xfer[id].num != 0
              && Waited(c, offered, id, turn).xfer[id].len == TotalLen(pieces)
  {
    hide Idle, Loaded, EnvRun, LinearCopy, Flatten, TotalLen, Build, Queue, Inv;
    BuiltFacts(c, e, id, pieces, ep);
    BeforeFacts(c, Build(c, e, id, pieces, ep), id, turn.before);
    var offered := Offered(c, e, id, pieces, ep, turn);
    NumOfLoaded(c, offered, id);
    var moved := AfterFacts(c, offered, id, turn.offline, turn.st, false, turn.during);
    if Accepts(offered, turn) { WaitStates(c, offered, id, turn); }
  }

  /** Builds the next slice; other steps follow. */
  method Offer(e: Engine, req: Request, id: Id, turn: Turn) returns (n: nat)
    requires Idle(e.conf, e.View()) && req.swDescIdx < |req.sdesc| && turn.Valid()
    modifies e, e.desc, req
    ensures n == SliceLen(old(e.descIdx), |req.sdesc| - old(req.swDescIdx), e.desc.Length)
    ensures 0 < n && old(e.descIdx) + n <= e.desc.Length
    ensures req.swDescIdx == old(req.swDescIdx) + n <= |req.sdesc|
    ensures req.epAddr == e.conf.mode.Advance(old(req.epAddr), TotalLen(req.sdesc[old(req.swDescIdx)..req.swDescIdx]))
    ensures var pieces := req.sdesc[old(req.swDescIdx)..old(req.swDescIdx) + n];
            e.View() == Offered(e.conf, old(e.View()), id, pieces, old(req.epAddr), turn)
  {
    hide Idle, TotalLen, SliceLen, Build, EnvRun, Loaded;
    ghost var s0, from, ep := e.View(), req.swDescIdx, req.epAddr;
    IdleCursor(e.conf, s0);
    n := e.TransferInit(req, id);
    BuiltFacts(e.conf, s0, id, req.sdesc[from..from + n], ep);
    IdleCursor(e.conf, e.View());
    Environment(e, turn.before);
  }

  /** Queues the transfer; if it is accepted, waits while other steps follow. */
  method QueueAndWait(e: Engine, id: Id, turn: Turn) returns (accepted: bool)
    requires Idle(e.conf, e.View()) && id in e.transfers && e.transfers[id].num != 0
    requires Loaded(e.conf, e.View().ring, e.transfers[id]) && turn.Valid()
    modifies e
    ensures accepted == Accepts(old(e.View()), turn)
    ensures e.View() == if accepted then Waited(e.conf, old(e.View()), id, turn) else old(e.View())
  {
    hide Idle, EnvRun, Loaded;
    ghost var s0 := e.View();
    IdleCursor(e.conf, s0);
    InvKnown(e.conf, s0);
    accepted := e.TransferQueue(id, turn.offline, turn.st);
    if accepted {
      WaitStates(e.conf, s0, id, turn);
      Environment(e, turn.during);
    }
  }

  /** The submitter's switch over the state of its transfer. */
  function Reported(state: XferState): Rv {
    match state
    case Completed => Ok
    case Failed => IoError
    case _ => Restart
  }

  /** Under the lock after the wait: the state decides; the descriptors are given back in any case. */
  method Settle(e: Engine, id: Id, p: nat, n: nat, turn: Turn) returns (rv: Rv, len: nat)
    requires e.View().Known() && id in e.transfers && e.transfers[id].num != 0 && p + n <= e.desc.Length
    requires e.transfers[id].state in {Submitted, Completed, Failed}
    modifies e, e.desc
    ensures rv == Reported(old(e.transfers)[id].state)
    ensures var w := old(e.View());
            var w1 := if w.xfer[id].state == Submitted && turn.readable then Timeout(w, id, turn.last) else w;
            e.View() == Released(w1, p, n)
    ensures e.descUsed == old(e.descUsed) - n
    ensures forall j | 0 <= j < e.desc.Length ::
      if p <= j < p + n then e.desc[j] == Desc(0, 0, 0, 0, 0, 0, 0, 0) else e.desc[j] == old(e.desc[j])
    ensures rv == Ok ==> len == old(e.transfers)[id].len
  {
    hide Cleared, Timeout;
    len := 0;
    if e.transfers[id].state == Completed {
      rv := Ok;
      len := e.transfers[id].len;
    } else if e.transfers[id].state == Failed {
      rv := IoError;
    } else {
      rv := Restart;
      GiveUp(e, id, turn);
    }
    e.descUsed := e.descUsed - n;
    TransferDestroy(e, p, n);
  }

  /** A round, step by step. */
  lemma RoundIs(c: Conf, e: Eng, id: Id, pieces: seq<Seg>, ep: nat, turn: Turn)
    requires Idle(c, e) && pieces != [] && e.index + |pieces| <= |e.ring| && turn.Valid()
    ensures var offered := Offered(c, e, id, pieces, ep, turn);
            if !Accepts(offered, turn) then Round(c, e, id, pieces, ep, turn) == (offered, Busy)
            else
              && offered.xfer[id].num != 0
              && var w := Waited(c, offered, id, turn);
                 Round(c, e, id, pieces, ep, turn) ==
                   (Released(if w.xfer[id].state == Submitted && turn.readable then Timeout(w, id, turn.last) else w,
                             e.index, |pieces|),
                    Reported(w.xfer[id].state))
  {
    hide Idle, Loaded, Offered, Waited, Released, Timeout;
    NumOfLoaded(c, Offered(c, e, id, pieces, ep, turn), id);
  }

  lemma RoundCloses(c: Conf, id: Id, sdesc: seq<Seg>, turn: Turn, g: Stage, n: nat, e1: Eng, rv: Rv)
    requires Idle(c, g.e) && turn.Valid() && g.from < |sdesc| && g.e.index < |g.e.ring|
    requires n == SliceLen(g.e.index, |sdesc| - g.from, |g.e.ring|)
    requires 0 < n && g.from + n <= |sdesc| && g.e.index + n <= |g.e.ring|
    requires Round(c, g.e, id, sdesc[g.from..g.from + n], g.ep, turn) == (e1, rv)
    ensures RoundEnds(c, id, sdesc, turn, g, n, e1, rv)
  {
    hide Idle, Round, SliceLen;
  }

  /** One round of the submit loop: build, queue, wait, look at the state under the lock, settle. */
  method SubmitRound(e: Engine, req: Request, id: Id, turn: Turn) returns (rv: Rv, n: nat, len: nat)
    requires Idle(e.conf, e.View()) && req.swDescIdx < |req.sdesc| && turn.Valid()
    modifies e, e.desc, req
    ensures RoundEnds(e.conf, id, req.sdesc, turn, Stage(old(e.View()), old(req.swDescIdx), old(req.epAddr)), n, e.View(), rv)
    ensures 0 < n && req.swDescIdx == old(req.swDescIdx) + n <= |req.sdesc|
    ensures req.epAddr == e.conf.mode.Advance(old(req.epAddr), TotalLen(req.sdesc[old(req.swDescIdx)..req.swDescIdx]))
    ensures rv == Ok ==> len == TotalLen(req.sdesc[old(req.swDescIdx)..req.swDescIdx])
  {
    hide Idle, TotalLen, SliceLen, Loaded, Released, Offered, Waited, Timeout, Round, RoundEnds, Accepts;
    ghost var s0, from, ep := e.View(), req.swDescIdx, req.epAddr;
    IdleCursor(e.conf, s0);
    var p := e.descIdx;
    n := Offer(e, req, id, turn);
    ghost var pieces := req.sdesc[from..from + n];
    NumOfLoaded(e.conf, e.View(), id);
    LenStays(e.conf, s0, id, pieces, ep, turn);
    RoundIs(e.conf, s0, id, pieces, ep, turn);
    ghost var offered := e.View();
    var accepted := QueueAndWait(e, id, turn);
    if !accepted {
      assert e.View() == offered;
      RoundCloses(e.conf, id, req.sdesc, turn, Stage(s0, from, ep), n, e.View(), Busy);
      return Busy, n, 0;
    }
    rv, len := Settle(e, id, p, n, turn);
    RoundCloses(e.conf, id, req.sdesc, turn, Stage(s0, from, ep), n, e.View(), rv);
  }

  /** The loop of xdma_xfer_submit, for any schedule of the rest of the system. It ends, and its rounds are
      those of SubmitLoop: `t` are the stages of the completed ones, and the one that did not complete, if
      any, is Round of the last stage. The completed transfers are a prefix of the request, and `done` is
      their length; what else holds is Promises. */
  method SubmitRounds(e: Engine, req: Request, id: Id, sched: nat -> Turn)
    returns (rv: Rv, done: nat, completed: nat, ghost moved: nat, ghost t: seq<Stage>)
    requires Idle(e.conf, e.View()) && req.swDescIdx == 0 && AllValid(sched)
    modifies e, e.desc, req
    ensures Stops(e.conf, id, req.sdesc, sched, t, req.swDescIdx, e.View(), rv)
    ensures t != [] && t[0] == Stage(old(e.View()), 0, old(req.epAddr)) && completed == t[|t| - 1].from <= |req.sdesc|
    ensures done == TotalLen(req.sdesc[..completed])
    ensures rv == Ok <==> completed == |req.sdesc|
    ensures Promises(e.conf, id, req.sdesc, sched, t, req.swDescIdx, e.View(), rv, moved)
  {
    hide TotalLen, SliceLen, Idle, RoundEnds, Completes, AllValid, RequestAfter, JobAt, Promises;
    ghost var c, g0 := e.conf, Stage(e.View(), 0, req.epAddr);
    var nents: nat := |req.sdesc|;
    rv, done, completed := Ok, 0, 0;
    var rounds := 0;
    t := [g0];
    StartsAt(c, id, req.sdesc, sched, g0);
    while nents != 0
      invariant 0 <= nents <= |req.sdesc| && completed == req.swDescIdx == |req.sdesc| - nents && rv == Ok
      invariant done == TotalLen(req.sdesc[..completed]) && Idle(c, e.View())
      invariant Completes(c, id, req.sdesc, sched, t) && |t| == rounds + 1 && t[0] == g0
      invariant t[rounds] == Stage(e.View(), req.swDescIdx, req.epAddr)
      decreases nents
    {
      ValidAt(sched, rounds);
      var n, len;
      rv, n, len := SubmitRound(e, req, id, sched(rounds));
      nents := nents - n;
      if rv != Ok { break; }
      OneMore(c, id, req.sdesc, sched, t, n, e.View());
      LengthExtends(req.sdesc, completed, n);
      RoundIdles(c, id, req.sdesc, sched(rounds), t[rounds], n, e.View());
      done := done + len;
      completed := completed + n;
      t := t + [Stage(e.View(), req.swDescIdx, req.epAddr)];
      rounds := rounds + 1;
    }
    moved := Epilogue(c, id, req.sdesc, sched, t, req.swDescIdx, e.View(), rv);
  }

  /** The checks before anything is built: the device is offline, the engine has the other direction, mapping
      the list gave no entries, or the software descriptors have no room. */
  datatype Refusal = Offline | WrongDirection | NotMapped | TooLong

  /** The result of the call: a refusal, a byte count, or an error if no byte was counted. */
  datatype Outcome = Refused(why: Refusal) | Count(bytes: nat) | Error(rv: Rv)

  /** xdma_xfer_submit on a memory-mapped engine: the checks on entry (`offline` is the device flag as it was
      seen then), the software descriptors, and the loop. A refused request leaves the engine untouched. */
  method XferSubmit(e: Engine, sgl: seq<Seg>, dir: Dir, offline: bool, epAddr: nat, blen: nat, id: Id, sched: nat -> Turn)
    returns (ret: Outcome, rv: Rv, done: nat, sdesc: seq<Seg>, ghost built: nat, ghost moved: nat, ghost t: seq<Stage>)
    requires Idle(e.conf, e.View()) && AllValid(sched) && 0 < blen < 0x1_0000_0000
    requires forall i | 0 <= i < |sgl| :: sgl[i].len < 0x1_0000_0000
    modifies e, e.desc
    ensures ret == Refused(Refusal.Offline) <==> offline
    ensures ret == Refused(WrongDirection) <==> !offline && dir != e.conf.mode.dir
    ensures ret == Refused(NotMapped) <==> !offline && dir == e.conf.mode.dir && sgl == []
    ensures ret == Refused(TooLong) <==>
      !offline && dir == e.conf.mode.dir && sgl != [] && Spare(sgl, blen) < Lacking(sgl, blen)
    ensures ret.Refused? <==> offline || dir != e.conf.mode.dir || sgl == [] || Spare(sgl, blen) < Lacking(sgl, blen)
    ensures if ret.Refused? then e.View() == old(e.View())
            else
              && ret == (if done != 0 || rv == Ok then Count(done) else Error(rv))
              && Flatten(sdesc) == Flatten(sgl) && Bounded(sdesc, blen)
              && t != [] && Stops(e.conf, id, sdesc, sched, t, built, e.View(), rv) && t[0] == Stage(old(e.View()), 0, epAddr)
              && t[|t| - 1].from <= |sdesc| && done == TotalLen(sdesc[..t[|t| - 1].from])
              && (rv == Ok <==> t[|t| - 1].from == |sdesc|)
              && Promises(e.conf, id, sdesc, sched, t, built, e.View(), rv, moved)
  {
    hide Idle, AllValid, Flatten, TotalLen, Stops, Promises, Lacking, Spare;
    rv, done, sdesc, built, moved, t := Ok, 0, [], 0, 0, [];
    if offline { return Refused(Refusal.Offline), rv, done, sdesc, built, moved, t; }
    if dir != e.conf.mode.dir { return Refused(WrongDirection), rv, done, sdesc, built, moved, t; }
    if |sgl| == 0 { return Refused(NotMapped), rv, done, sdesc, built, moved, t; }
    var descs, cnt, total, ok, inside := InitRequest(sgl, blen);
    if !ok { return Refused(TooLong), rv, done, sdesc, built, moved, t; }
    sdesc := descs[..cnt];
    var req := new Request(sdesc, epAddr);
    var completed;
    rv, done, completed, moved, t := SubmitRounds(e, req, id, sched);
    built := req.swDescIdx;
    ret := if done != 0 || rv == Ok then Count(done) else Error(rv);
  }
}
