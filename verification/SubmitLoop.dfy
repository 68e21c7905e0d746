/** The synchronous submit path: one request, one transfer at a time, among arbitrary steps of the rest
    of the system. Every round of the loop is the function Round of the engine and the schedule. */
module SubmitLoop {
  import opened Descriptor
  import opened Fetch
  import opened Scatter
  import opened Compile
  import opened EngineModel
  import opened EngineInvariant
  import opened EngineDriver
  import opened Submit
  import opened Rounds

  // --- the rounds of a request -----------------------------------------------------------------------

  /** The loop at the start of a round: the engine, the software descriptors of the completed rounds,
      and the device address of the next one. */
  datatype Stage = Stage(e: Eng, from: nat, ep: nat)

  /** A round takes the next n software descriptors, as many as transfer_init takes, and ends like this. */
  ghost predicate RoundEnds(c: Conf, id: Id, sdesc: seq<Seg>, turn: Turn, g: Stage, n: nat, e1: Eng, rv: Rv) {
    && Idle(c, g.e) && g.e.index < |g.e.ring| && turn.Valid()
    && 0 < n && g.from + n <= |sdesc| && g.e.index + n <= |g.e.ring|
    && n == SliceLen(g.e.index, |sdesc| - g.from, |g.e.ring|)
    && Round(c, g.e, id, sdesc[g.from..g.from + n], g.ep, turn) == (e1, rv)
  }

  /** A completed round. */
  ghost predicate Follows(c: Conf, id: Id, sdesc: seq<Seg>, turn: Turn, g: Stage, g1: Stage) {
    && g.from < g1.from <= |sdesc|
    && RoundEnds(c, id, sdesc, turn, g, g1.from - g.from, g1.e, Ok)
    && g1.ep == c.mode.Advance(g.ep, TotalLen(sdesc[g.from..g1.from]))
  }

  /** The completed rounds of a request, in order, from its first descriptor on. */
  ghost predicate Completes(c: Conf, id: Id, sdesc: seq<Seg>, sched: nat -> Turn, t: seq<Stage>) {
    && t != [] && t[0].from == 0 && Idle(c, t[0].e)
    && forall i | 0 <= i < |t| - 1 :: Follows(c, id, sdesc, sched(i), t[i], t[i + 1])
  }

  /** One more completed round. */
  lemma OneMore(c: Conf, id: Id, sdesc: seq<Seg>, sched: nat -> Turn, t: seq<Stage>, n: nat, e1: Eng)
    requires Completes(c, id, sdesc, sched, t)
    requires RoundEnds(c, id, sdesc, sched(|t| - 1), t[|t| - 1], n, e1, Ok)
    ensures t[|t| - 1].from + n <= |sdesc|
    ensures var g := t[|t| - 1];
            Completes(c, id, sdesc, sched,
                      t + [Stage(e1, g.from + n, c.mode.Advance(g.ep, TotalLen(sdesc[g.from..g.from + n])))])
  {
    hide Idle, Round, SliceLen, TotalLen;
    var g := t[|t| - 1];
    var g1 := Stage(e1, g.from + n, c.mode.Advance(g.ep, TotalLen(sdesc[g.from..g.from + n])));
    var t1 := t + [g1];
    forall i | 0 <= i < |t1| - 1 ensures Follows(c, id, sdesc, sched(i), t1[i], t1[i + 1]) {
      if i == |t| - 1 {
        assert t1[i] == g && t1[i + 1] == g1 && g1.from - g.from == n;
      } else {
        assert t1[i] == t[i] && t1[i + 1] == t[i + 1];
      }
    }
  }

  ghost predicate AllValid(sched: nat -> Turn) { forall k: nat :: sched(k).Valid() }

  lemma ValidAt(sched: nat -> Turn, k: nat)
    requires AllValid(sched)
    ensures sched(k).Valid()
  {
  }

  ghost predicate AllTruthful(sched: nat -> Turn) { forall k: nat :: sched(k).Truthful() }

  /** What holds k rounds after the stage g0 at which the request came in. */
  ghost predicate Reached(c: Conf, sdesc: seq<Seg>, g0: Stage, g: Stage, k: nat, honest: bool) {
    && Idle(c, g.e) && g.from <= |sdesc|
    && g.e.index < |g.e.ring| == |g0.e.ring| && g0.e.index < |g0.e.ring|
    && g.ep == c.mode.Advance(g0.ep, TotalLen(sdesc[..g.from]))
    && g.e.used == g0.e.used
    && g.e.index == (g0.e.index + g.from) % |g0.e.ring|
    && WipedRound(g0.e.ring, g.e.ring, g0.e.index, g.from)
    && k + |Slices(g.e.index, |sdesc| - g.from, |g.e.ring|)| == |Slices(g0.e.index, |sdesc|, |g0.e.ring|)|
    && (honest ==> g.e.hw.log == g0.e.hw.log + JobAt(sdesc, 0, g.from, g0.ep, c.mode))
  }

  lemma ReachedAtOnce(c: Conf, sdesc: seq<Seg>, g: Stage, honest: bool)
    requires Idle(c, g.e) && g.from == 0
    ensures Reached(c, sdesc, g, g, 0, honest)
  {
    hide Loaded, OnHead, WipedRound;
    WipedAtOnce(g.e.ring, g.e.index);
    assert sdesc[..0] == sdesc[0..0] == [] && LinearCopy(Flatten([]), g.ep, c.mode) == [];
  }

  /** The copy of the first i + n software descriptors is that of the first i, then of the next n. */
  lemma JobExtends(sdesc: seq<Seg>, i: nat, n: nat, ep: nat, m: Mode)
    requires i + n <= |sdesc|
    ensures JobAt(sdesc, 0, i + n, ep, m)
         == JobAt(sdesc, 0, i, ep, m) + JobAt(sdesc, i, n, m.Advance(ep, TotalLen(sdesc[..i])), m)
    ensures |JobAt(sdesc, 0, i, ep, m)| == TotalLen(sdesc[..i])
    ensures |JobAt(sdesc, i, n, m.Advance(ep, TotalLen(sdesc[..i])), m)| == TotalLen(sdesc[i..i + n])
    ensures TotalLen(sdesc[..i + n]) == TotalLen(sdesc[..i]) + TotalLen(sdesc[i..i + n])
  {
    hide LinearCopy, Flatten;
    assert sdesc[0..i] == sdesc[..i] && sdesc[0..i + n] == sdesc[..i + n];
    assert sdesc[..i + n] == sdesc[..i] + sdesc[i..i + n];
    SplitCopy(sdesc[..i], sdesc[i..i + n], ep, m);
    FlattenLen(sdesc[..i]);
    FlattenLen(sdesc[i..i + n]);
    FlattenConcat(sdesc[..i], sdesc[i..i + n]);
  }

  /** The ring position after a slice, and the transfers still to come. */
  lemma NextSlice(p: nat, rem: nat, d: nat)
    requires p < d && 0 < rem
    ensures var n := SliceLen(p, rem, d);
            && 0 < n <= rem && p + n <= d && (p + n) % d < d
            && |Slices(p, rem, d)| == 1 + |Slices((p + n) % d, rem - n, d)|
  {
    SliceCursor(p, rem, d);
  }

  lemma IdleCursor(c: Conf, e: Eng)
    requires Idle(c, e)
    ensures e.index < |e.ring| && Inv(c, e) && e.queue == []
  {
  }

  /** What a completed round leaves behind. */
  lemma FollowFacts(c: Conf, id: Id, sdesc: seq<Seg>, turn: Turn, g: Stage, g1: Stage)
    requires Follows(c, id, sdesc, turn, g, g1)
    ensures Idle(c, g1.e) && |g1.e.ring| == |g.e.ring| && g.e.index < |g.e.ring|
    ensures g1.e.index == (g.e.index + (g1.from - g.from)) % |g.e.ring|
    ensures g1.e.used == g.e.used
    ensures Wiped(g.e.ring, g1.e.ring, g.e.index, g1.from - g.from) && g.e.index + (g1.from - g.from) <= |g.e.ring|
    ensures turn.Truthful() ==> g1.e.hw.log == g.e.hw.log + JobAt(sdesc, g.from, g1.from - g.from, g.ep, c.mode)
  {
    hide Idle, Round, SliceLen, TotalLen, LinearCopy, Flatten, Wiped;
    var n := g1.from - g.from;
    assert g.from + n == g1.from;
    var moved := RoundFacts(c, g.e, id, sdesc[g.from..g.from + n], g.ep, turn);
    var job := JobAt(sdesc, g.from, n, g.ep, c.mode);
    assert moved == |job| ==> job[..moved] == job;
  }

  lemma FollowSlice(c: Conf, id: Id, sdesc: seq<Seg>, turn: Turn, g: Stage, g1: Stage)
    requires Follows(c, id, sdesc, turn, g, g1)
    ensures g.e.index < |g.e.ring| && g.from < g1.from <= |sdesc|
    ensures g1.ep == c.mode.Advance(g.ep, TotalLen(sdesc[g.from..g1.from]))
    ensures var d, q := |g.e.ring|, (g.e.index + (g1.from - g.from)) % |g.e.ring|;
            q < d && |Slices(g.e.index, |sdesc| - g.from, d)| == 1 + |Slices(q, |sdesc| - g1.from, d)|
  {
    hide Idle, Round, SliceLen, Slices, TotalLen;
    NextSlice(g.e.index, |sdesc| - g.from, |g.e.ring|);
  }

  /** The log and the device address after the next n descriptors. */
  lemma CopyNext(sdesc: seq<Seg>, from: nat, n: nat, ep0: nat, ep: nat, m: Mode, log0: seq<Move>, log: seq<Move>)
    requires from + n <= |sdesc| && ep == m.Advance(ep0, TotalLen(sdesc[..from]))
    ensures log == log0 + JobAt(sdesc, 0, from, ep0, m) ==>
      log + JobAt(sdesc, from, n, ep, m) == log0 + JobAt(sdesc, 0, from + n, ep0, m)
    ensures m.Advance(ep, TotalLen(sdesc[from..from + n])) == m.Advance(ep0, TotalLen(sdesc[..from + n]))
  {
    hide JobAt, TotalLen;
    JobExtends(sdesc, from, n, ep0, m);
  }

  lemma ReachedNext(c: Conf, id: Id, sdesc: seq<Seg>, turn: Turn, g0: Stage, g: Stage, g1: Stage, k: nat, honest: bool)
    requires Reached(c, sdesc, g0, g, k, honest) && Follows(c, id, sdesc, turn, g, g1) && (honest ==> turn.Truthful())
    ensures Reached(c, sdesc, g0, g1, k + 1, honest)
  {
    hide Idle, Round, SliceLen, Slices, TotalLen, JobAt, Follows, Wiped, WipedRound;
    FollowFacts(c, id, sdesc, turn, g, g1);
    FollowSlice(c, id, sdesc, turn, g, g1);
    CopyNext(sdesc, g.from, g1.from - g.from, g0.ep, g.ep, c.mode, g0.e.hw.log, g.e.hw.log);
    WipedOn(g0.e.ring, g.e.ring, g1.e.ring, g0.e.index, g.from, g1.from - g.from);
  }

  lemma {:induction false} StagesReached(c: Conf, id: Id, sdesc: seq<Seg>, sched: nat -> Turn, t: seq<Stage>, i: nat)
    requires Completes(c, id, sdesc, sched, t) && i < |t|
    ensures Reached(c, sdesc, t[0], t[i], i, AllTruthful(sched))
  {
    hide Follows, Reached, Idle;
    if i == 0 {
      ReachedAtOnce(c, sdesc, t[0], AllTruthful(sched));
    } else {
      StagesReached(c, id, sdesc, sched, t, i - 1);
      assert Follows(c, id, sdesc, sched(i - 1), t[i - 1], t[i - 1 + 1]);
      ReachedNext(c, id, sdesc, sched(i - 1), t[0], t[i - 1], t[i], i - 1, AllTruthful(sched));
    }
  }

  /** How a request ends that was not completed: its last round was rejected exactly if the device was seen
      offline or the engine was under a shutdown request; desc_used is back unless the last transfer was rejected,
      the queue is empty unless the status could not be read after a timeout, and under truthful reports a
      prefix of the whole copy was moved that contains every completed round. */
  lemma EndFacts(c: Conf, id: Id, sdesc: seq<Seg>, turn: Turn, g0: Stage, g: Stage, k: nat, honest: bool,
                 n: nat, e1: Eng, rv: Rv)
    returns (moved: nat)
    requires Reached(c, sdesc, g0, g, k, honest) && RoundEnds(c, id, sdesc, turn, g, n, e1, rv)
    ensures 0 < n && (rv == Busy <==> turn.offline || RequestAfter(g.e.request, turn.before))
    ensures rv != Ok ==> Leaves(c, sdesc[g.from..g.from + n], g, g0, e1, rv, g.from + n)
    ensures rv != Ok ==> Settled(c, id, turn, e1, rv) && e1.used == g0.e.used + (if rv == Busy then n else 0)
    ensures honest ==> Moved(c, sdesc, g.from, g0, e1, moved)
  {
    hide Idle, Round, SliceLen, Slices, TotalLen, LinearCopy, Flatten, Wiped, WipedRound;
    var m := RoundFacts(c, g.e, id, sdesc[g.from..g.from + n], g.ep, turn);
    moved := TotalLen(sdesc[..g.from]) + m;
    BusyIff(c, g.e, id, sdesc[g.from..g.from + n], g.ep, turn);
    if rv != Busy { WipedOn(g0.e.ring, g.e.ring, e1.ring, g0.e.index, g.from, n); }
    PartialJob(sdesc, g.from, n, g0.ep, g.ep, c.mode, g0.e.hw.log, g.e.hw.log, m);
  }

  /** The ring after the last round: the slots of a rejected transfer hold it as it was built, otherwise the
      slots of all transfers, from the cursor on entry on, are wiped. Nothing else has changed. */
  ghost predicate Leaves(c: Conf, pieces: seq<Seg>, g: Stage, g0: Stage, e1: Eng, rv: Rv, built: nat) {
    && g0.e.index < |g0.e.ring|
    && if rv == Busy then
         && g.e.index + |pieces| <= |g.e.ring|
         && WipedRound(g0.e.ring, g.e.ring, g0.e.index, g.from)
         && e1.ring == Place(g.e.ring, c.base, g.e.index, pieces, g.ep, c.mode)
       else WipedRound(g0.e.ring, e1.ring, g0.e.index, built)
  }

  ghost predicate Settled(c: Conf, id: Id, turn: Turn, e: Eng, rv: Rv) {
    if rv == Restart && !turn.readable then e.queue == [id] && id in e.xfer && e.xfer[id].state == Submitted
    else Idle(c, e)
  }

  /** The device has moved a prefix of the copy of the request, and not less than the first descriptors. */
  ghost predicate Moved(c: Conf, sdesc: seq<Seg>, from: nat, g0: Stage, e: Eng, moved: nat) {
    && from <= |sdesc|
    && var copy := JobAt(sdesc, 0, |sdesc|, g0.ep, c.mode);
       TotalLen(sdesc[..from]) <= moved <= |copy| && e.hw.log == g0.e.hw.log + copy[..moved]
  }

  /** How far a round that started after i descriptors brings the whole copy. */
  lemma PartialJob(sdesc: seq<Seg>, i: nat, n: nat, ep0: nat, ep: nat, m: Mode, log0: seq<Move>, log: seq<Move>, moved: nat)
    requires i + n <= |sdesc| && ep == m.Advance(ep0, TotalLen(sdesc[..i]))
    requires moved <= |JobAt(sdesc, i, n, ep, m)|
    ensures var copy := JobAt(sdesc, 0, |sdesc|, ep0, m);
            var total := TotalLen(sdesc[..i]) + moved;
            && total <= |copy|
            && (log == log0 + JobAt(sdesc, 0, i, ep0, m) ==>
                  log + JobAt(sdesc, i, n, ep, m)[..moved] == log0 + copy[..total])
  {
    hide JobAt, TotalLen;
    JobExtends(sdesc, i, n, ep0, m);
    JobExtends(sdesc, i + n, |sdesc| - i - n, ep0, m);
    PrefixOfConcat(JobAt(sdesc, 0, i, ep0, m), JobAt(sdesc, i, n, ep, m), JobAt(sdesc, 0, |sdesc|, ep0, m), moved);
  }

  lemma PrefixOfConcat(a: seq<Move>, b: seq<Move>, whole: seq<Move>, k: nat)
    requires k <= |b| && a + b <= whole
    ensures a + b[..k] == whole[..|a| + k]
  {
  }

  /** A completed request: as many rounds as the ring position requires, and the whole copy. */
  lemma CompleteFacts(c: Conf, sdesc: seq<Seg>, g0: Stage, g: Stage, k: nat, honest: bool)
    requires Reached(c, sdesc, g0, g, k, honest) && g.from == |sdesc|
    ensures k == |Slices(g0.e.index, |sdesc|, |g0.e.ring|)|
    ensures |JobAt(sdesc, 0, |sdesc|, g0.ep, c.mode)| == TotalLen(sdesc)
    ensures honest ==> Moved(c, sdesc, |sdesc|, g0, g.e, TotalLen(sdesc))
  {
    hide Idle, TotalLen, JobAt;
    JobExtends(sdesc, |sdesc|, 0, g0.ep, c.mode);
    assert sdesc[..|sdesc|] == sdesc;
    var copy := JobAt(sdesc, 0, |sdesc|, g0.ep, c.mode);
    assert copy[..|copy|] == copy;
  }

  // --- rejection and success --------------------------------------------------------------------------

  /** A schedule under which transfers of up to n descriptors are executed and reported, and nobody takes
      the engine offline. */
  ghost predicate Attended(turn: Turn, n: nat) {
    NoOffline(turn.before) && NoOffline(turn.during) && exists k :: Serves(turn, k, n)
  }

  ghost predicate AllAttended(sched: nat -> Turn, n: nat) { forall k: nat :: Attended(sched(k), n) }

  function DeviceOnly(n: nat): seq<Env> { seq(n, i => Device) }

  lemma {:induction false} WorkSteps(n: nat)
    ensures DeviceSteps(DeviceOnly(n)) == n
  {
    if n > 0 {
      assert DeviceOnly(n)[..n - 1] == DeviceOnly(n - 1);
      WorkSteps(n - 1);
    }
  }

  lemma ServesAtEnd(turn: Turn, n: nat)
    requires |turn.during| == n + 1 && turn.during[..n] == DeviceOnly(n) && DeviceSteps(DeviceOnly(n)) == n
    requires Settles(turn.during[n], turn.st, n) && !turn.offline
    ensures Serves(turn, n, n)
  {
    hide DeviceSteps;
  }

  /** Such a schedule: n device steps, then an interrupt whose status shows no error. */
  lemma SimplyAttended(n: nat, st: Status, last: Status)
    requires n < 0x1_0000_0000 && !last.err
    ensures var turn := Turn([], false, st, DeviceOnly(n) + [Irq(last, last)], true, last);
            turn.Valid() && turn.Truthful() && Attended(turn, n)
  {
    hide DeviceSteps, Serves;
    WorkSteps(n);
    var during := DeviceOnly(n) + [Irq(last, last)];
    assert during[..n] == DeviceOnly(n);
    ServesAtEnd(Turn([], false, st, during, true, last), n);
  }

  lemma FewerServed(turn: Turn, k: nat, n: nat, most: nat)
    requires Serves(turn, k, most) && n <= most
    ensures Serves(turn, k, n)
  {
  }

  lemma AttendedRound(c: Conf, id: Id, sdesc: seq<Seg>, turn: Turn, g: Stage, n: nat, e1: Eng, rv: Rv)
    requires RoundEnds(c, id, sdesc, turn, g, n, e1, rv) && !g.e.request && Attended(turn, |sdesc|)
    ensures rv == Ok && !e1.request
  {
    hide Idle, Round, SliceLen, Serves, NoOffline;
    var k :| Serves(turn, k, |sdesc|);
    FewerServed(turn, k, n, |sdesc|);
    NoOfflineRequest(g.e.request, turn.before);
    var pieces := sdesc[g.from..g.from + n];
    ServedRound(c, g.e, id, pieces, g.ep, turn, k);
    RoundStaysOnline(c, g.e, id, pieces, g.ep, turn);
  }

  lemma {:induction false} StagesOnline(c: Conf, id: Id, sdesc: seq<Seg>, sched: nat -> Turn, t: seq<Stage>, i: nat)
    requires Completes(c, id, sdesc, sched, t) && i < |t| && !t[0].e.request && AllAttended(sched, |sdesc|)
    ensures !t[i].e.request
  {
    hide Idle, RoundEnds, Attended;
    if i > 0 {
      StagesOnline(c, id, sdesc, sched, t, i - 1);
      assert Follows(c, id, sdesc, sched(i - 1), t[i - 1], t[i - 1 + 1]);
      AttendedRound(c, id, sdesc, sched(i - 1), t[i - 1], t[i].from - t[i - 1].from, t[i].e, Ok);
    }
  }

  /** On an engine that is online, a schedule that attends to every transfer lets no round fail: the device
      works, its reports are served without an error, and the request completes. */
  lemma AttendedSucceeds(c: Conf, id: Id, sdesc: seq<Seg>, sched: nat -> Turn, t: seq<Stage>, n: nat, e1: Eng, rv: Rv)
    requires Completes(c, id, sdesc, sched, t) && !t[0].e.request && AllAttended(sched, |sdesc|)
    requires RoundEnds(c, id, sdesc, sched(|t| - 1), t[|t| - 1], n, e1, rv)
    ensures rv == Ok
  {
    hide Idle, RoundEnds, Attended;
    StagesOnline(c, id, sdesc, sched, t, |t| - 1);
    AttendedRound(c, id, sdesc, sched(|t| - 1), t[|t| - 1], n, e1, rv);
  }

  // --- the loop, start to end ----------------------------------------------------------------------------

  lemma StartsAt(c: Conf, id: Id, sdesc: seq<Seg>, sched: nat -> Turn, g: Stage)
    requires Idle(c, g.e) && g.from == 0
    ensures Completes(c, id, sdesc, sched, [g]) && TotalLen(sdesc[..0]) == 0
  {
    hide Idle;
  }

  lemma LengthExtends(sdesc: seq<Seg>, i: nat, n: nat)
    requires i + n <= |sdesc|
    ensures TotalLen(sdesc[..i + n]) == TotalLen(sdesc[..i]) + TotalLen(sdesc[i..i + n])
  {
    hide TotalLen;
    assert sdesc[..i + n] == sdesc[..i] + sdesc[i..i + n];
    FlattenConcat(sdesc[..i], sdesc[i..i + n]);
  }

  lemma RoundIdles(c: Conf, id: Id, sdesc: seq<Seg>, turn: Turn, g: Stage, n: nat, e1: Eng)
    requires RoundEnds(c, id, sdesc, turn, g, n, e1, Ok)
    ensures Idle(c, e1)
  {
    hide Idle, Round, SliceLen, LinearCopy, Flatten;
    var moved := RoundFacts(c, g.e, id, sdesc[g.from..g.from + n], g.ep, turn);
  }

  /** Where the loop stops: all rounds completed, or the round after stage t[|t| - 1] did not. */
  ghost predicate Stops(c: Conf, id: Id, sdesc: seq<Seg>, sched: nat -> Turn, t: seq<Stage>, idx: nat, e1: Eng, rv: Rv) {
    && Completes(c, id, sdesc, sched, t)
    && var k, g := |t| - 1, t[|t| - 1];
       if rv == Ok then e1 == g.e && g.from == idx == |sdesc|
       else g.from <= idx <= |sdesc| && RoundEnds(c, id, sdesc, sched(k), g, idx - g.from, e1, rv)
  }

  /** What a request promises, whatever the schedule.
      - It completes with as many transfers as the ring position requires.
      - A round is rejected exactly if the device was seen offline or the engine was under a shutdown
        request; a request is not rejected, and completes, if the engine is online and every transfer is
        attended to.
      - Afterwards the queue is empty and the invariant holds, unless the status could not be read after a
        timeout: then the transfer is still queued although its request is released.
      - desc_used is back to its value on entry, except after a rejected transfer, whose descriptors stay
        accounted for.
      - The descriptors of the transfers are all-zero again, except those of a rejected transfer, and no other
        slot of the ring has changed.
      - If the device reports truthfully, it has moved a prefix of the linear copy that contains every
        completed transfer, hence the whole copy on success. */
  ghost predicate Promises(c: Conf, id: Id, sdesc: seq<Seg>, sched: nat -> Turn, t: seq<Stage>, idx: nat, e1: Eng, rv: Rv,
                           moved: nat)
    requires t != []
  {
    var k, g, g0 := |t| - 1, t[|t| - 1], t[0];
    && g0.e.index < |g0.e.ring|
    && (rv != Ok ==> g.from < idx <= |sdesc|)
    && (rv == Ok ==> k == |Slices(g0.e.index, |sdesc|, |g0.e.ring|)|)
    && (rv == Busy <==> rv != Ok && (sched(k).offline || RequestAfter(g.e.request, sched(k).before)))
    && (!g0.e.request && AllAttended(sched, |sdesc|) ==> rv == Ok)
    && Settled(c, id, sched(k), e1, rv)
    && e1.used == g0.e.used + (if rv == Busy then idx - g.from else 0)
    && g.from <= idx <= |sdesc| && Leaves(c, sdesc[g.from..idx], g, g0, e1, rv, idx)
    && (AllTruthful(sched) ==> Moved(c, sdesc, g.from, g0, e1, moved))
  }

  lemma Epilogue(c: Conf, id: Id, sdesc: seq<Seg>, sched: nat -> Turn, t: seq<Stage>, idx: nat, e1: Eng, rv: Rv)
    returns (moved: nat)
    requires Stops(c, id, sdesc, sched, t, idx, e1, rv)
    ensures Promises(c, id, sdesc, sched, t, idx, e1, rv, moved)
  {
    hide Idle, RoundEnds, Follows, RequestAfter, JobAt, TotalLen, AllAttended, Attended, WipedRound;
    var k, g, g0 := |t| - 1, t[|t| - 1], t[0];
    StagesReached(c, id, sdesc, sched, t, k);
    if rv == Ok {
      CompleteFacts(c, sdesc, g0, g, k, AllTruthful(sched));
      moved := TotalLen(sdesc);
    } else {
      var n := idx - g.from;
      moved := EndFacts(c, id, sdesc, sched(k), g0, g, k, AllTruthful(sched), n, e1, rv);
      if !g0.e.request && AllAttended(sched, |sdesc|) {
        AttendedSucceeds(c, id, sdesc, sched, t, n, e1, rv);
      }
    }
  }
}
