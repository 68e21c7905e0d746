/** What holds over whole runs of the engine, for every interleaving of its steps. */
module EngineRuns {
  import opened Descriptor
  import opened Fetch
  import opened Scatter
  import opened Compile
  import opened EngineModel
  import opened EngineInvariant

  ghost predicate Goes(c: Conf, e: Eng, ev: Event, e1: Eng) {
    e.Known() && Legal(c, e, ev) && e1 == Apply(c, e, ev)
  }

  /** The states of the engine at lock releases, and the steps between them. */
  ghost predicate IsRun(c: Conf, s: seq<Eng>, evs: seq<Event>) {
    |s| == |evs| + 1 && forall i | 0 <= i < |evs| :: Goes(c, s[i], evs[i], s[i + 1])
  }

  /** Every reachable state satisfies the invariant: a running engine has a non-empty queue, the
      device is programmed with the head transfer, nothing is dequeued yet, a transfer is queued
      exactly while SUBMITTED, and the queue is FIFO. */
  lemma {:induction false} InvAlways(c: Conf, s: seq<Eng>, evs: seq<Event>, i: nat)
    requires IsRun(c, s, evs) && Inv(c, s[0]) && i < |s|
    ensures Inv(c, s[i])
  {
    hide Inv, Legal, Apply;
    if i > 0 {
      InvAlways(c, s, evs, i - 1);
      assert Goes(c, s[i - 1], evs[i - 1], s[i - 1 + 1]);
      StepKeeps(c, s[i - 1], evs[i - 1]);
    }
  }

  // --- offline ----------------------------------------------------------------------------

  /** A stopped engine under a shutdown request: no step but online starts it again. */
  lemma StaysDown(c: Conf, e: Eng, ev: Event)
    requires Inv(c, e) && Legal(c, e, ev) && e.request && ev != EvOnline
    ensures var e1 := Apply(c, e, ev);
            e1.request && !e1.running && e1.hw.log == e.hw.log
  {
    hide Loaded, OnHead, Place;
    StepKeeps(c, e, ev);
    if ev.EvTimeout? { StopKeeps(c, e) by { InvBase(c, e); } }
  }

  /** After the engine was taken offline it never runs, and the device moves nothing, until online. */
  lemma {:induction false} OfflineIsQuiet(c: Conf, s: seq<Eng>, evs: seq<Event>, i: nat)
    requires IsRun(c, s, evs) && Inv(c, s[0]) && i < |s|
    requires |evs| > 0 && evs[0] == EvOffline && 0 < i
    requires forall k | 1 <= k < i :: evs[k] != EvOnline
    ensures s[i].request && !s[i].running && s[i].hw.log == s[1].hw.log && !s[i].idle
  {
    hide Loaded, OnHead, Legal;
    InvAlways(c, s, evs, i);
    if i > 1 {
      OfflineIsQuiet(c, s, evs, i - 1);
      InvAlways(c, s, evs, i - 1);
      assert Goes(c, s[i - 1], evs[i - 1], s[i - 1 + 1]);
      StaysDown(c, s[i - 1], evs[i - 1]);
    }
  }

  // --- the queue is first in, first out -----------------------------------------------------

  ghost predicate Grows(e: Eng, e1: Eng) {
    e.submitted <= e1.submitted && e.removed <= e1.removed
  }

  lemma {:induction false} ServeListGrows(e: Eng, cnt: int)
    requires e.Known()
    ensures Grows(e, ServeList(e, cnt).0)
    decreases |e.queue|
  {
    hide ServeList;
    if e.queue == [] || cnt <= e.Head().num {
      ServeListEnds(e, cnt);
    } else {
      ServeListGoesOn(e, cnt);
      ServeListGrows(Pop(e, e.Head().(state := Completed)).(dequeued := e.dequeued + e.Head().num),
                     cnt - e.Head().num);
    }
  }

  lemma GrowsTransitive(a: Eng, b: Eng, c: Eng)
    requires Grows(a, b) && Grows(b, c)
    ensures Grows(a, c)
  {
  }

  lemma FinalGrows(e: Eng, cnt: int)
    requires e.Known()
    ensures Grows(e, Final(e, cnt))
  {
  }

  lemma ResumeGrows(e: Eng, st: Status)
    requires e.Known()
    ensures Grows(e, Resume(e, st))
  {
  }

  lemma ServiceGrows(e: Eng, r: Report)
    requires e.Known()
    ensures Grows(e, Service(e, r))
  {
    hide ServeList, Sub32, Grows, Final, Resume;
    var e1 := Quiesce(e, r);
    QuiesceGrows(e, r);
    if e.running && r.Count() != 0 {
      var cnt := Sub32(r.Count(), e1.dequeued);
      ServeListGrows(e1, cnt);
      ServeListKnown(e1, cnt);
      var (e2, left) := ServeList(e1, cnt);
      FinalKnown(e2, left);
      FinalGrows(e2, left);
      ResumeGrows(Final(e2, left), r.again);
      GrowsTransitive(e, e1, e2);
      GrowsTransitive(e, e2, Final(e2, left));
      GrowsTransitive(e, Final(e2, left), Resume(Final(e2, left), r.again));
    }
  }

  lemma QuiesceGrows(e: Eng, r: Report)
    ensures Grows(e, Quiesce(e, r)) && Grows(e, e.(status := r.st))
  {
  }

  lemma StepGrows(c: Conf, e: Eng, ev: Event)
    requires e.Known() && Legal(c, e, ev)
    ensures Grows(e, Apply(c, e, ev))
  {
    match ev
    case EvBuild(_, _, _) =>
      hide Loaded, Place, LinearCopy, Flatten;
    case EvQueue(id, offline, st) =>
      hide Queue, Grows, Loaded;
      QueueGrows(e, id, offline, st);
    case EvService(r) =>
      hide Service, Grows;
      ServiceGrows(e, r);
    case EvTimeout(id, st) =>
      hide Timeout, Grows;
      TimeoutGrows(e, id, st);
    case EvOffline =>
    case EvOnline =>
    case EvHw =>
      hide Executes, Step;
  }

  lemma QueueGrows(e: Eng, id: Id, offline: bool, st: Status)
    requires e.Known() && id in e.xfer
    ensures Grows(e, Queue(e, id, offline, st).0)
  {
  }

  lemma TimeoutGrows(e: Eng, id: Id, st: Status)
    requires e.Known() && id in e.xfer
    ensures Grows(e, Timeout(e, id, st))
  {
    hide Abort;
    AbortGrows(e.(status := st), id);
  }

  lemma AbortGrows(e: Eng, id: Id)
    requires e.Known() && id in e.xfer
    ensures Grows(e, Abort(e, id))
  {
  }

  /** Transfers leave the queue in the order they were submitted: at every point of a run the
      removed transfers are a prefix of the submissions, and both histories only grow. */
  lemma {:induction false} RunIsFifo(c: Conf, s: seq<Eng>, evs: seq<Event>, i: nat, j: nat)
    requires IsRun(c, s, evs) && Inv(c, s[0]) && i <= j < |s|
    ensures Grows(s[i], s[j]) && s[j].removed + s[j].queue == s[j].submitted
  {
    hide Legal, Apply, Loaded, OnHead;
    InvAlways(c, s, evs, j);
    if i < j {
      RunIsFifo(c, s, evs, i, j - 1);
      assert Goes(c, s[j - 1], evs[j - 1], s[j - 1 + 1]);
      StepGrows(c, s[j - 1], evs[j - 1]);
    }
  }

  // --- one service call ------------------------------------------------------------------------

  /** Descriptors of the first k queued transfers. */
  function PrefixSum(e: Eng, k: nat): nat
    requires e.Known() && k <= |e.queue|
  {
    if k == 0 then 0 else PrefixSum(e, k - 1) + e.xfer[e.queue[k - 1]].num
  }

  /** The first k transfers left the queue in order, marked as completed; nothing else changed. */
  ghost predicate FirstServed(e: Eng, e1: Eng, k: nat)
    requires e.Known() && k <= |e.queue|
  {
    && e1.queue == e.queue[k..] && e1.removed == e.removed + e.queue[..k]
    && e1.xfer.Keys == e.xfer.Keys
    && (forall j | 0 <= j < k :: e1.xfer[e.queue[j]] == e.xfer[e.queue[j]].(state := Completed))
    && (forall id | id in e.xfer && id !in e.queue[..k] :: e1.xfer[id] == e.xfer[id])
  }

  /** k is the longest prefix whose running descriptor sum stays strictly below the count, and
      what the loop adds to desc_dequeued it takes from the count. */
  ghost predicate CountsFirst(e: Eng, cnt: int, e1: Eng, left: int, k: nat)
    requires e.Known() && k <= |e.queue|
  {
    && left == cnt - PrefixSum(e, k) && e1.dequeued + left == e.dequeued + cnt
    && (forall j | 1 <= j <= k :: PrefixSum(e, j) < cnt)
    && (k < |e.queue| ==> cnt <= PrefixSum(e, k + 1))
  }

  function ServedHead(e: Eng): Eng
    requires e.Known() && e.queue != []
  {
    Pop(e, e.Head().(state := Completed)).(dequeued := e.dequeued + e.Head().num)
  }

  lemma {:induction false} PrefixSumTail(e: Eng, k: nat)
    requires e.Known() && Distinct(e.queue) && 1 <= k <= |e.queue|
    ensures PrefixSum(e, k) == e.Head().num + PrefixSum(ServedHead(e), k - 1)
  {
    if k > 1 { PrefixSumTail(e, k - 1); }
  }

  lemma FirstServedStep(e: Eng, e1: Eng, k: nat)
    requires e.Known() && Distinct(e.queue) && e.queue != [] && k < |e.queue|
    requires FirstServed(ServedHead(e), e1, k)
    ensures FirstServed(e, e1, k + 1)
  {
    QueueStep(e, e1, k);
    forall j | 0 <= j < k + 1 ensures e1.xfer[e.queue[j]] == e.xfer[e.queue[j]].(state := Completed) { ServedStep(e, e1, k, j); }
    forall id | id in e.xfer && id !in e.queue[..k + 1] ensures e1.xfer[id] == e.xfer[id] { UnservedStep(e, e1, k, id); }
    hide ServedHead, Distinct;
  }

  lemma QueueStep(e: Eng, e1: Eng, k: nat)
    requires e.Known() && e.queue != [] && k < |e.queue| && FirstServed(ServedHead(e), e1, k)
    ensures e1.queue == e.queue[k + 1..] && e1.removed == e.removed + e.queue[..k + 1] && e1.xfer.Keys == e.xfer.Keys
  {
    OneMoreServed(e.queue, k);
    Regroup(e.removed, [e.queue[0]], e.queue[1..][..k]);
  }

  lemma ServedStep(e: Eng, e1: Eng, k: nat, j: nat)
    requires e.Known() && Distinct(e.queue) && e.queue != [] && j <= k < |e.queue| && FirstServed(ServedHead(e), e1, k)
    ensures e.queue[j] in e1.xfer && e1.xfer[e.queue[j]] == e.xfer[e.queue[j]].(state := Completed)
  {
    var e0 := ServedHead(e);
    if j > 0 { assert e0.queue[j - 1] == e.queue[j]; } else { assert e.queue[0] !in e0.queue[..k]; }
  }

  lemma UnservedStep(e: Eng, e1: Eng, k: nat, id: Id)
    requires e.Known() && e.queue != [] && k < |e.queue| && FirstServed(ServedHead(e), e1, k)
    requires id in e.xfer && id !in e.queue[..k + 1]
    ensures id in e1.xfer && e1.xfer[id] == e.xfer[id]
  {
    OneMoreServed(e.queue, k);
    assert id != e.queue[0] && id !in ServedHead(e).queue[..k];
  }

  lemma OneMoreServed(q: seq<Id>, k: nat)
    requires k < |q|
    ensures q[..k + 1] == [q[0]] + q[1..][..k] && q[k + 1..] == q[1..][k..]
    ensures forall id :: id in q[..k + 1] <==> id == q[0] || id in q[1..][..k]
  {
    assert q[..k + 1] == [q[0]] + q[1..][..k];
  }

  lemma CountsFirstStep(e: Eng, cnt: int, e1: Eng, left: int, k: nat)
    requires e.Known() && Distinct(e.queue) && e.queue != [] && k < |e.queue| && e.Head().num < cnt
    requires CountsFirst(ServedHead(e), cnt - e.Head().num, e1, left, k)
    ensures CountsFirst(e, cnt, e1, left, k + 1)
  {
    hide PrefixSum;
    var e0 := ServedHead(e);
    PrefixSumTail(e, k + 1);
    if k + 1 < |e.queue| { PrefixSumTail(e, k + 2); }
    forall j | 1 <= j <= k + 1 ensures PrefixSum(e, j) < cnt {
      PrefixSumTail(e, j);
      if j == 1 { NoPrefix(e0); } else { assert PrefixSum(e0, j - 1) < cnt - e.Head().num; }
    }
  }

  lemma NoPrefix(e: Eng)
    requires e.Known()
    ensures PrefixSum(e, 0) == 0
    ensures e.queue != [] ==> PrefixSum(e, 1) == e.Head().num
  {
  }

  /** One service call completes the longest prefix of the queue below the reported count. */
  lemma {:induction false} ServeListIsLongestPrefix(e: Eng, cnt: int)
    requires e.Known() && Distinct(e.queue)
    ensures var (e1, left) := ServeList(e, cnt);
            var k := |e.queue| - |e1.queue|;
            0 <= k && FirstServed(e, e1, k) && CountsFirst(e, cnt, e1, left, k)
    decreases |e.queue|
  {
    hide FirstServed, CountsFirst, ServeList;
    if e.queue != [] && cnt > e.Head().num {
      ServeListGoesOn(e, cnt);
      var e0 := ServedHead(e);
      ServeListIsLongestPrefix(e0, cnt - e.Head().num);
      var (e1, left) := ServeList(e0, cnt - e.Head().num);
      var k := |e0.queue| - |e1.queue|;
      FirstServedStep(e, e1, k);
      CountsFirstStep(e, cnt, e1, left, k);
    } else {
      ServeListEnds(e, cnt);
      NothingServed(e, cnt);
    }
  }

  lemma NothingServed(e: Eng, cnt: int)
    requires e.Known() && (e.queue == [] || cnt <= e.Head().num)
    ensures FirstServed(e, e, 0) && CountsFirst(e, cnt, e, cnt, 0)
  {
    NoPrefix(e);
  }

  // --- a completed transfer has been copied ------------------------------------------------------

  /** The count a service call sees is not ahead of the device in its current run. */
  predicate Fresh(e: Eng, r: Report) {
    r.count <= e.hw.executed && r.reg <= e.hw.executed
  }

  /** The device has moved exactly the job of the head transfer since the run began. */
  ghost predicate HeadCopied(e: Eng)
    requires e.queue != [] && e.Known()
  {
    e.hw.mark <= |e.hw.log| && e.hw.log == e.hw.log[..e.hw.mark] + e.Head().job
  }

  /** What a service call with this count makes of the k-th queued transfer. */
  function Verdict(e: Eng, cnt: int, err: bool, k: nat): Xfer
    requires e.Known() && k < |e.queue|
  {
    var x := e.xfer[e.queue[k]];
    if PrefixSum(e, k + 1) < cnt then x.(state := Completed)
    else if cnt <= PrefixSum(e, k) then x
    else if err then x.(state := Failed)
    else if PrefixSum(e, k + 1) == cnt then x.(state := Completed, cmpl := x.num)
    else x.(state := Failed, cmpl := cnt - PrefixSum(e, k))
  }

  /** What the count left for it makes of the transfer the completion loop stops at. */
  function Judged(x: Xfer, left: int, err: bool): Xfer {
    if err then x.(state := Failed)
    else if x.num <= left then x.(state := Completed, cmpl := x.num)
    else x.(state := Failed, cmpl := if left < 0 then 0 else left)
  }

  /** The error bit a service call goes by: that of the status register if it reads it, which it does without
      a written-back count or if the write-back has its error flag set; else the one it read last. */
  function ErrorSeen(e: Eng, r: Report): bool {
    if r.count == 0 || r.err then r.st.err else e.status.err
  }

  /** How a service call judges every queued transfer: COMPLETED exactly when the count reaches past it, or
      just its last descriptor with no error bit set; FAILED if the count ends inside it, or at its end with
      an error bit; otherwise it stays on the queue as it was. The device moves nothing. */
  lemma QueueVerdict(c: Conf, e: Eng, r: Report, k: nat)
    requires Inv(c, e) && e.running && r.Valid() && (r.count == 0 ==> !r.st.busy) && r.Count() != 0
    requires k < |e.queue|
    ensures var e1 := Service(e, r);
            && e.queue[k] in e1.xfer && e1.xfer[e.queue[k]] == Verdict(e, r.Count(), ErrorSeen(e, r), k)
            && (e.queue[k] in e1.queue <==> r.Count() <= PrefixSum(e, k))
            && e1.hw.log == e.hw.log
  {
    hide Inv, Base, ServeList, Final, Resume, PrefixSum, Verdict;
    var e1 := Quiesce(e, r);
    QuiesceBase(c, e, r);
    SamePrefix(e, e1, k);
    VerdictOnQueue(c, e1, r.Count(), r.again, k);
    hide *;
    ServiceKeeps(c, e, r);
    QueuedIff(c, Service(e, r), e.queue[k]);
    VerdictState(c, e, r.Count(), ErrorSeen(e, r), k);
  }

  /** In terms of states: still SUBMITTED exactly if the count does not reach the transfer. */
  lemma VerdictState(c: Conf, e: Eng, cnt: nat, err: bool, k: nat)
    requires Inv(c, e) && k < |e.queue|
    ensures e.Known()
    ensures Verdict(e, cnt, err, k).state ==
              if PrefixSum(e, k + 1) < cnt || (PrefixSum(e, k + 1) == cnt && !err) then Completed
              else if PrefixSum(e, k) < cnt then Failed
              else Submitted
    ensures Verdict(e, cnt, err, k).state == Submitted <==> cnt <= PrefixSum(e, k)
  {
    hide Base, PrefixSum;
    InvBase(c, e);
    BaseKnown(c, e);
    QueuedFacts(c, e, k);
    OneDescriptorMore(e, k);
  }

  /** What else a service call changes. A stopped engine has its status read; a call that sees no count also
      stops the device. One that sees a count restarts the device exactly if transfers are left, and then
      reads the status again. */
  lemma ServiceEnds(c: Conf, e: Eng, r: Report)
    requires Inv(c, e) && r.Valid() && (r.count == 0 ==> !r.st.busy)
    ensures !e.running ==> Service(e, r) == e.(status := r.st)
    ensures e.running && r.Count() == 0 ==>
      Service(e, r) == e.(status := r.st, running := false, hw := e.hw.(run := false))
    ensures e.running && r.Count() != 0 ==>
      var e1 := Service(e, r);
      && (e1.running <==> e1.queue != []) && !e1.request
      && e1.status == if e1.running then r.again else if r.count == 0 || r.err then r.st else e.status
  {
    hide Inv, Base, Sub32, ServeList, Final;
    ServiceKeeps(c, e, r);
    if e.running && r.Count() != 0 {
      QuiesceBase(c, e, r);
      var e1 := Quiesce(e, r);
      var cnt := Sub32(r.Count(), e1.dequeued);
      ServeListKeeps(c, e1, cnt);
      BaseKnown(c, ServeList(e1, cnt).0);
      FinalKeeps(c, ServeList(e1, cnt).0, ServeList(e1, cnt).1);
      NotRequested(c, e);
    }
  }

  /** What was dequeued before is subtracted from the count, in 32 bits: if the rest does not reach past the
      head, the head alone is taken off and judged by it. */
  lemma ServiceSubtracts(e: Eng, r: Report)
    requires e.Known() && Distinct(e.queue) && e.running && r.Count() != 0 && e.queue != []
    requires r.Valid() && 0 <= e.dequeued < 0x1_0000_0000
    ensures var cnt := (if e.dequeued <= r.Count() then r.Count() - e.dequeued else r.Count() + 0x1_0000_0000 - e.dequeued);
            cnt <= e.Head().num ==>
              && Service(e, r).removed == e.removed + [e.queue[0]] && Service(e, r).queue == e.queue[1..]
              && Service(e, r).xfer == e.xfer[e.queue[0] := Judged(e.Head(), cnt, ErrorSeen(e, r))]
  {
    hide ServeList, Final, Resume, Quiesce, Judged;
    QuiesceIs(e, r);
    var e1 := Quiesce(e, r);
    var cnt := Sub32(r.Count(), e1.dequeued);
    if cnt <= e1.Head().num {
      ServeListEnds(e1, cnt);
      TakesHead(e1, cnt, r.again);
    }
  }

  lemma QuiesceIs(e: Eng, r: Report)
    requires e.Known()
    ensures var e1 := Quiesce(e, r);
            && e1.Known() && e1.queue == e.queue && e1.xfer == e.xfer && e1.removed == e.removed
            && e1.dequeued == e.dequeued && e1.status.err == ErrorSeen(e, r)
  {
  }

  lemma TakesHead(e: Eng, cnt: int, st: Status)
    requires e.Known() && e.queue != []
    ensures Final(e, cnt).Known()
    ensures var e1 := Resume(Final(e, cnt), st);
            && e1.queue == e.queue[1..] && e1.removed == e.removed + [e.queue[0]]
            && e1.xfer == e.xfer[e.queue[0] := Judged(e.Head(), cnt, e.status.err)]
  {
    hide Final, Resume, Judged;
    FinalTakes(e, cnt);
    ResumeLeaves(Final(e, cnt), st);
  }

  lemma FinalTakes(e: Eng, cnt: int)
    requires e.Known() && e.queue != []
    ensures var e1 := Final(e, cnt);
            && e1.Known() && e1.queue == e.queue[1..] && e1.removed == e.removed + [e.queue[0]]
            && e1.xfer == e.xfer[e.queue[0] := Judged(e.Head(), cnt, e.status.err)]
  {
    FinalKnown(e, cnt);
    hide Eng.Known;
  }

  lemma ResumeLeaves(e: Eng, st: Status)
    requires e.Known()
    ensures var e1 := Resume(e, st); e1.queue == e.queue && e1.removed == e.removed && e1.xfer == e.xfer
  {
  }

  lemma NotRequested(c: Conf, e: Eng)
    requires Inv(c, e) && e.running
    ensures !e.request
  {
  }

  lemma QueuedIff(c: Conf, e: Eng, id: Id)
    requires Inv(c, e) && id in e.xfer
    ensures id in e.queue <==> e.xfer[id].state == Submitted
  {
    hide Loaded, OnHead;
  }

  /** Before it goes through the queue, a service call stops the device; it starts counting at 0. */
  lemma QuiesceBase(c: Conf, e: Eng, r: Report)
    requires Inv(c, e) && e.running && r.Valid() && (r.count == 0 ==> !r.st.busy) && r.Count() != 0
    ensures var e1 := Quiesce(e, r);
            && Base(c, e1) && !e1.running && !e1.hw.run && e1.hw.log == e.hw.log
            && e1.Known() && e1.queue == e.queue && e1.xfer == e.xfer && Sub32(r.Count(), e1.dequeued) == r.Count()
            && e1.status.err == ErrorSeen(e, r)
  {
    hide Loaded, OnHead, Base;
    InvBase(c, e);
    var e0 := if r.count == 0 || r.err then e.(status := r.st) else e;
    BaseStatus(c, e, r.st);
    StopKeeps(c, e0);
    InvBase(c, Stop(e0));
  }

  lemma {:induction false} SamePrefix(e: Eng, e1: Eng, k: nat)
    requires e.Known() && e1.Known() && e1.queue == e.queue && e1.xfer == e.xfer && k < |e.queue|
    ensures PrefixSum(e1, k) == PrefixSum(e, k) && PrefixSum(e1, k + 1) == PrefixSum(e, k + 1)
    ensures forall cnt: int, err: bool :: Verdict(e1, cnt, err, k) == Verdict(e, cnt, err, k)
  {
    if k > 0 { SamePrefix(e, e1, k - 1); }
  }

  lemma FinalVerdict(e: Eng, cnt: int)
    requires e.Known() && Distinct(e.queue)
    ensures var e1 := Final(e, cnt);
            && e1.Known() && e1.hw.log == e.hw.log && e1.xfer.Keys == e.xfer.Keys
            && (forall id | id in e.xfer && (e.queue == [] || id != e.queue[0]) :: e1.xfer[id] == e.xfer[id])
            && (e.queue != [] ==>
                  e1.xfer[e.queue[0]] == Judged(e.Head(), cnt, e.status.err))
  {
  }

  lemma ResumeVerdict(e: Eng, st: Status)
    requires e.Known()
    ensures var e1 := Resume(e, st);
            e1.xfer == e.xfer && e1.hw.log == e.hw.log
  {
  }

  /** What the final transfer and the restart do to one transfer. */
  lemma EndVerdict(e: Eng, cnt: int, st: Status, id: Id)
    requires e.Known() && Distinct(e.queue) && id in e.xfer
    ensures Final(e, cnt).Known()
    ensures var e1 := Resume(Final(e, cnt), st);
            && id in e1.xfer && e1.hw.log == e.hw.log
            && e1.xfer[id] ==
                 (if e.queue == [] || e.queue[0] != id then e.xfer[id] else Judged(e.Head(), cnt, e.status.err))
  {
    hide Final, Resume, Judged;
    FinalVerdict(e, cnt);
    ResumeVerdict(Final(e, cnt), st);
  }

  lemma VerdictOnQueue(c: Conf, e: Eng, cnt: nat, again: Status, k: nat)
    requires Base(c, e) && !e.running && !e.hw.run && 0 < cnt && e.Known() && k < |e.queue|
    ensures var (e2, left) := ServeList(e, cnt);
            && e2.Known() && Final(e2, left).Known()
            && var e1 := Resume(Final(e2, left), again);
               && e.queue[k] in e1.xfer && e1.xfer[e.queue[k]] == Verdict(e, cnt, e.status.err, k)
               && e1.hw.log == e.hw.log
  {
    hide ServeList, Final, Resume, PrefixSum, Loaded;
    ServeListKeeps(c, e, cnt);
    ServeListIsLongestPrefix(e, cnt);
    var (e2, left) := ServeList(e, cnt);
    QueuedFacts(c, e, k);
    ServedVerdict(e, cnt, e2, left, k);
    EndVerdict(e2, left, again, e.queue[k]);
  }

  /** The loop has left e2, with `left` of the count. */
  ghost predicate LoopLeft(e: Eng, cnt: int, e2: Eng, left: int) {
    && e.Known() && e2.Known() && Distinct(e.queue) && |e2.queue| <= |e.queue|
    && FirstServed(e, e2, |e.queue| - |e2.queue|) && CountsFirst(e, cnt, e2, left, |e.queue| - |e2.queue|)
  }

  lemma BeforeFirstLeft(e: Eng, cnt: nat, e2: Eng, left: int, k: nat)
    requires LoopLeft(e, cnt, e2, left) && k < |e.queue| - |e2.queue|
    ensures Distinct(e2.queue) && PrefixSum(e, k + 1) < cnt
    ensures e.queue[k] in e2.xfer && e2.xfer[e.queue[k]] == e.xfer[e.queue[k]].(state := Completed)
    ensures e2.queue != [] ==> e2.queue[0] != e.queue[k]
  {
    hide PrefixSum;
    assert e2.xfer[e.queue[k]] == e.xfer[e.queue[k]].(state := Completed);
  }

  lemma FromFirstLeft(e: Eng, cnt: nat, e2: Eng, left: int, k: nat)
    requires LoopLeft(e, cnt, e2, left) && |e.queue| - |e2.queue| <= k < |e.queue| && 0 < cnt
    ensures Distinct(e2.queue) && e2.queue != []
    ensures e.queue[k] in e2.xfer && e2.xfer[e.queue[k]] == e.xfer[e.queue[k]]
    ensures e2.queue[0] == e.queue[k] <==> k == |e.queue| - |e2.queue|
    ensures var n := |e.queue| - |e2.queue|; PrefixSum(e, n) < cnt <= PrefixSum(e, n + 1) && left == cnt - PrefixSum(e, n)
  {
    hide PrefixSum, CountsFirst, Distinct, FirstServed;
    TailOf(e.queue, |e.queue| - |e2.queue|, k);
    LeftAlone(e, e2, |e.queue| - |e2.queue|, e.queue[k]);
    CountsAtFirst(e, cnt, e2, left);
  }

  lemma LeftAlone(e: Eng, e2: Eng, n: nat, id: Id)
    requires e.Known() && n <= |e.queue| && FirstServed(e, e2, n) && id in e.xfer && id !in e.queue[..n]
    ensures e2.queue == e.queue[n..] && id in e2.xfer && e2.xfer[id] == e.xfer[id]
  {
  }

  lemma TailOf(q: seq<Id>, n: nat, k: nat)
    requires Distinct(q) && n <= k < |q|
    ensures Distinct(q[n..]) && q[k] !in q[..n] && (q[n..][0] == q[k] <==> k == n)
  {
  }

  lemma CountsAtFirst(e: Eng, cnt: nat, e2: Eng, left: int)
    requires e.Known() && |e2.queue| < |e.queue| + 1 && 0 < cnt && e2.queue != []
    requires CountsFirst(e, cnt, e2, left, |e.queue| - |e2.queue|)
    ensures var n := |e.queue| - |e2.queue|; PrefixSum(e, n) < cnt <= PrefixSum(e, n + 1) && left == cnt - PrefixSum(e, n)
  {
    hide PrefixSum;
    NoPrefix(e);
  }

  /** The loop and the last transfer together: before, at and behind the first transfer the loop leaves. */
  lemma ServedVerdict(e: Eng, cnt: nat, e2: Eng, left: int, k: nat)
    requires LoopLeft(e, cnt, e2, left) && k < |e.queue| && 0 < cnt && e2.status == e.status
    requires e.xfer[e.queue[k]].state == Submitted && 0 < e.xfer[e.queue[k]].num
    ensures Distinct(e2.queue) && e.queue[k] in e2.xfer
    ensures Verdict(e, cnt, e.status.err, k) ==
              (if e2.queue == [] || e2.queue[0] != e.queue[k] then e2.xfer[e.queue[k]]
               else Judged(e2.Head(), left, e2.status.err))
  {
    hide PrefixSum, FirstServed, CountsFirst, Distinct;
    var n := |e.queue| - |e2.queue|;
    if k < n {
      BeforeFirstLeft(e, cnt, e2, left, k);
    } else {
      FromFirstLeft(e, cnt, e2, left, k);
      PrefixBefore(e, k, n);
      OneDescriptorMore(e, k);
    }
  }

  lemma QueuedFacts(c: Conf, e: Eng, k: nat)
    requires Base(c, e) && k < |e.queue|
    ensures e.queue[k] in e.xfer && e.xfer[e.queue[k]].state == Submitted && 0 < e.xfer[e.queue[k]].num
  {
    hide Chained, ChainMoves;
    assert Loaded(c, e.ring, e.xfer[e.queue[k]]);
  }

  lemma OneDescriptorMore(e: Eng, k: nat)
    requires e.Known() && k < |e.queue|
    ensures PrefixSum(e, k + 1) == PrefixSum(e, k) + e.xfer[e.queue[k]].num
  {
  }

  lemma {:induction false} PrefixBefore(e: Eng, k: nat, n: nat)
    requires e.Known() && n <= |e.queue| && k <= |e.queue|
    ensures n < k ==> PrefixSum(e, n + 1) <= PrefixSum(e, k)
  {
    if n + 1 < k { PrefixBefore(e, k - 1, n); }
  }

  /** The head transfer: COMPLETED exactly when the count reaches past it, or reaches its last descriptor with
      no error bit set; otherwise FAILED. */
  lemma HeadVerdict(c: Conf, e: Eng, r: Report)
    requires Inv(c, e) && e.running && r.Valid() && (r.count == 0 ==> !r.st.busy) && r.Count() != 0
    ensures var e1 := Service(e, r);
            var cnt := r.Count();
            && e.queue[0] in e1.xfer && e.queue[0] !in e1.queue
            && e1.xfer[e.queue[0]].state ==
                 (if cnt > e.Head().num || (cnt == e.Head().num && !ErrorSeen(e, r))
                  then Completed else Failed)
            && e1.hw.log == e.hw.log
  {
    hide Service, Quiesce, PrefixSum, Loaded, OnHead, Verdict;
    QueueVerdict(c, e, r, 0);
    VerdictState(c, e, r.Count(), ErrorSeen(e, r), 0);
    NoPrefix(e);
  }

  /** With a fresh count, COMPLETED means copied: the device has executed every descriptor of the
      transfer in this run, and what it moved is exactly the transfer's job. */
  lemma CompletedMeansCopied(c: Conf, e: Eng, r: Report)
    requires Inv(c, e) && e.running && r.Valid() && (r.count == 0 ==> !r.st.busy) && r.Count() != 0
    requires Fresh(e, r)
    ensures var e1 := Service(e, r);
            && e.queue[0] in e1.xfer
            && (e1.xfer[e.queue[0]].state == Completed <==>
                  e.hw.executed == e.Head().num == r.Count() && !ErrorSeen(e, r))
            && (e1.xfer[e.queue[0]].state == Completed ==> HeadCopied(e) && e1.hw.log == e.hw.log)
  {
    HeadVerdict(c, e, r);
    hide Service, Quiesce, Chained, LinkOk, Left, ChainMoves;
  }

  /** With a fresh count a service call settles at most the head transfer. */
  lemma FreshTouchesHead(c: Conf, e: Eng, r: Report, id: Id)
    requires Inv(c, e) && r.Valid() && (r.count == 0 ==> !r.st.busy) && Fresh(e, r)
    requires id in e.xfer && (e.running ==> e.queue[0] != id)
    ensures id in Service(e, r).xfer && Service(e, r).xfer[id] == e.xfer[id]
  {
    hide Inv, Base, ServeList, Final, Resume;
    if e.running && r.Count() != 0 {
      RunningFacts(c, e);
      QuiesceBase(c, e, r);
      var e1 := Quiesce(e, r);
      hide Quiesce;
      ServeListEnds(e1, r.Count());
      FinalVerdict(e1, r.Count());
      ResumeVerdict(Final(e1, r.Count()), r.again);
    }
  }

  lemma OnlyServiceCompletes(c: Conf, e: Eng, ev: Event, id: Id)
    requires Inv(c, e) && Legal(c, e, ev) && !ev.EvService?
    requires id in e.xfer && e.xfer[id].state == Submitted
    ensures id in Apply(c, e, ev).xfer && Apply(c, e, ev).xfer[id].state != Completed
  {
    hide Loaded, OnHead;
    match ev
    case EvBuild(_, _, _) =>
      hide Place, LinearCopy, Flatten;
    case EvQueue(other, offline, st) =>
      hide Inv;
    case EvTimeout(other, st) =>
      hide Inv;
    case EvOffline =>
    case EvOnline =>
    case EvHw =>
      hide Inv, Step, Executes;
  }

  /** In a run whose service calls see fresh counts, a transfer turns COMPLETED only at a point where
      the device has moved exactly its job since it was started on it. */
  lemma RunCopies(c: Conf, s: seq<Eng>, evs: seq<Event>, i: nat, id: Id)
    requires IsRun(c, s, evs) && Inv(c, s[0]) && i < |evs|
    requires evs[i].EvService? ==> Fresh(s[i], evs[i].report)
    requires id in s[i].xfer && s[i].xfer[id].state == Submitted
    requires id in s[i + 1].xfer && s[i + 1].xfer[id].state == Completed
    ensures s[i].Known() && s[i].queue != [] && s[i].queue[0] == id
    ensures HeadCopied(s[i]) && s[i + 1].hw.log == s[i].hw.log
  {
    hide Service, Quiesce, HeadCopied, Loaded, OnHead;
    InvAlways(c, s, evs, i);
    assert Goes(c, s[i], evs[i], s[i + 1]);
    if !evs[i].EvService? {
      OnlyServiceCompletes(c, s[i], evs[i], id);
    } else {
      var r := evs[i].report;
      if !s[i].running || s[i].queue[0] != id {
        FreshTouchesHead(c, s[i], r, id);
      } else if r.Count() == 0 {
        NoCount(s[i], r);
      } else {
        CompletedMeansCopied(c, s[i], r);
      }
    }
  }

  lemma NoCount(e: Eng, r: Report)
    requires e.Known() && e.running && r.Count() == 0
    ensures Service(e, r).xfer == e.xfer
  {
  }

  /** Descriptors of the k-th queued transfer the device has executed in its current run. */
  function ExecutedOf(e: Eng, k: nat): nat { if k == 0 then e.hw.executed else 0 }

  /** All the device has moved in its current run are those descriptors of the head transfer. */
  lemma OnlyHeadMoved(c: Conf, e: Eng)
    requires Inv(c, e) && e.running
    ensures e.hw.mark <= |e.hw.log| && e.Head().index + e.hw.executed <= |e.ring|
    ensures e.hw.log == e.hw.log[..e.hw.mark] + ChainMoves(e.ring, e.Head().index, e.hw.executed, c.mode)
  {
    hide Chained, Left, Programmed, DescMoves;
  }

  /** Without freshness it does not: a count left over from an earlier run completes a queued transfer,
      the head or one behind it, although the device has not executed it, exactly when it reaches the
      descriptors of the queue up to and including that transfer. */
  lemma CompletedButNotCopied(c: Conf, e: Eng, r: Report, k: nat)
    requires Inv(c, e) && e.running && r.Valid() && (r.count == 0 ==> !r.st.busy) && r.Count() != 0
    requires k < |e.queue|
    ensures var e1, x := Service(e, r), e.xfer[e.queue[k]];
            && e.queue[k] in e1.xfer
            && (e1.xfer[e.queue[k]].state == Completed && ExecutedOf(e, k) < x.num <==>
                  && ExecutedOf(e, k) < x.num && PrefixSum(e, k + 1) <= r.Count()
                  && (ErrorSeen(e, r) ==> PrefixSum(e, k + 1) < r.Count()))
  {
    hide Loaded, OnHead, PrefixSum, Service, Quiesce, Verdict;
    QueueVerdict(c, e, r, k);
    VerdictState(c, e, r.Count(), ErrorSeen(e, r), k);
  }

  /** An idle engine on which nothing is queued. */
  ghost predicate Quiet(c: Conf, e: Eng) {
    Inv(c, e) && e.queue == [] && !e.request
  }

  lemma QuietRing(c: Conf, e: Eng)
    requires Quiet(c, e)
    ensures 0 < |e.ring|
  {
  }

  /** Building and queueing a one-descriptor transfer on a quiet engine starts it. */
  lemma StartOne(c: Conf, e: Eng, id: Id, piece: Seg, ep: nat, st: Status)
    requires Quiet(c, e)
    ensures var e1 := Build(c, e, id, [piece], ep);
            && Goes(c, e, EvBuild(id, [piece], ep), e1) && e1.Known() && id in e1.xfer
            && var e2 := Queue(e1, id, false, st).0;
               && Goes(c, e1, EvQueue(id, false, st), e2) && Inv(c, e2) && e2.queue == [id] && e2.running && e2.hw.executed == 0
               && e2.hw.log == e.hw.log && e2.status == st
               && id in e2.xfer && e2.xfer[id].num == 1
  {
    hide Loaded, OnHead, Place, LinearCopy, Flatten;
    BuildKeeps(c, e, id, [piece], ep);
    BuiltIsLoaded(c, e, id, [piece], ep);
    QueueKeeps(c, Build(c, e, id, [piece], ep), id, false, st);
  }

  /** The device executes the only descriptor of the running transfer, but its waiter gives up. */
  lemma AbortOne(c: Conf, e: Eng, id: Id, st: Status)
    requires Inv(c, e) && e.queue == [id] && e.running && e.hw.executed == 0 && e.xfer[id].num == 1
    ensures var e1 := HwStep(c, e);
            && Goes(c, e, EvHw, e1) && e1.Known() && id in e1.xfer
            && e1.hw.run && e1.queue == [id] && e1.hw.executed == 1
            && Goes(c, e1, EvTimeout(id, st), Timeout(e1, id, st)) && Quiet(c, Timeout(e1, id, st))
  {
    hide Loaded, OnHead, Step, Executes;
    HwStepKeeps(c, e);
    TimeoutKeeps(c, HwStep(c, e), id, st);
  }

  lemma FalseCompletion(c: Conf, e: Eng, id: Id)
    requires Inv(c, e) && e.queue == [id] && e.running && e.xfer[id].num == 1 && !e.status.err
    ensures var r := Report(1, false, e.status, 1, e.status);
            && Goes(c, e, EvService(r), Service(e, r))
            && id in Service(e, r).xfer && Service(e, r).xfer[id].state == Completed
            && Service(e, r).hw.log == e.hw.log
  {
    HeadVerdict(c, e, Report(1, false, e.status, 1, e.status));
  }

  lemma RunConcat(c: Conf, s: seq<Eng>, evs: seq<Event>, t: seq<Eng>, evs': seq<Event>)
    requires IsRun(c, s, evs) && IsRun(c, t, evs') && s[|s| - 1] == t[0]
    ensures IsRun(c, s + t[1..], evs + evs')
  {
    hide Goes;
  }

  lemma ExecuteAndAbort(c: Conf, e: Eng, id: Id, piece: Seg, ep: nat, st: Status)
    returns (s: seq<Eng>, evs: seq<Event>)
    requires Quiet(c, e)
    ensures IsRun(c, s, evs) && s[0] == e && |evs| == 4 && Quiet(c, s[4])
    ensures s[3].hw.run && s[3].queue == [id] && s[3].hw.executed == 1
  {
    hide Goes, Inv, Quiet, Build, Queue, HwStep, Timeout;
    QuietRing(c, e);
    StartOne(c, e, id, piece, ep, st);
    var s1 := Build(c, e, id, [piece], ep);
    var s2 := Queue(s1, id, false, st).0;
    AbortOne(c, s2, id, st);
    var s3 := HwStep(c, s2);
    s := [e, s1, s2, s3, Timeout(s3, id, st)];
    evs := [EvBuild(id, [piece], ep), EvQueue(id, false, st), EvHw, EvTimeout(id, st)];
  }

  lemma StartAndReport(c: Conf, e: Eng, id: Id, piece: Seg, ep: nat)
    returns (s: seq<Eng>, evs: seq<Event>)
    requires Quiet(c, e)
    ensures IsRun(c, s, evs) && s[0] == e && |evs| == 3
    ensures evs[2].EvService? && evs[2].report.count == 1
    ensures s[2].queue == [id] && s[2].hw.executed == 0
    ensures id in s[3].xfer && s[3].xfer[id].state == Completed && s[3].hw.log == e.hw.log
  {
    hide Goes, Inv, Quiet, Build, Queue, Service;
    var st := Status(false, false);
    QuietRing(c, e);
    StartOne(c, e, id, piece, ep, st);
    var s1 := Build(c, e, id, [piece], ep);
    var s2 := Queue(s1, id, false, st).0;
    FalseCompletion(c, s2, id);
    var r := Report(1, false, st, 1, st);
    s := [e, s1, s2, Service(s2, r)];
    evs := [EvBuild(id, [piece], ep), EvQueue(id, false, st), EvService(r)];
  }

  /** The polling thread reads the written-back count before it takes the lock. If the waiter times
      out in between and a second transfer starts, the left-over count of the first completes the
      second, of which the device has moved nothing. */
  lemma StaleWriteBackRun(c: Conf, e: Eng, a: Id, b: Id, piece: Seg, ep: nat)
    returns (s: seq<Eng>, evs: seq<Event>)
    requires Quiet(c, e)
    ensures IsRun(c, s, evs) && s[0] == e && |evs| == 7
    ensures s[3].hw.run && s[3].queue == [a] && s[3].hw.executed == 1
    ensures evs[6].EvService? && evs[6].report.count == s[3].hw.executed
    ensures s[6].queue == [b] && s[6].hw.executed == 0
    ensures b in s[7].xfer && s[7].xfer[b].state == Completed && s[7].hw.log == s[4].hw.log
  {
    hide Goes, Quiet;
    var t, evs';
    s, evs := ExecuteAndAbort(c, e, a, piece, ep, Status(false, false));
    t, evs' := StartAndReport(c, s[4], b, piece, ep);
    RunConcat(c, s, evs, t, evs');
    s, evs := s + t[1..], evs + evs';
  }

  /** Aborting a transfer that is not at the head breaks the queue: it stays there, no longer
      SUBMITTED, so a later service call will still wait for its descriptors. */
  lemma AbortBehindHead(c: Conf, e: Eng, id: Id, st: Status)
    requires Inv(c, e) && id in e.queue && e.queue[0] != id
    ensures var e1 := Timeout(e, id, st);
            id in e1.queue && e1.xfer[id].state == Aborted && !Inv(c, e1)
  {
    hide OnHead, Chained, ChainMoves;
    var i :| 0 <= i < |e.queue| && e.queue[i] == id;
    assert Loaded(c, e.ring, e.xfer[e.queue[i]]);
  }
}
