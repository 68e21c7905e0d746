/** The QDMA queue table: one array of descriptor queues for the three queue types, the mode check of
    `is_usable_queue`, and the operations that add, start, stop and remove a queue together with the
    active-queue counters of the device (libqdma_export.c, qdma_device.c, qdma_resource_mgmt.c). */
module QueueTable {

  const Q_H2C: nat := 0
  const Q_C2H: nat := 1
  const Q_CMPT: nat := 2

  type QType = t: nat | t < 3

  datatype QState = Disabled | Enabled | Online

  /** q_state, conf.st, conf.q_type, conf.qidx */
  datatype Descq = Descq(state: QState, st: bool, qType: QType, qidx: nat)

  /** What the device supports, and how many queues of a type its resource entry allows. */
  datatype Caps = Caps(mm: bool, st: bool, mmCmpt: bool, totalQ: nat)

  /** The active-queue counters. */
  datatype Counts = Counts(h2c: nat, c2h: nat, cmpt: nat)
  {
    function At(t: nat): nat { if t == Q_H2C then h2c else if t == Q_C2H then c2h else cmpt }
    function Put(t: nat, n: nat): Counts {
      if t == Q_H2C then Counts(n, c2h, cmpt) else if t == Q_C2H then Counts(h2c, n, cmpt) else Counts(h2c, c2h, n)
    }
  }

  datatype State = State(qmax: nat, q: seq<Descq>, active: Counts, qrange: bool, caps: Caps)
  {
    ghost predicate Shaped() { |q| == 3 * qmax }
  }

  /** Outcomes of the helpers an add depends on: the parameter check, the queue-range set-up (asked only
      until it succeeds once) and the legacy interrupt. */
  datatype Helpers = Helpers(valid: bool, prep: bool, legacy: bool)

  datatype Rv = Ok(handle: nat) | EInval | EIo | EPerm | PrepFailed | NoQueuesLeft

  // --- table layout ----------------------------------------------------------------------------

  /** Where the queues of a type start; the identifier of a queue is its place in the table. */
  function Base(qmax: nat, t: nat): nat {
    if t == Q_H2C then 0 else if t == Q_C2H then qmax else 2 * qmax
  }

  function TypeAt(qmax: nat, k: nat): nat {
    if k < qmax then Q_H2C else if k < 2 * qmax then Q_C2H else Q_CMPT
  }

  lemma BaseIsInverse(qmax: nat, t: nat, i: nat)
    requires t <= Q_CMPT && i < qmax
    ensures Base(qmax, t) + i < 3 * qmax
    ensures TypeAt(qmax, Base(qmax, t) + i) == t
  {
  }

  // --- which queues may share an index ------------------------------------------------------------

  predicate Taken(q: seq<Descq>, qmax: nat, t: nat, i: nat)
    requires |q| == 3 * qmax && i < qmax && t <= Q_CMPT
  {
    q[Base(qmax, t) + i].state != Disabled
  }

  function ModeAt(q: seq<Descq>, qmax: nat, t: nat, i: nat): bool
    requires |q| == 3 * qmax && i < qmax && t <= Q_CMPT
  {
    q[Base(qmax, t) + i].st
  }

  /** A completion queue goes with memory-mapped queues only; the two directions share their mode. */
  predicate Coexist(t: nat, st: bool, t': nat, st': bool) {
    if t == Q_CMPT then !st' else if t' == Q_CMPT then !st else st == st'
  }

  /** A queue of type t and mode st may join index i: its place is free and it can live with every
      queue there. */
  predicate Compatible(q: seq<Descq>, qmax: nat, t: nat, st: bool, i: nat)
    requires |q| == 3 * qmax && i < qmax && t <= Q_CMPT
  {
    && !Taken(q, qmax, t, i)
    && LivesWith(q, qmax, t, st, i, Q_H2C)
    && LivesWith(q, qmax, t, st, i, Q_C2H)
    && LivesWith(q, qmax, t, st, i, Q_CMPT)
  }

  predicate LivesWith(q: seq<Descq>, qmax: nat, t: nat, st: bool, i: nat, t': nat)
    requires |q| == 3 * qmax && i < qmax && t' <= Q_CMPT
  {
    t' != t && Taken(q, qmax, t', i) ==> Coexist(t, st, t', ModeAt(q, qmax, t', i))
  }

  /** The two directions share their mode; a completion queue meets memory-mapped queues only. */
  ghost predicate RowOk(q: seq<Descq>, qmax: nat, i: nat)
    requires |q| == 3 * qmax && i < qmax
  {
    && (Taken(q, qmax, Q_H2C, i) && Taken(q, qmax, Q_C2H, i) ==> ModeAt(q, qmax, Q_H2C, i) == ModeAt(q, qmax, Q_C2H, i))
    && (Taken(q, qmax, Q_CMPT, i) && Taken(q, qmax, Q_H2C, i) ==> !ModeAt(q, qmax, Q_H2C, i))
    && (Taken(q, qmax, Q_CMPT, i) && Taken(q, qmax, Q_C2H, i) ==> !ModeAt(q, qmax, Q_C2H, i))
  }

  // --- counting -----------------------------------------------------------------------------------

  /** What index i contributes to the counter of type t: a streaming C2H queue also counts as a
      completion queue. */
  function Weight(q: seq<Descq>, qmax: nat, t: nat, i: nat): nat
    requires |q| == 3 * qmax && i < qmax && t <= Q_CMPT
  {
    (if Taken(q, qmax, t, i) then 1 else 0) +
    (if t == Q_CMPT && Taken(q, qmax, Q_C2H, i) && ModeAt(q, qmax, Q_C2H, i) then 1 else 0)
  }

  function Sum(q: seq<Descq>, qmax: nat, t: nat, n: nat): nat
    requires |q| == 3 * qmax && n <= qmax && t <= Q_CMPT
  {
    if n == 0 then 0 else Sum(q, qmax, t, n - 1) + Weight(q, qmax, t, n - 1)
  }

  /** Changing one index changes the sum by what changed there. */
  lemma {:induction false} SumUpdate(q: seq<Descq>, q': seq<Descq>, qmax: nat, t: nat, i: nat, n: nat)
    requires |q| == |q'| == 3 * qmax && i < qmax && n <= qmax && t <= Q_CMPT
    requires forall j | 0 <= j < qmax && j != i :: Weight(q', qmax, t, j) == Weight(q, qmax, t, j)
    ensures Sum(q', qmax, t, n) ==
            Sum(q, qmax, t, n) + (if i < n then Weight(q', qmax, t, i) - Weight(q, qmax, t, i) else 0)
  {
    hide Weight;
    if n > 0 { SumUpdate(q, q', qmax, t, i, n - 1); }
  }

  /** Weights of at most one, and none at i: the sum stays below the number of indices. */
  lemma {:induction false} SumBelow(q: seq<Descq>, qmax: nat, t: nat, i: nat, n: nat)
    requires |q| == 3 * qmax && i < qmax && n <= qmax && t <= Q_CMPT
    requires forall j | 0 <= j < qmax :: Weight(q, qmax, t, j) <= 1
    requires Weight(q, qmax, t, i) == 0
    ensures Sum(q, qmax, t, n) <= n && (i < n ==> Sum(q, qmax, t, n) < n)
  {
    hide Weight;
    if n > 0 { SumBelow(q, qmax, t, i, n - 1); }
  }

  // --- the operations ---------------------------------------------------------------------------------

  /** qdma_device_get_descq_by_id: the place of an identifier, if there is one. */
  predicate Found(s: State, id: nat, init: bool)
    requires s.Shaped()
  {
    id < |s.q| && (init ==> s.q[id].state != Disabled)
  }

  function Dec(n: nat): nat { if n == 0 then 0 else n - 1 }

  /** qdma_queue_add with an explicit index. */
  function Add(s: State, h: Helpers, t: nat, st: bool, idx: nat): (r: (State, Rv))
    requires s.Shaped()
    ensures r.0.Shaped() && r.0.qmax == s.qmax && r.0.caps == s.caps
  {
    if t > Q_CMPT || (st && t == Q_CMPT) || (t == Q_CMPT && !s.caps.mmCmpt)
       || (st && !s.caps.st) || (!st && !s.caps.mm) || !h.valid || idx >= s.qmax then (s, EInval)
    else if s.active.At(t) >= s.qmax then (s, EIo)
    else if !Compatible(s.q, s.qmax, t, st, idx) then (s, EPerm)
    else Install(s, h, t, st, idx)
  }

  /** The part of an add that touches the table. */
  function Install(s: State, h: Helpers, t: nat, st: bool, idx: nat): (r: (State, Rv))
    requires s.Shaped() && t <= Q_CMPT && idx < s.qmax
    ensures r.0.Shaped() && r.0.qmax == s.qmax && r.0.caps == s.caps
  {
    var k := Base(s.qmax, t) + idx;
    if !s.qrange && !h.prep then (s.(q := s.q[k := s.q[k].(state := Enabled)]), PrepFailed)
    else if !h.legacy then (s.(qrange := true, q := s.q[k := s.q[k].(state := Disabled)]), EInval)
    else
      var done := s.(qrange := true, q := s.q[k := Descq(Enabled, st, t, idx)]);
      if s.caps.totalQ < s.active.At(t) + 1 then (done, NoQueuesLeft)
      else if !(st && t == Q_C2H) then (done.(active := s.active.Put(t, s.active.At(t) + 1)), Ok(k))
      else if s.caps.totalQ < s.active.cmpt + 1 then (done, NoQueuesLeft)
      else (done.(active := Counts(s.active.h2c, s.active.c2h + 1, s.active.cmpt + 1)), Ok(k))
  }

  /** qdma_queue_start: the hardware set-up may fail, then nothing changes. */
  function Start(s: State, id: nat, setup: bool): (r: (State, Rv))
    requires s.Shaped()
    ensures r.0.Shaped()
  {
    if !Found(s, id, true) || s.q[id].state != Enabled || !setup then (s, EInval)
    else (s.(q := s.q[id := s.q[id].(state := Online)]), Ok(id))
  }

  /** qdma_queue_stop: its effect on the state of the queue. */
  function Stop(s: State, id: nat): (r: (State, Rv))
    requires s.Shaped()
    ensures r.0.Shaped()
  {
    if !Found(s, id, true) || s.q[id].state != Online then (s, EInval)
    else (s.(q := s.q[id := s.q[id].(state := Enabled)]), Ok(id))
  }

  /** The counters after a queue of this configuration went. */
  function Uncount(active: Counts, d: Descq): Counts {
    if d.qType == Q_C2H && d.st then Counts(active.h2c, Dec(active.c2h), Dec(active.cmpt))
    else active.Put(d.qType, Dec(active.At(d.qType)))
  }

  /** qdma_queue_remove. */
  function Remove(s: State, id: nat): (r: (State, Rv))
    requires s.Shaped()
    ensures r.0.Shaped()
  {
    if !Found(s, id, true) || s.q[id].state != Enabled then (s, EInval)
    else (s.(q := s.q[id := s.q[id].(state := Disabled)], active := Uncount(s.active, s.q[id])), Ok(id))
  }

  datatype Op =
    | AddOp(h: Helpers, t: nat, st: bool, idx: nat)
    | StartOp(id: nat, setup: bool)
    | StopOp(id: nat)
    | RemoveOp(id: nat)

  function Do(s: State, op: Op): (r: (State, Rv))
    requires s.Shaped()
    ensures r.0.Shaped()
  {
    match op
    case AddOp(h, t, st, idx) => Add(s, h, t, st, idx)
    case StartOp(id, setup) => Start(s, id, setup)
    case StopOp(id) => Stop(s, id)
    case RemoveOp(id) => Remove(s, id)
  }

  function Init(qmax: nat, caps: Caps): (s: State)
    ensures s.Shaped() && s.qmax == qmax
  {
    State(qmax, seq(3 * qmax, k requires 0 <= k < 3 * qmax => Descq(Disabled, false, 0, k - Base(qmax, TypeAt(qmax, k)))),
          Counts(0, 0, 0), false, caps)
  }

  // --- the invariant --------------------------------------------------------------------------------------

  /** A queue in use carries the type and the index of its place. */
  ghost predicate Labelled(q: seq<Descq>, qmax: nat)
    requires |q| == 3 * qmax
  {
    forall k | 0 <= k < |q| && q[k].state != Disabled ::
      q[k].qType == TypeAt(qmax, k) && q[k].qidx == k - Base(qmax, TypeAt(qmax, k))
  }

  ghost predicate RowsOk(q: seq<Descq>, qmax: nat)
    requires |q| == 3 * qmax
  {
    forall i | 0 <= i < qmax :: RowOk(q, qmax, i)
  }

  ghost predicate Counted(q: seq<Descq>, qmax: nat, active: Counts)
    requires |q| == 3 * qmax
  {
    forall t | 0 <= t <= Q_CMPT :: active.At(t) == Sum(q, qmax, t, qmax)
  }

  ghost predicate Inv(s: State) {
    s.Shaped() && Labelled(s.q, s.qmax) && RowsOk(s.q, s.qmax) && Counted(s.q, s.qmax, s.active)
  }

  lemma InitOk(qmax: nat, caps: Caps)
    ensures Inv(Init(qmax, caps))
  {
    var q := Init(qmax, caps).q;
    forall t | 0 <= t <= Q_CMPT ensures Sum(q, qmax, t, qmax) == 0 { EmptySum(q, qmax, t, qmax); }
  }

  lemma {:induction false} EmptySum(q: seq<Descq>, qmax: nat, t: nat, n: nat)
    requires |q| == 3 * qmax && n <= qmax && t <= Q_CMPT && forall k | 0 <= k < |q| :: q[k].state == Disabled
    ensures Sum(q, qmax, t, n) == 0
  {
    if n > 0 { EmptySum(q, qmax, t, n - 1); }
  }

  /** Rewriting one place: other indices are as they were, sums change by the weight of this index. */
  lemma PlaceUpdate(q: seq<Descq>, q': seq<Descq>, qmax: nat, t0: nat, i: nat, d: Descq)
    requires |q| == 3 * qmax && i < qmax && t0 <= Q_CMPT && q' == q[Base(qmax, t0) + i := d]
    ensures forall j | 0 <= j < qmax && j != i :: RowOk(q, qmax, j) ==> RowOk(q', qmax, j)
    ensures forall t | 0 <= t <= Q_CMPT ::
              Sum(q', qmax, t, qmax) == Sum(q, qmax, t, qmax) + Weight(q', qmax, t, i) - Weight(q, qmax, t, i)
  {
    hide Sum;
    forall t | 0 <= t <= Q_CMPT
      ensures Sum(q', qmax, t, qmax) == Sum(q, qmax, t, qmax) + Weight(q', qmax, t, i) - Weight(q, qmax, t, i)
    {
      SumUpdate(q, q', qmax, t, i, qmax);
    }
  }

  lemma SumsAtLeast(q: seq<Descq>, qmax: nat, t: nat, i: nat, n: nat)
    requires |q| == 3 * qmax && i < n <= qmax && t <= Q_CMPT
    ensures Weight(q, qmax, t, i) <= Sum(q, qmax, t, n)
  {
    hide Weight;
    if n - 1 != i { SumsAtLeast(q, qmax, t, i, n - 1); }
  }

  /** In a compatible row no counter is charged twice. */
  lemma WeightAtMostOne(q: seq<Descq>, qmax: nat, t: nat, i: nat)
    requires |q| == 3 * qmax && i < qmax && t <= Q_CMPT && RowOk(q, qmax, i)
    ensures Weight(q, qmax, t, i) <= 1
  {
  }

  /** An index that is still usable for a type leaves room under its counter, and under the completion
      counter for a streaming C2H queue. */
  lemma RoomForUsable(s: State, t: nat, st: bool, idx: nat)
    requires Inv(s) && t <= Q_CMPT && idx < s.qmax && !(st && t == Q_CMPT)
    requires Compatible(s.q, s.qmax, t, st, idx)
    ensures s.active.At(t) < s.qmax
    ensures t == Q_C2H && st ==> s.active.cmpt < s.qmax
  {
    hide Sum;
    forall u, j | 0 <= u <= Q_CMPT && 0 <= j < s.qmax ensures Weight(s.q, s.qmax, u, j) <= 1 {
      assert RowOk(s.q, s.qmax, j);
      WeightAtMostOne(s.q, s.qmax, u, j);
    }
    if t == Q_CMPT && Taken(s.q, s.qmax, Q_C2H, idx) {
      assert Coexist(t, st, Q_C2H, ModeAt(s.q, s.qmax, Q_C2H, idx));
    }
    SumBelow(s.q, s.qmax, t, idx, s.qmax);
    if t == Q_C2H && st {
      assert !Taken(s.q, s.qmax, Q_CMPT, idx);
      SumBelow(s.q, s.qmax, Q_CMPT, idx, s.qmax);
    }
  }

  /** The request alone is acceptable. */
  predicate WellFormed(s: State, h: Helpers, t: nat, st: bool, idx: nat) {
    && t <= Q_CMPT && !(st && t == Q_CMPT) && (t == Q_CMPT ==> s.caps.mmCmpt)
    && (if st then s.caps.st else s.caps.mm) && h.valid && idx < s.qmax
  }

  predicate HelpersOk(s: State, h: Helpers) { (s.qrange || h.prep) && h.legacy }

  /** From a consistent table an add succeeds exactly when the request is well formed and the index
      compatible: no usable index is ever refused for capacity. */
  lemma AddSucceedsIff(s: State, h: Helpers, t: nat, st: bool, idx: nat)
    requires Inv(s) && HelpersOk(s, h) && s.qmax <= s.caps.totalQ
    ensures Add(s, h, t, st, idx).1.Ok? <==>
              WellFormed(s, h, t, st, idx) && Compatible(s.q, s.qmax, t, st, idx)
    ensures Add(s, h, t, st, idx).1.Ok? ==> Add(s, h, t, st, idx).1.handle == Base(s.qmax, t) + idx
  {
    hide Labelled, RowsOk, Counted, Compatible, Base;
    if WellFormed(s, h, t, st, idx) && Compatible(s.q, s.qmax, t, st, idx) {
      RoomForUsable(s, t, st, idx);
    }
  }

  lemma AddKeeps(s: State, h: Helpers, t: nat, st: bool, idx: nat)
    requires Inv(s) && Add(s, h, t, st, idx).1.Ok?
    ensures Inv(Add(s, h, t, st, idx).0)
  {
    hide Sum;
    var r := Add(s, h, t, st, idx).0;
    var k := Base(s.qmax, t) + idx;
    PlaceUpdate(s.q, r.q, s.qmax, t, idx, Descq(Enabled, st, t, idx));
    BaseIsInverse(s.qmax, t, idx);
    assert RowOk(r.q, s.qmax, idx) by { JoinRow(s, r.q, t, st, idx); }
    forall u | 0 <= u <= Q_CMPT ensures r.active.At(u) == Sum(r.q, s.qmax, u, s.qmax) {
      AddedCount(s, h, t, st, idx, u);
    }
    hide RowOk, Weight, Add;
  }

  /** An added queue weighs one under its type, and one under CMPT if it is a streaming C2H queue. */
  lemma AddedCount(s: State, h: Helpers, t: nat, st: bool, idx: nat, u: nat)
    requires Inv(s) && Add(s, h, t, st, idx).1.Ok? && u <= Q_CMPT
    requires var q := Add(s, h, t, st, idx).0.q;
             t <= Q_CMPT && idx < s.qmax
             && Sum(q, s.qmax, u, s.qmax) == Sum(s.q, s.qmax, u, s.qmax) + Weight(q, s.qmax, u, idx) - Weight(s.q, s.qmax, u, idx)
    ensures Add(s, h, t, st, idx).0.active.At(u) == Sum(Add(s, h, t, st, idx).0.q, s.qmax, u, s.qmax)
  {
    hide Sum, Labelled, RowsOk;
    assert s.active.At(u) == Sum(s.q, s.qmax, u, s.qmax);
  }

  lemma JoinRow(s: State, q': seq<Descq>, t: nat, st: bool, idx: nat)
    requires Inv(s) && t <= Q_CMPT && idx < s.qmax && !(st && t == Q_CMPT)
    requires Compatible(s.q, s.qmax, t, st, idx)
    requires q' == s.q[Base(s.qmax, t) + idx := Descq(Enabled, st, t, idx)]
    ensures RowOk(q', s.qmax, idx)
  {
    assert RowOk(s.q, s.qmax, idx);
  }

  /** Start and stop change the state of a queue in use to another state in use. */
  lemma StateChangeKeeps(s: State, id: nat, to: QState)
    requires Inv(s) && id < |s.q| && s.q[id].state != Disabled && to != Disabled
    ensures Inv(s.(q := s.q[id := s.q[id].(state := to)]))
  {
    hide Sum, RowOk, Weight;
    var q' := s.q[id := s.q[id].(state := to)];
    forall i | 0 <= i < s.qmax
      ensures RowOk(s.q, s.qmax, i) ==> RowOk(q', s.qmax, i)
    {
      SameUse(s.q, q', s.qmax, i);
    }
    forall t | 0 <= t <= Q_CMPT ensures s.active.At(t) == Sum(q', s.qmax, t, s.qmax) {
      assert s.active.At(t) == Sum(s.q, s.qmax, t, s.qmax);
      forall j | 0 <= j < s.qmax ensures Weight(q', s.qmax, t, j) == Weight(s.q, s.qmax, t, j) {
        SameUse(s.q, q', s.qmax, j);
      }
      SumSame(s.q, q', s.qmax, t, s.qmax);
    }
  }

  /** Same use and same modes: same row. */
  lemma SameUse(q: seq<Descq>, q': seq<Descq>, qmax: nat, i: nat)
    requires |q| == |q'| == 3 * qmax && i < qmax
    requires forall k | 0 <= k < |q| :: (q[k].state == Disabled <==> q'[k].state == Disabled) && q[k].st == q'[k].st
    ensures RowOk(q, qmax, i) ==> RowOk(q', qmax, i)
    ensures forall t | 0 <= t <= Q_CMPT :: Weight(q', qmax, t, i) == Weight(q, qmax, t, i)
  {
  }

  lemma {:induction false} SumSame(q: seq<Descq>, q': seq<Descq>, qmax: nat, t: nat, n: nat)
    requires |q| == |q'| == 3 * qmax && n <= qmax && t <= Q_CMPT
    requires forall j | 0 <= j < qmax :: Weight(q', qmax, t, j) == Weight(q, qmax, t, j)
    ensures Sum(q', qmax, t, n) == Sum(q, qmax, t, n)
  {
    hide Weight;
    if n > 0 { SumSame(q, q', qmax, t, n - 1); }
  }

  lemma RemoveKeeps(s: State, id: nat)
    requires Inv(s)
    ensures Inv(Remove(s, id).0)
  {
    hide Sum;
    var r := Remove(s, id);
    if r.1.Ok? {
      var t := TypeAt(s.qmax, id);
      var i := id - Base(s.qmax, t);
      var d := s.q[id].(state := Disabled);
      PlaceUpdate(s.q, r.0.q, s.qmax, t, i, d);
      assert RowOk(s.q, s.qmax, i);
      assert RowOk(r.0.q, s.qmax, i);
      SumsAtLeast(s.q, s.qmax, t, i, s.qmax);
      SumsAtLeast(s.q, s.qmax, Q_CMPT, i, s.qmax);
      RemovedCounts(s, id, t, i, r.0.q);
    }
  }

  lemma RemovedCounts(s: State, id: nat, t: nat, i: nat, q': seq<Descq>)
    requires Inv(s) && t <= Q_CMPT && i < s.qmax && id == Base(s.qmax, t) + i && s.q[id].state == Enabled
    requires s.q[id].qType == t && q' == s.q[id := s.q[id].(state := Disabled)]
    requires forall u | 0 <= u <= Q_CMPT ::
               Sum(q', s.qmax, u, s.qmax) == Sum(s.q, s.qmax, u, s.qmax) + Weight(q', s.qmax, u, i) - Weight(s.q, s.qmax, u, i)
    requires Weight(s.q, s.qmax, t, i) <= Sum(s.q, s.qmax, t, s.qmax)
    requires Weight(s.q, s.qmax, Q_CMPT, i) <= Sum(s.q, s.qmax, Q_CMPT, s.qmax)
    ensures Counted(q', s.qmax, Uncount(s.active, s.q[id]))
  {
    hide Sum, Labelled, RowsOk, Weight, Uncount, Counts.At;
    forall u | 0 <= u <= Q_CMPT
      ensures Uncount(s.active, s.q[id]).At(u) == Sum(q', s.qmax, u, s.qmax)
    {
      assert s.active.At(u) == Sum(s.q, s.qmax, u, s.qmax);
      WeightDrops(s.q, q', s.qmax, t, i, u);
      UncountIs(s.active, s.q[id], u);
    }
  }

  /** What a disabled queue no longer weighs. */
  lemma WeightDrops(q: seq<Descq>, q': seq<Descq>, qmax: nat, t: nat, i: nat, u: nat)
    requires |q| == 3 * qmax && i < qmax && t <= Q_CMPT && u <= Q_CMPT && q[Base(qmax, t) + i].state != Disabled
    requires q' == q[Base(qmax, t) + i := q[Base(qmax, t) + i].(state := Disabled)]
    ensures Weight(q', qmax, u, i) ==
            Weight(q, qmax, u, i) - (if u == t || (u == Q_CMPT && t == Q_C2H && q[Base(qmax, t) + i].st) then 1 else 0)
  {
  }

  lemma UncountIs(active: Counts, d: Descq, u: nat)
    requires u <= Q_CMPT
    ensures Uncount(active, d).At(u) ==
            if (u == d.qType || (u == Q_CMPT && d.qType == Q_C2H && d.st)) && active.At(u) > 0 then active.At(u) - 1 else active.At(u)
  {
  }

  /** An add of this queue would stop half way: the queue-range set-up fails, or a counter is at the
      limit of the resource entry, after the queue was enabled. */
  predicate StopsHalfWay(s: State, h: Helpers, t: nat, st: bool, idx: nat)
    requires s.Shaped()
  {
    && WellFormed(s, h, t, st, idx) && Compatible(s.q, s.qmax, t, st, idx)
    && if !s.qrange && !h.prep then true
       else h.legacy && (s.caps.totalQ <= s.active.At(t) || (st && t == Q_C2H && s.caps.totalQ <= s.active.cmpt))
  }

  /** An add leaves the table consistent exactly when it does not stop half way; then the queue stays
      enabled but uncounted. */
  lemma AddKeepsIff(s: State, h: Helpers, t: nat, st: bool, idx: nat)
    requires Inv(s)
    ensures Inv(Add(s, h, t, st, idx).0) <==> !StopsHalfWay(s, h, t, st, idx)
  {
    AddStops(s, h, t, st, idx);
    hide Sum, RowOk, Compatible, Labelled, Counted, RowsOk, Install, StopsHalfWay;
    var r := Add(s, h, t, st, idx);
    if r.1.Ok? {
      AddKeeps(s, h, t, st, idx);
    } else if WellFormed(s, h, t, st, idx) && s.active.At(t) < s.qmax && Compatible(s.q, s.qmax, t, st, idx) {
      HalfAdded(s, h, t, st, idx);
    }
  }

  /** What the caller of an add that stopped half way is told. */
  lemma AddStops(s: State, h: Helpers, t: nat, st: bool, idx: nat)
    requires Inv(s)
    ensures var rv := Add(s, h, t, st, idx).1;
            rv.PrepFailed? || rv.NoQueuesLeft? <==> StopsHalfWay(s, h, t, st, idx)
  {
    hide Labelled, Counted, RowsOk, Compatible;
    if WellFormed(s, h, t, st, idx) && Compatible(s.q, s.qmax, t, st, idx) { RoomForUsable(s, t, st, idx); }
  }

  lemma HalfAdded(s: State, h: Helpers, t: nat, st: bool, idx: nat)
    requires Inv(s) && t <= Q_CMPT && idx < s.qmax && Compatible(s.q, s.qmax, t, st, idx)
    ensures var r := Install(s, h, t, st, idx);
            if r.1.PrepFailed? || r.1.NoQueuesLeft? then !Inv(r.0) else !r.1.Ok? ==> Inv(r.0)
  {
    hide Sum, RowOk, Weight;
    var r := Install(s, h, t, st, idx);
    var k := Base(s.qmax, t) + idx;
    FreePlace(s, t, st, idx);
    if r.1.PrepFailed? || r.1.NoQueuesLeft? {
      PlaceUpdate(s.q, r.0.q, s.qmax, t, idx, r.0.q[k]);
      HalfAddedIsUncounted(s, r.0.q, t, idx);
    } else if !r.1.Ok? {
      assert r.0.q == s.q;
    }
  }

  lemma HalfAddedIsUncounted(s: State, q': seq<Descq>, t: nat, idx: nat)
    requires Inv(s) && t <= Q_CMPT && idx < s.qmax && |q'| == |s.q|
    requires !Taken(s.q, s.qmax, t, idx) && Taken(q', s.qmax, t, idx)
    requires t == Q_CMPT ==> q'[..2 * s.qmax] == s.q[..2 * s.qmax]
    requires Sum(q', s.qmax, t, s.qmax) ==
             Sum(s.q, s.qmax, t, s.qmax) + Weight(q', s.qmax, t, idx) - Weight(s.q, s.qmax, t, idx)
    ensures !Counted(q', s.qmax, s.active)
  {
    hide Sum, Labelled, RowsOk;
    assert s.active.At(t) == Sum(s.q, s.qmax, t, s.qmax);
    if t == Q_CMPT {
      assert q'[..2 * s.qmax][s.qmax + idx] == s.q[..2 * s.qmax][s.qmax + idx];
    }
    assert Weight(q', s.qmax, t, idx) == Weight(s.q, s.qmax, t, idx) + 1;
  }

  /** Removing what was just added gives the counters and the states back. */
  lemma RemoveUndoesAdd(s: State, h: Helpers, t: nat, st: bool, idx: nat)
    requires Inv(s) && Add(s, h, t, st, idx).1.Ok?
    ensures var (added, rv) := Add(s, h, t, st, idx);
            var (back, rv') := Remove(added, rv.handle);
            && rv'.Ok? && back.active == s.active
            && forall k | 0 <= k < |s.q| :: back.q[k].state == s.q[k].state && (k != rv.handle ==> back.q[k] == s.q[k])
  {
    hide Labelled, RowsOk, Counted, Sum, Compatible;
    assert s.q[Base(s.qmax, t) + idx].state == Disabled by { FreePlace(s, t, st, idx); }
  }

  lemma FreePlace(s: State, t: nat, st: bool, idx: nat)
    requires s.Shaped() && t <= Q_CMPT && idx < s.qmax && Compatible(s.q, s.qmax, t, st, idx)
    ensures s.q[Base(s.qmax, t) + idx].state == Disabled
  {
  }

  // --- the life of a queue ----------------------------------------------------------------------------

  /** Everywhere but at place `id` the two tables are the same, and so is all that is not in the table. */
  ghost predicate OnlyAt(s: State, s1: State, id: nat) {
    && |s1.q| == |s.q| && s1.qmax == s.qmax && s1.qrange == s.qrange && s1.caps == s.caps
    && forall k | 0 <= k < |s.q| && k != id :: s1.q[k] == s.q[k]
  }

  /** The same queue in another state. */
  predicate Turned(d: Descq, d1: Descq, state: QState) {
    d1.state == state && d1.st == d.st && d1.qType == d.qType && d1.qidx == d.qidx
  }

  /** Starting succeeds exactly for an ENABLED queue whose set-up works; the queue is ONLINE then, and
      nothing else changed. Otherwise nothing changes at all. */
  lemma StartedIsOnline(s: State, id: nat, setup: bool)
    requires s.Shaped()
    ensures var (s1, rv) := Start(s, id, setup);
            && (rv.Ok? <==> id < |s.q| && s.q[id].state == Enabled && setup)
            && (rv.Ok? ==> rv.handle == id && OnlyAt(s, s1, id) && Turned(s.q[id], s1.q[id], Online) && s1.active == s.active)
            && (!rv.Ok? ==> rv == EInval && s1 == s)
  {
  }

  /** Stopping succeeds exactly for an ONLINE queue; it is ENABLED then. */
  lemma StoppedIsEnabled(s: State, id: nat)
    requires s.Shaped()
    ensures var (s1, rv) := Stop(s, id);
            && (rv.Ok? <==> id < |s.q| && s.q[id].state == Online)
            && (rv.Ok? ==> rv.handle == id && OnlyAt(s, s1, id) && Turned(s.q[id], s1.q[id], Enabled) && s1.active == s.active)
            && (!rv.Ok? ==> rv == EInval && s1 == s)
  {
  }

  /** Removing succeeds exactly for an ENABLED queue; it is DISABLED then, one queue less is counted under
      its configured type, and one less under CMPT if it was a streaming C2H queue. */
  lemma RemovedIsDisabled(s: State, id: nat)
    requires s.Shaped()
    ensures var (s1, rv) := Remove(s, id);
            && (rv.Ok? <==> id < |s.q| && s.q[id].state == Enabled)
            && (rv.Ok? ==>
                  && rv.handle == id && OnlyAt(s, s1, id) && Turned(s.q[id], s1.q[id], Disabled)
                  && var d := s.q[id];
                     && s1.active.h2c == (if d.qType == Q_H2C && s.active.h2c > 0 then s.active.h2c - 1 else s.active.h2c)
                     && s1.active.c2h == (if d.qType == Q_C2H && s.active.c2h > 0 then s.active.c2h - 1 else s.active.c2h)
                     && s1.active.cmpt ==
                          (if (d.qType == Q_CMPT || (d.qType == Q_C2H && d.st)) && s.active.cmpt > 0
                           then s.active.cmpt - 1 else s.active.cmpt))
            && (!rv.Ok? ==> rv == EInval && s1 == s)
  {
  }

  /** A started queue cannot be started again or removed; stopping it gives back the table before the start,
      and then it can be removed. */
  lemma StartThenStop(s: State, id: nat, setup: bool)
    requires s.Shaped() && Start(s, id, setup).1.Ok?
    ensures var s1 := Start(s, id, setup).0;
            && (forall again :: Start(s1, id, again) == (s1, EInval)) && Remove(s1, id) == (s1, EInval)
            && Stop(s1, id) == (s, Ok(id)) && Stop(s, id) == (s, EInval) && Remove(s, id).1 == Ok(id)
  {
    assert Stop(Start(s, id, setup).0, id).0.q == s.q;
  }

  /** An index is refused to a well-formed request exactly if its place is taken or the new queue would break
      the rules of its row. */
  lemma CompatibleIff(q: seq<Descq>, qmax: nat, t: nat, st: bool, i: nat)
    requires |q| == 3 * qmax && i < qmax && t <= Q_CMPT && !(st && t == Q_CMPT) && RowOk(q, qmax, i)
    ensures Compatible(q, qmax, t, st, i) <==>
              && q[Base(qmax, t) + i].state == Disabled
              && RowOk(q[Base(qmax, t) + i := Descq(Enabled, st, t, i)], qmax, i)
  {
  }

  /** When an add is refused, and with which code; then neither the queues nor the counters change. */
  lemma AddRefusals(s: State, h: Helpers, t: nat, st: bool, idx: nat)
    requires s.Shaped()
    ensures var (s1, rv) := Add(s, h, t, st, idx);
            && (rv.EPerm? <==> WellFormed(s, h, t, st, idx) && s.active.At(t) < s.qmax && !Compatible(s.q, s.qmax, t, st, idx))
            && (rv.EIo? <==> WellFormed(s, h, t, st, idx) && s.qmax <= s.active.At(t))
            && (rv.EPerm? || rv.EIo? || !WellFormed(s, h, t, st, idx) ==> s1 == s)
            && (rv.EInval? <==>
                  || !WellFormed(s, h, t, st, idx)
                  || (s.active.At(t) < s.qmax && Compatible(s.q, s.qmax, t, st, idx) && (s.qrange || h.prep) && !h.legacy))
            && (rv.EInval? ==> s1.q == s.q && s1.active == s.active)
  {
    hide LivesWith, Coexist, Taken;
    if WellFormed(s, h, t, st, idx) && Compatible(s.q, s.qmax, t, st, idx) {
      FreePlace(s, t, st, idx);
      var k := Base(s.qmax, t) + idx;
      assert s.q[k := s.q[k].(state := Disabled)] == s.q;
    }
  }

  /** What an add that got as far as the table leaves behind, for every code it can return. Nothing but the
      named place and, by one, the counters of the type (and of CMPT for a streaming C2H queue) changes. */
  lemma AddedIsEnabled(s: State, h: Helpers, t: nat, st: bool, idx: nat)
    requires s.Shaped()
    ensures var (s1, rv) := Add(s, h, t, st, idx);
            && (rv.PrepFailed? ==> !s.qrange && !s1.qrange)
            && (rv.Ok? || rv.NoQueuesLeft? || rv.PrepFailed? ==>
                  && t <= Q_CMPT && idx < s.qmax
                  && var k := (if t == Q_H2C then idx else if t == Q_C2H then s.qmax + idx else 2 * s.qmax + idx);
                     && OnlyAt(s, s1.(qrange := s.qrange), k)
                     && (if rv.PrepFailed? then Turned(s.q[k], s1.q[k], Enabled)
                         else s1.qrange && s1.q[k] == Descq(Enabled, st, t, idx))
                     && (rv.Ok? ==> rv.handle == k))
            && (rv.NoQueuesLeft? || rv.PrepFailed? ==> s1.active == s.active)
            && (rv.Ok? ==>
                  && s1.active.h2c == s.active.h2c + (if t == Q_H2C then 1 else 0)
                  && s1.active.c2h == s.active.c2h + (if t == Q_C2H then 1 else 0)
                  && s1.active.cmpt == s.active.cmpt + (if t == Q_CMPT || (t == Q_C2H && st) then 1 else 0))
  {
    hide Compatible;
  }

  // --- runs --------------------------------------------------------------------------------------------

  function After(s: State, ops: seq<Op>): (r: State)
    requires s.Shaped()
    ensures r.Shaped()
    decreases |ops|
  {
    if ops == [] then s else After(Do(s, ops[0]).0, ops[1..])
  }

  predicate PrepWorks(op: Op) { op.AddOp? ==> op.h.prep }

  lemma DoKeeps(s: State, op: Op)
    requires Inv(s) && PrepWorks(op) && s.qmax <= s.caps.totalQ
    ensures var s' := Do(s, op).0; Inv(s') && s'.qmax == s.qmax && s'.caps == s.caps
  {
    hide Sum, Labelled, RowsOk, Counted, Compatible;
    match op
    case AddOp(h, t, st, idx) =>
      var r := Add(s, h, t, st, idx);
      if r.1.NoQueuesLeft? { RoomForUsable(s, t, st, idx); }
      AddStops(s, h, t, st, idx);
      AddKeepsIff(s, h, t, st, idx);
    case StartOp(id, setup) => if Start(s, id, setup).1.Ok? { StateChangeKeeps(s, id, Online); }
    case StopOp(id) => if Stop(s, id).1.Ok? { StateChangeKeeps(s, id, Enabled); }
    case RemoveOp(id) => RemoveKeeps(s, id);
  }

  lemma {:induction false} AfterKeeps(s: State, ops: seq<Op>)
    requires Inv(s) && s.qmax <= s.caps.totalQ && forall j | 0 <= j < |ops| :: PrepWorks(ops[j])
    ensures var r := After(s, ops); Inv(r) && r.qmax == s.qmax && r.caps == s.caps
    decreases |ops|
  {
    hide Labelled, RowsOk, Counted;
    if ops != [] {
      DoKeeps(s, ops[0]);
      AfterKeeps(Do(s, ops[0]).0, ops[1..]);
    }
  }

  /** Over any run from the initial table: the two directions of an index share their mode, a completion
      queue never meets a streaming queue, and the counters are the queues in use (a streaming C2H queue
      counted twice), never more than there are indices. */
  lemma EveryRunIsConsistent(qmax: nat, caps: Caps, ops: seq<Op>)
    requires qmax <= caps.totalQ && forall j | 0 <= j < |ops| :: PrepWorks(ops[j])
    ensures var s := After(Init(qmax, caps), ops);
            && s.qmax == qmax && |s.q| == 3 * qmax 
            && (forall i | 0 <= i < qmax :: RowOk(s.q, qmax, i))
            && (forall t | 0 <= t <= Q_CMPT :: s.active.At(t) == Sum(s.q, qmax, t, qmax) <= qmax)
  {
    hide Sum, Labelled, Taken, ModeAt, RowOk, After, Weight;
    InitOk(qmax, caps);
    AfterKeeps(Init(qmax, caps), ops);
    var s := After(Init(qmax, caps), ops);
    forall t | 0 <= t <= Q_CMPT ensures s.active.At(t) == Sum(s.q, qmax, t, qmax) <= qmax {
      forall j | 0 <= j < qmax ensures Weight(s.q, qmax, t, j) <= 1 {
        assert RowOk(s.q, qmax, j);
        WeightAtMostOne(s.q, qmax, t, j);
      }
      SumAtMost(s.q, qmax, t, qmax);
    }
  }

  lemma {:induction false} SumAtMost(q: seq<Descq>, qmax: nat, t: nat, n: nat)
    requires |q| == 3 * qmax && n <= qmax && t <= Q_CMPT
    requires forall j | 0 <= j < qmax :: Weight(q, qmax, t, j) <= 1
    ensures Sum(q, qmax, t, n) <= n
  {
    hide Weight;
    if n > 0 { SumAtMost(q, qmax, t, n - 1); }
  }

  /** When the queue-range set-up fails once, the half-added C2H queue can be removed like any other, and
      its removal is charged to the H2C counter: a working H2C queue is then no longer counted. */
  lemma StuckQueueRun(caps: Caps)
    requires caps.mm && 2 <= caps.totalQ
    ensures var ops := [AddOp(Helpers(true, false, true), Q_C2H, false, 0),
                        AddOp(Helpers(true, true, true), Q_H2C, false, 1),
                        RemoveOp(2)];
            var s := After(Init(2, caps), ops);
            |s.q| == 6 && s.q[1].state == Enabled && s.active == Counts(0, 0, 0)
  {
    var s0 := Init(2, caps);
    var op1 := AddOp(Helpers(true, false, true), Q_C2H, false, 0);
    var op2 := AddOp(Helpers(true, true, true), Q_H2C, false, 1);
    var op3 := RemoveOp(2);
    var s1 := Do(s0, op1).0;
    var s2 := Do(s1, op2).0;
    var s3 := Do(s2, op3).0;
    assert s3.active == Counts(0, 0, 0) && s3.q[1].state == Enabled;
    assert [op1, op2, op3][1..] == [op2, op3] && [op2, op3][1..] == [op3] && [op3][1..] == [];
    assert After(s0, [op1, op2, op3]) == After(s1, [op2, op3]) == After(s2, [op3]) == After(s3, []) == s3;
  }

  // --- the driver's table --------------------------------------------------------------------------------

  /** struct qdma_dev with the queue counters of its resource entry. */
  class Table {
    const qmax: nat
    const caps: Caps
    const descq: array<Descq>
    var h2cCount: nat
    var c2hCount: nat
    var cmptCount: nat
    var initQrange: bool

    ghost predicate Valid()
      reads this
    {
      descq.Length == 3 * qmax
    }

    ghost function View(): State
      reads this, descq
    {
      State(qmax, descq[..], Counts(h2cCount, c2hCount, cmptCount), initQrange, caps)
    }

    /** qdma_device_init */
    constructor (qmax: nat, caps: Caps)
      ensures Valid() && fresh(descq) && View() == Init(qmax, caps)
      ensures forall k | 0 <= k < 3 * qmax ::
        descq[k] == Descq(Disabled, false, 0, if k < qmax then k else if k < 2 * qmax then k - qmax else k - 2 * qmax)
    {
      this.qmax, this.caps := qmax, caps;
      descq := new Descq[3 * qmax](_ => Descq(Disabled, false, 0, 0));
      new;
      for t := 0 to 3
        invariant forall k | 0 <= k < Done(qmax, t) ::
                    descq[k] == Descq(Disabled, false, 0, k - Base(qmax, TypeAt(qmax, k)))
      {
        for i := 0 to qmax
          invariant forall k | 0 <= k < Base(qmax, t) + i ::
                      descq[k] == Descq(Disabled, false, 0, k - Base(qmax, TypeAt(qmax, k)))
        {
          descq[Base(qmax, t) + i] := Descq(Disabled, false, 0, i);
        }
      }
      h2cCount, c2hCount, cmptCount := 0, 0, 0;
      initQrange := false;
      assert descq[..] == Init(qmax, caps).q;
    }

    ghost static function Done(qmax: nat, t: nat): nat { if t < 3 then Base(qmax, t) else 3 * qmax }

    /** is_usable_queue: the masks accept exactly the compatible requests. */
    method IsUsableQueue(qidx: nat, qType: nat, st: bool) returns (usable: bool)
      requires Valid() && qidx < qmax && qType <= Q_CMPT && !(st && qType == Q_CMPT)
      ensures usable <==> Compatible(descq[..], qmax, qType, st, qidx)
    {
      var h2c, c2h, cmpt := descq[qidx], descq[qmax + qidx], descq[2 * qmax + qidx];
      var refmask: bv8 := 0;
      if h2c.state != Disabled {
        refmask := refmask | 1;
        if h2c.st { refmask := refmask | 8; }
      }
      if c2h.state != Disabled {
        refmask := refmask | 2;
        if c2h.st { refmask := refmask | 8; }
      }
      if cmpt.state != Disabled { refmask := refmask | 4; }
      if qType == Q_CMPT {
        if refmask & (4 | 8) != 0 { return false; }
      } else if qType == Q_H2C {
        var c2hMask: bv8 := 2 | 8;
        if st && refmask & 4 != 0 { return false; }
        if st && refmask & 2 != 0 && refmask & c2hMask == 2 { return false; }
        if !st && refmask & 2 != 0 && refmask & c2hMask == c2hMask { return false; }
        if refmask & 1 != 0 { return false; }
      } else {
        var h2cMask: bv8 := 1 | 8;
        if st && refmask & 4 != 0 { return false; }
        if st && refmask & 1 != 0 && refmask & h2cMask == 1 { return false; }
        if !st && refmask & 1 != 0 && refmask & h2cMask == h2cMask { return false; }
        if refmask & 2 != 0 { return false; }
      }
      usable := true;
    }

    /** qdma_device_get_descq_by_id: peeling off qmax twice lands on the place the identifier names. */
    method GetDescqById(id: nat, init: bool) returns (found: bool, k: nat)
      requires Valid()
      ensures found <==> Found(View(), id, init)
      ensures found <==> id < 3 * qmax && (init ==> descq[id].state != Disabled)
      ensures found ==> k == id
    {
      var idx, table := id, 0;
      if idx >= qmax {
        idx := idx - qmax;
        if idx >= qmax {
          idx := idx - qmax;
          if idx >= qmax { return false, 0; }
          table := 2 * qmax;
        } else {
          table := qmax;
        }
      }
      k := table + idx;
      found := !(init && descq[k].state == Disabled);
    }

    /** qdma_device_get_id_from_descq: the search starts at the table the configured type names and covers
        two tables; every queue in use is found under its own identifier. */
    method GetIdFromDescq(k: nat) returns (id: int)
      requires Valid() && k < descq.Length
      ensures var base := Base(qmax, descq[k].qType); id == if base <= k < base + 2 * qmax then k else -1
      ensures Labelled(descq[..], qmax) && descq[k].state != Disabled ==> id == k
    {
      var idx := Base(qmax, descq[k].qType);
      var idxMax := idx + 2 * qmax;
      ghost var start := idx;
      while idx < idxMax
        invariant start <= idx <= idxMax && (start <= k ==> idx <= k || idx == idxMax)
        invariant start <= k < idxMax ==> idx <= k
      {
        if idx == k { return idx; }
        idx := idx + 1;
      }
      id := -1;
    }

    /** qdma_dev_increment_active_queue */
    method IncrementActive(t: nat) returns (ok: bool)
      requires t <= Q_CMPT
      modifies this
      ensures var c := old(View().active);
              && (ok <==> c.At(t) + 1 <= caps.totalQ)
              && View() == old(View()).(active := if ok then c.Put(t, c.At(t) + 1) else c)
    {
      var count := if t == Q_H2C then h2cCount else if t == Q_C2H then c2hCount else cmptCount;
      if caps.totalQ < count + 1 { return false; }
      if t == Q_H2C {
        h2cCount := h2cCount + 1;
      } else if t == Q_C2H {
        c2hCount := c2hCount + 1;
      } else {
        cmptCount := cmptCount + 1;
      }
      ok := true;
    }

    /** qdma_dev_decrement_active_queue: a counter never goes below zero. */
    method DecrementActive(t: nat)
      requires t <= Q_CMPT
      modifies this
      ensures var c := old(View().active); View() == old(View()).(active := c.Put(t, Dec(c.At(t))))
    {
      if t == Q_H2C {
        if h2cCount != 0 { h2cCount := h2cCount - 1; }
      } else if t == Q_C2H {
        if c2hCount != 0 { c2hCount := c2hCount - 1; }
      } else {
        if cmptCount != 0 { cmptCount := cmptCount - 1; }
      }
    }

    /** qdma_queue_add */
    method QueueAdd(h: Helpers, qType: nat, st: bool, qidx: nat) returns (rv: Rv)
      requires Valid()
      modifies this, descq
      ensures Valid() && (View(), rv) == Add(old(View()), h, qType, st, qidx)
    {
      hide Compatible, Base, Install;
      if qType > Q_CMPT { return EInval; }
      if st && qType == Q_CMPT { return EInval; }
      if qType == Q_CMPT && !caps.mmCmpt { return EInval; }
      if (st && !caps.st) || (!st && !caps.mm) { return EInval; }
      if !h.valid { return EInval; }
      if qidx >= qmax { return EInval; }
      var count := if qType == Q_H2C then h2cCount else if qType == Q_C2H then c2hCount else cmptCount;
      if count >= qmax { return EIo; }
      var usable := IsUsableQueue(qidx, qType, st);
      if !usable { return EPerm; }
      rv := Enable(h, qType, st, qidx);
    }

    /** The second half of qdma_queue_add. */
    method Enable(h: Helpers, qType: QType, st: bool, qidx: nat) returns (rv: Rv)
      requires Valid() && qidx < qmax
      modifies this, descq
      ensures Valid() && (View(), rv) == Install(old(View()), h, qType, st, qidx)
    {
      var k := Base(qmax, qType) + qidx;
      descq[k] := descq[k].(state := Enabled);
      if !initQrange {
        if !h.prep { return PrepFailed; }
        initQrange := true;
      }
      if !h.legacy {
        descq[k] := descq[k].(state := Disabled);
        assert descq[..] == old(descq[..])[k := old(descq[k]).(state := Disabled)];
        return EInval;
      }
      descq[k] := Descq(descq[k].state, st, qType, qidx);
      assert descq[..] == old(descq[..])[k := Descq(Enabled, st, qType, qidx)];
      var ok := IncrementActive(qType);
      if !ok { return NoQueuesLeft; }
      if st && qType == Q_C2H {
        ok := IncrementActive(Q_CMPT);
        if !ok {
          DecrementActive(qType);
          return NoQueuesLeft;
        }
      }
      rv := Ok(k);
    }

    /** qdma_queue_start */
    method QueueStart(id: nat, setup: bool) returns (rv: Rv)
      requires Valid()
      modifies descq
      ensures (View(), rv) == Start(old(View()), id, setup)
    {
      var found, k := GetDescqById(id, true);
      if !found || descq[k].state != Enabled || !setup { return EInval; }
      descq[k] := descq[k].(state := Online);
      rv := Ok(id);
    }

    /** qdma_queue_stop */
    method QueueStop(id: nat) returns (rv: Rv)
      requires Valid()
      modifies descq
      ensures (View(), rv) == Stop(old(View()), id)
    {
      var found, k := GetDescqById(id, true);
      if !found || descq[k].state != Online { return EInval; }
      descq[k] := descq[k].(state := Enabled);
      rv := Ok(id);
    }

    /** qdma_queue_remove */
    method QueueRemove(id: nat) returns (rv: Rv)
      requires Valid()
      modifies this, descq
      ensures Valid() && (View(), rv) == Remove(old(View()), id)
    {
      var found, k := GetDescqById(id, true);
      if !found || descq[k].state != Enabled { return EInval; }
      DecrementActive(descq[k].qType);
      if descq[k].st && descq[k].qType == Q_C2H { DecrementActive(Q_CMPT); }
      descq[k] := descq[k].(state := Disabled);
      rv := Ok(id);
    }
  }
}
