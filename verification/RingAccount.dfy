/** The engine with several outstanding transfers: as long as desc_used and the new slice fit the ring, and
    the oldest transfer is retired first, transfer_init builds into free slots. */
module RingAccount {
  import opened Descriptor
  import opened Fetch
  import opened Scatter
  import opened Compile
  import opened EngineModel
  import opened EngineInvariant
  import opened EngineRuns
  import opened Submit
  import opened Rounds
  import RingUse

  /** The slices of the transfers built and not yet retired, oldest first. */
  function SlicesOf(xfer: map<Id, Xfer>, live: seq<Id>): (s: seq<Slice>)
    requires forall i | 0 <= i < |live| :: live[i] in xfer
    ensures |s| == |live|
  {
    seq(|live|, i requires 0 <= i < |live| => Slice(xfer[live[i]].index, xfer[live[i]].num))
  }

  /** The ring account of an engine. */
  function UseOf(e: Eng, live: seq<Id>): RingUse.Use
    requires forall i | 0 <= i < |live| :: live[i] in e.xfer
  {
    RingUse.Use(|e.ring|, e.index, e.used, SlicesOf(e.xfer, live))
  }

  /** Every queued transfer is live, the live ones are in the ring as they were built, and their slices
      follow each other around it; desc_used counts them and does not exceed the ring. */
  ghost predicate Accounted(c: Conf, e: Eng, live: seq<Id>) {
    && Distinct(live) && e.used <= |e.ring|
    && (forall i | 0 <= i < |live| :: live[i] in e.xfer && Loaded(c, e.ring, e.xfer[live[i]]))
    && (forall i | 0 <= i < |e.queue| :: e.queue[i] in live)
    && RingUse.Consecutive(UseOf(e, live))
  }

  lemma LiveApart(c: Conf, e: Eng, live: seq<Id>, i: nat, j: nat)
    requires Accounted(c, e, live) && i < j < |live|
    ensures var x, y := e.xfer[live[i]], e.xfer[live[j]];
            x.index + x.num <= y.index || y.index + y.num <= x.index
  {
    hide RingUse.Consecutive, Loaded;
    RingUse.FewAreApart(UseOf(e, live), i, j);
  }

  /** A slice of n descriptors at the cursor keeps clear of the live ones if the count allows it. */
  lemma NewApart(c: Conf, e: Eng, live: seq<Id>, n: nat, i: nat)
    requires Accounted(c, e, live) && i < |live|
    requires 0 < n && e.index + n <= |e.ring| && e.used + n <= |e.ring|
    ensures var x := e.xfer[live[i]];
            e.index + n <= x.index || x.index + x.num <= e.index
  {
    hide RingUse.Consecutive, Loaded;
    var u := UseOf(e, live);
    var u1 := u.(cursor := RingUse.Slot(u.cursor + n, u.size), used := u.used + n,
                 slices := u.slices + [Slice(u.cursor, n)]);
    RingUse.AppendKeeps(u, n);
    RingUse.FewAreApart(u1, i, |live|);
  }

  /** If the count does not allow it, the slice overlaps the oldest live one. */
  lemma NewOverlaps(c: Conf, e: Eng, live: seq<Id>, n: nat)
    requires Accounted(c, e, live)
    requires 0 < n && e.index + n <= |e.ring| && |e.ring| < e.used + n
    ensures live != []
    ensures var x := e.xfer[live[0]];
            e.index < x.index + x.num && x.index < e.index + n
  {
    hide RingUse.Consecutive, Loaded;
    var u := UseOf(e, live);
    var u1 := u.(cursor := RingUse.Slot(u.cursor + n, u.size), used := u.used + n,
                 slices := u.slices + [Slice(u.cursor, n)]);
    RingUse.AppendKeeps(u, n);
    RingUse.ManyOverlap(u1);
    var j :| 0 < j < |u1.slices| && RingUse.Overlap(u1.slices[0], u1.slices[j]);
    if j < |live| { LiveApart(c, e, live, 0, j); }
  }

  /** Building a slice and retiring the oldest transfer are the steps of the ring account. */
  lemma BuildIsTake(c: Conf, e: Eng, live: seq<Id>, id: Id, pieces: seq<Seg>, ep: nat, rem: nat)
    requires forall i | 0 <= i < |live| :: live[i] in e.xfer
    requires e.index < |e.ring| && id !in live && 0 < rem && |pieces| == SliceLen(e.index, rem, |e.ring|)
    ensures var e1 := Build(c, e, id, pieces, ep);
            UseOf(e1, live + [id]) == RingUse.Apply(UseOf(e, live), RingUse.Take(rem))
  {
    hide Place, LinearCopy, Flatten, TotalLen, SliceLen, RingUse.Slot;
    SlotIs(e.index + |pieces|, |e.ring|);
    var e1 := Build(c, e, id, pieces, ep);
    assert SlicesOf(e1.xfer, live + [id]) == SlicesOf(e.xfer, live) + [Slice(e.index, |pieces|)];
  }

  lemma RetireIsRetire(e: Eng, live: seq<Id>)
    requires forall i | 0 <= i < |live| :: live[i] in e.xfer
    requires e.index < |e.ring| && live != []
    ensures var x := e.xfer[live[0]];
            UseOf(Released(e, x.index, x.num), live[1..]) == RingUse.Apply(UseOf(e, live), RingUse.Retire)
  {
    hide Cleared;
    assert SlicesOf(e.xfer, live[1..]) == SlicesOf(e.xfer, live)[1..];
  }

  ghost predicate FreeAt(e: Eng, live: seq<Id>, p: nat, n: nat)
    requires forall i | 0 <= i < |live| :: live[i] in e.xfer
  {
    forall i | 0 <= i < |live| ::
      p + n <= e.xfer[live[i]].index || e.xfer[live[i]].index + e.xfer[live[i]].num <= p
  }

  /** transfer_init, which does not look, builds into free slots exactly if desc_used leaves room. */
  lemma BuildFreeIff(c: Conf, e: Eng, live: seq<Id>, n: nat)
    requires Accounted(c, e, live) && 0 < n && e.index + n <= |e.ring|
    ensures FreeAt(e, live, e.index, n) <==> e.used + n <= |e.ring|
  {
    hide RingUse.Consecutive, Loaded;
    if e.used + n <= |e.ring| {
      forall i | 0 <= i < |live|
        ensures e.index + n <= e.xfer[live[i]].index || e.xfer[live[i]].index + e.xfer[live[i]].num <= e.index
      {
        NewApart(c, e, live, n, i);
      }
    } else {
      NewOverlaps(c, e, live, n);
    }
  }

  // --- runs -------------------------------------------------------------------------------------------

  /** A step of the engine, or the oldest transfer is retired: its descriptors are cleared and given back. */
  datatype Deed = Do(ev: Event) | Retire

  datatype Book = Book(e: Eng, live: seq<Id>)

  /** The rules of the callers: a slice is built only if desc_used leaves room for it, a built transfer is
      queued once, the oldest transfer is retired when it has left the queue. */
  ghost predicate Permitted(c: Conf, b: Book, d: Deed) {
    match d
    case Retire => b.live != [] && b.live[0] !in b.e.queue
    case Do(ev) =>
      match ev
      case EvBuild(id, pieces, _) =>
        id !in b.live && pieces != [] && b.e.index + |pieces| <= |b.e.ring| && b.e.used + |pieces| <= |b.e.ring|
      case EvQueue(id, _, _) => id in b.live && id !in b.e.queue
      case _ => Legal(c, b.e, ev)
  }

  ghost predicate Good(c: Conf, b: Book) {
    Inv(c, b.e) && Accounted(c, b.e, b.live)
  }

  /** What the rules allow is what the engine's invariant asks for. */
  lemma PermittedIsLegal(c: Conf, b: Book, ev: Event)
    requires Good(c, b) && Permitted(c, b, Do(ev))
    ensures b.e.Known() && Legal(c, b.e, ev)
  {
    hide Inv, Loaded, RingUse.Consecutive;
    InvKnown(c, b.e);
    match ev
    case EvBuild(id, pieces, _) =>
      BuildFreeIff(c, b.e, b.live, |pieces|);
      hide Accounted;
      QueueFree(c, b, |pieces|);
      QueueNew(c, b, id);
    case EvQueue(id, _, _) =>
    case _ =>
  }

  lemma QueueFree(c: Conf, b: Book, n: nat)
    requires Accounted(c, b.e, b.live) && FreeAt(b.e, b.live, b.e.index, n)
    ensures Disjoint(b.e, b.e.index, n)
  {
    hide Loaded, RingUse.Consecutive;
    forall i | 0 <= i < |b.e.queue| && b.e.queue[i] in b.e.xfer
      ensures b.e.index + n <= b.e.xfer[b.e.queue[i]].index
           || b.e.xfer[b.e.queue[i]].index + b.e.xfer[b.e.queue[i]].num <= b.e.index
    {
      assert b.e.queue[i] in b.live;
      var j :| 0 <= j < |b.live| && b.live[j] == b.e.queue[i];
    }
  }

  lemma QueueNew(c: Conf, b: Book, id: Id)
    requires Accounted(c, b.e, b.live) && id !in b.live
    ensures id !in b.e.queue
  {
    hide Loaded, RingUse.Consecutive;
  }

  ghost function Next(c: Conf, b: Book, d: Deed): Book
    requires Good(c, b) && Permitted(c, b, d)
  {
    match d
    case Retire =>
      OldestKnown(c, b);
      var x := b.e.xfer[b.live[0]];
      Book(Released(b.e, x.index, x.num), b.live[1..])
    case Do(ev) =>
      PermittedIsLegal(c, b, ev);
      Book(Apply(c, b.e, ev), if ev.EvBuild? then b.live + [ev.id] else b.live)
  }

  lemma OldestKnown(c: Conf, b: Book)
    requires Accounted(c, b.e, b.live) && b.live != []
    ensures b.live[0] in b.e.xfer
  {
  }

  // --- building -----------------------------------------------------------------------------------------

  lemma BuildGood(c: Conf, b: Book, id: Id, pieces: seq<Seg>, ep: nat)
    requires Good(c, b) && Permitted(c, b, Do(EvBuild(id, pieces, ep)))
    ensures Good(c, Next(c, b, Do(EvBuild(id, pieces, ep))))
  {
    hide Inv, Accounted, Build;
    PermittedIsLegal(c, b, EvBuild(id, pieces, ep));
    BuildKeeps(c, b.e, id, pieces, ep);
    BuildAccounted(c, b, id, pieces, ep);
  }

  lemma BuildAccounted(c: Conf, b: Book, id: Id, pieces: seq<Seg>, ep: nat)
    requires Good(c, b) && Permitted(c, b, Do(EvBuild(id, pieces, ep)))
    ensures Accounted(c, Build(c, b.e, id, pieces, ep), b.live + [id])
  {
    hide Inv, Loaded, RingUse.Consecutive, Place, LinearCopy, Flatten, TotalLen, RingUse.Slot;
    var e, n := b.e, |pieces|;
    var e1, live := Build(c, e, id, pieces, ep), b.live + [id];
    InvBaseAligned(c, e);
    BuiltIsLoaded(c, e, id, pieces, ep);
    forall i | 0 <= i < |live| ensures live[i] in e1.xfer && Loaded(c, e1.ring, e1.xfer[live[i]]) {
      if i < |b.live| {
        LiveFrame(c, b, id, pieces, ep, i);
      }
    }
    RingUse.AppendKeeps(UseOf(e, b.live), n);
    SlotIs(e.index + n, |e.ring|);
    assert SlicesOf(e1.xfer, live) == SlicesOf(e.xfer, b.live) + [Slice(e.index, n)];
  }

  lemma InvBaseAligned(c: Conf, e: Eng)
    requires Inv(c, e)
    ensures c.base % 32 == 0
  {
    hide Loaded, OnHead;
  }

  lemma SlotIs(pos: nat, size: nat)
    requires 0 < size
    ensures RingUse.Slot(pos, size) == pos % size
  {
  }

  lemma LiveFrame(c: Conf, b: Book, id: Id, pieces: seq<Seg>, ep: nat, i: nat)
    requires Good(c, b) && Permitted(c, b, Do(EvBuild(id, pieces, ep))) && i < |b.live|
    ensures var e1 := Build(c, b.e, id, pieces, ep);
            && b.live[i] in e1.xfer && e1.xfer[b.live[i]] == b.e.xfer[b.live[i]]
            && Loaded(c, e1.ring, e1.xfer[b.live[i]])
  {
    hide Inv, RingUse.Consecutive, Place, LinearCopy, Flatten, TotalLen, Chained, ChainMoves;
    var x := b.e.xfer[b.live[i]];
    assert Loaded(c, b.e.ring, x);
    NewApart(c, b.e, b.live, |pieces|, i);
    PlaceFrame(b.e.ring, c, b.e.index, pieces, ep, x.index, x.num);
    LoadedFrame(c, b.e.ring, Place(b.e.ring, c.base, b.e.index, pieces, ep, c.mode), x);
  }

  // --- every other step of the engine ---------------------------------------------------------------------

  lemma AccountedFrame(c: Conf, e: Eng, e1: Eng, live: seq<Id>)
    requires Accounted(c, e, live) && SameAccount(e, e1) && forall i | 0 <= i < |e1.queue| :: e1.queue[i] in live
    ensures Accounted(c, e1, live)
  {
    hide RingUse.Consecutive, Loaded;
    forall i | 0 <= i < |live| ensures live[i] in e1.xfer && Loaded(c, e1.ring, e1.xfer[live[i]]) {
      LoadedStatic(c, e.ring, e.xfer[live[i]], e1.xfer[live[i]]);
    }
    assert SlicesOf(e1.xfer, live) == SlicesOf(e.xfer, live);
  }

  lemma LoadedStatic(c: Conf, ring: seq<Desc>, x: Xfer, y: Xfer)
    requires Loaded(c, ring, x) && SameStatic(x, y)
    ensures Loaded(c, ring, y)
  {
    hide Chained, ChainMoves;
  }

  lemma QueueGood(c: Conf, b: Book, id: Id, offline: bool, st: Status)
    requires Good(c, b) && Permitted(c, b, Do(EvQueue(id, offline, st)))
    ensures Good(c, Next(c, b, Do(EvQueue(id, offline, st))))
  {
    hide Inv, Accounted, Queue;
    PermittedIsLegal(c, b, EvQueue(id, offline, st));
    QueueKeeps(c, b.e, id, offline, st);
    QueueSame(c, b.e, id, offline, st);
    QueueLive(c, b, id, offline, st);
    AccountedFrame(c, b.e, Queue(b.e, id, offline, st).0, b.live);
  }

  lemma QueueSame(c: Conf, e: Eng, id: Id, offline: bool, st: Status)
    requires e.Known() && id in e.xfer
    ensures SameAccount(e, Queue(e, id, offline, st).0)
  {
  }

  lemma QueueLive(c: Conf, b: Book, id: Id, offline: bool, st: Status)
    requires Accounted(c, b.e, b.live) && b.e.Known() && id in b.e.xfer && id in b.live
    ensures var e1 := Queue(b.e, id, offline, st).0;
            forall i | 0 <= i < |e1.queue| :: e1.queue[i] in b.live
  {
    hide RingUse.Consecutive, Loaded;
  }

  /** Any other step leaves the account alone and adds nothing to the queue. */
  lemma OtherSame(c: Conf, e: Eng, ev: Event)
    requires e.Known() && Legal(c, e, ev) && !ev.EvBuild? && !ev.EvQueue?
    ensures SameJobs(e, Apply(c, e, ev))
  {
    match ev
    case EvService(r) =>
      hide Service;
      ServiceSameJobs(e, r);
    case EvTimeout(id, st) =>
      hide SameJobs, Timeout;
      TimeoutSame(e, id, st);
    case EvOffline =>
    case EvOnline =>
    case EvHw =>
      hide Step, Executes;
  }

  /** Both histories only grow: what is queued afterwards was queued before. */
  lemma QueueShrinks(c: Conf, e: Eng, e1: Eng)
    requires e.removed + e.queue == e.submitted == e1.submitted == e1.removed + e1.queue && Grows(e, e1)
    ensures forall i | 0 <= i < |e1.queue| :: e1.queue[i] in e.queue
  {
    var k := |e1.removed| - |e.removed|;
    forall i | 0 <= i < |e1.queue| ensures e1.queue[i] in e.queue {
      assert e1.submitted[|e1.removed| + i] == e1.queue[i];
      assert e.submitted[|e.removed| + k + i] == e.queue[k + i];
    }
  }

  lemma History(c: Conf, e: Eng)
    requires Inv(c, e)
    ensures e.Known() && e.removed + e.queue == e.submitted
  {
  }

  lemma OtherGood(c: Conf, b: Book, ev: Event)
    requires Good(c, b) && Permitted(c, b, Do(ev)) && !ev.EvBuild? && !ev.EvQueue?
    ensures Good(c, Next(c, b, Do(ev)))
  {
    hide Inv, Accounted, Apply, Legal;
    PermittedIsLegal(c, b, ev);
    var e1 := Apply(c, b.e, ev);
    History(c, b.e);
    StepKeeps(c, b.e, ev);
    History(c, e1);
    OtherSame(c, b.e, ev);
    StepGrows(c, b.e, ev);
    QueueShrinks(c, b.e, e1);
    LiveQueue(c, b, e1);
    AccountedFrame(c, b.e, e1, b.live);
  }

  lemma LiveQueue(c: Conf, b: Book, e1: Eng)
    requires Accounted(c, b.e, b.live) && forall i | 0 <= i < |e1.queue| :: e1.queue[i] in b.e.queue
    ensures forall i | 0 <= i < |e1.queue| :: e1.queue[i] in b.live
  {
    hide RingUse.Consecutive, Loaded;
  }

  // --- retiring the oldest transfer ----------------------------------------------------------------------

  lemma RetireGood(c: Conf, b: Book)
    requires Good(c, b) && Permitted(c, b, Retire)
    ensures Good(c, Next(c, b, Retire))
  {
    hide Inv, Accounted, Loaded;
    OldestKnown(c, b);
    RetireInv(c, b);
    RetireAccounted(c, b);
  }

  /** The slots of the oldest transfer are no other live transfer's. */
  lemma ClearedFrame(c: Conf, b: Book, i: nat)
    requires Accounted(c, b.e, b.live) && 0 < i < |b.live|
    ensures b.live[0] in b.e.xfer && b.live[i] in b.e.xfer
    ensures var x, y := b.e.xfer[b.live[0]], b.e.xfer[b.live[i]];
            && SameSlots(b.e.ring, Cleared(b.e.ring, x.index, x.num), y.index, y.num)
            && Loaded(c, b.e.ring, y) && Loaded(c, Cleared(b.e.ring, x.index, x.num), y)
  {
    hide RingUse.Consecutive, Chained, ChainMoves;
    LiveApart(c, b.e, b.live, 0, i);
    var x, y := b.e.xfer[b.live[0]], b.e.xfer[b.live[i]];
    assert Loaded(c, b.e.ring, y);
    LoadedFrame(c, b.e.ring, Cleared(b.e.ring, x.index, x.num), y);
  }

  lemma RetireAccounted(c: Conf, b: Book)
    requires Good(c, b) && Permitted(c, b, Retire) && b.live[0] in b.e.xfer
    ensures var x := b.e.xfer[b.live[0]];
            Accounted(c, Released(b.e, x.index, x.num), b.live[1..])
  {
    hide Inv, Loaded, RingUse.Consecutive, Cleared;
    var x := b.e.xfer[b.live[0]];
    var e1, live := Released(b.e, x.index, x.num), b.live[1..];
    forall i | 0 <= i < |live| ensures live[i] in e1.xfer && Loaded(c, e1.ring, e1.xfer[live[i]]) {
      ClearedFrame(c, b, i + 1);
    }
    forall i | 0 <= i < |e1.queue| ensures e1.queue[i] in live {
      assert e1.queue[i] in b.live && b.live == [b.live[0]] + live;
    }
    RingUse.RetireKeeps(UseOf(b.e, b.live));
    assert SlicesOf(e1.xfer, live) == SlicesOf(b.e.xfer, b.live)[1..];
  }

  lemma RetireInv(c: Conf, b: Book)
    requires Good(c, b) && Permitted(c, b, Retire) && b.live[0] in b.e.xfer
    ensures var x := b.e.xfer[b.live[0]]; Inv(c, Released(b.e, x.index, x.num))
  {
    hide Loaded, OnHead, RingUse.Consecutive, Cleared;
    var x := b.e.xfer[b.live[0]];
    var e1 := Released(b.e, x.index, x.num);
    forall i | 0 <= i < |b.e.queue|
      ensures SameSlots(b.e.ring, e1.ring, b.e.xfer[b.e.queue[i]].index, b.e.xfer[b.e.queue[i]].num)
      ensures Loaded(c, e1.ring, b.e.xfer[b.e.queue[i]])
    {
      var j := QueuedAt(c, b, i);
      ClearedFrame(c, b, j);
    }
    if b.e.running { OnHeadFrame(c, b.e, e1); }
  }

  lemma QueuedAt(c: Conf, b: Book, i: nat) returns (j: nat)
    requires Accounted(c, b.e, b.live) && b.live != [] && b.live[0] !in b.e.queue && i < |b.e.queue|
    ensures 0 < j < |b.live| && b.live[j] == b.e.queue[i]
  {
    hide Loaded, RingUse.Consecutive;
    assert b.e.queue[i] in b.live;
    j :| 0 <= j < |b.live| && b.live[j] == b.e.queue[i];
  }

  // --- whole runs --------------------------------------------------------------------------------------------

  lemma DeedGood(c: Conf, b: Book, d: Deed)
    requires Good(c, b) && Permitted(c, b, d)
    ensures Good(c, Next(c, b, d))
  {
    hide Good, Permitted, Next;
    match d
    case Retire => RetireGood(c, b);
    case Do(ev) =>
      match ev
      case EvBuild(id, pieces, ep) => BuildGood(c, b, id, pieces, ep);
      case EvQueue(id, offline, st) => QueueGood(c, b, id, offline, st);
      case _ => OtherGood(c, b, ev);
  }

  ghost predicate Does(c: Conf, b: Book, d: Deed, b1: Book) {
    Permitted(c, b, d) && (Good(c, b) ==> b1 == Next(c, b, d))
  }

  ghost predicate IsHistory(c: Conf, s: seq<Book>, ds: seq<Deed>) {
    |s| == |ds| + 1 && forall i | 0 <= i < |ds| :: Does(c, s[i], ds[i], s[i + 1])
  }

  /** Whatever the engine, the device and the callers do: if no slice is built for which desc_used leaves no
      room, and transfers are retired oldest first, every build goes into free slots and every queued
      transfer is in the ring as it was built, so the engine's invariant holds throughout. */
  lemma {:induction false} RoomIsEnough(c: Conf, s: seq<Book>, ds: seq<Deed>, i: nat)
    requires IsHistory(c, s, ds) && Good(c, s[0]) && i < |s|
    ensures Inv(c, s[i].e) && Accounted(c, s[i].e, s[i].live)
    ensures i < |ds| && ds[i].Do? ==> s[i].e.Known() && Legal(c, s[i].e, ds[i].ev)
  {
    hide Inv, Accounted, Permitted, Next, Legal;
    GoodAt(c, s, ds, i);
    if i < |ds| && ds[i].Do? {
      assert Does(c, s[i], ds[i], s[i + 1]);
      PermittedIsLegal(c, s[i], ds[i].ev);
    }
  }

  lemma {:induction false} GoodAt(c: Conf, s: seq<Book>, ds: seq<Deed>, i: nat)
    requires IsHistory(c, s, ds) && Good(c, s[0]) && i < |s|
    ensures Good(c, s[i])
  {
    hide Good, Permitted, Next;
    if i > 0 {
      GoodAt(c, s, ds, i - 1);
      assert Does(c, s[i - 1], ds[i - 1], s[i - 1 + 1]);
      DeedGood(c, s[i - 1], ds[i - 1]);
    }
  }

  /** A new engine is such a state. */
  lemma IdleIsGood(c: Conf, e: Eng)
    requires Idle(c, e) && e.used == 0
    ensures Good(c, Book(e, []))
  {
    hide Loaded, OnHead;
    var u := RingUse.Empty(|e.ring|, e.index);
    assert UseOf(e, []) == u;
  }
}
