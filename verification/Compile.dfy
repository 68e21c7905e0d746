/** Laying software descriptors out on the descriptor ring as non-wrapping slices
    (transfer_init, transfer_build), and what running the slices moves. */
module Compile {
  import opened Arith
  import opened Descriptor
  import opened Fetch
  import opened Scatter

  // --- the closed form of a compiled slice --------------------------------------

  /** Descriptor i of an n-descriptor transfer that starts in slot p of a ring at `base`. */
  function CompiledDesc(base: nat, p: nat, n: nat, i: nat, piece: Seg, ep: nat, dir: Dir): Desc
    requires i < n
  {
    var next := if i == n - 1 then 0 else base + 32 * (p + i + 1);
    var field := if i == n - 1 then LAST_CONTROL else 0;
    var control := SetAdjacent(ControlSet(DESC_MAGIC, field), GetNextAdj(n - 1 - i, Lo(next)));
    var (src, dst) := if dir == ToDevice then (piece.addr, ep) else (ep, piece.addr);
    Desc(control, piece.len, Lo(src), Hi(src), Lo(dst), Hi(dst), Lo(next), Hi(next))
  }

  /** Device address of piece i. */
  function EpAt(pieces: seq<Seg>, ep: nat, i: nat, m: Mode): nat
    requires i <= |pieces|
  {
    m.Advance(ep, TotalLen(pieces[..i]))
  }

  /** The ring after a transfer made of `pieces` was built from slot p on. */
  function Place(ring: seq<Desc>, base: nat, p: nat, pieces: seq<Seg>, ep: nat, m: Mode): (r: seq<Desc>)
    ensures |r| == |ring|
  {
    seq(|ring|, j requires 0 <= j < |ring| =>
      if p <= j < p + |pieces|
      then CompiledDesc(base, p, |pieces|, j - p, pieces[j - p], EpAt(pieces, ep, j - p, m), m.dir)
      else ring[j])
  }

  ghost predicate Compiled(ring: seq<Desc>, base: nat, p: nat, pieces: seq<Seg>, ep: nat, m: Mode) {
    && p + |pieces| <= |ring|
    && forall i | 0 <= i < |pieces| ::
         ring[p + i] == CompiledDesc(base, p, |pieces|, i, pieces[i], EpAt(pieces, ep, i, m), m.dir)
  }

  lemma PlaceCompiles(ring: seq<Desc>, base: nat, p: nat, pieces: seq<Seg>, ep: nat, m: Mode)
    requires p + |pieces| <= |ring|
    ensures Compiled(Place(ring, base, p, pieces, ep, m), base, p, pieces, ep, m)
  {
    hide CompiledDesc, EpAt;
  }

  /** What the driver writes into descriptor i of a transfer: length and host address of its piece, and the
      device address behind the pieces before it, or always the same if it does not advance. */
  lemma PlacedAddresses(ring: seq<Desc>, base: nat, p: nat, pieces: seq<Seg>, ep: nat, m: Mode, i: nat)
    requires p + |pieces| <= |ring| && i < |pieces|
    ensures var d := Place(ring, base, p, pieces, ep, m)[p + i];
            var (host, dev) := if m.dir.ToDevice? then (d.Src(), d.Dst()) else (d.Dst(), d.Src());
            && d.bytes == pieces[i].len && host == pieces[i].addr
            && dev == if m.nonIncr then ep else ep + TotalLen(pieces[..i])
  {
    hide CompiledDesc, TotalLen, Place;
    PlaceCompiles(ring, base, p, pieces, ep, m);
    CompiledAddresses(base, p, |pieces|, i, pieces[i], EpAt(pieces, ep, i, m), m.dir);
  }

  lemma CompiledAddresses(base: nat, p: nat, n: nat, i: nat, piece: Seg, ep: nat, dir: Dir)
    requires i < n
    ensures var d := CompiledDesc(base, p, n, i, piece, ep, dir);
            && d.bytes == piece.len
            && (if dir.ToDevice? then d.Src() == piece.addr && d.Dst() == ep else d.Src() == ep && d.Dst() == piece.addr)
  {
    hide SetAdjacent, ControlSet, GetNextAdj, Lo, Hi, Join;
    JoinSplit(piece.addr);
    JoinSplit(ep);
  }

  lemma StoppedBit(control: bv32)
    ensures Stopped(control) == (ControlByte(control) & DESC_STOPPED != 0)
  {
  }

  lemma CompiledLink(base: nat, p: nat, n: nat, i: nat, piece: Seg, ep: nat, dir: Dir)
    requires i < n
    ensures var d := CompiledDesc(base, p, n, i, piece, ep, dir);
            && Magic(d.control) == 0xAD4B
            && (Stopped(d.control) <==> i == n - 1)
            && ControlByte(d.control) == (if i == n - 1 then 0x13 else 0)
            && Adjacent(d.control) == GetNextAdj(n - 1 - i, d.nextLo)
  {
    hide Magic, Adjacent, Stopped, ControlByte, SetAdjacent, ControlSet, GetNextAdj, Lo, Hi;
    var next := if i == n - 1 then 0 else base + 32 * (p + i + 1);
    LastFits();
    ControlRoundTrip(if i == n - 1 then LAST_CONTROL else 0, GetNextAdj(n - 1 - i, Lo(next)));
    StoppedBit(CompiledDesc(base, p, n, i, piece, ep, dir).control);
  }

  lemma LastFits()
    ensures FitsByte(LAST_CONTROL) && FitsByte(0) && LAST_CONTROL == 0x13
    ensures LAST_CONTROL & DESC_STOPPED != 0 && (0 as bv32) & DESC_STOPPED == 0
  {
  }

  /** A compiled slice is one terminated chain, whatever the pieces and the ring position. */
  lemma CompiledIsChained(ring: seq<Desc>, base: nat, p: nat, pieces: seq<Seg>, ep: nat, m: Mode)
    requires Compiled(ring, base, p, pieces, ep, m) && pieces != [] && base % 32 == 0
    ensures Chained(Ring(ring, base), p, |pieces|)
  {
    forall i | 0 <= i < |pieces| ensures LinkOk(Ring(ring, base), p, |pieces|, i) {
      hide Magic, Adjacent, Stopped, ControlByte, SetAdjacent, ControlSet, GetNextAdj, Lo, Hi, EpAt;
      CompiledLink(base, p, |pieces|, i, pieces[i], EpAt(pieces, ep, i, m), m.dir);
    }
  }

  // --- what a slice moves ---------------------------------------------------------

  /** The bytes moved by executing the given slots in order. */
  function SlotMoves(ring: seq<Desc>, slots: seq<nat>, m: Mode): seq<Move>
    requires forall i | 0 <= i < |slots| :: slots[i] < |ring|
  {
    if slots == [] then []
    else SlotMoves(ring, slots[..|slots| - 1], m) + DescMoves(ring[slots[|slots| - 1]], m)
  }

  /** Moves of the first k descriptors from slot p. */
  function ChainMoves(ring: seq<Desc>, p: nat, k: nat, m: Mode): seq<Move>
    requires p + k <= |ring|
  {
    if k == 0 then [] else ChainMoves(ring, p, k - 1, m) + DescMoves(ring[p + k - 1], m)
  }

  lemma {:induction false} SlotMovesOfChain(ring: seq<Desc>, p: nat, k: nat, m: Mode)
    requires p + k <= |ring|
    ensures SlotMoves(ring, Slots(p, k), m) == ChainMoves(ring, p, k, m)
  {
    if k > 0 {
      SlotMovesOfChain(ring, p, k - 1, m);
      assert Slots(p, k)[..k - 1] == Slots(p, k - 1);
    }
  }

  lemma CompiledDescMoves(base: nat, p: nat, n: nat, i: nat, piece: Seg, ep: nat, m: Mode)
    requires i < n
    ensures DescMoves(CompiledDesc(base, p, n, i, piece, ep, m.dir), m) == LinearCopy(Bytes(piece), ep, m)
  {
    hide SetAdjacent, ControlSet, GetNextAdj, Lo, Hi, Join;
    JoinSplit(piece.addr);
    JoinSplit(ep);
  }

  lemma {:induction false} ChainMovesLinear(ring: seq<Desc>, base: nat, p: nat, pieces: seq<Seg>, ep: nat, m: Mode, k: nat)
    requires Compiled(ring, base, p, pieces, ep, m) && k <= |pieces|
    ensures ChainMoves(ring, p, k, m) == LinearCopy(Flatten(pieces[..k]), ep, m)
  {
    hide CompiledDesc, DescMoves, LinearCopy, Bytes;
    if k > 0 {
      ChainMovesLinear(ring, base, p, pieces, ep, m, k - 1);
      CompiledDescMoves(base, p, |pieces|, k - 1, pieces[k - 1], EpAt(pieces, ep, k - 1, m), m);
      assert pieces[..k] == pieces[..k - 1] + [pieces[k - 1]];
      FlattenSnoc(pieces[..k - 1], pieces[k - 1]);
      FlattenLen(pieces[..k - 1]);
      LinearConcat(Flatten(pieces[..k - 1]), Bytes(pieces[k - 1]), ep, m);
    } else {
      assert LinearCopy([], ep, m) == [];
    }
  }

  /** One transfer: programming the engine with its first descriptor and letting it run until it
      stops moves exactly the flattened pieces, to or from consecutive device addresses. */
  lemma TransferIsLinearCopy(ring: seq<Desc>, base: nat, p: nat, pieces: seq<Seg>, ep: nat, m: Mode, k: nat)
    requires Compiled(ring, base, p, pieces, ep, m) && pieces != [] && base % 32 == 0 && |pieces| <= k
    ensures var t := Run(Ring(ring, base), Programmed(base + 32 * p, |pieces|), k);
            && t.at == Done
            && (forall i | 0 <= i < |t.slots| :: t.slots[i] < |ring|)
            && SlotMoves(ring, t.slots, m) == LinearCopy(Flatten(pieces), ep, m)
  {
    hide CompiledDesc, LinearCopy, Flatten, Chained, Programmed;
    var r := Ring(ring, base);
    CompiledIsChained(ring, base, p, pieces, ep, m);
    WalkEnds(r, p, |pieces|, k);
    WalkPrefix(r, p, |pieces|, |pieces|);
    SlotMovesOfChain(ring, p, |pieces|, m);
    ChainMovesLinear(ring, base, p, pieces, ep, m, |pieces|);
    assert pieces[..|pieces|] == pieces;
  }

  // --- slicing a request over the ring ----------------------------------------------

  /** transfer_init's descriptor count at cursor p of a ring of d slots. */
  function SliceLen(p: nat, rem: nat, d: nat): nat
    requires p < d
  {
    var most := Min(rem, d);
    if p + most >= d then d - p else most
  }

  datatype Slice = Slice(start: nat, len: nat)

  function Slices(p: nat, rem: nat, d: nat): seq<Slice>
    requires p < d
    decreases rem
  {
    if rem == 0 then []
    else
      var n := SliceLen(p, rem, d);
      [Slice(p, n)] + Slices((p + n) % d, rem - n, d)
  }

  /** Descriptors of the first k slices. */
  function SliceSum(s: seq<Slice>, k: nat): nat
    requires k <= |s|
  {
    if k == 0 then 0 else SliceSum(s, k - 1) + s[k - 1].len
  }

  lemma {:induction false} SliceSumTail(s: seq<Slice>, k: nat)
    requires k < |s|
    ensures SliceSum(s, k + 1) == s[0].len + SliceSum(s[1..], k)
  {
    if k > 0 { SliceSumTail(s, k - 1); }
  }

  /** A request of rem > 0 descriptors at cursor p uses ceil((p + rem) / d) transfers. */
  lemma {:induction false} SlicesExact(p: nat, rem: nat, d: nat)
    requires p < d
    ensures var s := Slices(p, rem, d);
            && (forall i | 0 <= i < |s| :: 0 < s[i].len && s[i].start + s[i].len <= d)
            && SliceSum(s, |s|) == rem
            && (0 < rem ==> |s| == CeilDiv(p + rem, d))
    decreases rem
  {
    hide CeilDiv, SliceLen, SliceSum;
    NoSlices(Slices(p, rem, d));
    if 0 < rem {
      SliceCursor(p, rem, d);
      var n := SliceLen(p, rem, d);
      var q := (p + n) % d;
      SlicesExact(q, rem - n, d);
      assert Slices(p, rem, d)[1..] == Slices(q, rem - n, d);
      SliceSumTail(Slices(p, rem, d), |Slices(q, rem - n, d)|);
      if p + rem <= d {
        CeilOne(p + rem, d);
        assert rem - n == 0;
      } else {
        CeilNext(p + rem, d);
      }
    }
  }

  lemma NoSlices(s: seq<Slice>)
    ensures SliceSum(s, 0) == 0
  {
  }

  lemma SliceCursor(p: nat, rem: nat, d: nat)
    requires p < d && 0 < rem
    ensures var n := SliceLen(p, rem, d);
            && 0 < n <= rem && p + n <= d
            && (p + n) % d == (if p + n == d then 0 else p + n)
            && (p + rem > d ==> p + n == d)
            && (p + rem <= d ==> n == rem)
  {
    if p + SliceLen(p, rem, d) == d {
      DivUnique(d, d, 1, 0);
    }
  }

  lemma CeilOne(a: nat, d: nat)
    requires 0 < a <= d
    ensures CeilDiv(a, d) == 1
  {
    CeilStep(a, d);
  }

  lemma CeilNext(a: nat, d: nat)
    requires 0 < d < a
    ensures CeilDiv(a, d) == 1 + CeilDiv(a - d, d)
  {
    CeilStep(a, d);
  }

  /** Hence two transfers are always enough for a request that fits the ring. */
  lemma TwoTransfersSuffice(p: nat, rem: nat, d: nat)
    requires p < d && 0 < rem <= d
    ensures |Slices(p, rem, d)| == (if p + rem <= d then 1 else 2)
  {
    SlicesExact(p, rem, d);
    if p + rem <= d { CeilOne(p + rem, d); } else { CeilNext(p + rem, d); CeilOne(p + rem - d, d); }
  }

  /** Build one slice, program the engine with it, and run until it stops. */
  function RunSlice(ring: seq<Desc>, base: nat, p: nat, pieces: seq<Seg>, ep: nat, m: Mode): seq<Move>
    requires pieces != [] && p + |pieces| <= |ring| && base % 32 == 0
  {
    var built := Place(ring, base, p, pieces, ep, m);
    PlaceCompiles(ring, base, p, pieces, ep, m);
    TransferIsLinearCopy(built, base, p, pieces, ep, m, |pieces|);
    SlotMoves(built, Run(Ring(built, base), Programmed(base + 32 * p, |pieces|), |pieces|).slots, m)
  }

  lemma RunSliceIsCopy(ring: seq<Desc>, base: nat, p: nat, pieces: seq<Seg>, ep: nat, m: Mode)
    requires pieces != [] && p + |pieces| <= |ring| && base % 32 == 0
    ensures RunSlice(ring, base, p, pieces, ep, m) == LinearCopy(Flatten(pieces), ep, m)
  {
    hide LinearCopy, Run, Place, SlotMoves, Compiled, Programmed, Flatten;
    var built := Place(ring, base, p, pieces, ep, m);
    PlaceCompiles(ring, base, p, pieces, ep, m);
    TransferIsLinearCopy(built, base, p, pieces, ep, m, |pieces|);
  }

  /** The whole request: run a slice, go on with the rest at the next cursor. */
  function RunRequest(ring: seq<Desc>, base: nat, p: nat, pieces: seq<Seg>, ep: nat, m: Mode): seq<Move>
    requires p < |ring| && base % 32 == 0
    decreases |pieces|
  {
    if pieces == [] then []
    else
      SliceCursor(p, |pieces|, |ring|);
      var n := SliceLen(p, |pieces|, |ring|);
      RunSlice(ring, base, p, pieces[..n], ep, m)
      + RunRequest(Place(ring, base, p, pieces[..n], ep, m), base, (p + n) % |ring|, pieces[n..],
                   m.Advance(ep, TotalLen(pieces[..n])), m)
  }

  /** Compiling preserves meaning: for every list of pieces, ring position, direction and address
      mode, running the transfers of a request in turn is one linear copy of the flattened list. */
  lemma {:induction false} CompilingPreservesMeaning(ring: seq<Desc>, base: nat, p: nat, pieces: seq<Seg>, ep: nat, m: Mode)
    requires p < |ring| && base % 32 == 0
    ensures RunRequest(ring, base, p, pieces, ep, m) == LinearCopy(Flatten(pieces), ep, m)
    decreases |pieces|
  {
    hide LinearCopy, RunSlice, Place, SliceLen, Bytes;
    if pieces == [] {
      assert LinearCopy([], ep, m) == [];
    } else {
      SliceCursor(p, |pieces|, |ring|);
      var n := SliceLen(p, |pieces|, |ring|);
      var a, b := pieces[..n], pieces[n..];
      RunSliceIsCopy(ring, base, p, a, ep, m);
      CompilingPreservesMeaning(Place(ring, base, p, a, ep, m), base, (p + n) % |ring|, b,
                                m.Advance(ep, TotalLen(a)), m);
      assert pieces == a + b;
      SplitCopy(a, b, ep, m);
    }
  }

  lemma SplitCopy(a: seq<Seg>, b: seq<Seg>, ep: nat, m: Mode)
    ensures LinearCopy(Flatten(a + b), ep, m)
         == LinearCopy(Flatten(a), ep, m) + LinearCopy(Flatten(b), m.Advance(ep, TotalLen(a)), m)
  {
    hide LinearCopy, Flatten;
    FlattenConcat(a, b);
    FlattenLen(a);
    LinearConcat(Flatten(a), Flatten(b), ep, m);
  }
}
