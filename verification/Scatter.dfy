/** Scatter lists and what a request means: the linear copy of the flattened list
    to or from consecutive device addresses. */
module Scatter {
  import opened Arith
  import opened Descriptor

  /** An entry of a scatter list (address and length on the bus) or a software descriptor. */
  datatype Seg = Seg(addr: nat, len: nat)

  function Bytes(s: Seg): (b: seq<nat>)
    ensures |b| == s.len
  {
    seq(s.len, k requires 0 <= k < s.len => s.addr + k)
  }

  function Flatten(segs: seq<Seg>): seq<nat> {
    if segs == [] then [] else Bytes(segs[0]) + Flatten(segs[1..])
  }

  function TotalLen(segs: seq<Seg>): nat {
    if segs == [] then 0 else segs[0].len + TotalLen(segs[1..])
  }

  /** One byte moved by the device. */
  datatype Move = Move(src: nat, dst: nat)

  /** A copy between host and device: direction, and whether the device address advances. */
  datatype Mode = Mode(dir: Dir, nonIncr: bool)
  {
    function DevByte(ep: nat, k: nat): nat { if nonIncr then ep else ep + k }
    function One(host: nat, dev: nat): Move {
      if dir == ToDevice then Move(host, dev) else Move(dev, host)
    }
    function Advance(ep: nat, len: nat): nat { if nonIncr then ep else ep + len }
  }

  /** The meaning of a request: host byte k goes to (or comes from) device byte ep + k. */
  function LinearCopy(host: seq<nat>, ep: nat, m: Mode): (c: seq<Move>)
    ensures |c| == |host|
  {
    seq(|host|, k requires 0 <= k < |host| => m.One(host[k], m.DevByte(ep, k)))
  }

  /** Byte k of the copy: from or to the same place of the list, and device address ep + k, or always ep if
      the device address does not advance. */
  lemma CopyAt(host: seq<nat>, ep: nat, m: Mode, k: nat)
    requires k < |host|
    ensures var dev := if m.nonIncr then ep else ep + k;
            LinearCopy(host, ep, m)[k] == if m.dir.ToDevice? then Move(host[k], dev) else Move(dev, host[k])
  {
  }

  /** What executing one descriptor moves. */
  function DescMoves(d: Desc, m: Mode): seq<Move> {
    seq(d.bytes, k requires 0 <= k < d.bytes =>
      if m.dir == ToDevice then Move(d.Src() + k, m.DevByte(d.Dst(), k))
      else Move(m.DevByte(d.Src(), k), d.Dst() + k))
  }

  lemma {:induction false} FlattenLen(segs: seq<Seg>)
    ensures |Flatten(segs)| == TotalLen(segs)
  {
    if segs != [] { FlattenLen(segs[1..]); }
  }

  lemma Regroup<T>(a: seq<T>, b: seq<T>, c: seq<T>)
    ensures (a + b) + c == a + (b + c)
  {
  }

  lemma ConcatTail<T>(a: seq<T>, b: seq<T>)
    requires a != []
    ensures a + b != [] && (a + b)[0] == a[0] && (a + b)[1..] == a[1..] + b
  {
  }

  lemma {:induction false} FlattenConcat(a: seq<Seg>, b: seq<Seg>)
    ensures Flatten(a + b) == Flatten(a) + Flatten(b)
    ensures TotalLen(a + b) == TotalLen(a) + TotalLen(b)
  {
    hide Bytes;
    if a == [] {
      assert a + b == b;
    } else {
      ConcatTail(a, b);
      FlattenConcat(a[1..], b);
      Regroup(Bytes(a[0]), Flatten(a[1..]), Flatten(b));
    }
  }

  lemma FlattenSnoc(a: seq<Seg>, s: Seg)
    ensures Flatten(a + [s]) == Flatten(a) + Bytes(s)
    ensures TotalLen(a + [s]) == TotalLen(a) + s.len
  {
    FlattenConcat(a, [s]);
    assert Flatten([s]) == Bytes(s) + Flatten([]);
  }

  lemma BytesSplit(s: Seg, k: nat)
    requires k <= s.len
    ensures Bytes(s) == Bytes(Seg(s.addr, k)) + Bytes(Seg(s.addr + k, s.len - k))
  {
  }

  /** In incrementing mode the copy of a + b is the copy of a followed by the copy of b. */
  lemma LinearConcat(a: seq<nat>, b: seq<nat>, ep: nat, m: Mode)
    ensures LinearCopy(a + b, ep, m) == LinearCopy(a, ep, m) + LinearCopy(b, m.Advance(ep, |a|), m)
  {
  }

  // --- splitting a request into bounded descriptors ----------------------------

  function Pieces(segs: seq<Seg>, blen: nat): nat
    requires 0 < blen
  {
    if segs == [] then 0 else Pieces(segs[..|segs| - 1], blen) + CeilDiv(segs[|segs| - 1].len, blen)
  }

  ghost predicate Bounded(segs: seq<Seg>, blen: nat) {
    forall i | 0 <= i < |segs| :: 0 < segs[i].len <= blen
  }

  /** Room added for an oversized entry, in 32-bit arithmetic. */
  function ExtraFor(len: nat, blen: nat): nat
    requires 0 < blen
  {
    if len > blen then Over(Wrap32(len + blen - 1), blen) else 0
  }

  /** Software descriptors xdma_init_request makes room for. */
  function Room(segs: seq<Seg>, blen: nat): nat
    requires 0 < blen
  {
    if segs == [] then 0 else Room(segs[..|segs| - 1], blen) + 1 + ExtraFor(segs[|segs| - 1].len, blen)
  }

  /** An oversized entry for which the room computation wraps around. */
  predicate Wraps(len: nat, blen: nat) { blen < len && 0x1_0000_0000 < len + blen }

  /** Pieces for which wrapped entries get no room. */
  function Lacking(segs: seq<Seg>, blen: nat): nat
    requires 0 < blen
  {
    if segs == [] then 0
    else
      var len := segs[|segs| - 1].len;
      if Wraps(len, blen) then CeilIsOne(len, blen); Lacking(segs[..|segs| - 1], blen) + CeilDiv(len, blen) - 1
      else Lacking(segs[..|segs| - 1], blen)
  }

  /** Room that empty entries and other oversized entries leave over. */
  function Spare(segs: seq<Seg>, blen: nat): nat {
    if segs == [] then 0
    else
      var len := segs[|segs| - 1].len;
      Spare(segs[..|segs| - 1], blen) + (if !Wraps(len, blen) && (len == 0 || blen < len) then 1 else 0)
  }

  lemma CeilIsOne(len: nat, blen: nat)
    requires 0 < blen < len
    ensures 1 < CeilDiv(len, blen)
  {
    CeilStep(len, blen);
    CeilStep(len - blen, blen);
  }

  /** One entry: its own piece and one more, its own piece alone, or a single slot for all its pieces. */
  lemma ExtraIs(len: nat, blen: nat)
    requires 0 < blen && len < 0x1_0000_0000
    ensures 1 + ExtraFor(len, blen) ==
            if Wraps(len, blen) then 1
            else CeilDiv(len, blen) + (if len == 0 || blen < len then 1 else 0)
  {
    CeilStep(len, blen);
    if Wraps(len, blen) { OverSmall(len + blen - 1 - 0x1_0000_0000, blen); }
  }

  /** The room falls short of the pieces exactly if the wrapped entries lack more than the others spare. */
  lemma {:induction false} RoomIs(segs: seq<Seg>, blen: nat)
    requires 0 < blen && forall i | 0 <= i < |segs| :: segs[i].len < 0x1_0000_0000
    ensures Room(segs, blen) + Lacking(segs, blen) == Pieces(segs, blen) + Spare(segs, blen)
  {
    hide ExtraFor, CeilDiv, Wraps;
    if segs != [] {
      RoomIs(segs[..|segs| - 1], blen);
      ExtraIs(segs[|segs| - 1].len, blen);
    }
  }

  /** No entry wraps if none is oversized and within `blen` bytes of 4 GiB: then the room always suffices. */
  lemma {:induction false} NothingLacks(segs: seq<Seg>, blen: nat)
    requires 0 < blen && forall i | 0 <= i < |segs| :: !Wraps(segs[i].len, blen)
    ensures Lacking(segs, blen) == 0
  {
    if segs != [] { NothingLacks(segs[..|segs| - 1], blen); }
  }

  /** A single entry overruns its slot exactly if it is oversized and within `blen` bytes of 4 GiB. */
  lemma OneEntryFits(s: Seg, blen: nat)
    requires 0 < blen && s.len < 0x1_0000_0000
    ensures Lacking([s], blen) <= Spare([s], blen) <==> !Wraps(s.len, blen)
  {
    assert Lacking([], blen) == 0 && Spare([], blen) == 0;
    assert [s][..0] == [];
    if Wraps(s.len, blen) { CeilIsOne(s.len, blen); }
  }

  lemma NoBytes(addr: nat)
    ensures Bytes(Seg(addr, 0)) == []
  {
  }

  /** Piece k of an entry cut every `blen` bytes: full length, or what is left. */
  predicate IsCut(piece: Seg, sg: Seg, blen: nat, k: nat) {
    piece.addr == sg.addr + k * blen && piece.len == (if sg.len - k * blen < blen then sg.len - k * blen else blen)
  }

  /** k full pieces take this many bytes. */
  predicate Multiple(bytes: nat, k: nat, blen: nat) { bytes == k * blen }

  lemma CutNext(sg: Seg, blen: nat, k: nat, at: nat)
    requires Multiple(at, k, blen) && at <= sg.len
    ensures IsCut(Seg(sg.addr + at, if sg.len - at > blen then blen else sg.len - at), sg, blen, k)
    ensures Multiple(at + blen, k + 1, blen)
  {
  }

  /** The inner loop of xdma_init_request: cuts one entry into pieces from slot j0 on. The source does not
      check the index before it writes; `inside` says whether every piece went into the array. */
  method CutEntry(sdesc: array<Seg>, j0: nat, sg: Seg, blen: nat) returns (j: nat, inside: bool)
    requires 0 < blen && (j0 <= sdesc.Length ==> Bounded(sdesc[..j0], blen))
    modifies sdesc
    ensures j == j0 + CeilDiv(sg.len, blen)
    ensures inside <==> j <= sdesc.Length || j == j0
    ensures j <= sdesc.Length ==> Bounded(sdesc[..j], blen)
    ensures j <= sdesc.Length ==> Flatten(sdesc[..j]) == Flatten(old(sdesc[..j0])) + Bytes(sg)
    ensures forall i | 0 <= i < j0 && i < sdesc.Length :: sdesc[i] == old(sdesc[i])
    ensures j <= sdesc.Length ==> forall i | j0 <= i < j :: IsCut(sdesc[i], sg, blen, i - j0)
  {
    hide Flatten, Bytes, CeilDiv, IsCut, Multiple;
    MultipleOfNone(blen);
    var tlen: nat, addr := sg.len, sg.addr;
    NoBytes(sg.addr);
    j, inside := j0, true;
    while tlen != 0
      invariant tlen <= sg.len && addr == sg.addr + (sg.len - tlen)
      invariant j0 <= j && j + CeilDiv(tlen, blen) == j0 + CeilDiv(sg.len, blen)
      invariant inside <==> j <= sdesc.Length || j == j0
      invariant j <= sdesc.Length ==> Bounded(sdesc[..j], blen)
      invariant j <= sdesc.Length ==>
        Flatten(sdesc[..j]) == Flatten(old(sdesc[..j0])) + Bytes(Seg(sg.addr, sg.len - tlen))
      invariant forall i | 0 <= i < j0 && i < sdesc.Length :: sdesc[i] == old(sdesc[i])
      invariant tlen != 0 ==> Multiple(sg.len - tlen, j - j0, blen)
      invariant j <= sdesc.Length ==> forall i | j0 <= i < j :: IsCut(sdesc[i], sg, blen, i - j0)
      decreases tlen
    {
      CeilStep(tlen, blen);
      CutNext(sg, blen, j - j0, sg.len - tlen);
      var len := if tlen > blen then blen else tlen;
      if j < sdesc.Length {
        ghost var before := sdesc[..j];
        sdesc[j] := Seg(addr, len);
        assert sdesc[..j + 1] == before + [Seg(addr, len)];
        OnePiece(before, old(sdesc[..j0]), sg, sg.len - tlen, len);
      } else {
        inside := false;
      }
      addr := addr + len;
      tlen := tlen - len;
      j := j + 1;
    }
    CeilStep(0, blen);
  }

  lemma MultipleOfNone(blen: nat)
    ensures Multiple(0, 0, blen)
  {
  }

  lemma OnePiece(before: seq<Seg>, start: seq<Seg>, sg: Seg, at: nat, len: nat)
    requires at + len <= sg.len && Flatten(before) == Flatten(start) + Bytes(Seg(sg.addr, at))
    ensures Flatten(before + [Seg(sg.addr + at, len)]) == Flatten(start) + Bytes(Seg(sg.addr, at + len))
  {
    hide Flatten, Bytes;
    FlattenSnoc(before, Seg(sg.addr + at, len));
    BytesSplit(Seg(sg.addr, at + len), at);
  }

  /** The first loop of xdma_init_request: one slot for every entry, and more for the oversized ones. */
  method CountRoom(sgl: seq<Seg>, blen: nat) returns (max: nat)
    requires 0 < blen
    ensures max == Room(sgl, blen)
  {
    hide ExtraFor;
    var extra := 0;
    for i := 0 to |sgl|
      invariant i + extra == Room(sgl[..i], blen)
    {
      assert sgl[..i + 1][..i] == sgl[..i];
      extra := extra + ExtraFor(sgl[i].len, blen);
    }
    assert sgl[..|sgl|] == sgl;
    max := |sgl| + extra;
  }

  /** xdma_init_request: counts, allocates, then cuts every entry into pieces of at most `blen` bytes.
      `ok` is false on the "more than supported length" exit of the source, which is taken after the
      pieces were written; `inside` says whether all of them went into the array. */
  method InitRequest(sgl: seq<Seg>, blen: nat)
    returns (sdesc: array<Seg>, cnt: nat, total: nat, ok: bool, inside: bool)
    requires 0 < blen < 0x1_0000_0000
    requires forall i | 0 <= i < |sgl| :: sgl[i].len < 0x1_0000_0000
    ensures fresh(sdesc) && cnt == Pieces(sgl, blen) && total == Wrap32(TotalLen(sgl))
    ensures ok == inside == (Lacking(sgl, blen) <= Spare(sgl, blen))
    ensures ok ==> cnt <= sdesc.Length && Bounded(sdesc[..cnt], blen) && Flatten(sdesc[..cnt]) == Flatten(sgl)
  {
    hide Flatten, Bytes, CeilDiv, Room, Lacking, Spare, IsCut;
    var max := CountRoom(sgl, blen);
    sdesc := new Seg[max](_ => Seg(0, 0));
    assert sgl[..|sgl|] == sgl;

    var j := 0;
    total, inside := 0, true;
    for i := 0 to |sgl|
      invariant j == Pieces(sgl[..i], blen) && inside == (j <= max)
      invariant j <= max ==> Bounded(sdesc[..j], blen) && Flatten(sdesc[..j]) == Flatten(sgl[..i])
      invariant total == Wrap32(TotalLen(sgl[..i]))
    {
      total := Wrap32(total + sgl[i].len);
      assert sgl[..i + 1] == sgl[..i] + [sgl[i]];
      assert sgl[..i + 1][..i] == sgl[..i];
      FlattenSnoc(sgl[..i], sgl[i]);
      WrapAdd(TotalLen(sgl[..i]), sgl[i].len);
      var fits;
      j, fits := CutEntry(sdesc, j, sgl[i], blen);
      inside := inside && fits;
    }
    ok := j <= max;
    cnt := j;
    RoomIs(sgl, blen);
  }
}
