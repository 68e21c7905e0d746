/** The build section of xdma_xfer_aperture on the driver's engine, and what running it moves. */
module ApertureDriver {
  import opened Arith
  import opened Descriptor
  import opened Fetch
  import opened Scatter
  import opened Compile
  import opened EngineModel
  import opened EngineDriver
  import opened Aperture
  import opened Masks

  /** Entry lengths are 32-bit. */
  ghost predicate Lengths32(sgl: seq<Seg>) { forall j | 0 <= j < |sgl| :: sgl[j].len < 0x1_0000_0000 }

  /** The aperture fields of struct xdma_request_cb. */
  class ApertureRequest {
    const sgl: seq<Seg>
    const window: Window
    const logSize: nat
    var offset: nat
    var sgIdx: nat
    var sgOffset: nat

    constructor (sgl: seq<Seg>, window: Window, logSize: nat)
      requires 0 < window.maxLen <= window.size == Pow2(logSize)
      requires Lengths32(sgl)
      ensures this.sgl == sgl && this.window == window && this.logSize == logSize
      ensures Valid() && View() == Progress(0, 0, 0)
    {
      this.sgl, this.window, this.logSize := sgl, window, logSize;
      this.offset, this.sgIdx, this.sgOffset := 0, 0, 0;
    }

    ghost predicate Valid()
      reads this
    {
      && 0 < window.maxLen <= window.size == Pow2(logSize) && sgOffset < 0x1_0000_0000 && offset < 0x1_0000_0000
      && Lengths32(sgl)
    }

    ghost function View(): Progress
      reads this
    {
      Progress(offset, sgIdx, sgOffset)
    }
  }

  /** The descriptors of a transfer, before they are linked: addresses and lengths in place. */
  ghost predicate SlotsFilled(desc: seq<Desc>, before: seq<Desc>, p: nat, pieces: seq<Piece>, dir: Dir) {
    && |desc| == |before| && p + |pieces| <= |desc|
    && (forall j | 0 <= j < |desc| ::
          desc[j] == if p <= j < p + |pieces|
                     then EngineDriver.Filled(before[j], pieces[j - p].seg, pieces[j - p].ep, dir) else before[j])
  }

  /** The loop state `c`, `ep` is in bounds and has still to produce the rest of the walk `whole`. */
  ghost predicate Remains(whole: Walked, sgl: seq<Seg>, c: Cursor, ep: nat, w: Window, slots: nat, pieces: seq<Piece>) {
    && CursorOk(sgl, c) && InWindowOrEnd(w, ep)
    && var rest := Walk(sgl, c, ep, w, slots);
       whole == rest.(pieces := pieces + rest.pieces)
  }

  lemma RemainsStart(sgl: seq<Seg>, c: Cursor, ep: nat, w: Window, slots: nat)
    requires CursorOk(sgl, c) && InWindowOrEnd(w, ep)
    ensures Remains(Walk(sgl, c, ep, w, slots), sgl, c, ep, w, slots, [])
  {
  }

  lemma RemainsBounds(whole: Walked, sgl: seq<Seg>, c: Cursor, ep: nat, w: Window, slots: nat, pieces: seq<Piece>)
    requires Remains(whole, sgl, c, ep, w, slots, pieces)
    ensures CursorOk(sgl, c) && InWindowOrEnd(w, ep)
    ensures |sgl| <= c.i || slots == 0 ==> whole == Walked(pieces, c, ep)
  {
  }

  lemma RemainsSkip(whole: Walked, sgl: seq<Seg>, c: Cursor, ep: nat, w: Window, slots: nat, pieces: seq<Piece>)
    requires Remains(whole, sgl, c, ep, w, slots, pieces) && c.i < |sgl| && BytesLeft(sgl[c.cur].len, c.o) == 0 && 0 < slots
    ensures Remains(whole, sgl, Cursor(c.cur + 1, c.i + 1, 0), ep, w, slots, pieces)
  {
    WalkIs(sgl, c, ep, w, slots);
  }

  lemma RemainsTake(whole: Walked, sgl: seq<Seg>, c: Cursor, ep: nat, w: Window, slots: nat, pieces: seq<Piece>)
    requires Remains(whole, sgl, c, ep, w, slots, pieces) && c.i < |sgl| && BytesLeft(sgl[c.cur].len, c.o) != 0 && 0 < slots
    ensures var p := NextPiece(sgl, c, ep, w);
            Remains(whole, sgl, After(sgl, c, p.seg.len), p.ep + p.seg.len, w, slots - 1, pieces + [p])
  {
    hide Walk, NextPiece, After, BytesLeft;
    PieceFits(sgl, c, ep, w);
    WalkIs(sgl, c, ep, w, slots);
    var p := NextPiece(sgl, c, ep, w);
    Regroup(pieces, [p], Walk(sgl, After(sgl, c, p.seg.len), p.ep + p.seg.len, w, slots - 1).pieces);
  }

  lemma SlotsFilledSnoc(desc: seq<Desc>, before: seq<Desc>, p: nat, pieces: seq<Piece>, x: Piece, dir: Dir)
    requires SlotsFilled(desc, before, p, pieces, dir) && p + |pieces| < |desc|
    ensures var j := p + |pieces|;
            SlotsFilled(desc[j := EngineDriver.Filled(desc[j], x.seg, x.ep, dir)], before, p, pieces + [x], dir)
  {
  }

  lemma HostBytesSnoc(pieces: seq<Piece>, p: Piece)
    ensures |HostBytes(pieces + [p])| == |HostBytes(pieces)| + p.seg.len
  {
    HostBytesConcat(pieces, [p]);
    HostBytesCons(p, []);
    NoHostBytes();
    assert [p] + [] == [p];
  }

  /** A build under way, from slot `from` and request offset `start` on: its descriptors are in the ring,
      its bytes in the offset, and loop state `c`, `ep` has still to make the rest of `whole`. */
  ghost predicate Filling(desc: seq<Desc>, before: seq<Desc>, from: nat, offset: nat, start: nat, whole: Walked,
                          sgl: seq<Seg>, w: Window, c: Cursor, ep: nat, pieces: seq<Piece>, dir: Dir) {
    && from + |pieces| <= |desc| && SlotsFilled(desc, before, from, pieces, dir)
    && offset == Wrap32(start + |HostBytes(pieces)|)
    && Remains(whole, sgl, c, ep, w, |desc| - from - |pieces|, pieces)
  }

  lemma FillingStart(desc: seq<Desc>, from: nat, start: nat, sgl: seq<Seg>, w: Window, c: Cursor, ep: nat, dir: Dir)
    requires from <= |desc| && start < 0x1_0000_0000 && CursorOk(sgl, c) && InWindowOrEnd(w, ep)
    ensures Filling(desc, desc, from, start, start, Walk(sgl, c, ep, w, |desc| - from), sgl, w, c, ep, [], dir)
  {
    NoHostBytes();
    WrapAdd(start, 0);
    RemainsStart(sgl, c, ep, w, |desc| - from);
    hide Remains, Walk, Wrap32, HostBytes;
  }

  lemma FillingEnd(desc: seq<Desc>, before: seq<Desc>, from: nat, offset: nat, start: nat, whole: Walked,
                   sgl: seq<Seg>, w: Window, c: Cursor, ep: nat, pieces: seq<Piece>, dir: Dir)
    requires Filling(desc, before, from, offset, start, whole, sgl, w, c, ep, pieces, dir)
    ensures CursorOk(sgl, c) && InWindowOrEnd(w, ep) && offset < 0x1_0000_0000
    ensures |sgl| <= c.i || from + |pieces| == |desc| ==>
      whole.pieces == pieces && whole.c == c
      && SlotsFilled(desc, before, from, pieces, dir) && offset == Wrap32(start + |HostBytes(pieces)|)
  {
    RemainsBounds(whole, sgl, c, ep, w, |desc| - from - |pieces|, pieces);
  }

  lemma FillingSkip(desc: seq<Desc>, before: seq<Desc>, from: nat, offset: nat, start: nat, whole: Walked,
                    sgl: seq<Seg>, w: Window, c: Cursor, ep: nat, pieces: seq<Piece>, dir: Dir)
    requires Filling(desc, before, from, offset, start, whole, sgl, w, c, ep, pieces, dir)
    requires c.i < |sgl| && c.cur < |sgl| && BytesLeft(sgl[c.cur].len, c.o) == 0 && from + |pieces| < |desc|
    ensures Filling(desc, before, from, offset, start, whole, sgl, w, Cursor(c.cur + 1, c.i + 1, 0), ep, pieces, dir)
  {
    hide SlotsFilled, HostBytes, Wrap32;
    RemainsBounds(whole, sgl, c, ep, w, |desc| - from - |pieces|, pieces);
    RemainsSkip(whole, sgl, c, ep, w, |desc| - from - |pieces|, pieces);
    hide Remains;
  }

  lemma FillingTake(desc: seq<Desc>, before: seq<Desc>, from: nat, offset: nat, start: nat, whole: Walked,
                    sgl: seq<Seg>, w: Window, c: Cursor, ep: nat, pieces: seq<Piece>, dir: Dir)
    requires Filling(desc, before, from, offset, start, whole, sgl, w, c, ep, pieces, dir)
    requires c.cur <= c.i < |sgl| && BytesLeft(sgl[c.cur].len, c.o) != 0 && from + |pieces| < |desc| && 0 < w.size
    ensures var p, j := NextPiece(sgl, c, ep, w), from + |pieces|;
            Filling(desc[j := EngineDriver.Filled(desc[j], p.seg, p.ep, dir)], before, from, Wrap32(offset + p.seg.len), start,
                    whole, sgl, w, After(sgl, c, p.seg.len), p.ep + p.seg.len, pieces + [p], dir)
  {
    hide SlotsFilled, HostBytes, Wrap32, Remains, EngineDriver.Filled, NextPiece, After, BytesLeft;
    RemainsTake(whole, sgl, c, ep, w, |desc| - from - |pieces|, pieces);
    var p := NextPiece(sgl, c, ep, w);
    SlotsFilledSnoc(desc, before, from, pieces, p, dir);
    HostBytesSnoc(pieces, p);
    WrapAdd(start + |HostBytes(pieces)|, p.seg.len);
  }

  // --- one descriptor ---------------------------------------------------------------------------

  /** What one turn of the inner loop computes from its variables is the next piece. */
  lemma TurnIsPiece(sgl: seq<Seg>, c: Cursor, ep: nat, w: Window, tlen: nat, addr: nat, len: nat, ep1: nat)
    requires c.cur < |sgl| && CursorOk(sgl, c) && InWindowOrEnd(w, ep)
    requires tlen == BytesLeft(sgl[c.cur].len, c.o) > 0 && addr == sgl[c.cur].addr + c.o
    requires ep1 == (if ep > w.base + w.size - 1 then w.base else ep)
    requires len == (if ep1 + Min(tlen, w.maxLen) > w.base + w.size - 1 then w.base + w.size - ep1 else Min(tlen, w.maxLen))
    ensures NextPiece(sgl, c, ep, w) == Piece(Seg(addr, len), ep1, c.cur)
    ensures 0 < len <= tlen && InWindowOrEnd(w, ep1 + len) && tlen - len == BytesLeft(sgl[c.cur].len, c.o + len)
    ensures After(sgl, c, len) == if tlen == len then Cursor(c.cur + 1, c.i + 1, 0) else Cursor(c.cur, c.i, c.o + len)
    ensures CursorOk(sgl, Cursor(c.cur, c.i, c.o + len))
  {
    PieceFits(sgl, c, ep, w);
  }

  /** The unsigned subtraction at the start of an entry. */
  lemma LeftIsUnsigned(len: nat, o: nat)
    requires len < 0x1_0000_0000 && o < 0x1_0000_0000
    ensures BytesLeft(len, o) == Wrap32(len + 0x1_0000_0000 - o)
    ensures BytesLeft(len, 0) == len
  {
  }

  /** Where the loops go on after an entry. */
  function GoOn(c: Cursor, tlen: nat, o: nat): Cursor {
    if tlen == 0 then Cursor(c.cur + 1, c.i + 1, 0) else Cursor(c.cur, c.i, o)
  }

  /** The inner loop's variables at true offset `o` of an entry. */
  ghost predicate InEntry(sgl: seq<Seg>, c: Cursor, o: nat, tlen: nat, addr: nat, sgOffset: nat) {
    c.cur < |sgl| && tlen == BytesLeft(sgl[c.cur].len, o) && addr == sgl[c.cur].addr + o && sgOffset == Wrap32(o)
  }

  lemma EntryFacts(sgl: seq<Seg>, c: Cursor, o: nat, tlen: nat, addr: nat, sgOffset: nat)
    requires InEntry(sgl, c, o, tlen, addr, sgOffset)
    ensures c.cur < |sgl| && tlen == BytesLeft(sgl[c.cur].len, o) && addr == sgl[c.cur].addr + o && sgOffset == Wrap32(o)
  {
  }

  lemma EntryStep(sgl: seq<Seg>, c: Cursor, o: nat, tlen: nat, addr: nat, sgOffset: nat, len: nat)
    requires InEntry(sgl, c, o, tlen, addr, sgOffset) && len <= tlen == BytesLeft(sgl[c.cur].len, o + len) + len
    ensures InEntry(sgl, c, o + len, tlen - len, addr + len, Wrap32(sgOffset + len))
  {
    hide BytesLeft;
    WrapAdd(o, len);
  }

  ghost predicate CutIs(w: Window, ep: nat, tlen: nat, len: nat, epAddr: nat) {
    && epAddr == (if ep > w.base + w.size - 1 then w.base else ep)
    && len == (if epAddr + Min(tlen, w.maxLen) > w.base + w.size - 1 then w.base + w.size - epAddr else Min(tlen, w.maxLen))
  }

  lemma FillingBounds(desc: seq<Desc>, before: seq<Desc>, from: nat, offset: nat, start: nat, whole: Walked,
                      sgl: seq<Seg>, w: Window, c: Cursor, ep: nat, pieces: seq<Piece>, dir: Dir)
    requires Filling(desc, before, from, offset, start, whole, sgl, w, c, ep, pieces, dir)
    ensures 0 < w.maxLen <= w.size && w.base <= ep <= w.base + w.size
  {
    FillingEnd(desc, before, from, offset, start, whole, sgl, w, c, ep, pieces, dir);
  }

  /** The next descriptor, made from the loop's variables, is the next piece of the walk. */
  lemma FillingTurn(desc: seq<Desc>, before: seq<Desc>, from: nat, offset: nat, start: nat, whole: Walked,
                    sgl: seq<Seg>, w: Window, c: Cursor, o: nat, ep: nat, pieces: seq<Piece>, dir: Dir,
                    tlen: nat, addr: nat, len: nat, epAddr: nat)
    requires Filling(desc, before, from, offset, start, whole, sgl, w, Cursor(c.cur, c.i, o), ep, pieces, dir)
    requires c.cur <= c.i < |sgl| && tlen == BytesLeft(sgl[c.cur].len, o) > 0 && addr == sgl[c.cur].addr + o
    requires from + |pieces| < |desc| && 0 < w.size && CutIs(w, ep, tlen, len, epAddr)
    ensures 0 < len <= tlen == BytesLeft(sgl[c.cur].len, o + len) + len
    ensures var p, j := Piece(Seg(addr, len), epAddr, c.cur), from + |pieces|;
            Filling(desc[j := EngineDriver.Filled(desc[j], p.seg, p.ep, dir)], before, from, Wrap32(offset + len), start,
                    whole, sgl, w, GoOn(c, tlen - len, o + len), epAddr + len, pieces + [p], dir)
  {
    hide Filling, NextPiece, HostBytes, EngineDriver.Filled, Walk;
    var at := Cursor(c.cur, c.i, o);
    FillingEnd(desc, before, from, offset, start, whole, sgl, w, at, ep, pieces, dir);
    TurnIsPiece(sgl, at, ep, w, tlen, addr, len, epAddr);
    FillingTake(desc, before, from, offset, start, whole, sgl, w, at, ep, pieces, dir);
    NextEntry(c, tlen - len, o + len);
    hide *;
  }

  /** One turn of the inner loop. */
  method FillOne(e: Engine, r: ApertureRequest, c: Cursor, tlen: nat, addr: nat, ep: nat, descCnt: nat, ghost o: nat,
                 ghost before: seq<Desc>, ghost start: nat, ghost whole: Walked, ghost pieces: seq<Piece>)
    returns (len: nat, epAddr: nat, ghost p: Piece)
    requires c.cur <= c.i < |r.sgl| && tlen == BytesLeft(r.sgl[c.cur].len, o) > 0 && addr == r.sgl[c.cur].addr + o
    requires descCnt == |pieces| && e.descIdx + descCnt < e.desc.Length
    requires Filling(e.desc[..], before, e.descIdx, r.offset, start, whole, r.sgl, r.window, Cursor(c.cur, c.i, o), ep,
                     pieces, e.conf.mode.dir)
    modifies e.desc, r`offset
    ensures 0 < len <= tlen == BytesLeft(r.sgl[c.cur].len, o + len) + len
    ensures Filling(e.desc[..], before, e.descIdx, r.offset, start, whole, r.sgl, r.window, GoOn(c, tlen - len, o + len),
                    epAddr + len, pieces + [p], e.conf.mode.dir)
  {
    ghost var desc, offset := e.desc[..], r.offset;
    FillingBounds(desc, before, e.descIdx, offset, start, whole, r.sgl, r.window, Cursor(c.cur, c.i, o), ep, pieces,
                  e.conf.mode.dir);
    len, epAddr := CutPiece(r.window, ep, tlen);
    FillingTurn(desc, before, e.descIdx, offset, start, whole, r.sgl, r.window, c, o, ep, pieces, e.conf.mode.dir,
                tlen, addr, len, epAddr);
    hide *;
    p := Piece(Seg(addr, len), epAddr, c.cur);
    DescSet(e.desc, e.descIdx + descCnt, Seg(addr, len), epAddr, e.conf.mode.dir);
    r.offset := Wrap32(r.offset + len);
  }

  /** Wrapping the device address, and the length up to the maximum, the entry and the window. */
  method CutPiece(w: Window, ep: nat, tlen: nat) returns (len: nat, epAddr: nat)
    requires 0 < w.maxLen <= w.size && w.base <= ep <= w.base + w.size
    ensures CutIs(w, ep, tlen, len, epAddr)
  {
    epAddr := ep;
    len := Min(tlen, w.maxLen);
    if epAddr > w.base + w.size - 1 { epAddr := w.base; }
    if epAddr + len > w.base + w.size - 1 { len := w.base + w.size - epAddr; }
  }

  /** The inner loop: descriptors for one entry, until it or the ring is used up. */
  method FillRest(e: Engine, r: ApertureRequest, c: Cursor, left: nat, addr0: nat, ep: nat, cnt: nat,
                  ghost before: seq<Desc>, ghost start: nat, ghost whole: Walked, ghost done: seq<Piece>)
    returns (tlen: nat, sgOffset: nat, epAddr: nat, descCnt: nat, ghost o: nat, ghost pieces: seq<Piece>)
    requires c.cur <= c.i < |r.sgl| && cnt == |done| && e.descIdx + cnt <= e.desc.Length
    requires InEntry(r.sgl, c, c.o, left, addr0, c.o)
    requires Filling(e.desc[..], before, e.descIdx, r.offset, start, whole, r.sgl, r.window,
                     GoOn(c, left, c.o), ep, done, e.conf.mode.dir)
    modifies e.desc, r`offset
    ensures descCnt == |pieces| && e.descIdx + descCnt <= e.desc.Length
    ensures tlen == BytesLeft(r.sgl[c.cur].len, o) && sgOffset == Wrap32(o)
    ensures tlen != 0 ==> e.descIdx + descCnt == e.desc.Length
    ensures Filling(e.desc[..], before, e.descIdx, r.offset, start, whole, r.sgl, r.window, GoOn(c, tlen, o), epAddr,
                    pieces, e.conf.mode.dir)
  {
    hide *;
    var addr: nat := addr0;
    tlen, sgOffset, o, epAddr, descCnt, pieces := left, c.o, c.o, ep, cnt, done;
    while tlen != 0 && e.descIdx + descCnt != e.desc.Length
      invariant descCnt == |pieces| && e.descIdx + descCnt <= e.desc.Length
      invariant InEntry(r.sgl, c, o, tlen, addr, sgOffset)
      invariant Filling(e.desc[..], before, e.descIdx, r.offset, start, whole, r.sgl, r.window, GoOn(c, tlen, o), epAddr,
                        pieces, e.conf.mode.dir)
      decreases tlen
    {
      EntryFacts(r.sgl, c, o, tlen, addr, sgOffset);
      NextEntry(c, tlen, o);
      var len;
      ghost var p;
      len, epAddr, p := FillOne(e, r, c, tlen, addr, epAddr, descCnt, o, before, start, whole, pieces);
      EntryStep(r.sgl, c, o, tlen, addr, sgOffset, len);
      sgOffset := Wrap32(sgOffset + len);
      epAddr := epAddr + len;
      addr := addr + len;
      tlen := tlen - len;
      descCnt := descCnt + 1;
      o := o + len;
      pieces := pieces + [p];
    }
    EntryFacts(r.sgl, c, o, tlen, addr, sgOffset);
  }

  /** One entry of the outer loop: what is left of it, in unsigned arithmetic, and its descriptors. */
  method FillEntry(e: Engine, r: ApertureRequest, c: Cursor, ep: nat, cnt: nat,
                   ghost before: seq<Desc>, ghost start: nat, ghost whole: Walked, ghost done: seq<Piece>)
    returns (tlen: nat, sgOffset: nat, epAddr: nat, descCnt: nat, ghost o: nat, ghost pieces: seq<Piece>)
    requires Lengths32(r.sgl) && c.cur <= c.i < |r.sgl| && c.o < 0x1_0000_0000
    requires cnt == |done| && e.descIdx + cnt < e.desc.Length
    requires Filling(e.desc[..], before, e.descIdx, r.offset, start, whole, r.sgl, r.window, c, ep, done, e.conf.mode.dir)
    modifies e.desc, r`offset
    ensures descCnt == |pieces| && e.descIdx + descCnt <= e.desc.Length
    ensures tlen == BytesLeft(r.sgl[c.cur].len, o) && sgOffset == Wrap32(o)
    ensures tlen != 0 ==> e.descIdx + descCnt == e.desc.Length
    ensures Filling(e.desc[..], before, e.descIdx, r.offset, start, whole, r.sgl, r.window, GoOn(c, tlen, o), epAddr,
                    pieces, e.conf.mode.dir)
  {
    LeftIsUnsigned(r.sgl[c.cur].len, c.o);
    WrapAdd(c.o, 0);
    var addr: nat, left: nat := r.sgl[c.cur].addr, r.sgl[c.cur].len;
    if c.o != 0 {
      left := Wrap32(left + 0x1_0000_0000 - c.o);
      addr := addr + c.o;
    }
    hide Filling, BytesLeft, Wrap32, Pow2;
    if left == 0 {
      FillingSkip(e.desc[..], before, e.descIdx, r.offset, start, whole, r.sgl, r.window, c, ep, done, e.conf.mode.dir);
    }
    tlen, sgOffset, epAddr, descCnt, o, pieces := FillRest(e, r, c, left, addr, ep, cnt, before, start, whole, done);
  }

  /** The outer loop. */
  method FillEntries(e: Engine, r: ApertureRequest, ep: nat, ghost start: nat, ghost whole: Walked)
    returns (descCnt: nat, ghost pieces: seq<Piece>)
    requires r.Valid() && e.descIdx < e.desc.Length
    requires Filling(e.desc[..], e.desc[..], e.descIdx, r.offset, start, whole, r.sgl, r.window,
                     Cursor(0, r.sgIdx, r.sgOffset), ep, [], e.conf.mode.dir)
    modifies e.desc, r
    ensures r.Valid() && descCnt == |pieces|
    ensures pieces == whole.pieces && r.sgIdx == whole.c.i && r.sgOffset == Wrap32(whole.c.o)
    ensures r.offset == Wrap32(start + |HostBytes(pieces)|)
    ensures SlotsFilled(e.desc[..], old(e.desc[..]), e.descIdx, pieces, e.conf.mode.dir)
  {
    WrapAdd(r.sgOffset, 0);
    hide Filling, HostBytes, Pow2, SlotsFilled, BytesLeft, Wrap32, GoOn, Lengths32;
    var cur: nat, i: nat, sgOffset: nat, epAddr: nat := 0, r.sgIdx, r.sgOffset, ep;
    ghost var before, c, dir := e.desc[..], Cursor(cur, i, sgOffset), e.conf.mode.dir;
    descCnt, pieces := 0, [];
    while i < |r.sgl| && e.descIdx + descCnt < e.desc.Length
      invariant c.cur == cur <= i == c.i && c.o == sgOffset < 0x1_0000_0000
      invariant descCnt == |pieces| && e.descIdx + descCnt <= e.desc.Length
      invariant Filling(e.desc[..], before, e.descIdx, r.offset, start, whole, r.sgl, r.window, c, epAddr, pieces, dir)
      decreases |r.sgl| - i
    {
      var tlen;
      ghost var o;
      tlen, sgOffset, epAddr, descCnt, o, pieces :=
        FillEntry(e, r, Cursor(cur, i, sgOffset), epAddr, descCnt, before, start, whole, pieces);
      NextEntry(c, tlen, o);
      c := GoOn(c, tlen, o);
      if tlen != 0 { break; }
      sgOffset := 0;
      cur, i := cur + 1, i + 1;
    }
    FillingEnd(e.desc[..], before, e.descIdx, r.offset, start, whole, r.sgl, r.window, c, epAddr, pieces, dir);
    WrapAdd(c.o, 0);
    r.sgOffset := sgOffset;
    r.sgIdx := i;
  }

  lemma NextEntry(c: Cursor, tlen: nat, o: nat)
    ensures GoOn(c, tlen, o) == if tlen == 0 then Cursor(c.cur + 1, c.i + 1, 0) else Cursor(c.cur, c.i, o)
  {
  }

  /** The device address the build starts at: the request offset masked with the aperture. */
  method StartAddr(r: ApertureRequest) returns (epAddr: nat)
    requires r.Valid()
    ensures epAddr == r.window.base + Residue(r.offset, r.window.size)
  {
    hide Pow2, And, Residue, Lengths32;
    MaskIsMod(r.offset, r.logSize);
    epAddr := r.window.base + And(r.offset, r.window.size - 1);
  }

  lemma StartFills(desc: seq<Desc>, from: nat, sgl: seq<Seg>, w: Window, a: Progress, dir: Dir)
    requires from <= |desc| && a.offset < 0x1_0000_0000 && a.sgOffset < 0x1_0000_0000 && 0 < w.maxLen <= w.size
    ensures Filling(desc, desc, from, a.offset, a.offset, Transfer(sgl, w, a, |desc| - from), sgl, w,
                    Cursor(0, a.sgIdx, a.sgOffset), w.base + Residue(a.offset, w.size), [], dir)
  {
    hide Filling, Walk, Residue;
    ResidueBound(a.offset, w.size);
    FillingStart(desc, from, a.offset, sgl, w, Cursor(0, a.sgIdx, a.sgOffset), w.base + Residue(a.offset, w.size), dir);
  }

  lemma NextIs(a: Progress, t: Walked)
    ensures Next(a, t) == Progress(Wrap32(a.offset + |HostBytes(t.pieces)|), t.c.i, Wrap32(t.c.o))
  {
  }

  // --- linking ------------------------------------------------------------------------------------------

  /** The two nested build loops: the descriptors are the walk of the scatter list, whatever position the
      request has stored. */
  method FillDescriptors(e: Engine, r: ApertureRequest) returns (descCnt: nat, ghost pieces: seq<Piece>)
    requires r.Valid() && e.descIdx < e.desc.Length
    modifies e.desc, r
    ensures r.Valid() && descCnt == |pieces|
    ensures var t := Transfer(r.sgl, r.window, old(r.View()), e.desc.Length - e.descIdx);
            pieces == t.pieces && r.View() == Next(old(r.View()), t)
    ensures SlotsFilled(e.desc[..], old(e.desc[..]), e.descIdx, pieces, e.conf.mode.dir)
  {
    hide Filling, SlotsFilled, Transfer, Next, Residue, Lengths32, Pow2;
    var epAddr := StartAddr(r);
    ghost var a := r.View();
    ghost var whole := Transfer(r.sgl, r.window, a, e.desc.Length - e.descIdx);
    StartFills(e.desc[..], e.descIdx, r.sgl, r.window, a, e.conf.mode.dir);
    descCnt, pieces := FillEntries(e, r, epAddr, a.offset, whole);
    NextIs(a, whole);
  }

  /** Next pointer, magic and, on the last descriptor, the control bits. */
  function Chain(d: Desc, base: nat, p: nat, n: nat, i: nat): Desc
    requires i < n
  {
    var next := if i == n - 1 then 0 else base + 32 * (p + i + 1);
    d.(nextLo := Lo(next), nextHi := Hi(next),
       control := if i == n - 1 then DESC_MAGIC | DESC_STOPPED | DESC_EOP | DESC_COMPLETED else DESC_MAGIC)
  }

  function WithAdjacent(d: Desc, n: nat, i: nat): Desc
    requires i < n
  {
    d.(control := SetAdjacent(d.control, GetNextAdj(n - i - 1, d.nextLo)))
  }

  /** Filling, linking and counting neighbours, in this path's own order, gives the same closed form
      of a descriptor as transfer_init. */
  lemma StagesAreCompiled(d: Desc, base: nat, p: nat, n: nat, i: nat, x: Piece, dir: Dir)
    requires i < n
    ensures WithAdjacent(Chain(EngineDriver.Filled(d, x.seg, x.ep, dir), base, p, n, i), n, i)
         == CompiledDesc(base, p, n, i, x.seg, x.ep, dir)
  {
    hide SetAdjacent, GetNextAdj, Lo, Hi;
    ControlWords();
  }

  lemma ControlWords()
    ensures ControlSet(DESC_MAGIC, LAST_CONTROL) == DESC_MAGIC | DESC_STOPPED | DESC_EOP | DESC_COMPLETED
    ensures ControlSet(DESC_MAGIC, 0) == DESC_MAGIC
  {
  }

  /** The linking and the adjacency loop. The first compares with `desc_cnt - 1` in unsigned arithmetic:
      without descriptors it runs over the end of the ring, exactly then. */
  method LinkDescriptors(e: Engine, p: nat, descCnt: nat) returns (inside: bool)
    requires p < e.desc.Length < 0xFFFF_FFFF && p + descCnt <= e.desc.Length
    modifies e.desc
    ensures inside <==> descCnt != 0
    ensures inside ==> forall j | 0 <= j < e.desc.Length ::
      e.desc[j] == if p <= j < p + descCnt
                   then WithAdjacent(Chain(old(e.desc[j]), e.conf.base, p, descCnt, j - p), descCnt, j - p)
                   else old(e.desc[j])
    ensures !inside ==> forall j | 0 <= j < e.desc.Length ::
      e.desc[j] == if p <= j then old(e.desc[j]).(nextLo := Lo(e.conf.base + 32 * (j + 1)),
                                                       nextHi := Hi(e.conf.base + 32 * (j + 1)), control := DESC_MAGIC)
                   else old(e.desc[j])
  {
    hide Lo, Hi, SetAdjacent, GetNextAdj;
    var last := Wrap32(descCnt + 0xFFFF_FFFF);
    assert last == if descCnt == 0 then 0xFFFF_FFFF else descCnt - 1;
    var descBus := e.conf.base + 32 * p;
    var i := 0;
    while i < last
      invariant 0 <= i <= last && p + i <= e.desc.Length && descBus == e.conf.base + 32 * (p + i)
      invariant forall j | 0 <= j < e.desc.Length ::
        e.desc[j] == if p <= j < p + i
                     then old(e.desc[j]).(nextLo := Lo(e.conf.base + 32 * (j + 1)),
                                          nextHi := Hi(e.conf.base + 32 * (j + 1)), control := DESC_MAGIC)
                     else old(e.desc[j])
    {
      if p + i == e.desc.Length { return false; }
      descBus := descBus + 32;
      e.desc[p + i] := e.desc[p + i].(nextLo := Lo(descBus), nextHi := Hi(descBus), control := DESC_MAGIC);
      i := i + 1;
    }
    e.desc[p + i] := e.desc[p + i].(nextLo := Lo(0), nextHi := Hi(0),
                                    control := DESC_MAGIC | DESC_STOPPED | DESC_EOP | DESC_COMPLETED);
    Adjacency(e, p, descCnt);
    inside := true;
  }

  method Adjacency(e: Engine, p: nat, descCnt: nat)
    requires p + descCnt <= e.desc.Length
    modifies e.desc
    ensures forall j | 0 <= j < e.desc.Length ::
      e.desc[j] == if p <= j < p + descCnt then WithAdjacent(old(e.desc[j]), descCnt, j - p) else old(e.desc[j])
  {
    hide SetAdjacent, GetNextAdj;
    for i := 0 to descCnt
      invariant forall j | 0 <= j < e.desc.Length ::
        e.desc[j] == if p <= j < p + i then WithAdjacent(old(e.desc[j]), descCnt, j - p) else old(e.desc[j])
    {
      var nextAdj := GetNextAdj(descCnt - i - 1, e.desc[p + i].nextLo);
      e.desc[p + i] := e.desc[p + i].(control := SetAdjacent(e.desc[p + i].control, nextAdj));
    }
  }

  /** The ring after a transfer was built from slot p on. */
  function Put(ring: seq<Desc>, base: nat, p: nat, pieces: seq<Piece>, dir: Dir): (r: seq<Desc>)
    ensures |r| == |ring|
  {
    seq(|ring|, j requires 0 <= j < |ring| =>
      if p <= j < p + |pieces| then CompiledDesc(base, p, |pieces|, j - p, pieces[j - p].seg, pieces[j - p].ep, dir)
      else ring[j])
  }

  /** One round of the build section, from any stored position. It compiles the walk of the scatter list
      into the ring and accounts for it; if the walk makes no descriptor, the linking loop leaves the
      ring. */
  method BuildTransfer(e: Engine, r: ApertureRequest) returns (inside: bool, descCnt: nat, ghost pieces: seq<Piece>)
    requires r.Valid() && e.descIdx < e.desc.Length < 0xFFFF_FFFF
    modifies e.desc, e`descIdx, e`descUsed, r
    ensures r.Valid() && descCnt == |pieces|
    ensures var t := Transfer(r.sgl, r.window, old(r.View()), e.desc.Length - old(e.descIdx));
            pieces == t.pieces && r.View() == Next(old(r.View()), t)
    ensures inside <==> BytesAhead(r.sgl, old(r.sgIdx), old(r.sgOffset))
    ensures inside <==> pieces != []
    ensures e.descUsed == old(e.descUsed) + descCnt
    ensures inside ==>
      && e.desc[..] == Put(old(e.desc[..]), e.conf.base, old(e.descIdx), pieces, e.conf.mode.dir)
      && e.descIdx == (old(e.descIdx) + descCnt) % e.desc.Length
      && forall j | 0 <= j < e.desc.Length && !(old(e.descIdx) <= j < old(e.descIdx) + descCnt) :: e.desc[j] == old(e.desc[j])
    ensures r.offset == Wrap32(old(r.offset) + |HostBytes(pieces)|)
  {
    hide HostBytes, Pow2, CompiledDesc, Chain, WithAdjacent, EngineDriver.Filled, BytesAhead, Transfer, Next, Put;
    hide Lengths32, Walk, Residue;
    ghost var before := e.desc[..];
    var p := e.descIdx;
    EmitsIff(r.sgl, r.window, r.View(), e.desc.Length - p);
    descCnt, pieces := FillDescriptors(e, r);
    NextIs(old(r.View()), Transfer(r.sgl, r.window, old(r.View()), e.desc.Length - p));
    e.descUsed := e.descUsed + descCnt;
    ghost var filled := e.desc[..];
    inside := LinkDescriptors(e, p, descCnt);
    if inside {
      LinkedIsPut(before, filled, e.desc[..], e.conf.base, p, pieces, e.conf.mode.dir);
      PutLeavesRest(before, e.conf.base, p, pieces, e.conf.mode.dir);
      e.descIdx := (e.descIdx + descCnt) % e.desc.Length;
    }
  }

  lemma EmitsIff(sgl: seq<Seg>, w: Window, a: Progress, slots: nat)
    requires a.sgOffset < 0x1_0000_0000 && 0 < w.maxLen <= w.size && 0 < slots
    ensures Transfer(sgl, w, a, slots).pieces != [] <==> BytesAhead(sgl, a.sgIdx, a.sgOffset)
  {
    ResidueBound(a.offset, w.size);
    hide Residue, Walk;
    BuildEmitsIff(sgl, a.sgIdx, a.sgOffset, w.base + Residue(a.offset, w.size), w, slots);
  }

  lemma LinkedIsPut(before: seq<Desc>, filled: seq<Desc>, linked: seq<Desc>, base: nat, p: nat, pieces: seq<Piece>, dir: Dir)
    requires SlotsFilled(filled, before, p, pieces, dir) && |linked| == |filled|
    requires forall j | 0 <= j < |linked| ::
      linked[j] == if p <= j < p + |pieces|
                   then WithAdjacent(Chain(filled[j], base, p, |pieces|, j - p), |pieces|, j - p) else filled[j]
    ensures linked == Put(before, base, p, pieces, dir)
  {
    hide CompiledDesc, Chain, WithAdjacent, EngineDriver.Filled;
    forall j | 0 <= j < |linked| ensures linked[j] == Put(before, base, p, pieces, dir)[j] {
      if p <= j < p + |pieces| {
        StagesAreCompiled(before[j], base, p, |pieces|, j - p, pieces[j - p], dir);
      }
    }
  }

  // --- running it ------------------------------------------------------------------------------------

  lemma PutAt(ring: seq<Desc>, base: nat, p: nat, pieces: seq<Piece>, dir: Dir, i: nat)
    requires p + |pieces| <= |ring| && i < |pieces|
    ensures |Put(ring, base, p, pieces, dir)| == |ring|
    ensures Put(ring, base, p, pieces, dir)[p + i] == CompiledDesc(base, p, |pieces|, i, pieces[i].seg, pieces[i].ep, dir)
  {
    hide CompiledDesc;
  }

  lemma PutLeavesRest(ring: seq<Desc>, base: nat, p: nat, pieces: seq<Piece>, dir: Dir)
    ensures forall j | 0 <= j < |ring| && !(p <= j < p + |pieces|) :: Put(ring, base, p, pieces, dir)[j] == ring[j]
  {
    hide CompiledDesc;
  }

  lemma PutIsChained(ring: seq<Desc>, base: nat, p: nat, pieces: seq<Piece>, dir: Dir)
    requires p + |pieces| <= |ring| && pieces != [] && base % 32 == 0
    ensures Chained(Ring(Put(ring, base, p, pieces, dir), base), p, |pieces|)
  {
    hide Put;
    forall i | 0 <= i < |pieces| ensures LinkOk(Ring(Put(ring, base, p, pieces, dir), base), p, |pieces|, i) {
      hide Magic, Adjacent, Stopped, ControlByte, SetAdjacent, ControlSet, GetNextAdj, Lo, Hi;
      PutAt(ring, base, p, pieces, dir, i);
      CompiledLink(base, p, |pieces|, i, pieces[i].seg, pieces[i].ep, dir);
    }
  }

  lemma {:induction false} PutMoves(ring: seq<Desc>, base: nat, p: nat, pieces: seq<Piece>, m: Mode, k: nat)
    requires p + |pieces| <= |ring| && k <= |pieces|
    ensures ChainMoves(Put(ring, base, p, pieces, m.dir), p, k, m) == PieceMoves(pieces[..k], m)
  {
    hide CompiledDesc, DescMoves, LinearCopy, Bytes;
    if k > 0 {
      PutMoves(ring, base, p, pieces, m, k - 1);
      CompiledDescMoves(base, p, |pieces|, k - 1, pieces[k - 1].seg, pieces[k - 1].ep, m);
      assert pieces[..k] == pieces[..k - 1] + [pieces[k - 1]];
      PieceMovesConcat(pieces[..k - 1], [pieces[k - 1]], m);
      PieceMovesCons(pieces[k - 1], [], m);
      assert [pieces[k - 1]] + [] == [pieces[k - 1]];
    }
  }

  /** What the device moves when a built transfer is run. */
  function RunTransfer(ring: seq<Desc>, base: nat, p: nat, pieces: seq<Piece>, m: Mode): seq<Move>
    requires p + |pieces| <= |ring| && base % 32 == 0
  {
    if pieces == [] then []
    else
      var built := Put(ring, base, p, pieces, m.dir);
      RunFits(ring, base, p, pieces, m);
      SlotMoves(built, Run(Ring(built, base), Programmed(base + 32 * p, |pieces|), |pieces|).slots, m)
  }

  lemma RunFits(ring: seq<Desc>, base: nat, p: nat, pieces: seq<Piece>, m: Mode)
    requires p + |pieces| <= |ring| && base % 32 == 0 && pieces != []
    ensures var built := Put(ring, base, p, pieces, m.dir);
            var t := Run(Ring(built, base), Programmed(base + 32 * p, |pieces|), |pieces|);
            && t.at == Done && t.slots == Slots(p, |pieces|) && forall i | 0 <= i < |t.slots| :: t.slots[i] < |built|
  {
    hide Chained, CompiledDesc, Programmed, Run;
    PutIsChained(ring, base, p, pieces, m.dir);
    WalkPrefix(Ring(Put(ring, base, p, pieces, m.dir), base), p, |pieces|, |pieces|);
  }

  /** It moves its pieces, in order. */
  lemma RunIsPieces(ring: seq<Desc>, base: nat, p: nat, pieces: seq<Piece>, m: Mode)
    requires p + |pieces| <= |ring| && base % 32 == 0
    ensures RunTransfer(ring, base, p, pieces, m) == PieceMoves(pieces, m)
  {
    if pieces != [] {
      hide Chained, CompiledDesc, Programmed, Run, PieceMoves, SlotMoves, ChainMoves, Put;
      RunFits(ring, base, p, pieces, m);
      SlotMovesOfChain(Put(ring, base, p, pieces, m.dir), p, |pieces|, m);
      PutMoves(ring, base, p, pieces, m, |pieces|);
      assert pieces[..|pieces|] == pieces;
    }
  }

  /** What the device moves over the first k transfers of a request: build, run, build the next one where
      the ring cursor then stands. */
  function RunRequest(ring: seq<Desc>, base: nat, sgl: seq<Seg>, w: Window, total: nat, a: Progress,
                      p: nat, k: nat, m: Mode): seq<Move>
    requires 0 < w.maxLen <= w.size && p < |ring| && base % 32 == 0 && a.sgOffset < 0x1_0000_0000
    decreases k
  {
    if k == 0 || a.offset >= total then []
    else
      var t := Transfer(sgl, w, a, |ring| - p);
      TransferFits(sgl, w, a, |ring| - p);
      if t.pieces == [] then []
      else RunTransfer(ring, base, p, t.pieces, m)
           + RunRequest(Put(ring, base, p, t.pieces, m.dir), base, sgl, w, total, Next(a, t),
                        (p + |t.pieces|) % |ring|, k - 1, m)
  }

  lemma TransferFits(sgl: seq<Seg>, w: Window, a: Progress, slots: nat)
    requires 0 < w.maxLen <= w.size && a.sgOffset < 0x1_0000_0000
    ensures |Transfer(sgl, w, a, slots).pieces| <= slots
  {
    ResidueBound(a.offset, w.size);
    hide Residue;
    var c := Cursor(0, a.sgIdx, a.sgOffset);
    WalkWraps(sgl, c, w.base + Residue(a.offset, w.size), w, slots, a.offset, Mode(ToDevice, false));
  }

  lemma {:induction false} RunIsRequest(ring: seq<Desc>, base: nat, sgl: seq<Seg>, w: Window, total: nat, a: Progress,
                                        p: nat, k: nat, m: Mode)
    requires 0 < w.maxLen <= w.size && p < |ring| && base % 32 == 0 && a.sgOffset < 0x1_0000_0000
    ensures RunRequest(ring, base, sgl, w, total, a, p, k, m)
         == PieceMoves(RequestPieces(sgl, w, total, a, p, |ring|, k), m)
    decreases k
  {
    hide RunTransfer, Put, Transfer, PieceMoves;
    NoMoves(w, 0, m);
    if k != 0 && a.offset < total {
      var t := Transfer(sgl, w, a, |ring| - p);
      TransferFits(sgl, w, a, |ring| - p);
      if t.pieces != [] {
        RunIsPieces(ring, base, p, t.pieces, m);
        RunIsRequest(Put(ring, base, p, t.pieces, m.dir), base, sgl, w, total, Next(a, t),
                     (p + |t.pieces|) % |ring|, k - 1, m);
        PieceMovesConcat(t.pieces, RequestPieces(sgl, w, total, Next(a, t), (p + |t.pieces|) % |ring|, |ring|, k - 1), m);
      }
    }
  }

  /** Building and running the transfers of a request one after the other, from any ring content and
      cursor: byte k of the request has device address base + (k mod aperture). */
  lemma RequestWrapsOnDevice(ring: seq<Desc>, base: nat, sgl: seq<Seg>, w: Window, logSize: nat, total: nat,
                             p: nat, k: nat, m: Mode)
    requires 0 < w.maxLen <= w.size == Pow2(logSize) && logSize <= 32 && p < |ring| && base % 32 == 0 && !m.nonIncr
    ensures var host := HostBytes(RequestPieces(sgl, w, total, Progress(0, 0, 0), p, |ring|, k));
            RunRequest(ring, base, sgl, w, total, Progress(0, 0, 0), p, k, m) == WindowCopy(host, w, 0, m)
  {
    RunIsRequest(ring, base, sgl, w, total, Progress(0, 0, 0), p, k, m);
    RequestWraps(sgl, w, logSize, total, Progress(0, 0, 0), p, |ring|, k, m);
  }
}
