/** Transfers through an aperture: the device address wraps inside a window of `size` bytes
    (xdma_xfer_aperture). */
module Aperture {
  import opened Arith
  import opened Descriptor
  import opened Fetch
  import opened Masks
  import opened Scatter

  /** The window and the longest descriptor: min(aperture, desc_blen_max). */
  datatype Window = Window(base: nat, size: nat, maxLen: nat)

  lemma PowOf4()
    ensures Pow2(4) == 16
  {
  }

  lemma Pow32()
    ensures Pow2(32) == 0x1_0000_0000
  {
    hide Pow2;
    PowOf4();
    PowSplit(4, 4);
    PowSplit(8, 8);
    PowSplit(16, 16);
  }

  /** The residue survives the wrap-around of the 32-bit request offset. */
  lemma WrapResidue(a: nat, k: nat)
    requires k <= 32
    ensures Residue(Wrap32(a), Pow2(k)) == Residue(a, Pow2(k))
  {
    Pow32();
    PowSplit(32 - k, k);
    WrapMultiple(a, Pow2(k), Pow2(32 - k));
  }

  lemma WrapMultiple(a: nat, d: nat, n: nat)
    requires 0 < d && n * d == 0x1_0000_0000
    ensures Residue(Wrap32(a), d) == Residue(a, d)
  {
    var q, r := a / 0x1_0000_0000, Wrap32(a);
    var q', r' := r / d, r % d;
    assert a == q * (n * d) + q' * d + r';
    assert (q * n + q') * d == q * (n * d) + q' * d;
    DivUnique(a, d, q * n + q', r');
  }

  lemma ResidueAdd(a: nat, b: nat, d: nat)
    requires 0 < d && Residue(a, d) + b <= d
    ensures Residue(a + b, d) == (if Residue(a, d) + b == d then 0 else Residue(a, d) + b)
  {
    var q, r := a / d, a % d;
    assert a == q * d + r;
    if r + b == d {
      assert a + b == (q + 1) * d + 0 by { assert (q + 1) * d == q * d + d; }
      DivUnique(a + b, d, q + 1, 0);
    } else {
      assert a + b == q * d + (r + b);
      DivUnique(a + b, d, q, r + b);
    }
  }

  // --- walking the scatter list ----------------------------------------------------------

  /** A descriptor to be: host bytes, device address, and the list entry its bytes were taken from. */
  datatype Piece = Piece(seg: Seg, ep: nat, entry: nat)

  /** The walk starts at the head of the list (`cur`), whatever entry index `i` (sg_idx) says, at
      offset `o` (sg_offset); `i` only decides when the list counts as exhausted. */
  datatype Cursor = Cursor(cur: nat, i: nat, o: nat)

  /** What is left of an entry at an offset, in 32-bit arithmetic: almost 4 GiB behind its end. */
  function BytesLeft(len: nat, o: nat): nat {
    if o <= len then len - o else if o <= 0x1_0000_0000 + len then 0x1_0000_0000 + len - o else 0
  }

  /** Entry lengths and offsets are 32-bit; within one build the offset runs on without wrapping. */
  ghost predicate CursorOk(sgl: seq<Seg>, c: Cursor) {
    c.cur <= c.i && (c.cur < |sgl| ==> c.o <= 0x1_0000_0000 + sgl[c.cur].len)
  }

  ghost predicate InWindowOrEnd(w: Window, ep: nat) {
    0 < w.maxLen <= w.size && w.base <= ep <= w.base + w.size
  }

  function Wrapped(w: Window, ep: nat): nat { if ep > w.base + w.size - 1 then w.base else ep }

  /** The next descriptor at a cursor that has bytes left. */
  function NextPiece(sgl: seq<Seg>, c: Cursor, ep: nat, w: Window): Piece
    requires c.cur < |sgl| && 0 < w.size
  {
    var e := Wrapped(w, ep);
    var len := Min(BytesLeft(sgl[c.cur].len, c.o), w.maxLen);
    var cut := if e + len > w.base + w.size - 1 then w.base + w.size - e else len;
    Piece(Seg(sgl[c.cur].addr + c.o, cut), e, c.cur)
  }

  function After(sgl: seq<Seg>, c: Cursor, len: nat): Cursor
    requires c.cur < |sgl|
  {
    if BytesLeft(sgl[c.cur].len, c.o + len) == 0 then Cursor(c.cur + 1, c.i + 1, 0) else Cursor(c.cur, c.i, c.o + len)
  }

  datatype Walked = Walked(pieces: seq<Piece>, c: Cursor, ep: nat)

  /** One more descriptor in front. */
  function Cons(p: Piece, r: Walked): Walked { r.(pieces := [p] + r.pieces) }

  /** All descriptors of one transfer that may use `slots` slots. */
  function Walk(sgl: seq<Seg>, c: Cursor, ep: nat, w: Window, slots: nat): Walked
    requires c.cur <= c.i && 0 < w.size
    decreases slots, |sgl| - c.i
  {
    if c.i >= |sgl| || slots == 0 then Walked([], c, ep)
    else if BytesLeft(sgl[c.cur].len, c.o) == 0 then Walk(sgl, Cursor(c.cur + 1, c.i + 1, 0), ep, w, slots)
    else
      var p := NextPiece(sgl, c, ep, w);
      Cons(p, Walk(sgl, After(sgl, c, p.seg.len), p.ep + p.seg.len, w, slots - 1))
  }

  lemma WalkIs(sgl: seq<Seg>, c: Cursor, ep: nat, w: Window, slots: nat)
    requires c.cur <= c.i && 0 < w.size
    ensures c.i >= |sgl| || slots == 0 ==> Walk(sgl, c, ep, w, slots) == Walked([], c, ep)
    ensures c.i < |sgl| && slots != 0 ==>
      var next, p := Cursor(c.cur + 1, c.i + 1, 0), NextPiece(sgl, c, ep, w);
      var n := After(sgl, c, p.seg.len);
      && n.cur <= n.i <= c.i + 1
      && Walk(sgl, c, ep, w, slots) ==
           if BytesLeft(sgl[c.cur].len, c.o) == 0 then Walk(sgl, next, ep, w, slots)
           else Cons(p, Walk(sgl, n, p.ep + p.seg.len, w, slots - 1))
  {
  }

  function HostBytes(pieces: seq<Piece>): seq<nat> {
    if pieces == [] then [] else Bytes(pieces[0].seg) + HostBytes(pieces[1..])
  }

  lemma NoHostBytes()
    ensures HostBytes([]) == []
  {
  }

  lemma HostBytesCons(p: Piece, rest: seq<Piece>)
    ensures HostBytes([p] + rest) == Bytes(p.seg) + HostBytes(rest)
  {
    assert ([p] + rest)[1..] == rest;
  }

  lemma {:induction false} HostBytesConcat(a: seq<Piece>, b: seq<Piece>)
    ensures HostBytes(a + b) == HostBytes(a) + HostBytes(b)
  {
    NoHostBytes();
    hide HostBytes, Bytes;
    if a == [] {
      assert a + b == b;
    } else {
      HostBytesConcat(a[1..], b);
      HostBytesCons(a[0], a[1..]);
      HostBytesCons(a[0], a[1..] + b);
      assert a == [a[0]] + a[1..] && a + b == [a[0]] + (a[1..] + b);
    }
  }

  /** The device address stands for the request offset, possibly one past the window. */
  predicate At(w: Window, ep: nat, offset: nat)
    requires 0 < w.size
  {
    ep == w.base + Residue(offset, w.size) || (ep == w.base + w.size && Residue(offset, w.size) == 0)
  }

  predicate InWindow(w: Window, p: Piece) {
    0 < p.seg.len <= w.maxLen && w.base <= p.ep && p.ep + p.seg.len <= w.base + w.size
  }

  /** What the pieces mean: byte k has device address base + (offset + k) mod size. */
  function WindowCopy(host: seq<nat>, w: Window, offset: nat, m: Mode): seq<Move>
    requires 0 < w.size
  {
    seq(|host|, k requires 0 <= k < |host| => m.One(host[k], w.base + Residue(offset + k, w.size)))
  }

  function PieceMoves(pieces: seq<Piece>, m: Mode): seq<Move> {
    if pieces == [] then [] else LinearCopy(Bytes(pieces[0].seg), pieces[0].ep, m) + PieceMoves(pieces[1..], m)
  }

  lemma ResidueBound(a: nat, d: nat)
    requires 0 < d
    ensures Residue(a, d) < d
  {
  }

  /** One piece takes some of what is left, and leaves a cursor and an address to go on from. */
  lemma PieceFits(sgl: seq<Seg>, c: Cursor, ep: nat, w: Window)
    requires c.cur < |sgl| && CursorOk(sgl, c) && BytesLeft(sgl[c.cur].len, c.o) > 0 && InWindowOrEnd(w, ep)
    ensures var p := NextPiece(sgl, c, ep, w);
            && 0 < p.seg.len <= BytesLeft(sgl[c.cur].len, c.o) && p.entry == c.cur
            && p.seg == Seg(sgl[c.cur].addr + c.o, p.seg.len)
            && InWindowOrEnd(w, p.ep + p.seg.len)
            && CursorOk(sgl, After(sgl, c, p.seg.len))
            && BytesLeft(sgl[c.cur].len, c.o + p.seg.len) == BytesLeft(sgl[c.cur].len, c.o) - p.seg.len
  {
  }

  /** It lies inside the window, at the residue of the offset, and the next address stands for the next
      offset. */
  lemma PieceInWindow(sgl: seq<Seg>, c: Cursor, ep: nat, w: Window, offset: nat)
    requires c.cur < |sgl| && CursorOk(sgl, c) && BytesLeft(sgl[c.cur].len, c.o) > 0 && InWindowOrEnd(w, ep)
    requires At(w, ep, offset)
    ensures var p := NextPiece(sgl, c, ep, w);
            && InWindow(w, p) && p.ep == w.base + Residue(offset, w.size)
            && At(w, p.ep + p.seg.len, offset + p.seg.len)
  {
    hide Residue;
    ResidueBound(offset, w.size);
    ResidueAdd(offset, NextPiece(sgl, c, ep, w).seg.len, w.size);
  }

  lemma PieceCopy(p: Piece, w: Window, offset: nat, m: Mode)
    requires 0 < w.size && InWindow(w, p) && p.ep == w.base + Residue(offset, w.size) && !m.nonIncr
    ensures LinearCopy(Bytes(p.seg), p.ep, m) == WindowCopy(Bytes(p.seg), w, offset, m)
  {
    hide Residue;
    var a, b := LinearCopy(Bytes(p.seg), p.ep, m), WindowCopy(Bytes(p.seg), w, offset, m);
    forall k | 0 <= k < p.seg.len ensures a[k] == b[k] { ResidueAdd(offset, k, w.size); }
  }

  lemma WindowConcat(a: seq<nat>, b: seq<nat>, w: Window, offset: nat, m: Mode)
    requires 0 < w.size
    ensures WindowCopy(a + b, w, offset, m) == WindowCopy(a, w, offset, m) + WindowCopy(b, w, offset + |a|, m)
  {
    hide Residue;
  }

  /** Device side of any transfer, whatever its stored position: every descriptor is inside the window
      and byte k goes to base + (offset + k) mod size. */
  lemma {:induction false} WalkWraps(sgl: seq<Seg>, c: Cursor, ep: nat, w: Window, slots: nat, offset: nat, m: Mode)
    requires CursorOk(sgl, c) && InWindowOrEnd(w, ep) && At(w, ep, offset) && !m.nonIncr
    ensures var r := Walk(sgl, c, ep, w, slots);
            && |r.pieces| <= slots
            && (forall i | 0 <= i < |r.pieces| :: InWindow(w, r.pieces[i]))
            && PieceMoves(r.pieces, m) == WindowCopy(HostBytes(r.pieces), w, offset, m)
            && At(w, r.ep, offset + |HostBytes(r.pieces)|)
    decreases slots, |sgl| - c.i
  {
    hide Residue, InWindow, NextPiece, LinearCopy, WindowCopy, At, Bytes, BytesLeft;
    if c.i >= |sgl| || slots == 0 {
      NoWindowCopy(w, offset, m);
    } else if BytesLeft(sgl[c.cur].len, c.o) == 0 {
      WalkWraps(sgl, Cursor(c.cur + 1, c.i + 1, 0), ep, w, slots, offset, m);
    } else {
      PieceFits(sgl, c, ep, w);
      PieceInWindow(sgl, c, ep, w, offset);
      var p := NextPiece(sgl, c, ep, w);
      WalkWraps(sgl, After(sgl, c, p.seg.len), p.ep + p.seg.len, w, slots - 1, offset + p.seg.len, m);
      var rest := Walk(sgl, After(sgl, c, p.seg.len), p.ep + p.seg.len, w, slots - 1);
      PieceCopy(p, w, offset, m);
      WindowConcat(Bytes(p.seg), HostBytes(rest.pieces), w, offset, m);
      assert ([p] + rest.pieces)[1..] == rest.pieces;
    }
  }

  lemma NoWindowCopy(w: Window, offset: nat, m: Mode)
    requires 0 < w.size
    ensures WindowCopy([], w, offset, m) == []
  {
  }

  // --- when a build stays inside the list -----------------------------------------------------

  /** The piece takes bytes of the entry it was made from. */
  predicate Inside(sgl: seq<Seg>, p: Piece) {
    p.entry < |sgl| && sgl[p.entry].addr <= p.seg.addr
    && p.seg.addr + p.seg.len <= sgl[p.entry].addr + sgl[p.entry].len
  }

  ghost predicate AllInside(sgl: seq<Seg>, pieces: seq<Piece>) {
    forall k | 0 <= k < |pieces| :: Inside(sgl, pieces[k])
  }

  lemma {:induction false} WalkStaysInside(sgl: seq<Seg>, c: Cursor, ep: nat, w: Window, slots: nat)
    requires CursorOk(sgl, c) && InWindowOrEnd(w, ep) && (c.cur < |sgl| ==> c.o <= sgl[c.cur].len)
    ensures AllInside(sgl, Walk(sgl, c, ep, w, slots).pieces)
    decreases slots, |sgl| - c.i
  {
    hide NextPiece;
    if c.i < |sgl| && slots != 0 {
      if BytesLeft(sgl[c.cur].len, c.o) == 0 {
        WalkStaysInside(sgl, Cursor(c.cur + 1, c.i + 1, 0), ep, w, slots);
      } else {
        PieceFits(sgl, c, ep, w);
        var p := NextPiece(sgl, c, ep, w);
        WalkStaysInside(sgl, After(sgl, c, p.seg.len), p.ep + p.seg.len, w, slots - 1);
      }
    }
  }

  /** Some visited entry has bytes left. */
  predicate BytesAhead(sgl: seq<Seg>, i: nat, o: nat) {
    && i < |sgl|
    && (o != sgl[0].len || exists j :: 1 <= j < |sgl| - i && sgl[j].len != 0)
  }

  lemma {:induction false} WalkEmits(sgl: seq<Seg>, c: Cursor, ep: nat, w: Window, slots: nat)
    requires CursorOk(sgl, c) && InWindowOrEnd(w, ep)
    ensures Walk(sgl, c, ep, w, slots).pieces != [] <==>
      slots != 0 && c.i < |sgl| &&
        (BytesLeft(sgl[c.cur].len, c.o) != 0 || exists j :: c.cur < j < c.cur + (|sgl| - c.i) && sgl[j].len != 0)
    decreases slots, |sgl| - c.i
  {
    if c.i < |sgl| && slots != 0 && BytesLeft(sgl[c.cur].len, c.o) == 0 {
      WalkEmits(sgl, Cursor(c.cur + 1, c.i + 1, 0), ep, w, slots);
    }
  }

  /** A build with sg_idx i and sg_offset o emits a descriptor exactly when a slot is free, the list
      does not count as exhausted, and one of the entries it visits has bytes left. */
  lemma BuildEmitsIff(sgl: seq<Seg>, i: nat, o: nat, ep: nat, w: Window, slots: nat)
    requires o < 0x1_0000_0000 && InWindowOrEnd(w, ep)
    ensures Walk(sgl, Cursor(0, i, o), ep, w, slots).pieces != [] <==> slots != 0 && BytesAhead(sgl, i, o)
  {
    WalkEmits(sgl, Cursor(0, i, o), ep, w, slots);
  }

  /** It stays inside the scatter list exactly when it makes no descriptor for the first entry or the
      stored offset is not behind that entry's end. */
  lemma BuildStaysInsideIff(sgl: seq<Seg>, i: nat, o: nat, ep: nat, w: Window, slots: nat)
    requires o < 0x1_0000_0000 && InWindowOrEnd(w, ep)
    ensures AllInside(sgl, Walk(sgl, Cursor(0, i, o), ep, w, slots).pieces) <==>
      slots == 0 || |sgl| <= i || o <= sgl[0].len
  {
    var c := Cursor(0, i, o);
    if slots != 0 && i < |sgl| {
      if o <= sgl[0].len {
        WalkStaysInside(sgl, c, ep, w, slots);
      } else {
        PieceFits(sgl, c, ep, w);
        assert Walk(sgl, c, ep, w, slots).pieces[0] == NextPiece(sgl, c, ep, w);
        assert !Inside(sgl, NextPiece(sgl, c, ep, w));
      }
    } else {
      assert Walk(sgl, c, ep, w, slots).pieces == [];
    }
  }

  /** So a build is sound, with a descriptor and inside the list, exactly when a slot is free, a visited
      entry has bytes left, and the stored offset is not behind the end of the first entry. */
  lemma BuildIsSoundIff(sgl: seq<Seg>, i: nat, o: nat, ep: nat, w: Window, slots: nat)
    requires o < 0x1_0000_0000 && InWindowOrEnd(w, ep)
    ensures var pieces := Walk(sgl, Cursor(0, i, o), ep, w, slots).pieces;
            pieces != [] && AllInside(sgl, pieces) <==> slots != 0 && BytesAhead(sgl, i, o) && o <= sgl[0].len
  {
    BuildEmitsIff(sgl, i, o, ep, w, slots);
    BuildStaysInsideIff(sgl, i, o, ep, w, slots);
  }

  // --- the host side ------------------------------------------------------------------------

  /** The entries a walk may visit. */
  function Reach(sgl: seq<Seg>, c: Cursor): seq<Seg>
    requires c.cur <= c.i
  {
    if c.i >= |sgl| then [] else sgl[c.cur..c.cur + (|sgl| - c.i)]
  }

  ghost predicate OffsetFits(sgl: seq<Seg>, c: Cursor)
    requires c.cur <= c.i
  {
    c.o <= |Flatten(Reach(sgl, c))| && (c.cur < |sgl| ==> c.o <= sgl[c.cur].len)
  }

  /** Bytes still to come at a cursor. */
  ghost function Rest(sgl: seq<Seg>, c: Cursor): seq<nat>
    requires c.cur <= c.i && OffsetFits(sgl, c)
  {
    Flatten(Reach(sgl, c))[c.o..]
  }

  /** A cursor inside its entry: nothing wraps around. */
  lemma CursorFits(sgl: seq<Seg>, c: Cursor)
    requires c.cur <= c.i && (c.cur < |sgl| ==> c.o <= sgl[c.cur].len)
    ensures CursorOk(sgl, c)
    ensures c.cur < |sgl| ==> BytesLeft(sgl[c.cur].len, c.o) == sgl[c.cur].len - c.o
  {
  }

  lemma ReachStep(sgl: seq<Seg>, c: Cursor)
    requires c.cur <= c.i < |sgl|
    ensures var next := Cursor(c.cur + 1, c.i + 1, 0);
            && Reach(sgl, c) == [sgl[c.cur]] + Reach(sgl, next)
            && Flatten(Reach(sgl, c)) == Bytes(sgl[c.cur]) + Flatten(Reach(sgl, next))
  {
    hide Bytes;
    var next := Cursor(c.cur + 1, c.i + 1, 0);
    assert Reach(sgl, c) == [sgl[c.cur]] + Reach(sgl, next);
    assert Reach(sgl, c)[1..] == Reach(sgl, next);
  }

  lemma BytesSlice(s: Seg, o: nat, k: nat)
    requires o + k <= s.len
    ensures |Bytes(s)| == s.len && Bytes(s)[o..o + k] == Bytes(Seg(s.addr + o, k))
  {
  }

  lemma SplitAt(b: seq<nat>, t: seq<nat>, o: nat, k: nat)
    requires o + k <= |b|
    ensures (b + t)[o..] == b[o..o + k] + (b + t)[o + k..]
    ensures (b + t)[|b|..] == t == t[0..]
  {
  }

  /** What a cursor inside the first visited entry has left. */
  lemma RestSplit(sgl: seq<Seg>, c: Cursor, k: nat)
    requires c.cur <= c.i < |sgl| && OffsetFits(sgl, c) && c.o + k <= sgl[c.cur].len
    ensures var all := Flatten(Reach(sgl, c));
            && c.o + k <= |all|
            && Rest(sgl, c) == Bytes(Seg(sgl[c.cur].addr + c.o, k)) + all[c.o + k..]
            && all[sgl[c.cur].len..] == Flatten(Reach(sgl, Cursor(c.cur + 1, c.i + 1, 0)))
  {
    hide Flatten, Bytes, Reach;
    ReachStep(sgl, c);
    BytesSlice(sgl[c.cur], c.o, k);
    SplitAt(Bytes(sgl[c.cur]), Flatten(Reach(sgl, Cursor(c.cur + 1, c.i + 1, 0))), c.o, k);
  }

  /** Going on inside the entry, or at the next one. */
  lemma RestStep(sgl: seq<Seg>, c: Cursor, k: nat)
    requires c.cur <= c.i < |sgl| && OffsetFits(sgl, c) && c.o + k <= sgl[c.cur].len
    ensures var inside, next := Cursor(c.cur, c.i, c.o + k), Cursor(c.cur + 1, c.i + 1, 0);
            && OffsetFits(sgl, inside) && OffsetFits(sgl, next)
            && Rest(sgl, c) == Bytes(Seg(sgl[c.cur].addr + c.o, k)) + Rest(sgl, inside)
            && (c.o + k == sgl[c.cur].len ==> Rest(sgl, inside) == Rest(sgl, next))
  {
    hide Flatten, Bytes, Reach;
    RestSplit(sgl, c, k);
    SameReach(sgl, c, c.o + k);
    DropNone(Flatten(Reach(sgl, Cursor(c.cur + 1, c.i + 1, 0))));
  }

  lemma DropNone(s: seq<nat>)
    ensures s[0..] == s
  {
  }

  lemma SameReach(sgl: seq<Seg>, c: Cursor, o: nat)
    requires c.cur <= c.i
    ensures Reach(sgl, Cursor(c.cur, c.i, o)) == Reach(sgl, c)
  {
  }

  lemma NoBytesRest(sgl: seq<Seg>, c: Cursor)
    requires c.cur <= c.i < |sgl| && OffsetFits(sgl, c) && c.o == sgl[c.cur].len
    ensures var next := Cursor(c.cur + 1, c.i + 1, 0); OffsetFits(sgl, next) && Rest(sgl, c) == Rest(sgl, next)
  {
    RestStep(sgl, c, 0);
    hide Flatten, Reach;
    assert Bytes(Seg(sgl[c.cur].addr + c.o, 0)) == [];
  }

  lemma NothingInReach(sgl: seq<Seg>, c: Cursor)
    requires c.cur <= c.i && |sgl| <= c.i && OffsetFits(sgl, c)
    ensures Rest(sgl, c) == []
  {
  }

  /** How many descriptors `len` bytes take from device residue `off` on. */
  function DescCount(len: nat, off: nat, w: Window): nat
    requires 0 < w.maxLen <= w.size && off < w.size
    decreases len
  {
    if len == 0 then 0
    else
      var cut := Min(Min(len, w.maxLen), w.size - off);
      1 + DescCount(len - cut, if off + cut == w.size then 0 else off + cut, w)
  }

  /** How many descriptors the visited entries take: numbers only, known before the build. */
  function ListCount(sgl: seq<Seg>, c: Cursor, offset: nat, w: Window): nat
    requires c.cur <= c.i && (c.cur < |sgl| ==> c.o <= sgl[c.cur].len) && 0 < w.maxLen <= w.size
    decreases |sgl| - c.i
  {
    if c.i >= |sgl| then 0
    else
      var left := sgl[c.cur].len - c.o;
      DescCount(left, Residue(offset, w.size), w)
      + ListCount(sgl, Cursor(c.cur + 1, c.i + 1, 0), offset + left, w)
  }

  lemma CountCut(left: nat, off: nat, w: Window)
    requires 0 < left && 0 < w.maxLen <= w.size && off < w.size
    ensures var cut := Min(Min(left, w.maxLen), w.size - off);
            && 0 < cut <= left && off + cut <= w.size
            && DescCount(left, off, w) == 1 + DescCount(left - cut, if off + cut == w.size then 0 else off + cut, w)
            && DescCount(0, if off + cut == w.size then 0 else off + cut, w) == 0
  {
  }

  /** One piece of an entry: one descriptor less to make. */
  lemma CutStep(sgl: seq<Seg>, c: Cursor, ep: nat, w: Window, offset: nat)
    requires c.cur <= c.i < |sgl| && c.o < sgl[c.cur].len && InWindowOrEnd(w, ep) && At(w, ep, offset)
    ensures Residue(offset, w.size) < w.size
    ensures var left, cut := sgl[c.cur].len - c.o, NextPiece(sgl, c, ep, w).seg.len;
            && 0 < cut <= left && Residue(offset + cut, w.size) < w.size
            && DescCount(left, Residue(offset, w.size), w) == 1 + DescCount(left - cut, Residue(offset + cut, w.size), w)
            && (cut == left ==> DescCount(left, Residue(offset, w.size), w) == 1)
            && After(sgl, c, cut) == if cut == left then Cursor(c.cur + 1, c.i + 1, 0) else Cursor(c.cur, c.i, c.o + cut)
  {
    hide Residue, DescCount;
    var left, off := sgl[c.cur].len - c.o, Residue(offset, w.size);
    ResidueBound(offset, w.size);
    CountCut(left, off, w);
    var cut := Min(Min(left, w.maxLen), w.size - off);
    ResidueAdd(offset, cut, w.size);
    assert NextPiece(sgl, c, ep, w).seg.len == cut;
  }

  lemma CountStep(sgl: seq<Seg>, c: Cursor, ep: nat, w: Window, offset: nat)
    requires c.cur <= c.i < |sgl| && c.o < sgl[c.cur].len && InWindowOrEnd(w, ep) && At(w, ep, offset)
    ensures var p := NextPiece(sgl, c, ep, w);
            var n := After(sgl, c, p.seg.len);
            && n.cur <= n.i && (n.cur < |sgl| ==> n.o <= sgl[n.cur].len)
            && ListCount(sgl, c, offset, w) == 1 + ListCount(sgl, n, offset + p.seg.len, w)
  {
    hide Residue, DescCount, NextPiece, After;
    CutStep(sgl, c, ep, w, offset);
    var cut := NextPiece(sgl, c, ep, w).seg.len;
    assert offset + cut + (sgl[c.cur].len - (c.o + cut)) == offset + (sgl[c.cur].len - c.o);
  }

  lemma NoCount(sgl: seq<Seg>, c: Cursor, offset: nat, w: Window)
    requires c.cur <= c.i < |sgl| && c.o == sgl[c.cur].len && 0 < w.maxLen <= w.size
    ensures ListCount(sgl, c, offset, w) == ListCount(sgl, Cursor(c.cur + 1, c.i + 1, 0), offset, w)
  {
    hide Residue;
    ResidueBound(offset, w.size);
  }

  lemma SomeCount(sgl: seq<Seg>, c: Cursor, offset: nat, w: Window)
    requires c.cur <= c.i < |sgl| && c.o < sgl[c.cur].len && 0 < w.maxLen <= w.size
    ensures ListCount(sgl, c, offset, w) > 0
  {
    hide Residue;
    ResidueBound(offset, w.size);
    CountCut(sgl[c.cur].len - c.o, Residue(offset, w.size), w);
  }

  /** No bytes left, no descriptors to make. */
  lemma {:induction false} NothingLeftIff(sgl: seq<Seg>, c: Cursor, offset: nat, w: Window)
    requires c.cur <= c.i && OffsetFits(sgl, c) && 0 < w.maxLen <= w.size
    ensures Rest(sgl, c) == [] <==> ListCount(sgl, c, offset, w) == 0
    decreases |sgl| - c.i
  {
    if c.i >= |sgl| {
      NothingInReach(sgl, c);
    } else if c.o == sgl[c.cur].len {
      NoBytesRest(sgl, c);
      NoCount(sgl, c, offset, w);
      NothingLeftIff(sgl, Cursor(c.cur + 1, c.i + 1, 0), offset, w);
    } else {
      SomeCount(sgl, c, offset, w);
      RestStep(sgl, c, 1);
    }
  }

  /** The bytes left at c are those of the piece, then those left at n. */
  ghost predicate Feeds(sgl: seq<Seg>, c: Cursor, p: Piece, n: Cursor) {
    && c.cur <= c.i && OffsetFits(sgl, c) && n.cur <= n.i && OffsetFits(sgl, n)
    && Rest(sgl, c) == Bytes(p.seg) + Rest(sgl, n)
  }

  /** A piece takes the next bytes. */
  lemma RestAfter(sgl: seq<Seg>, c: Cursor, ep: nat, w: Window)
    requires c.cur <= c.i < |sgl| && OffsetFits(sgl, c) && c.o < sgl[c.cur].len && InWindowOrEnd(w, ep)
    ensures var p := NextPiece(sgl, c, ep, w);
            var n := After(sgl, c, p.seg.len);
            InWindowOrEnd(w, p.ep + p.seg.len) && n.cur <= n.i && OffsetFits(sgl, n) && Feeds(sgl, c, p, n)
  {
    hide NextPiece, OffsetFits, Rest, Bytes, Reach, Flatten, CursorOk;
    CursorFits(sgl, c);
    PieceFits(sgl, c, ep, w);
    RestStep(sgl, c, NextPiece(sgl, c, ep, w).seg.len);
  }

  lemma TakesPiece(all: seq<nat>, p: Piece, pieces: seq<Piece>, rest: seq<nat>, end: seq<nat>)
    requires all == Bytes(p.seg) + rest && rest == HostBytes(pieces) + end
    ensures all == HostBytes([p] + pieces) + end
  {
    hide Bytes;
    HostBytesCons(p, pieces);
  }

  lemma TakesNone(all: seq<nat>)
    ensures all == HostBytes([]) + all
  {
  }

  /** The bytes of a walk, followed by what its final cursor has left, are what its first cursor had. */
  ghost predicate Takes(sgl: seq<Seg>, c: Cursor, r: Walked) {
    && c.cur <= c.i && OffsetFits(sgl, c) && r.c.cur <= r.c.i && OffsetFits(sgl, r.c)
    && Rest(sgl, c) == HostBytes(r.pieces) + Rest(sgl, r.c)
  }

  lemma PieceTakes(sgl: seq<Seg>, c: Cursor, p: Piece, n: Cursor, r: Walked)
    requires Feeds(sgl, c, p, n) && Takes(sgl, n, r)
    ensures Takes(sgl, c, Cons(p, r))
  {
    hide OffsetFits, Rest, Bytes, HostBytes;
    TakesPiece(Rest(sgl, c), p, r.pieces, Rest(sgl, n), Rest(sgl, r.c));
  }

  lemma NothingTakes(sgl: seq<Seg>, c: Cursor, ep: nat)
    requires c.cur <= c.i && OffsetFits(sgl, c)
    ensures Takes(sgl, c, Walked([], c, ep))
  {
    TakesNone(Rest(sgl, c));
  }

  lemma SkipTakes(sgl: seq<Seg>, c: Cursor, r: Walked)
    requires c.cur <= c.i < |sgl| && OffsetFits(sgl, c) && c.o == sgl[c.cur].len
    requires Takes(sgl, Cursor(c.cur + 1, c.i + 1, 0), r)
    ensures Takes(sgl, c, r)
  {
    NoBytesRest(sgl, c);
    hide OffsetFits, Rest, HostBytes;
  }

  lemma SkipFits(sgl: seq<Seg>, c: Cursor)
    requires c.cur <= c.i < |sgl| && OffsetFits(sgl, c) && c.o == sgl[c.cur].len
    ensures OffsetFits(sgl, Cursor(c.cur + 1, c.i + 1, 0))
  {
    NoBytesRest(sgl, c);
  }

  /** Host side of one transfer that starts inside its first entry. */
  lemma {:induction false} WalkTakesRest(sgl: seq<Seg>, c: Cursor, ep: nat, w: Window, slots: nat)
    requires c.cur <= c.i && OffsetFits(sgl, c) && InWindowOrEnd(w, ep)
    ensures Takes(sgl, c, Walk(sgl, c, ep, w, slots))
    decreases slots, |sgl| - c.i
  {
    hide Walk, Takes, Reach, Flatten, After, NextPiece, BytesLeft, CursorOk;
    CursorFits(sgl, c);
    WalkIs(sgl, c, ep, w, slots);
    hide *;
    if c.i >= |sgl| || slots == 0 {
      NothingTakes(sgl, c, ep);
    } else {
      var next := Cursor(c.cur + 1, c.i + 1, 0);
      if BytesLeft(sgl[c.cur].len, c.o) == 0 {
        SkipFits(sgl, c);
        WalkTakesRest(sgl, next, ep, w, slots);
        SkipTakes(sgl, c, Walk(sgl, next, ep, w, slots));
      } else {
        var p := NextPiece(sgl, c, ep, w);
        RestAfter(sgl, c, ep, w);
        var n := After(sgl, c, p.seg.len);
        WalkTakesRest(sgl, n, p.ep + p.seg.len, w, slots - 1);
        PieceTakes(sgl, c, p, n, Walk(sgl, n, p.ep + p.seg.len, w, slots - 1));
      }
    }
  }

  /** The walk made the descriptors that its end does not still take, and went on while slots were free. */
  ghost predicate Counts(sgl: seq<Seg>, c: Cursor, offset: nat, w: Window, slots: nat, r: Walked)
    requires c.cur <= c.i && (c.cur < |sgl| ==> c.o <= sgl[c.cur].len) && 0 < w.maxLen <= w.size
  {
    var end := offset + |HostBytes(r.pieces)|;
    && r.c.cur <= r.c.i && (r.c.cur < |sgl| ==> r.c.o <= sgl[r.c.cur].len)
    && |r.pieces| + ListCount(sgl, r.c, end, w) == ListCount(sgl, c, offset, w)
    && |r.pieces| <= slots && (|r.pieces| < slots ==> ListCount(sgl, r.c, end, w) == 0)
  }

  lemma NothingCounts(sgl: seq<Seg>, c: Cursor, ep: nat, offset: nat, w: Window, slots: nat)
    requires c.cur <= c.i && (c.cur < |sgl| ==> c.o <= sgl[c.cur].len) && 0 < w.maxLen <= w.size
    requires |sgl| <= c.i || slots == 0
    ensures Counts(sgl, c, offset, w, slots, Walked([], c, ep))
  {
    hide DescCount;
  }

  lemma SkipCounts(sgl: seq<Seg>, c: Cursor, offset: nat, w: Window, slots: nat, r: Walked)
    requires c.cur <= c.i < |sgl| && c.o == sgl[c.cur].len && 0 < w.maxLen <= w.size
    requires Counts(sgl, Cursor(c.cur + 1, c.i + 1, 0), offset, w, slots, r)
    ensures Counts(sgl, c, offset, w, slots, r)
  {
    NoCount(sgl, c, offset, w);
    hide ListCount, HostBytes;
  }

  lemma PieceCounts(sgl: seq<Seg>, c: Cursor, offset: nat, w: Window, slots: nat, p: Piece, n: Cursor, r: Walked)
    requires c.cur <= c.i < |sgl| && c.o <= sgl[c.cur].len && 0 < w.maxLen <= w.size && 0 < slots
    requires n.cur <= n.i && (n.cur < |sgl| ==> n.o <= sgl[n.cur].len)
    requires ListCount(sgl, c, offset, w) == 1 + ListCount(sgl, n, offset + p.seg.len, w)
    requires Counts(sgl, n, offset + p.seg.len, w, slots - 1, r)
    ensures Counts(sgl, c, offset, w, slots, Cons(p, r))
  {
    HostBytesCons(p, r.pieces);
    hide ListCount, HostBytes;
    assert offset + p.seg.len + |HostBytes(r.pieces)| == offset + |HostBytes(Cons(p, r).pieces)|;
  }

  /** Where the walk goes on after a piece. */
  lemma PieceGoesOn(sgl: seq<Seg>, c: Cursor, ep: nat, w: Window, offset: nat)
    requires c.cur <= c.i < |sgl| && c.o < sgl[c.cur].len && InWindowOrEnd(w, ep) && At(w, ep, offset)
    ensures var p := NextPiece(sgl, c, ep, w);
            var n := After(sgl, c, p.seg.len);
            && InWindowOrEnd(w, p.ep + p.seg.len) && At(w, p.ep + p.seg.len, offset + p.seg.len)
            && n.cur <= n.i && (n.cur < |sgl| ==> n.o <= sgl[n.cur].len)
  {
    CursorFits(sgl, c);
    PieceFits(sgl, c, ep, w);
    PieceInWindow(sgl, c, ep, w, offset);
    hide NextPiece, Residue, At;
  }

  lemma PieceIsCounted(sgl: seq<Seg>, c: Cursor, ep: nat, w: Window, slots: nat, offset: nat, r: Walked)
    requires c.cur <= c.i < |sgl| && c.o < sgl[c.cur].len && InWindowOrEnd(w, ep) && At(w, ep, offset) && 0 < slots
    requires var p := NextPiece(sgl, c, ep, w);
             var n := After(sgl, c, p.seg.len);
             && n.cur <= n.i && (n.cur < |sgl| ==> n.o <= sgl[n.cur].len)
             && Counts(sgl, n, offset + p.seg.len, w, slots - 1, r)
    ensures Counts(sgl, c, offset, w, slots, Cons(NextPiece(sgl, c, ep, w), r))
  {
    CountStep(sgl, c, ep, w, offset);
    hide *;
    var p := NextPiece(sgl, c, ep, w);
    PieceCounts(sgl, c, offset, w, slots, p, After(sgl, c, p.seg.len), r);
  }

  /** It makes as many descriptors as the list takes and the slots allow. */
  lemma {:induction false} WalkCounts(sgl: seq<Seg>, c: Cursor, ep: nat, w: Window, slots: nat, offset: nat)
    requires c.cur <= c.i && (c.cur < |sgl| ==> c.o <= sgl[c.cur].len) && InWindowOrEnd(w, ep) && At(w, ep, offset)
    ensures Counts(sgl, c, offset, w, slots, Walk(sgl, c, ep, w, slots))
    decreases slots, |sgl| - c.i
  {
    hide Walk, NextPiece, After, Counts, ListCount, BytesLeft, At, Residue, CursorOk;
    WalkIs(sgl, c, ep, w, slots);
    CursorFits(sgl, c);
    hide *;
    if c.i >= |sgl| || slots == 0 {
      NothingCounts(sgl, c, ep, offset, w, slots);
    } else if c.o == sgl[c.cur].len {
      var next := Cursor(c.cur + 1, c.i + 1, 0);
      WalkCounts(sgl, next, ep, w, slots, offset);
      SkipCounts(sgl, c, offset, w, slots, Walk(sgl, next, ep, w, slots));
    } else {
      PieceGoesOn(sgl, c, ep, w, offset);
      var p := NextPiece(sgl, c, ep, w);
      var n := After(sgl, c, p.seg.len);
      WalkCounts(sgl, n, p.ep + p.seg.len, w, slots - 1, offset + p.seg.len);
      PieceIsCounted(sgl, c, ep, w, slots, offset, Walk(sgl, n, p.ep + p.seg.len, w, slots - 1));
    }
  }

  // --- requests that one transfer takes -----------------------------------------------------------

  lemma StartsWithAll(sgl: seq<Seg>)
    ensures OffsetFits(sgl, Cursor(0, 0, 0)) && Rest(sgl, Cursor(0, 0, 0)) == Flatten(sgl)
  {
    if sgl != [] { assert Reach(sgl, Cursor(0, 0, 0)) == sgl; }
  }

  lemma ResidueZero(d: nat)
    requires 0 < d
    ensures Residue(0, d) == 0
  {
  }

  /** The pieces are the whole list. */
  ghost predicate Whole(sgl: seq<Seg>, pieces: seq<Piece>) { HostBytes(pieces) == Flatten(sgl) }

  lemma WholeIff(sgl: seq<Seg>, r: Walked, count: nat, slots: nat, w: Window)
    requires Takes(sgl, Cursor(0, 0, 0), r) && 0 < w.maxLen <= w.size
    requires Counts(sgl, Cursor(0, 0, 0), 0, w, slots, r) && count == ListCount(sgl, Cursor(0, 0, 0), 0, w)
    ensures |r.pieces| == Min(slots, count) && (Whole(sgl, r.pieces) <==> count <= slots)
  {
    StartsWithAll(sgl);
    hide Flatten, HostBytes, Rest, OffsetFits, ListCount;
    NothingLeftIff(sgl, r.c, |HostBytes(r.pieces)|, w);
    var rest := Rest(sgl, r.c);
    if rest != [] { assert |Flatten(sgl)| == |HostBytes(r.pieces)| + |rest|; }
  }

  /** The first transfer of a request takes it whole exactly when the free slots suffice for the
      descriptors the list takes; then byte k of the flattened list goes to or comes from
      base + (k mod size). */
  lemma OneTransferIsExact(sgl: seq<Seg>, w: Window, slots: nat, m: Mode)
    requires 0 < w.maxLen <= w.size && !m.nonIncr
    ensures var pieces := Walk(sgl, Cursor(0, 0, 0), w.base, w, slots).pieces;
            var count := ListCount(sgl, Cursor(0, 0, 0), 0, w);
            && |pieces| == Min(slots, count)
            && (Whole(sgl, pieces) <==> count <= slots)
            && (count <= slots ==> PieceMoves(pieces, m) == WindowCopy(Flatten(sgl), w, 0, m))
  {
    ResidueZero(w.size);
    StartsWithAll(sgl);
    var c := Cursor(0, 0, 0);
    WalkTakesRest(sgl, c, w.base, w, slots);
    WalkCounts(sgl, c, w.base, w, slots, 0);
    WalkWraps(sgl, c, w.base, w, slots, 0, m);
    var r := Walk(sgl, c, w.base, w, slots);
    hide Flatten, HostBytes, Rest, OffsetFits, ListCount, Walk, PieceMoves, WindowCopy, InWindow, At, Takes, Counts, Residue;
    WholeIff(sgl, r, ListCount(sgl, c, 0, w), slots, w);
  }

  /** A bound without recursion: one descriptor per full maximum length, one per window boundary, and
      the last one. */
  lemma {:induction false} CountBound(len: nat, off: nat, w: Window)
    requires 0 < len && 0 < w.maxLen <= w.size && off < w.size
    ensures DescCount(len, off, w) <= Over(len, w.maxLen) + Over(off + len - 1, w.size) + 1
    decreases len
  {
    var cut := Min(Min(len, w.maxLen), w.size - off);
    CountCut(len, off, w);
    var next := if off + cut == w.size then 0 else off + cut;
    if cut < len {
      CountBound(len - cut, next, w);
      hide DescCount, Over;
      if off + cut == w.size {
        OverAdd(len - cut - 1, w.size);
        assert off + len - 1 == len - cut - 1 + w.size;
        OverMonotone(len - cut, len, w.maxLen);
      } else {
        OverAdd(len - cut, w.maxLen);
        assert len == len - cut + w.maxLen && off + len - 1 == next + (len - cut) - 1;
      }
    }
  }

  // --- later transfers of a request -------------------------------------------------------------------

  /** A later transfer moves the right host bytes if the one before it stopped inside the first entry:
      sg_idx is still 0, and sg_offset is the request offset. */
  lemma LaterTransferIsExact(sgl: seq<Seg>, o: nat, w: Window, ep: nat, slots: nat, m: Mode)
    requires sgl != [] && o <= sgl[0].len && InWindowOrEnd(w, ep) && !m.nonIncr && At(w, ep, o)
    ensures var r := Walk(sgl, Cursor(0, 0, o), ep, w, slots);
            var n := |HostBytes(r.pieces)|;
            && o + n <= |Flatten(sgl)|
            && HostBytes(r.pieces) == Flatten(sgl)[o..o + n]
            && PieceMoves(r.pieces, m) == WindowCopy(Flatten(sgl)[o..o + n], w, o, m)
  {
    hide Walk, WindowCopy, At;
    var c := Cursor(0, 0, o);
    FirstEntryFits(sgl, o);
    WalkTakesRest(sgl, c, ep, w, slots);
    WalkWraps(sgl, c, ep, w, slots, o, m);
    hide Flatten, HostBytes, PieceMoves, InWindow;
    var r := Walk(sgl, c, ep, w, slots);
    TakesPrefix(Flatten(sgl), o, HostBytes(r.pieces), Rest(sgl, r.c));
  }

  lemma TakesPrefix(all: seq<nat>, o: nat, taken: seq<nat>, rest: seq<nat>)
    requires o <= |all| && all[o..] == taken + rest
    ensures o + |taken| <= |all| && taken == all[o..o + |taken|] && taken <= all[o..]
  {
    assert all[o..][..|taken|] == taken;
  }

  lemma FirstEntryFits(sgl: seq<Seg>, o: nat)
    requires sgl != [] && o <= sgl[0].len
    ensures Reach(sgl, Cursor(0, 0, o)) == sgl && OffsetFits(sgl, Cursor(0, 0, o))
  {
    assert Flatten(sgl) == Bytes(sgl[0]) + Flatten(sgl[1..]);
  }

  ghost predicate DistinctBytes(b: seq<nat>) {
    forall i, j | 0 <= i < j < |b| :: b[i] != b[j]
  }

  /** Where byte o of entry i is in the flattened list. */
  lemma {:induction false} ByteOf(sgl: seq<Seg>, i: nat, o: nat)
    requires i < |sgl| && o < sgl[i].len
    ensures TotalLen(sgl[..i]) + o < |Flatten(sgl)| && Flatten(sgl)[TotalLen(sgl[..i]) + o] == sgl[i].addr + o
  {
    hide Flatten, TotalLen;
    assert sgl == sgl[..i] + sgl[i..];
    FlattenConcat(sgl[..i], sgl[i..]);
    FlattenLen(sgl[..i]);
    FirstOf(sgl[i..], o);
  }

  lemma FirstOf(segs: seq<Seg>, o: nat)
    requires segs != [] && o < segs[0].len
    ensures o < |Flatten(segs)| && Flatten(segs)[o] == segs[0].addr + o
  {
    assert Flatten(segs) == Bytes(segs[0]) + Flatten(segs[1..]);
  }

  /** The walk that starts at the head of the list with the offset of another entry. */
  lemma FirstByte(sgl: seq<Seg>, i: nat, o: nat, w: Window, ep: nat, slots: nat)
    requires i < |sgl| && o < 0x1_0000_0000 && InWindowOrEnd(w, ep) && 0 < slots
    requires forall j | 0 <= j < |sgl| :: 0 < sgl[j].len
    ensures var b := HostBytes(Walk(sgl, Cursor(0, i, o), ep, w, slots).pieces);
            && (o != sgl[0].len ==> b != [] && b[0] == sgl[0].addr + o)
            && (o == sgl[0].len && b != [] ==> |sgl| > 1 && b[0] == sgl[1].addr)
  {
    hide Walk, NextPiece, After, HostBytes;
    NoHostBytes();
    var c := Cursor(0, i, o);
    WalkIs(sgl, c, ep, w, slots);
    if o != sgl[0].len {
      PieceFits(sgl, c, ep, w);
      var p := NextPiece(sgl, c, ep, w);
      HostBytesCons(p, Walk(sgl, After(sgl, c, p.seg.len), p.ep + p.seg.len, w, slots - 1).pieces);
    } else {
      var d := Cursor(1, i + 1, 0);
      WalkIs(sgl, d, ep, w, slots);
      if i + 1 < |sgl| {
        PieceFits(sgl, d, ep, w);
        var p := NextPiece(sgl, d, ep, w);
        HostBytesCons(p, Walk(sgl, After(sgl, d, p.seg.len), p.ep + p.seg.len, w, slots - 1).pieces);
      }
    }
  }

  /** For a list of non-empty entries whose bytes are all different: a transfer that is due to go on at
      byte o of entry i goes on there if and only if i is 0. */
  lemma LaterTransferIff(sgl: seq<Seg>, i: nat, o: nat, w: Window, ep: nat, slots: nat)
    requires DistinctBytes(Flatten(sgl)) && forall j | 0 <= j < |sgl| :: 0 < sgl[j].len
    requires i < |sgl| && o < sgl[i].len && o < 0x1_0000_0000 && 0 < slots && InWindowOrEnd(w, ep)
    ensures var b := HostBytes(Walk(sgl, Cursor(0, i, o), ep, w, slots).pieces);
            var at := TotalLen(sgl[..i]) + o;
            && at < |Flatten(sgl)|
            && (b != [] && b <= Flatten(sgl)[at..] <==> i == 0)
  {
    var b := HostBytes(Walk(sgl, Cursor(0, i, o), ep, w, slots).pieces);
    FirstByte(sgl, i, o, w, ep, slots);
    ByteOf(sgl, i, o);
    if i == 0 {
      FirstEntryFits(sgl, o);
      WalkTakesRest(sgl, Cursor(0, 0, o), ep, w, slots);
      assert sgl[..0] == [];
      TakesPrefix(Flatten(sgl), o, b, Rest(sgl, Walk(sgl, Cursor(0, 0, o), ep, w, slots).c));
    } else if b != [] {
      hide Walk, HostBytes;
      WrongFirstByte(sgl, i, o, b[0]);
    }
  }

  lemma WrongFirstByte(sgl: seq<Seg>, i: nat, o: nat, first: nat)
    requires DistinctBytes(Flatten(sgl)) && forall j | 0 <= j < |sgl| :: 0 < sgl[j].len
    requires 0 < i < |sgl| && o < sgl[i].len
    requires first == if o == sgl[0].len then sgl[1].addr else sgl[0].addr + o
    ensures first != sgl[i].addr + o
  {
    ByteOf(sgl, i, o);
    ByteOf(sgl, i, 0);
    ByteOf(sgl, 0, 0);
    ByteOf(sgl, 1, 0);
    hide Flatten;
    SumGrows(sgl, 1, i);
    SumGrows(sgl, 0, 1);
    assert sgl[..0] == [];
  }

  lemma {:induction false} SumGrows(sgl: seq<Seg>, i: nat, j: nat)
    requires i <= j <= |sgl| && forall k | 0 <= k < |sgl| :: 0 < sgl[k].len
    ensures TotalLen(sgl[..i]) + (j - i) <= TotalLen(sgl[..j])
    decreases j - i
  {
    if i < j {
      SumGrows(sgl, i, j - 1);
      assert sgl[..j] == sgl[..j - 1] + [sgl[j - 1]];
      FlattenConcat(sgl[..j - 1], [sgl[j - 1]]);
    }
  }

  // --- whole requests -------------------------------------------------------------------------------------

  /** What a request remembers between its transfers: request offset, sg_idx, sg_offset. */
  datatype Progress = Progress(offset: nat, sgIdx: nat, sgOffset: nat)

  /** The transfer the build loop makes when `slots` slots are left in the ring. */
  function Transfer(sgl: seq<Seg>, w: Window, a: Progress, slots: nat): Walked
    requires 0 < w.size
  {
    Walk(sgl, Cursor(0, a.sgIdx, a.sgOffset), w.base + Residue(a.offset, w.size), w, slots)
  }

  function Next(a: Progress, t: Walked): Progress {
    Progress(Wrap32(a.offset + |HostBytes(t.pieces)|), t.c.i, Wrap32(t.c.o))
  }

  /** All descriptors of the first k transfers of a request of `total` bytes, from ring cursor p of a ring
      of d slots; nothing more once a transfer is empty. */
  function RequestPieces(sgl: seq<Seg>, w: Window, total: nat, a: Progress, p: nat, d: nat, k: nat): seq<Piece>
    requires 0 < w.size && p < d
    decreases k
  {
    if k == 0 || a.offset >= total then []
    else
      var t := Transfer(sgl, w, a, d - p);
      if t.pieces == [] then []
      else t.pieces + RequestPieces(sgl, w, total, Next(a, t), (p + |t.pieces|) % d, d, k - 1)
  }

  lemma TransferWraps(sgl: seq<Seg>, w: Window, logSize: nat, a: Progress, slots: nat, m: Mode)
    requires 0 < w.maxLen <= w.size == Pow2(logSize) && a.sgOffset < 0x1_0000_0000 && !m.nonIncr
    ensures var t := Transfer(sgl, w, a, slots);
            && (forall i | 0 <= i < |t.pieces| :: InWindow(w, t.pieces[i])) && |t.pieces| <= slots
            && PieceMoves(t.pieces, m) == WindowCopy(HostBytes(t.pieces), w, a.offset, m)
  {
    hide Residue, Pow2;
    ResidueBound(a.offset, w.size);
    WalkWraps(sgl, Cursor(0, a.sgIdx, a.sgOffset), w.base + Residue(a.offset, w.size), w, slots, a.offset, m);
  }

  lemma PieceMovesCons(p: Piece, rest: seq<Piece>, m: Mode)
    ensures PieceMoves([p] + rest, m) == LinearCopy(Bytes(p.seg), p.ep, m) + PieceMoves(rest, m)
    ensures PieceMoves([], m) == []
  {
    assert ([p] + rest)[1..] == rest;
  }

  lemma {:induction false} PieceMovesConcat(a: seq<Piece>, b: seq<Piece>, m: Mode)
    ensures PieceMoves(a + b, m) == PieceMoves(a, m) + PieceMoves(b, m)
  {
    if a == [] {
      assert a + b == b;
      assert PieceMoves([], m) == [];
    } else {
      hide PieceMoves, LinearCopy, Bytes;
      PieceMovesConcat(a[1..], b, m);
      PieceMovesCons(a[0], a[1..], m);
      PieceMovesCons(a[0], a[1..] + b, m);
      Regroup([a[0]], a[1..], b);
      Regroup(LinearCopy(Bytes(a[0].seg), a[0].ep, m), PieceMoves(a[1..], m), PieceMoves(b, m));
      assert a == [a[0]] + a[1..];
    }
  }

  /** A window copy only depends on the offset modulo the aperture, so not on the wrap of the offset. */
  lemma WrapCopy(host: seq<nat>, w: Window, logSize: nat, offset: nat, m: Mode)
    requires w.size == Pow2(logSize) && logSize <= 32
    ensures WindowCopy(host, w, Wrap32(offset), m) == WindowCopy(host, w, offset, m)
  {
    hide Residue, Pow2, Wrap32;
    var a, b := WindowCopy(host, w, Wrap32(offset), m), WindowCopy(host, w, offset, m);
    forall k | 0 <= k < |host| ensures a[k] == b[k] {
      WrapResidue(Wrap32(offset) + k, logSize);
      WrapResidue(offset + k, logSize);
      WrapAdd(offset, k);
    }
  }

  /** Over all transfers of a request, whatever the scatter list and the ring: every descriptor lies in
      the aperture, and byte k of the request has device address base + (k mod size). */
  lemma {:induction false} RequestWraps(sgl: seq<Seg>, w: Window, logSize: nat, total: nat, a: Progress,
                                        p: nat, d: nat, k: nat, m: Mode)
    requires 0 < w.maxLen <= w.size == Pow2(logSize) && logSize <= 32 && p < d && a.sgOffset < 0x1_0000_0000 && !m.nonIncr
    ensures var pieces := RequestPieces(sgl, w, total, a, p, d, k);
            && (forall i | 0 <= i < |pieces| :: InWindow(w, pieces[i]))
            && PieceMoves(pieces, m) == WindowCopy(HostBytes(pieces), w, a.offset, m)
    decreases k
  {
    hide Pow2, Transfer, InWindow, PieceMoves, WindowCopy, HostBytes, Wrap32;
    NoMoves(w, a.offset, m);
    if k != 0 && a.offset < total {
      var t := Transfer(sgl, w, a, d - p);
      if t.pieces != [] {
        TransferWraps(sgl, w, logSize, a, d - p, m);
        var rest := RequestPieces(sgl, w, total, Next(a, t), (p + |t.pieces|) % d, d, k - 1);
        RequestWraps(sgl, w, logSize, total, Next(a, t), (p + |t.pieces|) % d, d, k - 1, m);
        WrapCopy(HostBytes(rest), w, logSize, a.offset + |HostBytes(t.pieces)|, m);
        PieceMovesConcat(t.pieces, rest, m);
        HostBytesConcat(t.pieces, rest);
        WindowConcat(HostBytes(t.pieces), HostBytes(rest), w, a.offset, m);
      }
    }
  }

  lemma NoMoves(w: Window, offset: nat, m: Mode)
    requires 0 < w.size
    ensures PieceMoves([], m) == WindowCopy([], w, offset, m) && HostBytes([]) == []
  {
  }

  // --- inputs that go wrong ---------------------------------------------------------------------------------

  /** Two 4-byte entries, one ring slot left: the second transfer has sg_idx 1 but moves the bytes of
      entry 0 again. */
  lemma RestartsAtHead(a: nat, b: nat)
    ensures var sgl, w := [Seg(a, 4), Seg(b, 4)], Window(0, 16, 16);
            var first := Transfer(sgl, w, Progress(0, 0, 0), 1);
            var second := Transfer(sgl, w, Next(Progress(0, 0, 0), first), 8);
            && HostBytes(first.pieces) == HostBytes(second.pieces) == Bytes(Seg(a, 4))
            && (HostBytes(first.pieces) + HostBytes(second.pieces) == Flatten(sgl) <==> a == b)
  {
    hide HostBytes, Walk, Flatten, Bytes;
    var sgl, w := [Seg(a, 4), Seg(b, 4)], Window(0, 16, 16);
    WalkIs(sgl, Cursor(0, 0, 0), 0, w, 1);
    WalkIs(sgl, Cursor(1, 1, 0), 4, w, 0);
    WalkIs(sgl, Cursor(0, 1, 0), 4, w, 8);
    WalkIs(sgl, Cursor(1, 2, 0), 8, w, 7);
    HostBytesCons(Piece(Seg(a, 4), 0, 0), []);
    HostBytesCons(Piece(Seg(a, 4), 4, 0), []);
    NoHostBytes();
    TwoEntries(a, b);
  }

  lemma TwoEntries(a: nat, b: nat)
    ensures Bytes(Seg(a, 4)) + Bytes(Seg(a, 4)) == Flatten([Seg(a, 4), Seg(b, 4)]) <==> a == b
    ensures Bytes(Seg(a, 4)) + [] == Bytes(Seg(a, 4))
  {
    var sgl := [Seg(a, 4), Seg(b, 4)];
    assert sgl[1..] == [Seg(b, 4)] && sgl[1..][1..] == [];
    assert Flatten(sgl[1..]) == Bytes(Seg(b, 4)) + [];
    assert Flatten(sgl) == Bytes(Seg(a, 4)) + Bytes(Seg(b, 4));
    assert Flatten(sgl)[4] == b && (Bytes(Seg(a, 4)) + Bytes(Seg(a, 4)))[4] == a;
  }

  lemma TwoLengths(x: Seg, y: Seg)
    ensures TotalLen([x, y]) == x.len + y.len
  {
    hide TotalLen;
    assert [x, y] == [x] + [y];
    FlattenConcat([x], [y]);
    OneLength(x);
    OneLength(y);
  }

  lemma OneLength(x: Seg)
    ensures TotalLen([x]) == x.len
  {
    assert [x][1..] == [];
  }

  /** Both transfers move the four bytes of the first entry. */
  lemma HeadTwice(a: nat, b: nat)
    ensures var sgl, w, a0 := [Seg(a, 4), Seg(b, 8)], Window(0, 16, 4), Progress(0, 0, 0);
            var a1 := Next(a0, Transfer(sgl, w, a0, 1));
            a1 == Progress(4, 1, 0) && Next(a1, Transfer(sgl, w, a1, 8)) == Progress(8, 2, 0)
  {
    hide HostBytes, Walk;
    var sgl, w := [Seg(a, 4), Seg(b, 8)], Window(0, 16, 4);
    WalkIs(sgl, Cursor(0, 0, 0), 0, w, 1);
    WalkIs(sgl, Cursor(1, 1, 0), 4, w, 0);
    WalkIs(sgl, Cursor(0, 1, 0), 4, w, 8);
    WalkIs(sgl, Cursor(1, 2, 0), 8, w, 7);
    HostBytesCons(Piece(Seg(a, 4), 0, 0), []);
    HostBytesCons(Piece(Seg(a, 4), 4, 0), []);
    NoHostBytes();
  }

  /** One slot left, then eight: the third transfer of a 12-byte request makes no descriptor at all,
      although only 8 bytes have been moved. */
  lemma EmptyBuild(a: nat, b: nat)
    ensures var sgl, w, a0 := [Seg(a, 4), Seg(b, 8)], Window(0, 16, 4), Progress(0, 0, 0);
            var a1 := Next(a0, Transfer(sgl, w, a0, 1));
            var a2 := Next(a1, Transfer(sgl, w, a1, 8));
            a2.offset < TotalLen(sgl) && forall slots: nat :: Transfer(sgl, w, a2, slots).pieces == []
  {
    hide HostBytes, Walk, Flatten, TotalLen, Next;
    var sgl, w := [Seg(a, 4), Seg(b, 8)], Window(0, 16, 4);
    TwoLengths(Seg(a, 4), Seg(b, 8));
    HeadTwice(a, b);
    forall slots: nat ensures Walk(sgl, Cursor(0, 2, 0), 8, w, slots).pieces == [] { WalkIs(sgl, Cursor(0, 2, 0), 8, w, slots); }
  }

  /** Two slots left: the first transfer stops inside the second entry, at an offset behind the end of the
      first, and the next one takes bytes behind the end of the first entry. */
  lemma RunsPastEntry(a: nat, b: nat, slots: nat)
    requires 0 < slots
    ensures var sgl, w, a0 := [Seg(a, 4), Seg(b, 16)], Window(0, 64, 8), Progress(0, 0, 0);
            var a1 := Next(a0, Transfer(sgl, w, a0, 2));
            && a1 == Progress(12, 1, 8) && a1.offset < TotalLen(sgl)
            && !AllInside(sgl, Transfer(sgl, w, a1, slots).pieces)
  {
    StopsInSecond(a, b);
    var sgl, w := [Seg(a, 4), Seg(b, 16)], Window(0, 64, 8);
    hide Walk, Next, Flatten, HostBytes, TotalLen;
    TwoLengths(Seg(a, 4), Seg(b, 16));
    BuildStaysInsideIff(sgl, 1, 8, 12, w, slots);
  }

  lemma StopsInSecond(a: nat, b: nat)
    ensures var sgl, w, a0 := [Seg(a, 4), Seg(b, 16)], Window(0, 64, 8), Progress(0, 0, 0);
            Next(a0, Transfer(sgl, w, a0, 2)) == Progress(12, 1, 8)
  {
    var sgl, w := [Seg(a, 4), Seg(b, 16)], Window(0, 64, 8);
    WalkIs(sgl, Cursor(0, 0, 0), 0, w, 2);
    WalkIs(sgl, Cursor(1, 1, 0), 4, w, 1);
    WalkIs(sgl, Cursor(1, 1, 8), 12, w, 0);
    HostBytesCons(Piece(Seg(b, 8), 4, 1), []);
    HostBytesCons(Piece(Seg(a, 4), 0, 0), [Piece(Seg(b, 8), 4, 1)]);
    hide HostBytes;
  }
}
