/** When the transfers of an aperture request together move the request: a condition on the list, the
    window, the ring cursor and the ring size. */
module ApertureWhole {
  import opened Arith
  import opened Masks
  import opened Descriptor
  import opened Scatter
  import opened Aperture
  import ApertureDriver

  ghost predicate NonEmpty(sgl: seq<Seg>) { forall j | 0 <= j < |sgl| :: 0 < sgl[j].len }

  /** A cursor with bytes left in its entry, if it is on one. */
  ghost predicate OnEntry(sgl: seq<Seg>, c: Cursor) {
    c.cur <= c.i && (c.cur < |sgl| ==> c.o < sgl[c.cur].len)
  }

  /** A walk over non-empty entries goes forward and stops on bytes that are still to come. */
  lemma {:induction false} WalkForward(sgl: seq<Seg>, c: Cursor, ep: nat, w: Window, slots: nat, offset: nat)
    requires NonEmpty(sgl) && OnEntry(sgl, c) && InWindowOrEnd(w, ep) && At(w, ep, offset)
    ensures var r := Walk(sgl, c, ep, w, slots);
            OnEntry(sgl, r.c) && c.cur <= r.c.cur && r.c.i - r.c.cur == c.i - c.cur
    decreases slots, |sgl| - c.i
  {
    hide Walk, NextPiece, After, Residue, At, BytesLeft, DescCount;
    WalkIs(sgl, c, ep, w, slots);
    CursorFits(sgl, c);
    if c.i < |sgl| && slots != 0 {
      CutStep(sgl, c, ep, w, offset);
      PieceGoesOn(sgl, c, ep, w, offset);
      var p := NextPiece(sgl, c, ep, w);
      WalkForward(sgl, After(sgl, c, p.seg.len), p.ep + p.seg.len, w, slots - 1, offset + p.seg.len);
    }
  }

  /** Descriptors the entry of the cursor still takes. */
  function EntryCount(sgl: seq<Seg>, c: Cursor, offset: nat, w: Window): nat
    requires c.cur < |sgl| && c.o <= sgl[c.cur].len && 0 < w.maxLen <= w.size
  {
    ResidueBound(offset, w.size);
    DescCount(sgl[c.cur].len - c.o, Residue(offset, w.size), w)
  }

  /** The walk stays in its first entry exactly if the slots do not suffice for it. */
  ghost predicate EntryEnd(sgl: seq<Seg>, c: Cursor, offset: nat, w: Window, slots: nat, r: Walked)
    requires c.cur < |sgl| && c.o < sgl[c.cur].len && 0 < w.maxLen <= w.size
  {
    var n := |HostBytes(r.pieces)|;
    && (r.c.cur == c.cur <==> slots < EntryCount(sgl, c, offset, w))
    && (r.c.cur == c.cur ==>
          && r.c == Cursor(c.cur, c.i, c.o + n) && r.c.o < sgl[c.cur].len
          && |r.pieces| + EntryCount(sgl, r.c, offset + n, w) == EntryCount(sgl, c, offset, w))
  }

  lemma EntryEndStarts(sgl: seq<Seg>, c: Cursor, ep: nat, w: Window, offset: nat)
    requires c.cur <= c.i < |sgl| && c.o < sgl[c.cur].len && InWindowOrEnd(w, ep) && At(w, ep, offset)
    ensures EntryEnd(sgl, c, offset, w, 0, Walked([], c, ep))
  {
    hide Residue, DescCount, NextPiece, After, At;
    CutStep(sgl, c, ep, w, offset);
    NoHostBytes();
  }

  lemma EntryEndPiece(sgl: seq<Seg>, c: Cursor, ep: nat, w: Window, slots: nat, offset: nat, r: Walked)
    requires c.cur <= c.i < |sgl| && c.o < sgl[c.cur].len && InWindowOrEnd(w, ep) && At(w, ep, offset) && 0 < slots
    requires var p := NextPiece(sgl, c, ep, w);
             var n := After(sgl, c, p.seg.len);
             && n.cur <= r.c.cur
             && (n.cur == c.cur ==>
                   n.o < sgl[c.cur].len && EntryEnd(sgl, n, offset + p.seg.len, w, slots - 1, r))
    ensures EntryEnd(sgl, c, offset, w, slots, Cons(NextPiece(sgl, c, ep, w), r))
  {
    hide Residue, DescCount, NextPiece, After, HostBytes, At;
    CutStep(sgl, c, ep, w, offset);
    HostBytesCons(NextPiece(sgl, c, ep, w), r.pieces);
  }

  lemma {:induction false} WalkEndsEntry(sgl: seq<Seg>, c: Cursor, ep: nat, w: Window, slots: nat, offset: nat)
    requires NonEmpty(sgl) && OnEntry(sgl, c) && c.i < |sgl| && InWindowOrEnd(w, ep) && At(w, ep, offset)
    ensures EntryEnd(sgl, c, offset, w, slots, Walk(sgl, c, ep, w, slots))
    decreases slots
  {
    hide Walk, NextPiece, After, Residue, At, BytesLeft, EntryEnd, DescCount;
    WalkIs(sgl, c, ep, w, slots);
    CursorFits(sgl, c);
    if slots == 0 {
      EntryEndStarts(sgl, c, ep, w, offset);
    } else {
      CutStep(sgl, c, ep, w, offset);
      PieceGoesOn(sgl, c, ep, w, offset);
      var p := NextPiece(sgl, c, ep, w);
      var n := After(sgl, c, p.seg.len);
      WalkForward(sgl, n, p.ep + p.seg.len, w, slots - 1, offset + p.seg.len);
      if n.cur == c.cur { WalkEndsEntry(sgl, n, p.ep + p.seg.len, w, slots - 1, offset + p.seg.len); }
      EntryEndPiece(sgl, c, ep, w, slots, offset, Walk(sgl, n, p.ep + p.seg.len, w, slots - 1));
    }
  }

  // --- one build that starts inside the first entry ---------------------------------------------------

  /** A request that has moved its first o bytes and is still in entry 0. */
  function InFirst(o: nat): Progress { Progress(o, 0, o) }

  ghost predicate Request(sgl: seq<Seg>, w: Window) {
    NonEmpty(sgl) && sgl != [] && TotalLen(sgl) < 0x1_0000_0000 && 0 < w.maxLen <= w.size
  }

  /** Descriptors still to be made for entry 0, and for the whole list. */
  function FirstCount(sgl: seq<Seg>, o: nat, w: Window): nat
    requires sgl != [] && o <= sgl[0].len && 0 < w.maxLen <= w.size
  {
    EntryCount(sgl, Cursor(0, 0, o), o, w)
  }

  function AllCount(sgl: seq<Seg>, o: nat, w: Window): nat
    requires sgl != [] && o <= sgl[0].len && 0 < w.maxLen <= w.size
  {
    ListCount(sgl, Cursor(0, 0, o), o, w)
  }

  lemma FirstOfAll(sgl: seq<Seg>, o: nat, w: Window)
    requires Request(sgl, w) && o < sgl[0].len
    ensures 0 < FirstCount(sgl, o, w) <= AllCount(sgl, o, w)
  {
    hide Residue;
    ResidueBound(o, w.size);
    CountCut(sgl[0].len - o, Residue(o, w.size), w);
  }

  lemma RestAt(sgl: seq<Seg>, i: nat, o: nat)
    requires OffsetFits(sgl, Cursor(i, i, o))
    ensures TotalLen(sgl[..Min(i, |sgl|)]) + o <= |Flatten(sgl)|
    ensures Rest(sgl, Cursor(i, i, o)) == Flatten(sgl)[TotalLen(sgl[..Min(i, |sgl|)]) + o..]
  {
    hide Flatten, TotalLen;
    var k := Min(i, |sgl|);
    Cut(sgl, k);
    ReachAt(sgl, i, o);
    hide Reach;
    FlattenConcat(sgl[..k], sgl[k..]);
    FlattenLen(sgl[..k]);
    DropBoth(Flatten(sgl[..k]), Flatten(sgl[k..]), o);
  }

  lemma Cut<T>(s: seq<T>, k: nat)
    requires k <= |s|
    ensures s == s[..k] + s[k..]
  {
  }

  lemma ReachAt(sgl: seq<Seg>, i: nat, o: nat)
    ensures Reach(sgl, Cursor(i, i, o)) == sgl[Min(i, |sgl|)..]
  {
  }

  lemma DropBoth(a: seq<nat>, b: seq<nat>, o: nat)
    requires o <= |b|
    ensures (a + b)[|a| + o..] == b[o..]
  {
  }

  lemma FirstAt(w: Window, offset: nat)
    requires 0 < w.maxLen <= w.size
    ensures var ep := w.base + Residue(offset, w.size); InWindowOrEnd(w, ep) && At(w, ep, offset)
  {
    ResidueBound(offset, w.size);
  }

  /** Where a build from entry 0 stops: the bytes of `t` are the next ones of the request, and it stays in
      entry 0, stops behind it, or takes all there is, depending on the free slots alone. */
  ghost predicate BuildEnds(sgl: seq<Seg>, o: nat, w: Window, slots: nat, t: Walked)
    requires Request(sgl, w) && o < sgl[0].len
  {
    var o1 := o + |HostBytes(t.pieces)|;
    && o1 <= |Flatten(sgl)| && HostBytes(t.pieces) == Flatten(sgl)[o..o1] && |t.pieces| <= slots
    && (if slots < FirstCount(sgl, o, w) then
          && t.c == Cursor(0, 0, o1) && o1 < sgl[0].len && |t.pieces| == slots
          && FirstCount(sgl, o1, w) == FirstCount(sgl, o, w) - slots
          && AllCount(sgl, o1, w) == AllCount(sgl, o, w) - slots
        else if slots < AllCount(sgl, o, w) then
          && 0 < t.c.i < |sgl| && t.c.cur == t.c.i && t.c.o < sgl[t.c.i].len && o1 == TotalLen(sgl[..t.c.i]) + t.c.o
        else o1 == |Flatten(sgl)|)
  }

  /** The facts about the walk that a build consists of. */
  lemma FirstWalk(sgl: seq<Seg>, o: nat, w: Window, slots: nat)
    requires Request(sgl, w) && o < sgl[0].len
    ensures var c, t := Cursor(0, 0, o), Transfer(sgl, w, InFirst(o), slots);
            && OffsetFits(sgl, c) && o <= |Flatten(sgl)| && Rest(sgl, c) == Flatten(sgl)[o..]
            && Takes(sgl, c, t) && Counts(sgl, c, o, w, slots, t)
            && OnEntry(sgl, t.c) && t.c.cur == t.c.i && EntryEnd(sgl, c, o, w, slots, t)
  {
    hide Walk, Residue, InWindowOrEnd, At, Takes, Counts, EntryEnd, Flatten, TotalLen;
    var c, ep := Cursor(0, 0, o), w.base + Residue(o, w.size);
    FirstAt(w, o);
    FirstEntryFits(sgl, o);
    WalkTakesRest(sgl, c, ep, w, slots);
    WalkCounts(sgl, c, ep, w, slots, o);
    WalkForward(sgl, c, ep, w, slots, o);
    WalkEndsEntry(sgl, c, ep, w, slots, o);
  }

  lemma BuildFrom(sgl: seq<Seg>, o: nat, w: Window, slots: nat)
    requires Request(sgl, w) && o < sgl[0].len
    ensures BuildEnds(sgl, o, w, slots, Transfer(sgl, w, InFirst(o), slots))
  {
    hide Transfer, Flatten, TotalLen, DescCount, Residue, HostBytes, Rest, OffsetFits;
    var t := Transfer(sgl, w, InFirst(o), slots);
    FirstWalk(sgl, o, w, slots);
    FirstOfAll(sgl, o, w);
    var o1 := o + |HostBytes(t.pieces)|;
    NothingLeftIff(sgl, t.c, o1, w);
    RestAt(sgl, t.c.i, t.c.o);
    var at := TotalLen(sgl[..Min(t.c.i, |sgl|)]) + t.c.o;
    SplitAtTail(Flatten(sgl), o, HostBytes(t.pieces), at);
  }

  lemma SplitAtTail(all: seq<nat>, o: nat, b: seq<nat>, at: nat)
    requires o <= |all| && at <= |all| && all[o..] == b + all[at..]
    ensures at == o + |b| && b == all[o..o + |b|]
    ensures all[at..] == [] <==> at == |all|
  {
    assert |all| - o == |b| + (|all| - at);
    assert b == all[o..][..|b|];
  }

  // --- all builds -------------------------------------------------------------------------------------------

  /** The bytes of the first k builds of a request, from a stored position and ring cursor on. */
  function Moved(sgl: seq<Seg>, w: Window, a: Progress, p: nat, d: nat, k: nat): seq<nat>
    requires 0 < w.size && p < d
  {
    HostBytes(RequestPieces(sgl, w, TotalLen(sgl), a, p, d, k))
  }

  lemma RequestIs(sgl: seq<Seg>, w: Window, total: nat, a: Progress, p: nat, d: nat, k: nat)
    requires 0 < w.size && p < d
    ensures var t := Transfer(sgl, w, a, d - p);
            RequestPieces(sgl, w, total, a, p, d, k) ==
              if k == 0 || a.offset >= total || t.pieces == [] then []
              else t.pieces + RequestPieces(sgl, w, total, Next(a, t), (p + |t.pieces|) % d, d, k - 1)
  {
    hide Transfer, Next;
  }

  lemma MovedIs(sgl: seq<Seg>, w: Window, a: Progress, p: nat, d: nat, k: nat)
    requires 0 < w.size && p < d
    ensures var t := Transfer(sgl, w, a, d - p);
            Moved(sgl, w, a, p, d, k) ==
              if k == 0 || a.offset >= TotalLen(sgl) || t.pieces == [] then []
              else HostBytes(t.pieces) + Moved(sgl, w, Next(a, t), (p + |t.pieces|) % d, d, k - 1)
  {
    hide Transfer, HostBytes, TotalLen, Next, RequestPieces;
    RequestIs(sgl, w, TotalLen(sgl), a, p, d, k);
    NoHostBytes();
    var t := Transfer(sgl, w, a, d - p);
    if k != 0 && a.offset < TotalLen(sgl) && t.pieces != [] {
      HostBytesConcat(t.pieces, RequestPieces(sgl, w, TotalLen(sgl), Next(a, t), (p + |t.pieces|) % d, d, k - 1));
    }
  }

  /** From a position behind entry 0 a request does not get what it still has to move: either the next build
      makes nothing, or it starts with the wrong byte. */
  lemma BehindFirstFails(sgl: seq<Seg>, w: Window, i: nat, o: nat, p: nat, d: nat, k: nat)
    requires Request(sgl, w) && DistinctBytes(Flatten(sgl)) && 0 < i < |sgl| && o < sgl[i].len && p < d
    ensures var at := TotalLen(sgl[..i]) + o;
            at < |Flatten(sgl)| && Moved(sgl, w, Progress(at, i, o), p, d, k) != Flatten(sgl)[at..]
  {
    hide Walk, Flatten, TotalLen, HostBytes, Next, DistinctBytes;
    var at := TotalLen(sgl[..i]) + o;
    var a := Progress(at, i, o);
    FirstAt(w, at);
    LengthIn(sgl, i);
    LaterTransferIff(sgl, i, o, w, w.base + Residue(at, w.size), d - p);
    MovedIs(sgl, w, a, p, d, k);
    var t := Transfer(sgl, w, a, d - p);
    NoHostBytes();
    var rest := Moved(sgl, w, a, p, d, k);
    if rest != [] {
      assert HostBytes(t.pieces) <= rest;
      SomeBytes(sgl, w, a, d - p);
    }
  }

  lemma LengthIn(sgl: seq<Seg>, i: nat)
    requires i < |sgl|
    ensures sgl[i].len <= TotalLen(sgl)
  {
    assert sgl == sgl[..i] + sgl[i..];
    FlattenConcat(sgl[..i], sgl[i..]);
  }

  /** A build with a descriptor moves a byte. */
  lemma SomeBytes(sgl: seq<Seg>, w: Window, a: Progress, slots: nat)
    requires 0 < w.maxLen <= w.size && a.sgOffset < 0x1_0000_0000
    ensures var t := Transfer(sgl, w, a, slots); t.pieces != [] ==> HostBytes(t.pieces) != []
  {
    hide Walk, HostBytes, Residue, At;
    var c, ep := Cursor(0, a.sgIdx, a.sgOffset), w.base + Residue(a.offset, w.size);
    FirstAt(w, a.offset);
    WalkWraps(sgl, c, ep, w, slots, a.offset, Mode(ToDevice, false));
    var t := Transfer(sgl, w, a, slots);
    if t.pieces != [] {
      assert InWindow(w, t.pieces[0]);
      assert t.pieces == [t.pieces[0]] + t.pieces[1..];
      HostBytesCons(t.pieces[0], t.pieces[1..]);
    }
  }

  /** The j-th time the ring ends, in descriptors made since. */
  function RingEnd(first: nat, d: nat, j: nat): nat { first + j * d }

  /** The ring ends after at least lo and less than hi descriptors. */
  ghost predicate RingEndsIn(first: nat, d: nat, lo: nat, hi: nat) {
    exists j: nat :: lo <= RingEnd(first, d, j) < hi
  }

  lemma RingEndNext(first: nat, d: nat, lo: nat, hi: nat)
    requires first < lo <= hi
    ensures RingEndsIn(first, d, lo, hi) <==> RingEndsIn(d, d, lo - first, hi - first)
  {
    if RingEndsIn(first, d, lo, hi) {
      var j: nat :| lo <= RingEnd(first, d, j) < hi;
      assert j > 0 && RingEnd(d, d, j - 1) == RingEnd(first, d, j) - first by { assert j * d == d + (j - 1) * d; }
    }
    if RingEndsIn(d, d, lo - first, hi - first) {
      var j: nat :| lo - first <= RingEnd(d, d, j) < hi - first;
      assert RingEnd(first, d, j + 1) == first + RingEnd(d, d, j) by { assert (j + 1) * d == d + j * d; }
    }
  }

  lemma RingEndNow(first: nat, d: nat, lo: nat, hi: nat)
    ensures lo <= first < hi ==> RingEndsIn(first, d, lo, hi)
    ensures hi <= first ==> !RingEndsIn(first, d, lo, hi)
  {
    assert RingEnd(first, d, 0) == first;
    if hi <= first {
      forall j: nat ensures first <= RingEnd(first, d, j) { assert 0 <= j * d; }
    }
  }

  /** The rest of a request that is still in entry 0. */
  lemma {:induction false} FromFirstIff(sgl: seq<Seg>, w: Window, o: nat, p: nat, d: nat, k: nat)
    requires Request(sgl, w) && DistinctBytes(Flatten(sgl)) && o < sgl[0].len && p < d && o + k >= |Flatten(sgl)|
    ensures o <= |Flatten(sgl)|
    ensures Moved(sgl, w, InFirst(o), p, d, k) == Flatten(sgl)[o..]
       <==> !RingEndsIn(d - p, d, FirstCount(sgl, o, w), AllCount(sgl, o, w))
    decreases k
  {
    hide Transfer, Flatten, TotalLen, HostBytes, FirstCount, AllCount, DistinctBytes, RingEndsIn, Moved;
    var slots, t := d - p, Transfer(sgl, w, InFirst(o), d - p);
    FlattenLen(sgl);
    LengthIn(sgl, 0);
    FirstOfAll(sgl, o, w);
    BuildFrom(sgl, o, w, slots);
    RingEndNow(slots, d, FirstCount(sgl, o, w), AllCount(sgl, o, w));
    SomePieces(sgl, o, w, slots);
    var o1 := o + |HostBytes(t.pieces)|;
    var p1 := (p + |t.pieces|) % d;
    NextFrom(o, t);
    FirstThenRest(sgl, w, o, p, d, k, t);
    if slots < FirstCount(sgl, o, w) {
      RingEndNext(slots, d, FirstCount(sgl, o, w), AllCount(sgl, o, w));
      Wraps0(d);
      FromFirstIff(sgl, w, o1, 0, d, k - 1);
    } else if slots < AllCount(sgl, o, w) {
      BehindFirstFails(sgl, w, t.c.i, t.c.o, p1, d, k - 1);
    } else {
      MovedIs(sgl, w, Next(InFirst(o), t), p1, d, k - 1);
    }
  }

  /** The first build moves the next bytes; the request is right exactly if the later builds are. */
  lemma FirstThenRest(sgl: seq<Seg>, w: Window, o: nat, p: nat, d: nat, k: nat, t: Walked)
    requires 0 < w.size && p < d && t == Transfer(sgl, w, InFirst(o), d - p) && t.pieces != [] && o < TotalLen(sgl) && 0 < k
    requires o + |HostBytes(t.pieces)| <= |Flatten(sgl)|
    requires HostBytes(t.pieces) == Flatten(sgl)[o..o + |HostBytes(t.pieces)|]
    ensures Moved(sgl, w, InFirst(o), p, d, k) == Flatten(sgl)[o..]
       <==> Moved(sgl, w, Next(InFirst(o), t), (p + |t.pieces|) % d, d, k - 1) == Flatten(sgl)[o + |HostBytes(t.pieces)|..]
  {
    hide Transfer, Flatten, TotalLen, HostBytes, Moved, Next;
    MovedIs(sgl, w, InFirst(o), p, d, k);
    SameTail(Flatten(sgl), o, o + |HostBytes(t.pieces)|,
             Moved(sgl, w, Next(InFirst(o), t), (p + |t.pieces|) % d, d, k - 1));
  }

  lemma NextFrom(o: nat, t: Walked)
    requires o + |HostBytes(t.pieces)| < 0x1_0000_0000
    ensures Next(InFirst(o), t).offset == o + |HostBytes(t.pieces)|
    ensures t.c.o < 0x1_0000_0000 ==> Next(InFirst(o), t) == Progress(o + |HostBytes(t.pieces)|, t.c.i, t.c.o)
  {
  }

  lemma SomePieces(sgl: seq<Seg>, o: nat, w: Window, slots: nat)
    requires Request(sgl, w) && o < sgl[0].len && 0 < slots
    ensures var t := Transfer(sgl, w, InFirst(o), slots); t.pieces != [] && HostBytes(t.pieces) != []
  {
    hide Walk, HostBytes, Residue;
    FirstAt(w, o);
    LengthIn(sgl, 0);
    BuildEmitsIff(sgl, 0, o, w.base + Residue(o, w.size), w, slots);
    SomeBytes(sgl, w, InFirst(o), slots);
  }

  lemma Wraps0(d: nat)
    requires 0 < d
    ensures d % d == 0
  {
  }

  lemma SameTail(all: seq<nat>, o: nat, o1: nat, rest: seq<nat>)
    requires o <= o1 <= |all|
    ensures all[o..o1] + rest == all[o..] <==> rest == all[o1..]
  {
    assert all[o..] == all[o..o1] + all[o1..];
    if all[o..o1] + rest == all[o..] { assert rest == (all[o..o1] + rest)[o1 - o..] == all[o..][o1 - o..] == all[o1..]; }
  }

  /** The whole request, from any ring cursor: for non-empty entries without a repeated byte, its transfers
      together move exactly the flattened list if and only if the ring never ends while descriptors of the
      entries behind the first are still to be made. The first number is what entry 0 takes in this window,
      the second what the whole list takes. */
  lemma WholeIff(sgl: seq<Seg>, w: Window, p: nat, d: nat, k: nat)
    requires Request(sgl, w) && DistinctBytes(Flatten(sgl)) && p < d && TotalLen(sgl) <= k
    ensures Moved(sgl, w, Progress(0, 0, 0), p, d, k) == Flatten(sgl)
       <==> !RingEndsIn(d - p, d, FirstCount(sgl, 0, w), AllCount(sgl, 0, w))
  {
    hide Moved, FirstCount, AllCount, RingEndsIn, DistinctBytes, TotalLen;
    FlattenLen(sgl);
    FromFirstIff(sgl, w, 0, p, d, k);
  }

  /** The same on the device, whatever the ring holds: byte k of the list goes to or comes from
      base + (k mod aperture) for every k, and nothing else is moved, exactly then. */
  lemma WholeOnDeviceIff(ring: seq<Desc>, base: nat, sgl: seq<Seg>, w: Window, logSize: nat, p: nat, k: nat, m: Mode)
    requires Request(sgl, w) && DistinctBytes(Flatten(sgl)) && p < |ring| && base % 32 == 0 && TotalLen(sgl) <= k
    requires w.size == Pow2(logSize) && logSize <= 32 && !m.nonIncr
    ensures ApertureDriver.RunRequest(ring, base, sgl, w, TotalLen(sgl), Progress(0, 0, 0), p, k, m)
              == WindowCopy(Flatten(sgl), w, 0, m)
       <==> !RingEndsIn(|ring| - p, |ring|, FirstCount(sgl, 0, w), AllCount(sgl, 0, w))
  {
    hide FirstCount, AllCount, RingEndsIn, DistinctBytes, TotalLen, Pow2, WindowCopy, Flatten, RequestPieces, HostBytes;
    hide ApertureDriver.RunRequest;
    ApertureDriver.RequestWrapsOnDevice(ring, base, sgl, w, logSize, TotalLen(sgl), p, k, m);
    WholeIff(sgl, w, p, |ring|, k);
    CopyOnce(Moved(sgl, w, Progress(0, 0, 0), p, |ring|, k), Flatten(sgl), w, m);
  }

  /** Different bytes, different copies. */
  lemma CopyOnce(a: seq<nat>, b: seq<nat>, w: Window, m: Mode)
    requires 0 < w.size
    ensures WindowCopy(a, w, 0, m) == WindowCopy(b, w, 0, m) <==> a == b
  {
    if WindowCopy(a, w, 0, m) == WindowCopy(b, w, 0, m) {
      assert |a| == |WindowCopy(a, w, 0, m)| == |b|;
      forall i | 0 <= i < |a| ensures a[i] == b[i] {
        assert WindowCopy(a, w, 0, m)[i] == WindowCopy(b, w, 0, m)[i];
      }
    }
  }
}
