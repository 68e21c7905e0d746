/** Cutting a pinned user buffer into page segments (xdma-driver/xdma/cdev_sgdma.c). */
module UserBuffer {
  import opened Arith
  import opened Descriptor
  import opened Scatter

  datatype MapStatus = Mapped | Invalid | PinFailed | Fault

  /** The page count the driver computes, in 64-bit arithmetic, stored in 32 bits. */
  function PagesNr(buf: nat, len: nat): nat {
    (buf + len + 4095 - (buf - buf % 4096)) / 4096 % 0x1_0000_0000
  }

  predicate AdjacentDuplicate(pages: seq<nat>) {
    exists i :: 1 <= i < |pages| && pages[i - 1] == pages[i]
  }

  /** Where byte k of the buffer lives: the frame of its page, same offset. */
  function Phys(buf: nat, pages: seq<nat>, n: nat): (r: seq<nat>)
    requires n > 0 ==> (buf % 4096 + n - 1) / 4096 < |pages|
    ensures |r| == n
  {
    seq(n, k requires 0 <= k < n =>
      pages[(buf % 4096 + k) / 4096] * 4096 + (buf + k) % 4096)
  }

  ghost predicate InOnePage(s: Seg, page: nat) {
    0 < s.len && page * 4096 <= s.addr && s.addr + s.len <= (page + 1) * 4096
  }

  /** Bytes covered by the first i segments of a buffer shorter than 4 GiB. */
  function Covered(off: nat, len: nat, i: nat): nat
    requires off < 4096
  {
    if i == 0 then 0 else if 4096 * i - off < len then 4096 * i - off else len
  }

  lemma PageCount(buf: nat, len: nat)
    ensures PagesNr(buf, len) == Wrap32(CeilDiv(buf % 4096 + len, 4096))
    ensures len < 0x1_0000_0000 ==> PagesNr(buf, len) == CeilDiv(buf % 4096 + len, 4096)
  {
    assert buf + len + 4095 - (buf - buf % 4096) == buf % 4096 + len + 4096 - 1;
  }

  lemma OffsetIn(off: nat, c: nat, k: nat, buf: nat, i: nat)
    requires off == buf % 4096 && c <= k && (off + c) / 4096 == i
    requires (buf + c) % 4096 + (k - c) < 4096
    ensures (off + k) / 4096 == i && (buf + k) % 4096 == (buf + c) % 4096 + (k - c)
  {
    var q, r := (buf + c) / 4096, (buf + c) % 4096;
    assert buf + k == 4096 * q + (r + (k - c));
    assert off + c == 4096 * (q - buf / 4096) + r;
  }

  /** Segment i of the buffer extends the translation by exactly its bytes. */
  lemma PhysExtend(buf: nat, pages: seq<nat>, i: nat, c: nat, n: nat)
    requires (buf + c) % 4096 + n <= 4096 && 0 < n
    requires i < |pages| && (buf % 4096 + c) / 4096 == i
    ensures (buf % 4096 + c + n - 1) / 4096 == i
    ensures Phys(buf, pages, c + n)
         == Phys(buf, pages, c) + Bytes(Seg(pages[i] * 4096 + (buf + c) % 4096, n))
  {
    OffsetIn(buf % 4096, c, c + n - 1, buf, i);
    var all := Phys(buf, pages, c + n);
    var tail := Bytes(Seg(pages[i] * 4096 + (buf + c) % 4096, n));
    forall k | c <= k < c + n ensures all[k] == tail[k - c] {
      OffsetIn(buf % 4096, c, k, buf, i);
    }
  }

  function SegmentAt(b: nat, left: nat, page: nat): Seg {
    var offset, low := b % 4096, left % 0x1_0000_0000;
    Seg(page * 4096 + offset, if 4096 - offset < low then 4096 - offset else low)
  }

  /** Arithmetic of one page: what the i-th segment of a short buffer covers. */
  lemma SegmentCovers(buf: nat, len: nat, i: nat, page: nat)
    requires i < CeilDiv(buf % 4096 + len, 4096) && len < 0x1_0000_0000
    ensures var off := buf % 4096;
            var c := Covered(off, len, i);
            && c <= len && (off + c) / 4096 == i
            && var seg := SegmentAt(buf + c, len - c, page);
               && (0 < len ==> InOnePage(seg, page))
               && seg.addr == page * 4096 + (buf + c) % 4096 && (buf + c) % 4096 + seg.len <= 4096
               && Covered(off, len, i + 1) == c + seg.len
  {
    hide CeilDiv;
    BelowCeil(buf % 4096 + len, i);
    PageStart(buf, i);
  }

  lemma BelowCeil(a: nat, i: nat)
    requires i < CeilDiv(a, 4096)
    ensures 4096 * i < a
  {
  }

  /** Page i starts where its predecessors end. */
  lemma PageStart(buf: nat, i: nat)
    ensures i > 0 ==> (buf + (4096 * i - buf % 4096)) % 4096 == 0 && (buf % 4096 + (4096 * i - buf % 4096)) / 4096 == i
    ensures buf % 4096 / 4096 == 0
  {
    PageMultiple(buf / 4096, buf % 4096, i);
    SmallOffset(buf % 4096);
  }

  lemma PageMultiple(q: nat, r: nat, i: nat)
    requires r < 4096
    ensures i > 0 ==> (q * 4096 + r + (4096 * i - r)) % 4096 == 0 && (r + (4096 * i - r)) / 4096 == i
  {
    DivUnique((q + i) * 4096, 4096, q + i, 0);
    DivUnique(i * 4096, 4096, i, 0);
  }

  lemma SmallOffset(r: nat)
    requires r < 4096
    ensures r / 4096 == 0
  {
  }

  /** The first segments hold the translation of the bytes they cover. */
  ghost predicate Translated(done: seq<Seg>, buf: nat, len: nat, pages: seq<nat>) {
    var c := Covered(buf % 4096, len, |done|);
    && |done| <= |pages|
    && (0 < c ==> (buf % 4096 + c - 1) / 4096 < |done|)
    && Flatten(done) == Phys(buf, pages, c)
    && (0 < len ==> forall j | 0 <= j < |done| :: InOnePage(done[j], pages[j]))
  }

  lemma NothingTranslated(buf: nat, len: nat, pages: seq<nat>)
    ensures Covered(buf % 4096, len, 0) == 0 && Translated([], buf, len, pages)
  {
  }

  lemma FillStep(done: seq<Seg>, buf: nat, len: nat, pages: seq<nat>)
    requires Translated(done, buf, len, pages) && len < 0x1_0000_0000
    requires |done| < |pages| == PagesNr(buf, len)
    ensures var c := Covered(buf % 4096, len, |done|);
            && c <= len
            && var seg := SegmentAt(buf + c, len - c, pages[|done|]);
               Covered(buf % 4096, len, |done| + 1) == c + seg.len && Translated(done + [seg], buf, len, pages)
  {
    hide Phys, Covered, Flatten, Bytes, SegmentAt, InOnePage, CeilDiv, PagesNr, Translated;
    PageCount(buf, len);
    SegmentCovers(buf, len, |done|, pages[|done|]);
    var c := Covered(buf % 4096, len, |done|);
    TranslatedNext(done, buf, len, pages, c, SegmentAt(buf + c, len - c, pages[|done|]));
  }

  /** A segment at the place of the next byte carries the translation on. */
  lemma TranslatedNext(done: seq<Seg>, buf: nat, len: nat, pages: seq<nat>, c: nat, seg: Seg)
    requires Translated(done, buf, len, pages) && |done| < |pages| && c == Covered(buf % 4096, len, |done|)
    requires Covered(buf % 4096, len, |done| + 1) == c + seg.len && (buf % 4096 + c) / 4096 == |done|
    requires 0 < len ==> InOnePage(seg, pages[|done|])
    requires seg.addr == pages[|done|] * 4096 + (buf + c) % 4096 && (buf + c) % 4096 + seg.len <= 4096
    ensures Translated(done + [seg], buf, len, pages)
  {
    hide Phys, Covered, Flatten, Bytes, InOnePage;
    FlattenSnoc(done, seg);
    if 0 < seg.len { PhysExtend(buf, pages, |done|, c, seg.len); }
  }

  /** The segment loop. Returns the bytes left over. */
  method FillSgl(sgl: array<Seg>, buf: nat, len: nat, pages: seq<nat>) returns (left: nat)
    requires sgl.Length == |pages| == PagesNr(buf, len) && 0 < |pages|
    modifies sgl
    ensures left == 0 <==> len < 0x1_0000_0000
    ensures left == 0 ==> Flatten(sgl[..]) == Phys(buf, pages, len)
    ensures left == 0 && 0 < len ==> forall i | 0 <= i < |pages| :: InOnePage(sgl[i], pages[i])
  {
    hide Translated, Covered, PagesNr, SegmentAt, Flatten, Phys, InOnePage;
    NothingTranslated(buf, len, pages);
    var b: nat := buf;
    left := len;
    for i := 0 to |pages|
      invariant 0x1_0000_0000 <= len ==> 0x1_0000_0000 <= left
      invariant len < 0x1_0000_0000 ==>
        && b == buf + Covered(buf % 4096, len, i) && left == len - Covered(buf % 4096, len, i)
        && Translated(sgl[..i], buf, len, pages)
    {
      if len < 0x1_0000_0000 { FillStep(sgl[..i], buf, len, pages); }
      TakesLowBits(b, left, pages[i]);
      ghost var before := sgl[..i];
      sgl[i] := SegmentAt(b, left, pages[i]);
      assert sgl[..i + 1] == before + [sgl[i]];
      b := b + sgl[i].len;
      left := left - sgl[i].len;
    }
    assert sgl[..|pages|] == sgl[..];
    if len < 0x1_0000_0000 { AllTranslated(sgl[..], buf, len, pages); }
  }

  /** A step takes at most the length modulo 2^32, so it never brings a longer length below 2^32. */
  lemma TakesLowBits(b: nat, left: nat, page: nat)
    ensures SegmentAt(b, left, page).len <= left
    ensures 0x1_0000_0000 <= left ==> 0x1_0000_0000 <= left - SegmentAt(b, left, page).len
  {
  }

  lemma AllTranslated(done: seq<Seg>, buf: nat, len: nat, pages: seq<nat>)
    requires Translated(done, buf, len, pages) && len < 0x1_0000_0000
    requires |done| == |pages| == PagesNr(buf, len)
    ensures Covered(buf % 4096, len, |pages|) == len
    ensures len > 0 ==> (buf % 4096 + len - 1) / 4096 < |pages|
    ensures Flatten(done) == Phys(buf, pages, len)
    ensures 0 < len ==> forall i | 0 <= i < |pages| :: InOnePage(done[i], pages[i])
  {
    hide Flatten, Phys, InOnePage, PagesNr;
    PageCount(buf, len);
  }

  /** `pinned` is what pinning returned, `pages` the frames it stored. The mapping succeeds for
      every buffer below 4 GiB that was pinned, and only for those: a longer one always ends in
      the "Invalid user buffer length" exit, because each step takes min(rest of page, len mod 2^32). */
  method MapUserBuf(buf: nat, len: nat, pinned: int, pages: seq<nat>)
    returns (status: MapStatus, sgl: array<Seg>)
    requires buf + len + 4096 <= 0x1_0000_0000 * 0x1_0000_0000
    requires |pages| == PagesNr(buf, len)
    ensures status == Mapped <==>
      PagesNr(buf, len) == pinned && pinned != 0 && !AdjacentDuplicate(pages) && len < 0x1_0000_0000
    ensures status == Invalid <==>
      || PagesNr(buf, len) == 0
      || (PagesNr(buf, len) == pinned && !AdjacentDuplicate(pages) && 0x1_0000_0000 <= len)
    ensures status == PinFailed <==> PagesNr(buf, len) != 0 && pinned < 0
    ensures PagesNr(buf, len) == Wrap32(CeilDiv(buf % 4096 + len, 4096))
    ensures status == Mapped ==> forall i | 1 <= i < |pages| :: pages[i - 1] != pages[i]
    ensures status == Fault ==> pinned != |pages| || exists i :: 1 <= i < |pages| && pages[i - 1] == pages[i]
    ensures fresh(sgl)
    ensures status == Mapped ==>
      && sgl.Length == CeilDiv(buf % 4096 + len, 4096)
      && (0 < len ==> forall i | 0 <= i < sgl.Length :: InOnePage(sgl[i], pages[i]))
      && Flatten(sgl[..]) == Phys(buf, pages, len)
  {
    PageCount(buf, len);
    var pagesNr := PagesNr(buf, len);
    sgl := new Seg[pagesNr](_ => Seg(0, 0));
    if pagesNr == 0 { return Invalid, sgl; }
    if pinned < 0 { return PinFailed, sgl; }
    if pinned != pagesNr { return Fault, sgl; }
    for i := 1 to pagesNr
      invariant forall j | 1 <= j < i :: pages[j - 1] != pages[j]
    {
      if pages[i - 1] == pages[i] { return Fault, sgl; }
    }
    var left := FillSgl(sgl, buf, len, pages);
    status := if left != 0 then Invalid else Mapped;
  }
}
