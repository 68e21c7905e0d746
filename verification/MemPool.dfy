/** The circular block allocator of the DMA tools. */
module MemPool {
  import opened Arith

  /** An entry of the block table: the chunk pointer (0 if no chunk starts here) and its length. */
  datatype Info = Info(memptr: nat, numBlks: nat)

  /** The table as the scan sees it. */
  predicate Occupied(info: seq<Info>, i: nat)
    requires i < |info|
  {
    info[i].memptr != 0
  }

  ghost predicate FreeHeads(info: seq<Info>, from: nat, to: nat)
    requires to <= |info|
  {
    forall i | from <= i < to :: info[i].memptr == 0
  }

  /** Block b belongs to the chunk that starts at h. */
  predicate Covers(info: seq<Info>, h: nat, b: nat)
    requires h < |info|
  {
    Occupied(info, h) && h <= b < h + info[h].numBlks
  }

  /** Live chunks are in bounds, non-empty and disjoint, and none straddles the cursor. */
  ghost predicate Sound(info: seq<Info>, cursor: nat) {
    && cursor <= |info|
    && (forall h | 0 <= h < |info| && info[h].memptr != 0 ::
          0 < info[h].numBlks && h + info[h].numBlks <= |info| && (cursor <= h || h + info[h].numBlks <= cursor))
    && (forall h, g | 0 <= h < g < |info| && info[h].memptr != 0 && info[g].memptr != 0 :: h + info[h].numBlks <= g)
  }

  // --- the scan -------------------------------------------------------------------------

  /** 32-bit addition. */
  function Add(a: nat, b: nat): nat { (a + b) % 0x1_0000_0000 }

  /** The locals of the scan loop at the top of an iteration. */
  datatype Scan = Scan(i: nat, avail: nat, maxBlk: nat, tmp: nat)

  /** An iteration goes on, or returns NULL from inside the loop. */
  datatype Next = Continue(s: Scan) | NoSpace

  function Start(info: seq<Info>, cursor: nat, num: nat): Scan {
    if Add(cursor, num) > |info| then Scan(0, 0, num, 0) else Scan(cursor, 0, Add(cursor, num), cursor)
  }

  predicate Running(info: seq<Info>, s: Scan) { s.i < |info| && s.i < s.maxBlk }

  function Iterate(info: seq<Info>, cursor: nat, num: nat, s: Scan): Next
    requires Running(info, s)
  {
    var s1 :=
      if Occupied(info, s.i) then
        var e := s.i + info[s.i].numBlks;
        Scan(e, 0, Add(e, num), e)
      else s.(avail := s.avail + 1);
    if s1.maxBlk > |info| then
      if num > cursor then NoSpace else Continue(Scan(1, 0, num, 0))
    else Continue(s1.(i := s1.i + 1))
  }

  /** The state after n iterations, None once the loop has been left. */
  datatype Option<T> = None | Some(value: T)

  function AfterIterations(info: seq<Info>, cursor: nat, num: nat, n: nat): Option<Scan> {
    if n == 0 then
      var s := Start(info, cursor, num);
      if Running(info, s) then Some(s) else None
    else
      match AfterIterations(info, cursor, num, n - 1)
      case None => None
      case Some(s) =>
        match Iterate(info, cursor, num, s)
        case NoSpace => None
        case Continue(s') => if Running(info, s') then Some(s') else None
  }

  // --- when the scan ends -----------------------------------------------------------------

  /** The first occupied entry in [from, to), or `to`. */
  function FirstHead(info: seq<Info>, from: nat, to: nat): (h: nat)
    requires to <= |info|
    ensures from < to ==> from <= h <= to
    ensures h < to ==> from <= h && Occupied(info, h)
    decreases if from < to then to - from else 0
  {
    if from >= to then to else if Occupied(info, from) then from else FirstHead(info, from + 1, to)
  }

  ghost predicate InBounds(info: seq<Info>) {
    forall h | 0 <= h < |info| && info[h].memptr != 0 :: 0 < info[h].numBlks && h + info[h].numBlks <= |info|
  }

  /** Skipping from chunk to chunk, starting behind one that ends at e, runs over the end of the pool. */
  ghost predicate Overruns(info: seq<Info>, num: nat, e: nat)
    decreases if e <= |info| then |info| + 1 - e else 0
  {
    if e > |info| || Add(e, num) > |info| then true
    else
      var h := FirstHead(info, e + 1, Add(e, num));
      h < Add(e, num) && Overruns(info, num, h + info[h].numBlks)
  }

  /** The scan will run over the end from here. */
  ghost predicate WillOverrun(info: seq<Info>, num: nat, s: Scan) {
    var h := FirstHead(info, s.i, Min(s.maxBlk, |info|));
    h < Min(s.maxBlk, |info|) && Overruns(info, num, h + info[h].numBlks)
  }

  /** The scan circles for ever: it overruns, is allowed to restart, and overruns again. */
  ghost predicate Diverges(info: seq<Info>, cursor: nat, num: nat) {
    && WillOverrun(info, num, Start(info, cursor, num))
    && num <= cursor
    && WillOverrun(info, num, Scan(1, 0, num, 0))
  }

  /** The scan from `from` meets the same first head if the entry there is free. */
  lemma FirstHeadStep(info: seq<Info>, from: nat, to: nat)
    requires from < to <= |info|
    ensures FirstHead(info, from, to) == if Occupied(info, from) then from else FirstHead(info, from + 1, to)
  {
  }

  /** One iteration of a scan that will overrun goes on, to a scan that will overrun. */
  lemma CirclingStep(info: seq<Info>, cursor: nat, num: nat, s: Scan)
    requires InBounds(info) && cursor <= |info| && num <= cursor && s.maxBlk <= |info|
    requires WillOverrun(info, num, s) && WillOverrun(info, num, Scan(1, 0, num, 0))
    ensures Running(info, s)
    ensures var n := Iterate(info, cursor, num, s);
            n.Continue? && n.s.maxBlk <= |info| && WillOverrun(info, num, n.s)
  {
    hide Overruns, FirstHead, Add;
    RunningOn(info, num, s);
    FirstHeadStep(info, s.i, s.maxBlk);
    if Occupied(info, s.i) {
      var e := s.i + info[s.i].numBlks;
      assert e <= |info|;
      OverrunsFrom(info, num, e);
    }
  }

  lemma RunningOn(info: seq<Info>, num: nat, s: Scan)
    requires WillOverrun(info, num, s) && s.maxBlk <= |info|
    ensures Running(info, s)
  {
  }

  lemma StartFits(info: seq<Info>, cursor: nat, num: nat)
    requires num <= |info|
    ensures Start(info, cursor, num).maxBlk <= |info|
  {
  }

  /** Exactly then the loop never ends (the other half is the termination of Alloc). */
  lemma {:induction false} DivergesForEver(info: seq<Info>, cursor: nat, num: nat, n: nat)
    requires InBounds(info) && cursor <= |info| && Diverges(info, cursor, num)
    ensures AfterIterations(info, cursor, num, n).Some?
    ensures var s := AfterIterations(info, cursor, num, n).value;
            s.maxBlk <= |info| && WillOverrun(info, num, s)
  {
    hide Iterate, WillOverrun, Start, Running;
    if n == 0 {
      StartFits(info, cursor, num);
      CirclingStep(info, cursor, num, Start(info, cursor, num));
    } else {
      DivergesForEver(info, cursor, num, n - 1);
      var s := AfterIterations(info, cursor, num, n - 1).value;
      CirclingStep(info, cursor, num, s);
      CirclingStep(info, cursor, num, Iterate(info, cursor, num, s).s);
    }
  }

  /** The one-block requests that all callers make always end. */
  lemma OneBlockEnds(info: seq<Info>, cursor: nat)
    ensures !Diverges(info, cursor, 1)
  {
  }

  /** An iteration that does not overrun leaves the question where it was. */
  lemma OverrunStays(info: seq<Info>, num: nat, s: Scan)
    requires InBounds(info) && Running(info, s)
    ensures Occupied(info, s.i) ==>
      var e := s.i + info[s.i].numBlks;
      && e <= |info|
      && (Add(e, num) > |info| ==> WillOverrun(info, num, s))
      && (Add(e, num) <= |info| ==>
            (WillOverrun(info, num, Scan(e + 1, 0, Add(e, num), e)) <==> WillOverrun(info, num, s)))
    ensures !Occupied(info, s.i) && s.maxBlk <= |info| ==>
      (WillOverrun(info, num, s.(avail := s.avail + 1, i := s.i + 1)) <==> WillOverrun(info, num, s))
  {
    hide Overruns, FirstHead, Add;
    FirstHeadStep(info, s.i, Min(s.maxBlk, |info|));
    if Occupied(info, s.i) { OverrunsFrom(info, num, s.i + info[s.i].numBlks); }
  }

  lemma OverrunsFrom(info: seq<Info>, num: nat, e: nat)
    ensures e <= |info| ==>
      (Overruns(info, num, e) <==>
         Add(e, num) > |info| || WillOverrun(info, num, Scan(e + 1, 0, Add(e, num), e)))
  {
    hide FirstHead, Add;
    if e <= |info| && Add(e, num) <= |info| { assert Min(Add(e, num), |info|) == Add(e, num); }
  }

  // --- the allocator -------------------------------------------------------------------------

  /** Where the next chunk of `num` blocks goes: at the cursor, or at 0 if it would overrun. */
  function Place(info: seq<Info>, cursor: nat, num: nat): nat {
    if cursor + num > |info| then 0 else cursor
  }

  /** The window there is inside the pool and holds no live chunk head. */
  ghost predicate WindowFree(info: seq<Info>, cursor: nat, num: nat) {
    var p := Place(info, cursor, num);
    p + num <= |info| && FreeHeads(info, p, p + num)
  }

  /** In numbers. */
  lemma WindowFreeIs(info: seq<Info>, cursor: nat, num: nat)
    ensures var p := (if cursor + num <= |info| then cursor else 0);
            && Place(info, cursor, num) == p
            && (WindowFree(info, cursor, num) <==> p + num <= |info| && forall i | p <= i < p + num :: info[i].memptr == 0)
  {
  }

  /** A window without heads is free of every live chunk, although the scan only looks at heads. */
  lemma WindowIsFree(info: seq<Info>, cursor: nat, num: nat, h: nat)
    requires Sound(info, cursor) && WindowFree(info, cursor, num) && 0 < num && h < |info| && Occupied(info, h)
    ensures var p := Place(info, cursor, num);
            h + info[h].numBlks <= p || p + num <= h
  {
  }

  lemma WindowUncovered(info: seq<Info>, cursor: nat, num: nat)
    requires Sound(info, cursor) && WindowFree(info, cursor, num) && 0 < num
    ensures var p := Place(info, cursor, num);
            forall h, b | 0 <= h < |info| && p <= b < p + num :: !Covers(info, h, b)
  {
    hide Sound, WindowFree, Place;
    var p := Place(info, cursor, num);
    forall h, b | 0 <= h < |info| && p <= b < p + num ensures !Covers(info, h, b) {
      if Occupied(info, h) { WindowIsFree(info, cursor, num, h); }
    }
  }

  lemma TakeKeeps(info: seq<Info>, cursor: nat, num: nat, ptr: nat)
    requires Sound(info, cursor) && WindowFree(info, cursor, num) && 0 < num && ptr != 0
    ensures var p := Place(info, cursor, num); Sound(info[p := Info(ptr, num)], p + num)
  {
    var p := Place(info, cursor, num);
    var after := info[p := Info(ptr, num)];
    forall h | 0 <= h < |info| && info[h].memptr != 0 ensures h + info[h].numBlks <= p || p + num <= h {
      WindowIsFree(info, cursor, num, h);
    }
    assert !Occupied(info, p);
  }

  lemma DropKeeps(info: seq<Info>, cursor: nat, h: nat)
    requires Sound(info, cursor) && h < |info|
    ensures Sound(info[h := Info(0, 0)], cursor)
  {
  }

  /** The allocator on values: table and cursor. */
  datatype State = State(info: seq<Info>, cursor: nat)

  /** A request of `num` blocks, or the chunk at `h` is freed. */
  datatype Op = Take(num: nat, ptr: nat) | Give(h: nat)

  ghost predicate Allowed(s: State, op: Op) {
    match op
    case Take(num, ptr) => 0 < num && ptr != 0
    case Give(h) => h < |s.info| && Occupied(s.info, h)
  }

  ghost function Do(s: State, op: Op): State
    requires Allowed(s, op)
  {
    match op
    case Take(num, ptr) =>
      if WindowFree(s.info, s.cursor, num) then
        var p := Place(s.info, s.cursor, num);
        State(s.info[p := Info(ptr, num)], p + num)
      else s
    case Give(h) => s.(info := s.info[h := Info(0, 0)])
  }

  // --- what the scan knows -----------------------------------------------------------------------

  lemma SoundBounds(info: seq<Info>, cursor: nat)
    requires Sound(info, cursor)
    ensures InBounds(info) && cursor <= |info|
  {
  }

  lemma AddBound(a: nat, num: nat)
    ensures Add(a, num) <= a + num
    ensures a + num < 0x1_0000_0000 ==> Add(a, num) == a + num
    ensures 0x1_0000_0000 <= a + num < 0x2_0000_0000 ==> Add(a, num) == a + num - 0x1_0000_0000
  {
  }

  /** No head met yet: the blocks from tmp to i are free and counted. */
  ghost predicate Searching(info: seq<Info>, cursor: nat, num: nat, s: Scan) {
    var s0 := Start(info, cursor, num);
    && s.tmp == s0.tmp && s.maxBlk == s0.maxBlk && s.tmp <= s.i <= |info|
    && s.avail == s.i - s.tmp && (s.i <= s.maxBlk || s.i == s.tmp)
    && FreeHeads(info, s.tmp, s.i)
  }

  /** A head was met: the block behind its chunk is never counted. */
  predicate Short(num: nat, s: Scan) {
    s.avail + s.tmp + 1 == s.i && s.maxBlk <= s.tmp + num && (s.i <= s.tmp + 1 || s.i <= s.maxBlk)
  }

  ghost predicate Sized(info: seq<Info>, cursor: nat, num: nat) {
    |info| <= 0x7FFF_FFFF && cursor <= |info| && 0 < num < 0x1_0000_0000
  }

  /** The first window of the scan, in 32-bit arithmetic. */
  lemma FirstWindow(info: seq<Info>, cursor: nat, num: nat)
    requires Sized(info, cursor, num)
    ensures Searching(info, cursor, num, Start(info, cursor, num))
    ensures var s := Start(info, cursor, num);
            if num <= |info|
            then s.tmp == Place(info, cursor, num) && s.maxBlk == s.tmp + num <= |info|
            else (s.tmp == 0 && s.maxBlk == num) || s.maxBlk < s.tmp
  {
  }

  lemma StartIs(info: seq<Info>, cursor: nat, num: nat)
    ensures Start(info, cursor, num) ==
      if Add(cursor, num) > |info| then Scan(0, 0, num, 0) else Scan(cursor, 0, Add(cursor, num), cursor)
  {
  }

  lemma HeadInWindow(info: seq<Info>, cursor: nat, num: nat, s: Scan)
    requires Sized(info, cursor, num) && Searching(info, cursor, num, s)
    requires Running(info, s) && Occupied(info, s.i)
    ensures !WindowFree(info, cursor, num)
  {
    hide Start;
    FirstWindow(info, cursor, num);
  }

  lemma SearchStep(info: seq<Info>, cursor: nat, num: nat, s: Scan)
    requires Searching(info, cursor, num, s) && Running(info, s) && !Occupied(info, s.i)
    ensures Searching(info, cursor, num, s.(avail := s.avail + 1, i := s.i + 1))
  {
    hide Start;
  }

  /** Before a head is met the scan leaves the pool only if the request is longer than the pool. */
  lemma LongOnly(info: seq<Info>, cursor: nat, num: nat, s: Scan)
    requires Sized(info, cursor, num) && Searching(info, cursor, num, s)
    ensures s.maxBlk > |info| ==> num > cursor && !WindowFree(info, cursor, num)
  {
    hide Start;
    FirstWindow(info, cursor, num);
  }

  lemma NotFound(info: seq<Info>, cursor: nat, num: nat, s: Scan)
    requires Sized(info, cursor, num) && Searching(info, cursor, num, s) && !Running(info, s) && s.avail < num
    ensures !WindowFree(info, cursor, num)
  {
    hide Start;
    FirstWindow(info, cursor, num);
  }

  lemma Found(info: seq<Info>, cursor: nat, num: nat, s: Scan)
    requires Sized(info, cursor, num) && Searching(info, cursor, num, s) && !Running(info, s) && s.avail >= num
    ensures WindowFree(info, cursor, num) && s.tmp == Place(info, cursor, num) && s.tmp + num <= |info|
  {
    hide Start;
    FirstWindow(info, cursor, num);
  }

  lemma RestartOnce(info: seq<Info>, cursor: nat, num: nat)
    requires !Diverges(info, cursor, num)
    ensures WillOverrun(info, num, Start(info, cursor, num)) && num <= cursor ==>
      !WillOverrun(info, num, Scan(1, 0, num, 0))
  {
    hide WillOverrun, Start;
  }

  // --- the loop of the scan ---------------------------------------------------------------------

  /** The state of the scan: whether it has met a chunk head, and whether it has restarted from 0. Until it
      meets one it searches the first window; afterwards it cannot find a place any more. */
  ghost predicate Scanning(info: seq<Info>, cursor: nat, num: nat, s: Scan, met: bool, wrapped: bool) {
    && s.i <= |info| + 1
    && (wrapped ==> met && !WillOverrun(info, num, s))
    && (!wrapped ==> (WillOverrun(info, num, s) <==> WillOverrun(info, num, Start(info, cursor, num))))
    && (!met ==> Searching(info, cursor, num, s))
    && (met ==> s.maxBlk <= |info| && !WindowFree(info, cursor, num) && s.avail < num && Short(num, s))
  }

  /** This iteration runs over the end. */
  predicate Restarts(info: seq<Info>, num: nat, s: Scan)
    requires s.i < |info|
  {
    (if Occupied(info, s.i) then Add(s.i + info[s.i].numBlks, num) else s.maxBlk) > |info|
  }

  lemma ScanStarts(info: seq<Info>, cursor: nat, num: nat)
    requires Sized(info, cursor, num)
    ensures Scanning(info, cursor, num, Start(info, cursor, num), false, false)
  {
    hide WillOverrun, WindowFree;
    FirstWindow(info, cursor, num);
  }

  /** One iteration: it goes on scanning, at most one restart, or returns because there is no place. */
  lemma ScanStep(info: seq<Info>, cursor: nat, num: nat, s: Scan, met: bool, wrapped: bool)
    requires Sized(info, cursor, num) && InBounds(info) && Running(info, s) && !Diverges(info, cursor, num)
    requires Scanning(info, cursor, num, s, met, wrapped)
    ensures var restarts := Restarts(info, num, s);
            var next := Iterate(info, cursor, num, s);
            && (restarts ==> !wrapped)
            && (next.NoSpace? ==> !WindowFree(info, cursor, num))
            && (next.Continue? ==>
                  && Scanning(info, cursor, num, next.s, met || Occupied(info, s.i), wrapped || restarts)
                  && (!restarts ==> s.i < next.s.i))
  {
    if Occupied(info, s.i) {
      HeadStep(info, cursor, num, s, met, wrapped);
    } else {
      FreeStep(info, cursor, num, s, met, wrapped);
    }
    hide Scanning, WindowFree, InBounds, Diverges;
  }

  lemma HeadStep(info: seq<Info>, cursor: nat, num: nat, s: Scan, met: bool, wrapped: bool)
    requires Sized(info, cursor, num) && InBounds(info) && Running(info, s) && !Diverges(info, cursor, num)
    requires Scanning(info, cursor, num, s, met, wrapped) && Occupied(info, s.i)
    ensures var restarts := Restarts(info, num, s);
            var next := Iterate(info, cursor, num, s);
            && (restarts ==> !wrapped)
            && !WindowFree(info, cursor, num)
            && (next.Continue? ==>
                  Scanning(info, cursor, num, next.s, true, wrapped || restarts) && (!restarts ==> s.i < next.s.i))
  {
    hide WillOverrun, Start, Add, Searching, WindowFree, Diverges;
    OverrunStays(info, num, s);
    if !met { HeadInWindow(info, cursor, num, s); }
    RestartOnce(info, cursor, num);
    AddBound(s.i + info[s.i].numBlks, num);
  }

  lemma FreeStep(info: seq<Info>, cursor: nat, num: nat, s: Scan, met: bool, wrapped: bool)
    requires Sized(info, cursor, num) && InBounds(info) && Running(info, s)
    requires Scanning(info, cursor, num, s, met, wrapped) && !Occupied(info, s.i)
    ensures var restarts := Restarts(info, num, s);
            var next := Iterate(info, cursor, num, s);
            && (restarts ==> !wrapped && next.NoSpace? && !WindowFree(info, cursor, num))
            && (next.NoSpace? ==> restarts)
            && (next.Continue? ==> Scanning(info, cursor, num, next.s, met, wrapped) && s.i < next.s.i)
  {
    hide WillOverrun, Start, Add, Searching, WindowFree, InBounds;
    OverrunStays(info, num, s);
    if !met {
      SearchStep(info, cursor, num, s);
      LongOnly(info, cursor, num, s);
    }
  }

  lemma ScanEnds(info: seq<Info>, cursor: nat, num: nat, s: Scan, met: bool, wrapped: bool)
    requires Sized(info, cursor, num) && Scanning(info, cursor, num, s, met, wrapped) && !Running(info, s)
    ensures s.avail >= num <==> WindowFree(info, cursor, num)
    ensures s.avail >= num ==> s.tmp == Place(info, cursor, num) && s.tmp + num <= |info|
  {
    hide WillOverrun, Start, Searching, WindowFree, Place;
    if !met {
      if s.avail < num { NotFound(info, cursor, num, s); } else { Found(info, cursor, num, s); }
    }
  }

  // --- the layout of the pool -------------------------------------------------------------------

  /** Where block h is, counted from the start of the pool, in 32-bit arithmetic; the block table is put
      where block n of an n-block pool would be. */
  function Offset(h: nat, blkSz: nat): nat { Wrap32(h * blkSz) }

  lemma Times(a: nat, b: nat, c: nat)
    requires a <= b
    ensures a * c <= b * c
  {
  }

  lemma OffsetIs(h: nat, n: nat, blkSz: nat)
    requires h <= n && n * blkSz < 0x1_0000_0000
    ensures Offset(h, blkSz) == h * blkSz
  {
    Times(h, n, blkSz);
  }

  /** Every block ends before the block table exactly if the pool is smaller than 4 GiB. */
  lemma PoolFitsIff(n: nat, blkSz: nat)
    requires 0 < blkSz < 0x1_0000_0000
    ensures (forall h | 0 <= h < n :: Offset(h, blkSz) + blkSz <= Offset(n, blkSz)) <==> n * blkSz < 0x1_0000_0000
  {
    if n * blkSz < 0x1_0000_0000 {
      forall h | 0 <= h < n ensures Offset(h, blkSz) + blkSz <= Offset(n, blkSz) {
        OffsetIs(h, n, blkSz);
        OffsetIs(n, n, blkSz);
        Times(h + 1, n, blkSz);
        assert (h + 1) * blkSz == h * blkSz + blkSz;
      }
    } else {
      var h := 0xFFFF_FFFF / blkSz;
      assert h * blkSz + 0xFFFF_FFFF % blkSz == 0xFFFF_FFFF;
      if n <= h { Times(n, h, blkSz); }
      assert Offset(h, blkSz) == h * blkSz;
      assert Offset(h, blkSz) + blkSz >= 0x1_0000_0000 > Offset(n, blkSz);
    }
  }

  class Pool {
    const mempool: nat
    const blkSz: nat
    const info: array<Info>
    var blkIdx: nat

    ghost predicate Valid()
      reads this, info
    {
      && 0 < mempool && 0 < blkSz && info.Length <= 0x7FFF_FFFF && info.Length * blkSz < 0x1_0000_0000
      && Sound(info[..], blkIdx)
      && (forall h | 0 <= h < info.Length && info[h].memptr != 0 :: info[h].memptr == mempool + h * blkSz)
    }

    ghost function View(): State
      reads this, info
    {
      State(info[..], blkIdx)
    }

    /** mempool_create, with the block table all free. */
    constructor (mempool: nat, entrySize: nat, maxEntries: nat)
      requires 0 < mempool && 0 < entrySize && maxEntries <= 0x7FFF_FFFF && maxEntries * entrySize < 0x1_0000_0000
      ensures Valid() && fresh(info) && blkIdx == 0 && info.Length == maxEntries
      ensures forall i | 0 <= i < info.Length :: info[i] == Info(0, 0)
    {
      this.mempool, this.blkSz := mempool, entrySize;
      this.info := new Info[maxEntries](_ => Info(0, 0));
      this.blkIdx := 0;
    }

    /** The scan of dma_memalloc: finds the window at the cursor (or at 0 when it would overrun) unless
        it holds a live chunk head. */
    method Search(num: nat) returns (found: bool, tmp: nat)
      requires Valid() && 0 < num < 0x1_0000_0000 && !Diverges(info[..], blkIdx, num)
      ensures found <==> WindowFree(info[..], blkIdx, num)
      ensures found ==> tmp == Place(info[..], blkIdx, num) && tmp + num <= info.Length
    {
      hide Diverges, Sound, Start, Add, WindowFree, Place, Scanning;
      var total := info.Length;
      ghost var table := info[..];
      SoundBounds(table, blkIdx);
      var maxBlk: nat, avail: nat := Add(blkIdx, num), 0;
      tmp := blkIdx;
      if maxBlk > total {
        tmp := 0;
        maxBlk := num;
      }
      StartIs(table, blkIdx, num);
      ScanStarts(table, blkIdx, num);
      var i: nat := tmp;
      ghost var met, wrapped := false, false;
      while i < total && i < maxBlk
        invariant Scanning(table, blkIdx, num, Scan(i, avail, maxBlk, tmp), met, wrapped)
        decreases !wrapped, total + 1 - i
      {
        ghost var s := Scan(i, avail, maxBlk, tmp);
        ScanStep(table, blkIdx, num, s, met, wrapped);
        met, wrapped := met || Occupied(table, i), wrapped || Restarts(table, num, s);
        if info[i].memptr != 0 {
          i := i + info[i].numBlks;
          maxBlk := Add(i, num);
          avail := 0;
          tmp := i;
        } else {
          avail := avail + 1;
        }
        if maxBlk > total {
          if num > blkIdx { return false, tmp; }
          i := 0;
          avail := 0;
          maxBlk := num;
          tmp := 0;
        }
        i := i + 1;
      }
      ScanEnds(table, blkIdx, num, Scan(i, avail, maxBlk, tmp), met, wrapped);
      found := avail >= num;
    }

    /** dma_memalloc. Succeeds exactly when the window at the cursor (or at 0 when it would overrun)
        holds no live chunk head; then the chunk is disjoint from every live one. */
    method Alloc(num: nat) returns (memptr: nat)
      requires Valid() && 0 < num < 0x1_0000_0000 && !Diverges(info[..], blkIdx, num)
      modifies this, info
      ensures Valid()
      ensures memptr != 0 <==> WindowFree(old(info[..]), old(blkIdx), num)
      ensures var ptr := mempool + Place(old(info[..]), old(blkIdx), num) * blkSz;
              View() == Do(old(View()), Take(num, ptr)) && (memptr != 0 ==> memptr == ptr)
      ensures var p := (if old(blkIdx) + num <= info.Length then old(blkIdx) else 0);
              && (memptr != 0 <==> p + num <= info.Length && forall i | p <= i < p + num :: old(info[i].memptr) == 0)
              && (memptr != 0 ==>
                    && memptr == mempool + p * blkSz && blkIdx == p + num
                    && info[..] == old(info[..])[p := Info(memptr, num)])
              && (memptr == 0 ==> blkIdx == old(blkIdx) && info[..] == old(info[..]))
      ensures memptr != 0 ==>
        var p := Place(old(info[..]), old(blkIdx), num);
        forall h, b | 0 <= h < info.Length && p <= b < p + num :: !Covers(old(info[..]), h, b)
    {
      hide Diverges, Sound, WindowFree, Place, Covers;
      WindowFreeIs(info[..], blkIdx, num);
      var found, tmp := Search(num);
      if !found { return 0; }
      WindowUncovered(info[..], blkIdx, num);
      memptr := Claim(tmp, num);
    }

    /** Enters the chunk in the table and moves the cursor behind it. */
    method Claim(tmp: nat, num: nat) returns (memptr: nat)
      requires Valid() && 0 < num && WindowFree(info[..], blkIdx, num)
      requires tmp == Place(info[..], blkIdx, num) && tmp + num <= info.Length
      modifies this, info
      ensures Valid() && memptr == mempool + tmp * blkSz
      ensures blkIdx == tmp + num && info[..] == old(info[..])[tmp := Info(memptr, num)]
    {
      hide Sound, WindowFree, Place, Wrap32;
      OffsetIs(tmp, info.Length, blkSz);
      memptr := mempool + Wrap32(tmp * blkSz);
      TakeKeeps(info[..], blkIdx, num, memptr);
      info[tmp] := Info(memptr, num);
      blkIdx := tmp + num;
      assert info[..] == old(info[..])[tmp := Info(memptr, num)];
    }

    /** dma_free of any address in the pool: it forgets a chunk that starts in that block, so freeing a
        live chunk removes that chunk and no other, and freeing it twice changes nothing more. */
    method Free(memptr: nat)
      requires Valid()
      requires memptr == 0 || (mempool <= memptr && (memptr - mempool) / blkSz < info.Length)
      modifies info
      ensures Valid() && blkIdx == old(blkIdx)
      ensures memptr == 0 ==> info[..] == old(info[..])
      ensures memptr != 0 ==> info[..] == old(info[..])[(memptr - mempool) / blkSz := Info(0, 0)]
      ensures forall h | 0 <= h < info.Length && memptr != 0 && old(info[h].memptr) == memptr ::
        View() == Do(old(View()), Give(h))
    {
      if memptr == 0 { return; }
      var idx := (memptr - mempool) / blkSz;
      ghost var table := info[..];
      DropKeeps(table, blkIdx, idx);
      forall h | 0 <= h < info.Length && table[h].memptr == memptr ensures h == idx { QuotientOf(h, blkSz); }
      hide Sound;
      info[idx] := Info(0, 0);
      assert info[..] == table[idx := Info(0, 0)];
    }
  }

  // --- runs ---------------------------------------------------------------------------------------

  ghost predicate IsRun(s: seq<State>, ops: seq<Op>) {
    && |s| == |ops| + 1
    && forall i | 0 <= i < |ops| :: Allowed(s[i], ops[i]) && s[i + 1] == Do(s[i], ops[i])
  }

  /** Over any run from an all-free table, no block belongs to two live chunks. */
  lemma {:induction false} NeverOverlaps(s: seq<State>, ops: seq<Op>, i: nat, h: nat, g: nat, b: nat)
    requires IsRun(s, ops) && i < |s|
    requires s[0].cursor == 0 && forall j | 0 <= j < |s[0].info| :: s[0].info[j] == Info(0, 0)
    requires h < |s[i].info| && g < |s[i].info| && Covers(s[i].info, h, b) && Covers(s[i].info, g, b)
    ensures h == g && b < |s[i].info|
  {
    RunIsSound(s, ops, i);
  }

  lemma {:induction false} RunIsSound(s: seq<State>, ops: seq<Op>, i: nat)
    requires IsRun(s, ops) && i < |s|
    requires s[0].cursor == 0 && forall j | 0 <= j < |s[0].info| :: s[0].info[j] == Info(0, 0)
    ensures Sound(s[i].info, s[i].cursor)
  {
    if i > 0 {
      RunIsSound(s, ops, i - 1);
      hide Sound, WindowFree;
      assert Allowed(s[i - 1], ops[i - 1]) && s[i] == Do(s[i - 1], ops[i - 1]);
      var t := s[i - 1];
      match ops[i - 1]
      case Take(num, ptr) => if WindowFree(t.info, t.cursor, num) { TakeKeeps(t.info, t.cursor, num, ptr); }
      case Give(h) => DropKeeps(t.info, t.cursor, h);
    }
  }

  /** One chunk of two blocks in the middle: both a scan from 0 and one from 1 meet it and run over the end. */
  lemma CirclingTable()
    ensures var free := Info(0, 0); Diverges([free, Info(2, 2), free, free], 3, 2)
  {
    var free := Info(0, 0);
    var t := [free, Info(2, 2), free, free];
    assert FirstHead(t, 1, 2) == 1;
    FirstHeadStep(t, 0, 2);
    assert Add(3, 2) == 5 && Overruns(t, 2, 3);
    assert Start(t, 3, 2) == Scan(0, 0, 2, 0);
    hide FirstHead, Overruns, Start;
  }

  lemma OneTaken()
    ensures var free := Info(0, 0);
            Allowed(State([free, free, free, free], 0), Take(1, 1))
            && Do(State([free, free, free, free], 0), Take(1, 1)) == State([Info(1, 1), free, free, free], 1)
  {
  }

  lemma TwoTaken()
    ensures var free := Info(0, 0);
            Allowed(State([Info(1, 1), free, free, free], 1), Take(2, 2))
            && Do(State([Info(1, 1), free, free, free], 1), Take(2, 2)) == State([Info(1, 1), Info(2, 2), free, free], 3)
  {
  }

  lemma OneGiven()
    ensures var free := Info(0, 0);
            Allowed(State([Info(1, 1), Info(2, 2), free, free], 3), Give(0))
            && Do(State([Info(1, 1), Info(2, 2), free, free], 3), Give(0)) == State([free, Info(2, 2), free, free], 3)
  {
  }

  /** Two blocks can be too much: in a pool of four, after taking one block, then two, and giving the
      first back, a request for two blocks never returns although the scan is allowed to restart. */
  lemma TwoBlocksCanCircle()
    ensures var free := Info(0, 0);
            var s := [State([free, free, free, free], 0),
                      State([Info(1, 1), free, free, free], 1),
                      State([Info(1, 1), Info(2, 2), free, free], 3),
                      State([free, Info(2, 2), free, free], 3)];
            && IsRun(s, [Take(1, 1), Take(2, 2), Give(0)])
            && Diverges(s[3].info, s[3].cursor, 2)
  {
    hide Diverges, Do;
    CirclingTable();
    OneTaken();
    TwoTaken();
    OneGiven();
  }
}
