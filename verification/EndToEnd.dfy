/** From a user buffer to device memory and back: pinning and cutting the buffer, the software
    descriptors, the submit loop and the device put together (char_sgdma_read_write). */
module EndToEnd {
  import opened Arith
  import opened Descriptor
  import opened Masks
  import opened Scatter
  import opened UserBuffer
  import opened Memory
  import opened EngineModel
  import opened EngineDriver
  import opened Submit
  import opened Rounds
  import opened SubmitLoop
  import opened SubmitDriver

  lemma {:induction false} SegmentLen(segs: seq<Seg>, i: nat)
    requires i < |segs|
    ensures segs[i].len <= |Flatten(segs)|
  {
    if i > 0 { SegmentLen(segs[1..], i - 1); }
  }

  /** The segments of a buffer below 4 GiB never make xdma_init_request run out of room. */
  lemma PagesFit(segs: seq<Seg>, pages: seq<nat>, len: nat, blen: nat)
    requires 0 < blen < 0x1000_0000 && |Flatten(segs)| == len < 0x1_0000_0000 && |segs| == |pages|
    requires 0 < len ==> forall i | 0 <= i < |segs| :: InOnePage(segs[i], pages[i])
    ensures forall i | 0 <= i < |segs| :: segs[i].len < 0x1_0000_0000
    ensures Lacking(segs, blen) == 0
  {
    hide Flatten;
    forall i | 0 <= i < |segs| ensures segs[i].len < 0x1_0000_0000 && !Wraps(segs[i].len, blen) {
      SegmentLen(segs, i);
    }
    NothingLacks(segs, blen);
  }

  /** The first `moved` bytes of the buffer are in device memory from `ep` on; nothing else changed. */
  ghost predicate Delivered(bytes: seq<nat>, moved: nat, ep: nat, moves: seq<Move>, host: Mem, device: Mem)
    requires moved <= |bytes|
  {
    forall a: nat :: Perform(moves, host, device)(a) == if ep <= a < ep + moved then host(bytes[a - ep]) else device(a)
  }

  /** The first `moved` bytes of the buffer hold the device's bytes from `ep` on (the last one, should two
      of them share a place in host memory). */
  ghost predicate Received(bytes: seq<nat>, moved: nat, ep: nat, moves: seq<Move>, host: Mem, device: Mem)
    requires moved <= |bytes|
  {
    forall k | 0 <= k < moved :: bytes[k] !in bytes[k + 1..moved] ==> Perform(moves, device, host)(bytes[k]) == device(ep + k)
  }

  lemma PrefixDelivered(bytes: seq<nat>, moved: nat, ep: nat, host: Mem, device: Mem)
    requires moved <= |bytes|
    ensures Delivered(bytes, moved, ep, LinearCopy(bytes, ep, Mode(ToDevice, false))[..moved], host, device)
  {
    var m := Mode(ToDevice, false);
    assert LinearCopy(bytes, ep, m)[..moved] == LinearCopy(bytes[..moved], ep, m);
    hide LinearCopy, Perform;
    forall a: nat
      ensures Perform(LinearCopy(bytes[..moved], ep, m), host, device)(a)
           == if ep <= a < ep + moved then host(bytes[a - ep]) else device(a)
    {
      CopyReachesDevice(bytes[..moved], ep, host, device, a);
    }
  }

  lemma PrefixReceived(bytes: seq<nat>, moved: nat, ep: nat, host: Mem, device: Mem)
    requires moved <= |bytes|
    ensures Received(bytes, moved, ep, LinearCopy(bytes, ep, Mode(FromDevice, false))[..moved], host, device)
  {
    var m := Mode(FromDevice, false);
    assert LinearCopy(bytes, ep, m)[..moved] == LinearCopy(bytes[..moved], ep, m);
    hide LinearCopy, Perform;
    forall k | 0 <= k < moved && bytes[k] !in bytes[k + 1..moved]
      ensures Perform(LinearCopy(bytes[..moved], ep, m), device, host)(bytes[k]) == device(ep + k)
    {
      forall i | k < i < moved ensures bytes[..moved][i] != bytes[..moved][k] {
        assert bytes[k + 1..moved][i - k - 1] == bytes[i];
      }
      CopyReachesHost(bytes[..moved], ep, host, device, k);
    }
  }

  /** The moves of a call: byte by byte in order, at consecutive device addresses or always the same one; and
      what they did to memory, for an engine in incrementing address mode. */
  ghost predicate Transferred(mode: Mode, bytes: seq<nat>, moved: nat, ep: nat, moves: seq<Move>, host: Mem, device: Mem) {
    && moved == |moves| <= |bytes|
    && (forall k | 0 <= k < moved ::
          var dev := if mode.nonIncr then ep else ep + k;
          moves[k] == if mode.dir.ToDevice? then Move(bytes[k], dev) else Move(dev, bytes[k]))
    && (mode == Mode(ToDevice, false) ==> Delivered(bytes, moved, ep, moves, host, device))
    && (mode == Mode(FromDevice, false) ==> Received(bytes, moved, ep, moves, host, device))
  }

  lemma MovedIsTransferred(c: Conf, sdesc: seq<Seg>, bytes: seq<nat>, from: nat, g0: Stage, e: Eng,
                           moved: nat, host: Mem, device: Mem)
    requires Moved(c, sdesc, from, g0, e, moved) && Flatten(sdesc) == bytes
    ensures TotalLen(sdesc[..from]) <= moved <= |bytes| && g0.e.hw.log <= e.hw.log
    ensures Transferred(c.mode, bytes, moved, g0.ep, e.hw.log[|g0.e.hw.log|..], host, device)
  {
    hide LinearCopy, Flatten, TotalLen, Delivered, Received;
    assert sdesc[0..|sdesc|] == sdesc;
    var copy := LinearCopy(bytes, g0.ep, c.mode);
    assert e.hw.log[|g0.e.hw.log|..] == copy[..moved];
    forall k | 0 <= k < moved
      ensures var dev := if c.mode.nonIncr then g0.ep else g0.ep + k;
              copy[..moved][k] == if c.mode.dir.ToDevice? then Move(bytes[k], dev) else Move(dev, bytes[k])
    {
      CopyAt(bytes, g0.ep, c.mode, k);
    }
    PrefixDelivered(bytes, moved, g0.ep, host, device);
    PrefixReceived(bytes, moved, g0.ep, host, device);
  }

  // --- alignment --------------------------------------------------------------------------------------

  /** The alignment an engine asks for, in bytes: of addresses, and of lengths in non-incrementing mode. */
  datatype Alignment = Alignment(addr: nat, len: nat)
  {
    predicate Valid() { 0 < addr && 0 < len }
  }

  /** check_transfer_align for a synchronous transfer. */
  predicate Aligned(al: Alignment, nonIncr: bool, buf: nat, len: nat, pos: nat)
    requires al.Valid()
  {
    if nonIncr then And(buf, al.addr - 1) == 0 && And(pos, al.addr - 1) == 0 && And(len, al.len - 1) == 0
    else And(buf, al.addr - 1) == And(pos, al.addr - 1)
  }

  lemma PageOffset(page: nat, x: nat, d: nat, n: nat)
    requires 0 < d && d * n == 4096
    ensures Residue(page * 4096 + x % 4096, d) == Residue(x, d)
  {
    var low := x % 4096;
    AddMultiple(page, low, d, n);
    AddMultiple(x / 4096, low, d, n);
  }

  lemma AddMultiple(k: nat, low: nat, d: nat, n: nat)
    requires 0 < d && d * n == 4096
    ensures Residue(k * 4096 + low, d) == Residue(low, d)
  {
    var q, r := low / d, low % d;
    Distribute(k * n, q, d);
    assert k * n * d == k * 4096;
    DivUnique(k * 4096 + low, d, k * n + q, r);
  }

  /** Every byte of the buffer has a host and a device address with the same remainder. */
  ghost predicate Congruent(buf: nat, pages: seq<nat>, len: nat, pos: nat, d: nat)
    requires 0 < d && (len > 0 ==> (buf % 4096 + len - 1) / 4096 < |pages|)
  {
    forall i | 0 <= i < len :: Residue(Phys(buf, pages, len)[i], d) == Residue(pos + i, d)
  }

  lemma ByteRest(buf: nat, pages: seq<nat>, len: nat, k: nat, i: nat)
    requires k <= 12 && i < len && (buf % 4096 + len - 1) / 4096 < |pages|
    ensures Residue(Phys(buf, pages, len)[i], Pow2(k)) == Residue(buf + i, Pow2(k))
  {
    hide Residue, Pow2;
    Pow2Page(k);
    PageOffset(pages[(buf % 4096 + i) / 4096], buf + i, Pow2(k), Pow2(12 - k));
  }

  lemma {:induction false} CongruentIff(buf: nat, pages: seq<nat>, len: nat, pos: nat, k: nat)
    requires k <= 12 && 0 < len && (buf % 4096 + len - 1) / 4096 < |pages|
    ensures Congruent(buf, pages, len, pos, Pow2(k)) <==> Residue(buf, Pow2(k)) == Residue(pos, Pow2(k))
  {
    hide Residue, Pow2, Phys;
    var d := Pow2(k);
    if Residue(buf, d) == Residue(pos, d) {
      forall i | 0 <= i < len ensures Residue(Phys(buf, pages, len)[i], d) == Residue(pos + i, d) {
        ByteRest(buf, pages, len, k, i);
        SameRest(buf, pos, i, d);
      }
    } else {
      ByteRest(buf, pages, len, k, 0);
      assert buf + 0 == buf && pos + 0 == pos;
      assert Residue(Phys(buf, pages, len)[0], d) != Residue(pos + 0, d);
    }
  }

  /** In incrementing mode the check, made on the start of the buffer alone, is about every byte: for an
      alignment of 2^k up to a page, all bytes have a host and a device address with the same remainder if
      and only if the request passes. */
  lemma AlignedIff(al: Alignment, k: nat, buf: nat, pages: seq<nat>, len: nat, pos: nat)
    requires k <= 12 && al.Valid() && al.addr == Pow2(k)
    requires 0 < len && (buf % 4096 + len - 1) / 4096 < |pages|
    ensures Aligned(al, false, buf, len, pos) <==> Congruent(buf, pages, len, pos, al.addr)
  {
    hide Residue, Pow2, And, Congruent;
    MaskIsMod(buf, k);
    MaskIsMod(pos, k);
    CongruentIff(buf, pages, len, pos, k);
  }

  /** A power of two, as the alignments of an engine are. */
  ghost predicate IsPow2(n: nat) { exists k: nat :: n == Pow2(k) }

  /** The masks of the check are remainders: in non-incrementing mode buffer address, device address and length
      must be multiples of the alignments, in incrementing mode the two addresses have the same remainder. */
  lemma AlignedRest(al: Alignment, nonIncr: bool, buf: nat, len: nat, pos: nat)
    requires al.Valid() && IsPow2(al.addr) && IsPow2(al.len)
    ensures Aligned(al, nonIncr, buf, len, pos) <==>
      if nonIncr then buf % al.addr == 0 && pos % al.addr == 0 && len % al.len == 0
      else buf % al.addr == pos % al.addr
  {
    hide Pow2, And;
    var k: nat :| al.addr == Pow2(k);
    var j: nat :| al.len == Pow2(j);
    MaskIsMod(buf, k);
    MaskIsMod(pos, k);
    MaskIsMod(len, j);
  }

  lemma Pow2Page(k: nat)
    requires k <= 12
    ensures Pow2(k) * Pow2(12 - k) == 4096
  {
    PowSplit(k, 12 - k);
    PowSplit(6, 6);
    assert Pow2(6) == 64;
  }

  lemma SameRest(a: nat, b: nat, i: nat, d: nat)
    requires 0 < d && Residue(a, d) == Residue(b, d)
    ensures Residue(a + i, d) == Residue(b + i, d)
  {
    ModPlus(a, i, d);
    ModPlus(b, i, d);
  }

  // --- the call ------------------------------------------------------------------------------------------

  lemma PageFacts(buf: nat, len: nat, pages: seq<nat>)
    requires |pages| == PagesNr(buf, len) && len < 0x1_0000_0000
    ensures |pages| == CeilDiv(buf % 4096 + len, 4096)
    ensures len > 0 ==> (buf % 4096 + len - 1) / 4096 < |pages|
  {
    PageCount(buf, len);
  }

  /** What the caller of read or write is told: EINVAL, a failed mapping, or the answer of the submit. */
  datatype Reply = BadRequest | Unmapped(status: MapStatus) | Answer(outcome: Outcome)

  ghost predicate Mappable(buf: nat, len: nat, pinned: int, pages: seq<nat>) {
    PagesNr(buf, len) == pinned && pinned != 0 && !AdjacentDuplicate(pages) && len < 0x1_0000_0000
  }

  /** What ReadWrite needs of the promises of the submit loop. */
  lemma Promised(c: Conf, id: Id, sdesc: seq<Seg>, sched: nat -> Turn, t: seq<Stage>, built: nat, e1: Eng, rv: Rv, moved: nat)
    requires t != [] && Promises(c, id, sdesc, sched, t, built, e1, rv, moved)
    ensures !t[0].e.request && AllAttended(sched, |sdesc|) ==> rv == Ok
    ensures AllTruthful(sched) ==> Moved(c, sdesc, t[|t| - 1].from, t[0], e1, moved)
  {
    hide AllAttended, AllTruthful, RequestAfter, Settled, Leaves, Moved;
  }

  /** One read or write of a user buffer, for any result of pinning and any schedule of the rest of the
      system; `offline` is the device flag as it is seen on entry of the submit. A request is refused, and
      the engine untouched, exactly if it has the wrong direction or alignment, cannot be mapped, or finds
      the device offline. Otherwise the count is never more than what was moved, and on success the length
      of the buffer. If the device reports truthfully, exactly the first `moved` bytes of the buffer, among
      them every counted one, were exchanged with consecutive device addresses from `epAddr` on. */
  method ReadWrite(e: Engine, id: Id, dir: Dir, al: Alignment, buf: nat, len: nat, pinned: int, pages: seq<nat>,
                   epAddr: nat, blen: nat, offline: bool, sched: nat -> Turn, ghost host: Mem, ghost device: Mem)
    returns (reply: Reply, rv: Rv, done: nat, sdescs: nat, ghost moved: nat)
    requires Idle(e.conf, e.View()) && AllValid(sched) && 0 < blen < 0x1000_0000 && al.Valid()
    requires buf + len + 4096 <= 0x1_0000_0000 * 0x1_0000_0000 && |pages| == PagesNr(buf, len)
    modifies e, e.desc
    ensures reply.BadRequest? <==> dir != e.conf.mode.dir || !Aligned(al, e.conf.mode.nonIncr, buf, len, epAddr)
    ensures IsPow2(al.addr) && IsPow2(al.len) ==>
      (reply.BadRequest? <==>
         dir != e.conf.mode.dir
         || !(if e.conf.mode.nonIncr then buf % al.addr == 0 && epAddr % al.addr == 0 && len % al.len == 0
              else buf % al.addr == epAddr % al.addr))
    ensures reply.Unmapped? <==> !reply.BadRequest? && !Mappable(buf, len, pinned, pages)
    ensures reply.Answer? && offline ==> reply.outcome == Refused(Refusal.Offline)
    ensures !reply.Answer? || offline ==> e.View() == old(e.View())
    ensures reply.Answer? && !offline ==>
      && reply.outcome == (if done != 0 || rv == Ok then Count(done) else Error(rv))
      && (len > 0 ==> (buf % 4096 + len - 1) / 4096 < |pages|)
      && (rv == Ok ==> done == len)
      && (!old(e.shutdownRequest) && AllAttended(sched, sdescs) ==> rv == Ok)
      && (AllTruthful(sched) ==>
            && done <= moved <= len && (rv == Ok ==> moved == len)
            && old(e.hw.log) <= e.hw.log
            && Transferred(e.conf.mode, Phys(buf, pages, len), moved, epAddr, e.hw.log[|old(e.hw.log)|..], host, device))
  {
    hide Idle, AllValid, AllTruthful, AllAttended, Flatten, Phys, PagesNr, AdjacentDuplicate, TotalLen, Aligned, IsPow2;
    hide Stops, Promises, Moved, Transferred, Spare;
    ghost var g0 := Stage(e.View(), 0, epAddr);
    rv, done, sdescs, moved := IoError, 0, 0, 0;
    if IsPow2(al.addr) && IsPow2(al.len) { AlignedRest(al, e.conf.mode.nonIncr, buf, len, epAddr); }
    if dir != e.conf.mode.dir || !Aligned(al, e.conf.mode.nonIncr, buf, len, epAddr) {
      return BadRequest, rv, done, sdescs, moved;
    }
    var status, sgl := MapUserBuf(buf, len, pinned, pages);
    if status != Mapped { return Unmapped(status), rv, done, sdescs, moved; }
    PageFacts(buf, len, pages);
    PagesFit(sgl[..], pages, len, blen);
    var outcome, sdesc;
    ghost var built, t;
    outcome, rv, done, sdesc, built, moved, t := XferSubmit(e, sgl[..], dir, offline, epAddr, blen, id, sched);
    reply := Answer(outcome);
    sdescs := |sdesc|;
    if !offline {
      FlattenLen(sdesc);
      assert sdesc[..|sdesc|] == sdesc;
      Promised(e.conf, id, sdesc, sched, t, built, e.View(), rv, moved);
      if AllTruthful(sched) {
        MovedIsTransferred(e.conf, sdesc, Phys(buf, pages, len), t[|t| - 1].from, g0, e.View(), moved, host, device);
      }
    }
  }
}
