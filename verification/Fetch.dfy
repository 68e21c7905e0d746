/** How the engine walks a descriptor list (PG195, "Descriptors"): it fetches a block of
    adjacent descriptors, executes them in order, and takes the address and size of the next
    block from the last one of the block, until a descriptor carries the STOPPED flag. */
module Fetch {
  import opened Arith
  import opened Descriptor

  /** xdma_get_next_adj: the adjacency hint for a block that starts at `nextLo`
      when `remaining` descriptors are left. Blocks are aligned to 64 descriptors. */
  function GetNextAdj(remaining: nat, nextLo: nat): (adj: nat)
    ensures adj < 64
  {
    if remaining <= 1 then 0
    else
      var nextIndex := (nextLo % 4096) / 32 % 64;
      Min(64 - nextIndex - 1, remaining - 1)
  }

  /** A ring of descriptors as the device sees it: its contents and its bus address. */
  datatype Ring = Ring(desc: seq<Desc>, base: nat)
  {
    predicate Valid() { base % 32 == 0 }
    function Addr(slot: nat): nat { base + 32 * slot }
    predicate Holds(addr: nat) {
      base <= addr && (addr - base) % 32 == 0 && (addr - base) / 32 < |desc|
    }
    function SlotOf(addr: nat): nat requires Holds(addr) { (addr - base) / 32 }
  }

  /** The fetch engine: at a descriptor with `left` more adjacent ones in the fetched block,
      done, or stopped by a fault (address outside the ring, wrong magic). */
  datatype State = At(addr: nat, left: nat) | Done | Fault

  predicate Executes(r: Ring, s: State) {
    s.At? && r.Holds(s.addr) && Magic(r.desc[r.SlotOf(s.addr)].control) == 0xAD4B
  }

  /** Whether the step that leaves `s` has to fetch a new block. */
  predicate Refetches(r: Ring, s: State) {
    Executes(r, s) && !Stopped(r.desc[r.SlotOf(s.addr)].control) && s.left == 0
  }

  function Step(r: Ring, s: State): State {
    if s.At? then
      if !Executes(r, s) then Fault
      else
        var d := r.desc[r.SlotOf(s.addr)];
        if Stopped(d.control) then Done
        else if s.left > 0 then At(s.addr + 32, s.left - 1)
        else At(d.Next(), Adjacent(d.control))
    else s
  }

  /** A device that ignores adjacency and follows every next pointer. */
  function LinkStep(r: Ring, s: State): State {
    var t := if s.At? then Step(r, s.(left := 0)) else s;
    if t.At? then t.(left := 0) else t
  }

  /** What `k` steps do: slots executed, blocks fetched, state reached. */
  datatype Trace = Trace(slots: seq<nat>, fetched: seq<State>, at: State)

  function Run(r: Ring, start: State, k: nat): Trace {
    if k == 0 then Trace([], [start], start)
    else
      var t := Run(r, start, k - 1);
      var next := Step(r, t.at);
      Trace(if Executes(r, t.at) then t.slots + [r.SlotOf(t.at.addr)] else t.slots,
            if Refetches(r, t.at) then t.fetched + [next] else t.fetched,
            next)
  }

  function LinkRun(r: Ring, start: State, k: nat): (seq<nat>, State) {
    if k == 0 then ([], start)
    else
      var (slots, at) := LinkRun(r, start, k - 1);
      (if Executes(r, at) then slots + [r.SlotOf(at.addr)] else slots, LinkStep(r, at))
  }

  /** Slots [p, p+n) hold one terminated chain with adjacency hints. */
  ghost predicate Chained(r: Ring, p: nat, n: nat) {
    && r.Valid() && 0 < n && p + n <= |r.desc|
    && forall i | 0 <= i < n :: LinkOk(r, p, n, i)
  }

  predicate LinkOk(r: Ring, p: nat, n: nat, i: nat)
    requires i < n && p + n <= |r.desc|
  {
    var d := r.desc[p + i];
    && Magic(d.control) == 0xAD4B
    && (Stopped(d.control) <==> i == n - 1)
    && Adjacent(d.control) == GetNextAdj(n - 1 - i, d.nextLo)
    && (i < n - 1 ==> d.nextLo == Lo(r.Addr(p + i + 1)) && d.nextHi == Hi(r.Addr(p + i + 1)))
  }

  /** engine_start's first_desc and first_desc_adjacent. */
  function Programmed(bus: nat, n: nat): State {
    At(bus, GetNextAdj(n, Lo(bus)))
  }

  // --- the walk ---------------------------------------------------------------

  function BlockIndex(addr: nat): nat { addr / 32 % 64 }

  /** How many adjacent descriptors are still in the block at position `i`. */
  function Left(r: Ring, p: nat, n: nat, i: nat): nat
    requires i < n
  {
    Min(63 - BlockIndex(r.Addr(p + i)), n - 1 - i)
  }

  /** The low word of an address is enough to find its place in the block. */
  lemma LowPage(a: nat)
    ensures Lo(a) % 4096 == a % 4096
  {
    assert a == 4096 * (0x10_0000 * (a / 0x1_0000_0000)) + Lo(a);
  }

  lemma IndexFromLow(a: nat)
    ensures Lo(a) % 4096 / 32 % 64 == BlockIndex(a)
  {
    LowPage(a);
    hide Lo;
    PageThenSlot(a);
  }

  lemma PageThenSlot(a: nat)
    ensures a % 4096 / 32 % 64 == a / 32 % 64
  {
    var t, u := a / 4096, a % 4096;
    assert a / 32 == 128 * t + u / 32;
    Mod64(t, u / 32);
  }

  lemma Mod64(t: nat, v: nat)
    ensures (128 * t + v) % 64 == v % 64
  {
  }

  lemma AdjIsLeft(r: Ring, p: nat, n: nat, i: nat)
    requires r.Valid() && i < n
    ensures GetNextAdj(n - i, Lo(r.Addr(p + i))) == Left(r, p, n, i)
  {
    hide Lo, BlockIndex;
    IndexFromLow(r.Addr(p + i));
    IndexBound(r.Addr(p + i));
  }

  lemma IndexBound(a: nat)
    ensures BlockIndex(a) < 64
  {
  }

  lemma SlotOfAddr(r: Ring, slot: nat)
    requires slot < |r.desc|
    ensures r.Holds(r.Addr(slot)) && r.SlotOf(r.Addr(slot)) == slot
  {
  }

  lemma NextBlockIndex(a: nat)
    ensures BlockIndex(a + 32) == (BlockIndex(a) + 1) % 64
  {
    assert (a + 32) / 32 == a / 32 + 1;
  }

  lemma StepAlong(r: Ring, p: nat, n: nat, i: nat)
    requires Chained(r, p, n) && i < n
    ensures var s := At(r.Addr(p + i), Left(r, p, n, i));
            && Executes(r, s) && r.SlotOf(s.addr) == p + i
            && Step(r, s) == (if i == n - 1 then Done else At(r.Addr(p + i + 1), Left(r, p, n, i + 1)))
            && Executes(r, At(s.addr, 0))
            && LinkStep(r, At(s.addr, 0)) == (if i == n - 1 then Done else At(r.Addr(p + i + 1), 0))
            && (Refetches(r, s) <==> i < n - 1 && BlockIndex(s.addr) == 63)
  {
    hide Magic, Adjacent, Stopped, Lo, Hi, Join, BlockIndex, GetNextAdj, Ring.Holds, Ring.SlotOf;
    SlotOfAddr(r, p + i);
    assert LinkOk(r, p, n, i);
    if i < n - 1 {
      var a := r.Addr(p + i);
      NextBlockIndex(a);
      AdjIsLeft(r, p, n, i + 1);
      JoinSplit(r.Addr(p + i + 1));
    }
  }

  function Slots(p: nat, k: nat): seq<nat> { seq(k, i requires 0 <= i < k => p + i) }

  /** Every prefix of the walk: descriptors in order, one each. */
  lemma {:induction false} WalkPrefix(r: Ring, p: nat, n: nat, k: nat)
    requires Chained(r, p, n) && k <= n
    ensures var t := Run(r, Programmed(r.Addr(p), n), k);
            && t.slots == Slots(p, k)
            && t.at == (if k == n then Done else At(r.Addr(p + k), Left(r, p, n, k)))
  {
    hide Step, LinkStep, Executes, Refetches, LinkOk, Left, BlockIndex, GetNextAdj, Lo;
    if k > 0 {
      WalkPrefix(r, p, n, k - 1);
      StepAlong(r, p, n, k - 1);
      assert Slots(p, k) == Slots(p, k - 1) + [p + k - 1];
    } else {
      AdjIsLeft(r, p, n, 0);
    }
  }

  /** How many blocks the first k steps fetch. */
  lemma {:induction false} FetchCount(r: Ring, p: nat, n: nat, k: nat)
    requires Chained(r, p, n) && k <= n
    ensures |Run(r, Programmed(r.Addr(p), n), k).fetched|
         == 1 + (BlockIndex(r.Addr(p)) + Min(k, n - 1)) / 64
  {
    hide Step, LinkStep, Executes, Refetches, LinkOk, Left, BlockIndex, GetNextAdj, Lo;
    var s := BlockIndex(r.Addr(p));
    if k > 0 {
      FetchCount(r, p, n, k - 1);
      WalkPrefix(r, p, n, k - 1);
      StepAlong(r, p, n, k - 1);
      BlockIndexAt(r, p, k - 1);
      CarryAt(s, k - 1);
    } else {
      IndexBound(r.Addr(p));
      assert s / 64 == 0;
    }
  }

  /** No block fetched along the way leaves its 2 KiB frame. */
  lemma {:induction false} FetchFrames(r: Ring, p: nat, n: nat, k: nat)
    requires Chained(r, p, n) && k <= n
    ensures forall f | f in Run(r, Programmed(r.Addr(p), n), k).fetched :: InFrame(f)
  {
    hide Step, LinkStep, Executes, Refetches, LinkOk, Left, BlockIndex, GetNextAdj, Lo, InFrame;
    if k > 0 {
      FetchFrames(r, p, n, k - 1);
      WalkPrefix(r, p, n, k - 1);
      StepAlong(r, p, n, k - 1);
      if k < n { FrameOfLeft(r, p, n, k); }
    } else {
      AdjIsLeft(r, p, n, 0);
      FrameOfLeft(r, p, n, 0);
    }
  }

  lemma CarryAt(s: nat, i: nat)
    ensures (s + i + 1) / 64
         == (s + i) / 64 + (if (s + i) % 64 == 63 then 1 else 0)
  {
  }

  lemma BlockIndexAt(r: Ring, p: nat, i: nat)
    requires r.Valid()
    ensures BlockIndex(r.Addr(p + i)) == (BlockIndex(r.Addr(p)) + i) % 64
  {
    assert r.Addr(p + i) / 32 == r.Addr(p) / 32 + i;
  }

  /** A fetched block stays inside one 64-descriptor (2 KiB) frame. */
  predicate InFrame(f: State) {
    f.At? && f.addr / 2048 == (f.addr + 32 * (f.left + 1) - 1) / 2048
  }

  lemma FrameOfLeft(r: Ring, p: nat, n: nat, i: nat)
    requires r.Valid() && i < n
    ensures InFrame(At(r.Addr(p + i), Left(r, p, n, i)))
  {
    hide BlockIndex, InFrame;
    var k := r.base / 32 + (p + i);
    AddrIs(r, p + i);
    IndexBound(32 * k);
    FrameAt(k, Left(r, p, n, i));
  }

  lemma AddrIs(r: Ring, slot: nat)
    requires r.Valid()
    ensures r.Addr(slot) == 32 * (r.base / 32 + slot)
  {
  }

  lemma FrameAt(k: nat, left: nat)
    requires BlockIndex(32 * k) + left <= 63
    ensures InFrame(At(32 * k, left))
  {
    DivUnique(32 * k, 32, k, 0);
    var q, j := k / 64, k % 64;
    DivUnique(32 * k, 2048, q, 32 * j);
    DivUnique(32 * k + 32 * (left + 1) - 1, 2048, q, 32 * j + 32 * (left + 1) - 1);
  }

  /** Once stopped the engine stays stopped: running longer adds nothing. */
  lemma {:induction false} WalkEnds(r: Ring, p: nat, n: nat, k: nat)
    requires Chained(r, p, n) && n <= k
    ensures Run(r, Programmed(r.Addr(p), n), k) == Run(r, Programmed(r.Addr(p), n), n)
    ensures Run(r, Programmed(r.Addr(p), n), n).at == Done
  {
    hide LinkOk, Left, BlockIndex, GetNextAdj, Lo;
    WalkPrefix(r, p, n, n);
    if k > n { WalkEnds(r, p, n, k - 1); }
  }

  lemma {:induction false} LinkWalk(r: Ring, p: nat, n: nat, k: nat)
    requires Chained(r, p, n)
    ensures var (slots, at) := LinkRun(r, At(r.Addr(p), 0), k);
            slots == Slots(p, Min(k, n)) && at == (if k >= n then Done else At(r.Addr(p + k), 0))
  {
    hide Step, LinkStep, Executes, Refetches, LinkOk, Left, BlockIndex, GetNextAdj, Lo;
    if k > 0 {
      LinkWalk(r, p, n, k - 1);
      if k <= n {
        StepAlong(r, p, n, k - 1);
        assert Slots(p, k) == Slots(p, k - 1) + [p + k - 1];
      } else {
        DoneStays(r);
      }
    }
  }

  lemma DoneStays(r: Ring)
    ensures !Executes(r, Done) && LinkStep(r, Done) == Done
  {
  }

  /** Block fetching refines the linked list: for any number of steps both devices execute the
      same descriptors, 0..n-1 once each, and halt at the only STOPPED one; the number of
      fetches is ceil((s mod 64 + n) / 64) for first slot address s. */
  lemma BlockFetchRefinesList(r: Ring, p: nat, n: nat, k: nat)
    requires Chained(r, p, n)
    ensures var t := Run(r, Programmed(r.Addr(p), n), k);
            var (slots, at) := LinkRun(r, At(r.Addr(p), 0), k);
            && t.slots == slots == Slots(p, Min(k, n))
            && (t.at == Done <==> k >= n) && (at == Done <==> k >= n)
            && t.at != Fault && at != Fault
            && (forall f | f in t.fetched :: InFrame(f))
            && (k >= n ==> |t.fetched| == (BlockIndex(r.Addr(p)) + n + 63) / 64)
  {
    hide Step, LinkStep, Executes, Refetches, LinkOk, Left, BlockIndex, GetNextAdj, Lo, InFrame;
    LinkWalk(r, p, n, k);
    WalkPrefix(r, p, n, Min(k, n));
    FetchCount(r, p, n, Min(k, n));
    FetchFrames(r, p, n, Min(k, n));
    if k >= n { WalkEnds(r, p, n, k); }
  }
}
