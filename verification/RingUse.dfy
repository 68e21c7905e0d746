/** Several outstanding transfers on one descriptor ring. transfer_init only counts the descriptors
    in use (desc_used); this is when that count keeps outstanding transfers apart. */
module RingUse {
  import opened Arith
  import opened Scatter
  import opened Compile

  /** Ring size, cursor, desc_used, and the slices of the transfers not yet retired, oldest first. */
  datatype Use = Use(size: nat, cursor: nat, used: int, slices: seq<Slice>)

  /** The ring slot of a position counted without wrapping. */
  function Slot(pos: nat, size: nat): nat
    requires 0 < size
  {
    pos % size
  }

  datatype Op = Take(rem: nat) | Retire

  /** transfer_init takes a slice at the cursor for (part of) a request; the oldest is retired. */
  function Apply(u: Use, op: Op): Use
    requires u.cursor < u.size
  {
    match op
    case Take(rem) =>
      if rem == 0 then u
      else
        SliceCursor(u.cursor, rem, u.size);
        var n := SliceLen(u.cursor, rem, u.size);
        u.(cursor := Slot(u.cursor + n, u.size), used := u.used + n, slices := u.slices + [Slice(u.cursor, n)])
    case Retire =>
      if u.slices == [] then u
      else u.(used := u.used - u.slices[0].len, slices := u.slices[1..])
  }

  /** A taken slice starts at the cursor and takes what is wanted, up to the end of the ring; it is accounted
      for, and the oldest one is given back first. */
  lemma ApplyIs(u: Use, rem: nat)
    requires u.cursor < u.size
    ensures 0 < rem ==>
      var n := (if rem < u.size - u.cursor then rem else u.size - u.cursor);
      Apply(u, Take(rem)) == Use(u.size, if u.cursor + n == u.size then 0 else u.cursor + n, u.used + n,
                                 u.slices + [Slice(u.cursor, n)])
    ensures Apply(u, Take(0)) == u
    ensures u.slices != [] ==>
      Apply(u, Retire) == Use(u.size, u.cursor, u.used - u.slices[0].len, u.slices[1..])
  {
    if 0 < rem {
      SliceCursor(u.cursor, rem, u.size);
    }
  }

  /** The slices follow each other around the ring and end at the cursor; desc_used counts them. */
  ghost predicate Consecutive(u: Use) {
    && u.cursor < u.size && u.used == SliceSum(u.slices, |u.slices|)
    && (forall i | 0 <= i < |u.slices| :: 0 < u.slices[i].len && u.slices[i].start + u.slices[i].len <= u.size)
    && (forall i | 0 <= i < |u.slices| :: u.slices[i].start == Slot(First(u) + SliceSum(u.slices, i), u.size))
    && u.cursor == Slot(First(u) + SliceSum(u.slices, |u.slices|), u.size)
  }

  function First(u: Use): nat { if u.slices == [] then u.cursor else u.slices[0].start }

  predicate Overlap(s: Slice, t: Slice) { s.start < t.start + t.len && t.start < s.start + s.len }

  ghost predicate Apart(s: seq<Slice>) {
    forall i, j | 0 <= i < j < |s| :: !Overlap(s[i], s[j])
  }

  lemma {:induction false} SumPrefix(s: seq<Slice>, t: seq<Slice>, k: nat)
    requires k <= |s|
    ensures SliceSum(s + t, k) == SliceSum(s, k)
  {
    if k > 0 { SumPrefix(s, t, k - 1); }
  }

  lemma {:induction false} SumMonotone(s: seq<Slice>, i: nat, j: nat)
    requires i <= j <= |s|
    ensures SliceSum(s, i) <= SliceSum(s, j)
  {
    if i < j { SumMonotone(s, i, j - 1); }
  }

  // --- residues ----------------------------------------------------------------------------

  lemma ModAdd(a: nat, b: nat, d: nat)
    requires 0 < d
    ensures Slot(Slot(a, d) + b, d) == Slot(a + b, d)
  {
    ModPlus(a, b, d);
  }

  lemma ModDistinct(a: nat, b: nat, d: nat)
    requires a < b < a + d
    ensures Slot(a, d) != Slot(b, d)
  {
    var r := a % d;
    assert a == a / d * d + r;
    if b == a / d * d + (r + (b - a)) && r + (b - a) < d {
      DivUnique(b, d, a / d, r + (b - a));
    } else {
      assert b == (a / d + 1) * d + (r + (b - a) - d) by { assert (a / d + 1) * d == a / d * d + d; }
      DivUnique(b, d, a / d + 1, r + (b - a) - d);
    }
  }

  lemma ModSmall(a: nat, d: nat)
    requires a < d
    ensures Slot(a, d) == a
  {
  }

  lemma ModShift(a: nat, d: nat)
    requires 0 < d
    ensures Slot(a + d, d) == Slot(a, d)
  {
    assert a + d == (a / d + 1) * d + a % d by { assert (a / d + 1) * d == a / d * d + d; }
    DivUnique(a + d, d, a / d + 1, a % d);
  }

  // --- the invariant --------------------------------------------------------------------------

  lemma TakeKeeps(u: Use, rem: nat)
    requires Consecutive(u) && 0 < rem
    ensures Consecutive(Apply(u, Take(rem)))
  {
    hide SliceLen, Slot, SliceSum;
    SliceFits(u.cursor, rem, u.size);
    AppendKeeps(u, SliceLen(u.cursor, rem, u.size));
  }

  lemma SliceFits(p: nat, rem: nat, d: nat)
    requires p < d && 0 < rem
    ensures 0 < SliceLen(p, rem, d) && p + SliceLen(p, rem, d) <= d
  {
    SliceCursor(p, rem, d);
  }

  lemma AppendKeeps(u: Use, n: nat)
    requires Consecutive(u) && 0 < n && u.cursor + n <= u.size
    ensures Consecutive(u.(cursor := Slot(u.cursor + n, u.size), used := u.used + n,
                           slices := u.slices + [Slice(u.cursor, n)]))
  {
    hide Slot, SliceSum;
    var k := |u.slices|;
    var slices := u.slices + [Slice(u.cursor, n)];
    forall i | 0 <= i <= k ensures SliceSum(slices, i) == SliceSum(u.slices, i) { SumPrefix(u.slices, [Slice(u.cursor, n)], i); }
    LastSum(slices);
    NoSum(u.slices);
    ModSmall(u.cursor, u.size);
    ModAdd(First(u) + SliceSum(u.slices, k), n, u.size);
    SlotBound(u.cursor + n, u.size);
  }

  lemma SlotBound(pos: nat, size: nat)
    requires 0 < size
    ensures Slot(pos, size) < size
  {
  }

  lemma RetireKeeps(u: Use)
    requires Consecutive(u) && u.slices != []
    ensures Consecutive(Apply(u, Retire))
  {
    hide SliceSum, Slot;
    var v := Apply(u, Retire);
    var l := u.slices[0].len;
    var b := u.slices[0].start + l;
    NoSum(u.slices);
    NoSum(v.slices);
    forall i | 0 <= i <= |v.slices|
      ensures SliceSum(u.slices, i + 1) == l + SliceSum(v.slices, i)
      ensures Slot(Slot(b, u.size) + SliceSum(v.slices, i), u.size) == Slot(First(u) + SliceSum(u.slices, i + 1), u.size)
    {
      SliceSumTail(u.slices, i);
      ModAdd(b, SliceSum(v.slices, i), u.size);
    }
    assert First(v) == Slot(b, u.size) by {
      assert SliceSum(u.slices, 1) == l + SliceSum(v.slices, 0);
    }
    assert |u.slices| == |v.slices| + 1;
  }

  lemma LastSum(s: seq<Slice>)
    requires s != []
    ensures SliceSum(s, |s|) == SliceSum(s, |s| - 1) + s[|s| - 1].len && SliceSum(s, 0) == 0
  {
  }

  lemma NoSum(s: seq<Slice>)
    ensures SliceSum(s, 0) == 0
  {
  }

  function Run(u: Use, ops: seq<Op>): Use
    requires Consecutive(u)
    decreases |ops|
  {
    if ops == [] then u
    else
      StepKeeps(u, ops[0]);
      Run(Apply(u, ops[0]), ops[1..])
  }

  lemma StepKeeps(u: Use, op: Op)
    requires Consecutive(u)
    ensures Consecutive(Apply(u, op))
  {
    hide Consecutive;
    match op
    case Take(rem) => if 0 < rem { TakeKeeps(u, rem); }
    case Retire => if u.slices != [] { RetireKeeps(u); }
  }

  lemma {:induction false} RunKeeps(u: Use, ops: seq<Op>)
    requires Consecutive(u)
    ensures Consecutive(Run(u, ops))
    decreases |ops|
  {
    hide Apply, SliceSum, First;
    if ops != [] {
      StepKeeps(u, ops[0]);
      RunKeeps(Apply(u, ops[0]), ops[1..]);
    }
  }

  // --- when slices overlap ----------------------------------------------------------------------

  /** Slot p + start of slice i is the residue of its position in the sequence of all taken slots. */
  lemma SlotAt(u: Use, i: nat, p: nat)
    requires Consecutive(u) && i < |u.slices| && p < u.slices[i].len
    ensures u.slices[i].start + p == Slot(First(u) + SliceSum(u.slices, i) + p, u.size)
  {
    hide SliceSum, Slot;
    ModAdd(First(u) + SliceSum(u.slices, i), p, u.size);
    ModSmall(u.slices[i].start + p, u.size);
  }

  lemma SliceFacts(u: Use, i: nat)
    requires Consecutive(u) && i < |u.slices|
    ensures 0 < u.slices[i].len && u.slices[i].start + u.slices[i].len <= u.size
    ensures u.used == SliceSum(u.slices, |u.slices|)
    ensures SliceSum(u.slices, i + 1) == SliceSum(u.slices, i) + u.slices[i].len
  {
  }

  lemma FewAreApart(u: Use, i: nat, j: nat)
    requires Consecutive(u) && u.used <= u.size && i < j < |u.slices|
    ensures !Overlap(u.slices[i], u.slices[j])
  {
    hide Consecutive, SliceSum, First, Slot;
    SliceFacts(u, i);
    SliceFacts(u, j);
    SumMonotone(u.slices, i + 1, j);
    SumMonotone(u.slices, j + 1, |u.slices|);
    if Overlap(u.slices[i], u.slices[j]) {
      SharedSlot(u, i, j, if u.slices[i].start < u.slices[j].start then u.slices[j].start else u.slices[i].start);
    }
  }

  /** A slot of two slices has two positions, hence not less than a ring apart. */
  lemma SharedSlot(u: Use, i: nat, j: nat, x: nat)
    requires Consecutive(u) && i < j < |u.slices|
    requires u.slices[i].start <= x < u.slices[i].start + u.slices[i].len
    requires u.slices[j].start <= x < u.slices[j].start + u.slices[j].len
    ensures var a := SliceSum(u.slices, i) + (x - u.slices[i].start);
            var b := SliceSum(u.slices, j) + (x - u.slices[j].start);
            a < b ==> u.size <= b - a
  {
    hide Consecutive, SliceSum, First, Slot;
    SlotAt(u, i, x - u.slices[i].start);
    SlotAt(u, j, x - u.slices[j].start);
    SliceFacts(u, i);
    var a := First(u) + SliceSum(u.slices, i) + (x - u.slices[i].start);
    var b := First(u) + SliceSum(u.slices, j) + (x - u.slices[j].start);
    if a < b < a + u.size { ModDistinct(a, b, u.size); }
  }

  /** The slice that holds a given position in the sequence of all taken slots. */
  lemma {:induction false} Holder(s: seq<Slice>, k: nat, pos: nat) returns (i: nat)
    requires k <= |s| && pos < SliceSum(s, k)
    ensures i < k && SliceSum(s, i) <= pos < SliceSum(s, i + 1)
  {
    if SliceSum(s, k - 1) <= pos { i := k - 1; } else { i := Holder(s, k - 1, pos); }
  }

  lemma ManyOverlap(u: Use)
    requires Consecutive(u) && u.used > u.size
    ensures exists j :: 0 < j < |u.slices| && Overlap(u.slices[0], u.slices[j])
  {
    hide Consecutive, SliceSum, First, Slot;
    SomeSlice(u);
    var j := Holder(u.slices, |u.slices|, u.size);
    SliceFacts(u, 0);
    SliceFacts(u, j);
    NoSum(u.slices);
    SlotAt(u, j, u.size - SliceSum(u.slices, j));
    SlotAt(u, 0, 0);
    ModShift(First(u), u.size);
    assert Overlap(u.slices[0], u.slices[j]);
  }

  lemma SomeSlice(u: Use)
    requires Consecutive(u) && u.used > u.size
    ensures u.slices != [] && u.used == SliceSum(u.slices, |u.slices|)
  {
  }

  lemma ApartIff(u: Use)
    requires Consecutive(u)
    ensures Apart(u.slices) <==> u.used <= u.size
  {
    if u.used <= u.size {
      forall i, j | 0 <= i < j < |u.slices| ensures !Overlap(u.slices[i], u.slices[j]) { FewAreApart(u, i, j); }
    } else {
      ManyOverlap(u);
    }
  }

  /** A ring without outstanding transfers. */
  function Empty(size: nat, cursor: nat): (u: Use)
    requires cursor < size
    ensures Consecutive(u)
  {
    ModSmall(cursor, size);
    Use(size, cursor, 0, [])
  }

  /** At any point of any run from an empty ring: the outstanding slices follow each other around the
      ring up to the cursor, desc_used is their sum, and they own disjoint slots exactly when desc_used
      does not exceed the ring size, which transfer_init itself does not check. */
  lemma ApartIffCountFits(size: nat, cursor: nat, ops: seq<Op>)
    requires cursor < size
    ensures var u := Run(Empty(size, cursor), ops);
            Consecutive(u) && (Apart(u.slices) <==> u.used <= u.size)
  {
    hide Consecutive, Apart;
    RunKeeps(Empty(size, cursor), ops);
    ApartIff(Run(Empty(size, cursor), ops));
  }
}
