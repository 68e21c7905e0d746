/** The JTAG shift of the XVC device (cdev_xvc.c): 32-bit words and a short last word do what
    clocking bit by bit does. A byte or a register is its bits, lowest first; on the little-endian
    hosts the driver runs on, copying bytes into a word is concatenating them. */
module Xvc {
  import opened Arith

  type Byte = b: seq<bool> | |b| == 8 witness seq(8, i => false)

  const COMPLETION_LOOP_MAX: nat := 100

  function BitsOf(bytes: seq<Byte>): (r: seq<bool>)
    ensures |r| == 8 * |bytes|
  {
    seq(8 * |bytes|, k requires 0 <= k < 8 * |bytes| => bytes[k / 8][k % 8])
  }

  // --- clocking bit by bit ------------------------------------------------------------------

  /** The device under test: one clock takes a TMS and a TDI bit and yields a TDO bit. */
  type Tap<!S> = (S, bool, bool) -> (S, bool)

  /** Clocks the bits one at a time. */
  function Clock<S>(tap: Tap<S>, s: S, tms: seq<bool>, tdi: seq<bool>): (S, seq<bool>)
    requires |tms| == |tdi|
  {
    if tms == [] then (s, [])
    else
      var n := |tms| - 1;
      var (s1, tdo) := Clock(tap, s, tms[..n], tdi[..n]);
      var (s2, bit) := tap(s1, tms[n], tdi[n]);
      (s2, tdo + [bit])
  }

  lemma {:induction false} ClockLen<S>(tap: Tap<S>, s: S, tms: seq<bool>, tdi: seq<bool>)
    requires |tms| == |tdi|
    ensures |Clock(tap, s, tms, tdi).1| == |tms|
  {
    if tms != [] { ClockLen(tap, s, tms[..|tms| - 1], tdi[..|tms| - 1]); }
  }

  lemma {:induction false} ClockConcat<S>(tap: Tap<S>, s: S, a: seq<bool>, a': seq<bool>, b: seq<bool>, b': seq<bool>)
    requires |a| == |a'| && |b| == |b'|
    ensures var (s1, x) := Clock(tap, s, a, a');
            var (s2, y) := Clock(tap, s1, b, b');
            Clock(tap, s, a + b, a' + b') == (s2, x + y)
  {
    if b == [] {
      assert a + b == a && a' + b' == a';
      assert Clock(tap, s, a, a').1 + [] == Clock(tap, s, a, a').1;
    } else {
      var n := |b| - 1;
      ClockConcat(tap, s, a, a', b[..n], b'[..n]);
      var (s1, x) := Clock(tap, s, a, a');
      var (s2, y) := Clock(tap, s1, b[..n], b'[..n]);
      var (s3, bit) := tap(s2, b[n], b'[n]);
      assert (a + b)[..|a| + n] == a + b[..n] && (a' + b')[..|a| + n] == a' + b'[..n];
      assert Clock(tap, s, a + b, a' + b') == (s3, x + y + [bit]);
      assert x + y + [bit] == x + (y + [bit]);
    }
  }

  /** One clock. */
  lemma ClockOne<S>(tap: Tap<S>, s: S, tms: bool, tdi: bool)
    ensures var (s1, bit) := tap(s, tms, tdi); Clock(tap, s, [tms], [tdi]) == (s1, [bit])
  {
    assert [tms][..0] == [] && [tdi][..0] == [] && Clock(tap, s, [], []) == (s, []);
    assert [] + [tap(s, tms, tdi).1] == [tap(s, tms, tdi).1];
  }

  /** The bits of a buffer are those of its bytes, one after the other. */
  lemma BitsConcat(a: seq<Byte>, b: seq<Byte>)
    ensures BitsOf(a + b) == BitsOf(a) + BitsOf(b)
    ensures forall x: Byte :: BitsOf([x]) == x
  {
    forall k | 0 <= k < 8 * |a + b| ensures BitsOf(a + b)[k] == (BitsOf(a) + BitsOf(b))[k] {
      if 8 * |a| <= k { assert k / 8 - |a| == (k - 8 * |a|) / 8 && k % 8 == (k - 8 * |a|) % 8; }
    }
  }

  // --- words ---------------------------------------------------------------------------------

  /** memcpy of `cnt` bytes into a zeroed 32-bit word. */
  function LoadWord(buf: seq<Byte>, at: nat, cnt: nat): (w: seq<bool>)
    requires cnt <= 4 && at + cnt <= |buf|
    ensures |w| == 32
  {
    seq(32, k requires 0 <= k < 32 => if k < 8 * cnt then buf[at + k / 8][k % 8] else false)
  }

  lemma LoadedBits(buf: seq<Byte>, at: nat, cnt: nat, n: nat)
    requires cnt <= 4 && at + cnt <= |buf| && n <= 8 * cnt
    ensures LoadWord(buf, at, cnt)[..n] == BitsOf(buf)[8 * at..8 * at + n]
  {
  }

  /** The buffer after `cnt` bytes of a word were copied to `at`. */
  function StoreWord(buf: seq<Byte>, at: nat, cnt: nat, w: seq<bool>): (r: seq<Byte>)
    requires cnt <= 4 && at + cnt <= |buf| && |w| == 32
    ensures |r| == |buf|
  {
    seq(|buf|, j requires 0 <= j < |buf| => if at <= j < at + cnt then w[8 * (j - at)..8 * (j - at) + 8] else buf[j])
  }

  lemma StoredBits(buf: seq<Byte>, at: nat, cnt: nat, w: seq<bool>, n: nat)
    requires cnt <= 4 && at + cnt <= |buf| && |w| == 32 && n <= 8 * cnt
    ensures BitsOf(StoreWord(buf, at, cnt, w))[..8 * at + n] == BitsOf(buf)[..8 * at] + w[..n]
  {
    var r := BitsOf(StoreWord(buf, at, cnt, w));
    forall k | 0 <= k < 8 * at + n
      ensures r[k] == (BitsOf(buf)[..8 * at] + w[..n])[k]
    {
      if 8 * at <= k {
        assert k / 8 - at == (k - 8 * at) / 8 && k % 8 == (k - 8 * at) % 8;
      }
    }
  }

  // --- the device ------------------------------------------------------------------------------

  /** The XVC bar: its registers, and the device behind it. `busy` says how often the control register
      still reads busy after the n-th shift, `noise` what an unused high bit of TDO reads then. */
  class Bar<S> {
    const tap: Tap<S>
    const busy: nat -> nat
    const noise: (nat, nat) -> bool
    var state: S
    var length: nat
    var tms: seq<bool>
    var tdi: seq<bool>
    var tdo: seq<bool>
    var shifts: nat

    ghost predicate Valid()
      reads this
    {
      |tms| == |tdi| == |tdo| == 32
    }

    constructor (tap: Tap<S>, state: S, busy: nat -> nat, noise: (nat, nat) -> bool)
      ensures Valid() && this.tap == tap && this.state == state && this.busy == busy && shifts == 0
    {
      this.tap, this.state, this.busy, this.noise := tap, state, busy, noise;
      this.length, this.shifts := 0, 0;
      this.tms, this.tdi, this.tdo := seq(32, i => false), seq(32, i => false), seq(32, i => false);
    }

    /** Writing 1 to the control register clocks `length` bits. */
    method Start()
      requires Valid() && length <= 32
      modifies this
      ensures Valid() && length == old(length) && shifts == old(shifts) + 1
      ensures var (s1, bits) := Clock(tap, old(state), old(tms)[..length], old(tdi)[..length]);
              state == s1 && tdo[..length] == bits
    {
      var (s1, bits) := Clock(tap, state, tms[..length], tdi[..length]);
      ClockLen(tap, state, tms[..length], tdi[..length]);
      state := s1;
      var shift := shifts;
      tdo := bits + seq(32 - length, k requires 0 <= k => noise(shift, k));
      shifts := shifts + 1;
    }
  }

  /** The n-th shift after the first `done` ones reads busy for all polls. */
  predicate Hangs<S>(bar: Bar<S>, done: nat, n: nat) { 100 <= bar.busy(done + n) }

  /** So does one of the next `words` shifts. */
  ghost predicate SomeHangs<S>(bar: Bar<S>, done: nat, words: nat) {
    exists w :: 0 <= w < words && Hangs(bar, done, w)
  }

  /** xvc_shift_bits: false on timeout. */
  method ShiftBits<S>(bar: Bar<S>, tmsBits: seq<bool>, tdiBits: seq<bool>) returns (ok: bool, tdoBits: seq<bool>)
    requires bar.Valid() && bar.length <= 32 && |tmsBits| == |tdiBits| == 32
    modifies bar
    ensures bar.Valid() && bar.length == old(bar.length) && bar.shifts == old(bar.shifts) + 1
    ensures ok <==> !Hangs(bar, old(bar.shifts), 0)
    ensures |tdoBits| == 32
    ensures var (s1, bits) := Clock(bar.tap, old(bar.state), tmsBits[..bar.length], tdiBits[..bar.length]);
            bar.state == s1 && (ok ==> tdoBits[..bar.length] == bits)
  {
    var shift := bar.shifts;
    bar.tms := tmsBits;
    bar.tdi := tdiBits;
    bar.Start();
    var count := COMPLETION_LOOP_MAX;
    while count != 0
      invariant 0 <= count <= COMPLETION_LOOP_MAX
      invariant COMPLETION_LOOP_MAX - count <= bar.busy(shift)
    {
      // the read is not busy any more once it was busy `busy(shift)` times
      if COMPLETION_LOOP_MAX - count == bar.busy(shift) { break; }
      count := count - 1;
    }
    if count == 0 { return false, bar.tdo; }
    return true, bar.tdo;
  }

  // --- the shift loop ----------------------------------------------------------------------------

  datatype Status = Ok | Timeout

  function ByteCount(totalBits: nat): nat { (totalBits + 7) / 8 }

  /** The first bit of a word. */
  predicate Aligned(bit: nat) { bit % 32 == 0 }

  /** The byte that holds a bit. */
  function ByteOf(bit: nat): nat { bit / 8 }

  function WordCount(totalBits: nat): nat { (totalBits + 31) / 32 }

  /** What clocking the first n bits of the two buffers one at a time does. */
  function Serial<S>(tap: Tap<S>, s: S, tms: seq<Byte>, tdi: seq<Byte>, n: nat): (S, seq<bool>)
    requires n <= 8 * |tms| && |tms| == |tdi|
  {
    Clock(tap, s, BitsOf(tms)[..n], BitsOf(tdi)[..n])
  }

  lemma SerialNext<S>(tap: Tap<S>, s: S, tms: seq<Byte>, tdi: seq<Byte>, at: nat, cnt: nat, n: nat)
    requires |tms| == |tdi| && cnt <= 4 && at + cnt <= |tms| && n <= 8 * cnt
    ensures var (s1, x) := Serial(tap, s, tms, tdi, 8 * at);
            var (s2, y) := Clock(tap, s1, LoadWord(tms, at, cnt)[..n], LoadWord(tdi, at, cnt)[..n]);
            Serial(tap, s, tms, tdi, 8 * at + n) == (s2, x + y)
  {
    hide BitsOf, LoadWord, Clock;
    LoadedBits(tms, at, cnt, n);
    LoadedBits(tdi, at, cnt, n);
    ClockConcat(tap, s, BitsOf(tms)[..8 * at], BitsOf(tdi)[..8 * at],
                BitsOf(tms)[8 * at..8 * at + n], BitsOf(tdi)[8 * at..8 * at + n]);
    assert BitsOf(tms)[..8 * at + n] == BitsOf(tms)[..8 * at] + BitsOf(tms)[8 * at..8 * at + n];
    assert BitsOf(tdi)[..8 * at + n] == BitsOf(tdi)[..8 * at] + BitsOf(tdi)[8 * at..8 * at + n];
  }

  /** Loading from a part of a larger buffer. */
  lemma LoadSame(buf: seq<Byte>, part: seq<Byte>, start: nat, at: nat, cnt: nat)
    requires start + |part| <= |buf| && buf[start..start + |part|] == part && cnt <= 4 && at + cnt <= |part|
    ensures LoadWord(buf, start + at, cnt) == LoadWord(part, at, cnt)
  {
    forall k | 0 <= k < 32 ensures LoadWord(buf, start + at, cnt)[k] == LoadWord(part, at, cnt)[k] {
      if k < 8 * cnt { assert buf[start + at + k / 8] == part[at + k / 8]; }
    }
  }

  lemma StoreSame(buf: seq<Byte>, start: nat, at: nat, cnt: nat, w: seq<bool>)
    requires start + at + cnt <= |buf| && cnt <= 4 && |w| == 32
    ensures StoreWord(buf, start + at, cnt, w)[start..] == StoreWord(buf[start..], at, cnt, w)
    ensures StoreWord(buf, start + at, cnt, w)[..start] == buf[..start]
  {
  }

  /** memcpy of the low bytes of a word into the buffer. */
  method StoreBytes(buffer: array<Byte>, at: nat, cnt: nat, w: seq<bool>)
    requires cnt <= 4 && at + cnt <= buffer.Length && |w| == 32
    modifies buffer
    ensures buffer[..] == StoreWord(old(buffer[..]), at, cnt, w)
  {
    for j := 0 to cnt
      invariant forall k | 0 <= k < buffer.Length ::
        buffer[k] == if at <= k < at + j then w[8 * (k - at)..8 * (k - at) + 8] else old(buffer[k])
    {
      buffer[at + j] := w[8 * j..8 * j + 8];
    }
  }

  /** TMS and TDI, the first two thirds of the buffer, are untouched. */
  ghost predicate SameInputs(b0: seq<Byte>, b1: seq<Byte>, t: nat) {
    |b0| == |b1| == 3 * t && b1[..2 * t] == b0[..2 * t]
  }

  /** The next n bits were clocked from byte `at` on, and their TDO bits follow what was there. */
  ghost predicate Advanced<S>(tap: Tap<S>, s: S, s1: S, b0: seq<Byte>, b1: seq<Byte>, t: nat, at: nat, cnt: nat, n: nat) {
    && |b0| == |b1| == 3 * t && cnt <= 4 && at + cnt <= t && n <= 8 * cnt
    && var (s2, y) := Clock(tap, s, LoadWord(b0[..t], at, cnt)[..n], LoadWord(b0[t..2 * t], at, cnt)[..n]);
       s1 == s2 && BitsOf(b1[2 * t..])[..8 * at + n] == BitsOf(b0[2 * t..])[..8 * at] + y
  }

  /** What the loads, the shift and the stores of one word amount to. */
  lemma WordAdvances<S>(tap: Tap<S>, s: S, s1: S, b0: seq<Byte>, b1: seq<Byte>, t: nat, at: nat, cnt: nat, n: nat, tdo: seq<bool>)
    requires |b0| == 3 * t && cnt <= 4 && at + cnt <= t && n <= 8 * cnt && |tdo| == 32
    requires Clock(tap, s, LoadWord(b0, at, cnt)[..n], LoadWord(b0, t + at, cnt)[..n]) == (s1, tdo[..n])
    requires b1 == StoreWord(b0, 2 * t + at, cnt, tdo)
    ensures SameInputs(b0, b1, t) && Advanced(tap, s, s1, b0, b1, t, at, cnt, n)
  {
    hide BitsOf, Clock, LoadWord, StoreWord;
    LoadSame(b0, b0[..t], 0, at, cnt);
    LoadSame(b0, b0[t..2 * t], t, at, cnt);
    StoreSame(b0, 2 * t, at, cnt, tdo);
    StoredBits(b0[2 * t..], at, cnt, tdo, n);
  }

  /** One word: load `cnt` bytes of TMS and TDI at byte `at`, shift, store as many bytes of TDO. */
  method ShiftWord<S>(bar: Bar<S>, buffer: array<Byte>, t: nat, at: nat, cnt: nat) returns (ok: bool)
    requires bar.Valid() && cnt <= 4 && at + cnt <= t && buffer.Length == 3 * t
    requires bar.length <= 32 && bar.length <= 8 * cnt
    modifies bar, buffer
    ensures bar.Valid() && bar.length == old(bar.length) && bar.shifts == old(bar.shifts) + 1
    ensures ok <==> !Hangs(bar, old(bar.shifts), 0)
    ensures SameInputs(old(buffer[..]), buffer[..], t)
    ensures ok ==> Advanced(bar.tap, old(bar.state), bar.state, old(buffer[..]), buffer[..], t, at, cnt, bar.length)
  {
    hide BitsOf, Clock, LoadWord, StoreWord, Advanced;
    ghost var before, s := buffer[..], bar.state;
    var tmsStore := LoadWord(buffer[..], at, cnt);
    var tdiStore := LoadWord(buffer[..], t + at, cnt);
    var tdoStore;
    ok, tdoStore := ShiftBits(bar, tmsStore, tdiStore);
    if ok {
      StoreBytes(buffer, 2 * t + at, cnt, tdoStore);
      WordAdvances(bar.tap, s, bar.state, before, buffer[..], t, at, cnt, bar.length, tdoStore);
    }
  }

  /** The first n bits have been shifted: device state and TDO bytes are those of bit-serial clocking. */
  ghost predicate Shifted<S>(tap: Tap<S>, s0: S, s: S, tms: seq<Byte>, tdi: seq<Byte>, tdo: seq<Byte>, n: nat) {
    |tms| == |tdi| == |tdo| && n <= 8 * |tms| && Serial(tap, s0, tms, tdi, n) == (s, BitsOf(tdo)[..n])
  }

  lemma ShiftedNone<S>(tap: Tap<S>, s0: S, tms: seq<Byte>, tdi: seq<Byte>, tdo: seq<Byte>)
    requires |tms| == |tdi| == |tdo|
    ensures Shifted(tap, s0, s0, tms, tdi, tdo, 0)
  {
  }

  lemma ShiftedAll<S>(tap: Tap<S>, s0: S, s: S, tms: seq<Byte>, tdi: seq<Byte>, tdo: seq<Byte>, n: nat)
    requires Shifted(tap, s0, s, tms, tdi, tdo, n)
    ensures |tms| == |tdi| == |tdo| && n <= 8 * |tms| && Serial(tap, s0, tms, tdi, n) == (s, BitsOf(tdo)[..n])
  {
  }

  lemma ShiftedNext<S>(tap: Tap<S>, s0: S, s: S, s1: S, tms: seq<Byte>, tdi: seq<Byte>,
                       tdo: seq<Byte>, tdo1: seq<Byte>, at: nat, cnt: nat, n: nat)
    requires Shifted(tap, s0, s, tms, tdi, tdo, 8 * at)
    requires |tdo1| == |tdo| && cnt <= 4 && at + cnt <= |tms| && n <= 8 * cnt
    requires var (s2, y) := Clock(tap, s, LoadWord(tms, at, cnt)[..n], LoadWord(tdi, at, cnt)[..n]);
             s1 == s2 && BitsOf(tdo1)[..8 * at + n] == BitsOf(tdo)[..8 * at] + y
    ensures Shifted(tap, s0, s1, tms, tdi, tdo1, 8 * at + n)
  {
    hide BitsOf, Clock, LoadWord, Serial;
    SerialNext(tap, s0, tms, tdi, at, cnt, n);
  }

  /** The first n bits are through: the buffer still holds TMS and TDI, and what was shifted out so far. */
  ghost predicate Progress<S>(tap: Tap<S>, s0: S, s: S, buf: seq<Byte>, tms: seq<Byte>, tdi: seq<Byte>, n: nat) {
    var t := |tms|;
    |buf| == 3 * t && buf[..t] == tms && buf[t..2 * t] == tdi && Shifted(tap, s0, s, tms, tdi, buf[2 * t..], n)
  }

  /** The length register, the byte and the number of bytes for the bits from `bits` on. */
  lemma WordFits(totalBits: nat, bits: nat)
    requires Aligned(bits) && bits < totalBits
    ensures Min(bits, totalBits) == bits == 8 * ByteOf(bits)
    ensures var n := if totalBits - bits < 32 then totalBits - bits else 32;
            var cnt := if totalBits - bits < 32 then ByteCount(totalBits - bits) else 4;
            && cnt <= 4 && n <= 8 * cnt && ByteOf(bits) + cnt <= ByteCount(totalBits)
            && Min(bits + 32, totalBits) == 8 * ByteOf(bits) + n
  {
    hide ByteCount, ByteOf, Aligned;
    BytesHold(totalBits);
    BytesHold(totalBits - bits);
    AlignedByte(bits);
  }

  /** A byte count holds the bits with less than a byte to spare. */
  lemma BytesHold(n: nat)
    ensures n <= 8 * ByteCount(n) < n + 8
  {
  }

  lemma AlignedByte(bit: nat)
    requires Aligned(bit)
    ensures bit == 8 * ByteOf(bit)
  {
  }

  /** One round of the word loop: a full word, or the rest of the bits. */
  method NextWord<S>(bar: Bar<S>, buffer: array<Byte>, totalBits: nat, bits: nat, bitsLeft: nat,
                     ghost s0: S, ghost tms: seq<Byte>, ghost tdi: seq<Byte>)
    returns (ok: bool)
    requires bar.Valid() && Aligned(bits) && 0 < bitsLeft == totalBits - bits && (32 <= bitsLeft ==> bar.length == 32)
    requires |tms| == ByteCount(totalBits) && Progress(bar.tap, s0, bar.state, buffer[..], tms, tdi, Min(bits, totalBits))
    modifies bar, buffer
    ensures bar.Valid() && bar.shifts == old(bar.shifts) + 1 && (64 <= bitsLeft ==> bar.length == 32)
    ensures ok <==> !Hangs(bar, old(bar.shifts), 0)
    ensures Kept(buffer[..], tms, tdi)
    ensures ok ==> Progress(bar.tap, s0, bar.state, buffer[..], tms, tdi, Min(bits + 32, totalBits))
  {
    hide Clock, BitsOf, LoadWord, Serial, Shifted, Hangs, ByteCount, ByteOf, Min, Aligned, Progress, SameInputs, Advanced, Kept;
    WordFits(totalBits, bits);
    var t := ByteCount(totalBits);
    ghost var before, s := buffer[..], bar.state;
    ProgressKept(bar.tap, s0, s, before, tms, tdi, Min(bits, totalBits));
    var bytes := ByteOf(bits);
    var shiftBytes := 4;
    if bitsLeft < 32 {
      bar.length := bitsLeft;
      shiftBytes := ByteCount(bitsLeft);
    }
    ok := ShiftWord(bar, buffer, t, bytes, shiftBytes);
    KeptNext(before, buffer[..], tms, tdi);
    if ok { ProgressNext(bar.tap, s0, s, bar.state, before, buffer[..], tms, tdi, bytes, shiftBytes, bar.length); }
  }

  /** TMS and TDI are where they were. */
  ghost predicate Kept(buf: seq<Byte>, tms: seq<Byte>, tdi: seq<Byte>) {
    |buf| == 3 * |tms| && buf[..|tms|] == tms && buf[|tms|..2 * |tms|] == tdi
  }

  lemma ProgressKept<S>(tap: Tap<S>, s0: S, s: S, buf: seq<Byte>, tms: seq<Byte>, tdi: seq<Byte>, n: nat)
    requires Progress(tap, s0, s, buf, tms, tdi, n)
    ensures Kept(buf, tms, tdi) && |buf| == 3 * |tms|
  {
  }

  lemma KeptNext(b0: seq<Byte>, b1: seq<Byte>, tms: seq<Byte>, tdi: seq<Byte>)
    requires Kept(b0, tms, tdi) && SameInputs(b0, b1, |tms|)
    ensures Kept(b1, tms, tdi)
  {
    var t := |tms|;
    assert b1[..t] == b1[..2 * t][..t] && b1[t..2 * t] == b1[..2 * t][t..];
    assert b0[..t] == b0[..2 * t][..t] && b0[t..2 * t] == b0[..2 * t][t..];
  }

  lemma ProgressNext<S>(tap: Tap<S>, s0: S, s: S, s1: S, b0: seq<Byte>, b1: seq<Byte>, tms: seq<Byte>, tdi: seq<Byte>,
                        at: nat, cnt: nat, n: nat)
    requires Progress(tap, s0, s, b0, tms, tdi, 8 * at)
    requires SameInputs(b0, b1, |tms|) && Advanced(tap, s, s1, b0, b1, |tms|, at, cnt, n)
    ensures Progress(tap, s0, s1, b1, tms, tdi, 8 * at + n)
  {
    KeptNext(b0, b1, tms, tdi);
    hide BitsOf, Clock, LoadWord, Shifted;
    ShiftedNext(tap, s0, s, s1, tms, tdi, b0[2 * |tms|..], b1[2 * |tms|..], at, cnt, n);
  }

  lemma Parts(buffer: array<Byte>, all: seq<Byte>, t: nat)
    requires buffer.Length == 3 * t && all == buffer[..]
    ensures all[..t] == buffer[..t] && all[t..2 * t] == buffer[t..2 * t] && all[2 * t..] == buffer[2 * t..]
  {
  }

  lemma ProgressStart<S>(tap: Tap<S>, s0: S, buf: seq<Byte>, t: nat)
    requires |buf| == 3 * t
    ensures Progress(tap, s0, s0, buf, buf[..t], buf[t..2 * t], 0) && Kept(buf, buf[..t], buf[t..2 * t])
  {
    ShiftedNone(tap, s0, buf[..t], buf[t..2 * t], buf[2 * t..]);
  }

  lemma ProgressEnd<S>(tap: Tap<S>, s0: S, s: S, buf: seq<Byte>, tms: seq<Byte>, tdi: seq<Byte>, n: nat)
    requires Progress(tap, s0, s, buf, tms, tdi, n)
    ensures |buf| == 3 * |tms| && |tdi| == |tms| && n <= 8 * |tms|
    ensures Serial(tap, s0, tms, tdi, n) == (s, BitsOf(buf[2 * |tms|..])[..n])
  {
    ShiftedAll(tap, s0, s, tms, tdi, buf[2 * |tms|..], n);
  }

  // --- the 32-bit limits -----------------------------------------------------------------------------

  /** total_bytes, computed in 32 bits. */
  function AllocBytes(totalBits: nat): nat { Wrap32(totalBits + 7) / 8 }

  /** The loop counters after n rounds. */
  function BitsAt(n: nat): nat { Wrap32(32 * n) }
  function LeftAt(totalBits: nat, n: nat): nat { (totalBits - 32 * n) % 0x1_0000_0000 }

  /** Round n is executed. */
  ghost predicate Runs(totalBits: nat, n: nat) {
    forall k | 0 <= k <= n :: BitsAt(k) < totalBits
  }

  /** Round n copies bytes inside the parts of the allocation. */
  predicate CopiesInside(totalBits: nat, n: nat) {
    var left := LeftAt(totalBits, n);
    BitsAt(n) / 8 + (if left < 32 then ByteCount(left) else 4) <= AllocBytes(totalBits)
  }

  /** Every copy of every round stays inside the allocation exactly below 2^32 - 7 bits: from there on
      total_bytes has wrapped around to 0, and already the first round copies outside. */
  lemma CopiesInsideIff(totalBits: nat)
    requires totalBits < 0x1_0000_0000
    ensures (forall n: nat :: Runs(totalBits, n) ==> CopiesInside(totalBits, n)) <==> totalBits < 0xFFFF_FFF9
  {
    if totalBits < 0xFFFF_FFF9 {
      forall n: nat | Runs(totalBits, n) ensures CopiesInside(totalBits, n) {
        assert BitsAt(n) < totalBits;
        RoundInside(totalBits, n);
      }
    } else {
      assert AllocBytes(totalBits) == 0 && !CopiesInside(totalBits, 0);
      assert Runs(totalBits, 0);
    }
  }

  lemma RoundInside(totalBits: nat, n: nat)
    requires BitsAt(n) < totalBits < 0xFFFF_FFF9
    ensures CopiesInside(totalBits, n)
  {
    LeftIs(totalBits, n);
    assert BitsAt(n) % 32 == 0;
  }

  /** Both counters wrap around together. */
  lemma LeftIs(totalBits: nat, n: nat)
    requires BitsAt(n) < totalBits < 0x1_0000_0000
    ensures LeftAt(totalBits, n) == totalBits - BitsAt(n)
  {
  }

  /** The loop ends exactly up to 2^32 - 32 bits: beyond, the counter wraps around to 0 before it reaches
      the length. */
  lemma LoopEndsIff(totalBits: nat)
    requires totalBits < 0x1_0000_0000
    ensures (exists n: nat :: !Runs(totalBits, n)) <==> totalBits <= 0xFFFF_FFE0
  {
    if totalBits <= 0xFFFF_FFE0 {
      assert BitsAt(0x7FF_FFFF) == 0xFFFF_FFE0;
      assert !Runs(totalBits, 0x7FF_FFFF);
    } else {
      forall n: nat ensures Runs(totalBits, n) {
        forall k | 0 <= k <= n ensures BitsAt(k) < totalBits { Multiple(k); }
      }
    }
  }

  lemma Multiple(k: nat)
    ensures BitsAt(k) <= 0xFFFF_FFE0
  {
  }

  lemma NextCount(w: nat, totalBits: nat)
    requires 32 * w == BitsAt(w) < totalBits <= 0xFFFF_FFE0
    ensures Wrap32(32 * w + 32) == 32 * (w + 1) == BitsAt(w + 1)
    ensures 32 <= totalBits - 32 * w ==> (totalBits - 32 * w - 32) % 0x1_0000_0000 == totalBits - 32 * w - 32
  {
  }

  lemma AllocIs(totalBits: nat)
    requires totalBits < 0xFFFF_FFF9
    ensures AllocBytes(totalBits) == ByteCount(totalBits)
  {
  }

  /** The word loop of xvc_ioctl. */
  method ShiftLoop<S>(bar: Bar<S>, buffer: array<Byte>, totalBits: nat,
                      ghost s0: S, ghost tms: seq<Byte>, ghost tdi: seq<Byte>) returns (status: Status)
    requires bar.Valid() && (32 <= totalBits ==> bar.length == 32) && |tms| == ByteCount(totalBits)
    requires totalBits <= 0xFFFF_FFE0
    requires Kept(buffer[..], tms, tdi) && Progress(bar.tap, s0, bar.state, buffer[..], tms, tdi, 0)
    modifies bar, buffer
    ensures status == Timeout <==> SomeHangs(bar, old(bar.shifts), WordCount(totalBits))
    ensures Kept(buffer[..], tms, tdi)
    ensures status == Ok ==> Progress(bar.tap, s0, bar.state, buffer[..], tms, tdi, totalBits)
  {
    hide SomeHangs, Hangs, ByteCount, WordCount, Min, Aligned, Progress, Kept;
    ghost var done := bar.shifts;
    LoopStart(bar, done, totalBits);
    var bits: nat, bitsLeft: nat := 0, totalBits;
    ghost var w := 0;
    while bits < totalBits
      invariant bar.Valid() && bits == 32 * w == BitsAt(w) && Aligned(bits) && bar.shifts == done + w
      invariant bits < totalBits ==> bitsLeft == totalBits - bits && (32 <= bitsLeft ==> bar.length == 32)
      invariant !SomeHangs(bar, done, w) && Kept(buffer[..], tms, tdi)
      invariant Progress(bar.tap, s0, bar.state, buffer[..], tms, tdi, Min(bits, totalBits))
      decreases totalBits - bits
    {
      var ok := NextWord(bar, buffer, totalBits, bits, bitsLeft, s0, tms, tdi);
      NextCount(w, totalBits);
      LoopStep(bar, done, w, totalBits);
      if !ok { return Timeout; }
      bits := Wrap32(bits + 32);
      bitsLeft := (bitsLeft - 32) % 0x1_0000_0000;
      w := w + 1;
    }
    LoopEnd(bar, done, w, totalBits);
    status := Ok;
  }

  lemma LoopStart<S>(bar: Bar<S>, done: nat, totalBits: nat)
    ensures !SomeHangs(bar, done, 0) && Min(0, totalBits) == 0 && Aligned(0)
  {
  }

  /** A word that hangs is one of the words of the request. */
  lemma LoopStep<S>(bar: Bar<S>, done: nat, w: nat, totalBits: nat)
    requires 32 * w < totalBits && !SomeHangs(bar, done, w)
    ensures Hangs(bar, done + w, 0) ==> SomeHangs(bar, done, WordCount(totalBits))
    ensures !Hangs(bar, done + w, 0) ==> !SomeHangs(bar, done, w + 1)
    ensures Aligned(32 * w + 32)
  {
    if Hangs(bar, done + w, 0) { assert Hangs(bar, done, w); }
  }

  lemma LoopEnd<S>(bar: Bar<S>, done: nat, w: nat, totalBits: nat)
    requires totalBits <= 32 * w && !SomeHangs(bar, done, w)
    ensures !SomeHangs(bar, done, WordCount(totalBits)) && Min(32 * w, totalBits) == totalBits
  {
  }

  /** The shift of xvc_ioctl over one allocation that holds the TMS, TDI and TDO bytes one after the
      other. On success the device is in the state bit-serial clocking leaves it in, and the
      first totalBits bits of the TDO part are the bits it shifted out; TMS and TDI are unchanged.
      It fails exactly when some word stays busy for all polls. */
  method Shift<S>(bar: Bar<S>, buffer: array<Byte>, totalBits: nat) returns (status: Status)
    requires bar.Valid() && totalBits <= 0xFFFF_FFE0
    requires buffer.Length == 3 * ByteCount(totalBits)
    modifies bar, buffer
    ensures var t := ByteCount(totalBits);
            buffer[..t] == old(buffer[..t]) && buffer[t..2 * t] == old(buffer[t..2 * t])
    ensures status == Timeout <==> SomeHangs(bar, old(bar.shifts), WordCount(totalBits))
    ensures status == Ok ==>
      var t := ByteCount(totalBits);
      var (s1, tdo) := Serial(bar.tap, old(bar.state), old(buffer[..t]), old(buffer[t..2 * t]), totalBits);
      bar.state == s1 && BitsOf(buffer[2 * t..])[..totalBits] == tdo
  {
    ghost var t, s0 := ByteCount(totalBits), bar.state;
    ghost var tms, tdi := buffer[..t], buffer[t..2 * t];
    Parts(buffer, buffer[..], t);
    ProgressStart(bar.tap, s0, buffer[..], t);
    hide Clock, BitsOf, LoadWord, Serial, SomeHangs, ByteCount, WordCount, Progress, Kept;
    if totalBits >= 32 { bar.length := 0x20; }
    status := ShiftLoop(bar, buffer, totalBits, s0, tms, tdi);
    KeptParts(buffer, tms, tdi);
    if status == Ok { ProgressEnd(bar.tap, s0, bar.state, buffer[..], tms, tdi, totalBits); }
  }

  lemma KeptParts(buffer: array<Byte>, tms: seq<Byte>, tdi: seq<Byte>)
    requires Kept(buffer[..], tms, tdi)
    ensures var t := |tms|;
            && buffer.Length == 3 * t && buffer[..t] == tms && buffer[t..2 * t] == tdi
            && buffer[..][2 * t..] == buffer[2 * t..]
  {
    Parts(buffer, buffer[..], |tms|);
  }

  datatype Reply = BadOpcode | TimedOut | Done(tdo: seq<Byte>)

  /** xvc_ioctl. Opcode 1 returns what the device shifted out; opcode 2 shifts just the same but
      returns the TDI bytes; any other opcode does nothing. */
  method Ioctl<S>(bar: Bar<S>, opcode: nat, totalBits: nat, userTms: seq<Byte>, userTdi: seq<Byte>)
    returns (reply: Reply)
    requires bar.Valid() && totalBits <= 0xFFFF_FFE0
    requires |userTms| == |userTdi| == AllocBytes(totalBits)
    modifies bar
    ensures reply == BadOpcode <==> opcode != 1 && opcode != 2
    ensures reply == BadOpcode ==> bar.state == old(bar.state) && bar.shifts == old(bar.shifts)
    ensures reply == TimedOut <==>
      (opcode == 1 || opcode == 2) && SomeHangs(bar, old(bar.shifts), WordCount(totalBits))
    ensures reply.Done? ==>
      var (s1, tdo) := Serial(bar.tap, old(bar.state), userTms, userTdi, totalBits);
      && bar.state == s1 && |reply.tdo| == ByteCount(totalBits)
      && (if opcode == 1 then BitsOf(reply.tdo)[..totalBits] == tdo else reply.tdo == userTdi)
  {
    AllocIs(totalBits);
    hide Serial, BitsOf, SomeHangs, AllocBytes;
    if opcode != 1 && opcode != 2 { return BadOpcode; }
    var t := AllocBytes(totalBits);
    var buffer := new Byte[3 * t](_ => seq(8, i => false));
    forall j | 0 <= j < t { buffer[j] := userTms[j]; }
    forall j | 0 <= j < t { buffer[t + j] := userTdi[j]; }
    assert buffer[..t] == userTms && buffer[t..2 * t] == userTdi;
    var status := Shift(bar, buffer, totalBits);
    if status == Timeout { return TimedOut; }
    reply := Done(if opcode == 2 then buffer[t..2 * t] else buffer[2 * t..]);
  }
}
