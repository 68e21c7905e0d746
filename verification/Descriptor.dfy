/** The 32-byte scatter-gather descriptor: its words, its control field and the
    adjacency hint that lets the engine fetch up to 64 descriptors at once. */
module Descriptor {

  // Sizes are written as literals, which the solver's arithmetic needs: a descriptor is 32 bytes
  // (sizeof(struct xdma_desc)), a page 4096 (XDMA_PAGE_SIZE), a block of adjacent descriptors at
  // most 64 (XDMA_MAX_ADJ_BLOCK_SIZE).

  const DESC_MAGIC: bv32 := 0xAD4B_0000
  const DESC_STOPPED: bv32 := 0x01
  const DESC_COMPLETED: bv32 := 0x02
  const DESC_EOP: bv32 := 0x10
  /** What the driver puts on the last descriptor of every transfer. */
  const LAST_CONTROL: bv32 := DESC_STOPPED | DESC_EOP | DESC_COMPLETED

  /** Source and destination are either host memory or the device. */
  datatype Dir = ToDevice | FromDevice

  datatype Desc = Desc(control: bv32, bytes: nat,
                       srcLo: nat, srcHi: nat, dstLo: nat, dstHi: nat,
                       nextLo: nat, nextHi: nat)
  {
    function Src(): nat { Join(srcLo, srcHi) }
    function Dst(): nat { Join(dstLo, dstHi) }
    function Next(): nat { Join(nextLo, nextHi) }
  }

  function Lo(a: nat): nat { a % 0x1_0000_0000 }
  function Hi(a: nat): nat { a / 0x1_0000 / 0x1_0000 }
  function Join(lo: nat, hi: nat): nat { hi * 0x1_0000_0000 + lo }

  lemma JoinSplit(a: nat)
    ensures Join(Lo(a), Hi(a)) == a
    ensures Lo(a) < 0x1_0000_0000 && a == 0x1_0000_0000 * Hi(a) + Lo(a)
  {
  }

  // --- control word: how the driver writes it -------------------------------

  /** xdma_desc_control_set: replaces the low byte, refuses wider fields. */
  predicate FitsByte(field: bv32) { field & !0xFF == 0 }

  function ControlSet(control: bv32, field: bv32): bv32
    requires FitsByte(field)
  {
    (control & !0xFF) | field
  }

  /** xdma_desc_adjacent: keeps the reserved and control bits. */
  function SetAdjacent(control: bv32, adj: nat): bv32
    requires adj < 64
  {
    (control & 0xF0FF) | DESC_MAGIC | (((adj as bv6) as bv32) << 8)
  }

  // --- control word: how the device reads it --------------------------------

  function Magic(control: bv32): bv32 { control >> 16 }
  function ControlByte(control: bv32): bv32 { control & 0xFF }
  function Adjacent(control: bv32): nat { (((control >> 8) & 0x3F) as bv6) as nat }
  predicate Stopped(control: bv32) { control & DESC_STOPPED != 0 }

  lemma ControlSetBits(field: bv32)
    requires FitsByte(field)
    ensures var c := ControlSet(DESC_MAGIC, field);
            c & 0x3F00 == 0 && c & 0xFF == field
  {
  }

  lemma AdjacentBits(control: bv32, a: bv6)
    requires control & 0x3F00 == 0
    ensures var w := (control & 0xF0FF) | DESC_MAGIC | ((a as bv32) << 8);
            ((w >> 8) & 0x3F) as bv6 == a && w >> 16 == 0xAD4B && w & 0xFF == control & 0xFF
  {
  }

  lemma SixBits(n: nat)
    requires n < 64
    ensures (n as bv6) as nat == n
  {
  }

  /** Whatever adjacency and control byte the driver wrote, the device reads back. */
  lemma ControlRoundTrip(field: bv32, adj: nat)
    requires FitsByte(field) && adj < 64
    ensures var w := SetAdjacent(ControlSet(DESC_MAGIC, field), adj);
            Magic(w) == 0xAD4B && Adjacent(w) == adj && ControlByte(w) == field
  {
    ControlSetBits(field);
    SixBits(adj);
    AdjacentBits(ControlSet(DESC_MAGIC, field), adj as bv6);
  }
}
