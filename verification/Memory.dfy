/** What moved bytes do to memory: a request delivers the caller's data. */
module Memory {
  import opened Descriptor
  import opened Scatter
  import opened Compile

  type Mem = nat -> int

  function Write(m: Mem, a: nat, v: int): Mem {
    (x: nat) => if x == a then v else m(x)
  }

  /** The destination memory after the moves, done one byte at a time. */
  function Perform(moves: seq<Move>, src: Mem, dst: Mem): Mem {
    if moves == [] then dst
    else
      var last := moves[|moves| - 1];
      Write(Perform(moves[..|moves| - 1], src, dst), last.dst, src(last.src))
  }

  lemma {:induction false} Untouched(moves: seq<Move>, src: Mem, dst: Mem, a: nat)
    requires forall i | 0 <= i < |moves| :: moves[i].dst != a
    ensures Perform(moves, src, dst)(a) == dst(a)
  {
    if moves != [] { Untouched(moves[..|moves| - 1], src, dst, a); }
  }

  /** A byte holds what the last move to it brought. */
  lemma {:induction false} LastMoveWins(moves: seq<Move>, src: Mem, dst: Mem, k: nat)
    requires k < |moves| && forall i | k < i < |moves| :: moves[i].dst != moves[k].dst
    ensures Perform(moves, src, dst)(moves[k].dst) == src(moves[k].src)
  {
    var n := |moves| - 1;
    if k < n { LastMoveWins(moves[..n], src, dst, k); }
  }

  /** Copying consecutive bytes to the device puts them there and changes nothing else. */
  lemma CopyReachesDevice(bytes: seq<nat>, ep: nat, host: Mem, device: Mem, a: nat)
    ensures Perform(LinearCopy(bytes, ep, Mode(ToDevice, false)), host, device)(a) ==
              if ep <= a < ep + |bytes| then host(bytes[a - ep]) else device(a)
  {
    var moves := LinearCopy(bytes, ep, Mode(ToDevice, false));
    if ep <= a < ep + |moves| { LastMoveWins(moves, host, device, a - ep); } else { Untouched(moves, host, device, a); }
  }

  /** Copying from the device: a host byte holds the device byte of its last position in the list. */
  lemma CopyReachesHost(bytes: seq<nat>, ep: nat, host: Mem, device: Mem, k: nat)
    requires k < |bytes| && forall i | k < i < |bytes| :: bytes[i] != bytes[k]
    ensures Perform(LinearCopy(bytes, ep, Mode(FromDevice, false)), device, host)(bytes[k]) == device(ep + k)
  {
    LastMoveWins(LinearCopy(bytes, ep, Mode(FromDevice, false)), device, host, k);
  }

  /** Host to device: compiling a request and running it leaves the flattened buffer at consecutive
      device addresses and nothing else changed. */
  lemma RequestReachesDevice(ring: seq<Desc>, base: nat, p: nat, pieces: seq<Seg>, ep: nat, host: Mem, device: Mem, a: nat)
    requires p < |ring| && base % 32 == 0
    ensures var moves := RunRequest(ring, base, p, pieces, ep, Mode(ToDevice, false));
            var bytes := Flatten(pieces);
            Perform(moves, host, device)(a) ==
              if ep <= a < ep + |bytes| then host(bytes[a - ep]) else device(a)
  {
    hide RunRequest, Flatten;
    CompilingPreservesMeaning(ring, base, p, pieces, ep, Mode(ToDevice, false));
    CopyReachesDevice(Flatten(pieces), ep, host, device, a);
  }

  /** Device to host: every buffer byte holds the device byte of its position; if an address occurs
      more than once in the scatter list, the last occurrence counts. */
  lemma RequestReachesHost(ring: seq<Desc>, base: nat, p: nat, pieces: seq<Seg>, ep: nat, host: Mem, device: Mem, k: nat)
    requires p < |ring| && base % 32 == 0 && k < |Flatten(pieces)|
    requires forall i | k < i < |Flatten(pieces)| :: Flatten(pieces)[i] != Flatten(pieces)[k]
    ensures var moves := RunRequest(ring, base, p, pieces, ep, Mode(FromDevice, false));
            Perform(moves, device, host)(Flatten(pieces)[k]) == device(ep + k)
  {
    hide RunRequest, Flatten;
    CompilingPreservesMeaning(ring, base, p, pieces, ep, Mode(FromDevice, false));
    CopyReachesHost(Flatten(pieces), ep, host, device, k);
  }
}
