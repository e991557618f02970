/**
 * Air frames of src/rnode.c: one header byte (sequence nibble and split flag) and at most 254 data
 * bytes. A payload of up to 508 bytes is sent as one or two of them. Towards the host the same
 * payload travels in a KISS frame behind the command byte CMD_DATA.
 */
module Frames {
  import opened Bytes

  const SINGLE_MTU: nat := 255
  const DATA_MTU: nat := SINGLE_MTU - 1
  const PAYLOAD_MAX: nat := 2 * DATA_MTU
  const FLAG_SPLIT: byte := 0x01
  const CMD_DATA: byte := 0x00
  const SEQ_UNSET: byte := 0xFF

  type Packet = p: seq<byte> | |p| <= PAYLOAD_MAX witness []

  /** What rnode_to_air and rnode_tx_done put on air for one payload under the tag seq_tx. */
  function Fragments(p: Packet, tag: byte): seq<seq<byte>> {
    if |p| <= DATA_MTU then [[tag] + p]
    else [[tag | FLAG_SPLIT] + p[..DATA_MTU], [tag | FLAG_SPLIT] + p[DATA_MTU..]]
  }

  predicate IsTag(tag: byte) {
    tag & 0x0F == 0
  }

  predicate IsFrame(f: seq<byte>) {
    1 <= |f| <= SINGLE_MTU
  }

  predicate AreFrames(fs: seq<seq<byte>>) {
    forall f | f in fs :: IsFrame(f)
  }

  predicate Split(f: seq<byte>)
    requires f != []
  {
    f[0] & FLAG_SPLIT != 0
  }

  function Nibble(f: seq<byte>): byte
    requires f != []
  {
    f[0] >> 4
  }

  function Data(f: seq<byte>): seq<byte>
    requires f != []
  {
    f[1..]
  }

  // ---- reassembly ----

  /** The receiver's seq and buf_in[..len_in]. */
  datatype Rx = Unset | Partial(nibble: byte, data: seq<byte>) {
    predicate Valid() {
      Partial? ==> nibble <= 15 && |data| <= DATA_MTU
    }
  }

  /** rnode_from_air outside promiscuous mode: the next state and the payload handed over, if any. */
  function Receive(rx: Rx, f: seq<byte>): (Rx, seq<seq<byte>>)
    requires f != []
  {
    if !Split(f) then (Unset, [Data(f)])
    else if rx == Unset || rx.nibble != Nibble(f) then (Partial(Nibble(f), Data(f)), [])
    else (Unset, [rx.data + Data(f)])
  }

  function ReceiveAll(rx: Rx, fs: seq<seq<byte>>): (Rx, seq<seq<byte>>)
    requires AreFrames(fs)
    decreases fs
  {
    if fs == [] then (rx, [])
    else
      assert IsFrame(fs[0]);
      var r := Receive(rx, fs[0]);
      var rs := ReceiveAll(r.0, fs[1..]);
      (rs.0, r.1 + rs.1)
  }
}
