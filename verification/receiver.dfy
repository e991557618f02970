/** The receiving half of src/rnode.c, in place: reassembly buffer in, KISS bytes for the host out. */
module Receiver {
  import opened Bytes
  import opened Frames
  import opened Kiss
  import KissLaws

  const CMD_STAT_RSSI: byte := 0x23
  const CMD_STAT_SNR: byte := 0x24

  function DataFrames(ps: seq<seq<byte>>): seq<seq<byte>> {
    if ps == [] then [] else [[CMD_DATA] + ps[0]] + DataFrames(ps[1..])
  }

  /** The KISS frames rnode_rx_done hands to the host for one received frame. */
  function Reports(rssi: byte, snr: byte, ps: seq<seq<byte>>): seq<seq<byte>> {
    [[CMD_STAT_RSSI, rssi], [CMD_STAT_SNR, snr]] + DataFrames(ps)
  }

  /** Which frames these are: command 0x23 and the RSSI, 0x24 and the SNR, then 0x00 and the payload. */
  lemma {:induction false} ReportsAre(rssi: byte, snr: byte, ps: seq<seq<byte>>)
    requires |ps| <= 1
    ensures Reports(rssi, snr, ps) == [[0x23, rssi], [0x24, snr]] + if ps == [] then [] else [[0x00] + ps[0]]
  {
    if ps != [] { assert DataFrames(ps[1..]) == []; }
  }

  lemma {:induction false} EncodeAllOne(p: seq<byte>)
    ensures EncodeAll([p]) == Encode(p)
  {
    assert [p][1..] == [];
    assert EncodeAll([p]) == Encode(p) + [];
  }

  /** The buffer-bound chain: 508 payload bytes make a 509-byte frame and at most 1020 encoded bytes. */
  lemma {:induction false} EncodingFits(f: seq<byte>)
    requires |f| <= 1 + PAYLOAD_MAX
    ensures |Encode(f)| <= 1020 <= MTU
  {
    KissLaws.EscapedLength(f);
  }

  class Reassembler {
    var seqno: byte
    const buf: array<byte>
    var len: nat
    const kiss: Encoder

    ghost predicate Valid()
      reads this
    {
      && buf.Length == MTU && kiss.buf.Length == MTU && buf != kiss.buf
      && len <= MTU
      && (seqno == SEQ_UNSET ==> len == 0)
      && (seqno != SEQ_UNSET ==> seqno <= 15 && len <= DATA_MTU)
    }

    ghost function State(): Rx
      requires len <= buf.Length
      reads this, buf
    {
      if seqno == SEQ_UNSET then Unset else Partial(seqno, buf[..len])
    }

    constructor ()
      ensures Valid() && State() == Unset
      ensures fresh(buf) && fresh(kiss) && fresh(kiss.buf)
    {
      seqno, len := SEQ_UNSET, 0;
      buf := new byte[MTU];
      kiss := new Encoder();
    }

    /** append_buf: a memcpy without a bound check. */
    method AppendBuf(d: seq<byte>)
      requires len + |d| <= buf.Length
      modifies this`len, buf
      ensures len == old(len) + |d|
      ensures buf[..len] == old(buf[..len]) + d
    {
      forall i | 0 <= i < |d| {
        buf[len + i] := d[i];
      }
      len := len + |d|;
    }

    /** rnode_from_air: `sent` is what goes to tcp_send. */
    method FromAir(f: seq<byte>) returns (sent: seq<byte>)
      requires Valid() && IsFrame(f)
      modifies this, buf, kiss.buf
      ensures Valid() && State().Valid()
      ensures State() == Receive(old(State()), f).0
      ensures sent == EncodeAll(DataFrames(Receive(old(State()), f).1))
    {
      ghost var was := State();
      ghost var held := buf[..len];
      var header := f[0];
      var split := header & FLAG_SPLIT != 0;
      var sequence := header >> 4;
      var data := f[1..];
      var ready := false;
      if split {
        if seqno == SEQ_UNSET {
          len := 0;
          AppendBuf(data);
          seqno := sequence;
        } else if seqno == sequence {
          AppendBuf(data);
          seqno := SEQ_UNSET;
          ready := true;
        } else {
          len := 0;
          AppendBuf(data);
          seqno := sequence;
        }
      } else {
        if seqno != SEQ_UNSET {
          len := 0;
          seqno := SEQ_UNSET;
        }
        AppendBuf(data);
        ready := true;
      }
      sent := [];
      if ready {
        assert buf[..len] == (if split then held else []) + data;
        assert [] + data == data;
        sent := Deliver(buf[..len]);
        len := 0;
      }
    }

    method Deliver(p: seq<byte>) returns (sent: seq<byte>)
      requires kiss.buf.Length == MTU && |p| <= PAYLOAD_MAX
      modifies kiss.buf
      ensures sent == EncodeAll(DataFrames([p]))
    {
      EncodingFits([CMD_DATA] + p);
      sent := kiss.EncodeFrame([CMD_DATA] + p);
      EncodeAllOne([CMD_DATA] + p);
      assert [p][1..] == [];
      assert DataFrames([p]) == [[CMD_DATA] + p];
    }

    /** rnode_rx_done for a non-empty frame: signal reports first, the RSSI with its calibration offset added
        modulo 256, then the frame itself. */
    method RxDone(f: seq<byte>, raw: byte, snr: byte, offset: byte) returns (sent: seq<byte>)
      requires Valid() && IsFrame(f)
      modifies this, buf, kiss.buf
      ensures Valid() && State().Valid()
      ensures State() == Receive(old(State()), f).0
      ensures sent == EncodeAll(Reports(raw + offset, snr, Receive(old(State()), f).1))
    {
      ghost var out := Receive(State(), f).1;
      var rssi := raw + offset;
      EncodingFits([CMD_STAT_RSSI, rssi]);
      EncodingFits([CMD_STAT_SNR, snr]);
      var a := kiss.EncodeFrame([CMD_STAT_RSSI, rssi]);
      var b := kiss.EncodeFrame([CMD_STAT_SNR, snr]);
      var c := FromAir(f);
      sent := a + b + c;
      ghost var stat := [[CMD_STAT_RSSI, rssi], [CMD_STAT_SNR, snr]];
      KissLaws.EncodeAllAppend(stat, DataFrames(out));
      assert stat[1..] == [[CMD_STAT_SNR, snr]];
      EncodeAllOne([CMD_STAT_SNR, snr]);
      assert EncodeAll(stat) == a + b;
    }
  }
}
