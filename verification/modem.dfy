/**
 * The transmitting half of src/rnode.c together with the radio state of sx126x/sx126x.c: rnode_to_air
 * sends a packet's first frame and keeps the rest, rnode_tx_done sends that rest or goes to receive.
 */
module Modem {
  import opened Bytes
  import opened Frames

  datatype Radio = Idle | RxSingle | RxContinuous | Tx

  /** A packet given to rnode_to_air, the tag drawn for it, and how many of its fragments went on air. */
  datatype Sent = Sent(payload: Packet, tag: byte, aired: nat) {
    function Parts(): seq<seq<byte>> {
      Fragments(payload, tag)
    }

    predicate Complete() {
      aired == |Parts()|
    }
  }

  /** `tail` is buf_tx[..len_tx]. `air`, `sent` and `aborted` are history: every frame transmitted,
      every packet given to rnode_to_air, and how often a restart hit a transmission. */
  datatype State = State(radio: Radio, tag: byte, tail: seq<byte>,
                         air: seq<seq<byte>>, sent: seq<Sent>, aborted: nat)

  const INITIAL: State := State(Idle, SEQ_UNSET, [], [], [], 0)

  function ToAir(m: State, p: Packet, random: byte): State {
    var tag := random & 0xF0;
    m.(radio := Tx,
       tag := tag,
       tail := if |p| <= DATA_MTU then [] else p[DATA_MTU..],
       air := m.air + [Fragments(p, tag)[0]],
       sent := m.sent + [Sent(p, tag, 1)])
  }

  function CountLast(sent: seq<Sent>): seq<Sent> {
    if sent == [] then []
    else
      var n := |sent| - 1;
      sent[n := sent[n].(aired := sent[n].aired + 1)]
  }

  function TxDone(m: State): State {
    if m.tail == [] then m.(radio := RxContinuous)
    else m.(radio := Tx,
            tail := [],
            air := m.air + [[m.tag | FLAG_SPLIT] + m.tail],
            sent := CountLast(m.sent))
  }

  /** rnode_start: the radio is reset to idle and, when that succeeds, told to receive. */
  function Start(m: State, ok: bool): State {
    m.(radio := if ok then RxContinuous else Idle,
       aborted := if m.radio == Tx then m.aborted + 1 else m.aborted)
  }

  class Transmitter {
    var radio: Radio
    var seqTx: byte
    const bufTx: array<byte>
    var lenTx: nat
    // the chip's transmit FIFO and the driver's write pointer, a uint8_t
    const fifo: array<byte>
    var fifoPtr: nat
    ghost var air: seq<seq<byte>>
    ghost var sent: seq<Sent>
    ghost var aborted: nat

    ghost predicate Valid()
      reads this
    {
      bufTx.Length == SINGLE_MTU && fifo.Length == 256 && bufTx != fifo && lenTx <= DATA_MTU
    }

    ghost function Abs(): State
      requires lenTx <= bufTx.Length
      reads this, bufTx
    {
      State(radio, seqTx, bufTx[..lenTx], air, sent, aborted)
    }

    constructor ()
      ensures Valid() && Abs() == INITIAL && fresh(bufTx) && fresh(fifo)
    {
      radio, seqTx, lenTx, fifoPtr := Idle, SEQ_UNSET, 0, 0;
      bufTx := new byte[SINGLE_MTU];
      fifo := new byte[256];
      air, sent, aborted := [], [], 0;
    }

    /** sx126x_write: its length parameter is a uint8_t, and so is the pointer each byte advances. */
    method Write(buf: seq<byte>, len: nat)
      requires fifo.Length == 256 && |buf| == len <= 255 && fifoPtr == 0
      modifies this`fifoPtr, fifo
      ensures fifoPtr == len && fifo[..len] == buf
    {
      var i := 0;
      while i < len % 256
        invariant 0 <= i <= len
        invariant fifoPtr == i
        invariant fifo[..i] == buf[..i]
      {
        fifo[fifoPtr] := buf[i];
        fifoPtr := (fifoPtr + 1) % 256;
        i := i + 1;
      }
    }

    /** sx126x_end_packet: transmits the FIFO up to fifoPtr. */
    method EndPacket()
      requires fifoPtr <= fifo.Length
      modifies this`radio, this`air
      ensures radio == Tx && air == old(air) + [fifo[..fifoPtr]]
    {
      radio := Tx;
      air := air + [fifo[..fifoPtr]];
    }

    method TxBuf(data: seq<byte>, flag: byte)
      requires Valid() && |data| <= DATA_MTU
      modifies this`radio, this`fifoPtr, this`air, fifo
      ensures radio == Tx && air == old(air) + [[seqTx | flag] + data]
    {
      var frame := [seqTx | flag] + data;
      fifoPtr := 0;
      Write(frame, |frame|);
      EndPacket();
    }

    method SendPacket(p: Packet, random: byte)
      requires Valid()
      modifies this, bufTx, fifo
      ensures Valid() && Abs() == ToAir(old(Abs()), p, random)
    {
      seqTx := random & 0xF0;
      var len := |p|;
      if len <= DATA_MTU {
        TxBuf(p, 0);
        assert seqTx | 0 == seqTx;
        lenTx := 0;
      } else {
        lenTx := len - DATA_MTU;
        forall i | 0 <= i < lenTx {
          bufTx[i] := p[DATA_MTU + i];
        }
        assert bufTx[..lenTx] == p[DATA_MTU..];
        TxBuf(p[..DATA_MTU], FLAG_SPLIT);
      }
      sent := sent + [Sent(p, seqTx, 1)];
    }

    method OnTxDone()
      requires Valid()
      modifies this, fifo
      ensures Valid() && Abs() == TxDone(old(Abs()))
    {
      if lenTx != 0 {
        assert bufTx[..lenTx] != [];
        TxBuf(bufTx[..lenTx], FLAG_SPLIT);
        lenTx := 0;
        sent := CountLast(sent);
      } else {
        radio := RxContinuous;
      }
    }

    method Restart(ok: bool)
      requires Valid()
      modifies this
      ensures Valid() && Abs() == Start(old(Abs()), ok)
    {
      if radio == Tx {
        aborted := aborted + 1;
      }
      radio := Idle;
      if ok {
        radio := RxContinuous;
      }
    }
  }
}
