/**
 * The transmit side of the daemon in place: the TCP thread, the queue worker and the radio-event
 * handlers as methods over the shared state. Each atomic section refines one step of System.
 */
module Daemon {
  import opened Bytes
  import opened Frames
  import opened System
  import Airtime
  import Contention
  import Fifo
  import Kiss
  import Modem

  class Rnode {
    const cfg: Config
    const decoder: Kiss.Decoder
    const queue: Fifo.Queue
    const worker: Contention.Worker
    const modem: Modem.Transmitter
    const ring: Airtime.Ring
    // what kiss_decode has not yet looked at in its chunk
    var rest: seq<byte>
    // tx_wait_timeout
    var wait: nat
    // send_packet's `item` while it is between its critical sections, and whether flush mode called it
    var item: Fifo.Item?
    var inFlush: bool
    ghost var clock: nat
    ghost var chunks: seq<seq<byte>>
    ghost var heard: seq<seq<byte>>
    ghost var pushed: seq<seq<byte>>
    ghost var trace: seq<Obs>

    ghost predicate Valid()
      reads this, decoder, decoder.buf, queue, queue.items, worker, modem, modem.bufTx, ring, ring.bins
    {
      && decoder.Valid() && queue.Valid() && modem.Valid() && ring.Valid()
      && decoder.buf != modem.bufTx && decoder.buf != modem.fifo
      && (item != null ==> item == queue.head)
    }

    ghost function Abs(): State
      requires decoder.len <= decoder.buf.Length && modem.lenTx <= modem.bufTx.Length
      reads this, decoder, decoder.buf, queue, worker, modem, modem.bufTx, ring, ring.bins
    {
      State(Host(decoder.State(), rest, chunks, heard), queue.Contents(),
            if item == null then Ready else Popping(inFlush),
            worker.Abs(), modem.Abs(), ring.Abs(), wait, clock, pushed, trace)
    }

    constructor (cfg: Config)
      ensures Valid() && this.cfg == cfg && Abs() == Initial()
    {
      this.cfg := cfg;
      decoder := new Kiss.Decoder();
      queue := new Fifo.Queue();
      worker := new Contention.Worker();
      modem := new Modem.Transmitter();
      ring := new Airtime.Ring();
      rest, wait, item, inFlush := [], 0, null, false;
      clock, chunks, heard, pushed, trace := 1, [], [], [], [];
      new;
      worker.MediumState(Contention.Init, 1);
    }

    method OnHostRead(chunk: seq<byte>)
      requires Valid() && Enabled(Abs(), HostRead(chunk))
      modifies this
      ensures Valid() && Abs() == Step(cfg, old(Abs()), HostRead(chunk))
    {
      rest := chunk;
      chunks := chunks + [chunk];
    }

    method OnHostByte()
      requires Valid() && Enabled(Abs(), HostByte)
      modifies this, decoder, decoder.buf, queue, queue.items
      ensures Valid() && Abs() == Step(cfg, old(Abs()), HostByte)
    {
      var frames := NextByte();
      PushFrames(frames);
    }

    /** The frames of one byte, none or one, go to rnode_from_channel. */
    method PushFrames(frames: seq<seq<byte>>)
      requires Valid() && |frames| <= 1
      modifies this`pushed, queue, queue.items
      ensures Valid()
      ensures Abs() == old(Abs()).(queue := old(Abs()).queue + PushAll(frames),
                                   pushed := old(Abs()).pushed + PushAll(frames))
    {
      if frames == [] {
        assert queue.Contents() + PushAll(frames) == queue.Contents();
        assert pushed + PushAll(frames) == pushed;
      } else {
        assert frames == [frames[0]];
        PushAllOne(frames[0]);
        FromChannel(frames[0]);
      }
    }

    /** The decoding part of an iteration of kiss_decode's loop. */
    method NextByte() returns (frames: seq<seq<byte>>)
      requires Valid() && rest != []
      modifies this`rest, this`heard, decoder, decoder.buf
      ensures Valid()
      ensures var h := old(Abs()).host; var f := Kiss.Feed(h.dec, h.rest[0]);
        && frames == f.frames && |frames| <= 1
        && Abs() == old(Abs()).(host :=
             Host(f.state, if f.full then [] else h.rest[1..], h.chunks, h.heard + f.frames))
    {
      var full;
      frames, full := decoder.FeedByte(rest[0]);
      rest := if full then [] else rest[1..];
      heard := heard + frames;
    }

    /** The CMD_DATA case of rnode_from_channel. */
    method FromChannel(frame: seq<byte>)
      requires Valid()
      modifies this`pushed, queue, queue.items
      ensures Valid()
      ensures Abs() == old(Abs()).(queue := old(Abs()).queue + Pushes(frame),
                                   pushed := old(Abs()).pushed + Pushes(frame))
    {
      if frame != [] && frame[0] == CMD_DATA {
        queue.Push(frame[1..]);
        pushed := pushed + [frame[1..]];
      }
    }

    /** rnode_start. */
    method StartRadio(r: Restarting)
      requires Valid()
      modifies modem, worker
      ensures Valid() && Abs() == System.StartRadio(old(Abs()), r)
    {
      modem.Restart(r.ok);
      if r.ok {
        worker.SetBusyTimeout(r.header, r.data);
      }
    }

    /** rnode_check_airtime_lock. */
    method CheckAirtimeLock() returns (locked: bool)
      ensures locked <==> Airtime.Locked(ring.Abs(), cfg.limits)
    {
      if cfg.limits.short == 0 && cfg.limits.long == 0 {
        return false;
      }
      if cfg.limits.short != 0 && ring.short * 10_000 >= cfg.limits.short * (2 * Airtime.BIN_MS) {
        return true;
      }
      if cfg.limits.long != 0 && ring.long * 10_000 >= cfg.limits.long * Airtime.LONGTERM_MS {
        return true;
      }
      return false;
    }

    /** send_packet up to its second critical section: false when the duty-cycle lock defers it. */
    method SendPacket(i: Poll, flush: bool, ghost target: nat) returns (sent: bool)
      requires Valid() && item == null && queue.Contents() != [] && |queue.Contents()[0]| <= PAYLOAD_MAX
      modifies this, modem, modem.bufTx, modem.fifo, ring, ring.bins
      ensures Valid()
      ensures sent <==> !Airtime.Locked(old(ring.Abs()), cfg.limits)
      ensures Abs() == TrySend(cfg, old(Abs()), i, flush, target).(timers := old(worker.Abs()))
    {
      var locked := CheckAirtimeLock();
      trace := trace + [Attempted(i.now, flush, target, !locked)];
      if !locked {
        Transmit(i, flush);
      }
      sent := !locked;
    }

    /** The part of send_packet from rnode_to_air on, up to the second critical section. */
    method Transmit(i: Poll, flush: bool)
      requires Valid() && item == null && queue.Contents() != [] && |queue.Contents()[0]| <= PAYLOAD_MAX
      modifies this`item, this`inFlush, this`wait, this`clock, modem, modem.bufTx, modem.fifo, ring, ring.bins
      ensures Valid()
      ensures var s := old(Abs());
        Abs() == s.(modem := Modem.ToAir(s.modem, s.queue[0], i.tag),
                    airtime := Airtime.Add(s.airtime, i.later, i.airtime),
                    wait := i.armed + 2 * i.airtime, pc := Popping(flush), clock := i.armed)
    {
      var head := queue.Peek();
      ToAir(head.data, i.tag);
      Account(i.later, i.airtime);
      Await(head, flush, i.armed, i.armed + i.airtime * 2);
    }

    method Await(head: Fifo.Item, flush: bool, now: nat, until: nat)
      requires Valid() && head == queue.head
      modifies this`item, this`inFlush, this`wait, this`clock
      ensures Valid() && Abs() == old(Abs()).(pc := Popping(flush), wait := until, clock := now)
    {
      wait, item, inFlush, clock := until, head, flush, now;
    }

    method ToAir(p: Packet, tag: byte)
      requires Valid()
      modifies modem, modem.bufTx, modem.fifo
      ensures Valid() && Abs() == old(Abs()).(modem := Modem.ToAir(old(Abs()).modem, p, tag))
    {
      modem.SendPacket(p, tag);
    }

    method Account(now: nat, ms: nat)
      requires Valid()
      modifies this`clock, ring, ring.bins
      ensures Valid()
      ensures Abs() == old(Abs()).(airtime := Airtime.Add(old(Abs()).airtime, now, ms), clock := now)
    {
      ring.AddAirtime(now, ms);
      clock := now;
    }

    /** One iteration of queue_worker. */
    method OnTick(i: Poll)
      requires Valid() && Enabled(Abs(), Tick(i))
      modifies this, worker, modem, modem.bufTx, modem.fifo, ring, ring.bins
      ensures Valid() && Abs() == Step(cfg, old(Abs()), Tick(i))
    {
      clock := i.now;
      if modem.radio != Modem.Tx {
        if worker.txEnable && queue.head != null {
          assert queue.Contents() != [];
          if worker.flushing {
            FlushMode(i);
          } else {
            NormalMode(i);
          }
        } else {
          assert queue.head == null ==> queue.Contents() == [];
          Idle(i);
        }
      } else {
        Watchdog(i);
      }
    }

    method Idle(i: Poll)
      requires Valid()
      modifies this`trace, worker
      ensures Valid()
      ensures var s := old(Abs());
        Abs() == s.(timers := Contention.Inhibited(s.timers, i.now), trace := s.trace + [Skipped(i.now)])
    {
      trace := trace + [Skipped(i.now)];
      if !worker.txEnable {
        worker.WaitInhibited(i.now);
      }
    }

    method Watchdog(i: Poll)
      requires Valid()
      modifies this`trace, worker, modem
      ensures Valid()
      ensures var t := old(Abs()).(trace := old(trace) + [Skipped(i.now)]);
        Abs() == if i.now > t.wait then System.StartRadio(t, i.restart) else t
    {
      trace := trace + [Skipped(i.now)];
      if i.now > wait {
        StartRadio(i.restart);
      }
    }

    method FlushMode(i: Poll)
      requires Valid() && item == null && queue.Contents() != [] && |queue.Contents()[0]| <= PAYLOAD_MAX
      modifies this, worker, modem, modem.bufTx, modem.fifo, ring, ring.bins
      ensures Valid() && Abs() == TrySend(cfg, old(Abs()), i, true, 0)
    {
      var sent := SendPacket(i, true, 0);
      if !sent {
        worker.flushing := false;
      }
    }

    method NormalMode(i: Poll)
      requires Valid() && item == null && clock == i.now
      requires queue.Contents() != [] && |queue.Contents()[0]| <= PAYLOAD_MAX
      modifies this, worker, modem, modem.bufTx, modem.fifo, ring, ring.bins
      ensures Valid()
      ensures var l := Polling(cfg, old(Abs()), i);
        Abs() == if l.send then TrySend(cfg, l.state, i, false, l.target) else l.state
    {
      ghost var l := Polling(cfg, Abs(), i);
      var window := Airtime.ContentionWindow(ring.cw, i.random, cfg.slot);
      trace := trace + [Polled(i.now, Contention.MediumFree(worker.Abs(), i.interference))];
      var send := worker.Poll(i.now, i.interference, window, cfg.difs, cfg.flush);
      assert Abs() == l.state && send == l.send;
      if send {
        var sent := SendPacket(i, false, l.target);
      }
    }

    /** The second critical section of send_packet and what its callers do afterwards. */
    method OnPop(now: nat)
      requires Valid() && Enabled(Abs(), Pop(now))
      modifies this, worker, queue, ring, ring.bins
      ensures Valid() && Abs() == Step(cfg, old(Abs()), Pop(now))
    {
      Unlink();
      OnRefresh(now);
      assert queue.head == null <==> queue.Contents() == [];
      if inFlush && queue.head == null {
        worker.flushing := false;
      }
    }

    method Unlink()
      requires Valid() && item != null
      modifies this`item, queue
      ensures Valid() && queue.items == old(queue.items)[1..]
      ensures Abs() == old(Abs()).(queue := old(Abs()).queue[1..], pc := Ready)
      ensures inFlush == old(inFlush)
    {
      item := null;
      queue.Pop();
    }

    method OnRefresh(now: nat)
      requires Valid() && Enabled(Abs(), Refresh(now))
      modifies this`clock, ring, ring.bins
      ensures Valid() && Abs() == Step(cfg, old(Abs()), Refresh(now))
    {
      ring.UpdateAirtime(now);
      clock := now;
    }

    method OnMedium(cause: Contention.Cause, now: nat)
      requires Valid() && Enabled(Abs(), Medium(cause, now))
      modifies this, worker
      ensures Valid() && Abs() == Step(cfg, old(Abs()), Medium(cause, now))
    {
      worker.MediumState(cause, now);
      clock := now;
      match cause {
        case PreambleDetected => trace := trace + [Preamble(now)];
        case HeaderValid => trace := trace + [Header(now)];
        case _ =>
      }
    }

    /** irq_worker on TX_DONE: first the medium callback, then rnode_tx_done. */
    method OnTxDoneIrq(now: nat)
      requires Valid() && Enabled(Abs(), TxDoneIrq(now))
      modifies this, worker, modem, modem.fifo
      ensures Valid() && Abs() == Step(cfg, old(Abs()), TxDoneIrq(now))
    {
      worker.MediumState(Contention.TxDone, now);
      modem.OnTxDone();
      clock := now;
    }

    method OnRestart(r: Restarting)
      requires Valid() && Enabled(Abs(), Restart(r))
      modifies modem, worker
      ensures Valid() && Abs() == Step(cfg, old(Abs()), Restart(r))
    {
      StartRadio(r);
    }
  }
}
