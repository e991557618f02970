/**
 * The whole transmit system as one machine: the TCP thread's decoder, the packet queue, the queue
 * worker, the radio-event handlers and the modem. An event is one atomic section of one thread, and
 * carries everything that is not determined by the state: clock readings, random numbers, RSSI
 * verdicts, computed airtimes. An event that cannot occur in a state leaves the state alone, so
 * every event sequence is a run and every interleaving is an event sequence.
 */
module System {
  import opened Bytes
  import opened Frames
  import opened Contention
  import Kiss
  import Modem
  import Airtime

  /** Radio-dependent constants and the duty-cycle limits, fixed during a run. */
  datatype Config = Config(difs: nat, slot: nat, flush: bool, limits: Airtime.Limits)

  /** The TCP thread: its decoder and what is left of the chunk kiss_decode is working on. `chunks` and
      `heard` are history: the chunks read so far and the frames decoded so far. */
  datatype Host = Host(dec: Kiss.Dec, rest: seq<byte>, chunks: seq<seq<byte>>, heard: seq<seq<byte>>)

  /** Where the queue worker is: at the top of its loop, or between the two critical sections of
      send_packet, called from flush mode or not. */
  datatype Pc = Ready | Popping(flush: bool)

  /** What the worker and the radio-event handlers did, in order. */
  datatype Obs =
    | Polled(t: nat, free: bool)                                  // asked csma_medium_free
    | Skipped(t: nat)                                             // ticked without asking
    | Preamble(t: nat)
    | Header(t: nat)
    | Attempted(t: nat, flush: bool, target: nat, sent: bool)     // called send_packet

  datatype State = State(
    host: Host, queue: seq<seq<byte>>, pc: Pc, timers: Timers,
    modem: Modem.State, airtime: Airtime.State, wait: nat, clock: nat,
    pushed: seq<seq<byte>>, trace: seq<Obs>)

  /** The inputs of one worker iteration. `later` is the clock that csma_add_airtime reads and `armed` the
      one that send_packet reads behind rnode_to_air for the watchdog's deadline. */
  datatype Poll = Poll(now: nat, later: nat, armed: nat, interference: bool, random: nat, tag: byte, airtime: nat,
                       restart: Restarting)

  /** Whether sx126x_begin succeeds, and the timeouts rnode_start computes if it does. */
  datatype Restarting = Restarting(ok: bool, header: nat, data: nat)

  /** An iteration on a free medium whose clock readings agree and whose random numbers are 0. */
  function CalmPoll(now: nat): Poll {
    Poll(now, now, now, false, 0, 0, 0, Restarting(false, 0, 0))
  }

  datatype Event =
    | HostRead(chunk: seq<byte>)          // tcp_read passes a chunk to kiss_decode
    | HostByte                            // one iteration of kiss_decode's loop
    | Tick(poll: Poll)                    // queue_worker, up to the first half of send_packet
    | Pop(now: nat)                       // the second half of send_packet
    | Refresh(now: nat)                   // the worker's periodic csma_update_airtime
    | Medium(cause: Cause, now: nat)      // a receive-side radio event
    | TxDoneIrq(now: nat)                 // TX_DONE: medium callback, then rnode_tx_done
    | Restart(restart: Restarting)        // rnode_start called by the TCP thread

  /** After main has called queue_medium_state(CAUSE_INIT). A monotonic clock never reads 0, which the
      timers use for "not running"; 1 stands for the start of the run. */
  function Initial(): State {
    State(Host(Kiss.RESET, [], [], []), [], Ready, OnCause(BOOT, Init, 1),
          Modem.INITIAL, Airtime.Initial(), 0, 1, [], [])
  }

  // ---- the steps ----

  /** The CMD_DATA case of rnode_from_channel. Other commands do not touch this machine. */
  function Pushes(frame: seq<byte>): seq<seq<byte>> {
    if frame != [] && frame[0] == CMD_DATA then [frame[1..]] else []
  }

  function PushAll(frames: seq<seq<byte>>): seq<seq<byte>> {
    if frames == [] then [] else PushAll(frames[..|frames| - 1]) + Pushes(frames[|frames| - 1])
  }

  lemma {:induction false} PushAllOne(f: seq<byte>)
    ensures PushAll([f]) == Pushes(f)
  {
    assert [f][..0] == [];
    assert PushAll([f]) == [] + Pushes(f);
  }

  function ByteStep(s: State): State
    requires s.host.rest != []
  {
    var h := s.host;
    var f := Kiss.Feed(h.dec, h.rest[0]);
    s.(host := Host(f.state, if f.full then [] else h.rest[1..], h.chunks, h.heard + f.frames),
       queue := s.queue + PushAll(f.frames),
       pushed := s.pushed + PushAll(f.frames))
  }

  function StartRadio(s: State, r: Restarting): State {
    s.(modem := Modem.Start(s.modem, r.ok), timers := SetTimeouts(s.timers, r.ok, r.header, r.data))
  }

  /** rnode_to_air has a meaning for at most 508 bytes only. */
  predicate Sendable(s: State) {
    s.queue != [] ==> |s.queue[0]| <= PAYLOAD_MAX
  }

  /** send_packet up to its second critical section. */
  function TrySend(cfg: Config, s: State, i: Poll, flush: bool, target: nat): State
    requires s.queue != [] && Sendable(s) && Airtime.Shaped(s.airtime)
  {
    if Airtime.Locked(s.airtime, cfg.limits) then
      s.(timers := if flush then s.timers.(flushing := false) else s.timers,
         trace := s.trace + [Attempted(i.now, flush, target, false)])
    else
      s.(modem := Modem.ToAir(s.modem, s.queue[0], i.tag),
         airtime := Airtime.Add(s.airtime, i.later, i.airtime),
         wait := i.armed + 2 * i.airtime,
         pc := Popping(flush),
         clock := i.armed,
         trace := s.trace + [Attempted(i.now, flush, target, true)])
  }

  function Window(cfg: Config, s: State, i: Poll): nat
    requires Airtime.Shaped(s.airtime)
  {
    Airtime.ContentionWindow(s.airtime.cw, i.random, cfg.slot)
  }

  datatype Listened = Listened(state: State, send: bool, target: nat)

  /** The normal-mode branch of queue_worker. */
  function Polling(cfg: Config, s: State, i: Poll): Listened
    requires Airtime.Shaped(s.airtime)
  {
    var free := MediumFree(s.timers, i.interference);
    var window := Window(cfg, s, i);
    var r := Listen(s.timers, i.now, free, window, cfg.difs, cfg.flush);
    Listened(s.(timers := r.0, trace := s.trace + [Polled(i.now, free)]), r.1, Pick(s.timers, window).target)
  }

  /** One iteration of queue_worker. */
  function TickStep(cfg: Config, s: State, i: Poll): State
    requires Sendable(s) && Airtime.Shaped(s.airtime)
  {
    var s := s.(clock := i.now);
    if s.modem.radio == Modem.Tx then
      var t := s.(trace := s.trace + [Skipped(i.now)]);
      if i.now > s.wait then StartRadio(t, i.restart) else t
    else if s.timers.txEnable && s.queue != [] then
      if s.timers.flushing then TrySend(cfg, s, i, true, 0)
      else
        var l := Polling(cfg, s, i);
        if l.send then TrySend(cfg, l.state, i, false, l.target) else l.state
    else s.(timers := Inhibited(s.timers, i.now), trace := s.trace + [Skipped(i.now)])
  }

  function PopStep(s: State, now: nat): State
    requires s.pc.Popping? && s.queue != [] && Airtime.Shaped(s.airtime)
  {
    var queue := s.queue[1..];
    s.(queue := queue,
       pc := Ready,
       timers := if s.pc.flush && queue == [] then s.timers.(flushing := false) else s.timers,
       airtime := Airtime.Update(s.airtime, now),
       clock := now)
  }

  function MediumStep(s: State, cause: Cause, now: nat): State {
    s.(timers := OnCause(s.timers, cause, now),
       clock := now,
       trace := s.trace + match cause
                          case PreambleDetected => [Preamble(now)]
                          case HeaderValid => [Header(now)]
                          case _ => [])
  }

  /** Which events can occur: the worker is sequential, clock readings do not go back, kiss_decode
      finishes a chunk before the next is read, and TX_DONE comes only while transmitting. Worker
      iterations with a longer packet at the head of the queue are outside the model. */
  predicate Enabled(s: State, e: Event) {
    match e
    case HostRead(_) => s.host.rest == []
    case HostByte => s.host.rest != []
    case Tick(i) => s.pc.Ready? && Sendable(s) && s.clock <= i.now <= i.later <= i.armed
    case Pop(now) => s.pc.Popping? && s.queue != [] && s.clock <= now
    case Refresh(now) => s.pc.Ready? && s.clock <= now
    case Medium(cause, now) => cause !in {Init, TxDone} && s.clock <= now
    case TxDoneIrq(now) => s.modem.radio == Modem.Tx && s.clock <= now
    case Restart(_) => true
  }

  function Step(cfg: Config, s: State, e: Event): (t: State)
    requires Airtime.Shaped(s.airtime)
    ensures Airtime.Shaped(t.airtime)
  {
    if !Enabled(s, e) then s else
    match e
    case HostRead(chunk) => s.(host := s.host.(rest := chunk, chunks := s.host.chunks + [chunk]))
    case HostByte => ByteStep(s)
    case Tick(i) => TickStep(cfg, s, i)
    case Pop(now) => PopStep(s, now)
    case Refresh(now) => s.(airtime := Airtime.Update(s.airtime, now), clock := now)
    case Medium(cause, now) => MediumStep(s, cause, now)
    case TxDoneIrq(now) =>
      s.(timers := OnCause(s.timers, TxDone, now), modem := Modem.TxDone(s.modem), clock := now)
    case Restart(r) => StartRadio(s, r)
  }

  /** The state after a sequence of events. */
  function Run(cfg: Config, es: seq<Event>): (s: State)
    ensures Airtime.Shaped(s.airtime)
    decreases |es|
  {
    if es == [] then Initial() else Step(cfg, Run(cfg, es[..|es| - 1]), es[|es| - 1])
  }

  /** The state that a sequence of events leads to from s. */
  function RunFrom(cfg: Config, s: State, es: seq<Event>): (t: State)
    requires Airtime.Shaped(s.airtime)
    ensures Airtime.Shaped(t.airtime)
    decreases |es|
  {
    if es == [] then s else Step(cfg, RunFrom(cfg, s, es[..|es| - 1]), es[|es| - 1])
  }

  lemma {:induction false} RunAppend(cfg: Config, s: State, a: seq<Event>, b: seq<Event>)
    requires Airtime.Shaped(s.airtime)
    ensures RunFrom(cfg, s, a + b) == RunFrom(cfg, RunFrom(cfg, s, a), b)
    decreases |b|
  {
    if b == [] {
      assert a + b == a;
    } else {
      assert (a + b)[..|a + b| - 1] == a + b[..|b| - 1];
      RunAppend(cfg, s, a, b[..|b| - 1]);
    }
  }

  lemma {:induction false} RunIsFromInitial(cfg: Config, es: seq<Event>)
    ensures Run(cfg, es) == RunFrom(cfg, Initial(), es)
    decreases |es|
  {
    if es != [] { RunIsFromInitial(cfg, es[..|es| - 1]); }
  }

  lemma {:induction false} RunOne(cfg: Config, s: State, e: Event)
    requires Airtime.Shaped(s.airtime)
    ensures RunFrom(cfg, s, [e]) == Step(cfg, s, e)
  {
    assert [e][..|[e]| - 1] == [];
    assert RunFrom(cfg, s, []) == s;
  }

  lemma {:induction false} RunSnoc(cfg: Config, s: State, es: seq<Event>, e: Event)
    requires Airtime.Shaped(s.airtime)
    ensures RunFrom(cfg, s, es + [e]) == Step(cfg, RunFrom(cfg, s, es), e)
  {
    assert (es + [e])[..|es + [e]| - 1] == es;
  }

  lemma {:induction false} RunCons(cfg: Config, s: State, es: seq<Event>)
    requires Airtime.Shaped(s.airtime) && es != []
    ensures RunFrom(cfg, s, es) == RunFrom(cfg, Step(cfg, s, es[0]), es[1..])
  {
    assert es == [es[0]] + es[1..];
    RunOne(cfg, s, es[0]);
    RunAppend(cfg, s, [es[0]], es[1..]);
  }

  /** A run that goes on. */
  lemma {:induction false} RunContinues(cfg: Config, es: seq<Event>, more: seq<Event>)
    ensures Run(cfg, es + more) == RunFrom(cfg, Run(cfg, es), more)
  {
    RunIsFromInitial(cfg, es);
    RunIsFromInitial(cfg, es + more);
    RunAppend(cfg, Initial(), es, more);
  }
}
