/**
 * Listen before talk in src/queue.c: the DIFS and contention-window timers of the queue worker, flush
 * mode, and the transmit inhibition that radio events switch. `since`, `start` and `passed` are the
 * source's medium_free_since, cw_wait_start and cw_wait_passed; 0 means "not running". The source
 * subtracts them as uint64_t; the reachable-state invariant shows that no difference is negative.
 */
module Contention {

  datatype Cause = Init | PreambleDetected | HeaderValid | HeaderErr | RxDone | TxDone

  datatype Timers = Timers(
    txEnable: bool, dcd: bool,
    headerTimeout: nat, dataTimeout: nat, disabledUntil: nat,
    since: nat, start: nat, passed: int, target: nat, picked: bool, flushing: bool)

  /** The static initialisers. */
  const BOOT: Timers :=
    Timers(false, false, 0, 0, 0xFFFF_FFFF_FFFF_FFFF, 0, 0, 0, 0, false, false)

  /** queue_medium_state. */
  function OnCause(c: Timers, cause: Cause, now: nat): Timers {
    match cause
    case PreambleDetected =>
      c.(dcd := true, txEnable := false, flushing := false, disabledUntil := now + c.headerTimeout)
    case HeaderValid =>
      c.(dcd := true, txEnable := false, disabledUntil := now + c.dataTimeout)
    case _ =>
      c.(dcd := false, txEnable := true)
  }

  /** queue_set_busy_timeout, reached when rnode_start succeeds. */
  function SetTimeouts(c: Timers, ok: bool, header: nat, data: nat): Timers {
    if ok then c.(headerTimeout := header, dataTimeout := data) else c
  }

  /** csma_medium_free. */
  predicate MediumFree(c: Timers, interference: bool) {
    !interference && !c.dcd
  }

  /** What the worker does while transmission is inhibited. */
  function Inhibited(c: Timers, now: nat): Timers {
    if !c.txEnable && now >= c.disabledUntil then c.(txEnable := true, dcd := false) else c
  }

  function Pick(c: Timers, window: nat): Timers {
    if c.picked then c else c.(target := window, picked := true)
  }

  /** The normal-mode branch of the worker: the timers afterwards, and whether it goes on to send. */
  function Listen(c: Timers, now: nat, free: bool, window: nat, difs: nat, flush: bool): (Timers, bool) {
    var p := Pick(c, window);
    if !free then (p.(since := 0, start := 0), false)
    else if p.since == 0 then (p.(since := now), false)
    else if now - p.since < difs then (p, false)
    else
      var passed := if p.start == 0 then p.passed else p.passed + (now - p.start);
      if passed < p.target then (p.(start := now, passed := passed), false)
      else (p.(since := 0, start := 0, passed := 0, picked := false, flushing := p.flushing || flush), true)
  }

  /** The contention state of src/queue.c, in place. */
  class Worker {
    var txEnable: bool
    var dcd: bool
    var headerTimeout: nat
    var dataTimeout: nat
    var disabledUntil: nat
    var since: nat
    var start: nat
    var passed: int
    var target: nat
    var picked: bool
    var flushing: bool

    ghost function Abs(): Timers
      reads this
    {
      Timers(txEnable, dcd, headerTimeout, dataTimeout, disabledUntil,
             since, start, passed, target, picked, flushing)
    }

    constructor ()
      ensures Abs() == BOOT
    {
      txEnable, dcd := false, false;
      headerTimeout, dataTimeout, disabledUntil := 0, 0, 0xFFFF_FFFF_FFFF_FFFF;
      since, start, passed, target := 0, 0, 0, 0;
      picked, flushing := false, false;
    }

    method MediumState(cause: Cause, now: nat)
      modifies this
      ensures Abs() == OnCause(old(Abs()), cause, now)
    {
      match cause
      case Init | TxDone =>
        dcd := false;
        txEnable := true;
      case RxDone | HeaderErr =>
        dcd := false;
        txEnable := true;
      case PreambleDetected =>
        dcd := true;
        txEnable := false;
        flushing := false;
        disabledUntil := now + headerTimeout;
      case HeaderValid =>
        dcd := true;
        txEnable := false;
        disabledUntil := now + dataTimeout;
    }

    method SetBusyTimeout(header: nat, data: nat)
      modifies this
      ensures Abs() == SetTimeouts(old(Abs()), true, header, data)
    {
      headerTimeout := header;
      dataTimeout := data;
    }

    method WaitInhibited(now: nat)
      modifies this
      ensures Abs() == Inhibited(old(Abs()), now)
    {
      if !txEnable {
        if now >= disabledUntil {
          txEnable := true;
          dcd := false;
        }
      }
    }

    /** One normal-mode poll; `window` is what csma_get_cw would return now. */
    method Poll(now: nat, interference: bool, window: nat, difs: nat, flush: bool) returns (send: bool)
      modifies this
      ensures (Abs(), send) ==
              Listen(old(Abs()), now, MediumFree(old(Abs()), interference), window, difs, flush)
    {
      send := false;
      if !picked {
        target := window;
        picked := true;
      }
      if !interference && !dcd {
        if since == 0 {
          since := now;
        } else if now - since < difs {
          // still in DIFS wait
        } else {
          if start == 0 {
            start := now;
          } else {
            passed := passed + (now - start);
            start := now;
          }
          if passed >= target {
            since := 0;
            start := 0;
            passed := 0;
            picked := false;
            if flush {
              flushing := true;
            }
            send := true;
          }
        }
      } else {
        since := 0;
        start := 0;
      }
    }
  }
}
