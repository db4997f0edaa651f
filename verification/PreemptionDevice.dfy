/** The A5xx preemption handlers as they update the device, each proved to take the protocol step of
    the same name. Ring fields, the preemption state, cur_rb / next_rb / prev_rb and the registers
    are assigned one by one in the order of the source; the transient states START and PENDING
    appear only inside a handler. */
module PreemptionDevice {
  import opened PreemptionProtocol
  import opened Wrappers

  class Device {
    var rings: seq<Ring>
    var preempt: PreemptState
    var curRb: nat
    var nextRb: Option<nat>
    var prevRb: Option<nat>
    var active: nat        // the ring the CP fetches from
    var hwWptr: nat        // CP_RB_WPTR
    var switchCntl: Phase  // CP_CONTEXT_SWITCH_CNTL
    var restoreRb: nat     // CP_CONTEXT_SWITCH_RESTORE_ADDR
    var faults: nat        // preemption faults handed to the dispatcher

    /** What the protocol sees of the device. */
    ghost function View(): State
      reads this
    {
      State(rings, preempt, curRb, nextRb, Cp(active, hwWptr, switchCntl, restoreRb))
    }

    ghost predicate Valid()
      reads this
    {
      Bounded(View())
    }

    /** Power-up on ring c of n rings. */
    constructor (n: nat, c: nat)
      requires c < n
      ensures Valid() && Init(View()) && Inv(View()) && |rings| == n && curRb == c
    {
      rings := seq(n, _ => Ring(0, 0, 0, 0));
      preempt, curRb, nextRb, prevRb := NONE, c, None, None;
      active, hwWptr, switchCntl, restoreRb, faults := c, 0, Idle, c, 0;
    }

    /** Compare-and-exchange on the preemption state. */
    method MovePreemptState(was: PreemptState, to: PreemptState) returns (moved: bool)
      modifies this`preempt
      ensures moved == (old(preempt) == was)
      ensures preempt == if moved then to else old(preempt)
    {
      moved := preempt == was;
      if moved {
        preempt := to;
      }
    }

    /** Leaves the hardware WPTR at the current ring's wptr; the dispatch timer restarts when asked to
        or when something was submitted unseen. */
    method UpdateHardwareWptr(resetTimer: bool) returns (restarted: bool)
      requires curRb < |rings|
      modifies this`hwWptr
      ensures hwWptr == rings[curRb].wptr
      ensures restarted == (resetTimer || old(hwWptr) != rings[curRb].wptr)
    {
      restarted := resetTimer;
      if hwWptr != rings[curRb].wptr {
        hwWptr := rings[curRb].wptr;
        restarted := true;
      }
    }

    /** The lowest-index ring whose shadow read pointer has not reached its wptr. */
    method NextRingbuffer() returns (next: Option<nat>)
      ensures match next
              case None => forall k :: 0 <= k < |rings| ==> Empty(rings[k])
              case Some(n) => LowestBusy(rings, n)
      ensures next == FirstBusy(rings, 0)
    {
      var i := 0;
      while i < |rings|
        invariant 0 <= i <= |rings|
        invariant forall k :: 0 <= k < i ==> Empty(rings[k])
        invariant FirstBusy(rings, 0) == FirstBusy(rings, i)
      {
        if !Empty(rings[i]) {
          return Some(i);
        }
        i := i + 1;
      }
      return None;
    }

    method PreemptionTrigger()
      requires Valid()
      modifies this`rings, this`preempt, this`nextRb, this`hwWptr, this`restoreRb, this`switchCntl
      ensures View() == Trigger(old(View()))
      ensures Valid()
    {
      var claimed := MovePreemptState(NONE, START);
      if !claimed {
        return;
      }
      var next := NextRingbuffer();
      if next.None? || next.value == curRb {
        if next.Some? {
          var _ := UpdateHardwareWptr(false);
        }
        preempt := NONE;
        return;
      }
      var n := next.value;
      rings := rings[n := rings[n].(record := rings[n].wptr)];
      restoreRb := n;
      nextRb := Some(n);
      preempt := TRIGGERED;
      switchCntl := Requested;
    }

    /** The common end of a successful switch. */
    method AdoptNext()
      requires Valid() && nextRb.Some? && nextRb.value < |rings|
      modifies this`prevRb, this`curRb, this`nextRb, this`hwWptr, this`preempt
      ensures View() == Finish(old(View()))
      ensures prevRb == Some(old(curRb)) && Valid()
    {
      prevRb := Some(curRb);
      curRb := nextRb.value;
      nextRb := None;
      var _ := UpdateHardwareWptr(true);
      preempt := NONE;
    }

    method PreemptCallback()
      requires Valid()
      modifies this
      ensures View() == Callback(old(View()))
      ensures Valid() && faults == old(faults)
    {
      var claimed := MovePreemptState(TRIGGERED, PENDING);
      if !claimed {
        return;
      }
      if switchCntl != Idle {
        preempt := COMPLETE;
        return;
      }
      AdoptNext();
      PreemptionTrigger();
    }

    method PreemptionDone(awake: bool)
      requires Valid() && preempt == COMPLETE
      modifies this
      ensures View() == Done(old(View()), awake)
      ensures Valid() && faults == old(faults) + (if awake && old(switchCntl) != Idle then 1 else 0)
    {
      if !awake {
        return;
      }
      if switchCntl != Idle {
        faults := faults + 1;
        return;
      }
      AdoptNext();
    }

    method PreemptionSchedule(enabled: bool, awake: bool)
      requires Valid()
      modifies this
      ensures View() == if enabled then Schedule(old(View()), awake) else old(View())
      ensures Valid()
    {
      if !enabled {
        return;
      }
      if preempt == COMPLETE {
        PreemptionDone(awake);
      }
      PreemptionTrigger();
    }

    method PreemptionWorker(awake: bool)
      requires Valid()
      modifies this`preempt, this`faults
      ensures View() == FaultWorker(old(View()), awake)
      ensures Valid()
      ensures faults == old(faults) + (if old(preempt) == FAULTED && preempt == FAULTED then 1 else 0)
    {
      if preempt == FAULTED {
        if awake {
          if switchCntl == Idle {
            preempt := COMPLETE;
            return;
          }
        }
        faults := faults + 1;
      }
    }

    method PreemptionTimer()
      requires Valid()
      modifies this`preempt
      ensures View() == Timer(old(View()))
      ensures Valid()
    {
      var _ := MovePreemptState(TRIGGERED, FAULTED);
    }

    /** The locked part of a submission: ring the doorbell only when no switch is in progress and the
        ring is current; remember the new write pointer in any case. */
    method RingbufferSubmit(rb: nat, wptr: nat)
      requires Valid() && rb < |rings|
      modifies this`hwWptr, this`rings
      ensures View() == Submit(old(View()), rb, wptr)
      ensures Valid()
    {
      if preempt == NONE {
        if curRb == rb {
          hwWptr := wptr;
        }
      }
      rings := rings[rb := rings[rb].(wptr := wptr)];
    }

    /** a5xx_rb_start clears the rings and a5xx_preemption_start the records, on the ring recovery
        selected; the preemption state is forced to NONE and next_rb is not touched. */
    method Restart(c: nat)
      requires Valid() && c < |rings|
      modifies this`rings, this`preempt, this`curRb, this`active, this`hwWptr, this`switchCntl
      ensures View() == Reset(old(View()), c)
      ensures Valid()
    {
      curRb, active, hwWptr, switchCntl := c, c, 0, Idle;
      preempt := NONE;
      var i := 0;
      var n := |rings|;
      while i < n
        invariant 0 <= i <= n == |rings|
        invariant forall k :: 0 <= k < i ==> rings[k] == Ring(0, 0, 0, 0)
        modifies this`rings
      {
        rings := rings[i := Ring(0, 0, 0, 0)];
        i := i + 1;
      }
      assert rings == Reset(old(View()), c).rings;
    }
  }
}
