/** Reading free-running hardware counters through 32-bit registers. */
module Counters {
  import opened Words

  // ---------------------------------------------------------------- a6xx_read_alwayson

  /** The counter's value over time. */
  ghost predicate Monotone(c: nat -> u64) { forall s, t :: s <= t ==> c(s) <= c(t) }

  /** A counter that takes every value in turn. */
  ghost predicate UnitSteps(c: nat -> u64) { forall t: nat :: c(t) <= c(t + 1) <= c(t) as int + 1 }

  lemma Apart(a: u64, b: u64)
    requires a <= b
    ensures Upper32(a) <= Upper32(b)
    ensures b - a < TWO32 ==> Upper32(b) <= Upper32(a) + 1
    ensures Upper32(a) == Upper32(b) ==> Lower32(a) <= Lower32(b)
  {
    JoinSplit(a);
    JoinSplit(b);
  }

  /** The GMU path, its registers read at times t0 to t3: the upper half is read again, and when it has
      moved the lower half too. The result never leaves the values the counter passed through, and when
      less than 2^32 ticks go by it is a value the counter held at one of the reads of the lower half. */
  method ReadAlwaysonGmu(c: nat -> u64, t0: nat, t1: nat, t2: nat, t3: nat) returns (r: u64)
    requires Monotone(c) && t0 <= t1 <= t2 <= t3
    ensures c(t0) <= r <= c(t3)
    ensures c(t3) - c(t0) < TWO32 ==> r == c(t1) || r == c(t3)
    ensures Upper32(c(t0)) == Upper32(c(t2)) ==> r == c(t1)
    ensures Upper32(c(t0)) != Upper32(c(t2)) ==> (r == c(t3) <==> Upper32(c(t3)) == Upper32(c(t2)))
  {
    var hi := Upper32(c(t0));
    var lo := Lower32(c(t1));
    var tmp := Upper32(c(t2));
    JoinSplit(c(t0));
    JoinSplit(c(t1));
    JoinSplit(c(t3));
    Apart(c(t0), c(t1));
    Apart(c(t1), c(t2));
    Apart(c(t2), c(t3));
    Apart(c(t0), c(t3));
    if hi != tmp {
      lo := Lower32(c(t3));
      hi := tmp;
    }
    return Join(lo, hi);
  }

  /** Without the GMU the lower half is read first and nothing is checked. The result is a value between
      the two reads unless the upper half moved; then it is 2^32 ticks ahead of the first read. */
  method ReadAlwaysonPlain(c: nat -> u64, t0: nat, t1: nat) returns (r: u64)
    requires Monotone(c) && t0 <= t1 && c(t1) - c(t0) < TWO32
    ensures c(t0) <= r <= c(t1) <==> Upper32(c(t0)) == Upper32(c(t1))
    ensures Upper32(c(t0)) == Upper32(c(t1)) ==> r == c(t0)
    ensures Upper32(c(t0)) != Upper32(c(t1)) ==> r == c(t0) + TWO32
  {
    var lo := Lower32(c(t0));
    var hi := Upper32(c(t1));
    JoinSplit(c(t0));
    JoinSplit(c(t1));
    Apart(c(t0), c(t1));
    return Join(lo, hi);
  }

  /** A counter whose carry falls between the two reads, one tick apart. */
  function Carrying(t: nat): u64 { if t == 0 then 0xFFFF_FFFF else 0x1_0000_0000 }

  /** The read that starts at time 0 then returns a value the counter never held. */
  method TornRead() returns (r: u64)
    ensures r == 0x1_FFFF_FFFF && forall t: nat :: Carrying(t) != r
  {
    assert Upper32(Carrying(0)) == 0 && Upper32(Carrying(1)) == 1;
    r := ReadAlwaysonPlain(Carrying, 0, 1);
  }

  lemma {:induction false} UnitStepsAreMonotone(c: nat -> u64, s: nat, t: nat)
    requires UnitSteps(c) && s <= t
    ensures c(s) <= c(t)
    decreases t - s
  {
    if s < t {
      UnitStepsAreMonotone(c, s, t - 1);
      assert c(t - 1) <= c(t - 1 + 1);
    }
  }

  /** A counter that counts by ones has held every value between two readings. So whatever the delays
      between its register reads, the GMU path returns a value the counter held during the call. */
  lemma {:induction false} EveryValueWasHeld(c: nat -> u64, s: nat, t: nat, v: u64) returns (w: nat)
    requires UnitSteps(c) && s <= t && c(s) <= v <= c(t)
    ensures s <= w <= t && c(w) == v
    decreases t - s
  {
    if c(s) == v {
      return s;
    }
    assert c(s) <= c(s + 1) <= c(s) + 1;
    w := EveryValueWasHeld(c, s + 1, t, v);
  }

  // ---------------------------------------------------------------- counter_delta

  /** One reading: the reported advance and the new stored value. A register number of 0 means that there
      is no counter. */
  method CounterDelta(reg: u32, counter: u32, val: u32) returns (ret: u32, counter': u32)
    ensures reg == 0 ==> ret == 0 && counter' == counter
    ensures reg != 0 ==> ret == Reported(counter, val) && counter' == val
  {
    ret, counter' := 0, counter;
    if reg == 0 {
      return;
    }
    if counter != 0 {
      if val >= counter {
        ret := val - counter;
      } else {
        ret := (0xFFFF_FFFF - counter) + val;
      }
    }
    counter' := val;
  }

  /** The advance of a 32-bit counter from a non-zero value, one short when it wrapped; 0 from a stored 0. */
  function Reported(was: u32, now: u32): u32 {
    if was == 0 then 0 else (now - was) % TWO32 - (if now < was then 1 else 0)
  }

  /** True counts, of which the register shows the lower half, never 2^32 or more apart. */
  ghost predicate Readings(ts: seq<nat>) {
    ts != [] && forall i :: 0 <= i < |ts| - 1 ==> ts[i] <= ts[i + 1] < ts[i] + TWO32
  }

  function Gap(was: int, now: int): int { now - was }

  function Shown(t: nat): u32 { t % TWO32 }

  ghost function ReportedSum(ts: seq<nat>): nat {
    if |ts| < 2 then 0 else ReportedSum(ts[..|ts| - 1]) + Reported(Shown(ts[|ts| - 2]), Shown(ts[|ts| - 1]))
  }

  /** How often the register wrapped after a non-zero reading. */
  ghost function Wraps(ts: seq<nat>): nat {
    if |ts| < 2 then 0
    else
      var was, now := Shown(ts[|ts| - 2]), Shown(ts[|ts| - 1]);
      Wraps(ts[..|ts| - 1]) + if was != 0 && now < was then 1 else 0
  }

  /** What the counter advanced in intervals that start at a stored zero. */
  ghost function FromZero(ts: seq<nat>): int {
    if |ts| < 2 then 0
    else FromZero(ts[..|ts| - 1]) + if Shown(ts[|ts| - 2]) == 0 then Gap(ts[|ts| - 2], ts[|ts| - 1]) else 0
  }

  lemma OneInterval(was: nat, now: nat)
    requires was <= now < was + TWO32 && Shown(was) != 0
    ensures now - was == Reported(Shown(was), Shown(now)) + if Shown(now) < Shown(was) then 1 else 0
  {
    var d := now - was;
    assert was == was / TWO32 * TWO32 + Shown(was);
    assert now == now / TWO32 * TWO32 + Shown(now);
    assert now / TWO32 - was / TWO32 == 0 || now / TWO32 - was / TWO32 == 1;
  }

  /** Over any run the reports add up to the true advance, except for one tick per wrap out of a non-zero
      reading and the whole advance of every interval that starts from a stored zero. */
  lemma {:induction false} DeltasAddUp(ts: seq<nat>)
    requires Readings(ts)
    ensures ReportedSum(ts) + Wraps(ts) + FromZero(ts) == Gap(ts[0], ts[|ts| - 1])
    ensures FromZero(ts) >= 0 && ReportedSum(ts) <= Gap(ts[0], ts[|ts| - 1])
    decreases |ts|
  {
    if |ts| >= 2 {
      var n := |ts| - 1;
      assert Readings(ts[..n]);
      DeltasAddUp(ts[..n]);
      assert ts[n - 1] <= ts[n - 1 + 1] < ts[n - 1] + TWO32;
      if Shown(ts[n - 1]) != 0 {
        OneInterval(ts[n - 1], ts[n]);
      }
    }
  }
}
