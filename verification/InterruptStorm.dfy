/** The A5xx interrupt-storm detector: a5xx_cp_callback counts interrupts that find the same reference
    timestamp and masks the interrupt; a5xx_irq_storm_worker unmasks it. */
module InterruptStorm {
  import opened Words

  /** How far the worker scheduled by the last suspension has come. */
  datatype Work = Idle | Scheduled | Unmasked

  /** masked: CACHE_FLUSH_TS is cleared in irq_mask. */
  datatype State = State(masked: bool, suspended: bool, count: u32, prev: u32, work: Work)

  datatype Event =
    | Interrupt(cur: u32)  // the handler runs and would read cur as ref_wait_ts
    | Unmask               // the worker sets the mask bit
    | Resume               // the worker clears the SUSPENDED flag
    | Start                // the device starts and resets irq_mask

  predicate Enabled(s: State, e: Event) {
    (e == Unmask ==> s.work == Scheduled) && (e == Resume ==> s.work == Unmasked)
  }

  function Next(s: State, e: Event): State {
    match e
    case Interrupt(cur) =>
      if s.suspended then s
      else if s.prev != cur then s.(count := 0, prev := cur)
      else
        var n := Inc(s.count);
        if n == 2 then s.(count := n, masked := true, suspended := true, work := Scheduled) else s.(count := n)
    case Unmask => s.(masked := false, work := Unmasked)
    case Resume => s.(suspended := false, work := Idle)
    case Start => s.(masked := false)
  }

  const BOOT := State(false, false, 0, 0, Idle)

  class Detector {
    var masked: bool
    var suspended: bool
    var count: u32
    var prev: u32
    ghost var work: Work

    ghost function View(): State
      reads this
    {
      State(masked, suspended, count, prev, work)
    }

    constructor ()
      ensures View() == BOOT
    {
      masked, suspended, count, prev, work := false, false, 0, 0, Idle;
    }

    /** dispatched: the handler went on to the preemption trigger and the dispatcher. */
    method CpCallback(cur: u32) returns (dispatched: bool)
      modifies this
      ensures View() == Next(old(View()), Interrupt(cur))
      ensures dispatched == (!old(suspended) && !suspended)
    {
      if suspended {
        return false;
      }
      if prev == cur {
        count := Inc(count);
        if count == 2 {
          suspended, masked, work := true, true, Scheduled;
          return false;
        }
      } else {
        count, prev := 0, cur;
      }
      return true;
    }

    /** Once the status bit has gone: the mask first, the flag second. */
    method StormWorker()
      requires Enabled(View(), Unmask)
      modifies this
      ensures View() == Next(Next(old(View()), Unmask), Resume)
    {
      masked, work := false, Unmasked;
      suspended, work := false, Idle;
    }
  }

  // ---------------------------------------------------------------- histories

  ghost function After(h: seq<Event>): State {
    if h == [] then BOOT else Next(After(h[..|h| - 1]), h[|h| - 1])
  }

  ghost predicate Possible(h: seq<Event>) {
    forall i :: 0 <= i < |h| ==> Enabled(After(h[..i]), h[i])
  }

  /** The values the handler read, after the initial 0 of its static variable. */
  ghost function Reads(h: seq<Event>): seq<u32> {
    if h == [] then [0]
    else
      var n := |h| - 1;
      Reads(h[..n]) + if h[n].Interrupt? && !After(h[..n]).suspended then [h[n].cur] else []
  }

  /** How often the last value has been read again without a change. */
  ghost function Repeats(vs: seq<u32>): nat {
    if |vs| < 2 || vs[|vs| - 1] != vs[|vs| - 2] then 0 else 1 + Repeats(vs[..|vs| - 1])
  }

  /** The i-th event suspends the interrupt. */
  ghost predicate SuspendsAt(h: seq<Event>, i: nat)
    requires i < |h|
  {
    !After(h[..i]).suspended && After(h[..i + 1]).suspended
  }

  lemma {:induction false} PossiblePrefix(h: seq<Event>, k: nat)
    requires Possible(h) && k <= |h|
    ensures Possible(h[..k])
  {
    forall i | 0 <= i < k ensures Enabled(After(h[..k][..i]), h[..k][i]) {
      assert h[..k][..i] == h[..i];
    }
  }

  predicate FlagsAgree(s: State) {
    (s.masked ==> s.suspended) && (s.suspended <==> s.work != Idle) && (s.work == Unmasked ==> !s.masked)
  }

  /** After every history: a masked interrupt is suspended, and suspended exactly while its worker is
      on the way. */
  lemma {:induction false} MaskedIsSuspended(h: seq<Event>)
    requires Possible(h)
    ensures FlagsAgree(After(h))
    decreases |h|
  {
    if h != [] {
      PossiblePrefix(h, |h| - 1);
      MaskedIsSuspended(h[..|h| - 1]);
      FlagsKept(After(h[..|h| - 1]), h[|h| - 1]);
    }
  }

  lemma FlagsKept(s: State, e: Event)
    requires FlagsAgree(s) && Enabled(s, e)
    ensures FlagsAgree(Next(s, e))
  {
  }

  /** After every history the counter is the number of repeats, modulo its width. */
  lemma {:induction false} CountIsRepeats(h: seq<Event>)
    ensures Reads(h) != [] && After(h).prev == Reads(h)[|Reads(h)| - 1] && After(h).count == Counted(Repeats(Reads(h)))
    decreases |h|
  {
    if h != [] {
      var n := |h| - 1;
      CountIsRepeats(h[..n]);
      if h[n].Interrupt? && !After(h[..n]).suspended {
        ReadsAgain(Reads(h[..n]), h[n].cur);
      } else {
        assert Reads(h) == Reads(h[..n]);
      }
    }
  }

  lemma ReadsAgain(vs: seq<u32>, v: u32)
    requires vs != []
    ensures Repeats(vs + [v]) == if v == vs[|vs| - 1] then 1 + Repeats(vs) else 0
  {
    assert (vs + [v])[..|vs|] == vs;
  }

  /** A counter incremented n times. */
  ghost function Counted(n: nat): u32 { if n == 0 then 0 else Inc(Counted(n - 1)) }

  lemma {:induction false} CountedIsMod(n: nat)
    ensures Counted(n) == n % TWO32
  {
    if n > 0 {
      CountedIsMod(n - 1);
      Wrapped(n - 1, (n - 1) / TWO32, (n - 1) % TWO32);
    }
  }

  lemma Wrapped(n: nat, q: nat, r: nat)
    requires n == q * TWO32 + r && r < TWO32
    ensures (n + 1) % TWO32 == Inc(r)
  {
    if r == TWO32 - 1 {
      Field(n + 1, TWO32, q + 1, 0);
    } else {
      Field(n + 1, TWO32, q, r + 1);
    }
  }

  /** An interrupt is suspended exactly when the handler has read the same value again for the second
      time, or for a number of times that wraps to two. */
  lemma SuspensionIffTwoRepeats(h: seq<Event>, i: nat)
    requires i < |h|
    ensures SuspendsAt(h, i) <==>
      h[i].Interrupt? && !After(h[..i]).suspended && Repeats(Reads(h[..i + 1])) % TWO32 == 2
  {
    CountIsRepeats(h[..i]);
    CountIsRepeats(h[..i + 1]);
    assert h[..i + 1][..i] == h[..i];
    if h[i].Interrupt? && !After(h[..i]).suspended {
      ReadsAgain(Reads(h[..i]), h[i].cur);
      CountedIsMod(Repeats(Reads(h[..i + 1])));
    }
  }

  /** A suspension masks the interrupt and sends the worker on its way; a start of the device unmasks it. */
  lemma SuspensionMasks(h: seq<Event>, i: nat)
    requires i < |h|
    ensures SuspendsAt(h, i) ==> After(h[..i + 1]).masked && After(h[..i + 1]).work == Scheduled
    ensures h[i] == Start || h[i] == Unmask ==> !After(h[..i + 1]).masked
  {
    assert h[..i + 1][..i] == h[..i];
  }

  /** Event k neither starts the device nor suspends the interrupt again. */
  ghost predicate Calm(h: seq<Event>, k: nat)
    requires k < |h|
  {
    h[k] != Start && !SuspendsAt(h, k)
  }

  /** From a suspension on the interrupt is masked exactly until the worker unmasks it. */
  lemma {:induction false} MaskedUntilUnmask(h: seq<Event>, i: nat, j: nat)
    requires i < j <= |h| && SuspendsAt(h, i) && forall k :: i < k < j ==> Calm(h, k)
    ensures After(h[..j]).masked <==> forall k :: i < k < j ==> h[k] != Unmask
    decreases j
  {
    if j == i + 1 {
      SuspensionMasks(h, i);
    } else {
      MaskedUntilUnmask(h, i, j - 1);
      assert Calm(h, j - 1);
      assert h[..j][..j - 1] == h[..j - 1];
    }
  }

  /** Hence its last three reads agree. */
  lemma LastReadsAgree(vs: seq<u32>)
    requires Repeats(vs) % TWO32 == 2
    ensures |vs| >= 3 && vs[|vs| - 1] == vs[|vs| - 2] == vs[|vs| - 3]
  {
    var ws := vs[..|vs| - 1];
    assert Repeats(vs) >= 2 && Repeats(ws) >= 1;
  }

  lemma {:induction false} ReadsGrow(h: seq<Event>, k: nat)
    requires k <= |h|
    ensures |Reads(h[..k])| <= |Reads(h)| && Reads(h)[..|Reads(h[..k])|] == Reads(h[..k])
    decreases |h|
  {
    if k == |h| {
      assert h[..k] == h;
    } else {
      var n := |h| - 1;
      ReadsGrow(h[..n], k);
      assert h[..n][..k] == h[..k];
    }
  }

  lemma {:induction false} RepeatsWithoutChange(vs: seq<u32>, k: nat)
    requires 0 < k <= |vs| && forall i :: k <= i < |vs| ==> vs[i] == vs[i - 1]
    ensures Repeats(vs) == Repeats(vs[..k]) + |vs| - k
    decreases |vs|
  {
    if k < |vs| {
      RepeatsWithoutChange(vs[..|vs| - 1], k);
      assert vs[..|vs| - 1][..k] == vs[..k];
    } else {
      assert vs[..k] == vs;
    }
  }

  /** A handler that runs unsuspended adds a read to all earlier ones. */
  lemma MoreReads(h: seq<Event>, i: nat, j: nat)
    requires i <= j < |h| && h[j].Interrupt? && !After(h[..j]).suspended
    ensures |Reads(h[..i])| < |Reads(h[..j + 1])| && Reads(h[..j + 1])[..|Reads(h[..i])|] == Reads(h[..i])
  {
    ReadsGrow(h[..j], i);
    assert h[..j][..i] == h[..i];
    assert h[..j + 1][..j] == h[..j];
  }

  /** Between two suspensions the handler reads a changed timestamp, or makes the counter wrap. */
  lemma SuspensionsAreSeparated(h: seq<Event>, i: nat, j: nat)
    requires i < j < |h| && SuspendsAt(h, i) && SuspendsAt(h, j)
    ensures var a, b := Reads(h[..i + 1]), Reads(h[..j + 1]);
      && 0 < |a| < |b| && b[..|a|] == a
      && ((exists k :: |a| <= k < |b| && b[k] != b[k - 1]) || |b| - |a| >= TWO32)
  {
    SuspensionIffTwoRepeats(h, i);
    SuspensionIffTwoRepeats(h, j);
    MoreReads(h, i + 1, j);
    LastReadsAgree(Reads(h[..i + 1]));
    ChangeOrWrap(Reads(h[..i + 1]), Reads(h[..j + 1]));
  }

  lemma ChangeOrWrap(a: seq<u32>, b: seq<u32>)
    requires 0 < |a| < |b| && b[..|a|] == a && Repeats(a) % TWO32 == 2 && Repeats(b) % TWO32 == 2
    ensures (exists k :: |a| <= k < |b| && b[k] != b[k - 1]) || |b| - |a| >= TWO32
  {
    if forall k :: |a| <= k < |b| ==> b[k] == b[k - 1] {
      RepeatsWithoutChange(b, |a|);
      WrapsAround(Repeats(a), |b| - |a|);
    }
  }

  lemma WrapsAround(n: nat, d: nat)
    requires d > 0 && n % TWO32 == 2 && (n + d) % TWO32 == 2
    ensures d >= TWO32
  {
  }
}
