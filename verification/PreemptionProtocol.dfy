/** The A5xx preemption protocol as a transition system.

    The driver side (submit path, CP_SW interrupt, dispatcher, fault worker, timer) and the CP
    side (consume, report the read pointer, switch rings, clear CONTEXT_SWITCH_CNTL) share the
    preemption state, the current and next ring, the per-ring write pointers and preemption
    records, and the single hardware WPTR register. Every handler, and the part of submit under
    preempt_lock, is one atomic step. Positions are counted from the last reset and never wrap;
    RingSpace relates them to positions in the circular buffer. */
module PreemptionProtocol {
  import opened Wrappers

  datatype PreemptState = NONE | START | TRIGGERED | FAULTED | PENDING | COMPLETE

  /** wptr: what the driver has submitted; record: the wptr field of the ring's preemption record;
      consumed: what the CP has executed; rptr: the shadow read pointer in scratch memory. */
  datatype Ring = Ring(wptr: nat, record: nat, consumed: nat, rptr: nat)

  /** CONTEXT_SWITCH_CNTL reads as zero exactly in phase Idle. */
  datatype Phase = Idle | Requested | Loaded

  /** The CP: the ring it fetches from, its WPTR register, the switch phase, and the ring whose
      record CONTEXT_SWITCH_RESTORE_ADDR points at. */
  datatype Cp = Cp(active: nat, wptr: nat, phase: Phase, restore: nat)

  datatype State = State(rings: seq<Ring>, pre: PreemptState, cur: nat, next: Option<nat>, cp: Cp)

  // ---------------------------------------------------------------- driver steps

  predicate Empty(r: Ring) { r.rptr == r.wptr }

  /** The ring the scan from index i on finds first. */
  function FirstBusy(rings: seq<Ring>, i: nat): Option<nat>
    requires i <= |rings|
    decreases |rings| - i
  {
    if i == |rings| then None
    else if !Empty(rings[i]) then Some(i)
    else FirstBusy(rings, i + 1)
  }

  predicate Bounded(s: State) {
    s.cur < |s.rings| && s.cp.active < |s.rings| && s.cp.restore < |s.rings|
    && (s.pre != NONE && s.pre != START ==> s.next.Some? && s.next.value < |s.rings|)
  }

  function UpdateWptr(s: State): State
    requires Bounded(s)
  {
    s.(cp := s.cp.(wptr := s.rings[s.cur].wptr))
  }

  function StartSwitch(s: State, n: nat): State
    requires n < |s.rings|
  {
    s.(rings := s.rings[n := s.rings[n].(record := s.rings[n].wptr)],
    next := Some(n), pre := TRIGGERED,
    cp := s.cp.(restore := n, phase := Requested))
  }

  function Trigger(s: State): State
    requires Bounded(s)
  {
    if s.pre != NONE then s
    else match FirstBusy(s.rings, 0)
      case None => s
      case Some(n) =>
        if n == s.cur then UpdateWptr(s)
        else FirstBusyInRange(s.rings, 0); StartSwitch(s, n)
  }

  function Finish(s: State): State
    requires Bounded(s) && s.next.Some? && s.next.value < |s.rings|
  {
    UpdateWptr(s.(cur := s.next.value, next := None, pre := NONE))
  }

  function Callback(s: State): State
    requires Bounded(s)
  {
    if s.pre != TRIGGERED then s
    else if s.cp.phase != Idle then s.(pre := COMPLETE)
    else Trigger(Finish(s))
  }

  function Done(s: State, awake: bool): State
    requires Bounded(s)
  {
    if s.pre == COMPLETE && awake && s.cp.phase == Idle then Finish(s) else s
  }

  function Schedule(s: State, awake: bool): State
    requires Bounded(s)
  {
    Trigger(Done(s, awake))
  }

  function FaultWorker(s: State, awake: bool): State {
    if s.pre == FAULTED && awake && s.cp.phase == Idle then s.(pre := COMPLETE) else s
  }

  function Timer(s: State): State {
    if s.pre == TRIGGERED then s.(pre := FAULTED) else s
  }

  function Submit(s: State, r: nat, w: nat): State
    requires r < |s.rings|
  {
    s.(rings := s.rings[r := s.rings[r].(wptr := w)],
    cp := if s.pre == NONE && s.cur == r then s.cp.(wptr := w) else s.cp)
  }

  /** Recovery restarts the rings, the records and the CP on ring c; next is left as it was. */
  function Reset(s: State, c: nat): State
    requires c < |s.rings|
  {
    s.(rings := seq(|s.rings|, _ => Ring(0, 0, 0, 0)), pre := NONE, cur := c,
    cp := s.cp.(active := c, wptr := 0, phase := Idle))
  }

  // ---------------------------------------------------------------- CP steps

  function Consume(s: State, p: nat): State
    requires Bounded(s)
  {
    s.(rings := s.rings[s.cp.active := s.rings[s.cp.active].(consumed := p)])
  }

  function Report(s: State, r: nat, p: nat): State
    requires r < |s.rings|
  {
    s.(rings := s.rings[r := s.rings[r].(rptr := p)])
  }

  /** The CP saves its WPTR in the outgoing record and loads the incoming one. */
  function SwitchRings(s: State): State
    requires Bounded(s)
  {
    var out := s.rings[s.cp.active].(record := s.cp.wptr);
    var rings := s.rings[s.cp.active := out];
    s.(rings := rings,
    cp := s.cp.(active := s.cp.restore, wptr := rings[s.cp.restore].record, phase := Loaded))
  }

  // ---------------------------------------------------------------- runs

  datatype Label =
    | LTrigger
    | LCallback
    | LSchedule(awake: bool)
    | LWorker(awake: bool)
    | LTimer
    | LSubmit(r: nat, w: nat)
    | LReset(c: nat)
    | LConsume(p: nat)
    | LReport(r: nat, p: nat)
    | LSwitch
    | LSwitchDone

  predicate Enabled(s: State, l: Label)
    requires Bounded(s)
  {
    match l
    case LSubmit(r, w) => r < |s.rings| && s.rings[r].wptr <= w
    case LReset(c) => c < |s.rings|
    case LConsume(p) => s.rings[s.cp.active].consumed <= p <= s.cp.wptr
    case LReport(r, p) => r < |s.rings| && s.rings[r].rptr <= p <= s.rings[r].consumed
    case LSwitch => s.cp.phase == Requested
    case LSwitchDone => s.cp.phase == Loaded
    case _ => true
  }

  function Next(s: State, l: Label): State
    requires Bounded(s) && Enabled(s, l)
  {
    match l
    case LTrigger => Trigger(s)
    case LCallback => Callback(s)
    case LSchedule(awake) => Schedule(s, awake)
    case LWorker(awake) => FaultWorker(s, awake)
    case LTimer => Timer(s)
    case LSubmit(r, w) => Submit(s, r, w)
    case LReset(c) => Reset(s, c)
    case LConsume(p) => Consume(s, p)
    case LReport(r, p) => Report(s, r, p)
    case LSwitch => SwitchRings(s)
    case LSwitchDone => s.(cp := s.cp.(phase := Idle))
  }

  /** ss is a run driven by ls: one state more than labels, and each label leads to the next state. */
  ghost predicate Run(ss: seq<State>, ls: seq<Label>) {
    && |ss| == |ls| + 1
    && forall i :: 0 <= i < |ls| ==> StepBy(ss[i], ls[i], ss[i + 1])
  }

  ghost predicate StepBy(s: State, l: Label, t: State) {
    Bounded(s) && Enabled(s, l) && t == Next(s, l)
  }

  /** Power-up: nothing submitted, the CP on the current ring. */
  predicate Init(s: State) {
    && s.cur < |s.rings| && s.cp.restore < |s.rings|
    && s.rings == seq(|s.rings|, _ => Ring(0, 0, 0, 0))
    && s.pre == NONE && s.cp.active == s.cur && s.cp.wptr == 0 && s.cp.phase == Idle
  }

  // ---------------------------------------------------------------- the invariant

  /** How far the CP can fetch on ring r without further action of the driver. */
  function Visible(s: State, r: nat): nat
    requires r < |s.rings|
  {
    if r == s.cp.active then s.cp.wptr else s.rings[r].record
  }

  predicate RingOrdered(s: State, r: nat)
    requires r < |s.rings|
  {
    s.rings[r].rptr <= s.rings[r].consumed <= Visible(s, r) <= s.rings[r].wptr
    && s.rings[r].record <= s.rings[r].wptr
  }

  ghost predicate Rings(s: State) {
    forall r :: 0 <= r < |s.rings| ==> RingOrdered(s, r)
  }

  predicate Settled(s: State)
    requires Bounded(s)
  {
    s.cp.phase == Idle && s.cp.active == s.cur && s.cp.wptr == s.rings[s.cur].wptr
  }

  predicate Switching(s: State)
    requires Bounded(s)
  {
    && s.next.Some? && s.next.value < |s.rings| && s.next.value != s.cur
    && s.cp.restore == s.next.value
    && s.cp.active == (if s.cp.phase == Requested then s.cur else s.next.value)
  }

  ghost predicate Inv(s: State) {
    && Bounded(s)
    && Rings(s)
    && s.pre != START && s.pre != PENDING
    && (if s.pre == NONE then Settled(s) else Switching(s))
  }

  lemma FirstBusyInRange(rings: seq<Ring>, i: nat)
    requires i <= |rings|
    ensures match FirstBusy(rings, i)
            case None => forall k :: i <= k < |rings| ==> Empty(rings[k])
            case Some(n) => i <= n < |rings| && !Empty(rings[n])
                            && forall k :: i <= k < n ==> Empty(rings[k])
    decreases |rings| - i
  {
  }

  lemma TriggerKeepsInv(s: State)
    requires Inv(s)
    ensures Inv(Trigger(s))
  {
    FirstBusyInRange(s.rings, 0);
    var t := Trigger(s);
    forall r | 0 <= r < |t.rings| ensures RingOrdered(t, r) {
      assert RingOrdered(s, r);
    }
  }

  lemma FinishKeepsInv(s: State)
    requires Inv(s) && s.pre != NONE && s.cp.phase == Idle
    ensures Inv(Finish(s))
  {
    var t := Finish(s);
    forall r | 0 <= r < |t.rings| ensures RingOrdered(t, r) {
      assert RingOrdered(s, r);
    }
  }

  lemma CpKeepsInv(s: State, l: Label)
    requires Inv(s) && Enabled(s, l)
    requires l.LConsume? || l.LReport? || l.LSwitch? || l.LSwitchDone? || l.LSubmit? || l.LReset?
    ensures Inv(Next(s, l))
  {
    var t := Next(s, l);
    forall r | 0 <= r < |t.rings| ensures RingOrdered(t, r) {
      assert RingOrdered(s, r);
    }
  }

  lemma StepKeepsInv(s: State, l: Label)
    requires Inv(s) && Enabled(s, l)
    ensures Inv(Next(s, l))
  {
    match l
    case LTrigger => TriggerKeepsInv(s);
    case LCallback =>
      if s.pre == TRIGGERED && s.cp.phase == Idle {
        FinishKeepsInv(s);
        TriggerKeepsInv(Finish(s));
      } else {
        assert forall r :: 0 <= r < |s.rings| ==> RingOrdered(s, r) ==> RingOrdered(Next(s, l), r);
      }
    case LSchedule(awake) =>
      if Done(s, awake) != s {
        FinishKeepsInv(s);
      }
      TriggerKeepsInv(Done(s, awake));
    case LWorker(_) =>
      assert forall r :: 0 <= r < |s.rings| ==> RingOrdered(s, r) ==> RingOrdered(Next(s, l), r);
    case LTimer =>
      assert forall r :: 0 <= r < |s.rings| ==> RingOrdered(s, r) ==> RingOrdered(Next(s, l), r);
    case _ => CpKeepsInv(s, l);
  }

  lemma {:induction false} RunKeepsInv(ss: seq<State>, ls: seq<Label>, i: nat)
    requires Run(ss, ls) && Inv(ss[0]) && i < |ss|
    ensures Inv(ss[i])
  {
    if i > 0 {
      RunKeepsInv(ss, ls, i - 1);
      assert StepBy(ss[i - 1], ls[i - 1], ss[i]);
      StepKeepsInv(ss[i - 1], ls[i - 1]);
    }
  }

  // ---------------------------------------------------------------- no submission is lost

  /** In every state of every run from power-up: with no switch in progress the CP is on the current
      ring and its WPTR covers everything submitted to it, and on every ring
      reported <= consumed <= visible <= submitted. */
  lemma NoSubmissionLost(ss: seq<State>, ls: seq<Label>, i: nat)
    requires Run(ss, ls) && Init(ss[0]) && i < |ss|
    ensures Bounded(ss[i])
    ensures ss[i].pre == NONE ==> ss[i].cp.active == ss[i].cur && ss[i].cp.wptr == ss[i].rings[ss[i].cur].wptr
    ensures ss[i].pre in {TRIGGERED, FAULTED, COMPLETE} ==> ss[i].next.Some? && ss[i].next.value != ss[i].cur
    ensures forall r :: 0 <= r < |ss[i].rings| ==>
      ss[i].rings[r].rptr <= ss[i].rings[r].consumed <= Visible(ss[i], r) <= ss[i].rings[r].wptr
  {
    assert Inv(ss[0]);
    RunKeepsInv(ss, ls, i);
    forall r | 0 <= r < |ss[i].rings|
      ensures ss[i].rings[r].rptr <= ss[i].rings[r].consumed <= Visible(ss[i], r) <= ss[i].rings[r].wptr
    {
      assert RingOrdered(ss[i], r);
    }
  }

  /** Work for ring r, submitted up to w, that the CP will pick up without a new submission: if a
      switch to r was started after w was submitted, the CP sees w at switch-in. */
  predicate Carries(s: State, r: nat, w: nat) {
    && r < |s.rings| && w <= s.rings[r].wptr
    && (s.pre != NONE && s.next == Some(r) ==> w <= Visible(s, r))
  }

  lemma StepCarries(s: State, l: Label, r: nat, w: nat)
    requires Inv(s) && Enabled(s, l) && !l.LReset?
    requires Carries(s, r, w)
    ensures Carries(Next(s, l), r, w)
  {
    FirstBusyInRange(s.rings, 0);
    if s.pre != NONE {
      FirstBusyInRange(Finish(s).rings, 0);
    }
  }

  /** Work submitted to r up to w while no switch towards r is in flight stays recoverable: at every
      later moment before a reset, if a switch to r is in progress its record (or, once loaded, the
      hardware WPTR) covers w, and if r is current with no switch in progress the CP is on r and
      the hardware WPTR covers w. */
  lemma QueuedWorkIsCarried(ss: seq<State>, ls: seq<Label>, i: nat, j: nat, r: nat, w: nat)
    requires Run(ss, ls) && Init(ss[0]) && i <= j < |ss|
    requires forall k :: i <= k < j ==> !ls[k].LReset?
    requires r < |ss[i].rings| && w <= ss[i].rings[r].wptr
    requires ss[i].pre == NONE || ss[i].next != Some(r)
    ensures Bounded(ss[j]) && r < |ss[j].rings| && w <= ss[j].rings[r].wptr
    ensures ss[j].pre != NONE && ss[j].next == Some(r) ==> w <= Visible(ss[j], r)
    ensures ss[j].pre == NONE && ss[j].cur == r ==> ss[j].cp.active == r && w <= ss[j].cp.wptr
  {
    CarriedAlongRun(ss, ls, i, j, r, w);
    NoSubmissionLost(ss, ls, j);
  }

  lemma {:induction false} CarriedAlongRun(ss: seq<State>, ls: seq<Label>, i: nat, j: nat, r: nat, w: nat)
    requires Run(ss, ls) && Init(ss[0]) && i <= j < |ss|
    requires forall k :: i <= k < j ==> !ls[k].LReset?
    requires Carries(ss[i], r, w)
    ensures Carries(ss[j], r, w)
    decreases j
  {
    if i < j {
      CarriedAlongRun(ss, ls, i, j - 1, r, w);
      assert !ls[j - 1].LReset?;
      assert Inv(ss[0]);
      RunKeepsInv(ss, ls, j - 1);
      assert StepBy(ss[j - 1], ls[j - 1], ss[j]);
      StepCarries(ss[j - 1], ls[j - 1], r, w);
    }
  }

  /** Work submitted to the very ring a switch is moving to, during that switch, skipped both the
      doorbell and the record; whenever the protocol next rests on that ring it is visible. */
  lemma MidSwitchWorkIsRecovered(ss: seq<State>, ls: seq<Label>, i: nat, j: nat, r: nat, w: nat)
    requires Run(ss, ls) && Init(ss[0]) && i <= j < |ss|
    requires forall k :: i <= k < j ==> !ls[k].LReset?
    requires r < |ss[i].rings| && w <= ss[i].rings[r].wptr
    ensures Bounded(ss[j]) && r < |ss[j].rings| && w <= ss[j].rings[r].wptr
    ensures ss[j].pre == NONE && ss[j].cur == r ==> ss[j].cp.active == r && w <= ss[j].cp.wptr
  {
    WptrGrows(ss, ls, i, j, r);
    NoSubmissionLost(ss, ls, j);
  }

  lemma {:induction false} WptrGrows(ss: seq<State>, ls: seq<Label>, i: nat, j: nat, r: nat)
    requires Run(ss, ls) && Init(ss[0]) && i <= j < |ss|
    requires forall k :: i <= k < j ==> !ls[k].LReset?
    requires r < |ss[i].rings|
    ensures r < |ss[j].rings| && ss[i].rings[r].wptr <= ss[j].rings[r].wptr
    decreases j
  {
    if i < j {
      WptrGrows(ss, ls, i, j - 1, r);
      assert Inv(ss[0]);
      RunKeepsInv(ss, ls, j - 1);
      assert StepBy(ss[j - 1], ls[j - 1], ss[j]);
      FirstBusyInRange(ss[j - 1].rings, 0);
      if ss[j-1].next.Some? && ss[j-1].next.value < |ss[j-1].rings| {
        FirstBusyInRange(Finish(ss[j - 1]).rings, 0);
      }
    }
  }

  // ---------------------------------------------------------------- the trigger heals and picks by priority

  ghost predicate LowestBusy(rings: seq<Ring>, n: nat) {
    n < |rings| && !Empty(rings[n]) && forall k :: 0 <= k < n ==> Empty(rings[k])
  }

  /** Whatever the hardware WPTR holds, a trigger from NONE ends in one of three ways. */
  lemma TriggerHeals(s: State)
    requires Bounded(s) && s.pre == NONE
    ensures var t := Trigger(s);
      || (t.pre == TRIGGERED && t.next.Some? && LowestBusy(s.rings, t.next.value) && t.next.value != t.cur
          && t.rings[t.next.value].record == s.rings[t.next.value].wptr && t.cp.phase == Requested
          && t.cp.restore == t.next.value)
      || (t.pre == NONE && t == s && forall k :: 0 <= k < |s.rings| ==> Empty(s.rings[k]))
      || (t.pre == NONE && LowestBusy(s.rings, t.cur) && t.cp.wptr == s.rings[t.cur].wptr && t.rings == s.rings)
    ensures Trigger(s).cur == s.cur
    ensures forall r :: 0 <= r < |s.rings| ==> r < |Trigger(s).rings| && Trigger(s).rings[r].wptr == s.rings[r].wptr
  {
    FirstBusyInRange(s.rings, 0);
  }

  // ---------------------------------------------------------------- preemption chains terminate

  /** Neither new submissions nor recovery. */
  predicate Quiet(l: Label) { !l.LSubmit? && !l.LReset? }

  /** A step starts a switch when it leaves the protocol with a fresh target. */
  predicate StartsSwitch(s: State, t: State) {
    t.pre == TRIGGERED && (s.pre != TRIGGERED || s.next != t.next)
  }

  /** The targets of the switches started along the run, in order. */
  ghost function Targets(ss: seq<State>): seq<nat> {
    if |ss| < 2 then []
    else Targets(ss[..|ss| - 1])
         + if StartsSwitch(ss[|ss| - 2], ss[|ss| - 1]) && ss[|ss| - 1].next.Some?
           then [ss[|ss| - 1].next.value] else []
  }

  predicate Increasing(ts: seq<nat>, n: nat) {
    forall i, j :: 0 <= i < j < |ts| ==> ts[i] < ts[j] < n
  }

  /** After a chain of quiet switches ended at target m, everything of higher priority is drained. */
  ghost predicate Drained(s: State, ts: seq<nat>) {
    |ts| > 0 ==>
      && ts[|ts| - 1] < |s.rings|
      && (forall k :: 0 <= k < ts[|ts| - 1] ==> k < |s.rings| && Empty(s.rings[k]))
      && (if s.pre == NONE then s.cur else if s.next.Some? then s.next.value else s.cur) == ts[|ts| - 1]
  }

  /** Steps that neither end nor start a switch keep the picture. */
  lemma CalmStepTargets(s: State, l: Label, ts: seq<nat>)
    requires Inv(s) && Enabled(s, l) && Quiet(l) && Drained(s, ts)
    requires !l.LTrigger? && !l.LCallback? && !l.LSchedule?
    ensures var t := Next(s, l);
      |t.rings| == |s.rings| && Drained(t, ts) && !StartsSwitch(s, t)
  {
    var t := Next(s, l);
    forall r | 0 <= r < |s.rings| && Empty(s.rings[r]) ensures Empty(t.rings[r]) {
      assert RingOrdered(s, r);
    }
  }

  /** A trigger moves on to a ring of lower priority than the last target. */
  lemma TriggerTargets(s: State, ts: seq<nat>)
    requires Inv(s) && Drained(s, ts) && s.pre == NONE
    ensures var t := Trigger(s);
      var us := ts + if t.pre == TRIGGERED then [t.next.value] else [];
      && |t.rings| == |s.rings| && Drained(t, us)
      && (t.pre == TRIGGERED ==> t.next.value < |t.rings| && (|ts| > 0 ==> ts[|ts| - 1] < t.next.value))
  {
    FirstBusyInRange(s.rings, 0);
  }

  lemma FinishTargets(s: State, ts: seq<nat>)
    requires Inv(s) && Drained(s, ts) && s.pre != NONE && s.cp.phase == Idle
    ensures Inv(Finish(s)) && Drained(Finish(s), ts) && |Finish(s).rings| == |s.rings|
  {
    FinishKeepsInv(s);
  }

  lemma QuietStepTargets(s: State, l: Label, ts: seq<nat>)
    requires Inv(s) && Enabled(s, l) && Quiet(l) && Drained(s, ts)
    ensures var t := Next(s, l);
      var us := ts + if StartsSwitch(s, t) && t.next.Some? then [t.next.value] else [];
      && |t.rings| == |s.rings|
      && Drained(t, us)
      && (|us| > |ts| ==> us[|us| - 1] < |t.rings| && (|ts| > 0 ==> ts[|ts| - 1] < us[|us| - 1]))
  {
    var t := Next(s, l);
    if l.LCallback? && s.pre == TRIGGERED && s.cp.phase == Idle {
      FinishTargets(s, ts);
      TriggerTargets(Finish(s), ts);
      FirstBusyInRange(Finish(s).rings, 0);
    } else if l.LSchedule? && Done(s, l.awake) != s {
      FinishTargets(s, ts);
      TriggerTargets(Finish(s), ts);
    } else if (l.LSchedule? || l.LTrigger?) && s.pre == NONE {
      TriggerTargets(s, ts);
    } else if !l.LTrigger? && !l.LCallback? && !l.LSchedule? {
      CalmStepTargets(s, l, ts);
    }
    assert ts + [] == ts;
  }

  lemma RunPrefix(ss: seq<State>, ls: seq<Label>)
    requires Run(ss, ls) && |ls| > 0
    ensures Run(ss[..|ls|], ls[..|ls| - 1])
  {
    forall i | 0 <= i < |ls| - 1 ensures StepBy(ss[..|ls|][i], ls[..|ls| - 1][i], ss[..|ls|][i + 1]) {
      assert StepBy(ss[i], ls[i], ss[i + 1]);
    }
  }

  lemma {:induction false} ChainBuilds(ss: seq<State>, ls: seq<Label>)
    requires Run(ss, ls) && Inv(ss[0])
    requires forall l :: l in ls ==> Quiet(l)
    ensures Increasing(Targets(ss), |ss[0].rings|)
    ensures forall k :: 0 <= k < |Targets(ss)| ==> Targets(ss)[k] < |ss[0].rings|
    ensures |ss[|ls|].rings| == |ss[0].rings| && Drained(ss[|ls|], Targets(ss))
    decreases |ls|
  {
    var n := |ls|;
    if n > 0 {
      RunPrefix(ss, ls);
      ChainBuilds(ss[..n], ls[..n - 1]);
      RunKeepsInv(ss, ls, n - 1);
      assert StepBy(ss[n - 1], ls[n - 1], ss[n]);
      assert ls[n - 1] in ls;
      QuietStepTargets(ss[n - 1], ls[n - 1], Targets(ss[..n]));
    }
  }

  lemma {:induction false} IncreasingIsShort(ts: seq<nat>, n: nat)
    requires Increasing(ts, n) && forall k :: 0 <= k < |ts| ==> ts[k] < n
    ensures |ts| <= n
    decreases |ts|
  {
    if |ts| > 0 {
      var m := ts[|ts| - 1];
      assert forall k :: 0 <= k < |ts| - 1 ==> ts[k] < m;
      IncreasingIsShort(ts[..|ts| - 1], m);
    }
  }

  /** With no new submissions, successive switch targets have strictly increasing index, so a chain of
      preemptions is no longer than the number of rings. */
  lemma PreemptionChainsTerminate(ss: seq<State>, ls: seq<Label>)
    requires Run(ss, ls) && Inv(ss[0])
    requires forall l :: l in ls ==> Quiet(l)
    ensures Increasing(Targets(ss), |ss[0].rings|)
    ensures |Targets(ss)| <= |ss[0].rings|
  {
    ChainBuilds(ss, ls);
    IncreasingIsShort(Targets(ss), |ss[0].rings|);
  }

  // ---------------------------------------------------------------- switches complete

  /** The submissions and the reported read pointers are the same. */
  predicate SameWork(s: State, t: State) {
    && |t.rings| == |s.rings|
    && (forall r :: 0 <= r < |s.rings| ==> t.rings[r].wptr == s.rings[r].wptr && t.rings[r].rptr == s.rings[r].rptr)
  }

  /** The protocol has moved on to ring n: it rests there with everything submitted visible, or has already
      started the next switch from there. */
  predicate Arrived(s: State, t: State, n: nat) {
    && n < |s.rings| && t.cur == n && SameWork(s, t)
    && (t.pre == NONE || t.pre == TRIGGERED)
    && (t.pre == NONE ==> t.cp.active == n && t.cp.phase == Idle && t.cp.wptr == t.rings[n].wptr)
    && (t.pre == TRIGGERED ==> t.next.Some? && t.next.value != n && t.cp.phase == Requested)
  }

  /** A finished switch followed by a trigger. */
  lemma FinishArrives(s: State)
    requires Inv(s) && s.pre != NONE && s.cp.phase == Idle
    ensures Inv(Trigger(Finish(s))) && Arrived(s, Trigger(Finish(s)), s.next.value)
    ensures Trigger(Finish(s)).pre == TRIGGERED ==> LowestBusy(s.rings, Trigger(Finish(s)).next.value)
    ensures Trigger(Finish(s)).pre == NONE ==>
      LowestBusy(s.rings, s.next.value) || forall k :: 0 <= k < |s.rings| ==> Empty(s.rings[k])
  {
    FinishKeepsInv(s);
    TriggerKeepsInv(Finish(s));
    TriggerHeals(Finish(s));
  }

  /** The interrupt of a finished switch makes the next ring current, refreshes the hardware WPTR, releases
      the state and triggers again; with CNTL still set it only notes completion; in any other state it
      does nothing. */
  lemma CallbackCompletes(s: State)
    requires Inv(s)
    ensures s.pre == TRIGGERED && s.cp.phase == Idle ==> Arrived(s, Callback(s), s.next.value)
    ensures s.pre == TRIGGERED && s.cp.phase != Idle ==> Callback(s) == s.(pre := COMPLETE)
    ensures s.pre != TRIGGERED ==> Callback(s) == s
  {
    if s.pre == TRIGGERED && s.cp.phase == Idle {
      FinishArrives(s);
    }
  }

  /** The dispatcher does the same for a completed switch; while the device sleeps or CNTL is set, the
      switch stays as it is. */
  lemma ScheduleCompletes(s: State, awake: bool)
    requires Inv(s)
    ensures s.pre == COMPLETE && awake && s.cp.phase == Idle ==> Arrived(s, Schedule(s, awake), s.next.value)
    ensures s.pre != NONE && !(s.pre == COMPLETE && awake && s.cp.phase == Idle) ==> Schedule(s, awake) == s
    ensures s.pre == NONE ==> Schedule(s, awake) == Trigger(s)
  {
    if s.pre == COMPLETE && awake && s.cp.phase == Idle {
      FinishArrives(s);
    }
  }

  /** The timer turns a triggered switch into a faulted one, and the fault worker a faulted one whose CNTL
      is clear into a completed one; neither touches anything else. */
  lemma TimeoutsRecover(s: State, awake: bool)
    ensures Timer(s) == if s.pre == TRIGGERED then s.(pre := FAULTED) else s
    ensures FaultWorker(s, awake) == if s.pre == FAULTED && awake && s.cp.phase == Idle then s.(pre := COMPLETE) else s
  {
  }

  /** One more step. */
  lemma Extend(ss: seq<State>, ls: seq<Label>, l: Label) returns (ss': seq<State>, ls': seq<Label>)
    requires Run(ss, ls) && Inv(ss[|ls|]) && Enabled(ss[|ls|], l) && Quiet(l) && forall k :: k in ls ==> Quiet(k)
    ensures Run(ss', ls') && ss'[0] == ss[0] && |ls'| == |ls| + 1 && (forall k :: k in ls' ==> Quiet(k))
    ensures ss'[|ls'|] == Next(ss[|ls|], l) && Inv(ss'[|ls'|])
  {
    ss', ls' := ss + [Next(ss[|ls|], l)], ls + [l];
    StepKeepsInv(ss[|ls|], l);
    forall i | 0 <= i < |ls'| ensures StepBy(ss'[i], ls'[i], ss'[i + 1]) {
      if i < |ls| {
        assert StepBy(ss[i], ls[i], ss[i + 1]);
      }
    }
  }

  /** The CP finishes whatever part of the switch is left to it. */
  lemma CpFinishes(ss: seq<State>, ls: seq<Label>) returns (ss': seq<State>, ls': seq<Label>)
    requires Run(ss, ls) && Inv(ss[|ls|]) && ss[|ls|].pre != NONE && forall k :: k in ls ==> Quiet(k)
    ensures Run(ss', ls') && ss'[0] == ss[0] && |ls'| <= |ls| + 2 && (forall k :: k in ls' ==> Quiet(k))
    ensures Inv(ss'[|ls'|]) && SameButCp(ss[|ls|], ss'[|ls'|]) && ss'[|ls'|].cp.phase == Idle
  {
    ss', ls' := ss, ls;
    if ss'[|ls'|].cp.phase == Requested {
      ss', ls' := Extend(ss', ls', LSwitch);
    }
    if ss'[|ls'|].cp.phase == Loaded {
      ss', ls' := Extend(ss', ls', LSwitchDone);
    }
  }

  /** Everything the driver and the read pointers say is the same. */
  predicate SameButCp(s: State, t: State) {
    t.pre == s.pre && t.cur == s.cur && t.next == s.next && SameWork(s, t)
  }

  /** Every switch can complete: from any state with one in progress, at most five steps of the CP and the
      handlers, and no new work, lead to its target ring being current. */
  lemma SwitchCompletes(s: State) returns (ss: seq<State>, ls: seq<Label>)
    requires Inv(s) && s.pre != NONE
    ensures Run(ss, ls) && ss[0] == s && |ls| <= 5 && (forall l :: l in ls ==> Quiet(l))
    ensures Inv(ss[|ls|]) && Arrived(s, ss[|ls|], s.next.value)
    ensures ss[|ls|].pre == TRIGGERED ==> LowestBusy(s.rings, ss[|ls|].next.value)
    ensures ss[|ls|].pre == NONE ==>
      LowestBusy(s.rings, s.next.value) || forall k :: 0 <= k < |s.rings| ==> Empty(s.rings[k])
  {
    ss, ls := CpFinishes([s], []);
    var m := ss[|ls|];
    WorkAlike(s, m);
    if m.pre == TRIGGERED {
      FinishArrives(m);
      ss, ls := Extend(ss, ls, LCallback);
    } else {
      if m.pre == FAULTED {
        ss, ls := Extend(ss, ls, LWorker(true));
      }
      FinishArrives(ss[|ls|]);
      ss, ls := Extend(ss, ls, LSchedule(true));
    }
    assert Arrived(s, ss[|ls|], s.next.value);
  }

  /** At rest on the busy ring of highest priority, or on any ring when there is nothing to do, with all its
      work visible to the CP. */
  ghost predicate Rests(s: State) {
    && s.cur < |s.rings| && s.pre == NONE && s.cp.active == s.cur && s.cp.phase == Idle
    && s.cp.wptr == s.rings[s.cur].wptr
    && (LowestBusy(s.rings, s.cur) || forall k :: 0 <= k < |s.rings| ==> Empty(s.rings[k]))
  }

  lemma WorkAlike(s: State, t: State)
    requires SameWork(s, t)
    ensures forall n :: LowestBusy(s.rings, n) <==> LowestBusy(t.rings, n)
    ensures (forall k :: 0 <= k < |s.rings| ==> Empty(s.rings[k]))
      <==> (forall k :: 0 <= k < |t.rings| ==> Empty(t.rings[k]))
  {
  }

  /** A switch to the busy ring of highest priority ends at rest. */
  lemma LastSwitch(s: State) returns (ss: seq<State>, ls: seq<Label>)
    requires Inv(s) && s.pre != NONE && LowestBusy(s.rings, s.next.value)
    ensures Run(ss, ls) && ss[0] == s && |ls| <= 5 && (forall l :: l in ls ==> Quiet(l))
    ensures SameWork(s, ss[|ls|]) && Rests(ss[|ls|]) && ss[|ls|].cur == s.next.value
  {
    ss, ls := SwitchCompletes(s);
    WorkAlike(s, ss[|ls|]);
  }

  lemma Join(ss: seq<State>, ls: seq<Label>, ss': seq<State>, ls': seq<Label>)
    requires Run(ss, ls) && Run(ss', ls') && ss'[0] == ss[|ls|]
    ensures Run(ss + ss'[1..], ls + ls') && (ss + ss'[1..])[|ls + ls'|] == ss'[|ls'|]
  {
    var all, labels := ss + ss'[1..], ls + ls';
    forall i | 0 <= i < |labels| ensures StepBy(all[i], labels[i], all[i + 1]) {
      if i < |ls| {
        assert StepBy(ss[i], ls[i], ss[i + 1]);
      } else {
        var k := i - |ls|;
        assert StepBy(ss'[k], ls'[k], ss'[k + 1]);
        assert all[i] == ss'[k] && all[i + 1] == ss'[k + 1];
      }
    }
  }

  /** The first switch on the way to rest. */
  lemma FirstSwitch(s: State) returns (ss: seq<State>, ls: seq<Label>)
    requires Inv(s)
    ensures Run(ss, ls) && ss[0] == s && |ls| <= 5 && (forall l :: l in ls ==> Quiet(l))
    ensures Inv(ss[|ls|]) && SameWork(s, ss[|ls|])
    ensures Rests(ss[|ls|])
      || (ss[|ls|].pre == TRIGGERED && ss[|ls|].next.Some? && LowestBusy(ss[|ls|].rings, ss[|ls|].next.value))
  {
    if s.pre == NONE {
      TriggerHeals(s);
      ss, ls := Extend([s], [], LTrigger);
      TriggerKeepsWork(s);
    } else {
      ss, ls := SwitchCompletes(s);
    }
    WorkAlike(s, ss[|ls|]);
  }

  lemma TriggerKeepsWork(s: State)
    requires Bounded(s)
    ensures SameWork(s, Trigger(s))
  {
    FirstBusyInRange(s.rings, 0);
  }

  /** Progress: from every state of every run, at most ten steps of the CP and the handlers, and no new work,
      lead to rest on the busy ring of highest priority with everything submitted to it visible. So work
      queued in the middle of a switch does become visible. */
  lemma ReachesRest(s: State) returns (ss: seq<State>, ls: seq<Label>)
    requires Inv(s)
    ensures Run(ss, ls) && ss[0] == s && |ls| <= 10 && (forall l :: l in ls ==> Quiet(l))
    ensures SameWork(s, ss[|ls|]) && Rests(ss[|ls|])
  {
    ss, ls := FirstSwitch(s);
    if !Rests(ss[|ls|]) {
      var ss', ls' := LastSwitch(ss[|ls|]);
      Join(ss, ls, ss', ls');
      ss, ls := ss + ss'[1..], ls + ls';
    }
  }
}
