/** Who owns the preemption state, at the granularity of single shared accesses.

    Any number of threads run the handlers of adreno_a5xx_preempt.c: interrupt handlers (CP_SW and
    the trigger from CACHE_FLUSH_TS), the dispatcher and the fault worker, the last two under the
    device mutex. The program counter of a thread names the access it makes next. The per-ring scan
    is one step with an arbitrary outcome, since submissions may change any ring at any time. */
module PreemptionOwnership {
  import opened PreemptionProtocol
  import opened Wrappers

  /** What entitles a handler to finish a switch: the CP_SW interrupt moved the state to PENDING;
      the dispatcher found COMPLETE, the worker found FAULTED, both holding the mutex. */
  datatype Claim = Irq | Dispatch | Fault

  datatype Pc =
    | Rest
    | TryTrigger              // cmpxchg NONE -> START
    | Scan
    | Heal                    // _update_wptr on the current ring
    | GiveUp                  // state := NONE
    | WriteRecord(n: nat)
    | SetNext(n: nat)         // next_rb := n
    | SetTriggered            // state := TRIGGERED
    | WriteCntl               // CONTEXT_SWITCH_CNTL := 1
    | CheckComplete           // read the state, mutex held
    | CheckFaulted            // read the state, mutex held
    | ReadStatus(claim: Claim)
    | SetComplete(claim: Claim)
    | Adopt(claim: Claim)     // cur_rb := next_rb
    | ClearNext(claim: Claim) // next_rb := NULL
    | Refresh(claim: Claim)   // _update_wptr on the new ring
    | Release(claim: Claim)   // state := NONE
    | Unlock

  /** The shared state; irq is set while a CP_SW interrupt waits to be delivered. */
  datatype Shared = Shared(mutex: Option<nat>, pre: PreemptState, cur: nat, next: Option<nat>,
                           rings: nat, phase: Phase, irq: bool)

  datatype Sys = Sys(pcs: seq<Pc>, sh: Shared)

  datatype Event =
    | EnterTrigger(t: nat)
    | EnterCallback(t: nat)
    | EnterSchedule(t: nat)
    | EnterWorker(t: nat)
    | Advance(t: nat, choice: Option<nat>, awake: bool)
    | TimerFires
    | CpLoads
    | CpRaises
    | CpClears(raise: bool)
    | Recover(c: nat)

  /** The state a thread at pc has claimed and not yet released. */
  function Claimed(pc: Pc): Option<PreemptState> {
    match pc
    case Scan => Some(START)
    case Heal => Some(START)
    case GiveUp => Some(START)
    case WriteRecord(_) => Some(START)
    case SetNext(_) => Some(START)
    case SetTriggered => Some(START)
    case WriteCntl => Some(TRIGGERED)
    case ReadStatus(c) => Some(ClaimState(c))
    case SetComplete(c) => Some(ClaimState(c))
    case Adopt(c) => Some(ClaimState(c))
    case ClearNext(c) => Some(ClaimState(c))
    case Refresh(c) => Some(ClaimState(c))
    case Release(c) => Some(ClaimState(c))
    case _ => None
  }

  function ClaimState(c: Claim): PreemptState {
    match c
    case Irq => PENDING
    case Dispatch => COMPLETE
    case Fault => FAULTED
  }

  predicate Inside(pc: Pc) { Claimed(pc).Some? }

  /** Accesses made only with the device mutex held. */
  predicate NeedsMutex(pc: Pc) {
    pc.CheckComplete? || pc.CheckFaulted? || pc.Unlock?
    || Claimed(pc) == Some(COMPLETE) || Claimed(pc) == Some(FAULTED)
  }

  ghost predicate NoneAt(s: Sys, pc: Pc) { forall t :: 0 <= t < |s.pcs| ==> s.pcs[t] != pc }

  ghost predicate NoneInside(s: Sys) { forall t :: 0 <= t < |s.pcs| ==> !Inside(s.pcs[t]) }

  ghost predicate Enabled(s: Sys, e: Event) {
    match e
    case EnterTrigger(t) => t < |s.pcs| && s.pcs[t] == Rest
    case EnterCallback(t) => t < |s.pcs| && s.pcs[t] == Rest && s.sh.irq
    case EnterSchedule(t) => t < |s.pcs| && s.pcs[t] == Rest && s.sh.mutex == None
    case EnterWorker(t) => t < |s.pcs| && s.pcs[t] == Rest && s.sh.mutex == None
    case Advance(t, choice, _) => t < |s.pcs| && CanAct(s.sh, s.pcs[t], choice)
    case TimerFires => true
    case CpLoads => s.sh.phase == Requested
    case CpRaises => s.sh.phase == Loaded
    case CpClears(_) => s.sh.phase == Loaded
    case Recover(c) => c < s.sh.rings && s.sh.mutex == None && NoneInside(s)
  }

  predicate CanAct(sh: Shared, pc: Pc, choice: Option<nat>) {
    pc != Rest && (choice.Some? ==> choice.value < sh.rings) && (pc.Adopt? ==> sh.next.Some?)
  }

  /** A thread leaves a handler: a mutex holder still has to unlock. */
  function Leave(sh: Shared, t: nat): Pc {
    if sh.mutex == Some(t) then Unlock else Rest
  }

  /** One access of thread t standing at pc: the new shared state and where the thread goes. */
  function Act(sh: Shared, t: nat, pc: Pc, choice: Option<nat>, awake: bool): (Shared, Pc)
    requires CanAct(sh, pc, choice)
  {
    match pc
    case TryTrigger => if sh.pre == NONE then (sh.(pre := START), Scan) else (sh, Leave(sh, t))
    case Scan =>
      (sh, if choice == None then GiveUp else if choice == Some(sh.cur) then Heal else WriteRecord(choice.value))
    case Heal => (sh, GiveUp)
    case GiveUp => (sh.(pre := NONE), Leave(sh, t))
    case WriteRecord(n) => (sh, SetNext(n))
    case SetNext(n) => (sh.(next := Some(n)), SetTriggered)
    case SetTriggered => (sh.(pre := TRIGGERED), WriteCntl)
    case WriteCntl => (sh.(phase := Requested), Leave(sh, t))
    case CheckComplete => (sh, if sh.pre == COMPLETE then ReadStatus(Dispatch) else TryTrigger)
    case CheckFaulted => (sh, if sh.pre == FAULTED then ReadStatus(Fault) else Unlock)
    case ReadStatus(c) => (sh, AfterStatus(c, awake, sh.phase))
    case SetComplete(_) => (sh.(pre := COMPLETE), Leave(sh, t))
    case Adopt(c) => (sh.(cur := sh.next.value), ClearNext(c))
    case ClearNext(c) => (sh.(next := None), Refresh(c))
    case Refresh(c) => (sh, Release(c))
    case Release(_) => (sh.(pre := NONE), TryTrigger)
    case Unlock => (sh.(mutex := None), Rest)
  }

  function AfterStatus(c: Claim, awake: bool, phase: Phase): Pc {
    match c
    case Irq => if phase == Idle then Adopt(Irq) else SetComplete(Irq)
    case Dispatch => if awake && phase == Idle then Adopt(Dispatch) else TryTrigger
    case Fault => if awake && phase == Idle then SetComplete(Fault) else Unlock
  }

  /** A thread at rest enters a handler. */
  function Enter(sh: Shared, e: Event): (Shared, Pc) {
    match e
    case EnterCallback(t) =>
      if sh.pre == TRIGGERED then (sh.(pre := PENDING, irq := false), ReadStatus(Irq))
      else (sh.(irq := false), Rest)
    case EnterSchedule(t) => (sh.(mutex := Some(t)), CheckComplete)
    case EnterWorker(t) => (sh.(mutex := Some(t)), CheckFaulted)
    case _ => (sh, TryTrigger)
  }

  /** Steps that move no thread. */
  function Ambient(sh: Shared, e: Event): Shared {
    match e
    case TimerFires => if sh.pre == TRIGGERED then sh.(pre := FAULTED) else sh
    case CpLoads => sh.(phase := Loaded)
    case CpRaises => sh.(irq := true)
    case CpClears(raise) => sh.(phase := Idle, irq := sh.irq || raise)
    case Recover(c) => sh.(pre := NONE, cur := c, phase := Idle, irq := false)
    case _ => sh
  }

  predicate Enters(e: Event) { e.EnterTrigger? || e.EnterCallback? || e.EnterSchedule? || e.EnterWorker? }

  ghost function Next(s: Sys, e: Event): Sys
    requires Enabled(s, e)
  {
    if e.Advance? then
      var (sh, pc) := Act(s.sh, e.t, s.pcs[e.t], e.choice, e.awake);
      Sys(s.pcs[e.t := pc], sh)
    else if Enters(e) then
      var (sh, pc) := Enter(s.sh, e);
      Sys(s.pcs[e.t := pc], sh)
    else Sys(s.pcs, Ambient(s.sh, e))
  }

  predicate Init(s: Sys) {
    && s.pcs == seq(|s.pcs|, _ => Rest) && s.sh.mutex == None && s.sh.pre == NONE && s.sh.cur < s.sh.rings
    && s.sh.next == None && s.sh.phase == Idle && !s.sh.irq
  }

  // ---------------------------------------------------------------- a handler left alone

  /** n accesses of thread t, nothing else happening; the device is awake. */
  ghost function Alone(sh: Shared, t: nat, pc: Pc, choice: Option<nat>, n: nat): (Shared, Pc)
    decreases n
  {
    if n == 0 || !CanAct(sh, pc, choice) then (sh, pc)
    else
      var (sh', pc') := Act(sh, t, pc, choice, true);
      Alone(sh', t, pc', choice, n - 1)
  }

  /** The interrupt handler and the dispatcher, left alone with a finished switch, make the next ring current
      and release the state, as the protocol's Finish does. */
  lemma FinishAlone(sh: Shared, t: nat, c: Claim)
    requires c != Fault && sh.phase == Idle && sh.next.Some?
    ensures Alone(sh, t, ReadStatus(c), None, 5) == (sh.(cur := sh.next.value, next := None, pre := NONE), TryTrigger)
  {
    var s1 := sh.(cur := sh.next.value);
    var s2 := s1.(next := None);
    assert Act(sh, t, ReadStatus(c), None, true) == (sh, Adopt(c));
    assert Act(sh, t, Adopt(c), None, true) == (s1, ClearNext(c));
    assert Act(s1, t, ClearNext(c), None, true) == (s2, Refresh(c));
    assert Act(s2, t, Refresh(c), None, true) == (s2, Release(c));
    assert Alone(s2, t, Release(c), None, 1) == Alone(s2.(pre := NONE), t, TryTrigger, None, 0);
    assert Alone(s2, t, Refresh(c), None, 2) == Alone(s2, t, Release(c), None, 1);
    assert Alone(s1, t, ClearNext(c), None, 3) == Alone(s2, t, Refresh(c), None, 2);
    assert Alone(sh, t, Adopt(c), None, 4) == Alone(s1, t, ClearNext(c), None, 3);
  }

  /** A trigger left alone, whose scan finds another ring busy, requests the switch, as the protocol's
      StartSwitch does. */
  lemma TriggerAlone(sh: Shared, t: nat, n: nat)
    requires sh.pre == NONE && n < sh.rings && n != sh.cur
    ensures Alone(sh, t, TryTrigger, Some(n), 6)
      == (sh.(pre := TRIGGERED, next := Some(n), phase := Requested), Leave(sh, t))
  {
    var s1 := sh.(pre := START);
    var s2 := s1.(next := Some(n));
    var s3 := s2.(pre := TRIGGERED);
    assert Alone(s3, t, WriteCntl, Some(n), 1) == Alone(s3.(phase := Requested), t, Leave(s3, t), Some(n), 0);
    assert Alone(s2, t, SetTriggered, Some(n), 2) == Alone(s3, t, WriteCntl, Some(n), 1);
    assert Alone(s1, t, SetNext(n), Some(n), 3) == Alone(s2, t, SetTriggered, Some(n), 2);
    assert Alone(s1, t, WriteRecord(n), Some(n), 4) == Alone(s1, t, SetNext(n), Some(n), 3);
    assert Alone(s1, t, Scan, Some(n), 5) == Alone(s1, t, WriteRecord(n), Some(n), 4);
  }

  /** The fault worker left alone notes the completion of a switch whose CNTL is clear; an interrupt with CNTL
      still set does so too. */
  lemma CompleteAlone(sh: Shared, t: nat)
    ensures sh.phase == Idle ==> Alone(sh, t, ReadStatus(Fault), None, 2) == (sh.(pre := COMPLETE), Leave(sh, t))
    ensures sh.phase != Idle ==> Alone(sh, t, ReadStatus(Irq), None, 2) == (sh.(pre := COMPLETE), Leave(sh, t))
  {
    var done := sh.(pre := COMPLETE);
    assert Alone(sh, t, SetComplete(Fault), None, 1) == Alone(done, t, Leave(sh, t), None, 0);
    assert Alone(sh, t, SetComplete(Irq), None, 1) == Alone(done, t, Leave(sh, t), None, 0);
  }

  // ---------------------------------------------------------------- what no run can break

  predicate TargetSet(sh: Shared) { sh.next.Some? && sh.next.value < sh.rings && sh.next.value != sh.cur }

  /** The next ring has been adopted and the state not yet released. */
  predicate Past(pc: Pc) { pc.ClearNext? || pc.Refresh? || pc.Release? }

  /** The thread has claimed the state and will store to it again. */
  predicate Held(pc: Pc) { Inside(pc) && pc != WriteCntl }

  /** What the shared state looks like while thread t stands at pc. */
  predicate Local(sh: Shared, t: nat, pc: Pc) {
    && (Held(pc) ==> Claimed(pc).value == sh.pre)
    && (NeedsMutex(pc) ==> sh.mutex == Some(t))
    && (sh.mutex == Some(t) ==> pc != Rest)
    && (sh.mutex == Some(t) && sh.pre == COMPLETE && !Past(pc) ==> TargetSet(sh))
    && (pc.WriteRecord? || pc.SetNext? ==> pc.n < sh.rings && pc.n != sh.cur)
    && (pc.SetTriggered? || (Claimed(pc) == Some(PENDING) && !Past(pc)) ==> TargetSet(sh))
    && (pc.Adopt? || Past(pc) ==> pc.claim != Fault)
    && (pc.SetComplete? ==> pc.claim != Dispatch)
  }

  predicate Common(sh: Shared) {
    && sh.cur < sh.rings
    && (sh.pre == TRIGGERED || sh.pre == FAULTED || (sh.pre == COMPLETE && sh.mutex == None) ==> TargetSet(sh))
  }

  predicate Apart(p: Pc, q: Pc) { !(Held(p) && Held(q)) }

  ghost predicate Inv(s: Sys) {
    && Common(s.sh)
    && (s.sh.mutex.Some? ==> s.sh.mutex.value < |s.pcs|)
    && (forall t :: 0 <= t < |s.pcs| ==> Local(s.sh, t, s.pcs[t]))
    && (forall t, u :: 0 <= t < u < |s.pcs| ==> Apart(s.pcs[t], s.pcs[u]))
  }

  lemma ActOnSelf(sh: Shared, t: nat, pc: Pc, choice: Option<nat>, awake: bool)
    requires Common(sh) && Local(sh, t, pc) && CanAct(sh, pc, choice)
    ensures var (sh', pc') := Act(sh, t, pc, choice, awake);
      Common(sh') && Local(sh', t, pc') && (sh'.mutex == sh.mutex || sh'.mutex == None)
  {
    if pc.Scan? || pc.Heal? || pc.WriteRecord? || pc.SetNext? || pc.SetTriggered? {
      PrepareActOnSelf(sh, t, pc, choice, awake);
    } else if pc.TryTrigger? || pc.GiveUp? || pc.WriteCntl? {
      TriggerActOnSelf(sh, t, pc, choice, awake);
    } else if pc.ReadStatus? || pc.CheckComplete? || pc.CheckFaulted? {
      ReadActOnSelf(sh, t, pc, choice, awake);
    } else {
      FinishActOnSelf(sh, t, pc, choice, awake);
    }
  }

  lemma PrepareActOnSelf(sh: Shared, t: nat, pc: Pc, choice: Option<nat>, awake: bool)
    requires Common(sh) && Local(sh, t, pc) && CanAct(sh, pc, choice)
    requires pc.Scan? || pc.Heal? || pc.WriteRecord? || pc.SetNext? || pc.SetTriggered?
    ensures var (sh', pc') := Act(sh, t, pc, choice, awake);
      Common(sh') && Local(sh', t, pc') && sh'.mutex == sh.mutex
  {
  }

  lemma TriggerActOnSelf(sh: Shared, t: nat, pc: Pc, choice: Option<nat>, awake: bool)
    requires Common(sh) && Local(sh, t, pc) && CanAct(sh, pc, choice)
    requires pc.TryTrigger? || pc.GiveUp? || pc.WriteCntl?
    ensures var (sh', pc') := Act(sh, t, pc, choice, awake);
      Common(sh') && Local(sh', t, pc') && sh'.mutex == sh.mutex
  {
  }

  lemma ReadActOnSelf(sh: Shared, t: nat, pc: Pc, choice: Option<nat>, awake: bool)
    requires Common(sh) && Local(sh, t, pc) && CanAct(sh, pc, choice)
    requires pc.ReadStatus? || pc.CheckComplete? || pc.CheckFaulted?
    ensures var (sh', pc') := Act(sh, t, pc, choice, awake);
      sh' == sh && Local(sh', t, pc')
  {
  }

  lemma FinishActOnSelf(sh: Shared, t: nat, pc: Pc, choice: Option<nat>, awake: bool)
    requires Common(sh) && Local(sh, t, pc) && CanAct(sh, pc, choice)
    requires pc.SetComplete? || pc.Adopt? || Past(pc) || pc.Unlock?
    ensures var (sh', pc') := Act(sh, t, pc, choice, awake);
      Common(sh') && Local(sh', t, pc') && (sh'.mutex == sh.mutex || sh'.mutex == None)
  {
    if pc.Adopt? || pc.ClearNext? || pc.Refresh? {
      AdoptActOnSelf(sh, t, pc, choice, awake);
    }
  }

  lemma AdoptActOnSelf(sh: Shared, t: nat, pc: Pc, choice: Option<nat>, awake: bool)
    requires Common(sh) && Local(sh, t, pc) && CanAct(sh, pc, choice)
    requires pc.Adopt? || pc.ClearNext? || pc.Refresh?
    ensures var (sh', pc') := Act(sh, t, pc, choice, awake);
      Common(sh') && Local(sh', t, pc') && sh'.mutex == sh.mutex
  {
  }

  lemma ActOnOther(sh: Shared, t: nat, pc: Pc, choice: Option<nat>, awake: bool, u: nat, other: Pc)
    requires Common(sh) && Local(sh, t, pc) && CanAct(sh, pc, choice)
    requires u != t && Local(sh, u, other) && Apart(pc, other)
    ensures var (sh', pc') := Act(sh, t, pc, choice, awake);
      Local(sh', u, other) && Apart(pc', other)
  {
    if Held(pc) {
      OwnerActOnOther(sh, t, pc, choice, awake, u, other);
    }
  }

  lemma OwnerActOnOther(sh: Shared, t: nat, pc: Pc, choice: Option<nat>, awake: bool, u: nat, other: Pc)
    requires Common(sh) && Local(sh, t, pc) && CanAct(sh, pc, choice) && Held(pc)
    requires u != t && Local(sh, u, other) && !Held(other)
    ensures Local(Act(sh, t, pc, choice, awake).0, u, other)
  {
  }

  lemma EnterOnAny(sh: Shared, e: Event, u: nat, other: Pc)
    requires Common(sh) && Enters(e) && Local(sh, e.t, Rest) && Local(sh, u, other)
    requires e.EnterSchedule? || e.EnterWorker? ==> sh.mutex == None
    ensures var (sh', pc') := Enter(sh, e);
      Common(sh') && Local(sh', e.t, pc') && (u != e.t ==> Local(sh', u, other) && Apart(pc', other))
  {
    if e.EnterCallback? {
      CallbackOnAny(sh, e, u, other);
    }
  }

  lemma CallbackOnAny(sh: Shared, e: Event, u: nat, other: Pc)
    requires Common(sh) && e.EnterCallback? && Local(sh, e.t, Rest) && Local(sh, u, other)
    ensures var (sh', pc') := Enter(sh, e);
      Common(sh') && Local(sh', e.t, pc') && (u != e.t ==> Local(sh', u, other) && Apart(pc', other))
  {
  }

  lemma AmbientOnAny(s: Sys, e: Event, u: nat)
    requires Inv(s) && Enabled(s, e) && !e.Advance? && !Enters(e) && u < |s.pcs|
    ensures Common(Ambient(s.sh, e)) && Local(Ambient(s.sh, e), u, s.pcs[u])
  {
    assert Local(s.sh, u, s.pcs[u]);
  }

  lemma StepKeepsInv(s: Sys, e: Event)
    requires Inv(s) && Enabled(s, e)
    ensures Inv(Next(s, e))
  {
    var s' := Next(s, e);
    if e.Advance? {
      ActOnSelf(s.sh, e.t, s.pcs[e.t], e.choice, e.awake);
      forall u | 0 <= u < |s.pcs| && u != e.t
        ensures Local(s'.sh, u, s'.pcs[u]) && Apart(s'.pcs[e.t], s'.pcs[u])
      {
        assert Apart(s.pcs[e.t], s.pcs[u]);
        ActOnOther(s.sh, e.t, s.pcs[e.t], e.choice, e.awake, u, s.pcs[u]);
      }
    } else if Enters(e) {
      forall u | 0 <= u < |s.pcs|
        ensures Common(s'.sh) && Local(s'.sh, u, s'.pcs[u]) && (u != e.t ==> Apart(s'.pcs[e.t], s'.pcs[u]))
      {
        EnterOnAny(s.sh, e, u, s.pcs[u]);
      }
    } else {
      forall u | 0 <= u < |s.pcs| ensures Common(s'.sh) && Local(s'.sh, u, s'.pcs[u]) {
        AmbientOnAny(s, e, u);
      }
    }
  }

  ghost predicate Run(ss: seq<Sys>, es: seq<Event>) {
    && |ss| == |es| + 1
    && forall i :: 0 <= i < |es| ==> StepBy(ss[i], es[i], ss[i + 1])
  }

  ghost predicate StepBy(s: Sys, e: Event, t: Sys) {
    Enabled(s, e) && t == Next(s, e)
  }

  lemma {:induction false} RunKeepsInv(ss: seq<Sys>, es: seq<Event>, i: nat)
    requires Run(ss, es) && Init(ss[0]) && i < |ss|
    ensures Inv(ss[i])
  {
    if i > 0 {
      RunKeepsInv(ss, es, i - 1);
      assert StepBy(ss[i - 1], es[i - 1], ss[i]);
      StepKeepsInv(ss[i - 1], es[i - 1]);
    }
  }

  /** Some handler has adopted the next ring and not yet released the state. */
  ghost predicate Finishing(s: Sys) { exists t :: 0 <= t < |s.pcs| && Past(s.pcs[t]) }

  /** In every interleaving, whenever timer and interrupts come: at most one thread is between claiming a
      preemption state and its last store to it, and the state is the one it claimed; and whenever no
      handler is between adopting the next ring and releasing, TRIGGERED, FAULTED and COMPLETE come with
      a next ring other than the current one. */
  lemma OwnershipIsExclusive(ss: seq<Sys>, es: seq<Event>, i: nat)
    requires Run(ss, es) && Init(ss[0]) && i < |ss|
    ensures forall t, u :: 0 <= t < u < |ss[i].pcs| ==> !(Held(ss[i].pcs[t]) && Held(ss[i].pcs[u]))
    ensures forall t :: 0 <= t < |ss[i].pcs| && Held(ss[i].pcs[t]) ==> ss[i].sh.pre == Claimed(ss[i].pcs[t]).value
    ensures ss[i].sh.pre in {TRIGGERED, FAULTED, COMPLETE} && !Finishing(ss[i]) ==>
      ss[i].sh.next.Some? && ss[i].sh.next.value != ss[i].sh.cur
  {
    RunKeepsInv(ss, es, i);
    var s := ss[i];
    forall t | 0 <= t < |s.pcs| && Held(s.pcs[t]) ensures s.sh.pre == Claimed(s.pcs[t]).value {
      assert Local(s.sh, t, s.pcs[t]);
    }
    forall t, u | 0 <= t < u < |s.pcs| ensures !(Held(s.pcs[t]) && Held(s.pcs[u])) {
      assert Apart(s.pcs[t], s.pcs[u]);
    }
    if s.sh.pre == COMPLETE && s.sh.mutex.Some? && !Finishing(s) {
      assert Local(s.sh, s.sh.mutex.value, s.pcs[s.sh.mutex.value]);
    }
  }

  // ---------------------------------------------------------------- the window before the CNTL write

  /** Neither the preemption timer nor a CP_SW interrupt comes between the change to TRIGGERED and the
      CNTL write behind it. */
  ghost predicate Undisturbed(s: Sys, e: Event) { e.TimerFires? || e.EnterCallback? ==> NoneAt(s, WriteCntl) }

  predicate Calm(sh: Shared) { sh.pre == NONE || sh.pre == START ==> sh.phase == Idle }

  predicate CalmAt(sh: Shared, pc: Pc) {
    && (pc.WriteCntl? ==> sh.pre == TRIGGERED && sh.phase == Idle)
    && (pc.Adopt? || Past(pc) ==> sh.phase == Idle)
  }

  ghost predicate Window(s: Sys) {
    && Calm(s.sh)
    && (forall t :: 0 <= t < |s.pcs| ==> CalmAt(s.sh, s.pcs[t]))
    && (forall t, u :: 0 <= t < u < |s.pcs| ==> !(s.pcs[t].WriteCntl? && s.pcs[u].WriteCntl?))
  }

  lemma ActCalmly(sh: Shared, t: nat, pc: Pc, choice: Option<nat>, awake: bool)
    requires Local(sh, t, pc) && CanAct(sh, pc, choice) && Calm(sh) && CalmAt(sh, pc)
    ensures var (sh', pc') := Act(sh, t, pc, choice, awake); Calm(sh') && CalmAt(sh', pc')
  {
  }

  lemma ActCalmlyOnOther(sh: Shared, t: nat, pc: Pc, choice: Option<nat>, awake: bool, u: nat, other: Pc)
    requires Local(sh, t, pc) && CanAct(sh, pc, choice) && CalmAt(sh, pc)
    requires Local(sh, u, other) && Apart(pc, other) && CalmAt(sh, other) && !(pc.WriteCntl? && other.WriteCntl?)
    ensures var (sh', pc') := Act(sh, t, pc, choice, awake);
      CalmAt(sh', other) && !(pc'.WriteCntl? && other.WriteCntl?)
  {
  }

  lemma EnterCalmly(s: Sys, e: Event)
    requires Inv(s) && Window(s) && Enabled(s, e) && Undisturbed(s, e) && !e.Advance?
    ensures Window(Next(s, e))
  {
    var s' := Next(s, e);
    forall u | 0 <= u < |s.pcs| ensures CalmAt(s'.sh, s'.pcs[u]) {
      assert CalmAt(s.sh, s.pcs[u]) && Local(s.sh, u, s.pcs[u]);
    }
  }

  lemma StepKeepsWindow(s: Sys, e: Event)
    requires Inv(s) && Window(s) && Enabled(s, e) && Undisturbed(s, e)
    ensures Window(Next(s, e))
  {
    if e.Advance? {
      var s' := Next(s, e);
      assert Local(s.sh, e.t, s.pcs[e.t]) && CalmAt(s.sh, s.pcs[e.t]);
      ActCalmly(s.sh, e.t, s.pcs[e.t], e.choice, e.awake);
      forall u | 0 <= u < |s.pcs| && u != e.t
        ensures CalmAt(s'.sh, s'.pcs[u]) && !(s'.pcs[e.t].WriteCntl? && s'.pcs[u].WriteCntl?)
      {
        assert Local(s.sh, u, s.pcs[u]) && CalmAt(s.sh, s.pcs[u]) && Apart(s.pcs[e.t], s.pcs[u]);
        ActCalmlyOnOther(s.sh, e.t, s.pcs[e.t], e.choice, e.awake, u, s.pcs[u]);
      }
    } else {
      EnterCalmly(s, e);
    }
  }

  lemma {:induction false} RunKeepsWindow(ss: seq<Sys>, es: seq<Event>, i: nat)
    requires Run(ss, es) && Init(ss[0]) && i < |ss| && forall k :: 0 <= k < i ==> Undisturbed(ss[k], es[k])
    ensures Window(ss[i])
  {
    if i > 0 {
      RunKeepsWindow(ss, es, i - 1);
      RunKeepsInv(ss, es, i - 1);
      assert StepBy(ss[i - 1], es[i - 1], ss[i]);
      StepKeepsWindow(ss[i - 1], es[i - 1]);
    }
  }

  /** CONTEXT_SWITCH_CNTL is written only when no switch is outstanding, up to any point before a
      disturbance. */
  lemma CntlWrittenWhenIdle(ss: seq<Sys>, es: seq<Event>, i: nat)
    requires Run(ss, es) && Init(ss[0]) && i < |ss| && forall k :: 0 <= k < i ==> Undisturbed(ss[k], es[k])
    ensures forall t :: 0 <= t < |ss[i].pcs| && ss[i].pcs[t] == WriteCntl ==> ss[i].sh.phase == Idle
  {
    RunKeepsWindow(ss, es, i);
    forall t | 0 <= t < |ss[i].pcs| && ss[i].pcs[t] == WriteCntl ensures ss[i].sh.phase == Idle {
      assert CalmAt(ss[i].sh, ss[i].pcs[t]);
    }
  }

  /** Counting a triggering thread as owner until it has written CNTL: at most one owner, and the state is
      the one it claimed. */
  ghost predicate OneOwner(s: Sys) {
    && (forall t, u :: 0 <= t < u < |s.pcs| ==> !(Inside(s.pcs[t]) && Inside(s.pcs[u])))
    && (forall t :: 0 <= t < |s.pcs| && Inside(s.pcs[t]) ==> s.sh.pre == Claimed(s.pcs[t]).value)
  }

  lemma WindowOwners(s: Sys)
    requires Inv(s) && Window(s)
    ensures OneOwner(s)
  {
    forall t | 0 <= t < |s.pcs| && Inside(s.pcs[t]) ensures s.sh.pre == Claimed(s.pcs[t]).value {
      assert Local(s.sh, t, s.pcs[t]) && CalmAt(s.sh, s.pcs[t]);
    }
    forall t, u | 0 <= t < u < |s.pcs| ensures !(Inside(s.pcs[t]) && Inside(s.pcs[u])) {
      assert Apart(s.pcs[t], s.pcs[u]);
      assert Local(s.sh, t, s.pcs[t]) && CalmAt(s.sh, s.pcs[t]);
      assert Local(s.sh, u, s.pcs[u]) && CalmAt(s.sh, s.pcs[u]);
    }
  }

  /** An event that does come into the window ends that: the timer takes the state away from the triggering
      thread, the interrupt handler becomes a second owner. */
  lemma DisturbanceBreaksOwnership(s: Sys, e: Event)
    requires Window(s) && Enabled(s, e) && !Undisturbed(s, e)
    ensures !OneOwner(Next(s, e))
  {
    var t :| 0 <= t < |s.pcs| && s.pcs[t] == WriteCntl;
    var s' := Next(s, e);
    assert CalmAt(s.sh, s.pcs[t]);
    assert s'.pcs[t] == WriteCntl;
    if e.EnterCallback? {
      assert Inside(s'.pcs[e.t]) && e.t != t;
    }
  }

  lemma {:induction false} OwnersMeanUndisturbed(ss: seq<Sys>, es: seq<Event>, n: nat)
    requires Run(ss, es) && Init(ss[0]) && n <= |es| && forall i :: 0 <= i <= n ==> OneOwner(ss[i])
    ensures forall k :: 0 <= k < n ==> Undisturbed(ss[k], es[k])
  {
    if n > 0 {
      OwnersMeanUndisturbed(ss, es, n - 1);
      RunKeepsWindow(ss, es, n - 1);
      assert StepBy(ss[n - 1], es[n - 1], ss[n]);
      if !Undisturbed(ss[n - 1], es[n - 1]) {
        DisturbanceBreaksOwnership(ss[n - 1], es[n - 1]);
      }
    }
  }

  /** Exactly when that ownership is exclusive: in all states of a run if and only if nothing disturbs the
      window. A late interrupt of an earlier switch does no harm anywhere else. */
  lemma OwnershipIffUndisturbed(ss: seq<Sys>, es: seq<Event>)
    requires Run(ss, es) && Init(ss[0])
    ensures (forall i :: 0 <= i < |ss| ==> OneOwner(ss[i])) <==> forall k :: 0 <= k < |es| ==> Undisturbed(ss[k], es[k])
  {
    if forall i :: 0 <= i < |ss| ==> OneOwner(ss[i]) {
      OwnersMeanUndisturbed(ss, es, |es|);
    }
    if forall k :: 0 <= k < |es| ==> Undisturbed(ss[k], es[k]) {
      forall i | 0 <= i < |ss| ensures OneOwner(ss[i]) {
        RunKeepsInv(ss, es, i);
        RunKeepsWindow(ss, es, i);
        WindowOwners(ss[i]);
      }
    }
  }

  // ---------------------------------------------------------------- three runs that disturb the window

  /** Two threads at rest, two rings. */
  const POWER_UP := Sys([Rest, Rest], Shared(None, NONE, 0, None, 2, Idle, false))

  lemma Extend(ss: seq<Sys>, es: seq<Event>, e: Event) returns (ss': seq<Sys>, es': seq<Event>)
    requires Run(ss, es) && Enabled(ss[|es|], e)
    ensures Run(ss', es') && ss'[0] == ss[0] && |es'| == |es| + 1
    ensures ss'[|es'|] == Next(ss[|es|], e)
  {
    ss', es' := ss + [Next(ss[|es|], e)], es + [e];
    forall i | 0 <= i < |es'| ensures StepBy(ss'[i], es'[i], ss'[i + 1]) {
      if i < |es| {
        assert StepBy(ss[i], es[i], ss[i + 1]);
      }
    }
  }

  /** Thread 0 triggers a switch from ring 0 to ring 1, up to the CNTL write. */
  lemma TriggerRun() returns (ss: seq<Sys>, es: seq<Event>)
    ensures Run(ss, es) && ss[0] == POWER_UP
    ensures ss[|es|] == Sys([WriteCntl, Rest], Shared(None, TRIGGERED, 0, Some(1), 2, Idle, false))
  {
    ss, es := [POWER_UP], [];
    ss, es := Extend(ss, es, EnterTrigger(0));
    ss, es := Extend(ss, es, Advance(0, None, true));
    ss, es := Extend(ss, es, Advance(0, Some(1), true));
    ss, es := Extend(ss, es, Advance(0, None, true));
    ss, es := Extend(ss, es, Advance(0, None, true));
    ss, es := Extend(ss, es, Advance(0, None, true));
  }

  /** The timer expires between the state change and the CNTL write: the fault worker and the triggering
      thread own the state together. */
  lemma EarlyTimerBreaksOwnership() returns (ss: seq<Sys>, es: seq<Event>)
    ensures Run(ss, es) && Init(ss[0])
    ensures |ss[|es|].pcs| == 2 && Inside(ss[|es|].pcs[0]) && Inside(ss[|es|].pcs[1])
  {
    ss, es := TriggerRun();
    ss, es := Extend(ss, es, TimerFires);
    ss, es := Extend(ss, es, EnterWorker(1));
    ss, es := Extend(ss, es, Advance(1, None, true));
  }

  /** The run goes on: the fault worker takes the switch that was never requested for a finished one ... */
  lemma EarlyTimerFinished() returns (ss: seq<Sys>, es: seq<Event>)
    ensures Run(ss, es) && ss[0] == POWER_UP
    ensures ss[|es|] == Sys([WriteCntl, Rest], Shared(None, COMPLETE, 0, Some(1), 2, Idle, false))
  {
    ss, es := TriggerRun();
    ss, es := Extend(ss, es, TimerFires);
    ss, es := Extend(ss, es, EnterWorker(1));
    ss, es := Extend(ss, es, Advance(1, None, true));
    ss, es := Extend(ss, es, Advance(1, None, true));
    ss, es := Extend(ss, es, Advance(1, None, true));
    ss, es := Extend(ss, es, Advance(1, None, true));
  }

  lemma EarlyTimerAdopted() returns (ss: seq<Sys>, es: seq<Event>)
    ensures Run(ss, es) && ss[0] == POWER_UP
    ensures ss[|es|] == Sys([WriteCntl, Refresh(Dispatch)], Shared(Some(1), COMPLETE, 1, None, 2, Idle, false))
  {
    ss, es := EarlyTimerFinished();
    ss, es := Extend(ss, es, EnterSchedule(1));
    ss, es := Extend(ss, es, Advance(1, None, true));
    ss, es := Extend(ss, es, Advance(1, None, true));
    ss, es := Extend(ss, es, Advance(1, None, true));
    ss, es := Extend(ss, es, Advance(1, None, true));
  }

  lemma EarlyTimerRetriggers() returns (ss: seq<Sys>, es: seq<Event>)
    ensures Run(ss, es) && ss[0] == POWER_UP
    ensures ss[|es|] == Sys([WriteCntl, WriteRecord(0)], Shared(Some(1), START, 1, None, 2, Idle, false))
  {
    ss, es := EarlyTimerAdopted();
    ss, es := Extend(ss, es, Advance(1, None, true));
    ss, es := Extend(ss, es, Advance(1, None, true));
    ss, es := Extend(ss, es, Advance(1, None, true));
    ss, es := Extend(ss, es, Advance(1, Some(0), true));
  }

  /** ... and the dispatcher triggers a new one and requests it, while the first thread is still about to
      write CNTL: it will do so with a switch outstanding. */
  lemma CntlWrittenTwice() returns (ss: seq<Sys>, es: seq<Event>)
    ensures Run(ss, es) && Init(ss[0])
    ensures |ss[|es|].pcs| == 2 && ss[|es|].pcs[0] == WriteCntl && ss[|es|].sh.phase == Requested
  {
    ss, es := EarlyTimerRetriggers();
    ss, es := Extend(ss, es, Advance(1, None, true));
    ss, es := Extend(ss, es, Advance(1, None, true));
    ss, es := Extend(ss, es, Advance(1, None, true));
    ss, es := Extend(ss, es, Advance(1, None, true));
  }

  /** A first switch completes, but the timer takes the state before the interrupt is delivered. */
  lemma StaleRunTimedOut() returns (ss: seq<Sys>, es: seq<Event>)
    ensures Run(ss, es) && ss[0] == POWER_UP
    ensures ss[|es|] == Sys([Rest, Rest], Shared(None, FAULTED, 0, Some(1), 2, Idle, true))
  {
    ss, es := TriggerRun();
    ss, es := Extend(ss, es, Advance(0, None, true));
    ss, es := Extend(ss, es, CpLoads);
    ss, es := Extend(ss, es, CpClears(true));
    ss, es := Extend(ss, es, TimerFires);
  }

  /** The fault worker finds it complete; the interrupt still waits. */
  lemma StaleRunRecovered() returns (ss: seq<Sys>, es: seq<Event>)
    ensures Run(ss, es) && ss[0] == POWER_UP
    ensures ss[|es|] == Sys([Rest, Rest], Shared(None, COMPLETE, 0, Some(1), 2, Idle, true))
  {
    ss, es := StaleRunTimedOut();
    ss, es := Extend(ss, es, EnterWorker(1));
    ss, es := Extend(ss, es, Advance(1, None, true));
    ss, es := Extend(ss, es, Advance(1, None, true));
    ss, es := Extend(ss, es, Advance(1, None, true));
    ss, es := Extend(ss, es, Advance(1, None, true));
  }

  lemma StaleRunAdopted() returns (ss: seq<Sys>, es: seq<Event>)
    ensures Run(ss, es) && ss[0] == POWER_UP
    ensures ss[|es|] == Sys([Rest, ClearNext(Dispatch)], Shared(Some(1), COMPLETE, 1, Some(1), 2, Idle, true))
  {
    ss, es := StaleRunRecovered();
    ss, es := Extend(ss, es, EnterSchedule(1));
    ss, es := Extend(ss, es, Advance(1, None, true));
    ss, es := Extend(ss, es, Advance(1, None, true));
    ss, es := Extend(ss, es, Advance(1, None, true));
  }

  lemma StaleRunReleased() returns (ss: seq<Sys>, es: seq<Event>)
    ensures Run(ss, es) && ss[0] == POWER_UP
    ensures ss[|es|] == Sys([Rest, TryTrigger], Shared(Some(1), NONE, 1, None, 2, Idle, true))
  {
    ss, es := StaleRunAdopted();
    ss, es := Extend(ss, es, Advance(1, None, true));
    ss, es := Extend(ss, es, Advance(1, None, true));
    ss, es := Extend(ss, es, Advance(1, None, true));
  }

  /** An interrupt of an earlier switch is delivered in the window: its handler finishes a switch the CP
      has not begun, next to the thread still triggering it. */
  lemma StaleInterruptBreaksOwnership() returns (ss: seq<Sys>, es: seq<Event>)
    ensures Run(ss, es) && Init(ss[0])
    ensures |ss[|es|].pcs| == 2 && Inside(ss[|es|].pcs[0]) && Inside(ss[|es|].pcs[1])
  {
    ss, es := StaleRunReleased();
    ss, es := Extend(ss, es, Advance(1, None, true));
    ss, es := Extend(ss, es, Advance(1, Some(0), true));
    ss, es := Extend(ss, es, Advance(1, None, true));
    ss, es := Extend(ss, es, Advance(1, None, true));
    ss, es := Extend(ss, es, Advance(1, None, true));
    ss, es := Extend(ss, es, EnterCallback(0));
  }
}
