/** What one A5xx submission does, packet by packet: the timestamps of the submitting context, the
    reference timestamp, the interrupt and the indirect buffers. */
module A5xxEffects {
  import opened Words
  import opened Pm4
  import opened Wrappers
  import opened A5xxSubmission
  import opened A5xxTimeline

  /** The four cells of a user submission, all different, and left alone by the payload. */
  ghost predicate OwnCells(e: Env, c: Call, pl: seq<Packet>)
    requires c.ctx.Some?
  {
    var x := c.ctx.value;
    && CallOk(c) && x.sop != x.eop
    && x.sop != e.sop && x.sop != e.eop && x.sop != e.refWait
    && x.eop != e.sop && x.eop != e.eop && x.eop != e.refWait
    && Untouched(pl, x.sop) && Untouched(pl, x.eop)
  }

  /** Where the payload starts. */
  ghost function PayloadAt(e: Env, c: Call): nat
    requires CallOk(c)
  {
    |Lead(e, c)| + 1 + |Open(c)|
  }

  lemma WrapperUntouched(e: Env, c: Call, a: u64)
    requires CallOk(c)
    ensures Untouched([Identifier(c)] + PreIbSubmit(e, c.ctx) + OptIb(c.preIb), a)
    ensures Untouched(OptIb(c.postIb) + Opt(e.halt, WAIT_MEM), a) && Untouched(Reprotect(c), a)
    ensures Untouched(Open(c), a) && Untouched(Trail(e, c), a)
  {
    ModesUntouched(e, c, a);
    assert Untouched(SaveAddr(e), a);
    assert Untouched(PreIbSubmit(e, c.ctx), a);
    assert Untouched(OptIb(c.preIb), a) && Untouched(OptIb(c.postIb), a);
  }

  /** The packets in front of the store to the context's sop, and behind it. */
  lemma SplitAtSop(e: Env, c: Call, pl: seq<Packet>, rbTs: u32, sequence: u32)
    requires CallOk(c) && c.ctx.Some?
    ensures Submission(e, c, pl, rbTs, sequence)
      == ([Identifier(c)] + PreIbSubmit(e, c.ctx) + OptIb(c.preIb))
         + ([MemWrite(c.ctx.value.sop, c.ts)]
            + ([SopWrite(e, rbTs)]
               + (Open(c) + (pl + (Close(e, c, sequence) + ([EopWrite(e, c, rbTs)] + Trail(e, c)))))))
  {
    Assoc([Identifier(c)] + PreIbSubmit(e, c.ctx) + OptIb(c.preIb), [MemWrite(c.ctx.value.sop, c.ts)],
          [SopWrite(e, rbTs)] + (Open(c) + (pl + (Close(e, c, sequence) + ([EopWrite(e, c, rbTs)] + Trail(e, c))))));
  }

  /** Everything up to the payload, the payload, and what follows it up to the reference timestamp. */
  ghost function UpToRefWait(e: Env, c: Call, pl: seq<Packet>, rbTs: u32): seq<Packet>
    requires CallOk(c)
  {
    Lead(e, c) + [SopWrite(e, rbTs)] + Open(c) + pl + Reprotect(c) + (OptIb(c.postIb) + Opt(e.halt, WAIT_MEM))
  }

  lemma SplitAtRefWait(e: Env, c: Call, pl: seq<Packet>, rbTs: u32, sequence: u32)
    requires CallOk(c)
    ensures Submission(e, c, pl, rbTs, sequence)
      == UpToRefWait(e, c, pl, rbTs)
         + ([MemWrite(e.refWait, sequence)] + (CtxEop(c) + ([EopWrite(e, c, rbTs)] + Trail(e, c))))
  {
    var l, o, r, f := Lead(e, c) + [SopWrite(e, rbTs)], Open(c), Reprotect(c), OptIb(c.postIb) + Opt(e.halt, WAIT_MEM);
    var w, x, t := [MemWrite(e.refWait, sequence)], CtxEop(c), [EopWrite(e, c, rbTs)] + Trail(e, c);
    assert Close(e, c, sequence) == r + (f + w + x);
    Six(l, o, pl, r, f, w, x, t);
  }

  lemma Six<T>(l: seq<T>, o: seq<T>, p: seq<T>, r: seq<T>, f: seq<T>, w: seq<T>, x: seq<T>, t: seq<T>)
    ensures l + (o + (p + (r + (f + w + x) + t))) == l + o + p + r + f + (w + (x + t))
  {
  }

  /** At every point k: the context's sop cell holds the call's timestamp once the packet that starts the
      submission is through, well before the payload. */
  lemma ContextSop(e: Env, c: Call, pl: seq<Packet>, rbTs: u32, sequence: u32, v: u32, k: nat)
    requires c.ctx.Some? && OwnCells(e, c, pl) && k <= |Submission(e, c, pl, rbTs, sequence)|
    ensures PayloadAt(e, c) <= k ==> CellAfter(Submission(e, c, pl, rbTs, sequence)[..k], c.ctx.value.sop, v) == c.ts
  {
    var x := c.ctx.value;
    var before := [Identifier(c)] + PreIbSubmit(e, c.ctx) + OptIb(c.preIb);
    var after := [SopWrite(e, rbTs)]
                 + (Open(c) + (pl + (Close(e, c, sequence) + ([EopWrite(e, c, rbTs)] + Trail(e, c)))));
    SplitAtSop(e, c, pl, rbTs, sequence);
    WrapperUntouched(e, c, x.sop);
    CloseUntouched(e, c, sequence, x.sop);
    StoresOfMemWrite(x.sop, c.ts, x.sop);
    StoresOfMemWrite(e.sop, rbTs, x.sop);
    StoresOfFlushTs(e.eop, rbTs, c.ctx.None?, x.sop);
    assert Untouched(after, x.sop);
    OneStore(before, MemWrite(x.sop, c.ts), after, x.sop, v, k);
  }

  lemma CloseUntouched(e: Env, c: Call, sequence: u32, a: u64)
    requires CallOk(c) && c.ctx.Some? && a != e.refWait && a != c.ctx.value.eop
    ensures Untouched(Close(e, c, sequence), a)
  {
    StoresOfMemWrite(e.refWait, sequence, a);
    StoresOfFlushTs(c.ctx.value.eop, c.ts, true, a);
    FlushUntouched(e, c, sequence, a);
  }

  /** The context's eop cell keeps its value through the payload and holds the call's timestamp at the end:
      the context retires neither before its work nor not at all. */
  lemma ContextEop(e: Env, c: Call, pl: seq<Packet>, rbTs: u32, sequence: u32, v: u32, k: nat)
    requires c.ctx.Some? && OwnCells(e, c, pl) && k <= |Submission(e, c, pl, rbTs, sequence)|
    ensures PayloadAt(e, c) + |pl| <= |Submission(e, c, pl, rbTs, sequence)|
    ensures k <= PayloadAt(e, c) + |pl| ==>
      CellAfter(Submission(e, c, pl, rbTs, sequence)[..k], c.ctx.value.eop, v) == v
    ensures CellAfter(Submission(e, c, pl, rbTs, sequence), c.ctx.value.eop, v) == c.ts
  {
    var x, all := c.ctx.value, Submission(e, c, pl, rbTs, sequence);
    var ref, w := [MemWrite(e.refWait, sequence)], FlushTs(x.eop, c.ts, true);
    var before, after := UpToRefWait(e, c, pl, rbTs) + ref, [EopWrite(e, c, rbTs)] + Trail(e, c);
    SplitAtRefWait(e, c, pl, rbTs, sequence);
    assert CtxEop(c) == [w];
    Assoc(UpToRefWait(e, c, pl, rbTs), ref, [w] + after);
    UpToRefWaitUntouched(e, c, pl, rbTs, x.eop);
    WrapperUntouched(e, c, x.eop);
    StoresOfMemWrite(e.refWait, sequence, x.eop);
    StoresOfFlushTs(x.eop, c.ts, true, x.eop);
    StoresOfFlushTs(e.eop, rbTs, c.ctx.None?, x.eop);
    OneStore(before, w, after, x.eop, v, k);
    OneStore(before, w, after, x.eop, v, |all|);
    assert all[..|all|] == all;
  }

  lemma UpToRefWaitUntouched(e: Env, c: Call, pl: seq<Packet>, rbTs: u32, a: u64)
    requires CallOk(c) && Untouched(pl, a) && a != e.sop && (c.ctx.Some? ==> a != c.ctx.value.sop)
    ensures Untouched(UpToRefWait(e, c, pl, rbTs), a)
    ensures |UpToRefWait(e, c, pl, rbTs)| >= PayloadAt(e, c) + |pl|
  {
    WrapperUntouched(e, c, a);
    StoresOfMemWrite(e.sop, rbTs, a);
    if c.ctx.Some? {
      StoresOfMemWrite(c.ctx.value.sop, c.ts, a);
    }
    LeadUntouched(e, c, a);
  }

  /** Every submission leaves its sequence number in ref_wait_ts, which is what the storm detector reads. */
  lemma RefWaitHoldsSequence(e: Env, c: Call, pl: seq<Packet>, rbTs: u32, sequence: u32, v: u32)
    requires CallOk(c) && Untouched(pl, e.refWait) && e.refWait != e.sop && e.refWait != e.eop
    requires c.ctx.Some? ==> e.refWait != c.ctx.value.sop && e.refWait != c.ctx.value.eop
    ensures CellAfter(Submission(e, c, pl, rbTs, sequence), e.refWait, v) == sequence
  {
    var all, a := Submission(e, c, pl, rbTs, sequence), e.refWait;
    var after := CtxEop(c) + ([EopWrite(e, c, rbTs)] + Trail(e, c));
    SplitAtRefWait(e, c, pl, rbTs, sequence);
    UpToRefWaitUntouched(e, c, pl, rbTs, a);
    WrapperUntouched(e, c, a);
    StoresOfMemWrite(a, sequence, a);
    StoresOfFlushTs(e.eop, rbTs, c.ctx.None?, a);
    if c.ctx.Some? {
      StoresOfFlushTs(c.ctx.value.eop, c.ts, true, a);
    }
    assert Untouched(after, a);
    OneStore(UpToRefWait(e, c, pl, rbTs), MemWrite(a, sequence), after, a, v, |all|);
    assert all[..|all|] == all;
  }

  // ---------------------------------------------------------------- the interrupt

  /** The packet raises CACHE_FLUSH_TS: bit 31 of an event write with that event. */
  predicate Raises(p: Packet) {
    && p.Op? && p.op == CP_EVENT_WRITE && p.payload != []
    && p.payload[0] % 0x100 == CACHE_FLUSH_TS && p.payload[0] >= 0x8000_0000
  }

  ghost function Interrupts(ps: seq<Packet>): nat {
    if ps == [] then 0 else (if Raises(ps[0]) then 1 else 0) + Interrupts(ps[1..])
  }

  lemma {:induction false} InterruptsAppend(ps: seq<Packet>, qs: seq<Packet>)
    ensures Interrupts(ps + qs) == Interrupts(ps) + Interrupts(qs)
    decreases |ps|
  {
    if ps == [] {
      assert ps + qs == qs;
    } else {
      assert (ps + qs)[1..] == ps[1..] + qs;
      InterruptsAppend(ps[1..], qs);
    }
  }

  lemma {:induction false} NoInterrupts(ps: seq<Packet>)
    requires forall p :: p in ps ==> !Raises(p)
    ensures Interrupts(ps) == 0
    decreases |ps|
  {
    if ps != [] {
      NoInterrupts(ps[1..]);
    }
  }

  lemma OneInterrupt(p: Packet)
    ensures Interrupts([p]) == if Raises(p) then 1 else 0
  {
    assert [p][1..] == [];
    assert Interrupts([p]) == (if Raises(p) then 1 else 0) + Interrupts([p][1..]);
  }

  lemma InterruptParts(front: seq<Packet>, pl: seq<Packet>, back: seq<Packet>, x: seq<Packet>, eop: Packet,
                       t: seq<Packet>)
    ensures Interrupts(front + pl + back + (x + ([eop] + t)))
      == Interrupts(front) + Interrupts(pl) + Interrupts(back) + Interrupts(x)
         + (if Raises(eop) then 1 else 0) + Interrupts(t)
  {
    InterruptsAppend(front + pl + back, x + ([eop] + t));
    InterruptsAppend(front + pl, back);
    InterruptsAppend(front, pl);
    InterruptsAppend(x, [eop] + t);
    InterruptsAppend([eop], t);
    OneInterrupt(eop);
  }

  /** What stands between the payload and the context's eop write. */
  ghost function Between(e: Env, c: Call, sequence: u32): seq<Packet>
    requires CallOk(c)
  {
    Reprotect(c) + (OptIb(c.postIb) + Opt(e.halt, WAIT_MEM)) + [MemWrite(e.refWait, sequence)]
  }

  /** A submission in four parts around its payload. */
  lemma Parts(e: Env, c: Call, pl: seq<Packet>, rbTs: u32, sequence: u32)
    requires CallOk(c)
    ensures Submission(e, c, pl, rbTs, sequence)
      == (Lead(e, c) + [SopWrite(e, rbTs)] + Open(c)) + pl + Between(e, c, sequence)
         + (CtxEop(c) + ([EopWrite(e, c, rbTs)] + Trail(e, c)))
  {
    SplitAtRefWait(e, c, pl, rbTs, sequence);
    Regrouped(Lead(e, c) + [SopWrite(e, rbTs)] + Open(c), pl, Reprotect(c), OptIb(c.postIb) + Opt(e.halt, WAIT_MEM),
              [MemWrite(e.refWait, sequence)], CtxEop(c) + ([EopWrite(e, c, rbTs)] + Trail(e, c)));
  }

  lemma Regrouped<T>(a: seq<T>, p: seq<T>, r: seq<T>, f: seq<T>, w: seq<T>, t: seq<T>)
    ensures a + p + r + f + (w + t) == a + p + (r + f + w) + t
  {
  }

  /** A submission raises exactly one interrupt of its own: with the context's eop write, or with the
      ring's when there is no context. */
  lemma OneInterruptPerSubmission(e: Env, c: Call, pl: seq<Packet>, rbTs: u32, sequence: u32)
    requires CallOk(c)
    ensures Interrupts(Submission(e, c, pl, rbTs, sequence)) == Interrupts(pl) + 1
    ensures Raises(EopWrite(e, c, rbTs)) <==> c.ctx.None?
    ensures c.ctx.Some? ==> CtxEop(c) == [FlushTs(c.ctx.value.eop, c.ts, true)] && Raises(CtxEop(c)[0])
  {
    Parts(e, c, pl, rbTs, sequence);
    InterruptParts(Lead(e, c) + [SopWrite(e, rbTs)] + Open(c), pl, Between(e, c, sequence), CtxEop(c),
                   EopWrite(e, c, rbTs), Trail(e, c));
    FrontRaisesNothing(e, c, rbTs);
    BackRaisesNothing(e, c, sequence);
    if c.ctx.Some? {
      OneInterrupt(FlushTs(c.ctx.value.eop, c.ts, true));
    }
  }

  lemma FrontRaisesNothing(e: Env, c: Call, rbTs: u32)
    requires CallOk(c)
    ensures Interrupts(Lead(e, c) + [SopWrite(e, rbTs)] + Open(c)) == 0
  {
    assert forall p :: p in SaveAddr(e) ==> !Raises(p);
    assert forall p :: p in PreIbSubmit(e, c.ctx) ==> !Raises(p);
    assert forall p :: p in OptIb(c.preIb) + CtxSop(c) ==> !Raises(p);
    NoInterrupts(Lead(e, c) + [SopWrite(e, rbTs)] + Open(c));
  }

  lemma BackRaisesNothing(e: Env, c: Call, sequence: u32)
    requires CallOk(c)
    ensures Interrupts(Between(e, c, sequence)) == 0 && Interrupts(Trail(e, c)) == 0
  {
    NoInterrupts(Between(e, c, sequence));
    NoInterrupts(Trail(e, c));
  }

  // ---------------------------------------------------------------- the indirect buffers

  lemma OptIbCalls(ib: Option<IbCall>)
    requires ib.Some? ==> ib.value.dwords < TWO32
    ensures Ibs(Modern, OptIb(ib)) == if ib.Some? then [ib.value] else []
  {
    if ib.Some? {
      JoinSplit(ib.value.gpuaddr);
      assert OptIb(ib)[1..] == [];
      assert Ibs(Modern, OptIb(ib)) == IbOf(Modern, OptIb(ib)[0]) + Ibs(Modern, []);
    }
  }

  lemma IbsOfParts(front: seq<Packet>, pl: seq<Packet>, back: seq<Packet>, t: seq<Packet>)
    requires Ibs(Modern, t) == []
    ensures Ibs(Modern, front + pl + back + t) == Ibs(Modern, front) + Ibs(Modern, pl) + Ibs(Modern, back)
  {
    IbsAppend(Modern, front + pl + back, t);
    IbsAppend(Modern, front + pl, back);
    IbsAppend(Modern, front, pl);
  }

  lemma IbsInMiddle(a: seq<Packet>, ib: seq<Packet>, b: seq<Packet>)
    requires Ibs(Modern, a) == [] && Ibs(Modern, b) == []
    ensures Ibs(Modern, a + ib + b) == Ibs(Modern, ib)
  {
    IbsAppend(Modern, a + ib, b);
    IbsAppend(Modern, a, ib);
  }

  /** A submission calls the profiling buffer in front, what its payload calls, and the profiling buffer
      behind, in this order. */
  lemma SubmissionCalls(e: Env, c: Call, pl: seq<Packet>, rbTs: u32, sequence: u32)
    requires CallOk(c)
    ensures Ibs(Modern, Submission(e, c, pl, rbTs, sequence))
      == (if c.preIb.Some? then [c.preIb.value] else []) + Ibs(Modern, pl)
         + (if c.postIb.Some? then [c.postIb.value] else [])
  {
    Parts(e, c, pl, rbTs, sequence);
    FrontCalls(e, c, rbTs);
    BackCalls(e, c, sequence);
    EndSilent(e, c, rbTs);
    IbsOfParts(Lead(e, c) + [SopWrite(e, rbTs)] + Open(c), pl, Between(e, c, sequence),
               CtxEop(c) + ([EopWrite(e, c, rbTs)] + Trail(e, c)));
  }

  lemma EndSilent(e: Env, c: Call, rbTs: u32)
    ensures Ibs(Modern, CtxEop(c) + ([EopWrite(e, c, rbTs)] + Trail(e, c))) == []
  {
    IbsSilent(Modern, CtxEop(c) + ([EopWrite(e, c, rbTs)] + Trail(e, c)));
  }

  lemma FrontCalls(e: Env, c: Call, rbTs: u32)
    requires CallOk(c)
    ensures Ibs(Modern, Lead(e, c) + [SopWrite(e, rbTs)] + Open(c)) == if c.preIb.Some? then [c.preIb.value] else []
  {
    Nested([Identifier(c)] + PreIbSubmit(e, c.ctx) + OptIb(c.preIb), CtxSop(c), [SopWrite(e, rbTs)], Open(c));
    PreIbSilent(e, c);
    SopSilent(e, c, rbTs);
    IbsInMiddle([Identifier(c)] + PreIbSubmit(e, c.ctx), OptIb(c.preIb), CtxSop(c) + ([SopWrite(e, rbTs)] + Open(c)));
    OptIbCalls(c.preIb);
  }

  lemma Nested<T>(a: seq<T>, x: seq<T>, s: seq<T>, o: seq<T>)
    ensures a + x + s + o == a + (x + (s + o))
  {
  }

  lemma SopSilent(e: Env, c: Call, rbTs: u32)
    ensures Ibs(Modern, CtxSop(c) + ([SopWrite(e, rbTs)] + Open(c))) == []
  {
    IbsSilent(Modern, CtxSop(c) + ([SopWrite(e, rbTs)] + Open(c)));
  }

  lemma PreIbSilent(e: Env, c: Call)
    ensures Ibs(Modern, [Identifier(c)] + PreIbSubmit(e, c.ctx)) == []
  {
    assert forall p :: p in SaveAddr(e) ==> IbOf(Modern, p) == [];
    assert forall p :: p in PreIbSubmit(e, c.ctx) ==> IbOf(Modern, p) == [];
    IbsSilent(Modern, [Identifier(c)] + PreIbSubmit(e, c.ctx));
  }

  lemma BackCalls(e: Env, c: Call, sequence: u32)
    requires CallOk(c)
    ensures Ibs(Modern, Between(e, c, sequence)) == if c.postIb.Some? then [c.postIb.value] else []
  {
    var b := Opt(e.halt, WAIT_MEM) + [MemWrite(e.refWait, sequence)];
    assert Between(e, c, sequence) == Reprotect(c) + OptIb(c.postIb) + b;
    IbsSilent(Modern, Reprotect(c));
    IbsSilent(Modern, b);
    IbsInMiddle(Reprotect(c), OptIb(c.postIb), b);
    OptIbCalls(c.postIb);
  }

  // ---------------------------------------------------------------- preemption control

  /** The last value a stream gives to a one-word control packet. */
  ghost function Control(ps: seq<Packet>, op: nat): Option<u32> {
    if ps == [] then None
    else
      var p := ps[|ps| - 1];
      if p.Op? && p.op == op && |p.payload| == 1 then Some(p.payload[0]) else Control(ps[..|ps| - 1], op)
  }

  lemma ControlSnoc(ps: seq<Packet>, p: Packet, op: nat)
    ensures Control(ps + [p], op)
      == if p.Op? && p.op == op && |p.payload| == 1 then Some(p.payload[0]) else Control(ps, op)
  {
    assert (ps + [p])[..|ps|] == ps;
  }

  /** With preemption on, every submission allows preemption inside its buffers exactly for a context that is
      not secure and asks for fine grain, and enables yields. */
  lemma PreemptionControls(e: Env, ctx: Option<Context>)
    requires e.preemption
    ensures var fine := ctx.Some? && !ctx.value.secure && ctx.value.finegrain;
      && Control(PreIbSubmit(e, ctx), 0x69) == Some(if fine then 2 else 0)
      && Control(PreIbSubmit(e, ctx), 0x6A) == Some(if fine then 1 else 0)
      && Control(PreIbSubmit(e, ctx), 0x1C) == Some(2)
  {
    var fine := Finegrain(ctx);
    var g := Op(CP_PREEMPT_ENABLE_GLOBAL, [if fine then 2 else 0]);
    var l := Op(CP_PREEMPT_ENABLE_LOCAL, [if fine then 1 else 0]);
    var front := [g] + SaveAddr(e);
    ControlSnoc(front + [l], YIELD_IBS, 0x69);
    ControlSnoc(front + [l], YIELD_IBS, 0x6A);
    ControlSnoc(front + [l], YIELD_IBS, 0x1C);
    ControlSnoc(front, l, 0x69);
    ControlSnoc(front, l, 0x6A);
    SaveAddrKeepsControl(e, g);
  }

  lemma SaveAddrKeepsControl(e: Env, g: Packet)
    requires g.Op? && g.op == 0x69 && |g.payload| == 1
    ensures Control([g] + SaveAddr(e), 0x69) == Some(g.payload[0])
  {
    var s := SaveAddr(e);
    var none: seq<Packet> := [];
    assert none + [g] == [g];
    ControlSnoc(none, g, 0x69);
    ControlSnoc([g], s[0], 0x69);
    ControlSnoc([g] + [s[0]], s[1], 0x69);
    ControlSnoc([g] + [s[0]] + [s[1]], s[2], 0x69);
    ControlSnoc([g] + [s[0]] + [s[1]] + [s[2]], s[3], 0x69);
    assert [g] + s == [g] + [s[0]] + [s[1]] + [s[2]] + [s[3]];
  }

  /** Behind the timestamps: a wait for idle exactly when asked for, and with preemption a yield that raises
      the switch interrupt as the very last packet. */
  lemma EndOfSubmission(e: Env, c: Call, pl: seq<Packet>, rbTs: u32, sequence: u32)
    requires CallOk(c)
    ensures Op(0x26, []) in Trail(e, c) <==> c.wfi
    ensures e.preemption ==>
      var ps := Submission(e, c, pl, rbTs, sequence); ps != [] && ps[|ps| - 1] == Op(0x6B, [0, 0, 1, 1])
  {
    Parts(e, c, pl, rbTs, sequence);
    if e.preemption {
      assert Trail(e, c)[|Trail(e, c)| - 1] == YIELD;
    }
  }

  // ---------------------------------------------------------------- words

  /** The words of the packets that write memory. */
  lemma PacketWords(a: u64, v: u32, irq: bool)
    ensures EncodeOne(Modern, MemWrite(a, v)) == [0x703D_8003, a % TWO32, a / TWO32, v]
    ensures EncodeOne(Modern, FlushTs(a, v, irq))
      == [0x7046_0004, if irq then 0x8000_0004 else 4, a % TWO32, a / TWO32, v]
    ensures EncodeOne(Modern, WhereAmI(a)) == [0x7062_0002, a % TWO32, a / TWO32]
  {
    SmallParities();
    OpcodeParities();
  }

  lemma OpcodeParities()
    ensures OddParity(0x3D) == 0 && OddParity(0x46) == 0 && OddParity(0x62) == 0
  {
    assert OddParity(0xF) == 1 && OddParity(0x23) == 0 && OddParity(0x31) == 0;
  }

  /** A submission starts with a marker that tells the driver's own commands from a context's. */
  lemma StartOfSubmission(e: Env, c: Call, pl: seq<Packet>, rbTs: u32, sequence: u32)
    requires CallOk(c)
    ensures Submission(e, c, pl, rbTs, sequence)[..1] == [Op(0x10, [if c.ctx.Some? then 0x2EED_FACE else 0x2EED_D00D])]
  {
    Parts(e, c, pl, rbTs, sequence);
    assert Lead(e, c)[0] == Identifier(c);
  }
}
