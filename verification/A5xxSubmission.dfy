/** a5xx_ringbuffer_addcmds: the packets wrapped around a payload, and what they do to the CP's modes
    and to the ring's timestamps. */
module A5xxSubmission {
  import opened Words
  import opened Pm4
  import opened Wrappers

  const CMD_IDENTIFIER := 0x2EEDFACE
  const CMD_INTERNAL_IDENTIFIER := 0x2EEDD00D
  const A5XX_CP_CONTEXT_SWITCH_SAVE_ADDR_LO := 0x83E
  const A5XX_CP_CONTEXT_SWITCH_SAVE_ADDR_HI := 0x83F
  const A5XX_SUBMIT_MAX := 64

  const PROT_OFF: Packet := Op(CP_SET_PROTECTED_MODE, [0])
  const PROT_ON: Packet := Op(CP_SET_PROTECTED_MODE, [1])
  const SECURE_ON: Packet := Op(CP_SET_SECURE_MODE, [1])
  const SECURE_OFF: Packet := Op(CP_SET_SECURE_MODE, [0])
  const WFI: Packet := Op(CP_WAIT_FOR_IDLE, [])
  const WAIT_MEM: Packet := Op(CP_WAIT_MEM_WRITES, [])
  const YIELD: Packet := Op(CP_CONTEXT_SWITCH_YIELD, [0, 0, 1, 1])
  const YIELD_IBS: Packet := Op(CP_YIELD_ENABLE, [2])

  /** The ring's addresses: its preemption record, its timestamps in the memstore, and the global
      ref_wait_ts; halt: page faults halt the GPU and the chip is not an A510. */
  datatype Env = Env(preemption: bool, record: u64, sop: u64, eop: u64, refWait: u64, halt: bool)

  /** The submitting context, absent for the driver's own commands. */
  datatype Context = Context(sop: u64, eop: u64, secure: bool, finegrain: bool)

  /** flags and values of one call; the profiling IBs are there when profiling assigned them. */
  datatype Call = Call(ctx: Option<Context>, notProtected: bool, secure: bool, wfi: bool, ts: u32,
                       preIb: Option<IbCall>, postIb: Option<IbCall>)

  ghost predicate CallOk(c: Call) {
    (c.preIb.Some? ==> c.preIb.value.dwords < TWO32) && (c.postIb.Some? ==> c.postIb.value.dwords < TWO32)
  }

  function MemWrite(a: u64, v: u32): Packet { Op(CP_MEM_WRITE, [Lower32(a), Upper32(a), v]) }

  function FlushTs(a: u64, v: u32, irq: bool): Packet {
    Op(CP_EVENT_WRITE, [CACHE_FLUSH_TS + (if irq then 0x8000_0000 else 0), Lower32(a), Upper32(a), v])
  }

  predicate Finegrain(ctx: Option<Context>) { ctx.Some? && !ctx.value.secure && ctx.value.finegrain }

  ghost function PreIbSubmit(e: Env, ctx: Option<Context>): seq<Packet> {
    if !e.preemption then []
    else [Op(CP_PREEMPT_ENABLE_GLOBAL, [if Finegrain(ctx) then 2 else 0])] + SaveAddr(e)
         + [Op(CP_PREEMPT_ENABLE_LOCAL, [if Finegrain(ctx) then 1 else 0])] + [YIELD_IBS]
  }

  ghost function OptIb(ib: Option<IbCall>): seq<Packet>
    requires ib.Some? ==> ib.value.dwords < TWO32
  {
    if ib.Some? then [CallIb(ib.value.gpuaddr, ib.value.dwords)] else []
  }

  ghost function CtxSop(c: Call): seq<Packet> {
    if c.ctx.Some? then [MemWrite(c.ctx.value.sop, c.ts)] else []
  }

  ghost function CtxEop(c: Call): seq<Packet> {
    if c.ctx.Some? then [FlushTs(c.ctx.value.eop, c.ts, true)] else []
  }

  function Identifier(c: Call): Packet {
    Op(CP_NOP, [if c.ctx.Some? then CMD_IDENTIFIER else CMD_INTERNAL_IDENTIFIER])
  }

  /** Everything up to the ring's start-of-pipe timestamp. */
  ghost function Lead(e: Env, c: Call): seq<Packet>
    requires CallOk(c)
  {
    [Identifier(c)] + PreIbSubmit(e, c.ctx) + OptIb(c.preIb) + CtxSop(c)
  }

  /** Entering the modes of the payload. */
  ghost function Open(c: Call): seq<Packet> {
    Opt(c.secure, SECURE_ON) + Opt(c.notProtected, PROT_OFF)
  }

  /** From the payload to the ring's end-of-pipe timestamp. */
  ghost function Close(e: Env, c: Call, sequence: u32): seq<Packet>
    requires CallOk(c)
  {
    Reprotect(c) + Flush(e, c, sequence)
  }

  ghost function Reprotect(c: Call): seq<Packet> { Opt(c.notProtected, PROT_ON) }

  /** Post-profiling, the unique write that exposes interrupt storms, the context's timestamp. */
  ghost function Flush(e: Env, c: Call, sequence: u32): seq<Packet>
    requires CallOk(c)
  {
    OptIb(c.postIb) + Opt(e.halt, WAIT_MEM) + [MemWrite(e.refWait, sequence)] + CtxEop(c)
  }

  ghost function Trail(e: Env, c: Call): seq<Packet> {
    Opt(c.wfi, WFI) + Opt(c.secure, SECURE_OFF) + Opt(e.preemption, YIELD)
  }

  function SopWrite(e: Env, rbTs: u32): Packet { MemWrite(e.sop, rbTs) }

  function EopWrite(e: Env, c: Call, rbTs: u32): Packet { FlushTs(e.eop, rbTs, c.ctx.None?) }

  /** The packets one accepted call puts into the ring. */
  ghost function Submission(e: Env, c: Call, payload: seq<Packet>, rbTs: u32, sequence: u32): seq<Packet>
    requires CallOk(c)
  {
    Lead(e, c) + ([SopWrite(e, rbTs)] + (Open(c) + (payload + (Close(e, c, sequence)
    + ([EopWrite(e, c, rbTs)] + Trail(e, c))))))
  }

  // ---------------------------------------------------------------- writing them

  method PutLead(e: Env, c: Call) returns (cmds: seq<u32>)
    requires CallOk(c)
    ensures AllWellFormed(Modern, Lead(e, c)) && cmds == Encode(Modern, Lead(e, c))
    ensures |cmds| <= 24
  {
    cmds := PutPreIb(e, c);
    ghost var ps: seq<Packet> := [];
    ghost var qs := [Identifier(c)] + PreIbSubmit(e, c.ctx);
    assert ps + qs == qs;
    if c.preIb.Some? {
      cmds := Emit(Modern, cmds, CallIb(c.preIb.value.gpuaddr, c.preIb.value.dwords), ps, qs);
    } else {
      assert qs + OptIb(c.preIb) == qs;
    }
    qs := qs + OptIb(c.preIb);
    if c.ctx.Some? {
      cmds := Emit(Modern, cmds, MemWrite(c.ctx.value.sop, c.ts), ps, qs);
    } else {
      assert qs + CtxSop(c) == qs;
    }
    qs := qs + CtxSop(c);
    assert ps + qs == qs;
    assert qs == Lead(e, c);
  }

  method PutPreIb(e: Env, c: Call) returns (cmds: seq<u32>)
    ensures var qs := [Identifier(c)] + PreIbSubmit(e, c.ctx);
      AllWellFormed(Modern, qs) && cmds == Encode(Modern, qs)
    ensures |cmds| <= 16
  {
    ghost var ps := [Identifier(c)];
    ghost var qs: seq<Packet> := [];
    assert ps + qs == [] + ps && [] + ([] + ps) == ps;
    cmds := Emit(Modern, [], Identifier(c), [], []);
    if e.preemption {
      var fine := Finegrain(c.ctx);
      cmds := Emit(Modern, cmds, Op(CP_PREEMPT_ENABLE_GLOBAL, [if fine then 2 else 0]), ps, qs);
      qs := qs + [Op(CP_PREEMPT_ENABLE_GLOBAL, [if fine then 2 else 0])];
      cmds := PutSaveAddr(cmds, e, ps, qs);
      qs := qs + SaveAddr(e);
      cmds := Emit(Modern, cmds, Op(CP_PREEMPT_ENABLE_LOCAL, [if fine then 1 else 0]), ps, qs);
      qs := qs + [Op(CP_PREEMPT_ENABLE_LOCAL, [if fine then 1 else 0])];
      cmds := Emit(Modern, cmds, YIELD_IBS, ps, qs);
      qs := qs + [YIELD_IBS];
    }
    assert qs == PreIbSubmit(e, c.ctx);
  }

  ghost function SaveAddr(e: Env): seq<Packet> {
    [PROT_OFF, Regs(A5XX_CP_CONTEXT_SWITCH_SAVE_ADDR_LO, [Lower32(e.record)]),
     Regs(A5XX_CP_CONTEXT_SWITCH_SAVE_ADDR_HI, [Upper32(e.record)]), PROT_ON]
  }

  /** The save address is written with protection off, and protection is back on behind it. */
  method PutSaveAddr(cmds: seq<u32>, e: Env, ghost ps: seq<Packet>, ghost qs: seq<Packet>) returns (cmds': seq<u32>)
    requires AllWellFormed(Modern, ps + qs) && cmds == Encode(Modern, ps + qs)
    ensures AllWellFormed(Modern, ps + (qs + SaveAddr(e))) && cmds' == Encode(Modern, ps + (qs + SaveAddr(e)))
    ensures |cmds'| == |cmds| + 8
  {
    ghost var ts := qs;
    cmds' := Emit(Modern, cmds, PROT_OFF, ps, ts);
    ts := ts + [PROT_OFF];
    cmds' := Emit(Modern, cmds', Regs(A5XX_CP_CONTEXT_SWITCH_SAVE_ADDR_LO, [Lower32(e.record)]), ps, ts);
    ts := ts + [Regs(A5XX_CP_CONTEXT_SWITCH_SAVE_ADDR_LO, [Lower32(e.record)])];
    cmds' := Emit(Modern, cmds', Regs(A5XX_CP_CONTEXT_SWITCH_SAVE_ADDR_HI, [Upper32(e.record)]), ps, ts);
    ts := ts + [Regs(A5XX_CP_CONTEXT_SWITCH_SAVE_ADDR_HI, [Upper32(e.record)])];
    cmds' := Emit(Modern, cmds', PROT_ON, ps, ts);
    ts := ts + [PROT_ON];
    assert ts == qs + SaveAddr(e);
  }

  /** The start-of-pipe timestamp, then the modes of the payload. */
  method PutOpen(e: Env, c: Call, rbTs: u32) returns (cmds: seq<u32>)
    ensures var qs := [SopWrite(e, rbTs)] + Open(c);
      AllWellFormed(Modern, qs) && cmds == Encode(Modern, qs)
    ensures |cmds| <= 8
  {
    ghost var none: seq<Packet> := [];
    ghost var ps := [SopWrite(e, rbTs)];
    ghost var qs: seq<Packet> := [];
    assert none + none == none && none + (none + ps) == ps + qs;
    cmds := Emit(Modern, [], SopWrite(e, rbTs), none, none);
    if c.secure {
      cmds := Emit(Modern, cmds, SECURE_ON, ps, qs);
    } else {
      assert qs + Opt(c.secure, SECURE_ON) == qs;
    }
    qs := qs + Opt(c.secure, SECURE_ON);
    if c.notProtected {
      cmds := Emit(Modern, cmds, PROT_OFF, ps, qs);
    } else {
      assert qs + Opt(c.notProtected, PROT_OFF) == qs;
    }
    qs := qs + Opt(c.notProtected, PROT_OFF);
    assert qs == Open(c);
  }

  method PutClose(e: Env, c: Call, sequence: u32) returns (cmds: seq<u32>)
    requires CallOk(c)
    ensures AllWellFormed(Modern, Close(e, c, sequence)) && cmds == Encode(Modern, Close(e, c, sequence))
    ensures |cmds| <= 16
  {
    ghost var none: seq<Packet> := [];
    cmds := [];
    assert none + none == none;
    if c.notProtected {
      cmds := Emit(Modern, cmds, PROT_ON, none, none);
    }
    assert none + (none + Reprotect(c)) == Reprotect(c);
    cmds := PutFlush(cmds, e, c, sequence, Reprotect(c));
  }

  method PutFlush(cmds: seq<u32>, e: Env, c: Call, sequence: u32, ghost ps: seq<Packet>) returns (cmds': seq<u32>)
    requires CallOk(c) && AllWellFormed(Modern, ps) && cmds == Encode(Modern, ps)
    ensures AllWellFormed(Modern, ps + Flush(e, c, sequence)) && cmds' == Encode(Modern, ps + Flush(e, c, sequence))
    ensures |cmds'| <= |cmds| + 14
  {
    ghost var qs: seq<Packet> := [];
    assert ps + qs == ps;
    cmds' := cmds;
    if c.postIb.Some? {
      cmds' := Emit(Modern, cmds', CallIb(c.postIb.value.gpuaddr, c.postIb.value.dwords), ps, qs);
    } else {
      assert ps + OptIb(c.postIb) == ps;
    }
    assert qs + OptIb(c.postIb) == OptIb(c.postIb);
    qs := OptIb(c.postIb);
    if e.halt {
      cmds' := Emit(Modern, cmds', WAIT_MEM, ps, qs);
    } else {
      assert qs + Opt(e.halt, WAIT_MEM) == qs;
    }
    qs := qs + Opt(e.halt, WAIT_MEM);
    cmds' := Emit(Modern, cmds', MemWrite(e.refWait, sequence), ps, qs);
    qs := qs + [MemWrite(e.refWait, sequence)];
    if c.ctx.Some? {
      cmds' := Emit(Modern, cmds', FlushTs(c.ctx.value.eop, c.ts, true), ps, qs);
    } else {
      assert qs + CtxEop(c) == qs;
    }
    qs := qs + CtxEop(c);
    assert qs == Flush(e, c, sequence);
  }

  /** The end-of-pipe timestamp and what follows it. */
  method PutTrail(e: Env, c: Call, rbTs: u32) returns (cmds: seq<u32>)
    ensures var qs := [EopWrite(e, c, rbTs)] + Trail(e, c);
      AllWellFormed(Modern, qs) && cmds == Encode(Modern, qs)
    ensures |cmds| <= 13
  {
    ghost var none: seq<Packet> := [];
    ghost var ps := [EopWrite(e, c, rbTs)];
    ghost var qs: seq<Packet> := [];
    assert none + none == none && none + (none + ps) == ps + qs;
    cmds := Emit(Modern, [], EopWrite(e, c, rbTs), none, none);
    if c.wfi {
      cmds := Emit(Modern, cmds, WFI, ps, qs);
    } else {
      assert qs + Opt(c.wfi, WFI) == qs;
    }
    qs := qs + Opt(c.wfi, WFI);
    if c.secure {
      cmds := Emit(Modern, cmds, SECURE_OFF, ps, qs);
    } else {
      assert qs + Opt(c.secure, SECURE_OFF) == qs;
    }
    qs := qs + Opt(c.secure, SECURE_OFF);
    if e.preemption {
      cmds := Emit(Modern, cmds, YIELD, ps, qs);
    } else {
      assert qs + Opt(e.preemption, YIELD) == qs;
    }
    qs := qs + Opt(e.preemption, YIELD);
    assert qs == Trail(e, c);
  }

  /** The whole submission around a payload that parses as pl: at most A5XX_SUBMIT_MAX - 3 dwords more
      than the payload. */
  method WriteSubmission(e: Env, c: Call, payload: seq<u32>, rbTs: u32, sequence: u32, ghost pl: seq<Packet>)
    returns (cmds: seq<u32>)
    requires CallOk(c) && AllWellFormed(Modern, pl) && payload == Encode(Modern, pl)
    ensures AllWellFormed(Modern, Submission(e, c, pl, rbTs, sequence))
    ensures cmds == Encode(Modern, Submission(e, c, pl, rbTs, sequence))
    ensures |cmds| <= A5XX_SUBMIT_MAX - 3 + |payload|
  {
    var lead := PutLead(e, c);
    var open := PutOpen(e, c, rbTs);
    var close := PutClose(e, c, sequence);
    var trail := PutTrail(e, c, rbTs);
    cmds := lead + open + payload + close + trail;
    SubmissionWords(e, c, pl, rbTs, sequence);
  }

  lemma SubmissionWords(e: Env, c: Call, pl: seq<Packet>, rbTs: u32, sequence: u32)
    requires CallOk(c) && AllWellFormed(Modern, pl) && AllWellFormed(Modern, Lead(e, c))
    requires AllWellFormed(Modern, [SopWrite(e, rbTs)] + Open(c)) && AllWellFormed(Modern, Close(e, c, sequence))
    requires AllWellFormed(Modern, [EopWrite(e, c, rbTs)] + Trail(e, c))
    ensures AllWellFormed(Modern, Submission(e, c, pl, rbTs, sequence))
    ensures Encode(Modern, Submission(e, c, pl, rbTs, sequence))
      == Encode(Modern, Lead(e, c)) + Encode(Modern, [SopWrite(e, rbTs)] + Open(c)) + Encode(Modern, pl)
         + Encode(Modern, Close(e, c, sequence)) + Encode(Modern, [EopWrite(e, c, rbTs)] + Trail(e, c))
  {
    var a, b := Lead(e, c), [SopWrite(e, rbTs)] + Open(c);
    var d, t := Close(e, c, sequence), [EopWrite(e, c, rbTs)] + Trail(e, c);
    EncodeAppend(Modern, a, b);
    EncodeAppend(Modern, a + b, pl);
    EncodeAppend(Modern, a + b + pl, d);
    EncodeAppend(Modern, a + b + pl + d, t);
    Nest(a, [SopWrite(e, rbTs)], Open(c), pl, d, t);
  }

  lemma Nest<T>(a: seq<T>, s: seq<T>, o: seq<T>, p: seq<T>, d: seq<T>, t: seq<T>)
    ensures a + (s + (o + (p + (d + t)))) == a + (s + o) + p + d + t
  {
  }

  // ---------------------------------------------------------------- modes

  predicate Modeless(p: Packet) { !(p.Op? && (p.op == CP_SET_PROTECTED_MODE || p.op == CP_SET_SECURE_MODE)) }

  lemma {:induction false} ModelessKeepsMode(ps: seq<Packet>, m: Mode)
    requires forall p :: p in ps ==> Modeless(p)
    ensures ModeAfter(ps, m) == m
    decreases |ps|
  {
    if ps != [] {
      assert ps[0] in ps;
      ModelessKeepsMode(ps[1..], ModeStep(ps[0], m));
    }
  }

  lemma LeadMode(e: Env, c: Call, m: Mode)
    requires CallOk(c)
    ensures ModeAfter(Lead(e, c), m) == if e.preemption then m.(prot := true) else m
  {
    var rest := OptIb(c.preIb) + CtxSop(c);
    assert Lead(e, c) == [Identifier(c)] + PreIbSubmit(e, c.ctx) + rest;
    ModeAppend([Identifier(c)] + PreIbSubmit(e, c.ctx), rest, m);
    ModeAppend([Identifier(c)], PreIbSubmit(e, c.ctx), m);
    ModelessKeepsMode([Identifier(c)], m);
    PreIbMode(e, c.ctx, m);
    ModelessKeepsMode(rest, ModeAfter(PreIbSubmit(e, c.ctx), m));
  }

  lemma PreIbMode(e: Env, ctx: Option<Context>, m: Mode)
    ensures ModeAfter(PreIbSubmit(e, ctx), m) == if e.preemption then m.(prot := true) else m
  {
    if e.preemption {
      var g := Op(CP_PREEMPT_ENABLE_GLOBAL, [if Finegrain(ctx) then 2 else 0]);
      var l := Op(CP_PREEMPT_ENABLE_LOCAL, [if Finegrain(ctx) then 1 else 0]);
      ModeAppend([g] + SaveAddr(e) + [l], [YIELD_IBS], m);
      ModeAppend([g] + SaveAddr(e), [l], m);
      ModeAppend([g], SaveAddr(e), m);
      ModelessKeepsMode([g], m);
      SaveAddrMode(e, m);
      ModelessKeepsMode([l], m.(prot := true));
      ModelessKeepsMode([YIELD_IBS], m.(prot := true));
    }
  }

  lemma SaveAddrMode(e: Env, m: Mode)
    ensures ModeAfter(SaveAddr(e), m) == m.(prot := true)
  {
    var ps := SaveAddr(e);
    assert ps == ps[..3] + [PROT_ON];
    ModeAppend(ps[..3], [PROT_ON], m);
    ModeOfOne(PROT_ON, ModeAfter(ps[..3], m));
    assert ps[..3] == [PROT_OFF] + ps[1..3];
    ModeAppend([PROT_OFF], ps[1..3], m);
    ModeOfOne(PROT_OFF, m);
    ModelessKeepsMode(ps[1..3], m.(prot := false));
  }

  /** Both halves of the save address are written, and with protection off. */
  lemma SaveAddrUnprotected(e: Env, m: Mode)
    ensures RegWrites(SaveAddr(e), m)
      == [RegWrite(A5XX_CP_CONTEXT_SWITCH_SAVE_ADDR_LO, Lower32(e.record), false),
          RegWrite(A5XX_CP_CONTEXT_SWITCH_SAVE_ADDR_HI, Upper32(e.record), false)]
  {
    var lo := Regs(A5XX_CP_CONTEXT_SWITCH_SAVE_ADDR_LO, [Lower32(e.record)]);
    var hi := Regs(A5XX_CP_CONTEXT_SWITCH_SAVE_ADDR_HI, [Upper32(e.record)]);
    var off := m.(prot := false);
    assert SaveAddr(e) == [PROT_OFF] + ([lo] + ([hi] + [PROT_ON]));
    RegWritesAppend([PROT_OFF], [lo] + ([hi] + [PROT_ON]), m);
    RegWritesAppend([lo], [hi] + [PROT_ON], off);
    RegWritesAppend([hi], [PROT_ON], off);
    RegWritesOfOne(PROT_OFF, m);
    RegWritesOfOne(lo, off);
    RegWritesOfOne(hi, off);
    RegWritesOfOne(PROT_ON, off);
    ModeOfOne(PROT_OFF, m);
    ModeOfOne(lo, off);
    ModeOfOne(hi, off);
  }

  lemma OpenMode(c: Call, m: Mode)
    ensures ModeAfter(Open(c), m) == Mode(m.prot && !c.notProtected, m.secure || c.secure)
  {
    var a, b := Opt(c.secure, SECURE_ON), Opt(c.notProtected, PROT_OFF);
    ModeAppend(a, b, m);
    ModeOfOne(SECURE_ON, m);
    ModeOfOne(PROT_OFF, ModeAfter(a, m));
  }

  lemma FlushModeless(e: Env, c: Call, sequence: u32)
    requires CallOk(c)
    ensures forall p :: p in Flush(e, c, sequence) ==> Modeless(p)
  {
    assert forall p :: p in OptIb(c.postIb) ==> Modeless(p);
    assert forall p :: p in CtxEop(c) ==> Modeless(p);
  }

  lemma CloseMode(e: Env, c: Call, sequence: u32, m: Mode)
    requires CallOk(c)
    ensures ModeAfter(Close(e, c, sequence), m) == m.(prot := m.prot || c.notProtected)
  {
    ModeAppend(Reprotect(c), Flush(e, c, sequence), m);
    ModeOfOne(PROT_ON, m);
    FlushModeless(e, c, sequence);
    ModelessKeepsMode(Flush(e, c, sequence), ModeAfter(Reprotect(c), m));
  }

  lemma TrailMode(e: Env, c: Call, m: Mode)
    ensures ModeAfter(Trail(e, c), m) == m.(secure := m.secure && !c.secure)
  {
    var a, b, d := Opt(c.wfi, WFI), Opt(c.secure, SECURE_OFF), Opt(e.preemption, YIELD);
    ModeAppend(a + b, d, m);
    ModeAppend(a, b, m);
    ModelessKeepsMode(a, m);
    ModeOfOne(SECURE_OFF, m);
    ModelessKeepsMode(d, ModeAfter(b, m));
  }

  /** The mode in which the CP reaches the payload, started in m. */
  ghost function PayloadMode(e: Env, c: Call, m: Mode): Mode {
    Mode((m.prot || e.preemption) && !c.notProtected, m.secure || c.secure)
  }

  /** A submission as three runs of packets: up to the payload, the payload, and behind it. */
  lemma SubmissionModes(e: Env, c: Call, pl: seq<Packet>, rbTs: u32, sequence: u32, m: Mode)
    requires CallOk(c)
    ensures ModeAfter(Lead(e, c) + ([SopWrite(e, rbTs)] + Open(c)), m) == PayloadMode(e, c, m)
    ensures ModeAfter(Submission(e, c, pl, rbTs, sequence), m)
      == var p := ModeAfter(pl, PayloadMode(e, c, m)); Mode(p.prot || c.notProtected, p.secure && !c.secure)
  {
    var a, s, d, t := Lead(e, c), [SopWrite(e, rbTs)], Close(e, c, sequence), [EopWrite(e, c, rbTs)];
    LeadMode(e, c, m);
    ModeAppend(a, s + Open(c), m);
    ModeAppend(s, Open(c), ModeAfter(a, m));
    ModelessKeepsMode(s, ModeAfter(a, m));
    OpenMode(c, ModeAfter(a, m));
    var p := ModeAfter(pl, PayloadMode(e, c, m));
    ModeAppend(a, s + (Open(c) + (pl + (d + (t + Trail(e, c))))), m);
    ModeAppend(s, Open(c) + (pl + (d + (t + Trail(e, c)))), ModeAfter(a, m));
    ModeAppend(Open(c), pl + (d + (t + Trail(e, c))), ModeAfter(a, m));
    ModeAppend(pl, d + (t + Trail(e, c)), PayloadMode(e, c, m));
    ModeAppend(d, t + Trail(e, c), p);
    CloseMode(e, c, sequence, p);
    ModeAppend(t, Trail(e, c), ModeAfter(d, p));
    ModelessKeepsMode(t, ModeAfter(d, p));
    TrailMode(e, c, ModeAfter(d, p));
  }

  /** Started protected and not secure, with a payload that leaves the modes alone: the payload runs
      secure and unprotected exactly as the flags ask, and the submission ends protected and not
      secure again. A payload that ends unprotected breaks this exactly when the call does not ask
      for an unprotected payload, and one that enters secure mode exactly when it does not ask for
      a secure one. */
  lemma SubmissionIsBalanced(e: Env, c: Call, pl: seq<Packet>, rbTs: u32, sequence: u32)
    requires CallOk(c)
    ensures var m := PayloadMode(e, c, Mode(true, false)); m.prot == !c.notProtected && m.secure == c.secure
    ensures ModeAfter(Lead(e, c) + ([SopWrite(e, rbTs)] + Open(c)), Mode(true, false))
      == Mode(!c.notProtected, c.secure)
    ensures ModeAfter(Submission(e, c, pl, rbTs, sequence), Mode(true, false)) == Mode(true, false)
      <==> var p := ModeAfter(pl, Mode(!c.notProtected, c.secure));
        (c.notProtected || p.prot) && (c.secure || !p.secure)
    ensures (forall p :: p in pl ==> Modeless(p)) ==>
      ModeAfter(Submission(e, c, pl, rbTs, sequence), Mode(true, false)) == Mode(true, false)
  {
    SubmissionModes(e, c, pl, rbTs, sequence, Mode(true, false));
    if forall p :: p in pl ==> Modeless(p) {
      ModelessKeepsMode(pl, PayloadMode(e, c, Mode(true, false)));
    }
  }
}
