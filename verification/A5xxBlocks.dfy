/** Every submission the A5xx driver makes is one PageTableContinuity lets it make. */
module A5xxBlocks {
  import opened Words
  import opened Pm4
  import opened Wrappers
  import opened DrawObjects
  import opened A5xxSubmission
  import opened A5xxContextSwitch
  import C = A5xxCommands
  import T = PageTableContinuity

  lemma {:induction false} IbPacketsQuiet(ibs: seq<Ib>, withPreamble: bool, s: u64)
    requires s + 8 < TWO32 * TWO32
    ensures AllQuiet(C.IbPackets(ibs, withPreamble), s)
    decreases |ibs|
  {
    if ibs != [] {
      IbPacketsQuiet(ibs[..|ibs| - 1], withPreamble, s);
    }
  }

  /** The packets of a user submission change no page table and no scratch copy. */
  lemma CommandsQuiet(f: C.Flags, ibs: seq<Ib>, p: C.Samples, first: Option<u64>, second: Option<u64>, s: u64)
    requires s + 8 < TWO32 * TWO32
    ensures AllQuiet(C.Commands(f, ibs, p, first, second), s)
  {
    IbPacketsQuiet(ibs, f.preamble, s);
    assert AllQuiet(C.UserIb(first), s) && AllQuiet(C.UserIb(second), s);
    assert AllQuiet(C.Head(f, p, first), s);
    assert AllQuiet(C.Tail(f, p, second), s);
    assert AllQuiet(C.Body(f, ibs), s);
  }

  lemma SubmissionSpares(e: Env, c: Call, pl: seq<Packet>, rbTs: u32, sequence: u32, s: u64)
    requires CallClear(e, c, s) && AllSpare(pl, s)
    ensures AllSpare(Submission(e, c, pl, rbTs, sequence), s)
  {
    WrapperIsQuiet(e, c, rbTs, sequence, s);
  }

  /** Two scratch copies of three dwords that do not overlap. */
  ghost predicate Apart(a: u64, b: u64) { a + 12 <= b || b + 12 <= a }

  ghost predicate RingClear(c: T.Setup, r: nat, e: Env, call: Call)
    requires T.SetupOk(c) && r < |c.scratchAt|
  {
    && CallOk(call) && (forall q :: 0 <= q < |c.scratchAt| ==> CallClear(e, call, c.scratchAt[q]))
    && (forall q :: 0 <= q < |c.scratchAt| && q != r ==>
          Apart(c.scratchAt[r], c.scratchAt[q]))
  }

  /** A user submission may go to any ring. */
  lemma UserBlockSubmittable(cfg: T.Setup, r: nat, e: Env, call: Call, f: C.Flags, ibs: seq<Ib>, p: C.Samples,
                             first: Option<u64>, second: Option<u64>, rbTs: u32, sequence: u32)
    requires T.SetupOk(cfg) && r < |cfg.scratchAt| && RingClear(cfg, r, e, call)
    ensures T.Submittable(cfg, r, Submission(e, call, C.Commands(f, ibs, p, first, second), rbTs, sequence))
  {
    var pl := C.Commands(f, ibs, p, first, second);
    CommandsQuiet(f, ibs, p, first, second, cfg.scratchAt[r]);
    QuietIsHarmless(pl, cfg.scratchAt[r]);
    SubmissionIsHarmless(e, call, pl, rbTs, sequence, cfg.scratchAt[r]);
    forall q | 0 <= q < |cfg.scratchAt| && q != r
      ensures AllSpare(Submission(e, call, pl, rbTs, sequence), cfg.scratchAt[q])
    {
      CommandsQuiet(f, ibs, p, first, second, cfg.scratchAt[q]);
      SubmissionSpares(e, call, pl, rbTs, sequence, cfg.scratchAt[q]);
    }
  }

  /** So may a context switch, with or without a change of page table, as long as its scratch writes go
      to the ring's own copy. */
  lemma SwitchBlockSubmittable(cfg: T.Setup, r: nat, e: Env, call: Call, change: Option<Table>, m: Marks, id: u32,
                               rbTs: u32, sequence: u32)
    requires T.SetupOk(cfg) && r < |cfg.scratchAt| && RingClear(cfg, r, e, call)
    requires forall q :: 0 <= q < |cfg.scratchAt| ==>
      Clear(cfg.scratchAt[q], m.rbContext) && Clear(cfg.scratchAt[q], m.globalContext)
    ensures T.Submittable(cfg, r, Submission(e, call, ContextPayload(change, cfg.scratchAt[r], m, id), rbTs, sequence))
  {
    var pl := ContextPayload(change, cfg.scratchAt[r], m, id);
    ContextPayloadIsHarmless(change, cfg.scratchAt[r], m, id);
    SubmissionIsHarmless(e, call, pl, rbTs, sequence, cfg.scratchAt[r]);
    forall q | 0 <= q < |cfg.scratchAt| && q != r
      ensures AllSpare(Submission(e, call, pl, rbTs, sequence), cfg.scratchAt[q])
    {
      ContextPayloadSpares(change, cfg.scratchAt[r], m, id, cfg.scratchAt[q]);
      SubmissionSpares(e, call, pl, rbTs, sequence, cfg.scratchAt[q]);
    }
  }

  lemma ContextPayloadSpares(change: Option<Table>, s: u64, m: Marks, id: u32, q: u64)
    requires s + 8 < TWO32 * TWO32 && q + 8 < TWO32 * TWO32 && Apart(s, q)
    requires Clear(q, m.rbContext) && Clear(q, m.globalContext)
    ensures AllSpare(ContextPayload(change, s, m, id), q)
  {
    MemWriteSpares(m.rbContext, id, q);
    MemWriteSpares(m.globalContext, id, q);
    assert AllSpare(Announce(m, id), q);
    if change.Some? {
      JoinSplit(s);
      SettleIsQuiet(APRIV_ON, q);
      SettleIsQuiet(APRIV_OFF, q);
      assert Spares(SaveTable(s, change.value), q);
      assert AllSpare(TableSwitch(s, change.value), q);
    }
  }
}
