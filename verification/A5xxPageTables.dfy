/** Page tables in an A5xx stream: the table in force and the copy each ring keeps in scratch memory. */
module A5xxContextSwitch {
  import opened Words
  import opened Pm4
  import opened Wrappers
  import opened A5xxSubmission

  const CONTEXT_TO_MEM_IDENTIFIER := 0x2EADBEEF
  const A5XX_CP_CNTL := 0x831
  const A5XX_UCHE_INVALIDATE0 := 0xE95

  const WAIT_ME: Packet := Op(CP_WAIT_FOR_ME, [])
  const APRIV_ON: Packet := Regs(A5XX_CP_CNTL, [1])
  const APRIV_OFF: Packet := Regs(A5XX_CP_CNTL, [0])
  const UCHE_INVALIDATE: Packet := Regs(A5XX_UCHE_INVALIDATE0, [0x12])

  /** TTBR0 and CONTEXTIDR. */
  datatype Table = Table(ttbr0: u64, id: u32)

  /** The table the SMMU uses after a packet. */
  function TableStep(p: Packet, t: Table): Table {
    if p.Op? && p.op == CP_SMMU_TABLE_UPDATE && |p.payload| == 3
    then Table(Join(p.payload[0], p.payload[1]), p.payload[2]) else t
  }

  /** The three scratch dwords from s on, read as a table, after a packet. */
  function ScratchStep(p: Packet, s: u64, t: Table): Table
    requires s + 8 < TWO32 * TWO32
  {
    Table(Join(CellStep(p, s, Lower32(t.ttbr0)), CellStep(p, s + 4, Upper32(t.ttbr0))), CellStep(p, s + 8, t.id))
  }

  ghost function TableAfter(ps: seq<Packet>, t: Table): Table {
    if ps == [] then t else TableAfter(ps[1..], TableStep(ps[0], t))
  }

  ghost function ScratchAfter(ps: seq<Packet>, s: u64, t: Table): Table
    requires s + 8 < TWO32 * TWO32
  {
    if ps == [] then t else ScratchAfter(ps[1..], s, ScratchStep(ps[0], s, t))
  }

  lemma {:induction false} TableAppend(ps: seq<Packet>, qs: seq<Packet>, t: Table)
    ensures TableAfter(ps + qs, t) == TableAfter(qs, TableAfter(ps, t))
    decreases |ps|
  {
    if ps == [] {
      assert ps + qs == qs;
    } else {
      assert (ps + qs)[1..] == ps[1..] + qs;
      TableAppend(ps[1..], qs, TableStep(ps[0], t));
    }
  }

  lemma {:induction false} ScratchAppend(ps: seq<Packet>, qs: seq<Packet>, s: u64, t: Table)
    requires s + 8 < TWO32 * TWO32
    ensures ScratchAfter(ps + qs, s, t) == ScratchAfter(qs, s, ScratchAfter(ps, s, t))
    decreases |ps|
  {
    if ps == [] {
      assert ps + qs == qs;
    } else {
      assert (ps + qs)[1..] == ps[1..] + qs;
      ScratchAppend(ps[1..], qs, s, ScratchStep(ps[0], s, t));
    }
  }

  predicate Spares(p: Packet, s: u64)
    requires s + 8 < TWO32 * TWO32
  {
    Stores(p, s) == None && Stores(p, s + 4) == None && Stores(p, s + 8) == None
  }

  /** Changes neither the table nor the scratch copy at s. */
  predicate Quiet(p: Packet, s: u64)
    requires s + 8 < TWO32 * TWO32
  {
    !(p.Op? && p.op == CP_SMMU_TABLE_UPDATE) && Spares(p, s)
  }

  ghost predicate AllQuiet(ps: seq<Packet>, s: u64)
    requires s + 8 < TWO32 * TWO32
  {
    forall p :: p in ps ==> Quiet(p, s)
  }

  ghost predicate AllSpare(ps: seq<Packet>, s: u64)
    requires s + 8 < TWO32 * TWO32
  {
    forall p :: p in ps ==> Spares(p, s)
  }

  lemma {:induction false} SpareKeepsScratch(ps: seq<Packet>, s: u64, t: Table)
    requires s + 8 < TWO32 * TWO32 && AllSpare(ps, s)
    ensures ScratchAfter(ps, s, t) == t
    decreases |ps|
  {
    if ps != [] {
      assert ps[0] in ps;
      JoinSplit(t.ttbr0);
      SpareKeepsScratch(ps[1..], s, t);
    }
  }

  lemma {:induction false} QuietKeepsTable(ps: seq<Packet>, s: u64, t: Table)
    requires s + 8 < TWO32 * TWO32 && AllQuiet(ps, s)
    ensures TableAfter(ps, t) == t && ScratchAfter(ps, s, t) == t
    decreases |ps|
  {
    SpareKeepsScratch(ps, s, t);
    if ps != [] {
      assert ps[0] in ps;
      QuietKeepsTable(ps[1..], s, t);
    }
  }

  /** The CP may leave the ring behind a yield packet, or inside an indirect buffer. */
  predicate SwitchPoint(p: Packet) {
    p.Op? && (p.op == CP_CONTEXT_SWITCH_YIELD || p.op == CP_INDIRECT_BUFFER_PFE)
  }

  /** Started with both alike, the table and the scratch copy agree at every switch point and at the end. */
  ghost predicate Harmless(ps: seq<Packet>, s: u64)
    requires s + 8 < TWO32 * TWO32
  {
    forall k: nat, t: Table :: (k == |ps| || (0 < k < |ps| && SwitchPoint(ps[k - 1]))) ==>
      TableAfter(ps[..k], t) == ScratchAfter(ps[..k], s, t)
  }

  lemma HarmlessAt(ps: seq<Packet>, s: u64, t: Table, k: nat)
    requires s + 8 < TWO32 * TWO32 && Harmless(ps, s)
    requires k <= |ps| && (k == 0 || k == |ps| || SwitchPoint(ps[k - 1]))
    ensures TableAfter(ps[..k], t) == ScratchAfter(ps[..k], s, t)
  {
  }

  lemma QuietIsHarmless(ps: seq<Packet>, s: u64)
    requires s + 8 < TWO32 * TWO32 && AllQuiet(ps, s)
    ensures Harmless(ps, s)
  {
    forall k: nat, t: Table | k == |ps| || (0 < k < |ps| && SwitchPoint(ps[k - 1]))
      ensures TableAfter(ps[..k], t) == ScratchAfter(ps[..k], s, t)
    {
      QuietKeepsTable(ps[..k], s, t);
    }
  }

  lemma HarmlessAppend(ps: seq<Packet>, qs: seq<Packet>, s: u64)
    requires s + 8 < TWO32 * TWO32 && Harmless(ps, s) && Harmless(qs, s)
    ensures Harmless(ps + qs, s)
  {
    forall k: nat, t: Table | k == |ps + qs| || (0 < k < |ps + qs| && SwitchPoint((ps + qs)[k - 1]))
      ensures TableAfter((ps + qs)[..k], t) == ScratchAfter((ps + qs)[..k], s, t)
    {
      if k <= |ps| {
        assert (ps + qs)[..k] == ps[..k];
        HarmlessAt(ps, s, t, k);
      } else {
        var rest := qs[..k - |ps|];
        assert (ps + qs)[..k] == ps + rest && ps[..|ps|] == ps;
        HarmlessAt(ps, s, t, |ps|);
        TableAppend(ps, rest, t);
        ScratchAppend(ps, rest, s, t);
        HarmlessAt(qs, s, TableAfter(ps, t), k - |ps|);
      }
    }
  }

  // ---------------------------------------------------------------- a5xx_rb_pagetable_switch

  function UpdateTable(t: Table): Packet { Op(CP_SMMU_TABLE_UPDATE, [Lower32(t.ttbr0), Upper32(t.ttbr0), t.id]) }

  function SaveTable(s: u64, t: Table): Packet {
    Op(CP_MEM_WRITE, [Lower32(s), Upper32(s), Lower32(t.ttbr0), Upper32(t.ttbr0), t.id])
  }

  ghost function Settle(apriv: Packet): seq<Packet> { [WFI] + [WAIT_ME] + [apriv] }

  ghost function TableSwitch(s: u64, t: Table): seq<Packet> {
    [UpdateTable(t)] + Settle(APRIV_ON) + [SaveTable(s, t)] + Settle(APRIV_OFF)
  }

  method PutSettle(cmds: seq<u32>, apriv: Packet, ghost ps: seq<Packet>) returns (cmds': seq<u32>)
    requires AllWellFormed(Modern, ps) && cmds == Encode(Modern, ps)
    requires apriv == APRIV_ON || apriv == APRIV_OFF
    ensures AllWellFormed(Modern, ps + Settle(apriv)) && cmds' == Encode(Modern, ps + Settle(apriv))
    ensures |cmds'| == |cmds| + 4
  {
    ghost var none: seq<Packet> := [];
    assert ps + none == ps && none + [WFI] == [WFI];
    cmds' := Emit(Modern, cmds, WFI, ps, none);
    cmds' := Emit(Modern, cmds', WAIT_ME, ps, [WFI]);
    cmds' := Emit(Modern, cmds', apriv, ps, [WFI] + [WAIT_ME]);
  }

  /** Nothing at all for the default page table, 18 dwords otherwise. */
  method PagetableSwitch(isDefault: bool, s: u64, t: Table) returns (cmds: seq<u32>)
    ensures var ps := if isDefault then [] else TableSwitch(s, t);
      AllWellFormed(Modern, ps) && cmds == Encode(Modern, ps)
    ensures |cmds| == if isDefault then 0 else 18
  {
    if isDefault {
      return [];
    }
    ghost var none: seq<Packet> := [];
    assert none + none == none && none + (none + [UpdateTable(t)]) == [UpdateTable(t)];
    cmds := Emit(Modern, [], UpdateTable(t), none, none);
    cmds := PutSettle(cmds, APRIV_ON, [UpdateTable(t)]);
    ghost var ps := [UpdateTable(t)] + Settle(APRIV_ON);
    assert ps + none == ps && none + [SaveTable(s, t)] == [SaveTable(s, t)];
    cmds := Emit(Modern, cmds, SaveTable(s, t), ps, none);
    cmds := PutSettle(cmds, APRIV_OFF, ps + [SaveTable(s, t)]);
  }

  /** Where a context switch records the new context. */
  datatype Marks = Marks(rbContext: u64, globalContext: u64)

  ghost function Announce(m: Marks, id: u32): seq<Packet> {
    [Op(CP_NOP, [CONTEXT_TO_MEM_IDENTIFIER])] + [MemWrite(m.rbContext, id)] + [MemWrite(m.globalContext, id)]
    + [UCHE_INVALIDATE]
  }

  /** The payload of the internal submission that switches contexts; change is the new table when the
      page tables of the old and the new context differ. */
  ghost function ContextPayload(change: Option<Table>, s: u64, m: Marks, id: u32): seq<Packet> {
    (if change.Some? then TableSwitch(s, change.value) else []) + Announce(m, id)
  }

  /** a5xx_rb_context_switch up to addcmds: 12 or 30 dwords, inside its buffer of 32. */
  method ContextSwitch(samePagetable: bool, isDefault: bool, s: u64, t: Table, m: Marks, id: u32)
    returns (cmds: seq<u32>)
    ensures var ps := ContextPayload(if samePagetable || isDefault then None else Some(t), s, m, id);
      AllWellFormed(Modern, ps) && cmds == Encode(Modern, ps)
    ensures |cmds| == if samePagetable || isDefault then 12 else 30
  {
    cmds := [];
    ghost var ps: seq<Packet> := if samePagetable || isDefault then [] else TableSwitch(s, t);
    if !samePagetable {
      cmds := PagetableSwitch(isDefault, s, t);
    }
    ghost var none: seq<Packet> := [];
    ghost var a := Op(CP_NOP, [CONTEXT_TO_MEM_IDENTIFIER]);
    ghost var b, c := MemWrite(m.rbContext, id), MemWrite(m.globalContext, id);
    assert ps + none == ps && none + [a] == [a];
    cmds := Emit(Modern, cmds, Op(CP_NOP, [CONTEXT_TO_MEM_IDENTIFIER]), ps, none);
    cmds := Emit(Modern, cmds, MemWrite(m.rbContext, id), ps, [a]);
    cmds := Emit(Modern, cmds, MemWrite(m.globalContext, id), ps, [a] + [b]);
    cmds := Emit(Modern, cmds, UCHE_INVALIDATE, ps, [a] + [b] + [c]);
  }

  /** The context id reaches both cells that record the current context. */
  lemma ContextIdIsRecorded(change: Option<Table>, s: u64, m: Marks, id: u32, v: u32)
    requires s + 8 < TWO32 * TWO32 && Clear(s, m.rbContext) && Clear(s, m.globalContext)
    ensures CellAfter(ContextPayload(change, s, m, id), m.rbContext, v) == id
    ensures CellAfter(ContextPayload(change, s, m, id), m.globalContext, v) == id
  {
    var t := if change.Some? then TableSwitch(s, change.value) else [];
    CellAppend(t, Announce(m, id), m.rbContext, v);
    CellAppend(t, Announce(m, id), m.globalContext, v);
    Recorded(m, id, m.rbContext, CellAfter(t, m.rbContext, v));
    Recorded(m, id, m.globalContext, CellAfter(t, m.globalContext, v));
  }

  lemma Recorded(m: Marks, id: u32, a: u64, v: u32)
    requires a == m.rbContext || a == m.globalContext
    ensures CellAfter(Announce(m, id), a, v) == id
  {
    var n, r, g := Op(CP_NOP, [CONTEXT_TO_MEM_IDENTIFIER]), MemWrite(m.rbContext, id), MemWrite(m.globalContext, id);
    JoinSplit(m.rbContext);
    JoinSplit(m.globalContext);
    CellAppend([n] + [r] + [g], [UCHE_INVALIDATE], a, v);
    CellAppend([n] + [r], [g], a, v);
    CellAppend([n], [r], a, v);
    CellOfOne(n, a, v);
    CellOfOne(r, a, v);
    CellOfOne(g, a, CellAfter([n] + [r], a, v));
    CellOfOne(UCHE_INVALIDATE, a, CellAfter([n] + [r] + [g], a, v));
  }

  lemma CellOfOne(p: Packet, a: u64, v: u32)
    ensures CellAfter([p], a, v) == CellStep(p, a, v)
  {
    assert [p][1..] == [];
    assert CellAfter([p], a, v) == CellAfter([p][1..], a, CellStep(p, a, v));
  }

  /** A context switch invalidates the UCHE, and around a table switch turns privileged access on and off. */
  lemma ContextRegisters(change: Option<Table>, s: u64, m: Marks, id: u32, mode: Mode)
    ensures RegWrites(ContextPayload(change, s, m, id), mode)
      == (if change.Some? then [RegWrite(0x831, 1, mode.prot), RegWrite(0x831, 0, mode.prot)] else [])
         + [RegWrite(0xE95, 0x12, mode.prot)]
  {
    var t := if change.Some? then TableSwitch(s, change.value) else [];
    RegWritesAppend(t, Announce(m, id), mode);
    if change.Some? {
      SwitchRegisters(s, change.value, mode);
    }
    AnnounceRegisters(m, id, mode);
  }

  lemma SettleRegisters(apriv: Packet, mode: Mode)
    requires apriv == APRIV_ON || apriv == APRIV_OFF
    ensures RegWrites(Settle(apriv), mode) == [RegWrite(0x831, apriv.payload[0], mode.prot)]
    ensures ModeAfter(Settle(apriv), mode) == mode
  {
    RegWritesAppend([WFI] + [WAIT_ME], [apriv], mode);
    RegWritesAppend([WFI], [WAIT_ME], mode);
    ModeAppend([WFI] + [WAIT_ME], [apriv], mode);
    ModeAppend([WFI], [WAIT_ME], mode);
    RegWritesOfOne(WFI, mode);
    RegWritesOfOne(WAIT_ME, mode);
    RegWritesOfOne(apriv, mode);
    ModeOfOne(WFI, mode);
    ModeOfOne(WAIT_ME, mode);
    ModeOfOne(apriv, mode);
  }

  lemma SwitchRegisters(s: u64, t: Table, mode: Mode)
    ensures RegWrites(TableSwitch(s, t), mode) == [RegWrite(0x831, 1, mode.prot), RegWrite(0x831, 0, mode.prot)]
    ensures ModeAfter(TableSwitch(s, t), mode) == mode
  {
    var u, v := UpdateTable(t), SaveTable(s, t);
    SettleRegisters(APRIV_ON, mode);
    SettleRegisters(APRIV_OFF, mode);
    RegWritesAppend([u] + Settle(APRIV_ON) + [v], Settle(APRIV_OFF), mode);
    RegWritesAppend([u] + Settle(APRIV_ON), [v], mode);
    RegWritesAppend([u], Settle(APRIV_ON), mode);
    ModeAppend([u] + Settle(APRIV_ON) + [v], Settle(APRIV_OFF), mode);
    ModeAppend([u] + Settle(APRIV_ON), [v], mode);
    ModeAppend([u], Settle(APRIV_ON), mode);
    RegWritesOfOne(u, mode);
    RegWritesOfOne(v, mode);
    ModeOfOne(u, mode);
    ModeOfOne(v, mode);
  }

  lemma AnnounceRegisters(m: Marks, id: u32, mode: Mode)
    ensures RegWrites(Announce(m, id), mode) == [RegWrite(0xE95, 0x12, mode.prot)]
  {
    var n, r, g := Op(CP_NOP, [CONTEXT_TO_MEM_IDENTIFIER]), MemWrite(m.rbContext, id), MemWrite(m.globalContext, id);
    RegWritesAppend([n] + [r] + [g], [UCHE_INVALIDATE], mode);
    RegWritesAppend([n] + [r], [g], mode);
    RegWritesAppend([n], [r], mode);
    ModeAppend([n] + [r], [g], mode);
    ModeAppend([n], [r], mode);
    RegWritesOfOne(n, mode);
    RegWritesOfOne(r, mode);
    RegWritesOfOne(g, mode);
    RegWritesOfOne(UCHE_INVALIDATE, mode);
    ModeOfOne(n, mode);
    ModeOfOne(r, mode);
    ModeOfOne(g, mode);
  }

  /** The eighteen words of a table switch. */
  lemma TableSwitchWords(s: u64, t: Table)
    ensures AllWellFormed(Modern, TableSwitch(s, t))
    ensures Encode(Modern, TableSwitch(s, t))
      == [Type7(0x53, 3), Lower32(t.ttbr0), Upper32(t.ttbr0), t.id]
         + [Type7(0x26, 0), Type7(0x13, 0), Type4(0x831, 1), 1]
         + [Type7(0x3D, 5), Lower32(s), Upper32(s), Lower32(t.ttbr0), Upper32(t.ttbr0), t.id]
         + [Type7(0x26, 0), Type7(0x13, 0), Type4(0x831, 1), 0]
  {
    SettleWords(APRIV_ON);
    SettleWords(APRIV_OFF);
    UpdateAndSaveWords(s, t);
    EncodeFour(UpdateTable(t), Settle(APRIV_ON), SaveTable(s, t), Settle(APRIV_OFF));
  }

  lemma UpdateAndSaveWords(s: u64, t: Table)
    ensures EncodeOne(Modern, UpdateTable(t)) == [Type7(0x53, 3), Lower32(t.ttbr0), Upper32(t.ttbr0), t.id]
    ensures EncodeOne(Modern, SaveTable(s, t))
      == [Type7(0x3D, 5), Lower32(s), Upper32(s), Lower32(t.ttbr0), Upper32(t.ttbr0), t.id]
  {
  }

  lemma EncodeFour(a: Packet, b: seq<Packet>, c: Packet, d: seq<Packet>)
    requires WellFormed(Modern, a) && WellFormed(Modern, c) && AllWellFormed(Modern, b) && AllWellFormed(Modern, d)
    ensures AllWellFormed(Modern, [a] + b + [c] + d)
    ensures Encode(Modern, [a] + b + [c] + d)
      == EncodeOne(Modern, a) + Encode(Modern, b) + EncodeOne(Modern, c) + Encode(Modern, d)
  {
    EncodeAppend(Modern, [a] + b + [c], d);
    EncodeAppend(Modern, [a] + b, [c]);
    EncodeAppend(Modern, [a], b);
    EncodeSingle(a);
    EncodeSingle(c);
  }

  lemma SettleWords(apriv: Packet)
    requires apriv == APRIV_ON || apriv == APRIV_OFF
    ensures AllWellFormed(Modern, Settle(apriv))
    ensures Encode(Modern, Settle(apriv)) == [Type7(0x26, 0), Type7(0x13, 0), Type4(0x831, 1), apriv.payload[0]]
  {
    EncodeAppend(Modern, [WFI] + [WAIT_ME], [apriv]);
    EncodeAppend(Modern, [WFI], [WAIT_ME]);
    EncodeSingle(WFI);
    EncodeSingle(WAIT_ME);
    EncodeSingle(apriv);
  }

  lemma EncodeSingle(p: Packet)
    requires WellFormed(Modern, p)
    ensures Encode(Modern, [p]) == EncodeOne(Modern, p)
  {
    assert [p][1..] == [];
    assert Encode(Modern, [p]) == EncodeOne(Modern, p) + Encode(Modern, []);
  }

  lemma SettleIsQuiet(apriv: Packet, s: u64)
    requires s + 8 < TWO32 * TWO32 && (apriv == APRIV_ON || apriv == APRIV_OFF)
    ensures AllQuiet(Settle(apriv), s) && forall p :: p in Settle(apriv) ==> !SwitchPoint(p)
  {
  }

  lemma TableOfOne(p: Packet, s: u64, t: Table)
    requires s + 8 < TWO32 * TWO32
    ensures TableAfter([p], t) == TableStep(p, t) && ScratchAfter([p], s, t) == ScratchStep(p, s, t)
  {
    assert [p][1..] == [];
    assert TableAfter([p][1..], TableStep(p, t)) == TableStep(p, t);
    assert ScratchAfter([p][1..], s, ScratchStep(p, s, t)) == ScratchStep(p, s, t);
  }

  lemma UpdateAndSave(s: u64, n: Table, t: Table)
    requires s + 8 < TWO32 * TWO32
    ensures TableStep(UpdateTable(n), t) == n && ScratchStep(UpdateTable(n), s, t) == t
    ensures ScratchStep(SaveTable(s, n), s, t) == n && TableStep(SaveTable(s, n), t) == t
  {
    JoinSplit(n.ttbr0);
    JoinSplit(t.ttbr0);
    JoinSplit(s);
    var p := SaveTable(s, n);
    assert Stores(p, s) == Some(Lower32(n.ttbr0)) && Stores(p, s + 4) == Some(Upper32(n.ttbr0));
    assert Stores(p, s + 8) == Some(n.id);
  }

  /** The update reaches the SMMU before the scratch copy, but no switch point lies in between. */
  lemma TableSwitchEffect(s: u64, n: Table, t: Table)
    requires s + 8 < TWO32 * TWO32
    ensures TableAfter(TableSwitch(s, n), t) == n && ScratchAfter(TableSwitch(s, n), s, t) == n
  {
    var a, b, c, d := [UpdateTable(n)], Settle(APRIV_ON), [SaveTable(s, n)], Settle(APRIV_OFF);
    SettleIsQuiet(APRIV_ON, s);
    SettleIsQuiet(APRIV_OFF, s);
    UpdateAndSave(s, n, t);
    UpdateAndSave(s, n, n);
    TableOfOne(UpdateTable(n), s, t);
    TableAppend(a, b, t);
    ScratchAppend(a, b, s, t);
    QuietKeepsTable(b, s, n);
    QuietKeepsTable(b, s, t);
    TableAppend(a + b, c, t);
    ScratchAppend(a + b, c, s, t);
    TableOfOne(SaveTable(s, n), s, n);
    TableOfOne(SaveTable(s, n), s, t);
    TableAppend(a + b + c, d, t);
    ScratchAppend(a + b + c, d, s, t);
    QuietKeepsTable(d, s, n);
  }

  lemma TableSwitchIsHarmless(s: u64, n: Table)
    requires s + 8 < TWO32 * TWO32
    ensures Harmless(TableSwitch(s, n), s)
  {
    var ps := TableSwitch(s, n);
    SettleIsQuiet(APRIV_ON, s);
    SettleIsQuiet(APRIV_OFF, s);
    assert forall p :: p in ps ==> !SwitchPoint(p);
    assert forall k :: 0 <= k < |ps| ==> ps[k] in ps && !SwitchPoint(ps[k]);
    forall k: nat, t: Table | k == |ps| || (0 < k < |ps| && SwitchPoint(ps[k - 1]))
      ensures TableAfter(ps[..k], t) == ScratchAfter(ps[..k], s, t)
    {
      assert k == |ps| && ps[..k] == ps;
      TableSwitchEffect(s, n, t);
    }
  }

  /** The scratch copy shares no dword with what else a submission writes. */
  ghost predicate Clear(s: u64, a: u64) { a + 4 <= s || s + 12 <= a }

  lemma MemWriteSpares(b: u64, v: u32, s: u64)
    requires s + 8 < TWO32 * TWO32 && Clear(s, b)
    ensures Quiet(MemWrite(b, v), s)
  {
    JoinSplit(b);
  }

  lemma FlushTsSpares(b: u64, v: u32, irq: bool, s: u64)
    requires s + 8 < TWO32 * TWO32 && Clear(s, b)
    ensures Quiet(FlushTs(b, v, irq), s)
  {
    JoinSplit(b);
  }

  lemma ContextPayloadIsHarmless(change: Option<Table>, s: u64, m: Marks, id: u32)
    requires s + 8 < TWO32 * TWO32 && Clear(s, m.rbContext) && Clear(s, m.globalContext)
    ensures Harmless(ContextPayload(change, s, m, id), s)
  {
    MemWriteSpares(m.rbContext, id, s);
    MemWriteSpares(m.globalContext, id, s);
    QuietIsHarmless(Announce(m, id), s);
    if change.Some? {
      TableSwitchIsHarmless(s, change.value);
      HarmlessAppend(TableSwitch(s, change.value), Announce(m, id), s);
    } else {
      assert ContextPayload(change, s, m, id) == Announce(m, id);
    }
  }

  ghost predicate CallClear(e: Env, c: Call, s: u64) {
    && CallOk(c) && s + 8 < TWO32 * TWO32
    && Clear(s, e.sop) && Clear(s, e.eop) && Clear(s, e.refWait)
    && (c.ctx.Some? ==> Clear(s, c.ctx.value.sop) && Clear(s, c.ctx.value.eop))
  }

  lemma WrapperIsQuiet(e: Env, c: Call, rbTs: u32, sequence: u32, s: u64)
    requires CallClear(e, c, s)
    ensures AllQuiet(Lead(e, c), s) && AllQuiet([SopWrite(e, rbTs)], s) && AllQuiet(Open(c), s)
    ensures AllQuiet(Close(e, c, sequence), s) && AllQuiet([EopWrite(e, c, rbTs)], s) && AllQuiet(Trail(e, c), s)
  {
    StampsAreQuiet(e, c, rbTs, sequence, s);
    LeadIsQuiet(e, c, s);
    CloseIsQuiet(e, c, sequence, s);
    ModesAreQuiet(e, c, s);
  }

  lemma StampsAreQuiet(e: Env, c: Call, rbTs: u32, sequence: u32, s: u64)
    requires CallClear(e, c, s)
    ensures AllQuiet([SopWrite(e, rbTs)], s) && AllQuiet([EopWrite(e, c, rbTs)], s)
    ensures Quiet(MemWrite(e.refWait, sequence), s) && AllQuiet(CtxSop(c), s) && AllQuiet(CtxEop(c), s)
  {
    MemWriteSpares(e.sop, rbTs, s);
    FlushTsSpares(e.eop, rbTs, c.ctx.None?, s);
    MemWriteSpares(e.refWait, sequence, s);
    if c.ctx.Some? {
      MemWriteSpares(c.ctx.value.sop, c.ts, s);
      FlushTsSpares(c.ctx.value.eop, c.ts, true, s);
    }
  }

  lemma ModesAreQuiet(e: Env, c: Call, s: u64)
    requires s + 8 < TWO32 * TWO32
    ensures AllQuiet(Open(c), s) && AllQuiet(Trail(e, c), s)
  {
  }

  lemma LeadIsQuiet(e: Env, c: Call, s: u64)
    requires CallOk(c) && s + 8 < TWO32 * TWO32 && AllQuiet(CtxSop(c), s)
    ensures AllQuiet(Lead(e, c), s)
  {
    assert AllQuiet(OptIb(c.preIb), s);
    assert AllQuiet(SaveAddr(e), s);
    assert AllQuiet(PreIbSubmit(e, c.ctx), s);
  }

  lemma CloseIsQuiet(e: Env, c: Call, sequence: u32, s: u64)
    requires CallOk(c) && s + 8 < TWO32 * TWO32 && AllQuiet(CtxEop(c), s) && Quiet(MemWrite(e.refWait, sequence), s)
    ensures AllQuiet(Close(e, c, sequence), s)
  {
    assert AllQuiet(OptIb(c.postIb), s);
    assert AllQuiet(Flush(e, c, sequence), s);
  }

  /** A harmless payload makes a harmless submission. */
  lemma SubmissionIsHarmless(e: Env, c: Call, pl: seq<Packet>, rbTs: u32, sequence: u32, s: u64)
    requires CallClear(e, c, s) && Harmless(pl, s)
    ensures Harmless(Submission(e, c, pl, rbTs, sequence), s)
  {
    WrapperIsQuiet(e, c, rbTs, sequence, s);
    var t := [EopWrite(e, c, rbTs)] + Trail(e, c);
    QuietIsHarmless(t, s);
    QuietIsHarmless(Close(e, c, sequence), s);
    HarmlessAppend(Close(e, c, sequence), t, s);
    HarmlessAppend(pl, Close(e, c, sequence) + t, s);
    QuietIsHarmless(Open(c), s);
    HarmlessAppend(Open(c), pl + (Close(e, c, sequence) + t), s);
    QuietIsHarmless([SopWrite(e, rbTs)], s);
    HarmlessAppend([SopWrite(e, rbTs)], Open(c) + (pl + (Close(e, c, sequence) + t)), s);
    QuietIsHarmless(Lead(e, c), s);
    HarmlessAppend(Lead(e, c), [SopWrite(e, rbTs)] + (Open(c) + (pl + (Close(e, c, sequence) + t))), s);
  }
}

/** Page tables across preemption, with per-process page tables: the protocol of PreemptionProtocol with
    the packets of each ring, the table in the SMMU, the smmu_info record the CP loads at a switch,
    and each ring's scratch copy. Positions count packets. */
module PageTableContinuity {
  import opened Words
  import opened Pm4
  import opened A5xxContextSwitch
  import P = PreemptionProtocol

  /** Address of each ring's scratch copy, and the default table. */
  datatype Setup = Setup(scratchAt: seq<u64>, default: Table)

  ghost predicate SetupOk(c: Setup) {
    && (forall r :: 0 <= r < |c.scratchAt| ==> c.scratchAt[r] + 8 < TWO32 * TWO32)
  }

  datatype Sys = Sys(core: P.State, streams: seq<seq<Packet>>, table: Table, info: Table, scratch: seq<Table>)

  datatype Event =
    | Append(r: nat, block: seq<Packet>)   // a submission to ring r
    | Execute                              // the CP executes one packet of its ring
    | SwitchIn                             // the CP changes rings
    | Restart(c: nat)
    | Handler(l: P.Label)                  // any other step of the protocol

  /** A block the driver may submit to ring r: harmless to r's copy, sparing all others. */
  ghost predicate Submittable(c: Setup, r: nat, block: seq<Packet>)
    requires SetupOk(c) && r < |c.scratchAt|
  {
    && Harmless(block, c.scratchAt[r])
    && (forall q :: 0 <= q < |c.scratchAt| && q != r ==> AllSpare(block, c.scratchAt[q]))
  }

  predicate AtSwitchPoint(ps: seq<Packet>, k: nat) { k <= |ps| && (k == 0 || SwitchPoint(ps[k - 1])) }

  ghost predicate Fits(c: Setup, s: Sys) {
    && SetupOk(c) && P.Bounded(s.core)
    && |s.core.rings| == |s.streams| == |s.scratch| == |c.scratchAt|
  }

  ghost predicate Enabled(c: Setup, s: Sys, e: Event)
    requires Fits(c, s)
  {
    var a := s.core.cp.active;
    match e
    case Append(r, block) => r < |s.streams| && Submittable(c, r, block)
    case Execute => s.core.rings[a].consumed < s.core.cp.wptr && s.core.rings[a].consumed < |s.streams[a]|
    case SwitchIn => s.core.cp.phase == P.Requested && AtSwitchPoint(s.streams[a], s.core.rings[a].consumed)
    case Restart(k) => k < |s.streams|
    case Handler(l) => !l.LSubmit? && !l.LReset? && !l.LConsume? && !l.LSwitch? && P.Enabled(s.core, l)
  }

  ghost function Label(s: Sys, e: Event): P.Label
    requires P.Bounded(s.core) && |s.core.rings| == |s.streams| && (e.Append? ==> e.r < |s.streams|)
  {
    match e
    case Append(r, block) => P.LSubmit(r, |s.streams[r]| + |block|)
    case Execute => P.LConsume(s.core.rings[s.core.cp.active].consumed + 1)
    case SwitchIn => P.LSwitch
    case Restart(k) => P.LReset(k)
    case Handler(l) => l
  }

  ghost function Executed(c: Setup, s: Sys, p: Packet): seq<Table>
    requires SetupOk(c) && |s.scratch| == |c.scratchAt|
  {
    seq(|s.scratch|, r requires 0 <= r < |s.scratch| => ScratchStep(p, c.scratchAt[r], s.scratch[r]))
  }

  ghost function Next(c: Setup, s: Sys, e: Event): Sys
    requires Fits(c, s) && Enabled(c, s, e) && P.Enabled(s.core, Label(s, e))
  {
    var core := P.Next(s.core, Label(s, e));
    match e
    case Append(r, block) => s.(core := core, streams := s.streams[r := s.streams[r] + block])
    case Execute =>
      var p := s.streams[s.core.cp.active][s.core.rings[s.core.cp.active].consumed];
      s.(core := core, table := TableStep(p, s.table), scratch := Executed(c, s, p))
    case SwitchIn => s.(core := core, table := s.info)
    case Restart(_) => Sys(core, seq(|s.streams|, _ => []), c.default, c.default, seq(|s.scratch|, _ => c.default))
    case Handler(l) =>
      // the trigger copies the target ring's scratch table into smmu_info
      s.(core := core, info := if P.StartsSwitch(s.core, core) && core.next.Some? && core.next.value < |s.scratch|
                               then s.scratch[core.next.value] else s.info)
  }

  ghost predicate StepBy(c: Setup, s: Sys, e: Event, t: Sys) {
    Fits(c, s) && Enabled(c, s, e) && P.Enabled(s.core, Label(s, e)) && t == Next(c, s, e)
  }

  ghost predicate Run(c: Setup, ss: seq<Sys>, es: seq<Event>) {
    && |ss| == |es| + 1
    && forall i :: 0 <= i < |es| ==> StepBy(c, ss[i], es[i], ss[i + 1])
  }

  ghost predicate Init(c: Setup, s: Sys) {
    && Fits(c, s) && P.Init(s.core)
    && (forall r :: 0 <= r < |s.streams| ==> s.streams[r] == [] && s.scratch[r] == c.default)
    && s.table == c.default && s.info == c.default
  }

  // ---------------------------------------------------------------- the invariant

  /** The table ring r has put in force, and the copy it has left in scratch memory. */
  ghost function InForce(c: Setup, s: Sys, r: nat): Table
    requires Fits(c, s) && r < |s.streams| && s.core.rings[r].consumed <= |s.streams[r]|
  {
    TableAfter(s.streams[r][..s.core.rings[r].consumed], c.default)
  }

  ghost predicate RingOk(c: Setup, s: Sys, r: nat)
    requires Fits(c, s) && r < |s.streams|
  {
    && s.core.rings[r].wptr == |s.streams[r]| && s.core.rings[r].consumed <= |s.streams[r]|
    && Harmless(s.streams[r], c.scratchAt[r])
    && (forall q :: 0 <= q < |c.scratchAt| && q != r ==> AllSpare(s.streams[r], c.scratchAt[q]))
    && s.scratch[r] == ScratchAfter(s.streams[r][..s.core.rings[r].consumed], c.scratchAt[r], c.default)
    && (r != s.core.cp.active ==> AtSwitchPoint(s.streams[r], s.core.rings[r].consumed))
  }

  ghost predicate Inv(c: Setup, s: Sys) {
    && Fits(c, s) && P.Inv(s.core)
    && (forall r :: 0 <= r < |s.streams| ==> RingOk(c, s, r))
    && RingOk(c, s, s.core.cp.active) && s.table == InForce(c, s, s.core.cp.active)
    && (s.core.pre != P.NONE && s.core.cp.phase == P.Requested ==> s.info == s.scratch[s.core.next.value])
  }

  /** Away from the CP, a ring's scratch copy is the table it had put in force. */
  lemma ScratchIsInForce(c: Setup, s: Sys, r: nat)
    requires Fits(c, s) && r < |s.streams| && RingOk(c, s, r)
    requires AtSwitchPoint(s.streams[r], s.core.rings[r].consumed)
    ensures s.scratch[r] == InForce(c, s, r)
  {
    HarmlessAt(s.streams[r], c.scratchAt[r], c.default, s.core.rings[r].consumed);
  }

  lemma AppendKeeps(c: Setup, s: Sys, r: nat, block: seq<Packet>)
    requires Inv(c, s) && Enabled(c, s, Append(r, block)) && P.Enabled(s.core, Label(s, Append(r, block)))
    ensures Inv(c, Next(c, s, Append(r, block)))
  {
    var t := Next(c, s, Append(r, block));
    P.StepKeepsInv(s.core, Label(s, Append(r, block)));
    HarmlessIsKept(c, s, r, block);
    forall q | 0 <= q < |t.streams| ensures RingOk(c, t, q) {
      assert RingOk(c, s, q);
      assert t.streams[q][..t.core.rings[q].consumed] == s.streams[q][..s.core.rings[q].consumed];
    }
    var a := s.core.cp.active;
    assert t.streams[a][..t.core.rings[a].consumed] == s.streams[a][..s.core.rings[a].consumed];
  }

  lemma HarmlessIsKept(c: Setup, s: Sys, r: nat, block: seq<Packet>)
    requires Fits(c, s) && r < |s.streams| && RingOk(c, s, r) && Submittable(c, r, block)
    ensures Harmless(s.streams[r] + block, c.scratchAt[r])
    ensures forall q :: 0 <= q < |c.scratchAt| && q != r ==> AllSpare(s.streams[r] + block, c.scratchAt[q])
  {
    HarmlessAppend(s.streams[r], block, c.scratchAt[r]);
  }

  lemma ExecuteKeeps(c: Setup, s: Sys)
    requires Inv(c, s) && Enabled(c, s, Execute) && P.Enabled(s.core, Label(s, Execute))
    ensures Inv(c, Next(c, s, Execute))
  {
    var t, a := Next(c, s, Execute), s.core.cp.active;
    var k := s.core.rings[a].consumed;
    var p := s.streams[a][k];
    P.StepKeepsInv(s.core, Label(s, Execute));
    assert RingOk(c, s, a);
    assert s.streams[a][..k + 1] == s.streams[a][..k] + [p];
    TableAppend(s.streams[a][..k], [p], c.default);
    ScratchAppend(s.streams[a][..k], [p], c.scratchAt[a], c.default);
    TableOfOne(p, c.scratchAt[a], s.table);
    TableOfOne(p, c.scratchAt[a], s.scratch[a]);
    forall q | 0 <= q < |t.streams| ensures RingOk(c, t, q) && (q != a ==> t.scratch[q] == s.scratch[q]) {
      assert RingOk(c, s, q);
      if q != a {
        assert p in s.streams[a];
        assert AllSpare(s.streams[a], c.scratchAt[q]);
        JoinSplit(s.scratch[q].ttbr0);
      }
    }
  }

  lemma SwitchKeeps(c: Setup, s: Sys)
    requires Inv(c, s) && Enabled(c, s, SwitchIn) && P.Enabled(s.core, Label(s, SwitchIn))
    ensures Inv(c, Next(c, s, SwitchIn))
    ensures s.core.next.Some? && s.core.next.value < |s.streams| && RingOk(c, s, s.core.next.value)
    ensures Next(c, s, SwitchIn).core.cp.active == s.core.next.value
    ensures Next(c, s, SwitchIn).table == InForce(c, s, s.core.next.value)
  {
    var t, m := Next(c, s, SwitchIn), s.core.next.value;
    P.StepKeepsInv(s.core, P.LSwitch);
    assert RingOk(c, s, m);
    ScratchIsInForce(c, s, m);
    forall q | 0 <= q < |t.streams| ensures RingOk(c, t, q) {
      assert RingOk(c, s, q);
    }
  }

  lemma RestartKeeps(c: Setup, s: Sys, k: nat)
    requires Inv(c, s) && k < |s.streams|
    ensures Inv(c, Next(c, s, Restart(k)))
  {
    var t := Next(c, s, Restart(k));
    P.StepKeepsInv(s.core, P.LReset(k));
    var none: seq<Packet> := [];
    forall q | 0 <= q < |t.streams| ensures RingOk(c, t, q) {
      assert t.streams[q] == none && none[..0] == none;
      QuietIsHarmless(none, c.scratchAt[q]);
    }
  }

  /** Protocol steps that are neither submissions, resets, execution nor the switch itself leave the
      active ring and every consumed position alone. */
  lemma HandlerFrame(s: P.State, l: P.Label)
    requires P.Inv(s) && P.Enabled(s, l) && !l.LSubmit? && !l.LReset? && !l.LConsume? && !l.LSwitch?
    ensures var t := P.Next(s, l);
      && |t.rings| == |s.rings| && t.cp.active == s.cp.active
      && (forall r :: 0 <= r < |s.rings| ==>
            t.rings[r].consumed == s.rings[r].consumed && t.rings[r].wptr == s.rings[r].wptr)
      && (t.pre != P.NONE && t.cp.phase == P.Requested && !P.StartsSwitch(s, t) ==>
          s.pre != P.NONE && s.cp.phase == P.Requested && s.next == t.next)
  {
    P.FirstBusyInRange(s.rings, 0);
    if s.pre != P.NONE {
      P.FirstBusyInRange(P.Finish(s).rings, 0);
    }
  }

  lemma HandlerKeeps(c: Setup, s: Sys, l: P.Label)
    requires Inv(c, s) && Enabled(c, s, Handler(l))
    ensures Inv(c, Next(c, s, Handler(l)))
  {
    var t := Next(c, s, Handler(l));
    P.StepKeepsInv(s.core, l);
    HandlerFrame(s.core, l);
    forall q | 0 <= q < |t.streams| ensures RingOk(c, t, q) {
      assert RingOk(c, s, q);
    }
  }

  lemma StepKeepsInv(c: Setup, s: Sys, e: Event)
    requires Inv(c, s) && Enabled(c, s, e) && P.Enabled(s.core, Label(s, e))
    ensures Inv(c, Next(c, s, e))
  {
    match e
    case Append(r, block) => AppendKeeps(c, s, r, block);
    case Execute => ExecuteKeeps(c, s);
    case SwitchIn => SwitchKeeps(c, s);
    case Restart(k) => RestartKeeps(c, s, k);
    case Handler(l) => HandlerKeeps(c, s, l);
  }

  lemma InitHasInv(c: Setup, s: Sys)
    requires Init(c, s)
    ensures Inv(c, s)
  {
    var none: seq<Packet> := [];
    forall q | 0 <= q < |s.streams| ensures RingOk(c, s, q) {
      assert s.streams[q] == none && none[..0] == none;
      QuietIsHarmless(none, c.scratchAt[q]);
    }
  }

  lemma {:induction false} RunKeepsInv(c: Setup, ss: seq<Sys>, es: seq<Event>, i: nat)
    requires Run(c, ss, es) && Init(c, ss[0]) && i < |ss|
    ensures Inv(c, ss[i])
  {
    if i == 0 {
      InitHasInv(c, ss[0]);
    } else {
      RunKeepsInv(c, ss, es, i - 1);
      assert StepBy(c, ss[i - 1], es[i - 1], ss[i]);
      StepKeepsInv(c, ss[i - 1], es[i - 1]);
    }
  }

  // ---------------------------------------------------------------- continuity

  /** What ring r has executed. */
  ghost function Past(s: Sys, r: nat): seq<Packet> {
    if r < |s.streams| && r < |s.core.rings| && s.core.rings[r].consumed <= |s.streams[r]|
    then s.streams[r][..s.core.rings[r].consumed] else []
  }

  /** In state s, event e does not make ring r execute. */
  ghost predicate Away(s: Sys, e: Event, r: nat) {
    !e.Restart? && r < |s.streams| && (e.SwitchIn? || s.core.cp.active != r)
  }

  lemma StepKeepsPast(c: Setup, s: Sys, e: Event, t: Sys, r: nat)
    requires Inv(c, s) && StepBy(c, s, e, t) && Away(s, e, r)
    ensures Past(t, r) == Past(s, r)
  {
    assert RingOk(c, s, r);
    if e.Handler? {
      HandlerFrame(s.core, e.l);
    }
  }

  /** While ring r is away from the CP, what it has executed does not change. */
  lemma {:induction false} PastIsKept(c: Setup, ss: seq<Sys>, es: seq<Event>, i: nat, j: nat, r: nat)
    requires Run(c, ss, es) && Init(c, ss[0]) && i <= j < |ss|
    requires forall k :: i <= k < j ==> Away(ss[k], es[k], r)
    ensures Past(ss[j], r) == Past(ss[i], r)
    decreases j
  {
    if i < j {
      PastIsKept(c, ss, es, i, j - 1, r);
      RunStepKeepsPast(c, ss, es, j - 1, r);
    }
  }

  lemma RunStepKeepsPast(c: Setup, ss: seq<Sys>, es: seq<Event>, k: nat, r: nat)
    requires Run(c, ss, es) && Init(c, ss[0]) && k < |es| && Away(ss[k], es[k], r)
    ensures Past(ss[k + 1], r) == Past(ss[k], r)
  {
    RunKeepsInv(c, ss, es, k);
    assert StepBy(c, ss[k], es[k], ss[k + 1]);
    StepKeepsPast(c, ss[k], es[k], ss[k + 1], r);
  }

  lemma TableOfPast(c: Setup, s: Sys)
    requires Inv(c, s)
    ensures s.table == TableAfter(Past(s, s.core.cp.active), c.default)
  {
  }

  lemma {:induction false} RingCount(c: Setup, ss: seq<Sys>, es: seq<Event>, i: nat)
    requires Run(c, ss, es) && Init(c, ss[0]) && i < |ss|
    ensures |ss[i].streams| == |c.scratchAt|
  {
    RunKeepsInv(c, ss, es, i);
  }

  /** Ring r is on the CP at i, leaves it with the next step, and is first back on it at j: the table
      loaded at j is the one that was in force at i. */
  lemma TableSurvivesPreemption(c: Setup, ss: seq<Sys>, es: seq<Event>, i: nat, j: nat, r: nat)
    requires Run(c, ss, es) && Init(c, ss[0]) && i + 1 < j < |ss|
    requires forall k :: i <= k < j ==> !es[k].Restart?
    requires ss[i].core.cp.active == r && es[i].SwitchIn?
    requires forall k :: i < k < j ==> ss[k].core.cp.active != r
    requires ss[j].core.cp.active == r
    ensures ss[j].table == ss[i].table
  {
    RunKeepsInv(c, ss, es, i);
    RunKeepsInv(c, ss, es, j);
    assert r < |c.scratchAt|;
    forall k | i <= k < j ensures Away(ss[k], es[k], r) {
      RingCount(c, ss, es, k);
    }
    PastIsKept(c, ss, es, i, j, r);
    TableOfPast(c, ss[i]);
    TableOfPast(c, ss[j]);
  }

  /** At every switch, first ones included, the table loaded is the one the incoming ring had put in
      force last, or the default if it never did. */
  lemma SwitchLoadsTableInForce(c: Setup, ss: seq<Sys>, es: seq<Event>, i: nat)
    requires Run(c, ss, es) && Init(c, ss[0]) && i < |es| && es[i].SwitchIn?
    ensures ss[i].core.next.Some? && ss[i].core.next.value < |ss[i].streams|
    ensures var m := ss[i].core.next.value;
      && Fits(c, ss[i]) && RingOk(c, ss[i], m)
      && ss[i + 1].core.cp.active == m && ss[i + 1].table == InForce(c, ss[i], m)
  {
    RunKeepsInv(c, ss, es, i);
    assert StepBy(c, ss[i], es[i], ss[i + 1]);
    SwitchKeeps(c, ss[i]);
  }
}
