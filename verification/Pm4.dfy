module Wrappers {
  datatype Option<+T> = None | Some(value: T)
}

/** 32- and 64-bit words as the driver splits and joins them. */
module Words {
  const TWO32 := 0x1_0000_0000

  type u32 = x: int | 0 <= x < 0x1_0000_0000
  type u64 = x: int | 0 <= x < 0x1_0000_0000_0000_0000

  function Lower32(a: u64): u32 { a % TWO32 }

  function Upper32(a: u64): u32 { a / TWO32 }

  function Join(lo: u32, hi: u32): u64 { hi * TWO32 + lo }

  /** x++ on a u32. */
  function Inc(x: u32): u32 { if x == 0xFFFF_FFFF then 0 else x + 1 }

  lemma Assoc<T>(a: seq<T>, b: seq<T>, c: seq<T>)
    ensures a + (b + c) == a + b + c
  {
  }

  lemma AtLeast(k: nat, d: nat)
    requires k >= 1
    ensures k * d >= d
  {
  }

  lemma QuotientIsUnique(d: nat, q: nat, r: nat, q': nat, r': nat)
    requires q * d + r == q' * d + r' && r < d && r' < d
    ensures q == q' && r == r'
  {
    if q > q' {
      AtLeast(q - q', d);
    } else if q < q' {
      AtLeast(q' - q, d);
    }
  }

  lemma Field(w: nat, d: nat, q: nat, r: nat)
    requires d > 0 && w == q * d + r && r < d
    ensures w / d == q && w % d == r
  {
    QuotientIsUnique(d, q, r, w / d, w % d);
  }

  lemma JoinSplit(a: u64)
    ensures Join(Lower32(a), Upper32(a)) == a
  {
  }
}

/** PM4 packets: the header words of adreno_pm4types.h, the CP's parser, and what a parsed stream does.

    A5xx streams use type-7 (opcode) and type-4 (register) headers, A3xx streams the legacy type-3 and
    type-0 headers. Headers are sums of disjoint bit fields. */
module Pm4 {
  import opened Words
  import opened Wrappers

  datatype Format = Modern | Legacy

  datatype Packet =
    | Op(op: nat, payload: seq<u32>)
    | Regs(reg: nat, payload: seq<u32>)

  // Opcodes
  const CP_NOP := 0x10
  const CP_WAIT_MEM_WRITES := 0x12
  const CP_WAIT_FOR_ME := 0x13
  const CP_YIELD_ENABLE := 0x1C
  const CP_WAIT_FOR_IDLE := 0x26
  const CP_SET_CONSTANT := 0x2D
  const CP_MEM_WRITE := 0x3D
  const CP_REG_TO_MEM := 0x3E
  const CP_INDIRECT_BUFFER_PFE := 0x3F
  const CP_EVENT_WRITE := 0x46
  const CP_SMMU_TABLE_UPDATE := 0x53
  const CP_SET_PROTECTED_MODE := 0x5F
  const CP_SET_SECURE_MODE := 0x66
  const CP_PREEMPT_ENABLE_GLOBAL := 0x69
  const CP_PREEMPT_ENABLE_LOCAL := 0x6A
  const CP_CONTEXT_SWITCH_YIELD := 0x6B
  const CP_SET_RENDER_MODE := 0x6C

  const CACHE_FLUSH_TS := 4

  // ---------------------------------------------------------------- headers

  /** One when the number of set bits is even. */
  function OddParity(v: nat): (b: nat)
    ensures b <= 1
  {
    if v == 0 then 1
    else if v % 2 == 0 then OddParity(v / 2)
    else 1 - OddParity(v / 2)
  }

  predicate WellFormed(f: Format, p: Packet) {
    match (f, p)
    case (Modern, Op(op, d)) => op < 0x80 && |d| < 0x4000
    case (Modern, Regs(reg, d)) => reg < 0x4_0000 && |d| < 0x80
    case (Legacy, Op(op, d)) => op < 0x80 && 0 < |d| <= 0x4000
    case (Legacy, Regs(reg, d)) => reg < 0x8000 && 0 < |d| <= 0x4000
  }

  function Type7(op: nat, cnt: nat): u32
    requires op < 0x80 && cnt < 0x4000
  {
    0x7000_0000 + cnt + 0x8000 * OddParity(cnt) + 0x1_0000 * op + 0x80_0000 * OddParity(op)
  }

  function Type4(reg: nat, cnt: nat): u32
    requires reg < 0x4_0000 && cnt < 0x80
  {
    0x4000_0000 + cnt + 0x80 * OddParity(cnt) + 0x100 * reg + 0x800_0000 * OddParity(reg)
  }

  function Type3(op: nat, cnt: nat): u32
    requires op < 0x80 && 0 < cnt <= 0x4000
  {
    0xC000_0000 + 0x1_0000 * (cnt - 1) + 0x100 * op
  }

  function Type0(reg: nat, cnt: nat): u32
    requires reg < 0x8000 && 0 < cnt <= 0x4000
  {
    0x1_0000 * (cnt - 1) + reg
  }

  function Header(f: Format, p: Packet): u32
    requires WellFormed(f, p)
  {
    match (f, p)
    case (Modern, Op(op, d)) => Type7(op, |d|)
    case (Modern, Regs(reg, d)) => Type4(reg, |d|)
    case (Legacy, Op(op, d)) => Type3(op, |d|)
    case (Legacy, Regs(reg, d)) => Type0(reg, |d|)
  }

  // ---------------------------------------------------------------- the CP's view of a header

  datatype HeaderFields = OpHead(op: nat, cnt: nat) | RegHead(reg: nat, cnt: nat)

  function Type7Op(w: u32): nat { w / 0x1_0000 % 0x80 }
  function Type7Size(w: u32): nat { w % 0x4000 }

  predicate IsType7(w: u32) {
    && w / 0x1000_0000 == 7 && w / 0x100_0000 % 0x10 == 0
    && w / 0x80_0000 % 2 == OddParity(Type7Op(w))
    && w / 0x8000 % 2 == OddParity(Type7Size(w))
  }

  function Type4Reg(w: u32): nat { w / 0x100 % 0x8_0000 }
  function Type4Size(w: u32): nat { w % 0x80 }

  predicate IsType4(w: u32) {
    && w / 0x1000_0000 == 4
    && w / 0x800_0000 % 2 == OddParity(Type4Reg(w))
    && w / 0x80 % 2 == OddParity(Type4Size(w))
  }

  function Type3Op(w: u32): nat { w / 0x100 % 0x100 }
  function LegacySize(w: u32): nat { w / 0x1_0000 % 0x4000 + 1 }

  predicate IsType3(w: u32) {
    w / 0x4000_0000 == 3 && w / 0x8000 % 2 == 0 && w % 0x100 / 2 == 0
  }

  predicate IsType0(w: u32) { w / 0x4000_0000 == 0 }

  function HeadOf(f: Format, w: u32): Option<HeaderFields> {
    match f
    case Modern =>
      if IsType7(w) then Some(OpHead(Type7Op(w), Type7Size(w)))
      else if IsType4(w) then Some(RegHead(Type4Reg(w), Type4Size(w)))
      else None
    case Legacy =>
      if IsType3(w) then Some(OpHead(Type3Op(w), LegacySize(w)))
      else if IsType0(w) then Some(RegHead(w % 0x8000, LegacySize(w)))
      else None
  }

  /** A header carries exactly its opcode (or register) and its payload count. */
  lemma HeadOfHeader(f: Format, p: Packet)
    requires WellFormed(f, p)
    ensures HeadOf(f, Header(f, p)) == Some(if p.Op? then OpHead(p.op, |p.payload|) else RegHead(p.reg, |p.payload|))
  {
    match (f, p)
    case (Modern, Op(op, d)) => Type7Fields(op, |d|);
    case (Modern, Regs(reg, d)) => Type4Fields(reg, |d|);
    case (Legacy, Op(op, d)) => Type3Fields(op, |d|);
    case (Legacy, Regs(reg, d)) => Type0Fields(reg, |d|);
  }

  /** Taking a type-7 word apart, parities b and c given. */
  lemma Type7Bits(op: nat, b: nat, c: nat, cnt: nat)
    requires op < 0x80 && cnt < 0x4000 && b <= 1 && c <= 1
    ensures var w := 0x7000_0000 + cnt + 0x8000 * c + 0x1_0000 * op + 0x80_0000 * b;
      && w < TWO32 && w % 0x4000 == cnt && w / 0x8000 % 2 == c && w / 0x1_0000 % 0x80 == op
      && w / 0x80_0000 % 2 == b && w / 0x100_0000 % 0x10 == 0 && w / 0x1000_0000 == 7
  {
    var w := 0x7000_0000 + cnt + 0x8000 * c + 0x1_0000 * op + 0x80_0000 * b;
    Field(w, 0x8000, 0xE000 + c + 2 * op + 0x100 * b, cnt);
    Field(w, 0x1_0000, 0x7000 + op + 0x80 * b, 0x8000 * c + cnt);
    Field(w, 0x80_0000, 0xE0 + b, 0x1_0000 * op + 0x8000 * c + cnt);
  }

  /** Taking a type-4 word apart, parities b and c given. */
  lemma Type4Bits(reg: nat, b: nat, c: nat, cnt: nat)
    requires reg < 0x4_0000 && cnt < 0x80 && b <= 1 && c <= 1
    ensures var w := 0x4000_0000 + cnt + 0x80 * c + 0x100 * reg + 0x800_0000 * b;
      && w < TWO32 && w % 0x80 == cnt && w / 0x80 % 2 == c && w / 0x100 % 0x8_0000 == reg
      && w / 0x800_0000 % 2 == b && w / 0x1000_0000 == 4
  {
    var w := 0x4000_0000 + cnt + 0x80 * c + 0x100 * reg + 0x800_0000 * b;
    Field(w, 0x80, 0x80_0000 + c + 2 * reg + 0x10_0000 * b, cnt);
    Field(w, 0x100, 0x40_0000 + reg + 0x8_0000 * b, 0x80 * c + cnt);
    Field(0x40_0000 + reg + 0x8_0000 * b, 0x8_0000, 8 + b, reg);
    Field(w, 0x800_0000, 8 + b, 0x100 * reg + 0x80 * c + cnt);
    Field(w, 0x1000_0000, 4, 0x800_0000 * b + 0x100 * reg + 0x80 * c + cnt);
  }

  lemma Type7Fields(op: nat, cnt: nat)
    requires op < 0x80 && cnt < 0x4000
    ensures IsType7(Type7(op, cnt)) && Type7Op(Type7(op, cnt)) == op && Type7Size(Type7(op, cnt)) == cnt
  {
    Type7Bits(op, OddParity(op), OddParity(cnt), cnt);
  }

  lemma Type4Fields(reg: nat, cnt: nat)
    requires reg < 0x4_0000 && cnt < 0x80
    ensures IsType4(Type4(reg, cnt)) && !IsType7(Type4(reg, cnt))
    ensures Type4Reg(Type4(reg, cnt)) == reg && Type4Size(Type4(reg, cnt)) == cnt
  {
    Type4Bits(reg, OddParity(reg), OddParity(cnt), cnt);
  }

  lemma Type3Fields(op: nat, cnt: nat)
    requires op < 0x80 && 0 < cnt <= 0x4000
    ensures IsType3(Type3(op, cnt)) && Type3Op(Type3(op, cnt)) == op && LegacySize(Type3(op, cnt)) == cnt
  {
    var w := Type3(op, cnt);
    Field(w, 0x100, 0xC0_0000 + 0x100 * (cnt - 1) + op, 0);
    Field(w, 0x1_0000, 0xC000 + cnt - 1, 0x100 * op);
    Field(w, 0x8000, 0x1_8000 + 2 * (cnt - 1), 0x100 * op);
    Field(w, 0x4000_0000, 3, 0x1_0000 * (cnt - 1) + 0x100 * op);
  }

  lemma Type0Fields(reg: nat, cnt: nat)
    requires reg < 0x8000 && 0 < cnt <= 0x4000
    ensures IsType0(Type0(reg, cnt)) && !IsType3(Type0(reg, cnt))
    ensures Type0(reg, cnt) % 0x8000 == reg && LegacySize(Type0(reg, cnt)) == cnt
  {
    var w := Type0(reg, cnt);
    Field(w, 0x8000, 2 * (cnt - 1), reg);
    Field(w, 0x1_0000, cnt - 1, reg);
    Field(w, 0x4000_0000, 0, w);
  }

  /** Header words as they appear in a ring: an indirect buffer call, a NOP, a register write, and their
      legacy forms. */
  lemma HeaderWords()
    ensures Type7(CP_INDIRECT_BUFFER_PFE, 3) == 0x70BF_8003 && Type7(CP_NOP, 4) == 0x7010_0004
    ensures Type4(0x831, 1) == 0x4808_3101
    ensures Type3(CP_INDIRECT_BUFFER_PFE, 2) == 0xC001_3F00 && Type0(0x831, 2) == 0x0001_0831
  {
    SmallParities();
    LargeParities();
  }

  lemma SmallParities()
    ensures OddParity(1) == 0 && OddParity(2) == 0 && OddParity(3) == 1 && OddParity(4) == 0 && OddParity(0x10) == 0
  {
    assert OddParity(0) == 1;
  }

  lemma LargeParities()
    ensures OddParity(0x3F) == 1 && OddParity(0x831) == 1
  {
    assert OddParity(0x7) == 0 && OddParity(0xF) == 1;
    assert OddParity(0x20) == 0 && OddParity(0x83) == 0 && OddParity(0x20C) == 0;
  }

  // ---------------------------------------------------------------- streams

  function EncodeOne(f: Format, p: Packet): seq<u32>
    requires WellFormed(f, p)
  {
    [Header(f, p)] + p.payload
  }

  ghost predicate AllWellFormed(f: Format, ps: seq<Packet>) { forall p :: p in ps ==> WellFormed(f, p) }

  ghost function Encode(f: Format, ps: seq<Packet>): seq<u32>
    requires AllWellFormed(f, ps)
  {
    if ps == [] then [] else EncodeOne(f, ps[0]) + Encode(f, ps[1..])
  }

  /** The CP's parser: None when a word is not a header or a payload is cut short. */
  function Decode(f: Format, ws: seq<u32>): Option<seq<Packet>>
    decreases |ws|
  {
    if ws == [] then Some([])
    else match HeadOf(f, ws[0])
      case None => None
      case Some(h) =>
        if 1 + h.cnt > |ws| then None
        else
          var d := ws[1..1 + h.cnt];
          var p := if h.OpHead? then Op(h.op, d) else Regs(h.reg, d);
          match Decode(f, ws[1 + h.cnt..])
          case None => None
          case Some(ps) => Some([p] + ps)
  }

  lemma {:induction false} DecodeEncode(f: Format, ps: seq<Packet>)
    requires AllWellFormed(f, ps)
    ensures Decode(f, Encode(f, ps)) == Some(ps)
    decreases |ps|
  {
    if ps != [] {
      var p, rest := ps[0], Encode(f, ps[1..]);
      var ws := Encode(f, ps);
      HeadOfHeader(f, p);
      DecodeEncode(f, ps[1..]);
      assert ws[0] == Header(f, p);
      assert ws[1..1 + |p.payload|] == p.payload;
      assert ws[1 + |p.payload|..] == rest;
      assert [p] + ps[1..] == ps;
    }
  }

  lemma {:induction false} EncodeAppend(f: Format, ps: seq<Packet>, qs: seq<Packet>)
    requires AllWellFormed(f, ps) && AllWellFormed(f, qs)
    ensures AllWellFormed(f, ps + qs) && Encode(f, ps + qs) == Encode(f, ps) + Encode(f, qs)
    decreases |ps|
  {
    if ps == [] {
      assert ps + qs == qs;
    } else {
      assert (ps + qs)[1..] == ps[1..] + qs;
      EncodeAppend(f, ps[1..], qs);
    }
  }

  lemma EncodeSnoc(f: Format, ps: seq<Packet>, p: Packet)
    requires AllWellFormed(f, ps) && WellFormed(f, p)
    ensures AllWellFormed(f, ps + [p]) && Encode(f, ps + [p]) == Encode(f, ps) + EncodeOne(f, p)
  {
    EncodeAppend(f, ps, [p]);
    assert [p][1..] == [];
    assert Encode(f, [p]) == EncodeOne(f, p) + Encode(f, []);
  }

  // ---------------------------------------------------------------- what a stream does

  /** An indirect buffer the CP jumps to. */
  datatype IbCall = IbCall(gpuaddr: u64, dwords: nat)

  /** An A5xx packet that calls one. */
  function CallIb(gpuaddr: u64, dwords: u32): Packet {
    Op(CP_INDIRECT_BUFFER_PFE, [Lower32(gpuaddr), Upper32(gpuaddr), dwords])
  }

  function IbOf(f: Format, p: Packet): seq<IbCall> {
    if !(p.Op? && p.op == CP_INDIRECT_BUFFER_PFE) then []
    else if f == Modern && |p.payload| == 3 then [IbCall(Join(p.payload[0], p.payload[1]), p.payload[2])]
    else if f == Legacy && |p.payload| == 2 then [IbCall(p.payload[0], p.payload[1])]
    else []
  }

  /** The indirect buffers the stream executes, in order. */
  ghost function Ibs(f: Format, ps: seq<Packet>): seq<IbCall> {
    if ps == [] then [] else IbOf(f, ps[0]) + Ibs(f, ps[1..])
  }

  lemma {:induction false} IbsAppend(f: Format, ps: seq<Packet>, qs: seq<Packet>)
    ensures Ibs(f, ps + qs) == Ibs(f, ps) + Ibs(f, qs)
    decreases |ps|
  {
    if ps == [] {
      assert ps + qs == qs;
    } else {
      assert (ps + qs)[1..] == ps[1..] + qs;
      IbsAppend(f, ps[1..], qs);
    }
  }

  lemma {:induction false} IbsSilent(f: Format, ps: seq<Packet>)
    requires forall p :: p in ps ==> IbOf(f, p) == []
    ensures Ibs(f, ps) == []
    decreases |ps|
  {
    if ps != [] {
      IbsSilent(f, ps[1..]);
    }
  }

  /** Protected mode and secure mode. */
  datatype Mode = Mode(prot: bool, secure: bool)

  function ModeStep(p: Packet, m: Mode): Mode {
    if p.Op? && p.op == CP_SET_PROTECTED_MODE && |p.payload| == 1 then m.(prot := p.payload[0] != 0)
    else if p.Op? && p.op == CP_SET_SECURE_MODE && |p.payload| == 1 then m.(secure := p.payload[0] != 0)
    else m
  }

  ghost function ModeAfter(ps: seq<Packet>, m: Mode): Mode {
    if ps == [] then m else ModeAfter(ps[1..], ModeStep(ps[0], m))
  }

  lemma {:induction false} ModeAppend(ps: seq<Packet>, qs: seq<Packet>, m: Mode)
    ensures ModeAfter(ps + qs, m) == ModeAfter(qs, ModeAfter(ps, m))
    decreases |ps|
  {
    if ps == [] {
      assert ps + qs == qs;
    } else {
      assert (ps + qs)[1..] == ps[1..] + qs;
      ModeAppend(ps[1..], qs, ModeStep(ps[0], m));
    }
  }

  lemma ModeOfOne(p: Packet, m: Mode)
    ensures ModeAfter([p], m) == ModeStep(p, m)
  {
    assert [p][1..] == [];
    assert ModeAfter([p][1..], ModeStep(p, m)) == ModeStep(p, m);
  }

  /** Register writes of a stream, each with the protection it was made under. */
  datatype RegWrite = RegWrite(reg: nat, val: u32, prot: bool)

  function RegWritesOf(p: Packet, m: Mode): seq<RegWrite> {
    if p.Regs? then seq(|p.payload|, i requires 0 <= i < |p.payload| => RegWrite(p.reg + i, p.payload[i], m.prot))
    else []
  }

  ghost function RegWrites(ps: seq<Packet>, m: Mode): seq<RegWrite> {
    if ps == [] then [] else RegWritesOf(ps[0], m) + RegWrites(ps[1..], ModeStep(ps[0], m))
  }

  lemma RegWritesOfOne(p: Packet, m: Mode)
    ensures RegWrites([p], m) == RegWritesOf(p, m)
  {
    assert [p][1..] == [];
    assert RegWrites([p], m) == RegWritesOf(p, m) + RegWrites([], ModeStep(p, m));
  }

  lemma {:induction false} RegWritesAppend(ps: seq<Packet>, qs: seq<Packet>, m: Mode)
    ensures RegWrites(ps + qs, m) == RegWrites(ps, m) + RegWrites(qs, ModeAfter(ps, m))
    decreases |ps|
  {
    if ps == [] {
      assert ps + qs == qs;
    } else {
      assert (ps + qs)[1..] == ps[1..] + qs;
      RegWritesAppend(ps[1..], qs, ModeStep(ps[0], m));
    }
  }

  /** The value a packet stores in the dword at address a of GPU memory, if it stores one there:
      CP_MEM_WRITE stores its data words from its address on, CP_EVENT_WRITE of CACHE_FLUSH_TS stores
      one word. */
  function Stores(p: Packet, a: u64): Option<u32> {
    if p.Op? && p.op == CP_MEM_WRITE && |p.payload| > 2 then
      var base := Join(p.payload[0], p.payload[1]);
      if base <= a && (a - base) % 4 == 0 && (a - base) / 4 < |p.payload| - 2
      then Some(p.payload[2 + (a - base) / 4]) else None
    else if p.Op? && p.op == CP_EVENT_WRITE && |p.payload| == 4 && p.payload[0] % 0x100 == CACHE_FLUSH_TS then
      if Join(p.payload[1], p.payload[2]) == a then Some(p.payload[3]) else None
    else None
  }

  function CellStep(p: Packet, a: u64, v: u32): u32 {
    match Stores(p, a)
    case None => v
    case Some(w) => w
  }

  /** The dword at a, initially v, after an A5xx stream. */
  ghost function CellAfter(ps: seq<Packet>, a: u64, v: u32): u32 {
    if ps == [] then v else CellAfter(ps[1..], a, CellStep(ps[0], a, v))
  }

  lemma {:induction false} CellAppend(ps: seq<Packet>, qs: seq<Packet>, a: u64, v: u32)
    ensures CellAfter(ps + qs, a, v) == CellAfter(qs, a, CellAfter(ps, a, v))
    decreases |ps|
  {
    if ps == [] {
      assert ps + qs == qs;
    } else {
      assert (ps + qs)[1..] == ps[1..] + qs;
      CellAppend(ps[1..], qs, a, CellStep(ps[0], a, v));
    }
  }

  lemma {:induction false} CellUntouched(ps: seq<Packet>, a: u64, v: u32)
    requires forall p :: p in ps ==> Stores(p, a) == None
    ensures CellAfter(ps, a, v) == v
    decreases |ps|
  {
    if ps != [] {
      CellUntouched(ps[1..], a, CellStep(ps[0], a, v));
    }
  }

  // ---------------------------------------------------------------- writing packets

  /** A packet that is only there when b holds. */
  ghost function Opt(b: bool, p: Packet): seq<Packet> { if b then [p] else [] }

  /** Append one packet to a buffer that holds the packets ps and behind them ts. */
  method Emit(f: Format, cmds: seq<u32>, p: Packet, ghost ps: seq<Packet>, ghost ts: seq<Packet>)
    returns (cmds': seq<u32>)
    requires AllWellFormed(f, ps + ts) && cmds == Encode(f, ps + ts) && WellFormed(f, p)
    ensures AllWellFormed(f, ps + (ts + [p])) && cmds' == Encode(f, ps + (ts + [p]))
    ensures |cmds'| == |cmds| + 1 + |p.payload|
  {
    EncodeSnoc(f, ps + ts, p);
    assert ps + ts + [p] == ps + (ts + [p]);
    cmds' := cmds + [Header(f, p)] + p.payload;
  }
}
