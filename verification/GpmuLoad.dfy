/** _load_gpmu_firmware and _gpmu_create_load_cmds: the microcode in packets no longer than the chunk
    limit, written into the GPMU's instruction RAM. */
module GpmuLoad {
  import opened Words
  import opened Pm4
  import opened Wrappers
  import opened GpmuImages
  import S = A5xxSubmission

  const GPMU_INST_RAM_BASE := 0x8800
  const GPMU_INST_RAM_SIZE := 0xFFF
  const TYPE4_MAX_PAYLOAD := 127

  function Min(a: nat, b: nat): nat { if a < b then a else b }

  function Chunk(ucode: seq<u32>, from: nat, limit: nat): Packet
    requires from < |ucode|
  {
    Regs(GPMU_INST_RAM_BASE + from, ucode[from..Min(from + limit, |ucode|)])
  }

  ghost function Chunks(ucode: seq<u32>, from: nat, limit: nat): seq<Packet>
    requires from <= |ucode| && limit > 0
    decreases |ucode| - from
  {
    if from == |ucode| then []
    else [Chunk(ucode, from, limit)] + Chunks(ucode, Min(from + limit, |ucode|), limit)
  }

  ghost function LoadPackets(ucode: seq<u32>, limit: nat): seq<Packet>
    requires limit > 0
  {
    [S.PROT_OFF] + Chunks(ucode, 0, limit) + [S.PROT_ON]
  }

  /** The register field of a type-4 header reaches the last word. */
  predicate Addressable(ucode: seq<u32>) { GPMU_INST_RAM_BASE + |ucode| <= 0x4_0000 }

  /** The words allocated for the command stream. */
  function Allotted(total: nat, limit: nat): nat
    requires limit > 0
  {
    total + total / limit + 1 + 4
  }

  /** One header per started chunk and four words for the protected mode, never more than was
      allocated. */
  method CreateLoadCmds(ucode: seq<u32>, limit: nat) returns (cmds: seq<u32>)
    requires 0 < limit < 0x80 && Addressable(ucode)
    ensures AllWellFormed(Modern, LoadPackets(ucode, limit)) && cmds == Encode(Modern, LoadPackets(ucode, limit))
    ensures |cmds| == |ucode| + |Chunks(ucode, 0, limit)| + 4 <= Allotted(|ucode|, limit)
  {
    ghost var none: seq<Packet> := [];
    assert none + none == none;
    cmds := Emit(Modern, [], S.PROT_OFF, none, none);
    assert none + (none + [S.PROT_OFF]) == [S.PROT_OFF];
    cmds := PutChunks(cmds, ucode, limit);
    FewChunks(ucode, 0, limit);
    ghost var cs := Chunks(ucode, 0, limit);
    Assoc([S.PROT_OFF], cs, [S.PROT_ON]);
    cmds := Emit(Modern, cmds, S.PROT_ON, [S.PROT_OFF], cs);
  }

  method PutChunks(cmds: seq<u32>, ucode: seq<u32>, limit: nat) returns (cmds': seq<u32>)
    requires 0 < limit < 0x80 && Addressable(ucode)
    requires AllWellFormed(Modern, [S.PROT_OFF]) && cmds == Encode(Modern, [S.PROT_OFF]) && |cmds| == 2
    ensures var ps := [S.PROT_OFF] + Chunks(ucode, 0, limit);
      AllWellFormed(Modern, ps) && cmds' == Encode(Modern, ps)
    ensures |cmds'| == 2 + |ucode| + |Chunks(ucode, 0, limit)|
  {
    ghost var cs := Chunks(ucode, 0, limit);
    ghost var rest := AllChunks(ucode, limit);
    cmds' := PutRest(cmds, ucode, limit, rest, cs);
  }

  /** rest(o) are the chunks from o on. */
  ghost predicate ChunksFrom(rest: nat -> seq<Packet>, ucode: seq<u32>, o: nat, limit: nat)
    requires o <= |ucode| && limit > 0
  {
    rest(o) == Chunks(ucode, o, limit)
  }

  lemma AllChunks(ucode: seq<u32>, limit: nat) returns (rest: nat -> seq<Packet>)
    requires limit > 0
    ensures forall o: nat :: o <= |ucode| ==> ChunksFrom(rest, ucode, o, limit)
    ensures rest(0) == Chunks(ucode, 0, limit) && rest(|ucode|) == []
  {
    rest := (o: nat) => if o <= |ucode| && limit > 0 then Chunks(ucode, o, limit) else [];
  }

  /** The loop; cs are all chunks. */
  method PutRest(cmds: seq<u32>, ucode: seq<u32>, limit: nat, ghost rest: nat -> seq<Packet>, ghost cs: seq<Packet>)
    returns (cmds': seq<u32>)
    requires 0 < limit < 0x80 && Addressable(ucode)
    requires forall o: nat :: o <= |ucode| ==> ChunksFrom(rest, ucode, o, limit)
    requires rest(0) == cs && rest(|ucode|) == []
    requires AllWellFormed(Modern, [S.PROT_OFF]) && cmds == Encode(Modern, [S.PROT_OFF]) && |cmds| == 2
    ensures AllWellFormed(Modern, [S.PROT_OFF] + cs) && cmds' == Encode(Modern, [S.PROT_OFF] + cs)
    ensures |cmds'| == 2 + |ucode| + |cs|
  {
    ghost var qs: seq<Packet> := [];
    assert [S.PROT_OFF] + qs == [S.PROT_OFF] && qs + cs == cs;
    var offset, size := 0, |ucode|;
    cmds' := cmds;
    while size > 0
      invariant 0 <= offset && 0 <= size && offset + size == |ucode|
      invariant AllWellFormed(Modern, [S.PROT_OFF] + qs) && cmds' == Encode(Modern, [S.PROT_OFF] + qs)
      invariant qs + rest(offset) == cs
      invariant |cmds'| == 2 + offset + |qs|
    {
      var n := size;
      if size >= limit {
        n := limit;
      }
      NextChunk(ucode, offset, n, limit, qs, rest);
      var p := Regs(GPMU_INST_RAM_BASE + offset, ucode[offset..offset + n]);
      cmds' := Emit(Modern, cmds', p, [S.PROT_OFF], qs);
      qs := qs + [p];
      offset, size := offset + n, size - n;
    }
    assert qs + rest(offset) == qs;
  }

  lemma NextChunk(ucode: seq<u32>, offset: nat, n: nat, limit: nat, qs: seq<Packet>, rest: nat -> seq<Packet>)
    requires offset < |ucode| && limit > 0 && offset + n == Min(offset + limit, |ucode|)
    requires forall o: nat :: o <= |ucode| ==> ChunksFrom(rest, ucode, o, limit)
    ensures qs + [Regs(GPMU_INST_RAM_BASE + offset, ucode[offset..offset + n])] + rest(offset + n) == qs + rest(offset)
  {
    assert ChunksFrom(rest, ucode, offset, limit) && ChunksFrom(rest, ucode, offset + n, limit);
    Assoc(qs, [Chunk(ucode, offset, limit)], Chunks(ucode, offset + n, limit));
  }

  lemma {:induction false} FewChunks(ucode: seq<u32>, from: nat, limit: nat)
    requires from <= |ucode| && limit > 0
    ensures |Chunks(ucode, from, limit)| <= (|ucode| - from) / limit + 1
    decreases |ucode| - from
  {
    var n := |ucode| - from;
    if n > limit {
      FewChunks(ucode, from + limit, limit);
      OneLess(n, limit);
    } else if n > 0 {
      assert Chunks(ucode, |ucode|, limit) == [];
      NonNegative(n, limit);
    } else {
      NonNegative(n, limit);
    }
  }

  lemma OneLess(n: nat, d: nat)
    requires 0 < d <= n
    ensures n / d == (n - d) / d + 1
  {
    var q, r := (n - d) / d, (n - d) % d;
    assert n - d == q * d + r;
    assert (q + 1) * d == q * d + d;
    Field(n, d, q + 1, r);
  }

  lemma NonNegative(n: nat, d: nat)
    requires d > 0
    ensures n / d >= 0
  {
  }

  // ---------------------------------------------------------------- what the packets do

  /** Every microcode word once, in order, with protection off. */
  ghost function RamWrites(ucode: seq<u32>, from: nat): seq<RegWrite>
    requires from <= |ucode|
  {
    seq(|ucode| - from, i requires 0 <= i < |ucode| - from =>
      RegWrite(GPMU_INST_RAM_BASE + from + i, ucode[from + i], false))
  }

  lemma {:induction false} ChunksWrite(ucode: seq<u32>, from: nat, limit: nat, m: Mode)
    requires from <= |ucode| && limit > 0 && !m.prot
    ensures RegWrites(Chunks(ucode, from, limit), m) == RamWrites(ucode, from)
    ensures ModeAfter(Chunks(ucode, from, limit), m) == m
    decreases |ucode| - from
  {
    if from < |ucode| {
      var p, next := Chunk(ucode, from, limit), Min(from + limit, |ucode|);
      ChunksWrite(ucode, next, limit, m);
      var ps := Chunks(ucode, from, limit);
      assert ps[0] == p && ps[1..] == Chunks(ucode, next, limit);
      assert ModeStep(p, m) == m;
      ChunkWrites(ucode, from, next, limit, m);
    }
  }

  lemma ChunkWrites(ucode: seq<u32>, from: nat, next: nat, limit: nat, m: Mode)
    requires from < |ucode| && limit > 0 && next == Min(from + limit, |ucode|) && !m.prot
    ensures RegWritesOf(Chunk(ucode, from, limit), m) + RamWrites(ucode, next) == RamWrites(ucode, from)
  {
  }

  /** However it is cut, executing the stream writes every microcode word to its place in the instruction
      RAM, once and in order; protection is off for exactly these writes and on behind them. */
  lemma LoadWritesUcode(ucode: seq<u32>, limit: nat, m: Mode)
    requires 0 < limit < 0x80 && Addressable(ucode)
    ensures AllWellFormed(Modern, LoadPackets(ucode, limit))
    ensures Decode(Modern, Encode(Modern, LoadPackets(ucode, limit))) == Some(LoadPackets(ucode, limit))
    ensures RegWrites(LoadPackets(ucode, limit), m) == RamWrites(ucode, 0)
    ensures ModeAfter(LoadPackets(ucode, limit), m) == m.(prot := true)
  {
    var off := m.(prot := false);
    var cs := Chunks(ucode, 0, limit);
    ChunksWellFormed(ucode, 0, limit);
    DecodeEncode(Modern, LoadPackets(ucode, limit));
    RegWritesAppend([S.PROT_OFF] + cs, [S.PROT_ON], m);
    RegWritesAppend([S.PROT_OFF], cs, m);
    ModeAppend([S.PROT_OFF] + cs, [S.PROT_ON], m);
    ModeAppend([S.PROT_OFF], cs, m);
    ModeOfOne(S.PROT_OFF, m);
    ModeOfOne(S.PROT_ON, off);
    RegWritesOfOne(S.PROT_OFF, m);
    RegWritesOfOne(S.PROT_ON, off);
    ChunksWrite(ucode, 0, limit, off);
  }

  lemma {:induction false} ChunksWellFormed(ucode: seq<u32>, from: nat, limit: nat)
    requires from <= |ucode| && 0 < limit < 0x80 && Addressable(ucode)
    ensures AllWellFormed(Modern, Chunks(ucode, from, limit))
    decreases |ucode| - from
  {
    if from < |ucode| {
      ChunksWellFormed(ucode, Min(from + limit, |ucode|), limit);
    }
  }

  // ---------------------------------------------------------------- the firmware file

  datatype Status = Done | Einval | Enomem

  ghost predicate Loadable(fw: seq<u32>, major: u32) {
    && Accepts(fw, GPMU_FIRMWARE_ID, major)
    && |ImageIn(fw, GPMU_FIRMWARE_ID, major).body| <= GPMU_INST_RAM_SIZE
  }

  /** The prebuilt commands; None until a firmware has been loaded. */
  class Gpmu {
    var cmds: Option<seq<u32>>

    constructor ()
      ensures cmds == None
    {
      cmds := None;
    }

    /** Every word looked at lies in the file, except that a stray word is read for an empty one. Commands
        appear exactly for a loadable file; Einval comes out only for a refused header, every other
        refusal of the file ends with Done and no commands. */
    method LoadGpmuFirmware(fw: seq<u32>, a540: bool, memory: bool, stray: u32) returns (ret: Status)
      modifies this
      ensures old(cmds).Some? ==> cmds == old(cmds) && ret == Done
      ensures old(cmds).None? ==>
        var major := if a540 then 3 else 1;
        && (cmds.Some? <==> Loadable(fw, major) && memory)
        && (cmds.Some? ==>
              var ps := LoadPackets(ImageIn(fw, GPMU_FIRMWARE_ID, major).body, TYPE4_MAX_PAYLOAD);
              AllWellFormed(Modern, ps) && cmds.value == Encode(Modern, ps))
        && (ret == Enomem <==> Loadable(fw, major) && !memory)
        && (ret == Einval <==> HeaderRefused(fw, major))
    {
      if cmds.Some? {
        return Done;
      }
      var major := if a540 then 3 else 1;
      var ucode: Option<seq<u32>>;
      ret, ucode := FindUcode(fw, major, stray);
      if ucode.Some? {
        if !memory {
          return Enomem;
        }
        var ws := CreateLoadCmds(ucode.value, TYPE4_MAX_PAYLOAD);
        cmds := Some(ws);
      }
    }
  }

  /** The file and its type are right but its header is not. */
  ghost predicate HeaderRefused(fw: seq<u32>, major: u32) {
    && fw != [] && 2 <= fw[0] < |fw| && fw[1] == GPMU_FIRMWARE_ID
    && !HeaderOk(fw[2..], fw[0] - 2, GPMU_FIRMWARE_ID, major)
  }

  /** stray: what lies behind an empty file. The source reads it, but no word is below its length of 0. */
  method FindUcode(fw: seq<u32>, major: u32, stray: u32) returns (ret: Status, ucode: Option<seq<u32>>)
    ensures ucode.Some? <==> Loadable(fw, major)
    ensures ucode.Some? ==> ucode.value == ImageIn(fw, GPMU_FIRMWARE_ID, major).body
    ensures ucode.Some? ==> |fw| > 3 && 3 + fw[2] <= fw[0] < |fw| && ucode.value == fw[3 + fw[2]..fw[0] + 1]
    ensures ret != Enomem && (ret == Einval <==> HeaderRefused(fw, major))
  {
    var length := if fw == [] then stray else fw[0];
    if length >= |fw| || length < 2 {
      return Done, None;
    }
    if fw[1] != GPMU_FIRMWARE_ID {
      return Done, None;
    }
    var ok := ReadBlockHeader(fw[2..], fw[0] - 2, GPMU_FIRMWARE_ID, major);
    if !ok {
      return Einval, None;
    }
    if fw[2] > fw[0] - 2 {
      assert false;
    }
    var from: nat, n: nat := fw[2] + 3, fw[0] - fw[2] - 2;
    if n > GPMU_INST_RAM_SIZE {
      return Done, None;
    }
    return Done, Some(fw[from..from + n]);
  }

  /** A loadable file starts with the serialization of an image whose body fits the instruction RAM; what
      follows is ignored. */
  lemma LoadableFiles(fw: seq<u32>, major: u32)
    ensures Loadable(fw, major) <==>
      exists im, rest :: IsFirmware(fw, major, im, rest)
    ensures forall im, rest :: IsFirmware(fw, major, im, rest) ==> ImageIn(fw, GPMU_FIRMWARE_ID, major) == im
  {
    if Loadable(fw, major) {
      AcceptedIsAnImage(fw, GPMU_FIRMWARE_ID, major);
      var n: nat := 1 + fw[0] as int;
      assert fw == fw[..n] + fw[n..];
      assert IsFirmware(fw, major, ImageIn(fw, GPMU_FIRMWARE_ID, major), fw[n..]);
    }
    forall im, rest | IsFirmware(fw, major, im, rest)
      ensures Loadable(fw, major) && ImageIn(fw, GPMU_FIRMWARE_ID, major) == im
    {
      ImageIsAccepted(im, GPMU_FIRMWARE_ID, major, rest);
    }
  }

  ghost predicate IsFirmware(fw: seq<u32>, major: u32, im: Image, rest: seq<u32>) {
    && ImageOk(im, GPMU_FIRMWARE_ID, major) && |im.body| <= GPMU_INST_RAM_SIZE
    && fw == ImageWords(im, GPMU_FIRMWARE_ID) + rest
  }
}
