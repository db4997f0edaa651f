/** a3xx_ringbuffer_submitcmd: the same list of indirect buffers in the legacy packet format. */
module A3xxCommands {
  import opened Words
  import opened Pm4
  import opened Wrappers
  import opened DrawObjects

  const START_IB: Packet := Op(CP_NOP, [0x2EADEABE])
  const END_IB: Packet := Op(CP_NOP, [0x2ABEDEAD])
  const A3XX_COMMAND_DWORDS := 4

  /** The size is not masked here; a queued buffer's dword count fits a word. */
  function IbPacket(ib: Ib): Packet
    requires ib.size / 4 < TWO32
  {
    Op(CP_INDIRECT_BUFFER_PFE, [Lower32(ib.gpuaddr), ib.size / 4])
  }

  function IbOrNop(ib: Ib, withPreamble: bool): Packet
    requires ib.size / 4 < TWO32
  {
    if IsWanted(ib, withPreamble) then IbPacket(ib) else Op(CP_NOP, EncodeOne(Legacy, IbPacket(ib)))
  }

  ghost predicate Sized(ibs: seq<Ib>) { forall i :: 0 <= i < |ibs| ==> ibs[i].size / 4 <= 0xFFFFF }

  ghost function IbPackets(ibs: seq<Ib>, withPreamble: bool): seq<Packet>
    requires Sized(ibs)
  {
    if ibs == [] then [] else IbPackets(ibs[..|ibs| - 1], withPreamble) + [IbOrNop(ibs[|ibs| - 1], withPreamble)]
  }

  ghost function Commands(skip: bool, withPreamble: bool, ibs: seq<Ib>): seq<Packet>
    requires Sized(ibs)
  {
    [START_IB] + (if skip then [] else IbPackets(ibs, withPreamble)) + [END_IB]
  }

  lemma SwallowedWords(ib: Ib, withPreamble: bool)
    requires ib.size / 4 < TWO32
    ensures EncodeOne(Legacy, IbOrNop(ib, withPreamble))
      == (if IsWanted(ib, withPreamble) then [] else [Type3(CP_NOP, 3)])
         + [Type3(CP_INDIRECT_BUFFER_PFE, 2), Lower32(ib.gpuaddr), ib.size / 4]
  {
  }

  lemma IbPacketsSnoc(ibs: seq<Ib>, i: nat, withPreamble: bool)
    requires Sized(ibs) && i < |ibs|
    ensures Sized(ibs[..i]) && Sized(ibs[..i + 1])
    ensures [START_IB] + IbPackets(ibs[..i + 1], withPreamble)
      == [START_IB] + IbPackets(ibs[..i], withPreamble) + [IbOrNop(ibs[i], withPreamble)]
  {
    assert ibs[..i + 1][..i] == ibs[..i];
  }

  /** Fills at most 4 + 4 * numibs dwords. */
  method WriteCommands(skip: bool, withPreamble: bool, ibs: seq<Ib>) returns (cmds: seq<u32>)
    requires Sized(ibs)
    ensures |cmds| <= A3XX_COMMAND_DWORDS + 4 * (if skip then 0 else |ibs|)
    ensures AllWellFormed(Legacy, Commands(skip, withPreamble, ibs))
    ensures cmds == Encode(Legacy, Commands(skip, withPreamble, ibs))
  {
    ghost var none: seq<Packet> := [];
    assert none + none == none && none + (none + [START_IB]) == [START_IB];
    cmds := Emit(Legacy, [], START_IB, none, none);
    ghost var ps := [START_IB];
    if !skip {
      cmds := PutIbs(cmds, withPreamble, ibs);
      ps := [START_IB] + IbPackets(ibs, withPreamble);
    }
    assert ps + none == ps && none + [END_IB] == [END_IB];
    cmds := Emit(Legacy, cmds, END_IB, ps, none);
    assert ps + [END_IB] == Commands(skip, withPreamble, ibs);
  }

  method PutIbs(cmds: seq<u32>, withPreamble: bool, ibs: seq<Ib>) returns (cmds': seq<u32>)
    requires Sized(ibs) && AllWellFormed(Legacy, [START_IB]) && cmds == Encode(Legacy, [START_IB])
    ensures AllWellFormed(Legacy, [START_IB] + IbPackets(ibs, withPreamble))
    ensures cmds' == Encode(Legacy, [START_IB] + IbPackets(ibs, withPreamble))
    ensures |cmds'| <= |cmds| + 4 * |ibs|
  {
    cmds' := cmds;
    assert [START_IB] + IbPackets(ibs[..0], withPreamble) == [START_IB];
    for i := 0 to |ibs|
      invariant Sized(ibs[..i]) && |cmds'| <= |cmds| + 4 * i
      invariant AllWellFormed(Legacy, [START_IB] + IbPackets(ibs[..i], withPreamble))
      invariant cmds' == Encode(Legacy, [START_IB] + IbPackets(ibs[..i], withPreamble))
    {
      var ib := ibs[i];
      var ws := [];
      if ib.skip || (ib.preamble && !withPreamble) {
        ws := [Type3(CP_NOP, 3)];
      }
      ws := ws + [Type3(CP_INDIRECT_BUFFER_PFE, 2), Lower32(ib.gpuaddr), ib.size / 4];
      cmds' := cmds' + ws;
      SwallowedWords(ib, withPreamble);
      EncodeSnoc(Legacy, [START_IB] + IbPackets(ibs[..i], withPreamble), IbOrNop(ib, withPreamble));
      IbPacketsSnoc(ibs, i, withPreamble);
    }
    assert ibs[..|ibs|] == ibs;
  }

  // ---------------------------------------------------------------- what the words do

  lemma OneCall(ib: Ib, withPreamble: bool)
    requires ib.size / 4 <= 0xFFFFF && ib.gpuaddr < TWO32
    ensures Ibs(Legacy, [IbOrNop(ib, withPreamble)]) == Wanted([ib], withPreamble)
  {
    var p := IbOrNop(ib, withPreamble);
    assert [p][1..] == [] && [ib][1..] == [];
    assert Ibs(Legacy, [p]) == IbOf(Legacy, p) + Ibs(Legacy, []);
  }

  lemma {:induction false} IbPacketsCall(ibs: seq<Ib>, withPreamble: bool)
    requires Sized(ibs) && forall i :: 0 <= i < |ibs| ==> ibs[i].gpuaddr < TWO32
    ensures AllWellFormed(Legacy, IbPackets(ibs, withPreamble))
    ensures Ibs(Legacy, IbPackets(ibs, withPreamble)) == Wanted(ibs, withPreamble)
    decreases |ibs|
  {
    if ibs != [] {
      var n := |ibs| - 1;
      IbPacketsCall(ibs[..n], withPreamble);
      IbsAppend(Legacy, IbPackets(ibs[..n], withPreamble), [IbOrNop(ibs[n], withPreamble)]);
      OneCall(ibs[n], withPreamble);
      WantedSnoc(ibs[..n], ibs[n], withPreamble);
      assert ibs[..n] + [ibs[n]] == ibs;
    }
  }

  /** The A3xx counterpart: exactly the wanted buffers, in order, at their 32-bit addresses. */
  lemma CommandsExecuteWantedIbs(skip: bool, withPreamble: bool, ibs: seq<Ib>, inRange: seq<bool>)
    requires |inRange| == |ibs| && forall i :: 0 <= i < |ibs| ==> VerifyIb(ibs[i], inRange[i]) && ibs[i].gpuaddr < TWO32
    ensures Sized(ibs)
    ensures AllWellFormed(Legacy, Commands(skip, withPreamble, ibs))
    ensures Decode(Legacy, Encode(Legacy, Commands(skip, withPreamble, ibs))) == Some(Commands(skip, withPreamble, ibs))
    ensures Ibs(Legacy, Commands(skip, withPreamble, ibs)) == if skip then [] else Wanted(ibs, withPreamble)
  {
    var body := if skip then [] else IbPackets(ibs, withPreamble);
    IbPacketsCall(ibs, withPreamble);
    DecodeEncode(Legacy, Commands(skip, withPreamble, ibs));
    IbsAppend(Legacy, [START_IB] + body, [END_IB]);
    IbsAppend(Legacy, [START_IB], body);
    IbsSilent(Legacy, [START_IB]);
    IbsSilent(Legacy, [END_IB]);
  }
}
