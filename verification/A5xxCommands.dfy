/** The indirect buffers of a draw object and the checks they pass before they are queued. */
module DrawObjects {
  import opened Words
  import opened Pm4

  /** skip: MEMOBJ_SKIP is set; preamble: KGSL_CMDLIST_CTXTSWITCH_PREAMBLE is set. */
  datatype Ib = Ib(gpuaddr: u64, size: u64, skip: bool, preamble: bool)

  /** inRange is the page table's range check of the buffer. */
  predicate VerifyIb(ib: Ib, inRange: bool) {
    ib.size != 0 && ib.size / 4 <= 0xFFFFF && inRange && ib.gpuaddr % 4 == 0
  }

  predicate IsWanted(ib: Ib, withPreamble: bool) { !(ib.skip || (ib.preamble && !withPreamble)) }

  /** The buffers a submission is meant to execute. */
  ghost function Wanted(ibs: seq<Ib>, withPreamble: bool): seq<IbCall> {
    if ibs == [] then []
    else (if IsWanted(ibs[0], withPreamble) then [IbCall(ibs[0].gpuaddr, ibs[0].size / 4)] else [])
         + Wanted(ibs[1..], withPreamble)
  }

  lemma {:induction false} WantedSnoc(ibs: seq<Ib>, ib: Ib, withPreamble: bool)
    ensures Wanted(ibs + [ib], withPreamble) == Wanted(ibs, withPreamble) + Wanted([ib], withPreamble)
    decreases |ibs|
  {
    if ibs == [] {
      assert ibs + [ib] == [ib];
    } else {
      assert (ibs + [ib])[1..] == ibs[1..] + [ib];
      WantedSnoc(ibs[1..], ib, withPreamble);
      Assoc(if IsWanted(ibs[0], withPreamble) then [IbCall(ibs[0].gpuaddr, ibs[0].size / 4)] else [],
            Wanted(ibs[1..], withPreamble), Wanted([ib], withPreamble));
    }
  }

  /** Field by field: a buffer is queued iff it has between 1 byte and 4 MB - 1, lies in the page table's range
      and is aligned to a dword. */
  lemma QueuedIff(ib: Ib, inRange: bool)
    ensures VerifyIb(ib, inRange) <==> 0 < ib.size < 0x40_0000 && inRange && ib.gpuaddr % 4 == 0
  {
  }

  ghost predicate Executes(ib: Ib, withPreamble: bool, c: IbCall) {
    && !ib.skip && (ib.preamble ==> withPreamble)
    && c.gpuaddr == ib.gpuaddr && c.dwords == ib.size / 4
  }

  /** Field by field: a buffer is executed iff it is not marked as skipped and is either no preamble or the
      preamble is asked for. */
  lemma {:induction false} ExecutedIff(ibs: seq<Ib>, withPreamble: bool, c: IbCall)
    ensures c in Wanted(ibs, withPreamble) <==> exists i :: 0 <= i < |ibs| && Executes(ibs[i], withPreamble, c)
    decreases |ibs|
  {
    if ibs != [] {
      var rest := ibs[1..];
      ExecutedIff(rest, withPreamble, c);
      if c in Wanted(rest, withPreamble) {
        var i :| 0 <= i < |rest| && Executes(rest[i], withPreamble, c);
        assert ibs[i + 1] == rest[i];
      }
      if i :| 0 <= i < |ibs| && Executes(ibs[i], withPreamble, c) {
        if i == 0 {
          assert c == IbCall(ibs[0].gpuaddr, ibs[0].size / 4);
        } else {
          assert rest[i - 1] == ibs[i];
        }
      }
    }
  }

  datatype DrawObj = DrawObj(isCommand: bool, ibs: seq<(Ib, bool)>, profiling: bool)

  datatype Verdict = Accepted | Einval | Eopnotsupp

  predicate Clean(o: DrawObj) { o.isCommand ==> forall i :: 0 <= i < |o.ibs| ==> VerifyIb(o.ibs[i].0, o.ibs[i].1) }

  /** Object i is the first to be refused, for this reason. */
  ghost predicate FirstBad(objs: seq<DrawObj>, a3xx: bool, i: nat, why: Verdict)
    requires i < |objs|
  {
    && (forall k :: 0 <= k < i ==> Clean(objs[k]) && !(a3xx && objs[k].profiling))
    && (if why == Einval then !Clean(objs[i]) else Clean(objs[i]) && a3xx && objs[i].profiling)
  }

  predicate NoCommands(objs: seq<DrawObj>, n: nat)
    requires n <= |objs|
  {
    forall k :: 0 <= k < n ==> !objs[k].isCommand
  }

  /** How many objects had their buffers verified when object i was refused: an object refused for its
      profiling flag has had them verified, one with a bad buffer has not. */
  function Passed(i: nat, why: Verdict): nat { if why == Eopnotsupp then i + 1 else i }

  /** Every buffer of every command object passes, and no A3xx object asks for profiling; the first
      object that does not decides the error. wake_on_touch is cleared as soon as a command object has
      passed, also when a later check refuses the list. */
  method VerifyCmdobj(objs: seq<DrawObj>, a3xx: bool, wake: bool) returns (ret: Verdict, wake': bool)
    ensures ret == Accepted <==> forall i :: 0 <= i < |objs| ==> Clean(objs[i]) && !(a3xx && objs[i].profiling)
    ensures ret != Accepted ==>
      exists i :: 0 <= i < |objs| && FirstBad(objs, a3xx, i, ret) && wake' == (wake && NoCommands(objs, Passed(i, ret)))
    ensures ret == Accepted ==> wake' == (wake && NoCommands(objs, |objs|))
  {
    wake' := wake;
    for i := 0 to |objs|
      invariant forall k :: 0 <= k < i ==> Clean(objs[k]) && !(a3xx && objs[k].profiling)
      invariant wake' == (wake && NoCommands(objs, i))
    {
      if objs[i].isCommand {
        for j := 0 to |objs[i].ibs|
          invariant forall k :: 0 <= k < j ==> VerifyIb(objs[i].ibs[k].0, objs[i].ibs[k].1)
        {
          if !VerifyIb(objs[i].ibs[j].0, objs[i].ibs[j].1) {
            assert FirstBad(objs, a3xx, i, Einval);
            return Einval, wake';
          }
        }
        wake' := false;
      }
      if a3xx && objs[i].profiling {
        assert FirstBad(objs, a3xx, i, Eopnotsupp);
        return Eopnotsupp, wake';
      }
    }
    return Accepted, wake';
  }
}

/** a5xx_ringbuffer_submitcmd: from a list of indirect buffers to the words handed to addcmds. */
module A5xxCommands {
  import opened Words
  import opened Pm4
  import opened Wrappers
  import opened DrawObjects

  const START_IB_IDENTIFIER := 0x2EADEABE
  const END_IB_IDENTIFIER := 0x2ABEDEAD
  const A5XX_RBBM_ALWAYSON_COUNTER_LO := 0x4D2
  const A5XX_COMMAND_DWORDS := 32
  const PROFILE_IB_SLOTS := 256

  const START_IB: Packet := Op(CP_NOP, [START_IB_IDENTIFIER])
  const END_IB: Packet := Op(CP_NOP, [END_IB_IDENTIFIER])
  const SRM_NONE: Packet := Op(CP_SET_RENDER_MODE, [0, 0, 0, 0, 0])
  const YIELD_RB: Packet := Op(CP_YIELD_ENABLE, [1])

  datatype Flags = Flags(skip: bool, preamble: bool, kernelProfile: bool, userProfile: bool)

  /** Where the profiling samples go, and whether the chip's upper counter half is reliable. */
  datatype Samples = Samples(wide: bool, kernelStarted: u64, kernelRetired: u64, userSubmitted: u64, userRetired: u64)

  function AlwaysOn(wide: bool, gpuaddr: u64): Packet {
    Op(CP_REG_TO_MEM, [A5XX_RBBM_ALWAYSON_COUNTER_LO + (if wide then 0x4000_0000 + 0x8_0000 else 0),
                       Lower32(gpuaddr), Upper32(gpuaddr)])
  }

  function SizeWord(size: u64): u32 { size / 4 % 0x10_0000 }

  /** An unwanted buffer's packet becomes the payload of a NOP. */
  function IbOrNop(ib: Ib, withPreamble: bool): Packet {
    var p := CallIb(ib.gpuaddr, SizeWord(ib.size));
    if IsWanted(ib, withPreamble) then p else Op(CP_NOP, EncodeOne(Modern, p))
  }

  ghost function IbPackets(ibs: seq<Ib>, withPreamble: bool): seq<Packet> {
    if ibs == [] then [] else IbPackets(ibs[..|ibs| - 1], withPreamble) + [IbOrNop(ibs[|ibs| - 1], withPreamble)]
  }

  /** The user profiling IB of a submission, when it takes one. */
  ghost function UserIb(ib: Option<u64>): seq<Packet> {
    if ib.Some? then [CallIb(ib.value, 4)] else []
  }

  ghost function Head(f: Flags, s: Samples, first: Option<u64>): seq<Packet> {
    [START_IB]
    + Opt(f.kernelProfile, AlwaysOn(s.wide, s.kernelStarted))
    + UserIb(first)
  }

  ghost function Tail(f: Flags, s: Samples, second: Option<u64>): seq<Packet> {
    [SRM_NONE, YIELD_RB]
    + Opt(f.kernelProfile, AlwaysOn(s.wide, s.kernelRetired))
    + UserIb(second)
    + [END_IB]
  }

  ghost function Body(f: Flags, ibs: seq<Ib>): seq<Packet> {
    if f.skip then [] else IbPackets(ibs, f.preamble)
  }

  /** The packets of one submission, before addcmds wraps them. */
  ghost function Commands(f: Flags, ibs: seq<Ib>, s: Samples, first: Option<u64>, second: Option<u64>): seq<Packet> {
    Head(f, s, first) + Body(f, ibs) + Tail(f, s, second)
  }

  lemma {:induction false} IbPacketsWellFormed(ibs: seq<Ib>, withPreamble: bool)
    ensures AllWellFormed(Modern, IbPackets(ibs, withPreamble))
    decreases |ibs|
  {
    if ibs != [] {
      IbPacketsWellFormed(ibs[..|ibs| - 1], withPreamble);
    }
  }

  function NextSlot(i: nat): (j: nat)
    requires i < PROFILE_IB_SLOTS
    ensures j < PROFILE_IB_SLOTS && j != i
  {
    (i + 1) % PROFILE_IB_SLOTS
  }

  ghost function SlotWords(mem: seq<u32>, k: nat): seq<u32>
    requires k < PROFILE_IB_SLOTS && |mem| == 4 * PROFILE_IB_SLOTS
  {
    mem[4 * k..4 * k + 4]
  }

  ghost predicate SameElsewhere(mem: seq<u32>, was: seq<u32>, i: nat) {
    && |mem| == |was| == 4 * PROFILE_IB_SLOTS
    && forall k :: 0 <= k < PROFILE_IB_SLOTS && k != i ==> SlotWords(mem, k) == SlotWords(was, k)
  }

  lemma SlotWritten(mem: seq<u32>, i: nat, ws: seq<u32>)
    requires i < PROFILE_IB_SLOTS && |mem| == 4 * PROFILE_IB_SLOTS && |ws| == 4
    ensures var mem' := mem[..4 * i] + ws + mem[4 * i + 4..];
      |mem'| == |mem| && SlotWords(mem', i) == ws && SameElsewhere(mem', mem, i)
  {
  }

  /** The ring's side of a submission: the slots of user profiling IBs. */
  class Ringbuffer {
    const usable: bool
    const profileAddr: u64
    var profileIndex: nat
    var profileMem: seq<u32>

    ghost predicate Valid()
      reads this
    {
      && profileIndex < PROFILE_IB_SLOTS && |profileMem| == 4 * PROFILE_IB_SLOTS
      && profileAddr + 16 * PROFILE_IB_SLOTS < TWO32 * TWO32
    }

    /** The address the GPU uses for slot k. */
    ghost function SlotAddr(k: nat): u64
      requires k < PROFILE_IB_SLOTS && profileAddr + 16 * PROFILE_IB_SLOTS < TWO32 * TWO32
    {
      profileAddr + 16 * k
    }

    /** Fills the current slot with an IB that samples the counter into target; the other slots keep
        their contents. */
    method TakeSlot(wide: bool, target: u64) returns (ib: Option<u64>)
      requires Valid()
      modifies this
      ensures Valid()
      ensures ib == if usable then Some(SlotAddr(old(profileIndex))) else None
      ensures profileIndex == if usable then NextSlot(old(profileIndex)) else old(profileIndex)
      ensures usable ==> SlotWords(profileMem, old(profileIndex)) == EncodeOne(Modern, AlwaysOn(wide, target))
      ensures SameElsewhere(profileMem, old(profileMem), old(profileIndex))
    {
      if !usable {
        return None;
      }
      var p := AlwaysOn(wide, target);
      SlotWritten(profileMem, profileIndex, EncodeOne(Modern, p));
      profileMem := profileMem[..4 * profileIndex] + EncodeOne(Modern, p) + profileMem[4 * profileIndex + 4..];
      ib := Some(profileAddr + 16 * profileIndex);
      profileIndex := NextSlot(profileIndex);
    }

    /** Both profiling IBs of a submission live in different slots, so the sample taken at retirement
        does not overwrite the one taken at submission. */
    method BuildCommands(f: Flags, ibs: seq<Ib>, s: Samples)
      returns (cmds: seq<u32>, first: Option<u64>, second: Option<u64>)
      requires Valid()
      modifies this
      ensures Valid()
      ensures |cmds| <= A5XX_COMMAND_DWORDS + 5 * (if f.skip then 0 else |ibs|)
      ensures AllWellFormed(Modern, Commands(f, ibs, s, first, second))
      ensures cmds == Encode(Modern, Commands(f, ibs, s, first, second))
      ensures first.Some? == second.Some? == (f.userProfile && usable)
      ensures first.Some? ==>
        && first.value == SlotAddr(old(profileIndex)) && second.value == SlotAddr(NextSlot(old(profileIndex)))
        && SlotWords(profileMem, old(profileIndex)) == EncodeOne(Modern, AlwaysOn(s.wide, s.userSubmitted))
        && SlotWords(profileMem, NextSlot(old(profileIndex))) == EncodeOne(Modern, AlwaysOn(s.wide, s.userRetired))
    {
      first, second := None, None;
      if f.userProfile {
        first := TakeSlot(s.wide, s.userSubmitted);
        second := TakeSlot(s.wide, s.userRetired);
      }
      cmds := WriteCommands(f, ibs, s, first, second);
    }
  }

  /** The filled prefix of a buffer of 32 + 5 * numibs dwords. */
  method WriteCommands(f: Flags, ibs: seq<Ib>, s: Samples, first: Option<u64>, second: Option<u64>)
    returns (cmds: seq<u32>)
    ensures |cmds| <= A5XX_COMMAND_DWORDS + 5 * (if f.skip then 0 else |ibs|)
    ensures AllWellFormed(Modern, Commands(f, ibs, s, first, second))
    ensures cmds == Encode(Modern, Commands(f, ibs, s, first, second))
  {
    cmds := PutHead(f, s, first);
    ghost var ps := Head(f, s, first);
    if !f.skip {
      cmds := PutIbs(cmds, ibs, f.preamble, ps);
    }
    assert f.skip ==> ps + Body(f, ibs) == ps;
    cmds := PutTail(cmds, f, s, second, ps + Body(f, ibs));
  }

  method PutHead(f: Flags, s: Samples, first: Option<u64>) returns (cmds: seq<u32>)
    ensures AllWellFormed(Modern, Head(f, s, first)) && cmds == Encode(Modern, Head(f, s, first))
    ensures |cmds| <= 10
  {
    ghost var ps: seq<Packet> := [];
    assert [] + ps == [];
    cmds := Emit(Modern, [], START_IB, [], ps);
    ps := ps + [START_IB];
    if f.kernelProfile {
      cmds := Emit(Modern, cmds, AlwaysOn(s.wide, s.kernelStarted), [], ps);
      ps := ps + [AlwaysOn(s.wide, s.kernelStarted)];
    }
    if first.Some? {
      cmds := Emit(Modern, cmds, CallIb(first.value, 4), [], ps);
      ps := ps + [CallIb(first.value, 4)];
    }
    assert ps == Head(f, s, first) && [] + ps == ps;
  }

  method PutTail(cmds: seq<u32>, f: Flags, s: Samples, second: Option<u64>, ghost ps: seq<Packet>)
    returns (cmds': seq<u32>)
    requires AllWellFormed(Modern, ps) && cmds == Encode(Modern, ps)
    ensures AllWellFormed(Modern, ps + Tail(f, s, second)) && cmds' == Encode(Modern, ps + Tail(f, s, second))
    ensures |cmds'| <= |cmds| + 18
  {
    cmds' := PutYield(cmds, ps);
    ghost var qs := [SRM_NONE, YIELD_RB];
    if f.kernelProfile {
      cmds' := Emit(Modern, cmds', AlwaysOn(s.wide, s.kernelRetired), ps, qs);
      qs := qs + [AlwaysOn(s.wide, s.kernelRetired)];
    }
    cmds' := PutEnd(cmds', second, ps, qs);
    TailSplits(f, s, second, qs);
  }

  method PutYield(cmds: seq<u32>, ghost ps: seq<Packet>) returns (cmds': seq<u32>)
    requires AllWellFormed(Modern, ps) && cmds == Encode(Modern, ps)
    ensures AllWellFormed(Modern, ps + [SRM_NONE, YIELD_RB]) && cmds' == Encode(Modern, ps + [SRM_NONE, YIELD_RB])
    ensures |cmds'| == |cmds| + 8
  {
    ghost var none: seq<Packet> := [];
    assert ps + none == ps;
    cmds' := Emit(Modern, cmds, SRM_NONE, ps, none);
    cmds' := Emit(Modern, cmds', YIELD_RB, ps, none + [SRM_NONE]);
    assert none + [SRM_NONE] + [YIELD_RB] == [SRM_NONE, YIELD_RB];
  }

  lemma TailSplits(f: Flags, s: Samples, second: Option<u64>, qs: seq<Packet>)
    requires qs == [SRM_NONE, YIELD_RB]
                   + Opt(f.kernelProfile, AlwaysOn(s.wide, s.kernelRetired))
    ensures qs + (UserIb(second) + [END_IB]) == Tail(f, s, second)
  {
    Assoc(qs, UserIb(second), [END_IB]);
  }

  method PutEnd(cmds: seq<u32>, second: Option<u64>, ghost ps: seq<Packet>, ghost qs: seq<Packet>)
    returns (cmds': seq<u32>)
    requires AllWellFormed(Modern, ps + qs) && cmds == Encode(Modern, ps + qs)
    ensures var ts := qs + (UserIb(second) + [END_IB]);
      AllWellFormed(Modern, ps + ts) && cmds' == Encode(Modern, ps + ts)
    ensures |cmds'| <= |cmds| + 6
  {
    cmds' := cmds;
    ghost var ts := qs;
    if second.Some? {
      cmds' := Emit(Modern, cmds', CallIb(second.value, 4), ps, ts);
      ts := ts + [CallIb(second.value, 4)];
    }
    cmds' := Emit(Modern, cmds', END_IB, ps, ts);
    assert ts + [END_IB] == qs + (UserIb(second) + [END_IB]);
  }

  /** The loop over the list: a NOP header that swallows the packet goes in front of an unwanted one. */
  method PutIbs(cmds: seq<u32>, ibs: seq<Ib>, withPreamble: bool, ghost ps: seq<Packet>) returns (cmds': seq<u32>)
    requires AllWellFormed(Modern, ps) && cmds == Encode(Modern, ps)
    ensures AllWellFormed(Modern, ps + IbPackets(ibs, withPreamble))
    ensures cmds' == Encode(Modern, ps + IbPackets(ibs, withPreamble))
    ensures |cmds'| <= |cmds| + 5 * |ibs|
  {
    cmds' := cmds;
    assert ps + IbPackets(ibs[..0], withPreamble) == ps;
    for i := 0 to |ibs|
      invariant |cmds'| <= |cmds| + 5 * i
      invariant AllWellFormed(Modern, ps + IbPackets(ibs[..i], withPreamble))
      invariant cmds' == Encode(Modern, ps + IbPackets(ibs[..i], withPreamble))
    {
      var ib := ibs[i];
      ghost var qs := ps + IbPackets(ibs[..i], withPreamble);
      ghost var p := IbOrNop(ib, withPreamble);
      var ws := [];
      if ib.skip || (ib.preamble && !withPreamble) {
        ws := [Type7(CP_NOP, 4)];
      }
      ws := ws + [Type7(CP_INDIRECT_BUFFER_PFE, 3), Lower32(ib.gpuaddr), Upper32(ib.gpuaddr), SizeWord(ib.size)];
      cmds' := cmds' + ws;
      SwallowedWords(ib, withPreamble);
      EncodeSnoc(Modern, qs, p);
      IbPacketsSnoc(ps, ibs, i, withPreamble);
    }
    assert ibs[..|ibs|] == ibs;
  }

  /** A NOP header of count 4 in front of the packet's four words makes them its payload. */
  lemma SwallowedWords(ib: Ib, withPreamble: bool)
    ensures EncodeOne(Modern, IbOrNop(ib, withPreamble))
      == (if IsWanted(ib, withPreamble) then [] else [Type7(CP_NOP, 4)])
         + [Type7(CP_INDIRECT_BUFFER_PFE, 3), Lower32(ib.gpuaddr), Upper32(ib.gpuaddr), SizeWord(ib.size)]
  {
  }

  lemma IbPacketsSnoc(ps: seq<Packet>, ibs: seq<Ib>, i: nat, withPreamble: bool)
    requires i < |ibs|
    ensures ps + IbPackets(ibs[..i + 1], withPreamble)
      == ps + IbPackets(ibs[..i], withPreamble) + [IbOrNop(ibs[i], withPreamble)]
  {
    assert ibs[..i + 1][..i] == ibs[..i];
  }

  /** What the GPU finds in a profiling slot. */
  lemma AloneDecodes(p: Packet)
    requires WellFormed(Modern, p)
    ensures Decode(Modern, EncodeOne(Modern, p)) == Some([p])
  {
    var none: seq<Packet> := [];
    EncodeSnoc(Modern, none, p);
    assert none + [p] == [p];
    assert Encode(Modern, none) + EncodeOne(Modern, p) == EncodeOne(Modern, p);
    DecodeEncode(Modern, [p]);
  }

  // ---------------------------------------------------------------- what the words do

  lemma {:induction false} IbPacketsCall(ibs: seq<Ib>, withPreamble: bool)
    requires forall i :: 0 <= i < |ibs| ==> ibs[i].size / 4 <= 0xFFFFF
    ensures Ibs(Modern, IbPackets(ibs, withPreamble)) == Wanted(ibs, withPreamble)
    decreases |ibs|
  {
    if ibs != [] {
      var n := |ibs| - 1;
      IbPacketsCall(ibs[..n], withPreamble);
      IbsAppend(Modern, IbPackets(ibs[..n], withPreamble), [IbOrNop(ibs[n], withPreamble)]);
      OneCall(ibs[n], withPreamble);
      WantedSnoc(ibs[..n], ibs[n], withPreamble);
      assert ibs[..n] + [ibs[n]] == ibs;
    }
  }

  lemma OneCall(ib: Ib, withPreamble: bool)
    requires ib.size / 4 <= 0xFFFFF
    ensures Ibs(Modern, [IbOrNop(ib, withPreamble)]) == Wanted([ib], withPreamble)
  {
    JoinSplit(ib.gpuaddr);
    var p := IbOrNop(ib, withPreamble);
    assert [p][1..] == [] && [ib][1..] == [];
    assert Ibs(Modern, [p]) == IbOf(Modern, p) + Ibs(Modern, []);
  }

  ghost function ProfileCall(ib: Option<u64>): seq<IbCall> {
    if ib.Some? then [IbCall(ib.value, 4)] else []
  }

  lemma UserIbCalls(ib: Option<u64>)
    ensures Ibs(Modern, UserIb(ib)) == ProfileCall(ib)
  {
    if ib.Some? {
      JoinSplit(ib.value);
      assert UserIb(ib)[1..] == [];
      assert Ibs(Modern, UserIb(ib)) == IbOf(Modern, UserIb(ib)[0]) + Ibs(Modern, []);
    }
  }

  lemma HeadCalls(f: Flags, s: Samples, first: Option<u64>)
    ensures Ibs(Modern, Head(f, s, first)) == ProfileCall(first)
  {
    var a := [START_IB]
    + Opt(f.kernelProfile, AlwaysOn(s.wide, s.kernelStarted));
    IbsAppend(Modern, a, UserIb(first));
    IbsSilent(Modern, a);
    UserIbCalls(first);
  }

  lemma TailCalls(f: Flags, s: Samples, second: Option<u64>)
    ensures Ibs(Modern, Tail(f, s, second)) == ProfileCall(second)
  {
    var a := [SRM_NONE, YIELD_RB]
    + Opt(f.kernelProfile, AlwaysOn(s.wide, s.kernelRetired));
    var d := [END_IB];
    IbsAppend(Modern, a + UserIb(second), d);
    IbsAppend(Modern, a, UserIb(second));
    assert forall p :: p in a ==> IbOf(Modern, p) == [];
    IbsSilent(Modern, a);
    IbsSilent(Modern, d);
    UserIbCalls(second);
  }

  /** For every list and flag set: the words parse back into the packets, and executing them calls
      exactly the wanted buffers, in order, each with its full address and its exact dword count,
      between the two profiling samples; a swallowed buffer's packet is the payload of a NOP. */
  lemma CommandsExecuteWantedIbs(f: Flags, ibs: seq<Ib>, s: Samples, first: Option<u64>, second: Option<u64>,
                                 inRange: seq<bool>)
    requires |inRange| == |ibs| && forall i :: 0 <= i < |ibs| ==> VerifyIb(ibs[i], inRange[i])
    ensures AllWellFormed(Modern, Commands(f, ibs, s, first, second))
    ensures Decode(Modern, Encode(Modern, Commands(f, ibs, s, first, second)))
      == Some(Commands(f, ibs, s, first, second))
    ensures Ibs(Modern, Commands(f, ibs, s, first, second))
      == ProfileCall(first) + (if f.skip then [] else Wanted(ibs, f.preamble)) + ProfileCall(second)
  {
    CommandsWellFormed(f, ibs, s, first, second);
    DecodeEncode(Modern, Commands(f, ibs, s, first, second));
    IbsAppend(Modern, Head(f, s, first) + Body(f, ibs), Tail(f, s, second));
    IbsAppend(Modern, Head(f, s, first), Body(f, ibs));
    HeadCalls(f, s, first);
    TailCalls(f, s, second);
    IbPacketsCall(ibs, f.preamble);
  }

  lemma CommandsWellFormed(f: Flags, ibs: seq<Ib>, s: Samples, first: Option<u64>, second: Option<u64>)
    ensures AllWellFormed(Modern, Commands(f, ibs, s, first, second))
  {
    IbPacketsWellFormed(ibs, f.preamble);
    forall p | p in Commands(f, ibs, s, first, second) ensures WellFormed(Modern, p) {
      assert p in Head(f, s, first) || p in Body(f, ibs) || p in Tail(f, s, second);
    }
  }

  // ---------------------------------------------------------------- profiling samples

  /** A register the CP copies to memory; wide: both halves of a 64-bit register. */
  datatype Sample = Sample(reg: nat, wide: bool, addr: u64)

  function SampleOf(p: Packet): seq<Sample> {
    if p.Op? && p.op == CP_REG_TO_MEM && |p.payload| == 3
    then [Sample(p.payload[0] % 0x4_0000, p.payload[0] >= 0x4000_0000, Join(p.payload[1], p.payload[2]))] else []
  }

  ghost function SamplesOf(ps: seq<Packet>): seq<Sample> {
    if ps == [] then [] else SampleOf(ps[0]) + SamplesOf(ps[1..])
  }

  lemma {:induction false} SamplesAppend(ps: seq<Packet>, qs: seq<Packet>)
    ensures SamplesOf(ps + qs) == SamplesOf(ps) + SamplesOf(qs)
    decreases |ps|
  {
    if ps == [] {
      assert ps + qs == qs;
    } else {
      assert (ps + qs)[1..] == ps[1..] + qs;
      SamplesAppend(ps[1..], qs);
    }
  }

  lemma {:induction false} NoSamples(ps: seq<Packet>)
    requires forall p :: p in ps ==> SampleOf(p) == []
    ensures SamplesOf(ps) == []
    decreases |ps|
  {
    if ps != [] {
      NoSamples(ps[1..]);
    }
  }

  /** A profiling packet copies the always-on counter, both halves where the upper one is reliable, to its
      target. */
  lemma AlwaysOnSamples(wide: bool, target: u64)
    ensures SampleOf(AlwaysOn(wide, target)) == [Sample(0x4D2, wide, target)]
  {
    JoinSplit(target);
  }

  lemma OptSample(b: bool, wide: bool, target: u64)
    ensures SamplesOf(Opt(b, AlwaysOn(wide, target))) == if b then [Sample(0x4D2, wide, target)] else []
  {
    if b {
      var p := AlwaysOn(wide, target);
      AlwaysOnSamples(wide, target);
      assert [p][1..] == [];
      assert SamplesOf([p]) == SampleOf(p) + SamplesOf([p][1..]);
    }
  }

  lemma {:induction false} IbPacketsTakeNoSamples(ibs: seq<Ib>, withPreamble: bool)
    ensures SamplesOf(IbPackets(ibs, withPreamble)) == []
    decreases |ibs|
  {
    if ibs != [] {
      var n := |ibs| - 1;
      IbPacketsTakeNoSamples(ibs[..n], withPreamble);
      SamplesAppend(IbPackets(ibs[..n], withPreamble), [IbOrNop(ibs[n], withPreamble)]);
      NoSamples([IbOrNop(ibs[n], withPreamble)]);
    }
  }

  /** A profiled submission samples the counter into its start cell before its buffers and into its retire
      cell behind them. */
  lemma CommandsSample(f: Flags, ibs: seq<Ib>, s: Samples, first: Option<u64>, second: Option<u64>)
    ensures SamplesOf(Head(f, s, first)) == if f.kernelProfile then [Sample(0x4D2, s.wide, s.kernelStarted)] else []
    ensures SamplesOf(Body(f, ibs)) == []
    ensures SamplesOf(Tail(f, s, second)) == if f.kernelProfile then [Sample(0x4D2, s.wide, s.kernelRetired)] else []
  {
    IbPacketsTakeNoSamples(ibs, f.preamble);
    HeadSamples(f, s, first);
    TailSamples(f, s, second);
  }

  lemma HeadSamples(f: Flags, s: Samples, first: Option<u64>)
    ensures SamplesOf(Head(f, s, first)) == if f.kernelProfile then [Sample(0x4D2, s.wide, s.kernelStarted)] else []
  {
    var p := Opt(f.kernelProfile, AlwaysOn(s.wide, s.kernelStarted));
    SamplesAppend([START_IB] + p, UserIb(first));
    SamplesAppend([START_IB], p);
    NoSamples([START_IB]);
    NoSamples(UserIb(first));
    OptSample(f.kernelProfile, s.wide, s.kernelStarted);
  }

  lemma TailSamples(f: Flags, s: Samples, second: Option<u64>)
    ensures SamplesOf(Tail(f, s, second)) == if f.kernelProfile then [Sample(0x4D2, s.wide, s.kernelRetired)] else []
  {
    NoSamples([SRM_NONE, YIELD_RB]);
    NoSamples(UserIb(second));
    NoSamples([END_IB]);
    OptSample(f.kernelProfile, s.wide, s.kernelRetired);
    SamplesOfFour([SRM_NONE, YIELD_RB], Opt(f.kernelProfile, AlwaysOn(s.wide, s.kernelRetired)), UserIb(second),
                  [END_IB]);
  }

  lemma SamplesOfFour(a: seq<Packet>, b: seq<Packet>, c: seq<Packet>, d: seq<Packet>)
    requires SamplesOf(a) == SamplesOf(c) == SamplesOf(d) == []
    ensures SamplesOf(a + b + c + d) == SamplesOf(b)
  {
    SamplesAppend(a + b + c, d);
    SamplesAppend(a + b, c);
    SamplesAppend(a, b);
  }

  /** A submission's commands start and end with their markers, and behind the buffers the render mode is
      cleared before yields are enabled. */
  lemma CommandMarkers(f: Flags, ibs: seq<Ib>, s: Samples, first: Option<u64>, second: Option<u64>)
    ensures var ps := Commands(f, ibs, s, first, second);
      |ps| >= 2 && ps[0] == Op(0x10, [0x2EAD_EABE]) && ps[|ps| - 1] == Op(0x10, [0x2ABE_DEAD])
    ensures Tail(f, s, second)[..2] == [Op(0x6C, [0, 0, 0, 0, 0]), Op(0x1C, [1])]
  {
    assert Head(f, s, first)[0] == START_IB;
    assert Tail(f, s, second)[|Tail(f, s, second)| - 1] == END_IB;
  }

  /** The dword count is exact for every size the driver queues, and for a size it would not queue it
      is not: without the check, a buffer of 0x10_0000 dwords would be submitted with a count of 0. */
  lemma CountNeedsTheCheck(size: u64)
    ensures SizeWord(size) == size / 4 <==> size / 4 <= 0xFFFFF
    ensures SizeWord(4 * 0x10_0000) == 0
  {
  }
}
