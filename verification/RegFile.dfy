/** _load_regfile: the walk over the register file. */
module RegFile {
  import opened Words
  import opened Wrappers
  import opened GpmuImages
  import opened WordPairs
  import opened Tilings

  /** The driver uses the LM sequence only; of any other block it knows nothing but the length, the
      type and that the word where a sequence id would stand is not the LM's. */
  datatype Block = Lm(image: Image) | Foreign(body: seq<u32>)

  predicate BlockOk(b: Block, major: u32) {
    match b
    case Lm(im) => ImageOk(im, GPMU_SEQUENCE_ID, major) && im.fields[0].val == LM_SEQUENCE_ID
    case Foreign(body) => 4 <= |body| < TWO32 - 1 && body[2] != LM_SEQUENCE_ID
  }

  function BlockWords(b: Block, major: u32): seq<u32>
    requires BlockOk(b, major)
  {
    match b
    case Lm(im) => ImageWords(im, GPMU_SEQUENCE_ID)
    case Foreign(body) => [|body| + 1, GPMU_SEQUENCE_ID] + body
  }

  /** ws starts with a block the walk does not refuse. */
  predicate Starts(ws: seq<u32>, major: u32) {
    && ws != [] && 5 <= ws[0] < |ws| && ws[1] == GPMU_SEQUENCE_ID
    && (ws[4] == LM_SEQUENCE_ID ==> Accepts(ws, GPMU_SEQUENCE_ID, major))
  }

  function BlockAt(ws: seq<u32>, major: u32): Block
    requires Starts(ws, major)
  {
    if ws[4] == LM_SEQUENCE_ID then Lm(ImageIn(ws, GPMU_SEQUENCE_ID, major)) else Foreign(ws[2..ws[0] + 1])
  }

  function Next(ws: seq<u32>, major: u32): Step<Block> {
    if Starts(ws, major) then Take(BlockAt(ws, major), 1 + ws[0] as int) else Stop
  }

  /** The register file as a list of blocks. */
  ghost function Blocks(major: u32): Codec<Block> {
    Codec(ws => Next(ws, major), b => if BlockOk(b, major) then BlockWords(b, major) else [], b => BlockOk(b, major))
  }

  lemma StartsAreBlocks(ws: seq<u32>, major: u32)
    requires Starts(ws, major)
    ensures BlockOk(BlockAt(ws, major), major) && BlockWords(BlockAt(ws, major), major) == ws[..ws[0] + 1]
  {
    if ws[4] == LM_SEQUENCE_ID {
      AcceptedIsAnImage(ws, GPMU_SEQUENCE_ID, major);
      assert Fields(ws[3..3 + ws[2]])[0] == Entry(ws[3], ws[4]);
    }
  }

  lemma BlocksStart(b: Block, major: u32, rest: seq<u32>)
    requires BlockOk(b, major)
    ensures Next(BlockWords(b, major) + rest, major) == Take(b, |BlockWords(b, major)|)
  {
    var ws := BlockWords(b, major) + rest;
    if b.Lm? {
      ImageIsAccepted(b.image, GPMU_SEQUENCE_ID, major, rest);
      assert ws[4] == Flat(b.image.fields)[1];
    } else {
      assert ws[2..ws[0] + 1] == b.body;
    }
  }

  lemma BlocksLawful(major: u32)
    ensures Sound(Blocks(major)) && Complete(Blocks(major))
  {
    forall ws | Blocks(major).step(ws).Take? ensures TakesPrefix(Blocks(major), ws) {
      StartsAreBlocks(ws, major);
    }
    forall b, rest | Blocks(major).ok(b) ensures ReadsBack(Blocks(major), b, rest) {
      BlocksStart(b, major, rest);
    }
  }

  /** Word by word: which words start a block the walk does not refuse. An LM block, recognised by its fifth
      word, must have a header of 2 to 10 words in pairs that leaves room for an opcode, start it with the
      sequence id 5, and name no major version that is neither 0 nor recent enough. */
  lemma StartsInWords(ws: seq<u32>, major: u32)
    requires |ws| >= 6
    ensures Starts(ws, major) <==>
      && 5 <= ws[0] < |ws| && ws[1] == 3
      && (ws[4] == 1 ==>
            && 2 <= ws[2] <= 10 && ws[2] % 2 == 0 && ws[2] + 2 < ws[0] && ws[3] == 5
            && forall k :: 1 <= k < ws[2] / 2 ==> !(ws[3 + 2 * k] == 1 && 0 < ws[4 + 2 * k] < major))
  {
    if 5 <= ws[0] < |ws| && ws[1] == 3 && ws[4] == 1 && 2 <= ws[2] <= 10 && ws[2] % 2 == 0 && ws[2] + 2 < ws[0] {
      LmFields(ws, major);
    }
  }

  lemma LmFields(ws: seq<u32>, major: u32)
    requires |ws| >= 6 && 5 <= ws[0] < |ws| && ws[1] == 3 && ws[4] == 1
    requires 2 <= ws[2] <= 10 && ws[2] % 2 == 0 && ws[2] + 2 < ws[0]
    ensures HeaderOk(ws[2..], ws[0] - 2, 3, major) <==>
      ws[3] == 5 && forall k :: 1 <= k < ws[2] / 2 ==> !(ws[3 + 2 * k] == 1 && 0 < ws[4 + 2 * k] < major)
  {
    var h, n: nat := ws[2..], ws[2];
    var fs := Fields(h[1..1 + n]);
    forall k | 0 <= k < n / 2 ensures fs[k] == Entry(ws[3 + 2 * k], ws[4 + 2 * k]) {
      FieldAt(h, n, k);
    }
    assert |fs| == n / 2 && FirstChecked(3) == 1;
    if HeaderOk(h, ws[0] - 2, 3, major) {
      forall k | 1 <= k < n / 2 ensures !(ws[3 + 2 * k] == 1 && 0 < ws[4 + 2 * k] < major) {
        assert !Outdated(fs[k], major);
      }
    }
    if forall k :: 1 <= k < n / 2 ==> !(ws[3 + 2 * k] == 1 && 0 < ws[4 + 2 * k] < major) {
      forall k | 1 <= k < |fs| ensures !Outdated(fs[k], major) {
        assert fs[k] == Entry(ws[3 + 2 * k], ws[4 + 2 * k]);
      }
    }
  }

  /** The opcodes of the last LM block, or what was there before. */
  ghost function LastLm(bs: seq<Block>, lm: Option<seq<u32>>): Option<seq<u32>> {
    if bs == [] then lm
    else if bs[|bs| - 1].Lm? then Some(bs[|bs| - 1].image.body)
    else LastLm(bs[..|bs| - 1], lm)
  }

  /** The file is kept and used. */
  ghost predicate Kept(c: Codec<Block>, fw: seq<u32>, lm: Option<seq<u32>>)
    requires Sound(c)
  {
    fw != [] && Walk(c, fw).rest == [] && LastLm(Walk(c, fw).items, lm).Some?
  }

  ghost predicate StepsLike(c: Codec<Block>, ws: seq<u32>, major: u32) { c.step(ws) == Next(ws, major) }

  /** The branch for an LM block. Once its header is accepted, the length check that follows cannot fail,
      and what is saved is exactly the opcode part. */
  method ReadLm(block: seq<u32>, major: u32) returns (ops: Option<seq<u32>>)
    requires |block| >= 6 && 5 <= block[0] < |block| && block[1] == GPMU_SEQUENCE_ID && block[4] == LM_SEQUENCE_ID
    ensures ops.Some? <==> Starts(block, major)
    ensures ops.Some? ==> ops.value == BlockAt(block, major).image.body
    ensures ops.Some? ==> 3 + block[2] <= block[0] && ops.value == block[3 + block[2]..block[0] + 1]
  {
    var size: nat := block[0];
    var ok := ReadBlockHeader(block[2..], size - 2, GPMU_SEQUENCE_ID, major);
    if !ok {
      return None;
    }
    if block[2] > size - 2 {
      assert false;
    }
    var from: nat, n: nat := block[2] + 3, size - block[2] - 2;
    return Some(block[from..from + n]);
  }

  /** The checks on the block that starts at block[0]: what is taken of it and how far to go on. */
  method ReadBlock(block: seq<u32>, major: u32, lm: Option<seq<u32>>) returns (n: nat, lm': Option<seq<u32>>)
    requires block != []
    ensures n == 0 <==> !Starts(block, major)
    ensures n == 0 ==> lm' == lm
    ensures n > 0 ==> Next(block, major) == Take(BlockAt(block, major), n)
    ensures n > 0 ==> lm' == if BlockAt(block, major).Lm? then Some(BlockAt(block, major).image.body) else lm
  {
    var size: nat := block[0];
    lm' := lm;
    if size >= |block| || size < 5 {
      return 0, lm;
    }
    if block[1] != GPMU_SEQUENCE_ID {
      return 0, lm;
    }
    if block[4] == LM_SEQUENCE_ID {
      var ops := ReadLm(block, major);
      if ops.None? {
        return 0, lm;
      }
      lm' := ops;
    }
    return size + 1, lm';
  }

  /** The loop over the file; lm' is the device's LM sequence behind it, also when a block is refused. */
  method WalkFile(fw: seq<u32>, major: u32, lm: Option<seq<u32>>, ghost c: Codec<Block>)
    returns (kept: bool, lm': Option<seq<u32>>)
    requires |fw| < TWO32
    requires Sound(c) && forall ws :: StepsLike(c, ws, major)
    ensures kept <==> Kept(c, fw, lm)
    ensures lm' == LastLm(Walk(c, fw).items, lm)
  {
    assert StepsLike(c, fw, major);
    if |fw| < 6 {
      return false, lm;
    }
    ghost var items: seq<Block> := [];
    var total := 0;
    lm' := lm;
    OnwardStart(c, fw);
    while total < |fw|
      invariant 0 <= total <= |fw| && Onward(c, fw, total, items) == Walk(c, fw)
      invariant lm' == LastLm(items, lm)
    {
      assert StepsLike(c, fw[total..], major);
      var n, next := ReadBlock(fw[total..], major, lm');
      if n == 0 {
        OnwardStop(c, fw, total, items);
        return false, lm';
      }
      ghost var b := BlockAt(fw[total..], major);
      OnwardNext(c, fw, total, items, b, n);
      LastLmSnoc(items, b, lm);
      items, lm', total := items + [b], next, total + n;
    }
    OnwardEnd(c, fw, items);
    return lm'.Some?, lm';
  }

  lemma LastLmSnoc(items: seq<Block>, b: Block, lm: Option<seq<u32>>)
    ensures LastLm(items + [b], lm) == if b.Lm? then Some(b.image.body) else LastLm(items, lm)
  {
    assert (items + [b])[..|items|] == items;
  }

  /** The device's pointer to the LM sequence, as the words it points to. */
  class Loader {
    var lm: Option<seq<u32>>

    constructor ()
      ensures lm == None
    {
      lm := None;
    }

    /** The file is released when the walk stops early or no LM sequence is known; the blocks before the
        one refused have then already been taken. */
    method LoadRegfile(fw: seq<u32>, major: u32) returns (kept: bool)
      requires |fw| < TWO32
      modifies this
      ensures Sound(Blocks(major))
      ensures kept <==> Kept(Blocks(major), fw, old(lm))
      ensures lm == LastLm(Walk(Blocks(major), fw).items, old(lm))
    {
      BlocksLawful(major);
      kept, lm := WalkFile(fw, major, lm, Blocks(major));
    }
  }

  ghost predicate HasLm(bs: seq<Block>) { exists i :: 0 <= i < |bs| && bs[i].Lm? }

  ghost predicate IsFileOf(fw: seq<u32>, major: u32, bs: seq<Block>) {
    bs != [] && AllOk(Blocks(major), bs) && fw == WriteAll(Blocks(major), bs)
  }

  /** A file is kept exactly when it is a non-empty list of well-formed blocks and an LM sequence is
      among them or known from before. */
  lemma KeptFiles(fw: seq<u32>, major: u32, lm: Option<seq<u32>>)
    ensures Sound(Blocks(major))
    ensures Kept(Blocks(major), fw, lm) <==> exists bs :: IsFileOf(fw, major, bs) && (lm.Some? || HasLm(bs))
  {
    var c := Blocks(major);
    BlocksLawful(major);
    var w := Walk(c, fw);
    WalkSplits(c, fw);
    KnownLm(w.items, lm);
    if Kept(Blocks(major), fw, lm) {
      assert WriteAll(c, w.items) + w.rest == WriteAll(c, w.items);
      assert IsFileOf(fw, major, w.items);
    }
    if bs :| IsFileOf(fw, major, bs) && (lm.Some? || HasLm(bs)) {
      WalkReadsBack(c, bs);
    }
  }

  lemma {:induction false} KnownLm(bs: seq<Block>, lm: Option<seq<u32>>)
    ensures LastLm(bs, lm).Some? <==> lm.Some? || HasLm(bs)
    decreases |bs|
  {
    if bs != [] {
      var n := |bs| - 1;
      KnownLm(bs[..n], lm);
      assert HasLm(bs) <==> bs[n].Lm? || HasLm(bs[..n]) by {
        if i :| 0 <= i < n && bs[i].Lm? {
          assert bs[..n][i].Lm?;
        }
      }
    }
  }

  /** fw starts with these well-formed blocks. */
  ghost predicate StartsWith(fw: seq<u32>, major: u32, bs: seq<Block>, rest: seq<u32>) {
    AllOk(Blocks(major), bs) && fw == WriteAll(Blocks(major), bs) + rest
  }

  /** The file is released, yet the device's sequence lies in it. */
  ghost predicate Dangles(c: Codec<Block>, fw: seq<u32>, lm: Option<seq<u32>>)
    requires Sound(c)
  {
    HasLm(Walk(c, fw).items) && !Kept(c, fw, lm)
  }

  /** Exactly when a load leaves the device with a sequence of a released file, whatever sequence it had
      before: well-formed blocks with an LM block among them stand at the front of the file, and the file
      is not a list of well-formed blocks as a whole. */
  lemma DanglingIff(fw: seq<u32>, major: u32, lm: Option<seq<u32>>)
    ensures Sound(Blocks(major))
    ensures Dangles(Blocks(major), fw, lm) <==>
      && (exists bs, rest :: StartsWith(fw, major, bs, rest) && HasLm(bs))
      && !exists bs :: IsFileOf(fw, major, bs)
  {
    var c := Blocks(major);
    BlocksLawful(major);
    var w := Walk(c, fw);
    WalkSplits(c, fw);
    KeptFiles(fw, major, lm);
    KnownLm(w.items, lm);
    if HasLm(w.items) {
      assert StartsWith(fw, major, w.items, w.rest);
    }
    if bs: seq<Block>, rest :| StartsWith(fw, major, bs, rest) && HasLm(bs) {
      WalkPassesItems(c, bs, rest);
      var i :| 0 <= i < |bs| && bs[i].Lm?;
      assert w.items[i] == bs[i];
    }
    if HasLm(w.items) && !Kept(c, fw, lm) {
      forall bs | IsFileOf(fw, major, bs) ensures false {
        WalkReadsBack(c, bs);
      }
    }
  }

  /** What the device then points at are the opcodes of the last LM block walked over. */
  lemma {:induction false} DanglingSequence(bs: seq<Block>, lm: Option<seq<u32>>)
    requires HasLm(bs)
    ensures LastLm(bs, lm) == LastLm(bs, None) && LastLm(bs, None).Some?
    decreases |bs|
  {
    var n := |bs| - 1;
    if !bs[n].Lm? {
      var i :| 0 <= i < |bs| && bs[i].Lm?;
      assert bs[..n][i].Lm?;
      DanglingSequence(bs[..n], lm);
    }
  }

  /** Such a file: an LM block with the single opcode "delay 0", and a stray word behind it. */
  const REFUSED: seq<u32> := [6, GPMU_SEQUENCE_ID, 2, HEADER_SEQUENCE, LM_SEQUENCE_ID, 3, 0, 0]

  lemma RefusedFileLeavesItsSequence(major: u32)
    ensures Sound(Blocks(major))
    ensures Dangles(Blocks(major), REFUSED, None) && LastLm(Walk(Blocks(major), REFUSED).items, None) == Some([3, 0])
  {
    var c := Blocks(major);
    BlocksLawful(major);
    var b := Lm(Image([Entry(HEADER_SEQUENCE, LM_SEQUENCE_ID)], [3, 0]));
    var junk := [0];
    assert BlockWords(b, major) == REFUSED[..7];
    assert [b][1..] == [] && WriteAll(c, [b]) == REFUSED[..7] + WriteAll(c, []);
    assert REFUSED == WriteAll(c, [b]) + junk;
    assert Walk(c, junk) == Walked([], junk);
    WalkPassesItems(c, [b], junk);
    var w := Walk(c, REFUSED);
    assert w.items == [b] && [b][0].Lm?;
  }
}

/** _execute_reg_sequence: the opcodes of a sequence, decoded and run one by one. */
module RegSequence {
  import opened Words
  import opened Tilings

  datatype Op =
    | Write32(reg: u64, val: u32)
    | Write64(reg: u64, wide: u64)
    | Delay(usec: u32)

  function OpWords(op: Op): seq<u32> {
    match op
    case Write32(reg, val) => [1, Lower32(reg), Upper32(reg), val]
    case Write64(reg, val) => [2, Lower32(reg), Upper32(reg), Lower32(val), Upper32(val)]
    case Delay(usec) => [3, usec]
  }

  function Next(ws: seq<u32>): Step<Op> {
    if |ws| >= 4 && ws[0] == 1 then Take(Write32(Join(ws[1], ws[2]), ws[3]), 4)
    else if |ws| >= 5 && ws[0] == 2 then Take(Write64(Join(ws[1], ws[2]), Join(ws[3], ws[4])), 5)
    else if |ws| >= 2 && ws[0] == 3 then Take(Delay(ws[1]), 2)
    else Stop
  }

  ghost function Ops(): Codec<Op> { Codec(ws => Next(ws), op => OpWords(op), _ => true) }

  lemma OpsRead(ws: seq<u32>)
    requires Next(ws).Take?
    ensures var s := Next(ws);
      0 < s.n <= |ws| && OpWords(s.item) == ws[..s.n]
  {
  }

  lemma OpsReadBack(op: Op, rest: seq<u32>)
    ensures Next(OpWords(op) + rest) == Take(op, |OpWords(op)|)
  {
    if !op.Delay? {
      JoinSplit(op.reg);
    }
    if op.Write64? {
      JoinSplit(op.wide);
    }
  }

  lemma OpsLawful()
    ensures Sound(Ops()) && Complete(Ops())
  {
    forall ws | Ops().step(ws).Take? ensures TakesPrefix(Ops(), ws) {
      OpsRead(ws);
    }
    forall op, rest | Ops().ok(op) ensures ReadsBack(Ops(), op, rest) {
      OpsReadBack(op, rest);
    }
  }

  /** What the device sees. */
  datatype Effect = Write(reg: u64, val: u64) | Pause(usec: u32)

  /** kgsl_regwrite takes 32-bit arguments, so the upper halves are lost. */
  function EffectOf(op: Op): Effect {
    match op
    case Write32(reg, val) => Write(Lower32(reg), val)
    case Write64(reg, val) => Write(Lower32(reg), Lower32(val))
    case Delay(usec) => Pause(usec)
  }

  /** What the opcode asks for. */
  function Meant(op: Op): Effect {
    match op
    case Write32(reg, val) => Write(reg, val)
    case Write64(reg, val) => Write(reg, val)
    case Delay(usec) => Pause(usec)
  }

  function Effects(ops: seq<Op>): seq<Effect> { seq(|ops|, i requires 0 <= i < |ops| => EffectOf(ops[i])) }

  function AllMeant(ops: seq<Op>): seq<Effect> { seq(|ops|, i requires 0 <= i < |ops| => Meant(ops[i])) }

  predicate FitsRegister(op: Op) {
    match op
    case Write32(reg, _) => Upper32(reg) == 0
    case Write64(reg, val) => Upper32(reg) == 0 && Upper32(val) == 0
    case Delay(_) => true
  }

  // The same over the words themselves: opcode 1 takes four words, 2 five, 3 two.

  /** A complete operation starts at word k. */
  predicate Whole(opcode: seq<u32>, k: nat) {
    && k < |opcode|
    && ((opcode[k] == 1 && k + 4 <= |opcode|) || (opcode[k] == 2 && k + 5 <= |opcode|)
        || (opcode[k] == 3 && k + 2 <= |opcode|))
  }

  /** What it does: the low words of register and value count, the high words do not. */
  predicate Does(opcode: seq<u32>, k: nat, e: Effect) {
    && Whole(opcode, k)
    && e == if opcode[k] == 3 then Pause(opcode[k + 1]) else Write(opcode[k + 1], opcode[k + 3])
  }

  /** Where operation i starts. */
  ghost function StartOf(opcode: seq<u32>, i: nat): nat {
    if i == 0 then 0
    else
      var k := StartOf(opcode, i - 1);
      if k >= |opcode| then k else if opcode[k] == 1 then k + 4 else if opcode[k] == 2 then k + 5 else k + 2
  }

  /** Operation i has this effect. */
  ghost predicate DoesAt(opcode: seq<u32>, done: seq<Effect>, i: nat)
    requires i < |done|
  {
    Does(opcode, StartOf(opcode, i), done[i])
  }

  /** These are the effects of the complete operations at the front of the words, in order, and ok says
      that nothing is left behind them. */
  ghost predicate Performs(opcode: seq<u32>, ok: bool, done: seq<Effect>) {
    && (forall i :: 0 <= i < |done| ==> DoesAt(opcode, done, i))
    && !Whole(opcode, StartOf(opcode, |done|))
    && (ok <==> StartOf(opcode, |done|) == |opcode|)
  }

  /** Runs the complete operations at the front of the words, in order, and succeeds exactly when
      nothing is left over. */
  method ExecuteRegSequence(opcode: seq<u32>) returns (ok: bool, done: seq<Effect>)
    ensures Performs(opcode, ok, done)
    ensures Sound(Ops())
    ensures done == Effects(Walk(Ops(), opcode).items)
    ensures ok <==> Walk(Ops(), opcode).rest == []
  {
    ok, done := RunWords(opcode);
    PerformsIsWalk(opcode, ok, done);
  }

  method RunWords(opcode: seq<u32>) returns (ok: bool, done: seq<Effect>)
    ensures Performs(opcode, ok, done)
  {
    done := [];
    var k := 0;
    while k < |opcode|
      invariant 0 <= k == StartOf(opcode, |done|) <= |opcode|
      invariant forall i :: 0 <= i < |done| ==> DoesAt(opcode, done, i)
      decreases |opcode| - k
    {
      var cur := opcode[k..];
      var did, n := Pause(0), 0;
      if cur[0] == 1 && |opcode| - k >= 4 {
        JoinLow(cur[1], cur[2]);
        did, n := Write(Lower32(Join(cur[1], cur[2])), cur[3]), 4;
      } else if cur[0] == 2 && |opcode| - k >= 5 {
        JoinLow(cur[1], cur[2]);
        JoinLow(cur[3], cur[4]);
        did, n := Write(Lower32(Join(cur[1], cur[2])), Lower32(Join(cur[3], cur[4]))), 5;
      } else if cur[0] == 3 && |opcode| - k >= 2 {
        did, n := Pause(cur[1]), 2;
      } else {
        return false, done;
      }
      OneMore(opcode, done, k, did);
      done, k := done + [did], k + n;
    }
    return true, done;
  }

  lemma JoinLow(lo: u32, hi: u32)
    ensures Lower32(Join(lo, hi)) == lo && Upper32(Join(lo, hi)) == hi
  {
    Field(Join(lo, hi), TWO32, hi, lo);
  }

  /** An operation over the words is the one the decoder takes. */
  lemma TakesWhat(opcode: seq<u32>, k: nat, e: Effect) returns (op: Op, n: nat)
    requires Does(opcode, k, e)
    ensures Next(opcode[k..]) == Take(op, n) && EffectOf(op) == e && k + n <= |opcode|
    ensures n == if opcode[k] == 1 then 4 else if opcode[k] == 2 then 5 else 2
  {
    var ws := opcode[k..];
    op, n := Next(ws).item, Next(ws).n;
    if opcode[k] != 3 {
      JoinLow(ws[1], ws[2]);
    }
    if opcode[k] == 2 {
      JoinLow(ws[3], ws[4]);
    }
  }

  lemma OneMore(opcode: seq<u32>, done: seq<Effect>, k: nat, e: Effect)
    requires k == StartOf(opcode, |done|) && Does(opcode, k, e)
    requires forall i :: 0 <= i < |done| ==> DoesAt(opcode, done, i)
    ensures forall i :: 0 <= i < |done + [e]| ==> DoesAt(opcode, done + [e], i)
    ensures StartOf(opcode, |done + [e]|) == After(opcode, k)
  {
    forall i | 0 <= i < |done + [e]| ensures DoesAt(opcode, done + [e], i) {
      if i < |done| {
        assert DoesAt(opcode, done, i);
      }
    }
  }

  function After(opcode: seq<u32>, k: nat): nat
    requires k < |opcode|
  {
    k + if opcode[k] == 1 then 4 else if opcode[k] == 2 then 5 else 2
  }

  /** o gives the outcome of a walk that stands at a word: taking an operation on does not change it. */
  ghost predicate WalksOn(o: (nat, seq<Op>) -> Walked<Op>, opcode: seq<u32>, k: nat, e: Effect, before: seq<Op>) {
    Does(opcode, k, e) ==>
      exists op :: EffectOf(op) == e && o(After(opcode, k), before + [op]) == o(k, before)
  }

  lemma {:induction false} WalksAlong(o: (nat, seq<Op>) -> Walked<Op>, opcode: seq<u32>, done: seq<Effect>, i: nat)
    returns (ops: seq<Op>)
    requires i <= |done| && forall j :: 0 <= j < |done| ==> DoesAt(opcode, done, j)
    requires forall k, e, before :: WalksOn(o, opcode, k, e, before)
    ensures |ops| == i && Effects(ops) == done[..i] && o(StartOf(opcode, i), ops) == o(0, [])
  {
    if i == 0 {
      return [];
    }
    var before := WalksAlong(o, opcode, done, i - 1);
    var k, e := StartOf(opcode, i - 1), done[i - 1];
    assert DoesAt(opcode, done, i - 1) && WalksOn(o, opcode, k, e, before);
    var op :| EffectOf(op) == e && o(After(opcode, k), before + [op]) == o(k, before);
    ops := before + [op];
    EffectsSnoc(before, op);
    assert done[..i] == done[..i - 1] + [done[i - 1]];
  }

  lemma OneAlong(opcode: seq<u32>, k: nat, e: Effect, before: seq<Op>) returns (op: Op)
    requires Sound(Ops()) && Does(opcode, k, e)
    ensures EffectOf(op) == e && After(opcode, k) <= |opcode|
    ensures Onward(Ops(), opcode, After(opcode, k), before + [op]) == Onward(Ops(), opcode, k, before)
  {
    var n: nat;
    op, n := TakesWhat(opcode, k, e);
    OnwardNext(Ops(), opcode, k, before, op, n);
  }

  lemma EffectsSnoc(ops: seq<Op>, op: Op)
    ensures Effects(ops + [op]) == Effects(ops) + [EffectOf(op)]
  {
  }

  /** The words decide: what they perform is what decoding and running gives. */
  lemma PerformsIsWalk(opcode: seq<u32>, ok: bool, done: seq<Effect>)
    requires Performs(opcode, ok, done)
    ensures Sound(Ops())
    ensures done == Effects(Walk(Ops(), opcode).items) && (ok <==> Walk(Ops(), opcode).rest == [])
  {
    OpsLawful();
    var o := (k: nat, before: seq<Op>) =>
      if Sound(Ops()) && k <= |opcode| then Onward(Ops(), opcode, k, before) else Walked([], []);
    forall k, e, before ensures WalksOn(o, opcode, k, e, before) {
      if Does(opcode, k, e) {
        var op := OneAlong(opcode, k, e, before);
        assert o(After(opcode, k), before + [op]) == o(k, before);
      }
    }
    var ops := WalksAlong(o, opcode, done, |done|);
    StartInside(opcode, done, |done|);
    OnwardStart(Ops(), opcode);
    EndsHere(opcode, StartOf(opcode, |done|), ops);
    assert done[..|done|] == done;
  }

  lemma {:induction false} StartInside(opcode: seq<u32>, done: seq<Effect>, i: nat)
    requires i <= |done| && forall j :: 0 <= j < |done| ==> DoesAt(opcode, done, j)
    ensures StartOf(opcode, i) <= |opcode|
  {
    if i > 0 {
      assert DoesAt(opcode, done, i - 1);
    }
  }

  lemma EndsHere(opcode: seq<u32>, k: nat, ops: seq<Op>)
    requires Sound(Ops()) && k <= |opcode| && !Whole(opcode, k)
    ensures Onward(Ops(), opcode, k, ops) == Walked(ops, opcode[k..])
  {
    assert Next(opcode[k..]).Stop?;
    OnwardStop(Ops(), opcode, k, ops);
  }

  /** Success means the words are a concatenation of whole operations, and of exactly one. */
  lemma SuccessIsExactTiling(opcode: seq<u32>)
    ensures Sound(Ops())
    ensures Walk(Ops(), opcode).rest == [] <==> exists ops :: opcode == WriteAll(Ops(), ops)
    ensures forall ops :: opcode == WriteAll(Ops(), ops) ==> Walk(Ops(), opcode).items == ops
  {
    OpsLawful();
    var w := Walk(Ops(), opcode);
    WalkSplits(Ops(), opcode);
    assert w.rest == [] ==> WriteAll(Ops(), w.items) + w.rest == WriteAll(Ops(), w.items);
    forall ops | opcode == WriteAll(Ops(), ops) ensures w == Walked(ops, []) {
      WalkReadsBack(Ops(), ops);
    }
  }

  /** On failure: everything in front of the first word that starts no whole operation has run. */
  lemma FailureRunsTheValidPrefix(opcode: seq<u32>)
    ensures Sound(Ops())
    ensures var w := Walk(Ops(), opcode);
      WriteAll(Ops(), w.items) + w.rest == opcode && forall op, more :: w.rest != OpWords(op) + more
  {
    OpsLawful();
    WalkSplits(Ops(), opcode);
    forall op, more ensures Walk(Ops(), opcode).rest != OpWords(op) + more {
      OpsReadBack(op, more);
    }
  }

  /** The sequence does what its opcodes ask for exactly when every register and every value in it fits
      32 bits, whatever the comments promise about 64. */
  lemma FaithfulIffNarrow(ops: seq<Op>)
    ensures Effects(ops) == AllMeant(ops) <==> forall i :: 0 <= i < |ops| ==> FitsRegister(ops[i])
  {
    if Effects(ops) == AllMeant(ops) {
      forall i | 0 <= i < |ops| ensures FitsRegister(ops[i]) {
        assert Effects(ops)[i] == AllMeant(ops)[i];
        OneFaithful(ops[i]);
      }
    } else {
      var i :| 0 <= i < |ops| && Effects(ops)[i] != AllMeant(ops)[i];
      OneFaithful(ops[i]);
    }
  }

  /** A failing input: a 64-bit write of 2^32 stores 0. */
  lemma WideWriteLosesItsUpperHalf()
    ensures Effects([Write64(1, TWO32)]) == [Write(1, 0)]
    ensures AllMeant([Write64(1, TWO32)]) == [Write(1, TWO32)]
  {
    Field(TWO32, TWO32, 1, 0);
  }

  lemma OneFaithful(op: Op)
    ensures EffectOf(op) == Meant(op) <==> FitsRegister(op)
  {
    if !op.Delay? {
      JoinSplit(op.reg);
    }
    if op.Write64? {
      JoinSplit(op.wide);
    }
  }
}
