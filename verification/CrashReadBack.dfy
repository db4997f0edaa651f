/** What the snapshot takes from the buffer the crash dumper filled. */
module CrashReadBack {
  import opened Words
  import opened Wrappers
  import opened WordPairs
  import opened CrashDump
  import opened CrashScript

  const HEADER_BYTES := 4

  // ---------------------------------------------------------------- the buffer

  /** Memory after a list of stores. */
  ghost function Memory(stores: seq<Store>): map<nat, u32> {
    if stores == [] then map[]
    else Memory(stores[..|stores| - 1])[stores[|stores| - 1].addr := stores[|stores| - 1].val]
  }

  ghost predicate Written(mem: map<nat, u32>, base: nat, n: nat) {
    forall i: nat :: i < n ==> Cell(base, i) in mem
  }

  function Cell(base: nat, i: nat): nat { base + 4 * i }

  /** The n dwords at base. */
  ghost function Buffer(mem: map<nat, u32>, base: nat, n: nat): seq<u32>
    requires Written(mem, base, n)
  {
    seq<u32>(n, i requires 0 <= i < n => mem[Cell(base, i)])
  }

  /** The buffer of size 4 * |vs| at base holds vs, and nothing outside it was touched. */
  lemma {:induction false} BufferHolds(base: nat, vs: seq<u32>)
    ensures forall a :: a in Memory(Placed(base, vs)) <==> base <= a < base + 4 * |vs| && (a - base) % 4 == 0
    ensures Written(Memory(Placed(base, vs)), base, |vs|) && Buffer(Memory(Placed(base, vs)), base, |vs|) == vs
    decreases |vs|
  {
    if vs != [] {
      var n := |vs| - 1;
      assert Placed(base, vs)[..n] == Placed(base, vs[..n]);
      BufferHolds(base, vs[..n]);
      var m, m' := Memory(Placed(base, vs[..n])), Memory(Placed(base, vs));
      assert m' == m[Cell(base, n) := vs[n]];
      forall i: nat | i < |vs| ensures Cell(base, i) in m' && m'[Cell(base, i)] == vs[i] {
        if i < n {
          assert Buffer(m, base, n)[i] == vs[i];
        }
      }
    }
  }

  /** What is in memory once the crash dumper has run a script. */
  ghost function Dumped(chip: Chip, script: seq<u64>): map<nat, u32>
    requires Parse(script).Some?
  {
    Memory(Run(chip, Parse(script).value).stores)
  }

  /** The buffer once the crash dumper has run a script for these captures. */
  ghost predicate DumpHolds(chip: Chip, script: seq<u64>, all: seq<Item>, base: u64, src: seq<u32>) {
    && Parse(script).Some? && ItemsOk(all) && Written(Dumped(chip, script), base, Dwords(all))
    && src == Buffer(Dumped(chip, script), base, Dwords(all))
  }

  /** After a script for these captures, the data buffer holds the value of every one. */
  lemma DumpFillsBuffer(chip: Chip, all: seq<Item>, base: u64, script: seq<u64>)
    requires Fits(all, base) && Parse(script) == Some(Cmds(all, base))
    ensures DumpHolds(chip, script, all, base, Values(chip, all))
  {
    StoresTileTheBuffer(chip, all, base);
    BufferHolds(base, Values(chip, all));
  }

  // ---------------------------------------------------------------- the main register list

  ghost predicate RangesOk(rs: seq<Range>) { forall i :: 0 <= i < |rs| ==> RangeOk(rs[i]) }

  /** The registers in the first k ranges. */
  ghost function Total(rs: seq<Range>, k: nat): nat
    requires RangesOk(rs) && k <= |rs|
  {
    if k == 0 then 0 else Total(rs, k - 1) + Count(rs[k - 1])
  }

  /** Registers from start on, each with its value. */
  function Numbered(start: u32, vs: seq<u32>): seq<Entry>
    requires start as int + |vs| <= TWO32
  {
    seq(|vs|, i requires 0 <= i < |vs| => Entry(start + i, vs[i]))
  }

  /** The registers of the first k ranges, each with the next word of src. */
  ghost function Listed(rs: seq<Range>, k: nat, src: seq<u32>): seq<Entry>
    requires RangesOk(rs) && k <= |rs| && Total(rs, k) <= |src|
  {
    if k == 0 then []
    else
      var p, r := Total(rs, k - 1), rs[k - 1];
      Listed(rs, k - 1, src) + Numbered(r.start, src[p..p + Count(r)])
  }

  /** The registers of the first k ranges, each read directly. */
  ghost function DirectDump(chip: Chip, rs: seq<Range>, k: nat): seq<Entry>
    requires RangesOk(rs) && k <= |rs|
  {
    if k == 0 then []
    else
      var r := rs[k - 1];
      DirectDump(chip, rs, k - 1) + Numbered(r.start, Fetched(chip, chip.sel, r.start, Count(r)))
  }

  /** The first k ranges have room, and no more. */
  ghost predicate LongestFit(rs: seq<Range>, k: nat, room: int)
    requires RangesOk(rs) && k <= |rs|
  {
    8 * Total(rs, k) <= room && (k < |rs| ==> room < 8 * Total(rs, k + 1))
  }

  lemma {:induction false} TotalGrows(rs: seq<Range>, k: nat, n: nat)
    requires RangesOk(rs) && k <= n <= |rs|
    ensures Total(rs, k) <= Total(rs, n)
    decreases n
  {
    if k < n {
      TotalGrows(rs, k, n - 1);
    }
  }

  /** Whole ranges are listed until one does not fit; too small a section is not written at all. */
  method SnapshotRegisters(rs: seq<Range>, src: seq<u32>, remain: nat)
    returns (section: Option<seq<Entry>>, ghost k: nat)
    requires RangesOk(rs) && Total(rs, |rs|) <= |src|
    ensures section.None? <==> remain < HEADER_BYTES
    ensures section.Some? ==> k <= |rs| && LongestFit(rs, k, remain - HEADER_BYTES) && Total(rs, k) <= |src|
    ensures section.Some? ==> section.value == Listed(rs, k, src)
  {
    if remain < HEADER_BYTES {
      return None, 0;
    }
    var room: nat, data, p: nat := remain - HEADER_BYTES, [], 0;
    var j: nat := 0;
    while j < |rs|
      invariant j <= |rs| && p == Total(rs, j) <= |src|
      invariant room + 8 * p == remain - HEADER_BYTES
      invariant data == Listed(rs, j, src)
    {
      TotalGrows(rs, j + 1, |rs|);
      var n := Count(rs[j]);
      if room < n * 8 {
        return Some(data), j;
      }
      room := room - n * 8;
      data := PutRange(data, rs[j], src, p);
      p, j := p + n, j + 1;
    }
    return Some(data), j;
  }

  method PutRange(data: seq<Entry>, r: Range, src: seq<u32>, p: nat) returns (data': seq<Entry>)
    requires RangeOk(r) && p + Count(r) <= |src|
    ensures data' == data + Numbered(r.start, src[p..p + Count(r)])
  {
    data' := data;
    var i: nat := 0;
    ghost var es := Numbered(r.start, src[p..p + Count(r)]);
    while r.start + i <= r.end
      invariant i <= Count(r) && data' == data + es[..i]
    {
      assert es[i] == Entry(r.start + i, src[p + i]);
      data' := data' + [Entry(r.start + i, src[p + i])];
      i := i + 1;
    }
  }

  /** Ranges come first among the captures and are read with the selector still untouched. */
  lemma {:induction false} RangesFirst(t: Tables, gpmu: bool, k: nat, sel: nat)
    requires TablesOk(t) && ItemsOk(Items(t, gpmu)) && k <= |t.regs|
    ensures k <= |Items(t, gpmu)|
    ensures DwordsTo(Items(t, gpmu), k) == Total(t.regs, k) && SelTo(Items(t, gpmu), k, sel) == sel
  {
    if k > 0 {
      var all := Items(t, gpmu);
      RangesFirst(t, gpmu, k - 1, sel);
      assert all[k - 1] == Plain(t.regs[k - 1]);
    }
  }

  /** What src holds in the place of range j is what the range's registers hold. */
  ghost predicate Shows(chip: Chip, rs: seq<Range>, j: nat, src: seq<u32>)
    requires RangesOk(rs) && j < |rs|
  {
    var r, p := rs[j], Total(rs, j);
    p + Count(r) <= |src| && src[p..p + Count(r)] == Fetched(chip, chip.sel, r.start, Count(r))
  }

  lemma RangeShown(chip: Chip, t: Tables, gpmu: bool, j: nat)
    requires TablesOk(t) && ItemsOk(Items(t, gpmu)) && j < |t.regs|
    ensures Shows(chip, t.regs, j, Values(chip, Items(t, gpmu)))
  {
    var all := Items(t, gpmu);
    RangesFirst(t, gpmu, j, chip.sel);
    ValuesOfItem(chip, all, j, |all|);
    assert all[j] == Plain(t.regs[j]);
  }

  lemma {:induction false} RangesShown(chip: Chip, rs: seq<Range>, k: nat, src: seq<u32>)
    requires RangesOk(rs) && k <= |rs| && forall j :: 0 <= j < k ==> Shows(chip, rs, j, src)
    ensures Total(rs, k) <= |src| && Listed(rs, k, src) == DirectDump(chip, rs, k)
  {
    if k > 0 {
      assert Shows(chip, rs, k - 1, src);
      RangesShown(chip, rs, k - 1, src);
    }
  }

  /** Once the dumper has run the script, the main list read back from its buffer shows the same registers
      with the same values as reading the registers directly, however much of it fits. */
  lemma MainListReadsBack(chip: Chip, t: Tables, gpmu: bool, base: u64, script: seq<u64>,
                          src: seq<u32>, k: nat)
    requires TablesOk(t) && Fits(Items(t, gpmu), base) && Parse(script) == Some(Cmds(Items(t, gpmu), base))
    requires k <= |t.regs|
    requires DumpHolds(chip, script, Items(t, gpmu), base, src)
    ensures RangesOk(t.regs) && Total(t.regs, k) <= |src| && Listed(t.regs, k, src) == DirectDump(chip, t.regs, k)
  {
    DumpFillsBuffer(chip, Items(t, gpmu), base, script);
    forall j | 0 <= j < k ensures Shows(chip, t.regs, j, src) {
      RangeShown(chip, t, gpmu, j);
    }
    RangesShown(chip, t.regs, k, src);
  }

  // ---------------------------------------------------------------- the HLSQ register sets

  ghost predicate SetsOk(hs: seq<Hlsq>) { forall i :: 0 <= i < |hs| ==> HlsqOk(hs[i]) }

  ghost predicate Inside(hs: seq<Hlsq>, at: seq<nat>, src: seq<u32>) {
    && |at| == |hs|
    && forall i :: 0 <= i < |hs| ==> HlsqOk(hs[i]) && at[i] % 4 == 0 && at[i] / 4 + hs[i].size <= |src|
  }

  ghost function HlsqListed(hs: seq<Hlsq>, at: seq<nat>, src: seq<u32>): seq<Entry>
    requires Inside(hs, at, src)
  {
    if hs == [] then []
    else
      var n := |hs| - 1;
      HlsqListed(hs[..n], at[..n], src) + Numbered(hs[n].ahbaddr, src[at[n] / 4..at[n] / 4 + hs[n].size])
  }

  ghost function HlsqTotal(hs: seq<Hlsq>): nat {
    if hs == [] then 0 else HlsqTotal(hs[..|hs| - 1]) + hs[|hs| - 1].size
  }

  method GetHlsqRegisters(data: seq<Entry>, h: Hlsq, at: nat, src: seq<u32>) returns (data': seq<Entry>)
    requires HlsqOk(h) && at % 4 == 0 && at / 4 + h.size <= |src|
    ensures data' == data + Numbered(h.ahbaddr, src[at / 4..at / 4 + h.size])
  {
    data' := data;
    ghost var es := Numbered(h.ahbaddr, src[at / 4..at / 4 + h.size]);
    for i := 0 to h.size
      invariant data' == data + es[..i]
    {
      assert es[i] == Entry(h.ahbaddr + i, src[at / 4 + i]);
      data' := data' + [Entry(h.ahbaddr + i, src[at / 4 + i])];
    }
  }

  /** All the sets, or nothing when they do not fit. */
  method DumpHlsqRegs(hs: seq<Hlsq>, at: seq<nat>, src: seq<u32>, remain: nat) returns (section: Option<seq<Entry>>)
    requires Inside(hs, at, src)
    ensures section.None? <==> remain < 8 * HlsqTotal(hs) + HEADER_BYTES
    ensures section.Some? ==> section.value == HlsqListed(hs, at, src)
  {
    var count := 0;
    for i := 0 to |hs|
      invariant count == HlsqTotal(hs[..i])
    {
      assert hs[..i + 1][..i] == hs[..i];
      count := count + hs[i].size;
    }
    assert hs[..|hs|] == hs && at[..|hs|] == at;
    if remain < count * 8 + HEADER_BYTES {
      return None;
    }
    var data := [];
    for i := 0 to |hs|
      invariant data == HlsqListed(hs[..i], at[..i], src)
    {
      data := GetHlsqRegisters(data, hs[i], at[i], src);
      assert hs[..i + 1][..i] == hs[..i] && at[..i + 1][..i] == at[..i];
    }
    return Some(data);
  }

  /** The sets as the debug aperture shows them. */
  ghost function HlsqDump(chip: Chip, hs: seq<Hlsq>): seq<Entry>
    requires SetsOk(hs)
  {
    if hs == [] then []
    else
      var n := |hs| - 1;
      assert HlsqOk(hs[n]);
      HlsqDump(chip, hs[..n]) + Numbered(hs[n].ahbaddr, ItemValues(chip, 0, HlsqItem(hs[n])))
  }

  /** What src holds at the set's offset was captured for it. */
  ghost predicate Holds(chip: Chip, h: Hlsq, at: nat, src: seq<u32>) {
    && HlsqOk(h) && at % 4 == 0 && at / 4 + h.size <= |src|
    && src[at / 4..at / 4 + h.size] == ItemValues(chip, 0, HlsqItem(h))
  }

  lemma SetHolds(chip: Chip, all: seq<Item>, n: nat, h: Hlsq)
    requires ItemsOk(all) && n < |all| && HlsqOk(h) && all[n] == HlsqItem(h)
    ensures Holds(chip, h, OffsetOf(all, n), Values(chip, all))
  {
    ValuesOfItem(chip, all, n, |all|);
    Quarter(DwordsTo(all, n));
  }

  lemma Quarter(x: nat)
    ensures 4 * x / 4 == x && 4 * x % 4 == 0
  {
  }

  lemma {:induction false} SetsHold(chip: Chip, hs: seq<Hlsq>, at: seq<nat>, src: seq<u32>)
    requires |at| == |hs| && forall i :: 0 <= i < |hs| ==> Holds(chip, hs[i], at[i], src)
    ensures SetsOk(hs) && Inside(hs, at, src) && HlsqListed(hs, at, src) == HlsqDump(chip, hs)
    decreases |hs|
  {
    if hs != [] {
      var n := |hs| - 1;
      assert Holds(chip, hs[n], at[n], src);
      SetsHold(chip, hs[..n], at[..n], src);
    }
  }

  lemma OffsetsLeadToValues(chip: Chip, all: seq<Item>, k: nat, hs: seq<Hlsq>, at: seq<nat>)
    requires ItemsOk(all) && At(all, k, HlsqItems(hs)) && SetsOk(hs)
    requires |at| == |hs| && forall i :: 0 <= i < |hs| ==> at[i] == OffsetOf(all, k + i)
    ensures Inside(hs, at, Values(chip, all)) && HlsqListed(hs, at, Values(chip, all)) == HlsqDump(chip, hs)
  {
    forall i | 0 <= i < |hs| ensures Holds(chip, hs[i], at[i], Values(chip, all)) {
      ItemAt(all, k, HlsqItems(hs), i);
      SetHolds(chip, all, k + i, hs[i]);
    }
    SetsHold(chip, hs, at, Values(chip, all));
  }

  lemma SetsReadBack(chip: Chip, all: seq<Item>, base: u64, script: seq<u64>, src: seq<u32>,
                     k: nat, hs: seq<Hlsq>, at: seq<nat>)
    requires Fits(all, base) && Parse(script) == Some(Cmds(all, base)) && DumpHolds(chip, script, all, base, src)
    requires At(all, k, HlsqItems(hs)) && SetsOk(hs)
    requires |at| == |hs| && forall i :: 0 <= i < |hs| ==> at[i] == OffsetOf(all, k + i)
    ensures Inside(hs, at, src) && HlsqListed(hs, at, src) == HlsqDump(chip, hs)
  {
    DumpFillsBuffer(chip, all, base, script);
    OffsetsLeadToValues(chip, all, k, hs, at);
  }

  /** Once the dumper has run the script, the offsets recorded while writing it lead to exactly what the
      aperture showed for each set. */
  lemma HlsqReadsBack(chip: Chip, t: Tables, gpmu: bool, base: u64, script: seq<u64>, src: seq<u32>, at: seq<nat>)
    requires TablesOk(t) && Fits(Items(t, gpmu), base) && Parse(script) == Some(Cmds(Items(t, gpmu), base))
    requires DumpHolds(chip, script, Items(t, gpmu), base, src) && |at| == |t.hlsq|
    requires Layout(Items(t, gpmu), t, gpmu)
    requires forall i :: 0 <= i < |at| ==> at[i] == OffsetOf(Items(t, gpmu), HlsqStart(t, gpmu) + i)
    ensures SetsOk(t.hlsq) && Inside(t.hlsq, at, src) && HlsqListed(t.hlsq, at, src) == HlsqDump(chip, t.hlsq)
  {
    SetsReadBack(chip, Items(t, gpmu), base, script, src, HlsqStart(t, gpmu), t.hlsq, at);
  }

  /** The aperture, with this set selected, shows the set's registers. */
  ghost predicate Mirrors(chip: Chip, h: Hlsq) {
    forall i: nat :: i < h.size ==> chip.debug(h.statetype * 0x100, i) == Direct(chip, h.ahbaddr + i)
  }

  /** The sets as direct reads show them. */
  ghost function HlsqDirect(chip: Chip, hs: seq<Hlsq>): seq<Entry>
    requires SetsOk(hs)
  {
    if hs == [] then []
    else
      var n := |hs| - 1;
      assert HlsqOk(hs[n]);
      HlsqDirect(chip, hs[..n]) + Numbered(hs[n].ahbaddr, Fetched(chip, chip.sel, hs[n].ahbaddr, hs[n].size))
  }

  lemma {:induction false} MirroredSets(chip: Chip, hs: seq<Hlsq>)
    requires SetsOk(hs) && forall i :: 0 <= i < |hs| ==> Mirrors(chip, hs[i])
    ensures HlsqDump(chip, hs) == HlsqDirect(chip, hs)
    decreases |hs|
  {
    if hs != [] {
      var n := |hs| - 1;
      assert HlsqOk(hs[n]) && Mirrors(chip, hs[n]);
      assert ItemValues(chip, 0, HlsqItem(hs[n])) == Fetched(chip, chip.sel, hs[n].ahbaddr, hs[n].size);
      MirroredSets(chip, hs[..n]);
    }
  }

  /** So on a chip whose aperture mirrors the sets, the section shows what direct reads would. */
  lemma HlsqReadsLikeDirect(chip: Chip, t: Tables, gpmu: bool, base: u64, script: seq<u64>, src: seq<u32>, at: seq<nat>)
    requires TablesOk(t) && Fits(Items(t, gpmu), base) && Parse(script) == Some(Cmds(Items(t, gpmu), base))
    requires DumpHolds(chip, script, Items(t, gpmu), base, src) && |at| == |t.hlsq|
    requires Layout(Items(t, gpmu), t, gpmu)
    requires forall i :: 0 <= i < |at| ==> at[i] == OffsetOf(Items(t, gpmu), HlsqStart(t, gpmu) + i)
    requires forall i :: 0 <= i < |t.hlsq| ==> Mirrors(chip, t.hlsq[i])
    ensures SetsOk(t.hlsq) && Inside(t.hlsq, at, src) && HlsqListed(t.hlsq, at, src) == HlsqDirect(chip, t.hlsq)
  {
    HlsqReadsBack(chip, t, gpmu, base, script, src, at);
    MirroredSets(chip, t.hlsq);
  }

  /** From the tables to the snapshot: write the script, let the dumper run it, and read back. The buffer
      src is what the script left in memory; any number of whole ranges of the main list, and the HLSQ
      section at the offsets recorded while writing, are what direct reads and the aperture show. */
  method DumpAndReadBack(ghost chip: Chip, t: Tables, gpmu: bool, base: u64)
    returns (script: seq<u64>, hlsqAt: seq<nat>, ghost src: seq<u32>)
    requires TablesOk(t) && Fits(Items(t, gpmu), base)
    ensures DumpHolds(chip, script, Items(t, gpmu), base, src)
    ensures RangesOk(t.regs) && forall k: nat :: k <= |t.regs| ==> ReadsLikeDirect(chip, t.regs, k, src)
    ensures SetsOk(t.hlsq) && Inside(t.hlsq, hlsqAt, src) && HlsqListed(t.hlsq, hlsqAt, src) == HlsqDump(chip, t.hlsq)
  {
    var _, _, s, _, at := CrashdumpInit(t, gpmu, base);
    script, hlsqAt := s, at;
    src := Values(chip, Items(t, gpmu));
    DumpFillsBuffer(chip, Items(t, gpmu), base, script);
    forall k: nat | k <= |t.regs| ensures ReadsLikeDirect(chip, t.regs, k, src) {
      MainListReadsBack(chip, t, gpmu, base, script, src, k);
    }
    HlsqReadsBack(chip, t, gpmu, base, script, src, hlsqAt);
  }

  ghost predicate ReadsLikeDirect(chip: Chip, rs: seq<Range>, k: nat, src: seq<u32>)
    requires RangesOk(rs) && k <= |rs|
  {
    Total(rs, k) <= |src| && Listed(rs, k, src) == DirectDump(chip, rs, k)
  }

  // ---------------------------------------------------------------- where reading back goes wrong

  /** What the buffer holds for bank j of shader block i: word w is what the aperture shows at w with the
      block's state type and bank j selected. */
  lemma ShaderBankCaptured(chip: Chip, all: seq<Item>, k: nat, bs: seq<Shader>, i: nat, j: nat, w: nat)
    requires ItemsOk(all) && At(all, k, ShaderItems(bs)) && i < |bs| && j < NUM_SHADER_BANKS && w < bs[i].sz
    ensures OffsetOf(all, k + 4 * i + j) / 4 + w < |Values(chip, all)|
    ensures Values(chip, all)[OffsetOf(all, k + 4 * i + j) / 4 + w] == chip.debug(bs[i].statetype * 0x100 + j, w)
  {
    BankAt(all, k, bs, i, j);
    Quarter(DwordsTo(all, k + 4 * i + j));
    BankWord(chip, all, k + 4 * i + j, w);
  }

  lemma BankWord(chip: Chip, all: seq<Item>, n: nat, w: nat)
    requires ItemsOk(all) && n < |all| && all[n].Bank? && w < all[n].size
    ensures DwordsTo(all, n) + w < |Values(chip, all)|
    ensures Values(chip, all)[DwordsTo(all, n) + w] == chip.debug(all[n].sel, w)
  {
    ValuesOfItem(chip, all, n, |all|);
    var vs, p := Values(chip, all), DwordsTo(all, n);
    assert vs[p..p + all[n].size][w] == vs[p + w];
  }

  /** The snapshot looks for bank j of a shader block j * sz bytes behind the first. The script put it
      four times as far, so only the first bank is read from where it was captured. */
  lemma BankReadBackOffset(all: seq<Item>, k: nat, bs: seq<Shader>, i: nat, j: nat)
    requires ItemsOk(all) && At(all, k, ShaderItems(bs)) && i < |bs| && j < NUM_SHADER_BANKS
    ensures OffsetOf(all, k + 4 * i) + j * bs[i].sz == OffsetOf(all, k + 4 * i + j) <==> j == 0 || bs[i].sz == 0
  {
    BankOffset(all, k, bs, i, j);
    Product(j, bs[i].sz);
  }

  lemma {:induction false} BankOffset(all: seq<Item>, k: nat, bs: seq<Shader>, i: nat, j: nat)
    requires ItemsOk(all) && At(all, k, ShaderItems(bs)) && i < |bs| && j < NUM_SHADER_BANKS
    ensures OffsetOf(all, k + 4 * i + j) == OffsetOf(all, k + 4 * i) + 4 * (j * bs[i].sz)
  {
    if j > 0 {
      BankOffset(all, k, bs, i, j - 1);
      NextBank(all, k, bs, i, j - 1);
      assert j * bs[i].sz == (j - 1) * bs[i].sz + bs[i].sz;
    }
  }

  lemma Product(a: nat, b: nat)
    ensures a * b == 0 <==> a == 0 || b == 0
  {
  }

  lemma NextBank(all: seq<Item>, k: nat, bs: seq<Shader>, i: nat, j: nat)
    requires ItemsOk(all) && At(all, k, ShaderItems(bs)) && i < |bs| && j < NUM_SHADER_BANKS
    ensures OffsetOf(all, k + 4 * i + j + 1) == OffsetOf(all, k + 4 * i + j) + 4 * bs[i].sz
  {
    BankAt(all, k, bs, i, j);
    SizesSnoc(all, k + 4 * i + j);
  }

  /** The GPMU list is read from the start of the buffer, which is where it was captured only if there are
      no registers in front of it. */
  lemma GpmuReadBackOffset(t: Tables)
    requires TablesOk(t)
    ensures ItemsOk(Items(t, true))
    ensures OffsetOf(Items(t, true), |t.regs|) == 0 <==> t.regs == []
  {
    ItemsAreOk(t, true);
    RangesFirst(t, true, |t.regs|, 0);
  }
}
