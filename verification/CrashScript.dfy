/** a5xx_crashdump_init, in its two passes, and the snapshot functions that read the data back. */
module CrashScript {
  import opened Words
  import opened Wrappers
  import opened CrashDump

  // ---------------------------------------------------------------- the captures, in order

  ghost function Plains(rs: seq<Range>): seq<Item> { seq(|rs|, i requires 0 <= i < |rs| => Plain(rs[i])) }

  function BankItem(b: Shader, j: nat): Item { Bank(b.statetype * 0x100 + j, b.sz) }

  ghost function ShaderItems(bs: seq<Shader>): seq<Item> {
    seq(4 * |bs|, i requires 0 <= i < 4 * |bs| => BankItem(bs[i / 4], i % 4))
  }

  function HlsqItem(h: Hlsq): Item { Bank(h.statetype * 0x100, h.size) }

  ghost function HlsqItems(hs: seq<Hlsq>): seq<Item> { seq(|hs|, i requires 0 <= i < |hs| => HlsqItem(hs[i])) }

  ghost function AllRanges(t: Tables, gpmu: bool): seq<Range> { if gpmu then t.regs + t.gpmu else t.regs }

  ghost function Items(t: Tables, gpmu: bool): seq<Item> {
    Plains(AllRanges(t, gpmu)) + ShaderItems(t.shaders) + HlsqItems(t.hlsq)
  }

  // Where each list starts among the items.
  ghost function ShaderStart(t: Tables, gpmu: bool): nat { |t.regs| + if gpmu then |t.gpmu| else 0 }

  ghost function HlsqStart(t: Tables, gpmu: bool): nat { ShaderStart(t, gpmu) + 4 * |t.shaders| }

  ghost predicate At(all: seq<Item>, k: nat, items: seq<Item>) {
    k + |items| <= |all| && all[k..k + |items|] == items
  }

  ghost predicate Layout(all: seq<Item>, t: Tables, gpmu: bool) {
    && |all| == HlsqStart(t, gpmu) + |t.hlsq|
    && At(all, 0, Plains(t.regs)) && (gpmu ==> At(all, |t.regs|, Plains(t.gpmu)))
    && At(all, ShaderStart(t, gpmu), ShaderItems(t.shaders)) && At(all, HlsqStart(t, gpmu), HlsqItems(t.hlsq))
  }

  lemma ItemsAreLaidOut(t: Tables, gpmu: bool)
    ensures Layout(Items(t, gpmu), t, gpmu)
  {
    var a, b, c := Plains(AllRanges(t, gpmu)), ShaderItems(t.shaders), HlsqItems(t.hlsq);
    InThree(a, b, c);
    if gpmu {
      InFour(t.regs, t.gpmu, b, c);
    }
  }

  lemma InFour(rs: seq<Range>, more: seq<Range>, b: seq<Item>, c: seq<Item>)
    ensures At(Plains(rs + more) + b + c, 0, Plains(rs)) && At(Plains(rs + more) + b + c, |rs|, Plains(more))
  {
    PlainsAppend(rs, more);
    InThree(Plains(rs), Plains(more), b + c);
    Assoc(Plains(rs + more), b, c);
  }

  lemma PlainsAppend(rs: seq<Range>, more: seq<Range>)
    ensures Plains(rs + more) == Plains(rs) + Plains(more)
  {
  }

  lemma InThree(a: seq<Item>, b: seq<Item>, c: seq<Item>)
    ensures At(a + b + c, 0, a) && At(a + b + c, |a|, b) && At(a + b + c, |a| + |b|, c)
  {
  }

  lemma ItemAt(all: seq<Item>, k: nat, items: seq<Item>, j: nat)
    requires At(all, k, items) && j < |items|
    ensures all[k + j] == items[j]
  {
    assert all[k..k + |items|][j] == all[k + j];
  }

  lemma BankAt(all: seq<Item>, k: nat, bs: seq<Shader>, i: nat, j: nat)
    requires At(all, k, ShaderItems(bs)) && i < |bs| && j < 4
    ensures all[k + 4 * i + j] == BankItem(bs[i], j)
  {
    ItemAt(all, k, ShaderItems(bs), 4 * i + j);
  }

  ghost predicate ShaderOk(b: Shader) { b.statetype < 0x100_0000 && ItemOk(BankItem(b, 3)) }

  ghost predicate HlsqOk(h: Hlsq) {
    h.statetype < 0x100_0000 && ItemOk(HlsqItem(h)) && h.ahbaddr as int + h.size <= TWO32
  }

  ghost predicate TablesOk(t: Tables) {
    && (forall i :: 0 <= i < |t.regs| ==> RangeOk(t.regs[i]))
    && (forall i :: 0 <= i < |t.gpmu| ==> RangeOk(t.gpmu[i]))
    && (forall i :: 0 <= i < |t.shaders| ==> ShaderOk(t.shaders[i]))
    && (forall i :: 0 <= i < |t.hlsq| ==> HlsqOk(t.hlsq[i]))
  }

  lemma ItemsAreOk(t: Tables, gpmu: bool)
    requires TablesOk(t)
    ensures ItemsOk(Items(t, gpmu))
  {
    forall i | 0 <= i < 4 * |t.shaders| ensures ItemOk(ShaderItems(t.shaders)[i]) {
      assert ShaderOk(t.shaders[i / 4]);
    }
    forall i | 0 <= i < |t.hlsq| ensures ItemOk(HlsqItems(t.hlsq)[i]) {
      assert HlsqOk(t.hlsq[i]);
    }
    forall i | 0 <= i < |AllRanges(t, gpmu)| ensures RangeOk(AllRanges(t, gpmu)[i]) {
    }
  }

  // ---------------------------------------------------------------- sizing

  ghost function QwordsTo(items: seq<Item>, k: nat): nat
    requires k <= |items|
  {
    if k == 0 then 0 else QwordsTo(items, k - 1) + if items[k - 1].Plain? then 2 else 4
  }

  datatype Sizes = Sizes(script: nat, data: nat)

  /** The bytes of script and of data that the first k captures take. */
  ghost function SizesOf(all: seq<Item>, k: nat): Sizes
    requires ItemsOk(all) && k <= |all|
  {
    Sizes(8 * QwordsTo(all, k), 4 * DwordsTo(all, k))
  }

  lemma SizesSnoc(all: seq<Item>, k: nat)
    requires ItemsOk(all) && k < |all|
    ensures SizesOf(all, k + 1)
      == Sizes(SizesOf(all, k).script + (if all[k].Plain? then 16 else 32), SizesOf(all, k).data + 4 * Size(all[k]))
  {
  }

  /** d(n) is the sizes of the first n captures. */
  ghost predicate Sized(d: nat -> Sizes, all: seq<Item>) {
    ItemsOk(all) && forall n: nat :: n <= |all| ==> SizedAt(d, all, n)
  }

  ghost predicate SizedAt(d: nat -> Sizes, all: seq<Item>, n: nat)
    requires ItemsOk(all) && n <= |all|
  {
    d(n) == SizesOf(all, n)
  }

  lemma SizeStep(d: nat -> Sizes, all: seq<Item>, n: nat)
    requires Sized(d, all) && n < |all|
    ensures ItemOk(all[n])
    ensures d(n + 1) == Sizes(d(n).script + (if all[n].Plain? then 16 else 32), d(n).data + 4 * Size(all[n]))
  {
    assert SizedAt(d, all, n) && SizedAt(d, all, n + 1);
    SizesSnoc(all, n);
  }

  method SizeRanges(rs: seq<Range>, scriptSize: nat, dataSize: nat,
                    ghost all: seq<Item>, ghost d: nat -> Sizes, ghost k: nat)
    returns (scriptSize': nat, dataSize': nat)
    requires Sized(d, all) && At(all, k, Plains(rs)) && d(k) == Sizes(scriptSize, dataSize)
    requires forall i :: 0 <= i < |rs| ==> RangeOk(rs[i])
    ensures d(k + |rs|) == Sizes(scriptSize', dataSize')
  {
    scriptSize' := scriptSize + |rs| * 16;
    dataSize' := dataSize;
    for j := 0 to |rs|
      invariant d(k + j) == Sizes(scriptSize + 16 * j, dataSize')
    {
      ItemAt(all, k, Plains(rs), j);
      SizeStep(d, all, k + j);
      dataSize' := dataSize' + Count(rs[j]) * 4;
    }
  }

  method SizeShaders(bs: seq<Shader>, scriptSize: nat, dataSize: nat,
                     ghost all: seq<Item>, ghost d: nat -> Sizes, ghost k: nat)
    returns (scriptSize': nat, dataSize': nat)
    requires Sized(d, all) && At(all, k, ShaderItems(bs)) && d(k) == Sizes(scriptSize, dataSize)
    ensures d(k + 4 * |bs|) == Sizes(scriptSize', dataSize')
  {
    scriptSize', dataSize' := scriptSize, dataSize;
    for i := 0 to |bs|
      invariant d(k + 4 * i) == Sizes(scriptSize', dataSize')
    {
      FourBanks(d, all, k, bs, i);
      scriptSize' := scriptSize' + 32 * NUM_SHADER_BANKS;
      dataSize' := dataSize' + bs[i].sz * 4 * NUM_SHADER_BANKS;
    }
  }

  ghost predicate BanksAt(all: seq<Item>, k: nat, b: Shader) {
    k + 4 <= |all| && forall j :: 0 <= j < 4 ==> all[k + j] == BankItem(b, j)
  }

  lemma BlockAt(all: seq<Item>, k: nat, bs: seq<Shader>, i: nat)
    requires At(all, k, ShaderItems(bs)) && i < |bs|
    ensures BanksAt(all, k + 4 * i, bs[i])
  {
    forall j | 0 <= j < 4 ensures all[k + 4 * i + j] == BankItem(bs[i], j) {
      BankAt(all, k, bs, i, j);
    }
  }

  lemma FourBanks(d: nat -> Sizes, all: seq<Item>, k: nat, bs: seq<Shader>, i: nat)
    requires Sized(d, all) && At(all, k, ShaderItems(bs)) && i < |bs|
    ensures d(k + 4 * i + 4) == Sizes(d(k + 4 * i).script + 128, d(k + 4 * i).data + bs[i].sz * 16)
  {
    OneBank(d, all, k, bs, i, 0);
    OneBank(d, all, k, bs, i, 1);
    OneBank(d, all, k, bs, i, 2);
    OneBank(d, all, k, bs, i, 3);
  }

  lemma OneBank(d: nat -> Sizes, all: seq<Item>, k: nat, bs: seq<Shader>, i: nat, j: nat)
    requires Sized(d, all) && At(all, k, ShaderItems(bs)) && i < |bs| && j < 4
    ensures var n := k + 4 * i + j;
      d(n + 1) == Sizes(d(n).script + 32, d(n).data + 4 * bs[i].sz)
  {
    BankAt(all, k, bs, i, j);
    SizeStep(d, all, k + 4 * i + j);
  }

  method SizeHlsq(hs: seq<Hlsq>, scriptSize: nat, dataSize: nat,
                  ghost all: seq<Item>, ghost d: nat -> Sizes, ghost k: nat)
    returns (scriptSize': nat, dataSize': nat)
    requires Sized(d, all) && At(all, k, HlsqItems(hs)) && d(k) == Sizes(scriptSize, dataSize)
    ensures d(k + |hs|) == Sizes(scriptSize', dataSize')
  {
    scriptSize', dataSize' := scriptSize, dataSize;
    for i := 0 to |hs|
      invariant d(k + i) == Sizes(scriptSize', dataSize')
    {
      ItemAt(all, k, HlsqItems(hs), i);
      SizeStep(d, all, k + i);
      scriptSize' := scriptSize' + 32;
      dataSize' := dataSize' + hs[i].size * 4;
    }
  }

  /** The first pass. */
  method ComputeSizes(t: Tables, gpmu: bool, ghost all: seq<Item>) returns (scriptSize: nat, dataSize: nat)
    requires TablesOk(t) && ItemsOk(all) && Layout(all, t, gpmu)
    ensures SizesOf(all, |all|) == Sizes(scriptSize, dataSize)
  {
    ghost var d := AllSizes(all);
    scriptSize, dataSize := SizeRanges(t.regs, 0, 0, all, d, 0);
    if gpmu {
      scriptSize, dataSize := SizeRanges(t.gpmu, scriptSize, dataSize, all, d, |t.regs|);
    }
    scriptSize, dataSize := SizeShaders(t.shaders, scriptSize, dataSize, all, d, ShaderStart(t, gpmu));
    scriptSize, dataSize := SizeHlsq(t.hlsq, scriptSize, dataSize, all, d, HlsqStart(t, gpmu));
    assert SizedAt(d, all, |all|);
  }

  lemma AllSizes(all: seq<Item>) returns (d: nat -> Sizes)
    requires ItemsOk(all)
    ensures Sized(d, all) && d(0) == Sizes(0, 0)
  {
    d := (n: nat) => if ItemsOk(all) && n <= |all| then SizesOf(all, n) else Sizes(0, 0);
  }

  // ---------------------------------------------------------------- writing

  datatype Draft = Draft(script: seq<u64>, offset: nat)

  /** The script for the first k captures, and where the next one goes. */
  ghost function Drafted(all: seq<Item>, base: u64, k: nat): Draft
    requires Fits(all, base) && k <= |all|
  {
    CmdsAreOk(all, k, base);
    Draft(Script(CmdsTo(all, k, base)), 4 * DwordsTo(all, k))
  }

  lemma {:induction false} CmdsAreOk(items: seq<Item>, k: nat, base: u64)
    requires Fits(items, base) && k <= |items|
    ensures CmdsOk(CmdsTo(items, k, base)) && 2 * |CmdsTo(items, k, base)| == QwordsTo(items, k)
  {
    if k > 0 {
      CmdsAreOk(items, k - 1, base);
      DwordsGrow(items, k - 1, |items|);
    }
  }

  function ItemWords(it: Item, addr: u64): seq<u64>
    requires ItemOk(it)
  {
    if it.Plain? then [addr, it.range.start * REG_FIELD + Count(it.range)]
    else [it.sel, HLSQ_DBG_READ_SEL * REG_FIELD + WRITE_FLAG + 1,
          addr, HLSQ_DBG_AHB_READ_APERTURE * REG_FIELD + it.size]
  }

  lemma DraftSnoc(all: seq<Item>, base: u64, k: nat)
    requires Fits(all, base) && k < |all|
    ensures var d := Drafted(all, base, k);
      && base + d.offset < TWO32 * TWO32
      && Drafted(all, base, k + 1) == Draft(d.script + ItemWords(all[k], base + d.offset), d.offset + 4 * Size(all[k]))
  {
    CmdsAreOk(all, k, base);
    CmdsStep(all, k, base);
    ItemAppended(CmdsTo(all, k, base), all[k], base + 4 * DwordsTo(all, k));
  }

  lemma CmdsStep(all: seq<Item>, k: nat, base: u64)
    requires Fits(all, base) && k < |all|
    ensures DwordsTo(all, k + 1) == DwordsTo(all, k) + Size(all[k]) && base + 4 * DwordsTo(all, k) < TWO32 * TWO32
    ensures CmdsTo(all, k + 1, base) == CmdsTo(all, k, base) + ItemCmds(all[k], base + 4 * DwordsTo(all, k))
  {
    DwordsGrow(all, k, |all|);
  }

  lemma ItemAppended(cs: seq<Cmd>, it: Item, addr: u64)
    requires CmdsOk(cs) && ItemOk(it)
    ensures CmdsOk(cs + ItemCmds(it, addr)) && Script(cs + ItemCmds(it, addr)) == Script(cs) + ItemWords(it, addr)
  {
    var c := ItemCmds(it, addr)[0];
    assert CmdsOk([c]);
    ScriptSnoc(cs, c);
    if it.Bank? {
      var r := ItemCmds(it, addr)[1];
      assert CmdsOk([r]);
      ScriptSnoc(cs + [c], r);
      assert cs + ItemCmds(it, addr) == cs + [c] + [r];
      Assoc(Script(cs), CmdWords(c), CmdWords(r));
    }
  }

  /** d(n) is the draft of the first n captures. */
  ghost predicate Tracks(d: nat -> Draft, all: seq<Item>, base: u64) {
    Fits(all, base) && forall n: nat :: n <= |all| ==> TracksAt(d, all, base, n)
  }

  ghost predicate TracksAt(d: nat -> Draft, all: seq<Item>, base: u64, n: nat)
    requires Fits(all, base) && n <= |all|
  {
    d(n) == Drafted(all, base, n)
  }

  /** The words of capture k: a read of a range, or a write of the selector and a read of the aperture. */
  method PutItem(script: seq<u64>, offset: nat, it: Item, base: u64,
                 ghost all: seq<Item>, ghost d: nat -> Draft, ghost k: nat)
    returns (script': seq<u64>, offset': nat)
    requires Tracks(d, all, base) && k < |all| && all[k] == it && ItemOk(it) && d(k) == Draft(script, offset)
    ensures d(k + 1) == Draft(script', offset')
  {
    assert TracksAt(d, all, base, k) && TracksAt(d, all, base, k + 1);
    DraftSnoc(all, base, k);
    if it.Plain? {
      script' := script + [base + offset, it.range.start * REG_FIELD + Count(it.range)];
    } else {
      script' := script + [it.sel, HLSQ_DBG_READ_SEL * REG_FIELD + WRITE_FLAG + 1,
                           base + offset, HLSQ_DBG_AHB_READ_APERTURE * REG_FIELD + it.size];
    }
    offset' := offset + Size(it) * 4;
  }

  method PutRanges(script: seq<u64>, offset: nat, rs: seq<Range>, base: u64,
                   ghost all: seq<Item>, ghost d: nat -> Draft, ghost k: nat)
    returns (script': seq<u64>, offset': nat)
    requires Tracks(d, all, base) && At(all, k, Plains(rs)) && d(k) == Draft(script, offset)
    requires forall i :: 0 <= i < |rs| ==> RangeOk(rs[i])
    ensures d(k + |rs|) == Draft(script', offset')
  {
    script', offset' := script, offset;
    for j := 0 to |rs|
      invariant d(k + j) == Draft(script', offset')
    {
      ItemAt(all, k, Plains(rs), j);
      script', offset' := PutItem(script', offset', Plain(rs[j]), base, all, d, k + j);
    }
  }

  /** at: the offset of the first bank. */
  method InitShader(script: seq<u64>, offset: nat, b: Shader, base: u64,
                    ghost all: seq<Item>, ghost d: nat -> Draft, ghost k: nat)
    returns (script': seq<u64>, offset': nat, at: nat)
    requires Tracks(d, all, base) && BanksAt(all, k, b) && d(k) == Draft(script, offset) && ShaderOk(b)
    ensures d(k + 4) == Draft(script', offset')
    ensures at == d(k).offset
  {
    script', offset', at := script, offset, offset;
    for j := 0 to NUM_SHADER_BANKS
      invariant d(k + j) == Draft(script', offset')
      invariant at == offset
    {
      if j == 0 {
        at := offset';
      }
      script', offset' := PutItem(script', offset', BankItem(b, j), base, all, d, k + j);
    }
  }

  method PutShaders(script: seq<u64>, offset: nat, bs: seq<Shader>, base: u64,
                    ghost all: seq<Item>, ghost d: nat -> Draft, ghost k: nat)
    returns (script': seq<u64>, offset': nat, at: seq<nat>)
    requires Tracks(d, all, base) && At(all, k, ShaderItems(bs)) && d(k) == Draft(script, offset)
    requires forall i :: 0 <= i < |bs| ==> ShaderOk(bs[i])
    ensures d(k + 4 * |bs|) == Draft(script', offset')
    ensures |at| == |bs| && forall i :: 0 <= i < |bs| ==> at[i] == d(k + 4 * i).offset
  {
    script', offset', at := script, offset, [];
    for i := 0 to |bs|
      invariant d(k + 4 * i) == Draft(script', offset')
      invariant |at| == i && forall n :: 0 <= n < i ==> at[n] == d(k + 4 * n).offset
    {
      BlockAt(all, k, bs, i);
      var first: nat;
      script', offset', first := InitShader(script', offset', bs[i], base, all, d, k + 4 * i);
      at := at + [first];
    }
  }

  method PutHlsq(script: seq<u64>, offset: nat, hs: seq<Hlsq>, base: u64,
                 ghost all: seq<Item>, ghost d: nat -> Draft, ghost k: nat)
    returns (script': seq<u64>, offset': nat, at: seq<nat>)
    requires Tracks(d, all, base) && At(all, k, HlsqItems(hs)) && d(k) == Draft(script, offset)
    requires forall i :: 0 <= i < |hs| ==> HlsqOk(hs[i])
    ensures d(k + |hs|) == Draft(script', offset')
    ensures |at| == |hs| && forall i :: 0 <= i < |hs| ==> at[i] == d(k + i).offset
  {
    script', offset', at := script, offset, [];
    for i := 0 to |hs|
      invariant d(k + i) == Draft(script', offset')
      invariant |at| == i && forall n :: 0 <= n < i ==> at[n] == d(k + n).offset
    {
      ItemAt(all, k, HlsqItems(hs), i);
      at := at + [offset'];
      script', offset' := PutItem(script', offset', HlsqItem(hs[i]), base, all, d, k + i);
    }
  }

  /** The second pass, up to the end marker. */
  method WriteScript(t: Tables, gpmu: bool, base: u64, ghost all: seq<Item>, ghost d: nat -> Draft)
    returns (script: seq<u64>, offset: nat, shaderAt: seq<nat>, hlsqAt: seq<nat>)
    requires TablesOk(t) && Tracks(d, all, base) && Layout(all, t, gpmu) && d(0) == Draft([], 0)
    ensures d(|all|) == Draft(script, offset)
    ensures |shaderAt| == |t.shaders| && |hlsqAt| == |t.hlsq|
    ensures forall i :: 0 <= i < |shaderAt| ==> shaderAt[i] == d(ShaderStart(t, gpmu) + 4 * i).offset
    ensures forall i :: 0 <= i < |hlsqAt| ==> hlsqAt[i] == d(HlsqStart(t, gpmu) + i).offset
  {
    script, offset := PutRanges([], 0, t.regs, base, all, d, 0);
    if gpmu {
      script, offset := PutRanges(script, offset, t.gpmu, base, all, d, |t.regs|);
    }
    script, offset, shaderAt := PutShaders(script, offset, t.shaders, base, all, d, ShaderStart(t, gpmu));
    script, offset, hlsqAt := PutHlsq(script, offset, t.hlsq, base, all, d, HlsqStart(t, gpmu));
  }

  /** Where capture n goes. */
  ghost function OffsetOf(all: seq<Item>, n: nat): nat
    requires ItemsOk(all) && n <= |all|
  {
    4 * DwordsTo(all, n)
  }

  /** Where every draft is. */
  lemma Drafts(all: seq<Item>, base: u64) returns (d: nat -> Draft)
    requires Fits(all, base)
    ensures Tracks(d, all, base) && d(0) == Draft([], 0)
    ensures forall n: nat :: n <= |all| ==> d(n).offset == OffsetOf(all, n)
    ensures CmdsOk(Cmds(all, base)) && d(|all|) == Draft(Script(Cmds(all, base)), 4 * Dwords(all))
  {
    d := (n: nat) => if Fits(all, base) && n <= |all| then Drafted(all, base, n) else Draft([], 0);
    CmdsAreOk(all, |all|, base);
  }

  lemma DraftStep(d: nat -> Draft, all: seq<Item>, base: u64, k: nat)
    requires Tracks(d, all, base) && k < |all|
    ensures ItemOk(all[k]) && base + d(k).offset < TWO32 * TWO32
    ensures d(k + 1).script == d(k).script + ItemWords(all[k], base + d(k).offset)
  {
    assert TracksAt(d, all, base, k) && TracksAt(d, all, base, k + 1);
    DraftSnoc(all, base, k);
  }

  lemma {:induction false} DraftPrefix(d: nat -> Draft, all: seq<Item>, base: u64, n: nat, k: nat)
    requires Tracks(d, all, base) && n <= k <= |all|
    ensures |d(n).script| <= |d(k).script| && d(k).script[..|d(n).script|] == d(n).script
    decreases k
  {
    if n < k {
      DraftPrefix(d, all, base, n, k - 1);
      DraftStep(d, all, base, k - 1);
    }
  }

  /** The qwords of capture n: a range is read with its first register in bits 44 and up and its count below;
      a bank is selected by writing 0xBC00 (bit 21, count 1) and read from 0xA000. */
  lemma WordsOfCapture(d: nat -> Draft, all: seq<Item>, base: u64, n: nat)
    requires Tracks(d, all, base) && n < |all|
    ensures ItemOk(all[n])
    ensures var p, script := |d(n).script|, d(|all|).script;
      if all[n].Plain?
      then p + 2 <= |script| && script[p] == base + d(n).offset
           && script[p + 1] == all[n].range.start * 0x1000_0000_0000 + (all[n].range.end - all[n].range.start + 1)
      else p + 4 <= |script| && script[p] == all[n].sel && script[p + 1] == 0xBC00 * 0x1000_0000_0000 + 0x20_0001
           && script[p + 2] == base + d(n).offset && script[p + 3] == 0xA000 * 0x1000_0000_0000 + all[n].size
  {
    var p, script := |d(n).script|, d(|all|).script;
    DraftStep(d, all, base, n);
    DraftPrefix(d, all, base, n + 1, |all|);
    var ws := ItemWords(all[n], base + d(n).offset);
    assert script[..p + |ws|] == d(n).script + ws;
    forall i | 0 <= i < |ws| ensures script[p + i] == ws[i] {
      assert script[..p + |ws|][p + i] == ws[i];
    }
    assert script[p + 0] == ws[0];
  }

  /** Both passes. The script takes exactly the bytes computed for it plus the 16 of its end marker, the
      captures end exactly at the end of the data buffer, and the dumper parses the script into them. */
  method CrashdumpInit(t: Tables, gpmu: bool, base: u64)
    returns (scriptSize: nat, dataSize: nat, script: seq<u64>, shaderAt: seq<nat>, hlsqAt: seq<nat>)
    requires TablesOk(t) && Fits(Items(t, gpmu), base)
    ensures 8 * |script| == scriptSize + 16 && dataSize == 4 * Dwords(Items(t, gpmu))
    ensures Parse(script) == Some(Cmds(Items(t, gpmu), base))
    ensures |shaderAt| == |t.shaders| && |hlsqAt| == |t.hlsq| && Layout(Items(t, gpmu), t, gpmu)
    ensures forall i :: 0 <= i < |shaderAt| ==> shaderAt[i] == OffsetOf(Items(t, gpmu), ShaderStart(t, gpmu) + 4 * i)
    ensures forall i :: 0 <= i < |hlsqAt| ==> hlsqAt[i] == OffsetOf(Items(t, gpmu), HlsqStart(t, gpmu) + i)
  {
    ItemsAreLaidOut(t, gpmu);
    scriptSize, dataSize := ComputeSizes(t, gpmu, Items(t, gpmu));
    script, shaderAt, hlsqAt := FinishScript(t, gpmu, base, Items(t, gpmu));
  }

  method FinishScript(t: Tables, gpmu: bool, base: u64, ghost all: seq<Item>)
    returns (script: seq<u64>, shaderAt: seq<nat>, hlsqAt: seq<nat>)
    requires TablesOk(t) && Fits(all, base) && Layout(all, t, gpmu)
    ensures |script| == QwordsTo(all, |all|) + 2 && Parse(script) == Some(Cmds(all, base))
    ensures |shaderAt| == |t.shaders| && |hlsqAt| == |t.hlsq|
    ensures forall i :: 0 <= i < |shaderAt| ==> shaderAt[i] == OffsetOf(all, ShaderStart(t, gpmu) + 4 * i)
    ensures forall i :: 0 <= i < |hlsqAt| ==> hlsqAt[i] == OffsetOf(all, HlsqStart(t, gpmu) + i)
  {
    ghost var d := Drafts(all, base);
    var offset: nat;
    script, offset, shaderAt, hlsqAt := WriteScript(t, gpmu, base, all, d);
    CmdsAreOk(all, |all|, base);
    ScriptReadsBack(Cmds(all, base));
    script := script + [0, 0];
  }
}
