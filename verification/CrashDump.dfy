/** The A5xx crash-dump script: a list of commands for the CP's crash dumper, sized in a first pass and
    written in a second, and what the snapshot reads back from the buffer it fills. */
module CrashDump {
  import opened Words
  import opened Pm4
  import opened Wrappers

  const HLSQ_DBG_READ_SEL := 0xBC00
  const HLSQ_DBG_AHB_READ_APERTURE := 0xA000
  const NUM_SHADER_BANKS := 4
  const REG_FIELD := 0x1000_0000_0000 // 1 << 44
  const WRITE_FLAG := 0x20_0000       // 1 << 21

  // ---------------------------------------------------------------- the crash dumper

  datatype Cmd = Read(addr: u64, reg: nat, count: nat) | Write(val: u64, reg: nat)

  /** The fields of the second qword do not overlap. */
  predicate CmdOk(c: Cmd) { c.reg < 0x10_0000 && (c.Read? ==> c.count < WRITE_FLAG) }

  function CmdWords(c: Cmd): seq<u64>
    requires CmdOk(c)
  {
    match c
    case Read(addr, reg, count) => [addr, reg * REG_FIELD + count]
    case Write(val, reg) => [val, reg * REG_FIELD + WRITE_FLAG + 1]
  }

  ghost predicate CmdsOk(cs: seq<Cmd>) { forall c :: c in cs ==> CmdOk(c) && !(c.Read? && c.reg == c.count == 0) }

  ghost function Script(cs: seq<Cmd>): seq<u64>
    requires CmdsOk(cs)
  {
    if cs == [] then [] else CmdWords(cs[0]) + Script(cs[1..])
  }

  /** The dumper takes two qwords at a time until it finds two zeros. */
  function Parse(ws: seq<u64>): Option<seq<Cmd>>
    decreases |ws|
  {
    if |ws| < 2 then None
    else if ws[0] == 0 && ws[1] == 0 then Some([])
    else match Parse(ws[2..])
      case None => None
      case Some(cs) => Some([CmdAt(ws[0], ws[1])] + cs)
  }

  function CmdAt(v: u64, w: u64): Cmd {
    if w / WRITE_FLAG % 2 == 1 then Write(v, w / REG_FIELD) else Read(v, w / REG_FIELD, w % WRITE_FLAG)
  }

  lemma CmdReadsBack(c: Cmd)
    requires CmdOk(c)
    ensures CmdAt(CmdWords(c)[0], CmdWords(c)[1]) == c
  {
    var w := CmdWords(c)[1];
    if c.Read? {
      Field(w, REG_FIELD, c.reg, c.count);
      Field(w, WRITE_FLAG, 0x80_0000 * c.reg, c.count);
      Field(0x80_0000 * c.reg, 2, 0x40_0000 * c.reg, 0);
    } else {
      Field(w, REG_FIELD, c.reg, WRITE_FLAG + 1);
      Field(w, WRITE_FLAG, 0x80_0000 * c.reg + 1, 1);
      Field(0x80_0000 * c.reg + 1, 2, 0x40_0000 * c.reg, 1);
    }
  }

  lemma {:induction false} ScriptReadsBack(cs: seq<Cmd>)
    requires CmdsOk(cs)
    ensures |Script(cs)| == 2 * |cs| && Parse(Script(cs) + [0, 0]) == Some(cs)
    decreases |cs|
  {
    if cs != [] {
      assert cs[0] in cs;
      ScriptReadsBack(cs[1..]);
      Assoc(CmdWords(cs[0]), Script(cs[1..]), [0, 0]);
      ParseCmd(cs[0], Script(cs[1..]) + [0, 0], cs[1..]);
      assert [cs[0]] + cs[1..] == cs;
    }
  }

  lemma ParseCmd(c: Cmd, ws: seq<u64>, cs: seq<Cmd>)
    requires CmdOk(c) && !(c.Read? && c.reg == c.count == 0) && Parse(ws) == Some(cs)
    ensures Parse(CmdWords(c) + ws) == Some([c] + cs)
  {
    CmdReadsBack(c);
    var all := CmdWords(c) + ws;
    assert all[0] == CmdWords(c)[0] && all[1] == CmdWords(c)[1] && all[2..] == ws;
  }

  lemma {:induction false} ScriptSnoc(cs: seq<Cmd>, c: Cmd)
    requires CmdsOk(cs) && CmdsOk([c])
    ensures CmdsOk(cs + [c]) && Script(cs + [c]) == Script(cs) + CmdWords(c)
    decreases |cs|
  {
    if cs == [] {
      assert cs + [c] == [c] && [c][1..] == [];
      assert Script([c]) == CmdWords(c) + Script([]);
    } else {
      assert (cs + [c])[1..] == cs[1..] + [c];
      ScriptSnoc(cs[1..], c);
    }
  }

  /** sel: the read selector when the dump starts; debug: what the aperture shows for a selector. */
  datatype Chip = Chip(regs: nat -> u32, debug: (nat, nat) -> u32, sel: nat)

  /** A register as read while the selector is sel. */
  function Fetch(chip: Chip, sel: nat, r: nat): u32 {
    if HLSQ_DBG_AHB_READ_APERTURE <= r < HLSQ_DBG_READ_SEL then chip.debug(sel, r - HLSQ_DBG_AHB_READ_APERTURE)
    else if r == HLSQ_DBG_READ_SEL then sel % TWO32
    else chip.regs(r)
  }

  /** A register as the driver reads it before the dump. */
  function Direct(chip: Chip, r: nat): u32 { Fetch(chip, chip.sel, r) }

  datatype Store = Store(addr: nat, val: u32)

  datatype Outcome = Outcome(stores: seq<Store>, sel: nat)

  function Fetched(chip: Chip, sel: nat, reg: nat, count: nat): seq<u32> {
    seq<u32>(count, i requires 0 <= i < count => Fetch(chip, sel, reg + i))
  }

  /** Consecutive dwords from addr on. */
  function Placed(addr: nat, vs: seq<u32>): seq<Store> {
    seq(|vs|, i requires 0 <= i < |vs| => Store(addr + 4 * i, vs[i]))
  }

  function Perform(chip: Chip, o: Outcome, c: Cmd): Outcome {
    match c
    case Read(addr, reg, count) => Outcome(o.stores + Placed(addr, Fetched(chip, o.sel, reg, count)), o.sel)
    case Write(val, reg) => if reg == HLSQ_DBG_READ_SEL then o.(sel := val) else o
  }

  ghost function Run(chip: Chip, cs: seq<Cmd>): Outcome {
    if cs == [] then Outcome([], chip.sel) else Perform(chip, Run(chip, cs[..|cs| - 1]), cs[|cs| - 1])
  }

  lemma RunSnoc(chip: Chip, cs: seq<Cmd>, c: Cmd)
    ensures Run(chip, cs + [c]) == Perform(chip, Run(chip, cs), c)
  {
    assert (cs + [c])[..|cs|] == cs;
  }

  // ---------------------------------------------------------------- what is to be captured

  datatype Range = Range(start: u32, end: u32)
  datatype Shader = Shader(statetype: u32, sz: nat)
  datatype Hlsq = Hlsq(statetype: u32, ahbaddr: u32, size: nat)
  datatype Tables = Tables(regs: seq<Range>, gpmu: seq<Range>, shaders: seq<Shader>, hlsq: seq<Hlsq>)

  /** One capture: a range of registers, or a bank of debug data behind the aperture. */
  datatype Item = Plain(range: Range) | Bank(sel: nat, size: nat)

  predicate RangeOk(r: Range) { r.start <= r.end < 0x10_0000 }

  predicate ItemOk(it: Item) {
    match it
    case Plain(r) => RangeOk(r)
    case Bank(sel, size) => sel < TWO32 && size <= HLSQ_DBG_READ_SEL - HLSQ_DBG_AHB_READ_APERTURE
  }

  ghost predicate ItemsOk(items: seq<Item>) { forall i :: 0 <= i < |items| ==> ItemOk(items[i]) }

  function Count(r: Range): nat
    requires RangeOk(r)
  {
    r.end - r.start + 1
  }

  function Size(it: Item): nat
    requires ItemOk(it)
  {
    if it.Plain? then Count(it.range) else it.size
  }

  /** The dwords the first k captures take. */
  ghost function DwordsTo(items: seq<Item>, k: nat): nat
    requires ItemsOk(items) && k <= |items|
  {
    if k == 0 then 0 else DwordsTo(items, k - 1) + Size(items[k - 1])
  }

  ghost function Dwords(items: seq<Item>): nat
    requires ItemsOk(items)
  {
    DwordsTo(items, |items|)
  }

  /** The commands that capture an item to addr: banks select first. */
  function ItemCmds(it: Item, addr: u64): seq<Cmd>
    requires ItemOk(it)
  {
    if it.Plain? then [Read(addr, it.range.start, Count(it.range))]
    else [Write(it.sel, HLSQ_DBG_READ_SEL), Read(addr, HLSQ_DBG_AHB_READ_APERTURE, it.size)]
  }

  ghost predicate Fits(items: seq<Item>, base: u64) { ItemsOk(items) && base + 4 * Dwords(items) < TWO32 * TWO32 }

  lemma {:induction false} DwordsGrow(items: seq<Item>, k: nat, n: nat)
    requires ItemsOk(items) && k <= n <= |items|
    ensures DwordsTo(items, k) <= DwordsTo(items, n)
    decreases n
  {
    if k < n {
      DwordsGrow(items, k, n - 1);
    }
  }

  /** The commands for the first k captures. */
  ghost function CmdsTo(items: seq<Item>, k: nat, base: u64): seq<Cmd>
    requires Fits(items, base) && k <= |items|
  {
    if k == 0 then []
    else
      DwordsGrow(items, k - 1, |items|);
      CmdsTo(items, k - 1, base) + ItemCmds(items[k - 1], base + 4 * DwordsTo(items, k - 1))
  }

  ghost function Cmds(items: seq<Item>, base: u64): seq<Cmd>
    requires Fits(items, base)
  {
    CmdsTo(items, |items|, base)
  }

  /** The selector after the first k captures. */
  ghost function SelTo(items: seq<Item>, k: nat, sel: nat): nat
    requires k <= |items|
  {
    if k == 0 then sel
    else if items[k - 1].Bank? then items[k - 1].sel
    else SelTo(items, k - 1, sel)
  }

  function ItemValues(chip: Chip, sel: nat, it: Item): (vs: seq<u32>)
    requires ItemOk(it)
    ensures |vs| == Size(it)
  {
    if it.Plain? then Fetched(chip, sel, it.range.start, Count(it.range))
    else seq<u32>(it.size, i requires 0 <= i < it.size => chip.debug(it.sel, i))
  }

  /** The contents the data buffer is meant to have after the first k captures. */
  ghost function ValuesTo(chip: Chip, items: seq<Item>, k: nat): (vs: seq<u32>)
    requires ItemsOk(items) && k <= |items|
    ensures |vs| == DwordsTo(items, k)
  {
    if k == 0 then []
    else ValuesTo(chip, items, k - 1) + ItemValues(chip, SelTo(items, k - 1, chip.sel), items[k - 1])
  }

  ghost function Values(chip: Chip, items: seq<Item>): (vs: seq<u32>)
    requires ItemsOk(items)
    ensures |vs| == Dwords(items)
  {
    ValuesTo(chip, items, |items|)
  }

  lemma PlacedAppend(addr: nat, vs: seq<u32>, ws: seq<u32>)
    ensures Placed(addr, vs + ws) == Placed(addr, vs) + Placed(addr + 4 * |vs|, ws)
  {
  }

  lemma BankValues(chip: Chip, it: Item)
    requires ItemOk(it) && it.Bank?
    ensures Fetched(chip, it.sel, HLSQ_DBG_AHB_READ_APERTURE, it.size) == ItemValues(chip, 0, it)
  {
  }

  /** r runs the commands of one more item as RunItem says. */
  ghost predicate RunsItem(r: seq<Cmd> -> Outcome, chip: Chip, cs: seq<Cmd>, it: Item, addr: u64) {
    ItemOk(it) ==>
      r(cs + ItemCmds(it, addr)) == Outcome(r(cs).stores + Placed(addr, ItemValues(chip, r(cs).sel, it)),
                                            if it.Bank? then it.sel else r(cs).sel)
  }

  lemma {:induction false} StoresTile(r: seq<Cmd> -> Outcome, chip: Chip, items: seq<Item>, k: nat, base: u64)
    requires Fits(items, base) && k <= |items|
    requires r([]) == Outcome([], chip.sel) && forall cs, it, addr :: RunsItem(r, chip, cs, it, addr)
    ensures r(CmdsTo(items, k, base)) == Outcome(Placed(base, ValuesTo(chip, items, k)), SelTo(items, k, chip.sel))
  {
    if k > 0 {
      StoresTile(r, chip, items, k - 1, base);
      DwordsGrow(items, k - 1, |items|);
      var it, addr := items[k - 1], base + 4 * DwordsTo(items, k - 1);
      assert RunsItem(r, chip, CmdsTo(items, k - 1, base), it, addr);
      TileItem(r, chip, CmdsTo(items, k - 1, base), it, addr, base, ValuesTo(chip, items, k - 1),
               SelTo(items, k - 1, chip.sel));
    }
  }

  lemma TileItem(r: seq<Cmd> -> Outcome, chip: Chip, cs: seq<Cmd>, it: Item, addr: u64, base: nat, vs: seq<u32>,
                 sel: nat)
    requires ItemOk(it) && r(cs) == Outcome(Placed(base, vs), sel) && addr == base + 4 * |vs|
    requires RunsItem(r, chip, cs, it, addr)
    ensures r(cs + ItemCmds(it, addr))
      == Outcome(Placed(base, vs + ItemValues(chip, sel, it)), if it.Bank? then it.sel else sel)
  {
    PlacedAppend(base, vs, ItemValues(chip, sel, it));
  }

  /** For any lists the dumper's stores are consecutive dwords that tile the data buffer, each written
      once, and leave exactly the intended values. */
  lemma StoresTileTheBuffer(chip: Chip, items: seq<Item>, base: u64)
    requires Fits(items, base)
    ensures Run(chip, Cmds(items, base))
      == Outcome(Placed(base, Values(chip, items)), SelTo(items, |items|, chip.sel))
  {
    var r := cs => Run(chip, cs);
    forall cs, it, addr ensures RunsItem(r, chip, cs, it, addr) {
      if ItemOk(it) {
        RunItem(chip, cs, it, addr);
      }
    }
    StoresTile(r, chip, items, |items|, base);
  }

  lemma RunItem(chip: Chip, cs: seq<Cmd>, it: Item, addr: u64)
    requires ItemOk(it)
    ensures var o := Run(chip, cs);
      Run(chip, cs + ItemCmds(it, addr))
        == Outcome(o.stores + Placed(addr, ItemValues(chip, o.sel, it)), if it.Bank? then it.sel else o.sel)
  {
    if it.Plain? {
      RunSnoc(chip, cs, ItemCmds(it, addr)[0]);
    } else {
      var w, r := ItemCmds(it, addr)[0], ItemCmds(it, addr)[1];
      RunSnoc(chip, cs, w);
      RunSnoc(chip, cs + [w], r);
      assert cs + ItemCmds(it, addr) == cs + [w] + [r];
      BankValues(chip, it);
    }
  }

  /** Where the values of item j lie. */
  lemma {:induction false} ValuesOfItem(chip: Chip, items: seq<Item>, j: nat, k: nat)
    requires ItemsOk(items) && j < k <= |items|
    ensures DwordsTo(items, j) + Size(items[j]) <= DwordsTo(items, k)
    ensures ValuesTo(chip, items, k)[DwordsTo(items, j)..DwordsTo(items, j) + Size(items[j])]
      == ItemValues(chip, SelTo(items, j, chip.sel), items[j])
    decreases k
  {
    var vs, ws := ValuesTo(chip, items, k - 1), ItemValues(chip, SelTo(items, k - 1, chip.sel), items[k - 1]);
    if j < k - 1 {
      ValuesOfItem(chip, items, j, k - 1);
      Front(vs, ws, DwordsTo(items, j), DwordsTo(items, j) + Size(items[j]));
    } else {
      assert (vs + ws)[|vs|..|vs| + |ws|] == ws;
    }
  }

  lemma Front(vs: seq<u32>, ws: seq<u32>, a: nat, b: nat)
    requires a <= b <= |vs|
    ensures (vs + ws)[a..b] == vs[a..b]
  {
  }
}
