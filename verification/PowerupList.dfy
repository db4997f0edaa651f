/** The A6xx power-up register list: pairs the CP replays in order when the GPU powers up, in a buffer
    that it shares with the driver. */
module PowerupList {
  import opened Words
  import opened WordPairs

  const A6XX_RBBM_VBIF_CLIENT_QOS_CNTL: u32 := 0x10
  const A6XX_RBBM_GBIF_CLIENT_QOS_CNTL: u32 := 0x11
  const A6XX_RBBM_PERFCTR_CNTL: u32 := 0x500

  const ENABLE: Entry := Entry(A6XX_RBBM_PERFCTR_CNTL, 1)

  // ---------------------------------------------------------------- the list as a value

  /** The registers as the CP leaves them after replaying the list in order. */
  ghost function Replay(es: seq<Entry>): map<u32, u32> {
    if es == [] then map[]
    else Replay(es[..|es| - 1])[es[|es| - 1].id := es[|es| - 1].val]
  }

  /** The counters are enabled by the last entry, and by no other. */
  predicate Sealed(es: seq<Entry>) {
    && es != [] && es[|es| - 1] == ENABLE
    && (forall i :: 0 <= i < |es| - 1 ==> es[i].id != A6XX_RBBM_PERFCTR_CNTL)
  }

  /** Where a search for the register ends: at its first entry, or else at the first entry that enables
      the counters, or else behind the list. */
  function Found(es: seq<Entry>, select: u32): (k: nat)
    ensures k <= |es|
    ensures forall i :: 0 <= i < k ==> es[i].id != select && es[i].id != A6XX_RBBM_PERFCTR_CNTL
    ensures k < |es| ==> es[k].id == select || es[k].id == A6XX_RBBM_PERFCTR_CNTL
    decreases |es|
  {
    if es == [] || es[0].id == select || es[0].id == A6XX_RBBM_PERFCTR_CNTL then 0
    else 1 + Found(es[1..], select)
  }

  function Updated(es: seq<Entry>, select: u32, countable: u32): seq<Entry> {
    var k := Found(es, select);
    if k < |es| && es[k].id == select then es[k := Entry(select, countable)]
    else es[..k] + [Entry(select, countable), ENABLE]
  }

  /** What an update does to any list, where behind is the entry that lies behind it in the buffer: the
      new entry and the enabling one overwrite two entries from the place found on, and the list grows by
      one whatever was there. */
  function Rewritten(es: seq<Entry>, select: u32, countable: u32, behind: Entry): seq<Entry> {
    var k := Found(es, select);
    var e := Entry(select, countable);
    if k < |es| && es[k].id == select then es[k := e]
    else if k < |es| then (es + [behind])[k := e][k + 1 := ENABLE]
    else es + [e]
  }

  /** The words an update may need behind the list. */
  function Room(es: seq<Entry>, select: u32): nat {
    var k := Found(es, select);
    if k == |es| then 4 else if es[k].id == select then 0 else 2
  }

  /** On a sealed list nothing is lost: the new entry goes in front of the enabling one. */
  lemma SealedIsUpdated(es: seq<Entry>, select: u32, countable: u32, behind: Entry)
    ensures Sealed(es) ==> Rewritten(es, select, countable, behind) == Updated(es, select, countable)
  {
    if Sealed(es) && es[Found(es, select)].id != select {
      assert Found(es, select) == |es| - 1;
    }
  }

  /** On a list that was patched a second time the update of a new register finds the first enabling entry,
      overwrites the stale entry behind it, and lets the list reach one entry further into the buffer. */
  lemma UpdateAfterSecondPatch(front: seq<Entry>, stale: seq<Entry>, select: u32, countable: u32, behind: Entry)
    requires stale != [] && select != A6XX_RBBM_PERFCTR_CNTL
    requires forall i :: 0 <= i < |front| ==> front[i].id != select && front[i].id != A6XX_RBBM_PERFCTR_CNTL
    ensures Rewritten(front + [ENABLE] + stale, select, countable, behind)
      == front + [Entry(select, countable), ENABLE] + stale[1..] + [behind]
  {
    var es := front + [ENABLE] + stale;
    var k := Found(es, select);
    assert es[|front|] == ENABLE;
    assert forall i :: 0 <= i < |front| ==> es[i] == front[i];
    assert k == |front|;
  }

  /** The register has another entry behind its first one. */
  ghost predicate Repeats(es: seq<Entry>, r: u32) {
    exists i, j :: 0 <= i < j < |es| && es[i].id == es[j].id == r
  }

  lemma {:induction false} LastOneWins(es: seq<Entry>, k: nat, v: u32)
    requires k < |es|
    ensures var es' := es[k := Entry(es[k].id, v)];
      Replay(es') == if exists j :: k < j < |es| && es[j].id == es[k].id then Replay(es) else Replay(es)[es[k].id := v]
    decreases |es|
  {
    var n := |es| - 1;
    var es' := es[k := Entry(es[k].id, v)];
    if k == n {
      assert es'[..n] == es[..n];
    } else {
      LastOneWins(es[..n], k, v);
      assert es'[..n] == es[..n][k := Entry(es[k].id, v)];
      if j :| k < j < n && es[j].id == es[k].id {
        assert es[..n][j].id == es[k].id;
      }
    }
  }

  lemma Appended(es: seq<Entry>, e: Entry)
    ensures Replay(es + [e]) == Replay(es)[e.id := e.val]
  {
    assert (es + [e])[..|es|] == es;
  }

  /** Later entries override earlier ones. */
  lemma {:induction false} ReplayAppend(a: seq<Entry>, b: seq<Entry>)
    ensures Replay(a + b) == Replay(a) + Replay(b)
    decreases |b|
  {
    if b == [] {
      assert a + b == a;
    } else {
      var n := |b| - 1;
      ReplayAppend(a, b[..n]);
      assert a + b == a + b[..n] + [b[n]];
      Appended(a + b[..n], b[n]);
    }
  }

  /** What the CP does with a list that was patched twice: it captures and enables as after the first patch,
      and then, with the counters running, writes the stale entries, which override the captured values;
      an entry for the enabling register among them decides whether the counters stay on. */
  lemma ReplayAfterSecondPatch(front: seq<Entry>, stale: seq<Entry>)
    ensures Replay(front + [ENABLE] + stale) == Replay(front)[ENABLE.id := ENABLE.val] + Replay(stale)
  {
    ReplayAppend(front + [ENABLE], stale);
    Appended(front, ENABLE);
  }

  /** An update of a new register then has its effect exactly if no entry behind it names the register with
      another value last. */
  lemma UpdateReplayAfterSecondPatch(front: seq<Entry>, stale: seq<Entry>, select: u32, countable: u32, behind: Entry)
    requires stale != [] && select != A6XX_RBBM_PERFCTR_CNTL
    requires forall i :: 0 <= i < |front| ==> front[i].id != select && front[i].id != A6XX_RBBM_PERFCTR_CNTL
    ensures var rest := Replay(stale[1..] + [behind]);
      var m := Replay(Rewritten(front + [ENABLE] + stale, select, countable, behind));
      && m == Replay(front)[select := countable][ENABLE.id := ENABLE.val] + rest
      && select in m && (m[select] == countable <==> (select in rest ==> rest[select] == countable))
  {
    UpdateAfterSecondPatch(front, stale, select, countable, behind);
    var e := Entry(select, countable);
    Assoc(front + [e, ENABLE], stale[1..], [behind]);
    ReplayInserted(front, e, stale[1..] + [behind]);
  }

  lemma ReplayInserted(front: seq<Entry>, e: Entry, rest: seq<Entry>)
    ensures Replay(front + [e, ENABLE] + rest) == Replay(front)[e.id := e.val][ENABLE.id := ENABLE.val] + Replay(rest)
  {
    assert front + [e, ENABLE] == front + [e] + [ENABLE];
    ReplayAppend(front + [e, ENABLE], rest);
    Appended(front + [e], ENABLE);
    Appended(front, e);
  }

  lemma FoundFirst(es: seq<Entry>, select: u32)
    requires Sealed(es) && select != A6XX_RBBM_PERFCTR_CNTL
    ensures Found(es, select) < |es|
    ensures es[Found(es, select)].id != select ==> Found(es, select) == |es| - 1
  {
  }

  /** An update keeps the list sealed, and replaying it sets the register, unless a second entry for it
      hides the first: then the update is without effect. */
  lemma UpdateOnReplay(es: seq<Entry>, select: u32, countable: u32)
    requires Sealed(es) && select != A6XX_RBBM_PERFCTR_CNTL
    ensures Sealed(Updated(es, select, countable))
    ensures Replay(Updated(es, select, countable))
      == if Repeats(es, select) then Replay(es) else Replay(es)[select := countable]
  {
    var k := Found(es, select);
    FoundFirst(es, select);
    UpdateKeepsSeal(es, select, countable);
    if es[k].id == select {
      ReplacedOnReplay(es, k, countable);
    } else {
      assert es == es[..k] + [ENABLE];
      assert Updated(es, select, countable) == es[..k] + [Entry(select, countable)] + [ENABLE];
      Inserted(es[..k], Entry(select, countable));
      NotRepeated(es, k, select);
    }
  }

  lemma UpdateKeepsSeal(es: seq<Entry>, select: u32, countable: u32)
    requires Sealed(es) && select != A6XX_RBBM_PERFCTR_CNTL
    ensures Sealed(Updated(es, select, countable))
  {
    FoundFirst(es, select);
  }

  lemma ReplacedOnReplay(es: seq<Entry>, k: nat, v: u32)
    requires k < |es| && forall i :: 0 <= i < k ==> es[i].id != es[k].id
    ensures Replay(es[k := Entry(es[k].id, v)])
      == if Repeats(es, es[k].id) then Replay(es) else Replay(es)[es[k].id := v]
  {
    LastOneWins(es, k, v);
    if i, j :| 0 <= i < j < |es| && es[i].id == es[j].id == es[k].id {
      assert k < j;
    }
  }

  lemma NotRepeated(es: seq<Entry>, k: nat, r: u32)
    requires k == |es| - 1 && es[k].id != r && forall i :: 0 <= i < k ==> es[i].id != r
    ensures !Repeats(es, r)
  {
  }

  lemma Inserted(es: seq<Entry>, e: Entry)
    requires e.id != ENABLE.id
    ensures Replay(es + [e] + [ENABLE]) == Replay(es + [ENABLE])[e.id := e.val]
  {
    Appended(es + [e], ENABLE);
    Appended(es, e);
    Appended(es, ENABLE);
  }

  /** So the list acts like a map exactly when the register is not repeated, or already reads as it is to. */
  lemma ActsLikeAMap(es: seq<Entry>, select: u32, countable: u32)
    requires Sealed(es) && select != A6XX_RBBM_PERFCTR_CNTL
    ensures Replay(Updated(es, select, countable)) == Replay(es)[select := countable]
      <==> !Repeats(es, select) || (select in Replay(es) && Replay(es)[select] == countable)
  {
    UpdateOnReplay(es, select, countable);
    var m := Replay(es);
    if Repeats(es, select) {
      assert m == m[select := countable] <==> select in m && m[select] == countable;
    }
  }

  /** Such lists exist: the A615 lists name UCHE_GBIF_GX_CONFIG twice. It is no perfcounter select, so the
      driver never updates it; a list that repeated a select would ignore updates in the same way. */
  lemma RepeatedRegisterIgnoresUpdates(val: u32, countable: u32)
    requires val != countable
    ensures var r := 0xE3A;
      var es := [Entry(r, val), Entry(r, val), ENABLE];
      Sealed(es) && Replay(Updated(es, r, countable)) != Replay(es)[r := countable]
  {
    var r := 0xE3A;
    var es := [Entry(r, val), Entry(r, val), ENABLE];
    assert Repeats(es, r) by {
      assert es[0].id == es[1].id == r;
    }
    UpdateOnReplay(es, r, countable);
    Appended([Entry(r, val), Entry(r, val)], ENABLE);
    Appended([Entry(r, val)], Entry(r, val));
    assert es == [Entry(r, val), Entry(r, val)] + [ENABLE];
    assert [Entry(r, val), Entry(r, val)] == [Entry(r, val)] + [Entry(r, val)];
    assert Replay(es)[r] == val;
  }

  // ---------------------------------------------------------------- any number of updates

  /** granted: the lock shared with the CP was taken in time. */
  datatype Request = Request(select: u32, countable: u32, granted: bool)

  ghost function AfterAll(es: seq<Entry>, reqs: seq<Request>): seq<Entry> {
    if reqs == [] then es
    else
      var q, before := reqs[|reqs| - 1], AfterAll(es, reqs[..|reqs| - 1]);
      if q.granted then Updated(before, q.select, q.countable) else before
  }

  ghost function MapAfterAll(m: map<u32, u32>, reqs: seq<Request>): map<u32, u32> {
    if reqs == [] then m
    else
      var q, before := reqs[|reqs| - 1], MapAfterAll(m, reqs[..|reqs| - 1]);
      if q.granted then before[q.select := q.countable] else before
  }

  ghost predicate Names(es: seq<Entry>, r: u32) { exists i :: 0 <= i < |es| && es[i].id == r }

  /** Requests for select registers that the static part does not name. */
  ghost predicate Foreign(statics: seq<Entry>, reqs: seq<Request>) {
    forall i :: 0 <= i < |reqs| ==> reqs[i].select != A6XX_RBBM_PERFCTR_CNTL && !Names(statics, reqs[i].select)
  }

  /** From entry n on, no register is named a second time. */
  predicate DistinctFrom(es: seq<Entry>, n: nat) {
    forall i, j :: 0 <= i < j < |es| && n <= j ==> es[i].id != es[j].id
  }

  lemma UpdateKeepsShape(es: seq<Entry>, statics: seq<Entry>, select: u32, countable: u32)
    requires Sealed(es) && select != A6XX_RBBM_PERFCTR_CNTL && !Names(statics, select)
    requires |statics| < |es| && es[..|statics|] == statics && DistinctFrom(es, |statics|)
    ensures var es' := Updated(es, select, countable);
      && |statics| < |es'| && es'[..|statics|] == statics && DistinctFrom(es', |statics|)
      && !Repeats(es, select)
  {
    var k, n := Found(es, select), |statics|;
    FoundFirst(es, select);
    forall i | 0 <= i < n ensures es[i].id != select {
      assert statics[i] == es[i];
    }
    if es[k].id == select {
      ReplacedShape(es, n, k, countable);
    } else {
      InsertedShape(es, n, Entry(select, countable));
    }
  }

  lemma ReplacedShape(es: seq<Entry>, n: nat, k: nat, v: u32)
    requires n <= k < |es| && DistinctFrom(es, n)
    ensures var es' := es[k := Entry(es[k].id, v)];
      es'[..n] == es[..n] && DistinctFrom(es', n) && !Repeats(es, es[k].id)
  {
    assert es[k := Entry(es[k].id, v)][..n] == es[..n];
  }

  lemma InsertedShape(es: seq<Entry>, n: nat, e: Entry)
    requires Sealed(es) && n < |es| && DistinctFrom(es, n) && forall i :: 0 <= i < |es| ==> es[i].id != e.id
    ensures var es' := es[..|es| - 1] + [e, ENABLE];
      es'[..n] == es[..n] && DistinctFrom(es', n) && !Repeats(es, e.id)
  {
    var es' := es[..|es| - 1] + [e, ENABLE];
    assert es'[..n] == es[..n];
    forall i, j | 0 <= i < j < |es'| && n <= j ensures es'[i].id != es'[j].id {
      if j < |es| - 1 {
        assert es[i].id != es[j].id;
      }
    }
  }

  /** Over every sequence of updates to registers outside the static part, granted or not: replaying the
      list has the effect of writing the latest countable of each select into a map; the counters are
      enabled last and only once; and the static entries stay in front as they were captured. */
  lemma {:induction false} ListRefinesMap(statics: seq<Entry>, reqs: seq<Request>)
    requires Sealed(statics + [ENABLE]) && Foreign(statics, reqs)
    ensures var es := AfterAll(statics + [ENABLE], reqs);
      && Sealed(es) && Replay(es) == MapAfterAll(Replay(statics + [ENABLE]), reqs)
      && |statics| < |es| && es[..|statics|] == statics && DistinctFrom(es, |statics|)
    decreases |reqs|
  {
    if reqs != [] {
      var n := |reqs| - 1;
      var q, es := reqs[n], AfterAll(statics + [ENABLE], reqs[..n]);
      ListRefinesMap(statics, reqs[..n]);
      if q.granted {
        UpdateKeepsShape(es, statics, q.select, q.countable);
        UpdateOnReplay(es, q.select, q.countable);
      }
    }
  }

  /** The map holds the countable of the last granted request for a select ... */
  lemma {:induction false} LatestCountable(m: map<u32, u32>, reqs: seq<Request>, i: nat)
    requires i < |reqs| && reqs[i].granted
    requires forall j :: i < j < |reqs| && reqs[j].granted ==> reqs[j].select != reqs[i].select
    ensures reqs[i].select in MapAfterAll(m, reqs) && MapAfterAll(m, reqs)[reqs[i].select] == reqs[i].countable
    decreases |reqs|
  {
    var n := |reqs| - 1;
    if i < n {
      LatestCountable(m, reqs[..n], i);
    }
  }

  /** ... and every other register as it was. */
  lemma {:induction false} OthersKept(m: map<u32, u32>, reqs: seq<Request>, r: u32)
    requires forall i :: 0 <= i < |reqs| ==> reqs[i].select != r
    ensures r in MapAfterAll(m, reqs) <==> r in m
    ensures r in m ==> MapAfterAll(m, reqs)[r] == m[r]
    decreases |reqs|
  {
    if reqs != [] {
      OthersKept(m, reqs[..|reqs| - 1], r);
    }
  }

  // ---------------------------------------------------------------- the buffer

  datatype Family = A615 | A650 | Plain

  /** The constant register tables. */
  datatype Tables = Tables(ifpc: seq<u32>, ifpc650: seq<u32>, pwrup: seq<u32>, a615: seq<u32>, a650: seq<u32>)

  function Lists(t: Tables, f: Family): seq<seq<u32>> {
    [t.ifpc] + (if f == A650 then [t.ifpc650] else []) + [t.pwrup]
    + (if f == A615 then [t.a615] else if f == A650 then [t.a650] else [])
  }

  ghost function Concat(ls: seq<seq<u32>>): seq<u32> {
    if ls == [] then [] else Concat(ls[..|ls| - 1]) + ls[|ls| - 1]
  }

  function QosRegister(a630: bool): u32 {
    if a630 then A6XX_RBBM_VBIF_CLIENT_QOS_CNTL else A6XX_RBBM_GBIF_CLIENT_QOS_CNTL
  }

  ghost function StaticRegs(t: Tables, f: Family, a630: bool): seq<u32> { Concat(Lists(t, f)) + [QosRegister(a630)] }

  /** The registers with the values they hold now. */
  ghost function Captured(regs: seq<u32>, read: u32 -> u32): seq<Entry> {
    seq(|regs|, i requires 0 <= i < |regs| => Entry(regs[i], read(regs[i])))
  }

  /** What only IFPC restores, and what a family adds. */
  ghost function IfpcOnly(t: Tables, f: Family): seq<u32> { if f == A650 then t.ifpc + t.ifpc650 else t.ifpc }

  ghost function OwnList(t: Tables, f: Family): seq<u32> {
    match f
    case A615 => t.a615
    case A650 => t.a650
    case Plain => []
  }

  lemma StaticParts(t: Tables, f: Family, a630: bool, read: u32 -> u32)
    ensures StaticRegs(t, f, a630) == IfpcOnly(t, f) + (t.pwrup + OwnList(t, f) + [QosRegister(a630)])
    ensures Captured(StaticRegs(t, f, a630), read)
      == Captured(IfpcOnly(t, f), read) + Captured(t.pwrup + OwnList(t, f) + [QosRegister(a630)], read)
  {
    match f
    case A615 =>
      ConcatThree(t.ifpc, t.pwrup, t.a615);
    case A650 =>
      ConcatFour(t.ifpc, t.ifpc650, t.pwrup, t.a650);
    case Plain =>
      ConcatTwo(t.ifpc, t.pwrup);
  }

  lemma FrontAndBack(es: seq<Entry>, t: Tables, f: Family, a630: bool, read: u32 -> u32, n: nat)
    requires es == Captured(StaticRegs(t, f, a630), read) + [ENABLE] && n == |IfpcOnly(t, f)|
    ensures n <= |es| && es[..n] == Captured(IfpcOnly(t, f), read)
    ensures es[n..] == Captured(t.pwrup + OwnList(t, f) + [QosRegister(a630)], read) + [ENABLE]
  {
    StaticParts(t, f, a630, read);
    var a, b := Captured(IfpcOnly(t, f), read), Captured(t.pwrup + OwnList(t, f) + [QosRegister(a630)], read);
    assert (a + b + [ENABLE])[..|a|] == a && (a + b + [ENABLE])[|a|..] == b + [ENABLE];
  }

  lemma ConcatTwo(a: seq<u32>, b: seq<u32>)
    ensures Concat([a] + [] + [b] + []) == a + b
  {
    var ls := [a] + [] + [b] + [];
    assert ls == [a, b] && ls[..1] == [a] && [a][..0] == [];
    assert Concat([a]) == Concat([]) + a;
  }

  lemma ConcatThree(a: seq<u32>, b: seq<u32>, c: seq<u32>)
    ensures Concat([a] + [] + [b] + [c]) == a + b + c
  {
    var ls := [a] + [] + [b] + [c];
    assert ls[..2] == [a] + [] + [b] + [];
    ConcatTwo(a, b);
  }

  lemma ConcatFour(a: seq<u32>, b: seq<u32>, c: seq<u32>, d: seq<u32>)
    ensures Concat([a] + [b] + [c] + [d]) == a + b + c + d
  {
    var ls := [a] + [b] + [c] + [d];
    assert ls[..3] == [a] + [] + [b] + [c];
    ConcatThree(a, b, c);
  }

  lemma CapturedAt(regs: seq<u32>, read: u32 -> u32, i: nat)
    requires i < |regs|
    ensures |Captured(regs, read)| == |regs| && Captured(regs, read)[i] == Entry(regs[i], read(regs[i]))
  {
  }

  lemma CapturedSnoc(regs: seq<u32>, r: u32, read: u32 -> u32)
    ensures Captured(regs + [r], read) == Captured(regs, read) + [Entry(r, read(r))]
  {
  }

  /** Nothing but a freshly filled list is sealed: entries behind the enabling one spoil it. */
  lemma SealedOnlyIfFresh(es: seq<Entry>, front: seq<Entry>, stale: seq<Entry>)
    requires es == front + [ENABLE] + stale && forall i :: 0 <= i < |front| ==> front[i].id != A6XX_RBBM_PERFCTR_CNTL
    ensures Sealed(es) <==> stale == []
  {
    if stale != [] {
      assert es[|front|] == ENABLE;
    }
  }

  class List {
    const data: array<u32>
    var length: nat
    var offset: nat

    ghost predicate Valid()
      reads this
    {
      length <= data.Length < 0x1_0000 && length % 2 == 0
    }

    ghost function Entries(): seq<Entry>
      requires Valid()
      reads this, data
    {
      Fields(data[..length])
    }

    /** The pair of words behind the list, if there is room for one. */
    ghost function Behind(): Entry
      requires Valid()
      reads this, data
    {
      NextEntry(data[..], length)
    }

    constructor (capacity: nat)
      requires capacity < 0x1_0000
      ensures Valid() && fresh(data) && data.Length == capacity && length == 0 && offset == 0 && Entries() == []
    {
      data, length, offset := new u32[capacity](_ => 0), 0, 0;
    }

    method Put(at: nat, e: Entry)
      requires at + 2 <= data.Length
      modifies data
      ensures data[..] == With(old(data[..]), at, e)
    {
      data[at] := e.id;
      data[at + 1] := e.val;
    }

    method PutList(dest: nat, regs: seq<u32>, read: u32 -> u32, ghost was: seq<u32>, ghost before: seq<u32>)
      requires dest == 2 * |before| && dest + 2 * |regs| <= data.Length
      requires Holds(data[..], was, Captured(before, read))
      modifies data
      ensures Holds(data[..], was, Captured(before + regs, read))
    {
      assert before + regs[..0] == before;
      for j := 0 to |regs|
        invariant Holds(data[..], was, Captured(before + regs[..j], read))
      {
        HoldsNext(data[..], was, before, regs, j, read);
        Put(dest + 2 * j, Entry(regs[j], read(regs[j])));
      }
      assert regs[..|regs|] == regs;
    }

    method PutLists(ls: seq<seq<u32>>, read: u32 -> u32) returns (dest: nat)
      requires 2 * |Concat(ls)| <= data.Length
      modifies this`length, data
      ensures dest == 2 * |Concat(ls)| && length == old(length) + dest
      ensures Holds(data[..], old(data[..]), Captured(Concat(ls), read))
    {
      dest := 0;
      for i := 0 to |ls|
        invariant dest == 2 * |Concat(ls[..i])| && length == old(length) + dest
        invariant Holds(data[..], old(data[..]), Captured(Concat(ls[..i]), read))
      {
        ConcatTurn(ls, i);
        PutList(dest, ls[i], read, old(data[..]), Concat(ls[..i]));
        dest, length := dest + 2 * |ls[i]|, length + 2 * |ls[i]|;
      }
      assert ls[..|ls|] == ls;
    }

    method PutStatics(t: Tables, f: Family, a630: bool, read: u32 -> u32) returns (dest: nat)
      requires 2 * |StaticRegs(t, f, a630)| <= data.Length
      modifies this`length, data
      ensures dest == 2 * |StaticRegs(t, f, a630)| && length == old(length) + dest
      ensures Holds(data[..], old(data[..]), Captured(StaticRegs(t, f, a630), read))
    {
      ghost var regs := Concat(Lists(t, f));
      dest := PutLists(Lists(t, f), read);
      var qos := QosRegister(a630);
      HoldsSnoc(data[..], old(data[..]), Captured(regs, read), Entry(qos, read(qos)));
      CapturedSnoc(regs, qos, read);
      Put(dest, Entry(qos, read(qos)));
      dest, length := dest + 2, length + 2;
    }

    /** Fills the list from its start but adds to its length, so that only the first call leaves a list
        that ends with the entry enabling the counters. In front of list_offset stand the registers only
        IFPC restores, behind it the others, the family's own and the QoS register. */
    method Patch(t: Tables, f: Family, a630: bool, read: u32 -> u32)
      requires Valid() && length + 2 * (|StaticRegs(t, f, a630)| + 1) <= data.Length
      requires A6XX_RBBM_PERFCTR_CNTL !in StaticRegs(t, f, a630)
      modifies this, data
      ensures Valid() && length == old(length) + 2 * (|StaticRegs(t, f, a630)| + 1)
      ensures offset == 2 * (|t.ifpc| + if f == A650 then |t.ifpc650| else 0)
      ensures Holds(data[..], old(data[..]), Captured(StaticRegs(t, f, a630), read) + [ENABLE])
      ensures old(length) == 0 ==> Entries() == Captured(StaticRegs(t, f, a630), read) + [ENABLE]
      ensures Sealed(Entries()) <==> old(length) == 0
      ensures old(length) == 0 ==>
        && offset / 2 <= |Entries()|
        && Entries()[..offset / 2] == Captured(IfpcOnly(t, f), read)
        && Entries()[offset / 2..] == Captured(t.pwrup + OwnList(t, f) + [if a630 then 0x10 else 0x11], read)
                                      + [Entry(0x500, 1)]
    {
      Fill(t, f, a630, read);
      offset := 2 * |t.ifpc|;
      if f == A650 {
        offset := offset + 2 * |t.ifpc650|;
      }
      if old(length) == 0 {
        FrontAndBack(Entries(), t, f, a630, read, offset / 2);
      }
    }

    method Fill(t: Tables, f: Family, a630: bool, read: u32 -> u32)
      requires Valid() && length + 2 * (|StaticRegs(t, f, a630)| + 1) <= data.Length
      requires A6XX_RBBM_PERFCTR_CNTL !in StaticRegs(t, f, a630)
      modifies this`length, data
      ensures Valid() && length == old(length) + 2 * (|StaticRegs(t, f, a630)| + 1)
      ensures Holds(data[..], old(data[..]), Captured(StaticRegs(t, f, a630), read) + [ENABLE])
      ensures old(length) == 0 ==> Entries() == Captured(StaticRegs(t, f, a630), read) + [ENABLE]
      ensures Sealed(Entries()) <==> old(length) == 0
    {
      ghost var was, statics := data[..], Captured(StaticRegs(t, f, a630), read);
      var dest := PutStatics(t, f, a630, read);
      HoldsSnoc(data[..], was, statics, ENABLE);
      Put(dest, ENABLE);
      length := length + 2;
      FreshOrStale(data[..], was, length, statics);
      assert data[..][..length] == data[..length];
    }

    /** Busy when the CP holds the lock for too long; otherwise the entry of the register is updated, or
        a new one goes in front of the entry enabling the counters. writes is what reaches the register. */
    method PerfcounterUpdate(select: u32, countable: u32, updateReg: bool, granted: bool)
      returns (busy: bool, writes: seq<Entry>)
      requires Valid() && length + Room(Entries(), select) <= data.Length
      modifies this, data
      ensures Valid() && offset == old(offset) && length == 2 * |Entries()|
      ensures busy == !granted
      ensures granted ==> Entries() == Rewritten(old(Entries()), select, countable, old(Behind()))
      ensures !granted ==> Entries() == old(Entries())
      ensures granted && old(Sealed(Entries())) ==> Entries() == Updated(old(Entries()), select, countable)
      ensures writes == if granted && updateReg then [Entry(select, countable)] else []
    {
      writes := [];
      if !granted {
        return true, writes;
      }
      ghost var es, behind := Entries(), Behind();
      var i := Search(select);
      if i < length / 2 && data[2 * i] == select {
        Replace(i, select, countable);
      } else {
        Insert(i, select, countable);
      }
      SealedIsUpdated(es, select, countable, behind);
      if updateReg {
        writes := [Entry(select, countable)];
      }
      return false, writes;
    }

    /** The register has an entry: its value changes in place. */
    method Replace(i: nat, select: u32, countable: u32)
      requires Valid() && i == Found(Entries(), select) < length / 2 && data[2 * i] == select
      modifies data
      ensures Valid() && Entries() == Rewritten(old(Entries()), select, countable, old(Behind()))
    {
      ghost var was := data[..];
      assert was[..length] == data[..length];
      data[2 * i + 1] := countable;
      ReplacedIsRewritten(was, length, i, select, countable, old(Behind()));
      assert data[..length] == With(was, 2 * i, Entry(select, countable))[..length];
    }

    /** It has none: two entries are written from the place found on. */
    method Insert(i: nat, select: u32, countable: u32)
      requires Valid() && i == Found(Entries(), select) <= length / 2 && (i < length / 2 ==> data[2 * i] != select)
      requires length + 2 <= data.Length && 2 * i + 4 <= data.Length
      modifies this`length, data
      ensures Valid() && Entries() == Rewritten(old(Entries()), select, countable, old(Behind()))
    {
      ghost var was := data[..];
      assert was[..length] == data[..length];
      OverwrittenIsRewritten(was, length, i, select, countable);
      Put(2 * i, Entry(select, countable));
      Put(2 * i + 2, ENABLE);
      length := length + 2;
      assert data[..length] == data[..][..length];
    }

    method Search(select: u32) returns (i: nat)
      requires Valid()
      ensures i == Found(Entries(), select) <= |Entries()| == length / 2
      ensures i < length / 2 ==> Entries()[i].id == data[2 * i]
    {
      i := 0;
      ghost var es := Entries();
      while i < length / 2 && data[2 * i] != select && data[2 * i] != A6XX_RBBM_PERFCTR_CNTL
        invariant 0 <= i <= length / 2
        invariant forall k :: 0 <= k < i ==> es[k].id != select && es[k].id != A6XX_RBBM_PERFCTR_CNTL
      {
        assert es[i].id == data[2 * i];
        i := i + 1;
      }
      assert i < length / 2 ==> es[i].id == data[2 * i];
      FoundIs(es, select, i);
    }
  }

  /** The words with an entry at this position. */
  function With(ws: seq<u32>, at: nat, e: Entry): seq<u32>
    requires at + 2 <= |ws|
  {
    ws[at := e.id][at + 1 := e.val]
  }

  /** Filled from the start with these entries, untouched behind them. */
  ghost predicate Holds(now: seq<u32>, was: seq<u32>, es: seq<Entry>) {
    var n := 2 * |es|;
    |now| == |was| && n <= |now| && Fields(now[..n]) == es && now[n..] == was[n..]
  }

  lemma HoldsNext(now: seq<u32>, was: seq<u32>, before: seq<u32>, regs: seq<u32>, j: nat, read: u32 -> u32)
    requires j < |regs| && Holds(now, was, Captured(before + regs[..j], read)) && 2 * (|before| + j) + 2 <= |now|
    ensures Holds(With(now, 2 * |before| + 2 * j, Entry(regs[j], read(regs[j]))), was,
                  Captured(before + regs[..j + 1], read))
  {
    HoldsSnoc(now, was, Captured(before + regs[..j], read), Entry(regs[j], read(regs[j])));
    CapturedSnoc(before + regs[..j], regs[j], read);
    assert before + regs[..j] + [regs[j]] == before + regs[..j + 1];
  }

  lemma HoldsSnoc(now: seq<u32>, was: seq<u32>, es: seq<Entry>, e: Entry)
    requires Holds(now, was, es) && 2 * |es| + 2 <= |now|
    ensures Holds(With(now, 2 * |es|, e), was, es + [e])
  {
    var n := 2 * |es|;
    var later := With(now, n, e);
    FieldsSnoc(now[..n], e);
    assert later[..n + 2] == now[..n] + [e.id, e.val];
    assert later[n + 2..] == now[n..][2..];
    assert was[n + 2..] == was[n..][2..];
  }

  function NextEntry(ws: seq<u32>, n: nat): Entry {
    if n + 2 <= |ws| then Entry(ws[n], ws[n + 1]) else Entry(0, 0)
  }

  lemma BehindIs(ws: seq<u32>, n: nat)
    requires n % 2 == 0 && n + 2 <= |ws|
    ensures Fields(ws[..n + 2]) == Fields(ws[..n]) + [NextEntry(ws, n)]
  {
  }

  lemma ReplacedIsRewritten(ws: seq<u32>, n: nat, i: nat, select: u32, countable: u32, behind: Entry)
    requires n % 2 == 0 && n <= |ws| && i == Found(Fields(ws[..n]), select) < n / 2 && ws[2 * i] == select
    ensures Fields(With(ws, 2 * i, Entry(select, countable))[..n])
      == Rewritten(Fields(ws[..n]), select, countable, behind)
  {
  }

  lemma Replaced(ws: seq<u32>, n: nat, i: nat, e: Entry)
    requires n % 2 == 0 && n <= |ws| && i < n / 2
    ensures Fields(With(ws, 2 * i, e)[..n]) == Fields(ws[..n])[i := e]
  {
  }

  lemma ReplacedBehind(ws: seq<u32>, n: nat, at: nat, e: Entry)
    requires n <= at && at + 2 <= |ws|
    ensures With(ws, at, e)[..n] == ws[..n]
  {
  }

  lemma OverwrittenIsRewritten(ws: seq<u32>, n: nat, i: nat, select: u32, countable: u32)
    requires n % 2 == 0 && n + 2 <= |ws| && 2 * i + 4 <= |ws| && i == Found(Fields(ws[..n]), select)
    requires i < n / 2 ==> ws[2 * i] != select
    ensures Fields(With(With(ws, 2 * i, Entry(select, countable)), 2 * i + 2, ENABLE)[..n + 2])
      == Rewritten(Fields(ws[..n]), select, countable, NextEntry(ws, n))
  {
    var e := Entry(select, countable);
    BehindIs(ws, n);
    Replaced(ws, n + 2, i, e);
    if i < n / 2 {
      Replaced(With(ws, 2 * i, e), n + 2, i + 1, ENABLE);
    } else {
      ReplacedBehind(With(ws, 2 * i, e), n + 2, 2 * i + 2, ENABLE);
    }
  }

  lemma ConcatTurn(ls: seq<seq<u32>>, i: nat)
    requires i < |ls|
    ensures Concat(ls[..i + 1]) == Concat(ls[..i]) + ls[i]
    ensures |Concat(ls[..i])| + |ls[i]| <= |Concat(ls)|
  {
    assert ls[..i + 1][..i] == ls[..i];
    ConcatGrows(ls, i + 1);
  }

  lemma {:induction false} ConcatGrows(ls: seq<seq<u32>>, i: nat)
    requires i <= |ls|
    ensures |Concat(ls[..i])| <= |Concat(ls)|
    decreases |ls|
  {
    if i < |ls| {
      var n := |ls| - 1;
      ConcatGrows(ls[..n], i);
      assert ls[..n][..i] == ls[..i];
    } else {
      assert ls[..i] == ls;
    }
  }

  lemma FreshOrStale(now: seq<u32>, was: seq<u32>, length: nat, front: seq<Entry>)
    requires Holds(now, was, front + [ENABLE]) && 2 * |front| + 2 <= length <= |now| && length % 2 == 0
    requires forall i :: 0 <= i < |front| ==> front[i].id != A6XX_RBBM_PERFCTR_CNTL
    ensures Sealed(Fields(now[..length])) <==> length == 2 * |front| + 2
    ensures length == 2 * |front| + 2 ==> Fields(now[..length]) == front + [ENABLE]
  {
    var n := 2 * |front| + 2;
    var stale := Fields(now[n..length]);
    assert Fields(now[..length]) == Fields(now[..n]) + stale;
    SealedOnlyIfFresh(Fields(now[..length]), front, stale);
  }

  lemma FoundIs(es: seq<Entry>, select: u32, i: nat)
    requires i <= |es|
    requires forall k :: 0 <= k < i ==> es[k].id != select && es[k].id != A6XX_RBBM_PERFCTR_CNTL
    requires i < |es| ==> es[i].id == select || es[i].id == A6XX_RBBM_PERFCTR_CNTL
    ensures Found(es, select) == i
  {
  }
}
