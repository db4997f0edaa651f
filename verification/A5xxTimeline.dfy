/** The ring side of a5xx_ringbuffer_addcmds, and how timestamps retire over any sequence of calls. */
module A5xxTimeline {
  import opened Words
  import opened Pm4
  import opened Wrappers
  import opened RingSpace
  import opened A5xxSubmission

  const CP_WHERE_AM_I := 0x62

  datatype Ret = Ok | Enoent | Eproto | Enospc

  /** The function-static counter behind the ref_wait_ts writes, one for all rings. */
  class Sequence {
    var value: u32

    constructor ()
      ensures value == 0
    {
      value := 0;
    }
  }

  class SubmitRing {
    const ring: Ring
    const rptrAddr: u64
    const sequence: Sequence
    var timestamp: u32
    ghost var history: seq<Attempt> // the calls that took a timestamp
    ghost var trailer: seq<Packet>  // what stands in the ring behind the last accepted one

    ghost predicate Stamped()
      reads this
    {
      timestamp == Stamp(|history|) && Silent(trailer)
    }

    constructor (ring: Ring, rptrAddr: u64, sequence: Sequence)
      ensures this.ring == ring && this.rptrAddr == rptrAddr && this.sequence == sequence
      ensures timestamp == 0 && history == [] && trailer == [] && Stamped()
    {
      this.ring, this.rptrAddr, this.sequence, timestamp := ring, rptrAddr, sequence, 0;
      history, trailer := [], [];
    }

    /** One call up to the point where the submission is handed to the hardware. A detached context or
        a pending fault changes nothing; a full ring costs a timestamp but no words. Otherwise the CP has
        to read what it had to read before and behind it the packets added, which with what stood behind
        the last submission are the history's last block; the write position is exactly behind them, and
        however far the CP reads on, there is room for the trailer. */
    method AddCmds(e: Env, c: Call, detached: bool, gpuFault: bool, payload: seq<u32>, rptr: nat, ghost pl: seq<Packet>)
      returns (ret: Ret, start: nat, ghost added: seq<Packet>)
      requires ring.Valid() && rptr < RB_DWORDS && Stamped()
      requires CallOk(c) && AllWellFormed(Modern, pl) && payload == Encode(Modern, pl)
      modifies this, ring, sequence
      ensures ring.Valid() && ring.wptr == old(ring.wptr) && Stamped()
      ensures ret == (if detached then Enoent else if gpuFault then Eproto
                      else if Fits(rptr, old(ring.nextWptr), A5XX_SUBMIT_MAX + |payload|) then Ok else Enospc)
      ensures sequence.value == if ret == Ok then Inc(old(sequence.value)) else old(sequence.value)
      ensures ret == Enoent || ret == Eproto ==> history == old(history)
      ensures ret == Enospc ==> history == old(history) + [Attempt(c, pl, false, sequence.value, [])]
      ensures ret != Ok ==>
        added == [] && trailer == old(trailer) && ring.words == old(ring.words) && ring.nextWptr == old(ring.nextWptr)
      ensures ret == Ok ==>
        && trailer == [] && start <= ring.nextWptr <= start + A5XX_SUBMIT_MAX - 3 + |payload|
        && history == old(history) + [Attempt(c, pl, true, sequence.value, old(trailer)
             + Skip(old(ring.words), rptr, old(ring.nextWptr), A5XX_SUBMIT_MAX + |payload|))]
        && LastBlock(e, history) == old(trailer) + added && AllWellFormed(Modern, added)
        && ToRead(ring.words, rptr, ring.nextWptr)
           == ToRead(old(ring.words), rptr, old(ring.nextWptr)) + Encode(Modern, added)
        && RoomBehind(rptr, ring.nextWptr)
    {
      start, added := 0, [];
      if detached {
        return Enoent, start, added;
      }
      if gpuFault {
        return Eproto, start, added;
      }
      NextStamp(|history|);
      timestamp := Inc(timestamp);
      ret, start, added := Enqueue(e, c, payload, rptr, pl);
    }

    /** The part behind the timestamp. */
    method Enqueue(e: Env, c: Call, payload: seq<u32>, rptr: nat, ghost pl: seq<Packet>)
      returns (ret: Ret, start: nat, ghost added: seq<Packet>)
      requires ring.Valid() && rptr < RB_DWORDS && timestamp == Stamp(|history| + 1)
      requires CallOk(c) && AllWellFormed(Modern, pl) && payload == Encode(Modern, pl)
      modifies this`history, this`trailer, ring`words, ring`nextWptr, sequence
      ensures ring.Valid() && |history| == |old(history)| + 1
      ensures ret == if Fits(rptr, old(ring.nextWptr), A5XX_SUBMIT_MAX + |payload|) then Ok else Enospc
      ensures sequence.value == if ret == Ok then Inc(old(sequence.value)) else old(sequence.value)
      ensures ret == Enospc ==> history == old(history) + [Attempt(c, pl, false, sequence.value, [])]
      ensures ret != Ok ==>
        added == [] && trailer == old(trailer) && ring.words == old(ring.words) && ring.nextWptr == old(ring.nextWptr)
      ensures ret == Ok ==>
        && trailer == [] && start <= ring.nextWptr <= start + A5XX_SUBMIT_MAX - 3 + |payload|
        && history == old(history) + [Attempt(c, pl, true, sequence.value, old(trailer)
             + Skip(old(ring.words), rptr, old(ring.nextWptr), A5XX_SUBMIT_MAX + |payload|))]
        && LastBlock(e, history) == old(trailer) + added && AllWellFormed(Modern, added)
        && ToRead(ring.words, rptr, ring.nextWptr)
           == ToRead(old(ring.words), rptr, old(ring.nextWptr)) + Encode(Modern, added)
        && RoomBehind(rptr, ring.nextWptr)
    {
      start, added := 0, [];
      var size := A5XX_SUBMIT_MAX + |payload|;
      ghost var words, wptr := ring.words, ring.nextWptr;
      var at := ring.AllocSpace(Modern, rptr, size);
      if at.None? {
        history := history + [Attempt(c, pl, false, sequence.value, [])];
        return Enospc, start, added;
      }
      start := at.value;
      added := PutSubmission(e, c, payload, start, rptr, size, pl, words, wptr);
      ret := Ok;
      RoomForTrailer(rptr, wptr, size, ring.nextWptr - start, ring.nextWptr);
    }

    /** Once the space is there: number the submission, write it, give back what it did not need. words and
        wptr are the ring before the allocation. */
    method PutSubmission(e: Env, c: Call, payload: seq<u32>, start: nat, rptr: nat, size: nat, ghost pl: seq<Packet>,
                         ghost words: seq<u32>, ghost wptr: nat)
      returns (ghost added: seq<Packet>)
      requires ring.Valid() && ring.nextWptr == start + size && size == A5XX_SUBMIT_MAX + |payload|
      requires |words| == RB_DWORDS && rptr < RB_DWORDS && wptr <= RB_DWORDS - 2 && Fits(rptr, wptr, size)
      requires ring.words == Prepared(Modern, words, rptr, wptr, size)
      requires start == if FitsHere(rptr, wptr, size) then wptr else 0
      requires CallOk(c) && AllWellFormed(Modern, pl) && payload == Encode(Modern, pl)
      requires timestamp == Stamp(|history| + 1)
      modifies this`history, this`trailer, ring`words, ring`nextWptr, sequence
      ensures ring.Valid() && sequence.value == Inc(old(sequence.value)) && trailer == []
      ensures history
        == old(history) + [Attempt(c, pl, true, sequence.value, old(trailer) + Skip(words, rptr, wptr, size))]
      ensures start <= ring.nextWptr <= start + size - 3
      ensures LastBlock(e, history) == old(trailer) + added && AllWellFormed(Modern, added)
      ensures ToRead(ring.words, rptr, ring.nextWptr) == ToRead(words, rptr, wptr) + Encode(Modern, added)
    {
      ghost var skip, before := Skip(words, rptr, wptr, size), trailer;
      var cmds := NumberSubmission(e, c, payload, pl, skip);
      ring.Commit(start, size, cmds);
      ghost var n := sequence.value;
      ghost var a := Attempt(c, pl, true, n, before + skip);
      added := skip + Submission(e, c, pl, timestamp, n);
      ToReadGrows(Modern, words, rptr, wptr, size, cmds);
      BlockBehindSkip(e, before, skip, a, timestamp, ToRead(words, rptr, wptr), cmds);
      LastOf(e, old(history), a);
    }

    /** Takes the next sequence number; skip is what the allocation has put in front. */
    method NumberSubmission(e: Env, c: Call, payload: seq<u32>, ghost pl: seq<Packet>, ghost skip: seq<Packet>)
      returns (cmds: seq<u32>)
      requires CallOk(c) && AllWellFormed(Modern, pl) && payload == Encode(Modern, pl)
      modifies this`history, this`trailer, sequence
      ensures sequence.value == Inc(old(sequence.value)) && trailer == []
      ensures history == old(history) + [Attempt(c, pl, true, sequence.value, old(trailer) + skip)]
      ensures AllWellFormed(Modern, Submission(e, c, pl, timestamp, sequence.value))
      ensures cmds == Encode(Modern, Submission(e, c, pl, timestamp, sequence.value))
      ensures |cmds| + 3 <= A5XX_SUBMIT_MAX + |payload|
    {
      var n := Inc(sequence.value);
      sequence.value := n;
      cmds := WriteSubmission(e, c, payload, timestamp, n, pl);
      history := history + [Attempt(c, pl, true, n, trailer + skip)];
      trailer := [];
    }

    /** a5xx_ringbuffer_submit without the doorbell: the driver's write pointer follows what was
        written; without preemption a CP_WHERE_AM_I goes in first. The result is an error, and the
        pointer stays behind, exactly when that trailer finds no room. */
    method RingbufferSubmit(sync: bool, rptr: nat) returns (ret: Ret, ghost added: seq<Packet>)
      requires ring.Valid() && rptr < RB_DWORDS && Stamped()
      modifies this`trailer, ring
      ensures ring.Valid() && Stamped() && trailer == old(trailer) + added
      ensures ret == if sync && !Fits(rptr, old(ring.nextWptr), 3) then Enospc else Ok
      ensures ret == Ok ==> ring.wptr == ring.nextWptr
      ensures ret != Ok ==> ring.wptr == old(ring.wptr)
      ensures !sync || ret != Ok ==> added == [] && ring.nextWptr == old(ring.nextWptr) && ring.words == old(ring.words)
      ensures sync && ret == Ok ==> added != [] && added[|added| - 1] == WhereAmI(rptrAddr)
      ensures AllWellFormed(Modern, added)
      ensures ToRead(ring.words, rptr, ring.nextWptr)
        == ToRead(old(ring.words), rptr, old(ring.nextWptr)) + Encode(Modern, added)
    {
      added := [];
      assert trailer + added == trailer;
      ghost var words, wptr := ring.words, ring.nextWptr;
      assert ToRead(words, rptr, wptr) + Encode(Modern, added) == ToRead(words, rptr, wptr);
      if sync {
        var at := ring.AllocSpace(Modern, rptr, 3);
        if at.None? {
          return Enospc, added;
        }
        added := PutTrailer(at.value, rptr, words, wptr);
      }
      ring.wptr := ring.nextWptr;
      return Ok, added;
    }

    method PutTrailer(start: nat, rptr: nat, ghost words: seq<u32>, ghost wptr: nat) returns (ghost added: seq<Packet>)
      requires ring.Valid() && ring.nextWptr == start + 3 && Silent(trailer)
      requires |words| == RB_DWORDS && rptr < RB_DWORDS && wptr <= RB_DWORDS - 2 && Fits(rptr, wptr, 3)
      requires ring.words == Prepared(Modern, words, rptr, wptr, 3)
      requires start == if FitsHere(rptr, wptr, 3) then wptr else 0
      modifies this`trailer, ring`words
      ensures ring.Valid() && trailer == old(trailer) + added && Silent(trailer)
      ensures added != [] && added[|added| - 1] == WhereAmI(rptrAddr) && AllWellFormed(Modern, added)
      ensures ToRead(ring.words, rptr, ring.nextWptr) == ToRead(words, rptr, wptr) + Encode(Modern, added)
    {
      var ws := [Type7(CP_WHERE_AM_I, 2), Lower32(rptrAddr), Upper32(rptrAddr)];
      ring.Write(start, ws);
      ghost var skip := Skip(words, rptr, wptr, 3);
      ToReadGrows(Modern, words, rptr, wptr, 3, ws);
      TrailerBehindSkip(skip, rptrAddr, ToRead(words, rptr, wptr), ws);
      added := skip + [WhereAmI(rptrAddr)];
      trailer := trailer + added;
    }
  }

  lemma LastOf(e: Env, h: seq<Attempt>, a: Attempt)
    requires CallOk(a.call) && a.accepted
    ensures LastBlock(e, h + [a]) == a.fill + Submission(e, a.call, a.payload, Stamp(|h| + 1), a.sequence)
  {
    var hh := h + [a];
    assert |hh| == |h| + 1 && hh[|hh| - 1] == a;
  }

  function WhereAmI(addr: u64): Packet { Op(CP_WHERE_AM_I, [Lower32(addr), Upper32(addr)]) }

  lemma TrailerBehindSkip(skip: seq<Packet>, addr: u64, before: seq<u32>, ws: seq<u32>)
    requires AllWellFormed(Modern, skip) && ws == [Type7(CP_WHERE_AM_I, 2), Lower32(addr), Upper32(addr)]
    ensures AllWellFormed(Modern, skip + [WhereAmI(addr)])
    ensures before + Encode(Modern, skip) + ws == before + Encode(Modern, skip + [WhereAmI(addr)])
  {
    EncodeSnoc(Modern, skip, WhereAmI(addr));
    assert EncodeOne(Modern, WhereAmI(addr)) == ws;
    Assoc(before, Encode(Modern, skip), ws);
  }

  lemma BlockBehindSkip(e: Env, trailer: seq<Packet>, skip: seq<Packet>, a: Attempt, ts: u32,
                        before: seq<u32>, ws: seq<u32>)
    requires CallOk(a.call) && AllWellFormed(Modern, skip)
    requires AllWellFormed(Modern, Submission(e, a.call, a.payload, ts, a.sequence))
    requires ws == Encode(Modern, Submission(e, a.call, a.payload, ts, a.sequence))
    ensures var block := Submission(e, a.call, a.payload, ts, a.sequence);
      && AllWellFormed(Modern, skip + block) && trailer + skip + block == trailer + (skip + block)
      && before + Encode(Modern, skip) + ws == before + Encode(Modern, skip + block)
  {
    var block := Submission(e, a.call, a.payload, ts, a.sequence);
    EncodeAppend(Modern, skip, block);
    Assoc(trailer, skip, block);
    Assoc(before, Encode(Modern, skip), ws);
  }

  lemma RoomForTrailer(rptr: nat, wptr: nat, size: nat, index: nat, wptr': nat)
    requires rptr < RB_DWORDS && wptr <= RB_DWORDS - 2 && index + 3 <= size && Fits(rptr, wptr, size)
    requires wptr' == (if FitsHere(rptr, wptr, size) then wptr else 0) + index
    ensures RoomBehind(rptr, wptr')
  {
    forall r | 0 <= r < RB_DWORDS && Advanced(rptr, wptr', r) ensures Fits(r, wptr', 3) {
      TrailerFits(rptr, wptr, size, index, r);
    }
  }

  /** A u32 counter that has been incremented n times. */
  function Stamp(n: nat): u32 { n % TWO32 }

  lemma NextStamp(n: nat)
    ensures Stamp(n + 1) == Inc(Stamp(n))
  {
  }

  predicate Fits(rptr: nat, wptr: nat, dwords: nat) { FitsHere(rptr, wptr, dwords) || FitsAtStart(rptr, wptr, dwords) }

  /** The CP has read on from rptr, at most up to wptr. */
  predicate Advanced(rptr: nat, wptr: nat, r: nat) { r == rptr || Unread(rptr, wptr, r) || r == wptr }

  /** However far the CP reads on from rptr, a trailer fits behind wptr. */
  ghost predicate RoomBehind(rptr: nat, wptr: nat) {
    forall r :: 0 <= r < RB_DWORDS && Advanced(rptr, wptr, r) ==> Fits(r, wptr, 3)
  }

  // ---------------------------------------------------------------- timestamps

  /** One call that got past the detached and fault checks; accepted when the ring had room; sequence is
      what the shared counter stood at; fill is what stands in the ring between the submission before and
      this one. */
  datatype Attempt = Attempt(call: Call, payload: seq<Packet>, accepted: bool, sequence: u32, fill: seq<Packet>)

  /** NOPs that skip the end of the buffer, and trailers. */
  predicate Silent(ps: seq<Packet>) {
    forall p :: p in ps ==> p.Op? && (p.op == CP_NOP || p.op == CP_WHERE_AM_I)
  }

  /** The dwords the submission writes are all different, and the payload leaves the two ring
      timestamps alone. */
  ghost predicate Separate(e: Env, a: Attempt) {
    && CallOk(a.call)
    && e.sop != e.eop && e.refWait != e.sop && e.refWait != e.eop
    && (a.call.ctx.Some? ==>
          var x := a.call.ctx.value;
          x.sop != e.sop && x.sop != e.eop && x.eop != e.sop && x.eop != e.eop)
    && Untouched(a.payload, e.sop) && Untouched(a.payload, e.eop) && Silent(a.fill)
  }

  ghost predicate Untouched(ps: seq<Packet>, a: u64) { forall p :: p in ps ==> Stores(p, a) == None }

  ghost predicate History(e: Env, h: seq<Attempt>) {
    |h| < TWO32 && forall i :: 0 <= i < |h| ==> Separate(e, h[i])
  }

  /** What the accepted calls have put into the ring, in order. */
  ghost function Stream(e: Env, h: seq<Attempt>): seq<Packet>
    requires History(e, h)
  {
    if h == [] then []
    else Stream(e, h[..|h| - 1]) + LastBlock(e, h)
  }

  /** What the last call put into the ring: it has the timestamp |h|. */
  ghost function LastBlock(e: Env, h: seq<Attempt>): seq<Packet>
    requires h != [] && CallOk(h[|h| - 1].call)
  {
    var a := h[|h| - 1];
    if a.accepted then a.fill + Submission(e, a.call, a.payload, Stamp(|h|), a.sequence) else []
  }

  /** The timestamp of the last accepted attempt. */
  ghost function LastStamp(h: seq<Attempt>): nat {
    if h == [] then 0 else if h[|h| - 1].accepted then |h| else LastStamp(h[..|h| - 1])
  }

  ghost function Sop(e: Env, ps: seq<Packet>): u32 { CellAfter(ps, e.sop, 0) }
  ghost function Eop(e: Env, ps: seq<Packet>): u32 { CellAfter(ps, e.eop, 0) }

  /** A run of packets with a single store to a: the cell changes exactly there. */
  lemma OneStore(before: seq<Packet>, w: Packet, after: seq<Packet>, a: u64, v: u32, k: nat)
    requires Untouched(before, a) && Untouched(after, a) && Stores(w, a).Some?
    requires k <= |before| + 1 + |after|
    ensures CellAfter((before + ([w] + after))[..k], a, v) == if k <= |before| then v else Stores(w, a).value
  {
    var ps := before + ([w] + after);
    if k <= |before| {
      assert ps[..k] == before[..k];
      CellUntouched(before[..k], a, v);
    } else {
      var rest := after[..k - |before| - 1];
      assert ps[..k] == before + ([w] + rest);
      CellAppend(before, [w] + rest, a, v);
      CellUntouched(before, a, v);
      CellAppend([w], rest, a, v);
      assert [w][1..] == [];
      assert CellAfter([w], a, v) == CellAfter([w][1..], a, CellStep(w, a, v));
      CellUntouched(rest, a, Stores(w, a).value);
    }
  }

  lemma StoresOfMemWrite(b: u64, v: u32, a: u64)
    ensures Stores(MemWrite(b, v), a) == if a == b then Some(v) else None
  {
    JoinSplit(b);
  }

  lemma StoresOfFlushTs(b: u64, v: u32, irq: bool, a: u64)
    ensures Stores(FlushTs(b, v, irq), a) == if a == b then Some(v) else None
  {
    JoinSplit(b);
  }

  /** Nothing but the two ring timestamp writes touches either timestamp. */
  lemma OthersUntouched(e: Env, a: Attempt, sequence: u32, x: u64)
    requires Separate(e, a) && (x == e.sop || x == e.eop)
    ensures Untouched(Lead(e, a.call), x) && Untouched(Open(a.call), x)
    ensures Untouched(Close(e, a.call, sequence), x) && Untouched(Trail(e, a.call), x)
  {
    var c := a.call;
    StoresOfMemWrite(e.refWait, sequence, x);
    if c.ctx.Some? {
      StoresOfMemWrite(c.ctx.value.sop, c.ts, x);
      StoresOfFlushTs(c.ctx.value.eop, c.ts, true, x);
    }
    LeadUntouched(e, c, x);
    FlushUntouched(e, c, sequence, x);
    ModesUntouched(e, c, x);
  }

  lemma ModesUntouched(e: Env, c: Call, x: u64)
    ensures Untouched(Open(c), x) && Untouched(Trail(e, c), x)
  {
  }

  lemma LeadUntouched(e: Env, c: Call, x: u64)
    requires CallOk(c) && Untouched(CtxSop(c), x)
    ensures Untouched(Lead(e, c), x)
  {
    assert Untouched(OptIb(c.preIb), x);
    assert Untouched(SaveAddr(e), x);
    assert Untouched(PreIbSubmit(e, c.ctx), x);
  }

  lemma FlushUntouched(e: Env, c: Call, sequence: u32, x: u64)
    requires CallOk(c) && Untouched(CtxEop(c), x) && Stores(MemWrite(e.refWait, sequence), x) == None
    ensures Untouched(Close(e, c, sequence), x)
  {
    assert Untouched(OptIb(c.postIb), x);
    assert Untouched(Flush(e, c, sequence), x);
  }

  /** Inside one submission both timestamps switch to its own, sop first. */
  lemma BlockCells(e: Env, a: Attempt, ts: u32, sequence: u32, s: u32, v: u32, k: nat)
    requires Separate(e, a) && k <= |Submission(e, a.call, a.payload, ts, sequence)|
    ensures var ps := Submission(e, a.call, a.payload, ts, sequence)[..k];
      var n := |Lead(e, a.call)|;
      var m := n + 1 + |Open(a.call)| + |a.payload| + |Close(e, a.call, sequence)|;
      && n < m < |Submission(e, a.call, a.payload, ts, sequence)|
      && CellAfter(ps, e.sop, s) == (if k <= n then s else ts)
      && CellAfter(ps, e.eop, v) == (if k <= m then v else ts)
  {
    var c, pl := a.call, a.payload;
    OthersUntouched(e, a, sequence, e.sop);
    OthersUntouched(e, a, sequence, e.eop);
    StoresOfMemWrite(e.sop, ts, e.sop);
    StoresOfMemWrite(e.sop, ts, e.eop);
    StoresOfFlushTs(e.eop, ts, c.ctx.None?, e.sop);
    StoresOfFlushTs(e.eop, ts, c.ctx.None?, e.eop);
    var l, o, d, t := Lead(e, c), Open(c), Close(e, c, sequence), Trail(e, c);
    OneStore(l, SopWrite(e, ts), o + (pl + (d + ([EopWrite(e, c, ts)] + t))), e.sop, s, k);
    Regroup(l, [SopWrite(e, ts)], o, pl, d, [EopWrite(e, c, ts)] + t);
    OneStore(l + ([SopWrite(e, ts)] + (o + (pl + d))), EopWrite(e, c, ts), t, e.eop, v, k);
  }

  lemma Regroup<T>(a: seq<T>, s: seq<T>, o: seq<T>, p: seq<T>, d: seq<T>, t: seq<T>)
    ensures a + (s + (o + (p + (d + t)))) == a + (s + (o + (p + d))) + t
  {
  }

  lemma BlockAppend(e: Env, ps: seq<Packet>, qs: seq<Packet>, k: nat, a: u64)
    requires |ps| <= k <= |ps| + |qs|
    ensures CellAfter((ps + qs)[..k], a, 0) == CellAfter(qs[..k - |ps|], a, CellAfter(ps, a, 0))
  {
    assert (ps + qs)[..k] == ps + qs[..k - |ps|];
    CellAppend(ps, qs[..k - |ps|], a, 0);
  }

  lemma HistoryPrefix(e: Env, h: seq<Attempt>)
    requires History(e, h) && h != []
    ensures History(e, h[..|h| - 1]) && LastStamp(h[..|h| - 1]) < |h|
  {
    LastStampBound(h[..|h| - 1]);
  }

  lemma {:induction false} LastStampBound(h: seq<Attempt>)
    ensures LastStamp(h) <= |h|
    decreases |h|
  {
    if h != [] {
      LastStampBound(h[..|h| - 1]);
    }
  }

  /** Where, inside the last submission, the two timestamps switch over. */
  ghost function SopAt(e: Env, h: seq<Attempt>): nat
    requires History(e, h) && h != []
  {
    |h[|h| - 1].fill| + |Lead(e, h[|h| - 1].call)|
  }

  ghost function EopAt(e: Env, h: seq<Attempt>): nat
    requires History(e, h) && h != []
  {
    var a := h[|h| - 1];
    SopAt(e, h) + 1 + |Open(a.call)| + |a.payload| + |Close(e, a.call, a.sequence)|
  }

  /** The timestamps once execution has reached the last attempt's packets. */
  lemma StreamCells(e: Env, h: seq<Attempt>, k: nat)
    requires History(e, h) && h != [] && History(e, h[..|h| - 1])
    requires |Stream(e, h[..|h| - 1])| <= k <= |Stream(e, h)|
    ensures var h', n := h[..|h| - 1], |Stream(e, h[..|h| - 1])|;
      var s, v := Sop(e, Stream(e, h')), Eop(e, Stream(e, h'));
      && SopAt(e, h) < EopAt(e, h)
      && Sop(e, Stream(e, h)[..k]) == (if h[|h| - 1].accepted && k - n > SopAt(e, h) then |h| else s)
      && Eop(e, Stream(e, h)[..k]) == (if h[|h| - 1].accepted && k - n > EopAt(e, h) then |h| else v)
      && (h[|h| - 1].accepted ==> EopAt(e, h) < |LastBlock(e, h)|)
  {
    InLastBlock(e, h, k, e.sop);
    InLastBlock(e, h, k, e.eop);
    if h[|h| - 1].accepted {
      AcceptedCells(e, h, k);
    }
  }

  lemma AcceptedCells(e: Env, h: seq<Attempt>, k: nat)
    requires History(e, h) && h != [] && History(e, h[..|h| - 1]) && h[|h| - 1].accepted
    requires |Stream(e, h[..|h| - 1])| <= k <= |Stream(e, h)|
    ensures var ps := Stream(e, h[..|h| - 1]);
      && SopAt(e, h) < EopAt(e, h) < |LastBlock(e, h)|
      && Sop(e, Stream(e, h)[..k]) == (if k - |ps| > SopAt(e, h) then |h| else Sop(e, ps))
      && Eop(e, Stream(e, h)[..k]) == (if k - |ps| > EopAt(e, h) then |h| else Eop(e, ps))
  {
    var ps := Stream(e, h[..|h| - 1]);
    InLastBlock(e, h, k, e.sop);
    InLastBlock(e, h, k, e.eop);
    LastBlockCells(e, h, Sop(e, ps), Eop(e, ps), k - |ps|);
  }

  lemma InLastBlock(e: Env, h: seq<Attempt>, k: nat, a: u64)
    requires History(e, h) && h != [] && History(e, h[..|h| - 1])
    requires |Stream(e, h[..|h| - 1])| <= k <= |Stream(e, h)|
    ensures var ps, qs := Stream(e, h[..|h| - 1]), LastBlock(e, h);
      && |Stream(e, h)| == |ps| + |qs|
      && CellAfter(Stream(e, h)[..k], a, 0) == CellAfter(qs[..k - |ps|], a, CellAfter(ps, a, 0))
      && (!h[|h| - 1].accepted ==> CellAfter(Stream(e, h)[..k], a, 0) == CellAfter(ps, a, 0))
  {
    var ps, qs := Stream(e, h[..|h| - 1]), LastBlock(e, h);
    assert Stream(e, h) == ps + qs;
    BlockAppend(e, ps, qs, k, a);
  }

  lemma LastBlockCells(e: Env, h: seq<Attempt>, s: u32, v: u32, k: nat)
    requires History(e, h) && h != [] && h[|h| - 1].accepted && k <= |LastBlock(e, h)|
    ensures SopAt(e, h) < EopAt(e, h) < |LastBlock(e, h)|
    ensures CellAfter(LastBlock(e, h)[..k], e.sop, s) == if k > SopAt(e, h) then |h| else s
    ensures CellAfter(LastBlock(e, h)[..k], e.eop, v) == if k > EopAt(e, h) then |h| else v
  {
    var a := h[|h| - 1];
    assert Separate(e, a);
    SmallStamp(|h|);
    var fill, block := a.fill, Submission(e, a.call, a.payload, Stamp(|h|), a.sequence);
    FillCells(fill, block, e.sop, s, k);
    FillCells(fill, block, e.eop, v, k);
    BlockCells(e, a, Stamp(|h|), a.sequence, s, v, if k < |fill| then 0 else k - |fill|);
  }

  /** What stands in front of a block changes nothing. */
  lemma FillCells(fill: seq<Packet>, block: seq<Packet>, a: u64, v: u32, k: nat)
    requires Silent(fill) && k <= |fill| + |block|
    ensures CellAfter((fill + block)[..k], a, v) == if k <= |fill| then v else CellAfter(block[..k - |fill|], a, v)
  {
    if k <= |fill| {
      assert (fill + block)[..k] == fill[..k];
      CellUntouched(fill[..k], a, v);
    } else {
      assert (fill + block)[..k] == fill + block[..k - |fill|];
      CellAppend(fill, block[..k - |fill|], a, v);
      CellUntouched(fill, a, v);
    }
  }

  lemma StreamPrefix(e: Env, h: seq<Attempt>, k: nat)
    requires History(e, h) && h != [] && History(e, h[..|h| - 1]) && k <= |Stream(e, h[..|h| - 1])|
    ensures |Stream(e, h[..|h| - 1])| <= |Stream(e, h)|
    ensures Stream(e, h)[..k] == Stream(e, h[..|h| - 1])[..k]
  {
  }

  /** When the CP has executed everything, both timestamps stand at the last accepted submission. */
  lemma {:induction false} FullyRetired(e: Env, h: seq<Attempt>)
    requires History(e, h)
    ensures Sop(e, Stream(e, h)) == Eop(e, Stream(e, h)) == LastStamp(h)
    decreases |h|
  {
    if h != [] {
      HistoryPrefix(e, h);
      FullyRetired(e, h[..|h| - 1]);
      var n := |Stream(e, h)|;
      assert Stream(e, h)[..n] == Stream(e, h);
      StreamPrefix(e, h, 0);
      StreamCells(e, h, n);
    }
  }

  /** Retiring in order: after any number k of executed packets eop <= sop <= the ring's timestamp, and
      in fact at most the last accepted one. */
  lemma {:induction false} TimestampsOrdered(e: Env, h: seq<Attempt>, k: nat)
    requires History(e, h) && k <= |Stream(e, h)|
    ensures Eop(e, Stream(e, h)[..k]) <= Sop(e, Stream(e, h)[..k]) <= LastStamp(h) <= |h|
    decreases |h|
  {
    LastStampBound(h);
    if h != [] {
      HistoryPrefix(e, h);
      var h' := h[..|h| - 1];
      if k <= |Stream(e, h')| {
        StreamPrefix(e, h, k);
        TimestampsOrdered(e, h', k);
      } else {
        FullyRetired(e, h');
        StreamCells(e, h, k);
      }
    }
  }

  /** Both timestamps only grow as the CP goes on. */
  lemma {:induction false} TimestampsGrow(e: Env, h: seq<Attempt>, j: nat, k: nat)
    requires History(e, h) && j <= k <= |Stream(e, h)|
    ensures Sop(e, Stream(e, h)[..j]) <= Sop(e, Stream(e, h)[..k])
    ensures Eop(e, Stream(e, h)[..j]) <= Eop(e, Stream(e, h)[..k])
    decreases |h|
  {
    if h != [] {
      HistoryPrefix(e, h);
      var h' := h[..|h| - 1];
      var n := |Stream(e, h')|;
      if k <= n {
        StreamPrefix(e, h, k);
        StreamPrefix(e, h, j);
        TimestampsGrow(e, h', j, k);
      } else {
        FullyRetired(e, h');
        StreamCells(e, h, k);
        if j <= n {
          StreamPrefix(e, h, j);
          TimestampsOrdered(e, h', j);
        } else {
          StreamCells(e, h, j);
        }
      }
    }
  }

  lemma SmallStamp(n: nat)
    requires n < TWO32
    ensures Stamp(n) == n
  {
  }

  lemma LastRetires(e: Env, h: seq<Attempt>)
    requires History(e, h)
    ensures h != [] && h[|h| - 1].accepted ==> Eop(e, Stream(e, h)) == |h|
  {
    FullyRetired(e, h);
  }

  /** Across any sequence of calls, failed allocations included, at every point j <= k of CP execution. For
      the history of a SubmitRing, whose words are these blocks, Stamp(|h|) is its timestamp. */
  lemma TimestampsRetireInOrder(e: Env, h: seq<Attempt>, j: nat, k: nat)
    requires History(e, h) && j <= k <= |Stream(e, h)|
    ensures Eop(e, Stream(e, h)[..k]) <= Sop(e, Stream(e, h)[..k]) <= Stamp(|h|)
    ensures Sop(e, Stream(e, h)[..j]) <= Sop(e, Stream(e, h)[..k])
    ensures Eop(e, Stream(e, h)[..j]) <= Eop(e, Stream(e, h)[..k])
    ensures h != [] && h[|h| - 1].accepted ==> Eop(e, Stream(e, h)) == Stamp(|h|)
  {
    SmallStamp(|h|);
    TimestampsOrdered(e, h, k);
    TimestampsGrow(e, h, j, k);
    LastRetires(e, h);
  }

  // ---------------------------------------------------------------- what the CP reads

  /** A CP that has executed the first k packets of ps has to read exactly the others. */
  ghost predicate Pending(words: seq<u32>, rptr: nat, wptr: nat, ps: seq<Packet>, k: nat)
    requires |words| == RB_DWORDS && rptr < RB_DWORDS && wptr < RB_DWORDS
  {
    k <= |ps| && AllWellFormed(Modern, ps[k..]) && ToRead(words, rptr, wptr) == Encode(Modern, ps[k..])
  }

  /** Whatever a call adds comes behind everything pending. */
  lemma PendingGrows(words: seq<u32>, wptr: nat, words': seq<u32>, wptr': nat, rptr: nat,
                     ps: seq<Packet>, added: seq<Packet>, k: nat)
    requires |words| == |words'| == RB_DWORDS && rptr < RB_DWORDS && wptr < RB_DWORDS && wptr' < RB_DWORDS
    requires Pending(words, rptr, wptr, ps, k) && AllWellFormed(Modern, added)
    requires ToRead(words', rptr, wptr') == ToRead(words, rptr, wptr) + Encode(Modern, added)
    ensures Pending(words', rptr, wptr', ps + added, k)
  {
    EncodeAppend(Modern, ps[k..], added);
    assert (ps + added)[k..] == ps[k..] + added;
  }

  /** Executing a packet moves the read position around the buffer, past its words. */
  lemma PendingShrinks(words: seq<u32>, rptr: nat, wptr: nat, ps: seq<Packet>, k: nat)
    requires |words| == RB_DWORDS && rptr < RB_DWORDS && wptr < RB_DWORDS && k < |ps|
    requires Pending(words, rptr, wptr, ps, k)
    ensures rptr + 1 + |ps[k].payload| < 2 * RB_DWORDS
    ensures Pending(words, Around(rptr + 1 + |ps[k].payload|), wptr, ps, k + 1)
  {
    var p, rest := ps[k], ps[k + 1..];
    assert ps[k..] == [p] + rest && ps[k..][0] == p && ps[k..][1..] == rest;
    assert AllWellFormed(Modern, rest) by {
      forall q | q in rest ensures WellFormed(Modern, q) {
        assert q in ps[k..];
      }
    }
    assert Encode(Modern, ps[k..]) == EncodeOne(Modern, p) + Encode(Modern, rest);
    ReadOn(words, rptr, wptr, 1 + |p.payload|);
  }

  /** So after an accepted call the CP, wherever it stands in what was in the ring, has exactly the rest of
      the history's stream to read; the timestamps of TimestampsRetireInOrder are those it writes. */
  lemma RingHoldsStream(e: Env, h: seq<Attempt>, a: Attempt, trailer: seq<Packet>, added: seq<Packet>,
                        words: seq<u32>, wptr: nat, words': seq<u32>, wptr': nat, rptr: nat, k: nat)
    requires |words| == |words'| == RB_DWORDS && rptr < RB_DWORDS && wptr < RB_DWORDS && wptr' < RB_DWORDS
    requires History(e, h) && History(e, h + [a]) && LastBlock(e, h + [a]) == trailer + added
    requires AllWellFormed(Modern, added) && Pending(words, rptr, wptr, Stream(e, h) + trailer, k)
    requires ToRead(words', rptr, wptr') == ToRead(words, rptr, wptr) + Encode(Modern, added)
    ensures Pending(words', rptr, wptr', Stream(e, h + [a]), k)
  {
    PendingGrows(words, wptr, words', wptr', rptr, Stream(e, h) + trailer, added, k);
    assert (h + [a])[..|h|] == h;
    Assoc(Stream(e, h), trailer, added);
  }
}
