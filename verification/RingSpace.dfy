/** Space in the circular ring buffer: adreno_ringbuffer_allocspace.

    The buffer holds the dwords the CP has not read, from rptr up to the write position, possibly
    wrapping. An allocation is contiguous; when the end of the buffer is too close, a NOP packet
    swallows the rest and the allocation starts at 0. */
module RingSpace {
  import opened Words
  import opened Pm4
  import opened Wrappers

  const RB_DWORDS := 8192

  /** How many dwords lie between the read and the write position. */
  function Used(rptr: nat, wptr: nat): int
    requires rptr < RB_DWORDS && wptr < RB_DWORDS
  {
    if rptr <= wptr then wptr - rptr else wptr + RB_DWORDS - rptr
  }

  /** Dword k has been submitted and not read. */
  predicate Unread(rptr: nat, wptr: nat, k: nat) {
    if rptr <= wptr then rptr <= k < wptr else rptr <= k || k < wptr
  }

  predicate FitsHere(rptr: nat, wptr: nat, dwords: nat) {
    if rptr <= wptr then wptr + dwords <= RB_DWORDS - 2 else wptr + dwords < rptr
  }

  predicate FitsAtStart(rptr: nat, wptr: nat, dwords: nat) { rptr <= wptr && dwords < rptr }

  class Ring {
    var words: seq<u32>
    var nextWptr: nat      // _wptr
    var wptr: nat

    ghost predicate Valid()
      reads this
    {
      |words| == RB_DWORDS && nextWptr <= RB_DWORDS - 2 && wptr <= RB_DWORDS - 2
    }

    /** Reserves dwords contiguous dwords that hold nothing unread. Afterwards the write position is
        just behind them and has not caught up with the read position, so rptr == wptr keeps
        meaning that everything was read. Fails exactly when neither place is large enough. */
    method AllocSpace(f: Format, rptr: nat, dwords: nat) returns (start: Option<nat>)
      requires Valid() && rptr < RB_DWORDS
      modifies this`words, this`nextWptr
      ensures Valid()
      ensures start.None? <==> !FitsHere(rptr, old(nextWptr), dwords) && !FitsAtStart(rptr, old(nextWptr), dwords)
      ensures start.None? ==> words == old(words) && nextWptr == old(nextWptr)
      ensures start.Some? ==>
        && nextWptr == start.value + dwords
        && (forall k :: start.value <= k < start.value + dwords ==> !Unread(rptr, old(nextWptr), k))
        && Used(rptr, nextWptr) >= Used(rptr, old(nextWptr)) + dwords
        && (forall k :: 0 <= k < RB_DWORDS && Unread(rptr, old(nextWptr), k) ==> words[k] == old(words[k]))
      ensures start.Some? ==> words == Prepared(f, old(words), rptr, old(nextWptr), dwords)
      ensures start.Some? ==> start.value == if FitsHere(rptr, old(nextWptr), dwords) then old(nextWptr) else 0
      ensures start.Some? && !FitsHere(rptr, old(nextWptr), dwords) ==>
        HeadOf(f, words[old(nextWptr)]) == Some(OpHead(CP_NOP, RB_DWORDS - old(nextWptr) - 1))
    {
      if rptr <= nextWptr {
        if nextWptr + dwords <= RB_DWORDS - 2 {
          start := Some(nextWptr);
          nextWptr := (nextWptr + dwords) % RB_DWORDS;
          return;
        }
        if dwords < rptr {
          var w := NopHeader(f, RB_DWORDS - nextWptr - 1);
          words := words[nextWptr := w];
          nextWptr := dwords;
          return Some(0);
        }
      }
      if nextWptr + dwords < rptr {
        start := Some(nextWptr);
        nextWptr := (nextWptr + dwords) % RB_DWORDS;
        return;
      }
      return None;
    }

    /** Hand back what an allocation of size dwords did not use. */
    method Trim(size: nat, index: nat)
      requires Valid() && index <= size <= nextWptr
      modifies this`nextWptr
      ensures Valid() && nextWptr == old(nextWptr) - (size - index)
    {
      nextWptr := nextWptr - (size - index);
    }

    method Write(start: nat, ws: seq<u32>)
      requires Valid() && start + |ws| <= RB_DWORDS
      modifies this`words
      ensures Valid() && words == Overwritten(old(words), start, ws)
    {
      words := words[..start] + ws + words[start + |ws|..];
    }

    /** Fill an allocation of size dwords from its start and hand back the rest. */
    method Commit(start: nat, size: nat, ws: seq<u32>)
      requires Valid() && nextWptr == start + size && |ws| <= size
      modifies this`words, this`nextWptr
      ensures Valid() && nextWptr == start + |ws| && words == Overwritten(old(words), start, ws)
    {
      Write(start, ws);
      Trim(size, |ws|);
    }
  }

  /** The dwords from start on hold nothing unread, end before the last two of the buffer, and do not reach
      or pass the read position. */
  ghost predicate Free(rptr: nat, wptr: nat, start: nat, dwords: nat) {
    && start + dwords <= RB_DWORDS - 2 && !(start < rptr <= start + dwords)
    && forall k :: start <= k < start + dwords ==> !Unread(rptr, wptr, k)
  }

  /** An allocation is refused exactly when neither the dwords at the write position nor those at the start
      of the buffer are free. */
  lemma RefusedIffNothingFree(rptr: nat, wptr: nat, dwords: nat)
    requires rptr < RB_DWORDS && wptr <= RB_DWORDS - 2 && dwords > 0
    ensures FitsHere(rptr, wptr, dwords) || FitsAtStart(rptr, wptr, dwords)
      <==> Free(rptr, wptr, wptr, dwords) || Free(rptr, wptr, 0, dwords)
  {
    if !FitsHere(rptr, wptr, dwords) && !FitsAtStart(rptr, wptr, dwords) {
      assert Unread(rptr, wptr, 0) || !(0 == rptr < wptr);
      if rptr > wptr > 0 {
        assert Unread(rptr, wptr, 0);
      }
    }
  }

  function Overwritten(words: seq<u32>, start: nat, ws: seq<u32>): seq<u32>
    requires start + |ws| <= |words|
  {
    words[..start] + ws + words[start + |ws|..]
  }

  /** The buffer after an allocation: the NOP header in front of the end when it wraps. */
  ghost function Prepared(f: Format, words: seq<u32>, rptr: nat, wptr: nat, dwords: nat): seq<u32>
    requires |words| == RB_DWORDS && wptr <= RB_DWORDS - 2
  {
    if FitsHere(rptr, wptr, dwords) then words else words[wptr := NopHeader(f, RB_DWORDS - wptr - 1)]
  }

  /** The words the CP has still to read, in the order in which it reads them. */
  ghost function ToRead(words: seq<u32>, rptr: nat, wptr: nat): seq<u32>
    requires |words| == RB_DWORDS && rptr < RB_DWORDS && wptr < RB_DWORDS
  {
    if rptr <= wptr then words[rptr..wptr] else words[rptr..] + words[..wptr]
  }

  /** The packet that makes the CP skip the end of the buffer. */
  ghost function Skip(words: seq<u32>, rptr: nat, wptr: nat, dwords: nat): seq<Packet>
    requires |words| == RB_DWORDS && wptr <= RB_DWORDS - 2
  {
    if FitsHere(rptr, wptr, dwords) then [] else [Op(CP_NOP, words[wptr + 1..])]
  }

  lemma SkipWords(f: Format, words: seq<u32>, rptr: nat, wptr: nat, dwords: nat)
    requires |words| == RB_DWORDS && wptr <= RB_DWORDS - 2 && !FitsHere(rptr, wptr, dwords)
    ensures AllWellFormed(f, Skip(words, rptr, wptr, dwords))
    ensures Encode(f, Skip(words, rptr, wptr, dwords)) == Prepared(f, words, rptr, wptr, dwords)[wptr..]
  {
    var p := Op(CP_NOP, words[wptr + 1..]);
    assert [p][1..] == [];
    assert Encode(f, [p]) == EncodeOne(f, p) + Encode(f, []);
    assert EncodeOne(f, p) == [NopHeader(f, RB_DWORDS - wptr - 1)] + words[wptr + 1..];
  }

  /** An allocation of size dwords of which the first are filled with ws: the CP has to read what it had to
      read before, then the packet that skips the end of the buffer, if there is one, then ws. */
  lemma ToReadGrows(f: Format, words: seq<u32>, rptr: nat, wptr: nat, size: nat, ws: seq<u32>)
    requires |words| == RB_DWORDS && rptr < RB_DWORDS && wptr <= RB_DWORDS - 2 && |ws| <= size
    requires FitsHere(rptr, wptr, size) || FitsAtStart(rptr, wptr, size)
    ensures var start := if FitsHere(rptr, wptr, size) then wptr else 0;
      && AllWellFormed(f, Skip(words, rptr, wptr, size)) && start + |ws| < RB_DWORDS
      && ToRead(Overwritten(Prepared(f, words, rptr, wptr, size), start, ws), rptr, start + |ws|)
         == ToRead(words, rptr, wptr) + Encode(f, Skip(words, rptr, wptr, size)) + ws
  {
    if FitsHere(rptr, wptr, size) {
      GrowsHere(words, rptr, wptr, size, ws);
      assert Skip(words, rptr, wptr, size) == [];
      assert ToRead(words, rptr, wptr) + Encode(f, []) == ToRead(words, rptr, wptr);
    } else {
      SkipWords(f, words, rptr, wptr, size);
      GrowsAround(words, Prepared(f, words, rptr, wptr, size), rptr, wptr, ws);
    }
  }

  lemma GrowsHere(words: seq<u32>, rptr: nat, wptr: nat, size: nat, ws: seq<u32>)
    requires |words| == RB_DWORDS && rptr < RB_DWORDS && wptr <= RB_DWORDS - 2 && |ws| <= size
    requires FitsHere(rptr, wptr, size)
    ensures wptr + |ws| < RB_DWORDS
    ensures ToRead(Overwritten(words, wptr, ws), rptr, wptr + |ws|) == ToRead(words, rptr, wptr) + ws
  {
    var now := Overwritten(words, wptr, ws);
    if rptr <= wptr {
      assert now[rptr..wptr + |ws|] == words[rptr..wptr] + ws;
    } else {
      assert now[rptr..] == words[rptr..] && now[..wptr + |ws|] == words[..wptr] + ws;
    }
  }

  lemma GrowsAround(words: seq<u32>, mid: seq<u32>, rptr: nat, wptr: nat, ws: seq<u32>)
    requires |words| == |mid| == RB_DWORDS && rptr <= wptr < RB_DWORDS && |ws| < rptr && mid[..wptr] == words[..wptr]
    ensures ToRead(Overwritten(mid, 0, ws), rptr, |ws|) == ToRead(words, rptr, wptr) + mid[wptr..] + ws
  {
    var now := Overwritten(mid, 0, ws);
    assert now[rptr..] == mid[rptr..] && now[..|ws|] == ws;
    assert mid[rptr..] == mid[rptr..wptr] + mid[wptr..];
    assert mid[rptr..wptr] == mid[..wptr][rptr..] && words[rptr..wptr] == words[..wptr][rptr..];
  }

  /** Reading n words on moves the read position around the buffer and takes them off the front. */
  lemma ReadOn(words: seq<u32>, rptr: nat, wptr: nat, n: nat)
    requires |words| == RB_DWORDS && rptr < RB_DWORDS && wptr < RB_DWORDS && n <= |ToRead(words, rptr, wptr)|
    ensures ToRead(words, Around(rptr + n), wptr) == ToRead(words, rptr, wptr)[n..]
  {
    var r := Around(rptr + n);
    if rptr <= wptr {
      assert words[rptr..wptr][n..] == words[rptr + n..wptr];
    } else if rptr + n < RB_DWORDS {
      assert (words[rptr..] + words[..wptr])[n..] == words[rptr + n..] + words[..wptr];
    } else {
      assert (words[rptr..] + words[..wptr])[n..] == words[r..wptr];
    }
  }

  function Around(k: nat): nat
    requires k < 2 * RB_DWORDS
  {
    if k < RB_DWORDS then k else k - RB_DWORDS
  }

  function NopHeader(f: Format, cnt: nat): (w: u32)
    requires 0 < cnt < RB_DWORDS
    ensures HeadOf(f, w) == Some(OpHead(CP_NOP, cnt))
  {
    var p := Op(CP_NOP, seq(cnt, _ => 0));
    HeadOfHeader(f, p);
    Header(f, p)
  }

  /** The positions of PreemptionProtocol count dwords from the last reset; in the buffer they are taken
      modulo its size. As long as at most RB_DWORDS - 1 dwords are unread, which AllocSpace ensures,
      comparing buffer positions is the same as comparing counts. */
  lemma PositionsAgree(consumed: nat, submitted: nat)
    requires consumed <= submitted < consumed + RB_DWORDS
    ensures consumed % RB_DWORDS == submitted % RB_DWORDS <==> consumed == submitted
    ensures Used(consumed % RB_DWORDS, submitted % RB_DWORDS) == submitted - consumed
  {
  }

  /** After a submission gives back at least three of its dwords, the three dwords of the trailing
      CP_WHERE_AM_I always fit, whatever the CP has read in the meantime, so the unchecked result of
      that allocation is never an error. */
  lemma TrailerFits(rptr: nat, wptr: nat, size: nat, index: nat, rptr': nat)
    requires rptr < RB_DWORDS && rptr' < RB_DWORDS && wptr <= RB_DWORDS - 2
    requires FitsHere(rptr, wptr, size) || FitsAtStart(rptr, wptr, size)
    requires index + 3 <= size
    requires var start := if FitsHere(rptr, wptr, size) then wptr else 0;
      rptr' == rptr || Unread(rptr, start + index, rptr') || rptr' == start + index
    ensures var start := if FitsHere(rptr, wptr, size) then wptr else 0;
      FitsHere(rptr', start + index, 3) || FitsAtStart(rptr', start + index, 3)
  {
  }
}
