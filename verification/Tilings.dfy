/** Reading a sequence of words as a concatenation of items, one after the other.

    A codec says how an item is written and what the first item of some words is. A lawful codec
    reads back what it writes, whatever follows. */
module Tilings {
  import opened Words

  datatype Step<B> = Stop | Take(item: B, n: nat)

  datatype Codec<!B> = Codec(step: seq<u32> -> Step<B>, write: B -> seq<u32>, ok: B -> bool)

  datatype Walked<B> = Walked(items: seq<B>, rest: seq<u32>)

  ghost predicate Sound<B>(c: Codec<B>) {
    forall ws :: c.step(ws).Take? ==> TakesPrefix(c, ws)
  }

  ghost predicate TakesPrefix<B>(c: Codec<B>, ws: seq<u32>)
    requires c.step(ws).Take?
  {
    var s := c.step(ws);
    0 < s.n <= |ws| && c.ok(s.item) && c.write(s.item) == ws[..s.n]
  }

  ghost predicate Complete<B(!new)>(c: Codec<B>) {
    forall b, rest :: c.ok(b) ==> ReadsBack(c, b, rest)
  }

  ghost predicate ReadsBack<B>(c: Codec<B>, b: B, rest: seq<u32>) {
    c.step(c.write(b) + rest) == Take(b, |c.write(b)|)
  }

  ghost predicate AllOk<B>(c: Codec<B>, bs: seq<B>) { forall i :: 0 <= i < |bs| ==> c.ok(bs[i]) }

  /** The items up to the first words that start none. */
  ghost function Walk<B>(c: Codec<B>, ws: seq<u32>): Walked<B>
    requires Sound(c)
    decreases |ws|
  {
    if c.step(ws).Stop? then Walked([], ws)
    else
      assert TakesPrefix(c, ws);
      var w := Walk(c, ws[c.step(ws).n..]);
      Walked([c.step(ws).item] + w.items, w.rest)
  }

  ghost function WriteAll<B>(c: Codec<B>, bs: seq<B>): seq<u32> {
    if bs == [] then [] else c.write(bs[0]) + WriteAll(c, bs[1..])
  }

  lemma WriteCons<B>(c: Codec<B>, b: B, bs: seq<B>, rest: seq<u32>)
    ensures WriteAll(c, [b] + bs) + rest == c.write(b) + (WriteAll(c, bs) + rest)
  {
    assert ([b] + bs)[1..] == bs;
    Assoc(c.write(b), WriteAll(c, bs), rest);
  }

  /** The walk splits the words: well-formed items, then words that start no item. */
  lemma {:induction false} WalkSplits<B>(c: Codec<B>, ws: seq<u32>)
    requires Sound(c)
    ensures AllOk(c, Walk(c, ws).items) && c.step(Walk(c, ws).rest).Stop?
    ensures WriteAll(c, Walk(c, ws).items) + Walk(c, ws).rest == ws
    decreases |ws|
  {
    if c.step(ws).Stop? {
      assert [] + ws == ws;
    } else {
      assert TakesPrefix(c, ws);
      var n := c.step(ws).n;
      var w := Walk(c, ws[n..]);
      WalkSplits(c, ws[n..]);
      WriteCons(c, c.step(ws).item, w.items, w.rest);
      Halves(ws, n);
    }
  }

  lemma Halves(ws: seq<u32>, n: nat)
    requires n <= |ws|
    ensures ws[..n] + ws[n..] == ws
  {
  }

  /** Words written from a list of well-formed items are walked to their end, and the list comes back. */
  lemma {:induction false} WalkReadsBack<B(!new)>(c: Codec<B>, bs: seq<B>)
    requires Sound(c) && Complete(c) && AllOk(c, bs)
    ensures Walk(c, WriteAll(c, bs)) == Walked(bs, [])
    decreases |bs|
  {
    var ws := WriteAll(c, bs);
    if bs == [] {
      assert c.step(ws).Take? ==> TakesPrefix(c, ws);
    } else {
      var rest := WriteAll(c, bs[1..]);
      assert ReadsBack(c, bs[0], rest);
      WalkReadsBack(c, bs[1..]);
      assert ws[|c.write(bs[0])|..] == rest;
      assert [bs[0]] + bs[1..] == bs;
    }
  }

  /** Whatever follows them, well-formed items at the front are walked over first. */
  lemma {:induction false} WalkPassesItems<B(!new)>(c: Codec<B>, bs: seq<B>, rest: seq<u32>)
    requires Sound(c) && Complete(c) && AllOk(c, bs)
    ensures Walk(c, WriteAll(c, bs) + rest) == Walked(bs + Walk(c, rest).items, Walk(c, rest).rest)
    decreases |bs|
  {
    if bs == [] {
      assert WriteAll(c, bs) + rest == rest && bs + Walk(c, rest).items == Walk(c, rest).items;
    } else {
      var b, more := bs[0], WriteAll(c, bs[1..]) + rest;
      assert ReadsBack(c, b, more);
      WalkPassesItems(c, bs[1..], rest);
      Assoc(c.write(b), WriteAll(c, bs[1..]), rest);
      var ws := c.write(b) + more;
      assert TakesPrefix(c, ws);
      assert ws[|c.write(b)|..] == more;
      assert [b] + bs[1..] == bs;
      Assoc([b], bs[1..], Walk(c, rest).items);
    }
  }

  /** Walking to the end means being written from a list of well-formed items, and from no other. */
  lemma ExactTiling<B(!new)>(c: Codec<B>, ws: seq<u32>, bs: seq<B>)
    requires Sound(c) && Complete(c) && AllOk(c, bs)
    ensures Walk(c, ws) == Walked(bs, []) <==> ws == WriteAll(c, bs)
  {
    WalkSplits(c, ws);
    WalkReadsBack(c, bs);
    var w := Walk(c, ws);
    if w.rest == [] {
      assert WriteAll(c, w.items) + w.rest == WriteAll(c, w.items);
    }
  }

  /** The outcome of a walk that has passed these items and stands at word k. */
  ghost function Onward<B>(c: Codec<B>, ws: seq<u32>, k: nat, items: seq<B>): Walked<B>
    requires Sound(c) && k <= |ws|
  {
    var w := Walk(c, ws[k..]);
    Walked(items + w.items, w.rest)
  }

  lemma OnwardStart<B>(c: Codec<B>, ws: seq<u32>)
    requires Sound(c)
    ensures Onward(c, ws, 0, []) == Walk(c, ws)
  {
    assert ws[0..] == ws;
    assert [] + Walk(c, ws).items == Walk(c, ws).items;
  }

  lemma OnwardNext<B>(c: Codec<B>, ws: seq<u32>, k: nat, items: seq<B>, b: B, n: nat)
    requires Sound(c) && k <= |ws| && c.step(ws[k..]) == Take(b, n)
    ensures k + n <= |ws| && Onward(c, ws, k + n, items + [b]) == Onward(c, ws, k, items)
  {
    assert TakesPrefix(c, ws[k..]);
    assert ws[k..][n..] == ws[k + n..];
    Assoc(items, [b], Walk(c, ws[k + n..]).items);
  }

  lemma OnwardStop<B>(c: Codec<B>, ws: seq<u32>, k: nat, items: seq<B>)
    requires Sound(c) && k <= |ws| && c.step(ws[k..]).Stop?
    ensures Onward(c, ws, k, items) == Walked(items, ws[k..])
  {
    assert items + [] == items;
  }

  lemma OnwardEnd<B>(c: Codec<B>, ws: seq<u32>, items: seq<B>)
    requires Sound(c)
    ensures Onward(c, ws, |ws|, items) == Walked(items, [])
  {
    OnwardStop(c, ws, |ws|, items);
  }
}
