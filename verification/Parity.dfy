/** pm4_calc_odd_parity_bit: all nibbles of a word folded into one, which selects a bit of a constant. */
module Parity {
  import opened Words
  import opened Pm4

  /** Exclusive or, bit by bit. */
  function Xor(a: nat, b: nat): nat
    decreases a + b
  {
    if a == 0 && b == 0 then 0 else 2 * Xor(a / 2, b / 2) + OneBit(a % 2, b % 2)
  }

  function OneBit(a: nat, b: nat): nat { if a == b then 0 else 1 }

  function Shifted(c: nat, n: nat): nat { if n == 0 then c else Shifted(c, n - 1) / 2 }

  function Folded(v: u32): nat {
    Xor(Xor(Xor(Xor(Xor(Xor(Xor(v, v / 0x10), v / 0x100), v / 0x1000), v / 0x1_0000), v / 0x10_0000), v / 0x100_0000),
        v / 0x1000_0000)
  }

  function CalcOddParityBit(v: u32): nat { Shifted(0x9669, Folded(v) % 0x10) % 2 }

  /** The odd parity of two words taken together. */
  function Both(a: nat, b: nat): nat { if a == b then 1 else 0 }

  // ---------------------------------------------------------------- laws of the two functions, bit by bit

  ghost predicate ParityLaw(f: nat -> nat, w: nat, b: nat) {
    b < 2 ==> f(2 * w + b) == if b == 0 then f(w) else 1 - f(w)
  }

  ghost predicate IsParity(f: nat -> nat) {
    f(0) == 1 && (forall w :: f(w) <= 1) && forall w, b :: ParityLaw(f, w, b)
  }

  ghost predicate XorLaw(g: (nat, nat) -> nat, x: nat, a: nat, y: nat, b: nat) {
    a < 2 && b < 2 ==> g(2 * x + a, 2 * y + b) == 2 * g(x, y) + OneBit(a, b)
  }

  ghost predicate IsXor(g: (nat, nat) -> nat) { g(0, 0) == 0 && forall x, a, y, b :: XorLaw(g, x, a, y, b) }

  lemma ParityBit(v: nat, w: nat, b: nat)
    requires b < 2 && v / 2 == w && v % 2 == b
    ensures OddParity(v) == if b == 0 then OddParity(w) else 1 - OddParity(w)
  {
  }

  lemma XorBit(v: nat, u: nat, x: nat, y: nat)
    requires v / 2 == x && u / 2 == y
    ensures Xor(v, u) == 2 * Xor(x, y) + OneBit(v % 2, u % 2)
  {
  }

  lemma XorOfBits(v: nat, u: nat, x: nat, a: nat, y: nat, b: nat)
    requires a < 2 && b < 2 && v == 2 * x + a && u == 2 * y + b
    ensures Xor(v, u) == 2 * Xor(x, y) + OneBit(a, b)
  {
    Field(v, 2, x, a);
    Field(u, 2, y, b);
    XorBit(v, u, x, y);
  }

  ghost predicate Unfolds(f: nat -> nat, v: nat) { f(v) == if v % 2 == 0 then f(v / 2) else 1 - f(v / 2) }

  lemma UnfoldsToLaws(f: nat -> nat)
    requires f(0) == 1 && (forall w :: f(w) <= 1) && forall v :: Unfolds(f, v)
    ensures IsParity(f)
  {
    forall w: nat, b: nat ensures ParityLaw(f, w, b) {
      if b < 2 {
        Field(2 * w + b, 2, w, b);
        assert Unfolds(f, 2 * w + b);
      }
    }
  }

  lemma ParityLaws()
    ensures IsParity(OddParity)
  {
    forall v: nat ensures Unfolds(OddParity, v) {
      ParityBit(v, v / 2, v % 2);
    }
    UnfoldsToLaws(OddParity);
  }

  lemma XorHasLaw(x: nat, a: nat, y: nat, b: nat)
    ensures XorLaw(Xor, x, a, y, b)
  {
    if a < 2 && b < 2 {
      var v, u := 2 * x + a, 2 * y + b;
      XorOfBits(v, u, x, a, y, b);
    }
  }

  lemma XorLaws()
    ensures IsXor(Xor)
  {
    forall x: nat, a: nat, y: nat, b: nat ensures XorLaw(Xor, x, a, y, b) {
      XorHasLaw(x, a, y, b);
    }
  }

  /** The bits of a nibble. */
  datatype Nibble = Nibble(b0: nat, b1: nat, b2: nat, b3: nat)

  predicate Bits(n: Nibble) { n.b0 < 2 && n.b1 < 2 && n.b2 < 2 && n.b3 < 2 }

  function Upper(q: nat, n: Nibble): nat { 2 * (2 * q + n.b3) + n.b2 }

  function With(q: nat, n: Nibble): nat { 2 * (2 * Upper(q, n) + n.b1) + n.b0 }

  lemma Take(v: nat) returns (n: Nibble)
    ensures Bits(n) && v == With(v / 0x10, n) && v % 0x10 == With(0, n)
  {
    var h1, h2, h3 := v / 2, v / 2 / 2, v / 2 / 2 / 2;
    n := Nibble(v % 2, h1 % 2, h2 % 2, h3 % 2);
    assert h3 == 2 * (h3 / 2) + n.b3 && h2 == 2 * h3 + n.b2 && h1 == 2 * h2 + n.b1 && v == 2 * h1 + n.b0;
    Field(v, 0x10, h3 / 2, With(0, n));
  }

  /** An even number of set bits. */
  predicate Even(n: Nibble) { OneBit(OneBit(n.b0, n.b1), OneBit(n.b2, n.b3)) == 0 }

  lemma ParityOfBits(f: nat -> nat, q: nat, n: Nibble)
    requires IsParity(f) && Bits(n)
    ensures f(With(q, n)) == if Even(n) then f(q) else 1 - f(q)
  {
    var w3 := 2 * q + n.b3;
    var w2 := 2 * w3 + n.b2;
    var w1 := 2 * w2 + n.b1;
    assert ParityLaw(f, q, n.b3) && ParityLaw(f, w3, n.b2) && ParityLaw(f, w2, n.b1) && ParityLaw(f, w1, n.b0);
  }

  lemma TwoBits(g: (nat, nat) -> nat, v: nat, p: nat, a: nat, b: nat, w: nat, q: nat, c: nat, d: nat)
    requires IsXor(g) && a < 2 && b < 2 && c < 2 && d < 2 && v == 2 * (2 * p + a) + b && w == 2 * (2 * q + c) + d
    ensures g(v, w) == 2 * (2 * g(p, q) + OneBit(a, c)) + OneBit(b, d)
  {
    assert XorLaw(g, p, a, q, c) && XorLaw(g, 2 * p + a, b, 2 * q + c, d);
  }

  lemma XorWith(g: (nat, nat) -> nat, p: nat, m: Nibble, q: nat, n: Nibble)
    requires IsXor(g) && Bits(m) && Bits(n)
    ensures g(With(p, m), With(q, n)) == With(g(p, q), Combined(m, n))
  {
    TwoBits(g, Upper(p, m), p, m.b3, m.b2, Upper(q, n), q, n.b3, n.b2);
    TwoBits(g, With(p, m), Upper(p, m), m.b1, m.b0, With(q, n), Upper(q, n), n.b1, n.b0);
  }

  function Combined(m: Nibble, n: Nibble): Nibble {
    Nibble(OneBit(m.b0, n.b0), OneBit(m.b1, n.b1), OneBit(m.b2, n.b2), OneBit(m.b3, n.b3))
  }

  lemma EvenCombined(m: Nibble, n: Nibble)
    requires Bits(m) && Bits(n)
    ensures Bits(Combined(m, n)) && (Even(Combined(m, n)) <==> (Even(m) <==> Even(n)))
  {
  }

  /** A nibble's parity after an exclusive or. */
  lemma ParityCombined(f: nat -> nat, m: Nibble, n: Nibble)
    requires IsParity(f) && Bits(m) && Bits(n)
    ensures f(With(0, Combined(m, n))) == Both(f(With(0, m)), f(With(0, n)))
  {
    EvenCombined(m, n);
    ParityOfBits(f, 0, m);
    ParityOfBits(f, 0, n);
    ParityOfBits(f, 0, Combined(m, n));
  }

  // ---------------------------------------------------------------- folding

  /** A word's parity is that of its lowest nibble and that of the rest, together. */
  lemma ParityOfNibbles(f: nat -> nat, v: nat)
    requires IsParity(f)
    ensures f(v) == Both(f(v / 0x10), f(v % 0x10))
  {
    var n := Take(v);
    ParityOfBits(f, v / 0x10, n);
    ParityOfBits(f, 0, n);
  }

  /** One step of the fold: the parity of the lowest nibble takes in that of the next word. */
  lemma FoldStep(f: nat -> nat, g: (nat, nat) -> nat, x: nat, v: nat)
    requires IsParity(f) && IsXor(g)
    ensures f(g(x, v) % 0x10) == Both(f(x % 0x10), f(v % 0x10))
  {
    var m := Take(x);
    var n := Take(v);
    XorWith(g, x / 0x10, m, v / 0x10, n);
    var c := Combined(m, n);
    Field(g(x, v), 0x10, g(x / 0x10, v / 0x10), With(0, c));
    ParityCombined(f, m, n);
  }

  lemma FoldedParity(f: nat -> nat, g: (nat, nat) -> nat, v: u32)
    requires IsParity(f) && IsXor(g)
    ensures f(g(g(g(g(g(g(g(v, v / 0x10), v / 0x100), v / 0x1000), v / 0x1_0000), v / 0x10_0000), v / 0x100_0000),
                v / 0x1000_0000) % 0x10) == f(v)
  {
    var a := g(v, v / 0x10);
    var b := g(a, v / 0x100);
    var c := g(b, v / 0x1000);
    var d := g(c, v / 0x1_0000);
    var e := g(d, v / 0x10_0000);
    var h := g(e, v / 0x100_0000);
    FoldStep(f, g, v, v / 0x10);
    FoldStep(f, g, a, v / 0x100);
    FoldStep(f, g, b, v / 0x1000);
    FoldStep(f, g, c, v / 0x1_0000);
    FoldStep(f, g, d, v / 0x10_0000);
    FoldStep(f, g, e, v / 0x100_0000);
    FoldStep(f, g, h, v / 0x1000_0000);
    AllNibbles(f, v);
  }

  lemma AllNibbles(f: nat -> nat, v: u32)
    requires IsParity(f)
    ensures f(v) == Both(Both(Both(Both(Both(Both(Both(f(v % 0x10), f(v / 0x10 % 0x10)),
      f(v / 0x100 % 0x10)), f(v / 0x1000 % 0x10)), f(v / 0x1_0000 % 0x10)),
      f(v / 0x10_0000 % 0x10)), f(v / 0x100_0000 % 0x10)), f(v / 0x1000_0000 % 0x10))
  {
    ParityOfNibbles(f, v);
    ParityOfNibbles(f, v / 0x10);
    ParityOfNibbles(f, v / 0x100);
    ParityOfNibbles(f, v / 0x1000);
    ParityOfNibbles(f, v / 0x1_0000);
    ParityOfNibbles(f, v / 0x10_0000);
    ParityOfNibbles(f, v / 0x100_0000);
    Quotients(v);
  }

  lemma Quotients(v: u32)
    ensures v / 0x10 / 0x10 == v / 0x100 && v / 0x100 / 0x10 == v / 0x1000 && v / 0x1000 / 0x10 == v / 0x1_0000
    ensures v / 0x1_0000 / 0x10 == v / 0x10_0000 && v / 0x10_0000 / 0x10 == v / 0x100_0000
    ensures v / 0x100_0000 / 0x10 == v / 0x1000_0000 && v / 0x1000_0000 % 0x10 == v / 0x1000_0000
  {
  }

  /** The parities of the sixteen nibbles are the bits of the constant. */
  function ParityOf(n: nat): nat { if n in {0, 3, 5, 6, 9, 10, 12, 15} then 1 else 0 }

  lemma NibbleParity(f: nat -> nat, n: nat)
    requires IsParity(f) && n < 16
    ensures f(n) == ParityOf(n)
  {
    assert ParityLaw(f, 0, 1);
    assert ParityLaw(f, 1, 0) && ParityLaw(f, 1, 1);
    assert ParityLaw(f, 2, 0) && ParityLaw(f, 2, 1) && ParityLaw(f, 3, 0) && ParityLaw(f, 3, 1);
    assert ParityLaw(f, 4, 0) && ParityLaw(f, 4, 1) && ParityLaw(f, 5, 0) && ParityLaw(f, 5, 1);
    assert ParityLaw(f, 6, 0) && ParityLaw(f, 6, 1) && ParityLaw(f, 7, 0) && ParityLaw(f, 7, 1);
  }

  lemma TableBit(n: nat)
    requires n < 16
    ensures Shifted(0x9669, n) % 2 == ParityOf(n)
  {
    assert Shifted(0x9669, 3) == 0x12CD;
    assert Shifted(0x9669, 7) == 0x12C;
    assert Shifted(0x9669, 11) == 0x12;
    assert Shifted(0x9669, 15) == 1;
  }

  /** The table lookup computes the parity that HeadOfHeader relies on, for every word. */
  lemma LookupIsParity(v: u32)
    ensures CalcOddParityBit(v) == OddParity(v)
  {
    ParityLaws();
    XorLaws();
    FoldedParity(OddParity, Xor, v);
    var n := Folded(v) % 0x10;
    NibbleParity(OddParity, n);
    TableBit(n);
  }
}
