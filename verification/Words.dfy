/** Exclusive or and shifts of 32-bit words, named so that proofs can rest on their laws alone. */
module Words {
  type word = bv32

  function Xor(a: word, b: word): word { a ^ b }

  function Odd(c: word): bool { c & 1 == 1 }

  function Half(c: word): word { c >> 1 }

  function Double(c: word): word { c << 1 }

  function LowByte(c: word): word { c & 0xFF }

  function HighBytes(c: word): word { c >> 8 }

  lemma XorAssoc(a: word, b: word, c: word)
    ensures Xor(Xor(a, b), c) == Xor(a, Xor(b, c))
  {
    assert (a ^ b) ^ c == a ^ (b ^ c);
  }

  lemma XorComm(a: word, b: word)
    ensures Xor(a, b) == Xor(b, a)
  {
  }

  lemma XorZero(a: word)
    ensures Xor(a, 0) == a && Xor(0, a) == a && Xor(a, a) == 0
  {
  }

  /** Sums of four words may be regrouped. */
  lemma XorSwap(a: word, b: word, c: word, d: word)
    ensures Xor(Xor(a, b), Xor(c, d)) == Xor(Xor(a, c), Xor(b, d))
  {
    hide Xor;
    XorAssoc(a, b, Xor(c, d));
    XorAssoc(b, c, d);
    XorComm(b, c);
    XorAssoc(c, b, d);
    XorAssoc(a, c, Xor(b, d));
  }

  lemma OddXor(a: word, b: word)
    ensures Odd(Xor(a, b)) == (Odd(a) != Odd(b))
  {
  }

  lemma HalfXor(a: word, b: word)
    ensures Half(Xor(a, b)) == Xor(Half(a), Half(b))
  {
  }

  lemma DoubleXor(a: word, b: word)
    ensures Double(Xor(a, b)) == Xor(Double(a), Double(b))
  {
  }

  /** A word is its lowest bit and twice its half. */
  lemma Split(c: word)
    ensures c == Xor(if Odd(c) then 1 else 0, Double(Half(c)))
  {
  }

  lemma SplitByte(c: word) returns (high: word)
    ensures c == Xor(LowByte(c), high) && LowByte(high) == 0 && HighBytes(high) == HighBytes(c)
  {
    high := c & 0xFFFF_FF00;
    assert c == (c & 0xFF) ^ (c & 0xFFFF_FF00);
    assert (c & 0xFFFF_FF00) & 0xFF == 0;
    assert (c & 0xFFFF_FF00) >> 8 == c >> 8;
  }

  function Up(c: word): word { c << 8 }

  /** Appending a zero byte and taking it off again. */
  lemma UpDown(c: word)
    requires Fits24(c)
    ensures LowByte(Up(c)) == 0 && HighBytes(Up(c)) == c
  {
  }

  predicate Fits24(c: word) { c & 0xFF00_0000 == 0 }

  function Word(b: bv8): word { b as word }

  function Index(c: word): nat { LowByte(c) as nat }

  function Value(n: nat): word
    requires n < 256
  {
    n as word
  }

  lemma IndexFits(c: word)
    ensures Index(c) < 256
  {
  }

  lemma IndexValue(c: word)
    ensures Index(c) < 256 && Value(Index(c)) == LowByte(c)
  {
    hide LowByte;
    IndexFits(c);
  }

  lemma TopByte(c: word)
    ensures var top := HighBytes(HighBytes(HighBytes(c))); LowByte(top) == top && HighBytes(top) == 0
  {
  }

  /** A little-endian load. */
  function Load(b: seq<bv8>): word
    requires |b| == 4
  {
    Join(b[0], b[1], b[2], b[3])
  }

  function Join(p: bv8, q: bv8, r: bv8, s: bv8): word {
    (p as word) | ((q as word) << 8) | ((r as word) << 16) | ((s as word) << 24)
  }

  /** The same load, byte upon byte. */
  function Stack(b: seq<bv8>): word {
    if b == [] then 0 else Xor(Word(b[0]), Up(Stack(b[1..])))
  }

  lemma LoadStack(b: seq<bv8>)
    requires |b| == 4
    ensures Load(b) == Stack(b)
  {
    LoadBits(b[0], b[1], b[2], b[3]);
    assert b[1..][1..] == b[2..] && b[2..][1..] == b[3..] && b[3..][1..] == [];
    assert Stack(b[3..]) == Xor(Word(b[3]), Up(0));
    assert Stack(b[2..]) == Xor(Word(b[2]), Up(Stack(b[3..])));
    assert Stack(b[1..]) == Xor(Word(b[1]), Up(Stack(b[2..])));
  }

  lemma LoadBits(p: bv8, q: bv8, r: bv8, s: bv8)
    ensures (p as word) | ((q as word) << 8) | ((r as word) << 16) | ((s as word) << 24)
         == (p as word) ^ (((q as word) ^ (((r as word) ^ (((s as word) ^ (0 << 8)) << 8)) << 8)) << 8)
  {
  }

  lemma StackFits(b: seq<bv8>)
    requires |b| <= 3
    ensures Fits24(Stack(b))
  {
    var p := if |b| > 0 then b[0] else 0;
    var q := if |b| > 1 then b[1] else 0;
    var r := if |b| > 2 then b[2] else 0;
    assert |b| > 1 ==> b[1..][0] == q;
    assert |b| > 2 ==> b[1..][1..][0] == r;
    assert Stack(b) == Xor(Word(p), Up(Xor(Word(q), Up(Word(r))))) by { StackThree(b, p, q, r); }
    assert ((p as word) ^ (((q as word) ^ ((r as word) << 8)) << 8)) & 0xFF00_0000 == 0;
  }

  lemma StackThree(b: seq<bv8>, p: bv8, q: bv8, r: bv8)
    requires |b| <= 3
    requires (if |b| > 0 then p == b[0] else p == 0) && (if |b| > 1 then q == b[1] else q == 0)
    requires if |b| > 2 then r == b[2] else r == 0
    ensures Stack(b) == Xor(Word(p), Up(Xor(Word(q), Up(Word(r)))))
  {
    assert Up(0) == 0 && Xor(0, 0) == 0 && Word(0) == 0;
    XorZero(Word(p));
    XorZero(Word(q));
    XorZero(Word(r));
    hide Xor, Up, Word;
    if |b| > 0 { assert Stack(b) == Xor(Word(p), Up(Stack(b[1..]))); }
    if |b| > 1 { assert Stack(b[1..]) == Xor(Word(q), Up(Stack(b[2..]))) by { assert b[1..][1..] == b[2..]; } }
    if |b| > 2 { assert Stack(b[2..]) == Xor(Word(r), Up(Stack(b[3..]))) by { assert b[2..][1..] == b[3..]; } }
  }
}
