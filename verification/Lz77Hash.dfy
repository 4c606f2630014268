/** The rolling hash of three bytes with which the compressor finds earlier strings. */
module Lz77Hash {
  import opened Words

  predicate BitsOk(bits: nat) { 8 <= bits <= 16 }

  /** The number of entries of the hash table. */
  function Entries(bits: nat): nat
    requires BitsOk(bits)
  {
    match bits
    case 8 => 256
    case 9 => 512
    case 10 => 1024
    case 11 => 2048
    case 12 => 4096
    case 13 => 8192
    case 14 => 16384
    case 15 => 32768
    case _ => 65536
  }

  function Mask(bits: nat): word
    requires BitsOk(bits)
  {
    match bits
    case 8 => 0xFF
    case 9 => 0x1FF
    case 10 => 0x3FF
    case 11 => 0x7FF
    case 12 => 0xFFF
    case 13 => 0x1FFF
    case 14 => 0x3FFF
    case 15 => 0x7FFF
    case _ => 0xFFFF
  }

  function And(x: word, m: word): word { x & m }

  function Roll3(m: word, h: word, c: word): word { And((h << 3) ^ c, m) }

  function Roll4(m: word, h: word, c: word): word { And((h << 4) ^ c, m) }

  function Roll5(m: word, h: word, c: word): word { And((h << 5) ^ c, m) }

  function Roll6(m: word, h: word, c: word): word { And((h << 6) ^ c, m) }

  /** One more byte: a shift by a third of the table's bits, rounded up, so that three of them move a byte out. */
  function Update(bits: nat, h: word, c: word): word
    requires BitsOk(bits)
  {
    match (bits + 2) / 3
    case 3 => Roll3(Mask(bits), h, c)
    case 4 => Roll4(Mask(bits), h, c)
    case 5 => Roll5(Mask(bits), h, c)
    case _ => Roll6(Mask(bits), h, c)
  }

  lemma Forgets3(m: word, h: word, a: word, b: word, c: word)
    requires m & 0xFFFF_FE00 == 0
    ensures Roll3(m, Roll3(m, Roll3(m, h, a), b), c) == Roll3(m, Roll3(m, Roll3(m, 0, a), b), c)
  {
  }

  lemma Last3(m: word, h: word, c: word, d: word)
    requires m & 0xFF == 0xFF && c & 0xFF == c && d & 0xFF == d && Roll3(m, h, c) == Roll3(m, h, d)
    ensures c == d
  {
  }

  lemma Forgets4(m: word, h: word, a: word, b: word, c: word)
    requires m & 0xFFFF_F000 == 0
    ensures Roll4(m, Roll4(m, Roll4(m, h, a), b), c) == Roll4(m, Roll4(m, Roll4(m, 0, a), b), c)
  {
  }

  lemma Last4(m: word, h: word, c: word, d: word)
    requires m & 0xFF == 0xFF && c & 0xFF == c && d & 0xFF == d && Roll4(m, h, c) == Roll4(m, h, d)
    ensures c == d
  {
  }

  lemma Forgets5(m: word, h: word, a: word, b: word, c: word)
    requires m & 0xFFFF_8000 == 0
    ensures Roll5(m, Roll5(m, Roll5(m, h, a), b), c) == Roll5(m, Roll5(m, Roll5(m, 0, a), b), c)
  {
  }

  lemma Last5(m: word, h: word, c: word, d: word)
    requires m & 0xFF == 0xFF && c & 0xFF == c && d & 0xFF == d && Roll5(m, h, c) == Roll5(m, h, d)
    ensures c == d
  {
  }

  lemma Forgets6(m: word, h: word, a: word, b: word, c: word)
    requires m & 0xFFFC_0000 == 0
    ensures Roll6(m, Roll6(m, Roll6(m, h, a), b), c) == Roll6(m, Roll6(m, Roll6(m, 0, a), b), c)
  {
  }

  lemma Last6(m: word, h: word, c: word, d: word)
    requires m & 0xFF == 0xFF && c & 0xFF == c && d & 0xFF == d && Roll6(m, h, c) == Roll6(m, h, d)
    ensures c == d
  {
  }

  /** After three bytes nothing is left of what was hashed before them. */
  lemma Forgets(bits: nat, h: word, a: word, b: word, c: word)
    requires BitsOk(bits)
    ensures Update(bits, Update(bits, Update(bits, h, a), b), c) == Update(bits, Update(bits, Update(bits, 0, a), b), c)
  {
    MaskLow(bits);
    hide Mask, Roll3, Roll4, Roll5, Roll6;
    match (bits + 2) / 3
    case 3 => Forgets3(Mask(bits), h, a, b, c);
    case 4 => Forgets4(Mask(bits), h, a, b, c);
    case 5 => Forgets5(Mask(bits), h, a, b, c);
    case _ => Forgets6(Mask(bits), h, a, b, c);
  }

  lemma MaskLow(bits: nat)
    requires BitsOk(bits)
    ensures Mask(bits) & 0xFF == 0xFF
    ensures bits <= 9 ==> Mask(bits) & 0xFFFF_FE00 == 0
    ensures bits <= 12 ==> Mask(bits) & 0xFFFF_F000 == 0
    ensures bits <= 15 ==> Mask(bits) & 0xFFFF_8000 == 0
    ensures Mask(bits) & 0xFFFC_0000 == 0
    ensures Mask(bits) as nat == Entries(bits) - 1
  {
  }

  /** The last of the bytes can be told from the hash and the bytes before it. */
  lemma LastByte(bits: nat, h: word, c: word, d: word)
    requires BitsOk(bits) && LowByte(c) == c && LowByte(d) == d
    requires Update(bits, h, c) == Update(bits, h, d)
    ensures c == d
  {
    MaskLow(bits);
    hide Mask, Roll3, Roll4, Roll5, Roll6;
    match (bits + 2) / 3
    case 3 => Last3(Mask(bits), h, c, d);
    case 4 => Last4(Mask(bits), h, c, d);
    case 5 => Last5(Mask(bits), h, c, d);
    case _ => Last6(Mask(bits), h, c, d);
  }

  lemma MaskedFits(x: word)
    ensures (x & 0xFF) as nat < 256
    ensures (x & 0x1FF) as nat < 512
    ensures (x & 0x3FF) as nat < 1024
    ensures (x & 0x7FF) as nat < 2048
    ensures (x & 0xFFF) as nat < 4096
    ensures (x & 0x1FFF) as nat < 8192
    ensures (x & 0x3FFF) as nat < 16384
    ensures (x & 0x7FFF) as nat < 32768
    ensures (x & 0xFFFF) as nat < 65536
  {
  }

  lemma MaskedIndex(bits: nat, x: word)
    requires BitsOk(bits)
    ensures And(x, Mask(bits)) as nat < Entries(bits)
  {
    MaskedFits(x);
  }

  lemma Rolled(bits: nat, h: word, c: word) returns (x: word)
    requires BitsOk(bits)
    ensures Update(bits, h, c) == And(x, Mask(bits))
  {
    hide Mask, And;
    match (bits + 2) / 3
    case 3 => x := (h << 3) ^ c;
    case 4 => x := (h << 4) ^ c;
    case 5 => x := (h << 5) ^ c;
    case _ => x := (h << 6) ^ c;
  }

  /** Every hash is an index into the table. */
  lemma IndexOk(bits: nat, h: word, c: word)
    requires BitsOk(bits)
    ensures Update(bits, h, c) as nat < Entries(bits)
  {
    hide Mask, Update, And;
    var x := Rolled(bits, h, c);
    MaskedIndex(bits, x);
  }

  /** The hash of three bytes. */
  function Hash3(bits: nat, a: bv8, b: bv8, c: bv8): word
    requires BitsOk(bits)
  {
    Update(bits, Update(bits, Update(bits, 0, Word(a)), Word(b)), Word(c))
  }

  lemma WordByte(c: bv8)
    ensures LowByte(Word(c)) == Word(c)
  {
    assert (c as word) & 0xFF == c as word;
  }

  lemma WordOnce(c: bv8, d: bv8)
    requires Word(c) == Word(d)
    ensures c == d
  {
  }

  lemma SameIndex(x: word, y: word)
    requires x as nat == y as nat
    ensures x == y
  {
    assert (x as nat) as word == x && (y as nat) as word == y;
  }

  /** Strings with the same hash that agree in two bytes agree in the third. */
  lemma ThirdByte(bits: nat, a: bv8, b: bv8, c: bv8, d: bv8)
    requires BitsOk(bits) && Hash3(bits, a, b, c) as nat == Hash3(bits, a, b, d) as nat
    ensures c == d
  {
    hide Update, Word, LowByte;
    SameIndex(Hash3(bits, a, b, c), Hash3(bits, a, b, d));
    WordByte(c);
    WordByte(d);
    LastByte(bits, Update(bits, Update(bits, 0, Word(a)), Word(b)), Word(c), Word(d));
    WordOnce(c, d);
  }

  /** A fresh start from the first byte itself. */
  lemma FirstByte(bits: nat, a: bv8)
    requires BitsOk(bits)
    ensures Update(bits, 0, Word(a)) == Word(a)
  {
    hide Word, LowByte;
    WordByte(a);
    FirstWord(bits, Word(a));
  }

  lemma FirstWord(bits: nat, a: word)
    requires BitsOk(bits) && LowByte(a) == a
    ensures Update(bits, 0, a) == a
  {
    MaskLow(bits);
    hide Mask, Roll3, Roll4, Roll5, Roll6, LowByte;
    match (bits + 2) / 3
    case 3 => First3(Mask(bits), a);
    case 4 => First4(Mask(bits), a);
    case 5 => First5(Mask(bits), a);
    case _ => First6(Mask(bits), a);
  }

  lemma First3(m: word, a: word)
    requires m & 0xFF == 0xFF && LowByte(a) == a
    ensures Roll3(m, 0, a) == a
  {
  }

  lemma First4(m: word, a: word)
    requires m & 0xFF == 0xFF && LowByte(a) == a
    ensures Roll4(m, 0, a) == a
  {
  }

  lemma First5(m: word, a: word)
    requires m & 0xFF == 0xFF && LowByte(a) == a
    ensures Roll5(m, 0, a) == a
  {
  }

  lemma First6(m: word, a: word)
    requires m & 0xFF == 0xFF && LowByte(a) == a
    ensures Roll6(m, 0, a) == a
  {
  }
}
