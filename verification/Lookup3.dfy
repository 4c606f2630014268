/** The hash of keys: a function of their bytes, length and seed, however the key happens to be aligned. */
module Lookup3 {
  import opened Words

  datatype Registers = Registers(a: word, b: word, c: word)

  function Rot(x: word, k: nat): word
    requires 0 < k < 32
  {
    (x << k) | (x >> (32 - k))
  }

  function Plus(x: word, y: word): word { x + y }

  function Minus(x: word, y: word): word { x - y }

  /** A sixth of the mixing: the first register is changed by the third, and the third by the second. */
  function Turn(x: Registers, k: nat): Registers
    requires 0 < k < 32
  {
    Registers(Xor(Minus(x.a, x.c), Rot(x.c, k)), x.b, Plus(x.c, x.b))
  }

  function Unturn(x: Registers, k: nat): Registers
    requires 0 < k < 32
  {
    var c := Minus(x.c, x.b);
    Registers(Plus(Xor(x.a, Rot(c, k)), c), x.b, c)
  }

  /** The next sixth works on the registers one further round. */
  function Next(x: Registers): Registers { Registers(x.b, x.c, x.a) }

  function Back(x: Registers): Registers { Registers(x.c, x.a, x.b) }

  function Mix(x: Registers): Registers {
    var x := Next(Turn(x, 4));
    var x := Next(Turn(x, 6));
    var x := Next(Turn(x, 8));
    var x := Next(Turn(x, 16));
    var x := Next(Turn(x, 19));
    Next(Turn(x, 4))
  }

  function Unmix(x: Registers): Registers {
    var x := Unturn(Back(x), 4);
    var x := Unturn(Back(x), 19);
    var x := Unturn(Back(x), 16);
    var x := Unturn(Back(x), 8);
    var x := Unturn(Back(x), 6);
    Unturn(Back(x), 4)
  }

  lemma PlusMinus(x: word, y: word)
    ensures Minus(Plus(x, y), y) == x && Plus(Minus(x, y), y) == x
  {
    calc { Minus(Plus(x, y), y); { assert Plus(x, y) == x + y; } Minus(x + y, y); (x + y) - y; x; }
    calc { Plus(Minus(x, y), y); { assert Minus(x, y) == x - y; } Plus(x - y, y); (x - y) + y; x; }
  }

  lemma XorTwice(x: word, y: word)
    ensures Xor(Xor(x, y), y) == x
  {
  }

  lemma TurnBack(x: Registers, k: nat)
    requires 0 < k < 32
    ensures Unturn(Turn(x, k), k) == x && Turn(Unturn(x, k), k) == x
  {
    hide Xor, Plus, Minus, Rot;
    PlusMinus(x.c, x.b);
    PlusMinus(x.a, x.c);
    XorTwice(Minus(x.a, x.c), Rot(x.c, k));
    var c := Minus(x.c, x.b);
    PlusMinus(Xor(x.a, Rot(c, k)), c);
    XorTwice(x.a, Rot(c, k));
  }

  /** Mixing loses nothing: it can be undone. */
  lemma MixInvertible(x: Registers)
    ensures Unmix(Mix(x)) == x && Mix(Unmix(x)) == x
  {
    hide Turn, Unturn;
    var x1 := Next(Turn(x, 4));
    var x2 := Next(Turn(x1, 6));
    var x3 := Next(Turn(x2, 8));
    var x4 := Next(Turn(x3, 16));
    var x5 := Next(Turn(x4, 19));
    TurnBack(x, 4);
    TurnBack(x1, 6);
    TurnBack(x2, 8);
    TurnBack(x3, 16);
    TurnBack(x4, 19);
    TurnBack(x5, 4);
    var y1 := Unturn(Back(x), 4);
    var y2 := Unturn(Back(y1), 19);
    var y3 := Unturn(Back(y2), 16);
    var y4 := Unturn(Back(y3), 8);
    var y5 := Unturn(Back(y4), 6);
    TurnBack(Back(x), 4);
    TurnBack(Back(y1), 19);
    TurnBack(Back(y2), 16);
    TurnBack(Back(y3), 8);
    TurnBack(Back(y4), 6);
    TurnBack(Back(y5), 4);
  }

  /** A seventh of the final mixing. */
  function Settle(x: word, y: word, k: nat): word
    requires 0 < k < 32
  {
    Minus(Xor(x, y), Rot(y, k))
  }

  function Final(x: Registers): Registers {
    var c := Settle(x.c, x.b, 14);
    var a := Settle(x.a, c, 11);
    var b := Settle(x.b, a, 25);
    var c := Settle(c, b, 16);
    var a := Settle(a, c, 4);
    var b := Settle(b, a, 14);
    Registers(a, b, Settle(c, b, 24))
  }

  function Min(n: int, m: nat): nat {
    if n < 0 then 0 else if n < m then n else m
  }

  /** The bytes of a block's word i, as many as there are of them. */
  function Piece(s: seq<bv8>, i: nat): seq<bv8> {
    s[Min(|s|, 4 * i)..Min(|s|, 4 * i + 4)]
  }

  function ByteAt(s: seq<bv8>, i: nat): bv8 {
    if i < |s| then s[i] else 0
  }

  /** Up to four bytes as a little-endian word, padded with zeros. */
  function Little(s: seq<bv8>): word {
    Join(ByteAt(s, 0), ByteAt(s, 1), ByteAt(s, 2), ByteAt(s, 3))
  }

  /** A block of up to twelve bytes added to the registers, as three little-endian words padded with zeros. */
  function Add(x: Registers, s: seq<bv8>): Registers {
    Registers(Plus(x.a, Little(Piece(s, 0))), Plus(x.b, Little(Piece(s, 1))), Plus(x.c, Little(Piece(s, 2))))
  }

  /** The registers after all blocks of a key; a block is only the last one if nothing follows it. */
  function Hash(x: Registers, s: seq<bv8>): Registers
    decreases |s|
  {
    if |s| > 12 then Hash(Mix(Add(x, s[..12])), s[12..])
    else if s == [] then x
    else Final(Add(x, s))
  }

  /** The low 32 bits of a number. */
  function Trunc(n: nat): word {
    if n == 0 then 0 else Plus(Trunc(n - 1), 1)
  }

  function Init(length: nat, seed: word): Registers {
    var x := Plus(Plus(0xdeadbeef, Trunc(length)), seed);
    Registers(x, x, x)
  }

  // The three ways to read a word of which n bytes belong to the key. Memory consists of whole aligned words.

  ghost predicate Readable(mem: seq<bv8>, p: nat, n: nat) {
    |mem| % 4 == 0 && p + n <= |mem|
  }

  /** The bytes that count of a word at p. */
  lemma LittleAt(mem: seq<bv8>, p: nat, n: nat)
    requires 0 < n && p + n <= |mem|
    ensures Little(mem[p..p + Min(n, 4)]) ==
              Join(mem[p], if n > 1 then mem[p + 1] else 0, if n > 2 then mem[p + 2] else 0, if n > 3 then mem[p + 3] else 0)
  {
    hide Join;
    var s := mem[p..p + Min(n, 4)];
    assert forall i :: 0 <= i < |s| ==> s[i] == mem[p + i];
  }

  /** An aligned word is read whole, even past the key's end, and what does not belong to the key masked off. */
  method ReadWord(mem: seq<bv8>, p: nat, n: nat, x: word) returns (r: word)
    requires 0 < n && Readable(mem, p, n) && p % 4 == 0
    ensures r == Plus(x, Little(mem[p..p + Min(n, 4)]))
  {
    hide Plus, Join, Little;
    LittleAt(mem, p, n);
    r := x;
    var w := Load(mem[p..p + 4]);
    KeepBytes(mem[p], mem[p + 1], mem[p + 2], mem[p + 3]);
    if n >= 4 {
      r := Plus(r, w);
    } else if n == 3 {
      r := Plus(r, Keep3(w));
    } else if n == 2 {
      r := Plus(r, Keep2(w));
    } else {
      r := Plus(r, Keep1(w));
    }
  }

  function Keep3(w: word): word { w & 0xFFFFFF }

  function Keep2(w: word): word { w & 0xFFFF }

  function Keep1(w: word): word { w & 0xFF }

  lemma KeepBytes(p: bv8, q: bv8, r: bv8, s: bv8)
    ensures Keep3(Join(p, q, r, s)) == Join(p, q, r, 0)
    ensures Keep2(Join(p, q, r, s)) == Join(p, q, 0, 0)
    ensures Keep1(Join(p, q, r, s)) == Join(p, 0, 0, 0)
  {
    calc {
      Keep3(Join(p, q, r, s));
      { assert Join(p, q, r, s) == (p as word) | ((q as word) << 8) | ((r as word) << 16) | ((s as word) << 24); }
      Keep3((p as word) | ((q as word) << 8) | ((r as word) << 16) | ((s as word) << 24));
      ((p as word) | ((q as word) << 8) | ((r as word) << 16) | ((s as word) << 24)) & 0xFFFFFF;
      (p as word) | ((q as word) << 8) | ((r as word) << 16) | (((0 as bv8) as word) << 24);
      Join(p, q, r, 0);
    }
    calc {
      Keep2(Join(p, q, r, s));
      { assert Join(p, q, r, s) == (p as word) | ((q as word) << 8) | ((r as word) << 16) | ((s as word) << 24); }
      Keep2((p as word) | ((q as word) << 8) | ((r as word) << 16) | ((s as word) << 24));
      ((p as word) | ((q as word) << 8) | ((r as word) << 16) | ((s as word) << 24)) & 0xFFFF;
      (p as word) | ((q as word) << 8) | (((0 as bv8) as word) << 16) | (((0 as bv8) as word) << 24);
      Join(p, q, 0, 0);
    }
    calc {
      Keep1(Join(p, q, r, s));
      { assert Join(p, q, r, s) == (p as word) | ((q as word) << 8) | ((r as word) << 16) | ((s as word) << 24); }
      Keep1((p as word) | ((q as word) << 8) | ((r as word) << 16) | ((s as word) << 24));
      ((p as word) | ((q as word) << 8) | ((r as word) << 16) | ((s as word) << 24)) & 0xFF;
      (p as word) | (((0 as bv8) as word) << 8) | (((0 as bv8) as word) << 16) | (((0 as bv8) as word) << 24);
      Join(p, 0, 0, 0);
    }
  }

  /** A byte widened and moved to its place. */
  function Placed(b: bv8, k: nat): word
    requires k < 4
  {
    match k
    case 0 => b as word
    case 1 => (b as word) << 8
    case 2 => (b as word) << 16
    case _ => (b as word) << 24
  }

  /** A 16-bit little-endian load, widened. */
  function Half16(p: bv8, q: bv8): word { (p as word) | ((q as word) << 8) }

  function Upper16(x: word): word { x << 16 }

  lemma PlusAssoc(x: word, y: word, z: word)
    ensures Plus(Plus(x, y), z) == Plus(x, Plus(y, z))
  {
    calc {
      Plus(Plus(x, y), z);
      { assert Plus(x, y) == x + y; }
      Plus(x + y, z);
      (x + y) + z;
      x + (y + z);
      Plus(x, y + z);
      { assert Plus(y, z) == y + z; }
      Plus(x, Plus(y, z));
    }
  }

  lemma JoinHalves(p: bv8, q: bv8, r: bv8, s: bv8)
    ensures Plus(Half16(p, q), Upper16(Half16(r, s))) == Join(p, q, r, s)
  {
    calc {
      Plus(Half16(p, q), Upper16(Half16(r, s)));
      { assert Half16(r, s) == (r as word) | ((s as word) << 8) && Half16(p, q) == (p as word) | ((q as word) << 8); }
      Plus((p as word) | ((q as word) << 8), Upper16((r as word) | ((s as word) << 8)));
      { assert Upper16((r as word) | ((s as word) << 8)) == ((r as word) | ((s as word) << 8)) << 16; }
      Plus((p as word) | ((q as word) << 8), ((r as word) | ((s as word) << 8)) << 16);
      ((p as word) | ((q as word) << 8)) + (((r as word) | ((s as word) << 8)) << 16);
      (p as word) | ((q as word) << 8) | ((r as word) << 16) | ((s as word) << 24);
      Join(p, q, r, s);
    }
  }

  lemma JoinThree(p: bv8, q: bv8, r: bv8)
    ensures Plus(Placed(r, 2), Half16(p, q)) == Join(p, q, r, 0)
    ensures Half16(p, q) == Join(p, q, 0, 0) && Placed(p, 0) == Join(p, 0, 0, 0)
  {
    calc {
      Plus(Placed(r, 2), Half16(p, q));
      { assert Half16(p, q) == (p as word) | ((q as word) << 8) && Placed(r, 2) == (r as word) << 16; }
      Plus((r as word) << 16, (p as word) | ((q as word) << 8));
      ((r as word) << 16) + ((p as word) | ((q as word) << 8));
      (p as word) | ((q as word) << 8) | ((r as word) << 16) | (((0 as bv8) as word) << 24);
      Join(p, q, r, 0);
    }
  }

  /** A word's highest byte may be added before its others. */
  lemma JoinFourth(p: bv8, q: bv8, r: bv8, s: bv8)
    ensures Plus(Placed(s, 3), Join(p, q, r, 0)) == Join(p, q, r, s)
  {
    calc {
      Plus(Placed(s, 3), Join(p, q, r, 0));
      { assert Placed(s, 3) == ((s as word) << 24); assert Join(p, q, r, 0) == (p as word) | ((q as word) << 8) | ((r as word) << 16) | (((0 as bv8) as word) << 24); }
      Plus(((s as word) << 24), (p as word) | ((q as word) << 8) | ((r as word) << 16) | (((0 as bv8) as word) << 24));
      ((s as word) << 24) + ((p as word) | ((q as word) << 8) | ((r as word) << 16) | (((0 as bv8) as word) << 24));
      (p as word) | ((q as word) << 8) | ((r as word) << 16) | ((s as word) << 24);
      Join(p, q, r, s);
    }
  }

  lemma JoinThird(p: bv8, q: bv8, r: bv8)
    ensures Plus(Placed(r, 2), Join(p, q, 0, 0)) == Join(p, q, r, 0)
  {
    calc {
      Plus(Placed(r, 2), Join(p, q, 0, 0));
      { assert Placed(r, 2) == ((r as word) << 16); assert Join(p, q, 0, 0) == (p as word) | ((q as word) << 8) | (((0 as bv8) as word) << 16) | (((0 as bv8) as word) << 24); }
      Plus(((r as word) << 16), (p as word) | ((q as word) << 8) | (((0 as bv8) as word) << 16) | (((0 as bv8) as word) << 24));
      ((r as word) << 16) + ((p as word) | ((q as word) << 8) | (((0 as bv8) as word) << 16) | (((0 as bv8) as word) << 24));
      (p as word) | ((q as word) << 8) | ((r as word) << 16) | (((0 as bv8) as word) << 24);
      Join(p, q, r, 0);
    }
  }

  lemma JoinSecond(p: bv8, q: bv8)
    ensures Plus(Placed(q, 1), Join(p, 0, 0, 0)) == Join(p, q, 0, 0)
  {
    calc {
      Plus(Placed(q, 1), Join(p, 0, 0, 0));
      { assert Placed(q, 1) == ((q as word) << 8); assert Join(p, 0, 0, 0) == (p as word) | (((0 as bv8) as word) << 8) | (((0 as bv8) as word) << 16) | (((0 as bv8) as word) << 24); }
      Plus(((q as word) << 8), (p as word) | (((0 as bv8) as word) << 8) | (((0 as bv8) as word) << 16) | (((0 as bv8) as word) << 24));
      ((q as word) << 8) + ((p as word) | (((0 as bv8) as word) << 8) | (((0 as bv8) as word) << 16) | (((0 as bv8) as word) << 24));
      (p as word) | ((q as word) << 8) | (((0 as bv8) as word) << 16) | (((0 as bv8) as word) << 24);
      Join(p, q, 0, 0);
    }
  }

  /** Half-words at even addresses; an odd last byte on its own. */
  method ReadHalves(mem: seq<bv8>, p: nat, n: nat, x: word) returns (r: word)
    requires 0 < n && Readable(mem, p, n) && p % 2 == 0
    ensures r == Plus(x, Little(mem[p..p + Min(n, 4)]))
  {
    hide Plus, Join, Half16, Placed, Upper16, Little;
    LittleAt(mem, p, n);
    r := x;
    if n >= 4 {
      JoinHalves(mem[p], mem[p + 1], mem[p + 2], mem[p + 3]);
      r := Plus(r, Plus(Half16(mem[p], mem[p + 1]), Upper16(Half16(mem[p + 2], mem[p + 3]))));
    } else if n == 3 {
      JoinThree(mem[p], mem[p + 1], mem[p + 2]);
      PlusAssoc(x, Placed(mem[p + 2], 2), Half16(mem[p], mem[p + 1]));
      r := Plus(r, Placed(mem[p + 2], 2));
      r := Plus(r, Half16(mem[p], mem[p + 1]));
    } else if n == 2 {
      JoinThree(mem[p], mem[p + 1], 0);
      r := Plus(r, Half16(mem[p], mem[p + 1]));
    } else {
      JoinThree(mem[p], 0, 0);
      r := Plus(r, Placed(mem[p], 0));
    }
  }

  /** Single bytes, from the last to the first. */
  method ReadBytes(mem: seq<bv8>, p: nat, n: nat, x: word) returns (r: word)
    requires 0 < n && Readable(mem, p, n)
    ensures r == Plus(x, Little(mem[p..p + Min(n, 4)]))
  {
    hide Plus, Join, Placed, Little;
    LittleAt(mem, p, n);
    r := x;
    ghost var b0, b1 := mem[p], if n > 1 then mem[p + 1] else 0;
    ghost var b2, b3 := if n > 2 then mem[p + 2] else 0, if n > 3 then mem[p + 3] else 0;
    JoinFourth(b0, b1, b2, b3);
    JoinThird(b0, b1, b2);
    JoinSecond(b0, b1);
    if n >= 4 {
      PlusAssoc(r, Placed(b3, 3), Join(b0, b1, b2, 0));
      r := Plus(r, Placed(mem[p + 3], 3));
    }
    if n >= 3 {
      PlusAssoc(r, Placed(b2, 2), Join(b0, b1, 0, 0));
      r := Plus(r, Placed(mem[p + 2], 2));
    }
    if n >= 2 {
      PlusAssoc(r, Placed(b1, 1), Join(b0, 0, 0, 0));
      r := Plus(r, Placed(mem[p + 1], 1));
    }
    JoinThree(b0, 0, 0);
    r := Plus(r, Placed(mem[p], 0));
  }

  /** How a key's address lets it be read. */
  datatype Path = Aligned32 | Aligned16 | Bytewise

  function PathFor(address: nat): Path {
    if address % 4 == 0 then Aligned32 else if address % 2 == 0 then Aligned16 else Bytewise
  }

  ghost predicate Suits(path: Path, address: nat) {
    (path == Aligned32 ==> address % 4 == 0) && (path == Aligned16 ==> address % 2 == 0)
  }

  method Read(path: Path, mem: seq<bv8>, p: nat, n: nat, x: word) returns (r: word)
    requires 0 < n && Readable(mem, p, n) && Suits(path, p)
    ensures r == Plus(x, Little(mem[p..p + Min(n, 4)]))
  {
    match path
    case Aligned32 => r := ReadWord(mem, p, n, x);
    case Aligned16 => r := ReadHalves(mem, p, n, x);
    case Bytewise => r := ReadBytes(mem, p, n, x);
  }

  /** A block of one to twelve bytes, word by word from the last. */
  method AddBlock(path: Path, mem: seq<bv8>, p: nat, n: nat, x: Registers) returns (r: Registers)
    requires 0 < n <= 12 && Readable(mem, p, n) && Suits(path, p)
    ensures r == Add(x, mem[p..p + n])
  {
    hide Plus, Little, Piece;
    PieceOf(mem, p, n, 0);
    PieceOf(mem, p, n, 1);
    PieceOf(mem, p, n, 2);
    PlusZero(x.b);
    PlusZero(x.c);
    r := x;
    if n > 8 {
      var c := Read(path, mem, p + 8, n - 8, r.c);
      r := r.(c := c);
    }
    if n > 4 {
      var b := Read(path, mem, p + 4, n - 4, r.b);
      r := r.(b := b);
    }
    var a := Read(path, mem, p, n, r.a);
    r := r.(a := a);
  }

  /** The words of a block within memory. */
  lemma PieceOf(mem: seq<bv8>, p: nat, n: nat, i: nat)
    requires p + n <= |mem| && i < 3
    ensures Piece(mem[p..p + n], i) == if n > 4 * i then mem[p + 4 * i..p + 4 * i + Min(n - 4 * i, 4)] else []
  {
    if n > 4 * i {
      var s, a, k := mem[p..p + n], 4 * i, Min(n - 4 * i, 4);
      assert Piece(s, i) == s[a..a + k];
      SliceSlice(mem, p, n, a, k);
    }
  }

  lemma SliceSlice<T>(mem: seq<T>, p: nat, n: nat, a: nat, k: nat)
    requires p + n <= |mem| && a + k <= n
    ensures mem[p..p + n][a..a + k] == mem[p + a..p + a + k]
  {
    var s, t := mem[p..p + n][a..a + k], mem[p + a..p + a + k];
    assert forall j :: 0 <= j < k ==> s[j] == t[j];
  }

  lemma SliceAfter<T>(s: seq<T>, t: seq<T>, a: nat, b: nat)
    requires a <= b <= |t|
    ensures (s + t)[|s| + a..|s| + b] == t[a..b] && (s + t)[|s| + a..] == t[a..]
  {
  }

  lemma PlusZero(x: word)
    ensures Plus(x, Little([])) == x
  {
    assert Little([]) == 0;
  }

  /** All blocks of the key at an address. The reads past its end stay within its last word. */
  method HashBlocks(mem: seq<bv8>, key: nat, length: nat, start: Registers) returns (x: Registers)
    requires Readable(mem, key, length)
    ensures x == Hash(start, mem[key..key + length])
  {
    hide Mix, Add, Final, Hash;
    x := start;
    var path := PathFor(key);
    var p, n := key, length;
    while n > 12
      invariant 0 <= n <= length && p == key + (length - n) && Suits(path, p)
      invariant Hash(x, mem[p..p + n]) == Hash(start, mem[key..key + length])
      decreases n
    {
      HashStep(x, mem, p, n);
      x := AddBlock(path, mem, p, 12, x);
      x := Mix(x);
      p, n := p + 12, n - 12;
    }
    HashEnd(x, mem[p..p + n]);
    if n > 0 {
      x := AddBlock(path, mem, p, n, x);
      x := Final(x);
    }
  }

  lemma HashStep(x: Registers, mem: seq<bv8>, p: nat, n: nat)
    requires p + n <= |mem| && n > 12
    ensures Hash(x, mem[p..p + n]) == Hash(Mix(Add(x, mem[p..p + 12])), mem[p + 12..p + n])
  {
    hide Mix, Add;
    SliceSlice(mem, p, n, 0, 12);
    SliceSlice(mem, p, n, 12, n - 12);
    var s := mem[p..p + n];
    assert s[..12] == s[0..12] && s[12..] == s[12..12 + (n - 12)];
  }

  lemma HashEnd(x: Registers, s: seq<bv8>)
    requires |s| <= 12
    ensures Hash(x, s) == if s == [] then x else Final(Add(x, s))
  {
  }

  /** The hash depends on the key's bytes, its length and the seed, and on nothing else. */
  method HashLittle(mem: seq<bv8>, key: nat, length: nat, seed: word) returns (hash: word)
    requires Readable(mem, key, length)
    ensures hash == Hash(Init(length, seed), mem[key..key + length]).c
  {
    var x := HashBlocks(mem, key, length, Init(length, seed));
    return x.c;
  }

  /** Two hashes from two seeds; with a second seed of zero the first is the plain hash. */
  method HashLittle2(mem: seq<bv8>, key: nat, length: nat, pc: word, pb: word) returns (hash: word, second: word)
    requires Readable(mem, key, length)
    ensures pb == 0 ==> hash == Hash(Init(length, pc), mem[key..key + length]).c
    ensures var x := Init(length, pc);
            var y := Hash(x.(c := Plus(x.c, pb)), mem[key..key + length]);
            hash == y.c && second == y.b
  {
    var x := Init(length, pc);
    x := x.(c := Plus(x.c, pb));
    if pb == 0 { assert Plus(Init(length, pc).c, 0) == Init(length, pc).c; }
    x := HashBlocks(mem, key, length, x);
    return x.c, x.b;
  }

  /** A key found at two addresses hashes alike. */
  method SameKeySameHash(mem: seq<bv8>, key: nat, mem': seq<bv8>, key': nat, length: nat, seed: word)
    returns (hash: word, hash': word)
    requires Readable(mem, key, length) && Readable(mem', key', length)
    requires mem[key..key + length] == mem'[key'..key' + length]
    ensures hash == hash'
  {
    hash := HashLittle(mem, key, length, seed);
    hash' := HashLittle(mem', key', length, seed);
  }

  // Keys that are arrays of words.

  function Bytes4(w: word): seq<bv8> {
    [(w & 0xFF) as bv8, ((w >> 8) & 0xFF) as bv8, ((w >> 16) & 0xFF) as bv8, (w >> 24) as bv8]
  }

  function Flat(k: seq<word>): (s: seq<bv8>)
    ensures |s| == 4 * |k|
  {
    if k == [] then [] else Bytes4(k[0]) + Flat(k[1..])
  }

  lemma LittleBytes(w: word)
    ensures Little(Bytes4(w)) == w
  {
  }

  function WordAt(k: seq<word>, i: nat): word {
    if i < |k| then k[i] else 0
  }

  function AddWords(x: Registers, k: seq<word>): Registers {
    Registers(Plus(x.a, WordAt(k, 0)), Plus(x.b, WordAt(k, 1)), Plus(x.c, WordAt(k, 2)))
  }

  function HashWords(x: Registers, k: seq<word>): Registers
    decreases |k|
  {
    if |k| > 3 then HashWords(Mix(AddWords(x, k)), k[3..])
    else if k == [] then x
    else Final(AddWords(x, k))
  }

  lemma FourBytes(w: word)
    ensures |Bytes4(w)| == 4
  {
  }

  lemma {:induction false} FlatAt(k: seq<word>, i: nat)
    requires i < |k|
    ensures Flat(k)[4 * i..4 * i + 4] == Bytes4(k[i]) && Flat(k)[4 * i..] == Flat(k[i..])
  {
    hide Bytes4;
    FourBytes(k[0]);
    SliceAfter(Bytes4(k[0]), Flat(k[1..]), 0, 0);
    if i > 0 {
      FlatAt(k[1..], i - 1);
      SliceAfter(Bytes4(k[0]), Flat(k[1..]), 4 * (i - 1), 4 * (i - 1) + 4);
      assert k[1..][i - 1..] == k[i..];
    }
  }

  /** Adding words is adding their bytes. */
  lemma AddIsAdd(x: Registers, k: seq<word>, s: seq<bv8>)
    requires s == Flat(k)[..Min(|Flat(k)|, 12)]
    ensures AddWords(x, k) == Add(x, s)
  {
    hide Plus, Little, Bytes4, Flat;
    PieceIs(k, s, 0);
    PieceIs(k, s, 1);
    PieceIs(k, s, 2);
  }

  lemma PieceIs(k: seq<word>, s: seq<bv8>, i: nat)
    requires i < 3 && s == Flat(k)[..Min(|Flat(k)|, 12)]
    ensures Little(Piece(s, i)) == WordAt(k, i)
  {
    hide Little, Bytes4, Flat;
    FlatSize(k);
    if i < |k| {
      FlatAt(k, i);
      assert Piece(s, i) == Flat(k)[4 * i..4 * i + 4];
      LittleBytes(k[i]);
    } else {
      assert Piece(s, i) == [];
      LittleNone();
    }
  }

  lemma FlatSize(k: seq<word>)
    ensures |Flat(k)| == 4 * |k|
  {
  }

  lemma LittleNone()
    ensures Little([]) == 0
  {
  }

  /** The word hash is the byte hash of the words' bytes. */
  lemma {:induction false} WordsAreBytes(x: Registers, k: seq<word>)
    ensures HashWords(x, k) == Hash(x, Flat(k))
    decreases |k|
  {
    hide Mix, Final, Add, AddWords, Flat;
    FlatSize(k);
    var s := Flat(k);
    AddIsAdd(x, k, s[..Min(|s|, 12)]);
    if |k| > 3 {
      FlatAt(k, 3);
      WordsAreBytes(Mix(AddWords(x, k)), k[3..]);
    } else {
      assert s[..|s|] == s;
    }
  }

  function Quad(x: word): word { x << 2 }

  lemma {:induction false} TruncQuad(n: nat)
    ensures Trunc(4 * n) == Quad(Trunc(n))
  {
    if n > 0 {
      TruncQuad(n - 1);
      var m := 4 * (n - 1);
      var t := Trunc(n - 1);
      assert Trunc(m + 4) == Plus(Plus(Plus(Plus(Trunc(m), 1), 1), 1), 1) by {
        hide Plus;
        assert Trunc(m + 1) == Plus(Trunc(m), 1);
        assert Trunc(m + 2) == Plus(Trunc(m + 1), 1);
        assert Trunc(m + 3) == Plus(Trunc(m + 2), 1);
      }
      QuadPlus(t);
    }
  }

  lemma QuadPlus(t: word)
    ensures Plus(Plus(Plus(Plus(Quad(t), 1), 1), 1), 1) == Quad(Plus(t, 1))
  {
  }

  /** The hash of an array of words is the hash of its little-endian bytes. */
  method HashWord(k: seq<word>, seed: word) returns (hash: word)
    ensures hash == Hash(Init(4 * |k|, seed), Flat(k)).c
  {
    hide Mix, Final, AddWords, Trunc, Quad, Plus, Hash;
    TruncQuad(|k|);
    var start := Plus(Plus(0xdeadbeef, Quad(Trunc(|k|))), seed);
    var x := Registers(start, start, start);
    WordsAreBytes(x, k);
    var i := 0;
    ghost var x0 := x;
    while |k| - i > 3
      invariant 0 <= i <= |k| && HashWords(x, k[i..]) == HashWords(x0, k)
      decreases |k| - i
    {
      assert k[i..][3..] == k[i + 3..];
      x := Mix(AddWords(x, k[i..]));
      i := i + 3;
    }
    if |k| - i > 0 { x := Final(AddWords(x, k[i..])); }
    return x.c;
  }

  // The hashes that the hash's author gives for known keys.

  lemma ZeroMix0()
    ensures Mix(Registers(0x51232E53, 0x4E11322D, 0x3FCE247F)) == Registers(0xF859AD7A, 0x04BC57AE, 0x40DDDD7E)
  {
    assert Turn(Registers(0x51232E53, 0x4E11322D, 0x3FCE247F), 4) == Registers(0xEDB74E27, 0x4E11322D, 0x8DDF56AC);
    assert Turn(Registers(0x4E11322D, 0x8DDF56AC, 0xEDB74E27), 6) == Registers(0x0D8A6DFD, 0x8DDF56AC, 0x7B96A4D3);
    assert Turn(Registers(0x8DDF56AC, 0x7B96A4D3, 0x0D8A6DFD), 8) == Registers(0x0A3915A2, 0x7B96A4D3, 0x892112D0);
    assert Turn(Registers(0x7B96A4D3, 0x892112D0, 0x0A3915A2), 16) == Registers(0x64FF8508, 0x892112D0, 0x935A2872);
    assert Turn(Registers(0x892112D0, 0x935A2872, 0x64FF8508), 19) == Registers(0x0C62AA34, 0x935A2872, 0xF859AD7A);
    assert Turn(Registers(0x935A2872, 0xF859AD7A, 0x0C62AA34), 4) == Registers(0x40DDDD7E, 0xF859AD7A, 0x04BC57AE);
  }

  lemma ZeroMix1()
    ensures Mix(Registers(0x6B7A11E8, 0x7321CE13, 0xA243569E)) == Registers(0x336ADED2, 0x059F2642, 0xBD02EBD5)
  {
    assert Turn(Registers(0x6B7A11E8, 0x7321CE13, 0xA243569E), 4) == Registers(0xED03D2A0, 0x7321CE13, 0x156524B1);
    assert Turn(Registers(0x7321CE13, 0x156524B1, 0xED03D2A0), 6) == Registers(0xC6E95348, 0x156524B1, 0x0268F751);
    assert Turn(Registers(0x156524B1, 0x0268F751, 0xC6E95348), 8) == Registers(0xA72899AF, 0x0268F751, 0xC9524A99);
    assert Turn(Registers(0x0268F751, 0xC9524A99, 0xA72899AF), 16) == Registers(0xC2EFFA8A, 0xC9524A99, 0x707AE448);
    assert Turn(Registers(0xC9524A99, 0x707AE448, 0xC2EFFA8A), 19) == Registers(0xD2344770, 0x707AE448, 0x336ADED2);
    assert Turn(Registers(0x707AE448, 0x336ADED2, 0xD2344770), 4) == Registers(0xBD02EBD5, 0x336ADED2, 0x059F2642);
  }

  lemma ZeroFinal()
    ensures Final(Registers(0x948B5244, 0x059F95A9, 0xBD02EBD5)) == Registers(0x9A837816, 0xCE7226E6, 0x17770551)
  {
    assert Settle(0xBD02EBD5, 0x059F95A9, 14) == 0xD3333D15;
    assert Settle(0x948B5244, 0xD3333D15, 11) == 0xADCFC0B8;
    assert Settle(0x059F95A9, 0xADCFC0B8, 25) == 0x36F4B590;
    assert Settle(0xD3333D15, 0x36F4B590, 16) == 0x30375191;
    assert Settle(0xADCFC0B8, 0x30375191, 4) == 0x9A837816;
    assert Settle(0x36F4B590, 0x9A837816, 14) == 0xCE7226E6;
    assert Settle(0x30375191, 0xCE7226E6, 24) == 0x17770551;
  }

  lemma OneMix0()
    ensures Mix(Registers(0x51232E54, 0x4E11322E, 0x3FCE2480)) == Registers(0x9FB9ADE6, 0x89211BA9, 0x3FFFF143)
  {
    assert Turn(Registers(0x51232E54, 0x4E11322E, 0x3FCE2480), 4) == Registers(0xEDB741D7, 0x4E11322E, 0x8DDF56AE);
    assert Turn(Registers(0x4E11322E, 0x8DDF56AE, 0xEDB741D7), 6) == Registers(0x0D8985AC, 0x8DDF56AE, 0x7B969885);
    assert Turn(Registers(0x8DDF56AE, 0x7B969885, 0x0D8985AC), 8) == Registers(0x09D07D0F, 0x7B969885, 0x89201E31);
    assert Turn(Registers(0x7B969885, 0x89201E31, 0x09D07D0F), 16) == Registers(0x0CC912A6, 0x89201E31, 0x92F09B40);
    assert Turn(Registers(0x89201E31, 0x92F09B40, 0x0CC912A6), 19) == Registers(0xE9676DC3, 0x92F09B40, 0x9FB9ADE6);
    assert Turn(Registers(0x92F09B40, 0x9FB9ADE6, 0xE9676DC3), 4) == Registers(0x3FFFF143, 0x9FB9ADE6, 0x89211BA9);
  }

  lemma OneMix1()
    ensures Mix(Registers(0x12DA1254, 0xF786920E, 0xA1656A63)) == Registers(0xD68042AD, 0x488E0A5D, 0xAB16E7B2)
  {
    assert Turn(Registers(0x12DA1254, 0xF786920E, 0xA1656A63), 4) == Registers(0x672201CB, 0xF786920E, 0x98EBFC71);
    assert Turn(Registers(0xF786920E, 0x98EBFC71, 0x672201CB), 6) == Registers(0x58E4E29A, 0x98EBFC71, 0x000DFE3C);
    assert Turn(Registers(0x98EBFC71, 0x000DFE3C, 0x58E4E29A), 8) == Registers(0xA4E5838F, 0x000DFE3C, 0x58F2E0D6);
    assert Turn(Registers(0x000DFE3C, 0x58F2E0D6, 0xA4E5838F), 16) == Registers(0xD8A7DE48, 0x58F2E0D6, 0xFDD86465);
    assert Turn(Registers(0x58F2E0D6, 0xFDD86465, 0xD8A7DE48), 19) == Registers(0x720DC7B0, 0xFDD86465, 0xD68042AD);
    assert Turn(Registers(0xFDD86465, 0xD68042AD, 0x720DC7B0), 4) == Registers(0xAB16E7B2, 0xD68042AD, 0x488E0A5D);
  }

  lemma OneFinal()
    ensures Final(Registers(0x37A0B61F, 0x488E79C4, 0xAB16E7B2)) == Registers(0x1336F927, 0x6CBEA4B3, 0xCD628161)
  {
    assert Settle(0xAB16E7B2, 0x488E79C4, 14) == 0x45278C53;
    assert Settle(0x37A0B61F, 0x45278C53, 11) == 0x3624A023;
    assert Settle(0x488E79C4, 0x3624A023, 25) == 0x383E90A7;
    assert Settle(0x45278C53, 0x383E90A7, 16) == 0xEC71E4B6;
    assert Settle(0x3624A023, 0xEC71E4B6, 4) == 0x1336F927;
    assert Settle(0x383E90A7, 0x1336F927, 14) == 0x6CBEA4B3;
    assert Settle(0xEC71E4B6, 0x6CBEA4B3, 24) == 0xCD628161;
  }

  /** "Four score and seven years ago", in blocks of twelve bytes. */
  const FOUR_SCORE: seq<bv8> := [70, 111, 117, 114, 32, 115, 99, 111, 114, 101, 32, 97]
  const AND_SEVEN: seq<bv8> := [110, 100, 32, 115, 101, 118, 101, 110, 32, 121, 101, 97]
  const YEARS_AGO: seq<bv8> := [114, 115, 32, 97, 103, 111]

  lemma FourScoreWords()
    ensures Little(Piece(FOUR_SCORE, 0)) == 0x72756F46 && Little(Piece(FOUR_SCORE, 1)) == 0x6F637320 && Little(Piece(FOUR_SCORE, 2)) == 0x61206572
  {
    assert Piece(FOUR_SCORE, 0) == [70, 111, 117, 114];
    assert Join(70, 111, 117, 114) == 0x72756F46;
    assert Piece(FOUR_SCORE, 1) == [32, 115, 99, 111];
    assert Join(32, 115, 99, 111) == 0x6F637320;
    assert Piece(FOUR_SCORE, 2) == [114, 101, 32, 97];
    assert Join(114, 101, 32, 97) == 0x61206572;
  }

  lemma AndSevenWords()
    ensures Little(Piece(AND_SEVEN, 0)) == 0x7320646E && Little(Piece(AND_SEVEN, 1)) == 0x6E657665 && Little(Piece(AND_SEVEN, 2)) == 0x61657920
  {
    assert Piece(AND_SEVEN, 0) == [110, 100, 32, 115];
    assert Join(110, 100, 32, 115) == 0x7320646E;
    assert Piece(AND_SEVEN, 1) == [101, 118, 101, 110];
    assert Join(101, 118, 101, 110) == 0x6E657665;
    assert Piece(AND_SEVEN, 2) == [32, 121, 101, 97];
    assert Join(32, 121, 101, 97) == 0x61657920;
  }

  lemma YearsAgoWords()
    ensures Little(Piece(YEARS_AGO, 0)) == 0x61207372 && Little(Piece(YEARS_AGO, 1)) == 0x00006F67 && Little(Piece(YEARS_AGO, 2)) == 0x00000000
  {
    assert Piece(YEARS_AGO, 0) == [114, 115, 32, 97];
    assert Join(114, 115, 32, 97) == 0x61207372;
    assert Piece(YEARS_AGO, 1) == [103, 111];
    assert Join(103, 111, 0, 0) == 0x00006F67;
    assert Piece(YEARS_AGO, 2) == [];
    assert Join(0, 0, 0, 0) == 0x00000000;
  }

  lemma HashMore(x: Registers, a: seq<bv8>, s: seq<bv8>)
    requires |a| == 12 && s != []
    ensures Hash(x, a + s) == Hash(Mix(Add(x, a)), s)
  {
    hide Mix, Add;
    assert (a + s)[..12] == a && (a + s)[12..] == s;
  }

  lemma FourScoreZero()
    ensures Hash(Registers(0xDEADBF0D, 0xDEADBF0D, 0xDEADBF0D), FOUR_SCORE + AND_SEVEN + YEARS_AGO) == Registers(0x9A837816, 0xCE7226E6, 0x17770551)
  {
    hide Hash, Mix, Final, Little, Piece;
    assert FOUR_SCORE + AND_SEVEN + YEARS_AGO == FOUR_SCORE + (AND_SEVEN + YEARS_AGO);
    FourScoreWords();
    AndSevenWords();
    YearsAgoWords();
    HashMore(Registers(0xDEADBF0D, 0xDEADBF0D, 0xDEADBF0D), FOUR_SCORE, AND_SEVEN + YEARS_AGO);
    assert Add(Registers(0xDEADBF0D, 0xDEADBF0D, 0xDEADBF0D), FOUR_SCORE) == Registers(0x51232E53, 0x4E11322D, 0x3FCE247F);
    ZeroMix0();
    HashMore(Registers(0xF859AD7A, 0x04BC57AE, 0x40DDDD7E), AND_SEVEN, YEARS_AGO);
    assert Add(Registers(0xF859AD7A, 0x04BC57AE, 0x40DDDD7E), AND_SEVEN) == Registers(0x6B7A11E8, 0x7321CE13, 0xA243569E);
    ZeroMix1();
    HashEnd(Registers(0x336ADED2, 0x059F2642, 0xBD02EBD5), YEARS_AGO);
    assert Add(Registers(0x336ADED2, 0x059F2642, 0xBD02EBD5), YEARS_AGO) == Registers(0x948B5244, 0x059F95A9, 0xBD02EBD5);
    ZeroFinal();
  }

  lemma FourScoreOne()
    ensures Hash(Registers(0xDEADBF0E, 0xDEADBF0E, 0xDEADBF0E), FOUR_SCORE + AND_SEVEN + YEARS_AGO) == Registers(0x1336F927, 0x6CBEA4B3, 0xCD628161)
  {
    hide Hash, Mix, Final, Little, Piece;
    assert FOUR_SCORE + AND_SEVEN + YEARS_AGO == FOUR_SCORE + (AND_SEVEN + YEARS_AGO);
    FourScoreWords();
    AndSevenWords();
    YearsAgoWords();
    HashMore(Registers(0xDEADBF0E, 0xDEADBF0E, 0xDEADBF0E), FOUR_SCORE, AND_SEVEN + YEARS_AGO);
    assert Add(Registers(0xDEADBF0E, 0xDEADBF0E, 0xDEADBF0E), FOUR_SCORE) == Registers(0x51232E54, 0x4E11322E, 0x3FCE2480);
    OneMix0();
    HashMore(Registers(0x9FB9ADE6, 0x89211BA9, 0x3FFFF143), AND_SEVEN, YEARS_AGO);
    assert Add(Registers(0x9FB9ADE6, 0x89211BA9, 0x3FFFF143), AND_SEVEN) == Registers(0x12DA1254, 0xF786920E, 0xA1656A63);
    OneMix1();
    HashEnd(Registers(0xD68042AD, 0x488E0A5D, 0xAB16E7B2), YEARS_AGO);
    assert Add(Registers(0xD68042AD, 0x488E0A5D, 0xAB16E7B2), YEARS_AGO) == Registers(0x37A0B61F, 0x488E79C4, 0xAB16E7B2);
    OneFinal();
  }

  /** What `hashlittle` makes of the author's sentence with the seeds 0 and 1, and of the empty key. */
  lemma KnownHashes()
    ensures Hash(Init(0, 0), []).c == 0xDEADBEEF
    ensures Hash(Init(30, 0), FOUR_SCORE + AND_SEVEN + YEARS_AGO).c == 0x17770551
    ensures Hash(Init(30, 1), FOUR_SCORE + AND_SEVEN + YEARS_AGO).c == 0xCD628161
  {
    hide Hash, Mix, Final, Add;
    TruncSmall();
    EmptyHash(Init(0, 0));
    FourScoreZero();
    FourScoreOne();
  }

  lemma EmptyHash(x: Registers)
    ensures Hash(x, []) == x
  {
  }

  lemma TruncSmall()
    ensures Init(0, 0) == Registers(0xDEADBEEF, 0xDEADBEEF, 0xDEADBEEF)
    ensures Init(30, 0) == Registers(0xDEADBF0D, 0xDEADBF0D, 0xDEADBF0D)
    ensures Init(30, 1) == Registers(0xDEADBF0E, 0xDEADBF0E, 0xDEADBF0E)
  {
    TruncThirty();
  }

  lemma TruncThirty()
    ensures Trunc(0) == 0 && Trunc(30) == 30
  {
    assert Trunc(10) == 10;
    assert Trunc(20) == 20;
  }
}
