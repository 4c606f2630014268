/** CRC-32 bit by bit, by table, four bytes at a time, and combined over a concatenation. */
module Crc32 {
  import opened Words

  const POLY: word := 0xEDB88320
  const ONES: word := 0xFFFF_FFFF

  /** One step of the shift register: multiplication by x modulo the polynomial. */
  function Bit(c: word): word {
    if Odd(c) then Xor(POLY, Half(c)) else Half(c)
  }

  function Shift(c: word, n: nat): word
    decreases n
  {
    if n == 0 then c else Shift(Bit(c), n - 1)
  }

  /** The register after a run of bytes, fed bit by bit. */
  function Feed(c: word, s: seq<bv8>): word
    decreases |s|
  {
    if s == [] then c else Feed(Shift(Xor(c, Word(s[0])), 8), s[1..])
  }

  /** The checksum of section 8 of RFC 1952, continued from an earlier one. */
  function Crc(crc: word, s: seq<bv8>): word {
    Xor(Feed(Xor(crc, ONES), s), ONES)
  }

  lemma BitLinear(a: word, b: word)
    ensures Bit(Xor(a, b)) == Xor(Bit(a), Bit(b))
  {
    hide Xor, Odd, Half;
    OddXor(a, b);
    HalfXor(a, b);
    XorSwap(POLY, Half(a), POLY, Half(b));
    XorZero(POLY);
    XorZero(Xor(Half(a), Half(b)));
    XorAssoc(POLY, Half(a), Half(b));
    XorComm(POLY, Half(b));
    XorAssoc(Half(a), Half(b), POLY);
    XorComm(Xor(Half(a), Half(b)), POLY);
  }

  lemma {:induction false} ShiftLinear(a: word, b: word, n: nat)
    ensures Shift(Xor(a, b), n) == Xor(Shift(a, n), Shift(b, n))
    decreases n
  {
    hide Xor, Bit;
    if n > 0 {
      BitLinear(a, b);
      ShiftLinear(Bit(a), Bit(b), n - 1);
    }
  }

  lemma {:induction false} ShiftAdd(c: word, m: nat, n: nat)
    ensures Shift(c, m + n) == Shift(Shift(c, m), n)
    decreases m
  {
    hide Bit;
    if m > 0 { ShiftAdd(Bit(c), m - 1, n); }
  }

  lemma {:induction false} ShiftZero(n: nat)
    ensures Shift(0, n) == 0
  {
    if n > 0 {
      assert Bit(0) == 0;
      ShiftZero(n - 1);
    }
  }

  /** Eight steps on a register whose low byte is zero only move it. */
  lemma ShiftHigh(c: word)
    requires LowByte(c) == 0
    ensures Shift(c, 8) == HighBytes(c)
  {
    assert Bit(c) == c >> 1;
    assert Bit(c >> 1) == c >> 2;
    assert Bit(c >> 2) == c >> 3;
    assert Bit(c >> 3) == c >> 4;
    assert Bit(c >> 4) == c >> 5;
    assert Bit(c >> 5) == c >> 6;
    assert Bit(c >> 6) == c >> 7;
    assert Bit(c >> 7) == c >> 8;
    assert Shift(c, 8) == Shift(c >> 1, 7) == Shift(c >> 2, 6) == Shift(c >> 3, 5) == Shift(c >> 4, 4);
    assert Shift(c >> 4, 4) == Shift(c >> 5, 3) == Shift(c >> 6, 2) == Shift(c >> 7, 1) == Shift(c >> 8, 0);
  }

  /** What a table of 256 entries is enough for: the low byte decides what is added to the shifted rest. */
  lemma ByTable(c: word)
    ensures Shift(c, 8) == Xor(Shift(LowByte(c), 8), HighBytes(c))
  {
    hide Xor, LowByte, HighBytes, Shift;
    var high := SplitByte(c);
    ShiftLinear(LowByte(c), high, 8);
    ShiftHigh(high);
  }

  /** Adding to the register after a byte's shift is adding a byte higher before it. */
  lemma Absorb(c: word, x: word)
    requires Fits24(x)
    ensures Xor(Shift(c, 8), x) == Shift(Xor(c, Up(x)), 8)
  {
    hide Xor, Up, Shift, Fits24, LowByte, HighBytes;
    UpDown(x);
    ShiftHigh(Up(x));
    ShiftLinear(c, Up(x), 8);
  }

  /** Up to four bytes may be fed at once, as one little-endian word. */
  lemma {:induction false} FeedTogether(c: word, s: seq<bv8>)
    requires |s| <= 4
    ensures Feed(c, s) == Shift(Xor(c, Stack(s)), 8 * |s|)
    decreases |s|
  {
    hide Xor, Up, Shift, Fits24, Word;
    if s == [] {
      XorZero(c);
      NoShift(c);
    } else {
      var d := Xor(c, Word(s[0]));
      var rest := Stack(s[1..]);
      FeedTogether(Shift(d, 8), s[1..]);
      StackFits(s[1..]);
      Absorb(d, rest);
      ShiftAdd(Xor(d, Up(rest)), 8, 8 * (|s| - 1));
      XorAssoc(c, Word(s[0]), Up(rest));
    }
  }

  lemma NoShift(c: word)
    ensures Shift(c, 0) == c
  {
  }

  /** A shift by whole bytes, taken apart byte by byte. */
  function Slices(c: word, k: nat): word
    decreases k
  {
    if k == 0 then c else Xor(Shift(LowByte(c), 8 * k), Slices(HighBytes(c), k - 1))
  }

  lemma {:induction false} ShiftSlices(c: word, k: nat)
    ensures Shift(c, 8 * k) == Slices(c, k)
    decreases k
  {
    hide Xor, LowByte, HighBytes, Shift;
    if k == 0 {
      NoShift(c);
    } else {
      var n := 8 * (k - 1);
      ShiftAdd(c, 8, n);
      ByTable(c);
      ShiftLinear(Shift(LowByte(c), 8), HighBytes(c), n);
      ShiftAdd(LowByte(c), 8, n);
      ShiftSlices(HighBytes(c), k - 1);
    }
  }

  lemma {:induction false} FeedAppend(c: word, s: seq<bv8>, t: seq<bv8>)
    ensures Feed(c, s + t) == Feed(Feed(c, s), t)
    decreases |s|
  {
    hide Xor, Shift;
    if s == [] {
      assert s + t == t;
    } else {
      FeedAppend(Shift(Xor(c, Word(s[0])), 8), s[1..], t);
      assert (s + t)[1..] == s[1..] + t;
    }
  }

  /** Table k holds, for each byte, the register it leads to when followed by k zero bytes. */
  ghost predicate TablesOk(t: array2<word>)
    reads t
  {
    && t.Length0 == 4 && t.Length1 == 256
    && forall k, n :: 0 <= k < 4 && 0 <= n < 256 ==> t[k, n] == Shift(Value(n), 8 * (k + 1))
  }

  /** The exponents of the polynomial's terms but the first, x^32. */
  const EXPONENTS: seq<nat> := [0, 1, 2, 4, 5, 7, 8, 10, 11, 12, 16, 22, 23, 26]

  /** The bit of x^e: the highest power comes last. */
  function Term(e: nat): word
    requires e < 32
  {
    (1 as word) << (31 - e)
  }

  /** The bits of the first `n` of them. */
  ghost function Terms(n: nat): word
    requires n <= |EXPONENTS|
  {
    if n == 0 then 0 else Terms(n - 1) | Term(EXPONENTS[n - 1])
  }

  /** The exclusive-or pattern has exactly one bit for each term. */
  lemma PolyTerms()
    ensures Terms(|EXPONENTS|) == POLY
  {
    hide Term;
    TermValues();
    assert Terms(1) == 0x80000000;
    assert Terms(2) == 0xC0000000;
    assert Terms(3) == 0xE0000000;
    assert Terms(4) == 0xE8000000;
    assert Terms(5) == 0xEC000000;
    assert Terms(6) == 0xED000000;
    assert Terms(7) == 0xED800000;
    assert Terms(8) == 0xEDA00000;
    assert Terms(9) == 0xEDB00000;
    assert Terms(10) == 0xEDB80000;
    assert Terms(11) == 0xEDB88000;
    assert Terms(12) == 0xEDB88200;
    assert Terms(13) == 0xEDB88300;
    assert Terms(14) == 0xEDB88320;
  }

  lemma TermValues()
    ensures Term(0) == 0x80000000
    ensures Term(1) == 0x40000000
    ensures Term(2) == 0x20000000
    ensures Term(4) == 0x08000000
    ensures Term(5) == 0x04000000
    ensures Term(7) == 0x01000000
    ensures Term(8) == 0x00800000
    ensures Term(10) == 0x00200000
    ensures Term(11) == 0x00100000
    ensures Term(12) == 0x00080000
    ensures Term(16) == 0x00008000
    ensures Term(22) == 0x00000200
    ensures Term(23) == 0x00000100
    ensures Term(26) == 0x00000020
  {
  }

  lemma BitMeans(c: word)
    ensures Bit(c) == if Odd(c) then Xor(POLY, Half(c)) else Half(c)
  {
  }

  method MakePoly() returns (poly: word)
    ensures poly == POLY
  {
    hide Term;
    poly := 0;
    for n := 0 to |EXPONENTS|
      invariant poly == Terms(n)
    {
      poly := poly | Term(EXPONENTS[n]);
    }
    PolyTerms();
  }

  method MakeTables() returns (t: array2<word>)
    ensures fresh(t) && TablesOk(t)
  {
    hide Shift, Bit, Xor, Value, LowByte, HighBytes, Odd, Half;
    var poly := MakePoly();
    t := new word[4, 256]((_, _) => 0);
    for n := 0 to 256
      invariant forall i :: 0 <= i < n ==> t[0, i] == Shift(Value(i), 8)
    {
      var c := Value(n);
      NoShift(c);
      for k := 0 to 8
        invariant c == Shift(Value(n), k)
        invariant forall i :: 0 <= i < n ==> t[0, i] == Shift(Value(i), 8)
      {
        ShiftNext(Value(n), k);
        BitMeans(c);
        c := if Odd(c) then Xor(poly, Half(c)) else Half(c);
      }
      t[0, n] := c;
    }
    for n := 0 to 256
      invariant forall i :: 0 <= i < 256 ==> t[0, i] == Shift(Value(i), 8)
      invariant forall k, i :: 0 <= k < 4 && 0 <= i < n ==> t[k, i] == Shift(Value(i), 8 * (k + 1))
    {
      var c := t[0, n];
      for k := 1 to 4
        invariant c == Shift(Value(n), 8 * k)
        invariant forall i :: 0 <= i < 256 ==> t[0, i] == Shift(Value(i), 8)
        invariant forall j, i :: 0 <= j < 4 && 0 <= i < n ==> t[j, i] == Shift(Value(i), 8 * (j + 1))
        invariant forall j :: 0 <= j < k ==> t[j, n] == Shift(Value(n), 8 * (j + 1))
      {
        IndexValue(c);
        ByTable(c);
        ShiftAdd(Value(n), 8 * k, 8);
        c := Xor(t[0, Index(c)], HighBytes(c));
        t[k, n] := c;
      }
    }
  }

  lemma ShiftNext(c: word, k: nat)
    ensures Shift(c, k + 1) == Bit(Shift(c, k))
  {
    hide Bit;
    ShiftAdd(c, k, 1);
    assert Shift(Shift(c, k), 1) == Shift(Bit(Shift(c, k)), 0);
  }

  /** One byte through the table. */
  method OneByte(t: array2<word>, c: word, b: bv8) returns (r: word)
    requires TablesOk(t)
    ensures r == Feed(c, [b])
  {
    hide Shift, Xor, Value, LowByte, HighBytes, Word;
    var d := Xor(c, Word(b));
    IndexValue(d);
    ByTable(d);
    r := Xor(t[0, Index(d)], HighBytes(d));
    assert Feed(c, [b]) == Feed(Shift(d, 8), []);
  }

  /** Four bytes through the four tables at once. */
  method FourBytes(t: array2<word>, c: word, b: seq<bv8>) returns (r: word)
    requires TablesOk(t) && |b| == 4
    ensures r == Feed(c, b)
  {
    hide Shift, Xor, Value, LowByte, HighBytes, Load, Stack;
    var d := Xor(c, Load(b));
    LoadStack(b);
    FeedTogether(c, b);
    ShiftSlices(d, 4);
    var e := HighBytes(d);
    var f := HighBytes(e);
    var g := HighBytes(f);
    IndexValue(d);
    IndexValue(e);
    IndexValue(f);
    IndexValue(g);
    TopByte(d);
    r := Xor(Xor(Xor(t[3, Index(d)], t[2, Index(e)]), t[1, Index(f)]), t[0, Index(g)]);
    SlicesFour(d);
  }

  lemma SlicesFour(d: word)
    ensures var e := HighBytes(d); var f := HighBytes(e); var g := HighBytes(f);
            Slices(d, 4) == Xor(Xor(Xor(Shift(LowByte(d), 32), Shift(LowByte(e), 24)), Shift(LowByte(f), 16)), Shift(LowByte(g), 8))
  {
    hide Shift, Xor, LowByte, HighBytes;
    var e := HighBytes(d);
    var f := HighBytes(e);
    var g := HighBytes(f);
    TopByte(d);
    var p, q, r, s := Shift(LowByte(d), 32), Shift(LowByte(e), 24), Shift(LowByte(f), 16), Shift(LowByte(g), 8);
    assert Slices(g, 1) == Xor(s, Slices(HighBytes(g), 0));
    XorZero(s);
    assert Slices(f, 2) == Xor(r, Slices(g, 1));
    assert Slices(e, 3) == Xor(q, Slices(f, 2));
    XorAssoc(Xor(p, q), r, s);
    XorAssoc(p, q, Xor(r, s));
  }

  /** A byte range through the table, a byte at a time. */
  method FeedBytes(t: array2<word>, c: word, s: seq<bv8>) returns (r: word)
    requires TablesOk(t)
    ensures r == Feed(c, s)
  {
    r := c;
    for i := 0 to |s|
      invariant r == Feed(c, s[..i])
    {
      FeedAppend(c, s[..i], [s[i]]);
      assert s[..i + 1] == s[..i] + [s[i]];
      r := OneByte(t, r, s[i]);
    }
    assert s[..|s|] == s;
  }

  /** The bytewise form. */
  method ByteWise(t: array2<word>, crc: word, s: seq<bv8>) returns (r: word)
    requires TablesOk(t)
    ensures r == Crc(crc, s)
  {
    r := FeedBytes(t, Xor(crc, ONES), s);
    r := Xor(r, ONES);
  }

  /** Words of four bytes, as many as there are. */
  method FeedWords(t: array2<word>, c: word, s: seq<bv8>) returns (r: word, n: nat)
    requires TablesOk(t)
    ensures n <= |s| < n + 4 && r == Feed(c, s[..n])
  {
    r, n := c, 0;
    while |s| - n >= 4
      invariant n <= |s| && r == Feed(c, s[..n])
      decreases |s| - n
    {
      FeedAppend(c, s[..n], s[n..n + 4]);
      assert s[..n + 4] == s[..n] + s[n..n + 4];
      r := FourBytes(t, r, s[n..n + 4]);
      n := n + 4;
    }
  }

  /** The little-endian form: bytes up to an aligned address, then words, then the bytes left over. */
  method ByFour(t: array2<word>, crc: word, s: seq<bv8>, address: nat) returns (r: word)
    requires TablesOk(t)
    ensures r == Crc(crc, s)
  {
    hide Xor, Feed, TablesOk;
    var c := Xor(crc, ONES);
    var lead := (4 - address % 4) % 4;
    if lead > |s| { lead := |s|; }
    var a := FeedBytes(t, c, s[..lead]);
    var b, n := FeedWords(t, a, s[lead..]);
    var d := FeedBytes(t, b, s[lead..][n..]);
    FeedAppend(c, s[..lead], s[lead..]);
    FeedAppend(a, s[lead..][..n], s[lead..][n..]);
    assert s == s[..lead] + s[lead..] && s[lead..] == s[lead..][..n] + s[lead..][n..];
    r := Xor(d, ONES);
  }

  // Checksums of concatenations.

  /** A matrix over GF(2) applied to a vector: the sum of the rows that the vector's bits select. */
  function Times(mat: seq<word>, v: word): word
    decreases |mat|
  {
    if mat == [] || v == 0 then 0
    else Xor(if Odd(v) then mat[0] else 0, Times(mat[1..], Half(v)))
  }

  function Unit(n: nat): word {
    if n == 0 then 1 else Double(Unit(n - 1))
  }

  function Raise(v: word, n: nat): word
    decreases n
  {
    if n == 0 then v else Raise(Double(v), n - 1)
  }

  /** `v` has no bit at or above place n. */
  ghost predicate Below(v: word, n: nat)
    decreases n
  {
    if n == 0 then v == 0 else Below(Half(v), n - 1)
  }

  /** The matrix for `k` steps of the register. */
  ghost predicate Operator(mat: seq<word>, k: nat) {
    |mat| == 32 && forall n :: 0 <= n < 32 ==> mat[n] == Shift(Unit(n), k)
  }

  lemma {:induction false} RaiseLinear(a: word, b: word, n: nat)
    ensures Raise(Xor(a, b), n) == Xor(Raise(a, n), Raise(b, n))
    decreases n
  {
    hide Xor, Double;
    if n > 0 {
      DoubleXor(a, b);
      RaiseLinear(Double(a), Double(b), n - 1);
    }
  }

  lemma {:induction false} RaiseNext(v: word, n: nat)
    ensures Raise(v, n + 1) == Double(Raise(v, n))
    decreases n
  {
    hide Double;
    if n > 0 { RaiseNext(Double(v), n - 1); }
  }

  lemma {:induction false} RaiseUnit(n: nat)
    ensures Raise(1, n) == Unit(n)
  {
    hide Double;
    if n > 0 {
      RaiseUnit(n - 1);
      RaiseNext(1, n - 1);
    }
  }

  lemma {:induction false} RaiseZero(n: nat)
    ensures Raise(0, n) == 0
  {
    if n > 0 {
      assert Double(0) == 0;
      RaiseZero(n - 1);
    }
  }

  /** A matrix of shifted units, from the j-th on, applied to a vector is the shift of the raised vector. */
  lemma {:induction false} TimesShift(mat: seq<word>, j: nat, k: nat, v: word)
    requires forall n :: 0 <= n < |mat| ==> mat[n] == Shift(Unit(n + j), k)
    requires Below(v, |mat|)
    ensures Times(mat, v) == Shift(Raise(v, j), k)
    decreases |mat|
  {
    hide Xor, Double, Half, Odd, Shift;
    if v == 0 {
      RaiseZero(j);
      ShiftZero(k);
    } else {
      var bit: word := if Odd(v) then 1 else 0;
      var rest := Raise(Half(v), j + 1);
      TimesShift(mat[1..], j + 1, k, Half(v));
      Split(v);
      RaiseLinear(bit, Double(Half(v)), j);
      RaiseUnit(j);
      RaiseZero(j);
      ShiftZero(k);
      ShiftLinear(Raise(bit, j), rest, k);
      assert mat[0] == Shift(Unit(0 + j), k);
    }
  }

  lemma BelowSplit(v: word, m: nat)
    ensures Below(v, m + 8) == Below(HighBytes(v), m)
  {
    assert Half(Half(Half(Half(Half(Half(Half(Half(v)))))))) == HighBytes(v);
    hide Half, HighBytes;
    assert Below(v, m + 8) == Below(Half(v), m + 7) == Below(Half(Half(v)), m + 6);
    var w := Half(Half(v));
    assert Below(w, m + 6) == Below(Half(w), m + 5) == Below(Half(Half(w)), m + 4);
    var x := Half(Half(w));
    assert Below(x, m + 4) == Below(Half(x), m + 3) == Below(Half(Half(x)), m + 2);
    var y := Half(Half(x));
    assert Below(y, m + 2) == Below(Half(y), m + 1) == Below(Half(Half(y)), m);
  }

  lemma Below32(v: word)
    ensures Below(v, 32)
  {
    hide HighBytes;
    BelowSplit(v, 24);
    BelowSplit(HighBytes(v), 16);
    BelowSplit(HighBytes(HighBytes(v)), 8);
    BelowSplit(HighBytes(HighBytes(HighBytes(v))), 0);
    TopByte(v);
  }

  lemma OperatorTimes(mat: seq<word>, k: nat, v: word)
    requires Operator(mat, k)
    ensures Times(mat, v) == Shift(v, k)
  {
    Below32(v);
    TimesShift(mat, 0, k, v);
  }

  method MatrixTimes(mat: array<word>, vec: word) returns (sum: word)
    requires mat.Length == 32
    ensures sum == Times(mat[..], vec)
  {
    hide Xor, Half, Odd;
    sum := 0;
    var v, i := vec, 0;
    Below32(v);
    assert mat[0..] == mat[..];
    XorZero(Times(mat[..], vec));
    while v != 0
      invariant 0 <= i <= 32 && Below(v, 32 - i)
      invariant Xor(sum, Times(mat[i..], v)) == Times(mat[..], vec)
      decreases 32 - i
    {
      assert mat[i..][0] == mat[i] && mat[i..][1..] == mat[i + 1..];
      XorAssoc(sum, mat[i], Times(mat[i + 1..], Half(v)));
      XorZero(Times(mat[i + 1..], Half(v)));
      if Odd(v) { sum := Xor(sum, mat[i]); }
      v := Half(v);
      i := i + 1;
    }
    XorZero(sum);
  }

  /** Squaring the operator of k steps gives that of 2k. */
  method MatrixSquare(square: array<word>, mat: array<word>, ghost k: nat)
    requires square != mat && square.Length == 32 && mat.Length == 32 && Operator(mat[..], k)
    modifies square
    ensures Operator(square[..], 2 * k)
  {
    hide Shift, Times;
    for n := 0 to 32
      invariant Operator(mat[..], k)
      invariant forall i :: 0 <= i < n ==> square[i] == Shift(Unit(i), 2 * k)
    {
      OperatorTimes(mat[..], k, mat[n]);
      ShiftAdd(Unit(n), k, k);
      square[n] := MatrixTimes(mat, mat[n]);
    }
  }

  /** Before the first square: row 0 of the one-step operator is the polynomial, row n the unit n - 1. */
  method OneStep(odd: array<word>)
    requires odd.Length == 32
    modifies odd
    ensures Operator(odd[..], 1)
  {
    hide Shift, Double;
    odd[0] := POLY;
    StepUnit(0);
    var row: word := 1;
    for n := 1 to 32
      invariant row == Unit(n - 1)
      invariant forall i :: 0 <= i < n ==> odd[i] == Shift(Unit(i), 1)
    {
      StepUnit(n);
      odd[n] := row;
      row := Double(row);
    }
  }

  lemma {:induction false} BelowMore(v: word, m: nat, n: nat)
    requires Below(v, m) && m <= n
    ensures Below(v, n)
    decreases n
  {
    if m > 0 {
      BelowMore(Half(v), m - 1, n - 1);
    } else if n > 0 {
      assert Half(0) == 0;
      BelowMore(0, 0, n - 1);
    }
  }

  lemma NoOverflow(v: word)
    requires Below(v, 31)
    ensures Half(Double(v)) == v
  {
    hide HighBytes, Half, Double;
    BelowSplit(v, 23);
    BelowSplit(HighBytes(v), 15);
    BelowSplit(HighBytes(HighBytes(v)), 7);
    var w := HighBytes(HighBytes(HighBytes(v)));
    assert Below(Half(Half(w)), 5);
    var x := Half(Half(w));
    assert Below(Half(Half(x)), 3);
    var y := Half(Half(x));
    assert Below(Half(Half(Half(y))), 0);
    TopBitClear(v);
  }

  lemma TopBitClear(v: word)
    requires Half(Half(Half(Half(Half(Half(Half(HighBytes(HighBytes(HighBytes(v)))))))))) == 0
    ensures Half(Double(v)) == v
  {
  }

  lemma {:induction false} UnitFits(m: nat)
    requires m < 31
    ensures Below(Unit(m), m + 1) && Half(Double(Unit(m))) == Unit(m)
  {
    if m == 0 {
      assert Half(1) == 0;
    } else {
      UnitFits(m - 1);
    }
    BelowMore(Unit(m), m + 1, 31);
    NoOverflow(Unit(m));
  }

  lemma StepUnit(n: nat)
    requires n < 32
    ensures Shift(Unit(n), 1) == if n == 0 then POLY else Unit(n - 1)
  {
    assert Shift(Unit(n), 1) == Shift(Bit(Unit(n)), 0);
    if n == 0 {
      assert Bit(1) == POLY;
    } else {
      UnitFits(n - 1);
      assert Bit(Double(Unit(n - 1))) == Unit(n - 1);
    }
  }

  /** A register's start only adds its own shift: feeding is linear too. */
  lemma {:induction false} FeedFrom(c: word, d: word, s: seq<bv8>)
    ensures Feed(Xor(c, d), s) == Xor(Shift(c, 8 * |s|), Feed(d, s))
    decreases |s|
  {
    hide Xor, Shift, Word;
    if s == [] {
      NoShift(c);
    } else {
      var b := Word(s[0]);
      XorAssoc(c, d, b);
      ShiftLinear(c, Xor(d, b), 8);
      FeedFrom(Shift(c, 8), Shift(Xor(d, b), 8), s[1..]);
      ShiftAdd(c, 8, 8 * (|s| - 1));
    }
  }

  /** The checksum of a concatenation from those of its parts. */
  lemma CrcConcat(crc: word, a: seq<bv8>, b: seq<bv8>)
    ensures Crc(crc, a + b) == Xor(Shift(Crc(crc, a), 8 * |b|), Crc(0, b))
    ensures Crc(crc, a + b) == Crc(Crc(crc, a), b)
  {
    hide Xor, Shift, Feed;
    var r := Feed(Xor(crc, ONES), a);
    FeedAppend(Xor(crc, ONES), a, b);
    XorAssoc(r, ONES, ONES);
    XorZero(ONES);
    XorZero(r);
    FeedFrom(Xor(r, ONES), ONES, b);
    XorAssoc(Shift(Xor(r, ONES), 8 * |b|), Feed(ONES, b), ONES);
  }

  /** Applies the zeros operator in `mat`, of p steps, if the length's lowest bit asks for it. */
  method ApplyIfOdd(mat: array<word>, crc: word, len: nat, ghost p: nat) returns (r: word)
    requires mat.Length == 32 && Operator(mat[..], p)
    ensures Shift(r, 2 * p * (len / 2)) == Shift(crc, p * len)
  {
    hide Shift, Times, Operator;
    r := crc;
    if len % 2 == 1 {
      OperatorTimes(mat[..], p, crc);
      r := MatrixTimes(mat, crc);
      ShiftAdd(crc, p, 2 * p * (len / 2));
      assert p + 2 * p * (len / 2) == p * len by { assert len == 1 + 2 * (len / 2); }
    } else {
      assert 2 * p * (len / 2) == p * len by { assert len == 2 * (len / 2); }
    }
  }

  /**
   The zero bytes of the second part are put through the register by repeated squaring of the one-bit operator, which
   makes the checksum of a concatenation out of those of its parts.
   */
  method Combine(crc1: word, crc2: word, len2: int) returns (r: word)
    ensures len2 <= 0 ==> r == crc1
    ensures len2 > 0 ==> r == Xor(Shift(crc1, 8 * len2), crc2)
    ensures forall crc, a, b :: crc1 == Crc(crc, a) && crc2 == Crc(0, b) && len2 == |b| ==> r == Crc(crc, a + b)
  {
    hide Xor, Shift, Crc, Operator;
    forall crc, a, b | crc1 == Crc(crc, a) && crc2 == Crc(0, b) && len2 == |b|
      ensures Crc(crc, a + b) == if len2 == 0 then crc1 else Xor(Shift(crc1, 8 * len2), crc2)
    {
      CrcConcat(crc, a, b);
      if len2 == 0 { assert a + b == a; }
    }
    if len2 <= 0 { return crc1; }
    var even := new word[32](_ => 0);
    var odd := new word[32](_ => 0);
    OneStep(odd);
    MatrixSquare(even, odd, 1);
    MatrixSquare(odd, even, 2);
    r := Zeros(even, odd, crc1, len2);
    r := Xor(r, crc2);
  }

  /** The loop proper: in each round `even`, then `odd`, holds the operator for the length's current bit. */
  method Zeros(even: array<word>, odd: array<word>, crc: word, length: nat) returns (r: word)
    requires even != odd && even.Length == 32 && odd.Length == 32 && Operator(odd[..], 4)
    modifies even, odd
    ensures r == Shift(crc, 8 * length)
  {
    hide Shift, Operator;
    r := crc;
    var len := length;
    ghost var p := 4;
    while true
      invariant len >= 0 && Operator(odd[..], p)
      invariant Shift(r, 2 * p * len) == Shift(crc, 8 * length)
      decreases len
    {
      MatrixSquare(even, odd, p);
      r := ApplyIfOdd(even, r, len, 2 * p);
      len := len / 2;
      p := 2 * p;
      if len == 0 { break; }
      MatrixSquare(odd, even, p);
      r := ApplyIfOdd(odd, r, len, 2 * p);
      len := len / 2;
      p := 2 * p;
      if len == 0 { break; }
    }
    assert 2 * p * len == 0;
    NoShift(r);
  }

  // The checksum's published check value.

  lemma EightBits(c: word)
    ensures Shift(c, 8) == Bit(Bit(Bit(Bit(Bit(Bit(Bit(Bit(c))))))))
  {
    hide Bit;
    ShiftNext(c, 0);
    NoShift(c);
    ShiftNext(c, 1);
    ShiftNext(c, 2);
    ShiftNext(c, 3);
    ShiftNext(c, 4);
    ShiftNext(c, 5);
    ShiftNext(c, 6);
    ShiftNext(c, 7);
  }

  lemma CheckByte1()
    ensures Shift(Xor(0xFFFFFFFF, Word(49)), 8) == 0x7C231048
  {
    assert Xor(0xFFFFFFFF, Word(49)) == 0xFFFFFFCE;
    assert Bit(0xFFFFFFCE) == 0x7FFFFFE7;
    assert Bit(0x7FFFFFE7) == 0xD2477CD3;
    assert Bit(0xD2477CD3) == 0x849B3D49;
    assert Bit(0x849B3D49) == 0xAFF51D84;
    assert Bit(0xAFF51D84) == 0x57FA8EC2;
    assert Bit(0x57FA8EC2) == 0x2BFD4761;
    assert Bit(0x2BFD4761) == 0xF8462090;
    assert Bit(0xF8462090) == 0x7C231048;
    EightBits(0xFFFFFFCE);
  }

  lemma CheckByte2()
    ensures Shift(Xor(0x7C231048, Word(50)), 8) == 0xB0ACBB32
  {
    assert Xor(0x7C231048, Word(50)) == 0x7C23107A;
    assert Bit(0x7C23107A) == 0x3E11883D;
    assert Bit(0x3E11883D) == 0xF2B0473E;
    assert Bit(0xF2B0473E) == 0x7958239F;
    assert Bit(0x7958239F) == 0xD11492EF;
    assert Bit(0xD11492EF) == 0x8532CA57;
    assert Bit(0x8532CA57) == 0xAF21E60B;
    assert Bit(0xAF21E60B) == 0xBA287025;
    assert Bit(0xBA287025) == 0xB0ACBB32;
    EightBits(0x7C23107A);
  }

  lemma CheckByte3()
    ensures Shift(Xor(0xB0ACBB32, Word(51)), 8) == 0x77B79C2D
  {
    assert Xor(0xB0ACBB32, Word(51)) == 0xB0ACBB01;
    assert Bit(0xB0ACBB01) == 0xB5EEDEA0;
    assert Bit(0xB5EEDEA0) == 0x5AF76F50;
    assert Bit(0x5AF76F50) == 0x2D7BB7A8;
    assert Bit(0x2D7BB7A8) == 0x16BDDBD4;
    assert Bit(0x16BDDBD4) == 0x0B5EEDEA;
    assert Bit(0x0B5EEDEA) == 0x05AF76F5;
    assert Bit(0x05AF76F5) == 0xEF6F385A;
    assert Bit(0xEF6F385A) == 0x77B79C2D;
    EightBits(0xB0ACBB01);
  }

  lemma CheckByte4()
    ensures Shift(Xor(0x77B79C2D, Word(52)), 8) == 0x641C1F5C
  {
    assert Xor(0x77B79C2D, Word(52)) == 0x77B79C19;
    assert Bit(0x77B79C19) == 0xD6634D2C;
    assert Bit(0xD6634D2C) == 0x6B31A696;
    assert Bit(0x6B31A696) == 0x3598D34B;
    assert Bit(0x3598D34B) == 0xF774EA85;
    assert Bit(0xF774EA85) == 0x9602F662;
    assert Bit(0x9602F662) == 0x4B017B31;
    assert Bit(0x4B017B31) == 0xC8383EB8;
    assert Bit(0xC8383EB8) == 0x641C1F5C;
    EightBits(0x77B79C19);
  }

  lemma CheckByte5()
    ensures Shift(Xor(0x641C1F5C, Word(53)), 8) == 0x340AC5E3
  {
    assert Xor(0x641C1F5C, Word(53)) == 0x641C1F69;
    assert Bit(0x641C1F69) == 0xDFB68C94;
    assert Bit(0xDFB68C94) == 0x6FDB464A;
    assert Bit(0x6FDB464A) == 0x37EDA325;
    assert Bit(0x37EDA325) == 0xF64E52B2;
    assert Bit(0xF64E52B2) == 0x7B272959;
    assert Bit(0x7B272959) == 0xD02B178C;
    assert Bit(0xD02B178C) == 0x68158BC6;
    assert Bit(0x68158BC6) == 0x340AC5E3;
    EightBits(0x641C1F69);
  }

  lemma CheckByte6()
    ensures Shift(Xor(0x340AC5E3, Word(54)), 8) == 0xF68D2C9E
  {
    assert Xor(0x340AC5E3, Word(54)) == 0x340AC5D5;
    assert Bit(0x340AC5D5) == 0xF7BDE1CA;
    assert Bit(0xF7BDE1CA) == 0x7BDEF0E5;
    assert Bit(0x7BDEF0E5) == 0xD057FB52;
    assert Bit(0xD057FB52) == 0x682BFDA9;
    assert Bit(0x682BFDA9) == 0xD9AD7DF4;
    assert Bit(0xD9AD7DF4) == 0x6CD6BEFA;
    assert Bit(0x6CD6BEFA) == 0x366B5F7D;
    assert Bit(0x366B5F7D) == 0xF68D2C9E;
    EightBits(0x340AC5D5);
  }

  lemma CheckByte7()
    ensures Shift(Xor(0xF68D2C9E, Word(55)), 8) == 0xAFFC9660
  {
    assert Xor(0xF68D2C9E, Word(55)) == 0xF68D2CA9;
    assert Bit(0xF68D2CA9) == 0x96FE1574;
    assert Bit(0x96FE1574) == 0x4B7F0ABA;
    assert Bit(0x4B7F0ABA) == 0x25BF855D;
    assert Bit(0x25BF855D) == 0xFF67418E;
    assert Bit(0xFF67418E) == 0x7FB3A0C7;
    assert Bit(0x7FB3A0C7) == 0xD2615343;
    assert Bit(0xD2615343) == 0x84882A81;
    assert Bit(0x84882A81) == 0xAFFC9660;
    EightBits(0xF68D2CA9);
  }

  lemma CheckByte8()
    ensures Shift(Xor(0xAFFC9660, Word(56)), 8) == 0x651F2550
  {
    assert Xor(0xAFFC9660, Word(56)) == 0xAFFC9658;
    assert Bit(0xAFFC9658) == 0x57FE4B2C;
    assert Bit(0x57FE4B2C) == 0x2BFF2596;
    assert Bit(0x2BFF2596) == 0x15FF92CB;
    assert Bit(0x15FF92CB) == 0xE7474A45;
    assert Bit(0xE7474A45) == 0x9E1B2602;
    assert Bit(0x9E1B2602) == 0x4F0D9301;
    assert Bit(0x4F0D9301) == 0xCA3E4AA0;
    assert Bit(0xCA3E4AA0) == 0x651F2550;
    EightBits(0xAFFC9658);
  }

  lemma CheckByte9()
    ensures Shift(Xor(0x651F2550, Word(57)), 8) == 0x340BC6D9
  {
    assert Xor(0x651F2550, Word(57)) == 0x651F2569;
    assert Bit(0x651F2569) == 0xDF371194;
    assert Bit(0xDF371194) == 0x6F9B88CA;
    assert Bit(0x6F9B88CA) == 0x37CDC465;
    assert Bit(0x37CDC465) == 0xF65E6112;
    assert Bit(0xF65E6112) == 0x7B2F3089;
    assert Bit(0x7B2F3089) == 0xD02F1B64;
    assert Bit(0xD02F1B64) == 0x68178DB2;
    assert Bit(0x68178DB2) == 0x340BC6D9;
    EightBits(0x651F2569);
  }

  lemma FeedOne(c: word, b: bv8, s: seq<bv8>)
    ensures Feed(c, [b] + s) == Feed(Shift(Xor(c, Word(b)), 8), s)
  {
    hide Shift, Xor;
    assert ([b] + s)[1..] == s;
  }

  /** The check value of this checksum, that of the digits 1 to 9. */
  lemma CheckValue()
    ensures Crc(0, [49, 50, 51, 52, 53, 54, 55, 56, 57]) == 0xCBF43926
  {
    hide Shift, Xor, Feed;
    var s9: seq<bv8> := [];
    FeedNone(0x340BC6D9);
    var s8: seq<bv8> := [57] + s9;
    CheckByte9();
    FeedOne(0x651F2550, 57, s9);
    assert Feed(0x651F2550, s8) == 0x340BC6D9;
    var s7: seq<bv8> := [56] + s8;
    CheckByte8();
    FeedOne(0xAFFC9660, 56, s8);
    assert Feed(0xAFFC9660, s7) == 0x340BC6D9;
    var s6: seq<bv8> := [55] + s7;
    CheckByte7();
    FeedOne(0xF68D2C9E, 55, s7);
    assert Feed(0xF68D2C9E, s6) == 0x340BC6D9;
    var s5: seq<bv8> := [54] + s6;
    CheckByte6();
    FeedOne(0x340AC5E3, 54, s6);
    assert Feed(0x340AC5E3, s5) == 0x340BC6D9;
    var s4: seq<bv8> := [53] + s5;
    CheckByte5();
    FeedOne(0x641C1F5C, 53, s5);
    assert Feed(0x641C1F5C, s4) == 0x340BC6D9;
    var s3: seq<bv8> := [52] + s4;
    CheckByte4();
    FeedOne(0x77B79C2D, 52, s4);
    assert Feed(0x77B79C2D, s3) == 0x340BC6D9;
    var s2: seq<bv8> := [51] + s3;
    CheckByte3();
    FeedOne(0xB0ACBB32, 51, s3);
    assert Feed(0xB0ACBB32, s2) == 0x340BC6D9;
    var s1: seq<bv8> := [50] + s2;
    CheckByte2();
    FeedOne(0x7C231048, 50, s2);
    assert Feed(0x7C231048, s1) == 0x340BC6D9;
    var s0: seq<bv8> := [49] + s1;
    CheckByte1();
    FeedOne(0xFFFFFFFF, 49, s1);
    assert Feed(0xFFFFFFFF, s0) == 0x340BC6D9;
    assert s0 == [49, 50, 51, 52, 53, 54, 55, 56, 57];
    Complements();
  }

  lemma FeedNone(c: word)
    ensures Feed(c, []) == c
  {
  }

  lemma Complements()
    ensures Xor(0, ONES) == 0xFFFF_FFFF && Xor(0x340BC6D9, ONES) == 0xCBF43926
  {
  }
}
