/** Adler-32: two sums modulo a prime, with the reductions put off for as long as 32 bits allow. */
module Adler32 {
  import opened Basics

  const BASE: nat := 65521
  const NMAX: nat := 5552

  /** A 32-bit unsigned value: assigning a larger sum to one would not verify. */
  type u32 = x: int | 0 <= x < 0x1_0000_0000

  /** The two sums of section 2.2 of RFC 1950, reduced at every byte. */
  function Sums(a: nat, b: nat, s: seq<byte>): (r: (nat, nat))
    ensures a < BASE && b < BASE ==> r.0 < BASE && r.1 < BASE
  {
    if s == [] then (a, b)
    else
      var (x, y) := Sums(a, b, s[..|s| - 1]);
      var x' := (x + s[|s| - 1]) % BASE;
      (x', (y + x') % BASE)
  }

  /** The same sums, never reduced. */
  function Raw(a: nat, b: nat, s: seq<byte>): (nat, nat) {
    if s == [] then (a, b)
    else
      var (x, y) := Raw(a, b, s[..|s| - 1]);
      (x + s[|s| - 1], y + x + s[|s| - 1])
  }

  function Reduced(r: (nat, nat)): (nat, nat) {
    (r.0 % BASE, r.1 % BASE)
  }

  lemma ModAdd(x: nat, y: nat)
    ensures (x % BASE + y) % BASE == (x + y) % BASE
    ensures (y + x % BASE) % BASE == (y + x) % BASE
  {
  }

  /** Putting the reductions off changes nothing. */
  lemma {:induction false} SumsAreRaw(a: nat, b: nat, s: seq<byte>)
    requires a < BASE && b < BASE
    ensures Sums(a, b, s) == Reduced(Raw(a, b, s))
  {
    if s != [] {
      var last := s[|s| - 1];
      SumsAreRaw(a, b, s[..|s| - 1]);
      var (x, y) := Raw(a, b, s[..|s| - 1]);
      ModAdd(x, last);
      ModAdd(x + last, y % BASE);
      ModAdd(y, x + last);
    }
  }

  /** Restarting from reduced sums changes nothing either. */
  lemma {:induction false} SumsAppend(a: nat, b: nat, s: seq<byte>, t: seq<byte>)
    ensures var (x, y) := Sums(a, b, s); Sums(a, b, s + t) == Sums(x, y, t)
  {
    if t == [] {
      assert s + t == s;
    } else {
      SumsAppend(a, b, s, t[..|t| - 1]);
      assert (s + t)[..|s + t| - 1] == s + t[..|t| - 1];
    }
  }

  /** The start enters the sums in a simple way: once for each byte into the second. */
  lemma {:induction false} RawFrom(a: nat, b: nat, s: seq<byte>)
    ensures var (t, w) := Raw(0, 0, s); Raw(a, b, s) == (a + t, b + |s| * a + w)
  {
    if s != [] {
      RawFrom(a, b, s[..|s| - 1]);
      assert |s| * a == (|s| - 1) * a + a;
    }
  }

  /** The largest second sum that n bytes can lead to from reduced sums. */
  ghost function Limit(n: nat): nat {
    (n + 1) * (BASE - 1) + 255 * (n * (n + 1) / 2)
  }

  lemma {:induction false} Triangle(n: nat)
    ensures n > 0 ==> n * (n + 1) / 2 == (n - 1) * n / 2 + n
  {
    if n > 0 { assert n * (n + 1) == (n - 1) * n + 2 * n; }
  }

  lemma LimitNext(n: nat)
    requires n > 0
    ensures Limit(n) == Limit(n - 1) + (BASE - 1) + 255 * n
  {
    Triangle(n);
    assert (n + 1) * (BASE - 1) == n * (BASE - 1) + (BASE - 1);
  }

  lemma {:induction false} RawBound(a: nat, b: nat, s: seq<byte>)
    requires a < BASE && b < BASE
    ensures Raw(a, b, s).0 <= BASE - 1 + 255 * |s| && Raw(a, b, s).1 <= Limit(|s|)
  {
    if s != [] {
      RawBound(a, b, s[..|s| - 1]);
      LimitNext(|s|);
    }
  }

  lemma {:induction false} RawWorst(n: nat) returns (s: seq<byte>)
    ensures |s| == n && Raw(BASE - 1, BASE - 1, s) == (BASE - 1 + 255 * n, Limit(n))
  {
    if n == 0 {
      s := [];
    } else {
      var t := RawWorst(n - 1);
      s := t + [255];
      assert s[..|s| - 1] == t;
      LimitNext(n);
    }
  }

  lemma {:induction false} LimitGrows(m: nat, n: nat)
    requires m <= n
    ensures Limit(m) <= Limit(n)
  {
    if m < n {
      LimitGrows(m, n - 1);
      LimitNext(n);
    }
  }

  ghost predicate NeverOverflows(n: nat) {
    forall a, b, s: seq<byte> :: 0 <= a < BASE && 0 <= b < BASE && |s| == n ==> Raw(a, b, s).1 < 0x1_0000_0000
  }

  /** The block length is the largest for which no 32-bit sum can overflow. */
  lemma DeferralLimit(n: nat)
    ensures NeverOverflows(n) <==> n <= NMAX
  {
    assert Limit(NMAX) < 0x1_0000_0000 <= Limit(NMAX + 1);
    if n <= NMAX {
      LimitGrows(n, NMAX);
      forall a, b, s: seq<byte> | 0 <= a < BASE && 0 <= b < BASE && |s| == n ensures Raw(a, b, s).1 < 0x1_0000_0000 {
        RawBound(a, b, s);
      }
    } else {
      LimitGrows(NMAX + 1, n);
      var s := RawWorst(n);
    }
  }

  /** Adds a block of bytes up without a reduction. */
  method AddBlock(adler: u32, sum2: u32, s: seq<byte>) returns (a: u32, b: u32)
    requires adler < BASE && sum2 < BASE && |s| <= NMAX
    ensures (a, b) == Raw(adler, sum2, s)
  {
    a, b := adler, sum2;
    for i := 0 to |s|
      invariant (a, b) == Raw(adler, sum2, s[..i])
    {
      assert s[..i + 1][..i] == s[..i];
      RawBound(adler, sum2, s[..i + 1]);
      LimitGrows(i + 1, NMAX);
      a := a + s[i];
      b := b + a;
    }
    assert s[..|s|] == s;
  }

  function Pack(a: nat, b: nat): (r: u32)
    requires a < 0x1_0000 && b < 0x1_0000
    ensures r % 0x1_0000 == a && r / 0x1_0000 == b
  {
    a + b * 0x1_0000
  }

  /** The checksum, continued from an earlier one. */
  method Adler(adler: u32, buf: seq<byte>) returns (r: u32)
    requires adler % 0x1_0000 < BASE && adler / 0x1_0000 < BASE
    ensures (r % 0x1_0000, r / 0x1_0000) == Sums(adler % 0x1_0000, adler / 0x1_0000, buf)
  {
    hide Sums;
    var a: u32, b: u32 := adler % 0x1_0000, adler / 0x1_0000;
    if |buf| == 1 {
      assert buf == [buf[0]];
      a, b := OneByte(a, b, buf[0]);
    } else if |buf| < 16 {
      a, b := Short(a, b, buf);
    } else {
      a, b := Blocks(a, b, buf);
    }
    r := Pack(a, b);
  }

  method OneByte(adler: u32, sum2: u32, x: byte) returns (a: u32, b: u32)
    requires adler < BASE && sum2 < BASE
    ensures (a, b) == Sums(adler, sum2, [x]) && a < BASE && b < BASE
  {
    assert [x][..0] == [];
    a := adler + x;
    if a >= BASE { a := a - BASE; }
    b := sum2 + a;
    if b >= BASE { b := b - BASE; }
  }

  /** Too few bytes to pass the modulus twice. */
  method Short(adler: u32, sum2: u32, s: seq<byte>) returns (a: u32, b: u32)
    requires adler < BASE && sum2 < BASE && |s| < 16
    ensures (a, b) == Sums(adler, sum2, s) && a < BASE && b < BASE
  {
    hide Sums, Raw, Limit;
    SumsAreRaw(adler, sum2, s);
    RawBound(adler, sum2, s);
    a, b := AddBlock(adler, sum2, s);
    if a >= BASE { a := a - BASE; }
    b := b % BASE;
  }

  /** Whole blocks, each with one reduction, then the rest. */
  method Blocks(adler: u32, sum2: u32, buf: seq<byte>) returns (a: u32, b: u32)
    requires adler < BASE && sum2 < BASE
    ensures (a, b) == Sums(adler, sum2, buf) && a < BASE && b < BASE
  {
    a, b := adler, sum2;
    var n := 0;
    while |buf| - n >= NMAX
      invariant n <= |buf| && a < BASE && b < BASE && (a, b) == Sums(adler, sum2, buf[..n])
      decreases |buf| - n
    {
      a, b := Block(adler, sum2, buf, n, n + NMAX, a, b);
      n := n + NMAX;
    }
    if n < |buf| { a, b := Block(adler, sum2, buf, n, |buf|, a, b); }
    assert buf[..|buf|] == buf;
  }

  method Block(ghost adler: u32, ghost sum2: u32, buf: seq<byte>, n: nat, m: nat, x: u32, y: u32) returns (a: u32, b: u32)
    requires n <= m <= |buf| && m - n <= NMAX && x < BASE && y < BASE && (x, y) == Sums(adler, sum2, buf[..n])
    ensures a < BASE && b < BASE && (a, b) == Sums(adler, sum2, buf[..m])
  {
    SumsAppend(adler, sum2, buf[..n], buf[n..m]);
    SumsAreRaw(x, y, buf[n..m]);
    assert buf[..m] == buf[..n] + buf[n..m];
    a, b := AddBlock(x, y, buf[n..m]);
    a, b := a % BASE, b % BASE;
  }

  lemma SameRemainder(x: int, y: int, k: int)
    requires x == y + BASE * k
    ensures x % BASE == y % BASE
  {
  }

  /** The formula left as an exercise: the second part's sums moved from their own start to that of the first. */
  lemma Moved(a1: nat, b1: nat, s: seq<byte>)
    requires a1 < BASE && b1 < BASE
    ensures var (a2, b2) := Sums(1, 0, s);
            var rem := |s| % BASE;
            Sums(a1, b1, s) == ((a1 + a2 + BASE - 1) % BASE, (rem * a1 % BASE + b1 + b2 + BASE - rem) % BASE)
  {
    hide Sums, Raw;
    var n := |s|;
    var (t, w) := Raw(0, 0, s);
    RawFrom(1, 0, s);
    RawFrom(a1, b1, s);
    SumsAreRaw(1, 0, s);
    SumsAreRaw(a1, b1, s);
    FirstSum(a1, t);
    SecondSum(a1, b1, n, w);
  }

  lemma FirstSum(a1: nat, t: nat)
    ensures (a1 + (1 + t) % BASE + BASE - 1) % BASE == (a1 + t) % BASE
  {
    SameRemainder(a1 + (1 + t) % BASE + BASE - 1, a1 + t, 1 - (1 + t) / BASE);
  }

  lemma SecondSum(a1: nat, b1: nat, n: nat, w: nat)
    ensures (n % BASE * a1 % BASE + b1 + (n * 1 + w) % BASE + BASE - n % BASE) % BASE == (b1 + n * a1 + w) % BASE
  {
    var q, rem := n / BASE, n % BASE;
    var q2, q3 := rem * a1 / BASE, (n + w) / BASE;
    assert n * a1 == BASE * (q * a1) + rem * a1 by { assert n == q * BASE + rem; }
    SameRemainder(rem * a1 % BASE + b1 + (n + w) % BASE + BASE - rem, b1 + n * a1 + w, q + 1 - q2 - q3 - q * a1);
  }

  /** Checksums of two parts make the checksum of the whole. */
  method Combine(adler1: u32, adler2: u32, len2: nat) returns (r: u32)
    requires adler1 % 0x1_0000 < BASE && adler1 / 0x1_0000 < BASE
    requires adler2 % 0x1_0000 < BASE && adler2 / 0x1_0000 < BASE
    ensures forall s: seq<byte> :: |s| == len2 && (adler2 % 0x1_0000, adler2 / 0x1_0000) == Sums(1, 0, s) ==>
              (r % 0x1_0000, r / 0x1_0000) == Sums(adler1 % 0x1_0000, adler1 / 0x1_0000, s)
    ensures forall s: seq<byte>, t: seq<byte> ::
              && |t| == len2 && (adler1 % 0x1_0000, adler1 / 0x1_0000) == Sums(1, 0, s)
              && (adler2 % 0x1_0000, adler2 / 0x1_0000) == Sums(1, 0, t)
              ==> (r % 0x1_0000, r / 0x1_0000) == Sums(1, 0, s + t)
  {
    hide Sums;
    var a1, b1, a2, b2 := adler1 % 0x1_0000, adler1 / 0x1_0000, adler2 % 0x1_0000, adler2 / 0x1_0000;
    var x, y := CombineSums(a1, b1, a2, b2, len2);
    forall s: seq<byte> | |s| == len2 && (a2, b2) == Sums(1, 0, s) ensures (x, y) == Sums(a1, b1, s) {
      Moved(a1, b1, s);
    }
    forall s: seq<byte>, t: seq<byte> | |t| == len2 && (a1, b1) == Sums(1, 0, s) && (a2, b2) == Sums(1, 0, t)
      ensures (x, y) == Sums(1, 0, s + t)
    {
      SumsAppend(1, 0, s, t);
    }
    r := Pack(x, y);
  }

  method CombineSums(a1: u32, b1: u32, a2: u32, b2: u32, len2: nat) returns (sum1: u32, sum2: u32)
    requires a1 < BASE && b1 < BASE && a2 < BASE && b2 < BASE
    ensures sum1 == (a1 + a2 + BASE - 1) % BASE
    ensures sum2 == (len2 % BASE * a1 % BASE + b1 + b2 + BASE - len2 % BASE) % BASE
  {
    var rem: u32 := len2 % BASE;
    ProductFits(rem, a1);
    sum1 := a1;
    sum2 := rem * sum1;
    sum2 := sum2 % BASE;
    sum1 := sum1 + (a2 + BASE - 1);
    sum2 := sum2 + (b1 + b2 + BASE - rem);
    if sum1 >= BASE { sum1 := sum1 - BASE; }
    if sum1 >= BASE { sum1 := sum1 - BASE; }
    if sum2 >= 2 * BASE { sum2 := sum2 - 2 * BASE; }
    if sum2 >= BASE { sum2 := sum2 - BASE; }
  }

  lemma ProductFits(x: nat, y: nat)
    requires x < BASE && y < BASE
    ensures x * y < 0x1_0000_0000
  {
    Monotone(x, y, BASE - 1);
  }

  lemma Monotone(x: nat, y: nat, z: nat)
    requires y <= z
    ensures x * y <= x * z
  {
  }

  // The definition in numbers, and a known checksum.

  /** One more byte, by section 2.2 of RFC 1950. */
  lemma SumsOne(a: nat, b: nat, s: seq<byte>, c: byte)
    ensures Sums(a, b, []) == (a, b)
    ensures var (x, y) := Sums(a, b, s); Sums(a, b, s + [c]) == ((x + c) % 65521, (y + (x + c) % 65521) % 65521)
  {
    assert (s + [c])[..|s|] == s;
  }

  /** The checksum of the digits 1 to 9. */
  lemma KnownSums()
    ensures Sums(1, 0, [49, 50, 51, 52, 53, 54, 55, 56, 57]) == (478, 2334)
  {
    hide Sums;
    SumsOne(1, 0, [], 49);
    assert [] + [49] == [49] && Sums(1, 0, [49]) == (50, 50);
    SumsOne(1, 0, [49], 50);
    assert [49] + [50] == [49, 50] && Sums(1, 0, [49, 50]) == (100, 150);
    SumsOne(1, 0, [49, 50], 51);
    assert [49, 50] + [51] == [49, 50, 51] && Sums(1, 0, [49, 50, 51]) == (151, 301);
    SumsOne(1, 0, [49, 50, 51], 52);
    assert [49, 50, 51] + [52] == [49, 50, 51, 52] && Sums(1, 0, [49, 50, 51, 52]) == (203, 504);
    SumsOne(1, 0, [49, 50, 51, 52], 53);
    assert [49, 50, 51, 52] + [53] == [49, 50, 51, 52, 53] && Sums(1, 0, [49, 50, 51, 52, 53]) == (256, 760);
    SumsOne(1, 0, [49, 50, 51, 52, 53], 54);
    assert [49, 50, 51, 52, 53] + [54] == [49, 50, 51, 52, 53, 54] && Sums(1, 0, [49, 50, 51, 52, 53, 54]) == (310, 1070);
    SumsOne(1, 0, [49, 50, 51, 52, 53, 54], 55);
    assert [49, 50, 51, 52, 53, 54] + [55] == [49, 50, 51, 52, 53, 54, 55] && Sums(1, 0, [49, 50, 51, 52, 53, 54, 55]) == (365, 1435);
    SumsOne(1, 0, [49, 50, 51, 52, 53, 54, 55], 56);
    assert [49, 50, 51, 52, 53, 54, 55] + [56] == [49, 50, 51, 52, 53, 54, 55, 56] && Sums(1, 0, [49, 50, 51, 52, 53, 54, 55, 56]) == (421, 1856);
    SumsOne(1, 0, [49, 50, 51, 52, 53, 54, 55, 56], 57);
    assert [49, 50, 51, 52, 53, 54, 55, 56] + [57] == [49, 50, 51, 52, 53, 54, 55, 56, 57] && Sums(1, 0, [49, 50, 51, 52, 53, 54, 55, 56, 57]) == (478, 2334);
  }
}
