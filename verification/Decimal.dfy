/** Decimal text and 64-bit integers: the parser behind the counter operation, and the printer it undoes. */
module Decimal {
  import opened Basics

  const TWO_63: int := 0x8000_0000_0000_0000
  const TWO_64: int := 0x1_0000_0000_0000_0000

  /** Two's complement wrap-around of a 64-bit signed result. */
  function Wrap64(x: int): (r: int)
    ensures -TWO_63 <= r < TWO_63
    ensures -TWO_63 <= x < TWO_63 ==> r == x
  {
    (x + TWO_63) % TWO_64 - TWO_63
  }

  /** Only whole turns of the 64 bits are lost. */
  lemma WrapsRound(x: int)
    ensures (x - Wrap64(x)) % TWO_64 == 0
  {
    var n := (x + TWO_63) / TWO_64;
    assert x - Wrap64(x) == n * TWO_64;
  }

  predicate IsSpace(b: byte) { b == 32 || 9 <= b <= 13 }

  predicate IsDigit(b: byte) { 48 <= b <= 57 }

  predicate AllDigits(s: seq<byte>) { forall k :: 0 <= k < |s| ==> IsDigit(s[k]) }

  /** The accumulator loop, stopping at the first non-digit; None when an overflow is noticed. */
  function Accumulate(s: seq<byte>, acc: int): Option<int> {
    if s == [] || !IsDigit(s[0]) then Some(acc)
    else
      var temp := Wrap64(acc * 10 + (s[0] - 48));
      if temp < acc then None else Accumulate(s[1..], temp)
  }

  function SkipSpaces(s: seq<byte>): (r: seq<byte>)
    ensures |r| <= |s|
    ensures r != [] ==> !IsSpace(r[0])
  {
    if s != [] && IsSpace(s[0]) then SkipSpaces(s[1..]) else s
  }

  /** What the parser answers: None is its `false`. */
  function Parse(s: seq<byte>): Option<int> {
    if s == [] then None
    else
      var t := SkipSpaces(s);
      var negative := t != [] && t[0] == 45;
      var signed := negative || (t != [] && t[0] == 43);
      match Accumulate(if signed then t[1..] else t, 0)
      case None => None
      case Some(v) => Some(if negative then -v else v)
  }

  /** What lies in memory behind a text. */
  type Memory = nat -> byte

  function At(text: seq<byte>, rest: Memory, i: nat): byte {
    if i < |text| then text[i] else rest(i - |text|)
  }

  function Slice(text: seq<byte>, rest: Memory, start: nat, length: nat): (r: seq<byte>)
    ensures |r| == length && forall k :: 0 <= k < length ==> r[k] == At(text, rest, start + k)
  {
    seq<byte>(length, k requires 0 <= k < length => At(text, rest, start + k))
  }

  /** One less than a length of 32 bits. */
  function LengthLess(length: nat): nat {
    if length == 0 then 0xFFFF_FFFF else length - 1
  }

  /**
   What the parser answers in memory. A text of blanks is used up when the sign is looked for: a sign found behind it
   is taken for its own, and the length, which was 0, wraps.
   */
  function ParseIn(text: seq<byte>, rest: Memory): Option<int> {
    if text == [] || SkipSpaces(text) != [] then Parse(text)
    else
      var negative := rest(0) == 45;
      if !negative && rest(0) != 43 then Some(0)
      else
        match Accumulate(Slice(text, rest, |text| + 1, LengthLess(0)), 0)
        case None => None
        case Some(v) => Some(if negative then -v else v)
  }

  /** What a counter text counts as by itself: 0 if it is refused. */
  function Number(text: seq<byte>): int {
    match Parse(text) case None => 0 case Some(v) => v
  }

  /** The text is empty or holds something other than blanks. */
  predicate Settled(text: seq<byte>) {
    text == [] || exists k :: 0 <= k < |text| && !IsSpace(text[k])
  }

  lemma {:induction false} SettledIff(text: seq<byte>)
    ensures Settled(text) <==> text == [] || SkipSpaces(text) != []
    decreases |text|
  {
    if text != [] && IsSpace(text[0]) {
      SettledIff(text[1..]);
      if Settled(text) {
        var k :| 0 <= k < |text| && !IsSpace(text[k]);
        assert text[1..][k - 1] == text[k];
      }
    }
  }

  lemma AccumulateOne(s: seq<byte>, acc: int)
    requires s != [] && 0 <= acc < 1000
    ensures Accumulate(s, acc) == if IsDigit(s[0]) then Accumulate(s[1..], acc * 10 + (s[0] - 48)) else Some(acc)
  {
  }

  /** A text of blanks only, with a sign, a one and no more digits behind it, is read as that one. */
  lemma ReadsOn(text: seq<byte>, sign: byte)
    requires !Settled(text) && (sign == 45 || sign == 43)
    ensures Parse(text) == Some(0)
    ensures ParseIn(text, i => if i == 0 then sign else if i == 1 then 49 else 32) == Some(if sign == 45 then -1 else 1)
  {
    SettledIff(text);
    var rest: Memory := i => if i == 0 then sign else if i == 1 then 49 else 32;
    var s := Slice(text, rest, |text| + 1, LengthLess(0));
    assert s[0] == 49 && s[1] == 32;
    AccumulateOne(s, 0);
    AccumulateOne(s[1..], 1);
  }

  /** The parser's answer is the text's own, whatever lies behind it, if and only if the text is not just blanks. */
  lemma ParseInIsParse(text: seq<byte>)
    ensures (forall rest: Memory :: ParseIn(text, rest) == Parse(text)) <==> Settled(text)
  {
    SettledIff(text);
    if !Settled(text) { ReadsOn(text, 45); }
  }

  /** Only the bytes behind the text matter, not how they are given. */
  lemma ParseInSame(text: seq<byte>, rest: Memory, other: Memory)
    requires forall i: nat :: rest(i) == other(i)
    ensures ParseIn(text, rest) == ParseIn(text, other)
  {
    assert Slice(text, rest, |text| + 1, LengthLess(0)) == Slice(text, other, |text| + 1, LengthLess(0));
  }

  /** One blank before a block's old bytes "-123" is read as -123. */
  lemma BlankReadsOn(rest: Memory)
    requires rest(0) == 45 && rest(1) == 49 && rest(2) == 50 && rest(3) == 51 && !IsDigit(rest(4))
    ensures Parse([32]) == Some(0) && ParseIn([32], rest) == Some(-123)
  {
    var s := Slice([32], rest, 2, LengthLess(0));
    assert s[0] == 49 && s[1] == 50 && s[2] == 51 && s[3] == rest(4);
    AccumulateOne(s, 0);
    AccumulateOne(s[1..], 1);
    AccumulateOne(s[1..][1..], 12);
    AccumulateOne(s[1..][1..][1..], 123);
    assert SkipSpaces([32]) == [];
  }

  /** The number a digit string denotes, with no bound on its size. */
  function Denotes(s: seq<byte>): (v: int)
    requires AllDigits(s)
    ensures v >= 0
  {
    if s == [] then 0 else 10 * Denotes(s[..|s| - 1]) + (s[|s| - 1] - 48)
  }

  function Digits(n: nat): (s: seq<byte>)
    ensures AllDigits(s) && s != []
  {
    if n < 10 then [48 + n] else Digits(n / 10) + [48 + n % 10]
  }

  /** `"%"PRId64`. */
  function Print(v: int): (s: seq<byte>)
    ensures s != []
  {
    if v < 0 then [45] + Digits(-v) else Digits(v)
  }

  lemma SliceFirst(text: seq<byte>, rest: Memory, start: nat, length: nat)
    requires length > 0
    ensures Slice(text, rest, start, length)[0] == At(text, rest, start)
    ensures Slice(text, rest, start, length)[1..] == Slice(text, rest, start + 1, length - 1)
  {
  }

  lemma SliceInside(text: seq<byte>, rest: Memory, start: nat)
    requires start <= |text|
    ensures Slice(text, rest, start, |text| - start) == text[start..]
  {
  }

  /** The digit loop, over an index instead of a pointer, with the length that is left. */
  method ScanDigits(text: seq<byte>, rest: Memory, start: nat, length: nat) returns (ok: bool, out: int)
    ensures ok == Accumulate(Slice(text, rest, start, length), 0).Some?
    ensures ok ==> Accumulate(Slice(text, rest, start, length), 0) == Some(out) && 0 <= out < TWO_63
  {
    hide Slice;
    var i: nat, left: nat := start, length;
    out := 0;
    while left > 0
      invariant 0 <= out < TWO_63
      invariant Accumulate(Slice(text, rest, i, left), out) == Accumulate(Slice(text, rest, start, length), 0)
    {
      SliceFirst(text, rest, i, left);
      var cur := At(text, rest, i);
      if !IsDigit(cur) { break; }
      i, left := i + 1, left - 1;
      var temp := Wrap64(out * 10 + (cur - 48));
      if temp < out { return false, out; }
      out := temp;
    }
    return true, out;
  }

  /** The parser; on refusal the caller's zero stands. */
  method SafeToI64(text: seq<byte>, rest: Memory) returns (ok: bool, out: int)
    ensures ok == ParseIn(text, rest).Some?
    ensures ok ==> ParseIn(text, rest) == Some(out) && -TWO_63 < out < TWO_63
    ensures !ok ==> out == 0
  {
    if |text| == 0 { return false, 0; }
    var i: nat, left: nat := 0, |text|;
    while left > 0 && IsSpace(At(text, rest, i))
      invariant i + left == |text|
      invariant SkipSpaces(text[i..]) == SkipSpaces(text)
    {
      assert text[i..][1..] == text[i + 1..];
      i, left := i + 1, left - 1;
    }
    assert text[i..] == SkipSpaces(text);
    SliceInside(text, rest, i);
    var negative := At(text, rest, i) == 45;
    if negative || At(text, rest, i) == 43 {
      if left > 0 {
        assert text[i..][1..] == text[i + 1..];
        SliceInside(text, rest, i + 1);
      }
      i, left := i + 1, LengthLess(left);
    }
    var v;
    ok, v := ScanDigits(text, rest, i, left);
    out := if !ok then 0 else if negative then -v else v;
  }

  lemma {:induction false} DenotesFront(s: seq<byte>, t: seq<byte>)
    requires AllDigits(s) && AllDigits(t)
    ensures AllDigits(s + t)
    ensures Denotes(s + t) >= Denotes(s)
    decreases |t|
  {
    if t == [] {
      assert s + t == s;
    } else {
      var u := t[..|t| - 1];
      DenotesFront(s, u);
      assert (s + t)[..|s + t| - 1] == s + u;
    }
  }

  /**
   From the value of a prefix, the loop reaches the value of all digits up to the first non-digit, while that value
   fits.
   */
  lemma {:induction false} AccumulateFits(s: seq<byte>, t: seq<byte>, u: seq<byte>)
    requires AllDigits(s) && AllDigits(t) && Denotes(s) < TWO_63 && (u != [] ==> !IsDigit(u[0]))
    ensures AllDigits(s + t)
    ensures Denotes(s + t) < TWO_63 ==> Accumulate(t + u, Denotes(s)) == Some(Denotes(s + t))
    decreases |t|
  {
    if t == [] {
      assert s + t == s && t + u == u;
    } else {
      var s1 := s + [t[0]];
      assert s1[..|s1| - 1] == s;
      assert s1 + t[1..] == s + t && (t + u)[1..] == t[1..] + u;
      if Denotes(s + t) < TWO_63 {
        DenotesFront(s1, t[1..]);
        AccumulateFits(s1, t[1..], u);
      }
    }
  }

  /** Whatever the loop accepts lies in the 64-bit range. */
  lemma {:induction false} AccumulateBounded(s: seq<byte>, acc: int)
    requires 0 <= acc < TWO_63
    ensures Accumulate(s, acc).Some? ==> 0 <= Accumulate(s, acc).value < TWO_63
    decreases |s|
  {
    if s != [] && IsDigit(s[0]) {
      var temp := Wrap64(acc * 10 + (s[0] - 48));
      if temp >= acc { AccumulateBounded(s[1..], temp); }
    }
  }

  /** Digits, and what follows them from a non-digit on, are read exactly if and only if their value is below 2^63. */
  lemma ParseExactIff(s: seq<byte>, u: seq<byte>)
    requires s != [] && AllDigits(s) && (u != [] ==> !IsDigit(u[0]))
    ensures Parse(s + u) == Some(Denotes(s)) <==> Denotes(s) < TWO_63
  {
    assert SkipSpaces(s + u) == s + u;
    AccumulateBounded(s + u, 0);
    AccumulateFits([], s, u);
    assert [] + s == s;
  }

  lemma {:induction false} AccumulateAppend(s: seq<byte>, t: seq<byte>, acc: int)
    requires AllDigits(s) && Accumulate(s, acc).Some?
    ensures Accumulate(s + t, acc) == Accumulate(t, Accumulate(s, acc).value)
    decreases |s|
  {
    if s == [] {
      assert s + t == t;
    } else {
      var temp := Wrap64(acc * 10 + (s[0] - 48));
      AccumulateAppend(s[1..], t, temp);
      assert (s + t)[1..] == s[1..] + t;
    }
  }

  lemma {:induction false} DigitsDenote(n: nat)
    ensures Denotes(Digits(n)) == n
  {
    var s := Digits(n);
    if n < 10 {
      assert s[..|s| - 1] == [];
    } else {
      DigitsDenote(n / 10);
      assert s[..|s| - 1] == Digits(n / 10);
    }
  }

  lemma DigitsAppend(n: nat, d: nat)
    requires 0 < n && d < 10
    ensures Digits(10 * n + d) == Digits(n) + [48 + d]
  {
    assert (10 * n + d) / 10 == n && (10 * n + d) % 10 == d;
  }

  /** One digit beyond a value that fits: the wrapped result is accepted unless it drops below that value. */
  lemma ParseOneMoreDigit(n: nat, d: nat)
    requires 0 < n < TWO_63 && d < 10
    ensures var temp := Wrap64(10 * n + d);
            Accumulate(Digits(10 * n + d), 0) == if temp < n then None else Some(temp)
  {
    hide Digits, Denotes, Accumulate, Wrap64;
    var s := Digits(n);
    DigitsAppend(n, d);
    DigitsDenote(n);
    AllDenoted(s);
    AccumulateAppend(s, [48 + d], 0);
    LastDigit(d, n);
  }

  lemma LastDigit(d: nat, acc: int)
    requires d < 10
    ensures var temp := Wrap64(10 * acc + d);
            Accumulate([48 + d], acc) == if temp < acc then None else Some(temp)
  {
    hide Wrap64;
    assert acc * 10 + (48 + d - 48) == 10 * acc + d;
  }

  /** Digits behind an optional minus sign reach the accumulator untouched. */
  lemma ParseSigned(n: nat)
    ensures Parse(Digits(n)) == Accumulate(Digits(n), 0)
    ensures Parse([45] + Digits(n)) ==
            match Accumulate(Digits(n), 0) case None => None case Some(v) => Some(-v)
  {
    var s := Digits(n);
    assert SkipSpaces(s) == s;
    assert SkipSpaces([45] + s) == [45] + s;
    assert ([45] + s)[1..] == s;
  }

  /** The overflow test is not sound: 25 followed by eighteen zeros is accepted with another value. */
  lemma OverflowCanGoUnnoticed(n: nat)
    requires n == 2_500_000_000_000_000_000
    ensures Parse(Digits(10 * n + 0)) == Some(6_553_255_926_290_448_384)
  {
    ParseSigned(10 * n + 0);
    ParseOneMoreDigit(n, 0);
  }

  /** Parsing undoes printing for every 64-bit value but the least one, which is refused. */
  lemma ParsePrint(v: int)
    requires -TWO_63 <= v < TWO_63
    ensures Parse(Print(v)) == if v == -TWO_63 then None else Some(v)
  {
    hide Parse, Accumulate, Digits;
    var n: nat := if v < 0 then -v else v;
    ParseSigned(n);
    if n < TWO_63 {
      DigitsDenote(n);
      AccumulateFits([], Digits(n), []);
      assert [] + Digits(n) == Digits(n) && Digits(n) + [] == Digits(n);
    } else {
      ParseOneMoreDigit(n / 10, n % 10);
    }
  }

  // What is printed is the usual text of a number, and only that.

  lemma {:induction false} DigitsCanonical(n: nat)
    ensures Digits(n) != [] && (forall k :: 0 <= k < |Digits(n)| ==> 48 <= Digits(n)[k] <= 57)
    ensures Digits(n)[0] == 48 ==> n == 0 && Digits(n) == [48]
  {
    if n >= 10 {
      DigitsCanonical(n / 10);
      assert Digits(n)[0] == Digits(n / 10)[0];
    }
  }

  /** All digits, behind a minus sign if the number is negative, and no zero in front but that of 0 itself. */
  lemma PrintCanonical(v: int)
    ensures v < 0 ==> Print(v) == [45] + Print(-v)
    ensures v >= 0 ==> Print(v) != [] && forall k :: 0 <= k < |Print(v)| ==> 48 <= Print(v)[k] <= 57
    ensures v >= 0 && Print(v)[0] == 48 ==> v == 0 && Print(v) == [48]
  {
    if v >= 0 { DigitsCanonical(v); }
  }

  lemma {:induction false} DigitsUnique(s: seq<byte>)
    requires s != [] && AllDigits(s) && (s[0] == 48 ==> |s| == 1)
    ensures Digits(Denotes(s)) == s
    decreases |s|
  {
    var front, last := s[..|s| - 1], s[|s| - 1];
    if front == [] {
      assert s == [last] && Denotes(front) == 0;
    } else {
      DigitsUnique(front);
      FrontPositive(front);
      assert Denotes(s) / 10 == Denotes(front) && Denotes(s) % 10 == last - 48;
      assert s == front + [last];
    }
  }

  lemma {:induction false} FrontPositive(s: seq<byte>)
    requires s != [] && AllDigits(s) && s[0] != 48
    ensures Denotes(s) > 0
    decreases |s|
  {
    if |s| > 1 { FrontPositive(s[..|s| - 1]); } else { assert s[..0] == []; }
  }

  /**
   A text of digits without a zero in front, behind a minus sign or not, that parses to a number is the text of that
   number if and only if its digits denote one below 2^63; otherwise the overflow has gone unnoticed.
   */
  lemma PrintParse(s: seq<byte>, negative: bool, v: int)
    requires s != [] && (forall k :: 0 <= k < |s| ==> 48 <= s[k] <= 57) && (s[0] == 48 ==> s == [48] && !negative)
    requires Parse(if negative then [45] + s else s) == Some(v)
    ensures (if negative then [45] + s else s) == Print(v) <==> Denotes(s) < TWO_63
  {
    hide Accumulate, Parse, Denotes, Print;
    ParseDigits(s, negative);
    if Denotes(s) < TWO_63 {
      PrintDigits(s, negative);
    } else {
      PrintedSmall(v, s, negative);
    }
  }

  lemma ParseDigits(s: seq<byte>, negative: bool)
    requires s != [] && AllDigits(s) && (s[0] == 48 ==> |s| == 1)
    ensures var r := Parse(if negative then [45] + s else s);
            && (r.Some? ==> -TWO_63 < r.value < TWO_63)
            && (Denotes(s) < TWO_63 ==> r == Some(if negative then -Denotes(s) else Denotes(s)))
  {
    hide Accumulate, Parse, Denotes, Digits;
    DigitsUnique(s);
    ParseSigned(Denotes(s));
    AccumulateBounded(s, 0);
    if Denotes(s) < TWO_63 {
      AllDenoted(s);
    }
  }

  lemma AllDenoted(s: seq<byte>)
    requires AllDigits(s) && Denotes(s) < TWO_63
    ensures Accumulate(s, 0) == Some(Denotes(s))
  {
    hide Accumulate;
    AccumulateFits([], s, []);
    assert [] + s == s && s + [] == s;
  }

  lemma PrintDigits(s: seq<byte>, negative: bool)
    requires s != [] && AllDigits(s) && (s[0] == 48 ==> |s| == 1 && !negative)
    ensures Print(if negative then -Denotes(s) else Denotes(s)) == if negative then [45] + s else s
  {
    hide Denotes, Digits;
    var n := Denotes(s);
    DigitsUnique(s);
    assert Digits(n) == s;
    if negative {
      FrontPositive(s);
      assert n > 0 && Print(-n) == [45] + Digits(-(-n));
    }
  }

  /** What is printed of a number in range denotes it. */
  lemma PrintedSmall(v: int, s: seq<byte>, negative: bool)
    requires -TWO_63 < v < TWO_63 && s != [] && AllDigits(s)
    ensures (if negative then [45] + s else s) == Print(v) ==> Denotes(s) < TWO_63
  {
    hide Digits, Denotes;
    var t := if negative then [45] + s else s;
    if t == Print(v) {
      var n: nat := if v < 0 then -v else v;
      DigitsDenote(n);
      DigitsCanonical(n);
      assert t[0] == 45 <==> v < 0;
      assert negative ==> t[1..] == s;
      assert v < 0 ==> Print(v)[1..] == Digits(n);
    }
  }

  // How a text is read, by its first byte.

  /** Blanks, which are the bytes 9 to 13 and 32, are passed over where something follows them. */
  lemma ParseBlank(b: byte, s: seq<byte>)
    requires b in {9, 10, 11, 12, 13, 32} && s != []
    ensures Parse([b] + s) == if SkipSpaces(s) == [] then Some(0) else Parse(s)
  {
    assert ([b] + s)[1..] == s;
  }

  /** A sign counts for the digits behind it, and a text that begins otherwise counts as 0. */
  lemma ParseFirst(b: byte, s: seq<byte>)
    requires b !in {9, 10, 11, 12, 13, 32}
    ensures b == 43 ==> Parse([b] + s) == Accumulate(s, 0)
    ensures b == 45 ==> Parse([b] + s) == match Accumulate(s, 0) case None => None case Some(v) => Some(-v)
    ensures b !in {43, 45} && !(48 <= b <= 57) ==> Parse([b] + s) == Some(0)
    ensures 48 <= b <= 57 ==> Parse([b] + s) == Accumulate([b] + s, 0)
  {
    assert ([b] + s)[1..] == s;
  }
}
