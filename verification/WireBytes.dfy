/**
 The requests of the binary protocol byte by byte: opcodes, field widths, order of fields and of bytes, and what follows
 the fixed part. The statements are in literal bytes and do not use the tables from which the parse works.
 */
module WireBytes {
  import opened Basics
  import opened Pdu
  import opened PeerState

  function Be1(s: seq<byte>): nat
    requires |s| == 1
  {
    s[0]
  }

  function Be2(s: seq<byte>): nat
    requires |s| == 2
  {
    var a: nat, b: nat := s[0], s[1];
    0x100 * a + b
  }

  function Be4(s: seq<byte>): nat
    requires |s| == 4
  {
    var a: nat, b: nat, c: nat, d: nat := s[0], s[1], s[2], s[3];
    0x100_0000 * a + 0x1_0000 * b + 0x100 * c + d
  }

  function Be8(s: seq<byte>): nat
    requires |s| == 8
  {
    0x1_0000_0000 * Be4(s[..4]) + Be4(s[4..])
  }

  lemma BeIsUnsigned(s: seq<byte>)
    ensures |s| == 1 ==> Unsigned(s) == Be1(s)
    ensures |s| == 2 ==> Unsigned(s) == Be2(s)
    ensures |s| == 4 ==> Unsigned(s) == Be4(s)
  {
    if |s| == 1 { UnsignedLast(s); }
    if |s| == 2 { UnsignedLast(s); UnsignedLast(s[..1]); }
    if |s| == 4 {
      UnsignedLast(s);
      UnsignedLast(s[..3]);
      UnsignedLast(s[..2]);
      UnsignedLast(s[..1]);
      assert s[..3][..2] == s[..2] && s[..2][..1] == s[..1];
    }
  }

  lemma UnsignedLast(s: seq<byte>)
    requires s != []
    ensures Unsigned(s) == 256 * Unsigned(s[..|s| - 1]) + s[|s| - 1]
  {
  }

  lemma Be8IsUnsigned(s: seq<byte>)
    requires |s| == 8
    ensures Unsigned(s) == Be8(s)
  {
    var t := s[..4];
    BeIsUnsigned(t);
    BeIsUnsigned(s[4..]);
    UnsignedLast(s);
    UnsignedLast(s[..7]);
    UnsignedLast(s[..6]);
    UnsignedLast(s[..5]);
    assert s[..7][..6] == s[..6] && s[..6][..5] == s[..5] && s[..5][..4] == t;
    assert s[4..][0] == s[4] && s[4..][1] == s[5] && s[4..][2] == s[6] && s[4..][3] == s[7];
  }

  /** The numbers in a request's fixed part. */
  function FieldsOf(f: Frame): seq<nat> {
    if |f.fixed| == FixedSize(f.choice) then MessageOf(f).fields else []
  }

  /** Numbers read one after the other. */
  lemma DecodeFirst(width: nat, widths: seq<nat>, all: seq<nat>, a: seq<byte>, b: seq<byte>)
    requires |a| == width && |b| == Total(widths) && all == [width] + widths
    ensures Total(all) == |a + b| && Decode(all, a + b) == [Unsigned(a)] + Decode(widths, b)
  {
    assert all[1..] == widths;
    assert (a + b)[..width] == a && (a + b)[width..] == b;
  }

  lemma HeadOf(hi: byte, lo: byte)
    ensures Bytes(256 * hi + lo, HEAD_LENGTH) == [hi, lo]
  {
    assert Bytes(256 * hi + lo, 2) == Bytes(hi, 1) + [lo];
    assert Bytes(hi, 1) == Bytes(0, 0) + [hi];
  }

  /** What a whole request is: it is found at the front of whatever it begins, and a part of it is no request. */
  lemma WholeAndPart(hi: byte, lo: byte, fixed: seq<byte>, extras: seq<byte>, rest: seq<byte>)
    requires WellFormed(Frame(256 * hi + lo, fixed, extras))
    ensures Parse([hi, lo] + fixed + extras + rest) == [Frame(256 * hi + lo, fixed, extras)] + Parse(rest)
    ensures forall n :: 0 <= n < 2 + |fixed| + |extras| ==> Parse(([hi, lo] + fixed + extras)[..n]) == []
  {
    var f := Frame(256 * hi + lo, fixed, extras);
    HeadOf(hi, lo);
    ParseOne(f, rest);
    var s := [hi, lo] + fixed + extras;
    forall n | 0 <= n < |s| ensures Parse(s[..n]) == [] { Part(f, n); }
  }

  lemma Part(f: Frame, n: nat)
    requires WellFormed(f) && n < |Wire(f)|
    ensures Parse(Wire(f)[..n]) == []
  {
    hide Parse, ExtrasLength, FixedSize, Known;
    if n < HEAD_LENGTH {
      TooShort(Wire(f)[..n]);
    } else {
      var body := Wire(f)[HEAD_LENGTH..n];
      CutBody(Bytes(f.choice, HEAD_LENGTH), f.fixed, f.extras, n);
      KnownHead(f.choice);
      CutOff(f.choice, body);
    }
  }

  lemma CutBody(head: seq<byte>, fixed: seq<byte>, extras: seq<byte>, n: nat)
    requires |head| <= n < |head + fixed + extras|
    ensures var all := head + fixed + extras;
            var body := all[|head|..n];
            all[..n] == head + body && (|body| >= |fixed| ==> body[..|fixed|] == fixed)
  {
  }

  lemma KnownHead(choice: nat)
    requires Known(choice)
    ensures choice < 0x1_0000
  {
  }

  /** A greeting is its two bytes. */
  lemma HelloBytes(rest: seq<byte>)
    ensures Parse([0, 1] + rest) == [Frame(1, [], [])] + Parse(rest)
  {
    WholeAndPart(0, 1, [], [], rest);
    assert [0, 1] + [] + [] + rest == [0, 1] + rest;
  }

  /** An authentication request, and a header that is no request's, are never passed. */
  lemma StopBytes(hi: byte, lo: byte, rest: seq<byte>)
    requires !(hi == 0 && lo == 1)
    requires !(hi == 2 && lo in {0x01, 0x02, 0x04, 0x06, 0x08, 0x0A, 0x0C, 0x0E, 0x10, 0x14, 0x16, 0x18})
    ensures Parse([hi, lo] + rest) == []
  {
    HeadOf(hi, lo);
    ParseStops(256 * hi + lo, rest);
  }

  /**
   An update: op flag, id, group, flags, expiration, watch, the lengths of key and data, and then these two, unless
   their lengths overflow 32 bits.
   */
  lemma UpdateBytes(op: seq<byte>, id: seq<byte>, group: seq<byte>, flags: seq<byte>, expiration: seq<byte>, watch: seq<byte>,
                    length: seq<byte>, size: seq<byte>, key: seq<byte>, data: seq<byte>, rest: seq<byte>)
    requires |op| == 1 && |id| == 8 && |group| == 4 && |flags| == 4 && |expiration| == 4 && |watch| == 4 && |length| == 2 && |size| == 4
    requires |key| == Be2(length) && |data| == Be4(size) && |key| + |data| < 0x1_0000_0000
    ensures var fixed := op + id + group + flags + expiration + watch + length + size;
            && Parse([2, 0x06] + fixed + (key + data) + rest) == [Frame(0x0206, fixed, key + data)] + Parse(rest)
            && (forall n :: 0 <= n < 33 + |key| + |data| ==> Parse(([2, 0x06] + fixed + (key + data))[..n]) == [])
            && FieldsOf(Frame(0x0206, fixed, key + data)) ==
                 [Be1(op), Be8(id), Be4(group), Be4(flags), Be4(expiration), Be4(watch), Be2(length), Be4(size)]
  {
    hide Decode, Unsigned, Parse, WellFormed;
    var fixed := op + id + group + flags + expiration + watch + length + size;
    BeIsUnsigned(op);
    Be8IsUnsigned(id);
    BeIsUnsigned(group);
    BeIsUnsigned(flags);
    BeIsUnsigned(expiration);
    BeIsUnsigned(watch);
    BeIsUnsigned(length);
    BeIsUnsigned(size);
    DecodeNone();
    DecodeFirst(4, [], [4], size, []);
    DecodeFirst(2, [4], [2, 4], length, size);
    DecodeFirst(4, [2, 4], [4, 2, 4], watch, length + size);
    DecodeFirst(4, [4, 2, 4], [4, 4, 2, 4], expiration, watch + (length + size));
    DecodeFirst(4, [4, 4, 2, 4], [4, 4, 4, 2, 4], flags, expiration + (watch + (length + size)));
    DecodeFirst(4, [4, 4, 4, 2, 4], [4, 4, 4, 4, 2, 4], group, flags + (expiration + (watch + (length + size))));
    DecodeFirst(8, [4, 4, 4, 4, 2, 4], [8, 4, 4, 4, 4, 2, 4], id, group + (flags + (expiration + (watch + (length + size)))));
    DecodeFirst(1, [8, 4, 4, 4, 4, 2, 4], [1, 8, 4, 4, 4, 4, 2, 4], op, id + (group + (flags + (expiration + (watch + (length + size))))));
    assert fixed == op + (id + (group + (flags + (expiration + (watch + (length + size))))));
    assert size + [] == size;
    assert [Be1(op)] + ([Be8(id)] + ([Be4(group)] + ([Be4(flags)] + ([Be4(expiration)] + ([Be4(watch)] + ([Be2(length)] + ([Be4(size)] + []))))))) == [Be1(op), Be8(id), Be4(group), Be4(flags), Be4(expiration), Be4(watch), Be2(length), Be4(size)];
    UpdateShape(fixed, key + data);
    WholeAndPart(2, 0x06, fixed, key + data, rest);
  }

  lemma DecodeNone()
    ensures Total([]) == 0 && Decode([], []) == []
  {
  }

  lemma UpdateShape(fixed: seq<byte>, extras: seq<byte>)
    requires |fixed| == Total([1, 8, 4, 4, 4, 4, 2, 4])
    requires var fields := Decode([1, 8, 4, 4, 4, 4, 2, 4], fixed); |extras| == fields[6] + fields[7] < 0x1_0000_0000
    ensures |fixed| == FixedSize(0x0206) && WellFormed(Frame(0x0206, fixed, extras))
    ensures FieldsOf(Frame(0x0206, fixed, extras)) == Decode([1, 8, 4, 4, 4, 4, 2, 4], fixed)
  {
    hide Decode;
    SizesAgree(0x0206);
  }

  lemma KeyedShape(choice: nat, widths: seq<nat>, fixed: seq<byte>, key: seq<byte>)
    requires choice in {0x0201, 0x0202, 0x0204, 0x0208, 0x020A, 0x020C, 0x020E} && widths == Widths(choice)
    requires |fixed| == Total(widths) && |key| == Decode(widths, fixed)[|widths| - 1]
    ensures |fixed| == FixedSize(choice) && WellFormed(Frame(choice, fixed, key))
    ensures FieldsOf(Frame(choice, fixed, key)) == Decode(widths, fixed)
  {
    hide Decode;
    SizesAgree(choice);
  }

  lemma FixedShape(choice: nat, widths: seq<nat>, fixed: seq<byte>)
    requires choice in {0x0210, 0x0214, 0x0216, 0x0218} && widths == Widths(choice) && |fixed| == Total(widths)
    ensures |fixed| == FixedSize(choice) && WellFormed(Frame(choice, fixed, []))
    ensures FieldsOf(Frame(choice, fixed, [])) == Decode(widths, fixed)
  {
    hide Decode;
    SizesAgree(choice);
  }

  /** A read: group, watch, and the key behind its length. */
  lemma GetBytes(group: seq<byte>, watch: seq<byte>, length: seq<byte>, key: seq<byte>, rest: seq<byte>)
    requires |group| == 4 && |watch| == 4 && |length| == 2 && |key| == Be2(length)
    ensures var fixed := group + watch + length;
            && Parse([2, 0x01] + fixed + key + rest) == [Frame(0x0201, fixed, key)] + Parse(rest)
            && (forall n :: 0 <= n < 12 + |key| ==> Parse(([2, 0x01] + fixed + key)[..n]) == [])
            && FieldsOf(Frame(0x0201, fixed, key)) == [Be4(group), Be4(watch), Be2(length)]
  {
    hide Decode, Unsigned, Parse, WellFormed;
    var fixed := group + watch + length;
    BeIsUnsigned(group);
    BeIsUnsigned(watch);
    BeIsUnsigned(length);
    DecodeNone();
    DecodeFirst(2, [], [2], length, []);
    assert length + [] == length;
    DecodeFirst(4, [2], [4, 2], watch, length);
    DecodeFirst(4, [4, 2], [4, 4, 2], group, watch + length);
    assert fixed == group + (watch + length);
    assert [Be4(group)] + ([Be4(watch)] + ([Be2(length)] + [])) == [Be4(group), Be4(watch), Be2(length)];
    KeyedShape(0x0201, [4, 4, 2], fixed, key);
    WholeAndPart(2, 0x01, fixed, key, rest);
  }

  /** A read that rewrites the expiry: group, watch, expiration, and the key behind its length. */
  lemma GetTouchBytes(group: seq<byte>, watch: seq<byte>, expiration: seq<byte>, length: seq<byte>, key: seq<byte>, rest: seq<byte>)
    requires |group| == 4 && |watch| == 4 && |expiration| == 4 && |length| == 2 && |key| == Be2(length)
    ensures var fixed := group + watch + expiration + length;
            && Parse([2, 0x02] + fixed + key + rest) == [Frame(0x0202, fixed, key)] + Parse(rest)
            && (forall n :: 0 <= n < 16 + |key| ==> Parse(([2, 0x02] + fixed + key)[..n]) == [])
            && FieldsOf(Frame(0x0202, fixed, key)) == [Be4(group), Be4(watch), Be4(expiration), Be2(length)]
  {
    hide Decode, Unsigned, Parse, WellFormed;
    var fixed := group + watch + expiration + length;
    BeIsUnsigned(group);
    BeIsUnsigned(watch);
    BeIsUnsigned(expiration);
    BeIsUnsigned(length);
    DecodeNone();
    DecodeFirst(2, [], [2], length, []);
    assert length + [] == length;
    DecodeFirst(4, [2], [4, 2], expiration, length);
    DecodeFirst(4, [4, 2], [4, 4, 2], watch, expiration + length);
    DecodeFirst(4, [4, 4, 2], [4, 4, 4, 2], group, watch + (expiration + length));
    assert fixed == group + (watch + (expiration + length));
    assert [Be4(group)] + ([Be4(watch)] + ([Be4(expiration)] + ([Be2(length)] + []))) == [Be4(group), Be4(watch), Be4(expiration), Be2(length)];
    KeyedShape(0x0202, [4, 4, 4, 2], fixed, key);
    WholeAndPart(2, 0x02, fixed, key, rest);
  }

  /** A read of an entry's id, flags and size: group, and the key behind its length. */
  lemma GetBaseBytes(group: seq<byte>, length: seq<byte>, key: seq<byte>, rest: seq<byte>)
    requires |group| == 4 && |length| == 2 && |key| == Be2(length)
    ensures var fixed := group + length;
            && Parse([2, 0x04] + fixed + key + rest) == [Frame(0x0204, fixed, key)] + Parse(rest)
            && (forall n :: 0 <= n < 8 + |key| ==> Parse(([2, 0x04] + fixed + key)[..n]) == [])
            && FieldsOf(Frame(0x0204, fixed, key)) == [Be4(group), Be2(length)]
  {
    hide Decode, Unsigned, Parse, WellFormed;
    var fixed := group + length;
    BeIsUnsigned(group);
    BeIsUnsigned(length);
    DecodeNone();
    DecodeFirst(2, [], [2], length, []);
    assert length + [] == length;
    DecodeFirst(4, [2], [4, 2], group, length);
    assert [Be4(group)] + ([Be2(length)] + []) == [Be4(group), Be2(length)];
    KeyedShape(0x0204, [4, 2], fixed, key);
    WholeAndPart(2, 0x04, fixed, key, rest);
  }

  /** A change of flags: op flag, id, group, flags, and the key behind its length. */
  lemma FlagsBytes(op: seq<byte>, id: seq<byte>, group: seq<byte>, flags: seq<byte>, length: seq<byte>, key: seq<byte>, rest: seq<byte>)
    requires |op| == 1 && |id| == 8 && |group| == 4 && |flags| == 4 && |length| == 2 && |key| == Be2(length)
    ensures var fixed := op + id + group + flags + length;
            && Parse([2, 0x08] + fixed + key + rest) == [Frame(0x0208, fixed, key)] + Parse(rest)
            && (forall n :: 0 <= n < 21 + |key| ==> Parse(([2, 0x08] + fixed + key)[..n]) == [])
            && FieldsOf(Frame(0x0208, fixed, key)) == [Be1(op), Be8(id), Be4(group), Be4(flags), Be2(length)]
  {
    hide Decode, Unsigned, Parse, WellFormed;
    var fixed := op + id + group + flags + length;
    BeIsUnsigned(op);
    Be8IsUnsigned(id);
    BeIsUnsigned(group);
    BeIsUnsigned(flags);
    BeIsUnsigned(length);
    DecodeNone();
    DecodeFirst(2, [], [2], length, []);
    assert length + [] == length;
    DecodeFirst(4, [2], [4, 2], flags, length);
    DecodeFirst(4, [4, 2], [4, 4, 2], group, flags + length);
    DecodeFirst(8, [4, 4, 2], [8, 4, 4, 2], id, group + (flags + length));
    DecodeFirst(1, [8, 4, 4, 2], [1, 8, 4, 4, 2], op, id + (group + (flags + length)));
    assert fixed == op + (id + (group + (flags + length)));
    assert [Be1(op)] + ([Be8(id)] + ([Be4(group)] + ([Be4(flags)] + ([Be2(length)] + [])))) == [Be1(op), Be8(id), Be4(group), Be4(flags), Be2(length)];
    KeyedShape(0x0208, [1, 8, 4, 4, 2], fixed, key);
    WholeAndPart(2, 0x08, fixed, key, rest);
  }

  /** A change of expiry: op flag, id, group, expiration, and the key behind its length. */
  lemma ExpirationBytes(op: seq<byte>, id: seq<byte>, group: seq<byte>, expiration: seq<byte>, length: seq<byte>, key: seq<byte>, rest: seq<byte>)
    requires |op| == 1 && |id| == 8 && |group| == 4 && |expiration| == 4 && |length| == 2 && |key| == Be2(length)
    ensures var fixed := op + id + group + expiration + length;
            && Parse([2, 0x0A] + fixed + key + rest) == [Frame(0x020A, fixed, key)] + Parse(rest)
            && (forall n :: 0 <= n < 21 + |key| ==> Parse(([2, 0x0A] + fixed + key)[..n]) == [])
            && FieldsOf(Frame(0x020A, fixed, key)) == [Be1(op), Be8(id), Be4(group), Be4(expiration), Be2(length)]
  {
    hide Decode, Unsigned, Parse, WellFormed;
    var fixed := op + id + group + expiration + length;
    BeIsUnsigned(op);
    Be8IsUnsigned(id);
    BeIsUnsigned(group);
    BeIsUnsigned(expiration);
    BeIsUnsigned(length);
    DecodeNone();
    DecodeFirst(2, [], [2], length, []);
    assert length + [] == length;
    DecodeFirst(4, [2], [4, 2], expiration, length);
    DecodeFirst(4, [4, 2], [4, 4, 2], group, expiration + length);
    DecodeFirst(8, [4, 4, 2], [8, 4, 4, 2], id, group + (expiration + length));
    DecodeFirst(1, [8, 4, 4, 2], [1, 8, 4, 4, 2], op, id + (group + (expiration + length)));
    assert fixed == op + (id + (group + (expiration + length)));
    assert [Be1(op)] + ([Be8(id)] + ([Be4(group)] + ([Be4(expiration)] + ([Be2(length)] + [])))) == [Be1(op), Be8(id), Be4(group), Be4(expiration), Be2(length)];
    KeyedShape(0x020A, [1, 8, 4, 4, 2], fixed, key);
    WholeAndPart(2, 0x0A, fixed, key, rest);
  }

  /** A delete: op flag, id, group, and the key behind its length. */
  lemma DeleteBytes(op: seq<byte>, id: seq<byte>, group: seq<byte>, length: seq<byte>, key: seq<byte>, rest: seq<byte>)
    requires |op| == 1 && |id| == 8 && |group| == 4 && |length| == 2 && |key| == Be2(length)
    ensures var fixed := op + id + group + length;
            && Parse([2, 0x0C] + fixed + key + rest) == [Frame(0x020C, fixed, key)] + Parse(rest)
            && (forall n :: 0 <= n < 17 + |key| ==> Parse(([2, 0x0C] + fixed + key)[..n]) == [])
            && FieldsOf(Frame(0x020C, fixed, key)) == [Be1(op), Be8(id), Be4(group), Be2(length)]
  {
    hide Decode, Unsigned, Parse, WellFormed;
    var fixed := op + id + group + length;
    BeIsUnsigned(op);
    Be8IsUnsigned(id);
    BeIsUnsigned(group);
    BeIsUnsigned(length);
    DecodeNone();
    DecodeFirst(2, [], [2], length, []);
    assert length + [] == length;
    DecodeFirst(4, [2], [4, 2], group, length);
    DecodeFirst(8, [4, 2], [8, 4, 2], id, group + length);
    DecodeFirst(1, [8, 4, 2], [1, 8, 4, 2], op, id + (group + length));
    assert fixed == op + (id + (group + length));
    assert [Be1(op)] + ([Be8(id)] + ([Be4(group)] + ([Be2(length)] + []))) == [Be1(op), Be8(id), Be4(group), Be2(length)];
    KeyedShape(0x020C, [1, 8, 4, 2], fixed, key);
    WholeAndPart(2, 0x0C, fixed, key, rest);
  }

  /** A counter step: op flag, id, group, delta, and the key behind its length. */
  lemma DeltaBytes(op: seq<byte>, id: seq<byte>, group: seq<byte>, delta: seq<byte>, length: seq<byte>, key: seq<byte>, rest: seq<byte>)
    requires |op| == 1 && |id| == 8 && |group| == 4 && |delta| == 8 && |length| == 2 && |key| == Be2(length)
    ensures var fixed := op + id + group + delta + length;
            && Parse([2, 0x0E] + fixed + key + rest) == [Frame(0x020E, fixed, key)] + Parse(rest)
            && (forall n :: 0 <= n < 25 + |key| ==> Parse(([2, 0x0E] + fixed + key)[..n]) == [])
            && FieldsOf(Frame(0x020E, fixed, key)) == [Be1(op), Be8(id), Be4(group), Be8(delta), Be2(length)]
  {
    hide Decode, Unsigned, Parse, WellFormed;
    var fixed := op + id + group + delta + length;
    BeIsUnsigned(op);
    Be8IsUnsigned(id);
    BeIsUnsigned(group);
    Be8IsUnsigned(delta);
    BeIsUnsigned(length);
    DecodeNone();
    DecodeFirst(2, [], [2], length, []);
    assert length + [] == length;
    DecodeFirst(8, [2], [8, 2], delta, length);
    DecodeFirst(4, [8, 2], [4, 8, 2], group, delta + length);
    DecodeFirst(8, [4, 8, 2], [8, 4, 8, 2], id, group + (delta + length));
    DecodeFirst(1, [8, 4, 8, 2], [1, 8, 4, 8, 2], op, id + (group + (delta + length)));
    assert fixed == op + (id + (group + (delta + length)));
    assert [Be1(op)] + ([Be8(id)] + ([Be4(group)] + ([Be8(delta)] + ([Be2(length)] + [])))) == [Be1(op), Be8(id), Be4(group), Be8(delta), Be2(length)];
    KeyedShape(0x020E, [1, 8, 4, 8, 2], fixed, key);
    WholeAndPart(2, 0x0E, fixed, key, rest);
  }

  /** A flush names its group. */
  lemma FlushBytes(group: seq<byte>, rest: seq<byte>)
    requires |group| == 4
    ensures var fixed := group;
            && Parse([2, 0x10] + fixed + rest) == [Frame(0x0210, fixed, [])] + Parse(rest)
            && (forall n :: 0 <= n < 6 ==> Parse(([2, 0x10] + fixed)[..n]) == [])
            && FieldsOf(Frame(0x0210, fixed, [])) == [Be4(group)]
  {
    hide Decode, Unsigned, Parse, WellFormed;
    var fixed := group;
    BeIsUnsigned(group);
    DecodeNone();
    DecodeFirst(4, [], [4], group, []);
    assert group + [] == group;
    assert [Be4(group)] + [] == [Be4(group)];
    FixedShape(0x0210, [4], fixed);
    WholeAndPart(2, 0x10, fixed, [], rest);
    assert [2, 0x10] + fixed + [] == [2, 0x10] + fixed;
  }

  /** A statistics request: op flag, class, group. */
  lemma StatsBytes(op: seq<byte>, kind: seq<byte>, group: seq<byte>, rest: seq<byte>)
    requires |op| == 1 && |kind| == 1 && |group| == 4
    ensures var fixed := op + kind + group;
            && Parse([2, 0x14] + fixed + rest) == [Frame(0x0214, fixed, [])] + Parse(rest)
            && (forall n :: 0 <= n < 8 ==> Parse(([2, 0x14] + fixed)[..n]) == [])
            && FieldsOf(Frame(0x0214, fixed, [])) == [Be1(op), Be1(kind), Be4(group)]
  {
    hide Decode, Unsigned, Parse, WellFormed;
    var fixed := op + kind + group;
    BeIsUnsigned(op);
    BeIsUnsigned(kind);
    BeIsUnsigned(group);
    DecodeNone();
    DecodeFirst(4, [], [4], group, []);
    assert group + [] == group;
    DecodeFirst(1, [4], [1, 4], kind, group);
    DecodeFirst(1, [1, 4], [1, 1, 4], op, kind + group);
    assert fixed == op + (kind + group);
    assert [Be1(op)] + ([Be1(kind)] + ([Be4(group)] + [])) == [Be1(op), Be1(kind), Be4(group)];
    FixedShape(0x0214, [1, 1, 4], fixed);
    WholeAndPart(2, 0x14, fixed, [], rest);
    assert [2, 0x14] + fixed + [] == [2, 0x14] + fixed;
  }

  /** A new watch: group and interval. */
  lemma CreateWatchBytes(group: seq<byte>, interval: seq<byte>, rest: seq<byte>)
    requires |group| == 4 && |interval| == 4
    ensures var fixed := group + interval;
            && Parse([2, 0x16] + fixed + rest) == [Frame(0x0216, fixed, [])] + Parse(rest)
            && (forall n :: 0 <= n < 10 ==> Parse(([2, 0x16] + fixed)[..n]) == [])
            && FieldsOf(Frame(0x0216, fixed, [])) == [Be4(group), Be4(interval)]
  {
    hide Decode, Unsigned, Parse, WellFormed;
    var fixed := group + interval;
    BeIsUnsigned(group);
    BeIsUnsigned(interval);
    DecodeNone();
    DecodeFirst(4, [], [4], interval, []);
    assert interval + [] == interval;
    DecodeFirst(4, [4], [4, 4], group, interval);
    assert [Be4(group)] + ([Be4(interval)] + []) == [Be4(group), Be4(interval)];
    FixedShape(0x0216, [4, 4], fixed);
    WholeAndPart(2, 0x16, fixed, [], rest);
    assert [2, 0x16] + fixed + [] == [2, 0x16] + fixed;
  }

  /** A check of a watch: group, watch, timeout, interval, and the number acknowledged. */
  lemma CheckWatchBytes(group: seq<byte>, watch: seq<byte>, timeout: seq<byte>, interval: seq<byte>, ack: seq<byte>, rest: seq<byte>)
    requires |group| == 4 && |watch| == 4 && |timeout| == 4 && |interval| == 4 && |ack| == 4
    ensures var fixed := group + watch + timeout + interval + ack;
            && Parse([2, 0x18] + fixed + rest) == [Frame(0x0218, fixed, [])] + Parse(rest)
            && (forall n :: 0 <= n < 22 ==> Parse(([2, 0x18] + fixed)[..n]) == [])
            && FieldsOf(Frame(0x0218, fixed, [])) == [Be4(group), Be4(watch), Be4(timeout), Be4(interval), Be4(ack)]
  {
    hide Decode, Unsigned, Parse, WellFormed;
    var fixed := group + watch + timeout + interval + ack;
    BeIsUnsigned(group);
    BeIsUnsigned(watch);
    BeIsUnsigned(timeout);
    BeIsUnsigned(interval);
    BeIsUnsigned(ack);
    DecodeNone();
    DecodeFirst(4, [], [4], ack, []);
    assert ack + [] == ack;
    DecodeFirst(4, [4], [4, 4], interval, ack);
    DecodeFirst(4, [4, 4], [4, 4, 4], timeout, interval + ack);
    DecodeFirst(4, [4, 4, 4], [4, 4, 4, 4], watch, timeout + (interval + ack));
    DecodeFirst(4, [4, 4, 4, 4], [4, 4, 4, 4, 4], group, watch + (timeout + (interval + ack)));
    assert fixed == group + (watch + (timeout + (interval + ack)));
    assert [Be4(group)] + ([Be4(watch)] + ([Be4(timeout)] + ([Be4(interval)] + ([Be4(ack)] + [])))) == [Be4(group), Be4(watch), Be4(timeout), Be4(interval), Be4(ack)];
    FixedShape(0x0218, [4, 4, 4, 4, 4], fixed);
    WholeAndPart(2, 0x18, fixed, [], rest);
    assert [2, 0x18] + fixed + [] == [2, 0x18] + fixed;
  }
}
