/** The binary protocol's requests: field layouts, the wire form of a request, and a reference parse of a stream. */
module Pdu {
  import opened Basics

  const HEAD_LENGTH: nat := 2
  const HELLO: nat := 0x0001
  const GET: nat := 0x0201
  const GET_TOUCH: nat := 0x0202
  const GET_BASE: nat := 0x0204
  const UPDATE: nat := 0x0206
  const UPDATE_FLAGS: nat := 0x0208
  const UPDATE_EXPIRATION: nat := 0x020A
  const DELETE: nat := 0x020C
  const DELTA: nat := 0x020E
  const FLUSH: nat := 0x0210
  const AUTH: nat := 0x0212
  const STATS: nat := 0x0214
  const CREATE_WATCH: nat := 0x0216
  const CHECK_WATCH: nat := 0x0218

  predicate Known(choice: nat) {
    || choice == HELLO || choice == GET || choice == GET_TOUCH || choice == GET_BASE || choice == UPDATE
    || choice == UPDATE_FLAGS || choice == UPDATE_EXPIRATION || choice == DELETE || choice == DELTA
    || choice == FLUSH || choice == AUTH || choice == STATS || choice == CREATE_WATCH || choice == CHECK_WATCH
  }

  /** A request of these kinds is followed by as many bytes of key (or credentials) as its last field says. */
  predicate Keyed(choice: nat) {
    || choice == GET || choice == GET_TOUCH || choice == GET_BASE || choice == UPDATE_FLAGS
    || choice == UPDATE_EXPIRATION || choice == DELETE || choice == DELTA || choice == AUTH
  }

  /** The size of a request's fixed body, as the connection expects it. */
  function FixedSize(choice: nat): nat {
    if choice == GET then 10
    else if choice == GET_TOUCH then 14
    else if choice == UPDATE then 31
    else if choice == UPDATE_FLAGS then 19
    else if choice == UPDATE_EXPIRATION then 19
    else if choice == DELETE then 15
    else if choice == AUTH then 4
    else if choice == DELTA then 23
    else if choice == GET_BASE then 6
    else if choice == FLUSH then 4
    else if choice == STATS then 6
    else if choice == CREATE_WATCH then 8
    else if choice == CHECK_WATCH then 20
    else 0
  }

  /** The widths of a request's fields, in the order in which its fixed body is decoded. */
  function Widths(choice: nat): seq<nat> {
    if choice == GET then [4, 4, 2]
    else if choice == GET_TOUCH then [4, 4, 4, 2]
    else if choice == UPDATE then [1, 8, 4, 4, 4, 4, 2, 4]
    else if choice == UPDATE_FLAGS then [1, 8, 4, 4, 2]
    else if choice == UPDATE_EXPIRATION then [1, 8, 4, 4, 2]
    else if choice == DELETE then [1, 8, 4, 2]
    else if choice == AUTH then [4]
    else if choice == DELTA then [1, 8, 4, 8, 2]
    else if choice == GET_BASE then [4, 2]
    else if choice == FLUSH then [4]
    else if choice == STATS then [1, 1, 4]
    else if choice == CREATE_WATCH then [4, 4]
    else if choice == CHECK_WATCH then [4, 4, 4, 4, 4]
    else []
  }

  function Total(widths: seq<nat>): nat {
    if widths == [] then 0 else widths[0] + Total(widths[1..])
  }

  /** The declared body sizes are the sums of the field widths. */
  lemma SizesAgree(choice: nat)
    ensures Total(Widths(choice)) == FixedSize(choice)
  {
    var w := Widths(choice);
    if |w| > 0 { assert Total(w) == w[0] + Total(w[1..]); }
    if |w| > 1 { assert Total(w[1..]) == w[1] + Total(w[2..]) by { assert w[1..][1..] == w[2..]; } }
    if |w| > 2 { assert Total(w[2..]) == w[2] + Total(w[3..]) by { assert w[2..][1..] == w[3..]; } }
    if |w| > 3 { assert Total(w[3..]) == w[3] + Total(w[4..]) by { assert w[3..][1..] == w[4..]; } }
    if |w| > 4 { assert Total(w[4..]) == w[4] + Total(w[5..]) by { assert w[4..][1..] == w[5..]; } }
    if |w| > 5 { assert Total(w[5..]) == w[5] + Total(w[6..]) by { assert w[5..][1..] == w[6..]; } }
    if |w| > 6 { assert Total(w[6..]) == w[6] + Total(w[7..]) by { assert w[6..][1..] == w[7..]; } }
    if |w| > 7 { assert Total(w[7..]) == w[7] + Total(w[8..]) by { assert w[7..][1..] == w[8..]; } }
  }

  function Pow256(n: nat): (r: nat)
    ensures r > 0
  {
    if n == 0 then 1 else 256 * Pow256(n - 1)
  }

  /** Network byte order. */
  function Unsigned(s: seq<byte>): (v: nat)
    ensures v < Pow256(|s|)
  {
    if s == [] then 0 else 256 * Unsigned(s[..|s| - 1]) + s[|s| - 1]
  }

  function Bytes(v: nat, width: nat): (s: seq<byte>)
    ensures |s| == width
  {
    if width == 0 then [] else Bytes(v / 256, width - 1) + [v % 256]
  }

  lemma {:induction false} UnsignedBytes(v: nat, width: nat)
    requires v < Pow256(width)
    ensures Unsigned(Bytes(v, width)) == v
  {
    if width > 0 {
      UnsignedBytes(v / 256, width - 1);
      assert Bytes(v, width)[..width - 1] == Bytes(v / 256, width - 1);
    }
  }

  lemma {:induction false} BytesUnsigned(s: seq<byte>)
    ensures Bytes(Unsigned(s), |s|) == s
  {
    if s != [] {
      BytesUnsigned(s[..|s| - 1]);
      assert Unsigned(s) / 256 == Unsigned(s[..|s| - 1]) && Unsigned(s) % 256 == s[|s| - 1];
    }
  }

  function Decode(widths: seq<nat>, s: seq<byte>): (fields: seq<nat>)
    requires |s| == Total(widths)
    ensures |fields| == |widths|
  {
    if widths == [] then [] else [Unsigned(s[..widths[0]])] + Decode(widths[1..], s[widths[0]..])
  }

  ghost predicate Fits(widths: seq<nat>, fields: seq<nat>) {
    |fields| == |widths| && forall i :: 0 <= i < |widths| ==> fields[i] < Pow256(widths[i])
  }

  function Encode(widths: seq<nat>, fields: seq<nat>): (s: seq<byte>)
    requires |fields| == |widths|
    ensures |s| == Total(widths)
  {
    if widths == [] then [] else Bytes(fields[0], widths[0]) + Encode(widths[1..], fields[1..])
  }

  lemma {:induction false} DecodeEncode(widths: seq<nat>, fields: seq<nat>)
    requires Fits(widths, fields)
    ensures Decode(widths, Encode(widths, fields)) == fields
  {
    if widths != [] {
      var s := Encode(widths, fields);
      UnsignedBytes(fields[0], widths[0]);
      DecodeEncode(widths[1..], fields[1..]);
      assert s[..widths[0]] == Bytes(fields[0], widths[0]);
      assert s[widths[0]..] == Encode(widths[1..], fields[1..]);
    }
  }

  /** How many bytes follow the fixed body. The update's sum of lengths is a 32-bit one. */
  function ExtrasLength(choice: nat, fixed: seq<byte>): nat
    requires |fixed| == FixedSize(choice)
  {
    SizesAgree(choice);
    var fields := Decode(Widths(choice), fixed);
    Following(choice, fields)
  }

  function Following(choice: nat, fields: seq<nat>): nat
    requires |fields| == |Widths(choice)|
  {
    if choice == UPDATE then (fields[6] + fields[7]) % 0x1_0000_0000
    else if Keyed(choice) then fields[|fields| - 1]
    else 0
  }

  /** The bytes that follow an update's fixed body are its key and data exactly if their lengths add up within 32 bits. */
  lemma FollowingExactly(fields: seq<nat>)
    requires |fields| == |Widths(UPDATE)|
    ensures Following(UPDATE, fields) == fields[6] + fields[7] <==> fields[6] + fields[7] < 0x1_0000_0000
  {
  }

  /** They can fail to: a key of one byte and data of 2^32 - 1 are announced, and nothing is taken to follow. */
  lemma LengthsCanWrap(fields: seq<nat>)
    requires fields == [0, 0, 0, 0, 0, 0, 1, 0xFFFF_FFFF]
    ensures Fits(Widths(UPDATE), fields) && Following(UPDATE, fields) == 0
  {
    assert Pow256(1) == 256 && Pow256(2) == 65536 && Pow256(4) == 0x1_0000_0000 && Pow256(8) > 0 by {
      assert Pow256(1) == 256 * Pow256(0) && Pow256(2) == 256 * Pow256(1);
      assert Pow256(3) == 256 * Pow256(2) && Pow256(4) == 256 * Pow256(3);
    }
  }

  datatype Frame = Frame(choice: nat, fixed: seq<byte>, extras: seq<byte>)

  ghost predicate WellFormed(f: Frame) {
    && Known(f.choice) && f.choice != AUTH
    && |f.fixed| == FixedSize(f.choice)
    && |f.extras| == ExtrasLength(f.choice, f.fixed)
  }

  ghost predicate AllWellFormed(fs: seq<Frame>) {
    forall i :: 0 <= i < |fs| ==> WellFormed(fs[i])
  }

  function Wire(f: Frame): seq<byte> {
    Bytes(f.choice, HEAD_LENGTH) + f.fixed + f.extras
  }

  function Flatten(fs: seq<Frame>): seq<byte> {
    if fs == [] then [] else Wire(fs[0]) + Flatten(fs[1..])
  }

  lemma {:induction false} FlattenAppend(fs: seq<Frame>, f: Frame)
    ensures Flatten(fs + [f]) == Flatten(fs) + Wire(f)
  {
    if fs == [] {
      assert Flatten([f]) == Wire(f) + Flatten([f][1..]);
    } else {
      FlattenAppend(fs[1..], f);
      assert (fs + [f])[1..] == fs[1..] + [f];
    }
  }

  /** The complete requests at the front of a stream, up to the first unknown or authentication request. */
  function Parse(s: seq<byte>): seq<Frame>
    decreases |s|
  {
    if |s| < HEAD_LENGTH then []
    else
      var choice := Unsigned(s[..HEAD_LENGTH]);
      var start := HEAD_LENGTH + FixedSize(choice);
      if !Known(choice) || choice == AUTH || |s| < start then []
      else
        var fixed := s[HEAD_LENGTH..start];
        var end := start + ExtrasLength(choice, fixed);
        if |s| < end then [] else [Frame(choice, fixed, s[start..end])] + Parse(s[end..])
  }

  lemma HeadBytes(choice: nat)
    requires choice < 0x1_0000
    ensures Unsigned(Bytes(choice, HEAD_LENGTH)) == choice
  {
    assert Pow256(2) == 65536 by { assert Pow256(1) == 256 * Pow256(0); assert Pow256(2) == 256 * Pow256(1); }
    UnsignedBytes(choice, HEAD_LENGTH);
  }

  lemma ParseOne(f: Frame, rest: seq<byte>)
    requires WellFormed(f)
    ensures Parse(Wire(f) + rest) == [f] + Parse(rest)
  {
    var s := Wire(f) + rest;
    var start := HEAD_LENGTH + |f.fixed|;
    var end := start + |f.extras|;
    HeadBytes(f.choice);
    assert s[..HEAD_LENGTH] == Bytes(f.choice, HEAD_LENGTH);
    assert s[HEAD_LENGTH..start] == f.fixed;
    assert s[start..end] == f.extras;
    assert s[end..] == rest;
  }

  /** Parsing undoes writing: requests laid end to end are found again, whatever follows them. */
  lemma {:induction false} ParseFlatten(fs: seq<Frame>, rest: seq<byte>)
    requires AllWellFormed(fs)
    ensures Parse(Flatten(fs) + rest) == fs + Parse(rest)
  {
    hide WellFormed, Parse, Wire;
    if fs == [] {
      assert Flatten(fs) + rest == rest;
    } else {
      assert Flatten(fs) + rest == Wire(fs[0]) + (Flatten(fs[1..]) + rest);
      ParseOne(fs[0], Flatten(fs[1..]) + rest);
      ParseFlatten(fs[1..], rest);
      assert fs == [fs[0]] + fs[1..];
    }
  }

  lemma TooShort(s: seq<byte>)
    requires |s| < HEAD_LENGTH
    ensures Parse(s) == []
  {
  }

  lemma ParseFirst(s: seq<byte>) returns (rest: seq<byte>)
    requires Parse(s) != []
    ensures WellFormed(Parse(s)[0]) && s == Wire(Parse(s)[0]) + rest
    ensures Parse(s) == [Parse(s)[0]] + Parse(rest)
  {
    hide FixedSize, Known, ExtrasLength, Bytes, Unsigned;
    var choice := Unsigned(s[..HEAD_LENGTH]);
    var start := HEAD_LENGTH + FixedSize(choice);
    var fixed := s[HEAD_LENGTH..start];
    var end := start + ExtrasLength(choice, fixed);
    rest := s[end..];
    var f := Frame(choice, fixed, s[start..end]);
    assert Parse(s) == [f] + Parse(rest);
    BytesUnsigned(s[..HEAD_LENGTH]);
    assert s == s[..HEAD_LENGTH] + fixed + s[start..end] + rest;
  }

  /** What is found is what was written: the parsed requests, laid end to end, are the front of the stream. */
  lemma {:induction false} FlattenParse(s: seq<byte>) returns (rest: seq<byte>)
    ensures AllWellFormed(Parse(s)) && s == Flatten(Parse(s)) + rest && Parse(rest) == []
    decreases |s|
  {
    hide WellFormed, Parse, ExtrasLength, FixedSize, Known;
    var fs := Parse(s);
    if fs == [] { return s; }
    var after := ParseFirst(s);
    assert fs[1..] == Parse(after);
    assert |Wire(fs[0])| >= HEAD_LENGTH;
    rest := FlattenParse(after);
    assert s == Flatten(fs) + rest;
  }

  /** A request in terms of its fields, and the bytes a client sends for it. */
  datatype Message = Message(choice: nat, fields: seq<nat>, extras: seq<byte>)

  ghost predicate Sendable(m: Message) {
    && Known(m.choice) && m.choice != AUTH
    && Fits(Widths(m.choice), m.fields)
    && |m.extras| == Following(m.choice, m.fields)
  }

  function FrameOf(m: Message): Frame
    requires |m.fields| == |Widths(m.choice)|
  {
    Frame(m.choice, Encode(Widths(m.choice), m.fields), m.extras)
  }

  function MessageOf(f: Frame): Message
    requires |f.fixed| == FixedSize(f.choice)
  {
    SizesAgree(f.choice);
    Message(f.choice, Decode(Widths(f.choice), f.fixed), f.extras)
  }

  lemma MessageRoundTrip(m: Message)
    requires Sendable(m)
    ensures WellFormed(FrameOf(m)) && MessageOf(FrameOf(m)) == m
  {
    SizesAgree(m.choice);
    DecodeEncode(Widths(m.choice), m.fields);
  }

  /** A well-formed request that decodes to the message it was made of. */
  ghost predicate Delivered(m: Message, f: Frame) {
    WellFormed(f) && MessageOf(f) == m
  }

  /** What a client sends is what the server's parse decodes, field for field. */
  lemma ClientToServer(ms: seq<Message>, fs: seq<Frame>)
    requires |fs| == |ms| && forall i :: 0 <= i < |ms| ==> Sendable(ms[i]) && fs[i] == FrameOf(ms[i])
    ensures Parse(Flatten(fs)) == fs
    ensures forall i :: 0 <= i < |fs| ==> Delivered(ms[i], fs[i])
  {
    hide WellFormed, FrameOf, MessageOf, Sendable, Parse, Flatten;
    forall i | 0 <= i < |fs| ensures Delivered(ms[i], fs[i]) { MessageRoundTrip(ms[i]); }
    ParseFlatten(fs, []);
    TooShort([]);
    assert Flatten(fs) + [] == Flatten(fs);
  }
}
