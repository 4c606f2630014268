/** Each way the connection's loop moves on keeps the relation between its state and the stream. */
module PeerSteps {
  import opened Basics
  import opened Pdu
  import opened PeerState

  lemma HeaderRead(p: Phase, c: Command, h: History, unread: seq<byte>)
    requires Inv(p, c, h, unread) && p.state == ReadHeader && |unread| >= HEAD_LENGTH
    ensures var choice := Unsigned(unread[..HEAD_LENGTH]);
            var c' := c.(choice := choice);
            var rest := unread[HEAD_LENGTH..];
            if choice == HELLO then
              Inv(p.(state := Write, next := NewCmd), c', History(h.got, h.log + [Entry(Frame(HELLO, [], []), true)], []), rest)
            else if Known(choice) then Inv(p.(state := ReadFixed, need := FixedSize(choice)), c', h, rest)
            else Inv(p.(state := Write, next := Closing), c', h, rest)
  {
    hide Inv, Bytes, Unsigned, ExtrasLength;
    var choice := Unsigned(unread[..HEAD_LENGTH]);
    var c' := c.(choice := choice);
    HeadUnsigned(unread[..HEAD_LENGTH]);
    if choice == HELLO {
      NoExtras(choice, []);
      assert Bytes(HELLO, HEAD_LENGTH) == Wire(Frame(HELLO, [], []));
      InvFinish(p, c, h, unread, HEAD_LENGTH, p.(state := Write, next := NewCmd), c', Entry(Frame(HELLO, [], []), true));
    } else if Known(choice) {
      InvTake(p, c, h, unread, HEAD_LENGTH, p.(state := ReadFixed, need := FixedSize(choice)), c', h.skipped);
    } else {
      InvTake(p, c, h, unread, HEAD_LENGTH, p.(state := Write, next := Closing), c', h.skipped);
    }
  }

  lemma HeadUnsigned(s: seq<byte>)
    requires |s| == HEAD_LENGTH
    ensures Unsigned(s) < 0x1_0000 && Bytes(Unsigned(s), HEAD_LENGTH) == s
  {
    BytesUnsigned(s);
    assert Pow256(2) == 65536 by { assert Pow256(1) == 256 * Pow256(0); assert Pow256(2) == 256 * Pow256(1); }
  }

  lemma NoExtras(choice: nat, fixed: seq<byte>)
    requires |fixed| == FixedSize(choice) && choice != UPDATE && !Keyed(choice)
    ensures ExtrasLength(choice, fixed) == 0
  {
  }

  /** A request with a key or an update with room for it: its fixed body is in, the rest is awaited. */
  lemma FixedRead(p: Phase, c: Command, h: History, unread: seq<byte>, s: State)
    requires Inv(p, c, h, unread) && p.state == ReadFixed && p.need <= |unread|
    requires (s == ReadExtras2 && Keyed(c.choice)) || (s == ReadExtras && c.choice == UPDATE)
    ensures p.need == FixedSize(c.choice)
    ensures Inv(p.(state := s, need := ExtrasLength(c.choice, unread[..p.need])), Command(c.choice, unread[..p.need], []), h, unread[p.need..])
  {
    hide Bytes, ExtrasLength, Flatten, AllWellFormed;
    InvTake(p, c, h, unread, p.need, p.(state := s, need := ExtrasLength(c.choice, unread[..p.need])),
            Command(c.choice, unread[..p.need], []), h.skipped);
  }

  /** A request that is only a fixed body. */
  lemma FixedDone(p: Phase, c: Command, h: History, unread: seq<byte>, p': Phase)
    requires Inv(p, c, h, unread) && p.state == ReadFixed && p.need <= |unread|
    requires c.choice != UPDATE && !Keyed(c.choice)
    requires (p'.state == Write && p'.next == NewCmd) || p'.state == AsyncWait
    ensures Inv(p', Command(c.choice, unread[..p.need], []),
                History(h.got, h.log + [Entry(Frame(c.choice, unread[..p.need], []), true)], []), unread[p.need..])
  {
    hide Bytes, ExtrasLength, Flatten, AllWellFormed;
    NoExtras(c.choice, unread[..p.need]);
    InvFinish(p, c, h, unread, p.need, p', Command(c.choice, unread[..p.need], []),
              Entry(Frame(c.choice, unread[..p.need], []), true));
  }

  /** An update turned down: exactly the bytes of its key and data are to be thrown away. */
  lemma Refused(p: Phase, c: Command, h: History, unread: seq<byte>)
    requires Inv(p, c, h, unread) && p.state == ReadFixed && p.need <= |unread| && c.choice == UPDATE
    ensures p.need == FixedSize(c.choice)
    ensures var fixed := unread[..p.need];
            var c' := Command(c.choice, fixed, []);
            var n := ExtrasLength(c.choice, fixed);
            if n > 0 then Inv(p.(state := Write, next := Swallow, swallow := n), c', h.(skipped := []), unread[p.need..])
            else Inv(p.(state := Write, next := NewCmd), c',
                     History(h.got, h.log + [Entry(Frame(c.choice, fixed, []), false)], []), unread[p.need..])
  {
    hide Bytes, ExtrasLength, Flatten, AllWellFormed;
    var fixed := unread[..p.need];
    var c' := Command(c.choice, fixed, []);
    var n := ExtrasLength(c.choice, fixed);
    if n > 0 {
      InvTake(p, c, h, unread, p.need, p.(state := Write, next := Swallow, swallow := n), c', []);
    } else {
      InvFinish(p, c, h, unread, p.need, p.(state := Write, next := NewCmd), c', Entry(Frame(c.choice, fixed, []), false));
    }
  }

  /** Some of an update's key and data has been copied. */
  lemma ExtrasTaken(p: Phase, c: Command, h: History, unread: seq<byte>, n: nat)
    requires Inv(p, c, h, unread) && p.state == ReadExtras && n <= |unread| && n <= p.need
    ensures Inv(p.(need := p.need - n), c.(item := c.item + unread[..n]), h, unread[n..])
  {
    hide Bytes, ExtrasLength, Flatten, AllWellFormed, FixedSize;
    InvTake(p, c, h, unread, n, p.(need := p.need - n), c.(item := c.item + unread[..n]), h.skipped);
  }

  /** The update is complete: the copied bytes are exactly those that follow its fixed body. */
  lemma ExtrasDone(p: Phase, c: Command, h: History, unread: seq<byte>)
    requires Inv(p, c, h, unread) && p.state == ReadExtras && p.need == 0
    ensures Inv(p.(state := Write, next := NewCmd), c,
                History(h.got, h.log + [Entry(Frame(c.choice, c.fixed, c.item), true)], []), unread)
  {
    hide Bytes, ExtrasLength, Flatten, AllWellFormed, FixedSize;
    assert unread[0..] == unread && unread[..0] == [];
    InvFinish(p, c, h, unread, 0, p.(state := Write, next := NewCmd), c, Entry(Frame(c.choice, c.fixed, c.item), true));
  }

  /** A request with a key is complete. */
  lemma KeyRead(p: Phase, c: Command, h: History, unread: seq<byte>)
    requires Inv(p, c, h, unread) && p.state == ReadExtras2 && p.need <= |unread| && c.choice != AUTH
    ensures Inv(p.(state := Write, next := NewCmd), c,
                History(h.got, h.log + [Entry(Frame(c.choice, c.fixed, unread[..p.need]), true)], []), unread[p.need..])
  {
    hide Bytes, ExtrasLength, Flatten, AllWellFormed, FixedSize;
    InvFinish(p, c, h, unread, p.need, p.(state := Write, next := NewCmd), c,
              Entry(Frame(c.choice, c.fixed, unread[..p.need]), true));
  }

  /** Credentials are taken, and the connection stays where it is. */
  lemma AuthRead(p: Phase, c: Command, h: History, unread: seq<byte>)
    requires Inv(p, c, h, unread) && p.state == ReadExtras2 && p.need <= |unread| && c.choice == AUTH
    ensures Inv(p, c.(item := c.item + unread[..p.need]), h, unread[p.need..])
  {
    hide Bytes, ExtrasLength, Flatten, AllWellFormed, FixedSize;
    InvTake(p, c, h, unread, p.need, p, c.(item := c.item + unread[..p.need]), h.skipped);
  }

  lemma Swallowed(p: Phase, c: Command, h: History, unread: seq<byte>, n: nat)
    requires Inv(p, c, h, unread) && p.state == Swallow && n <= |unread| && n <= p.swallow
    ensures Inv(p.(swallow := p.swallow - n), c, h.(skipped := h.skipped + unread[..n]), unread[n..])
  {
    hide Bytes, ExtrasLength, Flatten, AllWellFormed, FixedSize;
    InvTake(p, c, h, unread, n, p.(swallow := p.swallow - n), c, h.skipped + unread[..n]);
  }

  lemma SwallowDone(p: Phase, c: Command, h: History, unread: seq<byte>)
    requires Inv(p, c, h, unread) && p.state == Swallow && p.swallow == 0
    ensures Inv(p.(state := NewCmd), c,
                History(h.got, h.log + [Entry(Frame(c.choice, c.fixed, h.skipped), false)], []), unread)
  {
    hide Bytes, ExtrasLength, Flatten, AllWellFormed, FixedSize;
    assert unread[0..] == unread && unread[..0] == [];
    InvFinish(p, c, h, unread, 0, p.(state := NewCmd), c, Entry(Frame(c.choice, c.fixed, h.skipped), false));
  }

  /** Moves between the states that have no request in hand, and those that carry out a decision taken. */
  lemma Moved(p: Phase, c: Command, h: History, unread: seq<byte>, p': Phase)
    requires Inv(p, c, h, unread)
    requires
      || (p.state == NewCmd && p'.state == ReadHeader && p'.need == HEAD_LENGTH)
      || (p.state == Write && p.next == NewCmd && p'.state == NewCmd)
      || (p.state == Write && p.next == NewCmd && p'.state == ReadHeader && |unread| >= HEAD_LENGTH)
      || (p.state == Write && p.next != NewCmd && p'.state == p.next && p'.swallow == p.swallow)
      || (p.state == Closing && p'.state == Closed)
      || (p.state == AsyncWait && (p'.state == NewCmd || (p'.state == Write && p'.next == NewCmd)))
    ensures Inv(p', c, h, unread)
  {
    hide Bytes, ExtrasLength, Flatten, AllWellFormed, FixedSize;
    InvMove(p, c, h, unread, p', c, h.skipped);
  }

  lemma FixedFacts(p: Phase, c: Command, h: History, unread: seq<byte>)
    requires Inv(p, c, h, unread) && p.state == ReadFixed
    ensures p.need == FixedSize(c.choice) && p.need > 0 && !Keyed(UPDATE)
  {
  }

  lemma HeaderFacts(p: Phase, c: Command, h: History, unread: seq<byte>)
    requires Inv(p, c, h, unread) && p.state == ReadHeader && |unread| >= p.need
    ensures |unread| >= HEAD_LENGTH
  {
  }

  lemma WriteNext(p: Phase, c: Command, h: History, unread: seq<byte>)
    requires Inv(p, c, h, unread) && p.state == Write
    ensures p.next in {NewCmd, Swallow, Closing} && (p.next == Swallow ==> p.swallow > 0)
  {
  }

  /**
   What an error reply with bytes to be swallowed means: once these bytes are there, the connection passes over
   exactly them, books the request as turned down, and is at the start of the next one.
   */
  lemma ErrorSkips(p: Phase, c: Command, h: History, unread: seq<byte>)
    requires Inv(p, c, h, unread) && p.state == Write && p.next == Swallow && p.swallow <= |unread|
    ensures |c.fixed| == FixedSize(UPDATE) && |h.skipped| + p.swallow == ExtrasLength(UPDATE, c.fixed)
    ensures Inv(Phase(NewCmd, NewCmd, p.need, 0), c,
                History(h.got, h.log + [Entry(Frame(UPDATE, c.fixed, h.skipped + unread[..p.swallow]), false)], []),
                unread[p.swallow..])
  {
    hide Inv;
    RefusedFacts(p, c, h, unread);
    var q := p.(state := Swallow, next := NewCmd);
    Moved(p, c, h, unread, q);
    Swallowed(q, c, h, unread, p.swallow);
    SwallowDone(q.(swallow := 0), c, h.(skipped := h.skipped + unread[..p.swallow]), unread[p.swallow..]);
  }

  lemma RefusedFacts(p: Phase, c: Command, h: History, unread: seq<byte>)
    requires Inv(p, c, h, unread) && p.state == Write && p.next == Swallow
    ensures c.choice == UPDATE && |c.fixed| == FixedSize(UPDATE) && |h.skipped| + p.swallow == ExtrasLength(UPDATE, c.fixed)
  {
  }

  lemma KindFacts(p: Phase, c: Command, h: History, unread: seq<byte>)
    requires Inv(p, c, h, unread)
    ensures p.state == ReadExtras || Turning(p) ==> c.choice == UPDATE
    ensures p.state == ReadExtras2 ==> c.choice != UPDATE
  {
  }
}
