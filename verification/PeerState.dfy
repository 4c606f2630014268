/** What a connection's state says about the bytes it has taken in, and which steps keep that. */
module PeerState {
  import opened Basics
  import opened Pdu

  datatype State = NewCmd | ReadHeader | ReadFixed | ReadExtras | ReadExtras2 | Swallow | AsyncWait | Write | Closing | Closed

  /** `need` is the number of bytes the state waits for; `swallow` the number still to be thrown away. */
  datatype Phase = Phase(state: State, next: State, need: nat, swallow: nat)

  /** The request being read: its kind, its fixed body, and what has been copied of the bytes after that. */
  datatype Command = Command(choice: nat, fixed: seq<byte>, item: seq<byte>)

  /** A request dealt with: carried out, or (an update there was no room for) turned down and skipped. */
  datatype Entry = Entry(frame: Frame, accepted: bool)

  /** Everything received so far, the requests dealt with, and what was skipped of the one being turned down. */
  datatype History = History(got: seq<byte>, log: seq<Entry>, skipped: seq<byte>)

  ghost function Frames(log: seq<Entry>): (fs: seq<Frame>)
    ensures |fs| == |log|
  {
    seq(|log|, i requires 0 <= i < |log| => log[i].frame)
  }

  predicate Turning(p: Phase) {
    p.state == Swallow || (p.state == Write && p.next == Swallow)
  }

  predicate Ending(p: Phase) {
    p.state == Closing || p.state == Closed || (p.state == Write && p.next == Closing)
  }

  /** A request has been begun and not been dealt with. */
  predicate InHand(p: Phase) {
    p.state in {ReadFixed, ReadExtras, ReadExtras2} || Turning(p) || Ending(p)
  }

  function One(b: bool): nat { if b then 1 else 0 }

  /** Every header read is a request begun: it is dealt with, or still in hand. */
  predicate Tallied(p: Phase, log: seq<Entry>, p': Phase, log': seq<Entry>, headers: int) {
    One(InHand(p)) + headers == |log'| - |log| + One(InHand(p'))
  }

  /** The bytes of the request in hand that have been taken from the stream. */
  ghost function Partial(p: Phase, c: Command, skipped: seq<byte>): seq<byte> {
    var head := Bytes(c.choice, HEAD_LENGTH);
    if p.state == ReadFixed || Ending(p) then head
    else if p.state == ReadExtras || p.state == ReadExtras2 then head + c.fixed + c.item
    else if Turning(p) then head + c.fixed + skipped
    else []
  }

  ghost predicate PhaseOk(p: Phase, c: Command, skipped: seq<byte>, unread: nat) {
    && c.choice < 0x1_0000
    && (p.state == ReadHeader ==> p.need >= HEAD_LENGTH || unread >= HEAD_LENGTH)
    && (p.state == ReadFixed ==> Known(c.choice) && c.choice != HELLO && p.need == FixedSize(c.choice))
    && (p.state == ReadExtras ==>
          && c.choice == UPDATE && |c.fixed| == FixedSize(c.choice)
          && |c.item| + p.need == ExtrasLength(c.choice, c.fixed))
    && (p.state == ReadExtras2 ==>
          && Keyed(c.choice) && |c.fixed| == FixedSize(c.choice) && p.need == ExtrasLength(c.choice, c.fixed)
          && (c.choice != AUTH ==> c.item == []))
    && (Turning(p) ==>
          && c.choice == UPDATE && |c.fixed| == FixedSize(c.choice)
          && |skipped| + p.swallow == ExtrasLength(c.choice, c.fixed))
    && (Ending(p) ==> !Known(c.choice))
    && (p.state == Write ==> p.next == NewCmd || p.next == Swallow || p.next == Closing)
    && (p.state == Write && p.next == Swallow ==> p.swallow > 0)
  }

  /** The stream so far is the requests dealt with, then the part of the next one taken, then the unread bytes. */
  ghost predicate Inv(p: Phase, c: Command, h: History, unread: seq<byte>) {
    && PhaseOk(p, c, h.skipped, |unread|)
    && AllWellFormed(Frames(h.log))
    && h.got == Flatten(Frames(h.log)) + Partial(p, c, h.skipped) + unread
  }

  /** The requests dealt with are a prefix of the reference parse of the stream, whatever comes after it. */
  lemma LogIsPrefix(p: Phase, c: Command, h: History, unread: seq<byte>, later: seq<byte>)
    requires Inv(p, c, h, unread)
    ensures Parse(h.got + later) == Frames(h.log) + Parse(Partial(p, c, h.skipped) + unread + later)
  {
    hide PhaseOk, Partial, Parse, WellFormed, Wire, Flatten;
    var part := Partial(p, c, h.skipped);
    assert h.got + later == Flatten(Frames(h.log)) + (part + unread + later);
    ParseFlatten(Frames(h.log), part + unread + later);
  }

  /** A change of state that takes no bytes. */
  lemma InvMove(p: Phase, c: Command, h: History, unread: seq<byte>, p': Phase, c': Command, skipped: seq<byte>)
    requires Inv(p, c, h, unread)
    requires PhaseOk(p', c', skipped, |unread|) && Partial(p', c', skipped) == Partial(p, c, h.skipped)
    ensures Inv(p', c', h.(skipped := skipped), unread)
  {
    hide PhaseOk, Partial, AllWellFormed, Flatten;
  }

  /** Bytes arrive. */
  lemma InvFill(p: Phase, c: Command, h: History, unread: seq<byte>, chunk: seq<byte>)
    requires Inv(p, c, h, unread)
    ensures Inv(p, c, h.(got := h.got + chunk), unread + chunk)
  {
    hide Partial, AllWellFormed, Flatten, ExtrasLength, FixedSize, Known;
  }

  /** Bytes are taken as part of the request in hand. */
  lemma InvTake(p: Phase, c: Command, h: History, unread: seq<byte>, n: nat, p': Phase, c': Command, skipped: seq<byte>)
    requires Inv(p, c, h, unread) && n <= |unread|
    requires PhaseOk(p', c', skipped, |unread| - n)
    requires Partial(p', c', skipped) == Partial(p, c, h.skipped) + unread[..n]
    ensures Inv(p', c', h.(skipped := skipped), unread[n..])
  {
    hide PhaseOk, Partial, AllWellFormed, Flatten;
    assert unread == unread[..n] + unread[n..];
  }

  /** Bytes are taken that complete the request in hand. */
  lemma InvFinish(p: Phase, c: Command, h: History, unread: seq<byte>, n: nat, p': Phase, c': Command, e: Entry)
    requires Inv(p, c, h, unread) && n <= |unread| && WellFormed(e.frame)
    requires Partial(p, c, h.skipped) + unread[..n] == Wire(e.frame)
    requires PhaseOk(p', c', [], |unread| - n) && Partial(p', c', []) == []
    ensures Inv(p', c', History(h.got, h.log + [e], []), unread[n..])
  {
    hide PhaseOk, Partial, WellFormed, Wire, Flatten;
    var fs := Frames(h.log);
    assert Frames(h.log + [e]) == fs + [e.frame];
    FlattenAppend(fs, e.frame);
    assert unread == unread[..n] + unread[n..];
  }

  /** The states in which the connection has asked for bytes, waiting for ones that belong to the request in hand. */
  predicate Waiting(p: Phase, c: Command, unread: nat) {
    || (p.state == ReadHeader && unread < p.need == HEAD_LENGTH)
    || (p.state == ReadFixed && unread < p.need)
    || (p.state == ReadExtras && unread == 0 < p.need)
    || (p.state == ReadExtras2 && unread < p.need && c.choice != AUTH)
    || (p.state == Swallow && unread == 0 < p.swallow)
  }

  /** Nothing complete can lie unread: bytes are awaited, no more is ever read, or what is unread is less than a header. */
  predicate Abreast(p: Phase, c: Command, unread: nat) {
    || Waiting(p, c, unread) || Ending(p) || (p.state == ReadExtras2 && c.choice == AUTH)
    || (!InHand(p) && unread < HEAD_LENGTH)
  }

  /** A request that is unknown, or authenticates, is no part of the reference parse, and neither is what follows it. */
  lemma ParseStops(choice: nat, s: seq<byte>)
    requires choice < 0x1_0000 && (!Known(choice) || choice == AUTH)
    ensures Parse(Bytes(choice, HEAD_LENGTH) + s) == []
  {
    hide FixedSize, Known, ExtrasLength, Bytes, Unsigned;
    HeadBytes(choice);
    assert (Bytes(choice, HEAD_LENGTH) + s)[..HEAD_LENGTH] == Bytes(choice, HEAD_LENGTH);
  }

  /** A request cut off inside its body or its extra bytes is not complete. */
  lemma CutOff(choice: nat, body: seq<byte>)
    requires choice < 0x1_0000 && Known(choice)
    requires |body| < FixedSize(choice) || |body| < FixedSize(choice) + ExtrasLength(choice, body[..FixedSize(choice)])
    ensures Parse(Bytes(choice, HEAD_LENGTH) + body) == []
  {
    hide FixedSize, Known, ExtrasLength, Bytes, Unsigned;
    var s := Bytes(choice, HEAD_LENGTH) + body;
    HeadBytes(choice);
    assert s[..HEAD_LENGTH] == Bytes(choice, HEAD_LENGTH);
    var start := HEAD_LENGTH + FixedSize(choice);
    if |s| >= start { assert s[HEAD_LENGTH..start] == body[..FixedSize(choice)]; }
  }

  /** A connection so placed has dealt with every complete request received. */
  lemma CaughtUp(p: Phase, c: Command, h: History, unread: seq<byte>)
    requires Inv(p, c, h, unread) && Abreast(p, c, |unread|)
    ensures Parse(h.got) == Frames(h.log)
  {
    hide Parse, FixedSize, Known, ExtrasLength, Bytes, Flatten, AllWellFormed, Frames;
    LogIsPrefix(p, c, h, unread, []);
    assert h.got + [] == h.got;
    var part := Partial(p, c, h.skipped);
    assert part + unread + [] == part + unread;
    if !InHand(p) {
      assert part + unread == unread;
      TooShort(unread);
    } else {
      var body := if p.state == ReadFixed || Ending(p) then unread
                  else if p.state == Swallow then c.fixed + h.skipped + unread
                  else c.fixed + c.item + unread;
      assert part + unread == Bytes(c.choice, HEAD_LENGTH) + body;
      if Ending(p) || (p.state == ReadExtras2 && c.choice == AUTH) {
        ParseStops(c.choice, body);
      } else {
        if p.state != ReadFixed { assert body[..FixedSize(c.choice)] == c.fixed; }
        UpdateKnown(c.choice);
        CutOff(c.choice, body);
      }
    }
  }

  lemma UpdateKnown(choice: nat)
    ensures choice == UPDATE || Keyed(choice) ==> Known(choice)
  {
  }

  /**
   A connection resting in want of a header is sure to have dealt with every complete request received, whatever the
   unread bytes are, if and only if it wants no more bytes than a header has.
   */
  lemma CaughtUpExactly(p: Phase, c: Command)
    requires p.state == ReadHeader && c.choice < 0x1_0000
    ensures (forall h, unread :: Inv(p, c, h, unread) && |unread| < p.need ==> Parse(h.got) == Frames(h.log)) <==>
            p.need <= HEAD_LENGTH
  {
    hide Parse, Flatten, AllWellFormed, Frames, Bytes;
    if p.need <= HEAD_LENGTH {
      forall h, unread | Inv(p, c, h, unread) && |unread| < p.need ensures Parse(h.got) == Frames(h.log) {
        LogIsPrefix(p, c, h, unread, []);
        TooShort(unread);
        assert h.got + [] == h.got && [] + unread + [] == unread;
      }
    } else {
      var hello := Bytes(HELLO, HEAD_LENGTH);
      NothingYet(p, c, hello);
      GreetingAlone();
      assert Inv(p, c, History(hello, [], []), hello);
    }
  }

  lemma NothingYet(p: Phase, c: Command, s: seq<byte>)
    requires p.state == ReadHeader && c.choice < 0x1_0000 && |s| >= HEAD_LENGTH
    ensures Inv(p, c, History(s, [], []), s) && Frames([]) == []
  {
    assert [] + [] + s == s;
  }

  /** How it comes about: a greeting behind a reply whose request left a count above two is not looked at until more bytes come. */
  lemma StaleCount(p: Phase, c: Command, h: History, unread: seq<byte>)
    requires Inv(p, c, h, unread) && p.state == Write && p.next == NewCmd && p.need > HEAD_LENGTH
    requires unread == Bytes(HELLO, HEAD_LENGTH)
    ensures var p' := p.(state := ReadHeader);
            && Inv(p', c, h, unread) && |unread| < p'.need
            && Parse(h.got) == Frames(h.log) + [Frame(HELLO, [], [])]
  {
    hide Parse, Flatten, AllWellFormed, Frames, Bytes;
    var p' := p.(state := ReadHeader);
    InvMove(p, c, h, unread, p', c, h.skipped);
    LogIsPrefix(p', c, h, unread, []);
    assert h.got + [] == h.got && [] + unread + [] == unread;
    GreetingAlone();
  }

  lemma GreetingAlone()
    ensures Parse(Bytes(HELLO, HEAD_LENGTH)) == [Frame(HELLO, [], [])]
  {
    var f := Frame(HELLO, [], []);
    assert WellFormed(f);
    ParseOne(f, []);
    assert Wire(f) + [] == Bytes(HELLO, HEAD_LENGTH);
    TooShort([]);
  }

  // How the cache's answers show in the log.

  /** The number of updates dealt with. */
  function Updates(log: seq<Entry>): nat {
    if log == [] then 0 else Updates(log[..|log| - 1]) + if log[|log| - 1].frame.choice == UPDATE then 1 else 0
  }

  /**
   With `answers(k)` saying whether the cache finds room for the k-th update: exactly the updates without room are
   booked as turned down, and the one in hand is being read or skipped as its answer says.
   */
  ghost predicate Answered(p: Phase, log: seq<Entry>, answers: nat -> bool) {
    && (forall i :: 0 <= i < |log| ==> log[i].accepted == (log[i].frame.choice != UPDATE || answers(Updates(log[..i]))))
    && (p.state == ReadExtras ==> answers(Updates(log)))
    && (Turning(p) ==> !answers(Updates(log)))
  }

  /** How one step may change the log: not at all, or by the request it completes. */
  ghost predicate Booked(p: Phase, c: Command, h: History, p': Phase, h': History, room: bool) {
    var deciding := p.state == ReadFixed && c.choice == UPDATE;
    if h'.log == h.log then
      && (p'.state == ReadExtras ==> p.state == ReadExtras || (deciding && room))
      && (Turning(p') ==> Turning(p) || (deciding && !room))
    else
      && |h'.log| == |h.log| + 1 && h.log <= h'.log && p'.state != ReadExtras && !Turning(p')
      && var e := h'.log[|h.log|];
         && (e.frame.choice == UPDATE <==> p.state == ReadExtras || Turning(p) || deciding)
         && (e.accepted <==> !Turning(p) && (deciding ==> room))
  }

  lemma BookedAnswered(p: Phase, c: Command, h: History, p': Phase, h': History, answers: nat -> bool)
    requires Answered(p, h.log, answers) && Booked(p, c, h, p', h', answers(Updates(h.log)))
    ensures Answered(p', h'.log, answers)
  {
    if h'.log != h.log {
      var n := |h.log|;
      assert h'.log[..n] == h.log;
      forall i | 0 <= i < n ensures h'.log[i].accepted == (h'.log[i].frame.choice != UPDATE || answers(Updates(h'.log[..i]))) {
        assert h'.log[..i] == h.log[..i] && h'.log[i] == h.log[i];
      }
    }
  }

  lemma BookedSame(p: Phase, c: Command, h: History, room: bool)
    ensures forall p': Phase, h': History ::
      h'.log == h.log && (p'.state == ReadExtras ==> p.state == ReadExtras) && (Turning(p') ==> Turning(p)) ==>
        Booked(p, c, h, p', h', room)
  {
  }
}
