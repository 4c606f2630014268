/** One client connection of the binary protocol: the loop that turns chunks of bytes into requests. */
module Peer {
  import opened Basics
  import opened Pdu
  import opened PeerState
  import opened PeerSteps
  import opened ReceiveBuffer

  /**
   The bytes on their way, of which the first `arrived` can be read now. A read takes any number of these that fits, and
   none only if there is none or no room.
   */
  class Socket {
    var pending: seq<byte>
    var arrived: nat

    ghost predicate Valid()
      reads this
    {
      arrived <= |pending|
    }

    constructor (all: seq<byte>)
      ensures pending == all && arrived == 0 && Valid()
    {
      pending, arrived := all, 0;
    }

    method Arrive(n: nat)
      requires Valid() && arrived + n <= |pending|
      modifies this`arrived
      ensures Valid() && arrived == old(arrived) + n
    {
      arrived := arrived + n;
    }

    method ReadSome(size: nat) returns (chunk: seq<byte>)
      requires Valid()
      modifies this
      ensures Valid() && |chunk| <= size && old(pending) == chunk + pending && old(arrived) == |chunk| + arrived
      ensures chunk == [] ==> arrived == 0 || size == 0
    {
      var most: nat := if size < arrived then size else arrived;
      assert most <= most && (most == 0 || most > 0);
      var n: nat :| n <= most && (most == 0 || n > 0);
      chunk := pending[..n];
      pending, arrived := pending[n..], arrived - n;
    }
  }

  /** Requests are only ever added, and bytes only move from the wire into the history. */
  ghost predicate Grew(h: History, pending: seq<byte>, h': History, pending': seq<byte>) {
    h.log <= h'.log && h.got + pending == h'.got + pending'
  }

  lemma GrewTwice(h: History, pending: seq<byte>, h': History, pending': seq<byte>, h'': History, pending'': seq<byte>)
    requires Grew(h, pending, h', pending') && Grew(h', pending', h'', pending'')
    ensures Grew(h, pending, h'', pending'')
  {
  }

  /** What is left to do: bytes to read count for more than bytes read, and those for more than changes of state. */
  ghost function Work(pending: nat, unread: nat, s: State): nat {
    (2 * pending + unread) * 4 + (match s
      case ReadExtras | ReadExtras2 => 3
      case Swallow | Write => 2
      case NewCmd => 1
      case _ => 0)
  }

  class Connection {
    const buffer: Buffer
    const socket: Socket
    var phase: Phase
    var command: Command
    var history: History

    ghost predicate Valid()
      reads this, buffer, buffer.buf, socket
    {
      buffer.Valid() && socket.Valid() && Inv(phase, command, history, buffer.Unread())
    }

    /** There is nothing to read now, or nowhere to put it. */
    ghost predicate Dry()
      reads this, buffer, socket
      requires buffer.Valid()
    {
      socket.arrived == 0 || buffer.FreeSpace() == 0
    }

    ghost function Remaining(): nat
      reads this, buffer, socket
    {
      Work(|socket.pending|, buffer.dataSize, phase.state)
    }

    constructor (b: Buffer, s: Socket)
      requires b.Valid() && b.Unread() == [] && s.Valid()
      ensures buffer == b && socket == s && Valid() && phase.state == NewCmd && history == History([], [], [])
    {
      buffer, socket := b, s;
      phase, command, history := Phase(NewCmd, NewCmd, HEAD_LENGTH, 0), Command(0, [], []), History([], [], []);
    }

    method Pull(growth: bool, shrink: bool) returns (chunk: seq<byte>)
      requires buffer.Valid() && socket.Valid()
      modifies buffer, buffer.buf, socket
      ensures buffer.Valid() && socket.Valid() && (buffer.buf == old(buffer.buf) || fresh(buffer.buf))
      ensures chunk == [] ==> Dry()
      ensures buffer.Unread() == old(buffer.Unread()) + chunk && old(socket.pending) == chunk + socket.pending
    {
      buffer.HandleProcessed(growth, shrink);
      chunk := socket.ReadSome(buffer.FreeSpace());
      buffer.Fill(chunk);
    }

    /** Asks for more bytes; false if none came. */
    method Refill(growth: bool, shrink: bool) returns (run: bool)
      requires Valid()
      modifies this`history, buffer, buffer.buf, socket
      ensures Valid() && (buffer.buf == old(buffer.buf) || fresh(buffer.buf))
      ensures Grew(old(history), old(socket.pending), history, socket.pending)
      ensures old(buffer.Unread()) <= buffer.Unread() && history.log == old(history).log
      ensures run ==> Remaining() < old(Remaining())
      ensures !run ==> Dry() && buffer.Unread() == old(buffer.Unread()) && history == old(history)
    {
      hide Inv;
      ghost var unread := buffer.Unread();
      var chunk := Pull(growth, shrink);
      InvFill(phase, command, history, unread, chunk);
      history := history.(got := history.got + chunk);
      run := chunk != [];
      assert unread + [] == unread && history.got + [] == history.got;
    }

    /** The first bytes of a connection, read by whoever accepted it. */
    method Begin(data: seq<byte>)
      requires Valid() && phase.state == NewCmd && |data| <= buffer.FreeSpace()
      modifies this`phase, this`history, buffer, buffer.buf
      ensures Valid() && buffer.buf == old(buffer.buf) && buffer.Unread() == old(buffer.Unread()) + data
      ensures history == old(history).(got := old(history).got + data) && phase == old(phase).(state := ReadHeader, need := HEAD_LENGTH)
    {
      hide Inv;
      ghost var unread := buffer.Unread();
      buffer.Fill(data);
      InvFill(phase, command, history, unread, data);
      history := history.(got := history.got + data);
      Moved(phase, command, history, buffer.Unread(), phase.(need := HEAD_LENGTH, state := ReadHeader));
      phase := phase.(need := HEAD_LENGTH, state := ReadHeader);
    }

    method OnHeader(ghost room: bool)
      requires Valid() && phase.state == ReadHeader && buffer.dataSize >= HEAD_LENGTH
      modifies this, buffer
      ensures command.choice == Unsigned(old(buffer.Unread())[..HEAD_LENGTH])
      ensures Known(command.choice) && command.choice != HELLO ==>
                phase == old(phase).(state := ReadFixed, need := FixedSize(command.choice))
      ensures Valid() && buffer.buf == old(buffer.buf) && buffer.Unread() == old(buffer.Unread())[HEAD_LENGTH..]
      ensures Grew(old(history), socket.pending, history, socket.pending) && Remaining() < old(Remaining())
      ensures history.got == old(history).got
      ensures Booked(old(phase), old(command), old(history), phase, history, room)
      ensures Tallied(old(phase), old(history).log, phase, history.log, 1)
    {
      hide Inv, Known, FixedSize, Unsigned;
      HeaderRead(phase, command, history, buffer.Unread());
      var head := buffer.Take(HEAD_LENGTH);
      var choice := Unsigned(head);
      command := command.(choice := choice);
      if choice == HELLO {
        Reply();
        history := History(history.got, history.log + [Entry(Frame(HELLO, [], []), true)], []);
      } else if Known(choice) {
        phase := phase.(state := ReadFixed, need := FixedSize(choice));
      } else {
        WriteError(0);
        phase := phase.(next := Closing);
      }
    }

    method Reply()
      modifies this`phase
      ensures phase == old(phase).(state := Write, next := NewCmd)
    {
      phase := phase.(state := Write, next := NewCmd);
    }

    /** An error reply; the bytes named are thrown away after it. */
    method WriteError(swallow: nat)
      modifies this`phase
      ensures phase == if swallow > 0 then old(phase).(state := Write, next := Swallow, swallow := swallow)
                       else old(phase).(state := Write, next := NewCmd)
    {
      phase := phase.(state := Write);
      if swallow > 0 { phase := phase.(swallow := swallow, next := Swallow); } else { phase := phase.(next := NewCmd); }
    }

    /**
     The fixed body is in. `room` says whether an update's item could be allocated, `wait` whether a watch that is
     checked has nothing to report yet.
     */
    method OnFixed(room: bool, wait: bool)
      requires Valid() && phase.state == ReadFixed && buffer.dataSize >= phase.need
      modifies this, buffer
      ensures Valid() && buffer.buf == old(buffer.buf)
      ensures Grew(old(history), socket.pending, history, socket.pending) && Remaining() < old(Remaining())
      ensures history.got == old(history).got
      ensures Booked(old(phase), old(command), old(history), phase, history, room)
      ensures Tallied(old(phase), old(history).log, phase, history.log, 0)
      ensures old(command).choice == UPDATE ==> phase.state == if room then ReadExtras else Write
      ensures old(command).choice != UPDATE && !Keyed(old(command).choice) && !wait ==>
                phase == old(phase).(state := Write, next := NewCmd) && buffer.Unread() == old(buffer.Unread())[old(phase).need..]
    {
      hide Inv, Known, FixedSize, Keyed, ExtrasLength;
      ghost var unread, p := buffer.Unread(), phase;
      FixedFacts(phase, command, history, unread);
      var fixed := buffer.Take(phase.need);
      var c := command;
      command := Command(c.choice, fixed, []);
      if Keyed(c.choice) {
        FixedRead(p, c, history, unread, ReadExtras2);
        phase := phase.(need := ExtrasLength(c.choice, fixed), state := ReadExtras2);
      } else if c.choice == UPDATE {
        UpdateFixed(p, c, unread, room);
      } else {
        FixedOnly(p, c, unread, c.choice == CHECK_WATCH && wait);
      }
    }

    /** A request without a key is carried out; only a watch's check may have to wait for its answer. */
    method FixedOnly(ghost p: Phase, ghost c: Command, ghost unread: seq<byte>, wait: bool)
      requires Inv(p, c, history, unread) && p.state == ReadFixed && p.need <= |unread|
      requires c.choice != UPDATE && !Keyed(c.choice)
      requires command == Command(c.choice, unread[..p.need], []) && phase == p
      modifies this
      ensures Inv(phase, command, history, unread[p.need..])
      ensures phase == if wait then p.(state := AsyncWait) else p.(state := Write, next := NewCmd)
      ensures Booked(p, c, old(history), phase, history, true) && old(history).got == history.got
      ensures Tallied(p, old(history).log, phase, history.log, 0)
    {
      hide Inv, Known, FixedSize, Keyed, ExtrasLength;
      FixedDone(p, c, history, unread, if wait then p.(state := AsyncWait) else p.(state := Write, next := NewCmd));
      if wait { phase := phase.(state := AsyncWait); } else { Reply(); }
      history := History(history.got, history.log + [Entry(Frame(command.choice, command.fixed, []), true)], []);
    }

    /** An update whose item cannot be allocated is turned down and its bytes are to be swallowed. */
    method UpdateFixed(ghost p: Phase, ghost c: Command, ghost unread: seq<byte>, room: bool)
      requires Inv(p, c, history, unread) && p.state == ReadFixed && p.need <= |unread| && c.choice == UPDATE
      requires p.need == FixedSize(UPDATE)
      requires command == Command(UPDATE, unread[..p.need], []) && phase == p
      modifies this
      ensures Inv(phase, command, history, unread[p.need..]) && phase.state == if room then ReadExtras else Write
      ensures Booked(p, c, old(history), phase, history, room) && old(history).got == history.got
      ensures Tallied(p, old(history).log, phase, history.log, 0)
    {
      hide Inv, ExtrasLength, FixedSize;
      var size := ExtrasLength(UPDATE, command.fixed);
      if room {
        FixedRead(p, c, history, unread, ReadExtras);
        phase := phase.(need := size, state := ReadExtras);
      } else {
        Refused(p, c, history, unread);
        WriteError(size);
        history := if size > 0 then history.(skipped := [])
                   else History(history.got, history.log + [Entry(Frame(UPDATE, command.fixed, []), false)], []);
      }
    }

    /** Reads an update's bytes past the (empty) buffer, straight into its item. */
    method ReadInto() returns (run: bool)
      requires Valid() && phase.state == ReadExtras && phase.need > 0 && buffer.dataSize == 0
      modifies this, socket
      ensures Valid()
      ensures Grew(old(history), old(socket.pending), history, socket.pending) && history.log == old(history).log
      ensures phase.state == ReadExtras && phase.next == old(phase).next
      ensures run ==> Remaining() < old(Remaining())
      ensures !run ==> Waiting(phase, command, buffer.dataSize) && Dry()
    {
      hide Inv;
      var bytes := socket.ReadSome(phase.need);
      InvFill(phase, command, history, [], bytes);
      assert [] + bytes == bytes && bytes[..|bytes|] == bytes && bytes[|bytes|..] == [];
      history := history.(got := history.got + bytes);
      ExtrasTaken(phase, command, history, bytes, |bytes|);
      command := command.(item := command.item + bytes);
      phase := phase.(need := phase.need - |bytes|);
      run := bytes != [];
    }

    /** Copies an update's key and data into its item, from the buffer or straight from the connection. */
    method OnExtras(ghost room: bool) returns (run: bool)
      requires Valid() && phase.state == ReadExtras
      modifies this, buffer, socket
      ensures Valid() && buffer.buf == old(buffer.buf)
      ensures Grew(old(history), old(socket.pending), history, socket.pending)
      ensures Booked(old(phase), old(command), old(history), phase, history, room)
      ensures Tallied(old(phase), old(history).log, phase, history.log, 0)
      ensures run ==> Remaining() < old(Remaining())
      ensures !run ==> Waiting(phase, command, buffer.dataSize) && Dry()
    {
      hide Inv;
      ghost var unread := buffer.Unread();
      KindFacts(phase, command, history, unread);
      run := true;
      if phase.need == 0 {
        ExtrasDone(phase, command, history, unread);
        history := History(history.got, history.log + [Entry(Frame(command.choice, command.fixed, command.item), true)], []);
        Reply();
      } else if buffer.dataSize > 0 {
        var n := if buffer.dataSize > phase.need then phase.need else buffer.dataSize;
        ExtrasTaken(phase, command, history, unread, n);
        var bytes := buffer.Take(n);
        command := command.(item := command.item + bytes);
        phase := phase.(need := phase.need - n);
      } else {
        run := ReadInto();
      }
    }

    /** The key is in. After authentication data the loop goes on as before; with none asked for it would not end. */
    method OnExtras2(ghost room: bool) returns (run: bool)
      requires Valid() && phase.state == ReadExtras2 && buffer.dataSize >= phase.need
      modifies this, buffer
      ensures Valid() && buffer.buf == old(buffer.buf)
      ensures Grew(old(history), socket.pending, history, socket.pending)
      ensures Booked(old(phase), old(command), old(history), phase, history, room)
      ensures Tallied(old(phase), old(history).log, phase, history.log, 0)
      ensures run ==> Remaining() < old(Remaining())
      ensures !run ==> command.choice == AUTH && phase.state == ReadExtras2 && phase.need == 0
    {
      hide Inv;
      KindFacts(phase, command, history, buffer.Unread());
      if command.choice == AUTH {
        AuthRead(phase, command, history, buffer.Unread());
        var bytes := buffer.Take(phase.need);
        command := command.(item := command.item + bytes);
        run := phase.need > 0;
      } else {
        KeyRead(phase, command, history, buffer.Unread());
        var key := buffer.Take(phase.need);
        history := History(history.got, history.log + [Entry(Frame(command.choice, command.fixed, key), true)], []);
        Reply();
        run := true;
      }
    }

    method OnSwallow(ghost room: bool)
      requires Valid() && phase.state == Swallow && (phase.swallow == 0 || buffer.dataSize > 0)
      modifies this, buffer
      ensures Valid() && buffer.buf == old(buffer.buf)
      ensures Grew(old(history), socket.pending, history, socket.pending) && Remaining() < old(Remaining())
      ensures Booked(old(phase), old(command), old(history), phase, history, room)
      ensures Tallied(old(phase), old(history).log, phase, history.log, 0)
    {
      hide Inv;
      KindFacts(phase, command, history, buffer.Unread());
      if phase.swallow == 0 {
        SwallowDone(phase, command, history, buffer.Unread());
        history := History(history.got, history.log + [Entry(Frame(command.choice, command.fixed, history.skipped), false)], []);
        phase := phase.(state := NewCmd);
      } else {
        var n := if buffer.dataSize > phase.swallow then phase.swallow else buffer.dataSize;
        Swallowed(phase, command, history, buffer.Unread(), n);
        var bytes := buffer.Take(n);
        phase := phase.(swallow := phase.swallow - n);
        history := history.(skipped := history.skipped + bytes);
      }
    }

    /**
     The reply is handed over. If the next header is already here it is read at once, with `need` as the last request
     left it.
     */
    method OnWrite(requests: nat) returns (run: bool)
      requires Valid() && phase.state == Write
      modifies this`phase
      ensures Valid() && (run ==> Remaining() < old(Remaining()))
      ensures run <==> old(phase).next == NewCmd && requests < 32 && buffer.dataSize >= HEAD_LENGTH
      ensures phase == old(phase).(state := if run then ReadHeader else old(phase).next, next := NewCmd)
      ensures InHand(phase) == InHand(old(phase))
      ensures !run ==> Resting(phase, command, buffer.dataSize, requests, false)
    {
      hide Inv;
      WriteNext(phase, command, history, buffer.Unread());
      Moved(phase, command, history, buffer.Unread(), phase.(state := phase.next, next := NewCmd));
      ghost var p := phase;
      phase := phase.(state := phase.next);
      phase := phase.(next := NewCmd);
      run := false;
      if phase.state == NewCmd && requests < 32 && buffer.dataSize >= HEAD_LENGTH {
        Moved(p, command, history, buffer.Unread(), phase.(state := ReadHeader));
        phase := phase.(state := ReadHeader);
        run := true;
      }
    }

    /** One turn of the loop. `room` and `wait` are the cache's answers, `growth` and `shrink` the allocator's. */
    method Turn(requests: nat, room: bool, wait: bool, growth: bool, shrink: bool) returns (run: bool, counted: nat)
      requires Valid()
      modifies this, buffer, buffer.buf, socket
      ensures Valid() && (buffer.buf == old(buffer.buf) || fresh(buffer.buf))
      ensures Grew(old(history), old(socket.pending), history, socket.pending)
      ensures run ==> Remaining() < old(Remaining())
      ensures !run ==> Resting(phase, command, buffer.dataSize, counted, Dry())
      ensures counted >= requests
      ensures old(phase).state in {NewCmd, ReadHeader} && counted == requests ==> phase.state == ReadHeader
      ensures Booked(old(phase), old(command), old(history), phase, history, room)
      ensures Tallied(old(phase), old(history).log, phase, history.log, counted - requests)
    {
      hide Inv, Booked;
      run, counted := true, requests;
      BookedSame(phase, command, history, room);
      match phase.state
      case NewCmd =>
        Moved(phase, command, history, buffer.Unread(), phase.(need := HEAD_LENGTH, state := ReadHeader));
        phase := phase.(need := HEAD_LENGTH, state := ReadHeader);
      case ReadHeader =>
        if buffer.dataSize >= phase.need {
          HeaderFacts(phase, command, history, buffer.Unread());
          OnHeader(room);
          counted := counted + 1;
        } else {
          run := Refill(growth, shrink);
        }
      case ReadFixed =>
        if buffer.dataSize >= phase.need { OnFixed(room, wait); } else { run := Refill(growth, shrink); }
      case ReadExtras =>
        run := OnExtras(room);
      case ReadExtras2 =>
        if buffer.dataSize >= phase.need { run := OnExtras2(room); } else { run := Refill(growth, shrink); }
      case Swallow =>
        if phase.swallow == 0 || buffer.dataSize > 0 { OnSwallow(room); } else { run := Refill(growth, shrink); }
      case AsyncWait =>
        run := false;
      case Write =>
        run := OnWrite(requests);
      case Closing =>
        Moved(phase, command, history, buffer.Unread(), phase.(state := Closed));
        phase := phase.(state := Closed);
        run := false;
      case Closed =>
        run := false;
    }

    /**
     Runs the loop until it has nothing to do. It ends: every turn leaves less to do. It counts the headers read, each
     of which is a request dealt with or the one in hand.
     */
    method Process(answers: nat -> bool) returns (requests: nat)
      requires Valid() && Answered(phase, history.log, answers)
      modifies this, buffer, buffer.buf, socket
      ensures Valid() && (buffer.buf == old(buffer.buf) || fresh(buffer.buf))
      ensures Grew(old(history), old(socket.pending), history, socket.pending)
      ensures Resting(phase, command, buffer.dataSize, requests, Dry()) && Answered(phase, history.log, answers)
      ensures Tallied(old(phase), old(history).log, phase, history.log, requests)
      ensures phase.state in {NewCmd, AsyncWait} ==> Begun(old(phase), requests)
    {
      hide Inv, Resting, Work, Answered, Booked;
      var run := true;
      requests := 0;
      while run
        invariant Valid() && (buffer.buf == old(buffer.buf) || fresh(buffer.buf))
        invariant Grew(old(history), old(socket.pending), history, socket.pending)
        invariant !run ==> Resting(phase, command, buffer.dataSize, requests, Dry())
        invariant Answered(phase, history.log, answers)
        invariant Tallied(old(phase), old(history).log, phase, history.log, requests)
        invariant !Begun(old(phase), requests) ==> phase.state == ReadHeader || (phase.state == NewCmd && run)
        decreases run, Remaining()
      {
        ghost var p, c, h, pending := phase, command, history, socket.pending;
        var wait, growth, shrink := *, *, *;
        run, requests := Turn(requests, answers(Updates(history.log)), wait, growth, shrink);
        BookedAnswered(p, c, h, phase, history, answers);
        GrewTwice(old(history), old(socket.pending), h, pending, history, socket.pending);
      }
    }

    /** A chunk that was waited for arrives and is worked on. */
    method HandleRead(answers: nat -> bool, growth: bool, shrink: bool) returns (requests: nat)
      requires Valid() && Answered(phase, history.log, answers)
      modifies this, buffer, buffer.buf, socket
      ensures Valid() && (buffer.buf == old(buffer.buf) || fresh(buffer.buf))
      ensures Grew(old(history), old(socket.pending), history, socket.pending)
      ensures Resting(phase, command, buffer.dataSize, requests, Dry()) && Answered(phase, history.log, answers)
      ensures Tallied(old(phase), old(history).log, phase, history.log, requests)
      ensures phase.state in {NewCmd, AsyncWait} ==> Begun(old(phase), requests)
    {
      hide Inv, Resting, Work, Answered, InHand;
      var got := Refill(growth, shrink);
      ghost var h, pending := history, socket.pending;
      requests := Process(answers);
      GrewTwice(old(history), old(socket.pending), h, pending, history, socket.pending);
    }

    /** The wait for a watch is over: the answer is queued, or an error reply is. */
    method HandleTimer(found: bool, memory: bool)
      requires Valid() && phase.state == AsyncWait
      modifies this`phase
      ensures Valid() && phase.state in {NewCmd, Write} && phase.next == NewCmd
    {
      hide Inv;
      var p := phase.(state := if found && memory then NewCmd else Write, next := NewCmd);
      Moved(phase, command, history, buffer.Unread(), p);
      if found && memory { phase := phase.(state := NewCmd, next := NewCmd); } else { WriteError(0); }
    }
  }

  /**
   How the loop may leave off: short of bytes, with none to be had; behind a reply, with less than a header unread, 32
   headers read, or bytes to be swallowed; waiting on a watch; authenticating for ever; or done with.
   */
  ghost predicate Resting(p: Phase, c: Command, unread: nat, requests: nat, dry: bool) {
    || (Waiting(p, c, unread) && dry)
    || (p.state == ReadHeader && unread < p.need && dry)
    || (p.state == ReadExtras2 && c.choice == AUTH && ((unread < p.need && dry) || p.need == 0))
    || (p.state == NewCmd && (unread < HEAD_LENGTH || requests >= 32))
    || (p.state == Swallow && p.swallow > 0)
    || p.state in {AsyncWait, Closing, Closed}
  }

  /** A request was begun, or a reply or a wait was due, when the loop had read `requests` headers. */
  predicate Begun(p: Phase, requests: nat) {
    requests > 0 || InHand(p) || p.state in {Write, AsyncWait}
  }

  /** A wait on a watch has just ended. */
  predicate Answering(p: Phase) {
    p.state in {NewCmd, Write} && p.next == NewCmd
  }

  /**
   Whatever the sizes of the chunks, the answers of the cache and the order of events, the requests a connection has
   dealt with are the first ones of the reference parse of the bytes sent to it, with exactly the updates turned down
   that the cache has no room for. After an event it rests, or answers a wait, and between requests only if it has
   dealt with some. Where nothing complete can lie unread, they are all the complete ones it has been given; and if
   it waits for more of a request with room to read it, and all that was sent has arrived, all the complete ones sent.
   */
  method Session(sent: seq<byte>, events: nat, answers: nat -> bool) returns (c: Connection, requests: nat)
    ensures c.Valid() && c.history.got + c.socket.pending == sent
    ensures Frames(c.history.log) <= Parse(sent) && Answered(c.phase, c.history.log, answers)
    ensures events > 0 ==> Resting(c.phase, c.command, c.buffer.dataSize, requests, c.Dry()) || Answering(c.phase)
    ensures events > 0 && c.phase.state == NewCmd ==> c.history.log != []
    ensures Abreast(c.phase, c.command, c.buffer.dataSize) ==> Frames(c.history.log) == Parse(c.history.got)
    ensures Waiting(c.phase, c.command, c.buffer.dataSize) && c.Dry() && c.buffer.FreeSpace() > 0 ==>
              c.socket.arrived == |c.socket.pending| ==> Frames(c.history.log) == Parse(sent)
  {
    hide Inv, Resting, Work, Parse, Waiting, Grew, Frames, Answered, Abreast, InHand;
    var buffer := new Buffer();
    var socket := new Socket(sent);
    c := new Connection(buffer, socket);
    requests := 0;
    GrewSame(c.history, socket.pending);
    NoneAnswered(c.phase, answers);
    for i := 0 to events
      invariant c.Valid() && c.buffer == buffer && c.socket == socket && fresh(buffer.buf)
      invariant Grew(History([], [], []), sent, c.history, socket.pending)
      invariant Answered(c.phase, c.history.log, answers)
      invariant i > 0 ==> Resting(c.phase, c.command, c.buffer.dataSize, requests, c.Dry()) || Answering(c.phase)
      invariant c.phase.state in {NewCmd, AsyncWait, Write} && (i > 0 || c.phase.state != NewCmd) ==> c.history.log != []
    {
      ghost var p, h, pending := c.phase, c.history, socket.pending;
      var n: nat := *;
      if socket.arrived + n <= |socket.pending| { socket.Arrive(n); }
      var reading := *;
      if c.phase.state == AsyncWait {
        var found, memory := *, *;
        c.HandleTimer(found, memory);
        AnsweredMove(p, c.phase, h.log, answers);
      } else {
        if reading {
          var growth, shrink := *, *;
          requests := c.HandleRead(answers, growth, shrink);
        } else {
          requests := c.Process(answers);
        }
        GrewTwice(History([], [], []), sent, h, pending, c.history, socket.pending);
        RestsWithLog(p, h.log, c.phase, c.command, c.history.log, c.buffer.dataSize, requests, c.Dry());
      }
    }
    SessionOk(c.phase, c.command, c.history, buffer.Unread(), sent, socket.pending);
  }

  /** Between requests, or waiting on a watch, a request has been dealt with. */
  lemma RestsWithLog(p: Phase, log: seq<Entry>, p': Phase, c: Command, log': seq<Entry>, unread: nat, requests: nat, dry: bool)
    requires Resting(p', c, unread, requests, dry) && Tallied(p, log, p', log', requests)
    requires p'.state in {NewCmd, AsyncWait} ==> Begun(p, requests)
    requires p.state in {AsyncWait, Write} ==> log != []
    ensures p'.state in {NewCmd, AsyncWait, Write} ==> log' != []
  {
  }

  lemma NoneAnswered(p: Phase, answers: nat -> bool)
    requires p.state == NewCmd
    ensures Answered(p, [], answers)
  {
  }

  lemma AnsweredMove(p: Phase, p': Phase, log: seq<Entry>, answers: nat -> bool)
    requires Answered(p, log, answers) && p'.state in {NewCmd, Write} && p'.next == NewCmd
    ensures Answered(p', log, answers)
  {
  }

  lemma GrewSame(h: History, pending: seq<byte>)
    ensures Grew(h, pending, h, pending)
  {
  }

  lemma SessionOk(p: Phase, c: Command, h: History, unread: seq<byte>, sent: seq<byte>, pending: seq<byte>)
    requires Inv(p, c, h, unread) && Grew(History([], [], []), sent, h, pending)
    ensures Frames(h.log) <= Parse(sent) && h.got + pending == sent
    ensures Abreast(p, c, |unread|) ==> Frames(h.log) == Parse(h.got)
    ensures Waiting(p, c, |unread|) ==> Abreast(p, c, |unread|)
    ensures pending == [] ==> h.got == sent
  {
    hide Inv, Parse, Waiting, Partial, Frames, InHand;
    assert sent == [] + sent;
    LogIsPrefix(p, c, h, unread, pending);
    if Abreast(p, c, |unread|) { CaughtUp(p, c, h, unread); }
  }

  /** A connection that has been sent a flush and a greeting in one piece, when it has carried out the flush. */
  method FlushAnswered(fixed: seq<byte>) returns (c: Connection)
    requires |fixed| == FixedSize(FLUSH)
    ensures fresh(c) && c.Valid() && c.phase.state == Write && c.phase.next == NewCmd && c.phase.need > HEAD_LENGTH
    ensures c.buffer.Unread() == Bytes(HELLO, HEAD_LENGTH)
    ensures c.history.got == Bytes(FLUSH, HEAD_LENGTH) + fixed + Bytes(HELLO, HEAD_LENGTH)
  {
    hide Inv, Bytes, Unsigned, Known, FixedSize, Keyed, Grew, Booked, Tallied, Work;
    var buffer := new Buffer();
    var socket := new Socket([]);
    c := new Connection(buffer, socket);
    var data := Bytes(FLUSH, HEAD_LENGTH) + fixed + Bytes(HELLO, HEAD_LENGTH);
    FlushFacts();
    HeadBytes(FLUSH);
    assert data[..HEAD_LENGTH] == Bytes(FLUSH, HEAD_LENGTH);
    assert data[HEAD_LENGTH..][|fixed|..] == Bytes(HELLO, HEAD_LENGTH);
    assert [] + data == data;
    c.Begin(data);
    c.OnHeader(true);
    c.OnFixed(true, false);
  }

  /**
   A complete request can lie unread: when a flush and a greeting come in one piece, the greeting is here after the
   flush has been answered, and the connection waits for as many bytes as the flush had.
   */
  method StaleCountReached(fixed: seq<byte>) returns (c: Connection)
    requires |fixed| == FixedSize(FLUSH)
    ensures c.Valid() && c.phase.state == ReadHeader && c.buffer.dataSize < c.phase.need
    ensures c.buffer.Unread() == Bytes(HELLO, HEAD_LENGTH)
    ensures c.history.got == Bytes(FLUSH, HEAD_LENGTH) + fixed + Bytes(HELLO, HEAD_LENGTH)
    ensures Parse(c.history.got) == Frames(c.history.log) + [Frame(HELLO, [], [])]
  {
    hide Inv, Parse, Frames, Bytes, FixedSize, Booked;
    c := FlushAnswered(fixed);
    StaleCount(c.phase, c.command, c.history, c.buffer.Unread());
    var run := c.OnWrite(1);
  }

  lemma FlushFacts()
    ensures Known(FLUSH) && FLUSH != HELLO && FLUSH != UPDATE && !Keyed(FLUSH) && HEAD_LENGTH < FixedSize(FLUSH) <= 100 && FLUSH < 0x1_0000
  {
  }
}
