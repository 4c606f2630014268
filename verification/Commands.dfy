/** What the requests of the binary protocol ask of the cache manager, from their bytes on. */
module Commands {
  import opened Basics
  import opened CacheSpec
  import opened CacheState
  import opened CacheMgr
  import opened CacheRun
  import opened CacheMeaning
  import CacheStories
  import Decimal
  import P = Pdu
  import opened WireBytes

  /** The update that the low three bits of an op flag name. */
  function CodeOf(op: nat): Update {
    var code := op % 8;
    if code == 0 then SetIt
    else if code == 1 then AddIt
    else if code == 2 then ReplaceIt
    else if code == 3 then AppendIt
    else if code == 4 then PrependIt
    else UnknownIt
  }

  /** What the server's memory is like when a request comes: its desk, what malloc would answer, what lies behind the entry. */
  datatype Occasion = Occasion(drafts: nat, held: nat, block: Option<Id>, block2: Option<Id>, rest: Decimal.Memory)

  /** The requests to the manager that a request of the protocol is carried out by. */
  function Asked(f: P.Frame, m: Occasion): seq<Request> {
    var v, key := FieldsOf(f), f.extras;
    if f.choice == P.GET && |v| == 3 then [GetReq(Key(v[0], key), v[1])]
    else if f.choice == P.GET_TOUCH && |v| == 4 then [TouchReq(Key(v[0], key), v[1], v[2])]
    else if f.choice == P.GET_BASE && |v| == 2 then [GetReq(Key(v[0], key), 0), ReleaseReq(m.held)]
    else if f.choice == P.UPDATE && |v| == 8 && v[6] <= |f.extras| then
      [DraftReq(v[2], v[6], v[3], v[4], v[7], m.block), FillReq(m.drafts, f.extras[..v[6]], f.extras[v[6]..]),
       SubmitReq(m.drafts, CodeOf(v[0]), v[1], v[5], m.block2), ReleaseReq(m.held)]
    else if f.choice == P.UPDATE_FLAGS && |v| == 5 then [FlagsReq(Key(v[2], key), v[3], v[1])]
    else if f.choice == P.UPDATE_EXPIRATION && |v| == 5 then [ExpirationReq(Key(v[2], key), v[3], v[1])]
    else if f.choice == P.DELETE && |v| == 4 then [RemoveReq(Key(v[2], key), v[1])]
    else if f.choice == P.DELTA && |v| == 5 then
      [DeltaReq(Key(v[2], key), v[0] % 2 == 0, Decimal.Wrap64(v[3]), v[1], m.block, m.rest)]
    else if f.choice == P.FLUSH && |v| == 1 then [FlushReq(v[0])]
    else if f.choice == P.CREATE_WATCH && |v| == 2 then [WatchReq(v[1])]
    else if f.choice == P.CHECK_WATCH && |v| == 5 then [CheckWatchReq(v[1], v[3])]
    else []
  }

  /** The first request in a stream, asked of the manager. */
  function FirstAsked(s: seq<byte>, m: Occasion): seq<Request> {
    if P.Parse(s) == [] then [] else Asked(P.Parse(s)[0], m)
  }

  lemma GetAsks(group: seq<byte>, watch: seq<byte>, length: seq<byte>, key: seq<byte>, rest: seq<byte>, m: Occasion)
    requires |group| == 4 && |watch| == 4 && |length| == 2 && |key| == Be2(length)
    ensures FirstAsked([2, 1] + (group + watch + length) + key + rest, m) == [GetReq(Key(Be4(group), key), Be4(watch))]
  {
    hide P.Parse, FieldsOf, Be2, Be4;
    GetBytes(group, watch, length, key, rest);
  }

  lemma TouchAsks(group: seq<byte>, watch: seq<byte>, expiration: seq<byte>, length: seq<byte>, key: seq<byte>, rest: seq<byte>, m: Occasion)
    requires |group| == 4 && |watch| == 4 && |expiration| == 4 && |length| == 2 && |key| == Be2(length)
    ensures FirstAsked([2, 2] + (group + watch + expiration + length) + key + rest, m) ==
            [TouchReq(Key(Be4(group), key), Be4(watch), Be4(expiration))]
  {
    hide P.Parse, FieldsOf, Be2, Be4;
    GetTouchBytes(group, watch, expiration, length, key, rest);
  }

  lemma BaseAsks(group: seq<byte>, length: seq<byte>, key: seq<byte>, rest: seq<byte>, m: Occasion)
    requires |group| == 4 && |length| == 2 && |key| == Be2(length)
    ensures FirstAsked([2, 4] + (group + length) + key + rest, m) == [GetReq(Key(Be4(group), key), 0), ReleaseReq(m.held)]
  {
    hide P.Parse, FieldsOf, Be2, Be4;
    GetBaseBytes(group, length, key, rest);
  }

  lemma FlagsAsks(op: seq<byte>, id: seq<byte>, group: seq<byte>, flags: seq<byte>, length: seq<byte>, key: seq<byte>, rest: seq<byte>, m: Occasion)
    requires |op| == 1 && |id| == 8 && |group| == 4 && |flags| == 4 && |length| == 2 && |key| == Be2(length)
    ensures FirstAsked([2, 8] + (op + id + group + flags + length) + key + rest, m) ==
            [FlagsReq(Key(Be4(group), key), Be4(flags), Be8(id))]
  {
    hide P.Parse, FieldsOf, Be2, Be4, Be8;
    FlagsBytes(op, id, group, flags, length, key, rest);
  }

  lemma ExpirationAsks(op: seq<byte>, id: seq<byte>, group: seq<byte>, expiration: seq<byte>, length: seq<byte>, key: seq<byte>,
                       rest: seq<byte>, m: Occasion)
    requires |op| == 1 && |id| == 8 && |group| == 4 && |expiration| == 4 && |length| == 2 && |key| == Be2(length)
    ensures FirstAsked([2, 10] + (op + id + group + expiration + length) + key + rest, m) ==
            [ExpirationReq(Key(Be4(group), key), Be4(expiration), Be8(id))]
  {
    hide P.Parse, FieldsOf, Be2, Be4, Be8;
    ExpirationBytes(op, id, group, expiration, length, key, rest);
  }

  lemma DeleteAsks(op: seq<byte>, id: seq<byte>, group: seq<byte>, length: seq<byte>, key: seq<byte>, rest: seq<byte>, m: Occasion)
    requires |op| == 1 && |id| == 8 && |group| == 4 && |length| == 2 && |key| == Be2(length)
    ensures FirstAsked([2, 12] + (op + id + group + length) + key + rest, m) == [RemoveReq(Key(Be4(group), key), Be8(id))]
  {
    hide P.Parse, FieldsOf, Be2, Be4, Be8;
    DeleteBytes(op, id, group, length, key, rest);
  }

  /** An even op flag increments, an odd one decrements; the delta is a signed number of 64 bits. */
  lemma DeltaAsks(op: seq<byte>, id: seq<byte>, group: seq<byte>, delta: seq<byte>, length: seq<byte>, key: seq<byte>,
                  rest: seq<byte>, m: Occasion)
    requires |op| == 1 && |id| == 8 && |group| == 4 && |delta| == 8 && |length| == 2 && |key| == Be2(length)
    ensures FirstAsked([2, 14] + (op + id + group + delta + length) + key + rest, m) ==
            [DeltaReq(Key(Be4(group), key), op[0] % 2 == 0,
                      if Be8(delta) < 0x8000_0000_0000_0000 then Be8(delta) else Be8(delta) - 0x1_0000_0000_0000_0000,
                      Be8(id), m.block, m.rest)]
  {
    hide P.Parse, FieldsOf, Be2, Be4, Be8;
    DeltaBytes(op, id, group, delta, length, key, rest);
    Be8Fits(delta);
  }

  lemma Be8Fits(s: seq<byte>)
    requires |s| == 8
    ensures Be8(s) < 0x1_0000_0000_0000_0000
  {
  }

  lemma FlushAsks(group: seq<byte>, rest: seq<byte>, m: Occasion)
    requires |group| == 4
    ensures FirstAsked([2, 16] + group + rest, m) == [FlushReq(Be4(group))]
  {
    hide P.Parse, FieldsOf, Be4;
    FlushBytes(group, rest);
  }

  lemma WatchAsks(group: seq<byte>, interval: seq<byte>, rest: seq<byte>, m: Occasion)
    requires |group| == 4 && |interval| == 4
    ensures FirstAsked([2, 22] + (group + interval) + rest, m) == [WatchReq(Be4(interval))]
  {
    hide P.Parse, FieldsOf, Be4;
    CreateWatchBytes(group, interval, rest);
  }

  lemma CheckAsks(group: seq<byte>, watch: seq<byte>, timeout: seq<byte>, interval: seq<byte>, ack: seq<byte>, rest: seq<byte>, m: Occasion)
    requires |group| == 4 && |watch| == 4 && |timeout| == 4 && |interval| == 4 && |ack| == 4
    ensures FirstAsked([2, 24] + (group + watch + timeout + interval + ack) + rest, m) == [CheckWatchReq(Be4(watch), Be4(interval))]
  {
    hide P.Parse, FieldsOf, Be4;
    CheckWatchBytes(group, watch, timeout, interval, ack, rest);
  }

  /** An update asks for an item, for its key and data to be filled in, and for the operation that its op flag names. */
  lemma UpdateAsks(op: seq<byte>, id: seq<byte>, group: seq<byte>, flags: seq<byte>, expiration: seq<byte>, watch: seq<byte>,
                   length: seq<byte>, size: seq<byte>, key: seq<byte>, data: seq<byte>, rest: seq<byte>, m: Occasion)
    requires |op| == 1 && |id| == 8 && |group| == 4 && |flags| == 4 && |expiration| == 4 && |watch| == 4 && |length| == 2 && |size| == 4
    requires |key| == Be2(length) && |data| == Be4(size) && |key| + |data| < 0x1_0000_0000
    ensures FirstAsked([2, 6] + (op + id + group + flags + expiration + watch + length + size) + (key + data) + rest, m) ==
            [DraftReq(Be4(group), |key|, Be4(flags), Be4(expiration), |data|, m.block), FillReq(m.drafts, key, data),
             SubmitReq(m.drafts, CodeOf(op[0]), Be8(id), Be4(watch), m.block2), ReleaseReq(m.held)]
    ensures CodeOf(op[0]) ==
            match op[0] % 8 case 0 => SetIt case 1 => AddIt case 2 => ReplaceIt case 3 => AppendIt case 4 => PrependIt case _ => UnknownIt
  {
    hide P.Parse, FieldsOf, Be2, Be4, Be8;
    UpdateBytes(op, id, group, flags, expiration, watch, length, size, key, data, rest);
    assert (key + data)[..|key|] == key && (key + data)[|key|..] == data;
  }

  /**
   From the wire to the map: when the bytes of a set come that names no id and no watch, and there is room, the entry
   under that group and key has exactly the data and the flags sent, no ext, and the expiry asked for, counted from the
   second in which its item was allocated; every other entry is as it was.
   */
  lemma SetFromBytes(story: seq<CacheRun.Moment>, base: multiset<Id>, op: byte, group: seq<byte>, flags: seq<byte>, expiration: seq<byte>,
                     length: seq<byte>, size: seq<byte>, key: seq<byte>, data: seq<byte>, rest: seq<byte>, m: Occasion)
    requires |group| == 4 && |flags| == 4 && |expiration| == 4 && |length| == 2 && |size| == 4 && op % 8 == 0
    requires |key| == Be2(length) && |data| == Be4(size) && |key| + |data| < 0x1_0000_0000
    requires var bytes := [2, 6] + ([op] + [0, 0, 0, 0, 0, 0, 0, 0] + group + flags + expiration + [0, 0, 0, 0] + length + size)
                          + (key + data) + rest;
             Played(story, FirstAsked(bytes, m), base)
    requires |story| > 0 && m.drafts == |story[0].desk.drafts| && m.block2 == None
    requires var p := story[0].snap.pool; Manager.CanAlloc(p, p.header + |key| + |data|, Fresh(p.capacity, m.block))
    ensures |story| == 5
    ensures var s, t := story[0].snap, story[4].snap;
            t.store == Store(s.store.entries[Key(Be4(group), key) := Entry(data, Be4(flags), [],
                                if Be4(expiration) == 0 || s.clock.now + Be4(expiration) > 0xFFFF_FFFF then 0
                                else s.clock.now + Be4(expiration), s.store.lastId + 1)],
                             s.store.lastId + 1)
  {
    hide FirstAsked, SnapOk, DeskOk, Stepped, Manager.CanAlloc, Be2;
    var id, watch := [0, 0, 0, 0, 0, 0, 0, 0], [0, 0, 0, 0];
    UpdateAsks([op], id, group, flags, expiration, watch, length, size, key, data, rest, m);
    var bytes := [2, 6] + ([op] + id + group + flags + expiration + watch + length + size) + (key + data) + rest;
    var requests := FirstAsked(bytes, m);
    assert Be4(watch) == 0 && Be8(id) == 0;
    CacheStories.SetIsStored(story, requests, base, Be4(group), key, data, Be4(flags), Be4(expiration), m.block, m.drafts);
    assert Turned(story, requests, 3);
    RestMeans(story[3].snap, story[3].desk, requests[3], story[4].snap, story[4].desk);
  }
}
