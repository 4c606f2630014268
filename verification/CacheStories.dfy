/** Runs of the cache manager in which the promise of the expiry wheel is broken, and what keeps it from being broken. */
module CacheStories {
  import opened Basics
  import opened CacheSpec
  import opened CacheState
  import opened CacheMgr
  import opened ExpiryWheel
  import opened ExpirySweep
  import opened CacheRun
  import opened CacheMeaning

  /** The bucket of a life of one second, and of three. */
  lemma BucketOf(now: nat, b: nat)
    ensures IsBucket(now, now + 1, b) ==> b == 0
    ensures IsBucket(now, now + 3, b) ==> b == 1
  {
    assert Span(0) == 1 && Span(1) == 2 && Span(2) == 4;
    if 1 < b < FOREVER {
      SpansGrow(1, b);
      if b > 2 { SpansGrow(2, b); }
    }
  }

  /** Whether the item under `key`, filed in bucket `b`, is due at a sweep now. */
  lemma DueNowExactly(s: Snap, key: Key, b: nat)
    requires SnapOk(s) && s.clock.lastSweep < s.clock.now && FiledIn(s.items, s.links, key, b) && key in s.store.entries
    ensures |s.clock.checkTime| == FOREVER
    ensures key in DueNow(Start(s.items, s.links, s.clock)) <==> Due(b, s.store.entries[key].expireTime, s.clock.checkTime, s.clock.now)
  {
    hide Filed, IdsIssued, Counted, PoolOk;
  }

  /** A draft made, on an empty desk, where there is room. */
  lemma DraftMade(s: Snap, desk: Desk, r: Request, t: Snap, desk': Desk, base: multiset<Id>)
    requires SnapOk(s) && DeskOk(t, desk', base) && Stepped(s, desk, r, t, desk') && desk.drafts == []
    requires r.DraftReq? && r.nameLength == 0 && r.expiration > 0 && s.clock.now + r.expiration <= TIME_MAX
    requires Manager.CanAlloc(s.pool, Manager.DraftSize(s.pool, 0, r.dataLength), Fresh(s.pool.capacity, r.block))
    ensures t.store == s.store && t.clock == s.clock && t.lastTime == s.lastTime && |desk'.drafts| == 1
    ensures var d := desk'.drafts[0];
            && d.id in t.items && t.items[d.id].key == Key(r.group, []) && t.items[d.id].expireTime == s.clock.now + r.expiration
            && IsBucket(s.clock.now, s.clock.now + r.expiration, t.items[d.id].expirationId)
  {
    hide SnapOk, IsBucket, Late, Stray, ExactMoves, TableMoves, WatchesMove, Manager.CanAlloc, Manager.DraftSize;
    assert Manager.Blank(0) == [];
    assert desk'.drafts[0] in desk'.drafts;
  }

  /** The draft is added under its absent key, in the bucket it was allocated for. */
  lemma DraftAdded(s: Snap, desk: Desk, r: Request, t: Snap, desk': Desk)
    requires Stepped(s, desk, r, t, desk') && |desk.drafts| == 1 && desk.drafts[0].id in s.items
    requires r.SubmitReq? && r.i == 0 && r.u == AddIt && r.watchId == 0 && s.items[desk.drafts[0].id].key !in s.store.entries
    ensures var it := s.items[desk.drafts[0].id];
            && t.clock == s.clock && t.lastTime == s.lastTime
            && t.store == Put(s.store, it.key, EntryOf(it)) && FiledIn(t.items, t.links, it.key, it.expirationId)
  {
    hide Late, Stray, ExactMoves, WatchesMove, FiledIn, DraftsStay;
    var it := Submitted(s, desk, 0, r.expected);
    AddAnswer(s.store, it.key, EntryOf(it), true);
    PutIgnoresVersion(s.store, it.key, EntryOf(s.items[desk.drafts[0].id]), r.expected);
  }

  lemma Touched(s: Snap, desk: Desk, r: Request, t: Snap, desk': Desk, b: nat)
    requires Stepped(s, desk, r, t, desk') && r.TouchReq? && r.watchId == 0 && r.expiration == 0
    requires r.key in s.store.entries && FiledIn(s.items, s.links, r.key, b)
    ensures t.clock == s.clock && t.lastTime == s.lastTime
    ensures t.store == Retime(s.store, r.key, 0) && FiledIn(t.items, t.links, r.key, b)
  {
    hide Late, Stray, ExactMoves, WatchesMove, DraftsStay;
    GetAnswer(s.store, r.key, 0, 0, true);
  }

  lemma Ticked(s: Snap, desk: Desk, r: Request, t: Snap, desk': Desk, d: nat)
    requires Stepped(s, desk, r, t, desk') && r == TickReq(s.lastTime + d) && 0 < d <= 10
    ensures t.store == s.store && t.items == s.items && t.links == s.links && desk' == desk
    ensures t.clock == s.clock.(now := s.clock.now + d) && t.lastTime == s.lastTime + d
  {
    hide Late, Stray, ExactMoves, WatchesMove, DraftsStay;
  }

  lemma Checked(s: Snap, desk: Desk, r: Request, t: Snap, desk': Desk)
    requires Stepped(s, desk, r, t, desk') && r == CheckReq && s.clock.lastCheck != s.clock.now
    ensures t.store == Drop(s.store, DueNow(Start(s.items, s.links, s.clock))) && desk' == desk
    ensures t.clock == Swung(s.clock) && t.lastTime == s.lastTime
    ensures forall d :: d in desk.drafts && d.id in s.items ==> d.id in t.items && t.items[d.id] == s.items[d.id]
  {
    hide Late, Stray, ExactMoves, WatchesMove, DueNow, Swung;
  }

  /** The requests by which an item for one second is added, told never to expire, and looked at a second later. */
  ghost predicate TouchRun(p: Moment, requests: seq<Request>, key: Key) {
    && |requests| == 5 && p.desk == Desk([], []) && p.snap.clock.now < TIME_MAX && key.name == [] && key !in p.snap.store.entries
    && requests[0].DraftReq? && requests[0].group == key.group && requests[0].nameLength == 0 && requests[0].expiration == 1
    && Manager.CanAlloc(p.snap.pool, Manager.DraftSize(p.snap.pool, 0, requests[0].dataLength),
                        Fresh(p.snap.pool.capacity, requests[0].block))
    && requests[1].SubmitReq? && requests[1].i == 0 && requests[1].u == AddIt && requests[1].watchId == 0
    && requests[2] == TouchReq(key, 0, 0) && requests[3] == TickReq(p.snap.lastTime + 1) && requests[4] == CheckReq
  }

  /** An item that never expires any more is removed by the next check. */
  lemma TouchReached(story: seq<Moment>, requests: seq<Request>, base: multiset<Id>, key: Key)
    requires Played(story, requests, base) && TouchRun(story[0], requests, key)
    ensures key in story[4].snap.store.entries && story[4].snap.store.entries[key].expireTime == 0
    ensures key !in story[5].snap.store.entries
  {
    hide SnapOk, DeskOk, Stepped, DueNow, Manager.CanAlloc, FiledIn, IsBucket;
    assert forall i :: 0 <= i < 6 ==> story[i] in story;
    assert Turned(story, requests, 0) && Turned(story, requests, 1) && Turned(story, requests, 2)
        && Turned(story, requests, 3) && Turned(story, requests, 4);
    var now := story[0].snap.clock.now;
    DraftMade(story[0].snap, story[0].desk, requests[0], story[1].snap, story[1].desk, base);
    var it := story[1].snap.items[story[1].desk.drafts[0].id];
    DraftAdded(story[1].snap, story[1].desk, requests[1], story[2].snap, story[2].desk);
    BucketOf(now, it.expirationId);
    Touched(story[2].snap, story[2].desk, requests[2], story[3].snap, story[3].desk, 0);
    Ticked(story[3].snap, story[3].desk, requests[3], story[4].snap, story[4].desk, 1);
    ClockFacts(story[0].snap);
    Checked(story[4].snap, story[4].desk, requests[4], story[5].snap, story[5].desk);
    DueNowExactly(story[4].snap, key, 0);
  }

  lemma ClockFacts(s: Snap)
    requires SnapOk(s)
    ensures s.clock.lastSweep <= s.clock.lastCheck <= s.clock.now && |s.clock.checkTime| == FOREVER
    ensures s.clock.checkTime[0] <= s.clock.lastSweep + 1
  {
    hide LinksOk, Counted, PoolOk;
    assert Span(0) == 1;
  }

  /**
   The requests by which an item for three seconds is allocated in the first second, and added two seconds later, after
   a check.
   */
  ghost predicate LateRun(p: Moment, requests: seq<Request>, key: Key) {
    && |requests| == 6 && p.desk == Desk([], []) && p.snap.clock == NewClock() && key.name == [] && key !in p.snap.store.entries
    && requests[0].DraftReq? && requests[0].group == key.group && requests[0].nameLength == 0 && requests[0].expiration == 3
    && Manager.CanAlloc(p.snap.pool, Manager.DraftSize(p.snap.pool, 0, requests[0].dataLength),
                        Fresh(p.snap.pool.capacity, requests[0].block))
    && requests[1] == TickReq(p.snap.lastTime + 2) && requests[2] == CheckReq
    && requests[3].SubmitReq? && requests[3].i == 0 && requests[3].u == AddIt && requests[3].watchId == 0
    && requests[4] == TickReq(p.snap.lastTime + 3) && requests[5] == CheckReq
  }

  /** An item that has expired is still stored after a check. */
  lemma LateReached(story: seq<Moment>, requests: seq<Request>, base: multiset<Id>, key: Key)
    requires Played(story, requests, base) && LateRun(story[0], requests, key)
    ensures key in story[6].snap.store.entries
    ensures CacheSpec.Expired(story[6].snap.store.entries[key], story[6].snap.clock.now)
  {
    hide SnapOk, DeskOk, Stepped, DueNow, Manager.CanAlloc, FiledIn, IsBucket;
    assert forall i :: 0 <= i < 7 ==> story[i] in story;
    assert Turned(story, requests, 0) && Turned(story, requests, 1) && Turned(story, requests, 2)
        && Turned(story, requests, 3) && Turned(story, requests, 4) && Turned(story, requests, 5);
    DraftMade(story[0].snap, story[0].desk, requests[0], story[1].snap, story[1].desk, base);
    var d := story[1].desk.drafts[0];
    var it := story[1].snap.items[d.id];
    BucketOf(8, it.expirationId);
    Ticked(story[1].snap, story[1].desk, requests[1], story[2].snap, story[2].desk, 2);
    Checked(story[2].snap, story[2].desk, requests[2], story[3].snap, story[3].desk);
    assert d in story[2].desk.drafts;
    DraftAdded(story[3].snap, story[3].desk, requests[3], story[4].snap, story[4].desk);
    Ticked(story[4].snap, story[4].desk, requests[4], story[5].snap, story[5].desk, 1);
    SwungAt(story[2].snap.clock);
    Checked(story[5].snap, story[5].desk, requests[5], story[6].snap, story[6].desk);
    DueNowExactly(story[5].snap, key, 1);
  }

  lemma SwungAt(c: Clock)
    requires c == NewClock().(now := 10)
    ensures |Swung(c).checkTime| == FOREVER && Swung(c).checkTime[1] == 12
  {
    assert Span(1) == 2;
  }

  /** Touching with an expiry not before the old one, where neither is never, puts nothing off schedule. */
  lemma LaterTouch(s: Snap, desk: Desk, r: Request)
    requires SnapOk(s) && Late(s) == {} && r.TouchReq? && r.key in s.store.entries
    requires 0 < s.store.entries[r.key].expireTime <= Realtime(s.clock.now, r.expiration)
    ensures Stray(s, desk, r) == {}
  {
    hide Counted, PoolOk, IdsIssued, Scheduled;
    IndexedLinked(s, r.key);
    var it := s.items[s.links.index[r.key]];
    assert s.links.index[r.key] !in UnscheduledOf(s.items, s.links.table, s.clock);
    LaterKeepsSchedule(it.expirationId, it.expireTime, Realtime(s.clock.now, r.expiration), s.clock.checkTime, s.clock.lastSweep);
  }

  /** A draft of the lengths asked for is filled with the key and the data that arrive. */
  lemma DraftWritten(s: Snap, desk: Desk, r: Request, t: Snap, desk': Desk)
    requires Stepped(s, desk, r, t, desk') && r.FillReq? && r.i < |desk.drafts| && desk.drafts[r.i].id in s.items
    requires var it := s.items[desk.drafts[r.i].id]; |r.name| == |it.key.name| && |r.data| == |it.data|
    ensures desk' == desk && t.store == s.store && t.clock == s.clock && desk.drafts[r.i].id in t.items
    ensures var was, it := s.items[desk.drafts[r.i].id], t.items[desk.drafts[r.i].id];
            && it.key == Key(was.key.group, r.name) && it.data == r.data
            && it.flags == was.flags && it.ext == was.ext && it.expireTime == was.expireTime
  {
    hide Late, Stray, ExactMoves, WatchesMove, TableMoves, DraftsStay, Lost;
  }

  lemma DraftFresh(s: Snap, desk: Desk, r: Request, t: Snap, desk': Desk, base: multiset<Id>)
    requires DeskOk(t, desk', base) && Stepped(s, desk, r, t, desk') && r.DraftReq?
    requires Manager.CanAlloc(s.pool, s.pool.header + r.nameLength + r.dataLength, Fresh(s.pool.capacity, r.block))
    ensures |desk'.drafts| == |desk.drafts| + 1 && t.store == s.store && t.clock == s.clock
    ensures var d := desk'.drafts[|desk.drafts|];
            && d.id in t.items
            && var it := t.items[d.id];
               && it.key.group == r.group && |it.key.name| == r.nameLength && |it.data| == r.dataLength
               && it.flags == r.flags && it.ext == [] && it.expireTime == Ahead(s.clock.now, r.expiration)
  {
    hide IsBucket, Late, Stray, ExactMoves, TableMoves, WatchesMove, Manager.CanAlloc, DraftsStay, Lost;
    assert Manager.DraftSize(s.pool, r.nameLength, r.dataLength) == s.pool.header + r.nameLength + r.dataLength;
    assert desk'.drafts[|desk.drafts|] in desk'.drafts;
  }

  /**
   What a client asks for is what is stored: an update's item is allocated by the lengths announced, filled with the key
   and data that arrive, and set, with no id named and no watch. The entry then has exactly that data and those flags,
   no ext, and expires so many seconds after the allocation; every other entry is as it was.
   */
  lemma SetIsStored(story: seq<Moment>, requests: seq<Request>, base: multiset<Id>, group: nat, name: seq<byte>, data: seq<byte>,
                    flags: nat, expiration: nat, block: Option<Id>, n: nat)
    requires Played(story, requests, base) && |requests| >= 3 && n == |story[0].desk.drafts|
    requires requests[0] == DraftReq(group, |name|, flags, expiration, |data|, block)
    requires requests[1] == FillReq(n, name, data) && requests[2] == SubmitReq(n, SetIt, 0, 0, None)
    requires var p := story[0].snap.pool; Manager.CanAlloc(p, p.header + |name| + |data|, Fresh(p.capacity, block))
    ensures var s, t := story[0].snap, story[3].snap;
            t.store == Store(s.store.entries[Key(group, name) := Entry(data, flags, [],
                                if expiration == 0 || s.clock.now + expiration > 0xFFFF_FFFF then 0 else s.clock.now + expiration,
                                s.store.lastId + 1)],
                             s.store.lastId + 1)
  {
    hide SnapOk, DeskOk, Stepped, Manager.CanAlloc;
    assert story[1] in story && Turned(story, requests, 0) && Turned(story, requests, 1) && Turned(story, requests, 2);
    DraftFresh(story[0].snap, story[0].desk, requests[0], story[1].snap, story[1].desk, base);
    DraftWritten(story[1].snap, story[1].desk, requests[1], story[2].snap, story[2].desk);
    SubmitMeans(story[2].snap, story[2].desk, requests[2], story[3].snap, story[3].desk);
  }
}
