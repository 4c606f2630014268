/**
 What each request does to the map, written out: which entry is where afterwards, with which data, flags, ext, expiry
 and id. These statements stand on the entries alone, not on the steps in terms of which runs are described.
 */
module CacheMeaning {
  import opened Basics
  import opened CacheSpec
  import opened CacheState
  import opened Notices
  import opened CacheMgr
  import opened ExpiryWheel
  import opened ExpirySweep
  import opened CacheRun
  import Decimal

  // ---- The update codes ----

  lemma SetMeans(st: Store, p: Pool, it: Item, watchOk: bool, block: Option<Id>)
    ensures Manager.Answer(st, Manager.UpdateOp(SetIt, st, p, it, watchOk, block)) ==
            if it.key in st.entries && it.cacheId != 0 && it.cacheId != st.entries[it.key].version then Outcome(st, Mismatch)
            else if !watchOk then Outcome(st, WatchNotFound)
            else Outcome(Store(st.entries[it.key := Entry(it.data, it.flags, it.ext, it.expireTime, st.lastId + 1)], st.lastId + 1), Success)
  {
  }

  lemma AddMeans(st: Store, p: Pool, it: Item, watchOk: bool, block: Option<Id>)
    ensures Manager.Answer(st, Manager.UpdateOp(AddIt, st, p, it, watchOk, block)) ==
            if it.key in st.entries then Outcome(st, Exists)
            else if !watchOk then Outcome(st, WatchNotFound)
            else Outcome(Store(st.entries[it.key := Entry(it.data, it.flags, it.ext, it.expireTime, st.lastId + 1)], st.lastId + 1), Success)
  {
  }

  lemma ReplaceMeans(st: Store, p: Pool, it: Item, watchOk: bool, block: Option<Id>)
    ensures Manager.Answer(st, Manager.UpdateOp(ReplaceIt, st, p, it, watchOk, block)) ==
            if it.key !in st.entries then Outcome(st, NotFound)
            else if it.cacheId != 0 && it.cacheId != st.entries[it.key].version then Outcome(st, Mismatch)
            else if !watchOk then Outcome(st, WatchNotFound)
            else Outcome(Store(st.entries[it.key := Entry(it.data, it.flags, it.ext, it.expireTime, st.lastId + 1)], st.lastId + 1), Success)
  {
  }

  /** Appending puts the new data behind the old, prepending before it; flags, ext and expiry stay the old ones. */
  lemma AppendMeans(st: Store, p: Pool, it: Item, watchOk: bool, block: Option<Id>)
    ensures Manager.Answer(st, Manager.UpdateOp(AppendIt, st, p, it, watchOk, block)) ==
            if it.key !in st.entries then Outcome(st, NotFound)
            else
              var e := st.entries[it.key];
              if it.cacheId != 0 && it.cacheId != e.version then Outcome(st, Mismatch)
              else if !Manager.CanAlloc(p, p.header + |it.key.name| + (|e.data| + |it.data|) + |e.ext|, block) then Outcome(st, OutOfMemory)
              else if !watchOk then Outcome(st, WatchNotFound)
              else Outcome(Store(st.entries[it.key := Entry(e.data + it.data, e.flags, e.ext, e.expireTime, st.lastId + 1)], st.lastId + 1), Success)
  {
    hide Manager.CanAlloc;
  }

  lemma PrependMeans(st: Store, p: Pool, it: Item, watchOk: bool, block: Option<Id>)
    ensures Manager.Answer(st, Manager.UpdateOp(PrependIt, st, p, it, watchOk, block)) ==
            if it.key !in st.entries then Outcome(st, NotFound)
            else
              var e := st.entries[it.key];
              if it.cacheId != 0 && it.cacheId != e.version then Outcome(st, Mismatch)
              else if !Manager.CanAlloc(p, p.header + |it.key.name| + (|it.data| + |e.data|) + |e.ext|, block) then Outcome(st, OutOfMemory)
              else if !watchOk then Outcome(st, WatchNotFound)
              else Outcome(Store(st.entries[it.key := Entry(it.data + e.data, e.flags, e.ext, e.expireTime, st.lastId + 1)], st.lastId + 1), Success)
  {
    hide Manager.CanAlloc;
  }

  lemma UnknownMeans(st: Store, p: Pool, it: Item, watchOk: bool, block: Option<Id>)
    ensures Manager.Answer(st, Manager.UpdateOp(UnknownIt, st, p, it, watchOk, block)) == Outcome(st, UnknownCommand)
  {
  }

  // ---- The requests of a run ----

  /** An update that is submitted does to the map what its code says, with the draft as it has been filled. */
  lemma SubmitMeans(s: Snap, desk: Desk, r: Request, t: Snap, desk': Desk)
    requires Stepped(s, desk, r, t, desk') && r.SubmitReq? && r.i < |desk.drafts| && desk.drafts[r.i].id in s.items
    ensures var it, st := s.items[desk.drafts[r.i].id], s.store;
            var k, e := it.key, Entry(it.data, it.flags, it.ext, it.expireTime, st.lastId + 1);
            var room := Manager.CanAlloc(s.pool, s.pool.header + |k.name| + (if k in st.entries then |st.entries[k].data| else 0) + |it.data|
                                                 + if k in st.entries then |st.entries[k].ext| else 0, Fresh(s.pool.capacity, r.block));
            var allowed := k in st.entries && (r.expected == 0 || r.expected == st.entries[k].version);
            var watched := r.watchId == 0 || r.watchId in s.watches;
            t.store ==
              match r.u
              case SetIt => if watched && (k !in st.entries || allowed) then Store(st.entries[k := e], st.lastId + 1) else st
              case AddIt => if watched && k !in st.entries then Store(st.entries[k := e], st.lastId + 1) else st
              case ReplaceIt => if watched && allowed then Store(st.entries[k := e], st.lastId + 1) else st
              case AppendIt =>
                if watched && allowed && room then
                  var was := st.entries[k];
                  Store(st.entries[k := Entry(was.data + it.data, was.flags, was.ext, was.expireTime, st.lastId + 1)], st.lastId + 1)
                else st
              case PrependIt =>
                if watched && allowed && room then
                  var was := st.entries[k];
                  Store(st.entries[k := Entry(it.data + was.data, was.flags, was.ext, was.expireTime, st.lastId + 1)], st.lastId + 1)
                else st
              case UnknownIt => st
  {
    hide Late, Stray, ExactMoves, WatchesMove, TableMoves, DraftsStay, ClockMoves, DeskMoves, Lost, Manager.UpdateOp, Manager.CanAlloc;
    var it := Submitted(s, desk, r.i, r.expected);
    var ok, block := Manager.WatchOk(s.watches, r.watchId), Fresh(s.pool.capacity, r.block);
    match r.u {
      case SetIt => SetMeans(s.store, s.pool, it, ok, block);
      case AddIt => AddMeans(s.store, s.pool, it, ok, block);
      case ReplaceIt => ReplaceMeans(s.store, s.pool, it, ok, block);
      case AppendIt => AppendMeans(s.store, s.pool, it, ok, block);
      case PrependIt => PrependMeans(s.store, s.pool, it, ok, block);
      case UnknownIt => UnknownMeans(s.store, s.pool, it, ok, block);
    }
  }

  lemma RemoveMeans(s: Snap, desk: Desk, r: Request, t: Snap, desk': Desk)
    requires Stepped(s, desk, r, t, desk') && r.RemoveReq?
    ensures t.store.lastId == s.store.lastId
    ensures t.store.entries ==
            if r.key in s.store.entries && (r.expected == 0 || r.expected == s.store.entries[r.key].version)
            then s.store.entries - {r.key} else s.store.entries
  {
    hide Late, Stray, ExactMoves, WatchesMove, TableMoves, DraftsStay, ClockMoves, DeskMoves, Lost;
  }

  lemma FlagsMeans(s: Snap, desk: Desk, r: Request, t: Snap, desk': Desk)
    requires Stepped(s, desk, r, t, desk') && r.FlagsReq?
    ensures t.store ==
            if r.key in s.store.entries && (r.expected == 0 || r.expected == s.store.entries[r.key].version) then
              var e := s.store.entries[r.key];
              Store(s.store.entries[r.key := Entry(e.data, r.flags, e.ext, e.expireTime, s.store.lastId + 1)], s.store.lastId + 1)
            else s.store
  {
    hide Late, Stray, ExactMoves, WatchesMove, TableMoves, DraftsStay, ClockMoves, DeskMoves, Lost;
  }

  /** The second `expiration` seconds from now; never, if none is asked for or 32 bits cannot hold it. */
  function Ahead(now: nat, expiration: nat): nat {
    if expiration == 0 || now + expiration > 0xFFFF_FFFF then 0 else now + expiration
  }

  lemma ExpirationMeans(s: Snap, desk: Desk, r: Request, t: Snap, desk': Desk)
    requires Stepped(s, desk, r, t, desk') && r.ExpirationReq?
    ensures t.store ==
            if r.key in s.store.entries && (r.expected == 0 || r.expected == s.store.entries[r.key].version) then
              var e := s.store.entries[r.key];
              Store(s.store.entries[r.key := Entry(e.data, e.flags, e.ext, Ahead(s.clock.now, r.expiration), e.version)], s.store.lastId)
            else s.store
  {
    hide Late, Stray, ExactMoves, WatchesMove, TableMoves, DraftsStay, ClockMoves, DeskMoves, Lost;
  }

  /** A touch retimes a present entry even when the watch it names does not exist. */
  lemma TouchMeans(s: Snap, desk: Desk, r: Request, t: Snap, desk': Desk)
    requires Stepped(s, desk, r, t, desk') && r.TouchReq?
    ensures t.store ==
            if r.key in s.store.entries then
              var e := s.store.entries[r.key];
              Store(s.store.entries[r.key := Entry(e.data, e.flags, e.ext, Ahead(s.clock.now, r.expiration), e.version)], s.store.lastId)
            else s.store
    ensures desk'.drafts == desk.drafts
    ensures desk'.held == desk.held +
            if r.key in s.store.entries && (r.watchId == 0 || r.watchId in s.watches) && r.key in s.links.index
            then [s.links.index[r.key]] else []
  {
    hide Late, Stray, ExactMoves, WatchesMove, TableMoves, DraftsStay, ClockMoves, Lost;
  }

  lemma GetMeans(s: Snap, desk: Desk, r: Request, t: Snap, desk': Desk)
    requires Stepped(s, desk, r, t, desk') && r.GetReq?
    ensures t.store.lastId == s.store.lastId
    ensures t.store.entries ==
            if r.key in s.store.entries && 0 < s.store.entries[r.key].expireTime <= s.clock.now
            then s.store.entries - {r.key} else s.store.entries
    ensures desk'.drafts == desk.drafts
    ensures desk'.held == desk.held +
            if r.key in t.store.entries && (r.watchId == 0 || r.watchId in s.watches) && r.key in s.links.index
            then [s.links.index[r.key]] else []
  {
    hide Late, Stray, ExactMoves, WatchesMove, TableMoves, DraftsStay, ClockMoves, Lost;
  }

  /** A counter step writes the number, read from the text that is not just blanks, plus or minus the delta. */
  lemma DeltaMeans(s: Snap, desk: Desk, r: Request, t: Snap, desk': Desk)
    requires Stepped(s, desk, r, t, desk') && r.DeltaReq?
    requires r.key in s.store.entries ==> Decimal.Settled(s.store.entries[r.key].data)
    ensures t.store ==
            if r.key !in s.store.entries then s.store
            else
              var e := s.store.entries[r.key];
              var v := if Decimal.Parse(e.data).Some? then Decimal.Parse(e.data).value else 0;
              var text := Decimal.Print(Decimal.Wrap64(if r.incr then v + r.delta else v - r.delta));
              if (r.expected == 0 || r.expected == e.version)
                 && (|text| == |e.data|
                     || Manager.CanAlloc(s.pool, s.pool.header + |r.key.name| + |text| + |e.ext|, Fresh(s.pool.capacity, r.block)))
              then Store(s.store.entries[r.key := Entry(text, e.flags, e.ext, e.expireTime, s.store.lastId + 1)], s.store.lastId + 1)
              else s.store
  {
    hide Late, Stray, ExactMoves, WatchesMove, TableMoves, DraftsStay, ClockMoves, DeskMoves, Lost, Decimal.Parse, Decimal.ParseIn,
         Decimal.Settled, Decimal.Print, Decimal.Wrap64, Manager.CanAlloc;
    if r.key in s.store.entries { Decimal.ParseInIsParse(s.store.entries[r.key].data); }
  }

  /** A flush takes the group's entries and no other. */
  lemma FlushMeans(s: Snap, desk: Desk, r: Request, t: Snap, desk': Desk)
    requires Stepped(s, desk, r, t, desk') && r.FlushReq?
    ensures t.store.lastId == s.store.lastId
    ensures forall k :: k in t.store.entries <==> k in s.store.entries && k.group != r.group
    ensures forall k :: k in t.store.entries ==> t.store.entries[k] == s.store.entries[k]
  {
    hide Late, Stray, ExactMoves, WatchesMove, TableMoves, DraftsStay, ClockMoves, DeskMoves, Lost;
  }

  /** In a punctual run a check takes the entries whose second has come and no other. */
  lemma CheckMeans(story: seq<Moment>, requests: seq<Request>, base: multiset<Id>, i: nat)
    requires Played(story, requests, base) && i < |requests| && Punctual(story, requests, i) && requests[i] == CheckReq
    ensures var s, t := story[i].snap, story[i + 1].snap;
            && t.store.lastId == s.store.lastId
            && (forall k :: k in t.store.entries ==> k in s.store.entries && t.store.entries[k] == s.store.entries[k])
            && (s.clock.lastCheck == s.clock.now ==> t.store == s.store)
            && (s.clock.lastCheck != s.clock.now ==>
                  forall k :: k in s.store.entries ==>
                    (k in t.store.entries <==> s.store.entries[k].expireTime == 0 || s.clock.now < s.store.entries[k].expireTime))
  {
    hide SnapOk, DeskOk, Late, Stray, ExactMoves, WatchesMove, TableMoves, DraftsStay, DeskMoves, Lost, DueNow;
    assert Turned(story, requests, i);
    if story[i].snap.clock.lastCheck != story[i].snap.clock.now { ChecksAreFullScans(story, requests, base, i); }
  }

  /** The other requests do nothing to the map. */
  lemma RestMeans(s: Snap, desk: Desk, r: Request, t: Snap, desk': Desk)
    requires Stepped(s, desk, r, t, desk')
    requires r.DraftReq? || r.FillReq? || r.AbandonReq? || r.ReleaseReq? || r.WatchReq? || r.CheckWatchReq? || r.TickReq?
    ensures t.store == s.store
  {
    hide Late, Stray, ExactMoves, WatchesMove, TableMoves, DraftsStay, ClockMoves, DeskMoves, Lost;
  }

  /** What is lost for ever: one reference to the entry's block at each of the four mismatches, and an abandoned draft's. */
  lemma DetailsLose(s: Snap, desk: Desk, r: Request)
    requires r.FlagsReq? || r.ExpirationReq?
    ensures Lost(s, desk, r) ==
            if r.key in s.store.entries && r.expected != 0 && r.expected != s.store.entries[r.key].version && r.key in s.links.index
            then multiset{s.links.index[r.key]} else multiset{}
  {
  }

  lemma SubmitLoses(s: Snap, desk: Desk, r: Request)
    requires r.SubmitReq? && r.i < |desk.drafts| && desk.drafts[r.i].id in s.items
    ensures var k := s.items[desk.drafts[r.i].id].key;
            Lost(s, desk, r) ==
              if (r.u.AppendIt? || r.u.PrependIt?) && k in s.store.entries && r.expected != 0
                 && r.expected != s.store.entries[k].version && k in s.links.index
              then multiset{s.links.index[k]} else multiset{}
  {
    hide Manager.CanAlloc, Manager.Fits;
  }

  lemma OthersLose(s: Snap, desk: Desk, r: Request)
    requires !r.FlagsReq? && !r.ExpirationReq? && !r.SubmitReq?
    ensures Lost(s, desk, r) == if r.AbandonReq? && r.i < |desk.drafts| then multiset{desk.drafts[r.i].id} else multiset{}
  {
    hide DeltaValue, Decimal.Print, Manager.Fits;
  }

  // ---- Who is told ----

  /** The watches after every watcher of the entry under `key`, as long as it is alive, has heard one thing more. */
  lemma TellsWatchers(s: Snap, t: Snap, key: Key, notice: NotifyType)
    requires SnapOk(s) && key in s.store.entries && t.watches == Manager.Told(s.items, s.links, s.watches, key, notice)
    ensures key in s.links.index && s.links.index[key] in s.items && t.watches.Keys == s.watches.Keys
    ensures forall w :: w in s.watches ==>
              && t.watches[w].expireTime == s.watches[w].expireTime
              && t.watches[w].posted == s.watches[w].posted +
                   if w in s.items[s.links.index[key]].watchers then [Event(s.store.entries[key].version, notice)] else []
  {
    hide Filed, IdsIssued, Counted, PoolOk, ClockOk, Manager.Told;
    Manager.ToldAt(s.items, s.links, s.watches, key, notice);
  }

  /** A set, replace, append or prepend that succeeds on a present key tells the entry's watchers; nothing else tells anyone. */
  lemma SubmitTells(s: Snap, desk: Desk, r: Request, t: Snap, desk': Desk)
    requires SnapOk(s) && Stepped(s, desk, r, t, desk') && r.SubmitReq? && r.i < |desk.drafts| && desk.drafts[r.i].id in s.items
    ensures t.watches.Keys == s.watches.Keys
    ensures var k := s.items[desk.drafts[r.i].id].key;
            if k in s.store.entries && t.store != s.store then
              && k in s.links.index && s.links.index[k] in s.items
              && forall w :: w in s.watches ==>
                   && t.watches[w].expireTime == s.watches[w].expireTime
                   && t.watches[w].posted == s.watches[w].posted +
                        if w in s.items[s.links.index[k]].watchers then [Event(s.store.entries[k].version, DataUpdated)] else []
            else t.watches == s.watches
  {
    hide SnapOk, Late, Stray, ExactMoves, TableMoves, DraftsStay, ClockMoves, DeskMoves, Lost, Manager.UpdateOp, Manager.CanAlloc, Manager.Told;
    var it := Submitted(s, desk, r.i, r.expected);
    var ok, block := Manager.WatchOk(s.watches, r.watchId), Fresh(s.pool.capacity, r.block);
    match r.u {
      case SetIt => SetMeans(s.store, s.pool, it, ok, block);
      case AddIt => AddMeans(s.store, s.pool, it, ok, block);
      case ReplaceIt => ReplaceMeans(s.store, s.pool, it, ok, block);
      case AppendIt => AppendMeans(s.store, s.pool, it, ok, block);
      case PrependIt => PrependMeans(s.store, s.pool, it, ok, block);
      case UnknownIt => UnknownMeans(s.store, s.pool, it, ok, block);
    }
    var k := s.items[desk.drafts[r.i].id].key;
    if k in s.store.entries {
      if t.store != s.store { TellsWatchers(s, t, k, DataUpdated); }
    } else {
      Unheard(s, k, DataUpdated);
    }
  }

  lemma Unheard(s: Snap, key: Key, notice: NotifyType)
    requires SnapOk(s) && key !in s.store.entries
    ensures Manager.Told(s.items, s.links, s.watches, key, notice) == s.watches
  {
    hide Filed, IdsIssued, Counted, PoolOk, ClockOk;
  }

  lemma RemoveTells(s: Snap, desk: Desk, r: Request, t: Snap, desk': Desk)
    requires SnapOk(s) && Stepped(s, desk, r, t, desk') && r.RemoveReq?
    ensures t.watches.Keys == s.watches.Keys
    ensures if r.key in s.store.entries && r.key !in t.store.entries then
              && r.key in s.links.index && s.links.index[r.key] in s.items
              && forall w :: w in s.watches ==>
                   && t.watches[w].expireTime == s.watches[w].expireTime
                   && t.watches[w].posted == s.watches[w].posted +
                        if w in s.items[s.links.index[r.key]].watchers then [Event(s.store.entries[r.key].version, Deleted)] else []
            else t.watches == s.watches
  {
    hide SnapOk, Late, Stray, ExactMoves, TableMoves, DraftsStay, ClockMoves, DeskMoves, Lost, Manager.Told;
    if r.key in s.store.entries && r.key !in t.store.entries { TellsWatchers(s, t, r.key, Deleted); }
  }

  lemma FlagsTells(s: Snap, desk: Desk, r: Request, t: Snap, desk': Desk)
    requires SnapOk(s) && Stepped(s, desk, r, t, desk') && r.FlagsReq?
    ensures t.watches.Keys == s.watches.Keys
    ensures if t.store != s.store then
              && r.key in s.store.entries && r.key in s.links.index && s.links.index[r.key] in s.items
              && forall w :: w in s.watches ==>
                   && t.watches[w].expireTime == s.watches[w].expireTime
                   && t.watches[w].posted == s.watches[w].posted +
                        if w in s.items[s.links.index[r.key]].watchers
                        then [Event(s.store.entries[r.key].version, BaseInfoUpdated)] else []
            else t.watches == s.watches
  {
    hide SnapOk, Late, Stray, ExactMoves, TableMoves, DraftsStay, ClockMoves, DeskMoves, Lost, Manager.Told;
    if t.store != s.store { TellsWatchers(s, t, r.key, BaseInfoUpdated); }
  }

  /** A counter step tells the watchers only if the text changes its length. */
  lemma DeltaTells(s: Snap, desk: Desk, r: Request, t: Snap, desk': Desk)
    requires SnapOk(s) && Stepped(s, desk, r, t, desk') && r.DeltaReq?
    ensures t.watches.Keys == s.watches.Keys
    ensures if r.key in s.store.entries && r.key in t.store.entries && |t.store.entries[r.key].data| != |s.store.entries[r.key].data| then
              && r.key in s.links.index && s.links.index[r.key] in s.items
              && forall w :: w in s.watches ==>
                   && t.watches[w].expireTime == s.watches[w].expireTime
                   && t.watches[w].posted == s.watches[w].posted +
                        if w in s.items[s.links.index[r.key]].watchers then [Event(s.store.entries[r.key].version, DataUpdated)] else []
            else t.watches == s.watches
  {
    hide SnapOk, Late, Stray, ExactMoves, TableMoves, DraftsStay, ClockMoves, DeskMoves, Lost, Manager.Told, DeltaValue, Decimal.Print,
         Manager.Fits;
    if r.key in s.store.entries && r.key in t.store.entries && |t.store.entries[r.key].data| != |s.store.entries[r.key].data| {
      TellsWatchers(s, t, r.key, DataUpdated);
    }
  }

  /** A read tells the watchers exactly of an entry that it finds expired. */
  lemma GetTells(s: Snap, desk: Desk, r: Request, t: Snap, desk': Desk)
    requires SnapOk(s) && Stepped(s, desk, r, t, desk') && r.GetReq?
    ensures t.watches.Keys == s.watches.Keys
    ensures if r.key in s.store.entries && 0 < s.store.entries[r.key].expireTime <= s.clock.now then
              && r.key in s.links.index && s.links.index[r.key] in s.items
              && forall w :: w in s.watches ==>
                   && t.watches[w].expireTime == s.watches[w].expireTime
                   && t.watches[w].posted == s.watches[w].posted +
                        if w in s.items[s.links.index[r.key]].watchers
                        then [Event(s.store.entries[r.key].version, NotifyType.Expired)] else []
            else t.watches == s.watches
  {
    hide SnapOk, Late, Stray, ExactMoves, TableMoves, DraftsStay, ClockMoves, DeskMoves, Lost, Manager.Told;
    if r.key in s.store.entries && 0 < s.store.entries[r.key].expireTime <= s.clock.now { TellsWatchers(s, t, r.key, NotifyType.Expired); }
  }

  /** `e` says of a watched entry under one of `keys` what has become of it. */
  ghost predicate Tells(s: Snap, w: nat, keys: set<Key>, notice: NotifyType, e: Event) {
    exists k :: k in keys && k in s.store.entries && k in s.links.index && s.links.index[k] in s.items
                && w in s.items[s.links.index[k]].watchers && e == Event(s.store.entries[k].version, notice)
  }

  /**
   What watch `w` heard in a step: its history has grown by news that say nothing twice, and are about exactly the
   watched entries under `keys`.
   */
  ghost predicate News(s: Snap, t: Snap, w: nat, keys: set<Key>, notice: NotifyType) {
    && w in s.watches && w in t.watches && t.watches[w].expireTime == s.watches[w].expireTime
    && var n := |s.watches[w].posted|;
       && n <= |t.watches[w].posted| && t.watches[w].posted[..n] == s.watches[w].posted
       && var news := t.watches[w].posted[n..];
          Distinct(news) && forall e :: e in news <==> Tells(s, w, keys, notice, e)
  }

  lemma SameTales(s: Snap, ids: seq<Id>, hit: set<Id>, keys: set<Key>, notice: NotifyType, w: nat, e: Event)
    requires SnapOk(s) && forall i :: i in ids <==> i in s.links.table && i in hit
    requires forall k :: k in keys <==> k in s.links.index && s.links.index[k] in hit
    ensures (exists i :: i in ids && i in s.items && w in s.items[i].watchers && e == Event(s.items[i].cacheId, notice)) <==>
            Tells(s, w, keys, notice, e)
  {
    hide Filed, IdsIssued, Counted, PoolOk, ClockOk;
    if i :| i in ids && i in s.items && w in s.items[i].watchers && e == Event(s.items[i].cacheId, notice) {
      assert s.links.index[s.items[i].key] == i;
    }
  }

  lemma WalkIds(s: Snap, hit: set<Id>)
    requires SnapOk(s)
    ensures var ids := Walk(s.links.lists, hit);
            && Distinct(ids) && (forall i :: i in ids <==> i in s.links.table && i in hit)
            && (forall i :: i in ids ==> i in s.items)
            && forall i, j :: i in ids && j in ids && s.items[i].cacheId == s.items[j].cacheId ==> i == j
  {
    hide Counted, PoolOk, ClockOk, Walk, Distinct;
    WalkMeans(s.items, s.links, hit);
  }

  /** Word of a walk over the lists is word of the entries it takes. */
  lemma WalkNews(s: Snap, t: Snap, was: map<nat, Watch>, hit: set<Id>, keys: set<Key>, notice: NotifyType, w: nat)
    requires SnapOk(s) && Rung(s.items, was, t.watches, Walk(s.links.lists, hit), notice)
    requires w in was && w in s.watches && was[w] == s.watches[w]
    requires forall k :: k in keys <==> k in s.links.index && s.links.index[k] in hit
    ensures News(s, t, w, keys, notice)
  {
    hide SnapOk, Walk, Heard, Distinct, Tells;
    var ids := Walk(s.links.lists, hit);
    WalkIds(s, hit);
    HeardMeans(s.items, ids, w, notice);
    var news := Heard(s.items, ids, w, notice);
    assert t.watches[w].posted[|s.watches[w].posted|..] == news;
    forall e ensures e in news <==> Tells(s, w, keys, notice, e) { SameTales(s, ids, hit, keys, notice, w, e); }
  }

  /** A flush tells each watch of exactly the group's entries that it watches, once each. */
  lemma FlushTells(s: Snap, desk: Desk, r: Request, t: Snap, desk': Desk)
    requires SnapOk(s) && Stepped(s, desk, r, t, desk') && r.FlushReq?
    ensures t.watches.Keys == s.watches.Keys
    ensures forall w :: w in s.watches ==> News(s, t, w, GroupKeys(s.store, r.group), Flushed)
  {
    hide SnapOk, Late, Stray, ExactMoves, TableMoves, DraftsStay, ClockMoves, DeskMoves, Lost, Walk, News;
    forall w | w in s.watches ensures News(s, t, w, GroupKeys(s.store, r.group), Flushed) {
      GroupIsHit(s, r.group);
      WalkNews(s, t, s.watches, OfGroup(s.items, r.group), GroupKeys(s.store, r.group), Flushed, w);
    }
  }

  lemma GroupIsHit(s: Snap, g: nat)
    requires SnapOk(s)
    ensures forall k :: k in GroupKeys(s.store, g) <==> k in s.links.index && s.links.index[k] in OfGroup(s.items, g)
  {
    hide Filed, IdsIssued, Counted, PoolOk, ClockOk;
  }

  /**
   A check in a new second drops the watches that have lapsed, and tells each of the others of exactly the entries it
   removes that the watch watches, once each.
   */
  lemma CheckTells(s: Snap, desk: Desk, r: Request, t: Snap, desk': Desk)
    requires SnapOk(s) && Stepped(s, desk, r, t, desk') && r.CheckReq?
    ensures s.clock.lastCheck == s.clock.now ==> t.watches == s.watches
    ensures s.clock.lastCheck != s.clock.now ==>
              && (forall w :: w in t.watches <==> w in s.watches && s.clock.now < s.watches[w].expireTime)
              && forall w :: w in t.watches ==> News(s, t, w, s.store.entries.Keys - t.store.entries.Keys, NotifyType.Expired)
  {
    hide SnapOk, Late, Stray, ExactMoves, TableMoves, DraftsStay, ClockMoves, DeskMoves, Lost, Walk, News, DueNow, DueIds;
    if s.clock.lastCheck != s.clock.now {
      var start := Start(s.items, s.links, s.clock);
      DueIsHit(s);
      assert s.store.entries.Keys - t.store.entries.Keys == DueNow(start);
      forall w | w in t.watches ensures News(s, t, w, DueNow(start), NotifyType.Expired) {
        WalkNews(s, t, Alive(s.watches, s.clock.now), DueIds(start), DueNow(start), NotifyType.Expired, w);
      }
    }
  }

  lemma DueIsHit(s: Snap)
    requires SnapOk(s) && s.clock.lastCheck != s.clock.now
    ensures var start := Start(s.items, s.links, s.clock);
            forall k :: k in DueNow(start) <==> k in s.links.index && s.links.index[k] in DueIds(start)
    ensures DueNow(Start(s.items, s.links, s.clock)) <= s.store.entries.Keys
  {
    hide IdsIssued, Counted, PoolOk, Due;
  }

  /** What a flush counts are the sizes, in 32 bits, of exactly the group's blocks, each once. */
  lemma FlushCounts(s: Snap, g: nat)
    requires SnapOk(s)
    ensures var sizes := GroupSizes(s.store, g, s.pool.header);
            && (forall k :: k in sizes <==> k in s.links.index && k.group == g)
            && forall k :: k in sizes ==>
                 && s.links.index[k] in s.items
                 && var it := s.items[s.links.index[k]];
                    && it.key == k
                    && sizes[k] == (s.pool.header + |it.key.name| + |it.data| + |it.ext|) % 0x1_0000_0000
                    && sizes[k] == TotalSize(s.pool.header, it) % 0x1_0000_0000
  {
    hide Filed, IdsIssued, Counted, PoolOk, ClockOk;
  }
}
