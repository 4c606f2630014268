/**
 Whole runs of the cache manager. An update is three requests here, as it takes the lock three times: its item is
 allocated, filled while the bytes arrive and other clients are served, and linked; and every reference a client gets
 is given back in a request of its own, or never.
 */
module CacheRun {
  import opened Basics
  import opened CacheSpec
  import opened CacheState
  import opened Notices
  import opened CacheMgr
  import opened ExpiryWheel
  import opened ExpirySweep
  import Decimal

  /** A moment of the manager: the map it stands for, and its fields. */
  datatype Snap = Snap(
    store: Store, items: map<Id, Item>, links: Links, pool: Pool, clock: Clock, watches: map<nat, Watch>, lastWatchId: nat,
    lastTime: nat, refs: Refs, exact: bool)

  /** An item allocated in the second `filed` for an update that is still arriving. */
  datatype Draft = Draft(id: Id, filed: nat)

  /** What the clients hold: drafts, and references to be given back. */
  datatype Desk = Desk(drafts: seq<Draft>, held: seq<Id>)

  /** `block` is what malloc would answer. Drafts and held references are named by their place on the desk. */
  datatype Request =
    | DraftReq(group: nat, nameLength: nat, flags: nat, expiration: nat, dataLength: nat, block: Option<Id>)
    | FillReq(i: nat, name: seq<byte>, data: seq<byte>)
    | SubmitReq(i: nat, u: Update, expected: nat, watchId: nat, block: Option<Id>)
    | AbandonReq(i: nat)
    | ReleaseReq(i: nat)
    | RemoveReq(key: Key, expected: nat)
    | DeltaReq(key: Key, incr: bool, delta: int, expected: nat, block: Option<Id>, rest: Decimal.Memory)
    | FlagsReq(key: Key, flags: nat, expected: nat)
    | ExpirationReq(key: Key, expiration: nat, expected: nat)
    | FlushReq(group: nat)
    | GetReq(key: Key, watchId: nat)
    | TouchReq(key: Key, watchId: nat, expiration: nat)
    | WatchReq(interval: nat)
    | CheckWatchReq(watchId: nat, interval: nat)
    | TickReq(wall: nat)
    | CheckReq

  ghost function SnapOf(m: Manager): Snap
    reads m
    requires m.Valid()
  {
    Snap(m.Contents(), m.items, m.links, m.pool, m.clock, m.watches, m.lastWatchId, m.lastTime, m.refs, m.exact)
  }

  ghost predicate SnapOk(s: Snap) {
    && LinksOk(s.items, s.links) && Counted(s.items, s.links.table, s.refs, multiset{})
    && PoolOk(s.items, s.pool) && ClockOk(s.clock) && s.store == StoreOf(s.items, s.links)
  }

  /** The linked items off schedule. */
  ghost function Late(s: Snap): set<Id> {
    UnscheduledOf(s.items, s.links.table, s.clock)
  }

  function CellsOf(s: Snap): Cells { Cells(s.items, s.links.table) }

  /** A live block is never handed out again. */
  function Fresh(m: map<Id, nat>, block: Option<Id>): Option<Id> {
    if block.Some? && block.value in m then None else block
  }

  function Ids(drafts: seq<Draft>): (r: seq<Id>)
    ensures |r| == |drafts| && forall i :: 0 <= i < |r| ==> r[i] == drafts[i].id
  {
    seq(|drafts|, i requires 0 <= i < |drafts| => drafts[i].id)
  }

  /** A draft is a block in use outside the table, filed in the bucket of its second, and no one else's. */
  ghost predicate DraftsOk(s: Snap, desk: Desk) {
    && (forall d :: d in desk.drafts ==> d.id in s.items && d.id !in s.links.table && d.id !in desk.held)
    && (forall d :: d in desk.drafts ==> IsBucket(d.filed, s.items[d.id].expireTime, s.items[d.id].expirationId))
    && Distinct(Ids(desk.drafts))
  }

  /** Every reference given out, but for those in `base`, is on the desk. */
  ghost predicate DeskOk(s: Snap, desk: Desk, base: multiset<Id>) {
    DraftsOk(s, desk) && s.refs.handles == base + multiset(Ids(desk.drafts)) + multiset(desk.held)
  }

  function DropAt<T>(s: seq<T>, i: nat): seq<T> {
    if i < |s| then s[..i] + s[i + 1..] else s
  }

  /** The item that an update is run with: the draft, with the id that the request names. */
  ghost function Submitted(s: Snap, desk: Desk, i: nat, expected: nat): Item
    requires i < |desk.drafts| && desk.drafts[i].id in s.items
  {
    s.items[desk.drafts[i].id].(cacheId := expected)
  }

  /** The step on the map that a request asks for, if it asks for one. */
  ghost function OpOf(s: Snap, desk: Desk, r: Request): Option<Op> {
    match r
    case SubmitReq(i, u, expected, watchId, block) =>
      if i < |desk.drafts| && desk.drafts[i].id in s.items then
        Manager.UpdateOp(u, s.store, s.pool, Submitted(s, desk, i, expected), Manager.WatchOk(s.watches, watchId),
                         Fresh(s.pool.capacity, block))
      else None
    case RemoveReq(key, expected) => Some(CacheSpec.Remove(key, expected))
    case DeltaReq(key, incr, delta, expected, block, rest) =>
      Some(Manager.DeltaOp(s.store, s.pool, key, incr, delta, expected, Fresh(s.pool.capacity, block), rest))
    case FlagsReq(key, flags, expected) => Some(CacheSpec.UpdateFlags(key, flags, expected))
    case ExpirationReq(key, expiration, expected) =>
      Some(CacheSpec.UpdateExpiration(key, Realtime(s.clock.now, expiration), expected))
    case FlushReq(g) => Some(CacheSpec.Flush(g))
    case GetReq(key, watchId) => Some(CacheSpec.Get(key, s.clock.now, Manager.WatchOk(s.watches, watchId)))
    case TouchReq(key, watchId, expiration) =>
      Some(CacheSpec.GetTouch(key, Realtime(s.clock.now, expiration), Manager.WatchOk(s.watches, watchId)))
    case CheckReq =>
      if s.clock.lastCheck == s.clock.now then None
      else Some(CacheSpec.Expire(DueNow(Start(s.items, s.links, s.clock)), s.clock.now))
    case _ => None
  }

  ghost function EffectOf(st: Store, op: Option<Op>): Store {
    if op.Some? then Effect(st, op.value) else st
  }

  /** The references that a request loses for ever: those of the four mismatch branches, and of abandoned drafts. */
  ghost function Lost(s: Snap, desk: Desk, r: Request): multiset<Id> {
    var op := OpOf(s, desk, r);
    match r
    case AbandonReq(i) => if i < |desk.drafts| then multiset{desk.drafts[i].id} else multiset{}
    case _ =>
      if op.Some? && (op.value.Append? || op.value.Prepend? || op.value.UpdateFlags? || op.value.UpdateExpiration?)
         && Verdict(s.store, op.value) == Mismatch && op.value.key in s.links.index
      then multiset{s.links.index[op.value.key]}
      else multiset{}
  }

  /** The items that a request may put off schedule: one retimed in place, or one linked too late. */
  ghost function Stray(s: Snap, desk: Desk, r: Request): set<Id> {
    match r
    case SubmitReq(i, _, _, _, _) =>
      if i < |desk.drafts| && desk.drafts[i].id in s.items && !OnSchedule(s.items[desk.drafts[i].id], s.clock)
      then {desk.drafts[i].id} else {}
    case TouchReq(key, _, expiration) =>
      if key in s.links.index && s.links.index[key] in s.items
         && !OnSchedule(s.items[s.links.index[key]].(expireTime := Realtime(s.clock.now, expiration)), s.clock)
      then {s.links.index[key]} else {}
    case _ => {}
  }

  /** What a request makes of the desk. */
  ghost predicate DeskMoves(s: Snap, desk: Desk, r: Request, t: Snap, desk': Desk) {
    match r
    case DraftReq(group, nameLength, flags, expiration, dataLength, block) =>
      if Manager.CanAlloc(s.pool, Manager.DraftSize(s.pool, nameLength, dataLength), Fresh(s.pool.capacity, block)) then
        && |desk'.drafts| == |desk.drafts| + 1
        && var d := desk'.drafts[|desk.drafts|];
           && desk' == desk.(drafts := desk.drafts + [d]) && d.id !in s.items && d.id in t.items && d.filed == s.clock.now
           && t.items[d.id].key == Key(group, Manager.Blank(nameLength))
           && EntryOf(t.items[d.id]) == Entry(Manager.Blank(dataLength), flags, [], Realtime(s.clock.now, expiration), 0)
      else desk' == desk
    case FillReq(i, name, data) =>
      && desk' == desk
      && (i < |desk.drafts| && desk.drafts[i].id in s.items ==>
            var id := desk.drafts[i].id;
            && id in t.items
            && var was, it := s.items[id], t.items[id];
               if |name| == |was.key.name| && |data| == |was.data| then
                 && it.key.group == was.key.group && it.key.name == name && it.data == data
                 && it.flags == was.flags && it.ext == was.ext && it.expireTime == was.expireTime
                 && it.cacheId == was.cacheId && it.expirationId == was.expirationId && it.watchers == was.watchers
               else it == was)
    case SubmitReq(i, _, _, _, _) =>
      desk' == if i < |desk.drafts| then Desk(DropAt(desk.drafts, i), desk.held + [desk.drafts[i].id]) else desk
    case AbandonReq(i) => desk' == desk.(drafts := DropAt(desk.drafts, i))
    case ReleaseReq(i) => desk' == desk.(held := DropAt(desk.held, i))
    case GetReq(key, _) => desk' == desk.(held := desk.held + Found(s, desk, r, key))
    case TouchReq(key, _, _) => desk' == desk.(held := desk.held + Found(s, desk, r, key))
    case _ => desk' == desk
  }

  /** The reference a successful read hands out. */
  ghost function Found(s: Snap, desk: Desk, r: Request, key: Key): seq<Id> {
    var op := OpOf(s, desk, r);
    if op.Some? && Verdict(s.store, op.value) == Success && key in s.links.index then [s.links.index[key]] else []
  }

  ghost predicate ClockMoves(s: Snap, r: Request, t: Snap) {
    match r
    case TickReq(wall) =>
      var d := if wall > s.lastTime then wall - s.lastTime else 0;
      t.clock == s.clock.(now := s.clock.now + if d > 10 then 10 else d) && t.lastTime == wall
    case CheckReq =>
      t.clock == (if s.clock.lastCheck == s.clock.now then s.clock else Swung(s.clock)) && t.lastTime == s.lastTime
    case _ => t.clock == s.clock && t.lastTime == s.lastTime
  }

  /** The watches of the item stored under `key` are told of it, or no one is. */
  ghost predicate Hears(s: Snap, t: Snap, key: Key, notice: NotifyType, told: bool) {
    t.watches == if told then Manager.Told(s.items, s.links, s.watches, key, notice) else s.watches
  }

  /** The watches told, created, checked, dropped, or left alone. */
  ghost predicate WatchesMove(s: Snap, desk: Desk, r: Request, t: Snap) {
    match r
    case WatchReq(interval) =>
      if Manager.AllTaken(s.watches, s.lastWatchId, 100) then t.watches == s.watches
      else
        && t.lastWatchId !in s.watches && t.lastWatchId != 0
        && t.watches == s.watches[t.lastWatchId := Watch(Realtime(s.clock.now, interval), [])]
    case CheckWatchReq(w, interval) =>
      t.watches == if w !in s.watches then s.watches
                   else s.watches[w := s.watches[w].(expireTime := Realtime(s.clock.now, interval))]
    case SubmitReq(i, u, _, _, _) =>
      if i < |desk.drafts| && desk.drafts[i].id in s.items then
        Hears(s, t, s.items[desk.drafts[i].id].key, DataUpdated, Manager.Answer(s.store, OpOf(s, desk, r)).reason == Success && !u.AddIt?)
      else t.watches == s.watches
    case RemoveReq(key, expected) => Hears(s, t, key, Deleted, Verdict(s.store, CacheSpec.Remove(key, expected)) == Success)
    case DeltaReq(key, incr, delta, _, _, rest) =>
      Hears(s, t, key, DataUpdated,
            && key in s.store.entries && Manager.Answer(s.store, OpOf(s, desk, r)).reason == Success
            && |Decimal.Print(DeltaValue(s.store.entries[key], incr, delta, rest))| != |s.store.entries[key].data|)
    case FlagsReq(key, flags, expected) =>
      Hears(s, t, key, BaseInfoUpdated, Verdict(s.store, CacheSpec.UpdateFlags(key, flags, expected)) == Success)
    case GetReq(key, _) =>
      Hears(s, t, key, NotifyType.Expired, key in s.store.entries && CacheSpec.Expired(s.store.entries[key], s.clock.now))
    case FlushReq(g) => Rung(s.items, s.watches, t.watches, Walk(s.links.lists, OfGroup(s.items, g)), Flushed)
    case CheckReq =>
      if s.clock.lastCheck == s.clock.now then t.watches == s.watches
      else Rung(s.items, Alive(s.watches, s.clock.now), t.watches,
                Walk(s.links.lists, DueIds(Start(s.items, s.links, s.clock))), NotifyType.Expired)
    case _ => t.watches == s.watches
  }

  /** Whether the tests of 16-bit counts that a request makes tell what the whole counts do. */
  ghost predicate ExactMoves(s: Snap, desk: Desk, r: Request, t: Snap) {
    match r
    case ReleaseReq(i) =>
      t.exact == (s.exact && (i < |desk.held| && desk.held[i] in s.items ==> SameTest(s.items[desk.held[i]].refCount)))
    case _ => s.exact && Spare(s.refs, 1) ==> t.exact
  }

  /**
   A request that only looks on, or is refused a change of flags, leaves table and lists alone; an item added is filed
   in the bucket it was allocated for, and one touched stays in its own.
   */
  ghost predicate TableMoves(s: Snap, desk: Desk, r: Request, t: Snap) {
    match r
    case SubmitReq(i, u, _, _, _) =>
      u.AddIt? && i < |desk.drafts| && desk.drafts[i].id in s.items
      && Manager.Answer(s.store, OpOf(s, desk, r)).reason == Success ==>
        FiledIn(t.items, t.links, s.items[desk.drafts[i].id].key, s.items[desk.drafts[i].id].expirationId)
    case TouchReq(key, _, _) =>
      key in s.links.index && s.links.index[key] in s.items && Found(s, desk, r, key) != [] ==>
        FiledIn(t.items, t.links, key, s.items[s.links.index[key]].expirationId)
    case FlagsReq(key, flags, expected) => Verdict(s.store, CacheSpec.UpdateFlags(key, flags, expected)) != Success ==> t.links == s.links
    case GetReq(key, _) => Found(s, desk, r, key) != [] ==> t.links == s.links
    case ReleaseReq(_) => t.links == s.links
    case TickReq(_) => t.links == s.links && t.items == s.items
    case _ => true
  }

  /** The draft that a request is about. */
  function OwnDraft(desk: Desk, r: Request): set<Id> {
    if (r.FillReq? || r.SubmitReq? || r.AbandonReq?) && r.i < |desk.drafts| then {desk.drafts[r.i].id} else {}
  }

  /** No request touches the drafts it is not about. */
  ghost predicate DraftsStay(s: Snap, desk: Desk, r: Request, t: Snap) {
    forall d :: d in desk.drafts && d.id in s.items && d.id !in OwnDraft(desk, r) ==> d.id in t.items && t.items[d.id] == s.items[d.id]
  }

  /**
   One request: the map takes exactly the step the request asks for, exactly the references it loses are lost, the
   desk and the clock move as they should, and only a stray item goes off schedule.
   */
  ghost predicate Stepped(s: Snap, desk: Desk, r: Request, t: Snap, desk': Desk) {
    && t.store == EffectOf(s.store, OpOf(s, desk, r))
    && t.refs.leaked == s.refs.leaked + Lost(s, desk, r)
    && DeskMoves(s, desk, r, t, desk') && ClockMoves(s, r, t) && WatchesMove(s, desk, r, t)
    && ExactMoves(s, desk, r, t) && TableMoves(s, desk, r, t)
    && DraftsStay(s, desk, r, t) && Late(t) <= Late(s) + Stray(s, desk, r)
  }

  /** What a request leaves behind: a sound state, every reference accounted for, and the step taken. */
  ghost predicate Served(s: Snap, desk: Desk, r: Request, t: Snap, desk': Desk, base: multiset<Id>) {
    SnapOk(t) && DeskOk(t, desk', base) && Stepped(s, desk, r, t, desk')
  }

  lemma ValidSnap(m: Manager)
    requires m.Valid()
    ensures SnapOk(SnapOf(m)) && m.Unscheduled() == Late(SnapOf(m)) && m.Blocks() == CellsOf(SnapOf(m))
  {
  }

  lemma OthersStay(s: Snap, desk: Desk, r: Request, t: Snap, but: set<Id>, base: multiset<Id>)
    requires DeskOk(s, desk, base) && Aside(CellsOf(s), CellsOf(t), but)
    requires forall i :: i in but ==> i in OwnDraft(desk, r) || i in desk.held
    ensures DraftsStay(s, desk, r, t)
  {
    hide IsBucket;
  }

  /** Drafts outlast whatever leaves the blocks outside the table alone. */
  lemma DraftsKept(s: Snap, desk: Desk, t: Snap, but: set<Id>)
    requires DraftsOk(s, desk) && Aside(CellsOf(s), CellsOf(t), but) && forall d :: d in desk.drafts ==> d.id !in but
    ensures DraftsOk(t, desk)
  {
    hide IsBucket;
  }

  /** The reference of a lookup that ends in a mismatch is the one lost. */
  lemma LostIs(s: Snap, desk: Desk, r: Request, op: Op, refs: Refs)
    requires OpOf(s, desk, r) == Some(op) && !r.AbandonReq?
    requires refs == if (op.Append? || op.Prepend? || op.UpdateFlags? || op.UpdateExpiration?) && Verdict(s.store, op) == Mismatch
                     then Manager.Leaking(s.refs, s.links, op.key) else s.refs
    ensures refs == s.refs.(leaked := s.refs.leaked + Lost(s, desk, r))
  {
    hide OpOf, Verdict;
    assert s.refs.leaked + multiset{} == s.refs.leaked;
  }

  lemma LosesNothing(s: Snap, desk: Desk, r: Request)
    requires !r.AbandonReq?
    requires var op := OpOf(s, desk, r);
             op.None? || !(op.value.Append? || op.value.Prepend? || op.value.UpdateFlags? || op.value.UpdateExpiration?)
    ensures s.refs.leaked + Lost(s, desk, r) == s.refs.leaked
  {
    hide OpOf;
  }

  /** A request that leaves the desk and the clock alone. */
  lemma Settles(s: Snap, desk: Desk, r: Request, t: Snap, base: multiset<Id>)
    requires SnapOk(t) && DeskOk(s, desk, base) && Aside(CellsOf(s), CellsOf(t), {})
    requires r.RemoveReq? || r.DeltaReq? || r.FlagsReq? || r.ExpirationReq? || r.FlushReq? || r.WatchReq? || r.CheckWatchReq?
    requires t.store == EffectOf(s.store, OpOf(s, desk, r))
    requires t.refs == s.refs.(leaked := s.refs.leaked + Lost(s, desk, r))
    requires t.clock == s.clock && t.lastTime == s.lastTime && Late(t) <= Late(s) && WatchesMove(s, desk, r, t)
    requires ExactMoves(s, desk, r, t) && TableMoves(s, desk, r, t)
    ensures Served(s, desk, r, t, desk, base)
  {
    hide ExactMoves, TableMoves, SnapOk, Late, EffectOf, OpOf, Lost, DraftsOk, Aside, DraftsStay;
    DraftsKept(s, desk, t, {});
    OthersStay(s, desk, r, t, {}, base);
  }

  method ServeChange(m: Manager, r: Request, desk: Desk, ghost base: multiset<Id>)
    requires m.Valid() && DeskOk(SnapOf(m), desk, base) && (r.RemoveReq? || r.DeltaReq?)
    modifies m
    ensures m.Valid() && Served(old(SnapOf(m)), desk, r, SnapOf(m), desk, base)
  {
    hide LinksOk, Counted, PoolOk, ClockOk, StoreOf, UnscheduledOf, Effect, Verdict, DeskOk, Served, Aside, Lost, Spare;
    ghost var s := SnapOf(m);
    ValidSnap(m);
    var reason;
    match r {
      case RemoveReq(key, expected) => reason := m.Remove(key, expected);
      case DeltaReq(key, incr, delta, expected, block, rest) =>
        var cacheId, value;
        reason, cacheId, value := m.Delta(key, incr, delta, expected, Fresh(m.pool.capacity, block), rest);
    }
    ValidSnap(m);
    LosesNothing(s, desk, r);
    Settles(s, desk, r, SnapOf(m), base);
  }

  method ServeDetails(m: Manager, r: Request, desk: Desk, ghost base: multiset<Id>)
    requires m.Valid() && DeskOk(SnapOf(m), desk, base) && (r.FlagsReq? || r.ExpirationReq?)
    modifies m
    ensures m.Valid() && Served(old(SnapOf(m)), desk, r, SnapOf(m), desk, base)
  {
    hide LinksOk, Counted, PoolOk, ClockOk, StoreOf, UnscheduledOf, Effect, Verdict, DeskOk, Served, Aside, Lost, Spare;
    ghost var s := SnapOf(m);
    ValidSnap(m);
    var reason, cacheId;
    match r {
      case FlagsReq(key, flags, expected) => reason, cacheId := m.UpdateFlags(key, flags, expected);
      case ExpirationReq(key, expiration, expected) => reason, cacheId := m.UpdateExpiration(key, expiration, expected);
    }
    ValidSnap(m);
    LostIs(s, desk, r, OpOf(s, desk, r).value, m.refs);
    Settles(s, desk, r, SnapOf(m), base);
  }

  // ---- The desk ----

  lemma DropAtCount<T>(s: seq<T>, i: nat)
    requires i < |s|
    ensures multiset(DropAt(s, i)) == multiset(s) - multiset{s[i]} && s[i] in multiset(s)
    ensures forall x :: x in DropAt(s, i) ==> x in s
  {
    assert s == s[..i] + [s[i]] + s[i + 1..];
  }

  lemma DropAtDistinct<T>(s: seq<T>, i: nat)
    requires i < |s| && Distinct(s)
    ensures Distinct(DropAt(s, i)) && s[i] !in DropAt(s, i)
  {
    var rest := DropAt(s, i);
    assert forall k :: 0 <= k < |rest| ==> rest[k] == s[if k < i then k else k + 1];
  }

  lemma DropDraft(drafts: seq<Draft>, i: nat)
    requires i < |drafts| && Distinct(Ids(drafts))
    ensures Ids(DropAt(drafts, i)) == DropAt(Ids(drafts), i) && Distinct(Ids(DropAt(drafts, i)))
    ensures forall d :: d in DropAt(drafts, i) ==> d in drafts && d.id != drafts[i].id
  {
    DropAtDistinct(Ids(drafts), i);
    var rest := DropAt(drafts, i);
    assert Ids(rest) == DropAt(Ids(drafts), i);
    forall d | d in rest ensures d in drafts && d.id != drafts[i].id {
      var k :| 0 <= k < |rest| && rest[k] == d;
      assert d == drafts[if k < i then k else k + 1];
      assert d.id == Ids(rest)[k];
    }
  }

  /** A draft leaves the desk, for the references held or for good. */
  lemma DraftLeaves(s: Snap, desk: Desk, i: nat)
    requires DraftsOk(s, desk) && i < |desk.drafts|
    ensures var id := desk.drafts[i].id;
            && id in s.items && id !in s.links.table && id !in Ids(DropAt(desk.drafts, i))
            && (forall d :: d in DropAt(desk.drafts, i) ==> d.id != id)
            && DraftsOk(s, Desk(DropAt(desk.drafts, i), desk.held))
            && DraftsOk(s, Desk(DropAt(desk.drafts, i), desk.held + [id]))
  {
    hide IsBucket;
    assert desk.drafts[i] in desk.drafts;
    DropDraft(desk.drafts, i);
    DropAtDistinct(Ids(desk.drafts), i);
  }

  /** And its reference with it. */
  lemma DraftLeavesCount(desk: Desk, i: nat)
    requires i < |desk.drafts| && Distinct(Ids(desk.drafts))
    ensures var id, ids := desk.drafts[i].id, multiset(Ids(DropAt(desk.drafts, i)));
            && ids + multiset(desk.held + [id]) == multiset(Ids(desk.drafts)) + multiset(desk.held)
            && ids + multiset{id} == multiset(Ids(desk.drafts))
  {
    DropDraft(desk.drafts, i);
    DropAtCount(Ids(desk.drafts), i);
    var id := desk.drafts[i].id;
    assert multiset(desk.held + [id]) == multiset(desk.held) + multiset{id};
  }

  /** A new draft comes to the desk. */
  lemma DraftComes(s: Snap, desk: Desk, t: Snap, d: Draft)
    requires DraftsOk(s, desk) && Aside(CellsOf(s), CellsOf(t), {})
    requires d.id !in s.items && d.id in t.items && d.id !in t.links.table && d.id !in desk.held
    requires IsBucket(d.filed, t.items[d.id].expireTime, t.items[d.id].expirationId)
    ensures DraftsOk(t, desk.(drafts := desk.drafts + [d]))
    ensures multiset(Ids(desk.drafts + [d])) == multiset(Ids(desk.drafts)) + multiset{d.id}
  {
    hide IsBucket, Aside;
    DraftsKept(s, desk, t, {});
    var more := desk.drafts + [d];
    assert Ids(more) == Ids(desk.drafts) + [d.id];
    assert forall e :: e in more <==> e in desk.drafts || e == d;
  }

  /** A reference to a linked block comes to the desk. */
  lemma ReferenceComes(s: Snap, desk: Desk, t: Snap, id: Id, base: multiset<Id>)
    requires DeskOk(s, desk, base) && Aside(CellsOf(s), CellsOf(t), {}) && id in s.links.table
    requires t.refs.handles == s.refs.handles + multiset{id}
    ensures DeskOk(t, desk.(held := desk.held + [id]), base)
  {
    hide IsBucket, Aside;
    DraftsKept(s, desk, t, {});
    assert multiset(desk.held + [id]) == multiset(desk.held) + multiset{id};
  }

  /** A held reference is given back. */
  lemma ReferenceLeaves(s: Snap, desk: Desk, t: Snap, i: nat, base: multiset<Id>)
    requires DeskOk(s, desk, base) && i < |desk.held| && Aside(CellsOf(s), CellsOf(t), {desk.held[i]})
    requires t.refs.handles == s.refs.handles - multiset{desk.held[i]}
    ensures DeskOk(t, desk.(held := DropAt(desk.held, i)), base) && desk.held[i] in s.refs.handles
  {
    hide IsBucket, Aside;
    DropAtCount(desk.held, i);
    DraftsKept(s, desk, t, {desk.held[i]});
    assert desk.held[i] in multiset(desk.held);
  }

  // ---- The requests of an update ----

  /** A connection that closes leaves its draft behind, and the draft's reference is lost. */
  lemma DraftLost(s: Snap, desk: Desk, i: nat, base: multiset<Id>)
    requires DeskOk(s, desk, base) && i < |desk.drafts|
    ensures var id := desk.drafts[i].id;
            && id in s.refs.handles
            && forall t: Snap :: t == s.(refs := Refs(s.refs.handles - multiset{id}, t.refs.leaked)) ==>
                 DeskOk(t, desk.(drafts := DropAt(desk.drafts, i)), base)
  {
    hide IsBucket, Distinct;
    assert Distinct(Ids(desk.drafts));
    DraftLeaves(s, desk, i);
    DraftLeavesCount(desk, i);
  }

  lemma NoDrop<T>(s: seq<T>, i: nat)
    requires i >= |s|
    ensures DropAt(s, i) == s
  {
  }

  lemma NotYetHeld(s: Snap, desk: Desk, id: Id, base: multiset<Id>)
    requires SnapOk(s) && DeskOk(s, desk, base) && id !in s.items
    ensures id !in desk.held
  {
    hide LinksOk, PoolOk, ClockOk, StoreOf, DraftsOk;
    assert multiset(desk.held) <= s.refs.handles;
  }

  /** An allocation that succeeds puts a draft on the desk. */
  lemma DraftSteps(s: Snap, desk: Desk, r: Request, t: Snap, id: Option<Id>, base: multiset<Id>)
    requires SnapOk(s) && SnapOk(t) && DeskOk(s, desk, base) && Aside(CellsOf(s), CellsOf(t), {}) && r.DraftReq?
    requires t.store == s.store && t.clock == s.clock && t.lastTime == s.lastTime && t.watches == s.watches && Late(t) <= Late(s)
    requires t.exact == s.exact
    requires id.Some? <==> Manager.CanAlloc(s.pool, Manager.DraftSize(s.pool, r.nameLength, r.dataLength),
                                            Fresh(s.pool.capacity, r.block))
    requires t.refs == if id.Some? then s.refs.(handles := s.refs.handles + multiset{id.value}) else s.refs
    requires id.Some? ==>
               && id.value in t.items && id.value !in t.links.table && id.value !in s.items
               && t.items[id.value].key == Key(r.group, Manager.Blank(r.nameLength))
               && EntryOf(t.items[id.value]) ==
                    Entry(Manager.Blank(r.dataLength), r.flags, [], Realtime(s.clock.now, r.expiration), 0)
               && IsBucket(s.clock.now, t.items[id.value].expireTime, t.items[id.value].expirationId)
    ensures Served(s, desk, r, t, Drafted(desk, id, s.clock.now), base)
  {
    hide SnapOk, Late, DraftsOk, Aside, Manager.CanAlloc, IsBucket, Manager.DraftSize, Realtime;
    LosesNothing(s, desk, r);
    OthersStay(s, desk, r, t, {}, base);
    if id.Some? {
      NotYetHeld(s, desk, id.value, base);
      DraftComes(s, desk, t, Draft(id.value, s.clock.now));
    } else {
      DraftsKept(s, desk, t, {});
    }
  }

  function Drafted(desk: Desk, id: Option<Id>, now: nat): Desk {
    if id.Some? then desk.(drafts := desk.drafts + [Draft(id.value, now)]) else desk
  }

  method ServeDraft(m: Manager, r: Request, desk: Desk, ghost base: multiset<Id>) returns (desk': Desk)
    requires m.Valid() && DeskOk(SnapOf(m), desk, base) && r.DraftReq?
    modifies m
    ensures m.Valid() && Served(old(SnapOf(m)), desk, r, SnapOf(m), desk', base)
  {
    hide LinksOk, Counted, PoolOk, ClockOk, StoreOf, UnscheduledOf, DeskOk, Served, Aside, Manager.CanAlloc, IsBucket,
         Manager.DraftSize, Realtime;
    ghost var s := SnapOf(m);
    ValidSnap(m);
    var id, reason := m.DraftItem(r.group, r.nameLength, r.flags, r.expiration, r.dataLength, Fresh(m.pool.capacity, r.block));
    ValidSnap(m);
    desk' := Drafted(desk, id, m.clock.now);
    DraftSteps(s, desk, r, SnapOf(m), id, base);
  }

  method ServeAbandon(m: Manager, r: Request, desk: Desk, ghost base: multiset<Id>) returns (desk': Desk)
    requires m.Valid() && DeskOk(SnapOf(m), desk, base) && r.AbandonReq?
    modifies m
    ensures m.Valid() && Served(old(SnapOf(m)), desk, r, SnapOf(m), desk', base)
  {
    hide LinksOk, Counted, PoolOk, ClockOk, StoreOf, UnscheduledOf, DeskOk, Aside, DropAt;
    ghost var s := SnapOf(m);
    ValidSnap(m);
    assert m.refs.leaked + multiset{} == m.refs.leaked;
    desk' := desk;
    if r.i < |desk.drafts| {
      desk' := desk.(drafts := DropAt(desk.drafts, r.i));
      DraftLost(s, desk, r.i, base);
      m.Leak(desk.drafts[r.i].id);
      ValidSnap(m);
    } else {
      NoDrop(desk.drafts, r.i);
    }
  }

  lemma DraftFilled(s: Snap, desk: Desk, i: nat, t: Snap, base: multiset<Id>)
    requires DeskOk(s, desk, base) && i < |desk.drafts| && t.refs == s.refs && t.links == s.links
    requires var id := desk.drafts[i].id;
             && Aside(CellsOf(s), CellsOf(t), {id}) && id in s.items && id in t.items
             && t.items[id].expireTime == s.items[id].expireTime && t.items[id].expirationId == s.items[id].expirationId
    ensures DeskOk(t, desk, base)
  {
    hide IsBucket;
    forall d | d in desk.drafts
      ensures d.id in t.items && t.items[d.id].expireTime == s.items[d.id].expireTime && t.items[d.id].expirationId == s.items[d.id].expirationId
    {
    }
  }

  method ServeFill(m: Manager, r: Request, desk: Desk, ghost base: multiset<Id>)
    requires m.Valid() && DeskOk(SnapOf(m), desk, base) && r.FillReq?
    modifies m
    ensures m.Valid() && Served(old(SnapOf(m)), desk, r, SnapOf(m), desk, base)
  {
    hide LinksOk, Counted, PoolOk, ClockOk, StoreOf, UnscheduledOf, DeskOk, Aside;
    ghost var s := SnapOf(m);
    ValidSnap(m);
    assert m.refs.leaked + multiset{} == m.refs.leaked;
    if r.i < |desk.drafts| {
      DraftThere(s, desk, r.i, base);
      var id := desk.drafts[r.i].id;
      var it := m.items[id];
      if |r.name| == |it.key.name| && |r.data| == |it.data| {
        m.FillItem(id, r.name, r.data, it.cacheId);
        ValidSnap(m);
        DraftFilled(s, desk, r.i, SnapOf(m), base);
      }
    }
  }

  lemma DraftThere(s: Snap, desk: Desk, i: nat, base: multiset<Id>)
    requires DeskOk(s, desk, base) && i < |desk.drafts|
    ensures desk.drafts[i].id in s.items && desk.drafts[i].id !in s.links.table && desk.drafts[i].id in s.refs.handles
  {
    hide IsBucket, Distinct;
    assert desk.drafts[i] in desk.drafts;
    assert desk.drafts[i].id == Ids(desk.drafts)[i];
    assert Ids(desk.drafts)[i] in multiset(Ids(desk.drafts));
  }

  /** An update's references, by its code. */
  lemma UpdateLoses(s: Snap, desk: Desk, r: Request, refs: Refs, reason: Reason)
    requires r.SubmitReq? && r.i < |desk.drafts| && desk.drafts[r.i].id in s.items
    requires reason == Manager.Answer(s.store, OpOf(s, desk, r)).reason
    requires refs == if (r.u.AppendIt? || r.u.PrependIt?) && reason == Mismatch
                     then Manager.Leaking(s.refs, s.links, s.items[desk.drafts[r.i].id].key) else s.refs
    ensures refs == s.refs.(leaked := s.refs.leaked + Lost(s, desk, r))
  {
    hide Verdict, Effect, Manager.Leaking;
    if r.u.UnknownIt? {
      assert s.refs.leaked + multiset{} == s.refs.leaked;
    } else {
      LostIs(s, desk, r, OpOf(s, desk, r).value, refs);
    }
  }

  method ServeSubmit(m: Manager, r: Request, desk: Desk, ghost base: multiset<Id>) returns (desk': Desk)
    requires m.Valid() && DeskOk(SnapOf(m), desk, base) && r.SubmitReq?
    modifies m
    ensures m.Valid() && Served(old(SnapOf(m)), desk, r, SnapOf(m), desk', base)
  {
    hide LinksOk, Counted, PoolOk, ClockOk, StoreOf, UnscheduledOf, DeskOk, Aside, DropAt, Effect, Verdict, Lost;
    hide Manager.UpdateOp, Manager.Told, Spare, FiledIn;
    ghost var s := SnapOf(m);
    ValidSnap(m);
    desk' := desk;
    if r.i < |desk.drafts| {
      var id := desk.drafts[r.i].id;
      desk' := Desk(DropAt(desk.drafts, r.i), desk.held + [id]);
      DraftThere(s, desk, r.i, base);
      var it := m.items[id];
      m.FillItem(id, it.key.name, it.data, r.expected);
      assert m.items[id] == Submitted(s, desk, r.i, r.expected);
      ToldAside(s, m.items, id, it.key, DataUpdated);
      ghost var c := m.Blocks();
      var reason, cacheId := m.RunUpdate(r.u, id, r.watchId, Fresh(m.pool.capacity, r.block));
      AsideTwice(CellsOf(s), c, m.Blocks(), {id}, {id}, {id});
      ValidSnap(m);
      UpdateLoses(s, desk, r, m.refs, reason);
      DraftTurned(s, desk, r.i, SnapOf(m), base);
      OthersStay(s, desk, r, SnapOf(m), {id}, base);
    } else {
      LosesNothing(s, desk, r);
    }
  }

  /** What is written into a draft is of no interest to the watchers of what is stored. */
  lemma ToldAside(s: Snap, items: map<Id, Item>, id: Id, key: Key, notice: NotifyType)
    requires SnapOk(s) && id !in s.links.table && items.Keys == s.items.Keys
    requires forall i :: i in items && i != id ==> items[i] == s.items[i]
    ensures Manager.Told(items, s.links, s.watches, key, notice) == Manager.Told(s.items, s.links, s.watches, key, notice)
  {
    hide Filed, IdsIssued, Counted, PoolOk, ClockOk, StoreOf, Posted;
  }

  /** A draft becomes a reference to be given back. */
  lemma DraftTurned(s: Snap, desk: Desk, i: nat, t: Snap, base: multiset<Id>)
    requires DeskOk(s, desk, base) && i < |desk.drafts| && t.refs.handles == s.refs.handles
    requires Aside(CellsOf(s), CellsOf(t), {desk.drafts[i].id})
    ensures DeskOk(t, Desk(DropAt(desk.drafts, i), desk.held + [desk.drafts[i].id]), base)
  {
    hide IsBucket, Distinct, Aside, DropAt;
    assert Distinct(Ids(desk.drafts));
    DraftLeaves(s, desk, i);
    DraftLeavesCount(desk, i);
    DraftsKept(s, Desk(DropAt(desk.drafts, i), desk.held + [desk.drafts[i].id]), t, {desk.drafts[i].id});
  }

  // ---- The other requests ----

  /** A read that finds its key hands out a reference, and one that does not leaves the desk alone. */
  lemma ReadSteps(s: Snap, desk: Desk, r: Request, t: Snap, op: Op, id: Option<Id>, reason: Reason,
                  base: multiset<Id>)
    requires SnapOk(s) && SnapOk(t) && DeskOk(s, desk, base) && Aside(CellsOf(s), CellsOf(t), {})
    requires (r.GetReq? || r.TouchReq?) && t.clock == s.clock && t.lastTime == s.lastTime && WatchesMove(s, desk, r, t)
    requires OpOf(s, desk, r) == Some(op) && Outcome(t.store, reason) == Apply(s.store, op)
    requires reason == Success <==> id.Some?
    requires id.Some? ==> r.key in s.links.index && id.value == s.links.index[r.key]
    requires t.refs == if id.Some? then s.refs.(handles := s.refs.handles + multiset{id.value}) else s.refs
    requires ExactMoves(s, desk, r, t) && (r.GetReq? && id.Some? ==> t.links == s.links)
    requires r.TouchReq? && id.Some? && id.value in s.items ==>
               FiledIn(t.items, t.links, r.key, s.items[id.value].expirationId)
    requires Late(t) <= Late(s) + Stray(s, desk, r)
    ensures Served(s, desk, r, t, if id.Some? then desk.(held := desk.held + [id.value]) else desk, base)
  {
    hide LinksOk, Counted, PoolOk, ClockOk, StoreOf, Late, DeskOk, Aside, Effect, Verdict, Stray, ExactMoves, FiledIn, WatchesMove, DraftsStay;
    OthersStay(s, desk, r, t, {}, base);
    assert s.refs.leaked + multiset{} == s.refs.leaked;
    if id.Some? {
      IndexedLinked(s, r.key);
      ReferenceComes(s, desk, t, id.value, base);
    } else {
      assert desk.held + [] == desk.held;
      DeskKept(s, desk, t, base);
    }
  }

  method ServeRead(m: Manager, r: Request, desk: Desk, ghost base: multiset<Id>) returns (desk': Desk)
    requires m.Valid() && DeskOk(SnapOf(m), desk, base) && (r.GetReq? || r.TouchReq?)
    modifies m
    ensures m.Valid() && Served(old(SnapOf(m)), desk, r, SnapOf(m), desk', base)
  {
    hide LinksOk, Counted, PoolOk, ClockOk, StoreOf, UnscheduledOf, DeskOk, Aside, Apply, OnSchedule, Served;
    ghost var s := SnapOf(m);
    ValidSnap(m);
    var id, reason;
    match r {
      case GetReq(key, watchId) =>
        var expiration;
        id, expiration, reason := m.Get(key, watchId);
      case TouchReq(key, watchId, expiration) =>
        id, reason := m.GetTouch(key, watchId, expiration);
    }
    ValidSnap(m);
    desk' := if id.Some? then desk.(held := desk.held + [id.value]) else desk;
    ReadSteps(s, desk, r, SnapOf(m), OpOf(s, desk, r).value, id, reason, base);
  }

  lemma IndexedLinked(s: Snap, key: Key)
    requires SnapOk(s) && key in s.links.index
    ensures s.links.index[key] in s.links.table && s.links.index[key] in s.items
  {
    hide Filed, IdsIssued, Counted, PoolOk, ClockOk, StoreOf;
  }

  lemma DeskKept(s: Snap, desk: Desk, t: Snap, base: multiset<Id>)
    requires DeskOk(s, desk, base) && Aside(CellsOf(s), CellsOf(t), {}) && t.refs.handles == s.refs.handles
    ensures DeskOk(t, desk, base)
  {
    hide DraftsOk, Aside;
    DraftsKept(s, desk, t, {});
  }

  lemma ReleaseSteps(s: Snap, desk: Desk, r: Request, t: Snap, base: multiset<Id>)
    requires SnapOk(t) && DeskOk(s, desk, base) && r.ReleaseReq? && r.i < |desk.held|
    requires Aside(CellsOf(s), CellsOf(t), {desk.held[r.i]})
    requires t.refs == s.refs.(handles := s.refs.handles - multiset{desk.held[r.i]})
    requires t.store == s.store && t.clock == s.clock && t.lastTime == s.lastTime && t.watches == s.watches
    requires Late(t) == Late(s) && t.links == s.links && ExactMoves(s, desk, r, t)
    ensures Served(s, desk, r, t, desk.(held := DropAt(desk.held, r.i)), base)
  {
    hide SnapOk, Late, DeskOk, Aside, DropAt, ExactMoves, DraftsStay;
    LosesNothing(s, desk, r);
    ReferenceLeaves(s, desk, t, r.i, base);
    OthersStay(s, desk, r, t, {desk.held[r.i]}, base);
  }

  method ServeRelease(m: Manager, r: Request, desk: Desk, ghost base: multiset<Id>) returns (desk': Desk)
    requires m.Valid() && DeskOk(SnapOf(m), desk, base) && r.ReleaseReq?
    modifies m
    ensures m.Valid() && Served(old(SnapOf(m)), desk, r, SnapOf(m), desk', base)
  {
    hide LinksOk, Counted, PoolOk, ClockOk, StoreOf, UnscheduledOf, DeskOk, Aside, DropAt, Recount, Spare, SameTest;
    ghost var s := SnapOf(m);
    ValidSnap(m);
    LosesNothing(s, desk, r);
    if r.i < |desk.held| {
      hide Served;
      desk' := desk.(held := DropAt(desk.held, r.i));
      HeldCounts(s, desk, r.i, base);
      m.Release(desk.held[r.i]);
      ValidSnap(m);
      ReleaseSteps(s, desk, r, SnapOf(m), base);
    } else {
      desk' := desk;
      NoDrop(desk.held, r.i);
    }
  }

  lemma HeldCounts(s: Snap, desk: Desk, i: nat, base: multiset<Id>)
    requires DeskOk(s, desk, base) && i < |desk.held|
    ensures desk.held[i] in s.refs.handles
  {
    assert desk.held[i] in multiset(desk.held);
  }

  method ServeFlush(m: Manager, r: Request, desk: Desk, ghost base: multiset<Id>)
    requires m.Valid() && DeskOk(SnapOf(m), desk, base) && r.FlushReq?
    modifies m
    ensures m.Valid() && Served(old(SnapOf(m)), desk, r, SnapOf(m), desk, base)
  {
    hide LinksOk, Counted, PoolOk, ClockOk, StoreOf, UnscheduledOf, DeskOk, Aside, Served, Lost, Drop, GroupKeys, GroupSizes, Rung, Walk, OfGroup;
    ghost var s := SnapOf(m);
    ValidSnap(m);
    LosesNothing(s, desk, r);
    var count, bytes := m.Flush(r.group);
    ValidSnap(m);
    Settles(s, desk, r, SnapOf(m), base);
  }

  method ServeWatch(m: Manager, r: Request, desk: Desk, ghost base: multiset<Id>)
    requires m.Valid() && DeskOk(SnapOf(m), desk, base) && (r.WatchReq? || r.CheckWatchReq?)
    modifies m
    ensures m.Valid() && Served(old(SnapOf(m)), desk, r, SnapOf(m), desk, base)
  {
    hide LinksOk, Counted, PoolOk, ClockOk, StoreOf, UnscheduledOf, DeskOk, Aside, Served, Lost;
    ghost var s := SnapOf(m);
    ValidSnap(m);
    LosesNothing(s, desk, r);
    AsideNone(CellsOf(s));
    match r {
      case WatchReq(interval) => var watchId := m.CreateWatch(interval);
      case CheckWatchReq(watchId, interval) => var found := m.CheckWatch(watchId, interval);
    }
    ValidSnap(m);
    Settles(s, desk, r, SnapOf(m), base);
  }

  lemma TimeSteps(s: Snap, desk: Desk, r: Request, t: Snap, base: multiset<Id>)
    requires SnapOk(t) && DeskOk(s, desk, base) && Aside(CellsOf(s), CellsOf(t), {}) && t.refs == s.refs
    requires (r.TickReq? || r.CheckReq?) && t.store == EffectOf(s.store, OpOf(s, desk, r))
    requires ClockMoves(s, r, t) && WatchesMove(s, desk, r, t) && Late(t) <= Late(s) && ExactMoves(s, desk, r, t) && TableMoves(s, desk, r, t)
    ensures Served(s, desk, r, t, desk, base)
  {
    hide SnapOk, Late, EffectOf, DueNow, DeskOk, Aside, ClockMoves, WatchesMove, Lost;
    LosesNothing(s, desk, r);
    OthersStay(s, desk, r, t, {}, base);
    DeskKept(s, desk, t, base);
  }

  method ServeTime(m: Manager, r: Request, desk: Desk, ghost base: multiset<Id>)
    requires m.Valid() && DeskOk(SnapOf(m), desk, base) && (r.TickReq? || r.CheckReq?)
    modifies m
    ensures m.Valid() && Served(old(SnapOf(m)), desk, r, SnapOf(m), desk, base)
  {
    hide LinksOk, Counted, PoolOk, ClockOk, StoreOf, UnscheduledOf, DeskOk, Aside, DueNow, ExpiredKeys, Drop, Served, Rung, Walk, DueIds, Alive;
    ghost var s := SnapOf(m);
    ValidSnap(m);
    AsideNone(CellsOf(s));
    match r {
      case TickReq(wall) => m.SetCurrentTime(wall);
      case CheckReq => ghost var gone := m.CheckExpired();
    }
    ValidSnap(m);
    TimeSteps(s, desk, r, SnapOf(m), base);
  }

  // ---- Runs ----

  method Serve(m: Manager, r: Request, desk: Desk, ghost base: multiset<Id>) returns (desk': Desk)
    requires m.Valid() && DeskOk(SnapOf(m), desk, base)
    modifies m
    ensures m.Valid() && Served(old(SnapOf(m)), desk, r, SnapOf(m), desk', base)
  {
    hide Manager.ValidBut, DeskOk, Served;
    desk' := desk;
    match r
    case DraftReq(_, _, _, _, _, _) => desk' := ServeDraft(m, r, desk, base);
    case FillReq(_, _, _) => ServeFill(m, r, desk, base);
    case SubmitReq(_, _, _, _, _) => desk' := ServeSubmit(m, r, desk, base);
    case AbandonReq(_) => desk' := ServeAbandon(m, r, desk, base);
    case ReleaseReq(_) => desk' := ServeRelease(m, r, desk, base);
    case GetReq(_, _) => desk' := ServeRead(m, r, desk, base);
    case TouchReq(_, _, _) => desk' := ServeRead(m, r, desk, base);
    case FlushReq(_) => ServeFlush(m, r, desk, base);
    case WatchReq(_) => ServeWatch(m, r, desk, base);
    case CheckWatchReq(_, _) => ServeWatch(m, r, desk, base);
    case TickReq(_) => ServeTime(m, r, desk, base);
    case CheckReq => ServeTime(m, r, desk, base);
    case RemoveReq(_, _) => ServeChange(m, r, desk, base);
    case DeltaReq(_, _, _, _, _, _) => ServeChange(m, r, desk, base);
    case _ => ServeDetails(m, r, desk, base);
  }

  datatype Moment = Moment(snap: Snap, desk: Desk)

  /** The requests played, one after the other, from the first moment of the story to the last. */
  ghost predicate Played(story: seq<Moment>, requests: seq<Request>, base: multiset<Id>) {
    && |story| == |requests| + 1
    && (forall p :: p in story ==> SnapOk(p.snap) && DeskOk(p.snap, p.desk, base))
    && forall i :: 0 <= i < |requests| ==> Turned(story, requests, i)
  }

  ghost predicate Turned(story: seq<Moment>, requests: seq<Request>, i: nat)
    requires i < |requests| < |story|
  {
    Stepped(story[i].snap, story[i].desk, requests[i], story[i + 1].snap, story[i + 1].desk)
  }

  /** Serves any requests in any order; nothing is on the desk at first. */
  method Run(m: Manager, requests: seq<Request>) returns (desk: Desk, ghost story: seq<Moment>)
    requires m.Valid()
    modifies m
    ensures m.Valid() && Played(story, requests, old(m.refs.handles))
    ensures story[0] == Moment(old(SnapOf(m)), Desk([], [])) && story[|requests|] == Moment(SnapOf(m), desk)
  {
    hide Manager.ValidBut, DeskOk, SnapOk, Stepped;
    ghost var base := m.refs.handles;
    desk := Desk([], []);
    EmptyDesk(SnapOf(m), base);
    ValidSnap(m);
    story := [Moment(SnapOf(m), desk)];
    for n := 0 to |requests|
      invariant m.Valid() && Played(story, requests[..n], base)
      invariant story[0] == Moment(old(SnapOf(m)), Desk([], [])) && story[n] == Moment(SnapOf(m), desk)
    {
      ghost var s, was := SnapOf(m), desk;
      desk := Serve(m, requests[n], desk, base);
      PlayedOn(story, requests[..n], requests[n], Moment(SnapOf(m), desk), base);
      assert requests[..n + 1] == requests[..n] + [requests[n]];
      story := story + [Moment(SnapOf(m), desk)];
    }
    assert requests[..|requests|] == requests;
  }

  lemma EmptyDesk(s: Snap, base: multiset<Id>)
    requires s.refs.handles == base
    ensures DeskOk(s, Desk([], []), base)
  {
    assert base + multiset(Ids([])) + multiset([]) == base;
  }

  lemma PlayedOn(story: seq<Moment>, requests: seq<Request>, r: Request, p: Moment, base: multiset<Id>)
    requires Played(story, requests, base)
    requires var q := story[|requests|]; Served(q.snap, q.desk, r, p.snap, p.desk, base)
    ensures Played(story + [p], requests + [r], base)
  {
    hide SnapOk, DeskOk, Stepped;
    forall i | 0 <= i < |requests| + 1 ensures Turned(story + [p], requests + [r], i) {
      assert i < |requests| ==> Turned(story, requests, i);
    }
  }

  // ---- What holds of every run ----

  function OneOrNone(op: Option<Op>): seq<Op> {
    if op.Some? then [op.value] else []
  }

  /** The steps on the map that the first `n` requests ask for. */
  ghost function Trace(story: seq<Moment>, requests: seq<Request>, n: nat): seq<Op>
    requires n <= |requests| < |story|
  {
    if n == 0 then [] else Trace(story, requests, n - 1) + OneOrNone(OpOf(story[n - 1].snap, story[n - 1].desk, requests[n - 1]))
  }

  lemma AfterOne(st: Store, prior: seq<Op>, op: Option<Op>)
    ensures After(st, prior + OneOrNone(op)) == EffectOf(After(st, prior), op)
  {
    hide Effect;
    if op.Some? { assert (prior + [op.value])[..|prior|] == prior; } else { assert prior + [] == prior; }
  }

  lemma {:induction false} TraceBegins(story: seq<Moment>, requests: seq<Request>, i: nat, n: nat)
    requires i <= n <= |requests| < |story|
    ensures Trace(story, requests, i) <= Trace(story, requests, n)
    decreases n
  {
    hide OpOf;
    if i < n { TraceBegins(story, requests, i, n - 1); }
  }

  /** The trace holds each request's step where the trace of the requests before it ends. */
  lemma TraceHas(story: seq<Moment>, requests: seq<Request>, i: nat, n: nat)
    requires i < n <= |requests| < |story| && OpOf(story[i].snap, story[i].desk, requests[i]).Some?
    ensures var a, trace := Trace(story, requests, i), Trace(story, requests, n);
            && |a| < |trace| && trace[..|a|] == a
            && trace[|a|] == OpOf(story[i].snap, story[i].desk, requests[i]).value
  {
    hide OpOf;
    TraceBegins(story, requests, i + 1, n);
  }

  lemma TraceHasBoth(story: seq<Moment>, requests: seq<Request>, i: nat, j: nat)
    requires i < j < |requests| < |story|
    requires OpOf(story[i].snap, story[i].desk, requests[i]).Some? && OpOf(story[j].snap, story[j].desk, requests[j]).Some?
    ensures var a, b, trace := |Trace(story, requests, i)|, |Trace(story, requests, j)|, Trace(story, requests, j + 1);
            && a < b < |trace| && trace[..a] == Trace(story, requests, i) && trace[..b] == Trace(story, requests, j)
            && trace[a] == OpOf(story[i].snap, story[i].desk, requests[i]).value
            && trace[b] == OpOf(story[j].snap, story[j].desk, requests[j]).value
  {
    hide OpOf, Trace;
    TraceHas(story, requests, i, j);
    TraceHas(story, requests, i, j + 1);
    TraceHas(story, requests, j, j + 1);
  }

  /** Every run of the manager is a run of the map's steps, those its requests ask for. */
  lemma {:induction false} TraceIsTheRun(story: seq<Moment>, requests: seq<Request>, base: multiset<Id>, n: nat)
    requires Played(story, requests, base) && n <= |requests|
    ensures After(story[0].snap.store, Trace(story, requests, n)) == story[n].snap.store
    decreases n
  {
    hide OpOf, SnapOk, DeskOk, Effect, DeskMoves, ClockMoves, WatchesMove, ExactMoves, TableMoves, Lost, Late, Stray;
    if n > 0 {
      TraceIsTheRun(story, requests, base, n - 1);
      assert Turned(story, requests, n - 1);
      AfterOne(story[0].snap.store, Trace(story, requests, n - 1), OpOf(story[n - 1].snap, story[n - 1].desk, requests[n - 1]));
    }
  }

  lemma SnapVersioned(s: Snap)
    requires SnapOk(s)
    ensures Versioned(s.store)
  {
    hide Filed, Counted, PoolOk, ClockOk;
    StoreVersioned(s.items, s.links);
  }

  lemma StartVersioned(story: seq<Moment>, requests: seq<Request>, base: multiset<Id>)
    requires Played(story, requests, base)
    ensures |story| == |requests| + 1 && Versioned(story[0].snap.store)
  {
    hide SnapOk, DeskOk, Versioned, Turned;
    assert story[0] in story;
    SnapVersioned(story[0].snap);
  }

  /** Ids only grow: from one moment to any later one, an old id is gone or still names untouched content. */
  lemma RunIsLater(story: seq<Moment>, requests: seq<Request>, base: multiset<Id>, i: nat, j: nat)
    requires Played(story, requests, base) && i <= j <= |requests|
    ensures Versioned(story[j].snap.store) && Later(story[i].snap.store, story[j].snap.store)
  {
    hide SnapOk, DeskOk, Versioned, Later, Turned;
    var trace, prefix := Trace(story, requests, j), Trace(story, requests, i);
    StartVersioned(story, requests, base);
    TraceBegins(story, requests, i, j);
    TraceIsTheRun(story, requests, base, i);
    TraceIsTheRun(story, requests, base, j);
    assert trace[..|prefix|] == prefix;
    RunKeepsVersions(story[0].snap.store, trace, |prefix|);
  }

  /** Whatever is asked of the manager, an id seen at two moments is seen under one key and with one content. */
  lemma IdNamesContent(story: seq<Moment>, requests: seq<Request>, base: multiset<Id>, i: nat, j: nat, k: Key, l: Key)
    requires Played(story, requests, base) && i <= j <= |requests|
    requires k in story[i].snap.store.entries && l in story[j].snap.store.entries
    requires story[i].snap.store.entries[k].version == story[j].snap.store.entries[l].version
    ensures k == l && SameContent(story[i].snap.store.entries[k], story[j].snap.store.entries[l])
  {
    hide SnapOk, DeskOk, Turned;
    RunIsLater(story, requests, base, i, i);
    RunIsLater(story, requests, base, i, j);
  }

  /** The request at hand changes a present entry, and does so on the strength of the id `v`. */
  ghost predicate Spends(story: seq<Moment>, requests: seq<Request>, i: nat, v: nat)
    requires i < |requests| < |story|
  {
    var op := OpOf(story[i].snap, story[i].desk, requests[i]);
    op.Some? && UsesId(story[i].snap.store, op.value, v)
  }

  /** Whatever is asked of the manager, one id authorises at most one change. */
  lemma IdSpentOnce(story: seq<Moment>, requests: seq<Request>, base: multiset<Id>, i: nat, j: nat, v: nat)
    requires Played(story, requests, base) && i < j < |requests|
    requires Spends(story, requests, i, v)
    ensures !Spends(story, requests, j, v)
  {
    hide Played, Versioned, UsesId, OpOf, Trace, After;
    StartVersioned(story, requests, base);
    TraceIsTheRun(story, requests, base, i);
    TraceIsTheRun(story, requests, base, j);
    if Spends(story, requests, j, v) {
      TraceHasBoth(story, requests, i, j);
      IdAuthorisesOnce(story[0].snap.store, Trace(story, requests, j + 1), |Trace(story, requests, i)|, |Trace(story, requests, j)|, v);
    }
  }

  /** The references lost by the first `n` requests. */
  ghost function LostBy(story: seq<Moment>, requests: seq<Request>, n: nat): multiset<Id>
    requires n <= |requests| < |story|
  {
    if n == 0 then multiset{} else LostBy(story, requests, n - 1) + Lost(story[n - 1].snap, story[n - 1].desk, requests[n - 1])
  }

  /** References are lost by mismatches and abandoned drafts, and by nothing else. */
  lemma {:induction false} LeakedExactly(story: seq<Moment>, requests: seq<Request>, base: multiset<Id>, n: nat)
    requires Played(story, requests, base) && n <= |requests|
    ensures story[n].snap.refs.leaked == story[0].snap.refs.leaked + LostBy(story, requests, n)
    decreases n
  {
    hide OpOf, SnapOk, DeskOk, EffectOf, DeskMoves, ClockMoves, WatchesMove, ExactMoves, TableMoves, Lost, Late, Stray;
    if n > 0 {
      LeakedExactly(story, requests, base, n - 1);
      assert Turned(story, requests, n - 1);
    }
  }

  /** When every client has given everything back and nothing was lost, the blocks in use are those linked, with one reference each. */
  lemma AllReturned(s: Snap)
    requires SnapOk(s) && DeskOk(s, Desk([], []), multiset{}) && s.refs.leaked == multiset{}
    ensures s.items.Keys == s.links.table && forall i :: i in s.items ==> s.items[i].refCount == 1
  {
    hide Indexed, IdsIssued, PoolOk, ClockOk, StoreOf;
  }

  /** A draft strays only if a sweep has been completed since it was allocated. */
  lemma PunctualSubmit(s: Snap, desk: Desk, r: Request, base: multiset<Id>)
    requires SnapOk(s) && DeskOk(s, desk, base) && r.SubmitReq?
    requires r.i < |desk.drafts| && s.clock.lastSweep <= desk.drafts[r.i].filed
    ensures Stray(s, desk, r) == {}
  {
    hide LinksOk, Counted, PoolOk, StoreOf, IsBucket, Scheduled;
    var d := desk.drafts[r.i];
    var it := s.items[d.id];
    FilingSchedules(s.clock.checkTime, s.clock.lastSweep, d.filed, it.expireTime, it.expirationId);
  }

  /** The requests up to the `n`th put no item off schedule. */
  ghost predicate Punctual(story: seq<Moment>, requests: seq<Request>, n: nat)
    requires n <= |requests| < |story|
  {
    Late(story[0].snap) == {} && forall i :: 0 <= i < n ==> Stray(story[i].snap, story[i].desk, requests[i]) == {}
  }

  lemma {:induction false} StaysPunctual(story: seq<Moment>, requests: seq<Request>, base: multiset<Id>, n: nat)
    requires Played(story, requests, base) && n <= |requests| && Punctual(story, requests, n)
    ensures Late(story[n].snap) == {}
    decreases n
  {
    hide OpOf, SnapOk, DeskOk, EffectOf, DeskMoves, ClockMoves, WatchesMove, ExactMoves, TableMoves, Lost, Late, Stray;
    if n > 0 {
      StaysPunctual(story, requests, base, n - 1);
      assert Turned(story, requests, n - 1);
    }
  }

  /**
   Although a check visits few of the lists, in a punctual run it is a full scan: it removes exactly the entries expired
   at the manager's second, and afterwards none is left.
   */
  lemma ChecksAreFullScans(story: seq<Moment>, requests: seq<Request>, base: multiset<Id>, i: nat)
    requires Played(story, requests, base) && i < |requests| && Punctual(story, requests, i)
    requires requests[i].CheckReq? && story[i].snap.clock.lastCheck != story[i].snap.clock.now
    ensures var s, t := story[i].snap, story[i + 1].snap;
            && t.store == Drop(s.store, ExpiredKeys(s.store, s.clock.now))
            && forall k :: k in t.store.entries ==> !CacheSpec.Expired(t.store.entries[k], t.clock.now)
  {
    hide Counted, PoolOk, DeskOk, LinksOk, Late, Stray, DeskMoves, WatchesMove, Lost, DueKeys;
    var s := story[i].snap;
    StaysPunctual(story, requests, base, i);
    assert Turned(story, requests, i) && story[i] in story;
    DueAreExpired(s);
  }

  lemma DueAreExpired(s: Snap)
    requires SnapOk(s) && Late(s) == {} && s.clock.lastCheck != s.clock.now
    ensures DueNow(Start(s.items, s.links, s.clock)) == ExpiredKeys(s.store, s.clock.now)
  {
    hide LinksOk, Counted, PoolOk, DueKeys;
    DueKeysAreExpired(Start(s.items, s.links, s.clock));
  }

  // ---- The counts have 16 bits ----

  lemma CountFits(s: Snap, id: Id)
    requires SnapOk(s) && Spare(s.refs, 1) && id in s.items
    ensures SameTest(s.items[id].refCount)
  {
    hide LinksOk, PoolOk, ClockOk, StoreOf, SameTest;
    assert s.refs.handles[id] + s.refs.leaked[id] + 1 < COUNT_SPAN;
    SameTestExactly(s.items[id].refCount);
  }

  /**
   As long as no block has 2^16 - 1 references held and lost when a request begins, every test that the run makes of a
   16-bit count tells what the whole count tells: blocks are freed when the model says.
   */
  lemma {:induction false} RunIsExact(story: seq<Moment>, requests: seq<Request>, base: multiset<Id>, n: nat)
    requires Played(story, requests, base) && n <= |requests| && story[0].snap.exact
    requires forall i :: 0 <= i < n ==> Spare(story[i].snap.refs, 1)
    ensures story[n].snap.exact
    decreases n
  {
    hide OpOf, SnapOk, DeskOk, EffectOf, DeskMoves, ClockMoves, WatchesMove, TableMoves, Lost, Late, Stray, Spare, SameTest;
    if n > 0 {
      RunIsExact(story, requests, base, n - 1);
      assert Turned(story, requests, n - 1) && story[n - 1] in story;
      var p, r := story[n - 1], requests[n - 1];
      if r.ReleaseReq? && r.i < |p.desk.held| && p.desk.held[r.i] in p.snap.items { CountFits(p.snap, p.desk.held[r.i]); }
    }
  }

  /** A change of flags that names another id than the entry's. */
  predicate Misnamed(r: Request, key: Key, st: Store) {
    r.FlagsReq? && r.key == key && key in st.entries && r.expected != 0 && r.expected != st.entries[key].version
  }

  lemma MisnamedLoses(s: Snap, desk: Desk, r: Request, t: Snap, desk': Desk, key: Key)
    requires Misnamed(r, key, s.store) && key in s.links.index && Stepped(s, desk, r, t, desk')
    ensures t.store == s.store && t.links == s.links && desk' == desk && t.clock == s.clock
    ensures t.refs.leaked == s.refs.leaked + multiset{s.links.index[key]}
  {
    hide Late, Stray, ExactMoves, WatchesMove;
  }

  /** Each of them loses one more reference to the same block. */
  lemma {:induction false} MismatchesLose(story: seq<Moment>, requests: seq<Request>, base: multiset<Id>, key: Key, n: nat)
    requires Played(story, requests, base) && n <= |requests|
    requires key in story[0].snap.links.index
    requires forall i :: 0 <= i < n ==> Misnamed(requests[i], key, story[0].snap.store)
    ensures var s, t, id := story[0].snap, story[n].snap, story[0].snap.links.index[key];
            && t.store == s.store && t.links == s.links && story[n].desk == story[0].desk && t.clock == s.clock
            && t.refs.leaked[id] == s.refs.leaked[id] + n
    decreases n
  {
    hide SnapOk, DeskOk, Stepped, Misnamed;
    if n > 0 {
      MismatchesLose(story, requests, base, key, n - 1);
      assert Turned(story, requests, n - 1);
      var p, q := story[n - 1], story[n];
      MisnamedLoses(p.snap, p.desk, requests[n - 1], q.snap, q.desk, key);
    }
  }

  /**
   Without that the code and the model part: 65535 refused changes of flags of one entry, a lookup and its release, and
   the 16-bit count of the entry's block has come round, so that the release frees a block that is linked.
   */
  lemma CountComesRound(story: seq<Moment>, requests: seq<Request>, key: Key)
    requires Played(story, requests, multiset{}) && |requests| == 0x1_0001
    requires story[0].desk == Desk([], []) && story[0].snap.refs.leaked == multiset{}
    requires key in story[0].snap.store.entries && !CacheSpec.Expired(story[0].snap.store.entries[key], story[0].snap.clock.now)
    requires forall i :: 0 <= i < 0xFFFF ==> Misnamed(requests[i], key, story[0].snap.store)
    requires requests[0xFFFF] == GetReq(key, 0) && requests[0x1_0000] == ReleaseReq(0)
    ensures !story[0x1_0001].snap.exact
    ensures var before := story[0x1_0000];
            && |before.desk.held| == 1
            && var id := before.desk.held[0];
               id in before.snap.links.table && id in before.snap.items && before.snap.items[id].refCount == 0x1_0001
  {
    hide SnapOk, DeskOk, Stepped, Misnamed;
    assert story[0] in story && story[0xFFFF] in story && story[0x1_0000] in story;
    StoredIsIndexed(story[0].snap, key);
    MismatchesLose(story, requests, multiset{}, key, 0xFFFF);
    assert Turned(story, requests, 0xFFFF) && Turned(story, requests, 0x1_0000);
    var p, q := story[0xFFFF], story[0x1_0000];
    LookupSteps(p.snap, p.desk, GetReq(key, 0), q.snap, q.desk);
    CountOf(q.snap, q.desk, story[0].snap.links.index[key]);
    LastSteps(q.snap, q.desk, story[0x1_0001].snap, story[0x1_0001].desk);
  }

  lemma StoredIsIndexed(s: Snap, key: Key)
    requires SnapOk(s) && key in s.store.entries
    ensures key in s.links.index && s.links.index[key] in s.links.table && s.links.index[key] in s.items
  {
    hide Filed, IdsIssued, Counted, PoolOk, ClockOk;
  }

  lemma LookupSteps(s: Snap, desk: Desk, r: Request, t: Snap, desk': Desk)
    requires Stepped(s, desk, r, t, desk') && r.GetReq? && r.watchId == 0 && r.key in s.links.index
    requires r.key in s.store.entries && !CacheSpec.Expired(s.store.entries[r.key], s.clock.now)
    ensures t.links == s.links && desk' == desk.(held := desk.held + [s.links.index[r.key]])
    ensures t.refs.leaked == s.refs.leaked
  {
    hide Late, Stray, ExactMoves, WatchesMove, ClockMoves;
    LosesNothing(s, desk, r);
  }

  lemma CountOf(s: Snap, desk: Desk, id: Id)
    requires SnapOk(s) && DeskOk(s, desk, multiset{}) && desk == Desk([], [id]) && id in s.links.table
    ensures id in s.items && s.items[id].refCount == 2 + s.refs.leaked[id]
  {
    hide Indexed, IdsIssued, PoolOk, ClockOk, StoreOf;
    assert multiset{} + multiset(Ids([])) + multiset([id]) == multiset{id};
  }

  lemma LastSteps(s: Snap, desk: Desk, t: Snap, desk': Desk)
    requires Stepped(s, desk, ReleaseReq(0), t, desk') && desk.held != [] && desk.held[0] in s.items
    requires s.items[desk.held[0]].refCount == 0x1_0001
    ensures !t.exact
  {
    hide Late, Stray, WatchesMove, ClockMoves, OpOf, DeskMoves, TableMoves, Lost;
  }
}
