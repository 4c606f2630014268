/**
 The parts of the cache manager's state and of its invariant, and what its elementary updates do to them.
 Blocks of memory are named by their address.
 */
module CacheState {
  import opened Basics
  import opened CacheSpec
  import opened ExpiryWheel
  import opened SizeClasses

  type Id = nat

  /** A block in use. The count of references is whole here; what its 16 bits tell is treated below. */
  datatype Item = Item(
    key: Key, data: seq<byte>, ext: seq<byte>, flags: nat, expireTime: nat, cacheId: nat, lastUpdate: nat,
    refCount: nat, classId: nat, expirationId: nat, watchers: set<nat>)

  /** The hash table, as the set of its blocks and as the map from keys to them; the 34 expiry lists; the last cache id. */
  datatype Links = Links(table: set<Id>, lists: seq<seq<Id>>, index: map<Key, Id>, lastId: nat)

  /** The free lists and the memory account; `home` and `capacity` record each block's class and allocated size. */
  datatype Pool = Pool(
    header: nat, free: seq<seq<Id>>, home: map<Id, nat>, capacity: map<Id, nat>,
    maxSize: seq<nat>, last: nat, hint: nat, freeMax: seq<nat>, used: nat, limit: nat)

  /** The current second, that of the last expiry check and of the last completed sweep, and the bucket schedule. */
  datatype Clock = Clock(now: nat, lastCheck: nat, lastSweep: nat, checkTime: seq<nat>)

  /** References held by callers, and references no one will give back. */
  datatype Refs = Refs(handles: multiset<Id>, leaked: multiset<Id>)

  /** The blocks in use, and those of them that are linked. */
  datatype Cells = Cells(items: map<Id, Item>, table: set<Id>)

  /** Blocks outside the table are left as they were and outside, but for those named. */
  ghost predicate Aside(a: Cells, b: Cells, but: set<Id>) {
    forall i :: i in a.items && i !in a.table && i !in but ==> i in b.items && b.items[i] == a.items[i] && i !in b.table
  }

  /** Two changes in a row, where what the second names is named, linked or not there yet. */
  lemma AsideTwice(a: Cells, b: Cells, c: Cells, e: set<Id>, f: set<Id>, but: set<Id>)
    requires Aside(a, b, e) && Aside(b, c, f)
    requires forall i :: (i in e || i in f) && i in a.items && i !in a.table ==> i in but
    ensures Aside(a, c, but)
  {
  }

  lemma AsideNone(a: Cells)
    ensures forall but :: Aside(a, a, but)
  {
  }

  lemma AsideLess(a: Cells, b: Cells, e: set<Id>, but: set<Id>)
    requires Aside(a, b, e) && e <= but
    ensures Aside(a, b, but)
  {
  }

  datatype NotifyType = BaseInfoUpdated | DataUpdated | Deleted | Expired | Flushed

  datatype Event = Event(cacheId: nat, notice: NotifyType)

  /** A watch: when it lapses, and every notification posted to it so far. */
  datatype Watch = Watch(expireTime: nat, posted: seq<Event>)

  /** Sizes are counted in 32 bits. */
  const SIZE_SPAN: nat := 0x1_0000_0000

  function EntryOf(it: Item): Entry {
    Entry(it.data, it.flags, it.ext, it.expireTime, it.cacheId)
  }

  function ItemSize(header: nat, key: Key, data: seq<byte>, ext: seq<byte>): nat {
    header + |key.name| + |data| + |ext|
  }

  function TotalSize(header: nat, it: Item): nat {
    ItemSize(header, it.key, it.data, it.ext)
  }

  /** A linked item is exactly once in the expiry list it names, and the lists hold nothing else. */
  ghost predicate Filed(items: map<Id, Item>, l: Links) {
    && |l.lists| == FOREVER + 1
    && l.table <= items.Keys
    && (forall i :: i in items ==> items[i].expirationId <= FOREVER)
    && (forall i :: i in l.table ==> i in l.lists[items[i].expirationId])
    && (forall b, i :: 0 <= b <= FOREVER && i in l.lists[b] ==> i in l.table && items[i].expirationId == b)
    && (forall b :: 0 <= b <= FOREVER ==> Distinct(l.lists[b]))
  }

  /** The index leads from each key to the one linked item that carries it. */
  ghost predicate Indexed(items: map<Id, Item>, l: Links) {
    && l.table <= items.Keys
    && (forall i :: i in l.table ==> items[i].key in l.index && l.index[items[i].key] == i)
    && forall k :: k in l.index ==> l.index[k] in l.table && items[l.index[k]].key == k
  }

  /** Linked items carry issued ids, no two the same. */
  ghost predicate IdsIssued(items: map<Id, Item>, l: Links) {
    && l.table <= items.Keys
    && (forall i :: i in l.table ==> 0 < items[i].cacheId <= l.lastId)
    && forall i, j :: i in l.table && j in l.table && items[i].cacheId == items[j].cacheId ==> i == j
  }

  ghost predicate LinksOk(items: map<Id, Item>, l: Links) {
    Filed(items, l) && Indexed(items, l) && IdsIssued(items, l)
  }

  /**
   Each block in use is referred to, and its count is the number of references: one for the table, the handles
   given out, the references lost, and those in `extra`, which a running operation is about to give back.
   */
  ghost predicate Counted(items: map<Id, Item>, table: set<Id>, refs: Refs, extra: multiset<Id>) {
    && (forall i :: i in refs.handles || i in refs.leaked || i in extra ==> i in items)
    && forall i :: i in items ==>
         && items[i].refCount > 0
         && items[i].refCount == (if i in table then 1 else 0) + refs.handles[i] + refs.leaked[i] + extra[i]
  }

  /** The free lists hold each free block once, in the list of the class that `home` names. */
  ghost predicate Shelved(free: seq<seq<Id>>, home: map<Id, nat>) {
    && |free| == CLASSID_MAX
    && (forall i :: i in home ==> home[i] < CLASSID_MAX && i in free[home[i]])
    && (forall c, i :: 0 <= c < CLASSID_MAX && i in free[c] ==> i in home && home[i] == c)
    && (forall c :: 0 <= c < CLASSID_MAX ==> Distinct(free[c]))
  }

  /**
   A live block is either in use or free, has the size of its class, and is big enough for what it holds if the size
   of that can be told in 32 bits.
   */
  ghost predicate Sized(items: map<Id, Item>, p: Pool) {
    && p.last < |p.maxSize|
    && p.capacity.Keys == items.Keys + p.home.Keys
    && (forall i :: i in p.home ==> i !in items && 1 <= p.home[i] <= p.last && p.capacity[i] == p.maxSize[p.home[i]])
    && forall i :: i in items ==>
         && 1 <= items[i].classId <= p.last
         && p.capacity[i] == p.maxSize[items[i].classId]
         && (TotalSize(p.header, items[i]) < SIZE_SPAN ==> TotalSize(p.header, items[i]) <= p.capacity[i])
  }

  ghost predicate TableOk(p: Pool) {
    && p.last < |p.maxSize| == |p.free| == |p.freeMax| == CLASSID_MAX
    && Increasing(p.maxSize, p.last) && p.hint <= p.last && p.header > 0
  }

  /** Every live block is accounted for, in use or free, within the limit. */
  ghost predicate PoolOk(items: map<Id, Item>, p: Pool) {
    && Shelved(p.free, p.home) && Sized(items, p) && TableOk(p)
    && p.used == Sum(p.capacity) && p.used <= p.limit
  }

  /** Same limits and size table. */
  predicate SamePlan(p: Pool, q: Pool) {
    q == p.(free := q.free, home := q.home, capacity := q.capacity, hint := q.hint, used := q.used)
  }

  ghost predicate ClockOk(c: Clock) {
    Paced(c.checkTime, c.lastSweep) && c.lastSweep <= c.lastCheck <= c.now
  }

  /** The clock after a sweep: the lists visited are next visited their span later, the others when they were to be. */
  function Swung(c: Clock): Clock {
    c.(checkTime := seq(|c.checkTime|, b requires 0 <= b < |c.checkTime| => NextVisit(c.checkTime[b], c.now, b)),
       lastCheck := c.now, lastSweep := c.now)
  }

  /** The map the clients see. */
  ghost function StoreOf(items: map<Id, Item>, l: Links): Store
    requires LinksOk(items, l)
  {
    Store(map k | k in l.index :: EntryOf(items[l.index[k]]), l.lastId)
  }

  /** Such a map is one to which the theorems about runs apply. */
  lemma StoreVersioned(items: map<Id, Item>, l: Links)
    requires LinksOk(items, l)
    ensures Versioned(StoreOf(items, l))
  {
    hide Filed;
    var st := StoreOf(items, l);
    forall j, k | j in st.entries && k in st.entries && j != k ensures st.entries[j].version != st.entries[k].version {
      assert l.index[j] != l.index[k];
    }
  }

  predicate OnSchedule(it: Item, c: Clock) {
    Scheduled(it.expirationId, it.expireTime, c.checkTime, c.lastSweep)
  }

  /** The linked items whose bucket does not guarantee their timely removal. */
  ghost function UnscheduledOf(items: map<Id, Item>, table: set<Id>, c: Clock): set<Id> {
    set i | i in table && i in items && !OnSchedule(items[i], c)
  }

  /** The item stored under a key is filed in bucket `b`. */
  ghost predicate FiledIn(items: map<Id, Item>, l: Links, key: Key, b: nat) {
    key in l.index && l.index[key] in items && items[l.index[key]].expirationId == b
  }

  /** Posts one event to every living watch among `ids`. */
  function Posted(watches: map<nat, Watch>, ids: set<nat>, e: Event): map<nat, Watch> {
    map w | w in watches :: if w in ids then watches[w].(posted := watches[w].posted + [e]) else watches[w]
  }

  lemma PostedNone(watches: map<nat, Watch>, e: Event)
    ensures Posted(watches, {}, e) == watches
  {
  }

  /** The blocks after one of them has been left with `n` references. */
  function Recount(items: map<Id, Item>, id: Id, n: nat): map<Id, Item>
    requires id in items
  {
    if n == 0 then items - {id} else items[id := items[id].(refCount := n)]
  }

  lemma RecountSelf(items: map<Id, Item>, id: Id)
    ensures forall n: nat :: id in items && id in Recount(items, id, n) ==> Recount(items, id, n)[id] == items[id].(refCount := n)
  {
  }

  /** A block as `do_link` leaves it. */
  function Linked(it: Item, cacheId: nat, now: nat): Item {
    it.(cacheId := cacheId, lastUpdate := now, refCount := it.refCount + 1)
  }

  /** A block with content changed in place under a fresh id. */
  predicate ChangedItem(was: Item, it: Item) {
    && it.key == was.key && it.expirationId == was.expirationId && it.expireTime == was.expireTime
    && it.classId == was.classId && it.refCount == was.refCount && |it.data| == |was.data| && it.ext == was.ext
  }

  // ---- The empty cache ----

  function Empties(n: nat): (r: seq<seq<Id>>)
    ensures |r| == n && forall k :: 0 <= k < n ==> r[k] == []
  {
    seq(n, _ => [])
  }

  function NoLinks(): Links { Links({}, Empties(34), map[], 0) }

  /** How many free blocks each class keeps: about a megabyte's worth, at most 1000, and none of the last class. */
  function FreeCounts(maxSize: seq<nat>, last: nat): (r: seq<nat>)
    ensures |r| == |maxSize|
  {
    seq(|maxSize|, c requires 0 <= c < |maxSize| =>
      if 0 < c < last && maxSize[c] > 0 then (if 1048576 / maxSize[c] > 1000 then 1000 else 1048576 / maxSize[c]) else 0)
  }

  /** As many as make up a megabyte, a thousand at most; none of the last class. */
  lemma FreeCountsMean(maxSize: seq<nat>, last: nat)
    ensures forall c :: 0 < c < last && c < |maxSize| && maxSize[c] > 0 ==>
              var n := FreeCounts(maxSize, last)[c];
              n <= 1000 && n * maxSize[c] <= 0x10_0000 && (n == 1000 || (n + 1) * maxSize[c] > 0x10_0000)
    ensures last < |maxSize| ==> FreeCounts(maxSize, last)[last] == 0
  {
    forall c | 0 < c < last && c < |maxSize| && maxSize[c] > 0
      ensures var n := FreeCounts(maxSize, last)[c];
              n <= 1000 && n * maxSize[c] <= 0x10_0000 && (n == 1000 || (n + 1) * maxSize[c] > 0x10_0000)
    {
      var q, m := 0x10_0000 / maxSize[c], maxSize[c];
      assert q * m <= 0x10_0000 < (q + 1) * m;
      if q > 1000 { assert 1000 * m <= q * m; }
    }
  }

  function NewPool(header: nat, limit: nat, maxSize: seq<nat>, last: nat): Pool {
    Pool(header, Empties(CLASSID_MAX), map[], map[], maxSize, last, CLASSID_MIN, FreeCounts(maxSize, last), 0, limit)
  }

  function NewClock(): Clock { Clock(8, 0, 0, seq(33, _ => 0)) }

  lemma EmptyPool(p: Pool)
    requires p == NewPool(p.header, p.limit, p.maxSize, p.last)
    requires p.header > 0 && |p.maxSize| == CLASSID_MAX && Increasing(p.maxSize, p.last)
    ensures PoolOk(map[], p)
  {
    hide Empties, FreeCounts;
  }

  lemma EmptyLinks()
    ensures LinksOk(map[], NoLinks()) && StoreOf(map[], NoLinks()) == Store(map[], 0)
    ensures Counted(map[], NoLinks().table, Refs(multiset{}, multiset{}), multiset{})
    ensures UnscheduledOf(map[], NoLinks().table, NewClock()) == {}
  {
    hide Empties;
  }

  lemma EmptyClock()
    ensures ClockOk(NewClock())
  {
    hide Span;
  }

  lemma LinkedIdIssued(items: map<Id, Item>, l: Links, id: Id)
    requires LinksOk(items, l) && id in l.table && id in items
    ensures 0 < items[id].cacheId <= l.lastId
  {
  }

  // ---- The references ----

  /** Giving back the reference in `extra` leaves the account square; a block's last reference takes the block with it. */
  lemma CountedRelease(items: map<Id, Item>, table: set<Id>, refs: Refs, id: Id)
    requires Counted(items, table, refs, multiset{id})
    ensures id in items && items[id].refCount > 0
    ensures var n := items[id].refCount - 1;
            && (n == 0 <==> id !in table && id !in refs.handles && id !in refs.leaked)
            && Counted(Recount(items, id, n), table, refs, multiset{})
            && Recount(items, id, n) == (if n == 0 then items[id := items[id].(refCount := n)] - {id}
                                         else items[id := items[id].(refCount := n)])
  {
    assert id in multiset{id};
  }

  /** One more reference, on the account of whoever asked for it. */
  lemma CountedTake(items: map<Id, Item>, table: set<Id>, refs: Refs, id: Id)
    requires Counted(items, table, refs, multiset{}) && id in items
    ensures Counted(Recount(items, id, items[id].refCount + 1), table, refs.(handles := refs.handles + multiset{id}), multiset{})
  {
  }

  lemma CountedNew(items: map<Id, Item>, table: set<Id>, refs: Refs, id: Id, it: Item)
    requires Counted(items, table, refs, multiset{}) && id !in items && id !in table && it.refCount == 1
    ensures Counted(items[id := it], table, refs.(handles := refs.handles + multiset{id}), multiset{})
  {
  }

  lemma CountedLink(items: map<Id, Item>, table: set<Id>, refs: Refs, id: Id, cacheId: nat, now: nat)
    requires Counted(items, table, refs, multiset{}) && id in items && id !in table
    ensures Counted(items[id := Linked(items[id], cacheId, now)], table + {id}, refs, multiset{})
  {
  }

  lemma CountedUnlink(items: map<Id, Item>, table: set<Id>, refs: Refs, id: Id)
    requires Counted(items, table, refs, multiset{}) && id in table && id in items
    ensures Counted(items, table - {id}, refs, multiset{id})
  {
  }

  lemma CountedSame(items: map<Id, Item>, table: set<Id>, refs: Refs, extra: multiset<Id>, id: Id, it: Item)
    requires Counted(items, table, refs, extra) && id in items && it.refCount == items[id].refCount
    ensures Counted(items[id := it], table, refs, extra)
  {
  }

  /** A held reference is struck from the holder's account, to be given back or written off. */
  lemma CountedStrike(items: map<Id, Item>, table: set<Id>, refs: Refs, id: Id)
    requires Counted(items, table, refs, multiset{}) && id in refs.handles
    ensures id in items
    ensures Counted(items, table, refs.(handles := refs.handles - multiset{id}), multiset{id})
    ensures Counted(items, table, Refs(refs.handles - multiset{id}, refs.leaked + multiset{id}), multiset{})
  {
  }

  /** Taking a reference and giving it back leaves the account as it was. */
  lemma TakeAndGiveBack(refs: Refs, id: Id)
    ensures refs.(handles := refs.handles + multiset{id}).(handles := refs.handles + multiset{id} - multiset{id}) == refs
  {
    assert refs.handles + multiset{id} - multiset{id} == refs.handles;
  }

  // ---- The counts have 16 bits ----

  const COUNT_SPAN: nat := 0x1_0000

  function Decremented(count: nat): nat
    requires count < COUNT_SPAN
  {
    if count == 0 then COUNT_SPAN - 1 else count - 1
  }

  /** Giving back a reference to a block with `n` of them: 16 bits show the last one exactly if it is the last one. */
  predicate SameTest(n: nat) {
    Decremented(n % COUNT_SPAN) == 0 <==> n == 1
  }

  /** The 16-bit count goes on showing the whole one, and its test errs exactly at one more than a multiple of 2^16. */
  lemma SameTestExactly(n: nat)
    requires n > 0
    ensures Decremented(n % COUNT_SPAN) == (n - 1) % COUNT_SPAN
    ensures !SameTest(n) <==> n > 1 && n % COUNT_SPAN == 1
  {
  }

  /** Held and lost references leave room for `n` more, the table's aside, before a 16-bit count can err. */
  ghost predicate Spare(refs: Refs, n: nat) {
    forall i :: refs.handles[i] + refs.leaked[i] + n < COUNT_SPAN
  }

  lemma SpareRelease(items: map<Id, Item>, table: set<Id>, refs: Refs, id: Id)
    requires Counted(items, table, refs, multiset{id})
    ensures id in items && items[id].refCount > 0
    ensures id !in table && Spare(refs, 0) ==> SameTest(items[id].refCount)
    ensures Spare(refs.(handles := refs.handles + multiset{id}), 0) ==> SameTest(items[id].refCount)
  {
    assert id in multiset{id};
    var more := refs.handles + multiset{id};
    assert more[id] == refs.handles[id] + 1;
    SameTestExactly(items[id].refCount);
  }

  lemma SpareMore(refs: Refs, id: Id)
    ensures Spare(refs, 1) ==> Spare(refs.(handles := refs.handles + multiset{id}), 0)
  {
    var more := refs.handles + multiset{id};
    assert forall i :: more[i] <= refs.handles[i] + 1;
  }

  lemma SpareOne(refs: Refs)
    ensures Spare(refs, 1) ==> Spare(refs, 0)
  {
  }

  lemma SpareLess(was: Refs, refs: Refs)
    requires refs.handles <= was.handles && refs.leaked <= was.leaked
    ensures Spare(was, 0) ==> Spare(refs, 0)
  {
    if Spare(was, 0) {
      forall i ensures refs.handles[i] + refs.leaked[i] < COUNT_SPAN {
        assert was.handles[i] + was.leaked[i] + 0 < COUNT_SPAN;
      }
    }
  }

  lemma SpareNew(items: map<Id, Item>, table: set<Id>, refs: Refs, id: Id)
    requires Counted(items, table, refs, multiset{}) && id !in items
    ensures Spare(refs, 0) ==> Spare(refs.(handles := refs.handles + multiset{id}), 0)
  {
    assert id !in refs.handles && id !in refs.leaked;
    var more := refs.handles + multiset{id};
    if Spare(refs, 0) {
      forall i ensures more[i] + refs.leaked[i] < COUNT_SPAN {
        assert refs.handles[i] + refs.leaked[i] + 0 < COUNT_SPAN;
      }
    }
  }

  // ---- The pool ----

  lemma ShelvedPush(free: seq<seq<Id>>, home: map<Id, nat>, c: nat, id: Id)
    requires Shelved(free, home) && c < CLASSID_MAX && id !in home
    ensures Shelved(free[c := [id] + free[c]], home[id := c])
  {
    var after := free[c := [id] + free[c]];
    assert id !in free[c];
    assert after[c][0] == id;
    assert Distinct(after[c]) by { assert Distinct(free[c]); }
    forall i | i in free[c] ensures i in after[c] {
      var k :| 0 <= k < |free[c]| && free[c][k] == i;
      assert after[c][k + 1] == i;
    }
  }

  lemma ShelvedPop(free: seq<seq<Id>>, home: map<Id, nat>, c: nat)
    requires Shelved(free, home) && c < CLASSID_MAX && free[c] != []
    ensures Shelved(free[c := free[c][1..]], home - {free[c][0]})
    ensures free[c][0] in home && home[free[c][0]] == c
  {
    var id, after := free[c][0], free[c := free[c][1..]];
    forall i | i in free[c] && i != id ensures i in after[c] {
      var k :| 0 <= k < |free[c]| && free[c][k] == i;
      assert after[c][k - 1] == i;
    }
    assert id in free[c];
    assert Distinct(after[c]) by { assert Distinct(free[c]); }
    forall d, i | 0 <= d < CLASSID_MAX && i in after[d] ensures i in home && home[i] == d && i != id {
      assert i in free[d];
      assert Distinct(free[c]);
    }
  }

  function ToFreeList(p: Pool, c: nat, id: Id): Pool
    requires c < |p.free|
  {
    p.(free := p.free[c := [id] + p.free[c]], home := p.home[id := c])
  }

  function ToSystem(p: Pool, c: nat, id: Id): Pool
    requires c < |p.maxSize| && p.maxSize[c] <= p.used
  {
    p.(used := p.used - p.maxSize[c], capacity := p.capacity - {id})
  }

  function FromFreeList(p: Pool, c: nat): Pool
    requires c < |p.free| && p.free[c] != []
  {
    p.(free := p.free[c := p.free[c][1..]], home := p.home - {p.free[c][0]})
  }

  function FromSystem(p: Pool, c: nat, id: Id): Pool
    requires c < |p.maxSize|
  {
    p.(used := p.used + p.maxSize[c], capacity := p.capacity[id := p.maxSize[c]])
  }

  lemma SizedDrop(items: map<Id, Item>, p: Pool, id: Id)
    requires Sized(items, p) && id in items
    ensures Sized(items - {id}, p.(home := p.home[id := items[id].classId]))
    ensures Sized(items - {id}, p.(capacity := p.capacity - {id}))
    ensures id !in p.home && id in p.capacity && 1 <= items[id].classId <= p.last < |p.maxSize|
    ensures p.capacity[id] == p.maxSize[items[id].classId]
  {
  }

  lemma SizedTake(items: map<Id, Item>, p: Pool, id: Id, it: Item)
    requires Sized(items, p) && 1 <= it.classId <= p.last
    requires TotalSize(p.header, it) < SIZE_SPAN ==> TotalSize(p.header, it) <= p.maxSize[it.classId]
    ensures id in p.home && p.home[id] == it.classId ==>
              id !in items && Sized(items[id := it], p.(home := p.home - {id}))
    ensures id !in p.capacity ==>
              id !in items && Sized(items[id := it], p.(capacity := p.capacity[id := p.maxSize[it.classId]]))
  {
  }

  /** Only a few of the pool's fields matter to `Sized`. */
  lemma SizedSame(items: map<Id, Item>, p: Pool, q: Pool)
    requires Sized(items, p)
    requires q == p.(free := q.free, hint := q.hint, used := q.used)
    ensures Sized(items, q)
  {
  }

  /** A block that nothing refers to any more goes to its free list or back to the system. */
  lemma PoolDrop(items: map<Id, Item>, p: Pool, id: Id)
    requires PoolOk(items, p) && id in items
    ensures var c := items[id].classId;
            && 1 <= c < |p.free| == |p.maxSize| == |p.freeMax| && p.maxSize[c] <= p.used
            && PoolOk(items - {id}, ToFreeList(p, c, id)) && PoolOk(items - {id}, ToSystem(p, c, id))
  {
    hide Sized, Shelved, Increasing, Sum;
    var c := items[id].classId;
    SizedDrop(items, p, id);
    SumSplit(p.capacity, id);
    SizedSame(items - {id}, p.(home := p.home[id := c]), ToFreeList(p, c, id));
    SizedSame(items - {id}, p.(capacity := p.capacity - {id}), ToSystem(p, c, id));
    ShelvedPush(p.free, p.home, c, id);
  }

  lemma PoolTakeFree(items: map<Id, Item>, p: Pool, it: Item)
    requires PoolOk(items, p) && 1 <= it.classId <= p.last < |p.maxSize| == |p.free|
    requires TotalSize(p.header, it) < SIZE_SPAN ==> TotalSize(p.header, it) <= p.maxSize[it.classId]
    requires p.free[it.classId] != []
    ensures var id := p.free[it.classId][0];
            && id !in items && PoolOk(items[id := it], FromFreeList(p, it.classId))
            && id in p.capacity && p.capacity[id] == p.maxSize[it.classId]
  {
    hide Sized, Shelved, Increasing, Sum;
    var c := it.classId;
    var id := p.free[c][0];
    ShelvedPop(p.free, p.home, c);
    SizedTake(items, p, id, it);
    SizedSame(items[id := it], p.(home := p.home - {id}), FromFreeList(p, c));
  }

  lemma PoolTakeNew(items: map<Id, Item>, p: Pool, it: Item, id: Id)
    requires PoolOk(items, p) && 1 <= it.classId <= p.last < |p.maxSize| == |p.free|
    requires TotalSize(p.header, it) < SIZE_SPAN ==> TotalSize(p.header, it) <= p.maxSize[it.classId]
    requires id !in p.capacity && p.used + p.maxSize[it.classId] <= p.limit
    ensures id !in items && PoolOk(items[id := it], FromSystem(p, it.classId, id))
  {
    hide Sized, Shelved, Increasing, Sum;
    var c := it.classId;
    SumInsert(p.capacity, id, p.maxSize[c]);
    SizedTake(items, p, id, it);
    SizedSame(items[id := it], p.(capacity := p.capacity[id := p.maxSize[c]]), FromSystem(p, c, id));
  }

  /** At any time, a block in use holds its header, key, data and ext exactly if their sum can be told in 32 bits. */
  lemma BlockHolds(items: map<Id, Item>, p: Pool, id: Id)
    requires PoolOk(items, p) && id in items && id in p.capacity && p.capacity[id] < SIZE_SPAN
    ensures TotalSize(p.header, items[id]) <= p.capacity[id] <==> TotalSize(p.header, items[id]) < SIZE_SPAN
  {
    hide Shelved, Increasing, Sum;
  }

  /** Rewriting a block in use without changing its class or its size. */
  lemma PoolSame(items: map<Id, Item>, p: Pool, id: Id, it: Item)
    requires PoolOk(items, p) && id in items
    requires it.classId == items[id].classId && TotalSize(p.header, it) == TotalSize(p.header, items[id])
    ensures PoolOk(items[id := it], p)
  {
    hide Increasing, Shelved, Sum;
    assert Sized(items[id := it], p);
  }

  // ---- The linkage ----

  /** The linked items are the same in both, up to reference counts and watchers. */
  ghost predicate Agree(a: map<Id, Item>, b: map<Id, Item>, table: set<Id>) {
    && table <= a.Keys && table <= b.Keys
    && (forall i :: i in b ==> b[i].expirationId <= FOREVER)
    && forall i :: i in table ==> b[i] == a[i].(refCount := b[i].refCount, watchers := b[i].watchers)
  }

  lemma FiledAgree(a: map<Id, Item>, b: map<Id, Item>, l: Links)
    requires Agree(a, b, l.table) && Filed(a, l)
    ensures Filed(b, l)
  {
  }

  lemma IndexedAgree(a: map<Id, Item>, b: map<Id, Item>, l: Links)
    requires Agree(a, b, l.table) && Indexed(a, l) && IdsIssued(a, l)
    ensures Indexed(b, l) && IdsIssued(b, l)
  {
  }

  lemma StoreAgree(a: map<Id, Item>, b: map<Id, Item>, l: Links, c: Clock)
    requires Agree(a, b, l.table) && LinksOk(a, l) && LinksOk(b, l)
    ensures StoreOf(b, l) == StoreOf(a, l) && UnscheduledOf(b, l.table, c) == UnscheduledOf(a, l.table, c)
  {
    hide Filed, IdsIssued, Scheduled;
  }

  lemma LinksAgree(a: map<Id, Item>, b: map<Id, Item>, l: Links, c: Clock)
    requires Agree(a, b, l.table) && LinksOk(a, l)
    ensures LinksOk(b, l)
    ensures StoreOf(b, l) == StoreOf(a, l) && UnscheduledOf(b, l.table, c) == UnscheduledOf(a, l.table, c)
  {
    hide Agree, Filed, Indexed, IdsIssued, StoreOf, UnscheduledOf;
    FiledAgree(a, b, l);
    IndexedAgree(a, b, l);
    StoreAgree(a, b, l, c);
  }

  lemma LinksRecount(items: map<Id, Item>, l: Links, c: Clock, id: Id, n: nat)
    requires LinksOk(items, l) && id in items && (n == 0 ==> id !in l.table)
    ensures var b := Recount(items, id, n);
            && LinksOk(b, l) && StoreOf(b, l) == StoreOf(items, l)
            && UnscheduledOf(b, l.table, c) == UnscheduledOf(items, l.table, c)
  {
    hide Indexed, IdsIssued, StoreOf, UnscheduledOf;
    assert Agree(items, Recount(items, id, n), l.table);
    LinksAgree(items, Recount(items, id, n), l, c);
  }

  lemma LinksRewatch(items: map<Id, Item>, l: Links, c: Clock, id: Id, ws: set<nat>)
    requires LinksOk(items, l) && id in items
    ensures var b := items[id := items[id].(watchers := ws)];
            && LinksOk(b, l) && StoreOf(b, l) == StoreOf(items, l)
            && UnscheduledOf(b, l.table, c) == UnscheduledOf(items, l.table, c)
  {
    hide Indexed, IdsIssued, StoreOf, UnscheduledOf;
    var b := items[id := items[id].(watchers := ws)];
    assert Agree(items, b, l.table);
    LinksAgree(items, b, l, c);
  }

  /** Rewriting a block that is not linked leaves the linked ones as they are. */
  lemma LinksAside(items: map<Id, Item>, l: Links, c: Clock, id: Id, it: Item)
    requires LinksOk(items, l) && (id in items ==> id !in l.table) && it.expirationId <= FOREVER
    ensures id !in l.table
    ensures var b := items[id := it];
            && LinksOk(b, l) && StoreOf(b, l) == StoreOf(items, l)
            && UnscheduledOf(b, l.table, c) == UnscheduledOf(items, l.table, c)
  {
    hide Indexed, IdsIssued, StoreOf, UnscheduledOf;
    assert Agree(items, items[id := it], l.table);
    LinksAgree(items, items[id := it], l, c);
  }

  /** The links once `id` has been pushed to the back of its list under a fresh id. */
  function WithLinked(l: Links, id: Id, k: Key, b: nat): Links
    requires b < |l.lists|
  {
    Links(l.table + {id}, l.lists[b := l.lists[b] + [id]], l.index[k := id], l.lastId + 1)
  }

  lemma FiledLink(items: map<Id, Item>, l: Links, id: Id, it: Item)
    requires Filed(items, l) && id in items && id !in l.table && it.expirationId == items[id].expirationId
    ensures Filed(items[id := it], WithLinked(l, id, it.key, it.expirationId))
  {
    assert id !in l.lists[it.expirationId];
    assert Distinct(l.lists[it.expirationId] + [id]);
  }

  lemma IndexedLink(items: map<Id, Item>, l: Links, id: Id, it: Item)
    requires Indexed(items, l) && IdsIssued(items, l) && id in items && id !in l.table
    requires it.key == items[id].key && it.key !in l.index && it.cacheId == l.lastId + 1
    requires it.expirationId < |l.lists|
    ensures var m := WithLinked(l, id, it.key, it.expirationId);
            Indexed(items[id := it], m) && IdsIssued(items[id := it], m)
  {
  }

  lemma StoreLink(items: map<Id, Item>, l: Links, c: Clock, id: Id, it: Item)
    requires LinksOk(items, l) && id in items && id !in l.table && it.expirationId < |l.lists|
    requires it.key !in l.index && EntryOf(it) == EntryOf(items[id]).(version := l.lastId + 1)
    requires LinksOk(items[id := it], WithLinked(l, id, it.key, it.expirationId))
    ensures var b, m := items[id := it], WithLinked(l, id, it.key, it.expirationId);
            && StoreOf(b, m) == Put(StoreOf(items, l), it.key, EntryOf(items[id]))
            && UnscheduledOf(b, m.table, c) == UnscheduledOf(items, l.table, c) + if OnSchedule(it, c) then {} else {id}
  {
    hide Filed, IdsIssued, Scheduled;
  }

  /** Linking a block whose key is absent: the structure holds, and the map gains its entry under a fresh id. */
  lemma LinksLink(items: map<Id, Item>, l: Links, c: Clock, id: Id, now: nat)
    requires LinksOk(items, l) && id in items && id !in l.table && items[id].key !in StoreOf(items, l).entries
    ensures items[id].expirationId < |l.lists|
    ensures var it := Linked(items[id], l.lastId + 1, now);
            var b, m := items[id := it], WithLinked(l, id, items[id].key, items[id].expirationId);
            && LinksOk(b, m) && StoreOf(b, m) == Put(StoreOf(items, l), items[id].key, EntryOf(items[id]))
            && UnscheduledOf(b, m.table, c) == UnscheduledOf(items, l.table, c) + if OnSchedule(it, c) then {} else {id}
  {
    hide Indexed, IdsIssued, UnscheduledOf, OnSchedule, Put;
    var it := Linked(items[id], l.lastId + 1, now);
    FiledLink(items, l, id, it);
    IndexedLink(items, l, id, it);
    StoreLink(items, l, c, id, it);
  }

  function WithUnlinked(l: Links, id: Id, k: Key, b: nat): Links
    requires b < |l.lists|
  {
    l.(table := l.table - {id}, lists := l.lists[b := Without(l.lists[b], id)], index := l.index - {k})
  }

  lemma WithUnlinkedMeans(l: Links, id: Id, k: Key, b: nat)
    requires b < |l.lists|
    ensures WithUnlinked(l, id, k, b).table == l.table - {id} && WithUnlinked(l, id, k, b).lastId == l.lastId
  {
  }

  lemma FiledUnlink(items: map<Id, Item>, l: Links, id: Id)
    requires Filed(items, l) && id in l.table
    ensures Filed(items, WithUnlinked(l, id, items[id].key, items[id].expirationId))
  {
  }

  lemma IndexedUnlink(items: map<Id, Item>, l: Links, id: Id)
    requires Indexed(items, l) && IdsIssued(items, l) && id in l.table && items[id].expirationId < |l.lists|
    ensures forall j :: j in l.table && j in items && items[j].key == items[id].key ==> j == id
    ensures var m := WithUnlinked(l, id, items[id].key, items[id].expirationId);
            Indexed(items, m) && IdsIssued(items, m)
  {
  }

  lemma StoreUnlink(items: map<Id, Item>, l: Links, c: Clock, id: Id)
    requires LinksOk(items, l) && id in l.table && id in items && items[id].expirationId < |l.lists|
    requires LinksOk(items, WithUnlinked(l, id, items[id].key, items[id].expirationId))
    ensures var m := WithUnlinked(l, id, items[id].key, items[id].expirationId);
            && StoreOf(items, m) == Drop(StoreOf(items, l), {items[id].key})
            && UnscheduledOf(items, m.table, c) == UnscheduledOf(items, l.table, c) - {id}
  {
    hide Filed, IdsIssued, Scheduled;
  }

  /** Unlinking: only that block carries its key, and the map loses exactly that key. */
  lemma LinksUnlink(items: map<Id, Item>, l: Links, c: Clock, id: Id)
    requires LinksOk(items, l) && id in l.table
    ensures id in items && items[id].expirationId < |l.lists|
    ensures forall j :: j in l.table && j in items && items[j].key == items[id].key ==> j == id
    ensures var m := WithUnlinked(l, id, items[id].key, items[id].expirationId);
            && LinksOk(items, m) && StoreOf(items, m) == Drop(StoreOf(items, l), {items[id].key})
            && UnscheduledOf(items, m.table, c) == UnscheduledOf(items, l.table, c) - {id}
  {
    hide Indexed, IdsIssued, StoreOf, UnscheduledOf, Drop;
    FiledUnlink(items, l, id);
    IndexedUnlink(items, l, id);
    StoreUnlink(items, l, c, id);
  }

  lemma FiledChange(items: map<Id, Item>, l: Links, id: Id, it: Item)
    requires Filed(items, l) && id in items && it.expirationId == items[id].expirationId
    ensures Filed(items[id := it], l)
  {
  }

  lemma IndexedChange(items: map<Id, Item>, l: Links, id: Id, it: Item)
    requires Indexed(items, l) && IdsIssued(items, l) && id in l.table && it.key == items[id].key
    ensures Indexed(items[id := it], l)
    ensures it.cacheId == items[id].cacheId ==> IdsIssued(items[id := it], l)
    ensures it.cacheId == l.lastId + 1 ==> IdsIssued(items[id := it], l.(lastId := l.lastId + 1))
  {
  }

  lemma StoreChange(items: map<Id, Item>, l: Links, c: Clock, id: Id, it: Item)
    requires LinksOk(items, l) && id in l.table && id in items && it.key == items[id].key
    requires it.expirationId == items[id].expirationId && it.expireTime == items[id].expireTime
    requires it.cacheId == l.lastId + 1 && LinksOk(items[id := it], l.(lastId := l.lastId + 1))
    ensures var b, m := items[id := it], l.(lastId := l.lastId + 1);
            && StoreOf(b, m) == Put(StoreOf(items, l), it.key, EntryOf(it))
            && UnscheduledOf(b, m.table, c) == UnscheduledOf(items, l.table, c)
  {
    hide Filed, IdsIssued, Scheduled;
  }

  /** Changing a linked block in place under a fresh id puts the new entry. */
  lemma LinksChange(items: map<Id, Item>, l: Links, c: Clock, id: Id, it: Item)
    requires LinksOk(items, l) && id in l.table && id in items
    requires ChangedItem(items[id], it) && it.cacheId == l.lastId + 1
    ensures var b, m := items[id := it], l.(lastId := l.lastId + 1);
            && LinksOk(b, m) && StoreOf(b, m) == Put(StoreOf(items, l), it.key, EntryOf(it))
            && UnscheduledOf(b, m.table, c) == UnscheduledOf(items, l.table, c)
  {
    hide Filed, Indexed, IdsIssued, StoreOf, UnscheduledOf, Put;
    FiledChange(items, l, id, it);
    FiledSame(items[id := it], l, l.(lastId := l.lastId + 1));
    IndexedChange(items, l, id, it);
    StoreChange(items, l, c, id, it);
  }

  /** The last id plays no part in the lists or the index. */
  lemma FiledSame(items: map<Id, Item>, l: Links, m: Links)
    requires m == l.(lastId := m.lastId)
    ensures Filed(items, l) ==> Filed(items, m)
    ensures Indexed(items, l) ==> Indexed(items, m)
  {
  }

  /** The links once `id` has moved from list `was` to the front of list `b`, which may be the same. */
  function WithMoved(l: Links, id: Id, was: nat, b: nat): Links
    requires was < |l.lists| && b < |l.lists|
  {
    var removed := l.lists[was := Without(l.lists[was], id)];
    l.(lists := removed[b := [id] + removed[b]])
  }

  lemma FiledMove(items: map<Id, Item>, l: Links, id: Id, it: Item)
    requires Filed(items, l) && id in l.table && it.expirationId <= FOREVER
    ensures Filed(items[id := it], WithMoved(l, id, items[id].expirationId, it.expirationId))
  {
    var was, b := items[id].expirationId, it.expirationId;
    var rest := l.lists[was := Without(l.lists[was], id)][b];
    assert Distinct(l.lists[b]) && id !in rest;
    assert Distinct([id] + rest);
    assert ([id] + rest)[0] == id && forall i :: i in rest ==> i in [id] + rest;
  }

  lemma StoreRefile(items: map<Id, Item>, l: Links, m: Links, c: Clock, id: Id, it: Item)
    requires LinksOk(items, l) && id in l.table && id in items && it.key == items[id].key
    requires EntryOf(it) == EntryOf(items[id]).(expireTime := it.expireTime)
    requires m == l.(lists := m.lists) && LinksOk(items[id := it], m)
    ensures it.key in StoreOf(items, l).entries
    ensures StoreOf(items[id := it], m) == Retime(StoreOf(items, l), it.key, it.expireTime)
    ensures it.expireTime == items[id].expireTime ==> StoreOf(items[id := it], m) == StoreOf(items, l)
    ensures UnscheduledOf(items[id := it], m.table, c)
         == UnscheduledOf(items, l.table, c) - {id} + if OnSchedule(it, c) then {} else {id}
  {
    hide Filed, IdsIssued, Scheduled;
  }

  /** Giving a linked block another expiry, in another place of the lists if need be, changes nothing else of the map. */
  lemma LinksMove(items: map<Id, Item>, l: Links, c: Clock, id: Id, b: nat, t: nat, move: bool)
    requires LinksOk(items, l) && id in l.table && id in items && b <= FOREVER && (move || b == items[id].expirationId)
    ensures items[id].expirationId < |l.lists| && b < |l.lists|
    ensures items[id].key in StoreOf(items, l).entries
    ensures var it := items[id].(expirationId := b, expireTime := t);
            var a, m := items[id := it], if move then WithMoved(l, id, items[id].expirationId, b) else l;
            && LinksOk(a, m) && m.table == l.table
            && StoreOf(a, m) == Retime(StoreOf(items, l), items[id].key, t)
            && (t == items[id].expireTime ==> StoreOf(a, m) == StoreOf(items, l))
            && UnscheduledOf(a, m.table, c) == UnscheduledOf(items, l.table, c) - {id} + if OnSchedule(it, c) then {} else {id}
  {
    hide Indexed, IdsIssued, StoreOf, UnscheduledOf, OnSchedule, Retime;
    var it := items[id].(expirationId := b, expireTime := t);
    var m := if move then WithMoved(l, id, items[id].expirationId, b) else l;
    FiledMove(items, l, id, it);
    FiledChange(items, l, id, if move then items[id] else it);
    IndexedChange(items, l, id, it);
    IndexedMoved(items[id := it], l, m);
    StoreRefile(items, l, m, c, id, it);
  }

  /** The lists play no part in the index or the ids. */
  lemma IndexedMoved(items: map<Id, Item>, l: Links, m: Links)
    requires Indexed(items, l) && IdsIssued(items, l) && m == l.(lists := m.lists)
    ensures Indexed(items, m) && IdsIssued(items, m)
  {
  }

  lemma IndexFinds(items: map<Id, Item>, l: Links, key: Key)
    requires LinksOk(items, l) && key in l.index
    ensures l.index[key] in l.table && l.index[key] in items && items[l.index[key]].key == key
  {
  }

  lemma LinksIndex(items: map<Id, Item>, l: Links, id: Id)
    requires LinksOk(items, l) && id in l.table
    ensures id in items && items[id].key in l.index && l.index[items[id].key] == id && items[id].expirationId <= FOREVER
  {
  }

  /** A group with no item in any list has no key in the map. */
  lemma NoneOfGroup(items: map<Id, Item>, l: Links, g: nat)
    requires LinksOk(items, l)
    requires forall b, i :: 0 <= b < |l.lists| && i in l.lists[b] && i in items ==> items[i].key.group != g
    ensures GroupKeys(StoreOf(items, l), g) == {}
  {
    forall k | k in StoreOf(items, l).entries ensures k.group != g {
      var i := l.index[k];
      assert i in l.lists[items[i].expirationId];
    }
  }

  lemma RecountElsewhere(items: map<Id, Item>, id: Id, n: nat)
    requires id in items
    ensures var after := Recount(items[id := items[id].(watchers := {})], id, n);
            && (forall i :: i in items && i != id ==> i in after && after[i] == items[i])
            && (forall i :: i in after && i != id ==> i in items && after[i] == items[i])
  {
  }

  /** Unlinking an iterator's current block leaves what is behind it and before it, and the other lists, alone. */
  lemma UnlinkElsewhere(items: map<Id, Item>, l: Links, id: Id, pre: seq<Id>, post: seq<Id>)
    requires LinksOk(items, l) && id in items && items[id].expirationId < |l.lists|
    requires l.lists[items[id].expirationId] == pre + [id] + post
    ensures var b := items[id].expirationId;
            WithUnlinked(l, id, items[id].key, b).lists == l.lists[b := pre + post]
    ensures id !in pre + post && forall d :: 0 <= d < |l.lists| && d != items[id].expirationId ==> id !in l.lists[d]
  {
    hide Indexed, IdsIssued;
    var s := l.lists[items[id].expirationId];
    assert Distinct(s);
    WithoutMiddle(pre, id, post);
    assert id !in Without(s, id);
  }

  lemma BucketBound(items: map<Id, Item>, l: Links, id: Id)
    requires LinksOk(items, l) && id in items
    ensures items[id].expirationId <= FOREVER
  {
  }

  /** What a list holds. */
  lemma LinksList(items: map<Id, Item>, l: Links, b: nat)
    requires LinksOk(items, l) && b <= FOREVER
    ensures |l.lists| == FOREVER + 1 && Distinct(l.lists[b])
    ensures forall i :: i in l.lists[b] ==> i in l.table && i in items && items[i].expirationId == b
    ensures forall i :: i in l.table ==> i in items && items[i].expirationId <= FOREVER && i in l.lists[items[i].expirationId]
  {
  }

  /** A linked block found under its key. */
  lemma LinksFind(items: map<Id, Item>, l: Links, k: Key)
    requires LinksOk(items, l)
    ensures k in StoreOf(items, l).entries <==> k in l.index
    ensures forall i :: i in l.table && i in items && items[i].key == k ==>
              k in StoreOf(items, l).entries && StoreOf(items, l).entries[k] == EntryOf(items[i])
  {
    if k in l.index {
      assert l.index[k] in l.table && l.index[k] in items && items[l.index[k]].key == k;
    }
  }
}
