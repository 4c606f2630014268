/**
 The cache manager. Its intrusive structures appear by their contents: the hash table as the set of blocks linked
 in it, each list as a sequence of block addresses. Each public operation runs under one lock, so it is one step.
 */
module CacheMgr {
  import opened Basics
  import opened CacheSpec
  import opened CacheState
  import opened Notices
  import opened ExpirySweep
  import opened ExpiryWheel
  import opened SizeClasses
  import Decimal

  /** The five update requests, and the codes that stand for none. */
  datatype Update = SetIt | AddIt | ReplaceIt | AppendIt | PrependIt | UnknownIt

  class Manager {
    var items: map<Id, Item>          // the blocks in use
    var links: Links                  // cache_hash_map_, expire_list_, last_cache_id_
    var pool: Pool                    // free_cache_list_, max_size_, mem_used_, mem_limit_
    var clock: Clock                  // curr_time_, expire_check_time_, last_check_expired_time_
    var watches: map<nat, Watch>      // watch_map_
    var lastWatchId: nat
    var lastTime: nat                 // the wall clock's last reading
    ghost var refs: Refs
    ghost var exact: bool             // whether every test of a 16-bit count so far has told what the whole count tells

    ghost predicate ValidBut(extra: multiset<Id>)
      reads this
    {
      LinksOk(items, links) && Counted(items, links.table, refs, extra) && PoolOk(items, pool) && ClockOk(clock)
    }

    ghost predicate Valid()
      reads this
    {
      ValidBut(multiset{})
    }

    /** An empty cache with the size table of `init`; the clock starts at second 8. */
    constructor (header: nat, limit: nat, itemSizeMax: nat, itemSizeMin: nat, factor: real, wall: nat)
      requires header > 0 && GrowsByAChunk(header + itemSizeMin, factor)
      requires ClassCount(header + itemSizeMin, header + itemSizeMax, factor, header + itemSizeMin) < CLASSID_MAX - 1
      ensures Valid() && Contents() == Store(map[], 0) && Unscheduled() == {}
      ensures pool.used == 0 && pool.limit == limit && refs == Refs(multiset{}, multiset{}) && watches == map[] && exact
      ensures pool.maxSize[pool.last] == header + itemSizeMax
      ensures pool == NewPool(header, limit, pool.maxSize, pool.last) && Rows(header + itemSizeMin, factor, pool.maxSize, pool.last)
    {
      hide Rows, LinksOk, Counted, PoolOk, ClockOk, StoreOf, UnscheduledOf, Increasing, ClassCount, GrowsByAChunk;
      var maxSize, last := BuildTable(header, itemSizeMax, itemSizeMin, factor);
      exact := true;
      items, links, pool, clock := map[], NoLinks(), NewPool(header, limit, maxSize, last), NewClock();
      watches, lastWatchId, lastTime := map[], 0, wall;
      refs := Refs(multiset{}, multiset{});
      EmptyPool(NewPool(header, limit, maxSize, last));
      EmptyLinks();
      EmptyClock();
    }

    /** The map the clients see. */
    ghost function Contents(): Store
      reads this
      requires Valid()
    {
      StoreOf(items, links)
    }

    ghost function Blocks(): Cells
      reads this
    {
      Cells(items, links.table)
    }

    ghost function Unscheduled(): set<Id>
      reads this
    {
      UnscheduledOf(items, links.table, clock)
    }

    /** The class of a request: its size goes through 32 bits, and one that wraps to 0 has none. */
    static ghost function RequestClass(p: Pool, size: nat): nat
      requires p.last < |p.maxSize|
    {
      var wrapped := size % SIZE_SPAN;
      if wrapped == 0 then 0 else ClassOf(p.maxSize, p.last, wrapped)
    }

    static ghost function ClassSize(p: Pool, size: nat): nat {
      if p.last < |p.maxSize| then p.maxSize[RequestClass(p, size)] else 0
    }

    /** A size of 2^32 + 4 passes for one of 4, and is given a block of the first class. */
    static lemma WrappedSizeIsAccepted(items: map<Id, Item>, p: Pool, block: Option<Id>)
      requires PoolOk(items, p) && p.last >= 1 && 4 <= p.maxSize[1] < SIZE_SPAN
      requires block.Some? && p.used + p.maxSize[1] <= p.limit
      ensures CanAlloc(p, SIZE_SPAN + 4, block) && ClassSize(p, SIZE_SPAN + 4) == p.maxSize[1] < SIZE_SPAN + 4
    {
      hide Sized, Shelved, Sum;
    }

    /** Whether memory for a block of `size` bytes is to be had, `block` being what malloc would answer. */
    static ghost predicate CanAlloc(p: Pool, size: nat, block: Option<Id>) {
      && p.last < |p.maxSize| == |p.free|
      && var c := RequestClass(p, size);
         c != 0 && (p.free[c] != [] || (p.used + p.maxSize[c] <= p.limit && block.Some?))
    }

    /** The size class of a request, sought from the class found last time. */
    method GetClassId(size: nat) returns (id: nat)
      requires PoolOk(items, pool)
      modifies this`pool
      ensures SamePlan(old(pool), pool)
      ensures PoolOk(items, pool) && pool == old(pool).(hint := pool.hint)
      ensures pool.last < |pool.maxSize| == |pool.free|
      ensures id == if size == 0 then 0 else ClassOf(pool.maxSize, pool.last, size)
      ensures id != 0 ==> 1 <= id <= pool.last < |pool.maxSize| && size <= pool.maxSize[id]
    {
      hide Sized, Shelved, Sum, Increasing;
      var hint;
      id, hint := FindClass(pool.maxSize, pool.last, pool.hint, size);
      pool := pool.(hint := hint);
      SizedSame(items, old(pool), pool);
    }

    /** Returns a block with no references to its free list, or to the system when that list is full. */
    method FreeItem(id: Id)
      requires PoolOk(items, pool) && id in items
      modifies this`items, this`pool
      ensures SamePlan(old(pool), pool)
      ensures PoolOk(items, pool)
      ensures items == old(items) - {id}
      ensures var c, was := old(items)[id].classId, old(pool);
              && 1 <= c < |was.free| == |was.freeMax| == |was.maxSize| && was.maxSize[c] <= was.used
              && pool == if |was.free[c]| < was.freeMax[c]
                         then was.(free := was.free[c := [id] + was.free[c]], home := was.home[id := c])
                         else was.(used := was.used - was.maxSize[c], capacity := was.capacity - {id})
    {
      hide PoolOk;
      PoolDrop(items, pool, id);
      var c := items[id].classId;
      items := items - {id};
      if |pool.free[c]| < pool.freeMax[c] {
        pool := ToFreeList(pool, c, id);
      } else {
        pool := ToSystem(pool, c, id);
      }
    }

    /** Gives back one reference, which the caller has already struck from its account. */
    method DoReleaseReference(id: Id)
      requires ValidBut(multiset{id})
      modifies this`items, this`pool, this`exact
      ensures SamePlan(old(pool), pool)
      ensures Valid() && Contents() == old(StoreOf(items, links)) && Unscheduled() == old(Unscheduled())
      ensures id in old(items) && old(items)[id].refCount > 0
      ensures items == Recount(old(items), id, old(items)[id].refCount - 1)
      ensures Aside(old(Blocks()), Blocks(), {id})
      ensures exact == (old(exact) && SameTest(old(items)[id].refCount))
    {
      hide LinksOk, Counted, PoolOk, ClockOk, StoreOf, UnscheduledOf, Recount, SameTest;
      CountedRelease(items, links.table, refs, id);
      var n := items[id].refCount - 1;
      LinksRecount(items, links, clock, id, n);
      PoolSame(items, pool, id, items[id].(refCount := n));
      items := items[id := items[id].(refCount := n)];
      exact := exact && SameTest(n + 1);
      if n == 0 {
        FreeItem(id);
      }
    }

    /** Finds a block for `it`: the front of its class's free list, or a new one if the limit allows. */
    method TakeBlock(it: Item, block: Option<Id>) returns (r: Option<Id>)
      requires PoolOk(items, pool) && (block.Some? ==> block.value !in pool.capacity)
      requires 1 <= it.classId <= pool.last < |pool.maxSize| == |pool.free|
      requires TotalSize(pool.header, it) < SIZE_SPAN ==> TotalSize(pool.header, it) <= pool.maxSize[it.classId]
      modifies this`items, this`pool
      ensures SamePlan(old(pool), pool)
      ensures pool.capacity.Keys <= old(pool).capacity.Keys + if block.Some? then {block.value} else {}
      ensures PoolOk(items, pool)
      ensures r.Some? <==> (old(pool.free)[it.classId] != [] ||
                            (old(pool.used) + old(pool.maxSize)[it.classId] <= old(pool.limit) && block.Some?))
      ensures r.None? ==> items == old(items)
      ensures r.Some? ==> r.value !in old(items) && items == old(items)[r.value := it]
      ensures r.Some? ==> r.value in pool.capacity && pool.capacity[r.value] == old(pool).maxSize[it.classId]
      ensures var c, was := it.classId, old(pool);
              if was.free[c] != [] then
                && r == Some(was.free[c][0])
                && pool == was.(free := was.free[c := was.free[c][1..]], home := was.home - {was.free[c][0]})
              else if r.Some? then
                r == block && pool == was.(used := was.used + was.maxSize[c], capacity := was.capacity[r.value := was.maxSize[c]])
              else pool == was
    {
      hide PoolOk;
      var c := it.classId;
      if pool.free[c] != [] {
        PoolTakeFree(items, pool, it);
        r := Some(pool.free[c][0]);
        pool := FromFreeList(pool, c);
      } else if pool.used + pool.maxSize[c] <= pool.limit && block.Some? {
        PoolTakeNew(items, pool, it, block.value);
        r := block;
        pool := FromSystem(pool, c, block.value);
      } else {
        return None;
      }
      items := items[r.value := it];
    }

    /** Allocates an item. The key, data and ext bytes are those the caller fills in. */
    method DoAlloc(key: Key, flags: nat, expireTime: nat, data: seq<byte>, ext: seq<byte>, block: Option<Id>)
      returns (r: Option<Id>)
      requires Valid() && (block.Some? ==> block.value !in pool.capacity)
      modifies this`items, this`pool, this`refs
      ensures SamePlan(old(pool), pool)
      ensures pool.capacity.Keys <= old(pool).capacity.Keys + if block.Some? then {block.value} else {}
      ensures Valid() && Contents() == old(Contents()) && Unscheduled() == old(Unscheduled())
      ensures r.Some? <==> CanAlloc(old(pool), ItemSize(old(pool).header, key, data, ext), block)
      ensures r.None? ==> items == old(items) && refs == old(refs)
      ensures r.Some? ==>
                && r.value !in old(items) && r.value !in links.table
                && r.value in items && items == old(items)[r.value := items[r.value]]
                && items[r.value].key == key && EntryOf(items[r.value]) == Entry(data, flags, ext, expireTime, 0)
                && items[r.value].watchers == {} && IsBucket(clock.now, expireTime, items[r.value].expirationId)
                && r.value in pool.capacity && pool.capacity[r.value] == ClassSize(old(pool), ItemSize(old(pool).header, key, data, ext))
                && (pool.capacity[r.value] < SIZE_SPAN ==>
                      (ItemSize(old(pool).header, key, data, ext) <= pool.capacity[r.value] <==>
                       ItemSize(old(pool).header, key, data, ext) < SIZE_SPAN))
                && refs == old(refs).(handles := old(refs).handles + multiset{r.value})
      ensures Aside(old(Blocks()), Blocks(), {})
      ensures Spare(old(refs), 0) ==> Spare(refs, 0)
    {
      hide Spare, LinksOk, Counted, PoolOk, ClockOk, StoreOf, UnscheduledOf, IsBucket, ClassOf, IsClassOf;
      var c := GetClassId(ItemSize(pool.header, key, data, ext) % SIZE_SPAN);
      if c == 0 { return None; }
      var b := GetExpirationId(clock.now, expireTime);
      var it := Item(key, data, ext, flags, expireTime, 0, 0, 1, c, b, {});
      ghost var was := items;
      r := TakeBlock(it, block);
      if r.Some? {
        LinksAside(was, links, clock, r.value, it);
        CountedNew(was, links.table, refs, r.value, it);
        SpareNew(was, links.table, refs, r.value);
        refs := refs.(handles := refs.handles + multiset{r.value});
      }
    }

    /** Links a block under a key that is absent, with a fresh id. */
    method DoLink(id: Id)
      requires Valid() && id in items && id !in links.table && items[id].key !in Contents().entries
      modifies this`items, this`links
      ensures Valid()
      ensures items == old(items)[id := Linked(old(items)[id], links.lastId, clock.now)]
      ensures links.table == old(links).table + {id} && links.lastId == old(links).lastId + 1
      ensures Contents() == Put(old(Contents()), old(items)[id].key, EntryOf(old(items)[id]))
      ensures Unscheduled() == old(Unscheduled()) + if OnSchedule(items[id], clock) then {} else {id}
      ensures Aside(old(Blocks()), Blocks(), {id})
    {
      hide LinksOk, Counted, PoolOk, ClockOk, StoreOf, UnscheduledOf, Put, OnSchedule;
      LinksLink(items, links, clock, id, clock.now);
      CountedLink(items, links.table, refs, id, links.lastId + 1, clock.now);
      PoolSame(items, pool, id, Linked(items[id], links.lastId + 1, clock.now));
      links := WithLinked(links, id, items[id].key, items[id].expirationId);
      items := items[id := Linked(items[id], links.lastId, clock.now)];
    }

    /** Posts an event about `id` to its living watchers, and forgets the lapsed ones. */
    method NotifyWatch(id: Id, notice: NotifyType)
      requires id in items
      modifies this`items, this`watches
      ensures watches == Posted(old(watches), old(items)[id].watchers, Event(old(items)[id].cacheId, notice))
      ensures watches.Keys == old(watches).Keys
      ensures forall w :: w in watches ==>
                && watches[w].expireTime == old(watches)[w].expireTime
                && watches[w].posted == old(watches)[w].posted +
                     if w in old(items)[id].watchers then [Event(old(items)[id].cacheId, notice)] else []
      ensures items == old(items)[id := old(items)[id].(watchers := old(items)[id].watchers * old(watches).Keys)]
    {
      var it := items[id];
      var left, kept := it.watchers, it.watchers;
      assert watches == Posted(watches, {}, Event(it.cacheId, notice));
      while left != {}
        invariant left <= it.watchers && items == old(items)
        invariant watches.Keys == old(watches).Keys
        invariant kept == (it.watchers - left) * old(watches).Keys + left
        invariant watches == Posted(old(watches), it.watchers - left, Event(it.cacheId, notice))
        decreases left
      {
        var w :| w in left;
        if w in watches {
          watches := watches[w := watches[w].(posted := watches[w].posted + [Event(it.cacheId, notice)])];
        } else {
          kept := kept - {w};
        }
        left := left - {w};
      }
      assert kept == it.watchers * old(watches).Keys;
      items := items[id := it.(watchers := kept)];
    }

    /** Tells a block's watchers, then forgets them. */
    method ClearWatchers(id: Id, notice: NotifyType, ghost extra: multiset<Id>)
      requires ValidBut(extra) && id in items
      modifies this`items, this`watches
      ensures ValidBut(extra) && StoreOf(items, links) == old(StoreOf(items, links)) && Unscheduled() == old(Unscheduled())
      ensures watches == Posted(old(watches), old(items)[id].watchers, Event(old(items)[id].cacheId, notice))
      ensures items == old(items)[id := old(items)[id].(watchers := {})]
      ensures Aside(old(Blocks()), Blocks(), {id})
    {
      hide LinksOk, Counted, PoolOk, ClockOk, StoreOf, UnscheduledOf, Posted;
      LinksRewatch(items, links, clock, id, {});
      CountedSame(items, links.table, refs, extra, id, items[id].(watchers := {}));
      PoolSame(items, pool, id, items[id].(watchers := {}));
      NotifyWatch(id, notice);
      items := items[id := items[id].(watchers := {})];
      assert items == old(items)[id := old(items)[id].(watchers := {})];
    }

    /** Takes a linked block out of the table and its list, tells its watchers, and drops the table's reference. */
    method DoUnlink(id: Id, notice: NotifyType)
      requires Valid() && id in links.table
      modifies this`items, this`links, this`pool, this`watches, this`exact
      ensures SamePlan(old(pool), pool)
      ensures Valid() && id in old(items) && old(items)[id].refCount > 0 && old(items)[id].expirationId < |old(links).lists|
      ensures links == WithUnlinked(old(links), id, old(items)[id].key, old(items)[id].expirationId)
      ensures links.table == old(links).table - {id} && links.lastId == old(links).lastId
      ensures items == Recount(old(items)[id := old(items)[id].(watchers := {})], id, old(items)[id].refCount - 1)
      ensures Contents() == Drop(old(Contents()), {old(items)[id].key})
      ensures Unscheduled() == old(Unscheduled()) - {id}
      ensures watches == Posted(old(watches), old(items)[id].watchers, Event(old(items)[id].cacheId, notice))
      ensures Aside(old(Blocks()), Blocks(), {})
      ensures old(exact) && Spare(old(refs), 0) ==> exact
      ensures exact == (old(exact) && SameTest(old(items)[id].refCount))
    {
      hide LinksOk, Counted, PoolOk, ClockOk, StoreOf, UnscheduledOf, Posted, Recount, WithUnlinked, Drop, Spare;
      LinksUnlink(items, links, clock, id);
      CountedUnlink(items, links.table, refs, id);
      LinksIndex(items, links, id);
      var j := links.index[items[id].key];
      WithUnlinkedMeans(links, j, items[j].key, items[j].expirationId);
      links := WithUnlinked(links, j, items[j].key, items[j].expirationId);
      ClearWatchers(id, notice, multiset{id});
      SpareRelease(items, links.table, refs, id);
      DoReleaseReference(id);
    }

    /** Looks a key up and takes a reference for the caller. */
    method DoGet(key: Key) returns (r: Option<Id>)
      requires Valid()
      modifies this`items, this`refs
      ensures Valid() && Contents() == old(Contents()) && Unscheduled() == old(Unscheduled())
      ensures r.None? <==> key !in Contents().entries
      ensures r.None? ==> items == old(items) && refs == old(refs) && key !in links.index
      ensures r.Some? ==>
                && r.value in links.table && r.value in old(items) && r.value in items && items[r.value].key == key
                && key in links.index && links.index[key] == r.value
                && items[r.value] == old(items)[r.value].(refCount := old(items)[r.value].refCount + 1)
                && items == Recount(old(items), r.value, old(items)[r.value].refCount + 1)
                && refs == old(refs).(handles := old(refs).handles + multiset{r.value})
                && Contents().entries[key] == EntryOf(items[r.value])
      ensures Aside(old(Blocks()), Blocks(), {})
      ensures Spare(old(refs), 1) ==> Spare(refs, 0)
    {
      hide Spare, LinksOk, Counted, PoolOk, ClockOk, StoreOf, UnscheduledOf;
      LinksFind(items, links, key);
      if key in links.index {
        var id := links.index[key];
        IndexFinds(items, links, key);
        var n := items[id].refCount + 1;
        LinksRecount(items, links, clock, id, n);
        CountedTake(items, links.table, refs, id);
        PoolSame(items, pool, id, items[id].(refCount := n));
        items := items[id := items[id].(refCount := n)];
        SpareMore(refs, id);
        refs := refs.(handles := refs.handles + multiset{id});
        LinksFind(items, links, key);
        r := Some(id);
      } else {
        SpareOne(refs);
        r := None;
      }
    }

    /** Gives back a reference the caller holds. */
    method Release(id: Id)
      requires Valid() && id in refs.handles
      modifies this`items, this`pool, this`refs, this`exact
      ensures SamePlan(old(pool), pool)
      ensures Valid() && Contents() == old(Contents()) && Unscheduled() == old(Unscheduled())
      ensures refs == old(refs).(handles := old(refs).handles - multiset{id})
      ensures id in old(items) && old(items)[id].refCount > 0
      ensures items == Recount(old(items), id, old(items)[id].refCount - 1)
      ensures Aside(old(Blocks()), Blocks(), {id})
      ensures old(exact) && Spare(old(refs), 0) ==> exact
      ensures exact == (old(exact) && SameTest(old(items)[id].refCount))
      ensures Spare(old(refs), 0) ==> Spare(refs, 0)
    {
      hide LinksOk, Counted, PoolOk, ClockOk, StoreOf, UnscheduledOf, Recount, Spare;
      CountedStrike(items, links.table, refs, id);
      refs := refs.(handles := refs.handles - multiset{id});
      assert refs.handles + multiset{id} == old(refs).handles;
      SpareRelease(items, links.table, refs, id);
      SpareLess(old(refs), refs);
      DoReleaseReference(id);
    }

    /** Puts a new block in the place of the linked one that carries its key. */
    method DoReplace(id: Id, newIt: Id)
      requires Valid() && id in links.table && newIt in refs.handles && newIt in items && newIt !in links.table
      requires id in items && items[id].key == items[newIt].key
      modifies this`items, this`links, this`pool, this`watches, this`exact
      ensures SamePlan(old(pool), pool)
      ensures Valid() && newIt in items && newIt in links.table
      ensures Contents() == Put(old(Contents()), old(items)[newIt].key, EntryOf(old(items)[newIt]))
      ensures items[newIt] == Linked(old(items)[newIt], links.lastId, clock.now) && items[newIt].cacheId == links.lastId
      ensures links.lastId == old(links).lastId + 1
      ensures forall i :: i in refs.handles && i != id && i != newIt && i in old(items) ==> i in items && items[i] == old(items)[i]
      ensures links.table == old(links).table - {id} + {newIt}
      ensures Unscheduled() == old(Unscheduled()) - {id} + if OnSchedule(old(items)[newIt], clock) then {} else {newIt}
      ensures watches == Posted(old(watches), old(items)[id].watchers, Event(old(items)[id].cacheId, DataUpdated))
      ensures Aside(old(Blocks()), Blocks(), {newIt})
      ensures old(exact) && Spare(old(refs), 0) ==> exact
    {
      hide Aside, LinksOk, Counted, PoolOk, ClockOk, StoreOf, UnscheduledOf, Scheduled, Put, Posted, WithUnlinked, Spare;
      DoUnlink(id, DataUpdated);
      PutAfterDrop(old(Contents()), items[newIt].key, EntryOf(items[newIt]));
      ghost var b := Blocks();
      DoLink(newIt);
      AsideTwice(old(Blocks()), b, Blocks(), {}, {newIt}, {newIt});
    }

    /** Adds a watch to a block. */
    method AddWatch(id: Id, watchId: nat)
      requires Valid() && id in items
      modifies this`items
      ensures Valid() && Contents() == old(Contents()) && Unscheduled() == old(Unscheduled())
      ensures items == old(items)[id := old(items)[id].(watchers := old(items)[id].watchers + {watchId})]
      ensures Aside(old(Blocks()), Blocks(), {id})
    {
      hide LinksOk, Counted, PoolOk, ClockOk, StoreOf, UnscheduledOf;
      var ws := items[id].watchers + {watchId};
      LinksRewatch(items, links, clock, id, ws);
      CountedSame(items, links.table, refs, multiset{}, id, items[id].(watchers := ws));
      PoolSame(items, pool, id, items[id].(watchers := ws));
      items := items[id := items[id].(watchers := ws)];
    }

    static predicate WatchOk(watches: map<nat, Watch>, watchId: nat) {
      watchId == 0 || watchId in watches
    }

    /** Links a held block under its absent key, with the watch named. */
    method LinkWatched(item: Id, watchId: nat)
      requires Valid() && item in items && item !in links.table && items[item].key !in Contents().entries
      modifies this`items, this`links
      ensures Valid() && Contents() == Put(old(Contents()), old(items)[item].key, EntryOf(old(items)[item]))
      ensures links.lastId == old(links).lastId + 1 && item in items && items[item].cacheId == links.lastId
      ensures items[item].watchers == old(items)[item].watchers + if watchId != 0 then {watchId} else {}
      ensures Unscheduled() == old(Unscheduled()) + if OnSchedule(old(items)[item], clock) then {} else {item}
      ensures Aside(old(Blocks()), Blocks(), {item})
      ensures FiledIn(items, links, old(items)[item].key, old(items)[item].expirationId)
    {
      hide Aside, LinksOk, Counted, PoolOk, ClockOk, StoreOf, UnscheduledOf, Put, Scheduled;
      AsideNone(Blocks());
      if watchId != 0 { AddWatch(item, watchId); }
      ghost var b := Blocks();
      DoLink(item);
      AsideTwice(old(Blocks()), b, Blocks(), {item}, {item}, {item});
      LinksIndex(items, links, item);
    }

    /** Stores the held block `item` unless its key is present. */
    method Add(item: Id, watchId: nat) returns (reason: Reason, cacheId: nat)
      requires Valid() && item in refs.handles && item in items && item !in links.table
      modifies this`items, this`links, this`pool, this`refs, this`exact
      ensures SamePlan(old(pool), pool)
      ensures Valid() && refs == old(refs)
      ensures Outcome(Contents(), reason) == Apply(old(Contents()),
                CacheSpec.Add(old(items)[item].key, EntryOf(old(items)[item]), WatchOk(old(watches), watchId)))
      ensures reason == Success ==> cacheId == links.lastId
      ensures reason == Success && watchId != 0 ==> item in items && watchId in items[item].watchers
      ensures Unscheduled() <= old(Unscheduled()) + if OnSchedule(old(items)[item], clock) then {} else {item}
      ensures Aside(old(Blocks()), Blocks(), {item})
      ensures old(exact) && Spare(old(refs), 1) ==> exact
      ensures reason == Success ==> FiledIn(items, links, old(items)[item].key, old(items)[item].expirationId)
    {
      hide Aside, LinksOk, Counted, PoolOk, ClockOk, StoreOf, UnscheduledOf, FiledIn, Put, Scheduled, Apply, Spare;
      AddAnswer(Contents(), items[item].key, EntryOf(items[item]), WatchOk(watches, watchId));
      cacheId := 0;
      var oldIt := DoGet(items[item].key);
      ghost var b := Blocks();
      if oldIt.None? {
        AsideLess(old(Blocks()), b, {}, {item});
        if !WatchOk(watches, watchId) { return WatchNotFound, cacheId; }
        LinkWatched(item, watchId);
        AsideTwice(old(Blocks()), b, Blocks(), {}, {item}, {item});
        return Success, items[item].cacheId;
      } else {
        Release(oldIt.value);
        AsideTwice(old(Blocks()), b, Blocks(), {}, {oldIt.value}, {item});
        return Exists, cacheId;
      }
    }

    /** The common end of `set` and `replace` for a key found under `id`: check the id and the watch, then replace. */
    method ReplaceFound(id: Id, item: Id, watchId: nat) returns (reason: Reason, cacheId: nat)
      requires Valid() && item in refs.handles && item in items && item !in links.table
      requires id in refs.handles && id in links.table && id in items && items[id].key == items[item].key
      modifies this`items, this`links, this`pool, this`watches, this`refs, this`exact
      ensures SamePlan(old(pool), pool)
      ensures Valid() && refs == old(refs).(handles := old(refs).handles - multiset{id})
      ensures reason == (if !(old(items)[item].cacheId == 0 || old(items)[item].cacheId == old(items)[id].cacheId) then Mismatch
                         else if !WatchOk(old(watches), watchId) then WatchNotFound else Success)
      ensures reason != Success ==> Contents() == old(Contents()) && Unscheduled() == old(Unscheduled()) && watches == old(watches)
      ensures reason == Success ==>
                && Contents() == Put(old(Contents()), old(items)[item].key, EntryOf(old(items)[item]))
                && cacheId == links.lastId
                && Unscheduled() == old(Unscheduled()) - {id} + (if OnSchedule(old(items)[item], clock) then {} else {item})
                && watches == Posted(old(watches), old(items)[id].watchers, Event(old(items)[id].cacheId, DataUpdated))
                && item in items && items[item].watchers == old(items)[item].watchers + if watchId != 0 then {watchId} else {}
      ensures Aside(old(Blocks()), Blocks(), {item})
      ensures old(exact) && Spare(old(refs), 0) ==> exact
    {
      hide Aside, LinksOk, Counted, PoolOk, ClockOk, StoreOf, UnscheduledOf, Put, Scheduled, Posted, Recount, Spare;
      cacheId := 0;
      AsideNone(Blocks());
      if items[item].cacheId == 0 || items[item].cacheId == items[id].cacheId {
        if WatchOk(watches, watchId) {
          reason := Success;
          DoReplace(id, item);
          ghost var b := Blocks();
          AsideNone(b);
          if watchId != 0 { AddWatch(item, watchId); }
          AsideTwice(old(Blocks()), b, Blocks(), {item}, {item}, {item});
          cacheId := items[item].cacheId;
        } else {
          reason := WatchNotFound;
        }
      } else {
        reason := Mismatch;
      }
      ReleaseKeeps(id, item);
      ghost var c := Blocks();
      Release(id);
      AsideTwice(old(Blocks()), c, Blocks(), {item}, {id}, {item});
    }

    /** Giving back one reference to `id` leaves every other block alone. */
    lemma ReleaseKeeps(id: Id, other: Id)
      ensures forall n: nat :: id in items && other != id && other in items ==>
                other in Recount(items, id, n) && Recount(items, id, n)[other] == items[other]
    {
    }

    /** Stores the held block `item`, replacing the one present if the id it names allows. */
    method Set(item: Id, watchId: nat) returns (reason: Reason, cacheId: nat)
      requires Valid() && item in refs.handles && item in items && item !in links.table
      modifies this`items, this`links, this`pool, this`watches, this`refs, this`exact
      ensures SamePlan(old(pool), pool)
      ensures Valid() && refs == old(refs)
      ensures watches == if reason == Success then Told(old(items), old(links), old(watches), old(items)[item].key, DataUpdated) else old(watches)
      ensures Outcome(Contents(), reason) == Apply(old(Contents()),
                CacheSpec.Set(old(items)[item].key, EntryOf(old(items)[item]), old(items)[item].cacheId, WatchOk(old(watches), watchId)))
      ensures reason == Success ==> cacheId == links.lastId
      ensures Unscheduled() <= old(Unscheduled()) + if OnSchedule(old(items)[item], clock) then {} else {item}
      ensures reason == Success && watchId != 0 ==> item in items && watchId in items[item].watchers
      ensures Aside(old(Blocks()), Blocks(), {item})
      ensures old(exact) && Spare(old(refs), 1) ==> exact
    {
      hide Aside, LinksOk, Counted, PoolOk, ClockOk, StoreOf, UnscheduledOf, Put, Scheduled, Posted, Apply, Spare;
      SetAnswer(Contents(), items[item].key, EntryOf(items[item]), items[item].cacheId, WatchOk(watches, watchId));
      var found := DoGet(items[item].key);
      ghost var b := Blocks();
      if found.Some? {
        reason, cacheId := ReplaceFound(found.value, item, watchId);
        AsideTwice(old(Blocks()), b, Blocks(), {}, {item}, {item});
      } else {
        AsideLess(old(Blocks()), b, {}, {item});
        if !WatchOk(watches, watchId) { return WatchNotFound, 0; }
        LinkWatched(item, watchId);
        AsideTwice(old(Blocks()), b, Blocks(), {}, {item}, {item});
        return Success, items[item].cacheId;
      }
    }

    /** Stores the held block `item` only in place of a present one. */
    method Replace(item: Id, watchId: nat) returns (reason: Reason, cacheId: nat)
      requires Valid() && item in refs.handles && item in items && item !in links.table
      modifies this`items, this`links, this`pool, this`watches, this`refs, this`exact
      ensures SamePlan(old(pool), pool)
      ensures Valid() && refs == old(refs)
      ensures watches == if reason == Success then Told(old(items), old(links), old(watches), old(items)[item].key, DataUpdated) else old(watches)
      ensures Outcome(Contents(), reason) == Apply(old(Contents()),
                CacheSpec.Replace(old(items)[item].key, EntryOf(old(items)[item]), old(items)[item].cacheId, WatchOk(old(watches), watchId)))
      ensures reason == Success ==> cacheId == links.lastId
      ensures Unscheduled() <= old(Unscheduled()) + if OnSchedule(old(items)[item], clock) then {} else {item}
      ensures reason == Success && watchId != 0 ==> item in items && watchId in items[item].watchers
      ensures Aside(old(Blocks()), Blocks(), {item})
      ensures old(exact) && Spare(old(refs), 1) ==> exact
    {
      hide Aside, LinksOk, Counted, PoolOk, ClockOk, StoreOf, UnscheduledOf, Put, Scheduled, Posted, Apply, Spare;
      SetAnswer(Contents(), items[item].key, EntryOf(items[item]), items[item].cacheId, WatchOk(watches, watchId));
      var found := DoGet(items[item].key);
      ghost var b := Blocks();
      AsideLess(old(Blocks()), b, {}, {item});
      if found.None? { return NotFound, 0; }
      reason, cacheId := ReplaceFound(found.value, item, watchId);
      AsideTwice(old(Blocks()), b, Blocks(), {}, {item}, {item});
    }

    /** Removes a key if the id named allows. */
    method Remove(key: Key, cacheId: nat) returns (reason: Reason)
      requires Valid()
      modifies this`items, this`links, this`pool, this`watches, this`refs, this`exact
      ensures SamePlan(old(pool), pool)
      ensures Valid() && refs == old(refs)
      ensures Outcome(Contents(), reason) == Apply(old(Contents()), CacheSpec.Remove(key, cacheId))
      ensures watches == if reason == Success then Told(old(items), old(links), old(watches), key, Deleted) else old(watches)
      ensures Unscheduled() <= old(Unscheduled())
      ensures Aside(old(Blocks()), Blocks(), {})
      ensures old(exact) && Spare(old(refs), 1) ==> exact
    {
      hide Aside, LinksOk, Counted, PoolOk, ClockOk, StoreOf, UnscheduledOf, Drop, Scheduled, Posted, Apply, Recount, WithUnlinked, Spare;
      RemoveAnswer(Contents(), key, cacheId);
      var found := DoGet(key);
      if found.None? { return NotFound; }
      ghost var b := Blocks();
      AsideNone(b);
      if cacheId == 0 || cacheId == items[found.value].cacheId {
        DoUnlink(found.value, Deleted);
        reason := Success;
      } else {
        reason := Mismatch;
      }
      ghost var c := Blocks();
      AsideTwice(old(Blocks()), b, c, {}, {}, {});
      Release(found.value);
      AsideTwice(old(Blocks()), c, Blocks(), {}, {found.value}, {});
    }

    /** Whether a copy of the entry under `key`, with other data, could be allocated. */
    static ghost predicate Fits(st: Store, p: Pool, key: Key, data: seq<byte>, block: Option<Id>) {
      key in st.entries && CanAlloc(p, ItemSize(p.header, key, data, st.entries[key].ext), block)
    }

    /** The data of a block added at one end of what is stored under its key. */
    static ghost function Extended(st: Store, it: Item, atFront: bool): seq<byte> {
      var was := if it.key in st.entries then st.entries[it.key].data else [];
      if atFront then it.data + was else was + it.data
    }

    static ghost function ExtendOp(st: Store, p: Pool, it: Item, watchOk: bool, block: Option<Id>, atFront: bool): Op {
      var fits := Fits(st, p, it.key, Extended(st, it, atFront), block);
      if atFront then CacheSpec.Prepend(it.key, it.data, it.cacheId, watchOk, fits)
      else CacheSpec.Append(it.key, it.data, it.cacheId, watchOk, fits)
    }

    static lemma ExtendMeans(st: Store, p: Pool, it: Item, watchOk: bool, block: Option<Id>, atFront: bool)
      ensures var out := Apply(st, ExtendOp(st, p, it, watchOk, block, atFront));
              if it.key !in st.entries then out == Outcome(st, NotFound)
              else
                var e := st.entries[it.key];
                var data := if atFront then it.data + e.data else e.data + it.data;
                out == if !Allows(it.cacheId, e) then Outcome(st, Mismatch)
                       else if !CanAlloc(p, ItemSize(p.header, it.key, data, e.ext), block) then Outcome(st, OutOfMemory)
                       else if !watchOk then Outcome(st, WatchNotFound)
                       else Outcome(Put(st, it.key, e.(data := data)), Success)
    {
      hide Apply, CanAlloc, ItemSize, Put;
      ExtendAnswer(st, it.key, it.data, it.cacheId, watchOk, Fits(st, p, it.key, Extended(st, it, atFront), block));
    }

    /** The watches after those of the item stored under a key have been told of what happens to it. */
    static ghost function Told(items: map<Id, Item>, links: Links, watches: map<nat, Watch>, key: Key, notice: NotifyType): map<nat, Watch> {
      if key in links.index && links.index[key] in items then
        var it := items[links.index[key]];
        Posted(watches, it.watchers, Event(it.cacheId, notice))
      else watches
    }

    /** Who is told, and what: each living watch of the item stored under the key, once, with the id it had. */
    static lemma ToldAt(items: map<Id, Item>, links: Links, watches: map<nat, Watch>, key: Key, notice: NotifyType)
      ensures Told(items, links, watches, key, notice).Keys == watches.Keys
      ensures forall w :: w in watches ==>
                var now := Told(items, links, watches, key, notice)[w];
                && now.expireTime == watches[w].expireTime
                && now.posted == watches[w].posted +
                     if key in links.index && links.index[key] in items && w in items[links.index[key]].watchers
                     then [Event(items[links.index[key]].cacheId, notice)] else []
    {
      assert forall w :: w in watches ==> watches[w].posted + [] == watches[w].posted;
    }

    static lemma ToldMeans(items: map<Id, Item>, links: Links, watches: map<nat, Watch>, id: Id, key: Key, notice: NotifyType)
      requires id in items && key in links.index && links.index[key] == id
      ensures Told(items, links, watches, key, notice) == Posted(watches, items[id].watchers, Event(items[id].cacheId, notice))
    {
    }

    /** The references after a lookup whose result was never given back: one is lost. */
    static ghost function Leaking(refs: Refs, links: Links, key: Key): Refs {
      if key in links.index then refs.(leaked := refs.leaked + multiset{links.index[key]}) else refs
    }

    static lemma LeakMeans(refs: Refs, links: Links, id: Id, key: Key)
      requires key in links.index && links.index[key] == id
      ensures Refs(refs.handles + multiset{id} - multiset{id}, refs.leaked + multiset{id}) == Leaking(refs, links, key)
    {
      assert refs.handles + multiset{id} - multiset{id} == refs.handles;
    }

    /** Writes off a reference, as the mismatch branches do with a lookup's, and a closing connection with its draft's. */
    ghost method Leak(id: Id)
      requires Valid() && id in refs.handles
      modifies this`refs
      ensures Valid() && Contents() == old(Contents())
      ensures refs == Refs(old(refs).handles - multiset{id}, old(refs).leaked + multiset{id})
      ensures id in items && (id in links.table ==> items[id].key in links.index && links.index[items[id].key] == id)
    {
      hide LinksOk, Counted, PoolOk, ClockOk, StoreOf;
      CountedStrike(items, links.table, refs, id);
      if id in links.table { LinksIndex(items, links, id); }
      refs := Refs(refs.handles - multiset{id}, refs.leaked + multiset{id});
    }

    static function Named(item: Option<Id>): set<Id> {
      if item.Some? then {item.value} else {}
    }

    /** What is stored under a key has exactly the watchers `ws`. */
    ghost predicate StoredWatchers(key: Key, ws: set<nat>)
      reads this
    {
      key in links.index && links.index[key] in items && items[links.index[key]].watchers == ws
    }

    /** The copy takes the found block's place; the watch named is put on the request's own block. */
    method Exchange(id: Id, copy: Id, item: Option<Id>, watchId: nat)
      requires Valid() && id in links.table && id in items
      requires copy in refs.handles && copy in items && copy !in links.table && items[copy].key == items[id].key
      requires item.Some? ==> item.value in refs.handles && item.value in items && item.value !in links.table && item.value != copy
      modifies this`items, this`links, this`pool, this`watches, this`exact
      ensures SamePlan(old(pool), pool)
      ensures Valid() && copy in items && copy in links.table
      ensures items[copy].key == old(items)[id].key && items[copy].watchers == old(items)[copy].watchers
      ensures items[copy].cacheId == links.lastId
      ensures Contents() == Put(old(Contents()), old(items)[id].key, EntryOf(old(items)[copy]))
      ensures watches == Posted(old(watches), old(items)[id].watchers, Event(old(items)[id].cacheId, DataUpdated))
      ensures watchId != 0 && item.Some? ==> item.value in items && watchId in items[item.value].watchers
      ensures Unscheduled() <= old(Unscheduled()) + if OnSchedule(old(items)[copy], clock) then {} else {copy}
      ensures Aside(old(Blocks()), Blocks(), {copy} + Named(item))
      ensures old(exact) && Spare(old(refs), 0) ==> exact
    {
      hide Aside, LinksOk, Counted, PoolOk, ClockOk, StoreOf, UnscheduledOf, Put, OnSchedule, Posted, Spare;
      DoReplace(id, copy);
      ghost var b := Blocks();
      AsideNone(b);
      if watchId != 0 && item.Some? { AddWatch(item.value, watchId); }
      AsideTwice(old(Blocks()), b, Blocks(), {copy}, Named(item), {copy} + Named(item));
    }

    /** What becomes of the block `id` when an entry `e` watched by `ws` is to take its place: all, or nothing. */
    twostate predicate Copied(id: Id, e: Entry, ws: set<nat>, item: Option<Id>, watchId: nat, reason: Reason, cacheId: nat)
      reads this
      requires old(Valid()) && Valid() && id in old(items)
    {
      if reason == Success then
        && Contents() == Put(old(Contents()), old(items)[id].key, e) && cacheId == links.lastId
        && watches == Posted(old(watches), old(items)[id].watchers, Event(old(items)[id].cacheId, DataUpdated))
        && StoredWatchers(old(items)[id].key, ws)
        && (watchId != 0 && item.Some? ==> item.value in items && watchId in items[item.value].watchers)
      else
        Contents() == old(Contents()) && watches == old(watches)
    }

    /** What is answered to a request for a copy of a block holding other data. */
    static ghost function CopyAnswer(p: Pool, it: Item, data: seq<byte>, watchOk: bool, block: Option<Id>): Reason {
      if !CanAlloc(p, ItemSize(p.header, it.key, data, it.ext), block) then OutOfMemory
      else if watchOk then Success else WatchNotFound
    }

    /** Puts the allocated copy in the found block's place if the watch named exists; gives back the copy's reference. */
    method InstallCopy(id: Id, copy: Id, item: Option<Id>, watchId: nat) returns (reason: Reason, cacheId: nat)
      requires Valid() && id in links.table && id in items
      requires copy in refs.handles && copy in items && copy !in links.table && items[copy].key == items[id].key
      requires item.Some? ==> item.value in refs.handles && item.value in items && item.value !in links.table && item.value != copy
      modifies this`items, this`links, this`pool, this`watches, this`refs, this`exact
      ensures SamePlan(old(pool), pool)
      ensures Valid() && refs == old(refs).(handles := old(refs).handles - multiset{copy})
      ensures reason == if WatchOk(old(watches), watchId) then Success else WatchNotFound
      ensures Copied(id, EntryOf(old(items)[copy]), old(items)[copy].watchers, item, watchId, reason, cacheId)
      ensures reason != Success ==> Unscheduled() == old(Unscheduled())
      ensures reason == Success ==>
                && old(items)[id].key in links.index && links.index[old(items)[id].key] == copy
                && Unscheduled() <= old(Unscheduled()) + if OnSchedule(old(items)[copy], clock) then {} else {copy}
      ensures Aside(old(Blocks()), Blocks(), {copy} + Named(item))
      ensures old(exact) && Spare(old(refs), 0) ==> exact
    {
      hide Aside, LinksOk, Counted, PoolOk, ClockOk, StoreOf, UnscheduledOf, Put, OnSchedule, Posted, Recount, Linked, Spare;
      cacheId := 0;
      AsideNone(Blocks());
      if WatchOk(watches, watchId) {
        reason := Success;
        Exchange(id, copy, item, watchId);
        cacheId := items[copy].cacheId;
      } else {
        reason := WatchNotFound;
      }
      ghost var c := Blocks();
      RecountSelf(items, copy);
      if item.Some? { ReleaseKeeps(copy, item.value); }
      Release(copy);
      AsideTwice(old(Blocks()), c, Blocks(), {copy} + Named(item), {copy}, {copy} + Named(item));
      if reason == Success { LinksIndex(items, links, copy); }
    }

    /** Replaces the found block by a copy of it holding `data`, if there is room and the watch named exists. */
    method PutCopy(id: Id, item: Option<Id>, data: seq<byte>, watchId: nat, block: Option<Id>)
      returns (reason: Reason, cacheId: nat)
      requires Valid() && id in links.table && id in items
      requires item.Some? ==> item.value in refs.handles && item.value in items && item.value !in links.table
      requires block.Some? ==> block.value !in pool.capacity
      modifies this`items, this`links, this`pool, this`watches, this`refs, this`exact
      ensures SamePlan(old(pool), pool)
      ensures Valid() && refs == old(refs)
      ensures reason == CopyAnswer(old(pool), old(items)[id], data, WatchOk(old(watches), watchId), block)
      ensures Copied(id, EntryOf(old(items)[id]).(data := data), {}, item, watchId, reason, cacheId)
      ensures reason == Success ==> old(items)[id].key in links.index && links.index[old(items)[id].key] !in old(items)
      ensures Unscheduled() <= old(Unscheduled())
      ensures Aside(old(Blocks()), Blocks(), Named(item))
      ensures old(exact) && Spare(old(refs), 0) ==> exact
    {
      hide Aside, LinksOk, Counted, PoolOk, ClockOk, StoreOf, UnscheduledOf, OnSchedule, Posted, CanAlloc, IsBucket, Recount, Put, ItemSize, Spare;
      var it := items[id];
      PutIgnoresVersion(Contents(), it.key, EntryOf(it).(data := data), 0);
      assert EntryOf(it).(data := data, version := 0) == Entry(data, it.flags, it.ext, it.expireTime, 0);
      var copy := DoAlloc(it.key, it.flags, it.expireTime, data, it.ext, block);
      ghost var b := Blocks();
      AsideLess(old(Blocks()), b, {}, Named(item));
      if copy.None? { return OutOfMemory, 0; }
      FiledNow(items[copy.value]);
      TakeAndGiveBack(old(refs), copy.value);
      reason, cacheId := InstallCopy(id, copy.value, item, watchId);
      AsideTwice(old(Blocks()), b, Blocks(), {}, {copy.value} + Named(item), Named(item));
    }

    /** The same, and the lookup reference is given back. */
    method CopyOver(id: Id, item: Option<Id>, data: seq<byte>, watchId: nat, block: Option<Id>)
      returns (reason: Reason, cacheId: nat)
      requires Valid() && id in refs.handles && id in links.table && id in items
      requires item.Some? ==> item.value in refs.handles && item.value in items && item.value !in links.table
      requires block.Some? ==> block.value !in pool.capacity
      modifies this`items, this`links, this`pool, this`watches, this`refs, this`exact
      ensures SamePlan(old(pool), pool)
      ensures Valid() && refs == old(refs).(handles := old(refs).handles - multiset{id})
      ensures reason == CopyAnswer(old(pool), old(items)[id], data, WatchOk(old(watches), watchId), block)
      ensures Copied(id, EntryOf(old(items)[id]).(data := data), {}, item, watchId, reason, cacheId)
      ensures Unscheduled() <= old(Unscheduled())
      ensures Aside(old(Blocks()), Blocks(), Named(item))
      ensures old(exact) && Spare(old(refs), 0) ==> exact
    {
      hide Aside, LinksOk, Counted, PoolOk, ClockOk, StoreOf, UnscheduledOf, OnSchedule, Posted, CanAlloc, Recount, Put, ItemSize, Spare;
      reason, cacheId := PutCopy(id, item, data, watchId, block);
      ghost var b := Blocks();
      ghost var key := old(items)[id].key;
      if reason == Success { ReleaseKeeps(id, links.index[key]); }
      if item.Some? { ReleaseKeeps(id, item.value); }
      Release(id);
      AsideTwice(old(Blocks()), b, Blocks(), Named(item), {id}, Named(item));
    }

    /**
     The body shared by `append` and `prepend`: the data of the held block `item` goes behind or before what is
     stored. A mismatch keeps the lookup reference for ever; a new watch is put on `item`, not on what is stored.
     */
    method Extend(item: Id, watchId: nat, block: Option<Id>, atFront: bool) returns (reason: Reason, cacheId: nat)
      requires Valid() && item in refs.handles && item in items && item !in links.table
      requires block.Some? ==> block.value !in pool.capacity
      modifies this`items, this`links, this`pool, this`watches, this`refs, this`exact
      ensures SamePlan(old(pool), pool)
      ensures Valid()
      ensures Outcome(Contents(), reason) == Apply(old(Contents()),
                ExtendOp(old(Contents()), old(pool), old(items)[item], WatchOk(old(watches), watchId), block, atFront))
      ensures refs == if reason == Mismatch then Leaking(old(refs), old(links), old(items)[item].key) else old(refs)
      ensures reason == Success ==> cacheId == links.lastId
      ensures watches == if reason == Success then Told(old(items), old(links), old(watches), old(items)[item].key, DataUpdated) else old(watches)
      ensures reason == Success ==> StoredWatchers(old(items)[item].key, {})
      ensures reason == Success && watchId != 0 ==> item in items && watchId in items[item].watchers
      ensures Unscheduled() <= old(Unscheduled())
      ensures Aside(old(Blocks()), Blocks(), {item})
      ensures old(exact) && Spare(old(refs), 1) ==> exact
    {
      hide Aside, StoredWatchers, LinksOk, Counted, PoolOk, ClockOk, StoreOf, UnscheduledOf, Put, OnSchedule, Posted, Apply, CanAlloc, ItemSize, Told, ExtendOp, Fits, Extended, Spare;
      var it := items[item];
      ExtendMeans(Contents(), pool, it, WatchOk(watches, watchId), block, atFront);
      var found := DoGet(it.key);
      ghost var b := Blocks();
      AsideLess(old(Blocks()), b, {}, {item});
      if found.None? { return NotFound, 0; }
      var was := items[found.value];
      if it.cacheId != 0 && it.cacheId != was.cacheId {
        Leak(found.value);
        return Mismatch, 0;
      }
      ToldMeans(old(items), links, watches, found.value, it.key, DataUpdated);
      reason, cacheId := CopyOver(found.value, Some(item), if atFront then it.data + was.data else was.data + it.data, watchId, block);
      AsideTwice(old(Blocks()), b, Blocks(), {}, {item}, {item});
    }

    /** Changes a linked block's data or flags in place, under a fresh id. */
    method ChangeInPlace(id: Id, data: seq<byte>, flags: nat)
      requires Valid() && id in links.table && id in items && |data| == |items[id].data|
      modifies this`items, this`links
      ensures Valid() && id in items && links == old(links).(lastId := old(links).lastId + 1)
      ensures Contents() == Put(old(Contents()), old(items)[id].key, EntryOf(old(items)[id]).(data := data, flags := flags))
      ensures items[id].cacheId == links.lastId && Unscheduled() == old(Unscheduled())
      ensures items == old(items)[id := old(items)[id].(data := data, flags := flags, cacheId := links.lastId, lastUpdate := clock.now)]
      ensures Aside(old(Blocks()), Blocks(), {})
    {
      hide LinksOk, Counted, PoolOk, ClockOk, StoreOf, UnscheduledOf, Put;
      var it := items[id].(data := data, flags := flags, cacheId := links.lastId + 1, lastUpdate := clock.now);
      LinksChange(items, links, clock, id, it);
      CountedSame(items, links.table, refs, multiset{}, id, it);
      PoolSame(items, pool, id, it);
      PutIgnoresVersion(Contents(), it.key, EntryOf(items[id]).(data := data, flags := flags), links.lastId + 1);
      links := links.(lastId := links.lastId + 1);
      items := items[id := it];
    }

    static ghost function DeltaOp(st: Store, p: Pool, key: Key, incr: bool, delta: int, expected: nat, block: Option<Id>,
                                  rest: Decimal.Memory): Op {
      var text := if key in st.entries then Decimal.Print(DeltaValue(st.entries[key], incr, delta, rest)) else [];
      CacheSpec.Delta(key, incr, delta, expected,
                      key in st.entries && (|text| == |st.entries[key].data| || Fits(st, p, key, text, block)), rest)
    }

    static lemma DeltaOpMeans(st: Store, p: Pool, key: Key, incr: bool, delta: int, expected: nat, block: Option<Id>, rest: Decimal.Memory)
      ensures var op := DeltaOp(st, p, key, incr, delta, expected, block, rest);
              && op == CacheSpec.Delta(key, incr, delta, expected, op.fits, rest)
              && (key in st.entries ==>
                    var text := Decimal.Print(DeltaValue(st.entries[key], incr, delta, rest));
                    op.fits <==>
                      || |text| == |st.entries[key].data|
                      || CanAlloc(p, ItemSize(p.header, key, text, st.entries[key].ext), block))
    {
    }

    /** The number in a block's text after a counter step; unreadable text counts as 0. `rest` lies behind the block's ext. */
    method Counter(it: Item, incr: bool, delta: int, rest: Decimal.Memory) returns (value: int)
      ensures value == DeltaValue(EntryOf(it), incr, delta, rest)
      ensures Decimal.Settled(it.data) ==>
                value == Decimal.Wrap64(if incr then Decimal.Number(it.data) + delta else Decimal.Number(it.data) - delta)
    {
      hide Decimal.ParseIn, Decimal.Wrap64, Decimal.Settled;
      Decimal.ParseInIsParse(it.data);
      var ok, v := Decimal.SafeToI64(it.data, Behind(it.ext, rest));
      value := Decimal.Wrap64(if incr then v + delta else v - delta);
    }

    /** Gives the found block other data, in place when the length is the same; gives back the lookup reference. */
    method Rewrite(id: Id, data: seq<byte>, block: Option<Id>) returns (reason: Reason, cacheId: nat)
      requires Valid() && id in refs.handles && id in links.table && id in items
      requires block.Some? ==> block.value !in pool.capacity
      modifies this`items, this`links, this`pool, this`watches, this`refs, this`exact
      ensures SamePlan(old(pool), pool)
      ensures Valid() && refs == old(refs).(handles := old(refs).handles - multiset{id})
      ensures reason == Success || reason == OutOfMemory
      ensures reason == Success <==>
                || |data| == |old(items)[id].data|
                || CanAlloc(old(pool), ItemSize(old(pool).header, old(items)[id].key, data, old(items)[id].ext), block)
      ensures reason != Success ==> Contents() == old(Contents())
      ensures reason == Success ==> Contents() == Put(old(Contents()), old(items)[id].key, EntryOf(old(items)[id]).(data := data))
      ensures reason == Success ==> cacheId == links.lastId
      ensures watches == if reason == Success && |data| != |old(items)[id].data|
                         then Posted(old(watches), old(items)[id].watchers, Event(old(items)[id].cacheId, DataUpdated)) else old(watches)
      ensures Unscheduled() <= old(Unscheduled())
      ensures Aside(old(Blocks()), Blocks(), {})
      ensures old(exact) && Spare(old(refs), 0) ==> exact
    {
      hide Aside, LinksOk, Counted, PoolOk, ClockOk, StoreOf, UnscheduledOf, Put, Posted, CanAlloc, ItemSize, Recount, Spare;
      if |data| != |items[id].data| {
        reason, cacheId := CopyOver(id, None, data, 0, block);
      } else {
        assert EntryOf(items[id]).(data := data, flags := items[id].flags) == EntryOf(items[id]).(data := data);
        ChangeInPlace(id, data, items[id].flags);
        reason, cacheId := Success, items[id].cacheId;
        ghost var b := Blocks();
        Release(id);
        AsideTwice(old(Blocks()), b, Blocks(), {}, {id}, {});
      }
    }

    /** Adds to or subtracts from a decimal counter, in place when the text keeps its length. */
    method Delta(key: Key, incr: bool, delta: int, expected: nat, block: Option<Id>, rest: Decimal.Memory)
      returns (reason: Reason, cacheId: nat, value: int)
      requires Valid() && (block.Some? ==> block.value !in pool.capacity)
      modifies this`items, this`links, this`pool, this`watches, this`refs, this`exact
      ensures SamePlan(old(pool), pool)
      ensures Valid() && refs == old(refs)
      ensures Outcome(Contents(), reason) ==
                Apply(old(Contents()), DeltaOp(old(Contents()), old(pool), key, incr, delta, expected, block, rest))
      ensures reason == Success ==> cacheId == links.lastId
      ensures reason == Success ==>
                && key in old(Contents()).entries
                && value == DeltaValue(old(Contents()).entries[key], incr, delta, rest)
                && watches == (if |Decimal.Print(value)| == |old(Contents()).entries[key].data| then old(watches)
                               else Told(old(items), old(links), old(watches), key, DataUpdated))
      ensures reason != Success ==> watches == old(watches)
      ensures Unscheduled() <= old(Unscheduled())
      ensures Aside(old(Blocks()), Blocks(), {})
      ensures old(exact) && Spare(old(refs), 1) ==> exact
    {
      hide Aside, LinksOk, Counted, PoolOk, ClockOk, StoreOf, UnscheduledOf, Put, OnSchedule, Posted, Apply, CanAlloc, ItemSize,
           DeltaValue, Decimal.Print, Recount, Told, DeltaOp, Spare;
      DeltaOpMeans(Contents(), pool, key, incr, delta, expected, block, rest);
      DeltaAnswer(Contents(), key, incr, delta, expected,
                  DeltaOp(Contents(), pool, key, incr, delta, expected, block, rest).fits, rest);
      var found := DoGet(key);
      ghost var b := Blocks();
      if found.None? { return NotFound, 0, 0; }
      var it := items[found.value];
      if expected == 0 || expected == it.cacheId {
        ToldMeans(old(items), links, watches, found.value, key, DataUpdated);
        value := Counter(it, incr, delta, rest);
        reason, cacheId := Rewrite(found.value, Decimal.Print(value), block);
        AsideTwice(old(Blocks()), b, Blocks(), {}, {}, {});
      } else {
        Release(found.value);
        AsideTwice(old(Blocks()), b, Blocks(), {}, {found.value}, {});
        return Mismatch, 0, 0;
      }
    }

    /** Tells a linked block's watchers, keeping those whose watch still exists. */
    method Notify(id: Id, notice: NotifyType)
      requires Valid() && id in items
      modifies this`items, this`watches
      ensures Valid() && Contents() == old(Contents()) && Unscheduled() == old(Unscheduled())
      ensures watches == Posted(old(watches), old(items)[id].watchers, Event(old(items)[id].cacheId, notice))
      ensures items == old(items)[id := old(items)[id].(watchers := old(items)[id].watchers * old(watches).Keys)]
      ensures Aside(old(Blocks()), Blocks(), {id})
    {
      hide LinksOk, Counted, PoolOk, ClockOk, StoreOf, UnscheduledOf, Posted;
      ghost var ws := items[id].watchers * watches.Keys;
      LinksRewatch(items, links, clock, id, ws);
      CountedSame(items, links.table, refs, multiset{}, id, items[id].(watchers := ws));
      PoolSame(items, pool, id, items[id].(watchers := ws));
      NotifyWatch(id, notice);
    }

    /** Tells a linked item's watchers and changes its flags under a fresh id. */
    method Reflag(id: Id, flags: nat)
      requires Valid() && id in links.table && id in items
      modifies this`items, this`links, this`watches
      ensures Valid() && id in items && links == old(links).(lastId := old(links).lastId + 1)
      ensures Contents() == Put(old(Contents()), old(items)[id].key, EntryOf(old(items)[id]).(flags := flags))
      ensures items[id].cacheId == links.lastId && Unscheduled() == old(Unscheduled())
      ensures watches == Posted(old(watches), old(items)[id].watchers, Event(old(items)[id].cacheId, BaseInfoUpdated))
      ensures Aside(old(Blocks()), Blocks(), {})
    {
      hide Aside, LinksOk, Counted, PoolOk, ClockOk, StoreOf, UnscheduledOf, Put, Posted;
      PostedNone(watches, Event(items[id].cacheId, BaseInfoUpdated));
      AsideNone(Blocks());
      if items[id].watchers != {} { Notify(id, BaseInfoUpdated); }
      ghost var b := Blocks();
      assert EntryOf(items[id]).(data := items[id].data, flags := flags) == EntryOf(old(items)[id]).(flags := flags);
      ChangeInPlace(id, items[id].data, flags);
      AsideTwice(old(Blocks()), b, Blocks(), {id}, {}, {});
    }

    /** Changes an entry's flags if the id named allows. A mismatch keeps the lookup reference for ever. */
    method UpdateFlags(key: Key, flags: nat, expected: nat) returns (reason: Reason, cacheId: nat)
      requires Valid()
      modifies this`items, this`links, this`pool, this`watches, this`refs, this`exact
      ensures SamePlan(old(pool), pool)
      ensures Valid()
      ensures Outcome(Contents(), reason) == Apply(old(Contents()), CacheSpec.UpdateFlags(key, flags, expected))
      ensures watches == if reason == Success then Told(old(items), old(links), old(watches), key, BaseInfoUpdated) else old(watches)
      ensures refs == if reason == Mismatch then Leaking(old(refs), old(links), key) else old(refs)
      ensures reason == Success ==> cacheId == links.lastId
      ensures reason != Success ==> (cacheId == 0 <==> reason == NotFound)
      ensures Unscheduled() == old(Unscheduled())
      ensures Aside(old(Blocks()), Blocks(), {})
      ensures old(exact) && Spare(old(refs), 1) ==> exact
      ensures reason != Success ==> links == old(links)
    {
      hide Aside, LinksOk, Counted, PoolOk, ClockOk, StoreOf, UnscheduledOf, Put, Posted, Apply, Recount, Spare, Told, Leaking;
      FlagsAnswer(Contents(), key, flags, expected);
      cacheId := 0;
      var found := DoGet(key);
      if found.None? { return NotFound, 0; }
      var id := found.value;
      ghost var b := Blocks();
      if expected == 0 || expected == items[id].cacheId {
        ToldMeans(old(items), links, watches, id, key, BaseInfoUpdated);
        Reflag(id, flags);
        cacheId := items[id].cacheId;
        ghost var c := Blocks();
        AsideTwice(old(Blocks()), b, c, {}, {}, {});
        Release(id);
        AsideTwice(old(Blocks()), c, Blocks(), {}, {id}, {});
        reason := Success;
      } else {
        LinkedIdIssued(items, links, id);
        cacheId := items[id].cacheId;
        LeakMeans(old(refs), links, id, key);
        Leak(id);
        reason := Mismatch;
      }
    }

    /** Gives a linked block another expiry or bucket, moving it to the front of its list when asked. */
    method Refile(id: Id, b: nat, t: nat, move: bool)
      requires Valid() && id in links.table && id in items && b <= FOREVER && (move || b == items[id].expirationId)
      modifies this`items, this`links
      ensures Valid() && links.table == old(links).table && items[id].key in old(Contents()).entries
      ensures items == old(items)[id := old(items)[id].(expirationId := b, expireTime := t)]
      ensures old(items)[id].expirationId < |old(links).lists| && b < |old(links).lists|
      ensures links == if move then WithMoved(old(links), id, old(items)[id].expirationId, b) else old(links)
      ensures Contents() == Retime(old(Contents()), old(items)[id].key, t)
      ensures t == old(items)[id].expireTime ==> Contents() == old(Contents())
      ensures Unscheduled() == old(Unscheduled()) - {id} + if OnSchedule(items[id], clock) then {} else {id}
      ensures Aside(old(Blocks()), Blocks(), {})
    {
      hide LinksOk, Counted, PoolOk, ClockOk, StoreOf, UnscheduledOf, Retime, OnSchedule, WithMoved;
      var it := items[id].(expirationId := b, expireTime := t);
      LinksMove(items, links, clock, id, b, t, move);
      CountedSame(items, links.table, refs, multiset{}, id, it);
      PoolSame(items, pool, id, it);
      links := if move then WithMoved(links, id, items[id].expirationId, b) else links;
      items := items[id := it];
    }

    /** An item filed in the bucket of the current second is on schedule. */
    lemma FiledNow(it: Item)
      requires ClockOk(clock) && IsBucket(clock.now, it.expireTime, it.expirationId)
      ensures OnSchedule(it, clock)
    {
      FilingSchedules(clock.checkTime, clock.lastSweep, clock.now, it.expireTime, it.expirationId);
    }

    /** Moves an entry's expiry, and its item to the right bucket. A mismatch keeps the lookup reference for ever. */
    method UpdateExpiration(key: Key, expiration: nat, expected: nat) returns (reason: Reason, cacheId: nat)
      requires Valid()
      modifies this`items, this`links, this`pool, this`refs, this`exact
      ensures SamePlan(old(pool), pool)
      ensures Valid()
      ensures Outcome(Contents(), reason) ==
                Apply(old(Contents()), CacheSpec.UpdateExpiration(key, Realtime(clock.now, expiration), expected))
      ensures refs == if reason == Mismatch then Leaking(old(refs), old(links), key) else old(refs)
      ensures reason != Success ==> (cacheId == 0 <==> reason == NotFound)
      ensures Unscheduled() <= old(Unscheduled())
      ensures Aside(old(Blocks()), Blocks(), {})
      ensures old(exact) && Spare(old(refs), 1) ==> exact
    {
      hide Aside, LinksOk, Counted, PoolOk, ClockOk, StoreOf, UnscheduledOf, Retime, Apply, Recount, OnSchedule, IsBucket, WithMoved, Spare, Leaking;
      ExpirationAnswer(Contents(), key, Realtime(clock.now, expiration), expected);
      cacheId := 0;
      var found := DoGet(key);
      if found.None? { return NotFound, 0; }
      var id := found.value;
      ghost var was := Blocks();
      if expected == 0 || expected == items[id].cacheId {
        var t := Realtime(clock.now, expiration);
        var b := GetExpirationId(clock.now, t);
        FiledNow(items[id].(expirationId := b, expireTime := t));
        Refile(id, b, t, b != items[id].expirationId);
        cacheId := items[id].cacheId;
        ghost var c := Blocks();
        AsideTwice(old(Blocks()), was, c, {}, {}, {});
        Release(id);
        AsideTwice(old(Blocks()), c, Blocks(), {}, {id}, {});
        reason := Success;
      } else {
        cacheId := 0xFFFF_FFFF_FFFF_FFFF;
        LeakMeans(old(refs), links, id, key);
        Leak(id);
        reason := Mismatch;
      }
    }

    /** Reads an entry; one found expired is removed on the spot. On success the caller holds a reference. */
    method Get(key: Key, watchId: nat) returns (r: Option<Id>, expiration: nat, reason: Reason)
      requires Valid()
      modifies this`items, this`links, this`pool, this`watches, this`refs, this`exact
      ensures SamePlan(old(pool), pool)
      ensures Valid()
      ensures Outcome(Contents(), reason) ==
                Apply(old(Contents()), CacheSpec.Get(key, clock.now, WatchOk(old(watches), watchId)))
      ensures reason == Success <==> r.Some?
      ensures r.None? ==> refs == old(refs)
      ensures r.Some? ==>
                && refs == old(refs).(handles := old(refs).handles + multiset{r.value})
                && key in old(links).index && r.value == old(links).index[key]
                && r.value in items && Find(old(Contents()), key) == Some(EntryOf(items[r.value]))
                && expiration == (if items[r.value].expireTime == 0 then 0 else items[r.value].expireTime - clock.now)
                && (watchId != 0 ==> watchId in items[r.value].watchers)
      ensures var e := Find(old(Contents()), key);
              watches == if e.Some? && CacheSpec.Expired(e.value, clock.now) then Told(old(items), old(links), old(watches), key, NotifyType.Expired)
                         else old(watches)
      ensures Unscheduled() <= old(Unscheduled())
      ensures Aside(old(Blocks()), Blocks(), {})
      ensures old(exact) && Spare(old(refs), 1) ==> exact
      ensures reason == Success ==> links == old(links)
    {
      hide Aside, LinksOk, Counted, PoolOk, ClockOk, StoreOf, UnscheduledOf, Apply, Recount, Drop, Posted, WithUnlinked, Spare;
      GetAnswer(Contents(), key, clock.now, 0, WatchOk(watches, watchId));
      expiration := 0;
      r := DoGet(key);
      if r.None? { return None, 0, NotFound; }
      var id := r.value;
      ghost var b := Blocks();
      if 0 < items[id].expireTime <= clock.now {
        DoUnlink(id, Expired);
        ghost var c := Blocks();
        AsideTwice(old(Blocks()), b, c, {}, {}, {});
        Release(id);
        AsideTwice(old(Blocks()), c, Blocks(), {}, {id}, {});
        return None, 0, NotFound;
      }
      if items[id].expireTime != 0 { expiration := items[id].expireTime - clock.now; }
      if !WatchOk(watches, watchId) {
        Release(id);
        AsideTwice(old(Blocks()), b, Blocks(), {}, {id}, {});
        return None, 0, WatchNotFound;
      }
      if watchId != 0 {
        AddWatch(id, watchId);
        AsideTwice(old(Blocks()), b, Blocks(), {}, {id}, {});
      }
      reason := Success;
    }

    /** Reads an entry and rewrites its expiry where it stands, without moving the item to another bucket. */
    method GetTouch(key: Key, watchId: nat, expiration: nat) returns (r: Option<Id>, reason: Reason)
      requires Valid()
      modifies this`items, this`links, this`pool, this`refs, this`exact
      ensures SamePlan(old(pool), pool)
      ensures Valid()
      ensures Outcome(Contents(), reason) ==
                Apply(old(Contents()), CacheSpec.GetTouch(key, Realtime(clock.now, expiration), WatchOk(watches, watchId)))
      ensures reason == Success <==> r.Some?
      ensures refs == if r.Some? then old(refs).(handles := old(refs).handles + multiset{r.value}) else old(refs)
      ensures r.Some? ==>
                && key in old(links).index && r.value == old(links).index[key] && r.value in items
                && (watchId != 0 ==> watchId in items[r.value].watchers)
      ensures key !in old(links).index ==> Unscheduled() == old(Unscheduled())
      ensures key in old(links).index ==>
                var id := old(links).index[key];
                && id in old(items) && (r.Some? ==> FiledIn(items, links, key, old(items)[id].expirationId))
                && Unscheduled() == old(Unscheduled()) - {id} +
                     if OnSchedule(old(items)[id].(expireTime := Realtime(clock.now, expiration)), clock) then {} else {id}
      ensures Aside(old(Blocks()), Blocks(), {})
      ensures old(exact) && Spare(old(refs), 1) ==> exact
    {
      hide Aside, LinksOk, Counted, PoolOk, ClockOk, StoreOf, UnscheduledOf, Apply, Recount, Retime, WithMoved, Scheduled, Spare;
      GetAnswer(Contents(), key, clock.now, Realtime(clock.now, expiration), WatchOk(watches, watchId));
      r := DoGet(key);
      if r.None? { return None, NotFound; }
      var id := r.value;
      ghost var b := Blocks();
      LinksIndex(items, links, id);
      Refile(id, items[id].expirationId, Realtime(clock.now, expiration), false);
      ghost var c := Blocks();
      AsideTwice(old(Blocks()), b, c, {}, {}, {});
      if !WatchOk(watches, watchId) {
        Release(id);
        AsideTwice(old(Blocks()), c, Blocks(), {}, {id}, {});
        return None, WatchNotFound;
      }
      if watchId != 0 {
        AddWatch(id, watchId);
        AsideTwice(old(Blocks()), c, Blocks(), {}, {id}, {});
      }
      reason := Success;
    }

    /** The state of a flush of group `g`: `gone` has been dropped and counted, and nothing else. */
    static ghost predicate Flushing(st: Store, now: Store, g: nat, header: nat, gone: set<Key>, count: nat, bytes: nat) {
      && gone <= GroupKeys(st, g) && now == Drop(st, gone)
      && count + |GroupSizes(now, g, header)| == |GroupSizes(st, g, header)|
      && bytes + Sum(GroupSizes(now, g, header)) == Sum(GroupSizes(st, g, header))
    }

    static lemma FlushingNone(st: Store, g: nat, header: nat)
      ensures Flushing(st, st, g, header, {}, 0, 0)
    {
      assert Drop(st, {}) == st;
    }

    static lemma FlushingAll(st: Store, now: Store, g: nat, header: nat, gone: set<Key>, count: nat, bytes: nat)
      requires Flushing(st, now, g, header, gone, count, bytes) && GroupKeys(now, g) == {}
      ensures now == Drop(st, GroupKeys(st, g))
      ensures count == |GroupSizes(st, g, header)| && bytes == Sum(GroupSizes(st, g, header))
    {
      GroupGone(st, gone, g, header);
    }

    lemma FlushingStep(st: Store, now: Store, g: nat, header: nat, gone: set<Key>, count: nat, bytes: nat, k: Key)
      requires Flushing(st, now, g, header, gone, count, bytes) && k in now.entries && k.group == g
      ensures Flushing(st, Drop(now, {k}), g, header, gone + {k}, count + 1,
                       bytes + CountedSize(header, k, now.entries[k]))
    {
      GroupSizesDrop(now, g, header, k);
      DropTwice(st, gone, k);
    }

    /** Unlinks one item of the group in the course of a flush. */
    method FlushOne(id: Id, g: nat, ghost st: Store, ghost gone: set<Key>, count: nat, bytes: nat)
      returns (count': nat, bytes': nat)
      requires Valid() && id in links.table && id in items && items[id].key.group == g
      requires Flushing(st, Contents(), g, pool.header, gone, count, bytes)
      modifies this`items, this`links, this`pool, this`watches, this`exact
      ensures SamePlan(old(pool), pool)
      ensures Valid()
      ensures Flushing(st, Contents(), g, pool.header, gone + {old(items)[id].key}, count', bytes')
      ensures old(items)[id].refCount > 0 && old(items)[id].expirationId < |old(links).lists|
      ensures links == WithUnlinked(old(links), id, old(items)[id].key, old(items)[id].expirationId)
      ensures items == Recount(old(items)[id := old(items)[id].(watchers := {})], id, old(items)[id].refCount - 1)
      ensures watches == Posted(old(watches), old(items)[id].watchers, Event(old(items)[id].cacheId, Flushed))
      ensures links.table == old(links).table - {id}
      ensures Unscheduled() <= old(Unscheduled())
      ensures Aside(old(Blocks()), Blocks(), {})
      ensures old(exact) && Spare(old(refs), 0) ==> exact
    {
      hide Aside, LinksOk, Counted, PoolOk, ClockOk, StoreOf, UnscheduledOf, Posted, Recount, WithUnlinked, Flushing, Drop, Spare;
      LinksFind(items, links, items[id].key);
      FlushingStep(st, Contents(), g, pool.header, gone, count, bytes, items[id].key);
      count', bytes' := count + 1, bytes + TotalSize(pool.header, items[id]) % SIZE_SPAN;
      DoUnlink(id, Flushed);
    }

    /** No item of group `g` is among `ids`. */
    static ghost predicate Cleared(items: map<Id, Item>, ids: seq<Id>, g: nat) {
      forall i :: i in ids && i in items ==> items[i].key.group != g
    }

    lemma StillCleared(was: map<Id, Item>, ids: seq<Id>, g: nat, id: Id)
      requires Cleared(was, ids, g) && id !in ids
      requires forall i :: i in items && i != id ==> i in was && was[i] == items[i]
      ensures Cleared(items, ids, g)
    {
    }

    /** The walk of a flush over the items `before`: the watches have heard of `ids`, and the rest is watched as it was. */
    ghost predicate Ringing(before: map<Id, Item>, was: map<nat, Watch>, ids: seq<Id>)
      reads this
    {
      Rung(before, was, watches, ids, Flushed) && Untold(before, items, links.table)
    }

    lemma RingOne(before: map<Id, Item>, was: map<nat, Watch>, ids: seq<Id>, id: Id, held: map<Id, Item>, table: set<Id>, told: map<nat, Watch>)
      requires Rung(before, was, told, ids, Flushed) && Untold(before, held, table)
      requires id in table && id in held && held[id].refCount > 0
      requires watches == Posted(told, held[id].watchers, Event(held[id].cacheId, Flushed))
      requires items == Recount(held[id := held[id].(watchers := {})], id, held[id].refCount - 1)
      requires links.table == table - {id}
      ensures Ringing(before, was, ids + [id])
    {
      hide Rung, Untold, Posted, Recount;
      UntoldUnlink(before, held, table, id);
      RungMore(before, was, told, ids, Flushed, id);
    }

    /** Unlinks the group's items of one list, walking it while it shrinks. */
    method FlushList(b: nat, g: nat, ghost st: Store, ghost gone: set<Key>, count: nat, bytes: nat,
                     ghost before: map<Id, Item>, ghost was: map<nat, Watch>, ghost ids: seq<Id>)
      returns (count': nat, bytes': nat, ghost gone': set<Key>)
      requires Ringing(before, was, ids)
      requires Valid() && b <= FOREVER && Flushing(st, Contents(), g, pool.header, gone, count, bytes)
      requires |links.lists| == FOREVER + 1 && forall d :: 0 <= d < b ==> Cleared(items, links.lists[d], g)
      modifies this`items, this`links, this`pool, this`watches, this`exact
      ensures SamePlan(old(pool), pool)
      ensures Valid() && Flushing(st, Contents(), g, pool.header, gone', count', bytes')
      ensures |links.lists| == FOREVER + 1 && forall d :: 0 <= d <= b ==> Cleared(items, links.lists[d], g)
      ensures Ringing(before, was, ids + Picked(old(links).lists[b], OfGroup(before, g)))
      ensures forall d :: 0 <= d <= FOREVER && d != b ==> links.lists[d] == old(links).lists[d]
      ensures Unscheduled() <= old(Unscheduled())
      ensures Aside(old(Blocks()), Blocks(), {})
      ensures old(exact) && Spare(old(refs), 0) ==> exact
    {
      hide Aside, LinksOk, Counted, PoolOk, ClockOk, StoreOf, UnscheduledOf, Recount, WithUnlinked, Flushing, Cleared, Spare, Rung,
           Untold, Picked, OfGroup, Posted;
      count', bytes', gone' := count, bytes, gone;
      ghost var pre, rest, seen, told := [], links.lists[b], [], ids;
      ToldNone(ids, before, g);
      var it := Front(links.lists[b]);
      ClearedEmpty(g);
      AsideNone(Blocks());
      while it.Some?
        invariant old(exact) && Spare(refs, 0) ==> exact
        invariant Valid() && SamePlan(old(pool), pool) && Flushing(st, Contents(), g, pool.header, gone', count', bytes')
        invariant |links.lists| == FOREVER + 1 && links.lists[b] == pre + rest && it == Front(rest)
        invariant Cleared(items, pre, g) && forall d :: 0 <= d < b ==> Cleared(items, links.lists[d], g)
        invariant seen + rest == old(links).lists[b] && told == ids + Picked(seen, OfGroup(before, g)) && Ringing(before, was, told)
        invariant forall d :: 0 <= d <= FOREVER && d != b ==> links.lists[d] == old(links).lists[d]
        invariant Unscheduled() <= old(Unscheduled()) && Aside(old(Blocks()), Blocks(), {})
        decreases |rest|
      {
        var id := it.value;
        ghost var post := rest[1..];
        assert links.lists[b] == pre + [id] + post;
        LinksList(items, links, b);
        NextInMiddle(pre, id, post);
        var next := NextIn(links.lists[b], id);
        RingingGroup(before, was, told, id, g);
        ToldMore(ids, seen, id, before, g);
        if items[id].key.group == g {
          UnlinkElsewhere(items, links, id, pre, post);
          ghost var held, wasLinks, k, cells := items, links, items[id].key, Blocks();
          ghost var heard := watches;
          count', bytes' := FlushOne(id, g, st, gone', count', bytes');
          RingOne(before, was, told, id, held, wasLinks.table, heard);
          told := told + [id];
          gone' := gone' + {k};
          AsideTwice(old(Blocks()), cells, Blocks(), {}, {}, {});
          RecountElsewhere(held, id, held[id].refCount - 1);
          assert links.lists == wasLinks.lists[b := pre + post];
          forall d | 0 <= d < b ensures Cleared(items, links.lists[d], g) { StillCleared(held, links.lists[d], g, id); }
          StillCleared(held, pre, g, id);
        } else {
          ClearedOneMore(pre, g, id);
          pre := pre + [id];
        }
        seen, rest := seen + [id], post;
        it := next;
      }
      assert links.lists[b] == pre && seen == old(links).lists[b];
    }

    static lemma ToldNone(ids: seq<Id>, before: map<Id, Item>, g: nat)
      ensures ids == ids + Picked([], OfGroup(before, g))
    {
    }

    static lemma ToldMore(ids: seq<Id>, seen: seq<Id>, id: Id, before: map<Id, Item>, g: nat)
      ensures ids + Picked(seen + [id], OfGroup(before, g)) ==
              if id in OfGroup(before, g) then ids + Picked(seen, OfGroup(before, g)) + [id] else ids + Picked(seen, OfGroup(before, g))
    {
      PickedMore(seen, id, OfGroup(before, g));
    }

    lemma RingingGroup(before: map<Id, Item>, was: map<nat, Watch>, ids: seq<Id>, id: Id, g: nat)
      requires Ringing(before, was, ids) && id in links.table
      ensures id in items && (id in OfGroup(before, g) <==> items[id].key.group == g)
    {
      UntoldGroup(before, items, links.table, id, g);
    }

    lemma ClearedEmpty(g: nat)
      ensures Cleared(items, [], g)
    {
    }

    lemma ClearedOneMore(pre: seq<Id>, g: nat, id: Id)
      requires Cleared(items, pre, g) && id in items && items[id].key.group != g
      ensures Cleared(items, pre + [id], g)
    {
    }

    /** Deletes exactly one group, and reports how many items and bytes it held. */
    method Flush(g: nat) returns (count: nat, bytes: nat)
      requires Valid()
      modifies this`items, this`links, this`pool, this`watches, this`exact
      ensures SamePlan(old(pool), pool)
      ensures Valid()
      ensures Contents() == Drop(old(Contents()), GroupKeys(old(Contents()), g))
      ensures count == |GroupSizes(old(Contents()), g, pool.header)|
      ensures bytes == Sum(GroupSizes(old(Contents()), g, pool.header))
      ensures Rung(old(items), old(watches), watches, Walk(old(links).lists, OfGroup(old(items), g)), Flushed)
      ensures Unscheduled() <= old(Unscheduled())
      ensures Aside(old(Blocks()), Blocks(), {})
      ensures old(exact) && Spare(old(refs), 0) ==> exact
    {
      hide Aside, LinksOk, Counted, PoolOk, ClockOk, StoreOf, UnscheduledOf, Spare, Rung, Untold, OfGroup, Picked, Drop, GroupKeys,
           GroupSizes, Flushing;
      count, bytes := 0, 0;
      AsideNone(Blocks());
      RungNone(items, watches, Flushed);
      UntoldSelf(items, links);
      ghost var st, gone := Contents(), {};
      FlushingNone(st, g, pool.header);
      LinksList(items, links, 0);
      for b := 0 to 34
        invariant old(exact) && Spare(refs, 0) ==> exact
        invariant Valid() && SamePlan(old(pool), pool) && Flushing(st, Contents(), g, pool.header, gone, count, bytes)
        invariant |links.lists| == |old(links).lists| == FOREVER + 1 && forall d :: 0 <= d < b ==> Cleared(items, links.lists[d], g)
        invariant forall d :: b <= d <= FOREVER ==> links.lists[d] == old(links).lists[d]
        invariant Ringing(old(items), old(watches), PickedBelow(old(links).lists, OfGroup(old(items), g), b))
        invariant Unscheduled() <= old(Unscheduled()) && Aside(old(Blocks()), Blocks(), {})
      {
        ghost var cells := Blocks();
        count, bytes, gone := FlushList(b, g, st, gone, count, bytes, old(items), old(watches),
                                        PickedBelow(old(links).lists, OfGroup(old(items), g), b));
        AsideTwice(old(Blocks()), cells, Blocks(), {}, {}, {});
      }
      NoneOfGroup(items, links, g);
      FlushingAll(st, Contents(), g, pool.header, gone, count, bytes);
    }

    /** Files an unexpired item in the highest bucket, from its own downwards, whose span it still has to live. */
    method MoveDown(id: Id) returns (j: nat)
      requires Valid() && id in links.table && id in items
      requires items[id].expirationId < FOREVER && clock.now < items[id].expireTime
      modifies this`items, this`links
      ensures Valid() && j <= old(items)[id].expirationId < |old(links).lists|
      ensures Span(j) <= old(items)[id].expireTime - clock.now
      ensures j < old(items)[id].expirationId ==> old(items)[id].expireTime - clock.now < Span(j + 1)
      ensures items == old(items)[id := old(items)[id].(expirationId := j)]
      ensures links == WithMoved(old(links), id, old(items)[id].expirationId, j)
      ensures Aside(old(Blocks()), Blocks(), {})
    {
      hide LinksOk, Counted, PoolOk, ClockOk, StoreOf, UnscheduledOf, Retime, OnSchedule, WithMoved;
      var expiration := items[id].expireTime - clock.now;
      j := items[id].expirationId;
      while expiration < Span(j)
        invariant j <= items[id].expirationId && (j < items[id].expirationId ==> expiration < Span(j + 1))
        decreases j
      {
        assert Span(0) == 1;
        j := j - 1;
      }
      Refile(id, j, items[id].expireTime, true);
    }

    /** What holds between two items of bucket `b` in the sweep begun at `s`, with `left` still to visit. */
    ghost predicate Sweeping(s: Start, b: nat, pre: seq<Id>, left: seq<Id>)
      reads this
    {
      && Valid() && StartOk(s) && b < FOREVER && clock.now == s.clock.now && clock.lastSweep == clock.now
      && s.clock.checkTime[b] <= clock.now && links.lastId == s.links.lastId
      && |links.lists| == |s.links.lists| == FOREVER + 1 && links.lists[b] == pre + left
      && (forall d :: b < d <= FOREVER ==> links.lists[d] == s.links.lists[d])
      && Swept(s, items, links.table, clock, DoneBut(s, b, left)) && Aside(Cells(s.items, s.links.table), Blocks(), {})
    }

    /** The step for one item: out if its time is up, else filed anew. What lies ahead stays in place. */
    method SweepOne(id: Id, b: nat, ghost s: Start, ghost pre: seq<Id>, ghost post: seq<Id>)
      returns (ghost pre': seq<Id>)
      requires Sweeping(s, b, pre, [id] + post)
      modifies this`items, this`links, this`pool, this`watches, this`exact
      ensures SamePlan(old(pool), pool)
      ensures Sweeping(s, b, pre', post) && id in s.items
      ensures watches == if s.items[id].expireTime > clock.now then old(watches)
                         else Posted(old(watches), s.items[id].watchers, Event(s.items[id].cacheId, NotifyType.Expired))
      ensures old(exact) && Spare(old(refs), 0) ==> exact
    {
      hide Aside, LinksOk, Counted, PoolOk, StoreOf, UnscheduledOf, Recount, WithUnlinked, WithMoved, Swept, DoneBut, OnSchedule, Posted, Paced, StartOk, Spare;
      assert links.lists[b] == pre + [id] + post;
      LinksList(items, links, b);
      DistinctTail(pre, [id] + post);
      assert links.lists[b][|pre|] == id;
      SweptAhead(s, items, links.table, clock, b, [id] + post, id);
      assert ([id] + post)[1..] == post;
      ghost var cells := Blocks();
      if items[id].expireTime <= clock.now {
        UnlinkElsewhere(items, links, id, pre, post);
        ghost var was, table := items, links.table;
        DoUnlink(id, NotifyType.Expired);
        RecountElsewhere(was, id, was[id].refCount - 1);
        SweptRemove(s, was, table, clock, b, [id] + post, items);
        pre' := pre;
        AsideTwice(Cells(s.items, s.links.table), cells, Blocks(), {}, {}, {});
      } else {
        ghost var was, wasLinks := items, links;
        var j := MoveDown(id);
        MoveElsewhere(was, wasLinks, id, pre, post, j);
        SweptMove(s, was, wasLinks.table, clock, b, [id] + post, j);
        pre' := if j == b then [id] + pre else pre;
        AsideTwice(Cells(s.items, s.links.table), cells, Blocks(), {}, {}, {});
      }
    }

    lemma DistinctTail(a: seq<Id>, b: seq<Id>)
      requires Distinct(a + b)
      ensures Distinct(b)
    {
      forall p, q | 0 <= p < q < |b| ensures b[p] != b[q] {
        assert (a + b)[|a| + p] == b[p] && (a + b)[|a| + q] == b[q];
      }
    }

    /** Where the iterator goes from the item at hand. */
    lemma SweepingNext(s: Start, b: nat, pre: seq<Id>, id: Id, post: seq<Id>)
      requires Sweeping(s, b, pre, [id] + post)
      ensures b < |links.lists| && NextIn(links.lists[b], id) == Front(post)
    {
      hide Counted, PoolOk, ClockOk, Swept, StartOk;
      assert links.lists[b] == pre + [id] + post;
      LinksList(items, links, b);
      NextInMiddle(pre, id, post);
    }

    /** What has been posted since the sweep began: word of the expiry of the items `ids`. */
    ghost predicate Rings(s: Start, was: map<nat, Watch>, ids: seq<Id>)
      reads this`watches
    {
      Rung(s.items, was, watches, ids, NotifyType.Expired)
    }

    lemma RingsOne(s: Start, b: nat, was: map<nat, Watch>, told: map<nat, Watch>, ids: seq<Id>, seen: seq<Id>, id: Id, rest: seq<Id>)
      requires StartOk(s) && b < FOREVER && s.clock.checkTime[b] <= s.clock.now
      requires b < |s.links.lists| && s.links.lists[b] == seen + rest && rest != [] && id == rest[0]
      requires Rung(s.items, was, told, ids + Picked(seen, DueIds(s)), NotifyType.Expired)
      requires id in s.items && watches == if s.items[id].expireTime > s.clock.now then told
                           else Posted(told, s.items[id].watchers, Event(s.items[id].cacheId, NotifyType.Expired))
      ensures Rings(s, was, ids + Picked(seen + [id], DueIds(s)))
    {
      hide StartOk, Rung, Picked, DueIds, Posted;
      DueHere(s, b, id);
      PickedMore(seen, id, DueIds(s));
      if id in DueIds(s) {
        RungMore(s.items, was, told, ids + Picked(seen, DueIds(s)), NotifyType.Expired, id);
        assert ids + Picked(seen, DueIds(s)) + [id] == ids + Picked(seen + [id], DueIds(s));
      } else {
        assert Picked(seen + [id], DueIds(s)) == Picked(seen, DueIds(s));
      }
    }

    lemma SweepingFacts(s: Start, b: nat, pre: seq<Id>, left: seq<Id>)
      requires Sweeping(s, b, pre, left)
      ensures StartOk(s) && b < FOREVER < |s.links.lists| && s.clock.checkTime[b] <= s.clock.now == clock.now
    {
      hide StartOk, Swept;
    }

    /** One bucket's turn: the iterator walks the list as it was while its items are removed or filed anew. */
    method SweepBucket(b: nat, ghost s: Start, ghost was: map<nat, Watch>, ghost ids: seq<Id>) returns (ghost pre: seq<Id>)
      requires b < |links.lists| && Sweeping(s, b, [], links.lists[b])
      requires b < |s.links.lists| && links.lists[b] == s.links.lists[b] && Rings(s, was, ids)
      modifies this`items, this`links, this`pool, this`watches, this`exact
      ensures SamePlan(old(pool), pool)
      ensures Sweeping(s, b, pre, [])
      ensures Rings(s, was, ids + Picked(s.links.lists[b], DueIds(s)))
      ensures old(exact) && Spare(old(refs), 0) ==> exact
    {
      hide Sweeping, Spare, StartOk, Rung, Picked, DueIds, Posted;
      pre := [];
      ghost var rest, seen := links.lists[b], [];
      PickedNone(seen, DueIds(s));
      assert ids + [] == ids && seen + rest == rest;
      var it := Front(links.lists[b]);
      while it.Some?
        invariant old(exact) && Spare(refs, 0) ==> exact
        invariant SamePlan(old(pool), pool) && Sweeping(s, b, pre, rest) && it == Front(rest)
        invariant seen + rest == s.links.lists[b] && Rings(s, was, ids + Picked(seen, DueIds(s)))
        decreases |rest|
      {
        var id := it.value;
        ghost var post, told := rest[1..], watches;
        assert rest == [id] + post;
        SweepingNext(s, b, pre, id, post);
        SweepingFacts(s, b, pre, rest);
        it := NextIn(links.lists[b], id);
        pre := SweepOne(id, b, s, pre, post);
        SweepingFacts(s, b, pre, post);
        RingsOne(s, b, was, told, ids, seen, id, rest);
        seen, rest := seen + [id], post;
      }
      assert seen == s.links.lists[b];
    }

    /** What holds between two buckets of the sweep begun at `s`: those below `b` have had their turn. */
    ghost predicate SweptBelow(s: Start, b: nat)
      reads this
    {
      && Valid() && StartOk(s) && b <= FOREVER && clock.now == s.clock.now && clock.lastSweep == clock.now
      && links.lastId == s.links.lastId && |links.lists| == |s.links.lists| == FOREVER + 1
      && (forall d :: b <= d <= FOREVER ==> links.lists[d] == s.links.lists[d])
      && |clock.checkTime| == FOREVER && (forall d :: b <= d < FOREVER ==> clock.checkTime[d] == s.clock.checkTime[d])
      && (forall d :: 0 <= d < b && d < FOREVER ==> clock.checkTime[d] == NextVisit(s.clock.checkTime[d], clock.now, d))
      && Swept(s, items, links.table, clock, Below(s, b)) && Aside(Cells(s.items, s.links.table), Blocks(), {})
    }

    /** One turn of the sweep's outer loop. */
    method SweepTurn(b: nat, ghost s: Start, ghost was: map<nat, Watch>)
      requires SweptBelow(s, b) && b < FOREVER && Rings(s, was, PickedBelow(s.links.lists, DueIds(s), b))
      modifies this`items, this`links, this`pool, this`watches, this`clock, this`exact
      ensures SamePlan(old(pool), pool) && clock == old(clock).(checkTime := clock.checkTime)
      ensures SweptBelow(s, b + 1) && Rings(s, was, PickedBelow(s.links.lists, DueIds(s), b + 1))
      ensures old(exact) && Spare(old(refs), 0) ==> exact
    {
      hide Aside, LinksOk, Counted, PoolOk, Paced, StartOk, Swept, DoneBut, Below, Spare, Rung, Picked, DueIds;
      ghost var ids := PickedBelow(s.links.lists, DueIds(s), b);
      if clock.now >= clock.checkTime[b] {
        PacedUpdate(clock.checkTime, clock.now, b, Realtime(clock.now, Span(b)));
        SweptReschedule(s, items, links.table, clock, b, Realtime(clock.now, Span(b)));
        clock := clock.(checkTime := clock.checkTime[b := Realtime(clock.now, Span(b))]);
        assert [] + links.lists[b] == links.lists[b];
        ghost var pre := SweepBucket(b, s, was, ids);
        DoneAll(s, b);
      } else {
        SweptSkip(s, items, links.table, clock, b);
        NoneDue(s, b);
        assert ids + [] == ids;
      }
    }

    /** Visits the buckets whose turn has come; afterwards exactly the items due are gone. */
    method ExpireItems()
      requires Valid() && clock.lastCheck == clock.now && clock.lastSweep < clock.now
      modifies this`items, this`links, this`pool, this`watches, this`clock, this`exact
      ensures SamePlan(old(pool), pool)
      ensures Valid() && clock == Swung(old(clock))
      ensures StartOk(Start(old(items), old(links), old(clock)))
      ensures Contents() == Drop(old(Contents()), DueKeys(Start(old(items), old(links), old(clock))))
      ensures Rung(old(items), old(watches), watches, Walk(old(links).lists, DueIds(Start(old(items), old(links), old(clock)))), NotifyType.Expired)
      ensures Unscheduled() <= old(Unscheduled())
      ensures old(Unscheduled()) == {} ==> Contents() == Drop(old(Contents()), ExpiredKeys(old(Contents()), clock.now))
      ensures Aside(old(Blocks()), Blocks(), {})
      ensures old(exact) && Spare(old(refs), 0) ==> exact
    {
      hide Aside, LinksOk, Counted, PoolOk, StoreOf, UnscheduledOf, DueKeys, Drop, ExpiredKeys, Swept, Below, Spare, Rung, Picked, DueIds;
      ghost var s := Start(items, links, clock);
      LinksList(items, links, 0);
      AsideNone(Blocks());
      RungNone(items, watches, NotifyType.Expired);
      clock := clock.(lastSweep := clock.now);
      SweptStart(s, clock);
      for b := 0 to 33
        invariant old(exact) && Spare(refs, 0) ==> exact
        invariant SweptBelow(s, b) && SamePlan(old(pool), pool)
        invariant clock == s.clock.(checkTime := clock.checkTime, lastSweep := s.clock.now)
        invariant Rings(s, old(watches), PickedBelow(s.links.lists, DueIds(s), b))
      {
        SweepTurn(b, s, old(watches));
      }
      NoneDue(s, FOREVER);
      assert PickedBelow(s.links.lists, DueIds(s), 33) + [] == PickedBelow(s.links.lists, DueIds(s), 33);
      SweptSkip(s, items, links.table, clock, FOREVER);
      SweptAll(s, items, links, clock);
      if old(Unscheduled()) == {} { DueKeysAreExpired(s); }
    }

    /** Follows the wall clock, never backwards and by ten seconds at most. */
    method SetCurrentTime(wall: nat)
      requires Valid()
      modifies this`clock, this`lastTime
      ensures Valid() && Contents() == old(Contents()) && Unscheduled() == old(Unscheduled())
      ensures lastTime == wall
      ensures var d := if wall > old(lastTime) then wall - old(lastTime) else 0;
              clock == old(clock).(now := old(clock).now + if d > 10 then 10 else d)
    {
      hide LinksOk, Counted, PoolOk, StoreOf;
      if wall > lastTime {
        var d := wall - lastTime;
        if d > 10 { d := 10; }
        clock := clock.(now := clock.now + d);
      }
      lastTime := wall;
    }

    /** Allocates an item for a request, with its expiry counted from now. */
    method AllocItem(key: Key, flags: nat, expiration: nat, data: seq<byte>, ext: seq<byte>, block: Option<Id>)
      returns (r: Option<Id>)
      requires Valid() && (block.Some? ==> block.value !in pool.capacity)
      modifies this`items, this`pool, this`refs
      ensures SamePlan(old(pool), pool)
      ensures pool.capacity.Keys <= old(pool).capacity.Keys + if block.Some? then {block.value} else {}
      ensures Valid() && Contents() == old(Contents()) && Unscheduled() == old(Unscheduled())
      ensures r.Some? <==> CanAlloc(old(pool), ItemSize(old(pool).header, key, data, ext), block)
      ensures r.None? ==> items == old(items) && refs == old(refs)
      ensures r.Some? ==>
                && r.value in items && r.value !in links.table && r.value !in old(items)
                && refs == old(refs).(handles := old(refs).handles + multiset{r.value})
                && items[r.value].key == key
                && EntryOf(items[r.value]) == Entry(data, flags, ext, Realtime(clock.now, expiration), 0)
                && items[r.value].watchers == {}
                && IsBucket(clock.now, items[r.value].expireTime, items[r.value].expirationId)
                && r.value in pool.capacity && pool.capacity[r.value] == ClassSize(old(pool), ItemSize(old(pool).header, key, data, ext))
                && (pool.capacity[r.value] < SIZE_SPAN ==>
                      (ItemSize(old(pool).header, key, data, ext) <= pool.capacity[r.value] <==>
                       ItemSize(old(pool).header, key, data, ext) < SIZE_SPAN))
                && OnSchedule(items[r.value], clock)
      ensures Aside(old(Blocks()), Blocks(), {})
    {
      hide Aside, LinksOk, Counted, PoolOk, ClockOk, StoreOf, UnscheduledOf, CanAlloc, IsBucket, OnSchedule, ItemSize;
      r := DoAlloc(key, flags, Realtime(clock.now, expiration), data, ext, block);
      if r.Some? { FiledNow(items[r.value]); }
    }

    /** The bytes of a block before they have been read. */
    static function Blank(n: nat): (r: seq<byte>)
      ensures |r| == n
    {
      seq(n, _ => 0)
    }

    /** Allocates the item of an update request, of which only the lengths are known yet. */
    method DraftItem(group: nat, nameLength: nat, flags: nat, expiration: nat, dataLength: nat, block: Option<Id>)
      returns (r: Option<Id>, reason: Reason)
      requires Valid() && (block.Some? ==> block.value !in pool.capacity)
      modifies this`items, this`pool, this`refs
      ensures SamePlan(old(pool), pool)
      ensures Valid() && Contents() == old(Contents()) && Unscheduled() == old(Unscheduled())
      ensures Aside(old(Blocks()), Blocks(), {})
      ensures r.Some? <==> CanAlloc(old(pool), DraftSize(old(pool), nameLength, dataLength), block)
      ensures r.None? ==> refs == old(refs) && items == old(items)
      ensures r.None? ==> reason == if RequestClass(old(pool), DraftSize(old(pool), nameLength, dataLength)) != 0 then OutOfMemory else TooLarge
      ensures r.Some? ==>
                && reason == Success && r.value in items && r.value !in links.table && r.value !in old(items)
                && refs == old(refs).(handles := old(refs).handles + multiset{r.value})
                && items[r.value].key == Key(group, Blank(nameLength))
                && EntryOf(items[r.value]) == Entry(Blank(dataLength), flags, [], Realtime(clock.now, expiration), 0)
                && items[r.value].watchers == {}
                && IsBucket(clock.now, items[r.value].expireTime, items[r.value].expirationId)
    {
      hide Aside, LinksOk, Counted, PoolOk, ClockOk, StoreOf, UnscheduledOf, CanAlloc, IsBucket, OnSchedule, ItemSize, ClassSize, ClassOf;
      r := AllocItem(Key(group, Blank(nameLength)), flags, expiration, Blank(dataLength), [], block);
      reason := Success;
      DraftSizeIs(old(pool), group, nameLength, dataLength);
      if r.None? {
        var c := GetClassId(DraftSize(pool, nameLength, dataLength) % SIZE_SPAN);
        PlanKeepsClass(old(pool), pool, DraftSize(pool, nameLength, dataLength));
        reason := if c != 0 then OutOfMemory else TooLarge;
      }
    }

    static function DraftSize(p: Pool, nameLength: nat, dataLength: nat): nat {
      ItemSize(p.header, Key(0, Blank(nameLength)), Blank(dataLength), [])
    }

    static lemma DraftSizeIs(p: Pool, group: nat, nameLength: nat, dataLength: nat)
      ensures DraftSize(p, nameLength, dataLength) == ItemSize(p.header, Key(group, Blank(nameLength)), Blank(dataLength), [])
    {
    }

    static lemma PlanKeepsClass(p: Pool, q: Pool, size: nat)
      requires SamePlan(p, q) && q.last < |q.maxSize|
      ensures p.last < |p.maxSize| && RequestClass(p, size) == RequestClass(q, size)
    {
    }

    /**
     Writes into a block outside the table its key, its data and the id that its request names; nothing else of it
     changes, and no other block.
     */
    method FillItem(item: Id, name: seq<byte>, data: seq<byte>, cacheId: nat)
      requires Valid() && item in items && item !in links.table
      requires |name| == |items[item].key.name| && |data| == |items[item].data|
      modifies this`items
      ensures Valid() && Contents() == old(Contents()) && Unscheduled() == old(Unscheduled())
      ensures items.Keys == old(items).Keys && forall i :: i in items && i != item ==> items[i] == old(items)[i]
      ensures var was, it := old(items)[item], items[item];
              && it.key.group == was.key.group && it.key.name == name && it.data == data && it.cacheId == cacheId
              && it.ext == was.ext && it.flags == was.flags && it.expireTime == was.expireTime && it.lastUpdate == was.lastUpdate
              && it.refCount == was.refCount && it.classId == was.classId && it.expirationId == was.expirationId
              && it.watchers == was.watchers
      ensures Aside(old(Blocks()), Blocks(), {item})
    {
      hide LinksOk, Counted, PoolOk, ClockOk, StoreOf, UnscheduledOf;
      var it := items[item].(key := items[item].key.(name := name), data := data, cacheId := cacheId);
      CountedSame(items, links.table, refs, multiset{}, item, it);
      PoolSame(items, pool, item, it);
      BucketBound(items, links, item);
      LinksAside(items, links, clock, item, it);
      items := items[item := it];
    }

    /** The step on the map that an update request asks for, `it` being the item made for it; none if its code is unknown. */
    static ghost function UpdateOp(u: Update, st: Store, p: Pool, it: Item, watchOk: bool, block: Option<Id>): Option<Op> {
      match u
      case SetIt => Some(CacheSpec.Set(it.key, EntryOf(it), it.cacheId, watchOk))
      case AddIt => Some(CacheSpec.Add(it.key, EntryOf(it), watchOk))
      case ReplaceIt => Some(CacheSpec.Replace(it.key, EntryOf(it), it.cacheId, watchOk))
      case AppendIt => Some(ExtendOp(st, p, it, watchOk, block, false))
      case PrependIt => Some(ExtendOp(st, p, it, watchOk, block, true))
      case UnknownIt => None
    }

    static ghost function Answer(st: Store, op: Option<Op>): Outcome {
      if op.Some? then Apply(st, op.value) else Outcome(st, UnknownCommand)
    }

    /** Runs an update on a held, filled item. */
    method RunUpdate(u: Update, item: Id, watchId: nat, block: Option<Id>) returns (reason: Reason, cacheId: nat)
      requires Valid() && item in refs.handles && item in items && item !in links.table
      requires block.Some? ==> block.value !in pool.capacity
      modifies this`items, this`links, this`pool, this`watches, this`refs, this`exact
      ensures SamePlan(old(pool), pool)
      ensures Valid()
      ensures Outcome(Contents(), reason) == Answer(old(Contents()),
                UpdateOp(u, old(Contents()), old(pool), old(items)[item], WatchOk(old(watches), watchId), block))
      ensures refs == if (u.AppendIt? || u.PrependIt?) && reason == Mismatch
                      then Leaking(old(refs), old(links), old(items)[item].key) else old(refs)
      ensures reason == Success ==> cacheId == links.lastId
      ensures Unscheduled() <= old(Unscheduled()) + if OnSchedule(old(items)[item], clock) then {} else {item}
      ensures Aside(old(Blocks()), Blocks(), {item})
      ensures old(exact) && Spare(old(refs), 1) ==> exact
      ensures u.AddIt? && reason == Success ==> FiledIn(items, links, old(items)[item].key, old(items)[item].expirationId)
      ensures watches == if reason == Success && !u.AddIt? then Told(old(items), old(links), old(watches), old(items)[item].key, DataUpdated)
                         else old(watches)
    {
      hide Aside, Told, LinksOk, Counted, PoolOk, ClockOk, StoreOf, UnscheduledOf, FiledIn, OnSchedule, Apply, ExtendOp, EntryOf, Leaking, Spare;
      AsideNone(Blocks());
      match u
      case SetIt => reason, cacheId := Set(item, watchId);
      case AddIt => reason, cacheId := Add(item, watchId);
      case ReplaceIt => reason, cacheId := Replace(item, watchId);
      case AppendIt => reason, cacheId := Extend(item, watchId, block, false);
      case PrependIt => reason, cacheId := Extend(item, watchId, block, true);
      case UnknownIt => reason, cacheId := UnknownCommand, 0;
    }

    /** The manager's map is one to which the theorems about runs apply. */
    lemma ContentsVersioned()
      requires Valid()
      ensures Versioned(Contents())
    {
      StoreVersioned(items, links);
    }

    /** The watch id tried after `id`; 0 is never one. */
    static function NextWatchId(id: nat): nat {
      if id >= 0xFFFF_FFFF then 1 else id + 1
    }

    /** Whether the `n` ids tried after `id` are all taken. */
    static predicate AllTaken(watches: map<nat, Watch>, id: nat, n: nat)
      decreases n
    {
      n == 0 || (NextWatchId(id) in watches && AllTaken(watches, NextWatchId(id), n - 1))
    }

    /** The ids tried, in turn. */
    static function Tried(id: nat, n: nat): set<nat>
      decreases n
    {
      if n == 0 then {} else {NextWatchId(id)} + Tried(NextWatchId(id), n - 1)
    }

    /** The `n` ids that follow `id` in the circle of 1 to 2^32 - 1. */
    static predicate Follows(id: nat, n: nat, x: nat) {
      var b := if id >= 0xFFFF_FFFF then 0 else id;
      1 <= x <= 0xFFFF_FFFF && (b < x <= b + n || x + 0xFFFF_FFFF <= b + n)
    }

    static lemma FollowsNext(id: nat, n: nat, x: nat)
      requires 0 < n <= 100
      ensures Follows(id, n, x) <==> x == NextWatchId(id) || Follows(NextWatchId(id), n - 1, x)
      ensures !Follows(NextWatchId(id), n - 1, NextWatchId(id))
    {
    }

    static lemma {:induction false} TriedExactly(id: nat, n: nat)
      requires n <= 100
      ensures forall x :: x in Tried(id, n) <==> Follows(id, n, x)
      ensures |Tried(id, n)| == n
      decreases n
    {
      if n > 0 {
        var next := NextWatchId(id);
        TriedExactly(next, n - 1);
        FollowsNext(id, n, next);
        forall x ensures x in Tried(id, n) <==> Follows(id, n, x) {
          FollowsNext(id, n, x);
          hide Follows, NextWatchId;
        }
      }
    }

    static lemma {:induction false} TriedTaken(watches: map<nat, Watch>, id: nat, n: nat)
      requires AllTaken(watches, id, n)
      ensures Tried(id, n) <= watches.Keys
      decreases n
    {
      if n > 0 { TriedTaken(watches, NextWatchId(id), n - 1); }
    }

    /** With fewer than a hundred watches one of a hundred candidates is unused. */
    static lemma FewWatches(watches: map<nat, Watch>, id: nat)
      ensures AllTaken(watches, id, 100) ==> |watches| >= 100
    {
      if AllTaken(watches, id, 100) {
        TriedTaken(watches, id, 100);
        TriedExactly(id, 100);
        Larger(Tried(id, 100), watches.Keys);
        assert |watches.Keys| == |watches|;
      }
    }

    static lemma Larger(a: set<nat>, b: set<nat>)
      requires a <= b
      ensures |a| <= |b|
      decreases |a|
    {
      if a != {} {
        var x :| x in a;
        Larger(a - {x}, b - {x});
      }
    }

    /** Creates a watch under an unused id, looking at a hundred candidates; 0 when all of them are taken. */
    method CreateWatch(interval: nat) returns (watchId: nat)
      requires Valid()
      modifies this`watches, this`lastWatchId
      ensures Valid() && Contents() == old(Contents()) && Unscheduled() == old(Unscheduled())
      ensures watchId == 0 <==> AllTaken(old(watches), old(lastWatchId), 100)
      ensures watchId != 0 ==> watchId !in old(watches) && watchId == lastWatchId
      ensures |old(watches)| < 100 ==> watchId != 0
      ensures old(lastWatchId) < 0xFFFF_FFFF && old(lastWatchId) + 1 !in old(watches) ==> watchId == old(lastWatchId) + 1
      ensures old(lastWatchId) >= 0xFFFF_FFFF && 1 !in old(watches) ==> watchId == 1
      ensures watches == if watchId == 0 then old(watches)
                         else old(watches)[watchId := Watch(Realtime(clock.now, interval), [])]
    {
      hide Tried, LinksOk, Counted, PoolOk, ClockOk, StoreOf, UnscheduledOf;
      FewWatches(watches, lastWatchId);
      var i := 0;
      watchId := 0;
      while i < 100
        invariant 0 <= i <= 100 && watches == old(watches)
        invariant AllTaken(watches, lastWatchId, 100 - i) == AllTaken(watches, old(lastWatchId), 100)
        invariant i == 0 ==> lastWatchId == old(lastWatchId)
        invariant i > 0 ==> NextWatchId(old(lastWatchId)) in watches
      {
        lastWatchId := NextWatchId(lastWatchId);
        if lastWatchId !in watches {
          watchId := lastWatchId;
          break;
        }
        i := i + 1;
      }
      if watchId != 0 {
        watches := watches[watchId := Watch(Realtime(clock.now, interval), [])];
      }
    }

    /** A check puts off the lapse of a watch. What it hands out is the business of the watch itself. */
    method CheckWatch(watchId: nat, interval: nat) returns (found: bool)
      modifies this`watches
      ensures found <==> watchId in old(watches)
      ensures watches == if !found then old(watches)
                         else old(watches)[watchId := old(watches)[watchId].(expireTime := Realtime(clock.now, interval))]
    {
      found := watchId in watches;
      if found { watches := watches[watchId := watches[watchId].(expireTime := Realtime(clock.now, interval))]; }
    }

    /** Drops the watches not checked in time. */
    method ExpireWatches()
      modifies this`watches
      ensures watches == Alive(old(watches), clock.now)
    {
      var left := watches.Keys;
      while left != {}
        invariant left <= old(watches).Keys
        invariant watches == map w | w in old(watches) && (w in left || clock.now < old(watches)[w].expireTime) :: old(watches)[w]
        decreases left
      {
        var w :| w in left;
        if clock.now >= watches[w].expireTime {
          watches := watches - {w};
        }
        left := left - {w};
      }
    }

    /** The periodic check: at most once a second, lapsed watches go, then the due items. */
    method CheckExpired() returns (ghost gone: set<Key>)
      requires Valid()
      modifies this`items, this`links, this`pool, this`watches, this`clock, this`exact
      ensures SamePlan(old(pool), pool)
      ensures Valid() && clock.now == old(clock).now && clock.lastCheck == clock.now
      ensures clock == if old(clock).lastCheck == clock.now then old(clock) else Swung(old(clock))
      ensures gone == if old(clock).lastCheck == clock.now then {} else DueNow(Start(old(items), old(links), old(clock)))
      ensures if old(clock).lastCheck == clock.now then watches == old(watches)
              else Rung(old(items), Alive(old(watches), clock.now), watches,
                        Walk(old(links).lists, DueIds(Start(old(items), old(links), old(clock)))), NotifyType.Expired)
      ensures Contents() == Drop(old(Contents()), gone) && Unscheduled() <= old(Unscheduled())
      ensures old(clock).lastCheck == clock.now ==> gone == {} && Contents() == old(Contents()) && Unscheduled() == old(Unscheduled())
      ensures old(clock).lastCheck != clock.now && old(Unscheduled()) == {} ==>
                && Unscheduled() == {} && gone == ExpiredKeys(old(Contents()), clock.now)
                && forall k :: k in Contents().entries ==> !CacheSpec.Expired(Contents().entries[k], clock.now)
      ensures Aside(old(Blocks()), Blocks(), {})
      ensures old(exact) && Spare(old(refs), 0) ==> exact
    {
      hide Aside, LinksOk, Counted, PoolOk, StoreOf, Scheduled, DueKeys, Spare, Rung, DueIds, Alive;
      gone := {};
      AsideNone(Blocks());
      assert Drop(Contents(), {}) == Contents();
      if clock.now != clock.lastCheck {
        gone := DueNow(Start(items, links, clock));
        clock := clock.(lastCheck := clock.now);
        ExpireWatches();
        SameDue(Start(items, links, old(clock)), Start(items, links, clock));
        SameIds(Start(items, links, old(clock)), Start(items, links, clock));
        ghost var st, sound := Contents(), Unscheduled() == {};
        ExpireItems();
        if sound { DueKeysAreExpired(Start(old(items), old(links), old(clock).(lastCheck := clock.now))); }
      }
    }
  }
}
