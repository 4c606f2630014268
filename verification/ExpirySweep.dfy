/**
 One sweep of the expiry lists, seen against the state in which it began. The sweep handles the buckets in order;
 an item it keeps goes to an equal or lower bucket, so it is met once.
 */
module ExpirySweep {
  import opened Basics
  import opened CacheSpec
  import opened CacheState
  import opened ExpiryWheel

  datatype Start = Start(items: map<Id, Item>, links: Links, clock: Clock)

  ghost predicate StartOk(s: Start) {
    LinksOk(s.items, s.links) && ClockOk(s.clock) && |s.clock.checkTime| == FOREVER && s.clock.lastSweep < s.clock.now
  }

  predicate DueItem(it: Item, c: Clock)
    requires |c.checkTime| == FOREVER
  {
    Due(it.expirationId, it.expireTime, c.checkTime, c.now)
  }

  /** What the sweep has made of the linked items: those `done` are gone if due, else filed anew; the rest is untouched. */
  ghost predicate Swept(s: Start, items: map<Id, Item>, table: set<Id>, c: Clock, done: set<Id>)
    requires |s.clock.checkTime| == FOREVER
  {
    && table <= s.links.table <= s.items.Keys && table <= items.Keys
    && (forall i :: i in s.links.table && i !in done ==> i in table && items[i] == s.items[i])
    && (forall i :: i in s.links.table && i in done ==> (i in table <==> !DueItem(s.items[i], s.clock)))
    && (forall i :: i in table && i in done ==>
          && items[i] == s.items[i].(expirationId := items[i].expirationId)
          && items[i].expirationId <= s.items[i].expirationId
          && (OnSchedule(s.items[i], s.clock) ==> OnSchedule(items[i], c)))
  }

  /** The items filed below bucket `b` when the sweep began. */
  ghost function Below(s: Start, b: nat): set<Id> {
    set i | i in s.links.table && i in s.items && s.items[i].expirationId < b
  }

  /** The items filed below bucket `b`, and those of bucket `b` that are no longer `left` to visit. */
  ghost function DoneBut(s: Start, b: nat, left: seq<Id>): set<Id> {
    set i | i in Below(s, b + 1) && i !in left
  }

  lemma SweptStart(s: Start, c: Clock)
    requires StartOk(s) && s.clock.checkTime == c.checkTime
    ensures |s.clock.checkTime| == FOREVER
    ensures Swept(s, s.items, s.links.table, c, Below(s, 0))
  {
  }

  /** Passing over a bucket whose turn has not come. */
  lemma SweptSkip(s: Start, items: map<Id, Item>, table: set<Id>, c: Clock, b: nat)
    requires StartOk(s) && b <= FOREVER && |c.checkTime| == FOREVER && c.lastSweep == s.clock.now
    requires Swept(s, items, table, c, Below(s, b))
    requires b < FOREVER ==> c.checkTime[b] == s.clock.checkTime[b] > s.clock.now
    ensures Swept(s, items, table, c, Below(s, b + 1))
  {
  }

  /** Setting a bucket's next visit does not touch the items already handled, which lie below it. */
  lemma SweptReschedule(s: Start, items: map<Id, Item>, table: set<Id>, c: Clock, b: nat, t: nat)
    requires StartOk(s) && b < FOREVER && |c.checkTime| == FOREVER
    requires Swept(s, items, table, c, Below(s, b))
    ensures Swept(s, items, table, c.(checkTime := c.checkTime[b := t]), DoneBut(s, b, s.links.lists[b]))
  {
    hide Filed, Indexed, IdsIssued, Paced, Below, DoneBut;
    BelowIsDone(s, b);
    forall i | i in table && i in Below(s, b) && OnSchedule(items[i], c)
      ensures OnSchedule(items[i], c.(checkTime := c.checkTime[b := t]))
    {
      BelowMeans(s, b, i);
    }
  }

  lemma BelowMeans(s: Start, b: nat, i: Id)
    requires i in Below(s, b)
    ensures i in s.items && s.items[i].expirationId < b
  {
  }

  lemma BelowIsDone(s: Start, b: nat)
    requires StartOk(s) && b < FOREVER
    ensures |s.links.lists| == FOREVER + 1 && Below(s, b) == DoneBut(s, b, s.links.lists[b])
  {
    hide Indexed, IdsIssued, Paced;
  }

  /** Removing the item at hand, whose time is up. */
  lemma SweptRemove(s: Start, items: map<Id, Item>, table: set<Id>, c: Clock, b: nat, left: seq<Id>,
                    after: map<Id, Item>)
    requires StartOk(s) && b < FOREVER && left != [] && Distinct(left)
    requires Swept(s, items, table, c, DoneBut(s, b, left))
    requires left[0] in table && left[0] in s.items && s.items[left[0]].expirationId == b
    requires s.clock.checkTime[b] <= s.clock.now && s.items[left[0]].expireTime <= s.clock.now
    requires forall i :: i in items && i != left[0] ==> i in after && after[i] == items[i]
    ensures Swept(s, after, table - {left[0]}, c, DoneBut(s, b, left[1..]))
  {
    hide Filed, Indexed, IdsIssued, Paced, DoneBut, OnSchedule;
    DoneStep(s, b, left);
  }

  /** Filing the item at hand anew, in a bucket whose span it still has to live. */
  lemma SweptMove(s: Start, items: map<Id, Item>, table: set<Id>, c: Clock, b: nat, left: seq<Id>, j: nat)
    requires StartOk(s) && b < FOREVER && left != [] && Distinct(left) && j <= b
    requires Swept(s, items, table, c, DoneBut(s, b, left))
    requires left[0] in table && left[0] in s.items && s.items[left[0]].expirationId == b
    requires s.clock.now < s.items[left[0]].expireTime && Span(j) <= s.items[left[0]].expireTime - s.clock.now
    requires Paced(c.checkTime, s.clock.now) && c.lastSweep == s.clock.now
    ensures left[0] in items
    ensures Swept(s, items[left[0] := items[left[0]].(expirationId := j)], table, c, DoneBut(s, b, left[1..]))
  {
    hide Filed, Indexed, IdsIssued, DoneBut;
    DoneStep(s, b, left);
    assert c.checkTime[j] <= s.clock.now + Span(j);
  }

  /** An item still ahead is as it was when the sweep began. */
  lemma SweptAhead(s: Start, items: map<Id, Item>, table: set<Id>, c: Clock, b: nat, left: seq<Id>, id: Id)
    requires StartOk(s) && Swept(s, items, table, c, DoneBut(s, b, left))
    requires id in table && id in left
    ensures id in s.items && id in items && items[id] == s.items[id]
  {
    hide Filed, Indexed, IdsIssued, Paced;
  }

  lemma DoneStep(s: Start, b: nat, left: seq<Id>)
    requires left != [] && Distinct(left) && left[0] in s.links.table && left[0] in s.items && s.items[left[0]].expirationId == b
    ensures DoneBut(s, b, left[1..]) == DoneBut(s, b, left) + {left[0]} && left[0] !in DoneBut(s, b, left)
  {
    assert left == [left[0]] + left[1..];
    assert left[0] !in left[1..];
  }

  ghost function DueKeys(s: Start): set<Key>
    requires StartOk(s)
  {
    set k | k in s.links.index && DueItem(s.items[s.links.index[k]], s.clock)
  }

  /** The keys that a sweep would remove now. */
  ghost function DueNow(s: Start): set<Key> {
    if StartOk(s) then DueKeys(s) else {}
  }

  /** Only the schedule and the second matter to what is due. */
  lemma SameDue(s: Start, t: Start)
    requires StartOk(s) && t == s.(clock := s.clock.(lastCheck := t.clock.lastCheck)) && s.clock.lastSweep <= t.clock.lastCheck <= s.clock.now
    ensures StartOk(t) && DueKeys(t) == DueKeys(s) == DueNow(s)
  {
    hide LinksOk;
  }

  /** Which keys are left when all is done, and with what. */
  lemma SweptEntries(s: Start, items: map<Id, Item>, l: Links, c: Clock)
    requires StartOk(s) && LinksOk(items, l) && Swept(s, items, l.table, c, s.links.table)
    ensures forall k :: k in l.index ==>
              k in s.links.index && s.links.index[k] == l.index[k] && !DueItem(s.items[s.links.index[k]], s.clock)
    ensures forall k :: k in s.links.index && !DueItem(s.items[s.links.index[k]], s.clock) ==> k in l.index
    ensures forall k :: k in l.index ==> EntryOf(items[l.index[k]]) == EntryOf(s.items[l.index[k]])
  {
    hide Filed, IdsIssued, Paced, OnSchedule, DueItem;
    forall k | k in l.index
      ensures k in s.links.index && s.links.index[k] == l.index[k] && !DueItem(s.items[s.links.index[k]], s.clock)
    {
      var i := l.index[k];
      assert i in l.table && i in s.links.table && s.items[i].key == k;
    }
    forall k | k in s.links.index && !DueItem(s.items[s.links.index[k]], s.clock)
      ensures k in l.index
    {
      var i := s.links.index[k];
      assert i in l.table && items[i].key == k;
    }
  }

  /** When all is done, exactly the due items' keys are gone, and no item has been put off schedule. */
  lemma SweptAll(s: Start, items: map<Id, Item>, l: Links, c: Clock)
    requires StartOk(s) && LinksOk(items, l) && l.lastId == s.links.lastId
    requires Swept(s, items, l.table, c, Below(s, FOREVER + 1))
    ensures StoreOf(items, l) == Drop(StoreOf(s.items, s.links), DueKeys(s))
    ensures UnscheduledOf(items, l.table, c) <= UnscheduledOf(s.items, s.links.table, s.clock)
  {
    hide Swept, Filed, Indexed, IdsIssued, Paced, DueItem, EntryOf, StoreOf, DueKeys, UnscheduledOf, Drop;
    AllBelow(s);
    SweptSchedule(s, items, l.table, c);
    SweptEntries(s, items, l, c);
    StoreSwept(s, items, l);
  }

  lemma AllBelow(s: Start)
    requires StartOk(s)
    ensures Below(s, FOREVER + 1) == s.links.table
  {
    hide Indexed, IdsIssued, Paced;
  }

  lemma SweptSchedule(s: Start, items: map<Id, Item>, table: set<Id>, c: Clock)
    requires |s.clock.checkTime| == FOREVER && Swept(s, items, table, c, s.links.table)
    ensures UnscheduledOf(items, table, c) <= UnscheduledOf(s.items, s.links.table, s.clock)
  {
    hide DueItem, OnSchedule;
  }

  lemma StoreSwept(s: Start, items: map<Id, Item>, l: Links)
    requires StartOk(s) && LinksOk(items, l) && l.lastId == s.links.lastId
    requires forall k :: k in l.index ==>
               k in s.links.index && s.links.index[k] == l.index[k] && !DueItem(s.items[s.links.index[k]], s.clock)
    requires forall k :: k in s.links.index && !DueItem(s.items[s.links.index[k]], s.clock) ==> k in l.index
    requires forall k :: k in l.index ==> EntryOf(items[l.index[k]]) == EntryOf(s.items[l.index[k]])
    ensures StoreOf(items, l) == Drop(StoreOf(s.items, s.links), DueKeys(s))
  {
    hide Filed, IdsIssued, Paced, DueItem, EntryOf;
    assert StoreOf(items, l).entries == StoreOf(s.items, s.links).entries - DueKeys(s);
  }

  /** With every item on schedule, the keys due are the keys expired: the wheel does what a full scan would do. */
  lemma DueKeysAreExpired(s: Start)
    requires StartOk(s) && UnscheduledOf(s.items, s.links.table, s.clock) == {}
    ensures DueKeys(s) == ExpiredKeys(StoreOf(s.items, s.links), s.clock.now)
  {
    forall k | k in s.links.index
      ensures DueItem(s.items[s.links.index[k]], s.clock) <==> CacheSpec.Expired(StoreOf(s.items, s.links).entries[k], s.clock.now)
    {
      var i := s.links.index[k];
      assert i !in UnscheduledOf(s.items, s.links.table, s.clock);
      DueIsExpired(s.items[i].expirationId, s.items[i].expireTime, s.clock.checkTime, s.clock.lastSweep, s.clock.now);
    }
  }

  /** Moving an iterator's current block to the front of an equal or lower list leaves what is ahead of it in place. */
  lemma ListDistinct(items: map<Id, Item>, l: Links, b: nat)
    requires LinksOk(items, l) && b < |l.lists|
    ensures Distinct(l.lists[b])
  {
  }

  lemma MoveElsewhere(items: map<Id, Item>, l: Links, id: Id, pre: seq<Id>, post: seq<Id>, j: nat)
    requires LinksOk(items, l) && id in l.table && id in items && items[id].expirationId < |l.lists|
    requires l.lists[items[id].expirationId] == pre + [id] + post && j <= items[id].expirationId
    ensures var b := items[id].expirationId;
            var lists := WithMoved(l, id, b, j).lists;
            && WithMoved(l, id, b, j) == l.(lists := lists) && |lists| == |l.lists|
            && lists[b] == (if j == b then [id] + pre else pre) + post
            && forall d :: b < d < |lists| ==> lists[d] == l.lists[d]
  {
    hide LinksOk, Distinct, Without;
    var b := items[id].expirationId;
    ListDistinct(items, l, b);
    WithoutMiddle(pre, id, post);
    assert [id] + (pre + post) == [id] + pre + post;
  }

  lemma DoneAll(s: Start, b: nat)
    ensures DoneBut(s, b, []) == Below(s, b + 1)
  {
  }

  lemma PacedUpdate(checkTime: seq<nat>, lastSweep: nat, b: nat, t: nat)
    requires Paced(checkTime, lastSweep) && b < FOREVER && t <= lastSweep + Span(b)
    ensures Paced(checkTime[b := t], lastSweep)
  {
  }
}
