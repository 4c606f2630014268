/**
 What a walk over the expiry lists posts. A flush and a sweep unlink items one by one in the order of the lists, and
 each unlinking tells the item's watchers; here is what each watch has heard when the walk is over.
 */
module Notices {
  import opened Basics
  import opened CacheSpec
  import opened CacheState
  import opened ExpirySweep
  import opened ExpiryWheel

  /** Those of `ids` that are in `hit`, in their order. */
  function Picked(ids: seq<Id>, hit: set<Id>): seq<Id> {
    if ids == [] then []
    else
      var id := ids[|ids| - 1];
      Picked(ids[..|ids| - 1], hit) + if id in hit then [id] else []
  }

  /** The same over the first `n` lists, one list after the other. */
  function PickedBelow(lists: seq<seq<Id>>, hit: set<Id>, n: nat): seq<Id>
    requires n <= |lists|
  {
    if n == 0 then [] else PickedBelow(lists, hit, n - 1) + Picked(lists[n - 1], hit)
  }

  /** The same over all lists. */
  function Walk(lists: seq<seq<Id>>, hit: set<Id>): seq<Id> {
    PickedBelow(lists, hit, |lists|)
  }

  /** What a watch hears when the items `ids` go one after the other. */
  function Heard(items: map<Id, Item>, ids: seq<Id>, w: nat, notice: NotifyType): seq<Event> {
    if ids == [] then []
    else
      var id := ids[|ids| - 1];
      Heard(items, ids[..|ids| - 1], w, notice)
      + if id in items && w in items[id].watchers then [Event(items[id].cacheId, notice)] else []
  }

  /** Every watch has heard of the items `ids`, as they were in `items`, and of nothing else. */
  ghost predicate Rung(items: map<Id, Item>, was: map<nat, Watch>, now: map<nat, Watch>, ids: seq<Id>, notice: NotifyType) {
    && now.Keys == was.Keys
    && forall w :: w in was ==> now[w] == Watch(was[w].expireTime, was[w].posted + Heard(items, ids, w, notice))
  }

  /** The linked items are watched as they were when the walk began. */
  ghost predicate Untold(before: map<Id, Item>, items: map<Id, Item>, table: set<Id>) {
    forall i :: i in table ==>
      && i in before && i in items
      && items[i].watchers == before[i].watchers && items[i].cacheId == before[i].cacheId && items[i].key == before[i].key
  }

  /** The watches that have not lapsed. */
  function Alive(watches: map<nat, Watch>, now: nat): map<nat, Watch> {
    map w | w in watches && now < watches[w].expireTime :: watches[w]
  }

  /** The items of a group. */
  function OfGroup(items: map<Id, Item>, g: nat): set<Id> {
    set i | i in items && items[i].key.group == g
  }

  /** The linked items that a sweep removes. */
  ghost function DueIds(s: Start): set<Id> {
    set i | i in s.links.table && i in s.items && |s.clock.checkTime| == FOREVER && DueItem(s.items[i], s.clock)
  }

  /** No item of a list that is passed over is due. */
  lemma NoneDue(s: Start, b: nat)
    requires StartOk(s) && b <= FOREVER && (b < FOREVER ==> s.clock.checkTime[b] > s.clock.now)
    ensures |s.links.lists| == FOREVER + 1 && Picked(s.links.lists[b], DueIds(s)) == []
  {
    hide Indexed, IdsIssued, Paced, Distinct;
    forall i | i in s.links.lists[b] ensures i !in DueIds(s) { assert s.items[i].expirationId == b; }
    PickedNone(s.links.lists[b], DueIds(s));
  }

  /** In a list whose turn it is, the items due are those whose second has come. */
  lemma DueHere(s: Start, b: nat, id: Id)
    requires StartOk(s) && b < FOREVER && s.clock.checkTime[b] <= s.clock.now
    requires |s.links.lists| == FOREVER + 1 ==> id in s.links.lists[b]
    ensures id in s.items && (id in DueIds(s) <==> s.items[id].expireTime <= s.clock.now)
  {
    hide Indexed, IdsIssued, Paced, Distinct;
    assert s.items[id].expirationId == b;
  }

  /** Only the schedule and the second matter to it. */
  lemma SameIds(s: Start, t: Start)
    requires t.items == s.items && t.links == s.links
    requires t.clock.checkTime == s.clock.checkTime && t.clock.now == s.clock.now
    ensures DueIds(t) == DueIds(s)
  {
  }

  lemma RungNone(items: map<Id, Item>, watches: map<nat, Watch>, notice: NotifyType)
    ensures Rung(items, watches, watches, [], notice)
  {
    assert forall w :: w in watches ==> watches[w].posted + [] == watches[w].posted;
  }

  /** One item more. */
  lemma RungMore(items: map<Id, Item>, was: map<nat, Watch>, now: map<nat, Watch>, ids: seq<Id>, notice: NotifyType, id: Id)
    requires Rung(items, was, now, ids, notice) && id in items
    ensures Rung(items, was, Posted(now, items[id].watchers, Event(items[id].cacheId, notice)), ids + [id], notice)
  {
    assert (ids + [id])[..|ids|] == ids;
    forall w | w in was
      ensures was[w].posted + Heard(items, ids + [id], w, notice) ==
              now[w].posted + if w in items[id].watchers then [Event(items[id].cacheId, notice)] else []
    {
    }
  }

  lemma PickedMore(ids: seq<Id>, id: Id, hit: set<Id>)
    ensures Picked(ids + [id], hit) == Picked(ids, hit) + if id in hit then [id] else []
  {
    assert (ids + [id])[..|ids|] == ids;
  }

  lemma PickedNone(ids: seq<Id>, hit: set<Id>)
    requires forall i :: i in ids ==> i !in hit
    ensures Picked(ids, hit) == []
  {
  }

  lemma UntoldSelf(items: map<Id, Item>, l: Links)
    requires LinksOk(items, l)
    ensures Untold(items, items, l.table)
  {
    hide Indexed, IdsIssued;
  }

  /** Unlinking an item leaves the others watched as they were. */
  lemma UntoldUnlink(before: map<Id, Item>, items: map<Id, Item>, table: set<Id>, id: Id)
    requires Untold(before, items, table) && id in table && id in items && items[id].refCount > 0
    ensures Untold(before, Recount(items[id := items[id].(watchers := {})], id, items[id].refCount - 1), table - {id})
    ensures id in before && items[id].watchers == before[id].watchers && items[id].cacheId == before[id].cacheId
  {
  }

  lemma UntoldGroup(before: map<Id, Item>, items: map<Id, Item>, table: set<Id>, id: Id, g: nat)
    requires Untold(before, items, table) && id in table
    ensures id in before && id in items && (id in OfGroup(before, g) <==> items[id].key.group == g)
  {
  }

  // ---- What has been heard in the end ----

  lemma DistinctJoin<T>(a: seq<T>, b: seq<T>)
    requires Distinct(a) && Distinct(b) && forall x :: x in a ==> x !in b
    ensures Distinct(a + b)
  {
    forall p, q | 0 <= p < q < |a + b| ensures (a + b)[p] != (a + b)[q] {
      if p < |a| <= q {
        assert a[p] in a && b[q - |a|] in b;
      }
    }
  }

  lemma {:induction false} PickedMeans(ids: seq<Id>, hit: set<Id>)
    requires Distinct(ids)
    ensures Distinct(Picked(ids, hit))
    ensures forall i :: i in Picked(ids, hit) <==> i in ids && i in hit
  {
    if ids != [] {
      var front, id := ids[..|ids| - 1], ids[|ids| - 1];
      assert ids == front + [id];
      PickedMeans(front, hit);
    }
  }

  lemma {:induction false} PickedBelowMeans(items: map<Id, Item>, l: Links, hit: set<Id>, n: nat)
    requires Filed(items, l) && n <= |l.lists|
    ensures Distinct(PickedBelow(l.lists, hit, n))
    ensures forall i :: i in PickedBelow(l.lists, hit, n) <==> i in l.table && items[i].expirationId < n && i in hit
  {
    if n > 0 {
      PickedBelowMeans(items, l, hit, n - 1);
      PickedMeans(l.lists[n - 1], hit);
      DistinctJoin(PickedBelow(l.lists, hit, n - 1), Picked(l.lists[n - 1], hit));
    }
  }

  /** A walk meets each linked item that is hit exactly once. */
  lemma WalkMeans(items: map<Id, Item>, l: Links, hit: set<Id>)
    requires Filed(items, l)
    ensures Distinct(Walk(l.lists, hit)) && forall i :: i in Walk(l.lists, hit) <==> i in l.table && i in hit
  {
    PickedBelowMeans(items, l, hit, |l.lists|);
  }

  /** Of items whose ids differ a watch hears once each, and of no others. */
  lemma {:induction false} HeardMeans(items: map<Id, Item>, ids: seq<Id>, w: nat, notice: NotifyType)
    requires Distinct(ids) && forall i :: i in ids ==> i in items
    requires forall i, j :: i in ids && j in ids && items[i].cacheId == items[j].cacheId ==> i == j
    ensures Distinct(Heard(items, ids, w, notice))
    ensures forall e :: e in Heard(items, ids, w, notice) <==>
              exists i :: i in ids && w in items[i].watchers && e == Event(items[i].cacheId, notice)
  {
    if ids != [] {
      var front, id := ids[..|ids| - 1], ids[|ids| - 1];
      assert ids == front + [id];
      HeardMeans(items, front, w, notice);
      assert forall i :: i in ids <==> i in front || i == id;
      assert id !in front;
      DistinctJoin(Heard(items, front, w, notice), if w in items[id].watchers then [Event(items[id].cacheId, notice)] else []);
    }
  }
}
