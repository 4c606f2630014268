/**
 The cache manager's 34 expiry lists and 200 free lists as the linked lists they are: the blocks are the nodes, and
 their links are shared by all the lists, so a block must never be in two of them.
 */
module ItemLists {
  import opened Basics
  import opened CacheState
  import opened IntrusiveList
  import opened SizeClasses

  /** Each list holds the blocks whose place it is. */
  ghost predicate Placed(views: seq<seq<Node>>, place: map<Node, Option<nat>>) {
    && (forall b, p :: 0 <= b < |views| && p in views[b] ==> p in place && place[p] == Some(b))
    && (forall p :: p in place && place[p].Some? ==> place[p].value < |views| && p in views[place[p].value])
  }

  lemma PlacedOne(views: seq<seq<Node>>, place: map<Node, Option<nat>>, b: nat, p: Node, view: seq<Node>, at: Option<nat>)
    requires Placed(views, place) && b < |views| && p in place
    requires (place[p] == None || place[p] == Some(b)) && (at == None || at == Some(b))
    requires forall q :: q in view <==> (q in views[b] && q != p) || (q == p && at == Some(b))
    ensures Placed(views[b := view], place[p := at])
  {
  }

  lemma Elsewhere(views: seq<seq<Node>>, place: map<Node, Option<nat>>, b: nat, p: Node)
    requires Placed(views, place) && b < |views| && p in place && (place[p] == None || place[p] == Some(b))
    ensures p in views[b] <==> place[p] == Some(b)
    ensures forall a, q :: 0 <= a < |views| && a != b && q in views[a] ==> q != p && q !in views[b]
    ensures forall q :: q in place && place[q] == None ==> q !in views[b]
  {
    forall a, q | 0 <= a < |views| && a != b && q in views[a] ensures q != p && q !in views[b] {
      assert place[q] == Some(a);
    }
  }

  ghost function Addresses(nodes: seq<Node>): (r: seq<Id>)
    ensures |r| == |nodes| && forall k :: 0 <= k < |nodes| ==> r[k] == nodes[k].address
  {
    seq(|nodes|, k requires 0 <= k < |nodes| => nodes[k].address)
  }

  /** No two blocks lie at the same address. */
  ghost predicate Addressed(place: map<Node, Option<nat>>) {
    forall p, q :: p in place && q in place && p.address == q.address ==> p == q
  }

  /** The lists, block by block and in order, are the expiry lists and the free lists of the manager's model. */
  ghost predicate Holds(views: seq<seq<Node>>, l: Links, pool: Pool) {
    && |l.lists| == 34 && |views| == 34 + |pool.free|
    && (forall b :: 0 <= b < 34 ==> Addresses(views[b]) == l.lists[b])
    && forall c :: 34 <= c < |views| ==> Addresses(views[c]) == pool.free[c - 34]
  }

  lemma {:induction false} AddressesWithout(nodes: seq<Node>, p: Node)
    requires forall q :: q in nodes && q.address == p.address ==> q == p
    ensures Addresses(Without(nodes, p)) == Without(Addresses(nodes), p.address)
  {
    hide Distinct;
    if nodes != [] {
      AddressesWithout(nodes[1..], p);
      assert nodes[0] in nodes;
      assert Addresses(nodes)[1..] == Addresses(nodes[1..]);
      assert Addresses([nodes[0]] + Without(nodes[1..], p)) == [nodes[0].address] + Addresses(Without(nodes[1..], p));
    }
  }

  /** A block in use that is not linked is in no list. */
  lemma UnlinkedIsLoose(views: seq<seq<Node>>, place: map<Node, Option<nat>>, items: map<Id, Item>, l: Links, pool: Pool, p: Node)
    requires Placed(views, place) && Holds(views, l, pool) && LinksOk(items, l) && PoolOk(items, pool)
    requires p in place && p.address in items && p.address !in l.table
    ensures place[p] == None
  {
    hide Indexed, IdsIssued, TableOk, Sum, Addresses;
    if place[p].Some? {
      PlacedAddress(views, place, p);
      assert false;
    }
  }

  lemma PlacedAddress(views: seq<seq<Node>>, place: map<Node, Option<nat>>, p: Node)
    requires Placed(views, place) && p in place && place[p].Some?
    ensures place[p].value < |views| && p.address in Addresses(views[place[p].value])
  {
    var b := place[p].value;
    var k :| 0 <= k < |views[b]| && views[b][k] == p;
    assert Addresses(views[b])[k] == p.address;
  }

  /** And one that is linked is in the list of its bucket. */
  lemma LinkedIsPlaced(views: seq<seq<Node>>, place: map<Node, Option<nat>>, items: map<Id, Item>, l: Links, pool: Pool, p: Node)
    requires Placed(views, place) && Addressed(place) && Holds(views, l, pool) && LinksOk(items, l)
    requires p in place && p.address in l.table
    ensures p.address in items && items[p.address].expirationId < 34 && place[p] == Some(items[p.address].expirationId)
  {
    hide Indexed, IdsIssued, Addresses;
    var b := items[p.address].expirationId;
    assert p.address in l.lists[b];
    var k :| 0 <= k < |views[b]| && Addresses(views[b])[k] == p.address;
    assert views[b][k] in views[b] && views[b][k].address == p.address;
  }

  lemma HoldsMoved(views: seq<seq<Node>>, place: map<Node, Option<nat>>, l: Links, pool: Pool, p: Node, a: nat, b: nat)
    requires Placed(views, place) && Addressed(place) && Holds(views, l, pool) && a < 34 && b < 34 && p in place
    ensures |views| >= 34
    ensures var removed := views[a := Without(views[a], p)];
            Holds(removed[b := [p] + removed[b]], WithMoved(l, p.address, a, b), pool)
  {
    hide Without;
    AddressesWithout(views[a], p);
  }

  lemma AddressedSame(was: map<Node, Option<nat>>, place: map<Node, Option<nat>>)
    requires Addressed(was) && place.Keys == was.Keys
    ensures Addressed(place)
  {
  }

  lemma PlacedNew(views: seq<seq<Node>>, place: map<Node, Option<nat>>, p: Node)
    requires Placed(views, place) && Addressed(place) && forall q :: q in place ==> q.address != p.address
    ensures Placed(views, place[p := None]) && Addressed(place[p := None])
  {
    assert p !in place;
    forall b, q | 0 <= b < |views| && q in views[b] ensures q in place && q != p && place[q] == Some(b) {
    }
  }

  lemma PlacedGone(views: seq<seq<Node>>, place: map<Node, Option<nat>>, p: Node)
    requires Placed(views, place) && Addressed(place) && p in place && place[p] == None
    ensures Placed(views, place - {p}) && Addressed(place - {p})
    ensures forall q :: q in place - {p} ==> q.address != p.address
    ensures forall b, q :: 0 <= b < |views| && q in views[b] ==> q in place - {p}
  {
    var rest := place - {p};
    forall b, q | 0 <= b < |views| && q in views[b] ensures q in rest && rest[q] == Some(b) {
      assert place[q] == Some(b);
    }
  }

  lemma HoldsSame(views: seq<seq<Node>>, l: Links, pool: Pool, pool': Pool)
    requires Holds(views, l, pool) && pool'.free == pool.free
    ensures Holds(views, l, pool')
  {
  }

  class Lists {
    const lists: seq<List>
    ghost var place: map<Node, Option<nat>>   // every block of memory, and the list it is in

    /** Each list is sound, and a block that is in none has no links. */
    ghost predicate Valid()
      reads this, lists, place.Keys
    {
      && Distinct(lists) && Placed(Views(), place)
      && (forall b :: 0 <= b < |lists| ==> (forall p :: p in lists[b].nodes ==> p in place) && lists[b].Valid())
      && (forall p :: p in place && place[p] == None ==> p.Detached())
    }

    /** What the lists hold. */
    ghost function Views(): (r: seq<seq<Node>>)
      reads this, lists
      ensures |r| == |lists| && forall b :: 0 <= b < |r| ==> r[b] == lists[b].nodes
    {
      seq(|lists|, b requires 0 <= b < |lists| reads this, lists => lists[b].nodes)
    }

    /** The block at hand, and what changes with it, is no business of the other lists and blocks. */
    lemma Apart(b: nat, p: Node)
      requires Valid() && b < |lists| && p in place && (place[p] == None || place[p] == Some(b))
      ensures lists[b].Valid() && (p in lists[b].nodes <==> place[p] == Some(b)) && (place[p] == None ==> p.Detached())
      ensures forall q :: q in lists[b].nodes ==> q in place
      ensures forall q :: q in place && place[q] == None ==> q.Detached() && q !in lists[b].nodes
      ensures forall a :: 0 <= a < |lists| && a != b ==> lists[a] != lists[b] && lists[a].Valid()
      ensures forall a, q :: 0 <= a < |lists| && a != b && q in lists[a].nodes ==> q in place && q != p && q !in lists[b].nodes
    {
      hide List.Valid, Placed;
      Elsewhere(Views(), place, b, p);
    }

    lemma DistinctNodes(b: nat)
      requires Valid() && b < |lists|
      ensures Distinct(lists[b].nodes)
    {
      hide Placed;
    }

    method PushFront(b: nat, p: Node)
      requires Valid() && b < |lists| && p in place && place[p] == None
      modifies this, lists, place.Keys
      ensures Valid() && place == old(place)[p := Some(b)]
      ensures Views() == old(Views())[b := [p] + old(Views())[b]]
    {
      hide List.Valid, Placed;
      Apart(b, p);
      PlacedOne(Views(), place, b, p, [p] + Views()[b], Some(b));
      lists[b].PushFront(p);
      place := place[p := Some(b)];
      assert Views() == old(Views())[b := [p] + old(Views())[b]];
      forall a | 0 <= a < |lists| && a != b ensures lists[a].Valid() {
        forall k | 0 <= k < |lists[a].nodes| ensures unchanged(lists[a].nodes[k]) {
          assert lists[a].nodes[k] in old(lists[a].nodes);
        }
        lists[a].StaysValid();
      }
    }

    method PushBack(b: nat, p: Node)
      requires Valid() && b < |lists| && p in place && place[p] == None
      modifies this, lists, place.Keys
      ensures Valid() && place == old(place)[p := Some(b)]
      ensures Views() == old(Views())[b := old(Views())[b] + [p]]
    {
      hide List.Valid, Placed;
      Apart(b, p);
      PlacedOne(Views(), place, b, p, Views()[b] + [p], Some(b));
      lists[b].PushBack(p);
      place := place[p := Some(b)];
      assert Views() == old(Views())[b := old(Views())[b] + [p]];
      forall a | 0 <= a < |lists| && a != b ensures lists[a].Valid() {
        forall k | 0 <= k < |lists[a].nodes| ensures unchanged(lists[a].nodes[k]) {
          assert lists[a].nodes[k] in old(lists[a].nodes);
        }
        lists[a].StaysValid();
      }
    }

    method Remove(b: nat, p: Node)
      requires Valid() && b < |lists| && p in place && place[p] == Some(b)
      modifies this, lists, place.Keys
      ensures Valid() && place == old(place)[p := None]
      ensures Views() == old(Views())[b := Without(old(Views())[b], p)]
    {
      hide List.Valid, Placed, Without, Distinct;
      Apart(b, p);
      DistinctNodes(b);
      ghost var k :| 0 <= k < |lists[b].nodes| && lists[b].nodes[k] == p;
      lists[b].Remove(p, k);
      RemoveIsWithout(old(lists[b].nodes), k);
      PlacedOne(old(Views()), place, b, p, lists[b].nodes, None);
      place := place[p := None];
      assert Views() == old(Views())[b := Without(old(Views())[b], p)];
      forall a | 0 <= a < |lists| && a != b ensures lists[a].Valid() {
        forall k | 0 <= k < |lists[a].nodes| ensures unchanged(lists[a].nodes[k]) {
          assert lists[a].nodes[k] in old(lists[a].nodes);
        }
        lists[a].StaysValid();
      }
    }

    /** Takes the first block of a list that has one. */
    method PopFront(b: nat) returns (p: Node)
      requires Valid() && b < |lists| && Views()[b] != []
      modifies this, lists, place.Keys
      ensures Valid() && p == old(Views())[b][0] && p in old(place) && place == old(place)[p := None]
      ensures Views() == old(Views())[b := old(Views())[b][1..]]
    {
      hide List.Valid, Placed, Distinct;
      HeadPlaced(b);
      Apart(b, Views()[b][0]);
      ghost var was := Views();
      p := lists[b].PopFront();
      PlacedOne(was, place, b, p, was[b][1..], None);
      place := place[p := None];
      assert Views() == was[b := was[b][1..]];
      forall a | 0 <= a < |lists| && a != b ensures lists[a].Valid() {
        forall k | 0 <= k < |lists[a].nodes| ensures unchanged(lists[a].nodes[k]) {
          assert lists[a].nodes[k] in old(lists[a].nodes);
        }
        lists[a].StaysValid();
      }
    }

    lemma HeadPlaced(b: nat)
      requires Valid() && b < |lists| && Views()[b] != []
      ensures var p, view := Views()[b][0], Views()[b];
              p in place && place[p] == Some(b) && forall q :: q in view[1..] <==> q in view && q != p
    {
      DistinctNodes(b);
      assert Views()[b][0] in Views()[b];
    }

    /** The blocks and lists stand for those of the manager's model. */
    ghost predicate Stands(l: Links, pool: Pool)
      reads this, lists, place.Keys
    {
      Valid() && Addressed(place) && Holds(Views(), l, pool)
    }

    /** Empty lists hold nothing. */
    constructor (lists: seq<List>, ghost pool: Pool)
      requires pool.free == Empties(CLASSID_MAX) && |lists| == 34 + CLASSID_MAX && Distinct(lists)
      requires forall b :: 0 <= b < |lists| ==> lists[b].Valid() && lists[b].nodes == []
      ensures this.lists == lists && place == map[]
      ensures Stands(NoLinks(), pool)
    {
      hide List.Valid, Empties;
      this.lists, place := lists, map[];
      new;
      assert Valid();
    }

    /** A block had from the system is in no list. */
    ghost method Allocate(p: Node, c: nat, l: Links, pool: Pool)
      requires Stands(l, pool) && p.Detached() && c < |pool.maxSize| && forall q :: q in place ==> q.address != p.address
      modifies this
      ensures Stands(l, FromSystem(pool, c, p.address)) && place == old(place)[p := None]
    {
      hide List.Valid, Placed, Holds, Addressed;
      PlacedNew(Views(), place, p);
      HoldsSame(Views(), l, pool, FromSystem(pool, c, p.address));
      place := place[p := None];
      assert Views() == old(Views());
    }

    /** A block in use and not linked that is given back to the system: its address can be had again. */
    ghost method GiveBack(p: Node, c: nat, items: map<Id, Item>, l: Links, pool: Pool)
      requires Stands(l, pool) && LinksOk(items, l) && PoolOk(items, pool)
      requires p in place && p.address in items && p.address !in l.table && c < |pool.maxSize| && pool.maxSize[c] <= pool.used
      modifies this
      ensures Stands(l, ToSystem(pool, c, p.address)) && p.Detached()
      ensures place == old(place) - {p} && forall q :: q in place ==> q.address != p.address
    {
      hide List.Valid, Placed, Holds, Addressed, LinksOk, PoolOk;
      UnlinkedIsDetached(p, items, l, pool);
      PlacedGone(Views(), place, p);
      HoldsSame(Views(), l, pool, ToSystem(pool, c, p.address));
      place := place - {p};
      assert Views() == old(Views());
    }

    /** A block in use and not linked has no links; so it can be given back to the system. */
    lemma UnlinkedIsDetached(p: Node, items: map<Id, Item>, l: Links, pool: Pool)
      requires Stands(l, pool) && LinksOk(items, l) && PoolOk(items, pool)
      requires p in place && p.address in items && p.address !in l.table
      ensures place[p] == None && p.Detached()
    {
      hide List.Valid, Placed, LinksOk, PoolOk;
      UnlinkedIsLoose(Views(), place, items, l, pool, p);
    }

    /** Linking a block, in the manager's terms. */
    method Link(p: Node, b: nat, ghost items: map<Id, Item>, ghost l: Links, ghost pool: Pool)
      requires Stands(l, pool) && LinksOk(items, l) && PoolOk(items, pool)
      requires p in place && p.address in items && p.address !in l.table && b == items[p.address].expirationId
      modifies this, lists, place.Keys
      ensures b < 34 && Stands(WithLinked(l, p.address, items[p.address].key, b), pool) && place.Keys == old(place).Keys
    {
      hide List.Valid, Placed, LinksOk, PoolOk;
      UnlinkedIsLoose(Views(), place, items, l, pool, p);
      BucketBound(items, l, p.address);
      PushBack(b, p);
    }

    /** Unlinking a block, in the manager's terms; afterwards it has no links. */
    method Unlink(p: Node, b: nat, ghost items: map<Id, Item>, ghost l: Links, ghost pool: Pool)
      requires Stands(l, pool) && LinksOk(items, l)
      requires p in place && p.address in l.table && p.address in items && b == items[p.address].expirationId
      modifies this, lists, place.Keys
      ensures b < 34 && Stands(WithUnlinked(l, p.address, items[p.address].key, b), pool) && place.Keys == old(place).Keys
      ensures p.Detached()
    {
      hide List.Valid, Placed, LinksOk, PoolOk;
      LinkedIsPlaced(Views(), place, items, l, pool, p);
      AddressesWithout(Views()[b], p);
      Remove(b, p);
    }

    /** Moving a linked block to the front of a list, in the manager's terms. */
    method Refile(p: Node, a: nat, b: nat, ghost items: map<Id, Item>, ghost l: Links, ghost pool: Pool)
      requires Stands(l, pool) && LinksOk(items, l) && b < 34
      requires p in place && p.address in l.table && p.address in items && a == items[p.address].expirationId
      modifies this, lists, place.Keys
      ensures a < 34 && Stands(WithMoved(l, p.address, a, b), pool) && place.Keys == old(place).Keys
    {
      hide List.Valid, Placed, LinksOk, Holds, WithMoved, Distinct, Addressed;
      LinkedIsPlaced(Views(), place, items, l, pool, p);
      HoldsMoved(Views(), place, l, pool, p, a, b);
      Remove(a, p);
      AddressedSame(old(place), place);
      PushFront(b, p);
      AddressedSame(old(place), place);
    }

    /** A block in use and not linked goes to a free list, in the manager's terms. */
    method Free(p: Node, c: nat, ghost items: map<Id, Item>, ghost l: Links, ghost pool: Pool)
      requires Stands(l, pool) && LinksOk(items, l) && PoolOk(items, pool)
      requires p in place && p.address in items && p.address !in l.table && c < |pool.free|
      modifies this, lists, place.Keys
      ensures Stands(l, ToFreeList(pool, c, p.address)) && place.Keys == old(place).Keys
    {
      hide List.Valid, Placed, LinksOk, PoolOk;
      UnlinkedIsLoose(Views(), place, items, l, pool, p);
      PushFront(34 + c, p);
    }

    /** The first block of a free list, in the manager's terms: it is the one the model names, and it has no links. */
    method Take(c: nat, ghost l: Links, ghost pool: Pool) returns (p: Node)
      requires Stands(l, pool) && c < |pool.free| && pool.free[c] != []
      modifies this, lists, place.Keys
      ensures Stands(l, FromFreeList(pool, c)) && place.Keys == old(place).Keys
      ensures p in place && p.address == pool.free[c][0] && p.Detached()
    {
      hide List.Valid, Placed;
      p := PopFront(34 + c);
      assert Addresses(Views()[34 + c]) == pool.free[c][1..];
    }
  }

  lemma RemoveIsWithout(s: seq<Node>, k: nat)
    requires k < |s| && Distinct(s)
    ensures s[..k] + s[k + 1..] == Without(s, s[k])
  {
    assert s == s[..k] + [s[k]] + s[k + 1..];
    WithoutMiddle(s[..k], s[k], s[k + 1..]);
  }
}
