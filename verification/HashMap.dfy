/** The intrusive chained hash table: each bucket is a singly linked chain of the nodes whose hash falls in it. */
module HashMap {
  import opened Basics

  class Node<K> {
    const key: K
    var hashValue: nat
    var hashNext: Node?<K>

    constructor (k: K)
      ensures key == k && hashValue == 0 && hashNext == null
    {
      key, hashValue, hashNext := k, 0, null;
    }
  }

  /** `chain` is the list of nodes that `first` leads to. Being finite, it has no cycle. */
  ghost predicate ChainOk<K>(first: Node?<K>, chain: seq<Node<K>>)
    reads chain`hashNext
  {
    if chain == [] then first == null
    else
      && first == chain[0] && chain[|chain| - 1].hashNext == null
      && forall i {:trigger chain[i].hashNext} :: 0 <= i < |chain| - 1 ==> chain[i].hashNext == chain[i + 1]
  }

  /** The nodes `nodes` are laid out over the chains by their hash values, each exactly once. */
  ghost predicate Placed<K>(nodes: set<Node<K>>, chains: seq<seq<Node<K>>>)
    reads nodes`hashValue
  {
    && |chains| > 0
    && (forall n :: n in nodes ==> n in chains[n.hashValue % |chains|])
    && (forall b, n :: 0 <= b < |chains| && n in chains[b] ==> n in nodes && n.hashValue % |chains| == b)
    && (forall b :: 0 <= b < |chains| ==> Distinct(chains[b]))
  }

  lemma PlacedApart<K>(nodes: set<Node<K>>, chains: seq<seq<Node<K>>>, p: Node<K>)
    requires Placed(nodes, chains) && p !in nodes
    ensures |chains| > 0 && forall b :: 0 <= b < |chains| ==> p !in chains[b]
  {
  }

  lemma PlacedInsert<K>(nodes: set<Node<K>>, chains: seq<seq<Node<K>>>, p: Node<K>)
    requires Placed(nodes, chains) && p !in nodes
    ensures var b := p.hashValue % |chains|;
            Placed(nodes + {p}, chains[b := [p] + chains[b]])
  {
    var b := p.hashValue % |chains|;
    var c := [p] + chains[b];
    assert c[0] == p;
    assert forall i :: 0 <= i < |chains[b]| ==> c[i + 1] == chains[b][i];
  }

  /** A table array holds the chains of exactly `nodes`. */
  ghost predicate Laid<K>(table: array<Node?<K>>, nodes: set<Node<K>>, chains: seq<seq<Node<K>>>)
    reads table, nodes
  {
    && table.Length == |chains|
    && Placed(nodes, chains)
    && forall b :: 0 <= b < |chains| ==> ChainOk(table[b], chains[b])
  }

  lemma EmptyLaid<K>(table: array<Node?<K>>, chains: seq<seq<Node<K>>>)
    requires |chains| == table.Length > 0 && forall b :: 0 <= b < |chains| ==> table[b] == null && chains[b] == []
    ensures Laid(table, {}, chains)
  {
  }

  lemma LaidBuckets<K>(table: array<Node?<K>>, nodes: set<Node<K>>, chains: seq<seq<Node<K>>>)
    requires Laid(table, nodes, chains)
    ensures table.Length == |chains| > 0
  {
  }

  lemma InItsBucket<K>(table: array<Node?<K>>, nodes: set<Node<K>>, chains: seq<seq<Node<K>>>, n: Node<K>)
    requires Laid(table, nodes, chains)
    ensures |chains| > 0 && (n in nodes <==> n in chains[n.hashValue % |chains|])
  {
  }

  lemma BucketIs<K>(table: array<Node?<K>>, nodes: set<Node<K>>, chains: seq<seq<Node<K>>>, b: nat)
    requires Laid(table, nodes, chains) && b < |chains|
    ensures forall n :: n in chains[b] <==> n in nodes && n.hashValue % |chains| == b
  {
  }

  ghost function Drop<T>(s: seq<T>, i: nat): seq<T>
    requires i < |s|
  {
    s[..i] + s[i + 1..]
  }

  lemma PlacedRemove<K>(nodes: set<Node<K>>, chains: seq<seq<Node<K>>>, b: nat, i: nat)
    requires Placed(nodes, chains) && b < |chains| && i < |chains[b]|
    ensures chains[b][i] in nodes
    ensures Placed(nodes - {chains[b][i]}, chains[b := Drop(chains[b], i)])
  {
    var c, p := chains[b], chains[b][i];
    var d := Drop(c, i);
    assert forall j :: 0 <= j < |d| ==> d[j] == if j < i then c[j] else c[j + 1];
    forall n | n in c && n != p ensures n in d {
      var j :| 0 <= j < |c| && c[j] == n;
      assert d[if j < i then j else j - 1] == n;
    }
  }

  ghost function At<K>(chain: seq<Node<K>>, i: nat): Node?<K> {
    if i < |chain| then chain[i] else null
  }

  ghost function Before<K>(chain: seq<Node<K>>, i: nat): Node?<K> {
    if 0 < i <= |chain| then chain[i - 1] else null
  }

  lemma ChainStep<K>(first: Node?<K>, chain: seq<Node<K>>, i: nat)
    requires ChainOk(first, chain) && i < |chain|
    ensures chain[i].hashNext == if i + 1 < |chain| then chain[i + 1] else null
  {
  }

  /** Walking one step along a chain. */
  lemma ChainTail<K>(chain: seq<Node<K>>, i: nat)
    requires i < |chain| && ChainOk(chain[i], chain[i..])
    ensures ChainOk(chain[i].hashNext, chain[i + 1..])
  {
    var s, t := chain[i..], chain[i + 1..];
    assert s[0] == chain[i] && |s| == |t| + 1;
    assert forall j :: 0 <= j < |t| ==> t[j] == s[j + 1];
  }

  lemma ChainsApart<K>(nodes: set<Node<K>>, chains: seq<seq<Node<K>>>, i: nat)
    requires Placed(nodes, chains) && i < |chains|
    ensures Distinct(chains[i]) && forall n :: n in chains[i] ==> n in nodes
    ensures forall b, n :: 0 <= b < |chains| && b != i && n in chains[b] ==> n !in chains[i]
  {
  }

  lemma AllPlaced<K>(nodes: set<Node<K>>, chains: seq<seq<Node<K>>>)
    requires Placed(nodes, chains)
    ensures nodes == set b, n | 0 <= b < |chains| && n in chains[b] :: n
  {
    forall n | n in nodes ensures exists b :: 0 <= b < |chains| && n in chains[b] {
      assert n in chains[n.hashValue % |chains|];
    }
  }

  const BUCKET_SIZES: seq<nat> := [
    3, 7, 13, 23, 53, 97, 193, 389, 769, 1543, 3079, 6151, 12289, 24593, 49157, 98317, 196613, 393241, 786433,
    1572869, 3145739, 6291469, 12582917, 25165843]

  lemma SizesInOrder(i: nat)
    requires i < |BUCKET_SIZES|
    ensures forall j :: i <= j < |BUCKET_SIZES| ==> BUCKET_SIZES[i] <= BUCKET_SIZES[j]
    decreases |BUCKET_SIZES| - i
  {
    if i + 1 < |BUCKET_SIZES| {
      SizesInOrder(i + 1);
      assert BUCKET_SIZES[i] < BUCKET_SIZES[i + 1];
    }
  }

  /** The next size up in the table, or double beyond its end. */
  method NextBucketSize(size: nat) returns (r: nat)
    requires size > 0
    ensures r > size
    ensures r in BUCKET_SIZES || (r == 2 * size && forall i :: 0 <= i < |BUCKET_SIZES| ==> BUCKET_SIZES[i] <= size)
    ensures r in BUCKET_SIZES ==> forall i :: 0 <= i < |BUCKET_SIZES| && BUCKET_SIZES[i] > size ==> r <= BUCKET_SIZES[i]
  {
    for i := 0 to |BUCKET_SIZES|
      invariant forall j :: 0 <= j < i ==> BUCKET_SIZES[j] <= size
    {
      if BUCKET_SIZES[i] > size {
        SizesInOrder(i);
        return BUCKET_SIZES[i];
      }
    }
    return size * 2;
  }

  class Map<K(==)> {
    var bucketSize: nat
    var expandSize: nat
    var table: array<Node?<K>>
    var size: nat
    ghost var nodes: set<Node<K>>
    ghost var chains: seq<seq<Node<K>>>

    ghost predicate Valid()
      reads this, table, nodes
    {
      && table.Length == bucketSize
      && Laid(table, nodes, chains)
      && size == |nodes| && expandSize == bucketSize * 3 / 2
    }

    constructor (buckets: nat)
      requires buckets > 0
      ensures Valid() && nodes == {} && fresh(table)
    {
      bucketSize, expandSize, size := buckets, buckets * 3 / 2, 0;
      table := new Node?<K>[buckets](_ => null);
      nodes, chains := {}, seq(buckets, _ => []);
    }

    /** A search answers null exactly if no node of the hash's bucket has the key. */
    method Find(k: K, hash: nat) returns (r: Node?<K>)
      requires Valid()
      ensures r == null <==> forall n :: n in nodes && n.hashValue % bucketSize == hash % bucketSize ==> n.key != k
      ensures r != null ==> r in nodes && r.key == k && r.hashValue % bucketSize == hash % bucketSize
    {
      r := table[hash % bucketSize];
      ghost var chain, i := chains[hash % bucketSize], 0;
      while r != null
        invariant 0 <= i <= |chain|
        invariant r == if i < |chain| then chain[i] else null
        invariant forall j :: 0 <= j < i ==> chain[j].key != k
        decreases |chain| - i
      {
        if r.key == k { return; }
        r := r.hashNext;
        i := i + 1;
      }
    }

    /**
     With the table's nodes hashed by `h` from their keys, and keys unique, looking a key up by its own hash is
     looking it up in a finite map.
     */
    ghost predicate Hashed(h: K -> nat)
      reads this, nodes
    {
      && (forall n :: n in nodes ==> n.hashValue == h(n.key))
      && forall m, n :: m in nodes && n in nodes && m.key == n.key ==> m == n
    }

    method Lookup(k: K, h: K -> nat) returns (r: Node?<K>)
      requires Valid() && Hashed(h)
      ensures r == null <==> forall n :: n in nodes ==> n.key != k
      ensures r != null ==> r in nodes && forall n :: n in nodes && n.key == k ==> n == r
    {
      r := Find(k, h(k));
    }

    /** Puts a node in front of a bucket's chain. */
    static method PushChain(table: array<Node?<K>>, b: nat, p: Node<K>, ghost chains: seq<seq<Node<K>>>)
      requires b < table.Length == |chains|
      requires forall d :: 0 <= d < |chains| ==> ChainOk(table[d], chains[d]) && p !in chains[d]
      modifies table, p`hashNext
      ensures forall d :: 0 <= d < |chains| ==> ChainOk(table[d], chains[b := [p] + chains[b]][d])
    {
      p.hashNext := table[b];
      table[b] := p;
    }

    /** Moves every node of one old chain to the new table. */
    static method MoveChain(first: Node?<K>, ghost chain: seq<Node<K>>, into: array<Node?<K>>,
                            ghost moved: set<Node<K>>, ghost chains: seq<seq<Node<K>>>)
      returns (ghost all: set<Node<K>>, ghost result: seq<seq<Node<K>>>)
      requires ChainOk(first, chain) && Distinct(chain) && (forall n :: n in chain ==> n !in moved)
      requires Laid(into, moved, chains) && into.Length > 0
      modifies into, chain`hashNext
      ensures all == moved + (set n | n in chain) && Laid(into, all, result)
    {
      hide Placed;
      var p := first;
      ghost var i := 0;
      all, result := moved, chains;
      while p != null
        invariant 0 <= i <= |chain| && ChainOk(p, chain[i..])
        invariant all == moved + (set n | n in chain[..i])
        invariant Laid(into, all, result)
        decreases |chain| - i
      {
        var bucket, next := p.hashValue % into.Length, p.hashNext;
        assert p == chain[i..][0] == chain[i];
        ChainTail(chain, i);
        assert p !in all;
        PlacedApart(all, result, p);
        PlacedInsert(all, result, p);
        PushChain(into, bucket, p, result);
        result := result[bucket := [p] + result[bucket]];
        assert chain[..i + 1] == chain[..i] + [p];
        all := all + {p};
        p := next;
        i := i + 1;
      }
      assert i == |chain| && chain[..i] == chain;
    }

    /** Moves every node of the old table, bucket by bucket. */
    static method Rehash(table: array<Node?<K>>, ghost nodes: set<Node<K>>, ghost chains: seq<seq<Node<K>>>,
                         into: array<Node?<K>>)
      returns (ghost laid: seq<seq<Node<K>>>)
      requires Laid(table, nodes, chains) && table != into && into.Length > 0
      requires forall b :: 0 <= b < into.Length ==> into[b] == null
      modifies table, into, nodes`hashNext
      ensures Laid(into, nodes, laid)
    {
      hide Placed;
      ghost var moved := {};
      laid := seq(into.Length, _ => []);
      EmptyLaid(into, laid);
      for i := 0 to table.Length
        invariant Laid(into, moved, laid)
        invariant moved == set b, n | 0 <= b < i && n in chains[b] :: n
        invariant Placed(nodes, chains)
        invariant forall b :: i <= b < table.Length ==> ChainOk(table[b], chains[b])
      {
        ChainsApart(nodes, chains, i);
        label before:
        moved, laid := MoveChain(table[i], chains[i], into, moved, laid);
        forall b | i < b < table.Length ensures ChainOk(table[b], chains[b]) {
          assert old@before(ChainOk(table[b], chains[b]));
          assert forall n :: n in chains[b] ==> n !in chains[i];
          assert table[b] == old@before(table[b]);
          assert forall n :: n in chains[b] ==> n.hashNext == old@before(n.hashNext);
          assert forall j {:trigger chains[b][j]} :: 0 <= j < |chains[b]| ==> chains[b][j] in chains[b];
        }
        table[i] := null;
      }
      AllPlaced(nodes, chains);
    }

    /** Rehashes every node into a larger table. Without memory for one, the old table stays. */
    method Expand(memory: bool)
      requires Valid()
      modifies this, table, nodes`hashNext
      ensures Valid() && nodes == old(nodes) && size == old(size)
      ensures if memory then bucketSize > old(bucketSize) && fresh(table) else bucketSize == old(bucketSize) && table == old(table)
    {
      hide Laid;
      LaidBuckets(table, nodes, chains);
      var buckets := NextBucketSize(bucketSize);
      if memory {
        var into := new Node?<K>[buckets](_ => null);
        chains := Rehash(table, nodes, chains, into);
        bucketSize, expandSize := buckets, buckets * 3 / 2;
        table := into;
      }
    }

    /** Adds a node; past the load limit the table is rebuilt. */
    method Insert(p: Node<K>, hash: nat, memory: bool)
      requires Valid() && p !in nodes
      modifies this, table, nodes`hashNext, p
      ensures Valid() && nodes == old(nodes) + {p} && p.hashValue == hash
      ensures if |nodes| > old(expandSize) && memory then bucketSize > old(bucketSize) else bucketSize == old(bucketSize)
    {
      hide Placed, ChainOk;
      PlacedApart(nodes, chains, p);
      p.hashValue := hash;
      var b := hash % bucketSize;
      PlacedInsert(nodes, chains, p);
      PushChain(table, b, p, chains);
      chains := chains[b := [p] + chains[b]];
      nodes := nodes + {p};
      size := size + 1;
      if size > expandSize { Expand(memory); }
    }

    /** Takes the node at place `i` of a chain out of it; `prev` is the node before it, if any. */
    static method PullChain(table: array<Node?<K>>, b: nat, prev: Node?<K>, curr: Node<K>,
                            ghost chains: seq<seq<Node<K>>>, ghost i: nat)
      requires b < table.Length == |chains| && i <= |chains[b]| && Distinct(chains[b])
      requires curr == At(chains[b], i) && prev == Before(chains[b], i)
      requires forall d :: 0 <= d < |chains| ==> ChainOk(table[d], chains[d])
      requires forall d, n :: 0 <= d < |chains| && d != b && n in chains[d] ==> n !in chains[b]
      modifies table, chains[b]`hashNext
      ensures forall d :: 0 <= d < |chains| ==> ChainOk(table[d], chains[b := Drop(chains[b], i)][d])
      ensures curr.hashNext == null
    {
      ghost var c := chains[b];
      assert forall d {:trigger chains[d]} :: 0 <= d < |chains| && d != b ==>
        forall j :: 0 <= j < |chains[d]| ==> chains[d][j] in chains[d] && chains[d][j] !in c;
      assert forall j :: 0 <= j < |Drop(c, i)| ==> Drop(c, i)[j] == if j < i then c[j] else c[j + 1];
      if prev != null { prev.hashNext := curr.hashNext; } else { table[b] := curr.hashNext; }
      curr.hashNext := null;
    }

    method Unhook(b: nat, prev: Node?<K>, curr: Node<K>, ghost i: nat)
      requires Valid() && b < bucketSize && i <= |chains[b]| && curr == At(chains[b], i) && prev == Before(chains[b], i)
      modifies this, table, nodes`hashNext
      ensures Valid() && nodes == old(nodes) - {curr} && curr in old(nodes)
      ensures curr.hashNext == null && bucketSize == old(bucketSize)
    {
      hide Placed, ChainOk;
      ChainsApart(nodes, chains, b);
      PlacedRemove(nodes, chains, b, i);
      PullChain(table, b, prev, curr, chains, i);
      chains := chains[b := Drop(chains[b], i)];
      nodes := nodes - {curr};
      size := size - 1;
    }

    /** Walks a bucket's chain to a node. */
    method SeekNode(t: Node<K>, b: nat) returns (prev: Node?<K>, curr: Node?<K>, ghost i: nat)
      requires Valid() && b < bucketSize
      ensures i <= |chains[b]| && curr == At(chains[b], i) && prev == Before(chains[b], i)
      ensures curr == if t in chains[b] then t else null
    {
      ghost var chain := chains[b];
      prev, curr, i := null, table[b], 0;
      while curr != null && curr != t
        invariant 0 <= i <= |chain|
        invariant curr == At(chain, i) && prev == Before(chain, i)
        invariant t !in chain[..i]
        decreases |chain| - i
      {
        ChainStep(table[b], chain, i);
        prev, curr := curr, curr.hashNext;
        i := i + 1;
      }
      if curr == null { assert chain[..i] == chain; }
    }

    /** Walks a bucket's chain to the first node with a key. */
    method SeekKey(k: K, b: nat) returns (prev: Node?<K>, curr: Node?<K>, ghost i: nat)
      requires Valid() && b < bucketSize
      ensures i <= |chains[b]| && curr == At(chains[b], i) && prev == Before(chains[b], i)
      ensures curr == null <==> forall n :: n in chains[b] ==> n.key != k
      ensures curr != null ==> curr.key == k && curr in chains[b]
    {
      ghost var chain := chains[b];
      prev, curr, i := null, table[b], 0;
      while curr != null && curr.key != k
        invariant 0 <= i <= |chain|
        invariant curr == At(chain, i) && prev == Before(chain, i)
        invariant forall j :: 0 <= j < i ==> chain[j].key != k
        decreases |chain| - i
      {
        ChainStep(table[b], chain, i);
        prev, curr := curr, curr.hashNext;
        i := i + 1;
      }
    }

    /** The removed node, or null exactly if the node is not in the table. */
    method Remove(t: Node<K>) returns (r: Node?<K>)
      requires Valid()
      modifies this, table, nodes`hashNext
      ensures Valid() && nodes == old(nodes) - {t}
      ensures r == if t in old(nodes) then t else null
      ensures r != null ==> r.hashNext == null
    {
      hide Laid;
      LaidBuckets(table, nodes, chains);
      var bucket := t.hashValue % bucketSize;
      var prev, curr, i := SeekNode(t, bucket);
      InItsBucket(table, nodes, chains, t);
      r := curr;
      if curr != null { Unhook(bucket, prev, curr, i); }
    }

    /** Removes the node that a search for the key finds. */
    method RemoveKey(k: K, hash: nat) returns (r: Node?<K>)
      requires Valid()
      modifies this, table, nodes`hashNext
      ensures Valid() && bucketSize == old(bucketSize)
      ensures r == null <==> forall n :: n in old(nodes) && n.hashValue % bucketSize == hash % bucketSize ==> n.key != k
      ensures r == null ==> nodes == old(nodes)
      ensures r != null ==> r in old(nodes) && r.key == k && nodes == old(nodes) - {r} && r.hashNext == null
      ensures r != null ==> r.hashValue % bucketSize == hash % bucketSize
    {
      hide Laid;
      LaidBuckets(table, nodes, chains);
      var bucket := hash % bucketSize;
      var prev, curr, i := SeekKey(k, bucket);
      BucketIs(table, nodes, chains, bucket);
      r := curr;
      if curr != null { Unhook(bucket, prev, curr, i); }
    }
  }
}
