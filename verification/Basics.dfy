/** Types shared by the cache model: bytes, optional values, and sums over finite maps. */
module Basics {

  type byte = b: int | 0 <= b < 256

  datatype Option<+T> = None | Some(value: T)

  /** The sum of the values of a finite map. */
  ghost function Sum<K>(m: map<K, nat>): nat
    decreases |m|
  {
    if m == map[] then 0
    else
      var k :| k in m;
      m[k] + Sum(m - {k})
  }

  /** Any key may be split off a sum, not just the one its definition happens to pick. */
  lemma {:induction false} SumSplit<K>(m: map<K, nat>, k: K)
    requires k in m
    ensures Sum(m) == m[k] + Sum(m - {k})
    decreases |m|
  {
    var j :| j in m && Sum(m) == m[j] + Sum(m - {j});
    if j != k {
      SumSplit(m - {j}, k);
      SumSplit(m - {k}, j);
      assert m - {j} - {k} == m - {k} - {j};
    }
  }

  lemma SumInsert<K>(m: map<K, nat>, k: K, v: nat)
    requires k !in m
    ensures Sum(m[k := v]) == Sum(m) + v
  {
    SumSplit(m[k := v], k);
    assert m[k := v] - {k} == m;
  }

  ghost predicate Distinct<T>(s: seq<T>) {
    forall p, q :: 0 <= p < q < |s| ==> s[p] != s[q]
  }

  function Pow2(n: nat): (r: nat)
    ensures r > 0
  {
    if n == 0 then 1 else 2 * Pow2(n - 1)
  }

  /** `s` with every occurrence of `x` taken out, the order of the rest kept. */
  function Without<T(==)>(s: seq<T>, x: T): (r: seq<T>)
    ensures forall y :: y in r ==> y in s && y != x
    ensures forall y :: y in s && y != x ==> y in r
    ensures Distinct(s) ==> Distinct(r)
    ensures x !in s ==> r == s
  {
    if s == [] then []
    else if s[0] == x then Without(s[1..], x)
    else
      var rest := Without(s[1..], x);
      assert Distinct(s) ==> Distinct(s[1..]) && s[0] !in s[1..];
      [s[0]] + rest
  }

  lemma {:induction false} WithoutMiddle<T>(pre: seq<T>, x: T, post: seq<T>)
    requires Distinct(pre + [x] + post)
    ensures Without(pre + [x] + post, x) == pre + post
  {
    var s := pre + [x] + post;
    assert s[|pre|] == x;
    if pre == [] {
      assert s[1..] == post;
      assert forall k :: 0 <= k < |post| ==> s[k + 1] == post[k];
      assert pre + post == post;
    } else {
      var rest := pre[1..] + [x] + post;
      assert s[1..] == rest;
      assert Distinct(rest) by {
        assert forall k :: 0 <= k < |rest| ==> rest[k] == s[k + 1];
      }
      WithoutMiddle(pre[1..], x, post);
      assert pre + post == [pre[0]] + (pre[1..] + post);
    }
  }

  /** The element that follows `x` in a list: where an iterator standing on `x` goes next. */
  function NextIn<T(==)>(s: seq<T>, x: T): Option<T> {
    if |s| < 2 then None else if s[0] == x then Some(s[1]) else NextIn(s[1..], x)
  }

  function Front<T>(s: seq<T>): Option<T> {
    if s == [] then None else Some(s[0])
  }

  lemma {:induction false} NextInMiddle<T>(pre: seq<T>, x: T, post: seq<T>)
    requires Distinct(pre + [x] + post)
    ensures NextIn(pre + [x] + post, x) == Front(post)
  {
    var s := pre + [x] + post;
    assert s[|pre|] == x;
    if pre == [] {
      assert s == [x] + post;
    } else {
      assert s[1..] == pre[1..] + [x] + post;
      assert Distinct(s[1..]) by { assert forall k :: 0 <= k < |s| - 1 ==> s[1..][k] == s[k + 1]; }
      NextInMiddle(pre[1..], x, post);
    }
  }
}
