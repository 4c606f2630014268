/** Seconds, expiry buckets and the schedule on which the buckets are visited. */
module ExpiryWheel {
  import opened Basics

  const TIME_MAX: nat := 0xFFFF_FFFF

  /** The bucket of items that never expire. */
  const FOREVER: nat := 33

  /** The least remaining life of a bucket's items, and the pause between two visits to it. */
  function Span(bucket: nat): (s: nat)
    requires bucket < FOREVER
    ensures s >= 1
  {
    if bucket < 32 then Pow2(bucket) else TIME_MAX
  }

  /** An instant `expiration` seconds ahead; 0 (never) when none is asked for or the clock cannot hold it. */
  function Realtime(now: nat, expiration: nat): (t: nat)
    ensures t == 0 || (now < t == now + expiration <= TIME_MAX)
    ensures t == 0 <==> expiration == 0 || now + expiration > TIME_MAX
  {
    if expiration == 0 || now + expiration > TIME_MAX then 0 else now + expiration
  }

  /** `b` is the bucket in which an item expiring at `t` belongs when filed at `now`. */
  predicate IsBucket(now: nat, t: nat, b: nat) {
    if t == 0 then b == FOREVER
    else if t <= now then b == 0
    else b < FOREVER && Span(b) <= t - now && (b + 1 < FOREVER ==> t - now < Span(b + 1))
  }

  method GetExpirationId(now: nat, t: nat) returns (b: nat)
    ensures b <= FOREVER && IsBucket(now, t, b)
  {
    if t == 0 { return FOREVER; }
    if t > now {
      var expiration := t - now;
      var i := 1;
      while i < 33
        invariant 1 <= i <= 33
        invariant Span(i - 1) <= expiration
      {
        if expiration < Span(i) { break; }
        i := i + 1;
      }
      return i - 1;
    }
    return 0;
  }

  /**
   The wheel's promise for one item: it sits among the immortal ones exactly if it never expires, and otherwise its
   bucket is visited no later than it expires, or by the very next sweep.
   */
  predicate Scheduled(bucket: nat, expireTime: nat, checkTime: seq<nat>, lastSweep: nat) {
    if expireTime == 0 then bucket == FOREVER
    else bucket < FOREVER && bucket < |checkTime| && (checkTime[bucket] <= expireTime || checkTime[bucket] <= lastSweep + 1)
  }

  /** No bucket's next visit lies further ahead of the last sweep than the bucket's span. */
  ghost predicate Paced(checkTime: seq<nat>, lastSweep: nat) {
    |checkTime| == FOREVER && forall b :: 0 <= b < FOREVER ==> checkTime[b] <= lastSweep + Span(b)
  }

  /** Filing an item in the bucket of the current second keeps the promise, even if its time is up. */
  lemma FilingSchedules(checkTime: seq<nat>, lastSweep: nat, now: nat, t: nat, b: nat)
    requires Paced(checkTime, lastSweep) && lastSweep <= now
    requires IsBucket(now, t, b)
    ensures Scheduled(b, t, checkTime, lastSweep)
  {
    if t != 0 { assert checkTime[b] <= lastSweep + Span(b); }
  }

  /** When a list is visited next, after a sweep at `now` that visits it if its time has come. */
  function NextVisit(checkTime: nat, now: nat, bucket: nat): nat {
    if checkTime <= now && bucket < FOREVER then Realtime(now, Span(bucket)) else checkTime
  }

  /** The sweep's rule: the bucket's turn has come and the item's time is up. */
  predicate Due(bucket: nat, expireTime: nat, checkTime: seq<nat>, now: nat)
    requires |checkTime| == FOREVER
  {
    bucket < FOREVER && checkTime[bucket] <= now && expireTime <= now
  }

  /** For a scheduled item the rule is exactly expiry, although most buckets are skipped. */
  lemma DueIsExpired(bucket: nat, expireTime: nat, checkTime: seq<nat>, lastSweep: nat, now: nat)
    requires |checkTime| == FOREVER && bucket <= FOREVER && lastSweep < now
    requires Scheduled(bucket, expireTime, checkTime, lastSweep)
    ensures Due(bucket, expireTime, checkTime, now) <==> 0 < expireTime <= now
  {
  }

  /**
   And only for a scheduled one: whenever the next sweep comes, it removes the item exactly if it has expired, if and
   only if its bucket and expiry are on schedule.
   */
  lemma ScheduledExactly(bucket: nat, expireTime: nat, checkTime: seq<nat>, lastSweep: nat)
    requires |checkTime| == FOREVER && bucket <= FOREVER
    ensures Scheduled(bucket, expireTime, checkTime, lastSweep) <==>
            forall now :: now > lastSweep ==> (Due(bucket, expireTime, checkTime, now) <==> 0 < expireTime <= now)
  {
    if !Scheduled(bucket, expireTime, checkTime, lastSweep) {
      var next := if bucket < FOREVER && checkTime[bucket] > lastSweep then checkTime[bucket] else lastSweep + 1;
      var now := if expireTime == 0 then next else if expireTime > lastSweep then expireTime else lastSweep + 1;
      assert Due(bucket, expireTime, checkTime, now) != (0 < expireTime <= now);
    }
  }

  /** Putting an expiry off, where there was one, keeps an item on schedule in its bucket. */
  lemma LaterKeepsSchedule(bucket: nat, was: nat, t: nat, checkTime: seq<nat>, lastSweep: nat)
    requires Scheduled(bucket, was, checkTime, lastSweep) && 0 < was <= t
    ensures Scheduled(bucket, t, checkTime, lastSweep)
  {
  }

  /**
   Rewriting an expiry in place breaks the promise: an item filed for second 9 and then told never to expire is
   removed by the very next sweep, and one filed for ever and then given an expiry is never swept.
   */
  lemma TouchBreaksSchedule(checkTime: seq<nat>, bucket: nat)
    requires Paced(checkTime, 8) && IsBucket(8, 9, bucket)
    ensures Due(bucket, 0, checkTime, 9)
    ensures forall t, now :: !Due(FOREVER, t, checkTime, now)
  {
    assert Span(1) == 2;
    SpansGrow(1, bucket);
    assert checkTime[0] <= 8 + Span(0);
  }

  /**
   So does linking an item after a sweep that came later than its filing: filed at second 8 to expire at 11, linked
   after a sweep at 10 that put its bucket off to 12, it outlives its second.
   */
  lemma LateLinkBreaksSchedule(checkTime: seq<nat>)
    requires Paced(checkTime, 10) && checkTime[1] == Realtime(10, Span(1))
    ensures IsBucket(8, 11, 1) && !Scheduled(1, 11, checkTime, 10) && !Due(1, 11, checkTime, 11)
  {
    assert Span(0) == 1 && Span(1) == 2 && Span(2) == 4;
  }

  lemma {:induction false} SpansGrow(a: nat, b: nat)
    requires b < FOREVER
    ensures a <= b ==> Span(a) <= Span(b)
    decreases b
  {
    if a < b {
      SpansGrow(a, b - 1);
      if b == 32 { assert Pow2(31) == 0x8000_0000 by { Pow2Of31(); } }
    }
  }

  /** The spans are those of the source's table: the powers of two up to 2^31, and the longest time of all. */
  lemma {:induction false} SpanTable()
    ensures Span(0) == 1 && Span(31) == 0x8000_0000 && Span(32) == 0xFFFF_FFFF
    ensures forall b :: 0 <= b < 31 ==> Span(b + 1) == 2 * Span(b)
  {
    Pow2Of31();
  }

  lemma Pow2Of31()
    ensures Pow2(31) == 0x8000_0000
  {
    assert Pow2(8) == 256;
    assert Pow2(16) == 65536;
    assert Pow2(24) == 0x100_0000;
  }
}
