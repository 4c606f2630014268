/**
 A watch and its client over a channel that may lose, repeat and reorder messages in both directions. The client
 applies each nonempty numbered batch once and acknowledges only numbers it has applied.
 */
module WatchDelivery {
  import opened Basics
  import opened Watch

  /** A notification: cache id and type. */
  type Note = (nat, nat)

  datatype Reply = Reply(sequence: nat, ids: seq<nat>, types: seq<nat>)

  datatype Client = Client(applied: seq<nat>, log: seq<Note>)

  /**
   The whole system. `history` holds every notification so far; `batches` what each number stood for when it was
   first handed out; `sent` every reply that may still arrive, any number of times.
   */
  datatype System = System(
    watch: State, live: set<SinkId>, history: seq<Note>, batches: seq<seq<Note>>, sent: set<Reply>, client: Client)

  datatype Action =
    | Notification(id: nat, notice: nat)
    | Check(ack: nat, sp: Option<SinkId>)             // a check request arrives, perhaps late or again
    | EndOfWait(sp: Option<SinkId>, garbage: nat)     // a waiting connection's timer ends
    | Delivery(reply: Reply)                          // a reply reaches the client
    | Mortality(live: set<SinkId>)                    // sinks come and go

  function Zip(ids: seq<nat>, types: seq<nat>): (r: seq<Note>)
    requires |ids| == |types|
    ensures |r| == |ids| && forall i :: 0 <= i < |r| ==> r[i] == (ids[i], types[i])
  {
    seq(|ids|, i requires 0 <= i < |ids| => (ids[i], types[i]))
  }

  function Flatten(bs: seq<seq<Note>>): seq<Note> {
    if bs == [] then [] else Flatten(bs[..|bs| - 1]) + bs[|bs| - 1]
  }

  function Apply(c: Client, r: Reply): Client {
    if r.ids == [] || |r.ids| != |r.types| || r.sequence in c.applied then c
    else Client(c.applied + [r.sequence], c.log + Zip(r.ids, r.types))
  }

  /** Which actions may happen: acknowledgements are of applied batches (or 0), and replies were sent. */
  predicate Enabled(s: System, a: Action) {
    match a
    case Check(ack, _) => (ack == 0 || ack in s.client.applied) && |s.batches| < SEQUENCE_MAX
    case EndOfWait(_, _) => |s.batches| < SEQUENCE_MAX
    case Delivery(r) => r in s.sent
    case Mortality(live) => Lock(s.watch.sink, live).Some? ==> Lock(s.watch.sink, s.live).Some?
    case Notification(_, _) => true
  }

  /** The answer is sent; if it carries a number never used before, that number now stands for its contents. */
  function Answered(s: System, a: Answer): System
    requires |a.ids| == |a.types|
  {
    s.(watch := a.state,
       sent := s.sent + {Reply(a.sequence, a.ids, a.types)},
       batches := if a.state.sequence != s.watch.sequence then s.batches + [Zip(a.ids, a.types)] else s.batches)
  }

  function Step(s: System, a: Action): System
    requires Consistent(s.watch, s.live)
  {
    match a
    case Notification(id, notice) =>
      s.(watch := Notified(s.watch, id, notice, s.live).state, history := s.history + [(id, notice)])
    case Check(ack, sp) => Answered(s, CheckAndSet(s.watch, sp, ack, s.live))
    case EndOfWait(sp, garbage) => Answered(s, CheckAndClear(s.watch, sp, s.live, garbage))
    case Delivery(r) => s.(client := Apply(s.client, r))
    case Mortality(live) => s.(live := live)
  }

  /** The queues hold what has not been acknowledged, and the numbers are those of the batches. */
  ghost predicate QueuesOk(s: System) {
    && Consistent(s.watch, s.live)
    && s.watch.sequence == |s.batches| <= SEQUENCE_MAX
    && (forall n :: 0 <= n < |s.batches| ==> s.batches[n] != [])
    && (s.watch.waitIds != [] ==> s.batches != [] && Zip(s.watch.waitIds, s.watch.waitTypes) == s.batches[|s.batches| - 1])
    && s.history == Flatten(s.batches) + Zip(s.watch.ids, s.watch.types)
  }

  /** One number always carries the same batch. */
  ghost predicate SentOk(s: System) {
    forall r :: r in s.sent && r.ids != [] && |r.ids| == |r.types| ==>
      1 <= r.sequence <= |s.batches| && Zip(r.ids, r.types) == s.batches[r.sequence - 1]
  }

  /** How many batches the client has; it lacks the last one at most, and then the watch still keeps it. */
  ghost predicate ClientOk(s: System) {
    var k := |s.client.applied|;
    && (forall i :: 0 <= i < k ==> s.client.applied[i] == i + 1)
    && (k == |s.batches| || (k + 1 == |s.batches| && s.watch.waitIds != []))
    && s.client.log == Flatten(s.batches[..k])
  }

  ghost predicate Inv(s: System) {
    QueuesOk(s) && SentOk(s) && ClientOk(s)
  }

  lemma FlattenAppend(bs: seq<seq<Note>>, b: seq<Note>)
    ensures Flatten(bs + [b]) == Flatten(bs) + b
  {
    assert (bs + [b])[..|bs + [b]| - 1] == bs;
  }

  lemma {:induction false} FlattenPrefix(bs: seq<seq<Note>>, k: nat)
    requires k <= |bs|
    ensures Flatten(bs[..k]) <= Flatten(bs)
    decreases |bs|
  {
    if k < |bs| {
      FlattenPrefix(bs[..|bs| - 1], k);
      assert bs[..|bs| - 1][..k] == bs[..k];
    } else {
      assert bs[..k] == bs;
    }
  }

  lemma NotificationKeeps(s: System, id: nat, notice: nat)
    requires Inv(s)
    ensures Inv(Step(s, Notification(id, notice)))
  {
    var w := s.watch;
    assert Zip(w.ids + [id], w.types + [notice]) == Zip(w.ids, w.types) + [(id, notice)];
  }

  /** Handing out the queue as a new batch, when the last one is no longer needed. */
  lemma EmitKeeps(s: System, a: Answer)
    requires Inv(s) && |s.batches| < SEQUENCE_MAX && |s.client.applied| == |s.batches|
    requires s.watch.ids != [] && a.ids == s.watch.ids && a.types == s.watch.types
    requires a.state.sequence == a.sequence == s.watch.sequence + 1
    requires a.state.waitIds == a.ids && a.state.waitTypes == a.types && a.state.ids == a.state.types == []
    requires Consistent(a.state, s.live)
    ensures Inv(Answered(s, a))
  {
    var t := Answered(s, a);
    FlattenAppend(s.batches, Zip(a.ids, a.types));
    assert t.batches[..|s.batches|] == s.batches == s.batches[..|s.batches|];
    assert Zip(t.watch.ids, t.watch.types) == [];
  }

  /** An answer that uses no new number, resends the last batch or nothing, and forgets it only if the client has it. */
  lemma QuietKeeps(s: System, a: Answer)
    requires Inv(s) && |a.ids| == |a.types|
    requires a.state.sequence == s.watch.sequence && a.state.ids == s.watch.ids && a.state.types == s.watch.types
    requires (a.state.waitIds == s.watch.waitIds && a.state.waitTypes == s.watch.waitTypes)
          || (a.state.waitIds == a.state.waitTypes == [] && |s.client.applied| == |s.batches|)
    requires a.ids == [] || (a.sequence == s.watch.sequence && a.ids == s.watch.waitIds && a.types == s.watch.waitTypes)
    requires Consistent(a.state, s.live)
    ensures Inv(Answered(s, a))
  {
  }

  /** An acknowledgement of the current number means that the client has every batch. */
  lemma AckMeansApplied(s: System, ack: nat)
    requires Inv(s) && (ack == 0 || ack in s.client.applied) && ack == s.watch.sequence
    ensures s.watch.waitIds != [] ==> |s.client.applied| == |s.batches|
  {
    if s.watch.waitIds != [] {
      var i :| 0 <= i < |s.client.applied| && s.client.applied[i] == ack;
    }
  }

  lemma CheckKeeps(s: System, ack: nat, sp: Option<SinkId>)
    requires Inv(s) && Enabled(s, Check(ack, sp))
    ensures Inv(Step(s, Check(ack, sp)))
  {
    var w := s.watch;
    var a := CheckAndSet(w, sp, ack, s.live);
    ChecksKeepConsistent(w, sp, ack, 0, 0, s.live, 0);
    if w.waitIds != [] && ack == w.sequence { AckMeansApplied(s, ack); }
    if (w.waitIds == [] || ack == w.sequence) && w.ids != [] {
      EmitKeeps(s, a);
    } else {
      QuietKeeps(s, a);
    }
  }

  lemma EndOfWaitKeeps(s: System, sp: Option<SinkId>, garbage: nat)
    requires Inv(s) && Enabled(s, EndOfWait(sp, garbage))
    ensures Inv(Step(s, EndOfWait(sp, garbage)))
  {
    var a := CheckAndClear(s.watch, sp, s.live, garbage);
    ChecksKeepConsistent(s.watch, sp, 0, 0, 0, s.live, garbage);
    if a.ids != [] { EmitKeeps(s, a); } else { QuietKeeps(s, a); }
  }

  lemma DeliveryKeeps(s: System, r: Reply)
    requires Inv(s) && r in s.sent
    ensures Inv(Step(s, Delivery(r)))
  {
    var c, k := s.client, |s.client.applied|;
    assert 1 <= r.sequence <= k ==> c.applied[r.sequence - 1] == r.sequence;
    if Apply(c, r) != c {
      FlattenAppend(s.batches[..k], s.batches[k]);
      assert s.batches[..k] + [s.batches[k]] == s.batches[..k + 1];
    }
  }

  /** Every action keeps the invariant. */
  lemma StepKeeps(s: System, a: Action)
    requires Inv(s) && Enabled(s, a)
    ensures Inv(Step(s, a))
  {
    match a
    case Notification(id, notice) => NotificationKeeps(s, id, notice);
    case Check(ack, sp) => CheckKeeps(s, ack, sp);
    case EndOfWait(sp, garbage) => EndOfWaitKeeps(s, sp, garbage);
    case Delivery(r) => DeliveryKeeps(s, r);
    case Mortality(live) =>
  }

  function Initial(live: set<SinkId>): System {
    System(State(0, [], [], [], [], None), live, [], [], {}, Client([], []))
  }

  /** `t` is reached from `s` by the actions of `run`. */
  ghost predicate Reaches(s: System, run: seq<Action>, t: System)
    decreases |run|
  {
    if run == [] then s == t
    else
      && Consistent(s.watch, s.live) && Enabled(s, run[0])
      && Reaches(Step(s, run[0]), run[1..], t)
  }

  lemma {:induction false} RunKeeps(s: System, run: seq<Action>, t: System)
    requires Inv(s) && Reaches(s, run, t)
    ensures Inv(t)
    decreases |run|
  {
    if run != [] {
      StepKeeps(s, run[0]);
      RunKeeps(Step(s, run[0]), run[1..], t);
    }
  }

  /**
   Exactly once and in order: after any run the client's log is a prefix of the history, and what it lacks is what
   the watch still holds, either in the batch it would send again or in its queue.
   */
  lemma DeliveredExactlyOnce(live: set<SinkId>, run: seq<Action>, s: System)
    requires Reaches(Initial(live), run, s)
    ensures s.client.log <= s.history
    ensures |s.watch.ids| == |s.watch.types| && |s.watch.waitIds| == |s.watch.waitTypes|
    ensures var queued := Zip(s.watch.ids, s.watch.types);
            var waiting := Zip(s.watch.waitIds, s.watch.waitTypes);
            s.history == s.client.log + queued || s.history == s.client.log + waiting + queued
  {
    assert Inv(Initial(live)) by { assert Zip([], []) == []; }
    RunKeeps(Initial(live), run, s);
    var k, n := |s.client.applied|, |s.batches|;
    FlattenPrefix(s.batches, k);
    if k == n {
      assert s.batches[..k] == s.batches;
    } else {
      assert s.batches[..k] == s.batches[..n - 1];
      assert Flatten(s.batches) == Flatten(s.batches[..n - 1]) + s.batches[n - 1];
    }
  }

  /** One number, one batch: two replies that carry notifications under the same number carry the same ones. */
  lemma NumberNamesBatch(live: set<SinkId>, run: seq<Action>, s: System, q: Reply, r: Reply)
    requires Reaches(Initial(live), run, s) && q in s.sent && r in s.sent && q.sequence == r.sequence
    requires q.ids != [] && r.ids != [] && |q.ids| == |q.types| && |r.ids| == |r.types|
    ensures q == r
  {
    assert Inv(Initial(live)) by { assert Zip([], []) == []; }
    RunKeeps(Initial(live), run, s);
    var z := Zip(q.ids, q.types);
    assert z == Zip(r.ids, r.types);
    assert q.ids == r.ids by { assert forall i :: 0 <= i < |z| ==> z[i].0 == q.ids[i] && z[i].0 == r.ids[i]; }
    assert q.types == r.types by { assert forall i :: 0 <= i < |z| ==> z[i].1 == q.types[i] && z[i].1 == r.types[i]; }
  }

  /** The last number the client has applied, 0 if none: what it acknowledges. */
  function LastApplied(c: Client): nat {
    if c.applied == [] then 0 else c.applied[|c.applied| - 1]
  }

  /** One round without loss: a check with the client's last number, and the reply. */
  function Round(s: System, sp: Option<SinkId>): System
    requires Consistent(s.watch, s.live)
  {
    var a := CheckAndSet(s.watch, sp, LastApplied(s.client), s.live);
    var t := Step(s, Check(LastApplied(s.client), sp));
    t.(client := Apply(t.client, Reply(a.sequence, a.ids, a.types)))
  }

  /** What a check with the client's own last number brings: a batch the client lacks, or nothing if it has all. */
  lemma CheckBrings(s: System, sp: Option<SinkId>)
    requires Inv(s)
    ensures var a := CheckAndSet(s.watch, sp, LastApplied(s.client), s.live);
            if |s.client.applied| < |s.batches| then a == Answer(s.watch, |s.batches|, s.watch.waitIds, s.watch.waitTypes, None)
            else if s.watch.ids != [] then
              a.ids == s.watch.ids && a.types == s.watch.types && a.state.ids == [] && a.state.sequence == a.sequence
              && a.sequence == NextSequence(|s.batches|)
            else a.ids == [] && a.state.ids == [] && a.state.sequence == |s.batches|
  {
    hide SentOk, Flatten;
    assert s.client.applied != [] ==> LastApplied(s.client) == |s.client.applied|;
  }

  lemma RoundKeeps(s: System, sp: Option<SinkId>)
    requires Inv(s) && |s.batches| < SEQUENCE_MAX
    ensures Inv(Round(s, sp)) && Round(s, sp).history == s.history
    ensures |Round(s, sp).client.applied| == |Round(s, sp).batches| <= |s.batches| + 1
    ensures Round(s, sp).watch.ids == if |s.client.applied| == |s.batches| then [] else s.watch.ids
  {
    hide SentOk, Flatten, CheckAndSet;
    var ack := LastApplied(s.client);
    assert ack == 0 || ack in s.client.applied;
    var a := CheckAndSet(s.watch, sp, ack, s.live);
    CheckBrings(s, sp);
    CheckKeeps(s, ack, sp);
    var t := Step(s, Check(ack, sp));
    DeliveryKeeps(t, Reply(a.sequence, a.ids, a.types));
  }

  /** From any reachable state, two rounds without loss bring the client up to date. */
  lemma TwoRoundsCatchUp(live: set<SinkId>, run: seq<Action>, s: System, sp: Option<SinkId>)
    requires Reaches(Initial(live), run, s) && |s.batches| + 1 < SEQUENCE_MAX
    ensures Consistent(s.watch, s.live) && Consistent(Round(s, sp).watch, Round(s, sp).live)
    ensures Round(Round(s, sp), sp).client.log == s.history
  {
    assert Inv(Initial(live)) by { assert Zip([], []) == []; }
    RunKeeps(Initial(live), run, s);
    hide Round, SentOk;
    RoundKeeps(s, sp);
    var t := Round(s, sp);
    RoundKeeps(t, sp);
    var u := Round(t, sp);
    assert u.batches[..|u.client.applied|] == u.batches;
    assert Zip(u.watch.ids, u.watch.types) == [];
  }
}
