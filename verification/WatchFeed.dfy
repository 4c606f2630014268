/**
 What the cache manager posts to a watch and what the watch's client gets: the manager's events are the watch's
 notifications, whatever checks, waits and losses come in between.
 */
module WatchFeed {
  import opened Basics
  import opened CacheState
  import opened WatchDelivery
  import W = Watch

  /** The types of notification as the protocol numbers them. */
  function Code(n: NotifyType): (c: nat)
    ensures 1 <= c <= 5
  {
    match n
    case BaseInfoUpdated => 1
    case DataUpdated => 2
    case Deleted => 3
    case Expired => 4
    case Flushed => 5
  }

  function NoteOf(e: Event): Note {
    (e.cacheId, Code(e.notice))
  }

  function Notes(posted: seq<Event>): (r: seq<Note>)
    ensures |r| == |posted| && forall i :: 0 <= i < |r| ==> r[i] == NoteOf(posted[i])
  {
    seq(|posted|, i requires 0 <= i < |posted| => NoteOf(posted[i]))
  }

  lemma NoteNamesEvent(e: Event, f: Event)
    ensures NoteOf(e) == NoteOf(f) <==> e == f
  {
  }

  /** The notifications among the actions of a run, in order. */
  function Notified(run: seq<Action>): seq<Note> {
    if run == [] then []
    else NoteIn(run[0]) + Notified(run[1..])
  }

  function NoteIn(a: Action): seq<Note> {
    if a.Notification? then [(a.id, a.notice)] else []
  }

  lemma StepNotes(s: System, a: Action)
    requires W.Consistent(s.watch, s.live)
    ensures Step(s, a).history == s.history + NoteIn(a)
  {
    hide W.CheckAndSet, W.CheckAndClear, Apply;
    assert s.history + [] == s.history;
  }

  lemma {:induction false} HistoryGrows(s: System, run: seq<Action>, t: System)
    requires Reaches(s, run, t)
    ensures t.history == s.history + Notified(run)
    decreases |run|
  {
    hide Step, Enabled, W.Consistent;
    if run == [] {
      assert s.history + [] == s.history;
    } else {
      StepNotes(s, run[0]);
      HistoryGrows(Step(s, run[0]), run[1..], t);
      assert s.history + NoteIn(run[0]) + Notified(run[1..]) == s.history + (NoteIn(run[0]) + Notified(run[1..]));
    }
  }

  /**
   When the events posted to a watch are the notifications it gets, its client has, at any time, the first of them,
   each once and in order; what it lacks the watch still holds.
   */
  lemma PostedIsDelivered(live: set<W.SinkId>, run: seq<Action>, s: System, posted: seq<Event>)
    requires Reaches(Initial(live), run, s) && Notified(run) == Notes(posted)
    ensures |s.client.log| <= |posted| && s.client.log == Notes(posted[..|s.client.log|])
    ensures |posted| <= |s.client.log| + |s.watch.waitIds| + |s.watch.ids|
  {
    HistoryGrows(Initial(live), run, s);
    assert [] + Notified(run) == Notified(run);
    DeliveredExactlyOnce(live, run, s);
  }

  /** And two rounds without loss bring it all of them. */
  lemma PostedCatchesUp(live: set<W.SinkId>, run: seq<Action>, s: System, posted: seq<Event>, sp: Option<W.SinkId>)
    requires Reaches(Initial(live), run, s) && Notified(run) == Notes(posted) && |s.batches| + 1 < W.SEQUENCE_MAX
    ensures W.Consistent(s.watch, s.live) && W.Consistent(Round(s, sp).watch, Round(s, sp).live)
    ensures Round(Round(s, sp), sp).client.log == Notes(posted)
  {
    HistoryGrows(Initial(live), run, s);
    assert [] + Notified(run) == Notified(run);
    TwoRoundsCatchUp(live, run, s, sp);
  }
}
