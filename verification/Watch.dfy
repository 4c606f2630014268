/**
 A watch: the queue of notifications on a client's behalf, handed out in numbered batches. A batch is kept and sent
 again until the client acknowledges its number.
 */
module Watch {
  import opened Basics

  type SinkId = nat

  const SEQUENCE_MAX: nat := 0xFFFF_FFFF

  /** The watch's fields as a value. Ids and types travel in two lists of equal length. */
  datatype State = State(
    sequence: nat, ids: seq<nat>, types: seq<nat>, waitIds: seq<nat>, waitTypes: seq<nat>, sink: Option<SinkId>)

  /** What a check gives back: a batch with its number, and the sink to be woken, if any. */
  datatype Answer = Answer(state: State, sequence: nat, ids: seq<nat>, types: seq<nat>, woken: Option<SinkId>)

  /** The next batch number; 0 is skipped when the counter wraps. */
  function NextSequence(s: nat): nat {
    if s >= SEQUENCE_MAX then 1 else s + 1
  }

  /** A weak pointer that has outlived its target reads as nothing. */
  function Lock(sink: Option<SinkId>, live: set<SinkId>): Option<SinkId> {
    if sink.Some? && sink.value in live then sink else None
  }

  /** Hands out the queued notifications as a new batch. */
  function Emit(w: State): Answer {
    var n := NextSequence(w.sequence);
    Answer(w.(sequence := n, ids := w.waitIds, types := w.waitTypes, waitIds := w.ids, waitTypes := w.types),
           n, w.ids, w.types, None)
  }

  /** A check: an acknowledged batch is forgotten, an unacknowledged one sent again; with nothing to send, `sp` waits. */
  function CheckAndSet(w: State, sp: Option<SinkId>, ack: nat, live: set<SinkId>): Answer {
    if w.waitIds != [] && ack != w.sequence then
      Answer(w, w.sequence, w.waitIds, w.waitTypes, None)
    else
      var v := if w.waitIds != [] then w.(waitIds := [], waitTypes := []) else w;
      if v.ids != [] then Emit(v)
      else Answer(v.(sink := sp), 0, [], [], Lock(v.sink, live))
  }

  /** A wait's end. When nothing is handed out the number is whatever the caller's variable held. */
  function CheckAndClear(w: State, sp: Option<SinkId>, live: set<SinkId>, garbage: nat): Answer {
    if sp != Lock(w.sink, live) then Answer(w, garbage, [], [], None)
    else if w.ids != [] && w.waitIds == [] then
      var a := Emit(w);
      a.(state := a.state.(sink := None))
    else Answer(w.(sink := None), garbage, [], [], None)
  }

  /** A notification is queued, and a waiting sink is woken and let go. */
  function Notified(w: State, id: nat, notice: nat, live: set<SinkId>): Answer {
    var v := w.(ids := w.ids + [id], types := w.types + [notice]);
    var p := Lock(w.sink, live);
    Answer(if p.Some? then v.(sink := None) else v, 0, [], [], p)
  }

  /** Ids and types in step; and someone waits only while there is nothing to send. */
  ghost predicate Consistent(w: State, live: set<SinkId>) {
    && |w.ids| == |w.types| && |w.waitIds| == |w.waitTypes|
    && (Lock(w.sink, live).Some? ==> w.ids == [] && w.waitIds == [])
  }

  lemma ChecksKeepConsistent(w: State, sp: Option<SinkId>, ack: nat, id: nat, notice: nat, live: set<SinkId>, garbage: nat)
    requires Consistent(w, live)
    ensures Consistent(CheckAndSet(w, sp, ack, live).state, live)
    ensures Consistent(CheckAndClear(w, sp, live, garbage).state, live)
    ensures Consistent(Notified(w, id, notice, live).state, live)
  {
  }

  /**
   The end of a wait never delivers anything to a living waiter: had there been a notification, it would have let
   the waiter go. Woken waiters get an empty answer and must check again.
   */
  lemma EndOfWaitDeliversNothing(w: State, sp: SinkId, live: set<SinkId>, garbage: nat)
    requires Consistent(w, live) && sp in live
    ensures CheckAndClear(w, Some(sp), live, garbage).ids == []
  {
  }

  class CacheWatch {
    var expireTime: nat
    var sequence: nat
    var updatedList: seq<nat>
    var updatedTypeList: seq<nat>
    var waitUpdatedList: seq<nat>
    var waitUpdatedTypeList: seq<nat>
    var wp: Option<SinkId>

    ghost function View(): State
      reads this
    {
      State(sequence, updatedList, updatedTypeList, waitUpdatedList, waitUpdatedTypeList, wp)
    }

    constructor (expire: nat)
      ensures View() == State(0, [], [], [], [], None) && expireTime == expire
    {
      expireTime, sequence := expire, 0;
      updatedList, updatedTypeList, waitUpdatedList, waitUpdatedTypeList, wp := [], [], [], [], None;
    }

    /** Appends both lists of a batch to the caller's, element by element. */
    static method CopyOut(ids: seq<nat>, types: seq<nat>) returns (outIds: seq<nat>, outTypes: seq<nat>)
      requires |ids| == |types|
      ensures outIds == ids && outTypes == types
    {
      outIds, outTypes := [], [];
      for i := 0 to |ids|
        invariant outIds == ids[..i] && outTypes == types[..i]
      {
        outIds := outIds + [ids[i]];
        outTypes := outTypes + [types[i]];
      }
    }

    method EmitBatch() returns (seqNo: nat, outIds: seq<nat>, outTypes: seq<nat>)
      requires |updatedList| == |updatedTypeList|
      modifies this`sequence, this`updatedList, this`updatedTypeList, this`waitUpdatedList, this`waitUpdatedTypeList
      ensures Answer(View(), seqNo, outIds, outTypes, None) == Emit(old(View()))
    {
      outIds, outTypes := CopyOut(updatedList, updatedTypeList);
      updatedList, waitUpdatedList := waitUpdatedList, updatedList;
      updatedTypeList, waitUpdatedTypeList := waitUpdatedTypeList, updatedTypeList;
      sequence := NextSequence(sequence);
      seqNo := sequence;
    }

    method CheckAndSetCallback(sp: Option<SinkId>, ack: nat, expire: nat, live: set<SinkId>)
      returns (seqNo: nat, outIds: seq<nat>, outTypes: seq<nat>, woken: Option<SinkId>)
      requires Consistent(View(), live)
      modifies this
      ensures Answer(View(), seqNo, outIds, outTypes, woken) == CheckAndSet(old(View()), sp, ack, live)
      ensures Consistent(View(), live) && expireTime == expire
    {
      expireTime, woken := expire, None;
      if |waitUpdatedList| != 0 {
        if ack == sequence {
          waitUpdatedList, waitUpdatedTypeList := [], [];
        } else {
          outIds, outTypes := CopyOut(waitUpdatedList, waitUpdatedTypeList);
          seqNo := sequence;
          return;
        }
      }
      if |updatedList| > 0 {
        seqNo, outIds, outTypes := EmitBatch();
      } else {
        woken := Lock(wp, live);
        wp := sp;
        seqNo, outIds, outTypes := 0, [], [];
      }
    }

    method CheckAndClearCallback(sp: Option<SinkId>, live: set<SinkId>, garbage: nat)
      returns (seqNo: nat, outIds: seq<nat>, outTypes: seq<nat>)
      requires Consistent(View(), live)
      modifies this`sequence, this`updatedList, this`updatedTypeList, this`waitUpdatedList, this`waitUpdatedTypeList, this`wp
      ensures Answer(View(), seqNo, outIds, outTypes, None) == CheckAndClear(old(View()), sp, live, garbage)
      ensures Consistent(View(), live)
    {
      seqNo, outIds, outTypes := garbage, [], [];
      if sp == Lock(wp, live) {
        if |updatedList| > 0 && |waitUpdatedList| == 0 {
          seqNo, outIds, outTypes := EmitBatch();
        }
        wp := None;
      }
    }

    method NotifyWatch(id: nat, notice: nat, live: set<SinkId>) returns (woken: Option<SinkId>)
      requires Consistent(View(), live)
      modifies this`updatedList, this`updatedTypeList, this`wp
      ensures Answer(View(), 0, [], [], woken) == Notified(old(View()), id, notice, live)
      ensures Consistent(View(), live)
    {
      updatedList := updatedList + [id];
      updatedTypeList := updatedTypeList + [notice];
      woken := Lock(wp, live);
      if woken.Some? { wp := None; }
    }
  }
}
