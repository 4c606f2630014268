/**
 The handshake between connections that wait on a watch and those that wake them. A connection clears its flag,
 registers with the watch and then arms its timer; a notification, or another connection's registration, may fall
 between any two of these steps.
 */
module WakeUp {
  import opened Basics
  import opened Watch

  datatype Phase = Idle | Cleared | Registered | Waiting

  datatype Timer = Off | Armed | Cancelled

  /** A connection; `woken` records whether it has been woken since it registered. */
  datatype Peer = Peer(phase: Phase, flag: bool, timer: Timer, woken: bool)

  /** The watch, while it has not lapsed, and the connections. */
  datatype System = System(watch: Option<State>, peers: map<SinkId, Peer>)

  datatype Action =
    | Begin(p: SinkId)                     // timer_flag_ = false
    | Register(p: SinkId, ack: nat)        // check_watch_and_set_callback, under the cache lock
    | Arm(p: SinkId)                       // arm the timer and look at the flag, under the timer lock
    | Notify(id: nat, notice: nat)         // an item changes
    | TimerEnds(p: SinkId, garbage: nat)   // handle_timer, after expiry or cancellation
    | Dies(p: SinkId)                      // the connection is destroyed
    | Lapses                               // the watch was not checked in time and is dropped

  /** `on_cache_watch_notify`: the first of the two parties to come sets the flag, the second cancels the timer. */
  function OnNotify(q: Peer): Peer {
    if q.flag then q.(timer := if q.timer == Armed then Cancelled else q.timer, woken := true)
    else q.(flag := true, woken := true)
  }

  function Wake(peers: map<SinkId, Peer>, who: Option<SinkId>): map<SinkId, Peer> {
    if who.Some? && who.value in peers then peers[who.value := OnNotify(peers[who.value])] else peers
  }

  /** The order of a connection's own steps. */
  predicate Enabled(s: System, a: Action) {
    match a
    case Begin(p) => p in s.peers && s.peers[p].phase == Idle
    case Register(p, _) => p in s.peers && s.peers[p].phase == Cleared
    case Arm(p) => p in s.peers && s.peers[p].phase == Registered
    case TimerEnds(p, _) => p in s.peers && s.peers[p].phase == Waiting
    case Dies(p) => p in s.peers
    case Notify(_, _) => s.watch.Some?
    case Lapses => true
  }

  function Step(s: System, a: Action): System
    requires Enabled(s, a)
  {
    match a
    case Begin(p) => s.(peers := s.peers[p := s.peers[p].(phase := Cleared, flag := false)])
    case Register(p, ack) =>
      if s.watch.None? then
        s.(peers := s.peers[p := s.peers[p].(phase := Idle)])         // answered with an error
      else
        var r := CheckAndSet(s.watch.value, Some(p), ack, s.peers.Keys);
        if r.ids != [] then
          System(Some(r.state), s.peers[p := s.peers[p].(phase := Idle)])     // answered at once
        else
          var peers := Wake(s.peers, r.woken);
          System(Some(r.state), peers[p := peers[p].(phase := Registered, woken := false)])
    case Arm(p) =>
      var q := s.peers[p];
      s.(peers := s.peers[p := if q.flag then q.(phase := Waiting, timer := Cancelled)
                               else q.(phase := Waiting, timer := Armed, flag := true)])
    case Notify(id, notice) =>
      var r := Notified(s.watch.value, id, notice, s.peers.Keys);
      System(Some(r.state), Wake(s.peers, r.woken))
    case TimerEnds(p, garbage) =>
      System(if s.watch.None? then None else Some(CheckAndClear(s.watch.value, Some(p), s.peers.Keys, garbage).state),
             s.peers[p := s.peers[p].(phase := Idle, timer := Off)])
    case Dies(p) => s.(peers := s.peers - {p})
    case Lapses => s.(watch := None)
  }

  /** Where a connection stands, given whether the watch still has it registered; a lapsed watch has forgotten everyone. */
  ghost predicate PeerOk(q: Peer, lapsed: bool, registered: bool) {
    && (match q.phase
        case Idle => true
        case Cleared => !q.flag
        case Registered => q.flag == q.woken
        case Waiting => q.flag && q.timer == if q.woken then Cancelled else Armed)
    && (!lapsed ==> (registered <==> (q.phase == Registered || q.phase == Waiting) && !q.woken))
  }

  ghost predicate Inv(s: System) {
    && (s.watch.Some? ==> Consistent(s.watch.value, s.peers.Keys))
    && forall p :: p in s.peers ==> PeerOk(s.peers[p], s.watch.None?, s.watch.Some? && s.watch.value.sink == Some(p))
  }

  lemma RegisterKeeps(s: System, p: SinkId, ack: nat)
    requires Inv(s) && Enabled(s, Register(p, ack))
    ensures Inv(Step(s, Register(p, ack)))
  {
    if s.watch.Some? { ChecksKeepConsistent(s.watch.value, Some(p), ack, 0, 0, s.peers.Keys, 0); }
  }

  lemma NotifyKeeps(s: System, id: nat, notice: nat)
    requires Inv(s) && s.watch.Some?
    ensures Inv(Step(s, Notify(id, notice)))
  {
    ChecksKeepConsistent(s.watch.value, None, 0, id, notice, s.peers.Keys, 0);
  }

  lemma StepKeeps(s: System, a: Action)
    requires Inv(s) && Enabled(s, a)
    ensures Inv(Step(s, a))
  {
    match a
    case Register(p, ack) => RegisterKeeps(s, p, ack);
    case Notify(id, notice) => NotifyKeeps(s, id, notice);
    case TimerEnds(p, garbage) => if s.watch.Some? { ChecksKeepConsistent(s.watch.value, Some(p), 0, 0, 0, s.peers.Keys, garbage); }
    case _ =>
  }

  /** `t` is reached from `s` by the actions of `run`, in whatever way the connections' steps interleave. */
  ghost predicate Reaches(s: System, run: seq<Action>, t: System)
    decreases |run|
  {
    if run == [] then s == t else Enabled(s, run[0]) && Reaches(Step(s, run[0]), run[1..], t)
  }

  lemma {:induction false} RunKeeps(s: System, run: seq<Action>, t: System)
    requires Inv(s) && Reaches(s, run, t)
    ensures Inv(t)
    decreases |run|
  {
    if run != [] {
      StepKeeps(s, run[0]);
      RunKeeps(Step(s, run[0]), run[1..], t);
    }
  }

  function Initial(ids: set<SinkId>): System {
    System(Some(State(0, [], [], [], [], None)), map p | p in ids :: Peer(Idle, false, Off, false))
  }

  /**
   No wake-up is lost: in every interleaving, a waiting connection that has been woken has its timer cancelled,
   whichever side came first; one that has not has its timer running, and unless the watch has lapsed it is still
   registered and has missed nothing.
   */
  lemma NoLostWakeUp(ids: set<SinkId>, run: seq<Action>, s: System, p: SinkId)
    requires Reaches(Initial(ids), run, s) && p in s.peers && s.peers[p].phase == Waiting
    ensures s.peers[p].woken ==> s.peers[p].timer == Cancelled
    ensures !s.peers[p].woken ==>
              && s.peers[p].timer == Armed
              && (s.watch.Some? ==> s.watch.value.sink == Some(p) && s.watch.value.ids == [] && s.watch.value.waitIds == [])
  {
    RunKeeps(Initial(ids), run, s);
  }

  /** From a waiting, unwoken connection, one notification cancels its timer. */
  lemma NotificationCancels(ids: set<SinkId>, run: seq<Action>, s: System, p: SinkId, id: nat, notice: nat)
    requires Reaches(Initial(ids), run, s) && p in s.peers && s.peers[p].phase == Waiting && s.watch.Some?
    ensures !s.peers[p].woken ==> Step(s, Notify(id, notice)).peers[p].timer == Cancelled
  {
    RunKeeps(Initial(ids), run, s);
  }
}
