/** One endpoint of the mesh transport: its table of peer connections, its heartbeats and its
    back-off after failed connects. Every handler and every stretch of `connect` between two awaits
    is one method; what PeerJS does (whether a close is reported at once, whether a send works) and
    the clock are parameters. */
module PeerTransport {
  import opened PeerLink
  import opened PeerHistory

  /** How `conn.send` went: done, refused because the channel is not open, or thrown. */
  datatype SendOutcome = Sent | NotOpen | Threw

  datatype Payload = Ping | Pong(ts: int) | Message

  /** The handlers attached to a connection when it was set up. */
  datatype Listener = Listener(peer: Peer, inbound: bool)

  datatype Refusal = Quarantined | NotInitialised | AlreadyThere | Go

  const RECONNECT_DELAYS: seq<int> := [5000, 15000, 30000, 60000, 120000]

  /** The back-off table, whose last delay is kept for all later attempts. */
  function BaseDelay(attempts: map<Peer, nat>, p: Peer): (delay: int)
    ensures 5_000 <= delay <= 120_000
    ensures match Get(attempts, p, 0)
            case 0 => delay == 5_000 case 1 => delay == 15_000 case 2 => delay == 30_000 case 3 => delay == 60_000
            case _ => delay == 120_000
  {
    var attempt := Get(attempts, p, 0);
    RECONNECT_DELAYS[if attempt < |RECONNECT_DELAYS| - 1 then attempt else |RECONNECT_DELAYS| - 1]
  }

  function Get<V>(m: map<Peer, V>, p: Peer, default: V): V {
    if p in m then m[p] else default
  }

  function Find<V>(m: map<Peer, V>, p: Peer): Option<V> {
    if p in m then Some(m[p]) else None
  }

  /** The tie-break of a glare, which is open while this endpoint has no id. */
  function WeAreLowest(me: Option<string>, p: Peer): Option<bool> {
    if me.Some? then Some(Less(me.value, p)) else None
  }

  /** The connection table with what hangs on it, as a value. */
  datatype Table = Table(
    connections: map<Peer, Entry>, listeners: map<nat, Listener>, openSeen: set<nat>,
    ghost callbacks: seq<Callback>, enabled: bool, pingTimers: set<Peer>)
  {
    predicate IsUp(p: Peer) {
      p in connections && connections[p].status == Connected
    }

    /** What holds of each peer: its entry has its handlers attached and is marked once connected; it
        is connected iff its last callback was `onConnect`; while heartbeats are enabled it has a ping
        timer iff it is connected, and otherwise none. */
    ghost predicate PeerOk(p: Peer) {
      && (p in connections ==>
            var Entry(c, status, inbound) := connections[p];
            c in listeners && listeners[c] == Listener(p, inbound) && (status == Connected ==> c in openSeen))
      && (LastIsConnect(callbacks, p) <==> IsUp(p))
      && (p in pingTimers <==> enabled && IsUp(p))
    }

    ghost predicate Ok() {
      NoDoubleConnect(callbacks) && forall p: Peer :: PeerOk(p)
    }

    ghost function Connecting(c: nat): Table
      requires c in listeners
    {
      var Listener(p, inbound) := listeners[c];
      this.(connections := connections[p := Entry(c, Connected, inbound)], openSeen := openSeen + {c},
            callbacks := callbacks + [OnConnect(p)], pingTimers := if enabled then pingTimers + {p} else pingTimers)
    }

    lemma ConnectingIsOk(c: nat)
      requires Ok() && c in listeners && !IsUp(listeners[c].peer)
      ensures Connecting(c).Ok()
    {
      hide LastIsConnect, NoDoubleConnect;
      var p := listeners[c].peer;
      assert PeerOk(p);
      NoDoubleConnectExtends(callbacks, OnConnect(p));
      forall q: Peer ensures Connecting(c).PeerOk(q) { assert PeerOk(q); }
    }

    ghost function Dropping(p: Peer, reports: bool): Table {
      this.(connections := connections - {p}, pingTimers := pingTimers - {p},
            callbacks := if reports then callbacks + [OnDisconnect(p)] else callbacks)
    }

    lemma DroppingIsOk(p: Peer, reports: bool)
      requires Ok() && (IsUp(p) ==> reports)
      ensures Dropping(p, reports).Ok()
    {
      hide LastIsConnect, NoDoubleConnect;
      assert PeerOk(p);
      NoDoubleConnectExtends(callbacks, OnDisconnect(p));
      forall q: Peer ensures Dropping(p, reports).PeerOk(q) { assert PeerOk(q); }
    }

    ghost function Installing(c: nat, p: Peer, inbound: bool): Table {
      this.(connections := connections[p := Entry(c, Status.Connecting, inbound)],
            listeners := listeners[c := Listener(p, inbound)])
    }

    lemma InstallingIsOk(c: nat, p: Peer, inbound: bool)
      requires Ok() && c !in listeners && !IsUp(p)
      ensures Installing(c, p, inbound).Ok()
    {
      hide LastIsConnect, NoDoubleConnect;
      forall q: Peer ensures Installing(c, p, inbound).PeerOk(q) { assert PeerOk(q); }
    }

    /** A retry delete: no callback, and the heartbeat is not touched. */
    lemma DeletingIsOk(p: Peer)
      requires Ok() && !IsUp(p)
      ensures this.(connections := connections - {p}).Ok()
    {
      hide LastIsConnect, NoDoubleConnect;
      forall q: Peer ensures this.(connections := connections - {p}).PeerOk(q) { assert PeerOk(q); }
    }

    /** The connected peers, by their last callbacks. */
    lemma PeerFacts(p: Peer)
      requires Ok()
      ensures LastIsConnect(callbacks, p) <==> IsUp(p)
      ensures p in pingTimers <==> enabled && IsUp(p)
      ensures p in connections ==> connections[p].conn in listeners && listeners[connections[p].conn].peer == p
    {
      assert PeerOk(p);
    }
  }

  /** What can happen to an endpoint: a handler, a timer, a call, or a stretch of `connect`. */
  datatype Event =
    | SetUp(c: nat, p: Peer, inbound: bool, alreadyOpen: bool, reports: bool, now: int)
    | Opened(c: nat)
    | Data(c: nat, payload: Payload, reply: SendOutcome, now: int)
    | Closed(c: nat, now: int)
    | Errored(c: nat, now: int)
    | DialTimesOut(c: nat, reports: bool, now: int)
    | BeginsConnect(p: Peer, initialised: bool, now: int)
    | Retries(p: Peer)
    | EndsConnect(p: Peer, success: bool, unavailable: bool, now: int)
    | Disconnects(p: Peer, reports: bool, now: int)
    | Sends(p: Peer, outcome: SendOutcome, now: int)
    | PingTimer(p: Peer, outcome: SendOutcome, now: int)
    | PongTimer(p: Peer, canRestart: bool, reports: bool, now: int)
    | ReconnectTimer(p: Peer)
    | ReconnectDone(p: Peer, success: bool, now: int)
    | SetsHeartbeat(enabled: bool)
    | SetsAutoReconnect(enabled: bool)
  {
    function Kind(): EventKind {
      if SetUp? then Installed
      else if Opened? || Closed? || Errored? || DialTimesOut? then Reported
      else if Data? || PingTimer? || PongTimer? || SetsHeartbeat? then Beating
      else Called
    }
  }

  datatype EventKind = Installed | Reported | Beating | Called

  class Transport {
    var myPeerId: Option<string>
    var connections: map<Peer, Entry>
    var listeners: map<nat, Listener>
    /** Connections whose `alreadyConnected` flag is set. */
    var openSeen: set<nat>
    var connectingTo: set<Peer>

    var autoReconnectEnabled: bool
    var manuallyDisconnected: set<Peer>
    var reconnectAttempts: map<Peer, nat>
    var reconnectTimers: map<Peer, nat>
    var peerConnectFailures: map<Peer, nat>
    var peerConnectQuarantineUntil: map<Peer, int>
    var peerConnectQuarantineLevel: map<Peer, nat>

    var heartbeatEnabled: bool
    var pingTimers: set<Peer>
    var pongTimeouts: set<Peer>
    var pendingPing: map<Peer, int>
    var missedPongs: map<Peer, nat>
    var lastRecoveryAt: map<Peer, int>

    ghost var callbacks: seq<Callback>
    ghost var beats: seq<Beat>
    ghost var attempts: seq<Attempt>
    ghost var armed: seq<Armed>
    /** The connections on which `close()` was called. */
    ghost var closes: seq<nat>
    /** The latest time read from the clock. */
    var clock: int

    // ----- invariants -----

    predicate IsUp(p: Peer)
      reads `connections
    {
      p in connections && connections[p].status == Connected
    }

    /** `c` is the connection in use for its peer. */
    predicate Active(c: nat)
      reads `connections, `listeners
    {
      c in listeners && listeners[c].peer in connections && connections[listeners[c].peer].conn == c
    }

    ghost function View(): Table
      reads `connections, `listeners, `openSeen, `callbacks, `heartbeatEnabled, `pingTimers
    {
      Table(connections, listeners, openSeen, callbacks, heartbeatEnabled, pingTimers)
    }

    ghost predicate PeersValid()
      reads `connections, `listeners, `openSeen, `callbacks, `heartbeatEnabled, `pingTimers, `pongTimeouts
    {
      pongTimeouts <= pingTimers && View().Ok()
    }

    ghost predicate BeatsValid()
      reads `beats, `missedPongs, `lastRecoveryAt
    {
      && WellPaced(beats)
      && (forall p: Peer :: Missed(beats, p) == Get(missedPongs, p, 0))
      && (forall p: Peer :: LastRecovery(beats, p) == Find(lastRecoveryAt, p))
    }

    /** `n` failures are stored as `n mod 2` and level `n div 2`, and the quarantine is the last window. */
    ghost predicate BackoffOf(p: Peer)
      reads `attempts, `peerConnectFailures, `peerConnectQuarantineLevel, `peerConnectQuarantineUntil, `clock
    {
      && Get(peerConnectFailures, p, 0) == Failures(attempts, p) % 2
      && Get(peerConnectQuarantineLevel, p, 0) == Failures(attempts, p) / 2
      && Get(peerConnectQuarantineUntil, p, 0) == Until(attempts, p) <= clock + QUARANTINE_MAX_MS
    }

    ghost predicate BackoffValid()
      reads `attempts, `peerConnectFailures, `peerConnectQuarantineLevel, `peerConnectQuarantineUntil, `clock
    {
      clock >= 0 && forall p: Peer :: BackoffOf(p)
    }

    ghost predicate ReconnectsValid()
      reads `armed
    {
      forall i | 0 <= i < |armed| :: InBounds(armed[i])
    }

    ghost predicate Valid()
      reads `connections, `listeners, `openSeen, `callbacks, `heartbeatEnabled, `pingTimers, `pongTimeouts,
            `beats, `missedPongs, `lastRecoveryAt, `armed, `clock,
            `attempts, `peerConnectFailures, `peerConnectQuarantineLevel, `peerConnectQuarantineUntil
    {
      PeersValid() && BeatsValid() && BackoffValid() && ReconnectsValid()
    }

    constructor (myPeerId: Option<string>)
      ensures Valid() && connections == map[] && callbacks == [] && this.myPeerId == myPeerId
      ensures heartbeatEnabled && autoReconnectEnabled && beats == [] && attempts == [] && armed == [] && closes == []
    {
      this.myPeerId := myPeerId;
      connections, listeners, openSeen, connectingTo := map[], map[], {}, {};
      autoReconnectEnabled, manuallyDisconnected := true, {};
      reconnectAttempts, reconnectTimers := map[], map[];
      peerConnectFailures, peerConnectQuarantineUntil, peerConnectQuarantineLevel := map[], map[], map[];
      heartbeatEnabled, pingTimers, pongTimeouts := true, {}, {};
      pendingPing, missedPongs, lastRecoveryAt := map[], map[], map[];
      callbacks, beats, attempts, armed, closes, clock := [], [], [], [], [], 0;
    }

    // ----- what handlers do to the timers -----

    /** The heartbeat of `p` is stopped, and no other one is touched. */
    twostate predicate HeartbeatEnds(p: Peer)
      reads `beats, `pongTimeouts, `pendingPing
    {
      && beats == old(beats) + [Ended(p)]
      && pongTimeouts == old(pongTimeouts) - {p} && pendingPing == old(pendingPing) - {p}
    }

    twostate predicate HeartbeatsKept()
      reads `beats, `pongTimeouts, `pendingPing
    {
      beats == old(beats) && pongTimeouts == old(pongTimeouts) && pendingPing == old(pendingPing)
    }

    /** A reconnect of `p` is armed, unless reconnects are off, it was disconnected by hand, or one is armed
        already. */
    twostate predicate ReconnectArmed(p: Peer)
      reads `reconnectTimers, `armed, `reconnectAttempts, `autoReconnectEnabled, `manuallyDisconnected
    {
      if autoReconnectEnabled && p !in manuallyDisconnected && p !in old(reconnectTimers) then
        && reconnectTimers == old(reconnectTimers)[p := Get(reconnectAttempts, p, 0)]
        && |armed| == |old(armed)| + 1 && old(armed) <= armed && armed[|old(armed)|].peer == p
      else ReconnectsKept()
    }

    twostate predicate ReconnectsKept()
      reads `reconnectTimers, `armed
    {
      reconnectTimers == old(reconnectTimers) && armed == old(armed)
    }

    // ----- heartbeat -----

    method StartHeartbeat(p: Peer)
      modifies `pingTimers
      ensures pingTimers == if heartbeatEnabled then old(pingTimers) + {p} else old(pingTimers)
    {
      if !heartbeatEnabled { return; }
      if p in pingTimers { return; }
      pingTimers := pingTimers + {p};
    }

    method StopHeartbeat(p: Peer)
      requires BeatsValid()
      modifies `pingTimers, `pongTimeouts, `pendingPing, `missedPongs, `lastRecoveryAt, `beats
      ensures BeatsValid() && HeartbeatEnds(p) && pingTimers == old(pingTimers) - {p}
    {
      hide Table.Ok, Missed, LastRecovery, WellPaced, BackoffOf, InBounds;
      pingTimers := pingTimers - {p};
      pongTimeouts := pongTimeouts - {p};
      pendingPing := pendingPing - {p};
      missedPongs := missedPongs - {p};
      lastRecoveryAt := lastRecoveryAt - {p};
      WellPacedExtends(beats, Ended(p));
      beats := beats + [Ended(p)];
    }

    /** Disabling stops every heartbeat; enabling starts one for every connected peer. */
    method SetHeartbeatEnabled(enabled: bool)
      requires Valid()
      modifies `heartbeatEnabled, `pingTimers, `pongTimeouts, `pendingPing, `missedPongs, `lastRecoveryAt, `beats
      ensures Valid() && heartbeatEnabled == enabled
      ensures old(beats) <= beats && (enabled ==> HeartbeatsKept())
      ensures !enabled ==> forall p | p in old(pingTimers) :: p !in pendingPing && Missed(beats, p) == 0
    {
      hide LastIsConnect, NoDoubleConnect, Missed, LastRecovery, WellPaced, Failures, Until, BackoffOf, InBounds;
      forall q: Peer ensures q in pingTimers ==> IsUp(q) { View().PeerFacts(q); }
      heartbeatEnabled := enabled;
      if !enabled {
        var todo := pingTimers;
        while todo != {}
          invariant !heartbeatEnabled && BeatsValid() && pingTimers == todo && pongTimeouts <= pingTimers
          invariant todo <= old(pingTimers) && old(beats) <= beats
          invariant forall p | p in old(pingTimers) && p !in todo :: p !in pendingPing && Missed(beats, p) == 0
          decreases todo
        {
          var p :| p in todo;
          ghost var before := beats;
          StopHeartbeat(p);
          MissedAfterEnd(before, p);
          todo := todo - {p};
        }
      } else {
        var todo := connections.Keys;
        while todo != {}
          modifies `pingTimers
          invariant todo <= connections.Keys && pongTimeouts <= pingTimers
          invariant forall q: Peer :: q in pingTimers ==> IsUp(q)
          invariant forall q: Peer :: IsUp(q) && q !in todo ==> q in pingTimers
          decreases todo
        {
          var p :| p in todo;
          if connections[p].status == Connected {
            StartHeartbeat(p);
          }
          todo := todo - {p};
        }
      }
      forall q: Peer ensures View().PeerOk(q) { assert old(View().PeerOk(q)); }
    }

    // ----- reconnects and back-off -----

    method CancelReconnect(p: Peer)
      modifies `reconnectTimers, `reconnectAttempts
      ensures reconnectTimers == old(reconnectTimers) - {p} && reconnectAttempts == old(reconnectAttempts) - {p}
    {
      reconnectTimers := reconnectTimers - {p};
      reconnectAttempts := reconnectAttempts - {p};
    }

    /** The clock does not go back. */
    method Tick(now: int)
      requires BackoffValid() && now >= clock
      modifies `clock
      ensures BackoffValid() && clock == now
    {
      hide Failures, Until;
      clock := now;
      forall q: Peer ensures BackoffOf(q) { assert old(BackoffOf(q)); }
    }

    /** Arms a timer unless reconnects are off, the peer was disconnected by hand, or one is armed. */
    method ScheduleReconnect(p: Peer, now: int)
      requires BackoffValid() && ReconnectsValid() && now >= clock
      modifies `reconnectTimers, `armed, `clock
      ensures BackoffValid() && ReconnectsValid() && clock == now
      ensures var arms := autoReconnectEnabled && p !in manuallyDisconnected && p !in old(reconnectTimers);
              && ReconnectArmed(p)
              && (arms ==> armed[|old(armed)|].at == now && armed[|old(armed)|].until == Until(attempts, p))
      ensures p in reconnectTimers && p !in old(reconnectTimers) ==>
                var t := armed[|old(armed)|];
                && t.delay >= BaseDelay(reconnectAttempts, p)
                && (t.delay == BaseDelay(reconnectAttempts, p) || now + t.delay == t.until)
    {
      hide LastIsConnect, NoDoubleConnect, Missed, LastRecovery, WellPaced, Failures, Until;
      Tick(now);
      if !autoReconnectEnabled || p in manuallyDisconnected || p in reconnectTimers { return; }
      var attempt := Get(reconnectAttempts, p, 0);
      var baseDelay := BaseDelay(reconnectAttempts, p);
      var quarantinedUntil := Get(peerConnectQuarantineUntil, p, 0);
      var quarantineDelay := if quarantinedUntil > now then quarantinedUntil - now else 0;
      var delay := if baseDelay >= quarantineDelay then baseDelay else quarantineDelay;
      reconnectTimers := reconnectTimers[p := attempt];
      assert BackoffOf(p);
      armed := armed + [Armed(p, now, delay, quarantinedUntil)];
    }

    /** The timer fires: returns whether `connect` is called now. */
    method ReconnectFires(p: Peer) returns (dials: bool)
      requires Valid() && p in reconnectTimers
      modifies `reconnectTimers, `reconnectAttempts
      ensures Valid() && reconnectTimers == old(reconnectTimers) - {p}
      ensures dials <==> p !in manuallyDisconnected && p !in connections
      ensures reconnectAttempts == if dials then old(reconnectAttempts)[p := old(reconnectTimers)[p] + 1]
                                   else old(reconnectAttempts)
    {
      hide PeersValid, BeatsValid, ReconnectsValid, BackoffOf;
      var attempt := reconnectTimers[p];
      reconnectTimers := reconnectTimers - {p};
      if p in manuallyDisconnected { return false; }
      if p in connections { return false; }
      reconnectAttempts := reconnectAttempts[p := attempt + 1];
      return true;
    }

    /** How the reconnect's `connect` ended: forget the attempts, or arm the next timer. */
    method ReconnectEnds(p: Peer, success: bool, now: int)
      requires Valid() && now >= clock
      modifies `reconnectTimers, `reconnectAttempts, `armed, `clock
      ensures Valid()
      ensures success ==> reconnectAttempts == old(reconnectAttempts) - {p} && ReconnectsKept()
      ensures !success ==> reconnectAttempts == old(reconnectAttempts) && ReconnectArmed(p)
    {
      hide PeersValid, BeatsValid, ReconnectsValid, BackoffOf;
      if success {
        reconnectAttempts := reconnectAttempts - {p};
      } else {
        ScheduleReconnect(p, now);
      }
    }

    method ClearPeerConnectFailure(p: Peer)
      requires BackoffValid()
      modifies `peerConnectFailures, `peerConnectQuarantineUntil, `peerConnectQuarantineLevel, `attempts
      ensures BackoffValid() && attempts == old(attempts) + [Cleared(p)]
    {
      hide Failures, Until;
      peerConnectFailures := peerConnectFailures - {p};
      peerConnectQuarantineUntil := peerConnectQuarantineUntil - {p};
      peerConnectQuarantineLevel := peerConnectQuarantineLevel - {p};
      attempts := attempts + [Cleared(p)];
      forall q: Peer ensures BackoffOf(q) {
        assert old(BackoffOf(q));
        FailuresExtend(old(attempts), Cleared(p), q);
      }
    }

    /** The bookkeeping of a counted failure. */
    method CountFailure(p: Peer, now: int)
      modifies `peerConnectFailures, `peerConnectQuarantineUntil, `peerConnectQuarantineLevel
      ensures var n, level := Get(old(peerConnectFailures), p, 0) + 1, Get(old(peerConnectQuarantineLevel), p, 0) + 1;
              if n < FAILURE_THRESHOLD then
                && peerConnectFailures == old(peerConnectFailures)[p := n]
                && peerConnectQuarantineLevel == old(peerConnectQuarantineLevel)
                && peerConnectQuarantineUntil == old(peerConnectQuarantineUntil)
              else
                && peerConnectFailures == old(peerConnectFailures)[p := 0]
                && peerConnectQuarantineLevel == old(peerConnectQuarantineLevel)[p := level]
                && peerConnectQuarantineUntil == old(peerConnectQuarantineUntil)[p := now + Window(level)]
    {
      hide Window;
      var failures := Get(peerConnectFailures, p, 0) + 1;
      peerConnectFailures := peerConnectFailures[p := failures];
      if failures < FAILURE_THRESHOLD { return; }
      var level := Get(peerConnectQuarantineLevel, p, 0) + 1;
      peerConnectQuarantineLevel := peerConnectQuarantineLevel[p := level];
      peerConnectFailures := peerConnectFailures[p := 0];
      peerConnectQuarantineUntil := peerConnectQuarantineUntil[p := now + Window(level)];
    }

    /** `unavailable` is what `_isPeerUnavailableError` finds; other errors are not counted. */
    method NotePeerConnectFailure(p: Peer, unavailable: bool, now: int)
      requires BackoffValid() && now >= clock
      modifies `peerConnectFailures, `peerConnectQuarantineUntil, `peerConnectQuarantineLevel, `attempts, `clock
      ensures BackoffValid() && clock == now
      ensures attempts == if unavailable then old(attempts) + [Failed(p, now)] else old(attempts)
    {
      hide Failures, Until, Window;
      Tick(now);
      if !unavailable { return; }
      CountFailure(p, now);
      attempts := attempts + [Failed(p, now)];
      assert old(BackoffOf(p));
      FailuresExtend(old(attempts), Failed(p, now), p);
      WindowsNeverShrink(Failures(old(attempts), p) / 2 + 1, Failures(old(attempts), p) / 2 + 1);
      assert BackoffOf(p);
      forall q: Peer | q != p ensures BackoffOf(q) {
        assert old(BackoffOf(q));
        FailuresExtend(old(attempts), Failed(p, now), q);
      }
    }

    // ----- connecting -----

    /** The start of `connect`, up to its first await. */
    method BeginConnect(p: Peer, initialised: bool, now: int) returns (r: Refusal)
      requires Valid() && now >= clock
      modifies `manuallyDisconnected, `connectingTo, `clock
      ensures Valid() && clock == now
      ensures r == Quarantined <==> Until(attempts, p) > now
      ensures manuallyDisconnected == if r == Quarantined
                              then old(manuallyDisconnected) else old(manuallyDisconnected) - {p}
      ensures r == NotInitialised <==> Until(attempts, p) <= now && !initialised
      ensures r == Go <==> Until(attempts, p) <= now && initialised && p !in connections && p !in old(connectingTo)
      ensures connectingTo == if r == Go then old(connectingTo) + {p} else old(connectingTo)
    {
      hide LastIsConnect, NoDoubleConnect, Missed, LastRecovery, WellPaced, Failures, Until, InBounds;
      Tick(now);
      assert BackoffOf(p);
      var quarantinedUntil := Get(peerConnectQuarantineUntil, p, 0);
      if quarantinedUntil > now { return Quarantined; }
      manuallyDisconnected := manuallyDisconnected - {p};
      if !initialised { return NotInitialised; }
      if p in connections { return AlreadyThere; }
      if p in connectingTo { return AlreadyThere; }
      connectingTo := connectingTo + {p};
      return Go;
    }

    /** After a failed attempt and a pause: stop if a connection won meanwhile, else drop the entry. */
    method RetryDelete(p: Peer) returns (stop: bool)
      requires Valid()
      modifies `connections, `connectingTo
      ensures Valid() && stop == old(IsUp(p))
      ensures connections == if stop then old(connections) else old(connections) - {p}
      ensures connectingTo == if stop then old(connectingTo) - {p} else old(connectingTo)
    {
      hide Table.Ok, BeatsValid, BackoffValid, ReconnectsValid;
      if p in connections && connections[p].status == Connected {
        connectingTo := connectingTo - {p};
        return true;
      }
      View().DeletingIsOk(p);
      connections := connections - {p};
      return false;
    }

    /** The end of `connect`: an attempt succeeded, or all of them failed. */
    method EndConnect(p: Peer, success: bool, unavailable: bool, now: int)
      requires Valid() && now >= clock
      modifies `connectingTo, `peerConnectFailures, `peerConnectQuarantineUntil, `peerConnectQuarantineLevel,
               `attempts, `clock
      ensures Valid() && connectingTo == old(connectingTo) - {p}
      ensures attempts == if success then old(attempts) + [Cleared(p)]
                          else if unavailable then old(attempts) + [Failed(p, now)] else old(attempts)
    {
      hide PeersValid, BeatsValid, ReconnectsValid, BackoffOf;
      if success {
        ClearPeerConnectFailure(p);
      } else {
        NotePeerConnectFailure(p, unavailable, now);
      }
      connectingTo := connectingTo - {p};
    }

    /** The handlers of an entry's connection are attached. */
    lemma EntryIsListed(p: Peer)
      requires Valid()
      ensures p in connections ==> connections[p].conn in listeners && listeners[connections[p].conn].peer == p
    {
      View().PeerFacts(p);
    }

    /** A connected entry is of a connection whose `open` was seen. */
    lemma UpIsSeen(p: Peer)
      requires Valid() && IsUp(p)
      ensures connections[p].conn in openSeen
    {
      assert View().PeerOk(p);
    }

    /** What `markConnected` does once it goes ahead. */
    method Connects(c: nat)
      requires Valid() && c in listeners && !IsUp(listeners[c].peer)
      modifies `connections, `openSeen, `pingTimers, `callbacks
      ensures Valid()
      ensures var p := listeners[c].peer;
              && connections == old(connections)[p := Entry(c, Connected, listeners[c].inbound)]
              && callbacks == old(callbacks) + [OnConnect(p)] && openSeen == old(openSeen) + {c}
    {
      hide Table.Ok, BeatsValid, BackoffValid, ReconnectsValid;
      var Listener(p, inbound) := listeners[c];
      View().ConnectingIsOk(c);
      openSeen := openSeen + {c};
      connections := connections[p := Entry(c, Connected, inbound)];
      StartHeartbeat(p);
      callbacks := callbacks + [OnConnect(p)];
      assert View() == old(View()).Connecting(c);
    }

    /** The `open` handler of connection `c`. */
    method MarkConnected(c: nat)
      requires Valid() && c in listeners
      modifies `connections, `openSeen, `pingTimers, `callbacks, `closes
      ensures Valid()
      ensures var p := listeners[c].peer;
              if c in old(openSeen) || old(IsUp(p)) then
                && connections == old(connections) && callbacks == old(callbacks) && openSeen == old(openSeen)
                && closes == if c in old(openSeen) then old(closes) else old(closes) + [c]
              else
                && connections == old(connections)[p := Entry(c, Connected, listeners[c].inbound)]
                && callbacks == old(callbacks) + [OnConnect(p)] && openSeen == old(openSeen) + {c}
                && closes == old(closes)
      ensures c !in old(openSeen) ==>
                var Listener(p, inbound) := listeners[c];
                Find(connections, p) == AfterOpen(Find(old(connections), p), c, inbound)
    {
      hide PeersValid, BeatsValid, BackoffValid, ReconnectsValid;
      if c in openSeen { return; }
      var p := listeners[c].peer;
      if p in connections && connections[p].conn != c && connections[p].status == Connected {
        // closing `c` runs at most its own close handler, which finds another connection in use
        closes := closes + [c];
        return;
      }
      if IsUp(p) { UpIsSeen(p); }
      Connects(c);
    }

    /** Removing the entry of `p`, with its heartbeat, and reporting it when `reports`. */
    method Drop(p: Peer, reports: bool)
      requires Valid() && (IsUp(p) ==> reports)
      modifies `connections, `callbacks, `pingTimers, `pongTimeouts, `pendingPing, `missedPongs, `lastRecoveryAt, `beats
      ensures Valid() && connections == old(connections) - {p}
      ensures callbacks == if reports then old(callbacks) + [OnDisconnect(p)] else old(callbacks)
      ensures HeartbeatEnds(p)
    {
      hide Table.Ok, BeatsValid, BackoffValid, ReconnectsValid;
      View().DroppingIsOk(p, reports);
      StopHeartbeat(p);
      connections := connections - {p};
      if reports {
        callbacks := callbacks + [OnDisconnect(p)];
      }
      assert View() == old(View()).Dropping(p, reports);
    }

    /** The `close` handler of connection `c`. It reports even a peer that never connected. */
    method OnClose(c: nat, now: int)
      requires Valid() && c in listeners && now >= clock
      modifies `connections, `callbacks, `pingTimers, `pongTimeouts, `pendingPing, `missedPongs, `lastRecoveryAt,
               `beats, `reconnectTimers, `armed, `clock
      ensures Valid()
      ensures var p := listeners[c].peer;
              if old(Active(c)) then
                && connections == old(connections) - {p}
                && callbacks == old(callbacks) + [OnDisconnect(p)]
                && HeartbeatEnds(p) && ReconnectArmed(p)
              else
                && connections == old(connections) && callbacks == old(callbacks)
                && HeartbeatsKept() && ReconnectsKept()
      ensures Find(connections, listeners[c].peer) == AfterClose(Find(old(connections), listeners[c].peer), c)
    {
      hide PeersValid, BeatsValid, ReconnectsValid, BackoffOf;
      var p := listeners[c].peer;
      if p in connections && connections[p].conn == c {
        Drop(p, true);
        ScheduleReconnect(p, now);
      }
    }

    /** The `error` handler of connection `c`. */
    method OnError(c: nat, now: int)
      requires Valid() && c in listeners && now >= clock
      modifies `connections, `callbacks, `pingTimers, `pongTimeouts, `pendingPing, `missedPongs, `lastRecoveryAt,
               `beats, `reconnectTimers, `armed, `clock
      ensures Valid()
      ensures var p := listeners[c].peer;
              if old(Active(c)) then
                && connections == old(connections) - {p}
                && callbacks == (if old(IsUp(p)) then old(callbacks) + [OnDisconnect(p)] else old(callbacks))
                && HeartbeatEnds(p) && ReconnectArmed(p)
              else
                && connections == old(connections) && callbacks == old(callbacks)
                && HeartbeatsKept() && ReconnectsKept()
      ensures Find(connections, listeners[c].peer) == AfterClose(Find(old(connections), listeners[c].peer), c)
    {
      hide PeersValid, BeatsValid, ReconnectsValid, BackoffOf;
      var p := listeners[c].peer;
      if p in connections && connections[p].conn == c {
        var wasConnected := connections[p].status == Connected;
        Drop(p, wasConnected);
        ScheduleReconnect(p, now);
      }
    }

    /** `conn.close()`; `reports` says whether PeerJS emits the close event at once. */
    method CloseConn(c: nat, reports: bool, now: int)
      requires Valid() && c in listeners && now >= clock
      modifies `connections, `callbacks, `pingTimers, `pongTimeouts, `pendingPing, `missedPongs, `lastRecoveryAt,
               `beats, `reconnectTimers, `armed, `closes, `clock
      ensures Valid() && closes == old(closes) + [c]
      ensures var p := listeners[c].peer;
              if reports && old(Active(c)) then
                && connections == old(connections) - {p}
                && callbacks == old(callbacks) + [OnDisconnect(p)]
                && HeartbeatEnds(p) && ReconnectArmed(p)
              else
                && connections == old(connections) && callbacks == old(callbacks)
                && HeartbeatsKept() && ReconnectsKept()
    {
      hide PeersValid, BeatsValid, ReconnectsValid, BackoffOf;
      closes := closes + [c];
      if reports {
        OnClose(c, now);
      }
    }

    /** Attaching the handlers of `c` and making it the entry of `p`. */
    method Install(c: nat, p: Peer, inbound: bool)
      requires Valid() && c !in listeners && !IsUp(p)
      modifies `connections, `listeners
      ensures Valid()
      ensures connections == old(connections)[p := Entry(c, Connecting, inbound)]
      ensures listeners == old(listeners)[c := Listener(p, inbound)]
    {
      hide Table.Ok, BeatsValid, BackoffValid, ReconnectsValid;
      View().InstallingIsOk(c, p, inbound);
      listeners := listeners[c := Listener(p, inbound)];
      connections := connections[p := Entry(c, Connecting, inbound)];
      assert View() == old(View()).Installing(c, p, inbound);
    }

    /** Closing what the new connection displaces and making it the entry of `p`. */
    method TakesOver(c: nat, p: Peer, inbound: bool, alreadyOpen: bool, closeReports: bool, now: int)
      requires Valid() && c !in listeners && c !in openSeen && !IsUp(p) && now >= clock
      modifies `connections, `listeners, `openSeen, `callbacks, `pingTimers, `pongTimeouts, `pendingPing, `missedPongs,
               `lastRecoveryAt, `beats, `reconnectTimers, `armed, `closes, `clock
      ensures Valid()
      ensures connections ==
                old(connections)[p := Entry(c, if alreadyOpen then Connected else Connecting, inbound)]
      ensures listeners == old(listeners)[c := Listener(p, inbound)]
      ensures openSeen == if alreadyOpen then old(openSeen) + {c} else old(openSeen)
      ensures callbacks == old(callbacks) + (if closeReports && p in old(connections) then [OnDisconnect(p)] else [])
                                          + (if alreadyOpen then [OnConnect(p)] else [])
      ensures closes == old(closes) + (if p in old(connections) then [old(connections)[p].conn] else [])
      ensures if closeReports && p in old(connections) then HeartbeatEnds(p) && ReconnectArmed(p)
              else HeartbeatsKept() && ReconnectsKept()
    {
      hide PeersValid, BeatsValid, BackoffValid, ReconnectsValid;
      EntryIsListed(p);
      if p in connections {
        CloseConn(connections[p].conn, closeReports, now);
      }
      Install(c, p, inbound);
      if alreadyOpen {
        MarkConnected(c);
      }
    }

    /** Whether a new connection to `p` is turned away in favour of the entry. */
    ghost predicate TurnsAway(p: Peer, inbound: bool)
      reads `connections, `myPeerId
    {
      Rejects(Find(connections, p), inbound, WeAreLowest(myPeerId, p))
    }

    /** That is so when the entry is connected, goes in the same direction, or was dialed by the lower id; without
        an own id a connecting entry always makes way. */
    lemma TurnsAwayIff(p: Peer, inbound: bool)
      ensures p !in connections ==> !TurnsAway(p, inbound)
      ensures p in connections && connections[p].status == Connected ==> TurnsAway(p, inbound)
      ensures p in connections && connections[p].status == Connecting ==>
                && (myPeerId.None? ==> !TurnsAway(p, inbound))
                && (myPeerId.Some? && connections[p].inbound == inbound ==> TurnsAway(p, inbound))
                && (myPeerId.Some? && myPeerId.value != p ==>
                      (TurnsAway(p, inbound) <==> !Less(Dialer(inbound, myPeerId.value, p),
                                                        Dialer(connections[p].inbound, myPeerId.value, p))))
    {
      if myPeerId.Some? && myPeerId.value != p && p in connections && connections[p].status == Connecting {
        NewcomerWinsIff(connections[p], inbound, myPeerId.value, p);
      }
    }

    /** `_setupConnection` for the new connection `c`: it is turned away, or takes the place of the entry. */
    method SetupConnection(c: nat, p: Peer, inbound: bool, alreadyOpen: bool, closeReports: bool, now: int)
      requires Valid() && c !in listeners && c !in openSeen && now >= clock
      modifies `connections, `listeners, `openSeen, `callbacks, `pingTimers, `pongTimeouts, `pendingPing, `missedPongs,
               `lastRecoveryAt, `beats, `reconnectTimers, `armed, `closes, `clock
      ensures Valid() && (c in listeners <==> !old(TurnsAway(p, inbound)))
      ensures var existing := Find(old(connections), p);
              && (existing.None? ==> c in listeners)
              && (existing.Some? && existing.value.status == Connected ==> c !in listeners)
              && (existing.Some? && existing.value.status == Connecting ==>
                    && (myPeerId.None? ==> c in listeners)
                    && (myPeerId.Some? && existing.value.inbound == inbound ==> c !in listeners)
                    && (myPeerId.Some? && myPeerId.value != p ==>
                          (c in listeners <==> Less(Dialer(inbound, myPeerId.value, p),
                                                    Dialer(existing.value.inbound, myPeerId.value, p)))))
      ensures c !in listeners ==>
                && connections == old(connections) && listeners == old(listeners) && openSeen == old(openSeen)
                && callbacks == old(callbacks) && closes == old(closes) + [c]
                && HeartbeatsKept() && ReconnectsKept()
      ensures c in listeners ==>
                && connections ==
                     old(connections)[p := Entry(c, if alreadyOpen then Connected else Connecting, inbound)]
                && listeners == old(listeners)[c := Listener(p, inbound)]
                && openSeen == (if alreadyOpen then old(openSeen) + {c} else old(openSeen))
                && callbacks ==
                     old(callbacks) + (if closeReports && p in old(connections) then [OnDisconnect(p)] else [])
                                    + (if alreadyOpen then [OnConnect(p)] else [])
                && closes == old(closes) + (if p in old(connections) then [old(connections)[p].conn] else [])
                && (if closeReports && p in old(connections) then HeartbeatEnds(p) && ReconnectArmed(p)
                    else HeartbeatsKept() && ReconnectsKept())
      ensures !alreadyOpen ==>
                Find(connections, p) == AfterSetup(Find(old(connections), p), c, inbound, WeAreLowest(myPeerId, p))
    {
      hide Valid, Less;
      TurnsAwayIff(p, inbound);
      if p in connections && connections[p].status == Connected {
        closes := closes + [c];
        return;
      }
      if p in connections && connections[p].status == Connecting && myPeerId.Some? {
        if connections[p].inbound != inbound {
          var weAreLowest := Less(myPeerId.value, p);
          if inbound && weAreLowest {
            closes := closes + [c];
            return;
          }
          if !inbound && !weAreLowest {
            closes := closes + [c];
            return;
          }
        } else {
          closes := closes + [c];
          return;
        }
      }
      TakesOver(c, p, inbound, alreadyOpen, closeReports, now);
    }

    /** Closing and forgetting the connection of `p`, if any, for `disconnect`. */
    method Remove(p: Peer, closeReports: bool, now: int)
      requires Valid() && now >= clock && p in manuallyDisconnected
      modifies `connections, `callbacks, `pingTimers, `pongTimeouts, `pendingPing, `missedPongs, `lastRecoveryAt,
               `beats, `reconnectTimers, `armed, `closes, `clock
      ensures Valid() && connections == old(connections) - {p} && ReconnectsKept()
      ensures closes == old(closes) + (if p in old(connections) then [old(connections)[p].conn] else [])
      ensures p !in pongTimeouts && p !in pendingPing && old(beats) + [Ended(p)] <= beats
      ensures callbacks == old(callbacks) + (if p !in old(connections) then []
                             else if closeReports then [OnDisconnect(p), OnDisconnect(p)] else [OnDisconnect(p)])
    {
      hide PeersValid, BeatsValid, BackoffValid, ReconnectsValid;
      EntryIsListed(p);
      if p in connections {
        CloseConn(connections[p].conn, closeReports, now);
        Drop(p, true);
      } else {
        Drop(p, false);
      }
    }

    /** `disconnect`: `onDisconnect` fires once, or twice when the close event is emitted at once. */
    method Disconnect(p: Peer, closeReports: bool, now: int)
      requires Valid() && now >= clock
      modifies `manuallyDisconnected, `reconnectTimers, `reconnectAttempts, `peerConnectFailures,
               `peerConnectQuarantineUntil, `peerConnectQuarantineLevel, `attempts, `connections, `callbacks,
               `pingTimers, `pongTimeouts, `pendingPing, `missedPongs, `lastRecoveryAt, `beats, `armed, `closes, `clock
      ensures Valid() && connections == old(connections) - {p}
      ensures manuallyDisconnected == old(manuallyDisconnected) + {p} && armed == old(armed)
      ensures reconnectTimers == old(reconnectTimers) - {p} && reconnectAttempts == old(reconnectAttempts) - {p}
      ensures closes == old(closes) + (if p in old(connections) then [old(connections)[p].conn] else [])
      ensures p !in pongTimeouts && p !in pendingPing && old(beats) + [Ended(p)] <= beats
      ensures callbacks == old(callbacks) + (if p !in old(connections) then []
                             else if closeReports then [OnDisconnect(p), OnDisconnect(p)] else [OnDisconnect(p)])
      ensures attempts == old(attempts) + [Cleared(p)]
    {
      hide PeersValid, BeatsValid, ReconnectsValid, BackoffOf;
      manuallyDisconnected := manuallyDisconnected + {p};
      CancelReconnect(p);
      ClearPeerConnectFailure(p);
      Remove(p, closeReports, now);
    }

    // ----- data -----

    /** `send` with its `markDisconnected`. */
    method Send(p: Peer, outcome: SendOutcome, now: int) returns (sent: bool)
      requires Valid() && now >= clock
      modifies `connections, `callbacks, `pingTimers, `pongTimeouts, `pendingPing, `missedPongs, `lastRecoveryAt,
               `beats, `reconnectTimers, `armed, `clock
      ensures Valid()
      ensures sent <==> old(IsUp(p)) && outcome == Sent
      ensures connections == if old(IsUp(p)) && !sent then old(connections) - {p} else old(connections)
      ensures callbacks == if old(IsUp(p)) && !sent then old(callbacks) + [OnDisconnect(p)] else old(callbacks)
      ensures if old(IsUp(p)) && !sent then HeartbeatEnds(p) && ReconnectArmed(p)
              else HeartbeatsKept() && ReconnectsKept() && clock == old(clock) && pingTimers == old(pingTimers)
    {
      hide Table.Ok, Missed, LastRecovery, WellPaced, BackoffOf, InBounds;
      if p !in connections || connections[p].status != Connected { return false; }
      if outcome == Sent { return true; }
      Drop(p, true);
      ScheduleReconnect(p, now);
      return false;
    }

    /** The `data` handler of connection `c`; `reply` is how sending a pong goes. */
    method OnData(c: nat, payload: Payload, reply: SendOutcome, now: int)
      requires Valid() && c in listeners && now >= clock
      modifies `connections, `callbacks, `pingTimers, `pongTimeouts, `pendingPing, `missedPongs, `lastRecoveryAt,
               `beats, `reconnectTimers, `armed, `clock
      ensures Valid()
      ensures !old(Active(c)) ==>
                connections == old(connections) && callbacks == old(callbacks) && HeartbeatsKept() && ReconnectsKept()
      ensures old(Active(c)) ==>
                var p := listeners[c].peer;
                var lost := old(IsUp(p)) && payload == Ping && reply != Sent;
                var answered := payload.Pong? && Find(old(pendingPing), p) == Some(payload.ts);
                && connections == (if lost then old(connections) - {p} else old(connections))
                && callbacks == (if lost then old(callbacks) + [OnDisconnect(p)] else old(callbacks))
                && beats == old(beats) + [Inbound(p)] + (if lost then [Ended(p)] else [])
                && pongTimeouts == (if lost || answered then old(pongTimeouts) - {p} else old(pongTimeouts))
                && pendingPing == (if lost || answered then old(pendingPing) - {p} else old(pendingPing))
                && (if lost then ReconnectArmed(p) else ReconnectsKept())
    {
      hide Table.Ok, Missed, LastRecovery, WellPaced, BackoffOf, InBounds;
      var p := listeners[c].peer;
      if p !in connections || connections[p].conn != c { return; }
      WellPacedExtends(beats, Inbound(p));
      beats := beats + [Inbound(p)];
      missedPongs := missedPongs[p := 0];
      if payload == Ping {
        var _ := Send(p, reply, now);
      } else if payload.Pong? {
        HandlePong(p, payload.ts);
      }
    }

    /** A pong clears the pending ping it answers; `missedPongs` is 0 already. */
    method HandlePong(p: Peer, ts: int)
      requires Valid() && Get(missedPongs, p, 0) == 0
      modifies `pendingPing, `missedPongs, `pongTimeouts
      ensures Valid()
      ensures Find(old(pendingPing), p) == Some(ts) ==>
                pongTimeouts == old(pongTimeouts) - {p} && pendingPing == old(pendingPing) - {p}
      ensures Find(old(pendingPing), p) != Some(ts) ==>
                pongTimeouts == old(pongTimeouts) && pendingPing == old(pendingPing)
    {
      hide Table.Ok, Missed, LastRecovery, WellPaced, BackoffOf, InBounds;
      if p !in pendingPing || pendingPing[p] != ts { return; }
      pendingPing := pendingPing - {p};
      missedPongs := missedPongs[p := 0];
      pongTimeouts := pongTimeouts - {p};
    }

    /** The ping timer of `p` fires, or the network comes back. */
    method SendPing(p: Peer, outcome: SendOutcome, now: int)
      requires Valid() && p in pingTimers && now >= clock
      modifies `connections, `callbacks, `pingTimers, `pongTimeouts, `pendingPing, `missedPongs, `lastRecoveryAt,
               `beats, `reconnectTimers, `armed, `clock
      ensures Valid()
      ensures outcome == Sent ==>
                && pongTimeouts == old(pongTimeouts) + {p} && pendingPing == old(pendingPing)[p := now]
                && connections == old(connections) && callbacks == old(callbacks) && beats == old(beats)
                && ReconnectsKept()
      ensures outcome != Sent ==>
                && connections == old(connections) - {p} && callbacks == old(callbacks) + [OnDisconnect(p)]
                && HeartbeatEnds(p) && ReconnectArmed(p)
    {
      hide Table.Ok, BeatsValid, BackoffOf, InBounds;
      View().PeerFacts(p);
      var sent := Send(p, outcome, now);
      if !sent {
        View().PeerFacts(p);
        return;
      }
      pendingPing := pendingPing[p := now];
      pongTimeouts := pongTimeouts + {p};
    }

    /** One more missed pong. */
    method CountTimeout(p: Peer) returns (missed: nat)
      requires Valid() && p in pongTimeouts
      modifies `pongTimeouts, `missedPongs, `beats
      ensures Valid() && pongTimeouts == old(pongTimeouts) - {p}
      ensures beats == old(beats) + [TimedOut(p)] && missed == Missed(old(beats), p) + 1 == Missed(beats, p)
      ensures Find(lastRecoveryAt, p) == LastRecovery(beats, p) == LastRecovery(old(beats), p)
    {
      hide Table.Ok, Missed, LastRecovery, WellPaced, BackoffOf, InBounds;
      pongTimeouts := pongTimeouts - {p};
      WellPacedExtends(beats, TimedOut(p));
      beats := beats + [TimedOut(p)];
      missed := Get(missedPongs, p, 0) + 1;
      missedPongs := missedPongs[p := missed];
    }

    method NoteRecovery(p: Peer, now: int)
      requires Valid() && RecoveryAllowed(beats, p, now)
      modifies `lastRecoveryAt, `beats
      ensures Valid() && beats == old(beats) + [Recovered(p, now)]
    {
      hide Table.Ok, Missed, LastRecovery, WellPaced, BackoffOf, InBounds;
      WellPacedExtends(beats, Recovered(p, now));
      beats := beats + [Recovered(p, now)];
      lastRecoveryAt := lastRecoveryAt[p := now];
    }

    /** A recovery is due when the timeout that fires now is at least the second one missed, and 30 s have
        passed since the last recovery of the session, or since time 0. */
    ghost predicate RecoveryDue(p: Peer, now: int)
      reads `beats
    {
      var last := LastRecovery(beats, p);
      Missed(beats, p) + 1 >= FAIL_THRESHOLD && now - (if last.Some? then last.value else 0) >= RECOVERY_COOLDOWN_MS
    }

    /** A pong timeout fires; `canRestart` says whether ICE can be restarted instead of closing. A
        recovery is due after two timeouts, 30 s after the last one, and never in the first 30 s of
        the clock. */
    method PongTimeoutFires(p: Peer, canRestart: bool, closeReports: bool, now: int)
      requires Valid() && p in pongTimeouts && now >= clock
      modifies `connections, `callbacks, `pingTimers, `pongTimeouts, `pendingPing, `missedPongs, `lastRecoveryAt,
               `beats, `reconnectTimers, `armed, `closes, `clock
      ensures Valid()
      ensures var due := old(RecoveryDue(p, now));
              var closing := due && !canRestart && p in old(connections);
              var lost := closing && closeReports;
              && beats == old(beats) + [TimedOut(p)] + (if due then [Recovered(p, now)] else [])
                                     + (if lost then [Ended(p)] else [])
              && closes == old(closes) + (if closing then [old(connections)[p].conn] else [])
              && connections == (if lost then old(connections) - {p} else old(connections))
              && callbacks == (if lost then old(callbacks) + [OnDisconnect(p)] else old(callbacks))
              && pongTimeouts == old(pongTimeouts) - {p}
              && (if lost then ReconnectArmed(p) else ReconnectsKept())
    {
      hide Valid, Missed, LastRecovery, Window;
      var missed := CountTimeout(p);
      if missed < FAIL_THRESHOLD { return; }
      var lastRecovery := Get(lastRecoveryAt, p, 0);
      if now - lastRecovery < RECOVERY_COOLDOWN_MS { return; }
      NoteRecovery(p, now);
      if p !in connections { return; }
      if canRestart { return; }
      EntryIsListed(p);
      CloseConn(connections[p].conn, closeReports, now);
    }

    /** The connected peers, which are exactly those whose last callback was `onConnect`. */
    function GetConnectedPeers(): (peers: set<Peer>)
      requires Valid()
      reads this
      ensures forall p: Peer :: p in peers <==> LastIsConnect(callbacks, p)
    {
      assert forall p: Peer :: View().PeerOk(p) ==> (LastIsConnect(callbacks, p) <==> IsUp(p));
      set p | p in connections && connections[p].status == Connected
    }

    /** While heartbeats are enabled exactly the connected peers have a ping timer, otherwise none. */
    lemma TimersAreOfConnectedPeers()
      requires Valid()
      ensures pingTimers == if heartbeatEnabled then GetConnectedPeers() else {}
    {
      hide Table.Ok, BeatsValid, BackoffValid, ReconnectsValid;
      forall p: Peer ensures p in pingTimers <==> heartbeatEnabled && p in GetConnectedPeers() { View().PeerFacts(p); }
    }

    // ----- whole runs -----

    /** Handlers run for connections that were set up, timers for peers that have one, and the clock
        does not go back. */
    predicate Possible(e: Event)
      reads this
    {
      match e
      case SetUp(c, _, _, _, _, now) => c !in listeners && c !in openSeen && now >= clock
      case Opened(c) => c in listeners
      case Data(c, _, _, now) => c in listeners && now >= clock
      case Closed(c, now) => c in listeners && now >= clock
      case Errored(c, now) => c in listeners && now >= clock
      case DialTimesOut(c, _, now) => c in listeners && now >= clock
      case BeginsConnect(_, _, now) => now >= clock
      case Retries(_) => true
      case EndsConnect(_, _, _, now) => now >= clock
      case Disconnects(_, _, now) => now >= clock
      case Sends(_, _, now) => now >= clock
      case PingTimer(p, _, now) => p in pingTimers && now >= clock
      case PongTimer(p, _, _, now) => p in pongTimeouts && now >= clock
      case ReconnectTimer(p) => p in reconnectTimers
      case ReconnectDone(_, _, now) => now >= clock
      case SetsHeartbeat(_) => true
      case SetsAutoReconnect(_) => true
    }

    function Replaced(p: Peer, entry: Option<Entry>): map<Peer, Entry>
      reads `connections
    {
      if entry.Some? then connections[p := entry.value] else connections - {p}
    }

    /** The connection table after each event. */
    ghost function ConnectionsAfter(e: Event): map<Peer, Entry>
      requires Possible(e)
      reads this
    {
      match e
      case SetUp(c, p, inbound, alreadyOpen, _, _) =>
        if TurnsAway(p, inbound) then connections
        else connections[p := Entry(c, if alreadyOpen then Connected else Connecting, inbound)]
      case Opened(c) =>
        var Listener(p, inbound) := listeners[c];
        if c in openSeen then connections else Replaced(p, AfterOpen(Find(connections, p), c, inbound))
      case Closed(c, _) => Replaced(listeners[c].peer, AfterClose(Find(connections, listeners[c].peer), c))
      case Errored(c, _) => Replaced(listeners[c].peer, AfterClose(Find(connections, listeners[c].peer), c))
      case DialTimesOut(c, reports, _) =>
        if !reports then connections
        else Replaced(listeners[c].peer, AfterClose(Find(connections, listeners[c].peer), c))
      case Retries(p) => if IsUp(p) then connections else connections - {p}
      case Disconnects(p, _, _) => connections - {p}
      case Sends(p, outcome, _) => if IsUp(p) && outcome != Sent then connections - {p} else connections
      case PingTimer(p, outcome, _) => if outcome != Sent then connections - {p} else connections
      case Data(c, payload, reply, _) =>
        var p := listeners[c].peer;
        if Active(c) && IsUp(p) && payload == Ping && reply != Sent then connections - {p} else connections
      case PongTimer(p, canRestart, reports, now) =>
        if RecoveryDue(p, now) && !canRestart && reports then connections - {p} else connections
      case _ => connections
    }

    twostate predicate HistoriesGrow()
      reads `callbacks, `beats, `attempts, `armed, `closes
    {
      && old(callbacks) <= callbacks && old(beats) <= beats && old(attempts) <= attempts
      && old(armed) <= armed && old(closes) <= closes
    }

    method PerformSetUp(e: Event)
      requires Valid() && Possible(e) && e.Kind() == Installed
      modifies this
      ensures Valid() && connections == old(ConnectionsAfter(e)) && HistoriesGrow()
    {
      hide Valid, Less, AfterSetup, Dialer, TurnsAway;
      SetupConnection(e.c, e.p, e.inbound, e.alreadyOpen, e.reports, e.now);
    }

    /** Connections that open and go. */
    method PerformReport(e: Event)
      requires Valid() && Possible(e) && e.Kind() == Reported
      modifies this
      ensures Valid() && connections == old(ConnectionsAfter(e)) && HistoriesGrow()
    {
      hide Valid;
      match e
      case Opened(c) => MarkConnected(c);
      case Closed(c, now) => OnClose(c, now);
      case Errored(c, now) => OnError(c, now);
      case DialTimesOut(c, reports, now) => CloseConn(c, reports, now);
    }

    /** Payloads and heartbeats. */
    method PerformBeat(e: Event)
      requires Valid() && Possible(e) && e.Kind() == Beating
      modifies this
      ensures Valid() && connections == old(ConnectionsAfter(e)) && HistoriesGrow()
    {
      hide Valid, Missed, LastRecovery;
      match e
      case Data(c, payload, reply, now) => OnData(c, payload, reply, now);
      case PingTimer(p, outcome, now) => SendPing(p, outcome, now);
      case PongTimer(p, canRestart, reports, now) => PongTimeoutFires(p, canRestart, reports, now);
      case SetsHeartbeat(enabled) => SetHeartbeatEnabled(enabled);
    }

    /** Calls from outside, reconnect timers, and stretches of `connect`. */
    method PerformCall(e: Event)
      requires Valid() && Possible(e) && e.Kind() == Called
      modifies this
      ensures Valid() && connections == old(ConnectionsAfter(e)) && HistoriesGrow()
    {
      hide PeersValid, BeatsValid, BackoffValid, ReconnectsValid, Until;
      match e
      case BeginsConnect(p, initialised, now) => var _ := BeginConnect(p, initialised, now);
      case Retries(p) => var _ := RetryDelete(p);
      case EndsConnect(p, success, unavailable, now) => EndConnect(p, success, unavailable, now);
      case Disconnects(p, reports, now) => Disconnect(p, reports, now);
      case Sends(p, outcome, now) => var _ := Send(p, outcome, now);
      case ReconnectTimer(p) => var _ := ReconnectFires(p);
      case ReconnectDone(p, success, now) => ReconnectEnds(p, success, now);
      case SetsAutoReconnect(enabled) => autoReconnectEnabled := enabled;
    }

    method Perform(e: Event)
      requires Valid() && Possible(e)
      modifies this
      ensures Valid() && connections == old(ConnectionsAfter(e)) && HistoriesGrow()
    {
      hide Valid, ConnectionsAfter;
      match e.Kind()
      case Installed => PerformSetUp(e);
      case Reported => PerformReport(e);
      case Beating => PerformBeat(e);
      case Called => PerformCall(e);
    }
  }

  /** Every run from a fresh endpoint, of events taken from `next` whenever they are possible. */
  method Run(myPeerId: Option<string>, next: seq<Event>) returns (t: Transport)
    ensures fresh(t) && t.Valid()
    ensures forall p: Peer :: p in t.GetConnectedPeers() <==> LastIsConnect(t.callbacks, p)
    ensures NoDoubleConnect(t.callbacks) && WellPaced(t.beats)
    ensures t.pingTimers == (if t.heartbeatEnabled then t.GetConnectedPeers() else {}) && t.pongTimeouts <= t.pingTimers
    ensures forall i | 0 <= i < |t.armed| :: InBounds(t.armed[i])
    ensures forall p: Peer :: t.BackoffOf(p)
  {
    t := new Transport(myPeerId);
    hide LastIsConnect, NoDoubleConnect, WellPaced, Transport.BackoffOf;
    for i := 0 to |next|
      invariant fresh(t) && t.Valid()
    {
      if t.Possible(next[i]) { t.Perform(next[i]); }
    }
    t.TimersAreOfConnectedPeers();
  }
}
