/** What a peer transport has done so far, as histories, and what the histories promise. */
module PeerHistory {
  import opened PeerLink

  type Peer = string

  // ----- onConnect and onDisconnect -----

  datatype Callback = OnConnect(peer: Peer) | OnDisconnect(peer: Peer)

  /** The last callback about `p` was `onConnect`. */
  ghost predicate LastIsConnect(log: seq<Callback>, p: Peer) {
    log != [] &&
    var last := log[|log| - 1];
    if last.peer == p then last.OnConnect? else LastIsConnect(log[..|log| - 1], p)
  }

  /** `onConnect` is only ever called for a peer that is not connected. */
  ghost predicate NoDoubleConnect(log: seq<Callback>) {
    forall i | 0 <= i < |log| && log[i].OnConnect? :: !LastIsConnect(log[..i], log[i].peer)
  }

  lemma NoDoubleConnectExtends(log: seq<Callback>, e: Callback)
    requires NoDoubleConnect(log) && (e.OnConnect? ==> !LastIsConnect(log, e.peer))
    ensures NoDoubleConnect(log + [e])
    ensures forall p: Peer :: LastIsConnect(log + [e], p) == if e.peer == p then e.OnConnect? else LastIsConnect(log, p)
  {
    var longer := log + [e];
    assert longer[..|log|] == log;
    forall i | 0 <= i < |longer| && longer[i].OnConnect? ensures !LastIsConnect(longer[..i], longer[i].peer) {
      assert i < |log| ==> longer[..i] == log[..i];
    }
  }

  lemma {:induction false} ConnectStaysUntilDisconnect(log: seq<Callback>, i: nat, j: nat)
    requires i < j <= |log| && log[i].OnConnect?
    requires forall k | i < k < j :: log[k] != OnDisconnect(log[i].peer)
    ensures LastIsConnect(log[..j], log[i].peer)
    decreases j
  {
    var upTo := log[..j];
    assert upTo[..j - 1] == log[..j - 1];
    if j > i + 1 { ConnectStaysUntilDisconnect(log, i, j - 1); }
  }

  /** Two `onConnect` calls for one peer always have an `onDisconnect` for it in between. */
  lemma DisconnectBetweenConnects(log: seq<Callback>, i: nat, j: nat)
    requires NoDoubleConnect(log) && i < j < |log|
    requires log[i].OnConnect? && log[j] == log[i]
    ensures exists k :: i < k < j && log[k] == OnDisconnect(log[i].peer)
  {
    if forall k | i < k < j :: log[k] != OnDisconnect(log[i].peer) {
      ConnectStaysUntilDisconnect(log, i, j);
      assert false;
    }
  }

  // ----- the heartbeat -----

  datatype Beat =
    | Inbound(peer: Peer)             // a payload arrived on the active connection
    | TimedOut(peer: Peer)            // a pong timeout fired
    | Ended(peer: Peer)               // the heartbeat of the peer was stopped
    | Recovered(peer: Peer, at: int)  // an ICE restart or a close was tried

  const FAIL_THRESHOLD := 2
  const RECOVERY_COOLDOWN_MS := 30_000

  /** Pong timeouts since the last payload, or since the heartbeat began. */
  ghost function Missed(beats: seq<Beat>, p: Peer): nat {
    if beats == [] then 0
    else
      var before, last := beats[..|beats| - 1], beats[|beats| - 1];
      if last.peer != p || last.Recovered? then Missed(before, p)
      else if last.TimedOut? then Missed(before, p) + 1
      else 0
  }

  /** When the last recovery of the current heartbeat session was. */
  ghost function LastRecovery(beats: seq<Beat>, p: Peer): Option<int> {
    if beats == [] then None
    else
      var before, last := beats[..|beats| - 1], beats[|beats| - 1];
      if last.peer != p then LastRecovery(before, p)
      else if last.Recovered? then Some(last.at)
      else if last.Ended? then None
      else LastRecovery(before, p)
  }

  ghost predicate RecoveryAllowed(beats: seq<Beat>, p: Peer, at: int) {
    && Missed(beats, p) >= FAIL_THRESHOLD
    && var last := LastRecovery(beats, p); last.Some? ==> at - last.value >= RECOVERY_COOLDOWN_MS
  }

  ghost predicate WellPaced(beats: seq<Beat>) {
    forall i | 0 <= i < |beats| && beats[i].Recovered? :: RecoveryAllowed(beats[..i], beats[i].peer, beats[i].at)
  }

  lemma WellPacedExtends(beats: seq<Beat>, e: Beat)
    requires WellPaced(beats) && (e.Recovered? ==> RecoveryAllowed(beats, e.peer, e.at))
    ensures WellPaced(beats + [e])
    ensures forall p: Peer :: Missed(beats + [e], p) ==
              if e.peer != p || e.Recovered? then Missed(beats, p) else if e.TimedOut? then Missed(beats, p) + 1 else 0
    ensures forall p: Peer :: LastRecovery(beats + [e], p) ==
              if e.peer != p || e.Inbound? || e.TimedOut? then LastRecovery(beats, p)
              else if e.Recovered? then Some(e.at) else None
  {
    var longer := beats + [e];
    assert longer[..|beats|] == beats;
    forall i | 0 <= i < |longer| && longer[i].Recovered?
      ensures RecoveryAllowed(longer[..i], longer[i].peer, longer[i].at)
    {
      assert i < |beats| ==> longer[..i] == beats[..i];
    }
  }

  lemma MissedAfterEnd(beats: seq<Beat>, p: Peer)
    ensures Missed(beats + [Ended(p)], p) == 0
    ensures forall q: Peer | q != p :: Missed(beats + [Ended(p)], q) == Missed(beats, q)
  {
    assert (beats + [Ended(p)])[..|beats|] == beats;
  }

  /** The latest timeout that counts, with no payload after it. */
  lemma {:induction false} LatestTimeout(beats: seq<Beat>, p: Peer) returns (k: nat)
    requires Missed(beats, p) >= 1
    ensures k < |beats| && beats[k] == TimedOut(p) && Missed(beats[..k], p) == Missed(beats, p) - 1
    ensures forall m | k <= m < |beats| :: beats[m] != Inbound(p)
    decreases |beats|
  {
    var before := beats[..|beats| - 1];
    if beats[|beats| - 1] == TimedOut(p) {
      k := |beats| - 1;
    } else {
      k := LatestTimeout(before, p);
      assert before[..k] == beats[..k];
    }
  }

  /** A recovery comes after at least two pong timeouts with no payload since. */
  lemma RecoveryNeedsTwoTimeouts(beats: seq<Beat>, i: nat) returns (j: nat, k: nat)
    requires WellPaced(beats) && i < |beats| && beats[i].Recovered?
    ensures j < k < i && beats[j] == beats[k] == TimedOut(beats[i].peer)
    ensures forall m | j <= m < i :: beats[m] != Inbound(beats[i].peer)
  {
    k := LatestTimeout(beats[..i], beats[i].peer);
    assert beats[..i][..k] == beats[..k];
    j := LatestTimeout(beats[..k], beats[i].peer);
  }

  lemma {:induction false} LastRecoveryIsLast(beats: seq<Beat>, i: nat, j: nat)
    requires i < j <= |beats| && beats[i].Recovered?
    requires forall k | i < k < j :: beats[k] != Ended(beats[i].peer)
    requires WellPaced(beats)
    ensures var last := LastRecovery(beats[..j], beats[i].peer); last.Some? && last.value >= beats[i].at
    decreases j
  {
    var upTo := beats[..j];
    assert upTo[..j - 1] == beats[..j - 1];
    if j > i + 1 {
      LastRecoveryIsLast(beats, i, j - 1);
      var last := beats[j - 1];
      assert last.Recovered? ==> RecoveryAllowed(beats[..j - 1], last.peer, last.at);
    }
  }

  /** Two recoveries in one heartbeat session are at least 30 s apart. */
  lemma RecoveriesAreApart(beats: seq<Beat>, i: nat, j: nat)
    requires WellPaced(beats) && i < j < |beats|
    requires beats[i].Recovered? && beats[j].Recovered? && beats[i].peer == beats[j].peer
    requires forall k | i < k < j :: beats[k] != Ended(beats[i].peer)
    ensures beats[j].at - beats[i].at >= 30_000
  {
    LastRecoveryIsLast(beats, i, j);
    assert RecoveryAllowed(beats[..j], beats[j].peer, beats[j].at);
  }

  // ----- connect failures and quarantine -----

  datatype Attempt = Failed(peer: Peer, at: int) | Cleared(peer: Peer)

  const FAILURE_THRESHOLD: nat := 2
  const QUARANTINE_BASE_MS: nat := 120_000
  const QUARANTINE_MAX_MS: nat := 1_800_000

  /** Counted failures since the last success or disconnect. */
  ghost function Failures(log: seq<Attempt>, p: Peer): nat {
    if log == [] then 0
    else
      var before, last := log[..|log| - 1], log[|log| - 1];
      if last.peer != p then Failures(before, p) else if last.Failed? then Failures(before, p) + 1 else 0
  }

  function Pow2(k: nat): (r: nat)
    ensures r >= 1
  {
    if k == 0 then 1 else 2 * Pow2(k - 1)
  }

  /** The length of the quarantine set at `level`. */
  function Window(level: nat): nat {
    var ms := QUARANTINE_BASE_MS * Pow2(if level == 0 then 0 else level - 1);
    if ms < QUARANTINE_MAX_MS then ms else QUARANTINE_MAX_MS
  }

  /** The time up to which `p` is quarantined, 0 for none. */
  ghost function Until(log: seq<Attempt>, p: Peer): int {
    if log == [] then 0
    else
      var before, last := log[..|log| - 1], log[|log| - 1];
      if last.peer != p then Until(before, p)
      else if last.Cleared? then 0
      else
        var n := Failures(log, p);
        if n % 2 == 0 then last.at + Window(n / 2) else Until(before, p)
  }

  lemma HalfOfNext(n: nat)
    ensures n % 2 == 0 ==> (n + 1) % 2 == 1 && (n + 1) / 2 == n / 2
    ensures n % 2 == 1 ==> (n + 1) % 2 == 0 && (n + 1) / 2 == n / 2 + 1
  {}

  /** What one more failure or a reset does to the count and the quarantine of every peer. */
  lemma FailuresExtend(log: seq<Attempt>, e: Attempt, p: Peer)
    ensures e.peer != p ==> Failures(log + [e], p) == Failures(log, p) && Until(log + [e], p) == Until(log, p)
    ensures e.peer == p && e.Cleared? ==> Failures(log + [e], p) == 0 && Until(log + [e], p) == 0
    ensures e.peer == p && e.Failed? ==>
              var n := Failures(log, p);
              && Failures(log + [e], p) == n + 1
              && (n % 2 == 0 ==> (n + 1) % 2 == 1 && (n + 1) / 2 == n / 2 && Until(log + [e], p) == Until(log, p))
              && (n % 2 == 1 ==> (n + 1) % 2 == 0 && (n + 1) / 2 == n / 2 + 1
                                 && Until(log + [e], p) == e.at + Window(n / 2 + 1))
  {
    hide Window;
    assert (log + [e])[..|log|] == log;
    HalfOfNext(Failures(log, p));
  }

  lemma {:induction false} Pow2Grows(a: nat, b: nat)
    requires a <= b
    ensures Pow2(a) <= Pow2(b)
  {
    if a > 0 { Pow2Grows(a - 1, b - 1); }
  }

  /** Windows never shrink, start at two minutes and are capped at half an hour. */
  lemma WindowsNeverShrink(a: nat, b: nat)
    requires a <= b
    ensures QUARANTINE_BASE_MS <= Window(a) <= Window(b) <= QUARANTINE_MAX_MS
  {
    Pow2Grows(if a == 0 then 0 else a - 1, if b == 0 then 0 else b - 1);
  }

  /** The first quarantine lasts two minutes, and each later one twice as long up to the cap. */
  lemma WindowsDouble(level: nat)
    requires level >= 1
    ensures Window(1) == 120_000
    ensures Window(level + 1) == if 2 * Window(level) < 1_800_000 then 2 * Window(level) else 1_800_000
  {}

  /** A peer is quarantined from its last failure that made the count even, for the window of half that
      count; below two failures it is not. */
  lemma {:induction false} QuarantineIsLastWindow(log: seq<Attempt>, p: Peer) returns (i: int)
    ensures Failures(log, p) < 2 ==> Until(log, p) == 0
    ensures Failures(log, p) >= 2 ==>
              && 0 <= i < |log| && log[i].Failed? && log[i].peer == p
              && Failures(log[..i + 1], p) == Failures(log, p) - Failures(log, p) % 2
              && Until(log, p) == log[i].at + Window(Failures(log, p) / 2)
              && forall k | i < k < |log| :: log[k] != Cleared(p)
  {
    hide Window;
    i := -1;
    if log != [] {
      var before, last := log[..|log| - 1], log[|log| - 1];
      i := QuarantineIsLastWindow(before, p);
      if last.peer == p && last.Failed? && Failures(log, p) % 2 == 0 { i := |log| - 1; }
      assert log[..|log|] == log;
      if 0 <= i < |before| { assert before[..i + 1] == log[..i + 1]; }
      HalfOfNext(Failures(before, p));
    }
  }

  // ----- automatic reconnects -----

  /** A reconnect timer was armed at `at`, while the peer was quarantined up to `until`. */
  datatype Armed = Armed(peer: Peer, at: int, delay: int, until: int)

  /** No timer fires before five seconds, after half an hour, or inside the quarantine. */
  ghost predicate InBounds(t: Armed) {
    5_000 <= t.delay <= QUARANTINE_MAX_MS && t.at + t.delay >= t.until
  }
}
