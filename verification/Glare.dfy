/** Two endpoints that dial each other, with offers, opens and close notices in flight: what the
    deduplication and glare rules of `_setupConnection` guarantee in every interleaving. */
module Glare {
  import opened PeerLink

  datatype Side = A | B

  function Other(s: Side): Side {
    if s == A then B else A
  }

  /** One end of a connection: not set up yet, set up and open for events, or closed here. */
  datatype End = Fresh | Up | Down

  /** What one endpoint knows: its end of every connection, its entry for the peer, and the
      connections whose `open` event it has seen. */
  datatype Endpoint = Endpoint(ends: seq<End>, entry: Option<Entry>, seen: set<nat>) {
    ghost predicate Sane() {
      entry.Some? ==> entry.value.conn < |ends|
    }

    ghost predicate HasFresh(c: nat) {
      Sane() && c < |ends| && ends[c] == Fresh
    }

    function Close(c: nat): Endpoint
      requires c < |ends|
    {
      this.(ends := ends[c := Down])
    }

    /** `_setupConnection` for the fresh end of `c`. */
    function Setup(c: nat, inbound: bool, weAreLowest: bool): Endpoint
      requires HasFresh(c)
    {
      if Rejects(entry, inbound, Some(weAreLowest)) then Close(c)
      else
        var displaced := if entry.Some? then Close(entry.value.conn) else this;
        displaced.(ends := displaced.ends[c := Up], entry := AfterSetup(entry, c, inbound, Some(weAreLowest)))
    }

    /** `markConnected`, run by the `open` event of `c`. */
    function Opens(c: nat, inbound: bool): Endpoint
      requires Sane() && c < |ends|
    {
      var after := AfterOpen(entry, c, inbound);
      if after == Some(Entry(c, Connected, inbound)) then this.(seen := seen + {c}, entry := after) else Close(c)
    }

    /** The close or error handler of `c`. */
    function Noticed(c: nat): Endpoint
      requires Sane() && c < |ends|
    {
      Close(c).(entry := AfterClose(entry, c))
    }

    function Disconnected(): Endpoint
      requires Sane()
    {
      if entry.Some? then Close(entry.value.conn).(entry := None) else this
    }

    /** `c` is the entry's connection. */
    ghost predicate Uses(c: nat) {
      entry.Some? && entry.value.conn == c
    }

    /** `c` is up here, and in use unless it has yet to report that it is open. */
    ghost predicate Live(c: nat) {
      c < |ends| && ends[c] == Up && (c in seen ==> Uses(c))
    }

    /** The connection held and not closed here. */
    ghost function Held(): Option<nat>
      requires Sane()
    {
      if entry.Some? && ends[entry.value.conn] == Up then Some(entry.value.conn) else None
    }
  }

  /** `dialers[c]` dialed connection `c`; `established` are the connections whose channel came up
      while both ends were up. */
  datatype Net = Net(dialers: seq<Side>, established: set<nat>, a: Endpoint, b: Endpoint) {
    function At(s: Side): Endpoint {
      if s == A then a else b
    }

    function With(s: Side, e: Endpoint): Net {
      if s == A then this.(a := e) else this.(b := e)
    }

    ghost predicate Sane() {
      |a.ends| == |b.ends| == |dialers| && a.Sane() && b.Sane()
    }
  }

  const Init := Net([], {}, Endpoint([], None, {}), Endpoint([], None, {}))

  datatype Ids = Ids(a: string, b: string) {
    function Of(s: Side): string {
      if s == A then a else b
    }

    predicate Lowest(s: Side) {
      if s == A then Less(a, b) else Less(b, a)
    }
  }

  datatype Step =
    | Dial(s: Side)               // `connect` creates a connection and sets up its own end
    | Offer(c: nat)               // the offer reaches the other end
    | LoseOffer(c: nat)           // an offer whose dialer has closed need not arrive
    | Establish(c: nat)           // the channel comes up
    | Open(s: Side, c: nat)       // the `open` event, possibly late
    | CloseNotice(s: Side, c: nat)  // the far end's closing is reported as close or error
    | Disconnect(s: Side)
    | Timeout(s: Side, c: nat)    // the dialer gives up on a connection that has not opened
    | Forget(s: Side)             // the retry loop, or an error, deletes a connecting entry
    | Drop(s: Side)               // a failing send, or an error, deletes a connected entry without closing

  ghost predicate Enabled(n: Net, step: Step) {
    n.Sane() &&
    match step
    case Dial(_) => true
    case Offer(c) => c < |n.dialers| && n.At(Other(n.dialers[c])).ends[c] == Fresh
    case LoseOffer(c) =>
      c < |n.dialers| && n.At(Other(n.dialers[c])).ends[c] == Fresh && n.At(n.dialers[c]).ends[c] == Down
    case Establish(c) => c < |n.dialers| && n.a.ends[c] == n.b.ends[c] == Up
    case Open(s, c) => c < |n.dialers| && c in n.established && n.At(s).ends[c] == Up && c !in n.At(s).seen
    case CloseNotice(s, c) => c < |n.dialers| && n.At(s).ends[c] == Up && n.At(Other(s)).ends[c] == Down
    case Disconnect(_) => true
    case Timeout(s, c) => c < |n.dialers| && n.dialers[c] == s && n.At(s).ends[c] == Up && c !in n.At(s).seen
    case Forget(s) => n.At(s).entry.Some? && n.At(s).entry.value.status == Connecting
    case Drop(s) => n.At(s).entry.Some? && n.At(s).entry.value.status == Connected
  }

  /** A new connection exists: both ends are still fresh. */
  function Dialing(n: Net, s: Side): Net {
    n.(dialers := n.dialers + [s], a := n.a.(ends := n.a.ends + [Fresh]), b := n.b.(ends := n.b.ends + [Fresh]))
  }

  function Apply(n: Net, step: Step, ids: Ids): Net
    requires Enabled(n, step)
  {
    match step
    case Dial(s) =>
      var dialed := Dialing(n, s);
      dialed.With(s, dialed.At(s).Setup(|n.dialers|, false, ids.Lowest(s)))
    case Offer(c) =>
      var s := Other(n.dialers[c]);
      n.With(s, n.At(s).Setup(c, true, ids.Lowest(s)))
    case LoseOffer(c) =>
      var s := Other(n.dialers[c]);
      n.With(s, n.At(s).Close(c))
    case Establish(c) => n.(established := n.established + {c})
    case Open(s, c) => n.With(s, n.At(s).Opens(c, n.dialers[c] != s))
    case CloseNotice(s, c) => n.With(s, n.At(s).Noticed(c))
    case Disconnect(s) => n.With(s, n.At(s).Disconnected())
    case Timeout(s, c) => n.With(s, n.At(s).Close(c))
    case Forget(s) => n.With(s, n.At(s).(entry := None))
    case Drop(s) => n.With(s, n.At(s).(entry := None))
  }

  /** The connection `c` can no longer come up: it never did, and `far` has closed its end. */
  ghost predicate Dead(far: Endpoint, established: set<nat>, c: nat) {
    c < |far.ends| && far.ends[c] == Down && c !in established
  }

  /** A retry delete does no harm when the connection of the entry it drops is closed here, or dead. */
  ghost predicate Harmless(n: Net, step: Step)
    requires n.Sane()
  {
    step.Forget? ==>
      var held := n.At(step.s).Held();
      held.None? || Dead(n.At(Other(step.s)), n.established, held.value)
  }

  /** `steps` can be taken one after the other from `n`. */
  ghost predicate Runs(n: Net, steps: seq<Step>, ids: Ids)
    decreases |steps|
  {
    steps == [] || (Enabled(n, steps[0]) && Runs(Apply(n, steps[0], ids), steps[1..], ids))
  }

  ghost function Final(n: Net, steps: seq<Step>, ids: Ids): Net
    requires Runs(n, steps, ids)
    decreases |steps|
  {
    if steps == [] then n else Final(Apply(n, steps[0], ids), steps[1..], ids)
  }

  /** All retry deletes of the run are harmless. */
  ghost predicate Careful(n: Net, steps: seq<Step>, ids: Ids)
    requires Runs(n, steps, ids)
    decreases |steps|
  {
    steps == [] || (Harmless(n, steps[0]) && Careful(Apply(n, steps[0], ids), steps[1..], ids))
  }

  // ----- the invariant -----

  /** One endpoint: an end that is up is the entry's, dead, or was seen to open; a connected entry is up,
      established and seen to open, a connecting one was not seen; no end it dialed itself and no
      established end is fresh. */
  ghost predicate Good(s: Side, e: Endpoint, far: Endpoint, dialers: seq<Side>, established: set<nat>) {
    && |e.ends| == |far.ends| == |dialers| && e.Sane() && e.seen <= established
    && (forall c: nat | c < |e.ends| && e.ends[c] == Up ::
          e.Uses(c) || Dead(far, established, c) || c in e.seen)
    && (forall c: nat | c < |e.ends| && e.ends[c] == Fresh :: dialers[c] != s && c !in established)
    && (e.entry.Some? ==>
          var Entry(conn, status, inbound) := e.entry.value;
          && e.ends[conn] != Fresh && inbound == (dialers[conn] != s)
          && (status == Connected ==> e.ends[conn] == Up && conn in established)
          && (status == Connected <==> conn in e.seen))
  }

  /** Established connections that are live at opposite ends are one connection. */
  ghost predicate OneUp(a: Endpoint, b: Endpoint, established: set<nat>) {
    forall c: nat, d: nat | c in established && d in established && a.Live(c) && b.Live(d) :: c == d
  }

  ghost predicate Inv(n: Net) {
    && Good(A, n.a, n.b, n.dialers, n.established) && Good(B, n.b, n.a, n.dialers, n.established)
    && OneUp(n.a, n.b, n.established) && (forall c | c in n.established :: c < |n.dialers|)
  }

  /** `e` has the same ends live as `before`, apart from `c`, or fewer, and none up that was down. */
  ghost predicate NoNewUp(before: Endpoint, e: Endpoint, c: nat) {
    && |e.ends| == |before.ends|
    && (forall d: nat | d != c && e.Live(d) :: before.Live(d))
    && (forall d: nat | d < |e.ends| && before.ends[d] == Down :: e.ends[d] == Down)
  }

  lemma SetupIsGood(s: Side, e: Endpoint, far: Endpoint, c: nat, lowest: bool,
                    dialers: seq<Side>, established: set<nat>)
    requires e.HasFresh(c) && |e.ends| == |far.ends| == |dialers| && c !in established
    requires Good(s, e, far, dialers, established) ||
             (dialers[c] == s && c == |dialers| - 1 &&
              Good(s, e.(ends := e.ends[..c]), far.(ends := far.ends[..c]), dialers[..c], established))
    ensures var e' := e.Setup(c, dialers[c] != s, lowest);
            Good(s, e', far, dialers, established) && NoNewUp(e, e', c)
  {
    if !Good(s, e, far, dialers, established) {
      var before := e.(ends := e.ends[..c]);
      assert forall d: nat | d < c :: before.ends[d] == e.ends[d] && dialers[..c][d] == dialers[d];
    }
  }

  /** A good endpoint in place of the one at `s`, with no newly live end that is established. */
  lemma WithKeepsInv(n: Net, s: Side, e: Endpoint, c: nat)
    requires Inv(n) && Good(s, e, n.At(Other(s)), n.dialers, n.established) && NoNewUp(n.At(s), e, c)
    requires c in n.established && e.Live(c) ==> n.At(s).Live(c)
    ensures Inv(n.With(s, e))
  {}

  lemma DialKeepsInv(n: Net, s: Side, ids: Ids)
    requires Inv(n)
    ensures Inv(Apply(n, Dial(s), ids))
  {
    var m, c := Dialing(n, s), |n.dialers|;
    var e, far := m.At(s), m.At(Other(s));
    assert m.dialers[..c] == n.dialers && e.ends[..c] == n.At(s).ends && far.ends[..c] == n.At(Other(s)).ends;
    assert e.(ends := e.ends[..c]) == n.At(s) && far.(ends := far.ends[..c]) == n.At(Other(s));
    SetupIsGood(s, e, far, c, ids.Lowest(s), m.dialers, n.established);
    WithDialKeepsInv(n, s, e.Setup(c, false, ids.Lowest(s)));
  }

  /** A good endpoint with one more connection in place of the one at `s`. */
  lemma WithDialKeepsInv(n: Net, s: Side, e: Endpoint)
    requires Inv(n) && Good(s, e, Dialing(n, s).At(Other(s)), n.dialers + [s], n.established)
    requires NoNewUp(Dialing(n, s).At(s), e, |n.dialers|)
    ensures Inv(Dialing(n, s).With(s, e))
  {
    hide Endpoint.Setup, Rejects;
    var far := Dialing(n, s).At(Other(s));
    assert forall d: nat | d < |n.dialers| && n.At(s).ends[d] == Down :: Dialing(n, s).At(s).ends[d] == Down;
    assert Good(Other(s), far, e, n.dialers + [s], n.established);
  }

  /** Every event of one endpoint other than a set-up keeps it good and brings no end up. */
  lemma LocalStepIsGood(s: Side, e: Endpoint, far: Endpoint, c: nat, dialers: seq<Side>, established: set<nat>)
    requires Good(s, e, far, dialers, established) && c < |e.ends|
    ensures e.ends[c] == Fresh || c !in e.seen ==>
              Good(s, e.Close(c), far, dialers, established) && NoNewUp(e, e.Close(c), c)
    ensures e.ends[c] == Up && c in established && c !in e.seen ==>
              var e' := e.Opens(c, dialers[c] != s);
              Good(s, e', far, dialers, established) && NoNewUp(e, e', c)
    ensures Good(s, e.Noticed(c), far, dialers, established) && NoNewUp(e, e.Noticed(c), c)
    ensures Good(s, e.Disconnected(), far, dialers, established) && NoNewUp(e, e.Disconnected(), c)
    ensures e.Held() == None || Dead(far, established, e.Held().value) || e.Held().value in e.seen ==>
              Good(s, e.(entry := None), far, dialers, established) && NoNewUp(e, e.(entry := None), c)
  {}

  lemma EstablishKeepsInv(n: Net, c: nat, ids: Ids)
    requires Inv(n) && Enabled(n, Establish(c))
    ensures Inv(Apply(n, Establish(c), ids))
  {}

  lemma StepKeepsInv(n: Net, step: Step, ids: Ids)
    requires Inv(n) && Enabled(n, step) && Harmless(n, step)
    ensures Inv(Apply(n, step, ids))
  {
    match step
    case Dial(s) => DialKeepsInv(n, s, ids);
    case Offer(c) =>
      var s := Other(n.dialers[c]);
      SetupIsGood(s, n.At(s), n.At(Other(s)), c, ids.Lowest(s), n.dialers, n.established);
      WithKeepsInv(n, s, Apply(n, step, ids).At(s), c);
    case Establish(c) => EstablishKeepsInv(n, c, ids);
    case LoseOffer(c) => LocalStepKeepsInv(n, step, Other(n.dialers[c]), c, ids);
    case Open(s, c) => LocalStepKeepsInv(n, step, s, c, ids);
    case CloseNotice(s, c) => LocalStepKeepsInv(n, step, s, c, ids);
    case Timeout(s, c) => LocalStepKeepsInv(n, step, s, c, ids);
    case Disconnect(s) =>
      if n.At(s).entry.Some? { LocalStepKeepsInv(n, step, s, n.At(s).entry.value.conn, ids); }
    case Forget(s) => LocalStepKeepsInv(n, step, s, n.At(s).entry.value.conn, ids);
    case Drop(s) => LocalStepKeepsInv(n, step, s, n.At(s).entry.value.conn, ids);
  }

  /** The steps that concern one end `s` of one connection `c` and set up nothing. */
  ghost predicate Concerns(n: Net, step: Step, s: Side, c: nat) {
    match step
    case Dial(_) => false
    case Offer(_) => false
    case Establish(_) => false
    case LoseOffer(d) => c == d < |n.dialers| && s == Other(n.dialers[d])
    case Open(t, d) => s == t && c == d
    case CloseNotice(t, d) => s == t && c == d
    case Timeout(t, d) => s == t && c == d
    case Disconnect(t) => s == t && n.At(s).Uses(c)
    case Forget(t) => s == t && n.At(s).Uses(c)
    case Drop(t) => s == t && n.At(s).Uses(c)
  }

  lemma LocalStepKeepsInv(n: Net, step: Step, s: Side, c: nat, ids: Ids)
    requires Inv(n) && Enabled(n, step) && Harmless(n, step) && Concerns(n, step, s, c)
    ensures Inv(Apply(n, step, ids))
  {
    LocalStepIsGood(s, n.At(s), n.At(Other(s)), c, n.dialers, n.established);
    WithKeepsInv(n, s, Apply(n, step, ids).At(s), c);
  }

  lemma {:induction false} RunKeepsInv(n: Net, steps: seq<Step>, ids: Ids)
    requires Inv(n) && Runs(n, steps, ids) && Careful(n, steps, ids)
    ensures Inv(Final(n, steps, ids))
    decreases |steps|
  {
    if steps != [] {
      StepKeepsInv(n, steps[0], ids);
      RunKeepsInv(Apply(n, steps[0], ids), steps[1..], ids);
    }
  }

  // ----- agreement -----

  ghost predicate ConnectedOn(e: Endpoint, c: nat) {
    e.entry.Some? && e.entry.value.status == Connected && e.entry.value.conn == c
  }

  /** The endpoints are not connected on two different connections. */
  ghost predicate Agree(n: Net) {
    forall c: nat, d: nat | ConnectedOn(n.a, c) && ConnectedOn(n.b, d) :: c == d
  }

  /** No offer and no close notice is on its way. */
  ghost predicate NothingInFlight(n: Net)
    requires n.Sane()
  {
    forall c: nat | c < |n.dialers| ::
      n.a.ends[c] != Fresh && n.b.ends[c] != Fresh && (n.a.ends[c] == Up <==> n.b.ends[c] == Up)
  }

  /** The one-sided holdings that a drop leaves: `e` holds none, and dropped what `far` holds. */
  ghost predicate HasDropped(e: Endpoint, far: Endpoint)
    requires e.Sane() && far.Sane()
  {
    e.Held() == None && far.Held().Some? && far.Held().value in e.seen
  }

  /** The two endpoints are never connected on two different connections. Whenever nothing is in flight
      they hold the same connection or both hold none, or else one has dropped what the other holds. */
  lemma EndpointsAgree(steps: seq<Step>, ids: Ids)
    requires Runs(Init, steps, ids) && Careful(Init, steps, ids)
    ensures var n := Final(Init, steps, ids);
            && n.Sane() && Agree(n)
            && (NothingInFlight(n) ==> n.a.Held() == n.b.Held() || HasDropped(n.a, n.b) || HasDropped(n.b, n.a))
  {
    RunKeepsInv(Init, steps, ids);
    var n := Final(Init, steps, ids);
    assert forall c: nat | ConnectedOn(n.a, c) :: n.a.Live(c);
    assert forall c: nat | ConnectedOn(n.b, c) :: n.b.Live(c);
    if NothingInFlight(n) && n.a.Held().Some? {
      assert n.b.ends[n.a.Held().value] == Up && n.a.Live(n.a.Held().value);
    }
    if NothingInFlight(n) && n.b.Held().Some? {
      assert n.a.ends[n.b.Held().value] == Up && n.b.Live(n.b.Held().value);
    }
  }

  /** Every end that is up and was seen to open is in use. */
  ghost predicate NoneLeft(e: Endpoint) {
    forall c: nat | c < |e.ends| && c in e.seen && e.ends[c] == Up :: e.Uses(c)
  }

  lemma SetupLeavesNone(e: Endpoint, c: nat, inbound: bool, lowest: bool)
    requires e.HasFresh(c) && NoneLeft(e) && c !in e.seen
    ensures NoneLeft(e.Setup(c, inbound, lowest))
  {
    hide Rejects;
  }

  lemma FreshLeavesNone(n: Net, s: Side)
    requires Inv(n) && NoneLeft(n.a) && NoneLeft(n.b)
    ensures NoneLeft(Dialing(n, s).a) && NoneLeft(Dialing(n, s).b)
  {}

  lemma LocalLeavesNone(e: Endpoint, c: nat, inbound: bool)
    requires e.Sane() && NoneLeft(e) && c < |e.ends|
    ensures NoneLeft(e.Close(c)) && NoneLeft(e.Noticed(c)) && NoneLeft(e.Disconnected())
    ensures e.Uses(c) ==> NoneLeft(e.Opens(c, inbound))
    ensures e.entry.Some? && e.entry.value.conn !in e.seen ==> NoneLeft(e.(entry := None))
  {}

  lemma StepLeavesNone(n: Net, step: Step, ids: Ids)
    requires Inv(n) && NoneLeft(n.a) && NoneLeft(n.b) && Enabled(n, step) && !step.Drop?
    ensures NoneLeft(Apply(n, step, ids).a) && NoneLeft(Apply(n, step, ids).b)
  {
    hide NoneLeft, Endpoint.Setup, Rejects;
    match step
    case Dial(s) =>
      FreshLeavesNone(n, s);
      SetupLeavesNone(Dialing(n, s).At(s), |n.dialers|, false, ids.Lowest(s));
    case Offer(c) => SetupLeavesNone(n.At(Other(n.dialers[c])), c, true, ids.Lowest(Other(n.dialers[c])));
    case Establish(c) =>
    case LoseOffer(c) => LocalLeavesNone(n.At(Other(n.dialers[c])), c, true);
    case Open(s, c) => LocalLeavesNone(n.At(s), c, n.dialers[c] != s);
    case CloseNotice(s, c) => LocalLeavesNone(n.At(s), c, false);
    case Timeout(s, c) => LocalLeavesNone(n.At(s), c, false);
    case Disconnect(s) => if n.At(s).entry.Some? { LocalLeavesNone(n.At(s), n.At(s).entry.value.conn, false); }
    case Forget(s) => LocalLeavesNone(n.At(s), n.At(s).entry.value.conn, false);
  }

  lemma {:induction false} RunLeavesNone(n: Net, steps: seq<Step>, ids: Ids)
    requires Inv(n) && NoneLeft(n.a) && NoneLeft(n.b) && Runs(n, steps, ids) && Careful(n, steps, ids)
    requires forall i | 0 <= i < |steps| :: !steps[i].Drop?
    ensures Inv(Final(n, steps, ids)) && NoneLeft(Final(n, steps, ids).a) && NoneLeft(Final(n, steps, ids).b)
    decreases |steps|
  {
    hide Inv, NoneLeft, Enabled, Apply, Harmless;
    if steps != [] {
      StepKeepsInv(n, steps[0], ids);
      StepLeavesNone(n, steps[0], ids);
      RunLeavesNone(Apply(n, steps[0], ids), steps[1..], ids);
    }
  }

  /** While no connected entry is dropped, what the endpoints hold is the same whenever nothing is in
      flight. */
  lemma HoldingsAgree(steps: seq<Step>, ids: Ids)
    requires Runs(Init, steps, ids) && Careful(Init, steps, ids)
    requires forall i | 0 <= i < |steps| :: !steps[i].Drop?
    ensures var n := Final(Init, steps, ids);
            n.Sane() && (NothingInFlight(n) ==> n.a.Held() == n.b.Held())
  {
    RunLeavesNone(Init, steps, ids);
    var n := Final(Init, steps, ids);
    if NothingInFlight(n) && n.a.Held().Some? {
      assert n.b.ends[n.a.Held().value] == Up;
    }
    if NothingInFlight(n) && n.b.Held().Some? {
      assert n.a.ends[n.b.Held().value] == Up;
    }
  }

  ghost predicate AllHeld(e: Endpoint) {
    e.Sane() && (e.entry.Some? ==> e.ends[e.entry.value.conn] == Up)
  }

  lemma SetupIsHeld(e: Endpoint, c: nat, inbound: bool, lowest: bool)
    requires e.HasFresh(c) && AllHeld(e)
    ensures AllHeld(e.Setup(c, inbound, lowest))
  {}

  lemma LocalKeepsHeld(e: Endpoint, c: nat, inbound: bool)
    requires AllHeld(e) && c < |e.ends|
    ensures !e.Uses(c) ==> AllHeld(e.Close(c))
    ensures e.ends[c] == Up ==> AllHeld(e.Opens(c, inbound))
    ensures AllHeld(e.Noticed(c)) && AllHeld(e.Disconnected()) && AllHeld(e.(entry := None))
  {}

  lemma StepKeepsHeld(n: Net, step: Step, ids: Ids)
    requires Inv(n) && AllHeld(n.a) && AllHeld(n.b) && Enabled(n, step) && Harmless(n, step) && !step.Timeout?
    ensures AllHeld(Apply(n, step, ids).a) && AllHeld(Apply(n, step, ids).b)
  {
    hide Endpoint.Setup, Rejects, Harmless;
    match step
    case Dial(s) => SetupIsHeld(Dialing(n, s).At(s), |n.dialers|, false, ids.Lowest(s));
    case Offer(c) => SetupIsHeld(n.At(Other(n.dialers[c])), c, true, ids.Lowest(Other(n.dialers[c])));
    case LoseOffer(c) =>
      hide AllHeld;
      LocalKeepsHeld(n.At(Other(n.dialers[c])), c, true);
    case Establish(c) =>
    case Open(s, c) =>
      hide AllHeld;
      LocalKeepsHeld(n.At(s), c, n.dialers[c] != s);
    case CloseNotice(s, c) =>
      hide AllHeld;
      LocalKeepsHeld(n.At(s), c, false);
    case Disconnect(s) =>
      hide Inv;
    case Forget(s) =>
      hide Inv;
    case Drop(s) =>
      hide Inv;
  }

  /** Without timeouts every entry is held, so then it is the entries themselves that agree. */
  lemma {:induction false} EntriesAreHeld(n: Net, steps: seq<Step>, ids: Ids)
    requires Inv(n) && AllHeld(n.a) && AllHeld(n.b) && Runs(n, steps, ids) && Careful(n, steps, ids)
    requires forall i | 0 <= i < |steps| :: !steps[i].Timeout?
    ensures AllHeld(Final(n, steps, ids).a) && AllHeld(Final(n, steps, ids).b)
    decreases |steps|
  {
    if steps != [] {
      StepKeepsInv(n, steps[0], ids);
      StepKeepsHeld(n, steps[0], ids);
      EntriesAreHeld(Apply(n, steps[0], ids), steps[1..], ids);
    }
  }

  // ----- which retry deletes are safe -----

  lemma {:induction false} RunAppend(n: Net, a: seq<Step>, b: seq<Step>, ids: Ids)
    requires Runs(n, a, ids) && Runs(Final(n, a, ids), b, ids)
    ensures Runs(n, a + b, ids) && Final(n, a + b, ids) == Final(Final(n, a, ids), b, ids)
    decreases |a|
  {
    if a == [] {
      assert a + b == b;
    } else {
      RunAppend(Apply(n, a[0], ids), a[1..], b, ids);
      assert (a + b)[0] == a[0] && (a + b)[1..] == a[1..] + b;
    }
  }

  /** One more step at the end of a run without retry deletes. */
  lemma Then(n: Net, steps: seq<Step>, step: Step, ids: Ids) returns (longer: seq<Step>)
    requires Runs(n, steps, ids) && NoForget(steps)
    requires Enabled(Final(n, steps, ids), step) && !step.Forget?
    ensures longer == steps + [step] && Runs(n, longer, ids) && NoForget(longer)
    ensures Final(n, longer, ids) == Apply(Final(n, steps, ids), step, ids)
  {
    hide Enabled, Apply;
    longer := steps + [step];
    var m := Final(n, steps, ids);
    assert Final(m, [step], ids) == Apply(m, step, ids) by { assert [step][1..] == []; }
    RunAppend(n, steps, [step], ids);
  }

  lemma NoSteps(n: Net, ids: Ids)
    ensures Runs(n, [], ids) && NoForget([]) && Final(n, [], ids) == n
  {}

  ghost predicate NoForget(steps: seq<Step>) {
    forall i | 0 <= i < |steps| :: !steps[i].Forget?
  }

  lemma {:induction false} NoForgetIsCareful(n: Net, steps: seq<Step>, ids: Ids)
    requires Runs(n, steps, ids) && NoForget(steps)
    ensures Careful(n, steps, ids)
    decreases |steps|
  {
    hide Apply;
    if steps != [] { NoForgetIsCareful(Apply(n, steps[0], ids), steps[1..], ids); }
  }

  /** While `s` has no entry and has yet to hear that the established connection `c` is open, the other
      end can get connected on a new dial of its own, and `s` on `c`. */
  lemma LooseSplits(n: Net, s: Side, c: nat, ids: Ids) returns (steps: seq<Step>)
    requires n.Sane() && n.At(s).entry == None && c < |n.dialers|
    requires c in n.established && n.At(s).ends[c] == Up && c !in n.At(s).seen
    requires |n.dialers| !in n.At(Other(s)).seen
    ensures Runs(n, steps, ids) && NoForget(steps) && !Agree(Final(n, steps, ids))
  {
    hide Runs, Final, NoForget;
    var far, d := Other(s), |n.dialers|;
    NoSteps(n, ids);
    steps := Then(n, [], Disconnect(far), ids);
    steps := Then(n, steps, Dial(far), ids);
    steps := Then(n, steps, Offer(d), ids);
    steps := Then(n, steps, Establish(d), ids);
    steps := Then(n, steps, Open(far, d), ids);
    steps := Then(n, steps, Open(s, c), ids);
    var m := Final(n, steps, ids);
    assert ConnectedOn(m.At(far), d) && ConnectedOn(m.At(s), c);
  }

  /** After a retry delete that is not harmless, the dropped connection can come up and be loose. */
  lemma ForgottenIsLoose(n: Net, s: Side, ids: Ids) returns (steps: seq<Step>)
    requires Inv(n) && Enabled(n, Forget(s)) && !Harmless(n, Forget(s))
    ensures var m, c := Apply(n, Forget(s), ids), n.At(s).entry.value.conn;
            && Runs(m, steps, ids) && NoForget(steps)
            && var k := Final(m, steps, ids);
               && k.Sane() && k.At(s).entry == None && c < |k.dialers|
               && c in k.established && k.At(s).ends[c] == Up && c !in k.At(s).seen
               && |k.dialers| !in k.At(Other(s)).seen
  {
    hide Runs, Final, NoForget;
    var m, c, far := Apply(n, Forget(s), ids), n.At(s).entry.value.conn, Other(s);
    NoSteps(m, ids);
    steps := [];
    if c !in n.established {
      if n.At(far).ends[c] == Fresh {
        steps := Then(m, steps, Disconnect(far), ids);
        steps := Then(m, steps, Offer(c), ids);
      }
      steps := Then(m, steps, Establish(c), ids);
    }
  }

  lemma HarmfulForgetSplits(n: Net, s: Side, ids: Ids) returns (steps: seq<Step>)
    requires Inv(n) && Enabled(n, Forget(s)) && !Harmless(n, Forget(s))
    ensures var m := Apply(n, Forget(s), ids);
            Runs(m, steps, ids) && NoForget(steps) && !Agree(Final(m, steps, ids))
  {
    hide Inv, Harmless, Apply, Agree;
    var m := Apply(n, Forget(s), ids);
    var first := ForgottenIsLoose(n, s, ids);
    var second := LooseSplits(Final(m, first, ids), s, n.At(s).entry.value.conn, ids);
    RunAppend(m, first, second, ids);
    steps := first + second;
  }

  /** Exactly the harmless retry deletes are safe. After a harmless one the endpoints agree however the
      run goes on; after any other they can get connected on two different connections, even without
      another retry delete. */
  lemma RetryDeleteIsSafeIff(before: seq<Step>, s: Side, ids: Ids)
    requires Runs(Init, before, ids) && Careful(Init, before, ids)
    requires Enabled(Final(Init, before, ids), Forget(s))
    ensures var n := Final(Init, before, ids);
            var m := Apply(n, Forget(s), ids);
            && (Harmless(n, Forget(s)) ==>
                  forall after | Runs(m, after, ids) && Careful(m, after, ids) :: Agree(Final(m, after, ids)))
            && (!Harmless(n, Forget(s)) ==>
                  exists after :: Runs(m, after, ids) && NoForget(after) && !Agree(Final(m, after, ids)))
  {
    hide Harmless, Enabled, Apply;
    RunKeepsInv(Init, before, ids);
    var n := Final(Init, before, ids);
    var m := Apply(n, Forget(s), ids);
    if Harmless(n, Forget(s)) {
      StepKeepsInv(n, Forget(s), ids);
      forall after | Runs(m, after, ids) && Careful(m, after, ids) ensures Agree(Final(m, after, ids)) {
        RunKeepsInv(m, after, ids);
      }
    } else {
      var after := HarmfulForgetSplits(n, s, ids);
    }
  }

  /** Such a delete does occur, at either end: the retry loop forgets an inbound connection that is about
      to come up. */
  lemma ForgettingBreaksAgreement(s: Side, ids: Ids) returns (after: seq<Step>)
    ensures var steps := [Dial(Other(s)), Offer(0), Forget(s)] + after;
            Runs(Init, steps, ids) && NoForget(after) && !Agree(Final(Init, steps, ids))
  {
    var before := Then(Init, [], Dial(Other(s)), ids);
    before := Then(Init, before, Offer(0), ids);
    var n := Final(Init, before, ids);
    NoForgetIsCareful(Init, before, ids);
    RunKeepsInv(Init, before, ids);
    after := HarmfulForgetSplits(n, s, ids);
    assert Final(n, [Forget(s)], ids) == Apply(n, Forget(s), ids) by { assert [Forget(s)][1..] == []; }
    RunAppend(Init, before, [Forget(s)], ids);
    RunAppend(Init, before + [Forget(s)], after, ids);
    assert before + [Forget(s)] == [Dial(Other(s)), Offer(0), Forget(s)];
  }

  /** Dropping a connected entry without closing it, at either end, can leave the other end connected on its
      own with nothing in flight. */
  lemma DropLeavesFarEnd(s: Side, ids: Ids) returns (steps: seq<Step>)
    ensures Runs(Init, steps, ids) && NoForget(steps)
    ensures var n := Final(Init, steps, ids);
            n.Sane() && NothingInFlight(n) && n.At(s).entry == None && ConnectedOn(n.At(Other(s)), 0)
  {
    hide Runs, Final, NoForget;
    NoSteps(Init, ids);
    steps := Then(Init, [], Dial(s), ids);
    steps := Then(Init, steps, Offer(0), ids);
    steps := Then(Init, steps, Establish(0), ids);
    steps := Then(Init, steps, Open(s, 0), ids);
    steps := Then(Init, steps, Open(Other(s), 0), ids);
    steps := Then(Init, steps, Drop(s), ids);
  }

  // ----- glare -----

  /** A glare that `low` takes part in. `connect` dials again only after its last dial has failed, so no
      endpoint has two live dials. Nothing comes up before `low` has dialed, `low` does not give up, and
      nobody disconnects or drops a connected entry. Offers may overtake each other. */
  ghost predicate GlareStep(n: Net, step: Step, low: Side)
    requires Enabled(n, step)
  {
    match step
    case Dial(s) => forall c: nat | c < |n.dialers| && n.dialers[c] == s :: n.At(s).ends[c] != Up
    case Establish(_) => low in n.dialers
    case Timeout(s, _) => s != low
    case Disconnect(_) => false
    case Drop(_) => false
    case Forget(_) => Harmless(n, step)
    case _ => true
  }

  ghost predicate GlareRun(n: Net, steps: seq<Step>, low: Side, ids: Ids)
    requires Runs(n, steps, ids)
    decreases |steps|
  {
    steps == [] || (GlareStep(n, steps[0], low) && GlareRun(Apply(n, steps[0], ids), steps[1..], low, ids))
  }

  /** `f` is the one connection that `s` dialed. */
  ghost predicate OnlyDial(n: Net, s: Side, f: nat) {
    f < |n.dialers| && forall c: nat | c < |n.dialers| :: n.dialers[c] == s <==> c == f
  }

  /** `low` holds its dial `f`; the other end holds it too, or its offer is still on the way and the
      other end holds at most a dial of its own. Nothing else comes up. */
  ghost predicate LowPrevails(n: Net, low: Side, f: nat) {
    && Inv(n) && n.established <= {f} && OnlyDial(n, low, f)
    && n.At(low).entry.Some? && n.At(low).entry.value.conn == f && n.At(low).ends[f] == Up
    && n.At(Other(low)).ends[f] != Down && (n.At(Other(low)).ends[f] == Up ==> n.At(Other(low)).Uses(f))
  }

  ghost predicate Ranked(low: Side, ids: Ids) {
    ids.Lowest(low) && !ids.Lowest(Other(low))
  }

  lemma DialKeepsPrevailing(n: Net, low: Side, f: nat, s: Side, ids: Ids)
    requires LowPrevails(n, low, f) && GlareStep(n, Dial(s), low) && Ranked(low, ids)
    ensures LowPrevails(Apply(n, Dial(s), ids), low, f)
  {
    DialKeepsInv(n, s, ids);
    assert s == Other(low);
    assert n.At(s).entry.Some? ==> n.At(s).entry.value.inbound == (n.At(s).entry.value.conn == f);
  }

  lemma OfferKeepsPrevailing(n: Net, low: Side, f: nat, c: nat, ids: Ids)
    requires LowPrevails(n, low, f) && Enabled(n, Offer(c)) && Ranked(low, ids)
    ensures LowPrevails(Apply(n, Offer(c), ids), low, f)
  {
    StepKeepsInv(n, Offer(c), ids);
  }

  lemma OpeningKeepsPrevailing(n: Net, low: Side, f: nat, step: Step, ids: Ids)
    requires LowPrevails(n, low, f) && Enabled(n, step) && (step.Establish? || step.Open?)
    ensures LowPrevails(Apply(n, step, ids), low, f)
  {
    hide Endpoint.Setup, Rejects, Harmless;
    StepKeepsInv(n, step, ids);
  }

  lemma ClosingKeepsPrevailing(n: Net, low: Side, f: nat, step: Step, ids: Ids)
    requires LowPrevails(n, low, f) && Enabled(n, step) && GlareStep(n, step, low)
    requires step.LoseOffer? || step.CloseNotice? || step.Timeout? || step.Forget?
    ensures LowPrevails(Apply(n, step, ids), low, f)
  {
    hide Inv, Endpoint.Setup, Endpoint.Opens, Rejects;
    StepKeepsInv(n, step, ids);
  }

  lemma GlareStepKeepsPrevailing(n: Net, low: Side, f: nat, step: Step, ids: Ids)
    requires LowPrevails(n, low, f) && Enabled(n, step) && GlareStep(n, step, low) && Ranked(low, ids)
    ensures LowPrevails(Apply(n, step, ids), low, f)
  {
    hide LowPrevails, Apply, Enabled;
    match step
    case Dial(s) => DialKeepsPrevailing(n, low, f, s, ids);
    case Offer(c) => OfferKeepsPrevailing(n, low, f, c, ids);
    case Establish(c) => OpeningKeepsPrevailing(n, low, f, step, ids);
    case Open(s, c) => OpeningKeepsPrevailing(n, low, f, step, ids);
    case _ => ClosingKeepsPrevailing(n, low, f, step, ids);
  }

  ghost predicate LowIsSilent(n: Net, low: Side) {
    Inv(n) && n.established == {} && low !in n.dialers
  }

  lemma FirstDialPrevails(n: Net, low: Side, ids: Ids)
    requires LowIsSilent(n, low) && Ranked(low, ids)
    ensures LowPrevails(Apply(n, Dial(low), ids), low, |n.dialers|)
  {
    DialKeepsInv(n, low, ids);
  }

  lemma StaysSilent(n: Net, low: Side, step: Step, ids: Ids)
    requires LowIsSilent(n, low) && Enabled(n, step) && GlareStep(n, step, low) && step != Dial(low)
    ensures LowIsSilent(Apply(n, step, ids), low)
  {
    StepKeepsInv(n, step, ids);
  }

  lemma {:induction false} PrevailingRun(n: Net, low: Side, f: nat, steps: seq<Step>, ids: Ids)
    requires LowPrevails(n, low, f) && Runs(n, steps, ids) && GlareRun(n, steps, low, ids) && Ranked(low, ids)
    ensures LowPrevails(Final(n, steps, ids), low, f)
    decreases |steps|
  {
    hide LowPrevails, Apply, Enabled, GlareStep;
    if steps != [] {
      GlareStepKeepsPrevailing(n, low, f, steps[0], ids);
      PrevailingRun(Apply(n, steps[0], ids), low, f, steps[1..], ids);
    }
  }

  lemma {:induction false} SilentRun(n: Net, low: Side, steps: seq<Step>, ids: Ids) returns (f: nat)
    requires LowIsSilent(n, low) && Runs(n, steps, ids) && GlareRun(n, steps, low, ids) && Ranked(low, ids)
    requires Dial(low) in steps
    ensures LowPrevails(Final(n, steps, ids), low, f)
    decreases |steps|
  {
    hide LowPrevails, LowIsSilent, Apply, Enabled, GlareStep;
    if steps[0] == Dial(low) {
      FirstDialPrevails(n, low, ids);
      f := |n.dialers|;
      PrevailingRun(Apply(n, steps[0], ids), low, f, steps[1..], ids);
    } else {
      StaysSilent(n, low, steps[0], ids);
      assert steps == [steps[0]] + steps[1..];
      f := SilentRun(Apply(n, steps[0], ids), low, steps[1..], ids);
    }
  }

  // ----- who makes way for whom -----

  /** The new connection that a step sets up, and where. */
  function SetUp(n: Net, step: Step): (nat, Side)
    requires Enabled(n, step) && (step.Dial? || step.Offer?)
  {
    if step.Dial? then (|n.dialers|, step.s) else (step.c, Other(n.dialers[step.c]))
  }

  /** When a connection is set up, a connected entry stays, and a connecting one makes way exactly when the new
      connection was dialed by the lower id and it was not. One of the two is closed, and the other is the entry
      and as open as it was. */
  lemma LowerDialMakesWay(n: Net, step: Step, ids: Ids)
    requires n.Sane() && Enabled(n, step) && (step.Dial? || step.Offer?) && ids.a != ids.b
    ensures var (c, s) := SetUp(n, step);
            var m := Apply(n, step, ids);
            var before, e := n.At(s), m.At(s);
            var wins := before.entry.Some? ==>
                          var Entry(_, status, inbound) := before.entry.value;
                          status == Connecting && Less(ids.Of(m.dialers[c]), ids.Of(if inbound then Other(s) else s));
            && e.entry == (if wins then Some(Entry(c, Connecting, step.Offer?)) else before.entry)
            && e.ends[c] == (if wins then Up else Down)
            && forall d: nat | d < |before.ends| && d != c ::
                 e.ends[d] == if wins && before.Uses(d) then Down else before.ends[d]
  {
    LessIsTotal(ids.a, ids.b);
    LessIsTotal(ids.b, ids.a);
  }

  function LowerSide(ids: Ids): Side {
    if Less(ids.a, ids.b) then A else B
  }

  /** A glare in which the endpoint with the lower id has dialed before anything came up: its dial
      survives there, and the other end holds it too from the moment its offer arrives, in whatever order
      offers arrive. Nobody gets connected on anything else. */
  lemma LowerIdWinsGlare(steps: seq<Step>, ids: Ids) returns (f: nat)
    requires ids.a != ids.b && Runs(Init, steps, ids) && GlareRun(Init, steps, LowerSide(ids), ids)
    requires Dial(LowerSide(ids)) in steps
    ensures var n, low := Final(Init, steps, ids), LowerSide(ids);
            && n.Sane() && OnlyDial(n, low, f)
            && n.At(low).Held() == Some(f)
            && (n.At(Other(low)).ends[f] != Fresh ==> n.At(Other(low)).Held() == Some(f))
            && (forall s: Side, c: nat | ConnectedOn(n.At(s), c) :: c == f)
  {
    LessIsTotal(ids.a, ids.b);
    f := SilentRun(Init, LowerSide(ids), steps, ids);
  }
}
