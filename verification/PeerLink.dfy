/** The connection-table entry of the peer transport and the rule that decides between two
    connections to one peer. Shared by the single endpoint and by the two-endpoint protocol. */
module PeerLink {

  datatype Option<+T> = None | Some(value: T)

  datatype Status = Connecting | Connected

  /** One entry of the `connections` map; connections are numbered. */
  datatype Entry = Entry(conn: nat, status: Status, inbound: bool)

  /** JavaScript's `<` on strings. */
  predicate Less(a: string, b: string) {
    b != "" && (a == "" || a[0] < b[0] || (a[0] == b[0] && Less(a[1..], b[1..])))
  }

  /** Of two distinct ids exactly one is the lower, so the two ends of a glare agree on it. */
  lemma {:induction false} LessIsTotal(a: string, b: string)
    ensures a != b ==> (Less(a, b) <==> !Less(b, a))
    ensures !Less(a, a)
  {
    if a != "" {
      LessIsTotal(a[1..], if b == "" then "" else b[1..]);
      if b != "" && a[0] == b[0] && a[1..] == b[1..] {
        assert a == [a[0]] + a[1..] == b;
      }
    }
  }

  /** Whether a new connection is turned away in favour of the existing entry. `weAreLowest` is
      absent while this endpoint has no id yet. */
  predicate Rejects(existing: Option<Entry>, inbound: bool, weAreLowest: Option<bool>) {
    && existing.Some?
    && match existing.value.status
       case Connected => true
       case Connecting =>
         weAreLowest.Some? &&
         (existing.value.inbound != inbound ==> (if inbound then weAreLowest.value else !weAreLowest.value))
  }

  /** Who dialed a connection between `me` and `peer`. */
  function Dialer(inbound: bool, me: string, peer: string): string {
    if inbound then peer else me
  }

  /** Between two connecting ones the newcomer wins exactly when its dialer has the lower id; of two that
      go in the same direction the first one stays. */
  lemma NewcomerWinsIff(existing: Entry, inbound: bool, me: string, peer: string)
    requires existing.status == Connecting && me != peer
    ensures !Rejects(Some(existing), inbound, Some(Less(me, peer))) <==>
              Less(Dialer(inbound, me, peer), Dialer(existing.inbound, me, peer))
    ensures existing.inbound == inbound ==> Rejects(Some(existing), inbound, Some(Less(me, peer)))
  {
    LessIsTotal(me, peer);
    LessIsTotal(peer, me);
  }

  // ----- the entry of a peer after each event -----

  /** After `_setupConnection` for the new connection `c`. */
  function AfterSetup(existing: Option<Entry>, c: nat, inbound: bool, weAreLowest: Option<bool>): Option<Entry> {
    if Rejects(existing, inbound, weAreLowest) then existing else Some(Entry(c, Connecting, inbound))
  }

  /** After the first `open` event of `c`. */
  function AfterOpen(existing: Option<Entry>, c: nat, inbound: bool): Option<Entry> {
    if existing.Some? && existing.value.conn != c && existing.value.status == Connected then existing
    else Some(Entry(c, Connected, inbound))
  }

  /** After the close or error event of `c`. */
  function AfterClose(existing: Option<Entry>, c: nat): Option<Entry> {
    if existing.Some? && existing.value.conn == c then None else existing
  }
}
