/** The buffered decode loop that turns the bytes of a socket into messages, pongs and a close. */
module WsDecoder {
  import opened WsFrame

  /** What the loop does for a frame: call the message listeners, write a pong, or close. */
  datatype Event = Message(payload: seq<byte>) | Pong(frame: seq<byte>) | Closed

  /** The outcome of one `data` event; `closed` says the handler returned at a Close frame. */
  datatype Drained = Drained(events: seq<Event>, rest: seq<byte>, closed: bool)

  const CLOSE: byte := 8
  const PING: byte := 9
  const PONG: byte := 10

  function EventsOf(payload: seq<byte>, opcode: nat): seq<Event> {
    if opcode == CLOSE then [Closed]
    else if opcode == PING then [Pong(Encode(payload, PONG))]
    else if opcode == 1 || opcode == 2 then [Message(payload)]
    else []
  }

  /** The same outcome with earlier events in front. */
  function After(earlier: seq<Event>, d: Drained): Drained {
    d.(events := earlier + d.events)
  }

  lemma AfterAfter(a: seq<Event>, b: seq<Event>, d: Drained)
    ensures After(a, After(b, d)) == After(a + b, d)
  {
    assert a + (b + d.events) == a + b + d.events;
  }

  function Drain(buffer: seq<byte>): Drained
    decreases |buffer|
  {
    var frame := Parse(buffer);
    if frame.None? then Drained([], buffer, false)
    else
      var Frame(payload, consumed, opcode) := frame.value;
      var rest, now := buffer[consumed..], EventsOf(payload, opcode);
      if opcode == CLOSE then Drained(now, rest, true)
      else After(now, Drain(rest))
  }

  class SocketReader {
    var buffer: seq<byte>

    constructor ()
      ensures buffer == []
    {
      buffer := [];
    }

    /** The `data` handler. */
    method OnData(chunk: seq<byte>) returns (events: seq<Event>, closed: bool)
      modifies this
      ensures Drained(events, buffer, closed) == Drain(old(buffer) + chunk)
    {
      hide Parse, Encode;
      buffer := buffer + chunk;
      events, closed := [], false;
      ghost var goal := Drain(buffer);
      while |buffer| >= 2
        invariant !closed
        invariant goal == After(events, Drain(buffer))
        decreases |buffer|
      {
        var result := ParseWSFrame(buffer);
        if result.None? { break; }
        var Frame(payload, bytesConsumed, opcode) := result.value;
        ghost var before, now := events, EventsOf(payload, opcode);
        AfterAfter(before, now, Drain(buffer[bytesConsumed..]));
        buffer := buffer[bytesConsumed..];
        if opcode == CLOSE {
          events, closed := events + [Closed], true;
          return;
        }
        if opcode == PING {
          var pong := CreateWSFrame(payload, PONG);
          events := events + [Pong(pong)];
        } else if opcode == 1 || opcode == 2 {
          events := events + [Message(payload)];
        }
        assert events == before + now;
      }
      assert Drain(buffer) == Drained([], buffer, false) by { if |buffer| < 2 { ShortIsIncomplete(buffer); } }
    }
  }

  // ----- chunking does not matter -----

  lemma ShortIsIncomplete(b: seq<byte>)
    requires |b| < 2
    ensures Parse(b) == None
  {}

  /** Appending bytes only continues the decoding where it stopped. */
  lemma {:induction false} DrainAppend(b: seq<byte>, more: seq<byte>)
    ensures var d := Drain(b);
            Drain(b + more) == if d.closed then d.(rest := d.rest + more) else After(d.events, Drain(d.rest + more))
    ensures !Drain(b).closed ==> Parse(Drain(b).rest).None?
    decreases |b|
  {
    hide Parse, Encode, EventsOf;
    if Parse(b).Some? {
      ParseStable(b, more);
      var f := Parse(b).value;
      var rest, now := b[f.consumed..], EventsOf(f.payload, f.opcode);
      assert (b + more)[f.consumed..] == rest + more;
      if f.opcode != CLOSE {
        DrainAppend(rest, more);
        AfterAfter(now, Drain(rest).events, Drain(Drain(rest).rest + more));
      }
    }
  }

  /** The events and the final buffer of a reader that gets `chunks` one by one. */
  ghost function Feed(buffer: seq<byte>, chunks: seq<seq<byte>>): (seq<Event>, seq<byte>)
    decreases |chunks|
  {
    if chunks == [] then ([], buffer)
    else
      var d := Drain(buffer + chunks[0]);
      var (events, rest) := Feed(d.rest, chunks[1..]);
      (d.events + events, rest)
  }

  ghost function Flatten<T>(chunks: seq<seq<T>>): seq<T> {
    if chunks == [] then [] else chunks[0] + Flatten(chunks[1..])
  }

  /** The events up to and including the first Close. */
  ghost function UpToClose(events: seq<Event>): seq<Event> {
    if events == [] then []
    else if events[0] == Closed then [Closed]
    else [events[0]] + UpToClose(events[1..])
  }

  lemma ClosedLater(events: seq<Event>)
    requires events != [] && events[0] != Closed
    ensures Closed in events <==> Closed in events[1..]
  {
    assert events == [events[0]] + events[1..];
  }

  lemma {:induction false} UpToCloseStops(a: seq<Event>, b: seq<Event>)
    requires Closed in a
    ensures UpToClose(a + b) == UpToClose(a)
  {
    assert (a + b)[0] == a[0] && (a + b)[1..] == a[1..] + b;
    if a[0] != Closed {
      ClosedLater(a);
      UpToCloseStops(a[1..], b);
    }
  }

  lemma {:induction false} UpToCloseGoesOn(a: seq<Event>, b: seq<Event>)
    requires Closed !in a
    ensures UpToClose(a + b) == a + UpToClose(b)
  {
    if a == [] {
      assert a + b == b;
    } else {
      ClosedLater(a);
      UpToCloseGoesOn(a[1..], b);
      assert (a + b)[0] == a[0] && (a + b)[1..] == a[1..] + b;
    }
  }

  lemma UpToCloseAppend(a: seq<Event>, b: seq<Event>)
    ensures UpToClose(a + b) == if Closed in a then UpToClose(a) else a + UpToClose(b)
  {
    hide UpToClose;
    if Closed in a { UpToCloseStops(a, b); } else { UpToCloseGoesOn(a, b); }
  }

  /** A drain reports at most one Close, as its last event, exactly when it stopped there. */
  lemma {:induction false} DrainClosesLast(b: seq<byte>)
    ensures Closed in Drain(b).events <==> Drain(b).closed
    ensures UpToClose(Drain(b).events) == Drain(b).events
    decreases |b|
  {
    hide Parse, Encode;
    if Parse(b).Some? {
      var f := Parse(b).value;
      var now, later := EventsOf(f.payload, f.opcode), Drain(b[f.consumed..]);
      if f.opcode != CLOSE {
        DrainClosesLast(b[f.consumed..]);
        UpToCloseAppend(now, later.events);
      }
    }
  }

  lemma {:induction false} FeedIsDrain(buffer: seq<byte>, chunks: seq<seq<byte>>)
    requires Parse(buffer).None?
    ensures var whole := Drain(buffer + Flatten(chunks));
            && UpToClose(Feed(buffer, chunks).0) == whole.events
            && (!whole.closed ==> Feed(buffer, chunks) == (whole.events, whole.rest))
    decreases |chunks|
  {
    hide Parse, Encode;
    if chunks == [] {
      assert buffer + Flatten(chunks) == buffer;
    } else {
      var first, others := buffer + chunks[0], Flatten(chunks[1..]);
      assert buffer + Flatten(chunks) == first + others;
      DrainAppend(first, others);
      DrainClosesLast(first);
      var d := Drain(first);
      UpToCloseAppend(d.events, Feed(d.rest, chunks[1..]).0);
      if !d.closed {
        FeedIsDrain(d.rest, chunks[1..]);
      }
    }
  }

  /** Two ways of cutting the same byte stream into `data` events give the same events up to the
      first Close; without a Close they give the same events and the same leftover buffer. */
  lemma ChunkingIsIrrelevant(a: seq<seq<byte>>, b: seq<seq<byte>>)
    requires Flatten(a) == Flatten(b)
    ensures UpToClose(Feed([], a).0) == UpToClose(Feed([], b).0)
    ensures Closed in Feed([], a).0 <==> Closed in Feed([], b).0
    ensures Closed !in Feed([], a).0 ==> Feed([], a) == Feed([], b)
  {
    FeedIsDrain([], a);
    FeedIsDrain([], b);
    assert [] + Flatten(a) == [] + Flatten(b);
    DrainClosesLast([] + Flatten(a));
    UpToCloseHasClose(Feed([], a).0);
    UpToCloseHasClose(Feed([], b).0);
  }

  lemma {:induction false} UpToCloseHasClose(events: seq<Event>)
    ensures Closed in events <==> Closed in UpToClose(events)
  {
    if events != [] {
      UpToCloseHasClose(events[1..]);
      assert events == [events[0]] + events[1..];
    }
  }

  // ----- when chunking matters -----

  /** While the bytes do not make up a frame, nothing is reported and all of them stay. */
  lemma {:induction false} FeedWaits(buffer: seq<byte>, chunks: seq<seq<byte>>)
    requires Parse(buffer + Flatten(chunks)).None?
    ensures Feed(buffer, chunks) == ([], buffer + Flatten(chunks))
    decreases |chunks|
  {
    hide Parse, Encode;
    if chunks == [] {
      assert buffer + Flatten(chunks) == buffer;
    } else {
      var first, others := buffer + chunks[0], Flatten(chunks[1..]);
      assert buffer + Flatten(chunks) == first + others;
      if Parse(first).Some? { ParseStable(first, others); }
      FeedWaits(first, chunks[1..]);
      assert Drain(first) == Drained([], first, false);
      assert [] + Feed(first, chunks[1..]).0 == [];
    }
  }

  /** When no complete frame follows the first Close, every cutting reports what the whole stream does. */
  lemma {:induction false} FeedIsDrainIfQuiet(buffer: seq<byte>, chunks: seq<seq<byte>>)
    requires Parse(buffer).None?
    requires Parse(Drain(buffer + Flatten(chunks)).rest).None?
    ensures var whole := Drain(buffer + Flatten(chunks));
            Feed(buffer, chunks) == (whole.events, whole.rest)
    decreases |chunks|
  {
    hide Parse, Encode;
    if chunks == [] {
      assert buffer + Flatten(chunks) == buffer;
    } else {
      var first, others := buffer + chunks[0], Flatten(chunks[1..]);
      assert buffer + Flatten(chunks) == first + others;
      DrainAppend(first, others);
      var d := Drain(first);
      if d.closed {
        FeedWaits(d.rest, chunks[1..]);
        assert d.events + [] == d.events;
      } else {
        FeedIsDrainIfQuiet(d.rest, chunks[1..]);
      }
    }
  }

  /** The bytes up to and including the first Close end with it. */
  lemma {:induction false} DrainToClose(b: seq<byte>)
    requires Drain(b).closed
    ensures var d := Drain(b);
            && |d.rest| <= |b| && b[|b| - |d.rest|..] == d.rest
            && Drain(b[..|b| - |d.rest|]) == Drained(d.events, [], true)
    decreases |b|
  {
    hide Parse, Encode, EventsOf;
    var f := Parse(b).value;
    FrameParsesAlone(b);
    if f.opcode == CLOSE {
      assert b[..f.consumed][f.consumed..] == [];
    } else {
      var later := b[f.consumed..];
      DrainToClose(later);
      var n := |later| - |Drain(later).rest|;
      ParseStable(b[..f.consumed], later[..n]);
      assert b[..f.consumed + n] == b[..f.consumed] + later[..n];
      assert b[..f.consumed + n][f.consumed..] == later[..n];
    }
  }

  /** A complete frame is taken out of the buffer. */
  lemma {:induction false} DrainShrinks(b: seq<byte>)
    ensures |Drain(b).rest| <= |b|
    ensures Parse(b).Some? ==> |Drain(b).rest| < |b|
    decreases |b|
  {
    hide Parse, Encode, EventsOf;
    if Parse(b).Some? { DrainShrinks(b[Parse(b).value.consumed..]); }
  }

  lemma FeedOne(b: seq<byte>)
    ensures Flatten([b]) == b && Feed([], [b]) == (Drain(b).events, Drain(b).rest)
  {
    hide Drain;
    var chunks: seq<seq<byte>> := [b];
    assert chunks[1..] == [] && [] + b == b + [] == b;
    assert Drain(b).events + [] == Drain(b).events;
  }

  lemma FeedTwo(a: seq<byte>, b: seq<byte>)
    ensures var first := Drain(a);
            var second := Drain(first.rest + b);
            && Flatten([a, b]) == a + b
            && Feed([], [a, b]) == (first.events + second.events, second.rest)
  {
    hide Drain;
    var chunks: seq<seq<byte>>, last: seq<seq<byte>> := [a, b], [b];
    assert chunks[1..] == last && last[1..] == [] && [] + a == a;
    assert Flatten(last) == b by { assert b + [] == b; }
    var first, second := Drain(a), Drain(Drain(a).rest + b);
    assert Feed(first.rest, last) == (second.events, second.rest) by { assert second.events + [] == second.events; }
    assert Feed([], chunks) == (first.events + second.events, second.rest);
  }

  /** Cut right behind the Close, the stream goes on being read; in one piece, it does not. */
  lemma CutBehindClose(s: seq<byte>) returns (a: seq<byte>, b: seq<byte>)
    requires Drain(s).closed && Parse(Drain(s).rest).Some?
    ensures b == Drain(s).rest && s == a + b
    ensures Flatten([s]) == Flatten([a, b]) == s && Feed([], [s]) != Feed([], [a, b])
  {
    hide Parse, Encode, Drain, Feed, Flatten;
    DrainToClose(s);
    var n := |s| - |Drain(s).rest|;
    a, b := s[..n], s[n..];
    FeedOne(s);
    FeedTwo(a, b);
    DrainShrinks(b);
    assert Drain(a).rest + b == b;
    assert Feed([], [a, b]).1 == Drain(b).rest;
  }

  /** Exactly when no complete frame follows the first Close in a byte stream, it does not matter how the
      stream is cut into `data` events. */
  lemma ChunkingIsIrrelevantIff(s: seq<byte>)
    ensures (Drain(s).closed ==> Parse(Drain(s).rest).None?) <==>
              forall a: seq<seq<byte>>, b: seq<seq<byte>> | Flatten(a) == s && Flatten(b) == s ::
                Feed([], a) == Feed([], b)
    ensures (Drain(s).closed ==> Parse(Drain(s).rest).None?) ==>
              forall a: seq<seq<byte>> | Flatten(a) == s :: Feed([], a) == (Drain(s).events, Drain(s).rest)
  {
    hide Parse, Encode, Feed, Drain, Flatten;
    DrainAppend(s, []);
    ShortIsIncomplete([]);
    if Drain(s).closed ==> Parse(Drain(s).rest).None? {
      forall a: seq<seq<byte>> | Flatten(a) == s ensures Feed([], a) == (Drain(s).events, Drain(s).rest) {
        assert [] + Flatten(a) == s;
        FeedIsDrainIfQuiet([], a);
      }
    } else {
      var a, b := CutBehindClose(s);
    }
  }

  /** After a Close the cut does show: what is left in the buffer is read at the next event. */
  lemma ChunkingMattersAfterClose(payload: seq<byte>)
    requires |payload| < SAFE_INTEGER
    ensures var close, text := Encode([], CLOSE), Encode(payload, 1);
            && Flatten([close + text]) == Flatten([close, text])
            && Feed([], [close + text]).0 == [Closed]
            && Feed([], [close, text]).0 == [Closed, Message(payload)]
  {
    hide Parse, Encode;
    var close, text := Encode([], CLOSE), Encode(payload, 1);
    RoundTrip([], CLOSE, text);
    RoundTrip([], CLOSE, []);
    RoundTrip(payload, 1, []);
    var once: seq<seq<byte>>, twice: seq<seq<byte>>, last: seq<seq<byte>> := [close + text], [close, text], [text];
    assert once[1..] == [] && twice[1..] == last && last[1..] == [];
    assert Flatten(last) == text + [] == text;
    assert [] + (close + text) == close + text && [] + close == close + [] && [] + text == text + [];
    var d := Drain(close + []);
    assert d == Drained([Closed], [], true) by { assert (close + [])[|close|..] == []; }
    assert Drain([]) == Drained([], [], false);
    assert Drain(text + []).events == [Message(payload)] by { assert (text + [])[|text|..] == []; }
    assert Feed([], [text]).0 == [Message(payload)];
  }

  // ----- end to end -----

  /** A frame a client sends: masked with a key, or not. */
  datatype Sent = Sent(payload: seq<byte>, opcode: byte, key: Option<seq<byte>>) {
    predicate Valid() {
      && |payload| < SAFE_INTEGER && opcode < 16
      && (key.Some? ==> |key.value| == 4)
    }

    function Bytes(): seq<byte>
      requires Valid()
    {
      if key.None? then Encode(payload, opcode) else EncodeMasked(payload, opcode, key.value)
    }
  }

  /** Frames without a Close. */
  ghost predicate AllValid(frames: seq<Sent>) {
    forall i | 0 <= i < |frames| :: frames[i].Valid() && frames[i].opcode != CLOSE
  }

  /** What is to come of the frame `f`: a text (1) or binary (2) frame is a message, a ping (9) is answered by
      a frame with opcode 10 and the same payload, and any other frame is passed over. */
  ghost predicate Reports(events: seq<Event>, f: Sent) {
    if f.opcode == 1 || f.opcode == 2 then events == [Message(f.payload)]
    else if f.opcode == 9 then
      |events| == 1 && events[0].Pong? && |events[0].frame| >= 2 && IsServerFrame(events[0].frame, f.payload, 10)
    else events == []
  }

  /** One report per frame. */
  ghost predicate AreReports(reports: seq<seq<Event>>, frames: seq<Sent>) {
    |reports| == |frames| && forall i | 0 <= i < |frames| :: Reports(reports[i], frames[i])
  }

  lemma {:induction false} MeaningReports(frames: seq<Sent>) returns (reports: seq<seq<Event>>)
    requires AllValid(frames)
    ensures AreReports(reports, frames) && Flatten(reports) == Meaning(frames)
  {
    if frames == [] {
      reports := [];
    } else {
      var f := frames[0];
      var first := EventsOf(f.payload, f.opcode);
      var later := MeaningReports(frames[1..]);
      EncodingBytes(f.payload, PONG);
      hide Encode, IsServerFrame;
      reports := [first] + later;
      assert Reports(first, f) && reports[1..] == later;
      assert forall i | 1 <= i < |frames| :: reports[i] == later[i - 1] && frames[i] == frames[1..][i - 1];
    }
  }

  ghost function Stream(frames: seq<Sent>): seq<byte>
    requires AllValid(frames)
  {
    if frames == [] then [] else frames[0].Bytes() + Stream(frames[1..])
  }

  ghost function Meaning(frames: seq<Sent>): seq<Event> {
    if frames == [] then [] else EventsOf(frames[0].payload, frames[0].opcode) + Meaning(frames[1..])
  }

  lemma SentParses(f: Sent, later: seq<byte>)
    requires f.Valid()
    ensures Parse(f.Bytes() + later) == Some(Frame(f.payload, |f.Bytes()|, f.opcode))
  {
    hide Parse, Encode, EncodeMasked;
    if f.key.None? {
      RoundTrip(f.payload, f.opcode, later);
    } else {
      MaskedRoundTrip(f.payload, f.opcode, f.key.value, later);
    }
  }

  lemma {:induction false} DrainOfStream(frames: seq<Sent>, more: seq<byte>)
    requires AllValid(frames)
    ensures Drain(Stream(frames) + more) == After(Meaning(frames), Drain(more))
    decreases |frames|
  {
    hide Parse, Sent.Bytes, EventsOf;
    if frames == [] {
      assert Stream(frames) + more == more;
      assert [] + Drain(more).events == Drain(more).events;
    } else {
      var f, later := frames[0], Stream(frames[1..]) + more;
      SentParses(f, later);
      var all := Stream(frames) + more;
      assert all == f.Bytes() + later;
      assert all[|f.Bytes()|..] == later;
      DrainOfStream(frames[1..], more);
      AfterAfter(EventsOf(f.payload, f.opcode), Meaning(frames[1..]), Drain(more));
    }
  }

  /** Whatever frames are sent, masked or not, and however the bytes are cut on the way, the reader
      reports exactly what is to come of each, in order, and keeps nothing back. */
  lemma SentIsReceived(frames: seq<Sent>, chunks: seq<seq<byte>>) returns (reports: seq<seq<Event>>)
    requires AllValid(frames) && Flatten(chunks) == Stream(frames)
    ensures AreReports(reports, frames) && Feed([], chunks) == (Flatten(reports), [])
  {
    hide Parse, Stream, Meaning, AreReports;
    reports := MeaningReports(frames);
    ShortIsIncomplete([]);
    DrainOfStream(frames, []);
    FeedIsDrain([], chunks);
    assert [] + Flatten(chunks) == Stream(frames) + [];
    assert Meaning(frames) + [] == Meaning(frames);
  }

  /** And when a Close follows them, the reader reports it once and, up to there, nothing of what comes
      behind it. */
  lemma CloseIsReceived(frames: seq<Sent>, close: Sent, later: seq<byte>, chunks: seq<seq<byte>>)
    returns (reports: seq<seq<Event>>)
    requires AllValid(frames) && close.Valid() && close.opcode == 8
    requires Flatten(chunks) == Stream(frames) + (close.Bytes() + later)
    ensures AreReports(reports, frames) && UpToClose(Feed([], chunks).0) == Flatten(reports) + [Closed]
  {
    hide Parse, Stream, Meaning, AreReports, Sent.Bytes;
    reports := MeaningReports(frames);
    ShortIsIncomplete([]);
    SentParses(close, later);
    assert Drain(close.Bytes() + later).events == [Closed];
    DrainOfStream(frames, close.Bytes() + later);
    FeedIsDrain([], chunks);
    assert [] + Flatten(chunks) == Flatten(chunks);
  }
}
