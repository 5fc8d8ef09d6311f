// One connection in full: its flags and its session (Lifecycle) together with the bytes its transceiver
// holds (Receiving). What a search for a message finds is no longer up to the environment: it is in the
// bytes. So the messages a session hands to its resource are those of the one-shot parse.
module Connections {
  import opened Text
  import opened Messages
  import opened Matcher
  import opened HeaderCodec
  import opened Framing
  import opened LinkedBuffers
  import opened RoundTrip
  import R = Receiving
  import L = Lifecycle

  datatype Link = Link(conn: L.Conn, rx: R.Receiver)

  const START: Link := Link(L.Start(), R.START)

  datatype Event =
    | Waited(error: bool)
    | HeaderRead(error: bool, bytes: string)
    | BodyRead(error: bool, bytes: string)
    | Other(e: L.Event)           // of the resource, of the sending side, or of the timer

  // ---- one step ----

  datatype Hit = Nothing | Garbled | Request(head: Head, found: L.Found)

  // The first message in these bytes.
  function Search(data: string): Hit {
    match FirstEnd(data)
    case None => Nothing
    case Some(n) =>
      match Open(data[..n])
      case Unreadable => Garbled
      case Opened(head, need) => Request(head, L.FoundFor(|data| - n, need))
  }

  // An encoded request is found with the body it announces, as far as that is there, and says itself whether
  // it is to be the last of its connection.
  lemma {:induction false} EncodedIsFound(h: Head, more: string)
    requires Good(h) && ContentLength(h.attrs).Some?
    ensures var n, hit := ContentLength(h.attrs).value, Search(Encode(h) + more);
            && hit == Request(h, if n == 0 then L.NoBody else if |more| < n then L.BodyPending else L.BodyComplete)
            && (Wish(hit) <==>
                  Values(h.attrs, "connection") != [] && Lower(Values(h.attrs, "connection")[0]) == "keep-alive")
  {
    EncodeSelfDelimiting(h, more);
    HeaderRoundTrip(h);
    assert (Encode(h) + more)[..|Encode(h)|] == Encode(h);
    KeepAliveIff(h.attrs);
  }

  function FoundOf(hit: Hit): L.Found {
    match hit
    case Nothing => L.NeedMore
    case Garbled => L.Unreadable
    case Request(_, found) => found
  }

  function Wish(hit: Hit): bool {
    hit.Request? && KeepAlive(hit.head.attrs)
  }

  // What the step looks at for a message.
  function Looked(l: Link, e: Event): Hit {
    match e
    case Waited(error) => if error || l.conn.core.canceled then Nothing else Search(l.rx.q.data)
    case HeaderRead(error, bytes) => if error then Nothing else Search(l.rx.q.data + bytes)
    case _ => Nothing
  }

  function Handed(l: Link, e: Event): seq<Head> {
    var hit := Looked(l, e);
    if hit.Request? then [hit.head] else []
  }

  predicate Missing(rx: R.Receiver, bytes: string) {
    rx.phase.Body? && |rx.phase.got| + |bytes| < rx.phase.need
  }

  // The step of the session.
  function Control(l: Link, e: Event): L.Event {
    var hit := Looked(l, e);
    match e
    case Waited(error) => L.OnWait(error, FoundOf(hit), Wish(hit))
    case HeaderRead(error, _) => L.OnHeader(error, FoundOf(hit), Wish(hit))
    case BodyRead(error, bytes) => L.OnBody(error, Missing(l.rx, bytes))
    case Other(ev) => ev
  }

  // A failed body read that the session survives.
  predicate Fails(l: Link, e: Event) {
    e.BodyRead? && e.error && !l.conn.core.canceled
  }

  // What of the stream the step takes in.
  function Bytes(l: Link, e: Event): string {
    match e
    case HeaderRead(error, bytes) => if error then "" else bytes
    case BodyRead(error, bytes) => if error || l.conn.core.canceled then "" else bytes
    case _ => ""
  }

  ghost function Taken(rx: R.Receiver, e: R.Event): R.Receiver {
    if R.Enabled(rx, e) then R.Step(rx, e) else rx
  }

  // The step of the receiver.
  ghost function Receive(l: Link, e: Event): R.Receiver {
    match e
    case Waited(error) => if error || l.conn.core.canceled then l.rx else Taken(l.rx, R.Receive)
    case HeaderRead(error, bytes) => if error then l.rx else Taken(l.rx, R.Read(bytes))
    case BodyRead(error, bytes) =>
      if l.conn.core.canceled then l.rx
      else if error then R.BodyFails(l.rx)
      else Taken(l.rx, R.Read(bytes))
    case Other(_) => l.rx
  }

  ghost function Step(l: Link, e: Event): Link {
    Link(L.Step(l.conn, Control(l, e)).conn, Receive(l, e))
  }

  // What the step asks of the timing wheel and of the manager.
  function Effects(l: Link, e: Event): seq<L.Effect> {
    L.Step(l.conn, Control(l, e)).effects
  }

  lemma ResourceAsksNothing(l: Link, e: L.Event)
    requires e.OnAwaitBody? || e.OnAnswer? || e.OnDropped? || e.OnThrown?
    ensures Effects(l, Other(e)) == []
  {
  }

  // As in Lifecycle; and a read delivers no more than the room it was offered.
  ghost predicate Enabled(l: Link, e: Event) {
    && L.Enabled(l.conn, Control(l, e))
    && (e.Other? ==> !e.e.OnWait? && !e.e.OnHeader? && !e.e.OnBody?)
    && (e.HeaderRead? && l.rx.phase.Header? ==> |e.bytes| <= l.rx.q.free)
    && (e.BodyRead? && l.rx.phase.Body? ==> |l.rx.phase.got| + |e.bytes| <= l.rx.phase.need)
  }

  // ---- the two halves agree ----

  // More may still be received.
  predicate Receptive(c: L.Conn) {
    c.life.ended == 0 && !c.life.crashed && !c.core.canceled
  }

  // The same, as long as it matters what is held.
  predicate Same(l: Link, m: Link) {
    l.conn == m.conn && (Receptive(l.conn) ==> l.rx == m.rx)
  }

  // A completion with this hit, whoever made it out, is the step of the session.
  lemma WaitControl(l: Link, error: bool, hit: Hit, keepAlive: bool)
    requires hit == Looked(l, Waited(error)) && (hit.Request? ==> keepAlive == Wish(hit))
    ensures L.Step(l.conn, L.OnWait(error, FoundOf(hit), keepAlive)) == L.Step(l.conn, Control(l, Waited(error)))
  {
  }

  lemma HeaderControl(l: Link, error: bool, bytes: string, hit: Hit, keepAlive: bool)
    requires hit == Looked(l, HeaderRead(error, bytes)) && (hit.Request? ==> keepAlive == Wish(hit))
    ensures L.Step(l.conn, L.OnHeader(error, FoundOf(hit), keepAlive))
            == L.Step(l.conn, Control(l, HeaderRead(error, bytes)))
  {
  }

  // What is outstanding is what the receiver waits for.
  predicate Tracks(l: Link) {
    && (l.conn.core.headerOp ==> l.rx.phase.Header?)
    && (l.conn.core.bodyOp ==> l.rx.phase.Body?)
    && (Receptive(l.conn) && !l.conn.core.headerOp && !l.conn.core.bodyOp ==> l.rx.phase.Ready?)
  }

  ghost predicate Inv(l: Link, seen: string) {
    L.Safe(l.conn) && Tracks(l) && R.HasRead(l.rx, seen)
  }

  // What a search that ends in this hit makes of the receiver.
  predicate Took(done: seq<Item>, hit: Hit, r: R.Receiver) {
    match hit
    case Nothing => r.phase.Header? && r.done == done
    case Garbled => r.phase.Stopped? && r.done == done
    case Request(head, found) =>
      !found.NeedMore? && !found.Unreadable? &&
      if found.BodyPending? then r.phase.Body? && r.phase.head == head && r.done == done
      else r.phase.Ready? && |r.done| == |done| + 1 && r.done[..|done|] == done && r.done[|done|].head == head
  }

  lemma ProceededTook(r: R.Receiver, status: nat)
    ensures FirstEnd(r.q.data).Some? ==> EndAt(r.q.data, FirstEnd(r.q.data).value)
    ensures Took(r.done, Search(r.q.data), R.Proceeded(r, FirstEnd(r.q.data), status))
  {
  }

  lemma StartTook(r: R.Receiver)
    requires R.Consistent(r) && r.phase.Ready?
    ensures Took(r.done, Search(r.q.data), R.Start(r))
  {
    R.StartIs(r);
    ProceededTook(r, After(0, r.q.data));
  }

  lemma HeaderBytesTook(r: R.Receiver, bytes: string)
    requires R.Consistent(r) && r.phase.Header? && |bytes| <= r.q.free
    ensures Took(r.done, Search(r.q.data + bytes), R.HeaderBytes(r, bytes))
  {
    R.HeaderBytesIs(r, bytes);
    ProceededTook(R.Receiver(Append(r.q, bytes), R.Ready, r.done), After(0, r.q.data + bytes));
  }

  lemma BodyBytesTook(r: R.Receiver, bytes: string)
    requires R.Consistent(r) && r.phase.Body? && |r.phase.got| + |bytes| <= r.phase.need
    ensures var d := R.BodyBytes(r, bytes);
            if Missing(r, bytes) then d.phase.Body? && d.phase.head == r.phase.head && d.done == r.done
            else d.phase.Ready? && |d.done| == |r.done| + 1 && d.done[..|r.done|] == r.done
                 && d.done[|r.done|].head == r.phase.head
  {
  }

  // The flags after a search with this hit.
  predicate Flags(d: L.Conn, hit: Hit) {
    && d.core.headerOp == FoundOf(hit).NeedMore? && d.core.bodyOp == FoundOf(hit).BodyPending?
    && (hit.Garbled? ==> d.life.crashed)
  }

  lemma WaitFlags(c: L.Conn, hit: Hit)
    requires L.Live(c) && c.core.waitOp && !c.core.canceled && !c.core.bodyOp
    ensures Flags(L.WaitDone(c, false, FoundOf(hit), Wish(hit)).conn, hit)
  {
  }

  lemma HeaderFlags(c: L.Conn, hit: Hit)
    requires L.Live(c) && c.core.headerOp
    ensures Flags(L.HeaderDone(c, false, FoundOf(hit), Wish(hit)).conn, hit)
  {
  }

  lemma TookTracks(d: L.Conn, hit: Hit, done: seq<Item>, rx: R.Receiver)
    requires Flags(d, hit) && Took(done, hit, rx)
    ensures Tracks(Link(d, rx))
  {
  }

  lemma FailTracks(c: L.Conn, rx: R.Receiver)
    requires L.Live(c) && Tracks(Link(c, rx))
    ensures c.core.waitOp ==> Tracks(Link(L.WaitDone(c, true, L.NeedMore, false).conn, rx))
    ensures c.core.waitOp && c.core.canceled ==> Tracks(Link(L.WaitDone(c, false, L.NeedMore, false).conn, rx))
    ensures c.core.headerOp ==> Tracks(Link(L.HeaderDone(c, true, L.NeedMore, false).conn, rx))
  {
  }

  lemma WaitTracks(l: Link, error: bool, seen: string)
    requires L.Live(l.conn) && Inv(l, seen) && Enabled(l, Waited(error))
    ensures Tracks(Step(l, Waited(error)))
  {
    var hit := Looked(l, Waited(error));
    if error || l.conn.core.canceled {
      FailTracks(l.conn, l.rx);
    } else {
      StartTook(l.rx);
      WaitFlags(l.conn, hit);
      TookTracks(L.WaitDone(l.conn, false, FoundOf(hit), Wish(hit)).conn, hit, l.rx.done, R.Start(l.rx));
    }
  }

  lemma HeaderTracks(l: Link, error: bool, bytes: string, seen: string)
    requires L.Live(l.conn) && Inv(l, seen) && Enabled(l, HeaderRead(error, bytes))
    ensures Tracks(Step(l, HeaderRead(error, bytes)))
  {
    var hit := Looked(l, HeaderRead(error, bytes));
    if error {
      FailTracks(l.conn, l.rx);
    } else {
      HeaderBytesTook(l.rx, bytes);
      HeaderFlags(l.conn, hit);
      TookTracks(L.HeaderDone(l.conn, false, FoundOf(hit), Wish(hit)).conn, hit, l.rx.done, R.HeaderBytes(l.rx, bytes));
    }
  }

  lemma BodyTracks(l: Link, error: bool, bytes: string, seen: string)
    requires L.Live(l.conn) && Inv(l, seen) && Enabled(l, BodyRead(error, bytes))
    ensures Tracks(Step(l, BodyRead(error, bytes)))
  {
    if !error {
      BodyBytesTook(l.rx, bytes);
    }
  }

  lemma OtherTracks(l: Link, e: L.Event)
    requires L.Live(l.conn) && Tracks(l) && Enabled(l, Other(e))
    ensures Tracks(Step(l, Other(e)))
  {
  }

  // ---- what a session is handed ----

  function Heads(items: seq<Item>): (r: seq<Head>)
    ensures |r| == |items| && forall i :: 0 <= i < |items| ==> r[i] == items[i].head
  {
    seq(|items|, i requires 0 <= i < |items| => items[i].head)
  }

  // The messages whose headers a receiver has come by: those that are done, and the one under way.
  function HeadsOf(rx: R.Receiver): seq<Head> {
    Heads(rx.done) + if rx.phase.Body? then [rx.phase.head] else []
  }

  // The messages of a parse, one whose body is not there yet among them.
  function AllHeads(p: Parsed): seq<Head> {
    Heads(p.items) + if p.rest.NeedBody? then [p.rest.head] else []
  }

  // Messages that lie in the buffer until the next receive.
  function Owed(rx: R.Receiver): seq<Head> {
    if rx.phase.Ready? then AllHeads(Parse(rx.q.data)) else []
  }

  lemma TookHeads(old_: R.Receiver, hit: Hit, rx: R.Receiver)
    requires !old_.phase.Body? && Took(old_.done, hit, rx)
    ensures HeadsOf(rx) == HeadsOf(old_) + if hit.Request? then [hit.head] else []
  {
    if rx.done != old_.done {
      assert rx.done == old_.done + [rx.done[|old_.done|]];
    }
  }

  lemma BodyHeads(r: R.Receiver, bytes: string)
    requires R.Consistent(r) && r.phase.Body? && |r.phase.got| + |bytes| <= r.phase.need
    ensures HeadsOf(R.BodyBytes(r, bytes)) == HeadsOf(r)
  {
    BodyBytesTook(r, bytes);
    var d := R.BodyBytes(r, bytes);
    if !Missing(r, bytes) {
      assert d.done == r.done + [d.done[|r.done|]];
    }
  }

  lemma StepHands(l: Link, e: Event, seen: string)
    requires L.Live(l.conn) && Inv(l, seen) && Enabled(l, e)
    ensures HeadsOf(Step(l, e).rx) == if Fails(l, e) then [] else HeadsOf(l.rx) + Handed(l, e)
  {
    var hit := Looked(l, e);
    if e == Waited(false) && !l.conn.core.canceled {
      StartTook(l.rx);
      TookHeads(l.rx, hit, R.Start(l.rx));
    } else if e.HeaderRead? && !e.error {
      HeaderBytesTook(l.rx, e.bytes);
      TookHeads(l.rx, hit, R.HeaderBytes(l.rx, e.bytes));
    } else if e.BodyRead? && !e.error && !l.conn.core.canceled {
      BodyHeads(l.rx, e.bytes);
    }
  }

  // ---- the stream ----

  // The stream, from behind the last body read that failed.
  function Seen(l: Link, e: Event, seen: string): string {
    if Fails(l, e) then "" else seen + Bytes(l, e)
  }

  lemma BodyFailsAfresh(r: R.Receiver)
    requires R.Consistent(r) && r.phase.Body?
    ensures R.HasRead(R.BodyFails(r), "")
  {
    JoinNone(Parse(""));
  }

  lemma StepReads(l: Link, e: Event, seen: string)
    requires L.Live(l.conn) && Inv(l, seen) && Enabled(l, e)
    ensures R.HasRead(Step(l, e).rx, Seen(l, e, seen))
  {
    assert seen + "" == seen;
    if Fails(l, e) {
      BodyFailsAfresh(l.rx);
    } else if e == Waited(false) && !l.conn.core.canceled {
      R.StepKeepsParse(l.rx, seen, R.Receive);
    } else if e.HeaderRead? && !e.error {
      R.StepKeepsParse(l.rx, seen, R.Read(e.bytes));
    } else if e.BodyRead? && !e.error && !l.conn.core.canceled {
      R.StepKeepsParse(l.rx, seen, R.Read(e.bytes));
    }
  }

  // Every step keeps the two halves in agreement.
  lemma StepKeeps(l: Link, e: Event, seen: string)
    requires L.Live(l.conn) && Inv(l, seen) && Enabled(l, e)
    ensures Inv(Step(l, e), Seen(l, e, seen))
  {
    L.StepIsSafe(l.conn, Control(l, e));
    StepReads(l, e, seen);
    match e
    case Waited(error) => WaitTracks(l, error, seen);
    case HeaderRead(error, bytes) => HeaderTracks(l, error, bytes, seen);
    case BodyRead(error, bytes) => BodyTracks(l, error, bytes, seen);
    case Other(ev) => OtherTracks(l, ev);
  }

  // ---- runs ----

  ghost predicate Allowed(l: Link, events: seq<Event>)
    decreases |events|
  {
    events == [] || (Enabled(l, events[0]) && Allowed(Step(l, events[0]), events[1..]))
  }

  ghost function Run(l: Link, events: seq<Event>): Link
    decreases |events|
  {
    if events == [] then l else Run(Step(l, events[0]), events[1..])
  }

  // The bytes read, and the messages handed to the resource, since the last body read that failed.
  ghost function Since(l: Link, events: seq<Event>, seen: string): string
    decreases |events|
  {
    if events == [] then seen else Since(Step(l, events[0]), events[1..], Seen(l, events[0], seen))
  }

  ghost function HandedSince(l: Link, events: seq<Event>, heads: seq<Head>): seq<Head>
    decreases |events|
  {
    if events == [] then heads
    else HandedSince(Step(l, events[0]), events[1..], if Fails(l, events[0]) then [] else heads + Handed(l, events[0]))
  }

  lemma {:induction false} RunKeeps(l: Link, events: seq<Event>, seen: string)
    requires Inv(l, seen) && Allowed(l, events)
    ensures Inv(Run(l, events), Since(l, events, seen))
    ensures HeadsOf(Run(l, events).rx) == HandedSince(l, events, HeadsOf(l.rx))
    decreases |events|
  {
    if events != [] {
      var e := events[0];
      if l.conn.life.ended == 1 {
        L.EndedIsFinal(l.conn, Control(l, e));
      } else {
        StepKeeps(l, e, seen);
        StepHands(l, e, seen);
        RunKeeps(Step(l, e), events[1..], Seen(l, e, seen));
      }
    }
  }

  lemma HeadsOfJoin(done: seq<Item>, p: Parsed)
    ensures AllHeads(Join(done, p)) == Heads(done) + AllHeads(p)
  {
    assert Heads(done + p.items) == Heads(done) + Heads(p.items);
  }

  lemma HeadsAreParsed(rx: R.Receiver, seen: string)
    requires R.HasRead(rx, seen)
    ensures AllHeads(Parse(seen)) == HeadsOf(rx) + Owed(rx)
  {
    HeadsOfJoin(rx.done, R.RestOf(rx));
    if rx.phase.Ready? {
      assert HeadsOf(rx) == Heads(rx.done);
    } else {
      assert Heads([]) == [];
    }
  }

  // The main result: over every run, what a session hands to its resource is what the one-shot parse of
  // the stream finds. Between two requests, the messages still buffered are owed; while a read is out,
  // none is. Only a body read that failed, and that the session survived, makes the stream start afresh.
  lemma {:induction false} HandsOverTheParse(events: seq<Event>)
    requires Allowed(START, events)
    ensures var l, stream, handed := Run(START, events), Since(START, events, ""), HandedSince(START, events, []);
            && AllHeads(Parse(stream)) == handed + Owed(l.rx)
            && Parse(stream) == Join(l.rx.done, R.RestOf(l.rx))
            && (l.conn.core.headerOp || l.conn.core.bodyOp ==> handed == AllHeads(Parse(stream)))
  {
    L.StartIsSafe();
    JoinNone(Parse(""));
    RunKeeps(START, events, "");
    HeadsAreParsed(Run(START, events).rx, Since(START, events, ""));
  }

  ghost predicate NoneFails(l: Link, events: seq<Event>)
    decreases |events|
  {
    events == [] || (!Fails(l, events[0]) && NoneFails(Step(l, events[0]), events[1..]))
  }

  ghost function Input(l: Link, events: seq<Event>): string
    decreases |events|
  {
    if events == [] then "" else Bytes(l, events[0]) + Input(Step(l, events[0]), events[1..])
  }

  ghost function HandedOver(l: Link, events: seq<Event>): seq<Head>
    decreases |events|
  {
    if events == [] then [] else Handed(l, events[0]) + HandedOver(Step(l, events[0]), events[1..])
  }

  lemma {:induction false} WholeStream(l: Link, events: seq<Event>, seen: string)
    requires NoneFails(l, events)
    ensures Since(l, events, seen) == seen + Input(l, events)
    decreases |events|
  {
    if events != [] {
      var more := Bytes(l, events[0]);
      WholeStream(Step(l, events[0]), events[1..], seen + more);
      Regrouped(seen, more, Input(Step(l, events[0]), events[1..]));
    }
  }

  lemma {:induction false} AllHanded(l: Link, events: seq<Event>, heads: seq<Head>)
    requires NoneFails(l, events)
    ensures HandedSince(l, events, heads) == heads + HandedOver(l, events)
    decreases |events|
  {
    if events != [] {
      var more := Handed(l, events[0]);
      AllHanded(Step(l, events[0]), events[1..], heads + more);
      Regrouped(heads, more, HandedOver(Step(l, events[0]), events[1..]));
    }
  }

  lemma Regrouped<T>(a: seq<T>, b: seq<T>, c: seq<T>)
    ensures a + b + c == a + (b + c)
  {
  }

  // Encoded requests with the bodies they announce are handed over one by one, whatever the reads.
  lemma {:induction false} EncodedRequestsAreHanded(msgs: seq<(Head, string)>, events: seq<Event>)
    requires forall i :: 0 <= i < |msgs| ==> Sendable(msgs[i].0, msgs[i].1)
    requires Allowed(START, events) && NoneFails(START, events) && Input(START, events) == Stream(msgs)
    requires Run(START, events).conn.core.headerOp || Run(START, events).conn.core.bodyOp
    ensures |HandedOver(START, events)| == |msgs|
    ensures forall i :: 0 <= i < |msgs| ==> HandedOver(START, events)[i] == msgs[i].0
  {
    WholeRunHands(events);
    HeadsOfStream(msgs);
  }

  // Without a failed body read, and while a read is out.
  lemma {:induction false} WholeRunHands(events: seq<Event>)
    requires Allowed(START, events) && NoneFails(START, events)
    requires Run(START, events).conn.core.headerOp || Run(START, events).conn.core.bodyOp
    ensures HandedOver(START, events) == AllHeads(Parse(Input(START, events)))
  {
    var input, handed := Input(START, events), HandedOver(START, events);
    WholeStream(START, events, "");
    AllHanded(START, events, []);
    assert "" + input == input && [] + handed == handed;
    HandsOverTheParse(events);
  }

  lemma {:induction false} HeadsOfStream(msgs: seq<(Head, string)>)
    requires forall i :: 0 <= i < |msgs| ==> Sendable(msgs[i].0, msgs[i].1)
    ensures |AllHeads(Parse(Stream(msgs)))| == |msgs|
    ensures forall i :: 0 <= i < |msgs| ==> AllHeads(Parse(Stream(msgs)))[i] == msgs[i].0
  {
    StreamIsRecovered(msgs, "");
    assert Stream(msgs) + "" == Stream(msgs) && Items(msgs) + [] == Items(msgs);
    ItemsAre(msgs);
  }

  lemma {:induction false} ItemsAre(msgs: seq<(Head, string)>)
    ensures |Items(msgs)| == |msgs| && forall i :: 0 <= i < |msgs| ==> Items(msgs)[i].head == msgs[i].0
    decreases |msgs|
  {
    if msgs != [] {
      ItemsAre(msgs[1..]);
    }
  }
}
