// The receive pipeline as a state machine over its completions, and its agreement with the one-shot
// parse of the stream, whatever the sizes of the reads.
module Receiving {
  import opened Text
  import opened Messages
  import opened Matcher
  import opened HeaderCodec
  import opened Framing
  import opened LinkedBuffers

  // linked_buffer<1024>
  const BLOCK: nat := 1024

  datatype Phase =
    | Ready                                                       // no read outstanding
    | Header(status: nat)                                         // a header read, with the matcher it carries
    | Body(raw: string, head: Head, need: nat, got: string)      // a direct read into the content buffer
    | Stopped(raw: string)                                        // decoding did not come back

  // `done` lists the messages whose bodies are complete, since the last body read that failed.
  datatype Receiver = Receiver(q: Queue, phase: Phase, done: seq<Item>)

  const START: Receiver := Receiver(EMPTY, Ready, [])

  ghost predicate Fits(q: Queue) {
    q.offset < BLOCK && q.free <= BLOCK && (q.offset + |q.data| + q.free) % BLOCK == 0
  }

  // All the unread bytes, and the room behind them, lie in one block.
  ghost predicate OneBlock(q: Queue) {
    Fits(q) && q.offset + |q.data| + q.free <= BLOCK
  }

  // _receive_content: the body starts with what is buffered; only the rest is read from the socket.
  function TakeBody(r: Receiver, raw: string, head: Head, need: nat): Receiver {
    var take := if |r.q.data| < need then |r.q.data| else need;
    var body, q := r.q.data[..take], Drop(r.q, take, BLOCK);
    if take == need then Receiver(q, Ready, r.done + [Item(raw, head, body)])
    else Receiver(q, Body(raw, head, need, body), r.done)
  }

  // A header of n bytes is complete: cut it off, decode it, take its body.
  function CutHeader(r: Receiver, n: nat): Receiver
    requires EndAt(r.q.data, n)
  {
    var raw, rest := r.q.data[..n], r.(q := Drop(r.q, n, BLOCK));
    match Open(raw)
    case Unreadable => rest.(phase := Stopped(raw))
    case Opened(head, need) => TakeBody(rest, raw, head, need)
  }

  // The first n bytes were taken for a header. That a header really ends there is a property of the
  // reachable states (Consistent), not of the code.
  function Accept(r: Receiver, n: nat): Receiver
    requires n <= |r.q.data|
  {
    if EndAt(r.q.data, n) then CutHeader(r, n) else r.(phase := Stopped(r.q.data[..n]))
  }

  // async_receive: look for a header in the front block alone, else issue a read.
  function Start(r: Receiver): Receiver
    requires r.phase.Ready?
  {
    match ScanFrom(0, Front(r.q, BLOCK), 0)
    case Found(n) => Accept(r, n)
    case Missing(status) => Receiver(Offer(r.q, BLOCK), Header(status), r.done)
  }

  // _header_receiving_handler after a successful read.
  function HeaderBytes(r: Receiver, bytes: string): Receiver
    requires r.phase.Header? && |bytes| <= r.q.free
  {
    var q := Append(r.q, bytes);
    match ScanFrom(r.phase.status, bytes, 0)
    case Found(n) => Accept(r.(q := q), |r.q.data| + n)
    case Missing(status) => Receiver(Offer(q, BLOCK), Header(status), r.done)
  }

  // _content_receiving_handler after a successful read.
  function BodyBytes(r: Receiver, bytes: string): Receiver
    requires r.phase.Body? && |r.phase.got| + |bytes| <= r.phase.need
  {
    var got := r.phase.got + bytes;
    if |got| < r.phase.need then r.(phase := r.phase.(got := got))
    else Receiver(r.q, Ready, r.done + [Item(r.phase.raw, r.phase.head, got)])
  }

  // ... and after a failed one: the rest of the body is not read, and the next receive starts afresh.
  function BodyFails(r: Receiver): Receiver {
    Receiver(r.q, Ready, [])
  }

  // ---- runs ----

  datatype Event = Receive | Read(bytes: string)

  // A receive starts only once the previous body is complete, and a read delivers no more than the
  // room it was offered.
  ghost predicate Enabled(r: Receiver, e: Event) {
    match e
    case Receive => r.phase.Ready?
    case Read(bytes) =>
      || (r.phase.Header? && |bytes| <= r.q.free)
      || (r.phase.Body? && |r.phase.got| + |bytes| <= r.phase.need)
  }

  function Step(r: Receiver, e: Event): Receiver
    requires Enabled(r, e)
  {
    match e
    case Receive => Start(r)
    case Read(bytes) => if r.phase.Header? then HeaderBytes(r, bytes) else BodyBytes(r, bytes)
  }

  function Input(events: seq<Event>): string {
    if events == [] then "" else Bytes(events[0]) + Input(events[1..])
  }

  function Bytes(e: Event): string {
    if e.Read? then e.bytes else ""
  }

  ghost predicate Allowed(r: Receiver, events: seq<Event>)
    decreases |events|
  {
    events == [] || (Enabled(r, events[0]) && Allowed(Step(r, events[0]), events[1..]))
  }

  // The state after these events.
  ghost function Run(r: Receiver, events: seq<Event>): Receiver
    requires Allowed(r, events)
    decreases |events|
  {
    if events == [] then r else Run(Step(r, events[0]), events[1..])
  }

  // ---- what a state stands for ----

  function RestOf(r: Receiver): Parsed {
    match r.phase
    case Ready => Parse(r.q.data)
    case Header(_) => Parsed([], NeedHeader(r.q.data))
    case Body(raw, head, need, got) => Parsed([], NeedBody(raw, head, need, got))
    case Stopped(raw) => Parsed([], Broken(raw, r.q.data))
  }

  ghost predicate Consistent(r: Receiver) {
    && Fits(r.q)
    && (!r.phase.Header? ==> OneBlock(r.q))
    && (r.phase.Header? ==> r.q.free > 0 && FirstEnd(r.q.data).None? && r.phase.status == After(0, r.q.data))
    && (r.phase.Body? ==> r.q.data == "" && |r.phase.got| < r.phase.need)
  }

  // s is in order, and stands for: `done` already delivered, then what p says.
  ghost predicate ParsesTo(s: Receiver, done: seq<Item>, p: Parsed) {
    Consistent(s) && Join(s.done, RestOf(s)) == Join(done, p)
  }

  // Dropping into the last block leaves one block.
  lemma DropToLastBlock(q: Queue, n: nat)
    requires Fits(q) && n <= |q.data|
    ensures Fits(Drop(q, n, BLOCK))
    ensures |q.data| - n + q.free < BLOCK || OneBlock(q) ==> OneBlock(Drop(q, n, BLOCK))
  {
  }

  lemma TakeBodyIsFill(r: Receiver, raw: string, head: Head, need: nat)
    requires OneBlock(r.q)
    ensures ParsesTo(TakeBody(r, raw, head, need), r.done, Fill(raw, head, need, r.q.data))
  {
    var take := if |r.q.data| < need then |r.q.data| else need;
    DropToLastBlock(r.q, take);
    if take == need {
      JoinTwice(r.done, [Item(raw, head, r.q.data[..take])], Parse(r.q.data[need..]));
    } else {
      assert r.q.data[..take] == r.q.data;
    }
  }

  lemma CutHeaderIsParse(r: Receiver, n: nat)
    requires Fits(r.q) && FirstEnd(r.q.data) == Some(n)
    requires |r.q.data| - n + r.q.free < BLOCK || OneBlock(r.q)
    ensures ParsesTo(CutHeader(r, n), r.done, Parse(r.q.data))
  {
    DropToLastBlock(r.q, n);
    var raw := r.q.data[..n];
    match Open(raw)
    case Unreadable =>
    case Opened(head, need) => TakeBodyIsFill(r.(q := Drop(r.q, n, BLOCK)), raw, head, need);
  }

  // With all unread bytes in one block, the scan of the front block finds their first header.
  lemma FrontScan(r: Receiver)
    requires OneBlock(r.q)
    ensures Front(r.q, BLOCK) == r.q.data
    ensures ScanFrom(0, r.q.data, 0) ==
            if FirstEnd(r.q.data).Some? then Found(FirstEnd(r.q.data).value) else Missing(After(0, r.q.data))
  {
    var data := r.q.data;
    assert "" + data == data && "" + data[..0] == "";
    assert forall n :: !EndAt("", n);
    ResumedScan("", data, 0);
  }

  // Starting a receive delivers what a parse of the buffered bytes would, or keeps them all.
  lemma StartIsParse(r: Receiver)
    requires Consistent(r) && r.phase.Ready?
    ensures ParsesTo(Start(r), r.done, RestOf(r))
  {
    FrontScan(r);
    if FirstEnd(r.q.data).Some? {
      CutHeaderIsParse(r, FirstEnd(r.q.data).value);
    }
  }

  // Bytes read while a header is under way carry the parse on.
  lemma HeaderBytesIsParse(r: Receiver, bytes: string)
    requires Consistent(r) && r.phase.Header? && |bytes| <= r.q.free
    ensures ParsesTo(HeaderBytes(r, bytes), r.done, Parse(r.q.data + bytes))
  {
    if FirstEnd(r.q.data + bytes).Some? {
      HeaderFound(r, bytes);
    } else {
      HeaderMissing(r, bytes);
    }
  }

  lemma HeaderBytesCut(r: Receiver, bytes: string)
    requires Consistent(r) && r.phase.Header? && |bytes| <= r.q.free && FirstEnd(r.q.data + bytes).Some?
    ensures HeaderBytes(r, bytes)
            == CutHeader(Receiver(Append(r.q, bytes), r.phase, r.done), FirstEnd(r.q.data + bytes).value)
    ensures FirstEnd(r.q.data + bytes).value > |r.q.data| && Fits(Append(r.q, bytes))
  {
    HeaderScan(r, bytes);
    AcceptCuts(Receiver(Append(r.q, bytes), r.phase, r.done), FirstEnd(r.q.data + bytes).value);
  }

  lemma AcceptCuts(r: Receiver, n: nat)
    requires EndAt(r.q.data, n)
    ensures Accept(r, n) == CutHeader(r, n)
  {
  }

  lemma HeaderFound(r: Receiver, bytes: string)
    requires Consistent(r) && r.phase.Header? && |bytes| <= r.q.free && FirstEnd(r.q.data + bytes).Some?
    ensures ParsesTo(HeaderBytes(r, bytes), r.done, Parse(r.q.data + bytes))
  {
    var q, n := Append(r.q, bytes), FirstEnd(r.q.data + bytes).value;
    HeaderBytesCut(r, bytes);
    CutHeaderIsParse(Receiver(q, r.phase, r.done), n);
  }

  lemma HeaderMissing(r: Receiver, bytes: string)
    requires Consistent(r) && r.phase.Header? && |bytes| <= r.q.free && FirstEnd(r.q.data + bytes).None?
    ensures ParsesTo(HeaderBytes(r, bytes), r.done, Parse(r.q.data + bytes))
  {
    HeaderScan(r, bytes);
    AppendAndOffer(r.q, bytes);
  }

  lemma AppendAndOffer(q: Queue, bytes: string)
    requires Fits(q) && |bytes| <= q.free
    ensures var s := Offer(Append(q, bytes), BLOCK); Fits(s) && s.free > 0 && s.data == q.data + bytes
  {
  }

  lemma HeaderScan(r: Receiver, bytes: string)
    requires Consistent(r) && r.phase.Header?
    ensures var scan, end := ScanFrom(r.phase.status, bytes, 0), FirstEnd(r.q.data + bytes);
            && (scan.Found? <==> end.Some?)
            && (scan.Found? ==> end.value == |r.q.data| + scan.n)
            && (scan.Missing? ==> scan.status == After(0, r.q.data + bytes))
  {
    assert r.q.data + bytes[..0] == r.q.data;
    ResumedScan(r.q.data, bytes, 0);
  }

  // The receiver after a search that ended so.
  function Proceeded(r: Receiver, end: Option<nat>, status: nat): Receiver
    requires end.Some? ==> EndAt(r.q.data, end.value)
  {
    match end
    case None => Receiver(Offer(r.q, BLOCK), Header(status), r.done)
    case Some(n) => CutHeader(r, n)
  }

  lemma ProceededIsConsistent(r: Receiver, status: nat)
    requires Fits(r.q) && FirstEnd(r.q.data).None? && status == After(0, r.q.data)
    ensures Consistent(Proceeded(r, None, status))
  {
  }

  lemma StartIs(r: Receiver)
    requires Consistent(r) && r.phase.Ready?
    ensures Start(r) == Proceeded(r, FirstEnd(r.q.data), After(0, r.q.data))
    ensures ScanFrom(0, r.q.data, 0) ==
            if FirstEnd(r.q.data).Some? then Found(FirstEnd(r.q.data).value) else Missing(After(0, r.q.data))
  {
    FrontScan(r);
  }

  lemma HeaderBytesIs(r: Receiver, bytes: string)
    requires Consistent(r) && r.phase.Header? && |bytes| <= r.q.free
    ensures var q, end := Append(r.q, bytes), FirstEnd(r.q.data + bytes);
            && Fits(q) && (end.Some? ==> |q.data| - end.value + q.free < BLOCK)
            && HeaderBytes(r, bytes) == Proceeded(Receiver(q, Ready, r.done), end, After(0, q.data))
  {
    AppendFits(r.q, bytes);
    if FirstEnd(r.q.data + bytes).Some? {
      HeaderBytesEnd(r, bytes);
    } else {
      HeaderBytesWait(r, bytes);
    }
  }

  lemma AppendFits(q: Queue, bytes: string)
    requires Fits(q) && |bytes| <= q.free
    ensures Fits(Append(q, bytes)) && |Append(q, bytes).data| + Append(q, bytes).free == |q.data| + q.free
  {
  }

  lemma HeaderBytesEnd(r: Receiver, bytes: string)
    requires Consistent(r) && r.phase.Header? && |bytes| <= r.q.free && FirstEnd(r.q.data + bytes).Some?
    ensures var end := FirstEnd(r.q.data + bytes).value;
            && end > |r.q.data|
            && HeaderBytes(r, bytes) == CutHeader(Receiver(Append(r.q, bytes), Ready, r.done), end)
  {
    HeaderBytesCut(r, bytes);
    CutIgnoresPhase(Receiver(Append(r.q, bytes), r.phase, r.done), FirstEnd(r.q.data + bytes).value);
  }

  lemma HeaderBytesWait(r: Receiver, bytes: string)
    requires Consistent(r) && r.phase.Header? && |bytes| <= r.q.free && FirstEnd(r.q.data + bytes).None?
    ensures HeaderBytes(r, bytes)
            == Receiver(Offer(Append(r.q, bytes), BLOCK), Header(After(0, r.q.data + bytes)), r.done)
  {
    HeaderScan(r, bytes);
  }

  lemma CutIgnoresPhase(r: Receiver, n: nat)
    requires EndAt(r.q.data, n)
    ensures CutHeader(r, n) == CutHeader(r.(phase := Ready), n)
  {
  }

  lemma BodyBytesIsFill(r: Receiver, bytes: string)
    requires Consistent(r) && r.phase.Body? && |r.phase.got| + |bytes| <= r.phase.need
    ensures ParsesTo(BodyBytes(r, bytes), r.done, Fill(r.phase.raw, r.phase.head, r.phase.need, r.phase.got + bytes))
  {
    var got := r.phase.got + bytes;
    if |got| == r.phase.need {
      assert got[..r.phase.need] == got && got[r.phase.need..] == "";
      JoinTwice(r.done, [Item(r.phase.raw, r.phase.head, got)], Parse(""));
    }
  }

  lemma StepIsParse(r: Receiver, e: Event)
    requires Consistent(r) && Enabled(r, e)
    ensures ParsesTo(Step(r, e), r.done + RestOf(r).items, Resume(RestOf(r).rest, Bytes(e)))
  {
    match e
    case Receive =>
      StartIsParse(r);
      ParseExtends(r.q.data, "");
      assert r.q.data + "" == r.q.data;
      JoinTwice(r.done, RestOf(r).items, Resume(RestOf(r).rest, ""));
    case Read(bytes) =>
      assert r.done + [] == r.done;
      if r.phase.Header? {
        HeaderBytesIsParse(r, bytes);
      } else {
        BodyBytesIsFill(r, bytes);
      }
  }

  // r has read exactly `seen`.
  ghost predicate HasRead(r: Receiver, seen: string) {
    Consistent(r) && Join(r.done, RestOf(r)) == Parse(seen)
  }

  lemma StepKeepsParse(r: Receiver, seen: string, e: Event)
    requires HasRead(r, seen) && Enabled(r, e)
    ensures HasRead(Step(r, e), seen + Bytes(e))
  {
    StepIsParse(r, e);
    ParseExtends(seen, Bytes(e));
  }

  // In every reachable state, what was delivered and what is still held are the parse of all that
  // was read.
  lemma {:induction false} RunIsParse(r: Receiver, seen: string, events: seq<Event>)
    requires HasRead(r, seen) && Allowed(r, events)
    ensures HasRead(Run(r, events), seen + Input(events))
    decreases |events|
  {
    if events == [] {
      assert seen + "" == seen;
    } else {
      var next, rest := Step(r, events[0]), events[1..];
      StepKeepsParse(r, seen, events[0]);
      RunIsParse(next, seen + Bytes(events[0]), rest);
      InputCons(seen, events);
      assert Run(r, events) == Run(next, rest);
    }
  }

  lemma InputCons(seen: string, events: seq<Event>)
    requires events != []
    ensures seen + Input(events) == seen + Bytes(events[0]) + Input(events[1..])
  {
  }

  lemma ReachableIsParse(events: seq<Event>)
    requires Allowed(START, events)
    ensures HasRead(Run(START, events), Input(events))
  {
    JoinNone(Parse(""));
    RunIsParse(START, "", events);
    assert "" + Input(events) == Input(events);
  }

  // The main result: whenever the receiver waits for the socket, it has delivered exactly the
  // messages of the one-shot parse of the bytes read, and holds exactly what that parse leaves.
  lemma DeliversOneShotParse(events: seq<Event>)
    requires Allowed(START, events)
    ensures var r := Run(START, events); !r.phase.Ready? ==> Parse(Input(events)) == Parsed(r.done, RestOf(r).rest)
  {
    ReachableIsParse(events);
    var r := Run(START, events);
    assert r.done + [] == r.done;
  }

  // ... and between two receives, the messages not yet delivered are those of the buffered bytes.
  lemma ReadyOwesBufferedMessages(events: seq<Event>)
    requires Allowed(START, events)
    ensures var r := Run(START, events);
            r.phase.Ready? ==> Parse(Input(events)) == Join(r.done, Parse(r.q.data))
  {
    ReachableIsParse(events);
  }

  // Two splits of one stream into reads deliver the same messages and hold the same bytes.
  lemma ChunkingIndependence(events: seq<Event>, other: seq<Event>)
    requires Allowed(START, events) && Allowed(START, other) && Input(events) == Input(other)
    requires !Run(START, events).phase.Ready? && !Run(START, other).phase.Ready?
    ensures var r, s := Run(START, events), Run(START, other);
            r.done == s.done && r.phase == s.phase && r.q.data == s.q.data
  {
    DeliversOneShotParse(events);
    DeliversOneShotParse(other);
    ReachableIsParse(events);
    ReachableIsParse(other);
  }

  // A receive starts with all unread bytes in the front block: looking at that block alone misses
  // no header.
  lemma SingleBlockWhenReady(events: seq<Event>)
    requires Allowed(START, events) && Run(START, events).phase.Ready?
    ensures var r := Run(START, events);
            && r.q.offset + |r.q.data| <= 1024 && Front(r.q, BLOCK) == r.q.data
            && (FirstEnd(r.q.data).None? ==> Start(r).phase == Header(After(0, r.q.data)))
            && (FirstEnd(r.q.data).Some? ==> Start(r) == CutHeader(r, FirstEnd(r.q.data).value))
  {
    ReachableIsParse(events);
    FrontScan(Run(START, events));
  }

  // A header read is offered all the room left in the last block of 1024 bytes.
  lemma RoomEndsItsBlock(events: seq<Event>)
    requires Allowed(START, events) && Run(START, events).phase.Header?
    ensures var q := Run(START, events).q; 0 < q.free <= 1024 && (q.offset + |q.data| + q.free) % 1024 == 0
  {
    ReachableIsParse(events);
  }

  function Held(r: Receiver): string {
    match r.phase
    case Body(raw, _, _, got) => raw + got + r.q.data
    case Stopped(raw) => raw + r.q.data
    case _ => r.q.data
  }

  // Bytes in their order, none lost and none twice: what was delivered, the message under way and the
  // buffer are together what was read. A direct body read is only out while the buffer is empty.
  lemma BytesAreConserved(events: seq<Event>)
    requires Allowed(START, events)
    ensures var r := Run(START, events);
            && Input(events) == WireOfItems(r.done) + Held(r)
            && (r.phase.Body? ==> r.q.data == "")
  {
    ReachableIsParse(events);
    HeldIsConserved(Run(START, events), Input(events));
  }

  lemma HeldIsConserved(r: Receiver, seen: string)
    requires HasRead(r, seen)
    ensures seen == WireOfItems(r.done) + Held(r)
  {
    ParseConserves(seen);
    HeldBytes(r);
    Regroup(r.done, RestOf(r));
  }

  lemma Regroup(done: seq<Item>, p: Parsed)
    ensures WireOfItems(Join(done, p).items) + WireOfRest(p.rest)
            == WireOfItems(done) + (WireOfItems(p.items) + WireOfRest(p.rest))
  {
    WireOfJoin(done, p.items);
  }

  lemma HeldBytes(r: Receiver)
    requires Consistent(r)
    ensures WireOfItems(RestOf(r).items) + WireOfRest(RestOf(r).rest) == Held(r)
  {
    match r.phase
    case Ready => ParseConserves(r.q.data);
    case Header(_) =>
    case Body(raw, _, _, got) => assert raw + got + "" == raw + got;
    case Stopped(raw) =>
  }

  lemma {:induction false} WireOfJoin(a: seq<Item>, b: seq<Item>)
    ensures WireOfItems(a + b) == WireOfItems(a) + WireOfItems(b)
    decreases |a|
  {
    if a == [] {
      assert a + b == b;
    } else {
      assert (a + b)[1..] == a[1..] + b;
      WireOfJoin(a[1..], b);
    }
  }

  // Encoded messages with the bodies they announce arrive one by one through any split into reads.
  lemma {:induction false} EncodedStreamIsDelivered(msgs: seq<(Head, string)>, events: seq<Event>)
    requires forall i :: 0 <= i < |msgs| ==> Sendable(msgs[i].0, msgs[i].1)
    requires Allowed(START, events) && Input(events) == Stream(msgs) && !Run(START, events).phase.Ready?
    ensures var r := Run(START, events); r.done == Items(msgs) && r.phase.Header? && r.q.data == ""
  {
    StreamIsRecovered(msgs, "");
    assert Stream(msgs) + "" == Stream(msgs);
    assert Items(msgs) + [] == Items(msgs);
    DeliversOneShotParse(events);
    ReachableIsParse(events);
  }
}
