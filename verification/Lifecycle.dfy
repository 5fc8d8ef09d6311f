// One connection as a transition system: the flags of its transceiver, the operations whose completion
// is outstanding, and the session that reacts to them. Each completion handler is one atomic step, as
// all handlers of a worker run on one thread.
module Lifecycle {
  // ---- the transceiver ----

  // Who waits for the body still under way.
  datatype BodyReader = Nobody | Application | Sender

  // The body of a response: none, one without bytes, one that is there at once, or the request's own.
  datatype Answer = NoContent | NoBytes | AtOnce | Echo

  datatype SendOp = NoSend | HeaderSend(answer: Answer) | ContentRead | ContentSend

  // The flags, and the operations that are outstanding.
  datatype Core = Core(
    receiving: bool, sending: bool, waiting: bool, canceled: bool,
    waitOp: bool, headerOp: bool, bodyOp: bool, sendOp: SendOp, reader: BodyReader)

  const IDLE: Core := Core(false, false, false, false, false, false, false, NoSend, Nobody)

  // The callback a completion ends in: none, the cancellation handler, the session's with success or
  // failure, or an exception.
  datatype Told = Silent | Canceled | Success | Failure | Crash

  // What looking for a message came to.
  datatype Found = NeedMore | NoBody | BodyComplete | BodyPending | Unreadable

  // What _receive_content finds in a buffer, by the announced length.
  function FoundFor(have: nat, length: nat): Found {
    if length == 0 then NoBody else if have < length then BodyPending else BodyComplete
  }

  predicate Busy(k: Core) {
    k.receiving || k.sending || k.waiting
  }

  // The check every completion of a canceled transceiver makes: the last one out runs the handler.
  function LastOut(k: Core): Told {
    if Busy(k) then Silent else Canceled
  }

  function AfterWait(k: Core): Core {
    k.(waitOp := false, waiting := false)
  }

  function ToldOfWait(k: Core, error: bool): Told {
    if k.canceled then LastOut(AfterWait(k)) else if error then Failure else Success
  }

  // _receive_content, by what it finds.
  function AfterBody(k: Core, found: Found): Core {
    if found.NoBody? || found.Unreadable? then k
    else if k.canceled then k.(sending := true, receiving := false)
    else k.(sending := true, receiving := found.BodyPending?, bodyOp := found.BodyPending?, reader := Nobody)
  }

  // Looking for a message: its body is taken, or more is asked of the socket.
  function AfterSearch(k: Core, found: Found): Core {
    if found.NeedMore? then k.(receiving := true, headerOp := true) else AfterBody(k, found)
  }

  // _content_receiving_handler; `more` says whether bytes are still missing. A reader gets the bytes or
  // an error; the send loop's reader sends on the one and does nothing on the other.
  function AfterBodyRead(k: Core, error: bool, more: bool): Core {
    var d := k.(receiving := false, bodyOp := false, reader := Nobody);
    if k.canceled then d
    else if error then (if k.reader.Sender? then d.(sendOp := NoSend) else d)
    else if more then k.(receiving := true)
    else if k.reader.Sender? then d.(sending := true, sendOp := ContentSend)
    else d
  }

  // An error that nobody waits for calls an empty function, which throws.
  function ToldOfBody(k: Core, error: bool): Told {
    if k.canceled then LastOut(k.(receiving := false))
    else if error && k.reader.Nobody? then Crash
    else Silent
  }

  function AnswerOf(op: SendOp): Answer {
    if op.HeaderSend? then op.answer else NoContent
  }

  // The header of the answer went out: its content is sent, or the request's own body waited for.
  function AfterHeaderSent(k: Core, error: bool): Core {
    var d, answer := k.(sending := false, sendOp := NoSend), AnswerOf(k.sendOp);
    if k.canceled || error || answer.NoContent? || answer.NoBytes? then d
    else if answer.Echo? && k.bodyOp then d.(sending := true, sendOp := ContentRead, reader := Sender)
    else d.(sending := true, sendOp := ContentSend)
  }

  // Without content the callback fails; a content without bytes has succeeded.
  function ToldOfHeader(k: Core, error: bool): Told {
    if k.canceled then LastOut(k.(sending := false))
    else if error || AnswerOf(k.sendOp).NoContent? then Failure
    else if AnswerOf(k.sendOp).NoBytes? then Success
    else Silent
  }

  function AfterContentSent(k: Core, error: bool, more: bool): Core {
    if k.canceled || error || !more then k.(sending := false, sendOp := NoSend)
    else k.(sending := true, sendOp := ContentSend)
  }

  function ToldOfContent(k: Core, error: bool, more: bool): Told {
    if k.canceled then LastOut(k.(sending := false))
    else if error then Failure
    else if more then Silent
    else Success
  }

  // ---- the session ----

  // What a session's history adds: whether a resource works on its request, whether its timer is armed,
  // how often its terminating handler ran, whether an exception left a handler or a header could not be
  // read, whether its last receive found a body-less message in the buffer, with no read since, and
  // whether a resource let go of its request unanswered.
  datatype Life = Life(processing: bool, armed: bool, ended: nat, crashed: bool, stale: bool, dropped: bool)

  const BORN: Life := Life(false, false, 0, false, false, false)

  datatype Conn = Conn(core: Core, keepAlive: bool, life: Life)

  // What a step asks of the timing wheel and of the manager, in order.
  datatype Effect = ArmTimer | ReleaseTimer | RunTerminatingHandler

  datatype Outcome = Outcome(conn: Conn, effects: seq<Effect>)

  function Ended(c: Conn): Outcome {
    Outcome(c.(life := c.life.(ended := c.life.ended + 1)), [RunTerminatingHandler])
  }

  // transceiver::cancel with the terminating handler.
  function Terminate(c: Conn): Outcome {
    if !Busy(c.core) then Ended(c) else Outcome(c.(core := c.core.(canceled := true)), [])
  }

  function NextRequest(c: Conn): Outcome {
    if c.keepAlive then
      Outcome(c.(core := c.core.(waiting := true, waitOp := true), life := c.life.(armed := true)), [ArmTimer])
    else Terminate(c)
  }

  // session::start
  function Start(): Conn {
    Conn(IDLE.(waiting := true, waitOp := true), false, BORN.(armed := true))
  }

  // A message is looked for, and handed to a resource if there is one. `fromBuffer` tells the return
  // inside async_receive, which leaves its flag set.
  function Searched(c: Conn, found: Found, keepAlive: bool, fromBuffer: bool): Conn {
    var d := c.(core := AfterSearch(c.core, found));
    match found
    case NeedMore => d
    case Unreadable => d.(life := c.life.(crashed := true, stale := fromBuffer))
    case NoBody => d.(keepAlive := keepAlive, life := c.life.(processing := true, stale := fromBuffer))
    case _ => d.(keepAlive := keepAlive, life := c.life.(processing := true))
  }

  // async_receive.
  function Receive(c: Conn, found: Found, keepAlive: bool): Conn {
    Searched(c.(core := c.core.(receiving := true), life := c.life.(stale := false)), found, keepAlive, true)
  }

  function After(first: seq<Effect>, o: Outcome): Outcome {
    Outcome(o.conn, first + o.effects)
  }

  // The wait completed: the timer is released, then a message is received or the session closed.
  function WaitDone(c: Conn, error: bool, found: Found, keepAlive: bool): Outcome {
    var d := c.(core := AfterWait(c.core));
    var e := d.(life := c.life.(armed := false));
    match ToldOfWait(c.core, error)
    case Canceled => Ended(d)
    case Success => Outcome(Receive(e, found, keepAlive), [ReleaseTimer])
    case Failure => After([ReleaseTimer], Terminate(e))
    case _ => Outcome(d, [])
  }

  // _header_receiving_handler: no look at the cancellation flag.
  function HeaderDone(c: Conn, error: bool, found: Found, keepAlive: bool): Outcome {
    var d := c.(core := c.core.(receiving := false, headerOp := false));
    if error then Terminate(d) else Outcome(Searched(d, found, keepAlive, false), [])
  }

  // A callback that is not about the session's own waits and sends.
  function Heeded(c: Conn, told: Told): Outcome {
    match told
    case Canceled => Ended(c)
    case Crash => Outcome(c.(life := c.life.(crashed := true)), [])
    case _ => Outcome(c, [])
  }

  function BodyDone(c: Conn, error: bool, more: bool): Outcome {
    Heeded(c.(core := AfterBodyRead(c.core, error, more)), ToldOfBody(c.core, error))
  }

  // A resource that wants the body first registers as its reader.
  function AwaitBody(c: Conn): Conn {
    c.(core := c.core.(reader := Application))
  }

  // The resource answers: async_send.
  function Respond(c: Conn, answer: Answer): Conn {
    c.(core := c.core.(sending := true, sendOp := HeaderSend(answer)), life := c.life.(processing := false))
  }

  // The resource returns, or catches an exception, without a call of the handler it was given.
  function Drop(c: Conn): Conn {
    c.(life := c.life.(processing := false, dropped := true))
  }

  // An exception leaves the resource.
  function Throw(c: Conn): Conn {
    c.(life := c.life.(processing := false, crashed := true))
  }

  // session::_send_handler.
  function SendDone(c: Conn, told: Told): Outcome {
    match told
    case Canceled => Ended(c)
    case Failure => Terminate(c)
    case Success => NextRequest(c)
    case _ => Outcome(c, [])
  }

  function HeaderSent(c: Conn, error: bool): Outcome {
    SendDone(c.(core := AfterHeaderSent(c.core, error)), ToldOfHeader(c.core, error))
  }

  function ContentSent(c: Conn, error: bool, more: bool): Outcome {
    SendDone(c.(core := AfterContentSent(c.core, error, more)), ToldOfContent(c.core, error, more))
  }

  // The wheel fires the session's handler, and deletes the token after it.
  function TimedOut(c: Conn): Outcome {
    Terminate(c.(life := c.life.(armed := false)))
  }

  datatype Event =
    | OnWait(error: bool, found: Found, keepAlive: bool)
    | OnHeader(error: bool, found: Found, keepAlive: bool)
    | OnBody(error: bool, more: bool)
    | OnAwaitBody
    | OnAnswer(answer: Answer)
    | OnDropped
    | OnThrown
    | OnHeaderSent(error: bool)
    | OnContentSent(error: bool, more: bool)
    | OnTimeout

  // The completion of an outstanding operation, with any result; what a resource that was asked makes of
  // it; the expiry of an armed timer. A header read is not started while a body is still being read.
  predicate Enabled(c: Conn, e: Event) {
    var k := c.core;
    !c.life.crashed &&
    match e
    case OnWait(error, _, _) => k.waitOp && (k.canceled || error || !k.bodyOp)
    case OnHeader(_, _, _) => k.headerOp
    case OnBody(_, _) => k.bodyOp
    case OnAwaitBody => c.life.processing && k.bodyOp && k.reader == Nobody
    case OnAnswer(_) => c.life.processing && k.reader == Nobody
    case OnDropped => c.life.processing && k.reader == Nobody
    case OnThrown => c.life.processing && k.reader == Nobody
    case OnHeaderSent(_) => k.sendOp.HeaderSend?
    case OnContentSent(_, _) => k.sendOp.ContentSend?
    case OnTimeout => c.life.armed
  }

  function Step(c: Conn, e: Event): Outcome {
    match e
    case OnWait(error, found, keepAlive) => WaitDone(c, error, found, keepAlive)
    case OnHeader(error, found, keepAlive) => HeaderDone(c, error, found, keepAlive)
    case OnBody(error, more) => BodyDone(c, error, more)
    case OnAwaitBody => Outcome(AwaitBody(c), [])
    case OnAnswer(answer) => Outcome(Respond(c, answer), [])
    case OnDropped => Outcome(Drop(c), [])
    case OnThrown => Outcome(Throw(c), [])
    case OnHeaderSent(error) => HeaderSent(c, error)
    case OnContentSent(error, more) => ContentSent(c, error, more)
    case OnTimeout => TimedOut(c)
  }

  // ---- safety ----

  // Nothing is outstanding that would still call back into the session.
  predicate Quiet(c: Conn) {
    && !c.core.waitOp && !c.core.headerOp && !c.core.bodyOp && c.core.sendOp.NoSend?
    && !c.life.processing && !c.life.armed
  }

  // An outstanding operation has its flag set.
  predicate Flagged(k: Core) {
    && (k.waitOp ==> k.waiting)
    && (k.headerOp || k.bodyOp ==> k.receiving)
    && (!k.sendOp.NoSend? ==> k.sending)
  }

  // The session does one thing at a time; only a body may be read beside it.
  predicate OneActivity(k: Core, processing: bool) {
    && (k.waitOp ==> !k.headerOp && k.sendOp.NoSend? && !processing && !k.sending)
    && (k.headerOp ==> !k.bodyOp && k.sendOp.NoSend? && !processing && !k.sending && !k.canceled)
    && (processing ==> k.sendOp.NoSend? && !k.canceled)
    && (k.canceled ==> k.sendOp.NoSend? && !k.sending)
    && (k.waiting ==> k.waitOp)
    && (k.reader != Nobody ==> k.bodyOp)
    && (k.reader == Application ==> processing)
    && (k.reader == Sender <==> k.sendOp == ContentRead)
  }

  // Nobody is left to go on with a session whose request was dropped.
  predicate Idle(c: Conn) {
    && !c.core.waitOp && !c.core.headerOp && c.core.sendOp.NoSend? && c.core.reader == Nobody
    && !c.life.processing && !c.core.canceled && c.life.ended == 0
  }

  predicate Safe(c: Conn) {
    && (c.life.dropped ==> Idle(c))
    && Flagged(c.core) && OneActivity(c.core, c.life.processing)
    && (c.life.armed <==> c.core.waitOp && !c.core.canceled)
    && (c.life.stale <==> c.core.receiving && !c.core.headerOp && !c.core.bodyOp)
    && c.life.ended <= 1 && (c.life.ended == 1 ==> Quiet(c))
  }

  // A session that has not ended.
  predicate Live(c: Conn) {
    Safe(c) && c.life.ended == 0
  }

  // A new session waits, with its timer set, and is not kept alive before a request asks for it.
  lemma StartIsSafe()
    ensures Live(Start())
    ensures Start().core.waitOp && Start().life.armed && !Start().keepAlive && !Start().core.canceled
  {
  }

  // An outcome that is safe: the terminating handler, if it ran, ran for the first time and with
  // nothing outstanding.
  predicate Fine(o: Outcome) {
    && Safe(o.conn)
    && (RunTerminatingHandler in o.effects <==> o.conn.life.ended == 1)
  }

  lemma TerminateIsFine(c: Conn)
    requires Live(c) && !c.core.canceled && !c.life.dropped
    requires !c.core.headerOp && c.core.sendOp.NoSend? && !c.life.processing && !c.core.sending && !c.life.armed
    ensures Fine(Terminate(c))
  {
  }

  lemma BodyIsFine(c: Conn, error: bool, more: bool)
    requires Live(c) && c.core.bodyOp
    ensures Fine(BodyDone(c, error, more))
  {
  }

  lemma ReceiveIsFine(c: Conn, found: Found, keepAlive: bool)
    requires Live(c) && !c.core.canceled && !c.life.dropped && !c.core.waitOp && !c.core.headerOp && !c.core.bodyOp
    requires c.core.sendOp.NoSend? && !c.core.sending && !c.life.processing && !c.life.armed
    ensures Fine(Outcome(Receive(c, found, keepAlive), [ReleaseTimer]))
  {
  }

  lemma WaitIsFine(c: Conn, error: bool, found: Found, keepAlive: bool)
    requires Live(c) && c.core.waitOp && (c.core.canceled || error || !c.core.bodyOp)
    ensures Fine(WaitDone(c, error, found, keepAlive))
  {
    var d := c.(core := AfterWait(c.core), life := c.life.(armed := false));
    if !c.core.canceled {
      if error {
        TerminateIsFine(d);
      } else {
        ReceiveIsFine(d, found, keepAlive);
      }
    }
  }

  lemma HeaderIsFine(c: Conn, error: bool, found: Found, keepAlive: bool)
    requires Live(c) && c.core.headerOp
    ensures Fine(HeaderDone(c, error, found, keepAlive))
  {
  }

  lemma SendIsFine(c: Conn, error: bool, more: bool)
    requires Live(c) && !c.core.canceled
    ensures c.core.sendOp.HeaderSend? ==> Fine(HeaderSent(c, error))
    ensures c.core.sendOp.ContentSend? ==> Fine(ContentSent(c, error, more))
  {
    var d := c.(core := c.core.(sending := false, sendOp := NoSend));
    if c.core.sendOp.HeaderSend? || c.core.sendOp.ContentSend? {
      assert Safe(d);
      TerminateIsFine(d);
    }
  }

  // Every step keeps the invariant.
  lemma StepIsSafe(c: Conn, e: Event)
    requires Live(c) && Enabled(c, e)
    ensures Fine(Step(c, e))
  {
    match e
    case OnWait(error, found, keepAlive) => WaitIsFine(c, error, found, keepAlive);
    case OnHeader(error, found, keepAlive) => HeaderIsFine(c, error, found, keepAlive);
    case OnBody(error, more) => BodyIsFine(c, error, more);
    case OnAwaitBody =>
    case OnAnswer(answer) =>
    case OnDropped =>
    case OnThrown =>
    case OnHeaderSent(error) => SendIsFine(c, error, false);
    case OnContentSent(error, more) => SendIsFine(c, error, more);
    case OnTimeout =>
  }

  // ---- runs ----

  predicate Allowed(c: Conn, events: seq<Event>)
    decreases |events|
  {
    events == [] || (Enabled(c, events[0]) && Allowed(Step(c, events[0]).conn, events[1..]))
  }

  function Run(c: Conn, events: seq<Event>): Conn
    decreases |events|
  {
    if events == [] then c else Run(Step(c, events[0]).conn, events[1..])
  }

  lemma EndedIsFinal(c: Conn, e: Event)
    requires Safe(c) && c.life.ended == 1
    ensures !Enabled(c, e)
  {
  }

  lemma {:induction false} RunIsSafe(c: Conn, events: seq<Event>)
    requires Safe(c) && Allowed(c, events)
    ensures Safe(Run(c, events))
    decreases |events|
  {
    if events != [] {
      if c.life.ended == 1 {
        EndedIsFinal(c, events[0]);
      } else {
        StepIsSafe(c, events[0]);
        RunIsSafe(Step(c, events[0]).conn, events[1..]);
      }
    }
  }

  // Over all interleavings: the terminating handler runs at most once; when it has run, no wait, read
  // or send is outstanding, the timer is not armed, and nothing can happen to the session any more.
  lemma TerminatesAtMostOnce(events: seq<Event>)
    requires Allowed(Start(), events)
    ensures var c := Run(Start(), events);
            && c.life.ended <= 1
            && (c.life.ended == 1 ==> Quiet(c) && forall e :: !Enabled(c, e))
            && (c.life.armed <==> c.core.waitOp && !c.core.canceled)
            && Flagged(c.core)
  {
    StartIsSafe();
    RunIsSafe(Start(), events);
    var c := Run(Start(), events);
    if c.life.ended == 1 {
      forall e ensures !Enabled(c, e) { EndedIsFinal(c, e); }
    }
  }

  lemma RunCons(c: Conn, e: Event, events: seq<Event>)
    ensures Run(c, [e] + events) == Run(Step(c, e).conn, events)
    ensures Allowed(c, [e] + events) <==> Enabled(c, e) && Allowed(Step(c, e).conn, events)
  {
    assert ([e] + events)[1..] == events;
  }

  lemma RunFrom(c: Conn, es: seq<Event>, i: nat)
    requires i < |es|
    ensures Run(c, es[i..]) == Run(Step(c, es[i]).conn, es[i + 1..])
    ensures Allowed(c, es[i..]) <==> Enabled(c, es[i]) && Allowed(Step(c, es[i]).conn, es[i + 1..])
  {
    assert es[i..] == [es[i]] + es[i + 1..];
    RunCons(c, es[i], es[i + 1..]);
  }

  // ---- a cancelled transceiver ----

  // Whatever completes on it, with an error or not: its flag goes, nothing new is begun, and the last one out,
  // and only it, runs the handler.
  lemma LastOutTells(k: Core, error: bool, more: bool)
    requires k.canceled
    ensures AfterWait(k) == k.(waitOp := false, waiting := false)
    ensures ToldOfWait(k, error) == if k.receiving || k.sending then Silent else Canceled
    ensures AfterBodyRead(k, error, more) == k.(receiving := false, bodyOp := false, reader := Nobody)
    ensures ToldOfBody(k, error) == if k.sending || k.waiting then Silent else Canceled
    ensures AfterHeaderSent(k, error) == AfterContentSent(k, error, more) == k.(sending := false, sendOp := NoSend)
    ensures ToldOfHeader(k, error) == ToldOfContent(k, error, more)
            == if k.receiving || k.waiting then Silent else Canceled
  {
  }

  // A message that is found all the same: no body read is begun, and the sending flag is set in its place.
  lemma CanceledTakesNoBody(k: Core, found: Found)
    requires k.canceled && (found.BodyComplete? || found.BodyPending?)
    ensures AfterBody(k, found) == k.(receiving := false, sending := true)
  {
  }

  // ---- what a step does, told effect by effect ----

  // The answer is out, and nothing of it is left to be sent.
  predicate Answered(c: Conn, e: Event) {
    || (e.OnHeaderSent? && !e.error && c.core.sendOp.HeaderSend? && c.core.sendOp.answer.NoBytes?)
    || (e.OnContentSent? && !e.error && !e.more)
  }

  // A wait, a read or a send that failed, or a response that has no content at all.
  predicate Broken(c: Conn, e: Event) {
    || (e.OnWait? && e.error) || (e.OnHeader? && e.error) || (e.OnContentSent? && e.error)
    || (e.OnHeaderSent? && (e.error || (c.core.sendOp.HeaderSend? && c.core.sendOp.answer.NoContent?)))
  }

  // The next request is waited for exactly once an answer is out on a connection that is kept alive; the
  // timer is released exactly when a wait is over.
  lemma TimerIff(c: Conn, e: Event)
    requires Live(c) && Enabled(c, e)
    ensures var o := Step(c, e);
            && (ArmTimer in o.effects <==> Answered(c, e) && c.keepAlive)
            && (o.conn.core.waitOp <==> (c.core.waitOp && !e.OnWait?) || (Answered(c, e) && c.keepAlive))
            && (ReleaseTimer in o.effects <==> e.OnWait? && !c.core.canceled)
  {
    match e
    case OnWait(error, found, keepAlive) =>
    case OnHeader(error, found, keepAlive) =>
    case OnBody(error, more) =>
    case OnAwaitBody =>
    case OnAnswer(answer) =>
    case OnDropped =>
    case OnThrown =>
    case OnHeaderSent(error) =>
    case OnContentSent(error, more) =>
    case OnTimeout =>
  }

  predicate Closing(c: Conn) {
    c.life.ended == 1 || c.core.canceled
  }

  lemma ReceiveCloses(c: Conn, error: bool, found: Found, keepAlive: bool)
    requires Live(c)
    ensures c.core.waitOp ==> (Closing(WaitDone(c, error, found, keepAlive).conn) <==> c.core.canceled || error)
    ensures c.core.headerOp ==> (Closing(HeaderDone(c, error, found, keepAlive).conn) <==> error)
  {
  }

  lemma HeaderSentCloses(c: Conn, error: bool)
    requires Live(c) && c.core.sendOp.HeaderSend?
    ensures var a := c.core.sendOp.answer;
            Closing(HeaderSent(c, error).conn) <==> error || a.NoContent? || (a.NoBytes? && !c.keepAlive)
  {
  }

  // A session is asked to end exactly by a failure, by its timer, or by the answer to its last request.
  lemma ClosesIff(c: Conn, e: Event)
    requires Live(c) && Enabled(c, e)
    ensures Closing(Step(c, e).conn) <==>
              c.core.canceled || Broken(c, e) || e.OnTimeout? || (Answered(c, e) && !c.keepAlive)
  {
    match e
    case OnWait(error, found, keepAlive) => ReceiveCloses(c, error, found, keepAlive);
    case OnHeader(error, found, keepAlive) => ReceiveCloses(c, error, found, keepAlive);
    case OnBody(error, more) =>
    case OnAwaitBody =>
    case OnAnswer(answer) =>
    case OnDropped =>
    case OnThrown =>
    case OnHeaderSent(error) => HeaderSentCloses(c, error);
    case OnContentSent(error, more) =>
    case OnTimeout =>
  }

  // It ends then at once if no flag is left, else with the completion that clears the last one.
  lemma EndsIff(c: Conn, e: Event)
    requires Live(c) && Enabled(c, e)
    ensures var d := Step(c, e).conn; d.life.ended == 1 <==> Closing(d) && !Busy(d.core)
  {
    match e
    case OnWait(error, found, keepAlive) =>
    case OnHeader(error, found, keepAlive) =>
    case OnBody(error, more) =>
    case OnAwaitBody =>
    case OnAnswer(answer) =>
    case OnDropped =>
    case OnThrown =>
    case OnHeaderSent(error) =>
    case OnContentSent(error, more) =>
    case OnTimeout =>
  }

  // A message is looked for, and is there.
  predicate Looks(c: Conn, e: Event) {
    (e.OnWait? && !e.error && !c.core.canceled) || (e.OnHeader? && !e.error)
  }

  predicate Finds(c: Conn, e: Event) {
    Looks(c, e) && !e.found.NeedMore? && !e.found.Unreadable?
  }

  // A resource works on a request from the step that finds it to its answer.
  lemma RequestIff(c: Conn, e: Event)
    requires Live(c) && Enabled(c, e)
    ensures Step(c, e).conn.life.processing <==>
              Finds(c, e) || (c.life.processing && !e.OnAnswer? && !e.OnDropped? && !e.OnThrown?)
  {
    match e
    case OnWait(error, found, keepAlive) =>
    case OnHeader(error, found, keepAlive) =>
    case OnBody(error, more) =>
    case OnAwaitBody =>
    case OnAnswer(answer) =>
    case OnDropped =>
    case OnThrown =>
    case OnHeaderSent(error) =>
    case OnContentSent(error, more) =>
    case OnTimeout =>
  }

  // The request says whether the connection is kept alive.
  lemma KeptAliveIff(c: Conn, e: Event)
    requires Live(c) && Enabled(c, e)
    ensures Step(c, e).conn.keepAlive == if Finds(c, e) then e.keepAlive else c.keepAlive
    ensures Step(c, e).conn.life.dropped <==> c.life.dropped || e.OnDropped?
  {
    match e
    case OnWait(error, found, keepAlive) =>
    case OnHeader(error, found, keepAlive) =>
    case OnBody(error, more) =>
    case OnAwaitBody =>
    case OnAnswer(answer) =>
    case OnDropped =>
    case OnThrown =>
    case OnHeaderSent(error) =>
    case OnContentSent(error, more) =>
    case OnTimeout =>
  }

  // A header is read while none is found ...
  lemma HeaderReadIff(c: Conn, e: Event)
    requires Live(c) && Enabled(c, e)
    ensures Step(c, e).conn.core.headerOp <==> (Looks(c, e) && e.found.NeedMore?) || (c.core.headerOp && !e.OnHeader?)
  {
    match e
    case OnWait(error, found, keepAlive) =>
    case OnHeader(error, found, keepAlive) =>
    case OnBody(error, more) =>
    case OnAwaitBody =>
    case OnAnswer(answer) =>
    case OnDropped =>
    case OnThrown =>
    case OnHeaderSent(error) =>
    case OnContentSent(error, more) =>
    case OnTimeout =>
  }

  // ... and a body until it is complete, or fails.
  lemma BodyReadIff(c: Conn, e: Event)
    requires Live(c) && Enabled(c, e)
    ensures Step(c, e).conn.core.bodyOp <==>
              || (Looks(c, e) && e.found.BodyPending?)
              || (c.core.bodyOp && (e.OnBody? ==> !e.error && e.more && !c.core.canceled))
  {
    match e
    case OnWait(error, found, keepAlive) =>
    case OnHeader(error, found, keepAlive) =>
    case OnBody(error, more) =>
    case OnAwaitBody =>
    case OnAnswer(answer) =>
    case OnDropped =>
    case OnThrown =>
    case OnHeaderSent(error) =>
    case OnContentSent(error, more) =>
    case OnTimeout =>
  }

  // The flag of the receiver: a receive of a body-less message from the buffer leaves it set, and so does one
  // of a message that cannot be read, until the next receive.
  lemma ReceivingIff(c: Conn, e: Event)
    requires Live(c) && Enabled(c, e)
    ensures var d := Step(c, e).conn;
            && (d.core.receiving <==> d.core.headerOp || d.core.bodyOp || d.life.stale)
            && (d.life.stale <==>
                  if e.OnWait? && Looks(c, e) then e.found.NoBody? || e.found.Unreadable? else c.life.stale)
  {
    StepIsSafe(c, e);
    match e
    case OnWait(error, found, keepAlive) =>
    case OnHeader(error, found, keepAlive) =>
    case OnBody(error, more) =>
    case OnAwaitBody =>
    case OnAnswer(answer) =>
    case OnDropped =>
    case OnThrown =>
    case OnHeaderSent(error) =>
    case OnContentSent(error, more) =>
    case OnTimeout =>
  }

  // What is sent: the header of the answer, then its content, if there is one; the request's own body once
  // all of it is there.
  lemma SendsIs(c: Conn, e: Event)
    requires Live(c) && Enabled(c, e)
    ensures Step(c, e).conn.core.sendOp ==
            if e.OnAnswer? then HeaderSend(e.answer)
            else if e.OnHeaderSent? && !e.error && (c.core.sendOp.answer.AtOnce? || c.core.sendOp.answer.Echo?) then
              if c.core.sendOp.answer.Echo? && c.core.bodyOp then ContentRead else ContentSend
            else if e.OnContentSent? && !e.error && e.more then ContentSend
            else if e.OnHeaderSent? || e.OnContentSent? then NoSend
            else if e.OnBody? && c.core.reader == Sender && e.error then NoSend
            else if e.OnBody? && c.core.reader == Sender && !e.more then ContentSend
            else c.core.sendOp
  {
    match e
    case OnWait(error, found, keepAlive) =>
    case OnHeader(error, found, keepAlive) =>
    case OnBody(error, more) =>
    case OnAwaitBody =>
    case OnAnswer(answer) =>
    case OnDropped =>
    case OnThrown =>
    case OnHeaderSent(error) =>
    case OnContentSent(error, more) =>
    case OnTimeout =>
  }

  // Who waits for the body under way: the application once it asks, the sender once it echoes, nobody else.
  lemma ReaderIs(c: Conn, e: Event)
    requires Live(c) && Enabled(c, e)
    ensures Step(c, e).conn.core.reader ==
            if e.OnAwaitBody? then Application
            else if e.OnHeaderSent? && !e.error && c.core.sendOp.answer.Echo? && c.core.bodyOp then Sender
            else if e.OnBody? && (e.error || !e.more || c.core.canceled) then Nobody
            else c.core.reader
  {
    match e
    case OnWait(error, found, keepAlive) =>
    case OnHeader(error, found, keepAlive) =>
    case OnBody(error, more) =>
    case OnAwaitBody =>
    case OnAnswer(answer) =>
    case OnDropped =>
    case OnThrown =>
    case OnHeaderSent(error) =>
    case OnContentSent(error, more) =>
    case OnTimeout =>
  }

  // The flag of the sender: also set by a body that is found, and left set by an echo that fails.
  lemma SendingIff(c: Conn, e: Event)
    requires Live(c) && Enabled(c, e)
    ensures var d := Step(c, e).conn.core;
            d.sending <==>
              || !d.sendOp.NoSend?
              || (Looks(c, e) && (e.found.BodyComplete? || e.found.BodyPending?))
              || (c.core.sending && !e.OnHeaderSent? && !e.OnContentSent?)
  {
    match e
    case OnWait(error, found, keepAlive) =>
    case OnHeader(error, found, keepAlive) =>
    case OnBody(error, more) =>
    case OnAwaitBody =>
    case OnAnswer(answer) =>
    case OnDropped =>
    case OnThrown =>
    case OnHeaderSent(error) =>
    case OnContentSent(error, more) =>
    case OnTimeout =>
  }

  // ---- where the code's guarantees stop: a body read beside a header read ----

  // A header read beside a body read shares its flag. So the invariant survives a successful wait
  // exactly if no body is being read ...
  lemma OverlapIsTheOnlyGap(c: Conn)
    requires Live(c) && c.core.waitOp && !c.core.canceled
    ensures (forall found, keepAlive :: Safe(WaitDone(c, false, found, keepAlive).conn)) <==> !c.core.bodyOp
  {
    if c.core.bodyOp {
      var d := WaitDone(c, false, NeedMore, true).conn;
      assert d.core.headerOp && d.core.bodyOp;
    } else {
      forall found, keepAlive ensures Safe(WaitDone(c, false, found, keepAlive).conn) {
        WaitIsFine(c, false, found, keepAlive);
      }
    }
  }

  // ... and with one, a failing header read ends the session while that body read is outstanding.
  lemma OverlapEndsTooEarly(c: Conn, keepAlive: bool)
    requires Live(c) && c.core.waitOp && !c.core.canceled && c.core.bodyOp
    ensures var d := HeaderDone(WaitDone(c, false, NeedMore, keepAlive).conn, true, NeedMore, keepAlive).conn;
            d.life.ended == 1 && d.core.bodyOp
  {
  }

  // A run that gets there: a GET of a file, with a body that is still under way when all of the file has
  // been sent. Filesystem nodes do not wait for a body.
  function AnsweredTooSoon(): seq<Event> {
    [OnWait(false, NeedMore, true), OnHeader(false, BodyPending, true), OnAnswer(AtOnce), OnHeaderSent(false),
     OnContentSent(false, false)]
  }

  lemma OverlapIsReached()
    ensures Allowed(Start(), AnsweredTooSoon())
    ensures var c := Run(Start(), AnsweredTooSoon());
            && Live(c) && c.core.waitOp && !c.core.canceled && c.core.bodyOp
            && var d := HeaderDone(WaitDone(c, false, NeedMore, true).conn, true, NeedMore, true).conn;
               d.life.ended == 1 && d.core.bodyOp
  {
    var es := AnsweredTooSoon();
    var c1 := Step(Start(), es[0]).conn;
    var c2 := Step(c1, es[1]).conn;
    var c3 := Step(c2, es[2]).conn;
    var c4 := Step(c3, es[3]).conn;
    var c5 := Step(c4, es[4]).conn;
    assert Live(c5) && c5.core.waitOp && !c5.core.canceled && c5.core.bodyOp;
    OverlapEndsTooEarly(c5, true);
    RunFrom(c4, es, 4);
    RunFrom(c3, es, 3);
    RunFrom(c2, es, 2);
    RunFrom(c1, es, 1);
    RunFrom(Start(), es, 0);
    assert es[5..] == [] && es[0..] == es;
  }

  // ---- exceptions ----

  // A step ends the process exactly if it takes a header that cannot be read, brings the error of a body
  // read that nobody waits for to a transceiver that is not canceled, or is an exception of a resource.
  lemma CrashesIff(c: Conn, e: Event)
    requires Live(c) && Enabled(c, e)
    ensures Step(c, e).conn.life.crashed <==>
            match e
            case OnWait(error, found, _) => !c.core.canceled && !error && found.Unreadable?
            case OnHeader(error, found, _) => !error && found.Unreadable?
            case OnBody(error, _) => !c.core.canceled && error && c.core.reader == Nobody
            case OnThrown => true
            case _ => false
  {
    match e
    case OnWait(error, found, keepAlive) =>
    case OnHeader(error, found, keepAlive) =>
    case OnBody(error, more) =>
    case OnAwaitBody =>
    case OnAnswer(answer) =>
    case OnDropped =>
    case OnThrown =>
    case OnHeaderSent(error) =>
    case OnContentSent(error, more) =>
    case OnTimeout =>
  }

  // A run that does: the peer goes away in the middle of a body that no resource asked for.
  lemma UnawaitedBodyCrashes()
    ensures Allowed(Start(), AnsweredTooSoon() + [OnBody(true, true)])
    ensures Run(Start(), AnsweredTooSoon() + [OnBody(true, true)]).life.crashed
  {
    OverlapIsReached();
    RunAppend(Start(), AnsweredTooSoon(), OnBody(true, true));
    CrashesIff(Run(Start(), AnsweredTooSoon()), OnBody(true, true));
  }

  lemma {:induction false} RunAppend(c: Conn, events: seq<Event>, e: Event)
    ensures Run(c, events + [e]) == Step(Run(c, events), e).conn
    ensures Allowed(c, events + [e]) <==> Allowed(c, events) && Enabled(Run(c, events), e)
    decreases |events|
  {
    if events == [] {
      assert events + [e] == [e] + [];
      RunCons(c, e, []);
    } else {
      assert events + [e] == [events[0]] + (events[1..] + [e]);
      RunCons(c, events[0], events[1..] + [e]);
      RunAppend(Step(c, events[0]).conn, events[1..], e);
    }
  }

  // A failed body read that somebody waits for goes unnoticed: the application answers, and the session
  // waits for its next request as at its start.
  function FailedBody(): seq<Event> {
    [OnWait(false, NeedMore, true), OnHeader(false, BodyPending, true), OnAwaitBody, OnBody(true, true),
     OnAnswer(AtOnce), OnHeaderSent(false), OnContentSent(false, false)]
  }

  // A resource works on a request that has no body left to come.
  function Asked(): Conn {
    Conn(IDLE.(sending := true), true, BORN.(processing := true))
  }

  lemma AskedIsAnswered()
    ensures var c := Step(Asked(), OnAnswer(AtOnce)).conn;
            var d := Step(c, OnHeaderSent(false)).conn;
            && Enabled(Asked(), OnAnswer(AtOnce)) && Enabled(c, OnHeaderSent(false))
            && Enabled(d, OnContentSent(false, false))
            && Step(d, OnContentSent(false, false)).conn == Start().(keepAlive := true)
  {
  }

  lemma FailedBodyGoesOn()
    ensures Allowed(Start(), FailedBody())
    ensures Run(Start(), FailedBody()) == Start().(keepAlive := true)
  {
    var es := FailedBody();
    var c1 := Step(Start(), es[0]).conn;
    var c2 := Step(c1, es[1]).conn;
    var c3 := Step(c2, es[2]).conn;
    var c4 := Step(c3, es[3]).conn;
    assert c4 == Asked();
    var c5 := Step(c4, es[4]).conn;
    var c6 := Step(c5, es[5]).conn;
    AskedIsAnswered();
    RunFrom(c6, es, 6);
    RunFrom(c5, es, 5);
    RunFrom(c4, es, 4);
    RunFrom(c3, es, 3);
    RunFrom(c2, es, 2);
    RunFrom(c1, es, 1);
    RunFrom(Start(), es, 0);
    assert es[7..] == [] && es[0..] == es;
  }

  // ---- sessions that never end ----

  // The reader of an echoed body got an error, does nothing, and leaves the sending flag set.
  predicate EchoLost(c: Conn) {
    && c.core.sending && !c.core.canceled && c.core.sendOp.NoSend? && !c.life.processing
    && !c.core.waitOp && !c.core.headerOp && !c.core.bodyOp && !c.life.dropped && !c.life.crashed
  }

  // The resource let go of the request, and no body of it is on its way.
  predicate DropLost(c: Conn) {
    c.life.dropped && !c.core.bodyOp && !c.life.crashed
  }

  // Cancellation waits for the flag that a receive of a body-less message from the buffer left set.
  predicate CancelLost(c: Conn) {
    c.core.canceled && c.life.stale && !c.core.waitOp
  }

  // The session has not ended, and nothing can happen to it.
  ghost predicate Dead(c: Conn) {
    c.life.ended == 0 && !c.life.crashed && forall e :: !Enabled(c, e)
  }

  // Something is still to come, or it is one of the three losses.
  predicate Going(c: Conn) {
    || c.life.ended == 1 || c.life.crashed || c.life.dropped
    || c.core.waitOp || c.core.headerOp || c.life.processing || !c.core.sendOp.NoSend?
    || (c.core.canceled && (c.core.bodyOp || c.life.stale))
    || EchoLost(c)
  }

  lemma SendKeepsGoing(c: Conn, error: bool, more: bool)
    requires Live(c) && Going(c)
    ensures c.core.sendOp.HeaderSend? ==> Going(HeaderSent(c, error).conn)
    ensures c.core.sendOp.ContentSend? ==> Going(ContentSent(c, error, more).conn)
  {
  }

  lemma StepKeepsGoing(c: Conn, e: Event)
    requires Live(c) && Going(c) && Enabled(c, e)
    ensures Going(Step(c, e).conn)
  {
    match e
    case OnWait(error, found, keepAlive) =>
    case OnHeader(error, found, keepAlive) =>
    case OnBody(error, more) =>
    case OnAwaitBody =>
    case OnAnswer(answer) =>
    case OnDropped =>
    case OnThrown =>
    case OnHeaderSent(error) => SendKeepsGoing(c, error, false);
    case OnContentSent(error, more) => SendKeepsGoing(c, error, more);
    case OnTimeout =>
  }

  lemma {:induction false} RunKeepsGoing(c: Conn, events: seq<Event>)
    requires Safe(c) && Going(c) && Allowed(c, events)
    ensures Going(Run(c, events))
    decreases |events|
  {
    if events != [] {
      if c.life.ended == 1 {
        EndedIsFinal(c, events[0]);
      } else {
        StepKeepsGoing(c, events[0]);
        StepIsSafe(c, events[0]);
        RunKeepsGoing(Step(c, events[0]).conn, events[1..]);
      }
    }
  }

  predicate Lost(c: Conn) {
    CancelLost(c) || EchoLost(c) || DropLost(c)
  }

  // Over every run, the sessions that are dead are exactly those three.
  lemma DeadIff(events: seq<Event>)
    requires Allowed(Start(), events)
    ensures var c := Run(Start(), events);
            Dead(c) <==> c.life.ended == 0 && !c.life.crashed && Lost(c)
  {
    StartIsSafe();
    RunIsSafe(Start(), events);
    RunKeepsGoing(Start(), events);
    var c := Run(Start(), events);
    if Dead(c) {
      NothingEnabled(c);
    } else if c.life.ended == 0 && !c.life.crashed && Lost(c) {
      forall e ensures !Enabled(c, e) { LostIsFinal(c, e); }
    }
  }

  lemma NothingEnabled(c: Conn)
    requires Live(c) && Dead(c)
    ensures Quiet(c)
  {
    assert !Enabled(c, OnWait(true, NeedMore, false));
    assert !Enabled(c, OnHeader(true, NeedMore, false));
    assert !Enabled(c, OnBody(true, false));
    assert !Enabled(c, OnAnswer(NoBytes));
    assert !Enabled(c, OnHeaderSent(true));
    assert !Enabled(c, OnContentSent(true, false));
  }

  lemma LostIsFinal(c: Conn, e: Event)
    requires Live(c) && Lost(c)
    ensures !Enabled(c, e)
  {
  }

  // The one step that loses a session by an echo: the body it waits for fails.
  lemma EchoIsLostIff(c: Conn, e: Event)
    requires Live(c) && Going(c) && Enabled(c, e)
    ensures EchoLost(Step(c, e).conn) <==> e.OnBody? && e.error && c.core.reader == Sender
  {
    match e
    case OnWait(error, found, keepAlive) =>
    case OnHeader(error, found, keepAlive) =>
    case OnBody(error, more) =>
    case OnAwaitBody =>
    case OnAnswer(answer) =>
    case OnDropped =>
    case OnThrown =>
    case OnHeaderSent(error) =>
    case OnContentSent(error, more) =>
    case OnTimeout =>
  }

  // The two steps that lose a session by a dropped request: the resource drops it, or the rest of its body
  // arrives. When that body fails instead, the process ends.
  lemma DropIsLostIff(c: Conn, e: Event)
    requires Live(c) && Enabled(c, e)
    ensures DropLost(Step(c, e).conn)
            <==> (e.OnDropped? && !c.core.bodyOp) || (e.OnBody? && c.life.dropped && !e.error && !e.more)
    ensures c.life.dropped ==> e.OnBody? && Step(c, e).conn.life.crashed == e.error
  {
    match e
    case OnWait(error, found, keepAlive) =>
    case OnHeader(error, found, keepAlive) =>
    case OnBody(error, more) =>
    case OnAwaitBody =>
    case OnAnswer(answer) =>
    case OnDropped =>
    case OnThrown =>
    case OnHeaderSent(error) =>
    case OnContentSent(error, more) =>
    case OnTimeout =>
  }

  // A run that does: a PUT to a filesystem node, whose handler of PUT is empty.
  function DroppedPut(): seq<Event> {
    [OnWait(false, NeedMore, true), OnHeader(false, NoBody, true), OnDropped]
  }

  lemma DroppedPutIsDead()
    ensures Allowed(Start(), DroppedPut()) && Dead(Run(Start(), DroppedPut()))
    ensures DropLost(Run(Start(), DroppedPut()))
  {
    var es := DroppedPut();
    var c1 := Step(Start(), es[0]).conn;
    var c2 := Step(c1, es[1]).conn;
    var c3 := Step(c2, es[2]).conn;
    assert c2.life.processing;
    assert DropLost(c3) && c3.life.ended == 0 && !c3.life.crashed;
    RunFrom(c2, es, 2);
    RunFrom(c1, es, 1);
    RunFrom(Start(), es, 0);
    assert es[3..] == [] && es[0..] == es;
    DeadIff(es);
  }

  function FailedEcho(): seq<Event> {
    [OnWait(false, NeedMore, true), OnHeader(false, BodyPending, true), OnAnswer(Echo), OnHeaderSent(false),
     OnBody(true, true)]
  }

  lemma FailedEchoIsDead()
    ensures Allowed(Start(), FailedEcho()) && Dead(Run(Start(), FailedEcho()))
    ensures EchoLost(Run(Start(), FailedEcho()))
  {
    var es := FailedEcho();
    var c1 := Step(Start(), es[0]).conn;
    var c2 := Step(c1, es[1]).conn;
    var c3 := Step(c2, es[2]).conn;
    var c4 := Step(c3, es[3]).conn;
    var c5 := Step(c4, es[4]).conn;
    assert c4.core.reader == Sender && c4.core.bodyOp;
    assert EchoLost(c5) && c5.life.ended == 0 && !c5.life.crashed;
    RunFrom(c4, es, 4);
    RunFrom(c3, es, 3);
    RunFrom(c2, es, 2);
    RunFrom(c1, es, 1);
    RunFrom(Start(), es, 0);
    assert es[5..] == [] && es[0..] == es;
    DeadIff(es);
  }

  // The completions of a canceled session, in any order, once nothing of it is outstanding: it has ended
  // exactly if no stale flag was left.
  lemma {:induction false} CancelCompletesIffNotStale(c: Conn, events: seq<Event>)
    requires Live(c) && c.core.canceled && (c.core.waitOp || c.core.bodyOp) && Allowed(c, events)
    ensures var d := Run(c, events);
            !d.core.waitOp && !d.core.bodyOp ==> (d.life.ended == 1 <==> !c.life.stale)
    decreases |events|
  {
    if events != [] {
      var e, rest := events[0], events[1..];
      var d := Step(c, e).conn;
      StepIsSafe(c, e);
      CanceledStep(c, e);
      if d.core.waitOp || d.core.bodyOp {
        CancelCompletesIffNotStale(d, rest);
      } else if rest != [] {
        if d.life.ended == 1 { EndedIsFinal(d, rest[0]); } else { LostIsFinal(d, rest[0]); }
      }
    }
  }

  lemma CanceledStep(c: Conn, e: Event)
    requires Live(c) && c.core.canceled && Enabled(c, e)
    ensures var d := Step(c, e).conn;
            && (e.OnWait? || e.OnBody?) && d.core.canceled && d.life.stale == c.life.stale
            && (d.core.waitOp || d.core.bodyOp ==> d.life.ended == 0)
            && (!d.core.waitOp && !d.core.bodyOp ==> (d.life.ended == 1 <==> !c.life.stale))
  {
  }

  // Such completions there are: all that is outstanding fails.
  lemma CanceledCanComplete(c: Conn) returns (events: seq<Event>)
    requires Live(c) && c.core.canceled && (c.core.waitOp || c.core.bodyOp) && !c.life.crashed
    ensures Allowed(c, events) && !Run(c, events).core.waitOp && !Run(c, events).core.bodyOp
    decreases c.core.waitOp, c.core.bodyOp
  {
    var e := if c.core.waitOp then OnWait(true, NeedMore, false) else OnBody(true, false);
    var d := Step(c, e).conn;
    StepIsSafe(c, e);
    CrashesIff(c, e);
    events := [];
    if d.core.waitOp || d.core.bodyOp {
      CanceledStep(c, e);
      events := CanceledCanComplete(d);
    }
    RunCons(c, e, events);
    events := [e] + events;
  }

  // Without anything outstanding a request to terminate is carried out at once exactly if neither a
  // stale flag nor a lost echo's is left.
  lemma IdleTerminatesIffNotStale(c: Conn)
    requires Live(c) && !c.core.canceled && Quiet(c)
    ensures Terminate(c).conn.life.ended == 1 <==> !c.life.stale && !c.core.sending
  {
  }

  // A run that ends so: two body-less requests in one read, the second to be the last of its
  // connection. Its session is canceled, has nothing outstanding, and never ends.
  function TwoInOneRead(): seq<Event> {
    [OnWait(false, NeedMore, true), OnHeader(false, NoBody, true), OnAnswer(NoBytes), OnHeaderSent(false),
     OnWait(false, NoBody, false), OnAnswer(NoBytes), OnHeaderSent(false)]
  }

  lemma StaleSessionLingers()
    ensures Allowed(Start(), TwoInOneRead()) && Dead(Run(Start(), TwoInOneRead()))
    ensures CancelLost(Run(Start(), TwoInOneRead()))
  {
    var es := TwoInOneRead();
    var c1 := Step(Start(), es[0]).conn;
    var c2 := Step(c1, es[1]).conn;
    var c3 := Step(c2, es[2]).conn;
    var c4 := Step(c3, es[3]).conn;
    assert c4 == Start().(keepAlive := true);
    var c5 := Step(c4, es[4]).conn;
    var c6 := Step(c5, es[5]).conn;
    var c7 := Step(c6, es[6]).conn;
    assert CancelLost(c7) && c7.life.ended == 0 && !c7.life.crashed;
    RunFrom(c6, es, 6);
    RunFrom(c5, es, 5);
    RunFrom(c4, es, 4);
    RunFrom(c3, es, 3);
    RunFrom(c2, es, 2);
    RunFrom(c1, es, 1);
    RunFrom(Start(), es, 0);
    assert es[7..] == [] && es[0..] == es;
    DeadIff(es);
  }
}
