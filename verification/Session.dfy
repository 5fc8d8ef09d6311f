// session: waits for a request, receives it, has it answered, sends the answer, and starts over or ends.
// Each handler is a step of Connections, on the flags and the bytes the transceiver really has.
module Sessions {
  import opened Text
  import opened Messages
  import opened Matcher
  import opened HeaderCodec
  import opened RoundTrip
  import opened TransmittingContents
  import opened Transceivers
  import R = Receiving
  import S = SendLoop
  import L = Lifecycle
  import C = Connections

  // The message that arrived, as it is now.
  ghost function HitOf(a: Arrival): C.Hit
    reads if a.Arrived? then {a.msg} else {}
  {
    match a
    case Arrived(msg, found) => C.Request(msg.View(), found)
    case Lost => C.Garbled
    case _ => C.Nothing
  }

  lemma FindsIs(a: Arrival, data: string)
    requires Finds(a, data)
    ensures HitOf(a) == C.Search(data) && FoundOf(a) == C.FoundOf(HitOf(a)) && Known(a)
  {
    FoundIsKnown(a, data);
  }

  function AfterArrival(life: L.Life, a: Arrival, fromBuffer: bool): L.Life {
    match a
    case Arrived(_, found) => life.(processing := true, stale := if found.NoBody? then fromBuffer else life.stale)
    case Lost => life.(crashed := true, stale := fromBuffer)
    case _ => life
  }

  // A message looked for: what the transceiver finds and the session makes of it.
  lemma SearchedIs(c: L.Conn, keepAlive: bool, a: Arrival, fromBuffer: bool)
    requires Known(a)
    ensures L.Searched(c, FoundOf(a), keepAlive, fromBuffer)
            == L.Conn(L.AfterSearch(c.core, FoundOf(a)), if a.Arrived? then keepAlive else c.keepAlive,
                      AfterArrival(c.life, a, fromBuffer))
  {
  }

  // What a session sees of a receive.
  method AsyncReceive(trx: Transceiver) returns (a: Arrival)
    requires trx.Valid() && trx.readOp == NoRead && !trx.over
    modifies trx, trx.buf
    ensures trx.Valid() && Known(a) && (trx.over <==> a == Lost) && fresh(trx.Repr() - old(trx.Repr()))
    ensures trx.View() == L.AfterSearch(old(trx.View()).(receiving := true), FoundOf(a))
    ensures HitOf(a) == C.Search(old(trx.Rx()).q.data)
    ensures !trx.over && !trx.canceled ==> trx.Rx() == R.Start(old(trx.Rx()))
  {
    ghost var data := trx.buf.Contents();
    a := trx.AsyncReceive();
    trx.GrownIsNew();
    FindsIs(a, data);
  }

  method HeaderReceivingHandler(trx: Transceiver, error: bool, bytes: string) returns (a: Arrival)
    requires trx.Valid() && trx.readOp.HeaderRead? && !trx.over && |bytes| <= trx.buf.capacity
    modifies trx, trx.buf, trx.buf.blocks
    ensures trx.Valid() && (trx.over <==> error || a == Lost) && (!error ==> Known(a)) && (error ==> a == Failed)
    ensures var c := old(trx.View()).(receiving := false, headerOp := false);
            trx.View() == if error then c else L.AfterSearch(c, FoundOf(a))
    ensures fresh(trx.Repr() - old(trx.Repr())) && (!error ==> HitOf(a) == C.Search(old(trx.Rx()).q.data + bytes))
    ensures !trx.over && !trx.canceled ==> trx.Rx() == R.HeaderBytes(old(trx.Rx()), bytes)
  {
    ghost var data := trx.buf.Contents() + bytes;
    a := trx.HeaderReceivingHandler(error, bytes);
    trx.GrownIsNew();
    if !error {
      FindsIs(a, data);
    }
  }

  method OnBodyRead(trx: Transceiver, error: bool, bytes: string) returns (told: L.Told)
    requires trx.Valid() && trx.readOp.BodyRead? && !trx.over
    requires trx.readOp.content.available + |bytes| <= trx.readOp.content.buffer.Length
    modifies trx, trx.Body()
    ensures trx.Valid() && !trx.over
    ensures var more := old(trx.readOp.content.available) + |bytes| < old(trx.readOp.content.buffer).Length;
            trx.View() == L.AfterBodyRead(old(trx.View()), error, more) && more == C.Missing(old(trx.Rx()), bytes)
    ensures told == L.ToldOfBody(old(trx.View()), error) && fresh(trx.Repr() - old(trx.Repr()))
    ensures !trx.canceled ==>
              trx.Rx() == if error then R.BodyFails(old(trx.Rx())) else R.BodyBytes(old(trx.Rx()), bytes)
  {
    told := trx.OnBodyRead(error, bytes);
  }

  predicate Known(a: Arrival) {
    a != Failed && (a.Arrived? ==> a.found in {L.NoBody, L.BodyComplete, L.BodyPending})
  }

  const SERVER: string := "MyHttpd 0.1.0"

  lemma Lowered()
    ensures Lower("date") == "date" && Lower("server") == "server" && Lower("connection") == "connection"
  {
  }

  lemma {:induction false} InsertedAre(attrs: Attributes, name: string, value: string)
    ensures forall p :: p in Insert(attrs, name, value) ==> p in attrs || p == (name, value)
    decreases |attrs|
  {
    if attrs != [] && NotAfter(attrs[0].0, name) {
      InsertedAre(attrs[1..], name, value);
    }
  }

  // What _do_post_process adds to the attributes of an answer.
  function Dressed(attrs: Attributes, date: string, keepAlive: bool): Attributes {
    Insert(Insert(Insert(attrs, "date", date), "server", SERVER), "connection", Will(keepAlive))
  }

  function Will(keepAlive: bool): string {
    if keepAlive then "keep-alive" else "close"
  }

  // The answer names the date and the server, and its last word on the connection is what the session means
  // to do; nothing else is added, and nothing lost.
  lemma DressedSays(attrs: Attributes, date: string, keepAlive: bool)
    requires Sorted(attrs)
    ensures var d := Dressed(attrs, date, keepAlive);
            && Sorted(d)
            && Values(d, "date") == Values(attrs, "date") + [date]
            && Values(d, "server") == Values(attrs, "server") + ["MyHttpd 0.1.0"]
            && Values(d, "connection") == Values(attrs, "connection") + [if keepAlive then "keep-alive" else "close"]
            && forall n :: n !in ["date", "server", "connection"] ==> Values(d, n) == Values(attrs, n)
  {
    InsertKeeps(attrs, "date", date);
    var a := Insert(attrs, "date", date);
    InsertKeeps(a, "server", SERVER);
    InsertKeeps(Insert(a, "server", SERVER), "connection", Will(keepAlive));
  }

  // So the client reads it off the header that goes out.
  lemma {:induction false} ClientIsTold(title: string, attrs: Attributes, date: string, keepAlive: bool)
    requires Good(Head(title, attrs)) && GoodValue(date)
    ensures var h := Head(title, Dressed(attrs, date, keepAlive));
            && EndAt(Encode(h), |Encode(h)|) && Decode(Encode(h)) == Some(h)
            && Values(h.attrs, "connection")
               == Values(attrs, "connection") + [if keepAlive then "keep-alive" else "close"]
  {
    DressedSays(attrs, date, keepAlive);
    DressedIsGood(title, attrs, date, keepAlive);
    HeaderRoundTrip(Head(title, Dressed(attrs, date, keepAlive)));
  }

  lemma DressedIsGood(title: string, attrs: Attributes, date: string, keepAlive: bool)
    requires Good(Head(title, attrs)) && GoodValue(date)
    ensures Good(Head(title, Dressed(attrs, date, keepAlive)))
  {
    OwnNamesAreGood();
    InsertIsGood(attrs, "date", date);
    var a := Insert(attrs, "date", date);
    InsertIsGood(a, "server", SERVER);
    InsertIsGood(Insert(a, "server", SERVER), "connection", Will(keepAlive));
  }

  lemma OwnNamesAreGood()
    ensures GoodName("date") && GoodName("server") && GoodName("connection")
    ensures GoodValue(SERVER) && GoodValue("keep-alive") && GoodValue("close")
  {
  }

  lemma InsertIsGood(attrs: Attributes, name: string, value: string)
    requires Good(Head("", attrs)) && GoodName(name) && GoodValue(value)
    ensures Good(Head("", Insert(attrs, name, value)))
  {
    InsertKeeps(attrs, name, value);
    var r := Insert(attrs, name, value);
    forall i | 0 <= i < |r| ensures GoodName(r[i].0) && GoodValue(r[i].1) { assert r[i] in r; }
  }

  // What may happen to a session: a completion of its transceiver, or what its resource makes of a request.
  datatype Occurrence =
    | Wait(error: bool)
    | Header(error: bool, bytes: string)
    | Body(error: bool, bytes: string)
    | BodyWanted
    | Answer(rsp: Message, date: string, out: Outgoing)
    | Drop
    | Throw
    | HeaderGone(error: bool, out: Outgoing)
    | ContentGone(error: bool, moved: nat)

  // Objects that are not the session's own, and may be changed.
  ghost function Lent(x: Occurrence): set<object> {
    match x
    case Answer(rsp, _, _) => {rsp}
    case HeaderGone(_, OwnBody(content)) => {content}
    case _ => {}
  }

  class Session {
    const trx: Transceiver
    var keepAlive: bool
    ghost var life: L.Life

    ghost function View(): L.Conn
      reads `keepAlive, `life, trx, trx.Body()
    {
      L.Conn(trx.View(), keepAlive, life)
    }

    // All objects the session is made of.
    ghost function Repr(): set<object>
      reads this, trx`readOp, trx.buf
    {
      {this, trx} + trx.Repr()
    }

    // Nothing of the session changes while its objects do not.
    twostate lemma Stays()
      requires forall o :: o in old(Repr()) ==> unchanged(o)
      ensures Repr() == old(Repr()) && View() == old(View())
      ensures Valid() == old(Valid())
    {
      assert this in old(Repr()) && old(trx.Repr()) <= old(Repr());
      trx.Stays();
      assert unchanged(this) && unchanged(trx`over);
    }

    // The session with the bytes its transceiver holds.
    ghost function Link(): C.Link
      reads `keepAlive, `life, trx, trx.buf, trx.buf.blocks, trx.Body()
      requires trx.Valid()
    {
      C.Link(View(), trx.Rx())
    }

    ghost predicate Valid()
      reads this, trx, trx.buf, trx.buf.blocks, trx.Body()
    {
      trx.Valid() && L.Safe(View()) && (trx.over ==> life.crashed || life.ended == 1)
    }

    // The session lives on.
    ghost predicate Alive()
      reads `life
    {
      !life.crashed && life.ended == 0
    }

    constructor ()
      ensures fresh(trx) && trx.Valid() && !trx.over && trx.Rx() == R.START && life == L.BORN && !keepAlive
      ensures trx.View() == L.IDLE && fresh(trx.Repr())
    {
      trx := new Transceiver();
      keepAlive := false;
      life := L.BORN;
    }

    method Start() returns (effects: seq<L.Effect>)
      requires trx.Valid() && !trx.over && life == L.BORN && !keepAlive
      requires trx.View() == L.IDLE
      modifies `keepAlive, `life, trx
      ensures Valid() && Link() == C.Link(L.Start(), old(trx.Rx())) && effects == [L.ArmTimer]
      ensures trx.Repr() == old(trx.Repr())
    {
      effects := SetTimer();
      trx.AsyncWait();
    }

    // The session's own fields; the transceiver stays as it is.
    method Become(wish: bool, ghost l: L.Life)
      requires trx.Valid()
      modifies `keepAlive, `life
      ensures trx.Valid() && trx.over == old(trx.over)
      ensures trx.View() == old(trx.View()) && trx.Rx() == old(trx.Rx()) && trx.Repr() == old(trx.Repr())
      ensures keepAlive == wish && life == l
    {
      keepAlive, life := wish, l;
    }

    method SetTimer() returns (effects: seq<L.Effect>)
      requires trx.Valid()
      modifies `keepAlive, `life
      ensures trx.Valid() && trx.over == old(trx.over)
      ensures trx.View() == old(trx.View()) && trx.Rx() == old(trx.Rx()) && trx.Repr() == old(trx.Repr())
      ensures keepAlive == old(keepAlive) && life == old(life).(armed := true) && effects == [L.ArmTimer]
    {
      Become(keepAlive, life.(armed := true));
      effects := [L.ArmTimer];
    }

    method RunTerminatingHandler() returns (effects: seq<L.Effect>)
      requires trx.Valid()
      modifies `keepAlive, `life
      ensures trx.Valid() && trx.over == old(trx.over)
      ensures trx.View() == old(trx.View()) && trx.Rx() == old(trx.Rx()) && trx.Repr() == old(trx.Repr())
      ensures L.Outcome(View(), effects) == L.Ended(old(View()))
    {
      Become(keepAlive, life.(ended := life.ended + 1));
      effects := [L.RunTerminatingHandler];
    }

    method Terminate() returns (effects: seq<L.Effect>)
      requires trx.Valid()
      modifies `keepAlive, `life, trx`canceled
      ensures trx.Valid() && trx.over == old(trx.over) && trx.Rx() == old(trx.Rx()) && trx.Repr() == old(trx.Repr())
      ensures L.Outcome(View(), effects) == L.Terminate(old(View()))
    {
      effects := [];
      var ran := trx.Cancel();
      if ran {
        effects := RunTerminatingHandler();
      }
    }

    method NextRequest() returns (effects: seq<L.Effect>)
      requires trx.Valid()
      modifies `keepAlive, `life, trx`waitingBusy, trx`waitOp, trx`canceled
      ensures trx.Repr() == old(trx.Repr())
      ensures trx.Valid() && trx.over == old(trx.over) && trx.Rx() == old(trx.Rx())
      ensures L.Outcome(View(), effects) == L.NextRequest(old(View()))
    {
      if keepAlive {
        effects := SetTimer();
        trx.AsyncWait();
      } else {
        effects := Terminate();
      }
    }

    method CancelTimer() returns (effects: seq<L.Effect>)
      requires trx.Valid()
      modifies `keepAlive, `life
      ensures trx.Valid() && trx.over == old(trx.over)
      ensures trx.View() == old(trx.View()) && trx.Rx() == old(trx.Rx()) && trx.Repr() == old(trx.Repr())
      ensures keepAlive == old(keepAlive) && life == old(life).(armed := false) && effects == [L.ReleaseTimer]
    {
      Become(keepAlive, life.(armed := false));
      effects := [L.ReleaseTimer];
    }

    // The message's own wish decides whether the connection is kept. c is the session before the search.
    method DoPreProcess(a: Arrival, ghost fromBuffer: bool, ghost c: L.Conn)
      requires trx.Valid() && Known(a)
      requires trx.View() == L.AfterSearch(c.core, FoundOf(a)) && c.keepAlive == keepAlive
      modifies `keepAlive, `life
      ensures trx.Valid() && trx.over == old(trx.over) && trx.Rx() == old(trx.Rx()) && trx.Repr() == old(trx.Repr())
      ensures View() == L.Searched(c, FoundOf(a), keepAlive, fromBuffer)
      ensures life.crashed == (c.life.crashed || a == Lost)
      ensures a.Arrived? ==> keepAlive == KeepAlive(a.msg.attributes)
    {
      var wish := if a.Arrived? then KeepAlive(a.msg.attributes) else keepAlive;
      SearchedIs(c, wish, a, fromBuffer);
      Become(wish, AfterArrival(c.life, a, fromBuffer));
    }

    // What arrived is the first message of `data`, and its wish is heeded.
    ghost predicate Arrives(a: Arrival, data: string)
      reads `keepAlive, if a.Arrived? then {a.msg} else {}
    {
      HitOf(a) == C.Search(data) && FoundOf(a) == C.FoundOf(HitOf(a)) && Heeds(a)
    }

    ghost predicate Heeds(a: Arrival)
      reads `keepAlive, if a.Arrived? then {a.msg} else {}
    {
      a.Arrived? ==> keepAlive == C.Wish(HitOf(a))
    }

    method Receive() returns (a: Arrival)
      requires trx.Valid() && trx.readOp == NoRead && !trx.over && !trx.canceled && !life.processing
      modifies `keepAlive, `life, trx, trx.buf
      ensures trx.Valid() && View() == L.Receive(old(View()), FoundOf(a), keepAlive)
      ensures trx.over <==> a == Lost
      ensures fresh(trx.Repr() - old(trx.Repr()))
      ensures life.crashed == (old(life.crashed) || a == Lost)
      ensures Arrives(a, old(trx.Rx()).q.data)
      ensures !trx.over && !trx.canceled ==> trx.Rx() == R.Start(old(trx.Rx()))
    {
      ghost var c := L.Conn(trx.View().(receiving := true), keepAlive, life.(stale := false));
      a := AsyncReceive(trx);
      DoPreProcess(a, true, c);
    }

    // session::_wait_handler: the timer is released, then a message is received or the session closed.
    method WaitOver(error: bool) returns (effects: seq<L.Effect>, a: Arrival)
      requires trx.Valid() && !trx.over && !trx.canceled && !life.processing && (error || trx.readOp == NoRead)
      modifies `keepAlive, `life, trx, trx.buf
      ensures trx.Valid() && (trx.over <==> !error && a == Lost)
      ensures fresh(trx.Repr() - old(trx.Repr()))
      ensures life.crashed == (old(life.crashed) || (!error && a == Lost))
      ensures var v := L.Conn(old(trx.View()), old(keepAlive), old(life).(armed := false));
              if error then L.Outcome(View(), effects) == L.After([L.ReleaseTimer], L.Terminate(v)) && a == Failed
              else View() == L.Receive(v, FoundOf(a), keepAlive) && effects == [L.ReleaseTimer]
      ensures if error then trx.Rx() == old(trx.Rx())
              else Arrives(a, old(trx.Rx()).q.data)
                   && (!trx.over && !trx.canceled ==> trx.Rx() == R.Start(old(trx.Rx())))
    {
      effects := CancelTimer();
      if error {
        var more := Terminate();
        effects := effects + more;
        a := Failed;
      } else {
        a := Receive();
      }
    }

    // The wait for the next request completed.
    method OnWait(error: bool) returns (effects: seq<L.Effect>, a: Arrival)
      requires Valid() && Alive() && trx.waitOp && (trx.canceled || error || !trx.readOp.BodyRead?)
      modifies Repr()
      ensures fresh(Repr() - old(Repr()))
      ensures Valid()
      ensures C.Same(Link(), C.Step(old(Link()), C.Waited(error)))
      ensures effects == C.Effects(old(Link()), C.Waited(error))
      ensures HitOf(a) == C.Looked(old(Link()), C.Waited(error))
    {
      ghost var l := Link();
      effects, a := WaitHandler(error);
      C.WaitControl(l, error, HitOf(a), keepAlive);
      L.StepIsSafe(l.conn, C.Control(l, C.Waited(error)));
    }

    method WaitHandler(error: bool) returns (effects: seq<L.Effect>, a: Arrival)
      requires Valid() && Alive() && trx.waitOp && (trx.canceled || error || !trx.readOp.BodyRead?)
      modifies `keepAlive, `life, trx, trx.buf
      ensures trx.Valid() && (trx.over ==> life.crashed || life.ended == 1)
      ensures fresh(trx.Repr() - old(trx.Repr()))
      ensures L.Outcome(View(), effects) == L.Step(old(View()), L.OnWait(error, FoundOf(a), keepAlive))
      ensures HitOf(a) == C.Looked(old(Link()), C.Waited(error)) && FoundOf(a) == C.FoundOf(HitOf(a)) && Heeds(a)
      ensures C.Receptive(View()) ==> trx.Rx() == C.Receive(old(Link()), C.Waited(error))
    {
      a := Waiting;
      effects := [];
      var told := trx.WaitHandler(error);
      assert trx.Repr() == old(trx.Repr());
      if told == L.Canceled {
        effects := RunTerminatingHandler();
      } else if told != L.Silent {
        effects, a := WaitOver(told == L.Failure);
      }
    }

    // The header read completed: session::_receive_handler.
    method OnHeader(error: bool, bytes: string) returns (effects: seq<L.Effect>, a: Arrival)
      requires Valid() && Alive() && trx.readOp.HeaderRead? && |bytes| <= trx.buf.capacity
      modifies Repr()
      ensures fresh(Repr() - old(Repr()))
      ensures Valid()
      ensures C.Same(Link(), C.Step(old(Link()), C.HeaderRead(error, bytes)))
      ensures effects == C.Effects(old(Link()), C.HeaderRead(error, bytes))
      ensures HitOf(a) == C.Looked(old(Link()), C.HeaderRead(error, bytes))
    {
      ghost var l := Link();
      effects, a := HeaderHandler(error, bytes);
      C.HeaderControl(l, error, bytes, HitOf(a), keepAlive);
      L.StepIsSafe(l.conn, C.Control(l, C.HeaderRead(error, bytes)));
    }

    method HeaderHandler(error: bool, bytes: string) returns (effects: seq<L.Effect>, a: Arrival)
      requires Valid() && Alive() && trx.readOp.HeaderRead? && |bytes| <= trx.buf.capacity
      modifies `keepAlive, `life, trx, trx.buf, trx.buf.blocks
      ensures trx.Valid() && (trx.over ==> life.crashed || error)
      ensures fresh(trx.Repr() - old(trx.Repr()))
      ensures L.Outcome(View(), effects) == L.HeaderDone(old(View()), error, FoundOf(a), keepAlive)
      ensures HitOf(a) == C.Looked(old(Link()), C.HeaderRead(error, bytes))
      ensures FoundOf(a) == C.FoundOf(HitOf(a)) && Heeds(a)
      ensures !error && C.Receptive(View()) ==> trx.Rx() == R.HeaderBytes(old(trx.Rx()), bytes)
    {
      effects := [];
      if error {
        effects, a := HeaderFailed(bytes);
      } else {
        a := HeaderArrived(bytes);
      }
    }

    method HeaderFailed(bytes: string) returns (effects: seq<L.Effect>, a: Arrival)
      requires trx.Valid() && !trx.over && trx.readOp.HeaderRead? && |bytes| <= trx.buf.capacity
      modifies `keepAlive, `life, trx, trx.buf, trx.buf.blocks
      ensures trx.Valid() && fresh(trx.Repr() - old(trx.Repr())) && a == Failed
      ensures L.Outcome(View(), effects) == L.HeaderDone(old(View()), true, L.NeedMore, keepAlive)
    {
      a := HeaderReceivingHandler(trx, true, bytes);
      effects := Terminate();
    }

    method HeaderArrived(bytes: string) returns (a: Arrival)
      requires trx.Valid() && !trx.over && trx.readOp.HeaderRead? && |bytes| <= trx.buf.capacity && !life.crashed
      modifies `keepAlive, `life, trx, trx.buf, trx.buf.blocks
      ensures trx.Valid() && (trx.over ==> life.crashed) && fresh(trx.Repr() - old(trx.Repr()))
      ensures var c := old(View()).(core := old(trx.View()).(receiving := false, headerOp := false));
              View() == L.Searched(c, FoundOf(a), keepAlive, false)
      ensures Arrives(a, old(trx.Rx()).q.data + bytes)
      ensures C.Receptive(View()) ==> trx.Rx() == R.HeaderBytes(old(trx.Rx()), bytes)
    {
      ghost var c := View().(core := trx.View().(receiving := false, headerOp := false));
      a := HeaderReceivingHandler(trx, false, bytes);
      DoPreProcess(a, false, c);
    }

    method OnBody(error: bool, bytes: string) returns (effects: seq<L.Effect>)
      requires Valid() && Alive() && trx.readOp.BodyRead?
      requires trx.readOp.content.available + |bytes| <= trx.readOp.content.buffer.Length
      modifies Repr()
      ensures fresh(Repr() - old(Repr()))
      ensures Valid()
      ensures C.Same(Link(), C.Step(old(Link()), C.BodyRead(error, bytes)))
      ensures effects == C.Effects(old(Link()), C.BodyRead(error, bytes))
    {
      ghost var l := Link();
      L.StepIsSafe(l.conn, C.Control(l, C.BodyRead(error, bytes)));
      effects := BodyHandler(error, bytes);
    }

    method BodyHandler(error: bool, bytes: string) returns (effects: seq<L.Effect>)
      requires Valid() && Alive() && trx.readOp.BodyRead?
      requires trx.readOp.content.available + |bytes| <= trx.readOp.content.buffer.Length
      modifies `keepAlive, `life, trx, trx.Body()
      ensures trx.Valid() && !trx.over
      ensures fresh(trx.Repr() - old(trx.Repr()))
      ensures L.Outcome(View(), effects) == L.BodyDone(old(View()), error, C.Missing(old(trx.Rx()), bytes))
      ensures !trx.canceled ==>
                trx.Rx() == if error then R.BodyFails(old(trx.Rx())) else R.BodyBytes(old(trx.Rx()), bytes)
    {
      var told := OnBodyRead(trx, error, bytes);
      effects := Heed(told);
    }

    method Heed(told: L.Told) returns (effects: seq<L.Effect>)
      requires trx.Valid() && !trx.over
      modifies `keepAlive, `life
      ensures trx.Valid() && trx.over == old(trx.over) && trx.Rx() == old(trx.Rx()) && trx.Repr() == old(trx.Repr())
      ensures L.Outcome(View(), effects) == L.Heeded(old(View()), told)
    {
      effects := [];
      if told == L.Canceled {
        effects := RunTerminatingHandler();
      } else if told == L.Crash {
        Become(keepAlive, life.(crashed := true));
      }
    }

    // The resource waits for the body of the request.
    method OnAwaitBody()
      requires Valid() && Alive() && life.processing
      requires trx.readOp.BodyRead? && trx.readOp.content.readHandler == NoReader
      modifies Repr()
      ensures fresh(Repr() - old(Repr()))
      ensures Valid() && Link() == C.Step(old(Link()), C.Other(L.OnAwaitBody))
    {
      L.StepIsSafe(View(), L.OnAwaitBody);
      trx.AwaitBody();
    }

    // session::_do_post_process
    method DoPostProcess(rsp: Message, date: string)
      requires forall a :: a in rsp.attributes ==> Formalizable(a.0)
      modifies rsp`attributes
      ensures forall a :: a in rsp.attributes ==> Formalizable(a.0)
      ensures rsp.attributes == Dressed(old(rsp.attributes), date, keepAlive)
    {
      Lowered();
      InsertedAre(rsp.attributes, "date", date);
      rsp.InsertAttribute("date", date);
      InsertedAre(rsp.attributes, "server", SERVER);
      rsp.InsertAttribute("server", SERVER);
      var wish := if keepAlive then "keep-alive" else "close";
      InsertedAre(rsp.attributes, "connection", wish);
      rsp.InsertAttribute("connection", wish);
    }

    // The resource answers.
    method OnAnswer(rsp: Message, date: string, out: Outgoing)
      requires Valid() && Alive() && life.processing && trx.View().reader == L.Nobody
      requires forall a :: a in rsp.attributes ==> Formalizable(a.0)
      modifies Repr(), rsp`attributes
      ensures fresh(Repr() - old(Repr()))
      ensures Valid() && Link() == C.Step(old(Link()), C.Other(L.OnAnswer(AnswerOf(out))))
      ensures rsp.View() == Head(old(rsp.title), Dressed(old(rsp.attributes), date, keepAlive))
      ensures trx.sendOp == SendingHeader(Encode(rsp.View()), out)
    {
      L.StepIsSafe(View(), L.OnAnswer(AnswerOf(out)));
      Become(keepAlive, life.(processing := false));
      Send(rsp, date, out);
    }

    // The resource lets go of its request and calls no handler.
    method OnDropped()
      requires Valid() && Alive() && life.processing && trx.View().reader == L.Nobody
      modifies Repr()
      ensures fresh(Repr() - old(Repr()))
      ensures Valid() && Link() == C.Step(old(Link()), C.Other(L.OnDropped))
    {
      L.StepIsSafe(View(), L.OnDropped);
      Become(keepAlive, life.(processing := false, dropped := true));
    }

    // An exception leaves the resource.
    method OnThrown()
      requires Valid() && Alive() && life.processing && trx.View().reader == L.Nobody
      modifies Repr()
      ensures fresh(Repr() - old(Repr()))
      ensures Valid() && Link() == C.Step(old(Link()), C.Other(L.OnThrown))
    {
      L.StepIsSafe(View(), L.OnThrown);
      Become(keepAlive, life.(processing := false, crashed := true));
    }

    method Send(rsp: Message, date: string, out: Outgoing)
      requires trx.Valid() && forall a :: a in rsp.attributes ==> Formalizable(a.0)
      modifies trx`sendingBusy, trx`sendOp, rsp`attributes
      ensures trx.Repr() == old(trx.Repr())
      ensures trx.Valid() && trx.over == old(trx.over) && trx.Rx() == old(trx.Rx())
      ensures trx.View() == old(trx.View()).(sending := true, sendOp := L.HeaderSend(AnswerOf(out)))
      ensures rsp.View() == Head(old(rsp.title), Dressed(old(rsp.attributes), date, keepAlive))
      ensures trx.sendOp == SendingHeader(Encode(rsp.View()), out)
    {
      DoPostProcess(rsp, date);
      trx.AsyncSend(rsp, out);
    }

    // session::_send_handler, and the check of a canceled transceiver.
    method AfterSend(told: L.Told) returns (effects: seq<L.Effect>)
      requires trx.Valid()
      modifies `keepAlive, `life, trx`waitingBusy, trx`waitOp, trx`canceled
      ensures trx.Repr() == old(trx.Repr())
      ensures trx.Valid() && trx.over == old(trx.over) && trx.Rx() == old(trx.Rx())
      ensures L.Outcome(View(), effects) == L.SendDone(old(View()), told)
    {
      effects := [];
      if told == L.Canceled {
        effects := RunTerminatingHandler();
      } else if told == L.Failure {
        effects := Terminate();
      } else if told == L.Success {
        effects := NextRequest();
      }
    }

    // The header of the answer went out.
    method OnHeaderSent(error: bool, out: Outgoing) returns (effects: seq<L.Effect>)
      requires Valid() && Alive() && trx.sendOp.SendingHeader? && trx.sendOp.out == out && trx.Sendable(out)
      modifies Repr(), if out.OwnBody? then {out.content} else {}
      ensures fresh(Repr() - old(Repr()))
      ensures Valid() && Link() == C.Step(old(Link()), C.Other(L.OnHeaderSent(error)))
      ensures effects == C.Effects(old(Link()), C.Other(L.OnHeaderSent(error)))
      ensures L.ArmTimer in effects <==> !error && out.Given? && out.src.data == "" && old(keepAlive)
      ensures L.Closing(View()) <==>
                error || out.Nothing? || (out.Given? && out.src.data == "" && !old(keepAlive))
    {
      L.StepIsSafe(View(), L.OnHeaderSent(error));
      HeaderSentSays(error, out);
      effects := HeaderSentHandler(error, out);
    }

    // Without content the connection is given up; without bytes the next request is waited for, if there is
    // to be one; else the content is still to be sent.
    lemma HeaderSentSays(error: bool, out: Outgoing)
      requires Valid() && Alive() && trx.sendOp.SendingHeader? && trx.sendOp.out == out
      ensures var o := L.Step(View(), L.OnHeaderSent(error));
              && (L.ArmTimer in o.effects <==> !error && out.Given? && out.src.data == "" && keepAlive)
              && (L.Closing(o.conn) <==>
                    error || out.Nothing? || (out.Given? && out.src.data == "" && !keepAlive))
    {
      L.TimerIff(View(), L.OnHeaderSent(error));
      L.ClosesIff(View(), L.OnHeaderSent(error));
    }

    method HeaderSentHandler(error: bool, out: Outgoing) returns (effects: seq<L.Effect>)
      requires trx.Valid() && trx.sendOp.SendingHeader? && trx.sendOp.out == out && trx.Sendable(out)
      modifies `keepAlive, `life, trx, if out.OwnBody? then {out.content} else {}
      ensures trx.Repr() == old(trx.Repr())
      ensures trx.Valid() && trx.over == old(trx.over) && trx.Rx() == old(trx.Rx())
      ensures L.Outcome(View(), effects) == L.HeaderSent(old(View()), error)
    {
      var told := trx.OnHeaderSent(error, out);
      effects := AfterSend(told);
    }

    // A piece of the answer's content went out.
    method OnContentSent(error: bool, t: nat) returns (effects: seq<L.Effect>)
      requires Valid() && Alive() && trx.sendOp.SendingContent? && t <= |trx.sendOp.progress.offered|
      modifies Repr()
      ensures fresh(Repr() - old(Repr()))
      ensures Valid()
      ensures var more := S.Sent(old(trx.sendOp).progress, t).remaining != 0;
              && Link() == C.Step(old(Link()), C.Other(L.OnContentSent(error, more)))
              && effects == C.Effects(old(Link()), C.Other(L.OnContentSent(error, more)))
    {
      L.StepIsSafe(View(), L.OnContentSent(error, S.Sent(trx.sendOp.progress, t).remaining != 0));
      effects := ContentSentHandler(error, t);
    }

    method ContentSentHandler(error: bool, t: nat) returns (effects: seq<L.Effect>)
      requires trx.Valid() && trx.sendOp.SendingContent? && t <= |trx.sendOp.progress.offered|
      modifies `keepAlive, `life, trx
      ensures trx.Repr() == old(trx.Repr())
      ensures trx.Valid() && trx.over == old(trx.over) && trx.Rx() == old(trx.Rx())
      ensures var more := S.Sent(old(trx.sendOp).progress, t).remaining != 0;
              L.Outcome(View(), effects) == L.ContentSent(old(View()), error, more)
    {
      var told := trx.OnContentSent(error, t);
      effects := AfterSend(told);
    }

    // The timer fired.
    method OnTimeout() returns (effects: seq<L.Effect>)
      requires Valid() && Alive() && life.armed
      modifies Repr()
      ensures Repr() == old(Repr())
      ensures Valid() && Link() == C.Step(old(Link()), C.Other(L.OnTimeout))
      ensures L.Outcome(View(), effects) == L.TimedOut(old(View()))
    {
      L.StepIsSafe(View(), L.OnTimeout);
      Become(keepAlive, life.(armed := false));
      effects := Terminate();
    }

    // ---- all of them ----

    // It is outstanding, or asked for.
    ghost predicate Due(x: Occurrence)
      reads this, trx, trx.buf, trx.Body(), Lent(x)
    {
      match x
      case Wait(error) => trx.waitOp && (trx.canceled || error || !trx.readOp.BodyRead?)
      case Header(_, bytes) => trx.readOp.HeaderRead? && |bytes| <= trx.buf.capacity
      case Body(_, bytes) =>
        trx.readOp.BodyRead? && trx.readOp.content.available + |bytes| <= trx.readOp.content.buffer.Length
      case BodyWanted => life.processing && trx.readOp.BodyRead? && trx.readOp.content.readHandler == NoReader
      case Answer(rsp, _, _) => Asked() && forall a :: a in rsp.attributes ==> Formalizable(a.0)
      case Drop => Asked()
      case Throw => Asked()
      case HeaderGone(_, out) => trx.sendOp.SendingHeader? && trx.sendOp.out == out && trx.Sendable(out)
      case ContentGone(_, t) => trx.sendOp.SendingContent? && t <= |trx.sendOp.progress.offered|
    }

    ghost predicate Asked()
      reads `life, trx, trx.Body()
    {
      life.processing && trx.View().reader == L.Nobody
    }

    ghost function EventOf(x: Occurrence): C.Event
      reads trx
    {
      match x
      case Wait(error) => C.Waited(error)
      case Header(error, bytes) => C.HeaderRead(error, bytes)
      case Body(error, bytes) => C.BodyRead(error, bytes)
      case BodyWanted => C.Other(L.OnAwaitBody)
      case Answer(_, _, out) => C.Other(L.OnAnswer(AnswerOf(out)))
      case Drop => C.Other(L.OnDropped)
      case Throw => C.Other(L.OnThrown)
      case HeaderGone(error, _) => C.Other(L.OnHeaderSent(error))
      case ContentGone(error, t) =>
        C.Other(L.OnContentSent(error, Remains(t)))
    }

    // Bytes of the content are left once t more are gone.
    ghost predicate Remains(t: nat)
      reads trx
    {
      && trx.sendOp.SendingContent? && t <= |trx.sendOp.progress.offered|
      && S.Sent(trx.sendOp.progress, t).remaining != 0
    }

    // An answer goes out with what is added to it.
    ghost predicate Goes(x: Occurrence, was: Head, kept: bool)
      requires x.Answer?
      reads trx
    {
      trx.sendOp == SendingHeader(Encode(Head(was.title, Dressed(was.attrs, x.date, kept))), x.out)
    }

    // Whatever happens, the session takes the step of its connection.
    method Handle(x: Occurrence) returns (effects: seq<L.Effect>)
      requires Valid() && Alive() && Due(x)
      modifies Repr(), Lent(x)
      ensures Valid() && fresh(Repr() - old(Repr()))
      ensures C.Same(Link(), C.Step(old(Link()), old(EventOf(x))))
      ensures effects == C.Effects(old(Link()), old(EventOf(x)))
      ensures x.Answer? ==> Goes(x, old(x.rsp.View()), old(keepAlive))
    {
      if x.Wait? || x.Header? || x.Body? {
        effects := HandleRead(x);
      } else if x.HeaderGone? || x.ContentGone? {
        effects := HandleSend(x);
      } else {
        effects := HandleResource(x);
      }
    }

    method HandleRead(x: Occurrence) returns (effects: seq<L.Effect>)
      requires Valid() && Alive() && Due(x) && (x.Wait? || x.Header? || x.Body?)
      modifies Repr(), Lent(x)
      ensures Valid() && fresh(Repr() - old(Repr()))
      ensures C.Same(Link(), C.Step(old(Link()), old(EventOf(x))))
      ensures effects == C.Effects(old(Link()), old(EventOf(x)))
    {
      var a;
      match x {
        case Wait(error) => effects, a := OnWait(error);
        case Header(error, bytes) => effects, a := OnHeader(error, bytes);
        case Body(error, bytes) => effects := OnBody(error, bytes);
      }
    }

    method HandleSend(x: Occurrence) returns (effects: seq<L.Effect>)
      requires Valid() && Alive() && Due(x) && (x.HeaderGone? || x.ContentGone?)
      modifies Repr(), Lent(x)
      ensures Valid() && fresh(Repr() - old(Repr()))
      ensures C.Same(Link(), C.Step(old(Link()), old(EventOf(x))))
      ensures effects == C.Effects(old(Link()), old(EventOf(x)))
    {
      match x {
        case HeaderGone(error, out) => effects := OnHeaderSent(error, out);
        case ContentGone(error, t) => effects := OnContentSent(error, t);
      }
    }

    method HandleResource(x: Occurrence) returns (effects: seq<L.Effect>)
      requires Valid() && Alive() && Due(x) && (x.BodyWanted? || x.Answer? || x.Drop? || x.Throw?)
      modifies Repr(), Lent(x)
      ensures Valid() && fresh(Repr() - old(Repr()))
      ensures C.Same(Link(), C.Step(old(Link()), old(EventOf(x))))
      ensures effects == C.Effects(old(Link()), old(EventOf(x)))
      ensures x.Answer? ==> Goes(x, old(x.rsp.View()), old(keepAlive))
    {
      effects := [];
      C.ResourceAsksNothing(Link(), EventOf(x).e);
      match x {
        case BodyWanted => OnAwaitBody();
        case Answer(rsp, date, out) => OnAnswer(rsp, date, out);
        case Drop => OnDropped();
        case Throw => OnThrown();
      }
    }

    // Only what is enabled is due.
    lemma DueIsEnabled(x: Occurrence)
      requires Valid() && Alive() && Due(x)
      ensures C.Enabled(Link(), EventOf(x)) && !C.Control(Link(), EventOf(x)).OnTimeout?
    {
    }
  }
}
