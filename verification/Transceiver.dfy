// transceiver: the object whose completion handlers drive one connection. Its receive side refines
// Receiving, its send side SendLoop, its flags Lifecycle.
module Transceivers {
  import opened Text
  import opened Messages
  import opened Matcher
  import opened HeaderCodec
  import opened Framing
  import opened LinkedBuffers
  import opened TransmittingContents
  import R = Receiving
  import S = SendLoop
  import L = Lifecycle

  // What the connection has been asked to read, with what the completion handler is bound to.
  datatype ReadOp = NoRead | HeaderRead(status: nat) | BodyRead(content: TransmittingContent)

  // The content of a message to send: none, bytes that are there, or the body of the request.
  datatype Outgoing = Nothing | Given(src: S.Source) | OwnBody(content: TransmittingContent)

  datatype SendOp =
    | Idle
    | SendingHeader(header: string, out: Outgoing)
    | AwaitingBody(content: TransmittingContent)
    | SendingContent(progress: S.Sending)

  // What a search for a message came to.
  datatype Arrival = Waiting | Arrived(msg: Message, found: L.Found) | Failed | Lost

  function FoundOf(a: Arrival): L.Found {
    match a
    case Arrived(_, found) => found
    case Lost => L.Unreadable
    case _ => L.NeedMore
  }

  function AnswerOf(out: Outgoing): L.Answer {
    match out
    case Nothing => L.NoContent
    case Given(src) => if src.data == "" then L.NoBytes else L.AtOnce
    case OwnBody(_) => L.Echo
  }

  function SendOpOf(op: SendOp): L.SendOp {
    match op
    case Idle => L.NoSend
    case SendingHeader(_, out) => L.HeaderSend(AnswerOf(out))
    case AwaitingBody(_) => L.ContentRead
    case SendingContent(_) => L.ContentSend
  }

  function ReaderOf(r: Reader): L.BodyReader {
    match r
    case NoReader => L.Nobody
    case AppReader => L.Application
    case SendReader(_) => L.Sender
  }

  class Transceiver {
    const buf: LinkedBuffer
    var receivingBusy: bool
    var sendingBusy: bool
    var waitingBusy: bool
    var canceled: bool
    var waitOp: bool
    var readOp: ReadOp
    var sendOp: SendOp

    ghost var done: seq<Item>      // the messages whose bodies are complete, since the last failed body read
    ghost var raw: string          // the header of the message whose body is being read
    ghost var head: Head
    ghost var over: bool           // a header read failed, or a header could not be read

    // The body being read, with its buffer.
    ghost function Body(): (r: set<object>)
      reads `readOp
      ensures readOp.BodyRead? ==> readOp.content in r && readOp.content.buffer in r
    {
      if readOp.BodyRead? then {readOp.content, readOp.content.buffer} else {}
    }

    // All objects the transceiver is made of.
    ghost function Repr(): set<object>
      reads `readOp, buf
    {
      {this, buf} + (set b | b in buf.blocks) + Body()
    }

    ghost predicate Valid()
      reads `readOp, `done, `raw, `head, `over, buf, buf.blocks, Body()
    {
      && buf.blockSize == R.BLOCK && buf.Valid()
      && (readOp.BodyRead? ==> BodyUnderWay(readOp.content))
      && (!over ==> R.Consistent(Rx()))
    }

    // A body being read: incomplete, in a buffer of its own, with at most one reader, who wants it all.
    ghost predicate BodyUnderWay(c: TransmittingContent)
      reads buf, c
    {
      && c.Valid() && c.available < c.buffer.Length && c.buffer !in buf.blocks
      && c.buffer.Length < TWO_64
      && (c.requested <==> c.readHandler != NoReader)
      && WantsAll(c)
    }

    // Every caller of async_read asks for the whole body.
    ghost predicate WantsAll(c: TransmittingContent)
      reads c
    {
      c.requested ==>
        && c.requestedOffset == 0 && c.requestedSize == c.buffer.Length
        && (c.readHandler.SendReader? ==> c.readHandler.remaining == c.buffer.Length)
    }

    ghost function Rx(): R.Receiver
      reads `readOp, `done, `raw, `head, buf, buf.blocks, Body()
      requires buf.Valid()
      requires readOp.BodyRead? ==> readOp.content in Body() && readOp.content.Valid()
    {
      var phase := match readOp
        case NoRead => R.Ready
        case HeaderRead(status) => R.Header(status)
        case BodyRead(c) => R.Body(raw, head, c.buffer.Length, c.Got());
      R.Receiver(buf.View(), phase, done)
    }

    ghost function View(): L.Core
      reads this, Body()
    {
      L.Core(receivingBusy, sendingBusy, waitingBusy, canceled, waitOp, readOp.HeaderRead?, readOp.BodyRead?,
           SendOpOf(sendOp), if readOp.BodyRead? then ReaderOf(readOp.content.readHandler) else L.Nobody)
    }

    constructor ()
      ensures Valid() && fresh(buf) && buf.blocks == [] && readOp == NoRead && !over && Rx() == R.START
      ensures View() == L.IDLE
    {
      buf := new LinkedBuffer(R.BLOCK);
      receivingBusy, sendingBusy, waitingBusy, canceled, waitOp := false, false, false, false, false;
      readOp, sendOp := NoRead, Idle;
      done, raw, head, over := [], "", Head("", []), false;
    }

    function IsBusy(): bool
      reads this
    {
      receivingBusy || sendingBusy || waitingBusy
    }

    // The check of a canceled transceiver's completion handlers.
    function LastOut(): L.Told
      reads this
    {
      if IsBusy() then L.Silent else L.Canceled
    }

    method AsyncWait()
      requires Valid()
      modifies this`waitingBusy, this`waitOp
      ensures Valid() && over == old(over) && Rx() == old(Rx())
      ensures View() == old(View()).(waiting := true, waitOp := true)
    {
      waitingBusy := true;
      waitOp := true;
    }

    method WaitHandler(error: bool) returns (told: L.Told)
      requires Valid() && waitOp
      modifies this`waitingBusy, this`waitOp
      ensures Valid() && over == old(over) && Rx() == old(Rx())
      ensures View() == L.AfterWait(old(View()))
      ensures told == L.ToldOfWait(old(View()), error)
    {
      waitOp := false;
      waitingBusy := false;
      if canceled {
        told := LastOut();
      } else {
        told := if error then L.Failure else L.Success;
      }
    }

    // Runs the handler at once, or leaves it to the last completion.
    method Cancel() returns (ran: bool)
      requires Valid()
      modifies this`canceled
      ensures Valid() && over == old(over) && Rx() == old(Rx())
      ensures ran == !old(IsBusy())
      ensures View() == if ran then old(View()) else old(View()).(canceled := true)
    {
      if !IsBusy() {
        ran := true;
      } else {
        ran := false;
        canceled := true;
      }
    }

    // Body bytes arrived, or a body just found starts with n of them: hand them over, then read on, or
    // call the body complete.
    method ContentReceivingHandler(content: TransmittingContent, error: bool, n: nat) returns (told: L.Told)
      requires content.Valid() && content.available + n <= content.buffer.Length
      requires WantsAll(content) && 0 < content.buffer.Length < TWO_64
      modifies `receivingBusy, `sendingBusy, `readOp, `sendOp, `done, content
      ensures content.Valid()
      ensures canceled ==>
                && told == LastOut() && !receivingBusy && readOp == NoRead && done == old(done)
                && sendOp == old(sendOp) && sendingBusy == old(sendingBusy)
      ensures !canceled && !error ==> told == L.Silent && content.available == old(content.available) + n
      ensures !canceled ==> content.readHandler == old(content.readHandler)
      ensures !canceled && !error && content.available < content.buffer.Length ==>
                && readOp == BodyRead(content) && receivingBusy && done == old(done)
                && sendOp == old(sendOp) && sendingBusy == old(sendingBusy)
                && content.requested == old(content.requested)
                && content.requestedOffset == old(content.requestedOffset)
                && content.requestedSize == old(content.requestedSize)
      ensures !canceled && !error && content.available == content.buffer.Length ==>
                && readOp == NoRead && !receivingBusy && done == old(done) + [Item(raw, head, content.buffer[..])]
                && (if old(content.requested) && content.readHandler.SendReader?
                    then sendingBusy && sendOp == SendingContent(S.Begin(S.Seekable(content.buffer[..])))
                    else sendOp == old(sendOp) && sendingBusy == old(sendingBusy))
      ensures !canceled && error ==>
                && readOp == NoRead && !receivingBusy && done == [] && sendingBusy == old(sendingBusy)
                && told == (if content.readHandler == NoReader then L.Crash else L.Silent)
                && sendOp == (if content.readHandler.SendReader? then Idle else old(sendOp))
    {
      receivingBusy := false;
      readOp := NoRead;
      if canceled {
        return LastOut();
      }
      told := L.Silent;
      if !error {
        var missing, call := content.Commit(n);
        if call.Some? && call.value.reader.SendReader? {
          told := OnContentRead(content.buffer[..], call.value);
        }
        if missing != 0 {
          receivingBusy := true;
          readOp := BodyRead(content);
        } else {
          done := done + [Item(raw, head, content.buffer[..])];
        }
      } else {
        var reader := content.Cancel();
        done := [];
        match reader {
          case NoReader => told := L.Crash;
          case AppReader =>
          case SendReader(_) => sendOp := Idle;
        }
      }
    }

    // The send loop's reader is called with a piece of the body.
    method OnContentRead(data: string, call: Call) returns (told: L.Told)
      requires call.reader.SendReader? && call.offset == 0 && call.size == call.reader.remaining == |data|
      requires 0 < |data| < TWO_64
      modifies `sendingBusy, `sendOp
      ensures canceled ==> !sendingBusy && sendOp == Idle && told == LastOut()
      ensures !canceled ==> sendingBusy && sendOp == SendingContent(S.Begin(S.Seekable(data))) && told == L.Silent
    {
      sendingBusy, sendOp := false, Idle;
      if canceled {
        return LastOut();
      }
      sendingBusy := true;
      var piece := data[call.offset..call.offset + call.size];
      assert piece == data;
      sendOp := SendingContent(S.Sending(S.Seekable(data), call.reader.remaining, piece, "", 0));
      told := L.Silent;
    }

    // Nothing of the transceiver changes while its objects do not.
    twostate lemma Stays()
      requires forall o :: o in old(Repr()) ==> unchanged(o)
      ensures Repr() == old(Repr()) && View() == old(View())
      ensures Valid() == old(Valid())
    {
      assert {this, buf} <= old(Repr()) && old(Body()) <= old(Repr());
      assert unchanged(this) && unchanged(buf);
      assert forall b :: b in buf.blocks ==> b in old(Repr()) && unchanged(b);
      if readOp.BodyRead? {
        assert unchanged(readOp.content) && unchanged(readOp.content.buffer);
      }
    }

    // What joins the transceiver's objects is new.
    twostate predicate Grown()
      reads `readOp, buf
    {
      && (readOp.BodyRead? ==> fresh(readOp.content) && fresh(readOp.content.buffer))
      && forall b :: b in buf.blocks ==> b in old(buf.blocks) || fresh(b)
    }

    twostate lemma GrownIsNew()
      requires Grown()
      ensures fresh(Repr() - old(Repr()))
    {
    }

    ghost predicate NewBody()
      reads `readOp, buf, Body()
    {
      readOp.BodyRead? ==> BodyUnderWay(readOp.content) && readOp.content.readHandler == NoReader
    }

    // _receive_content: the body starts with what is buffered.
    method ReceiveContent(ghost header: string, msg: Message) returns (a: Arrival)
      requires buf.Valid() && buf.blockSize == R.BLOCK && R.OneBlock(buf.View()) && readOp == NoRead
      modifies `receivingBusy, `sendingBusy, `readOp, `sendOp, `done, `raw, `head, `over, buf
      ensures Grown()
      ensures buf.Valid() && sendOp == old(sendOp)
      ensures R.OneBlock(buf.View()) && NewBody()
      ensures over <==> old(over) || a == Lost
      ensures View() == L.AfterSearch(old(View()), FoundOf(a))
      ensures match ContentLength(msg.attributes)
              case None => a == Lost
              case Some(n) =>
                && a == Arrived(msg, L.FoundFor(old(buf.size), n))
                && (!canceled ==> Rx() == R.TakeBody(old(Rx()), header, msg.View(), n))
    {
      var length := msg.GetContentLength();
      if length.None? || length.value >= TWO_63 {
        over := true;
        return Lost;
      }
      var found := L.NoBody;
      if length.value != 0 {
        found := ReceiveBody(header, msg.View(), length.value);
      } else {
        NoBodyFollows(header, msg.View());
      }
      a := Arrived(msg, found);
    }

    ghost method NoBodyFollows(header: string, h: Head)
      requires buf.Valid() && buf.blockSize == R.BLOCK && R.OneBlock(buf.View()) && readOp == NoRead
      modifies `done
      ensures buf.Valid() && buf.View() == old(buf.View())
      ensures Rx() == R.TakeBody(old(Rx()), header, h, 0)
    {
      TakeBodyIs(Rx(), header, h, 0, 0);
      done := done + [Item(header, h, "")];
    }

    method ReceiveBody(ghost header: string, ghost h: Head, length: nat) returns (found: L.Found)
      requires buf.Valid() && buf.blockSize == R.BLOCK && R.OneBlock(buf.View()) && readOp == NoRead
      requires 0 < length < TWO_64
      modifies `receivingBusy, `sendingBusy, `readOp, `sendOp, `done, `raw, `head, buf
      ensures Grown()
      ensures buf.Valid() && sendOp == old(sendOp)
      ensures found == L.FoundFor(old(buf.size), length)
      ensures View() == L.AfterBody(old(View()), found) && NewBody()
      ensures R.OneBlock(buf.View())
      ensures !canceled ==> Rx() == R.TakeBody(old(Rx()), header, h, length)
    {
      ghost var q := buf.View();
      var content, take := TakeBuffered(buf, length);
      found := if take == length then L.BodyComplete else L.BodyPending;
      ghost var got := content.Got();
      StartBody(header, h, content);
      TakeBodyIs(R.Receiver(q, R.Ready, old(done)), header, h, length, take);
    }

    // The rest of the body is asked of the socket.
    method StartBody(ghost header: string, ghost h: Head, content: TransmittingContent)
      requires buf.Valid() && content.Valid() && content.buffer !in buf.blocks && readOp == NoRead
      requires content.View() == Empty(content.buffer.Length).(available := content.available)
      requires 0 < content.buffer.Length < TWO_64
      modifies `receivingBusy, `sendingBusy, `readOp, `sendOp, `done, `raw, `head, content
      ensures buf.Valid() && buf.View() == old(buf.View()) && sendOp == old(sendOp)
      ensures var pending := old(content.available) < content.buffer.Length;
              View() == L.AfterBody(old(View()), if pending then L.BodyPending else L.BodyComplete)
      ensures NewBody() && (readOp.BodyRead? ==> readOp.content == content)
      ensures !canceled ==>
                Rx() == if old(content.available) < content.buffer.Length
                        then R.Receiver(buf.View(), R.Body(header, h, content.buffer.Length, old(content.Got())),
                                        old(done))
                        else R.Receiver(buf.View(), R.Ready, old(done) + [Item(header, h, old(content.Got()))])
    {
      ghost var got := content.Got();
      sendingBusy := true;
      raw, head := header, h;
      var told := ContentReceivingHandler(content, false, 0);
      assert content.buffer[..] == content.buffer[..content.buffer.Length];
      assert !canceled ==> content.Got() == got;
    }

    // The first n buffered bytes are a header: cut them off, decode them, take the body.
    method TakeMessage(n: nat) returns (a: Arrival)
      requires buf.Valid() && buf.blockSize == R.BLOCK && readOp == NoRead
      requires EndAt(buf.Contents(), n) && R.Fits(buf.View())
      requires buf.size - n + buf.capacity < R.BLOCK || R.OneBlock(buf.View())
      modifies `receivingBusy, `sendingBusy, `readOp, `sendOp, `done, `raw, `head, `over, buf
      ensures Grown()
      ensures buf.Valid() && sendOp == old(sendOp)
      ensures NewBody() && R.OneBlock(buf.View())
      ensures DeliversAt(a, old(buf.Contents()), n) && View() == L.AfterSearch(old(View()), FoundOf(a))
      ensures over <==> old(over) || a == Lost
      ensures a.Arrived? && !canceled ==> Rx() == R.CutHeader(R.Receiver(old(buf.View()), R.Ready, old(done)), n)
    {
      ghost var r := R.Receiver(buf.View(), R.Ready, done);
      var header, msg := ReadMessage(buf, n);
      a := OpenMessage(header, msg, r, n);
    }

    // A message cut off the buffer of r: null if decoding it does not end.
    method OpenMessage(ghost header: string, msg: Message?, ghost r: R.Receiver, ghost n: nat) returns (a: Arrival)
      requires buf.Valid() && buf.blockSize == R.BLOCK && R.OneBlock(buf.View()) && readOp == NoRead
      requires EndAt(r.q.data, n) && header == r.q.data[..n] && EndAt(header, n)
      requires buf.View() == Drop(r.q, n, R.BLOCK) && r.phase == R.Ready && r.done == done
      requires if msg == null then Decode(header).None? else Decode(header) == Some(msg.View())
      modifies `receivingBusy, `sendingBusy, `readOp, `sendOp, `done, `raw, `head, `over, buf
      ensures Grown()
      ensures buf.Valid() && sendOp == old(sendOp)
      ensures NewBody() && R.OneBlock(buf.View())
      ensures DeliversAt(a, r.q.data, n) && View() == L.AfterSearch(old(View()), FoundOf(a))
      ensures over <==> old(over) || a == Lost
      ensures a.Arrived? && !canceled ==> Rx() == R.CutHeader(r, n)
    {
      CutHeaderIs(r, n);
      if msg == null {
        over := true;
        return Lost;
      }
      a := ReceiveContent(header, msg);
    }

    // The first buffered header is delivered.
    method Deliver(n: nat) returns (a: Arrival)
      requires buf.Valid() && buf.blockSize == R.BLOCK && readOp == NoRead && !over
      requires FirstEnd(buf.Contents()) == Some(n) && R.Fits(buf.View())
      requires buf.size - n + buf.capacity < R.BLOCK || R.OneBlock(buf.View())
      modifies `receivingBusy, `sendingBusy, `readOp, `sendOp, `done, `raw, `head, `over, buf
      ensures Grown()
      ensures Valid() && sendOp == old(sendOp)
      ensures DeliversAt(a, old(buf.Contents()), n) && View() == L.AfterSearch(old(View()), FoundOf(a))
      ensures over <==> a == Lost
      ensures !over && !canceled ==> Rx() == R.CutHeader(R.Receiver(old(buf.View()), R.Ready, old(done)), n)
    {
      R.CutHeaderIsParse(R.Receiver(buf.View(), R.Ready, done), n);
      a := TakeMessage(n);
    }

    // async_receive: a header already buffered, or a read. The flag stays set when the message has no
    // body.
    method AsyncReceive() returns (a: Arrival)
      requires Valid() && readOp == NoRead && !over
      modifies `receivingBusy, `sendingBusy, `readOp, `sendOp, `done, `raw, `head, `over, buf
      ensures Grown()
      ensures Valid() && sendOp == old(sendOp)
      ensures Finds(a, old(buf.Contents()))
      ensures View() == L.AfterSearch(old(View()).(receiving := true), FoundOf(a))
      ensures over <==> a == Lost
      ensures !over && !canceled ==> Rx() == R.Start(old(Rx()))
    {
      receivingBusy := true;
      a := LookInBuffer();
    }

    method LookInBuffer() returns (a: Arrival)
      requires Valid() && readOp == NoRead && !over
      modifies `receivingBusy, `sendingBusy, `readOp, `sendOp, `done, `raw, `head, `over, buf
      ensures Grown()
      ensures Valid() && sendOp == old(sendOp)
      ensures Finds(a, old(buf.Contents()))
      ensures View() == L.AfterSearch(old(View()), FoundOf(a))
      ensures over <==> a == Lost
      ensures !over && !canceled ==> Rx() == R.Start(old(Rx()))
    {
      R.StartIs(Rx());
      R.FrontScan(Rx());
      var end, status := FindInBuffer(buf);
      a := Proceed(end, status);
    }

    // The first header found is delivered; without one, more is read.
    method Proceed(end: Option<nat>, status: nat) returns (a: Arrival)
      requires buf.Valid() && buf.blockSize == R.BLOCK && readOp == NoRead && !over && R.Fits(buf.View())
      requires end == FirstEnd(buf.Contents()) && (end.None? ==> status == After(0, buf.Contents()))
      requires end.Some? ==> buf.size - end.value + buf.capacity < R.BLOCK || R.OneBlock(buf.View())
      modifies `receivingBusy, `sendingBusy, `readOp, `sendOp, `done, `raw, `head, `over, buf
      ensures Grown()
      ensures Valid() && sendOp == old(sendOp)
      ensures Finds(a, old(buf.Contents()))
      ensures View() == L.AfterSearch(old(View()), FoundOf(a))
      ensures over <==> a == Lost
      ensures !over && !canceled ==> Rx() == R.Proceeded(R.Receiver(old(buf.View()), R.Ready, old(done)), end, status)
    {
      if end.Some? {
        a := Deliver(end.value);
      } else {
        R.ProceededIsConsistent(R.Receiver(buf.View(), R.Ready, done), status);
        AskForHeader(status);
        a := Waiting;
      }
    }

    // The header read completed: on an error, or with these bytes in the room it was offered.
    method HeaderReceivingHandler(error: bool, bytes: string) returns (a: Arrival)
      requires Valid() && readOp.HeaderRead? && !over && |bytes| <= buf.capacity
      modifies `receivingBusy, `sendingBusy, `readOp, `sendOp, `done, `raw, `head, `over, buf, buf.blocks
      ensures Grown()
      ensures Valid() && sendOp == old(sendOp)
      ensures error ==> a == Failed && View() == old(View()).(receiving := false, headerOp := false)
      ensures !error ==>
                && View() == L.AfterSearch(old(View()).(receiving := false, headerOp := false), FoundOf(a))
                && Finds(a, old(buf.Contents()) + bytes)
      ensures over <==> error || a == Lost
      ensures !over && !canceled ==> Rx() == R.HeaderBytes(old(Rx()), bytes)
    {
      var status := readOp.status;
      ghost var r := Rx();
      receivingBusy, readOp := false, NoRead;
      if !error {
        a := ScanHeaderBytes(status, bytes, r);
      } else {
        over := true;
        a := Failed;
      }
    }

    method ScanHeaderBytes(status: nat, bytes: string, ghost r: R.Receiver) returns (a: Arrival)
      requires buf.Valid() && buf.blockSize == R.BLOCK && readOp == NoRead && !over && |bytes| <= buf.capacity
      requires r == R.Receiver(buf.View(), R.Header(status), done) && R.Consistent(r)
      modifies `receivingBusy, `sendingBusy, `readOp, `sendOp, `done, `raw, `head, `over, buf, buf.blocks
      ensures Grown()
      ensures Valid() && sendOp == old(sendOp)
      ensures View() == L.AfterSearch(old(View()), FoundOf(a))
      ensures Finds(a, r.q.data + bytes)
      ensures over <==> a == Lost
      ensures !over && !canceled ==> Rx() == R.HeaderBytes(r, bytes)
    {
      R.HeaderBytesIs(r, bytes);
      var end, next := SearchRead(buf, status, bytes, r);
      a := Proceed(end, next);
    }

    // A read into the room behind the buffered bytes, to be scanned from this status on.
    method AskForHeader(status: nat)
      requires buf.Valid() && buf.blockSize == R.BLOCK && readOp == NoRead
      modifies `receivingBusy, `readOp, buf
      ensures Grown()
      ensures buf.Valid() && View() == old(View()).(receiving := true, headerOp := true)
      ensures readOp == HeaderRead(status)
      ensures Rx() == R.Receiver(Offer(old(buf.View()), R.BLOCK), R.Header(status), done)
    {
      receivingBusy := true;
      var room := buf.GetAvailableBlock();
      readOp := HeaderRead(status);
    }

    // The direct body read completed: on an error, or with these bytes in the content's buffer.
    method OnBodyRead(error: bool, bytes: string) returns (told: L.Told)
      requires Valid() && readOp.BodyRead? && !over
      requires readOp.content.available + |bytes| <= readOp.content.buffer.Length
      modifies `receivingBusy, `sendingBusy, `readOp, `sendOp, `done, readOp.content, readOp.content.buffer
      ensures Valid()
      ensures var more := old(readOp.content.available) + |bytes| < old(readOp.content.buffer).Length;
              View() == L.AfterBodyRead(old(View()), error, more)
      ensures told == L.ToldOfBody(old(View()), error) && (readOp == NoRead || readOp == old(readOp))
      ensures !canceled ==> Rx() == if error then R.BodyFails(old(Rx())) else R.BodyBytes(old(Rx()), bytes)
    {
      ghost var r := Rx();
      R.BodyBytesIsFill(r, bytes);
      var content := readOp.content;
      content.Receive(bytes);
      ghost var got := r.phase.got + bytes;
      assert content.buffer[..|got|] == got;
      told := OnBodyBytes(error, |bytes|, got);
    }

    // The bytes of a body read are in place.
    method OnBodyBytes(error: bool, n: nat, ghost got: string) returns (told: L.Told)
      requires Valid() && readOp.BodyRead? && !over
      requires readOp.content.available + n == |got| <= readOp.content.buffer.Length
      requires readOp.content.buffer[..|got|] == got
      modifies `receivingBusy, `sendingBusy, `readOp, `sendOp, `done, readOp.content
      ensures Valid()
      ensures View() == L.AfterBodyRead(old(View()), error, |got| < old(readOp.content.buffer).Length)
      ensures told == L.ToldOfBody(old(View()), error) && (readOp == NoRead || readOp == old(readOp))
      ensures !canceled && !error ==>
                Rx() == if |got| < old(readOp.content.buffer).Length
                        then R.Receiver(buf.View(), R.Body(raw, head, old(readOp.content.buffer).Length, got),
                                        old(done))
                        else R.Receiver(buf.View(), R.Ready, old(done) + [Item(raw, head, got)])
      ensures !canceled && error ==> Rx() == R.BodyFails(old(Rx()))
      ensures buf.View() == old(buf.View())
    {
      var content := readOp.content;
      assert |got| == content.buffer.Length ==> content.buffer[..] == got;
      told := ContentReceivingHandler(content, error, n);
    }

    // The application asks for the whole body while it is under way.
    method AwaitBody()
      requires Valid() && readOp.BodyRead? && readOp.content.readHandler == NoReader
      modifies readOp.content
      ensures Valid() && over == old(over) && Rx() == old(Rx()) && View() == old(View()).(reader := L.Application)
    {
      var call := readOp.content.AsyncRead(AppReader, 0, 0);
    }

    // async_send: the encoded header goes out first.
    method AsyncSend(msg: Message, out: Outgoing)
      requires Valid() && forall a :: a in msg.attributes ==> Formalizable(a.0)
      modifies `sendingBusy, `sendOp
      ensures Valid() && over == old(over) && Rx() == old(Rx())
      ensures sendOp == SendingHeader(Encode(msg.View()), out)
      ensures View() == old(View()).(sending := true, sendOp := L.HeaderSend(AnswerOf(out)))
    {
      sendingBusy := true;
      var header := EncodeHeader(msg);
      sendOp := SendingHeader(header[..], out);
    }

    // The request's body, complete or still under way with nobody waiting for it.
    ghost predicate Echoable(c: TransmittingContent)
      reads `readOp, c
    {
      && c.Valid() && 0 < c.buffer.Length < TWO_64
      && (if c.available < c.buffer.Length then readOp == BodyRead(c) && c.readHandler == NoReader
          else !readOp.BodyRead?)
    }

    // Sizes are those of a size_t.
    ghost predicate Sendable(out: Outgoing)
      reads `readOp, if out.OwnBody? then {out.content} else {}
    {
      && (out.Given? ==> |out.src.data| < TWO_64)
      && (out.OwnBody? ==> Echoable(out.content))
    }

    // The header went out, or did not; the callback holds on to the message.
    method OnHeaderSent(error: bool, out: Outgoing) returns (told: L.Told)
      requires Valid() && sendOp.SendingHeader? && sendOp.out == out && Sendable(out)
      modifies `sendingBusy, `sendOp, if out.OwnBody? then {out.content} else {}
      ensures Valid() && over == old(over) && Rx() == old(Rx())
      ensures View() == L.AfterHeaderSent(old(View()), error)
      ensures told == L.ToldOfHeader(old(View()), error)
      ensures Announces(out)
    {
      ghost var c := View();
      SendOver();
      if canceled {
        told := LastOut();
      } else {
        told := HeaderWentOut(error, out, c);
      }
    }

    method SendOver()
      requires Valid()
      modifies `sendingBusy, `sendOp
      ensures Valid() && Rx() == old(Rx()) && !sendingBusy && sendOp == Idle
      ensures View() == old(View()).(sending := false, sendOp := L.NoSend)
    {
      sendingBusy, sendOp := false, Idle;
    }

    method HeaderWentOut(error: bool, out: Outgoing, ghost c: L.Core) returns (told: L.Told)
      requires Valid() && !canceled && !sendingBusy && sendOp == Idle && Sendable(out)
      requires c.sendOp == L.HeaderSend(AnswerOf(out)) && View() == c.(sending := false, sendOp := L.NoSend)
      modifies `sendingBusy, `sendOp, if out.OwnBody? then {out.content} else {}
      ensures Valid() && over == old(over) && Rx() == old(Rx())
      ensures View() == L.AfterHeaderSent(c, error) && told == L.ToldOfHeader(c, error)
      ensures Announces(out)
    {
      if error || out.Nothing? {
        return L.Failure;
      }
      told := SendContent(out);
    }

    // What is being sent is the content, from its beginning.
    ghost predicate Announces(out: Outgoing)
      reads `sendOp, if out.OwnBody? then {out.content.buffer} else {}
    {
      sendOp.SendingContent? ==>
        match out
        case Given(src) => sendOp.progress == S.Begin(src)
        case OwnBody(c) => sendOp.progress == S.Begin(S.Seekable(c.buffer[..]))
        case Nothing => false
    }

    // _send_content: an empty content is sent at once.
    method SendContent(out: Outgoing) returns (told: L.Told)
      requires Valid() && !canceled && !sendingBusy && sendOp == Idle && !out.Nothing? && Sendable(out)
      modifies `sendingBusy, `sendOp, if out.OwnBody? then {out.content} else {}
      ensures Valid() && over == old(over) && Rx() == old(Rx())
      ensures View() == L.AfterHeaderSent(old(View()).(sendOp := L.HeaderSend(AnswerOf(out))), false)
      ensures told == if AnswerOf(out).NoBytes? then L.Success else L.Silent
      ensures Announces(out)
    {
      match out {
        case Given(src) =>
          told := SendGiven(src);
        case OwnBody(c) =>
          told := L.Silent;
          EchoBody(c);
      }
    }

    method SendGiven(src: S.Source) returns (told: L.Told)
      requires Valid() && !canceled && |src.data| < TWO_64
      modifies `sendingBusy, `sendOp
      ensures Valid() && over == old(over) && Rx() == old(Rx())
      ensures View() == old(View()).(sending := src.data != "",
                                     sendOp := if src.data == "" then L.NoSend else L.ContentSend)
      ensures told == if src.data == "" then L.Success else L.Silent
      ensures sendOp.SendingContent? ==> sendOp.progress == S.Begin(src)
    {
      BeginIs(src);
      sendingBusy := true;
      told := ContentSendingHandler(S.Sending(src, |src.data|, "", "", 0), false, 0);
    }

    // _send_content for the request's own body.
    method EchoBody(c: TransmittingContent)
      requires Valid() && Echoable(c)
      modifies `sendingBusy, `sendOp, c
      ensures Valid() && over == old(over) && Rx() == old(Rx())
      ensures View() == old(View()).(sending := true, sendOp := SendOpOf(sendOp),
                                     reader := if readOp.BodyRead? then L.Sender else L.Nobody)
      ensures sendOp == if readOp.BodyRead? then AwaitingBody(c) else SendingContent(S.Begin(S.Seekable(c.buffer[..])))
    {
      var now := AskForAll(c);
      sendingBusy := true;
      sendOp := if now then SendingContent(S.Begin(S.Seekable(c.buffer[..]))) else AwaitingBody(c);
    }

    // The send loop's first read of a body.
    method AskForAll(c: TransmittingContent) returns (now: bool)
      requires Valid() && Echoable(c)
      modifies c
      ensures Valid() && Rx() == old(Rx()) && now == !readOp.BodyRead?
      ensures readOp.BodyRead? ==> readOp.content == c && c.readHandler.SendReader?
    {
      var call := c.AsyncRead(SendReader(c.buffer.Length), 0, 0);
      now := call.Some?;
    }

    // _content_sending_handler for a content that answers at once.
    method ContentSendingHandler(s: S.Sending, error: bool, t: nat) returns (told: L.Told)
      requires t <= |s.offered|
      modifies `sendingBusy, `sendOp
      ensures canceled || error || S.Sent(s, t).remaining == 0 ==> !sendingBusy && sendOp == Idle
      ensures canceled ==> told == LastOut()
      ensures !canceled && error ==> told == L.Failure
      ensures !canceled && !error && S.Sent(s, t).remaining == 0 ==> told == L.Success
      ensures !canceled && !error && S.Sent(s, t).remaining != 0 ==>
                told == L.Silent && sendingBusy && sendOp == SendingContent(S.Sent(s, t))
    {
      sendingBusy, sendOp := false, Idle;
      if canceled {
        return LastOut();
      }
      if error {
        return L.Failure;
      }
      var remaining := Wrap(s.remaining - t);
      if remaining == 0 {
        return L.Success;
      }
      sendingBusy := true;
      var next := S.Answer(s.src, Wrap(|s.src.data| - remaining));
      sendOp := SendingContent(S.Sending(s.src, remaining, next, s.wire + s.offered[..t], s.successes));
      told := L.Silent;
    }

    method OnContentSent(error: bool, t: nat) returns (told: L.Told)
      requires Valid() && sendOp.SendingContent? && t <= |sendOp.progress.offered|
      modifies `sendingBusy, `sendOp
      ensures Valid() && over == old(over) && Rx() == old(Rx())
      ensures var next := S.Sent(old(sendOp).progress, t);
              && View() == L.AfterContentSent(old(View()), error, next.remaining != 0)
              && (sendOp.SendingContent? ==> sendOp.progress == next)
              && told == L.ToldOfContent(old(View()), error, next.remaining != 0)
    {
      told := ContentSendingHandler(sendOp.progress, error, t);
    }
  }

  // The message delivered is the one whose header is the first n bytes of `data`.
  ghost predicate DeliversAt(a: Arrival, data: string, n: nat)
    requires EndAt(data, n)
    reads if a.Arrived? then {a.msg} else {}
  {
    match Open(data[..n])
    case Unreadable => a == Lost
    case Opened(h, length) => a.Arrived? && a.msg.View() == h && a.found == L.FoundFor(|data| - n, length)
  }

  // What is found in `data` is its first header, if it has one.
  ghost predicate Finds(a: Arrival, data: string)
    reads if a.Arrived? then {a.msg} else {}
  {
    match FirstEnd(data)
    case None => a == Waiting
    case Some(n) => DeliversAt(a, data, n)
  }

  lemma FoundIsKnown(a: Arrival, data: string)
    requires Finds(a, data)
    ensures a != Failed && (a.Arrived? ==> a.found in {L.NoBody, L.BodyComplete, L.BodyPending})
  {
  }

  // The matcher runs over the first n bytes of a slice.
  method ScanSlice(matcher: HeaderMatcher, slice: Slice, n: nat) returns (end: Option<nat>)
    requires InBlock(slice) && n <= slice.size
    modifies matcher
    ensures match ScanFrom(old(matcher.status), slice.block[slice.start..slice.start + n], 0)
            case Found(k) => end == Some(k)
            case Missing(status) => end == None && matcher.status == status
  {
    ghost var bytes := slice.block[slice.start..slice.start + n];
    for i := 0 to n
      invariant ScanFrom(old(matcher.status), bytes, 0) == ScanFrom(matcher.status, bytes, i)
    {
      assert bytes[i] == slice.block[slice.start + i];
      var found := matcher.Match(slice.block[slice.start + i]);
      if found {
        return Some(i + 1);
      }
    }
    end := None;
  }

  // A new matcher runs over the front block, if anything is buffered.
  method FindInBuffer(buf: LinkedBuffer) returns (end: Option<nat>, status: nat)
    requires buf.Valid() && buf.blockSize == R.BLOCK
    ensures match ScanFrom(0, Front(buf.View(), R.BLOCK), 0)
            case Found(k) => end == Some(k)
            case Missing(st) => end == None && status == st
  {
    var matcher := new HeaderMatcher();
    end := None;
    if buf.size != 0 {
      var front := FrontSlice(buf);
      end := ScanSlice(matcher, front, front.size);
    }
    status := matcher.status;
  }

  method FrontSlice(buf: LinkedBuffer) returns (front: Slice)
    requires buf.Valid() && buf.blockSize == R.BLOCK && buf.size != 0
    ensures InBlock(front) && LinkedBuffers.Text(front) == Front(buf.View(), R.BLOCK)
  {
    var slices := buf.GetDataBlocks(buf.size);
    front := slices[0];
  }

  // The bytes arrive in the offered room; the carried matcher runs over them; they are committed.
  method ScanRead(buf: LinkedBuffer, status: nat, bytes: string) returns (end: Option<nat>, next: nat)
    requires buf.Valid() && 0 < buf.capacity && |bytes| <= buf.capacity
    modifies buf, buf.blocks
    ensures buf.Valid() && buf.blocks == old(buf.blocks) && buf.View() == Append(old(buf.View()), bytes)
    ensures match ScanFrom(status, bytes, 0)
            case Found(k) => end == Some(old(buf.size) + k)
            case Missing(st) => end == None && next == st
  {
    var size := buf.size;
    end, next := ReadRoom(buf, status, bytes);
    buf.Commit(|bytes|);
    if end.Some? {
      end := Some(size + end.value);
    }
  }

  // What the scan finds is the first header of all bytes held.
  method SearchRead(buf: LinkedBuffer, status: nat, bytes: string, ghost r: R.Receiver)
      returns (end: Option<nat>, next: nat)
    requires buf.Valid() && r.q == buf.View() && r.phase == R.Header(status) && R.Consistent(r)
    requires |bytes| <= buf.capacity
    modifies buf, buf.blocks
    ensures buf.blocks == old(buf.blocks)
    ensures buf.Valid() && buf.View() == Append(r.q, bytes)
    ensures end == FirstEnd(r.q.data + bytes) && (end.None? ==> next == After(0, r.q.data + bytes))
  {
    R.HeaderScan(r, bytes);
    end, next := ScanRead(buf, status, bytes);
  }

  method ReadRoom(buf: LinkedBuffer, status: nat, bytes: string) returns (end: Option<nat>, next: nat)
    requires buf.Valid() && 0 < buf.capacity && |bytes| <= buf.capacity
    modifies buf, buf.blocks
    ensures buf.Valid() && buf.blocks == old(buf.blocks) && buf.View() == old(buf.View())
    ensures buf.Room()[..|bytes|] == bytes
    ensures match ScanFrom(status, bytes, 0)
            case Found(k) => end == Some(k)
            case Missing(st) => end == None && next == st
  {
    var room := WriteRead(buf, bytes);
    end, next := ScanRoom(room, status, |bytes|);
  }

  // A copy of the carried matcher runs over the first n bytes of the room.
  method ScanRoom(room: Slice, status: nat, n: nat) returns (end: Option<nat>, next: nat)
    requires InBlock(room) && n <= room.size
    ensures match ScanFrom(status, room.block[room.start..room.start + n], 0)
            case Found(k) => end == Some(k)
            case Missing(st) => end == None && next == st
  {
    var matcher := new HeaderMatcher.Copy(status);
    end := ScanSlice(matcher, room, n);
    next := matcher.status;
  }

  method WriteRead(buf: LinkedBuffer, bytes: string) returns (room: Slice)
    requires buf.Valid() && 0 < buf.capacity && |bytes| <= buf.capacity
    modifies buf, buf.blocks
    ensures buf.Valid() && buf.blocks == old(buf.blocks) && buf.View() == old(buf.View())
    ensures buf.Room()[..|bytes|] == bytes
    ensures InBlock(room) && |bytes| <= room.size && room.block[room.start..room.start + |bytes|] == bytes
  {
    room := buf.GetAvailableBlock();
    buf.Receive(room, bytes);
  }

  // Cuts a header of n bytes off the buffer and decodes it.
  method ReadMessage(buf: LinkedBuffer, n: nat) returns (header: string, msg: Message?)
    requires buf.Valid() && buf.blockSize == R.BLOCK && EndAt(buf.Contents(), n)
    requires R.Fits(buf.View()) && (buf.size - n + buf.capacity < R.BLOCK || R.OneBlock(buf.View()))
    modifies buf
    ensures forall b :: b in buf.blocks ==> b in old(buf.blocks)
    ensures buf.Valid() && buf.View() == Drop(old(buf.View()), n, R.BLOCK) && R.OneBlock(buf.View())
    ensures header == old(buf.Contents())[..n] && EndAt(header, |header|)
    ensures msg == null <==> Decode(header).None?
    ensures msg != null ==> fresh(msg) && msg.View() == Decode(header).value
  {
    R.DropToLastBlock(buf.View(), n);
    var front := CutFront(buf, n);
    header := front[..];
    msg := DecodeHeader(header);
  }

  lemma TakeBodyIs(r: R.Receiver, raw: string, head: Head, need: nat, take: nat)
    requires take == if |r.q.data| < need then |r.q.data| else need
    ensures R.TakeBody(r, raw, head, need) ==
            if take == need
            then R.Receiver(Drop(r.q, take, R.BLOCK), R.Ready, r.done + [Item(raw, head, r.q.data[..take])])
            else R.Receiver(Drop(r.q, take, R.BLOCK), R.Body(raw, head, need, r.q.data[..take]), r.done)
  {
  }

  lemma CutHeaderIs(r: R.Receiver, n: nat)
    requires EndAt(r.q.data, n)
    ensures var raw := r.q.data[..n];
            EndAt(raw, n) &&
            match Open(raw)
            case Unreadable => Decode(raw).None? || ContentLength(Decode(raw).value.attrs).None?
            case Opened(h, need) =>
              && Decode(raw) == Some(h) && ContentLength(h.attrs) == Some(need)
              && R.CutHeader(r, n) == R.TakeBody(r.(q := Drop(r.q, n, R.BLOCK)), raw, h, need)
  {
  }

  lemma BeginIs(src: S.Source)
    requires |src.data| < TWO_64
    ensures S.Sent(S.Sending(src, |src.data|, "", "", 0), 0) == S.Begin(src)
    ensures S.Begin(src).remaining == |src.data| && (|src.data| == 0 <==> src.data == "")
  {
  }

  // take_data into the content's buffer, consume, commit.
  method FillFromBuffer(buf: LinkedBuffer, content: TransmittingContent, take: nat)
    requires buf.Valid() && content.Valid() && content.buffer !in buf.blocks
    requires content.View() == Empty(content.buffer.Length) && take <= buf.size && take <= content.buffer.Length
    modifies buf, content, content.buffer
    ensures buf.Valid() && buf.View() == Drop(old(buf.View()), take, buf.blockSize)
    ensures forall b :: b in buf.blocks ==> b in old(buf.blocks)
    ensures content.Valid() && content.View() == Empty(content.buffer.Length).(available := take)
    ensures content.Got() == old(buf.Contents())[..take]
  {
    var start, room := content.GetBuffer(0);
    ghost var front := buf.Contents()[..take];
    buf.TakeData(content.buffer, start, take);
    assert content.buffer[..take] == front;
    buf.Consume(take);
    var missing, call := content.Commit(take);
  }

  // A new content with what the buffer holds of it.
  method TakeBuffered(buf: LinkedBuffer, length: nat) returns (content: TransmittingContent, take: nat)
    requires buf.Valid() && buf.blockSize == R.BLOCK && R.OneBlock(buf.View())
    modifies buf
    ensures forall b :: b in buf.blocks ==> b in old(buf.blocks)
    ensures fresh(content) && fresh(content.buffer) && content.buffer.Length == length && content.buffer !in buf.blocks
    ensures take == if old(buf.size) < length then old(buf.size) else length
    ensures buf.Valid() && buf.View() == Drop(old(buf.View()), take, R.BLOCK) && R.OneBlock(buf.View())
    ensures content.Valid() && content.View() == Empty(length).(available := take)
    ensures content.Got() == old(buf.Contents())[..take]
  {
    content := new TransmittingContent(length);
    take := if buf.size < length then buf.size else length;
    R.DropToLastBlock(buf.View(), take);
    if take != 0 {
      FillFromBuffer(buf, content, take);
    }
  }

  // take_data into a vector of its own, consume.
  method CutFront(buf: LinkedBuffer, n: nat) returns (front: array<char>)
    requires buf.Valid() && n <= buf.size
    modifies buf
    ensures forall b :: b in buf.blocks ==> b in old(buf.blocks)
    ensures fresh(front) && front[..] == old(buf.Contents())[..n]
    ensures buf.Valid() && buf.View() == Drop(old(buf.View()), n, buf.blockSize)
  {
    front := new char[n];
    buf.TakeData(front, 0, n);
    assert front[..] == buf.Contents()[..n];
    buf.Consume(n);
  }
}
