// transmitting_content: a body that is filled while it may already be asked for. Its one reader is
// called once the bytes it asked for are there.
module TransmittingContents {
  import opened Text

  // Who waits for the bytes: nobody (an empty std::function), the application, or the send loop.
  datatype Reader = NoReader | AppReader | SendReader(remaining: nat)

  datatype Call = Call(reader: Reader, offset: nat, size: nat)

  datatype Meeting = Meeting(length: nat, available: nat, requested: bool, size: nat, offset: nat, reader: Reader)

  // commit: more bytes, and the reader's call if its request can now be met.
  function Committed(m: Meeting, n: nat): Meeting {
    var c := m.(available := m.available + n);
    if Meets(c) then c.(requested := false) else c
  }

  predicate Meets(m: Meeting) {
    m.requested && m.offset < m.available && m.size <= m.available - m.offset
  }

  function CallOfCommit(m: Meeting, n: nat): Option<Call> {
    var c := m.(available := m.available + n);
    if Meets(c) then Some(Call(c.reader, c.offset, c.size)) else None
  }

  // async_read: the size is set only when 0 is passed; the commit that follows may call at once.
  function Request(m: Meeting, reader: Reader, offset: nat, size: nat): Meeting {
    m.(requested := true,
       size := if size == 0 then Wrap(m.length - offset) else m.size,
       offset := offset,
       reader := reader)
  }

  function Empty(length: nat): Meeting {
    Meeting(length, 0, false, 0, 0, NoReader)
  }

  // ---- the rendezvous over whole runs ----

  function Sum(sizes: seq<nat>): nat {
    if sizes == [] then 0 else sizes[0] + Sum(sizes[1..])
  }

  function CommitAll(m: Meeting, sizes: seq<nat>): Meeting
    decreases |sizes|
  {
    if sizes == [] then m else CommitAll(Committed(m, sizes[0]), sizes[1..])
  }

  function Calls(m: Meeting, sizes: seq<nat>): seq<Call>
    decreases |sizes|
  {
    if sizes == [] then []
    else
      var call := CallOfCommit(m, sizes[0]);
      (if call.Some? then [call.value] else []) + Calls(Committed(m, sizes[0]), sizes[1..])
  }

  lemma {:induction false} NoRequestNoCall(m: Meeting, sizes: seq<nat>)
    requires !m.requested
    ensures Calls(m, sizes) == [] && CommitAll(m, sizes) == m.(available := m.available + Sum(sizes))
    decreases |sizes|
  {
    if sizes != [] { NoRequestNoCall(Committed(m, sizes[0]), sizes[1..]); }
  }

  // A request for the whole tail is met by the commit that completes the body, and by no other.
  lemma {:induction false} TailIsMetOnce(m: Meeting, sizes: seq<nat>)
    requires m.requested && m.offset < m.length && m.size == m.length - m.offset
    requires m.available < m.length && m.available + Sum(sizes) <= m.length
    ensures CommitAll(m, sizes).available == m.available + Sum(sizes)
    ensures Calls(m, sizes) == if m.available + Sum(sizes) == m.length then [Call(m.reader, m.offset, m.size)] else []
    ensures CommitAll(m, sizes).requested <==> m.available + Sum(sizes) < m.length
    decreases |sizes|
  {
    if sizes != [] {
      if m.available + sizes[0] == m.length {
        NoRequestNoCall(Committed(m, sizes[0]), sizes[1..]);
      } else {
        TailIsMetOnce(Committed(m, sizes[0]), sizes[1..]);
      }
    }
  }

  // Commits before and after one read of everything from `offset` on: the available bytes never exceed
  // the length, and the reader is called exactly once, with that tail, exactly when all bytes are there.
  lemma Rendezvous(length: nat, before: seq<nat>, reader: Reader, offset: nat, later: seq<nat>)
    requires offset < length < TWO_64 && Sum(before) + Sum(later) <= length
    ensures var asked := Request(CommitAll(Empty(length), before), reader, offset, 0);
            && Calls(Empty(length), before) == []
            && CommitAll(asked, [0] + later).available == Sum(before) + Sum(later) <= length
            && Calls(asked, [0] + later)
               == if Sum(before) + Sum(later) == length then [Call(reader, offset, length - offset)] else []
  {
    NoRequestNoCall(Empty(length), before);
    var asked := Request(CommitAll(Empty(length), before), reader, offset, 0);
    assert ([0] + later)[1..] == later;
    assert Sum([0] + later) == Sum(later);
    if asked.available < length {
      TailIsMetOnce(asked, [0] + later);
    } else {
      NoRequestNoCall(Committed(asked, 0), later);
    }
  }

  // A request for some bytes keeps the size of the request before it: only the whole tail can be asked for.
  lemma SizeIsIgnored(m: Meeting, reader: Reader, offset: nat, size: nat, n: nat)
    requires size != 0 && offset < m.available + n && m.size <= m.available + n - offset
    ensures CallOfCommit(Request(m, reader, offset, size), n) == Some(Call(reader, offset, m.size))
  {
  }

  // Nor is a request for the tail behind the last byte ever met.
  lemma EmptyTailIsNeverMet(m: Meeting, reader: Reader, n: nat)
    requires m.available + n <= m.length
    ensures CallOfCommit(Request(m, reader, m.length, 0), n) == None
  {
  }

  class TransmittingContent {
    const buffer: array<char>
    var available: nat
    var requested: bool
    var requestedSize: nat
    var requestedOffset: nat
    var readHandler: Reader

    ghost predicate Valid()
      reads this
    {
      available <= buffer.Length
    }

    function View(): Meeting
      reads this
    {
      Meeting(buffer.Length, available, requested, requestedSize, requestedOffset, readHandler)
    }

    ghost function Got(): string
      requires Valid()
      reads this, buffer
    {
      buffer[..available]
    }

    constructor (size: nat)
      ensures Valid() && fresh(buffer) && buffer.Length == size
      ensures View() == Meeting(size, 0, false, 0, 0, NoReader) == Empty(size)
    {
      buffer := new char[size];
      available, requested, requestedSize, requestedOffset, readHandler := 0, false, 0, 0, NoReader;
    }

    // The room offered to a read: where it starts and how long it is.
    method GetBuffer(size: nat) returns (start: nat, length: nat)
      requires Valid()
      ensures start == available
      ensures size == 0 ==> start + length == buffer.Length
      ensures size != 0 ==> length == size
    {
      start := available;
      length := if size == 0 then buffer.Length - available else size;
    }

    // The connection writes bytes into the offered room.
    method Receive(bytes: string)
      requires Valid() && available + |bytes| <= buffer.Length
      modifies buffer
      ensures Got() == old(Got()) && buffer[available..available + |bytes|] == bytes
    {
      forall i | 0 <= i < |bytes| { buffer[available + i] := bytes[i]; }
    }

    // Answers how many bytes are still missing, and the reader's call if there is one.
    method Commit(size: nat) returns (missing: nat, call: Option<Call>)
      requires Valid() && available + size <= buffer.Length
      modifies this
      ensures Valid()
      ensures View() == Committed(old(View()), size)
      ensures call == CallOfCommit(old(View()), size)
      ensures missing == buffer.Length - available
    {
      available := available + size;
      call := None;
      if requested {
        if requestedOffset < available && requestedSize <= available - requestedOffset {
          requested := false;
          call := Some(Call(readHandler, requestedOffset, requestedSize));
        }
      }
      missing := buffer.Length - available;
    }

    method AsyncRead(handler: Reader, offset: nat, size: nat) returns (call: Option<Call>)
      requires Valid()
      modifies this
      ensures Valid()
      ensures View() == Committed(Request(old(View()), handler, offset, size), 0)
      ensures call == CallOfCommit(Request(old(View()), handler, offset, size), 0)
    {
      requested := true;
      if size == 0 {
        requestedSize := Wrap(buffer.Length - offset);
      }
      requestedOffset := offset;
      readHandler := handler;
      var missing;
      missing, call := Commit(0);
    }

    // The reader learns of an error; calling an empty handler throws.
    method Cancel() returns (called: Reader)
      modifies this
      ensures View() == old(View()).(requested := false) && called == readHandler
    {
      requested := false;
      called := readHandler;
    }
  }
}
