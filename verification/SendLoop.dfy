// The chunked send of a body: ask the content for what remains, hand it to the connection, subtract
// what was transferred, until nothing remains.
module SendLoop {
  import opened Text
  import opened TransmittingContents

  // A content that honours the requested offset, or one that always answers with all of its bytes
  // (const_content, filesystem_content).
  datatype Source = Seekable(data: string) | Whole(data: string)

  function Answer(src: Source, offset: nat): string {
    match src
    case Seekable(data) => if offset <= |data| then data[offset..] else ""
    case Whole(data) => data
  }

  datatype Sending = Sending(src: Source, remaining: nat, offered: string, wire: string, successes: nat)

  // _content_sending_handler after t bytes went out, in size_t arithmetic.
  function Sent(s: Sending, t: nat): Sending
    requires t <= |s.offered|
  {
    var remaining := Wrap(s.remaining - t);
    var wire := s.wire + s.offered[..t];
    if remaining == 0 then Sending(s.src, 0, "", wire, s.successes + 1)
    else Sending(s.src, remaining, Answer(s.src, Wrap(|s.src.data| - remaining)), wire, s.successes)
  }

  // _send_content: the handler runs once for no bytes.
  function Begin(src: Source): Sending {
    Sent(Sending(src, |src.data|, "", "", 0), 0)
  }

  // Every transfer moves at least one byte and at most what was offered.
  predicate Possible(s: Sending, ts: seq<nat>)
    decreases |ts|
  {
    ts == [] || (1 <= ts[0] <= |s.offered| && Possible(Sent(s, ts[0]), ts[1..]))
  }

  function SendAll(s: Sending, ts: seq<nat>): Sending
    requires Possible(s, ts)
    decreases |ts|
  {
    if ts == [] then s else SendAll(Sent(s, ts[0]), ts[1..])
  }

  ghost predicate OnCourse(s: Sending) {
    && s.src.Seekable? && |s.src.data| < TWO_64 && s.remaining <= |s.src.data|
    && s.wire == s.src.data[..|s.src.data| - s.remaining]
    && s.offered == s.src.data[|s.src.data| - s.remaining..]
    && s.successes == (if s.remaining == 0 then 1 else 0)
  }

  // A content that honours the offset: every partial transfer leaves exactly the rest to be sent.
  lemma SentStaysOnCourse(s: Sending, t: nat)
    requires OnCourse(s) && 1 <= t <= |s.offered|
    ensures OnCourse(Sent(s, t)) && Sent(s, t).remaining == s.remaining - t
  {
    var n := |s.src.data|;
    assert Sent(s, t).wire == s.src.data[..n - (s.remaining - t)];
  }

  lemma {:induction false} SeekableRun(s: Sending, ts: seq<nat>)
    requires OnCourse(s) && Possible(s, ts)
    ensures OnCourse(SendAll(s, ts)) && SendAll(s, ts).src == s.src && SendAll(s, ts).remaining == s.remaining - Sum(ts)
    decreases |ts|
  {
    if ts != [] {
      SentStaysOnCourse(s, ts[0]);
      SeekableRun(Sent(s, ts[0]), ts[1..]);
    }
  }

  // Whatever the partial transfers, the wire carries a prefix of the content, `remaining` counts down
  // without wrapping, and success is reported once, exactly when the wire carries all of it.
  lemma SeekableContentIsSent(data: string, ts: seq<nat>)
    requires |data| < TWO_64 && Possible(Begin(Seekable(data)), ts)
    ensures var s := SendAll(Begin(Seekable(data)), ts);
            && Sum(ts) <= |data| && s.remaining == |data| - Sum(ts)
            && s.wire == data[..Sum(ts)]
            && s.successes == (if s.wire == data then 1 else 0)
  {
    assert "" + "" == "" && data[..0] == "" && data[|data|..] == "";
    SeekableRun(Begin(Seekable(data)), ts);
    var s := SendAll(Begin(Seekable(data)), ts);
    assert s.wire == data ==> Sum(ts) == |data|;
  }

  // ---- contents that ignore the offset ----

  // What such a content puts on the wire: a prefix of all of it per transfer.
  function Repeated(data: string, ts: seq<nat>): string
    requires forall i :: 0 <= i < |ts| ==> ts[i] <= |data|
    decreases |ts|
  {
    if ts == [] then "" else data[..ts[0]] + Repeated(data, ts[1..])
  }

  lemma {:induction false} RepeatedSize(data: string, ts: seq<nat>)
    requires forall i :: 0 <= i < |ts| ==> ts[i] <= |data|
    ensures |Repeated(data, ts)| == Sum(ts)
    decreases |ts|
  {
    if ts != [] { RepeatedSize(data, ts[1..]); }
  }

  // All of it is offered as long as anything remains.
  ghost predicate Repeating(s: Sending) {
    && s.src.Whole? && s.remaining < TWO_64 && s.offered == (if s.remaining == 0 then "" else s.src.data)
    && s.successes == (if s.remaining == 0 then 1 else 0)
  }

  lemma WrapTwice(a: int, b: int)
    ensures Wrap(Wrap(a) - b) == Wrap(a - b)
  {
  }

  lemma WholeStep(s: Sending, t: nat)
    requires Repeating(s) && 1 <= t <= |s.offered|
    ensures Repeating(Sent(s, t)) && Sent(s, t).src == s.src && t <= |s.src.data|
    ensures Sent(s, t).remaining == Wrap(s.remaining - t) && Sent(s, t).wire == s.wire + s.src.data[..t]
  {
  }

  lemma {:induction false} WholeCounts(s: Sending, ts: seq<nat>)
    requires Repeating(s) && Possible(s, ts)
    ensures var e := SendAll(s, ts); Repeating(e) && e.src == s.src && e.remaining == Wrap(s.remaining - Sum(ts))
    decreases |ts|
  {
    if ts != [] {
      WholeStep(s, ts[0]);
      WholeCounts(Sent(s, ts[0]), ts[1..]);
      WrapTwice(s.remaining - ts[0], Sum(ts[1..]));
    }
  }

  lemma {:induction false} WholeWire(s: Sending, ts: seq<nat>)
    requires Repeating(s) && Possible(s, ts)
    ensures forall i :: 0 <= i < |ts| ==> 1 <= ts[i] <= |s.src.data|
    ensures SendAll(s, ts).wire == s.wire + Repeated(s.src.data, ts)
    decreases |ts|
  {
    if ts != [] {
      var t, rest := ts[0], ts[1..];
      WholeStep(s, t);
      WholeWire(Sent(s, t), rest);
      assert forall i :: 0 < i < |ts| ==> ts[i] == rest[i - 1];
      assert s.wire + s.src.data[..t] + Repeated(s.src.data, rest)
          == s.wire + (s.src.data[..t] + Repeated(s.src.data, rest));
    }
  }

  // Which transfers are possible does not depend on the bytes.
  lemma {:induction false} BytesDoNotMatter(s: Sending, u: Sending, ts: seq<nat>)
    requires Repeating(s) && Repeating(u) && |s.src.data| == |u.src.data| && s.remaining == u.remaining
    ensures Possible(s, ts) <==> Possible(u, ts)
    decreases |ts|
  {
    if ts != [] && 1 <= ts[0] <= |s.offered| {
      BytesDoNotMatter(Sent(s, ts[0]), Sent(u, ts[0]), ts[1..]);
    }
  }

  // After these transfers, whatever the n bytes: what is counted as remaining and on the wire.
  lemma WholeContentSent(data: string, some: string, ts: seq<nat>)
    requires 0 < |data| == |some| < TWO_64 && Possible(Begin(Whole(some)), ts)
    ensures Possible(Begin(Whole(data)), ts) && forall i :: 0 <= i < |ts| ==> 1 <= ts[i] <= |data|
    ensures var s := SendAll(Begin(Whole(data)), ts);
            && s.remaining == Wrap(|data| - Sum(ts)) && s.successes == (if s.remaining == 0 then 1 else 0)
            && s.wire == Repeated(data, ts) && |s.wire| == Sum(ts)
  {
    BytesDoNotMatter(Begin(Whole(data)), Begin(Whole(some)), ts);
    WholeCounts(Begin(Whole(data)), ts);
    WholeWire(Begin(Whole(data)), ts);
    RepeatedSize(data, ts);
    assert "" + Repeated(data, ts) == Repeated(data, ts);
  }

  function WireOfWhole(data: string, ts: seq<nat>): string {
    if Possible(Begin(Whole(data)), ts) then SendAll(Begin(Whole(data)), ts).wire else ""
  }

  // The transfers that put a content that ignores the offset on the wire, whatever its n bytes, are
  // exactly one full write, and none for no bytes: what async_write promises.
  lemma WholeContentNeedsFullWrite(n: nat, some: string, ts: seq<nat>)
    requires n == |some| < TWO_64 && Possible(Begin(Whole(some)), ts)
    ensures (forall data: string :: |data| == n ==> WireOfWhole(data, ts) == data)
            <==> ts == if n == 0 then [] else [n]
  {
    if n == 0 {
      assert Begin(Whole(some)).offered == "" && ts == [];
      forall data: string | |data| == n ensures WireOfWhole(data, ts) == data { assert data == ""; }
    } else if ts == [n] {
      forall data: string | |data| == n ensures WireOfWhole(data, ts) == data {
        WholeContentSent(data, some, ts);
        assert Repeated(data, ts) == data[..n] + "";
      }
    } else if Sum(ts) != n {
      WholeContentSent(some, some, ts);
    } else {
      SecondWriteRepeats(n, some, ts);
    }
  }

  // 'a' then 'b's: the second transfer starts with 'a' again.
  lemma SecondWriteRepeats(n: nat, some: string, ts: seq<nat>)
    requires 0 < n == |some| < TWO_64 && Possible(Begin(Whole(some)), ts) && Sum(ts) == n && ts != [n]
    ensures exists data: string :: |data| == n && WireOfWhole(data, ts) != data
  {
    var data := seq(n, i => if i == 0 then 'a' else 'b');
    WholeContentSent(data, some, ts);
    assert ts != [];
    var rest := ts[1..];
    if rest != [] {
      assert rest[0] == ts[1];
      assert Repeated(data, ts) == data[..ts[0]] + (data[..rest[0]] + Repeated(data, rest[1..]));
      assert Repeated(data, ts)[ts[0]] == 'a';
      assert ts[0] + Sum(rest) == n && Sum(rest) >= rest[0];
      assert data[ts[0]] == 'b';
    }
  }

  // Partial writes that do not add up: the remainder wraps, and the content goes out again and again.
  lemma PartialWritesUnderflow()
    ensures var s := Begin(Whole("abc"));
            && Possible(s, [2, 2]) && SendAll(s, [2, 2]).remaining == TWO_64 - 1
            && SendAll(s, [2, 2]).wire == "abab" && SendAll(s, [2, 2]).successes == 0
  {
    var s := Begin(Whole("abc"));
    var u := Sent(s, 2);
    var v := Sent(u, 2);
    assert [2, 2][1..] == [2] && [2][1..] == [];
    assert u.remaining == 1 && u.wire == "ab" && u.offered == "abc";
    assert v.remaining == TWO_64 - 1 && v.wire == "abab";
    assert Possible(u, [2]) && SendAll(u, [2]) == v;
  }

  // A complete body honours the offset: every read of its tail is answered at once, with that tail.
  lemma CompleteBodyIsSeekable(data: string, m: Meeting, reader: Reader, offset: nat)
    requires m.length == m.available == |data| < TWO_64 && offset < |data|
    ensures var call := CallOfCommit(Request(m, reader, offset, 0), 0);
            && call == Some(Call(reader, offset, |data| - offset))
            && data[offset..offset + call.value.size] == Answer(Seekable(data), offset)
  {
    assert data[offset..offset + (|data| - offset)] == data[offset..];
  }
}
