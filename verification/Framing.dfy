// Message framing as a one-shot function of the byte stream: the reference the incremental receiver
// is compared with. It knows nothing of blocks, reads or matcher states.
module Framing {
  import opened Text
  import opened Messages
  import opened Matcher
  import opened HeaderCodec
  import opened RoundTrip

  datatype Item = Item(raw: string, head: Head, body: string)

  // What is left of a stream once its complete messages are cut off.
  datatype Rest =
    | NeedHeader(data: string)
    | NeedBody(raw: string, head: Head, need: nat, got: string)
    | Broken(raw: string, data: string)  // a header that cannot be decoded, or whose length cannot be read

  datatype Parsed = Parsed(items: seq<Item>, rest: Rest)

  datatype Opened = Opened(head: Head, length: nat) | Unreadable

  function Open(raw: string): Opened
    requires EndAt(raw, |raw|)
  {
    match Decode(raw)
    case None => Unreadable
    case Some(head) =>
      match ContentLength(head.attrs)
      case None => Unreadable
      case Some(n) => Opened(head, n)
  }

  function Join(items: seq<Item>, p: Parsed): Parsed {
    Parsed(items + p.items, p.rest)
  }

  lemma JoinTwice(a: seq<Item>, b: seq<Item>, p: Parsed)
    ensures Join(a, Join(b, p)) == Join(a + b, p)
  {
    assert a + (b + p.items) == a + b + p.items;
  }

  lemma JoinNone(p: Parsed)
    ensures Join([], p) == p
  {
    assert [] + p.items == p.items;
  }

  function Parse(s: string): Parsed
    decreases |s|, 0
  {
    match FirstEnd(s)
    case None => Parsed([], NeedHeader(s))
    case Some(n) =>
      match Open(s[..n])
      case Unreadable => Parsed([], Broken(s[..n], s[n..]))
      case Opened(head, length) => Fill(s[..n], head, length, s[n..])
  }

  function Fill(raw: string, head: Head, need: nat, data: string): Parsed
    decreases |data|, 1
  {
    if |data| < need then Parsed([], NeedBody(raw, head, need, data))
    else Join([Item(raw, head, data[..need])], Parse(data[need..]))
  }

  // The stream goes on: the parse of what was left, with the new bytes behind it.
  function Resume(rest: Rest, more: string): Parsed {
    match rest
    case NeedHeader(data) => Parse(data + more)
    case NeedBody(raw, head, need, got) => Fill(raw, head, need, got + more)
    case Broken(raw, data) => Parsed([], Broken(raw, data + more))
  }

  lemma FirstEndStays(a: string, b: string)
    requires FirstEnd(a).Some?
    ensures FirstEnd(a + b) == FirstEnd(a)
  {
    var n := FirstEnd(a).value;
    forall m | m < n ensures !EndAt(a + b, m) {
      assert EndAt(a + b, m) ==> EndAt(a, m);
    }
    FirstEndIs(a + b, n);
  }

  lemma {:induction false} ParseExtends(a: string, b: string)
    ensures Parse(a + b) == Join(Parse(a).items, Resume(Parse(a).rest, b))
    decreases |a|, 0
  {
    match FirstEnd(a)
    case None =>
    case Some(n) =>
      FirstEndStays(a, b);
      assert (a + b)[..n] == a[..n] && (a + b)[n..] == a[n..] + b;
      match Open(a[..n])
      case Unreadable =>
      case Opened(head, length) => FillExtends(a[..n], head, length, a[n..], b);
  }

  lemma {:induction false} FillExtends(raw: string, head: Head, need: nat, data: string, b: string)
    ensures Fill(raw, head, need, data + b)
         == Join(Fill(raw, head, need, data).items, Resume(Fill(raw, head, need, data).rest, b))
    decreases |data|, 1
  {
    if |data| < need {
      JoinNone(Fill(raw, head, need, data + b));
    } else {
      assert (data + b)[..need] == data[..need] && (data + b)[need..] == data[need..] + b;
      ParseExtends(data[need..], b);
      var p, item := Parse(data[need..]), Item(raw, head, data[..need]);
      JoinTwice([item], p.items, Resume(p.rest, b));
    }
  }

  // ---- conservation ----

  function WireOfItems(items: seq<Item>): string {
    if items == [] then [] else items[0].raw + items[0].body + WireOfItems(items[1..])
  }

  function WireOfRest(rest: Rest): string {
    match rest
    case NeedHeader(data) => data
    case NeedBody(raw, _, _, got) => raw + got
    case Broken(raw, data) => raw + data
  }

  lemma {:induction false} ParseConserves(s: string)
    ensures WireOfItems(Parse(s).items) + WireOfRest(Parse(s).rest) == s
    decreases |s|, 0
  {
    match FirstEnd(s)
    case None =>
    case Some(n) =>
      assert s[..n] + s[n..] == s;
      match Open(s[..n])
      case Unreadable =>
      case Opened(head, length) => FillConserves(s[..n], head, length, s[n..]);
  }

  lemma {:induction false} FillConserves(raw: string, head: Head, need: nat, data: string)
    ensures var p := Fill(raw, head, need, data); WireOfItems(p.items) + WireOfRest(p.rest) == raw + data
    decreases |data|, 1
  {
    if |data| >= need {
      var q := Parse(data[need..]);
      var item := Item(raw, head, data[..need]);
      ParseConserves(data[need..]);
      assert ([item] + q.items)[1..] == q.items;
      Regroup(raw, data, need, WireOfItems(q.items), WireOfRest(q.rest));
    }
  }

  lemma Regroup(raw: string, data: string, need: nat, items: string, rest: string)
    requires need <= |data| && items + rest == data[need..]
    ensures raw + data[..need] + items + rest == raw + data
  {
    assert raw + data[..need] + items + rest == raw + data[..need] + (items + rest);
    assert raw + data[..need] + data[need..] == raw + data;
  }

  // ---- streams of encoded messages ----

  // A message that announces the length of the body that follows it.
  ghost predicate Sendable(h: Head, body: string) {
    Good(h) && ContentLength(h.attrs) == Some(|body|)
  }

  function Stream(msgs: seq<(Head, string)>): string {
    if msgs == [] then [] else Encode(msgs[0].0) + msgs[0].1 + Stream(msgs[1..])
  }

  function Items(msgs: seq<(Head, string)>): seq<Item> {
    if msgs == [] then [] else [Item(Encode(msgs[0].0), msgs[0].0, msgs[0].1)] + Items(msgs[1..])
  }

  lemma OneMessage(h: Head, body: string, tail: string)
    requires Sendable(h, body)
    ensures Parse(Encode(h) + (body + tail)) == Join([Item(Encode(h), h, body)], Parse(tail))
  {
    var e := Encode(h);
    var s := e + (body + tail);
    EncodeSelfDelimiting(h, body + tail);
    HeaderRoundTrip(h);
    assert s[..|e|] == e && s[|e|..] == body + tail;
    assert (body + tail)[..|body|] == body && (body + tail)[|body|..] == tail;
    assert Open(e) == Opened(h, |body|);
  }

  // A message without a content-length has no body: the next one starts right behind its header.
  lemma {:induction false} NoLengthNoBody(h: Head, more: string)
    requires Good(h) && Values(h.attrs, "content-length") == []
    ensures Parse(Encode(h) + more) == Join([Item(Encode(h), h, "")], Parse(more))
  {
    LengthIs(h.attrs);
    OneMessage(h, "", more);
    assert "" + more == more;
  }

  // Encoded messages, one behind the other, are recovered one by one; bytes of a message still under
  // way stay behind.
  lemma {:induction false} StreamIsRecovered(msgs: seq<(Head, string)>, more: string)
    requires forall i :: 0 <= i < |msgs| ==> Sendable(msgs[i].0, msgs[i].1)
    ensures Parse(Stream(msgs) + more) == Join(Items(msgs), Parse(more))
    decreases |msgs|
  {
    if msgs == [] {
      assert Stream(msgs) + more == more;
      JoinNone(Parse(more));
    } else {
      var h, body, rest := msgs[0].0, msgs[0].1, msgs[1..];
      StreamCons(msgs, more);
      OneMessage(h, body, Stream(rest) + more);
      assert forall i :: 0 <= i < |rest| ==> rest[i] == msgs[i + 1];
      StreamIsRecovered(rest, more);
      JoinTwice([Item(Encode(h), h, body)], Items(rest), Parse(more));
    }
  }

  lemma StreamCons(msgs: seq<(Head, string)>, more: string)
    requires msgs != []
    ensures Stream(msgs) + more == Encode(msgs[0].0) + (msgs[0].1 + (Stream(msgs[1..]) + more))
    ensures Items(msgs) == [Item(Encode(msgs[0].0), msgs[0].0, msgs[0].1)] + Items(msgs[1..])
  {
    var e := Encode(msgs[0].0);
    assert Stream(msgs) == e + msgs[0].1 + Stream(msgs[1..]);
  }

  // What the server's own responses do: announce the length with to_string.
  lemma {:induction false} DecimalLengthAnnounces(attrs: Attributes, n: nat)
    requires n < TWO_63 && Values(attrs, CONTENT_LENGTH) != [] && Values(attrs, CONTENT_LENGTH)[0] == Decimal(n)
    ensures ContentLength(attrs) == Some(n)
  {
    FindFirstIsOldest(attrs, CONTENT_LENGTH);
    StollOfDecimal(n);
  }
}
