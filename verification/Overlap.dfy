// What a header read beside a body read does to the framing: both are out, and the socket gives its bytes
// now to the one, now to the other. Lifecycle.OverlapIsReached is a run to such a state.
module Overlaps {
  import opened Text
  import opened Messages
  import opened Matcher
  import opened HeaderCodec
  import opened Framing
  import opened LinkedBuffers
  import opened Connections
  import R = Receiving

  // Bytes of the stream, with the read that got them.
  datatype Piece = ToBody(bytes: string) | ToHeader(bytes: string)

  function Stream(pieces: seq<Piece>): string {
    if pieces == [] then "" else pieces[0].bytes + Stream(pieces[1..])
  }

  function BodyPart(pieces: seq<Piece>): string {
    if pieces == [] then "" else (if pieces[0].ToBody? then pieces[0].bytes else "") + BodyPart(pieces[1..])
  }

  function HeaderPart(pieces: seq<Piece>): string {
    if pieces == [] then "" else (if pieces[0].ToHeader? then pieces[0].bytes else "") + HeaderPart(pieces[1..])
  }

  // ---- the two reads ----

  // The receiver as the header read sees it, and as the body read does.
  datatype Both = Both(head: R.Receiver, body: R.Receiver)

  // A body is under way, and the session waited and receives again.
  function Start(r: R.Receiver): Both {
    Both(R.Start(R.Receiver(r.q, R.Ready, [])), r)
  }

  ghost predicate Enabled(b: Both, p: Piece) {
    match p
    case ToBody(bytes) => R.Enabled(b.body, R.Read(bytes))
    case ToHeader(bytes) => R.Enabled(b.head, R.Read(bytes))
  }

  function Step(b: Both, p: Piece): Both
    requires Enabled(b, p)
  {
    match p
    case ToBody(bytes) => b.(body := R.Step(b.body, R.Read(bytes)))
    case ToHeader(bytes) => b.(head := R.Step(b.head, R.Read(bytes)))
  }

  ghost predicate Allowed(b: Both, pieces: seq<Piece>)
    decreases |pieces|
  {
    pieces == [] || (Enabled(b, pieces[0]) && Allowed(Step(b, pieces[0]), pieces[1..]))
  }

  ghost function Run(b: Both, pieces: seq<Piece>): Both
    requires Allowed(b, pieces)
    decreases |pieces|
  {
    if pieces == [] then b else Run(Step(b, pieces[0]), pieces[1..])
  }

  // The header read starts with nothing in the buffer.
  lemma StartIs(r: R.Receiver)
    requires R.Consistent(r) && r.phase.Body?
    ensures Search(r.q.data) == Nothing
    ensures R.HasRead(Start(r).head, "") && Start(r).head.phase.Header? && Start(r).body == r
  {
    JoinNone(Parse(""));
    R.StepKeepsParse(R.Receiver(r.q, R.Ready, []), "", R.Receive);
    StartTook(R.Receiver(r.q, R.Ready, []));
  }

  lemma HeadStep(b: Both, p: Piece, seen: string)
    requires R.HasRead(b.head, seen) && Enabled(b, p)
    ensures R.HasRead(Step(b, p).head, seen + if p.ToHeader? then p.bytes else "")
  {
    if p.ToHeader? {
      R.StepKeepsParse(b.head, seen, R.Read(p.bytes));
    } else {
      assert seen + "" == seen;
    }
  }

  // The header read sees the pieces it got as a stream of their own.
  lemma {:induction false} HeadReads(b: Both, pieces: seq<Piece>, seen: string)
    requires R.HasRead(b.head, seen) && Allowed(b, pieces)
    ensures R.HasRead(Run(b, pieces).head, seen + HeaderPart(pieces))
    decreases |pieces|
  {
    if pieces == [] {
      assert seen + "" == seen;
    } else {
      var p := pieces[0];
      var more := if p.ToHeader? then p.bytes else "";
      HeadStep(b, p, seen);
      HeadReads(Step(b, p), pieces[1..], seen + more);
      Regrouped(seen, more, HeaderPart(pieces[1..]));
    }
  }

  lemma {:induction false} BodyIsOver(b: Both, pieces: seq<Piece>)
    requires b.body.phase.Ready? && Allowed(b, pieces)
    ensures BodyPart(pieces) == "" && Run(b, pieces).body == b.body
    decreases |pieces|
  {
    if pieces != [] {
      BodyIsOver(Step(b, pieces[0]), pieces[1..]);
    }
  }

  // The body read puts the pieces it got behind what is there.
  lemma {:induction false} BodyReads(b: Both, pieces: seq<Piece>)
    requires b.body.phase.Body? && |b.body.phase.got| < b.body.phase.need && Allowed(b, pieces)
    ensures var c, got, d := b.body.phase, b.body.phase.got + BodyPart(pieces), Run(b, pieces).body;
            if |got| < c.need then d == b.body.(phase := c.(got := got))
            else |got| == c.need && d == R.Receiver(b.body.q, R.Ready, b.body.done + [Item(c.raw, c.head, got)])
    decreases |pieces|
  {
    if pieces == [] {
      assert b.body.phase.got + "" == b.body.phase.got;
    } else {
      var p, next, rest := pieces[0], Step(b, pieces[0]), pieces[1..];
      if p.ToHeader? {
        BodyReads(next, rest);
        assert BodyPart(pieces) == BodyPart(rest);
      } else {
        assert b.body.phase.got + BodyPart(pieces) == b.body.phase.got + p.bytes + BodyPart(rest);
        if next.body.phase.Body? {
          BodyReads(next, rest);
        } else {
          BodyIsOver(next, rest);
          assert b.body.phase.got + BodyPart(pieces) == b.body.phase.got + p.bytes;
        }
      }
    }
  }

  // What two reads make of their pieces: the body of what the one got, and the messages the other got.
  lemma OverlapDelivers(r: R.Receiver, pieces: seq<Piece>)
    requires R.Consistent(r) && r.phase.Body? && Allowed(Start(r), pieces)
    ensures var c, got, b := r.phase, r.phase.got + BodyPart(pieces), Run(Start(r), pieces);
            && |got| <= c.need && (|got| == c.need ==> b.body.done == r.done + [Item(c.raw, c.head, got)])
            && Join(b.head.done, R.RestOf(b.head)) == Parse(HeaderPart(pieces))
  {
    StartIs(r);
    HeadReads(Start(r), pieces, "");
    assert "" + HeaderPart(pieces) == HeaderPart(pieces);
    BodyReads(Start(r), pieces);
  }

  // ---- when that is the parse of the stream ----

  // The body, and the messages behind it, are those the one-shot parse goes on with.
  predicate Right(rest: Rest, pieces: seq<Piece>)
    requires rest.NeedBody?
  {
    Resume(rest, Stream(pieces))
    == Join([Item(rest.raw, rest.head, rest.got + BodyPart(pieces))], Parse(HeaderPart(pieces)))
  }

  lemma RightIff(rest: Rest, pieces: seq<Piece>)
    requires rest.NeedBody? && |rest.got| + |BodyPart(pieces)| == rest.need
    ensures Right(rest, pieces) <==> Stream(pieces) == BodyPart(pieces) + HeaderPart(pieces)
  {
    var s, b, h := Stream(pieces), BodyPart(pieces), HeaderPart(pieces);
    PartsLength(pieces);
    ResumeIs(rest, s, |b|);
    assert s == s[..|b|] + s[|b|..];
    if s == b + h {
      assert s[..|b|] == b && s[|b|..] == h;
    } else if Right(rest, pieces) {
      SameWire(rest, s[..|b|], b, s[|b|..], h);
    }
  }

  // A body and what is parsed behind it tell the bytes they are made of.
  lemma SameWire(rest: Rest, a: string, b: string, s: string, t: string)
    requires rest.NeedBody?
    requires Join([Item(rest.raw, rest.head, rest.got + a)], Parse(s))
             == Join([Item(rest.raw, rest.head, rest.got + b)], Parse(t))
    ensures a == b && s == t
  {
    SameJoin(Item(rest.raw, rest.head, rest.got + a), Item(rest.raw, rest.head, rest.got + b), Parse(s), Parse(t));
    SamePrefix(rest.got, a, b);
    ParseConserves(s);
    ParseConserves(t);
  }

  lemma ResumeIs(rest: Rest, s: string, n: nat)
    requires rest.NeedBody? && |rest.got| + n == rest.need && n <= |s|
    ensures Resume(rest, s) == Join([Item(rest.raw, rest.head, rest.got + s[..n])], Parse(s[n..]))
  {
    var data := rest.got + s;
    assert data[..rest.need] == rest.got + s[..n] && data[rest.need..] == s[n..];
  }

  lemma SameJoin(a: Item, b: Item, p: Parsed, q: Parsed)
    requires Join([a], p) == Join([b], q)
    ensures a == b && p == q
  {
    assert ([a] + p.items)[0] == a && ([b] + q.items)[0] == b;
    assert ([a] + p.items)[1..] == p.items && ([b] + q.items)[1..] == q.items;
  }

  lemma SamePrefix(a: string, b: string, c: string)
    requires a + b == a + c
    ensures b == c
  {
    assert b == (a + b)[|a|..] && c == (a + c)[|a|..];
  }

  lemma {:induction false} PartsLength(pieces: seq<Piece>)
    ensures |Stream(pieces)| == |BodyPart(pieces)| + |HeaderPart(pieces)|
    decreases |pieces|
  {
    if pieces != [] {
      PartsLength(pieces[1..]);
    }
  }

  // Once the header read got a byte, the body read gets none.
  predicate InOrder(pieces: seq<Piece>) {
    forall i, j :: 0 <= i < j < |pieces| && pieces[i].ToHeader? && pieces[i].bytes != "" && pieces[j].ToBody? ==>
      pieces[j].bytes == ""
  }

  predicate SameShape(pieces: seq<Piece>, other: seq<Piece>) {
    && |pieces| == |other|
    && forall i :: 0 <= i < |pieces| ==>
         pieces[i].ToBody? == other[i].ToBody? && |pieces[i].bytes| == |other[i].bytes|
  }

  lemma {:induction false} ShapeKeepsLength(pieces: seq<Piece>, other: seq<Piece>)
    requires SameShape(pieces, other)
    ensures |BodyPart(pieces)| == |BodyPart(other)| && (InOrder(pieces) ==> InOrder(other))
    decreases |pieces|
  {
    if pieces != [] {
      assert forall i :: 0 <= i < |pieces| - 1 ==> pieces[1..][i] == pieces[i + 1] && other[1..][i] == other[i + 1];
      ShapeKeepsLength(pieces[1..], other[1..]);
    }
  }

  lemma {:induction false} NoneForBody(pieces: seq<Piece>)
    ensures BodyPart(pieces) == "" <==> forall j :: 0 <= j < |pieces| && pieces[j].ToBody? ==> pieces[j].bytes == ""
    ensures BodyPart(pieces) == "" ==> HeaderPart(pieces) == Stream(pieces)
    decreases |pieces|
  {
    if pieces != [] {
      NoneForBody(pieces[1..]);
      assert forall j :: 0 < j < |pieces| ==> pieces[j] == pieces[1..][j - 1];
    }
  }

  lemma {:induction false} InOrderIsRight(pieces: seq<Piece>)
    requires InOrder(pieces)
    ensures Stream(pieces) == BodyPart(pieces) + HeaderPart(pieces)
    decreases |pieces|
  {
    if pieces != [] {
      var p, rest := pieces[0], pieces[1..];
      assert forall j :: 0 < j < |pieces| ==> pieces[j] == rest[j - 1];
      if p.ToHeader? && p.bytes != "" {
        NoneForBody(rest);
      } else {
        InOrderIsRight(rest);
      }
    }
  }

  // The same pieces, with the bytes that tell most.
  function Painted(pieces: seq<Piece>): (r: seq<Piece>)
    ensures SameShape(pieces, r)
  {
    seq(|pieces|, i requires 0 <= i < |pieces| =>
      if pieces[i].ToBody? then ToBody(Paint('b', |pieces[i].bytes|)) else ToHeader(Paint('h', |pieces[i].bytes|)))
  }

  function Paint(c: char, n: nat): (r: string)
    ensures |r| == n && forall i :: 0 <= i < n ==> r[i] == c
  {
    seq(n, _ => c)
  }

  predicate Plain(pieces: seq<Piece>) {
    forall i, k :: 0 <= i < |pieces| && 0 <= k < |pieces[i].bytes| ==>
      pieces[i].bytes[k] == if pieces[i].ToBody? then 'b' else 'h'
  }

  lemma {:induction false} RightIsInOrder(pieces: seq<Piece>)
    requires Plain(pieces) && Stream(pieces) == BodyPart(pieces) + HeaderPart(pieces)
    ensures InOrder(pieces)
    decreases |pieces|
  {
    if pieces != [] {
      var p, rest := pieces[0], pieces[1..];
      assert forall j :: 0 < j < |pieces| ==> pieces[j] == rest[j - 1];
      PlainBody(rest);
      if p.ToHeader? && p.bytes != "" {
        FirstOf(p.bytes, Stream(rest));
        FirstOf(BodyPart(rest), HeaderPart(pieces));
        NoneForBody(rest);
      } else {
        if p.ToHeader? {
          assert Stream(pieces) == Stream(rest) && HeaderPart(pieces) == HeaderPart(rest);
          assert BodyPart(pieces) == BodyPart(rest);
        } else {
          Regrouped(p.bytes, BodyPart(rest), HeaderPart(rest));
          SamePrefix(p.bytes, Stream(rest), BodyPart(rest) + HeaderPart(rest));
        }
        RightIsInOrder(rest);
      }
    }
  }

  lemma FirstOf(a: string, b: string)
    ensures a != "" ==> (a + b)[0] == a[0]
  {
  }

  lemma {:induction false} PlainBody(pieces: seq<Piece>)
    requires Plain(pieces)
    ensures forall k :: 0 <= k < |BodyPart(pieces)| ==> BodyPart(pieces)[k] == 'b'
    decreases |pieces|
  {
    if pieces != [] {
      assert forall j :: 0 <= j < |pieces| - 1 ==> pieces[1..][j] == pieces[j + 1];
      PlainBody(pieces[1..]);
    }
  }

  // The framing survives the overlap, whatever the bytes, exactly if the body read has got all of its
  // bytes before the header read gets one.
  lemma OverlapIsRightIff(rest: Rest, pieces: seq<Piece>)
    requires rest.NeedBody? && |rest.got| + |BodyPart(pieces)| == rest.need
    ensures (forall other :: SameShape(pieces, other) ==> Right(rest, other)) <==> InOrder(pieces)
  {
    if InOrder(pieces) {
      forall other | SameShape(pieces, other) ensures Right(rest, other) {
        ShapeKeepsLength(pieces, other);
        InOrderIsRight(other);
        RightIff(rest, other);
      }
    } else {
      var other := Painted(pieces);
      ShapeKeepsLength(pieces, other);
      ShapeKeepsLength(other, pieces);
      RightIff(rest, other);
      if Right(rest, other) {
        RightIsInOrder(other);
      }
    }
  }

  // One byte of the body that goes to the header read.
  lemma OverlapGarbles(raw: string, head: Head)
    ensures !Right(NeedBody(raw, head, 1, ""), [ToHeader("a"), ToBody("G")])
  {
    var pieces := [ToHeader("a"), ToBody("G")];
    assert pieces[1..] == [ToBody("G")] && pieces[1..][1..] == [];
    assert Stream(pieces) == "aG" && BodyPart(pieces) == "G" && HeaderPart(pieces) == "a";
    RightIff(NeedBody(raw, head, 1, ""), pieces);
    assert Stream(pieces)[0] != (BodyPart(pieces) + HeaderPart(pieces))[0];
  }
}
