// Printing and reading of the header block: _encode_header, _decode_header and the name casing
// between them.
module HeaderCodec {
  import opened Text
  import opened Messages
  import opened Matcher

  const CRLF: string := "\r\n"

  // ---- names on the wire ----

  // c -= 32 on a char of eight bits.
  function Shift(c: char): char {
    if c as int < 32 then (c as int + 224) as char
    else if c as int < 256 then (c as int - 32) as char
    else c
  }

  ghost predicate Bytes(s: string) {
    forall i :: 0 <= i < |s| ==> s[i] as int < 256
  }

  // The positions header_key_formalize writes: the first, and each one after a '-' of the key.
  predicate Capital(name: string, i: nat)
    requires i < |name|
  {
    i == 0 || name[i - 1] == '-'
  }

  // header_key_formalize writes outside the string for an empty key and for one that ends in '-'.
  predicate Formalizable(name: string) {
    name != [] && name[|name| - 1] != '-'
  }

  function Formalize(name: string): (r: string)
    ensures |r| == |name|
    ensures forall i {:trigger r[i]} :: 0 <= i < |name| ==> r[i] == if Capital(name, i) then Shift(name[i]) else name[i]
  {
    seq(|name|, i requires 0 <= i < |name| => if Capital(name, i) then Shift(name[i]) else name[i])
  }

  // The same, told character by character: 32 less, modulo 256, so a letter becomes a capital.
  lemma FormalizeIs(name: string)
    requires Bytes(name)
    ensures |Formalize(name)| == |name|
    ensures forall i {:trigger Formalize(name)[i]} :: 0 <= i < |name| ==>
              if i == 0 || name[i - 1] == '-' then
                && Formalize(name)[i] as int == (name[i] as int - 32) % 256
                && ('a' <= name[i] <= 'z' ==> Formalize(name)[i] == 'A' + (name[i] - 'a'))
              else Formalize(name)[i] == name[i]
  {
    forall i | 0 <= i < |name|
      ensures if i == 0 || name[i - 1] == '-' then
                && Formalize(name)[i] as int == (name[i] as int - 32) % 256
                && ('a' <= name[i] <= 'z' ==> Formalize(name)[i] == 'A' + (name[i] - 'a'))
              else Formalize(name)[i] == name[i]
    {
      assert Capital(name, i) <==> i == 0 || name[i - 1] == '-';
    }
  }

  lemma NameOnTheWire()
    ensures Formalize("content-length") == "Content-Length"
  {
    assert forall i :: 0 <= i < 14 ==> Formalize("content-length")[i] == "Content-Length"[i];
  }

  method HeaderKeyFormalize(key: string) returns (result: string)
    requires Formalizable(key)
    ensures result == Formalize(key)
  {
    ghost var want := Formalize(key);
    result := key[0 := Shift(key[0])];
    var next := Find(key, '-', 0);
    while next.Some?
      invariant |result| == |key|
      invariant next.Some? ==> next.value < |key| && key[next.value] == '-'
      invariant Written(key, result, want, if next.Some? then next.value + 1 else |key|)
      decreases if next.Some? then |key| - next.value else 0
    {
      var i := next.value;
      assert i != |key| - 1;
      result := result[i + 1 := Shift(key[i + 1])];
      next := Find(key, '-', i + 1);
    }
    assert result == want;
  }

  ghost predicate Written(key: string, result: string, want: string, upTo: nat)
    requires |key| == |result| == |want|
  {
    && (forall i :: 0 <= i < upTo <= |key| ==> result[i] == want[i])
    && (forall i :: upTo <= i < |key| ==> result[i] == key[i])
  }

  // The names that survive the wire: a letter (or '`') first and after each '-', no capital and no
  // '@' elsewhere.
  predicate Survives(name: string) {
    forall i {:trigger Capital(name, i)} :: 0 <= i < |name| ==>
      if Capital(name, i) then '`' <= name[i] <= 'z' else !('@' <= name[i] <= 'Z')
  }

  // Lower-casing undoes the capitals on exactly those names.
  lemma SurvivesIffRestored(name: string)
    requires Bytes(name)
    ensures Lower(Formalize(name)) == name <==> Survives(name)
  {
  }

  // ---- printing ----

  function Line(attr: (string, string)): string {
    Formalize(attr.0) + ": " + attr.1 + CRLF
  }

  function Lines(attrs: Attributes): string {
    if attrs == [] then [] else Line(attrs[0]) + Lines(attrs[1..])
  }

  function Encode(h: Head): string {
    h.title + CRLF + Lines(h.attrs) + CRLF
  }

  // One message, letter by letter.
  lemma MessageOnTheWire()
    ensures Encode(Head("HTTP/1.1 200 OK", [("content-length", "5"), ("connection", "close")]))
            == "HTTP/1.1 200 OK\r\n" + "Content-Length: 5\r\n" + "Connection: close\r\n" + "\r\n"
  {
    var attrs := [("content-length", "5"), ("connection", "close")];
    NameOnTheWire();
    assert Line(attrs[0]) == "Content-Length: 5\r\n";
    SecondLine();
    assert attrs[1..] == [attrs[1]] && attrs[1..][1..] == [];
    assert Lines(attrs[1..]) == Line(attrs[1]) + [];
  }

  lemma SecondLine()
    ensures Line(("connection", "close")) == "Connection: close\r\n"
  {
    assert forall i :: 0 <= i < 10 ==> Formalize("connection")[i] == "Connection"[i];
    assert Formalize("connection") == "Connection";
  }

  function LinesSize(attrs: Attributes): nat {
    if attrs == [] then 0 else |attrs[0].0| + |attrs[0].1| + 4 + LinesSize(attrs[1..])
  }

  lemma {:induction false} LinesSnoc(attrs: Attributes, a: (string, string))
    ensures Lines(attrs + [a]) == Lines(attrs) + Line(a)
    ensures LinesSize(attrs + [a]) == LinesSize(attrs) + |Line(a)|
    ensures |Lines(attrs)| == LinesSize(attrs)
    decreases |attrs|
  {
    if attrs == [] {
      assert (attrs + [a])[1..] == [];
    } else {
      assert (attrs + [a])[1..] == attrs[1..] + [a];
      LinesSnoc(attrs[1..], a);
    }
  }

  lemma {:induction false} LinesSizeMonotone(attrs: Attributes, k: nat)
    requires k <= |attrs|
    ensures LinesSize(attrs[..k]) <= LinesSize(attrs)
    decreases k
  {
    if k > 0 {
      assert attrs[..k][1..] == attrs[1..][..k - 1];
      LinesSizeMonotone(attrs[1..], k - 1);
    }
  }

  method CopyTo(buf: array<char>, at: nat, text: string)
    requires at + |text| <= buf.Length
    modifies buf
    ensures buf[..at + |text|] == old(buf[..at]) + text
  {
    forall i | 0 <= i < |text| { buf[at + i] := text[i]; }
  }

  lemma LineJoins(done: string, name: string, value: string)
    ensures done + name + ": " + value + CRLF == done + (name + ": " + value + CRLF)
  {
  }

  method EncodeLine(buf: array<char>, at: nat, attr: (string, string)) returns (ptr: nat)
    requires Formalizable(attr.0)
    requires at + |Line(attr)| <= buf.Length
    modifies buf
    ensures ptr == at + |Line(attr)|
    ensures buf[..ptr] == old(buf[..at]) + Line(attr)
  {
    ghost var done := buf[..at];
    var name := HeaderKeyFormalize(attr.0);
    CopyTo(buf, at, name);
    ptr := at + |name|;
    ghost var a1 := done + name;
    CopyTo(buf, ptr, ": ");
    ptr := ptr + 2;
    ghost var a2 := a1 + ": ";
    assert buf[..ptr] == a2;
    CopyTo(buf, ptr, attr.1);
    ptr := ptr + |attr.1|;
    ghost var a3 := a2 + attr.1;
    assert buf[..ptr] == a3;
    CopyTo(buf, ptr, CRLF);
    ptr := ptr + 2;
    LineJoins(done, name, attr.1);
  }

  // _encode_header: a first pass computes the size, a second one moves a pointer over the buffer.
  // It fills the buffer exactly.
  method EncodeHeader(msg: Message) returns (buf: array<char>)
    requires forall a :: a in msg.attributes ==> Formalizable(a.0)
    ensures fresh(buf)
    ensures buf[..] == Encode(msg.View())
  {
    var title, attrs := msg.title, msg.attributes;
    var size := HeaderSize(title, attrs);
    buf := new char[size];
    var ptr := EncodeTitle(buf, title);
    ptr := EncodeLines(buf, ptr, attrs);
    ghost var done := buf[..ptr];
    CopyTo(buf, ptr, CRLF);
    assert buf[..] == buf[..ptr + 2] == done + CRLF;
  }

  method EncodeTitle(buf: array<char>, title: string) returns (ptr: nat)
    requires |title| + 2 <= buf.Length
    modifies buf
    ensures ptr == |title| + 2 && buf[..ptr] == title + CRLF
  {
    CopyTo(buf, 0, title);
    assert buf[..|title|] == title;
    CopyTo(buf, |title|, CRLF);
    ptr := |title| + 2;
  }

  method HeaderSize(title: string, attrs: Attributes) returns (size: nat)
    ensures size == |title| + 4 + LinesSize(attrs)
  {
    size := |title| + 4;
    for i := 0 to |attrs|
      invariant size == |title| + 4 + LinesSize(attrs[..i])
    {
      assert attrs[..i + 1] == attrs[..i] + [attrs[i]];
      LinesSnoc(attrs[..i], attrs[i]);
      size := size + |attrs[i].0| + |attrs[i].1| + 4;
    }
    assert attrs[..|attrs|] == attrs;
  }

  lemma OneMoreLine(before: string, attrs: Attributes, i: nat)
    requires i < |attrs|
    ensures before + Lines(attrs[..i + 1]) == before + Lines(attrs[..i]) + Line(attrs[i])
    ensures LinesSize(attrs[..i + 1]) == LinesSize(attrs[..i]) + |Line(attrs[i])|
  {
    assert attrs[..i + 1] == attrs[..i] + [attrs[i]];
    LinesSnoc(attrs[..i], attrs[i]);
  }

  method EncodeLines(buf: array<char>, at: nat, attrs: Attributes) returns (ptr: nat)
    requires forall a :: a in attrs ==> Formalizable(a.0)
    requires at + LinesSize(attrs) <= buf.Length
    modifies buf
    ensures ptr == at + LinesSize(attrs)
    ensures buf[..ptr] == old(buf[..at]) + Lines(attrs)
  {
    ptr := at;
    ghost var before := buf[..at];
    for i := 0 to |attrs|
      invariant ptr == at + LinesSize(attrs[..i])
      invariant ptr <= buf.Length
      invariant buf[..ptr] == before + Lines(attrs[..i])
    {
      assert attrs[i] in attrs;
      OneMoreLine(before, attrs, i);
      LinesSizeMonotone(attrs, i + 1);
      ptr := EncodeLine(buf, ptr, attrs[i]);
    }
    assert attrs[..|attrs|] == attrs;
    LinesSnoc(attrs, ("", ""));
  }

  // ---- reading ----

  datatype Turn = Turn(name: string, value: string, next: nat)

  // One attribute line, read from `offset`: None when no ':' is left.
  function ReadLine(view: string, offset: nat): (r: Option<Turn>)
    requires EndAt(view, |view|) && offset <= |view| - 2 && view[offset] != '\r'
    ensures r.None? <==> Find(view, ':', offset).None?
    ensures r.Some? ==> offset < r.value.next <= |view| - 2
  {
    match Find(view, ':', offset)
    case None => None
    case Some(colon) =>
      assert view[|view| - 4] == '\r';
      var start := FindNot(view, ' ', colon + 1).value;
      var end := Find(view, '\r', start).value;
      Some(Turn(view[offset..colon], view[start..end], end + 2))
  }

  // What a line says, told from its text: the name up to the first ':', the value from behind the blanks
  // that follow, if any, up to the first CR.
  lemma ReadLineIs(view: string, o: nat, colon: nat, start: nat, end: nat)
    requires EndAt(view, |view|) && o <= colon < start <= end <= |view| - 4 && view[o] != '\r'
    requires view[colon] == ':' && forall i :: o <= i < colon ==> view[i] != ':'
    requires view[start] != ' ' && forall i :: colon < i < start ==> view[i] == ' '
    requires view[end] == '\r' && forall i :: start <= i < end ==> view[i] != '\r'
    ensures ReadLine(view, o) == Some(Turn(view[o..colon], view[start..end], end + 2))
  {
    FindIs(view, ':', o, colon);
    FindNotIs(view, ' ', colon + 1, start);
    FindIs(view, '\r', start, end);
  }

  // _decode_header from `offset` on. None stands for an endless loop: with no ':' left, the offset
  // wraps around to the title and the same lines are read again.
  function DecodeFrom(view: string, offset: nat, acc: Attributes): Option<Attributes>
    requires EndAt(view, |view|) && offset <= |view| - 2
    decreases |view| - offset
  {
    if view[offset] == '\r' then Some(acc)
    else
      match ReadLine(view, offset)
      case None => None
      case Some(t) => DecodeFrom(view, t.next, Insert(acc, Lower(t.name), t.value))
  }

  function Decode(view: string): Option<Head>
    requires EndAt(view, |view|)
  {
    assert view[|view| - 4] == '\r';
    var size := Find(view, '\r', 0).value;
    match DecodeFrom(view, size + 2, [])
    case None => None
    case Some(attrs) => Some(Head(view[..size], attrs))
  }

  // One turn of the loop in size_t arithmetic: the offset the next turn starts from.
  function NextOffset(view: string, offset: nat): nat {
    var nameSize := Wrap(Pos(Find(view, ':', offset)) - offset);
    var past := Wrap(offset + nameSize + 1);
    var start := Pos(FindNot(view, ' ', past));
    var valueSize := Wrap(Pos(Find(view, '\r', start)) - start);
    Wrap(start + valueSize + 2)
  }

  // Behind a ':' there is a value, and a CR that ends it.
  lemma ValueIsThere(view: string, from: nat)
    requires EndAt(view, |view|) && from <= |view| - 4
    ensures var start := FindNot(view, ' ', from);
            && start.Some? && start.value <= |view| - 4
            && Find(view, '\r', start.value).Some? && Find(view, '\r', start.value).value <= |view| - 4
  {
    assert view[|view| - 4] == '\r';
  }

  // Without a ':' the turn leads back to the line after the title.
  lemma NoColonReturnsToFirstLine(view: string, offset: nat)
    requires EndAt(view, |view|) && |view| < TWO_63 && offset <= |view| - 2
    requires Find(view, ':', offset).None?
    ensures NextOffset(view, offset) == FirstLine(view)
  {
    ValueIsThere(view, 0);
    var first := Find(view, '\r', 0).value;
    assert Wrap(NPOS - offset) == NPOS - offset;
    assert Wrap(TWO_64) == 0;
    var start := FindNot(view, ' ', 0).value;
    assert start <= first;
    assert Find(view, '\r', start).value == first;
  }

  // A turn with a ':' is the one DecodeFrom takes.
  lemma ColonTurn(view: string, offset: nat)
    requires EndAt(view, |view|) && |view| < TWO_63 && offset <= |view| - 2
    requires view[offset] != '\r' && Find(view, ':', offset).Some?
    ensures NextOffset(view, offset) == ReadLine(view, offset).value.next
  {
    var colon := Find(view, ':', offset).value;
    assert colon + 1 <= |view| - 4;
    ValueIsThere(view, colon + 1);
  }

  // Whether the turns come to an end depends on the text alone, not on the attributes read so far.
  lemma {:induction false} NoneIgnoresAccumulator(view: string, offset: nat, a: Attributes, b: Attributes)
    requires EndAt(view, |view|) && offset <= |view| - 2
    ensures DecodeFrom(view, offset, a).None? <==> DecodeFrom(view, offset, b).None?
    decreases |view| - offset
  {
    if view[offset] != '\r' && ReadLine(view, offset).Some? {
      var t := ReadLine(view, offset).value;
      NoneIgnoresAccumulator(view, t.next, Insert(a, Lower(t.name), t.value), Insert(b, Lower(t.name), t.value));
    }
  }

  // ---- when reading comes to an end ----

  function FirstLine(view: string): nat
    requires EndAt(view, |view|)
    ensures FirstLine(view) <= |view| - 2
  {
    assert view[|view| - 4] == '\r';
    Find(view, '\r', 0).value + 2
  }

  // Where the loop of _decode_header is after k turns from `offset`, in size_t arithmetic.
  function Offsets(view: string, offset: nat, k: nat): nat
    decreases k
  {
    if k == 0 then offset else Offsets(view, NextOffset(view, offset), k - 1)
  }

  // The loop's condition, read inside the view.
  predicate GoesOn(view: string, offset: nat) {
    offset < |view| && view[offset] != '\r'
  }

  // However many turns the loop has made, it makes another one.
  ghost predicate Endless(view: string)
    requires EndAt(view, |view|)
  {
    forall k: nat :: GoesOn(view, Offsets(view, FirstLine(view), k))
  }

  // Where no turn sequence ends, the next turn leads to a place where none does.
  lemma NoneStep(view: string, offset: nat)
    requires EndAt(view, |view|) && |view| < TWO_63 && offset <= |view| - 2
    requires DecodeFrom(view, offset, []).None? && DecodeFrom(view, FirstLine(view), []).None?
    ensures view[offset] != '\r'
    ensures var next := NextOffset(view, offset); next <= |view| - 2 && DecodeFrom(view, next, []).None?
  {
    if Find(view, ':', offset).Some? {
      ColonTurn(view, offset);
      var t := ReadLine(view, offset).value;
      NoneIgnoresAccumulator(view, t.next, Insert([], Lower(t.name), t.value), []);
    } else {
      NoColonReturnsToFirstLine(view, offset);
    }
  }

  // Offsets that lead to one another, none of which stops the loop, keep it going.
  lemma {:induction false} StaysAmong(view: string, stuck: set<nat>, offset: nat, k: nat)
    requires offset in stuck && forall o :: o in stuck ==> GoesOn(view, o) && NextOffset(view, o) in stuck
    ensures GoesOn(view, Offsets(view, offset, k))
    decreases k
  {
    if k > 0 {
      StaysAmong(view, stuck, NextOffset(view, offset), k - 1);
    }
  }

  lemma {:induction false} SomeStops(view: string, offset: nat, acc: Attributes) returns (k: nat)
    requires EndAt(view, |view|) && |view| < TWO_63 && offset <= |view| - 2
    requires DecodeFrom(view, offset, acc).Some?
    ensures !GoesOn(view, Offsets(view, offset, k))
    decreases |view| - offset
  {
    if view[offset] == '\r' {
      k := 0;
    } else {
      ColonTurn(view, offset);
      var t := ReadLine(view, offset).value;
      k := SomeStops(view, t.next, Insert(acc, Lower(t.name), t.value));
      k := k + 1;
    }
  }

  // There is no decoded header exactly if the loop's turns, in the code's own arithmetic, never end.
  lemma NoneIffEndless(view: string)
    requires EndAt(view, |view|) && |view| < TWO_63
    ensures Decode(view).None? <==> Endless(view)
  {
    var first := FirstLine(view);
    if Decode(view).None? {
      var stuck := set o: nat | o <= |view| - 2 && DecodeFrom(view, o, []).None?;
      forall o | o in stuck ensures GoesOn(view, o) && NextOffset(view, o) in stuck { NoneStep(view, o); }
      forall k: nat ensures GoesOn(view, Offsets(view, first, k)) { StaysAmong(view, stuck, first, k); }
    } else {
      var k := SomeStops(view, first, []);
    }
  }

  // Every CR is followed by an LF.
  ghost predicate CrLf(view: string) {
    forall i :: 0 <= i < |view| && view[i] == '\r' ==> i + 1 < |view| && view[i + 1] == '\n'
  }

  // A ':' of the last attribute line.
  predicate LastColon(view: string, c: int) {
    0 <= c < |view| - 4 && view[c] == ':' && forall j :: c < j < |view| - 4 ==> view[j] != '\r'
  }

  // A turn ends at the first CR behind its ':'.
  lemma TurnEnd(view: string, offset: nat)
    requires EndAt(view, |view|) && offset <= |view| - 2 && view[offset] != '\r' && ReadLine(view, offset).Some?
    ensures var colon, end := Find(view, ':', offset).value, ReadLine(view, offset).value.next - 2;
            && colon < end <= |view| - 4 && view[end] == '\r' && forall j :: colon < j < end ==> view[j] != '\r'
  {
    ValueIsThere(view, Find(view, ':', offset).value + 1);
  }

  lemma {:induction false} StopsIffLastColon(view: string, offset: nat, acc: Attributes)
    requires FirstEnd(view) == Some(|view|) && CrLf(view)
    requires 2 <= offset <= |view| - 2 && view[offset - 2] == '\r'
    ensures DecodeFrom(view, offset, acc).Some?
            <==> offset == |view| - 2 || exists c :: offset <= c && LastColon(view, c)
    decreases |view| - offset
  {
    if view[offset] == '\r' {
      assert EndAt(view, offset + 2);
    } else if ReadLine(view, offset).Some? {
      TurnEnd(view, offset);
      var t, colon := ReadLine(view, offset).value, Find(view, ':', offset).value;
      StopsIffLastColon(view, t.next, Insert(acc, Lower(t.name), t.value));
      if t.next == |view| - 2 {
        assert LastColon(view, colon);
      } else if c :| offset <= c && LastColon(view, c) {
        assert view[t.next - 2] == '\r' && view[t.next - 1] == '\n';
        assert t.next <= c;
      }
    }
  }

  // On the text: a header whose lines end in CRLF is decoded exactly if it has no attribute line or its
  // last one has a ':'. Lines without a ':' before that run on into the next name.
  lemma DecodesIffLastColon(view: string)
    requires FirstEnd(view) == Some(|view|) && CrLf(view)
    ensures Decode(view).Some? <==>
            FirstLine(view) == |view| - 2 || exists c :: FirstLine(view) <= c && LastColon(view, c)
  {
    StopsIffLastColon(view, FirstLine(view), []);
  }

  // A header that is never decoded, and one with the same line that is.
  lemma LastLineWithoutColon()
    ensures var view := "T\r\nfoo\r\n\r\n"; FirstEnd(view) == Some(|view|) && Decode(view).None? && Endless(view)
  {
    var view := "T\r\nfoo\r\n\r\n";
    FirstEndIs(view, 10);
    assert Find(view, '\r', 0) == Some(1);
    assert FirstLine(view) == 3;
    assert Free(view, ':');
    assert Find(view, ':', 3).None?;
    NoneIffEndless(view);
  }

  lemma EarlierLineWithoutColon()
    ensures var view := "T\r\nfoo\r\nbar: x\r\n\r\n";
            && FirstEnd(view) == Some(|view|)
            && Decode(view) == Some(Head("T", [("foo\r\nbar", "x")]))
  {
    var view, name := "T\r\nfoo\r\nbar: x\r\n\r\n", "foo\r\nbar";
    LongHeader(view);
    FindIs(view, '\r', 0, 1);
    LongTurn(view);
    assert view[..1] == "T" && Lower(name) == name;
    OnlyTurn(view, 3, Turn(name, "x", 16));
  }

  lemma LongHeader(view: string)
    requires view == "T\r\nfoo\r\nbar: x\r\n\r\n"
    ensures FirstEnd(view) == Some(|view|)
  {
    FirstEndIs(view, 18);
  }

  lemma LongTurn(view: string)
    requires view == "T\r\nfoo\r\nbar: x\r\n\r\n"
    ensures EndAt(view, |view|) && view[3] != '\r' && ReadLine(view, 3) == Some(Turn("foo\r\nbar", "x", 16))
  {
    FindIs(view, ':', 3, 11);
    FindNotIs(view, ' ', 12, 13);
    FindIs(view, '\r', 13, 14);
    assert view[3..11] == "foo\r\nbar" && view[13..14] == "x";
  }

  lemma OnlyTurn(view: string, offset: nat, t: Turn)
    requires EndAt(view, |view|) && offset <= |view| - 2 && view[offset] != '\r' && ReadLine(view, offset) == Some(t)
    requires view[t.next] == '\r'
    ensures DecodeFrom(view, offset, []) == Some([(Lower(t.name), t.value)])
  {
  }

  method DecodeLine(view: string, at: nat, msg: Message) returns (offset: nat)
    requires EndAt(view, |view|) && at <= |view| - 2 && view[at] != '\r'
    requires ReadLine(view, at).Some?
    modifies msg`attributes
    ensures var t := ReadLine(view, at).value;
            offset == t.next && msg.attributes == Insert(old(msg.attributes), Lower(t.name), t.value)
  {
    offset := at;
    var nameSize := Find(view, ':', offset).value - offset;
    var name := view[offset..offset + nameSize];
    offset := offset + nameSize + 1;
    assert view[|view| - 4] == '\r';
    offset := FindNot(view, ' ', offset).value;
    var valueSize := Find(view, '\r', offset).value - offset;
    var value := view[offset..offset + valueSize];
    msg.InsertAttribute(name, value);
    offset := offset + valueSize + 2;
  }

  // _decode_header on the bytes up to the end-of-header mark. null stands for the endless loop: it comes
  // only where the loop's turns never end.
  method DecodeHeader(view: string) returns (msg: Message?)
    requires EndAt(view, |view|)
    ensures msg == null <==> Decode(view).None?
    ensures |view| < TWO_63 ==> (msg == null <==> Endless(view))
    ensures msg != null ==> fresh(msg) && msg.View() == Decode(view).value
  {
    if |view| < TWO_63 {
      NoneIffEndless(view);
    }
    var m := new Message();
    assert view[|view| - 4] == '\r';
    var titleSize := Find(view, '\r', 0).value;
    m.SetTitle(view[..titleSize]);
    var offset := titleSize + 2;
    while view[offset] != '\r'
      invariant offset <= |view| - 2
      invariant m.title == view[..titleSize]
      invariant DecodeFrom(view, offset, m.attributes) == DecodeFrom(view, titleSize + 2, [])
      decreases |view| - offset
    {
      if Find(view, ':', offset).None? {
        return null;
      }
      offset := DecodeLine(view, offset, m);
    }
    msg := m;
  }
}
