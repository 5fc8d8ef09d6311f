// Decoding what was encoded, and finding where it ends.
module RoundTrip {
  import opened Text
  import opened Messages
  import opened Matcher
  import opened HeaderCodec

  // What the decoder needs of an attribute to find its two ends again.
  ghost predicate ReadableLine(a: (string, string)) {
    && Formalizable(a.0)
    && Formalize(a.0)[0] != '\r' && Free(Formalize(a.0), ':')
    && Free(a.1, '\r') && (a.1 != "" ==> a.1[0] != ' ')
  }

  ghost predicate Readable(h: Head) {
    Free(h.title, '\r') && forall i :: 0 <= i < |h.attrs| ==> ReadableLine(h.attrs[i])
  }

  // What the wire does to the names.
  function Renamed(attrs: Attributes): Attributes {
    if attrs == [] then [] else [(Lower(Formalize(attrs[0].0)), attrs[0].1)] + Renamed(attrs[1..])
  }

  lemma LineShape(a: (string, string))
    ensures var s, n, v := Line(a), |a.0|, |a.1|;
            && |s| == n + v + 4
            && (forall i :: 0 <= i < n ==> s[i] == Formalize(a.0)[i])
            && s[n] == ':' && s[n + 1] == ' '
            && (forall i :: 0 <= i < v ==> s[n + 2 + i] == a.1[i])
            && s[n + 2 + v] == '\r' && s[n + 3 + v] == '\n'
  {
    var head := Formalize(a.0) + ": ";
    assert Line(a) == head + a.1 + CRLF;
  }

  // ---- lines as a peer may send them ----

  // A name, any number of blanks behind its colon, and a value.
  datatype Wire = Wire(name: string, blanks: nat, value: string)

  function Blanks(n: nat): (r: string)
    ensures |r| == n && forall i :: 0 <= i < n ==> r[i] == ' '
  {
    seq(n, _ => ' ')
  }

  function WireLine(w: Wire): string {
    w.name + ":" + Blanks(w.blanks) + w.value + CRLF
  }

  function WireLines(ws: seq<Wire>): string {
    if ws == [] then "" else WireLine(ws[0]) + WireLines(ws[1..])
  }

  function WireHeader(title: string, ws: seq<Wire>): string {
    title + CRLF + WireLines(ws) + CRLF
  }

  // What the decoder needs of a line to find its ends again.
  ghost predicate ReadableWire(w: Wire) {
    && w.name != "" && w.name[0] != '\r' && Free(w.name, ':')
    && Free(w.value, '\r') && (w.value != "" ==> w.value[0] != ' ')
  }

  // What it makes of them.
  function Meant(ws: seq<Wire>): Attributes {
    if ws == [] then [] else [(Lower(ws[0].name), ws[0].value)] + Meant(ws[1..])
  }

  lemma WireShape(w: Wire)
    ensures var s, n, b, v := WireLine(w), |w.name|, |w.name| + 1 + w.blanks, |w.value|;
            && |s| == b + v + 2 && s[..n] == w.name && s[n] == ':'
            && (forall i :: n < i < b ==> s[i] == ' ')
            && s[b..b + v] == w.value && s[b + v] == '\r' && s[b + v + 1] == '\n'
  {
    var head := w.name + ":" + Blanks(w.blanks);
    assert WireLine(w) == head + w.value + CRLF;
  }

  lemma WireAtPlace(view: string, o: nat, w: Wire)
    requires o + |WireLine(w)| <= |view| && view[o..o + |WireLine(w)|] == WireLine(w)
    ensures var n, b, v := o + |w.name|, o + |w.name| + 1 + w.blanks, |w.value|;
            && |WireLine(w)| == b - o + v + 2
            && view[o..n] == w.name && view[n] == ':' && (forall i :: n < i < b ==> view[i] == ' ')
            && view[b..b + v] == w.value && view[b + v] == '\r'
  {
    var s, n, b, v := WireLine(w), |w.name|, |w.name| + 1 + w.blanks, |w.value|;
    WireShape(w);
    CharsAt(view, o, s, 0, n);
    CharsAt(view, o, s, b, b + v);
    assert forall i :: o <= i < o + |s| ==> view[i] == view[o..o + |s|][i - o];
  }

  // A line, anywhere in a buffer, is read as its name and its value, however many blanks are between them.
  lemma WireIsRead(view: string, o: nat, w: Wire)
    requires ReadableWire(w) && EndAt(view, |view|) && o + |WireLine(w)| <= |view| - 2
    requires view[o..o + |WireLine(w)|] == WireLine(w)
    ensures view[o] != '\r' && ReadLine(view, o) == Some(Turn(w.name, w.value, o + |WireLine(w)|))
  {
    var n, b, v := o + |w.name|, o + |w.name| + 1 + w.blanks, |w.value|;
    WireAtPlace(view, o, w);
    assert view[o] == view[o..n][0];
    forall i | o <= i < n ensures view[i] != ':' { assert view[i] == view[o..n][i - o]; }
    forall i | b <= i < b + v ensures view[i] != '\r' { assert view[i] == view[b..b + v][i - b]; }
    if v > 0 { assert view[b] == view[b..b + v][0]; }
    ReadLineIs(view, o, n, b, b + v);
  }

  lemma CharsAt(view: string, o: nat, s: string, i: nat, j: nat)
    requires o + |s| <= |view| && view[o..o + |s|] == s && i <= j <= |s|
    ensures view[o + i..o + j] == s[i..j]
  {
    SliceOfSlice(view, o, |s|, i, j - i);
  }

  lemma {:induction false} WiresAreRead(view: string, o: nat, ws: seq<Wire>, acc: Attributes)
    requires forall i :: 0 <= i < |ws| ==> ReadableWire(ws[i])
    requires EndAt(view, |view|) && o <= |view| && view[o..] == WireLines(ws) + CRLF
    ensures o <= |view| - 2 && DecodeFrom(view, o, acc) == Some(InsertAll(acc, Meant(ws)))
    decreases |ws|
  {
    if ws != [] {
      var w, rest := ws[0], ws[1..];
      assert WireLines(ws) + CRLF == WireLine(w) + (WireLines(rest) + CRLF);
      Peel(view, o, WireLine(w), WireLines(rest) + CRLF);
      WireIsRead(view, o, w);
      WiresAreRead(view, o + |WireLine(w)|, rest, Insert(acc, Lower(w.name), w.value));
      assert Meant(ws)[1..] == Meant(rest);
    } else {
      assert view[o] == view[o..][0];
    }
  }

  lemma Peel(view: string, o: nat, x: string, y: string)
    requires o <= |view| && view[o..] == x + y
    ensures o + |x| + |y| == |view| && view[o..o + |x|] == x && view[o + |x|..] == y
  {
    assert view[o..][..|x|] == x && view[o..][|x|..] == y;
  }

  lemma {:induction false} WireLinesEnd(ws: seq<Wire>)
    ensures var s := WireLines(ws); s == [] || (|s| >= 2 && s[|s| - 2] == '\r' && s[|s| - 1] == '\n')
    decreases |ws|
  {
    if ws != [] {
      WireShape(ws[0]);
      WireLinesEnd(ws[1..]);
    }
  }

  lemma WireHeaderParts(title: string, ws: seq<Wire>)
    requires Free(title, '\r')
    ensures var view, n := WireHeader(title, ws), |title|;
            && EndAt(view, |view|) && n + 2 <= |view| && view[..n] == title && Find(view, '\r', 0) == Some(n)
            && view[n + 2..] == WireLines(ws) + CRLF
  {
    var view, pre := WireHeader(title, ws), title + CRLF;
    WireLinesEnd(ws);
    assert view == pre + WireLines(ws) + CRLF == pre + (WireLines(ws) + CRLF);
    assert view[|title|] == '\r';
    assert forall j :: 0 <= j < |title| ==> view[j] == title[j];
    FindIs(view, '\r', 0, |title|);
    var s := pre + WireLines(ws);
    assert |s| >= 2 && s[|s| - 2] == '\r' && s[|s| - 1] == '\n';
  }

  // Whatever blanks a peer puts behind its colons, none among them, its header is decoded as it was meant:
  // title, lower-cased names, values.
  lemma DecodeOfWire(title: string, ws: seq<Wire>)
    requires Free(title, '\r') && forall i :: 0 <= i < |ws| ==> ReadableWire(ws[i])
    ensures var view := WireHeader(title, ws);
            EndAt(view, |view|) && Decode(view) == Some(Head(title, InsertAll([], Meant(ws))))
  {
    WireHeaderParts(title, ws);
    WiresAreRead(WireHeader(title, ws), |title| + 2, ws, []);
  }

  lemma OneLine(title: string, w: Wire)
    requires Free(title, '\r') && ReadableWire(w)
    ensures var view := title + CRLF + WireLine(w) + CRLF;
            EndAt(view, |view|) && Decode(view) == Some(Head(title, [(Lower(w.name), w.value)]))
  {
    assert [w][1..] == [] && WireLines([w]) == WireLine(w) + "" == WireLine(w);
    var m := [(Lower(w.name), w.value)];
    assert Meant([w]) == m + [] == m && m[1..] == [];
    assert InsertAll([], m) == InsertAll(m, []) == m;
    DecodeOfWire(title, [w]);
  }

  // No blank at all, and two of them.
  lemma BlanksAreSkipped()
    ensures var view := "GET / HTTP/1.1\r\nContent-Length:15\r\n\r\n";
            EndAt(view, |view|) && Decode(view) == Some(Head("GET / HTTP/1.1", [("content-length", "15")]))
    ensures var view := "GET / HTTP/1.1\r\nContent-Length:  15\r\n\r\n";
            EndAt(view, |view|) && Decode(view) == Some(Head("GET / HTTP/1.1", [("content-length", "15")]))
  {
    LowerName();
    NoBlank();
    TwoBlanks();
    OneLine("GET / HTTP/1.1", Wire("Content-Length", 0, "15"));
    OneLine("GET / HTTP/1.1", Wire("Content-Length", 2, "15"));
  }

  lemma LowerName()
    ensures Lower("Content-Length") == "content-length"
  {
  }

  lemma NoBlank()
    ensures "GET / HTTP/1.1" + CRLF + WireLine(Wire("Content-Length", 0, "15")) + CRLF
            == "GET / HTTP/1.1\r\nContent-Length:15\r\n\r\n"
  {
    assert Blanks(0) == "";
  }

  lemma TwoBlanks()
    ensures "GET / HTTP/1.1" + CRLF + WireLine(Wire("Content-Length", 2, "15")) + CRLF
            == "GET / HTTP/1.1\r\nContent-Length:  15\r\n\r\n"
  {
    assert Blanks(2) == "  ";
  }

  // ---- lines as the encoder prints them ----

  function Wired(attrs: Attributes): (ws: seq<Wire>)
    ensures |ws| == |attrs| && forall i :: 0 <= i < |ws| ==> ws[i] == WireOf(attrs[i])
  {
    seq(|attrs|, i requires 0 <= i < |attrs| => WireOf(attrs[i]))
  }

  function WireOf(a: (string, string)): Wire {
    Wire(Formalize(a.0), 1, a.1)
  }

  lemma LineIsWire(a: (string, string))
    ensures WireLine(WireOf(a)) == Line(a)
  {
    assert Blanks(1) == " ";
    assert Formalize(a.0) + ":" + " " == Formalize(a.0) + ": ";
  }

  lemma {:induction false} LinesAreWire(attrs: Attributes)
    ensures WireLines(Wired(attrs)) == Lines(attrs) && Meant(Wired(attrs)) == Renamed(attrs)
    decreases |attrs|
  {
    if attrs != [] {
      LineIsWire(attrs[0]);
      assert Wired(attrs)[1..] == Wired(attrs[1..]);
      LinesAreWire(attrs[1..]);
    }
  }

  lemma EncodeIsWire(h: Head)
    ensures WireHeader(h.title, Wired(h.attrs)) == Encode(h)
  {
    LinesAreWire(h.attrs);
  }

  // One encoded line, anywhere in a buffer, is read back as the one attribute it was made of.
  lemma LineIsRead(view: string, o: nat, a: (string, string))
    requires ReadableLine(a) && EndAt(view, |view|) && o + |Line(a)| <= |view| - 2
    requires view[o..o + |Line(a)|] == Line(a)
    ensures view[o] != '\r' && ReadLine(view, o) == Some(Turn(Formalize(a.0), a.1, o + |Line(a)|))
  {
    LineIsWire(a);
    WireIsRead(view, o, WireOf(a));
  }

  lemma {:induction false} LinesEnd(attrs: Attributes)
    ensures var s := Lines(attrs); s == [] || (|s| >= 2 && s[|s| - 2] == '\r' && s[|s| - 1] == '\n')
    decreases |attrs|
  {
    if attrs != [] {
      LineShape(attrs[0]);
      LinesEnd(attrs[1..]);
    }
  }

  lemma EncodeEnds(h: Head)
    ensures EndAt(Encode(h), |Encode(h)|)
  {
    LinesEnd(h.attrs);
    var s := h.title + CRLF + Lines(h.attrs);
    assert Encode(h) == s + CRLF;
    assert |s| >= 2 && s[|s| - 2] == '\r' && s[|s| - 1] == '\n';
  }

  // Whatever the names, decoding an encoded header restores the title and, under the names the wire
  // made of them, all the attributes.
  lemma DecodeOfEncode(h: Head)
    requires Readable(h)
    ensures EndAt(Encode(h), |Encode(h)|)
    ensures Decode(Encode(h)) == Some(Head(h.title, InsertAll([], Renamed(h.attrs))))
  {
    EncodeIsWire(h);
    LinesAreWire(h.attrs);
    DecodeOfWire(h.title, Wired(h.attrs));
  }

  lemma {:induction false} RenamedIsIdentity(attrs: Attributes)
    requires forall i :: 0 <= i < |attrs| ==> Bytes(attrs[i].0)
    ensures Renamed(attrs) == attrs <==> forall i :: 0 <= i < |attrs| ==> Survives(attrs[i].0)
    decreases |attrs|
  {
    if attrs != [] {
      RenamedIsIdentity(attrs[1..]);
      SurvivesIffRestored(attrs[0].0);
      var r := Renamed(attrs);
      assert r[1..] == Renamed(attrs[1..]);
      assert attrs == [attrs[0]] + attrs[1..];
      assert r == attrs ==> r[0] == attrs[0];
      assert (forall i :: 0 <= i < |attrs| ==> Survives(attrs[i].0)) ==>
          forall i :: 0 <= i < |attrs[1..]| ==> Survives(attrs[1..][i].0);
      if Survives(attrs[0].0) && forall i :: 0 <= i < |attrs[1..]| ==> Survives(attrs[1..][i].0) {
        forall i | 0 <= i < |attrs| ensures Survives(attrs[i].0) {
          if i > 0 { assert attrs[1..][i - 1] == attrs[i]; }
        }
      }
    }
  }

  // The names a message may carry: no ':' and no CR, a letter first and after each '-', no capital
  // and no '@' elsewhere.
  ghost predicate GoodName(name: string) {
    Formalizable(name) && Bytes(name) && Survives(name) && Free(name, ':') && Free(name, '\r')
  }

  ghost predicate GoodValue(value: string) {
    Free(value, '\r') && (value != "" ==> value[0] != ' ')
  }

  ghost predicate Good(h: Head) {
    && Free(h.title, '\r')
    && Sorted(h.attrs)
    && forall i :: 0 <= i < |h.attrs| ==> GoodName(h.attrs[i].0) && GoodValue(h.attrs[i].1)
  }

  lemma CapitalsOfGoodName(name: string)
    requires GoodName(name)
    ensures Free(Formalize(name), '\r') && Free(Formalize(name), ':')
  {
  }

  lemma GoodIsReadable(h: Head)
    requires Good(h)
    ensures Readable(h)
  {
  }

  // The round trip: title, names, values and the order among equal names.
  lemma HeaderRoundTrip(h: Head)
    requires Good(h)
    ensures EndAt(Encode(h), |Encode(h)|)
    ensures Decode(Encode(h)) == Some(h)
  {
    GoodIsReadable(h);
    DecodeOfEncode(h);
    forall i | 0 <= i < |h.attrs| ensures Survives(h.attrs[i].0) && Bytes(h.attrs[i].0) {}
    RenamedIsIdentity(h.attrs);
    assert [] + h.attrs == h.attrs;
    InsertAllSorted([], h.attrs);
  }

  // ---- where an encoded header ends ----

  // No CR of s is followed, two characters later, by another one.
  ghost predicate NoCrCr(s: string) {
    forall i :: 0 <= i < |s| - 2 ==> s[i] == '\r' ==> s[i + 2] != '\r'
  }

  lemma NoCrCrJoin(a: string, b: string)
    requires NoCrCr(a) && NoCrCr(b)
    requires |a| >= 2 && a[|a| - 1] != '\r' && a[|a| - 2] == '\r'
    requires b == [] || b[0] != '\r'
    ensures NoCrCr(a + b)
  {
  }

  lemma {:induction false} LinesNoCrCr(attrs: Attributes)
    requires forall i :: 0 <= i < |attrs| ==> GoodName(attrs[i].0) && GoodValue(attrs[i].1)
    ensures NoCrCr(Lines(attrs)) && (attrs != [] ==> Lines(attrs) != [] && Lines(attrs)[0] != '\r')
    decreases |attrs|
  {
    if attrs != [] {
      var a := attrs[0];
      LineShape(a);
      CapitalsOfGoodName(a.0);
      LinesNoCrCr(attrs[1..]);
      assert forall i :: 0 <= i < |a.0| + 2 + |a.1| ==> Line(a)[i] != '\r' by {
        forall i | 0 <= i < |a.0| + 2 + |a.1| ensures Line(a)[i] != '\r' {
          if i >= |a.0| + 2 {
            assert Line(a)[i] == a.1[i - (|a.0| + 2)];
          }
        }
      }
      NoCrCrJoin(Line(a), Lines(attrs[1..]));
    }
  }

  // An encoded header is self-delimiting: whatever follows, the first end of header is its own.
  lemma EncodeSelfDelimiting(h: Head, post: string)
    requires Good(h)
    ensures FirstEnd(Encode(h) + post) == Some(|Encode(h)|)
  {
    var e := Encode(h);
    var all := e + post;
    var top := h.title + CRLF;
    LinesNoCrCr(h.attrs);
    assert NoCrCr(top + Lines(h.attrs)) by {
      assert forall i :: 0 <= i < |h.title| ==> top[i] == h.title[i] != '\r';
      NoCrCrJoin(top, Lines(h.attrs));
    }
    EncodeEnds(h);
    var body := top + Lines(h.attrs);
    assert e == body + CRLF;
    forall n | n < |e| ensures !EndAt(all, n) {
    }
    assert EndAt(all, |e|);
    FirstEndIs(all, |e|);
  }
}
