// request: the request line, taken apart with size_t offsets.
module RequestLine {
  import opened Text

  datatype Method = OPTIONS | GET | HEAD | POST | PUT | DELETE | TRACE | CONNECT | UNKNOWN

  datatype Line = Line(met: Method, url: string, query: string, version: string)

  function MethodParse(s: string): Method {
    if s == "OPTIONS" then OPTIONS
    else if s == "GET" then GET
    else if s == "HEAD" then HEAD
    else if s == "POST" then POST
    else if s == "PUT" then PUT
    else if s == "DELETE" then DELETE
    else if s == "TRACE" then TRACE
    else if s == "CONNECT" then CONNECT
    else UNKNOWN
  }

  // UNKNOWN has CONNECT's text.
  function MethodToString(m: Method): string {
    match m
    case OPTIONS => "OPTIONS"
    case GET => "GET"
    case HEAD => "HEAD"
    case POST => "POST"
    case PUT => "PUT"
    case DELETE => "DELETE"
    case TRACE => "TRACE"
    case CONNECT => "CONNECT"
    case UNKNOWN => "CONNECT"
  }

  lemma MethodRoundTrip(m: Method)
    ensures MethodParse(MethodToString(m)) == m <==> m != UNKNOWN
    ensures Free(MethodToString(m), ' ') && Free(MethodToString(m), '?')
  {
  }

  // Each method has its own text, and every other text is an unknown one.
  lemma MethodIs(s: string)
    ensures MethodParse(s) ==
            if s == "OPTIONS" then OPTIONS else if s == "GET" then GET else if s == "HEAD" then HEAD
            else if s == "POST" then POST else if s == "PUT" then PUT else if s == "DELETE" then DELETE
            else if s == "TRACE" then TRACE else if s == "CONNECT" then CONNECT else UNKNOWN
    ensures MethodParse(s) == UNKNOWN <==>
            s !in ["OPTIONS", "GET", "HEAD", "POST", "PUT", "DELETE", "TRACE", "CONNECT"]
  {
  }

  // A field that ends at the next c, and where the field after it starts.
  datatype Field = Field(text: string, next: nat)

  // The field that starts at an offset, whose end is looked for; None stands for the exception of substr.
  function Cut(t: string, c: char, offset: nat): Option<Field> {
    var size := Wrap(Pos(Find(t, c, offset)) - offset);
    match Substr(t, offset, size)
    case None => None
    case Some(text) => Some(Field(text, Wrap(offset + size + 1)))
  }

  // Without a c, the field is the whole rest and the next field starts at the beginning again.
  lemma CutIs(t: string, c: char, offset: nat)
    requires offset <= |t| < TWO_63
    ensures Cut(t, c, offset) ==
            match Find(t, c, offset)
            case None => Some(Field(t[offset..], 0))
            case Some(k) => Some(Field(t[offset..k], k + 1))
  {
    assert Wrap(TWO_64) == 0;
  }

  // _extract_title; the query string keeps its value when there is none. None: substr throws.
  function Parse(t: string, query: string): Option<Line> {
    match Cut(t, ' ', 0)
    case None => None
    case Some(m) =>
      if Find(t, '?', 0).Some? then
        match Cut(t, '?', m.next)
        case None => None
        case Some(u) =>
          match Cut(t, ' ', u.next)
          case None => None
          case Some(q) => WithVersion(t, q.next, MethodParse(m.text), u.text, q.text)
      else
        match Cut(t, ' ', m.next)
        case None => None
        case Some(u) => WithVersion(t, u.next, MethodParse(m.text), u.text, query)
  }

  function WithVersion(t: string, offset: nat, met: Method, url: string, query: string): Option<Line> {
    match Cut(t, '\r', offset)
    case None => None
    case Some(v) => Some(Line(met, url, query, v.text))
  }

  lemma CutFits(t: string, c: char, offset: nat)
    requires offset <= |t| < TWO_63
    ensures Cut(t, c, offset).Some? && Cut(t, c, offset).value.next <= |t|
  {
    CutIs(t, c, offset);
  }

  // Whatever the title, the offsets stay inside it: no substr throws.
  lemma ParseNeverThrows(t: string, query: string)
    requires |t| < TWO_63
    ensures Parse(t, query).Some?
  {
    CutFits(t, ' ', 0);
    var m := Cut(t, ' ', 0).value;
    CutFits(t, '?', m.next);
    CutFits(t, ' ', m.next);
    CutFits(t, ' ', Cut(t, '?', m.next).value.next);
    CutFits(t, '\r', Cut(t, ' ', m.next).value.next);
    CutFits(t, '\r', Cut(t, ' ', Cut(t, '?', m.next).value.next).value.next);
  }

  // ---- every title, taken apart ----

  // A text up to the first c, or all of it.
  function UpTo(s: string, c: char): string {
    match Find(s, c, 0)
    case None => s
    case Some(k) => s[..k]
  }

  // A field that holds no c, followed by one.
  lemma CutField(a: string, field: string, c: char, b: string)
    requires Free(field, c) && |a + field + [c] + b| < TWO_63
    ensures var t := a + field + [c] + b; Cut(t, c, |a|) == Some(Field(field, |a| + |field| + 1))
  {
    var t, k := a + field + [c] + b, |a| + |field|;
    assert forall j :: |a| <= j < k ==> t[j] == field[j - |a|];
    FindIs(t, c, |a|, k);
    CutIs(t, c, |a|);
    assert t[|a|..k] == field;
  }

  // One without a c behind it: all of the rest, and the next field starts at the beginning again.
  lemma CutRest(a: string, field: string, c: char)
    requires Free(field, c) && |a + field| < TWO_63
    ensures Cut(a + field, c, |a|) == Some(Field(field, 0))
  {
    var t := a + field;
    assert forall j :: |a| <= j < |t| ==> t[j] == field[j - |a|];
    CutIs(t, c, |a|);
    assert t[|a|..] == field;
  }

  lemma CutUpTo(a: string, v: string)
    requires |a + v| < TWO_63
    ensures var r := Cut(a + v, '\r', |a|); r.Some? && r.value.text == UpTo(v, '\r')
  {
    match Find(v, '\r', 0)
    case None => CutRest(a, v, '\r');
    case Some(k) =>
      assert a + v == a + v[..k] + ['\r'] + v[k + 1..];
      CutField(a, v[..k], '\r', v[k + 1..]);
  }

  lemma HasMark(t: string, i: nat)
    requires i < |t| && t[i] == '?'
    ensures Find(t, '?', 0).Some?
  {
  }

  lemma NoMark(t: string)
    requires Free(t, '?')
    ensures Find(t, '?', 0).None?
  {
  }

  lemma CutFirst(m: string, b: string)
    requires Free(m, ' ') && |m + " " + b| < TWO_63
    ensures Cut(m + " " + b, ' ', 0) == Some(Field(m, |m| + 1))
  {
    assert "" + m == m;
    CutField("", m, ' ', b);
  }

  // The same from the start of a title on.
  lemma CutAll(t: string, c: char)
    requires Free(t, c) && |t| < TWO_63
    ensures Cut(t, c, 0) == Some(Field(t, 0))
  {
    assert "" + t == t;
    CutRest("", t, c);
  }

  lemma CutAllUpTo(t: string)
    requires |t| < TWO_63
    ensures Cut(t, '\r', 0).Some? && Cut(t, '\r', 0).value.text == UpTo(t, '\r')
  {
    assert "" + t == t;
    CutUpTo("", t);
  }

  lemma CutMark(u: string, s: string)
    requires Free(u, '?') && |u + "?" + s| < TWO_63
    ensures Find(u + "?" + s, '?', 0).Some? && Cut(u + "?" + s, '?', 0) == Some(Field(u, |u| + 1))
  {
    HasMark(u + "?" + s, |u|);
    assert "" + u == u;
    CutField("", u, '?', s);
  }

  lemma Regroup(p: string, x: string, y: string, z: string)
    ensures p + x + y + z == p + (x + y + z)
  {
  }

  // The fields of a title make its line.
  lemma QueryParsed(t: string, m: Field, u: Field, s: Field, v: Field, query: string)
    requires Find(t, '?', 0).Some? && Cut(t, ' ', 0) == Some(m) && Cut(t, '?', m.next) == Some(u)
    requires Cut(t, ' ', u.next) == Some(s) && Cut(t, '\r', s.next) == Some(v)
    ensures Parse(t, query) == Some(Line(MethodParse(m.text), u.text, s.text, v.text))
  {
  }

  lemma PlainParsed(t: string, m: Field, u: Field, v: Field, query: string)
    requires Find(t, '?', 0).None? && Cut(t, ' ', 0) == Some(m) && Cut(t, ' ', m.next) == Some(u)
    requires Cut(t, '\r', u.next) == Some(v)
    ensures Parse(t, query) == Some(Line(MethodParse(m.text), u.text, query, v.text))
  {
  }

  // Method, url, version.
  lemma PlainTitle(m: string, u: string, v: string, query: string)
    requires Free(m, ' ') && Free(u, ' ') && Free(m + u + v, '?') && |m + " " + u + " " + v| < TWO_63
    ensures Parse(m + " " + u + " " + v, query) == Some(Line(MethodParse(m), u, query, UpTo(v, '\r')))
  {
    ThreeFree(m, u, v);
    NoMark(m + " " + u + " " + v);
    Regroup(m + " ", u, " ", v);
    CutFirst(m, u + " " + v);
    CutField(m + " ", u, ' ', v);
    CutUpTo(m + " " + u + " ", v);
    var t, n := m + " " + u + " " + v, |m| + |u| + 2;
    PlainParsed(t, Field(m, |m| + 1), Field(u, n), Cut(t, '\r', n).value, query);
  }

  lemma ThreeFree(m: string, u: string, v: string)
    requires Free(m + u + v, '?')
    ensures Free(m, '?') && Free(u, '?') && Free(v, '?')
    ensures Free(m + " " + u + " " + v, '?')
  {
    var w := m + u + v;
    assert forall i :: 0 <= i < |m| ==> m[i] == w[i];
    assert forall i :: 0 <= i < |u| ==> u[i] == w[|m| + i];
    assert forall i :: 0 <= i < |v| ==> v[i] == w[|m| + |u| + i];
  }

  // A title with a query, up to it.
  lemma QueryFollows(m: string, u: string, rest: string)
    requires Free(m, ' ') && Free(u, '?') && |m + " " + u + "?" + rest| < TWO_63
    ensures var t := m + " " + u + "?" + rest;
            && Find(t, '?', 0).Some?
            && Cut(t, ' ', 0) == Some(Field(m, |m| + 1))
            && Cut(t, '?', |m| + 1) == Some(Field(u, |m| + |u| + 2))
  {
    HasMark(m + " " + u + "?" + rest, |m| + 1 + |u|);
    Regroup(m + " ", u, "?", rest);
    CutFirst(m, u + "?" + rest);
    CutField(m + " ", u, '?', rest);
  }

  // Method, url, query, version.
  lemma QueryTitle(m: string, u: string, s: string, v: string, query: string)
    requires Free(m, ' ') && Free(u, '?') && Free(s, ' ') && |m + " " + u + "?" + s + " " + v| < TWO_63
    ensures Parse(m + " " + u + "?" + s + " " + v, query) == Some(Line(MethodParse(m), u, s, UpTo(v, '\r')))
  {
    var p := m + " " + u + "?";
    Regroup(p, s, " ", v);
    QueryFollows(m, u, s + " " + v);
    CutField(p, s, ' ', v);
    CutUpTo(p + s + " ", v);
    var f := Field(s, |p| + |s| + 1);
    QueryParsed(p + s + " " + v, Field(m, |m| + 1), Field(u, |p|), f, Cut(p + s + " " + v, '\r', f.next).value, query);
  }

  // Without a version all of the title is taken for one.
  lemma NoVersion(m: string, u: string, query: string)
    requires Free(m, ' ') && Free(u, ' ') && Free(m + u, '?') && |m + " " + u| < TWO_63
    ensures Parse(m + " " + u, query) == Some(Line(MethodParse(m), u, query, UpTo(m + " " + u, '\r')))
  {
    var t := m + " " + u;
    ThreeFree(m, u, "");
    NoMark(t);
    assert t == "" + m + [' '] + u;
    CutField("", m, ' ', u);
    CutRest(m + " ", u, ' ');
    assert "" + t == t;
    CutUpTo("", t);
  }

  lemma NoVersionBehindQuery(m: string, u: string, s: string, query: string)
    requires Free(m, ' ') && Free(u, '?') && Free(s, ' ') && |m + " " + u + "?" + s| < TWO_63
    ensures Parse(m + " " + u + "?" + s, query)
            == Some(Line(MethodParse(m), u, s, UpTo(m + " " + u + "?" + s, '\r')))
  {
    var p := m + " " + u + "?";
    QueryFollows(m, u, s);
    CutRest(p, s, ' ');
    CutAllUpTo(p + s);
    QueryParsed(p + s, Field(m, |m| + 1), Field(u, |p|), Field(s, 0), Cut(p + s, '\r', 0).value, query);
  }

  // A title that is one word is taken for its method, its url and its version at once ...
  lemma OneWordIsEverything(t: string, query: string)
    requires |t| < TWO_63 && Free(t, ' ') && Free(t, '?')
    ensures Parse(t, query) == Some(Line(MethodParse(t), t, query, UpTo(t, '\r')))
  {
    NoMark(t);
    CutAll(t, ' ');
    CutAllUpTo(t);
    PlainParsed(t, Field(t, 0), Field(t, 0), Cut(t, '\r', 0).value, query);
  }

  // ... also with a '?' in it ...
  lemma OneWordWithQuery(u: string, s: string, query: string)
    requires Free(u, '?') && Free(u, ' ') && Free(s, ' ') && |u + "?" + s| < TWO_63
    ensures Parse(u + "?" + s, query)
            == Some(Line(MethodParse(u + "?" + s), u, s, UpTo(u + "?" + s, '\r')))
  {
    var p := u + "?";
    CutMark(u, s);
    CutAll(p + s, ' ');
    CutRest(p, s, ' ');
    CutAllUpTo(p + s);
    QueryParsed(p + s, Field(p + s, 0), Field(u, |p|), Field(s, 0), Cut(p + s, '\r', 0).value, query);
  }

  // ... and one with its only '?' in the method has that for its query, and all the rest for its url.
  lemma MarkInMethod(m: string, r: string, i: nat, query: string)
    requires Free(m, ' ') && i < |m| && m[i] == '?' && Free(r, '?') && |m + " " + r| < TWO_63
    ensures Parse(m + " " + r, query) == Some(Line(MethodParse(m), r, m, UpTo(r, '\r')))
  {
    var t := m + " " + r;
    HasMark(t, i);
    assert t == "" + m + [' '] + r;
    CutField("", m, ' ', r);
    CutRest(m + " ", r, '?');
    CutUpTo(m + " ", r);
  }

  // ---- the grammar of section 3 of RFC 9112 ----

  // method SP request-target SP HTTP-version
  function Print(l: Line): string {
    MethodToString(l.met) + " " + Target(l) + " " + l.version
  }

  function Target(l: Line): string {
    l.url + (if l.query == "" then "" else "?" + l.query)
  }

  // The lines that come back as they were.
  predicate Recoverable(l: Line) {
    && l.met != UNKNOWN && Free(l.url, '?') && Free(l.version, '\r')
    && if l.query == "" then Free(l.url, ' ') && Free(l.version, '?') else Free(l.query, ' ')
  }

  // One that holds a c comes back shorter.
  lemma CutShort(a: string, field: string, c: char, b: string)
    requires !Free(field, c) && |a + field + b| < TWO_63
    ensures var r := Cut(a + field + b, c, |a|); r.Some? && |r.value.text| < |field|
  {
    var t := a + field + b;
    var i :| 0 <= i < |field| && field[i] == c;
    assert t[|a| + i] == c;
    CutIs(t, c, |a|);
  }

  // So a field comes back as it was exactly if it holds no c.
  lemma FieldIs(a: string, field: string, c: char, b: string)
    requires |a + field + [c] + b| < TWO_63
    ensures var r := Cut(a + field + [c] + b, c, |a|);
            && r.Some? && (r.value.text == field <==> Free(field, c))
            && (r.value.text == field ==> r.value.next == |a| + |field| + 1)
  {
    if Free(field, c) {
      CutField(a, field, c, b);
    } else {
      CutShort(a, field, c, [c] + b);
      assert a + field + [c] + b == a + field + ([c] + b);
    }
  }

  // The version is the rest, up to a CR.
  lemma CutVersion(a: string, version: string)
    requires |a + version| < TWO_63
    ensures var r := Cut(a + version, '\r', |a|); r.Some? && (r.value.text == version <==> Free(version, '\r'))
  {
    var t := a + version;
    CutIs(t, '\r', |a|);
    if Free(version, '\r') {
      assert forall j :: |a| <= j < |t| ==> t[j] == version[j - |a|];
      assert t[|a|..] == version;
    } else {
      CutShort(a, version, '\r', "");
      assert a + version + "" == t;
    }
  }

  // Parsing a printed line gives the line back exactly if it is recoverable.
  lemma RequestLineRoundTrip(l: Line)
    requires |Print(l)| < TWO_63
    ensures Parse(Print(l), "") == Some(l) <==> Recoverable(l)
  {
    ParseNeverThrows(Print(l), "");
    MethodRoundTrip(l.met);
    MethodField(l);
    if l.query == "" {
      PlainLine(l);
    } else {
      QueryLine(l);
    }
  }

  // Two that do not come back: an empty query ...
  lemma EmptyQueryIsDropped(t: string)
    requires t == "GET /a? HTTP/1.1"
    ensures Parse(t, "") == Some(Line(GET, "/a", "", "HTTP/1.1"))
  {
    var m, u, s, v := "GET", "/a", "", "HTTP/1.1";
    assert t == m + " " + u + "?" + s + " " + v;
    NoCr(v);
    QueryTitle(m, u, s, v, "");
  }

  // ... and a method without a name of its own.
  lemma UnknownIsConnect(t: string)
    requires t == MethodToString(UNKNOWN) + " /a HTTP/1.1"
    ensures Parse(t, "") == Some(Line(CONNECT, "/a", "", "HTTP/1.1"))
  {
    var m, u, v := "CONNECT", "/a", "HTTP/1.1";
    assert t == m + " " + u + " " + v;
    NoCr(v);
    PlainTitle(m, u, v, "");
  }

  lemma NoCr(v: string)
    requires Free(v, '\r')
    ensures UpTo(v, '\r') == v
  {
  }

  function AfterMethod(l: Line): string {
    MethodToString(l.met) + " "
  }

  function UrlEnd(l: Line): nat {
    |AfterMethod(l)| + |l.url| + 1
  }

  lemma MethodField(l: Line)
    requires |Print(l)| < TWO_63
    ensures Cut(Print(l), ' ', 0) == Some(Field(MethodToString(l.met), |AfterMethod(l)|))
  {
    MethodRoundTrip(l.met);
    var name, rest := MethodToString(l.met), Target(l) + " " + l.version;
    CutField("", name, ' ', rest);
    assert "" + name + [' '] + rest == Print(l);
  }

  lemma QuestionMarks(l: Line)
    ensures l.query != "" ==> Find(Print(l), '?', 0).Some?
    ensures l.query == "" ==> (Find(Print(l), '?', 0).Some? <==> !Free(l.url, '?') || !Free(l.version, '?'))
  {
    MethodRoundTrip(l.met);
    var t, a, u := Print(l), AfterMethod(l), Target(l);
    assert forall j :: 0 <= j < |a| ==> t[j] == a[j];
    assert forall j :: 0 <= j < |u| ==> t[|a| + j] == u[j];
    assert forall j :: 0 <= j < |l.version| ==> t[|a| + |u| + 1 + j] == l.version[j];
    if l.query != "" {
      assert u[|l.url|] == '?';
    } else {
      assert u == l.url;
    }
  }

  // The fields decide.
  lemma PlainFields(l: Line, t: string, m: Field, c: char, u: Field)
    requires |t| < TWO_63 && l.query == "" && Cut(t, ' ', 0) == Some(m)
    requires c == (if Find(t, '?', 0).Some? then '?' else ' ') && Cut(t, c, m.next) == Some(u)
    requires Find(t, '?', 0).Some? <==> !Free(l.url, '?') || !Free(l.version, '?')
    requires MethodParse(m.text) == l.met <==> l.met != UNKNOWN
    requires u.text == l.url <==> Free(l.url, ' ') && Free(l.url, '?') && Free(l.version, '?')
    requires var v := Cut(t, '\r', u.next);
             u.text == l.url ==> v.Some? && (v.value.text == l.version <==> Free(l.version, '\r'))
    ensures Parse(t, "") == Some(l) <==> Recoverable(l)
  {
  }

  lemma QueryFields(l: Line, t: string, m: Field, u: Field, q: Field)
    requires |t| < TWO_63 && l.query != "" && Find(t, '?', 0).Some?
    requires Cut(t, ' ', 0) == Some(m) && Cut(t, '?', m.next) == Some(u) && Cut(t, ' ', u.next) == Some(q)
    requires MethodParse(m.text) == l.met <==> l.met != UNKNOWN
    requires u.text == l.url <==> Free(l.url, '?')
    requires u.text == l.url ==> (q.text == l.query <==> Free(l.query, ' '))
    requires var v := Cut(t, '\r', q.next);
             u.text == l.url && q.text == l.query ==> v.Some? && (v.value.text == l.version <==> Free(l.version, '\r'))
    ensures Parse(t, "") == Some(l) <==> Recoverable(l)
  {
  }

  // What is cut is `field` exactly if that holds no c, and then the next one starts at `next`.
  predicate Comes(r: Option<Field>, field: string, c: char, next: nat) {
    r.Some? && (r.value.text == field <==> Free(field, c)) && (r.value.text == field ==> r.value.next == next)
  }

  lemma PlainLine(l: Line)
    requires |Print(l)| < TWO_63 && l.query == ""
    requires Cut(Print(l), ' ', 0) == Some(Field(MethodToString(l.met), |AfterMethod(l)|))
    requires MethodParse(MethodToString(l.met)) == l.met <==> l.met != UNKNOWN
    ensures Parse(Print(l), "") == Some(l) <==> Recoverable(l)
  {
    QuestionMarks(l);
    PlainUrl(l);
    PlainVersion(l);
    var t, c := Print(l), if Find(Print(l), '?', 0).Some? then '?' else ' ';
    var m := Cut(t, ' ', 0).value;
    PlainFields(l, t, m, c, Cut(t, c, m.next).value);
  }

  lemma PlainUrl(l: Line)
    requires |Print(l)| < TWO_63 && l.query == ""
    ensures var r := Cut(Print(l), if Free(l.url, '?') && Free(l.version, '?') then ' ' else '?', |AfterMethod(l)|);
            && r.Some? && (r.value.text == l.url <==> Free(l.url, ' ') && Free(l.url, '?') && Free(l.version, '?'))
            && (r.value.text == l.url ==> r.value.next == UrlEnd(l))
  {
    var a := AfterMethod(l);
    assert Target(l) == l.url;
    assert Print(l) == a + l.url + [' '] + l.version == a + l.url + ([' '] + l.version);
    if !Free(l.url, '?') {
      CutShort(a, l.url, '?', [' '] + l.version);
    } else if !Free(l.version, '?') {
      LongTarget(a, l.url, l.version);
    } else if !Free(l.url, ' ') {
      CutShort(a, l.url, ' ', [' '] + l.version);
    } else {
      CutField(a, l.url, ' ', l.version);
    }
  }

  lemma PlainVersion(l: Line)
    requires |Print(l)| < TWO_63 && l.query == ""
    ensures var r := Cut(Print(l), '\r', UrlEnd(l));
            r.Some? && (r.value.text == l.version <==> Free(l.version, '\r'))
  {
    var b := AfterMethod(l) + l.url + [' '];
    assert Target(l) == l.url;
    assert Print(l) == b + l.version;
    CutVersion(b, l.version);
  }

  // A '?' in the version alone draws everything before it into the url.
  lemma LongTarget(a: string, url: string, version: string)
    requires Free(url, '?') && !Free(version, '?') && |a + url + [' '] + version| < TWO_63
    ensures var r := Cut(a + url + [' '] + version, '?', |a|); r.Some? && |r.value.text| > |url|
  {
    var t := a + url + [' '] + version;
    var i :| 0 <= i < |version| && version[i] == '?';
    assert t[|a| + |url| + 1 + i] == '?';
    assert forall j :: |a| <= j < |a| + |url| ==> t[j] == url[j - |a|];
    assert t[|a| + |url|] == ' ';
    CutIs(t, '?', |a|);
  }

  lemma QueryLine(l: Line)
    requires |Print(l)| < TWO_63 && l.query != ""
    requires Cut(Print(l), ' ', 0) == Some(Field(MethodToString(l.met), |AfterMethod(l)|))
    requires MethodParse(MethodToString(l.met)) == l.met <==> l.met != UNKNOWN
    ensures Parse(Print(l), "") == Some(l) <==> Recoverable(l)
  {
    QuestionMarks(l);
    var u := UrlField(l);
    var q := QueryField(l, u);
    VersionField(l, u, q);
    QueryFields(l, Print(l), Field(MethodToString(l.met), |AfterMethod(l)|), u, q);
  }

  lemma UrlField(l: Line) returns (u: Field)
    requires |Print(l)| < TWO_63 && l.query != ""
    ensures Cut(Print(l), '?', |AfterMethod(l)|) == Some(u) && u.next <= |Print(l)|
    ensures Comes(Some(u), l.url, '?', |AfterMethod(l)| + |l.url| + 1)
  {
    QueryUrl(l);
    CutFits(Print(l), '?', |AfterMethod(l)|);
    u := Cut(Print(l), '?', |AfterMethod(l)|).value;
  }

  lemma QueryField(l: Line, u: Field) returns (q: Field)
    requires |Print(l)| < TWO_63 && l.query != "" && u.next <= |Print(l)|
    requires Comes(Some(u), l.url, '?', |AfterMethod(l)| + |l.url| + 1)
    ensures Cut(Print(l), ' ', u.next) == Some(q) && q.next <= |Print(l)|
    ensures u.text == l.url ==> Comes(Some(q), l.query, ' ', |AfterMethod(l)| + |l.url| + |l.query| + 2)
  {
    QueryString(l);
    CutFits(Print(l), ' ', u.next);
    q := Cut(Print(l), ' ', u.next).value;
  }

  lemma VersionField(l: Line, u: Field, q: Field)
    requires |Print(l)| < TWO_63 && l.query != "" && q.next <= |Print(l)|
    requires u.text == l.url ==> Comes(Some(q), l.query, ' ', |AfterMethod(l)| + |l.url| + |l.query| + 2)
    ensures var v := Cut(Print(l), '\r', q.next);
            u.text == l.url && q.text == l.query ==> v.Some? && (v.value.text == l.version <==> Free(l.version, '\r'))
  {
    QueryVersion(l);
  }

  lemma QueryUrl(l: Line)
    requires |Print(l)| < TWO_63 && l.query != ""
    ensures Comes(Cut(Print(l), '?', |AfterMethod(l)|), l.url, '?', |AfterMethod(l)| + |l.url| + 1)
  {
    var a, rest := AfterMethod(l), l.query + " " + l.version;
    PrintWithQuery(l);
    assert Print(l) == a + l.url + ['?'] + rest;
    FieldIs(a, l.url, '?', rest);
  }

  lemma QueryString(l: Line)
    requires |Print(l)| < TWO_63 && l.query != ""
    ensures Comes(Cut(Print(l), ' ', |AfterMethod(l)| + |l.url| + 1), l.query, ' ',
                  |AfterMethod(l)| + |l.url| + |l.query| + 2)
  {
    var b := AfterMethod(l) + l.url + ['?'];
    PrintWithQuery(l);
    FieldIs(b, l.query, ' ', l.version);
  }

  lemma QueryVersion(l: Line)
    requires |Print(l)| < TWO_63 && l.query != ""
    ensures var v := Cut(Print(l), '\r', |AfterMethod(l)| + |l.url| + |l.query| + 2);
            v.Some? && (v.value.text == l.version <==> Free(l.version, '\r'))
  {
    PrintWithQuery(l);
    CutVersion(AfterMethod(l) + l.url + ['?'] + l.query + [' '], l.version);
  }

  lemma PrintWithQuery(l: Line)
    requires l.query != ""
    ensures Print(l) == AfterMethod(l) + l.url + ['?'] + l.query + [' '] + l.version
  {
    var t := AfterMethod(l) + l.url + ['?'] + l.query;
    assert Target(l) == l.url + ("?" + l.query);
    assert AfterMethod(l) + Target(l) == t;
  }

  class Request {
    var title: string
    var met: Method
    var url: string
    var queryString: string
    var version: string

    constructor (title: string)
      ensures this.title == title && queryString == ""
    {
      this.title, met, url, queryString, version := title, UNKNOWN, "", "", "";
    }

    // Takes the title apart, field after field; false when a substr throws.
    method ExtractTitle() returns (ok: bool)
      modifies `met, `url, `queryString, `version
      ensures ok <==> Parse(title, old(queryString)).Some?
      ensures ok ==> Parse(title, old(queryString)) == Some(Line(met, url, queryString, version))
    {
      var f := Cut(title, ' ', 0);
      if f.None? { return false; }
      met := MethodParse(f.value.text);
      if Find(title, '?', 0).Some? {
        f := Cut(title, '?', f.value.next);
        if f.None? { return false; }
        url := f.value.text;
        f := Cut(title, ' ', f.value.next);
        if f.None? { return false; }
        queryString := f.value.text;
      } else {
        f := Cut(title, ' ', f.value.next);
        if f.None? { return false; }
        url := f.value.text;
      }
      f := Cut(title, '\r', f.value.next);
      if f.None? { return false; }
      version := f.value.text;
      ok := true;
    }
  }
}
