// A message: its title line and its attributes, a multimap kept sorted by lower-cased name in which
// equal names keep their order of insertion.
module Messages {
  import opened Text

  type Attributes = seq<(string, string)>

  // What a header says, as a value.
  datatype Head = Head(title: string, attrs: Attributes)

  const CONTENT_LENGTH: string := "content-length"

  // _to_lower_case on one character. The range starts at 64: '@' becomes '`'.
  function LowerChar(c: char): char {
    if 64 as char <= c <= 90 as char then ((c as int) + 32) as char else c
  }

  function Lower(s: string): (r: string)
    ensures |r| == |s|
    ensures forall i :: 0 <= i < |s| ==> r[i] == LowerChar(s[i])
    ensures forall i :: 0 <= i < |s| ==> r[i] == if '@' <= s[i] <= 'Z' then s[i] + 32 as char else s[i]
  {
    seq(|s|, i requires 0 <= i < |s| => LowerChar(s[i]))
  }

  // std::less<std::string>, negated and swapped: a is not after b.
  predicate NotAfter(a: string, b: string) {
    a == [] || (b != [] && (a[0] < b[0] || (a[0] == b[0] && NotAfter(a[1..], b[1..]))))
  }

  ghost predicate Sorted(attrs: Attributes) {
    forall i, j :: 0 <= i < j < |attrs| ==> NotAfter(attrs[i].0, attrs[j].0)
  }

  // multimap::insert: before the first element whose name is after the new one.
  function Insert(attrs: Attributes, name: string, value: string): Attributes {
    if attrs == [] then [(name, value)]
    else if NotAfter(attrs[0].0, name) then [attrs[0]] + Insert(attrs[1..], name, value)
    else [(name, value)] + attrs
  }

  function InsertAll(attrs: Attributes, more: Attributes): Attributes
    decreases |more|
  {
    if more == [] then attrs
    else InsertAll(Insert(attrs, more[0].0, more[0].1), more[1..])
  }

  // multimap::find: the first element of that name.
  function FindFirst(attrs: Attributes, name: string): Option<string> {
    if attrs == [] then None
    else if attrs[0].0 == name then Some(attrs[0].1)
    else FindFirst(attrs[1..], name)
  }

  // The values stored under one name, in order.
  function Values(attrs: Attributes, name: string): seq<string> {
    if attrs == [] then []
    else (if attrs[0].0 == name then [attrs[0].1] else []) + Values(attrs[1..], name)
  }

  lemma {:induction false} NotAfterTransitive(a: string, b: string, c: string)
    requires NotAfter(a, b) && NotAfter(b, c)
    ensures NotAfter(a, c)
    decreases |a|
  {
    if a != [] && a[0] == b[0] && b[0] == c[0] {
      NotAfterTransitive(a[1..], b[1..], c[1..]);
    }
  }

  lemma {:induction false} NotAfterTotal(a: string, b: string)
    ensures NotAfter(a, b) || NotAfter(b, a)
    ensures NotAfter(a, a)
    ensures NotAfter(a, b) && NotAfter(b, a) ==> a == b
    decreases |a| + |b|
  {
    if a != [] {
      NotAfterTotal(a[1..], if b != [] then b[1..] else []);
      if b != [] && a[1..] == b[1..] && a[0] == b[0] {
        assert a == [a[0]] + a[1..] == b;
      }
    }
  }

  // Insertion keeps the multimap sorted and puts the value behind those of the same name; every
  // other name keeps its values.
  lemma {:induction false} InsertKeeps(attrs: Attributes, name: string, value: string)
    requires Sorted(attrs)
    ensures Sorted(Insert(attrs, name, value))
    ensures forall p :: p in Insert(attrs, name, value) <==> p in attrs || p == (name, value)
    ensures Values(Insert(attrs, name, value), name) == Values(attrs, name) + [value]
    ensures forall n :: n != name ==> Values(Insert(attrs, name, value), n) == Values(attrs, n)
    decreases |attrs|
  {
    var r := Insert(attrs, name, value);
    if attrs != [] {
      if NotAfter(attrs[0].0, name) {
        var tail := attrs[1..];
        assert forall p :: p in attrs <==> p == attrs[0] || p in tail;
        InsertKeeps(tail, name, value);
        var ins := Insert(tail, name, value);
        forall j | 0 <= j < |ins| ensures NotAfter(attrs[0].0, ins[j].0) {
          assert ins[j] in ins;
          if ins[j] in tail {
            var k :| 0 <= k < |tail| && tail[k] == ins[j];
            assert attrs[k + 1] == tail[k];
          }
        }
      } else {
        assert r[1..] == attrs;
        NotAfterTotal(attrs[0].0, name);
        forall j | 0 <= j < |attrs| ensures NotAfter(name, attrs[j].0) {
          if j > 0 { NotAfterTransitive(name, attrs[0].0, attrs[j].0); }
        }
        NoValuesBefore(attrs, name);
      }
    }
  }

  lemma {:induction false} NoValuesBefore(attrs: Attributes, name: string)
    requires forall j :: 0 <= j < |attrs| ==> attrs[j].0 != name
    ensures Values(attrs, name) == []
    decreases |attrs|
  {
    if attrs != [] { NoValuesBefore(attrs[1..], name); }
  }

  // Inserting the elements of a sorted list one by one, at its end, rebuilds it.
  lemma {:induction false} InsertAllSorted(attrs: Attributes, more: Attributes)
    requires Sorted(attrs + more)
    ensures InsertAll(attrs, more) == attrs + more
    decreases |more|
  {
    if more == [] {
      assert attrs + more == attrs;
    } else {
      var all := attrs + more;
      forall i | 0 <= i < |attrs| ensures NotAfter(attrs[i].0, more[0].0) {
        assert all[i] == attrs[i] && all[|attrs|] == more[0];
      }
      InsertLast(attrs, more[0].0, more[0].1);
      assert attrs + [more[0]] + more[1..] == all;
      InsertAllSorted(attrs + [more[0]], more[1..]);
    }
  }

  lemma {:induction false} InsertLast(attrs: Attributes, name: string, value: string)
    requires forall i :: 0 <= i < |attrs| ==> NotAfter(attrs[i].0, name)
    ensures Insert(attrs, name, value) == attrs + [(name, value)]
    decreases |attrs|
  {
    if attrs != [] {
      InsertLast(attrs[1..], name, value);
      assert attrs == [attrs[0]] + attrs[1..];
    }
  }

  // find answers with the earliest inserted value of the name.
  lemma {:induction false} FindFirstIsOldest(attrs: Attributes, name: string)
    ensures FindFirst(attrs, name) == if Values(attrs, name) == [] then None else Some(Values(attrs, name)[0])
    decreases |attrs|
  {
    if attrs != [] && attrs[0].0 != name { FindFirstIsOldest(attrs[1..], name); }
  }

  // ---- std::stoll and std::to_string ----

  predicate IsSpace(c: char) {
    c == ' ' || ('\t' <= c <= '\r')
  }

  predicate IsDigit(c: char) {
    '0' <= c <= '9'
  }

  function SkipSpace(s: string): string {
    if s != [] && IsSpace(s[0]) then SkipSpace(s[1..]) else s
  }

  // The leading digits of s, read after a value of `acc`.
  function Digits(s: string, acc: nat): nat {
    if s != [] && IsDigit(s[0]) then Digits(s[1..], 10 * acc + (s[0] as int - '0' as int)) else acc
  }

  // std::stoll: None stands for invalid_argument and out_of_range.
  function Stoll(s: string): Option<int> {
    var t := SkipSpace(s);
    var negative := t != [] && t[0] == '-';
    var u := if t != [] && (t[0] == '-' || t[0] == '+') then t[1..] else t;
    if u == [] || !IsDigit(u[0]) then None
    else
      var v: int := if negative then 0 - Digits(u, 0) else Digits(u, 0);
      if -TWO_63 <= v < TWO_63 then Some(v) else None
  }

  // std::to_string of an unsigned number.
  function Decimal(n: nat): (s: string)
    ensures s != [] && forall i :: 0 <= i < |s| ==> IsDigit(s[i])
  {
    if n < 10 then [(n + '0' as int) as char]
    else Decimal(n / 10) + [(n % 10 + '0' as int) as char]
  }

  lemma {:induction false} DigitsAppend(s: string, c: char, acc: nat)
    requires forall i :: 0 <= i < |s| ==> IsDigit(s[i])
    requires IsDigit(c)
    ensures Digits(s + [c], acc) == 10 * Digits(s, acc) + (c as int - '0' as int)
    decreases |s|
  {
    if s == [] {
      assert (s + [c])[1..] == [];
    } else {
      assert (s + [c])[1..] == s[1..] + [c];
      DigitsAppend(s[1..], c, 10 * acc + (s[0] as int - '0' as int));
    }
  }

  lemma {:induction false} DigitsOfDecimal(n: nat)
    ensures Digits(Decimal(n), 0) == n
  {
    if n >= 10 {
      DigitsOfDecimal(n / 10);
      DigitsAppend(Decimal(n / 10), (n % 10 + '0' as int) as char, 0);
    } else {
      var s := Decimal(n);
      assert s[1..] == [];
    }
  }

  // stoll reads back what to_string prints.
  lemma StollOfDecimal(n: nat)
    requires n < TWO_63
    ensures Stoll(Decimal(n)) == Some(n)
  {
    DigitsOfDecimal(n);
    assert IsDigit(Decimal(n)[0]);
  }

  // ---- what stoll reads, told without its loop ----

  // The number a row of digits stands for.
  function Number(s: string): nat {
    if s == [] then 0 else 10 * Number(s[..|s| - 1]) + if IsDigit(s[|s| - 1]) then s[|s| - 1] as int - 48 else 0
  }

  lemma {:induction false} DigitsAreNumber(s: string, rest: string)
    requires forall i :: 0 <= i < |s| ==> '0' <= s[i] <= '9'
    requires rest == "" || !('0' <= rest[0] <= '9')
    ensures Digits(s + rest, 0) == Number(s)
    decreases |s|
  {
    DigitsStop(s, rest, 0);
    if s != [] {
      var t, c := s[..|s| - 1], s[|s| - 1];
      assert s == t + [c];
      DigitsAppend(t, c, 0);
      DigitsAreNumber(t, "");
      assert t + "" == t;
    }
  }

  lemma {:induction false} DigitsStop(s: string, rest: string, acc: nat)
    requires forall i :: 0 <= i < |s| ==> IsDigit(s[i])
    requires rest == "" || !IsDigit(rest[0])
    ensures Digits(s + rest, acc) == Digits(s, acc)
    decreases |s|
  {
    if s == [] {
      assert s + rest == rest;
    } else {
      assert (s + rest)[1..] == s[1..] + rest;
      DigitsStop(s[1..], rest, 10 * acc + (s[0] as int - '0' as int));
    }
  }

  lemma {:induction false} SpaceIsSkipped(ws: string, t: string)
    requires forall i :: 0 <= i < |ws| ==> IsSpace(ws[i])
    requires t == "" || !IsSpace(t[0])
    ensures SkipSpace(ws + t) == t
    decreases |ws|
  {
    if ws == [] {
      assert ws + t == t;
    } else {
      assert (ws + t)[1..] == ws[1..] + t;
      SpaceIsSkipped(ws[1..], t);
    }
  }

  // White space, a sign, digits, and whatever follows them: the number, if a long long can hold it.
  lemma {:induction false} StollReads(ws: string, sign: string, digits: string, rest: string)
    requires forall i :: 0 <= i < |ws| ==> ws[i] == ' ' || 9 <= ws[i] as int <= 13
    requires sign == "" || sign == "+" || sign == "-"
    requires digits != "" && forall i :: 0 <= i < |digits| ==> '0' <= digits[i] <= '9'
    requires rest == "" || !('0' <= rest[0] <= '9')
    ensures var v: int := if sign == "-" then 0 - Number(digits) else Number(digits);
            Stoll(ws + (sign + (digits + rest))) == if -TWO_63 <= v < TWO_63 then Some(v) else None
  {
    var u := digits + rest;
    NumeralStarts(sign, digits, rest);
    SpaceIsSkipped(ws, sign + u);
    DigitsAreNumber(digits, rest);
    SignIsRead(ws + (sign + u), sign, u, Number(digits));
  }

  lemma {:induction false} NumeralStarts(sign: string, digits: string, rest: string)
    requires sign == "" || sign == "+" || sign == "-"
    requires digits != "" && '0' <= digits[0] <= '9'
    ensures var u := digits + rest; u != "" && IsDigit(u[0]) && sign + u != "" && !IsSpace((sign + u)[0])
  {
    var u := digits + rest;
    assert u[0] == digits[0];
    assert sign == "" ==> sign + u == u;
    assert sign != "" ==> (sign + u)[0] == sign[0];
  }

  lemma {:induction false} SignIsRead(s: string, sign: string, u: string, n: nat)
    requires SkipSpace(s) == sign + u && u != "" && IsDigit(u[0]) && Digits(u, 0) == n
    requires sign == "" || sign == "+" || sign == "-"
    ensures var v: int := if sign == "-" then 0 - n else n; Stoll(s) == if -TWO_63 <= v < TWO_63 then Some(v) else None
  {
    if sign == "" {
      assert sign + u == u;
    } else {
      assert (sign + u)[0] == sign[0] && (sign + u)[1..] == u;
    }
  }

  // Without a digit there, it throws.
  lemma {:induction false} StollThrows(ws: string, sign: string, rest: string)
    requires forall i :: 0 <= i < |ws| ==> ws[i] == ' ' || 9 <= ws[i] as int <= 13
    requires sign == "" || sign == "+" || sign == "-"
    requires rest == "" || !('0' <= rest[0] <= '9')
    requires sign == "" && rest != "" ==> rest[0] !in " +-" && !(9 <= rest[0] as int <= 13)
    ensures Stoll(ws + (sign + rest)) == None
  {
    var t := sign + rest;
    assert sign == "" ==> t == rest;
    assert sign != "" ==> t[0] == sign[0] && t[1..] == rest;
    SpaceIsSkipped(ws, t);
  }

  // get_content_length: 0 without the attribute, None when stoll throws, else its number as a size_t.
  function LengthField(attrs: Attributes): Option<nat> {
    match FindFirst(attrs, CONTENT_LENGTH)
    case None => Some(0)
    case Some(text) =>
      match Stoll(text)
      case None => None
      case Some(v) => Some(Wrap(v))
  }

  // No content-length is a length of 0; else the oldest one decides.
  lemma LengthIs(attrs: Attributes)
    ensures LengthField(attrs) ==
            var texts := Values(attrs, "content-length");
            if texts == [] then Some(0)
            else if Stoll(texts[0]).None? then None
            else Some(Wrap(Stoll(texts[0]).value))
  {
    FindFirstIsOldest(attrs, CONTENT_LENGTH);
  }

  // What its caller can go on with: no vector is longer than 2^63 - 1, so a number that was negative
  // ends in an exception too.
  function ContentLength(attrs: Attributes): Option<nat> {
    match LengthField(attrs)
    case None => None
    case Some(n) => if n < TWO_63 then Some(n) else None
  }

  // Exactly when a message has no length: its oldest content-length is no number, or a negative one.
  lemma NoLengthIff(attrs: Attributes)
    ensures ContentLength(attrs).None? <==>
            var texts := Values(attrs, CONTENT_LENGTH);
            texts != [] && (Stoll(texts[0]).None? || Stoll(texts[0]).value < 0)
  {
    FindFirstIsOldest(attrs, CONTENT_LENGTH);
  }

  lemma NoLengthInputs()
    ensures ContentLength([(CONTENT_LENGTH, "x")]).None?
    ensures LengthField([(CONTENT_LENGTH, "-1")]) == Some(TWO_64 - 1) && ContentLength([(CONTENT_LENGTH, "-1")]).None?
  {
    assert SkipSpace("x") == "x" && SkipSpace("-1") == "-1";
    assert "-1"[1..] == "1" && "1"[1..] == "";
    assert Digits("1", 0) == Digits("", 1) == 1;
    assert Stoll("-1") == Some(-1);
  }

  predicate KeepAlive(attrs: Attributes) {
    match FindFirst(attrs, "connection")
    case None => false
    case Some(v) => Lower(v) == "keep-alive"
  }

  // A message asks to be kept alive exactly if its oldest connection attribute says so, in any case.
  lemma KeepAliveIff(attrs: Attributes)
    ensures KeepAlive(attrs) <==>
            var texts := Values(attrs, "connection"); texts != [] && Lower(texts[0]) == "keep-alive"
  {
    FindFirstIsOldest(attrs, "connection");
  }

  // The oldest attribute of a name decides: a later content-length or connection changes nothing.
  lemma OldestDecides(attrs: Attributes, name: string, value: string)
    requires Sorted(attrs)
    ensures Values(attrs, CONTENT_LENGTH) != [] || name != CONTENT_LENGTH ==>
              LengthField(Insert(attrs, name, value)) == LengthField(attrs)
    ensures name == CONTENT_LENGTH && Values(attrs, name) == [] ==>
              LengthField(Insert(attrs, name, value))
              == if Stoll(value).Some? then Some(Wrap(Stoll(value).value)) else None
    ensures Values(attrs, "connection") != [] || name != "connection" ==>
              KeepAlive(Insert(attrs, name, value)) == KeepAlive(attrs)
    ensures name == "connection" && Values(attrs, name) == [] ==>
              (KeepAlive(Insert(attrs, name, value)) <==> Lower(value) == "keep-alive")
  {
    LookupAfterInsert(attrs, name, value, CONTENT_LENGTH);
    LookupAfterInsert(attrs, name, value, "connection");
  }

  lemma LookupAfterInsert(attrs: Attributes, name: string, value: string, key: string)
    requires Sorted(attrs)
    ensures FindFirst(Insert(attrs, name, value), key) ==
            if Values(attrs, key) == [] && key == name then Some(value) else FindFirst(attrs, key)
  {
    InsertKeeps(attrs, name, value);
    FindFirstIsOldest(attrs, key);
    FindFirstIsOldest(Insert(attrs, name, value), key);
  }

  class Message {
    var title: string
    var attributes: Attributes

    function View(): Head
      reads this
    {
      Head(title, attributes)
    }

    constructor ()
      ensures View() == Head("", [])
    {
      title, attributes := "", [];
    }

    method SetTitle(t: string)
      modifies this`title
      ensures title == t
    {
      title := t;
    }

    method InsertAttribute(name: string, value: string)
      modifies this`attributes
      ensures attributes == Insert(old(attributes), Lower(name), value)
    {
      var key := ToLowerCase(name);
      attributes := Insert(attributes, key, value);
    }

    method GetContentLength() returns (length: Option<nat>)
      ensures length == LengthField(attributes)
    {
      match FindFirst(attributes, CONTENT_LENGTH) {
        case None => length := Some(0);
        case Some(text) =>
          var v := Stoll(text);
          length := if v.Some? then Some(Wrap(v.value)) else None;
      }
    }
  }

  method ToLowerCase(s: string) returns (result: string)
    ensures result == Lower(s)
  {
    result := s;
    for i := 0 to |result|
      invariant |result| == |s|
      invariant forall j :: 0 <= j < i ==> result[j] == LowerChar(s[j])
      invariant forall j :: i <= j < |s| ==> result[j] == s[j]
    {
      if 64 as char <= result[i] <= 90 as char {
        result := result[i := ((result[i] as int) + 32) as char];
      }
    }
  }
}
