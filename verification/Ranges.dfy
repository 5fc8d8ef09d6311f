// filesystem_rnode: the byte ranges of a range header, and the part of a file that answers a request.
module Ranges {
  import opened Text
  import opened Messages

  datatype RangeString = RangeString(begin: string, end: string)

  const UNIT: string := "bytes="

  predicate TextAt(s: string, p: string, i: nat) {
    i + |p| <= |s| && s[i..i + |p|] == p
  }

  // std::string::find of a text.
  function FindText(s: string, p: string, from: nat): (r: Option<nat>)
    ensures r.Some? ==> from <= r.value && TextAt(s, p, r.value) && forall i :: from <= i < r.value ==> !TextAt(s, p, i)
    ensures r.None? ==> forall i :: from <= i ==> !TextAt(s, p, i)
    decreases |s| - from
  {
    if from + |p| > |s| then None
    else if TextAt(s, p, from) then Some(from)
    else FindText(s, p, from + 1)
  }

  // One turn of the loop: no range left, the last one, or one with a comma behind it.
  datatype Turn = NoRange | Last(range: RangeString) | More(range: RangeString, comma: nat)

  function RangeAt(s: string, begin: nat): (t: Turn)
    requires begin <= |s|
    ensures t.More? ==> begin < t.comma < |s|
  {
    match Find(s, '-', begin)
    case None => NoRange
    case Some(dash) =>
      if dash + 1 == |s| then Last(RangeString(s[begin..dash], ""))
      else
        match Find(s, ',', dash + 1)
        case None => Last(RangeString(s[begin..dash], s[dash + 1..]))
        case Some(comma) => More(RangeString(s[begin..dash], s[dash + 1..comma]), comma)
  }

  // The ranges from `begin` on. After a ',' the next range starts at the comma itself.
  function RangesFrom(s: string, begin: nat): seq<RangeString>
    requires begin <= |s|
    decreases |s| - begin
  {
    match RangeAt(s, begin)
    case NoRange => []
    case Last(range) => [range]
    case More(range, comma) => [range] + RangesFrom(s, comma)
  }

  function Ranges(s: string): seq<RangeString> {
    match FindText(s, UNIT, 0)
    case None => []
    case Some(i) => RangesFrom(s, i + 6)
  }

  method ExtractRanges(val: string) returns (result: seq<RangeString>)
    ensures result == Ranges(val)
  {
    result := [];
    var unit := FindText(val, UNIT, 0);
    if unit.None? {
      return;
    }
    var begin := unit.value + 6;
    while true
      invariant begin <= |val|
      invariant result + RangesFrom(val, begin) == Ranges(val)
      decreases |val| - begin
    {
      var t := ReadRange(val, begin);
      match t {
        case NoRange =>
          return;
        case Last(range) =>
          result := result + [range];
          return;
        case More(range, comma) =>
          Regroup(result, range, RangesFrom(val, comma));
          result := result + [range];
          begin := comma;
      }
    }
  }

  lemma Regroup(a: seq<RangeString>, r: RangeString, b: seq<RangeString>)
    ensures a + ([r] + b) == a + [r] + b
  {
  }

  method ReadRange(val: string, begin: nat) returns (t: Turn)
    requires begin <= |val|
    ensures t == RangeAt(val, begin)
  {
    var dash := Find(val, '-', begin);
    if dash.None? {
      return NoRange;
    }
    var first := "";
    if begin != dash.value {
      first := val[begin..dash.value];
    }
    assert first == val[begin..dash.value];
    if dash.value + 1 == |val| {
      return Last(RangeString(first, ""));
    }
    var comma := Find(val, ',', dash.value + 1);
    if comma.None? {
      return Last(RangeString(first, val[dash.value + 1..]));
    }
    t := More(RangeString(first, val[dash.value + 1..comma.value]), comma.value);
  }

  // ---- what extraction keeps ----

  function Glue(ranges: seq<RangeString>): string {
    if ranges == [] then "" else ranges[0].begin + "-" + ranges[0].end + Glue(ranges[1..])
  }

  // g is the text of s from `begin` on, up to an end without a dash.
  ghost predicate Covers(s: string, begin: nat, g: string) {
    begin + |g| <= |s| && s[begin..begin + |g|] == g && Find(s, '-', begin + |g|).None?
  }

  // Nothing is lost, doubled or moved: the ranges, glued by their dashes, are the header's text up to
  // an end without a dash.
  lemma {:induction false} RangesConserve(s: string, begin: nat)
    requires begin <= |s|
    ensures Covers(s, begin, Glue(RangesFrom(s, begin)))
    decreases |s| - begin
  {
    var dash := Find(s, '-', begin);
    if dash.Some? {
      var comma := Find(s, ',', dash.value + 1);
      if dash.value + 1 == |s| || comma.None? {
        LastRange(s, begin, dash.value);
      } else {
        RangesConserve(s, comma.value);
        OneMoreRange(s, begin, dash.value, comma.value);
      }
    }
  }

  lemma LastRange(s: string, begin: nat, dash: nat)
    requires begin <= dash < |s| && Find(s, '-', begin) == Some(dash)
    requires dash + 1 == |s| || Find(s, ',', dash + 1).None?
    ensures Covers(s, begin, Glue(RangesFrom(s, begin)))
  {
    GlueOne(RangeString(s[begin..dash], s[dash + 1..]));
    CoversLast(s, begin, dash);
  }

  lemma RangesStep(s: string, begin: nat, dash: nat, comma: nat)
    requires begin <= dash < |s| && Find(s, '-', begin) == Some(dash)
    requires dash + 1 < |s| && comma < |s| && Find(s, ',', dash + 1) == Some(comma)
    ensures RangesFrom(s, begin) == [RangeString(s[begin..dash], s[dash + 1..comma])] + RangesFrom(s, comma)
  {
  }

  lemma OneMoreRange(s: string, begin: nat, dash: nat, comma: nat)
    requires begin <= dash < |s| && Find(s, '-', begin) == Some(dash)
    requires dash + 1 < |s| && comma < |s| && Find(s, ',', dash + 1) == Some(comma)
    requires Covers(s, comma, Glue(RangesFrom(s, comma)))
    ensures Covers(s, begin, Glue(RangesFrom(s, begin)))
  {
    RangesStep(s, begin, dash, comma);
    GlueFirst(RangeString(s[begin..dash], s[dash + 1..comma]), RangesFrom(s, comma));
    CoversMore(s, begin, dash, comma, Glue(RangesFrom(s, comma)));
  }

  lemma GlueFirst(r: RangeString, more: seq<RangeString>)
    ensures Glue([r] + more) == r.begin + "-" + r.end + Glue(more)
  {
    assert ([r] + more)[1..] == more;
  }

  lemma CoversLast(s: string, begin: nat, dash: nat)
    requires begin <= dash < |s| && s[dash] == '-'
    ensures Covers(s, begin, s[begin..dash] + "-" + s[dash + 1..])
  {
    assert s[begin..] == s[begin..dash] + "-" + s[dash + 1..];
    assert s[begin..|s|] == s[begin..];
  }

  lemma CoversMore(s: string, begin: nat, dash: nat, comma: nat, g: string)
    requires begin <= dash < comma <= |s| && s[dash] == '-' && Covers(s, comma, g)
    ensures Covers(s, begin, s[begin..dash] + "-" + s[dash + 1..comma] + g)
  {
    var n := comma + |g|;
    var x, y := s[begin..dash], s[dash + 1..comma];
    SplitAt(s, begin, dash, n);
    SplitAt(s, dash, dash + 1, n);
    SplitAt(s, dash + 1, comma, n);
    assert s[dash..dash + 1] == "-";
    assert x + "-" + y + g == x + ("-" + (y + g));
  }

  lemma SplitAt(s: string, a: nat, b: nat, c: nat)
    requires a <= b <= c <= |s|
    ensures s[a..c] == s[a..b] + s[b..c]
  {
  }

  lemma GlueOne(r: RangeString)
    ensures Glue([r]) == r.begin + "-" + r.end
  {
    assert Glue([r][1..]) == "";
  }

  // The first range of a header is the one its grammar says, whatever other ranges follow.
  lemma FirstRange(a: string, b: string, more: string)
    requires Free(a, '-') && Free(b, ',') && (more == "" || more[0] == ',')
    ensures var rs := Ranges(UNIT + a + "-" + b + more); rs != [] && rs[0] == RangeString(a, b)
    ensures more == "" ==> Ranges(UNIT + a + "-" + b + more) == [RangeString(a, b)]
  {
    var s, dash := UNIT + a + "-" + b + more, 6 + |a|;
    assert s[0..6] == UNIT;
    assert FindText(s, UNIT, 0) == Some(0);
    assert forall j :: 6 <= j < dash ==> s[j] == a[j - 6];
    assert s[dash] == '-' && Find(s, '-', 6) == Some(dash);
    assert s[6..dash] == a;
    assert forall j :: dash + 1 <= j < dash + 1 + |b| ==> s[j] == b[j - dash - 1];
    if more != "" {
      var comma := dash + 1 + |b|;
      assert s[comma] == ',' && Find(s, ',', dash + 1) == Some(comma);
      assert s[dash + 1..comma] == b;
    } else {
      assert s[dash + 1..] == b;
    }
  }

  // ---- the answer ----

  // 200 with the whole file, 206 with the bytes begin..end, 416, or an exception of stoll.
  datatype Answer = Full | Partial(begin: nat, end: nat) | NotSatisfiable | Throws

  // A bound as size_t: None when stoll throws, `absent` when there is no text.
  function Bound(text: string, absent: nat): Option<nat> {
    if text == "" then Some(absent)
    else
      match Stoll(text)
      case None => None
      case Some(v) => Some(Wrap(v))
  }

  function AnswerFor(ranges: seq<RangeString>, size: nat): Answer {
    if ranges == [] then Full
    else
      var begin, end := Bound(ranges[0].begin, 0), Bound(ranges[0].end, Wrap(size - 1));
      if begin.None? then Throws
      else if ranges[0].begin != "" && begin.value >= size then NotSatisfiable
      else if end.None? then Throws
      else if ranges[0].end != "" && end.value >= size then NotSatisfiable
      else if ranges[0].begin != "" && ranges[0].end != "" && begin.value >= end.value then NotSatisfiable
      else Partial(begin.value, end.value)
  }

  // filesystem_content: a mapped file and the range of it to be served.
  class FilesystemContent {
    const file: string
    var rangeBegin: nat
    var rangeEnd: nat

    constructor (file: string)
      ensures this.file == file && rangeBegin == 0 && rangeEnd == Wrap(|file| - 1)
    {
      this.file := file;
      rangeBegin, rangeEnd := 0, Wrap(|file| - 1);
    }

    // The file size while no range is set.
    function GetContentLength(): nat
      reads this
    {
      Wrap(rangeEnd - rangeBegin + 1)
    }

    ghost predicate Serves(data: string)
      reads this
    {
      rangeBegin <= rangeEnd < |file| && data == file[rangeBegin..rangeEnd + 1]
    }
  }

  // What one range of the standard's grammar brings, byte for byte.
  ghost predicate Brings(r: ByteRange, content: FilesystemContent, status: Option<nat>)
    reads content
  {
    var n := |content.file|;
    match r
    case FromTo(first, last) =>
      if first < last < n then status == Some(206) && content.Serves(content.file[first..last + 1])
      else status == Some(416)
    case From(first) =>
      if first < n then status == Some(206) && content.Serves(content.file[first..]) else status == Some(416)
    case Suffix(length) =>
      if length < n then status == Some(206) && content.Serves(content.file[..length + 1]) else status == Some(416)
  }

  // An answer, as status and bytes served.
  ghost predicate Answers(a: Answer, content: FilesystemContent, status: Option<nat>)
    reads content
  {
    match a
    case Full => status == Some(200) && content.Serves(content.file)
    case Partial(begin, end) =>
      status == Some(206) && begin <= end < |content.file| && content.Serves(content.file[begin..end + 1])
    case NotSatisfiable => status == Some(416)
    case Throws => status == None
  }

  // The range branch of _do_get: the status, or None when stoll throws.
  method DoGetRange(val: string, content: FilesystemContent) returns (status: Option<nat>)
    requires content.rangeBegin == 0 && content.rangeEnd == |content.file| - 1 && |content.file| < TWO_63
    modifies content
    ensures Answers(AnswerFor(Ranges(val), |content.file|), content, status)
    ensures forall r :: Small(r) && val == Print(r) ==> Brings(r, content, status)
  {
    PartialIsInside(val, content.file);
    var ranges := ExtractRanges(val);
    if |ranges| == 0 {
      assert content.file[0..|content.file| - 1 + 1] == content.file;
      status := Some(200);
    } else {
      status := SetRange(ranges, content);
    }
    AllBring(val, content, status);
  }

  lemma AllBring(val: string, content: FilesystemContent, status: Option<nat>)
    requires 0 < |content.file| < TWO_63 && Answers(AnswerFor(Ranges(val), |content.file|), content, status)
    ensures forall r :: Small(r) && val == Print(r) ==> Brings(r, content, status)
  {
    forall r | Small(r) && val == Print(r) ensures Brings(r, content, status) {
      ServedIs(r, |content.file|);
      BringsIs(r, content, status);
    }
  }

  lemma BringsIs(r: ByteRange, content: FilesystemContent, status: Option<nat>)
    requires 0 < |content.file| && Answers(Served(r, |content.file|), content, status)
    ensures Brings(r, content, status)
  {
    match r
    case FromTo(_, _) =>
    case From(first) =>
      var n := |content.file|;
      assert first < n ==> content.file[first..n - 1 + 1] == content.file[first..];
    case Suffix(length) =>
  }

  // The front range narrows the content, bound by bound.
  method SetRange(ranges: seq<RangeString>, content: FilesystemContent) returns (status: Option<nat>)
    requires content.rangeBegin == 0 && content.rangeEnd == |content.file| - 1 && |content.file| < TWO_63
    requires ranges != []
    modifies content
    ensures match AnswerFor(ranges, |content.file|)
            case Full => false
            case Partial(begin, end) => status == Some(206) && content.rangeBegin == begin && content.rangeEnd == end
            case NotSatisfiable => status == Some(416)
            case Throws => status == None
  {
    var range, size := ranges[0], content.GetContentLength();
    if range.begin != "" {
      var v := Stoll(range.begin);
      if v.None? { return None; }
      var begin := Wrap(v.value);
      if begin >= size { return Some(416); }
      content.rangeBegin := begin;
    }
    if range.end != "" {
      var v := Stoll(range.end);
      if v.None? { return None; }
      var end := Wrap(v.value);
      if end >= size { return Some(416); }
      content.rangeEnd := end;
    }
    if range.begin != "" && range.end != "" && content.rangeBegin >= content.rangeEnd {
      return Some(416);
    }
    status := Some(206);
  }

  // Every 206 serves a part of the file that is there, whatever the header says.
  lemma PartialIsInside(val: string, file: string)
    requires 0 < |file| < TWO_63
    ensures var a := AnswerFor(Ranges(val), |file|);
            a.Partial? ==> a.begin <= a.end < |file| && |file[a.begin..a.end + 1]| == Wrap(a.end - a.begin + 1)
  {
  }

  // An exception ends the request exactly if stoll finds no number in the first position, or in the last
  // one after a first position inside the file.
  lemma ThrowsIff(a: string, b: string, more: string, size: nat)
    requires Free(a, '-') && Free(b, ',') && (more == "" || more[0] == ',') && 0 < size < TWO_63
    ensures AnswerFor(Ranges(UNIT + a + "-" + b + more), size) == Throws <==>
            || (a != "" && Stoll(a).None?)
            || (b != "" && Stoll(b).None? && (a == "" || 0 <= Stoll(a).value < size))
  {
    FirstRange(a, b, more);
    if a != "" && Stoll(a).Some? {
      NotNegative(a);
    }
  }

  lemma NotNegative(a: string)
    requires Free(a, '-') && Stoll(a).Some?
    ensures 0 <= Stoll(a).value < TWO_63
  {
    SpaceSkipped(a);
  }

  lemma {:induction false} SpaceSkipped(a: string)
    requires Free(a, '-')
    ensures Free(SkipSpace(a), '-')
    decreases |a|
  {
    if a != [] && IsSpace(a[0]) { SpaceSkipped(a[1..]); }
  }

  lemma NoNumberThrows()
    ensures AnswerFor(Ranges("bytes=x-"), 10) == Throws
  {
    ThrowsIff("x", "", "", 10);
    assert UNIT + "x" + "-" + "" + "" == "bytes=x-";
    assert SkipSpace("x") == "x";
  }

  // ---- section 14.1.2 of RFC 9110 ----

  datatype ByteRange = FromTo(first: nat, last: nat) | From(first: nat) | Suffix(length: nat)

  function Print(r: ByteRange): string {
    match r
    case FromTo(first, last) => UNIT + Decimal(first) + "-" + Decimal(last)
    case From(first) => UNIT + Decimal(first) + "-" + ""
    case Suffix(length) => UNIT + "" + "-" + Decimal(length)
  }

  // An invalid range is ignored; a last position past the end means the end; a suffix length counts
  // from the end.
  function Rfc(r: ByteRange, size: nat): Answer
    requires size > 0
  {
    match r
    case FromTo(first, last) =>
      if last < first then Full
      else if first >= size then NotSatisfiable
      else Partial(first, if last < size then last else size - 1)
    case From(first) => if first >= size then NotSatisfiable else Partial(first, size - 1)
    case Suffix(length) =>
      if length == 0 then NotSatisfiable
      else Partial(if length < size then size - length else 0, size - 1)
  }

  predicate Small(r: ByteRange) {
    match r
    case FromTo(first, last) => first < TWO_63 && last < TWO_63
    case From(first) => first < TWO_63
    case Suffix(length) => length < TWO_63
  }

  lemma DecimalIsPlain(n: nat)
    ensures Free(Decimal(n), '-') && Free(Decimal(n), ',')
  {
    var s := Decimal(n);
    assert forall i :: 0 <= i < |s| ==> IsDigit(s[i]);
  }

  lemma BoundOfDecimal(n: nat, absent: nat)
    requires n < TWO_63
    ensures Decimal(n) != "" && Bound(Decimal(n), absent) == Some(n)
  {
    StollOfDecimal(n);
  }

  // What is served for the first range a-b of a header, by the numbers stoll reads from it, if it reads any.
  // Without a first position the last one is counted from the start of the file, not from its end.
  lemma AnswerIs(a: string, b: string, more: string, first: int, last: int, size: nat)
    requires Free(a, '-') && Free(b, ',') && (more == "" || more[0] == ',') && 0 < size < TWO_63
    requires a == "" || Stoll(a) == Some(first)
    requires b == "" || Stoll(b) == Some(last)
    ensures AnswerFor(Ranges("bytes=" + a + "-" + b + more), size) ==
            if a == "" && b == "" then Partial(0, size - 1)
            else if b == "" then (if 0 <= first < size then Partial(first, size - 1) else NotSatisfiable)
            else if a == "" then (if 0 <= last < size then Partial(0, last) else NotSatisfiable)
            else if 0 <= first < last < size then Partial(first, last)
            else NotSatisfiable
  {
    FirstRange(a, b, more);
    if a != "" {
      NotNegative(a);
    }
  }

  // The whole file is served exactly if the header has no unit, or no dash behind it.
  lemma FullIff(val: string, size: nat)
    ensures AnswerFor(Ranges(val), size) == Full <==>
            match FindText(val, "bytes=", 0)
            case None => true
            case Some(i) => Free(val[i + 6..], '-')
  {
    var unit := FindText(val, UNIT, 0);
    if unit.Some? {
      var begin, dash := unit.value + 6, Find(val, '-', unit.value + 6);
      if dash.Some? {
        assert val[begin..][dash.value - begin] == '-';
      } else {
        assert forall j :: 0 <= j < |val[begin..]| ==> val[begin..][j] == val[begin + j];
      }
    }
  }

  // The same for the ranges of the standard's grammar.
  function Served(r: ByteRange, size: nat): Answer
    requires size > 0
  {
    match r
    case FromTo(first, last) => if first < last < size then Partial(first, last) else NotSatisfiable
    case From(first) => if first < size then Partial(first, size - 1) else NotSatisfiable
    case Suffix(length) => if length < size then Partial(0, length) else NotSatisfiable
  }

  lemma ServedIs(r: ByteRange, size: nat)
    requires 0 < size < TWO_63 && Small(r)
    ensures AnswerFor(Ranges(Print(r)), size) == Served(r, size)
  {
    match r
    case FromTo(first, last) =>
      DecimalIsPlain(first);
      DecimalIsPlain(last);
      BoundOfDecimal(first, 0);
      BoundOfDecimal(last, 0);
      AnswerIs(Decimal(first), Decimal(last), "", first, last, size);
      assert Print(r) + "" == Print(r);
    case From(first) =>
      DecimalIsPlain(first);
      BoundOfDecimal(first, 0);
      AnswerIs(Decimal(first), "", "", first, 0, size);
      assert Print(r) + "" == Print(r);
    case Suffix(length) =>
      DecimalIsPlain(length);
      BoundOfDecimal(length, 0);
      AnswerIs("", Decimal(length), "", 0, length, size);
      assert Print(r) + "" == Print(r);
  }

  // The code answers as the standard asks exactly for an open range, and for a closed one that starts
  // past the end or that has two bytes at least and lies inside the file. One byte alone is refused, a
  // range over the end is not cut, and a suffix is taken for a last position.
  lemma AnswersAsRfcIff(r: ByteRange, size: nat)
    requires 0 < size < TWO_63 && Small(r)
    ensures AnswerFor(Ranges(Print(r)), size) == Rfc(r, size) <==>
            match r
            case FromTo(first, last) => first <= last && (first >= size || first < last < size)
            case From(_) => true
            case Suffix(_) => false
  {
    ServedIs(r, size);
  }

  // One of each kind that goes another way: a single byte, a range over the end, a suffix.
  lemma AnswersUnlikeRfc()
    ensures AnswerFor(Ranges(Print(FromTo(0, 0))), 10) == NotSatisfiable && Rfc(FromTo(0, 0), 10) == Partial(0, 0)
    ensures AnswerFor(Ranges(Print(FromTo(0, 99))), 10) == NotSatisfiable && Rfc(FromTo(0, 99), 10) == Partial(0, 9)
    ensures AnswerFor(Ranges(Print(Suffix(3))), 10) == Partial(0, 3) && Rfc(Suffix(3), 10) == Partial(7, 9)
  {
    ServedIs(FromTo(0, 0), 10);
    ServedIs(FromTo(0, 99), 10);
    ServedIs(Suffix(3), 10);
  }
}
