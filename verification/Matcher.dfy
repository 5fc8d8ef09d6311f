// The hand-written automaton that looks for the blank line ending a header.
module Matcher {
  import opened Text

  const END_OF_HEADER: string := "\r\n\r\n"

  // One call of header_matcher::match, branch for branch. Status 4 is absorbing.
  function Next(status: nat, c: char): nat {
    if status == 0 then (if c == '\r' then 1 else 0)
    else if status == 1 then (if c == '\n' then 2 else if c == '\r' then 1 else 0)
    else if status == 2 then (if c == '\r' then 3 else 0)
    else if status == 3 then (if c == '\n' then 4 else if c == '\r' then 1 else 0)
    else status
  }

  // The status carried from `status` over all of s.
  function After(status: nat, s: string): nat
    decreases s
  {
    if s == [] then status else After(Next(status, s[0]), s[1..])
  }

  // The last k characters of s are the first k of the end-of-header mark.
  ghost predicate EndsWithPrefix(s: string, k: int) {
    0 <= k <= 4 && k <= |s| && s[|s| - k..] == END_OF_HEADER[..k]
  }

  predicate EndAt(s: string, n: int) {
    4 <= n <= |s| && s[n - 4] == '\r' && s[n - 3] == '\n' && s[n - 2] == '\r' && s[n - 1] == '\n'
  }

  // Where the first header of s ends: the reference definition, which knows nothing of the automaton.
  function FirstEnd(s: string): (r: Option<nat>)
    ensures r.Some? ==> EndAt(s, r.value) && forall n :: n < r.value ==> !EndAt(s, n)
    ensures r.None? ==> forall n :: !EndAt(s, n)
  {
    FirstEndFrom(s, 0)
  }

  function FirstEndFrom(s: string, n: nat): (r: Option<nat>)
    requires forall m :: m < n ==> !EndAt(s, m)
    ensures r.Some? ==> EndAt(s, r.value) && forall m :: m < r.value ==> !EndAt(s, m)
    ensures r.None? ==> forall m :: !EndAt(s, m)
    decreases |s| - n
  {
    if n > |s| then None
    else if EndAt(s, n) then Some(n)
    else FirstEndFrom(s, n + 1)
  }

  lemma FirstEndIs(s: string, n: nat)
    requires EndAt(s, n) && forall m :: m < n ==> !EndAt(s, m)
    ensures FirstEnd(s) == Some(n)
  {
  }

  lemma {:induction false} AfterSplit(status: nat, a: string, b: string)
    ensures After(status, a + b) == After(After(status, a), b)
    decreases a
  {
    if a == [] {
      assert a + b == b;
    } else {
      assert (a + b)[1..] == a[1..] + b;
      AfterSplit(Next(status, a[0]), a[1..], b);
    }
  }

  lemma AfterSnoc(s: string, c: char)
    ensures After(0, s + [c]) == Next(After(0, s), c)
  {
    AfterSplit(0, s, [c]);
    assert After(After(0, s), [c]) == Next(After(0, s), c);
  }

  // The same, character by character.
  predicate Tail(s: string, k: int) {
    && 0 <= k <= 4 && k <= |s|
    && (k >= 1 ==> s[|s| - k] == '\r')
    && (k >= 2 ==> s[|s| - k + 1] == '\n')
    && (k >= 3 ==> s[|s| - k + 2] == '\r')
    && (k >= 4 ==> s[|s| - k + 3] == '\n')
  }

  lemma TailIsPrefix(s: string, k: int)
    ensures EndsWithPrefix(s, k) <==> Tail(s, k)
  {
  }

  lemma {:induction false} StatusIsLongestTail(s: string)
    requires forall n :: n < |s| ==> !EndAt(s, n)
    ensures var st := After(0, s);
            && Tail(s, st) && (st < 1 ==> !Tail(s, 1)) && (st < 2 ==> !Tail(s, 2))
            && (st < 3 ==> !Tail(s, 3)) && (st < 4 ==> !Tail(s, 4))
    decreases |s|
  {
    if s != [] {
      var t, c := s[..|s| - 1], s[|s| - 1];
      assert s == t + [c];
      forall n | n <= |t| ensures !EndAt(t, n) {
        assert EndAt(t, n) ==> EndAt(s, n);
      }
      StatusIsLongestTail(t);
      AfterSnoc(t, c);
      assert !EndAt(t, |t|);
    }
  }

  // As long as no header has ended strictly inside s, the status is the length of the longest
  // prefix of CRLFCRLF that s ends with.
  lemma {:induction false} StatusIsLongestPrefix(s: string)
    requires forall n :: n < |s| ==> !EndAt(s, n)
    ensures EndsWithPrefix(s, After(0, s))
    ensures forall k :: EndsWithPrefix(s, k) ==> k <= After(0, s)
    decreases |s|
  {
    StatusIsLongestTail(s);
    TailIsPrefix(s, After(0, s));
    forall k | EndsWithPrefix(s, k) ensures k <= After(0, s) {
      TailIsPrefix(s, k);
      assert k == 0 || k == 1 || k == 2 || k == 3 || k == 4;
    }
  }

  // Scanning a string accepts exactly when a header ends at its last character, and not before.
  lemma AcceptsAtFirstEnd(s: string)
    requires forall n :: n < |s| ==> !EndAt(s, n)
    ensures After(0, s) == 4 <==> EndAt(s, |s|)
    ensures After(0, s) <= 4
  {
    StatusIsLongestTail(s);
  }

  // What a scan of `more`, resumed in `status`, reports: the index just past the accepting
  // character, or the status to carry on with.
  datatype Scan = Found(n: nat) | Missing(status: nat)

  function ScanFrom(status: nat, more: string, i: nat): (r: Scan)
    requires i <= |more|
    ensures r.Found? ==> i < r.n <= |more|
    decreases |more| - i
  {
    if i == |more| then Missing(status)
    else if Next(status, more[i]) == 4 then Found(i + 1)
    else ScanFrom(Next(status, more[i]), more, i + 1)
  }

  lemma Resplit(seen: string, more: string, k: nat)
    requires k <= |more|
    ensures seen + more == seen + more[..k] + more[k..]
  {
    assert more == more[..k] + more[k..];
  }

  // However the input is split: a scan of `more` that resumes after `seen` finds the first header
  // end of seen + more, or carries the status of seen + more.
  lemma {:induction false} ResumedScan(seen: string, more: string, i: nat)
    requires i <= |more|
    requires FirstEnd(seen + more[..i]).None?
    ensures var r := ScanFrom(After(0, seen + more[..i]), more, i);
            && (r.Found? <==> FirstEnd(seen + more).Some?)
            && (r.Found? ==> FirstEnd(seen + more).value == |seen| + r.n)
            && (r.Missing? ==> r.status == After(0, seen + more))
    decreases |more| - i
  {
    var a := seen + more[..i];
    if i == |more| {
      assert a == seen + more;
    } else {
      var b := seen + more[..i + 1];
      assert b == a + [more[i]];
      AfterSnoc(a, more[i]);
      forall n | n < |b| ensures !EndAt(b, n) {
        assert EndAt(b, n) ==> EndAt(a, n);
      }
      AcceptsAtFirstEnd(b);
      if Next(After(0, a), more[i]) == 4 {
        var all := seen + more;
        Resplit(seen, more, i + 1);
        assert EndAt(all, |b|);
        forall n | n < |b| ensures !EndAt(all, n) {
          assert EndAt(all, n) ==> EndAt(b, n);
        }
        FirstEndIs(all, |b|);
      } else {
        ResumedScan(seen, more, i + 1);
      }
    }
  }

  // header_matcher: a status that each character moves.
  class HeaderMatcher {
    var status: nat

    constructor ()
      ensures status == 0
    {
      status := 0;
    }

    // The copy that a completion handler carries to its next run.
    constructor Copy(st: nat)
      ensures status == st
    {
      status := st;
    }

    method Match(value: char) returns (found: bool)
      modifies this
      ensures status == Next(old(status), value)
      ensures found <==> status == 4
    {
      match status {
        case 0 =>
          if value == '\r' { status := status + 1; }
        case 1 =>
          if value == '\n' { status := status + 1; }
          else if value == '\r' { status := 1; }
          else { status := 0; }
        case 2 =>
          if value == '\r' { status := status + 1; }
          else { status := 0; }
        case 3 =>
          if value == '\n' { status := status + 1; }
          else if value == '\r' { status := 1; }
          else { status := 0; }
        case _ =>
      }
      found := status == 4;
    }
  }
}
