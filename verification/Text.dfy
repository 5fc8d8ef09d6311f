// The pieces of std::string and of size_t arithmetic that the server's text handling relies on.
// One char of this model is one byte of the wire.
module Text {
  datatype Option<+T> = None | Some(value: T)

  const TWO_63: int := 0x8000_0000_0000_0000
  const TWO_64: int := 0x1_0000_0000_0000_0000
  const NPOS: nat := TWO_64 - 1

  // A size_t result: arithmetic modulo 2^64.
  function Wrap(x: int): (r: nat)
    ensures r < TWO_64
    ensures 0 <= x < TWO_64 ==> r == x
  {
    x % TWO_64
  }

  // std::string::find(c, from)
  function Find(s: string, c: char, from: nat): (r: Option<nat>)
    ensures r.Some? ==> from <= r.value < |s| && s[r.value] == c && forall j :: from <= j < r.value ==> s[j] != c
    ensures r.None? ==> forall j :: from <= j < |s| ==> s[j] != c
    decreases |s| - from
  {
    if from >= |s| then None
    else if s[from] == c then Some(from)
    else Find(s, c, from + 1)
  }

  // std::string_view::find_first_not_of(c, from)
  function FindNot(s: string, c: char, from: nat): (r: Option<nat>)
    ensures r.Some? ==> from <= r.value < |s| && s[r.value] != c && forall j :: from <= j < r.value ==> s[j] == c
    ensures r.None? ==> forall j :: from <= j < |s| ==> s[j] == c
    decreases |s| - from
  {
    if from >= |s| then None
    else if s[from] != c then Some(from)
    else FindNot(s, c, from + 1)
  }

  // The value find returns to its caller: npos when there is no match.
  function Pos(r: Option<nat>): nat {
    if r.Some? then r.value else NPOS
  }

  // std::string::substr(pos, n): None stands for the out_of_range exception.
  function Substr(s: string, pos: nat, n: nat): Option<string> {
    if pos > |s| then None
    else if pos + n <= |s| then Some(s[pos..pos + n])
    else Some(s[pos..])
  }

  predicate Free(s: string, c: char) {
    forall i :: 0 <= i < |s| ==> s[i] != c
  }

  lemma FindIs(s: string, c: char, from: nat, at: nat)
    requires from <= at < |s| && s[at] == c && forall j :: from <= j < at ==> s[j] != c
    ensures Find(s, c, from) == Some(at)
  {
  }

  lemma FindNotIs(s: string, c: char, from: nat, at: nat)
    requires from <= at < |s| && s[at] != c && forall j :: from <= j < at ==> s[j] == c
    ensures FindNot(s, c, from) == Some(at)
  {
  }

  lemma SliceOfSlice(all: string, offset: nat, size: nat, done: nat, here: nat)
    requires offset + size <= |all| && done + here <= size
    ensures all[offset..offset + size][done..done + here] == all[offset + done..offset + done + here]
  {
    var u := all[offset..offset + size];
    var v, w := u[done..done + here], all[offset + done..offset + done + here];
    assert |v| == |w| == here;
    forall i | 0 <= i < here ensures v[i] == w[i] {
      assert v[i] == u[done + i];
    }
  }
}
