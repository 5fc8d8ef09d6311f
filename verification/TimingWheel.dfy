// The timing wheel: 120 circular doubly linked lists behind sentinels, rotated once a second.
module TimingWheels {
  const SLOTS: nat := 120

  // What the wheel is for: each token set and not yet released, and the tick that will fire it.
  datatype Wheel<T> = Wheel(now: nat, due: map<T, nat>)

  ghost predicate Ahead<T>(w: Wheel<T>) {
    forall t :: t in w.due ==> w.now < w.due[t] <= w.now + SLOTS
  }

  function Armed<T>(w: Wheel<T>, t: T): Wheel<T> {
    w.(due := w.due[t := w.now + SLOTS])
  }

  function Disarmed<T>(w: Wheel<T>, t: T): Wheel<T> {
    w.(due := w.due - {t})
  }

  function Firing<T>(w: Wheel<T>): set<T> {
    set t | t in w.due && w.due[t] == w.now + 1
  }

  function Ticked<T>(w: Wheel<T>): Wheel<T> {
    Wheel(w.now + 1, w.due - Firing(w))
  }

  // ---- over runs ----

  datatype Event<T> = Arm(t: T) | Disarm(t: T) | Tick

  function After<T>(w: Wheel<T>, e: Event<T>): Wheel<T> {
    match e
    case Arm(t) => Armed(w, t)
    case Disarm(t) => Disarmed(w, t)
    case Tick => Ticked(w)
  }

  function Ticks<T>(events: seq<Event<T>>): nat {
    if events == [] then 0 else (if events[0].Tick? then 1 else 0) + Ticks(events[1..])
  }

  // The ticks at which t fires in a run.
  function Firings<T>(w: Wheel<T>, events: seq<Event<T>>, t: T): seq<nat>
    decreases |events|
  {
    if events == [] then []
    else (if events[0].Tick? && t in Firing(w) then [w.now + 1] else []) + Firings(After(w, events[0]), events[1..], t)
  }

  ghost predicate Untouched<T>(events: seq<Event<T>>, t: T) {
    forall e :: e in events ==> e != Arm(t) && e != Disarm(t)
  }

  // A token that is set fires when its tick comes, and only then.
  lemma {:induction false} FiresWhenDue<T>(w: Wheel<T>, events: seq<Event<T>>, t: T)
    requires Ahead(w) && t in w.due && Untouched(events, t)
    ensures Firings(w, events, t) == if w.now + Ticks(events) >= w.due[t] then [w.due[t]] else []
    decreases |events|
  {
    if events != [] {
      assert events[0] in events;
      assert Untouched(events[1..], t) by {
        forall e | e in events[1..] ensures e in events {}
      }
      if events[0].Tick? && t in Firing(w) {
        NotSetNotFired(Ticked(w), events[1..], t);
      } else {
        FiresWhenDue(After(w, events[0]), events[1..], t);
      }
    }
  }

  lemma {:induction false} NotSetNotFired<T>(w: Wheel<T>, events: seq<Event<T>>, t: T)
    requires t !in w.due && forall e :: e in events ==> e != Arm(t)
    ensures Firings(w, events, t) == []
    decreases |events|
  {
    if events != [] {
      assert events[0] in events;
      forall e | e in events[1..] ensures e in events {}
      NotSetNotFired(After(w, events[0]), events[1..], t);
    }
  }

  // A handler set and left alone fires exactly once, on exactly the 120th following tick; a cancelled
  // one never.
  lemma FiresOnTick120<T>(w: Wheel<T>, events: seq<Event<T>>, t: T)
    requires Ahead(w) && Untouched(events, t)
    ensures Firings(Armed(w, t), events, t) == if Ticks(events) >= 120 then [w.now + 120] else []
    ensures Firings(Disarmed(w, t), events, t) == []
  {
    FiresWhenDue(Armed(w, t), events, t);
    NotSetNotFired(Disarmed(w, t), events, t);
  }

  // ---- the linked lists ----

  // timeout_handler_list: a sentinel or a token. The handler is named by the session it belongs to.
  class Node {
    var previous: Node
    var next: Node
    const handler: nat

    constructor (handler: nat)
      ensures previous == this && next == this && this.handler == handler
    {
      previous, next := this, this;
      this.handler := handler;
    }
  }

  ghost predicate Ring(r: seq<Node>)
    reads r
  {
    && r != []
    && (forall k :: 0 <= k < |r| - 1 ==> r[k].next == r[k + 1] && r[k + 1].previous == r[k])
    && r[|r| - 1].next == r[0] && r[0].previous == r[|r| - 1]
    && Distinct(r)
  }

  // List i, sentinel first, holds nodes that tick now + i + 1 will reach.
  ghost predicate ListAt(slots: seq<Node>, rings: seq<seq<Node>>, home: map<Node, nat>, now: nat, i: int) {
    && 0 <= i < |slots| == |rings|
    && rings[i] != [] && rings[i][0] == slots[i] && Distinct(rings[i])
    && forall n :: n in rings[i] ==> n in home && home[n] == now + i + 1
  }

  // Each node is in the list its tick will reach.
  ghost predicate NodeAt(rings: seq<seq<Node>>, home: map<Node, nat>, now: nat, n: Node) {
    n in home && now < home[n] <= now + |rings| && n in rings[home[n] - now - 1]
  }

  // So the lists are pairwise disjoint.
  ghost predicate Layout(slots: seq<Node>, rings: seq<seq<Node>>, home: map<Node, nat>, now: nat) {
    && |slots| == |rings| == SLOTS
    && (forall i :: 0 <= i < SLOTS ==> ListAt(slots, rings, home, now, i))
    && (forall n :: n in home ==> NodeAt(rings, home, now, n))
  }

  // A list with a token linked in behind the sentinel, and with its k-th node cut out.
  ghost function Linked(r: seq<Node>, token: Node): seq<Node>
    requires r != []
  {
    [r[0], token] + r[1..]
  }

  ghost function Cut(r: seq<Node>, k: nat): seq<Node>
    requires k < |r|
  {
    r[..k] + r[k + 1..]
  }

  ghost predicate Distinct(r: seq<Node>) {
    forall j, k :: 0 <= j < k < |r| ==> r[j] != r[k]
  }

  ghost function Tokens(slots: seq<Node>, home: map<Node, nat>): map<Node, nat> {
    map n | n in home && n !in slots :: home[n]
  }

  // A node of list i that is a sentinel is its first.
  lemma SentinelIsFirst(slots: seq<Node>, rings: seq<seq<Node>>, home: map<Node, nat>, now: nat, i: nat, n: Node)
    requires Layout(slots, rings, home, now) && i < SLOTS && n in rings[i]
    ensures n in slots <==> n == slots[i]
  {
    assert ListAt(slots, rings, home, now, i);
    if n in slots {
      var j :| 0 <= j < SLOTS && slots[j] == n;
      assert ListAt(slots, rings, home, now, j);
      assert rings[j][0] in rings[j];
    }
  }

  lemma SetLayout(slots: seq<Node>, rings: seq<seq<Node>>, home: map<Node, nat>, now: nat, token: Node)
    requires Layout(slots, rings, home, now) && token !in home
    ensures var last := rings[SLOTS - 1];
            last != [] && Layout(slots, rings[SLOTS - 1 := Linked(last, token)], home[token := now + SLOTS], now)
    ensures Wheel(now, Tokens(slots, home[token := now + SLOTS])) == Armed(Wheel(now, Tokens(slots, home)), token)
  {
    var last := rings[SLOTS - 1];
    assert ListAt(slots, rings, home, now, SLOTS - 1);
    var more := Linked(last, token);
    assert last == [last[0]] + last[1..];
    assert forall n :: n in more <==> n in last || n == token;
    var rings', home' := rings[SLOTS - 1 := more], home[token := now + SLOTS];
    forall i | 0 <= i < SLOTS ensures ListAt(slots, rings', home', now, i) && slots[i] != token {
      assert ListAt(slots, rings, home, now, i);
      assert rings[i][0] in rings[i];
    }
    forall n | n in home' ensures NodeAt(rings', home', now, n) {
      if n != token { assert NodeAt(rings, home, now, n); }
    }
  }

  lemma CancelLayout(slots: seq<Node>, rings: seq<seq<Node>>, home: map<Node, nat>, now: nat, i: nat, k: nat)
    requires Layout(slots, rings, home, now) && i < SLOTS && 0 < k < |rings[i]|
    ensures var token := rings[i][k];
            && Layout(slots, rings[i := Cut(rings[i], k)], home - {token}, now)
            && Wheel(now, Tokens(slots, home - {token})) == Disarmed(Wheel(now, Tokens(slots, home)), token)
  {
    var r, token := rings[i], rings[i][k];
    assert ListAt(slots, rings, home, now, i);
    var less := Cut(r, k);
    CutOut(r, k);
    var rings', home' := rings[i := less], home - {token};
    forall j | 0 <= j < SLOTS ensures ListAt(slots, rings', home', now, j) {
      assert ListAt(slots, rings, home, now, j);
    }
    forall n | n in home' ensures NodeAt(rings', home', now, n) {
      assert NodeAt(rings, home, now, n);
    }
  }

  lemma CutOut(r: seq<Node>, k: nat)
    requires Distinct(r) && 0 < k < |r|
    ensures var less := Cut(r, k);
            less != [] && less[0] == r[0] && Distinct(less) && (forall n :: n in less <==> n in r && n != r[k])
  {
  }

  // What a tick leaves of the map of nodes.
  ghost function Left(home: map<Node, nat>, now: nat, last: Node): map<Node, nat> {
    (map n | n in home && home[n] != now + 1 :: home[n])[last := now + 1 + SLOTS]
  }

  lemma TickLayout(slots: seq<Node>, rings: seq<seq<Node>>, home: map<Node, nat>, now: nat, last: Node)
    requires Layout(slots, rings, home, now) && last !in home
    ensures Layout(slots[1..] + [last], rings[1..] + [[last]], Left(home, now, last), now + 1)
  {
    var left, heads, lists := Left(home, now, last), slots[1..] + [last], rings[1..] + [[last]];
    var later := now + 1;
    forall i | 0 <= i < SLOTS ensures ListAt(heads, lists, left, later, i) {
      if i < SLOTS - 1 {
        assert ListAt(slots, rings, home, now, i + 1);
        assert lists[i] == rings[i + 1] && heads[i] == slots[i + 1];
      }
    }
    forall n | n in left ensures NodeAt(lists, left, now + 1, n) {
      if n != last {
        assert NodeAt(rings, home, now, n);
        assert lists[left[n] - (now + 1) - 1] == rings[home[n] - now - 1];
      }
    }
  }

  lemma TickTokens(slots: seq<Node>, rings: seq<seq<Node>>, home: map<Node, nat>, now: nat, last: Node)
    requires Layout(slots, rings, home, now) && last !in home
    ensures Wheel(now + 1, Tokens(slots[1..] + [last], Left(home, now, last)))
            == Ticked(Wheel(now, Tokens(slots, home)))
  {
    var heads, left := slots[1..] + [last], Left(home, now, last);
    var a, b := Tokens(heads, left), Ticked(Wheel(now, Tokens(slots, home))).due;
    forall n ensures n in a <==> n in b {
      if n in home && home[n] != now + 1 {
        assert NodeAt(rings, home, now, n);
        SentinelIsFirst(slots, rings, home, now, home[n] - now - 1, n);
        assert slots == [slots[0]] + slots[1..];
        assert n in slots && n != last ==> heads[home[n] - now - 2] == n;
      }
      assert last in heads;
    }
  }

  // Exactly the nodes behind the sentinel of the front list fire.
  lemma FrontFires(slots: seq<Node>, rings: seq<seq<Node>>, home: map<Node, nat>, now: nat)
    requires Layout(slots, rings, home, now)
    ensures rings[0] != [] && forall n :: n in rings[0][1..] <==> n in Firing(Wheel(now, Tokens(slots, home)))
  {
    var r := rings[0];
    assert ListAt(slots, rings, home, now, 0);
    assert r == [r[0]] + r[1..];
    forall n ensures n in r[1..] <==> n in Firing(Wheel(now, Tokens(slots, home))) {
      if n in r {
        SentinelIsFirst(slots, rings, home, now, 0, n);
      } else if n in home {
        assert NodeAt(rings, home, now, n);
      }
    }
  }

  ghost predicate Rings(rings: seq<seq<Node>>, all: set<Node>)
    reads all
  {
    forall i :: 0 <= i < |rings| ==> Within(rings[i], all) && Ring(rings[i])
  }

  ghost predicate Within(r: seq<Node>, all: set<Node>) {
    forall n :: n in r ==> n in all
  }

  ghost predicate Apart(rings: seq<seq<Node>>, which: nat)
    requires which < |rings|
  {
    forall i :: 0 <= i < |rings| && i != which ==> Separate(rings[i], rings[which])
  }

  ghost predicate Separate(r: seq<Node>, other: seq<Node>) {
    forall k :: 0 <= k < |r| ==> r[k] !in other
  }

  // Links token in behind the sentinel of one list; the other lists stay as they are.
  method LinkAfter(head: Node, token: Node, ghost rings: seq<seq<Node>>, ghost which: nat, ghost all: set<Node>)
    requires Rings(rings, all) && which < |rings| && Apart(rings, which)
    requires rings[which] != [] && head == rings[which][0] && token !in all
    modifies all, token
    ensures Rings(rings[which := Linked(rings[which], token)], all + {token})
  {
    ghost var ring := rings[which];
    assert Within(ring, all) && Ring(ring);
    assert head.next == ring[if |ring| == 1 then 0 else 1] && head.next in ring && head in ring;
    token.previous, token.next := head, head.next;
    head.next := token;
    token.next.previous := token;
    ghost var more := Linked(ring, token);
    assert Ring(more);
    assert Within(more, all + {token});
    forall i | 0 <= i < |rings| && i != which ensures Within(rings[i], all + {token}) && Ring(rings[i]) {
      assert Separate(rings[i], ring) && Within(rings[i], all) && old(Ring(rings[i]));
      assert forall k :: 0 <= k < |rings[i]| ==> rings[i][k] in rings[i];
    }
  }

  // Links one token out of its list; the other lists stay as they are.
  method Unlink(token: Node, ghost rings: seq<seq<Node>>, ghost which: nat, ghost k: nat, ghost all: set<Node>)
    requires Rings(rings, all) && which < |rings| && Apart(rings, which)
    requires 0 < k < |rings[which]| && token == rings[which][k]
    modifies all
    ensures Rings(rings[which := Cut(rings[which], k)], all - {token})
  {
    ghost var ring := rings[which];
    assert Within(ring, all) && Ring(ring);
    assert token.previous == ring[k - 1] && token.previous in ring;
    assert token.next == ring[if k + 1 == |ring| then 0 else k + 1] && token.next in ring && token in ring;
    token.previous.next := token.next;
    token.next.previous := token.previous;
    ghost var less := Cut(ring, k);
    assert Ring(less);
    assert Within(less, all - {token});
    forall i | 0 <= i < |rings| && i != which ensures Within(rings[i], all - {token}) && Ring(rings[i]) {
      assert Separate(rings[i], ring) && Within(rings[i], all) && old(Ring(rings[i]));
      assert forall j :: 0 <= j < |rings[i]| ==> rings[i][j] in rings[i];
      assert forall n :: n in rings[i] ==> n != token;
    }
  }

  class TimingWheel {
    var slots: seq<Node>
    ghost var rings: seq<seq<Node>>       // each list, sentinel first
    ghost var home: map<Node, nat>        // the tick that will reach the list of each node
    ghost var now: nat

    ghost predicate Valid()
      reads this, home.Keys
    {
      && Layout(slots, rings, home, now)
      && Rings(rings, home.Keys)
    }

    ghost function View(): Wheel<Node>
      reads this
    {
      Wheel(now, Tokens(slots, home))
    }

    constructor ()
      ensures Valid() && fresh(home.Keys) && View() == Wheel(0, map[])
    {
      slots, rings, home, now := [], [], map[], 0;
      new;
      for i := 0 to SLOTS
        invariant |slots| == |rings| == i && now == 0 && fresh(home.Keys)
        invariant forall j :: 0 <= j < i ==> rings[j] == [slots[j]] && slots[j] in home && home[slots[j]] == j + 1
        invariant forall j :: 0 <= j < i ==> slots[j].next == slots[j] && slots[j].previous == slots[j]
        invariant forall n :: n in home ==> 0 < home[n] <= i && n == slots[home[n] - 1]
      {
        var head := new Node(0);
        slots := slots + [head];
        rings := rings + [[head]];
        home := home[head := i + 1];
      }
    }

    lemma ListsApart(which: nat)
      requires Layout(slots, rings, home, now) && which < SLOTS
      ensures Apart(rings, which)
    {
      assert ListAt(slots, rings, home, now, which);
      forall i | 0 <= i < |rings| && i != which ensures Separate(rings[i], rings[which]) {
        assert ListAt(slots, rings, home, now, i);
        assert forall k :: 0 <= k < |rings[i]| ==> rings[i][k] in rings[i];
      }
    }

    // The lists as they are now linked are the lists of the wheel.
    method Adopt(slots': seq<Node>, ghost rings': seq<seq<Node>>, ghost home': map<Node, nat>, ghost now': nat)
      requires Layout(slots', rings', home', now') && Rings(rings', home'.Keys)
      modifies this
      ensures Valid() && home == home' && View() == Wheel(now', Tokens(slots', home'))
    {
      slots, rings, home, now := slots', rings', home', now';
    }

    method Set(handler: nat) returns (token: Node)
      requires Valid()
      modifies this, home.Keys
      ensures Valid() && fresh(token) && token.handler == handler
      ensures home.Keys == old(home.Keys) + {token} && forall n :: n in home ==> n in old(home) || fresh(n)
      ensures View() == Armed(old(View()), token) && token !in old(View()).due
    {
      token := new Node(handler);
      Insert(token);
    }

    // Behind the sentinel of the last list.
    method Insert(token: Node)
      requires Valid() && token !in home
      modifies this, home.Keys, token
      ensures Valid() && home.Keys == old(home.Keys) + {token}
      ensures View() == Armed(old(View()), token) && token !in old(View()).due
    {
      ghost var last := SLOTS - 1;
      assert ListAt(slots, rings, home, now, last);
      ListsApart(last);
      LinkAfter(slots[SLOTS - 1], token, rings, last, home.Keys);
      SetLayout(slots, rings, home, now, token);
      ghost var home' := home[token := now + SLOTS];
      assert home'.Keys == home.Keys + {token};
      Adopt(slots, rings[last := Linked(rings[last], token)], home', now);
    }

    method Cancel(token: Node)
      requires Valid() && token in View().due
      modifies this, home.Keys
      ensures Valid() && home.Keys == old(home.Keys) - {token} && forall n :: n in home ==> n in old(home)
      ensures View() == Disarmed(old(View()), token)
    {
      assert NodeAt(rings, home, now, token);
      ghost var i := home[token] - now - 1;
      ghost var k :| 0 <= k < |rings[i]| && rings[i][k] == token;
      assert ListAt(slots, rings, home, now, i);
      assert slots[i] in slots;
      ListsApart(i);
      CancelLayout(slots, rings, home, now, i, k);
      ghost var home' := home - {token};
      assert home'.Keys == home.Keys - {token};
      ghost var rings' := rings[i := Cut(rings[i], k)];
      Unlink(token, rings, i, k, home.Keys);
      Adopt(slots, rings', home', now);
    }

    // One tick: the tokens of the front list, in the order their handlers are called. The handlers
    // themselves leave the wheel alone (World.HandlersLeaveWheelAlone).
    method Tick() returns (fired: seq<Node>)
      requires Valid()
      modifies this
      ensures Valid() && View() == Ticked(old(View()))
      ensures forall n :: n in fired <==> n in Firing(old(View()))
      ensures Distinct(fired)
      ensures fresh(home.Keys - old(home.Keys))
    {
      assert ListAt(slots, rings, home, now, 0) && Ring(rings[0]);
      fired := CallHandlers(slots[0], rings[0]);
      FrontFires(slots, rings, home, now);
      Rotate();
    }

    // pop_front, then push_back of a fresh sentinel.
    method Rotate()
      requires Valid()
      modifies this
      ensures Valid() && View() == Ticked(old(View()))
      ensures fresh(home.Keys - old(home.Keys))
    {
      var last := new Node(0);
      TickLayout(slots, rings, home, now, last);
      TickTokens(slots, rings, home, now, last);
      RingsLeft(last);
      Adopt(slots[1..] + [last], rings[1..] + [[last]], Left(home, now, last), now + 1);
    }

    lemma RingsLeft(last: Node)
      requires Valid() && last.next == last && last.previous == last
      ensures Rings(rings[1..] + [[last]], Left(home, now, last).Keys)
    {
      var left, lists := Left(home, now, last), rings[1..] + [[last]];
      forall i | 0 <= i < |lists| ensures Within(lists[i], left.Keys) && Ring(lists[i]) {
        if i < SLOTS - 1 {
          var j := i + 1;
          assert ListAt(slots, rings, home, now, j) && lists[i] == rings[j] && Ring(rings[j]);
        }
      }
    }
  }

  // The walk of the tick over one list: each node after the sentinel, its successor read first.
  method CallHandlers(head: Node, ghost ring: seq<Node>) returns (fired: seq<Node>)
    requires Ring(ring) && head == ring[0]
    ensures fired == ring[1..]
  {
    var node := head.next;
    fired := [];
    while node != head
      invariant |fired| + 1 <= |ring| && fired == ring[1..|fired| + 1]
      invariant node == if |fired| + 1 == |ring| then head else ring[|fired| + 1]
      decreases |ring| - |fired|
    {
      var next := node.next;
      fired := fired + [node];
      node := next;
    }
  }
}
