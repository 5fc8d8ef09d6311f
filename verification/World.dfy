// All sessions of one worker together with its id pool and its timing wheel.
module World {
  import L = Lifecycle
  import opened TimingWheels

  // 2 << 16
  const POOL_SIZE: nat := 131072

  // tk is the token each session's timer remembers; it may outlive the token itself. owner tells whose
  // handler a live token carries.
  datatype World<T> = World(
    pool: seq<nat>,
    sessions: map<nat, L.Conn>,
    tk: map<nat, T>,
    wheel: Wheel<T>,
    owner: map<T, nat>)

  function Ids(n: nat): (r: seq<nat>)
    ensures |r| == n && forall i :: 0 <= i < n ==> r[i] == i
  {
    seq(n, i => i)
  }

  function Initial<T>(): World<T> {
    World(Ids(POOL_SIZE), map[], map[], Wheel(0, map[]), map[])
  }

  // ---- what a session's effects do to the worker ----

  // `t` is the address the next token gets: any that is not in use.
  function Apply<T>(w: World<T>, id: nat, e: L.Effect, t: T): World<T> {
    match e
    case ArmTimer => w.(wheel := Armed(w.wheel, t), tk := w.tk[id := t], owner := w.owner[t := id])
    case ReleaseTimer => if id in w.tk then w.(wheel := Disarmed(w.wheel, w.tk[id])) else w
    case RunTerminatingHandler => w.(pool := w.pool + [id], sessions := w.sessions - {id})
  }

  // An effect reaches the sessions only by ending one.
  lemma ApplyIs<T>(w: World<T>, id: nat, e: L.Effect, t: T, rest: World<T>, conns: map<nat, L.Conn>)
    requires rest == Apply(w.(sessions := map[]), id, e, t)
    requires conns.Keys == if e.RunTerminatingHandler? then w.sessions.Keys - {id} else w.sessions.Keys
    requires forall i :: i in conns ==> i in w.sessions && conns[i] == w.sessions[i]
    ensures rest.(sessions := conns) == Apply(w, id, e, t)
  {
    assert conns == if e.RunTerminatingHandler? then w.sessions - {id} else w.sessions;
  }

  function ApplyAll<T>(w: World<T>, id: nat, effects: seq<L.Effect>, t: T): World<T>
    decreases |effects|
  {
    if effects == [] then w else ApplyAll(Apply(w, id, effects[0], t), id, effects[1..], t)
  }

  // A token may be released only while it is set, by its owner; a session may go only once nothing can
  // call back into it and its timer is not armed.
  ghost predicate Proper<T>(w: World<T>, id: nat, e: L.Effect, t: T) {
    match e
    case ArmTimer => t !in w.wheel.due
    case ReleaseTimer => id in w.tk && w.tk[id] in w.wheel.due && w.tk[id] in w.owner && w.owner[w.tk[id]] == id
    case RunTerminatingHandler =>
      && id in w.sessions && L.Quiet(w.sessions[id]) && id !in w.pool
      && forall u :: u in w.wheel.due ==> u in w.owner && w.owner[u] != id
  }

  ghost predicate AllProper<T>(w: World<T>, id: nat, effects: seq<L.Effect>, t: T)
    decreases |effects|
  {
    effects == [] || (Proper(w, id, effects[0], t) && AllProper(Apply(w, id, effects[0], t), id, effects[1..], t))
  }

  datatype Event<T> =
    | Create(t: T)                              // a connection arrives
    | Session(id: nat, e: L.Event, t: T)        // a completion of one session
    | Fire(t: T)                                // within a tick: the handler of a due token
    | EndOfTick

  // An exception that leaves a handler leaves the worker's thread, and ends the process: nothing happens
  // after it.
  ghost predicate Running<T>(w: World<T>) {
    forall id :: id in w.sessions ==> !w.sessions[id].life.crashed
  }

  ghost predicate Enabled<T>(w: World<T>, e: Event<T>) {
    Running(w) &&
    match e
    case Create(t) => w.pool != [] && t !in w.wheel.due
    case Session(id, ev, t) => id in w.sessions && !ev.OnTimeout? && L.Enabled(w.sessions[id], ev) && t !in w.wheel.due
    case Fire(t) => t in Firing(w.wheel) && t in w.owner && w.owner[t] in w.sessions
    case EndOfTick => Firing(w.wheel) == {}
  }

  function SessionStep<T>(w: World<T>, id: nat, o: L.Outcome, t: T): World<T> {
    ApplyAll(w.(sessions := w.sessions[id := o.conn]), id, o.effects, t)
  }

  function Step<T>(w: World<T>, e: Event<T>): World<T> {
    match e
    case Create(t) =>
      if w.pool == [] then w
      else
        var id := w.pool[|w.pool| - 1];
        Apply(w.(pool := w.pool[..|w.pool| - 1], sessions := w.sessions[id := L.Start()]), id, L.ArmTimer, t)
    case Session(id, ev, t) => if id in w.sessions then SessionStep(w, id, L.Step(w.sessions[id], ev), t) else w
    case Fire(t) =>
      if t in w.owner && w.owner[t] in w.sessions then
        SessionStep(w.(wheel := Disarmed(w.wheel, t)), w.owner[t], L.TimedOut(w.sessions[w.owner[t]]), t)
      else w
    case EndOfTick => w.(wheel := Ticked(w.wheel))
  }

  // ---- the invariant ----

  ghost predicate NoDuplicates(s: seq<nat>) {
    forall i, j :: 0 <= i < j < |s| ==> s[i] != s[j]
  }

  // Every id is in the pool or names a live session, never both.
  ghost predicate IdsConserved<T>(w: World<T>) {
    Conserved(w.pool, w.sessions.Keys)
  }

  ghost predicate Conserved(pool: seq<nat>, live: set<nat>) {
    && NoDuplicates(pool)
    && (forall id :: id in pool ==> id !in live)
    && (forall id: nat :: id < POOL_SIZE <==> id in pool || id in live)
  }

  // Each live token belongs to an armed session that remembers it, and each armed session has one.
  ghost predicate TokensMatch<T>(w: World<T>) {
    && (forall id :: id in w.sessions && w.sessions[id].life.armed ==> TokenOf(w, id))
    && (forall t :: t in w.wheel.due ==> OwnerOf(w, t))
  }

  ghost predicate TokenOf<T>(w: World<T>, id: nat) {
    id in w.tk && w.tk[id] in w.wheel.due && w.tk[id] in w.owner && w.owner[w.tk[id]] == id
  }

  ghost predicate OwnerOf<T>(w: World<T>, t: T) {
    && t in w.owner && w.owner[t] in w.sessions && w.sessions[w.owner[t]].life.armed
    && w.owner[t] in w.tk && w.tk[w.owner[t]] == t
  }

  ghost predicate Inv<T>(w: World<T>) {
    && IdsConserved(w) && TokensMatch(w) && Ahead(w.wheel)
    && forall id :: id in w.sessions ==> L.Live(w.sessions[id])
  }

  lemma InitialInv<T>()
    ensures Inv(Initial<T>())
  {
    var p := Ids(POOL_SIZE);
    forall id: nat | id < POOL_SIZE ensures id in p { assert p[id] == id; }
  }

  // What a session's step asks for: nothing; to set its timer, to release it, to go; or to release it and go.
  predicate Shape(armed: bool, o: L.Outcome) {
    || (o.effects == [] && o.conn.life.ended == 0 && o.conn.life.armed == armed)
    || (o.effects == [L.ArmTimer] && o.conn.life.ended == 0 && !armed && o.conn.life.armed)
    || (o.effects == [L.ReleaseTimer] && o.conn.life.ended == 0 && armed && !o.conn.life.armed)
    || (o.effects == [L.RunTerminatingHandler] && o.conn.life.ended == 1 && !armed)
    || (o.effects == [L.ReleaseTimer, L.RunTerminatingHandler] && o.conn.life.ended == 1 && armed)
  }

  lemma WaitShape(c: L.Conn, error: bool, found: L.Found, keepAlive: bool)
    requires L.Live(c) && c.core.waitOp
    ensures Shape(c.life.armed, L.WaitDone(c, error, found, keepAlive))
  {
  }

  lemma HeaderShape(c: L.Conn, error: bool, found: L.Found, keepAlive: bool)
    requires L.Live(c) && c.core.headerOp
    ensures Shape(c.life.armed, L.HeaderDone(c, error, found, keepAlive))
  {
  }

  lemma SendShape(c: L.Conn, error: bool, more: bool)
    requires L.Live(c)
    ensures c.core.sendOp.HeaderSend? ==> Shape(c.life.armed, L.HeaderSent(c, error))
    ensures c.core.sendOp.ContentSend? ==> Shape(c.life.armed, L.ContentSent(c, error, more))
  {
  }

  lemma EffectShapes(c: L.Conn, ev: L.Event)
    requires L.Live(c) && L.Enabled(c, ev) && !ev.OnTimeout?
    ensures Shape(c.life.armed, L.Step(c, ev))
  {
    match ev
    case OnWait(error, found, keepAlive) => WaitShape(c, error, found, keepAlive);
    case OnHeader(error, found, keepAlive) => HeaderShape(c, error, found, keepAlive);
    case OnBody(error, more) =>
    case OnAwaitBody =>
    case OnAnswer(answer) =>
    case OnDropped =>
    case OnThrown =>
    case OnHeaderSent(error) => SendShape(c, error, false);
    case OnContentSent(error, more) => SendShape(c, error, more);
  }

  lemma NoTokenOfUnarmed<T>(w: World<T>, id: nat)
    requires TokensMatch(w) && (id in w.sessions ==> !w.sessions[id].life.armed)
    ensures forall u :: u in w.wheel.due ==> u in w.owner && w.owner[u] != id
  {
    forall u | u in w.wheel.due ensures u in w.owner && w.owner[u] != id { assert OwnerOf(w, u); }
  }

  // The last id of the pool becomes a live one.
  lemma IdIsTaken(pool: seq<nat>, live: set<nat>)
    requires Conserved(pool, live) && pool != []
    ensures var n := |pool| - 1; pool[n] !in live && Conserved(pool[..n], live + {pool[n]})
  {
    var n := |pool| - 1;
    assert pool[n] in pool;
    assert forall i :: i in pool <==> i in pool[..n] || i == pool[n];
  }

  lemma CreateKeeps<T>(w: World<T>, t: T)
    requires Inv(w) && Enabled(w, Create(t))
    ensures Inv(Step(w, Create(t))) && Proper(w, w.pool[|w.pool| - 1], L.ArmTimer, t)
  {
    var n := |w.pool| - 1;
    var id, v := w.pool[n], Step(w, Create(t));
    L.StartIsSafe();
    IdIsTaken(w.pool, w.sessions.Keys);
    assert v.sessions.Keys == w.sessions.Keys + {id};
    forall i | i in v.sessions && v.sessions[i].life.armed ensures TokenOf(v, i) {
      if i != id { assert TokenOf(w, i); }
    }
    forall u | u in v.wheel.due ensures OwnerOf(v, u) {
      if u != t { assert OwnerOf(w, u); }
    }
  }

  // A step that leaves the timer alone.
  lemma PlainKeeps<T>(w: World<T>, id: nat, c: L.Conn)
    requires Inv(w) && id in w.sessions && L.Live(c) && c.life.armed == w.sessions[id].life.armed
    ensures Inv(w.(sessions := w.sessions[id := c]))
  {
    var v := w.(sessions := w.sessions[id := c]);
    forall i | i in v.sessions && v.sessions[i].life.armed ensures TokenOf(v, i) { assert TokenOf(w, i); }
    forall u | u in v.wheel.due ensures OwnerOf(v, u) { assert OwnerOf(w, u); }
  }

  lemma ArmKeeps<T>(w: World<T>, id: nat, c: L.Conn, t: T)
    requires Inv(w) && id in w.sessions && L.Live(c) && !w.sessions[id].life.armed && c.life.armed
    requires t !in w.wheel.due
    ensures Inv(Apply(w.(sessions := w.sessions[id := c]), id, L.ArmTimer, t))
  {
    var v := Apply(w.(sessions := w.sessions[id := c]), id, L.ArmTimer, t);
    NoTokenOfUnarmed(w, id);
    forall i | i in v.sessions && v.sessions[i].life.armed ensures TokenOf(v, i) {
      if i != id { assert TokenOf(w, i); }
    }
    forall u | u in v.wheel.due ensures OwnerOf(v, u) {
      if u != t { assert OwnerOf(w, u); }
    }
  }

  // The token of an armed session is taken away, by the session or by the wheel.
  lemma ReleaseKeeps<T>(w: World<T>, id: nat, c: L.Conn)
    requires Inv(w) && id in w.sessions && L.Live(c) && w.sessions[id].life.armed && !c.life.armed
    ensures TokenOf(w, id)
    ensures Inv(w.(sessions := w.sessions[id := c], wheel := Disarmed(w.wheel, w.tk[id])))
  {
    assert TokenOf(w, id);
    var v := w.(sessions := w.sessions[id := c], wheel := Disarmed(w.wheel, w.tk[id]));
    forall i | i in v.sessions && v.sessions[i].life.armed ensures TokenOf(v, i) { assert TokenOf(w, i); }
    forall u | u in v.wheel.due ensures OwnerOf(v, u) { assert OwnerOf(w, u); }
  }

  lemma EndKeeps<T>(w: World<T>, id: nat, t: T)
    requires Inv(w) && id in w.sessions && !w.sessions[id].life.armed
    ensures Inv(Apply(w, id, L.RunTerminatingHandler, t))
    ensures id !in w.pool
  {
  }

  // The effects one step of the worker has on it are proper.
  ghost predicate ProperStep<T>(w: World<T>, e: Event<T>) {
    match e
    case Create(t) => w.pool != [] ==> Proper(w, w.pool[|w.pool| - 1], L.ArmTimer, t)
    case Session(id, ev, t) =>
      id in w.sessions ==>
        var o := L.Step(w.sessions[id], ev);
        AllProper(w.(sessions := w.sessions[id := o.conn]), id, o.effects, t)
    case Fire(t) => t in w.owner && w.owner[t] in w.sessions ==> L.TimedOut(w.sessions[w.owner[t]]).effects == []
    case EndOfTick => true
  }

  lemma SessionKeeps<T>(w: World<T>, id: nat, ev: L.Event, t: T)
    requires Inv(w) && Enabled(w, Session(id, ev, t))
    ensures Inv(Step(w, Session(id, ev, t))) && ProperStep(w, Session(id, ev, t))
  {
    var c := w.sessions[id];
    var o := L.Step(c, ev);
    L.StepIsSafe(c, ev);
    EffectShapes(c, ev);
    OutcomeKeeps(w, id, o, t);
  }

  lemma OutcomeKeeps<T>(w: World<T>, id: nat, o: L.Outcome, t: T)
    requires Inv(w) && id in w.sessions && t !in w.wheel.due && L.Safe(o.conn)
    requires Shape(w.sessions[id].life.armed, o)
    ensures Inv(SessionStep(w, id, o, t))
    ensures AllProper(w.(sessions := w.sessions[id := o.conn]), id, o.effects, t)
  {
    var v := w.(sessions := w.sessions[id := o.conn]);
    if o.effects == [] {
      PlainKeeps(w, id, o.conn);
    } else if |o.effects| == 1 {
      OneEffect(v, id, o.effects[0], t);
      if o.effects[0].ArmTimer? {
        ArmKeeps(w, id, o.conn, t);
      } else if o.effects[0].ReleaseTimer? {
        ReleaseKeeps(w, id, o.conn);
      } else {
        End(w, id, o.conn, t);
      }
    } else {
      ReleaseAndEnd(w, id, o.conn, t);
      TwoEffects(v, id, L.ReleaseTimer, L.RunTerminatingHandler, t);
    }
  }

  lemma OneEffect<T>(w: World<T>, id: nat, e: L.Effect, t: T)
    ensures ApplyAll(w, id, [e], t) == Apply(w, id, e, t)
    ensures AllProper(w, id, [e], t) <==> Proper(w, id, e, t)
  {
    assert [e][1..] == [];
  }

  lemma TwoEffects<T>(w: World<T>, id: nat, e: L.Effect, f: L.Effect, t: T)
    ensures ApplyAll(w, id, [e, f], t) == Apply(Apply(w, id, e, t), id, f, t)
    ensures AllProper(w, id, [e, f], t) <==> Proper(w, id, e, t) && Proper(Apply(w, id, e, t), id, f, t)
  {
    assert [e, f][1..] == [f];
    OneEffect(Apply(w, id, e, t), id, f, t);
  }

  // What the effects of a session's step come to, one by one.
  lemma SessionEffects<T>(w: World<T>, id: nat, ev: L.Event, t: T)
    requires Inv(w) && Enabled(w, Session(id, ev, t))
    ensures var o := L.Step(w.sessions[id], ev);
            var v, x, end := w.(sessions := w.sessions[id := o.conn]), o.effects, Step(w, Session(id, ev, t));
            && (x == [] ==> end == v)
            && (|x| == 1 ==> end == Apply(v, id, x[0], t))
            && (x != [] && x[0].ReleaseTimer? ==> id in w.tk && w.tk[id] in w.wheel.due)
            && (|x| > 1 ==> x == [L.ReleaseTimer, L.RunTerminatingHandler]
                            && end == Apply(Apply(v, id, L.ReleaseTimer, t), id, L.RunTerminatingHandler, t))
  {
    var o := L.Step(w.sessions[id], ev);
    var v, x := w.(sessions := w.sessions[id := o.conn]), o.effects;
    EffectShapes(w.sessions[id], ev);
    SessionKeeps(w, id, ev, t);
    if |x| == 1 {
      assert x == [x[0]];
      OneEffect(v, id, x[0], t);
    } else if |x| > 1 {
      TwoEffects(v, id, L.ReleaseTimer, L.RunTerminatingHandler, t);
    }
  }

  lemma End<T>(w: World<T>, id: nat, c: L.Conn, t: T)
    requires Inv(w) && id in w.sessions && L.Safe(c) && c.life.ended == 1 && !w.sessions[id].life.armed
    ensures var v := w.(sessions := w.sessions[id := c]);
            Proper(v, id, L.RunTerminatingHandler, t) && Inv(Apply(v, id, L.RunTerminatingHandler, t))
  {
  }

  lemma ReleaseAndEnd<T>(w: World<T>, id: nat, c: L.Conn, t: T)
    requires Inv(w) && id in w.sessions && L.Safe(c) && c.life.ended == 1 && w.sessions[id].life.armed && !c.life.armed
    ensures var v := w.(sessions := w.sessions[id := c]);
            && Proper(v, id, L.ReleaseTimer, t)
            && Proper(Apply(v, id, L.ReleaseTimer, t), id, L.RunTerminatingHandler, t)
            && Inv(Apply(Apply(v, id, L.ReleaseTimer, t), id, L.RunTerminatingHandler, t))
  {
    var d := c.(life := c.life.(ended := 0));
    ReleaseKeeps(w, id, d);
    var u := w.(sessions := w.sessions[id := d], wheel := Disarmed(w.wheel, w.tk[id]));
    EndKeeps(u, id, t);
    NoTokenOfUnarmed(u, id);
    var v := Apply(w.(sessions := w.sessions[id := c]), id, L.ReleaseTimer, t);
    assert v.sessions - {id} == u.sessions - {id};
  }

  // The handlers a tick calls neither set nor release tokens, nor end sessions.
  lemma HandlersLeaveWheelAlone<T>(w: World<T>, t: T)
    requires Inv(w) && t in w.wheel.due
    ensures t in w.owner && w.owner[t] in w.sessions && w.tk[w.owner[t]] == t
    ensures var c := w.sessions[w.owner[t]];
            && L.TimedOut(c).effects == [] && c.core.waitOp
            && L.TimedOut(c).conn == c.(core := c.core.(canceled := true), life := c.life.(armed := false))
  {
    assert OwnerOf(w, t);
  }

  lemma FireKeeps<T>(w: World<T>, t: T)
    requires Inv(w) && Enabled(w, Fire(t))
    ensures Inv(Step(w, Fire(t))) && ProperStep(w, Fire(t))
  {
    HandlersLeaveWheelAlone(w, t);
    var id := w.owner[t];
    var c := L.TimedOut(w.sessions[id]).conn;
    assert OwnerOf(w, t);
    L.StepIsSafe(w.sessions[id], L.OnTimeout);
    ReleaseKeeps(w, id, c);
  }

  lemma StepKeeps<T>(w: World<T>, e: Event<T>)
    requires Inv(w) && Enabled(w, e)
    ensures Inv(Step(w, e)) && ProperStep(w, e)
  {
    match e
    case Create(t) => CreateKeeps(w, t);
    case Session(id, ev, t) => SessionKeeps(w, id, ev, t);
    case Fire(t) => FireKeeps(w, t);
    case EndOfTick =>
      var v := Step(w, e);
      assert v.wheel.due == w.wheel.due;
      forall t | t in w.wheel.due ensures w.wheel.due[t] != w.wheel.now + 1 {
        assert t !in Firing(w.wheel);
      }
      forall i | i in v.sessions && v.sessions[i].life.armed ensures TokenOf(v, i) { assert TokenOf(w, i); }
      forall u | u in v.wheel.due ensures OwnerOf(v, u) { assert OwnerOf(w, u); }
  }

  // ---- runs ----

  ghost predicate Allowed<T>(w: World<T>, events: seq<Event<T>>)
    decreases |events|
  {
    events == [] || (Enabled(w, events[0]) && Allowed(Step(w, events[0]), events[1..]))
  }

  ghost function Run<T>(w: World<T>, events: seq<Event<T>>): World<T>
    decreases |events|
  {
    if events == [] then w else Run(Step(w, events[0]), events[1..])
  }

  ghost predicate AlwaysProper<T>(w: World<T>, events: seq<Event<T>>)
    decreases |events|
  {
    events == [] || (ProperStep(w, events[0]) && AlwaysProper(Step(w, events[0]), events[1..]))
  }

  // The id of a session that has gone is the next one to be given away.
  lemma LastBackIsNextOut<T>(w: World<T>, id: nat, ev: L.Event, t: T, u: T)
    requires Inv(w) && Enabled(w, Session(id, ev, t)) && L.Step(w.sessions[id], ev).conn.life.ended == 1
    ensures var v := Step(w, Session(id, ev, t));
            && id !in v.sessions && v.pool == w.pool + [id]
            && var x := Step(v, Create(u)); x.pool == w.pool && x.sessions == v.sessions[id := L.Start()]
  {
    IdComesBack(w, id, ev, t);
    TakenFromTheBack(Step(w, Session(id, ev, t)), w.pool, id, u);
  }

  lemma IdComesBack<T>(w: World<T>, id: nat, ev: L.Event, t: T)
    requires Inv(w) && Enabled(w, Session(id, ev, t)) && L.Step(w.sessions[id], ev).conn.life.ended == 1
    ensures var v := Step(w, Session(id, ev, t)); id !in v.sessions && v.pool == w.pool + [id]
  {
    SessionKeeps(w, id, ev, t);
    SessionEffects(w, id, ev, t);
    EffectShapes(w.sessions[id], ev);
    L.StepIsSafe(w.sessions[id], ev);
  }

  lemma TakenFromTheBack<T>(v: World<T>, pool: seq<nat>, id: nat, u: T)
    requires v.pool == pool + [id]
    ensures var x := Step(v, Create(u)); x.pool == pool && x.sessions == v.sessions[id := L.Start()]
  {
    assert v.pool[..|pool|] == pool;
  }

  // Over every run of the worker: no token is released unless it is set and its owner's, no session
  // goes while anything could call back into it or its timer is armed, no id is lost or given twice.
  lemma {:induction false} RunKeeps<T>(w: World<T>, events: seq<Event<T>>)
    requires Inv(w) && Allowed(w, events)
    ensures Inv(Run(w, events)) && AlwaysProper(w, events)
    decreases |events|
  {
    if events != [] {
      StepKeeps(w, events[0]);
      RunKeeps(Step(w, events[0]), events[1..]);
    }
  }

  // The pool and the live sessions are, at any time, all the ids there are.
  lemma IdConservation<T>(events: seq<Event<T>>)
    requires Allowed(Initial<T>(), events)
    ensures var w := Run(Initial(), events);
            && (forall id: nat :: id < 131072 <==> id in w.pool || id in w.sessions)
            && (forall id :: id in w.pool ==> id !in w.sessions)
            && NoDuplicates(w.pool) && |w.pool| + |w.sessions| == 131072
  {
    InitialInv<T>();
    RunKeeps(Initial(), events);
    CountIds(Run(Initial(), events), POOL_SIZE);
  }

  lemma CountIds<T>(w: World<T>, n: nat)
    requires NoDuplicates(w.pool) && (forall id :: id in w.pool ==> id !in w.sessions)
    requires forall id: nat :: id < n <==> id in w.pool || id in w.sessions
    ensures |w.pool| + |w.sessions| == n
  {
    var free := Elements(w.pool);
    SizeOfPool(w.pool);
    assert free + w.sessions.Keys == Below(n);
    assert free !! w.sessions.Keys;
  }

  ghost function Elements(s: seq<nat>): set<nat> {
    set id | id in s
  }

  ghost function Below(n: nat): (r: set<nat>)
    ensures |r| == n && forall id: nat :: id in r <==> id < n
  {
    if n == 0 then {} else Below(n - 1) + {n - 1}
  }

  lemma {:induction false} SizeOfPool(s: seq<nat>)
    requires NoDuplicates(s)
    ensures |Elements(s)| == |s|
    decreases |s|
  {
    if s != [] {
      var n := |s| - 1;
      SizeOfPool(s[..n]);
      assert s == s[..n] + [s[n]];
      assert Elements(s) == Elements(s[..n]) + {s[n]};
      assert s[n] !in Elements(s[..n]);
    }
  }

  // Token lifecycle: at any time an armed timer's token is set and the only one of its session, and a
  // timer is armed only while the session waits.
  lemma TokenLifecycle<T>(events: seq<Event<T>>, id: nat)
    requires Allowed(Initial<T>(), events) && id in Run(Initial(), events).sessions
    ensures AlwaysProper(Initial(), events)
    ensures var w := Run(Initial(), events);
            && (w.sessions[id].life.armed ==> w.sessions[id].core.waitOp)
            && (forall t :: t in w.wheel.due ==> t in w.owner)
            && (w.sessions[id].life.armed <==> exists t :: t in w.wheel.due && w.owner[t] == id)
            && (forall t, u :: t in w.wheel.due && u in w.wheel.due && w.owner[t] == w.owner[u] ==> t == u)
  {
    InitialInv<T>();
    RunKeeps(Initial(), events);
    var w := Run(Initial(), events);
    forall t | t in w.wheel.due ensures OwnerOf(w, t) {}
    if w.sessions[id].life.armed {
      assert TokenOf(w, id);
      assert w.tk[id] in w.wheel.due && w.owner[w.tk[id]] == id;
    }
  }

  lemma {:induction false} OthersStay<T>(w: World<T>, i: nat, effects: seq<L.Effect>, t: T, id: nat)
    requires id != i && id in w.sessions
    ensures var v := ApplyAll(w, i, effects, t); id in v.sessions && v.sessions[id] == w.sessions[id]
    decreases |effects|
  {
    if effects != [] { OthersStay(Apply(w, i, effects[0], t), i, effects[1..], t, id); }
  }

  lemma DeadStays<T>(w: World<T>, e: Event<T>, id: nat)
    requires Inv(w) && Enabled(w, e) && id in w.sessions && L.Dead(w.sessions[id])
    ensures var v := Step(w, e); id in v.sessions && v.sessions[id] == w.sessions[id]
  {
    match e
    case Create(t) => assert w.pool[|w.pool| - 1] in w.pool;
    case Session(i, ev, t) =>
      var o := L.Step(w.sessions[i], ev);
      assert i != id;
      OthersStay(w.(sessions := w.sessions[i := o.conn]), i, o.effects, t, id);
    case Fire(t) =>
      var i := w.owner[t];
      HandlersLeaveWheelAlone(w, t);
      assert L.Enabled(w.sessions[i], L.OnWait(true, L.NeedMore, false));
      assert i != id;
    case EndOfTick =>
  }

  // A dead session never goes, and its id never comes back to the pool.
  lemma {:induction false} DeadSessionIsLost<T>(w: World<T>, events: seq<Event<T>>, id: nat)
    requires Inv(w) && Allowed(w, events) && id in w.sessions && L.Dead(w.sessions[id])
    ensures var v := Run(w, events); id in v.sessions && v.sessions[id] == w.sessions[id] && id !in v.pool
    decreases |events|
  {
    if events != [] {
      DeadStays(w, events[0], id);
      StepKeeps(w, events[0]);
      DeadSessionIsLost(Step(w, events[0]), events[1..], id);
    }
  }

  // ---- a whole tick ----

  function Fires<T>(fired: seq<T>): (r: seq<Event<T>>)
    ensures |r| == |fired| && forall i :: 0 <= i < |r| ==> r[i] == Fire(fired[i])
  {
    seq(|fired|, i requires 0 <= i < |fired| => Fire(fired[i]))
  }

  // The wheel once the handlers of these tokens were called.
  function Without<T>(w: Wheel<T>, fired: seq<T>): Wheel<T> {
    Wheel(w.now, w.due - set t | t in fired)
  }

  lemma {:induction false} RunAppend<T>(w: World<T>, events: seq<Event<T>>, e: Event<T>)
    ensures Run(w, events + [e]) == Step(Run(w, events), e)
    ensures Allowed(w, events + [e]) <==> Allowed(w, events) && Enabled(Run(w, events), e)
    decreases |events|
  {
    if events == [] {
      assert events + [e] == [e] && [e][1..] == [];
    } else {
      assert (events + [e])[1..] == events[1..] + [e];
      RunAppend(Step(w, events[0]), events[1..], e);
    }
  }

  // The handler of one due token: its session asks to terminate, and nothing else changes.
  lemma FireIs<T>(w: World<T>, t: T)
    requires Inv(w) && Running(w) && t in Firing(w.wheel)
    ensures Enabled(w, Fire(t)) && w.owner[t] in w.sessions
    ensures var id := w.owner[t];
            && L.Enabled(w.sessions[id], L.OnTimeout) && L.TimedOut(w.sessions[id]).effects == []
            && Step(w, Fire(t))
               == w.(wheel := Disarmed(w.wheel, t), sessions := w.sessions[id := L.TimedOut(w.sessions[id]).conn])
            && Running(Step(w, Fire(t))) && Inv(Step(w, Fire(t)))
  {
    HandlersLeaveWheelAlone(w, t);
    assert OwnerOf(w, t);
    FireKeeps(w, t);
  }

  // The tokens whose handlers were called so far, in their order.
  ghost predicate Walked<T>(w: World<T>, fired: seq<T>, i: nat, v: World<T>)
    requires i <= |fired|
  {
    && Allowed(w, Fires(fired[..i])) && v == Run(w, Fires(fired[..i]))
    && Inv(v) && Running(v) && v.wheel == Without(w.wheel, fired[..i])
  }

  lemma WalkStarts<T>(w: World<T>, fired: seq<T>)
    requires Inv(w) && Running(w)
    ensures Walked(w, fired, 0, w)
  {
    assert fired[..0] == [] && Fires(fired[..0]) == [];
    assert w.wheel.due - {} == w.wheel.due;
  }

  lemma WithoutOneMore<T>(w: Wheel<T>, fired: seq<T>, i: nat)
    requires i < |fired|
    ensures Without(w, fired[..i + 1]) == Disarmed(Without(w, fired[..i]), fired[i])
  {
    var more, t := fired[..i + 1], fired[i];
    assert more == fired[..i] + [t];
    forall u ensures u in Without(w, more).due <==> u in Disarmed(Without(w, fired[..i]), t).due {}
  }

  lemma FiresOneMore<T>(fired: seq<T>, i: nat)
    requires i < |fired|
    ensures Fires(fired[..i + 1]) == Fires(fired[..i]) + [Fire(fired[i])]
  {
  }

  lemma StillFiring<T>(w: Wheel<T>, fired: seq<T>, i: nat)
    requires i < |fired| && fired[i] in Firing(w) && forall j :: 0 <= j < i ==> fired[j] != fired[i]
    ensures fired[i] in Firing(Without(w, fired[..i]))
  {
    assert fired[i] !in fired[..i];
  }

  lemma WalkGoesOn<T>(w: World<T>, fired: seq<T>, i: nat, v: World<T>)
    requires i < |fired| && Walked(w, fired, i, v) && fired[i] in Firing(w.wheel)
    requires forall j :: 0 <= j < i ==> fired[j] != fired[i]
    ensures fired[i] in Firing(v.wheel) && Walked(w, fired, i + 1, Step(v, Fire(fired[i])))
  {
    StillFiring(w.wheel, fired, i);
    FireIs(v, fired[i]);
    FiresOneMore(fired, i);
    RunAppend(w, Fires(fired[..i]), Fire(fired[i]));
    WithoutOneMore(w.wheel, fired, i);
  }

  lemma WithoutAll<T>(w: Wheel<T>, fired: seq<T>)
    requires forall t :: t in fired <==> t in Firing(w)
    ensures Firing(Without(w, fired)) == {} && Ticked(Without(w, fired)) == Ticked(w)
  {
    assert (set t | t in fired) == Firing(w);
  }

  // With all that is due called, the tick is over, and the wheel has turned.
  lemma WalkEnds<T>(w: World<T>, fired: seq<T>, v: World<T>)
    requires Walked(w, fired, |fired|, v) && forall t :: t in fired <==> t in Firing(w.wheel)
    ensures Allowed(w, Fires(fired) + [EndOfTick]) && Inv(Step(v, EndOfTick))
    ensures Run(w, Fires(fired) + [EndOfTick]) == Step(v, EndOfTick) == v.(wheel := Ticked(w.wheel))
  {
    assert fired[..|fired|] == fired;
    WithoutAll(w.wheel, fired);
    RunAppend(w, Fires(fired), EndOfTick);
    StepKeeps(v, EndOfTick);
  }
}
