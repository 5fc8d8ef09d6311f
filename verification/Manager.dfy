// manager: hands out session ids from a pool, has one timing wheel for all sessions, and takes ids back
// when sessions terminate. Each of its steps is the step of World.
module Managers {
  import opened Messages
  import opened Sessions
  import opened TimingWheels
  import opened Transceivers
  import C = Connections
  import L = Lifecycle
  import W = World

  ghost predicate Disjoint(parts: map<nat, set<object>>) {
    forall i, j :: i in parts && j in parts && i != j ==> parts[i] !! parts[j]
  }

  // One set grew by what is new.
  lemma StillDisjoint(was: map<nat, set<object>>, now: map<nat, set<object>>, id: nat, more: set<object>)
    requires Disjoint(was) && forall i :: i in was ==> was[i] !! more
    requires forall i :: i in now && i != id ==> i in was && now[i] == was[i]
    requires id in now ==> now[id] <= more + if id in was then was[id] else {}
    ensures Disjoint(now)
  {
    forall i, j | i in now && j in now && i != j ensures now[i] !! now[j] {}
  }

  twostate lemma OldIsOld(s: Session)
    ensures forall o :: o in old(s.Repr()) ==> !fresh(o)
  {
  }

  // A token carries the handler of the session it was set for.
  ghost predicate Owns(due: map<Node, nat>, owner: map<Node, nat>) {
    forall n :: n in due ==> n in owner && owner[n] == n.handler
  }

  lemma OneMoved(was: map<nat, L.Conn>, now: map<nat, L.Conn>, id: nat, c: L.Conn)
    requires now.Keys == was.Keys + {id} && now[id] == c
    requires forall i :: i in now ==> i != id ==> i in was && now[i] == was[i]
    ensures now == was[id := c]
  {
  }

  lemma SameMap(was: map<nat, L.Conn>, now: map<nat, L.Conn>)
    requires now.Keys == was.Keys && forall i :: i in now ==> i in was && now[i] == was[i]
    ensures now == was
  {
  }

  method StartSession() returns (session: Session, effects: seq<L.Effect>)
    ensures session.Valid() && session.View() == L.Start() && fresh(session.Repr()) && effects == [L.ArmTimer]
  {
    session := new Session();
    effects := session.Start();
  }

  class Manager {
    var idPool: seq<nat>
    var sessions: map<nat, Session>
    const wheel: TimingWheel
    var timers: map<nat, Node>           // the token each session's timer remembers
    ghost var owner: map<Node, nat>

    ghost function Conns(): map<nat, L.Conn>
      reads *
    {
      map id | id in sessions :: sessions[id].View()
    }

    // Everything but the sessions.
    ghost function Rest(): W.World<Node>
      reads this, wheel
    {
      W.World(idPool, map[], timers, wheel.View(), owner)
    }

    ghost function View(): W.World<Node>
      reads *
    {
      Rest().(sessions := Conns())
    }

    // The sessions and the wheel are sound, and share nothing.
    ghost predicate Shell()
      reads *
    {
      wheel.Valid() && Owned() && AllGood() && Disjoint(AllReprs())
    }

    ghost predicate Owned()
      reads this, wheel
    {
      Owns(wheel.View().due, owner)
    }

    ghost predicate AllGood()
      reads *
    {
      forall id :: id in sessions ==> Good(sessions[id])
    }

    ghost function AllReprs(): map<nat, set<object>>
      reads *
    {
      map id | id in sessions :: sessions[id].Repr()
    }

    // A sound session outside the wheel.
    ghost predicate Good(s: Session)
      reads *
    {
      s.Valid() && Outside(s)
    }

    ghost predicate Outside(s: Session)
      reads wheel, s, s.trx`readOp, s.trx.buf
    {
      this !in s.Repr() && wheel !in s.Repr() && s.Repr() !! wheel.home.Keys
    }

    ghost predicate Valid()
      reads *
    {
      Shell() && W.Inv(View())
    }

    constructor ()
      ensures Valid() && View() == W.Initial() && fresh(wheel) && fresh(wheel.home.Keys)
    {
      var pool: seq<nat> := [];
      for i := 0 to W.POOL_SIZE
        invariant |pool| == i && forall j :: 0 <= j < i ==> pool[j] == j
      {
        pool := pool + [i];
      }
      wheel := new TimingWheel();
      idPool, sessions, timers, owner := pool, map[], map[], map[];
      new;
      assert pool == W.Ids(W.POOL_SIZE);
      W.InitialInv<Node>();
      assert Conns() == map[];
    }

    // ---- what stays as it is ----

    // What a session, if it is there, is made of was its own before, or is new.
    twostate predicate Renewed(id: nat)
      reads *
    {
      id in sessions ==> forall o :: o in sessions[id].Repr() ==>
        fresh(o) || (id in old(sessions) && sessions[id] == old(sessions[id]) && o in old(sessions[id].Repr()))
    }

    twostate predicate Unmoved(id: nat)
      reads *
    {
      && id in sessions && id in old(sessions) && sessions[id] == old(sessions[id])
      && forall o :: o in old(sessions[id].Repr()) ==> unchanged(o)
    }

    twostate predicate WheelGrew()
      reads wheel
    {
      forall n :: n in wheel.home ==> n in old(wheel.home) || fresh(n)
    }

    twostate predicate Stays(id: nat)
      reads *
    {
      && id in sessions && id in old(sessions) && sessions[id] == old(sessions[id])
      && Good(sessions[id]) && sessions[id].Repr() == old(sessions[id].Repr())
      && sessions[id].View() == old(sessions[id].View())
    }

    twostate lemma OneStays(id: nat)
      requires Unmoved(id) && WheelGrew() && old(Good(sessions[id]))
      ensures Stays(id)
    {
      sessions[id].Stays();
      assert forall o :: o in sessions[id].Repr() ==> o !in wheel.home.Keys;
    }

    twostate lemma AllStay(id: nat)
      requires old(AllGood()) && WheelGrew()
      requires forall i :: i in sessions && i != id ==> Unmoved(i)
      ensures forall i :: i in sessions && i != id ==> Stays(i)
    {
      forall i | i in sessions && i != id ensures Stays(i) {
        assert Unmoved(i) && old(Good(sessions[i]));
        OneStays(i);
      }
    }

    twostate predicate KeepsRepr(id: nat)
      reads *
    {
      id in sessions && id in old(sessions) && sessions[id].Repr() == old(sessions[id].Repr())
    }

    // What is new shares nothing with what was there.
    twostate lemma NewIsApart(id: nat)
      requires old(Disjoint(AllReprs()))
      requires forall i :: i in sessions && i != id ==> KeepsRepr(i)
      requires Renewed(id)
      ensures Disjoint(AllReprs())
    {
      ghost var was, now := old(AllReprs()), AllReprs();
      ghost var more := set o | id in sessions && o in sessions[id].Repr() && fresh(o);
      forall i | i in was ensures was[i] !! more {
        OldIsOld(old(sessions[i]));
      }
      forall i | i in now && i != id ensures i in was && now[i] == was[i] { assert KeepsRepr(i); }
      StillDisjoint(was, now, id, more);
    }

    // Only the session with this id, the pool and the wheel were touched.
    twostate lemma ShellStays(id: nat)
      requires old(AllGood()) && old(Disjoint(AllReprs())) && WheelGrew()
      requires forall i :: i in sessions && i != id ==> Unmoved(i)
      requires id in sessions ==> Good(sessions[id])
      requires Renewed(id)
      ensures AllGood() && Disjoint(AllReprs())
      ensures forall i :: i in sessions && i != id ==> Stays(i)
    {
      AllStay(id);
      forall i | i in sessions && i != id ensures KeepsRepr(i) { assert Stays(i); }
      NewIsApart(id);
    }

    twostate lemma ReprsKept()
      requires old(Disjoint(AllReprs()))
      requires forall i :: i in sessions ==> KeepsRepr(i)
      ensures Disjoint(AllReprs())
    {
      ghost var was, now := old(AllReprs()), AllReprs();
      forall i | i in now ensures i in was && now[i] == was[i] { assert KeepsRepr(i); }
    }

    // Only the pool and the wheel were touched.
    twostate lemma ShellKept()
      requires old(AllGood()) && old(Disjoint(AllReprs())) && WheelGrew()
      requires forall i :: i in sessions ==> Unmoved(i)
      ensures AllGood() && Disjoint(AllReprs())
      ensures forall i :: i in sessions ==> Stays(i)
    {
      forall i | i in sessions ensures Stays(i) {
        assert Unmoved(i) && old(Good(sessions[i]));
        OneStays(i);
      }
      forall i | i in sessions ensures KeepsRepr(i) { assert Stays(i); }
      ReprsKept();
    }

    // Objects of the step that belong to no other session, nor to the manager.
    ghost predicate Foreign(id: nat, also: set<object>)
      reads *
    {
      && this !in also && wheel !in also && also !! wheel.home.Keys
      && forall i :: i in sessions && i != id ==> also !! sessions[i].Repr()
    }

    // at.0 is the session whose handler ran, at.1 what else it may have changed.
    twostate lemma OthersUnmoved(at: (nat, set<object>))
      requires old(Disjoint(AllReprs())) && old(Foreign(at.0, at.1)) && at.0 in old(sessions) && unchanged(`sessions)
      requires forall o: object ::
                 old(allocated(o)) && o !in old(sessions[at.0].Repr()) && o !in at.1 ==> unchanged(o)
      ensures forall i :: i in sessions && i != at.0 ==> Unmoved(i)
    {
      forall i | i in sessions && i != at.0 ensures Unmoved(i) {
        assert old(AllReprs()[i]) !! old(AllReprs()[at.0]) && at.1 !! old(sessions[i].Repr());
        OldIsOld(old(sessions[i]));
      }
    }

    twostate lemma WheelUnmoved(at: (nat, set<object>))
      requires at.0 in old(sessions) && old(Outside(sessions[at.0])) && old(Foreign(at.0, at.1))
      requires old(wheel.Valid()) && old(Owned())
      requires forall o: object ::
                 old(allocated(o)) && o !in old(sessions[at.0].Repr()) && o !in at.1 ==> unchanged(o)
      ensures unchanged(this) && WheelGrew() && wheel.Valid() == old(wheel.Valid())
      ensures Owned() && Rest() == old(Rest())
    {
      assert unchanged(this) && unchanged(wheel);
      assert forall n :: n in wheel.home.Keys ==> unchanged(n);
    }

    twostate predicate KeepsView(id: nat)
      reads *
    {
      id in sessions && id in old(sessions) && sessions[id].View() == old(sessions[id].View())
    }

    twostate lemma ViewsKept(id: nat)
      requires forall i :: i in sessions && i != id ==> Stays(i)
      ensures forall i :: i in sessions && i != id ==> KeepsView(i)
    {
      forall i | i in sessions && i != id ensures KeepsView(i) { assert Stays(i); }
    }

    twostate lemma ConnsMoved(id: nat)
      requires id in sessions && sessions.Keys == old(sessions.Keys) + {id}
      requires forall i :: i in sessions && i != id ==> KeepsView(i)
      ensures Conns() == old(Conns())[id := sessions[id].View()]
    {
      ghost var was, now, d := old(Conns()), Conns(), sessions[id].View();
      forall i | i in now ensures i != id ==> i in was && now[i] == was[i] { assert i != id ==> KeepsView(i); }
      OneMoved(was, now, id, d);
    }

    twostate lemma OneRenewed(at: (nat, set<object>))
      requires old(AllGood()) && old(Disjoint(AllReprs())) && old(Foreign(at.0, at.1))
      requires at.0 in old(sessions) && unchanged(`sessions)
      requires forall o: object ::
                 old(allocated(o)) && o !in old(sessions[at.0].Repr()) && o !in at.1 ==> unchanged(o)
      requires sessions[at.0].Valid() && Renewed(at.0) && unchanged(wheel)
      ensures AllGood() && Disjoint(AllReprs())
      ensures forall i :: i in sessions && i != at.0 ==> Stays(i)
    {
      assert old(Good(sessions[at.0]));
      OthersUnmoved(at);
      assert Good(sessions[at.0]);
      ShellStays(at.0);
    }

    // A handler of one session ran.
    twostate lemma Handled(at: (nat, set<object>))
      requires old(Shell()) && at.0 in old(sessions) && old(Foreign(at.0, at.1))
      requires forall o: object ::
                 old(allocated(o)) && o !in old(sessions[at.0].Repr()) && o !in at.1 ==> unchanged(o)
      requires unchanged(`sessions) && sessions[at.0].Valid() && Renewed(at.0)
      ensures Shell() && wheel.home == old(wheel.home)
      ensures forall i :: i in sessions && i != at.0 ==> Stays(i)
      ensures View() == old(View()).(sessions := old(Conns())[at.0 := sessions[at.0].View()])
    {
      assert old(Good(sessions[at.0]));
      WheelUnmoved(at);
      OneRenewed(at);
      ViewsKept(at.0);
      ConnsMoved(at.0);
    }

    // The sessions that are left are those that were there.
    twostate predicate NoneNew()
      reads this
    {
      forall i :: i in sessions ==> i in old(sessions) && sessions[i] == old(sessions[i])
    }

    twostate lemma OneUnmoved(id: nat)
      requires id in sessions && id in old(sessions) && sessions[id] == old(sessions[id]) && old(Outside(sessions[id]))
      requires forall o: object ::
                 old(allocated(o)) && o != this && o != wheel && o !in old(wheel.home.Keys) ==> unchanged(o)
      ensures Unmoved(id)
    {
      OldIsOld(old(sessions[id]));
    }

    twostate lemma AllUnmoved()
      requires old(AllGood()) && NoneNew()
      requires forall o: object ::
                 old(allocated(o)) && o != this && o != wheel && o !in old(wheel.home.Keys) ==> unchanged(o)
      ensures forall i :: i in sessions ==> Unmoved(i)
    {
      forall i | i in sessions ensures Unmoved(i) {
        assert old(Good(sessions[i]));
        OneUnmoved(i);
      }
    }

    // The pool and the wheel did what a session asked for.
    twostate lemma Asked()
      requires old(AllGood()) && old(Disjoint(AllReprs())) && WheelGrew() && NoneNew()
      requires forall o: object ::
                 old(allocated(o)) && o != this && o != wheel && o !in old(wheel.home.Keys) ==> unchanged(o)
      ensures AllGood() && Disjoint(AllReprs())
      ensures forall i :: i in Conns() ==> i in old(Conns()) && Conns()[i] == old(Conns())[i]
      ensures Conns().Keys == sessions.Keys
    {
      AllUnmoved();
      ShellKept();
      forall i | i in sessions ensures KeepsView(i) { assert Stays(i); }
      ConnsKept();
    }

    twostate lemma ConnsKept()
      requires forall i :: i in sessions ==> KeepsView(i)
      ensures forall i :: i in Conns() ==> i in old(Conns()) && Conns()[i] == old(Conns())[i]
      ensures Conns().Keys == sessions.Keys
    {
      forall i | i in Conns() ensures i in old(Conns()) && Conns()[i] == old(Conns())[i] { assert KeepsView(i); }
    }

    // ---- what a session asks for ----

    // timer::set
    method SetTimer(id: nat) returns (token: Node)
      requires wheel.Valid() && Owned()
      modifies `timers, `owner, wheel, wheel.home.Keys
      ensures wheel.Valid() && Owned() && WheelGrew() && token !in old(wheel.View()).due
      ensures Rest() == W.Apply(old(Rest()), id, L.ArmTimer, token) && unchanged(`sessions)
    {
      token := wheel.Set(id);
      Remember(id, token);
    }

    method Remember(id: nat, token: Node)
      requires wheel.Valid()
      modifies `timers, `owner
      ensures wheel.Valid() && wheel.View() == old(wheel.View()) && wheel.home == old(wheel.home)
      ensures timers == old(timers)[id := token] && owner == old(owner)[token := id]
    {
      timers := timers[id := token];
      owner := owner[token := id];
    }

    // timer::cancel
    method CancelTimer(id: nat, ghost t: Node)
      requires wheel.Valid() && Owned() && id in timers && timers[id] in wheel.View().due
      modifies wheel, wheel.home.Keys
      ensures wheel.Valid() && Owned() && WheelGrew()
      ensures Rest() == W.Apply(old(Rest()), id, L.ReleaseTimer, t) && unchanged(`sessions)
    {
      wheel.Cancel(timers[id]);
    }

    // The terminating handler that was bound to the id.
    method Terminated(id: nat, ghost t: Node)
      requires wheel.Valid() && Owned() && id in sessions
      modifies `idPool, `sessions
      ensures wheel.Valid() && Owned() && WheelGrew()
      ensures sessions == old(sessions) - {id}
      ensures Rest() == W.Apply(old(Rest()), id, L.RunTerminatingHandler, t)
    {
      idPool := idPool + [id];
      sessions := sessions - {id};
    }

    // One effect of a session's step. A token that is set is new; t stands for one else.
    method Do(id: nat, e: L.Effect, ghost t: Node) returns (ghost token: Node)
      requires wheel.Valid() && Owned() && id in sessions
      requires e.ReleaseTimer? ==> id in timers && timers[id] in wheel.View().due
      modifies this, wheel, wheel.home.Keys
      ensures wheel.Valid() && Owned() && WheelGrew()
      ensures if e.ArmTimer? then token !in old(wheel.View()).due else token == t
      ensures Rest() == W.Apply(old(Rest()), id, e, token)
      ensures if e.RunTerminatingHandler? then sessions == old(sessions) - {id} else unchanged(`sessions)
    {
      token := t;
      match e {
        case ArmTimer => token := SetTimer(id);
        case ReleaseTimer => CancelTimer(id, t);
        case RunTerminatingHandler => Terminated(id, t);
      }
    }

    method Perform(id: nat, e: L.Effect, ghost t: Node) returns (ghost token: Node)
      requires Shell() && id in sessions
      requires e.ReleaseTimer? ==> id in timers && timers[id] in wheel.View().due
      modifies this, wheel, wheel.home.Keys
      ensures Shell() && WheelGrew() && (if e.ArmTimer? then token !in old(wheel.View()).due else token == t)
      ensures View() == W.Apply(old(View()), id, e, token) && (!e.RunTerminatingHandler? ==> unchanged(`sessions))
    {
      ghost var w := View();
      assert w.(sessions := map[]) == Rest() && w.sessions.Keys == sessions.Keys;
      token := Do(id, e, t);
      Asked();
      assert Conns().Keys == if e.RunTerminatingHandler? then w.sessions.Keys - {id} else w.sessions.Keys;
      W.ApplyIs(w, id, e, token, Rest(), Conns());
    }

    // The last id of the pool names a new session.
    method Admit() returns (id: nat, effects: seq<L.Effect>)
      requires Shell() && idPool != [] && idPool[|idPool| - 1] !in sessions
      modifies `idPool, `sessions
      ensures Shell() && id == old(idPool)[|old(idPool)| - 1] && id in sessions && effects == [L.ArmTimer]
      ensures var w := old(View());
              View() == w.(pool := w.pool[..|w.pool| - 1], sessions := w.sessions[id := L.Start()])
    {
      var session;
      id := idPool[|idPool| - 1];
      idPool := idPool[..|idPool| - 1];
      session, effects := StartSession();
      sessions := sessions[id := session];
      Joined(id);
    }

    twostate lemma Joined(id: nat)
      requires old(Shell()) && id !in old(sessions) && id in sessions && sessions == old(sessions)[id := sessions[id]]
      requires sessions[id].Valid() && sessions[id].View() == L.Start() && fresh(sessions[id].Repr())
      requires forall o: object ::
                 old(allocated(o)) && o != this && o != wheel && o !in old(wheel.home.Keys) ==> unchanged(o)
      requires unchanged(wheel) && forall n :: n in old(wheel.home.Keys) ==> unchanged(n)
      requires timers == old(timers) && owner == old(owner)
      ensures Shell()
      ensures View() == old(View()).(pool := idPool, sessions := old(Conns())[id := L.Start()])
    {
      OthersUnmovedBy(id);
      OneJoined(id);
      WheelSame();
      ViewsKept(id);
      ConnsMoved(id);
    }

    twostate lemma WheelSame()
      requires unchanged(wheel) && forall n :: n in old(wheel.home.Keys) ==> unchanged(n)
      ensures wheel.Valid() == old(wheel.Valid()) && wheel.View() == old(wheel.View())
    {
    }

    twostate lemma OneJoined(id: nat)
      requires old(AllGood()) && old(Disjoint(AllReprs())) && id in sessions && unchanged(wheel)
      requires forall i :: i in sessions && i != id ==> Unmoved(i)
      requires sessions[id].Valid() && fresh(sessions[id].Repr())
      ensures AllGood() && Disjoint(AllReprs())
      ensures forall i :: i in sessions && i != id ==> Stays(i)
    {
      assert Outside(sessions[id]);
      ShellStays(id);
    }

    twostate lemma OthersUnmovedBy(id: nat)
      requires old(AllGood()) && id !in old(sessions) && id in sessions && sessions == old(sessions)[id := sessions[id]]
      requires forall o: object ::
                 old(allocated(o)) && o != this && o != wheel && o !in old(wheel.home.Keys) ==> unchanged(o)
      ensures forall i :: i in sessions && i != id ==> Unmoved(i)
    {
      forall i | i in sessions && i != id ensures Unmoved(i) {
        assert old(Good(sessions[i]));
        OneUnmoved(i);
      }
    }

    // manager::create_session
    method CreateSession() returns (id: nat, ghost token: Node)
      requires Valid() && idPool != [] && W.Running(View())
      modifies this, wheel, wheel.home.Keys
      ensures Valid() && WheelGrew()
      ensures W.Enabled(old(View()), W.Create(token)) && View() == W.Step(old(View()), W.Create(token))
    {
      ghost var w := View();
      assert idPool[|idPool| - 1] in w.pool;
      var effects;
      id, effects := Admit();
      token := Perform(id, effects[0], wheel.slots[0]);
      W.StepKeeps(w, W.Create(token));
    }

    method ReleaseAndEnd(id: nat, ghost t: Node)
      requires Shell() && id in sessions && id in timers && timers[id] in wheel.View().due
      modifies this, wheel, wheel.home.Keys
      ensures Shell() && WheelGrew()
      ensures View() == W.Apply(W.Apply(old(View()), id, L.ReleaseTimer, t), id, L.RunTerminatingHandler, t)
    {
      ghost var token := Perform(id, L.ReleaseTimer, t);
      token := Perform(id, L.RunTerminatingHandler, t);
    }

    // In state w, a session's handler ran; what it asked for is still to be done.
    ghost predicate Pending(id: nat, w: W.World<Node>, ev: L.Event, effects: seq<L.Effect>)
      reads *
    {
      && Shell() && id in sessions && wheel.View() == w.wheel
      && W.Inv(w) && W.Running(w) && id in w.sessions && !ev.OnTimeout? && L.Enabled(w.sessions[id], ev)
      && var o := L.Step(w.sessions[id], ev);
         effects == o.effects && View() == w.(sessions := w.sessions[id := o.conn])
    }

    // After a session's handler: what it asked for is done.
    method Settle(id: nat, effects: seq<L.Effect>, ghost w: W.World<Node>, ghost ev: L.Event)
        returns (ghost token: Node)
      requires Pending(id, w, ev, effects)
      modifies this, wheel, wheel.home.Keys
      ensures Valid() && WheelGrew()
      ensures W.Enabled(w, W.Session(id, ev, token)) && View() == W.Step(w, W.Session(id, ev, token))
    {
      token := wheel.slots[0];
      assert token !in w.wheel.due;
      W.SessionEffects(w, id, ev, token);
      if |effects| == 1 {
        token := Perform(id, effects[0], token);
        W.SessionEffects(w, id, ev, token);
      } else if |effects| > 1 {
        ReleaseAndEnd(id, token);
      }
      W.StepKeeps(w, W.Session(id, ev, token));
    }

    // ---- the events of the worker ----

    lemma StillAlive(id: nat)
      requires Valid() && W.Running(View()) && id in sessions
      ensures sessions[id].Alive() && View().sessions[id] == sessions[id].View()
    {
      assert id in View().sessions;
      assert L.Live(View().sessions[id]);
    }

    // The session's handler runs.
    method RunHandler(id: nat, x: Occurrence) returns (effects: seq<L.Effect>)
      requires Shell() && id in sessions && sessions[id].Alive() && sessions[id].Due(x) && Foreign(id, Lent(x))
      modifies sessions[id].Repr(), Lent(x)
      ensures Shell() && unchanged(`sessions) && wheel.home == old(wheel.home)
      ensures C.Same(sessions[id].Link(), C.Step(old(sessions[id].Link()), old(sessions[id].EventOf(x))))
      ensures effects == C.Effects(old(sessions[id].Link()), old(sessions[id].EventOf(x)))
      ensures View() == old(View()).(sessions := old(Conns())[id := sessions[id].View()])
      ensures wheel.View() == old(wheel.View())
    {
      effects := sessions[id].Handle(x);
      Handled((id, Lent(x)));
    }

    lemma IsPending(id: nat, w: W.World<Node>, l: C.Link, e: C.Event)
      requires Shell() && id in sessions && wheel.View() == w.wheel && W.Inv(w) && W.Running(w)
      requires id in w.sessions && w.sessions[id] == l.conn && C.Enabled(l, e) && !C.Control(l, e).OnTimeout?
      requires sessions[id].View() == C.Step(l, e).conn
      requires View() == w.(sessions := w.sessions[id := sessions[id].View()])
      ensures Pending(id, w, C.Control(l, e), C.Effects(l, e))
    {
    }

    method Handle(id: nat, x: Occurrence) returns (effects: seq<L.Effect>)
      requires Valid() && W.Running(View()) && id in sessions && sessions[id].Alive()
      requires sessions[id].Due(x) && Foreign(id, Lent(x))
      modifies sessions[id].Repr(), Lent(x)
      ensures Pending(id, old(View()), C.Control(old(sessions[id].Link()), old(sessions[id].EventOf(x))), effects)
      ensures wheel.home == old(wheel.home)
    {
      ghost var w, l, e := View(), sessions[id].Link(), sessions[id].EventOf(x);
      StillAlive(id);
      sessions[id].DueIsEnabled(x);
      effects := RunHandler(id, x);
      IsPending(id, w, l, e);
    }

    // Something happens to a session, other than the expiry of its timer.
    method OnSession(id: nat, x: Occurrence) returns (ghost token: Node)
      requires Valid() && W.Running(View()) && id in sessions
      requires sessions[id].Due(x) && Foreign(id, Lent(x))
      modifies this, wheel, wheel.home.Keys, sessions[id].Repr(), Lent(x)
      ensures Valid()
      ensures var e := W.Session(id, C.Control(old(sessions[id].Link()), old(sessions[id].EventOf(x))), token);
              W.Enabled(old(View()), e) && View() == W.Step(old(View()), e)
    {
      ghost var w, l, e := View(), sessions[id].Link(), sessions[id].EventOf(x);
      StillAlive(id);
      var effects := Handle(id, x);
      token := Settle(id, effects, w, C.Control(l, e));
    }

    // ---- a tick ----

    // The wheel turns.
    method Turn() returns (fired: seq<Node>)
      requires Shell()
      modifies wheel
      ensures Shell() && View() == old(View()).(wheel := Ticked(old(wheel.View())))
      ensures Distinct(fired) && forall n :: n in fired <==> n in Firing(old(wheel.View()))
      ensures forall i :: i in sessions ==> sessions[i].Repr() == old(sessions[i].Repr())
    {
      ghost var was := Conns();
      fired := wheel.Tick();
      SessionsStay();
      SameMap(was, Conns());
    }

    twostate lemma SessionsStay()
      requires old(AllGood()) && old(Disjoint(AllReprs())) && WheelGrew() && unchanged(`sessions)
      requires forall o: object ::
                 old(allocated(o)) && o != this && o != wheel && o !in old(wheel.home.Keys) ==> unchanged(o)
      ensures AllGood() && Disjoint(AllReprs())
      ensures forall i :: i in sessions ==> sessions[i].Repr() == old(sessions[i].Repr())
      ensures Conns().Keys == old(Conns().Keys) && forall i :: i in Conns() ==> Conns()[i] == old(Conns())[i]
    {
      Asked();
      AllUnmoved();
      forall i | i in sessions ensures sessions[i].Repr() == old(sessions[i].Repr()) {
        assert Unmoved(i);
        sessions[i].Stays();
      }
    }

    // The handler of one token: its session asks to terminate.
    method TimeOut(id: nat)
      requires Shell() && id in sessions && sessions[id].Alive() && sessions[id].life.armed
      modifies sessions[id].Repr()
      ensures Shell()
      ensures View() == old(View()).(sessions := old(Conns())[id := L.TimedOut(old(sessions[id].View())).conn])
      ensures unchanged(`sessions) && forall i :: i in sessions ==> sessions[i].Repr() == old(sessions[i].Repr())
    {
      var effects := sessions[id].OnTimeout();
      Handled((id, {}));
      forall i | i in sessions && i != id ensures sessions[i].Repr() == old(sessions[i].Repr()) { assert Stays(i); }
    }

    // In state v, though the wheel has turned already.
    ghost predicate Turned(v: W.World<Node>, turned: Wheel<Node>)
      reads *
    {
      Shell() && W.Inv(v) && W.Running(v) && View() == v.(wheel := turned) && Owns(v.wheel.due, v.owner)
    }

    lemma HandlerIsThere(node: Node, v: W.World<Node>, turned: Wheel<Node>)
      requires Turned(v, turned) && node in Firing(v.wheel)
      ensures node.handler in sessions && v.owner[node] == node.handler
      ensures sessions[node.handler].Alive() && sessions[node.handler].life.armed
      ensures v.sessions[node.handler] == sessions[node.handler].View()
    {
      W.FireIs(v, node);
      assert Conns() == v.sessions;
    }

    method CallHandler(node: Node, ghost v: W.World<Node>, ghost turned: Wheel<Node>)
      requires Turned(v, turned) && node in Firing(v.wheel) && node.handler in sessions
      modifies sessions[node.handler].Repr()
      ensures Turned(W.Step(v, W.Fire(node)), turned)
      ensures unchanged(`sessions) && forall i :: i in sessions ==> sessions[i].Repr() == old(sessions[i].Repr())
    {
      HandlerIsThere(node, v, turned);
      W.FireIs(v, node);
      TimeOut(node.handler);
    }

    // The next one of the tokens that are due, if all before it were called.
    ghost predicate Walking(w: W.World<Node>, fired: seq<Node>, i: nat, v: W.World<Node>)
      requires i <= |fired|
      reads *
    {
      Turned(v, Ticked(w.wheel)) && W.Walked(w, fired, i, v)
    }

    method CallNext(fired: seq<Node>, i: nat, ghost w: W.World<Node>, ghost v: W.World<Node>)
        returns (ghost next: W.World<Node>)
      requires i < |fired| && Distinct(fired) && fired[i] in Firing(w.wheel) && fired[i].handler in sessions
      requires Walking(w, fired, i, v)
      modifies sessions[fired[i].handler].Repr()
      ensures Walking(w, fired, i + 1, next)
      ensures unchanged(`sessions) && forall i :: i in sessions ==> sessions[i].Repr() == old(sessions[i].Repr())
    {
      W.WalkGoesOn(w, fired, i, v);
      CallHandler(fired[i], v, Ticked(w.wheel));
      next := W.Step(v, W.Fire(fired[i]));
    }

    lemma NextIsThere(fired: seq<Node>, i: nat, w: W.World<Node>, v: W.World<Node>)
      requires i < |fired| && Distinct(fired) && fired[i] in Firing(w.wheel) && Walking(w, fired, i, v)
      ensures fired[i].handler in sessions
    {
      W.WalkGoesOn(w, fired, i, v);
      HandlerIsThere(fired[i], v, Ticked(w.wheel));
    }

    // Once a second: the handlers of the tokens that are due, one by one, then the turn of the wheel.
    method OnTick() returns (fired: seq<Node>)
      requires Valid() && W.Running(View())
      modifies wheel, set i, o | i in sessions && o in sessions[i].Repr() :: o
      ensures Valid()
      ensures var events := W.Fires(fired) + [W.EndOfTick];
              W.Allowed(old(View()), events) && View() == W.Run(old(View()), events)
      ensures Distinct(fired) && forall n :: n in fired <==> n in Firing(old(wheel.View()))
    {
      ghost var w := View();
      fired := Turn();
      ghost var v := w;
      W.WalkStarts(w, fired);
      for i := 0 to |fired|
        invariant Walking(w, fired, i, v)
        invariant unchanged(`sessions)
        invariant forall i :: i in sessions ==> sessions[i].Repr() == old(sessions[i].Repr())
      {
        NextIsThere(fired, i, w, v);
        v := CallNext(fired, i, w, v);
      }
      W.WalkEnds(w, fired, v);
    }
  }
}
