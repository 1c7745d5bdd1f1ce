/**
 What closing the connection pool leaves behind: exactly when requests already in progress can
 still put an open connection into it.
 */
module PoolClose {
  import opened Prelude
  import opened Pool
  import opened PoolSafety

  predicate PoolsOpen(s: State) {
    exists h :: h in s.pool && s.pool[h] in OpenIds(s)
  }

  predicate NoneBegins(ls: seq<Label>) {
    forall i :: 0 <= i < |ls| ==> !ls[i].Begin?
  }

  /** Without any new request, the pool can come to hold an open connection. */
  ghost predicate CanPool(s: State) {
    exists ls :: NoneBegins(ls) && Exec(s, ls).Some? && PoolsOpen(Exec(s, ls).value)
  }

  /**
   The call has yet to dial, or will dial again (no body, first attempt), or holds an open
   HTTP/2 connection that it has yet to adopt.
   */
  predicate MayStillPool(s: State, call: Call) {
    match call.at
    case Starting => true
    case Dialling => true
    case Holding(c) => c in OpenIds(s) && s.conns[c].kind.H2?
    case Ready(c) => c in OpenIds(s)
    case Finished => false
    case _ => !call.body && !call.second
  }

  ghost predicate SomeMayPool(s: State) {
    exists t :: t in s.calls && MayStillPool(s, s.calls[t])
  }

  // ---- If nobody may, the pool stays without open connections ----

  ghost predicate Barren(s: State) {
    && !PoolsOpen(s)
    && (forall t :: t in s.calls ==> !MayStillPool(s, s.calls[t]))
    && (forall t :: t in s.calls && (s.calls[t].at.Holding? || s.calls[t].at.Ready?) ==> s.calls[t].second)
  }

  /** Connections only ever close, and keep their kind. */
  lemma OpenShrinks(s: State, l: Label)
    requires Step(s, l).Some? && !l.Dial?
    ensures OpenIds(Step(s, l).value) <= OpenIds(s)
    ensures |Step(s, l).value.conns| == |s.conns|
    ensures forall c :: 0 <= c < |s.conns| ==> Step(s, l).value.conns[c].kind == s.conns[c].kind
  {
  }

  lemma NeverDials(s: State, l: Label)
    requires Barren(s)
    ensures l.Dial? ==> Step(s, l).None?
  {
    if l.Dial? && l.t in s.calls {
      assert !MayStillPool(s, s.calls[l.t]);
    }
  }

  /** The calls that do not act stay as they are. */
  lemma OthersStay(s: State, l: Label, t: nat)
    requires Step(s, l).Some? && !l.Begin? && t in Step(s, l).value.calls
    requires l.BodyClosed? || l.Drop? || l.CloseAll? || l.t != t
    ensures t in s.calls && Step(s, l).value.calls[t] == s.calls[t]
  {
  }

  lemma ActorStays(s: State, l: Label)
    requires Barren(s) && Step(s, l).Some? && !l.Begin? && !l.BodyClosed? && !l.Drop? && !l.CloseAll?
    ensures l.t in s.calls && !MayStillPool(Step(s, l).value, Step(s, l).value.calls[l.t])
    ensures Step(s, l).value.calls[l.t].at.Holding? || Step(s, l).value.calls[l.t].at.Ready? ==>
              Step(s, l).value.calls[l.t].second
  {
    assert l.t in s.calls && !MayStillPool(s, s.calls[l.t]);
    NeverDials(s, l);
    OpenShrinks(s, l);
  }

  /** A call that cannot pool any more never dials, and adopts only what is closed. */
  lemma CallStaysBarren(s: State, l: Label, t: nat)
    requires Barren(s) && Step(s, l).Some? && !l.Begin? && !l.Dial?
    requires t in Step(s, l).value.calls
    ensures !MayStillPool(Step(s, l).value, Step(s, l).value.calls[t])
    ensures Step(s, l).value.calls[t].at.Holding? || Step(s, l).value.calls[t].at.Ready? ==>
              Step(s, l).value.calls[t].second
  {
    if l.BodyClosed? || l.Drop? || l.CloseAll? || l.t != t {
      OthersStay(s, l, t);
      OpenShrinks(s, l);
    } else {
      ActorStays(s, l);
    }
  }

  lemma PoolStaysBarren(s: State, l: Label)
    requires Barren(s) && Step(s, l).Some? && !l.Begin? && !l.Dial?
    ensures !PoolsOpen(Step(s, l).value)
  {
    var d := Step(s, l).value;
    OpenShrinks(s, l);
    PoolSources(s, l);
    forall h | h in d.pool ensures d.pool[h] !in OpenIds(d) {
      if h in s.pool && s.pool[h] == d.pool[h] {
        assert s.pool[h] !in OpenIds(s);
      } else {
        assert !MayStillPool(s, s.calls[l.t]);
      }
    }
  }

  lemma StepStaysBarren(s: State, l: Label)
    requires Barren(s) && Step(s, l).Some? && !l.Begin?
    ensures Barren(Step(s, l).value)
  {
    var d := Step(s, l).value;
    NeverDials(s, l);
    PoolStaysBarren(s, l);
    forall t | t in d.calls
      ensures !MayStillPool(d, d.calls[t])
      ensures d.calls[t].at.Holding? || d.calls[t].at.Ready? ==> d.calls[t].second
    {
      CallStaysBarren(s, l, t);
    }
  }

  lemma {:induction false} RunStaysBarren(s: State, ls: seq<Label>)
    requires Barren(s) && NoneBegins(ls) && Exec(s, ls).Some?
    ensures Barren(Exec(s, ls).value)
  {
    if ls != [] {
      RunStaysBarren(s, ls[..|ls| - 1]);
      StepStaysBarren(Exec(s, ls[..|ls| - 1]).value, ls[|ls| - 1]);
    }
  }

  // ---- If somebody may, this is how ----

  lemma {:induction false} ExecFirst(s: State, l: Label, ls: seq<Label>)
    requires Step(s, l).Some?
    ensures Exec(s, [l] + ls) == Exec(Step(s, l).value, ls)
  {
    if ls == [] {
      assert [l] + ls == [l] && [l][..0] == [];
      assert Exec(s, []) == Some(s);
    } else {
      assert ([l] + ls)[..|[l] + ls| - 1] == [l] + ls[..|ls| - 1];
      ExecFirst(s, l, ls[..|ls| - 1]);
    }
  }

  /** One step towards pooling. */
  lemma Towards(s: State, l: Label, d: State)
    requires Step(s, l) == Some(d) && !l.Begin? && CanPool(d)
    ensures CanPool(s)
  {
    var ls :| NoneBegins(ls) && Exec(d, ls).Some? && PoolsOpen(Exec(d, ls).value);
    ExecFirst(s, l, ls);
    assert NoneBegins([l] + ls);
  }

  lemma NothingClosed(s: State)
    ensures CloseIds(s, {}) == s
  {
    assert CloseIds(s, {}).conns == s.conns;
  }

  lemma FromReady(s: State, t: nat)
    requires s.pool == map[] && t in s.calls && s.calls[t].at.Ready? && s.calls[t].at.c in OpenIds(s)
    ensures CanPool(s)
  {
    var d := Step(s, Adopt(t)).value;
    NothingClosed(s);
    assert d.pool[s.calls[t].host] in OpenIds(d);
    assert Exec(d, []) == Some(d) && NoneBegins([]);
    Towards(s, Adopt(t), d);
  }

  lemma FromHolding(s: State, t: nat)
    requires s.pool == map[] && t in s.calls && s.calls[t].at.Holding? && s.calls[t].at.c in OpenIds(s)
    requires s.conns[s.calls[t].at.c].kind.H2?
    ensures CanPool(s)
  {
    var d := Step(s, Handshake(t, true)).value;
    FromReady(d, t);
    Towards(s, Handshake(t, true), d);
  }

  lemma FromDialling(s: State, t: nat)
    requires s.pool == map[] && t in s.calls && s.calls[t].at.Dialling?
    ensures CanPool(s)
  {
    var d := Step(s, Dial(t, H2)).value;
    FromHolding(d, t);
    Towards(s, Dial(t, H2), d);
  }

  lemma FromStarting(s: State, t: nat)
    requires s.pool == map[] && t in s.calls && s.calls[t].at.Starting?
    ensures CanPool(s)
  {
    var d := Step(s, Lookup(t)).value;
    FromDialling(d, t);
    Towards(s, Lookup(t), d);
  }

  lemma FromEvicted(s: State, t: nat)
    requires s.pool == map[] && t in s.calls && s.calls[t].at.Evicted? && !s.calls[t].body && !s.calls[t].second
    ensures CanPool(s)
  {
    var d := Step(s, Resume(t)).value;
    FromDialling(d, t);
    Towards(s, Resume(t), d);
  }

  lemma FromTaken(s: State, t: nat)
    requires s.pool == map[] && t in s.calls && s.calls[t].at.Taken? && !s.calls[t].body && !s.calls[t].second
    ensures CanPool(s)
  {
    var d := Step(s, CloseTaken(t)).value;
    FromEvicted(d, t);
    Towards(s, CloseTaken(t), d);
  }

  lemma FromEvicting(s: State, t: nat)
    requires s.pool == map[] && t in s.calls && s.calls[t].at.Evicting? && !s.calls[t].body && !s.calls[t].second
    ensures CanPool(s)
  {
    var d := Step(s, Evict(t)).value;
    FromEvicted(d, t);
    Towards(s, Evict(t), d);
  }

  lemma FromSent(s: State, t: nat)
    requires s.pool == map[] && t in s.calls && s.calls[t].at.Sent? && !s.calls[t].body && !s.calls[t].second
    ensures CanPool(s)
  {
    var d := Step(s, Answer(t, false)).value;
    FromEvicting(d, t);
    Towards(s, Answer(t, false), d);
  }

  lemma FromUsing(s: State, t: nat)
    requires s.pool == map[] && t in s.calls && s.calls[t].at.Using? && !s.calls[t].body && !s.calls[t].second
    ensures CanPool(s)
  {
    var d := Step(s, Send(t)).value;
    if d.calls[t].at.Sent? { FromSent(d, t); } else { FromEvicting(d, t); }
    Towards(s, Send(t), d);
  }

  lemma FromAnywhere(s: State, t: nat)
    requires s.pool == map[] && t in s.calls && MayStillPool(s, s.calls[t])
    ensures CanPool(s)
  {
    match s.calls[t].at
    case Starting => FromStarting(s, t);
    case Dialling => FromDialling(s, t);
    case Holding(_) => FromHolding(s, t);
    case Ready(_) => FromReady(s, t);
    case Using(_) => FromUsing(s, t);
    case Sent(_) => FromSent(s, t);
    case Evicting => FromEvicting(s, t);
    case Taken(_) => FromTaken(s, t);
    case Evicted => FromEvicted(s, t);
  }

  // ---- Closing ----

  /** Closing does not change what any call may still do: what it closes is in no call's hands. */
  lemma CloseKeepsMayPool(s: State, t: nat)
    requires Inv(s) && t in s.calls
    ensures MayStillPool(Step(s, CloseAll).value, s.calls[t]) <==> MayStillPool(s, s.calls[t])
  {
    var call := s.calls[t];
    if call.at.Holding? || call.at.Ready? {
      forall h | h in s.pool ensures s.pool[h] != call.at.c {
        HeldIsUnpooled(s, t, h);
      }
    }
  }

  lemma CloseLeavesBarren(s: State)
    requires Inv(s) && AllTried(s) && !SomeMayPool(s)
    ensures Barren(Step(s, CloseAll).value)
  {
    var e := Step(s, CloseAll).value;
    forall t | t in e.calls
      ensures !MayStillPool(e, e.calls[t])
      ensures e.calls[t].at.Holding? || e.calls[t].at.Ready? ==> e.calls[t].second
    {
      CloseKeepsMayPool(s, t);
      assert TriedInv(s, s.calls[t]);
    }
  }

  /**
   After Close, the requests already in progress can leave an open connection in the pool if
   and only if, at the moment of closing, one of them has yet to dial, or will dial again
   because its first attempt fails and it has no body, or holds an open HTTP/2 connection it has
   yet to adopt.
   */
  lemma CloseMissesIff(ls: seq<Label>, s: State)
    requires Exec(EMPTY, ls) == Some(s)
    ensures CanPool(Step(s, CloseAll).value) <==> SomeMayPool(s)
  {
    RunKeepsTried(ls);
    var e := Step(s, CloseAll).value;
    if SomeMayPool(s) {
      var t :| t in s.calls && MayStillPool(s, s.calls[t]);
      CloseKeepsMayPool(s, t);
      FromAnywhere(e, t);
    } else {
      CloseLeavesBarren(s);
      forall more | NoneBegins(more) && Exec(e, more).Some? ensures !PoolsOpen(Exec(e, more).value) {
        RunStaysBarren(e, more);
      }
    }
  }

  // ---- The shortest run that shows it ----

  function OneCall(conns: seq<Dialled>, at: Where, second: bool): State {
    State(map[], conns, {}, map[0 := Call("h", false, at, second, [])])
  }

  const NEW := Dialled("h", H2, true)

  const BUSY := [Begin(0, "h", false), Lookup(0), Dial(0, H2), Handshake(0, true)]

  lemma FirstSteps()
    ensures Step(EMPTY, Begin(0, "h", false)) == Some(OneCall([], Starting, false))
    ensures Step(OneCall([], Starting, false), Lookup(0)) == Some(OneCall([], Dialling, false))
  {
    var started, dialling := OneCall([], Starting, false), OneCall([], Dialling, false);
    NothingClosed(started);
    assert started.calls[0 := dialling.calls[0]] == dialling.calls;
  }

  lemma DialSteps()
    ensures Step(OneCall([], Dialling, false), Dial(0, H2)) == Some(OneCall([NEW], Holding(0), true))
    ensures Step(OneCall([NEW], Holding(0), true), Handshake(0, true)) == Some(OneCall([NEW], Ready(0), true))
  {
    var dialling := OneCall([], Dialling, false);
    var holding, ready := OneCall([NEW], Holding(0), true), OneCall([NEW], Ready(0), true);
    assert dialling.calls[0 := holding.calls[0]] == holding.calls;
    assert holding.calls[0 := ready.calls[0]] == ready.calls;
    assert dialling.conns + [NEW] == holding.conns;
  }

  lemma LastSteps()
    ensures Step(OneCall([NEW], Ready(0), true), CloseAll) == Some(OneCall([NEW], Ready(0), true))
    ensures Step(OneCall([NEW], Ready(0), true), Adopt(0))
         == Some(OneCall([NEW], Using(0), true).(pool := map["h" := 0]))
  {
    var ready, using := OneCall([NEW], Ready(0), true), OneCall([NEW], Using(0), true);
    NothingClosed(ready);
    assert ready.pool.Values == {};
    assert ready.calls[0 := using.calls[0]] == using.calls;
  }

  lemma ExecLast(front: seq<Label>, l: Label, s: State)
    requires Exec(EMPTY, front) == Some(s)
    ensures Exec(EMPTY, front + [l]) == Step(s, l)
  {
    assert (front + [l])[..|front + [l]| - 1] == front;
  }

  /** Closing right before the adoption leaves the new connection pooled and open. */
  lemma AdoptionOutlivesClose()
    ensures Exec(EMPTY, BUSY) == Some(OneCall([NEW], Ready(0), true))
    ensures Exec(EMPTY, BUSY + [CloseAll] + [Adopt(0)]) == Some(OneCall([NEW], Using(0), true).(pool := map["h" := 0]))
    ensures PoolsOpen(OneCall([NEW], Using(0), true).(pool := map["h" := 0]))
  {
    FirstSteps();
    DialSteps();
    LastSteps();
    ExecLast([], Begin(0, "h", false), EMPTY);
    ExecLast([] + [BUSY[0]], BUSY[1], OneCall([], Starting, false));
    ExecLast([] + [BUSY[0]] + [BUSY[1]], BUSY[2], OneCall([], Dialling, false));
    ExecLast([] + [BUSY[0]] + [BUSY[1]] + [BUSY[2]], BUSY[3], OneCall([NEW], Holding(0), true));
    assert BUSY == [] + [BUSY[0]] + [BUSY[1]] + [BUSY[2]] + [BUSY[3]];
    ExecLast(BUSY, CloseAll, OneCall([NEW], Ready(0), true));
    ExecLast(BUSY + [CloseAll], Adopt(0), OneCall([NEW], Ready(0), true));
    assert "h" in OneCall([NEW], Using(0), true).(pool := map["h" := 0]).pool;
  }
}
