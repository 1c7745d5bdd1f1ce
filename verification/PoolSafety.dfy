/** Invariants of the connection pool over every run of any number of requests. */
module PoolSafety {
  import opened Prelude
  import opened Pool

  /** The pool files every connection under the host it was dialled for. */
  predicate PoolInv(s: State) {
    && (forall h :: h in s.pool ==>
          s.pool[h] < |s.conns| && s.conns[s.pool[h]].host == h && s.conns[s.pool[h]].kind.H2?)
    && (forall c :: c in s.bodies ==> c < |s.conns| && s.conns[c].kind.H1?)
  }

  /** No connection has two places. */
  ghost predicate OnePlace(s: State) {
    forall c, p, q :: At(s, c, p) && At(s, c, q) ==> p == q
  }

  /** Every open connection has a place. */
  ghost predicate NoneLost(s: State) {
    forall c :: 0 <= c < |s.conns| && s.conns[c].open ==> Somewhere(s, c)
  }

  predicate Known(s: State, c: nat, host: string) {
    c < |s.conns| && s.conns[c].host == host
  }

  /** A call refers only to connections dialled for its host. */
  predicate CallInv(s: State, call: Call) {
    && (match call.at
        case Using(c) => Known(s, c, call.host)
        case Sent(c) => Known(s, c, call.host)
        case Taken(c) => Known(s, c, call.host)
        case Holding(c) => Known(s, c, call.host)
        case Ready(c) => Known(s, c, call.host) && s.conns[c].kind.H2?
        case _ => true)
    && forall i :: 0 <= i < |call.tried| ==> Known(s, call.tried[i], call.host)
  }

  ghost predicate Inv(s: State) {
    PoolInv(s) && OnePlace(s) && NoneLost(s) && forall t :: t in s.calls ==> CallInv(s, s.calls[t])
  }

  // ---- Preservation ----

  /** Connections keep their host and kind, and closed ones stay closed. */
  predicate Extends(s: State, d: State) {
    && |s.conns| <= |d.conns|
    && forall c :: 0 <= c < |s.conns| ==>
         && d.conns[c].host == s.conns[c].host && d.conns[c].kind == s.conns[c].kind
         && (d.conns[c].open ==> s.conns[c].open)
  }

  /**
   d differs from s only in that some connections left the place recorded in left, and moved,
   one of them or new, has place p.
   */
  lemma Relocate(s: State, d: State, left: map<nat, Place>, moved: nat, p: Option<Place>)
    requires OnePlace(s) && NoneLost(s)
    requires forall c :: c in left ==> At(s, c, left[c])
    requires forall c, q :: At(d, c, q) ==>
               (At(s, c, q) && !(c in left && left[c] == q)) || (p == Some(q) && c == moved)
    requires forall c, q :: At(s, c, q) && c !in left ==> At(d, c, q)
    requires p.Some? ==> At(d, moved, p.value) && (moved in left || forall q :: !At(s, moved, q))
    requires forall c :: 0 <= c < |d.conns| && d.conns[c].open ==>
               (p.Some? && c == moved) || (c < |s.conns| && s.conns[c].open && c !in left)
    ensures OnePlace(d) && NoneLost(d)
  {
    forall c | 0 <= c < |d.conns| && d.conns[c].open ensures Somewhere(d, c) {
      if p.Some? && c == moved {
        assert At(d, c, p.value);
      } else {
        var q :| At(s, c, q);
        assert At(d, c, q);
      }
    }
  }

  /** The new state after one call moved, given the places of connections. */
  lemma MovedInv(s: State, d: State, t: nat)
    requires Inv(s) && Extends(s, d) && OnePlace(d) && NoneLost(d) && PoolInv(d)
    requires t in d.calls && CallInv(d, d.calls[t]) && d.calls == s.calls[t := d.calls[t]]
    ensures Inv(d)
  {
  }

  /** Closing connections keeps every place. */
  lemma SamePlaces(s: State, d: State)
    requires forall c, p :: At(d, c, p) <==> At(s, c, p)
    requires OnePlace(s) && NoneLost(s) && |d.conns| == |s.conns| && Extends(s, d)
    ensures OnePlace(d) && NoneLost(d)
  {
    forall c | 0 <= c < |d.conns| && d.conns[c].open ensures Somewhere(d, c) {
      var p :| At(s, c, p);
      assert At(d, c, p);
    }
  }

  /** A dead connection leaves the pool. */
  lemma DropDead(s: State, h: string)
    requires Inv(s) && h in s.pool && s.pool[h] !in OpenIds(s)
    ensures Inv(CloseIds(s, {s.pool[h]}).(pool := s.pool - {h}))
  {
    assert At(s, s.pool[h], InPool(h));
    Relocate(s, CloseIds(s, {s.pool[h]}).(pool := s.pool - {h}), map[s.pool[h] := InPool(h)], 0, None);
  }

  lemma LookupKeepsInv(s: State, t: nat)
    requires Inv(s) && t in s.calls && s.calls[t].at.Starting?
    ensures Inv(Advance(s, t, s.calls[t], Lookup(t)).value)
  {
    var call := s.calls[t];
    var d := Advance(s, t, call, Lookup(t)).value;
    var h := call.host;
    if h in s.pool && s.pool[h] !in OpenIds(s) {
      var e := CloseIds(s, {s.pool[h]}).(pool := s.pool - {h});
      DropDead(s, h);
      SamePlaces(e, d);
      MovedInv(e, d, t);
    } else {
      SamePlaces(s, d);
      MovedInv(s, d, t);
    }
  }

  lemma EvictKeepsInv(s: State, t: nat)
    requires Inv(s) && t in s.calls && s.calls[t].at.Evicting?
    ensures Inv(Advance(s, t, s.calls[t], Evict(t)).value)
  {
    var call := s.calls[t];
    var d := Advance(s, t, call, Evict(t)).value;
    var h := call.host;
    if h in s.pool {
      assert At(s, s.pool[h], InPool(h));
      Relocate(s, d, map[s.pool[h] := InPool(h)], s.pool[h], Some(InHand(t)));
    } else {
      SamePlaces(s, d);
    }
    MovedInv(s, d, t);
  }

  lemma DialKeepsInv(s: State, t: nat, kind: Kind)
    requires Inv(s) && t in s.calls && s.calls[t].at.Dialling?
    ensures Inv(Advance(s, t, s.calls[t], Dial(t, kind)).value)
  {
    var d := Advance(s, t, s.calls[t], Dial(t, kind)).value;
    var c := |s.conns|;
    forall p ensures !At(s, c, p) {
      if p.InHand? && p.t in s.calls { assert CallInv(s, s.calls[p.t]); }
    }
    Relocate(s, d, map[], c, Some(InHand(t)));
    MovedInv(s, d, t);
  }

  /** A call lets go of its connection: nobody has it now, so it must be closed. */
  lemma LetGo(s: State, d: State, t: nat)
    requires Inv(s) && t in s.calls && t in d.calls
    requires s.calls[t].at.Taken? || s.calls[t].at.Holding? || s.calls[t].at.Ready?
    requires d == CloseIds(s, {s.calls[t].at.c}).(calls := s.calls[t := d.calls[t]])
    requires forall c :: !HasInHand(d.calls[t], c)
    requires CallInv(d, d.calls[t])
    ensures Inv(d)
  {
    var c := s.calls[t].at.c;
    assert At(s, c, InHand(t));
    Relocate(s, d, map[c := InHand(t)], c, None);
    MovedInv(s, d, t);
  }

  /** A plain connection passes to the response body. */
  lemma HandToBody(s: State, t: nat, l: Label)
    requires Inv(s) && t in s.calls && Advance(s, t, s.calls[t], l).Some? && l.PlainExchange? && l.ok
    ensures Inv(Advance(s, t, s.calls[t], l).value)
  {
    var d := Advance(s, t, s.calls[t], l).value;
    var c := s.calls[t].at.c;
    ToBody(s, d, t, c);
    MovedInv(s, d, t);
  }

  lemma ToBody(s: State, d: State, t: nat, c: nat)
    requires OnePlace(s) && NoneLost(s) && t in s.calls && s.calls[t].at == Holding(c) && c < |s.conns|
    requires t in d.calls && d.calls == s.calls[t := d.calls[t]] && forall x :: !HasInHand(d.calls[t], x)
    requires d.pool == s.pool && d.conns == s.conns && d.bodies == s.bodies + {c}
    ensures OnePlace(d) && NoneLost(d)
  {
    assert At(s, c, InHand(t));
    Relocate(s, d, map[c := InHand(t)], c, Some(InBody));
  }

  lemma ReleaseKeepsInv(s: State, t: nat, l: Label)
    requires Inv(s) && t in s.calls && Advance(s, t, s.calls[t], l).Some?
    requires l.CloseTaken? || l.PlainExchange? || (l.Handshake? && !l.ok)
    ensures Inv(Advance(s, t, s.calls[t], l).value)
  {
    if l.PlainExchange? && l.ok {
      HandToBody(s, t, l);
    } else {
      LetGo(s, Advance(s, t, s.calls[t], l).value, t);
    }
  }

  /** Adoption into an empty slot. */
  lemma IntoEmptySlot(s: State, d: State, t: nat)
    requires Inv(s) && t in s.calls && s.calls[t].at.Ready? && s.calls[t].host !in s.pool
    requires t in d.calls && CallInv(d, d.calls[t]) && forall c :: !HasInHand(d.calls[t], c)
    requires d == s.(pool := s.pool[s.calls[t].host := s.calls[t].at.c], calls := s.calls[t := d.calls[t]])
    ensures Inv(d)
  {
    var c := s.calls[t].at.c;
    assert At(s, c, InHand(t));
    Relocate(s, d, map[c := InHand(t)], c, Some(InPool(s.calls[t].host)));
    MovedInv(s, d, t);
  }

  /** Adoption into an empty or dead slot. */
  lemma Publishing(s: State, t: nat)
    requires Inv(s) && t in s.calls && s.calls[t].at.Ready?
    requires s.calls[t].host in s.pool ==> s.pool[s.calls[t].host] !in OpenIds(s)
    ensures Inv(Advance(s, t, s.calls[t], Adopt(t)).value)
  {
    var h := s.calls[t].host;
    var d := Advance(s, t, s.calls[t], Adopt(t)).value;
    if h in s.pool {
      DropDead(s, h);
      var e := CloseIds(s, {s.pool[h]}).(pool := s.pool - {h});
      assert e.pool[h := s.calls[t].at.c] == d.pool;
      IntoEmptySlot(e, d, t);
    } else {
      assert CloseIds(s, {}).conns == s.conns;
      IntoEmptySlot(s, d, t);
    }
  }

  lemma AdoptKeepsInv(s: State, t: nat)
    requires Inv(s) && t in s.calls && s.calls[t].at.Ready?
    ensures Inv(Advance(s, t, s.calls[t], Adopt(t)).value)
  {
    var h := s.calls[t].host;
    if h in s.pool && s.pool[h] in OpenIds(s) {
      LetGo(s, Advance(s, t, s.calls[t], Adopt(t)).value, t);
    } else {
      Publishing(s, t);
    }
  }

  /** Steps that leave every connection where it is. */
  lemma StayKeepsInv(s: State, t: nat, l: Label)
    requires Inv(s) && t in s.calls && Advance(s, t, s.calls[t], l).Some?
    requires l.Send? || l.Answer? || l.Resume? || l.DialFails? || (l.Handshake? && l.ok)
    ensures Inv(Advance(s, t, s.calls[t], l).value)
  {
    var call := s.calls[t];
    var d := Advance(s, t, call, l).value;
    MovedOnly(s, t, l);
    SamePlaces(s, d);
    MovedInv(s, d, t);
  }

  lemma MovedOnly(s: State, t: nat, l: Label)
    requires Inv(s) && t in s.calls && Advance(s, t, s.calls[t], l).Some?
    requires l.Send? || l.Answer? || l.Resume? || l.DialFails? || (l.Handshake? && l.ok)
    ensures var d := Advance(s, t, s.calls[t], l).value;
            && d.pool == s.pool && d.conns == s.conns && d.bodies == s.bodies
            && t in d.calls && d.calls == s.calls[t := d.calls[t]]
            && (forall c :: HasInHand(d.calls[t], c) <==> HasInHand(s.calls[t], c))
            && CallInv(s, d.calls[t])
  {
  }

  lemma CloseAllKeepsInv(s: State)
    requires Inv(s)
    ensures Inv(Step(s, CloseAll).value)
  {
    var d := Step(s, CloseAll).value;
    var left := map c | c in s.pool.Values :: InPool(s.conns[c].host);
    forall c | c in left ensures At(s, c, left[c]) {
      var h :| h in s.pool && s.pool[h] == c;
    }
    Relocate(s, d, left, 0, None);
  }

  lemma BodyClosedKeepsInv(s: State, c: nat)
    requires Inv(s) && c in s.bodies
    ensures Inv(Step(s, BodyClosed(c)).value)
  {
    assert At(s, c, InBody);
    Relocate(s, Step(s, BodyClosed(c)).value, map[c := InBody], c, None);
  }

  lemma EnvironmentKeepsInv(s: State, l: Label)
    requires Inv(s) && Step(s, l).Some? && (l.Begin? || l.Drop?)
    ensures Inv(Step(s, l).value)
  {
    var d := Step(s, l).value;
    SamePlaces(s, d);
    if l.Begin? { MovedInv(s, d, l.t); }
  }

  lemma StepKeepsInv(s: State, l: Label)
    requires Inv(s) && Step(s, l).Some?
    ensures Inv(Step(s, l).value)
  {
    match l
    case Begin(_, _, _) => EnvironmentKeepsInv(s, l);
    case BodyClosed(c) => BodyClosedKeepsInv(s, c);
    case Drop(_) => EnvironmentKeepsInv(s, l);
    case CloseAll => CloseAllKeepsInv(s);
    case Lookup(t) => LookupKeepsInv(s, t);
    case Evict(t) => EvictKeepsInv(s, t);
    case Dial(t, kind) => DialKeepsInv(s, t, kind);
    case Adopt(t) => AdoptKeepsInv(s, t);
    case CloseTaken(t) => ReleaseKeepsInv(s, t, l);
    case PlainExchange(t, _, _) => ReleaseKeepsInv(s, t, l);
    case Handshake(t, ok) => if ok { StayKeepsInv(s, t, l); } else { ReleaseKeepsInv(s, t, l); }
    case Send(t) => StayKeepsInv(s, t, l);
    case Answer(t, _) => StayKeepsInv(s, t, l);
    case Resume(t) => StayKeepsInv(s, t, l);
    case DialFails(t) => StayKeepsInv(s, t, l);
  }

  lemma {:induction false} RunKeepsInv(ls: seq<Label>)
    requires Exec(EMPTY, ls).Some?
    ensures Inv(Exec(EMPTY, ls).value)
  {
    if ls == [] {
      assert forall c, p :: !At(EMPTY, c, p);
    } else {
      RunKeepsInv(ls[..|ls| - 1]);
      StepKeepsInv(Exec(EMPTY, ls[..|ls| - 1]).value, ls[|ls| - 1]);
    }
  }

  /**
   No connection is leaked: in every reachable state of every interleaving, each connection
   ever dialled is closed, or is in exactly one of these places: pooled under the host it was
   dialled for, in the hands of one call in progress, or owned by an HTTP/1.1 response body.
   */
  lemma NoLeak(ls: seq<Label>, c: nat)
    requires Exec(EMPTY, ls).Some? && c < |Exec(EMPTY, ls).value.conns| && Exec(EMPTY, ls).value.conns[c].open
    ensures exists p :: At(Exec(EMPTY, ls).value, c, p)
                        && (forall q :: At(Exec(EMPTY, ls).value, c, q) ==> q == p)
                        && (p.InPool? ==> Exec(EMPTY, ls).value.conns[c].host == p.host)
  {
    RunKeepsInv(ls);
    var s := Exec(EMPTY, ls).value;
    assert Somewhere(s, c);
    var p :| At(s, c, p);
    assert forall q :: At(s, c, q) ==> q == p;
  }

  predicate Quiet(s: State) {
    forall t :: t in s.calls ==> s.calls[t].at.Finished?
  }

  /** Closing an idle RoundTripper closes every connection no response body still owns. */
  lemma CloseWhenQuiet(ls: seq<Label>, c: nat)
    requires Exec(EMPTY, ls).Some? && Quiet(Exec(EMPTY, ls).value)
    requires c < |Exec(EMPTY, ls).value.conns| && Step(Exec(EMPTY, ls).value, CloseAll).value.conns[c].open
    ensures c in Exec(EMPTY, ls).value.bodies
  {
    var s := Exec(EMPTY, ls).value;
    RunKeepsInv(ls);
    assert s.conns[c].open && Somewhere(s, c);
    assert forall h :: h in s.pool ==> s.pool[h] in s.pool.Values;
  }

  lemma HeldIsUnpooled(s: State, t: nat, h: string)
    requires OnePlace(s) && t in s.calls && (s.calls[t].at.Ready? || s.calls[t].at.Holding?) && h in s.pool
    ensures s.pool[h] != s.calls[t].at.c
  {
    var c := s.calls[t].at.c;
    assert At(s, c, InHand(t));
    assert !At(s, c, InPool(h));
  }

  // ---- What one request writes on ----

  /** c has left its dialler's hands: it is no longer waiting to be adopted. */
  predicate Published(s: State, c: nat) {
    c < |s.conns| && forall t :: t in s.calls ==> s.calls[t].at != Holding(c) && s.calls[t].at != Ready(c)
  }

  /** c can never be handed out by the pool again. */
  predicate Retired(s: State, c: nat) {
    Published(s, c) && c !in s.pool.Values
  }

  ghost predicate AllRetired(s: State, cs: seq<nat>) {
    forall i :: 0 <= i < |cs| ==> Retired(s, cs[i])
  }

  ghost predicate Distinct(cs: seq<nat>) {
    forall i, j :: 0 <= i < j < |cs| ==> cs[i] != cs[j]
  }

  /** How many connections the call may have written on at this point. */
  function Allowed(call: Call): nat {
    match call.at
    case Starting => 0
    case Using(_) => if call.second && !call.body then 1 else 0
    case Holding(_) => if call.body then 0 else 1
    case Ready(_) => if call.body then 0 else 1
    case Dialling => if call.body then 0 else 1
    case _ => if call.second && !call.body then 2 else 1
  }

  ghost predicate TriedInv(s: State, call: Call) {
    && |call.tried| <= Allowed(call)
    && (call.at.Holding? || call.at.Ready? ==> call.second)
    && Distinct(call.tried)
    && (forall i :: 0 <= i < |call.tried| ==> Published(s, call.tried[i]))
    && (match call.at
        case Starting => !call.second
        case Using(c) => Published(s, c) && c !in call.tried && AllRetired(s, call.tried)
        case Sent(c) => Published(s, c)
        case Evicting => true
        case Finished => true
        case Dialling => !call.second && AllRetired(s, call.tried)
        case _ => AllRetired(s, call.tried))
  }

  ghost predicate AllTried(s: State) {
    forall t :: t in s.calls ==> TriedInv(s, s.calls[t])
  }

  /** The pool only ever gains a connection from the hands of the call that adopts it. */
  lemma PoolSources(s: State, l: Label)
    requires Step(s, l).Some?
    ensures forall h :: h in Step(s, l).value.pool ==>
              || (h in s.pool && s.pool[h] == Step(s, l).value.pool[h])
              || (l.Adopt? && l.t in s.calls && s.calls[l.t].at == Ready(Step(s, l).value.pool[h]))
  {
  }

  lemma UnpooledStays(s: State, l: Label, c: nat)
    requires Published(s, c) && Step(s, l).Some? && c !in s.pool.Values
    ensures c !in Step(s, l).value.pool.Values
  {
    PoolSources(s, l);
  }

  /** Once published, or retired, for ever. */
  lemma PublishedStays(s: State, l: Label, c: nat)
    requires Inv(s) && Published(s, c) && Step(s, l).Some?
    ensures Published(Step(s, l).value, c)
    ensures c !in s.pool.Values ==> c !in Step(s, l).value.pool.Values
  {
    if c !in s.pool.Values { UnpooledStays(s, l, c); }
    forall t | t in Step(s, l).value.calls
      ensures Step(s, l).value.calls[t].at != Holding(c) && Step(s, l).value.calls[t].at != Ready(c)
    {
      HandSource(s, l, t);
    }
  }

  /** What a call has in its hands before adoption it had before the step, or has just dialled. */
  lemma HandSource(s: State, l: Label, t: nat)
    requires Step(s, l).Some? && t in Step(s, l).value.calls
    ensures var at := Step(s, l).value.calls[t].at;
            at.Holding? || at.Ready? ==>
              at.c == |s.conns| || (t in s.calls && (s.calls[t].at == Holding(at.c) || s.calls[t].at == Ready(at.c)))
    ensures |s.conns| <= |Step(s, l).value.conns|
  {
  }

  /** Calls other than the acting one keep what they know. */
  lemma OthersKeepTried(s: State, l: Label, call: Call)
    requires Inv(s) && TriedInv(s, call) && Step(s, l).Some?
    ensures TriedInv(Step(s, l).value, call)
  {
    if call.at.Using? || call.at.Sent? { PublishedStays(s, l, call.at.c); }
    TriedStays(s, l, call);
  }

  /** A pooled connection is not in anyone's hands. */
  lemma PooledIsPublished(s: State, h: string)
    requires Inv(s) && h in s.pool
    ensures Published(s, s.pool[h])
  {
    var c := s.pool[h];
    assert At(s, c, InPool(h));
    forall t | t in s.calls ensures s.calls[t].at != Holding(c) && s.calls[t].at != Ready(c) {
      assert !At(s, c, InHand(t));
    }
  }

  /** A connection held by one call is held by no other. */
  lemma HeldByOne(s: State, t: nat, u: nat)
    requires Inv(s) && t in s.calls && u in s.calls && t != u
    requires s.calls[t].at.Holding? || s.calls[t].at.Ready?
    ensures s.calls[u].at != Holding(s.calls[t].at.c) && s.calls[u].at != Ready(s.calls[t].at.c)
    ensures s.calls[t].at.c !in s.pool.Values
  {
    var c := s.calls[t].at.c;
    assert At(s, c, InHand(t));
    assert !At(s, c, InHand(u));
    assert forall h :: h in s.pool ==> !At(s, c, InPool(h));
  }

  lemma LookupTried(s: State, t: nat)
    requires Inv(s) && AllTried(s) && t in s.calls && s.calls[t].at.Starting?
    ensures TriedInv(Step(s, Lookup(t)).value, Step(s, Lookup(t)).value.calls[t])
  {
    var h := s.calls[t].host;
    if h in s.pool {
      PooledIsPublished(s, h);
      PublishedStays(s, Lookup(t), s.pool[h]);
    }
  }

  lemma EvictTried(s: State, t: nat)
    requires Inv(s) && AllTried(s) && t in s.calls && s.calls[t].at.Evicting?
    ensures TriedInv(Step(s, Evict(t)).value, Step(s, Evict(t)).value.calls[t])
  {
    var call, d := s.calls[t], Step(s, Evict(t)).value;
    forall i | 0 <= i < |call.tried| ensures Retired(d, call.tried[i]) {
      PublishedStays(s, Evict(t), call.tried[i]);
      assert Known(s, call.tried[i], call.host);
    }
  }

  lemma AdoptTried(s: State, t: nat)
    requires Inv(s) && AllTried(s) && t in s.calls && s.calls[t].at.Ready?
    ensures TriedInv(Step(s, Adopt(t)).value, Step(s, Adopt(t)).value.calls[t])
  {
    var call, d := s.calls[t], Step(s, Adopt(t)).value;
    var c := call.at.c;
    forall i | 0 <= i < |call.tried| ensures Retired(d, call.tried[i]) && call.tried[i] != c {
      assert Retired(s, call.tried[i]);
      PublishedStays(s, Adopt(t), call.tried[i]);
    }
    forall u | u in s.calls && u != t ensures s.calls[u].at != Holding(c) && s.calls[u].at != Ready(c) {
      HeldByOne(s, t, u);
    }
    if call.host in s.pool {
      PooledIsPublished(s, call.host);
      PublishedStays(s, Adopt(t), s.pool[call.host]);
    }
  }

  lemma PlainTried(s: State, t: nat, written: bool, ok: bool)
    requires Inv(s) && AllTried(s) && t in s.calls && Step(s, PlainExchange(t, written, ok)).Some?
    ensures var d := Step(s, PlainExchange(t, written, ok)).value; TriedInv(d, d.calls[t])
  {
    PlainPublishes(s, t, written, ok);
    TriedStays(s, PlainExchange(t, written, ok), s.calls[t]);
  }

  lemma PlainPublishes(s: State, t: nat, written: bool, ok: bool)
    requires Inv(s) && AllTried(s) && t in s.calls && Step(s, PlainExchange(t, written, ok)).Some?
    ensures Published(Step(s, PlainExchange(t, written, ok)).value, s.calls[t].at.c)
    ensures s.calls[t].at.c !in s.calls[t].tried
  {
    var c := s.calls[t].at.c;
    forall u | u in s.calls && u != t ensures s.calls[u].at != Holding(c) && s.calls[u].at != Ready(c) {
      HeldByOne(s, t, u);
    }
    assert !Published(s, c);
    assert CallInv(s, s.calls[t]) && TriedInv(s, s.calls[t]);
  }

  lemma SimpleTried(s: State, t: nat, l: Label)
    requires Inv(s) && AllTried(s) && t in s.calls && l.Begin? == false && Step(s, l).Some?
    requires l == Send(t) || l == CloseTaken(t) || l == Resume(t) || l == DialFails(t)
             || (l.Answer? && l.t == t) || (l.Dial? && l.t == t) || (l.Handshake? && l.t == t)
    ensures TriedInv(Step(s, l).value, Step(s, l).value.calls[t])
  {
    var call, d := s.calls[t], Step(s, l).value;
    if call.at.Using? || call.at.Sent? { PublishedStays(s, l, call.at.c); }
    TriedStays(s, l, call);
    if l.Send? { SendTried(s, t); }
  }

  /** The connection a call sends on was not tried before, and is now. */
  lemma SendTried(s: State, t: nat)
    requires Inv(s) && AllTried(s) && t in s.calls && Step(s, Send(t)).Some?
    ensures var d := Step(s, Send(t)).value;
            Distinct(d.calls[t].tried) && |d.calls[t].tried| <= Allowed(d.calls[t])
  {
    assert TriedInv(s, s.calls[t]);
  }

  lemma TriedStays(s: State, l: Label, call: Call)
    requires Inv(s) && TriedInv(s, call) && Step(s, l).Some?
    ensures forall i :: 0 <= i < |call.tried| ==> Published(Step(s, l).value, call.tried[i])
    ensures AllRetired(s, call.tried) ==> AllRetired(Step(s, l).value, call.tried)
  {
    var d := Step(s, l).value;
    forall i | 0 <= i < |call.tried| ensures Published(d, call.tried[i]) {
      PublishedStays(s, l, call.tried[i]);
    }
    if AllRetired(s, call.tried) {
      forall i | 0 <= i < |call.tried| ensures Retired(d, call.tried[i]) {
        assert Retired(s, call.tried[i]);
        PublishedStays(s, l, call.tried[i]);
      }
    }
  }

  /** The acting call keeps its own record right. */
  lemma OwnTried(s: State, l: Label)
    requires Inv(s) && AllTried(s) && Step(s, l).Some? && !l.BodyClosed? && !l.Drop? && !l.CloseAll?
    ensures l.t in Step(s, l).value.calls && TriedInv(Step(s, l).value, Step(s, l).value.calls[l.t])
  {
    if l.Lookup? {
      LookupTried(s, l.t);
    } else if l.Evict? {
      EvictTried(s, l.t);
    } else if l.Adopt? {
      AdoptTried(s, l.t);
    } else if l.PlainExchange? {
      PlainTried(s, l.t, l.written, l.ok);
    } else if !l.Begin? {
      SimpleTried(s, l.t, l);
    }
  }

  lemma StepKeepsTried(s: State, l: Label)
    requires Inv(s) && AllTried(s) && Step(s, l).Some?
    ensures AllTried(Step(s, l).value)
  {
    var d := Step(s, l).value;
    forall u | u in d.calls ensures TriedInv(d, d.calls[u]) {
      if l.BodyClosed? || l.Drop? || l.CloseAll? || u != l.t {
        assert u in s.calls && d.calls[u] == s.calls[u];
        OthersKeepTried(s, l, s.calls[u]);
      } else {
        OwnTried(s, l);
      }
    }
  }

  lemma {:induction false} RunKeepsTried(ls: seq<Label>)
    requires Exec(EMPTY, ls).Some?
    ensures Inv(Exec(EMPTY, ls).value) && AllTried(Exec(EMPTY, ls).value)
  {
    RunKeepsInv(ls);
    if ls != [] {
      RunKeepsTried(ls[..|ls| - 1]);
      StepKeepsTried(Exec(EMPTY, ls[..|ls| - 1]).value, ls[|ls| - 1]);
    }
  }

  /**
   Key integrity and bounded resending: over all runs a request is written only on connections
   dialled for its own host, never twice on the same one, on at most one when it has a body and
   on at most two otherwise.
   */
  lemma BoundedResend(ls: seq<Label>, t: nat)
    requires Exec(EMPTY, ls).Some? && t in Exec(EMPTY, ls).value.calls
    ensures var s := Exec(EMPTY, ls).value;
            var call := s.calls[t];
            && |call.tried| <= (if call.body then 1 else 2)
            && Distinct(call.tried)
            && forall i :: 0 <= i < |call.tried| ==> Known(s, call.tried[i], call.host)
  {
    RunKeepsTried(ls);
    var s := Exec(EMPTY, ls).value;
    assert CallInv(s, s.calls[t]) && TriedInv(s, s.calls[t]);
  }
}
