/** What each step of a request does to the pool and to the request, from every reachable state. */
module PoolLaws {
  import opened Prelude
  import opened Pool
  import opened PoolSafety

  /** An open connection is pooled for the host. */
  predicate Usable(s: State, host: string) {
    host in s.pool && s.pool[host] < |s.conns| && s.conns[s.pool[host]].open
  }

  predicate Acts(l: Label) {
    !l.Begin? && !l.BodyClosed? && !l.Drop? && !l.CloseAll?
  }

  /** The step may take the connection pooled for the host: eviction for that host, its own end, or closing all. */
  predicate MayTake(s: State, l: Label, host: string)
    requires host in s.pool
  {
    || l.CloseAll?
    || l == Drop(s.pool[host])
    || (l.Evict? && l.t in s.calls && s.calls[l.t].host == host)
  }

  // ---- A usable pooled connection survives ----

  lemma OthersSpare(s: State, l: Label, host: string)
    requires Inv(s) && Usable(s, host) && Step(s, l).Some? && !MayTake(s, l, host) && !Acts(l)
    ensures Usable(Step(s, l).value, host) && Step(s, l).value.pool[host] == s.pool[host]
  {
    if l.BodyClosed? {
      assert At(s, l.c, InBody) && At(s, s.pool[host], InPool(host));
    }
  }

  /** What a call holds is not what is pooled. */
  lemma HandIsUnpooled(s: State, t: nat, host: string)
    requires Inv(s) && host in s.pool && t in s.calls
    requires s.calls[t].at.Taken? || s.calls[t].at.Holding? || s.calls[t].at.Ready?
    ensures s.calls[t].at.c != s.pool[host]
  {
    assert At(s, s.calls[t].at.c, InHand(t));
    assert !At(s, s.calls[t].at.c, InPool(host));
  }

  lemma PoolersSpare(s: State, l: Label, host: string)
    requires Inv(s) && Usable(s, host) && Step(s, l).Some? && !MayTake(s, l, host)
    requires l.Lookup? || l.Adopt? || l.Evict?
    ensures Usable(Step(s, l).value, host) && Step(s, l).value.pool[host] == s.pool[host]
  {
    if l.Adopt? { HandIsUnpooled(s, l.t, host); }
  }

  lemma ReleasersSpare(s: State, l: Label, host: string)
    requires Inv(s) && Usable(s, host) && Step(s, l).Some? && (l.CloseTaken? || l.PlainExchange? || l.Handshake?)
    ensures Usable(Step(s, l).value, host) && Step(s, l).value.pool[host] == s.pool[host]
  {
    HandIsUnpooled(s, l.t, host);
  }

  /**
   An open connection that is pooled stays pooled and open, through every step of every request,
   except an eviction for its own host, its own end, and closing the whole pool. In particular
   no request loses its connection because another one adopts a new one.
   */
  lemma PooledSurvives(s: State, l: Label, host: string)
    requires Inv(s) && Usable(s, host) && Step(s, l).Some? && !MayTake(s, l, host)
    ensures Usable(Step(s, l).value, host) && Step(s, l).value.pool[host] == s.pool[host]
  {
    if !Acts(l) {
      OthersSpare(s, l, host);
    } else if l.Lookup? || l.Adopt? || l.Evict? {
      PoolersSpare(s, l, host);
    } else if l.CloseTaken? || l.PlainExchange? || l.Handshake? {
      ReleasersSpare(s, l, host);
    }
  }

  // ---- Where a request goes ----

  /** A look-up that finds an open connection uses it; otherwise the request dials, and a dead one is gone. */
  lemma LookupRoutes(s: State, t: nat)
    requires t in s.calls && s.calls[t].at.Starting?
    ensures var call, d := s.calls[t], Step(s, Lookup(t));
            && d.Some? && d.value.calls.Keys == s.calls.Keys
            && (Usable(s, call.host) ==>
                  d.value.pool == s.pool && d.value.conns == s.conns && d.value.calls[t].at == Using(s.pool[call.host]))
            && (!Usable(s, call.host) ==>
                  call.host !in d.value.pool && d.value.calls[t].at == Dialling && |d.value.conns| == |s.conns|)
  {
    NothingCloses(s);
  }

  lemma NothingCloses(s: State)
    ensures CloseIds(s, {}).conns == s.conns
  {
  }

  /** Adoption prefers an open pooled connection and closes the new one; otherwise the new one is pooled, open. */
  lemma AdoptRoutes(s: State, t: nat)
    requires Inv(s) && t in s.calls && s.calls[t].at.Ready?
    ensures var call, d := s.calls[t], Step(s, Adopt(t));
            && d.Some?
            && (Usable(s, call.host) ==>
                  && d.value.pool == s.pool && d.value.calls[t].at == Using(s.pool[call.host])
                  && !d.value.conns[call.at.c].open && d.value.conns[s.pool[call.host]].open)
            && (!Usable(s, call.host) ==>
                  && d.value.pool == s.pool[call.host := call.at.c] && d.value.calls[t].at == Using(call.at.c)
                  && (d.value.conns[call.at.c].open <==> s.conns[call.at.c].open)
                  && (call.host in s.pool ==> !d.value.conns[s.pool[call.host]].open))
  {
    assert CallInv(s, s.calls[t]);
    if s.calls[t].host in s.pool { HandIsUnpooled(s, t, s.calls[t].host); }
  }

  /** Sending writes on an open connection and counts as an attempt; on a closed one it fails at once. */
  lemma SendRoutes(s: State, t: nat)
    requires t in s.calls && s.calls[t].at.Using? && s.calls[t].at.c < |s.conns|
    ensures var call, d := s.calls[t], Step(s, Send(t));
            && d.Some? && d.value.pool == s.pool && d.value.conns == s.conns
            && (s.conns[call.at.c].open ==>
                  d.value.calls[t].at == Sent(call.at.c) && d.value.calls[t].tried == call.tried + [call.at.c])
            && (!s.conns[call.at.c].open ==> d.value.calls[t].at == Evicting && d.value.calls[t].tried == call.tried)
  {
  }

  /** An answer ends the request; a failure evicts, and then a request without a body dials once more. */
  lemma FailureRoutes(s: State, t: nat)
    requires t in s.calls
    ensures s.calls[t].at.Sent? ==>
              && Step(s, Answer(t, true)).Some? && Step(s, Answer(t, true)).value.calls[t].at == Finished
              && Step(s, Answer(t, false)).Some? && Step(s, Answer(t, false)).value.calls[t].at == Evicting
    ensures s.calls[t].at.Evicting? ==>
              && Step(s, Evict(t)).Some? && s.calls[t].host !in Step(s, Evict(t)).value.pool
              && Step(s, Evict(t)).value.calls[t].at
                 == if s.calls[t].host in s.pool then Taken(s.pool[s.calls[t].host]) else Evicted
    ensures s.calls[t].at.Taken? && s.calls[t].at.c < |s.conns| ==>
              && Step(s, CloseTaken(t)).Some? && !Step(s, CloseTaken(t)).value.conns[s.calls[t].at.c].open
              && Step(s, CloseTaken(t)).value.calls[t].at == Evicted
    ensures s.calls[t].at.Evicted? ==>
              && Step(s, Resume(t)).Some?
              && (Step(s, Resume(t)).value.calls[t].at == Dialling <==> !s.calls[t].body && !s.calls[t].second)
              && (Step(s, Resume(t)).value.calls[t].at == Finished <==> s.calls[t].body || s.calls[t].second)
  {
  }

  /** A dial gives the request one new open connection to its own host, on which it is past its first attempt. */
  lemma DialRoutes(s: State, t: nat, kind: Kind)
    requires t in s.calls && s.calls[t].at.Dialling?
    ensures var call, d := s.calls[t], Step(s, Dial(t, kind));
            && d.Some? && d.value.pool == s.pool && |d.value.conns| == |s.conns| + 1
            && d.value.conns[..|s.conns|] == s.conns
            && d.value.conns[|s.conns|] == Dialled(call.host, kind, true)
            && d.value.calls[t].at == Holding(|s.conns|) && d.value.calls[t].second
    ensures Step(s, DialFails(t)).Some? && Step(s, DialFails(t)).value.calls[t].at == Finished
  {
  }

  /** An HTTP/1.1 exchange hands the open connection to the response body, or closes it. */
  lemma PlainRoutes(s: State, t: nat, written: bool, ok: bool)
    requires t in s.calls && s.calls[t].at.Holding? && Step(s, PlainExchange(t, written, ok)).Some?
    ensures var c, d := s.calls[t].at.c, Step(s, PlainExchange(t, written, ok)).value;
            && d.pool == s.pool && c < |s.conns| && s.conns[c].kind.H1? && d.calls[t].at == Finished
            && (ok ==> d.conns == s.conns && d.bodies == s.bodies + {c} && written)
            && (!ok ==> !d.conns[c].open && d.bodies == s.bodies)
            && d.calls[t].tried == if written then s.calls[t].tried + [c] else s.calls[t].tried
  {
  }

  /** Closing a body closes the connection under it. */
  lemma BodyCloseRoutes(s: State, c: nat)
    requires c in s.bodies && c < |s.conns|
    ensures Step(s, BodyClosed(c)).Some? && !Step(s, BodyClosed(c)).value.conns[c].open
    ensures c !in Step(s, BodyClosed(c)).value.bodies
  {
  }

  /** A handshake makes the connection ready for adoption, open as it was, or closes it. */
  lemma HandshakeRoutes(s: State, t: nat, ok: bool)
    requires t in s.calls && s.calls[t].at.Holding? && Step(s, Handshake(t, ok)).Some?
    ensures var c, d := s.calls[t].at.c, Step(s, Handshake(t, ok)).value;
            && d.pool == s.pool && c < |s.conns| && s.conns[c].kind.H2?
            && (ok ==> d.conns == s.conns && d.calls[t].at == Ready(c))
            && (!ok ==> !d.conns[c].open && d.calls[t].at == Finished)
  {
  }

  /** Closing the pool empties it and closes exactly what was in it. */
  lemma CloseRoutes(s: State, c: nat)
    requires c < |s.conns|
    ensures var d := Step(s, CloseAll);
            d.Some? && d.value.pool == map[] && d.value.calls == s.calls
            && (d.value.conns[c].open <==> s.conns[c].open && c !in s.pool.Values)
  {
  }
}
