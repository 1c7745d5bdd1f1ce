/**
 The HTTP/2 connection pool of RoundTripper: lookup, adoption, eviction and closing by any
 number of concurrent requests, and what happens to every connection that was dialled.
 */
module Pool {
  import opened Prelude

  // ---- The regions under the pool's lock ----

  /** The new pool, the connections closed inside the region, and what the caller leaves with. */
  datatype Region<C> = Region(pool: map<string, C>, closing: set<C>, result: Option<C>)

  /** cachedH2: a pooled connection that can no longer take requests is dropped and closed. */
  function LookupRegion<C>(pool: map<string, C>, open: set<C>, host: string): Region<C> {
    if host !in pool then Region(pool, {}, None)
    else if pool[host] !in open then Region(pool - {host}, {pool[host]}, None)
    else Region(pool, {}, Some(pool[host]))
  }

  /** adoptH2: a usable pooled connection wins over the new one. */
  function AdoptRegion<C>(pool: map<string, C>, open: set<C>, host: string, c: C): Region<C> {
    if host in pool && pool[host] in open then Region(pool, {c}, Some(pool[host]))
    else Region(pool[host := c], if host in pool then {pool[host]} else {}, Some(c))
  }

  /** evict: whatever is pooled for the host leaves; the caller closes it after the region. */
  function EvictRegion<C>(pool: map<string, C>, host: string): Region<C> {
    Region(pool - {host}, {}, if host in pool then Some(pool[host]) else None)
  }

  // ---- The objects ----

  class ClientConn {
    var closed: bool

    method CanTakeNewRequest() returns (ok: bool)
      ensures ok == !closed
    {
      ok := !closed;
    }

    method Close()
      modifies this
      ensures closed
    {
      closed := true;
    }
  }

  ghost function OpenOf(cs: set<ClientConn>): set<ClientConn>
    reads cs
  {
    set c | c in cs && !c.closed
  }

  class RoundTripper {
    var pool: map<string, ClientConn>

    constructor ()
      ensures pool == map[]
    {
      pool := map[];
    }

    method CachedH2(host: string) returns (cc: ClientConn?, ghost region: Region<ClientConn>)
      modifies this, pool.Values
      ensures region == LookupRegion(old(pool), old(OpenOf(pool.Values)), host)
      ensures pool == region.pool
      ensures forall c :: c in old(pool).Values ==> (c.closed <==> old(c.closed) || c in region.closing)
      ensures if region.result.None? then cc == null else cc == region.result.value
    {
      region := LookupRegion(pool, OpenOf(pool.Values), host);
      if host !in pool {
        return null, region;
      }
      cc := pool[host];
      var usable := cc.CanTakeNewRequest();
      if !usable {
        pool := pool - {host};
        cc.Close();
        return null, region;
      }
    }

    method AdoptH2(host: string, conn: ClientConn) returns (cc: ClientConn, ghost region: Region<ClientConn>)
      requires conn !in pool.Values
      modifies this, pool.Values, conn
      ensures region == AdoptRegion(old(pool), old(OpenOf(pool.Values)), host, conn)
      ensures pool == region.pool && region.result == Some(cc)
      ensures forall c :: c in old(pool).Values + {conn} ==> (c.closed <==> old(c.closed) || c in region.closing)
    {
      region := AdoptRegion(pool, OpenOf(pool.Values), host, conn);
      if host in pool {
        var existing := pool[host];
        var usable := existing.CanTakeNewRequest();
        if usable {
          conn.Close();
          return existing, region;
        }
        existing.Close();
      }
      pool := pool[host := conn];
      cc := conn;
    }

    method Evict(host: string) returns (ghost region: Region<ClientConn>)
      modifies this, pool.Values
      ensures region == EvictRegion(old(pool), host) && pool == region.pool
      ensures forall c :: c in old(pool).Values ==> (c.closed <==> old(c.closed) || region.result == Some(c))
    {
      region := EvictRegion(pool, host);
      if host in pool {
        var cc := pool[host];
        pool := pool - {host};
        cc.Close();
      }
    }

    method Close()
      modifies this, pool.Values
      ensures pool == map[] && forall c :: c in old(pool).Values ==> c.closed
    {
      var left := pool.Keys;
      ghost var all := pool.Values;
      while left != {}
        invariant left == pool.Keys && pool.Values <= all
        invariant forall host :: host in old(pool) && host !in left ==> old(pool)[host].closed
        invariant forall host :: host in pool ==> host in old(pool) && pool[host] == old(pool)[host]
        decreases |left|
      {
        var host :| host in left;
        pool[host].Close();
        pool := pool - {host};
        left := left - {host};
      }
      forall c | c in old(pool).Values ensures c.closed {
        var host :| host in old(pool) && old(pool)[host] == c;
      }
    }
  }

  // ---- Any number of requests ----

  datatype Kind = H1 | H2

  datatype Dialled = Dialled(host: string, kind: Kind, open: bool)

  datatype Where =
    | Starting
    | Using(c: nat)
    | Sent(c: nat)
    | Evicting
    | Taken(c: nat)
    | Evicted
    | Dialling
    | Holding(c: nat)
    | Ready(c: nat)
    | Finished

  /**
   One call of roundTrip. second says that it is past its first attempt; tried are the
   connections it has written the request on.
   */
  datatype Call = Call(host: string, body: bool, at: Where, second: bool, tried: seq<nat>)

  datatype State = State(pool: map<string, nat>, conns: seq<Dialled>, bodies: set<nat>, calls: map<nat, Call>)

  const EMPTY := State(map[], [], {}, map[])

  datatype Label =
    | Begin(t: nat, host: string, body: bool)
    | Lookup(t: nat)
    | Send(t: nat)
    | Answer(t: nat, ok: bool)
    | Evict(t: nat)
    | CloseTaken(t: nat)
    | Resume(t: nat)
    | Dial(t: nat, kind: Kind)
    | DialFails(t: nat)
    | PlainExchange(t: nat, written: bool, ok: bool)
    | Handshake(t: nat, ok: bool)
    | Adopt(t: nat)
    | BodyClosed(c: nat)
    | Drop(c: nat)
    | CloseAll

  function OpenIds(s: State): set<nat> {
    set c | 0 <= c < |s.conns| && s.conns[c].open
  }

  /** Closing is idempotent. */
  function CloseIds(s: State, cs: set<nat>): State {
    s.(conns := seq(|s.conns|, i requires 0 <= i < |s.conns| =>
                  if i in cs then s.conns[i].(open := false) else s.conns[i]))
  }

  function Move(s: State, t: nat, call: Call): State {
    s.(calls := s.calls[t := call])
  }

  function Step(s: State, l: Label): Option<State> {
    match l
    case Begin(t, host, body) =>
      if t in s.calls then None else Some(Move(s, t, Call(host, body, Starting, false, [])))
    case BodyClosed(c) =>
      if c in s.bodies then Some(CloseIds(s, {c}).(bodies := s.bodies - {c})) else None
    case Drop(c) => Some(CloseIds(s, {c}))
    case CloseAll => Some(CloseIds(s, s.pool.Values).(pool := map[]))
    case _ => CallStep(s, l)
  }

  function CallStep(s: State, l: Label): Option<State>
    requires !l.Begin? && !l.BodyClosed? && !l.Drop? && !l.CloseAll?
  {
    if l.t !in s.calls then None else Advance(s, l.t, s.calls[l.t], l)
  }

  function Advance(s: State, t: nat, call: Call, l: Label): Option<State> {
    match (l, call.at)
    case (Lookup(_), Starting) =>
      var r := LookupRegion(s.pool, OpenIds(s), call.host);
      var d := CloseIds(s, r.closing).(pool := r.pool);
      Some(Move(d, t, call.(at := if r.result.Some? then Using(r.result.value) else Dialling)))
    case (Send(_), Using(c)) =>
      if c in OpenIds(s) then Some(Move(s, t, call.(at := Sent(c), tried := call.tried + [c])))
      else Some(Move(s, t, call.(at := Evicting)))
    case (Answer(_, ok), Sent(c)) =>
      Some(Move(s, t, call.(at := if ok then Finished else Evicting)))
    case (Evict(_), Evicting) =>
      var r := EvictRegion(s.pool, call.host);
      Some(Move(s.(pool := r.pool), t, call.(at := if r.result.Some? then Taken(r.result.value) else Evicted)))
    case (CloseTaken(_), Taken(c)) =>
      Some(Move(CloseIds(s, {c}), t, call.(at := Evicted)))
    case (Resume(_), Evicted) =>
      Some(Move(s, t, call.(at := if call.body || call.second then Finished else Dialling)))
    case (Dial(_, kind), Dialling) =>
      var d := s.(conns := s.conns + [Dialled(call.host, kind, true)]);
      Some(Move(d, t, call.(at := Holding(|s.conns|), second := true)))
    case (DialFails(_), Dialling) => Some(Move(s, t, call.(at := Finished)))
    case (PlainExchange(_, written, ok), Holding(c)) =>
      if c >= |s.conns| || s.conns[c].kind.H2? || (ok && !written) then None
      else
        var done := call.(at := Finished, tried := if written then call.tried + [c] else call.tried);
        Some(Move(if ok then s.(bodies := s.bodies + {c}) else CloseIds(s, {c}), t, done))
    case (Handshake(_, ok), Holding(c)) =>
      if c >= |s.conns| || s.conns[c].kind.H1? then None
      else if ok then Some(Move(s, t, call.(at := Ready(c))))
      else Some(Move(CloseIds(s, {c}), t, call.(at := Finished)))
    case (Adopt(_), Ready(c)) =>
      var r := AdoptRegion(s.pool, OpenIds(s), call.host, c);
      var d := CloseIds(s, r.closing).(pool := r.pool);
      Some(Move(d, t, call.(at := Using(r.result.value))))
    case _ => None
  }

  function Exec(s: State, ls: seq<Label>): Option<State> {
    if ls == [] then Some(s)
    else
      match Exec(s, ls[..|ls| - 1])
      case None => None
      case Some(d) => Step(d, ls[|ls| - 1])
  }

  // ---- Where a connection is ----

  datatype Place = InPool(host: string) | InHand(t: nat) | InBody

  predicate HasInHand(call: Call, c: nat) {
    call.at == Taken(c) || call.at == Holding(c) || call.at == Ready(c)
  }

  predicate At(s: State, c: nat, p: Place) {
    match p
    case InPool(host) => host in s.pool && s.pool[host] == c
    case InHand(t) => t in s.calls && HasInHand(s.calls[t], c)
    case InBody => c in s.bodies
  }

  ghost predicate Somewhere(s: State, c: nat) {
    exists p :: At(s, c, p)
  }
}
