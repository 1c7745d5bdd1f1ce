/**
 ca.Authority.LeafFor: look the host up, mint outside the lock on a miss, look again and
 publish. Minting is the certificate library; here it is any certificate made for the host.
 */
module LeafCache {
  import opened Prelude
  import opened HostPort

  /** A leaf certificate: the host it was minted for and a serial number that tells mints apart. */
  datatype Cert = Cert(subject: string, serial: nat)

  /** The cache is keyed by normalised host. */
  type Cache = map<string, Cert>

  // ---- The object ----

  class Authority {
    var cache: Cache

    constructor ()
      ensures cache == map[]
    {
      cache := map[];
    }

    /** The region under the read lock. */
    method Lookup(host: string) returns (found: Option<Cert>)
      ensures found == if host in cache then Some(cache[host]) else None
    {
      if host in cache {
        found := Some(cache[host]);
      } else {
        found := None;
      }
    }

    /** The region under the write lock: a certificate that is already there wins. */
    method Publish(host: string, minted: Cert) returns (cert: Cert)
      modifies this
      ensures (cert, cache) == Memo(old(cache), host, minted)
    {
      cert := minted;
      if host in cache {
        cert := cache[host];
      } else {
        cache := cache[host := cert];
      }
    }

    /** LeafFor when no other call runs in between; minted is what mint returns if it is called. */
    method LeafFor(name: string, minted: Option<Cert>) returns (r: Option<Cert>)
      requires minted.Some? ==> minted.value.subject == NormalizeHost(name)
      modifies this
      ensures NormalizeHost(name) in old(cache) ==> r == Some(old(cache)[NormalizeHost(name)]) && cache == old(cache)
      ensures NormalizeHost(name) !in old(cache) && minted.None? ==> r.None? && cache == old(cache)
      ensures NormalizeHost(name) !in old(cache) && minted.Some? ==>
                r == minted && cache == old(cache)[NormalizeHost(name) := minted.value]
    {
      var host := NormalizeHost(name);
      r := Lookup(host);
      if r.Some? {
        return;
      }
      if minted.None? {
        return None;
      }
      var cert := Publish(host, minted.value);
      r := Some(cert);
    }
  }

  // ---- Any number of callers ----

  /**
   Where one call of LeafFor is: the name it was given and the host it made of it first. A
   returned call keeps what it minted, if it did.
   */
  datatype Call =
    | Entered(name: string, host: string)
    | Minting(name: string, host: string)
    | Minted(name: string, host: string, cert: Cert)
    | Returned(name: string, host: string, cert: Cert, minted: Option<Cert>)
    | Failed(name: string, host: string)

  /** Hits and publications, in the order they happened under the lock. */
  datatype Event = Event(caller: nat, host: string, offered: Cert, result: Cert)

  datatype State = State(cache: Cache, calls: map<nat, Call>, events: seq<Event>)

  datatype Label =
    | Enter(caller: nat, name: string)
    | Check(caller: nat)
    | Mint(caller: nat, serial: nat)
    | MintFails(caller: nat)
    | Publish(caller: nat)

  const EMPTY := State(map[], map[], [])

  function Step(s: State, l: Label): Option<State> {
    if l.Enter? then
      if l.caller in s.calls then None
      else Some(s.(calls := s.calls[l.caller := Entered(l.name, NormalizeHost(l.name))]))
    else if l.caller !in s.calls then None
    else Advance(s, s.calls[l.caller], l)
  }

  function Advance(s: State, call: Call, l: Label): Option<State> {
    match (l, call)
    case (Check(t), Entered(name, host)) =>
      if host in s.cache then
        Some(s.(calls := s.calls[t := Returned(name, host, s.cache[host], None)],
                events := s.events + [Event(t, host, s.cache[host], s.cache[host])]))
      else Some(s.(calls := s.calls[t := Minting(name, host)]))
    case (Mint(t, serial), Minting(name, host)) =>
      Some(s.(calls := s.calls[t := Minted(name, host, Cert(host, serial))]))
    case (MintFails(t), Minting(name, host)) => Some(s.(calls := s.calls[t := Failed(name, host)]))
    case (Publish(t), Minted(name, host, cert)) =>
      var (result, cache) := Memo(s.cache, host, cert);
      Some(State(cache, s.calls[t := Returned(name, host, result, Some(cert))],
                 s.events + [Event(t, host, cert, result)]))
    case _ => None
  }

  function Exec(s: State, ls: seq<Label>): Option<State> {
    if ls == [] then Some(s)
    else
      match Exec(s, ls[..|ls| - 1])
      case None => None
      case Some(t) => Step(t, ls[|ls| - 1])
  }

  /** A call mints only when its look-up missed, and a failed mint changes nothing but the call. */
  lemma MintsOnlyOnMiss(s: State, l: Label)
    requires Step(s, l).Some? && l.caller in s.calls && s.calls[l.caller].Entered?
    ensures var call, d := s.calls[l.caller], Step(s, l).value;
            && d.cache == s.cache
            && (call.host in s.cache ==> d.calls[l.caller] == Returned(call.name, call.host, s.cache[call.host], None))
            && (call.host !in s.cache ==> d.calls[l.caller].Minting?)
  {
  }

  lemma FailedMint(s: State, l: Label)
    requires Step(s, l).Some? && l.MintFails?
    ensures Step(s, l).value.cache == s.cache && Step(s, l).value.events == s.events
    ensures Step(s, l).value.calls[l.caller].Failed?
  {
  }

  // ---- The sequential memo table ----

  /** Get or install, in one indivisible step. */
  function Memo(cache: Cache, host: string, offered: Cert): (Cert, Cache) {
    if host in cache then (cache[host], cache) else (offered, cache[host := offered])
  }

  /** Replaying events one after the other on a sequential table. */
  function Replay(cache: Cache, events: seq<Event>): Cache {
    if events == [] then cache
    else
      var last := events[|events| - 1];
      Memo(Replay(cache, events[..|events| - 1]), last.host, last.offered).1
  }

  /** Every event got what the sequential table, at its place in the order, gives. */
  ghost predicate Sequential(events: seq<Event>) {
    forall k :: 0 <= k < |events| ==>
      events[k].result == Memo(Replay(map[], events[..k]), events[k].host, events[k].offered).0
  }

  // ---- Invariants over all runs ----

  /** What the acting call's event says of it: what it asked for, offered and was given. */
  predicate Records(e: Event, call: Call) {
    && call.Returned?
    && e.host == call.host
    && e.result == call.cert
    && e.offered == if call.minted.Some? then call.minted.value else call.cert
  }

  /** A call that minted nothing found its host in the table as it then was. */
  ghost predicate HitIfUnminted(events: seq<Event>, k: nat, call: Call)
    requires k < |events|
  {
    call.Returned? && call.minted.None? ==> events[k].host in Replay(map[], events[..k])
  }

  ghost predicate Recorded(events: seq<Event>, t: nat) {
    exists k :: 0 <= k < |events| && events[k].caller == t
  }

  /** Events and returned calls correspond one to one. */
  ghost predicate OneEventEach(s: State) {
    && (forall k :: 0 <= k < |s.events| ==>
          && s.events[k].caller in s.calls
          && Records(s.events[k], s.calls[s.events[k].caller])
          && HitIfUnminted(s.events, k, s.calls[s.events[k].caller]))
    && (forall j, k :: 0 <= j < k < |s.events| ==> s.events[j].caller != s.events[k].caller)
    && (forall t :: t in s.calls && s.calls[t].Returned? ==> Recorded(s.events, t))
  }

  /** Entries and calls agree: certificates name their hosts, and results are what the cache holds. */
  ghost predicate Consistent(s: State) {
    && (forall h :: h in s.cache ==> s.cache[h].subject == h)
    && (forall t :: t in s.calls && s.calls[t].Minted? ==> s.calls[t].cert.subject == s.calls[t].host)
    && (forall t :: t in s.calls && s.calls[t].Returned? ==>
          s.calls[t].host in s.cache && s.cache[s.calls[t].host] == s.calls[t].cert)
  }

  /** Every call works on the host of the name it was given. */
  ghost predicate Normalized(s: State) {
    forall t :: t in s.calls ==> s.calls[t].host == NormalizeHost(s.calls[t].name)
  }

  ghost predicate Inv(s: State) {
    && s.cache == Replay(map[], s.events)
    && Sequential(s.events)
    && Consistent(s)
    && Normalized(s)
    && OneEventEach(s)
  }

  ghost predicate CacheGrows(a: Cache, b: Cache) {
    forall h :: h in a ==> h in b && b[h] == a[h]
  }

  /** What a step does to the history: nothing, or one event of the acting call, which then returns. */
  lemma StepEvents(s: State, l: Label)
    requires Step(s, l).Some?
    ensures var d := Step(s, l).value;
            || (d.events == s.events && d.cache == s.cache
                && forall t :: t in s.calls && s.calls[t].Returned? <==> t in d.calls && d.calls[t].Returned?)
            || exists e: Event ::
                 && e.caller == l.caller && l.caller in s.calls && !s.calls[l.caller].Returned?
                 && d.events == s.events + [e]
                 && d.cache == Memo(s.cache, e.host, e.offered).1
                 && e.result == Memo(s.cache, e.host, e.offered).0
                 && d.calls == s.calls[l.caller := d.calls[l.caller]]
                 && Records(e, d.calls[l.caller])
                 && (d.calls[l.caller].minted.None? ==> e.host in s.cache)
    ensures forall t :: t in s.calls && (t != l.caller || s.calls[t].Returned?) ==>
              t in Step(s, l).value.calls && Step(s, l).value.calls[t] == s.calls[t]
  {
  }

  lemma StepKeepsHistory(s: State, l: Label)
    requires s.cache == Replay(map[], s.events) && Sequential(s.events) && Step(s, l).Some?
    ensures Step(s, l).value.cache == Replay(map[], Step(s, l).value.events)
    ensures Sequential(Step(s, l).value.events)
  {
    StepEvents(s, l);
    var d := Step(s, l).value;
    if d.events != s.events {
      assert d.events[..|s.events|] == s.events;
      forall k | 0 <= k < |d.events|
        ensures d.events[k].result == Memo(Replay(map[], d.events[..k]), d.events[k].host, d.events[k].offered).0
      {
        assert d.events[..k] == s.events[..k];
      }
    }
  }

  /** A step that adds no event lets no call return. */
  lemma QuietKeepsEvents(s: State, l: Label)
    requires OneEventEach(s) && Step(s, l).Some? && Step(s, l).value.events == s.events
    ensures OneEventEach(Step(s, l).value)
  {
    StepEvents(s, l);
  }

  /** An event of a call that had not returned before, and now has, with what the event records. */
  predicate NewEvent(s: State, d: State, e: Event) {
    && d.events == s.events + [e]
    && e.caller in s.calls && !s.calls[e.caller].Returned?
    && e.caller in d.calls && d.calls == s.calls[e.caller := d.calls[e.caller]]
    && Records(e, d.calls[e.caller])
  }

  /** Earlier events are those of other calls, and stay what they were. */
  lemma OldEvent(s: State, d: State, e: Event, k: nat)
    requires OneEventEach(s) && NewEvent(s, d, e) && k < |s.events|
    ensures d.events[k] == s.events[k] && d.events[..k] == s.events[..k] && d.events[k].caller != e.caller
    ensures d.events[k].caller in d.calls && d.calls[d.events[k].caller] == s.calls[s.events[k].caller]
    ensures Records(d.events[k], d.calls[d.events[k].caller])
    ensures HitIfUnminted(d.events, k, d.calls[d.events[k].caller])
  {
    assert Records(s.events[k], s.calls[s.events[k].caller]);
    assert HitIfUnminted(s.events, k, s.calls[s.events[k].caller]);
  }

  lemma StillRecorded(s: State, d: State, e: Event, t: nat)
    requires OneEventEach(s) && NewEvent(s, d, e) && t in d.calls && d.calls[t].Returned?
    ensures Recorded(d.events, t)
  {
    if t == e.caller {
      assert d.events[|s.events|].caller == t;
    } else {
      assert Recorded(s.events, t);
      var k :| 0 <= k < |s.events| && s.events[k].caller == t;
      assert d.events[k].caller == t;
    }
  }

  lemma OneMoreEvent(s: State, d: State, e: Event)
    requires OneEventEach(s) && NewEvent(s, d, e)
    requires d.calls[e.caller].minted.None? ==> e.host in Replay(map[], s.events)
    ensures OneEventEach(d)
  {
    var n := |s.events|;
    assert d.events[n] == e && d.events[..n] == s.events;
    forall k | 0 <= k < n
      ensures d.events[k].caller != e.caller && d.events[k] == s.events[k] && d.events[k].caller in d.calls
      ensures Records(d.events[k], d.calls[d.events[k].caller])
      ensures HitIfUnminted(d.events, k, d.calls[d.events[k].caller])
    {
      OldEvent(s, d, e, k);
    }
    forall t | t in d.calls && d.calls[t].Returned? ensures Recorded(d.events, t) {
      StillRecorded(s, d, e, t);
    }
  }

  lemma NewKeepsEvents(s: State, l: Label)
    requires OneEventEach(s) && s.cache == Replay(map[], s.events) && Step(s, l).Some?
    requires Step(s, l).value.events != s.events
    ensures OneEventEach(Step(s, l).value)
  {
    StepEvents(s, l);
    var d := Step(s, l).value;
    OneMoreEvent(s, d, d.events[|s.events|]);
  }

  lemma StepKeepsConsistent(s: State, l: Label)
    requires Consistent(s) && Step(s, l).Some?
    ensures Consistent(Step(s, l).value)
    ensures CacheGrows(s.cache, Step(s, l).value.cache)
  {
  }

  lemma NamesStay(s: State, l: Label, t: nat)
    requires Step(s, l).Some? && t in Step(s, l).value.calls
    ensures var d := Step(s, l).value;
            if t in s.calls then d.calls[t].name == s.calls[t].name && d.calls[t].host == s.calls[t].host
            else l.Enter? && d.calls[t] == Entered(l.name, NormalizeHost(l.name))
  {
  }

  lemma StepKeepsNames(s: State, l: Label)
    requires Normalized(s) && Step(s, l).Some?
    ensures Normalized(Step(s, l).value)
  {
    forall t | t in Step(s, l).value.calls
      ensures Step(s, l).value.calls[t].host == NormalizeHost(Step(s, l).value.calls[t].name)
    {
      NamesStay(s, l, t);
    }
  }

  lemma StepKeepsInv(s: State, l: Label)
    requires Inv(s) && Step(s, l).Some?
    ensures Inv(Step(s, l).value)
    ensures CacheGrows(s.cache, Step(s, l).value.cache)
  {
    StepKeepsHistory(s, l);
    StepKeepsConsistent(s, l);
    StepKeepsNames(s, l);
    StepEvents(s, l);
    var d := Step(s, l).value;
    if d.events == s.events {
      QuietKeepsEvents(s, l);
    } else {
      NewKeepsEvents(s, l);
    }
  }

  lemma {:induction false} RunKeepsInv(s: State, ls: seq<Label>)
    requires Inv(s) && Exec(s, ls).Some?
    ensures Inv(Exec(s, ls).value)
    ensures CacheGrows(s.cache, Exec(s, ls).value.cache)
  {
    if ls != [] {
      RunKeepsInv(s, ls[..|ls| - 1]);
      StepKeepsInv(Exec(s, ls[..|ls| - 1]).value, ls[|ls| - 1]);
    }
  }

  /**
   LeafFor is linearisable: in every run of any number of concurrent calls, the cache hits and
   publications, in the order they happened, are a legal history of a sequential memo table,
   and the cache is that table. Every returned call has exactly one event in it, with the host
   it asked for, the certificate it minted or found, and the one it returned; no other call has
   any.
   */
  lemma Linearizable(ls: seq<Label>, s: State)
    requires Exec(EMPTY, ls) == Some(s)
    ensures Sequential(s.events) && s.cache == Replay(map[], s.events)
    ensures OneEventEach(s) && Normalized(s)
  {
    RunKeepsInv(EMPTY, ls);
  }

  /** The order respects real time: a call that returned before another entered comes before it. */
  lemma RealTimeOrder(before: seq<Label>, s: State, after: seq<Label>, d: State, j: nat, k: nat)
    requires Exec(EMPTY, before) == Some(s) && Exec(s, after) == Some(d)
    requires j < |d.events| && k < |d.events|
    requires d.events[j].caller in s.calls && s.calls[d.events[j].caller].Returned?
    requires d.events[k].caller !in s.calls
    ensures j < k
  {
    RunKeepsInv(EMPTY, before);
    RunKeepsInv(s, after);
    RunExtends(s, after);
    OldEventsFirst(s, d, j, k);
  }

  lemma OldEventsFirst(s: State, d: State, j: nat, k: nat)
    requires OneEventEach(s) && OneEventEach(d) && s.events <= d.events
    requires j < |d.events| && k < |d.events|
    requires d.events[j].caller in s.calls && s.calls[d.events[j].caller].Returned?
    requires d.events[k].caller !in s.calls
    ensures j < k
  {
    var i :| 0 <= i < |s.events| && s.events[i].caller == d.events[j].caller;
    assert d.events[i] == s.events[i];
    assert forall m :: 0 <= m < |s.events| ==> d.events[m] == s.events[m] && d.events[m].caller in s.calls;
  }

  lemma {:induction false} RunExtends(s: State, ls: seq<Label>)
    requires Exec(s, ls).Some?
    ensures s.events <= Exec(s, ls).value.events
  {
    if ls != [] {
      RunExtends(s, ls[..|ls| - 1]);
      StepEvents(Exec(s, ls[..|ls| - 1]).value, ls[|ls| - 1]);
    }
  }

  /** Any two calls for one normalised host return the same certificate, and it names that host. */
  lemma OneCertificatePerHost(ls: seq<Label>, t: nat, u: nat)
    requires Exec(EMPTY, ls).Some?
    requires t in Exec(EMPTY, ls).value.calls && Exec(EMPTY, ls).value.calls[t].Returned?
    requires u in Exec(EMPTY, ls).value.calls && Exec(EMPTY, ls).value.calls[u].Returned?
    requires NormalizeHost(Exec(EMPTY, ls).value.calls[t].name) == NormalizeHost(Exec(EMPTY, ls).value.calls[u].name)
    ensures Exec(EMPTY, ls).value.calls[t].cert == Exec(EMPTY, ls).value.calls[u].cert
    ensures Exec(EMPTY, ls).value.calls[t].cert.subject == NormalizeHost(Exec(EMPTY, ls).value.calls[t].name)
  {
    RunKeepsInv(EMPTY, ls);
  }

  /** From any reachable state on, an entry once written never changes. */
  lemma {:induction false} EntriesNeverChange(before: seq<Label>, after: seq<Label>, host: string)
    requires Exec(EMPTY, before).Some? && host in Exec(EMPTY, before).value.cache
    requires Exec(Exec(EMPTY, before).value, after).Some?
    ensures host in Exec(Exec(EMPTY, before).value, after).value.cache
    ensures Exec(Exec(EMPTY, before).value, after).value.cache[host] == Exec(EMPTY, before).value.cache[host]
  {
    RunKeepsInv(EMPTY, before);
    RunKeepsInv(Exec(EMPTY, before).value, after);
  }
}
