/**
 The SOCKS5 client of one Doppel talking to the SOCKS5 server of another, over a network that
 delivers bytes in order and in pieces of any size, with any scheduling of the two ends.
 */
module Socks5Compose {
  import opened Prelude
  import opened Socks5

  /** Bytes written by each end and the part of them the other end has received. */
  datatype Net = Net(clientSent: Bytes, serverSeen: Bytes, serverSent: Bytes, clientSeen: Bytes)

  const START := Net([], [], [], [])

  /** Each step extends one of the four sequences to n bytes. */
  datatype Label =
    | ClientWrites(n: nat)
    | ToServer(n: nat)
    | ServerWrites(n: nat)
    | ToClient(n: nat)

  function Step(auth: Option<Credentials>, t: Target, net: Net, l: Label): Option<Net>
    requires ValidTarget(t)
  {
    match l
    case ClientWrites(n) =>
      var sent := Handshake(auth, t, net.clientSeen).sent;
      if |net.clientSent| < n <= |sent| && net.clientSent <= sent then Some(net.(clientSent := sent[..n])) else None
    case ServerWrites(n) =>
      var sent := Negotiate(net.serverSeen).replies;
      if |net.serverSent| < n <= |sent| && net.serverSent <= sent then Some(net.(serverSent := sent[..n])) else None
    case ToServer(n) =>
      if |net.serverSeen| < n <= |net.clientSent| then Some(net.(serverSeen := net.clientSent[..n])) else None
    case ToClient(n) =>
      if |net.clientSeen| < n <= |net.serverSent| then Some(net.(clientSeen := net.serverSent[..n])) else None
  }

  function Exec(auth: Option<Credentials>, t: Target, ls: seq<Label>): Option<Net>
    requires ValidTarget(t)
  {
    if ls == [] then Some(START)
    else
      match Exec(auth, t, ls[..|ls| - 1])
      case None => None
      case Some(net) => Step(auth, t, net, ls[|ls| - 1])
  }

  // ---- The complete exchange ----

  /** Everything the client sends in a successful exchange. */
  function ClientScript(auth: Option<Credentials>, t: Target): Bytes
    requires ValidTarget(t) && ConnectRequest(t).Some?
  {
    Greeting(auth) + ConnectRequest(t).value
  }

  const SERVER_SCRIPT: Bytes := SELECT_NO_AUTH + Reply(0)

  lemma ServerFinishes(auth: Option<Credentials>, t: Target)
    requires ValidTarget(t) && ConnectRequest(t).Some?
    ensures Negotiate(ClientScript(auth, t)) ==
              Served(Agreed(CanonicalTarget(t)), |ClientScript(auth, t)|, SERVER_SCRIPT)
  {
    RequestRoundTrip(auth, t, []);
    assert ClientScript(auth, t) + [] == ClientScript(auth, t);
  }

  lemma ClientFinishes(auth: Option<Credentials>, t: Target)
    requires ValidTarget(t) && ConnectRequest(t).Some?
    ensures Handshake(auth, t, SERVER_SCRIPT) == Dialled(Connected, |SERVER_SCRIPT|, ClientScript(auth, t))
  {
  }

  // ---- Every reachable state ----

  ghost predicate Inv(auth: Option<Credentials>, t: Target, net: Net)
    requires ValidTarget(t) && ConnectRequest(t).Some?
  {
    && net.serverSeen <= net.clientSent <= Handshake(auth, t, net.clientSeen).sent
    && net.clientSeen <= net.serverSent <= Negotiate(net.serverSeen).replies
    && net.clientSent <= ClientScript(auth, t)
    && net.serverSent <= SERVER_SCRIPT
  }

  lemma ClientStepKeepsInv(auth: Option<Credentials>, t: Target, net: Net, l: Label)
    requires ValidTarget(t) && ConnectRequest(t).Some?
    requires Inv(auth, t, net) && Step(auth, t, net, l).Some? && (l.ClientWrites? || l.ToClient?)
    ensures Inv(auth, t, Step(auth, t, net, l).value)
  {
    ClientFinishes(auth, t);
    if l.ClientWrites? {
      ClientIsCausal(auth, t, net.clientSeen, SERVER_SCRIPT);
    } else {
      ClientIsCausal(auth, t, net.clientSeen, Step(auth, t, net, l).value.clientSeen);
    }
  }

  lemma ServerStepKeepsInv(auth: Option<Credentials>, t: Target, net: Net, l: Label)
    requires ValidTarget(t) && ConnectRequest(t).Some?
    requires Inv(auth, t, net) && Step(auth, t, net, l).Some? && (l.ServerWrites? || l.ToServer?)
    ensures Inv(auth, t, Step(auth, t, net, l).value)
  {
    ServerFinishes(auth, t);
    if l.ServerWrites? {
      ServerIsCausal(net.serverSeen, ClientScript(auth, t));
    } else {
      ServerIsCausal(net.serverSeen, Step(auth, t, net, l).value.serverSeen);
    }
  }

  lemma StepKeepsInv(auth: Option<Credentials>, t: Target, net: Net, l: Label)
    requires ValidTarget(t) && ConnectRequest(t).Some?
    requires Inv(auth, t, net) && Step(auth, t, net, l).Some?
    ensures Inv(auth, t, Step(auth, t, net, l).value)
  {
    if l.ClientWrites? || l.ToClient? {
      ClientStepKeepsInv(auth, t, net, l);
    } else {
      ServerStepKeepsInv(auth, t, net, l);
    }
  }

  function Progress(net: Net): nat {
    |net.clientSent| + |net.serverSeen| + |net.serverSent| + |net.clientSeen|
  }

  /** Every step writes or carries at least one byte. */
  lemma StepProgresses(auth: Option<Credentials>, t: Target, net: Net, l: Label)
    requires ValidTarget(t) && Step(auth, t, net, l).Some?
    ensures Progress(net) < Progress(Step(auth, t, net, l).value)
  {
  }

  lemma {:induction false} RunKeepsInv(auth: Option<Credentials>, t: Target, ls: seq<Label>)
    requires ValidTarget(t) && ConnectRequest(t).Some? && Exec(auth, t, ls).Some?
    ensures Inv(auth, t, Exec(auth, t, ls).value)
    ensures |ls| <= Progress(Exec(auth, t, ls).value)
  {
    if ls != [] {
      var net, l := Exec(auth, t, ls[..|ls| - 1]).value, ls[|ls| - 1];
      RunKeepsInv(auth, t, ls[..|ls| - 1]);
      assert Exec(auth, t, ls) == Step(auth, t, net, l);
      StepKeepsInv(auth, t, net, l);
      StepProgresses(auth, t, net, l);
    }
  }

  ghost predicate Stuck(auth: Option<Credentials>, t: Target, net: Net)
    requires ValidTarget(t)
  {
    forall l :: Step(auth, t, net, l).None?
  }

  lemma StuckIsFixpoint(auth: Option<Credentials>, t: Target, net: Net)
    requires ValidTarget(t) && ConnectRequest(t).Some? && Inv(auth, t, net) && Stuck(auth, t, net)
    ensures net.serverSeen == net.clientSent == Handshake(auth, t, net.clientSeen).sent
    ensures net.clientSeen == net.serverSent == Negotiate(net.serverSeen).replies
  {
    assert Step(auth, t, net, ToServer(|net.clientSent|)).None?;
    assert Step(auth, t, net, ToClient(|net.serverSent|)).None?;
    assert Step(auth, t, net, ClientWrites(|Handshake(auth, t, net.clientSeen).sent|)).None?;
    assert Step(auth, t, net, ServerWrites(|Negotiate(net.serverSeen).replies|)).None?;
  }

  /** With the method selection received, the client has sent its request. */
  lemma SelectionUnlocksRequest(auth: Option<Credentials>, t: Target, seen: Bytes)
    requires ValidTarget(t) && ConnectRequest(t).Some? && SELECT_NO_AUTH <= seen <= SERVER_SCRIPT
    ensures Handshake(auth, t, seen).sent == ClientScript(auth, t)
  {
  }

  /** A reachable state in which nothing can happen is the end of a successful exchange. */
  lemma StuckIsDone(auth: Option<Credentials>, t: Target, net: Net)
    requires ValidTarget(t) && ConnectRequest(t).Some? && Inv(auth, t, net) && Stuck(auth, t, net)
    ensures net.serverSeen == ClientScript(auth, t) && net.clientSeen == SERVER_SCRIPT
  {
    StuckIsFixpoint(auth, t, net);
    ClientIsCausal(auth, t, [], net.clientSeen);
    ServerIsCausal(Greeting(auth), net.serverSeen);
    GreetingRead(auth, []);
    assert Greeting(auth) + [] == Greeting(auth);
    assert SELECT_NO_AUTH <= net.clientSeen;
    SelectionUnlocksRequest(auth, t, net.clientSeen);
    ServerFinishes(auth, t);
  }

  /**
   The two ends compose. For every valid target whose name has at most 255 bytes, with or
   without client credentials, and for every interleaving and fragmentation: the exchange cannot
   run for ever, and wherever it cannot go on both ends have succeeded, they agree on the target
   up to the canonical form of an address, and every byte sent has been consumed by its reader.
   */
  lemma EndsCompose(auth: Option<Credentials>, t: Target, ls: seq<Label>)
    requires ValidTarget(t) && ConnectRequest(t).Some? && Exec(auth, t, ls).Some?
    ensures |ls| <= 2 * (|ClientScript(auth, t)| + |SERVER_SCRIPT|)
    ensures var net := Exec(auth, t, ls).value;
            Stuck(auth, t, net) ==>
              && Negotiate(net.serverSeen).end == Agreed(CanonicalTarget(t))
              && Handshake(auth, t, net.clientSeen).end == Connected
              && Negotiate(net.serverSeen).used == |net.clientSent|
              && Handshake(auth, t, net.clientSeen).used == |net.serverSent|
  {
    RunKeepsInv(auth, t, ls);
    var net := Exec(auth, t, ls).value;
    if Stuck(auth, t, net) {
      StuckIsDone(auth, t, net);
      ServerFinishes(auth, t);
      ClientFinishes(auth, t);
    }
  }

  /** Tunnel bytes that follow the request are not touched by the server. */
  lemma TunnelBytesSurvive(auth: Option<Credentials>, t: Target, tunnel: Bytes)
    requires ValidTarget(t) && ConnectRequest(t).Some?
    ensures Negotiate(ClientScript(auth, t) + tunnel) == Negotiate(ClientScript(auth, t))
    ensures (ClientScript(auth, t) + tunnel)[Negotiate(ClientScript(auth, t) + tunnel).used..] == tunnel
  {
    RequestRoundTrip(auth, t, tunnel);
    ServerFinishes(auth, t);
  }
}
