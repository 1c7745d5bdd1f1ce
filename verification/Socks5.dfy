/**
 SOCKS5 (RFC 1928, RFC 1929) as spoken by both ends of the repository: the client that dials
 through an upstream proxy and the server that accepts CONNECT requests.

 Each end is described by what it has done once it has received a given sequence of bytes: the
 bytes it has written by then, and whether it has finished or is waiting for more.
 */
module Socks5 {
  import opened Prelude

  type Bytes = seq<byte>

  // ---- Targets ----

  /** Four bytes, sixteen bytes, or anything that is not an address literal. */
  datatype Host = V4(addr: Bytes) | V6(addr: Bytes) | Name(text: Bytes)

  datatype Target = Target(host: Host, port: nat)

  predicate ValidTarget(t: Target) {
    && t.port < 65536
    && (t.host.V4? ==> |t.host.addr| == 4)
    && (t.host.V6? ==> |t.host.addr| == 16)
  }

  const MAPPED_PREFIX: Bytes := [0, 0, 0, 0, 0, 0, 0, 0, 0, 0, 255, 255]

  /** IP.To4: an IPv4-mapped address is the IPv4 address. */
  function Canonical(h: Host): Host {
    if h.V6? && |h.addr| == 16 && h.addr[..12] == MAPPED_PREFIX then V4(h.addr[12..]) else h
  }

  function CanonicalTarget(t: Target): Target {
    t.(host := Canonical(t.host))
  }

  // ---- Messages ----

  const SELECT_NO_AUTH: Bytes := [5, 0]

  /** writeSOCKS5Reply: the bound address is always 0.0.0.0:0. */
  function Reply(status: byte): Bytes {
    [5, status, 0, 1, 0, 0, 0, 0, 0, 0]
  }

  datatype Credentials = Credentials(user: Bytes, pass: Bytes)

  function Greeting(auth: Option<Credentials>): Bytes {
    if auth.None? then [5, 1, 0] else [5, 2, 0, 2]
  }

  function PortBytes(port: nat): Bytes
    requires port < 65536
  {
    [port / 256, port % 256]
  }

  /** socks5ConnectRequest; only an over-long name has no request. */
  function ConnectRequest(t: Target): Option<Bytes>
    requires ValidTarget(t)
  {
    match Canonical(t.host)
    case V4(a) => Some([5, 1, 0, 1] + a + PortBytes(t.port))
    case V6(a) => Some([5, 1, 0, 4] + a + PortBytes(t.port))
    case Name(n) => if |n| > 255 then None else Some([5, 1, 0, 3, |n|] + n + PortBytes(t.port))
  }

  function AuthMessage(c: Credentials): Option<Bytes> {
    if |c.user| > 255 || |c.pass| > 255 then None
    else Some([1, |c.user|] + c.user + [|c.pass|] + c.pass)
  }

  // ---- The server ----

  datatype Refusal = BadVersion | BadCommand | BadAddressType

  datatype ServerEnd =
    | Agreed(target: Target)
    | Refused(why: Refusal)
    | Waiting(inAddress: bool)

  /** What the server has consumed and written. */
  datatype Served = Served(end: ServerEnd, used: nat, replies: Bytes)

  /** Where an address of the given type starts and how long it is, once that is known. */
  datatype Extent = Extent(start: nat, length: nat) | Unsupported | Unknown

  function AddressExtent(inp: Bytes, at: nat, kind: byte): Extent {
    if kind == 1 then Extent(at, 4)
    else if kind == 4 then Extent(at, 16)
    else if kind == 3 then
      if at < |inp| then Extent(at + 1, inp[at]) else Unknown
    else Unsupported
  }

  function DecodedHost(kind: byte, bytes: Bytes): Host {
    if kind == 1 then V4(bytes) else if kind == 4 then Canonical(V6(bytes)) else Name(bytes)
  }

  /** socks5Negotiate after receiving inp. */
  function Negotiate(inp: Bytes): Served {
    if |inp| < 1 then Served(Waiting(false), |inp|, [])
    else if inp[0] != 5 then Served(Refused(BadVersion), 1, [])
    else if |inp| < 2 || |inp| < 2 + inp[1] as nat then Served(Waiting(false), |inp|, [])
    else ServeRequest(inp, 2 + inp[1] as nat)
  }

  function ServeRequest(inp: Bytes, at: nat): Served
    requires at <= |inp|
  {
    if |inp| < at + 4 then Served(Waiting(false), |inp|, SELECT_NO_AUTH)
    else if inp[at] != 5 then Served(Refused(BadVersion), at + 4, SELECT_NO_AUTH)
    else if inp[at + 1] != 1 then Served(Refused(BadCommand), at + 4, SELECT_NO_AUTH + Reply(7))
    else
      match AddressExtent(inp, at + 4, inp[at + 3])
      case Unsupported => Served(Refused(BadAddressType), at + 4, SELECT_NO_AUTH + Reply(8))
      case Unknown => Served(Waiting(true), |inp|, SELECT_NO_AUTH)
      case Extent(start, n) =>
        if |inp| < start + n then Served(Waiting(true), |inp|, SELECT_NO_AUTH)
        else if |inp| < start + n + 2 then Served(Waiting(false), |inp|, SELECT_NO_AUTH)
        else
          var host := DecodedHost(inp[at + 3], inp[start..start + n]);
          var port := inp[start + n] as nat * 256 + inp[start + n + 1] as nat;
          Served(Agreed(Target(host, port)), start + n + 2, SELECT_NO_AUTH + Reply(0))
  }

  // ---- The client ----

  datatype Failure =
    | NotSocks5
    | NoMethodAccepted
    | UnknownMethod
    | NeedsCredentials
    | CredentialsTooLong
    | AuthRejected
    | NameTooLong
    | UnknownReplyType
    | ConnectFailed(code: byte)

  datatype ClientEnd = Connected | Failed(why: Failure) | Blocked

  datatype Dialled = Dialled(end: ClientEnd, used: nat, sent: Bytes)

  /** socks5Handshake after receiving inp. */
  function Handshake(auth: Option<Credentials>, t: Target, inp: Bytes): Dialled
    requires ValidTarget(t)
  {
    var hello := Greeting(auth);
    if |inp| < 2 then Dialled(Blocked, |inp|, hello)
    else if inp[0] != 5 then Dialled(Failed(NotSocks5), 2, hello)
    else if inp[1] == 255 then Dialled(Failed(NoMethodAccepted), 2, hello)
    else if inp[1] == 2 then
      if auth.None? then Dialled(Failed(NeedsCredentials), 2, hello)
      else
        match AuthMessage(auth.value)
        case None => Dialled(Failed(CredentialsTooLong), 2, hello)
        case Some(message) =>
          if |inp| < 4 then Dialled(Blocked, |inp|, hello + message)
          else if inp[3] != 0 then Dialled(Failed(AuthRejected), 4, hello + message)
          else AskConnect(t, inp, 4, hello + message)
    else if inp[1] != 0 then Dialled(Failed(UnknownMethod), 2, hello)
    else AskConnect(t, inp, 2, hello)
  }

  function AskConnect(t: Target, inp: Bytes, at: nat, sent: Bytes): Dialled
    requires ValidTarget(t) && at <= |inp|
  {
    match ConnectRequest(t)
    case None => Dialled(Failed(NameTooLong), at, sent)
    case Some(request) => AwaitReply(inp, at, sent + request)
  }

  /** readSOCKS5ConnectReply: the bound address is consumed before the status is looked at. */
  function AwaitReply(inp: Bytes, at: nat, sent: Bytes): Dialled
    requires at <= |inp|
  {
    if |inp| < at + 4 then Dialled(Blocked, |inp|, sent)
    else if inp[at] != 5 then Dialled(Failed(NotSocks5), at + 4, sent)
    else
      match AddressExtent(inp, at + 4, inp[at + 3])
      case Unsupported => Dialled(Failed(UnknownReplyType), at + 4, sent)
      case Unknown => Dialled(Blocked, |inp|, sent)
      case Extent(start, n) =>
        if |inp| < start + n + 2 then Dialled(Blocked, |inp|, sent)
        else if inp[at + 1] != 0 then Dialled(Failed(ConnectFailed(inp[at + 1])), start + n + 2, sent)
        else Dialled(Connected, start + n + 2, sent)
  }

  // ---- Both ends are self-delimiting ----

  lemma ExtentOfPrefix(p: Bytes, inp: Bytes, at: nat, kind: byte)
    requires p <= inp && !AddressExtent(p, at, kind).Unknown?
    ensures AddressExtent(inp, at, kind) == AddressExtent(p, at, kind)
  {
  }

  lemma ServeIsCausal(p: Bytes, inp: Bytes, at: nat)
    requires p <= inp && at <= |p|
    ensures ServeRequest(p, at).used <= |p|
    ensures !ServeRequest(p, at).end.Waiting? ==> ServeRequest(inp, at) == ServeRequest(p, at)
    ensures ServeRequest(p, at).replies <= ServeRequest(inp, at).replies
  {
    if |p| >= at + 4 && !AddressExtent(p, at + 4, p[at + 3]).Unknown? {
      ExtentOfPrefix(p, inp, at + 4, p[at + 3]);
      match AddressExtent(p, at + 4, p[at + 3])
      case Extent(start, n) =>
        if |p| >= start + n { assert p[start..start + n] == inp[start..start + n]; }
      case _ =>
    }
  }

  /** Once the server has decided, later bytes change nothing; until then its replies only grow. */
  lemma ServerIsCausal(p: Bytes, inp: Bytes)
    requires p <= inp
    ensures Negotiate(p).used <= |p|
    ensures !Negotiate(p).end.Waiting? ==> Negotiate(inp) == Negotiate(p)
    ensures Negotiate(p).replies <= Negotiate(inp).replies
  {
    if |p| >= 2 && |p| >= 2 + p[1] as nat {
      ServeIsCausal(p, inp, 2 + p[1] as nat);
    }
  }

  lemma AwaitIsCausal(p: Bytes, inp: Bytes, at: nat, sent: Bytes)
    requires p <= inp && at <= |p|
    ensures AwaitReply(p, at, sent).used <= |p|
    ensures !AwaitReply(p, at, sent).end.Blocked? ==> AwaitReply(inp, at, sent) == AwaitReply(p, at, sent)
    ensures AwaitReply(p, at, sent).sent == AwaitReply(inp, at, sent).sent == sent
  {
    if |p| >= at + 4 && !AddressExtent(p, at + 4, p[at + 3]).Unknown? {
      ExtentOfPrefix(p, inp, at + 4, p[at + 3]);
    }
  }

  lemma AskIsCausal(t: Target, p: Bytes, inp: Bytes, at: nat, sent: Bytes)
    requires p <= inp && ValidTarget(t) && at <= |p|
    ensures AskConnect(t, p, at, sent).used <= |p|
    ensures !AskConnect(t, p, at, sent).end.Blocked? ==> AskConnect(t, inp, at, sent) == AskConnect(t, p, at, sent)
    ensures sent <= AskConnect(t, p, at, sent).sent == AskConnect(t, inp, at, sent).sent
  {
    match ConnectRequest(t)
    case None =>
    case Some(request) => AwaitIsCausal(p, inp, at, sent + request);
  }

  lemma AskSends(t: Target, inp: Bytes, at: nat, sent: Bytes)
    requires ValidTarget(t) && at <= |inp|
    ensures sent <= AskConnect(t, inp, at, sent).sent
  {
    AskIsCausal(t, inp, inp, at, sent);
  }

  /** The same for the client. */
  lemma ClientIsCausal(auth: Option<Credentials>, t: Target, p: Bytes, inp: Bytes)
    requires p <= inp && ValidTarget(t)
    ensures Handshake(auth, t, p).used <= |p|
    ensures !Handshake(auth, t, p).end.Blocked? ==> Handshake(auth, t, inp) == Handshake(auth, t, p)
    ensures Handshake(auth, t, p).sent <= Handshake(auth, t, inp).sent
  {
    var hello := Greeting(auth);
    if |p| >= 2 {
      AskIsCausal(t, p, inp, 2, hello);
    } else if |inp| >= 2 {
      AskSends(t, inp, 2, hello);
    }
    if auth.Some? && AuthMessage(auth.value).Some? {
      var told := hello + AuthMessage(auth.value).value;
      if |p| >= 4 {
        AskIsCausal(t, p, inp, 4, told);
      } else if |inp| >= 4 {
        AskSends(t, inp, 4, told);
      }
    }
  }

  /**
   Self-delimiting: an exchange the server completes on the first n bytes is completed on those
   n bytes whatever follows, n bytes are consumed and the rest is left, and no proper prefix of
   them is enough.
   */
  lemma ServerSelfDelimiting(inp: Bytes, tail: Bytes, m: nat)
    requires !Negotiate(inp).end.Waiting? && m < Negotiate(inp).used
    ensures Negotiate(inp).used <= |inp|
    ensures Negotiate(inp[..Negotiate(inp).used] + tail) == Negotiate(inp)
    ensures Negotiate(inp[..m]).end.Waiting?
  {
    ServerIsCausal(inp, inp);
    var n := Negotiate(inp).used;
    var p := inp[..n];
    assert !Negotiate(p).end.Waiting? by { ServerDecidesOnUsed(inp); }
    ServerIsCausal(p, inp);
    ServerIsCausal(p, p + tail);
    ServerIsCausal(inp[..m], inp);
  }

  lemma ServerDecidesOnUsed(inp: Bytes)
    requires !Negotiate(inp).end.Waiting? && Negotiate(inp).used <= |inp|
    ensures !Negotiate(inp[..Negotiate(inp).used]).end.Waiting?
  {
  }

  lemma ClientSelfDelimiting(auth: Option<Credentials>, t: Target, inp: Bytes, tail: Bytes, m: nat)
    requires ValidTarget(t) && !Handshake(auth, t, inp).end.Blocked? && m < Handshake(auth, t, inp).used
    ensures Handshake(auth, t, inp).used <= |inp|
    ensures Handshake(auth, t, inp[..Handshake(auth, t, inp).used] + tail) == Handshake(auth, t, inp)
    ensures Handshake(auth, t, inp[..m]).end.Blocked?
  {
    ClientIsCausal(auth, t, inp, inp);
    var p := inp[..Handshake(auth, t, inp).used];
    assert !Handshake(auth, t, p).end.Blocked? by { ClientDecidesOnUsed(auth, t, inp); }
    ClientIsCausal(auth, t, p, inp);
    ClientIsCausal(auth, t, p, p + tail);
    ClientIsCausal(auth, t, inp[..m], inp);
  }

  lemma ClientDecidesOnUsed(auth: Option<Credentials>, t: Target, inp: Bytes)
    requires ValidTarget(t) && !Handshake(auth, t, inp).end.Blocked? && Handshake(auth, t, inp).used <= |inp|
    ensures !Handshake(auth, t, inp[..Handshake(auth, t, inp).used]).end.Blocked?
  {
    if |inp| >= 2 && inp[1] == 0 { AskDecides(t, inp, 2, Greeting(auth)); }
    if |inp| >= 4 && inp[1] == 2 && auth.Some? && AuthMessage(auth.value).Some? {
      AskDecides(t, inp, 4, Greeting(auth) + AuthMessage(auth.value).value);
    }
  }

  lemma AskDecides(t: Target, inp: Bytes, at: nat, sent: Bytes)
    requires ValidTarget(t) && at <= |inp|
    ensures var r := AskConnect(t, inp, at, sent);
            !r.end.Blocked? ==> at <= r.used <= |inp| && !AskConnect(t, inp[..r.used], at, sent).end.Blocked?
  {
    if ConnectRequest(t).Some? { AwaitDecides(inp, at, sent + ConnectRequest(t).value); }
  }

  lemma AwaitDecides(inp: Bytes, at: nat, sent: Bytes)
    requires at <= |inp|
    ensures var r := AwaitReply(inp, at, sent);
            !r.end.Blocked? ==> at <= r.used <= |inp| && !AwaitReply(inp[..r.used], at, sent).end.Blocked?
  {
  }

  // ---- Encoding and decoding agree ----

  lemma PortRoundTrip(port: nat)
    requires port < 65536
    ensures PortBytes(port)[0] as nat * 256 + PortBytes(port)[1] as nat == port
  {
  }

  /** Whatever methods a client offers, the server reads past exactly its greeting. */
  lemma GreetingRead(auth: Option<Credentials>, rest: Bytes)
    ensures Negotiate(Greeting(auth) + rest) == ServeRequest(Greeting(auth) + rest, |Greeting(auth)|)
  {
  }

  lemma RequestBytes(before: Bytes, head: Bytes, addr: Bytes, port: nat, tail: Bytes)
    requires port < 65536 && 4 <= |head| <= 5
    ensures var inp := before + (head + addr + PortBytes(port)) + tail;
            var at := |before|;
            && |inp| >= at + |head| + |addr| + 2
            && (forall i :: 0 <= i < |head| ==> inp[at + i] == head[i])
            && inp[at + |head|..at + |head| + |addr|] == addr
            && inp[at + |head| + |addr|] == PortBytes(port)[0] && inp[at + |head| + |addr| + 1] == PortBytes(port)[1]
  {
    var request := head + addr + PortBytes(port);
    var inp := before + request + tail;
    assert forall i :: 0 <= i < |request| ==> inp[|before| + i] == request[i];
    var q := |head| + |addr|;
    assert request[q] == PortBytes(port)[0] && request[q + 1] == PortBytes(port)[1];
    assert inp[|before| + q] == request[q] && inp[|before| + (q + 1)] == request[q + 1];
  }

  /** A request for an address of n bytes, wherever it stands, is read back whole. */
  lemma AddressRead(before: Bytes, head: Bytes, addr: Bytes, port: nat, tail: Bytes)
    requires port < 65536
    requires (head == [5, 1, 0, 1] && |addr| == 4) || (head == [5, 1, 0, 4] && |addr| == 16)
             || (|addr| < 256 && head == [5, 1, 0, 3, |addr|])
    ensures ServeRequest(before + (head + addr + PortBytes(port)) + tail, |before|) ==
              Served(Agreed(Target(DecodedHost(head[3], addr), port)), |before| + |head| + |addr| + 2,
                     SELECT_NO_AUTH + Reply(0))
  {
    var inp := before + (head + addr + PortBytes(port)) + tail;
    var at := |before|;
    RequestBytes(before, head, addr, port, tail);
    PortRoundTrip(port);
    assert inp[at] == 5 && inp[at + 1] == 1 && inp[at + 3] == head[3];
    assert |head| == 5 ==> inp[at + 4] == head[4];
  }

  /** The server reads any client's greeting and request as the canonical target, and stops there. */
  lemma RequestRoundTrip(auth: Option<Credentials>, t: Target, tail: Bytes)
    requires ValidTarget(t) && ConnectRequest(t).Some?
    ensures Negotiate(Greeting(auth) + ConnectRequest(t).value + tail) ==
              Served(Agreed(CanonicalTarget(t)), |Greeting(auth) + ConnectRequest(t).value|, SELECT_NO_AUTH + Reply(0))
  {
    var hello, request := Greeting(auth), ConnectRequest(t).value;
    assert hello + request + tail == hello + (request + tail);
    GreetingRead(auth, request + tail);
    match Canonical(t.host)
    case V4(a) => AddressRead(hello, [5, 1, 0, 1], a, t.port, tail);
    case V6(a) => AddressRead(hello, [5, 1, 0, 4], a, t.port, tail); assert Canonical(V6(a)) == V6(a);
    case Name(n) => AddressRead(hello, [5, 1, 0, 3, |n|], n, t.port, tail);
  }

  /** A name of more than 255 bytes is the only valid target that cannot be asked for. */
  lemma RequestExistsIff(t: Target)
    requires ValidTarget(t)
    ensures ConnectRequest(t).Some? <==> !(t.host.Name? && |t.host.text| > 255)
  {
  }

  /** An RFC 1929 server: version, user, password. */
  function DecodeAuth(inp: Bytes): Option<(Credentials, Bytes)> {
    if |inp| < 2 || inp[0] != 1 then None
    else
      var u := 2 + inp[1] as nat;
      if |inp| < u + 1 || |inp| < u + 1 + inp[u] as nat then None
      else
        var v := u + 1 + inp[u] as nat;
        Some((Credentials(inp[2..u], inp[u + 1..v]), inp[v..]))
  }

  lemma AuthRoundTrip(c: Credentials, tail: Bytes)
    requires AuthMessage(c).Some?
    ensures DecodeAuth(AuthMessage(c).value + tail) == Some((c, tail))
  {
    var inp := AuthMessage(c).value + tail;
    var u := 2 + |c.user|;
    assert inp == [1, |c.user|] + c.user + [|c.pass|] + c.pass + tail;
    assert inp[2..u] == c.user;
    assert inp[u] == |c.pass|;
    assert inp[u + 1..u + 1 + |c.pass|] == c.pass;
    assert inp[u + 1 + |c.pass|..] == tail;
  }
}
