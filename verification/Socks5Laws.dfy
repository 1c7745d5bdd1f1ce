/**
 Both ends of SOCKS5 byte by byte, as sections 3 to 6 of RFC 1928 and section 2 of RFC 1929 lay
 the messages out: which inputs lead to which end, and which octets are written.
 */
module Socks5Laws {
  import opened Prelude
  import opened Socks5

  // ---- Layout ----

  /** An address of a known type, and a port behind it. */
  predicate CompleteAt(inp: Bytes, at: nat, kind: byte) {
    || (kind == 1 && |inp| >= at + 4 + 2)
    || (kind == 4 && |inp| >= at + 16 + 2)
    || (kind == 3 && |inp| >= at + 1 && |inp| >= at + 1 + inp[at] as nat + 2)
  }

  /** A reply with this status and a whole bound address. */
  predicate ReplyAt(inp: Bytes, at: nat, status: byte) {
    |inp| >= at + 4 && inp[at] == 5 && inp[at + 1] == status && CompleteAt(inp, at + 4, inp[at + 3])
  }

  predicate Fits(auth: Option<Credentials>) {
    auth.Some? && |auth.value.user| <= 255 && |auth.value.pass| <= 255
  }

  /** The proxy chose no authentication, or accepted the credentials; the reply starts at at. */
  predicate AcceptedAt(auth: Option<Credentials>, inp: Bytes, at: nat) {
    || (at == 2 && |inp| >= 2 && inp[0] == 5 && inp[1] == 0)
    || (at == 4 && |inp| >= 4 && inp[0] == 5 && inp[1] == 2 && Fits(auth) && inp[3] == 0)
  }

  predicate Askable(t: Target) {
    t.host.Name? ==> |t.host.text| <= 255
  }

  /** The proxy accepted the client, and this status came with a whole bound address. */
  predicate Replied(auth: Option<Credentials>, inp: Bytes, status: byte) {
    || (AcceptedAt(auth, inp, 2) && ReplyAt(inp, 2, status))
    || (AcceptedAt(auth, inp, 4) && ReplyAt(inp, 4, status))
  }

  // ---- The client ----

  /** Only status 0 is a connection, and every other status fails with that very status. */
  lemma ConnectedIff(auth: Option<Credentials>, t: Target, inp: Bytes)
    requires ValidTarget(t)
    ensures Handshake(auth, t, inp).end == Connected <==> Askable(t) && Replied(auth, inp, 0)
    ensures forall status: byte :: status != 0 ==>
              (Handshake(auth, t, inp).end == Failed(ConnectFailed(status))
               <==> Askable(t) && Replied(auth, inp, status))
  {
  }

  /** A connection refused by the target. */
  lemma RefusedIsNotConnected(t: Target)
    requires ValidTarget(t) && Askable(t)
    ensures Handshake(None, t, [5, 0] + [5, 5, 0, 1, 0, 0, 0, 0, 0, 0]).end == Failed(ConnectFailed(5))
  {
    assert Replied(None, [5, 0] + [5, 5, 0, 1, 0, 0, 0, 0, 0, 0], 5);
    ConnectedIff(None, t, [5, 0] + [5, 5, 0, 1, 0, 0, 0, 0, 0, 0]);
  }

  /** What the proxy's choice of method leads to. */
  lemma SelectionIff(auth: Option<Credentials>, t: Target, inp: Bytes)
    requires ValidTarget(t) && |inp| >= 2 && inp[0] == 5
    ensures var end := Handshake(auth, t, inp).end;
            && (end == Failed(NoMethodAccepted) <==> inp[1] == 255)
            && (end == Failed(UnknownMethod) <==> inp[1] != 0 && inp[1] != 2 && inp[1] != 255)
            && (end == Failed(NeedsCredentials) <==> inp[1] == 2 && auth.None?)
            && (end == Failed(CredentialsTooLong) <==> inp[1] == 2 && auth.Some? && !Fits(auth))
            && (end == Failed(AuthRejected) <==> inp[1] == 2 && Fits(auth) && |inp| >= 4 && inp[3] != 0)
  {
  }

  /** What an accepted client makes of a reply that is not a status, and of a target it cannot ask for. */
  lemma MalformedReplyIff(auth: Option<Credentials>, t: Target, inp: Bytes, at: nat)
    requires ValidTarget(t) && AcceptedAt(auth, inp, at)
    ensures var end := Handshake(auth, t, inp).end;
            && (end == Failed(NameTooLong) <==> !Askable(t))
            && (end == Failed(NotSocks5) <==> Askable(t) && |inp| >= at + 4 && inp[at] != 5)
            && (end == Failed(UnknownReplyType) <==>
                  Askable(t) && |inp| >= at + 4 && inp[at] == 5 && inp[at + 3] !in {1, 3, 4})
  {
  }

  lemma NotSocksIff(auth: Option<Credentials>, t: Target, inp: Bytes)
    requires ValidTarget(t) && |inp| >= 2
    ensures inp[0] != 5 ==> Handshake(auth, t, inp).end == Failed(NotSocks5)
  {
  }

  /** The octets of a request: version 5, CONNECT, the address by type, the port in network order. */
  ghost predicate RequestOctets(t: Target, kind: byte, addr: Bytes, r: Bytes) {
    && |r| == 4 + |addr| + 2
    && r[0] == 5 && r[1] == 1 && r[2] == 0 && r[3] == kind
    && (forall i :: 0 <= i < |addr| ==> r[4 + i] == addr[i])
    && r[4 + |addr|] as nat * 256 + r[4 + |addr| + 1] as nat == t.port
  }

  /** An IPv6 address that stands for an IPv4 one: ten zeros and two 255s in front. */
  predicate MapsV4(addr: Bytes) {
    |addr| == 16 && (forall i :: 0 <= i < 10 ==> addr[i] == 0) && addr[10] == 255 && addr[11] == 255
  }

  lemma MappedPrefix(addr: Bytes)
    requires |addr| == 16
    ensures addr[..12] == MAPPED_PREFIX <==> MapsV4(addr)
  {
    var p := addr[..12];
    assert p == MAPPED_PREFIX ==> forall i :: 0 <= i < 12 ==> addr[i] == MAPPED_PREFIX[i];
    assert MapsV4(addr) ==> p == MAPPED_PREFIX;
  }

  lemma RequestMeans(t: Target)
    requires ValidTarget(t) && Askable(t)
    ensures ConnectRequest(t).Some?
    ensures t.host.V4? ==> RequestOctets(t, 1, t.host.addr, ConnectRequest(t).value)
    ensures t.host.V6? && MapsV4(t.host.addr) ==> RequestOctets(t, 1, t.host.addr[12..], ConnectRequest(t).value)
    ensures t.host.V6? && !MapsV4(t.host.addr) ==> RequestOctets(t, 4, t.host.addr, ConnectRequest(t).value)
    ensures t.host.Name? ==> RequestOctets(t, 3, [|t.host.text|] + t.host.text, ConnectRequest(t).value)
  {
    if t.host.V6? { MappedPrefix(t.host.addr); }
  }

  /** The messages the client has written, as far as the proxy's answers have let it. */
  lemma ClientWrites(auth: Option<Credentials>, t: Target, inp: Bytes)
    requires ValidTarget(t)
    ensures var hello: Bytes := if auth.None? then [5, 1, 0] else [5, 2, 0, 2];
            var sent := Handshake(auth, t, inp).sent;
            var told := |inp| >= 2 && inp[0] == 5 && inp[1] == 2 && Fits(auth);
            && (!AcceptedAt(auth, inp, 2) && !told ==> sent == hello)
            && (told && !(AcceptedAt(auth, inp, 4) && Askable(t)) ==> sent == hello + AuthMessage(auth.value).value)
            && (AcceptedAt(auth, inp, 2) ==> sent == hello + (if Askable(t) then ConnectRequest(t).value else []))
            && (AcceptedAt(auth, inp, 4) && Askable(t) ==>
                  sent == hello + AuthMessage(auth.value).value + ConnectRequest(t).value)
  {
  }

  // ---- The server ----

  /** A whole greeting; the request starts behind it. */
  predicate Greets(inp: Bytes) {
    |inp| >= 2 && inp[0] == 5 && |inp| >= 2 + inp[1] as nat
  }

  predicate Heads(inp: Bytes) {
    Greets(inp) && |inp| >= 2 + inp[1] as nat + 4
  }

  /** Address and port of a request whose address is n octets from start. */
  ghost predicate Names(t: Target, inp: Bytes, start: nat, n: nat, kind: byte)
    requires start + n + 2 <= |inp|
  {
    && t.port == inp[start + n] as nat * 256 + inp[start + n + 1] as nat
    && match t.host
       case V4(a) => (kind == 1 && a == inp[start..start + n])
                     || (kind == 4 && MapsV4(inp[start..start + n]) && a == inp[start + 12..start + 16])
       case V6(a) => kind == 4 && a == inp[start..start + n] && !MapsV4(a)
       case Name(s) => kind == 3 && s == inp[start..start + n]
  }

  /** The server agrees exactly to a CONNECT of version 5 with a whole address of a known type. */
  lemma AgreedIff(inp: Bytes)
    ensures Negotiate(inp).end.Agreed? <==>
              Heads(inp) &&
              var at := 2 + inp[1] as nat;
              inp[at] == 5 && inp[at + 1] == 1 && CompleteAt(inp, at + 4, inp[at + 3])
  {
  }

  /** And the target is the one the octets name. */
  lemma AgreedTarget(inp: Bytes)
    requires Negotiate(inp).end.Agreed?
    ensures Heads(inp)
    ensures var at := 2 + inp[1] as nat;
            var kind := inp[at + 3];
            var start := if kind == 3 then at + 5 else at + 4;
            var n := if kind == 1 then 4 else if kind == 4 then 16 else inp[at + 4] as nat;
            start + n + 2 <= |inp| && Names(Negotiate(inp).end.target, inp, start, n, kind)
  {
    var at := 2 + inp[1] as nat;
    if inp[at + 3] == 4 {
      var addr := inp[at + 4..at + 20];
      MappedPrefix(addr);
      assert addr[12..] == inp[at + 16..at + 20];
    }
  }

  lemma RefusedIff(inp: Bytes)
    ensures Negotiate(inp).end == Refused(BadVersion) <==>
              (|inp| >= 1 && inp[0] != 5) || (Heads(inp) && inp[2 + inp[1] as nat] != 5)
    ensures Negotiate(inp).end == Refused(BadCommand) <==>
              Heads(inp) && var at := 2 + inp[1] as nat; inp[at] == 5 && inp[at + 1] != 1
    ensures Negotiate(inp).end == Refused(BadAddressType) <==>
              Heads(inp) && var at := 2 + inp[1] as nat; inp[at] == 5 && inp[at + 1] == 1 && inp[at + 3] !in {1, 3, 4}
  {
  }

  /** The octets of the reply to each outcome. */
  lemma ServerWrites(inp: Bytes)
    ensures var s := Negotiate(inp);
            && (!Greets(inp) ==> s.replies == [])
            && (Greets(inp) && (s.end.Waiting? || s.end == Refused(BadVersion)) ==> s.replies == [5, 0])
            && (s.end.Agreed? ==> s.replies == [5, 0] + [5, 0, 0, 1, 0, 0, 0, 0, 0, 0])
            && (s.end == Refused(BadCommand) ==> s.replies == [5, 0] + [5, 7, 0, 1, 0, 0, 0, 0, 0, 0])
            && (s.end == Refused(BadAddressType) ==> s.replies == [5, 0] + [5, 8, 0, 1, 0, 0, 0, 0, 0, 0])
  {
  }
}
