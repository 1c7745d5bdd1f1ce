/** The SOCKS5 code as it runs: methods that consume a reader and write messages step by step. */
module Socks5Io {
  import opened Prelude
  import opened Socks5

  /** A byte stream that ends where its data ends; a read that asks for more takes what is left and fails. */
  class Reader {
    const data: Bytes
    var pos: nat

    constructor (data: Bytes)
      ensures this.data == data && pos == 0
    {
      this.data, pos := data, 0;
    }

    ghost predicate Valid()
      reads this
    {
      pos <= |data|
    }

    method ReadFull(n: nat) returns (r: Option<Bytes>)
      requires Valid()
      modifies this
      ensures Valid()
      ensures old(pos) + n <= |data| ==> r == Some(data[old(pos)..old(pos) + n]) && pos == old(pos) + n
      ensures old(pos) + n > |data| ==> r.None? && pos == |data|
    {
      if pos + n <= |data| {
        r := Some(data[pos..pos + n]);
        pos := pos + n;
      } else {
        r := None;
        pos := |data|;
      }
    }
  }

  class Writer {
    var out: Bytes

    constructor ()
      ensures out == []
    {
      out := [];
    }

    method Write(b: Bytes)
      modifies this
      ensures out == old(out) + b
    {
      out := out + b;
    }
  }

  // ---- Server ----

  /** What the server writes when its input ends before it has decided. */
  function AtEof(s: Served): Bytes {
    if s.end == Waiting(true) then s.replies + Reply(8) else s.replies
  }

  /** An input that ends inside the address is answered like an unknown address type; any other end is silent. */
  lemma TruncatedAddress(inp: Bytes)
    ensures Negotiate(inp).end == Waiting(true) ==>
              AtEof(Negotiate(inp)) == [5, 0] + [5, 8, 0, 1, 0, 0, 0, 0, 0, 0]
    ensures Negotiate(inp).end != Waiting(true) ==> AtEof(Negotiate(inp)) == Negotiate(inp).replies
    ensures Negotiate(inp).end == Waiting(true) <==>
              |inp| >= 2 && inp[0] == 5 && |inp| >= 2 + inp[1] as nat + 4 &&
              var at := 2 + inp[1] as nat;
              inp[at] == 5 && inp[at + 1] == 1
              && (|| (inp[at + 3] == 1 && |inp| < at + 8)
                  || (inp[at + 3] == 4 && |inp| < at + 20)
                  || (inp[at + 3] == 3 && (|inp| < at + 5 || |inp| < at + 5 + inp[at + 4] as nat)))
  {
  }

  datatype Address = Found(host: Host) | WrongType | Cut

  method ReadAddress(r: Reader, kind: byte) returns (a: Address)
    requires r.Valid()
    modifies r
    ensures r.Valid()
    ensures match AddressExtent(r.data, old(r.pos), kind)
            case Unsupported => a == WrongType && r.pos == old(r.pos)
            case Unknown => a == Cut && r.pos == |r.data|
            case Extent(start, n) =>
              if start + n <= |r.data| then
                a == Found(DecodedHost(kind, r.data[start..start + n])) && r.pos == start + n
              else a == Cut && r.pos == |r.data|
  {
    if kind == 1 {
      var buf := r.ReadFull(4);
      a := if buf.Some? then Found(V4(buf.value)) else Cut;
    } else if kind == 4 {
      var buf := r.ReadFull(16);
      a := if buf.Some? then Found(Canonical(V6(buf.value))) else Cut;
    } else if kind == 3 {
      var length := r.ReadFull(1);
      if length.None? {
        return Cut;
      }
      var buf := r.ReadFull(length.value[0]);
      a := if buf.Some? then Found(Name(buf.value)) else Cut;
    } else {
      a := WrongType;
    }
  }

  /** socks5Negotiate on a stream that ends after its data. */
  method ServeNegotiation(r: Reader, w: Writer) returns (end: ServerEnd)
    requires r.pos == 0 && w.out == []
    modifies r, w
    ensures end == Negotiate(r.data).end
    ensures w.out == AtEof(Negotiate(r.data))
    ensures r.pos == Negotiate(r.data).used
  {
    var version := r.ReadFull(1);
    if version.None? {
      return Waiting(false);
    }
    if version.value[0] != 5 {
      return Refused(BadVersion);
    }
    var count := r.ReadFull(1);
    if count.None? {
      return Waiting(false);
    }
    var methods := r.ReadFull(count.value[0]);
    if methods.None? {
      return Waiting(false);
    }
    w.Write(SELECT_NO_AUTH);
    end := ServeConnect(r, w);
  }

  /** The second half, once the method selection is written. */
  method ServeConnect(r: Reader, w: Writer) returns (end: ServerEnd)
    requires r.Valid() && w.out == SELECT_NO_AUTH
    modifies r, w
    ensures end == ServeRequest(r.data, old(r.pos)).end
    ensures w.out == AtEof(ServeRequest(r.data, old(r.pos)))
    ensures r.pos == ServeRequest(r.data, old(r.pos)).used
  {
    var head := r.ReadFull(4);
    if head.None? {
      return Waiting(false);
    }
    if head.value[0] != 5 {
      return Refused(BadVersion);
    }
    if head.value[1] != 1 {
      w.Write(Reply(7));
      return Refused(BadCommand);
    }
    var address := ReadAddress(r, head.value[3]);
    if !address.Found? {
      w.Write(Reply(8));
      return if address.WrongType? then Refused(BadAddressType) else Waiting(true);
    }
    var port := r.ReadFull(2);
    if port.None? {
      return Waiting(false);
    }
    w.Write(Reply(0));
    end := Agreed(Target(address.host, port.value[0] as nat * 256 + port.value[1] as nat));
  }

  // ---- Client ----

  /** socks5ConnectRequest, built up piece by piece. */
  method BuildRequest(t: Target) returns (request: Option<Bytes>)
    requires ValidTarget(t)
    ensures request == ConnectRequest(t)
  {
    var bytes: Bytes := [5, 1, 0];
    var host := Canonical(t.host);
    match host {
      case V4(a) =>
        bytes := bytes + [1];
        bytes := bytes + a;
      case V6(a) =>
        bytes := bytes + [4];
        bytes := bytes + a;
      case Name(n) =>
        if |n| > 255 {
          return None;
        }
        bytes := bytes + [3, |n|];
        bytes := bytes + n;
    }
    assert bytes == (match host case V4(a) => [5, 1, 0, 1] + a
                                case V6(a) => [5, 1, 0, 4] + a
                                case Name(n) => [5, 1, 0, 3, |n|] + n);
    bytes := bytes + [t.port / 256, t.port % 256];
    request := Some(bytes);
  }

  /** socks5UsernamePassword's message. */
  method BuildAuth(c: Credentials) returns (message: Option<Bytes>)
    ensures message == AuthMessage(c)
  {
    if |c.user| > 255 || |c.pass| > 255 {
      return None;
    }
    var bytes: Bytes := [1, |c.user|];
    bytes := bytes + c.user;
    bytes := bytes + [|c.pass|];
    bytes := bytes + c.pass;
    message := Some(bytes);
  }

  /** readSOCKS5ConnectReply with discardSOCKS5BoundAddress. */
  method ReadReply(r: Reader, ghost sent: Bytes) returns (end: ClientEnd)
    requires r.Valid()
    modifies r
    ensures end == AwaitReply(r.data, old(r.pos), sent).end
    ensures r.pos == AwaitReply(r.data, old(r.pos), sent).used
  {
    var header := r.ReadFull(4);
    if header.None? {
      return Blocked;
    }
    if header.value[0] != 5 {
      return Failed(NotSocks5);
    }
    var n := 0;
    var kind := header.value[3];
    if kind == 1 {
      n := 4;
    } else if kind == 4 {
      n := 16;
    } else if kind == 3 {
      var length := r.ReadFull(1);
      if length.None? {
        return Blocked;
      }
      n := length.value[0] as nat;
    } else {
      return Failed(UnknownReplyType);
    }
    var bound := r.ReadFull(n + 2);
    if bound.None? {
      return Blocked;
    }
    if header.value[1] != 0 {
      return Failed(ConnectFailed(header.value[1]));
    }
    end := Connected;
  }

  /** socks5Handshake on a stream that ends after its data. */
  method DialHandshake(auth: Option<Credentials>, t: Target, r: Reader, w: Writer) returns (end: ClientEnd)
    requires ValidTarget(t) && r.pos == 0 && w.out == []
    modifies r, w
    ensures end == Handshake(auth, t, r.data).end
    ensures w.out == Handshake(auth, t, r.data).sent
    ensures r.pos == Handshake(auth, t, r.data).used
  {
    var methods: Bytes := [0];
    if auth.Some? {
      methods := methods + [2];
    }
    w.Write([5, |methods|] + methods);
    assert w.out == Greeting(auth);
    var response := r.ReadFull(2);
    if response.None? {
      return Blocked;
    }
    if response.value[0] != 5 {
      return Failed(NotSocks5);
    }
    if response.value[1] == 255 {
      return Failed(NoMethodAccepted);
    }
    if response.value[1] == 2 {
      if auth.None? {
        return Failed(NeedsCredentials);
      }
      var message := BuildAuth(auth.value);
      if message.None? {
        return Failed(CredentialsTooLong);
      }
      w.Write(message.value);
      var verdict := r.ReadFull(2);
      if verdict.None? {
        return Blocked;
      }
      if verdict.value[1] != 0 {
        return Failed(AuthRejected);
      }
    } else if response.value[1] != 0 {
      return Failed(UnknownMethod);
    }
    var request := BuildRequest(t);
    if request.None? {
      return Failed(NameTooLong);
    }
    w.Write(request.value);
    end := ReadReply(r, w.out);
  }
}
