/**
 The target as text: what the SOCKS5 client is asked to dial, and what the server returns after
 the exchange. How the library reads and writes address literals is a parameter.
 */
module Socks5Text {
  import opened Prelude
  import opened Text
  import opened HostPort
  import opened Socks5
  import Socks5Compose

  // ---- Text and octets ----

  predicate IsOctets(s: string) {
    forall i :: 0 <= i < |s| ==> s[i] as int < 256
  }

  function Octets(s: string): (b: Bytes)
    requires IsOctets(s)
    ensures |b| == |s|
  {
    seq(|s|, i requires 0 <= i < |s| => s[i] as int)
  }

  function Chars(b: Bytes): (s: string)
    ensures |s| == |b|
  {
    seq(|b|, i requires 0 <= i < |b| => b[i] as char)
  }

  lemma CharsOctets(s: string)
    requires IsOctets(s)
    ensures Chars(Octets(s)) == s
  {
  }

  // ---- The client's reading of its target ----

  datatype TargetError = NoPort | BadPort

  /** strconv.ParseUint in base 10 with 16 bits. */
  function ParsePort(s: string): Option<nat> {
    match ParseNat(s)
    case None => None
    case Some(n) => if n < 65536 then Some(n) else None
  }

  /** net.ParseIP as far as it matters here: an address of four or sixteen octets, or none. */
  ghost predicate ReadsLiterals(literal: string -> Option<Host>) {
    forall s :: literal(s).Some? ==>
      match literal(s).value
      case V4(addr) => |addr| == 4
      case V6(addr) => |addr| == 16
      case Name(_) => false
  }

  /** net.IP.String: no brackets. */
  ghost predicate PrintsLiterals(textOf: Host -> string) {
    forall h :: BracketFree(textOf(h))
  }

  function ClientTarget(literal: string -> Option<Host>, s: string): Result<Target, TargetError>
    requires IsOctets(s)
  {
    match SplitHostPort(s)
    case None => Err(NoPort)
    case Some(a) =>
      match ParsePort(a.port)
      case None => Err(BadPort)
      case Some(port) =>
        match literal(a.host)
        case Some(h) => Ok(Target(h, port))
        case None => Ok(Target(Name(HostOctets(s, a)), port))
  }

  function HostOctets(s: string, a: Address): Bytes
    requires IsOctets(s) && SplitHostPort(s) == Some(a)
  {
    assert IsOctets(a.host) by { HostIsOctets(s); }
    Octets(a.host)
  }

  lemma HostIsOctets(s: string)
    requires IsOctets(s) && SplitHostPort(s).Some?
    ensures IsOctets(SplitHostPort(s).value.host)
  {
    SplitShape(s);
    PartIsOctets(SplitHostPort(s).value, s[0] == '[');
  }

  lemma PartIsOctets(a: Address, bracketed: bool)
    requires IsOctets(Rejoined(a, bracketed))
    ensures IsOctets(a.host)
  {
    var s := Rejoined(a, bracketed);
    var start := if bracketed then 1 else 0;
    forall i | 0 <= i < |a.host| ensures a.host[i] as int < 256 {
      assert a.host[i] == s[start + i];
    }
  }

  /** Every host and port that can be written is read back, and no port above 65535. */
  lemma TargetOfText(literal: string -> Option<Host>, host: string, port: nat)
    requires BracketFree(host) && IsOctets(JoinHostPort(host, Itoa(port)))
    ensures ClientTarget(literal, JoinHostPort(host, Itoa(port))).Ok? <==> port < 65536
    ensures port < 65536 ==> ClientTarget(literal, JoinHostPort(host, Itoa(port))).value.port == port
    ensures port >= 65536 ==> ClientTarget(literal, JoinHostPort(host, Itoa(port))) == Err(BadPort)
  {
    DigitsAreNoSeparators(port);
    SplitJoin(host, Itoa(port));
    ParseItoa(port);
  }

  // ---- The text the server returns ----

  function HostText(textOf: Host -> string, h: Host): string {
    if h.Name? then Chars(h.text) else textOf(h)
  }

  function ServerText(textOf: Host -> string, t: Target): string {
    JoinHostPort(HostText(textOf, t.host), Itoa(t.port))
  }

  lemma DigitsAreNoSeparators(n: nat)
    ensures BracketFree(Itoa(n)) && ':' !in Itoa(n)
  {
  }

  lemma PlainRejoining(a: Address, b: Address)
    requires Rejoined(a, false) == Rejoined(b, false) && ':' !in a.port && ':' !in b.port
    ensures a == b
  {
    var s := Rejoined(a, false);
    LastIndexAt(a.host, ':', a.port);
    LastIndexAt(b.host, ':', b.port);
    assert s[..|a.host|] == a.host && s[|a.host| + 1..] == a.port;
    assert s[..|b.host|] == b.host && s[|b.host| + 1..] == b.port;
  }

  /** Host, port and brackets make up the text in one way only. */
  lemma RejoinedIff(a: Address, p: bool, b: Address, q: bool)
    requires BracketFree(a.host) && BracketFree(b.host) && ':' !in a.port && ':' !in b.port
    ensures Rejoined(a, p) == Rejoined(b, q) <==> a == b && p == q
  {
    assert Rejoined(a, p)[0] == '[' <==> p;
    assert Rejoined(b, q)[0] == '[' <==> q;
    if Rejoined(a, p) == Rejoined(b, q) {
      if p { OneRejoining(a, b); } else { PlainRejoining(a, b); }
    }
  }

  /** The target is written as the server would write it: a canonical host and port, and brackets only where needed. */
  predicate Canonically(literal: string -> Option<Host>, textOf: Host -> string, s: string)
    requires IsOctets(s) && ClientTarget(literal, s).Ok?
  {
    var a := SplitHostPort(s).value;
    var t := CanonicalTarget(ClientTarget(literal, s).value);
    && HostText(textOf, t.host) == a.host
    && Itoa(t.port) == a.port
    && (s[0] == '[' <==> ':' in a.host)
  }

  lemma HostTextIsBracketFree(literal: string -> Option<Host>, textOf: Host -> string, s: string)
    requires IsOctets(s) && ClientTarget(literal, s).Ok? && ReadsLiterals(literal) && PrintsLiterals(textOf)
    ensures BracketFree(HostText(textOf, CanonicalTarget(ClientTarget(literal, s).value).host))
    ensures literal(SplitHostPort(s).value.host).None? ==>
              HostText(textOf, CanonicalTarget(ClientTarget(literal, s).value).host) == SplitHostPort(s).value.host
  {
    var a := SplitHostPort(s).value;
    SplitShape(s);
    if literal(a.host).None? {
      HostIsOctets(s);
      CharsOctets(a.host);
    } else {
      assert !Canonical(literal(a.host).value).Name?;
    }
  }

  /** The text comes back unchanged exactly when it was written canonically. */
  lemma SameTextIff(literal: string -> Option<Host>, textOf: Host -> string, s: string)
    requires IsOctets(s) && ClientTarget(literal, s).Ok? && ReadsLiterals(literal) && PrintsLiterals(textOf)
    ensures ServerText(textOf, CanonicalTarget(ClientTarget(literal, s).value)) == s
            <==> Canonically(literal, textOf, s)
  {
    var a := SplitHostPort(s).value;
    var t := CanonicalTarget(ClientTarget(literal, s).value);
    var b := Address(HostText(textOf, t.host), Itoa(t.port));
    SplitShape(s);
    HostTextIsBracketFree(literal, textOf, s);
    DigitsAreNoSeparators(t.port);
    assert JoinHostPort(b.host, b.port) == Rejoined(b, ':' in b.host);
    RejoinedIff(b, ':' in b.host, a, s[0] == '[');
  }

  lemma TargetIsValid(literal: string -> Option<Host>, s: string)
    requires IsOctets(s) && ClientTarget(literal, s).Ok? && ReadsLiterals(literal)
    ensures ValidTarget(ClientTarget(literal, s).value)
  {
    var a := SplitHostPort(s).value;
    assert literal(a.host).Some? ==> !literal(a.host).value.Name?;
  }

  /**
   The two ends run against each other, whatever the network does: when nothing more can
   happen, the server has the target of the text the client was given, and returns that very
   text if and only if its host and port were written canonically. For a name that is to say:
   the port has no leading zeros, and there are brackets exactly when the name has a colon.
   */
  lemma EndsAgreeOnText(literal: string -> Option<Host>, textOf: Host -> string, s: string,
                        auth: Option<Credentials>, ls: seq<Socks5Compose.Label>)
    requires IsOctets(s) && ClientTarget(literal, s).Ok? && ReadsLiterals(literal) && PrintsLiterals(textOf)
    requires ValidTarget(ClientTarget(literal, s).value) && ConnectRequest(ClientTarget(literal, s).value).Some?
    requires Socks5Compose.Exec(auth, ClientTarget(literal, s).value, ls).Some?
    ensures var t := ClientTarget(literal, s).value;
            var net := Socks5Compose.Exec(auth, t, ls).value;
            Socks5Compose.Stuck(auth, t, net) ==>
              && Negotiate(net.serverSeen).end.Agreed?
              && (ServerText(textOf, Negotiate(net.serverSeen).end.target) == s <==> Canonically(literal, textOf, s))
  {
    Socks5Compose.EndsCompose(auth, ClientTarget(literal, s).value, ls);
    SameTextIff(literal, textOf, s);
  }

  /** For a name, only the port and the brackets can differ. */
  lemma CanonicalName(literal: string -> Option<Host>, textOf: Host -> string, s: string)
    requires IsOctets(s) && ClientTarget(literal, s).Ok? && literal(SplitHostPort(s).value.host).None?
    requires ReadsLiterals(literal) && PrintsLiterals(textOf)
    ensures var a := SplitHostPort(s).value;
            Canonically(literal, textOf, s) <==>
              Itoa(ParsePort(a.port).value) == a.port && (s[0] == '[' <==> ':' in a.host)
  {
    HostTextIsBracketFree(literal, textOf, s);
  }
}
