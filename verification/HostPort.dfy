/** net.SplitHostPort, net.JoinHostPort and the host normalisation of the certificate cache. */
module HostPort {
  import opened Prelude
  import opened Text

  /** The first position of c, if there is one. */
  function Index(s: string, c: char): (r: Option<nat>)
    ensures r.None? <==> c !in s
    ensures r.Some? ==> r.value < |s| && s[r.value] == c && c !in s[..r.value]
  {
    if s == [] then None
    else if s[0] == c then Some(0)
    else
      match Index(s[1..], c)
      case None => None
      case Some(i) =>
        assert s[..i + 1] == [s[0]] + s[1..][..i];
        Some(i + 1)
  }

  function LastIndex(s: string, c: char): (r: Option<nat>)
    ensures r.None? <==> c !in s
    ensures r.Some? ==> r.value < |s| && s[r.value] == c && c !in s[r.value + 1..]
  {
    if s == [] then None
    else if s[|s| - 1] == c then Some(|s| - 1)
    else
      match LastIndex(s[..|s| - 1], c)
      case None => None
      case Some(i) =>
        assert s[i + 1..] == s[..|s| - 1][i + 1..] + [s[|s| - 1]];
        Some(i)
  }

  datatype Address = Address(host: string, port: string)

  /** Splits at the last colon; a host that contains colons must be in brackets. */
  function SplitHostPort(s: string): Option<Address> {
    match LastIndex(s, ':')
    case None => None
    case Some(i) =>
      if s[0] == '[' then
        match Index(s, ']')
        case None => None
        case Some(end) =>
          if end + 1 != i || '[' in s[1..] || ']' in s[end + 1..] then None
          else Some(Address(s[1..end], s[i + 1..]))
      else if ':' in s[..i] || '[' in s || ']' in s then None
      else Some(Address(s[..i], s[i + 1..]))
  }

  function JoinHostPort(host: string, port: string): string {
    if ':' in host then "[" + host + "]" + ":" + port else host + ":" + port
  }

  lemma {:induction false} LastIndexAt(a: string, c: char, b: string)
    requires c !in b
    ensures LastIndex(a + [c] + b, c) == Some(|a|)
    decreases |b|
  {
    var s := a + [c] + b;
    if b != [] {
      var front := b[..|b| - 1];
      assert s[..|s| - 1] == a + [c] + front && s[|s| - 1] == b[|b| - 1];
      LastIndexAt(a, c, front);
    }
  }

  lemma {:induction false} IndexAt(a: string, c: char, b: string)
    requires c !in a
    ensures Index(a + [c] + b, c) == Some(|a|)
    decreases |a|
  {
    var s := a + [c] + b;
    if a != [] {
      assert s[1..] == a[1..] + [c] + b && s[0] == a[0];
      IndexAt(a[1..], c, b);
    }
  }

  lemma BracketedFirst(host: string, port: string)
    requires ']' !in host
    ensures Index("[" + host + "]" + ":" + port, ']') == Some(|host| + 1)
  {
    var front, back := "[" + host, ":" + port;
    assert "[" + host + "]" + ":" + port == front + [']'] + back;
    IndexAt(front, ']', back);
  }

  lemma BracketedParts(host: string, port: string)
    ensures var s := "[" + host + "]" + ":" + port;
            && s[1..] == host + "]" + ":" + port
            && s[|host| + 2..] == ":" + port
            && s[1..|host| + 1] == host && s[|host| + 3..] == port
  {
  }

  lemma SplitBracketed(host: string, port: string)
    requires '[' !in host && ']' !in host && '[' !in port && ']' !in port && ':' !in port
    ensures SplitHostPort("[" + host + "]" + ":" + port) == Some(Address(host, port))
  {
    LastIndexAt("[" + host + "]", ':', port);
    BracketedFirst(host, port);
    BracketedParts(host, port);
    assert '[' !in host + "]" + ":" + port && ']' !in ":" + port;
  }

  lemma SplitPlain(host: string, port: string)
    requires ':' !in host && '[' !in host && ']' !in host && '[' !in port && ']' !in port && ':' !in port
    ensures SplitHostPort(host + ":" + port) == Some(Address(host, port))
  {
    var s := host + ":" + port;
    assert s == host + [':'] + port;
    LastIndexAt(host, ':', port);
    assert s[0] == (if host == [] then ':' else host[0]);
    assert s[..|host|] == host && s[|host| + 1..] == port;
  }

  /** Splitting undoes joining when host and port are free of the separators they may not contain. */
  lemma SplitJoin(host: string, port: string)
    requires '[' !in host && ']' !in host && '[' !in port && ']' !in port && ':' !in port
    ensures SplitHostPort(JoinHostPort(host, port)) == Some(Address(host, port))
  {
    if ':' in host { SplitBracketed(host, port); } else { SplitPlain(host, port); }
  }

  /** The cache key: any port is dropped, letters are lower-cased. */
  function NormalizeHost(host: string): string {
    match SplitHostPort(host)
    case Some(a) => Lower(a.host)
    case None => Lower(host)
  }

  predicate OneColon(host: string) {
    exists i :: 0 <= i < |host| && host[i] == ':' && ':' !in host[..i] && ':' !in host[i + 1..]
  }

  /** Without brackets, only a single colon separates a port. */
  lemma SplitsIffOneColon(host: string)
    requires '[' !in host && ']' !in host
    ensures SplitHostPort(host).Some? <==> OneColon(host)
    ensures SplitHostPort(host).Some? ==> |SplitHostPort(host).value.host| < |host|
  {
    if OneColon(host) {
      var i :| 0 <= i < |host| && host[i] == ':' && ':' !in host[..i] && ':' !in host[i + 1..];
      assert host == host[..i] + [':'] + host[i + 1..];
      LastIndexAt(host[..i], ':', host[i + 1..]);
    } else if ':' in host {
      assert LastIndex(host, ':').Some?;
    }
  }

  predicate BracketFree(s: string) {
    '[' !in s && ']' !in s
  }

  /** A host written as an address literal, in brackets. */
  predicate Bracketed(host: string) {
    |host| >= 2 && host[0] == '[' && host[|host| - 1] == ']'
  }

  /** How a client writes the host with a port: an address in brackets keeps them, one without gets them. */
  function WithPort(host: string, port: string): string {
    if Bracketed(host) then host + ":" + port else JoinHostPort(host, port)
  }

  /** Host and port as they stand in a text that was split at i. */
  function Rejoined(a: Address, bracketed: bool): string {
    if bracketed then "[" + a.host + "]" + ":" + a.port else a.host + ":" + a.port
  }

  lemma BracketedShape(s: string)
    requires SplitHostPort(s).Some? && s[0] == '['
    ensures var a := SplitHostPort(s).value;
            BracketFree(a.host) && BracketFree(a.port) && ':' !in a.port && s == Rejoined(a, true)
  {
    var i, end := LastIndex(s, ':').value, Index(s, ']').value;
    PartFree(s, 1, |s|, 1, end, '[');
    PartFree(s, 0, end, 1, end, ']');
    PartFree(s, 1, |s|, i + 1, |s|, '[');
    PartFree(s, end + 1, |s|, i + 1, |s|, ']');
    assert s[1..] == s[1..|s|] && s[..end] == s[0..end] && s[end + 1..] == s[end + 1..|s|];
    FiveParts(s, end);
  }

  /** What is not in a part of the text is not in a part of that part. */
  lemma PartFree(s: string, a: nat, b: nat, i: nat, j: nat, c: char)
    requires a <= i <= j <= b <= |s| && c !in s[a..b]
    ensures c !in s[i..j]
  {
    forall k | i <= k < j ensures s[k] != c {
      assert s[k] == s[a..b][k - a];
    }
  }

  lemma FiveParts(s: string, end: nat)
    requires 1 <= end && end + 1 < |s|
    ensures s == [s[0]] + s[1..end] + [s[end]] + [s[end + 1]] + s[end + 2..]
  {
  }

  lemma PlainShape(s: string)
    requires SplitHostPort(s).Some? && s[0] != '['
    ensures var a := SplitHostPort(s).value;
            BracketFree(a.host) && BracketFree(a.port) && ':' !in a.host && ':' !in a.port && s == Rejoined(a, false)
  {
    var i := LastIndex(s, ':').value;
    assert s == s[..i] + [s[i]] + s[i + 1..];
  }

  /** A text that splits is its host, in brackets or not, and its port, neither with brackets of its own. */
  lemma SplitShape(s: string)
    requires SplitHostPort(s).Some?
    ensures var a := SplitHostPort(s).value;
            && BracketFree(a.host) && BracketFree(a.port) && ':' !in a.port
            && s == Rejoined(a, s[0] == '[')
            && (':' in a.host ==> s[0] == '[')
  {
    if s[0] == '[' { BracketedShape(s); } else { PlainShape(s); }
  }

  lemma EndsInPort(s: string)
    requires SplitHostPort(s).Some?
    ensures s[|s| - 1] != ']'
  {
    SplitShape(s);
    var a := SplitHostPort(s).value;
    assert s[|s| - 1] == if a.port == "" then ':' else a.port[|a.port| - 1];
  }

  /** A literal in brackets without a port is not split. */
  lemma BracketsStay(host: string)
    requires Bracketed(host)
    ensures SplitHostPort(host).None?
  {
    if SplitHostPort(host).Some? { EndsInPort(host); }
  }

  lemma OneRejoining(a: Address, b: Address)
    requires Rejoined(a, true) == Rejoined(b, true) && ':' !in a.port && ':' !in b.port
    ensures a == b
  {
    LastIndexAt("[" + a.host + "]", ':', a.port);
    LastIndexAt("[" + b.host + "]", ':', b.port);
    BracketedParts(a.host, a.port);
    BracketedParts(b.host, b.port);
  }

  /** Joining a host that has a colon and brackets of its own gives a text that does not split. */
  lemma BracketsDoNotNest(host: string, port: string)
    requires !BracketFree(host) && ':' in host && ':' !in port
    ensures SplitHostPort(JoinHostPort(host, port)).None?
  {
    var s := JoinHostPort(host, port);
    if SplitHostPort(s).Some? {
      SplitShape(s);
      OneRejoining(SplitHostPort(s).value, Address(host, port));
    }
  }

  lemma KeptBrackets(host: string)
    requires !BracketFree(host)
    ensures !BracketFree(Lower(host))
  {
    LowerKeepsIndex(host, '[');
    LowerKeepsIndex(host, ']');
  }

  lemma LostBrackets(host: string)
    requires BracketFree(host)
    ensures BracketFree(Lower(host))
  {
    LowerKeepsIndex(host, '[');
    LowerKeepsIndex(host, ']');
  }

  /** A host with brackets of its own, such as an address literal, has another key with a port than without. */
  lemma BracketsSplitKeys(host: string, port: string)
    requires !BracketFree(host) && ':' !in port
    ensures NormalizeHost(WithPort(host, port)) != NormalizeHost(host)
  {
    var s := WithPort(host, port);
    KeptBrackets(host);
    if Bracketed(host) { BracketsStay(host); }
    if ':' in host && !Bracketed(host) { BracketsDoNotNest(host, port); }
    if SplitHostPort(host).Some? {
      SplitShape(host);
    }
    if SplitHostPort(s).Some? {
      SplitShape(s);
      LostBrackets(SplitHostPort(s).value.host);
    }
  }

  /**
   Whatever the host, it has the same key with a port as without if and only if it contains no
   brackets and not exactly one colon: otherwise the bare host is an address literal that keeps
   its brackets, or is itself read as a name and a port.
   */
  lemma NormalizeForgetsPortIff(host: string, port: string)
    requires BracketFree(port) && ':' !in port
    ensures NormalizeHost(WithPort(host, port)) == NormalizeHost(host) <==> BracketFree(host) && !OneColon(host)
  {
    if BracketFree(host) {
      SplitJoin(host, port);
      SplitsIffOneColon(host);
    } else {
      BracketsSplitKeys(host, port);
    }
  }

  /** The key of a name is the name in lower case, and the port is no part of it. */
  lemma NameIsKey(host: string, port: string)
    requires BracketFree(host) && ':' !in host && BracketFree(port) && ':' !in port
    ensures NormalizeHost(host) == Lower(host) == NormalizeHost(host + ":" + port)
  {
    SplitPlain(host, port);
    SplitsIffOneColon(host);
  }

  /** So is the key of an address literal that comes with a port. */
  lemma AddressIsKey(host: string, port: string)
    requires BracketFree(host) && BracketFree(port) && ':' !in port
    ensures NormalizeHost("[" + host + "]" + ":" + port) == Lower(host)
  {
    SplitBracketed(host, port);
  }

  /** An address literal in brackets keeps them in its key when it is bare, and loses them with a port. */
  lemma LiteralHasTwoKeys(x: string, port: string)
    requires BracketFree(x) && BracketFree(port) && ':' !in port
    ensures NormalizeHost("[" + x + "]") == Lower("[" + x + "]")
    ensures NormalizeHost("[" + x + "]" + ":" + port) == Lower(x)
    ensures |Lower("[" + x + "]")| == |Lower(x)| + 2
  {
    BracketsStay("[" + x + "]");
    SplitBracketed(x, port);
  }

  /** The IPv6 loopback address, as a CONNECT request may name it. */
  lemma LoopbackHasTwoKeys()
    ensures NormalizeHost("[" + "::1" + "]") != NormalizeHost("[" + "::1" + "]" + ":" + "443")
  {
    LiteralHasTwoKeys("::1", "443");
  }

  lemma LowerCut(s: string, i: nat)
    requires i <= |s|
    ensures Lower(s)[..i] == Lower(s[..i]) && Lower(s)[i..] == Lower(s[i..])
  {
  }

  lemma {:induction false} LowerKeepsIndex(s: string, c: char)
    requires c == ':' || c == '[' || c == ']'
    ensures Index(Lower(s), c) == Index(s, c)
    ensures c in Lower(s) <==> c in s
    decreases |s|
  {
    if s != [] {
      LowerKeepsIndex(s[1..], c);
      assert Lower(s)[1..] == Lower(s[1..]);
    }
  }

  lemma {:induction false} LowerKeepsLastIndex(s: string, c: char)
    requires c == ':' || c == '[' || c == ']'
    ensures LastIndex(Lower(s), c) == LastIndex(s, c)
    decreases |s|
  {
    if s != [] {
      var front := s[..|s| - 1];
      LowerKeepsLastIndex(front, c);
      LowerCut(s, |s| - 1);
      assert LastIndex(Lower(s)[..|s| - 1], c) == LastIndex(front, c);
      assert Lower(s)[|s| - 1] == c <==> s[|s| - 1] == c;
    }
  }

  function LowerAddress(a: Option<Address>): Option<Address> {
    match a
    case None => None
    case Some(v) => Some(Address(Lower(v.host), Lower(v.port)))
  }

  /** A separator is on either side of a cut exactly when it is there in the folded text. */
  lemma FoldedPart(s: string, i: nat, c: char)
    requires i <= |s| && (c == ':' || c == '[' || c == ']')
    ensures c in Lower(s)[..i] <==> c in s[..i]
    ensures c in Lower(s)[i..] <==> c in s[i..]
  {
    LowerCut(s, i);
    LowerKeepsIndex(s[..i], c);
    LowerKeepsIndex(s[i..], c);
  }

  lemma BracketedFolds(s: string, i: nat, end: nat)
    requires LastIndex(s, ':') == Some(i) && s[0] == '[' && Index(s, ']') == Some(end)
    ensures SplitHostPort(Lower(s)) == LowerAddress(SplitHostPort(s))
  {
    var l := Lower(s);
    LowerKeepsLastIndex(s, ':');
    LowerKeepsIndex(s, ']');
    FoldedPart(s, 1, '[');
    FoldedPart(s, end + 1, ']');
    assert l[0] == '[';
    if end + 1 != i || '[' in s[1..] || ']' in s[end + 1..] {
      assert SplitHostPort(l) == None && SplitHostPort(s) == None;
    } else {
      assert SplitHostPort(l) == Some(Address(l[1..end], l[i + 1..]));
      LowerCut(s, i + 1);
      LowerCut(s, end);
      LowerCut(s[..end], 1);
      assert l[1..end] == Lower(s[1..end]);
    }
  }

  lemma PlainSplits(s: string, i: nat)
    requires LastIndex(s, ':') == Some(i) && s[0] != '[' && ':' !in s[..i] && '[' !in s && ']' !in s
    ensures SplitHostPort(s) == Some(Address(s[..i], s[i + 1..]))
  {
  }

  lemma PlainFolds(s: string, i: nat)
    requires LastIndex(s, ':') == Some(i) && s[0] != '['
    ensures SplitHostPort(Lower(s)) == LowerAddress(SplitHostPort(s))
  {
    var l := Lower(s);
    LowerKeepsLastIndex(s, ':');
    LowerKeepsIndex(s, ']');
    LowerKeepsIndex(s, '[');
    FoldedPart(s, i, ':');
    assert l[0] != '[';
    if ':' in s[..i] || '[' in s || ']' in s {
      assert SplitHostPort(l) == None && SplitHostPort(s) == None;
    } else {
      PlainSplits(l, i);
      LowerCut(s, i);
      LowerCut(s, i + 1);
      assert l[..i] == Lower(s[..i]) && l[i + 1..] == Lower(s[i + 1..]);
    }
  }

  /** Splitting commutes with folding case. */
  lemma SplitFolds(s: string)
    ensures SplitHostPort(Lower(s)) == LowerAddress(SplitHostPort(s))
  {
    LowerKeepsLastIndex(s, ':');
    match LastIndex(s, ':')
    case None =>
    case Some(i) =>
      if s[0] != '[' {
        PlainFolds(s, i);
      } else {
        LowerKeepsIndex(s, ']');
        if Index(s, ']').Some? { BracketedFolds(s, i, Index(s, ']').value); }
      }
  }

  /** The letter case of a host, with or without a port, makes no difference to its key. */
  lemma NormalizeFoldsCase(host: string)
    ensures NormalizeHost(Lower(host)) == NormalizeHost(host)
  {
    SplitFolds(host);
    match SplitHostPort(host)
    case None => LowerIdempotent(host);
    case Some(a) => LowerIdempotent(a.host);
  }
}
