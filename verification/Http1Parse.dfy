/**
 A strict HTTP/1.1 request parser written from RFC 9112 sections 2.2, 3, 5 and 6, and the
 proof that it inverts WriteRequestHTTP1.
 */
module Http1Parse {
  import opened Prelude
  import opened Text
  import opened HeaderOrder
  import opened Hpack
  import opened Http1
  import FieldList
  import HostPort

  // ---- The parser ----

  /** A token character (RFC 9110 section 5.6.2). */
  predicate IsTokenChar(c: char) {
    IsDigit(c) || 'a' <= c <= 'z' || 'A' <= c <= 'Z' || c in "!#$%&'*+-.^_`|~"
  }

  predicate IsToken(s: string) {
    s != "" && forall c :: c in s ==> IsTokenChar(c)
  }

  /** Splits off the first line; a carriage return or line feed on its own is malformed. */
  function TakeLine(s: string): (r: Option<(string, string)>)
    ensures r.Some? ==> |r.value.1| < |s|
  {
    if |s| < 2 || s[0] == '\n' || (s[0] == '\r' && s[1] != '\n') then None
    else if s[0] == '\r' then Some(("", s[2..]))
    else
      match TakeLine(s[1..])
      case None => None
      case Some(r) => Some(([s[0]] + r.0, r.1))
  }

  predicate IsOws(c: char) {
    c == ' ' || c == '\t'
  }

  function TrimOws(s: string): string {
    if s != "" && IsOws(s[0]) then TrimOws(s[1..])
    else if s != "" && IsOws(s[|s| - 1]) then TrimOws(s[..|s| - 1])
    else s
  }

  /** field-line = field-name ":" OWS field-value OWS */
  function ParseField(line: string): Option<Field> {
    match HostPort.Index(line, ':')
    case None => None
    case Some(i) => if IsToken(line[..i]) then Some(Field(line[..i], TrimOws(line[i + 1..]))) else None
  }

  function ParseFields(s: string): Option<(seq<Field>, string)>
    decreases |s|
  {
    match TakeLine(s)
    case None => None
    case Some((line, rest)) =>
      if line == "" then Some(([], rest))
      else
        match (ParseField(line), ParseFields(rest))
        case (Some(f), Some(more)) => Some(([f] + more.0, more.1))
        case _ => None
  }

  /** request-line = method SP request-target SP HTTP-version */
  function ParseRequestLine(line: string): Option<(string, string)> {
    match HostPort.Index(line, ' ')
    case None => None
    case Some(i) =>
      var after := line[i + 1..];
      match HostPort.Index(after, ' ')
      case None => None
      case Some(j) =>
        if IsToken(line[..i]) && j > 0 && after[j + 1..] == "HTTP/1.1" then Some((line[..i], after[..j])) else None
  }

  /** The values of the fields with this name, in order. */
  function ValuesOf(fields: seq<Field>, name: string): seq<string> {
    if fields == [] then []
    else
      var last := fields[|fields| - 1];
      ValuesOf(fields[..|fields| - 1], name) + if EqualFold(last.name, name) then [last.value] else []
  }

  /** Section 6.3: no Content-Length means no body, and several must agree. */
  function BodyLength(lengths: seq<string>): Option<nat> {
    if lengths == [] then Some(0)
    else if forall i :: 0 <= i < |lengths| ==> ParseNat(lengths[i]) == ParseNat(lengths[0]) then ParseNat(lengths[0])
    else None
  }

  const TRANSFER_ENCODING := "Transfer-Encoding"

  datatype Parsed = Parsed(verb: string, target: string, fields: seq<Field>, body: string)

  /** How many octets after the head are the body. */
  function BodyOf(fields: seq<Field>): Option<nat> {
    if |ValuesOf(fields, HOST)| != 1 || ValuesOf(fields, TRANSFER_ENCODING) != [] then None
    else BodyLength(ValuesOf(fields, CONTENT_LENGTH))
  }

  datatype Head = Head(verb: string, target: string, fields: seq<Field>)

  /** Request line, field lines and the empty line, and what follows them. */
  function ParseHead(s: string): Option<(Head, string)> {
    match TakeLine(s)
    case None => None
    case Some((line, afterLine)) =>
      match (ParseRequestLine(line), ParseFields(afterLine))
      case (Some((verb, target)), Some((fields, rest))) => Some((Head(verb, target, fields), rest))
      case _ => None
  }

  /** Takes the body that the head announces. */
  function TakeBody(h: Head, rest: string): Option<(Parsed, string)> {
    match BodyOf(h.fields)
    case None => None
    case Some(n) => if |rest| < n then None else Some((Parsed(h.verb, h.target, h.fields, rest[..n]), rest[n..]))
  }

  /** One request from the front of the octets, and what follows it. */
  function Parse(s: string): Option<(Parsed, string)> {
    match ParseHead(s)
    case None => None
    case Some((h, rest)) => TakeBody(h, rest)
  }

  // ---- Lines ----

  predicate OneLine(s: string) {
    '\r' !in s && '\n' !in s
  }

  lemma {:induction false} TakeLineOf(line: string, rest: string)
    requires OneLine(line)
    ensures TakeLine(line + CRLF + rest) == Some((line, rest))
  {
    var s := line + CRLF + rest;
    if line == "" {
      assert s[2..] == rest;
    } else {
      TakeLineOf(line[1..], rest);
      assert s[1..] == line[1..] + CRLF + rest;
      assert s[0] == line[0] && line[0] in line;
      assert [line[0]] + line[1..] == line;
    }
  }

  lemma TokenChars(s: string, c: char)
    requires IsToken(s) && !IsTokenChar(c)
    ensures c !in s
  {
  }

  /** No optional white space at either end: what a parser cannot give back. */
  predicate Trimmed(v: string) {
    v == "" || (!IsOws(v[0]) && !IsOws(v[|v| - 1]))
  }

  predicate Printable(f: Field) {
    IsToken(f.name) && OneLine(f.value) && Trimmed(f.value)
  }

  lemma PrintableLine(f: Field)
    requires Printable(f)
    ensures OneLine(f.name + ": " + f.value)
  {
    TokenChars(f.name, '\r');
    TokenChars(f.name, '\n');
  }

  lemma FieldParses(f: Field)
    requires Printable(f)
    ensures ParseField(f.name + ": " + f.value) == Some(f)
  {
    var line := f.name + ": " + f.value;
    TokenChars(f.name, ':');
    assert line == f.name + [':'] + (" " + f.value);
    HostPort.IndexAt(f.name, ':', " " + f.value);
    assert line[..|f.name|] == f.name && line[|f.name| + 1..] == " " + f.value;
    assert (" " + f.value)[1..] == f.value;
    assert TrimOws(f.value) == f.value;
  }

  lemma {:induction false} FieldsParse(fs: seq<Field>, rest: string)
    requires forall f :: f in fs ==> Printable(f)
    ensures ParseFields(Lines(fs) + CRLF + rest) == Some((fs, rest))
  {
    if fs == [] {
      assert Lines(fs) + CRLF + rest == "" + CRLF + rest;
      TakeLineOf("", rest);
    } else {
      var f, more := fs[0], fs[1..];
      assert fs == [f] + more;
      LinesConcat([f], more);
      LineAlone(f);
      var line := f.name + ": " + f.value;
      assert Lines(fs) + CRLF + rest == line + CRLF + (Lines(more) + CRLF + rest);
      PrintableLine(f);
      TakeLineOf(line, Lines(more) + CRLF + rest);
      FieldParses(f);
      FieldsParse(more, rest);
    }
  }

  predicate IsTarget(s: string) {
    s != "" && OneLine(s) && ' ' !in s
  }

  lemma SplitAtSpace(a: string, b: string)
    requires ' ' !in a
    ensures HostPort.Index(a + " " + b, ' ') == Some(|a|)
    ensures (a + " " + b)[..|a|] == a && (a + " " + b)[|a| + 1..] == b
  {
    HostPort.IndexAt(a, ' ', b);
    assert a + " " + b == a + [' '] + b;
  }

  lemma RequestLineIsOneLine(verb: string, target: string)
    requires IsToken(verb) && IsTarget(target)
    ensures OneLine(verb + " " + target + " HTTP/1.1")
  {
    TokenChars(verb, '\r');
    TokenChars(verb, '\n');
  }

  lemma RequestLineParses(verb: string, target: string)
    requires IsToken(verb) && IsTarget(target)
    ensures ParseRequestLine(verb + " " + target + " HTTP/1.1") == Some((verb, target))
  {
    var version := "HTTP/1.1";
    var after := target + " " + version;
    assert verb + " " + target + " HTTP/1.1" == verb + " " + after;
    TokenChars(verb, ' ');
    SplitAtSpace(verb, after);
    SplitAtSpace(target, version);
  }

  // ---- Nothing else parses ----

  lemma {:induction false} LinesAreClean(s: string)
    requires TakeLine(s).Some?
    ensures OneLine(TakeLine(s).value.0)
    decreases |s|
  {
    if s[0] != '\r' {
      LinesAreClean(s[1..]);
    }
  }

  lemma {:induction false} TrimmedOws(s: string)
    ensures Trimmed(TrimOws(s))
    ensures OneLine(s) ==> OneLine(TrimOws(s))
    decreases |s|
  {
    if s != "" && IsOws(s[0]) {
      TrimmedOws(s[1..]);
    } else if s != "" && IsOws(s[|s| - 1]) {
      TrimmedOws(s[..|s| - 1]);
    }
  }

  lemma ParsedFieldIsPrintable(line: string)
    requires OneLine(line) && ParseField(line).Some?
    ensures Printable(ParseField(line).value)
  {
    var i := HostPort.Index(line, ':').value;
    TrimmedOws(line[i + 1..]);
  }

  lemma {:induction false} ParsedFieldsArePrintable(s: string)
    requires ParseFields(s).Some?
    ensures forall f :: f in ParseFields(s).value.0 ==> Printable(f)
    decreases |s|
  {
    var line, rest := TakeLine(s).value.0, TakeLine(s).value.1;
    LinesAreClean(s);
    if line != "" {
      ParsedFieldIsPrintable(line);
      ParsedFieldsArePrintable(rest);
    }
  }

  lemma ParsedLineIsClean(line: string)
    requires OneLine(line) && ParseRequestLine(line).Some?
    ensures IsToken(ParseRequestLine(line).value.0) && IsTarget(ParseRequestLine(line).value.1)
  {
  }

  /** What a parser accepts is what a careful caller may ask for. */
  lemma ParsedHeadIsClean(s: string)
    requires ParseHead(s).Some?
    ensures var h := ParseHead(s).value.0;
            IsToken(h.verb) && IsTarget(h.target) && forall f :: f in h.fields ==> Printable(f)
  {
    LinesAreClean(s);
    ParsedLineIsClean(TakeLine(s).value.0);
    ParsedFieldsArePrintable(TakeLine(s).value.1);
  }

  /** Field lines come back as printed exactly when each is a token and a trimmed line. */
  lemma FieldsParseIff(fs: seq<Field>, rest: string)
    ensures ParseFields(Lines(fs) + CRLF + rest) == Some((fs, rest)) <==> forall f :: f in fs ==> Printable(f)
  {
    if forall f :: f in fs ==> Printable(f) {
      FieldsParse(fs, rest);
    } else if ParseFields(Lines(fs) + CRLF + rest).Some? {
      ParsedFieldsArePrintable(Lines(fs) + CRLF + rest);
    }
  }

  // ---- Which values a recipient finds under a name ----

  lemma {:induction false} ValuesOfConcat(a: seq<Field>, b: seq<Field>, name: string)
    ensures ValuesOf(a + b, name) == ValuesOf(a, name) + ValuesOf(b, name)
    decreases |b|
  {
    if b == [] {
      assert a + b == a;
    } else {
      assert (a + b)[..|a + b| - 1] == a + b[..|b| - 1];
      ValuesOfConcat(a, b[..|b| - 1], name);
      var last := b[|b| - 1];
      Regroup(ValuesOf(a, name), ValuesOf(b[..|b| - 1], name), if EqualFold(last.name, name) then [last.value] else []);
    }
  }

  lemma {:induction false} ValuesOfTagged(key: string, values: seq<string>, name: string)
    ensures ValuesOf(FieldList.Tagged(key, values), name) == if EqualFold(key, name) then values else []
  {
    if values != [] {
      var front := values[..|values| - 1];
      assert FieldList.Tagged(key, values)[..|values| - 1] == FieldList.Tagged(key, front);
      ValuesOfTagged(key, front, name);
      assert values == front + [values[|values| - 1]];
    }
  }

  lemma {:induction false} ValuesOfRaw(h: Headers, keys: seq<string>, name: string, v: string)
    requires forall k :: k in keys ==> k in h
    ensures v in ValuesOf(RawFields(h, keys), name) <==> exists k :: k in keys && EqualFold(k, name) && v in h[k]
  {
    if keys != [] {
      var front, last := keys[..|keys| - 1], keys[|keys| - 1];
      assert keys == front + [last];
      ValuesOfRaw(h, front, name, v);
      ValuesOfConcat(RawFields(h, front), FieldList.Tagged(last, h[last]), name);
      ValuesOfTagged(last, h[last], name);
      assert ValuesOf(RawFields(h, keys), name)
          == ValuesOf(RawFields(h, front), name) + if EqualFold(last, name) then h[last] else [];
      assert forall k :: k in keys <==> k in front || k == last;
    }
  }

  /** With one key for the name holding all its values, they are what the recipient finds. */
  lemma {:induction false} ValuesOfSole(h: Headers, keys: seq<string>, name: string, key: string)
    requires forall k :: k in keys ==> k in h
    requires forall i, j :: 0 <= i < j < |keys| ==> keys[i] != keys[j]
    requires EqualFold(key, name)
    requires forall k :: k in keys && EqualFold(k, name) && k != key ==> h[k] == []
    ensures ValuesOf(RawFields(h, keys), name) == if key in keys then h[key] else []
  {
    if keys != [] {
      var front, last := keys[..|keys| - 1], keys[|keys| - 1];
      assert keys == front + [last];
      ValuesOfSole(h, front, name, key);
      ValuesOfConcat(RawFields(h, front), FieldList.Tagged(last, h[last]), name);
      ValuesOfTagged(last, h[last], name);
    }
  }

  /** Two keys for the name that both hold values give the recipient at least two. */
  lemma {:induction false} ValuesOfTwo(h: Headers, keys: seq<string>, name: string, i: nat, j: nat)
    requires forall k :: k in keys ==> k in h
    requires i < j < |keys|
    requires EqualFold(keys[i], name) && EqualFold(keys[j], name) && h[keys[i]] != [] && h[keys[j]] != []
    ensures |ValuesOf(RawFields(h, keys), name)| >= 2
  {
    var front, last := keys[..|keys| - 1], keys[|keys| - 1];
    ValuesOfConcat(RawFields(h, front), FieldList.Tagged(last, h[last]), name);
    ValuesOfTagged(last, h[last], name);
    if j < |keys| - 1 {
      ValuesOfTwo(h, front, name, i, j);
    } else {
      var v := h[keys[i]][0];
      assert front[i] == keys[i];
      ValuesOfRaw(h, front, name, v);
      assert v in ValuesOf(RawFields(h, front), name);
    }
  }

  // ---- The round trip ----

  /** Method and target fit the request line, names are tokens and values trimmed lines. */
  ghost predicate HeadClean(q: Request) {
    && IsToken(q.verb) && IsTarget(q.target)
    && (forall k, v :: k in Sent(q) && v in Sent(q)[k] ==> Printable(Field(k, v)))
  }

  ghost predicate NoTransferCoding(q: Request) {
    forall k :: k in q.headers && EqualFold(k, TRANSFER_ENCODING) ==> q.headers[k] == []
  }

  lemma {:induction false} RawFieldsPrintable(h: Headers, keys: seq<string>)
    requires forall k :: k in keys ==> k in h
    requires forall k, v :: k in h && v in h[k] ==> Printable(Field(k, v))
    ensures forall f :: f in RawFields(h, keys) ==> Printable(f)
  {
    if keys != [] {
      RawFieldsPrintable(h, keys[..|keys| - 1]);
    }
  }

  lemma MessageSplits(q: Request, fields: seq<Field>, suffix: string)
    ensures Message(q, fields) + suffix
         == q.verb + " " + q.target + " HTTP/1.1" + CRLF + (Lines(fields) + CRLF + (Payload(q.body) + suffix))
  {
  }

  lemma HeadParses(q: Request, keys: seq<string>, suffix: string)
    requires HeadClean(q)
    requires forall k :: k in keys ==> k in Sent(q)
    ensures var fields := RawFields(Sent(q), keys);
            ParseHead(Message(q, fields) + suffix) == Some((Head(q.verb, q.target, fields), Payload(q.body) + suffix))
  {
    var fields := RawFields(Sent(q), keys);
    var line := q.verb + " " + q.target + " HTTP/1.1";
    var after := Lines(fields) + CRLF + (Payload(q.body) + suffix);
    RequestLineParses(q.verb, q.target);
    RequestLineIsOneLine(q.verb, q.target);
    MessageSplits(q, fields, suffix);
    TakeLineOf(line, after);
    RawFieldsPrintable(Sent(q), keys);
    FieldsParse(fields, Payload(q.body) + suffix);
  }

  lemma {:induction false} RawFieldsHave(h: Headers, keys: seq<string>, k: string, v: string)
    requires forall k :: k in keys ==> k in h
    requires k in keys && v in h[k]
    ensures Field(k, v) in RawFields(h, keys)
  {
    var front, last := keys[..|keys| - 1], keys[|keys| - 1];
    assert keys == front + [last];
    if k in front {
      RawFieldsHave(h, front, k, v);
    } else {
      var j :| 0 <= j < |h[k]| && h[k][j] == v;
      assert FieldList.Tagged(k, h[k])[j] == Field(k, v);
    }
  }

  lemma FieldsShowClean(q: Request, keys: seq<string>)
    requires forall k :: k in keys <==> k in Sent(q)
    requires IsToken(q.verb) && IsTarget(q.target)
    requires forall f :: f in RawFields(Sent(q), keys) ==> Printable(f)
    ensures HeadClean(q)
  {
    forall k, v | k in Sent(q) && v in Sent(q)[k] ensures Printable(Field(k, v)) {
      RawFieldsHave(Sent(q), keys, k, v);
    }
  }

  /** The head comes back as it was printed exactly when it is clean. */
  lemma HeadParsesIff(q: Request, keys: seq<string>, suffix: string)
    requires forall k :: k in keys <==> k in Sent(q)
    ensures var fields := RawFields(Sent(q), keys);
            ParseHead(Message(q, fields) + suffix) == Some((Head(q.verb, q.target, fields), Payload(q.body) + suffix))
            <==> HeadClean(q)
  {
    var fields := RawFields(Sent(q), keys);
    var s := Message(q, fields) + suffix;
    if HeadClean(q) {
      HeadParses(q, keys, suffix);
    } else if ParseHead(s) == Some((Head(q.verb, q.target, fields), Payload(q.body) + suffix)) {
      ParsedHeadIsClean(s);
      FieldsShowClean(q, keys);
    }
  }

  /** No second spelling of Host carries a value. */
  ghost predicate SoleHost(q: Request) {
    forall k :: k in q.headers && EqualFold(k, HOST) && k != HOST ==> q.headers[k] == []
  }

  /** Every length the caller put in the headers and the printer does not replace is the body's. */
  ghost predicate LengthsAgree(q: Request) {
    forall k, v ::
      k in q.headers && EqualFold(k, CONTENT_LENGTH) && (k != CONTENT_LENGTH || !SetsLength(q)) && v in q.headers[k] ==>
        ParseNat(v) == Some(|Payload(q.body)|)
  }

  lemma HostLines(q: Request, order: seq<string>, keys: seq<string>)
    requires IsOrdering(RankOf(order), keys, Sent(q).Keys)
    requires forall k :: k in keys ==> k in Sent(q)
    ensures |ValuesOf(RawFields(Sent(q), keys), HOST)| == 1 <==> SoleHost(q)
  {
    var h := Sent(q);
    FieldList.KeysInMap(RankOf(order), keys, h.Keys);
    OrderingIsDistinct(RankOf(order), keys, h.Keys);
    assert !EqualFold(CONTENT_LENGTH, HOST) by {
      assert |Lower(CONTENT_LENGTH)| != |Lower(HOST)|;
    }
    assert HOST in h && |h[HOST]| == 1;
    if SoleHost(q) {
      ValuesOfSole(h, keys, HOST, HOST);
    } else {
      RivalHost(q, keys);
    }
  }

  lemma RivalHost(q: Request, keys: seq<string>)
    requires forall k :: k in keys <==> k in Sent(q)
    requires !SoleHost(q)
    ensures |ValuesOf(RawFields(Sent(q), keys), HOST)| >= 2
  {
    var h := Sent(q);
    assert |Lower(CONTENT_LENGTH)| != |Lower(HOST)|;
    var k :| k in q.headers && EqualFold(k, HOST) && k != HOST && q.headers[k] != [];
    assert k in h && h[k] == q.headers[k] && HOST in h && |h[HOST]| == 1;
    var i :| 0 <= i < |keys| && keys[i] == k;
    var j :| 0 <= j < |keys| && keys[j] == HOST;
    ValuesOfTwo(h, keys, HOST, if i < j then i else j, if i < j then j else i);
  }

  lemma LengthFound(q: Request, keys: seq<string>, v: string)
    requires forall k :: k in keys <==> k in Sent(q)
    ensures v in ValuesOf(RawFields(Sent(q), keys), CONTENT_LENGTH) <==>
              exists k :: k in Sent(q) && EqualFold(k, CONTENT_LENGTH) && v in Sent(q)[k]
  {
    ValuesOfRaw(Sent(q), keys, CONTENT_LENGTH, v);
  }

  lemma HostIsNoLength()
    ensures !EqualFold(HOST, CONTENT_LENGTH)
  {
    assert |Lower(CONTENT_LENGTH)| != |Lower(HOST)|;
  }

  lemma AgreeingLengths(q: Request, keys: seq<string>, v: string)
    requires forall k :: k in keys <==> k in Sent(q)
    requires LengthsAgree(q) && v in ValuesOf(RawFields(Sent(q), keys), CONTENT_LENGTH)
    ensures ParseNat(v) == Some(|Payload(q.body)|)
  {
    LengthFound(q, keys, v);
    HostIsNoLength();
    ParseItoa(|Payload(q.body)|);
    var k :| k in Sent(q) && EqualFold(k, CONTENT_LENGTH) && v in Sent(q)[k];
  }

  lemma DisagreeingLength(q: Request, keys: seq<string>) returns (v: string)
    requires forall k :: k in keys <==> k in Sent(q)
    requires !LengthsAgree(q)
    ensures v in ValuesOf(RawFields(Sent(q), keys), CONTENT_LENGTH) && ParseNat(v) != Some(|Payload(q.body)|)
  {
    HostIsNoLength();
    var k, w :| k in q.headers && EqualFold(k, CONTENT_LENGTH) && (k != CONTENT_LENGTH || !SetsLength(q))
                && w in q.headers[k] && ParseNat(w) != Some(|Payload(q.body)|);
    assert Sent(q)[k] == q.headers[k];
    v := w;
    LengthFound(q, keys, v);
  }

  /** The lengths a recipient finds all say the body's length exactly when the caller's own do. */
  lemma LengthLines(q: Request, order: seq<string>, keys: seq<string>)
    requires IsOrdering(RankOf(order), keys, Sent(q).Keys)
    requires forall k :: k in keys ==> k in Sent(q)
    ensures BodyLength(ValuesOf(RawFields(Sent(q), keys), CONTENT_LENGTH)) == Some(|Payload(q.body)|)
            <==> LengthsAgree(q)
  {
    var n := |Payload(q.body)|;
    var lengths := ValuesOf(RawFields(Sent(q), keys), CONTENT_LENGTH);
    FieldList.KeysInMap(RankOf(order), keys, Sent(q).Keys);
    AllAgree(lengths, n);
    if SetsLength(q) {
      LengthFound(q, keys, Itoa(n));
      assert Sent(q)[CONTENT_LENGTH] == [Itoa(n)] && Itoa(n) in lengths;
    }
    if LengthsAgree(q) {
      forall v | v in lengths ensures ParseNat(v) == Some(n) { AgreeingLengths(q, keys, v); }
    } else {
      var v := DisagreeingLength(q, keys);
    }
  }

  lemma AllAgree(lengths: seq<string>, n: nat)
    ensures BodyLength(lengths) == Some(n)
            <==> if lengths == [] then n == 0 else forall v :: v in lengths ==> ParseNat(v) == Some(n)
  {
    if lengths != [] && BodyLength(lengths) == Some(n) {
      forall v | v in lengths ensures ParseNat(v) == Some(n) {
        var i :| 0 <= i < |lengths| && lengths[i] == v;
      }
    }
  }

  lemma TransferLines(q: Request, keys: seq<string>)
    requires forall k :: k in keys <==> k in Sent(q)
    ensures ValuesOf(RawFields(Sent(q), keys), TRANSFER_ENCODING) == [] <==> NoTransferCoding(q)
  {
    var values := ValuesOf(RawFields(Sent(q), keys), TRANSFER_ENCODING);
    assert |Lower(HOST)| != |Lower(TRANSFER_ENCODING)| && |Lower(CONTENT_LENGTH)| != |Lower(TRANSFER_ENCODING)|;
    if k :| k in q.headers && EqualFold(k, TRANSFER_ENCODING) && q.headers[k] != [] {
      assert Sent(q)[k] == q.headers[k];
      ValuesOfRaw(Sent(q), keys, TRANSFER_ENCODING, q.headers[k][0]);
      assert q.headers[k][0] in values;
    } else if values != [] {
      ValuesOfRaw(Sent(q), keys, TRANSFER_ENCODING, values[0]);
    }
  }

  lemma BodyOfIff(q: Request, order: seq<string>, keys: seq<string>)
    requires IsOrdering(RankOf(order), keys, Sent(q).Keys)
    requires forall k :: k in keys <==> k in Sent(q)
    ensures BodyOf(RawFields(Sent(q), keys)) == Some(|Payload(q.body)|)
            <==> SoleHost(q) && NoTransferCoding(q) && LengthsAgree(q)
  {
    HostLines(q, order, keys);
    LengthLines(q, order, keys);
    TransferLines(q, keys);
  }

  /** Once the head is understood, the body is taken right exactly when nothing competes with the printer. */
  lemma BodyIff(q: Request, order: seq<string>, keys: seq<string>, suffix: string)
    requires IsOrdering(RankOf(order), keys, Sent(q).Keys)
    requires forall k :: k in keys <==> k in Sent(q)
    ensures var fields := RawFields(Sent(q), keys);
            TakeBody(Head(q.verb, q.target, fields), Payload(q.body) + suffix)
            == Some((Parsed(q.verb, q.target, fields, Payload(q.body)), suffix))
            <==> SoleHost(q) && NoTransferCoding(q) && LengthsAgree(q)
  {
    var fields := RawFields(Sent(q), keys);
    var rest := Payload(q.body) + suffix;
    BodyOfIff(q, order, keys);
    assert rest[..|Payload(q.body)|] == Payload(q.body) && rest[|Payload(q.body)|..] == suffix;
  }

  /**
   A recipient that reads the printed request followed by anything at all gets back the
   method, the target, the fields as ordered, exactly the body, and exactly what followed:
   if and only if method, target, names and values fit their lines, and no header the caller
   passed in competes with the Host and Content-Length that the printer writes, or announces a
   transfer coding that it does not apply.
   */
  lemma RoundTripIff(q: Request, order: seq<string>, keys: seq<string>, suffix: string)
    requires IsOrdering(RankOf(order), keys, Sent(q).Keys)
    requires forall k :: k in keys ==> k in Sent(q)
    ensures var fields := RawFields(Sent(q), keys);
            Parse(Message(q, fields) + suffix) == Some((Parsed(q.verb, q.target, fields, Payload(q.body)), suffix))
            <==> HeadClean(q) && SoleHost(q) && NoTransferCoding(q) && LengthsAgree(q)
  {
    var fields := RawFields(Sent(q), keys);
    var s := Message(q, fields) + suffix;
    FieldList.KeysInMap(RankOf(order), keys, Sent(q).Keys);
    BodyIff(q, order, keys, suffix);
    if HeadClean(q) {
      HeadParses(q, keys, suffix);
    } else if Parse(s) == Some((Parsed(q.verb, q.target, fields, Payload(q.body)), suffix)) {
      ParsedHeadIsClean(s);
      FieldsShowClean(q, keys);
    }
  }

  /** A length spelled in another case, which survives beside the printer's own and spoils the framing. */
  const RIVAL := Request("POST", "/", "a", "", map["content-length" := ["7"]], Bytes("abc"))

  lemma RivalSent()
    ensures Sent(RIVAL) == map["content-length" := ["7"], HOST := ["a"], CONTENT_LENGTH := ["3"]]
    ensures HOST != "content-length" && CONTENT_LENGTH != "content-length" && HOST != CONTENT_LENGTH
  {
    assert Itoa(3) == "3";
    assert |HOST| != |CONTENT_LENGTH| && CONTENT_LENGTH[0] != "content-length"[0];
  }

  lemma RivalClean()
    ensures HeadClean(RIVAL) && SoleHost(RIVAL) && NoTransferCoding(RIVAL)
  {
    RivalSent();
    assert IsToken("content-length") && IsToken("Host") && IsToken("Content-Length") && IsToken("POST");
    forall k, v | k in Sent(RIVAL) && v in Sent(RIVAL)[k] ensures Printable(Field(k, v)) {
      assert v == "7" || v == "a" || v == "3";
    }
    assert |Lower("content-length")| != |Lower(TRANSFER_ENCODING)| && |Lower("content-length")| != |Lower(HOST)|;
  }

  lemma RivalDisagrees()
    ensures !LengthsAgree(RIVAL)
  {
    var key, v := "content-length", "7";
    assert key in RIVAL.headers && v in RIVAL.headers[key];
    assert Lower(key) == Lower(CONTENT_LENGTH) && key[0] != CONTENT_LENGTH[0];
    assert ParseNat(v) == Some(7) by {
      assert v[..0] == "" && ParseDigits(v[..0]) == Some(0);
    }
  }

  /** Everything else about it is in order. */
  lemma RivalLengthBreaksFraming(order: seq<string>, keys: seq<string>, suffix: string)
    requires IsOrdering(RankOf(order), keys, Sent(RIVAL).Keys)
    requires forall k :: k in keys ==> k in Sent(RIVAL)
    ensures var fields := RawFields(Sent(RIVAL), keys);
            Parse(Message(RIVAL, fields) + suffix) != Some((Parsed("POST", "/", fields, "abc"), suffix))
  {
    RivalClean();
    RivalDisagrees();
    RoundTripIff(RIVAL, order, keys, suffix);
  }
}
