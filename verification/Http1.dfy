/** WriteRequestHTTP1: a request printed by hand, field lines in the profile's order. */
module Http1 {
  import opened Prelude
  import opened Text
  import opened HeaderOrder
  import opened Hpack
  import FieldList

  // The wire is a string whose characters stand for octets.

  const HOST := "Host"
  const CONTENT_LENGTH := FieldList.CONTENT_LENGTH
  const CRLF := "\r\n"

  /** The request's body: none, its bytes, or a reader that fails. */
  datatype Body = NoBody | Bytes(bytes: string) | Unreadable

  datatype Request = Request(verb: string, target: string, host: string, urlHost: string, headers: Headers, body: Body)

  datatype Error = BodyUnreadable

  function Payload(b: Body): string {
    if b.Bytes? then b.bytes else ""
  }

  predicate SetsLength(q: Request) {
    q.body.Bytes? || q.verb == "POST" || q.verb == "PUT"
  }

  /** The header map that is printed. */
  function Sent(q: Request): Headers {
    var h := q.headers[HOST := [FieldList.Authority(q.host, q.urlHost)]];
    if SetsLength(q) then h[CONTENT_LENGTH := [Itoa(|Payload(q.body)|)]] else h
  }

  /**
   The header map in terms of the request: the caller's own, with Host from the request or its
   URL, and the body's length when there is a body or the method is POST or PUT.
   */
  lemma SentMeans(q: Request, k: string)
    ensures var length := q.body.Bytes? || q.verb == "POST" || q.verb == "PUT";
            && (k in Sent(q) <==> k in q.headers || k == "Host" || (k == "Content-Length" && length))
            && Sent(q)["Host"] == [if q.host != "" then q.host else q.urlHost]
            && (length ==> Sent(q)["Content-Length"] == [Itoa(if q.body.Bytes? then |q.body.bytes| else 0)])
            && (k in q.headers && k != "Host" && !(k == "Content-Length" && length) ==> Sent(q)[k] == q.headers[k])
  {
    assert |HOST| != |CONTENT_LENGTH|;
  }

  function RequestLine(verb: string, target: string): string {
    verb + " " + target + " HTTP/1.1" + CRLF
  }

  function Line(f: Field): string {
    f.name + ": " + f.value + CRLF
  }

  function Lines(fs: seq<Field>): string {
    if fs == [] then "" else Lines(fs[..|fs| - 1]) + Line(fs[|fs| - 1])
  }

  /** The fields of the listed keys with their names as spelled, values in their own order. */
  function RawFields(h: Headers, keys: seq<string>): seq<Field>
    requires forall k :: k in keys ==> k in h
  {
    if keys == [] then []
    else RawFields(h, keys[..|keys| - 1]) + FieldList.Tagged(keys[|keys| - 1], h[keys[|keys| - 1]])
  }

  lemma TwoLines(f: Field, g: Field)
    ensures Lines([f, g]) == Line(f) + Line(g)
  {
    assert [f, g][..1] == [f] && [f][..0] == [];
    assert Lines([f]) == "" + Line(f);
  }

  /** The printed form, octet by octet, of a request with two fields. */
  lemma PrintedForm(verb: string, target: string, f: Field, g: Field, body: string)
    ensures Message(Request(verb, target, "", "", map[], Bytes(body)), [f, g])
         == (verb + " " + target + " HTTP/1.1" + "\r\n")
            + ((f.name + ": " + f.value + "\r\n") + (g.name + ": " + g.value + "\r\n")) + "\r\n" + body
  {
    TwoLines(f, g);
  }

  function Message(q: Request, fields: seq<Field>): string {
    RequestLine(q.verb, q.target) + Lines(fields) + CRLF + Payload(q.body)
  }

  lemma {:induction false} LinesConcat(a: seq<Field>, b: seq<Field>)
    ensures Lines(a + b) == Lines(a) + Lines(b)
    decreases |b|
  {
    if b == [] {
      assert a + b == a;
    } else {
      assert (a + b)[..|a + b| - 1] == a + b[..|b| - 1];
      LinesConcat(a, b[..|b| - 1]);
      Regroup(Lines(a), Lines(b[..|b| - 1]), Line(b[|b| - 1]));
    }
  }

  /** The two nested loops that print the field lines. */
  method WriteLines(headers: Headers, sorted: seq<string>) returns (buf: string)
    requires forall k :: k in sorted ==> k in headers
    ensures buf == Lines(RawFields(headers, sorted))
  {
    buf := "";
    for i := 0 to |sorted|
      invariant buf == Lines(RawFields(headers, sorted[..i]))
    {
      var name := sorted[i];
      var values := headers[name];
      ghost var before := RawFields(headers, sorted[..i]);
      assert before + FieldList.Tagged(name, values[..0]) == before;
      for j := 0 to |values|
        invariant buf == Lines(before + FieldList.Tagged(name, values[..j]))
      {
        OneMoreLine(before, name, values, j);
        buf := buf + Line(Field(name, values[j]));
      }
      assert values[..|values|] == values;
      assert sorted[..i + 1][..i] == sorted[..i];
    }
    assert sorted[..|sorted|] == sorted;
  }

  method WriteRequest(q: Request, order: seq<string>) returns (out: Result<string, Error>, ghost keys: seq<string>)
    ensures out.Err? <==> q.body.Unreadable?
    ensures out.Ok? ==> IsOrdering(RankOf(order), keys, Sent(q).Keys)
    ensures out.Ok? ==> forall k :: k in keys ==> k in Sent(q)
    ensures out.Ok? ==> out.value == Message(q, RawFields(Sent(q), keys))
  {
    keys := [];
    var host := q.host;
    if host == "" {
      host := q.urlHost;
    }
    var headers: Headers := map[];
    var todo := q.headers.Keys;
    while todo != {}
      invariant todo <= q.headers.Keys
      invariant headers == map name | name in q.headers && name !in todo :: q.headers[name]
      decreases |todo|
    {
      var name :| name in todo;
      todo := todo - {name};
      headers := headers[name := q.headers[name]];
    }
    assert headers == q.headers;
    headers := headers[HOST := [host]];

    var body := "";
    var hasBody := !q.body.NoBody?;
    if hasBody {
      if q.body.Unreadable? {
        return Err(BodyUnreadable), keys;
      }
      body := q.body.bytes;
    }
    if hasBody || q.verb == "POST" || q.verb == "PUT" {
      headers := headers[CONTENT_LENGTH := [Itoa(|body|)]];
    }
    assert headers == Sent(q) && body == Payload(q.body);

    var buf := RequestLine(q.verb, q.target);
    var sorted := OrderHeaders(order, headers);
    keys := sorted;
    FieldList.KeysInMap(RankOf(order), sorted, headers.Keys);
    var lines := WriteLines(headers, sorted);
    buf := buf + lines;
    buf := buf + CRLF;
    if |body| > 0 {
      buf := buf + body;
    }
    out := Ok(buf);
  }

  lemma OneMoreLine(before: seq<Field>, name: string, values: seq<string>, j: nat)
    requires j < |values|
    ensures Lines(before + FieldList.Tagged(name, values[..j + 1]))
         == Lines(before + FieldList.Tagged(name, values[..j])) + Line(Field(name, values[j]))
  {
    var f := Field(name, values[j]);
    LinesConcat(before + FieldList.Tagged(name, values[..j]), [f]);
    LineAlone(f);
    assert before + FieldList.Tagged(name, values[..j]) + [f] == before + FieldList.Tagged(name, values[..j + 1]);
  }

  lemma LineAlone(f: Field)
    ensures Lines([f]) == Line(f)
  {
    assert [f][..0] == [];
  }
}
