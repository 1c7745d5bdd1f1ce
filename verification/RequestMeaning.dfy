/**
 What a request's HTTP/2 field list says, in terms of the request itself: its method, scheme,
 path and authority, and the headers its caller set.
 */
module RequestMeaning {
  import opened Prelude
  import opened Text
  import opened HeaderOrder
  import opened Hpack
  import opened FieldList

  // ---- Pseudo-headers ----

  /** The request's own four values; an empty one is not sent. */
  predicate PseudoOf(q: Outgoing, f: Field) {
    f.value != "" &&
    (|| f == Field(":method", q.verb)
     || f == Field(":scheme", q.scheme)
     || f == Field(":path", q.path)
     || (q.host != "" && f == Field(":authority", q.host))
     || (q.host == "" && f == Field(":authority", q.urlHost)))
  }

  lemma PseudoFieldsMean(q: Outgoing, pseudoOrder: seq<string>)
    ensures forall f :: f in PseudoFields(q, pseudoOrder) <==> PseudoOf(q, f)
    ensures forall i, j :: 0 <= i < j < |PseudoFields(q, pseudoOrder)| ==>
              PseudoFields(q, pseudoOrder)[i].name != PseudoFields(q, pseudoOrder)[j].name
  {
    PseudoHeadersComplete(pseudoOrder, q.verb, q.scheme, q.path, Authority(q.host, q.urlHost));
    forall f: Field ensures f in PseudoFields(q, pseudoOrder) <==> PseudoOf(q, f) {
      ValuesMean(q, f);
    }
  }

  lemma ValuesMean(q: Outgoing, f: Field)
    ensures var values := PseudoValues(q.verb, q.scheme, q.path, Authority(q.host, q.urlHost));
            Present(values, f.name) && f.value == values[f.name] <==> PseudoOf(q, f)
  {
    assert ":method"[1] != ":scheme"[1] && ":method"[1] != ":path"[1] && ":method"[1] != ":authority"[1];
    assert ":scheme"[1] != ":path"[1] && ":scheme"[1] != ":authority"[1] && ":path"[1] != ":authority"[1];
  }

  function Unless(value: string, name: string): seq<Field> {
    if value == "" then [] else [Field(name, value)]
  }

  lemma EachFirst(name: string, rest: seq<string>, values: Values)
    requires name in values
    ensures EmitEach([name] + rest, values) == Unless(values[name], name) + EmitEach(rest, values)
  {
    assert ([name] + rest)[1..] == rest;
  }

  lemma EachOfFour(a: string, b: string, c: string, d: string, values: Values)
    requires a in values && b in values && c in values && d in values
    ensures EmitEach([a, b, c, d], values)
         == Unless(values[a], a) + (Unless(values[b], b) + (Unless(values[c], c) + Unless(values[d], d)))
  {
    EachFirst(d, [], values);
    EachFirst(c, [d], values);
    EachFirst(b, [c, d], values);
    EachFirst(a, [b, c, d], values);
    assert [d] == [d] + [] && [c, d] == [c] + [d] && [b, c, d] == [b] + [c, d] && [a, b, c, d] == [a] + [b, c, d];
  }

  /** Without an order of the profile's own: method, authority, scheme, path. */
  lemma DefaultPseudoOrder(q: Outgoing)
    ensures PseudoFields(q, [])
         == Unless(q.verb, ":method")
            + (Unless(if q.host != "" then q.host else q.urlHost, ":authority")
               + (Unless(q.scheme, ":scheme") + Unless(q.path, ":path")))
  {
    var values := PseudoValues(q.verb, q.scheme, q.path, Authority(q.host, q.urlHost));
    assert [] + DEFAULT_ORDER == DEFAULT_ORDER;
    DefaultsDistinct();
    EmitDistinct(DEFAULT_ORDER, values);
    EachOfFour(":method", ":authority", ":scheme", ":path", values);
    FourValues(q);
  }

  lemma FourValues(q: Outgoing)
    ensures var values := PseudoValues(q.verb, q.scheme, q.path, Authority(q.host, q.urlHost));
            && values[":method"] == q.verb && values[":scheme"] == q.scheme && values[":path"] == q.path
            && values[":authority"] == if q.host != "" then q.host else q.urlHost
  {
    assert ":method"[1] != ":scheme"[1] && ":method"[1] != ":path"[1] && ":method"[1] != ":authority"[1];
    assert ":scheme"[1] != ":path"[1] && ":scheme"[1] != ":authority"[1] && ":path"[1] != ":authority"[1];
  }

  // ---- Regular headers ----

  /** The key is sent with the caller's values: not hop-by-hop, and not replaced by the body's length. */
  predicate Keeps(q: Outgoing, k: string) {
    Lower(k) != "host" && Lower(k) != "connection" && (k != "Content-Length" || q.body == [])
  }

  lemma FoldedNames()
    ensures Lower("Host") == "host" && Lower("Connection") == "connection"
    ensures Lower("Content-Length") == "content-length"
  {
  }

  /** The headers on the wire, key by key. */
  lemma WireHeadersMean(q: Outgoing, k: string)
    ensures var w := WireHeaders(q.headers, |q.body|);
            && (k in w <==> (k in q.headers && Keeps(q, k)) || (k == "Content-Length" && q.body != []))
            && (k in w && Keeps(q, k) ==> w[k] == q.headers[k])
            && (k == "Content-Length" && q.body != [] ==> w[k] == [Itoa(|q.body|)])
  {
    FoldedNames();
    assert |Lower("Content-Length")| == 14 && |"host"| == 4 && |"connection"| == 10;
  }

  /** One of the caller's own fields, its name in lower case, or the length of the body. */
  ghost predicate RegularOf(q: Outgoing, f: Field) {
    || (exists k :: k in q.headers && Keeps(q, k) && f.name == Lower(k) && f.value in q.headers[k])
    || (q.body != [] && f == Field("content-length", Itoa(|q.body|)))
  }

  predicate StandsAt(fields: seq<Field>, at: nat, name: string, values: seq<string>) {
    at + |values| <= |fields| && forall j :: 0 <= j < |values| ==> fields[at + j] == Field(name, values[j])
  }

  /** The values stand together under the name, in their order. */
  ghost predicate StandTogether(fields: seq<Field>, name: string, values: seq<string>) {
    exists at: nat :: StandsAt(fields, at, name, values)
  }

  /** keys lists the keys that are sent, each once. */
  ghost predicate ListsKeys(q: Outgoing, keys: seq<string>) {
    && (forall k :: k in keys <==> (k in q.headers && Keeps(q, k)) || (k == "Content-Length" && q.body != []))
    && (forall i, j :: 0 <= i < j < |keys| ==> keys[i] != keys[j])
  }

  function ValuesSent(q: Outgoing, k: string): seq<string>
    requires k in q.headers || k == "Content-Length"
  {
    if k == "Content-Length" && q.body != [] then [Itoa(|q.body|)]
    else if k in q.headers then q.headers[k]
    else []
  }

  /** How many fields those keys make. */
  function Count(q: Outgoing, keys: seq<string>): nat
    requires forall k :: k in keys ==> k in q.headers || k == "Content-Length"
  {
    if keys == [] then 0 else Count(q, keys[..|keys| - 1]) + |ValuesSent(q, keys[|keys| - 1])|
  }

  lemma {:induction false} CountFields(q: Outgoing, keys: seq<string>)
    requires forall k :: k in keys ==> k in WireHeaders(q.headers, |q.body|)
    requires forall k :: k in keys ==> k in q.headers || k == "Content-Length"
    ensures |FieldsOf(WireHeaders(q.headers, |q.body|), keys)| == Count(q, keys)
  {
    if keys != [] {
      CountFields(q, keys[..|keys| - 1]);
      WireHeadersMean(q, keys[|keys| - 1]);
    }
  }

  /** What the regular part of a field list must be: nothing lost, added, repeated or torn apart. */
  ghost predicate RegularMeans(q: Outgoing, regular: seq<Field>) {
    && (forall f :: f in regular <==> RegularOf(q, f))
    && (forall k :: k in q.headers && Keeps(q, k) ==> StandTogether(regular, Lower(k), q.headers[k]))
    && exists keys :: ListsKeys(q, keys) && |regular| == Count(q, keys)
  }

  lemma KeysListed(q: Outgoing, rank: Rank, keys: seq<string>)
    requires IsOrdering(rank, keys, WireHeaders(q.headers, |q.body|).Keys)
    ensures ListsKeys(q, keys) && forall k :: k in keys ==> k in WireHeaders(q.headers, |q.body|)
  {
    KeysInMap(rank, keys, WireHeaders(q.headers, |q.body|).Keys);
    OrderingIsDistinct(rank, keys, WireHeaders(q.headers, |q.body|).Keys);
    forall k ensures k in keys <==> (k in q.headers && Keeps(q, k)) || (k == "Content-Length" && q.body != []) {
      WireHeadersMean(q, k);
    }
  }

  lemma FieldIsRegular(q: Outgoing, keys: seq<string>, f: Field)
    requires ListsKeys(q, keys) && forall k :: k in keys ==> k in WireHeaders(q.headers, |q.body|)
    ensures f in FieldsOf(WireHeaders(q.headers, |q.body|), keys) <==> RegularOf(q, f)
  {
    var w := WireHeaders(q.headers, |q.body|);
    FoldedNames();
    if f in FieldsOf(w, keys) {
      RegularNamesAreKeys(w, keys, f);
      var k :| k in keys && f.name == Lower(k) && f.value in w[k];
      WireHeadersMean(q, k);
    }
    if RegularOf(q, f) {
      if q.body != [] && f == Field("content-length", Itoa(|q.body|)) {
        WireHeadersMean(q, "Content-Length");
        var at := KeyIsSent(w, keys, "Content-Length", 0);
      } else {
        var k :| k in q.headers && Keeps(q, k) && f.name == Lower(k) && f.value in q.headers[k];
        WireHeadersMean(q, k);
        var j :| 0 <= j < |w[k]| && w[k][j] == f.value;
        var at := KeyIsSent(w, keys, k, j);
      }
    }
  }

  lemma KeyStands(q: Outgoing, keys: seq<string>, k: string)
    requires ListsKeys(q, keys) && forall k :: k in keys ==> k in WireHeaders(q.headers, |q.body|)
    requires k in q.headers && Keeps(q, k)
    ensures StandTogether(FieldsOf(WireHeaders(q.headers, |q.body|), keys), Lower(k), q.headers[k])
  {
    var w := WireHeaders(q.headers, |q.body|);
    WireHeadersMean(q, k);
    var i :| 0 <= i < |keys| && keys[i] == k;
    var at := ValuesStayInOrder(w, keys, i);
    var fields := FieldsOf(w, keys);
    var part := fields[at..at + |w[k]|];
    forall j | 0 <= j < |w[k]| ensures fields[at + j] == Field(Lower(k), w[k][j]) {
      assert part[j] == fields[at + j];
    }
    assert StandsAt(fields, at, Lower(k), w[k]);
  }

  lemma RegularFieldsMean(q: Outgoing, rank: Rank, regular: seq<Field>)
    requires Arranged(WireHeaders(q.headers, |q.body|), rank, regular)
    ensures RegularMeans(q, regular)
  {
    var w := WireHeaders(q.headers, |q.body|);
    var keys :| IsOrdering(rank, keys, w.Keys) && (forall k :: k in keys ==> k in w) && regular == FieldsOf(w, keys);
    KeysListed(q, rank, keys);
    forall f: Field ensures f in regular <==> RegularOf(q, f) { FieldIsRegular(q, keys, f); }
    forall k | k in q.headers && Keeps(q, k) ensures StandTogether(regular, Lower(k), q.headers[k]) {
      KeyStands(q, keys, k);
    }
    CountFields(q, keys);
  }

  // ---- The whole list ----

  /** The first n fields are the request's pseudo-headers, each once; the others its headers. */
  ghost predicate SaysRequest(q: Outgoing, fields: seq<Field>, n: nat) {
    && n <= |fields|
    && (forall f :: f in fields[..n] <==> PseudoOf(q, f))
    && (forall i, j :: 0 <= i < j < n ==> fields[i].name != fields[j].name)
    && RegularMeans(q, fields[n..])
  }

  /** The list is the request's pseudo-headers, then its headers. */
  ghost predicate Says(q: Outgoing, fields: seq<Field>) {
    exists n :: SaysRequest(q, fields, n)
  }

  /** Every field list of a request, whatever the profile and the map iteration, says that request. */
  lemma FieldListSays(q: Outgoing, pseudoOrder: seq<string>, order: seq<string>, fields: seq<Field>)
    requires IsFieldList(q, pseudoOrder, order, fields)
    ensures Says(q, fields)
  {
    var pseudo := PseudoFields(q, pseudoOrder);
    var regular :| Arranged(WireHeaders(q.headers, |q.body|), RankOf(order), regular) && fields == pseudo + regular;
    assert fields[..|pseudo|] == pseudo && fields[|pseudo|..] == regular;
    PseudoFieldsMean(q, pseudoOrder);
    RegularFieldsMean(q, RankOf(order), regular);
    assert SaysRequest(q, fields, |pseudo|);
  }
}
