/** The HTTP/2 field list of a request: pseudoHeaders followed by regularHeaders. */
module FieldList {
  import opened Prelude
  import opened Text
  import opened HeaderOrder
  import opened Hpack

  // ---- Pseudo-headers ----

  const DEFAULT_ORDER: seq<string> := [":method", ":authority", ":scheme", ":path"]

  type Values = map<string, string>

  function PseudoValues(verb: string, scheme: string, path: string, authority: string): Values {
    map[":method" := verb, ":scheme" := scheme, ":path" := path, ":authority" := authority]
  }

  predicate Present(values: Values, name: string) {
    name in values && values[name] != ""
  }

  /** The non-empty values named by the list, each at its first mention. */
  function EmitFirst(names: seq<string>, values: Values): seq<Field>
    decreases |names|
  {
    if names == [] then []
    else if Present(values, names[0]) then
      [Field(names[0], values[names[0]])] + EmitFirst(names[1..], values - {names[0]})
    else EmitFirst(names[1..], values)
  }

  /** requestAuthority: the Host field wins over the URL's host. */
  function Authority(host: string, urlHost: string): string {
    if host != "" then host else urlHost
  }

  method PseudoHeaders(values: Values, order: seq<string>) returns (out: seq<Field>)
    ensures out == EmitFirst(order + DEFAULT_ORDER, values)
  {
    var left := values;
    out := [];
    for i := 0 to |order|
      invariant out + EmitFirst(order[i..] + DEFAULT_ORDER, left) == EmitFirst(order + DEFAULT_ORDER, values)
    {
      var name := order[i];
      assert (order[i..] + DEFAULT_ORDER)[1..] == order[i + 1..] + DEFAULT_ORDER;
      if Present(left, name) {
        out := out + [Field(name, left[name])];
        left := left - {name};
      }
    }
    assert order[|order|..] + DEFAULT_ORDER == DEFAULT_ORDER;
    DefaultsDistinct();
    EmitDistinct(DEFAULT_ORDER, left);
    var rest := EmitDefaults(DEFAULT_ORDER, left);
    out := out + rest;
  }

  lemma DefaultsDistinct()
    ensures forall i, j :: 0 <= i < j < |DEFAULT_ORDER| ==> DEFAULT_ORDER[i] != DEFAULT_ORDER[j]
  {
  }

  /** The loop over the default order. */
  method EmitDefaults(defaults: seq<string>, left: Values) returns (out: seq<Field>)
    ensures out == EmitEach(defaults, left)
  {
    out := [];
    for i := 0 to |defaults|
      invariant out + EmitEach(defaults[i..], left) == EmitEach(defaults, left)
    {
      var name := defaults[i];
      assert defaults[i..][1..] == defaults[i + 1..];
      if Present(left, name) {
        out := out + [Field(name, left[name])];
      }
    }
  }

  /** The second loop does not delete what it emits. */
  function EmitEach(names: seq<string>, values: Values): seq<Field> {
    if names == [] then []
    else (if Present(values, names[0]) then [Field(names[0], values[names[0]])] else []) + EmitEach(names[1..], values)
  }

  lemma {:induction false} EmitEachIgnores(names: seq<string>, values: Values, gone: string)
    requires gone !in names
    ensures EmitEach(names, values - {gone}) == EmitEach(names, values)
  {
    if names != [] { EmitEachIgnores(names[1..], values, gone); }
  }

  lemma {:induction false} EmitDistinct(names: seq<string>, values: Values)
    requires forall i, j :: 0 <= i < j < |names| ==> names[i] != names[j]
    ensures EmitFirst(names, values) == EmitEach(names, values)
    decreases |names|
  {
    if names != [] {
      if Present(values, names[0]) {
        EmitDistinct(names[1..], values - {names[0]});
        EmitEachIgnores(names[1..], values, names[0]);
      } else {
        EmitDistinct(names[1..], values);
      }
    }
  }

  /** k is where the list first mentions name. */
  ghost predicate FirstAt(names: seq<string>, name: string, k: nat) {
    k < |names| && names[k] == name && forall j :: 0 <= j < k ==> names[j] != name
  }

  lemma FirstMention(names: seq<string>, name: string) returns (k: nat)
    requires name in names
    ensures FirstAt(names, name, k)
  {
    k := 0;
    while names[k] != name
      invariant k < |names| && forall j :: 0 <= j < k ==> names[j] != name
      decreases |names| - k
    {
      assert exists m :: 0 <= m < |names| && names[m] == name;
      k := k + 1;
    }
  }

  /**
   Emission neither loses, repeats nor alters a value, whatever the list looks like: exactly
   the present names on the list, each once, with its own value.
   */
  lemma {:induction false} EmitFirstExact(names: seq<string>, values: Values)
    ensures forall f :: f in EmitFirst(names, values) <==>
              f.name in names && Present(values, f.name) && f.value == values[f.name]
    ensures forall i, j :: 0 <= i < j < |EmitFirst(names, values)| ==>
              EmitFirst(names, values)[i].name != EmitFirst(names, values)[j].name
    decreases |names|
  {
    if names != [] {
      assert names == [names[0]] + names[1..];
      if Present(values, names[0]) {
        var rest := EmitFirst(names[1..], values - {names[0]});
        EmitFirstExact(names[1..], values - {names[0]});
        forall j | 0 <= j < |rest| ensures rest[j].name != names[0] {
          assert rest[j] in rest;
        }
      } else {
        EmitFirstExact(names[1..], values);
      }
    }
  }

  lemma {:induction false} MentionedEarlier(names: seq<string>, values: Values, i: nat, j: nat, ki: nat, kj: nat)
    requires i < j < |EmitFirst(names, values)|
    requires FirstAt(names, EmitFirst(names, values)[i].name, ki)
    requires FirstAt(names, EmitFirst(names, values)[j].name, kj)
    ensures ki < kj
    decreases |names|
  {
    var out := EmitFirst(names, values);
    EmitFirstExact(names, values);
    assert out[i].name != out[j].name;
    if Present(values, names[0]) {
      var rest := EmitFirst(names[1..], values - {names[0]});
      if i == 0 {
        assert ki == 0;
      } else {
        assert out[i] == rest[i - 1] && out[j] == rest[j - 1];
        assert out[0].name != out[i].name && out[0].name != out[j].name;
        assert FirstAt(names[1..], rest[i - 1].name, ki - 1);
        assert FirstAt(names[1..], rest[j - 1].name, kj - 1);
        MentionedEarlier(names[1..], values - {names[0]}, i - 1, j - 1, ki - 1, kj - 1);
      }
    } else {
      assert out[i] in out && out[j] in out;
      assert FirstAt(names[1..], out[i].name, ki - 1);
      assert FirstAt(names[1..], out[j].name, kj - 1);
      MentionedEarlier(names[1..], values, i, j, ki - 1, kj - 1);
    }
  }

  /** Emission follows the list: of two emitted names the list first mentions the earlier one earlier. */
  lemma EmitFirstOrder(names: seq<string>, values: Values, i: nat, j: nat) returns (ki: nat, kj: nat)
    requires i < j < |EmitFirst(names, values)|
    ensures ki < kj
    ensures FirstAt(names, EmitFirst(names, values)[i].name, ki)
    ensures FirstAt(names, EmitFirst(names, values)[j].name, kj)
  {
    var out := EmitFirst(names, values);
    EmitFirstExact(names, values);
    assert out[i] in out && out[j] in out;
    ki := FirstMention(names, out[i].name);
    kj := FirstMention(names, out[j].name);
    MentionedEarlier(names, values, i, j, ki, kj);
  }

  /**
   RFC 7540 section 8.1.2.3 for an arbitrary profile list (duplicates, omissions, unknown
   names): every non-empty pseudo-header is sent exactly once and nothing else is.
   */
  lemma PseudoHeadersComplete(order: seq<string>, verb: string, scheme: string, path: string, authority: string)
    ensures var values := PseudoValues(verb, scheme, path, authority);
            var out := EmitFirst(order + DEFAULT_ORDER, values);
            && (forall f :: f in out <==> Present(values, f.name) && f.value == values[f.name])
            && (forall i, j :: 0 <= i < j < |out| ==> out[i].name != out[j].name)
  {
    var values := PseudoValues(verb, scheme, path, authority);
    EmitFirstExact(order + DEFAULT_ORDER, values);
    assert forall n :: n in values ==> n in DEFAULT_ORDER by {
      assert DEFAULT_ORDER[0] == ":method" && DEFAULT_ORDER[1] == ":authority";
      assert DEFAULT_ORDER[2] == ":scheme" && DEFAULT_ORDER[3] == ":path";
    }
  }

  // ---- Regular headers ----

  const CONTENT_LENGTH := "Content-Length"

  predicate HopByHop(name: string) {
    EqualFold(name, "Host") || EqualFold(name, "Connection")
  }

  /** The headers that go on the wire, still unordered. */
  function WireHeaders(h: Headers, bodyLen: nat): Headers {
    var kept := map name | name in h && !HopByHop(name) :: h[name];
    if bodyLen > 0 then kept[CONTENT_LENGTH := [Itoa(bodyLen)]] else kept
  }

  function Tagged(name: string, values: seq<string>): (fs: seq<Field>)
    ensures |fs| == |values|
    ensures forall i :: 0 <= i < |fs| ==> fs[i] == Field(name, values[i])
  {
    seq(|values|, i requires 0 <= i < |values| => Field(name, values[i]))
  }

  /** The fields of the listed keys, names lower-cased, values in their own order. */
  function FieldsOf(h: Headers, keys: seq<string>): seq<Field>
    requires forall k :: k in keys ==> k in h
  {
    if keys == [] then []
    else FieldsOf(h, keys[..|keys| - 1]) + Tagged(Lower(keys[|keys| - 1]), h[keys[|keys| - 1]])
  }

  lemma KeysInMap(rank: Rank, keys: seq<string>, names: set<string>)
    requires IsOrdering(rank, keys, names)
    ensures forall k :: k in keys <==> k in names
  {
    assert forall k :: k in keys <==> k in multiset(keys);
  }

  /** out lists the map's fields key by key, the keys in one of the orders the rank allows. */
  ghost predicate Arranged(h: Headers, rank: Rank, out: seq<Field>) {
    exists keys :: IsOrdering(rank, keys, h.Keys) && (forall k :: k in keys ==> k in h) && out == FieldsOf(h, keys)
  }

  method RegularHeaders(h: Headers, order: seq<string>, bodyLen: nat) returns (out: seq<Field>)
    ensures Arranged(WireHeaders(h, bodyLen), RankOf(order), out)
  {
    var headers: Headers := map[];
    var todo := h.Keys;
    while todo != {}
      invariant todo <= h.Keys
      invariant headers == map name | name in h && name !in todo && !HopByHop(name) :: h[name]
      decreases |todo|
    {
      var name :| name in todo;
      todo := todo - {name};
      if !HopByHop(name) {
        headers := headers[name := h[name]];
      }
    }
    if bodyLen > 0 {
      headers := headers[CONTENT_LENGTH := [Itoa(bodyLen)]];
    }
    assert headers == WireHeaders(h, bodyLen);

    var sorted := OrderHeaders(order, headers);
    KeysInMap(RankOf(order), sorted, headers.Keys);
    out := [];
    var seen: set<string> := {};
    for i := 0 to |sorted|
      invariant out == FieldsOf(headers, sorted[..i])
      invariant forall j :: 0 <= j < i ==> Lower(sorted[j]) in seen
    {
      out := out + Tagged(Lower(sorted[i]), headers[sorted[i]]);
      seen := seen + {Lower(sorted[i])};
      assert sorted[..i + 1][..i] == sorted[..i];
    }
    assert sorted[..|sorted|] == sorted;

    // The keys not seen yet: there are none, so the last loop adds nothing.
    var rest := set key | key in headers && Lower(key) !in seen;
    assert rest == {} by {
      forall key | key in headers ensures Lower(key) in seen {
        assert key in sorted;
      }
    }
  }

  lemma {:induction false} FieldsOfConcat(h: Headers, a: seq<string>, b: seq<string>)
    requires forall k :: k in a + b ==> k in h
    ensures FieldsOf(h, a + b) == FieldsOf(h, a) + FieldsOf(h, b)
    decreases |b|
  {
    if b == [] {
      assert a + b == a;
    } else {
      var front, last := b[..|b| - 1], b[|b| - 1];
      assert (a + b)[..|a + b| - 1] == a + front;
      FieldsOfConcat(h, a, front);
      Regroup(FieldsOf(h, a), FieldsOf(h, front), Tagged(Lower(last), h[last]));
    }
  }

  lemma FieldsOfSplit(h: Headers, keys: seq<string>, i: nat)
    requires forall k :: k in keys ==> k in h
    requires i < |keys|
    ensures forall k :: k in keys[..i] + keys[i + 1..] ==> k in h
    ensures multiset(FieldsOf(h, keys))
         == multiset(FieldsOf(h, keys[..i] + keys[i + 1..])) + multiset(Tagged(Lower(keys[i]), h[keys[i]]))
  {
    var a, b := keys[..i], keys[i + 1..];
    assert keys == a + [keys[i]] + b;
    FieldsOfConcat(h, a + [keys[i]], b);
    FieldsOfConcat(h, a, [keys[i]]);
    FieldsOfConcat(h, a, b);
    assert FieldsOf(h, [keys[i]]) == Tagged(Lower(keys[i]), h[keys[i]]);
  }

  lemma WithoutOne(s: seq<string>, i: nat)
    requires i < |s|
    ensures multiset(s[..i] + s[i + 1..]) == multiset(s) - multiset{s[i]}
  {
    assert s == s[..i] + [s[i]] + s[i + 1..];
  }

  /** The fields as a multiset do not depend on the order of the keys. */
  lemma {:induction false} FieldsOfPermutation(h: Headers, a: seq<string>, b: seq<string>)
    requires forall k :: k in a ==> k in h
    requires multiset(a) == multiset(b)
    ensures forall k :: k in b ==> k in h
    ensures multiset(FieldsOf(h, a)) == multiset(FieldsOf(h, b))
    decreases |a|
  {
    forall k | k in b ensures k in a && k in h {
      assert k in multiset(a);
    }
    assert |a| == |multiset(a)| == |multiset(b)| == |b|;
    if a != [] {
      assert a[0] in multiset(b);
      var i :| 0 <= i < |b| && b[i] == a[0];
      WithoutOne(a, 0);
      WithoutOne(b, i);
      FieldsOfSplit(h, a, 0);
      FieldsOfSplit(h, b, i);
      FieldsOfPermutation(h, a[..0] + a[1..], b[..i] + b[i + 1..]);
    }
  }

  /**
   Conservation: however the map was iterated and whatever the profile's list says, the
   fields sent are those of the headers that go on the wire, each as often as it occurs;
   enumerating the map in any other order gives the same multiset.
   */
  lemma RegularHeadersConserve(h: Headers, order: seq<string>, bodyLen: nat, keys: seq<string>, other: seq<string>)
    requires IsOrdering(RankOf(order), keys, WireHeaders(h, bodyLen).Keys)
    requires multiset(other) == multiset(WireHeaders(h, bodyLen).Keys)
    ensures forall k :: k in keys || k in other ==> k in WireHeaders(h, bodyLen)
    ensures multiset(FieldsOf(WireHeaders(h, bodyLen), keys)) == multiset(FieldsOf(WireHeaders(h, bodyLen), other))
  {
    KeysInMap(RankOf(order), keys, WireHeaders(h, bodyLen).Keys);
    FieldsOfPermutation(WireHeaders(h, bodyLen), keys, other);
  }

  /** The values of one key stay together and keep their order. */
  lemma ValuesStayInOrder(h: Headers, keys: seq<string>, i: nat) returns (at: nat)
    requires forall k :: k in keys ==> k in h
    requires i < |keys|
    ensures at + |h[keys[i]]| <= |FieldsOf(h, keys)|
    ensures FieldsOf(h, keys)[at..at + |h[keys[i]]|] == Tagged(Lower(keys[i]), h[keys[i]])
  {
    var a, b := keys[..i], keys[i + 1..];
    assert keys == a + [keys[i]] + b;
    FieldsOfConcat(h, a + [keys[i]], b);
    FieldsOfConcat(h, a, [keys[i]]);
    at := |FieldsOf(h, a)|;
    assert FieldsOf(h, [keys[i]]) == Tagged(Lower(keys[i]), h[keys[i]]);
  }

  // ---- The whole list ----

  /**
   Section 8.1.2.1: all pseudo-headers come before all regular fields exactly when no header
   key that holds a value is itself a pseudo name.
   */
  lemma PseudoBeforeRegularIff(pseudo: seq<Field>, h: Headers, keys: seq<string>)
    requires forall k :: k in keys ==> k in h
    ensures (forall i :: |pseudo| <= i < |pseudo + FieldsOf(h, keys)| ==> !IsPseudo((pseudo + FieldsOf(h, keys))[i]))
            <==> forall k :: k in keys && h[k] != [] ==> !IsPseudo(Field(k, ""))
  {
    var list := pseudo + FieldsOf(h, keys);
    if k :| k in keys && h[k] != [] && IsPseudo(Field(k, "")) {
      var at := KeyIsSent(h, keys, k, 0);
      assert IsPseudo(list[|pseudo| + at]);
    } else {
      forall i | |pseudo| <= i < |list| ensures !IsPseudo(list[i]) {
        RegularNamesAreKeys(h, keys, FieldsOf(h, keys)[i - |pseudo|]);
      }
    }
  }

  /** Every value of a listed key is sent under the key in lower case. */
  lemma KeyIsSent(h: Headers, keys: seq<string>, k: string, j: nat) returns (at: nat)
    requires forall k :: k in keys ==> k in h
    requires k in keys && j < |h[k]|
    ensures at < |FieldsOf(h, keys)| && FieldsOf(h, keys)[at] == Field(Lower(k), h[k][j])
  {
    var i :| 0 <= i < |keys| && keys[i] == k;
    var start := ValuesStayInOrder(h, keys, i);
    at := start + j;
    assert FieldsOf(h, keys)[at] == FieldsOf(h, keys)[start..start + |h[k]|][j];
  }

  lemma {:induction false} RegularNamesAreKeys(h: Headers, keys: seq<string>, f: Field)
    requires forall k :: k in keys ==> k in h
    requires f in FieldsOf(h, keys)
    ensures exists k :: k in keys && f.name == Lower(k) && f.value in h[k]
  {
    var front, last := keys[..|keys| - 1], keys[|keys| - 1];
    if f in FieldsOf(h, front) {
      RegularNamesAreKeys(h, front, f);
    } else {
      assert f in Tagged(Lower(last), h[last]);
      assert f.name == Lower(last) && f.value in h[last];
    }
  }

  // ---- The announced length ----

  /** Every length the caller passed in and regularHeaders does not replace is the body's. */
  ghost predicate LengthsAgree(h: Headers, bodyLen: nat) {
    forall k, v ::
      k in h && EqualFold(k, CONTENT_LENGTH) && (k != CONTENT_LENGTH || bodyLen == 0) && v in h[k] ==>
        ParseNat(v) == Some(bodyLen)
  }

  /** Every announced length is the number of octets in the DATA frames (section 8.1.2.6 of RFC 7540). */
  predicate Announces(out: seq<Field>, bodyLen: nat) {
    forall i :: 0 <= i < |out| && out[i].name == Lower(CONTENT_LENGTH) ==> ParseNat(out[i].value) == Some(bodyLen)
  }

  lemma LengthKeyKept(h: Headers, bodyLen: nat, k: string)
    requires EqualFold(k, CONTENT_LENGTH)
    ensures k in WireHeaders(h, bodyLen) <==> k in h || (k == CONTENT_LENGTH && bodyLen > 0)
    ensures k in WireHeaders(h, bodyLen) ==>
              WireHeaders(h, bodyLen)[k] == if k == CONTENT_LENGTH && bodyLen > 0 then [Itoa(bodyLen)] else h[k]
  {
    assert |Lower(k)| == |CONTENT_LENGTH| && |Lower("Host")| == 4 && |Lower("Connection")| == 10;
  }

  lemma DisagreementIsSent(h: Headers, rank: Rank, bodyLen: nat, out: seq<Field>)
    requires Arranged(WireHeaders(h, bodyLen), rank, out) && !LengthsAgree(h, bodyLen)
    ensures !Announces(out, bodyLen)
  {
    var w := WireHeaders(h, bodyLen);
    var keys :| IsOrdering(rank, keys, w.Keys) && (forall k :: k in keys ==> k in w) && out == FieldsOf(w, keys);
    KeysInMap(rank, keys, w.Keys);
    var k, v :| k in h && EqualFold(k, CONTENT_LENGTH) && (k != CONTENT_LENGTH || bodyLen == 0) && v in h[k]
                && ParseNat(v) != Some(bodyLen);
    LengthKeyKept(h, bodyLen, k);
    var j :| 0 <= j < |h[k]| && h[k][j] == v;
    var at := KeyIsSent(w, keys, k, j);
  }

  lemma AgreementIsSent(h: Headers, rank: Rank, bodyLen: nat, out: seq<Field>, i: nat)
    requires Arranged(WireHeaders(h, bodyLen), rank, out) && LengthsAgree(h, bodyLen)
    requires i < |out| && out[i].name == Lower(CONTENT_LENGTH)
    ensures ParseNat(out[i].value) == Some(bodyLen)
  {
    var w := WireHeaders(h, bodyLen);
    var keys :| IsOrdering(rank, keys, w.Keys) && (forall k :: k in keys ==> k in w) && out == FieldsOf(w, keys);
    assert out[i] in out;
    RegularNamesAreKeys(w, keys, out[i]);
    var k :| k in keys && out[i].name == Lower(k) && out[i].value in w[k];
    LengthKeyKept(h, bodyLen, k);
    ParseItoa(bodyLen);
  }

  /**
   Whatever the order, every length announced on the wire is that of the DATA sent exactly when
   the caller's own agree; and a body is always announced.
   */
  lemma AnnouncedLengthIff(h: Headers, rank: Rank, bodyLen: nat, out: seq<Field>)
    requires Arranged(WireHeaders(h, bodyLen), rank, out)
    ensures Announces(out, bodyLen) <==> LengthsAgree(h, bodyLen)
    ensures bodyLen > 0 ==> Field(Lower(CONTENT_LENGTH), Itoa(bodyLen)) in out
  {
    if LengthsAgree(h, bodyLen) {
      forall i | 0 <= i < |out| && out[i].name == Lower(CONTENT_LENGTH)
        ensures ParseNat(out[i].value) == Some(bodyLen)
      {
        AgreementIsSent(h, rank, bodyLen, out, i);
      }
    } else {
      DisagreementIsSent(h, rank, bodyLen, out);
    }
    if bodyLen > 0 {
      BodyIsAnnounced(h, rank, bodyLen, out);
    }
  }

  lemma BodyIsAnnounced(h: Headers, rank: Rank, bodyLen: nat, out: seq<Field>)
    requires Arranged(WireHeaders(h, bodyLen), rank, out) && bodyLen > 0
    ensures Field(Lower(CONTENT_LENGTH), Itoa(bodyLen)) in out
  {
    var w := WireHeaders(h, bodyLen);
    var keys :| IsOrdering(rank, keys, w.Keys) && (forall k :: k in keys ==> k in w) && out == FieldsOf(w, keys);
    KeysInMap(rank, keys, w.Keys);
    LengthKeyKept(h, bodyLen, CONTENT_LENGTH);
    var at := KeyIsSent(w, keys, CONTENT_LENGTH, 0);
  }

  // ---- The whole request ----

  /** A request as RoundTrip gets it, its body read. */
  datatype Outgoing = Outgoing(verb: string, scheme: string, path: string, host: string, urlHost: string,
                               headers: Headers, body: seq<byte>)

  function PseudoFields(q: Outgoing, pseudoOrder: seq<string>): seq<Field> {
    EmitFirst(pseudoOrder + DEFAULT_ORDER, PseudoValues(q.verb, q.scheme, q.path, Authority(q.host, q.urlHost)))
  }

  /** fields is a list headerBlock may produce for the request: pseudo-headers, then regular headers. */
  ghost predicate IsFieldList(q: Outgoing, pseudoOrder: seq<string>, order: seq<string>, fields: seq<Field>) {
    exists regular ::
      && Arranged(WireHeaders(q.headers, |q.body|), RankOf(order), regular)
      && fields == PseudoFields(q, pseudoOrder) + regular
  }

  /** Such a list says each non-empty pseudo-header with its value, and every value of every header sent. */
  lemma FieldListMeans(q: Outgoing, pseudoOrder: seq<string>, order: seq<string>, fields: seq<Field>, name: string)
    requires IsFieldList(q, pseudoOrder, order, fields)
    ensures var values := PseudoValues(q.verb, q.scheme, q.path, Authority(q.host, q.urlHost));
            Present(values, name) ==> Field(name, values[name]) in fields
    ensures var w := WireHeaders(q.headers, |q.body|);
            forall j :: name in w && 0 <= j < |w[name]| ==> Field(Lower(name), w[name][j]) in fields
  {
    var w := WireHeaders(q.headers, |q.body|);
    var rank := RankOf(order);
    PseudoHeadersComplete(pseudoOrder, q.verb, q.scheme, q.path, Authority(q.host, q.urlHost));
    var regular :| Arranged(w, rank, regular) && fields == PseudoFields(q, pseudoOrder) + regular;
    var keys :| IsOrdering(rank, keys, w.Keys) && (forall k :: k in keys ==> k in w) && regular == FieldsOf(w, keys);
    KeysInMap(rank, keys, w.Keys);
    forall j | name in w && 0 <= j < |w[name]| ensures Field(Lower(name), w[name][j]) in fields {
      var at := KeyIsSent(w, keys, name, j);
      assert regular[at] in fields;
    }
  }

  /** Both loops, one after the other. */
  method RequestFields(q: Outgoing, pseudoOrder: seq<string>, order: seq<string>)
    returns (pseudo: seq<Field>, regular: seq<Field>)
    ensures IsFieldList(q, pseudoOrder, order, pseudo + regular)
  {
    pseudo := PseudoHeaders(PseudoValues(q.verb, q.scheme, q.path, Authority(q.host, q.urlHost)), pseudoOrder);
    regular := RegularHeaders(q.headers, order, |q.body|);
  }
}
