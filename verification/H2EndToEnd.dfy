/** From the requests callers make to what the peer of a shared connection reads of them. */
module H2EndToEnd {
  import opened HeaderOrder
  import opened FieldList
  import RequestMeaning
  import Hpack
  import H2Wire
  import S = H2Stream
  import opened H2Conn
  import opened H2Lifecycle

  /** How a profile orders the fields of a request. */
  datatype Orders = Orders(pseudo: seq<string>, headers: seq<string>)

  /** The encoder's side of header compression. */
  datatype Coding = Coding(fixed: Hpack.Table, cap: nat)

  /** What writeRequest makes of q: a field list of q, its encoding from an empty table, and q's body. */
  ghost predicate Carries(p: Orders, e: Coding, fields: seq<Hpack.Field>, op: H2Wire.Op, q: Outgoing) {
    && IsFieldList(q, p.pseudo, p.headers, fields)
    && op.Request?
    && op.body == q.body
    && Hpack.Encodes(e.fixed, e.cap, [], fields, op.block)
  }

  /** The k-th request of the run carries qs[k]. */
  ghost predicate RunCarries(p: Orders, e: Coding, ls: seq<S.Label>, qs: seq<Outgoing>) {
    && |qs| == |RequestsOf(ls)|
    && forall k :: 0 <= k < |qs| ==> Carries(p, e, ListsOf(ls)[k], RequestsOf(ls)[k], qs[k])
  }

  /** The label is a request made from q: its fields, their encoding and q's body. */
  ghost predicate MadeFrom(p: Orders, e: Coding, l: S.Label, q: Outgoing) {
    && l.Request?
    && IsFieldList(q, p.pseudo, p.headers, l.fields)
    && Hpack.Encodes(e.fixed, e.cap, [], l.fields, l.block)
    && l.body == q.body
  }

  /** Runs in which every request is made that way carry their requests, whatever else happens in them. */
  lemma RunCarriesMore(p: Orders, e: Coding, front: seq<S.Label>, qs: seq<Outgoing>, l: S.Label, q: Outgoing)
    requires RunCarries(p, e, front, qs)
    ensures !l.Request? ==> RunCarries(p, e, front + [l], qs)
    ensures MadeFrom(p, e, l, q) ==> RunCarries(p, e, front + [l], qs + [q])
  {
    var ls := front + [l];
    assert ls[..|ls| - 1] == front;
    if l.Request? {
      assert RequestsOf(ls) == RequestsOf(front) + [RequestOf(l)] && ListsOf(ls) == ListsOf(front) + [l.fields];
    }
  }

  // ---- What the peer makes of them ----

  /** The peer read the request's field list, and its body, or the part of it that was written. */
  ghost predicate Delivered(p: Orders, item: H2Wire.Item, fields: seq<Hpack.Field>, q: Outgoing) {
    && IsFieldList(q, p.pseudo, p.headers, fields)
    && (item.Complete? ==> item.body == q.body)
    && (item.Partial? ==> item.body <= q.body)
    && IsRequestItem(item)
  }

  ghost predicate AllDelivered(p: Orders, items: seq<H2Wire.Item>, lists: seq<seq<Hpack.Field>>, qs: seq<Outgoing>) {
    && |items| == |lists| == |qs|
    && forall k :: 0 <= k < |qs| ==> Delivered(p, items[k], lists[k], qs[k])
  }

  lemma OneDelivered(p: Orders, e: Coding, fields: seq<Hpack.Field>, op: H2Wire.Op, q: Outgoing)
    requires H2Wire.ValidOp(op) && Carries(p, e, fields, op, q) && op.sent > 0
    ensures |H2Wire.ItemsOf(op)| == 1 && Delivered(p, H2Wire.ItemsOf(op)[0], fields, q)
  {
  }

  lemma DeliveredInFront(p: Orders, first: seq<H2Wire.Item>, fields: seq<Hpack.Field>, q: Outgoing,
                         items: seq<H2Wire.Item>, lists: seq<seq<Hpack.Field>>, qs: seq<Outgoing>)
    requires |first| == 1 && Delivered(p, first[0], fields, q) && AllDelivered(p, items, lists, qs)
    ensures AllDelivered(p, first + items, [fields] + lists, [q] + qs)
  {
  }

  /** Each list says its request: method, scheme, path, authority, and its headers' values. */
  ghost predicate AllSay(lists: seq<seq<Hpack.Field>>, qs: seq<Outgoing>) {
    |lists| == |qs| && forall k :: 0 <= k < |qs| ==> RequestMeaning.Says(qs[k], lists[k])
  }

  lemma DeliveredSay(p: Orders, items: seq<H2Wire.Item>, lists: seq<seq<Hpack.Field>>, qs: seq<Outgoing>)
    requires AllDelivered(p, items, lists, qs)
    ensures AllSay(lists, qs)
  {
    forall k | 0 <= k < |qs| ensures RequestMeaning.Says(qs[k], lists[k]) {
      assert Delivered(p, items[k], lists[k], qs[k]);
      RequestMeaning.FieldListSays(qs[k], p.pseudo, p.headers, lists[k]);
    }
  }

  lemma {:induction false} SentDelivered(p: Orders, e: Coding, ops: seq<H2Wire.Op>, lists: seq<seq<Hpack.Field>>,
                                         qs: seq<Outgoing>)
    requires H2Wire.ValidOps(ops) && |ops| == |lists| == |qs|
    requires forall k :: 0 <= k < |qs| ==> Carries(p, e, lists[k], ops[k], qs[k])
    ensures AllDelivered(p, H2Wire.AllItems(ops), H2Wire.SentLists(ops, lists), H2Wire.SentLists(ops, qs))
    decreases |ops|
  {
    if ops != [] {
      assert Carries(p, e, lists[0], ops[0], qs[0]);
      SentDelivered(p, e, ops[1..], lists[1..], qs[1..]);
      if ops[0].sent > 0 {
        OneDelivered(p, e, lists[0], ops[0], qs[0]);
        DeliveredInFront(p, H2Wire.ItemsOf(ops[0]), lists[0], qs[0],
                         H2Wire.AllItems(ops[1..]), H2Wire.SentLists(ops[1..], lists[1..]),
                         H2Wire.SentLists(ops[1..], qs[1..]));
      } else {
        assert H2Wire.AllItems(ops) == H2Wire.AllItems(ops[1..]);
      }
    }
  }

  /**
   End to end, from the callers' own requests: whatever the interleaving with other requests,
   control frames, failures and closing, the peer parses the shared wire and decodes its header
   blocks with one table, and gets, in the order in which callers took the lock, a field list
   of every request whose HEADERS got out, with its body whole, or a prefix where a write failed.
   */
  lemma PeerReadsOriginals(settings: seq<H2Wire.Setting>, window: nat, ls: seq<S.Label>,
                           p: Orders, e: Coding, qs: seq<Outgoing>, capD: nat)
    requires Exec(Open(settings, window), ls).Some?
    requires RunCarries(p, e, ls, qs)
    requires e.cap <= capD || e.cap < 32
    ensures H2Wire.ValidOps(Exec(Open(settings, window), ls).value.log)
    ensures var items := H2Wire.Parse(Wire(Exec(Open(settings, window), ls).value));
            var lists := Hpack.DecodeAll(e.fixed, [], capD, H2Wire.Blocks(items));
            lists.Some? && AllDelivered(p, RequestItems(items), lists.value, H2Wire.SentLists(RequestsOf(ls), qs))
            && AllSay(lists.value, H2Wire.SentLists(RequestsOf(ls), qs))
  {
    assert H2Wire.BlocksEncode(e.fixed, e.cap, RequestsOf(ls), ListsOf(ls));
    PeerReadsRequests(settings, window, ls, e.fixed, e.cap, capD);
    var ops, lists := RequestsOf(ls), ListsOf(ls);
    SentDelivered(p, e, ops, lists, qs);
    DeliveredSay(p, H2Wire.AllItems(ops), H2Wire.SentLists(ops, lists), H2Wire.SentLists(ops, qs));
  }

  /** When every write succeeded, none is missing. */
  lemma {:induction false} AllSent(ops: seq<H2Wire.Op>, qs: seq<Outgoing>)
    requires |ops| == |qs| && forall k :: 0 <= k < |ops| ==> ops[k].Request? && ops[k].sent > 0
    ensures H2Wire.SentLists(ops, qs) == qs
    decreases |ops|
  {
    if ops != [] {
      AllSent(ops[1..], qs[1..]);
      assert qs == [qs[0]] + qs[1..];
    }
  }
}
