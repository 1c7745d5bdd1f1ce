/** Closing, stream identifiers and the outgoing log, over every run of a connection. */
module H2Lifecycle {
  import opened Prelude
  import Hpack
  import H2Wire
  import S = H2Stream
  import opened H2Conn

  // ---- Closing ----

  lemma StepAfterClose(c: Conn, l: S.Label)
    requires c.closed && Step(c, l).Some?
    ensures Step(c, l).value.closed && Step(c, l).value.log == c.log
  {
    match l
    case Arrive(f, _) =>
    case _ =>
  }

  /** closed is for ever: no stream is registered again and nothing more reaches the wire. */
  lemma {:induction false} ClosedForever(c: Conn, ls: seq<S.Label>)
    requires ConnInv(c) && c.closed && Exec(c, ls).Some?
    ensures Exec(c, ls).value.closed
    ensures Exec(c, ls).value.streams == map[]
    ensures Exec(c, ls).value.log == c.log
    ensures ConnInv(Exec(c, ls).value)
  {
    if ls != [] {
      var front, last := ls[..|ls| - 1], ls[|ls| - 1];
      ClosedForever(c, front);
      StepAfterClose(Exec(c, front).value, last);
      StepKeepsInv(Exec(c, front).value, last);
    }
  }

  // ---- Identifiers ----

  /** uint32 arithmetic brings an identifier back after exactly 2^31 allocations. */
  lemma IdsRepeatIff(i: nat, j: nat)
    ensures IdOf(i) == IdOf(j) <==> i % MAX_STREAMS == j % MAX_STREAMS
  {
    IdOfPeriod(i);
    IdOfPeriod(j);
  }

  lemma IdOfPeriod(n: nat)
    ensures IdOf(n) == 1 + 2 * (n % MAX_STREAMS)
  {
    var q, r := n / MAX_STREAMS, n % MAX_STREAMS;
    assert n == q * MAX_STREAMS + r;
    assert 1 + 2 * n == q * ID_SPACE + (1 + 2 * r);
    assert (q * ID_SPACE + (1 + 2 * r)) % ID_SPACE == 1 + 2 * r by {
      ModPeriod(q, 1 + 2 * r);
    }
  }

  lemma {:induction false} ModPeriod(q: nat, r: nat)
    requires r < ID_SPACE
    ensures (q * ID_SPACE + r) % ID_SPACE == r
  {
  }

  /** Every identifier is odd; it is one the framer accepts in the first 2^30 of every 2^31. */
  lemma IdUsableIff(n: nat)
    ensures IdOf(n) % 2 == 1
    ensures IdOf(n) < ID_LIMIT <==> n % MAX_STREAMS < 0x4000_0000
  {
    IdOfPeriod(n);
  }

  /** Section 5.1.1 of RFC 7540 asks that identifiers are not reused: true for exactly 2^31 allocations. */
  lemma NoReuseIff(n: nat)
    ensures (forall i, j :: 0 <= i < j < n ==> IdOf(i) != IdOf(j)) <==> n <= MAX_STREAMS
  {
    if n <= MAX_STREAMS {
      forall i, j | 0 <= i < j < n ensures IdOf(i) != IdOf(j) {
        IdsRepeatIff(i, j);
      }
    } else {
      IdsRepeatIff(0, MAX_STREAMS);
    }
  }

  // ---- The log and the requests made ----

  function RequestOf(l: S.Label): H2Wire.Op
    requires l.Request?
  {
    H2Wire.Request(IdOf(l.ref), l.block, l.body, l.sent)
  }

  /** The requests of a run, with the identifier each got. */
  function RequestsOf(ls: seq<S.Label>): seq<H2Wire.Op> {
    if ls == [] then []
    else
      var front, last := ls[..|ls| - 1], ls[|ls| - 1];
      RequestsOf(front) + (if last.Request? then [RequestOf(last)] else [])
  }

  /** Their header lists, in the same order. */
  function ListsOf(ls: seq<S.Label>): (r: seq<seq<Hpack.Field>>)
    ensures |r| == |RequestsOf(ls)|
  {
    if ls == [] then []
    else
      var front, last := ls[..|ls| - 1], ls[|ls| - 1];
      ListsOf(front) + (if last.Request? then [last.fields] else [])
  }

  function RequestOps(log: seq<H2Wire.Op>): seq<H2Wire.Op> {
    if log == [] then []
    else RequestOps(log[..|log| - 1]) + (if log[|log| - 1].Request? then [log[|log| - 1]] else [])
  }

  lemma {:induction false} RequestOpsConcat(a: seq<H2Wire.Op>, b: seq<H2Wire.Op>)
    ensures RequestOps(a + b) == RequestOps(a) + RequestOps(b)
    decreases |b|
  {
    if b == [] {
      assert a + b == a;
    } else {
      assert (a + b)[..|a + b| - 1] == a + b[..|b| - 1];
      RequestOpsConcat(a, b[..|b| - 1]);
      Regroup(RequestOps(a), RequestOps(b[..|b| - 1]), if b[|b| - 1].Request? then [b[|b| - 1]] else []);
    }
  }

  lemma {:induction false} NoRequests(log: seq<H2Wire.Op>)
    requires forall k :: 0 <= k < |log| ==> !log[k].Request?
    ensures RequestOps(log) == []
  {
    if log != [] { NoRequests(log[..|log| - 1]); }
  }

  /** Every other step appends control frames at most. */
  lemma QuietStepLog(c: Conn, l: S.Label)
    requires ConnInv(c) && Step(c, l).Some? && !l.Request?
    ensures c.log <= Step(c, l).value.log
    ensures forall k :: |c.log| <= k < |Step(c, l).value.log| ==> Step(c, l).value.log[k].Control?
  {
  }

  lemma RequestStepLog(c: Conn, l: S.Label)
    requires ConnInv(c) && Step(c, l).Some? && l.Request?
    ensures Step(c, l).value.log == c.log + [RequestOf(l)]
    ensures l.ref == |c.objs| && H2Wire.ValidOp(RequestOf(l)) && (IdOf(l.ref) >= ID_LIMIT ==> l.sent == 0)
  {
  }

  lemma RequestOpsAppend(log: seq<H2Wire.Op>, op: H2Wire.Op)
    requires op.Request?
    ensures RequestOps(log + [op]) == RequestOps(log) + [op]
  {
    assert (log + [op])[..|log|] == log;
  }

  lemma NoMoreRequests(log: seq<H2Wire.Op>, more: seq<H2Wire.Op>)
    requires log <= more && forall k :: |log| <= k < |more| ==> more[k].Control?
    ensures RequestOps(more) == RequestOps(log)
  {
    assert more == log + more[|log|..];
    RequestOpsConcat(log, more[|log|..]);
    NoRequests(more[|log|..]);
  }

  /** What a step adds to the log: the request it made, or control frames only. */
  lemma StepLog(c: Conn, l: S.Label)
    requires ConnInv(c) && Step(c, l).Some?
    ensures RequestOps(Step(c, l).value.log) == RequestOps(c.log)
              + (if l.Request? then [RequestOf(l)] else [])
    ensures l.Request? ==>
              l.ref == |c.objs| && H2Wire.ValidOp(RequestOf(l)) && (IdOf(l.ref) >= ID_LIMIT ==> l.sent == 0)
  {
    var log := Step(c, l).value.log;
    if l.Request? {
      RequestStepLog(c, l);
      RequestOpsAppend(c.log, RequestOf(l));
    } else {
      QuietStepLog(c, l);
      NoMoreRequests(c.log, log);
    }
  }

  ghost predicate Numbered(ops: seq<H2Wire.Op>) {
    forall k :: 0 <= k < |ops| ==>
      ops[k].Request? && ops[k].id == IdOf(k) && H2Wire.ValidOp(ops[k]) && (ops[k].id >= ID_LIMIT ==> ops[k].sent == 0)
  }

  ghost predicate LogInv(c: Conn, ls: seq<S.Label>) {
    && ConnInv(c)
    && RequestOps(c.log) == RequestsOf(ls)
    && |RequestsOf(ls)| == |c.objs|
    && Numbered(RequestsOf(ls))
  }

  lemma StepKeepsLog(c: Conn, front: seq<S.Label>, l: S.Label, d: Conn)
    requires LogInv(c, front) && Step(c, l) == Some(d)
    ensures LogInv(d, front + [l])
  {
    var added := if l.Request? then [RequestOf(l)] else [];
    assert (front + [l])[..|front|] == front;
    assert RequestsOf(front + [l]) == RequestsOf(front) + added;
    StepKeepsInv(c, l);
    StepLog(c, l);
    assert Numbered(RequestsOf(front) + added);
  }

  lemma OpenLog(settings: seq<H2Wire.Setting>, window: nat)
    ensures LogInv(Open(settings, window), [])
  {
    NoRequests(Open(settings, window).log);
  }

  lemma {:induction false} RunLogFrom(c: Conn, ls: seq<S.Label>)
    requires LogInv(c, []) && Exec(c, ls).Some?
    ensures LogInv(Exec(c, ls).value, ls)
  {
    if ls != [] {
      var front, last := ls[..|ls| - 1], ls[|ls| - 1];
      RunLogFrom(c, front);
      assert front + [last] == ls;
      LogNext(c, front, last, Exec(c, front).value, Exec(c, ls).value);
    }
  }

  lemma LogNext(c: Conn, front: seq<S.Label>, l: S.Label, b: Conn, d: Conn)
    requires Exec(c, front) == Some(b) && LogInv(b, front) && Exec(c, front + [l]) == Some(d)
    ensures LogInv(d, front + [l])
  {
    assert (front + [l])[..|front + [l]| - 1] == front;
    StepKeepsLog(b, front, l, d);
  }

  lemma RunLog(settings: seq<H2Wire.Setting>, window: nat, ls: seq<S.Label>)
    requires Exec(Open(settings, window), ls).Some?
    ensures LogInv(Exec(Open(settings, window), ls).value, ls)
  {
    OpenLog(settings, window);
    RunLogFrom(Open(settings, window), ls);
  }

  // ---- What the peer reads ----

  predicate IsRequestItem(i: H2Wire.Item) {
    i.Complete? || i.Partial?
  }

  function RequestItems(items: seq<H2Wire.Item>): seq<H2Wire.Item> {
    if items == [] then []
    else (if IsRequestItem(items[0]) then [items[0]] else []) + RequestItems(items[1..])
  }

  lemma {:induction false} RequestItemsConcat(a: seq<H2Wire.Item>, b: seq<H2Wire.Item>)
    ensures RequestItems(a + b) == RequestItems(a) + RequestItems(b)
    decreases |a|
  {
    if a == [] {
      assert a + b == b;
    } else {
      var ab := a + b;
      assert ab[0] == a[0] && ab[1..] == a[1..] + b;
      RequestItemsConcat(a[1..], b);
      var first := if IsRequestItem(a[0]) then [a[0]] else [];
      assert RequestItems(a) == first + RequestItems(a[1..]) && RequestItems(ab) == first + RequestItems(ab[1..]);
      Regroup(first, RequestItems(a[1..]), RequestItems(b));
    }
  }

  lemma {:induction false} BlocksOfRequestItems(items: seq<H2Wire.Item>)
    ensures H2Wire.Blocks(RequestItems(items)) == H2Wire.Blocks(items)
    decreases |items|
  {
    if items != [] {
      BlocksOfRequestItems(items[1..]);
      if IsRequestItem(items[0]) {
        assert RequestItems(items)[1..] == RequestItems(items[1..]);
      } else {
        assert RequestItems(items) == RequestItems(items[1..]);
      }
    }
  }

  lemma {:induction false} RequestOpsFront(log: seq<H2Wire.Op>)
    requires log != []
    ensures RequestOps(log) == (if log[0].Request? then [log[0]] else []) + RequestOps(log[1..])
  {
    assert log == [log[0]] + log[1..];
    RequestOpsConcat([log[0]], log[1..]);
    assert RequestOps([log[0]][..0]) == [];
  }

  lemma {:induction false} RequestOpsValid(log: seq<H2Wire.Op>)
    requires H2Wire.ValidOps(log)
    ensures H2Wire.ValidOps(RequestOps(log))
  {
    if log != [] { RequestOpsValid(log[..|log| - 1]); }
  }

  lemma RequestItemsOfOne(op: H2Wire.Op)
    requires H2Wire.ValidOp(op)
    ensures RequestItems(H2Wire.ItemsOf(op)) == if op.Request? then H2Wire.ItemsOf(op) else []
  {
    var items := H2Wire.ItemsOf(op);
    if items != [] {
      assert items == [items[0]] && items[1..] == [];
    }
  }

  lemma {:induction false} ItemsOfRequests(log: seq<H2Wire.Op>)
    requires H2Wire.ValidOps(log)
    ensures H2Wire.ValidOps(RequestOps(log))
    ensures RequestItems(H2Wire.AllItems(log)) == H2Wire.AllItems(RequestOps(log))
    decreases |log|
  {
    RequestOpsValid(log);
    if log != [] {
      RequestOpsFront(log);
      ItemsOfRequests(log[1..]);
      RequestItemsConcat(H2Wire.ItemsOf(log[0]), H2Wire.AllItems(log[1..]));
      RequestItemsOfOne(log[0]);
      var mine := RequestOps(log);
      assert mine == RequestOps(log[1..]) || (mine[0] == log[0] && mine[1..] == RequestOps(log[1..]));
    }
  }

  /**
   Over every run, the peer reads back from the shared wire exactly the requests that were
   made, in the order their callers took the lock, each one whole, or cut where its write
   failed, or absent; and a peer with one HPACK table decodes each header block it received to
   that request's own field list.
   */
  lemma PeerReadsRequests(settings: seq<H2Wire.Setting>, window: nat, ls: seq<S.Label>,
                          fixed: Hpack.Table, capE: nat, capD: nat)
    requires Exec(Open(settings, window), ls).Some?
    requires H2Wire.BlocksEncode(fixed, capE, RequestsOf(ls), ListsOf(ls))
    requires capE <= capD || capE < 32
    ensures H2Wire.ValidOps(Exec(Open(settings, window), ls).value.log) && H2Wire.ValidOps(RequestsOf(ls))
    ensures var items := H2Wire.Parse(Wire(Exec(Open(settings, window), ls).value));
            && RequestItems(items) == H2Wire.AllItems(RequestsOf(ls))
            && Hpack.DecodeAll(fixed, [], capD, H2Wire.Blocks(items))
               == Some(H2Wire.SentLists(RequestsOf(ls), ListsOf(ls)))
  {
    RunLog(settings, window, ls);
    var log := Exec(Open(settings, window), ls).value.log;
    H2Wire.ParseInvertsWire(log);
    ItemsOfRequests(log);
    BlocksOfRequestItems(H2Wire.AllItems(log));
    H2Wire.SentBlocksEncode(fixed, capE, RequestsOf(ls), ListsOf(ls));
    Hpack.RestartedBlocksDecode(fixed, capE, capD, [], H2Wire.SentLists(RequestsOf(ls), ListsOf(ls)),
                                H2Wire.Blocks(H2Wire.AllItems(log)));
  }

  /** ops is the part of a numbered list of requests that starts at base. */
  ghost predicate NumberedFrom(ops: seq<H2Wire.Op>, base: nat) {
    && base + |ops| <= MAX_STREAMS
    && H2Wire.ValidOps(ops)
    && forall k :: 0 <= k < |ops| ==>
         ops[k].Request? && ops[k].id == IdOf(base + k) && (ops[k].id >= ID_LIMIT ==> ops[k].sent == 0)
  }

  ghost predicate IdsRise(items: seq<H2Wire.Item>, least: nat) {
    && (forall i :: 0 <= i < |items| ==>
          IsRequestItem(items[i]) && least <= items[i].id < ID_LIMIT && items[i].id % 2 == 1)
    && (forall i, j :: 0 <= i < j < |items| ==> items[i].id < items[j].id)
  }

  lemma {:induction false} ItemsRise(ops: seq<H2Wire.Op>, base: nat)
    requires NumberedFrom(ops, base)
    ensures IdsRise(H2Wire.AllItems(ops), 1 + 2 * base)
    decreases |ops|
  {
    if ops != [] {
      assert ops[0].id == IdOf(base + 0);
      IdOfSmall(base);
      assert NumberedFrom(ops[1..], base + 1) by {
        forall k | 0 <= k < |ops[1..]| ensures ops[1..][k].id == IdOf(base + 1 + k) && ops[1..][k] == ops[k + 1] {
          assert ops[k + 1].id == IdOf(base + (k + 1));
        }
      }
      ItemsRise(ops[1..], base + 1);
      RiseInFront(H2Wire.ItemsOf(ops[0]), H2Wire.AllItems(ops[1..]), base);
    }
  }

  lemma RiseInFront(first: seq<H2Wire.Item>, rest: seq<H2Wire.Item>, base: nat)
    requires |first| <= 1 && IdsRise(rest, 3 + 2 * base)
    requires forall i :: i in first ==> IsRequestItem(i) && i.id == 1 + 2 * base < ID_LIMIT
    ensures IdsRise(first + rest, 1 + 2 * base)
  {
  }

  /**
   HEADERS on the wire carry odd, strictly increasing identifiers below 2^31, in every run that
   allocates no more than 2^31 streams.
   */
  lemma HeaderIdsRise(settings: seq<H2Wire.Setting>, window: nat, ls: seq<S.Label>)
    requires Exec(Open(settings, window), ls).Some?
    requires |Exec(Open(settings, window), ls).value.objs| <= MAX_STREAMS
    ensures ConnInv(Exec(Open(settings, window), ls).value)
    ensures IdsRise(RequestItems(H2Wire.Parse(Wire(Exec(Open(settings, window), ls).value))), 1)
  {
    RunLog(settings, window, ls);
    var log := Exec(Open(settings, window), ls).value.log;
    H2Wire.ParseInvertsWire(log);
    ItemsOfRequests(log);
    ItemsRise(RequestsOf(ls), 0);
  }
}
