/**
 What a client connection writes, frame by frame, and a peer that reads it back.

 The framer writes one frame with one Write; a failing transport therefore cuts the log
 between frames.
 */
module H2Wire {
  import opened Prelude
  import Hpack

  const MAX_CHUNK: nat := 16384

  type Block = seq<Hpack.Rep>

  datatype Setting = Setting(key: nat, val: nat)

  datatype Frame =
    | Preface
    | Settings(entries: seq<Setting>)
    | SettingsAck
    | PingAck(data: nat)
    | WindowUpdate(id: nat, incr: nat)
    | Headers(id: nat, block: Block, end: bool)
    | Data(id: nat, chunk: seq<byte>, end: bool)

  predicate IsControl(f: Frame) {
    !f.Headers? && !f.Data?
  }

  // ---- One request ----

  /** The length of the next chunk. */
  function ChunkLength(body: seq<byte>): nat {
    if |body| > MAX_CHUNK then MAX_CHUNK else |body|
  }

  /** How many DATA frames a body of n bytes takes: n / 16384, rounded up. */
  function ChunkCount(n: nat): nat {
    (n + MAX_CHUNK - 1) / MAX_CHUNK
  }

  /** HEADERS and the chunks. */
  function FrameCount(body: seq<byte>): nat {
    1 + ChunkCount(|body|)
  }

  function DataFrames(id: nat, body: seq<byte>): (fs: seq<Frame>)
    ensures |fs| == ChunkCount(|body|) == (|body| + 16383) / 16384
    decreases |body|
  {
    if body == [] then []
    else
      var n := ChunkLength(body);
      [Data(id, body[..n], |body| == n)] + DataFrames(id, body[n..])
  }

  function RequestFrames(id: nat, block: Block, body: seq<byte>): (fs: seq<Frame>)
    ensures |fs| == FrameCount(body) && fs[0].Headers?
  {
    [Headers(id, block, body == [])] + DataFrames(id, body)
  }

  /** Every chunk is non-empty and fits a frame; END_STREAM is on the last frame and no other. */
  lemma {:induction false} DataFrameShape(id: nat, body: seq<byte>)
    ensures forall k :: 0 <= k < |DataFrames(id, body)| ==>
              && DataFrames(id, body)[k].Data?
              && DataFrames(id, body)[k].id == id
              && 1 <= |DataFrames(id, body)[k].chunk| <= 16384
              && (k < |DataFrames(id, body)| - 1 ==> |DataFrames(id, body)[k].chunk| == 16384)
              && (DataFrames(id, body)[k].end <==> k == |DataFrames(id, body)| - 1)
    decreases |body|
  {
    if body != [] {
      DataFrameShape(id, body[ChunkLength(body)..]);
    }
  }

  predicate EndsStream(f: Frame) {
    (f.Headers? || f.Data?) && f.end
  }

  /** Exactly one frame of a request carries END_STREAM, and it is the last one. */
  lemma OneEndStream(id: nat, block: Block, body: seq<byte>)
    ensures forall k :: 0 <= k < |RequestFrames(id, block, body)| ==>
              (EndsStream(RequestFrames(id, block, body)[k]) <==> k == |RequestFrames(id, block, body)| - 1)
  {
    DataFrameShape(id, body);
  }

  // ---- The log of a connection ----

  /** One lock-protected write: a control frame, or a request of which sent frames got out. */
  datatype Op =
    | Control(frame: Frame)
    | Request(id: nat, block: Block, body: seq<byte>, sent: nat)

  predicate ValidOp(op: Op) {
    match op
    case Control(f) => IsControl(f)
    case Request(id, block, body, sent) => sent <= FrameCount(body)
  }

  function OpFrames(op: Op): seq<Frame>
    requires ValidOp(op)
  {
    match op
    case Control(f) => [f]
    case Request(id, block, body, sent) => RequestFrames(id, block, body)[..sent]
  }

  predicate ValidOps(ops: seq<Op>) {
    forall k :: 0 <= k < |ops| ==> ValidOp(ops[k])
  }

  function WireOf(ops: seq<Op>): seq<Frame>
    requires ValidOps(ops)
  {
    Flatten(seq(|ops|, k requires 0 <= k < |ops| => OpFrames(ops[k])))
  }

  // ---- The peer's reassembler ----

  datatype Item =
    | Ctl(frame: Frame)
    | Complete(id: nat, block: Block, body: seq<byte>)
    | Partial(id: nat, block: Block, body: seq<byte>)
    | Stray(frame: Frame)

  datatype Collected = Collected(body: seq<byte>, count: nat, ended: bool)

  /** Takes the DATA frames of stream id at the front of the log, up to END_STREAM. */
  function Collect(id: nat, w: seq<Frame>): (c: Collected)
    ensures c.count <= |w|
  {
    if w == [] || !w[0].Data? || w[0].id != id then Collected([], 0, false)
    else if w[0].end then Collected(w[0].chunk, 1, true)
    else
      var rest := Collect(id, w[1..]);
      Collected(w[0].chunk + rest.body, 1 + rest.count, rest.ended)
  }

  /** Reads the log strictly: the DATA of a request must directly follow its HEADERS. */
  function Parse(w: seq<Frame>): seq<Item>
    decreases |w|
  {
    if w == [] then []
    else
      match w[0]
      case Headers(id, block, true) => [Complete(id, block, [])] + Parse(w[1..])
      case Headers(id, block, false) =>
        var c := Collect(id, w[1..]);
        [if c.ended then Complete(id, block, c.body) else Partial(id, block, c.body)] + Parse(w[1 + c.count..])
      case Data(_, _, _) => [Stray(w[0])] + Parse(w[1..])
      case _ => [Ctl(w[0])] + Parse(w[1..])
  }

  /** What the peer should make of one write. */
  function ItemsOf(op: Op): seq<Item>
    requires ValidOp(op)
  {
    match op
    case Control(f) => [Ctl(f)]
    case Request(id, block, body, sent) =>
      if sent == 0 then []
      else if sent == FrameCount(body) then [Complete(id, block, body)]
      else [Partial(id, block, FirstChunks(body, sent - 1))]
  }

  function FirstChunks(body: seq<byte>, n: nat): seq<byte> {
    if n * MAX_CHUNK <= |body| then body[..n * MAX_CHUNK] else body
  }

  function AllItems(ops: seq<Op>): seq<Item>
    requires ValidOps(ops)
  {
    if ops == [] then [] else ItemsOf(ops[0]) + AllItems(ops[1..])
  }

  // ---- The reassembler inverts the writer ----

  predicate StartsClean(w: seq<Frame>) {
    w == [] || !w[0].Data?
  }

  /** Collecting a complete body returns it whole and stops at its last frame. */
  lemma {:induction false} CollectWhole(id: nat, body: seq<byte>, rest: seq<Frame>)
    requires body != []
    ensures Collect(id, DataFrames(id, body) + rest) == Collected(body, |DataFrames(id, body)|, true)
    decreases |body|
  {
    var n := ChunkLength(body);
    var tail := DataFrames(id, body[n..]);
    var w := DataFrames(id, body) + rest;
    assert DataFrames(id, body) == [Data(id, body[..n], |body| == n)] + tail;
    assert w[0] == Data(id, body[..n], |body| == n) && w[1..] == tail + rest;
    if n < |body| {
      CollectWhole(id, body[n..], rest);
      assert body == body[..n] + body[n..];
    } else {
      assert body[..n] == body;
    }
  }

  lemma FirstChunksStep(body: seq<byte>, n: nat)
    requires |body| > MAX_CHUNK && n > 0
    ensures FirstChunks(body, n) == body[..MAX_CHUNK] + FirstChunks(body[MAX_CHUNK..], n - 1)
  {
    assert body == body[..MAX_CHUNK] + body[MAX_CHUNK..];
    assert n * MAX_CHUNK == MAX_CHUNK + (n - 1) * MAX_CHUNK;
  }

  lemma CutDataFrames(id: nat, body: seq<byte>, n: nat, rest: seq<Frame>)
    requires 0 < n < |DataFrames(id, body)|
    ensures |body| > MAX_CHUNK
    ensures var w := DataFrames(id, body)[..n] + rest;
            && w[0] == Data(id, body[..MAX_CHUNK], false)
            && w[1..] == DataFrames(id, body[MAX_CHUNK..])[..n - 1] + rest
  {
    assert DataFrames(id, body) == [Data(id, body[..MAX_CHUNK], false)] + DataFrames(id, body[MAX_CHUNK..]);
  }

  /** A body cut short yields the chunks that were sent and no END_STREAM. */
  lemma {:induction false} CollectCut(id: nat, body: seq<byte>, n: nat, rest: seq<Frame>)
    requires n < |DataFrames(id, body)| && StartsClean(rest)
    ensures Collect(id, DataFrames(id, body)[..n] + rest) == Collected(FirstChunks(body, n), n, false)
    decreases n
  {
    if n == 0 {
      assert DataFrames(id, body)[..0] + rest == rest;
    } else {
      CutDataFrames(id, body, n, rest);
      FirstChunksStep(body, n);
      CollectCut(id, body[MAX_CHUNK..], n - 1, rest);
    }
  }

  /** What the peer collects after the HEADERS frame of a request with a body. */
  lemma CollectData(id: nat, body: seq<byte>, n: nat, rest: seq<Frame>)
    requires body != [] && n <= ChunkCount(|body|) && StartsClean(rest)
    ensures Collect(id, DataFrames(id, body)[..n] + rest)
         == if n == ChunkCount(|body|) then Collected(body, n, true) else Collected(FirstChunks(body, n), n, false)
  {
    if n == ChunkCount(|body|) {
      assert DataFrames(id, body)[..n] == DataFrames(id, body);
      CollectWhole(id, body, rest);
    } else {
      CollectCut(id, body, n, rest);
    }
  }

  lemma StartedFrames(id: nat, block: Block, body: seq<byte>, sent: nat, rest: seq<Frame>)
    requires 0 < sent <= FrameCount(body)
    ensures var w := RequestFrames(id, block, body)[..sent] + rest;
            && w[0] == Headers(id, block, body == [])
            && w[1..] == DataFrames(id, body)[..sent - 1] + rest
            && w[1 + (sent - 1)..] == rest
  {
  }

  lemma ParseAfterHeaders(w: seq<Frame>, id: nat, block: Block, c: Collected, rest: seq<Frame>)
    requires w != [] && w[0] == Headers(id, block, false) && Collect(id, w[1..]) == c && w[1 + c.count..] == rest
    ensures Parse(w) == [if c.ended then Complete(id, block, c.body) else Partial(id, block, c.body)] + Parse(rest)
  {
  }

  /** A request whose HEADERS got out. */
  lemma ParseStarted(id: nat, block: Block, body: seq<byte>, sent: nat, rest: seq<Frame>)
    requires 0 < sent <= FrameCount(body) && StartsClean(rest)
    ensures Parse(RequestFrames(id, block, body)[..sent] + rest)
         == ItemsOf(Request(id, block, body, sent)) + Parse(rest)
    ensures StartsClean(RequestFrames(id, block, body)[..sent] + rest)
  {
    var w := RequestFrames(id, block, body)[..sent] + rest;
    StartedFrames(id, block, body, sent, rest);
    if body == [] {
      assert w[1..] == rest;
    } else {
      CollectData(id, body, sent - 1, rest);
      ParseAfterHeaders(w, id, block, Collect(id, w[1..]), rest);
    }
  }

  lemma ParseOp(op: Op, rest: seq<Frame>)
    requires ValidOp(op) && StartsClean(rest)
    ensures Parse(OpFrames(op) + rest) == ItemsOf(op) + Parse(rest)
    ensures StartsClean(OpFrames(op) + rest)
  {
    match op
    case Control(f) =>
      assert ([f] + rest)[1..] == rest;
    case Request(id, block, body, sent) =>
      if sent == 0 {
        assert [] + rest == rest;
      } else {
        ParseStarted(id, block, body, sent, rest);
      }
  }

  lemma {:induction false} WireOfFront(ops: seq<Op>)
    requires ops != [] && ValidOps(ops)
    ensures WireOf(ops) == OpFrames(ops[0]) + WireOf(ops[1..])
  {
    var parts := seq(|ops|, k requires 0 <= k < |ops| => OpFrames(ops[k]));
    var rest := seq(|ops[1..]|, k requires 0 <= k < |ops[1..]| => OpFrames(ops[1..][k]));
    assert parts == [parts[0]] + rest;
    FlattenConcat([parts[0]], rest);
    FlattenOne(parts[0]);
  }

  /**
   Whatever requests and control frames were written in whatever order, and wherever writes
   failed, the peer reads back exactly the same sequence: every completed request whole, every
   aborted one as a prefix that is never taken for a complete request, nothing stray.
   */
  lemma {:induction false} ParseInvertsWire(ops: seq<Op>)
    requires ValidOps(ops)
    ensures StartsClean(WireOf(ops))
    ensures Parse(WireOf(ops)) == AllItems(ops)
    decreases |ops|
  {
    if ops != [] {
      WireOfFront(ops);
      ParseInvertsWire(ops[1..]);
      ParseOp(ops[0], WireOf(ops[1..]));
    }
  }

  // ---- From blocks to field lists ----

  function Blocks(items: seq<Item>): seq<Block> {
    if items == [] then []
    else (if items[0].Complete? || items[0].Partial? then [items[0].block] else []) + Blocks(items[1..])
  }

  /** Of a list with one entry for each request, such as its field list, those whose HEADERS frame got out. */
  function SentLists<T>(ops: seq<Op>, lists: seq<T>): seq<T>
    requires |lists| == |ops|
    decreases |ops|
  {
    if ops == [] then []
    else (if ops[0].Request? && ops[0].sent > 0 then [lists[0]] else []) + SentLists(ops[1..], lists[1..])
  }

  /** lists[k] is what the k-th write's block encodes, from a fresh table. */
  predicate BlocksEncode(fixed: Hpack.Table, cap: nat, ops: seq<Op>, lists: seq<seq<Hpack.Field>>) {
    && |lists| == |ops|
    && forall k :: 0 <= k < |ops| && ops[k].Request? ==> Hpack.Encodes(fixed, cap, [], lists[k], ops[k].block)
  }

  lemma {:induction false} BlocksConcat(a: seq<Item>, b: seq<Item>)
    ensures Blocks(a + b) == Blocks(a) + Blocks(b)
    decreases |a|
  {
    if a == [] {
      assert a + b == b;
    } else {
      var ab := a + b;
      assert ab[0] == a[0] && ab[1..] == a[1..] + b;
      BlocksConcat(a[1..], b);
      var first := if a[0].Complete? || a[0].Partial? then [a[0].block] else [];
      assert Blocks(a) == first + Blocks(a[1..]) && Blocks(ab) == first + Blocks(ab[1..]);
      Regroup(first, Blocks(a[1..]), Blocks(b));
    }
  }

  lemma {:induction false} SentBlocksEncode(fixed: Hpack.Table, cap: nat, ops: seq<Op>, lists: seq<seq<Hpack.Field>>)
    requires ValidOps(ops)
    requires BlocksEncode(fixed, cap, ops, lists)
    ensures Hpack.EncodesEach(fixed, cap, SentLists(ops, lists), Blocks(AllItems(ops)))
    decreases |ops|
  {
    if ops != [] {
      assert BlocksEncode(fixed, cap, ops[1..], lists[1..]) by {
        forall k | 0 <= k < |ops[1..]| && ops[1..][k].Request?
          ensures Hpack.Encodes(fixed, cap, [], lists[1..][k], ops[1..][k].block)
        {
          assert ops[k + 1].Request?;
        }
      }
      SentBlocksEncode(fixed, cap, ops[1..], lists[1..]);
      BlocksConcat(ItemsOf(ops[0]), AllItems(ops[1..]));
      if ops[0].Request? && ops[0].sent > 0 {
        var item := ItemsOf(ops[0])[0];
        assert ItemsOf(ops[0]) == [item] && item.block == ops[0].block;
        assert Blocks([item]) == [item.block] + Blocks([]);
      }
    }
  }

  /**
   End to end: a peer with one HPACK table for the whole connection, parsing the log and
   decoding the blocks it finds, recovers the field lists of exactly the requests whose HEADERS
   went out, in order; requests whose block was encoded but never sent do not disturb it.
   */
  lemma PeerRecoversFieldLists(fixed: Hpack.Table, capE: nat, capD: nat, ops: seq<Op>, lists: seq<seq<Hpack.Field>>)
    requires ValidOps(ops)
    requires BlocksEncode(fixed, capE, ops, lists)
    requires capE <= capD || capE < 32
    ensures Hpack.DecodeAll(fixed, [], capD, Blocks(Parse(WireOf(ops)))) == Some(SentLists(ops, lists))
  {
    ParseInvertsWire(ops);
    SentBlocksEncode(fixed, capE, ops, lists);
    Hpack.RestartedBlocksDecode(fixed, capE, capD, [], SentLists(ops, lists), Blocks(AllItems(ops)));
  }
}
