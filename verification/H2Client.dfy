/**
 h2ClientConn and h2Stream as objects. Each method is one locked region, or one such region
 followed by what the same goroutine does next; its contract is a function of the state
 before, and H2Runs shows for each operation of a caller or of the read loop that this is a run
 of the transition system H2Conn.

 Transport failures are parameters: budget is how many more frames a Write will accept.
 */
module H2Client {
  import opened Prelude
  import Hpack
  import H2Wire
  import S = H2Stream
  import FieldList
  import opened H2Conn
  import opened H2Runs

  type Frame = H2Wire.Frame

  /** What the two one-slot channels and the body pipe of a request hold. */
  datatype Slots = Slots(
    headers: Option<S.Response>,
    errs: Option<S.Failure>,
    trailers: Option<seq<Hpack.Field>>,
    pending: seq<byte>,
    wend: Option<S.End>,
    rclosed: bool)

  function SlotsOf(m: S.Stream): Slots {
    Slots(m.headers, m.errs, m.trailers, m.pending, m.wend, m.rclosed)
  }

  /** One h2Stream. ref is its place in the connection's allocation order. */
  class H2Stream {
    ghost const ref: nat
    var headers: Option<S.Response>
    var errs: Option<S.Failure>
    var trailers: Option<seq<Hpack.Field>>
    var pending: seq<byte>
    var wend: Option<S.End>
    var rclosed: bool

    ghost function Held(): Slots
      reads this
    {
      Slots(headers, errs, trailers, pending, wend, rclosed)
    }

    constructor (ghost ref: nat)
      ensures this.ref == ref && Held() == SlotsOf(S.NewStream(S.Waiting))
    {
      this.ref := ref;
      headers, errs, trailers := None, None, None;
      pending, wend, rclosed := [], None, false;
    }

    /** PipeWriter.Close or CloseWithError: the first reason stays. */
    method CloseWrite(e: S.End)
      modifies this
      ensures Held() == if old(wend).None? then old(Held()).(wend := Some(e)) else old(Held())
    {
      if wend.None? {
        wend := Some(e);
      }
    }

    /** Offers the error without blocking, then breaks the pipe. */
    method Fail(why: S.Failure)
      modifies this
      ensures Held() == Failed(old(Held()), why)
    {
      if errs.None? {
        errs := Some(why);
      }
      CloseWrite(S.Broken(why));
    }

    /** Pushes the response, or keeps its fields as trailers when the slot is taken. */
    method Push(resp: S.Response)
      modifies this
      ensures Held() == if old(headers).None? then old(Held()).(headers := Some(resp))
                        else old(Held()).(trailers := Some(resp.headers))
    {
      if headers.None? {
        headers := Some(resp);
      } else {
        trailers := Some(resp.headers);
      }
    }
  }

  /** A failure leaves the first error on the channel and the first reason on the pipe. */
  function Failed(s: Slots, why: S.Failure): Slots {
    s.(errs := if s.errs.None? then Some(why) else s.errs,
       wend := if s.wend.None? then Some(S.Broken(why)) else s.wend)
  }

  /** The loop of handleHeaders over the fields of a block. */
  method ReadBlock(fields: seq<Hpack.Field>) returns (resp: S.Response)
    ensures resp == S.Response(S.StatusOf(fields), S.RegularFields(fields))
  {
    var status := 0;
    var headers := [];
    for i := 0 to |fields|
      invariant status == S.StatusOf(fields[..i])
      invariant headers == S.RegularFields(fields[..i])
    {
      var f := fields[i];
      assert fields[..i + 1][..i] == fields[..i];
      if f.name == ":status" {
        status := S.AtoiOrZero(f.value);
      } else if !Hpack.IsPseudo(f) {
        headers := headers + [f];
      }
    }
    assert fields[..|fields|] == fields;
    resp := S.Response(status, headers);
  }

  /** headerBlock: a fresh encoder for every block, whatever its indexing strategy chooses. */
  method HeaderBlock(fixed: Hpack.Table, cap: nat, pseudo: seq<Hpack.Field>, regular: seq<Hpack.Field>,
                     choose: (Hpack.Table, Hpack.Field) -> Hpack.Rep)
    returns (block: H2Wire.Block)
    requires forall t, f :: Hpack.Legit(fixed, t, f, choose(t, f))
    ensures Hpack.Encodes(fixed, cap, [], pseudo + regular, block)
  {
    var table: Hpack.Table := [];
    block := [];
    var fields := pseudo + regular;
    for i := 0 to |fields|
      invariant Hpack.Encodes(fixed, cap, [], fields[..i], block)
      invariant table == Hpack.TableAfter(cap, [], fields[..i], block)
    {
      var rep := choose(table, fields[i]);
      assert Hpack.Legit(fixed, table, fields[i], rep);
      Hpack.EncodesOneMore(fixed, cap, [], fields[..i], block, fields[i], rep);
      assert fields[..i] + [fields[i]] == fields[..i + 1];
      block := block + [rep];
      table := Hpack.After(table, cap, fields[i], rep);
    }
    assert fields[..|fields|] == fields;
  }

  /** The registered objects are the ones the model registers. */
  ghost predicate Linked(streams: map<nat, H2Stream>, refs: map<nat, nat>) {
    refs.Keys == streams.Keys && forall id :: id in streams ==> streams[id].ref == refs[id]
  }

  lemma LinkedAfter(streams: map<nat, H2Stream>, refs: map<nat, nat>, id: nat, stream: H2Stream)
    requires Linked(streams, refs)
    ensures Linked(streams[id := stream], refs[id := stream.ref])
    ensures streams[id := stream] - {id} == streams - {id}
    ensures Linked(streams - {id}, refs - {id})
  {
  }

  /** What an object holds is what the model says it holds. */
  ghost predicate Shows(st: H2Stream, c: Conn)
    reads st
  {
    st.ref < |c.objs| && st.Held() == SlotsOf(c.objs[st.ref])
  }

  ghost predicate OnWire(wire: seq<Frame>, log: seq<H2Wire.Op>) {
    H2Wire.ValidOps(log) && wire == H2Wire.WireOf(log)
  }

  /**
   The connection object. model is its state in the transition system: it also holds what the
   fields do not show, the callers' progress and the work owed by other goroutines. A method
   that touches a stream object relates what the object holds to the model before and after.
   */
  class H2ClientConn {
    var nextID: nat
    var closed: bool
    var streams: map<nat, H2Stream>
    var wire: seq<Frame>
    ghost var model: Conn

    ghost predicate Valid()
      reads this
    {
      && nextID == model.nextID < ID_SPACE
      && closed == model.closed
      && Linked(streams, model.streams)
      && OnWire(wire, model.log)
    }

    /** The object registered under id, if any, holds what the model says. */
    ghost predicate ShowsAt(id: nat)
      reads this, if id in streams then {streams[id]} else {}
    {
      id in streams ==> Shows(streams[id], model)
    }

    /** The object newH2ClientConn returns once the handshake is written. */
    constructor (settings: seq<H2Wire.Setting>, window: nat)
      ensures Valid() && model == Open(settings, window)
    {
      nextID, closed, streams := 1, false, map[];
      model := Open(settings, window);
      wire := [H2Wire.Preface, H2Wire.Settings(settings), H2Wire.WindowUpdate(0, window)];
      new;
      OpenWire(settings, window);
    }

    /** CanTakeNewRequest. */
    method CanTakeNewRequest() returns (ok: bool)
      requires Valid()
      ensures ok == !model.closed
    {
      ok := !closed;
    }

    /** removeStream's locked region. */
    method Take(id: nat, ghost finished: bool) returns (st: H2Stream?)
      requires Valid() && ShowsAt(id)
      modifies this`streams, this`model
      ensures Valid() && model == Remove(old(model), id, finished)
      ensures st == if id in old(streams) then old(streams)[id] else null
      ensures st != null ==> Shows(st, model) && model.objs[st.ref].closes > 0
    {
      st := null;
      if id in streams {
        st := streams[id];
        streams := streams - {id};
        model := Remove(model, id, finished);
      }
    }

    /** removeStream: out of the map under the lock, then the pipe is closed. */
    method RemoveStream(id: nat, ghost finished: bool) returns (ghost taken: H2Stream?)
      requires Valid() && ShowsAt(id)
      modifies this`streams, this`model, if id in streams then {streams[id]} else {}
      ensures Valid() && model == Settled(Remove(old(model), id, finished), Find(old(model), id))
      ensures taken == if id in old(streams) then old(streams)[id] else null
      ensures taken != null ==> Shows(taken, model)
    {
      var st := Take(id, finished);
      if st != null {
        st.CloseWrite(S.Eof);
        model := Settled(model, Some(st.ref));
      }
      taken := st;
    }

    /** failStream: out of the map under the lock, then the failure is signalled. */
    method FailStream(id: nat, why: S.Failure) returns (ghost taken: H2Stream?)
      requires Valid() && ShowsAt(id)
      modifies this`streams, this`model, if id in streams then {streams[id]} else {}
      ensures Valid() && model == FailedOne(old(model), id, why)
      ensures taken == if id in old(streams) then old(streams)[id] else null
      ensures taken != null ==> Shows(taken, model)
    {
      taken := null;
      if id in streams {
        var st := streams[id];
        streams := streams - {id};
        st.Fail(why);
        model := FailedOne(model, id, why);
        taken := st;
      }
    }

    /** failAll: closed and emptied under the lock, then every taken stream is failed. */
    method FailAllStreams(why: S.Failure)
      requires Valid() && forall st :: st in streams.Values ==> Shows(st, model)
      modifies this`closed, this`streams, this`model, streams.Values
      ensures Valid() && model == FailedAll(old(model), why)
      ensures forall st :: st in old(streams).Values ==> Shows(st, model)
    {
      var taken := streams;
      TakenObjects(taken, model.streams);
      closed := true;
      streams := map[];
      FailEach(taken, why);
      model := FailedAll(model, why);
    }

    /** Close: idempotent. */
    method Close()
      requires Valid() && forall st :: st in streams.Values ==> Shows(st, model)
      modifies this`closed, this`streams, this`model, streams.Values
      ensures Valid() && model == if old(closed) then old(model) else FailedAll(old(model), S.ConnClosed)
      ensures forall st :: st in old(streams).Values ==> Shows(st, model)
    {
      if closed {
        return;
      }
      FailAllStreams(S.ConnClosed);
    }

    /** handleHeaders, run without interruption from lookup to end. */
    method HandleHeaders(id: nat, fields: seq<Hpack.Field>, end: bool) returns (ghost st: H2Stream?)
      requires Valid() && ShowsAt(id)
      modifies this`streams, this`model, if id in streams then {streams[id]} else {}
      ensures Valid() && model == HandledHeaders(old(model), id, fields, end)
      ensures st == if id in old(streams) then old(streams)[id] else null
      ensures st != null ==> Shows(st, model)
    {
      if id !in streams {
        return null;
      }
      var stream := streams[id];
      st := stream;
      var resp := ReadBlock(fields);
      if resp.status == 0 {
        stream.Fail(S.MissingStatus);
        model := model.(objs := model.objs[stream.ref := S.FailNow(model.objs[stream.ref], S.MissingStatus)]);
        return;
      }
      stream.Push(resp);
      model := model.(objs := model.objs[stream.ref := S.TakeBlock(model.objs[stream.ref], fields)]);
      if end {
        ghost var taken := RemoveStream(id, true);
      }
    }

    /**
     handleData up to the point where writing into the pipe blocks until the reader has taken
     it all; an empty frame goes straight on to the end of the stream, if it is that.
     */
    method StartData(id: nat, data: seq<byte>, end: bool) returns (st: H2Stream?)
      requires Valid() && ShowsAt(id) && model.loop.Idle?
      modifies this`streams, this`model, if id in streams then {streams[id]} else {}
      ensures Valid() && model == Dispatched(old(model), S.InData(id, data, end), 0)
      ensures st == if id in old(streams) then old(streams)[id] else null
      ensures st != null ==> Shows(st, model)
    {
      if id !in streams {
        return null;
      }
      st := streams[id];
      if |data| > 0 {
        st.pending := data;
        model := OfferedData(model, id, st.ref, data, end);
      } else if end {
        ghost var taken := RemoveStream(id, true);
      }
    }

    /** handleData after the whole payload was taken: both credits, then the end of the stream. */
    method FinishData(id: nat, n: nat, end: bool, budget: nat) returns (ghost taken: H2Stream?)
      requires Valid() && ShowsAt(id) && model.loop.Busy? && model.loop.id == id
      requires model.loop.work == S.Feeding(n, end) && Drained(model)
      modifies this`wire, this`streams, this`model, if id in streams then {streams[id]} else {}
      ensures Valid() && model == FinishedData(old(model), id, n, end, if budget < 2 then budget else 2)
      ensures taken == if end && id in old(streams) then old(streams)[id] else null
      ensures taken != null ==> Shows(taken, model)
    {
      WriteFrames([H2Wire.WindowUpdate(0, n), H2Wire.WindowUpdate(id, n)], budget);
      taken := null;
      if end {
        taken := RemoveStream(id, true);
      }
      model := model.(loop := Idle);
    }

    /** handleData after the pipe refused part of the payload; the identifier was not given to another stream. */
    method AbandonData(st: H2Stream, id: nat)
      requires Valid() && model.loop.Busy? && model.loop.id == id && model.loop.ref == st.ref
      requires Shows(st, model) && (id in streams ==> streams[id] == st)
      requires model.loop.work.Feeding? && st.pending != [] && (st.wend.Some? || st.rclosed)
      modifies this`streams, this`model, st
      ensures Valid() && model == AbandonedData(old(model), id)
      ensures Shows(st, model)
    {
      st.pending := [];
      model := model.(objs := model.objs[st.ref := model.objs[st.ref].(pending := [])]);
      ghost var taken := RemoveStream(id, false);
      model := model.(loop := Idle);
    }

    /** The branches of RoundTrip that leave with an error: the stream the caller waited for is removed. */
    method LeaveRoundTrip(id: nat, ghost ref: nat)
      requires Valid() && ShowsAt(id) && id == IdOf(ref)
      requires ref < |model.objs| && model.objs[ref].caller.Leaving?
      modifies this`streams, this`model, if id in streams then {streams[id]} else {}
      ensures Valid() && model == LeftRoundTrip(old(model), ref)
      ensures id in old(streams) ==> Shows(old(streams)[id], model)
    {
      model := model.(objs := model.objs[ref := model.objs[ref].(caller := S.Gone(model.objs[ref].caller.why))]);
      ghost var taken := RemoveStream(id, false);
    }

    /** h2Body.Close: the reading side first, then removeStream. */
    method CloseBody(st: H2Stream, id: nat)
      requires Valid() && Shows(st, model) && id == IdOf(st.ref) && HoldsBody(model.objs[st.ref])
      requires id in streams ==> streams[id] == st
      modifies this`streams, this`model, st
      ensures Valid() && model == ClosedBody(old(model), st.ref)
      ensures Shows(st, model)
    {
      st.rclosed := true;
      model := model.(objs := model.objs[st.ref := model.objs[st.ref].(caller := S.Closed, rclosed := true)]);
      ghost var taken := RemoveStream(id, false);
    }

    /** readLoop's switch: one frame handed to its handler. */
    method Dispatch(f: S.InFrame, budget: nat)
      requires Valid() && model.loop.Idle? && forall st :: st in streams.Values ==> Shows(st, model)
      modifies this, streams.Values
      ensures Valid()
      ensures model == Dispatched(old(model), f, if budget < |AckFrames(f)| then budget else |AckFrames(f)|)
      ensures IdNamed(S.Arrive(f, 0)).Some? && IdNamed(S.Arrive(f, 0)).value in old(streams) ==>
                Shows(old(streams)[IdNamed(S.Arrive(f, 0)).value], model)
      ensures f.InGoAway? ==> forall st :: st in old(streams).Values ==> Shows(st, model)
    {
      match f
      case InSettings(ack) => if !ack { WriteFrames([H2Wire.SettingsAck], budget); }
      case InPing(ack, token) => if !ack { WriteFrames([H2Wire.PingAck(token)], budget); }
      case InHeaders(id, fields, end) => ghost var st := HandleHeaders(id, fields, end);
      case InData(id, data, end) => var st := StartData(id, data, end);
      case InReset(id, code) => ghost var st := FailStream(id, S.StreamReset(code));
      case InGoAway(code) => FailAllStreams(S.GoAway(code));
      case InOther =>
    }

    /** readLoop when reading a frame fails. */
    method StopReading()
      requires Valid() && model.loop.Idle? && forall st :: st in streams.Values ==> Shows(st, model)
      modifies this`closed, this`streams, this`model, streams.Values
      ensures Valid() && model == ReadingFailed(old(model))
      ensures forall st :: st in old(streams).Values ==> Shows(st, model)
    {
      FailAllStreams(S.ReadFailed);
      model := model.(loop := Stopped);
    }

    /** writeControl around a function that writes these frames and stops at the first failure. */
    method WriteFrames(frames: seq<Frame>, budget: nat)
      requires Valid() && forall i :: 0 <= i < |frames| ==> H2Wire.IsControl(frames[i])
      modifies this`wire, this`model
      ensures Valid()
      ensures model == WriteControl(old(model), frames, if budget < |frames| then budget else |frames|)
    {
      if closed {
        return;
      }
      var i := 0;
      while i < |frames| && i < budget
        invariant i <= |frames| && (i <= budget || i == 0)
        invariant Valid()
        invariant model == WriteControl(old(model), frames, i)
      {
        WireAppend(model.log, H2Wire.Control(frames[i]));
        ControlAppend(old(model), frames, i);
        wire := wire + [frames[i]];
        model := model.(log := model.log + [H2Wire.Control(frames[i])]);
        i := i + 1;
      }
    }

    /** writeRequest. The stream is in the map before a byte is written, and out again after a failure. */
    method WriteRequestFrames(block: H2Wire.Block, body: seq<byte>, stream: H2Stream, budget: nat)
      returns (r: Result<nat, S.Failure>, ghost sent: nat)
      requires Valid() && stream.ref == |model.objs| && stream.Held() == SlotsOf(S.NewStream(S.Waiting))
      modifies this
      ensures Valid()
      ensures old(closed) ==> r == Err(S.ConnClosed) && model == old(model)
      ensures !old(closed) ==>
                && sent == (if old(nextID) >= ID_LIMIT then 0
                            else if budget < H2Wire.FrameCount(body) then budget else H2Wire.FrameCount(body))
                && model == WriteRequest(old(model), block, body, sent)
                && r == (if sent == H2Wire.FrameCount(body) then Ok(old(nextID)) else Err(S.WriteFailed))
                && Shows(stream, model)
    {
      if closed {
        return Err(S.ConnClosed), 0;
      }
      var id := nextID;
      nextID := (nextID + 2) % ID_SPACE;
      streams := streams[id := stream];
      var out, ok := EmitRequest(id, block, body, if id >= ID_LIMIT then 0 else budget);
      sent := |out|;
      WireAppend(model.log, H2Wire.Request(id, block, body, sent));
      LinkedAfter(old(streams), model.streams, id, stream);
      wire := wire + out;
      if ok {
        r := Ok(id);
      } else {
        streams := streams - {id};
        r := Err(S.WriteFailed);
      }
      model := WriteRequest(model, block, body, sent);
    }

    /**
     RoundTrip until the request is written: its field list, the block a fresh encoder makes of
     it, and the frames. step is the step of the transition system that this is.
     */
    method SendRequest(fixed: Hpack.Table, cap: nat, choose: (Hpack.Table, Hpack.Field) -> Hpack.Rep,
                       q: FieldList.Outgoing, pseudoOrder: seq<string>, order: seq<string>,
                       stream: H2Stream, budget: nat)
      returns (r: Result<nat, S.Failure>, ghost step: S.Label)
      requires Valid() && stream.ref == |model.objs| && stream.Held() == SlotsOf(S.NewStream(S.Waiting))
      requires forall t, f :: Hpack.Legit(fixed, t, f, choose(t, f))
      modifies this
      ensures Valid()
      ensures old(closed) ==> r == Err(S.ConnClosed) && model == old(model)
      ensures !old(closed) ==>
                && step.Request? && Step(old(model), step) == Some(model)
                && FieldList.IsFieldList(q, pseudoOrder, order, step.fields)
                && Hpack.Encodes(fixed, cap, [], step.fields, step.block)
                && step.body == q.body
                && step.sent == (if old(nextID) >= ID_LIMIT then 0
                                 else if budget < H2Wire.FrameCount(q.body) then budget else H2Wire.FrameCount(q.body))
                && r == (if step.sent == H2Wire.FrameCount(q.body) then Ok(old(nextID)) else Err(S.WriteFailed))
                && Shows(stream, model)
    {
      var pseudo, regular := FieldList.RequestFields(q, pseudoOrder, order);
      var block := HeaderBlock(fixed, cap, pseudo, regular, choose);
      ghost var sent: nat;
      r, sent := WriteRequestFrames(block, q.body, stream, budget);
      step := S.Request(stream.ref, pseudo + regular, block, q.body, sent);
    }
  }

  /** The pipe has taken the whole payload the read loop is feeding it. */
  ghost predicate Drained(c: Conn) {
    c.loop.Busy? && c.loop.ref < |c.objs| && c.objs[c.loop.ref].pending == []
  }

  function OpeningFrames(settings: seq<H2Wire.Setting>, incr: nat): seq<Frame> {
    [H2Wire.Preface, H2Wire.Settings(settings), H2Wire.WindowUpdate(0, incr)]
  }

  /**
   newH2ClientConn: fails without a write when the profile names an unknown setting, and closes
   the transport after any failed write, an increment the framer refuses being one. out is what
   reached the wire.
   */
  method Connect(settings: Option<seq<H2Wire.Setting>>, configured: nat, budget: nat)
    returns (cc: H2ClientConn?, transportClosed: bool, out: seq<Frame>)
    ensures cc == null <==> Opened(settings, configured, budget).None?
    ensures cc != null ==>
              fresh(cc) && cc.Valid() && Opened(settings, configured, budget) == Some(cc.model) && cc.wire == out
    ensures transportClosed <==> cc == null
    ensures settings.None? ==> out == []
    ensures settings.Some? ==>
              var limit := if ConnectionIncrement(configured) > MAX_INCREMENT then 2 else 3;
              out == OpeningFrames(settings.value, ConnectionIncrement(configured))[..
                       if budget < limit then budget else limit]
  {
    cc, out := null, [];
    if settings.None? {
      return null, true, [];
    }
    var incr := ConnectionIncrement(configured);
    if budget == 0 {
      return null, true, [];
    }
    out := out + [H2Wire.Preface];
    if budget == 1 {
      return null, true, out;
    }
    out := out + [H2Wire.Settings(settings.value)];
    if budget == 2 || incr > MAX_INCREMENT {
      return null, true, out;
    }
    out := out + [H2Wire.WindowUpdate(0, incr)];
    cc := new H2ClientConn(settings.value, incr);
    transportClosed := false;
    OpenWire(settings.value, incr);
  }

  /** The three writes of the handshake. */
  lemma OpenWire(settings: seq<H2Wire.Setting>, window: nat)
    ensures H2Wire.ValidOps(Open(settings, window).log)
    ensures H2Wire.WireOf(Open(settings, window).log)
         == OpeningFrames(settings, window)
  {
    var a, b, c := H2Wire.Control(H2Wire.Preface), H2Wire.Control(H2Wire.Settings(settings)),
                   H2Wire.Control(H2Wire.WindowUpdate(0, window));
    assert H2Wire.WireOf([]) == [];
    WireAppend([], a);
    WireAppend([] + [a], b);
    WireAppend([] + [a] + [b], c);
    assert Open(settings, window).log == [] + [a] + [b] + [c];
  }

  lemma ControlAppend(c: Conn, frames: seq<Frame>, i: nat)
    requires i < |frames| && !c.closed
    ensures WriteControl(c, frames, i + 1).log == WriteControl(c, frames, i).log + [H2Wire.Control(frames[i])]
  {
  }

  /** The objects in the map are those whose places its ghost twin lists. */
  lemma TakenObjects(streams: map<nat, H2Stream>, refs: map<nat, nat>)
    requires Linked(streams, refs)
    ensures forall o :: o in streams.Values ==> o.ref in refs.Values
  {
    forall o | o in streams.Values ensures o.ref in refs.Values {
      var id :| id in streams && streams[id] == o;
      assert refs[id] == o.ref;
    }
  }

  /** The loops over taken streams in failAll and Close, in whatever order the map gives them. */
  method FailEach(taken: map<nat, H2Stream>, why: S.Failure)
    modifies taken.Values
    ensures forall st :: st in taken.Values ==> st.Held() == Failed(old(st.Held()), why)
  {
    var left := taken.Values;
    while left != {}
      invariant left <= taken.Values
      invariant forall st :: st in left ==> st.Held() == old(st.Held())
      invariant forall st :: st in taken.Values && st !in left ==> st.Held() == Failed(old(st.Held()), why)
      decreases |left|
    {
      var st :| st in left;
      left := left - {st};
      st.Fail(why);
    }
  }

  /** The writes of writeRequest: the frames that got out before the transport failed, if it did. */
  method EmitRequest(id: nat, block: H2Wire.Block, body: seq<byte>, budget: nat) returns (out: seq<Frame>, ok: bool)
    ensures |out| == if budget < H2Wire.FrameCount(body) then budget else H2Wire.FrameCount(body)
    ensures out == H2Wire.RequestFrames(id, block, body)[..|out|]
    ensures ok <==> |out| == H2Wire.FrameCount(body)
  {
    if budget == 0 {
      return [], false;
    }
    out := [H2Wire.Headers(id, block, |body| == 0)];
    var rest := body;
    ghost var all := H2Wire.RequestFrames(id, block, body);
    while |rest| > 0
      invariant |out| <= budget
      invariant all == out + H2Wire.DataFrames(id, rest)
      decreases |rest|
    {
      var n := if |rest| > H2Wire.MAX_CHUNK then H2Wire.MAX_CHUNK else |rest|;
      var chunk := rest[..n];
      ghost var tail := H2Wire.DataFrames(id, rest);
      rest := rest[n..];
      assert tail == [H2Wire.Data(id, chunk, |rest| == 0)] + H2Wire.DataFrames(id, rest);
      if |out| == budget {
        return out, false;
      }
      out := out + [H2Wire.Data(id, chunk, |rest| == 0)];
    }
    ok := true;
  }

  /** The log grows by one write. */
  lemma WireAppend(log: seq<H2Wire.Op>, op: H2Wire.Op)
    requires H2Wire.ValidOps(log) && H2Wire.ValidOp(op)
    ensures OnWire(H2Wire.WireOf(log) + H2Wire.OpFrames(op), log + [op])
    ensures H2Wire.ValidOps(log + [op])
    ensures H2Wire.WireOf(log + [op]) == H2Wire.WireOf(log) + H2Wire.OpFrames(op)
  {
    var more := log + [op];
    var parts := seq(|log|, k requires 0 <= k < |log| => H2Wire.OpFrames(log[k]));
    assert seq(|more|, k requires 0 <= k < |more| => H2Wire.OpFrames(more[k])) == parts + [H2Wire.OpFrames(op)];
    FlattenConcat(parts, [H2Wire.OpFrames(op)]);
    FlattenOne(H2Wire.OpFrames(op));
  }
}
