/**
 The HTTP/2 client connection as a transition system: any number of callers, one read loop
 and the teardown routes, sharing nextID, streams, closed and the wire. A step is one region
 under the connection's lock, or one action between such regions.
 */
module H2Conn {
  import opened Prelude
  import H2Wire
  import S = H2Stream

  /** nextID is a uint32. */
  const ID_SPACE: nat := 0x1_0000_0000

  /** The framer refuses stream identifiers with the top bit set. */
  const ID_LIMIT: nat := 0x8000_0000

  /** The framer refuses a greater WINDOW_UPDATE increment. */
  const MAX_INCREMENT: nat := 0x7fff_ffff

  const DEFAULT_INCREMENT: nat := 1073741824

  /** The read loop: which frame it is handling, for which stream object. */
  datatype Loop =
    | Idle
    | Stopped
    | Busy(id: nat, ref: nat, work: S.Work)

  /** log is what the framer wrote, one entry for every locked region that wrote; objs are all
      stream objects ever made, by allocation order. */
  datatype Conn = Conn(
    nextID: nat,
    closed: bool,
    streams: map<nat, nat>,
    objs: seq<S.Stream>,
    loop: Loop,
    log: seq<H2Wire.Op>)

  function Wire(c: Conn): seq<H2Wire.Frame>
    requires H2Wire.ValidOps(c.log)
  {
    H2Wire.WireOf(c.log)
  }

  /** The increment sent after SETTINGS: the profile's, or the default when it gives none. */
  function ConnectionIncrement(configured: nat): nat {
    if configured > 0 then configured else DEFAULT_INCREMENT
  }

  /**
   newH2ClientConn with a profile whose settings are known or not, and a transport that takes
   the given number of writes: the connection it makes, if it makes one.
   */
  function Opened(settings: Option<seq<H2Wire.Setting>>, configured: nat, writes: nat): Option<Conn> {
    if settings.None? || ConnectionIncrement(configured) > MAX_INCREMENT || writes < 3 then None
    else Some(Open(settings.value, ConnectionIncrement(configured)))
  }

  /** A new connection after preface, SETTINGS, and the connection's WINDOW_UPDATE. */
  function Open(settings: seq<H2Wire.Setting>, window: nat): Conn {
    Conn(1, false, map[], [], Idle,
         [H2Wire.Control(H2Wire.Preface), H2Wire.Control(H2Wire.Settings(settings)),
          H2Wire.Control(H2Wire.WindowUpdate(0, window))])
  }

  // ---- Locked regions ----

  /** The identifier of the n-th stream ever allocated. */
  function IdOf(n: nat): nat {
    (1 + 2 * n) % ID_SPACE
  }

  function NextId(id: nat): nat {
    (id + 2) % ID_SPACE
  }

  /** The stream object registered under id. */
  function Find(c: Conn, id: nat): (r: Option<nat>)
    ensures r.Some? ==> r.value < |c.objs| && id in c.streams && c.streams[id] == r.value
  {
    if id in c.streams && c.streams[id] < |c.objs| then Some(c.streams[id]) else None
  }

  /** removeStream: out of the map, and the pipe will be closed by whoever took it. */
  function Remove(c: Conn, id: nat, finished: bool): Conn {
    match Find(c, id)
    case None => c
    case Some(ref) =>
      c.(streams := c.streams - {id}, objs := c.objs[ref := S.OweClose(c.objs[ref]).(finished := finished)])
  }

  /** failStream: out of the map, and the failure will be signalled by whoever took it. */
  function FailOne(c: Conn, id: nat, why: S.Failure): Conn {
    match Find(c, id)
    case None => c
    case Some(ref) =>
      c.(streams := c.streams - {id}, objs := c.objs[ref := S.OweError(c.objs[ref], why)])
  }

  /** failAll and Close: mark closed and take every stream at once. */
  function FailAll(c: Conn, why: S.Failure): Conn {
    c.(closed := true, streams := map[],
       objs := seq(|c.objs|, r requires 0 <= r < |c.objs| =>
                 if r in c.streams.Values then S.OweError(c.objs[r], why) else c.objs[r]))
  }

  /** writeControl: skipped once closed; written frames reach the wire before any write error. */
  function WriteControl(c: Conn, frames: seq<H2Wire.Frame>, written: nat): Conn
    requires written <= |frames|
  {
    if c.closed then c
    else c.(log := c.log + seq(written, i requires 0 <= i < written => H2Wire.Control(frames[i])))
  }

  /** The frames a completed pipe write returns as credit. */
  function CreditFrames(id: nat, n: nat): seq<H2Wire.Frame> {
    [H2Wire.WindowUpdate(0, n), H2Wire.WindowUpdate(id, n)]
  }

  function AckFrames(f: S.InFrame): seq<H2Wire.Frame> {
    match f
    case InSettings(false) => [H2Wire.SettingsAck]
    case InPing(false, token) => [H2Wire.PingAck(token)]
    case _ => []
  }

  /** writeRequest; sent frames reach the wire, and all of them means success. */
  function WriteRequest(c: Conn, block: H2Wire.Block, body: seq<byte>, sent: nat): Conn
    requires sent <= H2Wire.FrameCount(body)
  {
    var id := c.nextID;
    var ok := sent == H2Wire.FrameCount(body);
    c.(nextID := NextId(id),
       streams := if ok then c.streams[id := |c.objs|] else c.streams - {id},
       objs := c.objs + [S.NewStream(if ok then S.Waiting else S.Gone(S.WriteFailed))],
       log := c.log + [H2Wire.Request(id, block, body, sent)])
  }

  // ---- Steps ----

  function LoopAfter(id: nat, ref: nat, w: S.Work): Loop {
    if w.Free? then Idle else Busy(id, ref, w)
  }

  function Arrive(c: Conn, f: S.InFrame, acks: nat): Option<Conn> {
    if !c.loop.Idle? || acks > |AckFrames(f)| then None
    else
      match f
      case InGoAway(code) => Some(FailAll(c, S.GoAway(code)))
      case InReset(id, code) => Some(FailOne(c, id, S.StreamReset(code)))
      case InHeaders(id, fields, end) => (
        match Find(c, id)
        case None => Some(c)
        case Some(ref) => Some(c.(loop := Busy(id, ref, S.Delivering(fields, end))))
      )
      case InData(id, data, end) => (
        match Find(c, id)
        case None => Some(c)
        case Some(ref) =>
          if data == [] then Some(c.(loop := LoopAfter(id, ref, S.AfterFrame(end))))
          else
            var st := c.objs[ref];
            Some(c.(objs := c.objs[ref := st.(pending := data, fed := st.fed + data)],
                    loop := Busy(id, ref, S.Feeding(|data|, end))))
      )
      case _ => Some(WriteControl(c, AckFrames(f), acks))
  }

  /** The read loop goes on with the frame it is handling. */
  function LoopStep(c: Conn, id: nat, ref: nat, w: S.Work, l: S.Label): Option<Conn>
    requires c.loop == Busy(id, ref, w) && ref < |c.objs|
  {
    var st := c.objs[ref];
    match l
    case Deliver(_) =>
      if !w.Delivering? then None
      else
        var next := if S.StatusOf(w.fields) == 0 then S.Failing else S.AfterFrame(w.end);
        Some(c.(objs := c.objs[ref := S.TakeBlock(st, w.fields)], loop := LoopAfter(id, ref, next)))
    case FailDone(_) =>
      if w.Failing? && !S.OwesMissingStatus(st) then Some(c.(loop := Idle)) else None
    case FedAll(_) =>
      if w.Feeding? && st.pending == [] then Some(c.(loop := Busy(id, ref, S.Granting(w.n, w.end)))) else None
    case FeedBroken(_) =>
      if w.Feeding? && st.pending != [] && S.PipeClosed(st) then
        Some(c.(objs := c.objs[ref := st.(pending := [])], loop := Busy(id, ref, S.Dropping)))
      else None
    case Grant(_, written) =>
      if w.Granting? && written <= 2 then
        Some(WriteControl(c, CreditFrames(id, w.n), written).(loop := LoopAfter(id, ref, S.AfterFrame(w.end))))
      else None
    case EndStream(_) =>
      if w.Ending? then Some(Remove(c, id, true).(loop := Idle)) else None
    case DropBroken(_) =>
      if w.Dropping? then Some(Remove(c, id, false).(loop := Idle)) else None
    case _ => None
  }

  /** The stream a caller's label names. */
  function RefOf(l: S.Label): Option<nat> {
    match l
    case Request(r, _, _, _, _) => Some(r)
    case TakeResponse(r) => Some(r)
    case TakeError(r) => Some(r)
    case Cancel(r) => Some(r)
    case Leave(r) => Some(r)
    case Read(r, _) => Some(r)
    case CloseReader(r) => Some(r)
    case DropReader(r) => Some(r)
    case Do(r, _) => Some(r)
    case _ => None
  }

  /** The identifier a read-loop label or an incoming frame names. */
  function IdNamed(l: S.Label): Option<nat> {
    match l
    case Deliver(i) => Some(i)
    case FailDone(i) => Some(i)
    case FedAll(i) => Some(i)
    case FeedBroken(i) => Some(i)
    case Grant(i, _) => Some(i)
    case EndStream(i) => Some(i)
    case DropBroken(i) => Some(i)
    case Arrive(InHeaders(i, _, _), _) => Some(i)
    case Arrive(InData(i, _, _), _) => Some(i)
    case Arrive(InReset(i, _), _) => Some(i)
    case _ => None
  }

  predicate WritableRequest(c: Conn, ref: nat, block: H2Wire.Block, body: seq<byte>, sent: nat) {
    && !c.closed
    && ref == |c.objs|
    && sent <= H2Wire.FrameCount(body)
    && (c.nextID >= ID_LIMIT ==> sent == 0)
  }

  function Step(c: Conn, l: S.Label): Option<Conn> {
    match l
    case Request(ref, _, block, body, sent) =>
      if WritableRequest(c, ref, block, body, sent) then Some(WriteRequest(c, block, body, sent)) else None
    case CloseConn => Some(if c.closed then c else FailAll(c, S.ConnClosed))
    case ReadFail => if c.loop.Idle? then Some(FailAll(c, S.ReadFailed).(loop := Stopped)) else None
    case Arrive(f, acks) => Arrive(c, f, acks)
    case _ => if S.IsLoopLabel(l) then HandlerStep(c, l) else CallerStep(c, l)
  }

  function HandlerStep(c: Conn, l: S.Label): Option<Conn> {
    match c.loop
    case Busy(id, ref, work) =>
      if IdNamed(l) == Some(id) && ref < |c.objs| then LoopStep(c, id, ref, work, l) else None
    case _ => None
  }

  function CallerStep(c: Conn, l: S.Label): Option<Conn> {
    match RefOf(l)
    case None => None
    case Some(ref) =>
      if ref >= |c.objs| then None
      else
        match S.CallerStep(c.objs[ref], l)
        case None => None
        case Some(st) =>
          var d := c.(objs := c.objs[ref := st]);
          Some(if S.Removes(l) then Remove(d, IdOf(ref), false) else d)
  }

  function Exec(c: Conn, ls: seq<S.Label>): Option<Conn> {
    if ls == [] then Some(c)
    else
      match Exec(c, ls[..|ls| - 1])
      case None => None
      case Some(d) => Step(d, ls[|ls| - 1])
  }

  // ---- Lifecycle ----

  /** Identifiers have not wrapped around yet. */
  const MAX_STREAMS: nat := 0x8000_0000

  lemma IdOfSmall(n: nat)
    requires n < MAX_STREAMS
    ensures IdOf(n) == 1 + 2 * n
  {
  }

  lemma IdOdd(n: nat)
    ensures IdOf(n) % 2 == 1
  {
    assert (1 + 2 * n) % ID_SPACE == (1 + 2 * n) - ID_SPACE * ((1 + 2 * n) / ID_SPACE);
  }

  lemma NextIdStep(n: nat)
    ensures NextId(IdOf(n)) == IdOf(n + 1)
  {
    assert (1 + 2 * (n + 1)) == (1 + 2 * n) + 2;
  }

  ghost predicate ConnInv(c: Conn) {
    && c.nextID == IdOf(|c.objs|)
    && H2Wire.ValidOps(c.log)
    && (c.closed ==> c.streams == map[])
    && (forall id :: id in c.streams ==> id % 2 == 1)
    && (c.loop.Busy? ==> c.loop.id % 2 == 1)
    && (c.loop.Busy? ==> !c.loop.work.Free? && !c.loop.work.Stopped? && c.loop.ref < |c.objs|)
    && (|c.objs| <= MAX_STREAMS ==>
          && (forall id :: id in c.streams ==> c.streams[id] < |c.objs| && id == IdOf(c.streams[id]))
          && (c.loop.Busy? ==> c.loop.id == IdOf(c.loop.ref)))
  }

  lemma RemoveKeepsInv(c: Conn, id: nat, finished: bool)
    requires ConnInv(c)
    ensures ConnInv(Remove(c, id, finished)) && |Remove(c, id, finished).objs| == |c.objs|
    ensures Remove(c, id, finished).loop == c.loop
  {
  }

  lemma FailAllKeepsInv(c: Conn, why: S.Failure)
    requires ConnInv(c)
    ensures ConnInv(FailAll(c, why))
  {
  }

  lemma ControlKeepsInv(c: Conn, frames: seq<H2Wire.Frame>, written: nat)
    requires ConnInv(c) && written <= |frames| && forall i :: 0 <= i < |frames| ==> H2Wire.IsControl(frames[i])
    ensures ConnInv(WriteControl(c, frames, written))
  {
  }

  lemma ArriveKeepsInv(c: Conn, f: S.InFrame, acks: nat)
    requires ConnInv(c) && Arrive(c, f, acks).Some?
    ensures ConnInv(Arrive(c, f, acks).value) && |Arrive(c, f, acks).value.objs| == |c.objs|
  {
    match f
    case InGoAway(code) => FailAllKeepsInv(c, S.GoAway(code));
    case InReset(_, _) =>
    case InHeaders(_, _, _) =>
    case InData(_, _, _) =>
    case _ => ControlKeepsInv(c, AckFrames(f), acks);
  }

  lemma HandlerKeepsInv(c: Conn, l: S.Label)
    requires ConnInv(c) && HandlerStep(c, l).Some?
    ensures ConnInv(HandlerStep(c, l).value) && |HandlerStep(c, l).value.objs| == |c.objs|
  {
    var id := c.loop.id;
    RemoveKeepsInv(c, id, true);
    RemoveKeepsInv(c, id, false);
    if l.Grant? && l.written <= 2 && c.loop.work.Granting? {
      ControlKeepsInv(c, CreditFrames(id, c.loop.work.n), l.written);
    }
  }

  lemma CallerKeepsInv(c: Conn, l: S.Label)
    requires ConnInv(c) && CallerStep(c, l).Some?
    ensures ConnInv(CallerStep(c, l).value) && |CallerStep(c, l).value.objs| == |c.objs|
  {
    var ref := RefOf(l).value;
    var d := c.(objs := c.objs[ref := S.CallerStep(c.objs[ref], l).value]);
    assert ConnInv(d);
    RemoveKeepsInv(d, IdOf(ref), false);
  }

  lemma RequestKeepsInv(c: Conn, block: H2Wire.Block, body: seq<byte>, sent: nat)
    requires ConnInv(c) && WritableRequest(c, |c.objs|, block, body, sent)
    ensures ConnInv(WriteRequest(c, block, body, sent))
  {
    var d := WriteRequest(c, block, body, sent);
    NextIdStep(|c.objs|);
    IdOdd(|c.objs|);
    assert forall id :: id in d.streams ==> id == c.nextID || (id in c.streams && d.streams[id] == c.streams[id]);
  }

  lemma StepKeepsInv(c: Conn, l: S.Label)
    requires ConnInv(c) && Step(c, l).Some?
    ensures ConnInv(Step(c, l).value)
    ensures |Step(c, l).value.objs| == |c.objs| + (if l.Request? then 1 else 0)
  {
    match l
    case Request(_, _, block, body, sent) => RequestKeepsInv(c, block, body, sent);
    case CloseConn => FailAllKeepsInv(c, S.ConnClosed);
    case ReadFail => FailAllKeepsInv(c, S.ReadFailed);
    case Arrive(f, acks) => ArriveKeepsInv(c, f, acks);
    case _ => if S.IsLoopLabel(l) { HandlerKeepsInv(c, l); } else { CallerKeepsInv(c, l); }
  }
}
