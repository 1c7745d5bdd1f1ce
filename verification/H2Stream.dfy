/**
 The life of one stream of an HTTP/2 client connection, on its own: the caller blocked in
 RoundTrip, the two one-slot channels, the body pipe, and the read loop as far as it is
 working on this stream.

 Every label is one atomic step of some goroutine. What a goroutine does after leaving a
 locked region (closing a pipe, signalling a failure) is owed until it is performed,
 so any other goroutine may run in between.
 */
module H2Stream {
  import opened Prelude
  import opened Text
  import opened Hpack
  import H2Wire

  // ---- Responses ----

  datatype Response = Response(status: int, headers: seq<Field>)

  /** strconv.Atoi with its error ignored: 0 unless the text is an optionally signed number. */
  function AtoiOrZero(s: string): int {
    var digits := if s != [] && (s[0] == '+' || s[0] == '-') then s[1..] else s;
    match ParseNat(digits)
    case None => 0
    case Some(n) => if s[0] == '-' then 0 - (n as int) else n as int
  }

  /** The last :status field decides. */
  function StatusOf(fields: seq<Field>): int {
    if fields == [] then 0
    else
      var last := fields[|fields| - 1];
      if last.name == ":status" then AtoiOrZero(last.value) else StatusOf(fields[..|fields| - 1])
  }

  function RegularFields(fields: seq<Field>): seq<Field> {
    if fields == [] then []
    else
      var last := fields[|fields| - 1];
      RegularFields(fields[..|fields| - 1]) + (if IsPseudo(last) then [] else [last])
  }

  // ---- State ----

  datatype Failure =
    | MissingStatus
    | StreamReset(code: nat)
    | GoAway(code: nat)
    | ReadFailed
    | ConnClosed
    | Cancelled
    | WriteFailed

  /** How the writing side of the body pipe was closed. */
  datatype End = Eof | Broken(why: Failure)

  /** One piece of pending work: closing the pipe cleanly, or the k-th failure still to be handled. */
  datatype Act =
    | CloseBody
    | SendErr(k: nat)
    | CloseErr(k: nat)

  datatype Caller =
    | Waiting
    | Reading(resp: Response)
    | Closing
    | Closed
    | Leaving(why: Failure)
    | Gone(why: Failure)

  /**
   One h2Stream with the io.Pipe it owns.

   closes, sends and breaks are the work left to the goroutines that took the stream: pipes to
   close cleanly, failures still to be offered on errs, and failures offered whose pipe is still
   to be broken. fed and finished are history: the DATA payload taken in for the stream, and
   whether END_STREAM was what removed it.
   */
  datatype Stream = Stream(
    caller: Caller,
    headers: Option<Response>,
    errs: Option<Failure>,
    trailers: Option<seq<Field>>,
    got: seq<byte>,
    pending: seq<byte>,
    wend: Option<End>,
    rclosed: bool,
    closes: nat,
    sends: seq<Failure>,
    breaks: seq<Failure>,
    fed: seq<byte>,
    finished: bool)

  function NewStream(caller: Caller): Stream {
    Stream(caller, None, None, None, [], [], None, false, 0, [], [], [], false)
  }

  // ---- What the goroutines do to a stream ----

  function OweClose(st: Stream): Stream {
    st.(closes := st.closes + 1)
  }

  function OweError(st: Stream, why: Failure): Stream {
    st.(sends := st.sends + [why])
  }

  function Without<T>(s: seq<T>, k: nat): (r: seq<T>)
    requires k < |s|
    ensures |r| == |s| - 1
  {
    s[..k] + s[k + 1..]
  }

  /** The pipe keeps the first reason it was closed for. */
  function CloseWrite(st: Stream, e: End): Stream {
    if st.wend.Some? then st else st.(wend := Some(e))
  }

  predicate Owed(st: Stream, act: Act) {
    match act
    case CloseBody => st.closes > 0
    case SendErr(k) => k < |st.sends|
    case CloseErr(k) => k < |st.breaks|
  }

  /** One pending act; failing a stream first offers the error, then breaks the pipe. */
  function Perform(st: Stream, act: Act): Stream
    requires Owed(st, act)
  {
    match act
    case CloseBody => CloseWrite(st.(closes := st.closes - 1), Eof)
    case CloseErr(k) => CloseWrite(st.(breaks := Without(st.breaks, k)), Broken(st.breaks[k]))
    case SendErr(k) =>
      st.(errs := if st.errs.None? then Some(st.sends[k]) else st.errs,
          sends := Without(st.sends, k),
          breaks := st.breaks + [st.sends[k]])
  }

  /** handleHeaders on a stream it has looked up. */
  function TakeBlock(st: Stream, fields: seq<Field>): Stream {
    if StatusOf(fields) == 0 then OweError(st, MissingStatus)
    else if st.headers.None? then st.(headers := Some(Response(StatusOf(fields), RegularFields(fields))))
    else st.(trailers := Some(RegularFields(fields)))
  }

  /** A failure for a block without :status has not been signalled in full; the read loop waits for that. */
  predicate OwesMissingStatus(st: Stream) {
    MissingStatus in st.sends || MissingStatus in st.breaks
  }

  predicate PipeClosed(st: Stream) {
    st.wend.Some? || st.rclosed
  }

  /** h2Stream.fail without interruption: the error is offered, then the pipe is broken. */
  function FailNow(st: Stream, why: Failure): Stream {
    CloseWrite(st.(errs := if st.errs.None? then Some(why) else st.errs), Broken(why))
  }

  /** It is the two pieces of work owed for a failure, done at once. */
  lemma FailNowSettles(st: Stream, why: Failure)
    ensures var owed := OweError(st, why);
            var offered := Perform(owed, SendErr(|st.sends|));
            FailNow(st, why) == Perform(offered, CloseErr(|st.breaks|))
  {
    assert Without(st.sends + [why], |st.sends|) == st.sends;
    assert Without(st.breaks + [why], |st.breaks|) == st.breaks;
  }

  // ---- Labels ----

  datatype InFrame =
    | InSettings(ack: bool)
    | InPing(ack: bool, token: nat)
    | InHeaders(id: nat, fields: seq<Field>, end: bool)
    | InData(id: nat, data: seq<byte>, end: bool)
    | InReset(id: nat, code: nat)
    | InGoAway(code: nat)
    | InOther

  /** Callers name a stream by its place in allocation order, the read loop by its wire id. */
  datatype Label =
    | Request(ref: nat, fields: seq<Field>, block: H2Wire.Block, body: seq<byte>, sent: nat)
    | TakeResponse(ref: nat)
    | TakeError(ref: nat)
    | Cancel(ref: nat)
    | Leave(ref: nat)
    | Read(ref: nat, n: nat)
    | CloseReader(ref: nat)
    | DropReader(ref: nat)
    | Do(ref: nat, act: Act)
    | Arrive(frame: InFrame, acks: nat)
    | ReadFail
    | Deliver(id: nat)
    | FailDone(id: nat)
    | FedAll(id: nat)
    | FeedBroken(id: nat)
    | Grant(id: nat, written: nat)
    | EndStream(id: nat)
    | DropBroken(id: nat)
    | CloseConn

  // ---- The single-stream machine ----

  /** What the read loop is doing for this stream. */
  datatype Work =
    | Free
    | Stopped
    | Delivering(fields: seq<Field>, end: bool)
    | Failing
    | Feeding(n: nat, end: bool)
    | Granting(n: nat, end: bool)
    | Ending
    | Dropping

  datatype Single = Single(closed: bool, stream: Option<Stream>, live: bool, busy: Work)

  function Initial(): Single {
    Single(false, None, false, Free)
  }

  /** Taking the stream out of the map, as removeStream does. */
  function Remove(v: Single, finished: bool): Single
    requires v.stream.Some?
  {
    if v.live then v.(live := false, stream := Some(OweClose(v.stream.value).(finished := finished)))
    else v
  }

  function Fail(v: Single, why: Failure): Single
    requires v.live ==> v.stream.Some?
  {
    if v.live then v.(live := false, stream := Some(OweError(v.stream.value, why))) else v
  }

  function AfterFrame(end: bool): Work {
    if end then Ending else Free
  }

  /** writeRequest registers the stream; a failed write takes it out again under the same lock. */
  function StepRequest(v: Single, body: seq<byte>, sent: nat): Option<Single> {
    if v.closed || v.stream.Some? || v.live || sent > H2Wire.FrameCount(body) then None
    else if sent == H2Wire.FrameCount(body) then Some(v.(stream := Some(NewStream(Waiting)), live := true))
    else Some(v.(stream := Some(NewStream(Gone(WriteFailed)))))
  }

  /** readLoop dispatches a frame it has read. */
  function StepArrive(v: Single, frame: InFrame): Option<Single>
    requires v.live ==> v.stream.Some?
  {
    if v.busy != Free then None
    else
      match frame
      case InGoAway(code) => Some(Fail(v, GoAway(code)).(closed := true))
      case InReset(_, code) => Some(Fail(v, StreamReset(code)))
      case InHeaders(_, fields, end) => Some(if v.live then v.(busy := Delivering(fields, end)) else v)
      case InData(_, data, end) =>
        if !v.live then Some(v)
        else if data == [] then Some(v.(busy := AfterFrame(end)))
        else
          var st := v.stream.value;
          Some(v.(stream := Some(st.(pending := data, fed := st.fed + data)), busy := Feeding(|data|, end)))
      case _ => Some(v)
  }

  /** The read loop continues with the frame it is handling. */
  function StepLoop(v: Single, st: Stream, l: Label): Option<Single>
    requires v.stream == Some(st)
  {
    match l
    case Deliver(_) =>
      if !v.busy.Delivering? then None
      else Some(v.(stream := Some(TakeBlock(st, v.busy.fields)),
                   busy := if StatusOf(v.busy.fields) == 0 then Failing else AfterFrame(v.busy.end)))
    case FailDone(_) =>
      if v.busy.Failing? && !OwesMissingStatus(st) then Some(v.(busy := Free)) else None
    case FedAll(_) =>
      if v.busy.Feeding? && st.pending == [] then Some(v.(busy := Granting(v.busy.n, v.busy.end))) else None
    case FeedBroken(_) =>
      if v.busy.Feeding? && st.pending != [] && PipeClosed(st) then
        Some(v.(stream := Some(st.(pending := [])), busy := Dropping))
      else None
    case Grant(_, _) =>
      if v.busy.Granting? then Some(v.(busy := AfterFrame(v.busy.end))) else None
    case EndStream(_) =>
      if v.busy.Ending? then Some(Remove(v, true).(busy := Free)) else None
    case DropBroken(_) =>
      if v.busy.Dropping? then Some(Remove(v, false).(busy := Free)) else None
    case _ => None
  }

  /** What the caller itself may do, as far as it concerns only the stream. */
  function CallerStep(st: Stream, l: Label): Option<Stream> {
    match l
    case TakeResponse(_) =>
      if st.caller.Waiting? && st.headers.Some? then
        Some(st.(caller := Reading(st.headers.value), headers := None))
      else None
    case TakeError(_) =>
      if st.caller.Waiting? && st.errs.Some? then Some(st.(caller := Leaving(st.errs.value), errs := None)) else None
    case Cancel(_) =>
      if st.caller.Waiting? then Some(st.(caller := Leaving(Cancelled))) else None
    case Leave(_) =>
      if st.caller.Leaving? then Some(st.(caller := Gone(st.caller.why))) else None
    case Read(_, n) =>
      if st.caller.Reading? && !st.rclosed && 0 < n <= |st.pending| then
        Some(st.(got := st.got + st.pending[..n], pending := st.pending[n..]))
      else None
    case CloseReader(_) =>
      if st.caller.Reading? || st.caller.Closed? then Some(st.(caller := Closing, rclosed := true)) else None
    case DropReader(_) =>
      if st.caller.Closing? then Some(st.(caller := Closed)) else None
    case Do(_, act) =>
      if Owed(st, act) then Some(Perform(st, act)) else None
    case _ => None
  }

  /** Leaving RoundTrip with an error and closing a body both end with removeStream. */
  predicate Removes(l: Label) {
    l.Leave? || l.DropReader?
  }

  /** One step, or None when the step is not possible now. */
  function Step(v: Single, l: Label): Option<Single> {
    if v.live && v.stream.None? then None
    else
      match l
      case Request(_, _, _, body, sent) => StepRequest(v, body, sent)
      case CloseConn => Some(if v.closed then v else Fail(v, ConnClosed).(closed := true))
      case ReadFail =>
        if v.busy != Free then None else Some(Fail(v, ReadFailed).(closed := true, busy := Stopped))
      case Arrive(frame, _) => StepArrive(v, frame)
      case _ =>
        if v.stream.None? then None
        else if IsLoopLabel(l) then StepLoop(v, v.stream.value, l)
        else
          match CallerStep(v.stream.value, l)
          case None => None
          case Some(st) =>
            var w := v.(stream := Some(st));
            Some(if Removes(l) then Remove(w, false) else w)
  }

  predicate IsLoopLabel(l: Label) {
    l.Deliver? || l.FailDone? || l.FedAll? || l.FeedBroken? || l.Grant? || l.EndStream? || l.DropBroken?
  }

  function Exec(v: Single, ls: seq<Label>): Option<Single> {
    if ls == [] then Some(v)
    else
      match Exec(v, ls[..|ls| - 1])
      case None => None
      case Some(w) => Step(w, ls[|ls| - 1])
  }

  // ---- What history says ----

  /** The DATA payload that arrived since the request was written. */
  function DataSince(ls: seq<Label>): seq<byte> {
    if ls == [] then []
    else
      var front, last := ls[..|ls| - 1], ls[|ls| - 1];
      if last.Request? then []
      else if last.Arrive? && last.frame.InData? then DataSince(front) + last.frame.data
      else DataSince(front)
  }

  /** A header block with a usable :status arrived since the request was written. */
  predicate SawStatus(ls: seq<Label>) {
    ls != [] &&
    var front, last := ls[..|ls| - 1], ls[|ls| - 1];
    if last.Request? then false
    else if last.Arrive? && last.frame.InHeaders? && StatusOf(last.frame.fields) != 0 then true
    else SawStatus(front)
  }

  /** The last frame that arrived carries END_STREAM. */
  predicate LastFrameEnds(ls: seq<Label>) {
    ls != [] &&
    var front, last := ls[..|ls| - 1], ls[|ls| - 1];
    if last.Arrive? then (last.frame.InData? || last.frame.InHeaders?) && last.frame.end
    else LastFrameEnds(front)
  }

  /** The peer answers before it ends: DATA with END_STREAM only after a block with :status. */
  ghost predicate AnswersFirst(ls: seq<Label>) {
    forall k :: 0 <= k < |ls| && ls[k].Arrive? && ls[k].frame.InData? && ls[k].frame.end ==> SawStatus(ls[..k])
  }

  // ---- Invariants ----

  /** The caller still has a use for the stream. */
  predicate Active(st: Stream) {
    (st.caller.Waiting? || st.caller.Reading?) && !st.rclosed
  }

  predicate IsBroken(st: Stream) {
    st.wend.Some? && st.wend.value.Broken?
  }

  predicate StreamInv(v: Single) {
    && (v.live ==> v.stream.Some?)
    && (v.closed ==> !v.live)
    && (v.stream.None? ==> v.busy.Free? || v.busy.Stopped?)
    && (v.stream.Some? ==>
          var st := v.stream.value;
          && (v.live ==> !st.finished)
          && (st.finished ==> !v.busy.Feeding? && !v.busy.Dropping?)
          && (st.pending != [] ==> v.busy.Feeding?)
          && (st.caller.Waiting? ==> !st.rclosed)
          && (Active(st) ==>
                && (st.closes > 0 ==> st.finished || IsBroken(st))
                && (st.wend == Some(Eof) ==> st.finished)
                && (v.busy.Dropping? ==> IsBroken(st))
                && (!IsBroken(st) ==> st.got + st.pending == st.fed))
          && (Active(st) && !v.live && !st.finished ==> st.sends != [] || st.breaks != [] || IsBroken(st))
          && (st.caller.Waiting? && (st.breaks != [] || IsBroken(st)) ==> st.errs.Some?))
  }

  /** Nothing will ever reach the caller: it is out of the map and nobody holds news for it. */
  predicate Lost(v: Single) {
    && v.stream.Some?
    && !v.live
    && !v.busy.Delivering?
    && v.stream.value.caller.Waiting?
    && v.stream.value.headers.None?
    && v.stream.value.errs.None?
    && v.stream.value.sends == []
  }

  /** END_STREAM is being processed for a waiting caller that was given neither a response nor an error. */
  predicate EndsUnanswered(v: Single, l: Label) {
    && l.EndStream?
    && v.busy.Ending?
    && v.live && v.stream.Some?
    && v.stream.value.caller.Waiting?
    && v.stream.value.headers.None?
    && v.stream.value.errs.None?
    && v.stream.value.sends == []
  }

  lemma CallerKeepsInv(v: Single, l: Label)
    requires StreamInv(v) && v.stream.Some? && CallerStep(v.stream.value, l).Some?
    ensures var w := v.(stream := CallerStep(v.stream.value, l));
            StreamInv(if Removes(l) then Remove(w, false) else w)
  {
    if l.Do? { WorkKeepsInv(v, l.act); } else { CallKeepsInv(v, l); }
  }

  lemma WorkKeepsInv(v: Single, act: Act)
    requires StreamInv(v) && v.stream.Some? && Owed(v.stream.value, act)
    ensures StreamInv(v.(stream := Some(Perform(v.stream.value, act))))
  {
  }

  lemma CallKeepsInv(v: Single, l: Label)
    requires StreamInv(v) && v.stream.Some? && !l.Do? && CallerStep(v.stream.value, l).Some?
    ensures var w := v.(stream := CallerStep(v.stream.value, l));
            StreamInv(if Removes(l) then Remove(w, false) else w)
  {
    if l.Read? {
      var st := v.stream.value;
      assert st.got + st.pending[..l.n] + st.pending[l.n..] == st.got + st.pending;
    }
  }

  lemma LoopKeepsInv(v: Single, l: Label)
    requires StreamInv(v) && v.stream.Some? && StepLoop(v, v.stream.value, l).Some?
    ensures StreamInv(StepLoop(v, v.stream.value, l).value)
  {
  }

  lemma ArriveKeepsInv(v: Single, frame: InFrame)
    requires StreamInv(v) && StepArrive(v, frame).Some?
    ensures StreamInv(StepArrive(v, frame).value)
  {
  }

  /** Every step keeps the invariant. */
  lemma StepKeepsInv(v: Single, l: Label)
    requires StreamInv(v) && Step(v, l).Some?
    ensures StreamInv(Step(v, l).value)
  {
    match l
    case Request(_, _, _, _, _) =>
    case CloseConn =>
    case ReadFail =>
    case Arrive(frame, _) => ArriveKeepsInv(v, frame);
    case _ => if IsLoopLabel(l) { LoopKeepsInv(v, l); } else { CallerKeepsInv(v, l); }
  }

  // ---- Whole runs ----

  /** The work in progress leads to END_STREAM. */
  predicate WorkEnds(w: Work) {
    match w
    case Delivering(_, end) => end
    case Feeding(_, end) => end
    case Granting(_, end) => end
    case Ending => true
    case _ => false
  }

  /** END_STREAM removed the stream at step k, when everything that had arrived was fed. */
  ghost predicate FinishedAt(ls: seq<Label>, fed: seq<byte>, k: nat) {
    k < |ls| && ls[k].EndStream? && LastFrameEnds(ls[..k]) && fed == DataSince(ls[..k])
  }

  ghost predicate HistoryInv(v: Single, ls: seq<Label>) {
    && StreamInv(v)
    && (WorkEnds(v.busy) ==> LastFrameEnds(ls))
    && (v.live ==> v.stream.value.fed == DataSince(ls))
    && (v.live && v.stream.value.caller.Waiting? && SawStatus(ls) ==>
          || v.stream.value.headers.Some?
          || (v.busy.Delivering? && StatusOf(v.busy.fields) != 0))
    && (v.stream.Some? && v.stream.value.finished ==> exists k: nat :: FinishedAt(ls, v.stream.value.fed, k))
  }

  /** What END_STREAM found when it removed the stream stays on record. */
  lemma FinishedStays(v: Single, l: Label)
    requires Step(v, l).Some? && v.stream.Some? && v.stream.value.finished && StreamInv(v)
    ensures var w := Step(v, l).value;
            w.stream.Some? && w.stream.value.finished && w.stream.value.fed == v.stream.value.fed
  {
  }

  lemma FinishedByEnd(v: Single, l: Label)
    requires StreamInv(v) && Step(v, l).Some? && !(v.stream.Some? && v.stream.value.finished)
    requires Step(v, l).value.stream.Some? && Step(v, l).value.stream.value.finished
    ensures l.EndStream? && v.live && WorkEnds(v.busy) && v.stream.Some?
    ensures Step(v, l).value.stream.value.fed == v.stream.value.fed
  {
  }

  lemma StepKeepsFinish(v: Single, front: seq<Label>, l: Label)
    requires HistoryInv(v, front) && Step(v, l).Some? && Step(v, l).value.stream.Some?
    requires Step(v, l).value.stream.value.finished
    ensures exists k: nat :: FinishedAt(front + [l], Step(v, l).value.stream.value.fed, k)
  {
    var ls := front + [l];
    assert ls[..|front|] == front;
    if v.stream.Some? && v.stream.value.finished {
      FinishedStays(v, l);
      var k: nat :| FinishedAt(front, v.stream.value.fed, k);
      assert ls[..k] == front[..k] && ls[k] == front[k];
      assert FinishedAt(ls, v.stream.value.fed, k);
    } else {
      FinishedByEnd(v, l);
      assert FinishedAt(ls, v.stream.value.fed, |front|);
    }
  }

  lemma StepKeepsHistory(v: Single, front: seq<Label>, l: Label)
    requires HistoryInv(v, front) && Step(v, l).Some?
    ensures HistoryInv(Step(v, l).value, front + [l])
  {
    StepKeepsInv(v, l);
    var w := Step(v, l).value;
    var ls := front + [l];
    assert ls[..|ls| - 1] == front;
    if w.stream.Some? && w.stream.value.finished {
      StepKeepsFinish(v, front, l);
    }
  }

  lemma {:induction false} RunKeepsHistory(ls: seq<Label>)
    requires Exec(Initial(), ls).Some?
    ensures HistoryInv(Exec(Initial(), ls).value, ls)
  {
    if ls != [] {
      var n := |ls| - 1;
      RunKeepsHistory(ls[..n]);
      StepKeepsHistory(Exec(Initial(), ls[..n]).value, ls[..n], ls[n]);
      assert ls == ls[..n] + [ls[n]];
    }
  }

  /** A Read by this caller would now return io.EOF. */
  predicate SeesEof(v: Single) {
    v.stream.Some? && v.stream.value.caller.Reading? && !v.stream.value.rclosed && v.stream.value.wend == Some(Eof)
  }

  /**
   Truncation is never a clean end. A body that its reader has not closed shows end-of-file
   only after END_STREAM was processed for the stream, and by then the reader has read exactly
   the DATA payloads that arrived since the request, in order.
   */
  lemma EofOnlyAfterEndStream(ls: seq<Label>)
    requires Exec(Initial(), ls).Some? && SeesEof(Exec(Initial(), ls).value)
    ensures exists k: nat :: FinishedAt(ls, Exec(Initial(), ls).value.stream.value.got, k)
  {
    RunKeepsHistory(ls);
    var st := Exec(Initial(), ls).value.stream.value;
    assert st.finished && st.pending == [];
    var k: nat :| FinishedAt(ls, st.fed, k);
    assert st.got == st.fed;
    assert FinishedAt(ls, st.got, k);
  }

  /**
   Every other way for an open body to lose its stream (reset, GOAWAY, read error, Close)
   leaves an error on its pipe, or work owed that will put one there.
   */
  lemma OtherEndsAreErrors(ls: seq<Label>)
    requires Exec(Initial(), ls).Some?
    ensures var v := Exec(Initial(), ls).value;
            v.stream.Some? && v.stream.value.caller.Reading? && !v.stream.value.rclosed && !v.live ==>
              var st := v.stream.value;
              || (exists k: nat :: FinishedAt(ls, st.fed, k))
              || st.sends != [] || st.breaks != [] || IsBroken(st)
  {
    RunKeepsHistory(ls);
  }

  /** The first close of a pipe is the one its reader sees, for ever. */
  lemma EndIsFinal(v: Single, l: Label)
    requires v.stream.Some? && v.stream.value.wend.Some? && Step(v, l).Some?
    ensures Step(v, l).value.stream.Some? && Step(v, l).value.stream.value.wend == v.stream.value.wend
  {
    match l
    case Arrive(frame, _) =>
    case _ => if !IsLoopLabel(l) { }
  }

  // ---- Waiting callers ----

  lemma LostByLoopIff(v: Single, l: Label)
    requires StreamInv(v) && !Lost(v) && IsLoopLabel(l) && Step(v, l).Some?
    ensures Lost(Step(v, l).value) <==> EndsUnanswered(v, l)
  {
  }

  lemma NotLostByCaller(v: Single, l: Label)
    requires StreamInv(v) && !Lost(v) && RefLabel(l) && Step(v, l).Some?
    ensures !Lost(Step(v, l).value)
  {
  }

  /** Something the caller does, or the goroutines that owe its stream work. */
  predicate RefLabel(l: Label) {
    !IsLoopLabel(l) && !l.Arrive? && !l.CloseConn? && !l.ReadFail? && !l.Request?
  }

  /**
   A caller becomes lost in exactly one way: END_STREAM is processed for it while it has been
   given neither a response nor an error.
   */
  lemma BecomesLostIff(v: Single, l: Label)
    requires StreamInv(v) && !Lost(v) && Step(v, l).Some?
    ensures Lost(Step(v, l).value) <==> EndsUnanswered(v, l)
  {
    if IsLoopLabel(l) {
      LostByLoopIff(v, l);
    } else if RefLabel(l) {
      NotLostByCaller(v, l);
    }
  }

  /** Once lost, only its own context can wake the caller. */
  lemma LostStays(v: Single, l: Label)
    requires StreamInv(v) && Lost(v) && Step(v, l).Some?
    ensures Lost(Step(v, l).value) <==> !l.Cancel?
  {
    match l
    case Arrive(frame, _) =>
    case _ => if IsLoopLabel(l) { } else { }
  }

  /** With a peer that answers first, END_STREAM finds the response already delivered. */
  predicate AnsweredBeforeEnd(v: Single) {
    v.live && v.stream.Some? && v.stream.value.caller.Waiting? && WorkEnds(v.busy) && !v.busy.Delivering?
    ==> v.stream.value.headers.Some?
  }

  lemma AnswersFirstPrefix(ls: seq<Label>, n: nat)
    requires AnswersFirst(ls) && n <= |ls|
    ensures AnswersFirst(ls[..n])
  {
    forall k | 0 <= k < n && ls[k].Arrive? && ls[k].frame.InData? && ls[k].frame.end
      ensures SawStatus(ls[..n][..k])
    {
      assert ls[..n][..k] == ls[..k];
    }
  }

  lemma {:induction false} PeerAnswersFirst(ls: seq<Label>)
    requires Exec(Initial(), ls).Some? && AnswersFirst(ls)
    ensures AnsweredBeforeEnd(Exec(Initial(), ls).value)
    ensures !Lost(Exec(Initial(), ls).value)
  {
    if ls != [] {
      var n := |ls| - 1;
      AnswersFirstPrefix(ls, n);
      PeerAnswersFirst(ls[..n]);
      RunKeepsHistory(ls[..n]);
      var v := Exec(Initial(), ls[..n]).value;
      BecomesLostIff(v, ls[n]);
      StepAnswers(v, ls[..n], ls[n]);
    }
  }

  lemma StepAnswers(v: Single, front: seq<Label>, l: Label)
    requires HistoryInv(v, front) && AnsweredBeforeEnd(v) && Step(v, l).Some?
    requires l.Arrive? && l.frame.InData? && l.frame.end ==> SawStatus(front)
    ensures AnsweredBeforeEnd(Step(v, l).value)
  {
    match l
    case Arrive(frame, _) =>
    case _ => if IsLoopLabel(l) { } else { }
  }

  /**
   No waiter is lost: when the peer sends a block with :status before DATA that ends the
   stream, then in every reachable state a caller blocked in RoundTrip still has its stream in
   the map, or a response or an error in its channels, or news held by a goroutine that will
   deliver it, whatever END_STREAM, resets, GOAWAY, read errors and Close did.
   */
  lemma NoWaiterLost(ls: seq<Label>)
    requires Exec(Initial(), ls).Some? && AnswersFirst(ls)
    ensures var v := Exec(Initial(), ls).value;
            v.stream.Some? && v.stream.value.caller.Waiting? ==>
              || v.live
              || v.busy.Delivering?
              || v.stream.value.headers.Some?
              || v.stream.value.errs.Some?
              || v.stream.value.sends != []
  {
    PeerAnswersFirst(ls);
  }

  /** The shortest exchange that loses a caller: empty DATA with END_STREAM as the only answer. */
  lemma UnansweredEndLosesCaller(block: H2Wire.Block)
    ensures var ls := [Request(0, [], block, [], 1), Arrive(InData(1, [], true), 0), EndStream(1)];
            Exec(Initial(), ls).Some? && Lost(Exec(Initial(), ls).value)
  {
    var a := Request(0, [], block, [], 1);
    var b := Arrive(InData(1, [], true), 0);
    var c := EndStream(1);
    assert [a][..0] == [] && [a, b][..1] == [a] && [a, b, c][..2] == [a, b];
    var v0 := Initial();
    assert Exec(v0, []) == Some(v0);
    assert Exec(v0, [a]) == Step(v0, a);
    assert Exec(v0, [a, b]) == Step(Step(v0, a).value, b);
    assert Exec(v0, [a, b, c]) == Step(Step(Step(v0, a).value, b).value, c);
  }
}
