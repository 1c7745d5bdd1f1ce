/** Flow-control credit returned to the peer (section 6.9 of RFC 7540). */
module H2Credit {
  import opened Prelude
  import H2Wire
  import S = H2Stream
  import opened H2Conn

  const INITIAL_WINDOW: nat := 65535
  const MAX_WINDOW: nat := 0x7fff_ffff

  // ---- Sums over the log ----

  function CreditOf(op: H2Wire.Op, id: nat): nat {
    if op.Control? && op.frame.WindowUpdate? && op.frame.id == id then op.frame.incr else 0
  }

  /** Everything granted for one identifier; 0 is the connection. */
  function Credit(log: seq<H2Wire.Op>, id: nat): nat {
    if log == [] then 0 else Credit(log[..|log| - 1], id) + CreditOf(log[|log| - 1], id)
  }

  function StreamCreditOf(op: H2Wire.Op): nat {
    if op.Control? && op.frame.WindowUpdate? && op.frame.id != 0 then op.frame.incr else 0
  }

  /** Everything granted for streams, all of them together. */
  function StreamCredit(log: seq<H2Wire.Op>): nat {
    if log == [] then 0 else StreamCredit(log[..|log| - 1]) + StreamCreditOf(log[|log| - 1])
  }

  lemma CreditAppend(log: seq<H2Wire.Op>, op: H2Wire.Op, id: nat)
    ensures Credit(log + [op], id) == Credit(log, id) + CreditOf(op, id)
    ensures StreamCredit(log + [op]) == StreamCredit(log) + StreamCreditOf(op)
  {
    assert (log + [op])[..|log|] == log;
  }

  // ---- What the peer sent ----

  function Payload(l: S.Label): nat {
    if l.Arrive? && l.frame.InData? then |l.frame.data| else 0
  }

  /** DATA bytes received on the connection, whether or not their stream still existed. */
  function Received(ls: seq<S.Label>): nat {
    if ls == [] then 0 else Received(ls[..|ls| - 1]) + Payload(ls[|ls| - 1])
  }

  /** The payload size of the frame that arrived last. */
  function LastPayload(ls: seq<S.Label>): nat {
    if ls == [] then 0
    else if ls[|ls| - 1].Arrive? then Payload(ls[|ls| - 1])
    else LastPayload(ls[..|ls| - 1])
  }

  /** Bytes of the body-pipe writes that ran to completion, for one identifier. */
  function AcceptedBy(ls: seq<S.Label>, id: nat): nat {
    if ls == [] then 0
    else
      var front, last := ls[..|ls| - 1], ls[|ls| - 1];
      AcceptedBy(front, id) + (if last == S.FedAll(id) then LastPayload(front) else 0)
  }

  function Accepted(ls: seq<S.Label>): nat {
    if ls == [] then 0
    else
      var front, last := ls[..|ls| - 1], ls[|ls| - 1];
      Accepted(front) + (if last.FedAll? then LastPayload(front) else 0)
  }

  /** Both WINDOW_UPDATE frames of every grant got out. */
  predicate NoWriteFault(ls: seq<S.Label>) {
    forall k :: 0 <= k < |ls| && ls[k].Grant? ==> ls[k].written == 2
  }

  // ---- The invariant ----

  /** Accepted bytes whose credit is not written yet. */
  function Owing(loop: Loop): nat {
    if loop.Busy? && loop.work.Granting? then loop.work.n else 0
  }

  function OwingTo(loop: Loop, id: nat): nat {
    if loop.Busy? && loop.id == id then Owing(loop) else 0
  }

  function Feeding(loop: Loop): nat {
    if loop.Busy? && loop.work.Feeding? then loop.work.n else 0
  }

  ghost predicate CreditInv(c: Conn, ls: seq<S.Label>, window: nat) {
    && (c.loop.Busy? && (c.loop.work.Feeding? || c.loop.work.Granting?) ==> c.loop.work.n == LastPayload(ls))
    && window + StreamCredit(c.log) <= Credit(c.log, 0)
    && Credit(c.log, 0) + Owing(c.loop) <= window + Accepted(ls)
    && Accepted(ls) + Feeding(c.loop) <= Received(ls)
    && (!c.closed && NoWriteFault(ls) ==>
          && Credit(c.log, 0) + Owing(c.loop) == window + Accepted(ls)
          && StreamCredit(c.log) + Owing(c.loop) == Accepted(ls)
          && forall id :: id % 2 == 1 ==> Credit(c.log, id) + OwingTo(c.loop, id) == AcceptedBy(ls, id))
  }

  lemma LogOfControl(c: Conn, frames: seq<H2Wire.Frame>, written: nat)
    requires written <= |frames| <= 2 && !c.closed
    ensures written == 0 ==> WriteControl(c, frames, written).log == c.log
    ensures written == 1 ==> WriteControl(c, frames, written).log == c.log + [H2Wire.Control(frames[0])]
    ensures written == 2 ==>
              WriteControl(c, frames, written).log == c.log + [H2Wire.Control(frames[0])] + [H2Wire.Control(frames[1])]
  {
  }

  /** Frames that carry no credit leave every sum alone. */
  lemma NoCredit(log: seq<H2Wire.Op>, op: H2Wire.Op)
    requires !(op.Control? && op.frame.WindowUpdate?)
    ensures forall id :: Credit(log + [op], id) == Credit(log, id)
    ensures StreamCredit(log + [op]) == StreamCredit(log)
  {
    forall id ensures Credit(log + [op], id) == Credit(log, id) {
      CreditAppend(log, op, id);
    }
    CreditAppend(log, op, 0);
  }

  lemma FaultPrefix(front: seq<S.Label>, l: S.Label)
    ensures NoWriteFault(front + [l]) <==> NoWriteFault(front) && (l.Grant? ==> l.written == 2)
  {
    var ls := front + [l];
    assert ls[|front|] == l;
    forall k | 0 <= k < |front| ensures ls[k] == front[k] { }
  }

  /** What the written part of a grant adds to the sums. */
  lemma GrantSums(c: Conn, id: nat, n: nat, written: nat)
    requires !c.closed && id % 2 == 1 && written <= 2
    ensures var log := WriteControl(c, CreditFrames(id, n), written).log;
            && Credit(log, 0) == Credit(c.log, 0) + (if written >= 1 then n else 0)
            && StreamCredit(log) == StreamCredit(c.log) + (if written == 2 then n else 0)
            && forall i :: i % 2 == 1 ==>
                 Credit(log, i) == Credit(c.log, i) + (if written == 2 && i == id then n else 0)
  {
    var log := WriteControl(c, CreditFrames(id, n), written).log;
    var a, b := H2Wire.Control(H2Wire.WindowUpdate(0, n)), H2Wire.Control(H2Wire.WindowUpdate(id, n));
    LogOfControl(c, CreditFrames(id, n), written);
    assert log == if written == 0 then c.log else if written == 1 then c.log + [a] else c.log + [a] + [b];
    TwoCredits(c.log, a, b);
    forall i: nat | i % 2 == 1
      ensures Credit(log, i) == Credit(c.log, i) + (if written == 2 && i == id then n else 0)
    {
      assert CreditOf(a, i) == 0 && CreditOf(b, i) == if i == id then n else 0;
    }
  }

  lemma TwoCredits(log: seq<H2Wire.Op>, a: H2Wire.Op, b: H2Wire.Op)
    ensures forall i :: Credit(log + [a], i) == Credit(log, i) + CreditOf(a, i)
    ensures forall i :: Credit(log + [a] + [b], i) == Credit(log, i) + CreditOf(a, i) + CreditOf(b, i)
    ensures StreamCredit(log + [a]) == StreamCredit(log) + StreamCreditOf(a)
    ensures StreamCredit(log + [a] + [b]) == StreamCredit(log) + StreamCreditOf(a) + StreamCreditOf(b)
  {
    forall i: nat
      ensures Credit(log + [a], i) == Credit(log, i) + CreditOf(a, i)
      ensures Credit(log + [a] + [b], i) == Credit(log, i) + CreditOf(a, i) + CreditOf(b, i)
    {
      CreditAppend(log, a, i);
      CreditAppend(log + [a], b, i);
    }
    CreditAppend(log, a, 0);
    CreditAppend(log + [a], b, 0);
  }

  lemma HistoryStep(front: seq<S.Label>, l: S.Label)
    ensures Received(front + [l]) == Received(front) + Payload(l)
    ensures Accepted(front + [l]) == Accepted(front) + (if l.FedAll? then LastPayload(front) else 0)
    ensures LastPayload(front + [l]) == if l.Arrive? then Payload(l) else LastPayload(front)
    ensures forall id :: AcceptedBy(front + [l], id) ==
              AcceptedBy(front, id) + (if l == S.FedAll(id) then LastPayload(front) else 0)
  {
    assert (front + [l])[..|front|] == front;
  }

  lemma GrantKeepsCredit(c: Conn, front: seq<S.Label>, l: S.Label, window: nat)
    requires ConnInv(c) && CreditInv(c, front, window) && l.Grant? && Step(c, l).Some?
    ensures CreditInv(Step(c, l).value, front + [l], window)
  {
    var d := Step(c, l).value;
    assert c.loop.Busy? && c.loop.work.Granting? && l.written <= 2 && d.closed == c.closed;
    assert d.log == WriteControl(c, CreditFrames(c.loop.id, c.loop.work.n), l.written).log;
    GrantMoves(c, d, front, l, window);
  }

  lemma GrantMoves(c: Conn, d: Conn, front: seq<S.Label>, l: S.Label, window: nat)
    requires CreditInv(c, front, window) && l.Grant? && l.written <= 2
    requires c.loop.Busy? && c.loop.work.Granting? && c.loop.id % 2 == 1 && d.closed == c.closed
    requires d.log == WriteControl(c, CreditFrames(c.loop.id, c.loop.work.n), l.written).log
    requires d.loop.Busy? ==> !d.loop.work.Granting? && !d.loop.work.Feeding?
    ensures CreditInv(d, front + [l], window)
  {
    HistoryStep(front, l);
    FaultPrefix(front, l);
    if !c.closed {
      GrantSums(c, c.loop.id, c.loop.work.n, l.written);
    }
  }

  /** Steps that write no credit: the sums stay, and only an arrival or a completed feed moves bytes. */
  lemma QuietLog(c: Conn, l: S.Label)
    requires !l.Grant? && !l.Request? && !l.Arrive? && Step(c, l).Some?
    ensures Step(c, l).value.log == c.log
  {
  }

  lemma ArrivalLog(c: Conn, f: S.InFrame, acks: nat)
    requires Arrive(c, f, acks).Some?
    ensures var log := Arrive(c, f, acks).value.log;
            log == c.log || (AckFrames(f) != [] && log == c.log + [H2Wire.Control(AckFrames(f)[0])])
  {
    if !c.closed && |AckFrames(f)| > 0 { LogOfControl(c, AckFrames(f), acks); }
  }

  lemma LogWithoutCredit(c: Conn, l: S.Label)
    requires ConnInv(c) && !l.Grant? && Step(c, l).Some?
    ensures var d := Step(c, l).value;
            StreamCredit(d.log) == StreamCredit(c.log) && forall id :: Credit(d.log, id) == Credit(c.log, id)
  {
    if l.Request? {
      NoCredit(c.log, H2Wire.Request(c.nextID, l.block, l.body, l.sent));
    } else if l.Arrive? {
      ArrivalLog(c, l.frame, l.acks);
      if AckFrames(l.frame) != [] { NoCredit(c.log, H2Wire.Control(AckFrames(l.frame)[0])); }
    } else {
      QuietLog(c, l);
    }
  }

  lemma LoopWithoutGrant(c: Conn, l: S.Label)
    requires ConnInv(c) && !l.Grant? && Step(c, l).Some?
    ensures LoopMoves(c, l, Step(c, l).value)
  {
    match l
    case Arrive(f, _) =>
    case _ =>
  }

  /** How the read loop's duties change in any step but the one that pays them. */
  ghost predicate LoopMoves(c: Conn, l: S.Label, d: Conn) {
    && (c.closed ==> d.closed)
    && (l.Arrive? ==> Owing(c.loop) == Owing(d.loop) == Feeding(c.loop) == 0
                      && (Feeding(d.loop) != 0 ==> Feeding(d.loop) == d.loop.work.n == Payload(l))
                      && (d.loop.Busy? && d.loop.work.Feeding? ==> d.loop.work.n == Payload(l))
                      && !(d.loop.Busy? && d.loop.work.Granting?))
    && (l.FedAll? ==> Owing(c.loop) == Feeding(d.loop) == 0 && d.loop.Busy? && d.loop.work.Granting?
                      && c.loop == Busy(l.id, d.loop.ref, S.Feeding(d.loop.work.n, d.loop.work.end))
                      && d.loop.id == l.id)
    && (!l.Arrive? && !l.FedAll? ==> d.loop == c.loop || (Owing(c.loop) == Owing(d.loop) == Feeding(d.loop) == 0))
    && (!l.Arrive? && !l.FedAll? && !l.FeedBroken? ==> d.loop == c.loop || Feeding(c.loop) == 0)
    && (d.loop.Busy? && (d.loop.work.Feeding? || d.loop.work.Granting?) && d.loop != c.loop ==> l.Arrive? || l.FedAll?)
  }

  lemma OtherKeepsCredit(c: Conn, front: seq<S.Label>, l: S.Label, window: nat)
    requires ConnInv(c) && CreditInv(c, front, window) && !l.Grant? && Step(c, l).Some?
    ensures CreditInv(Step(c, l).value, front + [l], window)
  {
    LogWithoutCredit(c, l);
    LoopWithoutGrant(c, l);
    CreditMoves(c, Step(c, l).value, front, l, window);
  }

  lemma CreditMoves(c: Conn, d: Conn, front: seq<S.Label>, l: S.Label, window: nat)
    requires CreditInv(c, front, window) && !l.Grant? && LoopMoves(c, l, d)
    requires StreamCredit(d.log) == StreamCredit(c.log) && forall id :: Credit(d.log, id) == Credit(c.log, id)
    ensures CreditInv(d, front + [l], window)
  {
    HistoryStep(front, l);
    FaultPrefix(front, l);
  }

  lemma OpenCredit(settings: seq<H2Wire.Setting>, window: nat)
    ensures CreditInv(Open(settings, window), [], window)
  {
    var a, b := H2Wire.Control(H2Wire.Preface), H2Wire.Control(H2Wire.Settings(settings));
    var w := H2Wire.Control(H2Wire.WindowUpdate(0, window));
    var log := Open(settings, window).log;
    assert log == ([] + [a]) + [b] + [w];
    NoCredit([], a);
    NoCredit([] + [a], b);
    forall id ensures Credit(log, id) == CreditOf(w, id) {
      CreditAppend([] + [a] + [b], w, id);
      assert Credit([], id) == 0;
    }
    CreditAppend([] + [a] + [b], w, 0);
  }

  lemma {:induction false} CreditFrom(c: Conn, window: nat, ls: seq<S.Label>)
    requires ConnInv(c) && CreditInv(c, [], window) && Exec(c, ls).Some?
    ensures ConnInv(Exec(c, ls).value) && CreditInv(Exec(c, ls).value, ls, window)
  {
    if ls != [] {
      var front, last := ls[..|ls| - 1], ls[|ls| - 1];
      CreditFrom(c, window, front);
      assert front + [last] == ls;
      CreditNext(Exec(c, front).value, front, last, Exec(c, ls).value, window);
    }
  }

  lemma CreditNext(b: Conn, front: seq<S.Label>, l: S.Label, d: Conn, window: nat)
    requires ConnInv(b) && CreditInv(b, front, window) && Step(b, l) == Some(d)
    ensures ConnInv(d) && CreditInv(d, front + [l], window)
  {
    CreditStep(b, front, l, window);
  }

  lemma CreditStep(c: Conn, front: seq<S.Label>, l: S.Label, window: nat)
    requires ConnInv(c) && CreditInv(c, front, window) && Step(c, l).Some?
    ensures ConnInv(Step(c, l).value) && CreditInv(Step(c, l).value, front + [l], window)
  {
    StepKeepsInv(c, l);
    if l.Grant? { GrantKeepsCredit(c, front, l, window); } else { OtherKeepsCredit(c, front, l, window); }
  }

  lemma RunKeepsCredit(settings: seq<H2Wire.Setting>, window: nat, ls: seq<S.Label>)
    requires Exec(Open(settings, window), ls).Some?
    ensures ConnInv(Exec(Open(settings, window), ls).value)
    ensures CreditInv(Exec(Open(settings, window), ls).value, ls, window)
  {
    OpenCredit(settings, window);
    CreditFrom(Open(settings, window), window, ls);
  }

  /**
   Conservation at every read-loop boundary of an open connection whose grants were written:
   credit returned to the connection, the sum of the credit returned to streams and the bytes
   the body pipes accepted are one number, stream by stream; it never exceeds what was received.
   */
  lemma CreditConserved(settings: seq<H2Wire.Setting>, window: nat, ls: seq<S.Label>)
    requires Exec(Open(settings, window), ls).Some?
    requires !Exec(Open(settings, window), ls).value.closed && Exec(Open(settings, window), ls).value.loop.Idle?
    requires NoWriteFault(ls)
    ensures var log := Exec(Open(settings, window), ls).value.log;
            && Credit(log, 0) - window == StreamCredit(log) == Accepted(ls) <= Received(ls)
            && forall id :: id % 2 == 1 ==> Credit(log, id) == AcceptedBy(ls, id)
  {
    RunKeepsCredit(settings, window, ls);
  }

  /** In every state of every run, even after write faults or closing, credit stays within what was received. */
  lemma CreditNeverExceedsReceived(settings: seq<H2Wire.Setting>, window: nat, ls: seq<S.Label>)
    requires Exec(Open(settings, window), ls).Some?
    ensures var log := Exec(Open(settings, window), ls).value.log;
            StreamCredit(log) <= Credit(log, 0) - window <= Accepted(ls) <= Received(ls)
  {
    RunKeepsCredit(settings, window, ls);
  }

  // ---- Credit and the application's reads ----

  /** No pipe write for this identifier was cut short by a closed pipe. */
  predicate NeverBroken(ls: seq<S.Label>, id: nat) {
    forall k :: 0 <= k < |ls| ==> ls[k] != S.FeedBroken(id)
  }

  function FeedingTo(loop: Loop, ref: nat): nat {
    if loop.Busy? && loop.ref == ref then Feeding(loop) else 0
  }

  /** Bytes read by the application and bytes still offered to it account for every accepted write. */
  ghost predicate PipeInv(c: Conn, ls: seq<S.Label>, ref: nat) {
    ref < |c.objs| ==>
      && (c.objs[ref].pending != [] ==> FeedingTo(c.loop, ref) != 0)
      && (NeverBroken(ls, IdOf(ref)) ==>
            |c.objs[ref].got| + |c.objs[ref].pending| == AcceptedBy(ls, IdOf(ref)) + FeedingTo(c.loop, ref))
  }

  /** Nothing has been accepted yet for an identifier that is not allocated. */
  ghost predicate Fresh(c: Conn, ls: seq<S.Label>, ref: nat) {
    ref >= |c.objs| ==> AcceptedBy(ls, IdOf(ref)) == 0
  }

  ghost predicate SameBytes(c: Conn, d: Conn, ref: nat) {
    && ref < |c.objs| && ref < |d.objs|
    && d.objs[ref].got == c.objs[ref].got
    && d.objs[ref].pending == c.objs[ref].pending
  }

  lemma RegionsKeepBytes(c: Conn, id: nat, finished: bool, why: S.Failure, ref: nat)
    requires ref < |c.objs|
    ensures SameBytes(c, Remove(c, id, finished), ref)
    ensures SameBytes(c, FailOne(c, id, why), ref)
    ensures SameBytes(c, FailAll(c, why), ref)
  {
  }

  lemma HandlerKeepsBytes(c: Conn, l: S.Label, ref: nat)
    requires HandlerStep(c, l).Some? && ref < |c.objs| && !l.FeedBroken?
    ensures SameBytes(c, HandlerStep(c, l).value, ref)
  {
    RegionsKeepBytes(c, c.loop.id, true, S.ReadFailed, ref);
    RegionsKeepBytes(c, c.loop.id, false, S.ReadFailed, ref);
  }

  lemma StreamKeepsBytes(st: S.Stream, l: S.Label)
    requires S.CallerStep(st, l).Some? && !l.Read?
    ensures S.CallerStep(st, l).value.got == st.got && S.CallerStep(st, l).value.pending == st.pending
  {
  }

  lemma CallerKeepsBytes(c: Conn, l: S.Label, ref: nat)
    requires CallerStep(c, l).Some? && ref < |c.objs| && !l.Read?
    ensures SameBytes(c, CallerStep(c, l).value, ref)
  {
    var q := RefOf(l).value;
    StreamKeepsBytes(c.objs[q], l);
    var d := c.(objs := c.objs[q := S.CallerStep(c.objs[q], l).value]);
    assert SameBytes(c, d, ref);
    RegionsKeepBytes(d, IdOf(q), false, S.ReadFailed, ref);
  }

  lemma ArriveKeepsBytes(c: Conn, f: S.InFrame, acks: nat, ref: nat)
    requires Arrive(c, f, acks).Some? && ref < |c.objs| && !f.InData?
    ensures SameBytes(c, Arrive(c, f, acks).value, ref)
  {
    match f
    case InGoAway(code) => RegionsKeepBytes(c, 0, false, S.GoAway(code), ref);
    case InReset(id, code) => RegionsKeepBytes(c, id, false, S.StreamReset(code), ref);
    case InHeaders(_, _, _) =>
    case _ =>
  }

  /** Apart from DATA arriving, a broken feed and a read, every step leaves a pipe's bytes where they are. */
  lemma BytesStay(c: Conn, l: S.Label, ref: nat)
    requires Step(c, l).Some? && ref < |c.objs|
    requires !l.Read? && !l.FeedBroken? && !(l.Arrive? && l.frame.InData?)
    ensures SameBytes(c, Step(c, l).value, ref)
  {
    match l
    case Request(_, _, _, _, _) =>
    case CloseConn => RegionsKeepBytes(c, 0, false, S.ConnClosed, ref);
    case ReadFail => RegionsKeepBytes(c, 0, false, S.ReadFailed, ref);
    case Arrive(f, acks) => ArriveKeepsBytes(c, f, acks, ref);
    case _ => if S.IsLoopLabel(l) { HandlerKeepsBytes(c, l, ref); } else { CallerKeepsBytes(c, l, ref); }
  }

  lemma BrokenPrefix(front: seq<S.Label>, l: S.Label, id: nat)
    requires NeverBroken(front + [l], id)
    ensures NeverBroken(front, id) && l != S.FeedBroken(id)
  {
    var ls := front + [l];
    assert ls[|front|] == l;
    forall k | 0 <= k < |front| ensures front[k] != S.FeedBroken(id) {
      assert ls[k] == front[k];
    }
  }

  /** Steps that move bytes of a pipe: DATA arriving, a read, a broken feed. */
  /** Reading takes bytes from the payload on offer. */
  lemma ReadMoves(c: Conn, l: S.Label, ref: nat)
    requires l.Read? && Step(c, l).Some? && ref < |c.objs|
    ensures var d := Step(c, l).value;
            && d.loop == c.loop && ref < |d.objs|
            && |d.objs[ref].got| + |d.objs[ref].pending| == |c.objs[ref].got| + |c.objs[ref].pending|
            && (d.objs[ref].pending != [] ==> c.objs[ref].pending != [])
  {
  }

  /** An arriving payload is offered to the pipe of the stream it names. */
  lemma OfferMoves(c: Conn, l: S.Label, ref: nat)
    requires ConnInv(c) && |c.objs| <= MAX_STREAMS && l.Arrive? && l.frame.InData? && Step(c, l).Some? && ref < |c.objs|
    requires c.objs[ref].pending == []
    ensures var d := Step(c, l).value;
            && ref < |d.objs| && d.objs[ref].got == c.objs[ref].got
            && |d.objs[ref].pending| == FeedingTo(d.loop, ref)
            && FeedingTo(c.loop, ref) == 0
  {
  }

  lemma DropMoves(c: Conn, l: S.Label, ref: nat)
    requires ConnInv(c) && |c.objs| <= MAX_STREAMS && l.FeedBroken? && Step(c, l).Some? && ref < |c.objs|
    ensures var d := Step(c, l).value;
            && ref < |d.objs| && FeedingTo(d.loop, ref) == 0
            && (if c.loop.ref == ref then l == S.FeedBroken(IdOf(ref)) && d.objs[ref].pending == []
                else SameBytes(c, d, ref) && FeedingTo(c.loop, ref) == 0)
  {
  }

  lemma PipeMoves(c: Conn, front: seq<S.Label>, l: S.Label, ref: nat)
    requires ConnInv(c) && |c.objs| <= MAX_STREAMS && Step(c, l).Some?
    requires ref < |c.objs| && PipeInv(c, front, ref)
    requires l.Read? || l.FeedBroken? || (l.Arrive? && l.frame.InData?)
    ensures PipeInv(Step(c, l).value, front + [l], ref)
  {
    HistoryStep(front, l);
    if NeverBroken(front + [l], IdOf(ref)) { BrokenPrefix(front, l, IdOf(ref)); }
    if l.Read? {
      ReadMoves(c, l, ref);
    } else if l.Arrive? {
      OfferMoves(c, l, ref);
    } else {
      DropMoves(c, l, ref);
    }
  }

  /** Steps that only move the read loop along. */
  lemma PipeStays(c: Conn, front: seq<S.Label>, l: S.Label, window: nat, ref: nat)
    requires ConnInv(c) && |c.objs| <= MAX_STREAMS && CreditInv(c, front, window) && Step(c, l).Some?
    requires ref < |c.objs| && PipeInv(c, front, ref)
    requires !l.Read? && !l.FeedBroken? && !(l.Arrive? && l.frame.InData?)
    ensures PipeInv(Step(c, l).value, front + [l], ref)
  {
    BytesStay(c, l, ref);
    if l.Grant? {
      assert l != S.FedAll(IdOf(ref)) && FeedingTo(Step(c, l).value.loop, ref) == FeedingTo(c.loop, ref) == 0;
    } else {
      LoopWithoutGrant(c, l);
    }
    IdOfSmall(ref);
    if c.loop.Busy? { IdOfSmall(c.loop.ref); }
    PipeCarries(c, Step(c, l).value, front, l, window, ref);
  }

  lemma PipeCarries(c: Conn, d: Conn, front: seq<S.Label>, l: S.Label, window: nat, ref: nat)
    requires CreditInv(c, front, window) && PipeInv(c, front, ref) && SameBytes(c, d, ref)
    requires c.loop.Busy? ==> (c.loop.id == IdOf(ref) <==> c.loop.ref == ref)
    requires if l.Grant? then FeedingTo(d.loop, ref) == FeedingTo(c.loop, ref) == 0 else LoopMoves(c, l, d)
    requires !(l.Arrive? && l.frame.InData?) && !l.FeedBroken?
    requires l.FedAll? && c.loop.Busy? && c.loop.ref == ref ==> c.objs[ref].pending == []
    ensures PipeInv(d, front + [l], ref)
  {
    HistoryStep(front, l);
    if NeverBroken(front + [l], IdOf(ref)) { BrokenPrefix(front, l, IdOf(ref)); }
  }

  lemma PipeStep(c: Conn, front: seq<S.Label>, l: S.Label, window: nat, ref: nat)
    requires ConnInv(c) && CreditInv(c, front, window) && Step(c, l).Some?
    requires |Step(c, l).value.objs| <= MAX_STREAMS && ref < MAX_STREAMS
    requires PipeInv(c, front, ref) && Fresh(c, front, ref)
    ensures PipeInv(Step(c, l).value, front + [l], ref) && Fresh(Step(c, l).value, front + [l], ref)
  {
    StepKeepsInv(c, l);
    if ref < |c.objs| {
      if l.Read? || l.FeedBroken? || (l.Arrive? && l.frame.InData?) {
        PipeMoves(c, front, l, ref);
      } else {
        PipeStays(c, front, l, window, ref);
      }
    } else {
      PipeStarts(c, front, l, ref);
    }
  }

  /** A stream not yet allocated has accepted nothing, and starts empty. */
  lemma PipeStarts(c: Conn, front: seq<S.Label>, l: S.Label, ref: nat)
    requires ConnInv(c) && |c.objs| <= MAX_STREAMS && Step(c, l).Some?
    requires |c.objs| <= ref < MAX_STREAMS && Fresh(c, front, ref)
    ensures PipeInv(Step(c, l).value, front + [l], ref) && Fresh(Step(c, l).value, front + [l], ref)
  {
    HistoryStep(front, l);
    IdOfSmall(ref);
    if c.loop.Busy? { IdOfSmall(c.loop.ref); }
    assert l != S.FedAll(IdOf(ref));
    NewObject(c, l, ref);
  }

  /** An object that a step makes is empty, and the read loop is not feeding it. */
  lemma NewObject(c: Conn, l: S.Label, ref: nat)
    requires ConnInv(c) && |c.objs| <= MAX_STREAMS && Step(c, l).Some? && |c.objs| <= ref
    ensures ref < |Step(c, l).value.objs| ==>
              var d := Step(c, l).value;
              d.objs[ref].got == [] && d.objs[ref].pending == [] && d.loop == c.loop && FeedingTo(c.loop, ref) == 0
  {
    StepKeepsInv(c, l);
  }

  /** The invariants of credit and of one pipe, together. */
  ghost predicate FlowInv(c: Conn, ls: seq<S.Label>, window: nat, ref: nat) {
    ConnInv(c) && CreditInv(c, ls, window) && PipeInv(c, ls, ref) && Fresh(c, ls, ref)
  }

  lemma FlowStep(c: Conn, front: seq<S.Label>, l: S.Label, d: Conn, window: nat, ref: nat)
    requires FlowInv(c, front, window, ref) && Step(c, l) == Some(d) && |d.objs| <= MAX_STREAMS && ref < MAX_STREAMS
    ensures FlowInv(d, front + [l], window, ref)
  {
    CreditStep(c, front, l, window);
    PipeStep(c, front, l, window, ref);
  }

  /** Objects are never taken away. */
  lemma ObjectsGrow(c: Conn, l: S.Label, d: Conn)
    requires ConnInv(c) && Step(c, l) == Some(d)
    ensures |c.objs| <= |d.objs|
  {
    StepKeepsInv(c, l);
  }

  lemma {:induction false} PipesFrom(c: Conn, window: nat, ls: seq<S.Label>, ref: nat)
    requires FlowInv(c, [], window, ref)
    requires Exec(c, ls).Some? && |Exec(c, ls).value.objs| <= MAX_STREAMS && ref < MAX_STREAMS
    ensures FlowInv(Exec(c, ls).value, ls, window, ref)
  {
    if ls != [] {
      var front, last := ls[..|ls| - 1], ls[|ls| - 1];
      CreditFrom(c, window, front);
      ObjectsGrow(Exec(c, front).value, last, Exec(c, ls).value);
      PipesFrom(c, window, front, ref);
      assert front + [last] == ls;
      FlowStep(Exec(c, front).value, front, last, Exec(c, ls).value, window, ref);
    }
  }

  lemma RunKeepsPipes(settings: seq<H2Wire.Setting>, window: nat, ls: seq<S.Label>, ref: nat)
    requires Exec(Open(settings, window), ls).Some?
    requires |Exec(Open(settings, window), ls).value.objs| <= MAX_STREAMS && ref < MAX_STREAMS
    ensures PipeInv(Exec(Open(settings, window), ls).value, ls, ref)
    ensures Fresh(Exec(Open(settings, window), ls).value, ls, ref)
  {
    OpenPipes(settings, window, ref);
    PipesFrom(Open(settings, window), window, ls, ref);
  }

  /** A new connection: no objects, nothing accepted. */
  lemma OpenPipes(settings: seq<H2Wire.Setting>, window: nat, ref: nat)
    ensures ConnInv(Open(settings, window)) && CreditInv(Open(settings, window), [], window)
    ensures PipeInv(Open(settings, window), [], ref) && Fresh(Open(settings, window), [], ref)
  {
    OpenCredit(settings, window);
  }

  /**
   At a read-loop boundary of an open connection, a stream has been given credit for exactly the
   bytes its body's reader has consumed, unless a write into its pipe was cut short.
   */
  lemma StreamCreditIsBytesRead(settings: seq<H2Wire.Setting>, window: nat, ls: seq<S.Label>, ref: nat)
    requires Exec(Open(settings, window), ls).Some?
    requires !Exec(Open(settings, window), ls).value.closed && Exec(Open(settings, window), ls).value.loop.Idle?
    requires |Exec(Open(settings, window), ls).value.objs| <= MAX_STREAMS
    requires ref < |Exec(Open(settings, window), ls).value.objs|
    requires NoWriteFault(ls) && NeverBroken(ls, IdOf(ref))
    ensures Credit(Exec(Open(settings, window), ls).value.log, IdOf(ref))
         == |Exec(Open(settings, window), ls).value.objs[ref].got|
  {
    RunKeepsPipes(settings, window, ls, ref);
    RunKeepsCredit(settings, window, ls);
    CreditMeetsPipe(Exec(Open(settings, window), ls).value, ls, window, ref);
  }

  lemma CreditMeetsPipe(c: Conn, ls: seq<S.Label>, window: nat, ref: nat)
    requires CreditInv(c, ls, window) && PipeInv(c, ls, ref)
    requires !c.closed && c.loop.Idle? && ref < |c.objs| && ref < MAX_STREAMS
    requires NoWriteFault(ls) && NeverBroken(ls, IdOf(ref))
    ensures Credit(c.log, IdOf(ref)) == |c.objs[ref].got|
  {
    IdOfSmall(ref);
    assert IdOf(ref) % 2 == 1;
  }

  /** The connection window a peer that has sent sent bytes computes from the log. */
  function PeerWindow(log: seq<H2Wire.Op>, sent: nat): int {
    INITIAL_WINDOW + Credit(log, 0) - sent
  }

  /** No run of a connection opened with this profile value makes the peer's window overflow (section 6.9.1). */
  ghost predicate WindowSafe(configured: nat) {
    forall settings: Option<seq<H2Wire.Setting>>, writes: nat, c: Conn, ls: seq<S.Label>, sent: nat ::
      Opened(settings, configured, writes) == Some(c) && Exec(c, ls).Some? && Received(ls) <= sent ==>
        PeerWindow(Exec(c, ls).value.log, sent) <= MAX_WINDOW
  }

  lemma WindowBound(settings: seq<H2Wire.Setting>, window: nat, ls: seq<S.Label>, sent: nat)
    requires Exec(Open(settings, window), ls).Some? && Received(ls) <= sent
    ensures PeerWindow(Exec(Open(settings, window), ls).value.log, sent) <= INITIAL_WINDOW + window
  {
    RunKeepsCredit(settings, window, ls);
  }

  lemma OverflowsAtOnce(configured: nat)
    requires 2147418112 < configured <= MAX_INCREMENT
    ensures !WindowSafe(configured)
  {
    var c := Open([], configured);
    assert Opened(Some([]), configured, 3) == Some(c);
    assert Exec(c, []) == Some(c);
    OpenCredit([], configured);
    assert Received([]) == 0 && PeerWindow(c.log, 0) > MAX_WINDOW;
  }

  /**
   Exactly which profile values are safe: those that leave room for the 65535 octets of the
   start, and those so large that the framer refuses them and no connection is opened. A value
   of 0 stands for the default, which is safe.
   */
  lemma WindowSafeIff(configured: nat)
    ensures WindowSafe(configured) <==> configured <= 2147418112 || configured > MAX_INCREMENT
  {
    if configured <= 2147418112 {
      forall settings: Option<seq<H2Wire.Setting>>, writes: nat, c: Conn, ls: seq<S.Label>, sent: nat
        | Opened(settings, configured, writes) == Some(c) && Exec(c, ls).Some? && Received(ls) <= sent
        ensures PeerWindow(Exec(c, ls).value.log, sent) <= MAX_WINDOW
      {
        WindowBound(settings.value, ConnectionIncrement(configured), ls, sent);
      }
    } else if configured <= MAX_INCREMENT {
      OverflowsAtOnce(configured);
    }
  }

  /** The smallest profile value that overflows the peer's window. */
  lemma SmallestUnsafe()
    ensures !WindowSafe(2147418113) && Opened(Some([]), 2147418113, 3).Some?
  {
    OverflowsAtOnce(2147418113);
  }
}
