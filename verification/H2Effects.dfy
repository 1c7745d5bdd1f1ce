/**
 What every event does to a stream, over whole runs: END_STREAM ends it, teardown takes it out,
 failures reach it with their own reason, and the caller gets the response that arrived.
 */
module H2Effects {
  import opened Prelude
  import opened Text
  import opened Hpack
  import H2Wire
  import opened H2Stream
  import C = H2Conn
  import P = H2Projection

  // ---- END_STREAM ----

  /** The frame ends its stream: DATA, or a header block that has a status. */
  predicate EndsStream(f: InFrame) {
    (f.InData? && f.end) || (f.InHeaders? && f.end && StatusOf(f.fields) != 0)
  }

  /** Such a frame has arrived since the request. */
  predicate EndArrived(ls: seq<Label>) {
    ls != [] &&
    var last := ls[|ls| - 1];
    !last.Request? && ((last.Arrive? && EndsStream(last.frame)) || EndArrived(ls[..|ls| - 1]))
  }

  /** The pipe has refused the payload of the frame that arrived last. */
  predicate Refused(ls: seq<Label>) {
    ls != [] &&
    var last := ls[|ls| - 1];
    !last.Request? && !last.Arrive? && (last.FeedBroken? || Refused(ls[..|ls| - 1]))
  }

  /** A reset, GOAWAY, read error or Close has come since the request. */
  predicate TornDown(ls: seq<Label>) {
    ls != [] &&
    var last := ls[|ls| - 1];
    !last.Request? && (Teardown(last) || TornDown(ls[..|ls| - 1]))
  }

  predicate Teardown(l: Label) {
    l.CloseConn? || l.ReadFail? || (l.Arrive? && (l.frame.InGoAway? || l.frame.InReset?))
  }

  /** The read loop is still to act on the end of the stream, or on a refused payload. */
  predicate Removing(w: Work) {
    match w
    case Delivering(fields, end) => end && StatusOf(fields) != 0
    case Feeding(_, end) => end
    case Granting(_, end) => end
    case Ending => true
    case Dropping => true
    case _ => false
  }

  predicate EffectInv(v: Single, ls: seq<Label>) {
    && (v.stream.Some? ==>
          var caller := v.stream.value.caller;
          v.stream.value.rclosed <==> caller.Closing? || caller.Closed?)
    && (v.live ==>
          && v.stream.Some?
          && (EndArrived(ls) ==> Removing(v.busy))
          && (Refused(ls) ==> v.busy.Dropping?)
          && !TornDown(ls)
          && !v.stream.value.caller.Gone? && !v.stream.value.caller.Closed?)
  }

  lemma MoreHistory(front: seq<Label>, l: Label)
    ensures var ls := front + [l];
            && (EndArrived(ls) <==> !l.Request? && ((l.Arrive? && EndsStream(l.frame)) || EndArrived(front)))
            && (Refused(ls) <==> !l.Request? && !l.Arrive? && (l.FeedBroken? || Refused(front)))
            && (TornDown(ls) <==> !l.Request? && (Teardown(l) || TornDown(front)))
  {
    assert (front + [l])[..|front|] == front;
  }

  lemma StepKeepsEffect(v: Single, front: seq<Label>, l: Label)
    requires EffectInv(v, front) && StreamInv(v) && Step(v, l).Some?
    ensures EffectInv(Step(v, l).value, front + [l])
  {
    if l.Arrive? {
      ArriveKeepsEffect(v, front, l);
    } else if IsLoopLabel(l) {
      LoopKeepsEffect(v, front, l);
    } else {
      CallKeepsEffect(v, front, l);
    }
  }

  lemma ArriveKeepsEffect(v: Single, front: seq<Label>, l: Label)
    requires EffectInv(v, front) && StreamInv(v) && Step(v, l).Some? && l.Arrive?
    ensures EffectInv(Step(v, l).value, front + [l])
  {
    MoreHistory(front, l);
  }

  lemma LoopKeepsEffect(v: Single, front: seq<Label>, l: Label)
    requires EffectInv(v, front) && StreamInv(v) && Step(v, l).Some? && IsLoopLabel(l)
    ensures EffectInv(Step(v, l).value, front + [l])
  {
    MoreHistory(front, l);
  }

  lemma CallKeepsEffect(v: Single, front: seq<Label>, l: Label)
    requires EffectInv(v, front) && StreamInv(v) && Step(v, l).Some? && !IsLoopLabel(l) && !l.Arrive?
    ensures EffectInv(Step(v, l).value, front + [l])
  {
    MoreHistory(front, l);
  }

  lemma {:induction false} RunKeepsEffect(ls: seq<Label>)
    requires Exec(Initial(), ls).Some?
    ensures StreamInv(Exec(Initial(), ls).value) && EffectInv(Exec(Initial(), ls).value, ls)
  {
    if ls != [] {
      var front, last := ls[..|ls| - 1], ls[|ls| - 1];
      RunKeepsEffect(front);
      assert front + [last] == ls;
      StepKeepsInv(Exec(Initial(), front).value, last);
      StepKeepsEffect(Exec(Initial(), front).value, front, last);
    }
  }

  /**
   END_STREAM takes effect: once a frame that carries it has arrived and the read loop is done
   with it, the stream is registered no longer. So does a refused payload, and so, at once, do
   a reset, GOAWAY, a read error and Close; and a caller that has left or closed its body.
   */
  lemma EventsTakeEffect(ls: seq<Label>, v: Single)
    requires Exec(Initial(), ls) == Some(v)
    ensures EndArrived(ls) && (v.busy.Free? || v.busy.Stopped?) ==> !v.live
    ensures Refused(ls) && (v.busy.Free? || v.busy.Stopped?) ==> !v.live
    ensures TornDown(ls) ==> !v.live
    ensures v.stream.Some? && (v.stream.value.caller.Gone? || v.stream.value.caller.Closed?) ==> !v.live
    ensures v.stream.Some? ==>
              (v.stream.value.rclosed <==> v.stream.value.caller.Closing? || v.stream.value.caller.Closed?)
  {
    RunKeepsEffect(ls);
  }

  /** The first error offered to a caller is the one it takes: later ones do not replace it. */
  lemma FirstErrorStays(v: Single, l: Label)
    requires v.stream.Some? && v.stream.value.errs.Some? && Step(v, l).Some? && !l.TakeError?
    ensures Step(v, l).value.stream.Some? && Step(v, l).value.stream.value.errs == v.stream.value.errs
  {
    match l
    case Arrive(_, _) =>
    case _ => if !IsLoopLabel(l) { }
  }

  /** And it is the one the caller then leaves with. */
  lemma TakesTheError(v: Single, l: Label)
    requires l.TakeError? && Step(v, l).Some?
    ensures v.stream.Some? && v.stream.value.caller.Waiting? && v.stream.value.errs.Some?
    ensures Step(v, l).value.stream.Some?
    ensures Step(v, l).value.stream.value.caller == Leaving(v.stream.value.errs.value)
  {
  }

  /** The label neither brings news to the read loop nor takes the stream out by another route. */
  predicate Undisturbed(l: Label) {
    && !l.Arrive? && !l.Request? && !l.CloseConn? && !l.ReadFail?
    && !l.Leave? && !l.DropReader? && !l.FeedBroken?
  }

  predicate AllUndisturbed(ls: seq<Label>) {
    forall i :: 0 <= i < |ls| ==> Undisturbed(ls[i])
  }

  /** From the frame's arrival on: registered and about to be finished, or finished. */
  predicate OnItsWay(v: Single) {
    v.stream.Some? &&
    if v.live then Removing(v.busy) && !v.busy.Dropping? else v.stream.value.finished
  }

  lemma {:induction false} StaysOnItsWay(v: Single, rest: seq<Label>)
    requires OnItsWay(v) && AllUndisturbed(rest) && Exec(v, rest).Some?
    ensures OnItsWay(Exec(v, rest).value)
  {
    if rest != [] {
      StaysOnItsWay(v, rest[..|rest| - 1]);
      StepOnItsWay(Exec(v, rest[..|rest| - 1]).value, rest[|rest| - 1]);
    }
  }

  lemma StepOnItsWay(v: Single, l: Label)
    requires OnItsWay(v) && Undisturbed(l) && Step(v, l).Some?
    ensures OnItsWay(Step(v, l).value)
  {
  }

  /**
   And it ends the stream as finished: when the stream is registered as the frame arrives, its
   pipe takes the payload whole, and nothing else takes the stream out meanwhile, then once the
   read loop is done the stream is finished, so that CleanEndIff says how its pipe ends.
   */
  lemma EndFinishes(v: Single, l: Label, rest: seq<Label>, d: Single)
    requires v.live && v.stream.Some? && l.Arrive? && EndsStream(l.frame) && Step(v, l).Some?
    requires AllUndisturbed(rest) && Exec(Step(v, l).value, rest) == Some(d) && d.busy.Free?
    ensures !d.live && d.stream.Some? && d.stream.value.finished
  {
    assert OnItsWay(Step(v, l).value);
    StaysOnItsWay(Step(v, l).value, rest);
  }

  // ---- Failures come with their own reason ----

  /** What the event gives as a reason to the streams it fails. */
  function CauseOf(l: Label): Option<Failure> {
    match l
    case CloseConn => Some(ConnClosed)
    case ReadFail => Some(ReadFailed)
    case Cancel(_) => Some(Cancelled)
    case Arrive(InGoAway(code), _) => Some(GoAway(code))
    case Arrive(InReset(_, code), _) => Some(StreamReset(code))
    case Arrive(InHeaders(_, fields, _), _) => if StatusOf(fields) == 0 then Some(MissingStatus) else None
    case _ => None
  }

  /** An event since the request, or the request's own failed write, has this reason. */
  predicate Caused(ls: seq<Label>, why: Failure) {
    ls != [] &&
    var last := ls[|ls| - 1];
    if last.Request? then why == WriteFailed && last.sent < H2Wire.FrameCount(last.body)
    else CauseOf(last) == Some(why) || Caused(ls[..|ls| - 1], why)
  }

  predicate Met(v: Single, st: Stream, why: Failure) {
    || why in st.sends || why in st.breaks
    || st.errs == Some(why) || st.wend == Some(Broken(why))
    || st.caller == Leaving(why) || st.caller == Gone(why)
    || (why == MissingStatus && v.busy.Delivering? && StatusOf(v.busy.fields) == 0)
  }

  ghost predicate CauseInv(v: Single, ls: seq<Label>) {
    v.stream.Some? ==> forall why :: Met(v, v.stream.value, why) ==> Caused(ls, why)
  }

  lemma MoreCauses(front: seq<Label>, l: Label, why: Failure)
    ensures Caused(front + [l], why) <==>
              if l.Request? then why == WriteFailed && l.sent < H2Wire.FrameCount(l.body)
              else CauseOf(l) == Some(why) || Caused(front, why)
  {
    assert (front + [l])[..|front|] == front;
  }

  /** Each reason a stream meets after a step it met before, or the step brought it. */
  lemma ActMeets(v: Single, st: Stream, act: Act, why: Failure)
    requires v.stream == Some(st) && Owed(st, act) && Met(v, Perform(st, act), why)
    ensures Met(v, st, why)
  {
  }

  /** Taking a block brings no reason but that of a missing :status. */
  lemma BlockMeets(st: Stream, fields: seq<Field>, why: Failure)
    requires why in TakeBlock(st, fields).sends
    ensures why in st.sends || (why == MissingStatus && StatusOf(fields) == 0)
  {
  }

  lemma DeliverMeets(v: Single, l: Label, why: Failure)
    requires v.stream.Some? && l.Deliver? && Step(v, l).Some?
    requires Met(Step(v, l).value, Step(v, l).value.stream.value, why)
    ensures Met(v, v.stream.value, why)
  {
    var st, d := v.stream.value, Step(v, l).value.stream.value;
    assert d == TakeBlock(st, v.busy.fields);
    assert d.breaks == st.breaks && d.errs == st.errs && d.wend == st.wend && d.caller == st.caller;
    if why in d.sends { BlockMeets(st, v.busy.fields, why); }
  }

  lemma LoopMeets(v: Single, l: Label, why: Failure)
    requires v.stream.Some? && IsLoopLabel(l) && !l.Deliver? && Step(v, l).Some?
    requires Step(v, l).value.stream.Some? && Met(Step(v, l).value, Step(v, l).value.stream.value, why)
    ensures Met(v, v.stream.value, why)
  {
  }

  lemma CallMeets(v: Single, l: Label, why: Failure)
    requires v.stream.Some? && RefLabel(l) && !l.Do? && Step(v, l).Some?
    requires Step(v, l).value.stream.Some? && Met(Step(v, l).value, Step(v, l).value.stream.value, why)
    ensures Met(v, v.stream.value, why) || CauseOf(l) == Some(why)
  {
  }

  lemma EventMeets(v: Single, l: Label, why: Failure)
    requires StreamInv(v) && (l.Arrive? || l.CloseConn? || l.ReadFail?) && Step(v, l).Some?
    requires Step(v, l).value.stream.Some? && Met(Step(v, l).value, Step(v, l).value.stream.value, why)
    ensures v.stream.Some? && (Met(v, v.stream.value, why) || CauseOf(l) == Some(why))
  {
  }

  lemma RequestMeets(v: Single, l: Label, why: Failure)
    requires StreamInv(v) && l.Request? && Step(v, l).Some?
    requires Met(Step(v, l).value, Step(v, l).value.stream.value, why)
    ensures why == WriteFailed && l.sent < H2Wire.FrameCount(l.body)
  {
  }

  lemma StepKeepsCause(v: Single, front: seq<Label>, l: Label)
    requires StreamInv(v) && CauseInv(v, front) && Step(v, l).Some?
    ensures CauseInv(Step(v, l).value, front + [l])
  {
    var d := Step(v, l).value;
    if d.stream.Some? {
      forall why | Met(d, d.stream.value, why) ensures Caused(front + [l], why) {
        MoreCauses(front, l, why);
        if l.Request? {
          RequestMeets(v, l, why);
        } else if l.Do? {
          ActMeets(v, v.stream.value, l.act, why);
        } else if l.Deliver? {
          DeliverMeets(v, l, why);
        } else if IsLoopLabel(l) {
          LoopMeets(v, l, why);
        } else if RefLabel(l) {
          CallMeets(v, l, why);
        } else {
          EventMeets(v, l, why);
        }
      }
    }
  }

  lemma {:induction false} RunKeepsCause(ls: seq<Label>)
    requires Exec(Initial(), ls).Some?
    ensures StreamInv(Exec(Initial(), ls).value) && CauseInv(Exec(Initial(), ls).value, ls)
  {
    if ls != [] {
      var front, last := ls[..|ls| - 1], ls[|ls| - 1];
      RunKeepsCause(front);
      assert front + [last] == ls;
      StepKeepsInv(Exec(Initial(), front).value, last);
      StepKeepsCause(Exec(Initial(), front).value, front, last);
    }
  }

  /** Every error a caller gets, from RoundTrip or from its body, is the reason of an event of its own stream. */
  lemma ErrorsHaveCauses(ls: seq<Label>, v: Single, why: Failure)
    requires Exec(Initial(), ls) == Some(v) && v.stream.Some?
    requires v.stream.value.caller == Leaving(why) || v.stream.value.caller == Gone(why)
             || v.stream.value.wend == Some(Broken(why))
    ensures Caused(ls, why)
  {
    RunKeepsCause(ls);
    assert Met(v, v.stream.value, why);
  }

  // ---- On a shared connection ----

  /** Between frames of a shared connection, every event has taken effect on the stream it concerns. */
  lemma EventsTakeEffectOnConn(settings: seq<H2Wire.Setting>, window: nat, ls: seq<Label>, c: C.Conn, r: nat)
    requires C.Exec(C.Open(settings, window), ls) == Some(c) && |c.objs| <= C.MAX_STREAMS && r < |c.objs|
    ensures EndArrived(P.Own(ls, r)) && !c.loop.Busy? ==> !P.Live(c, r)
    ensures Refused(P.Own(ls, r)) && !c.loop.Busy? ==> !P.Live(c, r)
    ensures TornDown(P.Own(ls, r)) ==> !P.Live(c, r)
    ensures c.objs[r].caller.Gone? || c.objs[r].caller.Closed? ==> !P.Live(c, r)
  {
    P.RunProjects(settings, window, ls, r);
    EventsTakeEffect(P.Own(ls, r), P.View(c, r));
  }

  /** Every error on a shared connection has its cause among the events of its own stream. */
  lemma ErrorsHaveCausesOnConn(settings: seq<H2Wire.Setting>, window: nat, ls: seq<Label>, c: C.Conn, r: nat,
                               why: Failure)
    requires C.Exec(C.Open(settings, window), ls) == Some(c) && |c.objs| <= C.MAX_STREAMS && r < |c.objs|
    requires c.objs[r].caller == Leaving(why) || c.objs[r].caller == Gone(why) || c.objs[r].wend == Some(Broken(why))
    ensures Caused(P.Own(ls, r), why)
  {
    P.RunProjects(settings, window, ls, r);
    ErrorsHaveCauses(P.Own(ls, r), P.View(c, r), why);
  }

  lemma {:induction false} ExecSplits(v: Single, a: seq<Label>, b: seq<Label>)
    requires Exec(v, a + b).Some?
    ensures Exec(v, a).Some? && Exec(v, a + b) == Exec(Exec(v, a).value, b)
    decreases |b|
  {
    if b == [] {
      assert a + b == a;
    } else {
      assert (a + b)[..|a + b| - 1] == a + b[..|b| - 1];
      ExecSplits(v, a, b[..|b| - 1]);
    }
  }

  /** A stream whose own events end with END_STREAM arriving for it while registered, undisturbed, is finished. */
  lemma EndFinishesOnConn(settings: seq<H2Wire.Setting>, window: nat, ls: seq<Label>, c: C.Conn, r: nat,
                          front: seq<Label>, l: Label, rest: seq<Label>)
    requires C.Exec(C.Open(settings, window), ls) == Some(c) && |c.objs| <= C.MAX_STREAMS && r < |c.objs|
    requires c.loop.Idle? && P.Own(ls, r) == front + [l] + rest
    requires Exec(Initial(), front).Some? ==> Exec(Initial(), front).value.live
    requires l.Arrive? && EndsStream(l.frame) && AllUndisturbed(rest)
    ensures !P.Live(c, r) && c.objs[r].finished
  {
    P.RunProjects(settings, window, ls, r);
    ExecSplits(Initial(), front + [l], rest);
    ExecSplits(Initial(), front, [l]);
    var v := Exec(Initial(), front).value;
    assert [l][..0] == [] && Exec(v, []) == Some(v) && Exec(v, [l]) == Step(v, l);
    RunKeepsEffect(front);
    EndFinishes(v, l, rest, P.View(c, r));
  }
}
