/**
 How a stream that END_STREAM finished shows its end: cleanly exactly when nothing had failed
 it before.
 */
module H2Fate {
  import opened Prelude
  import H2Wire
  import opened H2Stream
  import C = H2Conn
  import P = H2Projection

  /** The event fails the stream: teardown, reset, or a block without :status. */
  predicate IsFailure(l: Label) {
    || l.CloseConn?
    || l.ReadFail?
    || (l.Arrive? && (l.frame.InGoAway? || l.frame.InReset?))
    || (l.Arrive? && l.frame.InHeaders? && StatusOf(l.frame.fields) == 0)
  }

  /** Such an event happened since the request was written. */
  predicate SawFailure(ls: seq<Label>) {
    ls != [] &&
    var last := ls[|ls| - 1];
    if last.Request? then false else IsFailure(last) || SawFailure(ls[..|ls| - 1])
  }

  /** The pipe ended in end-of-file, or is about to. */
  predicate EndsClean(st: Stream) {
    st.wend == Some(Eof) || (st.wend.None? && st.closes > 0)
  }

  /** The read loop has met a block without :status and is not done with it. */
  predicate FailsBlock(w: Work) {
    w.Failing? || (w.Delivering? && StatusOf(w.fields) == 0)
  }

  predicate OnlyMissingStatus(st: Stream) {
    (forall i :: 0 <= i < |st.sends| ==> st.sends[i] == MissingStatus)
    && (forall i :: 0 <= i < |st.breaks| ==> st.breaks[i] == MissingStatus)
  }

  /** While the stream is registered, its pipe is broken exactly when it was failed. */
  predicate LiveFate(v: Single, st: Stream, failed: bool) {
    && st.closes == 0
    && st.wend != Some(Eof)
    && OnlyMissingStatus(st)
    && (v.busy.Failing? ==> OwesMissingStatus(st) || IsBroken(st))
    && (if FailsBlock(v.busy) then failed else IsBroken(st) <==> failed)
  }

  /** Once END_STREAM has removed it, its end is decided. */
  predicate FinishedFate(v: Single, st: Stream) {
    && (v.busy.Free? || v.busy.Stopped?)
    && st.sends == [] && st.breaks == []
    && (IsBroken(st) || EndsClean(st))
  }

  ghost predicate EndedAs(ls: seq<Label>, st: Stream, k: nat) {
    FinishedAt(ls, st.fed, k) && (IsBroken(st) <==> SawFailure(ls[..k]))
  }

  ghost predicate FateInv(v: Single, ls: seq<Label>) {
    v.stream.Some? ==>
      var st := v.stream.value;
      && (!v.busy.Failing? ==> !OwesMissingStatus(st))
      && (v.live ==> LiveFate(v, st, SawFailure(ls)))
      && (st.finished ==> FinishedFate(v, st) && exists k: nat :: EndedAs(ls, st, k))
  }

  // ---- One step ----

  lemma EndedStays(front: seq<Label>, l: Label, st: Stream, d: Stream)
    requires exists k: nat :: EndedAs(front, st, k)
    requires d.fed == st.fed && (IsBroken(d) <==> IsBroken(st))
    ensures exists k: nat :: EndedAs(front + [l], d, k)
  {
    var k: nat :| EndedAs(front, st, k);
    var ls := front + [l];
    assert ls[..k] == front[..k] && ls[k] == front[k];
    assert EndedAs(ls, d, k);
  }

  lemma SawMore(front: seq<Label>, l: Label)
    ensures SawFailure(front + [l]) <==> !l.Request? && (IsFailure(l) || SawFailure(front))
  {
    assert (front + [l])[..|front|] == front;
  }

  /** What one pending act keeps: the fate of a registered stream, and of a finished one. */
  ghost predicate KeepsFate(v: Single, st: Stream, d: Stream, failed: bool) {
    && (!v.busy.Failing? ==> !OwesMissingStatus(d))
    && (v.live && LiveFate(v, st, failed) ==> LiveFate(v, d, failed))
    && (FinishedFate(v, st) ==> FinishedFate(v, d) && (IsBroken(d) <==> IsBroken(st)))
  }

  lemma CloseKeepsFate(v: Single, st: Stream, failed: bool)
    requires v.stream == Some(st) && Owed(st, CloseBody) && (!v.busy.Failing? ==> !OwesMissingStatus(st))
    ensures KeepsFate(v, st, Perform(st, CloseBody), failed)
  {
  }

  lemma BreakKeepsFate(v: Single, st: Stream, k: nat, failed: bool)
    requires v.stream == Some(st) && Owed(st, CloseErr(k)) && (!v.busy.Failing? ==> !OwesMissingStatus(st))
    ensures KeepsFate(v, st, Perform(st, CloseErr(k)), failed)
  {
  }

  lemma SendKeepsFate(v: Single, st: Stream, k: nat, failed: bool)
    requires v.stream == Some(st) && Owed(st, SendErr(k)) && (!v.busy.Failing? ==> !OwesMissingStatus(st))
    ensures KeepsFate(v, st, Perform(st, SendErr(k)), failed)
  {
  }

  lemma ActKeepsFate(v: Single, st: Stream, act: Act, failed: bool)
    requires v.stream == Some(st) && Owed(st, act) && (!v.busy.Failing? ==> !OwesMissingStatus(st))
    ensures KeepsFate(v, st, Perform(st, act), failed)
  {
    match act
    case CloseBody => CloseKeepsFate(v, st, failed);
    case CloseErr(k) => BreakKeepsFate(v, st, k, failed);
    case SendErr(k) => SendKeepsFate(v, st, k, failed);
  }

  lemma CallKeepsFate(v: Single, front: seq<Label>, l: Label)
    requires FateInv(v, front) && Step(v, l).Some? && RefLabel(l) && !l.Do?
    ensures FateInv(Step(v, l).value, front + [l])
  {
    var st, d := v.stream.value, Step(v, l).value.stream.value;
    SawMore(front, l);
    if st.finished { EndedStays(front, l, st, d); }
  }

  lemma WorkKeepsFate(v: Single, front: seq<Label>, l: Label)
    requires FateInv(v, front) && Step(v, l).Some? && l.Do?
    ensures FateInv(Step(v, l).value, front + [l])
  {
    var st := v.stream.value;
    SawMore(front, l);
    ActKeepsFate(v, st, l.act, SawFailure(front));
    if st.finished { EndedStays(front, l, st, Perform(st, l.act)); }
  }

  lemma HandlingKeepsFate(v: Single, front: seq<Label>, l: Label)
    requires FateInv(v, front) && Step(v, l).Some? && IsLoopLabel(l) && !l.EndStream?
    ensures FateInv(Step(v, l).value, front + [l])
  {
    SawMore(front, l);
  }

  lemma OneIsMissingStatus(owed: seq<Failure>)
    requires forall i :: 0 <= i < |owed| ==> owed[i] == MissingStatus
    ensures owed != [] ==> MissingStatus in owed
  {
    if owed != [] {
      assert owed[0] in owed;
    }
  }

  lemma NothingOwed(st: Stream)
    requires OnlyMissingStatus(st) && !OwesMissingStatus(st)
    ensures st.sends == [] && st.breaks == []
  {
    OneIsMissingStatus(st.sends);
    OneIsMissingStatus(st.breaks);
  }

  lemma EndKeepsFate(v: Single, front: seq<Label>, l: Label)
    requires HistoryInv(v, front) && FateInv(v, front) && Step(v, l).Some? && l.EndStream?
    ensures FateInv(Step(v, l).value, front + [l])
  {
    SawMore(front, l);
    if v.live {
      NothingOwed(v.stream.value);
      var ls := front + [l];
      assert ls[..|front|] == front;
      assert EndedAs(ls, Step(v, l).value.stream.value, |front|);
    }
  }

  lemma ArriveKeepsFate(v: Single, front: seq<Label>, l: Label)
    requires HistoryInv(v, front) && FateInv(v, front) && Step(v, l).Some? && l.Arrive?
    ensures FateInv(Step(v, l).value, front + [l])
  {
    SawMore(front, l);
    if v.stream.Some? && v.stream.value.finished {
      EndedStays(front, l, v.stream.value, v.stream.value);
    }
  }

  lemma TeardownKeepsFate(v: Single, front: seq<Label>, l: Label)
    requires HistoryInv(v, front) && FateInv(v, front) && Step(v, l).Some?
    requires l.CloseConn? || l.ReadFail? || l.Request?
    ensures FateInv(Step(v, l).value, front + [l])
  {
    SawMore(front, l);
    if v.stream.Some? && v.stream.value.finished {
      EndedStays(front, l, v.stream.value, v.stream.value);
    }
  }

  lemma StepKeepsFate(v: Single, front: seq<Label>, l: Label)
    requires HistoryInv(v, front) && FateInv(v, front) && Step(v, l).Some?
    ensures FateInv(Step(v, l).value, front + [l])
  {
    if l.EndStream? {
      EndKeepsFate(v, front, l);
    } else if IsLoopLabel(l) {
      HandlingKeepsFate(v, front, l);
    } else if l.Do? {
      WorkKeepsFate(v, front, l);
    } else if l.Arrive? {
      ArriveKeepsFate(v, front, l);
    } else if RefLabel(l) {
      CallKeepsFate(v, front, l);
    } else {
      TeardownKeepsFate(v, front, l);
    }
  }

  // ---- Every run ----

  lemma {:induction false} RunKeepsFate(ls: seq<Label>)
    requires Exec(Initial(), ls).Some?
    ensures HistoryInv(Exec(Initial(), ls).value, ls) && FateInv(Exec(Initial(), ls).value, ls)
  {
    RunKeepsHistory(ls);
    if ls != [] {
      var front, last := ls[..|ls| - 1], ls[|ls| - 1];
      RunKeepsFate(front);
      StepKeepsFate(Exec(Initial(), front).value, front, last);
      assert front + [last] == ls;
    }
  }

  /**
   The exact end of every stream that END_STREAM finished: its pipe ends in end-of-file, or is
   about to, if and only if no reset, GOAWAY, read error, Close or block without :status came
   between the request and END_STREAM; otherwise its pipe is broken.
   */
  lemma CleanEndIff(ls: seq<Label>, v: Single)
    requires Exec(Initial(), ls) == Some(v) && v.stream.Some? && v.stream.value.finished
    ensures exists k: nat ::
              && FinishedAt(ls, v.stream.value.fed, k)
              && (EndsClean(v.stream.value) <==> !SawFailure(ls[..k]))
              && (IsBroken(v.stream.value) <==> SawFailure(ls[..k]))
  {
    RunKeepsFate(ls);
    var st := v.stream.value;
    var k: nat :| EndedAs(ls, st, k);
    assert EndsClean(st) <==> !IsBroken(st);
  }

  /** The same on a shared connection. */
  lemma CleanEndOnConnIff(settings: seq<H2Wire.Setting>, window: nat, ls: seq<Label>, c: C.Conn, r: nat)
    requires C.Exec(C.Open(settings, window), ls) == Some(c)
    requires |c.objs| <= C.MAX_STREAMS && r < |c.objs| && c.objs[r].finished
    ensures exists k: nat ::
              && FinishedAt(P.Own(ls, r), c.objs[r].fed, k)
              && (EndsClean(c.objs[r]) <==> !SawFailure(P.Own(ls, r)[..k]))
              && (IsBroken(c.objs[r]) <==> SawFailure(P.Own(ls, r)[..k]))
  {
    P.RunProjects(settings, window, ls, r);
    CleanEndIff(P.Own(ls, r), P.View(c, r));
  }

  /** Between frames no stream owes a failure for a block without :status. */
  lemma IdleOwesNoStatus(settings: seq<H2Wire.Setting>, window: nat, ls: seq<Label>, c: C.Conn, r: nat)
    requires C.Exec(C.Open(settings, window), ls) == Some(c) && c.loop.Idle?
    requires |c.objs| <= C.MAX_STREAMS && r < |c.objs|
    ensures !OwesMissingStatus(c.objs[r])
  {
    P.RunProjects(settings, window, ls, r);
    RunKeepsFate(P.Own(ls, r));
  }
}
