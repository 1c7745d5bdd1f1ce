/**
 Demultiplexing is non-interfering: what one caller sees on a connection shared with any
 number of other streams is what it would see alone, given only its own frames and actions and
 the events that end the whole connection.
 */
module H2Projection {
  import opened Prelude
  import H2Wire
  import S = H2Stream
  import opened H2Conn

  predicate Live(c: Conn, r: nat) {
    IdOf(r) in c.streams && c.streams[IdOf(r)] == r
  }

  function WorkFor(c: Conn, r: nat): S.Work {
    match c.loop
    case Idle => S.Free
    case Stopped => S.Stopped
    case Busy(_, ref, w) => if ref == r then w else S.Free
  }

  /** The connection as the r-th stream experiences it. */
  function View(c: Conn, r: nat): S.Single {
    S.Single(c.closed, if r < |c.objs| then Some(c.objs[r]) else None, Live(c, r), WorkFor(c, r))
  }

  /** The step concerns the r-th stream: it names it, or ends the whole connection. */
  predicate Concerns(l: S.Label, r: nat) {
    || RefOf(l) == Some(r)
    || IdNamed(l) == Some(IdOf(r))
    || l.CloseConn?
    || l.ReadFail?
    || (l.Arrive? && l.frame.InGoAway?)
  }

  function Own(ls: seq<S.Label>, r: nat): seq<S.Label> {
    if ls == [] then []
    else Own(ls[..|ls| - 1], r) + (if Concerns(ls[|ls| - 1], r) then [ls[|ls| - 1]] else [])
  }

  /** The shared step and the stream's own step agree. */
  ghost predicate Agrees(c: Conn, l: S.Label, d: Conn, r: nat) {
    if Concerns(l, r) then S.Step(View(c, r), l) == Some(View(d, r)) else View(d, r) == View(c, r)
  }

  ghost predicate Small(c: Conn, r: nat) {
    ConnInv(c) && |c.objs| <= MAX_STREAMS && r < MAX_STREAMS
  }

  lemma IdInjective(a: nat, b: nat)
    requires a < MAX_STREAMS && b < MAX_STREAMS
    ensures IdOf(a) == IdOf(b) <==> a == b
  {
    IdOfSmall(a);
    IdOfSmall(b);
  }

  lemma LiveIsKnown(c: Conn, r: nat)
    requires Small(c, r)
    ensures Live(c, r) ==> r < |c.objs|
    ensures Live(c, r) <==> Find(c, IdOf(r)) == Some(r)
    ensures Live(c, r) <==> IdOf(r) in c.streams
    ensures Live(c, r) <==> r in c.streams.Values
    ensures r < |c.objs| ==> (View(c, r).stream == Some(c.objs[r]))
  {
    if IdOf(r) in c.streams {
      var q := c.streams[IdOf(r)];
      assert IdOf(q) == IdOf(r) && q < |c.objs|;
      IdInjective(q, r);
    }
    if r in c.streams.Values {
      var id :| id in c.streams && c.streams[id] == r;
      assert id == IdOf(r);
    }
  }

  /** Removing one stream is the stream's own removal, and invisible to the others. */
  lemma RemoveProjects(c: Conn, q: nat, finished: bool, r: nat)
    requires Small(c, r) && q < |c.objs|
    ensures View(Remove(c, IdOf(q), finished), r) ==
            if q == r then S.Remove(View(c, r), finished) else View(c, r)
  {
    LiveIsKnown(c, r);
    LiveIsKnown(c, q);
    IdInjective(q, r);
  }

  lemma FailOneProjects(c: Conn, id: nat, why: S.Failure, r: nat)
    requires Small(c, r)
    ensures Live(c, r) ==> View(c, r).stream.Some?
    ensures View(FailOne(c, id, why), r) == if id == IdOf(r) then S.Fail(View(c, r), why) else View(c, r)
  {
    LiveIsKnown(c, r);
    match Find(c, id)
    case None =>
    case Some(q) => IdInjective(q, r);
  }

  lemma FailAllProjects(c: Conn, why: S.Failure, r: nat)
    requires Small(c, r)
    ensures Live(c, r) ==> View(c, r).stream.Some?
    ensures View(FailAll(c, why), r) == S.Fail(View(c, r), why).(closed := true, live := false)
  {
    LiveIsKnown(c, r);
  }

  lemma RequestProjects(c: Conn, l: S.Label, r: nat)
    requires Small(c, r) && l.Request? && Step(c, l).Some? && |c.objs| < MAX_STREAMS
    ensures Agrees(c, l, Step(c, l).value, r)
  {
    LiveIsKnown(c, r);
    IdInjective(|c.objs|, r);
  }

  lemma ArriveProjects(c: Conn, l: S.Label, r: nat)
    requires Small(c, r) && l.Arrive? && Step(c, l).Some?
    ensures Agrees(c, l, Step(c, l).value, r)
  {
    LiveIsKnown(c, r);
    match l.frame
    case InGoAway(code) => FailAllProjects(c, S.GoAway(code), r);
    case InReset(id, code) => FailOneProjects(c, id, S.StreamReset(code), r);
    case InHeaders(id, _, _) =>
      if Find(c, id).Some? { IdInjective(Find(c, id).value, r); }
    case InData(id, _, _) =>
      if Find(c, id).Some? { IdInjective(Find(c, id).value, r); }
    case _ =>
  }

  lemma HandlerProjects(c: Conn, l: S.Label, r: nat)
    requires Small(c, r) && S.IsLoopLabel(l) && Step(c, l).Some?
    ensures Agrees(c, l, Step(c, l).value, r)
  {
    if l.EndStream? || l.DropBroken? { TakingProjects(c, l, r); } else { HandlingProjects(c, l, r); }
  }

  lemma TakingProjects(c: Conn, l: S.Label, r: nat)
    requires Small(c, r) && (l.EndStream? || l.DropBroken?) && Step(c, l).Some?
    ensures Agrees(c, l, Step(c, l).value, r)
  {
    IdInjective(c.loop.ref, r);
    LiveIsKnown(c, r);
    RemoveProjects(c, c.loop.ref, l.EndStream?, r);
  }

  lemma HandlingProjects(c: Conn, l: S.Label, r: nat)
    requires Small(c, r) && S.IsLoopLabel(l) && !l.EndStream? && !l.DropBroken? && Step(c, l).Some?
    ensures Agrees(c, l, Step(c, l).value, r)
  {
    IdInjective(c.loop.ref, r);
    LiveIsKnown(c, r);
  }

  lemma UpdateProjects(c: Conn, q: nat, st: S.Stream, r: nat)
    requires Small(c, r) && q < |c.objs|
    ensures Small(c.(objs := c.objs[q := st]), r)
    ensures View(c.(objs := c.objs[q := st]), r) ==
            if q == r then View(c, r).(stream := Some(st)) else View(c, r)
  {
  }

  lemma CallerProjects(c: Conn, l: S.Label, r: nat)
    requires Small(c, r) && CallerStep(c, l).Some? && !l.Request? && !S.IsLoopLabel(l)
    ensures Agrees(c, l, CallerStep(c, l).value, r)
  {
    var q := RefOf(l).value;
    var st := S.CallerStep(c.objs[q], l).value;
    LiveIsKnown(c, r);
    UpdateProjects(c, q, st, r);
    if S.Removes(l) {
      RemoveProjects(c.(objs := c.objs[q := st]), q, false, r);
    }
  }

  lemma StepProjects(c: Conn, l: S.Label, r: nat)
    requires Small(c, r) && Step(c, l).Some? && |Step(c, l).value.objs| <= MAX_STREAMS
    ensures Agrees(c, l, Step(c, l).value, r)
  {
    match l
    case Request(_, _, _, _, _) => RequestProjects(c, l, r);
    case Arrive(_, _) => ArriveProjects(c, l, r);
    case CloseConn => FailAllProjects(c, S.ConnClosed, r); LiveIsKnown(c, r);
    case ReadFail => FailAllProjects(c, S.ReadFailed, r); LiveIsKnown(c, r);
    case _ => if S.IsLoopLabel(l) { HandlerProjects(c, l, r); } else { CallerProjects(c, l, r); }
  }

  lemma {:induction false} RunKeepsInv(settings: seq<H2Wire.Setting>, window: nat, ls: seq<S.Label>)
    requires Exec(Open(settings, window), ls).Some?
    ensures ConnInv(Exec(Open(settings, window), ls).value)
  {
    if ls != [] {
      RunKeepsInv(settings, window, ls[..|ls| - 1]);
      StepKeepsInv(Exec(Open(settings, window), ls[..|ls| - 1]).value, ls[|ls| - 1]);
    }
  }

  /**
   Non-interference, over every run: any interleaving of frames, callers and teardown on any
   number of streams leaves the r-th stream, its caller, its channels and its pipe exactly as
   the single-stream machine run on that stream's own steps does.
   */
  lemma {:induction false} RunProjects(settings: seq<H2Wire.Setting>, window: nat, ls: seq<S.Label>, r: nat)
    requires Exec(Open(settings, window), ls).Some?
    requires |Exec(Open(settings, window), ls).value.objs| <= MAX_STREAMS && r < MAX_STREAMS
    ensures S.Exec(S.Initial(), Own(ls, r)) == Some(View(Exec(Open(settings, window), ls).value, r))
  {
    if ls != [] {
      var front, last := ls[..|ls| - 1], ls[|ls| - 1];
      var c := Exec(Open(settings, window), front).value;
      RunKeepsInv(settings, window, front);
      StepKeepsInv(c, last);
      RunProjects(settings, window, front, r);
      StepProjects(c, last, r);
      if Concerns(last, r) {
        var own := Own(ls, r);
        assert own[..|own| - 1] == Own(front, r) && own[|own| - 1] == last;
      } else {
        assert Own(ls, r) == Own(front, r);
      }
    }
  }

  // ---- Lifted to every stream of every run ----

  /** A caller blocked in RoundTrip on a shared connection is not lost by a peer that answers first. */
  lemma NoWaiterLostOnConn(settings: seq<H2Wire.Setting>, window: nat, ls: seq<S.Label>, r: nat)
    requires Exec(Open(settings, window), ls).Some?
    requires |Exec(Open(settings, window), ls).value.objs| <= MAX_STREAMS
    requires r < |Exec(Open(settings, window), ls).value.objs|
    requires S.AnswersFirst(Own(ls, r))
    ensures var c := Exec(Open(settings, window), ls).value;
            c.objs[r].caller.Waiting? ==>
              || Live(c, r)
              || WorkFor(c, r).Delivering?
              || c.objs[r].headers.Some?
              || c.objs[r].errs.Some?
              || c.objs[r].sends != []
  {
    RunProjects(settings, window, ls, r);
    S.NoWaiterLost(Own(ls, r));
  }

  /** On a shared connection too, end-of-file means END_STREAM and the whole body. */
  lemma EofOnConn(settings: seq<H2Wire.Setting>, window: nat, ls: seq<S.Label>, r: nat)
    requires Exec(Open(settings, window), ls).Some?
    requires |Exec(Open(settings, window), ls).value.objs| <= MAX_STREAMS
    requires r < |Exec(Open(settings, window), ls).value.objs|
    requires S.SeesEof(View(Exec(Open(settings, window), ls).value, r))
    ensures exists k: nat :: S.FinishedAt(Own(ls, r), Exec(Open(settings, window), ls).value.objs[r].got, k)
  {
    RunProjects(settings, window, ls, r);
    S.EofOnlyAfterEndStream(Own(ls, r));
  }

  // ---- Lost callers ----

  /** On a shared connection a step loses a caller exactly when it ends that caller's stream unanswered. */
  lemma LossOnConnIff(settings: seq<H2Wire.Setting>, window: nat, ls: seq<S.Label>, l: S.Label, r: nat)
    requires Exec(Open(settings, window), ls).Some? && Step(Exec(Open(settings, window), ls).value, l).Some?
    requires |Step(Exec(Open(settings, window), ls).value, l).value.objs| <= MAX_STREAMS && r < MAX_STREAMS
    requires !S.Lost(View(Exec(Open(settings, window), ls).value, r))
    ensures var c := Exec(Open(settings, window), ls).value;
            S.Lost(View(Step(c, l).value, r)) <==> Concerns(l, r) && S.EndsUnanswered(View(c, r), l)
  {
    var c := Exec(Open(settings, window), ls).value;
    RunKeepsInv(settings, window, ls);
    StepKeepsInv(c, l);
    RunProjects(settings, window, ls, r);
    S.RunKeepsHistory(Own(ls, r));
    StepProjects(c, l, r);
    if Concerns(l, r) {
      S.BecomesLostIff(View(c, r), l);
    }
  }

  /** The shortest such run on a new connection: empty DATA with END_STREAM as the only answer. */
  lemma UnansweredEndLosesCaller(settings: seq<H2Wire.Setting>, window: nat, block: H2Wire.Block)
    ensures var ls := [S.Request(0, [], block, [], 1), S.Arrive(S.InData(1, [], true), 0), S.EndStream(1)];
            Exec(Open(settings, window), ls).Some? && S.Lost(View(Exec(Open(settings, window), ls).value, 0))
  {
    var a, b, l := S.Request(0, [], block, [], 1), S.Arrive(S.InData(1, [], true), 0), S.EndStream(1);
    var c := Open(settings, window);
    var d := WriteRequest(c, block, [], 1);
    var e := d.(loop := Busy(1, 0, S.Ending));
    assert H2Wire.FrameCount([]) == 1 && IdOf(0) == 1;
    assert Step(c, a) == Some(d) && Step(d, b) == Some(e);
    assert [a][..0] == [] && [a, b][..1] == [a] && [a, b, l][..2] == [a, b];
    assert Exec(c, []) == Some(c) && Exec(c, [a]) == Some(d) && Exec(c, [a, b]) == Some(e);
    assert Exec(c, [a, b, l]) == Step(e, l);
  }
}
