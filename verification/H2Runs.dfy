/**
 What one goroutine does when nothing interrupts it, as functions on connection states, and
 the runs of the transition system they stand for.
 */
module H2Runs {
  import opened Prelude
  import Hpack
  import H2Wire
  import S = H2Stream
  import opened H2Conn

  /** The taken stream's pipe has been closed. */
  function Settled(c: Conn, ref: Option<nat>): Conn {
    if ref.Some? && ref.value < |c.objs| && c.objs[ref.value].closes > 0 then
      c.(objs := c.objs[ref.value := S.Perform(c.objs[ref.value], S.CloseBody)])
    else c
  }

  function FailedOne(c: Conn, id: nat, why: S.Failure): Conn {
    match Find(c, id)
    case None => c
    case Some(ref) => c.(streams := c.streams - {id}, objs := c.objs[ref := S.FailNow(c.objs[ref], why)])
  }

  function FailedAll(c: Conn, why: S.Failure): Conn {
    c.(closed := true, streams := map[],
       objs := seq(|c.objs|, r requires 0 <= r < |c.objs| =>
                 if r in c.streams.Values then S.FailNow(c.objs[r], why) else c.objs[r]))
  }

  /** handleHeaders from lookup to end. */
  function HandledHeaders(c: Conn, id: nat, fields: seq<Hpack.Field>, end: bool): Conn {
    match Find(c, id)
    case None => c
    case Some(ref) =>
      if S.StatusOf(fields) == 0 then c.(objs := c.objs[ref := S.FailNow(c.objs[ref], S.MissingStatus)])
      else
        var d := c.(objs := c.objs[ref := S.TakeBlock(c.objs[ref], fields)]);
        if end then Settled(Remove(d, id, true), Some(ref)) else d
  }

  /** handleData from the moment the pipe has taken everything. */
  function FinishedData(c: Conn, id: nat, n: nat, end: bool, written: nat): Conn
    requires written <= 2
  {
    var d := WriteControl(c, CreditFrames(id, n), written);
    (if end then Settled(Remove(d, id, true), Find(d, id)) else d).(loop := Idle)
  }

  /** handleData from the moment the pipe refused the payload. */
  function AbandonedData(c: Conn, id: nat): Conn {
    var d := if c.loop.Busy? && c.loop.ref < |c.objs| then
               c.(objs := c.objs[c.loop.ref := c.objs[c.loop.ref].(pending := [])])
             else c;
    Settled(Remove(d, id, false), Find(d, id)).(loop := Idle)
  }

  /** The end of RoundTrip after an error or a cancelled context: the step, and removeStream's close. */
  function LeftRoundTrip(c: Conn, ref: nat): Conn
    requires ref < |c.objs| && c.objs[ref].caller.Leaving?
  {
    var gone := c.(objs := c.objs[ref := c.objs[ref].(caller := S.Gone(c.objs[ref].caller.why))]);
    Settled(Remove(gone, IdOf(ref), false), Find(gone, IdOf(ref)))
  }

  predicate HoldsBody(st: S.Stream) {
    st.caller.Reading? || st.caller.Closed?
  }

  /** h2Body.Close: the reading side closed, then removeStream. */
  function ClosedBody(c: Conn, ref: nat): Conn
    requires ref < |c.objs| && HoldsBody(c.objs[ref])
  {
    var shut := c.(objs := c.objs[ref := c.objs[ref].(caller := S.Closed, rclosed := true)]);
    Settled(Remove(shut, IdOf(ref), false), Find(shut, IdOf(ref)))
  }

  /** What readLoop does with one frame; a DATA payload only gets as far as the pipe. */
  function Dispatched(c: Conn, f: S.InFrame, acks: nat): Conn
    requires acks <= |AckFrames(f)|
  {
    match f
    case InHeaders(id, fields, end) => HandledHeaders(c, id, fields, end)
    case InData(id, data, end) => (
      match Find(c, id)
      case None => c
      case Some(ref) =>
        if data == [] && end then Settled(Remove(c, id, true), Some(ref)) else OfferedData(c, id, ref, data, end)
    )
    case InReset(id, code) => FailedOne(c, id, S.StreamReset(code))
    case InGoAway(code) => FailedAll(c, S.GoAway(code))
    case _ => WriteControl(c, AckFrames(f), acks)
  }

  /** A payload has been offered to the pipe; an empty one is not. */
  function OfferedData(c: Conn, id: nat, ref: nat, data: seq<byte>, end: bool): Conn
    requires ref < |c.objs|
  {
    if data == [] then c
    else
      var st := c.objs[ref];
      c.(objs := c.objs[ref := st.(pending := data, fed := st.fed + data)],
         loop := Busy(id, ref, S.Feeding(|data|, end)))
  }

  /** readLoop after a failed read. */
  function ReadingFailed(c: Conn): Conn {
    FailedAll(c, S.ReadFailed).(loop := Stopped)
  }

  // ---- They are runs ----

  lemma ExecOne(c: Conn, l: S.Label)
    ensures Exec(c, [l]) == Step(c, l)
  {
    assert [l][..0] == [] && Exec(c, []) == Some(c);
  }

  lemma ExecNext(c: Conn, before: seq<S.Label>, d: Conn, l: S.Label)
    requires Exec(c, before) == Some(d)
    ensures Exec(c, before + [l]) == Step(d, l)
  {
    assert (before + [l])[..|before + [l]| - 1] == before;
  }

  lemma ExecTwo(c: Conn, a: S.Label, b: S.Label)
    requires Step(c, a).Some?
    ensures Exec(c, [a, b]) == Step(Step(c, a).value, b)
  {
    assert [a, b][..1] == [a] && [a][..0] == [];
    assert Exec(c, []) == Some(c);
    assert Exec(c, [a]) == Step(c, a);
  }

  lemma {:induction false} ExecConcat(c: Conn, a: seq<S.Label>, b: seq<S.Label>)
    requires Exec(c, a).Some?
    ensures Exec(c, a + b) == Exec(Exec(c, a).value, b)
    decreases |b|
  {
    if b == [] {
      assert a + b == a;
    } else {
      assert (a + b)[..|a + b| - 1] == a + b[..|b| - 1];
      ExecConcat(c, a, b[..|b| - 1]);
    }
  }

  /** Signalling a failure that was just taken on: two steps, whatever else is owed. */
  lemma FailureRun(c: Conn, ref: nat, why: S.Failure)
    requires ref < |c.objs|
    ensures var st := c.objs[ref];
            Exec(c.(objs := c.objs[ref := S.OweError(st, why)]),
                 [S.Do(ref, S.SendErr(|st.sends|)), S.Do(ref, S.CloseErr(|st.breaks|))])
            == Some(c.(objs := c.objs[ref := S.FailNow(st, why)]))
  {
    var st := c.objs[ref];
    var owed := S.OweError(st, why);
    var offered := S.Perform(owed, S.SendErr(|st.sends|));
    S.FailNowSettles(st, why);
    var d := c.(objs := c.objs[ref := owed]);
    var e := c.(objs := c.objs[ref := offered]);
    assert Step(d, S.Do(ref, S.SendErr(|st.sends|))) == Some(e) by {
      assert d.objs[ref := offered] == e.objs;
    }
    ExecTwo(d, S.Do(ref, S.SendErr(|st.sends|)), S.Do(ref, S.CloseErr(|st.breaks|)));
    assert e.objs[ref := S.FailNow(st, why)] == c.objs[ref := S.FailNow(st, why)];
  }

  /** failStream is an incoming reset and its two pieces of work. */
  lemma FailStreamRun(c: Conn, id: nat, code: nat) returns (ls: seq<S.Label>)
    requires ConnInv(c) && c.loop.Idle?
    ensures [S.Arrive(S.InReset(id, code), 0)] <= ls
    ensures Exec(c, ls) == Some(FailedOne(c, id, S.StreamReset(code)))
  {
    var first := S.Arrive(S.InReset(id, code), 0);
    assert Exec(c, []) == Some(c);
    match Find(c, id)
    case None =>
      ls := [first];
      assert ls[..0] == [];
    case Some(ref) =>
      var st := c.objs[ref];
      var rest := [S.Do(ref, S.SendErr(|st.sends|)), S.Do(ref, S.CloseErr(|st.breaks|))];
      ls := [first] + rest;
      assert [first][..0] == [];
      assert Exec(c, [first]) == Step(c, first);
      ExecConcat(c, [first], rest);
      FailureRun(c.(streams := c.streams - {id}), ref, S.StreamReset(code));
  }

  /** The first n taken streams have been failed, the others still owe it. */
  function PartlyFailed(c: Conn, why: S.Failure, n: nat): Conn {
    c.(closed := true, streams := map[],
       objs := seq(|c.objs|, r requires 0 <= r < |c.objs| =>
                 if r !in c.streams.Values then c.objs[r]
                 else if r < n then S.FailNow(c.objs[r], why)
                 else S.OweError(c.objs[r], why)))
  }

  lemma FailOneMore(c: Conn, why: S.Failure, r: nat) returns (rest: seq<S.Label>)
    requires r < |c.objs| && r in c.streams.Values
    ensures Exec(PartlyFailed(c, why, r), rest) == Some(PartlyFailed(c, why, r + 1))
    ensures forall l :: l in rest ==> l.Do?
  {
    var mid := PartlyFailed(c, why, r);
    var st := c.objs[r];
    rest := [S.Do(r, S.SendErr(|st.sends|)), S.Do(r, S.CloseErr(|st.breaks|))];
    var plain := mid.(objs := mid.objs[r := st]);
    FailureRun(plain, r, why);
    assert plain.objs[r := S.OweError(st, why)] == mid.objs;
    assert plain.objs[r := S.FailNow(st, why)] == PartlyFailed(c, why, r + 1).objs;
  }

  lemma {:induction false} FailLoopFrom(start: Conn, c: Conn, why: S.Failure, n: nat) returns (ls: seq<S.Label>)
    requires n <= |c.objs| && start == PartlyFailed(c, why, 0)
    ensures Exec(start, ls) == Some(PartlyFailed(c, why, n))
    ensures forall l :: l in ls ==> l.Do?
  {
    if n == 0 {
      ls := [];
    } else {
      var before := FailLoopFrom(start, c, why, n - 1);
      ls := FailNext(start, c, why, n - 1, before);
    }
  }

  lemma FailNext(start: Conn, c: Conn, why: S.Failure, r: nat, before: seq<S.Label>) returns (ls: seq<S.Label>)
    requires r < |c.objs| && Exec(start, before) == Some(PartlyFailed(c, why, r))
    requires forall l :: l in before ==> l.Do?
    ensures Exec(start, ls) == Some(PartlyFailed(c, why, r + 1))
    ensures forall l :: l in ls ==> l.Do?
  {
    if r in c.streams.Values {
      var rest := FailOneMore(c, why, r);
      ls := before + rest;
      ExecConcat(start, before, rest);
    } else {
      ls := before;
      assert PartlyFailed(c, why, r).objs == PartlyFailed(c, why, r + 1).objs;
    }
  }

  lemma FailLoopRun(c: Conn, why: S.Failure, n: nat) returns (ls: seq<S.Label>)
    requires n <= |c.objs|
    ensures Exec(FailAll(c, why), ls) == Some(PartlyFailed(c, why, n))
    ensures forall l :: l in ls ==> l.Do?
  {
    assert FailAll(c, why).objs == PartlyFailed(c, why, 0).objs;
    ls := FailLoopFrom(FailAll(c, why), c, why, n);
  }

  /** Close is the step that takes every stream, then the work each of them is owed. */
  lemma CloseRun(c: Conn) returns (ls: seq<S.Label>)
    requires !c.closed
    ensures Exec(c, [S.CloseConn] + ls) == Some(FailedAll(c, S.ConnClosed))
    ensures forall l :: l in ls ==> l.Do?
  {
    ls := FailLoopRun(c, S.ConnClosed, |c.objs|);
    assert [S.CloseConn][..0] == [] && Exec(c, []) == Some(c);
    assert Exec(c, [S.CloseConn]) == Some(FailAll(c, S.ConnClosed));
    ExecConcat(c, [S.CloseConn], ls);
    assert PartlyFailed(c, S.ConnClosed, |c.objs|).objs == FailedAll(c, S.ConnClosed).objs;
  }

  /** failAll after a GOAWAY is the frame's arrival, then the work each taken stream is owed. */
  lemma GoAwayRun(c: Conn, code: nat) returns (ls: seq<S.Label>)
    requires c.loop.Idle?
    ensures Exec(c, [S.Arrive(S.InGoAway(code), 0)] + ls) == Some(FailedAll(c, S.GoAway(code)))
    ensures forall l :: l in ls ==> l.Do?
  {
    var first := S.Arrive(S.InGoAway(code), 0);
    ls := FailLoopRun(c, S.GoAway(code), |c.objs|);
    ExecOne(c, first);
    ExecConcat(c, [first], ls);
    assert PartlyFailed(c, S.GoAway(code), |c.objs|).objs == FailedAll(c, S.GoAway(code)).objs;
  }

  /** failAll after a read error is the failing read, then the work each taken stream is owed. */
  lemma ReadFailRun(c: Conn) returns (ls: seq<S.Label>)
    requires c.loop.Idle?
    ensures Exec(c, [S.ReadFail] + ls) == Some(ReadingFailed(c))
    ensures forall l :: l in ls ==> l.Do?
  {
    var stopped := c.(loop := Stopped);
    ls := FailLoopRun(stopped, S.ReadFailed, |c.objs|);
    ExecOne(c, S.ReadFail);
    assert FailAll(c, S.ReadFailed).(loop := Stopped) == FailAll(stopped, S.ReadFailed);
    ExecConcat(c, [S.ReadFail], ls);
    assert PartlyFailed(stopped, S.ReadFailed, |c.objs|).objs == ReadingFailed(c).objs;
  }

  lemma CloseOwed(d: Conn, r: nat)
    requires r < |d.objs| && d.objs[r].closes > 0
    ensures Step(d, S.Do(r, S.CloseBody)) == Some(Settled(d, Some(r)))
  {
  }

  /** Taking a stream out and closing its pipe: the step that took it, then the close it owes. */
  lemma ThenSettled(c: Conn, before: seq<S.Label>, d: Conn, q: Option<nat>) returns (ls: seq<S.Label>)
    requires Exec(c, before) == Some(d)
    requires q.Some? ==> q.value < |d.objs| && d.objs[q.value].closes > 0
    ensures before <= ls && Exec(c, ls) == Some(Settled(d, q))
  {
    match q
    case None => ls := before;
    case Some(r) =>
      ls := before + [S.Do(r, S.CloseBody)];
      ExecNext(c, before, d, S.Do(r, S.CloseBody));
      CloseOwed(d, r);
  }

  lemma LeaveRun(c: Conn, ref: nat) returns (ls: seq<S.Label>)
    requires ref < |c.objs| && c.objs[ref].caller.Leaving?
    ensures [S.Leave(ref)] <= ls && Exec(c, ls) == Some(LeftRoundTrip(c, ref))
  {
    var gone := c.(objs := c.objs[ref := c.objs[ref].(caller := S.Gone(c.objs[ref].caller.why))]);
    ExecOne(c, S.Leave(ref));
    ls := ThenSettled(c, [S.Leave(ref)], Remove(gone, IdOf(ref), false), Find(gone, IdOf(ref)));
  }

  lemma CloseBodyRun(c: Conn, ref: nat) returns (ls: seq<S.Label>)
    requires ref < |c.objs| && HoldsBody(c.objs[ref])
    ensures [S.CloseReader(ref), S.DropReader(ref)] <= ls && Exec(c, ls) == Some(ClosedBody(c, ref))
  {
    var st := c.objs[ref].(caller := S.Closing, rclosed := true);
    var d := c.(objs := c.objs[ref := st]);
    var shut := c.(objs := c.objs[ref := st.(caller := S.Closed)]);
    assert Step(c, S.CloseReader(ref)) == Some(d);
    assert d.objs[ref := st.(caller := S.Closed)] == shut.objs;
    ExecTwo(c, S.CloseReader(ref), S.DropReader(ref));
    var gone := Remove(shut, IdOf(ref), false);
    ls := ThenSettled(c, [S.CloseReader(ref), S.DropReader(ref)], gone, Find(shut, IdOf(ref)));
  }

  /** The rest of handleData after the pipe refused the payload is a run. */
  lemma AbandonDataRun(c: Conn, id: nat, ref: nat, n: nat, end: bool) returns (ls: seq<S.Label>)
    requires ConnInv(c) && c.loop == Busy(id, ref, S.Feeding(n, end))
    requires c.objs[ref].pending != [] && S.PipeClosed(c.objs[ref])
    ensures [S.FeedBroken(id), S.DropBroken(id)] <= ls && Exec(c, ls) == Some(AbandonedData(c, id))
  {
    var d := c.(objs := c.objs[ref := c.objs[ref].(pending := [])], loop := Busy(id, ref, S.Dropping));
    assert Step(c, S.FeedBroken(id)) == Some(d);
    ExecTwo(c, S.FeedBroken(id), S.DropBroken(id));
    var e := Remove(d, id, false).(loop := Idle);
    ls := ThenSettled(c, [S.FeedBroken(id), S.DropBroken(id)], e, Find(d, id));
  }

  /** An empty DATA frame that ends the stream, from its arrival to the closed pipe. */
  lemma EmptyEndRun(c: Conn, id: nat, ref: nat) returns (ls: seq<S.Label>)
    requires ConnInv(c) && c.loop.Idle? && Find(c, id) == Some(ref)
    ensures [S.Arrive(S.InData(id, [], true), 0)] <= ls
    ensures Exec(c, ls) == Some(Settled(Remove(c, id, true), Some(ref)))
  {
    var first := S.Arrive(S.InData(id, [], true), 0);
    var busy := c.(loop := Busy(id, ref, S.Ending));
    ExecOne(c, first);
    ls := EndRun(c, [first], busy, id, ref);
    assert Settled(Remove(busy, id, true), Some(ref)).(loop := Idle) == Settled(Remove(c, id, true), Some(ref));
  }

  lemma DataRun(c: Conn, id: nat, data: seq<byte>, end: bool) returns (ls: seq<S.Label>)
    requires ConnInv(c) && c.loop.Idle?
    ensures [S.Arrive(S.InData(id, data, end), 0)] <= ls
    ensures Exec(c, ls) == Some(Dispatched(c, S.InData(id, data, end), 0))
  {
    if Find(c, id).Some? && data == [] && end {
      ls := EmptyEndRun(c, id, Find(c, id).value);
    } else {
      ls := [S.Arrive(S.InData(id, data, end), 0)];
      ExecOne(c, ls[0]);
    }
  }

  /** Every frame readLoop dispatches is a run that starts with its arrival. */
  lemma DispatchRun(c: Conn, f: S.InFrame, acks: nat) returns (ls: seq<S.Label>)
    requires ConnInv(c) && c.loop.Idle? && acks <= |AckFrames(f)|
    requires f.InHeaders? ==> StatusSettled(c, f.id)
    ensures [S.Arrive(f, acks)] <= ls && Exec(c, ls) == Some(Dispatched(c, f, acks))
  {
    var first := S.Arrive(f, acks);
    match f
    case InHeaders(id, fields, end) => ls := HandleHeadersRun(c, id, fields, end);
    case InReset(id, code) => ls := FailStreamRun(c, id, code);
    case InGoAway(code) =>
      var rest := GoAwayRun(c, code);
      ls := [first] + rest;
    case InData(id, data, end) => ls := DataRun(c, id, data, end);
    case _ =>
      ls := [first];
      ExecOne(c, first);
  }

  /** From a handler about to process END_STREAM: the stream taken out, then its pipe closed. */
  lemma EndRun(c: Conn, before: seq<S.Label>, busy: Conn, id: nat, ref: nat) returns (ls: seq<S.Label>)
    requires ConnInv(busy) && busy.loop == Busy(id, ref, S.Ending) && Exec(c, before) == Some(busy)
    ensures before <= ls && Exec(c, ls) == Some(Settled(Remove(busy, id, true), Find(busy, id)).(loop := Idle))
  {
    var taken := Remove(busy, id, true).(loop := Idle);
    ExecNext(c, before, busy, S.EndStream(id));
    ls := ThenSettled(c, before + [S.EndStream(id)], taken, Find(busy, id));
  }

  lemma DeliverStep(c: Conn, id: nat, ref: nat, fields: seq<Hpack.Field>, end: bool)
    requires c.loop == Busy(id, ref, S.Delivering(fields, end)) && ref < |c.objs|
    ensures Step(c, S.Deliver(id))
         == Some(c.(objs := c.objs[ref := S.TakeBlock(c.objs[ref], fields)],
                    loop := LoopAfter(id, ref, if S.StatusOf(fields) == 0 then S.Failing else S.AfterFrame(end))))
  {
  }

  /** A block that arrives and is delivered. */
  lemma DeliverRun(c: Conn, id: nat, ref: nat, fields: seq<Hpack.Field>, end: bool)
    requires c.loop.Idle? && Find(c, id) == Some(ref)
    ensures Exec(c, [S.Arrive(S.InHeaders(id, fields, end), 0), S.Deliver(id)])
         == Some(c.(objs := c.objs[ref := S.TakeBlock(c.objs[ref], fields)],
                    loop := LoopAfter(id, ref, if S.StatusOf(fields) == 0 then S.Failing else S.AfterFrame(end))))
  {
    var first, second := S.Arrive(S.InHeaders(id, fields, end), 0), S.Deliver(id);
    var busy := c.(loop := Busy(id, ref, S.Delivering(fields, end)));
    ExecOne(c, first);
    ExecNext(c, [first], busy, second);
    DeliverStep(busy, id, ref, fields, end);
    assert [first] + [second] == [first, second];
  }

  /** The stream owes nothing for an earlier block without :status: the read loop waited for that. */
  predicate StatusSettled(c: Conn, id: nat) {
    Find(c, id).Some? ==> !S.OwesMissingStatus(c.objs[Find(c, id).value])
  }

  /** A block without :status: the stream is failed, and the read loop goes on when that is done. */
  lemma MissingStatusRun(c: Conn, id: nat, ref: nat, fields: seq<Hpack.Field>, end: bool) returns (ls: seq<S.Label>)
    requires ConnInv(c) && c.loop.Idle? && Find(c, id) == Some(ref) && S.StatusOf(fields) == 0 && StatusSettled(c, id)
    ensures [S.Arrive(S.InHeaders(id, fields, end), 0)] <= ls
    ensures Exec(c, ls) == Some(HandledHeaders(c, id, fields, end))
  {
    var st := c.objs[ref];
    var busy := c.(loop := Busy(id, ref, S.Failing));
    var failed := busy.(objs := c.objs[ref := S.FailNow(st, S.MissingStatus)]);
    var two := [S.Arrive(S.InHeaders(id, fields, end), 0), S.Deliver(id)];
    var acts := [S.Do(ref, S.SendErr(|st.sends|)), S.Do(ref, S.CloseErr(|st.breaks|))];
    DeliverRun(c, id, ref, fields, end);
    FailureRun(busy, ref, S.MissingStatus);
    ExecConcat(c, two, acts);
    ExecNext(c, two + acts, failed, S.FailDone(id));
    FailDoneStep(failed, id, ref);
    ls := two + acts + [S.FailDone(id)];
  }

  lemma FailDoneStep(c: Conn, id: nat, ref: nat)
    requires c.loop == Busy(id, ref, S.Failing) && ref < |c.objs| && !S.OwesMissingStatus(c.objs[ref])
    ensures Step(c, S.FailDone(id)) == Some(c.(loop := Idle))
  {
  }

  /** handleHeaders is a run that starts with the block arriving. */
  lemma HandleHeadersRun(c: Conn, id: nat, fields: seq<Hpack.Field>, end: bool) returns (ls: seq<S.Label>)
    requires ConnInv(c) && c.loop.Idle? && StatusSettled(c, id)
    ensures [S.Arrive(S.InHeaders(id, fields, end), 0)] <= ls
    ensures Exec(c, ls) == Some(HandledHeaders(c, id, fields, end))
  {
    var first := S.Arrive(S.InHeaders(id, fields, end), 0);
    if Find(c, id).None? {
      ls := [first];
      ExecOne(c, first);
    } else if S.StatusOf(fields) == 0 {
      ls := MissingStatusRun(c, id, Find(c, id).value, fields, end);
    } else {
      DeliverRun(c, id, Find(c, id).value, fields, end);
      ls := [first, S.Deliver(id)];
      if end { ls := FinalBlockRun(c, id, Find(c, id).value, fields); }
    }
  }

  /** A delivered block that carries END_STREAM. */
  lemma FinalBlockRun(c: Conn, id: nat, ref: nat, fields: seq<Hpack.Field>) returns (ls: seq<S.Label>)
    requires ConnInv(c) && c.loop.Idle? && Find(c, id) == Some(ref) && S.StatusOf(fields) != 0
    ensures [S.Arrive(S.InHeaders(id, fields, true), 0)] <= ls
    ensures Exec(c, ls) == Some(HandledHeaders(c, id, fields, true))
  {
    var d := c.(objs := c.objs[ref := S.TakeBlock(c.objs[ref], fields)]);
    DeliverRun(c, id, ref, fields, true);
    var before := [S.Arrive(S.InHeaders(id, fields, true), 0), S.Deliver(id)];
    ls := EndRun(c, before, d.(loop := Busy(id, ref, S.Ending)), id, ref);
    assert Settled(Remove(d.(loop := Busy(id, ref, S.Ending)), id, true), Some(ref)).(loop := Idle)
        == Settled(Remove(d, id, true), Some(ref));
  }

  /** Both credits of a payload the pipe has taken. */
  lemma CreditRun(c: Conn, id: nat, ref: nat, n: nat, end: bool, written: nat)
    requires ConnInv(c) && c.loop == Busy(id, ref, S.Feeding(n, end)) && c.objs[ref].pending == [] && written <= 2
    ensures Exec(c, [S.FedAll(id), S.Grant(id, written)])
         == Some(WriteControl(c, CreditFrames(id, n), written).(loop := LoopAfter(id, ref, S.AfterFrame(end))))
  {
    var granting := c.(loop := Busy(id, ref, S.Granting(n, end)));
    assert Step(c, S.FedAll(id)) == Some(granting);
    ExecOne(c, S.FedAll(id));
    ExecNext(c, [S.FedAll(id)], granting, S.Grant(id, written));
    GrantStep(granting, id, ref, n, end, written);
    assert [S.FedAll(id)] + [S.Grant(id, written)] == [S.FedAll(id), S.Grant(id, written)];
  }

  lemma GrantStep(c: Conn, id: nat, ref: nat, n: nat, end: bool, written: nat)
    requires c.loop == Busy(id, ref, S.Granting(n, end)) && ref < |c.objs| && written <= 2
    ensures Step(c, S.Grant(id, written))
         == Some(WriteControl(c, CreditFrames(id, n), written).(loop := LoopAfter(id, ref, S.AfterFrame(end))))
  {
  }

  /** The rest of handleData is a run from the completed pipe write. */
  lemma FinishDataRun(c: Conn, id: nat, ref: nat, n: nat, end: bool, written: nat) returns (ls: seq<S.Label>)
    requires ConnInv(c) && c.loop == Busy(id, ref, S.Feeding(n, end)) && c.objs[ref].pending == [] && written <= 2
    ensures [S.FedAll(id)] <= ls
    ensures Exec(c, ls) == Some(FinishedData(c, id, n, end, written))
  {
    ls := [S.FedAll(id), S.Grant(id, written)];
    CreditRun(c, id, ref, n, end, written);
    if end {
      var busy := WriteControl(c, CreditFrames(id, n), written).(loop := Busy(id, ref, S.Ending));
      ControlKeepsInv(c, CreditFrames(id, n), written);
      ls := EndRun(c, ls, busy, id, ref);
    }
  }
}
