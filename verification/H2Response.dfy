/**
 The response a caller gets: its status is the number the peer wrote, its headers are the
 peer's own, and it is the first one that came.
 */
module H2Response {
  import opened Prelude
  import opened Text
  import opened Hpack
  import H2Wire
  import opened H2Stream
  import C = H2Conn
  import P = H2Projection

  // ---- What a header block says ----

  /** The last :status field of the block is the number n. */
  ghost predicate Says(fields: seq<Field>, n: nat) {
    exists j :: 0 <= j < |fields| && fields[j] == Field(":status", Itoa(n))
                && forall k :: j < k < |fields| ==> fields[k].name != ":status"
  }

  lemma NumberRead(n: nat)
    ensures AtoiOrZero(Itoa(n)) == n
    ensures AtoiOrZero("-" + Itoa(n)) == -(n as int) && AtoiOrZero("+" + Itoa(n)) == n
  {
    ParseItoa(n);
    var s := Itoa(n);
    assert IsDigit(s[0]);
    assert ("-" + s)[1..] == s && ("+" + s)[1..] == s;
  }

  /** Anything but an optionally signed number reads as 0. */
  lemma NoNumberRead(s: string)
    requires s == "" || s == "+" || s == "-" || (!IsDigit(s[0]) && s[0] != '+' && s[0] != '-')
             || exists i :: 0 < i < |s| && !IsDigit(s[i])
    ensures AtoiOrZero(s) == 0
  {
    var digits := if s != [] && (s[0] == '+' || s[0] == '-') then s[1..] else s;
    if digits != [] {
      if i :| 0 < i < |s| && !IsDigit(s[i]) {
        assert digits[i - (|s| - |digits|)] == s[i];
      } else {
        assert digits == s && !IsDigit(digits[0]);
      }
    }
  }

  lemma SaysLater(front: seq<Field>, last: Field, n: nat)
    requires Says(front + [last], n)
    ensures last.name == ":status" ==> last.value == Itoa(n)
    ensures last.name != ":status" ==> Says(front, n)
  {
    var fields := front + [last];
    var j :| 0 <= j < |fields| && fields[j] == Field(":status", Itoa(n))
             && forall k :: j < k < |fields| ==> fields[k].name != ":status";
    assert fields[|front|] == last;
    if j < |front| {
      assert front[j] == fields[j];
      forall k | j < k < |front| ensures front[k].name != ":status" {
        assert fields[k] == front[k];
      }
    }
  }

  /** The status is the number of the last :status field. */
  lemma {:induction false} StatusSaid(fields: seq<Field>, n: nat)
    requires Says(fields, n)
    ensures StatusOf(fields) == n
  {
    var front, last := fields[..|fields| - 1], fields[|fields| - 1];
    assert fields == front + [last];
    SaysLater(front, last, n);
    if last.name == ":status" {
      NumberRead(n);
    } else {
      StatusSaid(front, n);
    }
  }

  /** Without such a field there is no status. */
  lemma {:induction false} NoStatusSaid(fields: seq<Field>)
    requires forall f :: f in fields ==> f.name != ":status"
    ensures StatusOf(fields) == 0
  {
    if fields != [] {
      NoStatusSaid(fields[..|fields| - 1]);
    }
  }

  /** idx are the positions of headers in fields: in order, and exactly those that are not pseudo-headers. */
  ghost predicate Selects(fields: seq<Field>, headers: seq<Field>, idx: seq<nat>) {
    && |idx| == |headers|
    && (forall i, j :: 0 <= i < j < |idx| ==> idx[i] < idx[j])
    && (forall i :: 0 <= i < |idx| ==> idx[i] < |fields| && headers[i] == fields[idx[i]])
    && (forall k :: 0 <= k < |fields| ==> (k in idx <==> !StartsWithColon(fields[k].name)))
  }

  predicate StartsWithColon(name: string) {
    name != "" && name[0] == ':'
  }

  /** A pseudo-header changes nothing; any other field is the next one kept. */
  lemma SelectsSame(front: seq<Field>, last: Field, headers: seq<Field>, idx: seq<nat>)
    requires Selects(front, headers, idx) && StartsWithColon(last.name)
    ensures Selects(front + [last], headers, idx)
  {
    assert forall i :: 0 <= i < |idx| ==> idx[i] in idx;
  }

  lemma SelectsMore(front: seq<Field>, last: Field, headers: seq<Field>, idx: seq<nat>)
    requires Selects(front, headers, idx) && !StartsWithColon(last.name)
    ensures Selects(front + [last], headers + [last], idx + [|front|])
  {
    var more := idx + [|front|];
    assert more[|idx|] == |front|;
    forall k | 0 <= k < |front + [last]|
      ensures k in more <==> !StartsWithColon((front + [last])[k].name)
    {
      assert k in more <==> k in idx || k == |front|;
    }
  }

  lemma {:induction false} RegularSelects(fields: seq<Field>) returns (idx: seq<nat>)
    ensures Selects(fields, RegularFields(fields), idx)
  {
    idx := [];
    if fields != [] {
      var front, last := fields[..|fields| - 1], fields[|fields| - 1];
      var before := RegularSelects(front);
      assert fields == front + [last];
      if StartsWithColon(last.name) {
        idx := before;
        SelectsSame(front, last, RegularFields(front), before);
      } else {
        idx := before + [|front|];
        SelectsMore(front, last, RegularFields(front), before);
      }
    }
  }

  /** The response a caller must get for this block. */
  ghost predicate Answers(fields: seq<Field>, resp: Response) {
    && (forall n: nat :: Says(fields, n) ==> resp.status == n)
    && exists idx :: Selects(fields, resp.headers, idx)
  }

  lemma BlockAnswers(fields: seq<Field>)
    ensures Answers(fields, Response(StatusOf(fields), RegularFields(fields)))
  {
    forall n: nat | Says(fields, n) ensures StatusOf(fields) == n {
      StatusSaid(fields, n);
    }
    var idx := RegularSelects(fields);
  }

  // ---- The caller's response over whole runs ----

  /** The first block with a status that has arrived since the request. */
  function FirstBlock(ls: seq<Label>): Option<seq<Field>> {
    if ls == [] then None
    else
      var front, last := ls[..|ls| - 1], ls[|ls| - 1];
      if last.Request? then None
      else if FirstBlock(front).Some? then FirstBlock(front)
      else if last.Arrive? && last.frame.InHeaders? && StatusOf(last.frame.fields) != 0 then Some(last.frame.fields)
      else None
  }

  predicate Made(first: Option<seq<Field>>, resp: Response) {
    first.Some? && resp == Response(StatusOf(first.value), RegularFields(first.value))
  }

  predicate ResponseInv(v: Single, first: Option<seq<Field>>) {
    v.stream.Some? ==>
      var st := v.stream.value;
      && (st.caller.Reading? ==> Made(first, st.caller.resp))
      && (st.caller.Waiting? && st.headers.Some? ==> Made(first, st.headers.value))
      && (st.caller.Waiting? && st.headers.None? && v.busy.Delivering? && StatusOf(v.busy.fields) != 0 ==>
            first == Some(v.busy.fields))
  }

  lemma {:induction false} FirstIffSaw(ls: seq<Label>)
    ensures FirstBlock(ls).Some? <==> SawStatus(ls)
  {
    if ls != [] { FirstIffSaw(ls[..|ls| - 1]); }
  }

  lemma MoreBlocks(front: seq<Label>, l: Label)
    ensures FirstBlock(front + [l]) ==
              if l.Request? then None
              else if FirstBlock(front).Some? then FirstBlock(front)
              else if l.Arrive? && l.frame.InHeaders? && StatusOf(l.frame.fields) != 0 then Some(l.frame.fields)
              else None
  {
    assert (front + [l])[..|front|] == front;
  }

  /** Once a block with a status has come, a registered waiting caller has it, or is about to. */
  predicate Told(v: Single, first: Option<seq<Field>>) {
    v.live && v.stream.Some? && v.stream.value.caller.Waiting? && first.Some? ==>
      v.stream.value.headers.Some? || (v.busy.Delivering? && StatusOf(v.busy.fields) != 0)
  }

  lemma StepKeepsResponse(v: Single, front: seq<Label>, l: Label)
    requires Told(v, FirstBlock(front)) && StreamInv(v) && ResponseInv(v, FirstBlock(front)) && Step(v, l).Some?
    ensures ResponseInv(Step(v, l).value, FirstBlock(front + [l]))
  {
    MoreBlocks(front, l);
    if l.Arrive? {
      ArriveKeepsResponse(v, l, FirstBlock(front), FirstBlock(front + [l]));
    } else if l.Do? {
      ActKeepsResponse(v, l.act, FirstBlock(front));
    } else if IsLoopLabel(l) {
      LoopKeepsResponse(v, l, FirstBlock(front));
    } else if RefLabel(l) {
      CallKeepsResponse(v, l, FirstBlock(front));
    } else {
      RestKeepsResponse(v, l, FirstBlock(front), FirstBlock(front + [l]));
    }
  }

  lemma ArriveKeepsResponse(v: Single, l: Label, first: Option<seq<Field>>, next: Option<seq<Field>>)
    requires Told(v, first) && ResponseInv(v, first) && l.Arrive? && Step(v, l).Some?
    requires next == if first.Some? then first
                     else if l.frame.InHeaders? && StatusOf(l.frame.fields) != 0 then Some(l.frame.fields) else None
    ensures ResponseInv(Step(v, l).value, next)
  {
  }

  lemma RestKeepsResponse(v: Single, l: Label, first: Option<seq<Field>>, next: Option<seq<Field>>)
    requires StreamInv(v) && ResponseInv(v, first) && Step(v, l).Some?
    requires l.Request? || (next == first && (l.CloseConn? || l.ReadFail?))
    ensures ResponseInv(Step(v, l).value, next)
  {
  }

  lemma CallKeepsResponse(v: Single, l: Label, first: Option<seq<Field>>)
    requires ResponseInv(v, first) && RefLabel(l) && !l.Do? && Step(v, l).Some?
    ensures ResponseInv(Step(v, l).value, first)
  {
  }

  lemma ActKeepsResponse(v: Single, act: Act, first: Option<seq<Field>>)
    requires ResponseInv(v, first) && v.stream.Some? && Owed(v.stream.value, act)
    ensures ResponseInv(v.(stream := Some(Perform(v.stream.value, act))), first)
  {
  }

  lemma LoopKeepsResponse(v: Single, l: Label, first: Option<seq<Field>>)
    requires ResponseInv(v, first) && IsLoopLabel(l) && Step(v, l).Some?
    ensures ResponseInv(Step(v, l).value, first)
  {
  }

  lemma {:induction false} RunKeepsResponse(ls: seq<Label>)
    requires Exec(Initial(), ls).Some?
    ensures HistoryInv(Exec(Initial(), ls).value, ls)
    ensures ResponseInv(Exec(Initial(), ls).value, FirstBlock(ls))
  {
    RunKeepsHistory(ls);
    if ls != [] {
      var front, last := ls[..|ls| - 1], ls[|ls| - 1];
      RunKeepsResponse(front);
      assert front + [last] == ls;
      FirstIffSaw(front);
      StepKeepsResponse(Exec(Initial(), front).value, front, last);
    }
  }

  /**
   In every run, the response a caller holds is that of the first block with a status that
   arrived for its stream since its request: the number its last :status field says, and
   exactly its other non-pseudo fields, in their order.
   */
  lemma CallerGetsResponse(ls: seq<Label>, v: Single)
    requires Exec(Initial(), ls) == Some(v) && v.stream.Some? && v.stream.value.caller.Reading?
    ensures FirstBlock(ls).Some? && Answers(FirstBlock(ls).value, v.stream.value.caller.resp)
  {
    RunKeepsResponse(ls);
    BlockAnswers(FirstBlock(ls).value);
  }

  /** A 404 is a 404. */
  lemma NotFoundIsDelivered()
    ensures StatusOf([Field(":status", "404")]) == 404
  {
    assert Itoa(404) == "404";
    var fields := [Field(":status", "404")];
    assert fields[0] == Field(":status", Itoa(404));
    StatusSaid(fields, 404);
  }

  /** On a shared connection every caller gets its own stream's response. */
  lemma CallerGetsResponseOnConn(settings: seq<H2Wire.Setting>, window: nat, ls: seq<Label>, c: C.Conn, r: nat)
    requires C.Exec(C.Open(settings, window), ls) == Some(c) && |c.objs| <= C.MAX_STREAMS
    requires r < |c.objs| && c.objs[r].caller.Reading?
    ensures FirstBlock(P.Own(ls, r)).Some? && Answers(FirstBlock(P.Own(ls, r)).value, c.objs[r].caller.resp)
  {
    P.RunProjects(settings, window, ls, r);
    CallerGetsResponse(P.Own(ls, r), P.View(c, r));
  }

  // ---- A whole exchange ----

  /** The peer answers with a header block and one DATA frame that ends the stream. */
  function Exchange(block: H2Wire.Block, fields: seq<Field>, data: seq<byte>): seq<Label> {
    [Request(0, [], block, [], 1), Arrive(InHeaders(1, fields, false), 0), Deliver(1), TakeResponse(0),
     Arrive(InData(1, data, true), 0), Read(0, |data|), FedAll(1), Grant(1, 2), EndStream(1), Do(0, CloseBody)]
  }

  function After(v: Single, ls: seq<Label>, n: nat): Option<Single>
    requires n <= |ls|
  {
    if n == 0 then Some(v)
    else
      match After(v, ls, n - 1)
      case None => None
      case Some(w) => Step(w, ls[n - 1])
  }

  lemma {:induction false} AfterIsExec(v: Single, ls: seq<Label>, n: nat)
    requires n <= |ls|
    ensures After(v, ls, n) == Exec(v, ls[..n])
  {
    if n > 0 {
      AfterIsExec(v, ls, n - 1);
      assert ls[..n][..n - 1] == ls[..n - 1];
    }
  }

  lemma HeadersCome(block: H2Wire.Block, fields: seq<Field>, data: seq<byte>)
    requires StatusOf(fields) != 0 && data != []
    ensures var st := NewStream(Reading(Response(StatusOf(fields), RegularFields(fields))));
            After(Initial(), Exchange(block, fields, data), 4) == Some(Single(false, Some(st), true, Free))
  {
    var ls := Exchange(block, fields, data);
    var resp := Response(StatusOf(fields), RegularFields(fields));
    var waiting := NewStream(Waiting);
    assert After(Initial(), ls, 0) == Some(Initial());
    assert After(Initial(), ls, 1) == Some(Single(false, Some(waiting), true, Free));
    assert After(Initial(), ls, 2) == Some(Single(false, Some(waiting), true, Delivering(fields, false)));
    assert After(Initial(), ls, 3) == Some(Single(false, Some(waiting.(headers := Some(resp))), true, Free));
  }

  function OpenBody(resp: Response): Stream {
    NewStream(Reading(resp))
  }

  lemma PayloadSteps(resp: Response, data: seq<byte>)
    requires data != []
    ensures var offered := OpenBody(resp).(fed := data, pending := data);
            var taken := OpenBody(resp).(fed := data, got := data);
            && Step(Single(false, Some(OpenBody(resp)), true, Free), Arrive(InData(1, data, true), 0))
               == Some(Single(false, Some(offered), true, Feeding(|data|, true)))
            && Step(Single(false, Some(offered), true, Feeding(|data|, true)), Read(0, |data|))
               == Some(Single(false, Some(taken), true, Feeding(|data|, true)))
            && Step(Single(false, Some(taken), true, Feeding(|data|, true)), FedAll(1))
               == Some(Single(false, Some(taken), true, Granting(|data|, true)))
  {
    assert [] + data == data && data[..|data|] == data && data[|data|..] == [];
  }

  lemma EndSteps(resp: Response, data: seq<byte>)
    ensures var taken := OpenBody(resp).(fed := data, got := data);
            var owed := taken.(closes := 1, finished := true);
            && Step(Single(false, Some(taken), true, Granting(|data|, true)), Grant(1, 2))
               == Some(Single(false, Some(taken), true, Ending))
            && Step(Single(false, Some(taken), true, Ending), EndStream(1))
               == Some(Single(false, Some(owed), false, Free))
            && Step(Single(false, Some(owed), false, Free), Do(0, CloseBody))
               == Some(Single(false, Some(owed.(closes := 0, wend := Some(Eof))), false, Free))
  {
  }

  lemma BodyComes(block: H2Wire.Block, fields: seq<Field>, data: seq<byte>)
    requires StatusOf(fields) != 0 && data != []
    ensures var st := OpenBody(Response(StatusOf(fields), RegularFields(fields)))
                        .(fed := data, got := data, finished := true, wend := Some(Eof));
            After(Initial(), Exchange(block, fields, data), 10) == Some(Single(false, Some(st), false, Free))
  {
    var ls := Exchange(block, fields, data);
    var resp := Response(StatusOf(fields), RegularFields(fields));
    HeadersCome(block, fields, data);
    PayloadSteps(resp, data);
    EndSteps(resp, data);
    var v := Initial();
    assert After(v, ls, 5) == Step(After(v, ls, 4).value, ls[4]);
    assert After(v, ls, 6) == Step(After(v, ls, 5).value, ls[5]);
    assert After(v, ls, 7) == Step(After(v, ls, 6).value, ls[6]);
    assert After(v, ls, 8) == Step(After(v, ls, 7).value, ls[7]);
    assert After(v, ls, 9) == Step(After(v, ls, 8).value, ls[8]);
    assert After(v, ls, 10) == Step(After(v, ls, 9).value, ls[9]);
  }

  /**
   Things do happen: a peer that answers with any status and any body leaves its caller with
   that status, those headers and exactly that body, ended by end-of-file.
   */
  lemma ExchangeCompletes(block: H2Wire.Block, fields: seq<Field>, data: seq<byte>, n: nat)
    requires Says(fields, n) && n > 0 && data != []
    ensures var v := Exec(Initial(), Exchange(block, fields, data));
            && v.Some? && SeesEof(v.value) && v.value.stream.value.got == data
            && v.value.stream.value.caller.resp.status == n
            && Answers(fields, v.value.stream.value.caller.resp)
  {
    var ls := Exchange(block, fields, data);
    StatusSaid(fields, n);
    BodyComes(block, fields, data);
    AfterIsExec(Initial(), ls, 10);
    assert ls[..10] == ls;
    BlockAnswers(fields);
  }
}
