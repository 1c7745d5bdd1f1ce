/** What each event does to the shared connection itself: closing, and the frames written in answer. */
module H2ConnLaws {
  import opened Prelude
  import H2Wire
  import S = H2Stream
  import opened H2Conn

  /** Close, a read error and GOAWAY close the connection. */
  predicate Closes(l: S.Label) {
    l.CloseConn? || l.ReadFail? || (l.Arrive? && l.frame.InGoAway?)
  }

  /** Exactly those three close it, and once closed it stays so, with no stream registered. */
  lemma ClosesIff(c: Conn, l: S.Label)
    requires ConnInv(c) && Step(c, l).Some?
    ensures Step(c, l).value.closed <==> c.closed || Closes(l)
    ensures Step(c, l).value.closed ==> Step(c, l).value.streams == map[]
  {
    StepKeepsInv(c, l);
    if S.IsLoopLabel(l) {
      HandlerNeverCloses(c, l);
    } else if !l.Arrive? && !l.Request? && !Closes(l) {
      CallerNeverCloses(c, l);
    }
  }

  lemma HandlerNeverCloses(c: Conn, l: S.Label)
    requires S.IsLoopLabel(l) && Step(c, l).Some?
    ensures Step(c, l).value.closed == c.closed
  {
  }

  lemma CallerNeverCloses(c: Conn, l: S.Label)
    requires !S.IsLoopLabel(l) && !l.Arrive? && !l.Request? && !Closes(l) && Step(c, l).Some?
    ensures Step(c, l).value.closed == c.closed
  {
  }

  /** One of them has happened. */
  predicate Closed(ls: seq<S.Label>) {
    ls != [] && (Closes(ls[|ls| - 1]) || Closed(ls[..|ls| - 1]))
  }

  lemma {:induction false} ClosedFrom(c: Conn, ls: seq<S.Label>)
    requires ConnInv(c) && Exec(c, ls).Some?
    ensures ConnInv(Exec(c, ls).value) && (Exec(c, ls).value.closed <==> c.closed || Closed(ls))
  {
    if ls != [] {
      var front, last := ls[..|ls| - 1], ls[|ls| - 1];
      ClosedFrom(c, front);
      NextCloses(Exec(c, front).value, last, Exec(c, ls).value);
    }
  }

  /** In every run, the connection is closed exactly when one of them has happened. */
  lemma ClosedIff(settings: seq<H2Wire.Setting>, window: nat, ls: seq<S.Label>)
    requires Exec(Open(settings, window), ls).Some?
    ensures Exec(Open(settings, window), ls).value.closed <==> Closed(ls)
  {
    OpensValid(settings, window);
    ClosedFrom(Open(settings, window), ls);
  }

  lemma OpensValid(settings: seq<H2Wire.Setting>, window: nat)
    ensures ConnInv(Open(settings, window)) && !Open(settings, window).closed
  {
    assert IdOf(0) == 1;
  }

  lemma NextCloses(c: Conn, l: S.Label, d: Conn)
    requires ConnInv(c) && Step(c, l) == Some(d)
    ensures ConnInv(d) && (d.closed <==> c.closed || Closes(l))
  {
    StepKeepsInv(c, l);
    ClosesIff(c, l);
  }

  /** After a failed read the read loop takes no further frame. */
  lemma ReadFailStops(c: Conn, f: S.InFrame, acks: nat)
    requires Step(c, S.ReadFail).Some?
    ensures Step(Step(c, S.ReadFail).value, S.Arrive(f, acks)).None?
  {
  }

  // ---- Acknowledgements ----

  /** Nothing else than the frames is written, and they only while the connection is open. */
  predicate Writes(c: Conn, d: Conn, frames: seq<H2Wire.Frame>) {
    && (c.closed ==> d.log == c.log)
    && (!c.closed ==> |d.log| == |c.log| + |frames| && d.log[..|c.log|] == c.log
                      && forall i :: 0 <= i < |frames| ==> d.log[|c.log| + i] == H2Wire.Control(frames[i]))
  }

  /**
   A PING is answered with its own payload and SETTINGS with one acknowledgement, unless the
   transport fails; acknowledgements, and every other frame as it arrives, are not answered.
   */
  lemma AnswersOnArrival(c: Conn, f: S.InFrame, acks: nat)
    requires Step(c, S.Arrive(f, acks)).Some?
    ensures var d := Step(c, S.Arrive(f, acks)).value;
            && acks <= 1
            && (acks == 0 ==> d.log == c.log)
            && (acks == 1 ==> (f.InPing? || f.InSettings?) && !f.ack)
            && (acks == 1 && f.InPing? ==> Writes(c, d, [H2Wire.PingAck(f.token)]))
            && (acks == 1 && f.InSettings? ==> Writes(c, d, [H2Wire.SettingsAck]))
  {
  }

  /** And such an answer is possible whenever the read loop is ready for a frame. */
  lemma CanAnswer(c: Conn, token: nat)
    requires c.loop.Idle?
    ensures Step(c, S.Arrive(S.InPing(false, token), 1)).Some?
    ensures Step(c, S.Arrive(S.InSettings(false), 1)).Some?
  {
  }

  // ---- Requests ----

  /**
   A request that is written whole waits, registered under the next identifier; one that is not
   leaves no trace but its frames.
   */
  lemma RequestRegisters(c: Conn, l: S.Label)
    requires ConnInv(c) && l.Request? && Step(c, l).Some?
    ensures var d := Step(c, l).value;
            && !c.closed && l.ref == |c.objs| && |d.objs| == |c.objs| + 1 && d.objs[..|c.objs|] == c.objs
            && d.nextID == (c.nextID + 2) % 0x1_0000_0000
            && (l.sent == H2Wire.FrameCount(l.body) ==>
                  c.nextID in d.streams && d.streams[c.nextID] == l.ref && d.objs[l.ref].caller.Waiting?)
            && (l.sent < H2Wire.FrameCount(l.body) ==>
                  c.nextID !in d.streams && d.objs[l.ref].caller == S.Gone(S.WriteFailed))
  {
  }

  /**
   A connection is opened exactly for known settings, an increment the framer accepts, and three
   writes that succeed; a profile without an increment gets 1073741824.
   */
  lemma OpenedMeans(settings: Option<seq<H2Wire.Setting>>, configured: nat, writes: nat)
    ensures Opened(settings, configured, writes).Some? <==>
              settings.Some? && configured <= 2147483647 && writes >= 3
    ensures Opened(settings, configured, writes).Some? ==>
              var log := Opened(settings, configured, writes).value.log;
              && |log| == 3
              && log[0] == H2Wire.Control(H2Wire.Preface)
              && log[1] == H2Wire.Control(H2Wire.Settings(settings.value))
              && log[2] == H2Wire.Control(H2Wire.WindowUpdate(0, if configured == 0 then 1073741824 else configured))
  {
  }

  /** Identifiers start at 1. */
  lemma FirstIdentifier(settings: seq<H2Wire.Setting>, window: nat)
    ensures Open(settings, window).nextID == 1 && Open(settings, window).streams == map[]
    ensures Open(settings, window).objs == [] && !Open(settings, window).closed && Open(settings, window).loop.Idle?
  {
  }
}
