/** Flow control stream by stream, in every run: also after failed writes and after closing. */
module H2StreamCredit {
  import opened Prelude
  import H2Wire
  import S = H2Stream
  import opened H2Conn
  import opened H2Credit

  function PayloadOf(l: S.Label, id: nat): nat {
    if l.Arrive? && l.frame.InData? && l.frame.id == id then |l.frame.data| else 0
  }

  /** DATA octets received for one identifier. */
  function ReceivedBy(ls: seq<S.Label>, id: nat): nat {
    if ls == [] then 0 else ReceivedBy(ls[..|ls| - 1], id) + PayloadOf(ls[|ls| - 1], id)
  }

  function FeedingAt(loop: Loop, id: nat): nat {
    if loop.Busy? && loop.id == id then Feeding(loop) else 0
  }

  /** What was returned, is owed, was accepted, is being fed and was received, for one stream. */
  ghost predicate StreamBound(c: Conn, ls: seq<S.Label>, id: nat) {
    && Credit(c.log, id) + OwingTo(c.loop, id) <= AcceptedBy(ls, id)
    && AcceptedBy(ls, id) + FeedingAt(c.loop, id) <= ReceivedBy(ls, id)
  }

  lemma ReceivedMore(front: seq<S.Label>, l: S.Label, id: nat)
    ensures ReceivedBy(front + [l], id) == ReceivedBy(front, id) + PayloadOf(l, id)
  {
    assert (front + [l])[..|front|] == front;
  }

  /** Only the frame that has just arrived can be what the read loop starts to feed. */
  lemma StartsFeeding(c: Conn, f: S.InFrame, acks: nat, id: nat)
    requires Arrive(c, f, acks).Some?
    ensures var d := Arrive(c, f, acks).value;
            c.loop.Idle? && OwingTo(d.loop, id) == 0 && FeedingAt(d.loop, id) <= PayloadOf(S.Arrive(f, acks), id)
  {
  }

  lemma ArrivalKeepsBound(c: Conn, front: seq<S.Label>, l: S.Label, id: nat)
    requires ConnInv(c) && StreamBound(c, front, id) && l.Arrive? && Step(c, l).Some?
    ensures StreamBound(Step(c, l).value, front + [l], id)
  {
    HistoryStep(front, l);
    ReceivedMore(front, l, id);
    LogWithoutCredit(c, l);
    StartsFeeding(c, l.frame, l.acks, id);
  }

  lemma GrantKeepsBound(c: Conn, front: seq<S.Label>, l: S.Label, id: nat)
    requires ConnInv(c) && StreamBound(c, front, id) && l.Grant? && Step(c, l).Some? && id % 2 == 1
    ensures StreamBound(Step(c, l).value, front + [l], id)
  {
    HistoryStep(front, l);
    ReceivedMore(front, l, id);
    if !c.closed {
      GrantSums(c, c.loop.id, c.loop.work.n, l.written);
    }
  }

  /** What the loop moves between its duties in the other steps. */
  lemma DutiesKeepBound(c: Conn, d: Conn, front: seq<S.Label>, l: S.Label, window: nat, id: nat)
    requires CreditInv(c, front, window) && StreamBound(c, front, id)
    requires !l.Arrive? && !l.Grant? && LoopMoves(c, l, d) && Credit(d.log, id) == Credit(c.log, id)
    ensures StreamBound(d, front + [l], id)
  {
    HistoryStep(front, l);
    ReceivedMore(front, l, id);
  }

  lemma StepKeepsBound(c: Conn, front: seq<S.Label>, l: S.Label, window: nat, id: nat)
    requires ConnInv(c) && CreditInv(c, front, window) && StreamBound(c, front, id) && Step(c, l).Some? && id % 2 == 1
    ensures StreamBound(Step(c, l).value, front + [l], id)
  {
    if l.Arrive? {
      ArrivalKeepsBound(c, front, l, id);
    } else if l.Grant? {
      GrantKeepsBound(c, front, l, id);
    } else {
      LogWithoutCredit(c, l);
      LoopWithoutGrant(c, l);
      DutiesKeepBound(c, Step(c, l).value, front, l, window, id);
    }
  }

  lemma {:induction false} BoundFrom(c: Conn, window: nat, ls: seq<S.Label>, id: nat)
    requires ConnInv(c) && CreditInv(c, [], window) && StreamBound(c, [], id) && Exec(c, ls).Some? && id % 2 == 1
    ensures StreamBound(Exec(c, ls).value, ls, id)
  {
    if ls != [] {
      var front, last := ls[..|ls| - 1], ls[|ls| - 1];
      BoundFrom(c, window, front, id);
      CreditFrom(c, window, front);
      assert front + [last] == ls;
      StepKeepsBound(Exec(c, front).value, front, last, window, id);
    }
  }

  lemma OpenBound(settings: seq<H2Wire.Setting>, window: nat, id: nat)
    requires id % 2 == 1
    ensures StreamBound(Open(settings, window), [], id)
  {
    OpenCredit(settings, window);
    assert AcceptedBy([], id) == 0;
    assert NoWriteFault([]) && !Open(settings, window).closed;
    assert Credit(Open(settings, window).log, id) == 0;
  }

  /** In every run, a stream is never given more credit than its pipe accepted, nor that more than was received. */
  lemma StreamCreditBounded(settings: seq<H2Wire.Setting>, window: nat, ls: seq<S.Label>, id: nat)
    requires Exec(Open(settings, window), ls).Some? && id % 2 == 1
    ensures Credit(Exec(Open(settings, window), ls).value.log, id) <= AcceptedBy(ls, id) <= ReceivedBy(ls, id)
  {
    OpenCredit(settings, window);
    OpenBound(settings, window, id);
    BoundFrom(Open(settings, window), window, ls, id);
  }

  // ---- The peer's stream windows ----

  /** SETTINGS_INITIAL_WINDOW_SIZE (section 6.5.2 of RFC 7540). */
  const WINDOW_SETTING: nat := 4

  /** The stream window the peer starts from: the last announcement counts. */
  function Announced(settings: seq<H2Wire.Setting>): nat {
    if settings == [] then INITIAL_WINDOW
    else
      var last := settings[|settings| - 1];
      if last.key == WINDOW_SETTING then last.val else Announced(settings[..|settings| - 1])
  }

  /** The window of stream id for a peer that has sent sent octets on it. */
  function PeerStreamWindow(settings: seq<H2Wire.Setting>, log: seq<H2Wire.Op>, id: nat, sent: nat): int {
    Announced(settings) + Credit(log, id) - sent
  }

  lemma StreamWindowBound(settings: seq<H2Wire.Setting>, window: nat, ls: seq<S.Label>, id: nat, sent: nat)
    requires Exec(Open(settings, window), ls).Some? && id % 2 == 1 && ReceivedBy(ls, id) <= sent
    ensures PeerStreamWindow(settings, Exec(Open(settings, window), ls).value.log, id, sent) <= Announced(settings)
  {
    StreamCreditBounded(settings, window, ls, id);
  }

  /** No run of a connection opened with these settings makes a stream window of the peer overflow. */
  ghost predicate StreamWindowsSafe(settings: seq<H2Wire.Setting>) {
    forall window: nat, ls: seq<S.Label>, id: nat, sent: nat ::
      Exec(Open(settings, window), ls).Some? && id % 2 == 1 && ReceivedBy(ls, id) <= sent ==>
        PeerStreamWindow(settings, Exec(Open(settings, window), ls).value.log, id, sent) <= MAX_WINDOW
  }

  lemma AnnouncedIsReached(settings: seq<H2Wire.Setting>, window: nat)
    ensures PeerStreamWindow(settings, Open(settings, window).log, 1, 0) == Announced(settings)
  {
    OpenBound(settings, window, 1);
    assert AcceptedBy([], 1) == 0;
  }

  /** Exactly which SETTINGS are safe; the profile's value is sent unchecked. */
  lemma StreamWindowsSafeIff(settings: seq<H2Wire.Setting>)
    ensures StreamWindowsSafe(settings) <==> Announced(settings) <= MAX_WINDOW
  {
    if Announced(settings) <= MAX_WINDOW {
      forall window: nat, ls: seq<S.Label>, id: nat, sent: nat
        | Exec(Open(settings, window), ls).Some? && id % 2 == 1 && ReceivedBy(ls, id) <= sent
        ensures PeerStreamWindow(settings, Exec(Open(settings, window), ls).value.log, id, sent) <= MAX_WINDOW
      {
        StreamWindowBound(settings, window, ls, id, sent);
      }
    } else {
      AnnouncedIsReached(settings, 1);
      assert Exec(Open(settings, 1), []) == Some(Open(settings, 1)) && ReceivedBy([], 1) == 0;
    }
  }

  /** The smallest value of the setting that overflows at once. */
  lemma SmallestUnsafeSetting()
    ensures !StreamWindowsSafe([H2Wire.Setting(4, 2147483648)]) && StreamWindowsSafe([H2Wire.Setting(4, 2147483647)])
    ensures Announced([]) == 65535 && Announced([H2Wire.Setting(3, 100)]) == 65535
  {
    StreamWindowsSafeIff([H2Wire.Setting(4, 2147483648)]);
    StreamWindowsSafeIff([H2Wire.Setting(4, 2147483647)]);
    assert [H2Wire.Setting(3, 100)][..0] == [];
  }

  // ---- No empty credit ----

  /** Every WINDOW_UPDATE grants something (section 6.9 of RFC 7540), and what is being fed or granted is not empty. */
  ghost predicate Positive(c: Conn) {
    && (c.loop.Busy? && (c.loop.work.Feeding? || c.loop.work.Granting?) ==> c.loop.work.n > 0)
    && forall k :: 0 <= k < |c.log| && c.log[k].Control? && c.log[k].frame.WindowUpdate? ==> c.log[k].frame.incr > 0
  }

  lemma HandlerStaysPositive(c: Conn, l: S.Label)
    requires Positive(c) && S.IsLoopLabel(l) && Step(c, l).Some?
    ensures Positive(Step(c, l).value)
  {
  }

  lemma CallerStaysPositive(c: Conn, l: S.Label)
    requires Positive(c) && !S.IsLoopLabel(l) && !l.Arrive? && !l.Request? && Step(c, l).Some?
    ensures Positive(Step(c, l).value)
  {
    QuietLog(c, l);
  }

  lemma RequestStaysPositive(c: Conn, l: S.Label)
    requires Positive(c) && l.Request? && Step(c, l).Some?
    ensures Positive(Step(c, l).value)
  {
  }

  lemma ArrivalStaysPositive(c: Conn, l: S.Label)
    requires Positive(c) && l.Arrive? && Step(c, l).Some?
    ensures Positive(Step(c, l).value)
  {
    ArrivalLog(c, l.frame, l.acks);
  }

  lemma StaysPositive(c: Conn, l: S.Label, d: Conn)
    requires Positive(c) && Step(c, l) == Some(d)
    ensures Positive(d)
  {
    if S.IsLoopLabel(l) {
      HandlerStaysPositive(c, l);
    } else if l.Arrive? {
      ArrivalStaysPositive(c, l);
    } else if l.Request? {
      RequestStaysPositive(c, l);
    } else {
      CallerStaysPositive(c, l);
    }
  }

  lemma {:induction false} PositiveFrom(c: Conn, ls: seq<S.Label>)
    requires Positive(c) && Exec(c, ls).Some?
    ensures Positive(Exec(c, ls).value)
  {
    if ls != [] {
      var front, last := ls[..|ls| - 1], ls[|ls| - 1];
      PositiveFrom(c, front);
      StaysPositive(Exec(c, front).value, last, Exec(c, ls).value);
    }
  }

  /** In every run of a connection opened with a positive increment no WINDOW_UPDATE is empty. */
  lemma NoEmptyCredit(settings: seq<H2Wire.Setting>, window: nat, ls: seq<S.Label>, k: nat)
    requires Exec(Open(settings, window), ls).Some? && window > 0
    requires k < |Exec(Open(settings, window), ls).value.log|
    requires Exec(Open(settings, window), ls).value.log[k].Control?
    requires Exec(Open(settings, window), ls).value.log[k].frame.WindowUpdate?
    ensures Exec(Open(settings, window), ls).value.log[k].frame.incr > 0
  {
    PositiveFrom(Open(settings, window), ls);
  }
}
