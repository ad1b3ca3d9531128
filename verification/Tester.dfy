/**
 The linearizability tester (ptp/linearizability/linearizability_ptp4l.go): one side of a request and
 response protocol over a network that delays, duplicates, drops and reorders. Packets arrive
 decoded, and what the socket does with a packet that is sent is an input.

 `log` is history for the statements below; the program has no such variable.
 */
module Tester {
  import opened Words

  datatype Phase = Init | InProgress | Done

  datatype TestResult = TestResult(tx: int, rx: int)

  datatype Entry = Sent(seqno: uint16, ts: int) | Answered(seqno: uint16, tx: int, rx: int)

  datatype TesterState = TesterState(sequence: uint16, phase: Phase, result: Option<TestResult>,
                                     sendTS: map<uint16, int>, log: seq<Entry>)

  datatype Tlv = Grant(forDelayResp: bool, duration: uint32) | Cancel | OtherTlv

  datatype Message = Malformed | Signaling(tlvs: seq<Tlv>) | DelayResp(seqno: uint16, rx: int) | Unexpected

  datatype Error = BadMessage | GrantDenied | SendFailed | UnsupportedTlv | UnexpectedSequence
                 | DeadlineExceeded | Canceled

  /** The socket: a hardware timestamp for a packet that went out, or nothing. */
  type transmit = Option<int>

  // ----- single operations ------------------------------------------------------------------

  function NextSequence(n: uint16): uint16 {
    (n + 1) % 0x1_0000
  }

  /** `sendDelay`: the timestamp is remembered under the sequence number the packet carried. */
  function SendDelayStep(t: TesterState, tx: transmit): (TesterState, Option<Error>) {
    if tx == None then (t, Some(SendFailed))
    else (t.(sequence := NextSequence(t.sequence), sendTS := t.sendTS[t.sequence := tx.value],
             log := t.log + [Sent(t.sequence, tx.value)]), None)
  }

  /** The TLVs of a Signaling message, up to the first error; `txs` answers the requests it triggers. */
  function HandleTlvs(t: TesterState, tlvs: seq<Tlv>, txs: seq<transmit>): (TesterState, Option<Error>)
    requires |txs| == |tlvs|
    decreases |tlvs|
  {
    if tlvs == [] then (t, None)
    else
      var (u, err) := HandleTlv(t, tlvs[0], txs[0]);
      if err.Some? then (u, err) else HandleTlvs(u, tlvs[1..], txs[1..])
  }

  function HandleTlv(t: TesterState, tlv: Tlv, tx: transmit): (TesterState, Option<Error>) {
    match tlv
    case Grant(forDelayResp, duration) =>
      if !forDelayResp then (t, None)
      else if duration == 0 then (t, Some(GrantDenied))
      else SendDelayStep(t, tx)
    case Cancel => (t, None)
    case OtherTlv => (t, Some(UnsupportedTlv))
  }

  /** `handleMsg`. */
  function HandleMsgStep(t: TesterState, msg: Message, txs: seq<transmit>): (TesterState, Option<Error>)
    requires msg.Signaling? ==> |txs| == |msg.tlvs|
  {
    match msg
    case Malformed => (t, Some(BadMessage))
    case Signaling(tlvs) => HandleTlvs(t, tlvs, txs)
    case DelayResp(n, rx) =>
      if n !in t.sendTS then (t, Some(UnexpectedSequence))
      else (t.(sendTS := t.sendTS - {n}, result := Some(TestResult(t.sendTS[n], rx)), phase := Done,
               log := t.log + [Answered(n, t.sendTS[n], rx)]), None)
    case Unexpected => (t, None)
  }

  // ----- one run ----------------------------------------------------------------------------

  /** What the main loop meets next: a message, nothing to do, or the end of its context. */
  datatype Event = Receive(msg: Message, txs: seq<transmit>) | Idle(tx: transmit) | Expire(error: Error)

  predicate Proper(e: Event) {
    match e
    case Receive(msg, txs) => msg.Signaling? ==> |txs| == |msg.tlvs|
    case Idle(_) => true
    case Expire(error) => error == DeadlineExceeded || error == Canceled
  }

  datatype Outcome = Running | Finished | Failed(error: Error)

  /** The first turn resets the result and sends a request, or a subscription request. */
  function Begin(t: TesterState, subscribe: bool, tx: transmit): (TesterState, Outcome) {
    var cleared := t.(result := None);
    if tx == None then (cleared, Failed(SendFailed))
    else if subscribe then (cleared.(sequence := NextSequence(t.sequence), phase := InProgress), Running)
    else (SendDelayStep(cleared, tx).0.(phase := InProgress), Running)
  }

  function TurnStep(t: TesterState, subscribe: bool, e: Event): (TesterState, Outcome)
    requires Proper(e)
  {
    match e
    case Expire(error) => (t, Failed(error))
    case Receive(msg, txs) =>
      var (u, err) := HandleMsgStep(t, msg, txs);
      (u, if err.Some? then Failed(err.value) else Running)
    case Idle(tx) =>
      match t.phase
      case Init => Begin(t, subscribe, tx)
      case InProgress => (t, Running)
      case Done => (t, Finished)
  }

  predicate AllProper(events: seq<Event>) {
    forall i :: 0 <= i < |events| ==> Proper(events[i])
  }

  /** The main loop on the first `n` events; it stops at the first one that ends the run. */
  function Loop(t: TesterState, subscribe: bool, events: seq<Event>, n: nat): (TesterState, Outcome)
    requires n <= |events| && AllProper(events)
  {
    if n == 0 then (t, Running)
    else
      var (u, o) := Loop(t, subscribe, events, n - 1);
      if o != Running then (u, o) else TurnStep(u, subscribe, events[n - 1])
  }

  /** `runSingleTest`. */
  function SingleTest(t: TesterState, subscribe: bool, events: seq<Event>): (TesterState, Outcome)
    requires AllProper(events)
  {
    Loop(t.(phase := Init), subscribe, events, |events|)
  }

  // ----- safety over all runs ---------------------------------------------------------------

  /** Request `n` is open with timestamp `ts`: sent, and neither sent again nor answered since. */
  function Open(log: seq<Entry>, n: uint16): Option<int> {
    if log == [] then None
    else
      var e := log[|log| - 1];
      if e.seqno != n then Open(log[..|log| - 1], n)
      else if e.Sent? then Some(e.ts) else None
  }

  /** Every answer in the log closed a request that was open, with that request's timestamp. */
  ghost predicate AnswersMatch(log: seq<Entry>) {
    forall i :: 0 <= i < |log| && log[i].Answered? ==> Open(log[..i], log[i].seqno) == Some(log[i].tx)
  }

  ghost predicate Inv(t: TesterState) {
    && (forall n: uint16 :: Tracked(t, n))
    && AnswersMatch(t.log)
    && (t.phase == Done ==> t.result.Some?)
    && (t.result.Some? ==> exists i :: 0 <= i < |t.log| && Justifies(t.log[i], t.result.value))
  }

  ghost predicate Tracked(t: TesterState, n: uint16) {
    Open(t.log, n) == if n in t.sendTS then Some(t.sendTS[n]) else None
  }

  predicate Justifies(e: Entry, r: TestResult) {
    e.Answered? && e.tx == r.tx && e.rx == r.rx
  }

  lemma OpenAfter(log: seq<Entry>, e: Entry, n: uint16)
    ensures Open(log + [e], n) == if e.seqno != n then Open(log, n) else if e.Sent? then Some(e.ts) else None
  {
    assert (log + [e])[..|log|] == log;
  }

  lemma AnswersExtend(log: seq<Entry>, e: Entry)
    requires AnswersMatch(log) && (e.Answered? ==> Open(log, e.seqno) == Some(e.tx))
    ensures AnswersMatch(log + [e])
  {
    var more := log + [e];
    hide Open;
    forall i | 0 <= i < |more| && more[i].Answered?
      ensures Open(more[..i], more[i].seqno) == Some(more[i].tx)
    {
      if i < |log| {
        assert more[i] == log[i] && more[..i] == log[..i];
      } else {
        assert more[..i] == log;
      }
    }
  }

  lemma SendKeeps(t: TesterState, tx: transmit)
    requires Inv(t)
    ensures Inv(SendDelayStep(t, tx).0)
  {
    if tx.Some? {
      var e := Sent(t.sequence, tx.value);
      var u := SendDelayStep(t, tx).0;
      AnswersExtend(t.log, e);
      forall n: uint16
        ensures Tracked(u, n)
      {
        OpenAfter(t.log, e, n);
        assert Tracked(t, n);
      }
      if t.result.Some? {
        var i :| 0 <= i < |t.log| && Justifies(t.log[i], t.result.value);
        assert u.log[i] == t.log[i];
      }
    }
  }

  lemma AnswerKeeps(t: TesterState, n: uint16, rx: int)
    requires Inv(t) && n in t.sendTS
    ensures Inv(HandleMsgStep(t, DelayResp(n, rx), []).0)
  {
    var e := Answered(n, t.sendTS[n], rx);
    var u := HandleMsgStep(t, DelayResp(n, rx), []).0;
    assert Tracked(t, n);
    AnswersExtend(t.log, e);
    forall k: uint16
      ensures Tracked(u, k)
    {
      OpenAfter(t.log, e, k);
      assert Tracked(t, k);
    }
    assert Justifies(u.log[|t.log|], u.result.value);
  }

  lemma {:induction false} TlvsKeep(t: TesterState, tlvs: seq<Tlv>, txs: seq<transmit>)
    requires Inv(t) && |txs| == |tlvs|
    ensures var (u, err) := HandleTlvs(t, tlvs, txs);
            Inv(u) && u.phase == t.phase && u.result == t.result && |u.log| >= |t.log| && u.log[..|t.log|] == t.log
    decreases |tlvs|
  {
    if tlvs == [] {
      assert t.log[..|t.log|] == t.log;
    } else {
      SendKeeps(t, txs[0]);
      hide Inv;
      var (u, err) := HandleTlv(t, tlvs[0], txs[0]);
      assert u.log[..|t.log|] == t.log;
      if err.None? {
        TlvsKeep(u, tlvs[1..], txs[1..]);
        var v := HandleTlvs(u, tlvs[1..], txs[1..]).0;
        SliceOfPrefix(v.log, |u.log|, 0, |t.log|);
      }
    }
  }

  ghost predicate NewlyAnswered(t: TesterState, u: TesterState) {
    u.result.Some? && |u.log| > |t.log| && Justifies(u.log[|u.log| - 1], u.result.value)
  }

  /** What one turn of the loop keeps, and where a result can come from. */
  lemma TurnKeeps(t: TesterState, subscribe: bool, e: Event)
    requires Inv(t) && Proper(e)
    ensures var (u, o) := TurnStep(t, subscribe, e);
            && Inv(u) && |u.log| >= |t.log| && u.log[..|t.log|] == t.log
            && (o == Finished ==> t.phase == Done && u == t)
            && (u.phase == Done ==> (t.phase == Done && u.result == t.result) || NewlyAnswered(t, u))
  {
    assert t.log[..|t.log|] == t.log;
    match e
    case Expire(_) =>
    case Idle(tx) =>
      PhaseKeeps(t, tx);
    case Receive(msg, txs) =>
      match msg {
        case Signaling(tlvs) => TlvsKeep(t, tlvs, txs);
        case DelayResp(n, rx) =>
          if n in t.sendTS {
            AnswerKeeps(t, n, rx);
            assert HandleMsgStep(t, msg, txs) == HandleMsgStep(t, msg, []);
          }
        case _ =>
      }
  }

  /** Clearing the result and starting to wait do not touch what is tracked. */
  lemma PhaseKeeps(t: TesterState, tx: transmit)
    requires Inv(t)
    ensures t.phase != Done ==> Inv(t.(result := None))
    ensures var u := SendDelayStep(t.(result := None), tx).0;
            Inv(u.(phase := InProgress))
    ensures forall s: uint16 :: Inv(t.(result := None, sequence := s, phase := InProgress))
  {
    hide Open, AnswersMatch;
    forall n: uint16
      ensures Tracked(t.(result := None), n)
    {
      assert Tracked(t, n);
    }
    var c := t.(result := None, phase := InProgress);
    assert Inv(c) by {
      forall n: uint16
        ensures Tracked(c, n)
      {
        assert Tracked(t, n);
      }
    }
    SendKeeps(c, tx);
    forall s: uint16
      ensures Inv(t.(result := None, sequence := s, phase := InProgress))
    {
      var d := t.(result := None, sequence := s, phase := InProgress);
      forall n: uint16
        ensures Tracked(d, n)
      {
        assert Tracked(t, n);
      }
    }
  }

  /** The result stems from an answer handled after the first `from` entries of the log. */
  ghost predicate AnsweredSince(u: TesterState, from: nat) {
    u.result.Some? && exists i :: from <= i < |u.log| && Justifies(u.log[i], u.result.value)
  }

  lemma {:induction false} LoopKeeps(t: TesterState, subscribe: bool, events: seq<Event>, n: nat)
    requires Inv(t) && t.phase == Init && n <= |events| && AllProper(events)
    ensures var (u, o) := Loop(t, subscribe, events, n);
            && Inv(u) && |u.log| >= |t.log| && u.log[..|t.log|] == t.log
            && (o == Finished ==> u.phase == Done)
            && (u.phase == Done ==> AnsweredSince(u, |t.log|))
    decreases n
  {
    if n == 0 {
      assert t.log[..|t.log|] == t.log;
    } else {
      LoopKeeps(t, subscribe, events, n - 1);
      var (u, o) := Loop(t, subscribe, events, n - 1);
      hide Inv, TurnStep;
      if o == Running {
        TurnKeeps(u, subscribe, events[n - 1]);
        var v := TurnStep(u, subscribe, events[n - 1]).0;
        SliceOfPrefix(v.log, |u.log|, 0, |t.log|);
        if v.phase == Done && u.phase == Done && v.result == u.result {
          var i :| |t.log| <= i < |u.log| && Justifies(u.log[i], u.result.value);
          assert v.log[..|u.log|][i] == v.log[i];
        }
      }
    }
  }

  lemma StartKeeps(t: TesterState)
    requires Inv(t)
    ensures Inv(t.(phase := Init))
  {
    hide Open, AnswersMatch;
    forall n: uint16
      ensures Tracked(t.(phase := Init), n)
    {
      assert Tracked(t, n);
    }
  }

  /** Over every run: a test without an error has a result, from an answer handled in that very run. */
  lemma RunSafety(t: TesterState, subscribe: bool, events: seq<Event>)
    requires Inv(t) && AllProper(events)
    ensures var (u, o) := SingleTest(t, subscribe, events);
            && Inv(u) && |u.log| >= |t.log| && u.log[..|t.log|] == t.log
            && (o == Finished ==> u.phase == Done && AnsweredSince(u, |t.log|))
  {
    StartKeeps(t);
    LoopKeeps(t.(phase := Init), subscribe, events, |events|);
  }

  // ----- requests and answers ---------------------------------------------------------------

  /** An open request was sent, and its sequence number was not used since. */
  lemma {:induction false} OpenWitness(log: seq<Entry>, n: uint16) returns (k: nat)
    requires Open(log, n).Some?
    ensures k < |log| && log[k] == Sent(n, Open(log, n).value)
    ensures forall i :: k < i < |log| ==> log[i].seqno != n
  {
    var last := |log| - 1;
    if log[last].seqno == n {
      k := last;
    } else {
      k := OpenWitness(log[..last], n);
      assert forall i :: 0 <= i < last ==> log[..last][i] == log[i];
    }
  }

  /** Each request is answered at most once: between two answers there is the request of the second. */
  lemma AnsweredOnce(t: TesterState, i: nat, j: nat)
    requires Inv(t) && i < j < |t.log|
    requires t.log[i].Answered? && t.log[j].Answered? && t.log[i].seqno == t.log[j].seqno
    ensures exists k :: i < k < j && t.log[k] == Sent(t.log[j].seqno, t.log[j].tx)
  {
    var before := t.log[..j];
    hide Tracked;
    assert Open(before, t.log[j].seqno) == Some(t.log[j].tx);
    var k := OpenWitness(before, t.log[j].seqno);
    assert before[i] == t.log[i] && before[k] == t.log[k];
  }

  /** The request that produced the result was itself sent after the first `from` entries of the log. */
  ghost predicate OwnRequest(u: TesterState, from: nat) {
    && u.result.Some?
    && (exists k, i :: from <= k < i < |u.log| && Justifies(u.log[i], u.result.value)
                       && u.log[k] == Sent(u.log[i].seqno, u.log[i].tx))
  }

  /** A request that is open, but was not after the first `m` entries, was sent after them. */
  lemma {:induction false} OpenedLater(log: seq<Entry>, m: nat, n: uint16) returns (k: nat)
    requires m <= |log| && Open(log[..m], n).None? && Open(log, n).Some?
    ensures m <= k < |log| && log[k] == Sent(n, Open(log, n).value)
    decreases |log|
  {
    var last := |log| - 1;
    assert log[..|log|] == log;
    if log[last].seqno == n {
      k := last;
    } else {
      assert log[..last][..m] == log[..m];
      k := OpenedLater(log[..last], m, n);
    }
  }

  /** With no request open at `t`, a later answer is the answer to a later request. */
  lemma OwnFrom(t: TesterState, u: TesterState)
    requires Inv(t) && Inv(u) && t.sendTS == map[]
    requires |u.log| >= |t.log| && u.log[..|t.log|] == t.log && AnsweredSince(u, |t.log|)
    ensures OwnRequest(u, |t.log|)
  {
    var i :| |t.log| <= i < |u.log| && Justifies(u.log[i], u.result.value);
    var before, n := u.log[..i], u.log[i].seqno;
    assert Open(before, n) == Some(u.log[i].tx);
    assert Tracked(t, n);
    assert before[..|t.log|] == t.log;
    var k := OpenedLater(before, |t.log|, n);
    assert u.log[k] == before[k];
  }

  /** A late answer to an earlier request ends the new run before it has sent anything. */
  function LateAnswer(n: uint16): seq<Event> {
    [Receive(DelayResp(n, 0), []), Idle(None)]
  }

  lemma LateAnswerFinishes(t: TesterState, subscribe: bool, n: uint16)
    requires n in t.sendTS
    ensures AllProper(LateAnswer(n))
    ensures var (u, o) := SingleTest(t, subscribe, LateAnswer(n));
            && o == Finished && u.result == Some(TestResult(t.sendTS[n], 0))
            && u.log == t.log + [Answered(n, t.sendTS[n], 0)]
  {
    var events, s := LateAnswer(n), t.(phase := Init);
    assert Loop(s, subscribe, events, 0) == (s, Running);
    assert Loop(s, subscribe, events, 1) == TurnStep(s, subscribe, events[0]);
    assert Loop(s, subscribe, events, 2) == TurnStep(TurnStep(s, subscribe, events[0]).0, subscribe, events[1]);
  }

  /** Every successful run measures a request of its own if and only if no request is open at its start. */
  lemma StaleIff(t: TesterState, subscribe: bool)
    requires Inv(t)
    ensures (forall events: seq<Event> :: AllProper(events) && SingleTest(t, subscribe, events).1 == Finished ==>
               OwnRequest(SingleTest(t, subscribe, events).0, |t.log|)) <==> t.sendTS == map[]
  {
    if t.sendTS == map[] {
      forall events: seq<Event> | AllProper(events) && SingleTest(t, subscribe, events).1 == Finished
        ensures OwnRequest(SingleTest(t, subscribe, events).0, |t.log|)
      {
        RunSafety(t, subscribe, events);
        hide SingleTest, Inv, OwnRequest;
        OwnFrom(t, SingleTest(t, subscribe, events).0);
      }
    } else {
      var n :| n in t.sendTS;
      LateAnswerFinishes(t, subscribe, n);
      hide SingleTest;
      assert !OwnRequest(SingleTest(t, subscribe, LateAnswer(n)).0, |t.log|);
    }
  }

  // ----- what is acted on -------------------------------------------------------------------

  /** Packet numbers count up and wrap after 65535. */
  function Later(n: uint16, k: nat): uint16 {
    (n + k) % 65536
  }

  lemma SequenceWraps(n: uint16)
    ensures NextSequence(n) == Later(n, 1) && (n == 65535 ==> NextSequence(n) == 0) && (n < 65535 ==> NextSequence(n) == n + 1)
  {
  }

  /** A grant for Delay_Resp with any positive duration sends exactly one request, with the next number. */
  lemma GrantSends(t: TesterState, duration: uint32, ts: int)
    requires duration > 0
    ensures var (u, err) := HandleMsgStep(t, Signaling([Grant(true, duration)]), [Some(ts)]);
            && err == None && u.log == t.log + [Sent(t.sequence, ts)]
            && u.sendTS == t.sendTS[t.sequence := ts] && u.sequence == Later(t.sequence, 1)
            && u.phase == t.phase && u.result == t.result
  {
    OneTlv(t, Grant(true, duration), Some(ts));
    hide HandleTlvs;
  }

  /** A request that does not go out is an error and leaves no trace. */
  lemma GrantUnsent(t: TesterState, duration: uint32)
    requires duration > 0
    ensures HandleMsgStep(t, Signaling([Grant(true, duration)]), [None]) == (t, Some(SendFailed))
  {
    OneTlv(t, Grant(true, duration), None);
    hide HandleTlvs;
  }

  /** A duration of zero is a denial. */
  lemma GrantDenies(t: TesterState, tx: transmit)
    ensures HandleMsgStep(t, Signaling([Grant(true, 0)]), [tx]) == (t, Some(GrantDenied))
  {
    OneTlv(t, Grant(true, 0), tx);
    hide HandleTlvs;
  }

  /** Grants for other messages and cancellations change nothing; other TLVs are an error. */
  lemma OtherTlvs(t: TesterState, duration: uint32, tx: transmit)
    ensures HandleMsgStep(t, Signaling([Grant(false, duration)]), [tx]) == (t, None)
    ensures HandleMsgStep(t, Signaling([Cancel]), [tx]) == (t, None)
    ensures HandleMsgStep(t, Signaling([OtherTlv]), [tx]) == (t, Some(UnsupportedTlv))
  {
    OneTlv(t, Grant(false, duration), tx);
    OneTlv(t, Cancel, tx);
    OneTlv(t, OtherTlv, tx);
    hide HandleTlvs;
  }

  lemma OneTlv(t: TesterState, tlv: Tlv, tx: transmit)
    ensures HandleTlvs(t, [tlv], [tx]) == HandleTlv(t, tlv, tx)
  {
    hide HandleTlv;
    assert [tlv][1..] == [] && [tx][1..] == [];
    var (u, err) := HandleTlv(t, tlv, tx);
    assert HandleTlvs(u, [], []) == (u, None);
  }

  /** TLVs are handled in order, and an error is the last thing that happens. */
  lemma {:induction false} TlvsInOrder(t: TesterState, a: seq<Tlv>, b: seq<Tlv>, forA: seq<transmit>, forB: seq<transmit>)
    requires |a| == |forA| && |b| == |forB|
    ensures var (u, err) := HandleTlvs(t, a, forA);
            HandleTlvs(t, a + b, forA + forB) == if err.Some? then (u, err) else HandleTlvs(u, b, forB)
    decreases |a|
  {
    hide HandleTlv;
    if a == [] {
      assert a + b == b && forA + forB == forB;
    } else {
      assert (a + b)[1..] == a[1..] + b && (forA + forB)[1..] == forA[1..] + forB;
      var (u, err) := HandleTlv(t, a[0], forA[0]);
      TlvsInOrder(u, a[1..], b, forA[1..], forB);
    }
  }

  /** A message that cannot be decoded is an error, a message of another kind is ignored. */
  lemma OtherMessages(t: TesterState)
    ensures HandleMsgStep(t, Malformed, []) == (t, Some(BadMessage))
    ensures HandleMsgStep(t, Unexpected, []) == (t, None)
  {
  }

  /** An answer to an open request gives its times and closes it; any other answer is an error. */
  lemma AnswerIs(t: TesterState, n: uint16, rx: int)
    ensures var (u, err) := HandleMsgStep(t, DelayResp(n, rx), []);
            if n in t.sendTS then
              && err == None && u.phase == Done && u.result == Some(TestResult(t.sendTS[n], rx))
              && n !in u.sendTS && (forall k :: k in t.sendTS && k != n ==> k in u.sendTS && u.sendTS[k] == t.sendTS[k])
            else err == Some(UnexpectedSequence) && u == t
  {
  }

  /** A run with an answer: a request, its answer, done. */
  function AnsweredRun(n: uint16, ts: int, rx: int): seq<Event> {
    [Idle(Some(ts)), Receive(DelayResp(n, rx), []), Idle(None)]
  }

  lemma AnsweredRunFinishes(t: TesterState, ts: int, rx: int)
    ensures AllProper(AnsweredRun(t.sequence, ts, rx))
    ensures var (u, o) := SingleTest(t, false, AnsweredRun(t.sequence, ts, rx));
            && o == Finished && u.result == Some(TestResult(ts, rx))
            && u.log == t.log + [Sent(t.sequence, ts), Answered(t.sequence, ts, rx)]
  {
    var events, s := AnsweredRun(t.sequence, ts, rx), t.(phase := Init);
    var s1 := TurnStep(s, false, events[0]).0;
    var s2 := TurnStep(s1, false, events[1]).0;
    assert s1.phase == InProgress && s1.sendTS[t.sequence] == ts && s1.log == t.log + [Sent(t.sequence, ts)];
    assert s2.phase == Done && s2.log == s1.log + [Answered(t.sequence, ts, rx)];
    ThreeTurns(s, false, events);
  }

  lemma ThreeTurns(s: TesterState, subscribe: bool, events: seq<Event>)
    requires |events| == 3 && AllProper(events)
    ensures var (s1, o1) := TurnStep(s, subscribe, events[0]);
            var (s2, o2) := TurnStep(s1, subscribe, events[1]);
            o1 == Running && o2 == Running ==> Loop(s, subscribe, events, 3) == TurnStep(s2, subscribe, events[2])
  {
    hide TurnStep;
    assert Loop(s, subscribe, events, 0) == (s, Running);
    assert Loop(s, subscribe, events, 1) == TurnStep(s, subscribe, events[0]);
    var (s1, o1) := TurnStep(s, subscribe, events[0]);
    if o1 == Running {
      assert Loop(s, subscribe, events, 2) == TurnStep(s1, subscribe, events[1]);
    }
  }

  /** A subscribed run: a subscription request, its grant, the answer to the request that the grant triggers. */
  function SubscribedRun(n: uint16, sub: int, duration: uint32, ts: int, rx: int): seq<Event> {
    [Idle(Some(sub)), Receive(Signaling([Grant(true, duration)]), [Some(ts)]), Receive(DelayResp(Later(n, 1), rx), []), Idle(None)]
  }

  lemma SubscribedRunFinishes(t: TesterState, sub: int, duration: uint32, ts: int, rx: int)
    requires duration > 0
    ensures AllProper(SubscribedRun(t.sequence, sub, duration, ts, rx))
    ensures var (u, o) := SingleTest(t, true, SubscribedRun(t.sequence, sub, duration, ts, rx));
            && o == Finished && u.result == Some(TestResult(ts, rx))
            && u.log == t.log + [Sent(Later(t.sequence, 1), ts), Answered(Later(t.sequence, 1), ts, rx)]
  {
    var events, s := SubscribedRun(t.sequence, sub, duration, ts, rx), t.(phase := Init);
    var n := Later(t.sequence, 1);
    var s1 := TurnStep(s, true, events[0]).0;
    assert s1 == s.(result := None, sequence := n, phase := InProgress);
    GrantSends(s1, duration, ts);
    var s2 := TurnStep(s1, true, events[1]).0;
    hide HandleTlvs;
    assert s2.log == t.log + [Sent(n, ts)] && s2.sendTS[n] == ts && s2.phase == InProgress;
    var s3 := TurnStep(s2, true, events[2]).0;
    assert s3.phase == Done && s3.result == Some(TestResult(ts, rx)) && s3.log == s2.log + [Answered(n, ts, rx)];
    FourTurns(s, true, events);
  }

  lemma FourTurns(s: TesterState, subscribe: bool, events: seq<Event>)
    requires |events| == 4 && AllProper(events)
    ensures var (s1, o1) := TurnStep(s, subscribe, events[0]);
            var (s2, o2) := TurnStep(s1, subscribe, events[1]);
            var (s3, o3) := TurnStep(s2, subscribe, events[2]);
            o1 == Running && o2 == Running && o3 == Running ==>
              Loop(s, subscribe, events, 4) == TurnStep(s3, subscribe, events[3])
  {
    hide TurnStep;
    assert Loop(s, subscribe, events, 0) == (s, Running);
    assert Loop(s, subscribe, events, 1) == TurnStep(s, subscribe, events[0]);
    var (s1, o1) := TurnStep(s, subscribe, events[0]);
    if o1 == Running {
      assert Loop(s, subscribe, events, 2) == TurnStep(s1, subscribe, events[1]);
      var (s2, o2) := TurnStep(s1, subscribe, events[1]);
      if o2 == Running {
        assert Loop(s, subscribe, events, 3) == TurnStep(s2, subscribe, events[2]);
      }
    }
  }

  // ----- RunTest ----------------------------------------------------------------------------

  datatype Report = Report(result: Option<TestResult>, error: Option<Error>)

  function ErrorOf(o: Outcome): Option<Error> {
    if o.Failed? then Some(o.error) else None
  }

  /** `RunTest`: a second run with a new subscription when the first one timed out. */
  function RunTestStep(t: TesterState, first: seq<Event>, second: seq<Event>): (TesterState, Report)
    requires AllProper(first) && AllProper(second)
  {
    var (u, o) := SingleTest(t, false, first);
    if o == Failed(DeadlineExceeded) then
      var (v, p) := SingleTest(u, true, second);
      (v, Report(v.result, ErrorOf(p)))
    else (u, Report(u.result, ErrorOf(o)))
  }

  /**
   A report without an error carries the times of one answered request, whose answer this call handled;
   with no request open before the call, it also sent that request.
   */
  lemma ReportSafety(t: TesterState, first: seq<Event>, second: seq<Event>)
    requires Inv(t) && AllProper(first) && AllProper(second)
    requires var (u, o) := SingleTest(t, false, first);
             o != Running && (o == Failed(DeadlineExceeded) ==> SingleTest(u, true, second).1 != Running)
    ensures var (v, r) := RunTestStep(t, first, second);
            && Inv(v) && r.result == v.result
            && (r.error == None ==> AnsweredSince(v, |t.log|))
            && (r.error == None && t.sendTS == map[] ==> OwnRequest(v, |t.log|))
  {
    RunSafety(t, false, first);
    var (u, o) := SingleTest(t, false, first);
    RunSafety(u, true, second);
    hide SingleTest, Inv, OwnRequest;
    if o == Failed(DeadlineExceeded) {
      var v := SingleTest(u, true, second).0;
      assert AnsweredSince(v, |u.log|) ==> AnsweredSince(v, |t.log|);
      SliceOfPrefix(v.log, |u.log|, 0, |t.log|);
    }
    var (v, r) := RunTestStep(t, first, second);
    if r.error == None && t.sendTS == map[] {
      OwnFrom(t, v);
    }
  }

  /** A request that is never answered, until the deadline. */
  function LostRun(ts: int): seq<Event> {
    [Idle(Some(ts)), Expire(DeadlineExceeded)]
  }

  /** After a lost answer the second run subscribes anew, and a granted request is reported without an error. */
  lemma RenewedRunReports(t: TesterState, lost: int, sub: int, duration: uint32, ts: int, rx: int)
    requires duration > 0
    ensures var second := SubscribedRun(Later(t.sequence, 1), sub, duration, ts, rx);
            && AllProper(LostRun(lost)) && AllProper(second)
            && RunTestStep(t, LostRun(lost), second).1 == Report(Some(TestResult(ts, rx)), None)
  {
    var events, s := LostRun(lost), t.(phase := Init);
    assert Loop(s, false, events, 0) == (s, Running);
    assert Loop(s, false, events, 1) == TurnStep(s, false, events[0]);
    var u := TurnStep(s, false, events[0]).0;
    assert Loop(s, false, events, 2) == (u, Failed(DeadlineExceeded));
    assert u.sequence == Later(t.sequence, 1);
    SubscribedRunFinishes(u, sub, duration, ts, rx);
    hide Loop, TurnStep;
  }

  /** A first run that ends in any other way is final, whatever a second one would bring. */
  lemma FirstRunReports(t: TesterState, ts: int, rx: int, second: seq<Event>)
    requires AllProper(second)
    ensures var first := AnsweredRun(t.sequence, ts, rx);
            AllProper(first) && RunTestStep(t, first, second).1 == Report(Some(TestResult(ts, rx)), None)
    ensures var first := [Idle(Some(ts)), Expire(Canceled)];
            AllProper(first) && RunTestStep(t, first, second).1 == Report(None, Some(Canceled))
  {
    AnsweredRunFinishes(t, ts, rx);
    var events, s := [Idle(Some(ts)), Expire(Canceled)], t.(phase := Init);
    assert Loop(s, false, events, 0) == (s, Running);
    assert Loop(s, false, events, 1) == TurnStep(s, false, events[0]);
    var u := TurnStep(s, false, events[0]).0;
    assert Loop(s, false, events, 2) == (u, Failed(Canceled));
    assert u.result == None;
    hide Loop, TurnStep;
  }

  // ----- one request per run ----------------------------------------------------------------

  function Requests(log: seq<Entry>): nat {
    if log == [] then 0 else Requests(log[..|log| - 1]) + if log[|log| - 1].Sent? then 1 else 0
  }

  lemma RequestsSnoc(log: seq<Entry>, e: Entry)
    ensures Requests(log + [e]) == Requests(log) + if e.Sent? then 1 else 0
  {
    assert (log + [e])[..|log|] == log;
  }

  predicate NoSignaling(events: seq<Event>) {
    forall i :: 0 <= i < |events| && events[i].Receive? ==> !events[i].msg.Signaling?
  }

  /** The requests that a turn without grants may still send: one before the start, none after it. */
  lemma TurnRequests(t: TesterState, subscribe: bool, e: Event)
    requires Proper(e) && (e.Receive? ==> !e.msg.Signaling?)
    ensures var u := TurnStep(t, subscribe, e).0;
            Requests(u.log) + (if u.phase == Init && !subscribe then 1 else 0) <=
            Requests(t.log) + (if t.phase == Init && !subscribe then 1 else 0)
  {
    hide Requests;
    if e.Idle? && e.tx.Some? {
      RequestsSnoc(t.log, Sent(t.sequence, e.tx.value));
    } else if e.Receive? && e.msg.DelayResp? && e.msg.seqno in t.sendTS {
      RequestsSnoc(t.log, Answered(e.msg.seqno, t.sendTS[e.msg.seqno], e.msg.rx));
    }
  }

  lemma {:induction false} LoopRequests(t: TesterState, subscribe: bool, events: seq<Event>, n: nat)
    requires n <= |events| && AllProper(events) && NoSignaling(events) && t.phase == Init
    ensures var u := Loop(t, subscribe, events, n).0;
            Requests(u.log) + (if u.phase == Init && !subscribe then 1 else 0) <= Requests(t.log) + if subscribe then 0 else 1
    decreases n
  {
    hide Requests, TurnStep;
    if n > 0 {
      LoopRequests(t, subscribe, events, n - 1);
      TurnRequests(Loop(t, subscribe, events, n - 1).0, subscribe, events[n - 1]);
    }
  }

  /** A run sends one request by itself, or none with a subscription; every other one is triggered by a grant. */
  lemma OneRequest(t: TesterState, subscribe: bool, events: seq<Event>)
    requires AllProper(events) && NoSignaling(events)
    ensures Requests(SingleTest(t, subscribe, events).0.log) <= Requests(t.log) + if subscribe then 0 else 1
  {
    hide Loop, Requests;
    LoopRequests(t.(phase := Init), subscribe, events, |events|);
  }

  // ----- the program ------------------------------------------------------------------------

  class PTP4lTester {
    var sequence: uint16
    var phase: Phase
    var result: Option<TestResult>
    var sendTS: map<uint16, int>
    ghost var log: seq<Entry>

    ghost function State(): TesterState
      reads this
    {
      TesterState(sequence, phase, result, sendTS, log)
    }

    constructor ()
      ensures State() == TesterState(0, Init, None, map[], []) && Inv(State())
    {
      sequence, phase, result, sendTS, log := 0, Init, None, map[], [];
    }

    method SendDelay(tx: transmit) returns (err: Option<Error>)
      modifies this
      ensures (State(), err) == old(SendDelayStep(State(), tx))
    {
      if tx == None {
        return Some(SendFailed);
      }
      var n := sequence;
      sequence := NextSequence(sequence);
      sendTS := sendTS[n := tx.value];
      log := log + [Sent(n, tx.value)];
      return None;
    }

    method HandleMsg(msg: Message, txs: seq<transmit>) returns (err: Option<Error>)
      requires msg.Signaling? ==> |txs| == |msg.tlvs|
      modifies this
      ensures (State(), err) == old(HandleMsgStep(State(), msg, txs))
    {
      match msg
      case Malformed => return Some(BadMessage);
      case Unexpected => return None;
      case DelayResp(n, rx) =>
        if n !in sendTS {
          return Some(UnexpectedSequence);
        }
        var ts := sendTS[n];
        sendTS := sendTS - {n};
        result := Some(TestResult(ts, rx));
        phase := Done;
        log := log + [Answered(n, ts, rx)];
        return None;
      case Signaling(tlvs) =>
        ghost var all := HandleTlvs(State(), tlvs, txs);
        for i := 0 to |tlvs|
          invariant all == HandleTlvs(State(), tlvs[i..], txs[i..])
        {
          assert tlvs[i..][1..] == tlvs[i + 1..] && txs[i..][1..] == txs[i + 1..];
          match tlvs[i]
          case Grant(forDelayResp, duration) =>
            if forDelayResp {
              if duration == 0 {
                return Some(GrantDenied);
              }
              var e := SendDelay(txs[i]);
              if e.Some? {
                return e;
              }
            }
          case Cancel =>
          case OtherTlv => return Some(UnsupportedTlv);
        }
        return None;
    }

    /** `runSingleTest`, on the events that its loop meets. */
    method RunSingleTest(subscribe: bool, events: seq<Event>) returns (o: Outcome)
      requires AllProper(events)
      modifies this
      ensures (State(), o) == old(SingleTest(State(), subscribe, events))
    {
      phase := Init;
      ghost var start := State();
      hide HandleMsgStep;
      for i := 0 to |events|
        invariant Loop(start, subscribe, events, i) == (State(), Running)
      {
        ghost var before := State();
        o := Turn(subscribe, events[i]);
        assert Loop(start, subscribe, events, i + 1) == TurnStep(before, subscribe, events[i]);
        if o != Running {
          LoopStays(start, subscribe, events, i + 1, |events|);
          return;
        }
      }
      return Running;
    }

    method Turn(subscribe: bool, e: Event) returns (o: Outcome)
      requires Proper(e)
      modifies this
      ensures (State(), o) == old(TurnStep(State(), subscribe, e))
    {
      hide HandleMsgStep;
      match e
      case Expire(error) => return Failed(error);
      case Receive(msg, txs) =>
        var err := HandleMsg(msg, txs);
        return if err.Some? then Failed(err.value) else Running;
      case Idle(tx) =>
        match phase
        case Init =>
          result := None;
          if subscribe {
            if tx == None {
              return Failed(SendFailed);
            }
            sequence := NextSequence(sequence);
          } else {
            var err := SendDelay(tx);
            if err.Some? {
              return Failed(SendFailed);
            }
          }
          phase := InProgress;
          return Running;
        case InProgress => return Running;
        case Done => return Finished;
    }

    /** `RunTest`, on what its one or two runs meet. */
    method RunTest(first: seq<Event>, second: seq<Event>) returns (report: Report)
      requires AllProper(first) && AllProper(second)
      modifies this
      ensures (State(), report) == old(RunTestStep(State(), first, second))
    {
      hide SingleTest;
      var o := RunSingleTest(false, first);
      if o == Failed(DeadlineExceeded) {
        o := RunSingleTest(true, second);
      }
      return Report(result, ErrorOf(o));
    }
  }

  lemma {:induction false} LoopStays(t: TesterState, subscribe: bool, events: seq<Event>, n: nat, m: nat)
    requires n <= m <= |events| && AllProper(events) && Loop(t, subscribe, events, n).1 != Running
    ensures Loop(t, subscribe, events, m) == Loop(t, subscribe, events, n)
    decreases m
  {
    if n < m {
      LoopStays(t, subscribe, events, n, m - 1);
    }
  }
}
