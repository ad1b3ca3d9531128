/**
 Offset and delay of the simple PTP client (ptp/simpleclient/measurements.go). Timestamps arrive one
 by one, in any order, and are collected per sequence number; `Latest` combines the newest complete
 pairs. A time that was never set is `None`.
 */
module Measurements {
  import opened Words

  type time = Option<int>

  datatype SyncData = SyncData(t1: time, t2: time, c1: int, c2: int) {
    predicate Complete() {
      t1.Some? && t2.Some?
    }
  }

  datatype DelayData = DelayData(t3: time, t4: time, c3: int) {
    predicate Complete() {
      t3.Some? && t4.Some?
    }
  }

  datatype Error = NoSyncData | NoDelayData

  type Result<+T> = Fallible<T, Error>

  datatype Measurement = Measurement(delay: int, offset: int, serverToClient: int, clientToServer: int, timestamp: int)

  /** The packets seen so far. */
  datatype Packet =
    | Sync(seqno: uint16, ts: time, correction: int)
    | FollowUp(seqno: uint16, ts: time, correction: int)
    | DelayReq(seqno: uint16, ts: time)
    | DelayResp(seqno: uint16, ts: time, correction: int)

  /** A later packet replaces what an earlier one with its sequence number said. */
  function SyncAfter(d: SyncData, p: Packet, n: uint16): SyncData {
    if p.Sync? && p.seqno == n then d.(t2 := p.ts, c1 := p.correction)
    else if p.FollowUp? && p.seqno == n then d.(t1 := p.ts, c2 := p.correction)
    else d
  }

  function DelayAfter(d: DelayData, p: Packet, n: uint16): DelayData {
    if p.DelayReq? && p.seqno == n then d.(t3 := p.ts)
    else if p.DelayResp? && p.seqno == n then d.(t4 := p.ts, c3 := p.correction)
    else d
  }

  /** What the newest packets with this sequence number say. */
  function SyncOf(seen: seq<Packet>, n: uint16): SyncData {
    if seen == [] then SyncData(None, None, 0, 0)
    else SyncAfter(SyncOf(seen[..|seen| - 1], n), seen[|seen| - 1], n)
  }

  function DelayOf(seen: seq<Packet>, n: uint16): DelayData {
    if seen == [] then DelayData(None, None, 0)
    else DelayAfter(DelayOf(seen[..|seen| - 1], n), seen[|seen| - 1], n)
  }

  predicate SyncKnown(seen: seq<Packet>, n: uint16) {
    exists i :: 0 <= i < |seen| && (seen[i].Sync? || seen[i].FollowUp?) && seen[i].seqno == n
  }

  predicate DelayKnown(seen: seq<Packet>, n: uint16) {
    exists i :: 0 <= i < |seen| && (seen[i].DelayReq? || seen[i].DelayResp?) && seen[i].seqno == n
  }

  /** A sequence number whose Sync and Follow_Up are both known, with the newest arrival. */
  ghost predicate NewestSync(seen: seq<Packet>, n: uint16) {
    && SyncOf(seen, n).Complete()
    && forall k: uint16 :: SyncOf(seen, k).Complete() ==> SyncOf(seen, k).t2.value <= SyncOf(seen, n).t2.value
  }

  ghost predicate NewestDelay(seen: seq<Packet>, n: uint16) {
    && DelayOf(seen, n).Complete()
    && forall k: uint16 :: DelayOf(seen, k).Complete() ==> DelayOf(seen, k).t4.value <= DelayOf(seen, n).t4.value
  }

  /** Forward, backward, half of the sum truncated, and what is left of the forward path. */
  function Combine(s: SyncData, d: DelayData): Measurement
    requires s.Complete() && d.Complete()
  {
    var backward := d.t4.value - d.t3.value - d.c3;
    var forward := s.t2.value - s.t1.value - s.c1 - s.c2;
    var delay := TruncDiv(backward + forward, 2);
    Measurement(delay, forward - delay, forward, backward, d.t4.value)
  }

  lemma {:induction false} UnknownIsEmpty(seen: seq<Packet>, n: uint16)
    ensures !SyncKnown(seen, n) ==> SyncOf(seen, n) == SyncData(None, None, 0, 0)
    ensures !DelayKnown(seen, n) ==> DelayOf(seen, n) == DelayData(None, None, 0)
  {
    if seen != [] {
      var before, p := seen[..|seen| - 1], seen[|seen| - 1];
      UnknownIsEmpty(before, n);
      if SyncKnown(before, n) {
        var i :| 0 <= i < |before| && (before[i].Sync? || before[i].FollowUp?) && before[i].seqno == n;
        assert seen[i] == before[i];
      }
      if DelayKnown(before, n) {
        var i :| 0 <= i < |before| && (before[i].DelayReq? || before[i].DelayResp?) && before[i].seqno == n;
        assert seen[i] == before[i];
      }
    }
  }

  /** How one more packet changes what is known about sequence number `n`. */
  ghost predicate Pushed(seen: seq<Packet>, p: Packet, n: uint16) {
    && (SyncKnown(seen + [p], n) <==> SyncKnown(seen, n) || ((p.Sync? || p.FollowUp?) && p.seqno == n))
    && (DelayKnown(seen + [p], n) <==> DelayKnown(seen, n) || ((p.DelayReq? || p.DelayResp?) && p.seqno == n))
    && SyncOf(seen + [p], n) == SyncAfter(SyncOf(seen, n), p, n)
    && DelayOf(seen + [p], n) == DelayAfter(DelayOf(seen, n), p, n)
  }

  lemma PushOne(seen: seq<Packet>, p: Packet, n: uint16)
    ensures Pushed(seen, p, n)
  {
    var more := seen + [p];
    assert more[|seen|] == p && forall i :: 0 <= i < |seen| ==> more[i] == seen[i];
    assert more[..|seen|] == seen;
  }

  /** The last packet of its kind and number: nothing after `i` replaces it. */
  predicate LastOf(seen: seq<Packet>, i: nat)
    requires i < |seen|
  {
    forall j :: i < j < |seen| ==> seen[j].seqno != seen[i].seqno || !SameKind(seen[j], seen[i])
  }

  predicate SameKind(p: Packet, q: Packet) {
    (p.Sync? && q.Sync?) || (p.FollowUp? && q.FollowUp?) || (p.DelayReq? && q.DelayReq?) || (p.DelayResp? && q.DelayResp?)
  }

  /**
   Where the four times and the corrections come from: t2 is the arrival of the last Sync, t1 the time in
   its last Follow_Up, t3 the departure of the last Delay_Req and t4 the time in its last Delay_Resp.
   */
  lemma {:induction false} TimesFrom(seen: seq<Packet>, i: nat)
    requires i < |seen| && LastOf(seen, i)
    ensures var p := seen[i];
            match p
            case Sync(n, ts, c) => SyncOf(seen, n).t2 == ts && SyncOf(seen, n).c1 == c
            case FollowUp(n, ts, c) => SyncOf(seen, n).t1 == ts && SyncOf(seen, n).c2 == c
            case DelayReq(n, ts) => DelayOf(seen, n).t3 == ts
            case DelayResp(n, ts, c) => DelayOf(seen, n).t4 == ts && DelayOf(seen, n).c3 == c
    decreases |seen|
  {
    if i < |seen| - 1 {
      var before := seen[..|seen| - 1];
      assert before[i] == seen[i] && forall j :: i < j < |before| ==> before[j] == seen[j];
      TimesFrom(before, i);
    }
  }

  /** A time that is set was set by a packet with this number. */
  lemma {:induction false} TimesKnown(seen: seq<Packet>, n: uint16)
    ensures SyncOf(seen, n).t2.Some? ==> exists i :: 0 <= i < |seen| && seen[i].Sync? && seen[i].seqno == n && LastOf(seen, i)
    ensures SyncOf(seen, n).t1.Some? ==> exists i :: 0 <= i < |seen| && seen[i].FollowUp? && seen[i].seqno == n && LastOf(seen, i)
    ensures DelayOf(seen, n).t3.Some? ==> exists i :: 0 <= i < |seen| && seen[i].DelayReq? && seen[i].seqno == n && LastOf(seen, i)
    ensures DelayOf(seen, n).t4.Some? ==> exists i :: 0 <= i < |seen| && seen[i].DelayResp? && seen[i].seqno == n && LastOf(seen, i)
    decreases |seen|
  {
    if seen != [] {
      var before, last := seen[..|seen| - 1], |seen| - 1;
      assert LastOf(seen, last);
      TimesKnown(before, n);
      forall i | 0 <= i < last && LastOf(before, i) && (seen[last].seqno != seen[i].seqno || !SameKind(seen[last], seen[i]))
        ensures LastOf(seen, i) && seen[i] == before[i]
      {
        assert forall j :: 0 <= j < last ==> before[j] == seen[j];
      }
    }
  }

  class MeasurementLog {
    var serverToClient: map<uint16, SyncData>
    var clientToServer: map<uint16, DelayData>
    ghost var seen: seq<Packet>

    /** The maps say about sequence number `n` what the packets do. */
    ghost predicate Agrees(n: uint16)
      reads this
    {
      && (n in serverToClient <==> SyncKnown(seen, n))
      && (n in clientToServer <==> DelayKnown(seen, n))
      && (n in serverToClient ==> serverToClient[n] == SyncOf(seen, n))
      && (n in clientToServer ==> clientToServer[n] == DelayOf(seen, n))
    }

    ghost predicate Valid()
      reads this
    {
      forall n: uint16 :: Agrees(n)
    }

    constructor ()
      ensures Valid() && seen == []
    {
      serverToClient, clientToServer, seen := map[], map[], [];
    }

    method AddSync(n: uint16, ts: time, correction: int)
      requires Valid()
      modifies this
      ensures Valid() && seen == old(seen) + [Sync(n, ts, correction)]
    {
      UnknownIsEmpty(seen, n);
      assert Agrees(n);
      if n in serverToClient {
        serverToClient := serverToClient[n := serverToClient[n].(t2 := ts, c1 := correction)];
      } else {
        serverToClient := serverToClient[n := SyncData(None, ts, correction, 0)];
      }
      ghost var p := Sync(n, ts, correction);
      seen := seen + [p];
      hide SyncKnown, DelayKnown, SyncOf, DelayOf;
      forall k: uint16
        ensures Agrees(k)
      {
        PushOne(old(seen), p, k);
        assert old(Agrees(k));
      }
    }

    method AddFollowUp(n: uint16, ts: time, correction: int)
      requires Valid()
      modifies this
      ensures Valid() && seen == old(seen) + [FollowUp(n, ts, correction)]
    {
      UnknownIsEmpty(seen, n);
      assert Agrees(n);
      if n in serverToClient {
        serverToClient := serverToClient[n := serverToClient[n].(t1 := ts, c2 := correction)];
      } else {
        serverToClient := serverToClient[n := SyncData(ts, None, 0, correction)];
      }
      ghost var p := FollowUp(n, ts, correction);
      seen := seen + [p];
      hide SyncKnown, DelayKnown, SyncOf, DelayOf;
      forall k: uint16
        ensures Agrees(k)
      {
        PushOne(old(seen), p, k);
        assert old(Agrees(k));
      }
    }

    method AddDelayReq(n: uint16, ts: time)
      requires Valid()
      modifies this
      ensures Valid() && seen == old(seen) + [DelayReq(n, ts)]
    {
      UnknownIsEmpty(seen, n);
      assert Agrees(n);
      if n in clientToServer {
        clientToServer := clientToServer[n := clientToServer[n].(t3 := ts)];
      } else {
        clientToServer := clientToServer[n := DelayData(ts, None, 0)];
      }
      ghost var p := DelayReq(n, ts);
      seen := seen + [p];
      hide SyncKnown, DelayKnown, SyncOf, DelayOf;
      forall k: uint16
        ensures Agrees(k)
      {
        PushOne(old(seen), p, k);
        assert old(Agrees(k));
      }
    }

    method AddDelayResp(n: uint16, ts: time, correction: int)
      requires Valid()
      modifies this
      ensures Valid() && seen == old(seen) + [DelayResp(n, ts, correction)]
    {
      UnknownIsEmpty(seen, n);
      assert Agrees(n);
      if n in clientToServer {
        clientToServer := clientToServer[n := clientToServer[n].(t4 := ts, c3 := correction)];
      } else {
        clientToServer := clientToServer[n := DelayData(None, ts, correction)];
      }
      ghost var p := DelayResp(n, ts, correction);
      seen := seen + [p];
      hide SyncKnown, DelayKnown, SyncOf, DelayOf;
      forall k: uint16
        ensures Agrees(k)
      {
        PushOne(old(seen), p, k);
        assert old(Agrees(k));
      }
    }

    /** `latest`: whatever the order in which the maps are walked. */
    method Latest() returns (r: Result<Measurement>)
      requires Valid()
      ensures (forall n: uint16 :: !SyncOf(seen, n).Complete()) ==> r == Err(NoSyncData)
      ensures (exists n: uint16 :: SyncOf(seen, n).Complete()) && (forall n: uint16 :: !DelayOf(seen, n).Complete()) ==>
                r == Err(NoDelayData)
      ensures (exists n: uint16 :: SyncOf(seen, n).Complete()) && (exists n: uint16 :: DelayOf(seen, n).Complete()) ==>
                exists i: uint16, j: uint16 :: NewestSync(seen, i) && NewestDelay(seen, j)
                  && r == Ok(Combine(SyncOf(seen, i), DelayOf(seen, j)))
    {
      hide TruncDiv;
      var i := LatestSync();
      var j := LatestDelay();
      if i == None {
        return Err(NoSyncData);
      }
      if j == None {
        return Err(NoDelayData);
      }
      assert Agrees(i.value) && Agrees(j.value);
      return Ok(Combine(serverToClient[i.value], clientToServer[j.value]));
    }

    /** The first scan. */
    method LatestSync() returns (best: Option<uint16>)
      requires Valid()
      ensures best.None? ==> forall n: uint16 :: !SyncOf(seen, n).Complete()
      ensures best.Some? ==> best.value in serverToClient && NewestSync(seen, best.value)
    {
      best := None;
      var todo := serverToClient.Keys;
      while todo != {}
        invariant todo <= serverToClient.Keys
        invariant best.Some? ==> best.value in serverToClient && serverToClient[best.value].Complete()
        invariant forall n :: n in serverToClient && n !in todo && serverToClient[n].Complete() ==>
                    best.Some? && serverToClient[n].t2.value <= serverToClient[best.value].t2.value
        decreases |todo|
      {
        var n :| n in todo;
        todo := todo - {n};
        var v := serverToClient[n];
        if v.Complete() && (best.None? || v.t2.value > serverToClient[best.value].t2.value) {
          best := Some(n);
        }
      }
      hide SyncKnown, DelayKnown;
      forall n: uint16 | SyncOf(seen, n).Complete()
        ensures n in serverToClient && serverToClient[n] == SyncOf(seen, n)
      {
        assert Agrees(n);
        UnknownIsEmpty(seen, n);
      }
      assert best.Some? ==> Agrees(best.value);
    }

    /** The second scan. */
    method LatestDelay() returns (best: Option<uint16>)
      requires Valid()
      ensures best.None? ==> forall n: uint16 :: !DelayOf(seen, n).Complete()
      ensures best.Some? ==> best.value in clientToServer && NewestDelay(seen, best.value)
    {
      best := None;
      var todo := clientToServer.Keys;
      while todo != {}
        invariant todo <= clientToServer.Keys
        invariant best.Some? ==> best.value in clientToServer && clientToServer[best.value].Complete()
        invariant forall n :: n in clientToServer && n !in todo && clientToServer[n].Complete() ==>
                    best.Some? && clientToServer[n].t4.value <= clientToServer[best.value].t4.value
        decreases |todo|
      {
        var n :| n in todo;
        todo := todo - {n};
        var v := clientToServer[n];
        if v.Complete() && (best.None? || v.t4.value > clientToServer[best.value].t4.value) {
          best := Some(n);
        }
      }
      hide SyncKnown, DelayKnown;
      forall n: uint16 | DelayOf(seen, n).Complete()
        ensures n in clientToServer && clientToServer[n] == DelayOf(seen, n)
      {
        assert Agrees(n);
        UnknownIsEmpty(seen, n);
      }
      assert best.Some? ==> Agrees(best.value);
    }
  }

  /**
   A client ahead by `theta`, a forward path of `out` and a backward path of `back` nanoseconds plus
   the residence times in the correction fields: delay and offset add up to the forward difference,
   and the offset is wrong by half the asymmetry of the path, rounded up.
   */
  lemma OffsetError(s: SyncData, d: DelayData, theta: int, out: nat, back: nat)
    requires s.Complete() && d.Complete()
    requires s.t2.value == s.t1.value + theta + out + s.c1 + s.c2
    requires d.t4.value == d.t3.value - theta + back + d.c3
    ensures var m := Combine(s, d);
            && m.delay + m.offset == m.serverToClient && m.timestamp == d.t4.value
            && m.serverToClient == out + theta && m.clientToServer == back - theta
            && m.delay == (out + back) / 2
            && out - back <= 2 * (m.offset - theta) <= out - back + 1
  {
    assert out + back == 2 * ((out + back) / 2) + (out + back) % 2;
  }
}
