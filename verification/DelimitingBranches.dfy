/**
 What one submission does to the queue, the timer, the link and the sequence number, branch by branch,
 in terms of lengths alone: with `max` the PDU limit, an SDU is too long above `max`, small below four
 fifths of it, and sent alone in between.
 */
module DelimitingBranches {
  import opened DelimitingModel
  import opened DelimitingRuns
  import opened Wrappers

  // ---------- The timer ----------

  // It is started by an SDU that fits a PDU when it was not running, stopped by one that is sent alone, and
  // otherwise left as it was.
  lemma TimerAfterSubmit(s: Sender, sdu: Sdu, now: Time)
    requires SenderInv(s)
    ensures Submit(s, sdu, now).0.timer
            == if 4 * s.max <= 5 * sdu.len && sdu.len <= s.max then None
               else if s.timer.None? && sdu.len <= s.max then Some(now + s.delay)
               else s.timer
  {
    hide Exact, Encapsulate, Fragments, Tail, FullPrefix;
  }

  // Due exactly the delay after the arrival of some SDU
  ghost predicate StartedByArrival(timer: Option<Time>, arrivals: seq<Time>, delay: Time) {
    timer.Some? ==> exists i :: 0 <= i < |arrivals| && timer.value == arrivals[i] + delay
  }

  lemma StartedLater(timer: Option<Time>, arrivals: seq<Time>, at: Time, delay: Time)
    requires StartedByArrival(timer, arrivals, delay)
    ensures StartedByArrival(timer, arrivals + [at], delay)
    ensures StartedByArrival(Some(at + delay), arrivals + [at], delay)
  {
    assert (arrivals + [at])[|arrivals|] == at;
    if timer.Some? {
      var i :| 0 <= i < |arrivals| && timer.value == arrivals[i] + delay;
      assert (arrivals + [at])[i] == arrivals[i];
    }
  }

  lemma NextKeepsStarted(y: System, e: Event, y': System)
    requires Next(y, e, y') && StartedByArrival(y.sender.timer, y.arrivals, y.sender.delay)
    ensures StartedByArrival(y'.sender.timer, y'.arrivals, y'.sender.delay)
  {
    hide StartedByArrival;
    match e
    case SubmitAt(sdu, at) =>
      TimerAfterSubmit(y.sender, sdu, at);
      SubmitKeepsStream(y.sender, sdu, at);
      StartedLater(y.sender.timer, y.arrivals, at, y.sender.delay);
      StoppedIsStarted(y'.arrivals, y.sender.delay);
      hide Submit;
    case TimerFires =>
      StoppedIsStarted(y'.arrivals, y.sender.delay);
    case DeliverAt(at) =>
  }

  lemma StoppedIsStarted(arrivals: seq<Time>, delay: Time)
    ensures StartedByArrival(None, arrivals, delay)
  {
  }

  // In every reachable state
  lemma {:induction false} TimerIsDueFromAnArrival(ys: seq<System>, es: seq<Event>, n: nat)
    requires Run(ys, es) && n < |ys|
    ensures ys[n].sender.timer.Some? ==>
              exists i :: 0 <= i < |ys[n].arrivals| && ys[n].sender.timer.value == ys[n].arrivals[i] + ys[0].sender.delay
  {
    RunInv(ys, es, n);
    RunStarted(ys, es, n);
    hide Inv;
  }

  lemma {:induction false} RunStarted(ys: seq<System>, es: seq<Event>, n: nat)
    requires Run(ys, es) && n < |ys|
    ensures StartedByArrival(ys[n].sender.timer, ys[n].arrivals, ys[n].sender.delay)
  {
    hide Next;
    if n > 0 {
      RunStarted(ys, es, n - 1);
      NextKeepsStarted(ys[n - 1], es[n - 1], ys[n]);
    }
  }

  // A small SDU that finds the timer idle finds nothing waiting, and makes it due at its own arrival plus the
  // delay; nothing is sent until then.
  lemma IdleTimerIsStarted(ys: seq<System>, es: seq<Event>, n: nat)
    requires Run(ys, es) && n < |es| && es[n].SubmitAt?
    requires ys[n].sender.timer == None && 5 * es[n].sdu.len < 4 * ys[0].sender.max
    ensures ys[n].sender.pending == [] && ys[n + 1].sent == ys[n].sent
    ensures ys[n + 1].sender.timer == Some(es[n].at + ys[0].sender.delay)
  {
    RunInv(ys, es, n);
    TimerAfterSubmit(ys[n].sender, es[n].sdu, es[n].at);
    WaitsIfItFits(ys[n].sender, es[n].sdu, es[n].at);
    assert Next(ys[n], es[n], ys[n + 1]);
    hide Submit, ReceiverInv, TimerInv, Decode;
  }

  // ---------- What is sent and what waits ----------

  // The whole SDU as one Data
  function Whole(sdu: Sdu): Data { Data(SduComplete, Some(sdu), sdu.len, 0) }

  function Waiting(ps: seq<Pdu>): seq<Data> {
    if ps == [] then [] else ps[0].data
  }

  function WaitingLength(ps: seq<Pdu>): nat {
    if ps == [] then 0 else ps[0].byteLength
  }

  // A small SDU that fits is concatenated with what waits, and nothing is sent.
  lemma WaitsIfItFits(s: Sender, sdu: Sdu, now: Time)
    requires SenderInv(s) && 5 * sdu.len < 4 * s.max && WaitingLength(s.pending) + sdu.len <= s.max
    ensures var (s', fs) := Submit(s, sdu, now);
      && fs == [] && s'.seqNum == s.seqNum
      && |s'.pending| == 1 && s'.pending[0].data == Waiting(s.pending) + [Whole(sdu)]
      && s'.pending[0].byteLength == WaitingLength(s.pending) + sdu.len
  {
    hide Exact;
    if s.pending != [] {
      assert s.pending == [s.pending[0]];
      EncapsulateAdds(s.pending[0], Complete(sdu));
    }
  }

  // A small SDU that does not fit fills the waiting PDU up to the limit, which is sent; the rest waits.
  lemma SplitsIfItDoesNot(s: Sender, sdu: Sdu, now: Time)
    requires SenderInv(s) && 5 * sdu.len < 4 * s.max && WaitingLength(s.pending) + sdu.len > s.max
    ensures s.pending != []
    ensures var (s', fs) := Submit(s, sdu, now); var room := s.max - s.pending[0].byteLength;
      && |fs| == 1 && fs[0].pdu.byteLength == s.max && fs[0].sduSeqNum == s'.seqNum == s.seqNum
      && fs[0].pdu.data == s.pending[0].data + [Data(FirstFrag, Some(sdu), room, sdu.len)]
      && |s'.pending| == 1 && s'.pending[0].data == [Data(LastFrag, None, sdu.len - room, 0)]
  {
    hide Exact, Submit, Encapsulate;
    SplitShape(s, sdu, now);
    var room := s.max - s.pending[0].byteLength;
    EncapsulateAdds(s.pending[0], First(sdu, room));
    EncapsulateAdds(EMPTY_PDU, Last(sdu.len - room));
  }

  // One that is not small but fits a PDU is sent alone, behind what waited and with the next number.
  lemma SentAlone(s: Sender, sdu: Sdu, now: Time)
    requires SenderInv(s) && 4 * s.max <= 5 * sdu.len && sdu.len <= s.max
    ensures var (s', fs) := Submit(s, sdu, now); var n := |s.pending|;
      && s'.pending == [] && s'.seqNum == (s.seqNum + 2) % 0x1_0000_0000
      && |fs| == n + 1
      && (forall i :: 0 <= i < n ==> fs[i].pdu == s.pending[i] && fs[i].sduSeqNum == s.seqNum)
      && fs[n].pdu.data == [Whole(sdu)] && fs[n].sduSeqNum == (s.seqNum + 1) % 0x1_0000_0000
      && fs[n].flags == Flags(true, false, false, false)
  {
    hide Exact;
    EncapsulateAdds(EMPTY_PDU, Complete(sdu));
  }

  // Too long for a PDU: of the n PDUs it needs, the first and the n - 2 in the middle are as long as the limit
  // and the last has the remainder; they follow what waited.
  lemma Fragmented(s: Sender, sdu: Sdu, now: Time) returns (n: nat)
    requires SenderInv(s) && sdu.len > s.max
    ensures n >= 2 && (n - 1) * s.max < sdu.len <= n * s.max
    ensures var (s', fs) := Submit(s, sdu, now); var w := |s.pending|;
      && s'.pending == [] && s'.seqNum == (s.seqNum + 1) % 0x1_0000_0000
      && |fs| == w + n
      && (forall i :: 0 <= i < w + n ==> fs[i].sduSeqNum == s.seqNum)
      && (forall i :: 0 <= i < w ==> fs[i].pdu == s.pending[i])
      && fs[w].pdu.data == [Data(FirstFrag, Some(sdu), s.max, sdu.len)]
      && (forall i :: w < i < w + n - 1 ==> fs[i].pdu.data == [Data(MiddleFrag, None, s.max, 0)])
      && fs[w + n - 1].pdu.data == [Data(LastFrag, None, sdu.len - (n - 1) * s.max, 0)]
  {
    hide Exact, Fragments, Encapsulate;
    var ds, w := Fragments(sdu, s.max), |s.pending|;
    n := |ds|;
    FragmentAt(sdu, s.max);
    forall i | w <= i < w + |ds|
      ensures (s.pending + Singles(ds))[i].data == [ds[i - w]]
    {
      EncapsulateAdds(EMPTY_PDU, ds[i - w]);
    }
  }

  lemma FragmentAt(sdu: Sdu, max: nat)
    requires 0 < max < sdu.len
    ensures var ds := Fragments(sdu, max); var n := |ds|;
      && n >= 2 && (n - 1) * max < sdu.len <= n * max
      && ds[0] == Data(FirstFrag, Some(sdu), max, sdu.len)
      && (forall i :: 0 < i < n - 1 ==> ds[i] == Data(MiddleFrag, None, max, 0))
      && ds[n - 1] == Data(LastFrag, None, sdu.len - (n - 1) * max, 0)
  {
    var t := Tail(sdu.len - max, max);
    TailAt(sdu.len - max, max);
    CeilingNext(|t|, sdu.len - max, max);
    assert |t| * max == (|t| - 1) * max + max;
  }

  lemma {:induction false} TailAt(length: nat, max: nat)
    requires max > 0 && length > 0
    ensures var t := Tail(length, max); var n := |t|;
      && IsCeiling(n, length, max)
      && (forall i :: 0 <= i < n - 1 ==> t[i] == Data(MiddleFrag, None, max, 0))
      && t[n - 1] == Data(LastFrag, None, length - (n - 1) * max, 0)
    decreases length
  {
    if length > max {
      var t := Tail(length - max, max);
      TailAt(length - max, max);
      CeilingNext(|t|, length - max, max);
      assert |t| * max == (|t| - 1) * max + max;
    }
  }

  // An SDU leaves at once and unfragmented exactly when it is not small and fits a PDU.
  lemma SentAtOnceIff(s: Sender, sdu: Sdu, now: Time)
    requires SenderInv(s)
    ensures var (_, fs) := Submit(s, sdu, now);
      (fs != [] && fs[|fs| - 1].pdu.data == [Whole(sdu)]) <==> 4 * s.max <= 5 * sdu.len && sdu.len <= s.max
  {
    if sdu.len > s.max {
      var n := Fragmented(s, sdu, now);
    } else if 4 * s.max <= 5 * sdu.len {
      SentAlone(s, sdu, now);
    } else if WaitingLength(s.pending) + sdu.len <= s.max {
      WaitsIfItFits(s, sdu, now);
    } else {
      SplitsIfItDoesNot(s, sdu, now);
    }
    hide Submit;
  }

  // When the timer fires everything that waits is sent, and the timer is idle.
  lemma FiringEmpties(s: Sender)
    ensures var (s', fs) := Fire(s);
      && s'.pending == [] && s'.timer == None && s'.seqNum == s.seqNum && |fs| == |s.pending|
      && forall i :: 0 <= i < |fs| ==> fs[i].pdu == s.pending[i] && fs[i].sduSeqNum == s.seqNum
  {
  }
}
