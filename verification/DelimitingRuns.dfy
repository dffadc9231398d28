/**
 Runs of a delimiting sender and receiver joined by an in-order, loss-free link: SDU submissions,
 timer firings and field deliveries interleave freely, under a clock.
 */
module DelimitingRuns {
  import opened DelimitingModel
  import opened Wrappers

  // ---------- One submission ----------

  // The Data that a submitted SDU becomes
  function Encoding(s: Sender, sdu: Sdu): seq<Data>
    requires SenderInv(s)
  {
    if sdu.len > s.max then Fragments(sdu, s.max)
    else if Small(sdu.len, s.max) && s.pending != [] && s.max - s.pending[0].byteLength < sdu.len then
      var rest := s.max - s.pending[0].byteLength;
      [First(sdu, rest)] + Tail(sdu.len - rest, s.max)
    else [Complete(sdu)]
  }

  lemma {:induction false} TailCloses(a: Decoder, s: Sdu, length: nat, max: nat)
    requires a.ok && a.open != [] && a.open[0].sdu == Some(s) && max > 0
    requires SumLength(a.open) + length == s.len
    ensures Decode(a, Tail(length, max)) == a.(done := a.done + [s], open := [])
    decreases length
  {
    DecodeFirst(a, Tail(length, max));
    if length > max {
      var b := Step(a, Middle(max));
      assert b.open[..|b.open| - 1] == a.open;
      TailCloses(b, s, length - max, max);
      assert Tail(length, max)[1..] == Tail(length - max, max);
    }
  }

  lemma FirstOpens(a: Decoder, s: Sdu, n: nat)
    requires a.ok && a.open == []
    ensures Decode(a, [First(s, n)]) == a.(open := [First(s, n)])
  {
    assert [First(s, n)][..0] == [];
  }

  lemma FragmentedDecodes(a: Decoder, s: Sdu, n: nat, max: nat)
    requires a.ok && a.open == [] && max > 0 && n <= s.len
    ensures Decode(a, [First(s, n)] + Tail(s.len - n, max)) == a.(done := a.done + [s])
  {
    FirstOpens(a, s, n);
    DecodeAppend(a, [First(s, n)], Tail(s.len - n, max));
    SumOne(First(s, n));
    TailCloses(a.(open := [First(s, n)]), s, s.len - n, max);
  }

  // Whatever the sender's state, the decoder reads one more SDU.
  lemma EncodingDecodes(a: Decoder, s: Sender, sdu: Sdu)
    requires SenderInv(s) && a.ok && a.open == []
    ensures Decode(a, Encoding(s, sdu)) == a.(done := a.done + [sdu])
  {
    hide Decode;
    if sdu.len > s.max {
      FragmentedDecodes(a, sdu, s.max, s.max);
    } else if Encoding(s, sdu) == [Complete(sdu)] {
      DecodeFirst(a, [Complete(sdu)]);
      DecodeNothing(Step(a, Complete(sdu)));
    } else {
      FragmentedDecodes(a, sdu, s.max - s.pending[0].byteLength, s.max);
    }
  }

  lemma DecodeNothing(a: Decoder)
    ensures forall ds :: ds == [] ==> Decode(a, ds) == a
  {
  }

  lemma ExactSingle(d: Data)
    ensures Exact(Single(d)) && Single(d).data == [d] && Single(d).byteLength == d.byteLength
  {
    EncapsulateExact(EMPTY_PDU, d);
  }

  // What the link may carry: exact flags and length, and never more than the limit
  ghost predicate GoodField(f: Field, max: nat) {
    Exact(f.pdu) && f.flags == f.pdu.flags && f.pdu.byteLength <= max
  }

  lemma DataOfOne(p: Pdu)
    ensures DataOf([p]) == p.data && DataOf([]) == []
  {
    assert [p][..0] == [];
  }

  lemma PdusAppend(x: seq<Field>, y: seq<Field>)
    ensures PdusOf(x + y) == PdusOf(x) + PdusOf(y)
    ensures DataOf(PdusOf(x + y)) == DataOf(PdusOf(x)) + DataOf(PdusOf(y))
  {
    DataOfAppend(PdusOf(x), PdusOf(y));
  }

  lemma PdusOfFields(ps: seq<Pdu>, sn: nat)
    ensures PdusOf(Fields(ps, sn)) == ps
  {
  }

  // A small SDU that does not fit: the pending PDU is filled up exactly and leaves; the rest waits.
  lemma SplitShape(s: Sender, sdu: Sdu, now: Time)
    requires SenderInv(s) && Small(sdu.len, s.max) && s.pending != [] && s.max - s.pending[0].byteLength < sdu.len
    ensures var rest := s.max - s.pending[0].byteLength;
      && Submit(s, sdu, now) == (s.(pending := [Single(Last(sdu.len - rest))]),
                                 Fields([Encapsulate(s.pending[0], First(sdu, rest))], s.seqNum))
      && Tail(sdu.len - rest, s.max) == [Last(sdu.len - rest)]
  {
    hide Fields;
    var rest := s.max - s.pending[0].byteLength;
    var p0 := Encapsulate(s.pending[0], First(sdu, rest));
    assert s.pending[0 := p0] == [p0];
    assert Singles([Last(sdu.len - rest)]) == [Single(Last(sdu.len - rest))];
    var ps := [p0] + [Single(Last(sdu.len - rest))];
    assert ps[1..] == [Single(Last(sdu.len - rest))] && ps[..1] == [p0];
    assert FullPrefix(ps[1..], s.max) == 0;
    assert FullPrefix(ps, s.max) == 1;
  }

  // One submission keeps the sender's invariant, loses no byte, reorders nothing, and sends only good fields.
  lemma SubmitKeepsStream(s: Sender, sdu: Sdu, now: Time)
    requires SenderInv(s)
    ensures var (s', fs) := Submit(s, sdu, now);
      && SenderInv(s') && s'.max == s.max && s'.delay == s.delay
      && DataOf(PdusOf(fs)) + DataOf(s'.pending) == DataOf(s.pending) + Encoding(s, sdu)
      && forall f :: f in fs ==> GoodField(f, s.max)
  {
    hide Exact, DataOf, Encapsulate, Single, Fragments, FullPrefix;
    DataOfOne(EMPTY_PDU);
    if sdu.len > s.max {
      OversizeKeepsStream(s, sdu);
    } else if !Small(sdu.len, s.max) {
      MediumKeepsStream(s, sdu);
    } else if s.pending == [] {
      ExactSingle(Complete(sdu));
      DataOfOne(Single(Complete(sdu)));
    } else if s.max - s.pending[0].byteLength < sdu.len {
      SplitKeepsStream(s, sdu, now);
    } else {
      FitKeepsStream(s, sdu);
    }
  }

  lemma FitKeepsStream(s: Sender, sdu: Sdu)
    requires SenderInv(s) && s.pending != [] && s.pending[0].byteLength + sdu.len <= s.max
    ensures var p := Encapsulate(s.pending[0], Complete(sdu));
      && s.pending[|s.pending| - 1 := p] == [p] && Exact(p) && p.byteLength <= s.max
      && DataOf([p]) == DataOf(s.pending) + [Complete(sdu)]
  {
    hide Exact, DataOf, Encapsulate;
    var p := Encapsulate(s.pending[0], Complete(sdu));
    EncapsulateExact(s.pending[0], Complete(sdu));
    EncapsulateAdds(s.pending[0], Complete(sdu));
    DataOfOne(p);
    DataOfOne(s.pending[0]);
    assert s.pending == [s.pending[0]];
  }

  lemma EncapsulateAdds(p: Pdu, d: Data)
    ensures Encapsulate(p, d).data == p.data + [d] && Encapsulate(p, d).byteLength == p.byteLength + d.byteLength
  {
  }

  lemma FieldsGood(ps: seq<Pdu>, sn: nat, max: nat)
    requires forall i :: 0 <= i < |ps| ==> Exact(ps[i]) && ps[i].byteLength <= max
    ensures forall f :: f in Fields(ps, sn) ==> GoodField(f, max)
  {
    hide Exact;
  }

  lemma OversizeKeepsStream(s: Sender, sdu: Sdu)
    requires SenderInv(s) && sdu.len > s.max
    ensures var fs := Fields(s.pending + Singles(Fragments(sdu, s.max)), s.seqNum);
      && DataOf(PdusOf(fs)) == DataOf(s.pending) + Fragments(sdu, s.max)
      && forall f :: f in fs ==> GoodField(f, s.max)
  {
    hide Exact, Single, Fragments, DataOf;
    var ds := Fragments(sdu, s.max);
    var ps := s.pending + Singles(ds);
    FragmentsAddUp(sdu, s.max);
    DataOfAppend(s.pending, Singles(ds));
    DataOfSingles(ds);
    PdusOfFields(ps, s.seqNum);
    forall i | 0 <= i < |ps|
      ensures Exact(ps[i]) && ps[i].byteLength <= s.max
    {
      if i >= |s.pending| {
        assert ps[i] == Single(ds[i - |s.pending|]) && ds[i - |s.pending|] in ds;
        ExactSingle(ds[i - |s.pending|]);
      }
    }
    FieldsGood(ps, s.seqNum, s.max);
  }

  lemma MediumKeepsStream(s: Sender, sdu: Sdu)
    requires SenderInv(s) && sdu.len <= s.max
    ensures var fs := Fields(s.pending, s.seqNum)
                      + [Field(Single(Complete(sdu)), Flags(true, false, false, false), Inc(s.seqNum))];
      && DataOf(PdusOf(fs)) == DataOf(s.pending) + [Complete(sdu)]
      && forall f :: f in fs ==> GoodField(f, s.max)
  {
    hide Exact;
    var last := Field(Single(Complete(sdu)), Flags(true, false, false, false), Inc(s.seqNum));
    ExactSingle(Complete(sdu));
    PdusAppend(Fields(s.pending, s.seqNum), [last]);
    PdusOfFields(s.pending, s.seqNum);
    DataOfOne(last.pdu);
    assert PdusOf([last]) == [last.pdu];
  }

  lemma SplitKeepsStream(s: Sender, sdu: Sdu, now: Time)
    requires SenderInv(s) && Small(sdu.len, s.max) && s.pending != [] && s.max - s.pending[0].byteLength < sdu.len
    ensures var (s', fs) := Submit(s, sdu, now);
      && SenderInv(s')
      && DataOf(PdusOf(fs)) == DataOf(s.pending) + [First(sdu, s.max - s.pending[0].byteLength)]
      && DataOf(PdusOf(fs)) + DataOf(s'.pending) == DataOf(s.pending) + Encoding(s, sdu)
      && forall f :: f in fs ==> GoodField(f, s.max)
  {
    hide Exact, DataOf, Encapsulate, Single;
    var rest := s.max - s.pending[0].byteLength;
    var p0 := Encapsulate(s.pending[0], First(sdu, rest));
    SplitShape(s, sdu, now);
    EncapsulateExact(s.pending[0], First(sdu, rest));
    EncapsulateAdds(s.pending[0], First(sdu, rest));
    ExactSingle(Last(sdu.len - rest));
    DataOfOne(Single(Last(sdu.len - rest)));
    DataOfOne(p0);
    DataOfOne(s.pending[0]);
    PdusOfFields([p0], s.seqNum);
    assert s.pending == [s.pending[0]];
    assert s.pending[0].data + [First(sdu, rest)] + [Last(sdu.len - rest)]
           == s.pending[0].data + ([First(sdu, rest)] + [Last(sdu.len - rest)]);
  }

  // ---------- The system ----------

  // `sent` is everything that ever entered the link; the first `received` fields have left it.
  datatype System = System(
    sender: Sender, now: Time,
    submitted: seq<Sdu>, arrivals: seq<Time>,
    sent: seq<Field>, received: nat,
    dataQIn: seq<Data>, delivered: seq<Sdu>)

  datatype Event = SubmitAt(sdu: Sdu, at: Time) | TimerFires | DeliverAt(at: Time)

  ghost predicate Init(y: System) {
    && y.sender.max > 0 && y.sender.delay >= 0.0 && y.sender.pending == [] && y.sender.timer == None
    && y.submitted == [] && y.arrivals == [] && y.sent == [] && y.received == 0
    && y.dataQIn == [] && y.delivered == []
  }

  // An event happens at or after the present, and never after a timer that is still due.
  predicate Timely(y: System, at: Time) {
    y.now <= at && (y.sender.timer.Some? ==> at <= y.sender.timer.value)
  }

  ghost predicate Next(y: System, e: Event, y': System) {
    match e
    case SubmitAt(sdu, at) =>
      && Timely(y, at) && SenderInv(y.sender)
      && var (s, fs) := Submit(y.sender, sdu, at);
         y' == y.(sender := s, now := at, submitted := y.submitted + [sdu], arrivals := y.arrivals + [at],
                  sent := y.sent + fs)
    case TimerFires =>
      && y.sender.timer.Some? && y.now <= y.sender.timer.value
      && var (s, fs) := Fire(y.sender);
         y' == y.(sender := s, now := y.sender.timer.value, sent := y.sent + fs)
    case DeliverAt(at) =>
      && Timely(y, at) && y.received < |y.sent|
      && var (out, q) := Drain(y.dataQIn + y.sent[y.received].pdu.data);
         y' == y.(now := at, received := y.received + 1, dataQIn := q, delivered := y.delivered + out)
  }

  ghost predicate Run(ys: seq<System>, es: seq<Event>) {
    && |ys| == |es| + 1 && Init(ys[0])
    && forall i :: 0 <= i < |es| ==> Next(ys[i], es[i], ys[i + 1])
  }

  // What the reference decoder makes of everything sent so far, and of what has been received
  function OnWire(y: System): Decoder { Decode(START, DataOf(PdusOf(y.sent))) }

  function AtReceiver(y: System): Decoder
    requires y.received <= |y.sent|
  {
    Decode(START, DataOf(PdusOf(y.sent[..y.received])))
  }

  // The bytes sent and pending decode to exactly the submitted SDUs, with nothing left open.
  ghost predicate StreamInv(y: System) {
    && SenderInv(y.sender)
    && Decode(OnWire(y), DataOf(y.sender.pending)) == Decoder(y.submitted, [], true)
    && (y.sender.pending != [] ==> y.sender.pending[0].data != [])
    && forall f :: f in y.sent ==> GoodField(f, y.sender.max)
  }

  ghost predicate ReceiverInv(y: System) {
    && y.received <= |y.sent|
    && AtReceiver(y) == Decoder(y.delivered, y.dataQIn, true)
    && OpenShape(y.dataQIn)
  }

  // Every SDU from `left` on is still within its deadline, and the timer is due by then.
  ghost predicate Deadlines(arrivals: seq<Time>, left: nat, timer: Option<Time>, now: Time, delay: Time) {
    && (forall i, j :: 0 <= i <= j < |arrivals| ==> arrivals[i] <= arrivals[j])
    && (forall i :: 0 <= i < |arrivals| ==> arrivals[i] <= now)
    && (timer.Some? ==> now <= timer.value <= now + delay)
    && (forall i :: left <= i < |arrivals| ==> timer.Some? && timer.value <= arrivals[i] + delay)
  }

  ghost predicate TimerInv(y: System) {
    && |y.arrivals| == |y.submitted|
    && Deadlines(y.arrivals, |OnWire(y).done|, y.sender.timer, y.now, y.sender.delay)
  }

  ghost predicate Inv(y: System) {
    StreamInv(y) && ReceiverInv(y) && TimerInv(y)
  }

  // ---------- Every step keeps the invariant ----------

  lemma InitInv(y: System)
    requires Init(y)
    ensures Inv(y)
  {
    assert PdusOf([]) == [] && DataOf([]) == [] && Decode(START, []) == START;
    assert y.sent[..0] == [];
  }

  // Appending to `sent` does not disturb what was received.
  lemma ReceiverFrame(y: System, fs: seq<Field>)
    requires y.received <= |y.sent|
    ensures (y.sent + fs)[..y.received] == y.sent[..y.received]
  {
  }

  lemma WireGrows(y: System, fs: seq<Field>)
    ensures Decode(START, DataOf(PdusOf(y.sent + fs))) == Decode(OnWire(y), DataOf(PdusOf(fs)))
  {
    PdusAppend(y.sent, fs);
    DecodeAppend(START, DataOf(PdusOf(y.sent)), DataOf(PdusOf(fs)));
  }

  lemma SubmitKeepsStreamInv(y: System, e: Event, y': System)
    requires StreamInv(y) && e.SubmitAt? && Next(y, e, y')
    ensures StreamInv(y')
  {
    hide Decode, Submit, Exact;
    var (s, fs) := Submit(y.sender, e.sdu, e.at);
    SubmitKeepsStream(y.sender, e.sdu, e.at);
    WireGrows(y, fs);
    DecodeAppend(OnWire(y), DataOf(PdusOf(fs)), DataOf(s.pending));
    DecodeAppend(OnWire(y), DataOf(y.sender.pending), Encoding(y.sender, e.sdu));
    EncodingDecodes(Decoder(y.submitted, [], true), y.sender, e.sdu);
    PendingNonempty(y.sender, e.sdu, e.at);
  }

  lemma PendingNonempty(s: Sender, sdu: Sdu, now: Time)
    requires SenderInv(s)
    ensures var (s', fs) := Submit(s, sdu, now); s'.pending != [] ==> s'.pending[0].data != []
  {
    if Small(sdu.len, s.max) && s.pending != [] && s.max - s.pending[0].byteLength < sdu.len {
      SplitShape(s, sdu, now);
    }
  }

  lemma WireIsPrefix(y: System)
    requires StreamInv(y)
    ensures OnWire(y).ok && OnWire(y).done <= y.submitted
    ensures y.sender.pending == [] ==> OnWire(y) == Decoder(y.submitted, [], true)
  {
    DecodeGrows(OnWire(y), DataOf(y.sender.pending));
  }

  // Either nothing waits after a submission, or the timer runs as `schedule` leaves it.
  lemma SubmitTimer(s: Sender, sdu: Sdu, now: Time)
    requires SenderInv(s)
    ensures var (s', _) := Submit(s, sdu, now);
      && (s'.pending != [] ==> s'.timer == Schedule(s.timer, now, s.delay))
      && (s'.timer == s.timer || s'.timer == None || s'.timer == Schedule(s.timer, now, s.delay))
  {
  }

  lemma DeadlinesNext(arrivals: seq<Time>, left: nat, timer: Option<Time>, now: Time, delay: Time,
                      at: Time, left': nat, timer': Option<Time>)
    requires Deadlines(arrivals, left, timer, now, delay) && delay >= 0.0
    requires now <= at && (timer.Some? ==> at <= timer.value)
    requires left <= left'
    requires left' <= |arrivals| ==> timer' == Schedule(timer, at, delay)
    requires timer' == timer || timer' == None || timer' == Schedule(timer, at, delay)
    ensures Deadlines(arrivals + [at], left', timer', at, delay)
  {
  }

  lemma SubmitKeepsTimerInv(y: System, e: Event, y': System)
    requires StreamInv(y) && TimerInv(y) && e.SubmitAt? && Next(y, e, y')
    ensures TimerInv(y')
  {
    var (s, fs) := Submit(y.sender, e.sdu, e.at);
    SubmitKeepsStreamInv(y, e, y');
    SubmitKeepsStream(y.sender, e.sdu, e.at);
    SubmitTimer(y.sender, e.sdu, e.at);
    WireIsPrefix(y');
    WireGrows(y, fs);
    DecodeGrows(OnWire(y), DataOf(PdusOf(fs)));
    hide OnWire, Submit, StreamInv, Decode, Deadlines;
    DeadlinesNext(y.arrivals, |OnWire(y).done|, y.sender.timer, y.now, y.sender.delay,
                  e.at, |OnWire(y').done|, s.timer);
  }

  lemma FireKeepsStreamInv(y: System, e: Event, y': System)
    requires StreamInv(y) && e.TimerFires? && Next(y, e, y')
    ensures StreamInv(y')
  {
    var (s, fs) := Fire(y.sender);
    PdusOfFields(y.sender.pending, y.sender.seqNum);
    FieldsGood(y.sender.pending, y.sender.seqNum, y.sender.max);
    WireGrows(y, fs);
    DecodeNothing(OnWire(y'));
    hide Decode, Exact, Fields;
    assert DataOf([]) == [];
  }

  lemma FireKeepsInv(y: System, e: Event, y': System)
    requires Inv(y) && e.TimerFires? && Next(y, e, y')
    ensures Inv(y')
  {
    FireKeepsStreamInv(y, e, y');
    WireIsPrefix(y');
    ReceiverFrame(y, Fire(y.sender).1);
    hide Decode, StreamInv, Fields, OnWire;
  }

  // The decoder's state on a prefix of what was sent
  lemma PrefixDecodes(fs: seq<Field>, n: nat)
    requires n <= |fs|
    ensures Decode(START, DataOf(PdusOf(fs[..n]))).done <= Decode(START, DataOf(PdusOf(fs))).done
    ensures Decode(START, DataOf(PdusOf(fs))).ok ==> Decode(START, DataOf(PdusOf(fs[..n]))).ok
  {
    hide Decode, DataOf;
    assert fs == fs[..n] + fs[n..];
    PdusAppend(fs[..n], fs[n..]);
    DecodeAppend(START, DataOf(PdusOf(fs[..n])), DataOf(PdusOf(fs[n..])));
    DecodeGrows(Decode(START, DataOf(PdusOf(fs[..n]))), DataOf(PdusOf(fs[n..])));
  }

  lemma OneMore(fs: seq<Field>, n: nat)
    requires n < |fs|
    ensures Decode(START, DataOf(PdusOf(fs[..n + 1]))) == Decode(Decode(START, DataOf(PdusOf(fs[..n]))), fs[n].pdu.data)
  {
    hide Decode;
    assert fs[..n + 1] == fs[..n] + [fs[n]];
    PdusAppend(fs[..n], [fs[n]]);
    assert PdusOf([fs[n]]) == [fs[n].pdu];
    DataOfOne(fs[n].pdu);
    DecodeAppend(START, DataOf(PdusOf(fs[..n])), fs[n].pdu.data);
  }

  lemma DeliverKeepsReceiverInv(y: System, e: Event, y': System)
    requires StreamInv(y) && ReceiverInv(y) && e.DeliverAt? && Next(y, e, y')
    ensures ReceiverInv(y')
  {
    var f := y.sent[y.received];
    WireIsPrefix(y);
    OneMore(y.sent, y.received);
    PrefixDecodes(y.sent, y.received + 1);
    DecodeShift(y.delivered, y.dataQIn, f.pdu.data);
    hide Decode, Drain, StreamInv;
    DrainIsDecode(y.dataQIn, f.pdu.data);
  }

  lemma DeliverKeepsInv(y: System, e: Event, y': System)
    requires Inv(y) && e.DeliverAt? && Next(y, e, y')
    ensures Inv(y')
  {
    DeliverKeepsReceiverInv(y, e, y');
    hide Decode, Drain, ReceiverInv;
    assert OnWire(y') == OnWire(y);
  }

  lemma SubmitKeepsReceiverInv(y: System, e: Event, y': System)
    requires ReceiverInv(y) && e.SubmitAt? && Next(y, e, y')
    ensures ReceiverInv(y')
  {
    ReceiverFrame(y, Submit(y.sender, e.sdu, e.at).1);
    hide Decode, Submit;
  }

  lemma NextKeepsInv(y: System, e: Event, y': System)
    requires Inv(y) && Next(y, e, y')
    ensures Inv(y') && y'.sender.max == y.sender.max && y'.sender.delay == y.sender.delay
  {
    match e
    case SubmitAt(sdu, at) =>
      SubmitKeepsStreamInv(y, e, y');
      SubmitKeepsTimerInv(y, e, y');
      SubmitKeepsStream(y.sender, sdu, at);
      SubmitKeepsReceiverInv(y, e, y');
      hide StreamInv, TimerInv, ReceiverInv, Submit;
    case TimerFires =>
      hide Inv, Fields;
      FireKeepsInv(y, e, y');
    case DeliverAt(at) =>
      hide Inv, Drain;
      DeliverKeepsInv(y, e, y');
  }

  lemma {:induction false} RunInv(ys: seq<System>, es: seq<Event>, n: nat)
    requires Run(ys, es) && n < |ys|
    ensures Inv(ys[n]) && ys[n].sender.max == ys[0].sender.max && ys[n].sender.delay == ys[0].sender.delay
  {
    hide Inv, Next, Init;
    if n == 0 {
      InitInv(ys[0]);
    } else {
      RunInv(ys, es, n - 1);
      NextKeepsInv(ys[n - 1], es[n - 1], ys[n]);
    }
  }

  // ---------- What every reachable state promises ----------

  // No loss, no duplication, no reordering; and nothing is missing once queue and link are empty.
  lemma DeliveredIsPrefix(ys: seq<System>, es: seq<Event>, n: nat)
    requires Run(ys, es) && n < |ys|
    ensures var y := ys[n];
      && y.received <= |y.sent|
      && y.delivered <= y.submitted
      && (y.sender.pending == [] && y.received == |y.sent| ==> y.delivered == y.submitted)
      && OpenShape(y.dataQIn)
  {
    RunInv(ys, es, n);
    var y := ys[n];
    WireIsPrefix(y);
    PrefixDecodes(y.sent, y.received);
    assert y.received == |y.sent| ==> y.sent[..y.received] == y.sent;
  }

  // At most one PDU waits; every field fits and describes itself; bytes are conserved.
  lemma BytesAreConserved(ys: seq<System>, es: seq<Event>, n: nat)
    requires Run(ys, es) && n < |ys|
    ensures var y := ys[n];
      && |y.sender.pending| <= 1
      && (forall f :: f in y.sent ==> GoodField(f, ys[0].sender.max))
      && SumLength(DataOf(PdusOf(y.sent))) + SumLength(DataOf(y.sender.pending)) == SumSdus(y.submitted)
  {
    RunInv(ys, es, n);
    var y := ys[n];
    DecodeAppend(START, DataOf(PdusOf(y.sent)), DataOf(y.sender.pending));
    DecodeConservesBytes(DataOf(PdusOf(y.sent)) + DataOf(y.sender.pending));
    SumAppend(DataOf(PdusOf(y.sent)), DataOf(y.sender.pending));
    hide Decode;
    assert SumLength([]) == 0;
  }

  // Bounded delay: an SDU that has not completely left is still within its deadline, and while
  // anything waits the timer is due by the deadline of the oldest such SDU.
  lemma DelayIsBounded(ys: seq<System>, es: seq<Event>, n: nat)
    requires Run(ys, es) && n < |ys|
    ensures var y := ys[n];
      && |y.arrivals| == |y.submitted|
      && OnWire(y).done <= y.submitted
      && (y.sender.pending != [] ==> |OnWire(y).done| < |y.submitted|)
      && forall i :: |OnWire(y).done| <= i < |y.submitted| ==>
           && y.sender.timer.Some?
           && y.now <= y.sender.timer.value <= y.arrivals[i] + ys[0].sender.delay
  {
    RunInv(ys, es, n);
    var y := ys[n];
    WireIsPrefix(y);
    if y.sender.pending != [] {
      PendingIsOpen(y);
    }
  }

  // While something waits, the wire alone has not completed the last SDU.
  lemma PendingIsOpen(y: System)
    requires StreamInv(y) && y.sender.pending != []
    ensures |OnWire(y).done| < |y.submitted|
  {
    DataOfOne(y.sender.pending[0]);
    assert y.sender.pending == [y.sender.pending[0]];
    ClosingCompletes(OnWire(y), y.sender.pending[0].data);
  }

  lemma ClosingCompletes(a: Decoder, ds: seq<Data>)
    requires ds != [] && Decode(a, ds).ok && Decode(a, ds).open == []
    ensures |a.done| < |Decode(a, ds).done|
  {
    DecodeGrows(a, ds[..|ds| - 1]);
  }
}
