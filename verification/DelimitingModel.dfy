/**
 The values that the delimiting task of src/DIF/Delimiting passes around, the sender's and the
 receiver's steps as functions of those values, and an independent reference decoder.
 */
module DelimitingModel {
  import opened Wrappers

  type Time = real

  // ---------- Data, PDUData, UserDataField ----------

  datatype Sdu = Sdu(id: nat, len: nat)

  datatype DataType = SduComplete | FirstFrag | MiddleFrag | LastFrag

  // Only complete and first Data carry the SDU; the other fragments are lengths.
  datatype Data = Data(kind: DataType, sdu: Option<Sdu>, byteLength: nat, encapMsgLength: nat)

  function Complete(s: Sdu): Data { Data(SduComplete, Some(s), s.len, 0) }
  function First(s: Sdu, n: nat): Data { Data(FirstFrag, Some(s), n, s.len) }
  function Middle(n: nat): Data { Data(MiddleFrag, None, n, 0) }
  function Last(n: nat): Data { Data(LastFrag, None, n, 0) }

  datatype Flags = Flags(complete: bool, first: bool, mid: bool, last: bool)

  datatype Pdu = Pdu(data: seq<Data>, byteLength: nat, flags: Flags)

  const EMPTY_PDU := Pdu([], 0, Flags(false, false, false, false))

  function Encapsulate(p: Pdu, d: Data): Pdu {
    Pdu(p.data + [d], p.byteLength + d.byteLength,
        match d.kind
        case SduComplete => p.flags.(complete := true)
        case FirstFrag => p.flags.(first := true)
        case MiddleFrag => p.flags.(mid := true)
        case LastFrag => p.flags.(last := true))
  }

  datatype Field = Field(pdu: Pdu, flags: Flags, sduSeqNum: nat)

  function SumLength(ds: seq<Data>): nat {
    if |ds| == 0 then 0 else SumLength(ds[..|ds| - 1]) + ds[|ds| - 1].byteLength
  }

  predicate Holds(ds: seq<Data>, k: DataType) {
    exists i :: 0 <= i < |ds| && ds[i].kind == k
  }

  // The recorded length is the length of the contents, and a flag is set exactly when the contents
  // hold a Data of that kind.
  ghost predicate Exact(p: Pdu) {
    && p.byteLength == SumLength(p.data)
    && p.flags == Flags(Holds(p.data, SduComplete), Holds(p.data, FirstFrag),
                        Holds(p.data, MiddleFrag), Holds(p.data, LastFrag))
  }

  lemma HoldsAppend(ds: seq<Data>, d: Data, k: DataType)
    ensures Holds(ds + [d], k) <==> Holds(ds, k) || d.kind == k
  {
    assert (ds + [d])[|ds|] == d;
    if i :| 0 <= i < |ds| && ds[i].kind == k {
      assert (ds + [d])[i] == ds[i];
    }
  }

  lemma EncapsulateExact(p: Pdu, d: Data)
    requires Exact(p)
    ensures Exact(Encapsulate(p, d))
  {
    hide Holds;
    HoldsAppend(p.data, d, SduComplete);
    HoldsAppend(p.data, d, FirstFrag);
    HoldsAppend(p.data, d, MiddleFrag);
    HoldsAppend(p.data, d, LastFrag);
    assert (p.data + [d])[..|p.data|] == p.data;
  }

  function Single(d: Data): Pdu {
    Encapsulate(EMPTY_PDU, d)
  }

  function Singles(ds: seq<Data>): (r: seq<Pdu>)
    ensures |r| == |ds| && forall i :: 0 <= i < |r| ==> r[i] == Single(ds[i])
  {
    seq(|ds|, i requires 0 <= i < |ds| => Single(ds[i]))
  }

  function DataOf(ps: seq<Pdu>): seq<Data> {
    if |ps| == 0 then [] else DataOf(ps[..|ps| - 1]) + ps[|ps| - 1].data
  }

  lemma {:induction false} DataOfAppend(x: seq<Pdu>, y: seq<Pdu>)
    ensures DataOf(x + y) == DataOf(x) + DataOf(y)
  {
    if |y| == 0 {
      assert x + y == x;
    } else {
      DataOfAppend(x, y[..|y| - 1]);
      assert (x + y)[..|x + y| - 1] == x + y[..|y| - 1];
    }
  }

  lemma {:induction false} DataOfSingles(ds: seq<Data>)
    ensures DataOf(Singles(ds)) == ds
  {
    if |ds| > 0 {
      var n := |ds| - 1;
      DataOfSingles(ds[..n]);
      assert Singles(ds)[..n] == Singles(ds[..n]);
    }
  }

  function Fields(ps: seq<Pdu>, sn: nat): (r: seq<Field>)
    ensures |r| == |ps| && forall i :: 0 <= i < |r| ==> r[i] == Field(ps[i], ps[i].flags, sn)
  {
    seq(|ps|, i requires 0 <= i < |ps| => Field(ps[i], ps[i].flags, sn))
  }

  function PdusOf(fs: seq<Field>): (r: seq<Pdu>)
    ensures |r| == |fs| && forall i :: 0 <= i < |r| ==> r[i] == fs[i].pdu
  {
    seq(|fs|, i requires 0 <= i < |fs| => fs[i].pdu)
  }

  // ---------- Fragmentation ----------

  // The fragments after the first: full middles while more than one PDU's worth is left.
  function Tail(length: nat, max: nat): (r: seq<Data>)
    requires max > 0
    ensures |r| > 0
  {
    if length > max then [Middle(max)] + Tail(length - max, max) else [Last(length)]
  }

  function Fragments(s: Sdu, max: nat): seq<Data>
    requires 0 < max < s.len
  {
    [First(s, max)] + Tail(s.len - max, max)
  }

  lemma {:induction false} SumAppend(x: seq<Data>, y: seq<Data>)
    ensures SumLength(x + y) == SumLength(x) + SumLength(y)
  {
    if |y| == 0 {
      assert x + y == x;
    } else {
      SumAppend(x, y[..|y| - 1]);
      assert (x + y)[..|x + y| - 1] == x + y[..|y| - 1];
    }
  }

  lemma SumOne(d: Data)
    ensures SumLength([d]) == d.byteLength
  {
    assert [d][..0] == [];
  }

  // n == ceil(length / max)
  predicate IsCeiling(n: int, length: nat, max: nat) {
    (n - 1) * max < length <= n * max
  }

  lemma CeilingNext(n: int, length: nat, max: nat)
    requires IsCeiling(n, length, max)
    ensures IsCeiling(n + 1, length + max, max)
  {
    assert (n + 1) * max == n * max + max && n * max == (n - 1) * max + max;
  }

  lemma {:induction false} TailShape(length: nat, max: nat)
    requires max > 0 && length > 0
    ensures SumLength(Tail(length, max)) == length
    ensures IsCeiling(|Tail(length, max)|, length, max)
    ensures forall d :: d in Tail(length, max) ==> 0 < d.byteLength <= max
    ensures var t := Tail(length, max);
      t[|t| - 1].kind == LastFrag && forall i :: 0 <= i < |t| - 1 ==> t[i].kind == MiddleFrag
    decreases length
  {
    if length > max {
      TailShape(length - max, max);
      SumAppend([Middle(max)], Tail(length - max, max));
      SumOne(Middle(max));
      CeilingNext(|Tail(length - max, max)|, length - max, max);
    } else {
      SumOne(Last(length));
    }
  }

  // An SDU longer than the PDU limit becomes ceil(len / max) fragments that add up to it.
  lemma FragmentsAddUp(s: Sdu, max: nat)
    requires 0 < max < s.len
    ensures IsCeiling(|Fragments(s, max)|, s.len, max)
    ensures SumLength(Fragments(s, max)) == s.len
    ensures forall d :: d in Fragments(s, max) ==> 0 < d.byteLength <= max
  {
    TailShape(s.len - max, max);
    SumAppend([First(s, max)], Tail(s.len - max, max));
    SumOne(First(s, max));
    CeilingNext(|Tail(s.len - max, max)|, s.len - max, max);
  }

  // ---------- The sender ----------

  datatype Sender = Sender(max: nat, delay: Time, pending: seq<Pdu>, timer: Option<Time>, seqNum: nat)

  function Inc(n: nat): nat { (n + 1) % 0x1_0000_0000 }

  // At most one PDU waits, no longer than the limit, with the timer running.
  ghost predicate SenderInv(s: Sender) {
    && s.max > 0 && s.delay >= 0.0
    && |s.pending| <= 1
    && (s.pending != [] ==> s.timer.Some? && Exact(s.pending[0]) && s.pending[0].byteLength <= s.max)
  }

  // `len < max * 0.8` and `len > max * 0.8`, exactly
  predicate Small(len: nat, max: nat) { 5 * len < 4 * max }
  predicate Large(len: nat, max: nat) { 5 * len > 4 * max }

  function Schedule(timer: Option<Time>, now: Time, delay: Time): Option<Time> {
    if timer.Some? then timer else Some(now + delay)
  }

  // The PDUs at the front that are nearly full are sent, but one is always kept.
  function FullPrefix(ps: seq<Pdu>, max: nat): (n: nat)
    ensures n <= |ps| && (|ps| > 0 ==> n < |ps|)
  {
    if |ps| > 1 && Large(ps[0].byteLength, max) then 1 + FullPrefix(ps[1..], max) else 0
  }

  // processMsgFromFAI
  function Submit(s: Sender, sdu: Sdu, now: Time): (Sender, seq<Field>)
    requires SenderInv(s)
  {
    if sdu.len > s.max then
      (s.(pending := [], seqNum := Inc(s.seqNum)), Fields(s.pending + Singles(Fragments(sdu, s.max)), s.seqNum))
    else if Small(sdu.len, s.max) then
      if s.pending == [] then
        (s.(pending := [Single(Complete(sdu))], timer := Schedule(s.timer, now, s.delay)), [])
      else
        var back := s.pending[|s.pending| - 1];
        var rest := s.max - back.byteLength;
        if rest < sdu.len then
          var ps := s.pending[|s.pending| - 1 := Encapsulate(back, First(sdu, rest))] + Singles(Tail(sdu.len - rest, s.max));
          var n := FullPrefix(ps, s.max);
          (s.(pending := ps[n..]), Fields(ps[..n], s.seqNum))
        else
          (s.(pending := s.pending[|s.pending| - 1 := Encapsulate(back, Complete(sdu))],
              timer := Schedule(s.timer, now, s.delay)), [])
    else
      (s.(pending := [], timer := None, seqNum := Inc(Inc(s.seqNum))),
       Fields(s.pending, s.seqNum)
       + [Field(Single(Complete(sdu)), Flags(true, false, false, false), Inc(s.seqNum))])
  }

  // The timer branch of handleMessage
  function Fire(s: Sender): (Sender, seq<Field>) {
    (s.(pending := [], timer := None), Fields(s.pending, s.seqNum))
  }

  // ---------- The receiver ----------

  predicate Fragmentary(d: Data) { d.kind == MiddleFrag || d.kind == LastFrag }

  function DropFragments(q: seq<Data>): (r: seq<Data>)
    ensures |r| <= |q|
  {
    if |q| > 0 && Fragmentary(q[0]) then DropFragments(q[1..]) else q
  }

  function SduOf(d: Data): seq<Sdu> {
    if d.sdu.Some? then [d.sdu.value] else []
  }

  // The reassembly loop of handleMsgFromEfcpi: what is delivered, and what stays queued
  function Drain(q: seq<Data>): (seq<Sdu>, seq<Data>)
    decreases |q|
  {
    if |q| == 0 then ([], [])
    else if q[0].kind == SduComplete then
      var (out, rest) := Drain(q[1..]);
      (SduOf(q[0]) + out, rest)
    else if q[0].kind == FirstFrag && Holds(q[1..], LastFrag) then
      var (out, rest) := Drain(DropFragments(q[1..]));
      (SduOf(q[0]) + out, rest)
    else ([], q)
  }

  // ---------- The reference decoder: one Data at a time ----------

  // `open` is the SDU under reassembly; `ok` is lost for good at the first Data that does not continue
  // a well-formed stream of SDUs.
  datatype Decoder = Decoder(done: seq<Sdu>, open: seq<Data>, ok: bool)

  const START := Decoder([], [], true)

  function Step(a: Decoder, d: Data): Decoder {
    match d.kind
    case SduComplete =>
      if a.open == [] && d.sdu.Some? && d.byteLength == d.sdu.value.len then a.(done := a.done + [d.sdu.value])
      else a.(ok := false)
    case FirstFrag =>
      if a.open == [] && d.sdu.Some? && d.encapMsgLength == d.sdu.value.len then a.(open := [d]) else a.(ok := false)
    case MiddleFrag =>
      if a.open != [] then a.(open := a.open + [d]) else a.(ok := false)
    case LastFrag =>
      if a.open != [] && a.open[0].sdu.Some? && SumLength(a.open) + d.byteLength == a.open[0].sdu.value.len
      then a.(done := a.done + [a.open[0].sdu.value], open := [])
      else a.(ok := false)
  }

  function Decode(a: Decoder, ds: seq<Data>): Decoder {
    if |ds| == 0 then a else Step(Decode(a, ds[..|ds| - 1]), ds[|ds| - 1])
  }

  lemma {:induction false} DecodeAppend(a: Decoder, x: seq<Data>, y: seq<Data>)
    ensures Decode(a, x + y) == Decode(Decode(a, x), y)
  {
    hide Step;
    if |y| == 0 {
      assert x + y == x;
    } else {
      DecodeAppend(a, x, y[..|y| - 1]);
      assert (x + y)[..|x + y| - 1] == x + y[..|y| - 1];
    }
  }

  // Delivered SDUs are never taken back, and a decoder that is still well-formed always was.
  lemma {:induction false} DecodeGrows(a: Decoder, ds: seq<Data>)
    ensures a.done <= Decode(a, ds).done
    ensures Decode(a, ds).ok ==> a.ok
  {
    if |ds| > 0 {
      DecodeGrows(a, ds[..|ds| - 1]);
    }
  }

  function SumSdus(ss: seq<Sdu>): nat {
    if |ss| == 0 then 0 else SumSdus(ss[..|ss| - 1]) + ss[|ss| - 1].len
  }

  // Conservation: the bytes of a well-formed stream are those of the SDUs it completes plus the open ones.
  lemma {:induction false} DecodeConservesBytes(ds: seq<Data>)
    requires Decode(START, ds).ok
    ensures SumLength(ds) == SumSdus(Decode(START, ds).done) + SumLength(Decode(START, ds).open)
  {
    if |ds| > 0 {
      hide Step;
      StepOk(Decode(START, ds[..|ds| - 1]), ds[|ds| - 1]);
      DecodeConservesBytes(ds[..|ds| - 1]);
    }
  }

  lemma StepOk(a: Decoder, d: Data)
    requires Step(a, d).ok
    ensures a.ok
    ensures SumSdus(Step(a, d).done) + SumLength(Step(a, d).open) == SumSdus(a.done) + SumLength(a.open) + d.byteLength
  {
    var b := Step(a, d);
    assert |b.done| > |a.done| ==> b.done[..|b.done| - 1] == a.done;
    assert |b.open| > 0 ==> b.open[..|b.open| - 1] == a.open;
  }

  // ---------- The receiver's loop computes the reference decoder ----------

  // Empty, or one FIRST followed only by MIDDLEs
  predicate OpenShape(q: seq<Data>) {
    q != [] ==> q[0].kind == FirstFrag && q[0].sdu.Some? && forall i :: 1 <= i < |q| ==> q[i].kind == MiddleFrag
  }

  lemma {:induction false} DropAll(mids: seq<Data>, rest: seq<Data>)
    requires forall d :: d in mids ==> Fragmentary(d)
    requires rest == [] || !Fragmentary(rest[0])
    ensures DropFragments(mids + rest) == rest
  {
    if |mids| == 0 {
      assert mids + rest == rest;
    } else {
      DropAll(mids[1..], rest);
      assert (mids + rest)[1..] == mids[1..] + rest;
    }
  }

  lemma {:induction false} DecodeShift(done: seq<Sdu>, open: seq<Data>, ds: seq<Data>)
    ensures Decode(Decoder(done, open, true), ds)
            == var r := Decode(Decoder([], open, true), ds); r.(done := done + r.done)
  {
    if |ds| == 0 {
      assert done + [] == done;
    } else {
      var n := |ds| - 1;
      DecodeShift(done, open, ds[..n]);
      var r := Decode(Decoder([], open, true), ds[..n]);
      StepShift(done, r, ds[n]);
    }
  }

  lemma StepShift(done: seq<Sdu>, a: Decoder, d: Data)
    ensures Step(a.(done := done + a.done), d) == var r := Step(a, d); r.(done := done + r.done)
  {
    assert forall x :: done + (a.done + [x]) == done + a.done + [x];
  }

  lemma DecodeFirst(a: Decoder, ds: seq<Data>)
    requires |ds| > 0
    ensures Decode(a, ds) == Decode(Step(a, ds[0]), ds[1..])
    ensures Decode(a, ds).ok ==> Step(a, ds[0]).ok
  {
    hide Step;
    assert ds == [ds[0]] + ds[1..];
    DecodeAppend(a, [ds[0]], ds[1..]);
    assert [ds[0]][..0] == [];
    DecodeGrows(Step(a, ds[0]), ds[1..]);
  }

  // On a well-formed continuation the receiver's loop delivers and keeps exactly what the decoder says.
  lemma {:induction false} DrainIsDecode(open: seq<Data>, ds: seq<Data>)
    requires OpenShape(open) && Decode(Decoder([], open, true), ds).ok
    ensures var r := Decode(Decoder([], open, true), ds);
      Drain(open + ds) == (r.done, r.open) && OpenShape(r.open)
    decreases |ds|
  {
    if |ds| == 0 {
      assert open + ds == open;
    } else {
      hide Decode, Drain;
      var d, rest := ds[0], ds[1..];
      DecodeFirst(Decoder([], open, true), ds);
      match d.kind
      case SduComplete =>
        DrainComplete(ds);
        assert open + ds == ds && [] + rest == rest;
        DecodeShift([d.sdu.value], [], rest);
        assert [] + [d.sdu.value] == [d.sdu.value];
        DrainIsDecode([], rest);
      case FirstFrag =>
        assert open + ds == [d] + rest;
        DrainIsDecode([d], rest);
      case MiddleFrag =>
        assert open + ds == (open + [d]) + rest;
        DrainIsDecode(open + [d], rest);
      case LastFrag =>
        assert open + ds == open + ([d] + rest) && [] + rest == rest;
        DecodeShift([open[0].sdu.value], [], rest);
        assert [] + [open[0].sdu.value] == [open[0].sdu.value];
        DrainIsDecode([], rest);
        LastClosesFirst(open, d, rest);
    }
  }

  lemma DrainComplete(ds: seq<Data>)
    requires |ds| > 0 && ds[0].kind == SduComplete && ds[0].sdu.Some?
    ensures Drain(ds) == var (out, q) := Drain(ds[1..]); ([ds[0].sdu.value] + out, q)
  {
  }

  // The LAST that the search finds is the open SDU's own, and erasing fragments stops right after it.
  lemma LastClosesFirst(open: seq<Data>, d: Data, rest: seq<Data>)
    requires OpenShape(open) && open != [] && d.kind == LastFrag
    requires Decode(Decoder([], [], true), rest).ok
    ensures Drain(open + ([d] + rest)) == var (out, q) := Drain(rest); ([open[0].sdu.value] + out, q)
  {
    hide Decode;
    var q := open + ([d] + rest);
    if rest != [] {
      DecodeFirst(Decoder([], [], true), rest);
    }
    assert q[1..] == (open[1..] + [d]) + rest;
    assert q[1..][|open| - 1] == d;
    DropAll(open[1..] + [d], rest);
  }
}
