/**
 The delimiting task of src/DIF/Delimiting in its own form: `PDUData` objects filled in place, and
 queues pushed and erased by the handlers. Every handler is proved to take the step that
 `DelimitingModel` describes, so the results about runs are about this code.
 */
module Delimiting {
  import DelimitingBranches
  import opened DelimitingModel
  import opened Wrappers

  class PDUData {
    var encapData: seq<Data>
    var byteLength: nat
    var flags: Flags

    function View(): Pdu
      reads this
    {
      Pdu(encapData, byteLength, flags)
    }

    constructor ()
      ensures View() == EMPTY_PDU
    {
      encapData, byteLength, flags := [], 0, Flags(false, false, false, false);
    }

    method Encapsulate(data: Data)
      modifies this
      ensures View() == DelimitingModel.Encapsulate(old(View()), data)
    {
      encapData := encapData + [data];
      byteLength := byteLength + data.byteLength;
      match data.kind
      case SduComplete => flags := flags.(complete := true);
      case FirstFrag => flags := flags.(first := true);
      case MiddleFrag => flags := flags.(mid := true);
      case LastFrag => flags := flags.(last := true);
    }

    // First in, first out; the recorded length never drops below zero.
    method Decapsulate() returns (data: Option<Data>)
      requires byteLength == SumLength(encapData)
      modifies this
      ensures byteLength == SumLength(encapData) && flags == old(flags)
      ensures data.None? <==> old(encapData) == []
      ensures data.None? ==> encapData == []
      ensures data.Some? ==> old(encapData) == [data.value] + encapData
    {
      if |encapData| > 0 {
        SumAppend([encapData[0]], encapData[1..]);
        SumOne(encapData[0]);
        assert encapData == [encapData[0]] + encapData[1..];
        data := Some(encapData[0]);
        encapData := encapData[1..];
        byteLength := byteLength - data.value.byteLength;
      } else {
        data := None;
      }
    }
  }

  ghost function Views(ps: seq<PDUData>): (r: seq<Pdu>)
    reads ps
    ensures |r| == |ps| && forall i :: 0 <= i < |r| ==> r[i] == ps[i].View()
  {
    seq(|ps|, i requires 0 <= i < |ps| reads ps => ps[i].View())
  }

  class Task {
    const maxFlowPDUSize: nat
    const delimitDelay: Time
    var sduSeqNum: nat
    var delimitingTimer: Option<Time>
    var pduDataQOut: seq<PDUData>
    var dataQIn: seq<Data>
    var sduDataQIn: seq<Sdu>
    // What was sent through the gates
    var southO: seq<Field>
    var northO: seq<Sdu>

    ghost function SenderView(): Sender
      reads this, pduDataQOut
    {
      Sender(maxFlowPDUSize, delimitDelay, Views(pduDataQOut), delimitingTimer, sduSeqNum)
    }

    constructor (max: nat, delay: Time)
      ensures SenderView() == Sender(max, delay, [], None, 1)
      ensures dataQIn == [] && sduDataQIn == [] && southO == [] && northO == []
    {
      maxFlowPDUSize, delimitDelay, sduSeqNum := max, delay, 1;
      delimitingTimer, pduDataQOut, dataQIn, sduDataQIn := None, [], [], [];
      southO, northO := [], [];
    }

    method ScheduleTimer(now: Time)
      modifies this`delimitingTimer
      ensures delimitingTimer == Schedule(old(delimitingTimer), now, delimitDelay)
      ensures old(delimitingTimer).None? ==> delimitingTimer == Some(now + delimitDelay)
      ensures old(delimitingTimer).Some? ==> delimitingTimer == old(delimitingTimer)
    {
      if delimitingTimer.None? {
        delimitingTimer := Some(now + delimitDelay);
      }
    }

    // Sends the first PDU of the queue in a field of its own and erases it.
    method SendFront()
      requires |pduDataQOut| > 0
      modifies this`southO, this`pduDataQOut
      ensures pduDataQOut == old(pduDataQOut)[1..]
      ensures southO == old(southO) + [Field(old(pduDataQOut)[0].View(), old(pduDataQOut)[0].flags, sduSeqNum)]
    {
      southO := southO + [Field(pduDataQOut[0].View(), pduDataQOut[0].flags, sduSeqNum)];
      pduDataQOut := pduDataQOut[1..];
    }

    // The loop that sends everything
    method SendAll()
      modifies this`southO, this`pduDataQOut
      ensures pduDataQOut == []
      ensures southO == old(southO) + Fields(old(Views(pduDataQOut)), sduSeqNum)
    {
      ghost var q, n := pduDataQOut, 0;
      while |pduDataQOut| > 0
        invariant n <= |q| && pduDataQOut == q[n..]
        invariant southO == old(southO) + Fields(Views(q)[..n], sduSeqNum)
      {
        SendFront();
        n := n + 1;
      }
    }

    // The loop that sends nearly full PDUs but keeps one
    method SendNearlyFull()
      modifies this`southO, this`pduDataQOut
      ensures var ps := old(Views(pduDataQOut)); var n := FullPrefix(ps, maxFlowPDUSize);
        && Views(pduDataQOut) == ps[n..]
        && southO == old(southO) + Fields(ps[..n], sduSeqNum)
    {
      ghost var q, n := pduDataQOut, 0;
      while |pduDataQOut| > 0 && Large(pduDataQOut[0].byteLength, maxFlowPDUSize) && |pduDataQOut| > 1
        invariant n <= |q| && pduDataQOut == q[n..]
        invariant n + FullPrefix(Views(q)[n..], maxFlowPDUSize) == FullPrefix(Views(q), maxFlowPDUSize)
        invariant southO == old(southO) + Fields(Views(q)[..n], sduSeqNum)
      {
        assert Views(q)[n..][1..] == Views(q)[n + 1..];
        SendFront();
        n := n + 1;
      }
    }

    // Cuts what is left of an SDU into middles and a last fragment, appended to dataQ.
    method CutTail(dataQ0: seq<Data>, length0: nat) returns (dataQ: seq<Data>)
      requires maxFlowPDUSize > 0
      ensures dataQ == dataQ0 + Tail(length0, maxFlowPDUSize)
    {
      dataQ := dataQ0;
      var length: int := length0;
      while length > maxFlowPDUSize
        invariant length >= 0
        invariant dataQ + Tail(length, maxFlowPDUSize) == dataQ0 + Tail(length0, maxFlowPDUSize)
      {
        dataQ := dataQ + [Middle(maxFlowPDUSize)];
        length := length - maxFlowPDUSize;
      }
      dataQ := dataQ + [Last(length)];
    }

    // Wraps every Data of dataQ in a PDU of its own.
    method Wrap(dataQ: seq<Data>)
      modifies this`pduDataQOut
      ensures |pduDataQOut| == |old(pduDataQOut)| + |dataQ| && old(pduDataQOut) <= pduDataQOut
      ensures forall k :: |old(pduDataQOut)| <= k < |pduDataQOut| ==> fresh(pduDataQOut[k])
      ensures Views(pduDataQOut) == old(Views(pduDataQOut)) + Singles(dataQ)
    {
      ghost var old_q := pduDataQOut;
      for i := 0 to |dataQ|
        invariant |pduDataQOut| == |old_q| + i && old_q <= pduDataQOut
        invariant forall k :: |old_q| <= k < |pduDataQOut| ==> fresh(pduDataQOut[k])
        invariant forall k :: 0 <= k < i ==> pduDataQOut[|old_q| + k].View() == Single(dataQ[k])
      {
        var pduData := new PDUData();
        pduData.Encapsulate(dataQ[i]);
        pduDataQOut := pduDataQOut + [pduData];
      }
    }

    // Too long for one PDU: fragments, all sent at once behind whatever was waiting
    method SendFragmented(sduData: Sdu)
      requires SenderInv(SenderView()) && sduData.len > maxFlowPDUSize
      modifies this`pduDataQOut, this`southO
      ensures pduDataQOut == []
      ensures southO == old(southO)
              + Fields(old(Views(pduDataQOut)) + Singles(Fragments(sduData, maxFlowPDUSize)), sduSeqNum)
    {
      var dataQ := CutTail([First(sduData, maxFlowPDUSize)], sduData.len - maxFlowPDUSize);
      Wrap(dataQ);
      SendAll();
    }

    // What is left of an SDU, in PDUs behind those that wait
    method AppendTail(length: nat)
      requires maxFlowPDUSize > 0
      modifies this`pduDataQOut
      ensures Views(pduDataQOut) == old(Views(pduDataQOut)) + Singles(Tail(length, maxFlowPDUSize))
    {
      hide Tail, Singles, Views;
      var dataQ := CutTail([], length);
      assert [] + Tail(length, maxFlowPDUSize) == Tail(length, maxFlowPDUSize);
      Wrap(dataQ);
    }

    // Small, and the waiting PDU has too little room: the SDU is split across PDUs. `ps` is the queue
    // before the nearly full PDUs leave it.
    method SplitAcross(sduData: Sdu, pduData: PDUData) returns (ghost ps: seq<Pdu>)
      requires maxFlowPDUSize > 0 && pduDataQOut == [pduData] && pduData.byteLength <= maxFlowPDUSize
      requires maxFlowPDUSize - pduData.byteLength < sduData.len
      modifies this`pduDataQOut, this`southO, pduData
      ensures var rest := maxFlowPDUSize - old(pduData.byteLength);
        ps == [DelimitingModel.Encapsulate(old(pduData.View()), First(sduData, rest))]
              + Singles(Tail(sduData.len - rest, maxFlowPDUSize))
      ensures var n := FullPrefix(ps, maxFlowPDUSize);
        Views(pduDataQOut) == ps[n..] && southO == old(southO) + Fields(ps[..n], sduSeqNum)
    {
      hide Tail, FullPrefix, Fields, Singles, DelimitingModel.Encapsulate, Views;
      var restLength := maxFlowPDUSize - pduData.byteLength;
      ps := [DelimitingModel.Encapsulate(pduData.View(), First(sduData, restLength))]
            + Singles(Tail(sduData.len - restLength, maxFlowPDUSize));
      pduData.Encapsulate(First(sduData, restLength));
      assert Views(pduDataQOut) == [ps[0]];
      AppendTail(sduData.len - restLength);
      SendNearlyFull();
    }

    method ProcessMsgFromFAI(sduData: Sdu, now: Time)
      requires SenderInv(SenderView())
      modifies this`sduSeqNum, this`delimitingTimer, this`pduDataQOut, this`southO, pduDataQOut
      ensures var (s, fs) := Submit(old(SenderView()), sduData, now);
        SenderView() == s && southO == old(southO) + fs
      ensures var (max, len) := (maxFlowPDUSize, sduData.len);
        delimitingTimer == if 4 * max <= 5 * len && len <= max then None
                           else if old(delimitingTimer).None? && len <= max then Some(now + delimitDelay)
                           else old(delimitingTimer)
      ensures var fs := southO[|old(southO)|..];
        (fs != [] && fs[|fs| - 1].pdu.data == [Data(SduComplete, Some(sduData), sduData.len, 0)])
        <==> 4 * maxFlowPDUSize <= 5 * sduData.len && sduData.len <= maxFlowPDUSize
    {
      hide Exact, Fragments, Tail, FullPrefix, DelimitingModel.Encapsulate;
      ghost var s0, south0 := SenderView(), southO;
      DelimitingBranches.TimerAfterSubmit(s0, sduData, now);
      DelimitingBranches.SentAtOnceIff(s0, sduData, now);
      if sduData.len > maxFlowPDUSize {
        SendFragmented(sduData);
        sduSeqNum := Inc(sduSeqNum);
      } else if Small(sduData.len, maxFlowPDUSize) {
        if |pduDataQOut| == 0 {
          Wrap([Complete(sduData)]);
          ScheduleTimer(now);
          assert Views(pduDataQOut) == [Single(Complete(sduData))];
        } else {
          var pduData := pduDataQOut[|pduDataQOut| - 1];
          var restLength := maxFlowPDUSize - pduData.byteLength;
          assert s0.pending == [pduData.View()];
          assert forall p :: s0.pending[0 := p] == [p];
          if restLength < sduData.len {
            ghost var ps := SplitAcross(sduData, pduData);
          } else {
            pduData.Encapsulate(Complete(sduData));
            ScheduleTimer(now);
            assert Views(pduDataQOut) == [pduData.View()];
          }
        }
      } else {
        delimitingTimer := None;
        SendAll();
        sduSeqNum := Inc(sduSeqNum);
        var pduData := new PDUData();
        pduData.Encapsulate(Complete(sduData));
        southO := southO + [Field(pduData.View(), Flags(true, false, false, false), sduSeqNum)];
        sduSeqNum := Inc(sduSeqNum);
      }
      assert southO[|south0|..] == Submit(s0, sduData, now).1;
    }

    // The timer branch of handleMessage: the self-message has arrived, so it is no longer scheduled.
    method HandleTimer()
      modifies this`delimitingTimer, this`pduDataQOut, this`southO
      ensures var (s, fs) := Fire(old(SenderView()));
        SenderView() == s && southO == old(southO) + fs
      ensures delimitingTimer == None && pduDataQOut == [] && |southO| == |old(southO)| + |old(pduDataQOut)|
    {
      delimitingTimer := None;
      SendAll();
    }

    // Finds a LAST after the head.
    method FindLast() returns (found: bool)
      requires |dataQIn| > 0
      ensures found <==> Holds(dataQIn[1..], LastFrag)
    {
      var tmpIt := 1;
      found := false;
      while tmpIt < |dataQIn|
        invariant 1 <= tmpIt <= |dataQIn|
        invariant forall i :: 1 <= i < tmpIt ==> dataQIn[i].kind != LastFrag
      {
        if dataQIn[tmpIt].kind == LastFrag {
          assert dataQIn[1..][tmpIt - 1].kind == LastFrag;
          return true;
        }
        tmpIt := tmpIt + 1;
      }
    }

    // Removes the head and queues the SDU it carries.
    method DeliverHead()
      requires |dataQIn| > 0
      modifies this`dataQIn, this`sduDataQIn
      ensures dataQIn == old(dataQIn)[1..] && sduDataQIn == old(sduDataQIn) + SduOf(old(dataQIn)[0])
    {
      if dataQIn[0].sdu.Some? {
        sduDataQIn := sduDataQIn + [dataQIn[0].sdu.value];
      }
      dataQIn := dataQIn[1..];
    }

    // Every Data of the PDU joins the queue.
    method Unpack(pduData: PDUData)
      requires pduData.byteLength == SumLength(pduData.encapData)
      modifies this`dataQIn, pduData
      ensures dataQIn == old(dataQIn) + old(pduData.encapData) && pduData.encapData == []
    {
      ghost var all := dataQIn + pduData.encapData;
      var data := pduData.Decapsulate();
      while data.Some?
        invariant pduData.byteLength == SumLength(pduData.encapData)
        invariant data.None? ==> pduData.encapData == []
        invariant all == dataQIn + (if data.Some? then [data.value] else []) + pduData.encapData
        decreases |pduData.encapData|, data.Some?
      {
        dataQIn := dataQIn + [data.value];
        data := pduData.Decapsulate();
      }
    }

    // The head is a FIRST whose LAST is queued: deliver it and erase its other fragments.
    method DeliverFragmented()
      requires |dataQIn| > 0
      modifies this`dataQIn, this`sduDataQIn
      ensures sduDataQIn == old(sduDataQIn) + SduOf(old(dataQIn)[0])
      ensures dataQIn == DropFragments(old(dataQIn)[1..])
    {
      // The original length is restored before the SDU is taken out.
      dataQIn := dataQIn[0 := dataQIn[0].(byteLength := dataQIn[0].encapMsgLength)];
      DeliverHead();
      ghost var rest := dataQIn;
      while |dataQIn| > 0 && Fragmentary(dataQIn[0])
        invariant DropFragments(dataQIn) == DropFragments(rest)
        modifies this`dataQIn
      {
        dataQIn := dataQIn[1..];
      }
    }

    // The reassembly loop: the iterator is always at the head, because every branch erases there or stops.
    method Reassemble()
      modifies this`dataQIn, this`sduDataQIn
      ensures var (out, q) := Drain(old(dataQIn)); dataQIn == q && sduDataQIn == old(sduDataQIn) + out
    {
      hide DropFragments, Holds, SduOf;
      ghost var q0 := dataQIn;
      while |dataQIn| > 0
        invariant sduDataQIn + Drain(dataQIn).0 == old(sduDataQIn) + Drain(q0).0
        invariant Drain(q0).1 == Drain(dataQIn).1
        decreases |dataQIn|
      {
        ghost var q, sdus := dataQIn, sduDataQIn;
        if dataQIn[0].kind == SduComplete {
          DeliverHead();
        } else if dataQIn[0].kind == FirstFrag {
          var found := FindLast();
          if !found { break; }
          DeliverFragmented();
        } else {
          break;
        }
        assert Drain(q) == (SduOf(q[0]) + Drain(dataQIn).0, Drain(dataQIn).1);
        assert sdus + (SduOf(q[0]) + Drain(dataQIn).0) == (sdus + SduOf(q[0])) + Drain(dataQIn).0;
      }
      assert sduDataQIn + [] == sduDataQIn;
    }

    method HandleMsgFromEfcpi(pduData: PDUData)
      requires pduData.byteLength == SumLength(pduData.encapData) && sduDataQIn == []
      modifies this`dataQIn, this`sduDataQIn, this`northO, pduData
      ensures sduDataQIn == [] && pduData.encapData == []
      ensures var (out, q) := Drain(old(dataQIn) + old(pduData.encapData));
        dataQIn == q && northO == old(northO) + out
    {
      Unpack(pduData);
      Reassemble();
      ghost var out := sduDataQIn;
      assert [] + Drain(old(dataQIn) + old(pduData.encapData)).0 == Drain(old(dataQIn) + old(pduData.encapData)).0;
      while |sduDataQIn| > 0
        invariant northO + sduDataQIn == old(northO) + out
        modifies this`northO, this`sduDataQIn
      {
        northO := northO + [sduDataQIn[0]];
        sduDataQIn := sduDataQIn[1..];
      }
    }
  }
}
