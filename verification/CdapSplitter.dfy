/**
 The CDAP splitter and its message log (src/DAF/CDAP). A response passes only when a request with the
 opcode just below and the same invoke id has been logged; everything that passes is logged and sent
 on. The log keeps opcodes in an unsigned char. Judged over whole histories of arrivals.
 */
module CdapSplitter {

  // `listed`: the class of the message is one that arrivals from the south are sorted by.
  datatype Message = Message(opCode: int, invokeId: int, listed: bool)

  datatype Arrival = Foreign | Cdap(msg: Message, fromSouth: bool)

  predicate IsResponse(m: Message) {
    m.opCode % 2 == 0
  }

  type Byte = x: int | 0 <= x < 256

  // What an opcode becomes in the log
  function Logged(opCode: int): Byte {
    opCode % 256
  }

  // A request as the log knows it
  predicate Answers(m: Message, request: Message) {
    Logged(request.opCode) == m.opCode - 1 && request.invokeId == m.invokeId
  }

  // The arrivals that pass, in order: a response needs a request among those that passed before it.
  function Passed(h: seq<Arrival>): seq<Arrival> {
    if h == [] then []
    else
      var before := Passed(h[..|h| - 1]);
      before + if Admits(before, h[|h| - 1]) then [h[|h| - 1]] else []
  }

  predicate Admits(before: seq<Arrival>, a: Arrival) {
    a.Cdap? && (IsResponse(a.msg) ==> HasRequest(before, a.msg))
  }

  predicate HasRequest(h: seq<Arrival>, m: Message) {
    exists k :: 0 <= k < |h| && h[k].Cdap? && Answers(m, h[k].msg)
  }

  // ---------- Every history ----------

  // No response passes without an earlier request, as the log knows requests.
  lemma {:induction false} ResponsesWereAskedFor(h: seq<Arrival>, k: nat)
    requires k < |Passed(h)|
    ensures Passed(h)[k].Cdap?
    ensures IsResponse(Passed(h)[k].msg) ==> HasRequest(Passed(h)[..k], Passed(h)[k].msg)
  {
    var before := Passed(h[..|h| - 1]);
    if k < |before| {
      ResponsesWereAskedFor(h[..|h| - 1], k);
      assert Passed(h)[..k] == before[..k];
    } else {
      assert Passed(h)[..k] == before;
    }
  }

  // The same filter without its own output: what counts is only what has arrived.
  function Solicited(h: seq<Arrival>): seq<Arrival> {
    if h == [] then []
    else Solicited(h[..|h| - 1]) + if Admits(h[..|h| - 1], h[|h| - 1]) then [h[|h| - 1]] else []
  }

  lemma LoggedParity(opCode: int)
    ensures Logged(opCode) % 2 == opCode % 2
  {
    assert opCode == 256 * (opCode / 256) + Logged(opCode);
  }

  // A request has an odd opcode, in the log and before, and those always pass.
  lemma {:induction false} RequestsPass(h: seq<Arrival>, m: Message)
    requires IsResponse(m)
    ensures HasRequest(h, m) <==> HasRequest(Passed(h), m)
  {
    if h != [] {
      var n := |h| - 1;
      RequestsPass(h[..n], m);
      var before := Passed(h[..n]);
      if HasRequest(h, m) {
        var k :| 0 <= k < |h| && h[k].Cdap? && Answers(m, h[k].msg);
        LoggedParity(h[k].msg.opCode);
        if k < n {
          assert h[..n][k] == h[k];
          var j :| 0 <= j < |before| && before[j].Cdap? && Answers(m, before[j].msg);
          assert Passed(h)[j] == before[j];
        } else {
          assert Passed(h)[|before|] == h[n];
        }
      }
      if HasRequest(Passed(h), m) {
        var k :| 0 <= k < |Passed(h)| && Passed(h)[k].Cdap? && Answers(m, Passed(h)[k].msg);
        if k < |before| {
          assert before[k] == Passed(h)[k];
          var j :| 0 <= j < n && h[..n][j].Cdap? && Answers(m, h[..n][j].msg);
          assert h[j] == h[..n][j];
        } else {
          assert h[n] == Passed(h)[k];
        }
      }
    }
  }

  // So an arrival passes exactly when it is no response or its request arrived before it.
  lemma {:induction false} PassedIsSolicited(h: seq<Arrival>)
    ensures Passed(h) == Solicited(h)
  {
    if h != [] {
      PassedIsSolicited(h[..|h| - 1]);
      var a := h[|h| - 1];
      if a.Cdap? && IsResponse(a.msg) {
        RequestsPass(h[..|h| - 1], a.msg);
      }
    }
  }

  // In the messages' own fields: the next arrival passes exactly when its opcode is odd or some earlier arrival,
  // from either side, has its invoke id and, modulo 256, the opcode just below.
  lemma PassesIff(h: seq<Arrival>, a: Arrival)
    ensures Passed(h + [a]) == Passed(h) +
      if a.Cdap? && (a.msg.opCode % 2 == 1 ||
                     exists j :: 0 <= j < |h| && h[j].Cdap? && h[j].msg.invokeId == a.msg.invokeId
                                 && h[j].msg.opCode % 256 == a.msg.opCode - 1)
      then [a] else []
  {
    hide Passed;
    PassedNext(h, a);
    if a.Cdap? && a.msg.opCode % 2 == 0 {
      RequestsPass(h, a.msg);
      if j :| 0 <= j < |h| && h[j].Cdap? && h[j].msg.invokeId == a.msg.invokeId
              && h[j].msg.opCode % 256 == a.msg.opCode - 1 {
        assert Answers(a.msg, h[j].msg);
      }
    }
  }

  // ---------- When the log's request is the right one ----------

  // Every response that passed has, before it, a request with exactly the opcode below.
  ghost predicate Truthful(h: seq<Arrival>) {
    forall k :: 0 <= k < |Passed(h)| && Passed(h)[k].Cdap? && IsResponse(Passed(h)[k].msg)
      ==> exists j :: 0 <= j < k && Requests(Passed(h)[j], Passed(h)[k].msg)
  }

  predicate Requests(a: Arrival, m: Message) {
    a.Cdap? && a.msg.opCode == m.opCode - 1 && a.msg.invokeId == m.invokeId
  }

  function OpCodes(h: seq<Arrival>): set<int> {
    set k | 0 <= k < |h| && h[k].Cdap? :: h[k].msg.opCode
  }

  // No opcode in use is logged as the request of a response whose request it is not.
  ghost predicate NoAlias(codes: set<int>) {
    forall q, r :: q in codes && r in codes && r % 2 == 0 && Logged(q) == r - 1 ==> q == r - 1
  }

  lemma NoAliasIsTruthful(h: seq<Arrival>)
    requires NoAlias(OpCodes(h))
    ensures Truthful(h)
  {
    hide Logged;
    var p := Passed(h);
    forall k | 0 <= k < |p| && p[k].Cdap? && IsResponse(p[k].msg)
      ensures exists j :: 0 <= j < k && Requests(p[j], p[k].msg)
    {
      ResponsesWereAskedFor(h, k);
      var j :| 0 <= j < k && p[..k][j].Cdap? && Answers(p[k].msg, p[..k][j].msg);
      PassedArrived(h, j);
      PassedArrived(h, k);
      assert Requests(p[j], p[k].msg);
    }
  }

  lemma {:induction false} PassedArrived(h: seq<Arrival>, k: nat)
    requires k < |Passed(h)| && Passed(h)[k].Cdap?
    ensures Passed(h)[k].msg.opCode in OpCodes(h)
  {
    var n := |h| - 1;
    if k < |Passed(h[..n])| {
      PassedArrived(h[..n], k);
      assert OpCodes(h[..n]) <= OpCodes(h) by {
        assert forall i :: 0 <= i < n ==> h[..n][i] == h[i];
      }
    } else {
      assert h[n].msg.opCode in OpCodes(h);
    }
  }

  // A request and the response it is mistaken for
  lemma AliasPasses(q: int, r: int)
    requires r % 2 == 0 && Logged(q) == r - 1 && q != r - 1
    ensures var h := [Cdap(Message(q, 0, true), false), Cdap(Message(r, 0, true), false)];
      OpCodes(h) == {q, r} && Passed(h) == h && !Truthful(h)
  {
    LoggedParity(q);
    var a, b := Cdap(Message(q, 0, true), false), Cdap(Message(r, 0, true), false);
    var h := [a, b];
    PassedNext([], a);
    PassedNext([a], b);
    assert [] + [a] == [a] && [a] + [b] == h;
    assert Answers(b.msg, [a][0].msg);
    assert h[0].msg.opCode == q && h[1].msg.opCode == r;
    assert Passed(h)[1] == b && !Requests(a, b.msg);
  }

  // Opcode 257 is logged as 1, so a response 2 passes that nobody asked for.
  lemma WrappedOpCodeExample()
    ensures var h := [Cdap(Message(257, 0, true), false), Cdap(Message(2, 0, true), false)];
      Passed(h) == h && !Truthful(h)
  {
    AliasPasses(257, 2);
  }

  // For messages with given opcodes every history is truthful exactly when no opcode of theirs is
  // mistaken for another.
  lemma TruthfulIff(codes: set<int>)
    ensures (forall h :: OpCodes(h) <= codes ==> Truthful(h)) <==> NoAlias(codes)
  {
    if NoAlias(codes) {
      forall h | OpCodes(h) <= codes
        ensures Truthful(h)
      {
        NoAliasIsTruthful(h);
      }
    } else {
      var q, r :| q in codes && r in codes && r % 2 == 0 && Logged(q) == r - 1 && q != r - 1;
      AliasPasses(q, r);
    }
  }

  // So it is for every history of opcodes that fit the log, which the protocol's nineteen do.
  lemma BytesAreTruthful(h: seq<Arrival>)
    requires forall c :: c in OpCodes(h) ==> 0 <= c < 256
    ensures Truthful(h)
  {
    NoAliasIsTruthful(h);
  }

  // ---------- The log ----------

  datatype LogEntry = LogEntry(opCode: Byte, invokeId: int, sent: bool)

  function LogOf(passed: seq<Arrival>): (r: seq<LogEntry>)
    requires forall k :: 0 <= k < |passed| ==> passed[k].Cdap?
    ensures |r| == |passed|
  {
    seq(|passed|, k requires 0 <= k < |passed| =>
      LogEntry(Logged(passed[k].msg.opCode), passed[k].msg.invokeId, !passed[k].fromSouth))
  }

  class MsgLog {
    var entries: seq<LogEntry>

    constructor ()
      ensures entries == []
    {
      entries := [];
    }

    method Insert(m: Message, srflag: bool)
      modifies this
      ensures entries == old(entries) + [LogEntry(Logged(m.opCode), m.invokeId, srflag)]
    {
      entries := entries + [LogEntry(Logged(m.opCode), m.invokeId, srflag)];
    }

    method FindRequestByInvId(m: Message) returns (k: int)
      ensures -1 <= k < |entries|
      ensures k >= 0 ==> entries[k].opCode == m.opCode - 1 && entries[k].invokeId == m.invokeId
      ensures forall i :: 0 <= i < (if k >= 0 then k else |entries|) ==>
                entries[i].opCode != m.opCode - 1 || entries[i].invokeId != m.invokeId
    {
      for i := 0 to |entries|
        invariant forall j :: 0 <= j < i ==> entries[j].opCode != m.opCode - 1 || entries[j].invokeId != m.invokeId
      {
        if entries[i].opCode == m.opCode - 1 && entries[i].invokeId == m.invokeId {
          return i;
        }
      }
      return -1;
    }
  }

  // ---------- The splitter ----------

  // Arrivals from the south go to the CDAP modules and the others south.
  datatype Gate = CdapIo | SouthIo

  function SentFor(passed: seq<Arrival>): (r: seq<(Gate, Message)>)
    requires forall k :: 0 <= k < |passed| ==> passed[k].Cdap?
    ensures |r| == |passed|
  {
    seq(|passed|, k requires 0 <= k < |passed| =>
      (if passed[k].fromSouth then CdapIo else SouthIo, passed[k].msg))
  }

  // A message from the south of a class that is not listed has no gate to go to.
  predicate Stuck(a: Arrival) {
    a.Cdap? && a.fromSouth && !a.msg.listed
  }

  // What was logged and sent is what passed of everything that arrived; a failure is the end.
  ghost predicate Kept(h: seq<Arrival>, log: seq<LogEntry>, sent: seq<(Gate, Message)>, failed: bool) {
    var n := |Passed(h)| - if failed then 1 else 0;
    && (forall k :: 0 <= k < |Passed(h)| ==> Passed(h)[k].Cdap?)
    && log == LogOf(Passed(h))
    && (failed ==> n >= 0 && Stuck(Passed(h)[n]))
    && (forall k :: 0 <= k < n ==> !Stuck(Passed(h)[k]))
    && sent == SentFor(Passed(h))[..n]
  }

  lemma PassedNext(h: seq<Arrival>, a: Arrival)
    ensures Passed(h + [a]) == Passed(h) + if Admits(Passed(h), a) then [a] else []
  {
    assert (h + [a])[..|h|] == h;
  }

  lemma KeptNext(h: seq<Arrival>, a: Arrival, log: seq<LogEntry>, sent: seq<(Gate, Message)>)
    requires Kept(h, log, sent, false) && Admits(Passed(h), a)
    ensures var log' := log + [LogEntry(Logged(a.msg.opCode), a.msg.invokeId, !a.fromSouth)];
      if Stuck(a) then Kept(h + [a], log', sent, true)
      else Kept(h + [a], log', sent + [(if a.fromSouth then CdapIo else SouthIo, a.msg)], false)
  {
    PassedNext(h, a);
    hide Passed, HasRequest;
    assert forall k :: 0 <= k < |Passed(h)| ==> Passed(h + [a])[k] == Passed(h)[k];
    assert SentFor(Passed(h)) == SentFor(Passed(h + [a]))[..|Passed(h)|];
  }

  class Splitter {
    const msgLog: MsgLog
    var sent: seq<(Gate, Message)>
    var failed: bool
    ghost var history: seq<Arrival>

    ghost predicate Valid()
      reads this, msgLog
    {
      Kept(history, msgLog.entries, sent, failed)
    }

    constructor ()
      ensures Valid() && history == [] && !failed && fresh(msgLog)
    {
      msgLog := new MsgLog();
      sent, failed, history := [], false, [];
    }

    method Forward(a: Arrival)
      requires a.Cdap?
      modifies this`sent, this`failed, msgLog
      ensures msgLog.entries == old(msgLog.entries) + [LogEntry(Logged(a.msg.opCode), a.msg.invokeId, !a.fromSouth)]
      ensures failed == if Stuck(a) then true else old(failed)
      ensures sent == old(sent) + if Stuck(a) then [] else [(if a.fromSouth then CdapIo else SouthIo, a.msg)]
    {
      if a.fromSouth {
        msgLog.Insert(a.msg, false);
        if a.msg.listed {
          sent := sent + [(CdapIo, a.msg)];
        } else {
          failed := true;
        }
      } else {
        msgLog.Insert(a.msg, true);
        sent := sent + [(SouthIo, a.msg)];
      }
    }

    method HandleMessage(a: Arrival)
      requires Valid() && !failed
      modifies this, msgLog
      ensures Valid() && history == old(history) + [a]
      ensures var h := old(history);
        if a.Cdap? && (a.msg.opCode % 2 == 1 ||
                       exists j :: 0 <= j < |h| && h[j].Cdap? && h[j].msg.invokeId == a.msg.invokeId
                                   && h[j].msg.opCode % 256 == a.msg.opCode - 1)
        then
          && msgLog.entries == old(msgLog.entries) + [LogEntry(a.msg.opCode % 256, a.msg.invokeId, !a.fromSouth)]
          && sent == old(sent) + (if !a.fromSouth then [(SouthIo, a.msg)]
                                  else if a.msg.listed then [(CdapIo, a.msg)] else [])
          && (failed <==> a.fromSouth && !a.msg.listed)
        else
          msgLog.entries == old(msgLog.entries) && sent == old(sent) && !failed
    {
      hide Passed;
      PassesIff(history, a);
      ghost var before := Passed(history);
      PassedNext(history, a);
      history := history + [a];
      if a.Foreign? { return; }
      if a.msg.opCode % 2 == 0 {
        var request := msgLog.FindRequestByInvId(a.msg);
        assert forall k :: 0 <= k < |before| ==>
          msgLog.entries[k] == LogEntry(Logged(before[k].msg.opCode), before[k].msg.invokeId, !before[k].fromSouth);
        if request < 0 { return; }
        assert Answers(a.msg, before[request].msg);
      }
      assert Admits(before, a);
      KeptNext(old(history), a, msgLog.entries, sent);
      Forward(a);
    }
  }

  // What a splitter has sent, in the source's terms: unless an opcode is mistaken for another, each even
  // one follows its request.
  lemma SentResponsesFollowRequests(h: seq<Arrival>, n: nat, k: nat)
    requires n <= |Passed(h)| && k < n && NoAlias(OpCodes(h))
    requires forall i :: 0 <= i < |Passed(h)| ==> Passed(h)[i].Cdap?
    ensures var sent := SentFor(Passed(h))[..n];
      sent[k].1.opCode % 2 == 0 ==>
        exists j :: 0 <= j < k && sent[j].1.opCode == sent[k].1.opCode - 1 && sent[j].1.invokeId == sent[k].1.invokeId
  {
    NoAliasIsTruthful(h);
    var sent := SentFor(Passed(h))[..n];
    if sent[k].1.opCode % 2 == 0 {
      var j :| 0 <= j < k && Requests(Passed(h)[j], Passed(h)[k].msg);
      assert sent[j].1 == Passed(h)[j].msg;
    }
  }
}
