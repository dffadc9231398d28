/**
 The enrollment modules in their own form: table entries are objects whose status fields the
 handlers set, the table is a list of such objects searched from the front, and messages go out as
 they are produced. Every handler is proved to do what `EnrollmentModel` says, so the results about
 runs are about this code.
 */
module Enrollment {
  import opened EnrollmentModel
  import opened Wrappers
  import Text

  // ---------- Addresses ----------

  // The pieces between underscores, empty ones included
  function Tokens(s: string): (r: seq<string>)
    ensures r != []
  {
    if Text.Cut(s, '_') == |s| then [s] else [s[..Text.Cut(s, '_')]] + Tokens(s[Text.Cut(s, '_') + 1..])
  }

  lemma TokensStep(s: string)
    ensures '_' in s <==> Text.Cut(s, '_') < |s|
    ensures '_' !in s ==> Tokens(s) == [s]
    ensures '_' in s ==> Tokens(s) == [s[..Text.Cut(s, '_')]] + Tokens(s[Text.Cut(s, '_') + 1..])
  {
    assert s[..|s|] == s;
  }

  datatype Parsed = Parsed(ipcAddress: string, difName: string, apname: string)

  function FromParts(ipcAddress: string, difName: string): Parsed {
    Parsed(ipcAddress, difName, ipcAddress + "_" + difName)
  }

  function Parse(composite: string): Parsed {
    var tokens := Tokens(composite);
    if |tokens| == 2 then FromParts(tokens[0], tokens[1])
    else if |tokens| == 1 then Parsed("", "", tokens[0])
    else Parsed("", "", "")
  }

  lemma {:induction false} UnderscoresAppend(a: string, b: string)
    ensures Underscores(a + b) == Underscores(a) + Underscores(b)
  {
    if b == [] {
      assert a + b == a;
    } else {
      UnderscoresAppend(a, b[..|b| - 1]);
      assert (a + b)[..|a + b| - 1] == a + b[..|b| - 1];
    }
  }

  lemma {:induction false} NoUnderscoresIff(s: string)
    ensures Underscores(s) == 0 <==> '_' !in s
  {
    if s != [] {
      NoUnderscoresIff(s[..|s| - 1]);
      assert s == s[..|s| - 1] + [s[|s| - 1]];
    }
  }

  lemma OneUnderscore(a: string, b: string)
    ensures Underscores(a + "_" + b) == Underscores(a) + 1 + Underscores(b)
  {
    UnderscoresAppend(a + "_", b);
    UnderscoresAppend(a, "_");
    assert Underscores("_"[..0]) == 0;
  }

  lemma {:induction false} TokensCount(s: string)
    ensures |Tokens(s)| == Underscores(s) + 1
  {
    var n := Text.Cut(s, '_');
    if n == |s| {
      assert s[..n] == s;
      NoUnderscoresIff(s);
    } else {
      TokensCount(s[n + 1..]);
      assert s == s[..n] + "_" + s[n + 1..];
      OneUnderscore(s[..n], s[n + 1..]);
      NoUnderscoresIff(s[..n]);
    }
  }

  lemma {:induction false} TokensRejoin(s: string)
    ensures |Tokens(s)| == 1 ==> Tokens(s)[0] == s
    ensures |Tokens(s)| == 2 ==> Tokens(s)[0] + "_" + Tokens(s)[1] == s
  {
    var n := Text.Cut(s, '_');
    if n < |s| {
      TokensRejoin(s[n + 1..]);
      assert s == s[..n] + "_" + s[n + 1..];
    }
  }

  // The name an address gives back is the name it was made from exactly when that has at most one
  // underscore; otherwise it is lost.
  lemma NameSurvivesIff(name: string)
    ensures Parse(name).apname == name <==> Underscores(name) <= 1
    ensures Parse(name).apname == AddressApn(name)
  {
    hide Tokens, Underscores;
    TokensCount(name);
    TokensRejoin(name);
    if name == "" {
      assert '_' !in name;
      NoUnderscoresIff(name);
    }
  }

  // Printing an address and parsing it again gives the same address exactly when neither part has an
  // underscore.
  lemma PartsSurviveIff(ipcAddress: string, difName: string)
    ensures Parse(FromParts(ipcAddress, difName).apname) == FromParts(ipcAddress, difName)
       <==> '_' !in ipcAddress && '_' !in difName
  {
    var composite := ipcAddress + "_" + difName;
    TokensCount(composite);
    OneUnderscore(ipcAddress, difName);
    NoUnderscoresIff(ipcAddress);
    NoUnderscoresIff(difName);
    if '_' !in ipcAddress && '_' !in difName {
      Text.CutAt(ipcAddress, difName, '_');
      assert composite[..|ipcAddress|] == ipcAddress && composite[|ipcAddress| + 1..] == difName;
      assert Text.Cut(difName, '_') == |difName|;
    }
  }

  // What the constructor makes of a name, by its underscores
  lemma ParsedBy(name: string)
    ensures multiset(name)['_'] == 0 ==> Parse(name) == Parsed("", "", name)
    ensures multiset(name)['_'] >= 2 ==> Parse(name) == Parsed("", "", "")
    ensures forall a, b :: name == a + "_" + b && '_' !in a && '_' !in b ==> Parse(name) == Parsed(a, b, name)
  {
    UnderscoresAre(name);
    TokensCount(name);
    TokensRejoin(name);
    forall a, b | name == a + "_" + b && '_' !in a && '_' !in b
      ensures Parse(name) == Parsed(a, b, name)
    {
      PartsSurviveIff(a, b);
    }
  }

  class Address {
    var ipcAddress: string
    var difName: string
    var apname: string

    function View(): Parsed
      reads this
    {
      Parsed(ipcAddress, difName, apname)
    }

    constructor (composite: string)
      ensures View() == Parse(composite)
    {
      hide Tokens, Text.Cut;
      ipcAddress, difName, apname := "", "", "";
      new;
      var tokens: seq<string>, rest := [], composite;
      while '_' in rest
        invariant Tokens(composite) == tokens + Tokens(rest)
        invariant View() == Parsed("", "", "")
        decreases |rest|
      {
        TokensStep(rest);
        var pos := FirstUnderscore(rest);
        tokens := tokens + [rest[..pos]];
        rest := rest[pos + 1..];
      }
      TokensStep(rest);
      tokens := tokens + [rest];
      if |tokens| == 2 {
        ipcAddress, difName := tokens[0], tokens[1];
        apname := ipcAddress + "_" + difName;
      }
      if |tokens| == 1 {
        apname := rest;
      }
    }

    // operator ==
    predicate Equals(other: Address)
      reads this, other
      ensures Equals(other) <==> View() == other.View()
    {
      ipcAddress == other.ipcAddress && difName == other.difName && apname == other.apname
    }

    constructor FromStrings(ipcaddr: string, difnam: string)
      ensures View() == FromParts(ipcaddr, difnam)
    {
      ipcAddress, difName := ipcaddr, difnam;
      apname := ipcaddr + "_" + difnam;
    }
  }

  // Writes an address out and reads it back: the same address exactly when neither part has an underscore.
  method Reread(ipcaddr: string, difnam: string) returns (same: bool)
    ensures same <==> '_' !in ipcaddr && '_' !in difnam
  {
    var written := new Address.FromStrings(ipcaddr, difnam);
    var reread := new Address(written.apname);
    PartsSurviveIff(ipcaddr, difnam);
    same := reread.Equals(written);
  }

  method FirstUnderscore(s: string) returns (pos: nat)
    requires '_' in s
    ensures pos < |s| && pos == Text.Cut(s, '_')
  {
    pos := 0;
    while s[pos] != '_'
      invariant pos < |s| && '_' !in s[..pos]
      invariant '_' in s[pos..]
      decreases |s| - pos
    {
      assert s[pos..] == [s[pos]] + s[pos + 1..];
      assert s[..pos + 1] == s[..pos] + [s[pos]];
      pos := pos + 1;
    }
    assert s == s[..pos] + ['_'] + s[pos + 1..];
    Text.CutAt(s[..pos], s[pos + 1..], '_');
  }

  // ---------- The table ----------

  class StateTableEntry {
    const local: Apni
    const remote: Apni
    var conStatus: ConStatus
    var enrollStatus: EnrollStatus
    var connectRetries: int
    var immediateEnrollment: Option<bool>

    function View(): Entry
      reads this
    {
      Entry(local, remote, conStatus, enrollStatus, connectRetries, immediateEnrollment)
    }

    constructor (src: Apni, dst: Apni, status: ConStatus)
      ensures View() == Fresh(src, dst, status)
    {
      local, remote, conStatus := src, dst, status;
      enrollStatus, connectRetries, immediateEnrollment := EnrollNil, 0, None;
    }
  }

  ghost function Views(es: seq<StateTableEntry>): (r: seq<Entry>)
    reads es
    ensures |r| == |es| && forall i :: 0 <= i < |r| ==> r[i] == es[i].View()
  {
    seq(|es|, i requires 0 <= i < |es| reads es => es[i].View())
  }

  class StateTable {
    const level: Level
    var entries: seq<StateTableEntry>

    // No entry is listed twice, so writing one leaves the others alone.
    ghost predicate Valid()
      reads this
    {
      forall i, j :: 0 <= i < j < |entries| ==> entries[i] != entries[j]
    }

    ghost function View(): seq<Entry>
      reads this, entries
    {
      Views(entries)
    }

    constructor (level: Level)
      ensures this.level == level && entries == [] && Valid()
    {
      this.level := level;
      entries := [];
    }

    method FindEntryByDstAPN(apn: string) returns (entry: StateTableEntry?)
      ensures var k := FindApn(level, View(), apn);
        if k.None? then entry == null else k.value < |entries| && entry == entries[k.value]
    {
      hide HasMgmt, FindApn;
      ghost var k := FindApn(level, View(), apn);
      for i := 0 to |entries|
        invariant forall j :: 0 <= j < i ==> !MatchesApn(level, entries[j].View(), apn)
      {
        if MatchesApn(level, entries[i].View(), apn) {
          assert View()[i] == entries[i].View();
          return entries[i];
        }
      }
      return null;
    }

    method FindEntryByDstAPNI(apni: Apni) returns (entry: StateTableEntry?)
      ensures var k := FindApni(View(), apni);
        if k.None? then entry == null else k.value < |entries| && entry == entries[k.value]
    {
      hide FindApni;
      for i := 0 to |entries|
        invariant forall j :: 0 <= j < i ==> entries[j].remote != apni
      {
        if entries[i].remote == apni {
          assert View()[i] == entries[i].View();
          return entries[i];
        }
      }
      return null;
    }

    // The lookup of the connection handlers
    method FindEntryByPeer(apni: Apni) returns (entry: StateTableEntry?)
      ensures var k := FindPeer(level, View(), apni);
        if k.None? then entry == null else k.value < |entries| && entry == entries[k.value]
    {
      if level == Daf {
        entry := FindEntryByDstAPNI(apni);
      } else {
        entry := FindEntryByDstAPN(apni.apn);
      }
    }

    method Insert(src: Apni, dst: Apni, status: ConStatus)
      requires Valid()
      modifies this
      ensures Valid()
      ensures View() == EnrollmentModel.Insert(level, old(View()), Fresh(src, dst, status))
      ensures |entries| >= |old(entries)| && entries[..|old(entries)|] == old(entries)
      ensures forall i :: |old(entries)| <= i < |entries| ==> fresh(entries[i])
    {
      hide FindApn;
      if level == Dif {
        var entry := FindEntryByDstAPN(dst.apn);
        if entry != null { return; }
      }
      var entry := new StateTableEntry(src, dst, status);
      entries := entries + [entry];
      assert View() == old(View()) + [entry.View()];
    }
  }

  // ---------- The handlers ----------

  // A request is only ever answered, never passed on.
  lemma OnlyAnswers(cfg: Config, e: Entry, m: Msg)
    requires m.Connect?
    ensures forall x :: x in OnConnect(cfg, e, m).1 ==> x.ConnectR?
  {
    hide Underscores, Authentic;
  }

  // Address(apn).getApn()
  method NameOf(apn: string) returns (name: string)
    ensures name == AddressApn(apn)
  {
    var address := new Address(apn);
    NameSurvivesIff(apn);
    name := address.apname;
  }

  class Task {
    const cfg: Config
    const table: StateTable
    var ipcAddress: string
    var sent: seq<Msg>
    ghost var connects: nat

    ghost predicate Valid()
      reads this, table
    {
      table.Valid() && table.level == cfg.level
    }

    ghost function View(): Node
      reads this, table, table.entries
    {
      Node(table.View(), ipcAddress, connects)
    }

    constructor (cfg: Config, ipcAddress: string)
      ensures Valid() && fresh(table) && this.cfg == cfg
      ensures View() == Node([], ipcAddress, 0) && sent == []
    {
      this.cfg, this.ipcAddress := cfg, ipcAddress;
      table := new StateTable(cfg.level);
      sent, connects := [], 0;
    }

    method Send(msg: Msg)
      modifies this`sent, this`connects
      ensures sent == old(sent) + [msg]
      ensures connects == old(connects) + if msg.Connect? then 1 else 0
    {
      sent := sent + [msg];
      connects := connects + if msg.Connect? then 1 else 0;
    }

    // ---------- Connecting ----------

    // At the IPC level the request is made from the new entry, listed or not; at the application
    // level from the entry the table gives for the peer.
    method StartCACE(local: Apni, remote: Apni)
      requires Valid()
      modifies this`sent, this`connects, table
      ensures Valid()
      ensures var d := EnrollmentModel.StartCace(cfg, old(View()), local, remote);
        d.Done? && View() == d.node && sent == old(sent) + d.out
    {
      hide FindApni, EnrollmentModel.Insert, Underscores;
      StartingSucceeds(cfg, View(), local, remote);
      table.Insert(local, remote, ConAuthenticating);
      if cfg.level == Daf {
        var entry := table.FindEntryByDstAPNI(remote);
        var dst := NameOf(entry.remote.apn);
        Send(Connect(entry.local, entry.remote, dst, true, cfg.auth));
      } else {
        var dst := NameOf(remote.apn);
        Send(Connect(local, remote, dst, true, cfg.auth));
      }
    }

    method InsertStateTableEntry(local: Apni, remote: Apni, dstAddr: string)
      requires Valid()
      modifies table
      ensures Valid()
      ensures Accept(cfg, old(View()), local, remote, dstAddr) == Done(View(), [])
    {
      hide FindApn, FindApni, EnrollmentModel.Insert;
      var entry: StateTableEntry?;
      if cfg.level == Daf {
        entry := table.FindEntryByDstAPNI(remote);
      } else {
        entry := table.FindEntryByDstAPN(dstAddr);
      }
      if entry != null { return; }
      table.Insert(local, remote, ConConnectPending);
    }

    method ProcessConResPosi(entry: StateTableEntry, m: Msg)
      requires m.Connect?
      modifies entry, this`sent, this`connects
      ensures entry.View() == old(entry.View()).(con := ConEstablished, enroll := WaitStartEnrollment)
      ensures connects == old(connects)
      ensures sent == old(sent) + [ConnectR(entry.local, entry.remote, AddressApn(entry.remote.apn), true, m.auth)]
    {
      var dst := NameOf(entry.remote.apn);
      Send(ConnectR(entry.local, entry.remote, dst, true, m.auth));
      entry.conStatus := ConEstablished;
      entry.enrollStatus := WaitStartEnrollment;
    }

    method ProcessConResNega(entry: StateTableEntry, m: Msg)
      requires m.Connect?
      modifies entry, this`sent, this`connects
      ensures entry.View() == old(entry.View()).(con := ConConnectPending, retries := old(entry.connectRetries) + 1)
      ensures connects == old(connects)
      ensures sent == old(sent) + [ConnectR(entry.local, entry.remote, AddressApn(entry.remote.apn), false, m.auth)]
    {
      var dst := NameOf(entry.remote.apn);
      Send(ConnectR(entry.local, entry.remote, dst, false, m.auth));
      entry.conStatus := ConConnectPending;
      entry.connectRetries := entry.connectRetries + 1;
    }

    method Authenticate(entry: StateTableEntry, m: Msg)
      requires m.Connect? && m.gpb
      modifies entry, this`sent, this`connects
      ensures var r := OnConnect(cfg, old(entry.View()).(con := ConConnectPending), m);
        entry.View() == r.0 && sent == old(sent) + r.1
      ensures entry.conStatus == ConEstablished <==>
        m.auth.authType == cfg.auth.authType
        && (m.auth.authType == 0 || (m.auth.authType == 1 && m.auth.authPassword == cfg.auth.authPassword))
      ensures entry.conStatus == ConEstablished || entry.conStatus == ConConnectPending
      ensures connects == old(connects)
    {
      hide Underscores;
      if m.auth.authType == cfg.auth.authType {
        if m.auth.authType == AUTH_NONE {
          ProcessConResPosi(entry, m);
          return;
        } else if m.auth.authType == AUTH_PASSWD {
          if m.auth.authPassword == cfg.auth.authPassword {
            ProcessConResPosi(entry, m);
            return;
          }
        }
      }
      ProcessConResNega(entry, m);
    }

    method AnswerRequest(entry: StateTableEntry, m: Msg)
      requires m.Connect?
      modifies entry, this`sent, this`connects
      ensures var r := OnConnect(cfg, old(entry.View()), m); entry.View() == r.0 && sent == old(sent) + r.1
      ensures connects == old(connects)
    {
      hide Underscores, Authentic;
      if entry.conStatus != ConConnectPending { return; }
      if !m.gpb {
        ProcessConResNega(entry, m);
        return;
      }
      entry.conStatus := ConAuthenticating;
      Authenticate(entry, m);
    }

    method ReceiveConnectRequest(m: Msg)
      requires Valid() && m.Connect?
      modifies this`sent, this`connects, table, table.entries
      ensures Valid()
      ensures var d := Handle(cfg, old(View()), m); d.Done? && View() == d.node && sent == old(sent) + d.out
    {
      hide FindPeer, EnrollmentModel.Insert, OnConnect;
      table.Insert(m.dst, m.src, ConConnectPending);
      ghost var es := table.View();
      var entry := table.FindEntryByPeer(m.src);
      if entry == null { return; }
      ghost var k := FindPeer(cfg.level, es, m.src).value;
      ghost var r := OnConnect(cfg, es[k], m);
      AnswerRequest(entry, m);
      assert table.View() == es[k := r.0];
      OnlyAnswers(cfg, es[k], m);
      assert r.1 != [] ==> r.1[0] in r.1;
    }

    method ReceivePositiveConnectResponse(m: Msg)
      requires Valid() && m.ConnectR? && m.success && Handle(cfg, View(), m).Done?
      modifies this`sent, this`connects, table.entries
      ensures Valid()
      ensures var d := Handle(cfg, old(View()), m); View() == d.node && sent == old(sent) + d.out
    {
      hide FindPeer, Underscores;
      ghost var es := table.View();
      var entry := table.FindEntryByPeer(m.src);
      ghost var k := FindPeer(cfg.level, es, m.src).value;
      if entry.conStatus != ConAuthenticating {
        assert es[k := entry.View()] == es;
        return;
      }
      entry.conStatus := ConEstablished;
      StartEnrollment(entry);
      assert table.View() == es[k := entry.View()];
    }

    method ProcessNewConReq(entry: StateTableEntry)
      modifies entry, this`sent, this`connects
      ensures entry.View() == old(entry.View()).(con := ConAuthenticating)
      ensures connects == old(connects) + 1
      ensures sent == old(sent) + [ConnectMsg(cfg, entry.View())]
    {
      var dst := NameOf(entry.remote.apn);
      Send(Connect(entry.local, entry.remote, dst, true, cfg.auth));
      entry.conStatus := ConAuthenticating;
    }

    method ReceiveNegativeConnectResponse(m: Msg)
      requires Valid() && m.ConnectR? && !m.success && Handle(cfg, View(), m).Done?
      modifies this`sent, this`connects, table.entries
      ensures Valid()
      ensures var d := Handle(cfg, old(View()), m); View() == d.node && sent == old(sent) + d.out
    {
      hide FindPeer, Underscores;
      ghost var es := table.View();
      var entry := table.FindEntryByPeer(m.src);
      ghost var k := FindPeer(cfg.level, es, m.src).value;
      if entry.conStatus != ConAuthenticating {
        assert es[k := entry.View()] == es;
        return;
      }
      if cfg.maxConRetries <= entry.connectRetries {
        entry.conStatus := ConNil;
        assert table.View() == es[k := entry.View()];
        return;
      }
      entry.conStatus := ConConnectPending;
      entry.connectRetries := entry.connectRetries + 1;
      ProcessNewConReq(entry);
      assert table.View() == es[k := entry.View()];
    }

    // ---------- Enrolling ----------

    method StartEnrollment(entry: StateTableEntry)
      modifies entry, this`sent, this`connects
      ensures entry.View() == old(entry.View()).(enroll := WaitStartResponse)
      ensures connects == old(connects)
      ensures sent == old(sent) + [Start(AddressApn(entry.local.apn), AddressApn(entry.remote.apn), ObjAddress(cfg, ipcAddress))]
    {
      var src := NameOf(entry.local.apn);
      var dst := NameOf(entry.remote.apn);
      Send(Start(src, dst, ObjAddress(cfg, ipcAddress)));
      entry.enrollStatus := WaitStartResponse;
    }

    method ReceiveStartEnrollmentResponse(m: Msg)
      requires Valid() && m.StartR? && Handle(cfg, View(), m).Done?
      modifies this`ipcAddress, table.entries
      ensures Valid()
      ensures Handle(cfg, old(View()), m) == Done(View(), [])
    {
      hide FindApn, Underscores;
      ghost var es := table.View();
      var entry := table.FindEntryByDstAPN(m.srcAddr);
      ghost var k := FindApn(cfg.level, es, m.srcAddr).value;
      if entry.enrollStatus != WaitStartResponse { return; }
      if cfg.level == Dif {
        ipcAddress := m.address;
      }
      entry.enrollStatus := WaitStop;
      assert table.View() == es[k := entry.View()];
    }

    method ReceiveStopEnrollmentRequest(m: Msg)
      requires Valid() && m.Stop? && Handle(cfg, View(), m).Done?
      modifies this`sent, this`connects, table.entries
      ensures Valid()
      ensures var d := Handle(cfg, old(View()), m); View() == d.node && sent == old(sent) + d.out
    {
      hide FindApn, Underscores;
      ghost var es := table.View();
      var entry := table.FindEntryByDstAPN(m.srcAddr);
      ghost var k := FindApn(cfg.level, es, m.srcAddr).value;
      if entry.enrollStatus != WaitStop {
        assert es[k := entry.View()] == es;
        return;
      }
      entry.immediateEnrollment := Some(m.immediate);
      entry.enrollStatus := WaitReadResponse;
      ProcessStopEnrollmentResponse(entry);
      assert table.View() == es[k := entry.View()];
    }

    method ProcessStopEnrollmentResponse(entry: StateTableEntry)
      requires entry.immediateEnrollment.Some?
      modifies entry, this`sent, this`connects
      ensures entry.View() == old(entry.View()).(enroll := if old(entry.immediateEnrollment).value then Enrolled else WaitStartOperation)
      ensures connects == old(connects)
      ensures sent == old(sent) + [StopR(AddressApn(entry.local.apn), AddressApn(entry.remote.apn), false)]
    {
      var src := NameOf(entry.local.apn);
      var dst := NameOf(entry.remote.apn);
      Send(StopR(src, dst, false));
      if entry.immediateEnrollment.value {
        entry.enrollStatus := Enrolled;
      } else {
        entry.enrollStatus := WaitStartOperation;
      }
    }

    method AnswerStart(entry: StateTableEntry, m: Msg)
      requires m.Start?
      modifies entry, this`sent, this`connects
      ensures var r := OnStart(cfg, old(entry.View()), m);
        entry.View() == r.0 && sent == old(sent) + r.1 && forall x :: x in r.1 ==> !x.Connect?
      ensures connects == old(connects)
    {
      hide Underscores;
      if entry.enrollStatus != WaitStartEnrollment { return; }
      var src := NameOf(entry.local.apn);
      var dst := NameOf(entry.remote.apn);
      Send(StartR(src, dst, ObjAddress(cfg, m.address)));
      ProcessStopEnrollmentImmediate(entry);
    }

    method ReceiveStartEnrollmentRequest(m: Msg)
      requires Valid() && m.Start? && Handle(cfg, View(), m).Done?
      modifies this`sent, this`connects, table.entries
      ensures Valid()
      ensures var d := Handle(cfg, old(View()), m); View() == d.node && sent == old(sent) + d.out
    {
      hide FindApn, OnStart;
      ghost var es := table.View();
      var entry := table.FindEntryByDstAPN(m.srcAddr);
      ghost var k := FindApn(cfg.level, es, m.srcAddr).value;
      ghost var r := OnStart(cfg, es[k], m);
      AnswerStart(entry, m);
      assert table.View() == es[k := r.0];
      assert r.1 != [] ==> r.1[0] in r.1;
    }

    method ProcessStopEnrollmentImmediate(entry: StateTableEntry)
      modifies entry, this`sent, this`connects
      ensures entry.View() == old(entry.View()).(immediate := Some(true), enroll := WaitStopResponse)
      ensures connects == old(connects)
      ensures sent == old(sent) + [Stop(AddressApn(entry.local.apn), AddressApn(entry.remote.apn), true)]
    {
      entry.immediateEnrollment := Some(true);
      var src := NameOf(entry.local.apn);
      var dst := NameOf(entry.remote.apn);
      Send(Stop(src, dst, true));
      entry.enrollStatus := WaitStopResponse;
    }

    method ReceiveStopEnrollmentResponse(m: Msg)
      requires Valid() && m.StopR? && Handle(cfg, View(), m).Done?
      modifies table.entries
      ensures Valid()
      ensures Handle(cfg, old(View()), m) == Done(View(), [])
    {
      hide FindApn, Underscores;
      ghost var es := table.View();
      var entry := table.FindEntryByDstAPN(m.srcAddr);
      ghost var k := FindApn(cfg.level, es, m.srcAddr).value;
      if entry.enrollStatus != WaitStopResponse { return; }
      if entry.immediateEnrollment.value {
        entry.enrollStatus := Enrolled;
      }
      assert table.View() == es[k := entry.View()];
    }
  }
}
