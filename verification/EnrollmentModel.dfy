/**
 Enrollment and connection establishment (CACE) as a function of values: what one node does with
 one message. The application level (src/DAF/Enrollment) and the IPC level (src/DIF/Enrollment)
 run the same machine; `Level` selects the few points where they differ.
 */
module EnrollmentModel {
  import opened Wrappers

  datatype Level = Daf | Dif

  // ---------- Names and addresses ----------

  datatype Apni = Apni(apn: string, apinstance: string, aename: string, aeinstance: string)

  function Underscores(s: string): nat {
    if |s| == 0 then 0 else Underscores(s[..|s| - 1]) + if s[|s| - 1] == '_' then 1 else 0
  }

  // Address(name).getApn(): a name with two or more underscores is lost.
  function AddressApn(name: string): string {
    if Underscores(name) <= 1 then name else ""
  }

  // strstr(s, "mgmt")
  predicate HasMgmt(s: string) {
    exists i :: 0 <= i <= |s| - 4 && s[i] == 'm' && s[i + 1] == 'g' && s[i + 2] == 'm' && s[i + 3] == 't'
  }

  lemma MgmtIff(s: string)
    ensures HasMgmt(s) <==> exists x, y :: s == x + "mgmt" + y
  {
    if HasMgmt(s) {
      var i :| 0 <= i <= |s| - 4 && s[i] == 'm' && s[i + 1] == 'g' && s[i + 2] == 'm' && s[i + 3] == 't';
      assert s == s[..i] + "mgmt" + s[i + 4..];
    }
    if x, y :| s == x + "mgmt" + y {
      var i := |x|;
      assert s[i] == 'm' && s[i + 1] == 'g' && s[i + 2] == 'm' && s[i + 3] == 't';
    }
  }

  lemma {:induction false} UnderscoresAre(s: string)
    ensures Underscores(s) == multiset(s)['_']
  {
    if s != [] {
      UnderscoresAre(s[..|s| - 1]);
      assert s == s[..|s| - 1] + [s[|s| - 1]];
    }
  }

  // ---------- Table entries ----------

  datatype ConStatus =
    ConError | ConNil | ConFlowPending | ConConnectPending | ConAuthenticating | ConEstablished | ConReleasing

  datatype EnrollStatus =
    EnrollError | EnrollNil | WaitStartEnrollment | WaitStartResponse | WaitStop | WaitStopResponse
    | WaitReadResponse | WaitStartOperation | CreatingObj | Enrolled

  // `immediate` is None while no constructor or handler has written the flag.
  datatype Entry = Entry(local: Apni, remote: Apni, con: ConStatus, enroll: EnrollStatus,
                         retries: int, immediate: Option<bool>)

  function Fresh(local: Apni, remote: Apni, con: ConStatus): Entry {
    Entry(local, remote, con, EnrollNil, 0, None)
  }

  // ---------- The table: append, first match ----------

  predicate MatchesApn(level: Level, e: Entry, apn: string) {
    e.remote.apn == apn && (level == Daf ==> HasMgmt(e.remote.aename))
  }

  function FindApn(level: Level, table: seq<Entry>, apn: string): (r: Option<nat>)
    ensures r.Some? ==> r.value < |table| && MatchesApn(level, table[r.value], apn)
                        && forall i :: 0 <= i < r.value ==> !MatchesApn(level, table[i], apn)
    ensures r.None? ==> forall i :: 0 <= i < |table| ==> !MatchesApn(level, table[i], apn)
  {
    if |table| == 0 then None
    else
      var r := FindApn(level, table[..|table| - 1], apn);
      if r.Some? then r
      else if MatchesApn(level, table[|table| - 1], apn) then Some(|table| - 1) else None
  }

  function FindApni(table: seq<Entry>, apni: Apni): (r: Option<nat>)
    ensures r.Some? ==> r.value < |table| && table[r.value].remote == apni
                        && forall i :: 0 <= i < r.value ==> table[i].remote != apni
    ensures r.None? ==> forall i :: 0 <= i < |table| ==> table[i].remote != apni
  {
    if |table| == 0 then None
    else
      var r := FindApni(table[..|table| - 1], apni);
      if r.Some? then r
      else if table[|table| - 1].remote == apni then Some(|table| - 1) else None
  }

  // Connection handlers look a peer up by its whole name at the application level, by its
  // process name at the IPC level.
  function FindPeer(level: Level, table: seq<Entry>, apni: Apni): (r: Option<nat>)
    ensures r.Some? ==> r.value < |table|
  {
    if level == Daf then FindApni(table, apni) else FindApn(level, table, apni.apn)
  }

  // The first entry of the whole name at the application level and of the process name at the IPC level, if any
  lemma PeerIsFirst(level: Level, table: seq<Entry>, apni: Apni)
    ensures var k := FindPeer(level, table, apni);
      var end := if k.Some? then k.value else |table|;
      && (k.Some? ==> table[k.value].remote.apn == apni.apn && (level == Daf ==> table[k.value].remote == apni))
      && (level == Daf ==> forall i :: 0 <= i < end ==> table[i].remote != apni)
      && (level == Dif ==> forall i :: 0 <= i < end ==> table[i].remote.apn != apni.apn)
  {
    hide FindApn, FindApni, HasMgmt;
    forall i | 0 <= i < |table| && level == Dif
      ensures MatchesApn(level, table[i], apni.apn) <==> table[i].remote.apn == apni.apn
    {
    }
  }

  // The first management entity of a process, if any
  lemma ManagementIsFirst(table: seq<Entry>, apn: string)
    ensures var k := FindApn(Daf, table, apn);
      var end := if k.Some? then k.value else |table|;
      && (k.Some? ==> table[k.value].remote.apn == apn && exists x, y :: table[k.value].remote.aename == x + "mgmt" + y)
      && (forall i, x, y :: 0 <= i < end && table[i].remote.aename == x + "mgmt" + y ==> table[i].remote.apn != apn)
  {
    hide FindApn, HasMgmt;
    var k := FindApn(Daf, table, apn);
    if k.Some? {
      MgmtIff(table[k.value].remote.aename);
    }
    forall i, x, y | 0 <= i < |table| && table[i].remote.aename == x + "mgmt" + y
      ensures MatchesApn(Daf, table[i], apn) <==> table[i].remote.apn == apn
    {
      MgmtIff(table[i].remote.aename);
    }
  }

  // The IPC-level table refuses a second entry for a process name; the application-level one does not.
  function Insert(level: Level, table: seq<Entry>, e: Entry): seq<Entry> {
    if level == Dif && FindApn(level, table, e.remote.apn).Some? then table else table + [e]
  }

  // ---------- Messages ----------

  const AUTH_NONE := 0
  const AUTH_PASSWD := 1

  datatype Auth = Auth(authType: nat, authName: string, authPassword: string, authOther: string)

  // `to` is the destination address by which a message is routed.
  datatype Msg =
    | Connect(src: Apni, dst: Apni, to: string, gpb: bool, auth: Auth)
    | ConnectR(src: Apni, dst: Apni, to: string, success: bool, auth: Auth)
    | Start(srcAddr: string, to: string, address: string)
    | StartR(srcAddr: string, to: string, address: string)
    | Stop(srcAddr: string, to: string, immediate: bool)
    | StopR(srcAddr: string, to: string, immediate: bool)

  // ---------- A node ----------

  datatype Config = Config(level: Level, auth: Auth, maxConRetries: int)

  // `connects` counts the M_CONNECTs sent.
  datatype Node = Node(table: seq<Entry>, ipcAddress: string, connects: nat)

  // Fault: a null entry was dereferenced or an unwritten flag was read.
  datatype Outcome = Fault | Done(node: Node, out: seq<Msg>)

  predicate Authentic(own: Auth, theirs: Auth) {
    && theirs.authType == own.authType
    && (theirs.authType == AUTH_NONE || (theirs.authType == AUTH_PASSWD && theirs.authPassword == own.authPassword))
  }

  function ConnectMsg(cfg: Config, e: Entry): Msg {
    Connect(e.local, e.remote, AddressApn(e.remote.apn), true, cfg.auth)
  }

  function ObjAddress(cfg: Config, address: string): string {
    if cfg.level == Dif then address else ""
  }

  // receiveAllocationResponsePositive and startCACE
  function StartCace(cfg: Config, node: Node, local: Apni, remote: Apni): Outcome {
    var e := Fresh(local, remote, ConAuthenticating);
    var table := Insert(cfg.level, node.table, e);
    var k := FindApni(table, remote);
    if cfg.level == Daf then
      if k.None? then Fault
      else Done(node.(table := table, connects := node.connects + 1), [ConnectMsg(cfg, table[k.value])])
    else Done(node.(table := table, connects := node.connects + 1), [ConnectMsg(cfg, e)])
  }

  // Starting always succeeds: the lookup at the application level finds at least the entry just made.
  lemma StartingSucceeds(cfg: Config, node: Node, local: Apni, remote: Apni)
    ensures StartCace(cfg, node, local, remote).Done?
  {
    hide FindApn, FindApni;
    var e := Fresh(local, remote, ConAuthenticating);
    assert (node.table + [e])[|node.table|].remote == remote;
  }

  // insertStateTableEntry: only the first flow of a peer is entered. The IPC level looks for the process
  // that the flow is addressed to.
  function Accept(cfg: Config, node: Node, local: Apni, remote: Apni, dstAddr: string): Outcome {
    if (if cfg.level == Daf then FindApni(node.table, remote) else FindApn(Dif, node.table, dstAddr)).Some? then Done(node, [])
    else Done(node.(table := Insert(cfg.level, node.table, Fresh(local, remote, ConConnectPending))), [])
  }

  // receiveConnectRequest, authenticate, processConResPosi and processConResNega
  function OnConnect(cfg: Config, e: Entry, m: Msg): (Entry, seq<Msg>)
    requires m.Connect?
  {
    if e.con != ConConnectPending then (e, [])
    else if m.gpb && Authentic(cfg.auth, m.auth) then
      (e.(con := ConEstablished, enroll := WaitStartEnrollment),
       [ConnectR(e.local, e.remote, AddressApn(e.remote.apn), true, m.auth)])
    else
      (e.(con := ConConnectPending, retries := e.retries + 1),
       [ConnectR(e.local, e.remote, AddressApn(e.remote.apn), false, m.auth)])
  }

  // receivePositiveConnectResponse and startEnrollment
  function OnPositive(cfg: Config, e: Entry, ipcAddress: string): (Entry, seq<Msg>) {
    if e.con != ConAuthenticating then (e, [])
    else (e.(con := ConEstablished, enroll := WaitStartResponse),
          [Start(AddressApn(e.local.apn), AddressApn(e.remote.apn), ObjAddress(cfg, ipcAddress))])
  }

  // receiveNegativeConnectResponse and processNewConReq
  function OnNegative(cfg: Config, e: Entry): (Entry, seq<Msg>) {
    if e.con != ConAuthenticating then (e, [])
    else if cfg.maxConRetries <= e.retries then (e.(con := ConNil), [])
    else (e.(con := ConAuthenticating, retries := e.retries + 1), [ConnectMsg(cfg, e)])
  }

  // receiveStartEnrollmentRequest and processStopEnrollmentImmediate
  function OnStart(cfg: Config, e: Entry, m: Msg): (Entry, seq<Msg>)
    requires m.Start?
  {
    if e.enroll != WaitStartEnrollment then (e, [])
    else (e.(immediate := Some(true), enroll := WaitStopResponse),
          [StartR(AddressApn(e.local.apn), AddressApn(e.remote.apn), ObjAddress(cfg, m.address)),
           Stop(AddressApn(e.local.apn), AddressApn(e.remote.apn), true)])
  }

  // receiveStopEnrollmentRequest and processStopEnrollmentResponse
  function OnStop(e: Entry, m: Msg): (Entry, seq<Msg>)
    requires m.Stop?
  {
    if e.enroll != WaitStop then (e, [])
    else (e.(immediate := Some(m.immediate), enroll := if m.immediate then Enrolled else WaitStartOperation),
          [StopR(AddressApn(e.local.apn), AddressApn(e.remote.apn), false)])
  }

  function Put(node: Node, k: nat, r: (Entry, seq<Msg>)): Outcome
    requires k < |node.table|
  {
    Done(node.(table := node.table[k := r.0], connects := node.connects + if |r.1| == 1 && r.1[0].Connect? then 1 else 0), r.1)
  }

  function Handle(cfg: Config, node: Node, m: Msg): Outcome {
    match m
    case Connect(src, dst, _, _, _) =>
      var n := node.(table := Insert(cfg.level, node.table, Fresh(dst, src, ConConnectPending)));
      var k := FindPeer(cfg.level, n.table, src);
      if k.None? then Done(n, []) else Put(n, k.value, OnConnect(cfg, n.table[k.value], m))
    case ConnectR(src, _, _, success, _) =>
      var k := FindPeer(cfg.level, node.table, src);
      if k.None? then Fault
      else if success then Put(node, k.value, OnPositive(cfg, node.table[k.value], node.ipcAddress))
      else Put(node, k.value, OnNegative(cfg, node.table[k.value]))
    case Start(srcAddr, _, _) =>
      var k := FindApn(cfg.level, node.table, srcAddr);
      if k.None? then Fault else Put(node, k.value, OnStart(cfg, node.table[k.value], m))
    case StartR(srcAddr, _, address) =>
      var k := FindApn(cfg.level, node.table, srcAddr);
      if k.None? then Fault
      else
        var e := node.table[k.value];
        if e.enroll != WaitStartResponse then Done(node, [])
        else Put(if cfg.level == Dif then node.(ipcAddress := address) else node, k.value, (e.(enroll := WaitStop), []))
    case Stop(srcAddr, _, _) =>
      var k := FindApn(cfg.level, node.table, srcAddr);
      if k.None? then Fault else Put(node, k.value, OnStop(node.table[k.value], m))
    case StopR(srcAddr, _, _) =>
      var k := FindApn(cfg.level, node.table, srcAddr);
      if k.None? then Fault
      else
        var e := node.table[k.value];
        if e.enroll != WaitStopResponse then Done(node, [])
        else if e.immediate.None? then Fault
        else Put(node, k.value, (if e.immediate.value then e.(enroll := Enrolled) else e, []))
  }

  // ---------- Enrollment is final ----------

  predicate IsEnrolled(e: Entry) {
    e.con == ConEstablished && e.enroll == Enrolled
  }

  // No message of any kind changes an enrolled entry.
  lemma EnrolledIsFinal(cfg: Config, node: Node, m: Msg, k: nat)
    requires k < |node.table| && IsEnrolled(node.table[k]) && Handle(cfg, node, m).Done?
    ensures var table := Handle(cfg, node, m).node.table; k < |table| && table[k] == node.table[k]
  {
    hide HasMgmt, Underscores, Authentic, FindPeer, FindApn, FindApni;
  }

  // ---------- One peer's share of a table ----------

  // The entries for one peer, in table order
  function EntriesOf(table: seq<Entry>, r: Apni): seq<Entry> {
    if |table| == 0 then []
    else EntriesOf(table[..|table| - 1], r) + if table[|table| - 1].remote == r then [table[|table| - 1]] else []
  }

  lemma {:induction false} EntriesOfMatch(table: seq<Entry>, r: Apni)
    ensures forall e :: e in EntriesOf(table, r) <==> e in table && e.remote == r
  {
    if |table| > 0 {
      EntriesOfMatch(table[..|table| - 1], r);
      assert table == table[..|table| - 1] + [table[|table| - 1]];
    }
  }

  lemma EntriesOfAppend(table: seq<Entry>, e: Entry, r: Apni)
    ensures EntriesOf(table + [e], r) == EntriesOf(table, r) + if e.remote == r then [e] else []
  {
    assert (table + [e])[..|table|] == table;
  }

  lemma {:induction false} NoEntries(table: seq<Entry>, r: Apni)
    requires forall i :: 0 <= i < |table| ==> table[i].remote != r
    ensures EntriesOf(table, r) == []
  {
    if |table| > 0 {
      NoEntries(table[..|table| - 1], r);
    }
  }

  // Changing the first entry of a peer changes the head of that peer's share and nothing else.
  lemma {:induction false} EntriesOfFirst(table: seq<Entry>, r: Apni, k: nat, e: Entry)
    requires k < |table| && table[k].remote == r && e.remote == r
    requires forall i :: 0 <= i < k ==> table[i].remote != r
    ensures |EntriesOf(table, r)| > 0 && EntriesOf(table, r)[0] == table[k]
    ensures EntriesOf(table[k := e], r) == EntriesOf(table, r)[0 := e]
    ensures forall r' :: r' != r ==> EntriesOf(table[k := e], r') == EntriesOf(table, r')
  {
    var n := |table| - 1;
    if k < n {
      EntriesOfFirst(table[..n], r, k, e);
      assert table[k := e][..n] == table[..n][k := e];
    } else {
      NoEntries(table[..n], r);
      assert table[k := e][..n] == table[..n];
    }
  }

  // Both kinds of lookup find the same entry when names are as a network has them: an entry with the
  // process name of a peer is that peer's, and application-level peers are management entities.
  ghost predicate Legit(level: Level, table: seq<Entry>, peers: set<Apni>) {
    && (forall e, r :: e in table && r in peers && e.remote.apn == r.apn ==> e.remote == r)
    && (level == Daf ==> forall r :: r in peers ==> HasMgmt(r.aename))
  }

  lemma LookupsAgree(level: Level, table: seq<Entry>, peers: set<Apni>, r: Apni)
    requires Legit(level, table, peers) && r in peers
    ensures FindApn(level, table, r.apn) == FindApni(table, r) == FindPeer(level, table, r)
    ensures FindApni(table, r).None? <==> EntriesOf(table, r) == []
  {
    hide HasMgmt;
    EntriesOfMatch(table, r);
    assert forall i :: 0 <= i < |table| ==> table[i] in table && (MatchesApn(level, table[i], r.apn) <==> table[i].remote == r);
    if EntriesOf(table, r) != [] {
      var e := EntriesOf(table, r)[0];
      assert e in table && e.remote == r;
    }
    if FindApni(table, r).Some? {
      assert table[FindApni(table, r).value] in EntriesOf(table, r);
    }
  }
}
