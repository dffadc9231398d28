/**
 One member, any number of initiators and a network that may lose, duplicate and reorder: every
 message ever sent stays available for delivery, so a run may deliver it never, once or many times,
 in any order. Safety over all such runs, at both levels.
 */
module EnrollmentRuns {
  import opened EnrollmentModel
  import opened Wrappers

  // ---------- The setting ----------

  datatype Initiator = Initiator(name: Apni, cfg: Config, address: string)

  // `initial` is the member's table at the start, such as the entry that an IPC process enrolled by itself
  // has for itself.
  datatype Setup = Setup(member: Apni, cfg: Config, inits: seq<Initiator>, initial: seq<Entry>)

  // One level throughout, names that survive `Address` and that tell the processes apart, management
  // entities at the application level, and no entry for an initiator yet.
  ghost predicate Proper(s: Setup) {
    && (s.cfg.level == Daf ==> HasMgmt(s.member.aename)) && AddressApn(s.member.apn) == s.member.apn
    && (forall i :: 0 <= i < |s.inits| ==>
          && s.inits[i].cfg.level == s.cfg.level
          && (s.cfg.level == Daf ==> HasMgmt(s.inits[i].name.aename))
          && AddressApn(s.inits[i].name.apn) == s.inits[i].name.apn
          && s.inits[i].name.apn != s.member.apn)
    && (forall i, j :: 0 <= i < j < |s.inits| ==> s.inits[i].name.apn != s.inits[j].name.apn)
    && (forall e, i :: e in s.initial && 0 <= i < |s.inits| ==> e.remote.apn != s.inits[i].name.apn)
  }

  // IPC processes have no entity names, and the first of them is enrolled by itself.
  lemma IpcSetupIsProper(cfg: Config, auth: Auth, address: string)
    requires cfg.level == Dif
    ensures var m, i := Apni("m", "", "", ""), Apni("i", "", "", "");
      Proper(Setup(m, cfg, [Initiator(i, Config(Dif, auth, 0), address)], [Entry(m, m, ConEstablished, Enrolled, 0, None)]))
  {
    assert Underscores("m"[..0]) == 0 && Underscores("i"[..0]) == 0;
  }

  predicate Match(s: Setup, i: nat)
    requires i < |s.inits|
  {
    Authentic(s.cfg.auth, s.inits[i].cfg.auth)
  }

  function Budget(cfg: Config): nat {
    if cfg.maxConRetries < 0 then 0 else cfg.maxConRetries
  }

  // `begins` counts how often each initiator's flow to the member has come up.
  datatype World = World(member: Node, nodes: seq<Node>, net: set<Msg>, begins: seq<nat>)

  datatype Event =
    | Allocate(i: nat, addr: string)  // a flow from initiator i, addressed to `addr`, is accepted
    | Begin(i: nat, local: Apni)      // a flow from initiator i to the member is up, once more
    | ToMember(m: Msg)
    | ToInitiator(i: nat, m: Msg)

  ghost predicate Initial(s: Setup, w: World) {
    && w.member.table == s.initial && w.net == {}
    && |w.nodes| == |s.inits| == |w.begins|
    && forall i :: 0 <= i < |s.inits| ==> w.nodes[i] == Node([], s.inits[i].address, 0) && w.begins[i] == 0
  }

  // Later flows of an application have instance names of their own.
  predicate Enabled(s: Setup, w: World, e: Event) {
    && |w.nodes| == |s.inits| == |w.begins|
    && match e
       case Allocate(i, _) => i < |s.inits|
       case Begin(i, local) => i < |s.inits| && (w.begins[i] == 0 || s.cfg.level == Dif ==> local == s.inits[i].name)
       case ToMember(m) => m in w.net && m.to == s.member.apn
       case ToInitiator(i, m) => i < |s.inits| && m in w.net && m.to == s.inits[i].name.apn
  }

  // What the node concerned does
  function Act(s: Setup, w: World, e: Event): Outcome
    requires Enabled(s, w, e)
  {
    match e
    case Allocate(i, addr) => Accept(s.cfg, w.member, s.member, s.inits[i].name, addr)
    case Begin(i, local) => StartCace(s.inits[i].cfg, w.nodes[i], local, s.member)
    case ToMember(m) => Handle(s.cfg, w.member, m)
    case ToInitiator(i, m) => Handle(s.inits[i].cfg, w.nodes[i], m)
  }

  function Sent(out: seq<Msg>): set<Msg> {
    set m | m in out
  }

  ghost predicate Next(s: Setup, w: World, e: Event, w': World) {
    && Enabled(s, w, e)
    && Act(s, w, e).Done?
    && var d := Act(s, w, e);
       w' == if e.Allocate? || e.ToMember? then w.(member := d.node, net := w.net + Sent(d.out))
             else w.(nodes := w.nodes[e.i := d.node], net := w.net + Sent(d.out),
                     begins := if e.Begin? then w.begins[e.i := w.begins[e.i] + 1] else w.begins)
  }

  ghost predicate Run(s: Setup, ws: seq<World>, es: seq<Event>) {
    && |ws| == |es| + 1
    && Initial(s, ws[0])
    && forall n :: 0 <= n < |es| ==> Next(s, ws[n], es[n], ws[n + 1])
  }

  // ---------- The messages of one pair ----------

  function ConnectOf(s: Setup, i: nat): Msg
    requires i < |s.inits|
  {
    Connect(s.inits[i].name, s.member, s.member.apn, true, s.inits[i].cfg.auth)
  }

  function ConnectROf(s: Setup, i: nat): Msg
    requires i < |s.inits|
  {
    ConnectR(s.member, s.inits[i].name, s.inits[i].name.apn, Match(s, i), s.inits[i].cfg.auth)
  }

  // The initiator's own address, in the request and in the answer
  function StartOf(s: Setup, i: nat): Msg
    requires i < |s.inits|
  {
    Start(s.inits[i].name.apn, s.member.apn, ObjAddress(s.cfg, s.inits[i].address))
  }

  function StartROf(s: Setup, i: nat): Msg
    requires i < |s.inits|
  {
    StartR(s.member.apn, s.inits[i].name.apn, ObjAddress(s.cfg, s.inits[i].address))
  }

  function StopOf(s: Setup, i: nat): Msg
    requires i < |s.inits|
  {
    Stop(s.member.apn, s.inits[i].name.apn, true)
  }

  function StopROf(s: Setup, i: nat): Msg
    requires i < |s.inits|
  {
    StopR(s.inits[i].name.apn, s.member.apn, false)
  }

  predicate OfPair(s: Setup, i: nat, m: Msg)
    requires i < |s.inits|
  {
    || m == ConnectOf(s, i) || m == ConnectROf(s, i) || m == StartOf(s, i)
    || m == StartROf(s, i) || m == StopOf(s, i) || m == StopROf(s, i)
  }

  lemma PairsAreApart(s: Setup, i: nat, j: nat, m: Msg)
    requires Proper(s) && i < |s.inits| && j < |s.inits| && OfPair(s, i, m) && OfPair(s, j, m)
    ensures i == j
  {
    hide HasMgmt, AddressApn, Authentic;
  }

  // ---------- The invariant of one pair ----------

  // The states an initiator's entry goes through
  predicate Refused(e: Entry) { e.con == ConNil && e.enroll == EnrollNil }

  predicate Asking(e: Entry) { e.con == ConAuthenticating && e.enroll == EnrollNil }

  predicate Joining(e: Entry) { e.con == ConEstablished && e.enroll == WaitStartResponse }

  predicate Stopping(e: Entry) { e.con == ConEstablished && e.enroll == WaitStop }

  predicate Joined(e: Entry) { e.con == ConEstablished && e.enroll == Enrolled && e.immediate == Some(true) }

  // The entry in use is the first; at the application level every later flow adds one that stays as
  // it was made.
  predicate InitiatorShape(s: Setup, i: nat, b: nat, node: Node)
    requires i < |s.inits|
  {
    && node.ipcAddress == s.inits[i].address
    && |node.table| == (if s.cfg.level == Dif && b > 0 then 1 else b)
    && node.connects == (if b == 0 then 0 else b + node.table[0].retries)
    && (forall k :: 1 <= k < |node.table| ==>
          node.table[k] == Fresh(node.table[k].local, s.member, ConAuthenticating))
    && (node.table != [] ==>
          var e := node.table[0];
          && e.local == s.inits[i].name && e.remote == s.member
          && 0 <= e.retries <= Budget(s.inits[i].cfg)
          && (Refused(e) || Asking(e) || Joining(e) || Stopping(e) || Joined(e))
          && (Refused(e) ==> !Match(s, i) && e.retries == Budget(s.inits[i].cfg))
          && (e.con == ConEstablished ==> Match(s, i)))
  }

  // The states of the entry the member works with: the first one it made for the initiator
  predicate Listening(e: Entry) { e.con == ConConnectPending && e.enroll == EnrollNil }

  predicate Admitted(e: Entry) { e.con == ConEstablished && e.enroll == WaitStartEnrollment }

  predicate Ending(e: Entry) { e.con == ConEstablished && e.enroll == WaitStopResponse && e.immediate == Some(true) }

  predicate MemberShape(s: Setup, i: nat, es: seq<Entry>)
    requires i < |s.inits|
  {
    es != [] ==>
      && es[0].local == s.member && es[0].remote == s.inits[i].name && es[0].retries >= 0
      && (Listening(es[0]) || Admitted(es[0]) || Ending(es[0]) || Joined(es[0]))
      && (es[0].con == ConEstablished ==> Match(s, i))
      && (forall k :: 1 <= k < |es| ==> es[k] == Fresh(s.member, s.inits[i].name, ConConnectPending))
      && (s.cfg.level == Dif ==> |es| == 1)
  }

  // What a message that was ever sent, and what each side's state, says about the other side
  predicate Causal(s: Setup, i: nat, node: Node, es: seq<Entry>, net: set<Msg>)
    requires i < |s.inits|
  {
    && (node.table == [] ==> ConnectOf(s, i) !in net)
    && (ConnectROf(s, i) in net ==> ConnectOf(s, i) in net && (Match(s, i) ==> es != [] && es[0].con == ConEstablished))
    && (StartOf(s, i) in net ==> node.table != [] && node.table[0].con == ConEstablished)
    && (StartROf(s, i) in net || StopOf(s, i) in net ==> es != [] && (Ending(es[0]) || Joined(es[0])))
    && (StopROf(s, i) in net ==> node.table != [] && Joined(node.table[0]))
    && (node.table != [] && node.table[0].con == ConEstablished ==> ConnectROf(s, i) in net)
    && (node.table != [] && (Stopping(node.table[0]) || Joined(node.table[0])) ==> StartROf(s, i) in net)
    && (es != [] && es[0].con == ConEstablished ==> ConnectROf(s, i) in net)
    && (es != [] && (Ending(es[0]) || Joined(es[0])) ==> StartOf(s, i) in net)
    && (es != [] && Joined(es[0]) ==> StopROf(s, i) in net)
  }

  predicate PairInv(s: Setup, i: nat, b: nat, node: Node, es: seq<Entry>, net: set<Msg>)
    requires i < |s.inits|
  {
    InitiatorShape(s, i, b, node) && MemberShape(s, i, es) && Causal(s, i, node, es, net)
  }

  // ---------- Each handler keeps the pair's invariant ----------

  // The member's share after a request has been entered in the table
  function Entered(s: Setup, i: nat, es: seq<Entry>): (r: seq<Entry>)
    requires i < |s.inits|
    ensures r != []
  {
    if s.cfg.level == Dif && es != [] then es else es + [Fresh(s.member, s.inits[i].name, ConConnectPending)]
  }

  lemma ConnectKeeps(s: Setup, i: nat, b: nat, node: Node, es: seq<Entry>, net: set<Msg>)
    requires Proper(s) && i < |s.inits| && PairInv(s, i, b, node, es, net) && ConnectOf(s, i) in net
    ensures var es' := Entered(s, i, es); var r := OnConnect(s.cfg, es'[0], ConnectOf(s, i));
      && (forall m :: m in r.1 ==> m == ConnectROf(s, i))
      && PairInv(s, i, b, node, es'[0 := r.0], net + Sent(r.1))
  {
    hide HasMgmt, Underscores, Authentic;
    var es' := Entered(s, i, es);
    var r := OnConnect(s.cfg, es'[0], ConnectOf(s, i));
    assert Causal(s, i, node, es'[0 := r.0], net + Sent(r.1));
  }

  lemma StartKeeps(s: Setup, i: nat, b: nat, node: Node, es: seq<Entry>, net: set<Msg>)
    requires Proper(s) && i < |s.inits| && PairInv(s, i, b, node, es, net) && StartOf(s, i) in net
    ensures es != []
    ensures var r := OnStart(s.cfg, es[0], StartOf(s, i));
      && (forall m :: m in r.1 ==> m == StartROf(s, i) || m == StopOf(s, i))
      && PairInv(s, i, b, node, es[0 := r.0], net + Sent(r.1))
  {
    hide HasMgmt, Underscores, Authentic;
    var r := OnStart(s.cfg, es[0], StartOf(s, i));
    assert r.1 != [] ==> r.1[0] == StartROf(s, i) && r.1[1] == StopOf(s, i);
  }

  lemma PositiveKeeps(s: Setup, i: nat, b: nat, node: Node, es: seq<Entry>, net: set<Msg>)
    requires Proper(s) && i < |s.inits| && PairInv(s, i, b, node, es, net) && ConnectROf(s, i) in net && Match(s, i)
    ensures node.table != []
    ensures var r := OnPositive(s.inits[i].cfg, node.table[0], node.ipcAddress);
      && (forall m :: m in r.1 ==> m == StartOf(s, i))
      && PairInv(s, i, b, node.(table := node.table[0 := r.0]), es, net + Sent(r.1))
  {
    hide HasMgmt, Underscores, Authentic;
    var r := OnPositive(s.inits[i].cfg, node.table[0], node.ipcAddress);
    assert r.1 != [] ==> r.1[0] == StartOf(s, i);
  }

  lemma NegativeKeeps(s: Setup, i: nat, b: nat, node: Node, es: seq<Entry>, net: set<Msg>)
    requires Proper(s) && i < |s.inits| && PairInv(s, i, b, node, es, net) && ConnectROf(s, i) in net && !Match(s, i)
    ensures node.table != []
    ensures var r := OnNegative(s.inits[i].cfg, node.table[0]);
      && (forall m :: m in r.1 ==> m == ConnectOf(s, i))
      && PairInv(s, i, b, node.(table := node.table[0 := r.0], connects := node.connects + |r.1|), es, net + Sent(r.1))
  {
    hide HasMgmt, Underscores, Authentic;
    var r := OnNegative(s.inits[i].cfg, node.table[0]);
    assert r.1 != [] ==> r.1[0] == ConnectOf(s, i);
  }

  lemma StopKeeps(s: Setup, i: nat, b: nat, node: Node, es: seq<Entry>, net: set<Msg>)
    requires Proper(s) && i < |s.inits| && PairInv(s, i, b, node, es, net) && StopOf(s, i) in net
    ensures node.table != []
    ensures var r := OnStop(node.table[0], StopOf(s, i));
      && (forall m :: m in r.1 ==> m == StopROf(s, i))
      && PairInv(s, i, b, node.(table := node.table[0 := r.0]), es, net + Sent(r.1))
  {
    hide HasMgmt, Underscores, Authentic;
    var r := OnStop(node.table[0], StopOf(s, i));
    assert r.1 != [] ==> r.1[0] == StopROf(s, i);
  }

  lemma StartRKeeps(s: Setup, i: nat, b: nat, node: Node, es: seq<Entry>, net: set<Msg>)
    requires Proper(s) && i < |s.inits| && PairInv(s, i, b, node, es, net) && StartROf(s, i) in net
    ensures node.table != []
    ensures node.table[0].enroll == WaitStartResponse ==>
      PairInv(s, i, b, node.(table := node.table[0 := node.table[0].(enroll := WaitStop)]), es, net)
  {
    hide HasMgmt, Underscores, Authentic;
  }

  lemma StopRKeeps(s: Setup, i: nat, b: nat, node: Node, es: seq<Entry>, net: set<Msg>)
    requires Proper(s) && i < |s.inits| && PairInv(s, i, b, node, es, net) && StopROf(s, i) in net
    ensures es != [] && es[0].immediate == Some(true)
    ensures es[0].enroll == WaitStopResponse ==> PairInv(s, i, b, node, es[0 := es[0].(enroll := Enrolled)], net)
  {
    hide HasMgmt, Underscores, Authentic;
  }

  // ---------- The invariant of a world ----------

  // Whoever has the process name of an initiator is that initiator.
  ghost predicate Unmistaken(s: Setup, r: Apni) {
    forall i :: 0 <= i < |s.inits| && s.inits[i].name.apn == r.apn ==> s.inits[i].name == r
  }

  // Not one of the initiators
  predicate Stranger(s: Setup, r: Apni) {
    forall i :: 0 <= i < |s.inits| ==> s.inits[i].name != r
  }

  ghost predicate IsOurs(s: Setup, m: Msg) {
    exists i :: 0 <= i < |s.inits| && OfPair(s, i, m)
  }

  ghost predicate PairHolds(s: Setup, w: World, i: nat)
    requires i < |s.inits| && i < |w.nodes| && i < |w.begins|
  {
    PairInv(s, i, w.begins[i], w.nodes[i], EntriesOf(w.member.table, s.inits[i].name), w.net)
  }

  ghost predicate Inv(s: Setup, w: World) {
    && |w.nodes| == |s.inits| == |w.begins|
    && (forall e :: e in w.member.table ==> Unmistaken(s, e.remote))
    && (forall r :: Stranger(s, r) ==> EntriesOf(w.member.table, r) == EntriesOf(s.initial, r))
    && (forall m :: m in w.net ==> IsOurs(s, m))
    && (forall i :: 0 <= i < |s.inits| ==> PairHolds(s, w, i))
  }

  lemma InitialInv(s: Setup, w: World)
    requires Proper(s) && Initial(s, w)
    ensures Inv(s, w)
  {
    hide OfPair, HasMgmt, Underscores, EntriesOf;
    forall i | 0 <= i < |s.inits|
      ensures PairHolds(s, w, i)
    {
      NoEntries(s.initial, s.inits[i].name);
    }
  }

  lemma OtherPairKeeps(s: Setup, i: nat, j: nat, b: nat, node: Node, es: seq<Entry>, net: set<Msg>, out: seq<Msg>)
    requires Proper(s) && i < |s.inits| && j < |s.inits| && i != j && PairInv(s, j, b, node, es, net)
    requires forall m :: m in out ==> OfPair(s, i, m)
    ensures PairInv(s, j, b, node, es, net + Sent(out))
  {
    hide Proper, InitiatorShape, MemberShape;
    assert OfPair(s, j, ConnectOf(s, j)) && OfPair(s, j, ConnectROf(s, j)) && OfPair(s, j, StartOf(s, j))
           && OfPair(s, j, StartROf(s, j)) && OfPair(s, j, StopOf(s, j)) && OfPair(s, j, StopROf(s, j));
    hide OfPair, ConnectOf, ConnectROf, StartOf, StartROf, StopOf, StopROf;
    forall m | m in out && OfPair(s, j, m)
      ensures false
    {
      PairsAreApart(s, i, j, m);
    }
  }

  // A step of pair i: its own invariant is re-established, and what it leaves alone is left alone.
  lemma Rebuild(s: Setup, w: World, w': World, i: nat, out: seq<Msg>)
    requires Proper(s) && Inv(s, w) && i < |s.inits| && |w'.nodes| == |s.inits| == |w'.begins|
    requires forall e :: e in w'.member.table ==> Unmistaken(s, e.remote)
    requires forall j :: 0 <= j < |s.inits| && j != i ==> w'.nodes[j] == w.nodes[j] && w'.begins[j] == w.begins[j]
    requires forall r' :: r' != s.inits[i].name ==> EntriesOf(w'.member.table, r') == EntriesOf(w.member.table, r')
    requires forall m :: m in out ==> OfPair(s, i, m)
    requires w'.net == w.net + Sent(out)
    requires PairHolds(s, w', i)
    ensures Inv(s, w')
  {
    hide PairInv, OfPair, EntriesOf, HasMgmt, Underscores;
    forall j | 0 <= j < |s.inits|
      ensures PairHolds(s, w', j)
    {
      if j != i {
        assert PairHolds(s, w, j);
        OtherPairKeeps(s, i, j, w.begins[j], w.nodes[j], EntriesOf(w.member.table, s.inits[j].name), w.net, out);
        assert s.inits[j].name != s.inits[i].name;
      }
    }
  }

  function Peers(s: Setup): set<Apni> {
    set i | 0 <= i < |s.inits| :: s.inits[i].name
  }

  lemma TableIsLegit(s: Setup, table: seq<Entry>)
    requires Proper(s) && forall e :: e in table ==> Unmistaken(s, e.remote)
    ensures Legit(s.cfg.level, table, Peers(s))
  {
    hide HasMgmt, Underscores;
    forall e, r | e in table && r in Peers(s) && e.remote.apn == r.apn
      ensures e.remote == r
    {
      var i :| 0 <= i < |s.inits| && s.inits[i].name == r;
      assert Unmistaken(s, e.remote);
    }
  }

  // Looking a peer up finds its first entry; rewriting that entry changes nobody else's share.
  lemma FirstEntry(s: Setup, table: seq<Entry>, i: nat, e: Entry)
    requires Proper(s) && i < |s.inits| && e.remote == s.inits[i].name
    requires forall x :: x in table ==> Unmistaken(s, x.remote)
    requires EntriesOf(table, s.inits[i].name) != []
    ensures var r := s.inits[i].name; var k := FindPeer(s.cfg.level, table, r);
      && k == FindApn(s.cfg.level, table, r.apn) && k.Some?
      && table[k.value] == EntriesOf(table, r)[0]
      && EntriesOf(table[k.value := e], r) == EntriesOf(table, r)[0 := e]
      && (forall r' :: r' != r ==> EntriesOf(table[k.value := e], r') == EntriesOf(table, r'))
      && (forall x :: x in table[k.value := e] ==> Unmistaken(s, x.remote))
  {
    hide HasMgmt, Underscores, EntriesOf;
    var r := s.inits[i].name;
    TableIsLegit(s, table);
    LookupsAgree(s.cfg.level, table, Peers(s), r);
    var k := FindApni(table, r).value;
    EntriesOfFirst(table, r, k, e);
    assert Unmistaken(s, r);
  }

  // A new entry for peer i joins the end of that peer's share.
  lemma EnterPeer(s: Setup, table: seq<Entry>, i: nat, e: Entry)
    requires Proper(s) && i < |s.inits| && e == Fresh(s.member, s.inits[i].name, ConConnectPending)
    requires forall x :: x in table ==> Unmistaken(s, x.remote)
    ensures var r := s.inits[i].name; var table' := Insert(s.cfg.level, table, e);
      && EntriesOf(table', r) == Entered(s, i, EntriesOf(table, r))
      && (forall r' :: r' != r ==> EntriesOf(table', r') == EntriesOf(table, r'))
      && (forall x :: x in table' ==> Unmistaken(s, x.remote))
      && (FindPeer(s.cfg.level, table, r).None? <==> EntriesOf(table, r) == [])
  {
    hide HasMgmt, Underscores, EntriesOf;
    var r := s.inits[i].name;
    TableIsLegit(s, table);
    LookupsAgree(s.cfg.level, table, Peers(s), r);
    forall r'
      ensures EntriesOf(table + [e], r') == EntriesOf(table, r') + if r == r' then [e] else []
    {
      EntriesOfAppend(table, e, r');
    }
    assert Unmistaken(s, r);
  }

  // ---------- The member's turn, seen from one peer's share of its table ----------

  ghost predicate Turned(s: Setup, node: Node, i: nat, d: Outcome, es: seq<Entry>, out: seq<Msg>)
    requires i < |s.inits|
  {
    && d.Done? && d.out == out
    && EntriesOf(d.node.table, s.inits[i].name) == es
    && (forall r' :: r' != s.inits[i].name ==> EntriesOf(d.node.table, r') == EntriesOf(node.table, r'))
    && (forall e :: e in d.node.table ==> Unmistaken(s, e.remote))
  }

  lemma ConnectTurn(s: Setup, node: Node, i: nat, e: Entry)
    requires Proper(s) && i < |s.inits| && forall x :: x in node.table ==> Unmistaken(s, x.remote)
    requires e == Entered(s, i, EntriesOf(node.table, s.inits[i].name))[0] && e.remote == s.inits[i].name
    ensures var r := OnConnect(s.cfg, e, ConnectOf(s, i));
      Turned(s, node, i, Handle(s.cfg, node, ConnectOf(s, i)),
             Entered(s, i, EntriesOf(node.table, s.inits[i].name))[0 := r.0], r.1)
  {
    hide HasMgmt, Underscores, EntriesOf, Authentic, Insert, FindPeer, FindApn, FindApni;
    var entry := Fresh(s.member, s.inits[i].name, ConConnectPending);
    EnterPeer(s, node.table, i, entry);
    var table := Insert(s.cfg.level, node.table, entry);
    FirstEntry(s, table, i, OnConnect(s.cfg, e, ConnectOf(s, i)).0);
  }

  lemma StartTurn(s: Setup, node: Node, i: nat, es: seq<Entry>)
    requires Proper(s) && i < |s.inits| && forall x :: x in node.table ==> Unmistaken(s, x.remote)
    requires es == EntriesOf(node.table, s.inits[i].name) && es != [] && es[0].remote == s.inits[i].name
    ensures var r := OnStart(s.cfg, es[0], StartOf(s, i));
      Turned(s, node, i, Handle(s.cfg, node, StartOf(s, i)), es[0 := r.0], r.1)
  {
    hide HasMgmt, Underscores, EntriesOf, Authentic, FindPeer, FindApn, FindApni;
    FirstEntry(s, node.table, i, OnStart(s.cfg, es[0], StartOf(s, i)).0);
  }

  lemma StopRTurn(s: Setup, node: Node, i: nat, es: seq<Entry>)
    requires Proper(s) && i < |s.inits| && forall x :: x in node.table ==> Unmistaken(s, x.remote)
    requires es == EntriesOf(node.table, s.inits[i].name) && es != [] && es[0].remote == s.inits[i].name
    requires es[0].immediate == Some(true)
    ensures Turned(s, node, i, Handle(s.cfg, node, StopROf(s, i)),
                   if es[0].enroll == WaitStopResponse then es[0 := es[0].(enroll := Enrolled)] else es, [])
  {
    hide HasMgmt, Underscores, EntriesOf, Authentic, FindPeer, FindApn, FindApni;
    FirstEntry(s, node.table, i, es[0].(enroll := Enrolled));
  }

  lemma AllocateTurn(s: Setup, node: Node, i: nat, addr: string)
    requires Proper(s) && i < |s.inits| && forall x :: x in node.table ==> Unmistaken(s, x.remote)
    ensures var es := EntriesOf(node.table, s.inits[i].name);
      var d := Accept(s.cfg, node, s.member, s.inits[i].name, addr);
      Turned(s, node, i, d, es, []) || (es == [] && Turned(s, node, i, d, Entered(s, i, es), []))
  {
    hide HasMgmt, Underscores, EntriesOf, Insert, FindApn, FindApni, Entered;
    EnterPeer(s, node.table, i, Fresh(s.member, s.inits[i].name, ConConnectPending));
    if EntriesOf(node.table, s.inits[i].name) != [] && s.cfg.level == Dif {
      EnteredOnce(s, i, EntriesOf(node.table, s.inits[i].name));
    }
  }

  // A peer that has an entry is not entered again: the IPC level refuses it and the application level
  // has looked it up.
  lemma EnteredOnce(s: Setup, i: nat, es: seq<Entry>)
    requires i < |s.inits| && es != [] && s.cfg.level == Dif
    ensures Entered(s, i, es) == es
  {
  }

  // ---------- Every step keeps the invariant and no handler faults ----------

  ghost predicate StepIsSafe(s: Setup, w: World, e: Event)
    requires Enabled(s, w, e)
  {
    && Act(s, w, e).Done?
    && forall w' :: Next(s, w, e, w') ==> Inv(s, w')
  }

  lemma AllocateKeeps(s: Setup, i: nat, b: nat, node: Node, net: set<Msg>)
    requires Proper(s) && i < |s.inits| && PairInv(s, i, b, node, [], net)
    ensures PairInv(s, i, b, node, Entered(s, i, []), net)
  {
    hide InitiatorShape, HasMgmt, Underscores;
  }

  lemma AllocateIsSafe(s: Setup, w: World, e: Event)
    requires Proper(s) && Inv(s, w) && Enabled(s, w, e) && e.Allocate?
    ensures StepIsSafe(s, w, e)
  {
    hide HasMgmt, Underscores, EntriesOf, OfPair, Authentic, PairInv, Accept, Entered;
    AllocateTurn(s, w.member, e.i, e.addr);
    assert PairHolds(s, w, e.i);
    if EntriesOf(w.member.table, s.inits[e.i].name) == [] {
      AllocateKeeps(s, e.i, w.begins[e.i], w.nodes[e.i], w.net);
    }
    forall w' | Next(s, w, e, w')
      ensures Inv(s, w')
    {
      assert w'.net == w.net;
      Rebuild(s, w, w', e.i, []);
    }
  }

  // An initiator's table after one more flow
  function Opened(s: Setup, node: Node, local: Apni): seq<Entry> {
    if s.cfg.level == Dif && node.table != [] then node.table
    else node.table + [Fresh(local, s.member, ConAuthenticating)]
  }

  lemma OpenedIs(s: Setup, i: nat, b: nat, node: Node, local: Apni)
    requires Proper(s) && i < |s.inits| && InitiatorShape(s, i, b, node)
    ensures Insert(s.cfg.level, node.table, Fresh(local, s.member, ConAuthenticating)) == Opened(s, node, local)
    ensures FindApni(Opened(s, node, local), s.member) == Some(0)
  {
    hide Underscores, HasMgmt, Authentic, FindApn, FindApni, Match;
    if node.table != [] {
      assert MatchesApn(s.cfg.level, node.table[0], s.member.apn);
    }
    assert Opened(s, node, local)[0].remote == s.member;
  }

  // Another flow sends the same request once more, from the entry already in use if there is one.
  lemma BeginSends(s: Setup, i: nat, b: nat, node: Node, local: Apni)
    requires Proper(s) && i < |s.inits| && InitiatorShape(s, i, b, node)
    requires b == 0 || s.cfg.level == Dif ==> local == s.inits[i].name
    ensures var node' := node.(table := Opened(s, node, local), connects := node.connects + 1);
      && StartCace(s.inits[i].cfg, node, local, s.member) == Done(node', [ConnectOf(s, i)])
      && InitiatorShape(s, i, b + 1, node')
  {
    hide Underscores, HasMgmt, Authentic, Insert, FindApni;
    OpenedIs(s, i, b, node, local);
  }

  lemma BeginKeeps(s: Setup, i: nat, b: nat, node: Node, es: seq<Entry>, net: set<Msg>, local: Apni)
    requires Proper(s) && i < |s.inits| && PairInv(s, i, b, node, es, net)
    requires b == 0 || s.cfg.level == Dif ==> local == s.inits[i].name
    ensures StartCace(s.inits[i].cfg, node, local, s.member)
         == Done(node.(table := Opened(s, node, local), connects := node.connects + 1), [ConnectOf(s, i)])
    ensures PairInv(s, i, b + 1, node.(table := Opened(s, node, local), connects := node.connects + 1),
                    es, net + Sent([ConnectOf(s, i)]))
  {
    hide Underscores, HasMgmt, Authentic, StartCace;
    BeginSends(s, i, b, node, local);
  }

  lemma BeginIsSafe(s: Setup, w: World, e: Event)
    requires Proper(s) && Inv(s, w) && Enabled(s, w, e) && e.Begin?
    ensures StepIsSafe(s, w, e)
  {
    hide HasMgmt, Underscores, EntriesOf, Authentic, PairInv, StartCace;
    var i := e.i;
    assert PairHolds(s, w, i);
    BeginKeeps(s, i, w.begins[i], w.nodes[i], EntriesOf(w.member.table, s.inits[i].name), w.net, e.local);
    assert OfPair(s, i, ConnectOf(s, i));
    forall w' | Next(s, w, e, w')
      ensures Inv(s, w')
    {
      Rebuild(s, w, w', i, [ConnectOf(s, i)]);
    }
  }

  // The member's share names the peer, whichever entry the handler works on.
  lemma HeadNames(s: Setup, i: nat, b: nat, node: Node, es: seq<Entry>, net: set<Msg>)
    requires i < |s.inits| && PairInv(s, i, b, node, es, net)
    ensures es != [] ==> es[0].remote == s.inits[i].name
    ensures Entered(s, i, es)[0].remote == s.inits[i].name
  {
    hide Causal, InitiatorShape;
  }

  lemma ConnectIsSafe(s: Setup, w: World, e: Event, i: nat)
    requires Proper(s) && Inv(s, w) && Enabled(s, w, e) && i < |s.inits| && e == ToMember(ConnectOf(s, i))
    ensures StepIsSafe(s, w, e)
  {
    hide HasMgmt, Underscores, EntriesOf, Authentic, PairInv, OnConnect, Handle;
    var es := EntriesOf(w.member.table, s.inits[i].name);
    assert PairHolds(s, w, i);
    ConnectKeeps(s, i, w.begins[i], w.nodes[i], es, w.net);
    HeadNames(s, i, w.begins[i], w.nodes[i], es, w.net);
    ConnectTurn(s, w.member, i, Entered(s, i, es)[0]);
    forall w' | Next(s, w, e, w')
      ensures Inv(s, w')
    {
      Rebuild(s, w, w', i, OnConnect(s.cfg, Entered(s, i, es)[0], ConnectOf(s, i)).1);
    }
  }

  lemma StartIsSafe(s: Setup, w: World, e: Event, i: nat)
    requires Proper(s) && Inv(s, w) && Enabled(s, w, e) && i < |s.inits| && e == ToMember(StartOf(s, i))
    ensures StepIsSafe(s, w, e)
  {
    hide HasMgmt, Underscores, EntriesOf, Authentic, PairInv, OnStart, Handle;
    var es := EntriesOf(w.member.table, s.inits[i].name);
    assert PairHolds(s, w, i);
    StartKeeps(s, i, w.begins[i], w.nodes[i], es, w.net);
    HeadNames(s, i, w.begins[i], w.nodes[i], es, w.net);
    StartTurn(s, w.member, i, es);
    forall w' | Next(s, w, e, w')
      ensures Inv(s, w')
    {
      Rebuild(s, w, w', i, OnStart(s.cfg, es[0], StartOf(s, i)).1);
    }
  }

  lemma StopRIsSafe(s: Setup, w: World, e: Event, i: nat)
    requires Proper(s) && Inv(s, w) && Enabled(s, w, e) && i < |s.inits| && e == ToMember(StopROf(s, i))
    ensures StepIsSafe(s, w, e)
  {
    hide HasMgmt, Underscores, EntriesOf, Authentic, PairInv, Handle;
    var es := EntriesOf(w.member.table, s.inits[i].name);
    assert PairHolds(s, w, i);
    StopRKeeps(s, i, w.begins[i], w.nodes[i], es, w.net);
    HeadNames(s, i, w.begins[i], w.nodes[i], es, w.net);
    StopRTurn(s, w.member, i, es);
    forall w' | Next(s, w, e, w')
      ensures Inv(s, w')
    {
      assert w'.net == w.net;
      Rebuild(s, w, w', i, []);
    }
  }

  // Every lookup for the member finds the first entry of an initiator's table.
  lemma OnlyEntry(s: Setup, i: nat, b: nat, node: Node)
    requires Proper(s) && i < |s.inits| && InitiatorShape(s, i, b, node) && node.table != []
    ensures FindPeer(s.cfg.level, node.table, s.member) == Some(0) == FindApn(s.cfg.level, node.table, s.member.apn)
  {
    hide HasMgmt, Underscores;
    assert MatchesApn(s.cfg.level, node.table[0], s.member.apn);
  }

  // Only a rejection makes an initiator ask again, and then once.
  lemma ConnectsSent(cfg: Config, e: Entry, address: string)
    ensures var out := OnNegative(cfg, e).1; |out| == if |out| == 1 && out[0].Connect? then 1 else 0
    ensures forall m :: m in OnPositive(cfg, e, address).1 ==> !m.Connect?
  {
    hide Underscores;
  }

  lemma ConnectRIsSafe(s: Setup, w: World, e: Event, i: nat)
    requires Proper(s) && Inv(s, w) && Enabled(s, w, e) && i < |s.inits| && e == ToInitiator(i, ConnectROf(s, i))
    ensures StepIsSafe(s, w, e)
  {
    hide HasMgmt, Underscores, EntriesOf, Authentic, InitiatorShape, Causal, MemberShape, FindPeer, FindApn, OnPositive, OnNegative;
    var node := w.nodes[i];
    var es := EntriesOf(w.member.table, s.inits[i].name);
    assert PairHolds(s, w, i);
    if Match(s, i) {
      PositiveKeeps(s, i, w.begins[i], node, es, w.net);
    } else {
      NegativeKeeps(s, i, w.begins[i], node, es, w.net);
    }
    OnlyEntry(s, i, w.begins[i], node);
    var x := if Match(s, i) then OnPositive(s.inits[i].cfg, node.table[0], node.ipcAddress)
             else OnNegative(s.inits[i].cfg, node.table[0]);
    ConnectsSent(s.inits[i].cfg, node.table[0], node.ipcAddress);
    forall w' | Next(s, w, e, w')
      ensures Inv(s, w')
    {
      Rebuild(s, w, w', i, x.1);
    }
  }

  lemma StartRIsSafe(s: Setup, w: World, e: Event, i: nat)
    requires Proper(s) && Inv(s, w) && Enabled(s, w, e) && i < |s.inits| && e == ToInitiator(i, StartROf(s, i))
    ensures StepIsSafe(s, w, e)
  {
    hide HasMgmt, Underscores, EntriesOf, Authentic, InitiatorShape, Causal, MemberShape, FindPeer, FindApn, FindApni;
    var node := w.nodes[i];
    var es := EntriesOf(w.member.table, s.inits[i].name);
    assert PairHolds(s, w, i);
    AddressKept(s, i, w.begins[i], node, es, w.net);
    StartRKeeps(s, i, w.begins[i], node, es, w.net);
    OnlyEntry(s, i, w.begins[i], node);
    var x := node.table[0].(enroll := WaitStop);
    forall w' | Next(s, w, e, w')
      ensures Inv(s, w')
    {
      assert w'.net == w.net;
      if node.table[0].enroll == WaitStartResponse {
        Rebuild(s, w, w', i, []);
      } else {
        assert w'.nodes == w.nodes;
      }
    }
  }

  // The address an answer carries is the address the initiator already has.
  lemma AddressKept(s: Setup, i: nat, b: nat, node: Node, es: seq<Entry>, net: set<Msg>)
    requires Proper(s) && i < |s.inits| && PairInv(s, i, b, node, es, net)
    ensures node.ipcAddress == s.inits[i].address
    ensures s.cfg.level == Dif ==> node.(ipcAddress := StartROf(s, i).address) == node
  {
    hide HasMgmt, Underscores, Causal, MemberShape;
  }

  lemma StopIsSafe(s: Setup, w: World, e: Event, i: nat)
    requires Proper(s) && Inv(s, w) && Enabled(s, w, e) && i < |s.inits| && e == ToInitiator(i, StopOf(s, i))
    ensures StepIsSafe(s, w, e)
  {
    hide HasMgmt, Underscores, EntriesOf, Authentic, InitiatorShape, Causal, MemberShape, FindPeer, FindApn, FindApni, OnStop;
    var node := w.nodes[i];
    var es := EntriesOf(w.member.table, s.inits[i].name);
    assert PairHolds(s, w, i);
    StopKeeps(s, i, w.begins[i], node, es, w.net);
    OnlyEntry(s, i, w.begins[i], node);
    var x := OnStop(node.table[0], StopOf(s, i));
    assert x.1 != [] ==> x.1[0] in x.1;
    forall w' | Next(s, w, e, w')
      ensures Inv(s, w')
    {
      Rebuild(s, w, w', i, x.1);
    }
  }

  // A message travels to one side of the pair it belongs to.
  lemma Addressee(s: Setup, e: Event, i: nat)
    requires Proper(s) && i < |s.inits| && (e.ToMember? || e.ToInitiator?) && OfPair(s, i, e.m)
    requires e.ToMember? ==> e.m.to == s.member.apn
    requires e.ToInitiator? ==> e.i < |s.inits| && e.m.to == s.inits[e.i].name.apn
    ensures || e == ToMember(ConnectOf(s, i)) || e == ToMember(StartOf(s, i)) || e == ToMember(StopROf(s, i))
            || e == ToInitiator(i, ConnectROf(s, i)) || e == ToInitiator(i, StartROf(s, i)) || e == ToInitiator(i, StopOf(s, i))
  {
    hide HasMgmt, Underscores, Authentic;
  }

  lemma EveryStepIsSafe(s: Setup, w: World, e: Event)
    requires Proper(s) && Inv(s, w) && Enabled(s, w, e)
    ensures StepIsSafe(s, w, e)
  {
    if e.Allocate? {
      AllocateIsSafe(s, w, e);
    } else if e.Begin? {
      BeginIsSafe(s, w, e);
    } else {
      assert IsOurs(s, e.m);
      var i :| 0 <= i < |s.inits| && OfPair(s, i, e.m);
      hide Inv, StepIsSafe, OfPair, ConnectOf, ConnectROf, StartOf, StartROf, StopOf, StopROf;
      Addressee(s, e, i);
      if
      case e == ToMember(ConnectOf(s, i)) => ConnectIsSafe(s, w, e, i);
      case e == ToMember(StartOf(s, i)) => StartIsSafe(s, w, e, i);
      case e == ToMember(StopROf(s, i)) => StopRIsSafe(s, w, e, i);
      case e == ToInitiator(i, ConnectROf(s, i)) => ConnectRIsSafe(s, w, e, i);
      case e == ToInitiator(i, StartROf(s, i)) => StartRIsSafe(s, w, e, i);
      case e == ToInitiator(i, StopOf(s, i)) => StopIsSafe(s, w, e, i);
    }
  }

  lemma {:induction false} RunInv(s: Setup, ws: seq<World>, es: seq<Event>, n: nat)
    requires Proper(s) && Run(s, ws, es) && n < |ws|
    ensures Inv(s, ws[n])
  {
    hide Inv, Next, Initial, Proper, Enabled, Act;
    if n == 0 {
      InitialInv(s, ws[0]);
    } else {
      RunInv(s, ws, es, n - 1);
      assert Next(s, ws[n - 1], es[n - 1], ws[n]);
      StepFromTo(s, ws[n - 1], es[n - 1], ws[n]);
    }
  }

  lemma StepFromTo(s: Setup, w: World, e: Event, w': World)
    requires Proper(s) && Inv(s, w) && Next(s, w, e, w')
    ensures Inv(s, w')
  {
    EveryStepIsSafe(s, w, e);
    hide Inv, Act, Enabled;
  }

  // ---------- What every reachable world promises ----------

  // The two sides agree: an enrolled initiator has a member that is at least waiting for its last
  // answer, an enrolled member has an enrolled initiator, and neither happens unless both sides are
  // connected and the credentials match. Entries made by duplicates stay as they were made.
  ghost predicate Agree(s: Setup, i: nat, mine: seq<Entry>, theirs: seq<Entry>)
    requires i < |s.inits|
  {
    && (mine != [] && mine[0].enroll == Enrolled ==> theirs != [] && theirs[0].enroll in {WaitStopResponse, Enrolled})
    && (theirs != [] && theirs[0].enroll == Enrolled ==> mine != [] && mine[0].enroll == Enrolled)
    && ((mine != [] && mine[0].enroll == Enrolled) || (theirs != [] && theirs[0].enroll == Enrolled) ==>
          mine[0].con == ConEstablished && theirs[0].con == ConEstablished && Match(s, i))
    && (s.cfg.level == Dif ==> |mine| <= 1 && |theirs| <= 1)
    && (forall k :: 1 <= k < |mine| ==> mine[k] == Fresh(mine[k].local, s.member, ConAuthenticating))
    && (forall k :: 1 <= k < |theirs| ==> theirs[k] == Fresh(s.member, s.inits[i].name, ConConnectPending))
  }

  lemma PairAgrees(s: Setup, i: nat, b: nat, node: Node, es: seq<Entry>, net: set<Msg>)
    requires i < |s.inits| && PairInv(s, i, b, node, es, net)
    ensures Agree(s, i, node.table, es)
  {
    hide Underscores, HasMgmt, Authentic;
  }

  lemma Agreement(s: Setup, ws: seq<World>, es: seq<Event>, n: nat, i: nat)
    requires Proper(s) && Run(s, ws, es) && n < |ws| && i < |s.inits|
    ensures |ws[n].nodes| == |s.inits|
    ensures Agree(s, i, ws[n].nodes[i].table, EntriesOf(ws[n].member.table, s.inits[i].name))
  {
    RunInv(s, ws, es, n);
    hide Run, Proper, EntriesOf, PairInv, Agree;
    InvHolds(s, ws[n], i);
    PairAgrees(s, i, ws[n].begins[i], ws[n].nodes[i], EntriesOf(ws[n].member.table, s.inits[i].name), ws[n].net);
  }

  // Whatever may happen next happens without a null entry or an unwritten flag being read.
  lemma NoHandlerFaults(s: Setup, ws: seq<World>, es: seq<Event>, n: nat, e: Event)
    requires Proper(s) && Run(s, ws, es) && n < |ws| && Enabled(s, ws[n], e)
    ensures Act(s, ws[n], e).Done?
  {
    RunInv(s, ws, es, n);
    EveryStepIsSafe(s, ws[n], e);
    hide Inv, Act;
  }

  ghost predicate FlagWritten(e: Entry) {
    && e.enroll != WaitStartOperation
    && (e.enroll in {WaitStopResponse, Enrolled} ==> e.immediate == Some(true))
  }

  lemma PairFlags(s: Setup, i: nat, b: nat, node: Node, es: seq<Entry>, net: set<Msg>)
    requires i < |s.inits| && PairInv(s, i, b, node, es, net)
    ensures forall e :: e in node.table || e in es ==> FlagWritten(e)
  {
    hide Underscores, HasMgmt, Authentic, Causal;
    forall k | 0 <= k < |es|
      ensures FlagWritten(es[k])
    {
      assert k > 0 ==> es[k] == Fresh(s.member, s.inits[i].name, ConConnectPending);
    }
  }

  // Nobody is left waiting for a start of operation, and who waits for M_STOP_R has its flag set; entries
  // for anybody but the initiators stay as they were.
  lemma NobodyWaitsForOperation(s: Setup, ws: seq<World>, es: seq<Event>, n: nat, e: Entry)
    requires Proper(s) && Run(s, ws, es) && n < |ws|
    requires e in ws[n].member.table || exists i :: 0 <= i < |ws[n].nodes| && e in ws[n].nodes[i].table
    ensures FlagWritten(e) || (e in s.initial && Stranger(s, e.remote))
  {
    RunInv(s, ws, es, n);
    hide Run, Proper, PairInv, FlagWritten, EntriesOf;
    EntriesOfMatch(ws[n].member.table, e.remote);
    EntriesOfMatch(s.initial, e.remote);
    if e !in ws[n].member.table || !Stranger(s, e.remote) {
      var i: nat;
      if e in ws[n].member.table {
        i :| 0 <= i < |s.inits| && s.inits[i].name == e.remote;
      } else {
        i :| 0 <= i < |ws[n].nodes| && e in ws[n].nodes[i].table;
      }
      assert PairHolds(s, ws[n], i);
      PairFlags(s, i, ws[n].begins[i], ws[n].nodes[i], EntriesOf(ws[n].member.table, s.inits[i].name), ws[n].net);
    }
  }

  // What the member knows of anybody but the initiators never changes.
  lemma StrangersStay(s: Setup, ws: seq<World>, es: seq<Event>, n: nat, r: Apni)
    requires Proper(s) && Run(s, ws, es) && n < |ws| && Stranger(s, r)
    ensures EntriesOf(ws[n].member.table, r) == EntriesOf(ws[0].member.table, r)
  {
    RunInv(s, ws, es, n);
    hide Proper, EntriesOf, PairHolds;
  }

  // However often a rejection is repeated, an initiator asks once per flow and once per retry, and
  // retries within its limit; so one more M_CONNECT than the retries is sent exactly when one flow has
  // come up.
  lemma RetriesAreBounded(s: Setup, ws: seq<World>, es: seq<Event>, n: nat, i: nat)
    requires Proper(s) && Run(s, ws, es) && n < |ws| && i < |s.inits|
    ensures |ws[n].nodes| == |s.inits| == |ws[n].begins|
    ensures var node := ws[n].nodes[i]; var begins := ws[n].begins[i];
      if begins == 0 then node.table == [] && node.connects == 0
      else
        && node.table != [] && 0 <= node.table[0].retries
        && node.table[0].retries <= (if s.inits[i].cfg.maxConRetries < 0 then 0 else s.inits[i].cfg.maxConRetries)
        && node.connects == begins + node.table[0].retries
        && (node.connects == 1 + node.table[0].retries <==> begins == 1)
  {
    RunInv(s, ws, es, n);
    assert PairHolds(s, ws[n], i);
    hide Underscores, HasMgmt, Authentic, EntriesOf, Causal, MemberShape;
  }

  // A second flow before any answer: a second M_CONNECT with no retry, and at the application level a
  // second entry.
  lemma SecondFlowAsksAgain(s: Setup, ws: seq<World>, es: seq<Event>, i: nat, local: Apni)
    requires Proper(s) && i < |s.inits| && Run(s, ws, es)
    requires es == [Begin(i, s.inits[i].name), Begin(i, local)]
    ensures |ws| == 3 && |ws[2].nodes| == |s.inits|
    ensures var node := ws[2].nodes[i];
      && node.connects == 2 && node.table != [] && node.table[0].retries == 0
      && |node.table| == if s.cfg.level == Daf then 2 else 1
  {
    assert Next(s, ws[0], es[0], ws[1]) && Next(s, ws[1], es[1], ws[2]);
    RunInv(s, ws, es, 0);
    RunInv(s, ws, es, 1);
    hide Underscores, HasMgmt, Authentic, EntriesOf, Inv, StartCace, Run;
    assert PairHolds(s, ws[0], i) by { InvHolds(s, ws[0], i); }
    assert PairHolds(s, ws[1], i) by { InvHolds(s, ws[1], i); }
    hide PairInv;
    BeginKeeps(s, i, ws[0].begins[i], ws[0].nodes[i], EntriesOf(ws[0].member.table, s.inits[i].name), ws[0].net, s.inits[i].name);
    BeginKeeps(s, i, ws[1].begins[i], ws[1].nodes[i], EntriesOf(ws[1].member.table, s.inits[i].name), ws[1].net, local);
  }

  lemma InvHolds(s: Setup, w: World, i: nat)
    requires Inv(s, w) && i < |s.inits|
    ensures |w.nodes| == |s.inits| == |w.begins| && PairHolds(s, w, i)
  {
    hide PairHolds;
  }

  // At the IPC level every M_START and M_START_R in flight carries the initiator's own address, so
  // that accepting the answer changes nothing.
  lemma AddressesAreEchoed(s: Setup, ws: seq<World>, es: seq<Event>, n: nat, m: Msg)
    requires Proper(s) && Run(s, ws, es) && n < |ws| && s.cfg.level == Dif
    ensures |ws[n].nodes| == |s.inits|
    ensures forall i :: 0 <= i < |s.inits| ==> ws[n].nodes[i].ipcAddress == s.inits[i].address
    ensures m in ws[n].net && (m.Start? || m.StartR?) ==>
      exists i :: 0 <= i < |s.inits| && m.address == s.inits[i].address
               && s.inits[i].name.apn == if m.Start? then m.srcAddr else m.to
  {
    RunInv(s, ws, es, n);
    hide Underscores, HasMgmt, Authentic, EntriesOf, Causal, MemberShape, Run, Proper;
    forall i | 0 <= i < |s.inits|
      ensures ws[n].nodes[i].ipcAddress == s.inits[i].address
    {
      assert PairHolds(s, ws[n], i);
    }
    if m in ws[n].net && (m.Start? || m.StartR?) {
      assert IsOurs(s, m);
      var i :| 0 <= i < |s.inits| && OfPair(s, i, m);
      assert m.address == s.inits[i].address;
    }
  }

  // Enrollment is final: an entry that is ENROLLED is the same entry in every later world.
  lemma StepKeepsEnrolled(s: Setup, w: World, e: Event, w': World, k: nat)
    requires Next(s, w, e, w')
    ensures k < |w.member.table| && IsEnrolled(w.member.table[k]) ==>
      k < |w'.member.table| && w'.member.table[k] == w.member.table[k]
    ensures forall i :: 0 <= i < |w.nodes| && |w.nodes[i].table| > 0 && IsEnrolled(w.nodes[i].table[0]) ==>
      i < |w'.nodes| && |w'.nodes[i].table| > 0 && w'.nodes[i].table[0] == w.nodes[i].table[0]
  {
    hide HasMgmt, Underscores, Authentic, FindPeer, FindApn, FindApni, Handle;
    match e
    case Allocate(_, _) =>
    case Begin(i, local) =>
    case ToMember(m) =>
      if k < |w.member.table| && IsEnrolled(w.member.table[k]) {
        EnrolledIsFinal(s.cfg, w.member, m, k);
      }
    case ToInitiator(i, m) =>
      if |w.nodes[i].table| > 0 && IsEnrolled(w.nodes[i].table[0]) {
        EnrolledIsFinal(s.inits[i].cfg, w.nodes[i], m, 0);
      }
  }

  lemma {:induction false} EnrolledForGood(s: Setup, ws: seq<World>, es: seq<Event>, n: nat, n': nat, k: nat)
    requires Run(s, ws, es) && n <= n' < |ws|
    ensures k < |ws[n].member.table| && IsEnrolled(ws[n].member.table[k]) ==>
      k < |ws[n'].member.table| && ws[n'].member.table[k] == ws[n].member.table[k]
    ensures forall i :: 0 <= i < |ws[n].nodes| && |ws[n].nodes[i].table| > 0 && IsEnrolled(ws[n].nodes[i].table[0]) ==>
      i < |ws[n'].nodes| && |ws[n'].nodes[i].table| > 0 && ws[n'].nodes[i].table[0] == ws[n].nodes[i].table[0]
    decreases n' - n
  {
    hide Next, Initial, Proper;
    if n < n' {
      EnrolledForGood(s, ws, es, n, n' - 1, k);
      StepKeepsEnrolled(s, ws[n' - 1], es[n' - 1], ws[n'], k);
    }
  }
}
