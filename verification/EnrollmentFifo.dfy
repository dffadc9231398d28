/**
 The same nodes over loss-free FIFO channels, one up and one down per initiator. Flows may come up and
 be accepted at any time and any number of times; every other step uses up one unit of an explicit
 measure. So a run ends after a number of steps that credentials, retry limits and the number of flows
 decide, and in an outcome that the credentials alone decide.
 */
module EnrollmentFifo {
  import opened EnrollmentModel
  import opened EnrollmentRuns
  import opened Wrappers

  // `begins` counts the flows of each initiator and `accepts` those the member accepted.
  datatype Line = Line(member: Node, nodes: seq<Node>, up: seq<seq<Msg>>, down: seq<seq<Msg>>,
                       begins: seq<nat>, accepts: nat)

  datatype Tick = Accepts(i: nat, addr: string) | Starts(i: nat, local: Apni) | Up(i: nat) | Down(i: nat)

  ghost predicate Begins(s: Setup, w: Line) {
    && w.member.table == s.initial && w.accepts == 0
    && |w.nodes| == |w.up| == |w.down| == |w.begins| == |s.inits|
    && forall i :: 0 <= i < |s.inits| ==>
         w.nodes[i] == Node([], s.inits[i].address, 0) && w.up[i] == [] && w.down[i] == [] && w.begins[i] == 0
  }

  // The messages that are routed to one process
  function Routed(out: seq<Msg>, apn: string): seq<Msg> {
    if out == [] then []
    else Routed(out[..|out| - 1], apn) + if out[|out| - 1].to == apn then [out[|out| - 1]] else []
  }

  ghost predicate Shaped(s: Setup, w: Line) {
    |w.nodes| == |w.up| == |w.down| == |w.begins| == |s.inits|
  }

  ghost predicate Ready(s: Setup, w: Line, t: Tick) {
    && Shaped(s, w)
    && t.i < |s.inits|
    && match t
       case Accepts(_, _) => true
       case Starts(i, local) => w.begins[i] == 0 || s.cfg.level == Dif ==> local == s.inits[i].name
       case Up(i) => w.up[i] != []
       case Down(i) => w.down[i] != []
  }

  ghost function Does(s: Setup, w: Line, t: Tick): Outcome
    requires Ready(s, w, t)
  {
    match t
    case Accepts(i, addr) => Accept(s.cfg, w.member, s.member, s.inits[i].name, addr)
    case Starts(i, local) => StartCace(s.inits[i].cfg, w.nodes[i], local, s.member)
    case Up(i) => Handle(s.cfg, w.member, w.up[i][0])
    case Down(i) => Handle(s.inits[i].cfg, w.nodes[i], w.down[i][0])
  }

  // A message handled leaves its channel; the messages sent join the channels they are routed to.
  ghost predicate Follows(s: Setup, w: Line, t: Tick, w': Line) {
    && Ready(s, w, t)
    && Shaped(s, w')
    && Does(s, w, t).Done?
    && w'.begins == (if t.Starts? then w.begins[t.i := w.begins[t.i] + 1] else w.begins)
    && w'.accepts == w.accepts + (if t.Accepts? then 1 else 0)
    && var d := Does(s, w, t);
       if t.Up? || t.Accepts? then
         && w'.member == d.node && w'.nodes == w.nodes
         && w'.up == (if t.Up? then w.up[t.i := w.up[t.i][1..]] else w.up)
         && forall j :: 0 <= j < |s.inits| ==> w'.down[j] == w.down[j] + Routed(d.out, s.inits[j].name.apn)
       else
         && w'.member == w.member && w'.nodes == w.nodes[t.i := d.node]
         && w'.up == w.up[t.i := w.up[t.i] + Routed(d.out, s.member.apn)]
         && w'.down == if t.Down? then w.down[t.i := w.down[t.i][1..]] else w.down
  }

  ghost predicate FifoRun(s: Setup, ws: seq<Line>, ts: seq<Tick>) {
    && |ws| == |ts| + 1
    && Begins(s, ws[0])
    && forall n :: 0 <= n < |ts| ==> Follows(s, ws[n], ts[n], ws[n + 1])
  }

  // ---------- Channels that hold copies of one message, and at most one other ----------

  ghost predicate Only(q: seq<Msg>, m: Msg) {
    forall k :: 0 <= k < |q| ==> q[k] == m
  }

  ghost predicate OneAmong(q: seq<Msg>, x: Msg, m: Msg) {
    x != m && exists k :: 0 <= k < |q| && q[k] == x && forall j :: 0 <= j < |q| && j != k ==> q[j] == m
  }

  lemma OnlyNext(q: seq<Msg>, m: Msg)
    requires Only(q, m)
    ensures Only(q + [m], m) && (q != [] ==> q[0] == m && Only(q[1..], m))
    ensures forall x :: x != m ==> OneAmong(q + [x], x, m)
  {
    forall x | x != m
      ensures OneAmong(q + [x], x, m)
    {
      assert (q + [x])[|q|] == x;
    }
  }

  lemma OneAmongNext(q: seq<Msg>, x: Msg, m: Msg)
    requires OneAmong(q, x, m)
    ensures q != [] && OneAmong(q + [m], x, m)
    ensures if q[0] == x then Only(q[1..], m) else q[0] == m && OneAmong(q[1..], x, m)
  {
    var k :| 0 <= k < |q| && q[k] == x && forall j :: 0 <= j < |q| && j != k ==> q[j] == m;
    assert (q + [m])[k] == x;
    if k > 0 {
      assert q[1..][k - 1] == x;
    }
  }

  // ---------- One pair, phase by phase ----------

  datatype Pair = Pair(node: Node, begins: nat, es: seq<Entry>, up: seq<Msg>, down: seq<Msg>)

  datatype Phase = Idle | Refusing | Requested | Answered | Starting | Granted | Halting | Confirming | Finished

  predicate Rejected(e: Entry, times: nat) { Listening(e) && e.retries == times }

  // The member has handled this many requests: at the application level each left an entry, beside one
  // for a flow that was accepted before.
  ghost predicate Asked(s: Setup, i: nat, es: seq<Entry>, handled: int)
    requires i < |s.inits|
  {
    && MemberShape(s, i, es)
    && (if s.cfg.level == Dif then (handled > 0 ==> es != []) else handled <= |es| <= handled + 1)
    && 0 <= handled
    && (es != [] && handled == 0 ==> es == [Fresh(s.member, s.inits[i].name, ConConnectPending)])
  }

  // Where a pair with matching credentials has got to
  ghost predicate Matching(s: Setup, i: nat, p: Pair, phase: Phase)
    requires i < |s.inits| && p.node.table != []
  {
    var e := p.node.table[0];
    && e.retries == 0
    && match phase
       case Requested =>
         && Asking(e) && p.up != [] && Only(p.up, ConnectOf(s, i)) && p.down == []
         && |p.up| == p.node.connects && Asked(s, i, p.es, 0)
       case Answered =>
         && Asking(e) && Only(p.up, ConnectOf(s, i)) && p.down == [ConnectROf(s, i)]
         && Asked(s, i, p.es, p.node.connects - |p.up|) && p.es != [] && Admitted(p.es[0])
       case Starting =>
         && Joining(e) && OneAmong(p.up, StartOf(s, i), ConnectOf(s, i)) && p.down == []
         && Asked(s, i, p.es, p.node.connects - (|p.up| - 1)) && p.es != [] && Admitted(p.es[0])
       case Granted =>
         && Joining(e) && Only(p.up, ConnectOf(s, i)) && p.down == [StartROf(s, i), StopOf(s, i)]
         && Asked(s, i, p.es, p.node.connects - |p.up|) && p.es != [] && Ending(p.es[0])
       case Halting =>
         && Stopping(e) && Only(p.up, ConnectOf(s, i)) && p.down == [StopOf(s, i)]
         && Asked(s, i, p.es, p.node.connects - |p.up|) && p.es != [] && Ending(p.es[0])
       case Confirming =>
         && Joined(e) && OneAmong(p.up, StopROf(s, i), ConnectOf(s, i)) && p.down == []
         && Asked(s, i, p.es, p.node.connects - (|p.up| - 1)) && p.es != [] && Ending(p.es[0])
       case Finished =>
         && Joined(e) && Only(p.up, ConnectOf(s, i)) && p.down == []
         && Asked(s, i, p.es, p.node.connects - |p.up|) && p.es != [] && Joined(p.es[0])
       case _ => false
  }

  // Without matching credentials every request is rejected; an initiator that is still asking has
  // retried once for each rejection it received.
  ghost predicate Mismatching(s: Setup, i: nat, p: Pair)
    requires i < |s.inits| && p.node.table != []
  {
    var e := p.node.table[0];
    var handled := p.node.connects - |p.up|;
    && Only(p.up, ConnectOf(s, i)) && Only(p.down, ConnectROf(s, i))
    && Asked(s, i, p.es, handled) && (p.es != [] ==> Rejected(p.es[0], handled))
    && (if Refused(e) then handled - |p.down| > e.retries else Asking(e) && handled - |p.down| == e.retries)
  }

  ghost predicate At(s: Setup, i: nat, p: Pair, phase: Phase)
    requires i < |s.inits|
  {
    && InitiatorShape(s, i, p.begins, p.node) && (p.begins > 0 ==> p.node.table != [])
    && if p.begins == 0 then
         phase == Idle && Asked(s, i, p.es, 0) && p.up == [] && p.down == []
       else if Match(s, i) then
         Matching(s, i, p, phase)
       else
         phase == Refusing && Mismatching(s, i, p)
  }

  // The messages still to be handled, and those that handling them will cause
  ghost function Left(s: Setup, i: nat, p: Pair, phase: Phase): int
    requires i < |s.inits|
  {
    match phase
    case Idle => 0
    case Refusing => 2 * |p.up| + |p.down| + 2 * (Budget(s.inits[i].cfg) - Retries(p))
    case Requested => |p.up| + 5
    case Answered => |p.up| + 5
    case Starting => |p.up| + 3
    case Granted => |p.up| + 3
    case Halting => |p.up| + 2
    case Confirming => |p.up|
    case Finished => |p.up|
  }

  function Retries(p: Pair): int {
    if p.node.table == [] then 0 else p.node.table[0].retries
  }

  // With matching credentials one request is answered and enrollment takes five messages; the others
  // only arrive. Without, each request is sent and rejected, first those of the flows and then all the
  // retries.
  function StepsOf(s: Setup, i: nat, begins: nat): nat
    requires i < |s.inits|
  {
    if begins == 0 then 0
    else if Match(s, i) then 2 * begins + 5
    else begins + 2 * (begins + Budget(s.inits[i].cfg))
  }

  ghost predicate HasLeft(s: Setup, i: nat, p: Pair, n: int)
    requires i < |s.inits|
  {
    exists phase :: At(s, i, p, phase) && n == Left(s, i, p, phase)
  }

  // Nothing is left exactly when both channels are empty.
  lemma QuietIff(s: Setup, i: nat, p: Pair, n: int)
    requires i < |s.inits| && HasLeft(s, i, p, n)
    ensures n >= 0 && (n == 0 <==> p.up == [] && p.down == [])
  {
    hide Asked, Authentic, Only;
    var phase :| At(s, i, p, phase) && n == Left(s, i, p, phase);
  }

  // ---------- The steps of one pair ----------

  // Another flow: one more request in the channel
  ghost function StartedPair(s: Setup, i: nat, p: Pair, local: Apni): Pair
    requires i < |s.inits|
  {
    p.(begins := p.begins + 1, node := p.node.(table := Opened(s, p.node, local), connects := p.node.connects + 1),
       up := p.up + [ConnectOf(s, i)])
  }

  lemma StartsStep(s: Setup, i: nat, p: Pair, phase: Phase, local: Apni)
    requires Proper(s) && i < |s.inits| && At(s, i, p, phase)
    requires p.begins == 0 || s.cfg.level == Dif ==> local == s.inits[i].name
    ensures StartCace(s.inits[i].cfg, p.node, local, s.member)
         == Done(StartedPair(s, i, p, local).node, [ConnectOf(s, i)])
    ensures HasLeft(s, i, StartedPair(s, i, p, local),
                    Left(s, i, p, phase) + StepsOf(s, i, p.begins + 1) - StepsOf(s, i, p.begins) - 1)
  {
    hide Authentic, Proper, StartCace, InitiatorShape, Asked, Only, OneAmong, Insert, Match, Opened;
    BeginSends(s, i, p.begins, p.node, local);
    var p' := StartedPair(s, i, p, local);
    StartedTable(s, i, p.begins, p.node, local);
    if p.begins > 0 {
      StartedUp(s, i, p.up);
      assert At(s, i, p', phase);
    } else {
      assert p'.up == [ConnectOf(s, i)];
      OneRequest(ConnectOf(s, i));
      OneRequest(ConnectROf(s, i));
      FirstAsked(s, i, p.es);
      assert At(s, i, p', if Match(s, i) then Requested else Refusing);
    }
  }

  lemma StartedTable(s: Setup, i: nat, b: nat, node: Node, local: Apni)
    requires i < |s.inits| && InitiatorShape(s, i, b, node)
    ensures var table := Opened(s, node, local);
      && table != [] && (b > 0 ==> node.table != [] && table[0] == node.table[0])
      && (b == 0 ==> table == [Fresh(local, s.member, ConAuthenticating)] && node.connects == 0 && node.table == [])
  {
    hide Match;
  }

  lemma StartedUp(s: Setup, i: nat, up: seq<Msg>)
    requires i < |s.inits|
    ensures Only(up, ConnectOf(s, i)) ==> Only(up + [ConnectOf(s, i)], ConnectOf(s, i))
    ensures forall x :: OneAmong(up, x, ConnectOf(s, i)) ==> OneAmong(up + [ConnectOf(s, i)], x, ConnectOf(s, i))
  {
    hide OneAmong, Only;
    var m := ConnectOf(s, i);
    if Only(up, m) {
      OnlyNext(up, m);
    }
    forall x | OneAmong(up, x, m)
      ensures OneAmong(up + [m], x, m)
    {
      OneAmongNext(up, x, m);
    }
  }

  lemma OneRequest(m: Msg)
    ensures Only([m], m) && Only([], m)
  {
  }

  lemma FirstAsked(s: Setup, i: nat, es: seq<Entry>)
    requires i < |s.inits| && Asked(s, i, es, 0)
    ensures es != [] ==> Rejected(es[0], 0)
  {
  }

  // The member's answer to a request, from its share of the table
  ghost function RequestedPair(s: Setup, i: nat, p: Pair): Pair
    requires i < |s.inits| && p.up != []
  {
    var es := Entered(s, i, p.es);
    var r := OnConnect(s.cfg, es[0], ConnectOf(s, i));
    p.(es := es[0 := r.0], up := p.up[1..], down := p.down + r.1)
  }

  lemma EnteredIs(s: Setup, i: nat, es: seq<Entry>, handled: int)
    requires i < |s.inits| && Asked(s, i, es, handled)
    ensures Entered(s, i, es)[0].remote == s.inits[i].name
    ensures if es == [] then handled == 0 && Rejected(Entered(s, i, es)[0], 0) else Entered(s, i, es)[0] == es[0]
  {
    hide Authentic;
  }

  // Whatever the answer makes of the first entry, one more request has been handled.
  lemma AskedNext(s: Setup, i: nat, es: seq<Entry>, handled: int, e: Entry)
    requires i < |s.inits| && Asked(s, i, es, handled)
    requires e.local == s.member && e.remote == s.inits[i].name && e.retries >= 0
    requires Listening(e) || ((Admitted(e) || Ending(e) || Joined(e)) && Match(s, i))
    ensures Asked(s, i, Entered(s, i, es)[0 := e], handled + 1)
  {
    hide Authentic;
  }

  lemma AcceptedRequest(s: Setup, i: nat, p: Pair)
    requires Proper(s) && i < |s.inits| && At(s, i, p, Requested)
    ensures p.up != [] && p.up[0] == ConnectOf(s, i)
    ensures RequestedPair(s, i, p).down == p.down + [ConnectROf(s, i)]
    ensures OnConnect(s.cfg, Entered(s, i, p.es)[0], ConnectOf(s, i)).1 == [ConnectROf(s, i)]
    ensures At(s, i, RequestedPair(s, i, p), Answered)
  {
    hide Authentic, HasMgmt, Underscores, Asked, OneAmong, Only;
    EnteredIs(s, i, p.es, 0);
    OnlyNext(p.up, ConnectOf(s, i));
    EnteredNames(s, i, p.es, 0);
    var r := OnConnect(s.cfg, Entered(s, i, p.es)[0], ConnectOf(s, i));
    AskedNext(s, i, p.es, 0, r.0);
  }

  lemma EnteredNames(s: Setup, i: nat, es: seq<Entry>, handled: int)
    requires i < |s.inits| && Asked(s, i, es, handled)
    ensures var e := Entered(s, i, es)[0]; e.local == s.member && e.remote == s.inits[i].name && e.retries >= 0
    ensures handled == 0 ==> Listening(Entered(s, i, es)[0])
  {
    hide Authentic;
  }

  lemma RejectedRequest(s: Setup, i: nat, p: Pair)
    requires Proper(s) && i < |s.inits| && At(s, i, p, Refusing) && p.up != []
    ensures p.up[0] == ConnectOf(s, i)
    ensures OnConnect(s.cfg, Entered(s, i, p.es)[0], ConnectOf(s, i)).1 == [ConnectROf(s, i)]
    ensures At(s, i, RequestedPair(s, i, p), Refusing)
  {
    hide Authentic, HasMgmt, Underscores, Asked, OneAmong, Only, InitiatorShape;
    var handled := p.node.connects - |p.up|;
    EnteredIs(s, i, p.es, handled);
    EnteredNames(s, i, p.es, handled);
    OnlyNext(p.up, ConnectOf(s, i));
    OnlyNext(p.down, ConnectROf(s, i));
    var r := OnConnect(s.cfg, Entered(s, i, p.es)[0], ConnectOf(s, i));
    AskedNext(s, i, p.es, handled, r.0);
  }

  predicate Settled(phase: Phase) {
    phase == Answered || phase == Starting || phase == Granted || phase == Halting || phase == Confirming || phase == Finished
  }

  // Once admitted, a peer's requests are passed over.
  lemma PassedOver(s: Setup, i: nat, p: Pair, phase: Phase)
    requires i < |s.inits| && At(s, i, p, phase) && Settled(phase)
    ensures p.es != [] && Entered(s, i, p.es)[0] == p.es[0]
    ensures OnConnect(s.cfg, p.es[0], ConnectOf(s, i)) == (p.es[0], [])
    ensures (Admitted(p.es[0]) || Ending(p.es[0]) || Joined(p.es[0])) && Match(s, i)
  {
    hide Authentic, Underscores, Asked, OneAmong, Only, InitiatorShape;
  }

  lemma IgnoredUp(s: Setup, i: nat, p: Pair, phase: Phase)
    requires i < |s.inits| && At(s, i, p, phase) && Settled(phase) && p.up != [] && p.up[0] == ConnectOf(s, i)
    ensures if phase == Starting then OneAmong(p.up[1..], StartOf(s, i), ConnectOf(s, i))
            else if phase == Confirming then OneAmong(p.up[1..], StopROf(s, i), ConnectOf(s, i))
            else Only(p.up[1..], ConnectOf(s, i))
  {
    hide Authentic, Asked, OneAmong, Only, InitiatorShape;
    if phase == Starting {
      OneAmongNext(p.up, StartOf(s, i), ConnectOf(s, i));
    } else if phase == Confirming {
      OneAmongNext(p.up, StopROf(s, i), ConnectOf(s, i));
    } else {
      OnlyNext(p.up, ConnectOf(s, i));
    }
  }

  lemma IgnoredRequest(s: Setup, i: nat, p: Pair, phase: Phase)
    requires i < |s.inits| && At(s, i, p, phase) && Settled(phase)
    requires p.up != [] && p.up[0] == ConnectOf(s, i)
    ensures OnConnect(s.cfg, Entered(s, i, p.es)[0], ConnectOf(s, i)).1 == []
    ensures At(s, i, RequestedPair(s, i, p), phase)
  {
    hide Authentic, Asked, OneAmong, Only, InitiatorShape, OnConnect, Entered;
    var handled := p.node.connects - if phase == Starting || phase == Confirming then |p.up| - 1 else |p.up|;
    PassedOver(s, i, p, phase);
    AskedHead(s, i, p.es, handled);
    IgnoredUp(s, i, p, phase);
    AskedNext(s, i, p.es, handled, p.es[0]);
    hide Admitted, Ending, Joined, Joining, Stopping, Asking;
    assert p.down + [] == p.down;
    assert Entered(s, i, p.es)[0 := p.es[0]][0] == p.es[0];
  }

  // A request the member takes uses up one step.
  lemma RequestStep(s: Setup, i: nat, p: Pair, phase: Phase)
    requires Proper(s) && i < |s.inits| && At(s, i, p, phase) && p.up != [] && p.up[0] == ConnectOf(s, i)
    ensures Entered(s, i, p.es)[0].remote == s.inits[i].name
    ensures forall m :: m in OnConnect(s.cfg, Entered(s, i, p.es)[0], ConnectOf(s, i)).1 ==> m == ConnectROf(s, i)
    ensures HasLeft(s, i, RequestedPair(s, i, p), Left(s, i, p, phase) - 1)
  {
    RequestNames(s, i, p, phase);
    if phase == Requested {
      AcceptedRequest(s, i, p);
      hide At, OnConnect;
      assert At(s, i, RequestedPair(s, i, p), Answered);
    } else if phase == Refusing {
      RejectedRequest(s, i, p);
      hide At, OnConnect;
      assert At(s, i, RequestedPair(s, i, p), Refusing);
    } else {
      assert Settled(phase);
      IgnoredRequest(s, i, p, phase);
      hide At, OnConnect;
      assert At(s, i, RequestedPair(s, i, p), phase);
    }
  }

  lemma RequestNames(s: Setup, i: nat, p: Pair, phase: Phase)
    requires i < |s.inits| && At(s, i, p, phase) && p.up != []
    ensures Entered(s, i, p.es)[0].remote == s.inits[i].name
  {
    hide Authentic, OneAmong, Only, InitiatorShape;
  }

  // ---------- The other messages ----------

  lemma GrantStep(s: Setup, i: nat, p: Pair, phase: Phase)
    requires Proper(s) && i < |s.inits| && At(s, i, p, phase) && p.up != [] && p.up[0] == StartOf(s, i)
    ensures phase == Starting && p.es != [] && p.es[0].remote == s.inits[i].name
    ensures var r := OnStart(s.cfg, p.es[0], StartOf(s, i));
      && r.1 == [StartROf(s, i), StopOf(s, i)]
      && At(s, i, p.(es := p.es[0 := r.0], up := p.up[1..], down := p.down + r.1), Granted)
  {
    hide Authentic, HasMgmt, Underscores, Asked, OneAmong, Only, InitiatorShape;
    NotARequest(s, i, p, phase);
    OneAmongNext(p.up, StartOf(s, i), ConnectOf(s, i));
    var handled := p.node.connects - (|p.up| - 1);
    var r := OnStart(s.cfg, p.es[0], StartOf(s, i));
    AskedHead(s, i, p.es, handled);
    AskedSame(s, i, p.es, handled, r.0);
    assert p.down + r.1 == r.1;
  }

  // Only an initiator that has started sends anything but requests.
  lemma NotARequest(s: Setup, i: nat, p: Pair, phase: Phase)
    requires i < |s.inits| && At(s, i, p, phase) && p.up != []
    ensures p.up[0] == ConnectOf(s, i) || (phase == Starting && p.up[0] == StartOf(s, i))
            || (phase == Confirming && p.up[0] == StopROf(s, i))
  {
    hide Authentic, Asked, OneAmong, Only, InitiatorShape;
    if phase == Starting {
      OneAmongNext(p.up, StartOf(s, i), ConnectOf(s, i));
    } else if phase == Confirming {
      OneAmongNext(p.up, StopROf(s, i), ConnectOf(s, i));
    } else if Only(p.up, ConnectOf(s, i)) {
      OnlyNext(p.up, ConnectOf(s, i));
    }
  }

  lemma AskedHead(s: Setup, i: nat, es: seq<Entry>, handled: int)
    requires i < |s.inits| && Asked(s, i, es, handled) && es != []
    ensures es[0].local == s.member && es[0].remote == s.inits[i].name && es[0].retries >= 0
    ensures handled >= 0 && (handled == 0 ==> Listening(es[0]))
  {
    hide Authentic;
  }

  lemma AskedSame(s: Setup, i: nat, es: seq<Entry>, handled: int, e: Entry)
    requires i < |s.inits| && Asked(s, i, es, handled) && es != [] && handled > 0
    requires e.local == s.member && e.remote == s.inits[i].name && e.retries >= 0
    requires (Admitted(e) || Ending(e) || Joined(e)) && Match(s, i)
    ensures Asked(s, i, es[0 := e], handled)
  {
    hide Authentic;
  }

  lemma FinishStep(s: Setup, i: nat, p: Pair, phase: Phase)
    requires Proper(s) && i < |s.inits| && At(s, i, p, phase) && p.up != [] && p.up[0] == StopROf(s, i)
    ensures phase == Confirming && p.es != [] && p.es[0].remote == s.inits[i].name
    ensures p.es[0].immediate == Some(true) && p.es[0].enroll == WaitStopResponse
    ensures At(s, i, p.(es := p.es[0 := p.es[0].(enroll := Enrolled)], up := p.up[1..]), Finished)
  {
    hide Authentic, HasMgmt, Underscores, Asked, OneAmong, Only, InitiatorShape;
    NotARequest(s, i, p, phase);
    OneAmongNext(p.up, StopROf(s, i), ConnectOf(s, i));
    var handled := p.node.connects - (|p.up| - 1);
    AskedHead(s, i, p.es, handled);
    AskedSame(s, i, p.es, handled, p.es[0].(enroll := Enrolled));
  }

  // The initiator has taken the first message of its channel.
  ghost predicate DownDone(s: Setup, i: nat, p: Pair, phase: Phase, d: Outcome)
    requires i < |s.inits| && p.down != []
  {
    && d.Done?
    && (forall m :: m in d.out ==> m.to == s.member.apn)
    && HasLeft(s, i, p.(node := d.node, up := p.up + d.out, down := p.down[1..]), Left(s, i, p, phase) - 1)
  }

  // An initiator's turn on each message it expects
  ghost predicate Took(s: Setup, i: nat, b: nat, node: Node, m: Msg, e: Entry, retried: nat, out: seq<Msg>)
    requires i < |s.inits| && node.table != []
  {
    var node' := node.(table := node.table[0 := e], connects := node.connects + retried);
    Handle(s.inits[i].cfg, node, m) == Done(node', out) && InitiatorShape(s, i, b, node')
  }

  lemma PositiveTurn(s: Setup, i: nat, b: nat, node: Node)
    requires Proper(s) && i < |s.inits| && InitiatorShape(s, i, b, node) && node.table != []
    requires Match(s, i) && Asking(node.table[0])
    ensures Took(s, i, b, node, ConnectROf(s, i), node.table[0].(con := ConEstablished, enroll := WaitStartResponse), 0, [StartOf(s, i)])
  {
    hide Authentic, HasMgmt, Underscores, FindPeer, FindApn;
    OnlyEntry(s, i, b, node);
  }

  lemma NegativeTurn(s: Setup, i: nat, b: nat, node: Node)
    requires Proper(s) && i < |s.inits| && InitiatorShape(s, i, b, node) && node.table != []
    requires !Match(s, i) && (Asking(node.table[0]) || Refused(node.table[0]))
    ensures var e := node.table[0];
      if Refused(e) then Took(s, i, b, node, ConnectROf(s, i), e, 0, [])
      else if e.retries == Budget(s.inits[i].cfg) then Took(s, i, b, node, ConnectROf(s, i), e.(con := ConNil), 0, [])
      else Took(s, i, b, node, ConnectROf(s, i), e.(retries := e.retries + 1), 1, [ConnectOf(s, i)])
  {
    hide Authentic, HasMgmt, Underscores, FindPeer, FindApn;
    OnlyEntry(s, i, b, node);
  }

  lemma StartRTurn(s: Setup, i: nat, b: nat, node: Node)
    requires Proper(s) && i < |s.inits| && InitiatorShape(s, i, b, node) && node.table != [] && Joining(node.table[0])
    ensures Took(s, i, b, node, StartROf(s, i), node.table[0].(enroll := WaitStop), 0, [])
  {
    hide Authentic, HasMgmt, Underscores, FindPeer, FindApn;
    OnlyEntry(s, i, b, node);
  }

  lemma StopTurn(s: Setup, i: nat, b: nat, node: Node)
    requires Proper(s) && i < |s.inits| && InitiatorShape(s, i, b, node) && node.table != [] && Stopping(node.table[0])
    ensures Took(s, i, b, node, StopOf(s, i), node.table[0].(immediate := Some(true), enroll := Enrolled), 0, [StopROf(s, i)])
  {
    hide Authentic, HasMgmt, Underscores, FindPeer, FindApn;
    OnlyEntry(s, i, b, node);
  }

  lemma AcceptedStep(s: Setup, i: nat, p: Pair)
    requires Proper(s) && i < |s.inits| && At(s, i, p, Answered)
    ensures p.down != [] && p.down[0] == ConnectROf(s, i)
    ensures DownDone(s, i, p, Answered, Handle(s.inits[i].cfg, p.node, ConnectROf(s, i)))
  {
    hide Authentic, Proper, Handle, Asked, OneAmong, Only;
    PositiveTurn(s, i, p.begins, p.node);
    hide InitiatorShape;
    OnlyNext(p.up, ConnectOf(s, i));
    var d := Handle(s.inits[i].cfg, p.node, ConnectROf(s, i));
    assert d.out == [StartOf(s, i)] && p.down[1..] == [];
    assert At(s, i, p.(node := d.node, up := p.up + d.out, down := p.down[1..]), Starting);
  }

  lemma RejectedStep(s: Setup, i: nat, p: Pair)
    requires Proper(s) && i < |s.inits| && At(s, i, p, Refusing) && p.down != []
    ensures p.down[0] == ConnectROf(s, i)
    ensures DownDone(s, i, p, Refusing, Handle(s.inits[i].cfg, p.node, ConnectROf(s, i)))
  {
    hide Authentic, Proper, Handle, Asked, OneAmong, Only;
    NegativeTurn(s, i, p.begins, p.node);
    OnlyNext(p.up, ConnectOf(s, i));
    OnlyNext(p.down, ConnectROf(s, i));
    var d := Handle(s.inits[i].cfg, p.node, ConnectROf(s, i));
    assert d.out == [] || d.out == [ConnectOf(s, i)];
    assert p.up + [] == p.up;
    assert At(s, i, p.(node := d.node, up := p.up + d.out, down := p.down[1..]), Refusing);
  }

  lemma HaltStep(s: Setup, i: nat, p: Pair)
    requires Proper(s) && i < |s.inits| && At(s, i, p, Granted)
    ensures p.down != [] && p.down[0] == StartROf(s, i)
    ensures DownDone(s, i, p, Granted, Handle(s.inits[i].cfg, p.node, StartROf(s, i)))
  {
    hide Authentic, Proper, Handle, Asked, OneAmong, Only;
    StartRTurn(s, i, p.begins, p.node);
    hide InitiatorShape;
    var d := Handle(s.inits[i].cfg, p.node, StartROf(s, i));
    assert d.out == [] && p.up + [] == p.up && p.down[1..] == [StopOf(s, i)];
    assert At(s, i, p.(node := d.node, up := p.up + d.out, down := p.down[1..]), Halting);
  }

  lemma Confirmed(s: Setup, i: nat, p: Pair, node': Node)
    requires i < |s.inits| && At(s, i, p, Halting) && InitiatorShape(s, i, p.begins, node') && node'.table != []
    requires node'.table[0] == p.node.table[0].(immediate := Some(true), enroll := Enrolled)
    requires node'.connects == p.node.connects
    ensures At(s, i, p.(node := node', up := p.up + [StopROf(s, i)], down := []), Confirming)
  {
    hide Authentic, Asked, OneAmong, Only, InitiatorShape;
    OnlyNext(p.up, ConnectOf(s, i));
  }

  lemma ConfirmStep(s: Setup, i: nat, p: Pair)
    requires Proper(s) && i < |s.inits| && At(s, i, p, Halting)
    ensures p.down != [] && p.down[0] == StopOf(s, i)
    ensures DownDone(s, i, p, Halting, Handle(s.inits[i].cfg, p.node, StopOf(s, i)))
  {
    hide Authentic, Proper, Handle, Asked, OneAmong, Only, InitiatorShape;
    StopTurn(s, i, p.begins, p.node);
    var d := Handle(s.inits[i].cfg, p.node, StopOf(s, i));
    Confirmed(s, i, p, d.node);
    assert d.out == [StopROf(s, i)] && p.down[1..] == [];
    hide At;
    assert At(s, i, p.(node := d.node, up := p.up + d.out, down := p.down[1..]), Confirming);
  }

  // Any message an initiator takes uses up one step.
  lemma DownLeads(s: Setup, i: nat, p: Pair, phase: Phase)
    requires Proper(s) && i < |s.inits| && At(s, i, p, phase) && p.down != []
    ensures DownDone(s, i, p, phase, Handle(s.inits[i].cfg, p.node, p.down[0]))
  {
    DownPhases(s, i, p, phase);
    hide At, Handle, DownDone;
    match phase {
      case Answered => AcceptedStep(s, i, p);
      case Refusing => RejectedStep(s, i, p);
      case Granted => HaltStep(s, i, p);
      case Halting => ConfirmStep(s, i, p);
      case _ => assert false;
    }
  }

  lemma DownPhases(s: Setup, i: nat, p: Pair, phase: Phase)
    requires i < |s.inits| && At(s, i, p, phase) && p.down != []
    ensures phase in {Answered, Refusing, Granted, Halting}
  {
    hide Authentic, Asked, OneAmong, Only, InitiatorShape;
  }

  lemma AskedFirst(s: Setup, i: nat, handled: int)
    requires i < |s.inits| && Asked(s, i, [], handled)
    ensures handled == 0 && Asked(s, i, Entered(s, i, []), 0) && Rejected(Entered(s, i, [])[0], 0)
  {
    hide Authentic;
  }

  // An accepted flow may leave the first entry, nothing else.
  lemma AcceptKeeps(s: Setup, i: nat, p: Pair, phase: Phase)
    requires i < |s.inits| && At(s, i, p, phase)
    ensures var p' := p.(es := if p.es == [] then Entered(s, i, p.es) else p.es);
      At(s, i, p', phase) && Left(s, i, p', phase) == Left(s, i, p, phase)
  {
    hide Authentic, Asked, Entered, OneAmong, Only, InitiatorShape;
    if p.es == [] {
      AskedFirst(s, i, if p.begins == 0 || phase == Requested then 0 else p.node.connects - |p.up|);
    }
  }

  // ---------- The steps of a line ----------

  ghost function PairOf(s: Setup, w: Line, i: nat): Pair
    requires Shaped(s, w) && i < |s.inits|
  {
    Pair(w.nodes[i], w.begins[i], EntriesOf(w.member.table, s.inits[i].name), w.up[i], w.down[i])
  }

  // Each pair has a known number of steps left.
  ghost predicate OnSchedule(s: Setup, w: Line, left: seq<int>) {
    && Shaped(s, w) && |left| == |s.inits|
    && (forall e :: e in w.member.table ==> Unmistaken(s, e.remote))
    && forall i :: 0 <= i < |s.inits| ==> HasLeft(s, i, PairOf(s, w, i), left[i])
  }

  lemma {:induction false} RoutedOne(out: seq<Msg>, apn: string, to: string)
    requires forall m :: m in out ==> m.to == to
    ensures Routed(out, apn) == if apn == to then out else []
  {
    if out != [] {
      RoutedOne(out[..|out| - 1], apn, to);
      assert out == out[..|out| - 1] + [out[|out| - 1]];
    }
  }

  // The member's turn on pair i's message: one step of that pair, and nobody else's share changes.
  ghost predicate UpDone(s: Setup, w: Line, i: nat, left: int, d: Outcome)
    requires Shaped(s, w) && i < |s.inits| && w.up[i] != []
  {
    && d.Done?
    && (forall m :: m in d.out ==> m.to == s.inits[i].name.apn)
    && (forall r :: r != s.inits[i].name ==> EntriesOf(d.node.table, r) == EntriesOf(w.member.table, r))
    && (forall e :: e in d.node.table ==> Unmistaken(s, e.remote))
    && HasLeft(s, i, Pair(w.nodes[i], w.begins[i], EntriesOf(d.node.table, s.inits[i].name), w.up[i][1..], w.down[i] + d.out),
               left - 1)
  }

  lemma RequestLeads(s: Setup, w: Line, i: nat, phase: Phase)
    requires Proper(s) && Shaped(s, w) && i < |s.inits| && forall e :: e in w.member.table ==> Unmistaken(s, e.remote)
    requires At(s, i, PairOf(s, w, i), phase) && w.up[i] != [] && w.up[i][0] == ConnectOf(s, i)
    ensures UpDone(s, w, i, Left(s, i, PairOf(s, w, i), phase), Handle(s.cfg, w.member, w.up[i][0]))
  {
    hide At, HasLeft, HasMgmt, Underscores, EntriesOf, Authentic, Handle, OnConnect, Left;
    var p := PairOf(s, w, i);
    RequestStep(s, i, p, phase);
    ConnectTurn(s, w.member, i, Entered(s, i, p.es)[0]);
  }

  lemma StartLeads(s: Setup, w: Line, i: nat, phase: Phase)
    requires Proper(s) && Shaped(s, w) && i < |s.inits| && forall e :: e in w.member.table ==> Unmistaken(s, e.remote)
    requires At(s, i, PairOf(s, w, i), phase) && w.up[i] != [] && w.up[i][0] == StartOf(s, i)
    ensures UpDone(s, w, i, Left(s, i, PairOf(s, w, i), phase), Handle(s.cfg, w.member, w.up[i][0]))
  {
    hide At, HasMgmt, Underscores, EntriesOf, Authentic, Handle, OnStart;
    var p := PairOf(s, w, i);
    GrantStep(s, i, p, phase);
    StartTurn(s, w.member, i, p.es);
    var r := OnStart(s.cfg, p.es[0], StartOf(s, i));
    assert At(s, i, p.(es := p.es[0 := r.0], up := p.up[1..], down := p.down + r.1), Granted);
  }

  lemma ConfirmLeads(s: Setup, w: Line, i: nat, phase: Phase)
    requires Proper(s) && Shaped(s, w) && i < |s.inits| && forall e :: e in w.member.table ==> Unmistaken(s, e.remote)
    requires At(s, i, PairOf(s, w, i), phase) && w.up[i] != [] && w.up[i][0] == StopROf(s, i)
    ensures UpDone(s, w, i, Left(s, i, PairOf(s, w, i), phase), Handle(s.cfg, w.member, w.up[i][0]))
  {
    hide At, HasMgmt, Underscores, EntriesOf, Authentic, Handle;
    var p := PairOf(s, w, i);
    FinishStep(s, i, p, phase);
    StopRTurn(s, w.member, i, p.es);
    assert w.down[i] + [] == w.down[i];
    assert At(s, i, p.(es := p.es[0 := p.es[0].(enroll := Enrolled)], up := p.up[1..]), Finished);
  }

  // Any message the member takes uses up one step of its pair and touches no other.
  lemma UpLeads(s: Setup, w: Line, i: nat, left: seq<int>)
    requires Proper(s) && OnSchedule(s, w, left) && i < |s.inits| && w.up[i] != []
    ensures UpDone(s, w, i, left[i], Handle(s.cfg, w.member, w.up[i][0]))
  {
    var p := PairOf(s, w, i);
    assert HasLeft(s, i, p, left[i]);
    hide UpDone, At, Handle, Proper, EntriesOf, Left;
    var phase :| At(s, i, p, phase) && left[i] == Left(s, i, p, phase);
    NotARequest(s, i, p, phase);
    if w.up[i][0] == ConnectOf(s, i) {
      RequestLeads(s, w, i, phase);
    } else if w.up[i][0] == StartOf(s, i) {
      StartLeads(s, w, i, phase);
    } else {
      ConfirmLeads(s, w, i, phase);
    }
  }

  // ---------- The measure over all pairs ----------

  ghost function Sum(left: seq<int>): int {
    if left == [] then 0 else Sum(left[..|left| - 1]) + left[|left| - 1]
  }

  lemma {:induction false} SumSet(left: seq<int>, i: nat, v: int)
    requires i < |left|
    ensures Sum(left[i := v]) == Sum(left) - left[i] + v
  {
    var n := |left| - 1;
    if i < n {
      SumSet(left[..n], i, v);
      assert left[i := v][..n] == left[..n][i := v];
    } else {
      assert left[i := v][..n] == left[..n];
    }
  }

  // A sum of natural numbers is zero exactly when they all are.
  lemma {:induction false} SumZeroIff(left: seq<int>)
    requires forall k :: 0 <= k < |left| ==> left[k] >= 0
    ensures Sum(left) >= 0 && (Sum(left) == 0 <==> forall k :: 0 <= k < |left| ==> left[k] == 0)
  {
    if left != [] {
      var n := |left| - 1;
      SumZeroIff(left[..n]);
      assert forall k :: 0 <= k < n ==> left[..n][k] == left[k];
    }
  }

  ghost function Steps(s: Setup, begins: seq<nat>): (r: seq<int>)
    requires |begins| == |s.inits|
    ensures |r| == |begins| && forall i :: 0 <= i < |r| ==> r[i] == StepsOf(s, i, begins[i])
  {
    seq(|begins|, i requires 0 <= i < |begins| => StepsOf(s, i, begins[i]))
  }

  // The number of steps that the flows so far allow: one for each flow accepted, and what each
  // initiator's flows cause
  ghost function AllSteps(s: Setup, w: Line): int
    requires Shaped(s, w)
  {
    w.accepts + Sum(Steps(s, w.begins))
  }

  lemma BeginsOnSchedule(s: Setup, w: Line) returns (left: seq<int>)
    requires Proper(s) && Begins(s, w)
    ensures OnSchedule(s, w, left) && Sum(left) == AllSteps(s, w)
  {
    hide Authentic, HasMgmt, Underscores, EntriesOf;
    left := Steps(s, w.begins);
    forall i | 0 <= i < |s.inits|
      ensures HasLeft(s, i, PairOf(s, w, i), left[i])
    {
      NoEntries(s.initial, s.inits[i].name);
      assert At(s, i, PairOf(s, w, i), Idle);
    }
  }

  // A pair that the step does not concern keeps its state.
  lemma OthersStay(s: Setup, w: Line, w': Line, i: nat, j: nat, out: seq<Msg>)
    requires Proper(s) && Shaped(s, w) && Shaped(s, w') && i < |s.inits| && j < |s.inits| && j != i
    requires forall m :: m in out ==> m.to == s.inits[i].name.apn
    requires EntriesOf(w'.member.table, s.inits[j].name) == EntriesOf(w.member.table, s.inits[j].name)
    requires w'.nodes[j] == w.nodes[j] && w'.up[j] == w.up[j] && w'.begins[j] == w.begins[j]
    requires w'.down[j] == w.down[j] + Routed(out, s.inits[j].name.apn)
    ensures PairOf(s, w', j) == PairOf(s, w, j)
  {
    hide EntriesOf, HasMgmt, Underscores, Routed;
    RoutedOne(out, s.inits[j].name.apn, s.inits[i].name.apn);
    assert w.down[j] + [] == w.down[j];
  }

  lemma NamesDiffer(s: Setup, i: nat, j: nat)
    requires Proper(s) && i < |s.inits| && j < |s.inits| && i != j
    ensures s.inits[i].name != s.inits[j].name
  {
    hide HasMgmt, Underscores;
  }

  lemma UpKeeps(s: Setup, w: Line, t: Tick, w': Line, left: seq<int>)
    requires Proper(s) && OnSchedule(s, w, left) && Follows(s, w, t, w') && t.Up?
    ensures OnSchedule(s, w', left[t.i := left[t.i] - 1])
  {
    hide Handle, HasLeft, EntriesOf, HasMgmt, Underscores, Routed;
    UpLeads(s, w, t.i, left);
    var d := Handle(s.cfg, w.member, w.up[t.i][0]);
    RoutedOne(d.out, s.inits[t.i].name.apn, s.inits[t.i].name.apn);
    forall j | 0 <= j < |s.inits| && j != t.i
      ensures HasLeft(s, j, PairOf(s, w', j), left[j])
    {
      NamesDiffer(s, t.i, j);
      OthersStay(s, w, w', t.i, j, d.out);
    }
  }

  lemma AcceptsKeeps(s: Setup, w: Line, t: Tick, w': Line, left: seq<int>)
    requires Proper(s) && OnSchedule(s, w, left) && Follows(s, w, t, w') && t.Accepts?
    ensures OnSchedule(s, w', left)
  {
    hide Accept, HasLeft, EntriesOf, HasMgmt, Underscores, Routed, Entered, At;
    AllocateTurn(s, w.member, t.i, t.addr);
    AcceptLeft(s, t.i, PairOf(s, w, t.i), left[t.i]);
    forall j | 0 <= j < |s.inits|
      ensures HasLeft(s, j, PairOf(s, w', j), left[j])
    {
      RoutedOne([], s.inits[j].name.apn, s.inits[t.i].name.apn);
      assert w'.down[j] == w.down[j];
      if j != t.i {
        NamesDiffer(s, t.i, j);
        assert PairOf(s, w', j) == PairOf(s, w, j);
      }
    }
  }

  lemma AcceptLeft(s: Setup, i: nat, p: Pair, n: int)
    requires Proper(s) && i < |s.inits| && HasLeft(s, i, p, n)
    ensures HasLeft(s, i, p.(es := if p.es == [] then Entered(s, i, p.es) else p.es), n)
  {
    hide At, Left, Entered, Proper;
    var phase :| At(s, i, p, phase) && n == Left(s, i, p, phase);
    AcceptKeeps(s, i, p, phase);
  }

  lemma DownLeft(s: Setup, i: nat, p: Pair, n: int)
    requires Proper(s) && i < |s.inits| && HasLeft(s, i, p, n) && p.down != []
    ensures var d := Handle(s.inits[i].cfg, p.node, p.down[0]);
      && d.Done? && (forall m :: m in d.out ==> m.to == s.member.apn)
      && HasLeft(s, i, p.(node := d.node, up := p.up + d.out, down := p.down[1..]), n - 1)
  {
    var phase :| At(s, i, p, phase) && n == Left(s, i, p, phase);
    hide At, Left, Handle, HasLeft, Proper;
    DownLeads(s, i, p, phase);
  }

  lemma StartsLeft(s: Setup, i: nat, p: Pair, n: int, local: Apni)
    requires Proper(s) && i < |s.inits| && HasLeft(s, i, p, n)
    requires p.begins == 0 || s.cfg.level == Dif ==> local == s.inits[i].name
    ensures var d := StartCace(s.inits[i].cfg, p.node, local, s.member);
      && d.Done? && (forall m :: m in d.out ==> m.to == s.member.apn)
      && HasLeft(s, i, p.(begins := p.begins + 1, node := d.node, up := p.up + d.out),
                 n + StepsOf(s, i, p.begins + 1) - StepsOf(s, i, p.begins) - 1)
  {
    var phase :| At(s, i, p, phase) && n == Left(s, i, p, phase);
    hide At, Left, StartCace, HasLeft, Proper, StepsOf;
    StartsStep(s, i, p, phase, local);
  }

  lemma DownKeeps(s: Setup, w: Line, t: Tick, w': Line, left: seq<int>)
    requires Proper(s) && OnSchedule(s, w, left) && Follows(s, w, t, w') && t.Down?
    ensures OnSchedule(s, w', left[t.i := left[t.i] - 1])
  {
    hide Handle, HasLeft, EntriesOf, HasMgmt, Underscores, Routed;
    DownLeft(s, t.i, PairOf(s, w, t.i), left[t.i]);
    RoutedOne(Does(s, w, t).out, s.member.apn, s.member.apn);
    forall j | 0 <= j < |s.inits|
      ensures HasLeft(s, j, PairOf(s, w', j), left[t.i := left[t.i] - 1][j])
    {
      assert j != t.i ==> PairOf(s, w', j) == PairOf(s, w, j);
    }
  }

  lemma StartsKeeps(s: Setup, w: Line, t: Tick, w': Line, left: seq<int>)
    requires Proper(s) && OnSchedule(s, w, left) && Follows(s, w, t, w') && t.Starts?
    ensures var b := w.begins[t.i];
      OnSchedule(s, w', left[t.i := left[t.i] + StepsOf(s, t.i, b + 1) - StepsOf(s, t.i, b) - 1])
  {
    hide StartCace, HasLeft, EntriesOf, HasMgmt, Underscores, Routed, StepsOf;
    StartsLeft(s, t.i, PairOf(s, w, t.i), left[t.i], t.local);
    RoutedOne(Does(s, w, t).out, s.member.apn, s.member.apn);
    forall j | 0 <= j < |s.inits| && j != t.i
      ensures HasLeft(s, j, PairOf(s, w', j), left[j])
    {
      assert PairOf(s, w', j) == PairOf(s, w, j);
    }
  }

  // Each step is one of those that the flows so far allow.
  lemma StepKeepsCount(s: Setup, w: Line, t: Tick, w': Line, left: seq<int>) returns (left': seq<int>)
    requires Proper(s) && OnSchedule(s, w, left) && Follows(s, w, t, w')
    ensures OnSchedule(s, w', left') && AllSteps(s, w') - Sum(left') == AllSteps(s, w) - Sum(left) + 1
  {
    hide HasLeft, Does, Proper, EntriesOf, Sum;
    match t {
      case Accepts(_, _) =>
        AcceptsKeeps(s, w, t, w', left);
        left' := left;
      case Starts(i, local) =>
        var b := w.begins[i];
        StartsKeeps(s, w, t, w', left);
        SumSet(left, i, left[i] + StepsOf(s, i, b + 1) - StepsOf(s, i, b) - 1);
        SumSet(Steps(s, w.begins), i, StepsOf(s, i, b + 1));
        assert Steps(s, w'.begins) == Steps(s, w.begins)[i := StepsOf(s, i, b + 1)];
        left' := left[i := left[i] + StepsOf(s, i, b + 1) - StepsOf(s, i, b) - 1];
      case Up(i) =>
        UpKeeps(s, w, t, w', left);
        SumSet(left, i, left[i] - 1);
        left' := left[i := left[i] - 1];
      case Down(i) =>
        DownKeeps(s, w, t, w', left);
        SumSet(left, i, left[i] - 1);
        left' := left[i := left[i] - 1];
    }
  }

  lemma {:induction false} RunOnSchedule(s: Setup, ws: seq<Line>, ts: seq<Tick>, n: nat) returns (left: seq<int>)
    requires Proper(s) && FifoRun(s, ws, ts) && n < |ws|
    ensures OnSchedule(s, ws[n], left) && n + Sum(left) == AllSteps(s, ws[n])
  {
    hide HasLeft, Follows, Begins, Proper, Sum, Steps;
    if n == 0 {
      left := BeginsOnSchedule(s, ws[0]);
    } else {
      left := RunOnSchedule(s, ws, ts, n - 1);
      left := StepKeepsCount(s, ws[n - 1], ts[n - 1], ws[n], left);
    }
  }

  // ---------- Termination and outcome ----------

  // No message is under way.
  ghost predicate Quiet(s: Setup, w: Line)
    requires Shaped(s, w)
  {
    forall i :: 0 <= i < |s.inits| ==> w.up[i] == [] && w.down[i] == []
  }

  lemma LeftIsQuiet(s: Setup, w: Line, left: seq<int>)
    requires OnSchedule(s, w, left)
    ensures forall i :: 0 <= i < |left| ==> left[i] >= 0 && (left[i] == 0 <==> w.up[i] == [] && w.down[i] == [])
  {
    hide HasLeft, EntriesOf;
    forall i | 0 <= i < |left|
      ensures left[i] >= 0 && (left[i] == 0 <==> w.up[i] == [] && w.down[i] == [])
    {
      QuietIff(s, i, PairOf(s, w, i), left[i]);
    }
  }

  // A run is never longer than its flows allow.
  lemma RunsEnd(s: Setup, ws: seq<Line>, ts: seq<Tick>)
    requires Proper(s) && FifoRun(s, ws, ts)
    ensures Shaped(s, ws[|ts|]) && |ts| <= AllSteps(s, ws[|ts|])
  {
    var left := RunOnSchedule(s, ws, ts, |ts|);
    LeftIsQuiet(s, ws[|ts|], left);
    hide Proper, FifoRun, HasLeft, EntriesOf, Sum, Steps;
    SumZeroIff(left);
  }

  // It is exactly that long when and only when no message is under way, and until then whatever is
  // ready can be taken.
  lemma StopsExactly(s: Setup, ws: seq<Line>, ts: seq<Tick>)
    requires Proper(s) && FifoRun(s, ws, ts)
    ensures var w := ws[|ts|];
      && Shaped(s, w)
      && (|ts| == AllSteps(s, w) <==> Quiet(s, w))
      && forall t :: Ready(s, w, t) ==> Does(s, w, t).Done?
  {
    var left := RunOnSchedule(s, ws, ts, |ts|);
    var w := ws[|ts|];
    LeftIsQuiet(s, w, left);
    hide Proper, FifoRun, Does, HasLeft, EntriesOf, Sum, Steps, Ready;
    SumZeroIff(left);
    forall t | Ready(s, w, t)
      ensures Does(s, w, t).Done?
    {
      ReadyIsDone(s, w, t, left);
    }
  }

  lemma ReadyIsDone(s: Setup, w: Line, t: Tick, left: seq<int>)
    requires Proper(s) && OnSchedule(s, w, left) && Ready(s, w, t)
    ensures Does(s, w, t).Done?
  {
    hide Handle, StartCace, Accept, HasLeft, EntriesOf, Proper;
    match t
    case Accepts(i, addr) => AllocateTurn(s, w.member, i, addr);
    case Starts(i, local) => StartsLeft(s, i, PairOf(s, w, i), left[i], local);
    case Up(i) => UpLeads(s, w, i, left);
    case Down(i) => DownLeft(s, i, PairOf(s, w, i), left[i]);
  }

  // Where a run leaves a pair once no message is under way: both sides enrolled when the credentials
  // match; otherwise the initiator out of attempts and the member, which rejected every request,
  // listening again. At the application level each request left an entry.
  lemma Outcome(s: Setup, ws: seq<Line>, ts: seq<Tick>, i: nat)
    requires Proper(s) && FifoRun(s, ws, ts) && i < |s.inits|
    requires Shaped(s, ws[|ts|]) && ws[|ts|].begins[i] > 0 && Quiet(s, ws[|ts|])
    ensures var w := ws[|ts|]; var es := EntriesOf(w.member.table, s.inits[i].name);
      var b := w.begins[i]; var retries := if Match(s, i) then 0 else Budget(s.inits[i].cfg);
      && w.nodes[i].table != [] && es != []
      && w.nodes[i].connects == b + retries
      && (if Match(s, i) then
            && w.nodes[i].table[0].con == ConEstablished && w.nodes[i].table[0].enroll == Enrolled
            && es[0].con == ConEstablished && es[0].enroll == Enrolled
          else
            && w.nodes[i].table[0].con == ConNil
            && es[0].con == ConConnectPending && es[0].enroll == EnrollNil && es[0].retries == b + retries)
      && (if s.cfg.level == Dif then |es| == 1 else b + retries <= |es| <= b + retries + 1)
  {
    var left := RunOnSchedule(s, ws, ts, |ts|);
    hide Proper, FifoRun, EntriesOf, HasLeft, Authentic;
    FinalPair(s, i, PairOf(s, ws[|ts|], i), left[i]);
  }

  lemma FinalPair(s: Setup, i: nat, p: Pair, n: int)
    requires i < |s.inits| && HasLeft(s, i, p, n) && p.begins > 0 && p.up == [] && p.down == []
    ensures var retries := if Match(s, i) then 0 else Budget(s.inits[i].cfg);
      && p.node.table != [] && p.es != []
      && p.node.connects == p.begins + retries
      && (if Match(s, i) then Joined(p.node.table[0]) && Joined(p.es[0])
          else Refused(p.node.table[0]) && Rejected(p.es[0], p.begins + retries))
      && (if s.cfg.level == Dif then |p.es| == 1 else p.begins + retries <= |p.es| <= p.begins + retries + 1)
  {
    hide Authentic, OneAmong, Only;
    var phase :| At(s, i, p, phase) && n == Left(s, i, p, phase);
    if phase == Starting {
      OneAmongNext(p.up, StartOf(s, i), ConnectOf(s, i));
    } else if phase == Confirming {
      OneAmongNext(p.up, StopROf(s, i), ConnectOf(s, i));
    }
  }
}
