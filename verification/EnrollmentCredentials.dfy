/**
 What the credentials decide, in terms of the configured fields alone: who can be enrolled in any run, how
 every pair ends over FIFO channels, and after how many steps.
 */
module EnrollmentCredentials {
  import opened EnrollmentModel
  import opened EnrollmentRuns
  import opened EnrollmentFifo

  // ---------- Any network ----------

  lemma MatchIs(s: Setup, i: nat)
    requires i < |s.inits|
    ensures var (own, theirs) := (s.cfg.auth, s.inits[i].cfg.auth);
      && (Match(s, i) ==> own.authType == theirs.authType && (own.authType == 0 || own.authType == 1))
      && (own.authType == 0 && theirs.authType == 0 ==> Match(s, i))
      && (own.authType == 1 && theirs.authType == 1 ==> (Match(s, i) <==> own.authPassword == theirs.authPassword))
  {
  }

  // Connected or enrolled
  predicate Let(e: Entry) {
    e.con == ConEstablished || e.enroll == Enrolled
  }

  lemma PairLets(s: Setup, i: nat, b: nat, node: Node, es: seq<Entry>, net: set<Msg>)
    requires i < |s.inits| && PairInv(s, i, b, node, es, net)
    ensures forall e :: (e in node.table || e in es) && Let(e) ==> Match(s, i)
  {
    hide Match, Causal;
    forall k | 0 <= k < |es| && Let(es[k])
      ensures Match(s, i)
    {
      assert k > 0 ==> es[k] == Fresh(s.member, s.inits[i].name, ConConnectPending);
    }
  }

  // In every reachable world an entry by which either side is connected or enrolled with the other means
  // that both were configured with the same type of authentication, that it is none (0) or a password (1), and
  // that a password is the same on both sides.
  lemma OnlyTheRightCredentials(s: Setup, ws: seq<World>, es: seq<Event>, n: nat, i: nat, e: Entry)
    requires Proper(s) && Run(s, ws, es) && n < |ws| && i < |s.inits| && |ws[n].nodes| == |s.inits|
    requires e in ws[n].nodes[i].table || (e in ws[n].member.table && e.remote == s.inits[i].name)
    requires e.con == ConEstablished || e.enroll == Enrolled
    ensures s.inits[i].cfg.auth.authType == s.cfg.auth.authType
    ensures s.cfg.auth.authType == 0 || s.cfg.auth.authType == 1
    ensures s.cfg.auth.authType == 1 ==> s.inits[i].cfg.auth.authPassword == s.cfg.auth.authPassword
  {
    RunInv(s, ws, es, n);
    MatchIs(s, i);
    hide Proper, Run, PairInv, Match, EntriesOf;
    InvHolds(s, ws[n], i);
    EntriesOfMatch(ws[n].member.table, s.inits[i].name);
    PairLets(s, i, ws[n].begins[i], ws[n].nodes[i], EntriesOf(ws[n].member.table, s.inits[i].name), ws[n].net);
  }

  // Whatever is ever sent is one of six messages of some initiator and the member, the answer to M_CONNECT telling
  // whether the configured credentials are the right ones.
  lemma MessagesOfTheHandshake(s: Setup, ws: seq<World>, es: seq<Event>, n: nat, m: Msg)
    requires Proper(s) && Run(s, ws, es) && n < |ws| && m in ws[n].net
    ensures exists i ::
              (&& 0 <= i < |s.inits|
               && var (peer, own, theirs) := (s.inits[i].name, s.cfg.auth, s.inits[i].cfg.auth);
                  var address := if s.cfg.level == Dif then s.inits[i].address else "";
                  var right := own.authType == theirs.authType
                               && (own.authType == 0 || (own.authType == 1 && own.authPassword == theirs.authPassword));
                  (|| m == Connect(peer, s.member, s.member.apn, true, theirs)
                   || m == ConnectR(s.member, peer, peer.apn, right, theirs)
                   || m == Start(peer.apn, s.member.apn, address)
                   || m == StartR(s.member.apn, peer.apn, address)
                   || m == Stop(s.member.apn, peer.apn, true)
                   || m == StopR(peer.apn, s.member.apn, false)))
  {
    RunInv(s, ws, es, n);
    hide Proper, Run, PairHolds, EntriesOf, Match;
    assert IsOurs(s, m);
    var i :| 0 <= i < |s.inits| && OfPair(s, i, m);
    MatchIs(s, i);
  }

  // ---------- FIFO channels ----------

  // A pair with no message under way, whatever the others do: with no authentication on both sides, or equal
  // passwords, both are enrolled; with any other credentials the initiator has given up, the member is
  // listening, and everything was asked and rejected.
  lemma CredentialsDecide(s: Setup, ws: seq<Line>, ts: seq<Tick>, i: nat)
    requires Proper(s) && FifoRun(s, ws, ts) && i < |s.inits| && Shaped(s, ws[|ts|])
    requires ws[|ts|].begins[i] > 0 && ws[|ts|].up[i] == [] && ws[|ts|].down[i] == []
    ensures var w := ws[|ts|]; var es := EntriesOf(w.member.table, s.inits[i].name);
      var (own, theirs) := (s.cfg.auth, s.inits[i].cfg.auth);
      && w.nodes[i].table != [] && es != []
      && (var (initiator, member) := (w.nodes[i].table[0], es[0]);
          && (own.authType == 0 && theirs.authType == 0 ==>
                initiator.con == member.con == ConEstablished && initiator.enroll == member.enroll == Enrolled)
          && (own.authType == 1 && theirs.authType == 1 ==>
                if own.authPassword == theirs.authPassword
                then initiator.con == member.con == ConEstablished && initiator.enroll == member.enroll == Enrolled
                else initiator.con == ConNil && member.con == ConConnectPending && member.enroll == EnrollNil)
          && (own.authType != theirs.authType || own.authType > 1 ==>
                initiator.con == ConNil && member.con == ConConnectPending && member.enroll == EnrollNil)
          && (initiator.con == ConNil ==>
                var limit := if s.inits[i].cfg.maxConRetries < 0 then 0 else s.inits[i].cfg.maxConRetries;
                && initiator.enroll == EnrollNil && initiator.retries == limit
                && w.nodes[i].connects == w.begins[i] + limit == member.retries))
  {
    var left := RunOnSchedule(s, ws, ts, |ts|);
    MatchIs(s, i);
    hide Proper, FifoRun, EntriesOf, HasLeft, Match;
    FinalPair(s, i, PairOf(s, ws[|ts|], i), left[i]);
    FinalRetries(s, i, PairOf(s, ws[|ts|], i), left[i]);
  }

  lemma FinalRetries(s: Setup, i: nat, p: Pair, n: int)
    requires i < |s.inits| && HasLeft(s, i, p, n) && p.begins > 0
    ensures p.node.table != []
    ensures Refused(p.node.table[0]) ==> p.node.table[0].retries == Budget(s.inits[i].cfg)
  {
    hide Match, Matching, Mismatching, MemberShape;
  }

  // A run of one initiator ends, with no message under way, after exactly this many steps: one for each flow the
  // member accepted; and with the right credentials 2b + 5 for b flows that came up, otherwise b and two for each of
  // the b + limit requests.
  lemma StepsAreCounted(s: Setup, ws: seq<Line>, ts: seq<Tick>)
    requires Proper(s) && FifoRun(s, ws, ts) && |s.inits| == 1
    ensures var w := ws[|ts|]; var (own, theirs) := (s.cfg.auth, s.inits[0].cfg.auth);
      && |w.up| == |w.down| == |w.begins| == 1
      && (var b := w.begins[0]; var limit := if s.inits[0].cfg.maxConRetries < 0 then 0 else s.inits[0].cfg.maxConRetries;
          var right := own.authType == theirs.authType
                       && (own.authType == 0 || (own.authType == 1 && own.authPassword == theirs.authPassword));
          var all := w.accepts + if b == 0 then 0 else if right then 2 * b + 5 else b + 2 * (b + limit);
          |ts| <= all && (|ts| == all <==> w.up[0] == [] && w.down[0] == []))
  {
    RunsEnd(s, ws, ts);
    StopsExactly(s, ws, ts);
    MatchIs(s, 0);
    var w := ws[|ts|];
    hide Proper, FifoRun, Match, Ready, Does;
    var steps := Steps(s, w.begins);
    assert steps == [] + [StepsOf(s, 0, w.begins[0])] && steps[..0] == [];
    assert Sum(steps) == StepsOf(s, 0, w.begins[0]);
  }
}
