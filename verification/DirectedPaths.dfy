/**
 iterateDM on matrices that need not be symmetric: when its result holds all directed distances. The
 mirror entry is overwritten by every relaxation, so the order of the loops matters; what decides is
 that all triples of one node are relaxed together.
 */
module DirectedPaths {
  import opened ShortestPaths

  // The least weight of a walk, at most `w`
  ghost function Least(m: Matrix, l: nat, i: nat, k: nat, w: nat): (d: nat)
    requires Square(m, l) && IsWalkWeight(m, l, i, k, w)
    ensures IsDistance(m, l, i, k, d)
  {
    if w' :| 0 <= w' < w && IsWalkWeight(m, l, i, k, w') then Least(m, l, i, k, w')
    else
      assert forall p :: Walk(p, i, k, l) ==> IsWalkWeight(m, l, i, k, Weight(m, l, p));
      w
  }

  ghost function Dist(m: Matrix, l: nat, i: nat, k: nat): (d: nat)
    requires Square(m, l) && i < l && k < l && i != k
    ensures IsDistance(m, l, i, k, d) && d <= m[i][k]
  {
    EdgeIsWalk(m, l, i, k);
    Least(m, l, i, k, m[i][k])
  }

  lemma EdgeIsWalk(m: Matrix, l: nat, i: nat, k: nat)
    requires Square(m, l) && i < l && k < l && i != k
    ensures Walk([i, k], i, k, l) && Weight(m, l, [i, k]) == m[i][k]
  {
    assert [i, k][..1] == [i];
  }

  lemma DistIsUnique(m: Matrix, l: nat, i: nat, k: nat, d: nat)
    requires Square(m, l) && i < l && k < l && i != k
    ensures IsDistance(m, l, i, k, d) <==> d == Dist(m, l, i, k)
  {
    hide Dist, Weight;
  }

  lemma ShortestWalk(m: Matrix, l: nat, i: nat, k: nat) returns (p: seq<nat>)
    requires Square(m, l) && i < l && k < l && i != k
    ensures Walk(p, i, k, l) && Weight(m, l, p) == Dist(m, l, i, k)
  {
    assert IsWalkWeight(m, l, i, k, Dist(m, l, i, k));
    p :| Walk(p, i, k, l) && Weight(m, l, p) == Dist(m, l, i, k);
  }

  lemma DistTriangle(m: Matrix, l: nat, i: nat, j: nat, k: nat)
    requires Square(m, l) && i < l && j < l && k < l && i != j && i != k && j != k
    ensures Dist(m, l, i, k) <= Dist(m, l, i, j) + Dist(m, l, j, k)
  {
    hide Dist, Weight;
    var p := ShortestWalk(m, l, i, j);
    var q := ShortestWalk(m, l, j, k);
    JoinWalks(m, l, p, q, i, j, k);
  }

  // What a caller can check: wherever a detour beats an edge, the distance back is the same.
  ghost predicate Mirrored(m: Matrix, l: nat)
    requires Square(m, l)
  {
    forall i, k :: 0 <= i < l && 0 <= k < l && i != k && Dist(m, l, i, k) < m[i][k]
      ==> Dist(m, l, k, i) == Dist(m, l, i, k)
  }

  // Two different nodes at distance 0 both ways are joined by zeros.
  ghost predicate NoHiddenZeros(m: Matrix, l: nat)
    requires Square(m, l)
  {
    forall i, k :: 0 <= i < l && 0 <= k < l && i != k && Dist(m, l, i, k) == 0 && Dist(m, l, k, i) == 0
      ==> m[i][k] == 0 && m[k][i] == 0
  }

  // A pair is as it was, or its two entries agree; the diagonal is as it was.
  ghost predicate Paired(m0: Matrix, m: Matrix, l: nat, i: nat, k: nat)
    requires Square(m0, l) && Square(m, l) && i < l && k < l
  {
    && (i == k ==> m[i][k] == m0[i][k])
    && ((m[i][k] == m0[i][k] && m[k][i] == m0[k][i]) || m[i][k] == m[k][i])
  }

  // Some relaxation has written the pair: one of its entries is below what it was.
  predicate Touched(m0: Matrix, m: Matrix, l: nat, i: nat, k: nat)
    requires Square(m0, l) && Square(m, l) && i < l && k < l
  {
    m[i][k] < m0[i][k] || m[k][i] < m0[k][i]
  }

  // While the distances back are the same, nothing falls below its distance, and a pair is as it was
  // until it is touched.
  ghost predicate Above(m0: Matrix, m: Matrix, l: nat) {
    && Square(m0, l) && Square(m, l)
    && forall i, k :: 0 <= i < l && 0 <= k < l && i != k ==>
         && Dist(m0, l, i, k) <= m[i][k]
         && (Touched(m0, m, l, i, k) ==> m[i][k] == m[k][i] && Dist(m0, l, i, k) == Dist(m0, l, k, i))
         && (!Touched(m0, m, l, i, k) ==> m[i][k] == m0[i][k])
  }

  ghost predicate AllPaired(m0: Matrix, m: Matrix, l: nat) {
    && Square(m0, l) && Square(m, l)
    && forall i, k :: 0 <= i < l && 0 <= k < l ==> Paired(m0, m, l, i, k)
  }

  lemma RelaxKeepsPaired(m0: Matrix, m: Matrix, l: nat, i: nat, j: nat, k: nat)
    requires AllPaired(m0, m, l) && i < l && j < l && k < l
    ensures AllPaired(m0, Relax(m, l, i, j, k), l)
  {
    hide Set;
    var m' := Relax(m, l, i, j, k);
    forall a, b | 0 <= a < l && 0 <= b < l
      ensures Paired(m0, m', l, a, b)
    {
      assert Paired(m0, m, l, a, b);
    }
  }

  lemma {:induction false} RunKeepsPaired(m0: Matrix, m: Matrix, l: nat, ts: seq<Triple>)
    requires AllPaired(m0, m, l) && InRange(l, ts)
    ensures AllPaired(m0, RelaxAll(m, l, ts), l)
  {
    hide Paired, Relax;
    if ts != [] {
      var t := ts[|ts| - 1];
      RunKeepsPaired(m0, m, l, ts[..|ts| - 1]);
      RelaxKeepsPaired(m0, RelaxAll(m, l, ts[..|ts| - 1]), l, t.i, t.j, t.k);
    }
  }

  lemma {:induction false} IterateKeepsPaired(m0: Matrix, m: Matrix, l: nat)
    requires AllPaired(m0, m, l)
    ensures AllPaired(m0, Iterate(m, l), l)
    decreases Skewed(m, l), Total(m)
  {
    hide Paired, Total, Skewed, RelaxAll, Outer;
    PassProgresses(m, l);
    if Pass(m, l) != m {
      OuterInRange(l, l);
      RunKeepsPaired(m0, m, l, Outer(l, l));
      IterateKeepsPaired(m0, Pass(m, l), l);
    }
  }

  // If the result holds all distances, then every detour had to be as short on the way back.
  lemma DistancesNeedMirrored(m: Matrix, l: nat)
    requires Square(m, l) && AllDistances(m, l, Iterate(m, l))
    ensures Mirrored(m, l)
  {
    hide Iterate, Dist, IsDistance;
    IterateKeepsPaired(m, m, l);
    forall i, k | 0 <= i < l && 0 <= k < l && i != k && Dist(m, l, i, k) < m[i][k]
      ensures Dist(m, l, k, i) == Dist(m, l, i, k)
    {
      var r := Iterate(m, l);
      DistIsUnique(m, l, i, k, r[i][k]);
      DistIsUnique(m, l, k, i, r[k][i]);
      assert Paired(m, r, l, i, k);
    }
  }

  lemma RelaxKeepsAbove(m0: Matrix, m: Matrix, l: nat, i: nat, j: nat, k: nat)
    requires Above(m0, m, l) && Mirrored(m0, l) && i < l && j < l && k < l
    ensures Above(m0, Relax(m, l, i, j, k), l)
  {
    hide Dist, Set, IsDistance;
    if !Tight(m, l, i, j, k) {
      DistTriangle(m0, l, i, j, k);
    }
  }

  lemma {:induction false} RunKeepsAbove(m0: Matrix, m: Matrix, l: nat, ts: seq<Triple>)
    requires Above(m0, m, l) && Mirrored(m0, l) && InRange(l, ts)
    ensures Above(m0, RelaxAll(m, l, ts), l)
  {
    AboveIsSquare(m0, m, l);
    hide Above, Mirrored, Relax;
    if ts != [] {
      var t := ts[|ts| - 1];
      RunKeepsAbove(m0, m, l, ts[..|ts| - 1]);
      RelaxKeepsAbove(m0, RelaxAll(m, l, ts[..|ts| - 1]), l, t.i, t.j, t.k);
    }
  }

  lemma AboveIsSquare(m0: Matrix, m: Matrix, l: nat)
    requires Above(m0, m, l)
    ensures Square(m0, l) && Square(m, l)
  {
  }

  lemma {:induction false} IterateKeepsAbove(m0: Matrix, m: Matrix, l: nat)
    requires Above(m0, m, l) && Mirrored(m0, l)
    ensures Above(m0, Iterate(m, l), l)
    decreases Skewed(m, l), Total(m)
  {
    AboveIsSquare(m0, m, l);
    hide Above, Mirrored, Total, Skewed, RelaxAll, Outer;
    PassProgresses(m, l);
    if Pass(m, l) != m {
      OuterInRange(l, l);
      RunKeepsAbove(m0, m, l, Outer(l, l));
      IterateKeepsAbove(m0, Pass(m, l), l);
    }
  }

  // A distance below the edge goes through a third node.
  lemma Detour(m: Matrix, l: nat, i: nat, k: nat) returns (c: nat)
    requires Square(m, l) && i < l && k < l && i != k && Dist(m, l, i, k) < m[i][k]
    ensures c < l && c != i && c != k
    ensures Dist(m, l, i, c) + Dist(m, l, c, k) == Dist(m, l, i, k)
  {
    hide Dist;
    var p := ShortestWalk(m, l, i, k);
    var n := |p| - 1;
    WeightStep(m, l, p);
    c := p[n - 1];
    hide Weight;
    if c != i {
      assert Walk(p[..n], i, c, l);
      DistTriangle(m, l, i, c, k);
    }
  }

  // ---------- The part of a pass that belongs to one node ----------

  predicate AllOf(i: nat, ts: seq<Triple>) {
    forall n :: 0 <= n < |ts| ==> ts[n].i == i && ts[n].j != i && ts[n].k != i && ts[n].j != ts[n].k
  }

  lemma {:induction false} InnerIsOf(i: nat, j: nat, k: nat)
    requires i != j
    ensures AllOf(i, Inner(i, j, k))
  {
    if k > 0 {
      InnerIsOf(i, j, k - 1);
    }
  }

  lemma {:induction false} MiddleIsOf(l: nat, i: nat, j: nat)
    ensures AllOf(i, Middle(l, i, j))
  {
    hide Inner;
    if j > 0 {
      MiddleIsOf(l, i, j - 1);
      if i != j - 1 {
        InnerIsOf(i, j - 1, l);
      }
    }
  }

  // While node i is being served only its pairs change, its own row only falls, and the pairs touched
  // first are touched from its side.
  ghost predicate Served(m0: Matrix, m: Matrix, m': Matrix, l: nat, i: nat)
    requires i < l
  {
    && Above(m0, m, l) && Above(m0, m', l)
    && (forall a, b :: 0 <= a < l && 0 <= b < l && a != i && b != i ==> m'[a][b] == m[a][b])
    && (forall b :: 0 <= b < l && b != i ==> m'[i][b] <= m[i][b])
    && (forall b :: 0 <= b < l && b != i && Touched(m0, m, l, i, b) ==> m'[b][i] <= m[b][i])
    && (forall b :: 0 <= b < l && b != i && !Touched(m0, m, l, i, b) && Touched(m0, m', l, i, b) ==> m'[i][b] < m0[i][b])
  }

  lemma ServeStep(m0: Matrix, m: Matrix, m': Matrix, l: nat, i: nat, j: nat, k: nat)
    requires i < l && Served(m0, m, m', l, i) && Mirrored(m0, l) && j < l && k < l && j != i && k != i && j != k
    ensures Served(m0, m, Relax(m', l, i, j, k), l, i)
    ensures Relax(m', l, i, j, k)[i][k] <= m'[i][j] + m'[j][k]
  {
    hide Dist, IsDistance, Set, Mirrored;
    RelaxKeepsAbove(m0, m', l, i, j, k);
  }

  lemma {:induction false} ServeAll(m0: Matrix, m: Matrix, l: nat, i: nat, ts: seq<Triple>)
    requires Above(m0, m, l) && Mirrored(m0, l) && i < l && InRange(l, ts) && AllOf(i, ts)
    ensures Square(m, l) && Served(m0, m, RelaxAll(m, l, ts), l, i)
  {
    AboveIsSquare(m0, m, l);
    hide Relax, Mirrored;
    if ts != [] {
      var t := ts[|ts| - 1];
      ServeAll(m0, m, l, i, ts[..|ts| - 1]);
      hide Served, Above;
      ServeStep(m0, m, RelaxAll(m, l, ts[..|ts| - 1]), l, i, t.j, t.k);
    } else {
      hide Above;
    }
  }

  // A zero entry is never written: that would make the way back zero as well.
  lemma ZeroStays(m0: Matrix, m: Matrix, l: nat, a: nat, b: nat)
    requires Above(m0, m, l) && NoHiddenZeros(m0, l) && a < l && b < l && a != b && m0[a][b] == 0
    ensures m[a][b] == 0 && !Touched(m0, m, l, a, b)
  {
    hide Dist, IsDistance;
    assert Dist(m0, l, a, b) <= m0[a][b];
  }

  // An entry at its distance is not touched from its own side.
  lemma ShortStays(m0: Matrix, m: Matrix, m': Matrix, l: nat, i: nat, a: nat)
    requires i < l && Served(m0, m, m', l, i) && a < l && a != i && !Touched(m0, m, l, i, a)
    requires m0[i][a] == Dist(m0, l, i, a)
    ensures m'[i][a] == m0[i][a]
  {
    hide Dist, IsDistance;
  }

  // The two-step ways that node i takes while it is served: an edge at its distance and then a zero, or a
  // zero and then an edge that has not been touched.
  lemma {:induction false} ServesWays(m0: Matrix, m: Matrix, l: nat, i: nat, ts: seq<Triple>, a: nat, b: nat)
    requires Above(m0, m, l) && Mirrored(m0, l) && NoHiddenZeros(m0, l) && i < l && InRange(l, ts) && AllOf(i, ts)
    requires Triple(i, a, b) in ts
    ensures Square(m, l) && a < l && b < l && i != a && i != b && a != b
    ensures m0[i][a] == Dist(m0, l, i, b) && m0[a][b] == 0 && !Touched(m0, m, l, i, a)
            ==> RelaxAll(m, l, ts)[i][b] <= Dist(m0, l, i, b)
    ensures m0[i][a] == 0 && m0[a][b] == Dist(m0, l, i, b) && !Touched(m0, m, l, a, b)
            ==> RelaxAll(m, l, ts)[i][b] <= Dist(m0, l, i, b)
  {
    hide Dist, IsDistance, Mirrored, NoHiddenZeros, Relax;
    var n := |ts| - 1;
    var before := RelaxAll(m, l, ts[..n]);
    AboveIsSquare(m0, m, l);
    ServeAll(m0, m, l, i, ts[..n]);
    ServeStep(m0, m, before, l, i, ts[n].j, ts[n].k);
    RowFalls(m0, before, l, i, ts[n].j, ts[n].k);
    if ts[n] != Triple(i, a, b) {
      assert Triple(i, a, b) in ts[..n] by { assert ts == ts[..n] + [ts[n]]; }
      hide Served, Above;
      ServesWays(m0, m, l, i, ts[..n], a, b);
    } else {
      WayTaken(m0, m, before, l, i, a, b);
    }
  }

  lemma RowFalls(m0: Matrix, m: Matrix, l: nat, i: nat, j: nat, k: nat)
    requires Above(m0, m, l) && Square(m, l) && i < l && j < l && k < l
    ensures forall b :: 0 <= b < l && b != i ==> Relax(m, l, i, j, k)[i][b] <= m[i][b]
  {
    hide Above, Set;
  }

  lemma WayTaken(m0: Matrix, m: Matrix, m': Matrix, l: nat, i: nat, a: nat, b: nat)
    requires i < l && Served(m0, m, m', l, i) && NoHiddenZeros(m0, l) && a < l && b < l && i != a && i != b && a != b
    ensures m0[i][a] == Dist(m0, l, i, b) && m0[a][b] == 0 && !Touched(m0, m, l, i, a)
            ==> m'[i][a] + m'[a][b] <= Dist(m0, l, i, b)
    ensures m0[i][a] == 0 && m0[a][b] == Dist(m0, l, i, b) && !Touched(m0, m, l, a, b)
            ==> m'[i][a] + m'[a][b] <= Dist(m0, l, i, b)
  {
    hide Dist, IsDistance;
    if m0[i][a] == Dist(m0, l, i, b) && m0[a][b] == 0 && !Touched(m0, m, l, i, a) {
      ZeroStays(m0, m', l, a, b);
      DistTriangle(m0, l, i, a, b);
      assert Dist(m0, l, a, b) <= m0[a][b] && Dist(m0, l, i, a) <= m0[i][a];
      ShortStays(m0, m, m', l, i, a);
    }
    if m0[i][a] == 0 {
      ZeroStays(m0, m', l, i, a);
    }
  }

  // ---------- The run as a history, one node served at a time ----------

  ghost predicate ServedBy(m: Matrix, m': Matrix, l: nat, i: nat) {
    && i < l && Square(m, l) && InRange(l, Middle(l, i, l))
    && m' == RelaxAll(m, l, Middle(l, i, l))
  }

  ghost predicate OneServed(m: Matrix, m': Matrix, l: nat) {
    exists i :: ServedBy(m, m', l, i)
  }

  ghost predicate History(hs: seq<Matrix>, l: nat) {
    hs != [] && forall t :: 0 < t < |hs| ==> OneServed(hs[t - 1], hs[t], l)
  }

  // The triples of one node, after those of the nodes before
  lemma NextBlock(m: Matrix, l: nat, i: nat)
    requires Square(m, l) && i < l
    ensures InRange(l, Middle(l, i, l)) && InRange(l, Outer(l, i)) && InRange(l, Outer(l, i + 1))
    ensures RelaxAll(m, l, Outer(l, i + 1)) == RelaxAll(RelaxAll(m, l, Outer(l, i)), l, Middle(l, i, l))
  {
    hide RelaxAll, Middle;
    MiddleInRange(l, i, l);
    OuterInRange(l, i);
    RelaxAllAppend(m, l, Outer(l, i), Middle(l, i, l));
  }

  lemma HistoryJoins(x: seq<Matrix>, y: seq<Matrix>, l: nat)
    requires History(x, l) && History(y, l) && x[|x| - 1] == y[0]
    ensures History(x + y[1..], l) && (x + y[1..])[|x| + |y| - 2] == y[|y| - 1]
  {
    hide OneServed;
    var hs := x + y[1..];
    forall t | 0 < t < |hs|
      ensures OneServed(hs[t - 1], hs[t], l)
    {
      if t < |x| {
        assert hs[t - 1] == x[t - 1] && hs[t] == x[t];
      } else {
        assert hs[t - 1] == y[t - |x|] && hs[t] == y[t - |x| + 1];
      }
    }
  }

  lemma {:induction false} PassHistory(m: Matrix, l: nat, n: nat) returns (hs: seq<Matrix>)
    requires Square(m, l) && n <= l
    ensures InRange(l, Outer(l, n))
    ensures History(hs, l) && hs[0] == m && hs[|hs| - 1] == RelaxAll(m, l, Outer(l, n))
  {
    hide RelaxAll, Middle, Outer;
    OuterInRange(l, n);
    if n == 0 {
      NoTriples(m, l);
      hs := [m];
    } else {
      hs := PassHistory(m, l, n - 1);
      NextBlock(m, l, n - 1);
      var m1 := RelaxAll(m, l, Outer(l, n - 1));
      var m2 := RelaxAll(m, l, Outer(l, n));
      assert ServedBy(m1, m2, l, n - 1);
      hide ServedBy;
      assert OneServed(m1, m2, l);
      hide OneServed;
      assert History([m1, m2], l);
      HistoryJoins(hs, [m1, m2], l);
      hs := hs + [m1, m2][1..];
    }
  }

  lemma NoTriples(m: Matrix, l: nat)
    requires Square(m, l)
    ensures Outer(l, 0) == [] && RelaxAll(m, l, []) == m
  {
  }

  lemma {:induction false} IterateHistory(m: Matrix, l: nat) returns (hs: seq<Matrix>)
    requires Square(m, l)
    ensures History(hs, l) && hs[0] == m && hs[|hs| - 1] == Iterate(m, l)
    decreases Skewed(m, l), Total(m)
  {
    hide Total, Skewed, RelaxAll, Outer, OneServed;
    PassProgresses(m, l);
    if Pass(m, l) == m {
      hs := [m];
    } else {
      var x := PassHistory(m, l, l);
      var y := IterateHistory(Pass(m, l), l);
      HistoryJoins(x, y, l);
      hs := x + y[1..];
    }
  }

  // A history of a matrix whose detours are as short on the way back
  ghost predicate Chronicle(m0: Matrix, l: nat, hs: seq<Matrix>) {
    && Square(m0, l) && Mirrored(m0, l) && NoHiddenZeros(m0, l)
    && History(hs, l) && hs[0] == m0
    && forall t :: 0 <= t < |hs| ==> Above(m0, hs[t], l)
  }

  lemma HistoryPrefix(hs: seq<Matrix>, l: nat)
    requires History(hs, l) && |hs| > 1
    ensures History(hs[..|hs| - 1], l)
  {
    hide OneServed;
  }

  lemma {:induction false} HistoryStaysAbove(m0: Matrix, l: nat, hs: seq<Matrix>)
    requires Square(m0, l) && Mirrored(m0, l) && History(hs, l) && hs[0] == m0
    ensures forall t :: 0 <= t < |hs| ==> Above(m0, hs[t], l)
  {
    hide Above, Mirrored, RelaxAll, Middle;
    StartsAbove(m0, l);
    if |hs| > 1 {
      var n := |hs| - 1;
      HistoryPrefix(hs, l);
      HistoryStaysAbove(m0, l, hs[..n]);
      assert forall t :: 0 <= t < n ==> hs[..n][t] == hs[t];
      assert OneServed(hs[n - 1], hs[n], l);
      hide History;
      var i :| ServedBy(hs[n - 1], hs[n], l, i);
      RunKeepsAbove(m0, hs[n - 1], l, Middle(l, i, l));
    }
  }

  lemma StartsAbove(m: Matrix, l: nat)
    requires Square(m, l)
    ensures Above(m, m, l)
  {
    hide IsDistance;
  }

  lemma StepServes(m0: Matrix, l: nat, hs: seq<Matrix>, t: nat) returns (i: nat)
    requires Chronicle(m0, l, hs) && 0 < t < |hs|
    ensures i < l && ServedBy(hs[t - 1], hs[t], l, i) && Served(m0, hs[t - 1], hs[t], l, i)
  {
    hide RelaxAll, Middle, Served, Mirrored, NoHiddenZeros, Above;
    assert OneServed(hs[t - 1], hs[t], l);
    i :| ServedBy(hs[t - 1], hs[t], l, i);
    MiddleIsOf(l, i, l);
    ServeAll(m0, hs[t - 1], l, i, Middle(l, i, l));
  }

  // Once a pair is touched it stays so, and its entry only falls.
  lemma {:induction false} LastFalls(m0: Matrix, l: nat, hs: seq<Matrix>, t: nat, x: nat, y: nat)
    requires Chronicle(m0, l, hs) && t < |hs| && x < l && y < l && x != y && Square(hs[t], l)
    requires Touched(m0, hs[t], l, x, y)
    ensures Square(hs[|hs| - 1], l)
    ensures Touched(m0, hs[|hs| - 1], l, x, y) && hs[|hs| - 1][x][y] <= hs[t][x][y]
    decreases |hs| - t
  {
    hide Mirrored, NoHiddenZeros, ServedBy, OneServed, Dist, IsDistance, Served;
    if t + 1 < |hs| {
      var i := StepServes(m0, l, hs, t + 1);
      TouchedFalls(m0, hs[t], hs[t + 1], l, i, x, y);
      LastFalls(m0, l, hs, t + 1, x, y);
    }
  }

  lemma TouchedFalls(m0: Matrix, m: Matrix, m': Matrix, l: nat, i: nat, x: nat, y: nat)
    requires i < l && Served(m0, m, m', l, i) && x < l && y < l && x != y && Touched(m0, m, l, x, y)
    ensures Touched(m0, m', l, x, y) && m'[x][y] <= m[x][y]
  {
    hide Dist, IsDistance;
  }

  // A pair is touched first from the side of the node that is served.
  lemma FirstTouch(m0: Matrix, m: Matrix, m': Matrix, l: nat, i: nat, x: nat, y: nat)
    requires i < l && Served(m0, m, m', l, i) && x < l && y < l && x != y
    requires !Touched(m0, m, l, x, y) && Touched(m0, m', l, x, y)
    ensures (i == x && m'[x][y] < m0[x][y]) || (i == y && m'[y][x] < m0[y][x])
  {
    hide Dist, IsDistance;
  }

  // ---------- The last matrix is at the distances ----------

  lemma {:induction false} ClosedBelowOwnWalks(m: Matrix, l: nat, p: seq<nat>, i: nat, k: nat)
    requires Square(m, l) && Closed(m, l) && Walk(p, i, k, l) && i != k
    ensures m[i][k] <= Weight(m, l, p)
    decreases |p|
  {
    var n := |p| - 1;
    var j := p[n - 1];
    WeightStep(m, l, p);
    hide Weight;
    if j != i {
      ClosedBelowOwnWalks(m, l, p[..n], i, j);
      assert Tight(m, l, i, j, k);
    }
  }

  lemma {:induction false} WeightSplit(m: Matrix, l: nat, p: seq<nat>, t: nat)
    requires Square(m, l) && t < |p| && forall n :: 0 <= n < |p| ==> p[n] < l
    ensures Weight(m, l, p) == Weight(m, l, p[..t + 1]) + Weight(m, l, p[t..])
    decreases |p|
  {
    var n := |p| - 1;
    if t == n {
      assert p[..t + 1] == p;
    } else {
      WeightSplit(m, l, p[..n], t);
      assert p[..n][..t + 1] == p[..t + 1] && p[t..][..n - t] == p[..n][t..];
    }
  }

  // A walk that weighs more than it did has an edge that does.
  lemma {:induction false} HeavierEdge(m0: Matrix, m: Matrix, l: nat, p: seq<nat>) returns (t: nat)
    requires Square(m0, l) && Square(m, l) && forall n :: 0 <= n < |p| ==> p[n] < l
    requires Weight(m, l, p) > Weight(m0, l, p)
    ensures t + 1 < |p| && m[p[t]][p[t + 1]] > m0[p[t]][p[t + 1]]
  {
    var n := |p| - 1;
    if m[p[n - 1]][p[n]] > m0[p[n - 1]][p[n]] {
      t := n - 1;
    } else {
      t := HeavierEdge(m0, m, l, p[..n]);
    }
  }

  // What is below a distance is at its own.
  ghost predicate SettledBelow(m0: Matrix, m: Matrix, l: nat, d: nat)
    requires Square(m0, l) && Square(m, l)
  {
    forall a, b :: 0 <= a < l && 0 <= b < l && a != b && Dist(m0, l, a, b) < d ==> m[a][b] == Dist(m0, l, a, b)
  }

  lemma WalkWeighs(m: Matrix, l: nat, p: seq<nat>, i: nat, k: nat)
    requires Square(m, l) && i < l && k < l && i != k && Walk(p, i, k, l)
    ensures Dist(m, l, i, k) <= Weight(m, l, p)
  {
    hide Dist, Weight;
  }

  // An edge at distance 0 is a zero.
  lemma ZeroEdge(m: Matrix, l: nat, i: nat, k: nat)
    requires Square(m, l) && Mirrored(m, l) && NoHiddenZeros(m, l) && i < l && k < l && i != k && Dist(m, l, i, k) == 0
    ensures m[i][k] == 0
  {
    hide Dist;
  }

  // A part of a walk that weighs nothing joins nodes that are the same or joined by a zero.
  lemma ZeroPart(m: Matrix, l: nat, p: seq<nat>)
    requires Square(m, l) && Mirrored(m, l) && NoHiddenZeros(m, l)
    requires p != [] && (forall n :: 0 <= n < |p| ==> p[n] < l) && (forall n :: 0 <= n < |p| - 1 ==> p[n] != p[n + 1])
    requires Weight(m, l, p) == 0
    ensures p[0] == p[|p| - 1] || m[p[0]][p[|p| - 1]] == 0
  {
    hide Dist, Weight, Mirrored, NoHiddenZeros;
    if p[0] != p[|p| - 1] {
      WalkWeighs(m, l, p, p[0], p[|p| - 1]);
      ZeroEdge(m, l, p[0], p[|p| - 1]);
    }
  }

  // If an entry with a detour stays above its distance, so does an edge on the way: one that weighs the
  // whole distance, with zeros before and after.
  lemma HeldUp(m0: Matrix, m: Matrix, l: nat, x: nat, y: nat) returns (p: nat, q: nat)
    requires Above(m0, m, l) && Closed(m, l) && Mirrored(m0, l) && NoHiddenZeros(m0, l) && x < l && y < l && x != y
    requires Dist(m0, l, x, y) < m0[x][y] && Dist(m0, l, x, y) < m[x][y] && SettledBelow(m0, m, l, Dist(m0, l, x, y))
    ensures p < l && q < l && p != q && (p != x || q != y)
    ensures m0[p][q] == Dist(m0, l, x, y) == Dist(m0, l, p, q) < m[p][q]
    ensures p == x || m0[x][p] == 0
    ensures q == y || m0[q][y] == 0
  {
    hide Dist, IsDistance, Mirrored, NoHiddenZeros, Above, Weight;
    AboveIsSquare(m0, m, l);
    var w := ShortestWalk(m0, l, x, y);
    ClosedBelowOwnWalks(m, l, w, x, y);
    var t := HeavierEdge(m0, m, l, w);
    p, q := w[t], w[t + 1];
    assert Dist(m0, l, p, q) <= m0[p][q];
    hide Closed;
    EdgeOfWalk(m0, l, w, t);
    ZeroPart(m0, l, w[..t + 1]);
    ZeroPart(m0, l, w[t + 1..]);
  }

  lemma EdgeOfWalk(m: Matrix, l: nat, p: seq<nat>, t: nat)
    requires Square(m, l) && t + 1 < |p| && forall n :: 0 <= n < |p| ==> p[n] < l
    ensures Weight(m, l, p) == Weight(m, l, p[..t + 1]) + m[p[t]][p[t + 1]] + Weight(m, l, p[t + 1..])
  {
    hide Weight;
    WeightSplit(m, l, p, t);
    WeightSplit(m, l, p[t..], 1);
    assert p[t..][..2] == [p[t], p[t + 1]] && p[t..][1..] == p[t + 1..];
    WeightStep(m, l, [p[t], p[t + 1]]);
  }

  // The ways of `ServesWays`, at step t of a history
  lemma WaysServed(m0: Matrix, l: nat, hs: seq<Matrix>, t: nat, x: nat, a: nat, b: nat)
    requires Chronicle(m0, l, hs) && 0 < t < |hs| && ServedBy(hs[t - 1], hs[t], l, x)
    requires a < l && b < l && x != a && x != b && a != b
    ensures Square(hs[t - 1], l) && Square(hs[t], l)
    ensures m0[x][a] == Dist(m0, l, x, b) && m0[a][b] == 0 && !Touched(m0, hs[t - 1], l, x, a)
            ==> hs[t][x][b] <= Dist(m0, l, x, b)
    ensures m0[x][a] == 0 && m0[a][b] == Dist(m0, l, x, b) && !Touched(m0, hs[t - 1], l, a, b)
            ==> hs[t][x][b] <= Dist(m0, l, x, b)
  {
    hide RelaxAll, Middle, Mirrored, NoHiddenZeros, Above, Dist, IsDistance, History;
    assert Above(m0, hs[t - 1], l);
    MiddleIsOf(l, x, l);
    MiddleInRange(l, x, l);
    assert Triple(x, a, b) in Middle(l, x, l);
    ServesWays(m0, hs[t - 1], l, x, Middle(l, x, l), a, b);
  }

  ghost predicate Ends(m0: Matrix, l: nat, hs: seq<Matrix>, m: Matrix) {
    Chronicle(m0, l, hs) && m == hs[|hs| - 1] && Square(m, l) && Closed(m, l)
  }

  // No pair that was touched is left above its distance. It was touched first while one of its nodes was
  // served; what holds it up can only be an edge that had been touched before.
  lemma {:induction false} TouchedArrives(m0: Matrix, l: nat, hs: seq<Matrix>, m: Matrix, t: nat, x: nat, y: nat)
    requires Ends(m0, l, hs, m) && t < |hs| && x < l && y < l && x != y
    requires Square(hs[t], l) && Touched(m0, hs[t], l, x, y) && SettledBelow(m0, m, l, Dist(m0, l, x, y))
    ensures m[x][y] <= Dist(m0, l, x, y)
    decreases t, 2
  {
    hide Dist, IsDistance, Mirrored, NoHiddenZeros, Closed, SettledBelow, History, ServedBy, Served;
    LastFalls(m0, l, hs, t, x, y);
    assert Above(m0, m, l);
    if t > 0 {
      assert Above(m0, hs[t - 1], l);
      if Touched(m0, hs[t - 1], l, x, y) {
        TouchedArrives(m0, l, hs, m, t - 1, x, y);
      } else {
        var i := StepServes(m0, l, hs, t);
        FirstTouch(m0, hs[t - 1], hs[t], l, i, x, y);
        if i == x && hs[t][x][y] < m0[x][y] {
          FirstArrives(m0, l, hs, m, t, x, y);
        } else {
          FirstArrives(m0, l, hs, m, t, y, x);
        }
      }
    }
  }

  lemma {:induction false} FirstArrives(m0: Matrix, l: nat, hs: seq<Matrix>, m: Matrix, t: nat, x: nat, y: nat)
    requires Ends(m0, l, hs, m) && 0 < t < |hs| && x < l && y < l && x != y
    requires ServedBy(hs[t - 1], hs[t], l, x) && Square(hs[t], l) && hs[t][x][y] < m0[x][y]
    requires SettledBelow(m0, m, l, Dist(m0, l, x, y))
    ensures m[x][y] <= Dist(m0, l, x, y)
    decreases t, 1
  {
    hide Dist, IsDistance, Mirrored, NoHiddenZeros, SettledBelow, History, ServedBy;
    assert Above(m0, m, l) && Above(m0, hs[t], l);
    if m[x][y] > Dist(m0, l, x, y) {
      var p, q := HeldUp(m0, m, l, x, y);
      if p == x {
        ByEdge(m0, l, hs, m, t, x, q, y);
      } else if q == y {
        ByZero(m0, l, hs, m, t, x, p, q);
      } else {
        ZeroStays(m0, m, l, q, y);
        DistTriangle(m0, l, x, p, q);
        DistTriangle(m0, l, x, q, y);
        assert Dist(m0, l, x, p) <= m0[x][p] && Dist(m0, l, q, y) <= m0[q][y];
        assert Tight(m, l, x, q, y);
        hide Closed;
        if m0[x][q] == Dist(m0, l, x, y) {
          ByEdge(m0, l, hs, m, t, x, q, y);
        } else {
          ByZero(m0, l, hs, m, t, x, p, q);
        }
      }
    }
  }

  // An edge of the whole distance and then a zero: taken while x is served, unless the edge was touched
  // before.
  lemma {:induction false} ByEdge(m0: Matrix, l: nat, hs: seq<Matrix>, m: Matrix, t: nat, x: nat, q: nat, y: nat)
    requires Ends(m0, l, hs, m) && 0 < t < |hs| && x < l && y < l && q < l && x != y && q != x && q != y
    requires ServedBy(hs[t - 1], hs[t], l, x) && Square(hs[t], l) && hs[t][x][y] < m0[x][y]
    requires m0[x][q] == Dist(m0, l, x, y) == Dist(m0, l, x, q) && m0[q][y] == 0
    requires SettledBelow(m0, m, l, Dist(m0, l, x, y))
    ensures m[x][y] <= Dist(m0, l, x, y) || m[x][q] <= Dist(m0, l, x, y)
    decreases t, 0
  {
    hide Dist, IsDistance, Mirrored, NoHiddenZeros, SettledBelow, History, ServedBy, Closed;
    WaysServed(m0, l, hs, t, x, q, y);
    if Touched(m0, hs[t - 1], l, x, q) {
      TouchedArrives(m0, l, hs, m, t - 1, x, q);
    } else {
      LastFalls(m0, l, hs, t, x, y);
    }
  }

  // A zero and then an edge of the whole distance, likewise
  lemma {:induction false} ByZero(m0: Matrix, l: nat, hs: seq<Matrix>, m: Matrix, t: nat, x: nat, p: nat, q: nat)
    requires Ends(m0, l, hs, m) && 0 < t < |hs| && x < l && p < l && q < l && x != p && q != x && p != q
    requires ServedBy(hs[t - 1], hs[t], l, x) && Square(hs[t], l)
    requires m0[x][p] == 0 && m0[p][q] == Dist(m0, l, p, q) == Dist(m0, l, x, q) < m0[x][q]
    requires SettledBelow(m0, m, l, Dist(m0, l, x, q))
    ensures m[x][q] <= Dist(m0, l, x, q) || m[p][q] <= Dist(m0, l, x, q)
    decreases t, 0
  {
    hide Dist, IsDistance, Mirrored, NoHiddenZeros, SettledBelow, History, ServedBy, Closed;
    WaysServed(m0, l, hs, t, x, p, q);
    if Touched(m0, hs[t - 1], l, p, q) {
      TouchedArrives(m0, l, hs, m, t - 1, p, q);
    } else {
      LastFalls(m0, l, hs, t, x, q);
    }
  }

  // By the distance: what is below is settled, so nothing is held up.
  lemma {:induction false} Arrives(m0: Matrix, l: nat, hs: seq<Matrix>, m: Matrix, x: nat, y: nat)
    requires Ends(m0, l, hs, m) && x < l && y < l && x != y
    ensures m[x][y] == Dist(m0, l, x, y)
    decreases Dist(m0, l, x, y)
  {
    hide Dist, IsDistance, Mirrored, NoHiddenZeros, Closed, OneServed;
    assert Above(m0, m, l);
    forall a, b | 0 <= a < l && 0 <= b < l && a != b && Dist(m0, l, a, b) < Dist(m0, l, x, y)
      ensures m[a][b] == Dist(m0, l, a, b)
    {
      Arrives(m0, l, hs, m, a, b);
    }
    var n := |hs| - 1;
    if Touched(m0, m, l, x, y) {
      TouchedArrives(m0, l, hs, m, n, x, y);
    } else if Dist(m0, l, x, y) < m0[x][y] {
      var p, q := HeldUp(m0, m, l, x, y);
      TouchedArrives(m0, l, hs, m, n, p, q);
    }
  }

  lemma MirroredGivesDistances(m: Matrix, l: nat)
    requires Square(m, l) && Mirrored(m, l) && NoHiddenZeros(m, l)
    ensures AllDistances(m, l, Iterate(m, l))
  {
    hide Iterate, Dist, IsDistance, Closed, Mirrored, NoHiddenZeros, History, Above;
    var hs := IterateHistory(m, l);
    HistoryStaysAbove(m, l, hs);
    IterateCloses(m, l);
    forall i, k | 0 <= i < l && 0 <= k < l && i != k
      ensures IsDistance(m, l, i, k, Iterate(m, l)[i][k])
    {
      Arrives(m, l, hs, Iterate(m, l), i, k);
      DistIsUnique(m, l, i, k, Iterate(m, l)[i][k]);
    }
  }

  // When the result holds all distances: as long as nodes at distance 0 both ways are joined by zeros,
  // exactly when every detour is as short on the way back. Otherwise that is still needed, and
  // `ZeroExample` shows that it is not enough; symmetric matrices need no condition.
  lemma DistancesIff(m: Matrix, l: nat)
    requires Square(m, l)
    ensures AllDistances(m, l, Iterate(m, l)) ==> Mirrored(m, l)
    ensures NoHiddenZeros(m, l) ==> (AllDistances(m, l, Iterate(m, l)) <==> Mirrored(m, l))
    ensures Symmetric(m, l) ==> AllDistances(m, l, Iterate(m, l))
  {
    hide Iterate, AllDistances, Mirrored, NoHiddenZeros, Symmetric;
    if AllDistances(m, l, Iterate(m, l)) {
      DistancesNeedMirrored(m, l);
    }
    if Mirrored(m, l) && NoHiddenZeros(m, l) {
      MirroredGivesDistances(m, l);
    }
    if Symmetric(m, l) {
      SymmetricGivesDistances(m, l);
    }
  }

  ghost predicate Positive(m: Matrix, l: nat)
    requires Square(m, l)
  {
    forall i, k :: 0 <= i < l && 0 <= k < l && i != k ==> m[i][k] > 0
  }

  lemma {:induction false} WeightIsPositive(m: Matrix, l: nat, p: seq<nat>, i: nat, k: nat)
    requires Square(m, l) && Positive(m, l) && Walk(p, i, k, l)
    ensures Weight(m, l, p) >= |p| - 1
    decreases |p|
  {
    var n := |p| - 1;
    if n >= 2 {
      WeightIsPositive(m, l, p[..n], i, p[n - 1]);
    }
    assert m[p[n - 1]][p[n]] > 0;
  }

  lemma DistIsPositive(m: Matrix, l: nat, i: nat, k: nat)
    requires Square(m, l) && Positive(m, l) && i < l && k < l && i != k
    ensures Dist(m, l, i, k) > 0
  {
    hide Dist;
    var p := ShortestWalk(m, l, i, k);
    WeightIsPositive(m, l, p, i, k);
  }

  // Two nodes at distance 0 both ways need a zero between different nodes.
  lemma PositiveHasNoHiddenZeros(m: Matrix, l: nat)
    requires Square(m, l) && Positive(m, l)
    ensures NoHiddenZeros(m, l)
  {
    hide Dist, Positive;
    forall i, k | 0 <= i < l && 0 <= k < l && i != k
      ensures Dist(m, l, i, k) > 0
    {
      DistIsPositive(m, l, i, k);
    }
  }
}
