/**
 What iterateDM of src/Common/Utils.cc computes, on values: a distance matrix is relaxed until a whole
 pass changes nothing. That ends on every matrix, and on a symmetric one with the matrix of shortest
 walks.
 */
module ShortestPaths {

  type Matrix = seq<seq<nat>>

  predicate Square(m: Matrix, l: nat) {
    |m| == l && forall i :: 0 <= i < l ==> |m[i]| == l
  }

  predicate Symmetric(m: Matrix, l: nat)
    requires Square(m, l)
  {
    forall i, k :: 0 <= i < l && 0 <= k < l ==> m[i][k] == m[k][i]
  }

  // ---------- Walks ----------

  // A walk has at least one edge and never stays at a node.
  ghost predicate Walk(p: seq<nat>, i: nat, k: nat, l: nat) {
    && |p| >= 2 && p[0] == i && p[|p| - 1] == k
    && (forall t :: 0 <= t < |p| ==> p[t] < l)
    && (forall t :: 0 <= t < |p| - 1 ==> p[t] != p[t + 1])
  }

  function Weight(m: Matrix, l: nat, p: seq<nat>): nat
    requires Square(m, l) && forall t :: 0 <= t < |p| ==> p[t] < l
  {
    if |p| < 2 then 0 else Weight(m, l, p[..|p| - 1]) + m[p[|p| - 2]][p[|p| - 1]]
  }

  ghost predicate IsWalkWeight(m: Matrix, l: nat, i: nat, k: nat, w: nat)
    requires Square(m, l)
  {
    exists p :: Walk(p, i, k, l) && Weight(m, l, p) == w
  }

  // `d` is the least weight of a walk from i to k.
  ghost predicate IsDistance(m: Matrix, l: nat, i: nat, k: nat, d: nat)
    requires Square(m, l)
  {
    && IsWalkWeight(m, l, i, k, d)
    && forall p :: Walk(p, i, k, l) ==> d <= Weight(m, l, p)
  }

  lemma WeightStep(m: Matrix, l: nat, p: seq<nat>)
    requires Square(m, l) && |p| >= 2 && forall t :: 0 <= t < |p| ==> p[t] < l
    ensures Weight(m, l, p) == Weight(m, l, p[..|p| - 1]) + m[p[|p| - 2]][p[|p| - 1]]
    ensures |p| == 2 ==> Weight(m, l, p) == m[p[0]][p[1]]
  {
  }

  lemma {:induction false} JoinWalks(m: Matrix, l: nat, p: seq<nat>, q: seq<nat>, i: nat, j: nat, k: nat)
    requires Square(m, l) && Walk(p, i, j, l) && Walk(q, j, k, l)
    ensures Walk(p + q[1..], i, k, l)
    ensures Weight(m, l, p + q[1..]) == Weight(m, l, p) + Weight(m, l, q)
    decreases |q|
  {
    hide Weight;
    var n := |q| - 1;
    var pq := p + q[1..];
    assert pq[|pq| - 2] == q[n - 1];
    WeightStep(m, l, q);
    WeightStep(m, l, pq);
    if n >= 2 {
      JoinWalks(m, l, p, q[..n], i, j, q[n - 1]);
      assert pq[..|pq| - 1] == p + q[..n][1..];
    } else {
      assert pq[..|pq| - 1] == p;
    }
  }

  function Reverse(p: seq<nat>): (r: seq<nat>)
    ensures |r| == |p| && forall t :: 0 <= t < |p| ==> r[t] == p[|p| - 1 - t]
  {
    seq(|p|, t requires 0 <= t < |p| => p[|p| - 1 - t])
  }

  lemma {:induction false} ReverseWalk(m: Matrix, l: nat, p: seq<nat>, i: nat, k: nat)
    requires Square(m, l) && Symmetric(m, l) && Walk(p, i, k, l)
    ensures Walk(Reverse(p), k, i, l) && Weight(m, l, Reverse(p)) == Weight(m, l, p)
    decreases |p|
  {
    hide Weight;
    var n := |p| - 1;
    WeightStep(m, l, p);
    WeightStep(m, l, [p[n], p[n - 1]]);
    if n >= 2 {
      ReverseWalk(m, l, p[..n], i, p[n - 1]);
      JoinWalks(m, l, [p[n], p[n - 1]], Reverse(p[..n]), k, p[n - 1], i);
      assert Reverse(p) == [p[n], p[n - 1]] + Reverse(p[..n])[1..];
    } else {
      assert Reverse(p) == [p[n], p[n - 1]];
    }
  }

  // ---------- One relaxation ----------

  function Set(m: Matrix, l: nat, i: nat, k: nat, v: nat): (r: Matrix)
    requires Square(m, l) && i < l && k < l
    ensures Square(r, l)
    ensures forall a, b :: 0 <= a < l && 0 <= b < l ==> r[a][b] == if a == i && b == k then v else m[a][b]
  {
    var row: seq<nat> := m[i][k := v];
    m[i := row]
  }

  predicate Tight(m: Matrix, l: nat, i: nat, j: nat, k: nat)
    requires Square(m, l) && i < l && j < l && k < l
  {
    i != j && i != k && j != k ==> m[i][k] <= m[i][j] + m[j][k]
  }

  function Relax(m: Matrix, l: nat, i: nat, j: nat, k: nat): (r: Matrix)
    requires Square(m, l) && i < l && j < l && k < l
    ensures Square(r, l)
  {
    if Tight(m, l, i, j, k) then m
    else Set(Set(m, l, i, k, m[i][j] + m[j][k]), l, k, i, m[i][j] + m[j][k])
  }

  // ---------- The order of the loops ----------

  datatype Triple = Triple(i: nat, j: nat, k: nat)

  // The triples of the innermost loop before k, those of the middle loop before j, and all before i
  function Inner(i: nat, j: nat, k: nat): seq<Triple> {
    if k == 0 then []
    else Inner(i, j, k - 1) + if i == k - 1 || j == k - 1 then [] else [Triple(i, j, k - 1)]
  }

  function Middle(l: nat, i: nat, j: nat): seq<Triple> {
    if j == 0 then []
    else Middle(l, i, j - 1) + if i == j - 1 then [] else Inner(i, j - 1, l)
  }

  function Outer(l: nat, i: nat): seq<Triple> {
    if i == 0 then [] else Outer(l, i - 1) + Middle(l, i - 1, l)
  }

  predicate InRange(l: nat, ts: seq<Triple>) {
    forall n :: 0 <= n < |ts| ==> ts[n].i < l && ts[n].j < l && ts[n].k < l
  }

  lemma {:induction false} InnerInRange(l: nat, i: nat, j: nat, k: nat)
    requires i < l && j < l && k <= l
    ensures InRange(l, Inner(i, j, k))
    ensures forall c :: 0 <= c < k && c != i && c != j ==> Triple(i, j, c) in Inner(i, j, k)
  {
    if k > 0 {
      InnerInRange(l, i, j, k - 1);
    }
  }

  lemma {:induction false} MiddleInRange(l: nat, i: nat, j: nat)
    requires i < l && j <= l
    ensures InRange(l, Middle(l, i, j))
    ensures forall b, c :: 0 <= b < j && 0 <= c < l && b != i && c != i && c != b ==> Triple(i, b, c) in Middle(l, i, j)
  {
    hide Inner;
    if j > 0 {
      MiddleInRange(l, i, j - 1);
      InnerInRange(l, i, j - 1, l);
    }
  }

  // A pass visits every triple of distinct nodes.
  lemma {:induction false} OuterInRange(l: nat, i: nat)
    requires i <= l
    ensures InRange(l, Outer(l, i))
    ensures forall a, b, c :: 0 <= a < i && 0 <= b < l && 0 <= c < l && a != b && a != c && b != c
              ==> Triple(a, b, c) in Outer(l, i)
  {
    hide Middle;
    if i > 0 {
      OuterInRange(l, i - 1);
      MiddleInRange(l, i - 1, l);
    }
  }

  // ---------- Runs ----------

  function RelaxAll(m: Matrix, l: nat, ts: seq<Triple>): (r: Matrix)
    requires Square(m, l) && InRange(l, ts)
    ensures Square(r, l)
  {
    if ts == [] then m
    else
      var t := ts[|ts| - 1];
      Relax(RelaxAll(m, l, ts[..|ts| - 1]), l, t.i, t.j, t.k)
  }

  function Pass(m: Matrix, l: nat): (r: Matrix)
    requires Square(m, l)
    ensures Square(r, l)
  {
    OuterInRange(l, l);
    RelaxAll(m, l, Outer(l, l))
  }

  // Passes until one changes nothing
  ghost function Iterate(m: Matrix, l: nat): (r: Matrix)
    requires Square(m, l)
    ensures Square(r, l)
    decreases Skewed(m, l), Total(m)
  {
    PassProgresses(m, l);
    if Pass(m, l) == m then m else Iterate(Pass(m, l), l)
  }

  lemma {:induction false} RelaxAllAppend(m: Matrix, l: nat, x: seq<Triple>, y: seq<Triple>)
    requires Square(m, l) && InRange(l, x) && InRange(l, y)
    ensures InRange(l, x + y) && RelaxAll(m, l, x + y) == RelaxAll(RelaxAll(m, l, x), l, y)
    decreases |y|
  {
    hide Relax;
    if y == [] {
      assert x + y == x;
    } else {
      RelaxAllAppend(m, l, x, y[..|y| - 1]);
      assert (x + y)[..|x + y| - 1] == x + y[..|y| - 1];
    }
  }

  // ---------- Termination, on every matrix ----------

  // The pairs whose two entries differ. A relaxation makes its pair agree, so they only get fewer;
  // where they stay as they are, the sum of the entries drops.
  ghost function Skewed(m: Matrix, l: nat): set<(nat, nat)>
    requires Square(m, l)
  {
    set i: nat, k: nat | i < l && k < l && m[i][k] != m[k][i] :: (i, k)
  }

  ghost predicate Progress(m: Matrix, m': Matrix, l: nat)
    requires Square(m, l) && Square(m', l)
  {
    Skewed(m', l) < Skewed(m, l) || (Skewed(m', l) == Skewed(m, l) && Total(m') < Total(m))
  }

  function RowSum(row: seq<nat>): nat {
    if |row| == 0 then 0 else RowSum(row[..|row| - 1]) + row[|row| - 1]
  }

  function Total(m: Matrix): nat {
    if |m| == 0 then 0 else Total(m[..|m| - 1]) + RowSum(m[|m| - 1])
  }

  lemma {:induction false} RowSumSet(row: seq<nat>, k: nat, v: nat)
    requires k < |row|
    ensures RowSum(row[k := v]) == RowSum(row) - row[k] + v
  {
    var n := |row| - 1;
    if k < n {
      RowSumSet(row[..n], k, v);
      assert row[k := v][..n] == row[..n][k := v];
    } else {
      assert row[k := v][..n] == row[..n];
    }
  }

  lemma {:induction false} TotalSet(m: Matrix, i: nat, row: seq<nat>)
    requires i < |m|
    ensures Total(m[i := row]) == Total(m) - RowSum(m[i]) + RowSum(row)
  {
    var n := |m| - 1;
    if i < n {
      TotalSet(m[..n], i, row);
      assert m[i := row][..n] == m[..n][i := row];
    } else {
      assert m[i := row][..n] == m[..n];
    }
  }

  lemma SetTotal(m: Matrix, l: nat, i: nat, k: nat, v: nat)
    requires Square(m, l) && i < l && k < l
    ensures Total(Set(m, l, i, k, v)) == Total(m) - m[i][k] + v
  {
    hide Total, RowSum;
    RowSumSet(m[i], k, v);
    TotalSet(m, i, m[i][k := v]);
  }

  lemma RelaxProgresses(m: Matrix, l: nat, i: nat, j: nat, k: nat)
    requires Square(m, l) && i < l && j < l && k < l && !Tight(m, l, i, j, k)
    ensures Progress(m, Relax(m, l, i, j, k), l)
  {
    hide Total;
    var v := m[i][j] + m[j][k];
    var m1 := Set(m, l, i, k, v);
    SetTotal(m, l, i, k, v);
    SetTotal(m1, l, k, i, v);
    var m' := Set(m1, l, k, i, v);
    hide Set;
    assert Skewed(m', l) <= Skewed(m, l);
    if m[i][k] != m[k][i] {
      assert (i, k) in Skewed(m, l) && (i, k) !in Skewed(m', l);
    } else {
      assert Skewed(m, l) <= Skewed(m', l);
    }
  }

  // Some relaxation of the run changes something: the flag of the loops.
  predicate Fires(m: Matrix, l: nat, ts: seq<Triple>)
    requires Square(m, l) && InRange(l, ts)
  {
    ts != [] &&
    var t := ts[|ts| - 1];
    Fires(m, l, ts[..|ts| - 1]) || !Tight(RelaxAll(m, l, ts[..|ts| - 1]), l, t.i, t.j, t.k)
  }

  // Relaxing a list of triples either makes progress or found all of them tight.
  lemma {:induction false} RunProgresses(m: Matrix, l: nat, ts: seq<Triple>)
    requires Square(m, l) && InRange(l, ts)
    ensures Fires(m, l, ts) ==> Progress(m, RelaxAll(m, l, ts), l)
    ensures !Fires(m, l, ts) ==> RelaxAll(m, l, ts) == m && forall t :: t in ts ==> Tight(m, l, t.i, t.j, t.k)
  {
    hide Tight, Skewed, Total;
    if ts != [] {
      var n := |ts| - 1;
      RunProgresses(m, l, ts[..n]);
      var before := RelaxAll(m, l, ts[..n]);
      if !Tight(before, l, ts[n].i, ts[n].j, ts[n].k) {
        RelaxProgresses(before, l, ts[n].i, ts[n].j, ts[n].k);
      }
      assert ts == ts[..n] + [ts[n]];
    }
  }

  // A pass makes progress, or there is nothing left to relax anywhere.
  lemma PassProgresses(m: Matrix, l: nat)
    requires Square(m, l)
    ensures Pass(m, l) == m <==> Closed(m, l)
    ensures Pass(m, l) != m ==> Progress(m, Pass(m, l), l)
  {
    hide Outer, Relax, Skewed, Total;
    OuterInRange(l, l);
    RunProgresses(m, l, Outer(l, l));
    if Closed(m, l) {
      TightStays(m, l, Outer(l, l));
    } else {
      var i, j, k :| 0 <= i < l && 0 <= j < l && 0 <= k < l && !Tight(m, l, i, j, k);
      assert Triple(i, j, k) in Outer(l, l);
    }
  }

  lemma {:induction false} TightStays(m: Matrix, l: nat, ts: seq<Triple>)
    requires Square(m, l) && InRange(l, ts) && forall n :: 0 <= n < |ts| ==> Tight(m, l, ts[n].i, ts[n].j, ts[n].k)
    ensures RelaxAll(m, l, ts) == m
  {
    hide Tight;
    if ts != [] {
      TightStays(m, l, ts[..|ts| - 1]);
    }
  }

  lemma {:induction false} IterateCloses(m: Matrix, l: nat)
    requires Square(m, l)
    ensures Closed(Iterate(m, l), l)
    decreases Skewed(m, l), Total(m)
  {
    hide Pass, Closed, Total, Skewed;
    PassProgresses(m, l);
    if Pass(m, l) != m {
      IterateCloses(Pass(m, l), l);
    }
  }

  // ---------- A matrix that no relaxation changes is below every walk ----------

  ghost predicate Closed(m: Matrix, l: nat)
    requires Square(m, l)
  {
    forall i, j, k :: 0 <= i < l && 0 <= j < l && 0 <= k < l ==> Tight(m, l, i, j, k)
  }

  lemma {:induction false} ClosedIsBelowWalks(m0: Matrix, m: Matrix, l: nat, p: seq<nat>, i: nat, k: nat)
    requires Sound(m0, m, l) && Closed(m, l) && Walk(p, i, k, l) && i != k
    ensures m[i][k] <= Weight(m0, l, p)
    decreases |p|
  {
    hide IsWalkWeight, Symmetric;
    var n := |p| - 1;
    var j := p[n - 1];
    assert Weight(m0, l, p) == Weight(m0, l, p[..n]) + m0[j][k];
    assert m[j][k] <= m0[j][k];
    hide Weight, Sound;
    if j != i {
      assert n >= 2;
      ClosedIsBelowWalks(m0, m, l, p[..n], i, j);
      assert Tight(m, l, i, j, k);
    }
  }

  lemma ClosedIsShortest(m0: Matrix, m: Matrix, l: nat)
    requires Sound(m0, m, l) && Closed(m, l)
    ensures forall i, k :: 0 <= i < l && 0 <= k < l && i != k ==> IsDistance(m0, l, i, k, m[i][k])
    ensures forall i :: 0 <= i < l ==> m[i][i] == m0[i][i]
  {
    forall i, k, p | 0 <= i < l && 0 <= k < l && i != k && Walk(p, i, k, l)
      ensures m[i][k] <= Weight(m0, l, p)
    {
      ClosedIsBelowWalks(m0, m, l, p, i, k);
    }
  }

  // ---------- On a symmetric matrix every entry stays the weight of a walk ----------

  // Every stored distance is the weight of some walk of the original matrix, and no larger than the
  // direct edge.
  ghost predicate Sound(m0: Matrix, m: Matrix, l: nat) {
    && Square(m0, l) && Symmetric(m0, l) && Square(m, l) && Symmetric(m, l)
    && (forall i, k :: 0 <= i < l && 0 <= k < l && i != k ==>
          m[i][k] <= m0[i][k] && IsWalkWeight(m0, l, i, k, m[i][k]))
    && (forall i :: 0 <= i < l ==> m[i][i] == m0[i][i])
  }

  lemma SoundAtStart(m: Matrix, l: nat)
    requires Square(m, l) && Symmetric(m, l)
    ensures Sound(m, m, l)
  {
    forall i, k | 0 <= i < l && 0 <= k < l && i != k
      ensures IsWalkWeight(m, l, i, k, m[i][k])
    {
      var p := [i, k];
      assert p[..1] == [i];
      assert Walk(p, i, k, l) && Weight(m, l, p) == Weight(m, l, p[..1]) + m[i][k];
    }
  }

  lemma JoinedWeight(m0: Matrix, m: Matrix, l: nat, i: nat, j: nat, k: nat)
    requires Sound(m0, m, l) && i < l && j < l && k < l && i != j && j != k
    ensures IsWalkWeight(m0, l, i, k, m[i][j] + m[j][k]) && IsWalkWeight(m0, l, k, i, m[i][j] + m[j][k])
  {
    hide Weight;
    assert IsWalkWeight(m0, l, i, j, m[i][j]) && IsWalkWeight(m0, l, j, k, m[j][k]);
    var p :| Walk(p, i, j, l) && Weight(m0, l, p) == m[i][j];
    var q :| Walk(q, j, k, l) && Weight(m0, l, q) == m[j][k];
    hide Walk, Symmetric;
    JoinWalks(m0, l, p, q, i, j, k);
    ReverseWalk(m0, l, p + q[1..], i, k);
  }

  lemma RelaxKeepsSound(m0: Matrix, m: Matrix, l: nat, i: nat, j: nat, k: nat)
    requires Sound(m0, m, l) && i < l && j < l && k < l
    ensures Sound(m0, Relax(m, l, i, j, k), l)
  {
    hide IsWalkWeight, Set;
    if !Tight(m, l, i, j, k) {
      JoinedWeight(m0, m, l, i, j, k);
    }
  }

  lemma {:induction false} RunKeepsSound(m0: Matrix, m: Matrix, l: nat, ts: seq<Triple>)
    requires Sound(m0, m, l) && InRange(l, ts)
    ensures Sound(m0, RelaxAll(m, l, ts), l)
  {
    hide Sound, Relax;
    assert Square(m, l) by { SoundIsSquare(m0, m, l); }
    if ts != [] {
      var t := ts[|ts| - 1];
      RunKeepsSound(m0, m, l, ts[..|ts| - 1]);
      RelaxKeepsSound(m0, RelaxAll(m, l, ts[..|ts| - 1]), l, t.i, t.j, t.k);
    }
  }

  lemma SoundIsSquare(m0: Matrix, m: Matrix, l: nat)
    requires Sound(m0, m, l)
    ensures Square(m0, l) && Square(m, l)
  {
  }

  lemma {:induction false} IterateKeepsSound(m0: Matrix, m: Matrix, l: nat)
    requires Sound(m0, m, l)
    ensures Sound(m0, Iterate(m, l), l)
    decreases Skewed(m, l), Total(m)
  {
    SoundIsSquare(m0, m, l);
    hide Sound, Total, Skewed, RelaxAll, Outer;
    PassProgresses(m, l);
    if Pass(m, l) != m {
      OuterInRange(l, l);
      RunKeepsSound(m0, m, l, Outer(l, l));
      IterateKeepsSound(m0, Pass(m, l), l);
    }
  }

  ghost predicate AllDistances(m0: Matrix, l: nat, m: Matrix)
    requires Square(m0, l) && Square(m, l)
  {
    forall i, k :: 0 <= i < l && 0 <= k < l && i != k ==> IsDistance(m0, l, i, k, m[i][k])
  }

  // On a symmetric matrix the result holds all distances.
  lemma SymmetricGivesDistances(m: Matrix, l: nat)
    requires Square(m, l) && Symmetric(m, l)
    ensures AllDistances(m, l, Iterate(m, l))
  {
    hide Sound, Iterate, Closed, IsDistance;
    SoundAtStart(m, l);
    IterateKeepsSound(m, m, l);
    IterateCloses(m, l);
    ClosedIsShortest(m, Iterate(m, l), l);
  }
}
