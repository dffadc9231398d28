/**
 iterateDM of src/Common/Utils.cc in its own form: three nested loops that rewrite the matrix under a
 flag, until a whole pass leaves the flag down.
 */
module RelaxInPlace {
  import opened DirectedPaths
  import opened ShortestPaths

  newtype Byte = x: int | 0 <= x < 256

  ghost function MatrixOf(dm: array2<Byte>): (m: Matrix)
    requires dm.Length0 == dm.Length1
    reads dm
    ensures Square(m, dm.Length0)
    ensures forall i, k :: 0 <= i < dm.Length0 && 0 <= k < dm.Length0 ==> m[i][k] == dm[i, k] as nat
  {
    seq(dm.Length0, i requires 0 <= i < dm.Length0 reads dm =>
      seq(dm.Length0, k requires 0 <= k < dm.Length0 reads dm => dm[i, k] as nat))
  }

  // The body of the innermost loop
  method RelaxEntry(dm: array2<Byte>, l: nat, i: nat, j: nat, k: nat, dij: Byte) returns (changed: bool)
    requires dm.Length0 == dm.Length1 == l && i < l && j < l && k < l
    requires i != j && i != k && j != k && dij == dm[i, j]
    modifies dm
    ensures MatrixOf(dm) == old(Relax(MatrixOf(dm), l, i, j, k))
    ensures changed == !old(Tight(MatrixOf(dm), l, i, j, k))
    ensures dm[i, j] == old(dm[i, j])
  {
    ghost var m := MatrixOf(dm);
    changed := false;
    if dm[i, k] as int > dij as int + dm[j, k] as int {
      var v := (dij as int + dm[j, k] as int) as Byte;
      dm[i, k] := v;
      dm[k, i] := v;
      changed := true;
      SameMatrix(MatrixOf(dm), Relax(m, l, i, j, k), l);
    }
  }

  lemma SameMatrix(m: Matrix, m': Matrix, l: nat)
    requires Square(m, l) && Square(m', l)
    requires forall a, b :: 0 <= a < l && 0 <= b < l ==> m[a][b] == m'[a][b]
    ensures m == m'
  {
    forall a | 0 <= a < l ensures m[a] == m'[a] { }
  }

  // One more triple of a run that began at `start`
  lemma NextTriple(start: Matrix, l: nat, ts: seq<Triple>, t: Triple)
    requires Square(start, l) && InRange(l, ts) && t.i < l && t.j < l && t.k < l
    ensures InRange(l, ts + [t])
    ensures RelaxAll(start, l, ts + [t]) == Relax(RelaxAll(start, l, ts), l, t.i, t.j, t.k)
    ensures Fires(start, l, ts + [t]) <==> Fires(start, l, ts) || !Tight(RelaxAll(start, l, ts), l, t.i, t.j, t.k)
  {
    assert (ts + [t])[..|ts|] == ts;
  }

  // The loop over k: node i hears of every node k through node j.
  method RelaxThrough(dm: array2<Byte>, l: nat, i: nat, j: nat, changes0: bool, ghost start: Matrix, ghost ts: seq<Triple>)
    returns (changes: bool)
    requires dm.Length0 == dm.Length1 == l && i < l && j < l && i != j
    requires Square(start, l) && InRange(l, ts)
    requires MatrixOf(dm) == RelaxAll(start, l, ts) && changes0 == Fires(start, l, ts)
    modifies dm
    ensures InRange(l, ts + Inner(i, j, l))
    ensures MatrixOf(dm) == RelaxAll(start, l, ts + Inner(i, j, l)) && changes == Fires(start, l, ts + Inner(i, j, l))
  {
    hide Relax, MatrixOf, Tight, RelaxAll, Fires, Square;
    changes := changes0;
    var dij := dm[i, j];
    assert ts + Inner(i, j, 0) == ts;
    for k := 0 to l
      invariant dij == dm[i, j] && InRange(l, ts + Inner(i, j, k))
      invariant MatrixOf(dm) == RelaxAll(start, l, ts + Inner(i, j, k)) && changes == Fires(start, l, ts + Inner(i, j, k))
    {
      assert ts + Inner(i, j, k + 1) == ts + Inner(i, j, k) + if i == k || j == k then [] else [Triple(i, j, k)];
      if i == k || j == k {
        assert ts + Inner(i, j, k) + [] == ts + Inner(i, j, k);
        continue;
      }
      NextTriple(start, l, ts + Inner(i, j, k), Triple(i, j, k));
      var changed := RelaxEntry(dm, l, i, j, k, dij);
      changes := changes || changed;
    }
  }

  // One pass of the outer while loop
  method RunPass(dm: array2<Byte>, l: nat) returns (changes: bool)
    requires dm.Length0 == dm.Length1 == l
    modifies dm
    ensures MatrixOf(dm) == old(Pass(MatrixOf(dm), l)) && changes == (MatrixOf(dm) != old(MatrixOf(dm)))
  {
    hide MatrixOf, RelaxAll, Fires, Inner, Square;
    ghost var start := MatrixOf(dm);
    NothingYet(start, l);
    changes := false;
    for i := 0 to l
      invariant InRange(l, Outer(l, i))
      invariant MatrixOf(dm) == RelaxAll(start, l, Outer(l, i)) && changes == Fires(start, l, Outer(l, i))
    {
      assert Outer(l, i) + Middle(l, i, 0) == Outer(l, i);
      for j := 0 to l
        invariant InRange(l, Outer(l, i) + Middle(l, i, j))
        invariant MatrixOf(dm) == RelaxAll(start, l, Outer(l, i) + Middle(l, i, j))
        invariant changes == Fires(start, l, Outer(l, i) + Middle(l, i, j))
      {
        if i == j {
          assert Middle(l, i, j) + [] == Middle(l, i, j);
          continue;
        }
        changes := RelaxThrough(dm, l, i, j, changes, start, Outer(l, i) + Middle(l, i, j));
        assert Outer(l, i) + Middle(l, i, j) + Inner(i, j, l) == Outer(l, i) + (Middle(l, i, j) + Inner(i, j, l));
      }
    }
    RunProgresses(start, l, Outer(l, l));
    ProgressChanges(start, MatrixOf(dm), l);
  }

  lemma NothingYet(m: Matrix, l: nat)
    requires Square(m, l)
    ensures RelaxAll(m, l, []) == m && !Fires(m, l, [])
  {
  }

  lemma ProgressChanges(m: Matrix, m': Matrix, l: nat)
    requires Square(m, l) && Square(m', l)
    ensures Progress(m, m', l) ==> m != m'
  {
  }

  // `inf` is never read, as in the source.
  method IterateDM(dm: array2<Byte>, l: nat, inf: Byte)
    requires dm.Length0 == dm.Length1 == l
    modifies dm
    ensures MatrixOf(dm) == old(Iterate(MatrixOf(dm), l))
    ensures Closed(MatrixOf(dm), l)
    ensures old(Symmetric(MatrixOf(dm), l)) ==> forall i, k :: 0 <= i < l && 0 <= k < l && i != k ==>
              IsDistance(old(MatrixOf(dm)), l, i, k, dm[i, k] as nat)
    ensures old(NoHiddenZeros(MatrixOf(dm), l)) ==>
              (AllDistances(old(MatrixOf(dm)), l, MatrixOf(dm)) <==> old(Mirrored(MatrixOf(dm), l)))
    ensures forall i :: 0 <= i < l ==> dm[i, i] == old(dm[i, i])
  {
    hide IsDistance, Closed, Total, Skewed, NoHiddenZeros, Mirrored, Symmetric, Pass;
    ghost var m0 := MatrixOf(dm);
    var changes := true;
    while changes
      invariant Iterate(MatrixOf(dm), l) == Iterate(m0, l)
      invariant !changes ==> Pass(MatrixOf(dm), l) == MatrixOf(dm)
      decreases Skewed(MatrixOf(dm), l), Total(MatrixOf(dm)), changes
    {
      PassProgresses(MatrixOf(dm), l);
      changes := RunPass(dm, l);
    }
    IterateCloses(m0, l);
    DistancesIff(m0, l);
    IterateKeepsPaired(m0, m0, l);
    assert forall i :: 0 <= i < l ==> Paired(m0, MatrixOf(dm), l, i, i) && m0[i][i] == old(dm[i, i]) as nat;
    assert forall i :: 0 <= i < l ==> MatrixOf(dm)[i][i] == dm[i, i] as nat;
  }
}
