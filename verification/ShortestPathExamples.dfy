/**
 Two inputs on which iterateDM does not end at the distances: an asymmetric matrix whose detours are
 not as short on the way back, and one with zero distances for which that condition is not enough.
 */
module ShortestPathExamples {
  import opened DirectedPaths
  import opened RelaxInPlace
  import opened ShortestPaths

  lemma RelaxTwo(m: Matrix, l: nat, s: Triple, t: Triple)
    requires Square(m, l) && s.i < l && s.j < l && s.k < l && t.i < l && t.j < l && t.k < l
    ensures InRange(l, [s, t])
    ensures RelaxAll(m, l, [s, t]) == Relax(Relax(m, l, s.i, s.j, s.k), l, t.i, t.j, t.k)
  {
    hide Relax;
    assert [s, t][..1] == [s] && [s][..0] == [];
    assert RelaxAll(m, l, [s][..0]) == m;
    assert RelaxAll(m, l, [s]) == Relax(m, l, s.i, s.j, s.k);
  }

  lemma BlocksOfThree()
    ensures Middle(3, 0, 3) == [Triple(0, 1, 2), Triple(0, 2, 1)]
    ensures Middle(3, 1, 3) == [Triple(1, 0, 2), Triple(1, 2, 0)]
    ensures Middle(3, 2, 3) == [Triple(2, 0, 1), Triple(2, 1, 0)]
  {
  }

  lemma Stored(m: Matrix, l: nat, i: nat, j: nat, k: nat, m': Matrix)
    requires Square(m, l) && Square(m', l) && i < l && j < l && k < l && !Tight(m, l, i, j, k)
    requires forall a, b :: 0 <= a < l && 0 <= b < l ==>
      m'[a][b] == if (a == i && b == k) || (a == k && b == i) then m[i][j] + m[j][k] else m[a][b]
    ensures Relax(m, l, i, j, k) == m'
  {
    SameMatrix(Relax(m, l, i, j, k), m', l);
  }

  // One pass over three nodes
  lemma PassOfThree(m: Matrix)
    requires Square(m, 3)
    ensures Pass(m, 3) == Relax(Relax(Relax(Relax(Relax(Relax(m, 3, 0, 1, 2), 3, 0, 2, 1), 3, 1, 0, 2), 3, 1, 2, 0),
                                      3, 2, 0, 1), 3, 2, 1, 0)
  {
    hide Relax, Middle;
    BlocksOfThree();
    NextBlock(m, 3, 0);
    NextBlock(m, 3, 1);
    NextBlock(m, 3, 2);
    assert RelaxAll(m, 3, Outer(3, 0)) == m;
    hide RelaxAll, Outer;
    var m1 := RelaxAll(m, 3, Outer(3, 1));
    var m2 := RelaxAll(m, 3, Outer(3, 2));
    RelaxTwo(m, 3, Triple(0, 1, 2), Triple(0, 2, 1));
    RelaxTwo(m1, 3, Triple(1, 0, 2), Triple(1, 2, 0));
    RelaxTwo(m2, 3, Triple(2, 0, 1), Triple(2, 1, 0));
  }

  const ASYMMETRIC: Matrix := [[0, 1, 5], [9, 0, 1], [1, 9, 0]]
  const ASYMMETRIC_RESULT: Matrix := [[0, 3, 2], [3, 0, 5], [2, 5, 0]]

  // The detour from 0 to 2 weighs 2 but the way back 1, and the mirror entries that are written lose
  // all three edges of weight 1.
  lemma AsymmetricExample()
    ensures Square(ASYMMETRIC, 3) && NoHiddenZeros(ASYMMETRIC, 3) && !Mirrored(ASYMMETRIC, 3)
    ensures Iterate(ASYMMETRIC, 3) == ASYMMETRIC_RESULT
    ensures !AllDistances(ASYMMETRIC, 3, ASYMMETRIC_RESULT)
  {
    hide Pass, Iterate, Dist, IsDistance, AllDistances, Mirrored, NoHiddenZeros;
    AsymmetricPass();
    OnePass(ASYMMETRIC, 3, ASYMMETRIC_RESULT);
    AsymmetricDistances(ASYMMETRIC);
    PositiveHasNoHiddenZeros(ASYMMETRIC, 3);
    DistancesIff(ASYMMETRIC, 3);
  }

  lemma OnePass(m: Matrix, l: nat, r: Matrix)
    requires Square(m, l) && Square(r, l) && Pass(m, l) == r && Closed(r, l)
    ensures Iterate(m, l) == r
  {
    hide Pass, Closed, Skewed, Total;
    PassProgresses(r, l);
  }

  lemma AsymmetricDistances(m: Matrix)
    requires m == ASYMMETRIC
    ensures Square(m, 3) && Positive(m, 3) && !Mirrored(m, 3)
    ensures Dist(m, 3, 0, 2) == 2 && Dist(m, 3, 2, 0) == 1
  {
    hide Dist, IsDistance;
    EdgeIsShortest(m, 3, 0, 1);
    EdgeIsShortest(m, 3, 1, 2);
    EdgeIsShortest(m, 3, 2, 0);
    DistTriangle(m, 3, 0, 1, 2);
    var c := Detour(m, 3, 0, 2);
  }

  lemma AsymmetricPass()
    ensures Square(ASYMMETRIC, 3) && Pass(ASYMMETRIC, 3) == ASYMMETRIC_RESULT
  {
    var m0: Matrix := ASYMMETRIC;
    var m1: Matrix := [[0, 1, 2], [9, 0, 1], [2, 9, 0]];
    var m2: Matrix := [[0, 3, 2], [3, 0, 1], [2, 9, 0]];
    PassOfThree(m0);
    Stored(m0, 3, 0, 1, 2, m1);
    assert Tight(m1, 3, 0, 2, 1) && Tight(m1, 3, 1, 0, 2);
    Stored(m1, 3, 1, 2, 0, m2);
    Stored(m2, 3, 2, 0, 1, ASYMMETRIC_RESULT);
    assert Tight(ASYMMETRIC_RESULT, 3, 2, 1, 0);
  }

  lemma EdgeIsShortest(m: Matrix, l: nat, i: nat, k: nat)
    requires Square(m, l) && Positive(m, l) && i < l && k < l && i != k && m[i][k] == 1
    ensures Dist(m, l, i, k) == 1
  {
    hide Dist;
    DistIsPositive(m, l, i, k);
    assert Dist(m, l, i, k) <= m[i][k];
  }

  // Every distance is 0 both ways, along 0 - 3 - 1 - 2 - 0, so the way back is always as short; yet the result
  // has a 1 between 1 and 2.
  const ZEROS: Matrix := [[0, 1, 2, 0], [0, 0, 0, 1], [0, 2, 0, 1], [0, 0, 1, 0]]
  const ZEROS_RESULT: Matrix := [[0, 0, 1, 0], [0, 0, 1, 0], [1, 1, 0, 1], [0, 0, 1, 0]]

  lemma ZeroExample()
    ensures Square(ZEROS, 4) && Mirrored(ZEROS, 4)
    ensures Iterate(ZEROS, 4) == ZEROS_RESULT
    ensures !AllDistances(ZEROS, 4, ZEROS_RESULT)
  {
    hide Pass, Iterate, Dist, IsDistance;
    ZeroPass();
    ZeroResultCloses();
    OnePass(ZEROS, 4, ZEROS_RESULT);
    ZeroDistances(ZEROS);
    DistIsUnique(ZEROS, 4, 1, 2, ZEROS_RESULT[1][2]);
  }

  lemma ZeroDistances(m: Matrix)
    requires m == ZEROS
    ensures Square(m, 4) && forall i, k :: 0 <= i < 4 && 0 <= k < 4 && i != k ==> Dist(m, 4, i, k) == 0
  {
    hide Dist, IsDistance;
    assert Dist(m, 4, 0, 3) == 0 && Dist(m, 4, 3, 1) == 0 && Dist(m, 4, 1, 2) == 0 && Dist(m, 4, 2, 0) == 0;
    assert Dist(m, 4, 1, 0) == 0 && Dist(m, 4, 3, 0) == 0;
    DistTriangle(m, 4, 0, 3, 1);
    DistTriangle(m, 4, 0, 1, 2);
    DistTriangle(m, 4, 3, 1, 2);
    DistTriangle(m, 4, 1, 0, 3);
    DistTriangle(m, 4, 2, 0, 3);
    DistTriangle(m, 4, 2, 0, 1);
  }

  lemma Kept(m: Matrix, l: nat, i: nat, j: nat, k: nat)
    requires Square(m, l) && i < l && j < l && k < l && Tight(m, l, i, j, k)
    ensures Relax(m, l, i, j, k) == m
  {
  }

  lemma InnerOfFour(i: nat, j: nat, a: nat, b: nat)
    requires i < 4 && j < 4 && i != j && a < b < 4 && a != i && a != j && b != i && b != j
    ensures Inner(i, j, 4) == [Triple(i, j, a), Triple(i, j, b)]
  {
    assert Inner(i, j, 0) == [];
    assert Inner(i, j, 4) == Inner(i, j, 3) + if i == 3 || j == 3 then [] else [Triple(i, j, 3)];
    assert Inner(i, j, 3) == Inner(i, j, 2) + if i == 2 || j == 2 then [] else [Triple(i, j, 2)];
    assert Inner(i, j, 2) == Inner(i, j, 1) + if i == 1 || j == 1 then [] else [Triple(i, j, 1)];
  }

  lemma MiddleOfFour(i: nat, a: nat, b: nat, c: nat)
    requires i < 4 && a < b < c < 4 && a != i && b != i && c != i
    ensures Middle(4, i, 4) == Inner(i, a, 4) + Inner(i, b, 4) + Inner(i, c, 4)
  {
    hide Inner;
    assert Middle(4, i, 0) == [];
    assert Middle(4, i, 4) == Middle(4, i, 3) + if i == 3 then [] else Inner(i, 3, 4);
    assert Middle(4, i, 3) == Middle(4, i, 2) + if i == 2 then [] else Inner(i, 2, 4);
    assert Middle(4, i, 2) == Middle(4, i, 1) + if i == 1 then [] else Inner(i, 1, 4);
  }

  // The part of a pass over four nodes that belongs to node i
  lemma BlockOfFour(m: Matrix, i: nat, a: nat, b: nat, c: nat)
    requires Square(m, 4) && i < 4 && a < b < c < 4 && a != i && b != i && c != i
    ensures InRange(4, Middle(4, i, 4))
    ensures RelaxAll(m, 4, Middle(4, i, 4))
         == Relax(Relax(Relax(Relax(Relax(Relax(m, 4, i, a, b), 4, i, a, c), 4, i, b, a), 4, i, b, c), 4, i, c, a), 4, i, c, b)
  {
    hide RelaxAll, Relax, Middle, Inner;
    InnerOfFour(i, a, b, c);
    InnerOfFour(i, b, a, c);
    InnerOfFour(i, c, a, b);
    MiddleOfFour(i, a, b, c);
    var m1 := Relax(Relax(m, 4, i, a, b), 4, i, a, c);
    RelaxTwo(m, 4, Triple(i, a, b), Triple(i, a, c));
    var m2 := Relax(Relax(m1, 4, i, b, a), 4, i, b, c);
    RelaxTwo(m1, 4, Triple(i, b, a), Triple(i, b, c));
    RelaxTwo(m2, 4, Triple(i, c, a), Triple(i, c, b));
    RelaxAllAppend(m, 4, Inner(i, a, 4), Inner(i, b, 4));
    RelaxAllAppend(m, 4, Inner(i, a, 4) + Inner(i, b, 4), Inner(i, c, 4));
  }

  const ZEROS_1: Matrix := [[0, 1, 1, 0], [0, 0, 0, 1], [1, 2, 0, 1], [0, 0, 1, 0]]
  const ZEROS_2: Matrix := [[0, 0, 1, 0], [0, 0, 0, 1], [1, 2, 0, 1], [0, 0, 1, 0]]
  const ZEROS_3: Matrix := [[0, 0, 1, 0], [0, 0, 0, 0], [1, 2, 0, 1], [0, 0, 1, 0]]

  lemma ZeroBlock0()
    ensures Square(ZEROS, 4) && InRange(4, Middle(4, 0, 4)) && RelaxAll(ZEROS, 4, Middle(4, 0, 4)) == ZEROS_2
  {
    hide RelaxAll, Middle, Relax;
    BlockOfFour(ZEROS, 0, 1, 2, 3);
    Stored(ZEROS, 4, 0, 1, 2, ZEROS_1);
    Kept(ZEROS_1, 4, 0, 1, 3);
    Kept(ZEROS_1, 4, 0, 2, 1);
    Kept(ZEROS_1, 4, 0, 2, 3);
    Stored(ZEROS_1, 4, 0, 3, 1, ZEROS_2);
    Kept(ZEROS_2, 4, 0, 3, 2);
  }

  lemma ZeroBlock1()
    ensures Square(ZEROS_2, 4) && InRange(4, Middle(4, 1, 4)) && RelaxAll(ZEROS_2, 4, Middle(4, 1, 4)) == ZEROS_3
  {
    hide RelaxAll, Middle, Relax;
    BlockOfFour(ZEROS_2, 1, 0, 2, 3);
    Kept(ZEROS_2, 4, 1, 0, 2);
    Stored(ZEROS_2, 4, 1, 0, 3, ZEROS_3);
    Kept(ZEROS_3, 4, 1, 2, 0);
    Kept(ZEROS_3, 4, 1, 2, 3);
    Kept(ZEROS_3, 4, 1, 3, 0);
    Kept(ZEROS_3, 4, 1, 3, 2);
  }

  lemma ZeroBlock2()
    ensures Square(ZEROS_3, 4) && InRange(4, Middle(4, 2, 4)) && RelaxAll(ZEROS_3, 4, Middle(4, 2, 4)) == ZEROS_RESULT
  {
    hide RelaxAll, Middle, Relax;
    BlockOfFour(ZEROS_3, 2, 0, 1, 3);
    Stored(ZEROS_3, 4, 2, 0, 1, ZEROS_RESULT);
    Kept(ZEROS_RESULT, 4, 2, 0, 3);
    Kept(ZEROS_RESULT, 4, 2, 1, 0);
    Kept(ZEROS_RESULT, 4, 2, 1, 3);
    Kept(ZEROS_RESULT, 4, 2, 3, 0);
    Kept(ZEROS_RESULT, 4, 2, 3, 1);
  }

  lemma ZeroBlock3()
    ensures Square(ZEROS_RESULT, 4) && InRange(4, Middle(4, 3, 4)) && RelaxAll(ZEROS_RESULT, 4, Middle(4, 3, 4)) == ZEROS_RESULT
  {
    hide RelaxAll, Middle, Relax;
    BlockOfFour(ZEROS_RESULT, 3, 0, 1, 2);
    Kept(ZEROS_RESULT, 4, 3, 0, 1);
    Kept(ZEROS_RESULT, 4, 3, 0, 2);
    Kept(ZEROS_RESULT, 4, 3, 1, 0);
    Kept(ZEROS_RESULT, 4, 3, 1, 2);
    Kept(ZEROS_RESULT, 4, 3, 2, 0);
    Kept(ZEROS_RESULT, 4, 3, 2, 1);
  }

  lemma ZeroPass()
    ensures Square(ZEROS, 4) && Square(ZEROS_RESULT, 4) && Pass(ZEROS, 4) == ZEROS_RESULT
  {
    hide Middle, Outer, RelaxAll, InRange, Square;
    ZeroBlock0();
    ZeroBlock1();
    ZeroBlock2();
    ZeroBlock3();
    NothingYet(ZEROS, 4);
    NoTriples(ZEROS, 4);
    NextBlock(ZEROS, 4, 0);
    NextBlock(ZEROS, 4, 1);
    NextBlock(ZEROS, 4, 2);
    NextBlock(ZEROS, 4, 3);
  }

  lemma ZeroResultCloses()
    ensures Square(ZEROS_RESULT, 4) && Closed(ZEROS_RESULT, 4)
  {
    var m := ZEROS_RESULT;
    forall i, j, k | 0 <= i < 4 && 0 <= j < 4 && 0 <= k < 4
      ensures Tight(m, 4, i, j, k)
    {
      assert forall a, b :: 0 <= a < 4 && 0 <= b < 4 && a != b ==> m[a][b] == if a == 2 || b == 2 then 1 else 0;
    }
  }
}
