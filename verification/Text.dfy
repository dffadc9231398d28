/**
 Splitting and joining text: `split`, `join` and `isPrefix` of src/Common/Utils.cc, over `getline` as
 the C++ library defines it. The last piece is lost when it is empty, so splitting and joining undo
 each other only up to that.
 */
module Text {

  // ---------- What getline yields ----------

  // Position of the first delimiter, or the end
  function Cut(s: string, d: char): (n: nat)
    ensures n <= |s| && d !in s[..n] && (n < |s| ==> s[n] == d)
  {
    if s == [] || s[0] == d then 0
    else
      assert s[..1 + Cut(s[1..], d)] == [s[0]] + s[1..][..Cut(s[1..], d)];
      1 + Cut(s[1..], d)
  }

  // All items read from a stream holding `s`
  function Pieces(s: string, d: char): seq<string> {
    if s == [] then []
    else if Cut(s, d) == |s| then [s]
    else [s[..Cut(s, d)]] + Pieces(s[Cut(s, d) + 1..], d)
  }

  // The delimiter is appended as a C string, so a NUL delimiter appends nothing.
  function Separator(d: char): string {
    if d == '\0' then "" else [d]
  }

  function Join(v: seq<string>, d: char): string {
    if v == [] then []
    else if |v| == 1 then v[0]
    else Join(v[..|v| - 1], d) + Separator(d) + v[|v| - 1]
  }

  // One final delimiter removed
  function Chomp(s: string, d: char): string {
    if s != [] && s[|s| - 1] == d then s[..|s| - 1] else s
  }

  lemma {:induction false} JoinFromFront(v: seq<string>, d: char)
    requires |v| >= 2
    ensures Join(v, d) == v[0] + Separator(d) + Join(v[1..], d)
  {
    var n := |v| - 1;
    if n == 1 {
      assert v[..1] == [v[0]] && v[1..] == [v[1]];
    } else {
      JoinFromFront(v[..n], d);
      assert v[..n][1..] == v[1..][..n - 1];
      assert v[1..][n - 1] == v[n];
    }
  }

  lemma CutAt(a: string, s: string, d: char)
    requires d !in a
    ensures Cut(a + [d] + s, d) == |a|
  {
    var t := a + [d] + s;
    assert forall i :: 0 <= i < |a| ==> t[i] == a[i] && a[i] in a;
    assert forall n :: |a| < n <= |t| ==> t[..n][|a|] == d;
  }

  // A piece and its delimiter in front
  lemma PiecesCons(a: string, s: string, d: char)
    requires d !in a
    ensures Pieces(a + [d] + s, d) == [a] + Pieces(s, d)
  {
    CutAt(a, s, d);
    var t := a + [d] + s;
    assert t[..|a|] == a && t[|a| + 1..] == s;
  }

  lemma PiecesOne(a: string, d: char)
    requires d !in a
    ensures Pieces(a, d) == if a == [] then [] else [a]
  {
    assert forall i :: 0 <= i < |a| ==> a[i] in a;
  }

  lemma {:induction false} PiecesAreClean(s: string, d: char)
    ensures forall p :: p in Pieces(s, d) ==> d !in p
    ensures forall p, c :: p in Pieces(s, d) && c in p ==> c in s
  {
    if s != [] {
      var n := Cut(s, d);
      if n == |s| {
        assert s[..n] == s;
      } else {
        PiecesAreClean(s[n + 1..], d);
      }
    }
  }

  lemma CountWithout(s: string, d: char)
    requires d !in s
    ensures multiset(s)[d] == 0
  {
  }

  lemma CountAround(x: string, d: char, y: string)
    ensures multiset(x + [d] + y)[d] == multiset(x)[d] + 1 + multiset(y)[d]
  {
  }

  // As many pieces as there are delimiters, and one more when the text does not end with one
  lemma {:induction false} PiecesCount(s: string, d: char)
    ensures |Pieces(s, d)| == multiset(s)[d] + if s != [] && s[|s| - 1] != d then 1 else 0
  {
    hide Pieces, Cut;
    if d !in s {
      PiecesOne(s, d);
      CountWithout(s, d);
    } else {
      var n := Cut(s, d);
      assert s[..|s|] == s;
      var x, y := s[..n], s[n + 1..];
      assert s == x + [d] + y;
      PiecesCons(x, y, d);
      PiecesCount(y, d);
      CountAround(x, d, y);
      CountWithout(x, d);
    }
  }

  // A text that ends with a delimiter, or is empty, and what follows it are cut separately.
  lemma {:induction false} PiecesAppend(x: string, y: string, d: char)
    requires x == [] || x[|x| - 1] == d
    ensures Pieces(x + y, d) == Pieces(x, d) + Pieces(y, d)
  {
    hide Pieces, Cut;
    if x == [] {
      assert x + y == y;
      PiecesOne([], d);
    } else {
      var n := Cut(x, d);
      assert x[..|x|] == x;
      var u, v := x[..n], x[n + 1..];
      assert x == u + [d] + v && x + y == u + [d] + (v + y);
      PiecesAppend(v, y, d);
      PiecesCons(u, v, d);
      PiecesCons(u, v + y, d);
    }
  }

  // Where a piece stands: between delimiters or the ends, its number is that of the delimiters before it.
  lemma PieceIsAt(x: string, p: string, y: string, d: char)
    requires (x == [] || x[|x| - 1] == d) && d !in p && (y == [] || y[0] == d)
    ensures |Pieces(x + p + y, d)| > multiset(x)[d] <==> p + y != []
    ensures p + y != [] ==> Pieces(x + p + y, d)[multiset(x)[d]] == p
  {
    hide Pieces;
    PiecesCount(x, d);
    PiecesAppend(x, p + y, d);
    assert x + p + y == x + (p + y);
    PieceInFront(p, y, d);
  }

  lemma PieceInFront(p: string, y: string, d: char)
    requires d !in p && (y == [] || y[0] == d)
    ensures if p + y == [] then Pieces(p + y, d) == [] else Pieces(p + y, d) != [] && Pieces(p + y, d)[0] == p
  {
    hide Pieces;
    if y == [] {
      assert p + y == p;
      PiecesOne(p, d);
    } else {
      assert p + y == p + [d] + y[1..];
      PiecesCons(p, y[1..], d);
    }
  }

  // ---------- split and join undo each other, up to an empty last piece ----------

  lemma ChompLater(a: string, rest: string, d: char)
    ensures Chomp(a + [d] + rest, d) == if rest == [] then a else a + [d] + Chomp(rest, d)
  {
    if rest != [] {
      assert (a + [d] + rest)[..|a| + |rest|] == a + [d] + rest[..|rest| - 1];
    } else {
      assert (a + [d] + rest)[..|a|] == a;
    }
  }

  lemma {:induction false} JoinOfSplit(s: string, d: char)
    requires d != '\0'
    ensures Join(Pieces(s, d), d) == Chomp(s, d)
  {
    if s != [] {
      var n := Cut(s, d);
      if n == |s| {
        assert s[..n] == s;
        assert s[|s| - 1] in s;
      } else {
        var rest := s[n + 1..];
        JoinOfSplit(rest, d);
        assert s == s[..n] + [d] + rest;
        ChompLater(s[..n], rest, d);
        if rest != [] {
          assert Pieces(s, d)[1..] == Pieces(rest, d);
          JoinFromFront(Pieces(s, d), d);
        }
      }
    }
  }

  predicate Clean(v: seq<string>, d: char) {
    forall i :: 0 <= i < |v| ==> d !in v[i]
  }

  // An empty last piece is not read back.
  function ReadBack(v: seq<string>): seq<string> {
    if v != [] && v[|v| - 1] == [] then v[..|v| - 1] else v
  }

  lemma ReadBackCons(v: seq<string>)
    requires |v| >= 2
    ensures ReadBack(v) == [v[0]] + ReadBack(v[1..])
  {
    assert v == [v[0]] + v[1..];
    assert v[..|v| - 1] == [v[0]] + v[1..][..|v| - 2];
  }

  lemma SplitFirst(v: seq<string>, d: char)
    requires |v| >= 2 && d !in v[0] && d != '\0'
    ensures Pieces(Join(v, d), d) == [v[0]] + Pieces(Join(v[1..], d), d)
  {
    hide Join, Pieces;
    JoinFromFront(v, d);
    PiecesCons(v[0], Join(v[1..], d), d);
  }

  // What comes back when the pieces themselves are free of the delimiter
  lemma {:induction false} SplitOfJoin(v: seq<string>, d: char)
    requires Clean(v, d) && d != '\0'
    ensures Pieces(Join(v, d), d) == ReadBack(v)
  {
    if |v| == 1 {
      PiecesOne(v[0], d);
      assert v == [v[0]];
    } else if |v| >= 2 {
      hide Join, Pieces, ReadBack;
      SplitFirst(v, d);
      SplitOfJoin(v[1..], d);
      ReadBackCons(v);
    }
  }

  // With a NUL delimiter the pieces are run together.
  lemma {:induction false} NoSeparator(v: seq<string>)
    requires Clean(v, '\0')
    ensures '\0' !in Join(v, '\0')
  {
    if |v| >= 2 {
      NoSeparator(v[..|v| - 1]);
    }
  }

  // Joining what was split gives the text back, less one final delimiter, exactly when the delimiter
  // is not NUL or does not occur elsewhere.
  lemma JoinOfSplitIff(s: string, d: char)
    ensures Join(Pieces(s, d), d) == Chomp(s, d) <==> d != '\0' || d !in Chomp(s, d)
  {
    if d != '\0' {
      JoinOfSplit(s, d);
    } else {
      PiecesAreClean(s, d);
      assert Clean(Pieces(s, d), d) by {
        assert forall i :: 0 <= i < |Pieces(s, d)| ==> Pieces(s, d)[i] in Pieces(s, d);
      }
      NoSeparator(Pieces(s, d));
      if d !in Chomp(s, d) {
        if Chomp(s, d) == s {
          PiecesOne(s, d);
        } else {
          assert s == Chomp(s, d) + [d] + "";
          PiecesCons(Chomp(s, d), "", d);
        }
      }
    }
  }

  // Splitting gives back what was joined exactly when no piece holds the delimiter, the last is not
  // empty and a separator was needed only if there is one.
  lemma SplitOfJoinIff(v: seq<string>, d: char)
    ensures Pieces(Join(v, d), d) == v
       <==> Clean(v, d) && (v == [] || v[|v| - 1] != []) && (d != '\0' || |v| <= 1)
  {
    PiecesAreClean(Join(v, d), d);
    if !Clean(v, d) {
      var i :| 0 <= i < |v| && d in v[i];
      assert v[i] in v;
    } else if d != '\0' {
      SplitOfJoin(v, d);
    } else {
      NoSeparator(v);
      PiecesOne(Join(v, d), d);
    }
  }

  // A NUL between two letters is not put back, two letters joined by NUL are not split again, and an
  // empty last piece is lost.
  lemma LostPiecesExample()
    ensures Join(Pieces("a\0b", '\0'), '\0') != Chomp("a\0b", '\0')
    ensures Pieces(Join(["a", "b"], '\0'), '\0') != ["a", "b"]
    ensures Pieces(Join(["a", ""], ','), ',') != ["a", ""]
  {
    hide Pieces, Join;
    assert "a\0b"[1] == '\0';
    JoinOfSplitIff("a\0b", '\0');
    SplitOfJoinIff(["a", "b"], '\0');
    SplitOfJoinIff(["a", ""], ',');
  }

  // ---------- The methods ----------

  class Stream {
    var rest: string

    constructor (s: string)
      ensures rest == s
    {
      rest := s;
    }

    // Fails exactly at the end of the stream; otherwise takes one piece and its delimiter.
    method GetLine(d: char) returns (ok: bool, item: string)
      modifies this
      ensures ok <==> old(rest) != []
      ensures ok ==> Pieces(old(rest), d) == [item] + Pieces(rest, d) && |rest| < |old(rest)|
      ensures !ok ==> rest == []
    {
      if rest == [] { return false, []; }
      var n := 0;
      while n < |rest| && rest[n] != d
        invariant n <= |rest| && d !in rest[..n]
      {
        assert rest[..n + 1] == rest[..n] + [rest[n]];
        n := n + 1;
      }
      ok, item := true, rest[..n];
      if n < |rest| {
        assert rest == rest[..n] + [d] + rest[n + 1..];
        PiecesCons(rest[..n], rest[n + 1..], d);
        rest := rest[n + 1..];
      } else {
        assert rest[..n] == rest;
        PiecesOne(rest, d);
        rest := [];
      }
    }
  }

  method Split(s: string, d: char) returns (elems: seq<string>)
    ensures elems == Pieces(s, d)
  {
    var ss := new Stream(s);
    elems := [];
    var ok, item := ss.GetLine(d);
    while ok
      invariant Pieces(s, d) == elems + (if ok then [item] else []) + Pieces(ss.rest, d)
      invariant !ok ==> ss.rest == []
      decreases |ss.rest|, ok
    {
      elems := elems + [item];
      ok, item := ss.GetLine(d);
    }
  }

  // join(elems, n, delim): at most the first n elements
  method JoinFirst(elems: seq<string>, n: nat, d: char) returns (s: string)
    ensures s == Join(elems[..if n < |elems| then n else |elems|], d)
  {
    s := "";
    var i := 0;
    while i < |elems| && i < n
      invariant i <= |elems| && i <= n
      invariant s == Join(elems[..i], d)
    {
      assert elems[..i + 1][..i] == elems[..i];
      if i > 0 {
        s := s + Separator(d);
      }
      s := s + elems[i];
      i := i + 1;
    }
  }

  predicate IsPrefix(prefix: string, s: string)
    ensures IsPrefix(prefix, s) <==> exists rest :: s == prefix + rest
  {
    if |prefix| > |s| then false
    else
      assert prefix == s[..|prefix|] ==> s == prefix + s[|prefix|..];
      forall i :: 0 <= i < |prefix| ==> prefix[i] == s[i]
  }

  // Joining fewer elements gives a prefix of joining more.
  lemma {:induction false} JoinGrows(v: seq<string>, n: nat, m: nat, d: char)
    requires n <= m <= |v|
    ensures IsPrefix(Join(v[..n], d), Join(v[..m], d))
    decreases m - n
  {
    if n < m {
      JoinGrows(v, n, m - 1, d);
      assert v[..m][..m - 1] == v[..m - 1];
    }
  }
}
