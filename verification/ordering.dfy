/**
 Move Orderer: the fixed centre-out visiting order of the columns (a stable
 sort of 0 .. 6 by distance from the centre column) and the per-node list of
 legal moves, which is that order filtered by legality.
 */
module Ordering {
  import opened Board

  /** Distance of column k from the centre column Cols / 2. */
  function Dist(k: int): nat {
    if k >= Cols / 2 then k - Cols / 2 else Cols / 2 - k
  }

  /** x comes before y when it is closer to the centre, or equally close and further left. */
  predicate CentreFirst(x: int, y: int) {
    Dist(x) < Dist(y) || (Dist(x) == Dist(y) && x < y)
  }

  predicate CentreSorted(t: seq<int>) {
    forall i, j :: 0 <= i < j < |t| ==> CentreFirst(t[i], t[j])
  }

  predicate Increasing(s: seq<int>) {
    forall i, j :: 0 <= i < j < |s| ==> s[i] < s[j]
  }

  /** Inserts x in front of the first element at least as far from the centre. */
  function Insert(x: int, t: seq<int>): seq<int> {
    if t == [] then [x]
    else if Dist(x) <= Dist(t[0]) then [x] + t
    else [t[0]] + Insert(x, t[1..])
  }

  /** Stable insertion sort by distance from the centre. */
  function SortByDist(s: seq<int>): seq<int> {
    if s == [] then [] else Insert(s[0], SortByDist(s[1..]))
  }

  lemma {:induction false} InsertPermutes(x: int, t: seq<int>)
    ensures multiset(Insert(x, t)) == multiset(t) + multiset{x}
  {
    if t != [] && Dist(x) > Dist(t[0]) {
      InsertPermutes(x, t[1..]);
      assert t == [t[0]] + t[1..];
    }
  }

  /** The sort only reorders its input. */
  lemma {:induction false} SortByDistPermutes(s: seq<int>)
    ensures multiset(SortByDist(s)) == multiset(s)
  {
    if s != [] {
      SortByDistPermutes(s[1..]);
      InsertPermutes(s[0], SortByDist(s[1..]));
      assert s == [s[0]] + s[1..];
    }
  }

  /** Prepending an element that comes centre-first before every element keeps the order. */
  lemma ConsCentreSorted(y: int, u: seq<int>)
    requires CentreSorted(u)
    requires forall z :: z in u ==> CentreFirst(y, z)
    ensures CentreSorted([y] + u)
  {
    var t := [y] + u;
    forall i, j | 0 <= i < j < |t|
      ensures CentreFirst(t[i], t[j])
    {
      if i == 0 {
        assert t[j] == u[j - 1] && u[j - 1] in u;
      } else {
        assert t[i] == u[i - 1] && t[j] == u[j - 1];
      }
    }
  }

  lemma {:induction false} InsertCentreSorted(x: int, t: seq<int>)
    requires CentreSorted(t)
    requires forall y :: y in t ==> x < y
    ensures CentreSorted(Insert(x, t))
  {
    if t == [] {
    } else if Dist(x) <= Dist(t[0]) {
      forall y | y in t
        ensures CentreFirst(x, y)
      {
        var j :| 0 <= j < |t| && t[j] == y;
        if j > 0 {
          assert CentreFirst(t[0], t[j]);
        }
      }
      ConsCentreSorted(x, t);
    } else {
      var rest := t[1..];
      assert forall y :: y in rest ==> y in t;
      assert CentreSorted(rest) by {
        forall i, j | 0 <= i < j < |rest|
          ensures CentreFirst(rest[i], rest[j])
        {
          assert rest[i] == t[i + 1] && rest[j] == t[j + 1];
        }
      }
      InsertCentreSorted(x, rest);
      var u := Insert(x, rest);
      InsertPermutes(x, rest);
      forall y | y in u
        ensures CentreFirst(t[0], y)
      {
        assert y in multiset(u);
        if y != x {
          assert y in rest;
          var j :| 0 <= j < |rest| && rest[j] == y;
          assert CentreFirst(t[0], t[j + 1]);
        }
      }
      ConsCentreSorted(t[0], u);
    }
  }

  /** Sorting an increasing sequence stably by distance orders it centre-first, ties
      broken by the smaller column. */
  lemma {:induction false} SortByDistCentreSorted(s: seq<int>)
    requires Increasing(s)
    ensures CentreSorted(SortByDist(s))
  {
    if s != [] {
      SortByDistCentreSorted(s[1..]);
      SortByDistPermutes(s[1..]);
      forall y | y in SortByDist(s[1..])
        ensures s[0] < y
      {
        assert y in multiset(SortByDist(s[1..]));
        assert y in s[1..];
      }
      InsertCentreSorted(s[0], SortByDist(s[1..]));
    }
  }

  /* The stable sort of 0 .. 6, evaluated one insertion per lemma to keep each proof small. */

  lemma SortFromFour()
    ensures SortByDist([4, 5, 6]) == [4, 5, 6]
  {
    assert [4, 5, 6][1..] == [5, 6];
    assert [5, 6][1..] == [6];
  }

  lemma SortFromThree()
    ensures SortByDist([3, 4, 5, 6]) == [3, 4, 5, 6]
  {
    SortFromFour();
    assert [3, 4, 5, 6][1..] == [4, 5, 6];
  }

  lemma SortFromTwo()
    ensures SortByDist([2, 3, 4, 5, 6]) == [3, 2, 4, 5, 6]
  {
    SortFromThree();
    assert [2, 3, 4, 5, 6][1..] == [3, 4, 5, 6];
    assert Insert(2, [4, 5, 6]) == [2, 4, 5, 6];
    assert [3, 4, 5, 6][1..] == [4, 5, 6];
    assert Insert(2, [3, 4, 5, 6]) == [3, 2, 4, 5, 6];
    assert SortByDist([2, 3, 4, 5, 6]) == Insert(2, SortByDist([3, 4, 5, 6]));
  }

  lemma SortFromOne()
    ensures SortByDist([1, 2, 3, 4, 5, 6]) == [3, 2, 4, 1, 5, 6]
  {
    SortFromTwo();
    assert [1, 2, 3, 4, 5, 6][1..] == [2, 3, 4, 5, 6];
    assert Insert(1, [5, 6]) == [1, 5, 6];
    assert [4, 5, 6][1..] == [5, 6];
    assert Insert(1, [4, 5, 6]) == [4, 1, 5, 6];
    assert [2, 4, 5, 6][1..] == [4, 5, 6];
    assert Insert(1, [2, 4, 5, 6]) == [2, 4, 1, 5, 6];
    assert [3, 2, 4, 5, 6][1..] == [2, 4, 5, 6];
    assert Insert(1, [3, 2, 4, 5, 6]) == [3, 2, 4, 1, 5, 6];
    assert SortByDist([1, 2, 3, 4, 5, 6]) == Insert(1, SortByDist([2, 3, 4, 5, 6]));
  }

  /** Column 0 travels past every column but its tie 6. */
  lemma InsertCorner()
    ensures Insert(0, [3, 2, 4, 1, 5, 6]) == [3, 2, 4, 1, 5, 0, 6]
  {
    assert Insert(0, [6]) == [0, 6];
    assert [5, 6][1..] == [6];
    assert Insert(0, [5, 6]) == [5, 0, 6];
    assert [1, 5, 6][1..] == [5, 6];
    assert Insert(0, [1, 5, 6]) == [1, 5, 0, 6];
    assert [4, 1, 5, 6][1..] == [1, 5, 6];
    assert Insert(0, [4, 1, 5, 6]) == [4, 1, 5, 0, 6];
    assert [2, 4, 1, 5, 6][1..] == [4, 1, 5, 6];
    assert Insert(0, [2, 4, 1, 5, 6]) == [2, 4, 1, 5, 0, 6];
    assert [3, 2, 4, 1, 5, 6][1..] == [2, 4, 1, 5, 6];
  }

  lemma SortSevenColumns()
    ensures SortByDist([0, 1, 2, 3, 4, 5, 6]) == [3, 2, 4, 1, 5, 0, 6]
  {
    SortFromOne();
    InsertCorner();
    assert [0, 1, 2, 3, 4, 5, 6][1..] == [1, 2, 3, 4, 5, 6];
    assert SortByDist([0, 1, 2, 3, 4, 5, 6]) == Insert(0, SortByDist([1, 2, 3, 4, 5, 6]));
  }

  /** Sorting the columns 0 .. Cols-1 yields Cols entries covering every column. */
  lemma SortedColumnsCover(cols: seq<int>)
    requires cols == seq(Cols, k => k)
    ensures |SortByDist(cols)| == Cols
    ensures forall c :: c in SortByDist(cols) <==> 0 <= c < Cols
  {
    var order := SortByDist(cols);
    SortByDistPermutes(cols);
    assert |multiset(order)| == |multiset(cols)|;
    forall c
      ensures c in order <==> 0 <= c < Cols
    {
      assert c in order <==> c in multiset(cols);
      if 0 <= c < Cols {
        assert cols[c] == c;
      }
    }
  }

  /** The visiting order of the engine: the columns 0 .. Cols-1 sorted by distance from
      the centre. It holds each column exactly once (Cols entries covering every column),
      is centre-first with ties to the left, and equals [3, 2, 4, 1, 5, 0, 6]. */
  function ColumnOrder(): (order: seq<int>)
    ensures |order| == Cols && forall c :: c in order <==> 0 <= c < Cols
    ensures CentreSorted(order)
    ensures order == [3, 2, 4, 1, 5, 0, 6]
  {
    var cols := seq(Cols, k => k);
    SortedColumnsCover(cols);
    SortByDistCentreSorted(cols);
    assert cols == [0, 1, 2, 3, 4, 5, 6];
    SortSevenColumns();
    SortByDist(cols)
  }

  /** The columns of order whose top cell is empty, in the same relative order. */
  function FilterLegal(b: Grid, order: seq<int>): (ms: seq<int>)
    requires forall i :: 0 <= i < |order| ==> 0 <= order[i] < Cols
    ensures forall i :: 0 <= i < |ms| ==> 0 <= ms[i] < Cols && IsLegal(b, ms[i])
  {
    if order == [] then []
    else if IsLegal(b, order[0]) then [order[0]] + FilterLegal(b, order[1..])
    else FilterLegal(b, order[1..])
  }

  /** The filter keeps exactly the legal columns of order. */
  lemma {:induction false} FilterLegalMembers(b: Grid, order: seq<int>)
    requires forall i :: 0 <= i < |order| ==> 0 <= order[i] < Cols
    ensures forall c :: c in FilterLegal(b, order) <==> c in order && IsLegal(b, c)
  {
    if order != [] {
      FilterLegalMembers(b, order[1..]);
      assert forall c :: c in order <==> c == order[0] || c in order[1..];
    }
  }

  /** Filtering a centre-first order leaves it centre-first. */
  lemma {:induction false} FilterLegalCentreSorted(b: Grid, order: seq<int>)
    requires forall i :: 0 <= i < |order| ==> 0 <= order[i] < Cols
    requires CentreSorted(order)
    ensures CentreSorted(FilterLegal(b, order))
  {
    if order != [] {
      var rest := FilterLegal(b, order[1..]);
      forall i, j | 0 <= i < j < |order| - 1
        ensures CentreFirst(order[1..][i], order[1..][j])
      {
        assert order[1..][i] == order[i + 1] && order[1..][j] == order[j + 1];
      }
      FilterLegalCentreSorted(b, order[1..]);
      if IsLegal(b, order[0]) {
        FilterLegalMembers(b, order[1..]);
        forall z | z in rest
          ensures CentreFirst(order[0], z)
        {
          var j :| 1 <= j < |order| && order[j] == z;
        }
        ConsCentreSorted(order[0], rest);
      }
    }
  }

  /** The legal moves of b in centre-first order: the columns whose top cell is empty. */
  function LegalMoves(b: Grid): (ms: seq<int>)
    ensures forall i :: 0 <= i < |ms| ==> 0 <= ms[i] < Cols && IsLegal(b, ms[i])
  {
    FilterLegal(b, ColumnOrder())
  }

  /** The legal moves are exactly the columns whose top cell is empty, each once, in
      centre-first order. */
  lemma LegalMovesSpec(b: Grid)
    ensures forall c :: c in LegalMoves(b) <==> 0 <= c < Cols && IsLegal(b, c)
    ensures CentreSorted(LegalMoves(b))
    ensures forall i, j :: 0 <= i < j < |LegalMoves(b)| ==> LegalMoves(b)[i] != LegalMoves(b)[j]
  {
    var ms := LegalMoves(b);
    FilterLegalMembers(b, ColumnOrder());
    FilterLegalCentreSorted(b, ColumnOrder());
    forall i, j | 0 <= i < j < |ms|
      ensures ms[i] != ms[j]
    {
      assert CentreFirst(ms[i], ms[j]);
    }
  }

  /** No legal move remains exactly when the top row is full. */
  lemma NoMovesIffTopRowFull(b: Grid)
    ensures LegalMoves(b) == [] <==> TopRowFull(b)
  {
    var ms := LegalMoves(b);
    LegalMovesSpec(b);
    if ms == [] {
      forall c | 0 <= c < Cols
        ensures !IsLegal(b, c)
      {
      }
    } else {
      assert IsLegal(b, ms[0]);
    }
  }

  /** When every column of order is legal, the filter keeps all of them. */
  lemma {:induction false} FilterKeepsAllLegal(b: Grid, order: seq<int>)
    requires forall i :: 0 <= i < |order| ==> 0 <= order[i] < Cols && IsLegal(b, order[i])
    ensures FilterLegal(b, order) == order
  {
    if order != [] {
      FilterKeepsAllLegal(b, order[1..]);
      assert [order[0]] + order[1..] == order;
    }
  }

  /** On the starting board every column is playable, in the full centre-first order. */
  lemma OpeningMoves()
    ensures LegalMoves(EmptyGrid()) == [3, 2, 4, 1, 5, 0, 6]
  {
    var g, order := EmptyGrid(), ColumnOrder();
    forall i | 0 <= i < |order|
      ensures 0 <= order[i] < Cols && IsLegal(g, order[i])
    {
      EmptyGridIsOpen();
    }
    FilterKeepsAllLegal(g, order);
    assert LegalMoves(g) == FilterLegal(g, order);
  }
}
