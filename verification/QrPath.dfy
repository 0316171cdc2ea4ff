/** The zigzag order in which a symbol's modules are visited (ISO/IEC 18004:2015, section 7.7.3). */
module QrPath {

  type Cell = (nat, nat)

  /** Sizes of symbols are odd; below 7 there is no column 6 to step over. */
  predicate SymbolSize(n: nat) {
    n >= 7 && n % 2 == 1
  }

  function Pairs(n: nat): nat {
    n / 2
  }

  /** The right column of the p-th column pair; pairs from column 6 on are shifted left by one. */
  function Right(n: nat, p: nat): int {
    if n - 1 - 2 * p > 6 then n - 1 - 2 * p else n - 2 - 2 * p
  }

  predicate Upward(right: int) {
    (right + 1) % 4 < 2
  }

  /** The q-th module of a column pair. */
  function CellAt(n: nat, p: nat, q: nat): Cell
    requires SymbolSize(n) && p < Pairs(n) && q < 2 * n
  {
    var right := Right(n, p);
    (right - q % 2, if Upward(right) then n - 1 - q / 2 else q / 2)
  }

  predicate InSymbol(n: nat, cells: seq<Cell>) {
    forall i :: 0 <= i < |cells| ==> cells[i].0 < n && cells[i].1 < n
  }

  /** The first m modules of a column pair. */
  function PairCells(n: nat, p: nat, m: nat): (s: seq<Cell>)
    requires SymbolSize(n) && p < Pairs(n) && m <= 2 * n
    ensures |s| == m && InSymbol(n, s)
  {
    seq(m, q requires 0 <= q < m => CellAt(n, p, q))
  }

  /** The modules of the first p column pairs. */
  function Path(n: nat, p: nat): (s: seq<Cell>)
    requires SymbolSize(n) && p <= Pairs(n)
    ensures InSymbol(n, s)
  {
    if p == 0 then [] else Path(n, p - 1) + PairCells(n, p - 1, 2 * n)
  }

  function WholePath(n: nat): (s: seq<Cell>)
    requires SymbolSize(n)
    ensures InSymbol(n, s)
  {
    Path(n, Pairs(n))
  }

  predicate NoRepeats(cells: seq<Cell>) {
    forall i, j :: 0 <= i < j < |cells| ==> cells[i] != cells[j]
  }

  /** The column pair of a column. */
  function PairOf(n: nat, x: nat): int {
    if x > 6 then (n - 1 - x) / 2 else (n - 2 - x) / 2
  }

  lemma CellBelongsToPair(n: nat, p: nat, q: nat)
    requires SymbolSize(n) && p < Pairs(n) && q < 2 * n
    ensures var (x, y) := CellAt(n, p, q); x < n && y < n && x != 6 && PairOf(n, x) == p
  {
  }

  /** Every module outside column 6 is on the path... */
  lemma {:induction false} PathCovers(n: nat, p: nat, x: nat, y: nat)
    requires SymbolSize(n) && p <= Pairs(n) && x < n && y < n && x != 6 && PairOf(n, x) < p
    ensures (x, y) in Path(n, p)
  {
    if PairOf(n, x) < p - 1 {
      PathCovers(n, p - 1, x, y);
    } else {
      var right := Right(n, p - 1);
      var q := 2 * (if Upward(right) then n - 1 - y else y) + (right - x);
      assert PairCells(n, p - 1, 2 * n)[q] == (x, y);
    }
  }

  /** ... and none is met twice, or lies in column 6. */
  lemma {:induction false} PathIsSimple(n: nat, p: nat)
    requires SymbolSize(n) && p <= Pairs(n)
    ensures NoRepeats(Path(n, p))
    ensures forall i :: 0 <= i < |Path(n, p)| ==> Path(n, p)[i].0 != 6 && PairOf(n, Path(n, p)[i].0) < p
  {
    if p > 0 {
      PathIsSimple(n, p - 1);
      var pair := PairCells(n, p - 1, 2 * n);
      forall q | 0 <= q < |pair|
        ensures pair[q].0 != 6 && PairOf(n, pair[q].0) == p - 1
      {
        CellBelongsToPair(n, p - 1, q);
      }
      PairIsSimple(n, p - 1);
      JoinIsSimple(Path(n, p - 1), pair, n, p - 1);
    }
  }

  lemma PairIsSimple(n: nat, p: nat)
    requires SymbolSize(n) && p < Pairs(n)
    ensures NoRepeats(PairCells(n, p, 2 * n))
  {
    forall i, j | 0 <= i < j < 2 * n
      ensures CellAt(n, p, i) != CellAt(n, p, j)
    {
    }
  }

  lemma JoinIsSimple(a: seq<Cell>, b: seq<Cell>, n: nat, p: nat)
    requires NoRepeats(a) && NoRepeats(b)
    requires forall i :: 0 <= i < |a| ==> PairOf(n, a[i].0) < p
    requires forall i :: 0 <= i < |b| ==> PairOf(n, b[i].0) == p
    ensures NoRepeats(a + b)
  {
    hide PairOf;
    forall i, j | 0 <= i < j < |a + b|
      ensures (a + b)[i] != (a + b)[j]
    {
      if i < |a| <= j {
        assert PairOf(n, (a + b)[i].0) < PairOf(n, (a + b)[j].0);
      }
    }
  }

  /** The zigzag visits every module outside column 6 exactly once. */
  lemma ZigzagVisitsEachOnce(n: nat)
    requires SymbolSize(n)
    ensures NoRepeats(WholePath(n))
    ensures forall x: nat, y: nat :: x < n && y < n ==> ((x, y) in WholePath(n) <==> x != 6)
  {
    PathIsSimple(n, Pairs(n));
    forall x: nat, y: nat | x < n && y < n && x != 6
      ensures (x, y) in WholePath(n)
    {
      PathCovers(n, Pairs(n), x, y);
    }
  }

  // ----- the order of the visits

  /** The modules of a pair of columns. */
  function Lap(n: nat): nat {
    2 * n
  }

  /** How section 7.7.3 describes the order: from the lower right corner, two columns at a time, right module before
      left; up the first pair of columns, down the second, and so on; and column 6 is stepped over. */
  ghost predicate Zigzags(n: nat, path: seq<Cell>)
    requires n > 0
  {
    && 0 < |path| == n * (n - 1)
    && path[0] == (n - 1, n - 1)
    && (forall i :: 0 <= i < |path| - 1 && i % 2 == 0 ==> LeftOf(path[i], path[i + 1]))
    && (forall i :: 0 <= i < |path| - 2 && i % 2 == 0 ==>
          if (i + 2) % Lap(n) == 0 then StartsNextPair(path[i], path[i + 2])
          else NextRow(path[i], path[i + 2], i / Lap(n) % 2 == 0))
  }

  predicate LeftOf(c: Cell, d: Cell) {
    d.0 == c.0 - 1 && d.1 == c.1
  }

  predicate NextRow(c: Cell, d: Cell, up: bool) {
    d.0 == c.0 && d.1 == if up then c.1 - 1 else c.1 + 1
  }

  predicate StartsNextPair(c: Cell, d: Cell) {
    d.0 == (if c.0 == 8 then 5 else c.0 - 2) && d.1 == c.1
  }

  lemma {:induction false} PathAt(n: nat, p: nat, k: nat, q: nat)
    requires SymbolSize(n) && k < p <= Pairs(n) && q < Lap(n)
    ensures |Path(n, p)| == Lap(n) * p
    ensures Lap(n) * k + q < |Path(n, p)| && Path(n, p)[Lap(n) * k + q] == CellAt(n, k, q)
  {
    hide CellAt;
    var front := Path(n, p - 1);
    assert Lap(n) * p == Lap(n) * (p - 1) + Lap(n);
    if k < p - 1 {
      PathAt(n, p - 1, k, q);
    } else if p > 1 {
      PathAt(n, p - 1, 0, 0);
    }
    assert k < p - 1 ==> Lap(n) * k + q < |front|;
  }

  lemma PathLength(n: nat)
    requires SymbolSize(n)
    ensures |WholePath(n)| == Lap(n) * Pairs(n) == n * (n - 1)
  {
    hide Path, CellAt;
    PathAt(n, Pairs(n), 0, 0);
    assert Lap(n) * Pairs(n) == 2 * n * Pairs(n) == n * (2 * Pairs(n)) == n * (n - 1);
  }

  lemma Direction(n: nat, k: nat)
    requires SymbolSize(n) && n % 4 == 1 && k < Pairs(n)
    ensures Upward(Right(n, k)) <==> k % 2 == 0
  {
    var half := k / 2;
    assert k == 2 * half || k == 2 * half + 1;
  }

  /** Two modules side by side; then the next row, or the next pair of columns. */
  lemma StepInPair(n: nat, k: nat, q: nat)
    requires SymbolSize(n) && n % 4 == 1 && k < Pairs(n) && q < Lap(n) && q % 2 == 0
    ensures LeftOf(CellAt(n, k, q), CellAt(n, k, q + 1))
    ensures q < Lap(n) - 2 ==> NextRow(CellAt(n, k, q), CellAt(n, k, q + 2), k % 2 == 0)
    ensures q == Lap(n) - 2 && k + 1 < Pairs(n) ==> StartsNextPair(CellAt(n, k, q), CellAt(n, k + 1, 0))
  {
    hide Upward;
    Direction(n, k);
    if k + 1 < Pairs(n) {
      Direction(n, k + 1);
    }
  }

  lemma MultipleOf(m: nat, e: int)
    requires e >= 1
    ensures m * e >= m
  {
  }

  lemma Growth(m: nat, a: int, b: int)
    requires a < b
    ensures m * a + m <= m * b
  {
    MultipleOf(m, b - a);
    assert m * (b - a) == m * b - m * a;
  }

  /** A quotient is less than `k` when the number is less than k times the divisor. */
  lemma QuotientBelow(a: nat, m: nat, k: nat)
    requires m > 0 && a < m * k
    ensures a / m < k
  {
    if a / m >= k {
      Growth(m, k - 1, a / m);
    }
  }

  lemma Quotient(a: nat, m: nat, k: nat, r: nat)
    requires a == m * k + r && r < m
    ensures a / m == k && a % m == r
  {
    var d := a / m;
    assert a == m * d + a % m;
    if d < k {
      Growth(m, d, k);
    } else if k < d {
      Growth(m, k, d);
    }
  }

  /** Where the index two places on begins a pair. */
  lemma TwoOn(m: nat, k: nat, q: nat)
    requires q + 2 <= m
    ensures (m * k + q + 2) % m == 0 <==> q == m - 2
    ensures m * (k + 1) == m * k + m
  {
    assert m * (k + 1) == m * k + m;
    if q == m - 2 {
      Quotient(m * k + q + 2, m, k + 1, 0);
    } else {
      Quotient(m * k + q + 2, m, k, q + 2);
    }
  }

  /** The pair of columns an index is in, and its place in the pair. */
  lemma Placed(m: nat, i: nat) returns (k: nat, q: nat)
    requires m > 0 && m % 2 == 0 && i % 2 == 0
    ensures k == i / m && i == m * k + q && q % 2 == 0 && q <= m - 2
  {
    k, q := Divided(i, m);
    EvenMultiple(m, k);
    EvenRest(i, m * k, q, m);
  }

  lemma Divided(i: nat, m: nat) returns (k: nat, q: nat)
    requires m > 0
    ensures k == i / m && i == m * k + q && q < m
  {
    k, q := i / m, i % m;
  }

  lemma EvenRest(i: nat, whole: nat, q: nat, m: nat)
    requires i % 2 == 0 && whole % 2 == 0 && m % 2 == 0 && i == whole + q && q < m
    ensures q % 2 == 0 && q <= m - 2
  {
  }

  lemma EvenMultiple(m: nat, k: nat)
    requires m % 2 == 0
    ensures m * k % 2 == 0
  {
    assert m * k == 2 * (m / 2 * k);
  }

  lemma StepOnPath(n: nat, i: nat)
    requires SymbolSize(n) && n % 4 == 1 && i % 2 == 0 && i + 1 < |WholePath(n)|
    ensures LeftOf(WholePath(n)[i], WholePath(n)[i + 1])
    ensures i + 2 < |WholePath(n)| ==>
              if (i + 2) % Lap(n) == 0 then StartsNextPair(WholePath(n)[i], WholePath(n)[i + 2])
              else NextRow(WholePath(n)[i], WholePath(n)[i + 2], i / Lap(n) % 2 == 0)
  {
    hide CellAt, Path, Pairs, LeftOf, NextRow, StartsNextPair;
    PathLength(n);
    QuotientBelow(i, Lap(n), Pairs(n));
    var k, q := Placed(Lap(n), i);
    hide Lap;
    TwoOn(Lap(n), k, q);
    PathAt(n, Pairs(n), k, q);
    PathAt(n, Pairs(n), k, q + 1);
    StepInPair(n, k, q);
    if q < Lap(n) - 2 {
      PathAt(n, Pairs(n), k, q + 2);
    } else if i + 2 < |WholePath(n)| {
      QuotientBelow(i + 2, Lap(n), Pairs(n));
      PathAt(n, Pairs(n), k + 1, 0);
    }
  }

  lemma PathIsZigzag(n: nat)
    requires SymbolSize(n) && n % 4 == 1
    ensures Zigzags(n, WholePath(n))
  {
    hide CellAt, Path, WholePath, Pairs, Lap, LeftOf, NextRow, StartsNextPair;
    var path := WholePath(n);
    PathLength(n);
    PathStarts(n);
    forall i | 0 <= i < |path| - 1 && i % 2 == 0
      ensures LeftOf(path[i], path[i + 1])
    {
      StepOnPath(n, i);
    }
    forall i | 0 <= i < |path| - 2 && i % 2 == 0
      ensures if (i + 2) % Lap(n) == 0 then StartsNextPair(path[i], path[i + 2])
              else NextRow(path[i], path[i + 2], i / Lap(n) % 2 == 0)
    {
      StepOnPath(n, i);
    }
  }

  lemma PathStarts(n: nat)
    requires SymbolSize(n) && n % 4 == 1
    ensures WholePath(n) != [] && WholePath(n)[0] == (n - 1, n - 1)
  {
    Direction(n, 0);
    PathAt(n, Pairs(n), 0, 0);
  }

  /** In a symbol of any version the path is that zigzag, and no other sequence is. */
  lemma PathZigzags(n: nat, path: seq<Cell>)
    requires SymbolSize(n) && n % 4 == 1
    ensures Zigzags(n, path) <==> path == WholePath(n)
  {
    hide Zigzags, WholePath;
    PathIsZigzag(n);
    if Zigzags(n, path) {
      ZigzagIsDetermined(n, path, WholePath(n), |path|);
      SameLength(n, path, WholePath(n));
    }
  }

  lemma SameLength(n: nat, a: seq<Cell>, b: seq<Cell>)
    requires n > 0 && Zigzags(n, a) && Zigzags(n, b)
    ensures |a| == |b| && a[..|a|] == a && b[..|a|] == b
  {
  }

  lemma {:induction false} ZigzagIsDetermined(n: nat, a: seq<Cell>, b: seq<Cell>, m: nat)
    requires n > 0 && Zigzags(n, a) && Zigzags(n, b) && m <= |a|
    ensures a[..m] == b[..m]
  {
    if m > 1 {
      ZigzagIsDetermined(n, a, b, m - 1);
      var i := if m % 2 == 0 then m - 2 else m - 3;
      assert a[..m - 1][i] == b[..m - 1][i];
      assert LeftOf(a[i], a[i + 1]) && LeftOf(b[i], b[i + 1]);
    }
  }
}
