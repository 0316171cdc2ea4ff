/** Grids of modules as values: writing codewords along a path and reading them back, data masks and format bits
    (ISO/IEC 18004:2015, sections 7.7 to 7.9). */
module QrGrid {
  import opened QrPath
  import GaloisField

  type Grid = seq<seq<bool>>

  predicate Square(g: Grid, n: nat) {
    |g| == n && forall y :: 0 <= y < n ==> |g[y]| == n
  }

  function At(g: Grid, n: nat, c: Cell): bool
    requires Square(g, n) && c.0 < n && c.1 < n
  {
    g[c.1][c.0]
  }

  function Put(g: Grid, n: nat, c: Cell, b: bool): (r: Grid)
    requires Square(g, n) && c.0 < n && c.1 < n
    ensures Square(r, n)
    ensures forall d: Cell :: d.0 < n && d.1 < n ==> At(r, n, d) == if d == c then b else At(g, n, d)
  {
    g[c.1 := g[c.1][c.0 := b]]
  }

  ghost predicate SameAt(g: Grid, h: Grid, n: nat, c: Cell)
    requires Square(g, n) && Square(h, n)
  {
    c.0 < n && c.1 < n ==> At(g, n, c) == At(h, n, c)
  }

  lemma GridsEqual(g: Grid, h: Grid, n: nat)
    requires Square(g, n) && Square(h, n)
    requires forall c: Cell :: SameAt(g, h, n, c)
    ensures g == h
  {
    forall y | 0 <= y < n
      ensures g[y] == h[y]
    {
      forall x | 0 <= x < n
        ensures g[y][x] == h[y][x]
      {
        assert SameAt(g, h, n, (x, y));
      }
    }
  }

  // ----- codewords along a path

  datatype Progress = Progress(grid: Grid, used: nat)

  /** Along `cells`, each module that is not a function module takes the next bit, while bits last. */
  function Drawn(g: Grid, f: Grid, n: nat, bits: seq<bool>, cells: seq<Cell>): (r: Progress)
    requires Square(g, n) && Square(f, n) && InSymbol(n, cells)
    ensures Square(r.grid, n) && r.used <= |bits|
  {
    if cells == [] then Progress(g, 0)
    else
      var c := cells[|cells| - 1];
      var before := Drawn(g, f, n, bits, cells[..|cells| - 1]);
      if !At(f, n, c) && before.used < |bits|
      then Progress(Put(before.grid, n, c, bits[before.used]), before.used + 1)
      else before
  }

  /** The bits found along `cells`, function modules left out. */
  function ReadAlong(g: Grid, f: Grid, n: nat, cells: seq<Cell>): seq<bool>
    requires Square(g, n) && Square(f, n) && InSymbol(n, cells)
  {
    if cells == [] then []
    else
      var c := cells[|cells| - 1];
      ReadAlong(g, f, n, cells[..|cells| - 1]) + (if At(f, n, c) then [] else [At(g, n, c)])
  }

  /** Modules along `cells` that can carry data. */
  function Room(f: Grid, n: nat, cells: seq<Cell>): nat
    requires Square(f, n) && InSymbol(n, cells)
  {
    if cells == [] then 0
    else Room(f, n, cells[..|cells| - 1]) + (if At(f, n, cells[|cells| - 1]) then 0 else 1)
  }

  lemma {:induction false} DrawingTouchesOnlyFreeCells(g: Grid, f: Grid, n: nat, bits: seq<bool>, cells: seq<Cell>)
    requires Square(g, n) && Square(f, n) && InSymbol(n, cells)
    ensures forall c: Cell :: c.0 < n && c.1 < n && (At(f, n, c) || c !in cells) ==>
              At(Drawn(g, f, n, bits, cells).grid, n, c) == At(g, n, c)
  {
    if cells != [] {
      DrawingTouchesOnlyFreeCells(g, f, n, bits, cells[..|cells| - 1]);
    }
  }

  lemma {:induction false} DrawingUsesTheRoom(g: Grid, f: Grid, n: nat, bits: seq<bool>, cells: seq<Cell>)
    requires Square(g, n) && Square(f, n) && InSymbol(n, cells)
    ensures Drawn(g, f, n, bits, cells).used == if Room(f, n, cells) < |bits| then Room(f, n, cells) else |bits|
  {
    if cells != [] {
      DrawingUsesTheRoom(g, f, n, bits, cells[..|cells| - 1]);
    }
  }

  /** A later write elsewhere does not change what was read. */
  lemma {:induction false} ReadingIgnoresOtherCells(g: Grid, h: Grid, f: Grid, n: nat, cells: seq<Cell>)
    requires Square(g, n) && Square(h, n) && Square(f, n) && InSymbol(n, cells)
    requires forall c :: c in cells && !At(f, n, c) ==> At(g, n, c) == At(h, n, c)
    ensures ReadAlong(g, f, n, cells) == ReadAlong(h, f, n, cells)
  {
    if cells != [] {
      ReadingIgnoresOtherCells(g, h, f, n, cells[..|cells| - 1]);
    }
  }

  lemma {:induction false} ReadingUndoesDrawing(g: Grid, f: Grid, n: nat, bits: seq<bool>, cells: seq<Cell>)
    requires Square(g, n) && Square(f, n) && InSymbol(n, cells) && NoRepeats(cells)
    ensures var r := Drawn(g, f, n, bits, cells);
            r.used <= |ReadAlong(r.grid, f, n, cells)| && ReadAlong(r.grid, f, n, cells)[..r.used] == bits[..r.used]
    ensures |ReadAlong(Drawn(g, f, n, bits, cells).grid, f, n, cells)| == Room(f, n, cells)
  {
    if cells != [] {
      var k := |cells| - 1;
      var before := Drawn(g, f, n, bits, cells[..k]);
      ReadingUndoesDrawing(g, f, n, bits, cells[..k]);
      DrawingUsesTheRoom(g, f, n, bits, cells[..k]);
      ReadingSkipsNewCell(before.grid, f, n, bits, before.used, cells);
      hide ReadAlong;
      var read, used := ReadAlong(before.grid, f, n, cells[..k]), before.used;
      if !At(f, n, cells[k]) && used < |bits| {
        assert read == bits[..used];
        assert (read + [bits[used]])[..used + 1] == bits[..used + 1];
      } else {
        assert ReadAlong(before.grid, f, n, cells)[..used] == read[..used];
      }
    }
  }

  /** What was read before a module is written is still read after it, followed by that module. */
  lemma ReadingSkipsNewCell(g: Grid, f: Grid, n: nat, bits: seq<bool>, used: nat, cells: seq<Cell>)
    requires Square(g, n) && Square(f, n) && InSymbol(n, cells) && NoRepeats(cells) && cells != []
    ensures var k := |cells| - 1; var c := cells[k];
            && ReadAlong(g, f, n, cells) == ReadAlong(g, f, n, cells[..k]) + (if At(f, n, c) then [] else [At(g, n, c)])
            && (used < |bits| && !At(f, n, c) ==>
                  ReadAlong(Put(g, n, c, bits[used]), f, n, cells) == ReadAlong(g, f, n, cells[..k]) + [bits[used]])
  {
    var k := |cells| - 1;
    var c := cells[k];
    if used < |bits| && !At(f, n, c) {
      assert c !in cells[..k];
      ReadingIgnoresOtherCells(g, Put(g, n, c, bits[used]), f, n, cells[..k]);
    }
  }

  /** With room for all bits, all are used, and reading the whole path starts with exactly those bits. */
  lemma DrawnDataIsReadBack(g: Grid, f: Grid, n: nat, bits: seq<bool>)
    requires SymbolSize(n) && Square(g, n) && Square(f, n)
    requires |bits| <= Room(f, n, WholePath(n))
    ensures var r := Drawn(g, f, n, bits, WholePath(n));
            r.used == |bits| && |bits| <= |ReadAlong(r.grid, f, n, WholePath(n))|
            && ReadAlong(r.grid, f, n, WholePath(n))[..|bits|] == bits
  {
    ZigzagVisitsEachOnce(n);
    DrawingUsesTheRoom(g, f, n, bits, WholePath(n));
    ReadingUndoesDrawing(g, f, n, bits, WholePath(n));
  }

  /** The i-th module of a path without repetition holds the bit whose number is that of the free modules before it;
      function modules, and modules for which no bit is left, stay as they were. */
  lemma {:induction false} EachModuleHoldsItsBit(g: Grid, f: Grid, n: nat, bits: seq<bool>, cells: seq<Cell>, i: nat)
    requires Square(g, n) && Square(f, n) && InSymbol(n, cells) && NoRepeats(cells) && i < |cells|
    ensures var k := Room(f, n, cells[..i]);
            At(Drawn(g, f, n, bits, cells).grid, n, cells[i])
              == if !At(f, n, cells[i]) && k < |bits| then bits[k] else At(g, n, cells[i])
  {
    hide Put, Room;
    var m := |cells| - 1;
    if i < m {
      assert cells[..m][i] != cells[m];
      EachModuleHoldsItsBit(g, f, n, bits, cells[..m], i);
      assert cells[..m][..i] == cells[..i];
    } else {
      DrawingUsesTheRoom(g, f, n, bits, cells[..m]);
      assert cells[m] !in cells[..m];
      DrawingTouchesOnlyFreeCells(g, f, n, bits, cells[..m]);
    }
  }

  /** The bits stand along the zigzag of the standard, whatever computes it. */
  lemma BitsStandInOrder(g: Grid, f: Grid, n: nat, bits: seq<bool>, path: seq<Cell>, i: nat)
    requires SymbolSize(n) && n % 4 == 1 && Square(g, n) && Square(f, n) && Zigzags(n, path) && i < |path|
    ensures InSymbol(n, path)
    ensures var k := Room(f, n, path[..i]);
            At(Drawn(g, f, n, bits, WholePath(n)).grid, n, path[i])
              == if !At(f, n, path[i]) && k < |bits| then bits[k] else At(g, n, path[i])
  {
    hide Zigzags, WholePath;
    PathZigzags(n, path);
    ZigzagVisitsEachOnce(n);
    EachModuleHoldsItsBit(g, f, n, bits, path, i);
  }

  // ----- masks

  predicate Inverts(m: nat, x: nat, y: nat)
    requires m < 8
  {
    match m
    case 0 => (x + y) % 2 == 0
    case 1 => y % 2 == 0
    case 2 => x % 3 == 0
    case 3 => (x + y) % 3 == 0
    case 4 => (x / 3 + y / 2) % 2 == 0
    case 5 => x * y % 2 + x * y % 3 == 0
    case 6 => (x * y % 2 + x * y % 3) % 2 == 0
    case 7 => ((x + y) % 2 + x * y % 3) % 2 == 0
  }

  function MaskedModule(g: Grid, f: Grid, n: nat, m: nat, c: Cell): bool
    requires m < 8 && Square(g, n) && Square(f, n) && c.0 < n && c.1 < n
  {
    At(g, n, c) != (Inverts(m, c.0, c.1) && !At(f, n, c))
  }

  function Masked(g: Grid, f: Grid, n: nat, m: nat): (r: Grid)
    requires m < 8 && Square(g, n) && Square(f, n)
    ensures Square(r, n)
    ensures forall c: Cell :: c.0 < n && c.1 < n ==> At(r, n, c) == MaskedModule(g, f, n, m, c)
  {
    seq(n, y requires 0 <= y < n => seq(n, x requires 0 <= x < n => MaskedModule(g, f, n, m, (x, y))))
  }

  /** Masking twice with the same mask changes nothing. */
  lemma MaskingIsAnInvolution(g: Grid, f: Grid, n: nat, m: nat)
    requires m < 8 && Square(g, n) && Square(f, n)
    ensures Masked(Masked(g, f, n, m), f, n, m) == g
  {
    hide Inverts, Masked;
    GridsEqual(Masked(Masked(g, f, n, m), f, n, m), g, n);
  }

  // ----- format bits

  type Writes = seq<(Cell, bool)>

  predicate WritesIn(n: nat, w: Writes) {
    forall i :: 0 <= i < |w| ==> w[i].0.0 < n && w[i].0.1 < n
  }

  function WriteAll(g: Grid, n: nat, w: Writes): (r: Grid)
    requires Square(g, n) && WritesIn(n, w)
    ensures Square(r, n)
  {
    if w == [] then g
    else
      var last := w[|w| - 1];
      Put(WriteAll(g, n, w[..|w| - 1]), n, last.0, last.1)
  }

  predicate Writes?(w: Writes, c: Cell) {
    exists i :: 0 <= i < |w| && w[i].0 == c
  }

  ghost predicate SameCells(v: Writes, w: Writes) {
    |v| == |w| && forall i :: 0 <= i < |v| ==> v[i].0 == w[i].0
  }

  lemma {:induction false} WrittenCells(g: Grid, h: Grid, n: nat, w: Writes, c: Cell)
    requires Square(g, n) && Square(h, n) && WritesIn(n, w) && c.0 < n && c.1 < n
    ensures Writes?(w, c) ==> At(WriteAll(g, n, w), n, c) == At(WriteAll(h, n, w), n, c)
    ensures !Writes?(w, c) ==> At(WriteAll(g, n, w), n, c) == At(g, n, c)
  {
    if w != [] {
      hide Put;
      var front := w[..|w| - 1];
      WrittenCells(g, h, n, front, c);
      if Writes?(w, c) && w[|w| - 1].0 != c {
        var i :| 0 <= i < |w| && w[i].0 == c;
        assert front[i].0 == c;
      }
    }
  }

  /** A second round of writes to the same modules leaves no trace of the first. */
  lemma RewritingOverwrites(g: Grid, n: nat, v: Writes, w: Writes)
    requires Square(g, n) && WritesIn(n, v) && WritesIn(n, w) && SameCells(v, w)
    ensures WriteAll(WriteAll(g, n, v), n, w) == WriteAll(g, n, w)
  {
    var first := WriteAll(g, n, v);
    forall c: Cell
      ensures SameAt(WriteAll(first, n, w), WriteAll(g, n, w), n, c)
    {
      if c.0 < n && c.1 < n {
        WrittenCells(first, g, n, w, c);
        WrittenCells(g, first, n, w, c);
        WrittenCells(g, g, n, v, c);
        if Writes?(v, c) {
          var i :| 0 <= i < |v| && v[i].0 == c;
          assert w[i].0 == c;
        }
      }
    }
    GridsEqual(WriteAll(first, n, w), WriteAll(g, n, w), n);
  }

  predicate OnFunctionModules(f: Grid, n: nat, w: Writes)
    requires Square(f, n) && WritesIn(n, w)
  {
    forall i :: 0 <= i < |w| ==> At(f, n, w[i].0)
  }

  /** Masking does not see writes to function modules. */
  lemma MaskingCommutesWithWrites(g: Grid, f: Grid, n: nat, m: nat, w: Writes)
    requires m < 8 && Square(g, n) && Square(f, n) && WritesIn(n, w) && OnFunctionModules(f, n, w)
    ensures Masked(WriteAll(g, n, w), f, n, m) == WriteAll(Masked(g, f, n, m), n, w)
  {
    hide Inverts, Masked;
    var written, masked := WriteAll(g, n, w), Masked(g, f, n, m);
    forall c: Cell
      ensures SameAt(Masked(written, f, n, m), WriteAll(masked, n, w), n, c)
    {
      if c.0 < n && c.1 < n {
        WrittenCells(g, masked, n, w, c);
        WrittenCells(masked, g, n, w, c);
      }
    }
    GridsEqual(Masked(written, f, n, m), WriteAll(masked, n, w), n);
  }
}
