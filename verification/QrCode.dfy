/** The symbol object: its two grids are changed in place while codewords are drawn and masks are tried. */
module QrCodes {
  import opened QrPath
  import opened QrGrid
  import opened QrEncoding
  import GaloisField

  const SMALLEST := 21
  const LONG_MAX := 0x7fff_ffff

  function FormatLevel(level: Ecc): bv32 {
    match level case Low => 1 case Medium => 0 case Quartile => 3 case High => 2
  }

  /** The remainder that protects the format data, after n of its ten steps. */
  function FormatRemainder(data: bv32, n: nat): bv32 {
    if n == 0 then data
    else FormatStep(FormatRemainder(data, n - 1))
  }

  function FormatStep(rem: bv32): bv32 {
    (rem << 1) ^ ((rem >> 9) * 0x537)
  }

  function FormatData(level: Ecc, mask: nat): bv32
    requires mask < 8
  {
    (FormatLevel(level) << 3) | (mask as bv32)
  }

  function FormatBits(level: Ecc, mask: nat): bv32
    requires mask < 8
  {
    var data := FormatData(level, mask);
    ((data << 10) | FormatRemainder(data, 10)) ^ 0x5412
  }

  function GetBit(x: bv32, i: nat): bool
    requires i < 32
  {
    (x >> i) & 1 != 0
  }

  /** The copy of the format bits around the upper left finder. */
  function FirstCopy(bits: bv32): (w: Writes)
    ensures WritesIn(9, w)
  {
    seq(6, i requires 0 <= i < 6 => ((8, i), GetBit(bits, i)))
    + [((8, 7), GetBit(bits, 6)), ((8, 8), GetBit(bits, 7)), ((7, 8), GetBit(bits, 8))]
    + seq(6, i requires 0 <= i < 6 => ((5 - i, 8), GetBit(bits, i + 9)))
  }

  /** The copy split between the other two finders, and the module that is always dark. */
  function SecondCopy(n: nat, bits: bv32): (w: Writes)
    requires n >= SMALLEST
    ensures WritesIn(n, w)
  {
    seq(8, i requires 0 <= i < 8 => ((n - 1 - i, 8), GetBit(bits, i)))
    + seq(7, i requires 0 <= i < 7 => ((8, n - 7 + i), GetBit(bits, i + 8)))
    + [((8, n - 8), true)]
  }

  function FormatWrites(n: nat, bits: bv32): (w: Writes)
    requires n >= SMALLEST
    ensures WritesIn(n, w)
  {
    FirstCopy(bits) + SecondCopy(n, bits)
  }

  lemma FormatCellsAreFixed(n: nat, a: bv32, b: bv32)
    requires n >= SMALLEST
    ensures SameCells(FormatWrites(n, a), FormatWrites(n, b))
  {
    hide GetBit;
  }

  function Marks(w: Writes): (m: Writes)
    ensures SameCells(m, w)
  {
    seq(|w|, i requires 0 <= i < |w| => (w[i].0, true))
  }

  lemma {:induction false} MarkingFunctionModules(f: Grid, n: nat, w: Writes)
    requires Square(f, n) && WritesIn(n, w) && OnFunctionModules(f, n, w)
    ensures WriteAll(f, n, Marks(w)) == f
  {
    if w != [] {
      var k := |w| - 1;
      MarkingFunctionModules(f, n, w[..k]);
      assert Marks(w)[..k] == Marks(w[..k]);
      forall c: Cell
        ensures SameAt(Put(f, n, w[k].0, true), f, n, c)
      {
      }
      GridsEqual(Put(f, n, w[k].0, true), f, n);
    }
  }

  /** The grid on which the penalty of mask `m` is measured. */
  function Trial(g: Grid, f: Grid, n: nat, level: Ecc, m: nat): (r: Grid)
    requires m < 8 && n >= SMALLEST && Square(g, n) && Square(f, n)
    ensures Square(r, n)
  {
    WriteAll(Masked(g, f, n, m), n, MaskWrites(n, level, m))
  }

  /** The writes that `drawFormatBits` makes for a mask. */
  function MaskWrites(n: nat, level: Ecc, m: nat): (w: Writes)
    requires m < 8 && n >= SMALLEST
    ensures WritesIn(n, w)
  {
    FormatWrites(n, FormatBits(level, m))
  }

  /** The modules of the format bits have been reserved, as the function patterns do. */
  ghost predicate FormatReserved(f: Grid, n: nat)
    requires n >= SMALLEST && Square(f, n)
  {
    OnFunctionModules(f, n, FormatWrites(n, 0))
  }

  lemma ReservedForAnyMask(f: Grid, n: nat, level: Ecc, m: nat)
    requires m < 8 && n >= SMALLEST && Square(f, n) && FormatReserved(f, n)
    ensures OnFunctionModules(f, n, MaskWrites(n, level, m))
  {
    hide FormatWrites, FormatBits;
    FormatCellsAreFixed(n, FormatBits(level, m), 0);
    var w := MaskWrites(n, level, m);
    forall i | 0 <= i < |w|
      ensures At(f, n, w[i].0)
    {
      assert w[i].0 == FormatWrites(n, 0)[i].0;
    }
  }

  /** Format bits left by an earlier trial do not show in a later one. */
  lemma TrialForgetsTheLast(g: Grid, f: Grid, n: nat, level: Ecc, last: nat, m: nat)
    requires last < 8 && m < 8 && n >= SMALLEST && Square(g, n) && Square(f, n) && FormatReserved(f, n)
    ensures var left := WriteAll(g, n, MaskWrites(n, level, last));
            WriteAll(Masked(left, f, n, m), n, MaskWrites(n, level, m)) == Trial(g, f, n, level, m)
  {
    hide FormatWrites, FormatBits, Masked, WriteAll, FormatReserved;
    ReservedForAnyMask(f, n, level, last);
    MaskingCommutesWithWrites(g, f, n, m, MaskWrites(n, level, last));
    FormatCellsAreFixed(n, FormatBits(level, last), FormatBits(level, m));
    RewritingOverwrites(Masked(g, f, n, m), n, MaskWrites(n, level, last), MaskWrites(n, level, m));
  }

  /** Masking a trial grid again leaves only the format bits behind. */
  lemma UnmaskedTrial(g: Grid, f: Grid, n: nat, level: Ecc, m: nat)
    requires m < 8 && n >= SMALLEST && Square(g, n) && Square(f, n) && FormatReserved(f, n)
    ensures Masked(Trial(g, f, n, level, m), f, n, m) == WriteAll(g, n, MaskWrites(n, level, m))
  {
    hide FormatWrites, FormatBits, Masked, WriteAll, FormatReserved;
    ReservedForAnyMask(f, n, level, m);
    MaskingCommutesWithWrites(Masked(g, f, n, m), f, n, m, MaskWrites(n, level, m));
    MaskingIsAnInvolution(g, f, n, m);
  }

  /** What the symbol holds: unmask it, read along the zigzag, and the bits drawn come back. */
  lemma SymbolHoldsItsBits(g: Grid, f: Grid, n: nat, level: Ecc, m: nat, bits: seq<bool>)
    requires m < 8 && SymbolSize(n) && n >= SMALLEST && Square(g, n) && Square(f, n) && FormatReserved(f, n)
    requires |bits| <= Room(f, n, WholePath(n))
    ensures var symbol := Trial(Drawn(g, f, n, bits, WholePath(n)).grid, f, n, level, m);
            var read := ReadAlong(Masked(symbol, f, n, m), f, n, WholePath(n));
            |bits| <= |read| && read[..|bits|] == bits
  {
    hide FormatWrites, FormatBits, Masked, FormatReserved;
    var drawn, w := Drawn(g, f, n, bits, WholePath(n)).grid, MaskWrites(n, level, m);
    UnmaskedTrial(drawn, f, n, level, m);
    ReservedForAnyMask(f, n, level, m);
    forall c | c in WholePath(n) && !At(f, n, c)
      ensures At(WriteAll(drawn, n, w), n, c) == At(drawn, n, c)
    {
      WrittenCells(drawn, drawn, n, w, c);
    }
    ReadingIgnoresOtherCells(drawn, WriteAll(drawn, n, w), f, n, WholePath(n));
    DrawnDataIsReadBack(g, f, n, bits);
  }

  /** A mask as the caller gives it, or the cheapest trial, the first of equals. */
  ghost predicate ChosenMask(g: Grid, f: Grid, n: nat, level: Ecc, asked: int, penalty: Grid -> int, m: nat)
    requires n >= SMALLEST && Square(g, n) && Square(f, n)
  {
    && m < 8
    && if asked != -1 then m == asked
       else
         && (forall k: nat :: k < 8 ==> penalty(Trial(g, f, n, level, m)) <= penalty(Trial(g, f, n, level, k)))
         && (forall k: nat :: k < m ==> penalty(Trial(g, f, n, level, m)) < penalty(Trial(g, f, n, level, k)))
  }

  class QrCode {
    const size: nat
    const level: Ecc
    const modules: array2<bool>
    const isFunction: array2<bool>
    var mask: int

    ghost predicate Valid() {
      && SymbolSize(size) && size >= SMALLEST
      && modules != isFunction
      && modules.Length0 == modules.Length1 == size
      && isFunction.Length0 == isFunction.Length1 == size
    }

    function Modules(): (g: Grid)
      requires Valid()
      reads modules
      ensures Square(g, size)
      ensures forall c: Cell :: c.0 < size && c.1 < size ==> At(g, size, c) == modules[c.1, c.0]
    {
      seq(size, y requires 0 <= y < size reads modules =>
        seq(size, x requires 0 <= x < size reads modules => modules[y, x]))
    }

    ghost function Functions(): (g: Grid)
      requires Valid()
      reads isFunction
      ensures Square(g, size)
      ensures forall c: Cell :: c.0 < size && c.1 < size ==> At(g, size, c) == isFunction[c.1, c.0]
    {
      seq(size, y requires 0 <= y < size reads isFunction =>
        seq(size, x requires 0 <= x < size reads isFunction => isFunction[y, x]))
    }

    method SetModule(x: nat, y: nat, b: bool)
      requires Valid() && x < size && y < size
      modifies modules
      ensures Modules() == Put(old(Modules()), size, (x, y), b)
    {
      modules[y, x] := b;
      forall c: Cell
        ensures SameAt(Modules(), Put(old(Modules()), size, (x, y), b), size, c)
      {
      }
      GridsEqual(Modules(), Put(old(Modules()), size, (x, y), b), size);
    }

    method SetFunctionModule(x: nat, y: nat, isDark: bool)
      requires Valid() && x < size && y < size
      modifies modules, isFunction
      ensures Modules() == Put(old(Modules()), size, (x, y), isDark)
      ensures Functions() == Put(old(Functions()), size, (x, y), true)
    {
      SetModule(x, y, isDark);
      isFunction[y, x] := true;
      forall c: Cell
        ensures SameAt(Functions(), Put(old(Functions()), size, (x, y), true), size, c)
      {
      }
      GridsEqual(Functions(), Put(old(Functions()), size, (x, y), true), size);
    }

    /** The grid and the number of bits used are those of drawing `bits` along `cells` on the grid `g`. */
    ghost predicate HasDrawn(g: Grid, bits: seq<bool>, cells: seq<Cell>, i: nat)
      requires Valid() && Square(g, size) && InSymbol(size, cells)
      reads modules, isFunction
    {
      Progress(Modules(), i) == Drawn(g, Functions(), size, bits, cells)
    }

    /** One visit of the scan. */
    method PlaceBit(x: nat, y: nat, data: seq<bv8>, i: nat, ghost g: Grid, ghost cells: seq<Cell>)
      returns (i': nat)
      requires Valid() && x < size && y < size && Square(g, size) && InSymbol(size, cells)
      requires HasDrawn(g, Unpack(data), cells, i)
      modifies modules
      ensures HasDrawn(g, Unpack(data), cells + [(x, y)], i')
    {
      hide GaloisField.Bit;
      assert (cells + [(x, y)])[..|cells|] == cells;
      i' := i;
      if !isFunction[y, x] && i < |data| * 8 {
        SetModule(x, y, GaloisField.Bit(data[i / 8], 7 - i % 8));
        i' := i + 1;
      }
    }

    /** The zigzag scan, which is refused unless there are as many codewords as a symbol of this version takes. The
        second result counts the bits placed. */
    method DrawCodewords(data: seq<bv8>, rawCodewords: nat) returns (ok: bool, i: nat)
      requires Valid()
      modifies modules
      ensures ok <==> |data| == rawCodewords
      ensures if ok then HasDrawn(old(Modules()), Unpack(data), WholePath(size), i) else Modules() == old(Modules())
    {
      hide HasDrawn, Modules, Functions, Unpack;
      i := 0;
      if |data| != rawCodewords {
        return false, 0;
      }
      var right := size - 1;
      ghost var p := 0;
      NothingDrawn(data);
      while right >= 1
        invariant p <= Pairs(size)
        invariant right == if size - 1 - 2 * p >= 6 then size - 1 - 2 * p else size - 2 - 2 * p
        invariant HasDrawn(old(Modules()), Unpack(data), Path(size, p), i)
      {
        if right == 6 {
          right := 5;
        }
        i := DrawPair(right, p, data, i, old(Modules()));
        right := right - 2;
        p := p + 1;
      }
      ok := true;
    }

    /** Both columns of a pair, from one end to the other. */
    method DrawPair(right: int, ghost p: nat, data: seq<bv8>, start: nat, ghost g: Grid) returns (i: nat)
      requires Valid() && Square(g, size) && p < Pairs(size) && right == Right(size, p)
      requires HasDrawn(g, Unpack(data), Path(size, p), start)
      modifies modules
      ensures HasDrawn(g, Unpack(data), Path(size, p + 1), i)
    {
      hide HasDrawn, Modules, Functions, Unpack;
      i := start;
      assert Path(size, p) + PairCells(size, p, 0) == Path(size, p);
      for vert := 0 to size
        invariant HasDrawn(g, Unpack(data), Path(size, p) + PairCells(size, p, 2 * vert), i)
      {
        for j := 0 to 2
          invariant HasDrawn(g, Unpack(data), Path(size, p) + PairCells(size, p, 2 * vert + j), i)
        {
          var x := right - j;
          var upward := (right + 1) % 4 < 2;
          var y := if upward then size - 1 - vert else vert;
          ghost var before := Path(size, p) + PairCells(size, p, 2 * vert + j);
          assert (x, y) == CellAt(size, p, 2 * vert + j);
          assert before + [(x, y)] == Path(size, p) + PairCells(size, p, 2 * vert + j + 1);
          i := PlaceBit(x, y, data, i, g, before);
        }
      }
    }

    lemma NothingDrawn(data: seq<bv8>)
      requires Valid()
      ensures HasDrawn(Modules(), Unpack(data), [], 0)
    {
    }

    /** Inverts the modules of a mask pattern, function modules excepted; false for a mask out of range. */
    method ApplyMask(msk: int) returns (ok: bool)
      requires Valid()
      modifies modules
      ensures ok <==> 0 <= msk <= 7
      ensures Modules() == if ok then Masked(old(Modules()), Functions(), size, msk) else old(Modules())
    {
      if msk < 0 || msk > 7 {
        return false;
      }
      hide Inverts, MaskedModule, Modules, Functions;
      MaskingStarts(msk);
      for y := 0 to size
        invariant MaskedUpTo(old(Modules()), msk, y, 0)
      {
        for x := 0 to size
          invariant MaskedUpTo(old(Modules()), msk, y, x)
        {
          MaskModule(msk, x, y, old(Modules()));
        }
      }
      MaskingEnds(msk, old(Modules()));
      ok := true;
    }

    /** Rows above y, and row y left of x, carry the mask; the rest is as in `g`. */
    ghost predicate MaskedUpTo(g: Grid, msk: nat, y: nat, x: nat)
      requires Valid() && Square(g, size) && msk < 8
      reads modules, isFunction
    {
      forall c: Cell :: c.0 < size && c.1 < size ==>
        At(Modules(), size, c) == if c.1 < y || (c.1 == y && c.0 < x) then MaskedModule(g, Functions(), size, msk, c)
                                  else At(g, size, c)
    }

    method MaskModule(msk: nat, x: nat, y: nat, ghost g: Grid)
      requires Valid() && msk < 8 && x < size && y < size && Square(g, size) && MaskedUpTo(g, msk, y, x)
      modifies modules
      ensures MaskedUpTo(g, msk, y, x + 1) && (x + 1 == size ==> MaskedUpTo(g, msk, y + 1, 0))
    {
      hide Inverts;
      assert At(Modules(), size, (x, y)) == modules[y, x] && At(Functions(), size, (x, y)) == isFunction[y, x];
      SetModule(x, y, modules[y, x] != (Inverts(msk, x, y) && !isFunction[y, x]));
    }

    lemma MaskingStarts(msk: nat)
      requires Valid() && msk < 8
      ensures MaskedUpTo(Modules(), msk, 0, 0)
    {
    }

    lemma MaskingEnds(msk: nat, g: Grid)
      requires Valid() && msk < 8 && Square(g, size) && MaskedUpTo(g, msk, size, 0)
      ensures Modules() == Masked(g, Functions(), size, msk)
    {
      hide Inverts, Modules, Functions, Masked;
      forall c: Cell
        ensures SameAt(Modules(), Masked(g, Functions(), size, msk), size, c)
      {
      }
      GridsEqual(Modules(), Masked(g, Functions(), size, msk), size);
    }

    method ComputeFormatBits(msk: nat) returns (bits: bv32)
      requires msk < 8
      ensures bits == FormatBits(level, msk)
    {
      hide FormatData, FormatRemainder;
      var data := FormatData(level, msk);
      var rem := ComputeRemainderBits(data, 10);
      bits := ((data << 10) | rem) ^ 0x5412;
    }

    method ComputeRemainderBits(data: bv32, steps: nat) returns (rem: bv32)
      ensures rem == FormatRemainder(data, steps)
    {
      hide FormatStep;
      rem := data;
      for i := 0 to steps
        invariant rem == FormatRemainder(data, i)
      {
        rem := FormatStep(rem);
      }
    }

    method DrawFormatBits(msk: nat)
      requires Valid() && msk < 8
      modifies modules, isFunction
      ensures Modules() == WriteAll(old(Modules()), size, MaskWrites(size, level, msk))
      ensures Functions() == WriteAll(old(Functions()), size, Marks(MaskWrites(size, level, msk)))
    {
      hide FormatWrites, Modules, Functions, Put;
      var bits := ComputeFormatBits(msk);
      var w := FormatWrites(size, bits);
      for k := 0 to |w|
        invariant Modules() == WriteAll(old(Modules()), size, w[..k])
        invariant Functions() == WriteAll(old(Functions()), size, Marks(w)[..k])
      {
        assert w[..k + 1][..k] == w[..k] && Marks(w)[..k + 1][..k] == Marks(w)[..k];
        SetFunctionModule(w[k].0.0, w[k].0.1, w[k].1);
      }
      assert w[..|w|] == w && Marks(w)[..|w|] == Marks(w);
    }

    /** Draws the format bits where they are already reserved: no module changes its kind. */
    method RedrawFormatBits(msk: nat)
      requires Valid() && msk < 8 && FormatReserved(Functions(), size)
      modifies modules, isFunction
      ensures Modules() == WriteAll(old(Modules()), size, MaskWrites(size, level, msk))
      ensures Functions() == old(Functions())
    {
      hide FormatReserved, MaskWrites, Modules, Functions;
      ReservedForAnyMask(Functions(), size, level, msk);
      MarkingFunctionModules(Functions(), size, MaskWrites(size, level, msk));
      DrawFormatBits(msk);
    }

    /** Tries the eight masks when asked to choose (-1), then applies the final one. */
    method FinishWithMask(asked: int, penalty: Grid -> int)
      requires Valid() && -1 <= asked <= 7 && FormatReserved(Functions(), size)
      requires forall g :: Square(g, size) ==> penalty(g) < LONG_MAX
      modifies `mask, modules, isFunction
      ensures Functions() == old(Functions())
      ensures mask >= 0 && ChosenMask(old(Modules()), Functions(), size, level, asked, penalty, mask)
      ensures Modules() == Trial(old(Modules()), Functions(), size, level, mask)
    {
      hide FormatReserved, MaskWrites, Modules, Functions, WriteAll, Masked;
      ghost var g, f := Modules(), Functions();
      var msk := asked;
      ghost var last := -1;
      if msk == -1 {
        var minPenalty := LONG_MAX;
        for i := 0 to 8
          invariant Functions() == f && last == i - 1
          invariant Modules() == if i == 0 then g else WriteAll(g, size, MaskWrites(size, level, i - 1))
          invariant i == 0 ==> msk == -1 && minPenalty == LONG_MAX
          invariant i > 0 ==> 0 <= msk < i && minPenalty == penalty(Trial(g, f, size, level, msk))
          invariant forall k: nat :: k < i ==> minPenalty <= penalty(Trial(g, f, size, level, k))
          invariant forall k: nat :: k < msk ==> minPenalty < penalty(Trial(g, f, size, level, k))
        {
          TryMask(i, g, last);
          var score := penalty(Modules());
          if score < minPenalty {
            msk := i;
            minPenalty := score;
          }
          var _ := ApplyMask(i);
          UnmaskedTrial(g, f, size, level, i);
          last := i;
        }
      }
      mask := msk;
      TryMask(msk, g, last);
    }

    /** Mask and format bits of one trial, whatever format bits the last one left. */
    method TryMask(i: nat, ghost g: Grid, ghost last: int)
      requires Valid() && i < 8 && -1 <= last < 8 && Square(g, size) && FormatReserved(Functions(), size)
      requires Modules() == if last == -1 then g else WriteAll(g, size, MaskWrites(size, level, last))
      modifies modules, isFunction
      ensures Functions() == old(Functions())
      ensures Modules() == Trial(g, Functions(), size, level, i)
    {
      hide FormatReserved, MaskWrites, Modules, Functions, WriteAll, Masked;
      var _ := ApplyMask(i);
      RedrawFormatBits(i);
      if last != -1 {
        TrialForgetsTheLast(g, Functions(), size, level, last, i);
      }
    }
  }
}
