/** The mask patterns and the format information as ISO/IEC 18004:2015 shows them in figures and tables. */
module QrPatterns {
  import opened QrCodes
  import opened QrEncoding
  import opened QrGrid
  import opened QrPath

  // ----- masks (figure 21)

  /** The upper left corner of each pattern, row by row, as far as it does not repeat itself. */
  function Tile(m: nat): (rows: seq<string>)
    requires m < 8
    ensures rows != [] && rows[0] != "" && forall y :: 0 <= y < |rows| ==> |rows[y]| == |rows[0]|
  {
    match m
    case 0 => ["#.", ".#"]
    case 1 => ["#", "."]
    case 2 => ["#.."]
    case 3 => ["#..", "..#", ".#."]
    case 4 => ["###...", "###...", "...###", "...###"]
    case 5 => ["######", "#.....", "#..#..", "#.#.#.", "#..#..", "#....."]
    case 6 => ["######", "###...", "##.##.", "#.#.#.", "#.##.#", "#...##"]
    case 7 => ["#.#.#.", "...###", "#...##", ".#.#.#", "###...", ".###.."]
  }

  /** A mask is its tile, laid over the whole symbol. */
  lemma MasksAreTiled(m: nat, x: nat, y: nat)
    requires m < 8
    ensures Inverts(m, x, y) <==> Tile(m)[y % |Tile(m)|][x % |Tile(m)[0]|] == '#'
  {
    hide Inverts, Tile;
    TileSizes();
    if m < 4 {
      SmallTiles(m, x, y);
    } else {
      Repeats(m, x, y);
      OnLargeTile(m, x % 6, if m == 4 then y % 4 else y % 6);
    }
  }

  lemma TileSizes()
    ensures forall m: nat :: 4 <= m < 8 ==> |Tile(m)| == (if m == 4 then 4 else 6) && |Tile(m)[0]| == 6
  {
  }

  lemma SmallTiles(m: nat, x: nat, y: nat)
    requires m < 4
    ensures Inverts(m, x, y) <==> Tile(m)[y % |Tile(m)|][x % |Tile(m)[0]|] == '#'
  {
  }

  /** The larger patterns repeat after six modules, pattern 4 after four rows. */
  lemma Repeats(m: nat, x: nat, y: nat)
    requires 4 <= m < 8
    ensures Inverts(m, x, y) <==> Inverts(m, x % 6, if m == 4 then y % 4 else y % 6)
  {
    if m == 4 {
      HalvesAndThirds(x, y);
      EvenSum(x / 6 + y / 4, x % 6 / 3, y % 4 / 2);
    } else {
      ProductMod6(x, y);
      SixRest(x * y);
      SixRest(x % 6 * (y % 6));
      SixRest(x);
      SixRest(y);
      SumsAgree(x, y, x % 6, y % 6);
      hide *;
      Unfolded(m, x, y);
      Unfolded(m, x % 6, y % 6);
    }
  }

  lemma HalvesAndThirds(x: nat, y: nat)
    ensures x / 3 == 2 * (x / 6) + x % 6 / 3 && y / 2 == 2 * (y / 4) + y % 4 / 2
  {
  }

  lemma EvenSum(k: nat, a: nat, b: nat)
    ensures (2 * k + a + b) % 2 == (a + b) % 2
  {
  }

  lemma SumsAgree(x: nat, y: nat, u: nat, v: nat)
    requires x % 2 == u % 2 && y % 2 == v % 2
    ensures (x + y) % 2 == (u + v) % 2
  {
  }

  lemma SixRest(a: nat)
    ensures a % 2 == a % 6 % 2 && a % 3 == a % 6 % 3
  {
    assert a == 6 * (a / 6) + a % 6;
  }

  lemma Unfolded(m: nat, x: nat, y: nat)
    requires 5 <= m < 8
    ensures var p := x * y;
            Inverts(m, x, y) == if m == 5 then p % 2 + p % 3 == 0
                                else if m == 6 then (p % 2 + p % 3) % 2 == 0
                                else ((x + y) % 2 + p % 3) % 2 == 0
  {
  }

  lemma ProductMod6(x: nat, y: nat)
    ensures x * y % 6 == x % 6 * (y % 6) % 6
  {
    var a, u, b, v := x / 6, x % 6, y / 6, y % 6;
    assert x * y == (6 * a + u) * y == 6 * (a * y) + u * y;
    assert u * y == u * (6 * b + v) == 6 * (u * b) + u * v;
    AddSixes(a * y + u * b, u * v);
  }

  lemma AddSixes(k: nat, w: nat)
    ensures (6 * k + w) % 6 == w % 6
  {
  }

  lemma OnLargeTile(m: nat, u: nat, v: nat)
    requires 4 <= m < 8 && u < 6 && v < if m == 4 then 4 else 6
    ensures |Tile(m)| > v && |Tile(m)[0]| == 6
    ensures Inverts(m, u, v) <==> Tile(m)[v][u] == '#'
  {
    hide Inverts, Tile;
    match m
    case 4 => OnTile4(u, v);
    case 5 => OnTile5(u, v);
    case 6 => OnTile6(u, v);
    case 7 => OnTile7(u, v);
  }

  lemma OnTile4(u: nat, v: nat)
    requires u < 6 && v < 4
    ensures |Tile(4)| == 4 && |Tile(4)[0]| == 6 && (Inverts(4, u, v) <==> Tile(4)[v][u] == '#')
  {
  }

  lemma SmallProduct(u: nat, v: nat)
    requires v < 6
    ensures v == 0 || v == 1 || v == 2 || v == 3 || v == 4 || v == 5
    ensures u * v == if v == 0 then 0 else if v == 1 then u else if v == 2 then 2 * u else if v == 3 then 3 * u
                     else if v == 4 then 4 * u else 5 * u
  {
  }

  lemma OnTile5(u: nat, v: nat)
    requires u < 6 && v < 6
    ensures |Tile(5)| == 6 && |Tile(5)[0]| == 6 && (Inverts(5, u, v) <==> Tile(5)[v][u] == '#')
  {
    hide Inverts;
    Unfolded(5, u, v);
    SmallProduct(u, v);
    assert u == 0 || u == 1 || u == 2 || u == 3 || u == 4 || u == 5;
  }

  lemma OnTile6(u: nat, v: nat)
    requires u < 6 && v < 6
    ensures |Tile(6)| == 6 && |Tile(6)[0]| == 6 && (Inverts(6, u, v) <==> Tile(6)[v][u] == '#')
  {
    hide Inverts;
    Unfolded(6, u, v);
    SmallProduct(u, v);
    assert u == 0 || u == 1 || u == 2 || u == 3 || u == 4 || u == 5;
  }

  lemma OnTile7(u: nat, v: nat)
    requires u < 6 && v < 6
    ensures |Tile(7)| == 6 && |Tile(7)[0]| == 6 && (Inverts(7, u, v) <==> Tile(7)[v][u] == '#')
  {
    hide Inverts;
    Unfolded(7, u, v);
    SmallProduct(u, v);
    assert u == 0 || u == 1 || u == 2 || u == 3 || u == 4 || u == 5;
  }

  // ----- format information (table C.1, figure 25)

  function FormatTable(level: Ecc): (t: seq<bv32>)
    ensures |t| == 8
  {
    match level
    case Low => [0x77C4, 0x72F3, 0x7DAA, 0x789D, 0x662F, 0x6318, 0x6C41, 0x6976]
    case Medium => [0x5412, 0x5125, 0x5E7C, 0x5B4B, 0x45F9, 0x40CE, 0x4F97, 0x4AA0]
    case Quartile => [0x355F, 0x3068, 0x3F31, 0x3A06, 0x24B4, 0x2183, 0x2EDA, 0x2BED]
    case High => [0x1689, 0x13BE, 0x1CE7, 0x19D0, 0x0762, 0x0255, 0x0D0C, 0x083B]
  }

  /** The format word of five data bits. */
  function FormatWord(data: bv32): bv32 {
    var five := FormatStep(FormatStep(FormatStep(FormatStep(FormatStep(data)))));
    ((data << 10) | FormatStep(FormatStep(FormatStep(FormatStep(FormatStep(five)))))) ^ 0x5412
  }

  lemma FormatIsTabled(level: Ecc, mask: nat)
    requires mask < 8
    ensures FormatBits(level, mask) == FormatTable(level)[mask]
  {
    hide FormatWord, FormatStep, FormatBits, FormatData;
    WordOfData(level, mask);
    DataIs(level, mask);
    match level
    case Low => LowWords();
    case Medium => MediumWords();
    case Quartile => QuartileWords();
    case High => HighWords();
  }

  lemma WordOfData(level: Ecc, mask: nat)
    requires mask < 8
    ensures FormatBits(level, mask) == FormatWord(FormatData(level, mask))
  {
    hide FormatWord, FormatStep, FormatRemainder, FormatData;
    TenSteps(FormatData(level, mask));
  }

  lemma DataIs(level: Ecc, mask: nat)
    requires mask < 8
    ensures FormatData(level, mask)
         == match level
            case Low => [8, 9, 10, 11, 12, 13, 14, 15][mask]
            case Medium => [0, 1, 2, 3, 4, 5, 6, 7][mask]
            case Quartile => [24, 25, 26, 27, 28, 29, 30, 31][mask]
            case High => [16, 17, 18, 19, 20, 21, 22, 23][mask]
  {
    assert mask == 0 || mask == 1 || mask == 2 || mask == 3 || mask == 4 || mask == 5 || mask == 6 || mask == 7;
  }

  lemma LowWords()
    ensures FormatWord(8) == 0x77C4 && FormatWord(9) == 0x72F3 && FormatWord(10) == 0x7DAA && FormatWord(11) == 0x789D
    ensures FormatWord(12) == 0x662F && FormatWord(13) == 0x6318 && FormatWord(14) == 0x6C41 && FormatWord(15) == 0x6976
  {
  }

  lemma MediumWords()
    ensures FormatWord(0) == 0x5412 && FormatWord(1) == 0x5125 && FormatWord(2) == 0x5E7C && FormatWord(3) == 0x5B4B
    ensures FormatWord(4) == 0x45F9 && FormatWord(5) == 0x40CE && FormatWord(6) == 0x4F97 && FormatWord(7) == 0x4AA0
  {
  }

  lemma QuartileWords()
    ensures FormatWord(24) == 0x355F && FormatWord(25) == 0x3068 && FormatWord(26) == 0x3F31 && FormatWord(27) == 0x3A06
    ensures FormatWord(28) == 0x24B4 && FormatWord(29) == 0x2183 && FormatWord(30) == 0x2EDA && FormatWord(31) == 0x2BED
  {
  }

  lemma HighWords()
    ensures FormatWord(16) == 0x1689 && FormatWord(17) == 0x13BE && FormatWord(18) == 0x1CE7 && FormatWord(19) == 0x19D0
    ensures FormatWord(20) == 0x0762 && FormatWord(21) == 0x0255 && FormatWord(22) == 0x0D0C && FormatWord(23) == 0x083B
  {
  }

  lemma OneStep(data: bv32, n: nat)
    ensures FormatRemainder(data, 0) == data
    ensures FormatRemainder(data, n + 1) == FormatStep(FormatRemainder(data, n))
  {
  }

  /** What the ten steps of the loop leave, put together into a word. */
  lemma TenSteps(data: bv32)
    ensures FormatWord(data) == ((data << 10) | FormatRemainder(data, 10)) ^ 0x5412
  {
    hide FormatStep, FormatRemainder;
    OneStep(data, 0);
    OneStep(data, 1);
    OneStep(data, 2);
    OneStep(data, 3);
    OneStep(data, 4);
    OneStep(data, 5);
    OneStep(data, 6);
    OneStep(data, 7);
    OneStep(data, 8);
    OneStep(data, 9);
  }

  /** Where bit i stands around the upper left finder, ... */
  function FirstPlaceOf(i: nat): Cell
    requires i < 15
  {
    if i < 6 then (8, i) else if i < 8 then (8, i + 1) else if i == 8 then (7, 8) else (14 - i, 8)
  }

  /** ... and where it stands beside the other two. */
  function SecondPlaceOf(n: nat, i: nat): Cell
    requires n >= SMALLEST && i < 15
  {
    if i < 8 then (n - 1 - i, 8) else (8, n - 15 + i)
  }

  ghost predicate ShowsFormat(symbol: Grid, n: nat, word: bv32)
    requires n >= SMALLEST && Square(symbol, n)
  {
    && (forall i :: 0 <= i < 15 ==> At(symbol, n, FirstPlaceOf(i)) == GetBit(word, i))
    && (forall i :: 0 <= i < 15 ==> At(symbol, n, SecondPlaceOf(n, i)) == GetBit(word, i))
    && At(symbol, n, (8, n - 8))
  }

  /** Both copies of the tabled word can be read from a symbol, and the module above the second one is dark. */
  lemma FormatIsReadable(g: Grid, f: Grid, n: nat, level: Ecc, mask: nat)
    requires mask < 8 && n >= SMALLEST && Square(g, n) && Square(f, n)
    ensures ShowsFormat(Trial(g, f, n, level, mask), n, FormatTable(level)[mask])
  {
    hide FormatBits, FormatTable, GetBit, Masked, WriteAll, FormatWrites;
    FormatIsTabled(level, mask);
    var masked, word := Masked(g, f, n, mask), FormatBits(level, mask);
    FormatWritten(masked, n, word);
  }

  lemma FormatWritten(g: Grid, n: nat, word: bv32)
    requires n >= SMALLEST && Square(g, n)
    ensures ShowsFormat(WriteAll(g, n, FormatWrites(n, word)), n, word)
  {
    hide GetBit, WriteAll, At;
    var w := FormatWrites(n, word);
    CellsDiffer(n, word);
    forall i | 0 <= i < 31
      ensures At(WriteAll(g, n, w), n, w[i].0) == w[i].1
    {
      WrittenOnce(g, n, w, i);
    }
    forall i | 0 <= i < 15
      ensures At(WriteAll(g, n, w), n, FirstPlaceOf(i)) == GetBit(word, i)
    {
      assert w[i] == (FirstPlaceOf(i), GetBit(word, i));
    }
    forall i | 0 <= i < 15
      ensures At(WriteAll(g, n, w), n, SecondPlaceOf(n, i)) == GetBit(word, i)
    {
      assert w[15 + i] == (SecondPlaceOf(n, i), GetBit(word, i));
    }
    assert w[30] == ((8, n - 8), true);
  }

  ghost predicate DistinctCells(w: Writes) {
    forall i, j :: 0 <= i < j < |w| ==> w[i].0 != w[j].0
  }

  lemma CellsDiffer(n: nat, bits: bv32)
    requires n >= SMALLEST
    ensures DistinctCells(FormatWrites(n, bits)) && |FormatWrites(n, bits)| == 31
  {
    hide GetBit;
  }

  /** A module that is written once holds what was written. */
  lemma {:induction false} WrittenOnce(g: Grid, n: nat, w: Writes, i: nat)
    requires Square(g, n) && WritesIn(n, w) && DistinctCells(w) && i < |w|
    ensures At(WriteAll(g, n, w), n, w[i].0) == w[i].1
  {
    hide Put;
    if i < |w| - 1 {
      WrittenOnce(g, n, w[..|w| - 1], i);
    }
  }
}
