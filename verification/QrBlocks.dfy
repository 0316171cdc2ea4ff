/** Splitting the data codewords into blocks, appending check symbols to each and interleaving the result
    (ISO/IEC 18004:2015, sections 7.5 and 7.6). */
module QrBlocks {
  import opened ReedSolomon

  /** One column of the capacity tables: block count, check symbols per block, codewords in all. */
  datatype Layout = Layout(blocks: int, ecc: int, raw: int) {

    /** Blocks exist, the divisor has a legal degree, and even a short block has room for its check symbols. */
    predicate Valid() {
      blocks >= 1 && 1 <= ecc <= 255 && raw >= 0 && raw / blocks >= ecc
    }

    function ShortLen(): int
      requires Valid()
    {
      raw / blocks
    }

    function NumShort(): (n: int)
      requires Valid()
      ensures 0 < n <= blocks
    {
      blocks - raw % blocks
    }

    /** Data codewords in a short block; also the row that short blocks do not have. */
    function Gap(): (n: nat)
      requires Valid()
    {
      ShortLen() - ecc
    }

    function DataLen(): int {
      raw - blocks * ecc
    }

    function ChunkLen(j: nat): nat
      requires Valid()
    {
      Gap() + (if j < NumShort() then 0 else 1)
    }

    /** Where the data of block j begins. */
    function Offset(j: nat): nat
      requires Valid()
    {
      j * Gap() + (if j < NumShort() then 0 else j - NumShort())
    }

    /** Whether row i of the interleaving takes a codeword from block j. */
    predicate Takes(i: int, j: int)
      requires Valid()
    {
      i != Gap() || j >= NumShort()
    }

    /** Codewords that the first `i` rows contribute. */
    function RowStart(i: nat): int
      requires Valid()
    {
      i * blocks - (if i > Gap() then NumShort() else 0)
    }

    /** The place in the interleaved sequence of row i of block j. */
    function Position(i: nat, j: nat): int
      requires Valid()
    {
      RowStart(i) + j - (if i == Gap() then NumShort() else 0)
    }

    lemma OffsetStep(j: nat)
      requires Valid()
      ensures Offset(0) == 0
      ensures Offset(j + 1) == Offset(j) + ChunkLen(j)
    {
      assert (j + 1) * Gap() == j * Gap() + Gap();
    }

    lemma OffsetMonotone(j: nat, k: nat)
      requires Valid() && j <= k
      ensures Offset(j) <= Offset(k)
      decreases k - j
    {
      if j < k {
        OffsetStep(j);
        OffsetMonotone(j + 1, k);
      }
    }

    lemma OffsetEnd()
      requires Valid()
      ensures Offset(blocks) == DataLen()
    {
      assert blocks * Gap() == blocks * ShortLen() - blocks * ecc;
    }

    lemma RowsEnd()
      requires Valid()
      ensures RowStart(ShortLen() + 1) == raw
    {
      assert (ShortLen() + 1) * blocks == ShortLen() * blocks + blocks;
    }

    lemma RowStep(i: nat)
      requires Valid()
      ensures RowStart(i + 1) == RowStart(i) + (if i == Gap() then blocks - NumShort() else blocks)
    {
      assert (i + 1) * blocks == i * blocks + blocks;
    }

    lemma RowStartMonotone(i: nat, k: nat)
      requires Valid() && i <= k
      ensures RowStart(i) <= RowStart(k)
      decreases k - i
    {
      if i < k {
        RowStep(i);
        RowStartMonotone(i + 1, k);
      }
    }

    lemma PositionInRow(i: nat, j: nat)
      requires Valid() && j < blocks && Takes(i, j)
      ensures RowStart(i) <= Position(i, j) < RowStart(i + 1)
    {
      RowStep(i);
    }
  }

  // ----- what the encoder should build

  function Chunk(data: seq<bv8>, l: Layout, j: nat): (c: seq<bv8>)
    requires l.Valid() && |data| == l.DataLen() && j < l.blocks
    ensures |c| == l.ChunkLen(j)
  {
    l.OffsetStep(j);
    l.OffsetMonotone(j + 1, l.blocks);
    l.OffsetEnd();
    data[l.Offset(j)..l.Offset(j) + l.ChunkLen(j)]
  }

  lemma ChunkBounds(data: seq<bv8>, l: Layout, j: nat)
    requires l.Valid() && |data| == l.DataLen() && j < l.blocks
    ensures l.Offset(j + 1) == l.Offset(j) + l.ChunkLen(j) <= |data|
    ensures Chunk(data, l, j) == data[l.Offset(j)..l.Offset(j) + l.ChunkLen(j)]
  {
    l.OffsetStep(j);
    l.OffsetMonotone(j + 1, l.blocks);
    l.OffsetEnd();
  }

  /** Block j as the source stores it: short blocks carry a padding byte between data and check symbols. */
  function Block(data: seq<bv8>, l: Layout, j: nat): (b: seq<bv8>)
    requires l.Valid() && |data| == l.DataLen() && j < l.blocks
    ensures |b| == l.ShortLen() + 1
  {
    var c := Chunk(data, l, j);
    c + (if j < l.NumShort() then [0] else []) + CheckSymbols(c, l.ecc)
  }

  ghost predicate Rectangular(blocks: seq<seq<bv8>>, l: Layout)
    requires l.Valid()
  {
    |blocks| == l.blocks && forall j :: 0 <= j < l.blocks ==> |blocks[j]| == l.ShortLen() + 1
  }

  /** The first n entries of row i. */
  function Row(blocks: seq<seq<bv8>>, l: Layout, i: nat, n: nat): seq<bv8>
    requires l.Valid() && Rectangular(blocks, l) && i <= l.ShortLen() && n <= l.blocks
  {
    if n == 0 then [] else Row(blocks, l, i, n - 1) + (if l.Takes(i, n - 1) then [blocks[n - 1][i]] else [])
  }

  /** The first n rows. */
  function Rows(blocks: seq<seq<bv8>>, l: Layout, n: nat): seq<bv8>
    requires l.Valid() && Rectangular(blocks, l) && n <= l.ShortLen() + 1
  {
    if n == 0 then [] else Rows(blocks, l, n - 1) + Row(blocks, l, n - 1, l.blocks)
  }

  function AllBlocks(data: seq<bv8>, l: Layout): (b: seq<seq<bv8>>)
    requires l.Valid() && |data| == l.DataLen()
    ensures Rectangular(b, l)
  {
    seq(l.blocks, j requires 0 <= j < l.blocks => Block(data, l, j))
  }

  function InterleavedCodewords(data: seq<bv8>, l: Layout): seq<bv8>
    requires l.Valid() && |data| == l.DataLen()
  {
    Rows(AllBlocks(data, l), l, l.ShortLen() + 1)
  }

  datatype Interleaved = Interleaved(codewords: seq<bv8>) | WrongDataLength

  method AddEccAndInterleave(data: seq<bv8>, l: Layout) returns (r: Interleaved)
    requires l.Valid()
    ensures |data| != l.DataLen() ==> r == WrongDataLength
    ensures |data| == l.DataLen() ==> r == Interleaved(InterleavedCodewords(data, l))
  {
    if |data| != l.DataLen() {
      return WrongDataLength;
    }
    var blocks := SplitIntoBlocks(data, l);
    var result := Interleave(blocks, l);
    r := Interleaved(result);
  }

  method Interleave(blocks: seq<seq<bv8>>, l: Layout) returns (result: seq<bv8>)
    requires l.Valid() && Rectangular(blocks, l)
    ensures result == Rows(blocks, l, l.ShortLen() + 1)
  {
    result := [];
    for i := 0 to |blocks[0]|
      invariant result == Rows(blocks, l, i)
    {
      for j := 0 to |blocks|
        invariant result == Rows(blocks, l, i) + Row(blocks, l, i, j)
      {
        if i != l.ShortLen() - l.ecc || j >= l.NumShort() {
          result := result + [blocks[j][i]];
        }
      }
    }
  }

  method SplitIntoBlocks(data: seq<bv8>, l: Layout) returns (blocks: seq<seq<bv8>>)
    requires l.Valid() && |data| == l.DataLen()
    ensures blocks == AllBlocks(data, l)
  {
    hide Generator, Remainder, Layout.Offset, Layout.DataLen, Chunk;
    blocks := [];
    var divisor := ComputeDivisor(l.ecc);
    var k := 0;
    l.OffsetStep(0);
    for i := 0 to l.blocks
      invariant k == l.Offset(i)
      invariant |blocks| == i && forall j :: 0 <= j < i ==> blocks[j] == Block(data, l, j)
    {
      ChunkBounds(data, l, i);
      var dat := data[k..k + l.ShortLen() - l.ecc + (if i < l.NumShort() then 0 else 1)];
      assert dat == Chunk(data, l, i);
      k := k + |dat|;
      var ecc := ComputeRemainder(dat, divisor.coefficients);
      assert ecc == CheckSymbols(dat, l.ecc);
      if i < l.NumShort() {
        dat := dat + [0];
      }
      dat := dat + ecc;
      assert dat == Block(data, l, i);
      blocks := blocks + [dat];
    }
  }

  // ----- de-interleaving

  lemma {:induction false} RowEntries(blocks: seq<seq<bv8>>, l: Layout, i: nat, n: nat)
    requires l.Valid() && Rectangular(blocks, l) && i <= l.ShortLen() && n <= l.blocks
    ensures |Row(blocks, l, i, n)| == if i == l.Gap() then if n < l.NumShort() then 0 else n - l.NumShort() else n
    ensures forall j: nat :: j < n && l.Takes(i, j) ==>
              Row(blocks, l, i, n)[l.Position(i, j) - l.RowStart(i)] == blocks[j][i]
  {
    if n > 0 {
      RowEntries(blocks, l, i, n - 1);
    }
  }

  /** Row i of block j has its place in the first n rows, and is found there. */
  predicate IsFound(blocks: seq<seq<bv8>>, l: Layout, rows: seq<bv8>, i: nat, j: nat)
    requires l.Valid() && Rectangular(blocks, l) && i <= l.ShortLen() && j < l.blocks
  {
    0 <= l.Position(i, j) < |rows| && rows[l.Position(i, j)] == blocks[j][i]
  }

  lemma {:induction false} RowsEntries(blocks: seq<seq<bv8>>, l: Layout, n: nat)
    requires l.Valid() && Rectangular(blocks, l) && n <= l.ShortLen() + 1
    ensures |Rows(blocks, l, n)| == l.RowStart(n)
    ensures forall i: nat, j: nat :: i < n && j < l.blocks && l.Takes(i, j) ==>
              IsFound(blocks, l, Rows(blocks, l, n), i, j)
  {
    if n > 0 {
      hide IsFound, Row, Rectangular, Layout.RowStart, Layout.Gap, Layout.ShortLen, Layout.NumShort;
      RowsEntries(blocks, l, n - 1);
      var before := Rows(blocks, l, n - 1);
      RowLength(blocks, l, n - 1);
      forall i: nat, j: nat | i < n && j < l.blocks && l.Takes(i, j)
        ensures IsFound(blocks, l, Rows(blocks, l, n), i, j)
      {
        if i < n - 1 {
          FoundStays(blocks, l, before, Row(blocks, l, n - 1, l.blocks), i, j);
        } else {
          FoundInLast(blocks, l, before, i, j);
        }
      }
    }
  }

  lemma RowLength(blocks: seq<seq<bv8>>, l: Layout, i: nat)
    requires l.Valid() && Rectangular(blocks, l) && i <= l.ShortLen()
    ensures l.RowStart(i) + |Row(blocks, l, i, l.blocks)| == l.RowStart(i + 1)
  {
    RowEntries(blocks, l, i, l.blocks);
    l.RowStep(i);
  }

  lemma FoundStays(blocks: seq<seq<bv8>>, l: Layout, rows: seq<bv8>, more: seq<bv8>, i: nat, j: nat)
    requires l.Valid() && Rectangular(blocks, l) && i <= l.ShortLen() && j < l.blocks
    requires IsFound(blocks, l, rows, i, j)
    ensures IsFound(blocks, l, rows + more, i, j)
  {
    hide Rectangular, Layout.Position, Layout.ShortLen;
  }

  lemma FoundInLast(blocks: seq<seq<bv8>>, l: Layout, rows: seq<bv8>, i: nat, j: nat)
    requires l.Valid() && Rectangular(blocks, l) && i <= l.ShortLen() && j < l.blocks && l.Takes(i, j)
    requires |rows| == l.RowStart(i)
    ensures IsFound(blocks, l, rows + Row(blocks, l, i, l.blocks), i, j)
  {
    hide Rectangular, Row, Layout.Position, Layout.RowStart, Layout.ShortLen;
    RowEntries(blocks, l, i, l.blocks);
    RowLength(blocks, l, i);
    l.PositionInRow(i, j);
  }

  /** Block j read back from an interleaved sequence, without the padding byte. */
  function Deinterleave(codewords: seq<bv8>, l: Layout, j: nat): (b: seq<bv8>)
    requires l.Valid() && |codewords| == l.raw && j < l.blocks
  {
    seq(l.ChunkLen(j) + l.ecc, i requires 0 <= i < l.ChunkLen(j) + l.ecc =>
      var row := if i < l.Gap() || j >= l.NumShort() then i else i + 1;
      assert 0 <= l.Position(row, j) < l.raw by {
        l.PositionInRow(row, j);
        l.RowStartMonotone(0, row);
        l.RowStartMonotone(row + 1, l.ShortLen() + 1);
        l.RowsEnd();
      }
      codewords[l.Position(row, j)])
  }

  /** The output has exactly `raw` codewords, and block j read back from it is the j-th chunk of the data followed
      by the check symbols that make it a codeword. */
  lemma DeinterleaveGivesBlocks(data: seq<bv8>, l: Layout, j: nat)
    requires l.Valid() && |data| == l.DataLen() && j < l.blocks
    ensures |InterleavedCodewords(data, l)| == l.raw
    ensures var chunk := Chunk(data, l, j);
            Deinterleave(InterleavedCodewords(data, l), l, j) == chunk + CheckSymbols(chunk, l.ecc)
  {
    hide CheckSymbols, Chunk, Rows, Layout.DataLen, Layout.RowStart;
    var blocks := AllBlocks(data, l);
    RowsEntries(blocks, l, l.ShortLen() + 1);
    l.RowsEnd();
    var c := Chunk(data, l, j);
    var got, want := Deinterleave(InterleavedCodewords(data, l), l, j), c + CheckSymbols(c, l.ecc);
    forall i | 0 <= i < |got|
      ensures got[i] == want[i]
    {
      var row := if i < l.Gap() || j >= l.NumShort() then i else i + 1;
      assert l.Takes(row, j);
      assert IsFound(blocks, l, Rows(blocks, l, l.ShortLen() + 1), row, j);
      assert got[i] == blocks[j][row];
    }
  }

  /** Every de-interleaved block vanishes at the roots 2^0 .. 2^(ecc-1). */
  lemma DeinterleavedBlocksAreCodewords(data: seq<bv8>, l: Layout, j: nat, k: nat)
    requires l.Valid() && |data| == l.DataLen() && j < l.blocks && k < l.ecc
    ensures |InterleavedCodewords(data, l)| == l.raw
    ensures Eval(Deinterleave(InterleavedCodewords(data, l), l, j), Root(k)) == 0
  {
    DeinterleaveGivesBlocks(data, l, j);
    CodewordVanishes(Chunk(data, l, j), l.ecc, k);
  }

  /** The data parts of the first n de-interleaved blocks. */
  function DataParts(codewords: seq<bv8>, l: Layout, n: nat): seq<bv8>
    requires l.Valid() && |codewords| == l.raw && n <= l.blocks
  {
    if n == 0 then []
    else DataParts(codewords, l, n - 1) + Deinterleave(codewords, l, n - 1)[..l.ChunkLen(n - 1)]
  }

  lemma {:induction false} DataPartsPrefix(data: seq<bv8>, l: Layout, n: nat)
    requires l.Valid() && |data| == l.DataLen() && n <= l.blocks
    ensures |InterleavedCodewords(data, l)| == l.raw
    ensures l.Offset(n) <= |data| && DataParts(InterleavedCodewords(data, l), l, n) == data[..l.Offset(n)]
  {
    hide CheckSymbols, Chunk, Rows, Deinterleave, Layout.DataLen, Layout.Offset;
    if n == 0 {
      RowsEntries(AllBlocks(data, l), l, l.ShortLen() + 1);
      l.RowsEnd();
      l.OffsetStep(0);
    } else {
      DataPartsPrefix(data, l, n - 1);
      DeinterleaveGivesBlocks(data, l, n - 1);
      ChunkBounds(data, l, n - 1);
    }
  }

  /** The data parts of all de-interleaved blocks concatenate to the whole input. */
  lemma DataIsRecovered(data: seq<bv8>, l: Layout)
    requires l.Valid() && |data| == l.DataLen()
    ensures |InterleavedCodewords(data, l)| == l.raw
    ensures DataParts(InterleavedCodewords(data, l), l, l.blocks) == data
  {
    DataPartsPrefix(data, l, l.blocks);
    l.OffsetEnd();
  }
}
