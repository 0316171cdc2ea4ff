/** The encoder end to end: what a reader of the finished symbol gets is what was encoded. */
module QrSymbol {
  import opened QrEncoding
  import opened QrBlocks
  import opened QrPath
  import opened QrGrid
  import opened QrCodes
  import GaloisField

  lemma SameBits(a: bv8, b: bv8)
    requires forall k :: 0 <= k < 8 ==> CodewordBit(a, k) == CodewordBit(b, k)
    ensures a == b
  {
    assert CodewordBit(a, 0) == CodewordBit(b, 0) && CodewordBit(a, 1) == CodewordBit(b, 1);
    assert CodewordBit(a, 2) == CodewordBit(b, 2) && CodewordBit(a, 3) == CodewordBit(b, 3);
    assert CodewordBit(a, 4) == CodewordBit(b, 4) && CodewordBit(a, 5) == CodewordBit(b, 5);
    assert CodewordBit(a, 6) == CodewordBit(b, 6) && CodewordBit(a, 7) == CodewordBit(b, 7);
  }

  /** Codewords are determined by their bits. */
  lemma UnpackIsInjective(a: seq<bv8>, b: seq<bv8>)
    requires Unpack(a) == Unpack(b)
    ensures a == b
  {
    assert |Unpack(a)| == 8 * |a| && |Unpack(b)| == 8 * |b|;
    forall i | 0 <= i < |a|
      ensures a[i] == b[i]
    {
      hide CodewordBit;
      forall k | 0 <= k < 8
        ensures CodewordBit(a[i], k) == CodewordBit(b[i], k)
      {
        assert Unpack(a)[8 * i + k] == Unpack(b)[8 * i + k];
        assert (8 * i + k) / 8 == i && (8 * i + k) % 8 == k;
      }
      SameBits(a[i], b[i]);
    }
  }

  /** The finished symbol for data codewords on a prepared grid. */
  function SymbolFor(data: seq<bv8>, l: Layout, g: Grid, f: Grid, n: nat, level: Ecc, m: nat): (s: Grid)
    requires l.Valid() && |data| == l.DataLen()
    requires m < 8 && SymbolSize(n) && n >= SMALLEST && Square(g, n) && Square(f, n)
    ensures Square(s, n)
  {
    Trial(Drawn(g, f, n, Unpack(InterleavedCodewords(data, l)), WholePath(n)).grid, f, n, level, m)
  }

  /** What a reader who knows the mask finds on a symbol. */
  function BitsOn(symbol: Grid, f: Grid, n: nat, m: nat): seq<bool>
    requires m < 8 && SymbolSize(n) && Square(symbol, n) && Square(f, n)
  {
    ReadAlong(Masked(symbol, f, n, m), f, n, WholePath(n))
  }

  /** Unmask, read the zigzag, de-interleave, drop the check symbols, parse the segments: the payloads come back. */
  lemma SymbolDecodes(ps: seq<Payload>, ver: nat, data: seq<bv8>, l: Layout, g: Grid, f: Grid, n: nat, level: Ecc,
      m: nat, received: seq<bv8>)
    requires 1 <= ver <= 40 && (forall i :: 0 <= i < |ps| ==> Legal(ps[i]))
    requires l.Valid() && |data| == l.DataLen() && 0 <= TotalBits(SegmentsOf(ps), ver) <= l.DataLen() * 8
    requires Unpack(data) == Filled(SegmentsBits(SegmentsOf(ps), ver), l.DataLen())
    requires m < 8 && SymbolSize(n) && n >= SMALLEST && Square(g, n) && Square(f, n) && FormatReserved(f, n)
    requires 8 * l.raw <= Room(f, n, WholePath(n))
    requires |received| == l.raw && Unpack(received) <= BitsOn(SymbolFor(data, l, g, f, n, level, m), f, n, m)
    ensures DataParts(received, l, l.blocks) == data
    ensures var r := ReadSegments(Unpack(DataParts(received, l, l.blocks)), ver); r.Read? && r.value == ps
  {
    hide TotalBits, Filled, ReadSegments, Legal, SegmentsOf, SegmentsBits, FormatReserved, Trial, Drawn, Masked, Unpack,
      ReadAlong, InterleavedCodewords, DataParts;
    var sent := InterleavedCodewords(data, l);
    DataIsRecovered(data, l);
    SymbolHoldsItsBits(g, f, n, level, m, Unpack(sent));
    var found := BitsOn(SymbolFor(data, l, g, f, n, level, m), f, n, m);
    assert found[..8 * l.raw] == Unpack(sent);
    assert Unpack(received) == found[..8 * l.raw];
    UnpackIsInjective(received, sent);
    EncodingIsReadable(ps, ver, data, l.DataLen());
  }
}
