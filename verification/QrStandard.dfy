/** What ISO/IEC 18004:2015 fixes for data and codewords, set against the functions that encoder and reader share. A
    reader and a writer that made the same mistake would still understand each other; these facts exclude that. */
module QrStandard {
  import opened BitBuffers
  import opened GaloisField
  import opened Orders
  import opened QrBlocks
  import opened QrEncoding
  import QrPath
  import opened QrSegments
  import opened ReedSolomon

  // ----- numbers as bits

  /** Fields are written with the most significant bit first. */
  lemma {:induction false} FieldBits(v: nat, len: nat, k: nat)
    requires k < len
    ensures NatBits(v, len)[k] <==> v / Pow2(len - 1 - k) % 2 == 1
  {
    if k < len - 1 {
      FieldBits(v / 2, len - 1, k);
      HalfShift(v, Pow2(len - 2 - k));
    }
  }

  lemma HalfShift(v: nat, p: nat)
    requires p > 0
    ensures v / 2 / p == v / (2 * p)
  {
    var k, r := QrPath.Divided(v / 2, p);
    assert 2 * p * k == 2 * (p * k);
    QrPath.Quotient(v, 2 * p, k, 2 * r + v % 2);
  }

  // ----- headers and counts (tables 2 and 3)

  function Indicator(mode: Mode): Bits {
    match mode
    case NumericMode => [false, false, false, true]
    case AlphanumericMode => [false, false, true, false]
    case ByteMode => [false, true, false, false]
    case KanjiMode => [true, false, false, false]
    case EciMode => [false, true, true, true]
  }

  function CountWidth(mode: Mode, ver: nat): nat {
    match mode
    case NumericMode => if ver <= 9 then 10 else if ver <= 26 then 12 else 14
    case AlphanumericMode => if ver <= 9 then 9 else if ver <= 26 then 11 else 13
    case ByteMode => if ver <= 9 then 8 else 16
    case KanjiMode => if ver <= 9 then 8 else if ver <= 26 then 10 else 12
    case EciMode => 0
  }

  lemma HeaderIs(seg: Segment, ver: nat)
    requires 1 <= ver <= 40
    ensures Header(seg, ver) == Indicator(seg.mode) + NatBits(seg.numChars, CountWidth(seg.mode, ver))
  {
    IndicatorIs(seg.mode);
    WidthIs(seg.mode, ver);
  }

  lemma IndicatorIs(mode: Mode)
    ensures NatBits(mode.Bits(), 4) == Indicator(mode)
  {
    hide NatBits;
    FourBits(mode.Bits());
  }

  lemma OneMoreBit(v: nat, len: nat)
    ensures NatBits(v, len + 1) == NatBits(v / 2, len) + [v % 2 == 1]
  {
  }

  lemma FourBits(v: nat)
    requires v < 16
    ensures NatBits(v, 4) == [v >= 8, v / 4 % 2 == 1, v / 2 % 2 == 1, v % 2 == 1]
  {
    OneMoreBit(v, 3);
    OneMoreBit(v / 2, 2);
    OneMoreBit(v / 4, 1);
    OneMoreBit(v / 8, 0);
  }

  lemma WidthIs(mode: Mode, ver: nat)
    requires 1 <= ver <= 40
    ensures mode.CharCountBits(ver) == CountWidth(mode, ver)
  {
  }

  // ----- characters and groups (section 7.4.3 to 7.4.5, table 5)

  const DIGITS: string := "0123456789"
  const LETTERS: string := "ABCDEFGHIJKLMNOPQRSTUVWXYZ"
  const SIGNS: string := " $%*+-./:"

  /** The characters of table 5: digits, letters and signs have the values from 0, 10 and 36 on, and no others have. */
  lemma CharacterTable(c: char)
    ensures '0' <= c <= '9' ==> CharValue(c) == c as int - '0' as int
    ensures 'A' <= c <= 'Z' ==> CharValue(c) == 10 + (c as int - 'A' as int)
    ensures forall k :: 0 <= k < 9 && c == SIGNS[k] ==> CharValue(c) == 36 + k
    ensures IsAlphanumeric(c) <==> '0' <= c <= '9' || 'A' <= c <= 'Z' || c in SIGNS
  {
    hide IndexOf, CharValue;
    if '0' <= c <= '9' {
      ValueIs(c, c as int - '0' as int);
    } else if 'A' <= c <= 'Z' {
      ValueIs(c, 10 + (c as int - 'A' as int));
    } else if c in SIGNS {
      var k :| 0 <= k < 9 && SIGNS[k] == c;
      ValueIs(c, 36 + k);
      forall j | 0 <= j < 9 && SIGNS[j] == c
        ensures j == k
      {
        SignsDiffer(j, k);
      }
    } else if IsAlphanumeric(c) {
      TableEntry(CharValue(c));
      assert false;
    }
    forall k | 0 <= k < 9
      ensures !('0' <= SIGNS[k] <= '9') && !('A' <= SIGNS[k] <= 'Z')
    {
      TableEntry(36 + k);
      SignsApart(k);
    }
  }

  function Entry(k: nat): char
    requires k < CHARSET_SIZE
  {
    if k < 10 then '0' + k as char else if k < 36 then 'A' + (k - 10) as char else SIGNS[k - 36]
  }

  lemma CharsetParts()
    ensures CHARSET == (DIGITS + LETTERS) + SIGNS && |DIGITS| == 10 && |LETTERS| == 26
  {
  }

  lemma InParts(a: string, b: string, c: string, s: string, k: nat)
    requires s == (a + b) + c && k < |s|
    ensures s[k] == if k < |a| then a[k] else if k < |a| + |b| then b[k - |a|] else c[k - |a| - |b|]
  {
  }

  lemma TableEntry(k: nat)
    requires k < CHARSET_SIZE
    ensures CHARSET[k] == Entry(k)
  {
    CharsetParts();
    InParts(DIGITS, LETTERS, SIGNS, CHARSET, k);
    if k < 10 {
      DigitEntry(k);
    } else if k < 36 {
      LetterEntry(k - 10);
    }
  }

  lemma DigitEntry(k: nat)
    requires k < 10
    ensures DIGITS[k] == '0' + k as char
  {
  }

  lemma LetterEntry(k: nat)
    requires k < 26
    ensures LETTERS[k] == 'A' + k as char
  {
  }

  lemma SignsDiffer(j: nat, k: nat)
    requires j < 9 && k < 9 && SIGNS[j] == SIGNS[k]
    ensures j == k
  {
  }

  lemma SignsApart(k: nat)
    requires k < 9
    ensures !('0' <= SIGNS[k] <= '9') && !('A' <= SIGNS[k] <= 'Z')
  {
  }

  lemma EntriesDiffer(j: nat, k: nat)
    requires j < CHARSET_SIZE && k < CHARSET_SIZE && Entry(j) == Entry(k)
    ensures j == k
  {
    if j >= 36 {
      SignsApart(j - 36);
    }
    if k >= 36 {
      SignsApart(k - 36);
    }
    if j >= 36 && k >= 36 {
      SignsDiffer(j - 36, k - 36);
    }
  }

  /** A character of the list has its place there as its value. */
  lemma ValueIs(c: char, k: nat)
    requires k < CHARSET_SIZE && Entry(k) == c
    ensures CharValue(c) == k
  {
    hide IndexOf, Entry;
    TableEntry(k);
    FirstPlace(CHARSET, c);
    assert CHARSET[k] == c;
    TableEntry(CharValue(c));
    EntriesDiffer(CharValue(c), k);
  }

  lemma {:induction false} FirstPlace(s: string, c: char)
    ensures IndexOf(s, c) == |s| ==> c !in s
  {
    if s != "" && s[0] != c {
      FirstPlace(s[1..], c);
    }
  }

  /** Three digits in ten bits, two that are left in seven, one in four. */
  lemma DigitGroups(vs: seq<nat>)
    ensures |vs| == 1 ==> PackedBits(vs, NUMERIC) == NatBits(vs[0], 4)
    ensures |vs| == 2 ==> PackedBits(vs, NUMERIC) == NatBits(10 * vs[0] + vs[1], 7)
    ensures |vs| >= 3 ==>
              PackedBits(vs, NUMERIC)
                == NatBits(100 * vs[0] + 10 * vs[1] + vs[2], 10) + PackedBits(vs[3..], NUMERIC)
  {
    hide NatBits, PackedBits, ValueOf;
    GroupValues(vs, NUMERIC);
    if 0 < |vs| < 3 {
      OneGroup(vs, NUMERIC);
    } else if |vs| >= 3 {
      FirstGroup(vs, NUMERIC);
    }
  }

  /** Two characters in eleven bits, one that is left in six. */
  lemma CharacterGroups(vs: seq<nat>)
    ensures |vs| == 1 ==> PackedBits(vs, ALPHANUMERIC) == NatBits(vs[0], 6)
    ensures |vs| >= 2 ==>
              PackedBits(vs, ALPHANUMERIC) == NatBits(45 * vs[0] + vs[1], 11) + PackedBits(vs[2..], ALPHANUMERIC)
  {
    hide NatBits, PackedBits, ValueOf;
    GroupValues(vs, ALPHANUMERIC);
    if |vs| == 1 {
      OneGroup(vs, ALPHANUMERIC);
    } else if |vs| >= 2 {
      FirstGroup(vs, ALPHANUMERIC);
    }
  }

  lemma ByteGroups(vs: seq<nat>)
    ensures |vs| >= 1 ==> PackedBits(vs, BYTE) == NatBits(vs[0], 8) + PackedBits(vs[1..], BYTE)
  {
    hide NatBits, PackedBits, ValueOf;
    GroupValues(vs, BYTE);
    if vs != [] {
      FirstGroup(vs, BYTE);
    }
  }

  lemma GroupValues(vs: seq<nat>, pk: Packing)
    ensures |vs| >= 1 ==> ValueOf(vs[..1], pk) == vs[0]
    ensures |vs| >= 2 ==> ValueOf(vs[..2], pk) == pk.Push(vs[0], vs[1])
    ensures |vs| >= 3 ==> ValueOf(vs[..3], pk) == pk.Push(pk.Push(vs[0], vs[1]), vs[2])
    ensures vs[..|vs|] == vs
  {
    if |vs| >= 1 {
      assert vs[..1][..0] == [] && pk.Push(0, vs[0]) == vs[0];
    }
    if |vs| >= 2 {
      assert vs[..2][..1] == vs[..1];
    }
    if |vs| >= 3 {
      assert vs[..3][..2] == vs[..2];
    }
  }

  // ----- filling (section 7.4.9 and 7.4.10)

  const PAD_EVEN: Bits := [true, true, true, false, true, true, false, false]
  const PAD_ODD: Bits := [false, false, false, true, false, false, false, true]

  /** After the data come zeros: a terminator of four, fewer at the end of the capacity, and as many as it takes to fill
      a codeword; then the two pad codewords by turns. `first` is the number of the first pad codeword. */
  lemma FillingIs(bits: Bits, codewords: nat, first: nat)
    requires |bits| <= 8 * codewords
    requires |bits| + Min(4, 8 * codewords - |bits|) <= 8 * first < |bits| + Min(4, 8 * codewords - |bits|) + 8
    ensures first <= codewords
    ensures var f := Filled(bits, codewords);
            && f[..|bits|] == bits
            && (forall k :: |bits| <= k < 8 * first ==> !f[k])
            && (forall j :: first <= j < codewords ==>
                  f[8 * j..8 * j + 8] == if (j - first) % 2 == 0 then PAD_EVEN else PAD_ODD)
  {
    hide PadBits;
    var pads := codewords - first;
    var f, start := Filled(bits, codewords), 8 * first;
    assert f == bits + ClearBits(start - |bits|) + PadBits(pads);
    forall j | first <= j < codewords
      ensures f[8 * j..8 * j + 8] == if (j - first) % 2 == 0 then PAD_EVEN else PAD_ODD
    {
      PadsTakeTurns(pads, j - first);
      assert f[8 * j..8 * j + 8] == PadBits(pads)[8 * (j - first)..8 * (j - first) + 8];
    }
  }

  lemma {:induction false} PadsTakeTurns(n: nat, j: nat)
    requires j < n
    ensures PadBits(n)[8 * j..8 * j + 8] == if j % 2 == 0 then PAD_EVEN else PAD_ODD
  {
    hide NatBits;
    PadCodewords();
    if j < n - 1 {
      PadsTakeTurns(n - 1, j);
      assert PadBits(n)[8 * j..8 * j + 8] == PadBits(n - 1)[8 * j..8 * j + 8];
    }
  }

  lemma PadCodewords()
    ensures NatBits(0xEC, 8) == PAD_EVEN && NatBits(0x11, 8) == PAD_ODD
  {
    hide NatBits;
    OneMoreBit(0xEC, 7);
    OneMoreBit(0x76, 6);
    OneMoreBit(0x3B, 5);
    OneMoreBit(0x1D, 4);
    FourBits(0xE);
    OneMoreBit(0x11, 7);
    OneMoreBit(0x8, 6);
    OneMoreBit(0x4, 5);
    OneMoreBit(0x2, 4);
    FourBits(0x1);
  }

  // ----- blocks (section 7.5.1 and 7.6)

  /** The data is cut in order into blocks whose lengths differ by one at most, shorter ones first. */
  lemma BlocksAreEven(l: Layout, j: nat, k: nat)
    requires l.Valid() && j < k < l.blocks
    ensures l.ChunkLen(j) <= l.ChunkLen(k) <= l.ChunkLen(j) + 1
    ensures l.Offset(0) == 0 && l.Offset(j + 1) == l.Offset(j) + l.ChunkLen(j)
    ensures l.Offset(l.blocks) == l.DataLen() == l.raw - l.blocks * l.ecc
  {
    l.OffsetStep(j);
    l.OffsetEnd();
  }

  /** The first codewords of all blocks come before all second ones, and so on; within such a row the order is that of
      the blocks. */
  lemma RowsComeInOrder(l: Layout, i: nat, j: nat, i2: nat, j2: nat)
    requires l.Valid() && j < l.blocks && j2 < l.blocks && l.Takes(i, j) && l.Takes(i2, j2)
    ensures l.Position(i, j) < l.Position(i2, j2) <==> i < i2 || (i == i2 && j < j2)
  {
    hide Layout.RowStart;
    l.PositionInRow(i, j);
    l.PositionInRow(i2, j2);
    if i < i2 {
      l.RowStartMonotone(i + 1, i2);
    } else if i2 < i {
      l.RowStartMonotone(i2 + 1, i);
    }
  }

  // ----- the field and the generator (section 7.5.2)

  /** x^8 is x^4 + x^3 + x^2 + 1, and the roots are the powers of x from its zeroth on. */
  lemma FieldPolynomial()
    ensures Mul(0x80, 2) == 0x1D
    ensures Root(0) == 1 && Root(1) == 2
    ensures forall i :: i > 0 ==> Root(i) == Mul(Root(i - 1), 2)
  {
  }

  /** The generators of degree one and two, (x - 1) and (x - 1)(x - 2); minus is plus in this field. */
  lemma FirstGenerators()
    ensures Generator(1) == [1, 1] && Generator(2) == [1, 3, 2]
  {
    hide Mul;
    MulOne(1);
    MulOne(2);
    assert Generator(0) == [1] && Root(0) == 1;
    assert TimesLinear([1], 1) == [1, 1];
    assert Root(1) == 2;
    assert Add(1, 2) == 3 && TimesLinear([1, 1], 2) == [1, 3, 2];
  }

  // ----- bytes and lengths

  lemma {:induction false} ShiftBits(w: bv8, i: nat)
    requires i < 8
    ensures (w >> i) as nat == w as nat / Pow2(i)
  {
    if i > 0 {
      ShiftBits(w, i - 1);
      OneShiftMore(w, i);
      HalfOf(w >> (i - 1));
      HalfAgain(w as nat, Pow2(i - 1));
    }
  }

  lemma OneShiftMore(w: bv8, i: nat)
    requires 0 < i < 8
    ensures w >> i == (w >> (i - 1)) >> 1
  {
    assert i == 1 || i == 2 || i == 3 || i == 4 || i == 5 || i == 6 || i == 7;
  }

  lemma HalfOf(w: bv8)
    ensures (w >> 1) as nat == w as nat / 2 && (w & 1 == 1 <==> w as nat % 2 == 1)
  {
  }

  lemma HalfAgain(v: nat, p: nat)
    requires p > 0
    ensures v / p / 2 == v / (2 * p)
  {
    var k, r := QrPath.Divided(v, 2 * p);
    assert 2 * p * k == p * (2 * k);
    if r < p {
      QrPath.Quotient(v, p, 2 * k, r);
    } else {
      assert p * (2 * k + 1) == p * (2 * k) + p;
      QrPath.Quotient(v, p, 2 * k + 1, r - p);
    }
  }

  /** The eight bits of a byte are its bits as a codeword. */
  lemma ByteIsItsCodeword(w: bv8)
    ensures NatBits(w as nat, 8) == Unpack([w])
  {
    hide NatBits, CodewordBit, Pow2;
    forall k | 0 <= k < 8
      ensures NatBits(w as nat, 8)[k] == Unpack([w])[k]
    {
      FieldBits(w as nat, 8, k);
      CodewordBitIs(w, k);
    }
  }

  lemma CodewordBitIs(w: bv8, k: nat)
    requires k < 8
    ensures CodewordBit(w, k) <==> w as nat / Pow2(7 - k) % 2 == 1
  {
    hide Pow2;
    ShiftBits(w, 7 - k);
    HalfOf(w >> (7 - k));
  }

  /** In byte mode the data are written as they are. */
  lemma {:induction false} BytesAsTheyAre(data: seq<bv8>)
    ensures PackedBits(ByteValues(data), BYTE) == Unpack(data)
  {
    hide PackedBits, NatBits, CodewordBit;
    if data == [] {
      NoGroups(BYTE);
    } else {
      BytesAsTheyAre(data[1..]);
      ByteGroups(ByteValues(data));
      ByteIsItsCodeword(data[0]);
      assert ByteValues(data)[1..] == ByteValues(data[1..]);
      UnpackJoins(data[0], data[1..]);
      assert [data[0]] + data[1..] == data;
    }
  }

  lemma NoGroups(pk: Packing)
    ensures PackedBits([], pk) == []
  {
  }

  lemma UnpackJoins(w: bv8, data: seq<bv8>)
    ensures Unpack([w] + data) == Unpack([w]) + Unpack(data)
  {
    hide CodewordBit;
    var all := Unpack([w] + data);
    forall i | 0 <= i < |all|
      ensures all[i] == (Unpack([w]) + Unpack(data))[i]
    {
      if i >= 8 {
        assert (i - 8) / 8 == i / 8 - 1 && (i - 8) % 8 == i % 8;
      }
    }
  }

  lemma DigitIsItsValue(k: nat)
    requires k < 10
    ensures DigitValue(DIGITS[k]) == k
  {
    DigitEntry(k);
  }

  /** For each segment four bits, the width of its count, and its data. */
  function BitsNeeded(segs: seq<Segment>, ver: nat): nat {
    if segs == [] then 0
    else 4 + CountWidth(segs[0].mode, ver) + |segs[0].data| + BitsNeeded(segs[1..], ver)
  }

  lemma {:induction false} NeededIs(segs: seq<Segment>, ver: nat)
    requires 1 <= ver <= 40
    ensures |SegmentsBits(segs, ver)| == BitsNeeded(segs, ver)
  {
    if segs != [] {
      hide CountWidth, NatBits;
      NeededIs(segs[..|segs| - 1], ver);
      WidthIs(segs[|segs| - 1].mode, ver);
      NeededWithOneMore(segs[..|segs| - 1], segs[|segs| - 1], ver);
      assert segs == segs[..|segs| - 1] + [segs[|segs| - 1]];
    }
  }

  lemma {:induction false} NeededWithOneMore(segs: seq<Segment>, seg: Segment, ver: nat)
    ensures BitsNeeded(segs + [seg], ver)
         == BitsNeeded(segs, ver) + 4 + CountWidth(seg.mode, ver) + |seg.data|
  {
    hide CountWidth;
    if segs == [] {
      assert (segs + [seg])[1..] == [];
    } else {
      NeededWithOneMore(segs[1..], seg, ver);
      assert (segs + [seg])[1..] == segs[1..] + [seg];
    }
  }

  /** The bits needed are this sum, unless a count does not fit its field or the sum leaves the range of `int`. */
  lemma TotalIs(segs: seq<Segment>, ver: nat)
    requires 1 <= ver <= 40
    ensures TotalBits(segs, ver)
         == if (forall i :: 0 <= i < |segs| ==> segs[i].numChars < Pow2(CountWidth(segs[i].mode, ver)))
               && BitsNeeded(segs, ver) <= INT_MAX
            then BitsNeeded(segs, ver) else -1
  {
    hide CountWidth, Mode.CharCountBits, SegmentsBits, BitsNeeded, Pow2;
    NeededIs(segs, ver);
    forall i | 0 <= i < |segs|
      ensures segs[i].mode.CharCountBits(ver) == CountWidth(segs[i].mode, ver)
    {
      WidthIs(segs[i].mode, ver);
    }
  }
}
