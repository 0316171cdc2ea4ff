/** From segments to data codewords (ISO/IEC 18004:2015, sections 7.4.2 to 7.4.10): version choice, terminator,
    padding and packing, and the reading procedure that undoes them. */
module QrEncoding {
  import opened BitBuffers
  import opened Orders
  import opened QrSegments
  import GaloisField

  datatype Ecc = Low | Medium | Quartile | High {
    function Strength(): nat {
      match this case Low => 0 case Medium => 1 case Quartile => 2 case High => 3
    }
  }

  /** Data codewords per version and level: the table that the encoder consults. */
  type Capacity = (nat, Ecc) -> int

  // ----- the bits of a list of segments

  function Header(seg: Segment, ver: nat): Bits
    requires 1 <= ver <= 40
  {
    NatBits(seg.mode.Bits(), 4) + NatBits(seg.numChars, seg.mode.CharCountBits(ver))
  }

  function SegmentsBits(segs: seq<Segment>, ver: nat): Bits
    requires 1 <= ver <= 40
  {
    if segs == [] then []
    else
      var last := segs[|segs| - 1];
      SegmentsBits(segs[..|segs| - 1], ver) + Header(last, ver) + last.data
  }

  predicate CountsFit(segs: seq<Segment>, ver: nat)
    requires 1 <= ver <= 40
  {
    forall i :: 0 <= i < |segs| ==> segs[i].numChars < Pow2(segs[i].mode.CharCountBits(ver))
  }

  /** The bits needed, or -1 when a count does not fit its field or the sum leaves the range of `int`. */
  function TotalBits(segs: seq<Segment>, ver: nat): (r: int)
    requires 1 <= ver <= 40
    ensures r >= -1
    ensures r >= 0 ==> CountsFit(segs, ver) && |SegmentsBits(segs, ver)| == r
  {
    if CountsFit(segs, ver) && |SegmentsBits(segs, ver)| <= INT_MAX then |SegmentsBits(segs, ver)| else -1
  }

  lemma {:induction false} BitsGrow(segs: seq<Segment>, n: nat, ver: nat)
    requires 1 <= ver <= 40 && n <= |segs|
    ensures |SegmentsBits(segs[..n], ver)| <= |SegmentsBits(segs, ver)|
    decreases |segs|
  {
    if n == |segs| {
      assert segs[..n] == segs;
    } else {
      BitsGrow(segs[..|segs| - 1], n, ver);
      assert segs[..|segs| - 1][..n] == segs[..n];
    }
  }

  method GetTotalBits(segs: seq<Segment>, ver: nat) returns (result: int)
    requires 1 <= ver <= 40
    ensures result == TotalBits(segs, ver)
  {
    hide Pow2, NatBits, Mode.CharCountBits, Mode.Bits;
    result := 0;
    for i := 0 to |segs|
      invariant 0 <= result == |SegmentsBits(segs[..i], ver)| <= INT_MAX
      invariant CountsFit(segs[..i], ver)
    {
      var seg := segs[i];
      var ccbits := seg.mode.CharCountBits(ver);
      assert segs[..i + 1][..i] == segs[..i];
      BitsGrow(segs, i + 1, ver);
      if seg.numChars >= Pow2(ccbits) {
        return -1;
      }
      if 4 + ccbits > INT_MAX - result {
        return -1;
      }
      result := result + 4 + ccbits;
      if |seg.data| > INT_MAX - result {
        return -1;
      }
      result := result + |seg.data|;
    }
    assert segs[..|segs|] == segs;
  }

  predicate Fits(segs: seq<Segment>, ver: nat, capacityBits: int)
    requires 1 <= ver <= 40
  {
    0 <= TotalBits(segs, ver) <= capacityBits
  }

  // ----- filling the capacity

  /** n pad bytes, 11101100 and 00010001 in turn. */
  function PadBits(n: nat): (b: Bits)
    ensures |b| == 8 * n
  {
    if n == 0 then [] else PadBits(n - 1) + NatBits(if n % 2 == 1 then 0xEC else 0x11, 8)
  }

  function ClearBits(n: nat): Bits {
    seq(n, _ => false)
  }

  lemma {:induction false} ZeroBits(n: nat)
    ensures NatBits(0, n) == ClearBits(n) && 0 < Pow2(n)
  {
    if n > 0 {
      ZeroBits(n - 1);
    }
  }

  function TerminatorLength(used: nat, codewords: nat): nat
    requires used <= 8 * codewords
  {
    Min(4, 8 * codewords - used)
  }

  /** Whole codewords that `used` bits reach into. */
  function Reached(used: nat): nat {
    (used + 7) / 8
  }

  lemma AlignmentReaches(used: nat)
    ensures (8 - used % 8) % 8 == 8 * Reached(used) - used
  {
  }

  /** The bits, a terminator of at most four zeros, zeros up to a byte boundary, then pad bytes to the capacity. */
  function Filled(bits: Bits, codewords: nat): (b: Bits)
    requires |bits| <= 8 * codewords
    ensures |b| == 8 * codewords
  {
    var end := |bits| + TerminatorLength(|bits|, codewords);
    bits + ClearBits(8 * Reached(end) - |bits|) + PadBits(codewords - Reached(end))
  }

  // ----- packing bits into codewords

  /** Bit k of a codeword, counted from its most significant one. */
  function CodewordBit(w: bv8, k: nat): bool
    requires k < 8
  {
    GaloisField.Bit(w, 7 - k)
  }

  /** The bit sequence that codewords stand for. */
  function Unpack(codewords: seq<bv8>): (b: Bits)
    ensures |b| == 8 * |codewords|
  {
    seq(8 * |codewords|, i requires 0 <= i < 8 * |codewords| => CodewordBit(codewords[i / 8], i % 8))
  }

  lemma OrBit(a: bv8, b: bv8, i: nat)
    requires i < 8
    ensures GaloisField.Bit(a | b, i) == (GaloisField.Bit(a, i) || GaloisField.Bit(b, i))
  {
    assert (a | b) >> i == (a >> i) | (b >> i);
    var p, q := a >> i, b >> i;
    assert (p | q) & 1 == (p & 1) | (q & 1);
    assert (p & 1 == 0 || p & 1 == 1) && (q & 1 == 0 || q & 1 == 1);
  }

  lemma OneBit(s: nat, i: nat)
    requires s < 8 && i < 8
    ensures GaloisField.Bit(1 << s, i) == (s == i)
  {
    assert s == 0 || s == 1 || s == 2 || s == 3 || s == 4 || s == 5 || s == 6 || s == 7;
    assert i == 0 || i == 1 || i == 2 || i == 3 || i == 4 || i == 5 || i == 6 || i == 7;
  }

  lemma NoBit(s: nat, i: nat)
    requires s < 8 && i < 8
    ensures !GaloisField.Bit(0 << s, i)
  {
    assert 0 as bv8 << s == 0;
    assert 0 as bv8 >> i == 0;
  }

  /** `w` with `b` or-ed in at weight 2^s. */
  function WithBit(w: bv8, s: nat, b: bool): bv8
    requires s < 8
  {
    w | ((if b then 1 else 0) << s)
  }

  lemma WithBitAt(w: bv8, s: nat, b: bool, i: nat)
    requires s < 8 && i < 8
    ensures GaloisField.Bit(WithBit(w, s, b), i) == (GaloisField.Bit(w, i) || (b && s == i))
  {
    hide GaloisField.Bit;
    OrBit(w, (if b then 1 else 0) << s, i);
    OneBit(s, i);
    NoBit(s, i);
  }

  /** Or-ing one bit into its codeword changes that bit of the sequence and no other. */
  lemma SetBit(codewords: seq<bv8>, i: nat, b: bool, k: nat)
    requires i < 8 * |codewords| && !Unpack(codewords)[i] && k < 8 * |codewords|
    ensures Unpack(codewords[i / 8 := WithBit(codewords[i / 8], 7 - i % 8, b)])[k]
         == if k == i then b else Unpack(codewords)[k]
  {
    hide GaloisField.Bit, WithBit;
    if k / 8 == i / 8 {
      WithBitAt(codewords[i / 8], 7 - i % 8, b, 7 - k % 8);
    }
  }

  method PackBits(bits: Bits) returns (codewords: seq<bv8>)
    requires |bits| % 8 == 0
    ensures |codewords| == |bits| / 8
    ensures Unpack(codewords) == bits
  {
    hide Unpack, WithBit;
    var a := new bv8[|bits| / 8](_ => 0);
    NothingSet(a[..]);
    for i := 0 to |bits|
      invariant forall k :: 0 <= k < |bits| ==> Unpack(a[..])[k] == (k < i && bits[k])
    {
      ghost var before := a[..];
      a[i / 8] := WithBit(a[i / 8], 7 - i % 8, bits[i]);
      assert a[..] == before[i / 8 := WithBit(before[i / 8], 7 - i % 8, bits[i])];
      forall k | 0 <= k < |bits|
        ensures Unpack(a[..])[k] == (k < i + 1 && bits[k])
      {
        SetBit(before, i, bits[i], k);
      }
    }
    codewords := a[..];
  }

  lemma NothingSet(codewords: seq<bv8>)
    requires forall i :: 0 <= i < |codewords| ==> codewords[i] == 0
    ensures forall k :: 0 <= k < 8 * |codewords| ==> !Unpack(codewords)[k]
  {
    forall k | 0 <= k < 8 * |codewords|
      ensures !Unpack(codewords)[k]
    {
      NoBit(0, 7 - k % 8);
      assert 0 as bv8 << 0 == 0;
    }
  }

  // ----- the encoder

  datatype Encoding = InvalidValue | DataTooLong | Encoded(version: nat, level: Ecc, codewords: seq<bv8>)

  predicate Offers(capacity: Capacity, segs: seq<Segment>, ver: nat, level: Ecc) {
    1 <= ver <= 40 && Fits(segs, ver, capacity(ver, level) * 8)
  }

  /** Every level stronger than this one has too little room for the data in this version. */
  ghost predicate NoneStrongerHolds(capacity: Capacity, segs: seq<Segment>, ver: nat, level: Ecc)
    requires 1 <= ver <= 40
  {
    forall stronger: Ecc :: stronger.Strength() > level.Strength() ==> !Offers(capacity, segs, ver, stronger)
  }

  method WriteSegment(bb: BitBuffer, seg: Segment, ver: nat)
    requires 1 <= ver <= 40 && seg.numChars < Pow2(seg.mode.CharCountBits(ver))
    modifies bb
    ensures bb.bits == old(bb.bits) + Header(seg, ver) + seg.data
  {
    hide NatBits, Pow2, Mode.Bits, Mode.CharCountBits;
    ModeFits(seg.mode, ver);
    var _ := bb.AppendBits(seg.mode.Bits(), 4);
    var _ := bb.AppendBits(seg.numChars, seg.mode.CharCountBits(ver));
    bb.bits := bb.bits + seg.data;
  }

  method WriteSegments(segs: seq<Segment>, ver: nat) returns (bb: BitBuffer)
    requires 1 <= ver <= 40 && CountsFit(segs, ver)
    ensures fresh(bb) && bb.bits == SegmentsBits(segs, ver)
  {
    hide Header, Pow2, Mode.CharCountBits;
    bb := new BitBuffer();
    for i := 0 to |segs|
      invariant fresh(bb) && bb.bits == SegmentsBits(segs[..i], ver)
    {
      assert segs[..i + 1][..i] == segs[..i];
      WriteSegment(bb, segs[i], ver);
    }
    assert segs[..|segs|] == segs;
  }

  lemma ModeFits(mode: Mode, ver: nat)
    requires 1 <= ver <= 40
    ensures mode.Bits() < Pow2(4) && mode.CharCountBits(ver) <= MAX_FIELD
  {
    assert Pow2(4) == 16;
    assert (ver + 7) / 17 == 0 || (ver + 7) / 17 == 1 || (ver + 7) / 17 == 2;
  }

  method FillCapacity(bb: BitBuffer, codewords: nat)
    requires |bb.bits| <= 8 * codewords
    modifies bb
    ensures bb.bits == Filled(old(bb.bits), codewords)
  {
    hide NatBits, Pow2, PadBits;
    var terminator := Min(4, 8 * codewords - |bb.bits|);
    ZeroBits(terminator);
    var _ := bb.AppendBits(0, terminator);
    AlignmentReaches(|bb.bits|);
    var alignment := (8 - |bb.bits| % 8) % 8;
    ZeroBits(alignment);
    var _ := bb.AppendBits(0, alignment);
    assert bb.bits == old(bb.bits) + ClearBits(terminator + alignment);
    AppendPadBytes(bb, codewords, Reached(old(|bb.bits|) + terminator));
  }

  method AppendPadBytes(bb: BitBuffer, codewords: nat, ghost done: nat)
    requires |bb.bits| == 8 * done && done <= codewords
    modifies bb
    ensures bb.bits == old(bb.bits) + PadBits(codewords - done)
  {
    hide NatBits, Pow2, NextPad, PadValue;
    PadByteFits();
    var padByte: bv8 := 0xEC;
    ghost var n := 0;
    while |bb.bits| < 8 * codewords
      invariant bb.bits == old(bb.bits) + PadBits(n)
      invariant done + n <= codewords
      invariant padByte == if n % 2 == 0 then 0xEC else 0x11
      decreases codewords - n
    {
      n := n + 1;
      var _ := bb.AppendBits(PadValue(padByte), 8);
      padByte := NextPad(padByte);
    }
  }

  function NextPad(padByte: bv8): bv8 {
    padByte ^ 0xEC ^ 0x11
  }

  function PadValue(padByte: bv8): nat {
    padByte as nat
  }

  lemma PadByteFits()
    ensures Pow2(8) == 256
    ensures PadValue(0xEC) == 0xEC && PadValue(0x11) == 0x11
    ensures NextPad(0xEC) == 0x11 && NextPad(0x11) == 0xEC
  {
  }

  method EncodeSegments(segs: seq<Segment>, level: Ecc, minVersion: int, maxVersion: int, mask: int, boost: bool,
      capacity: Capacity)
    returns (r: Encoding)
    ensures r == InvalidValue <==> !(1 <= minVersion <= maxVersion <= 40) || mask < -1 || mask > 7
    ensures r == DataTooLong ==> forall v :: minVersion <= v <= maxVersion ==> !Offers(capacity, segs, v, level)
    ensures r.Encoded? ==>
              && minVersion <= r.version <= maxVersion && Offers(capacity, segs, r.version, level)
              && (forall v :: minVersion <= v < r.version ==> !Offers(capacity, segs, v, level))
              && (if boost
                  then r.level.Strength() >= level.Strength()
                       && NoneStrongerHolds(capacity, segs, r.version, r.level)
                  else r.level == level)
              && Offers(capacity, segs, r.version, r.level)
              && Unpack(r.codewords) == Filled(SegmentsBits(segs, r.version), capacity(r.version, r.level))
  {
    hide TotalBits, Unpack, Filled, SegmentsBits, CountsFit;
    if !(1 <= minVersion <= maxVersion <= 40) || mask < -1 || mask > 7 {
      return InvalidValue;
    }
    var version: nat, used: int := ChooseVersion(segs, level, minVersion, maxVersion, capacity);
    if used == -1 {
      return DataTooLong;
    }
    var chosen := level;
    if boost && used <= capacity(version, Medium) * 8 {
      chosen := Medium;
    }
    if boost && used <= capacity(version, Quartile) * 8 {
      chosen := Quartile;
    }
    if boost && used <= capacity(version, High) * 8 {
      chosen := High;
    }
    var bb := WriteSegments(segs, version);
    FillCapacity(bb, capacity(version, chosen));
    var codewords := PackBits(bb.bits);
    r := Encoded(version, chosen, codewords);
  }

  /** The smallest version that holds the data and the bits it uses; `used` is -1 when there is none. */
  method ChooseVersion(segs: seq<Segment>, level: Ecc, minVersion: nat, maxVersion: nat, capacity: Capacity)
    returns (version: nat, used: int)
    requires 1 <= minVersion <= maxVersion <= 40
    ensures minVersion <= version <= maxVersion
    ensures forall v :: minVersion <= v < version ==> !Offers(capacity, segs, v, level)
    ensures if Offers(capacity, segs, version, level) then used == TotalBits(segs, version) >= 0
            else used == -1 && version == maxVersion
  {
    hide TotalBits;
    version := minVersion;
    while true
      invariant minVersion <= version <= maxVersion
      invariant forall v :: minVersion <= v < version ==> !Offers(capacity, segs, v, level)
      decreases maxVersion - version
    {
      var capacityBits := capacity(version, level) * 8;
      used := GetTotalBits(segs, version);
      if used != -1 && used <= capacityBits {
        break;
      }
      if version >= maxVersion {
        return version, -1;
      }
      version := version + 1;
    }
  }

  // ----- reading a symbol's bits

  datatype Payload = Digits(text: string) | Text(text: string) | Raw(data: seq<bv8>)

  predicate Legal(p: Payload) {
    match p
    case Digits(text) => AllDigits(text)
    case Text(text) => AllAlphanumeric(text)
    case Raw(_) => true
  }

  function SegmentOf(p: Payload): Segment {
    match p
    case Digits(text) => Segment(NumericMode, |text|, PackedBits(DigitValues(text), NUMERIC))
    case Text(text) => Segment(AlphanumericMode, |text|, PackedBits(CharValues(text), ALPHANUMERIC))
    case Raw(data) => Segment(ByteMode, |data|, PackedBits(ByteValues(data), BYTE))
  }

  function SegmentsOf(ps: seq<Payload>): (segs: seq<Segment>)
    ensures |segs| == |ps|
  {
    seq(|ps|, i requires 0 <= i < |ps| => SegmentOf(ps[i]))
  }

  datatype Read<T> = Read(value: T, rest: Bits) | Malformed

  /** n digits, read a group at a time. */
  function ReadValues(bits: Bits, n: nat, pk: Packing): (r: Read<seq<nat>>)
    ensures r.Read? ==> |r.value| == n && DigitsIn(r.value, pk.Radix()) && |r.rest| <= |bits|
    decreases n
  {
    if n == 0 then Read([], bits)
    else
      var k := Min(n, pk.Group());
      var width := pk.Width(k);
      if |bits| < width || NatOf(bits[..width]) >= pk.Limit(k) then Malformed
      else
        match ReadValues(bits[width..], n - k, pk)
        case Malformed => Malformed
        case Read(vs, rest) => Read(DigitsOf(NatOf(bits[..width]), k, pk) + vs, rest)
  }

  lemma {:induction false} ReadValuesUndoesPacking(vs: seq<nat>, pk: Packing, tail: Bits)
    requires DigitsIn(vs, pk.Radix())
    ensures ReadValues(PackedBits(vs, pk) + tail, |vs|, pk) == Read(vs, tail)
    decreases |vs|
  {
    if vs == [] {
      assert [] + tail == tail;
    } else {
      hide *;
      GroupsAreNonempty(pk);
      var k := Min(|vs|, pk.Group());
      SplitDigits(vs, k, pk.Radix());
      ReadValuesUndoesPacking(vs[k..], pk, tail);
      ReadGroup(vs[..k], |vs|, pk, PackedBits(vs[k..], pk) + tail);
      UnfoldPacking(vs, pk, tail);
    }
  }

  lemma SplitDigits(vs: seq<nat>, k: nat, radix: nat)
    requires DigitsIn(vs, radix) && k <= |vs|
    ensures DigitsIn(vs[..k], radix) && DigitsIn(vs[k..], radix) && vs[..k] + vs[k..] == vs
  {
  }

  lemma GroupsAreNonempty(pk: Packing)
    ensures forall n: nat :: n > 0 ==> 0 < Min(n, pk.Group()) <= n
    ensures pk.Group() > 0
  {
  }

  lemma UnfoldPacking(vs: seq<nat>, pk: Packing, tail: Bits)
    requires vs != [] && Min(|vs|, pk.Group()) <= |vs|
    ensures var k := Min(|vs|, pk.Group());
            PackedBits(vs, pk) + tail == NatBits(ValueOf(vs[..k], pk), pk.Width(k)) + (PackedBits(vs[k..], pk) + tail)
  {
    hide NatBits, ValueOf;
  }

  /** Reading one group that was written, and then the rest. */
  lemma ReadGroup(group: seq<nat>, n: nat, pk: Packing, rest: Bits)
    requires 0 < |group| == Min(n, pk.Group()) && DigitsIn(group, pk.Radix())
    ensures ReadValues(NatBits(ValueOf(group, pk), pk.Width(|group|)) + rest, n, pk)
         == match ReadValues(rest, n - |group|, pk)
            case Malformed => Malformed
            case Read(vs, r) => Read(group + vs, r)
  {
    hide Packing.Limit, Packing.Width, Packing.Radix, Packing.Group, NatBits, NatOf, Pow2, DigitsOf, ValueOf,
      ReadValues;
    var v, width := ValueOf(group, pk), pk.Width(|group|);
    GroupsAreNonempty(pk);
    GroupFits(group, pk);
    DigitsRoundTrip(group, pk);
    NatBitsRoundTrip(v, width);
    UnfoldReading(NatBits(v, width), n, pk, rest);
  }

  lemma UnfoldReading(b: Bits, n: nat, pk: Packing, rest: Bits)
    requires n > 0 && |b| == pk.Width(Min(n, pk.Group())) && NatOf(b) < pk.Limit(Min(n, pk.Group()))
    requires pk.Group() > 0
    ensures var k := Min(n, pk.Group());
            ReadValues(b + rest, n, pk)
            == match ReadValues(rest, n - k, pk)
               case Malformed => Malformed
               case Read(vs, r) => Read(DigitsOf(NatOf(b), k, pk) + vs, r)
  {
    hide Packing.Limit, Packing.Width, Packing.Radix, NatOf, DigitsOf;
    assert (b + rest)[..|b|] == b && (b + rest)[|b|..] == rest;
  }

  function PackingOf(modeBits: nat): Packing {
    if modeBits == 1 then NUMERIC else if modeBits == 2 then ALPHANUMERIC else BYTE
  }

  function ModeOf(pk: Packing): Mode {
    match pk case NUMERIC => NumericMode case ALPHANUMERIC => AlphanumericMode case BYTE => ByteMode
  }

  function PayloadOf(pk: Packing, vs: seq<nat>): Payload
    requires DigitsIn(vs, pk.Radix())
  {
    match pk
    case NUMERIC => Digits(seq(|vs|, i requires 0 <= i < |vs| => '0' + vs[i] as char))
    case ALPHANUMERIC => Text(seq(|vs|, i requires 0 <= i < |vs| => CHARSET[vs[i]]))
    case BYTE => Raw(seq(|vs|, i requires 0 <= i < |vs| => vs[i] as bv8))
  }

  /** The count field and the characters of one segment of a known mode. */
  function ReadSegment(bits: Bits, pk: Packing, ver: nat): (r: Read<Payload>)
    requires 1 <= ver <= 40
    ensures r.Read? ==> |r.rest| <= |bits|
  {
    var width := ModeOf(pk).CharCountBits(ver);
    if |bits| < width then Malformed
    else
      match ReadValues(bits[width..], NatOf(bits[..width]), pk)
      case Malformed => Malformed
      case Read(vs, rest) => Read(PayloadOf(pk, vs), rest)
  }

  /** Segments up to the terminator 0000, or up to where fewer than four bits are left. */
  function ReadSegments(bits: Bits, ver: nat): Read<seq<Payload>>
    requires 1 <= ver <= 40
    decreases |bits|
  {
    if Ends(bits) then Read([], bits)
    else
      var modeBits := NatOf(bits[..4]);
      if modeBits != 1 && modeBits != 2 && modeBits != 4 then Malformed
      else
        match ReadSegment(bits[4..], PackingOf(modeBits), ver)
        case Malformed => Malformed
        case Read(p, rest) =>
          match ReadSegments(rest, ver)
          case Malformed => Malformed
          case Read(ps, end) => Read([p] + ps, end)
  }

  predicate Ends(bits: Bits) {
    |bits| < 4 || NatOf(bits[..4]) == 0
  }

  // ----- reading undoes encoding

  function PackingFor(p: Payload): Packing {
    match p case Digits(_) => NUMERIC case Text(_) => ALPHANUMERIC case Raw(_) => BYTE
  }

  function ValuesFor(p: Payload): seq<nat> {
    match p
    case Digits(text) => DigitValues(text)
    case Text(text) => CharValues(text)
    case Raw(data) => ByteValues(data)
  }

  lemma SegmentOfPayload(p: Payload)
    requires Legal(p)
    ensures var pk, vs := PackingFor(p), ValuesFor(p);
            DigitsIn(vs, pk.Radix()) && SegmentOf(p) == Segment(ModeOf(pk), |vs|, PackedBits(vs, pk))
  {
    hide PackedBits, CharValue;
  }

  /** Characters are recovered from their values. */
  lemma PayloadRoundTrip(p: Payload)
    requires Legal(p)
    ensures DigitsIn(ValuesFor(p), PackingFor(p).Radix()) && PayloadOf(PackingFor(p), ValuesFor(p)) == p
  {
    hide CharValue;
    SegmentOfPayload(p);
    match p
    case Digits(text) => assert PayloadOf(NUMERIC, DigitValues(text)).text == text;
    case Text(text) => assert PayloadOf(ALPHANUMERIC, CharValues(text)).text == text;
    case Raw(data) => assert PayloadOf(BYTE, ByteValues(data)).data == data;
  }

  lemma ReadSegmentUndoes(p: Payload, ver: nat, tail: Bits)
    requires 1 <= ver <= 40 && Legal(p) && SegmentOf(p).numChars < Pow2(SegmentOf(p).mode.CharCountBits(ver))
    ensures var s := SegmentOf(p); var width := s.mode.CharCountBits(ver);
            ReadSegment(NatBits(s.numChars, width) + s.data + tail, PackingFor(p), ver) == Read(p, tail)
  {
    hide PackedBits, ReadValues, NatBits, NatOf, Pow2, Mode.CharCountBits, PayloadOf, ValuesFor, SegmentOf,
      Packing.Radix;
    var pk, vs, s := PackingFor(p), ValuesFor(p), SegmentOf(p);
    var width := s.mode.CharCountBits(ver);
    SegmentOfPayload(p);
    NatBitsRoundTrip(s.numChars, width);
    var bits := NatBits(s.numChars, width) + s.data + tail;
    assert bits[..width] == NatBits(s.numChars, width);
    assert bits[width..] == s.data + tail;
    ReadValuesUndoesPacking(vs, pk, tail);
    PayloadRoundTrip(p);
  }

  lemma {:induction false} SegmentsBitsFirst(segs: seq<Segment>, ver: nat)
    requires 1 <= ver <= 40 && segs != []
    ensures SegmentsBits(segs, ver) == Header(segs[0], ver) + segs[0].data + SegmentsBits(segs[1..], ver)
  {
    hide Header;
    var n := |segs| - 1;
    if n > 0 {
      SegmentsBitsFirst(segs[..n], ver);
      assert segs[..n][1..] == segs[1..][..n - 1];
    }
  }

  lemma {:induction false} ReadSegmentsUndoes(ps: seq<Payload>, ver: nat, tail: Bits)
    requires 1 <= ver <= 40 && (forall i :: 0 <= i < |ps| ==> Legal(ps[i]))
    requires CountsFit(SegmentsOf(ps), ver) && Ends(tail)
    ensures ReadSegments(SegmentsBits(SegmentsOf(ps), ver) + tail, ver) == Read(ps, tail)
    decreases |ps|
  {
    var segs := SegmentsOf(ps);
    if ps == [] {
      assert [] + tail == tail;
    } else {
      hide *;
      FirstOfMany(ps, ver, tail);
      ReadSegmentsUndoes(ps[1..], ver, tail);
      ReadFirstSegment(ps[0], ver, SegmentsBits(SegmentsOf(ps[1..]), ver) + tail);
      assert [ps[0]] + ps[1..] == ps;
    }
  }

  lemma FirstOfMany(ps: seq<Payload>, ver: nat, tail: Bits)
    requires 1 <= ver <= 40 && ps != [] && (forall i :: 0 <= i < |ps| ==> Legal(ps[i]))
    requires CountsFit(SegmentsOf(ps), ver)
    ensures Legal(ps[0]) && (forall i :: 0 <= i < |ps[1..]| ==> Legal(ps[1..][i]))
    ensures CountsFit([SegmentOf(ps[0])], ver) && CountsFit(SegmentsOf(ps[1..]), ver)
    ensures SegmentsBits(SegmentsOf(ps), ver) + tail
         == Header(SegmentOf(ps[0]), ver) + SegmentOf(ps[0]).data + (SegmentsBits(SegmentsOf(ps[1..]), ver) + tail)
  {
    hide SegmentOf, Legal, Header, Pow2, Mode.CharCountBits, SegmentsBits;
    var segs := SegmentsOf(ps);
    assert segs[1..] == SegmentsOf(ps[1..]);
    SegmentsBitsFirst(segs, ver);
    assert segs[0] == SegmentOf(ps[0]);
    forall i | 0 <= i < |ps| - 1
      ensures segs[1..][i] == segs[i + 1]
    {
    }
  }

  lemma ReadFirstSegment(p: Payload, ver: nat, rest: Bits)
    requires 1 <= ver <= 40 && Legal(p) && CountsFit([SegmentOf(p)], ver)
    ensures ReadSegments(Header(SegmentOf(p), ver) + SegmentOf(p).data + rest, ver)
         == match ReadSegments(rest, ver)
            case Malformed => Malformed
            case Read(ps, end) => Read([p] + ps, end)
  {
    hide ReadSegment, NatBits, NatOf, Pow2, Mode.CharCountBits, SegmentOf;
    var s := SegmentOf(p);
    var count := NatBits(s.numChars, s.mode.CharCountBits(ver));
    var bits := Header(s, ver) + s.data + rest;
    ModeIsKnown(p);
    assert [s][0].numChars < Pow2([s][0].mode.CharCountBits(ver));
    assert bits[..4] == NatBits(s.mode.Bits(), 4);
    assert bits[4..] == count + s.data + rest;
    ReadSegmentUndoes(p, ver, rest);
  }

  lemma ModeIsKnown(p: Payload)
    requires Legal(p)
    ensures var m := SegmentOf(p).mode.Bits();
            (m == 1 || m == 2 || m == 4) && NatOf(NatBits(m, 4)) == m && PackingOf(m) == PackingFor(p)
  {
    hide PackedBits, NatBits, NatOf;
    assert Pow2(4) == 16;
    NatBitsRoundTrip(SegmentOf(p).mode.Bits(), 4);
  }

  /** Whatever fills the symbol after the data, a reader stops there. */
  lemma FillingEnds(bits: Bits, codewords: nat)
    requires |bits| <= 8 * codewords
    ensures Ends(Filled(bits, codewords)[|bits|..])
    ensures Filled(bits, codewords) == bits + Filled(bits, codewords)[|bits|..]
  {
    hide NatBits, PadBits, NatOf;
    var tail := Filled(bits, codewords)[|bits|..];
    if |tail| >= 4 {
      assert tail[..4] == ClearBits(4);
      ZeroBits(4);
      NatBitsRoundTrip(0, 4);
    }
  }

  /** Reading the encoder's codewords gives back the payloads, and the codewords fill the capacity exactly. */
  lemma EncodingIsReadable(ps: seq<Payload>, ver: nat, codewords: seq<bv8>, capacity: nat)
    requires 1 <= ver <= 40 && (forall i :: 0 <= i < |ps| ==> Legal(ps[i]))
    requires 0 <= TotalBits(SegmentsOf(ps), ver) <= capacity * 8
    requires Unpack(codewords) == Filled(SegmentsBits(SegmentsOf(ps), ver), capacity)
    ensures |codewords| == capacity
    ensures ReadSegments(Unpack(codewords), ver).Read? && ReadSegments(Unpack(codewords), ver).value == ps
  {
    hide TotalBits, Filled, ReadSegments, Legal, SegmentOf, CountsFit;
    var bits := SegmentsBits(SegmentsOf(ps), ver);
    FillingEnds(bits, capacity);
    ReadSegmentsUndoes(ps, ver, Unpack(codewords)[|bits|..]);
  }
}
