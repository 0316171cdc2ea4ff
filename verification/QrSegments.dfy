/** Data encodation (ISO/IEC 18004:2015, section 7.4): segments, their bits, and the decoder that section describes. */
module QrSegments {
  import opened BitBuffers
  import opened Orders

  datatype Mode = NumericMode | AlphanumericMode | ByteMode | KanjiMode | EciMode {

    function Bits(): nat {
      match this
      case NumericMode => 1
      case AlphanumericMode => 2
      case ByteMode => 4
      case KanjiMode => 8
      case EciMode => 7
    }

    /** Width of the character count field; `ver` is a version number. */
    function CharCountBits(ver: nat): nat
      requires 1 <= ver <= 40
    {
      var widths := match this
        case NumericMode => [10, 12, 14]
        case AlphanumericMode => [9, 11, 13]
        case ByteMode => [8, 16, 16]
        case KanjiMode => [8, 10, 12]
        case EciMode => [0, 0, 0];
      widths[(ver + 7) / 17]
    }
  }

  datatype Segment = Segment(mode: Mode, numChars: nat, data: Bits)

  // ----- digits packed in groups

  /** How characters become bits: digits of a radix, taken a group at a time, a shorter group in fewer bits. */
  datatype Packing = NUMERIC | ALPHANUMERIC | BYTE {

    function Radix(): nat {
      match this case NUMERIC => 10 case ALPHANUMERIC => 45 case BYTE => 256
    }

    function Group(): nat {
      match this case NUMERIC => 3 case ALPHANUMERIC => 2 case BYTE => 1
    }

    /** Bits for a group of k digits. */
    function Width(k: nat): nat {
      match this case NUMERIC => 3 * k + 1 case ALPHANUMERIC => 5 * k + 1 case BYTE => 8 * k
    }

    /** The number `v` with the digit `d` written after it. */
    function Push(v: nat, d: nat): nat {
      match this case NUMERIC => 10 * v + d case ALPHANUMERIC => 45 * v + d case BYTE => 256 * v + d
    }

    function Rest(v: nat): nat {
      match this case NUMERIC => v / 10 case ALPHANUMERIC => v / 45 case BYTE => v / 256
    }

    function Last(v: nat): nat {
      match this case NUMERIC => v % 10 case ALPHANUMERIC => v % 45 case BYTE => v % 256
    }

    /** One more than the largest number of k digits. */
    function Limit(k: nat): nat {
      if k == 0 then 1 else Push(Limit(k - 1), 0)
    }
  }

  predicate DigitsIn(vs: seq<nat>, radix: nat) {
    forall i :: 0 <= i < |vs| ==> vs[i] < radix
  }

  /** The number written by the digits `vs`. */
  function ValueOf(vs: seq<nat>, pk: Packing): nat {
    if vs == [] then 0 else pk.Push(ValueOf(vs[..|vs| - 1], pk), vs[|vs| - 1])
  }

  function DigitsOf(v: nat, k: nat, pk: Packing): (vs: seq<nat>)
    ensures |vs| == k && DigitsIn(vs, pk.Radix())
  {
    if k == 0 then [] else DigitsOf(pk.Rest(v), k - 1, pk) + [pk.Last(v)]
  }

  function PackedBits(vs: seq<nat>, pk: Packing): Bits {
    if vs == [] then []
    else
      var k := Min(|vs|, pk.Group());
      NatBits(ValueOf(vs[..k], pk), pk.Width(k)) + PackedBits(vs[k..], pk)
  }

  lemma PushPop(v: nat, d: nat, limit: nat, pk: Packing)
    requires d < pk.Radix()
    ensures pk.Rest(pk.Push(v, d)) == v && pk.Last(pk.Push(v, d)) == d
    ensures v < limit ==> pk.Push(v, d) < pk.Push(limit, 0)
  {
  }

  lemma {:induction false} DigitsRoundTrip(vs: seq<nat>, pk: Packing)
    requires DigitsIn(vs, pk.Radix())
    ensures DigitsOf(ValueOf(vs, pk), |vs|, pk) == vs
    ensures ValueOf(vs, pk) < pk.Limit(|vs|)
  {
    if vs != [] {
      hide Packing.Push, Packing.Rest, Packing.Last, Packing.Radix;
      var n := |vs| - 1;
      var first := vs[..n];
      assert vs == first + [vs[n]];
      DigitsRoundTrip(first, pk);
      PushPop(ValueOf(first, pk), vs[n], pk.Limit(n), pk);
    }
  }

  lemma WidthsSuffice(k: nat, pk: Packing)
    requires k <= pk.Group()
    ensures pk.Limit(k) <= Pow2(pk.Width(k)) && pk.Width(k) <= MAX_FIELD
  {
    assert k == 0 || k == 1 || k == 2 || k == 3;
    assert Pow2(1) == 2 && Pow2(4) == 16 && Pow2(7) == 128 && Pow2(10) == 1024;
    assert Pow2(6) == 64 && Pow2(11) == 2048 && Pow2(8) == 256;
    assert pk.Limit(1) == pk.Radix() && pk.Limit(2) == pk.Push(pk.Radix(), 0);
    assert pk.Limit(3) == pk.Push(pk.Limit(2), 0);
  }

  /** A group of digits fits the bits it is given. */
  lemma GroupFits(vs: seq<nat>, pk: Packing)
    requires |vs| <= pk.Group() && DigitsIn(vs, pk.Radix())
    ensures ValueOf(vs, pk) < Pow2(pk.Width(|vs|))
    ensures pk.Width(|vs|) <= MAX_FIELD
  {
    DigitsRoundTrip(vs, pk);
    WidthsSuffice(|vs|, pk);
  }

  // ----- the three segment makers

  /** The characters of section 7.4.4, in the order of their values. */
  const CHARSET: string := "0123456789ABCDEFGHIJKLMNOPQRSTUVWXYZ $%*+-./:"

  /** The first place of `c` in `s`, or |s|. */
  function IndexOf(s: string, c: char): (i: nat)
    ensures i <= |s|
    ensures i < |s| ==> s[i] == c
  {
    if s == "" || s[0] == c then 0 else 1 + IndexOf(s[1..], c)
  }

  predicate IsDigit(c: char) {
    '0' <= c <= '9'
  }

  function DigitValue(c: char): nat {
    if IsDigit(c) then c as int - '0' as int else 10
  }

  const CHARSET_SIZE := 45

  /** The value of a character in alphanumeric mode, or CHARSET_SIZE when it has none. */
  function CharValue(c: char): (v: nat)
    ensures v <= CHARSET_SIZE
    ensures v < CHARSET_SIZE ==> CHARSET[v] == c
  {
    IndexOf(CHARSET, c)
  }

  predicate IsAlphanumeric(c: char) {
    CharValue(c) < CHARSET_SIZE
  }

  predicate AllDigits(text: string) {
    forall i :: 0 <= i < |text| ==> IsDigit(text[i])
  }

  predicate AllAlphanumeric(text: string) {
    forall i :: 0 <= i < |text| ==> IsAlphanumeric(text[i])
  }

  function DigitValues(text: string): (vs: seq<nat>)
    ensures |vs| == |text|
  {
    seq(|text|, i requires 0 <= i < |text| => DigitValue(text[i]))
  }

  function CharValues(text: string): (vs: seq<nat>)
    ensures |vs| == |text|
  {
    seq(|text|, i requires 0 <= i < |text| => CharValue(text[i]))
  }

  function ByteValues(data: seq<bv8>): (vs: seq<nat>)
    ensures |vs| == |data| && DigitsIn(vs, 256)
  {
    seq(|data|, i requires 0 <= i < |data| => data[i] as nat)
  }

  datatype Made = Made(segment: Segment) | BadCharacter | TooLong

  const INT_MAX := 0x7fff_ffff

  /** What a loop that has read `vs[..i]` and holds back the last `count` of them still owes. */
  ghost predicate Owes(bits: Bits, accum: nat, count: nat, vs: seq<nat>, i: nat, pk: Packing) {
    && count <= i <= |vs| && count < pk.Group()
    && accum == ValueOf(vs[i - count..i], pk)
    && bits + PackedBits(vs[i - count..], pk) == PackedBits(vs, pk)
  }

  lemma PackingStart(vs: seq<nat>, pk: Packing)
    ensures Owes([], 0, 0, vs, 0, pk)
  {
    assert vs[0..] == vs && vs[0..0] == [];
  }

  /** One more digit is held back; a full group is written out. */
  lemma PackingStep(bits: Bits, accum: nat, count: nat, vs: seq<nat>, i: nat, pk: Packing)
    requires Owes(bits, accum, count, vs, i, pk) && i < |vs| && (forall k :: 0 <= k <= i ==> vs[k] < pk.Radix())
    ensures var next := pk.Push(accum, vs[i]); var width := pk.Width(count + 1);
            if count + 1 == pk.Group()
            then next < Pow2(width) && width <= MAX_FIELD && Owes(bits + NatBits(next, width), 0, 0, vs, i + 1, pk)
            else Owes(bits, next, count + 1, vs, i + 1, pk)
  {
    hide Packing.Push, Packing.Width, NatBits, PackedBits;
    var held := vs[i - count..i + 1];
    ValueExtends(vs, i - count, i, pk);
    if count + 1 == pk.Group() {
      GroupFits(held, pk);
      GroupWritten(bits, vs, i - count, pk);
      assert vs[i + 1..i + 1] == [];
    }
  }

  lemma ValueExtends(vs: seq<nat>, start: nat, i: nat, pk: Packing)
    requires start <= i < |vs|
    ensures ValueOf(vs[start..i + 1], pk) == pk.Push(ValueOf(vs[start..i], pk), vs[i])
  {
    hide Packing.Push;
    var held := vs[start..i + 1];
    assert held[..|held| - 1] == vs[start..i];
  }

  lemma GroupWritten(bits: Bits, vs: seq<nat>, start: nat, pk: Packing)
    requires start + pk.Group() <= |vs|
    requires bits + PackedBits(vs[start..], pk) == PackedBits(vs, pk)
    ensures bits + NatBits(ValueOf(vs[start..start + pk.Group()], pk), pk.Width(pk.Group()))
                 + PackedBits(vs[start + pk.Group()..], pk)
         == PackedBits(vs, pk)
  {
    hide ValueOf, PackedBits, Packing.Width, NatBits;
    var rest, n := vs[start..], pk.Group();
    FirstGroup(rest, pk);
    assert rest[..n] == vs[start..start + n];
    assert rest[n..] == vs[start + n..];
    var first, others := NatBits(ValueOf(rest[..n], pk), pk.Width(n)), PackedBits(rest[n..], pk);
    assert bits + first + others == bits + (first + others);
  }

  lemma FirstGroup(vs: seq<nat>, pk: Packing)
    requires |vs| >= pk.Group()
    ensures PackedBits(vs, pk)
         == NatBits(ValueOf(vs[..pk.Group()], pk), pk.Width(pk.Group())) + PackedBits(vs[pk.Group()..], pk)
  {
  }

  lemma OneGroup(vs: seq<nat>, pk: Packing)
    requires 0 < |vs| <= pk.Group()
    ensures PackedBits(vs, pk) == NatBits(ValueOf(vs, pk), pk.Width(|vs|))
  {
    hide Packing.Push, Packing.Width, NatBits;
    assert vs[..|vs|] == vs && vs[|vs|..] == [];
    var b := NatBits(ValueOf(vs, pk), pk.Width(|vs|));
    assert b + [] == b;
  }

  lemma PackingEnd(bits: Bits, accum: nat, count: nat, vs: seq<nat>, pk: Packing)
    requires Owes(bits, accum, count, vs, |vs|, pk) && DigitsIn(vs, pk.Radix())
    ensures accum < Pow2(pk.Width(count)) && pk.Width(count) <= MAX_FIELD
    ensures PackedBits(vs, pk) == if count > 0 then bits + NatBits(accum, pk.Width(count)) else bits
  {
    hide Packing.Push, Packing.Width, NatBits;
    var rest := vs[|vs| - count..];
    assert rest == vs[|vs| - count..|vs|];
    GroupFits(rest, pk);
    if count == 0 {
      assert rest == [] && bits + [] == bits;
    } else {
      OneGroup(rest, pk);
    }
  }

  /** The step shared by the numeric and the alphanumeric loop: take a digit in, write a full group out. */
  method Accumulate(bb: BitBuffer, accum: nat, count: nat, digit: nat, pk: Packing, ghost vs: seq<nat>, ghost i: nat)
    returns (accum': nat, count': nat)
    requires Owes(bb.bits, accum, count, vs, i, pk) && i < |vs| && digit == vs[i]
    requires forall k :: 0 <= k <= i ==> vs[k] < pk.Radix()
    modifies bb
    ensures Owes(bb.bits, accum', count', vs, i + 1, pk)
  {
    hide Owes, NatBits, Pow2, Packing.Width, Packing.Push;
    PackingStep(bb.bits, accum, count, vs, i, pk);
    accum', count' := pk.Push(accum, digit), count + 1;
    if count' == pk.Group() {
      var _ := bb.AppendBits(accum', pk.Width(count'));
      accum', count' := 0, 0;
    }
  }

  /** What follows the loop: a last, shorter group. */
  method Finish(bb: BitBuffer, accum: nat, count: nat, pk: Packing, ghost vs: seq<nat>)
    requires Owes(bb.bits, accum, count, vs, |vs|, pk) && DigitsIn(vs, pk.Radix())
    modifies bb
    ensures bb.bits == PackedBits(vs, pk)
  {
    hide Owes, NatBits, Pow2, Packing.Width, PackedBits;
    PackingEnd(bb.bits, accum, count, vs, pk);
    if count > 0 {
      var _ := bb.AppendBits(accum, pk.Width(count));
    }
  }

  method MakeNumeric(digits: string) returns (r: Made)
    ensures r == if AllDigits(digits)
                 then Made(Segment(NumericMode, |digits|, PackedBits(DigitValues(digits), NUMERIC)))
                 else BadCharacter
  {
    hide Owes, PackedBits;
    var bb := new BitBuffer();
    var accumData: nat, accumCount: nat := 0, 0;
    ghost var vs := DigitValues(digits);
    PackingStart(vs, NUMERIC);
    for i := 0 to |digits|
      invariant forall k :: 0 <= k < i ==> IsDigit(digits[k])
      invariant Owes(bb.bits, accumData, accumCount, vs, i, NUMERIC)
    {
      var c := digits[i];
      if c < '0' || c > '9' {
        return BadCharacter;
      }
      accumData, accumCount := Accumulate(bb, accumData, accumCount, c as int - '0' as int, NUMERIC, vs, i);
    }
    Finish(bb, accumData, accumCount, NUMERIC, vs);
    r := Made(Segment(NumericMode, |digits|, bb.bits));
  }

  method MakeAlphanumeric(text: string) returns (r: Made)
    ensures r == if AllAlphanumeric(text)
                 then Made(Segment(AlphanumericMode, |text|, PackedBits(CharValues(text), ALPHANUMERIC)))
                 else BadCharacter
  {
    hide Owes, PackedBits, CharValue;
    var bb := new BitBuffer();
    var accumData: nat, accumCount: nat := 0, 0;
    ghost var vs := CharValues(text);
    PackingStart(vs, ALPHANUMERIC);
    for i := 0 to |text|
      invariant forall k :: 0 <= k < i ==> IsAlphanumeric(text[k])
      invariant Owes(bb.bits, accumData, accumCount, vs, i, ALPHANUMERIC)
    {
      var temp := CharValue(text[i]);
      if temp == CHARSET_SIZE {
        return BadCharacter;
      }
      accumData, accumCount := Accumulate(bb, accumData, accumCount, temp, ALPHANUMERIC, vs, i);
    }
    Finish(bb, accumData, accumCount, ALPHANUMERIC, vs);
    r := Made(Segment(AlphanumericMode, |text|, bb.bits));
  }

  method MakeBytes(data: seq<bv8>) returns (r: Made)
    ensures r == if |data| <= INT_MAX
                 then Made(Segment(ByteMode, |data|, PackedBits(ByteValues(data), BYTE)))
                 else TooLong
  {
    hide Owes, PackedBits, NatBits, Pow2;
    if |data| > INT_MAX {
      return TooLong;
    }
    var bb := new BitBuffer();
    ghost var vs := ByteValues(data);
    PackingStart(vs, BYTE);
    for i := 0 to |data|
      invariant Owes(bb.bits, 0, 0, vs, i, BYTE)
    {
      PackingStep(bb.bits, 0, 0, vs, i, BYTE);
      var _ := bb.AppendBits(data[i] as nat, 8);
    }
    PackingEnd(bb.bits, 0, 0, vs, BYTE);
    r := Made(Segment(ByteMode, |data|, bb.bits));
  }
}
