/** The Base64 decoder, which may write over its own input, against RFC 4648 sections 4 and 5. */
module Base64 {
  import opened BitBuffers

  datatype Status = Ok | IllegalInputLength | IllegalCharacter | IllegalPadding

  datatype Options = Options(url: bool, abortOnErrors: bool)

  type Text = seq<int>

  const PAD := '=' as int

  /** The value of a character of the chosen alphabet, or -1. */
  function DigitOf(ch: int, url: bool): (d: int)
    ensures -1 <= d < 64
  {
    if 'A' as int <= ch <= 'Z' as int then ch - 'A' as int
    else if 'a' as int <= ch <= 'z' as int then ch - 'a' as int + 26
    else if '0' as int <= ch <= '9' as int then ch - '0' as int + 52
    else if ch == (if url then '-' else '+') as int then 62
    else if ch == (if url then '_' else '/') as int then 63
    else -1
  }

  /** The values of the alphabet characters in a text, in order; other characters are dropped. */
  function Digits(s: Text, url: bool): (ds: seq<nat>)
    ensures |ds| <= |s|
    ensures forall i :: 0 <= i < |ds| ==> ds[i] < 64
  {
    if s == [] then []
    else
      var d := DigitOf(s[|s| - 1], url);
      Digits(s[..|s| - 1], url) + (if d == -1 then [] else [d])
  }

  /** The three bytes spread over four digits. */
  function First(a: nat, b: nat): nat {
    a * 4 + b / 16
  }

  function Second(b: nat, c: nat): nat {
    b % 16 * 16 + c / 4
  }

  function Third(c: nat, d: nat): nat {
    c % 4 * 64 + d
  }

  /** The bytes that digits stand for: four make three, and a shorter end makes one less than it has. */
  function BytesOf(ds: seq<nat>): seq<nat> {
    if |ds| >= 4 then [First(ds[0], ds[1]), Second(ds[1], ds[2]), Third(ds[2], ds[3])] + BytesOf(ds[4..])
    else if |ds| == 3 then [First(ds[0], ds[1]), Second(ds[1], ds[2])]
    else if |ds| == 2 then [First(ds[0], ds[1])]
    else []
  }

  /** How far a strict reader gets: the place of the first character outside the alphabet. */
  function FirstOther(s: Text, url: bool): (k: nat)
    ensures k <= |s|
    ensures forall i :: 0 <= i < k ==> DigitOf(s[i], url) != -1
    ensures k < |s| ==> DigitOf(s[k], url) == -1
  {
    if s == [] || DigitOf(s[0], url) == -1 then 0 else 1 + FirstOther(s[1..], url)
  }

  function Verdict(s: Text, o: Options): Status {
    var n, k := |s|, FirstOther(s, o.url);
    if !o.abortOnErrors || k == n then Ok
    else if s[k] != PAD then IllegalCharacter
    else if n % 4 != 0 then IllegalInputLength
    else if k == n - 1 || (k == n - 2 && s[n - 1] == PAD) then Ok
    else IllegalPadding
  }

  // ----- the accumulator

  /** Output, pending bits and their number after some digits. */
  datatype Accumulator = Accumulator(out: seq<nat>, buf: nat, nbits: nat)

  /** buf & ((1 << n) - 1) */
  function Low(buf: nat, n: nat): nat {
    if n == 0 then 0 else 2 * Low(buf / 2, n - 1) + buf % 2
  }

  /** The loop body for one digit: a byte leaves as soon as eight bits are there. */
  function Feed(a: Accumulator, d: nat): Accumulator {
    var buf, nbits := a.buf * 64 + d, a.nbits + 6;
    if nbits >= 8 then Accumulator(a.out + [ShiftRight(buf, nbits - 8)], Low(buf, nbits - 8), nbits - 8)
    else Accumulator(a.out, buf, nbits)
  }

  lemma SplitTwo(buf: nat)
    ensures ShiftRight(buf, 2) == buf / 4 && Low(buf, 2) == buf % 4
  {
    assert ShiftRight(buf / 2, 1) == buf / 2 / 2;
    assert Low(buf / 2, 1) == buf / 2 % 2;
  }

  lemma SplitFour(buf: nat)
    ensures ShiftRight(buf, 4) == buf / 16 && Low(buf, 4) == buf % 16
  {
    hide ShiftRight, Low;
    SplitTwo(buf / 2 / 2);
    Peel(buf, 4);
    Peel(buf / 2, 3);
    assert ShiftRight(buf, 4) == buf / 2 / 2 / 4;
  }

  lemma SplitNone(buf: nat)
    ensures ShiftRight(buf, 0) == buf && Low(buf, 0) == 0
  {
  }

  lemma Peel(buf: nat, n: nat)
    requires n > 0
    ensures ShiftRight(buf, n) == ShiftRight(buf / 2, n - 1) && Low(buf, n) == 2 * Low(buf / 2, n - 1) + buf % 2
  {
  }

  function Accumulated(ds: seq<nat>): Accumulator {
    if ds == [] then Accumulator([], 0, 0) else Feed(Accumulated(ds[..|ds| - 1]), ds[|ds| - 1])
  }

  /** The pending bits are those of the last digits that no byte has taken yet. */
  ghost predicate Pending(a: Accumulator, ds: seq<nat>) {
    var n := |ds|;
    match n % 4
    case 0 => a.nbits == 0 && a.buf == 0
    case 1 => a.nbits == 6 && a.buf == ds[n - 1]
    case 2 => a.nbits == 4 && a.buf == ds[n - 1] % 16
    case _ => a.nbits == 2 && a.buf == ds[n - 1] % 4
  }

  predicate Sextets(ds: seq<nat>) {
    forall i :: 0 <= i < |ds| ==> ds[i] < 64
  }

  lemma {:induction false} AccumulatorKeepsBytes(ds: seq<nat>)
    requires Sextets(ds)
    ensures Accumulated(ds).out == BytesOf(ds) && Pending(Accumulated(ds), ds)
  {
    if ds == [] {
    } else {
      hide Feed, Completed, BytesOf;
      var n := |ds| - 1;
      AccumulatorKeepsBytes(ds[..n]);
      OneMoreDigit(ds[..n], ds[n]);
      assert ds[..n] + [ds[n]] == ds;
      FeedPending(Accumulated(ds[..n]), ds[..n], ds[n]);
    }
  }

  lemma {:induction false} BytesLength(ds: seq<nat>)
    ensures |BytesOf(ds)| == 3 * |ds| / 4
  {
    if |ds| >= 4 {
      BytesLength(ds[4..]);
    }
  }

  /** The byte completed by one more digit, if any. */
  function Completed(ds: seq<nat>, d: nat): seq<nat> {
    var n := |ds|;
    match n % 4
    case 0 => []
    case 1 => [First(ds[n - 1], d)]
    case 2 => [Second(ds[n - 1], d)]
    case _ => [Third(ds[n - 1], d)]
  }

  lemma {:induction false} OneMoreDigit(ds: seq<nat>, d: nat)
    ensures BytesOf(ds + [d]) == BytesOf(ds) + Completed(ds, d)
  {
    hide First, Second, Third;
    if |ds| < 4 {
      if |ds| == 3 {
        assert (ds + [d])[4..] == [];
      }
    } else {
      hide Completed, BytesOf;
      OneMoreDigit(ds[4..], d);
      assert (ds + [d])[4..] == ds[4..] + [d];
      BytesFrom4(ds);
      BytesFrom4(ds + [d]);
      CompletedFrom4(ds, d);
    }
  }

  lemma BytesFrom4(ds: seq<nat>)
    requires |ds| >= 4
    ensures BytesOf(ds) == [First(ds[0], ds[1]), Second(ds[1], ds[2]), Third(ds[2], ds[3])] + BytesOf(ds[4..])
  {
  }

  lemma CompletedFrom4(ds: seq<nat>, d: nat)
    requires |ds| >= 4
    ensures Completed(ds[4..], d) == Completed(ds, d)
  {
    hide First, Second, Third;
  }

  lemma FeedPending(a: Accumulator, ds: seq<nat>, d: nat)
    requires Pending(a, ds) && Sextets(ds) && d < 64
    ensures Feed(a, d).out == a.out + Completed(ds, d) && Pending(Feed(a, d), ds + [d])
  {
    hide ShiftRight, Low;
    var buf := a.buf * 64 + d;
    match |ds| % 4
    case 1 => SplitFour(buf);
    case 2 => SplitTwo(buf);
    case 3 => SplitNone(buf);
    case _ =>
  }

  // ----- the loop

  /** The characters whose digits count. */
  function Decoded(s: Text, o: Options): Text {
    if o.abortOnErrors then s[..FirstOther(s, o.url)] else s
  }

  /** The buffer holds the bytes of the digits met so far. */
  ghost predicate Holds(output: array<int>, offset: nat, buf: nat, nbits: nat, ds: seq<nat>)
    reads output
  {
    && Sextets(ds) && offset == 3 * |ds| / 4 <= output.Length
    && output[..offset] == Accumulated(ds).out
    && buf == Accumulated(ds).buf && nbits == Accumulated(ds).nbits
  }

  method PutDigit(output: array<int>, offset: nat, buf: nat, nbits: nat, d: nat, ghost ds: seq<nat>)
    returns (offset': nat, buf': nat, nbits': nat)
    requires Holds(output, offset, buf, nbits, ds) && d < 64 && 3 * (|ds| + 1) / 4 <= output.Length
    modifies output
    ensures Holds(output, offset', buf', nbits', ds + [d])
    ensures offset' == 3 * (|ds| + 1) / 4 <= offset + 1
    ensures forall j :: offset' <= j < output.Length ==> output[j] == old(output[j])
  {
    hide ShiftRight, Low, BytesOf;
    assert (ds + [d])[..|ds|] == ds;
    AccumulatorKeepsBytes(ds + [d]);
    BytesLength(ds + [d]);
    AccumulatorKeepsBytes(ds);
    BytesLength(ds);
    offset', buf', nbits' := offset, buf * 64 + d, nbits + 6;
    if nbits' >= 8 {
      nbits' := nbits' - 8;
      assert offset' < |ds|;
      output[offset'] := ShiftRight(buf', nbits');
      offset' := offset' + 1;
      buf' := Low(buf', nbits');
    }
  }

  /** Decodes the first `size` characters of `input` into `output`, which may be the same buffer. */
  method DecodeInto(input: array<int>, size: nat, output: array<int>, o: Options) returns (length: nat, status: Status)
    requires size <= input.Length && 3 * size / 4 <= output.Length
    modifies output
    ensures status == Verdict(old(input[..size]), o)
    ensures status != Ok ==> length == 0
    ensures status == Ok ==>
              var ds := Digits(Decoded(old(input[..size]), o), o.url);
              length == |BytesOf(ds)| <= 3 * size / 4 && output[..length] == BytesOf(ds)
    ensures forall j :: 3 * size / 4 <= j < output.Length ==> output[j] == old(output[j])
  {
    hide Accumulated, BytesOf, Holds, DigitOf, Digits, Verdict;
    ghost var s: Text := input[..size];
    ghost var k := FirstOther(s, o.url);
    var buf: nat, nbits: nat, offset: nat := 0, 0, 0;
    var i := 0;
    ghost var ds: seq<nat> := Digits(s[..0], o.url);
    NothingYet(output, s, o);
    while i < size
      invariant i <= size && Holds(output, offset, buf, nbits, ds) && offset <= i && |ds| <= i
      invariant if i <= k || !o.abortOnErrors then ds == Digits(s[..i], o.url)
                else i == size && ds == Digits(s[..k], o.url) && Verdict(s, o) == Ok
      invariant forall j :: i <= j < size ==> input[j] == s[j]
      invariant forall j :: 3 * size / 4 <= j < output.Length ==> output[j] == old(output[j])
    {
      var d := DigitOf(input[i], o.url);
      DigitsStep(s, i, o.url);
      if o.abortOnErrors {
        VerdictAt(s, i, o);
      }
      if d == -1 && o.abortOnErrors {
        if input[i] == PAD {
          if size % 4 != 0 {
            return 0, IllegalInputLength;
          }
          var legal := i == size - 1;
          if !legal && i == size - 2 {
            i := i + 1;
            legal := input[i] == PAD;
          }
          if !legal {
            return 0, IllegalPadding;
          }
        } else {
          return 0, IllegalCharacter;
        }
      }
      if d != -1 {
        offset, buf, nbits := PutDigit(output, offset, buf, nbits, d, ds);
        ds := ds + [d];
      }
      i := i + 1;
    }
    BytesHeld(output, offset, buf, nbits, ds);
    VerdictAtEnd(s, o);
    length, status := offset, Ok;
  }

  lemma NothingYet(output: array<int>, s: Text, o: Options)
    ensures Digits(s[..0], o.url) == [] && Holds(output, 0, 0, 0, [])
  {
  }

  /** The verdict when a strict reader stops at place i. */
  lemma VerdictAt(s: Text, i: nat, o: Options)
    requires i < |s| && i <= FirstOther(s, o.url)
    ensures DigitOf(s[i], o.url) == -1 <==> i == FirstOther(s, o.url)
    ensures i == FirstOther(s, o.url) && o.abortOnErrors ==>
              Verdict(s, o) == if s[i] != PAD then IllegalCharacter
                               else if |s| % 4 != 0 then IllegalInputLength
                               else if i == |s| - 1 || (i == |s| - 2 && s[i + 1] == PAD) then Ok
                               else IllegalPadding
  {
    hide DigitOf;
  }

  lemma VerdictAtEnd(s: Text, o: Options)
    ensures !o.abortOnErrors || FirstOther(s, o.url) == |s| ==> Verdict(s, o) == Ok && Decoded(s, o) == s
    ensures s[..|s|] == s
  {
  }

  lemma DigitsStep(s: Text, i: nat, url: bool)
    requires i < |s|
    ensures Digits(s[..i + 1], url)
         == Digits(s[..i], url) + (if DigitOf(s[i], url) == -1 then [] else [DigitOf(s[i], url) as nat])
  {
    assert s[..i + 1][..i] == s[..i];
  }

  lemma BytesHeld(output: array<int>, offset: nat, buf: nat, nbits: nat, ds: seq<nat>)
    requires Holds(output, offset, buf, nbits, ds)
    ensures offset == |BytesOf(ds)| == 3 * |ds| / 4 <= output.Length && output[..offset] == BytesOf(ds)
  {
    AccumulatorKeepsBytes(ds);
    BytesLength(ds);
  }

  /** The public entry: a fresh buffer of three quarters of the input, cut to what was decoded. */
  method FromBase64(text: array<int>, o: Options) returns (decoded: seq<int>, status: Status)
    ensures status == Verdict(text[..], o)
    ensures decoded == if status == Ok then BytesOf(Digits(Decoded(text[..], o), o.url)) else []
  {
    var result := new int[3 * text.Length / 4];
    assert text[..text.Length] == text[..];
    var length, verdict := DecodeInto(text, text.Length, result, o);
    decoded, status := result[..length], verdict;
  }

  // ----- the encodings of RFC 4648

  function CharOf(d: nat, url: bool): int
    requires d < 64
  {
    if d < 26 then 'A' as int + d
    else if d < 52 then 'a' as int + d - 26
    else if d < 62 then '0' as int + d - 52
    else if d == 62 then (if url then '-' else '+') as int
    else (if url then '_' else '/') as int
  }

  lemma AlphabetRoundTrip(d: nat, url: bool)
    requires d < 64
    ensures DigitOf(CharOf(d, url), url) == d
  {
  }

  predicate IsBytes(bytes: seq<nat>) {
    forall i :: 0 <= i < |bytes| ==> bytes[i] < 256
  }

  /** The four digits spread over three bytes; a missing byte counts as zero. */
  function Digit0(x: nat): nat {
    x / 4
  }

  function Digit1(x: nat, y: nat): nat {
    x % 4 * 16 + y / 16
  }

  function Digit2(y: nat, z: nat): nat {
    y % 16 * 4 + z / 64
  }

  function Digit3(z: nat): nat {
    z % 64
  }

  /** Three bytes make four digits; one or two left over are filled with zero bits. */
  function DigitsFor(bytes: seq<nat>): (ds: seq<nat>)
    requires IsBytes(bytes)
    ensures Sextets(ds)
  {
    if bytes == [] then []
    else if |bytes| == 1 then [Digit0(bytes[0]), Digit1(bytes[0], 0)]
    else if |bytes| == 2 then [Digit0(bytes[0]), Digit1(bytes[0], bytes[1]), Digit2(bytes[1], 0)]
    else
      var x, y, z := bytes[0], bytes[1], bytes[2];
      [Digit0(x), Digit1(x, y), Digit2(y, z), Digit3(z)] + DigitsFor(bytes[3..])
  }

  lemma SpreadsAgree(x: nat, y: nat, z: nat)
    requires x < 256 && y < 256 && z < 256
    ensures First(Digit0(x), Digit1(x, y)) == x
    ensures Second(Digit1(x, y), Digit2(y, z)) == y
    ensures Third(Digit2(y, z), Digit3(z)) == z
  {
  }

  function CharsFor(ds: seq<nat>, url: bool): (s: Text)
    requires Sextets(ds)
    ensures |s| == |ds|
  {
    seq(|ds|, i requires 0 <= i < |ds| => CharOf(ds[i], url))
  }

  function PadFor(digits: nat): Text {
    match digits % 4 case 2 => [PAD, PAD] case 3 => [PAD] case _ => []
  }

  function Encode(bytes: seq<nat>, url: bool, padded: bool): Text
    requires IsBytes(bytes)
  {
    var ds := DigitsFor(bytes);
    CharsFor(ds, url) + (if padded then PadFor(|ds|) else [])
  }

  lemma {:induction false} BytesOfDigitsFor(bytes: seq<nat>)
    requires IsBytes(bytes)
    ensures BytesOf(DigitsFor(bytes)) == bytes
    ensures |DigitsFor(bytes)| % 4 != 1
  {
    hide First, Second, Third, Digit0, Digit1, Digit2, Digit3;
    if |bytes| >= 3 {
      BytesOfDigitsFor(bytes[3..]);
      SpreadsAgree(bytes[0], bytes[1], bytes[2]);
      assert DigitsFor(bytes)[4..] == DigitsFor(bytes[3..]);
    } else if |bytes| == 2 {
      SpreadsAgree(bytes[0], bytes[1], 0);
    } else if |bytes| == 1 {
      SpreadsAgree(bytes[0], 0, 0);
    }
  }

  lemma {:induction false} DigitsOfChars(ds: seq<nat>, url: bool)
    requires Sextets(ds)
    ensures Digits(CharsFor(ds, url), url) == ds
    ensures forall i :: 0 <= i < |ds| ==> DigitOf(CharsFor(ds, url)[i], url) != -1
  {
    if ds != [] {
      hide DigitOf, CharOf;
      var n := |ds| - 1;
      DigitsOfChars(ds[..n], url);
      assert CharsFor(ds, url)[..n] == CharsFor(ds[..n], url);
      AlphabetRoundTrip(ds[n], url);
    }
  }

  /** Pads add no digit, and a strict reader stops at the first of them. */
  lemma {:induction false} PadsAddNothing(s: Text, pad: Text, url: bool)
    requires forall i :: 0 <= i < |s| ==> DigitOf(s[i], url) != -1
    requires forall i :: 0 <= i < |pad| ==> pad[i] == PAD
    ensures Digits(s + pad, url) == Digits(s, url)
    ensures FirstOther(s + pad, url) == |s|
  {
    hide DigitOf, FirstOther;
    PadIsOther(url);
    FirstOtherIs(s + pad, |s|, url);
    if pad == [] {
      assert s + pad == s;
    } else {
      PadsAddNothing(s, pad[..|pad| - 1], url);
      assert (s + pad)[..|s + pad| - 1] == s + pad[..|pad| - 1];
    }
  }

  lemma {:induction false} FirstOtherIs(s: Text, k: nat, url: bool)
    requires k <= |s| && (forall i :: 0 <= i < k ==> DigitOf(s[i], url) != -1)
    requires k < |s| ==> DigitOf(s[k], url) == -1
    ensures FirstOther(s, url) == k
  {
    hide DigitOf;
    if k > 0 {
      FirstOtherIs(s[1..], k - 1, url);
    }
  }

  /** Either alphabet, padded or not, strict or lenient: an encoding is accepted and gives its bytes back. */
  lemma DecodingUndoesEncoding(bytes: seq<nat>, url: bool, padded: bool, strict: bool)
    requires IsBytes(bytes)
    ensures var s, o := Encode(bytes, url, padded), Options(url, strict);
            Verdict(s, o) == Ok && BytesOf(Digits(Decoded(s, o), url)) == bytes
  {
    hide DigitOf, BytesOf, DigitsFor, Digits, FirstOther, CharsFor;
    var ds := DigitsFor(bytes);
    var chars, pad := CharsFor(ds, url), if padded then PadFor(|ds|) else [];
    BytesOfDigitsFor(bytes);
    DigitsOfChars(ds, url);
    PadsAddNothing(chars, pad, url);
    assert (chars + pad)[..|ds|] == chars;
  }

  /** Alphabet characters up to k, then nothing or, in a text of a multiple of four characters, one or two pads. */
  ghost predicate StrictlyLegal(s: Text, k: nat, url: bool) {
    && k <= |s|
    && (forall i :: 0 <= i < k ==> DigitOf(s[i], url) != -1)
    && (forall i :: k <= i < |s| ==> s[i] == PAD)
    && (k == |s| || (|s| % 4 == 0 && |s| - k <= 2))
  }

  /** A strict reader accepts exactly these texts. */
  lemma StrictAcceptance(s: Text, url: bool)
    ensures Verdict(s, Options(url, true)) == Ok <==> exists k: nat :: StrictlyLegal(s, k, url)
  {
    hide DigitOf, FirstOther;
    PadIsOther(url);
    if k: nat :| StrictlyLegal(s, k, url) {
      FirstOtherIs(s, k, url);
    }
    if Verdict(s, Options(url, true)) == Ok {
      assert StrictlyLegal(s, FirstOther(s, url), url);
    }
  }

  lemma PadIsOther(url: bool)
    ensures DigitOf(PAD, url) == -1
  {
  }

  // ----- every text

  /** Exactly the 64 characters of the alphabet have values. */
  lemma AlphabetIsExact(ch: int, url: bool)
    ensures DigitOf(ch, url) != -1 ==> CharOf(DigitOf(ch, url), url) == ch
    ensures DigitOf(ch, url) == -1 ==> forall d: nat :: d < 64 ==> CharOf(d, url) != ch
  {
  }

  /** A lenient reader accepts every text. A strict one that does not accept a text whose first k characters, and no
      more, are of the alphabet refuses the next one when it is no pad; if it is, a length that is no multiple of four;
      and otherwise what follows it. */
  lemma StatusIs(s: Text, k: nat, url: bool)
    requires k <= |s| && (forall i :: 0 <= i < k ==> DigitOf(s[i], url) != -1)
    requires k < |s| ==> DigitOf(s[k], url) == -1
    ensures Verdict(s, Options(url, false)) == Ok
    ensures !StrictlyLegal(s, k, url) ==>
              k < |s| && Verdict(s, Options(url, true)) == if s[k] != PAD then IllegalCharacter
                                                           else if |s| % 4 != 0 then IllegalInputLength
                                                           else IllegalPadding
    ensures StrictlyLegal(s, k, url) ==> Verdict(s, Options(url, true)) == Ok
  {
    hide DigitOf, FirstOther;
    FirstOtherIs(s, k, url);
  }

  lemma DigitsOfOne(ch: int, url: bool)
    ensures Digits([ch], url) == if DigitOf(ch, url) == -1 then [] else [DigitOf(ch, url) as nat]
  {
    hide DigitOf;
    assert [ch][..0] == [];
  }

  /** A lenient reader passes over what is not of the alphabet, wherever it stands. */
  lemma {:induction false} DigitsJoin(s: Text, t: Text, url: bool)
    ensures Digits(s + t, url) == Digits(s, url) + Digits(t, url)
  {
    hide DigitOf;
    if t == [] {
      assert s + t == s;
    } else {
      DigitsJoin(s, t[..|t| - 1], url);
      assert (s + t)[..|s + t| - 1] == s + t[..|t| - 1];
    }
  }

  // ----- the same in bits

  /** Bit p of numbers that are written one after the other in `width` bits each. */
  function BitAt(vs: seq<nat>, width: nat, p: nat): bool
    requires width > 0 && p / width < |vs|
  {
    NatBits(vs[p / width], width)[p % width]
  }

  lemma {:induction false} NatBitsSplit(v: nat, m: nat, n: nat)
    ensures NatBits(v, m + n) == NatBits(ShiftRight(v, n), m) + NatBits(v, n)
  {
    if n > 0 {
      NatBitsSplit(v / 2, m, n - 1);
    }
  }

  lemma {:induction false} NatBitsDependOnLow(v: nat, w: nat, n: nat)
    requires Low(v, n) == Low(w, n)
    ensures NatBits(v, n) == NatBits(w, n)
  {
    if n > 0 {
      NatBitsDependOnLow(v / 2, w / 2, n - 1);
    }
  }

  /** Three bytes are the bits of four digits. */
  lemma FourDigitsInBits(a: nat, b: nat, c: nat, d: nat)
    requires a < 64 && b < 64 && c < 64 && d < 64
    ensures NatBits(First(a, b), 8) == NatBits(a, 6) + NatBits(b, 6)[..2]
    ensures NatBits(Second(b, c), 8) == NatBits(b, 6)[2..] + NatBits(c, 6)[..4]
    ensures NatBits(Third(c, d), 8) == NatBits(c, 6)[4..] + NatBits(d, 6)
  {
    TwoAndSix(First(a, b), a, b);
    FourAndFour(Second(b, c), b, c);
    SixAndTwo(Third(c, d), c, d);
  }

  lemma TwoAndSix(v: nat, a: nat, b: nat)
    requires a < 64 && b < 64 && v == a * 4 + b / 16
    ensures NatBits(v, 8) == NatBits(a, 6) + NatBits(b, 6)[..2]
  {
    hide NatBits, ShiftRight, Low;
    NatBitsSplit(v, 6, 2);
    SplitTwo(v);
    NatBitsSplit(b, 2, 4);
    SplitFour(b);
    SplitTwo(b / 16);
    NatBitsDependOnLow(v, b / 16, 2);
  }

  lemma FourAndFour(v: nat, b: nat, c: nat)
    requires b < 64 && c < 64 && v == b % 16 * 16 + c / 4
    ensures NatBits(v, 8) == NatBits(b, 6)[2..] + NatBits(c, 6)[..4]
  {
    hide NatBits, ShiftRight, Low;
    NatBitsSplit(v, 4, 4);
    SplitFour(v);
    NatBitsSplit(b, 2, 4);
    SplitFour(b);
    SplitFour(b % 16);
    NatBitsDependOnLow(b, b % 16, 4);
    NatBitsSplit(c, 4, 2);
    SplitTwo(c);
    SplitFour(c / 4);
    NatBitsDependOnLow(v, c / 4, 4);
  }

  lemma SixAndTwo(v: nat, c: nat, d: nat)
    requires c < 64 && d < 64 && v == c % 4 * 64 + d
    ensures NatBits(v, 8) == NatBits(c, 6)[4..] + NatBits(d, 6)
  {
    hide NatBits;
    NatBitsSplit(v, 2, 6);
    SplitSix(v, c % 4, d);
    NatBitsSplit(c, 4, 2);
    hide ShiftRight, Low;
    SplitTwo(c);
    SplitTwo(c % 4);
    NatBitsDependOnLow(c, c % 4, 2);
  }

  lemma SplitSix(v: nat, high: nat, low: nat)
    requires low < 64 && v == high * 64 + low
    ensures ShiftRight(v, 6) == high && NatBits(v, 6) == NatBits(low, 6)
  {
    hide ShiftRight, Low, NatBits;
    Quarters(v, high, low);
    Peel(v, 6);
    Peel(v / 2, 5);
    Peel(low, 6);
    Peel(low / 2, 5);
    SplitFour(v / 2 / 2);
    SplitFour(low / 2 / 2);
    NatBitsDependOnLow(v, low, 6);
  }

  lemma Quarters(v: nat, high: nat, low: nat)
    requires low < 64 && v == high * 64 + low
    ensures v % 2 == low % 2 && v / 2 % 2 == low / 2 % 2
    ensures v / 2 / 2 % 16 == low / 2 / 2 % 16 && v / 2 / 2 / 16 == high
  {
    assert v / 2 == 32 * high + low / 2;
    assert v / 2 / 2 == 16 * high + low / 2 / 2;
  }

  /** The first three bytes hold the bits of the first four digits; with fewer digits, the last ones are not used. */
  lemma FirstBits(x: nat, y: nat, z: nat, ds: seq<nat>, p: nat)
    requires |ds| == 4 && Sextets(ds) && p < 24
    requires x == First(ds[0], ds[1]) && y == Second(ds[1], ds[2]) && z == Third(ds[2], ds[3])
    ensures BitAt([x, y, z], 8, p) == BitAt(ds, 6, p)
  {
    hide NatBits, First, Second, Third;
    FourDigitsInBits(ds[0], ds[1], ds[2], ds[3]);
    assert p / 8 == 0 || p / 8 == 1 || p / 8 == 2;
    assert p / 6 == 0 || p / 6 == 1 || p / 6 == 2 || p / 6 == 3;
  }

  /** The bytes are the bits of the digits, eight at a time; there are as many as these bits fill. */
  lemma {:induction false} BytesAreTheBits(ds: seq<nat>, p: nat)
    requires Sextets(ds) && p < 8 * |BytesOf(ds)|
    ensures |BytesOf(ds)| == 6 * |ds| / 8
    ensures p / 6 < |ds| && BitAt(BytesOf(ds), 8, p) == BitAt(ds, 6, p)
  {
    hide NatBits, First, Second, Third;
    BytesLength(ds);
    if p < 24 {
      var zeros := [0, 0, 0, 0];
      var four := (ds + zeros)[..4];
      FirstBits(First(four[0], four[1]), Second(four[1], four[2]), Third(four[2], four[3]), four, p);
      FirstBytes(ds, four);
    } else {
      BytesAreTheBits(ds[4..], p - 24);
      BytesFrom4(ds);
      BitFurtherOn(BytesOf(ds), 3, 8, p);
      BitFurtherOn(ds, 4, 6, p);
      assert BytesOf(ds)[3..] == BytesOf(ds[4..]);
    }
  }

  lemma FirstBytes(ds: seq<nat>, four: seq<nat>)
    requires |four| == 4 && forall i :: 0 <= i < 4 ==> four[i] == if i < |ds| then ds[i] else 0
    ensures |BytesOf(ds)| >= 1 ==> BytesOf(ds)[0] == First(four[0], four[1])
    ensures |BytesOf(ds)| >= 2 ==> BytesOf(ds)[1] == Second(four[1], four[2])
    ensures |BytesOf(ds)| >= 3 ==> BytesOf(ds)[2] == Third(four[2], four[3])
  {
    hide First, Second, Third;
  }

  lemma BitFurtherOn(vs: seq<nat>, n: nat, width: nat, p: nat)
    requires (width == 6 || width == 8) && n <= |vs| && n * width == 24 <= p && p / width < |vs|
    ensures (p - 24) / width < |vs[n..]| && BitAt(vs[n..], width, p - 24) == BitAt(vs, width, p)
  {
    hide NatBits;
    assert (p - 24) / width == p / width - n && (p - 24) % width == p % width;
  }
}
