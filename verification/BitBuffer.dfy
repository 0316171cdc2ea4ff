/** The growable bit string of the QR encoder, and the numbers written into it. */
module BitBuffers {

  type Bits = seq<bool>

  function Pow2(n: nat): (p: nat)
    ensures p > 0
  {
    if n == 0 then 1 else 2 * Pow2(n - 1)
  }

  /** The low `len` bits of `v`, most significant first. */
  function NatBits(v: nat, len: nat): (b: Bits)
    ensures |b| == len
  {
    if len == 0 then [] else NatBits(v / 2, len - 1) + [v % 2 == 1]
  }

  function NatOf(b: Bits): nat {
    if b == [] then 0 else 2 * NatOf(b[..|b| - 1]) + (if b[|b| - 1] then 1 else 0)
  }

  /** A number that fits its field is read back unchanged. */
  lemma {:induction false} NatBitsRoundTrip(v: nat, len: nat)
    requires v < Pow2(len)
    ensures NatOf(NatBits(v, len)) == v
  {
    if len > 0 {
      NatBitsRoundTrip(v / 2, len - 1);
      assert NatBits(v, len)[..len - 1] == NatBits(v / 2, len - 1);
    }
  }

  /** v >> n */
  function ShiftRight(v: nat, n: nat): nat {
    if n == 0 then v else ShiftRight(v / 2, n - 1)
  }

  lemma {:induction false} ShiftStep(v: nat, n: nat)
    ensures ShiftRight(v, n + 1) == ShiftRight(v, n) / 2
  {
    if n > 0 {
      ShiftStep(v / 2, n - 1);
    }
  }

  lemma {:induction false} ShiftedOut(v: nat, n: nat)
    ensures ShiftRight(v, n) == 0 <==> v < Pow2(n)
  {
    if n > 0 {
      ShiftedOut(v / 2, n - 1);
    }
  }

  const MAX_FIELD := 31

  class BitBuffer {
    var bits: Bits

    constructor ()
      ensures bits == []
    {
      bits := [];
    }

    /** Appends `val` in `len` bits; refuses a field that is too wide or a value that does not fit. */
    method AppendBits(val: nat, len: int) returns (ok: bool)
      modifies this
      ensures ok <==> 0 <= len <= MAX_FIELD && val < Pow2(len)
      ensures bits == if ok then old(bits) + NatBits(val, len) else old(bits)
    {
      if len < 0 || len > MAX_FIELD {
        return false;
      }
      ShiftedOut(val, len);
      if ShiftRight(val, len) != 0 {
        return false;
      }
      var i: int := len - 1;
      while i >= 0
        invariant -1 <= i < len
        invariant bits == old(bits) + NatBits(ShiftRight(val, i + 1), len - 1 - i)
      {
        ShiftStep(val, i);
        bits := bits + [ShiftRight(val, i) % 2 == 1];
        i := i - 1;
      }
      ok := true;
    }
  }
}
