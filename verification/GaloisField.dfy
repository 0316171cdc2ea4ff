/** The field GF(2^8)/0x11D in which the QR encoder does its Reed-Solomon arithmetic:
    `Multiply` is the shift-and-reduce loop, and the lemmas are the ring laws its result obeys. */
module GaloisField {

  /** Field addition, which is also subtraction. */
  function Add(a: bv8, b: bv8): bv8 {
    a ^ b
  }

  /** Multiplication by the element 2: shift, then reduce by x^8 = x^4 + x^3 + x^2 + 1. */
  function Double(z: bv8): bv8 {
    (z << 1) ^ (if z & 0x80 != 0 then 0x1D else 0)
  }

  function Bit(y: bv8, i: nat): bool
    requires i < 8
  {
    (y >> i) & 1 == 1
  }

  /** `x` when the bit is set, else zero. */
  function Gate(b: bool, x: bv8): bv8 {
    if b then x else 0
  }

  /** The product of `x` with the number formed by the top `n` bits of `y`, by Horner's rule. */
  function Horner(x: bv8, y: bv8, n: nat): bv8
    requires n <= 8
  {
    if n == 0 then 0 else Add(Double(Horner(x, y, n - 1)), Gate(Bit(y, 8 - n), x))
  }

  function Mul(x: bv8, y: bv8): bv8 {
    Horner(x, y, 8)
  }

  /** One round of the loop: shift and reduce, then add `x` when the bit is set. */
  function Round(z: bv16, x: bv8, bit: bv8): bv16 {
    (z << 1) ^ ((z >> 7) * 0x11D) ^ (bit as bv16 * x as bv16)
  }

  method Multiply(x: bv8, y: bv8) returns (r: bv8)
    ensures r == Mul(x, y)
  {
    hide Add, Double, Round, Bit;
    var z: bv16 := 0;
    var i := 8;
    while i > 0
      invariant 0 <= i <= 8
      invariant z < 0x100 && z as bv8 == Horner(x, y, 8 - i)
    {
      i := i - 1;
      RoundIsHornerStep(z, x, y, i);
      z := Round(z, x, (y >> i) & 1);
    }
    r := z as bv8;
  }

  lemma RoundIsHornerStep(z: bv16, x: bv8, y: bv8, i: nat)
    requires z < 0x100 && i < 8
    ensures var next := Round(z, x, (y >> i) & 1);
            next < 0x100 && next as bv8 == Add(Double(z as bv8), Gate(Bit(y, i), x))
  {
    var b := (y >> i) & 1;
    assert b == 0 || b == 1;
    assert z >> 7 == 0 || z >> 7 == 1;
  }

  // ----- addition

  lemma AddLaws(a: bv8, b: bv8, c: bv8)
    ensures Add(a, b) == Add(b, a)
    ensures Add(Add(a, b), c) == Add(a, Add(b, c))
    ensures Add(a, 0) == a == Add(0, a)
    ensures Add(a, b) == 0 <==> a == b
  {
  }

  lemma AddSwap(a: bv8, b: bv8, c: bv8, d: bv8)
    ensures Add(Add(a, b), Add(c, d)) == Add(Add(a, c), Add(b, d))
  {
    hide Add;
    AddLaws(a, b, Add(c, d));
    AddLaws(b, c, d);
    AddLaws(c, b, d);
    AddLaws(a, c, Add(b, d));
  }

  // ----- doubling and bits

  lemma DoubleLinear(a: bv8, b: bv8)
    ensures Double(Add(a, b)) == Add(Double(a), Double(b))
  {
    assert (a ^ b) & 0x80 == (a & 0x80) ^ (b & 0x80);
    assert (a ^ b) << 1 == (a << 1) ^ (b << 1);
    assert a & 0x80 == 0 || a & 0x80 == 0x80;
    assert b & 0x80 == 0 || b & 0x80 == 0x80;
  }

  lemma BitLinear(a: bv8, b: bv8, i: nat)
    requires i < 8
    ensures Bit(Add(a, b), i) == (Bit(a, i) != Bit(b, i))
  {
    assert (a ^ b) >> i == (a >> i) ^ (b >> i);
    ParityLinear(a >> i, b >> i);
  }

  lemma ParityLinear(a: bv8, b: bv8)
    ensures ((a ^ b) & 1 == 1) == ((a & 1 == 1) != (b & 1 == 1))
  {
    assert (a ^ b) & 1 == (a & 1) ^ (b & 1);
    assert (a & 1 == 0 || a & 1 == 1) && (b & 1 == 0 || b & 1 == 1);
  }

  lemma GateLinear(p: bool, q: bool, x: bv8, y: bv8)
    ensures Gate(p != q, x) == Add(Gate(p, x), Gate(q, x))
    ensures Gate(p, Add(x, y)) == Add(Gate(p, x), Gate(p, y))
    ensures Gate(p, Double(x)) == Double(Gate(p, x))
  {
  }

  // ----- the product is bilinear

  lemma HornerStepLinear(p: bv8, q: bv8, f: bool, g: bool, x: bv8)
    ensures Add(Double(Add(p, q)), Gate(f != g, x)) == Add(Add(Double(p), Gate(f, x)), Add(Double(q), Gate(g, x)))
  {
    hide Double, Gate, Add;
    DoubleLinear(p, q);
    GateLinear(f, g, x, x);
    AddSwap(Double(p), Double(q), Gate(f, x), Gate(g, x));
  }

  lemma {:induction false} HornerDistributesLeft(a: bv8, b: bv8, y: bv8, n: nat)
    requires n <= 8
    ensures Horner(Add(a, b), y, n) == Add(Horner(a, y, n), Horner(b, y, n))
  {
    hide Double, Bit, Gate, Add;
    if n == 0 {
      AddLaws(0, 0, 0);
    } else {
      HornerDistributesLeft(a, b, y, n - 1);
      var p, q, g := Horner(a, y, n - 1), Horner(b, y, n - 1), Bit(y, 8 - n);
      DoubleLinear(p, q);
      GateLinear(g, g, a, b);
      AddSwap(Double(p), Double(q), Gate(g, a), Gate(g, b));
    }
  }

  lemma {:induction false} HornerDistributesRight(x: bv8, a: bv8, b: bv8, n: nat)
    requires n <= 8
    ensures Horner(x, Add(a, b), n) == Add(Horner(x, a, n), Horner(x, b, n))
  {
    hide Double, Bit, Gate, Add;
    if n == 0 {
      AddLaws(0, 0, 0);
    } else {
      HornerDistributesRight(x, a, b, n - 1);
      HornerStepLinear(Horner(x, a, n - 1), Horner(x, b, n - 1), Bit(a, 8 - n), Bit(b, 8 - n), x);
      BitLinear(a, b, 8 - n);
    }
  }

  lemma {:induction false} HornerDouble(x: bv8, y: bv8, n: nat)
    requires n <= 8
    ensures Horner(Double(x), y, n) == Double(Horner(x, y, n))
  {
    if n == 0 {
    } else {
      hide Double, Bit, Gate, Add;
      HornerDouble(x, y, n - 1);
      DoubleLinear(Double(Horner(x, y, n - 1)), Gate(Bit(y, 8 - n), x));
      GateLinear(Bit(y, 8 - n), true, x, x);
    }
  }

  lemma Distributes(x: bv8, a: bv8, b: bv8)
    ensures Mul(x, Add(a, b)) == Add(Mul(x, a), Mul(x, b))
    ensures Mul(Add(a, b), x) == Add(Mul(a, x), Mul(b, x))
  {
    hide Horner, Add;
    HornerDistributesRight(x, a, b, 8);
    HornerDistributesLeft(a, b, x, 8);
  }

  // ----- units

  lemma ShiftStep(y: bv8, k: nat)
    requires k < 8
    ensures Add(Double(y >> (k + 1)), Gate(Bit(y, k), 1)) == y >> k
  {
    assert k == 0 || k == 1 || k == 2 || k == 3 || k == 4 || k == 5 || k == 6 || k == 7;
  }

  /** Read back by Horner's rule at 1, a byte gives its own top bits. */
  lemma {:induction false} HornerOfOne(y: bv8, n: nat)
    requires n <= 8
    ensures Horner(1, y, n) == y >> (8 - n)
  {
    if n == 0 {
      assert y >> 8 == 0;
    } else {
      hide Double, Bit, Gate, Add;
      HornerOfOne(y, n - 1);
      ShiftStep(y, 8 - n);
    }
  }

  lemma MulZero(x: bv8)
    ensures Mul(x, 0) == 0 == Mul(0, x)
  {
    hide Horner;
    Distributes(x, 0, 0);
    AddLaws(0, 0, 0);
    AddLaws(Mul(x, 0), Mul(x, 0), 0);
    AddLaws(Mul(0, x), Mul(0, x), 0);
  }

  lemma MulOne(x: bv8)
    ensures Mul(1, x) == x == Mul(x, 1)
  {
    HornerOfOne(x, 8);
    Commutes(1, x);
  }

  // ----- commutativity and associativity

  lemma {:induction false} HornerCommutes(x: bv8, y: bv8, n: nat)
    requires n <= 8
    ensures Horner(x, y, n) == Mul(Horner(1, y, n), x)
  {
    hide Double, Bit, Gate, Add, Mul;
    if n == 0 {
      MulZero(x);
    } else {
      HornerCommutes(x, y, n - 1);
      var p, g := Horner(1, y, n - 1), Gate(Bit(y, 8 - n), 1);
      Distributes(x, Double(p), g);
      DoubleLeft(p, x);
      MulGate(Bit(y, 8 - n), x);
    }
  }

  lemma DoubleLeft(p: bv8, x: bv8)
    ensures Mul(Double(p), x) == Double(Mul(p, x))
  {
    hide Horner, Double;
    HornerDouble(p, x, 8);
  }

  lemma MulGate(b: bool, x: bv8)
    ensures Mul(Gate(b, 1), x) == Gate(b, x)
  {
    hide Horner;
    HornerOfOne(x, 8);
    assert x >> 0 == x;
    MulZero(x);
  }

  lemma Commutes(x: bv8, y: bv8)
    ensures Mul(x, y) == Mul(y, x)
  {
    hide Horner;
    HornerCommutes(x, y, 8);
    HornerOfOne(y, 8);
    assert y >> 0 == y;
  }

  lemma {:induction false} HornerAssociates(x: bv8, y: bv8, z: bv8, n: nat)
    requires n <= 8
    ensures Mul(x, Horner(y, z, n)) == Horner(Mul(x, y), z, n)
  {
    hide Double, Bit, Gate, Add, Mul;
    if n == 0 {
      MulZero(x);
    } else {
      HornerAssociates(x, y, z, n - 1);
      var p, b := Horner(y, z, n - 1), Bit(z, 8 - n);
      Distributes(x, Double(p), Gate(b, y));
      Commutes(x, Double(p));
      DoubleLeft(p, x);
      Commutes(p, x);
      MulGateRight(b, x, y);
    }
  }

  lemma MulGateRight(b: bool, x: bv8, y: bv8)
    ensures Mul(x, Gate(b, y)) == Gate(b, Mul(x, y))
  {
    hide Horner;
    MulZero(x);
  }

  lemma Associates(x: bv8, y: bv8, z: bv8)
    ensures Mul(x, Mul(y, z)) == Mul(Mul(x, y), z)
  {
    hide Horner;
    HornerAssociates(x, y, z, 8);
  }
}
