/** Reed-Solomon check symbols (ISO/IEC 18004:2015, section 7.5). Polynomials are sequences of
    coefficients, highest power first. The two loops of the encoder are tied to `Generator` and `Remainder`;
    a codeword is then shown to be the one multiple of the generator that starts with the data. */
module ReedSolomon {
  import opened GaloisField

  type Poly = seq<bv8>

  function Zeros(n: nat): Poly {
    seq(n, _ => 0)
  }

  function AddPoly(p: Poly, q: Poly): (s: Poly)
    requires |p| == |q|
    ensures |s| == |p|
  {
    seq(|p|, i requires 0 <= i < |p| => Add(p[i], q[i]))
  }

  function Scale(p: Poly, c: bv8): (s: Poly)
    ensures |s| == |p|
  {
    seq(|p|, i requires 0 <= i < |p| => Mul(p[i], c))
  }

  /** The value of a polynomial at `x`. */
  function Eval(p: Poly, x: bv8): bv8 {
    if p == [] then 0 else Add(Mul(Eval(p[..|p| - 1], x), x), p[|p| - 1])
  }

  /** Schoolbook product. */
  function PolyMul(q: Poly, g: Poly): (p: Poly)
    requires |g| > 0
    ensures |p| == |q| + |g| - 1
  {
    if q == [] then Zeros(|g| - 1)
    else
      var n := |q| - 1;
      AddPoly(PolyMul(q[..n], g) + [0], Zeros(n) + Scale(g, q[n]))
  }

  /** The i-th root, 2^i. */
  function Root(i: nat): bv8 {
    if i == 0 then 1 else Mul(Root(i - 1), 2)
  }

  /** p * (x - r) */
  function TimesLinear(p: Poly, r: bv8): (q: Poly)
    ensures |q| == |p| + 1
  {
    AddPoly(p + [0], [0] + Scale(p, r))
  }

  /** (x - 2^0)(x - 2^1) ... (x - 2^(n-1)) */
  function Generator(n: nat): (g: Poly)
    ensures |g| == n + 1
  {
    if n == 0 then [1] else TimesLinear(Generator(n - 1), Root(n - 1))
  }

  /** One shift-register step of the division by the monic polynomial [1] + divisor. */
  function DivisionStep(rem: Poly, divisor: Poly, b: bv8): (r: Poly)
    requires |rem| == |divisor| > 0
    ensures |r| == |divisor|
  {
    AddPoly(rem[1..] + [0], Scale(divisor, Add(b, rem[0])))
  }

  function Remainder(data: seq<bv8>, divisor: Poly): (r: Poly)
    requires |divisor| > 0
    ensures |r| == |divisor|
  {
    if data == [] then Zeros(|divisor|)
    else DivisionStep(Remainder(data[..|data| - 1], divisor), divisor, data[|data| - 1])
  }

  // ----- the encoder's loops

  /** The coefficient of x^e. */
  function Coeff(p: Poly, e: int): bv8 {
    if 0 <= e < |p| then p[|p| - 1 - e] else 0
  }

  lemma TimesLinearCoeff(p: Poly, r: bv8, e: nat)
    ensures Coeff(TimesLinear(p, r), e) == Add(Mul(Coeff(p, e), r), Coeff(p, e - 1))
  {
    hide Add, Mul;
    MulZero(r);
    AddLaws(Mul(Coeff(p, e), r), Coeff(p, e - 1), 0);
    if e == |p| {
      AddLaws(0, Coeff(p, e - 1), 0);
    } else if e > |p| {
      AddLaws(0, 0, 0);
    }
  }

  /** The array holds the generator of `i` factors, lowest power last, with the power of its length dropped. */
  ghost predicate HoldsGenerator(a: array<bv8>, i: nat)
    reads a
  {
    forall k :: 0 <= k < a.Length ==> a[k] == Coeff(Generator(i), a.Length - 1 - k)
  }

  /** The inner loop: multiply the product so far by (x - 2^i). */
  method TimesNextFactor(result: array<bv8>, i: nat, root: bv8)
    requires root == Root(i) && HoldsGenerator(result, i)
    modifies result
    ensures HoldsGenerator(result, i + 1)
  {
    hide Add, Mul, Generator, Coeff, Root;
    for j := 0 to result.Length
      invariant forall k :: 0 <= k < j ==> result[k] == Coeff(Generator(i + 1), result.Length - 1 - k)
      invariant forall k :: j <= k < result.Length ==> result[k] == Coeff(Generator(i), result.Length - 1 - k)
    {
      GeneratorCoeff(i, result.Length - 1 - j);
      var product := Multiply(result[j], root);
      result[j] := product;
      if j + 1 < result.Length {
        result[j] := Add(result[j], result[j + 1]);
      }
    }
  }

  method MonomialOne(degree: nat) returns (result: array<bv8>)
    requires degree > 0
    ensures fresh(result) && result.Length == degree && HoldsGenerator(result, 0)
  {
    hide Add, Mul, Generator, Coeff;
    result := new bv8[degree](_ => 0);
    result[degree - 1] := 1;
    forall k | 0 <= k < degree
      ensures result[k] == Coeff(Generator(0), degree - 1 - k)
    {
      GeneratorStart(degree - 1 - k);
    }
  }

  datatype Divisor = Divisor(coefficients: Poly) | DegreeOutOfRange

  method ComputeDivisor(degree: int) returns (d: Divisor)
    ensures d == if 1 <= degree <= 255 then Divisor(Generator(degree)[1..]) else DegreeOutOfRange
  {
    if degree < 1 || degree > 255 {
      return DegreeOutOfRange;
    }
    hide Mul, HoldsGenerator;
    var result := MonomialOne(degree);
    var root: bv8 := 1;
    for i := 0 to degree
      invariant root == Root(i)
      invariant fresh(result) && HoldsGenerator(result, i)
    {
      TimesNextFactor(result, i, root);
      root := Multiply(root, 2);
    }
    GeneratorTail(result);
    d := Divisor(result[..]);
  }

  lemma GeneratorStart(e: nat)
    ensures Coeff(Generator(0), e) == if e == 0 then 1 else 0
  {
  }

  lemma GeneratorTail(a: array<bv8>)
    requires HoldsGenerator(a, a.Length)
    ensures a[..] == Generator(a.Length)[1..]
  {
    hide Generator;
  }

  lemma GeneratorCoeff(i: nat, e: nat)
    ensures Coeff(Generator(i + 1), e)
         == if e == 0 then Mul(Coeff(Generator(i), e), Root(i))
            else Add(Mul(Coeff(Generator(i), e), Root(i)), Coeff(Generator(i), e - 1))
  {
    hide Add, Mul;
    TimesLinearCoeff(Generator(i), Root(i), e);
    AddLaws(Mul(Coeff(Generator(i), e), Root(i)), 0, 0);
  }

  method ComputeRemainder(data: seq<bv8>, divisor: Poly) returns (result: Poly)
    requires |divisor| > 0
    ensures result == Remainder(data, divisor)
  {
    result := Zeros(|divisor|);
    for k := 0 to |data|
      invariant result == Remainder(data[..k], divisor)
    {
      hide Add, Mul;
      ghost var before := result;
      var factor := Add(data[k], result[0]);
      result := result[1..] + [0];
      for i := 0 to |result|
        invariant |result| == |divisor|
        invariant forall j :: 0 <= j < i ==> result[j] == DivisionStep(before, divisor, data[k])[j]
        invariant forall j :: i <= j < |result| ==> result[j] == (before[1..] + [0])[j]
      {
        var product := Multiply(divisor[i], factor);
        result := result[i := Add(result[i], product)];
      }
      assert result == DivisionStep(before, divisor, data[k]);
      assert data[..k + 1][..k] == data[..k];
    }
    assert data[..|data|] == data;
  }

  // ----- a codeword is the unique multiple of the generator that starts with the data

  /** The quotient digits that the division produces. */
  function Quotient(data: seq<bv8>, divisor: Poly): (q: Poly)
    requires |divisor| > 0
    ensures |q| == |data|
  {
    if data == [] then []
    else
      var n := |data| - 1;
      Quotient(data[..n], divisor) + [Add(data[n], Remainder(data[..n], divisor)[0])]
  }

  lemma {:induction false} RemainderDivides(data: seq<bv8>, divisor: Poly)
    requires |divisor| > 0
    ensures data + Remainder(data, divisor) == PolyMul(Quotient(data, divisor), [1] + divisor)
  {
    if data == [] {
    } else {
      hide Add, Mul, DivisionStep, AddPoly, Scale;
      var n := |data| - 1;
      var front, r, g := data[..n], Remainder(data[..n], divisor), [1] + divisor;
      var q, f := Quotient(front, divisor), Add(data[n], r[0]);
      RemainderDivides(front, divisor);
      assert (q + [f])[..n] == q;
      assert PolyMul(q + [f], g) == AddPoly(front + r + [0], Zeros(n) + Scale(g, f));
      DivisionStepIsProductStep(front, r, divisor, data[n]);
      assert front + [data[n]] == data;
    }
  }

  lemma DivisionStepIsProductStep(front: seq<bv8>, r: Poly, divisor: Poly, b: bv8)
    requires |r| == |divisor| > 0
    ensures var f := Add(b, r[0]);
            AddPoly(front + r + [0], Zeros(|front|) + Scale([1] + divisor, f))
            == front + [b] + DivisionStep(r, divisor, b)
  {
    hide Add, Mul;
    var f := Add(b, r[0]);
    var n := |front|;
    var lhs := AddPoly(front + r + [0], Zeros(n) + Scale([1] + divisor, f));
    var rhs := front + [b] + DivisionStep(r, divisor, b);
    forall i | 0 <= i < |lhs|
      ensures lhs[i] == rhs[i]
    {
      if i < n {
        AddLaws(front[i], 0, 0);
      } else if i == n {
        MulOne(f);
        CancelAdd(r[0], b);
      } else {
        assert lhs[i] == Add((r + [0])[i - n], Mul(divisor[i - n - 1], f));
        assert (r + [0])[i - n] == (r[1..] + [0])[i - n - 1];
      }
    }
  }

  lemma CancelAdd(a: bv8, b: bv8)
    ensures Add(a, Add(b, a)) == b
  {
    hide Add;
    AddLaws(a, b, a);
    AddLaws(b, a, a);
    AddLaws(a, a, b);
    AddLaws(b, 0, 0);
    AddLaws(b, a, 0);
    AddLaws(Add(b, a), a, 0);
  }

  /** Any check symbols that complete the data to a multiple of the generator are the remainder. */
  lemma {:induction false} RemainderIsUnique(data: seq<bv8>, check: Poly, q: Poly, divisor: Poly)
    requires |check| == |divisor| > 0 && |q| == |data|
    requires data + check == PolyMul(q, [1] + divisor)
    ensures check == Remainder(data, divisor)
  {
    if data == [] {
      assert check == data + check;
    } else {
      hide Add, Mul;
      var n := |data| - 1;
      var inner := PolyMul(q[..n], [1] + divisor);
      var front, r := data[..n], inner[n..];
      forall i | 0 <= i < n
        ensures inner[i] == data[i]
      {
        assert data[i] == (data + check)[i] == Add(inner[i], 0);
        AddLaws(inner[i], 0, 0);
      }
      assert inner == front + r;
      RemainderIsUnique(front, r, q[..n], divisor);
      assert data[n] == (data + check)[n] == Add(r[0], Mul(1, q[n]));
      MulOne(q[n]);
      CancelAdd(r[0], q[n]);
      AddLaws(r[0], q[n], 0);
      AddLaws(Add(r[0], q[n]), r[0], 0);
      DivisionStepIsProductStep(front, r, divisor, data[n]);
      assert check == (data + check)[n + 1..];
      assert front + [data[n]] + DivisionStep(r, divisor, data[n]) == data + check;
    }
  }

  // ----- evaluation respects the operations

  lemma EvalLast(p: Poly, c: bv8, x: bv8)
    ensures Eval(p + [c], x) == Add(Mul(Eval(p, x), x), c)
  {
    assert (p + [c])[..|p|] == p;
  }

  lemma {:induction false} EvalAdd(p: Poly, q: Poly, x: bv8)
    requires |p| == |q|
    ensures Eval(AddPoly(p, q), x) == Add(Eval(p, x), Eval(q, x))
  {
    hide Add, Mul;
    if p == [] {
      AddLaws(0, 0, 0);
    } else {
      var n := |p| - 1;
      EvalAdd(p[..n], q[..n], x);
      assert AddPoly(p, q)[..n] == AddPoly(p[..n], q[..n]);
      Distributes(x, Eval(p[..n], x), Eval(q[..n], x));
      AddSwap(Mul(Eval(p[..n], x), x), Mul(Eval(q[..n], x), x), p[n], q[n]);
    }
  }

  lemma {:induction false} EvalScale(p: Poly, c: bv8, x: bv8)
    ensures Eval(Scale(p, c), x) == Mul(Eval(p, x), c)
  {
    hide Add, Mul;
    if p == [] {
      MulZero(c);
    } else {
      var n := |p| - 1;
      var e := Eval(p[..n], x);
      EvalScale(p[..n], c, x);
      assert Scale(p, c)[..n] == Scale(p[..n], c);
      Distributes(c, Mul(e, x), p[n]);
      Associates(e, x, c);
      Associates(e, c, x);
      Commutes(x, c);
    }
  }

  lemma {:induction false} EvalLeadingZeros(n: nat, p: Poly, x: bv8)
    ensures Eval(Zeros(n) + p, x) == Eval(p, x)
  {
    hide Add, Mul;
    if p != [] {
      var m := |p| - 1;
      EvalLeadingZeros(n, p[..m], x);
      assert (Zeros(n) + p)[..n + m] == Zeros(n) + p[..m];
    } else if n > 0 {
      EvalLeadingZeros(n - 1, [], x);
      assert (Zeros(n) + p)[..n - 1] == Zeros(n - 1) + [];
      MulZero(x);
      AddLaws(0, 0, 0);
    } else {
      assert Zeros(0) + p == p;
    }
  }

  lemma {:induction false} EvalPolyMul(q: Poly, g: Poly, x: bv8)
    requires |g| > 0
    ensures Eval(PolyMul(q, g), x) == Mul(Eval(q, x), Eval(g, x))
  {
    hide Add, Mul;
    if q == [] {
      MulZero(Eval(g, x));
      EvalLeadingZeros(|g| - 1, [], x);
      assert Zeros(|g| - 1) + [] == Zeros(|g| - 1);
    } else {
      var n := |q| - 1;
      var e, h, c := Eval(q[..n], x), Eval(g, x), q[n];
      var inner := PolyMul(q[..n], g);
      EvalPolyMul(q[..n], g, x);
      EvalAdd(inner + [0], Zeros(n) + Scale(g, c), x);
      EvalLast(inner, 0, x);
      AddLaws(Mul(Mul(e, h), x), 0, 0);
      EvalLeadingZeros(n, Scale(g, c), x);
      EvalScale(g, c, x);
      Distributes(h, Mul(e, x), c);
      Commutes(h, c);
      Associates(e, h, x);
      Associates(e, x, h);
      Commutes(h, x);
    }
  }

  lemma EvalTimesLinear(p: Poly, r: bv8, x: bv8)
    ensures Eval(TimesLinear(p, r), x) == Mul(Eval(p, x), Add(x, r))
  {
    hide Add, Mul;
    EvalAdd(p + [0], [0] + Scale(p, r), x);
    EvalLast(p, 0, x);
    AddLaws(Mul(Eval(p, x), x), 0, 0);
    assert [0] + Scale(p, r) == Zeros(1) + Scale(p, r);
    EvalLeadingZeros(1, Scale(p, r), x);
    EvalScale(p, r, x);
    Distributes(Eval(p, x), x, r);
  }

  lemma {:induction false} GeneratorVanishes(n: nat, k: nat)
    requires k < n
    ensures Eval(Generator(n), Root(k)) == 0
  {
    hide Add, Mul;
    var g := Generator(n - 1);
    EvalTimesLinear(g, Root(n - 1), Root(k));
    if k == n - 1 {
      AddLaws(Root(k), Root(k), 0);
      MulZero(Eval(g, Root(k)));
    } else {
      GeneratorVanishes(n - 1, k);
      MulZero(Add(Root(k), Root(n - 1)));
    }
  }

  lemma {:induction false} GeneratorIsMonic(n: nat)
    ensures Generator(n)[0] == 1
  {
    if n > 0 {
      hide Add, Mul;
      GeneratorIsMonic(n - 1);
      AddLaws(1, 0, 0);
    }
  }

  function CheckSymbols(data: seq<bv8>, degree: nat): (check: Poly)
    requires degree > 0
    ensures |check| == degree
  {
    Remainder(data, Generator(degree)[1..])
  }

  /** Data followed by its check symbols vanishes at every root of the generator. */
  lemma CodewordVanishes(data: seq<bv8>, degree: nat, k: nat)
    requires k < degree
    ensures Eval(data + CheckSymbols(data, degree), Root(k)) == 0
  {
    hide Add, Mul;
    var g := Generator(degree);
    GeneratorIsMonic(degree);
    assert g == [1] + g[1..];
    RemainderDivides(data, g[1..]);
    EvalPolyMul(Quotient(data, g[1..]), g, Root(k));
    GeneratorVanishes(degree, k);
    MulZero(Eval(Quotient(data, g[1..]), Root(k)));
  }

  ghost predicate MultipleOf(word: Poly, g: Poly)
    requires |g| > 0
  {
    exists q: Poly :: |q| + |g| - 1 == |word| && PolyMul(q, g) == word
  }

  /** Among all check words of that length, exactly the computed one gives a multiple of the generator. */
  lemma CodewordIsTheMultiple(data: seq<bv8>, degree: nat, check: Poly)
    requires degree > 0 && |check| == degree
    ensures MultipleOf(data + check, Generator(degree)) <==> check == CheckSymbols(data, degree)
  {
    hide Generator, PolyMul, Remainder, Quotient;
    var g := Generator(degree);
    GeneratorIsMonic(degree);
    assert g == [1] + g[1..];
    RemainderDivides(data, g[1..]);
    if MultipleOf(data + check, g) {
      var q: Poly :| |q| + |g| - 1 == |data + check| && PolyMul(q, g) == data + check;
      RemainderIsUnique(data, check, q, g[1..]);
    }
  }
}
