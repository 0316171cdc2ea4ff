/** What the check symbols are for: a word that vanishes at the roots of the generator is a codeword. */
module ReedSolomonCode {
  import opened GaloisField
  import opened Orders
  import opened ReedSolomon

  // ----- the powers of 2 are the nonzero elements, each once in a period of 255

  lemma DoubleIsInjective(a: bv8, b: bv8)
    ensures Double(a) == Double(b) <==> a == b
  {
  }

  lemma TimesTwo(a: bv8)
    ensures Mul(a, 2) == Double(a)
  {
    Commutes(a, 2);
    assert Double(1) == 2;
    DoubleLeft(1, a);
    MulOne(a);
  }

  lemma {:induction false} RootAdd(i: nat, j: nat)
    ensures Root(i + j) == Mul(Root(i), Root(j))
  {
    hide Mul;
    if j == 0 {
      MulOne(Root(i));
    } else {
      RootAdd(i, j - 1);
      Associates(Root(i), Root(j - 1), 2);
    }
  }

  lemma {:induction false} RootIsNonzero(i: nat)
    ensures Root(i) != 0
  {
    hide Mul;
    if i > 0 {
      RootIsNonzero(i - 1);
      TimesTwo(Root(i - 1));
      DoubleIsInjective(Root(i - 1), 0);
      assert Double(0) == 0;
    }
  }

  /** Doubling can be undone, so powers repeat only in a period. */
  lemma {:induction false} RootCancels(i: nat, k: nat)
    requires Root(i + k) == Root(i)
    ensures Root(k) == 1
  {
    hide Mul;
    if i > 0 {
      TimesTwo(Root(i + k - 1));
      TimesTwo(Root(i - 1));
      DoubleIsInjective(Root(i + k - 1), Root(i - 1));
      RootCancels(i - 1, k);
    }
  }

  lemma {:induction false} Periods(m: nat, q: nat)
    requires Root(m) == 1
    ensures Root(m * q) == 1
  {
    hide Mul;
    if q > 0 {
      Periods(m, q - 1);
      assert m * q == m * (q - 1) + m;
      RootAdd(m * (q - 1), m);
      MulOne(1);
    }
  }

  predicate IsPeriod(m: nat) {
    m > 0 && Root(m) == 1
  }

  lemma {:induction false} LeastPeriod(k: nat) returns (m: nat)
    requires IsPeriod(k)
    ensures IsPeriod(m) && m <= k && forall i :: 0 < i < m ==> !IsPeriod(i)
  {
    if i :| 0 < i < k && IsPeriod(i) {
      m := LeastPeriod(i);
    } else {
      m := k;
    }
  }

  lemma OneMoreRoot(i: nat)
    ensures Root(i + 1) == Double(Root(i))
  {
    TimesTwo(Root(i));
  }

  lemma SmallRoots()
    ensures Root(1) == 2 && Root(3) == 8 && Root(5) == 0x20 && Root(7) == 0x80 && Root(8) == 0x1D
  {
    hide Mul, Root;
    OneMoreRoot(0);
    OneMoreRoot(1);
    OneMoreRoot(2);
    OneMoreRoot(3);
    OneMoreRoot(4);
    OneMoreRoot(5);
    OneMoreRoot(6);
    OneMoreRoot(7);
    RootZero();
  }

  lemma RootZero()
    ensures Root(0) == 1
  {
  }

  lemma Squares()
    ensures Mul(0x1D, 0x1D) == 0x4C && Mul(0x4C, 0x4C) == 0x9D && Mul(0x9D, 0x9D) == 0x5F
  {
  }

  lemma Products()
    ensures Mul(0x80, 0x1D) == 0x26 && Mul(0x4C, 2) == 0x98
    ensures Mul(0x9D, 0x4C) == 0x46 && Mul(0x46, 8) == 0x0A
  {
  }

  lemma MoreProducts()
    ensures Mul(0x5F, 0x4C) == 0xFD && Mul(0xFD, 0x20) == 0xD6
    ensures Mul(0xD6, 0xD6) == 0xD7 && Mul(0xD7, 0xD6) == 1
  {
  }

  lemma SomeRoots()
    ensures Root(15) == 0x26 && Root(17) == 0x98 && Root(51) == 0x0A && Root(85) == 0xD6 && Root(255) == 1
  {
    hide Mul, Root;
    SmallRoots();
    Squares();
    Products();
    MoreProducts();
    RootAdd(7, 8);
    RootAdd(8, 8);
    RootAdd(16, 16);
    RootAdd(32, 32);
    RootAdd(16, 1);
    RootAdd(32, 16);
    RootAdd(48, 3);
    RootAdd(64, 16);
    RootAdd(80, 5);
    RootAdd(85, 85);
    RootAdd(170, 85);
  }

  lemma DivisorsOf255(m: nat)
    requires 0 < m < 255 && 255 % m == 0
    ensures 15 % m == 0 || 51 % m == 0 || 85 % m == 0
  {
    if m <= 16 {
      assert m == 1 || m == 2 || m == 3 || m == 4 || m == 5 || m == 6 || m == 7 || m == 8
          || m == 9 || m == 10 || m == 11 || m == 12 || m == 13 || m == 14 || m == 15 || m == 16;
    } else {
      Cofactor(m, 255 / m);
    }
  }

  lemma Cofactor(m: nat, q: nat)
    requires 16 < m < 255 && m * q == 255
    ensures m == 17 || m == 51 || m == 85
  {
    assert q <= 15 by {
      if q > 15 {
        Product(m, q, 16, 16);
      }
    }
    assert q == 0 || q == 1 || q == 2 || q == 3 || q == 4 || q == 5 || q == 6 || q == 7 || q == 8 || q == 9 || q == 10
        || q == 11 || q == 12 || q == 13 || q == 14 || q == 15;
  }

  lemma Product(a: nat, b: nat, c: nat, d: nat)
    requires a >= c && b >= d
    ensures a * b >= c * d
  {
  }

  /** Every period of the powers is a multiple of the least one. */
  lemma LeastDivides(m: nat, k: nat)
    requires IsPeriod(m) && IsPeriod(k) && forall i :: 0 < i < m ==> !IsPeriod(i)
    ensures k % m == 0
  {
    hide Mul, Root;
    var q, r := k / m, k % m;
    assert k == m * q + r;
    Periods(m, q);
    RootAdd(m * q, r);
    MulOne(Root(r));
    assert !IsPeriod(r);
  }

  lemma MultipleIsPeriod(m: nat, d: nat)
    requires m > 0 && Root(m) == 1 && d % m == 0
    ensures Root(d) == 1
  {
    hide Root;
    Periods(m, d / m);
    assert m * (d / m) == d;
  }

  lemma RootIsNotOne(k: nat)
    requires 0 < k < 255
    ensures Root(k) != 1
  {
    hide Mul, Root;
    if Root(k) == 1 {
      var m := LeastPeriod(k);
      SomeRoots();
      LeastDivides(m, 255);
      DivisorsOf255(m);
      if 15 % m == 0 {
        MultipleIsPeriod(m, 15);
      } else if 51 % m == 0 {
        MultipleIsPeriod(m, 51);
      } else {
        MultipleIsPeriod(m, 85);
      }
    }
  }

  /** The 255 roots are different. */
  lemma RootsDiffer(i: nat, j: nat)
    requires i < 255 && j < 255 && i != j
    ensures Root(i) != Root(j)
  {
    hide Root;
    var low, high := if i < j then i else j, if i < j then j else i;
    if Root(low) == Root(high) {
      RootCancels(low, high - low);
      RootIsNotOne(high - low);
    }
  }

  function Values(n: nat): set<int> {
    set i | 0 <= i < n :: Root(i) as int
  }

  lemma OneMoreValue(n: nat)
    requires n < 255
    ensures Values(n + 1) == Values(n) + {Root(n) as int} && Root(n) as int !in Values(n)
  {
    hide Root;
    forall i: nat | i < n
      ensures Root(i) != Root(n)
    {
      RootsDiffer(i, n);
    }
  }

  lemma {:induction false} ValuesCount(n: nat)
    requires n <= 255
    ensures |Values(n)| == n
  {
    if n == 0 {
      assert Values(0) == {};
    } else {
      hide Root, Values;
      ValuesCount(n - 1);
      OneMoreValue(n - 1);
      OneMoreCounts(Values(n - 1), Root(n - 1) as int);
    }
  }

  lemma OneMoreCounts(some: set<int>, one: int)
    requires one !in some
    ensures |some + {one}| == |some| + 1
  {
  }

  function Naturals(n: nat): (r: set<int>)
    ensures forall v :: v in r <==> 1 <= v <= n
  {
    if n == 0 then {} else Naturals(n - 1) + {n}
  }

  lemma {:induction false} NaturalsCount(n: nat)
    ensures |Naturals(n)| == n
  {
    if n > 0 {
      NaturalsCount(n - 1);
      OneMoreCounts(Naturals(n - 1), n);
    }
  }

  lemma ValuesAreNatural(n: nat)
    ensures Values(n) <= Naturals(255)
  {
    hide Root, Naturals;
    forall v | v in Values(n)
      ensures v in Naturals(255)
    {
      var k :| 0 <= k < n && Root(k) as int == v;
      RootIsNonzero(k);
    }
  }

  /** Every nonzero element is one of the roots. */
  lemma NonzeroIsRoot(y: bv8) returns (i: nat)
    requires y != 0
    ensures i < 255 && Root(i) == y
  {
    hide Root, Naturals;
    assert Values(255) == Naturals(255) by {
      hide Values;
      ValuesCount(255);
      NaturalsCount(255);
      ValuesAreNatural(255);
      SameSize(Values(255), Naturals(255));
    }
    assert y as int in Naturals(255);
    i :| 0 <= i < 255 && Root(i) as int == y as int;
  }

  /** A product is zero only when a factor is. */
  lemma NoZeroDivisors(a: bv8, b: bv8)
    ensures Mul(a, b) == 0 <==> a == 0 || b == 0
  {
    hide Mul, Root;
    MulZero(a);
    MulZero(b);
    if a != 0 && b != 0 {
      var i := NonzeroIsRoot(a);
      var j := NonzeroIsRoot(b);
      RootAdd(i, j);
      RootIsNonzero(i + j);
    }
  }

  // ----- evaluation at a root, coefficient by coefficient

  /** The value of a word at root k, summed over its symbols: the one before m others is multiplied by root k to the m.
      */
  function Syndrome(e: Poly, k: nat): bv8 {
    if e == [] then 0 else Add(Mul(e[0], Root(k * (|e| - 1))), Syndrome(e[1..], k))
  }

  lemma {:induction false} SyndromeLast(e: Poly, c: bv8, k: nat)
    ensures Syndrome(e + [c], k) == Add(Mul(Syndrome(e, k), Root(k)), c)
  {
    hide Add, Mul, Root;
    var x := Root(k);
    if e == [] {
      MulZero(x);
      RootZero();
      MulOne(c);
      AddLaws(c, 0, 0);
      assert k * 0 == 0;
      assert ([] + [c])[1..] == [];
    } else {
      var a, m := e[0], |e| - 1;
      SyndromeLast(e[1..], c, k);
      assert (e + [c])[1..] == e[1..] + [c];
      assert k * (m + 1) == k * m + k;
      RootAdd(k * m, k);
      Associates(a, Root(k * m), x);
      Distributes(x, Mul(a, Root(k * m)), Syndrome(e[1..], k));
      AddLaws(Mul(Mul(a, Root(k * m)), x), Mul(Syndrome(e[1..], k), x), c);
    }
  }

  lemma {:induction false} SyndromeIsValue(e: Poly, k: nat)
    ensures Syndrome(e, k) == Eval(e, Root(k))
  {
    hide Add, Mul, Root;
    if e != [] {
      var n := |e| - 1;
      SyndromeIsValue(e[..n], k);
      SyndromeLast(e[..n], e[n], k);
      assert e[..n] + [e[n]] == e;
    }
  }

  // ----- the number of symbols that are not zero

  function Weight(e: Poly): (w: nat)
    ensures w <= |e|
  {
    if e == [] then 0 else (if e[0] != 0 then 1 else 0) + Weight(e[1..])
  }

  /** Every symbol times the difference of its root and r, which takes out the symbol at r. */
  function TakenOut(e: Poly, r: bv8): (t: Poly)
    ensures |t| == |e|
  {
    if e == [] then [] else [Mul(e[0], Add(Root(|e| - 1), r))] + TakenOut(e[1..], r)
  }

  lemma {:induction false} TakenOutSyndrome(e: Poly, r: bv8, k: nat)
    ensures Syndrome(TakenOut(e, r), k) == Add(Syndrome(e, k + 1), Mul(r, Syndrome(e, k)))
  {
    hide Add, Mul, Root;
    if e == [] {
      MulZero(r);
      AddLaws(0, 0, 0);
    } else {
      var a, m := e[0], |e| - 1;
      var x, y := Root(m), Root(k * m);
      TakenOutSyndrome(e[1..], r, k);
      assert TakenOut(e, r)[1..] == TakenOut(e[1..], r);
      assert (k + 1) * m == k * m + m;
      RootAdd(k * m, m);
      OneTerm(a, x, y, r);
      Distributes(r, Mul(a, y), Syndrome(e[1..], k));
      AddSwap(Mul(a, Mul(y, x)), Mul(r, Mul(a, y)), Syndrome(e[1..], k + 1), Mul(r, Syndrome(e[1..], k)));
    }
  }

  lemma OneTerm(a: bv8, x: bv8, y: bv8, r: bv8)
    ensures Mul(Mul(a, Add(x, r)), y) == Add(Mul(a, Mul(y, x)), Mul(r, Mul(a, y)))
  {
    hide Add, Mul;
    Distributes(a, x, r);
    Distributes(y, Mul(a, x), Mul(a, r));
    Associates(a, x, y);
    Commutes(x, y);
    Commutes(a, r);
    Associates(r, a, y);
  }

  lemma FactorIsNonzero(m: nat, j: nat)
    requires m < 255 && j < 255
    ensures Add(Root(m), Root(j)) == 0 <==> m == j
  {
    hide Root;
    if m != j {
      RootsDiffer(m, j);
    }
  }

  /** Only the symbol that stands at the root, if any does, is taken out. */
  lemma {:induction false} TakenOutWeight(e: Poly, j: nat)
    requires |e| <= 255 && j < 255
    ensures Weight(TakenOut(e, Root(j)))
         == if j < |e| && e[|e| - 1 - j] != 0 then Weight(e) - 1 else Weight(e)
  {
    hide Add, Mul, Root;
    if e != [] {
      var m := |e| - 1;
      TakenOutWeight(e[1..], j);
      assert TakenOut(e, Root(j))[1..] == TakenOut(e[1..], Root(j));
      FactorIsNonzero(m, j);
      NoZeroDivisors(e[0], Add(Root(m), Root(j)));
    }
  }

  lemma {:induction false} LightestWord(e: Poly)
    ensures Weight(e) == 0 ==> Syndrome(e, 0) == 0
    ensures Weight(e) == 1 ==> Syndrome(e, 0) != 0
  {
    hide Add, Mul, Root;
    if e != [] {
      LightestWord(e[1..]);
      assert 0 * (|e| - 1) == 0;
      RootZero();
      MulOne(e[0]);
      AddLaws(e[0], Syndrome(e[1..], 0), 0);
      AddLaws(Syndrome(e[1..], 0), 0, 0);
      AddLaws(e[0], 0, 0);
    }
  }

  lemma {:induction false} SomeSymbol(e: Poly) returns (j: nat)
    requires Weight(e) > 0
    ensures j < |e| && e[|e| - 1 - j] != 0
  {
    if e[0] != 0 {
      j := |e| - 1;
    } else {
      j := SomeSymbol(e[1..]);
    }
  }

  /** A word of at most 255 symbols that vanishes at n roots has more than n symbols, or none. */
  lemma {:induction false} LightWordIsZero(e: Poly, n: nat)
    requires |e| <= 255 && Weight(e) <= n && forall k: nat :: k < n ==> Syndrome(e, k) == 0
    ensures Weight(e) == 0
    decreases n
  {
    hide Syndrome, TakenOut, Weight, Root, Mul, Add;
    if Weight(e) > 0 {
      var j := SomeSymbol(e);
      var t := TakenOut(e, Root(j));
      TakenOutWeight(e, j);
      forall k: nat | k < n - 1
        ensures Syndrome(t, k) == 0
      {
        TakenOutSyndrome(e, Root(j), k);
        MulZero(Root(j));
        AddLaws(0, 0, 0);
      }
      LightWordIsZero(t, n - 1);
      LightestWord(e);
    }
  }

  // ----- the main results

  /** A word that is zero at the first roots, as many as there are check symbols. */
  predicate Vanishes(word: Poly, degree: nat) {
    forall k: nat :: k < degree ==> Eval(word, Root(k)) == 0
  }

  /** The number of places where two words differ. */
  function Differences(a: Poly, b: Poly): (n: nat)
    requires |a| == |b|
    ensures n <= |a|
  {
    if a == [] then 0 else (if a[0] != b[0] then 1 else 0) + Differences(a[1..], b[1..])
  }

  lemma {:induction false} NoWeightNoDifference(a: Poly, b: Poly)
    requires |a| == |b|
    ensures Weight(AddPoly(a, b)) == Differences(a, b)
    ensures Differences(a, b) == 0 <==> a == b
  {
    if a != [] {
      hide Add;
      NoWeightNoDifference(a[1..], b[1..]);
      assert AddPoly(a, b)[1..] == AddPoly(a[1..], b[1..]);
      AddLaws(a[0], b[0], 0);
      assert a == [a[0]] + a[1..] && b == [b[0]] + b[1..];
    }
  }

  /** Two different words that vanish at the first roots differ in more places than these are. */
  lemma VanishingWordsDiffer(a: Poly, b: Poly, degree: nat)
    requires |a| == |b| <= 255 && a != b && Vanishes(a, degree) && Vanishes(b, degree)
    ensures Differences(a, b) > degree
  {
    hide Add, Mul, Root, Eval, Syndrome, Weight, AddPoly, Differences;
    var e := AddPoly(a, b);
    NoWeightNoDifference(a, b);
    if Weight(e) <= degree {
      forall k: nat | k < degree
        ensures Syndrome(e, k) == 0
      {
        SyndromeIsValue(e, k);
        EvalAdd(a, b, Root(k));
        AddLaws(0, 0, 0);
      }
      LightWordIsZero(e, degree);
    }
  }

  /** The check symbols are the only ones with which the data vanishes at all roots of the generator, for every degree
      that the encoder accepts. */
  lemma VanishingIsTheCodeword(data: seq<bv8>, degree: nat, check: Poly)
    requires 0 < degree <= 255 && |check| == degree
    ensures Vanishes(data + check, degree) <==> check == CheckSymbols(data, degree)
  {
    hide Add, Mul, Root, Eval, AddPoly, Differences, CheckSymbols;
    var right := CheckSymbols(data, degree);
    forall k: nat | k < degree
      ensures Eval(data + right, Root(k)) == 0
    {
      CodewordVanishes(data, degree, k);
    }
    if Vanishes(data + check, degree) {
      var e := AddPoly(check, right);
      forall k: nat | k < degree
        ensures Syndrome(e, k) == 0
      {
        TailsVanish(data, check, right, Root(k));
        SyndromeIsValue(e, k);
      }
      LightWordIsZero(e, degree);
      NoWeightNoDifference(check, right);
    }
  }

  lemma TailsVanish(data: seq<bv8>, a: Poly, b: Poly, x: bv8)
    requires |a| == |b| && Eval(data + a, x) == 0 && Eval(data + b, x) == 0
    ensures Eval(AddPoly(a, b), x) == 0
  {
    hide Mul, Eval;
    EvalAdd(data + a, data + b, x);
    AddLaws(0, 0, 0);
    assert AddPoly(data + a, data + b) == Zeros(|data|) + AddPoly(a, b);
    EvalLeadingZeros(|data|, AddPoly(a, b), x);
  }

  lemma {:induction false} Triangle(a: Poly, b: Poly, c: Poly)
    requires |a| == |b| == |c|
    ensures Differences(a, c) <= Differences(b, a) + Differences(b, c)
  {
    if a != [] {
      Triangle(a[1..], b[1..], c[1..]);
    }
  }

  /** With up to half as many wrong symbols as there are check symbols, a received block is near to one codeword only:
      the data that was sent can be told. */
  lemma OneCodewordIsNear(received: Poly, a: seq<bv8>, b: seq<bv8>, degree: nat)
    requires 0 < degree && |a| == |b| && |received| == |a| + degree <= 255
    requires 2 * Differences(received, a + CheckSymbols(a, degree)) <= degree
    requires 2 * Differences(received, b + CheckSymbols(b, degree)) <= degree
    ensures a == b
  {
    hide Root, Eval, Differences, CheckSymbols;
    var x, y := a + CheckSymbols(a, degree), b + CheckSymbols(b, degree);
    if x != y {
      VanishingIsTheCodeword(a, degree, CheckSymbols(a, degree));
      VanishingIsTheCodeword(b, degree, CheckSymbols(b, degree));
      VanishingWordsDiffer(x, y, degree);
      Triangle(x, received, y);
    }
    assert a == x[..|a|] && b == y[..|b|];
  }
}
