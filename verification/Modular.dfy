/** Congruence of integers modulo a prime, up to Fermat's little theorem.

    Everything the cryptographic modules prove about values reduced "mod the
    group order" is proved here over plain integers first: `Cong` is stated with
    a witness instead of `%`, so that proofs about sums and products of
    polynomials are ordinary ring reasoning. */
module Modular {
  import opened Sets


  /** `d` is `k` times `q`. A named relation, so that quantifiers over the
      cofactor have something to hang on. */
  ghost predicate IsMultiple(q: int, d: int, k: int) {
    d == q * k
  }

  ghost predicate Divides(q: int, d: int) {
    exists k: int :: IsMultiple(q, d, k)
  }

  /** a and b leave the same remainder modulo q. */
  ghost predicate Cong(q: int, a: int, b: int) {
    Divides(q, a - b)
  }

  ghost predicate Prime(q: int) {
    2 <= q && forall d: int :: 1 <= d && Divides(d, q) ==> d == 1 || d == q
  }

  // ----- congruence is an equivalence that respects ring operations

  lemma CongWitness(q: int, a: int, b: int, k: int)
    requires a - b == q * k
    ensures Cong(q, a, b)
  {
    assert IsMultiple(q, a - b, k);
  }

  lemma CongRefl(q: int, a: int)
    ensures Cong(q, a, a)
  {
    CongWitness(q, a, a, 0);
  }

  lemma CongSym(q: int, a: int, b: int)
    requires Cong(q, a, b)
    ensures Cong(q, b, a)
  {
    var k :| IsMultiple(q, a - b, k);
    assert q * (-k) == -(q * k);
    CongWitness(q, b, a, -k);
  }

  lemma CongTrans(q: int, a: int, b: int, c: int)
    requires Cong(q, a, b) && Cong(q, b, c)
    ensures Cong(q, a, c)
  {
    CongAdd(q, a, b, b, c);
    var k :| IsMultiple(q, (a + b) - (b + c), k);
    CongWitness(q, a, c, k);
  }

  lemma CongAdd(q: int, a: int, a': int, b: int, b': int)
    requires Cong(q, a, a') && Cong(q, b, b')
    ensures Cong(q, a + b, a' + b')
  {
    var k :| IsMultiple(q, a - a', k);
    var l :| IsMultiple(q, b - b', l);
    assert q * (k + l) == q * k + q * l;
    CongWitness(q, a + b, a' + b', k + l);
  }

  lemma CongScale(q: int, a: int, a': int, c: int)
    requires Cong(q, a, a')
    ensures Cong(q, a * c, a' * c)
    ensures Cong(q, c * a, c * a')
  {
    var k :| IsMultiple(q, a - a', k);
    assert (q * k) * c == q * (k * c);
    assert (a - a') * c == a * c - a' * c;
    CongWitness(q, a * c, a' * c, k * c);
  }

  lemma CongSub(q: int, a: int, a': int, b: int, b': int)
    requires Cong(q, a, a') && Cong(q, b, b')
    ensures Cong(q, a - b, a' - b')
  {
    CongScale(q, b, b', -1);
    CongAdd(q, a, a', -b, -b');
  }

  lemma CongMul(q: int, a: int, a': int, b: int, b': int)
    requires Cong(q, a, a') && Cong(q, b, b')
    ensures Cong(q, a * b, a' * b')
  {
    CongScale(q, a, a', b);
    CongScale(q, b, b', a');
    CongTrans(q, a * b, a' * b, a' * b');
  }

  // ----- congruence and the remainder operator

  lemma CongMod(q: int, a: int)
    requires q > 0
    ensures Cong(q, a % q, a) && Cong(q, a, a % q)
  {
    assert a == q * (a / q) + a % q;
    CongWitness(q, a, a % q, a / q);
    CongSym(q, a, a % q);
  }

  lemma MultipleGrows(q: int, k: int)
    requires q > 0
    ensures k >= 1 ==> q * k >= q
  {
  }

  lemma SmallMultipleIsZero(q: int, d: int)
    requires q > 0 && -q < d < q
    requires Divides(q, d)
    ensures d == 0
  {
    var k :| IsMultiple(q, d, k);
    MultipleGrows(q, k);
    MultipleGrows(q, -k);
    assert q * (-k) == -(q * k);
  }

  lemma CongUnique(q: int, a: int, b: int)
    requires 0 <= a < q && 0 <= b < q && Cong(q, a, b)
    ensures a == b
  {
    SmallMultipleIsZero(q, a - b);
  }

  /** Congruence is exactly equality of remainders. */
  lemma CongIffMod(q: int, a: int, b: int)
    requires q > 0
    ensures Cong(q, a, b) <==> a % q == b % q
  {
    CongMod(q, a);
    CongMod(q, b);
    if Cong(q, a, b) {
      CongTrans(q, a % q, a, b);
      CongTrans(q, a % q, b, b % q);
      CongUnique(q, a % q, b % q);
    }
    if a % q == b % q {
      CongTrans(q, a, a % q, b);
    }
  }

  /** The form in which loops that reduce at every step use the lemma above. */
  lemma ModOfCong(q: int, a: int, b: int)
    requires q > 0 && Cong(q, a, b)
    ensures a % q == b % q
  {
    CongIffMod(q, a, b);
  }

  lemma ReducedIsMod(q: int, a: int, b: int)
    requires 0 <= a < q && Cong(q, a, b)
    ensures a == b % q
  {
    ModOfCong(q, a, b);
  }

  // ----- Euclid's lemma

  /** A factor strictly between 0 and the prime can be cancelled. */
  lemma {:induction false} CancelFactor(q: int, a: int, b: int)
    requires Prime(q) && 0 < a < q && Cong(q, a * b, 0)
    ensures Cong(q, b, 0)
    decreases a
  {
    if a > 1 {
      var r, m := q % a, q / a;
      assert q == a * m + r;
      if r == 0 {
        assert IsMultiple(a, q, m);
        assert Divides(a, q);
        assert false;
      }
      calc {
        r * b;
        (q - a * m) * b;
        b * q - m * (a * b);
      }
      CongWitness(q, b * q, 0, b);
      CongScale(q, a * b, 0, m);
      CongSub(q, b * q, 0, m * (a * b), 0);
      CancelFactor(q, r, b);
    }
  }

  lemma Cancel(q: int, c: int, a: int, b: int)
    requires Prime(q) && !Cong(q, c, 0) && Cong(q, c * a, c * b)
    ensures Cong(q, a, b)
  {
    var r := c % q;
    CongMod(q, c);
    if r == 0 {
      assert false;
    }
    CongSub(q, c * a, c * b, c * b, c * b) by { CongRefl(q, c * b); }
    assert c * a - c * b == c * (a - b);
    CongScale(q, r, c, a - b);
    CongTrans(q, r * (a - b), c * (a - b), 0);
    CancelFactor(q, r, a - b);
    var k :| IsMultiple(q, a - b - 0, k);
    CongWitness(q, a, b, k);
  }

  // ----- powers

  function Pow(x: int, n: nat): int {
    if n == 0 then 1 else x * Pow(x, n - 1)
  }

  lemma {:induction false} PowCong(q: int, x: int, y: int, n: nat)
    requires Cong(q, x, y)
    ensures Cong(q, Pow(x, n), Pow(y, n))
  {
    if n == 0 {
      CongRefl(q, 1);
    } else {
      PowCong(q, x, y, n - 1);
      CongMul(q, x, y, Pow(x, n - 1), Pow(y, n - 1));
    }
  }

  // ----- Fermat's little theorem: multiplying by x permutes 1..q-1

  ghost function Product(s: set<int>): int {
    if s == {} then 1 else var x := Pick(s); x * Product(s - {x})
  }

  lemma {:induction false} ProductRemove(s: set<int>, y: int)
    requires y in s
    ensures Product(s) == y * Product(s - {y})
    decreases s
  {
    var x := Pick(s);
    if x != y {
      ProductRemove(s - {x}, y);
      ProductRemove(s - {y}, x);
      assert s - {x} - {y} == s - {y} - {x};
      calc {
        Product(s);
        x * (y * Product(s - {x} - {y}));
        y * (x * Product(s - {y} - {x}));
        y * Product(s - {y});
      }
    }
  }

  predicate IsResidue(q: int, x: int) {
    1 <= x < q
  }

  ghost function Residues(q: int): (s: set<int>)
    ensures forall x :: x in s <==> 1 <= x < q
  {
    set x: int | 1 <= x < q && IsResidue(q, x)
  }

  lemma {:induction false} ResiduesSize(q: int)
    requires q >= 1
    ensures |Residues(q)| == q - 1
  {
    if q > 1 {
      ResiduesSize(q - 1);
      assert Residues(q) == Residues(q - 1) + {q - 1};
    } else {
      assert Residues(q) == {};
    }
  }

  function Times(q: int, a: int, x: int): int
    requires q > 0
  {
    (a * x) % q
  }

  ghost function Scaled(q: int, a: int, s: set<int>): set<int>
    requires q > 0
  {
    set x | x in s :: Times(q, a, x)
  }

  lemma ScaledInjective(q: int, a: int, x: int, y: int)
    requires Prime(q) && !Cong(q, a, 0)
    requires 1 <= x < q && 1 <= y < q && Times(q, a, x) == Times(q, a, y)
    ensures x == y
  {
    CongIffMod(q, a * x, a * y);
    Cancel(q, a, x, y);
    CongUnique(q, x, y);
  }

  lemma ScaledNonzero(q: int, a: int, x: int)
    requires Prime(q) && !Cong(q, a, 0) && 1 <= x < q
    ensures 1 <= Times(q, a, x) < q
  {
    if Times(q, a, x) == 0 {
      CongMod(q, a * x);
      assert a * 0 == 0;
      Cancel(q, a, x, 0);
      CongUnique(q, x, 0);
    }
  }

  lemma {:induction false} ScaledRemove(q: int, a: int, s: set<int>, y: int)
    requires Prime(q) && !Cong(q, a, 0) && s <= Residues(q) && y in s
    ensures Times(q, a, y) !in Scaled(q, a, s - {y})
    ensures Scaled(q, a, s) == Scaled(q, a, s - {y}) + {Times(q, a, y)}
  {
    forall x | x in s - {y}
      ensures Times(q, a, x) != Times(q, a, y)
    {
      if Times(q, a, x) == Times(q, a, y) { ScaledInjective(q, a, x, y); }
    }
  }

  lemma {:induction false} ScaledProductStep(q: int, a: int, y: int, n: nat, p: int, p': int)
    requires q > 0 && Cong(q, p', Pow(a, n) * p)
    ensures Cong(q, Times(q, a, y) * p', Pow(a, n + 1) * (y * p))
  {
    CongMod(q, a * y);
    CongMul(q, Times(q, a, y), a * y, p', Pow(a, n) * p);
    assert (a * y) * (Pow(a, n) * p) == (a * Pow(a, n)) * (y * p);
  }

  lemma {:induction false} ScaledProduct(q: int, a: int, s: set<int>)
    requires Prime(q) && !Cong(q, a, 0) && s <= Residues(q)
    ensures |Scaled(q, a, s)| == |s|
    ensures Cong(q, Product(Scaled(q, a, s)), Pow(a, |s|) * Product(s))
    decreases s
  {
    if s == {} {
      assert Scaled(q, a, s) == {};
      CongRefl(q, 1);
    } else {
      var y := Pick(s);
      var z := Times(q, a, y);
      var t, t' := Scaled(q, a, s), Scaled(q, a, s - {y});
      ScaledProduct(q, a, s - {y});
      ScaledRemove(q, a, s, y);
      assert t - {z} == t';
      ProductRemove(t, z);
      ScaledProductStep(q, a, y, |s - {y}|, Product(s - {y}), Product(t'));
    }
  }

  lemma {:induction false} ProductNonzero(q: int, s: set<int>)
    requires Prime(q) && s <= Residues(q)
    ensures !Cong(q, Product(s), 0)
    decreases s
  {
    if s == {} {
      if Cong(q, 1, 0) { CongUnique(q, 1, 0); }
    } else {
      var x := Pick(s);
      ProductNonzero(q, s - {x});
      if Cong(q, Product(s), 0) {
        CancelFactor(q, x, Product(s - {x}));
      }
    }
  }

  lemma SubsetOfSameSize<T>(a: set<T>, b: set<T>)
    requires a <= b && |a| == |b|
    ensures a == b
  {
    assert b == a + (b - a);
    assert |b| == |a| + |b - a|;
  }

  lemma {:induction false} ScaledResidues(q: int, x: int)
    requires Prime(q) && !Cong(q, x, 0)
    ensures Scaled(q, x, Residues(q)) == Residues(q)
  {
    var s := Residues(q);
    ScaledProduct(q, x, s);
    forall z | z in Scaled(q, x, s)
      ensures z in s
    {
      var y :| y in s && z == Times(q, x, y);
      ScaledNonzero(q, x, y);
    }
    SubsetOfSameSize(Scaled(q, x, s), s);
  }

  lemma FermatCancel(q: int, p: int, w: int)
    requires Prime(q) && !Cong(q, p, 0) && Cong(q, p, w * p)
    ensures Cong(q, w, 1)
  {
    assert w * p == p * w && p * 1 == p;
    CongSym(q, p, p * w);
    Cancel(q, p, w, 1);
  }

  /** Fermat's little theorem, in the form `invert` relies on. */
  lemma {:induction false} Fermat(q: int, x: int)
    requires Prime(q) && !Cong(q, x, 0)
    ensures Cong(q, Pow(x, q - 1), 1)
  {
    var s := Residues(q);
    ResiduesSize(q);
    ScaledResidues(q, x);
    FermatForPermutedSet(q, x, s, q - 1);
  }

  lemma {:induction false} FermatForPermutedSet(q: int, x: int, s: set<int>, n: nat)
    requires Prime(q) && !Cong(q, x, 0)
    requires s <= Residues(q) && |s| == n && Scaled(q, x, s) == s
    ensures Cong(q, Pow(x, n), 1)
  {
    ScaledProduct(q, x, s);
    ProductNonzero(q, s);
    FermatCancel(q, Product(s), Pow(x, n));
  }
}
