/** The Adder cryptosystem's arithmetic. The subgroup of order q of Z_p^*
    generated by g is cyclic, so each of its elements is written as its
    discrete logarithm in [0, q): multiplying elements adds logarithms,
    raising to a power multiplies them, and the identity is 0. Exponents
    (AdderInteger values) live in Z_q. This keeps every algebraic identity
    the proofs rely on while leaving the concrete modular exponentiation out. */
module Group {

  type Modulus = n: int | n > 0 witness 1

  /** The product of two elements. */
  function Mul(q: Modulus, a: int, b: int): (r: int)
    ensures 0 <= r < q
  {
    (a + b) % q
  }

  /** The quotient a / b of two elements. */
  function Div(q: Modulus, a: int, b: int): (r: int)
    ensures 0 <= r < q
  {
    (a - b) % q
  }

  /** a raised to the exponent e. */
  function Pow(q: Modulus, a: int, e: int): (r: int)
    ensures 0 <= r < q
  {
    (a * e) % q
  }

  /** The additive inverse of an exponent in Z_q (AdderInteger.negate). */
  function Neg(q: Modulus, e: int): (r: int)
    ensures 0 <= r < q
  {
    (-e) % q
  }

  /** The sum of exponents, reduced into Z_q. */
  function AddExp(q: Modulus, a: int, b: int): (r: int)
    ensures 0 <= r < q
  {
    (a + b) % q
  }

  /** The difference of exponents, reduced into Z_q (AdderInteger.subtract). */
  function SubExp(q: Modulus, a: int, b: int): (r: int)
    ensures 0 <= r < q
  {
    (a - b) % q
  }

  /** The product of exponents, reduced into Z_q. */
  function MulExp(q: Modulus, a: int, b: int): (r: int)
    ensures 0 <= r < q
  {
    (a * b) % q
  }

  /** The identity element (1 in Z_p^*). */
  const One: int := 0

  /** An Adder public key: p = 2q + 1, generator g, h = g^x for the private
      key x, and the message base f. */
  datatype PublicKey = PublicKey(p: int, q: Modulus, g: int, h: int, f: int)

  /** An ElGamal ciphertext (G, H) = (g^r, h^r * f^m) with the randomness r
      carried along, as ElgamalCiphertext does. */
  datatype Ciphertext = Ciphertext(G: int, H: int, r: int)

  /** Encryption of message m with randomness r. */
  function Encrypt(k: PublicKey, m: int, r: int): Ciphertext {
    Ciphertext(Pow(k.q, k.g, r), Mul(k.q, Pow(k.q, k.h, r), Pow(k.q, k.f, m)), r % k.q)
  }

  /** Whoever knows r recovers f^m from an encryption: H / h^r == f^m, and
      G == g^r identifies r. */
  lemma EncryptOpens(k: PublicKey, m: int, r: int)
    ensures Encrypt(k, m, r).G == Pow(k.q, k.g, r)
    ensures Div(k.q, Encrypt(k, m, r).H, Pow(k.q, k.h, r)) == Pow(k.q, k.f, m)
  {
    SubAdd(k.q, Pow(k.q, k.h, r), Pow(k.q, k.f, m));
    ModOfMod(k.f * m, k.q);
  }

  /** The component-wise product of two ciphertexts, randomness added. */
  function CMul(q: Modulus, a: Ciphertext, b: Ciphertext): Ciphertext {
    Ciphertext(Mul(q, a.G, b.G), Mul(q, a.H, b.H), AddExp(q, a.r, b.r))
  }

  // ---- Modular arithmetic ----------------------------------------------

  /** Euclidean division is unique. */
  lemma DivModUnique(a: int, q: Modulus, d: int, m: int)
    requires a == q * d + m && 0 <= m < q
    ensures a / q == d && a % q == m
  {
    var x := a / q - d;
    assert q * x == m - a % q;
    if x >= 1 {
      MulAtLeast(q, x);
      assert false;
    }
    if x <= -1 {
      MulAtLeast(q, -x);
      assert false;
    }
  }

  lemma MulAtLeast(q: Modulus, x: int)
    requires x >= 1
    ensures q * x >= q
  {
  }

  lemma ModAddMultiple(x: int, k: int, q: Modulus)
    ensures (x + q * k) % q == x % q
  {
    var d := x / q;
    assert x + q * k == q * (d + k) + x % q;
    DivModUnique(x + q * k, q, d + k, x % q);
  }

  lemma ModOfMod(x: int, q: Modulus)
    ensures (x % q) % q == x % q
  {
    DivModUnique(x % q, q, 0, x % q);
  }

  /** Reducing an addend first does not change a sum modulo q. */
  lemma ModAddLeft(a: int, b: int, q: Modulus)
    ensures ((a % q) + b) % q == (a + b) % q
  {
    assert a + b == (a % q) + b + q * (a / q);
    ModAddMultiple((a % q) + b, a / q, q);
  }

  lemma ModAddRight(a: int, b: int, q: Modulus)
    ensures (a + (b % q)) % q == (a + b) % q
  {
    ModAddLeft(b, a, q);
  }

  /** Reducing a factor first does not change a product modulo q. */
  lemma ModMulLeft(a: int, b: int, q: Modulus)
    ensures ((a % q) * b) % q == (a * b) % q
  {
    var d := a / q;
    assert a * b == (a % q) * b + q * (d * b) by {
      assert a == (a % q) + q * d;
    }
    ModAddMultiple((a % q) * b, d * b, q);
  }

  lemma ModMulRight(a: int, b: int, q: Modulus)
    ensures (a * (b % q)) % q == (a * b) % q
  {
    ModMulLeft(b, a, q);
  }

  lemma ModSubRight(a: int, b: int, q: Modulus)
    ensures (a - (b % q)) % q == (a - b) % q
  {
    ModAddRight(a, -b, q);
    assert -(b % q) == (-b) % q - q * (if b % q == 0 then 0 else 1) by {
      DivModUnique(-b, q, -(b / q) - (if b % q == 0 then 0 else 1), if b % q == 0 then 0 else q - b % q);
    }
    ModAddMultiple(a + (-b) % q, -(if b % q == 0 then 0 else 1), q);
  }

  lemma ModSubLeft(a: int, b: int, q: Modulus)
    ensures ((a % q) - b) % q == (a - b) % q
  {
    ModAddLeft(a, -b, q);
  }

  /** Dividing a product by one factor leaves the other. */
  lemma SubAdd(q: Modulus, a: int, b: int)
    ensures Div(q, Mul(q, a, b), a) == b % q
  {
    ModSubLeft(a + b, a, q);
  }

  /** The homomorphism that Adder's tallying rests on: multiplying two
      encryptions gives an encryption of the sum under the summed randomness. */
  lemma EncryptHomomorphic(k: PublicKey, m1: int, r1: int, m2: int, r2: int)
    ensures CMul(k.q, Encrypt(k, m1, r1), Encrypt(k, m2, r2)) == Encrypt(k, m1 + m2, r1 + r2)
  {
    var q := k.q;
    var a, b, c := Encrypt(k, m1, r1), Encrypt(k, m2, r2), Encrypt(k, m1 + m2, r1 + r2);
    assert Mul(q, a.G, b.G) == c.G by {
      ScaledSum(k.g, r1, r2, q);
    }
    assert Mul(q, a.H, b.H) == c.H by {
      var x1, y1 := (k.h * r1) % q, (k.f * m1) % q;
      var x2, y2 := (k.h * r2) % q, (k.f * m2) % q;
      assert a.H == (x1 + y1) % q && b.H == (x2 + y2) % q;
      SumsRegroup(x1 + y1, x2 + y2, x1 + x2, y1 + y2, q);
      ScaledSum(k.h, r1, r2, q);
      ScaledSum(k.f, m1, m2, q);
    }
    assert AddExp(q, a.r, b.r) == c.r by {
      ModAddLeft(r1, r2 % q, q);
      ModAddRight(r1, r2, q);
    }
  }

  /** Adding two multiples of x modulo q is multiplying x by the sum. */
  lemma ScaledSum(x: int, a: int, b: int, q: Modulus)
    ensures ((x * a) % q + (x * b) % q) % q == (x * (a + b)) % q
  {
    ModAddLeft(x * a, (x * b) % q, q);
    ModAddRight(x * a, x * b, q);
    assert x * a + x * b == x * (a + b);
  }

  /** Two pairs with the same total have the same sum of residues. */
  lemma SumsRegroup(u: int, v: int, w: int, z: int, q: Modulus)
    requires u + v == w + z
    ensures (u % q + v % q) % q == (w % q + z % q) % q
  {
    SumOfResidues(u, v, q);
    SumOfResidues(w, z, q);
  }

  /** Adding residues and reducing is reducing the sum. */
  lemma SumOfResidues(x: int, y: int, q: Modulus)
    ensures (x % q + y % q) % q == (x + y) % q
  {
    ModAddLeft(x, y % q, q);
    ModAddRight(x, y, q);
  }

  /** Congruence modulo q is kept by sums, differences, products and negation. */
  lemma CongAdd(a: int, b: int, a2: int, b2: int, q: Modulus)
    requires a % q == a2 % q && b % q == b2 % q
    ensures (a + b) % q == (a2 + b2) % q
  {
    ModAddLeft(a, b, q); ModAddRight(a % q, b, q);
    ModAddLeft(a2, b2, q); ModAddRight(a2 % q, b2, q);
  }

  lemma CongMul(a: int, b: int, a2: int, b2: int, q: Modulus)
    requires a % q == a2 % q && b % q == b2 % q
    ensures (a * b) % q == (a2 * b2) % q
  {
    ModMulLeft(a, b, q); ModMulRight(a % q, b, q);
    ModMulLeft(a2, b2, q); ModMulRight(a2 % q, b2, q);
  }

  lemma CongNeg(a: int, a2: int, q: Modulus)
    requires a % q == a2 % q
    ensures (-a) % q == (-a2) % q
  {
    ModSubRight(0, a, q);
    ModSubRight(0, a2, q);
  }

  lemma CongMod(x: int, q: Modulus)
    ensures (x % q) % q == x % q
  {
    ModOfMod(x, q);
  }
}
