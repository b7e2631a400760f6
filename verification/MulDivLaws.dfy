/** What the multiply and divide instructions promise, for words of any even size, so for the
    64-bit forms and for the 32-bit W forms alike. */
module MulDivLaws {
  import opened Words
  import opened Alu

  predicate WordSize(m: nat) {
    m >= 2 && m % 2 == 0
  }

  // MULHU and MUL together are the exact double-width product.
  lemma ProductExact(a: nat, b: nat, m: nat)
    requires WordSize(m) && a < m && b < m
    ensures MulDiv(MulHU, a, b, m).value * m + MulDiv(Mul, a, b, m).value == a * b
  {
    assert a * b == m * (a * b / m) + a * b % m;
  }

  lemma WrapSigned(x: int, m: nat)
    requires WordSize(m) && 0 <= 2 * x + m < 2 * m
    ensures Signed(Wrap(x, m), m) == x
  {
    if x < 0 {
      ModUnique(x, m, -1, x + m);
    } else {
      ModUnique(x, m, 0, x);
    }
  }

  lemma SignedRange(a: nat, m: nat)
    requires WordSize(m) && a < m
    ensures 0 <= 2 * Signed(a, m) + m < 2 * m
  {
  }

  lemma AbsDivision(a: nat, b: nat)
    requires b > 0
    ensures a == b * (a / b) + a % b
    ensures a / b <= a
    ensures b >= 2 ==> 2 * (a / b) <= a
  {
    var q := a / b;
    DivUBelow(a, b);
    if b >= 2 {
      MulMono(2, b, q);
    }
  }

  lemma NegateProducts(q: int, y: int)
    ensures q * y == y * q && (-q) * y == -(q * y) && q * (-y) == -(q * y) && (-q) * (-y) == q * y
  {
  }

  // The quotient and the remainder are those of the magnitudes, with signs.
  lemma Signs(a: int, b: int, q: int, r: int)
    requires b != 0 && q == Abs(a) / Abs(b) && r == Abs(a) % Abs(b)
    ensures DivT(a, b) == if (a < 0) == (b < 0) then q else -q
    ensures RemT(a, b) == if a < 0 then -r else r
  {
  }

  lemma Magnitudes(a: int, b: int) returns (q: int, r: int)
    requires b != 0
    ensures 0 <= r < Abs(b) && 0 <= q <= Abs(a) && Abs(a) == Abs(b) * q + r
    ensures Abs(b) >= 2 ==> 2 * q <= Abs(a)
    ensures DivT(a, b) == if (a < 0) == (b < 0) then q else -q
    ensures RemT(a, b) == if a < 0 then -r else r
  {
    hide DivT, RemT;
    q, r := NatDivision(Abs(a), Abs(b));
    Signs(a, b, q, r);
  }

  lemma NatDivision(a: nat, b: nat) returns (q: nat, r: nat)
    requires b > 0
    ensures q == a / b && r == a % b && r < b && q <= a && a == b * q + r
    ensures b >= 2 ==> 2 * q <= a
  {
    q, r := a / b, a % b;
    AbsDivision(a, b);
  }

  lemma TruncatedDivision(a: int, b: int)
    requires b != 0
    ensures DivT(a, b) * b + RemT(a, b) == a
    ensures Abs(RemT(a, b)) < Abs(b)
    ensures RemT(a, b) == 0 || (RemT(a, b) < 0) == (a < 0)
    ensures Abs(DivT(a, b)) <= Abs(a)
    ensures b != -1 && b != 1 ==> 2 * Abs(DivT(a, b)) <= Abs(a)
  {
    hide DivT, RemT;
    var q, r := Magnitudes(a, b);
    SignedParts(a, b, q, r, DivT(a, b), RemT(a, b));
  }

  lemma SignedParts(a: int, b: int, q: int, r: int, sq: int, sr: int)
    requires b != 0 && q >= 0 && r >= 0 && Abs(a) == Abs(b) * q + r && r < Abs(b)
    requires sq == if (a < 0) == (b < 0) then q else -q
    requires sr == if a < 0 then -r else r
    ensures sq * b + sr == a
  {
    NegateProducts(q, Abs(b));
  }

  /** DIV and REM: unless the quotient overflows, dividing by a non-zero word gives the
      truncated quotient and the remainder of the dividend's sign; by zero, all ones and
      the dividend. */
  lemma SignedDivision(a: nat, b: nat, m: nat)
    requires WordSize(m) && a < m && b < m && !Overflows(a, b, m)
    ensures MulDiv(Div, a, b, m).Some? && MulDiv(Rem, a, b, m).Some?
    ensures var q, r := MulDiv(Div, a, b, m).value, MulDiv(Rem, a, b, m).value;
            var sa, sb, sq, sr := Signed(a, m), Signed(b, m), Signed(q, m), Signed(r, m);
            if b == 0 then sq == -1 && r == a
            else sq * sb + sr == sa && Abs(sr) < Abs(sb) && (sr == 0 || (sr < 0) == (sa < 0))
  {
    if b != 0 {
      var sa, sb := Signed(a, m), Signed(b, m);
      SignedRange(a, m);
      SignedRange(b, m);
      TruncatedDivision(sa, sb);
      QuotientFits(a, b, m);
      WrapSigned(DivT(sa, sb), m);
      WrapSigned(RemT(sa, sb), m);
    }
  }

  lemma QuotientFits(a: nat, b: nat, m: nat)
    requires WordSize(m) && a < m && 0 < b < m && !Overflows(a, b, m)
    ensures 0 <= 2 * DivT(Signed(a, m), Signed(b, m)) + m < 2 * m
    ensures 0 <= 2 * RemT(Signed(a, m), Signed(b, m)) + m < 2 * m
  {
    var sa, sb := Signed(a, m), Signed(b, m);
    SignedRange(a, m);
    SignedRange(b, m);
    TruncatedDivision(sa, sb);
    if sb == 1 {
      assert DivT(sa, sb) == sa;
    } else if sb == -1 {
      assert DivT(sa, sb) == -sa;
    }
  }

  lemma UnsignedLaw(a: nat, b: nat, m: nat)
    requires WordSize(m) && a < m && b < m
    ensures (MulDiv(DivU, a, b, m).value * b + MulDiv(RemU, a, b, m).value) % m == a
    ensures b != 0 ==> MulDiv(RemU, a, b, m).value < b
  {
    ModUnique(a, m, 0, a);
    if b != 0 {
      AbsDivision(a, b);
      NegateProducts(a / b, b);
    }
  }

  lemma SignedLaw(a: nat, b: nat, m: nat)
    requires WordSize(m) && a < m && b < m && !Overflows(a, b, m)
    ensures MulDiv(Div, a, b, m).Some? && MulDiv(Rem, a, b, m).Some?
    ensures (MulDiv(Div, a, b, m).value * b + MulDiv(Rem, a, b, m).value) % m == a
  {
    SignedDivision(a, b, m);
    if b == 0 {
      ModUnique(a, m, 0, a);
    } else {
      hide MulDiv, Signed, Overflows;
      SignedLawWraps(a, b, MulDiv(Div, a, b, m).value, MulDiv(Rem, a, b, m).value, m);
    }
  }

  // The same law read modulo the word size holds for every divisor, zero included.
  lemma DivisionLaw(a: nat, b: nat, m: nat)
    requires WordSize(m) && a < m && b < m
    ensures (MulDiv(DivU, a, b, m).value * b + MulDiv(RemU, a, b, m).value) % m == a
    ensures b != 0 ==> MulDiv(RemU, a, b, m).value < b
    ensures !Overflows(a, b, m) ==> (MulDiv(Div, a, b, m).value * b + MulDiv(Rem, a, b, m).value) % m == a
  {
    UnsignedLaw(a, b, m);
    if !Overflows(a, b, m) {
      SignedLaw(a, b, m);
    }
  }

  lemma SignedLawWraps(a: nat, b: nat, q: nat, r: nat, m: nat)
    requires WordSize(m) && a < m && b < m && q < m && r < m
    requires Signed(q, m) * Signed(b, m) + Signed(r, m) == Signed(a, m)
    ensures (q * b + r) % m == a
  {
    var i, j := if 2 * q >= m then 1 else 0, if 2 * b >= m then 1 else 0;
    var k, l := if 2 * r >= m then 1 else 0, if 2 * a >= m then 1 else 0;
    var sq, sb := Signed(q, m), Signed(b, m);
    Expand(sq, sb, i, j, m);
    var e := sq * j + i * sb + i * j * m;
    assert q == sq + i * m && b == sb + j * m;
    Reassemble(q * b, sq * sb, r, Signed(r, m), Signed(a, m), a, e, k, l, m);
    ModUnique(q * b + r, m, e + k - l, a);
  }

  lemma Reassemble(qb: int, p: int, r: int, sr: int, sa: int, a: int, e: int, k: int, l: int, m: int)
    requires qb == p + m * e && p + sr == sa
    requires (k == 0 && r == sr) || (k == 1 && r == sr + m)
    requires (l == 0 && a == sa) || (l == 1 && a == sa + m)
    ensures qb + r == m * (e + k - l) + a
  {
    assert m * (e + k - l) == m * e + m * k - m * l;
  }

  lemma Expand(x: int, y: int, i: int, j: int, m: int)
    ensures (x + i * m) * (y + j * m) == x * y + m * (x * j + i * y + i * j * m)
  {
    calc {
      (x + i * m) * (y + j * m);
      x * y + x * (j * m) + (i * m) * y + (i * m) * (j * m);
      { assert x * (j * m) == m * (x * j) && (i * m) * y == m * (i * y) && (i * m) * (j * m) == m * (i * j * m); }
      x * y + m * (x * j) + m * (i * y) + m * (i * j * m);
      x * y + m * (x * j + i * y + i * j * m);
    }
  }

  // ---------------------------------------------------------------- The signed high product

  // What MULH is for: the high word of the signed product.
  function SignedHigh(a: nat, b: nat, m: nat): int
    requires m > 0
  {
    (Signed(a, m) * Signed(b, m) / m) % m
  }

  // The signed product, split at the word boundary through the unsigned one.
  lemma SignedProduct(a: nat, b: nat, i: int, j: int, m: nat)
    requires WordSize(m)
    ensures (a - i * m) * (b - j * m) == m * (a * b / m - i * b - j * a + i * j * m) + a * b % m
  {
    var p := a * b;
    assert p == m * (p / m) + p % m;
    SplitProduct(a, b, i, j, m, p / m, p % m);
  }

  lemma SplitProduct(a: int, b: int, i: int, j: int, m: int, h: int, r: int)
    requires a * b == m * h + r
    ensures (a - i * m) * (b - j * m) == m * (h - i * b - j * a + i * j * m) + r
  {
  }

  // Subtracting one factor for each negative other corrects the unsigned high word.
  lemma SignedHighCorrection(a: nat, b: nat, m: nat)
    requires WordSize(m) && a < m && b < m
    ensures SignedHigh(a, b, m)
         == (HighProduct(a, b, m) - (if 2 * a >= m then b else 0) - (if 2 * b >= m then a else 0)) % m
  {
    var i, j := if 2 * a >= m then 1 else 0, if 2 * b >= m then 1 else 0;
    var h := a * b / m;
    SignedProduct(a, b, i, j, m);
    ModUnique(Signed(a, m) * Signed(b, m), m, h - i * b - j * a + i * j * m, a * b % m);
    ShiftMod(h - i * b - j * a, i * j, m);
  }

  lemma ShiftMod(x: int, k: int, m: int)
    requires m > 0
    ensures (x + k * m) % m == x % m
  {
    assert x == m * (x / m) + x % m;
    assert x + k * m == m * (x / m + k) + x % m;
    ModUnique(x + k * m, m, x / m + k, x % m);
  }

  /** MULH as coded multiplies the unsigned readings. It is the signed high word exactly when
      no correction is due: no negative factor meets a non-zero one, or both are the least
      signed word. */
  lemma MulHExact(a: nat, b: nat, m: nat)
    requires WordSize(m) && a < m && b < m
    ensures MulDiv(MulH, a, b, m).value == SignedHigh(a, b, m)
       <==> ((2 * a < m || b == 0) && (2 * b < m || a == 0)) || (2 * a == m && 2 * b == m)
  {
    SignedHighCorrection(a, b, m);
    var h, c := HighProduct(a, b, m), (if 2 * a >= m then b else 0) + (if 2 * b >= m then a else 0);
    assert 0 <= c < 2 * m;
    if c == 0 {
      ModUnique(h, m, 0, h);
    } else if c == m {
      ModUnique(h - c, m, -1, h);
    } else if h - c >= 0 {
      ModUnique(h - c, m, 0, h - c);
    } else if h - c + m >= 0 {
      ModUnique(h - c, m, -1, h - c + m);
    } else {
      ModUnique(h - c, m, -2, h - c + 2 * m);
    }
  }

  // What MULHSU is for: the high word of a signed by an unsigned operand.
  function SignedUnsignedHigh(a: nat, b: nat, m: nat): int
    requires m > 0
  {
    (Signed(a, m) * b / m) % m
  }

  /** MULHSU as coded multiplies the unsigned readings too. It is right exactly when the
      first operand is not negative or the second is zero. */
  lemma MulHSUExact(a: nat, b: nat, m: nat)
    requires WordSize(m) && a < m && b < m
    ensures MulDiv(MulHSU, a, b, m).value == SignedUnsignedHigh(a, b, m) <==> 2 * a < m || b == 0
  {
    var i := if 2 * a >= m then 1 else 0;
    var h := HighProduct(a, b, m);
    SignedProduct(a, b, i, 0, m);
    ModUnique(Signed(a, m) * b, m, h - i * b, a * b % m);
    if i == 0 || b == 0 {
      ModUnique(h, m, 0, h);
    } else if h >= b {
      ModUnique(h - b, m, 0, h - b);
    } else {
      ModUnique(h - b, m, -1, h - b + m);
    }
  }

  // (-1) times 1: the code's high word is 0, the signed one is all ones.
  lemma MulHDiffers()
    ensures MulDiv(MulH, TWO_64 - 1, 1, TWO_64).value == 0 && SignedHigh(TWO_64 - 1, 1, TWO_64) == TWO_64 - 1
  {
    SignedHighCorrection(TWO_64 - 1, 1, TWO_64);
  }

  // The same pair for MULHSU.
  lemma MulHSUDiffers()
    ensures MulDiv(MulHSU, TWO_64 - 1, 1, TWO_64).value == 0 && SignedUnsignedHigh(TWO_64 - 1, 1, TWO_64) == TWO_64 - 1
  {
  }
}
