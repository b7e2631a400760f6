/** The multiply and divide laws on registers: what the M instructions leave in rd. */
module MulDivInstructions {
  import opened Words
  import A = Alu
  import L = MulDivLaws
  import M = Machine

  lemma Kept(r: nat)
    requires r < TWO_64
    ensures ToNat(FromNat(r)) == r
  {
    hide ToNat, FromNat;
    RegisterRoundTrip(0, r);
    ModUnique(r, TWO_64, 0, r);
  }

  lemma InWord(x: bv64)
    ensures ToNat(x) < TWO_64 && TWO_64 % 2 == 0 && TWO_32 % 2 == 0
  {
    hide ToNat, FromNat;
    RegisterRoundTrip(x, 0);
  }

  /** MULHU and MUL leave the two halves of the exact 128-bit product. */
  lemma ProductRegisters(x: bv64, y: bv64)
    ensures var high, low := M.Multiply64(3, x, y), M.Multiply64(0, x, y);
            high.Some? && low.Some? && ToNat(high.value) * TWO_64 + ToNat(low.value) == ToNat(x) * ToNat(y)
  {
    hide A.MulDiv, ToNat, FromNat;
    InWord(x);
    InWord(y);
    Defined(x, y);
    L.ProductExact(ToNat(x), ToNat(y), TWO_64);
    Kept(A.MulDiv(A.MulHU, ToNat(x), ToNat(y), TWO_64).value);
    Kept(A.MulDiv(A.Mul, ToNat(x), ToNat(y), TWO_64).value);
  }

  lemma Defined(x: bv64, y: bv64)
    ensures ToNat(x) < TWO_64 && ToNat(y) < TWO_64
    ensures A.MulDiv(A.MulHU, ToNat(x), ToNat(y), TWO_64).Some? && A.MulDiv(A.Mul, ToNat(x), ToNat(y), TWO_64).Some?
  {
    hide ToNat, A.HighProduct;
    InWord(x);
    InWord(y);
  }

  predicate Overflow64(x: bv64, y: bv64) {
    A.Overflows(ToNat(x), ToNat(y), TWO_64)
  }

  // The quotient and remainder registers satisfy the division law modulo 2^64.
  predicate Law64(x: bv64, y: bv64, q: Option<bv64>, r: Option<bv64>) {
    q.Some? && r.Some? && (ToNat(q.value) * ToNat(y) + ToNat(r.value)) % TWO_64 == ToNat(x)
  }

  /** DIV and REM, DIVU and REMU: MUL of the quotient and the divisor plus the remainder is
      the dividend, by zero too. Only the signed overflow is undefined. */
  lemma DivisionRegisters(x: bv64, y: bv64)
    ensures Law64(x, y, M.Multiply64(5, x, y), M.Multiply64(7, x, y))
    ensures !Overflow64(x, y) ==> Law64(x, y, M.Multiply64(4, x, y), M.Multiply64(6, x, y))
    ensures Overflow64(x, y) ==> M.Multiply64(4, x, y).None? && M.Multiply64(6, x, y).None?
  {
    hide A.MulDiv, ToNat, FromNat, A.Overflows;
    InWord(x);
    InWord(y);
    var a, b := ToNat(x), ToNat(y);
    Quotients(a, b, TWO_64);
    L.DivisionLaw(a, b, TWO_64);
    Kept(A.MulDiv(A.DivU, a, b, TWO_64).value);
    Kept(A.MulDiv(A.RemU, a, b, TWO_64).value);
    if !Overflow64(x, y) {
      Kept(A.MulDiv(A.Div, a, b, TWO_64).value);
      Kept(A.MulDiv(A.Rem, a, b, TWO_64).value);
    }
  }

  lemma Quotients(a: nat, b: nat, m: nat)
    requires m > 1 && a < m && b < m
    ensures A.MulDiv(A.DivU, a, b, m).Some? && A.MulDiv(A.RemU, a, b, m).Some?
    ensures A.Overflows(a, b, m) ==> A.MulDiv(A.Div, a, b, m).None? && A.MulDiv(A.Rem, a, b, m).None?
    ensures !A.Overflows(a, b, m) ==> A.MulDiv(A.Div, a, b, m).Some? && A.MulDiv(A.Rem, a, b, m).Some?
  {
    hide A.Wrap, A.DivT, A.RemT, A.Signed;
  }

  // ---------------------------------------------------------------- W forms

  // The 32-bit operand in a register, and a register that holds a sign-extended word.
  function Low(x: bv64): nat {
    ToNat(x) % TWO_32
  }

  predicate IsWord(x: bv64) {
    A.Sext32(A.Low32(x)) == x
  }

  lemma {:induction false} NatSplit(s: seq<bv8>, k: nat)
    requires k <= |s|
    ensures Nat(s) == Nat(s[..k]) + Pow256(k) * Nat(s[k..])
  {
    if k == 0 {
      assert s[k..] == s;
    } else {
      NatSplit(s[1..], k - 1);
      assert s[..k][1..] == s[1..][..k - 1] && s[k..] == s[1..][k - 1..];
      Regroup(s[0] as nat, Nat(s[..k][1..]), Pow256(k - 1), Nat(s[k..]));
    }
  }

  lemma Regroup(x: nat, y: nat, p: nat, t: nat)
    ensures x + 256 * (y + p * t) == (x + 256 * y) + (256 * p) * t
  {
  }

  // The low four bytes of a register are its 32-bit operand.
  lemma LowIsBytes(x: bv64)
    ensures Low(x) == Nat(Bytes64(x)[..4])
  {
    hide Bytes64, Nat;
    var s := Bytes64(x);
    NatSplit(s, 4);
    BytesOfNat(s[..4]);
    Pow256Of8();
    ModUnique(Nat(s), TWO_32, Nat(s[4..]), Nat(s[..4]));
  }

  lemma SextLow(x: bv64)
    ensures Bytes64(A.Sext32(A.Low32(x)))[..4] == Bytes64(x)[..4]
  {
    hide A.Sext32, A.Low32, Bytes64;
    var y := A.Sext32(A.Low32(x));
    A.LowSext(A.Low32(x));
    WideLow(x);
    WideLow(y);
    LowBytesOf(x);
    LowBytesOf(y);
    FirstFour(Bytes64(x), Bytes64(y));
  }

  lemma WideLow(x: bv64)
    ensures A.Low32(x) as bv64 == x & 0xFFFF_FFFF
  {
  }

  lemma FirstFour(s: seq<bv8>, t: seq<bv8>)
    requires |s| == |t| == 8 && s[0] == t[0] && s[1] == t[1] && s[2] == t[2] && s[3] == t[3]
    ensures s[..4] == t[..4]
  {
  }

  // They depend on the low half alone.
  lemma LowBytesOf(x: bv64)
    ensures var s, t := Bytes64(x), Bytes64(x & 0xFFFF_FFFF);
            s[0] == t[0] && s[1] == t[1] && s[2] == t[2] && s[3] == t[3]
  {
  }

  // A 32-bit result comes back from its register, which holds it sign-extended.
  lemma WordResult(r: nat)
    requires r < TWO_32
    ensures var v := A.Sext32(A.Low32(FromNat(r))); Low(v) == r && IsWord(v)
  {
    hide ToNat, FromNat, Bytes64, A.Sext32, A.Low32;
    var z := FromNat(r);
    Kept(r);
    LowIsBytes(z);
    LowIsBytes(A.Sext32(A.Low32(z)));
    SextLow(z);
    ModUnique(r, TWO_32, 0, r);
    SextIsWord(A.Low32(z));
  }

  lemma SextIsWord(w: bv32)
    ensures IsWord(A.Sext32(w))
  {
    A.LowSext(w);
  }

  predicate Law32(x: bv64, y: bv64, q: Option<bv64>, r: Option<bv64>) {
    && q.Some? && r.Some? && IsWord(q.value) && IsWord(r.value)
    && (Low(q.value) * Low(y) + Low(r.value)) % TWO_32 == Low(x)
  }

  // MULW leaves the product modulo 2^32, sign-extended; MULHW and the like do not exist.
  lemma ProductWord(x: bv64, y: bv64)
    ensures var p := M.Multiply32(0, x, y); p.Some? && IsWord(p.value) && Low(p.value) == Low(x) * Low(y) % TWO_32
    ensures M.Multiply32(1, x, y).None? && M.Multiply32(2, x, y).None? && M.Multiply32(3, x, y).None?
  {
    hide ToNat, FromNat, A.Sext32, A.Low32, IsWord, A.MulDiv;
    WordProduct(Low(x), Low(y));
    WordResult(Low(x) * Low(y) % TWO_32);
  }

  lemma WordProduct(a: nat, b: nat)
    requires a < TWO_32 && b < TWO_32
    ensures A.MulDiv(A.Mul, a, b, TWO_32) == Some(a * b % TWO_32)
  {
  }

  /** DIVW and REMW, DIVUW and REMUW satisfy the 32-bit law and leave sign-extended words;
      only the signed 32-bit overflow is undefined. */
  lemma WordRegisters(x: bv64, y: bv64)
    ensures Law32(x, y, M.Multiply32(5, x, y), M.Multiply32(7, x, y))
    ensures if A.Overflows(Low(x), Low(y), TWO_32) then M.Multiply32(4, x, y).None? && M.Multiply32(6, x, y).None?
            else Law32(x, y, M.Multiply32(4, x, y), M.Multiply32(6, x, y))
  {
    hide ToNat, FromNat, A.Sext32, A.Low32, A.Overflows, IsWord, A.MulDiv;
    var a, b := Low(x), Low(y);
    InWord(x);
    Quotients(a, b, TWO_32);
    L.DivisionLaw(a, b, TWO_32);
    WordResult(A.MulDiv(A.DivU, a, b, TWO_32).value);
    WordResult(A.MulDiv(A.RemU, a, b, TWO_32).value);
    if !A.Overflows(a, b, TWO_32) {
      WordResult(A.MulDiv(A.Div, a, b, TWO_32).value);
      WordResult(A.MulDiv(A.Rem, a, b, TWO_32).value);
    }
  }
}
