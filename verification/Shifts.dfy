/** Shifts by variable amounts, as arithmetic on numbers. */
module Shifts {
  import opened Words
  import opened Numbers
  import A = Alu

  // ---------------------------------------------------------------- Bits

  predicate IsSet(x: bv64, i: bv6) { (x >> (i as bv64)) & 1 == 1 }

  lemma FirstBit(x: bv64)
    ensures IsSet(x, 0) <==> Odd(x)
  {
  }

  lemma HalfBit(x: bv64, i: bv6)
    ensures IsSet(Half(x), i) <==> (i != 63 && IsSet(x, Up(i)))
  {
  }

  function Up(i: bv6): bv6 { i + 1 }

  lemma ZeroBits(i: bv6)
    ensures !IsSet(0, i)
  {
  }

  // Words with the same bits are the same.
  lemma {:induction false} SameBits(x: bv64, y: bv64)
    requires forall i: bv6 :: IsSet(x, i) == IsSet(y, i)
    ensures x == y
    decreases ToNat(x) + ToNat(y)
  {
    hide ToNat, IsSet, Half, Odd, Up;
    Unique(x, y);
    Halved(x);
    Halved(y);
    FirstBit(x);
    FirstBit(y);
    if ToNat(x) + ToNat(y) > 0 {
      forall i: bv6 ensures IsSet(Half(x), i) == IsSet(Half(y), i) {
        HalfBit(x, i);
        HalfBit(y, i);
      }
      SameBits(Half(x), Half(y));
    }
  }

  // ---------------------------------------------------------------- To the right

  predicate Inside(i: bv6, n: bv6) { i <= 63 - n }

  function Plus(i: bv6, n: bv6): bv6 { i + n }

  predicate Moved(x: bv64, n: bv6, i: bv6) {
    IsSet(x >> (n as bv64), i) <==> i <= 63 - n && IsSet(x, i + n)
  }

  // By the low bits of the amount.
  lemma Moved0(x: bv64, n: bv6, i: bv6)
    requires n & 15 == 0
    ensures Moved(x, n, i)
  {
  }

  lemma Moved1(x: bv64, n: bv6, i: bv6)
    requires n & 3 == 1
    ensures Moved(x, n, i)
  {
  }

  lemma Moved2(x: bv64, n: bv6, i: bv6)
    requires n & 3 == 2
    ensures Moved(x, n, i)
  {
  }

  lemma Moved3(x: bv64, n: bv6, i: bv6)
    requires n & 3 == 3
    ensures Moved(x, n, i)
  {
  }

  lemma Moved8(x: bv64, n: bv6, i: bv6)
    requires n & 15 == 8
    ensures Moved(x, n, i)
  {
  }

  lemma Moved4(x: bv64, n: bv6, i: bv6)
    requires n & 7 == 4
    ensures Moved(x, n, i)
  {
  }

  lemma MovedAll(x: bv64, n: bv6, i: bv6)
    ensures Moved(x, n, i)
  {
    hide Moved;
    match n & 3
    case 0 =>
      if n & 15 == 0 {
        Moved0(x, n, i);
      } else if n & 15 == 8 {
        Moved8(x, n, i);
      } else {
        Moved4(x, n, i);
      }
    case 1 => Moved1(x, n, i);
    case 2 => Moved2(x, n, i);
    case _ => Moved3(x, n, i);
  }

  lemma Named(x: bv64, n: bv6, i: bv6)
    ensures A.Srl(x, n) == x >> (n as bv64) && Plus(i, n) == i + n && Inside(i, n) == (i <= 63 - n)
  {
  }

  lemma RightBit(x: bv64, n: bv6, i: bv6)
    ensures IsSet(A.Srl(x, n), i) <==> Inside(i, n) && IsSet(x, Plus(i, n))
  {
    hide A.Srl, IsSet, Plus, Inside;
    MovedAll(x, n, i);
    Named(x, n, i);
  }

  lemma NextPlace(i: bv6, n: bv6)
    requires n != 63
    ensures Inside(i, Up(n)) <==> i != 63 && Inside(Up(i), n)
    ensures i != 63 ==> Plus(i, Up(n)) == Plus(Up(i), n)
  {
  }

  lemma RightStep(x: bv64, n: bv6)
    requires n != 63
    ensures A.Srl(x, Up(n)) == Half(A.Srl(x, n))
  {
    hide IsSet, Inside, Plus, A.Srl, Half, Up;
    forall i: bv6 ensures IsSet(A.Srl(x, Up(n)), i) == IsSet(Half(A.Srl(x, n)), i) {
      RightBit(x, Up(n), i);
      HalfBit(A.Srl(x, n), i);
      if i != 63 {
        RightBit(x, n, Up(i));
      }
      NextPlace(i, n);
    }
    SameBits(A.Srl(x, Up(n)), Half(A.Srl(x, n)));
  }

  // Shifting right by n divides by 2^n.
  lemma {:induction false} RightNumber(x: bv64, n: bv6)
    ensures ToNat(A.Srl(x, n)) == ToNat(x) / Pow2(n as nat)
    decreases n
  {
    hide ToNat, A.Srl, Half, Up;
    if n == 0 {
      Unmoved(x);
    } else {
      var p := Down(n);
      DownUp(n);
      RightNumber(x, p);
      RightStep(x, p);
      Halved(A.Srl(x, p));
      Nested(ToNat(x), Pow2(p as nat));
    }
  }

  function Down(n: bv6): bv6 { n - 1 }

  lemma DownUp(n: bv6)
    requires n != 0
    ensures Up(Down(n)) == n && Down(n) != 63 && Down(n) < n && n as nat == Down(n) as nat + 1
  {
  }

  lemma Unmoved(x: bv64)
    ensures A.Srl(x, 0) == x && A.Sll(x, 0) == x
  {
  }

  lemma Nested(n: nat, p: nat)
    requires p > 0
    ensures n / p / 2 == n / (2 * p)
  {
    var q, r := n / p / 2, n / p % 2;
    assert n == p * (n / p) + n % p && n / p == 2 * q + r;
    assert p * (2 * q + r) == (2 * p) * q + p * r;
    assert 0 <= p * r <= p;
    ModUnique(n, 2 * p, q, p * r + n % p);
  }

  // ---------------------------------------------------------------- To the left

  predicate LeftMoves(x: bv64, n: bv6) {
    A.Sll(x, n + 1) == Twice(x << (n as bv64))
  }

  // By how many ones the amount ends in.
  lemma Left0(x: bv64, n: bv6)
    requires n & 1 == 0
    ensures LeftMoves(x, n)
  {
  }

  lemma Left1(x: bv64, n: bv6)
    requires n & 3 == 1
    ensures LeftMoves(x, n)
  {
  }

  lemma Left2(x: bv64, n: bv6)
    requires n & 7 == 3
    ensures LeftMoves(x, n)
  {
  }

  lemma Left3(x: bv64, n: bv6)
    requires n & 15 == 7
    ensures LeftMoves(x, n)
  {
  }

  lemma Left4(x: bv64, n: bv6)
    requires n & 31 == 15
    ensures LeftMoves(x, n)
  {
  }

  lemma Left5(x: bv64, n: bv6)
    requires n == 31
    ensures LeftMoves(x, n)
  {
    hide A.Sll, Twice;
    LeftMiddle(x);
  }

  lemma LeftMiddle(x: bv64)
    ensures A.Sll(x, 32) == Twice(x << 31)
  {
  }

  lemma LeftAll(x: bv64, n: bv6)
    requires n != 63
    ensures LeftMoves(x, n)
  {
    hide LeftMoves;
    if n & 1 == 0 {
      Left0(x, n);
    } else if n & 3 == 1 {
      Left1(x, n);
    } else if n & 7 == 3 {
      Left2(x, n);
    } else if n & 15 == 7 {
      Left3(x, n);
    } else if n & 31 == 15 {
      Left4(x, n);
    } else {
      Left5(x, n);
    }
  }

  lemma SllIs(x: bv64, n: bv6)
    ensures A.Sll(x, n) == x << (n as bv64) && Up(n) == n + 1
  {
  }

  lemma LeftStep(x: bv64, n: bv6)
    requires n != 63
    ensures A.Sll(x, Up(n)) == Twice(A.Sll(x, n))
  {
    LeftAll(x, n);
    hide A.Sll, Twice, Up;
    SllIs(x, n);
  }

  lemma TwiceNumber(x: bv64)
    ensures ToNat(Twice(x)) == 2 * ToNat(x) % TWO_64
  {
    hide ToNat, Twice, A.Add;
    TwiceAdds(x);
    Sum(x, x);
  }

  // Shifting left by n multiplies by 2^n, modulo 2^64.
  lemma {:induction false} LeftNumber(x: bv64, n: bv6)
    ensures ToNat(A.Sll(x, n)) == ToNat(x) * Pow2(n as nat) % TWO_64
    decreases n
  {
    hide ToNat, A.Sll, Twice, Up;
    if n == 0 {
      Unmoved(x);
      InWord(x);
      ModUnique(ToNat(x), TWO_64, 0, ToNat(x));
    } else {
      var p := Down(n);
      DownUp(n);
      LeftNumber(x, p);
      LeftStep(x, p);
      TwiceNumber(A.Sll(x, p));
      TwiceMod(ToNat(x), Pow2(p as nat));
    }
  }

  lemma TwiceMod(n: nat, p: nat)
    ensures 2 * (n * p % TWO_64) % TWO_64 == n * (2 * p) % TWO_64
  {
    var q, r := n * p / TWO_64, n * p % TWO_64;
    assert n * (2 * p) == 2 * (n * p);
    var q', r' := 2 * r / TWO_64, 2 * r % TWO_64;
    ModUnique(n * (2 * p), TWO_64, 2 * q + q', r');
  }

  // ---------------------------------------------------------------- With the sign

  function Not(x: bv64): bv64 { !x }

  lemma NotAdds(x: bv64)
    ensures A.Add(x, Not(x)) == 0xFFFF_FFFF_FFFF_FFFF
  {
  }

  lemma NotNumber(x: bv64)
    ensures ToNat(Not(x)) == TWO_64 - 1 - ToNat(x)
  {
    hide ToNat, A.Add, Not;
    NotAdds(x);
    LastNat();
    InWord(x);
    InWord(Not(x));
    Sum(x, Not(x));
    var n := ToNat(x) + ToNat(Not(x));
    if n < TWO_64 {
      ModUnique(n, TWO_64, 0, n);
    } else {
      ModUnique(n, TWO_64, 1, n - TWO_64);
    }
  }

  predicate Negative(x: bv64) { x & 0x8000_0000_0000_0000 != 0 }

  lemma SraRaw(x: bv64, n: bv6)
    ensures A.Sra(x, n) == if x & 0x8000_0000_0000_0000 != 0 then Not((!x) >> (n as bv64)) else x >> (n as bv64)
  {
  }

  lemma Spelled(x: bv64, n: bv6)
    ensures Not(x) == !x && A.Srl(x, n) == x >> (n as bv64) && (Negative(x) <==> x & 0x8000_0000_0000_0000 != 0)
  {
  }

  lemma SraIs(x: bv64, n: bv6)
    ensures A.Sra(x, n) == if Negative(x) then Not(A.Srl(Not(x), n)) else A.Srl(x, n)
  {
    hide A.Sra, A.Srl, Not, Negative;
    SraRaw(x, n);
    Spelled(x, n);
    Spelled(!x, n);
  }

  lemma NegativeIs(x: bv64)
    ensures Negative(x) <==> !Lt(x, 0x8000_0000_0000_0000)
  {
  }

  // Shifting right with the sign divides the signed reading, rounding down.
  lemma SignedRight(x: bv64, n: bv6)
    ensures ToNat(A.Sra(x, n)) == Int(x) / Pow2(n as nat) % TWO_64
  {
    hide ToNat, A.Sra, A.Srl, Not, Negative, Lt;
    SraIs(x, n);
    NegativeIs(x);
    MinNat();
    Order(x, 0x8000_0000_0000_0000);
    InWord(x);
    if Negative(x) {
      NotNumber(x);
      RightNumber(Not(x), n);
      NotNumber(A.Srl(Not(x), n));
      FloorNegative(ToNat(x), Pow2(n as nat), TWO_64);
    } else {
      RightNumber(x, n);
      QuotientBelow(ToNat(x), Pow2(n as nat));
      ModUnique(ToNat(x) / Pow2(n as nat), TWO_64, 0, ToNat(x) / Pow2(n as nat));
    }
  }

  lemma QuotientBelow(n: nat, p: nat)
    requires p > 0
    ensures n / p <= n
  {
    A.DivUBelow(n, p);
  }

  // Dividing a negative number with rounding down, by way of its complement.
  lemma FloorNegative(n: nat, p: nat, m: nat)
    requires p > 0 && n < m
    ensures m - 1 - (m - 1 - n) / p == (n - m) / p % m
  {
    var k := m - 1 - n;
    var q, r := k / p, k % p;
    assert k == p * q + r;
    assert n - m == p * (-q - 1) + (p - 1 - r);
    ModUnique(n - m, p, -q - 1, p - 1 - r);
    QuotientBelow(k, p);
    ModUnique(-q - 1, m, -1, m - 1 - q);
  }

  // ---------------------------------------------------------------- Words of 32 bits

  function Number32(w: bv32): nat { ToNat(A.Wide(w)) }

  lemma Mask32Number()
    ensures ToNat(0xFFFF_FFFF) == TWO_32 - 1 && Pow2(32) == TWO_32
  {
    var s := Bytes64(0xFFFF_FFFF);
    assert s == [0xFF, 0xFF, 0xFF, 0xFF, 0, 0, 0, 0];
    Pow2Of9();
    assert Pow2(5) == 32;
    hide Bytes64, Nat, Pow2;
    Nat8(s);
    Pow2Sum(9, 9);
    Pow2Sum(18, 9);
    Pow2Sum(27, 5);
  }

  lemma Low32Of(x: bv64)
    ensures ToNat(A.And(x, 0xFFFF_FFFF)) == ToNat(x) % TWO_32
  {
    hide ToNat, A.And, Pow2;
    Mask32Number();
    MaskKeeps(x, 0xFFFF_FFFF, 32);
  }

  lemma LowIs(x: bv64)
    ensures A.Wide(A.Low32(x)) == A.And(x, 0xFFFF_FFFF)
  {
  }

  lemma LowNumber(x: bv64)
    ensures Number32(A.Low32(x)) == ToNat(x) % TWO_32
  {
    hide ToNat, A.And, A.Wide, A.Low32;
    LowIs(x);
    Low32Of(x);
  }

  lemma WordBound(w: bv32)
    ensures Number32(w) < TWO_32
  {
    assert A.And(A.Wide(w), 0xFFFF_FFFF) == A.Wide(w);
    hide ToNat, A.And, A.Wide;
    Low32Of(A.Wide(w));
  }

  function Not32(w: bv32): bv32 { !w }

  function Six(n: bv5): bv6 { n as bv6 }

  lemma SixIs(n: bv5)
    ensures Six(n) as nat == n as nat
  {
  }

  lemma WideIs(w: bv32)
    ensures A.Wide(w) == w as bv64
  {
  }

  // Of raw words, with the sum named on both sides.
  lemma AddWide(w: bv32, z: bv32)
    ensures A.Wide(A.Add32(w, z)) == A.And(A.Add(w as bv64, z as bv64), 0xFFFF_FFFF)
  {
    assert A.Wide(w + z) == A.And((w as bv64) + (z as bv64), 0xFFFF_FFFF);
  }

  lemma SubWide(w: bv32, z: bv32)
    ensures A.Wide(A.Sub32(w, z)) == A.And(A.Sub(w as bv64, z as bv64), 0xFFFF_FFFF)
  {
    assert A.Wide(w - z) == A.And((w as bv64) - (z as bv64), 0xFFFF_FFFF);
  }

  lemma Sums32(w: bv32, z: bv32)
    ensures A.Wide(A.Add32(w, z)) == A.And(A.Add(A.Wide(w), A.Wide(z)), 0xFFFF_FFFF)
    ensures A.Wide(A.Sub32(w, z)) == A.And(A.Sub(A.Wide(w), A.Wide(z)), 0xFFFF_FFFF)
  {
    hide A.Wide, A.And, A.Add, A.Sub, A.Add32, A.Sub32;
    AddWide(w, z);
    SubWide(w, z);
    WideIs(w);
    WideIs(z);
  }

  // Sums and differences of 32-bit words, modulo 2^32.
  lemma SumDifference32(w: bv32, z: bv32)
    ensures Number32(A.Add32(w, z)) == (Number32(w) + Number32(z)) % TWO_32
    ensures Number32(A.Sub32(w, z)) == (Number32(w) - Number32(z)) % TWO_32
  {
    hide ToNat, A.And, A.Add, A.Sub, A.Wide, A.Add32, A.Sub32;
    Sums32(w, z);
    var x, y := A.Wide(w), A.Wide(z);
    Low32Of(A.Add(x, y));
    Low32Of(A.Sub(x, y));
    Sum(x, y);
    Difference(x, y);
    ModMod(ToNat(x) + ToNat(y));
    ModMod(ToNat(x) - ToNat(y));
  }

  lemma ModMod(n: int)
    ensures n % TWO_64 % TWO_32 == n % TWO_32
  {
    var q, r := n / TWO_64, n % TWO_64;
    var q', r' := r / TWO_32, r % TWO_32;
    ModUnique(n, TWO_32, TWO_32 * q + q', r');
  }

  lemma SllWide(w: bv32, n: bv5)
    ensures A.Wide(w << (n as bv32)) == A.And((w as bv64) << (n as bv64), 0xFFFF_FFFF)
  {
  }

  lemma SrlWide(w: bv32, n: bv5)
    ensures A.Wide(w >> (n as bv32)) == (w as bv64) >> (n as bv64)
  {
  }

  lemma Sll32Is(w: bv32, n: bv5)
    ensures A.Sll32(w, n) == w << (n as bv32) && A.Srl32(w, n) == w >> (n as bv32)
  {
  }

  lemma Sll64Is(x: bv64, n: bv5)
    ensures A.Sll(x, n as bv6) == x << (n as bv64) && A.Srl(x, n as bv6) == x >> (n as bv64) && Six(n) == n as bv6
  {
  }

  lemma WideShifts(w: bv32, n: bv5)
    ensures A.Wide(A.Sll32(w, n)) == A.And(A.Sll(A.Wide(w), Six(n)), 0xFFFF_FFFF)
    ensures A.Wide(A.Srl32(w, n)) == A.Srl(A.Wide(w), Six(n))
  {
    hide A.Wide, A.And, A.Sll, A.Srl, A.Sll32, A.Srl32, Six;
    SllWide(w, n);
    SrlWide(w, n);
    Sll32Is(w, n);
    Sll64Is(w as bv64, n);
    WideIs(w);
  }

  lemma Shifts32(w: bv32, n: bv5)
    ensures Number32(A.Sll32(w, n)) == Number32(w) * Pow2(n as nat) % TWO_32
    ensures Number32(A.Srl32(w, n)) == Number32(w) / Pow2(n as nat)
  {
    hide ToNat, A.And, A.Sll, A.Srl, A.Wide, A.Sll32, A.Srl32, Six;
    WideShifts(w, n);
    SixIs(n);
    LeftNumber(A.Wide(w), Six(n));
    RightNumber(A.Wide(w), Six(n));
    Low32Of(A.Sll(A.Wide(w), Six(n)));
    ModMod(Number32(w) * Pow2(n as nat));
  }

  lemma Not32Adds(w: bv32)
    ensures A.Add(A.Wide(w), A.Wide(Not32(w))) == 0xFFFF_FFFF
  {
  }

  lemma NotNumber32(w: bv32)
    ensures Number32(Not32(w)) == TWO_32 - 1 - Number32(w)
  {
    hide ToNat, A.Add, A.Wide, Not32;
    Not32Adds(w);
    Mask32Number();
    WordBound(w);
    WordBound(Not32(w));
    Sum(A.Wide(w), A.Wide(Not32(w)));
    ModUnique(Number32(w) + Number32(Not32(w)), TWO_64, 0, Number32(w) + Number32(Not32(w)));
  }

  // The signed reading of a 32-bit number.
  function Int32(n: nat): int {
    if n >= 0x8000_0000 then n - TWO_32 else n
  }

  lemma Sra32Raw(w: bv32, n: bv5)
    ensures A.Sra32(w, n) == if A.Neg(w) then Not32((!w) >> (n as bv32)) else w >> (n as bv32)
  {
  }

  lemma Spelled32(w: bv32, n: bv5)
    ensures Not32(w) == !w && A.Srl32(w, n) == w >> (n as bv32)
  {
  }

  lemma Sra32Is(w: bv32, n: bv5)
    ensures A.Sra32(w, n) == if A.Neg(w) then Not32(A.Srl32(Not32(w), n)) else A.Srl32(w, n)
  {
    hide A.Sra32, A.Neg, Not32, A.Srl32;
    Sra32Raw(w, n);
    Spelled32(w, n);
    Spelled32(!w, n);
  }

  lemma NegIs(w: bv32)
    ensures A.Neg(w) <==> !Lt(A.Wide(w), 0x8000_0000)
  {
  }

  lemma HalfWord()
    ensures ToNat(0x8000_0000) == 0x8000_0000
  {
    var s := Bytes64(0x8000_0000);
    assert s == [0, 0, 0, 0x80, 0, 0, 0, 0];
    hide Bytes64, Nat;
    Nat8(s);
  }

  lemma NegNumber(w: bv32)
    ensures A.Neg(w) <==> Number32(w) >= 0x8000_0000
  {
    hide ToNat, A.Neg, A.Wide, Lt;
    NegIs(w);
    HalfWord();
    Order(A.Wide(w), 0x8000_0000);
  }

  lemma SignedRight32(w: bv32, n: bv5)
    ensures Number32(A.Sra32(w, n)) == Int32(Number32(w)) / Pow2(n as nat) % TWO_32
  {
    hide Number32, A.Sra32, A.Neg, Not32, A.Srl32;
    Sra32Is(w, n);
    NegNumber(w);
    WordBound(w);
    if A.Neg(w) {
      NotNumber32(w);
      Shifts32(Not32(w), n);
      NotNumber32(A.Srl32(Not32(w), n));
      FloorNegative(Number32(w), Pow2(n as nat), TWO_32);
    } else {
      Shifts32(w, n);
      QuotientBelow(Number32(w), Pow2(n as nat));
      ModUnique(Number32(w) / Pow2(n as nat), TWO_32, 0, Number32(w) / Pow2(n as nat));
    }
  }

  // The number of the sign-extended word.
  function Extended(n: nat): nat {
    if n >= 0x8000_0000 then n + (TWO_64 - TWO_32) else n
  }

  lemma HighOnes()
    ensures ToNat(0xFFFF_FFFF_0000_0000) == TWO_64 - TWO_32
  {
    var s := Bytes64(0xFFFF_FFFF_0000_0000);
    assert s == [0, 0, 0, 0, 0xFF, 0xFF, 0xFF, 0xFF];
    hide Bytes64, Nat;
    Nat8(s);
  }

  lemma SextIs(w: bv32)
    ensures A.Sext32(w) == if A.Neg(w) then A.Add(w as bv64, 0xFFFF_FFFF_0000_0000) else A.Wide(w)
    ensures A.Wide(w) == w as bv64
  {
  }

  lemma SextNumber(w: bv32)
    ensures ToNat(A.Sext32(w)) == Extended(Number32(w))
  {
    hide ToNat, A.Sext32, A.Neg, A.Wide, A.Add;
    SextIs(w);
    NegNumber(w);
    WordBound(w);
    if A.Neg(w) {
      HighOnes();
      Sum(A.Wide(w), 0xFFFF_FFFF_0000_0000);
      ModUnique(Number32(w) + (TWO_64 - TWO_32), TWO_64, 0, Number32(w) + (TWO_64 - TWO_32));
    }
  }
}
