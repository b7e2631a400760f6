/** What the bit-vector operations on words do to the numbers the words denote. */
module Numbers {
  import opened Octet
  import opened Words
  import A = Alu

  // ---------------------------------------------------------------- Bytes of a word

  function Low(x: bv64): bv8 { (x & 0xFF) as bv8 }

  function Rest(x: bv64): bv64 { x >> 8 }

  function Digit(b: bv8): nat { b as nat }

  // The number in the low w bytes.
  function Value(x: bv64, w: nat): nat {
    if w == 0 then 0 else Low(x) as nat + 256 * Value(Rest(x), w - 1)
  }

  function Chop(x: bv64, w: nat): seq<bv8> {
    if w == 0 then [] else [Low(x)] + Chop(Rest(x), w - 1)
  }

  lemma {:induction false} ChopNat(x: bv64, w: nat)
    ensures Nat(Chop(x, w)) == Value(x, w)
    decreases w
  {
    hide Low, Rest;
    if w > 0 {
      ChopNat(Rest(x), w - 1);
      assert Chop(x, w)[1..] == Chop(Rest(x), w - 1);
    }
  }

  function Drop(x: bv64, k: nat): bv64 {
    if k == 0 then x else Rest(Drop(x, k - 1))
  }

  lemma DropShifts(x: bv64)
    ensures Rest(x) == x >> 8 && Rest(x >> 8) == x >> 16 && Rest(x >> 16) == x >> 24 && Rest(x >> 24) == x >> 32
    ensures Rest(x >> 32) == x >> 40 && Rest(x >> 40) == x >> 48 && Rest(x >> 48) == x >> 56
  {
  }

  lemma DropFirst(x: bv64, k: nat)
    ensures Drop(Rest(x), k) == Drop(x, k + 1)
    decreases k
  {
    hide Rest;
  }

  lemma {:induction false} ChopAt(x: bv64, w: nat, k: nat)
    requires k < w
    ensures |Chop(x, w)| == w && Chop(x, w)[k] == Low(Drop(x, k))
    decreases w
  {
    hide Low, Rest;
    if w > 1 {
      ChopAt(Rest(x), w - 1, if k > 0 then k - 1 else 0);
      if k > 0 {
        DropFirst(x, k - 1);
      }
    }
  }

  lemma Drops(x: bv64)
    ensures Drop(x, 0) == x && Drop(x, 1) == x >> 8 && Drop(x, 2) == x >> 16 && Drop(x, 3) == x >> 24
    ensures Drop(x, 4) == x >> 32 && Drop(x, 5) == x >> 40 && Drop(x, 6) == x >> 48 && Drop(x, 7) == x >> 56
  {
    DropShifts(x);
    hide Rest;
    assert Drop(x, 1) == Rest(Drop(x, 0)) && Drop(x, 2) == Rest(Drop(x, 1)) && Drop(x, 3) == Rest(Drop(x, 2));
    assert Drop(x, 4) == Rest(Drop(x, 3)) && Drop(x, 5) == Rest(Drop(x, 4)) && Drop(x, 6) == Rest(Drop(x, 5));
    assert Drop(x, 7) == Rest(Drop(x, 6));
  }

  lemma BytesAt(x: bv64)
    ensures Bytes64(x) == [Low(x), Low(x >> 8), Low(x >> 16), Low(x >> 24),
                           Low(x >> 32), Low(x >> 40), Low(x >> 48), Low(x >> 56)]
  {
  }

  lemma ChopBytes(x: bv64)
    ensures Chop(x, 8) == Bytes64(x)
  {
    hide Low, Bytes64, Chop, Drop;
    Drops(x);
    BytesAt(x);
    forall k | 0 <= k < 8 ensures |Chop(x, 8)| == 8 && Chop(x, 8)[k] == Bytes64(x)[k] {
      ChopAt(x, 8, k);
    }
    ChopAt(x, 8, 0);
  }

  lemma ValueIsNat(x: bv64)
    ensures ToNat(x) == Value(x, 8)
  {
    hide Bytes64, Value, Chop;
    ChopNat(x, 8);
    ChopBytes(x);
  }

  // ---------------------------------------------------------------- Adding one

  function Inc(x: bv64): bv64 { x + 1 }

  predicate Full(x: bv64) { x & 0xFF == 0xFF }

  predicate Last(x: bv64) { x == 0xFFFF_FFFF_FFFF_FFFF }

  lemma IncLow(x: bv64)
    ensures !Full(x) ==> Rest(Inc(x)) == Rest(x)
    ensures Full(x) && !Last(x) ==> Rest(Inc(x)) == Inc(Rest(x))
  {
  }

  lemma IncLowByte(x: bv64)
    ensures !Full(x) ==> Low(x) != 0xFF && Low(Inc(x)) == Low(x) + 1
    ensures Full(x) ==> Low(x) == 0xFF && Low(Inc(x)) == 0
  {
  }

  lemma IncOctet(b: bv8)
    ensures b != 0xFF ==> Digit(b + 1) == Digit(b) + 1 && Digit(b) < 255
    ensures Digit(b) < 256 && Digit(0xFF) == 255 && Digit(0) == 0
  {
  }

  lemma IncLast()
    ensures Inc(0xFFFF_FFFF_FFFF_FFFF) == 0 && Last(0xFFFF_FFFF_FFFF_FFFF)
  {
  }

  lemma {:induction false} ZeroValue(w: nat)
    ensures Value(0, w) == 0
  {
    assert Low(0) == 0 && Rest(0) == 0;
    hide Low, Rest;
    if w > 0 {
      ZeroValue(w - 1);
    }
  }

  lemma LastNat()
    ensures ToNat(0xFFFF_FFFF_FFFF_FFFF) == TWO_64 - 1
  {
    var s := Bytes64(0xFFFF_FFFF_FFFF_FFFF);
    assert s == [0xFF, 0xFF, 0xFF, 0xFF, 0xFF, 0xFF, 0xFF, 0xFF];
    assert Nat(s[7..]) == 255 + 256 * Nat(s[8..]);
    assert s[6..][1..] == s[7..] && s[5..][1..] == s[6..] && s[4..][1..] == s[5..] && s[3..][1..] == s[4..];
    assert s[2..][1..] == s[3..] && s[1..][1..] == s[2..];
  }

  lemma ValueStep(x: bv64, w: nat)
    requires w > 0
    ensures Value(x, w) == Digit(Low(x)) + 256 * Value(Rest(x), w - 1) && Pow256(w) == 256 * Pow256(w - 1)
  {
  }

  // Below the last word, adding one adds one to the number.
  lemma {:induction false} IncValue(x: bv64, w: nat)
    requires !Last(x)
    ensures Value(x, w) < Pow256(w)
    ensures Value(Inc(x), w) == if Value(x, w) == Pow256(w) - 1 then 0 else Value(x, w) + 1
    decreases w
  {
    hide Low, Rest, Inc, Full, Last, Digit;
    if w > 0 {
      ValueStep(x, w);
      ValueStep(Inc(x), w);
      hide Value, Pow256;
      IncLow(x);
      IncLowByte(x);
      IncOctet(Low(x));
      NotLast(x);
      IncValue(Rest(x), w - 1);
    }
  }

  lemma NotLast(x: bv64)
    ensures !Last(Rest(x))
  {
  }

  lemma Successor(x: bv64)
    ensures ToNat(Inc(x)) == if Last(x) then 0 else ToNat(x) + 1
    ensures Last(x) <==> ToNat(x) == TWO_64 - 1
  {
    hide Inc, Last, Value, ToNat, FromNat;
    LastIs(x);
    LastNat();
    RegisterRoundTrip(x, TWO_64 - 1);
    RegisterRoundTrip(0xFFFF_FFFF_FFFF_FFFF, 0);
    if Last(x) {
      IncLast();
      ZeroValue(8);
      ValueIsNat(0);
    } else {
      ValueIsNat(x);
      ValueIsNat(Inc(x));
      IncValue(x, 8);
      Pow256Of8();
    }
  }

  lemma LastIs(x: bv64)
    ensures Last(x) <==> x == 0xFFFF_FFFF_FFFF_FFFF
  {
  }

  // ---------------------------------------------------------------- Sums and differences

  // Facts on the operators themselves, then on their names.
  lemma IncIs(y: bv64)
    ensures Inc(y) == y + 1
  {
  }

  lemma AddIs(x: bv64, y: bv64)
    ensures A.Add(x, y) == x + y
  {
  }

  lemma AddNext(x: bv64, y: bv64)
    ensures A.Add(x, y + 1) == Inc(x + y)
  {
  }

  lemma AddInc(x: bv64, y: bv64)
    ensures A.Add(x, Inc(y)) == Inc(A.Add(x, y))
  {
    hide A.Add, Inc;
    IncIs(y);
    AddIs(x, y);
    AddNext(x, y);
  }

  lemma AddZero(x: bv64)
    ensures A.Add(x, 0) == x
  {
  }

  lemma IncPred(y: bv64)
    ensures Inc(A.Sub(y, 1)) == y
  {
  }

  lemma Unique(x: bv64, y: bv64)
    ensures x == y <==> ToNat(x) == ToNat(y)
  {
    hide ToNat, FromNat;
    RegisterRoundTrip(x, 0);
    RegisterRoundTrip(y, 0);
  }

  lemma InWord(x: bv64)
    ensures ToNat(x) < TWO_64
  {
    hide ToNat, FromNat;
    RegisterRoundTrip(x, 0);
  }

  lemma ZeroNat()
    ensures ToNat(0) == 0
  {
    hide ToNat;
    ZeroValue(8);
    ValueIsNat(0);
  }

  lemma {:induction false} Sum(x: bv64, y: bv64)
    ensures ToNat(A.Add(x, y)) == (ToNat(x) + ToNat(y)) % TWO_64
    decreases ToNat(y)
  {
    hide ToNat, Inc, Last, A.Add, A.Sub;
    ZeroNat();
    InWord(x);
    InWord(A.Add(x, y));
    if y == 0 {
      AddZero(x);
      ModUnique(ToNat(x), TWO_64, 0, ToNat(x));
    } else {
      var p := A.Sub(y, 1);
      AddInc(x, p);
      IncPred(y);
      Unique(y, 0);
      Successor(p);
      Sum(x, p);
      Successor(A.Add(x, p));
      NextMod(ToNat(x) + ToNat(p));
    }
  }

  lemma NextMod(n: nat)
    ensures (n + 1) % TWO_64 == if n % TWO_64 == TWO_64 - 1 then 0 else n % TWO_64 + 1
  {
    var q, r := n / TWO_64, n % TWO_64;
    if r == TWO_64 - 1 {
      ModUnique(n + 1, TWO_64, q + 1, 0);
    } else {
      ModUnique(n + 1, TWO_64, q, r + 1);
    }
  }

  lemma SubIs(x: bv64, y: bv64)
    ensures A.Sub(x, y) == x - y
  {
  }

  lemma AddBack(x: bv64, y: bv64)
    ensures A.Add(x - y, y) == x
  {
  }

  lemma SubAdd(x: bv64, y: bv64)
    ensures A.Add(A.Sub(x, y), y) == x
  {
    hide A.Add, A.Sub;
    SubIs(x, y);
    AddBack(x, y);
  }

  lemma Difference(x: bv64, y: bv64)
    ensures ToNat(A.Sub(x, y)) == (ToNat(x) - ToNat(y)) % TWO_64
  {
    hide ToNat, A.Add, A.Sub;
    var d := A.Sub(x, y);
    SubAdd(x, y);
    Sum(d, y);
    InWord(d);
    InWord(x);
    InWord(y);
    if ToNat(d) + ToNat(y) < TWO_64 {
      ModUnique(ToNat(d) + ToNat(y), TWO_64, 0, ToNat(d) + ToNat(y));
      ModUnique(ToNat(x) - ToNat(y), TWO_64, 0, ToNat(d));
    } else {
      ModUnique(ToNat(d) + ToNat(y), TWO_64, 1, ToNat(d) + ToNat(y) - TWO_64);
      ModUnique(ToNat(x) - ToNat(y), TWO_64, -1, ToNat(d));
    }
  }

  // ---------------------------------------------------------------- Order

  // Little-endian numbers of equal length compare by their last bytes first.
  lemma {:induction false} NatLast(s: seq<bv8>)
    requires s != []
    ensures Nat(s) == Nat(s[..|s| - 1]) + Pow256(|s| - 1) * (s[|s| - 1] as nat)
  {
    var n := |s| - 1;
    if n > 0 {
      var t := s[1..];
      NatLast(t);
      assert s[..n][1..] == t[..n - 1] && t[n - 1] == s[n];
      Carry(Nat(t[..n - 1]), Pow256(n - 1), s[n] as nat);
    }
  }

  lemma Carry(a: nat, p: nat, b: nat)
    ensures 256 * (a + p * b) == 256 * a + (256 * p) * b
  {
  }

  predicate Below(s: seq<bv8>, t: seq<bv8>) {
    Nat(s) < Nat(t)
  }

  lemma BelowByLast(s: seq<bv8>, t: seq<bv8>)
    requires |s| == |t| && s != []
    ensures var n := |s| - 1;
            Below(s, t) <==> s[n] as nat < t[n] as nat || (s[n] == t[n] && Below(s[..n], t[..n]))
  {
    var n := |s| - 1;
    NatLast(s);
    NatLast(t);
    BytesOfNat(s[..n]);
    BytesOfNat(t[..n]);
    OctetOrder(s[n], t[n]);
    Digits(Nat(s[..n]), Nat(t[..n]), s[n] as nat, t[n] as nat, Pow256(n));
  }

  lemma Digits(a: nat, b: nat, x: nat, y: nat, p: nat)
    requires a < p && b < p
    ensures a + p * x < b + p * y <==> x < y || (x == y && a < b)
  {
    if x < y {
      Step(p, x, y);
    } else if y < x {
      Step(p, y, x);
    }
  }

  lemma Step(p: nat, x: nat, y: nat)
    requires x < y
    ensures p * x + p <= p * y
  {
    assert p * y == p * x + p * (y - x);
    A.MulMono(1, y - x, p);
  }

  lemma OctetOrder(b: bv8, c: bv8)
    ensures b < c <==> b as nat < c as nat
    ensures b == c <==> b as nat == c as nat
  {
  }

  predicate Lt(x: bv64, y: bv64) { x < y }

  predicate LtByte(b: bv8, c: bv8) { b < c }

  // x and y compare by the bytes b and c first, then as x' and y'.
  predicate Decide(x: bv64, y: bv64, b: bv8, c: bv8, x': bv64, y': bv64) {
    Lt(x, y) <==> LtByte(b, c) || (b == c && Lt(x', y'))
  }

  // Words compare by their highest byte first.
  lemma Bytes1(x: bv64, y: bv64)
    ensures Decide(x & 0xFF, y & 0xFF, (x & 0xFF) as bv8, (y & 0xFF) as bv8, 0, 0)
  {
  }

  lemma Bytes2(x: bv64, y: bv64)
    ensures Decide(x & 0xFFFF, y & 0xFFFF, ((x >> 8) & 0xFF) as bv8, ((y >> 8) & 0xFF) as bv8, x & 0xFF, y & 0xFF)
  {
  }

  lemma Bytes3(x: bv64, y: bv64)
    ensures Decide(x & 0xFF_FFFF, y & 0xFF_FFFF, ((x >> 16) & 0xFF) as bv8, ((y >> 16) & 0xFF) as bv8,
                   x & 0xFFFF, y & 0xFFFF)
  {
  }

  lemma Bytes4(x: bv64, y: bv64)
    ensures Decide(x & 0xFFFF_FFFF, y & 0xFFFF_FFFF, ((x >> 24) & 0xFF) as bv8, ((y >> 24) & 0xFF) as bv8,
                   x & 0xFF_FFFF, y & 0xFF_FFFF)
  {
  }

  lemma Bytes5(x: bv64, y: bv64)
    ensures Decide(x & 0xFF_FFFF_FFFF, y & 0xFF_FFFF_FFFF, ((x >> 32) & 0xFF) as bv8, ((y >> 32) & 0xFF) as bv8,
                   x & 0xFFFF_FFFF, y & 0xFFFF_FFFF)
  {
  }

  lemma Bytes6(x: bv64, y: bv64)
    ensures Decide(x & 0xFFFF_FFFF_FFFF, y & 0xFFFF_FFFF_FFFF, ((x >> 40) & 0xFF) as bv8, ((y >> 40) & 0xFF) as bv8,
                   x & 0xFF_FFFF_FFFF, y & 0xFF_FFFF_FFFF)
  {
  }

  lemma Bytes7(x: bv64, y: bv64)
    ensures Decide(x & 0xFF_FFFF_FFFF_FFFF, y & 0xFF_FFFF_FFFF_FFFF,
                   ((x >> 48) & 0xFF) as bv8, ((y >> 48) & 0xFF) as bv8,
                   x & 0xFFFF_FFFF_FFFF, y & 0xFFFF_FFFF_FFFF)
  {
  }

  lemma Bytes8(x: bv64, y: bv64)
    ensures Decide(x, y, ((x >> 56) & 0xFF) as bv8, ((y >> 56) & 0xFF) as bv8,
                   x & 0xFF_FFFF_FFFF_FFFF, y & 0xFF_FFFF_FFFF_FFFF)
  {
  }

  lemma BelowPrefix(s: seq<bv8>, t: seq<bv8>, k: nat)
    requires |s| == |t| == 8 && 1 <= k <= 8
    ensures Below(s[..k], t[..k])
       <==> (LtByte(s[k - 1], t[k - 1]) || (s[k - 1] == t[k - 1] && Below(s[..k - 1], t[..k - 1])))
  {
    hide Below;
    BelowByLast(s[..k], t[..k]);
    OctetOrder(s[k - 1], t[k - 1]);
    assert s[..k][..k - 1] == s[..k - 1] && t[..k][..k - 1] == t[..k - 1];
  }

  // The low k bytes of a word.
  function LowBits(x: bv64, k: nat): bv64 {
    match k
    case 0 => 0
    case 1 => x & 0xFF
    case 2 => x & 0xFFFF
    case 3 => x & 0xFF_FFFF
    case 4 => x & 0xFFFF_FFFF
    case 5 => x & 0xFF_FFFF_FFFF
    case 6 => x & 0xFFFF_FFFF_FFFF
    case 7 => x & 0xFF_FFFF_FFFF_FFFF
    case _ => x
  }

  function ByteOf(x: bv64, k: nat): bv8
    requires k < 8
  {
    Bytes64(x)[k]
  }

  // The words and the bytes compared next, k of eight bytes to go.
  predicate DecideAt(x: bv64, y: bv64, k: nat)
    requires 1 <= k <= 8
  {
    Decide(LowBits(x, k), LowBits(y, k), ByteOf(x, k - 1), ByteOf(y, k - 1), LowBits(x, k - 1), LowBits(y, k - 1))
  }

  lemma Names1(x: bv64)
    ensures LowBits(x, 1) == x & 0xFF && LowBits(x, 0) == 0 && ByteOf(x, 0) == (x & 0xFF) as bv8
  {
  }

  lemma Decide1(x: bv64, y: bv64)
    ensures DecideAt(x, y, 1)
  {
    hide Decide, LowBits, ByteOf;
    Names1(x);
    Names1(y);
    Bytes1(x, y);
  }

  lemma Names2(x: bv64)
    ensures LowBits(x, 2) == x & 0xFFFF && LowBits(x, 1) == x & 0xFF
    ensures ByteOf(x, 1) == ((x >> 8) & 0xFF) as bv8
  {
  }

  lemma Decide2(x: bv64, y: bv64)
    ensures DecideAt(x, y, 2)
  {
    hide Decide, LowBits, ByteOf;
    Names2(x);
    Names2(y);
    Bytes2(x, y);
  }

  lemma Names3(x: bv64)
    ensures LowBits(x, 3) == x & 0xFF_FFFF && LowBits(x, 2) == x & 0xFFFF
    ensures ByteOf(x, 2) == ((x >> 16) & 0xFF) as bv8
  {
  }

  lemma Decide3(x: bv64, y: bv64)
    ensures DecideAt(x, y, 3)
  {
    hide Decide, LowBits, ByteOf;
    Names3(x);
    Names3(y);
    Bytes3(x, y);
  }

  lemma Names4(x: bv64)
    ensures LowBits(x, 4) == x & 0xFFFF_FFFF && LowBits(x, 3) == x & 0xFF_FFFF
    ensures ByteOf(x, 3) == ((x >> 24) & 0xFF) as bv8
  {
  }

  lemma Decide4(x: bv64, y: bv64)
    ensures DecideAt(x, y, 4)
  {
    hide Decide, LowBits, ByteOf;
    Names4(x);
    Names4(y);
    Bytes4(x, y);
  }

  lemma Names5(x: bv64)
    ensures LowBits(x, 5) == x & 0xFF_FFFF_FFFF && LowBits(x, 4) == x & 0xFFFF_FFFF
    ensures ByteOf(x, 4) == ((x >> 32) & 0xFF) as bv8
  {
  }

  lemma Decide5(x: bv64, y: bv64)
    ensures DecideAt(x, y, 5)
  {
    hide Decide, LowBits, ByteOf;
    Names5(x);
    Names5(y);
    Bytes5(x, y);
  }

  lemma Names6(x: bv64)
    ensures LowBits(x, 6) == x & 0xFFFF_FFFF_FFFF && LowBits(x, 5) == x & 0xFF_FFFF_FFFF
    ensures ByteOf(x, 5) == ((x >> 40) & 0xFF) as bv8
  {
  }

  lemma Decide6(x: bv64, y: bv64)
    ensures DecideAt(x, y, 6)
  {
    hide Decide, LowBits, ByteOf;
    Names6(x);
    Names6(y);
    Bytes6(x, y);
  }

  lemma Names7(x: bv64)
    ensures LowBits(x, 7) == x & 0xFF_FFFF_FFFF_FFFF && LowBits(x, 6) == x & 0xFFFF_FFFF_FFFF
    ensures ByteOf(x, 6) == ((x >> 48) & 0xFF) as bv8
  {
  }

  lemma Decide7(x: bv64, y: bv64)
    ensures DecideAt(x, y, 7)
  {
    hide Decide, LowBits, ByteOf;
    Names7(x);
    Names7(y);
    Bytes7(x, y);
  }

  lemma Names8(x: bv64)
    ensures LowBits(x, 8) == x && LowBits(x, 7) == x & 0xFF_FFFF_FFFF_FFFF && ByteOf(x, 7) == ((x >> 56) & 0xFF) as bv8
  {
  }

  lemma Decide8(x: bv64, y: bv64)
    ensures DecideAt(x, y, 8)
  {
    hide Decide, LowBits, ByteOf;
    Names8(x);
    Names8(y);
    Bytes8(x, y);
  }

  lemma Decides(x: bv64, y: bv64, k: nat)
    requires 1 <= k <= 8
    ensures DecideAt(x, y, k)
  {
    hide DecideAt;
    match k
    case 1 => Decide1(x, y);
    case 2 => Decide2(x, y);
    case 3 => Decide3(x, y);
    case 4 => Decide4(x, y);
    case 5 => Decide5(x, y);
    case 6 => Decide6(x, y);
    case 7 => Decide7(x, y);
    case _ => Decide8(x, y);
  }

  lemma {:induction false} OrderLow(x: bv64, y: bv64, k: nat)
    requires k <= 8
    ensures Lt(LowBits(x, k), LowBits(y, k)) <==> Below(Bytes64(x)[..k], Bytes64(y)[..k])
    decreases k
  {
    if k == 0 {
      Irreflexive();
      NoneBelow(Bytes64(x)[..0], Bytes64(y)[..0]);
    } else {
      hide Lt, LtByte, Below, LowBits, Bytes64;
      OrderLow(x, y, k - 1);
      Decides(x, y, k);
      BelowPrefix(Bytes64(x), Bytes64(y), k);
    }
  }

  // The order of words is the order of their numbers.
  lemma Order(x: bv64, y: bv64)
    ensures Lt(x, y) <==> ToNat(x) < ToNat(y)
  {
    OrderLow(x, y, 8);
    hide Lt, Bytes64, Nat;
    assert Bytes64(x)[..8] == Bytes64(x) && Bytes64(y)[..8] == Bytes64(y);
  }

  lemma Irreflexive()
    ensures !Lt(0, 0)
  {
  }

  lemma NoneBelow(s: seq<bv8>, t: seq<bv8>)
    requires t == []
    ensures !Below(s, t)
  {
  }

  // ---------------------------------------------------------------- Signed readings

  const MIN: nat := 0x8000_0000_0000_0000

  // The two's complement reading of a word.
  function Int(x: bv64): int {
    if ToNat(x) >= MIN then ToNat(x) - TWO_64 else ToNat(x)
  }

  function Flip(x: bv64): bv64 { x ^ 0x8000_0000_0000_0000 }

  lemma FlipAdds(x: bv64)
    ensures Flip(x) == A.Add(x, 0x8000_0000_0000_0000)
  {
  }

  lemma NatStep(s: seq<bv8>, k: nat)
    requires k < |s|
    ensures Nat(s[k..]) == Digit(s[k]) + 256 * Nat(s[k + 1..])
  {
    assert s[k..][1..] == s[k + 1..];
  }

  lemma Nat4(s: seq<bv8>, k: nat)
    requires k + 4 <= |s|
    ensures Nat(s[k..]) == Digit(s[k]) + 256 * Digit(s[k + 1]) + 0x1_0000 * Digit(s[k + 2])
                         + 0x100_0000 * Digit(s[k + 3]) + 0x1_0000_0000 * Nat(s[k + 4..])
  {
    hide Nat, Digit;
    NatStep(s, k);
    NatStep(s, k + 1);
    NatStep(s, k + 2);
    NatStep(s, k + 3);
  }

  lemma Nat8(s: seq<bv8>)
    requires |s| == 8
    ensures Nat(s) == Digit(s[0]) + 256 * Digit(s[1]) + 0x1_0000 * Digit(s[2]) + 0x100_0000 * Digit(s[3])
                    + 0x1_0000_0000 * Digit(s[4]) + 0x100_0000_0000 * Digit(s[5])
                    + 0x1_0000_0000_0000 * Digit(s[6]) + 0x100_0000_0000_0000 * Digit(s[7])
  {
    NatNone();
    assert s[0..] == s && s[8..] == [];
    hide Nat, Digit;
    Nat4(s, 0);
    Nat4(s, 4);
  }

  lemma NatNone()
    ensures Nat([]) == 0
  {
  }

  lemma MinNat()
    ensures ToNat(0x8000_0000_0000_0000) == MIN
  {
    var s := Bytes64(0x8000_0000_0000_0000);
    assert s == [0, 0, 0, 0, 0, 0, 0, 0x80];
    Nat8(s);
  }

  lemma Flipped(x: bv64)
    ensures ToNat(Flip(x)) == Int(x) + MIN
  {
    hide ToNat, Flip, A.Add;
    FlipAdds(x);
    MinNat();
    InWord(x);
    Sum(x, 0x8000_0000_0000_0000);
    if ToNat(x) >= MIN {
      ModUnique(ToNat(x) + MIN, TWO_64, 1, ToNat(x) - MIN);
    } else {
      ModUnique(ToNat(x) + MIN, TWO_64, 0, ToNat(x) + MIN);
    }
  }

  lemma LessFlips(x: bv64, y: bv64)
    ensures A.Less(x, y) == Lt(Flip(x), Flip(y)) && A.LessU(x, y) == Lt(x, y)
  {
  }

  // The two comparisons are those of the numbers.
  lemma Comparisons(x: bv64, y: bv64)
    ensures A.Less(x, y) <==> Int(x) < Int(y)
    ensures A.LessU(x, y) <==> ToNat(x) < ToNat(y)
  {
    hide ToNat, Flip, A.Less, A.LessU, Lt, Int;
    LessFlips(x, y);
    Flipped(x);
    Flipped(y);
    Order(x, y);
    Order(Flip(x), Flip(y));
  }

  // ---------------------------------------------------------------- Halves and bits

  function Half(x: bv64): bv64 { x >> 1 }

  predicate Odd(x: bv64) { x & 1 != 0 }

  lemma HalfSum(x: bv64)
    ensures if Odd(x) then x == Inc(A.Add(Half(x), Half(x))) else x == A.Add(Half(x), Half(x))
    ensures Lt(Half(x), 0x8000_0000_0000_0000)
    ensures !Odd(A.Add(Half(x), Half(x)))
  {
  }

  // Shifting a bit out halves the number.
  lemma Halved(x: bv64)
    ensures ToNat(Half(x)) == ToNat(x) / 2
    ensures Odd(x) <==> ToNat(x) % 2 == 1
  {
    hide ToNat, Half, Odd, A.Add, Lt, Inc, Last;
    var h := Half(x);
    HalfSum(x);
    Order(h, 0x8000_0000_0000_0000);
    MinNat();
    Sum(h, h);
    ModUnique(2 * ToNat(h), TWO_64, 0, 2 * ToNat(h));
    if Odd(x) {
      Successor(A.Add(h, h));
    }
  }

  function Pow2(k: nat): (r: nat)
    ensures r > 0
  {
    if k == 0 then 1 else 2 * Pow2(k - 1)
  }

  function Sh4(x: bv64): bv64 { x >> 4 }

  lemma FourHalves(x: bv64)
    ensures Sh4(x) == Half(Half(Half(Half(x))))
  {
  }

  lemma Sixteenth(x: bv64)
    ensures ToNat(Sh4(x)) == ToNat(x) / 16
  {
    hide ToNat, Half, Sh4;
    FourHalves(x);
    Halved(x);
    Halved(Half(x));
    Halved(Half(Half(x)));
    Halved(Half(Half(Half(x))));
  }

  // Shifts by the amounts that translation uses.
  lemma ShiftSteps(x: bv64)
    ensures Sh4(x) == x >> 4 && Sh4(x >> 4) == x >> 8 && Half(x >> 8) == x >> 9 && Half(x >> 9) == x >> 10
    ensures Sh4(x >> 8) == x >> 12 && Sh4(x >> 12) == x >> 16 && Sh4(x >> 16) == x >> 20 && Half(x >> 20) == x >> 21
    ensures Sh4(x >> 20) == x >> 24 && Sh4(x >> 24) == x >> 28 && Half(x >> 28) == x >> 29 && Half(x >> 29) == x >> 30
  {
  }

  lemma HighSteps(x: bv64)
    ensures Sh4(x >> 28) == x >> 32 && Sh4(x >> 32) == x >> 36 && Sh4(x >> 36) == x >> 40 && Sh4(x >> 40) == x >> 44
    ensures Sh4(x >> 44) == x >> 48 && Sh4(x >> 48) == x >> 52 && Sh4(x >> 52) == x >> 56 && Sh4(x >> 56) == x >> 60
  {
  }

  lemma Shift12(x: bv64)
    ensures ToNat(x >> 8) == ToNat(x) / 0x100 && ToNat(x >> 10) == ToNat(x) / 0x400
    ensures ToNat(x >> 12) == ToNat(x) / 0x1000
  {
    hide ToNat, Half, Sh4;
    ShiftSteps(x);
    Sixteenth(x);
    Sixteenth(x >> 4);
    Sixteenth(x >> 8);
    Halved(x >> 8);
    Halved(x >> 9);
  }

  lemma Shift30(x: bv64)
    ensures ToNat(x >> 21) == ToNat(x) / 0x20_0000 && ToNat(x >> 28) == ToNat(x) / 0x1000_0000
    ensures ToNat(x >> 30) == ToNat(x) / 0x4000_0000
  {
    hide ToNat, Half, Sh4;
    Shift12(x);
    ShiftSteps(x);
    Sixteenth(x >> 12);
    Sixteenth(x >> 16);
    Sixteenth(x >> 20);
    Sixteenth(x >> 24);
    Halved(x >> 20);
    Halved(x >> 28);
    Halved(x >> 29);
  }

  lemma Shift60(x: bv64)
    ensures ToNat(x >> 44) == ToNat(x) / 0x1000_0000_0000 && ToNat(x >> 60) == ToNat(x) / 0x1000_0000_0000_0000
  {
    hide ToNat, Sh4;
    Shift30(x);
    HighSteps(x);
    Sixteenth(x >> 28);
    Sixteenth(x >> 32);
    Sixteenth(x >> 36);
    Sixteenth(x >> 40);
    Sixteenth(x >> 44);
    Sixteenth(x >> 48);
    Sixteenth(x >> 52);
    Sixteenth(x >> 56);
  }

  function Twice(x: bv64): bv64 { x << 1 }

  lemma TwiceAdds(x: bv64)
    ensures Twice(x) == A.Add(x, x)
  {
  }

  lemma Doubled(x: bv64)
    requires 2 * ToNat(x) < TWO_64
    ensures ToNat(Twice(x)) == 2 * ToNat(x)
  {
    hide ToNat, Twice, A.Add;
    TwiceAdds(x);
    Sum(x, x);
    ModUnique(2 * ToNat(x), TWO_64, 0, 2 * ToNat(x));
  }

  lemma TwiceSteps(x: bv64)
    ensures Twice(x) == x << 1 && Twice(x << 1) == x << 2 && Twice(x << 2) == x << 3 && Twice(x << 3) == x << 4
    ensures Twice(x << 4) == x << 5 && Twice(x << 5) == x << 6 && Twice(x << 6) == x << 7 && Twice(x << 7) == x << 8
    ensures Twice(x << 8) == x << 9 && Twice(x << 9) == x << 10 && Twice(x << 10) == x << 11
    ensures Twice(x << 11) == x << 12
  {
  }

  lemma ShiftedUp(x: bv64)
    requires ToNat(x) < 0x10_0000_0000_0000
    ensures ToNat(x << 12) == ToNat(x) * 4096
  {
    hide ToNat, Twice;
    TwiceSteps(x);
    Doubled(x);
    Doubled(x << 1);
    Doubled(x << 2);
    Doubled(x << 3);
    Doubled(x << 4);
    Doubled(x << 5);
    Doubled(x << 6);
    Doubled(x << 7);
    Doubled(x << 8);
    Doubled(x << 9);
    Doubled(x << 10);
    Doubled(x << 11);
  }

  // ---------------------------------------------------------------- Bits of numbers

  // The bitwise or, and, and exclusive or of two numbers.
  function OrNat(a: nat, b: nat): (r: nat)
    decreases a + b
  {
    if a == 0 && b == 0 then 0 else 2 * OrNat(a / 2, b / 2) + if a % 2 == 1 || b % 2 == 1 then 1 else 0
  }

  function AndNat(a: nat, b: nat): (r: nat)
    decreases a + b
  {
    if a == 0 && b == 0 then 0 else 2 * AndNat(a / 2, b / 2) + if a % 2 == 1 && b % 2 == 1 then 1 else 0
  }

  function XorNat(a: nat, b: nat): (r: nat)
    decreases a + b
  {
    if a == 0 && b == 0 then 0 else 2 * XorNat(a / 2, b / 2) + if a % 2 != b % 2 then 1 else 0
  }

  // Halving and the lowest bit go through the bitwise operations: first on the operators, then
  // on their names.
  lemma HalfIs(x: bv64)
    ensures Half(x) == x >> 1
  {
  }

  lemma OrIs(x: bv64, y: bv64)
    ensures A.Or(x, y) == x | y
  {
  }

  lemma OrHalves(x: bv64, y: bv64)
    ensures Half(x | y) == A.Or(x >> 1, y >> 1)
  {
  }

  lemma OrOdd(x: bv64, y: bv64)
    ensures Odd(x | y) <==> Odd(x) || Odd(y)
  {
  }

  lemma HalfOr(x: bv64, y: bv64)
    ensures Half(A.Or(x, y)) == A.Or(Half(x), Half(y)) && (Odd(A.Or(x, y)) <==> Odd(x) || Odd(y))
  {
    hide Half, Odd, A.Or;
    OrIs(x, y);
    OrHalves(x, y);
    OrOdd(x, y);
    HalfIs(x);
    HalfIs(y);
  }

  lemma AndIs(x: bv64, y: bv64)
    ensures A.And(x, y) == x & y
  {
  }

  lemma AndHalves(x: bv64, y: bv64)
    ensures Half(x & y) == A.And(x >> 1, y >> 1)
  {
  }

  lemma AndOdd(x: bv64, y: bv64)
    ensures Odd(x & y) <==> Odd(x) && Odd(y)
  {
  }

  lemma HalfAnd(x: bv64, y: bv64)
    ensures Half(A.And(x, y)) == A.And(Half(x), Half(y)) && (Odd(A.And(x, y)) <==> Odd(x) && Odd(y))
  {
    hide Half, Odd, A.And;
    AndIs(x, y);
    AndHalves(x, y);
    AndOdd(x, y);
    HalfIs(x);
    HalfIs(y);
  }

  lemma XorIs(x: bv64, y: bv64)
    ensures A.Xor(x, y) == x ^ y
  {
  }

  lemma XorHalves(x: bv64, y: bv64)
    ensures Half(x ^ y) == A.Xor(x >> 1, y >> 1)
  {
  }

  lemma XorOdd(x: bv64, y: bv64)
    ensures Odd(x ^ y) <==> Odd(x) != Odd(y)
  {
  }

  lemma HalfXor(x: bv64, y: bv64)
    ensures Half(A.Xor(x, y)) == A.Xor(Half(x), Half(y)) && (Odd(A.Xor(x, y)) <==> Odd(x) != Odd(y))
  {
    hide Half, Odd, A.Xor;
    XorIs(x, y);
    XorHalves(x, y);
    XorOdd(x, y);
    HalfIs(x);
    HalfIs(y);
  }

  lemma ZeroBitwise()
    ensures A.Or(0, 0) == 0 && A.And(0, 0) == 0 && A.Xor(0, 0) == 0
  {
  }

  lemma Zero(x: bv64)
    ensures ToNat(x) == 0 <==> x == 0
  {
    hide ToNat;
    ZeroNat();
    Unique(x, 0);
  }

  lemma {:induction false} OrNumber(x: bv64, y: bv64)
    ensures ToNat(A.Or(x, y)) == OrNat(ToNat(x), ToNat(y))
    decreases ToNat(x) + ToNat(y)
  {
    hide ToNat, Half, Odd, A.Or;
    HalfOr(x, y);
    ZeroBitwise();
    Zero(x);
    Zero(y);
    ZeroNat();
    if ToNat(x) + ToNat(y) > 0 {
      Halved(x);
      Halved(y);
      Halved(A.Or(x, y));
      OrNumber(Half(x), Half(y));
    }
  }

  lemma {:induction false} AndNumber(x: bv64, y: bv64)
    ensures ToNat(A.And(x, y)) == AndNat(ToNat(x), ToNat(y))
    decreases ToNat(x) + ToNat(y)
  {
    hide ToNat, Half, Odd, A.And;
    HalfAnd(x, y);
    ZeroBitwise();
    Zero(x);
    Zero(y);
    ZeroNat();
    if ToNat(x) + ToNat(y) > 0 {
      Halved(x);
      Halved(y);
      Halved(A.And(x, y));
      AndNumber(Half(x), Half(y));
    }
  }

  lemma {:induction false} XorNumber(x: bv64, y: bv64)
    ensures ToNat(A.Xor(x, y)) == XorNat(ToNat(x), ToNat(y))
    decreases ToNat(x) + ToNat(y)
  {
    hide ToNat, Half, Odd, A.Xor;
    HalfXor(x, y);
    ZeroBitwise();
    Zero(x);
    Zero(y);
    ZeroNat();
    if ToNat(x) + ToNat(y) > 0 {
      Halved(x);
      Halved(y);
      Halved(A.Xor(x, y));
      XorNumber(Half(x), Half(y));
    }
  }

  lemma AndStep(a: nat, b: nat)
    ensures AndNat(a, b) == 2 * AndNat(a / 2, b / 2) + if a % 2 == 1 && b % 2 == 1 then 1 else 0
  {
  }

  lemma OddMask(p: nat)
    requires p > 0
    ensures (2 * p - 1) / 2 == p - 1 && (2 * p - 1) % 2 == 1
  {
  }

  lemma MaskTail(n: nat, m: nat, p: nat)
    requires p > 0 && m == 2 * p && AndNat(n / 2, p - 1) == n / 2 % p
    ensures AndNat(n, m - 1) == n % m
  {
    hide AndNat;
    OddMask(p);
    AndStep(n, m - 1);
    ModParts(n, p);
  }

  // A mask of k ones keeps the remainder modulo 2^k.
  lemma {:induction false} MaskIsMod(n: nat, k: nat)
    ensures AndNat(n, Pow2(k) - 1) == n % Pow2(k)
    decreases k
  {
    if k == 0 {
      AndNone(n);
    } else {
      Pow2Next(k - 1);
      hide AndNat, Pow2;
      MaskIsMod(n / 2, k - 1);
      MaskTail(n, Pow2(k), Pow2(k - 1));
    }
  }

  lemma {:induction false} AndNone(n: nat)
    ensures AndNat(n, 0) == 0
  {
    if n > 0 {
      AndNone(n / 2);
    }
  }

  lemma ModParts(n: nat, p: nat)
    requires p > 0
    ensures n % (2 * p) == 2 * (n / 2 % p) + n % 2
  {
    var q, r := n / 2 / p, n / 2 % p;
    assert n == 2 * (n / 2) + n % 2 && n / 2 == p * q + r;
    assert (2 * p) * q == 2 * (p * q);
    ModUnique(n, 2 * p, q, 2 * r + n % 2);
  }

  // Keeping the low k bits of a word.
  lemma MaskKeeps(x: bv64, mask: bv64, k: nat)
    requires ToNat(mask) == Pow2(k) - 1
    ensures ToNat(A.And(x, mask)) == ToNat(x) % Pow2(k)
  {
    hide ToNat, A.And, AndNat, Pow2;
    AndNumber(x, mask);
    MaskIsMod(ToNat(x), k);
  }

  lemma {:induction false} Pow2Sum(j: nat, k: nat)
    ensures Pow2(j + k) == Pow2(j) * Pow2(k)
    decreases j
  {
    if j > 0 {
      Pow2Next(j - 1);
      Pow2Next(j + k - 1);
      hide Pow2;
      Pow2Sum(j - 1, k);
      TwiceProduct(Pow2(j - 1), Pow2(k));
    } else {
      assert Pow2(0) == 1;
    }
  }

  lemma Pow2Next(k: nat)
    ensures Pow2(k + 1) == 2 * Pow2(k)
  {
  }

  lemma TwiceProduct(a: nat, b: nat)
    ensures (2 * a) * b == 2 * (a * b)
  {
  }

  lemma Pow2Of9()
    ensures Pow2(9) == 512
  {
  }

  // Numbers with no common bits: or is the sum.
  lemma {:induction false} OrIsSum(a: nat, b: nat, k: nat)
    requires a % Pow2(k) == 0 && b < Pow2(k)
    ensures OrNat(a, b) == a + b
    decreases k
  {
    if k == 0 {
      OrNone(a);
    } else {
      var p := Pow2(k - 1);
      var q := a / (2 * p);
      assert a == (2 * p) * q;
      assert a == 2 * (p * q);
      ModUnique(p * q, p, q, 0);
      OrIsSum(a / 2, b / 2, k - 1);
    }
  }

  lemma {:induction false} OrNone(a: nat)
    ensures OrNat(a, 0) == a
  {
    if a > 0 {
      OrNone(a / 2);
    }
  }

  // ---------------------------------------------------------------- Some words

  // A word of one byte.
  lemma ByteWord(b: bv8)
    ensures ToNat(b as bv64) == Digit(b)
  {
    assert Bytes64(b as bv64) == [b, 0, 0, 0, 0, 0, 0, 0] && Digit(0) == 0;
    hide Bytes64, Nat, Digit;
    Nat8(Bytes64(b as bv64));
  }

  lemma Small()
    ensures ToNat(0) == 0 && ToNat(1) == 1 && ToNat(2) == 2
  {
    ByteWord(0);
    ByteWord(1);
    ByteWord(2);
    assert Digit(0) == 0 && Digit(1) == 1 && Digit(2) == 2;
  }
}
