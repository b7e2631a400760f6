/** Integer arithmetic of the hart: 64-bit operations on register values, their 32-bit W
    forms, and multiplication and division through natural numbers. */
module Alu {
  import opened Words

  function Add(x: bv64, y: bv64): bv64 { x + y }

  function Sub(x: bv64, y: bv64): bv64 { x - y }

  function And(x: bv64, y: bv64): bv64 { x & y }

  function Or(x: bv64, y: bv64): bv64 { x | y }

  function Xor(x: bv64, y: bv64): bv64 { x ^ y }

  function AndNot(x: bv64, y: bv64): bv64 { x & !y }

  function Sll(x: bv64, n: bv6): bv64 { x << (n as bv64) }

  function Srl(x: bv64, n: bv6): bv64 { x >> (n as bv64) }

  function Sra(x: bv64, n: bv6): bv64 {
    if x & 0x8000_0000_0000_0000 != 0 then !((!x) >> (n as bv64)) else x >> (n as bv64)
  }

  // Signed order, by moving the sign bit to the middle of the unsigned range.
  predicate Less(x: bv64, y: bv64) {
    (x ^ 0x8000_0000_0000_0000) < (y ^ 0x8000_0000_0000_0000)
  }

  predicate LessU(x: bv64, y: bv64) { x < y }

  function Flag(b: bool): bv64 { if b then 1 else 0 }

  function Shamt6(x: bv64): bv6 { (x & 0x3F) as bv6 }

  function Shamt5(x: bv64): bv5 { (x & 0x1F) as bv5 }

  function Low32(x: bv64): bv32 { (x & 0xFFFF_FFFF) as bv32 }

  function Sext8(x: bv8): bv64 {
    if x & 0x80 != 0 then (x as bv64) | 0xFFFF_FFFF_FFFF_FF00 else x as bv64
  }

  function Sext16(x: bv16): bv64 {
    if x & 0x8000 != 0 then (x as bv64) | 0xFFFF_FFFF_FFFF_0000 else x as bv64
  }

  function Sext32(x: bv32): bv64 {
    if x & 0x8000_0000 != 0 then (x as bv64) | 0xFFFF_FFFF_0000_0000 else x as bv64
  }

  function Sra32(x: bv32, n: bv5): bv32 {
    if x & 0x8000_0000 != 0 then !((!x) >> (n as bv32)) else x >> (n as bv32)
  }

  function Add32(x: bv32, y: bv32): bv32 { x + y }

  function Sub32(x: bv32, y: bv32): bv32 { x - y }

  function Sll32(x: bv32, n: bv5): bv32 { x << (n as bv32) }

  function Srl32(x: bv32, n: bv5): bv32 { x >> (n as bv32) }

  // ---------------------------------------------------------------- Sign extension

  predicate Neg(x: bv32) { x & 0x8000_0000 != 0 }

  predicate Neg64(x: bv64) { x & 0x8000_0000_0000_0000 != 0 }

  function Wide(x: bv32): bv64 { x as bv64 }

  function High(x: bv32): bv64 { (x as bv64) | 0xFFFF_FFFF_0000_0000 }

  lemma SextParts(x: bv32)
    ensures Sext32(x) == if Neg(x) then High(x) else Wide(x)
    ensures !Neg64(Wide(x)) && Neg64(High(x))
    ensures Low32(Wide(x)) == x
    ensures Low32(High(x)) == x
  {
  }

  lemma LowSext(x: bv32)
    ensures Low32(Sext32(x)) == x
  {
    hide Low32, Sext32, High, Wide, Neg;
    SextParts(x);
  }

  // ---------------------------------------------------------------- Multiply and divide

  // The signed reading of an n-valued word.
  function Signed(x: nat, modulus: nat): int {
    if 2 * x >= modulus then x - modulus else x
  }

  // C division and remainder truncate toward zero.
  function DivT(a: int, b: int): int
    requires b != 0
  {
    if (a < 0) == (b < 0) then Abs(a) / Abs(b) else -(Abs(a) / Abs(b))
  }

  function RemT(a: int, b: int): int
    requires b != 0
  {
    if a < 0 then -(Abs(a) % Abs(b)) else a % Abs(b)
  }

  function Abs(a: int): nat {
    if a < 0 then -a else a
  }

  // The word that represents a, modulo the word size.
  function Wrap(a: int, modulus: nat): (r: nat)
    requires modulus > 0
    ensures r < modulus
  {
    a % modulus
  }

  datatype MulOp = Mul | MulH | MulHSU | MulHU | Div | DivU | Rem | RemU

  /** The multiply and divide cases over words of a given size, as the code computes them.
      The three high products all multiply the unsigned readings. None: the quotient of the
      least signed word by -1, which C leaves undefined. */
  function MulDiv(op: MulOp, a: nat, b: nat, modulus: nat): (r: Option<nat>)
    requires modulus > 1 && a < modulus && b < modulus
    ensures r.Some? ==> r.value < modulus
  {
    match op
    case Mul => Some((a * b) % modulus)
    case MulH => Some(HighProduct(a, b, modulus))
    case MulHSU => Some(HighProduct(a, b, modulus))
    case MulHU => Some(HighProduct(a, b, modulus))
    case DivU => if b == 0 then Some(modulus - 1) else DivUBelow(a, b); Some(a / b)
    case RemU => Some(if b == 0 then a else a % b)
    case Div =>
      if b == 0 then Some(modulus - 1)
      else if Overflows(a, b, modulus) then None
      else Some(Wrap(DivT(Signed(a, modulus), Signed(b, modulus)), modulus))
    case Rem =>
      if b == 0 then Some(a)
      else if Overflows(a, b, modulus) then None
      else Some(Wrap(RemT(Signed(a, modulus), Signed(b, modulus)), modulus))
  }

  predicate Overflows(a: nat, b: nat, modulus: nat) {
    2 * a == modulus && b == modulus - 1
  }

  lemma DivUBelow(a: nat, b: nat)
    requires b > 0
    ensures a / b <= a
  {
    var q := a / b;
    MulMono(1, b, q);
    assert a == b * q + a % b;
  }

  lemma MulMono(x: nat, y: nat, z: nat)
    ensures x <= y ==> x * z <= y * z
  {
    if x <= y {
      assert y * z == x * z + (y - x) * z;
      assert (y - x) * z >= 0;
    }
  }

  function HighProduct(a: nat, b: nat, modulus: nat): (r: nat)
    requires a < modulus && b < modulus
    ensures r < modulus
  {
    HighBelow(a, b, modulus);
    a * b / modulus
  }

  lemma BelowSquare(a: nat, b: nat, m: nat)
    requires a < m && b < m
    ensures a * b < m * m
  {
    MulMono(b, m, a);
    MulMono(a + 1, m, m);
    assert a * b == b * a && m * a == a * m && (a + 1) * m == a * m + m;
  }

  lemma QuotientBelow(n: nat, m: nat, q: nat)
    requires m * q <= n < m * m
    ensures q < m
  {
    MulMono(m, q, m);
    assert m * q == q * m;
  }

  lemma HighBelow(a: nat, b: nat, m: nat)
    requires a < m && b < m
    ensures a * b / m < m
  {
    var n := a * b;
    BelowSquare(a, b, m);
    assert n == m * (n / m) + n % m;
    QuotientBelow(n, m, n / m);
  }
}
