/** Machine words, their little-endian bytes, and the two readings of a word: as a
    bit-vector (registers, page-table entries, CSRs) and as a natural number
    (arithmetic, ring indices). */
module Words {
  import opened Octet

  datatype Option<+T> = None | Some(value: T)

  const TWO_32: nat := 0x1_0000_0000
  const TWO_64: nat := 0x1_0000_0000_0000_0000

  function Bytes16(v: bv16): (s: seq<bv8>)
    ensures |s| == 2
  {
    [(v & 0xFF) as bv8, ((v >> 8) & 0xFF) as bv8]
  }

  function Bytes32(v: bv32): (s: seq<bv8>)
    ensures |s| == 4
  {
    [(v & 0xFF) as bv8, ((v >> 8) & 0xFF) as bv8, ((v >> 16) & 0xFF) as bv8, ((v >> 24) & 0xFF) as bv8]
  }

  function Bytes64(v: bv64): (s: seq<bv8>)
    ensures |s| == 8
  {
    [(v & 0xFF) as bv8, ((v >> 8) & 0xFF) as bv8, ((v >> 16) & 0xFF) as bv8, ((v >> 24) & 0xFF) as bv8,
     ((v >> 32) & 0xFF) as bv8, ((v >> 40) & 0xFF) as bv8, ((v >> 48) & 0xFF) as bv8, ((v >> 56) & 0xFF) as bv8]
  }

  function Word16(s: seq<bv8>): bv16
    requires |s| == 2
  {
    s[0] as bv16 | ((s[1] as bv16) << 8)
  }

  function Word32(s: seq<bv8>): bv32
    requires |s| == 4
  {
    s[0] as bv32 | ((s[1] as bv32) << 8) | ((s[2] as bv32) << 16) | ((s[3] as bv32) << 24)
  }

  function Word64(s: seq<bv8>): bv64
    requires |s| == 8
  {
    s[0] as bv64 | ((s[1] as bv64) << 8) | ((s[2] as bv64) << 16) | ((s[3] as bv64) << 24)
    | ((s[4] as bv64) << 32) | ((s[5] as bv64) << 40) | ((s[6] as bv64) << 48) | ((s[7] as bv64) << 56)
  }

  lemma WordsRoundTrip(a: bv16, b: bv32, c: bv64)
    ensures Word16(Bytes16(a)) == a && Word32(Bytes32(b)) == b && Word64(Bytes64(c)) == c
  {
  }

  lemma BytesRoundTrip(s: seq<bv8>)
    requires |s| == 8
    ensures Bytes64(Word64(s)) == s
  {
  }

  // The number a little-endian byte string denotes.
  function Nat(s: seq<bv8>): nat
  {
    if s == [] then 0 else s[0] as nat + 256 * Nat(s[1..])
  }

  // The first w little-endian bytes of n: what storing n in a w-byte cell keeps.
  function Bytes(n: nat, w: nat): (s: seq<bv8>)
    ensures |s| == w
  {
    if w == 0 then [] else [(n % 256) as bv8] + Bytes(n / 256, w - 1)
  }

  function Pow256(w: nat): (r: nat)
    ensures r > 0
  {
    if w == 0 then 1 else 256 * Pow256(w - 1)
  }

  // Storing a number in w bytes and reading it back truncates it to 8w bits.
  lemma {:induction false} NatOfBytes(n: nat, w: nat)
    ensures Nat(Bytes(n, w)) == n % Pow256(w)
  {
    if w == 0 {
    } else {
      NatOfBytes(n / 256, w - 1);
      ByteOfNat(n % 256);
      assert Bytes(n, w)[1..] == Bytes(n / 256, w - 1);
      ModOfParts(n, Pow256(w - 1));
    }
  }

  lemma ModOfParts(n: nat, p: nat)
    requires p > 0
    ensures n % (256 * p) == n % 256 + 256 * (n / 256 % p)
  {
    var q, r := n / 256 / p, n / 256 % p;
    calc {
      n;
      256 * (p * q + r) + n % 256;
      256 * (p * q) + (256 * r + n % 256);
      (256 * p) * q + (256 * r + n % 256);
    }
    ModUnique(n, 256 * p, q, 256 * r + n % 256);
  }

  lemma {:induction false} BytesOfNat(s: seq<bv8>)
    ensures Bytes(Nat(s), |s|) == s
    ensures Nat(s) < Pow256(|s|)
  {
    if s == [] {
    } else {
      BytesOfNat(s[1..]);
      FirstByte(s[0], Nat(s[1..]), |s| - 1);
      assert s == [s[0]] + s[1..];
    }
  }

  lemma FirstByte(b: bv8, n: nat, w: nat)
    ensures Bytes(b as nat + 256 * n, w + 1) == [b] + Bytes(n, w)
    ensures b as nat < 256
  {
    NatOfByte(b);
    ModUnique(b as nat + 256 * n, 256, n, b as nat);
  }

  // A register read as a number, and a number stored in a register.
  function ToNat(v: bv64): nat {
    Nat(Bytes64(v))
  }

  function FromNat(n: nat): bv64 {
    Word64(Bytes(n, 8))
  }

  lemma Pow256Of8()
    ensures Pow256(8) == TWO_64 && Pow256(4) == TWO_32 && Pow256(2) == 0x1_0000
  {
    assert Pow256(4) == 256 * (256 * (256 * (256 * Pow256(0))));
    assert Pow256(8) == 256 * (256 * (256 * (256 * Pow256(4))));
  }

  lemma RegisterRoundTrip(v: bv64, n: nat)
    ensures ToNat(v) < TWO_64 && FromNat(ToNat(v)) == v
    ensures ToNat(FromNat(n)) == n % TWO_64
  {
    hide Bytes64, Word64;
    Pow256Of8();
    BytesOfNat(Bytes64(v));
    WordsRoundTrip(0, 0, v);
    BytesRoundTrip(Bytes(n, 8));
    NatOfBytes(n, 8);
  }

  // Euclidean division is the only way to split n into a multiple of d and a rest below d.
  lemma ModUnique(n: int, d: int, q: int, r: int)
    requires 0 <= r < d && n == d * q + r
    ensures n % d == r && n / d == q
  {
    var q', r' := n / d, n % d;
    var k := q' - q;
    assert d * k == r - r' by {
      assert d * q' + r' == n;
      assert d * k == d * q' - d * q;
    }
    Multiple(d, k);
  }

  lemma Multiple(d: int, k: int)
    requires d > 0
    ensures k >= 1 ==> d * k >= d
    ensures k <= -1 ==> d * k <= -d
  {
    if k >= 1 {
      assert d * k == d + d * (k - 1);
      assert d * (k - 1) >= 0;
    } else if k <= -1 {
      assert d * k == -d + d * (k + 1);
      assert d * (k + 1) <= 0;
    }
  }
}
