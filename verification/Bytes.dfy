/** Octets, octet strings, big-endian integers and bitwise exclusive-or. */
module ByteStrings {

  /** `uint8_t`. */
  type Byte = b: int | 0 <= b < 0x100

  type Bytes = seq<Byte>

  /** `uint64_t`; arithmetic on it wraps, see `Successor`. */
  type UInt64 = n: int | 0 <= n < 0x1_0000_0000_0000_0000

  const TWO64: nat := 0x1_0000_0000_0000_0000

  /** Conversion to `uint64_t`. */
  function Wrap(n: int): UInt64 {
    n % 0x1_0000_0000_0000_0000
  }

  /** `n++` on a `uint64_t`. */
  function Successor(n: UInt64): UInt64 {
    if n == 0xFFFF_FFFF_FFFF_FFFF then 0 else n + 1
  }

  lemma SuccessorWraps(n: nat)
    ensures Successor(Wrap(n)) == Wrap(n + 1)
  {
  }

  lemma WrapCongruent(n: nat)
    ensures (n - Wrap(n)) % 0x1_0000_0000_0000_0000 == 0
  {
  }

  lemma WrapEqual(m: nat, n: nat)
    ensures Wrap(m) == Wrap(n) <==> Wrap(n - m) == 0
  {
    var w := 0x1_0000_0000_0000_0000;
    assert n - m == w * (n / w - m / w) + (n % w - m % w);
  }

  /** Induction from `lo` to `hi`. */
  lemma {:induction false} Induction(p: nat -> bool, lo: nat, hi: nat)
    requires lo <= hi && p(lo)
    requires forall k | lo <= k < hi && p(k) :: p(k + 1)
    ensures p(hi)
    decreases hi
  {
    if lo < hi {
      Induction(p, lo, hi - 1);
      assert p(hi - 1 + 1);
    }
  }

  lemma ConcatAssociates(a: Bytes, b: Bytes, c: Bytes)
    ensures a + b + c == a + (b + c)
  {
  }

  lemma CancelHead(a: Bytes, b: Bytes, c: Bytes)
    requires a + b == a + c
    ensures b == c
  {
    assert b == (a + b)[|a|..] && c == (a + c)[|a|..];
  }

  /** The strings of `parts`, one after the other. */
  function Concat(parts: seq<Bytes>): Bytes {
    if |parts| == 0 then [] else parts[0] + Concat(parts[1..])
  }

  lemma {:induction false} ConcatSnoc(parts: seq<Bytes>, last: Bytes)
    ensures Concat(parts + [last]) == Concat(parts) + last
  {
    if |parts| == 0 {
      assert parts + [last] == [last];
      assert Concat([last]) == last + Concat([]);
    } else {
      assert (parts + [last])[1..] == parts[1..] + [last];
      ConcatSnoc(parts[1..], last);
      ConcatAssociates(parts[0], Concat(parts[1..]), last);
    }
  }

  function Zeros(n: nat): Bytes {
    seq(n, _ => 0)
  }

  /** 256 to the power `k`. */
  function Pow256(k: nat): (p: nat)
    ensures p > 0
  {
    if k == 0 then 1 else 256 * Pow256(k - 1)
  }

  /** `n >> (8 * k)`. */
  function ShiftRight8(n: nat, k: nat): nat
    decreases k
  {
    if k == 0 then n else ShiftRight8(n / 256, k - 1)
  }

  /** The low `width` octets of `n`, most significant first. */
  function BigEndian(n: nat, width: nat): (s: Bytes)
    ensures |s| == width
    decreases width
  {
    if width == 0 then [] else BigEndian(n / 256, width - 1) + [n % 256]
  }

  /** The integer whose big-endian octets are `s`. */
  function FromBigEndian(s: Bytes): nat {
    if |s| == 0 then 0 else 256 * FromBigEndian(s[..|s| - 1]) + s[|s| - 1]
  }

  lemma {:induction false} BigEndianAt(n: nat, width: nat, k: nat)
    requires k < width
    ensures BigEndian(n, width)[width - 1 - k] == ShiftRight8(n, k) % 256
    decreases width
  {
    if k > 0 {
      BigEndianAt(n / 256, width - 1, k - 1);
    }
  }

  lemma {:induction false} FromBigEndianBound(s: Bytes)
    ensures FromBigEndian(s) < Pow256(|s|)
  {
    if |s| > 0 {
      FromBigEndianBound(s[..|s| - 1]);
    }
  }

  /** Reassembling the octets of an integer that fits gives the integer back. */
  lemma {:induction false} BigEndianDecodes(n: nat, width: nat)
    requires n < Pow256(width)
    ensures FromBigEndian(BigEndian(n, width)) == n
    decreases width
  {
    if width > 0 {
      BigEndianDecodes(n / 256, width - 1);
      assert BigEndian(n, width)[..width - 1] == BigEndian(n / 256, width - 1);
    }
  }

  /** Splitting a reassembled integer gives its octets back. */
  lemma {:induction false} FromBigEndianEncodes(s: Bytes)
    ensures BigEndian(FromBigEndian(s), |s|) == s
  {
    if |s| > 0 {
      FromBigEndianEncodes(s[..|s| - 1]);
      assert FromBigEndian(s) / 256 == FromBigEndian(s[..|s| - 1]);
      assert FromBigEndian(s) % 256 == s[|s| - 1];
    }
  }

  lemma Pow256Values()
    ensures Pow256(2) == 0x1_0000
    ensures Pow256(3) == 0x100_0000
    ensures Pow256(8) == TWO64
  {
    assert Pow256(4) == 0x1_0000_0000;
    assert Pow256(6) == 0x1_0000_0000_0000;
  }

  /** Two octets written out: `(n >> 8) & 0xff, n & 0xff`. */
  lemma BigEndian2(n: nat)
    ensures BigEndian(n, 2) == [n / 0x100 % 0x100, n % 0x100]
  {
    assert BigEndian(n / 0x100, 1) == BigEndian(n / 0x100 / 0x100, 0) + [n / 0x100 % 0x100];
  }

  /** Three octets written out: `(n >> 16) & 0xff, (n >> 8) & 0xff, n & 0xff`. */
  lemma BigEndian3(n: nat)
    ensures BigEndian(n, 3) == [n / 0x1_0000 % 0x100, n / 0x100 % 0x100, n % 0x100]
  {
    BigEndian2(n / 0x100);
    assert n / 0x100 / 0x100 == n / 0x1_0000;
  }

  lemma FromBigEndian2(s: Bytes)
    requires |s| == 2
    ensures FromBigEndian(s) == (s[0] as int) * 0x100 + s[1]
  {
    assert s[..1][..0] == [];
    assert FromBigEndian(s[..1]) == s[0];
  }

  lemma FromBigEndian3(s: Bytes)
    requires |s| == 3
    ensures FromBigEndian(s) == (s[0] as int) * 0x1_0000 + (s[1] as int) * 0x100 + s[2]
  {
    FromBigEndian2(s[..2]);
    assert s[..2][0] == s[0] && s[..2][1] == s[1];
  }

  /** The low `bits` bits of the exclusive-or of `a` and `b`. */
  function XorBits(a: nat, b: nat, bits: nat): nat
    decreases bits
  {
    if bits == 0 then 0 else (a % 2 + b % 2) % 2 + 2 * XorBits(a / 2, b / 2, bits - 1)
  }

  /** The width of `uint8_t`. */
  const OCTET_BITS: nat := 8

  function Pow2(k: nat): nat {
    if k == 0 then 1 else 2 * Pow2(k - 1)
  }

  lemma {:induction false} XorBitsBound(a: nat, b: nat, bits: nat)
    ensures XorBits(a, b, bits) < Pow2(bits)
    decreases bits
  {
    if bits > 0 {
      XorBitsBound(a / 2, b / 2, bits - 1);
    }
  }

  lemma BitCancels(a: nat, b: nat, c: nat, high: nat, high': nat)
    requires a < 2 && b < 2 && c < 2
    requires (a + b) % 2 + 2 * high == (a + c) % 2 + 2 * high'
    ensures b == c && high == high'
  {
  }

  lemma {:induction false} XorBitsCancels(a: nat, b: nat, c: nat, bits: nat)
    requires b < Pow2(bits) && c < Pow2(bits)
    requires XorBits(a, b, bits) == XorBits(a, c, bits)
    ensures b == c
    decreases bits
  {
    if bits > 0 {
      var high, high' := XorBits(a / 2, b / 2, bits - 1), XorBits(a / 2, c / 2, bits - 1);
      BitCancels(a % 2, b % 2, c % 2, high, high');
      XorBitsCancels(a / 2, b / 2, c / 2, bits - 1);
    }
  }

  lemma OctetRange()
    ensures Pow2(OCTET_BITS) == 0x100
  {
    assert OCTET_BITS == 8 && Pow2(4) == 16 && Pow2(8) == 0x100;
  }

  /** `a ^ b` on octets. */
  function Xor(a: Byte, b: Byte): Byte {
    XorBitsBound(a, b, OCTET_BITS);
    OctetRange();
    XorBits(a, b, OCTET_BITS)
  }

  lemma XorCancels(a: Byte, b: Byte, c: Byte)
    requires Xor(a, b) == Xor(a, c)
    ensures b == c
  {
    OctetRange();
    XorBitsCancels(a, b, c, OCTET_BITS);
  }

  /** Bit `k` of `n`, the least significant being bit 0. */
  function Bit(n: nat, k: nat): (b: nat)
    ensures b < 2
    decreases k
  {
    if k == 0 then n % 2 else Bit(n / 2, k - 1)
  }

  lemma {:induction false} XorBitsAt(a: nat, b: nat, bits: nat, k: nat)
    requires k < bits
    ensures Bit(XorBits(a, b, bits), k) == 1 <==> Bit(a, k) != Bit(b, k)
    decreases k
  {
    var high := XorBits(a / 2, b / 2, bits - 1);
    assert XorBits(a, b, bits) / 2 == high;
    if k > 0 {
      XorBitsAt(a / 2, b / 2, bits - 1, k - 1);
    }
  }

  /** A bit of `a ^ b` is set exactly if the bits of `a` and of `b` differ. */
  lemma XorAt(a: Byte, b: Byte, k: nat)
    requires k < 8
    ensures Bit(Xor(a, b), k) == 1 <==> Bit(a, k) != Bit(b, k)
  {
    XorBitsAt(a, b, OCTET_BITS, k);
  }

  lemma LowBitTwice(x: nat, y: nat)
    requires x < 2 && y < 2
    ensures ((x + y) % 2 + y) % 2 == x
  {
  }

  lemma {:induction false} XorBitsTwice(a: nat, b: nat, bits: nat)
    requires a < Pow2(bits)
    ensures XorBits(XorBits(a, b, bits), b, bits) == a
    decreases bits
  {
    if bits > 0 {
      var low, high := (a % 2 + b % 2) % 2, XorBits(a / 2, b / 2, bits - 1);
      var x := low + 2 * high;
      assert x % 2 == low && x / 2 == high;
      XorBitsTwice(a / 2, b / 2, bits - 1);
      LowBitTwice(a % 2, b % 2);
      assert XorBits(x, b, bits) == (x % 2 + b % 2) % 2 + 2 * XorBits(x / 2, b / 2, bits - 1);
    }
  }

  /** `(a ^ b) ^ b` is `a`. */
  lemma XorTwice(a: Byte, b: Byte)
    ensures Xor(Xor(a, b), b) == a
  {
    OctetRange();
    XorBitsTwice(a, b, OCTET_BITS);
  }

  lemma {:induction false} XorBitsCommutes(a: nat, b: nat, bits: nat)
    ensures XorBits(a, b, bits) == XorBits(b, a, bits)
    decreases bits
  {
    if bits > 0 {
      XorBitsCommutes(a / 2, b / 2, bits - 1);
    }
  }

  /** `a | b`. */
  function Or(a: nat, b: nat): nat
    decreases a
  {
    if a == 0 then b else (if a % 2 == 1 || b % 2 == 1 then 1 else 0) + 2 * Or(a / 2, b / 2)
  }

  /** The or of a number shifted to the left and one that fits in the bits that are free is
      their sum. */
  lemma {:induction false} OrDisjoint(high: nat, k: nat, low: nat)
    requires low < Pow2(k)
    ensures Or(high * Pow2(k), low) == high * Pow2(k) + low
    decreases k
  {
    if k == 0 {
      OrZero(high);
    } else if high > 0 {
      var half := high * Pow2(k - 1);
      assert high * Pow2(k) == 2 * half && half > 0;
      OrDisjoint(high, k - 1, low / 2);
    }
  }

  lemma {:induction false} OrZero(a: nat)
    ensures Or(a, 0) == a
  {
    if a > 0 {
      OrZero(a / 2);
    }
  }

  /** Reassembling a length from two octets by shifts and or. */
  lemma OctetsOr2(high: nat, low: Byte)
    ensures Or(high * 0x100, low) == high * 0x100 + low
  {
    OctetRange();
    OrDisjoint(high, OCTET_BITS, low);
  }

  lemma OctetsOr3(high: Byte, middle: Byte, low: Byte)
    ensures Or(Or((high as int) * 0x1_0000, (middle as int) * 0x100), low)
            == (high as int) * 0x1_0000 + (middle as int) * 0x100 + low
  {
    TwoOctetRange();
    OrDisjoint(high, OCTET_BITS + OCTET_BITS, (middle as int) * 0x100);
    OctetsOr2((high as int) * 0x100 + middle, low);
  }

  lemma TwoOctetRange()
    ensures Pow2(OCTET_BITS + OCTET_BITS) == 0x1_0000
  {
    OctetRange();
    Pow2Octet(OCTET_BITS);
  }

  lemma Pow2Octet(k: nat)
    ensures Pow2(k + OCTET_BITS) == 0x100 * Pow2(k)
  {
    assert Pow2(k + 2) == 4 * Pow2(k);
    assert Pow2(k + 4) == 4 * Pow2(k + 2);
    assert Pow2(k + 6) == 4 * Pow2(k + 4);
    assert Pow2(k + 8) == 4 * Pow2(k + 6);
  }

  lemma {:induction false} XorBitsZero(a: nat, bits: nat)
    requires a < Pow2(bits)
    ensures XorBits(a, 0, bits) == a
    decreases bits
  {
    if bits > 0 {
      XorBitsZero(a / 2, bits - 1);
    }
  }

  lemma XorZero(a: Byte)
    ensures Xor(a, 0) == a
  {
    OctetRange();
    XorBitsZero(a, OCTET_BITS);
  }

  /** Position-wise exclusive-or of two strings of equal length. */
  function XorBytes(a: Bytes, b: Bytes): (r: Bytes)
    requires |a| == |b|
    ensures |r| == |a|
  {
    if |a| == 0 then [] else [Xor(a[0], b[0])] + XorBytes(a[1..], b[1..])
  }

  lemma {:induction false} XorBytesAt(a: Bytes, b: Bytes, i: nat)
    requires |a| == |b| && i < |a|
    ensures XorBytes(a, b)[i] == Xor(a[i], b[i])
  {
    if i > 0 {
      XorBytesAt(a[1..], b[1..], i - 1);
    }
  }

  /** Taking the exclusive-or with the same string again gives the string back. */
  lemma {:induction false} XorBytesTwice(a: Bytes, b: Bytes)
    requires |a| == |b|
    ensures XorBytes(XorBytes(a, b), b) == a
  {
    if |a| > 0 {
      XorTwice(a[0], b[0]);
      XorBytesTwice(a[1..], b[1..]);
      assert XorBytes(a, b)[1..] == XorBytes(a[1..], b[1..]);
    }
  }

  lemma {:induction false} XorBytesCommutes(a: Bytes, b: Bytes)
    requires |a| == |b|
    ensures XorBytes(a, b) == XorBytes(b, a)
  {
    if |a| > 0 {
      XorBitsCommutes(a[0], b[0], OCTET_BITS);
      XorBytesCommutes(a[1..], b[1..]);
    }
  }

  lemma {:induction false} XorBytesCancels(a: Bytes, b: Bytes, c: Bytes)
    requires |a| == |b| == |c|
    requires XorBytes(a, b) == XorBytes(a, c)
    ensures b == c
  {
    if |a| > 0 {
      assert XorBytes(a, b)[1..] == XorBytes(a, c)[1..];
      XorBytesCancels(a[1..], b[1..], c[1..]);
      XorCancels(a[0], b[0], c[0]);
      assert b == [b[0]] + b[1..] && c == [c[0]] + c[1..];
    }
  }
}
