/**
 The identifiers of the distributed hash table: 160 bits in twenty bytes, most significant first,
 and the distance between them (BEP 5, Overview).

 A byte is a number below 256; the bit operations are spelt out on numbers.
 */
module Int160 {
  type Byte = n: int | 0 <= n < 256

  const SIZE: nat := 20

  /** Twenty bytes. */
  type Id = s: seq<Byte> | |s| == SIZE witness seq(SIZE, i => 0)

  // ---------- bits of a number ----------

  function Pow2(k: nat): (p: nat)
    ensures p >= 1
  {
    if k == 0 then 1 else 2 * Pow2(k - 1)
  }

  /** Bit k of a number, counted from the least significant. */
  function Bit(x: nat, k: nat): bool { if k == 0 then x % 2 == 1 else Bit(x / 2, k - 1) }

  /** Numbers below 2^n with the same n bits are equal. */
  lemma {:induction false} BitsDetermine(x: nat, y: nat, n: nat)
    requires x < Pow2(n) && y < Pow2(n) && forall k :: 0 <= k < n ==> Bit(x, k) == Bit(y, k)
    ensures x == y
  {
    if n > 0 {
      assert Bit(x, 0) == Bit(y, 0);
      forall k | 0 <= k < n - 1 ensures Bit(x / 2, k) == Bit(y / 2, k) {
        assert Bit(x, k + 1) == Bit(y, k + 1);
      }
      BitsDetermine(x / 2, y / 2, n - 1);
    }
  }

  // ---------- exclusive or ----------

  /** The exclusive or of the low n bits. */
  function XorBits(x: nat, y: nat, n: nat): (z: nat)
    ensures z < Pow2(n)
  {
    if n == 0 then 0 else 2 * XorBits(x / 2, y / 2, n - 1) + (x + y) % 2
  }

  lemma XorHalves(x: nat, y: nat, n: nat)
    requires n > 0
    ensures XorBits(x, y, n) / 2 == XorBits(x / 2, y / 2, n - 1)
    ensures XorBits(x, y, n) % 2 == 1 <==> (x % 2 == 1) != (y % 2 == 1)
  {
    Parity(x, y);
    TwiceAndBit(XorBits(x / 2, y / 2, n - 1), (x + y) % 2);
  }

  lemma Parity(x: nat, y: nat)
    ensures (x + y) % 2 == if (x % 2 == 1) != (y % 2 == 1) then 1 else 0
  {
  }

  lemma TwiceAndBit(r: nat, b: nat)
    requires b < 2
    ensures (2 * r + b) / 2 == r && (2 * r + b) % 2 == b
  {
  }

  lemma {:induction false} XorBit(x: nat, y: nat, n: nat, k: nat)
    requires k < n
    ensures Bit(XorBits(x, y, n), k) == (Bit(x, k) != Bit(y, k))
  {
    XorHalves(x, y, n);
    if k > 0 {
      XorBit(x / 2, y / 2, n - 1, k - 1);
    }
  }

  lemma ParityTriangle(x: nat, y: nat, z: nat)
    ensures (x + y) % 2 <= (x + z) % 2 + (z + y) % 2
  {
  }

  lemma {:induction false} XorTriangle(x: nat, y: nat, z: nat, n: nat)
    ensures XorBits(x, y, n) <= XorBits(x, z, n) + XorBits(z, y, n)
  {
    if n > 0 {
      XorTriangle(x / 2, y / 2, z / 2, n - 1);
      ParityTriangle(x, y, z);
    }
  }

  lemma {:induction false} XorSymmetric(x: nat, y: nat, n: nat)
    ensures XorBits(x, y, n) == XorBits(y, x, n)
  {
    if n > 0 {
      XorSymmetric(x / 2, y / 2, n - 1);
    }
  }

  /** Undoing an exclusive or: the other operand is determined by the result. */
  lemma XorUndone(x: nat, z: nat, n: nat)
    requires z < Pow2(n)
    ensures XorBits(x, XorBits(x, z, n), n) == z
  {
    forall k | 0 <= k < n ensures Bit(XorBits(x, XorBits(x, z, n), n), k) == Bit(z, k) {
      XorBit(x, z, n, k);
      XorBit(x, XorBits(x, z, n), n, k);
    }
    BitsDetermine(XorBits(x, XorBits(x, z, n), n), z, n);
  }

  function XorByte(x: Byte, y: Byte): (z: Byte)
    ensures z == XorBits(x, y, 8)
  {
    assert Pow2(8) == 256;
    XorBits(x, y, 8)
  }

  // ---------- identifiers as numbers ----------

  /** The value of bytes, most significant first. */
  function Value(s: seq<Byte>): nat { if s == [] then 0 else Value(s[..|s| - 1]) * 256 + s[|s| - 1] }

  lemma {:induction false} ValueInjective(a: seq<Byte>, b: seq<Byte>)
    requires |a| == |b| && Value(a) == Value(b)
    ensures a == b
  {
    if a != [] {
      var n := |a| - 1;
      assert Value(a) / 256 == Value(a[..n]) && Value(b) / 256 == Value(b[..n]);
      ValueInjective(a[..n], b[..n]);
      assert a == a[..n] + [a[n]] && b == b[..n] + [b[n]];
    }
  }

  function XorSeq(a: seq<Byte>, b: seq<Byte>): (c: seq<Byte>)
    requires |a| == |b|
    ensures |c| == |a|
  {
    seq(|a|, i requires 0 <= i < |a| => XorByte(a[i], b[i]))
  }

  /** The distance of two identifiers. */
  function Distance(a: Id, b: Id): Id { XorSeq(a, b) }

  lemma {:induction false} TriangleOn(a: seq<Byte>, b: seq<Byte>, c: seq<Byte>)
    requires |a| == |b| == |c|
    ensures Value(XorSeq(a, b)) <= Value(XorSeq(a, c)) + Value(XorSeq(c, b))
  {
    if a != [] {
      var n := |a| - 1;
      TriangleOn(a[..n], b[..n], c[..n]);
      assert XorSeq(a, b)[..n] == XorSeq(a[..n], b[..n]);
      assert XorSeq(a, c)[..n] == XorSeq(a[..n], c[..n]);
      assert XorSeq(c, b)[..n] == XorSeq(c[..n], b[..n]);
      XorTriangle(a[n], b[n], c[n], 8);
    }
  }

  /** The distance is a metric: symmetric, zero only between equals, with the triangle inequality
      on the numbers; and for every identifier and distance there is exactly one other identifier
      at that distance. */
  lemma DistanceIsMetric(a: Id, b: Id, c: Id)
    ensures Distance(a, b) == Distance(b, a)
    ensures Value(Distance(a, b)) == 0 <==> a == b
    ensures Value(Distance(a, b)) <= Value(Distance(a, c)) + Value(Distance(c, b))
    ensures Distance(a, Distance(a, b)) == b
  {
    TriangleOn(a, b, c);
    forall i | 0 <= i < SIZE
      ensures XorByte(a[i], b[i]) == XorByte(b[i], a[i]) && XorByte(a[i], XorByte(a[i], b[i])) == b[i]
    {
      XorSymmetric(a[i], b[i], 8);
      assert Pow2(8) == 256;
      XorUndone(a[i], b[i], 8);
    }
    assert Distance(a, Distance(a, b)) == b;
    ZeroValue(Distance(a, b));
    if a == b {
      forall i | 0 <= i < SIZE ensures Distance(a, a)[i] == 0 {
        XorSelf(a[i], 8);
      }
    } else if Value(Distance(a, b)) == 0 {
      forall i | 0 <= i < SIZE ensures Distance(a, a)[i] == 0 {
        XorSelf(a[i], 8);
      }
      assert Distance(a, b) == Distance(a, a);
      SelfUndone(a);
    }
  }

  lemma SelfUndone(a: Id)
    ensures Distance(a, Distance(a, a)) == a
  {
    forall i | 0 <= i < SIZE ensures XorByte(a[i], XorByte(a[i], a[i])) == a[i] {
      assert Pow2(8) == 256;
      XorUndone(a[i], a[i], 8);
    }
  }

  lemma {:induction false} XorSelf(x: nat, n: nat)
    ensures XorBits(x, x, n) == 0
  {
    if n > 0 {
      XorSelf(x / 2, n - 1);
    }
  }

  lemma {:induction false} ZeroValue(s: seq<Byte>)
    ensures Value(s) == 0 <==> forall i :: 0 <= i < |s| ==> s[i] == 0
  {
    if s != [] {
      ZeroValue(s[..|s| - 1]);
    }
  }

  // ---------- comparing ----------

  /** Bytes that agree up to position i and differ there order the values. */
  lemma {:induction false} FirstDifferenceOrders(a: seq<Byte>, b: seq<Byte>, i: nat)
    requires |a| == |b| && i < |a| && a[..i] == b[..i] && a[i] < b[i]
    ensures Value(a) < Value(b)
  {
    var n := |a| - 1;
    if i == n {
      assert a[..n] == b[..n];
    } else {
      assert a[..n][..i] == a[..i] && b[..n][..i] == b[..i];
      FirstDifferenceOrders(a[..n], b[..n], i);
    }
  }

  /** Cmp: compares byte by byte, and agrees with the order of the numbers. */
  method Cmp(a: Id, b: Id) returns (r: int)
    ensures r == if Value(a) < Value(b) then -1 else if Value(a) > Value(b) then 1 else 0
    ensures r == 0 <==> a == b
  {
    if Value(a) == Value(b) {
      ValueInjective(a, b);
    }
    for i := 0 to SIZE
      invariant a[..i] == b[..i]
    {
      if a[i] < b[i] {
        FirstDifferenceOrders(a, b, i);
        return -1;
      } else if a[i] > b[i] {
        FirstDifferenceOrders(b, a, i);
        return 1;
      }
      assert a[..i + 1] == a[..i] + [a[i]] && b[..i + 1] == b[..i] + [b[i]];
    }
    assert a[..SIZE] == a && b[..SIZE] == b;
    r := 0;
  }

  method IsZero(a: Id) returns (r: bool)
    ensures r <==> Value(a) == 0
  {
    ZeroValue(a);
    for i := 0 to SIZE
      invariant forall j :: 0 <= j < i ==> a[j] == 0
    {
      if a[i] != 0 {
        return false;
      }
    }
    r := true;
  }

  method Xor(b1: Id, b2: Id) returns (r: Id)
    ensures r == Distance(b1, b2)
  {
    var bits: seq<Byte> := [];
    for i := 0 to SIZE
      invariant |bits| == i && forall j :: 0 <= j < i ==> bits[j] == XorByte(b1[j], b2[j])
    {
      bits := bits + [XorByte(b1[i], b2[i])];
    }
    r := bits;
  }

  // ---------- single bits ----------

  /** Bit number `index`, counted from the most significant. */
  function GetBit(a: Id, index: nat): bool
    requires index < 160
  {
    Bit(a[index / 8], 7 - index % 8)
  }

  /** The bitwise and, and the bitwise or, of the low n bits. */
  function AndBits(x: nat, y: nat, n: nat): (z: nat)
    ensures z < Pow2(n)
  {
    if n == 0 then 0 else 2 * AndBits(x / 2, y / 2, n - 1) + (x % 2) * (y % 2)
  }

  function OrBits(x: nat, y: nat, n: nat): (z: nat)
    ensures z < Pow2(n)
  {
    if n == 0 then 0 else 2 * OrBits(x / 2, y / 2, n - 1) + if x % 2 == 1 || y % 2 == 1 then 1 else 0
  }

  lemma {:induction false} AndBit(x: nat, y: nat, n: nat, k: nat)
    requires k < n
    ensures Bit(AndBits(x, y, n), k) == (Bit(x, k) && Bit(y, k))
  {
    assert (x % 2) * (y % 2) == if x % 2 == 1 && y % 2 == 1 then 1 else 0;
    if k > 0 {
      assert AndBits(x, y, n) / 2 == AndBits(x / 2, y / 2, n - 1);
      AndBit(x / 2, y / 2, n - 1, k - 1);
    }
  }

  lemma {:induction false} OrBit(x: nat, y: nat, n: nat, k: nat)
    requires k < n
    ensures Bit(OrBits(x, y, n), k) == (Bit(x, k) || Bit(y, k))
  {
    if k > 0 {
      assert OrBits(x, y, n) / 2 == OrBits(x / 2, y / 2, n - 1);
      OrBit(x / 2, y / 2, n - 1, k - 1);
    }
  }

  lemma {:induction false} PowerBit(k: nat, j: nat)
    ensures Bit(Pow2(k), j) == (j == k)
  {
    if k > 0 {
      assert Pow2(k) / 2 == Pow2(k - 1) && Pow2(k) % 2 == 0;
      if j > 0 {
        PowerBit(k - 1, j - 1);
      }
    } else if j > 0 {
      ZeroBits(j - 1);
    }
  }

  /** A byte with all bits set. */
  const ONES: Byte := 255

  lemma OnesBit(j: nat)
    requires j < 8
    ensures Bit(ONES, j)
  {
    assert Bit(1, 0) && Bit(3, 1) && Bit(7, 2) && Bit(15, 3);
    assert Bit(31, 4) && Bit(63, 5) && Bit(127, 6) && Bit(255, 7);
    if j == 1 { assert Bit(255, 1) == Bit(127, 0); }
    if j == 2 { assert Bit(255, 2) == Bit(127, 1) == Bit(63, 0); }
    if j == 3 { assert Bit(255, 3) == Bit(127, 2) == Bit(63, 1) == Bit(31, 0); }
    if j == 4 { assert Bit(255, 4) == Bit(127, 3) == Bit(63, 2) == Bit(31, 1) == Bit(15, 0); }
    if j == 5 { assert Bit(255, 5) == Bit(127, 4) == Bit(63, 3) == Bit(31, 2) == Bit(15, 1) == Bit(7, 0); }
    if j == 6 { assert Bit(255, 6) == Bit(127, 5) == Bit(63, 4) == Bit(31, 3) == Bit(15, 2) == Bit(7, 1); }
  }

  lemma {:induction false} PowerFits(k: nat)
    requires k < 8
    ensures Pow2(k) < 256
  {
    if k > 0 {
      PowerFits(k - 1);
      assert Pow2(0) == 1 && Pow2(1) == 2 && Pow2(2) == 4 && Pow2(3) == 8 && Pow2(4) == 16 && Pow2(5) == 32;
      assert Pow2(6) == 64 && Pow2(7) == 128;
    }
  }

  /** Clears bit k with a mask and sets it when it is wanted. */
  function SetBit(x: Byte, k: nat, val: bool): (z: Byte)
    requires k < 8
  {
    PowerFits(k);
    assert Pow2(8) == 256;
    var mask := XorBits(ONES, Pow2(k), 8);
    OrBits(AndBits(x, mask, 8), if val then Pow2(k) else 0, 8)
  }

  lemma SetBitBit(x: Byte, k: nat, val: bool, j: nat)
    requires k < 8 && j < 8
    ensures Bit(SetBit(x, k, val), j) == if j == k then val else Bit(x, j)
  {
    var mask := XorBits(ONES, Pow2(k), 8);
    PowerBit(k, j);
    OnesBit(j);
    ZeroBits(j);
    XorBit(ONES, Pow2(k), 8, j);
    AndBit(x, mask, 8, j);
    OrBit(AndBits(x, mask, 8), if val then Pow2(k) else 0, 8, j);
  }

  function WithBit(a: Id, index: nat, val: bool): Id
    requires index < 160
  {
    a[index / 8 := SetBit(a[index / 8], 7 - index % 8, val)]
  }

  /** Reading after writing: the bit written has the value, all others are as before. */
  lemma ReadOverWrite(a: Id, i: nat, val: bool, j: nat)
    requires i < 160 && j < 160
    ensures GetBit(WithBit(a, i, val), j) == if i == j then val else GetBit(a, j)
  {
    if i / 8 == j / 8 {
      SetBitBit(a[i / 8], 7 - i % 8, val, 7 - j % 8);
    }
  }

  /** Bits of a distance are where the two identifiers differ. */
  lemma DistanceBit(a: Id, b: Id, i: nat)
    requires i < 160
    ensures GetBit(Distance(a, b), i) <==> GetBit(a, i) != GetBit(b, i)
  {
    XorBit(a[i / 8], b[i / 8], 8, 7 - i % 8);
  }

  // ---------- the bit length ----------

  /** The number of bits of a number, without leading zeros. */
  function BitLength(x: nat): nat { if x == 0 then 0 else 1 + BitLength(x / 2) }

  /** The highest bit that is set determines the length. */
  lemma {:induction false} HighestBit(x: nat, m: nat, n: nat)
    requires m < n && x < Pow2(n) && Bit(x, m) && forall k :: m < k < n ==> !Bit(x, k)
    ensures BitLength(x) == m + 1
  {
    if m > 0 {
      forall k | m - 1 < k < n - 1 ensures !Bit(x / 2, k) {
        assert !Bit(x, k + 1);
      }
      HighestBit(x / 2, m - 1, n - 1);
    } else {
      if n > 1 {
        forall k | 0 <= k < n - 1 ensures Bit(x / 2, k) == Bit(0, k) {
          assert !Bit(x, k + 1);
          ZeroBits(k);
        }
        BitsDetermine(x / 2, 0, n - 1);
      }
    }
  }

  lemma {:induction false} ZeroBits(k: nat)
    ensures !Bit(0, k)
  {
    if k > 0 {
      ZeroBits(k - 1);
    }
  }

  lemma {:induction false} BitOfShifted(v: nat, l: nat, n: nat, k: nat)
    requires l < Pow2(n)
    ensures Bit(v * Pow2(n) + l, k) == if k < n then Bit(l, k) else Bit(v, k - n)
  {
    if n == 0 {
      assert v * 1 + l == v;
    } else {
      HalfShifted(v, l, n);
      if k > 0 {
        BitOfShifted(v, l / 2, n - 1, k - 1);
      }
    }
  }

  lemma HalfShifted(v: nat, l: nat, n: nat)
    requires n > 0
    ensures var x := v * Pow2(n) + l; x / 2 == v * Pow2(n - 1) + l / 2 && x % 2 == l % 2
  {
    var w := v * Pow2(n - 1);
    assert v * Pow2(n) == 2 * w by {
      assert Pow2(n) == 2 * Pow2(n - 1);
    }
    assert (2 * w + l) / 2 == w + l / 2;
  }

  /** Bit k of the value of bytes is a bit of one of them. */
  lemma {:induction false} ValueBit(s: seq<Byte>, k: nat)
    requires k < 8 * |s|
    ensures Bit(Value(s), k) == Bit(s[|s| - 1 - k / 8], k % 8)
  {
    var n := |s| - 1;
    assert Pow2(8) == 256;
    BitOfShifted(Value(s[..n]), s[n], 8, k);
    if k >= 8 {
      ValueBit(s[..n], k - 8);
      assert (k - 8) / 8 == k / 8 - 1 && (k - 8) % 8 == k % 8;
    }
  }

  lemma {:induction false} ValueFits(s: seq<Byte>)
    ensures Value(s) < Pow2(8 * |s|)
  {
    if s != [] {
      var n := |s| - 1;
      ValueFits(s[..n]);
      PowShift(8 * n);
    }
  }

  lemma PowShift(m: nat)
    ensures Pow2(m + 8) == 256 * Pow2(m)
  {
    assert Pow2(m + 8) == 2 * Pow2(m + 7) == 4 * Pow2(m + 6) == 8 * Pow2(m + 5) == 16 * Pow2(m + 4);
    assert Pow2(m + 4) == 2 * Pow2(m + 3) == 4 * Pow2(m + 2) == 8 * Pow2(m + 1) == 16 * Pow2(m);
  }

  /** How many leading bits two identifiers share, from bit i on. */
  function SharedBits(a: Id, b: Id, i: nat): (n: nat)
    requires i <= 160
    ensures i + n <= 160 && (forall j :: i <= j < i + n ==> GetBit(a, j) == GetBit(b, j))
    ensures i + n < 160 ==> GetBit(a, i + n) != GetBit(b, i + n)
    decreases 160 - i
  {
    if i == 160 || GetBit(a, i) != GetBit(b, i) then 0 else 1 + SharedBits(a, b, i + 1)
  }

  lemma DistanceValueBit(a: Id, b: Id, k: nat)
    requires k < 160
    ensures Bit(Value(Distance(a, b)), k) <==> GetBit(a, 159 - k) != GetBit(b, 159 - k)
  {
    ValueBit(Distance(a, b), k);
    DistanceBit(a, b, 159 - k);
    assert (159 - k) / 8 == 19 - k / 8 && 7 - (159 - k) % 8 == k % 8;
  }

  /** The bit length of a distance is 160 less the number of leading bits shared. */
  lemma BitLengthOfDistance(a: Id, b: Id)
    ensures BitLength(Value(Distance(a, b))) == 160 - SharedBits(a, b, 0)
  {
    var x, shared := Value(Distance(a, b)), SharedBits(a, b, 0);
    ValueFits(Distance(a, b));
    if shared == 160 {
      forall k | 0 <= k < 160 ensures Bit(x, k) == Bit(0, k) {
        DistanceValueBit(a, b, k);
        ZeroBits(k);
      }
      BitsDetermine(x, 0, 160);
    } else {
      DistanceValueBit(a, b, 159 - shared);
      forall k | 159 - shared < k < 160 ensures !Bit(x, k) {
        DistanceValueBit(a, b, k);
      }
      HighestBit(x, 159 - shared, 160);
    }
  }
}
