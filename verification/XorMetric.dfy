/** The Kademlia XOR metric over 32-byte hashes (section 2.1 of the Kademlia paper by
    Maymounkov and Mazieres, IPTPS 2002). SHA-256 is foreign: every law is about the hashes. */
module XorMetric {

  type Byte = n: int | 0 <= n < 256
  type Hash = h: seq<Byte> | |h| == 32 witness seq(32, _ => 0)

  // ---- Exclusive or of two bytes ----

  /** Exclusive or, binary digit by binary digit. */
  function Xor(x: nat, y: nat): nat {
    if x == 0 && y == 0 then 0 else 2 * Xor(x / 2, y / 2) + (x + y) % 2
  }

  lemma {:induction false} XorBound(x: nat, y: nat, bits: nat, bound: nat)
    requires bound == Pow2(bits) && x < bound && y < bound
    ensures Xor(x, y) < bound
  {
    if x != 0 || y != 0 {
      assert bits > 0;
      XorBound(x / 2, y / 2, bits - 1, bound / 2);
    }
  }

  function Pow2(bits: nat): nat {
    if bits == 0 then 1 else 2 * Pow2(bits - 1)
  }

  lemma {:induction false} XorSymmetric(x: nat, y: nat)
    ensures Xor(x, y) == Xor(y, x)
  {
    if x != 0 || y != 0 {
      XorSymmetric(x / 2, y / 2);
    }
  }

  lemma XorDigits(x: nat, y: nat)
    ensures Xor(x, y) / 2 == Xor(x / 2, y / 2) && Xor(x, y) % 2 == (x + y) % 2
  {
    var half, digit := Xor(x / 2, y / 2), (x + y) % 2;
    assert Xor(x, y) == 2 * half + digit;
    assert (2 * half + digit) / 2 == half && (2 * half + digit) % 2 == digit;
  }

  function Bit(x: nat, k: nat): int {
    if k == 0 then x % 2 else Bit(x / 2, k - 1)
  }

  /** A bit of the result is set exactly if the two bits in its place differ. */
  lemma {:induction false} XorIsBitwise(x: nat, y: nat, k: nat)
    ensures Bit(Xor(x, y), k) == if Bit(x, k) != Bit(y, k) then 1 else 0
  {
    XorDigits(x, y);
    if k > 0 {
      XorIsBitwise(x / 2, y / 2, k - 1);
    }
  }

  lemma LastDigits(x: nat, y: nat, z: nat)
    ensures z % 2 == (x + y) % 2 ==> (x + z) % 2 == y % 2
    ensures (x + z) % 2 <= (x + y) % 2 + (y + z) % 2
  {}

  lemma {:induction false} XorCancels(x: nat, y: nat)
    ensures Xor(x, Xor(x, y)) == y
  {
    if x != 0 || y != 0 {
      var z := Xor(x, y);
      XorDigits(x, y);
      XorDigits(x, z);
      XorCancels(x / 2, y / 2);
      LastDigits(x, y, z);
      assert Xor(x, z) / 2 == y / 2 && Xor(x, z) % 2 == y % 2;
    }
  }

  lemma {:induction false} XorTriangle(x: nat, y: nat, z: nat)
    ensures Xor(x, z) <= Xor(x, y) + Xor(y, z)
    decreases x + y + z
  {
    if x != 0 || y != 0 || z != 0 {
      XorTriangle(x / 2, y / 2, z / 2);
      XorStep(x, y);
      XorStep(y, z);
      XorStep(x, z);
      LastDigits(x, y, z);
    }
  }

  lemma XorStep(x: nat, y: nat)
    ensures Xor(x, y) == 2 * Xor(x / 2, y / 2) + (x + y) % 2
  {}

  function XorByte(x: Byte, y: Byte): Byte {
    assert Pow2(8) == 256;
    XorBound(x, y, 8, 256);
    Xor(x, y)
  }

  // ---- The distance of two hashes ----

  function XorBytes(a: seq<Byte>, b: seq<Byte>): (x: seq<Byte>)
    requires |a| == |b|
  {
    seq(|a|, i requires 0 <= i < |a| => XorByte(a[i], b[i]))
  }

  /** The value of a byte string read with its most significant byte first. */
  function BigEndian(s: seq<Byte>): nat {
    if s == [] then 0 else BigEndian(s[..|s| - 1]) * 256 + s[|s| - 1]
  }

  function Distance(a: Hash, b: Hash): nat {
    BigEndian(XorBytes(a, b))
  }

  method XorKeyDistance(ha: Hash, hb: Hash) returns (d: nat)
    ensures d == Distance(ha, hb)
  {
    var xor := new Byte[32];
    for i := 0 to 32
      invariant forall k :: 0 <= k < i ==> xor[k] == XorByte(ha[k], hb[k])
    {
      xor[i] := XorByte(ha[i], hb[i]);
    }
    assert xor[..] == XorBytes(ha, hb);
    d := 0;
    for i := 0 to 32
      invariant d == BigEndian(xor[..i])
    {
      assert xor[..i + 1][..i] == xor[..i];
      d := d * 256 + xor[i];
    }
    assert xor[..32] == xor[..];
  }

  // ---- The integer order of distances is the lexicographic order of the xored bytes ----

  /** x comes before y in the lexicographic order of byte strings. */
  ghost predicate LexLess(x: seq<Byte>, y: seq<Byte>)
    requires |x| == |y|
  {
    exists k :: 0 <= k < |x| && x[..k] == y[..k] && x[k] < y[k]
  }

  lemma LexLessSnoc(x: seq<Byte>, y: seq<Byte>)
    requires |x| == |y| > 0
    ensures var n := |x| - 1;
            LexLess(x, y) <==> LexLess(x[..n], y[..n]) || (x[..n] == y[..n] && x[n] < y[n])
  {
    var n := |x| - 1;
    if LexLess(x, y) {
      var k :| 0 <= k < |x| && x[..k] == y[..k] && x[k] < y[k];
      if k < n {
        assert x[..n][..k] == x[..k] && y[..n][..k] == y[..k];
      }
    }
    if LexLess(x[..n], y[..n]) {
      var k :| 0 <= k < n && x[..n][..k] == y[..n][..k] && x[..n][k] < y[..n][k];
      assert x[..n][..k] == x[..k] && y[..n][..k] == y[..k];
    }
  }

  lemma {:induction false} OrderIsLexicographic(x: seq<Byte>, y: seq<Byte>)
    requires |x| == |y|
    ensures BigEndian(x) < BigEndian(y) <==> LexLess(x, y)
    ensures BigEndian(x) == BigEndian(y) <==> x == y
    decreases |x|
  {
    if x != [] {
      var n := |x| - 1;
      OrderIsLexicographic(x[..n], y[..n]);
      LexLessSnoc(x, y);
      assert x == x[..n] + [x[n]] && y == y[..n] + [y[n]];
    } else {
      assert x == y;
    }
  }

  // ---- The metric laws ----

  lemma XorBytesCancel(a: seq<Byte>, b: seq<Byte>)
    requires |a| == |b|
    ensures XorBytes(a, XorBytes(a, b)) == b
  {
    var back := XorBytes(a, XorBytes(a, b));
    forall i | 0 <= i < |a| ensures back[i] == b[i] {
      XorCancels(a[i], b[i]);
    }
  }

  lemma Symmetric(a: Hash, b: Hash)
    ensures Distance(a, b) == Distance(b, a)
  {
    var x, y := XorBytes(a, b), XorBytes(b, a);
    forall i | 0 <= i < 32 ensures x[i] == y[i] {
      XorSymmetric(a[i], b[i]);
    }
    assert x == y;
  }

  /** For one hash, different other hashes lie at different distances ... */
  lemma Unidirectional(a: Hash, b: Hash, c: Hash)
    ensures Distance(a, b) == Distance(a, c) <==> b == c
  {
    OrderIsLexicographic(XorBytes(a, b), XorBytes(a, c));
    XorBytesCancel(a, b);
    XorBytesCancel(a, c);
  }

  /** ... and every 32-byte value is the distance of exactly one other hash. */
  lemma EveryDistanceIsTaken(a: Hash, x: Hash)
    ensures Distance(a, XorBytes(a, x)) == BigEndian(x)
  {
    XorBytesCancel(a, x);
  }

  lemma {:induction false} ZeroBytes(s: seq<Byte>)
    requires forall i :: 0 <= i < |s| ==> s[i] == 0
    ensures BigEndian(s) == 0
    decreases |s|
  {
    if s != [] {
      ZeroBytes(s[..|s| - 1]);
    }
  }

  lemma {:induction false} XorSelf(x: nat)
    ensures Xor(x, x) == 0
  {
    if x != 0 {
      XorSelf(x / 2);
    }
  }

  lemma ZeroIffEqual(a: Hash, b: Hash)
    ensures Distance(a, b) == 0 <==> a == b
  {
    forall i | 0 <= i < 32 ensures XorBytes(a, a)[i] == 0 {
      XorSelf(a[i]);
    }
    ZeroBytes(XorBytes(a, a));
    Unidirectional(a, a, b);
  }

  lemma {:induction false} TriangleBytes(a: seq<Byte>, b: seq<Byte>, c: seq<Byte>)
    requires |a| == |b| == |c|
    ensures BigEndian(XorBytes(a, c)) <= BigEndian(XorBytes(a, b)) + BigEndian(XorBytes(b, c))
    decreases |a|
  {
    if a != [] {
      var n := |a| - 1;
      TriangleBytes(a[..n], b[..n], c[..n]);
      XorTriangle(a[n], b[n], c[n]);
      assert XorBytes(a, c)[..n] == XorBytes(a[..n], c[..n]);
      assert XorBytes(a, b)[..n] == XorBytes(a[..n], b[..n]);
      assert XorBytes(b, c)[..n] == XorBytes(b[..n], c[..n]);
    }
  }

  lemma Triangle(a: Hash, b: Hash, c: Hash)
    ensures Distance(a, c) <= Distance(a, b) + Distance(b, c)
  {
    TriangleBytes(a, b, c);
  }
}
