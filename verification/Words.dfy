// Bytes, machine words as numbers, and their bits, least significant first.

module Words {

  type Byte = b: int | 0 <= b < 256

  function Word(hi: Byte, lo: Byte): (w: nat)
    ensures w <= 65535
  {
    (hi as int) * 256 + lo as int
  }

  // An IPv4 address in the byte order of the wire.
  type Address = a: seq<Byte> | |a| == 4 witness [0, 0, 0, 0]

  type Bits = seq<bool>

  function Pow2(n: nat): (p: nat)
    ensures p > 0
    decreases n
  {
    if n == 0 then 1 else 2 * Pow2(n - 1)
  }

  function BitsOf(v: nat, n: nat): (r: Bits)
    ensures |r| == n
    decreases n, v
  {
    if n == 0 then [] else [v % 2 == 1] + BitsOf(v / 2, n - 1)
  }

  function Differ(a: Bits, b: Bits): (r: Bits)
    requires |a| == |b|
    ensures |r| == |a| && forall i :: 0 <= i < |a| ==> r[i] == (a[i] != b[i])
  {
    seq(|a|, i requires 0 <= i < |a| => a[i] != b[i])
  }

  // Exclusive-or of words.
  function Xor(a: nat, b: nat): nat
    decreases a + b
  {
    if a + b == 0 then 0 else (if a % 2 == b % 2 then 0 else 1) + 2 * Xor(a / 2, b / 2)
  }

  lemma {:induction false} XorBelow(a: nat, b: nat, n: nat)
    requires a < Pow2(n) && b < Pow2(n)
    ensures Xor(a, b) < Pow2(n)
    decreases n
  {
    if n > 0 && a + b > 0 {
      XorBelow(a / 2, b / 2, n - 1);
    }
  }

  lemma {:induction false} XorBits(a: nat, b: nat, n: nat)
    ensures BitsOf(Xor(a, b), n) == Differ(BitsOf(a, n), BitsOf(b, n))
    decreases n
  {
    if n > 0 {
      XorHalves(a, b);
      XorBits(a / 2, b / 2, n - 1);
    }
  }

  lemma XorHalves(a: nat, b: nat)
    ensures Xor(a, b) / 2 == Xor(a / 2, b / 2)
    ensures Xor(a, b) % 2 == 1 <==> (a % 2 == 1) != (b % 2 == 1)
  {
    if a + b == 0 {
      assert a / 2 == 0 && b / 2 == 0;
    }
  }

  lemma {:induction false} SameValue(a: nat, b: nat, n: nat)
    requires a < Pow2(n) && b < Pow2(n)
    ensures BitsOf(a, n) == BitsOf(b, n) <==> a == b
    decreases n
  {
    if n > 0 {
      SameValue(a / 2, b / 2, n - 1);
      assert BitsOf(a, n)[0] == (a % 2 == 1) && BitsOf(a, n)[1..] == BitsOf(a / 2, n - 1);
      assert BitsOf(b, n)[0] == (b % 2 == 1) && BitsOf(b, n)[1..] == BitsOf(b / 2, n - 1);
    }
  }

  // Two words side by side.
  lemma {:induction false} JoinedBits(lo: nat, hi: nat, k: nat, m: nat)
    requires lo < Pow2(k)
    ensures BitsOf(lo + Pow2(k) * hi, k + m) == BitsOf(lo, k) + BitsOf(hi, m)
    decreases k
  {
    if k > 0 {
      Doubled(Pow2(k - 1), hi);
      LowestBit(lo, Pow2(k - 1) * hi, k + m);
      JoinedBits(lo / 2, hi, k - 1, m);
    }
  }

  lemma LowestBit(lo: nat, h: nat, n: nat)
    requires n > 0
    ensures BitsOf(lo + 2 * h, n) == [lo % 2 == 1] + BitsOf(lo / 2 + h, n - 1)
  {
    HalfOf(lo, h);
  }

  lemma Doubled(p: nat, h: nat)
    ensures (2 * p) * h == 2 * (p * h)
  {
  }

  lemma HalfOf(lo: nat, h: nat)
    ensures (lo + 2 * h) / 2 == lo / 2 + h && (lo + 2 * h) % 2 == lo % 2
  {
  }

  lemma {:induction false} ZeroBits(n: nat)
    ensures forall i :: 0 <= i < n ==> !BitsOf(0, n)[i]
    decreases n
  {
    if n > 0 {
      ZeroBits(n - 1);
    }
  }

  // Shifting right by one drops the lowest bit and brings in a zero at the top.
  lemma ShiftedBits(v: nat, n: nat)
    requires n > 0 && v < Pow2(n)
    ensures BitsOf(v / 2, n) == BitsOf(v, n)[1..] + [false]
  {
    JoinedBits(v / 2, 0, n - 1, 1);
    assert v / 2 + Pow2(n - 1) * 0 == v / 2;
    assert BitsOf(0, 1) == [false];
  }
}
