// The incremental Internet checksum of main/lwip_hooks.c, after section 4.2 of RFC 3022, and
// the full checksum of section 2 of RFC 1071 it stands in for.

module Checksum {

  import opened Words

  const WORD := 0x1_0000
  const RING := 65535

  // The sum of the 16-bit big-endian words of some data, an odd last byte padded with zero.
  function WordSum(data: seq<Byte>): nat {
    if data == [] then 0
    else if |data| == 1 then Word(data[0], 0)
    else Word(data[0], data[1]) + WordSum(data[2..])
  }

  // Section 2 of RFC 1071: fold the carries back in until 16 bits are left, then complement.
  function Fold(n: nat): (r: nat)
    ensures r <= RING
  {
    if n < WORD then n else Fold(n / WORD + n % WORD)
  }

  function InternetChecksum(data: seq<Byte>): (c: nat)
    ensures c <= RING
  {
    RING - Fold(WordSum(data))
  }

  // The two steps of the incremental update on the complemented checksum x: borrows and
  // carries come back around the end, and a difference of zero becomes all ones.
  function Subtract(x: nat, w: nat): (r: nat)
    requires x <= RING && w <= RING
    ensures r <= RING
  {
    if x <= w then x - w + RING else x - w
  }

  function Add(x: nat, w: nat): (r: nat)
    requires x <= RING && w <= RING
    ensures r <= RING
  {
    if x + w > RING then x + w - RING else x + w
  }

  function SubtractAll(x: nat, data: seq<Byte>): (r: nat)
    requires x <= RING
    ensures r <= RING
    decreases |data|
  {
    if |data| < 2 then x else SubtractAll(Subtract(x, Word(data[0], data[1])), data[2..])
  }

  function AddAll(x: nat, data: seq<Byte>): (r: nat)
    requires x <= RING
    ensures r <= RING
    decreases |data|
  {
    if |data| < 2 then x else AddAll(Add(x, Word(data[0], data[1])), data[2..])
  }

  function Adjusted(checksum: nat, oldData: seq<Byte>, newData: seq<Byte>): (c: nat)
    requires checksum <= RING
    ensures c <= RING
  {
    RING - AddAll(SubtractAll(RING - checksum, oldData), newData)
  }

  // Folding takes out a multiple of 65535 and reaches zero only from zero.
  lemma {:induction false} FoldIsResidue(n: nat) returns (k: int)
    ensures Fold(n) <= RING
    ensures n == Fold(n) + k * RING
    ensures Fold(n) == 0 <==> n == 0
    decreases n
  {
    k := 0;
    if n >= WORD {
      k := FoldIsResidue(n / WORD + n % WORD);
      k := k + n / WORD;
    }
  }

  // Each step keeps the residue; once x is non-zero it stays non-zero.
  lemma {:induction false} SubtractAllResidue(x: nat, data: seq<Byte>) returns (k: int)
    requires x <= RING && |data| % 2 == 0
    ensures SubtractAll(x, data) + WordSum(data) == x + k * RING
    ensures x > 0 ==> SubtractAll(x, data) > 0
    ensures WordSum(data) == 0 && data != [] ==> SubtractAll(x, data) > 0
    decreases |data|
  {
    k := 0;
    if data != [] {
      var w := Word(data[0], data[1]);
      k := SubtractAllResidue(Subtract(x, w), data[2..]);
      k := if x <= w then k + 1 else k;
    }
  }

  lemma {:induction false} AddAllResidue(x: nat, data: seq<Byte>) returns (k: int)
    requires x <= RING && |data| % 2 == 0
    ensures AddAll(x, data) + k * RING == x + WordSum(data)
    ensures AddAll(x, data) > 0 <==> x > 0 || WordSum(data) > 0
    decreases |data|
  {
    k := 0;
    if data != [] {
      var w := Word(data[0], data[1]);
      k := AddAllResidue(Add(x, w), data[2..]);
      k := if x + w > RING then k + 1 else k;
    }
  }

  // Conservation: what the checksum gains, the data lost, modulo 65535.
  lemma {:induction false} AdjustConserves(checksum: nat, oldData: seq<Byte>, newData: seq<Byte>) returns (k: int)
    requires checksum <= RING && |oldData| % 2 == 0 && |newData| % 2 == 0
    ensures Adjusted(checksum, oldData, newData) + WordSum(newData) == checksum + WordSum(oldData) + k * RING
  {
    var i := SubtractAllResidue(RING - checksum, oldData);
    var j := AddAllResidue(SubtractAll(RING - checksum, oldData), newData);
    k := j - i;
  }

  lemma {:induction false} WordSumAppend(a: seq<Byte>, b: seq<Byte>)
    requires |a| % 2 == 0
    ensures WordSum(a + b) == WordSum(a) + WordSum(b)
    decreases |a|
  {
    if a == [] {
      assert a + b == b;
    } else {
      assert (a + b)[2..] == a[2..] + b;
      WordSumAppend(a[2..], b);
    }
  }

  // Exactness: for a checksum that was right, the incremental result is bit for bit the
  // recomputed one, except when something was subtracted and nothing but zero words is left;
  // then it is the other representation of zero.
  lemma {:induction false} AdjustIsRecompute(rest: seq<Byte>, oldData: seq<Byte>, newData: seq<Byte>)
    requires |rest| % 2 == 0 && |oldData| % 2 == 0 && |newData| % 2 == 0
    ensures Adjusted(InternetChecksum(rest + oldData), oldData, newData) == InternetChecksum(rest + newData)
      <==> oldData == [] || WordSum(rest + newData) > 0
  {
    WordSumAppend(rest, oldData);
    WordSumAppend(rest, newData);
    FoldedUpdate(WordSum(rest), oldData, newData);
  }

  lemma {:induction false} FoldedUpdate(r: nat, oldData: seq<Byte>, newData: seq<Byte>)
    requires |oldData| % 2 == 0 && |newData| % 2 == 0
    ensures AddAll(SubtractAll(Fold(r + WordSum(oldData)), oldData), newData) == Fold(r + WordSum(newData))
      <==> oldData == [] || r + WordSum(newData) > 0
  {
    var n, m := r + WordSum(oldData), r + WordSum(newData);
    var a := FoldIsResidue(n);
    var b := FoldIsResidue(m);
    var x := SubtractAll(Fold(n), oldData);
    var c := SubtractAllResidue(Fold(n), oldData);
    var d := AddAllResidue(x, newData);
    Exact(n, m, Fold(n), Fold(m), x, AddAll(x, newData), r, WordSum(oldData), WordSum(newData), a, b, c, d, oldData == []);
  }

  // The arithmetic of the argument: two non-zero 16-bit values with one residue are equal.
  lemma Exact(n: nat, m: nat, f: nat, g: nat, x: nat, y: nat, r: nat, o: nat, w: nat,
              a: int, b: int, c: int, d: int, noOld: bool)
    requires n == f + a * RING && m == g + b * RING && x + o == f + c * RING && y + d * RING == x + w
    requires n == r + o && m == r + w && y <= RING && g <= RING
    requires (f == 0 <==> n == 0) && (g == 0 <==> m == 0) && (y > 0 <==> x > 0 || w > 0)
    requires (f > 0 ==> x > 0) && (o == 0 && !noOld ==> x > 0) && (noOld ==> x == f && o == 0)
    ensures y == g <==> noOld || m > 0
  {
    assert y - g == (c + b - d - a) * RING;
  }

  // A checksum with the other zero, all ones, read as zero.
  function Plain(c: nat): (r: nat)
    requires c <= RING
    ensures r < RING && r == c % RING
  {
    if c == RING then 0 else c
  }

  // The checksum over some data and words that sum up to `rest`.
  function ChecksumOver(rest: nat, data: seq<Byte>): (c: nat)
    ensures c <= RING
  {
    RING - Fold(rest + WordSum(data))
  }

  // Where something other than zeros is left to sum, the incremental result is bit for bit the
  // recomputed one exactly if the checksum was right before, in either representation of zero.
  lemma {:induction false} AdjustedIffRight(c: nat, rest: nat, oldData: seq<Byte>, newData: seq<Byte>)
    requires c <= RING && |oldData| % 2 == 0 && |newData| % 2 == 0
    requires rest > 0 && (c < RING || WordSum(newData) > 0)
    ensures Adjusted(c, oldData, newData) == ChecksumOver(rest, newData) <==> Plain(c) == ChecksumOver(rest, oldData)
  {
    var a := FoldIsResidue(rest + WordSum(oldData));
    var b := FoldIsResidue(rest + WordSum(newData));
    var k := AdjustConserves(c, oldData, newData);
    var i := SubtractAllResidue(RING - c, oldData);
    var j := AddAllResidue(SubtractAll(RING - c, oldData), newData);
    SameResidue(Adjusted(c, oldData, newData), ChecksumOver(rest, newData), c, ChecksumOver(rest, oldData), k + a - b);
  }

  lemma SameResidue(y: nat, g: nat, c: nat, f: nat, k: int)
    requires y - g == c - f + k * RING && y < RING && g < RING && c <= RING && f < RING
    ensures y == g <==> Plain(c) == f
  {
  }

  // The two bytes at `at`, as the checksum stored there.
  function WordAt(p: seq<Byte>, at: nat): (w: nat)
    requires at + 2 <= |p|
    ensures w <= RING
  {
    Word(p[at], p[at + 1])
  }

  function WithWord(p: seq<Byte>, at: nat, w: nat): (r: seq<Byte>)
    requires at + 2 <= |p| && w <= RING
    ensures |r| == |p| && WordAt(r, at) == w
    ensures forall i :: 0 <= i < |p| && i != at && i != at + 1 ==> r[i] == p[i]
  {
    p[at := w / 256][at + 1 := w % 256]
  }

  method StoreWord(buf: array<Byte>, at: nat, w: nat)
    requires at + 2 <= buf.Length && w <= RING
    modifies buf
    ensures buf[..] == WithWord(old(buf[..]), at, w)
  {
    buf[at] := w / 256;
    buf[at + 1] := w % 256;
    assert buf[..] == old(buf[..])[at := w / 256][at + 1 := w % 256];
  }

  method TakeWord(x: int, w: nat) returns (r: int)
    requires 0 <= x <= RING && w <= RING
    ensures r == Subtract(x, w)
  {
    r := x - w;
    if r <= 0 {
      r := r - 1;
      r := r % WORD;
    }
  }

  method PutWord(x: int, w: nat) returns (r: int)
    requires 0 <= x <= RING && w <= RING
    ensures r == Add(x, w)
  {
    r := x + w;
    if r >= WORD {
      r := r + 1;
      r := r % WORD;
    }
  }

  lemma {:induction false} SubtractNext(x: nat, data: seq<Byte>, i: nat)
    requires x <= RING && i + 1 < |data|
    ensures SubtractAll(x, data[i..]) == SubtractAll(Subtract(x, Word(data[i], data[i + 1])), data[i + 2..])
  {
    assert data[i..][2..] == data[i + 2..];
  }

  method TakeOut(start: nat, data: seq<Byte>) returns (x: int)
    requires start <= RING && |data| % 2 == 0
    ensures x == SubtractAll(start, data)
  {
    x := start;
    ghost var goal := SubtractAll(start, data);
    var i := 0;
    assert data[0..] == data;
    while i < |data|
      invariant 0 <= i <= |data| && i % 2 == 0 && 0 <= x <= RING
      invariant SubtractAll(x, data[i..]) == goal
    {
      SubtractNext(x, data, i);
      x := TakeWord(x, Word(data[i], data[i + 1]));
      i := i + 2;
    }
  }

  lemma {:induction false} AddNext(x: nat, data: seq<Byte>, i: nat)
    requires x <= RING && i + 1 < |data|
    ensures AddAll(x, data[i..]) == AddAll(Add(x, Word(data[i], data[i + 1])), data[i + 2..])
  {
    assert data[i..][2..] == data[i + 2..];
  }

  method PutIn(start: nat, data: seq<Byte>) returns (x: int)
    requires start <= RING && |data| % 2 == 0
    ensures x == AddAll(start, data)
  {
    x := start;
    ghost var goal := AddAll(start, data);
    var i := 0;
    assert data[0..] == data;
    while i < |data|
      invariant 0 <= i <= |data| && i % 2 == 0 && 0 <= x <= RING
      invariant AddAll(x, data[i..]) == goal
    {
      AddNext(x, data, i);
      x := PutWord(x, Word(data[i], data[i + 1]));
      i := i + 2;
    }
  }

  // One loop over the old data, one over the new.
  method AdjustWord(checksum: nat, oldData: seq<Byte>, newData: seq<Byte>) returns (c: nat)
    requires checksum <= RING && |oldData| % 2 == 0 && |newData| % 2 == 0
    ensures c == Adjusted(checksum, oldData, newData)
  {
    var x := 0xFFFF - checksum;
    x := TakeOut(x, oldData);
    x := PutIn(x, newData);
    c := 0xFFFF - x;
  }

  // The update in place.
  method ChecksumAdjust(buf: array<Byte>, at: nat, oldData: seq<Byte>, newData: seq<Byte>)
    requires at + 2 <= buf.Length && |oldData| % 2 == 0 && |newData| % 2 == 0
    modifies buf
    ensures buf[..] == WithWord(old(buf[..]), at, Adjusted(WordAt(old(buf[..]), at), oldData, newData))
  {
    var c := AdjustWord(Word(buf[at], buf[at + 1]), oldData, newData);
    StoreWord(buf, at, c);
  }
}
