// The Modbus CRC-16 of main/pzem_reader.c (section 2.5.1.2 of MODBUS over Serial Line V1.02)
// and what it detects, for messages of any length.
//
// The code keeps the register in a 16-bit word; the theory is over its bits, least
// significant first, and Crc16 ties the two together.

module ModbusCrc {
  import opened Words

  const SEED := 0xFFFF
  const POLYNOMIAL := 0xA001

  type Register = c: Bits | |c| == 16 witness seq(16, _ => false)

  predicate Tap(i: int) { i == 0 || i == 13 || i == 15 }

  function Zero(): (c: Register)
    ensures forall i :: 0 <= i < 16 ==> !c[i]
  {
    seq(16, _ => false)
  }

  function Polynomial(): (c: Register)
    ensures forall i :: 0 <= i < 16 ==> c[i] == Tap(i)
  {
    seq(16, i => Tap(i))
  }

  // One bit of input: it meets the low bit, everything moves down, and if the two differed
  // the polynomial is folded in.
  function InBit(c: Register, b: bool): (r: Register)
    ensures forall i :: 0 <= i < 16 ==> r[i] == ((i < 15 && c[i + 1]) != (c[0] != b && Tap(i)))
  {
    seq(16, i requires 0 <= i < 16 => (i < 15 && c[i + 1]) != (c[0] != b && Tap(i)))
  }

  // The bit-serial CRC.
  function Feed(c: Register, bits: Bits): Register
    decreases |bits|
  {
    if bits == [] then c else Feed(InBit(c, bits[0]), bits[1..])
  }

  // --- The same, a byte at a time ---

  function BitStep(c: nat): nat {
    if c % 2 == 1 then Xor(c / 2, POLYNOMIAL) else c / 2
  }

  function Steps(c: nat, n: nat): nat
    decreases n, c
  {
    if n == 0 then c else Steps(BitStep(c), n - 1)
  }

  function ByteStep(c: nat, b: Byte): nat { Steps(Xor(c, b), 8) }

  function CrcFrom(c: nat, data: seq<Byte>): nat
    decreases |data|
  {
    if data == [] then c else CrcFrom(ByteStep(c, data[0]), data[1..])
  }

  function Crc(data: seq<Byte>): nat { CrcFrom(SEED, data) }

  method Crc16(buf: array<Byte>, len: nat) returns (crc: nat)
    requires len <= buf.Length
    ensures crc == Crc(buf[..len])
  {
    crc := 0xFFFF;
    for i := 0 to len
      invariant CrcFrom(crc, buf[i..len]) == Crc(buf[..len])
    {
      assert buf[i..len][0] == buf[i] && buf[i..len][1..] == buf[i + 1..len];
      crc := Xor(crc, buf[i]);
      ghost var mixed := crc;
      for j := 0 to 8
        invariant Steps(crc, 8 - j) == Steps(mixed, 8)
      {
        crc := if crc % 2 == 1 then Xor(crc / 2, 0xA001) else crc / 2;
      }
    }
  }

  // --- The two agree ---

  function RegisterOf(c: nat): Register { BitsOf(c, 16) }

  // Bits folded into the low end of the register.
  function Mixed(c: Register, v: Bits): (r: Register)
    requires |v| <= 16
    ensures forall i :: 0 <= i < 16 ==> r[i] == (c[i] != (i < |v| && v[i]))
  {
    seq(16, i requires 0 <= i < 16 => c[i] != (i < |v| && v[i]))
  }

  lemma TapsOfPolynomial()
    ensures RegisterOf(POLYNOMIAL) == Polynomial() && POLYNOMIAL < Pow2(16)
  {
    ByteBelow(0);
    JoinedBytes(0x01, 0xA0);
    TapsInBytes(ByteBits(0x01), ByteBits(0xA0));
  }

  lemma JoinedBytes(lo: Byte, hi: Byte)
    ensures RegisterOf(Word(hi, lo)) == ByteBits(lo) + ByteBits(hi)
  {
    ByteBelow(lo);
    JoinedBits(lo, hi, 8, 8);
  }

  lemma {:induction false} TapsInBytes(lo: Bits, hi: Bits)
    requires lo == ByteBits(0x01) && hi == ByteBits(0xA0)
    ensures lo + hi == Polynomial()
  {
    LowTaps();
    HighTaps();
  }

  lemma LowTaps()
    ensures BitsOf(0x01, 8) == [true, false, false, false, false, false, false, false]
  {
  }

  lemma HighTaps()
    ensures BitsOf(0xA0, 8) == [false, false, false, false, false, true, false, true]
  {
  }

  lemma BitStepIsInBit(c: nat)
    requires c < Pow2(16)
    ensures BitStep(c) < Pow2(16) && RegisterOf(BitStep(c)) == InBit(RegisterOf(c), false)
  {
    TapsOfPolynomial();
    ShiftedBits(c, 16);
    XorBelow(c / 2, POLYNOMIAL, 16);
    XorBits(c / 2, POLYNOMIAL, 16);
    assert RegisterOf(c)[0] == (c % 2 == 1);
  }

  // Folding bits in at once and stepping is feeding them one at a time.
  lemma MixedStep(c: Register, v: Bits)
    requires 0 < |v| <= 16
    ensures InBit(Mixed(c, v), false) == Mixed(InBit(c, v[0]), v[1..])
  {
  }

  lemma {:induction false} StepsFeed(c: nat, d: Register, v: Bits)
    requires c < Pow2(16) && |v| <= 16 && RegisterOf(c) == Mixed(d, v)
    ensures Steps(c, |v|) < Pow2(16) && RegisterOf(Steps(c, |v|)) == Feed(d, v)
    decreases |v|
  {
    if v == [] {
      assert Mixed(d, v) == d;
    } else {
      BitStepIsInBit(c);
      MixedStep(d, v);
      StepsFeed(BitStep(c), InBit(d, v[0]), v[1..]);
    }
  }

  function ByteBits(b: Byte): Bits { BitsOf(b, 8) }

  function MessageBits(data: seq<Byte>): (r: Bits)
    ensures |r| == 8 * |data|
  {
    if data == [] then [] else ByteBits(data[0]) + MessageBits(data[1..])
  }

  lemma FeedByte(c: nat, b: Byte)
    requires c < Pow2(16)
    ensures ByteStep(c, b) < Pow2(16) && RegisterOf(ByteStep(c, b)) == Feed(RegisterOf(c), ByteBits(b))
  {
    ByteBelow(b);
    XorBelow(c, b, 16);
    XorBits(c, b, 16);
    JoinedBits(b, 0, 8, 8);
    ZeroBits(8);
    StepsFeed(Xor(c, b), RegisterOf(c), ByteBits(b));
  }

  lemma ByteBelow(b: Byte)
    ensures b < Pow2(8) == 256 && Pow2(16) == 0x1_0000
  {
    assert Pow2(4) == 16;
    assert Pow2(8) == 256;
    assert Pow2(12) == 4096;
  }

  lemma {:induction false} FeedAppend(c: Register, a: Bits, b: Bits)
    ensures Feed(c, a + b) == Feed(Feed(c, a), b)
    decreases |a|
  {
    if a == [] {
      assert a + b == b;
    } else {
      assert (a + b)[1..] == a[1..] + b;
      FeedAppend(InBit(c, a[0]), a[1..], b);
    }
  }

  // The byte-wise computation is the bit-serial one.
  lemma {:induction false} CrcIsFeed(c: nat, data: seq<Byte>)
    requires c < Pow2(16)
    ensures CrcFrom(c, data) < Pow2(16) && RegisterOf(CrcFrom(c, data)) == Feed(RegisterOf(c), MessageBits(data))
    decreases |data|
  {
    if data != [] {
      FeedAppend(RegisterOf(c), ByteBits(data[0]), MessageBits(data[1..]));
      FeedByte(c, data[0]);
      CrcIsFeed(ByteStep(c, data[0]), data[1..]);
    }
  }

  // --- Linearity ---

  lemma {:induction false} FeedLinear(c: Register, d: Register, a: Bits, b: Bits)
    requires |a| == |b|
    ensures Feed(Differ(c, d), Differ(a, b)) == Differ(Feed(c, a), Feed(d, b))
    decreases |a|
  {
    if a != [] {
      assert InBit(Differ(c, d), a[0] != b[0]) == Differ(InBit(c, a[0]), InBit(d, b[0]));
      FeedLinear(InBit(c, a[0]), InBit(d, b[0]), a[1..], b[1..]);
      assert Differ(a, b)[1..] == Differ(a[1..], b[1..]);
    }
  }

  // The zero register is the only one a zero bit takes to zero.
  lemma ZeroStep(c: Register)
    ensures InBit(c, false) == Zero() <==> c == Zero()
  {
    var r := InBit(c, false);
    if r == Zero() {
      assert r[15] == c[0];
      forall i | 0 < i < 16 ensures !c[i] {
        assert !r[i - 1];
      }
      assert c == Zero();
    }
  }

  lemma {:induction false} QuietZero(c: Register, bits: Bits)
    requires forall i :: 0 <= i < |bits| ==> !bits[i]
    ensures Feed(c, bits) == Zero() <==> c == Zero()
    decreases |bits|
  {
    if bits != [] {
      ZeroStep(c);
      QuietZero(InBit(c, false), bits[1..]);
    }
  }

  // Sixteen bits bring the register to zero exactly when they are its own contents.
  lemma {:induction false} MixedFeed(c: Register, v: Bits, rest: Bits)
    requires |v| <= 16 && |rest| == |v| && forall i :: 0 <= i < |v| ==> !rest[i]
    ensures Feed(c, v) == Feed(Mixed(c, v), rest)
    decreases |v|
  {
    if v == [] {
      assert Mixed(c, v) == c;
    } else {
      MixedStep(c, v);
      MixedFeed(InBit(c, v[0]), v[1..], rest[1..]);
    }
  }

  lemma OwnContentsCancel(c: Register, v: Register)
    ensures Feed(c, v) == Zero() <==> v == c
  {
    MixedFeed(c, v, Zero());
    QuietZero(Mixed(c, v), Zero());
    if Mixed(c, v) == Zero() {
      assert forall i :: 0 <= i < 16 ==> !Mixed(c, v)[i];
      assert v == c;
    }
  }

  // --- The seed ---

  // The first sixteen bits turned over.
  function Turned(bits: Bits): (r: Bits)
    ensures |r| == |bits| && forall i :: 0 <= i < |bits| ==> r[i] == (bits[i] != (i < 16))
  {
    seq(|bits|, i requires 0 <= i < |bits| => bits[i] != (i < 16))
  }

  lemma SeedIsOnes()
    ensures SEED < Pow2(16) && forall i :: 0 <= i < 16 ==> RegisterOf(SEED)[i]
  {
    ByteBelow(0);
    JoinedBytes(0xFF, 0xFF);
    OnesInBytes(ByteBits(0xFF));
  }

  lemma {:induction false} OnesInBytes(b: Bits)
    requires b == ByteBits(0xFF)
    ensures |b| == 8 && forall i :: 0 <= i < 16 ==> (b + b)[i]
  {
    OnesOfByte();
  }

  lemma OnesOfByte()
    ensures BitsOf(0xFF, 8) == [true, true, true, true, true, true, true, true]
  {
  }

  // Sixteen bits into a register of ones are those bits turned over into the zero register.
  lemma {:induction false} TurnedStart(c: Register, v: Bits)
    requires |v| == 16 && forall i :: 0 <= i < 16 ==> c[i]
    ensures Feed(c, v) == Feed(Zero(), Turned(v))
  {
    MixedFeed(c, v, Zero());
    MixedFeed(Zero(), Turned(v), Zero());
    assert Mixed(c, v) == Mixed(Zero(), Turned(v));
  }

  lemma {:induction false} OnesFeed(c: Register, m: Bits)
    requires |m| >= 16 && forall i :: 0 <= i < 16 ==> c[i]
    ensures Feed(c, m) == Feed(Zero(), Turned(m))
  {
    var v, rest := m[..16], m[16..];
    TurnedStart(c, v);
    FeedAppend(c, v, rest);
    FeedAppend(Zero(), Turned(v), rest);
    assert v + rest == m && Turned(v) + rest == Turned(m);
  }

  // The register begins at all ones: the CRC of a message is that of the message with its first
  // sixteen bits turned over, begun at zero.
  lemma {:induction false} PresetToOnes(data: seq<Byte>)
    requires |data| >= 2
    ensures RegisterOf(Crc(data)) == Feed(Zero(), Turned(MessageBits(data)))
  {
    SeedIsOnes();
    CrcIsFeed(SEED, data);
    OnesFeed(RegisterOf(SEED), MessageBits(data));
  }

  // --- Frames that pass the check ---

  // A frame is a message followed by its CRC, low byte first.
  predicate Passes(frame: seq<Byte>) {
    |frame| >= 2 &&
    var n := |frame| - 2;
    Word(frame[n + 1], frame[n]) == Crc(frame[..n])
  }

  function WithCrc(data: seq<Byte>): seq<Byte> { data + [Crc(data) % 256, Crc(data) / 256 % 256] }

  lemma {:induction false} CrcIsWord(data: seq<Byte>)
    ensures Crc(data) <= 65535
  {
    ByteBelow(0);
    CrcIsFeed(SEED, data);
  }

  lemma SplitWord(c: nat)
    requires c <= 65535
    ensures Word(c / 256 % 256, c % 256) == c
  {
  }

  lemma {:induction false} AppendedPasses(data: seq<Byte>)
    ensures Passes(WithCrc(data))
  {
    CrcIsWord(data);
    SplitWord(Crc(data));
    assert WithCrc(data)[..|data|] == data;
  }

  lemma {:induction false} MessageBitsAppend(a: seq<Byte>, b: seq<Byte>)
    ensures MessageBits(a + b) == MessageBits(a) + MessageBits(b)
    decreases |a|
  {
    if a == [] {
      assert a + b == b;
    } else {
      assert (a + b)[1..] == a[1..] + b;
      MessageBitsAppend(a[1..], b);
    }
  }

  lemma TrailerBits(lo: Byte, hi: Byte)
    ensures RegisterOf(Word(hi, lo)) == MessageBits([lo, hi])
  {
    JoinedBytes(lo, hi);
    assert [lo, hi][1..] == [hi] && [hi][1..] == [];
  }

  // A frame passes exactly when the register ends at zero over the whole of it.
  lemma {:induction false} PassesIffZero(frame: seq<Byte>)
    requires |frame| >= 2
    ensures Passes(frame) <==> Feed(RegisterOf(SEED), MessageBits(frame)) == Zero()
  {
    var n := |frame| - 2;
    var lo, hi := frame[n], frame[n + 1];
    assert frame == frame[..n] + [lo, hi];
    ByteBelow(0);
    MessageBitsAppend(frame[..n], [lo, hi]);
    FeedAppend(RegisterOf(SEED), MessageBits(frame[..n]), MessageBits([lo, hi]));
    CrcIsFeed(SEED, frame[..n]);
    TrailerBits(lo, hi);
    OwnContentsCancel(RegisterOf(Crc(frame[..n])), MessageBits([lo, hi]));
    SameValue(Word(hi, lo), Crc(frame[..n]), 16);
  }

  // The exact set of undetected errors: a frame that arrives in place of a good one passes
  // exactly when the pattern of wrong bits takes the zero register back to zero.
  lemma {:induction false} UndetectedIffNull(f: seq<Byte>, g: seq<Byte>)
    requires |f| == |g| && Passes(f)
    ensures Passes(g) <==> Feed(Zero(), Differ(MessageBits(f), MessageBits(g))) == Zero()
  {
    var a, b := MessageBits(f), MessageBits(g);
    var c := RegisterOf(SEED);
    PassesIffZero(f);
    PassesIffZero(g);
    FeedLinear(c, c, a, b);
    assert Differ(c, c) == Zero();
    var d := Differ(Feed(c, a), Feed(c, b));
    assert d == Feed(Zero(), Differ(a, b));
    assert forall i :: 0 <= i < 16 ==> d[i] == Feed(c, b)[i];
    assert d == Feed(c, b);
  }

  // --- Bursts ---

  // A register that n <= 15 bits can bring to zero is zero from bit n up.
  lemma {:induction false} ReachesZero(c: Register, bits: Bits)
    requires |bits| <= 15 && Feed(c, bits) == Zero()
    ensures forall i :: |bits| <= i < 16 ==> !c[i]
    decreases |bits|
  {
    if bits != [] {
      var r := InBit(c, bits[0]);
      ReachesZero(r, bits[1..]);
      assert !r[15];
      forall i | |bits| <= i < 16 ensures !c[i] {
        assert !r[i - 1];
      }
    }
  }

  // A pattern that takes zero to zero is quiet once all its set bits lie within 16 of each other.
  lemma {:induction false} ShortBurstIsQuiet(bits: Bits, n: nat)
    requires Feed(Zero(), bits) == Zero()
    requires forall i :: 0 <= i < |bits| && bits[i] ==> n <= i < n + 16
    ensures forall i :: 0 <= i < |bits| ==> !bits[i]
    decreases |bits|
  {
    if bits != [] {
      var rest := bits[1..];
      if bits[0] {
        var c := InBit(Zero(), true);
        var k := if |rest| <= 15 then |rest| else 15;
        assert rest == rest[..k] + rest[k..];
        FeedAppend(c, rest[..k], rest[k..]);
        QuietZero(Feed(c, rest[..k]), rest[k..]);
        assert c[15];
        ReachesZero(c, rest[..k]);
        assert false;
      } else {
        assert InBit(Zero(), false) == Zero();
        ShortBurstIsQuiet(rest, if n > 0 then n - 1 else 0);
        assert forall i :: 1 <= i < |bits| ==> bits[i] == rest[i - 1];
      }
    }
  }

  lemma {:induction false} FrameFromBits(f: seq<Byte>, g: seq<Byte>)
    requires |f| == |g| && MessageBits(f) == MessageBits(g)
    ensures f == g
    decreases |f|
  {
    if f != [] {
      assert MessageBits(f)[..8] == ByteBits(f[0]) && MessageBits(g)[..8] == ByteBits(g[0]);
      assert MessageBits(f)[8..] == MessageBits(f[1..]) && MessageBits(g)[8..] == MessageBits(g[1..]);
      ByteBelow(f[0]);
      ByteBelow(g[0]);
      SameValue(f[0], g[0], 8);
      FrameFromBits(f[1..], g[1..]);
    }
  }

  // Every error burst within 16 consecutive bits is detected: two frames of one length that
  // both pass and differ only inside such a window are the same frame.
  lemma {:induction false} BurstsDetected(f: seq<Byte>, g: seq<Byte>, n: nat)
    requires |f| == |g| && Passes(f) && Passes(g)
    requires forall i :: 0 <= i < 8 * |f| && MessageBits(f)[i] != MessageBits(g)[i] ==> n <= i < n + 16
    ensures f == g
  {
    var d := Differ(MessageBits(f), MessageBits(g));
    UndetectedIffNull(f, g);
    ShortBurstIsQuiet(d, n);
    assert forall i :: 0 <= i < 8 * |f| ==> !d[i];
    FrameFromBits(f, g);
  }

  // The generator x^16 + x^15 + x^2 + 1, its highest power first.
  function Generator(): (g: Bits)
    ensures |g| == 17
  {
    [true, true, false, false, false, false, false, false, false, false, false, false, false, false, true, false, true]
  }

  lemma GeneratorIs()
    ensures Generator() == [true] + Polynomial()
  {
    var g, p := Generator(), [true] + Polynomial();
    forall i | 0 <= i < 17 ensures g[i] == p[i] {
    }
  }

  // Sixteen is the limit: the generator itself, 17 bits long, goes unnoticed wherever it falls.
  lemma {:induction false} GeneratorUndetected(before: Bits, after: Bits)
    requires forall i :: 0 <= i < |before| ==> !before[i]
    requires forall i :: 0 <= i < |after| ==> !after[i]
    ensures Feed(Zero(), before + Generator() + after) == Zero()
  {
    GeneratorIs();
    FoldsAway(before, Generator(), after);
  }

  lemma {:induction false} FoldsAway(before: Bits, g: Bits, after: Bits)
    requires (forall i :: 0 <= i < |before| ==> !before[i]) && g == [true] + Polynomial()
    requires forall i :: 0 <= i < |after| ==> !after[i]
    ensures Feed(Zero(), before + g + after) == Zero()
  {
    FeedAppend(Zero(), before + g, after);
    FeedAppend(Zero(), before, g);
    QuietZero(Zero(), before);
    assert g[1..] == Polynomial();
    assert InBit(Zero(), true) == Polynomial();
    OwnContentsCancel(Polynomial(), Polynomial());
    QuietZero(Zero(), after);
  }

  // --- Odd errors ---

  function Ones(bits: Bits): nat {
    if bits == [] then 0 else (if bits[0] then 1 else 0) + Ones(bits[1..])
  }

  lemma {:induction false} OnesAppend(a: Bits, b: Bits)
    ensures Ones(a + b) == Ones(a) + Ones(b)
    decreases |a|
  {
    if a == [] {
      assert a + b == b;
    } else {
      assert (a + b)[1..] == a[1..] + b;
      OnesAppend(a[1..], b);
    }
  }

  lemma {:induction false} OnesOfQuiet(bits: Bits)
    requires forall i :: 0 <= i < |bits| ==> !bits[i]
    ensures Ones(bits) == 0
  {
    if bits != [] {
      OnesOfQuiet(bits[1..]);
    }
  }

  // Exclusive-or adds counts of ones modulo 2; k is the number of ones in common.
  lemma {:induction false} OnesDiffer(a: Bits, b: Bits) returns (k: nat)
    requires |a| == |b|
    ensures Ones(Differ(a, b)) + 2 * k == Ones(a) + Ones(b)
    decreases |a|
  {
    k := 0;
    if a != [] {
      assert Differ(a, b)[1..] == Differ(a[1..], b[1..]);
      k := OnesDiffer(a[1..], b[1..]);
      k := if a[0] && b[0] then k + 1 else k;
    }
  }

  lemma OnesOfPolynomial()
    ensures Ones(Polynomial()) == 3
  {
    var gap := Polynomial()[1..13];
    PolynomialParts(gap);
    OnesAppend([true], gap + [true, false, true]);
    OnesAppend(gap, [true, false, true]);
    OnesOfQuiet(gap);
    OnesOfTop();
  }

  lemma PolynomialParts(gap: Bits)
    requires gap == Polynomial()[1..13]
    ensures Polynomial() == [true] + (gap + [true, false, true])
  {
  }

  lemma OnesOfTop()
    ensures Ones([true]) == 1 && Ones([true, false, true]) == 2
  {
    OnesAppend([true], [false, true]);
    OnesAppend([false], [true]);
    assert [true, false, true] == [true] + [false, true] && [false, true] == [false] + [true];
  }

  lemma InBitFolds(c: Register, b: bool)
    ensures InBit(c, b) == Differ(c[1..] + [false], if c[0] != b then Polynomial() else Zero())
  {
  }

  // The polynomial has an odd number of taps, so the register's parity counts the input bits.
  lemma InBitParity(c: Register, b: bool) returns (k: int)
    ensures Ones(InBit(c, b)) == Ones(c) + (if b then 1 else 0) + 2 * k
  {
    InBitFolds(c, b);
    OnesAppend(c[1..], [false]);
    if c[0] != b {
      OnesOfPolynomial();
      k := OnesDiffer(c[1..] + [false], Polynomial());
      k := 1 - k;
    } else {
      OnesOfQuiet(Zero());
      k := OnesDiffer(c[1..] + [false], Zero());
      k := if b then -1 - k else -k;
    }
  }

  lemma {:induction false} FeedParity(c: Register, bits: Bits) returns (k: int)
    ensures Ones(Feed(c, bits)) == Ones(c) + Ones(bits) + 2 * k
    decreases |bits|
  {
    k := 0;
    if bits != [] {
      k := InBitParity(c, bits[0]);
      var rest := FeedParity(InBit(c, bits[0]), bits[1..]);
      k := k + rest;
    }
  }

  // Every odd number of wrong bits is detected: two passing frames differ in an even number.
  lemma {:induction false} OddErrorsDetected(f: seq<Byte>, g: seq<Byte>)
    requires |f| == |g| && Passes(f) && Passes(g)
    ensures Ones(Differ(MessageBits(f), MessageBits(g))) % 2 == 0
  {
    UndetectedIffNull(f, g);
    NullIsEven(Differ(MessageBits(f), MessageBits(g)));
  }

  lemma {:induction false} NullIsEven(bits: Bits)
    requires Feed(Zero(), bits) == Zero()
    ensures Ones(bits) % 2 == 0
  {
    var k := FeedParity(Zero(), bits);
    OnesOfQuiet(Zero());
  }
}
