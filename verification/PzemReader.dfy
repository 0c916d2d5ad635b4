// The energy meter of main/pzem_reader.c: one Modbus request and response, and the energy
// used since the UTC day began.

module PzemReader {
  import opened Words
  import opened ModbusCrc

  const REQUEST_BYTES := 8
  const RESPONSE_BYTES := 25

  // A reading in the meter's own units: 0.1 V, 0.001 A, 0.1 W and 1 Wh.
  datatype Reading = Reading(voltage: nat, current: nat, power: nat, energy: nat)

  predicate InRange(r: Reading) {
    r.voltage < 0x1_0000 && r.current < 0x1_0000_0000 && r.power < 0x1_0000_0000 && r.energy < 0x1_0000_0000
  }

  datatype Outcome = Timeout | Fail | Ok(reading: Reading)

  // --- What goes over the wire ---

  // One 16-bit register, and a 32-bit value as two of them, the low register first.
  function Register16(v: nat): (r: seq<Byte>)
    requires v < 0x1_0000
    ensures |r| == 2
  {
    [v / 256, v % 256]
  }

  function Register32(v: nat): (r: seq<Byte>)
    requires v < 0x1_0000_0000
    ensures |r| == 4
  {
    Register16(v % 0x1_0000) + Register16(v / 0x1_0000)
  }

  // The frame a meter at some address sends for a reading; `rest` is frequency, power factor
  // and alarm status.
  function FrameOf(address: Byte, r: Reading, rest: seq<Byte>): (frame: seq<Byte>)
    requires InRange(r) && |rest| == 6
    ensures |frame| == RESPONSE_BYTES
  {
    WithCrc([address, 4, 20] + Register16(r.voltage) + Register32(r.current) + Register32(r.power)
            + Register32(r.energy) + rest)
  }

  // --- The code ---

  method BuildRequest() returns (tx: array<Byte>)
    ensures fresh(tx) && tx.Length == REQUEST_BYTES && tx[..6] == [0xF8, 4, 0, 0, 0, 10]
    ensures Passes(tx[..])
  {
    tx := new Byte[REQUEST_BYTES](_ => 0);
    StoreHeader(tx);
    ghost var body := tx[..6];
    StoreCrc(tx);
    AppendedPasses(body);
    assert tx[..6] == body;
  }

  // Address, function, first register and number of registers.
  method StoreHeader(tx: array<Byte>)
    requires tx.Length == REQUEST_BYTES
    modifies tx
    ensures tx[..6] == [0xF8, 4, 0, 0, 0, 10]
  {
    tx[0], tx[1], tx[2], tx[3], tx[4], tx[5] := 0xF8, 4, 0, 0, 0, 0x0A;
  }

  lemma HighByte(crc: nat)
    requires crc <= 65535
    ensures crc / 256 % 256 == crc / 256 < 256
  {
  }

  method StoreCrc(tx: array<Byte>)
    requires tx.Length == REQUEST_BYTES
    modifies tx
    ensures tx[..] == WithCrc(old(tx[..6]))
  {
    var crc := Crc16(tx, 6);
    CrcIsWord(tx[..6]);
    HighByte(crc);
    tx[6] := crc % 256;
    tx[7] := crc / 256;
    assert tx[..] == old(tx[..6]) + [crc % 256, crc / 256];
  }

  // The outcome for what the port returned: how much was written, how much was read.
  function Verdict(written: int, n: int, resp: seq<Byte>): Outcome
    requires |resp| == RESPONSE_BYTES
  {
    if written != REQUEST_BYTES then Fail
    else if n <= 0 then Timeout
    else if n != RESPONSE_BYTES || resp[1] != 4 || resp[2] != 20 || !Passes(resp) then Fail
    else Ok(Decoded(resp))
  }

  function Decoded(resp: seq<Byte>): Reading
    requires |resp| == RESPONSE_BYTES
  {
    Reading(Word(resp[3], resp[4]),
            Word(resp[7], resp[8]) * 0x1_0000 + Word(resp[5], resp[6]),
            Word(resp[11], resp[12]) * 0x1_0000 + Word(resp[9], resp[10]),
            Word(resp[15], resp[16]) * 0x1_0000 + Word(resp[13], resp[14]))
  }

  method Read(written: int, n: int, resp: array<Byte>) returns (r: Outcome)
    requires resp.Length == RESPONSE_BYTES
    ensures r == Verdict(written, n, resp[..])
  {
    if written != REQUEST_BYTES { return Fail; }
    if n <= 0 { return Timeout; }
    if n != RESPONSE_BYTES { return Fail; }
    if resp[1] != 4 || resp[2] != 20 { return Fail; }
    var got := Word(resp[24], resp[23]);
    var want := Crc16(resp, 23);
    assert resp[..][..23] == resp[..23];
    if got != want { return Fail; }
    r := Ok(Decoded(resp[..]));
  }

  // --- What is accepted ---

  lemma RegisterRoundTrip(hi: Byte, lo: Byte)
    ensures Register16(Word(hi, lo)) == [hi, lo]
  {
  }

  lemma Register32RoundTrip(a: Byte, b: Byte, c: Byte, d: Byte)
    ensures Word(c, d) * 0x1_0000 + Word(a, b) < 0x1_0000_0000
    ensures Register32(Word(c, d) * 0x1_0000 + Word(a, b)) == [a, b, c, d]
  {
    RegisterRoundTrip(a, b);
    RegisterRoundTrip(c, d);
    var v := Word(c, d) * 0x1_0000 + Word(a, b);
    assert v / 0x1_0000 == Word(c, d) && v % 0x1_0000 == Word(a, b);
  }

  lemma Value32(v: nat)
    requires v < 0x1_0000_0000
    ensures var r := Register32(v); Word(r[2], r[3]) * 0x1_0000 + Word(r[0], r[1]) == v
  {
  }

  // Sound: an accepted response is exactly the frame of the reading it decodes to.
  lemma {:induction false} AcceptedIsFrame(resp: seq<Byte>)
    requires |resp| == RESPONSE_BYTES && resp[1] == 4 && resp[2] == 20 && Passes(resp)
    ensures InRange(Decoded(resp)) && resp == FrameOf(resp[0], Decoded(resp), resp[17..23])
  {
    Register32RoundTrip(resp[5], resp[6], resp[7], resp[8]);
    Register32RoundTrip(resp[9], resp[10], resp[11], resp[12]);
    Register32RoundTrip(resp[13], resp[14], resp[15], resp[16]);
    RegisterRoundTrip(resp[3], resp[4]);
    assert resp[..23] == [resp[0], 4, 20] + [resp[3], resp[4]] + [resp[5], resp[6], resp[7], resp[8]]
                         + [resp[9], resp[10], resp[11], resp[12]] + [resp[13], resp[14], resp[15], resp[16]] + resp[17..23];
    TrailerIsCrc(resp);
  }

  lemma BytesOf(hi: Byte, lo: Byte)
    ensures Word(hi, lo) % 256 == lo && Word(hi, lo) / 256 % 256 == hi
  {
  }

  lemma {:induction false} TrailerIsCrc(frame: seq<Byte>)
    requires |frame| >= 2 && Passes(frame)
    ensures frame == WithCrc(frame[..|frame| - 2])
  {
    var n := |frame| - 2;
    BytesOf(frame[n + 1], frame[n]);
    assert frame == frame[..n] + [frame[n], frame[n + 1]];
  }

  // Complete: every frame of a reading is accepted and decodes to that reading.
  lemma {:induction false} FrameIsAccepted(address: Byte, r: Reading, rest: seq<Byte>)
    requires InRange(r) && |rest| == 6
    ensures Verdict(REQUEST_BYTES, RESPONSE_BYTES, FrameOf(address, r, rest)) == Ok(r)
  {
    var frame := FrameOf(address, r, rest);
    AppendedPasses(frame[..23]);
    var i, p, e := Register32(r.current), Register32(r.power), Register32(r.energy);
    Value32(r.current);
    Value32(r.power);
    Value32(r.energy);
    assert frame[..23] == [address, 4, 20] + Register16(r.voltage) + i + p + e + rest;
    assert frame[3..5] == Register16(r.voltage) && frame[5..9] == i && frame[9..13] == p && frame[13..17] == e;
  }

  // Both ways: a read succeeds with r exactly when all bytes went out, 25 came back, and they
  // are the frame of r from some address.
  lemma {:induction false} OkIffFrame(written: int, n: int, resp: seq<Byte>, r: Reading)
    requires |resp| == RESPONSE_BYTES
    ensures Verdict(written, n, resp) == Ok(r) <==>
            written == REQUEST_BYTES && n == RESPONSE_BYTES && InRange(r) && resp == FrameOf(resp[0], r, resp[17..23])
  {
    if Verdict(written, n, resp) == Ok(r) {
      AcceptedIsFrame(resp);
    }
    if InRange(r) && resp == FrameOf(resp[0], r, resp[17..23]) {
      FrameIsAccepted(resp[0], r, resp[17..23]);
    }
  }

  // A timeout means that the whole request went out and nothing came back; all else that gives
  // no reading is a failure.
  lemma {:induction false} TimeoutIff(written: int, n: int, resp: seq<Byte>)
    requires |resp| == RESPONSE_BYTES
    ensures Verdict(written, n, resp) == Timeout <==> written == 8 && n <= 0
    ensures Verdict(written, n, resp) == Fail <==>
      !(written == 8 && n <= 0) && forall r :: Verdict(written, n, resp) != Ok(r)
  {
  }

  // A response damaged by a burst of at most 16 bits, or in an odd number of bits, is refused.
  lemma {:induction false} DamageIsRefused(good: seq<Byte>, bad: seq<Byte>, n: nat)
    requires |good| == |bad| == RESPONSE_BYTES && good != bad
    requires Verdict(REQUEST_BYTES, RESPONSE_BYTES, good).Ok?
    requires (forall i :: 0 <= i < 200 && MessageBits(good)[i] != MessageBits(bad)[i] ==> n <= i < n + 16)
             || Ones(Differ(MessageBits(good), MessageBits(bad))) % 2 == 1
    ensures Verdict(REQUEST_BYTES, RESPONSE_BYTES, bad) == Fail
  {
    if Passes(bad) {
      if Ones(Differ(MessageBits(good), MessageBits(bad))) % 2 == 1 {
        OddErrorsDetected(good, bad);
      } else {
        BurstsDetected(good, bad, n);
      }
    }
  }

  // --- Energy since the UTC day began ---

  const U32 := 0x1_0000_0000

  datatype Meter = Meter(midnight: nat, day: int, anchored: bool)

  datatype Sample = Sample(day: nat, energy: nat)

  class EnergyMeter {
    var midnight: nat
    var day: int
    var anchored: bool

    ghost function State(): Meter
      reads this
    {
      Meter(midnight, day, anchored)
    }

    constructor ()
      ensures State() == Initial()
    {
      midnight, day, anchored := 0, -1, false;
    }

    method EnergyToday(dayNow: nat, cumulative: nat) returns (wh: nat)
      modifies this
      ensures State() == After(old(State()), Sample(dayNow, cumulative))
      ensures wh == Reported(State(), Sample(dayNow, cumulative))
    {
      if dayNow != day {
        midnight, day, anchored := cumulative, dayNow, true;
      }
      if cumulative < midnight {
        midnight := cumulative;
        return 0;
      }
      wh := (cumulative - midnight) % U32;
    }
  }

  function Initial(): Meter { Meter(0, -1, false) }

  function After(m: Meter, s: Sample): Meter {
    if s.day != m.day then Meter(s.energy, s.day, true)
    else if s.energy < m.midnight then m.(midnight := s.energy)
    else m
  }

  // What is reported, in the unsigned arithmetic of the code.
  function Reported(m: Meter, s: Sample): (wh: nat) { (s.energy - m.midnight) % U32 }

  function AfterAll(h: seq<Sample>): Meter {
    if h == [] then Initial() else After(AfterAll(h[..|h| - 1]), h[|h| - 1])
  }

  // The last sample since which the day number has not changed.
  function DayStart(h: seq<Sample>): (k: nat)
    requires h != []
    ensures k < |h| && forall i :: k <= i < |h| ==> h[i].day == h[|h| - 1].day
    ensures k > 0 ==> h[k - 1].day != h[k].day
  {
    var n := |h| - 1;
    if n == 0 || h[n - 1].day != h[n].day then n else DayStart(h[..n])
  }

  ghost predicate IsLeast(m: nat, h: seq<Sample>, from: nat) {
    (forall i :: from <= i < |h| ==> m <= h[i].energy) && (exists i :: from <= i < |h| && m == h[i].energy)
  }

  // The anchor is the least reading since the day began.
  lemma {:induction false} AnchorIsLeast(h: seq<Sample>)
    requires h != []
    ensures AfterAll(h).day == h[|h| - 1].day && IsLeast(AfterAll(h).midnight, h, DayStart(h))
    decreases |h|
  {
    var n := |h| - 1;
    var before, s := h[..n], h[n];
    var m := AfterAll(h).midnight;
    assert m == After(AfterAll(before), s).midnight;
    if n == 0 || before[n - 1].day != s.day {
      if n > 0 {
        AnchorIsLeast(before);
      }
      assert m == h[n].energy && DayStart(h) == n;
    } else {
      AnchorIsLeast(before);
      var k := DayStart(before);
      assert DayStart(h) == k;
      assert forall i :: k <= i < n ==> before[i] == h[i];
      if s.energy < AfterAll(before).midnight {
        assert m == h[n].energy;
      } else {
        var i :| k <= i < |before| && AfterAll(before).midnight == before[i].energy;
        assert m == h[i].energy;
      }
    }
  }

  // Over any history: the report is the current reading less the least reading of the day. It
  // never wraps.
  lemma {:induction false} ReportIsSinceLeast(h: seq<Sample>, m: nat)
    requires h != [] && IsLeast(m, h, DayStart(h)) && h[|h| - 1].energy < U32
    ensures Reported(AfterAll(h), h[|h| - 1]) == h[|h| - 1].energy - m
  {
    AnchorIsLeast(h);
    var w := AfterAll(h).midnight;
    var i :| DayStart(h) <= i < |h| && m == h[i].energy;
    var j :| DayStart(h) <= j < |h| && w == h[j].energy;
    assert m <= w <= m;
  }

  // While the day lasts and the meter does not go back, neither does the report.
  lemma {:induction false} ReportGrows(h: seq<Sample>, s: Sample)
    requires h != [] && s.day == h[|h| - 1].day && h[|h| - 1].energy <= s.energy < U32
    ensures Reported(AfterAll(h + [s]), s) - Reported(AfterAll(h), h[|h| - 1]) == s.energy - h[|h| - 1].energy
  {
    AnchorIsLeast(h);
    var n := |h| - 1;
    assert (h + [s])[..|h|] == h;
    assert AfterAll(h).midnight <= h[n].energy;
    assert AfterAll(h + [s]) == AfterAll(h);
  }
}
