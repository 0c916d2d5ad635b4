// The card reader of main/rfid_reader.c, which switches the six power pins, with card
// enforcement on. A card read is an input; so is the tick counter.

module RfidReader {
  import opened Words

  const PINS := 6

  // The tick counter is 32 bits wide and runs at 100 Hz: 1000 ms are 100 ticks.
  const TICKS := 0x1_0000_0000
  const TIMEOUT := 100

  type Tick = t: nat | t < TICKS

  // What one poll finds: no card answers, one answers but its number cannot be read, or a number.
  datatype Card = Absent | Garbled | Read(uid: seq<Byte>)

  predicate Authorized(uid: seq<Byte>) {
    uid == [0x43, 0x79, 0xAD, 0x38] || uid == [0xF3, 0x95, 0xCF, 0x1E]
  }

  // `told` is what the presence callback has been told so far, if one is registered.
  datatype Rfid = Rfid(pins: seq<bool>, active: bool, allowed: bool, present: bool, lastValid: Tick,
                       listening: bool, told: seq<bool>)

  function SwitchPower(r: Rfid, on: bool): Rfid {
    var now := on && r.allowed;
    if r.active == now then r else r.(active := now, pins := seq(PINS, _ => now))
  }

  function Allow(r: Rfid, allowed: bool): Rfid {
    if r.allowed == allowed then r
    else if !allowed && r.active then SwitchPower(r.(allowed := allowed), false)
    else r.(allowed := allowed)
  }

  function Tell(r: Rfid, present: bool): Rfid {
    r.(present := present, told := if r.listening then r.told + [present] else r.told)
  }

  predicate Stale(r: Rfid, now: Tick) { (now - r.lastValid) % TICKS > TIMEOUT }

  function CutStale(r: Rfid, now: Tick): Rfid {
    if r.active && Stale(r, now) then SwitchPower(r, false) else r
  }

  function Welcome(r: Rfid, now: Tick): Rfid {
    var powered := SwitchPower(r.(lastValid := now), true);
    if powered.present then powered else Tell(powered, true)
  }

  function Reject(r: Rfid): Rfid {
    var off := SwitchPower(r, false);
    if off.present then Tell(off, false) else off
  }

  // One round of the polling loop.
  function Poll(r: Rfid, now: Tick, card: Card): Rfid {
    var cut := CutStale(r, now);
    match card
    case Read(uid) => if Authorized(uid) then Welcome(cut, now) else Reject(cut)
    case Garbled => cut
    case Absent => if cut.present && Stale(cut, now) then Tell(cut, false) else cut
  }

  // --- The code ---

  class Reader {
    const pins: array<bool>
    var active: bool
    var allowed: bool
    var present: bool
    var lastValid: Tick
    const listening: bool
    var told: seq<bool>

    ghost predicate Valid()
      reads this
    {
      pins.Length == PINS
    }

    ghost function State(): Rfid
      reads this, pins
    {
      Rfid(pins[..], active, allowed, present, lastValid, listening, told)
    }

    // The pins are driven low before anything else runs.
    constructor (listening: bool)
      ensures Valid() && fresh(pins)
      ensures State() == Rfid(seq(PINS, _ => false), false, true, false, 0, listening, [])
    {
      pins := new bool[PINS](_ => false);
      active, allowed, present, lastValid, told := false, true, false, 0, [];
      this.listening := listening;
      new;
      assert pins[..] == seq(PINS, _ => false);
    }

    method SetPowerState(on: bool)
      requires Valid()
      modifies this, pins
      ensures Valid() && State() == SwitchPower(old(State()), on)
    {
      var want := on;
      if want && !allowed {
        want := false;
      }
      if active == want { return; }
      active := want;
      for i := 0 to PINS
        invariant forall j :: 0 <= j < i ==> pins[j] == want
        invariant active == want && allowed == old(allowed) && present == old(present)
        invariant lastValid == old(lastValid) && told == old(told)
      {
        pins[i] := want;
      }
      assert pins[..] == seq(PINS, _ => want);
    }

    method SetPortsAllowed(allow: bool)
      requires Valid()
      modifies this, pins
      ensures Valid() && State() == Allow(old(State()), allow)
    {
      if allowed == allow { return; }
      allowed := allow;
      assert State() == old(State()).(allowed := allow);
      if !allow && active {
        SetPowerState(false);
      }
    }

    method SetPresent(now: bool)
      requires Valid()
      modifies this
      ensures Valid() && State() == Tell(old(State()), now)
    {
      present := now;
      if listening {
        told := told + [now];
      }
    }

    method PollOnce(now: Tick, card: Card)
      requires Valid()
      modifies this, pins
      ensures Valid() && State() == Poll(old(State()), now, card)
    {
      if active && (now - lastValid) % TICKS > TIMEOUT {
        SetPowerState(false);
      }
      match card {
        case Read(uid) =>
          if Authorized(uid) {
            lastValid := now;
            SetPowerState(true);
            if !present {
              SetPresent(true);
            }
          } else {
            SetPowerState(false);
            if present {
              SetPresent(false);
            }
          }
        case Garbled =>
        case Absent =>
          if present && (now - lastValid) % TICKS > TIMEOUT {
            SetPresent(false);
          }
      }
    }
  }
}
