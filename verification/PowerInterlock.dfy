// The battery task and the card reader together: they share the pins through the permission
// the battery gives, and each call is one step.

module PowerInterlock {
  import opened Basics
  import opened BatteryMonitor
  import opened RfidReader

  datatype Station = Station(battery: Battery, userAp: bool, rfid: Rfid)

  // Start-up, before either task runs.
  predicate Powered(s: Station) {
    s.battery == Entered(Normal) && s.userAp &&
    s.rfid.pins == [false, false, false, false, false, false] && !s.rfid.active && s.rfid.allowed &&
    !s.rfid.present && s.rfid.lastValid == 0 && s.rfid.told == []
  }

  // What the tasks do: decide the boot state, take a sample, poll the reader. `ticks` counts
  // since power-up and does not wrap; `wifiOk` says whether switching the access point works.
  datatype Event =
    | Boot(readings: seq<Option<real>>, wifiOk: bool)
    | Sample(voltage: real, wifiOk: bool)
    | PollCard(ticks: nat, card: Card)

  function Act(s: Station, wifiOk: bool): Station {
    s.(userAp := if wifiOk then s.battery.state == Normal else s.userAp,
       rfid := Allow(s.rfid, PortsOn(s.battery.state)))
  }

  function Step(s: Station, e: Event): Station {
    match e
    case Boot(readings, wifiOk) => Act(s.(battery := s.battery.(state := BootState(BootVoltage(readings)))), wifiOk)
    case Sample(v, wifiOk) =>
      var after := s.(battery := Evaluate(s.battery, v));
      if after.battery.state == s.battery.state then after else Act(after, wifiOk)
    case PollCard(ticks, card) => s.(rfid := Poll(s.rfid, ticks % TICKS, card))
  }

  function Run(s: Station, es: seq<Event>): Station {
    if es == [] then s else Step(Run(s, es[..|es| - 1]), es[|es| - 1])
  }

  // --- The code ---

  class Monitor {
    var state: Power
    var toWarning: nat
    var toCritical: nat
    var toCharging: nat
    var toNormal: nat
    var userAp: bool
    const reader: Reader

    ghost predicate Valid()
      reads this, reader
    {
      reader.Valid()
    }

    ghost function BatteryState(): Battery
      reads this
    {
      Battery(state, toWarning, toCritical, toCharging, toNormal)
    }

    ghost function State(): Station
      reads this, reader, reader.pins
    {
      Station(BatteryState(), userAp, reader.State())
    }

    constructor (listening: bool)
      ensures Valid() && fresh(reader) && fresh(reader.pins) && Powered(State())
    {
      state, toWarning, toCritical, toCharging, toNormal, userAp := Normal, 0, 0, 0, 0, true;
      reader := new Reader(listening);
    }

    method ApplyActions(wifiOk: bool)
      requires Valid()
      modifies this, reader, reader.pins
      ensures Valid() && State() == Act(old(State()), wifiOk)
    {
      var apOn := state == Normal;
      var portsOn := state == Normal || state == Warning || state == ChargingOn;
      if userAp != apOn && wifiOk {
        userAp := apOn;
      }
      reader.SetPortsAllowed(portsOn);
    }

    method TransitionTo(target: Power, wifiOk: bool)
      requires Valid() && target != state
      modifies this, reader, reader.pins
      ensures Valid() && State() == Act(old(State()).(battery := Entered(target)), wifiOk)
    {
      state := target;
      toWarning, toCritical, toCharging, toNormal := 0, 0, 0, 0;
      assert State() == old(State()).(battery := Entered(target));
      ApplyActions(wifiOk);
    }

    method EvaluateTransitions(v: real, wifiOk: bool)
      requires Valid()
      modifies this, reader, reader.pins
      ensures Valid() && State() == Step(old(State()), Sample(v, wifiOk))
    {
      match state {
        case Normal =>
          if v < 12.6 {
            toWarning := toWarning + 1;
            if toWarning >= SUSTAINED { TransitionTo(Warning, wifiOk); }
          } else {
            toWarning := 0;
          }
        case Warning => FromWarning(v, wifiOk);
        case ChargingOn =>
          if v > 13.2 {
            toNormal := toNormal + 1;
            if toNormal >= SUSTAINED { TransitionTo(Normal, wifiOk); }
          } else {
            toNormal := 0;
          }
        case _ =>
          if v > 12.8 {
            toCharging := toCharging + 1;
            if toCharging >= SUSTAINED { TransitionTo(ChargingOn, wifiOk); }
          } else {
            toCharging := 0;
          }
      }
    }

    // Two counters run at once; the second is looked at even after the first has fired.
    method FromWarning(v: real, wifiOk: bool)
      requires Valid() && state == Warning
      modifies this, reader, reader.pins
      ensures Valid() && State() == Step(old(State()), Sample(v, wifiOk))
    {
      if v < 11.8 {
        toCritical := toCritical + 1;
        if toCritical >= SUSTAINED { TransitionTo(Critical, wifiOk); }
      } else {
        toCritical := 0;
      }
      if v > 13.2 {
        toNormal := toNormal + 1;
        if toNormal >= SUSTAINED { TransitionTo(Normal, wifiOk); }
      } else {
        toNormal := 0;
      }
    }

    method BootUp(readings: seq<Option<real>>, wifiOk: bool)
      requires Valid()
      modifies this, reader, reader.pins
      ensures Valid() && State() == Step(old(State()), Boot(readings, wifiOk))
    {
      var sum, n := 0.0, 0;
      for i := 0 to |readings|
        invariant sum == Sum(readings[..i]) && n == Successes(readings[..i])
      {
        assert readings[..i + 1][..i] == readings[..i];
        if readings[i].Some? {
          sum := sum + readings[i].value;
          n := n + 1;
        }
      }
      assert readings[..|readings|] == readings;
      var v := if n > 0 then sum / n as real else 0.0;
      state := BootState(v);
      assert State() == old(State()).(battery := old(State()).battery.(state := BootState(BootVoltage(readings))));
      ApplyActions(wifiOk);
    }
  }

  // --- The interlock ---

  ghost predicate Safe(s: Station) {
    && |s.rfid.pins| == PINS
    && (forall i :: 0 <= i < PINS ==> s.rfid.pins[i] == s.rfid.active)
    && s.rfid.allowed == PortsOn(s.battery.state)
    && (s.rfid.active ==> s.rfid.allowed && s.rfid.present)
  }

  // The callback is told true, false, true, … and last what is now the case.
  ghost predicate Alternating(r: Rfid) {
    && (forall i :: 0 <= i < |r.told| ==> r.told[i] == (i % 2 == 0))
    && (!r.listening ==> r.told == [])
    && (r.listening ==> (|r.told| % 2 == 1 <==> r.present))
  }

  lemma PollKeepsSafe(s: Station, ticks: nat, card: Card)
    requires Safe(s)
    ensures Safe(Step(s, PollCard(ticks, card)))
  {
  }

  lemma StepKeepsSafe(s: Station, e: Event)
    requires Safe(s)
    ensures Safe(Step(s, e))
  {
    if e.PollCard? {
      PollKeepsSafe(s, e.ticks, e.card);
    }
  }

  lemma TellAlternates(r: Rfid, present: bool)
    requires Alternating(r) && r.present != present
    ensures Alternating(Tell(r, present))
  {
  }

  lemma StepAlternates(s: Station, e: Event)
    requires Alternating(s.rfid)
    ensures Alternating(Step(s, e).rfid)
  {
    if e.PollCard? {
      var cut := CutStale(s.rfid, e.ticks % TICKS);
      var on := SwitchPower(cut.(lastValid := e.ticks % TICKS), true);
      var off := SwitchPower(cut, false);
      assert Alternating(cut) && Alternating(on) && Alternating(off);
      if !cut.present {
        TellAlternates(on, true);
      } else {
        TellAlternates(off, false);
        TellAlternates(cut, false);
      }
    }
  }

  // In every reachable state the six pins are alike, they are powered only with a card present
  // and in a state that permits it, and the callback has alternated.
  lemma {:induction false} RunIsSafe(s: Station, es: seq<Event>)
    requires Powered(s)
    ensures Safe(Run(s, es)) && Alternating(Run(s, es).rfid)
    decreases |es|
  {
    if es != [] {
      RunIsSafe(s, es[..|es| - 1]);
      StepKeepsSafe(Run(s, es[..|es| - 1]), es[|es| - 1]);
      StepAlternates(Run(s, es[..|es| - 1]), es[|es| - 1]);
    }
  }

  // What a poll leaves the pins at: an authorized card gives what the battery permits, another
  // takes the power away, and without a number they stay on only while the last good one is recent.
  lemma PollDecides(s: Station, ticks: nat, card: Card)
    requires Safe(s)
    ensures var t := Step(s, PollCard(ticks, card));
            t.rfid.active <==>
            match card
            case Read(uid) => Authorized(uid) && PortsOn(s.battery.state)
            case _ => s.rfid.active && (ticks - s.rfid.lastValid) % TICKS <= TIMEOUT
  {
  }

  // --- How fresh the card is ---

  predicate GoodRead(e: Event) { e.PollCard? && e.card.Read? && Authorized(e.card.uid) }

  // The tick of the last poll, 0 before the first.
  function LastPoll(es: seq<Event>): nat {
    if es == [] then 0
    else if es[|es| - 1].PollCard? then es[|es| - 1].ticks
    else LastPoll(es[..|es| - 1])
  }

  // The environment: time does not go back, and no poll is a whole wrap of the counter late.
  ghost predicate Timely(es: seq<Event>) {
    forall i :: 0 <= i < |es| && es[i].PollCard? ==>
      LastPoll(es[..i]) <= es[i].ticks && es[i].ticks + TIMEOUT < LastPoll(es[..i]) + TICKS
  }

  ghost predicate ReadAt(es: seq<Event>, k: int) { 0 <= k < |es| && GoodRead(es[k]) }

  ghost predicate Fresh(r: Rfid, es: seq<Event>) {
    r.active ==>
      exists k :: ReadAt(es, k) && r.lastValid == es[k].ticks % TICKS &&
                  es[k].ticks <= LastPoll(es) <= es[k].ticks + TIMEOUT
  }

  lemma DistanceIsExact(now: nat, read: nat)
    requires read <= now < read + TICKS
    ensures (now % TICKS - read % TICKS) % TICKS == now - read
  {
    var d := now - read;
    assert now % TICKS == (read % TICKS + d) % TICKS;
  }

  // Across wraps of the counter, staleness is the true age of the last good read.
  lemma StaleAt(r: Rfid, now: nat, read: nat)
    requires read <= now < read + TICKS && r.lastValid == read % TICKS
    ensures Stale(r, now % TICKS) <==> now > read + TIMEOUT
  {
    DistanceIsExact(now, read);
  }

  lemma {:induction false} TimelyPrefix(es: seq<Event>)
    requires Timely(es) && es != []
    ensures Timely(es[..|es| - 1])
  {
    var before := es[..|es| - 1];
    forall i | 0 <= i < |before| && before[i].PollCard?
      ensures LastPoll(before[..i]) <= before[i].ticks && before[i].ticks + TIMEOUT < LastPoll(before[..i]) + TICKS
    {
      assert before[..i] == es[..i] && before[i] == es[i];
    }
  }

  // Without a good read a poll leaves the power on only if the last good one is recent.
  lemma PoweredIsRecent(r: Rfid, now: Tick, card: Card)
    requires !(card.Read? && Authorized(card.uid)) && Poll(r, now, card).active
    ensures r.active && !Stale(r, now) && Poll(r, now, card).lastValid == r.lastValid
  {
  }

  lemma {:induction false} PollStaysFresh(s: Station, es: seq<Event>)
    requires es != [] && Timely(es) && es[|es| - 1].PollCard?
    requires Fresh(s.rfid, es[..|es| - 1])
    ensures Fresh(Step(s, es[|es| - 1]).rfid, es)
  {
    var n := |es| - 1;
    var before, e := es[..n], es[n];
    assert LastPoll(es) == e.ticks;
    if GoodRead(e) {
      assert ReadAt(es, n);
    } else if Step(s, e).rfid.active {
      PoweredIsRecent(s.rfid, e.ticks % TICKS, e.card);
      var k := StillRecent(s.rfid, es);
      assert es[k] == before[k] && ReadAt(es, k);
    }
  }

  lemma {:induction false} StillRecent(r: Rfid, es: seq<Event>) returns (k: int)
    requires es != [] && Timely(es) && es[|es| - 1].PollCard? && r.active && Fresh(r, es[..|es| - 1])
    requires !Stale(r, es[|es| - 1].ticks % TICKS)
    ensures var before, now := es[..|es| - 1], es[|es| - 1].ticks;
      ReadAt(before, k) && r.lastValid == before[k].ticks % TICKS && before[k].ticks <= now <= before[k].ticks + TIMEOUT
  {
    var n := |es| - 1;
    var before := es[..n];
    k :| ReadAt(before, k) && r.lastValid == before[k].ticks % TICKS
         && before[k].ticks <= LastPoll(before) <= before[k].ticks + TIMEOUT;
    StaleAt(r, es[n].ticks, before[k].ticks);
  }

  lemma {:induction false} OtherStaysFresh(s: Station, es: seq<Event>)
    requires es != [] && !es[|es| - 1].PollCard?
    requires Fresh(s.rfid, es[..|es| - 1])
    ensures Fresh(Step(s, es[|es| - 1]).rfid, es)
  {
    var n := |es| - 1;
    var before := es[..n];
    assert LastPoll(es) == LastPoll(before);
    if s.rfid.active {
      var k :| ReadAt(before, k) && s.rfid.lastValid == before[k].ticks % TICKS
               && before[k].ticks <= LastPoll(before) <= before[k].ticks + TIMEOUT;
      assert es[k] == before[k] && ReadAt(es, k);
    }
  }

  lemma {:induction false} RunIsFresh(s: Station, es: seq<Event>)
    requires Powered(s) && Timely(es)
    ensures Fresh(Run(s, es).rfid, es)
    decreases |es|
  {
    if es != [] {
      TimelyPrefix(es);
      RunIsFresh(s, es[..|es| - 1]);
      if es[|es| - 1].PollCard? {
        PollStaysFresh(Run(s, es[..|es| - 1]), es);
      } else {
        OtherStaysFresh(Run(s, es[..|es| - 1]), es);
      }
    }
  }

  // The interlock: if any pin is powered after any run, then every pin is, the battery is in
  // Normal, Warning or ChargingOn, a card counts as present, and an authorized number was read
  // no more than 1000 ms before the last poll.
  lemma {:induction false} Interlock(s: Station, es: seq<Event>, pin: nat)
    requires Powered(s) && Timely(es)
    requires pin < |Run(s, es).rfid.pins| && Run(s, es).rfid.pins[pin]
    ensures var t := Run(s, es);
            && t.rfid.pins == [true, true, true, true, true, true]
            && (t.battery.state == Normal || t.battery.state == Warning || t.battery.state == ChargingOn) && t.rfid.present
    ensures exists k :: ReadAt(es, k) && es[k].ticks <= LastPoll(es) <= es[k].ticks + TIMEOUT
  {
    RunIsSafe(s, es);
    RunIsFresh(s, es);
    var t := Run(s, es);
    assert Safe(t) && t.rfid.active;
    var k :| ReadAt(es, k) && t.rfid.lastValid == es[k].ticks % TICKS
             && es[k].ticks <= LastPoll(es) <= es[k].ticks + TIMEOUT;
  }

  // --- When there is power ---

  predicate BadRead(e: Event) { e.PollCard? && e.card.Read? && !Authorized(e.card.uid) }

  // The tick of the last good read, 0 before the first.
  function LastRead(es: seq<Event>): nat {
    if es == [] then 0
    else if GoodRead(es[|es| - 1]) then es[|es| - 1].ticks
    else LastRead(es[..|es| - 1])
  }

  // Event k was a good read no more than 1000 ms before the last poll, and since then no other
  // card was read and the battery has permitted power all along.
  ghost predicate Energized(s: Station, es: seq<Event>, k: int) {
    && ReadAt(es, k) && es[k].ticks <= LastPoll(es) <= es[k].ticks + TIMEOUT
    && (forall j :: k < j < |es| ==> !BadRead(es[j]))
    && (forall j :: k < j <= |es| ==> PortsOn(Run(s, es[..j]).battery.state))
  }

  lemma {:induction false} ReadsInOrder(es: seq<Event>, k: int)
    requires Timely(es)
    ensures LastRead(es) <= LastPoll(es)
    ensures ReadAt(es, k) ==> es[k].ticks <= LastRead(es)
    decreases |es|
  {
    if es != [] {
      var n := |es| - 1;
      TimelyPrefix(es);
      ReadsInOrder(es[..n], k);
      assert ReadAt(es, k) && k < n ==> ReadAt(es[..n], k);
      assert es[n].PollCard? ==> LastPoll(es[..n]) <= es[n].ticks;
    }
  }

  lemma {:induction false} RemembersLastRead(s: Station, es: seq<Event>)
    requires Powered(s)
    ensures Run(s, es).rfid.lastValid == LastRead(es) % TICKS
    decreases |es|
  {
    if es != [] {
      var n := |es| - 1;
      RemembersLastRead(s, es[..n]);
      LastValidStep(Run(s, es[..n]), es[n]);
    }
  }

  lemma LastValidStep(s: Station, e: Event)
    ensures Step(s, e).rfid.lastValid == if GoodRead(e) then e.ticks % TICKS else s.rfid.lastValid
  {
  }

  // What one event does to the power.
  lemma ActiveStep(s: Station, e: Event)
    requires Safe(s)
    ensures var on := PortsOn(Step(s, e).battery.state);
      Step(s, e).rfid.active <==>
      on && (GoodRead(e) || (s.rfid.active && !BadRead(e) && (e.PollCard? ==> !Stale(s.rfid, e.ticks % TICKS))))
  {
    StepKeepsSafe(s, e);
    if e.PollCard? {
      PollDecides(s, e.ticks, e.card);
    }
  }

  lemma {:induction false} StillEnergized(s: Station, es: seq<Event>, k: int)
    requires es != [] && Energized(s, es[..|es| - 1], k) && LastPoll(es) <= es[k].ticks + TIMEOUT && es[k].ticks <= LastPoll(es)
    requires !BadRead(es[|es| - 1]) && PortsOn(Run(s, es).battery.state)
    ensures Energized(s, es, k)
  {
    var before := es[..|es| - 1];
    assert es[..|es|] == es;
    forall j | k < j <= |es| ensures PortsOn(Run(s, es[..j]).battery.state) {
      assert j <= |before| ==> before[..j] == es[..j];
    }
    forall j | k < j < |es| ensures !BadRead(es[j]) {
      assert j < |before| ==> before[j] == es[j];
    }
  }

  lemma {:induction false} WasEnergized(s: Station, es: seq<Event>, k: int)
    requires es != [] && Timely(es) && Energized(s, es, k) && k < |es| - 1
    ensures Energized(s, es[..|es| - 1], k)
  {
    var n := |es| - 1;
    var before := es[..n];
    assert LastPoll(before) <= LastPoll(es);
    assert es[k] == before[k];
    TimelyPrefix(es);
    ReadsInOrder(before, k);
    assert ReadAt(before, k);
    forall j | k < j <= n ensures PortsOn(Run(s, before[..j]).battery.state) {
      assert before[..j] == es[..j];
    }
  }

  lemma {:induction false} PoweredIff(s: Station, es: seq<Event>)
    requires Powered(s) && Timely(es)
    ensures Run(s, es).rfid.active ==> exists k :: Energized(s, es, k) && es[k].ticks == LastRead(es)
    ensures (exists k :: Energized(s, es, k)) ==> Run(s, es).rfid.active
    decreases |es|
  {
    if es != [] {
      var n := |es| - 1;
      var before, e := es[..n], es[n];
      var st := Run(s, before);
      TimelyPrefix(es);
      PoweredIff(s, before);
      RunIsSafe(s, before);
      ActiveStep(st, e);
      RemembersLastRead(s, before);
      if Run(s, es).rfid.active {
        PowerHasCause(s, es);
      }
      if k :| Energized(s, es, k) {
        CauseHasPower(s, es, k);
      }
    }
  }

  lemma {:induction false} StaleIff(s: Station, es: seq<Event>)
    requires Powered(s) && Timely(es) && es != [] && es[|es| - 1].PollCard?
    requires var before := es[..|es| - 1]; LastPoll(before) <= LastRead(before) + TIMEOUT
    ensures var before, now := es[..|es| - 1], es[|es| - 1].ticks;
      Stale(Run(s, before).rfid, now % TICKS) <==> now > LastRead(before) + TIMEOUT
  {
    var n := |es| - 1;
    TimelyPrefix(es);
    ReadsInOrder(es[..n], 0);
    RemembersLastRead(s, es[..n]);
    StaleAt(Run(s, es[..n]).rfid, es[n].ticks, LastRead(es[..n]));
  }

  lemma {:induction false} PowerHasCause(s: Station, es: seq<Event>)
    requires Powered(s) && Timely(es) && es != [] && Run(s, es).rfid.active
    requires var before := es[..|es| - 1];
      Run(s, before).rfid.active ==> exists k :: Energized(s, before, k) && before[k].ticks == LastRead(before)
    ensures exists k :: Energized(s, es, k) && es[k].ticks == LastRead(es)
  {
    var n := |es| - 1;
    var before, e := es[..n], es[n];
    RunIsSafe(s, before);
    ActiveStep(Run(s, before), e);
    if GoodRead(e) {
      JustRead(s, es);
    } else {
      var k :| Energized(s, before, k) && before[k].ticks == LastRead(before);
      CauseRemains(s, es, k);
    }
  }

  lemma {:induction false} JustRead(s: Station, es: seq<Event>)
    requires es != [] && GoodRead(es[|es| - 1]) && PortsOn(Run(s, es).battery.state)
    ensures Energized(s, es, |es| - 1) && es[|es| - 1].ticks == LastRead(es)
  {
    assert es[..|es|] == es;
  }

  lemma {:induction false} CauseRemains(s: Station, es: seq<Event>, k: int)
    requires Powered(s) && Timely(es) && es != [] && Run(s, es).rfid.active && !GoodRead(es[|es| - 1])
    requires var before := es[..|es| - 1]; Energized(s, before, k) && before[k].ticks == LastRead(before)
    ensures Energized(s, es, k) && es[k].ticks == LastRead(es)
  {
    var n := |es| - 1;
    var before, e := es[..n], es[n];
    RunIsSafe(s, before);
    ActiveStep(Run(s, before), e);
    if e.PollCard? {
      StaleIff(s, es);
      assert LastPoll(before) <= e.ticks;
    }
    StillEnergized(s, es, k);
  }

  lemma {:induction false} CauseHasPower(s: Station, es: seq<Event>, k: int)
    requires Powered(s) && Timely(es) && es != [] && Energized(s, es, k)
    requires k < |es| - 1 && Energized(s, es[..|es| - 1], k) ==> Run(s, es[..|es| - 1]).rfid.active
    ensures Run(s, es).rfid.active
  {
    var n := |es| - 1;
    var before, e := es[..n], es[n];
    RunIsSafe(s, before);
    ActiveStep(Run(s, before), e);
    assert es[..n + 1] == es;
    if k < n {
      WasEnergized(s, es, k);
      TimelyPrefix(es);
      ReadsInOrder(before, k);
      if e.PollCard? {
        StaleIff(s, es);
      }
    }
  }

  // --- When a card counts as present ---

  predicate AbsentPoll(e: Event) { e.PollCard? && e.card == Absent }

  // The environment: a poll that finds no card comes less than a wrap of the counter after the
  // last good read.
  ghost predicate Attentive(es: seq<Event>) {
    forall j :: 0 <= j < |es| && AbsentPoll(es[j]) ==> es[j].ticks < LastRead(es[..j]) + TICKS
  }

  // Event k was a good read; no other card was read since, and no poll more than 1000 ms after
  // the last good read found none.
  ghost predicate Noticed(es: seq<Event>, k: int) {
    && ReadAt(es, k) && (forall j :: k < j < |es| ==> !BadRead(es[j]))
    && forall j :: k < j < |es| && AbsentPoll(es[j]) ==> es[j].ticks <= LastRead(es[..j]) + TIMEOUT
  }

  ghost predicate SomeNoticed(es: seq<Event>) { exists k :: Noticed(es, k) }

  lemma PresentStep(s: Station, e: Event)
    ensures Step(s, e).rfid.present ==
      if GoodRead(e) then true
      else if BadRead(e) then false
      else if AbsentPoll(e) then s.rfid.present && !Stale(s.rfid, e.ticks % TICKS)
      else s.rfid.present
  {
  }

  lemma {:induction false} NoticedStep(es: seq<Event>, k: int)
    requires es != []
    ensures var n := |es| - 1;
      Noticed(es, k) <==>
        (k == n && GoodRead(es[n])) ||
        (Noticed(es[..n], k) && !BadRead(es[n]) && (AbsentPoll(es[n]) ==> es[n].ticks <= LastRead(es[..n]) + TIMEOUT))
  {
    var n := |es| - 1;
    assert forall j :: 0 <= j < n ==> es[..n][j] == es[j] && es[..n][..j] == es[..j];
  }

  // Over every run a card counts as present if and only if one has been noticed.
  lemma {:induction false} PresentIffNoticed(s: Station, es: seq<Event>)
    requires Powered(s) && Timely(es) && Attentive(es)
    ensures Run(s, es).rfid.present <==> SomeNoticed(es)
    decreases |es|
  {
    if es != [] {
      var n := |es| - 1;
      TimelyPrefix(es);
      AttentivePrefix(es);
      PresentIffNoticed(s, es[..n]);
      PresentStep(Run(s, es[..n]), es[n]);
      if AbsentPoll(es[n]) {
        AbsenceIsExact(s, es);
      }
      NoticedNext(es, Run(s, es[..n]).rfid.present);
    }
  }

  lemma {:induction false} AttentivePrefix(es: seq<Event>)
    requires es != [] && Attentive(es)
    ensures Attentive(es[..|es| - 1])
  {
    var before := es[..|es| - 1];
    forall j | 0 <= j < |before| && AbsentPoll(before[j]) ensures before[j].ticks < LastRead(before[..j]) + TICKS {
      assert before[..j] == es[..j] && before[j] == es[j];
    }
  }

  lemma {:induction false} AbsenceIsExact(s: Station, es: seq<Event>)
    requires Powered(s) && Timely(es) && Attentive(es) && es != [] && AbsentPoll(es[|es| - 1])
    ensures var before, now := es[..|es| - 1], es[|es| - 1].ticks;
      Stale(Run(s, before).rfid, now % TICKS) <==> now > LastRead(before) + TIMEOUT
  {
    var n := |es| - 1;
    TimelyPrefix(es);
    ReadsInOrder(es[..n], 0);
    RemembersLastRead(s, es[..n]);
    StaleAt(Run(s, es[..n]).rfid, es[n].ticks, LastRead(es[..n]));
  }

  // Whether one has been noticed, one event later.
  lemma {:induction false} NoticedNext(es: seq<Event>, was: bool)
    requires es != [] && (was <==> SomeNoticed(es[..|es| - 1]))
    ensures var e := es[|es| - 1];
      SomeNoticed(es) <==>
        GoodRead(e) || (was && !BadRead(e) && (AbsentPoll(e) ==> e.ticks <= LastRead(es[..|es| - 1]) + TIMEOUT))
  {
    var n := |es| - 1;
    forall k ensures Noticed(es, k) <==>
        (k == n && GoodRead(es[n])) ||
        (Noticed(es[..n], k) && !BadRead(es[n]) && (AbsentPoll(es[n]) ==> es[n].ticks <= LastRead(es[..n]) + TIMEOUT))
    {
      NoticedStep(es, k);
    }
    if GoodRead(es[n]) {
      assert Noticed(es, n);
    }
    if was {
      var k :| Noticed(es[..n], k);
      NoticedStep(es, k);
    }
  }

  // Over every run the outputs are powered if and only if some authorized read within the last
  // 1000 ms has not been undone since, by another card or by the battery.
  lemma PowerExplained(s: Station, es: seq<Event>, pin: nat)
    requires Powered(s) && Timely(es) && pin < PINS
    ensures |Run(s, es).rfid.pins| == PINS
    ensures Run(s, es).rfid.pins[pin] <==> exists k :: Energized(s, es, k)
  {
    RunIsSafe(s, es);
    PoweredIff(s, es);
  }

  // The users' access point is up exactly in Normal, from the boot decision on, as long as
  // every switch of the radio succeeds.
  predicate RadioWorks(e: Event) { e.PollCard? || e.wifiOk }

  lemma {:induction false} ApFollowsBattery(s: Station, es: seq<Event>)
    requires Powered(s) && forall i :: 0 <= i < |es| ==> RadioWorks(es[i])
    ensures Run(s, es).userAp == (Run(s, es).battery.state == Normal)
    decreases |es|
  {
    if es != [] {
      ApFollowsBattery(s, es[..|es| - 1]);
      assert RadioWorks(es[|es| - 1]);
    }
  }

  // --- The battery inside the station ---

  function Voltages(es: seq<Event>): seq<real> {
    if es == [] then []
    else Voltages(es[..|es| - 1]) + (match es[|es| - 1] case Sample(v, _) => [v] case _ => [])
  }

  // Card polls do not disturb the debouncing: after the boot decision the battery has simply
  // run over the samples, so what holds of RunFrom holds of the station.
  lemma {:induction false} BatteryRunsAlone(s: Station, es: seq<Event>)
    requires Powered(s) && es != [] && es[0].Boot?
    requires forall i :: 0 < i < |es| ==> !es[i].Boot?
    ensures Run(s, es).battery == RunFrom(Entered(BootState(BootVoltage(es[0].readings))), Voltages(es))
    decreases |es|
  {
    var n := |es| - 1;
    var b := Entered(BootState(BootVoltage(es[0].readings)));
    if n == 0 {
      assert es[..0] == [];
      assert Run(s, es) == Step(s, es[0]);
    } else {
      BatteryRunsAlone(s, es[..n]);
      assert Run(s, es) == Step(Run(s, es[..n]), es[n]);
      if es[n].PollCard? {
        assert Voltages(es) == Voltages(es[..n]);
      } else {
        var vs := Voltages(es);
        assert vs == Voltages(es[..n]) + [es[n].voltage];
        assert vs[..|vs| - 1] == Voltages(es[..n]);
        assert RunFrom(b, vs) == Evaluate(RunFrom(b, Voltages(es[..n])), es[n].voltage);
      }
    }
  }
}
