// The battery state machine of main/battery_sensor.c: one sample every five seconds, six
// samples in a row before the state changes.

module BatteryMonitor {
  import opened Basics

  const SUSTAINED := 6

  datatype Power = Normal | Warning | Critical | WakeUp | ChargingOn

  // The conditions that lead from one state to another, each named for where it leads.
  datatype Edge = ToWarning | ToCritical | ToCharging | ToNormal

  predicate Meets(e: Edge, v: real) {
    match e
    case ToWarning => v < 12.6
    case ToCritical => v < 11.8
    case ToCharging => v > 12.8
    case ToNormal => v > 13.2
  }

  predicate Leaves(s: Power, e: Edge) {
    match s
    case Normal => e == ToWarning
    case Warning => e == ToCritical || e == ToNormal
    case Critical => e == ToCharging
    case WakeUp => e == ToCharging
    case ChargingOn => e == ToNormal
  }

  function Target(e: Edge): Power {
    match e
    case ToWarning => Warning
    case ToCritical => Critical
    case ToCharging => ChargingOn
    case ToNormal => Normal
  }

  predicate PortsOn(s: Power) { s == Normal || s == Warning || s == ChargingOn }

  // --- The code's state: where it is and four counters ---

  datatype Battery = Battery(state: Power, toWarning: nat, toCritical: nat, toCharging: nat, toNormal: nat)

  function Counter(b: Battery, e: Edge): nat {
    match e
    case ToWarning => b.toWarning
    case ToCritical => b.toCritical
    case ToCharging => b.toCharging
    case ToNormal => b.toNormal
  }

  function Entered(s: Power): Battery { Battery(s, 0, 0, 0, 0) }

  function Evaluate(b: Battery, v: real): Battery {
    match b.state
    case Normal =>
      if !Meets(ToWarning, v) then b.(toWarning := 0)
      else if b.toWarning + 1 >= SUSTAINED then Entered(Warning)
      else b.(toWarning := b.toWarning + 1)
    case Warning =>
      if Meets(ToCritical, v) && b.toCritical + 1 >= SUSTAINED then Entered(Critical)
      else if Meets(ToNormal, v) && b.toNormal + 1 >= SUSTAINED then Entered(Normal)
      else b.(toCritical := if Meets(ToCritical, v) then b.toCritical + 1 else 0,
              toNormal := if Meets(ToNormal, v) then b.toNormal + 1 else 0)
    case ChargingOn =>
      if !Meets(ToNormal, v) then b.(toNormal := 0)
      else if b.toNormal + 1 >= SUSTAINED then Entered(Normal)
      else b.(toNormal := b.toNormal + 1)
    case _ =>
      if !Meets(ToCharging, v) then b.(toCharging := 0)
      else if b.toCharging + 1 >= SUSTAINED then Entered(ChargingOn)
      else b.(toCharging := b.toCharging + 1)
  }

  function BootState(v: real): Power {
    if v > 13.2 then Normal
    else if v > 12.8 then ChargingOn
    else if v > 12.4 then WakeUp
    else if v > 11.8 then Warning
    else Critical
  }

  // The mean of the boot readings that succeeded, 0 when none did.
  function Sum(readings: seq<Option<real>>): real {
    if readings == [] then 0.0
    else Sum(readings[..|readings| - 1]) + (match readings[|readings| - 1] case None => 0.0 case Some(v) => v)
  }

  function Successes(readings: seq<Option<real>>): nat {
    if readings == [] then 0
    else Successes(readings[..|readings| - 1]) + (if readings[|readings| - 1].Some? then 1 else 0)
  }

  function BootVoltage(readings: seq<Option<real>>): real {
    if Successes(readings) == 0 then 0.0 else Sum(readings) / Successes(readings) as real
  }

  // --- The reference: the samples seen since the state was entered ---

  datatype Watch = Watch(state: Power, since: seq<real>)

  // The number of samples at the end of a history, without a gap, that meet an edge.
  function Streak(h: seq<real>, e: Edge): (n: nat)
    ensures n <= |h|
    ensures forall i :: |h| - n <= i < |h| ==> Meets(e, h[i])
    ensures n < |h| ==> !Meets(e, h[|h| - n - 1])
  {
    if h == [] || !Meets(e, h[|h| - 1]) then 0 else Streak(h[..|h| - 1], e) + 1
  }

  predicate Sustained(h: seq<real>, e: Edge) {
    |h| >= SUSTAINED && forall i :: |h| - SUSTAINED <= i < |h| ==> Meets(e, h[i])
  }

  // Each state is left as soon as one of its conditions has held for the last six samples seen
  // in it, and not before.
  ghost function Observed(w: Watch, v: real): Watch {
    var h := w.since + [v];
    if e :| Leaves(w.state, e) && Sustained(h, e) then Watch(Target(e), []) else Watch(w.state, h)
  }

  ghost predicate Tracks(b: Battery, w: Watch) {
    b.state == w.state &&
    forall e :: Counter(b, e) == (if Leaves(w.state, e) then Streak(w.since, e) else 0) && Counter(b, e) < SUSTAINED
  }

  // --- The counters are exact ---

  lemma {:induction false} StreakGrows(h: seq<real>, v: real, e: Edge)
    ensures Streak(h + [v], e) == if Meets(e, v) then Streak(h, e) + 1 else 0
  {
    assert (h + [v])[..|h|] == h;
  }

  lemma {:induction false} SustainedIffStreak(h: seq<real>, e: Edge)
    ensures Sustained(h, e) <==> Streak(h, e) >= SUSTAINED
  {
    var n := Streak(h, e);
    if n < SUSTAINED && n < |h| {
      assert !Meets(e, h[|h| - n - 1]);
    }
  }

  lemma {:induction false} Fires(h: seq<real>, v: real, e: Edge)
    requires Streak(h, e) < SUSTAINED
    ensures Sustained(h + [v], e) <==> Meets(e, v) && Streak(h, e) + 1 >= SUSTAINED
  {
    StreakGrows(h, v, e);
    SustainedIffStreak(h + [v], e);
  }

  // One sample: the counters hold the streaks, and the state changes exactly when one of the
  // state's conditions has held six times running since it was entered.
  lemma DebounceIsExact(b: Battery, w: Watch, v: real)
    requires Tracks(b, w)
    ensures Tracks(Evaluate(b, v), Observed(w, v))
  {
    var h := w.since + [v];
    forall e | Leaves(w.state, e)
      ensures Counter(b, e) == Streak(w.since, e)
      ensures Sustained(h, e) <==> Meets(e, v) && Counter(b, e) + 1 >= SUSTAINED
      ensures Streak(h, e) == if Meets(e, v) then Streak(w.since, e) + 1 else 0
    {
      Fires(w.since, v, e);
      StreakGrows(w.since, v, e);
    }
    assert Counter(b, ToWarning) == b.toWarning && Counter(b, ToCritical) == b.toCritical;
    assert Counter(b, ToCharging) == b.toCharging && Counter(b, ToNormal) == b.toNormal;
    if e :| Leaves(w.state, e) && Sustained(h, e) {
      OnlyOneFires(w, v, e);
      assert Observed(w, v) == Watch(Target(e), []);
      assert Evaluate(b, v) == Entered(Target(e));
    } else {
      assert Observed(w, v) == Watch(w.state, h);
      StaysExact(b, w, v);
    }
  }

  lemma OnlyOneFires(w: Watch, v: real, e: Edge)
    requires Leaves(w.state, e) && Sustained(w.since + [v], e)
    ensures Observed(w, v) == Watch(Target(e), [])
  {
    var h := w.since + [v];
    forall f | Leaves(w.state, f) && Sustained(h, f) ensures f == e {
      assert Meets(e, h[|h| - 1]) && Meets(f, h[|h| - 1]);
    }
  }

  // The counter of an edge is the streak, and one more sample does not complete it.
  predicate Stays(b: Battery, w: Watch, v: real, e: Edge) {
    Counter(b, e) == (if Leaves(w.state, e) then Streak(w.since, e) else 0) && Counter(b, e) < SUSTAINED &&
    (Leaves(w.state, e) && Meets(e, v) ==> Counter(b, e) + 1 < SUSTAINED)
  }

  lemma EdgeStays(b: Battery, w: Watch, v: real, e: Edge)
    requires Tracks(b, w) && (Leaves(w.state, e) ==> !Sustained(w.since + [v], e))
    ensures Stays(b, w, v, e)
  {
    assert Counter(b, e) == (if Leaves(w.state, e) then Streak(w.since, e) else 0);
    if Leaves(w.state, e) {
      Fires(w.since, v, e);
    }
  }

  lemma StaysExact(b: Battery, w: Watch, v: real)
    requires Tracks(b, w)
    requires forall e :: Leaves(w.state, e) ==> !Sustained(w.since + [v], e)
    ensures Tracks(Evaluate(b, v), Watch(w.state, w.since + [v]))
  {
    var h := w.since + [v];
    var c := Evaluate(b, v);
    assert Stays(b, w, v, ToWarning) && Stays(b, w, v, ToCritical) && Stays(b, w, v, ToCharging) && Stays(b, w, v, ToNormal) by {
      forall e ensures Stays(b, w, v, e) {
        EdgeStays(b, w, v, e);
      }
    }
    forall e
      ensures Counter(c, e) == (if Leaves(w.state, e) then Streak(h, e) else 0) && Counter(c, e) < SUSTAINED
    {
      StreakGrows(w.since, v, e);
    }
  }

  // --- Whole runs ---

  function RunFrom(b: Battery, vs: seq<real>): Battery {
    if vs == [] then b else Evaluate(RunFrom(b, vs[..|vs| - 1]), vs[|vs| - 1])
  }

  ghost function ObservedFrom(s: Power, vs: seq<real>): Watch {
    if vs == [] then Watch(s, []) else Observed(ObservedFrom(s, vs[..|vs| - 1]), vs[|vs| - 1])
  }

  // Over every history the counters are the streaks since the state was entered.
  lemma {:induction false} RunIsExact(s: Power, vs: seq<real>)
    ensures Tracks(RunFrom(Entered(s), vs), ObservedFrom(s, vs))
    decreases |vs|
  {
    if vs != [] {
      var n := |vs| - 1;
      RunIsExact(s, vs[..n]);
      DebounceIsExact(RunFrom(Entered(s), vs[..n]), ObservedFrom(s, vs[..n]), vs[n]);
    }
  }

  // What has been seen since the state was entered is the end of the history; the samples
  // before it paid for the transitions, six apiece.
  function Transitions(b: Battery, vs: seq<real>): nat {
    if vs == [] then 0
    else
      Transitions(b, vs[..|vs| - 1]) +
      if RunFrom(b, vs).state != RunFrom(b, vs[..|vs| - 1]).state then 1 else 0
  }

  lemma ObservedStep(w: Watch, v: real)
    ensures Observed(w, v) == Watch(w.state, w.since + [v])
            || exists e :: Leaves(w.state, e) && Sustained(w.since + [v], e) && Observed(w, v) == Watch(Target(e), [])
  {
  }

  lemma {:induction false} SuffixGrows(vs: seq<real>, h: seq<real>)
    requires vs != [] && |h| < |vs| && h == vs[..|vs| - 1][|vs| - 1 - |h|..]
    ensures h + [vs[|vs| - 1]] == vs[|vs| - (|h| + 1)..]
  {
  }

  lemma {:induction false} SinceIsSuffix(s: Power, vs: seq<real>)
    ensures var h := ObservedFrom(s, vs).since; |h| <= |vs| && h == vs[|vs| - |h|..]
    decreases |vs|
  {
    if vs != [] {
      var n := |vs| - 1;
      SinceIsSuffix(s, vs[..n]);
      ObservedStep(ObservedFrom(s, vs[..n]), vs[n]);
      SuffixGrows(vs, ObservedFrom(s, vs[..n]).since);
    }
  }

  // A step that changes the state has used up six samples; one that does not has kept its sample.
  lemma StepCosts(w: Watch, v: real)
    ensures var r := Observed(w, v);
      if r.state == w.state then |r.since| <= |w.since| + 1 else |r.since| == 0 && |w.since| + 1 >= SUSTAINED
  {
    ObservedStep(w, v);
  }

  lemma {:induction false} StateIsObserved(s: Power, vs: seq<real>)
    ensures RunFrom(Entered(s), vs).state == ObservedFrom(s, vs).state
  {
    RunIsExact(s, vs);
  }

  // n samples make at most n / 6 transitions.
  lemma {:induction false} SixSamplesEach(s: Power, vs: seq<real>)
    ensures SUSTAINED * Transitions(Entered(s), vs) + |ObservedFrom(s, vs).since| <= |vs|
    decreases |vs|
  {
    if vs != [] {
      var n := |vs| - 1;
      SixSamplesEach(s, vs[..n]);
      StateIsObserved(s, vs[..n]);
      StateIsObserved(s, vs);
      StepCosts(ObservedFrom(s, vs[..n]), vs[n]);
    }
  }

  // No run comes back to WakeUp.
  lemma {:induction false} NeverWakesAgain(b: Battery, vs: seq<real>, i: nat)
    requires i <= |vs| && RunFrom(b, vs).state == WakeUp
    ensures RunFrom(b, vs[..i]).state == WakeUp
    decreases |vs|
  {
    if i < |vs| {
      var n := |vs| - 1;
      NeverWakesAgain(b, vs[..n], i);
      assert vs[..n][..i] == vs[..i];
    } else {
      assert vs[..i] == vs;
    }
  }

  // Six samples above the charging threshold, then six more above the normal one.
  predicate AllMeet(e: Edge, vs: seq<real>, i: nat) {
    i + SUSTAINED <= |vs| && forall k :: i <= k < i + SUSTAINED ==> Meets(e, vs[k])
  }

  ghost predicate ChargedBefore(vs: seq<real>, end: int) {
    exists i: nat :: AllMeet(ToCharging, vs, i) && i + SUSTAINED <= end
  }

  ghost predicate Recovered(vs: seq<real>) {
    exists j: nat :: AllMeet(ToNormal, vs, j) && ChargedBefore(vs, j)
  }

  // How far a run from Critical or WakeUp has come.
  ghost predicate OnTheWay(w: Watch, vs: seq<real>) {
    match w.state
    case Normal => Recovered(vs)
    case Warning => Recovered(vs)
    case ChargingOn => ChargedBefore(vs, |vs| - |w.since|)
    case _ => true
  }

  // From Critical or WakeUp there is one way back: a run that is in Normal or Warning has seen
  // six samples above 12.8 V and, after them, six above 13.2 V.
  lemma {:induction false} RecoveryNeedsBoth(s: Power, vs: seq<real>)
    requires s == Critical || s == WakeUp
    ensures OnTheWay(ObservedFrom(s, vs), vs)
    decreases |vs|
  {
    if vs != [] {
      var n := |vs| - 1;
      var w := ObservedFrom(s, vs[..n]);
      RecoveryNeedsBoth(s, vs[..n]);
      SinceIsSuffix(s, vs[..n]);
      KeptOnTheWay(w, vs, n);
      StepOnTheWay(w, vs);
    }
  }

  lemma {:induction false} StepOnTheWay(w: Watch, vs: seq<real>)
    requires vs != [] && |w.since| < |vs| && w.since == vs[|vs| - 1 - |w.since|..|vs| - 1]
    requires w.state == ChargingOn ==> ChargedBefore(vs, |vs| - 1 - |w.since|)
    requires w.state == Normal || w.state == Warning ==> Recovered(vs)
    ensures OnTheWay(Observed(w, vs[|vs| - 1]), vs)
  {
    var v := vs[|vs| - 1];
    var h := w.since + [v];
    assert h == vs[|vs| - |h|..];
    ObservedStep(w, v);
    if Observed(w, v) != Watch(w.state, h) {
      var e :| Leaves(w.state, e) && Sustained(h, e) && Observed(w, v) == Watch(Target(e), []);
      EdgeOnTheWay(w, vs, h, e);
    }
  }

  lemma {:induction false} KeptOnTheWay(w: Watch, vs: seq<real>, n: nat)
    requires n <= |vs| && OnTheWay(w, vs[..n])
    ensures w.state == ChargingOn ==> ChargedBefore(vs, n - |w.since|)
    ensures w.state == Normal || w.state == Warning ==> Recovered(vs)
  {
    if w.state == ChargingOn {
      StillCharged(vs, n, n - |w.since|);
    } else if w.state == Normal || w.state == Warning {
      StillRecovered(vs, n);
    }
  }

  lemma {:induction false} EdgeOnTheWay(w: Watch, vs: seq<real>, h: seq<real>, e: Edge)
    requires |h| == |w.since| + 1 <= |vs| && h == vs[|vs| - |h|..]
    requires Leaves(w.state, e) && Sustained(h, e)
    requires w.state == ChargingOn ==> ChargedBefore(vs, |vs| - |h|)
    requires w.state == Normal || w.state == Warning ==> Recovered(vs)
    ensures OnTheWay(Watch(Target(e), []), vs)
  {
    var j := |vs| - SUSTAINED;
    assert forall k :: j <= k < |vs| ==> vs[k] == h[k - (|vs| - |h|)];
    assert AllMeet(e, vs, j);
    if w.state == ChargingOn {
      var i: nat :| AllMeet(ToCharging, vs, i) && i + SUSTAINED <= |vs| - |h|;
      assert ChargedBefore(vs, j);
    }
  }

  lemma {:induction false} StillCharged(vs: seq<real>, n: nat, end: int)
    requires n <= |vs| && ChargedBefore(vs[..n], end)
    ensures ChargedBefore(vs, end)
  {
    var i: nat :| AllMeet(ToCharging, vs[..n], i) && i + SUSTAINED <= end;
    assert forall k :: i <= k < i + SUSTAINED ==> vs[k] == vs[..n][k];
    assert AllMeet(ToCharging, vs, i);
  }

  lemma {:induction false} StillRecovered(vs: seq<real>, n: nat)
    requires n <= |vs| && Recovered(vs[..n])
    ensures Recovered(vs)
  {
    var j: nat :| AllMeet(ToNormal, vs[..n], j) && ChargedBefore(vs[..n], j);
    StillCharged(vs, n, j);
    assert forall k :: j <= k < j + SUSTAINED ==> vs[k] == vs[..n][k];
    assert AllMeet(ToNormal, vs, j);
  }

  lemma {:induction false} CriticalToNormal(vs: seq<real>)
    requires RunFrom(Entered(Critical), vs).state == Normal
    ensures exists i: nat, j: nat :: i + SUSTAINED <= j && AllMeet(ToCharging, vs, i) && AllMeet(ToNormal, vs, j)
  {
    RunIsExact(Critical, vs);
    RecoveryNeedsBoth(Critical, vs);
    var j: nat :| AllMeet(ToNormal, vs, j) && ChargedBefore(vs, j);
    var i: nat :| AllMeet(ToCharging, vs, i) && i + SUSTAINED <= j;
  }

  // ChargingOn has no falling edge: while no sample exceeds 13.2 V the ports stay powered,
  // however far the voltage sinks.
  lemma {:induction false} ChargingOnHasNoFloor(b: Battery, vs: seq<real>)
    requires b.state == ChargingOn && forall i :: 0 <= i < |vs| ==> vs[i] <= 13.2
    ensures RunFrom(b, vs).state == ChargingOn
    decreases |vs|
  {
    if vs != [] {
      ChargingOnHasNoFloor(b, vs[..|vs| - 1]);
    }
  }

  // At boot the ports are powered above 12.8 V and again between 11.8 V and 12.4 V, but not
  // in between.
  lemma BootPortsIff(v: real)
    ensures PortsOn(BootState(v)) <==> v > 12.8 || 11.8 < v <= 12.4
  {
  }

  // Each state has its range of boot voltages.
  lemma BootRanges(v: real)
    ensures BootState(v) == Normal <==> 13.2 < v
    ensures BootState(v) == ChargingOn <==> 12.8 < v <= 13.2
    ensures BootState(v) == WakeUp <==> 12.4 < v <= 12.8
    ensures BootState(v) == Warning <==> 11.8 < v <= 12.4
    ensures BootState(v) == Critical <==> v <= 11.8
  {
  }

  // And it is a state to stay in: while the voltage is what it was at boot, nothing changes.
  lemma {:induction false} BootIsStable(v: real, vs: seq<real>)
    requires forall i :: 0 <= i < |vs| ==> vs[i] == v
    ensures RunFrom(Entered(BootState(v)), vs) == Entered(BootState(v))
    decreases |vs|
  {
    if vs != [] {
      BootIsStable(v, vs[..|vs| - 1]);
    }
  }

  // The boot voltage is the mean of the readings that succeeded: what they differ from it by
  // cancels out, and it is the only voltage of which that holds.
  function Deviation(readings: seq<Option<real>>, m: real): real {
    if readings == [] then 0.0
    else Deviation(readings[..|readings| - 1], m) +
         (match readings[|readings| - 1] case None => 0.0 case Some(v) => v - m)
  }

  lemma {:induction false} DeviationIs(readings: seq<Option<real>>, m: real)
    ensures Deviation(readings, m) == Sum(readings) - Successes(readings) as real * m
    decreases |readings|
  {
    if readings != [] {
      DeviationIs(readings[..|readings| - 1], m);
    }
  }

  lemma {:induction false} BootVoltageIsMean(readings: seq<Option<real>>, m: real)
    requires exists i :: 0 <= i < |readings| && readings[i].Some?
    ensures Deviation(readings, m) == 0.0 <==> m == BootVoltage(readings)
  {
    DeviationIs(readings, m);
    SomeSucceeds(readings);
    Quotient(Sum(readings), Successes(readings) as real, m);
  }

  lemma Quotient(s: real, n: real, m: real)
    requires n > 0.0
    ensures s - n * m == 0.0 <==> m == s / n
  {
  }

  lemma {:induction false} SomeSucceeds(readings: seq<Option<real>>)
    ensures Successes(readings) > 0 <==> exists i :: 0 <= i < |readings| && readings[i].Some?
    decreases |readings|
  {
    if readings != [] {
      var n := |readings| - 1;
      SomeSucceeds(readings[..n]);
      if i :| 0 <= i < n && readings[i].Some? {
        assert readings[..n][i].Some?;
      }
    }
  }

  lemma {:induction false} BootWithoutReadings(readings: seq<Option<real>>)
    requires forall i :: 0 <= i < |readings| ==> readings[i].None?
    ensures BootVoltage(readings) == 0.0
  {
    SomeSucceeds(readings);
  }

  // --- State of charge ---

  function BatteryPercent(v: real): (p: real)
    ensures 0.0 <= p <= 100.0
    ensures p == 100.0 <==> v >= 13.02
    ensures p == 0.0 <==> v <= 11.6
  {
    if v >= 13.02 then 100.0
    else if v <= 11.6 then 0.0
    else (v - 11.6) / (13.02 - 11.6) * 100.0
  }

  // Within the range equal steps of voltage are equal steps of charge.
  lemma PercentIsLinear(v: real, w: real, x: real, y: real)
    requires 11.6 <= v <= 13.02 && 11.6 <= w <= 13.02 && 11.6 <= x <= 13.02 && 11.6 <= y <= 13.02
    requires w - v == y - x
    ensures BatteryPercent(w) - BatteryPercent(v) == BatteryPercent(y) - BatteryPercent(x)
  {
  }

  lemma PercentGrows(v: real, w: real)
    requires v < w
    ensures BatteryPercent(v) <= BatteryPercent(w)
    ensures 11.6 <= v && w <= 13.02 ==> BatteryPercent(v) < BatteryPercent(w)
  {
  }
}
