// The portal flag, the NAPT switch and what /confirm grants.

module PortalAccess {
  import opened Basics
  import opened QuotaBooks
  import opened PortalModel
  import opened PortalIndex
  import opened PortalAdmission
  import opened PortalRuns

  // A refresh leaves no expired session behind, and its flag says exactly whether someone has
  // access at that moment.
  lemma RefreshDecides(st: State, env: Env)
    requires st.Sized() && forall k :: 0 <= k < MAX_CLIENTS && st.sessions[k].active ==> st.sessions[k].endTime > 0
    ensures var r := Refresh(st, env);
      && (forall k :: 0 <= k < MAX_CLIENTS && r.sessions[k].active ==> r.sessions[k].endTime > env.now)
      && (r.portalAuthenticated <==> HasActiveAccess(r, env.now))
  {
    RefreshSurvivors(st, env);
    var r := Refresh(st, env);
    forall k | 0 <= k < MAX_CLIENTS && r.sessions[k].active ensures r.sessions[k].endTime > env.now {
      assert Surviving(st.sessions[k], env.now);
    }
    if HasAdmitted(r.sessions) {
      var i :| 0 <= i < |r.sessions| && r.sessions[i].active && r.sessions[i].admitted;
      assert r.sessions[i].endTime > env.now;
    }
  }

  // Traffic is translated only while the portal counts as authenticated.
  predicate Guarded(st: State) { st.naptEnabled ==> st.portalAuthenticated }

  lemma RefreshGuards(st: State, env: Env)
    requires st.Sized() && env.naptDisableOk
    ensures Guarded(Refresh(st, env))
  {
  }

  // Starting or resuming always ends authenticated, so switching NAPT on beforehand is safe.
  lemma StartAuthenticates(st: State, ip: Ip, mac: Option<Mac>, token: Token, hash: DeviceHash, granted: int, env: Env)
    requires st.Sized()
    ensures StartOrResume(st, ip, mac, token, hash, granted, env).0.portalAuthenticated
  {
    if ip == 0 {
      var opening := st.(globalEnd := env.now + Duration(granted) * SECOND);
      var st0 := Refresh(opening, env);
      WindowAuthenticates(opening, env);
      if token != "" {
        StartAtAuthenticates(st0, FindExisting(st0.sessions, ip, mac, token), ip, mac, token, hash, granted, env);
      }
    } else {
      StartAtAuthenticates(st, FindExisting(st.sessions, ip, mac, token), ip, mac, token, hash, granted, env);
    }
  }

  lemma WindowAuthenticates(st: State, env: Env)
    requires st.Sized() && st.globalEnd > env.now
    ensures Refresh(st, env).portalAuthenticated
  {
    SweepEffect(st, 0, env);
  }

  lemma StartAtAuthenticates(st: State, found: int, ip: Ip, mac: Option<Mac>, token: Token, hash: DeviceHash, granted: int, env: Env)
    requires st.Sized() && -1 <= found < MAX_CLIENTS && (found >= 0 ==> st.sessions[found].active)
    ensures StartAt(st, found, ip, mac, token, hash, granted, env).0.portalAuthenticated
  {
    if found >= 0 && st.sessions[found].endTime > env.now {
      AdmittingAuthenticates(HandedOver(st, found, mac, env.now).(sessions := st.sessions[found := Reused(st.sessions[found], ip, mac, token, hash)]), found, ip, mac, env);
    } else {
      var st1 := if found >= 0 then Retire(st, found, env.now) else st;
      OpenAuthenticates(st1, found, ip, mac, token, hash, Duration(granted), env);
    }
  }

  lemma OpenAuthenticates(st: State, retired: int, ip: Ip, mac: Option<Mac>, token: Token, hash: DeviceHash, duration: nat, env: Env)
    requires st.Sized() && -1 <= retired < MAX_CLIENTS && duration > 0
    ensures Open(st, retired, ip, mac, token, hash, duration, env).portalAuthenticated
  {
    var slot := SlotFor(st.sessions, mac, token, retired);
    AdmittingAuthenticates(Install(st, slot, OpenedSession(st, ip, mac, token, hash, duration, env), env), slot, ip, mac, env);
  }

  lemma AdmittingAuthenticates(st: State, j: nat, ip: Ip, mac: Option<Mac>, env: Env)
    requires st.Sized() && j < MAX_CLIENTS && Surviving(st.sessions[j], env.now) && st.sessions[j].admitted
    ensures Admitting(st, ip, mac, env).portalAuthenticated
  {
    RefreshSurvivors(st, env);
    assert Refresh(st, env).sessions[j] == st.sessions[j];
    SweepEffect(st, 0, env);
    assert SweepFrom(st, 0, env).sessions[j] == Refresh(st, env).sessions[j];
  }

  lemma QueryGuards(st: State, ip: Ip, lookup: Option<Mac>, env: Env)
    requires st.Sized() && Guarded(st) && env.naptDisableOk
    ensures Guarded(GetRemaining(st, ip, lookup, env).0)
  {
    var i := First(st.sessions, (s: Session) => s.active && s.admitted && s.ip == ip);
    var j := if lookup.Some? then FindMac(st.sessions, lookup.value) else -1;
    if i >= 0 {
      RevokeGuards(st, i, env);
    } else if j >= 0 {
      RevokeGuards(st, j, env);
    }
  }

  lemma RevokeGuards(st: State, i: nat, env: Env)
    requires st.Sized() && i < MAX_CLIENTS && Guarded(st) && env.naptDisableOk
    ensures Guarded(Revoke(st, i, env))
  {
    if st.sessions[i].active {
      RefreshGuards(Close(st, i, false, env), env);
    }
  }

  lemma {:induction false} DisconnectGuards(scan: Scan, mac: Mac, i: nat, env: Env)
    requires scan.st.Sized() && i <= MAX_CLIENTS && -1 <= scan.firstActive < MAX_CLIENTS
    requires Guarded(scan.st) && env.naptDisableOk
    ensures Guarded(DisconnectFrom(scan, mac, i, env).st)
    decreases MAX_CLIENTS - i
  {
    if i < MAX_CLIENTS {
      if !scan.st.sessions[i].active {
        DisconnectGuards(scan, mac, i + 1, env);
      } else {
        RevokeGuards(scan.st, i, env);
        var hit := scan.st.sessions[i].mac == mac;
        DisconnectGuards(Scan(if hit then Revoke(scan.st, i, env) else scan.st, scan.matched || hit, scan.count + 1,
                              if scan.firstActive < 0 then i else scan.firstActive), mac, i + 1, env);
      }
    }
  }

  lemma {:induction false} HeartbeatGuards(st: State, i: nat, env: Env)
    requires st.Sized() && i <= MAX_CLIENTS && Guarded(st) && env.naptDisableOk
    ensures Guarded(HeartbeatFrom(st, i, env))
    decreases MAX_CLIENTS - i
  {
    if i < MAX_CLIENTS {
      RevokeGuards(Checkpoint(st, i, env), i, env);
      HeartbeatGuards(HeartbeatSlot(st, i, env), i + 1, env);
    }
  }

  lemma ConfirmGuards(st: State, e: Event, env: Env)
    requires st.Sized() && Guarded(st) && env.naptDisableOk && e.ConfirmPressed?
    ensures Guarded(Step(st, Occurrence(e, env)))
  {
    var mac := ConfirmMac(e);
    var (st1, remaining) := if mac.Some? then QuotaRemaining(st, mac.value, env) else (st, DAILY_QUOTA_SEC);
    var (st2, ok) := EnsureNapt(st1, env);
    if remaining > 0 && e.uplink && ok {
      var granted := if mac.Some? then Grant(remaining, env.wall) else remaining;
      StartAuthenticates(st2, e.ip, mac, e.token, e.hash, granted, env);
      QueryGuards(StartOrResume(st2, e.ip, mac, e.token, e.hash, granted, env).0, e.ip, e.lookup, env);
    }
  }

  lemma ConnectGuards(st: State, e: Event, env: Env)
    requires st.Sized() && Guarded(st) && e.Connected?
    ensures Guarded(Step(st, Occurrence(e, env)))
  {
    var (st1, remaining) := QuotaRemaining(st, e.mac, env);
    var (st2, ok) := EnsureNapt(st1, env);
    StartAuthenticates(st2, 0, Some(e.mac), e.token, e.hash, remaining, env);
  }

  lemma StepGuards(st: State, o: Occurrence)
    requires st.Sized() && Guarded(st) && o.env.naptDisableOk
    ensures Guarded(Step(st, o))
  {
    match o.event
    case ConfirmPressed(_, _, _, _, _, _) => ConfirmGuards(st, o.event, o.env);
    case Queried(ip, lookup) => QueryGuards(st, ip, lookup, o.env);
    case Connected(_, _, _, _) => ConnectGuards(st, o.event, o.env);
    case Leased(mac, ip) =>
    case Disconnected(mac, connectCount) =>
      DisconnectGuards(Scan(st, false, 0, -1), mac, 0, o.env);
      var scan := DisconnectFrom(Scan(st, false, 0, -1), mac, 0, o.env);
      if scan.firstActive >= 0 { RevokeGuards(scan.st, scan.firstActive, o.env); }
    case Heartbeat => HeartbeatGuards(st, 0, o.env);
  }

  // Over every run, whatever the clients do: as long as the driver's switch-off succeeds, NAPT
  // is on at an event boundary only while the portal is authenticated.
  lemma {:induction false} NaptImpliesAuthenticated(os: seq<Occurrence>)
    requires forall i :: 0 <= i < |os| ==> os[i].env.naptDisableOk
    ensures Guarded(Run(Booted(), os))
  {
    if os != [] {
      NaptImpliesAuthenticated(os[..|os| - 1]);
      StepGuards(Run(Booted(), os[..|os| - 1]), os[|os| - 1]);
    }
  }

  // --- /confirm ---

  // Pressing "confirm" again during a live session of the client: as long as its address is
  // known, or nothing is started, neither start nor end changes. Without an address the session
  // is restarted.
  lemma ConfirmKeepsEndTime(st: State, e: Event, env: Env, j: nat)
    requires st.Sized() && Lasting(st.sessions) && e.ConfirmPressed? && Identified(st, e)
    requires j < MAX_CLIENTS && Surviving(st.sessions[j], env.now) && st.sessions[j].mac == ConfirmMac(e).value
    requires st.sessions[j].startTime < env.now
    ensures var s, was := Step(st, Occurrence(e, env)).sessions[j], st.sessions[j];
      var kept := e.ip != 0 || !ConfirmStarts(st, ConfirmMac(e).value, e.uplink, env);
      && s.active && s.mac == was.mac
      && (s.startTime == was.startTime <==> kept)
      && (kept ==> s.endTime == was.endTime && s.granted == was.granted && s.accounted == was.accounted)
  {
    var mac := ConfirmMac(e).value;
    var (st1, remaining) := QuotaRemaining(st, mac, env);
    var (st2, ok) := EnsureNapt(st1, env);
    ConfirmUnfolds(st, e, env);
    if ConfirmStarts(st, mac, e.uplink, env) {
      var granted := Grant(remaining, env.wall);
      QueryAfterStartOrResume(st2, e.ip, mac, e.token, e.hash, granted, e.lookup, env);
      if e.ip != 0 {
        ConfirmReuses(st2, j, e.ip, mac, e.token, e.hash, granted, env);
      } else {
        ResumeRestarts(st2, j, mac, e.token, e.hash, granted, env);
      }
    }
  }

  lemma ConfirmReuses(st: State, j: nat, ip: Ip, mac: Mac, token: Token, hash: DeviceHash, granted: int, env: Env)
    requires st.Sized() && Lasting(st.sessions) && ip != 0 && mac != 0
    requires j < MAX_CLIENTS && Surviving(st.sessions[j], env.now) && st.sessions[j].mac == mac
    ensures var s, was := StartOrResume(st, ip, Some(mac), token, hash, granted, env).0.sessions[j], st.sessions[j];
      s == Reused(was, ip, Some(mac), token, hash)
  {
    assert FindMac(st.sessions, mac) == j;
    var s := Reused(st.sessions[j], ip, Some(mac), token, hash);
    AdmittingLeaves(st.(sessions := st.sessions[j := s]), j, ip, Some(mac), env);
  }

  lemma ResumeRestarts(st: State, j: nat, mac: Mac, token: Token, hash: DeviceHash, granted: int, env: Env)
    requires st.Sized() && Lasting(st.sessions) && mac != 0 && FreshToken(st.sessions, token)
    requires j < MAX_CLIENTS && Surviving(st.sessions[j], env.now) && st.sessions[j].mac == mac
    ensures var s := StartOrResume(st, 0, Some(mac), token, hash, granted, env).0.sessions[j];
      s.active && s.mac == mac && s.startTime == env.now
  {
    var swept := Swept(st, granted, env);
    ResumeOpens(st, mac, token, hash, granted, env);
    assert swept.sessions[j] == st.sessions[j] && FindMac(swept.sessions, mac) == j;
  }

  // What resuming starts from: the table after the opening sweep.
  function Swept(st: State, granted: int, env: Env): (r: State)
    requires st.Sized()
    ensures r.Sized()
  {
    Refresh(st.(globalEnd := env.now + Duration(granted) * SECOND), env)
  }

  // A resumed session is a new one in the slot the swept table gives it.
  lemma ResumeOpens(st: State, mac: Mac, token: Token, hash: DeviceHash, granted: int, env: Env)
    requires st.Sized() && Lasting(st.sessions) && mac != 0 && FreshToken(st.sessions, token)
    ensures var swept := Swept(st, granted, env);
      var slot := SlotFor(swept.sessions, Some(mac), token, -1);
      && Lasting(swept.sessions)
      && (forall k :: 0 <= k < MAX_CLIENTS ==>
            swept.sessions[k].active == Surviving(st.sessions[k], env.now) &&
            (Surviving(st.sessions[k], env.now) ==> swept.sessions[k] == st.sessions[k]))
      && StartOrResume(st, 0, Some(mac), token, hash, granted, env).0.sessions[slot]
         == OpenedSession(swept, 0, Some(mac), token, hash, Duration(granted), env)
  {
    var swept := Swept(st, granted, env);
    RefreshSurvivors(st.(globalEnd := env.now + Duration(granted) * SECOND), env);
    assert FindToken(swept.sessions, token) < 0;
    ResumeUnfolds(st, mac, token, hash, granted, env);
    OpenPlaces(swept, -1, 0, mac, token, hash, Duration(granted), env);
  }

  lemma OpenPlaces(st: State, retired: int, ip: Ip, mac: Mac, token: Token, hash: DeviceHash, duration: nat, env: Env)
    requires st.Sized() && -1 <= retired < MAX_CLIENTS && duration > 0
    ensures var slot := SlotFor(st.sessions, Some(mac), token, retired);
      Open(st, retired, ip, Some(mac), token, hash, duration, env).sessions[slot]
      == OpenedSession(st, ip, Some(mac), token, hash, duration, env)
  {
    var slot := SlotFor(st.sessions, Some(mac), token, retired);
    var s := OpenedSession(st, ip, Some(mac), token, hash, duration, env);
    AdmittingLeaves(Install(st, slot, s, env), slot, ip, Some(mac), env);
  }

  // A press that does not fall into a live session found by the client's or its address.
  predicate NewGrant(ss: seq<Session>, ip: Ip, mac: Mac, token: Token, now: Micros) {
    var found := FindExisting(ss, ip, Some(mac), token);
    ip == 0 || found < 0 || ss[found].endTime <= now
  }

  // Every new grant is a session for the client that lasts no longer than its remaining quota
  // and, with a set clock, ends less than a second after midnight. The wall clock shows whole
  // seconds, so its true reading is `fraction` microseconds later.
  lemma ConfirmGrantBounded(st: State, e: Event, env: Env, fraction: nat) returns (slot: nat)
    requires st.Sized() && Lasting(st.sessions) && e.ConfirmPressed? && Identified(st, e)
    requires NewGrant(st.sessions, e.ip, ConfirmMac(e).value, e.token, env.now)
    requires ConfirmStarts(st, ConfirmMac(e).value, e.uplink, env)
    requires fraction < SECOND
    ensures slot < MAX_CLIENTS
    ensures var s := Step(st, Occurrence(e, env)).sessions[slot];
      && s.active && s.mac == ConfirmMac(e).value && s.ip == e.ip && s.startTime == env.now && s.accounted == 0
      && 0 < s.granted <= QuotaRemaining(st, ConfirmMac(e).value, env).1
      && s.endTime == env.now + s.granted * SECOND
      && (env.wall >= FIRST_VALID_TIME ==>
            env.wall * SECOND + fraction + (s.endTime - env.now) < (env.wall / DAY + 1) * DAY * SECOND + SECOND)
  {
    var mac := ConfirmMac(e).value;
    var (st1, remaining) := QuotaRemaining(st, mac, env);
    var (st2, ok) := EnsureNapt(st1, env);
    ConfirmUnfolds(st, e, env);
    var granted := Grant(remaining, env.wall);
    QueryAfterStartOrResume(st2, e.ip, mac, e.token, e.hash, granted, e.lookup, env);
    if e.ip == 0 {
      slot := SlotFor(Swept(st2, granted, env).sessions, Some(mac), e.token, -1);
      ResumeOpens(st2, mac, e.token, e.hash, granted, env);
    } else {
      var found := FindExisting(st2.sessions, e.ip, Some(mac), e.token);
      var st3 := if found >= 0 then Retire(st2, found, env.now) else st2;
      slot := SlotFor(st3.sessions, Some(mac), e.token, found);
      OpenPlaces(st3, found, e.ip, mac, e.token, e.hash, granted, env);
    }
  }
}
