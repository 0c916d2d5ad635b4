// The portal flag, which the probes of phones are answered by: it is right after every event
// that changes who is served.

module PortalFlag {
  import opened Basics
  import opened QuotaBooks
  import opened PortalModel
  import opened PortalRuns
  import opened PortalAccess
  import opened PortalNapt

  ghost predicate EndsSet(st: State) {
    st.Sized() && forall k :: 0 <= k < MAX_CLIENTS && st.sessions[k].active ==> st.sessions[k].endTime > 0
  }

  // The flag says whether somebody is served.
  predicate Right(st: State, now: Micros) { st.portalAuthenticated <==> Served(st, now) }

  predicate SameService(s: Session, was: Session) {
    s.active == was.active && s.admitted == was.admitted && s.endTime == was.endTime
  }

  // The same sessions and the same window serve, under the same flag.
  ghost predicate Unmoved(st: State, r: State) {
    && st.Sized() && r.Sized() && r.portalAuthenticated == st.portalAuthenticated && r.globalEnd == st.globalEnd
    && forall k :: 0 <= k < MAX_CLIENTS ==> SameService(r.sessions[k], st.sessions[k])
  }

  // From a state with its ends set: another one, unmoved or with the flag right.
  ghost predicate Kept(st: State, r: State, now: Micros) {
    EndsSet(r) && (Unmoved(st, r) || Right(r, now))
  }

  lemma ServedOn(st: State, r: State, k: nat, now: Micros)
    requires Unmoved(st, r) && k < MAX_CLIENTS && st.sessions[k].active && st.sessions[k].admitted && st.sessions[k].endTime > now
    ensures Served(r, now)
  {
    assert SameService(r.sessions[k], st.sessions[k]);
  }

  lemma UnmovedRight(st: State, r: State, now: Micros)
    requires Unmoved(st, r) && Right(st, now)
    ensures Right(r, now)
  {
    if Served(st, now) && st.globalEnd <= now {
      var k :| 0 <= k < MAX_CLIENTS && st.sessions[k].active && st.sessions[k].admitted && st.sessions[k].endTime > now;
      ServedOn(st, r, k, now);
    }
    if Served(r, now) && r.globalEnd <= now {
      var k :| 0 <= k < MAX_CLIENTS && r.sessions[k].active && r.sessions[k].admitted && r.sessions[k].endTime > now;
      assert SameService(r.sessions[k], st.sessions[k]);
    }
  }

  lemma KeptOn(st: State, r: State, q: State, now: Micros)
    requires Kept(st, r, now) && Kept(r, q, now)
    ensures Kept(st, q, now)
  {
    if Unmoved(r, q) {
      if Unmoved(st, r) {
        forall k | 0 <= k < MAX_CLIENTS ensures SameService(q.sessions[k], st.sessions[k]) {
          assert SameService(q.sessions[k], r.sessions[k]) && SameService(r.sessions[k], st.sessions[k]);
        }
      } else {
        UnmovedRight(r, q, now);
      }
    }
  }

  lemma RefreshRight(st: State, env: Env)
    requires EndsSet(st)
    ensures EndsSet(Refresh(st, env)) && Right(Refresh(st, env), env.now)
  {
    RefreshDecides(st, env);
  }

  lemma RevokeRight(st: State, i: nat, env: Env)
    requires EndsSet(st) && i < MAX_CLIENTS
    ensures Kept(st, Revoke(st, i, env), env.now) && (st.sessions[i].active ==> Right(Revoke(st, i, env), env.now))
  {
    if st.sessions[i].active {
      RefreshRight(Close(st, i, false, env), env);
    }
  }

  lemma QueryKept(st: State, ip: Ip, lookup: Option<Mac>, env: Env)
    requires EndsSet(st)
    ensures Kept(st, GetRemaining(st, ip, lookup, env).0, env.now)
  {
    var i := First(st.sessions, (s: Session) => s.active && s.admitted && s.ip == ip);
    var j := if lookup.Some? then FindMac(st.sessions, lookup.value) else -1;
    if i >= 0 {
      RevokeRight(st, i, env);
    } else if j >= 0 {
      RevokeRight(st, j, env);
    }
  }

  lemma {:induction false} ScanKept(scan: Scan, mac: Mac, i: nat, env: Env)
    requires EndsSet(scan.st) && i <= MAX_CLIENTS && -1 <= scan.firstActive < MAX_CLIENTS
    ensures Kept(scan.st, DisconnectFrom(scan, mac, i, env).st, env.now)
    decreases MAX_CLIENTS - i
  {
    if i < MAX_CLIENTS {
      if !scan.st.sessions[i].active {
        ScanKept(scan, mac, i + 1, env);
      } else {
        RevokeRight(scan.st, i, env);
        var hit := scan.st.sessions[i].mac == mac;
        var next := Scan(if hit then Revoke(scan.st, i, env) else scan.st, scan.matched || hit, scan.count + 1,
                         if scan.firstActive < 0 then i else scan.firstActive);
        ScanKept(next, mac, i + 1, env);
        KeptOn(scan.st, next.st, DisconnectFrom(next, mac, i + 1, env).st, env.now);
      }
    }
  }

  lemma DisconnectKept(st: State, mac: Mac, connectCount: int, env: Env)
    requires EndsSet(st)
    ensures Kept(st, Disconnect(st, mac, connectCount, env), env.now)
  {
    ScanKept(Scan(st, false, 0, -1), mac, 0, env);
    var scan := DisconnectFrom(Scan(st, false, 0, -1), mac, 0, env);
    if scan.firstActive >= 0 {
      RevokeRight(scan.st, scan.firstActive, env);
      KeptOn(st, scan.st, Revoke(scan.st, scan.firstActive, env), env.now);
    }
  }

  lemma BeatKept(st: State, i: nat, env: Env)
    requires EndsSet(st) && i < MAX_CLIENTS
    ensures Kept(st, HeartbeatSlot(st, i, env), env.now)
  {
    var st1 := Checkpoint(st, i, env);
    assert Unmoved(st, st1);
    RevokeRight(st1, i, env);
    KeptOn(st, st1, Revoke(st1, i, env), env.now);
  }

  lemma {:induction false} HeartbeatKept(st: State, i: nat, env: Env)
    requires EndsSet(st) && i <= MAX_CLIENTS
    ensures Kept(st, HeartbeatFrom(st, i, env), env.now)
    decreases MAX_CLIENTS - i
  {
    if i < MAX_CLIENTS {
      BeatKept(st, i, env);
      HeartbeatKept(HeartbeatSlot(st, i, env), i + 1, env);
      KeptOn(st, HeartbeatSlot(st, i, env), HeartbeatFrom(st, i, env), env.now);
    }
  }

  lemma LeaseKept(st: State, mac: Mac, ip: Ip, env: Env)
    requires EndsSet(st)
    ensures Kept(st, IpAssigned(st, mac, ip, env), env.now)
  {
    var i := First(st.sessions, (s: Session) => s.active && s.mac == mac && s.endTime > env.now);
    if mac != 0 && ip != 0 && i >= 0 {
      RefreshRight(Rebind(st, i, ip, mac), env);
    }
  }

  // --- Starting ---

  lemma StartRight(st: State, ip: Ip, mac: Option<Mac>, token: Token, hash: DeviceHash, granted: int, env: Env)
    requires EndsSet(st)
    ensures var r := StartOrResume(st, ip, mac, token, hash, granted, env).0;
      EndsSet(r) && Right(r, env.now)
  {
    if ip == 0 {
      var opening := st.(globalEnd := env.now + Duration(granted) * SECOND);
      var st0 := Refresh(opening, env);
      RefreshRight(opening, env);
      if token != "" {
        StartAtRight(st0, FindExisting(st0.sessions, ip, mac, token), ip, mac, token, hash, granted, env);
      }
    } else {
      StartAtRight(st, FindExisting(st.sessions, ip, mac, token), ip, mac, token, hash, granted, env);
    }
  }

  lemma StartAtRight(st: State, found: int, ip: Ip, mac: Option<Mac>, token: Token, hash: DeviceHash, granted: int, env: Env)
    requires EndsSet(st) && -1 <= found < MAX_CLIENTS
    ensures var r := StartAt(st, found, ip, mac, token, hash, granted, env).0;
      EndsSet(r) && Right(r, env.now)
  {
    if found >= 0 && st.sessions[found].endTime > env.now {
      RefreshRight(HandedOver(st, found, mac, env.now).(
        sessions := st.sessions[found := Reused(st.sessions[found], ip, mac, token, hash)]), env);
    } else {
      OpenRight(if found >= 0 then Retire(st, found, env.now) else st, found, ip, mac, token, hash, Duration(granted), env);
    }
  }

  lemma OpenRight(st: State, retired: int, ip: Ip, mac: Option<Mac>, token: Token, hash: DeviceHash, duration: nat, env: Env)
    requires EndsSet(st) && -1 <= retired < MAX_CLIENTS
    ensures var r := Open(st, retired, ip, mac, token, hash, duration, env);
      EndsSet(r) && Right(r, env.now)
  {
    var slot := SlotFor(st.sessions, mac, token, retired);
    RefreshRight(Install(st, slot, OpenedSession(st, ip, mac, token, hash, duration, env), env), env);
  }

  lemma ConfirmKept(st: State, e: Event, env: Env)
    requires EndsSet(st) && e.ConfirmPressed?
    ensures Kept(st, Step(st, Occurrence(e, env)), env.now)
  {
    var mac := ConfirmMac(e);
    var (st1, remaining) := if mac.Some? then QuotaRemaining(st, mac.value, env) else (st, DAILY_QUOTA_SEC);
    var (st2, ok) := EnsureNapt(st1, env);
    if remaining > 0 && e.uplink && ok {
      var granted := if mac.Some? then Grant(remaining, env.wall) else remaining;
      var st3 := StartOrResume(st2, e.ip, mac, e.token, e.hash, granted, env).0;
      StartRight(st2, e.ip, mac, e.token, e.hash, granted, env);
      QueryKept(st3, e.ip, e.lookup, env);
      KeptOn(st2, st3, GetRemaining(st3, e.ip, e.lookup, env).0, env.now);
    }
  }

  lemma ConnectKept(st: State, e: Event, env: Env)
    requires EndsSet(st) && e.Connected?
    ensures Kept(st, Step(st, Occurrence(e, env)), env.now)
  {
    var (st1, remaining) := QuotaRemaining(st, e.mac, env);
    var (st2, ok) := EnsureNapt(st1, env);
    StartRight(st2, 0, Some(e.mac), e.token, e.hash, remaining, env);
  }

  lemma StepKept(st: State, o: Occurrence)
    requires EndsSet(st)
    ensures Kept(st, Step(st, o), o.env.now)
  {
    match o.event
    case ConfirmPressed(_, _, _, _, _, _) => ConfirmKept(st, o.event, o.env);
    case Queried(ip, lookup) => QueryKept(st, ip, lookup, o.env);
    case Connected(_, _, _, _) => ConnectKept(st, o.event, o.env);
    case Leased(mac, ip) => LeaseKept(st, mac, ip, o.env);
    case Disconnected(mac, connectCount) => DisconnectKept(st, mac, connectCount, o.env);
    case Heartbeat => HeartbeatKept(st, 0, o.env);
  }

  lemma {:induction false} RunEndsSet(os: seq<Occurrence>)
    ensures EndsSet(Run(Booted(), os))
  {
    if os != [] {
      RunEndsSet(os[..|os| - 1]);
      StepKept(Run(Booted(), os[..|os| - 1]), os[|os| - 1]);
    }
  }

  // In every run, every event that begins or ends a session, or moves a window, leaves the flag
  // saying exactly whether somebody is served.
  lemma {:induction false} FlagIsRight(os: seq<Occurrence>, o: Occurrence)
    ensures var st := Run(Booted(), os);
      Unmoved(st, Step(st, o)) || Right(Step(st, o), o.env.now)
  {
    RunEndsSet(os);
    StepKept(Run(Booted(), os), o);
  }
}
