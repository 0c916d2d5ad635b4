// When client traffic is translated: NAPT is on exactly while somebody has access.

module PortalNapt {
  import opened Basics
  import opened QuotaBooks
  import opened PortalModel
  import opened PortalIndex
  import opened PortalRuns
  import opened PortalAccess

  // Somebody's session is running, or the window for everybody is open.
  predicate Served(st: State, now: Micros) {
    st.globalEnd > now ||
    exists k :: 0 <= k < |st.sessions| && st.sessions[k].active && st.sessions[k].admitted && st.sessions[k].endTime > now
  }

  // A refresh leaves NAPT as it is while somebody is served, and otherwise switches it off
  // unless the driver refuses. It never switches it on.
  lemma RefreshSwitchesIff(st: State, env: Env)
    requires st.Sized() && forall k :: 0 <= k < MAX_CLIENTS && st.sessions[k].active ==> st.sessions[k].endTime > 0
    ensures Refresh(st, env).naptEnabled <==> st.naptEnabled && (Served(st, env.now) || !env.naptDisableOk)
  {
    SweepEffect(st, 0, env);
    var r := SweepFrom(st, 0, env);
    forall k | 0 <= k < MAX_CLIENTS ensures SweptSlot(st.sessions[k], r.sessions[k], env) {
    }
    if k :| 0 <= k < MAX_CLIENTS && st.sessions[k].active && st.sessions[k].admitted && st.sessions[k].endTime > env.now {
      assert r.sessions[k] == st.sessions[k];
    }
  }

  // --- Over runs ---

  // Every active session is admitted, and while there is one, or a window, or the portal counts
  // as authenticated, NAPT is on.
  ghost predicate Wired(st: State) {
    && st.Sized()
    && (forall k :: 0 <= k < MAX_CLIENTS && st.sessions[k].active ==> st.sessions[k].admitted)
    && (st.portalAuthenticated || st.globalEnd > 0 ==> st.naptEnabled)
    && (forall k :: 0 <= k < MAX_CLIENTS && st.sessions[k].active ==> st.naptEnabled)
  }

  // r is st with some sessions changed or gone, none of them less admitted.
  ghost predicate Fewer(st: State, r: State) {
    && st.Sized() && r.Sized()
    && r.naptEnabled == st.naptEnabled && r.portalAuthenticated == st.portalAuthenticated && r.globalEnd == st.globalEnd
    && forall k :: 0 <= k < MAX_CLIENTS && r.sessions[k].active ==>
         st.sessions[k].active && (st.sessions[k].admitted ==> r.sessions[k].admitted)
  }

  lemma FewerWired(st: State, r: State)
    requires Wired(st) && Fewer(st, r)
    ensures Wired(r)
  {
  }

  lemma SweepFewer(st: State, env: Env)
    requires st.Sized()
    ensures Fewer(st, SweepFrom(st, 0, env))
  {
    SweepEffect(st, 0, env);
    var r := SweepFrom(st, 0, env);
    forall k | 0 <= k < MAX_CLIENTS ensures SweptSlot(st.sessions[k], r.sessions[k], env) {
    }
  }

  lemma SettleWired(st: State, env: Env)
    requires Wired(st)
    ensures Wired(Settle(st, env))
  {
  }

  lemma RefreshWired(st: State, env: Env)
    requires Wired(st)
    ensures Wired(Refresh(st, env))
  {
    SweepFewer(st, env);
    FewerWired(st, SweepFrom(st, 0, env));
    SettleWired(SweepFrom(st, 0, env), env);
  }

  lemma RevokeWired(st: State, i: nat, env: Env)
    requires Wired(st) && i < MAX_CLIENTS
    ensures Wired(Revoke(st, i, env))
  {
    if st.sessions[i].active {
      FewerWired(st, Close(st, i, false, env));
      RefreshWired(Close(st, i, false, env), env);
    }
  }

  lemma QueryWired(st: State, ip: Ip, lookup: Option<Mac>, env: Env)
    requires Wired(st)
    ensures Wired(GetRemaining(st, ip, lookup, env).0)
  {
    var i := First(st.sessions, (s: Session) => s.active && s.admitted && s.ip == ip);
    var j := if lookup.Some? then FindMac(st.sessions, lookup.value) else -1;
    if i >= 0 {
      RevokeWired(st, i, env);
    } else if j >= 0 {
      RevokeWired(st, j, env);
      FewerWired(st, Bind(st, j, ip, lookup.value));
    }
  }

  lemma LeaseWired(st: State, mac: Mac, ip: Ip, env: Env)
    requires Wired(st)
    ensures Wired(IpAssigned(st, mac, ip, env))
  {
    var i := First(st.sessions, (s: Session) => s.active && s.mac == mac && s.endTime > env.now);
    if mac != 0 && ip != 0 && i >= 0 {
      FewerWired(st, Rebind(st, i, ip, mac));
      RefreshWired(Rebind(st, i, ip, mac), env);
    }
  }

  lemma {:induction false} ScanWired(scan: Scan, mac: Mac, i: nat, env: Env)
    requires Wired(scan.st) && i <= MAX_CLIENTS && -1 <= scan.firstActive < MAX_CLIENTS
    ensures Wired(DisconnectFrom(scan, mac, i, env).st)
    decreases MAX_CLIENTS - i
  {
    if i < MAX_CLIENTS {
      if !scan.st.sessions[i].active {
        ScanWired(scan, mac, i + 1, env);
      } else {
        RevokeWired(scan.st, i, env);
        var hit := scan.st.sessions[i].mac == mac;
        ScanWired(Scan(if hit then Revoke(scan.st, i, env) else scan.st, scan.matched || hit, scan.count + 1,
                       if scan.firstActive < 0 then i else scan.firstActive), mac, i + 1, env);
      }
    }
  }

  lemma DisconnectWired(st: State, mac: Mac, connectCount: int, env: Env)
    requires Wired(st)
    ensures Wired(Disconnect(st, mac, connectCount, env))
  {
    ScanWired(Scan(st, false, 0, -1), mac, 0, env);
    var scan := DisconnectFrom(Scan(st, false, 0, -1), mac, 0, env);
    if scan.firstActive >= 0 {
      RevokeWired(scan.st, scan.firstActive, env);
    }
  }

  lemma {:induction false} HeartbeatWired(st: State, i: nat, env: Env)
    requires Wired(st) && i <= MAX_CLIENTS
    ensures Wired(HeartbeatFrom(st, i, env))
    decreases MAX_CLIENTS - i
  {
    if i < MAX_CLIENTS {
      FewerWired(st, Checkpoint(st, i, env));
      RevokeWired(Checkpoint(st, i, env), i, env);
      HeartbeatWired(HeartbeatSlot(st, i, env), i + 1, env);
    }
  }

  // --- Starting ---

  // With NAPT on, whatever is started or resumed keeps it on.
  lemma StartWired(st: State, ip: Ip, mac: Option<Mac>, token: Token, hash: DeviceHash, granted: int, env: Env)
    requires Wired(st) && st.naptEnabled
    ensures var r := StartOrResume(st, ip, mac, token, hash, granted, env).0;
      Wired(r) && r.naptEnabled && r.portalAuthenticated
  {
    StartAuthenticates(st, ip, mac, token, hash, granted, env);
    if ip == 0 {
      var opening := st.(globalEnd := env.now + Duration(granted) * SECOND);
      var st0 := Refresh(opening, env);
      RefreshWired(opening, env);
      WindowAuthenticates(opening, env);
      if token != "" {
        StartAtWired(st0, FindExisting(st0.sessions, ip, mac, token), ip, mac, token, hash, granted, env);
      }
    } else {
      StartAtWired(st, FindExisting(st.sessions, ip, mac, token), ip, mac, token, hash, granted, env);
    }
  }

  lemma StartAtWired(st: State, found: int, ip: Ip, mac: Option<Mac>, token: Token, hash: DeviceHash, granted: int, env: Env)
    requires Wired(st) && st.naptEnabled && -1 <= found < MAX_CLIENTS && (found >= 0 ==> st.sessions[found].active)
    ensures Wired(StartAt(st, found, ip, mac, token, hash, granted, env).0)
  {
    if found >= 0 && st.sessions[found].endTime > env.now {
      RefreshWired(HandedOver(st, found, mac, env.now).(
        sessions := st.sessions[found := Reused(st.sessions[found], ip, mac, token, hash)]), env);
    } else {
      var st1 := if found >= 0 then Retire(st, found, env.now) else st;
      FewerWired(st, st1);
      OpenWired(st1, found, ip, mac, token, hash, Duration(granted), env);
    }
  }

  lemma OpenWired(st: State, retired: int, ip: Ip, mac: Option<Mac>, token: Token, hash: DeviceHash, duration: nat, env: Env)
    requires Wired(st) && st.naptEnabled && -1 <= retired < MAX_CLIENTS
    ensures Wired(Open(st, retired, ip, mac, token, hash, duration, env))
  {
    var slot := SlotFor(st.sessions, mac, token, retired);
    RefreshWired(Install(st, slot, OpenedSession(st, ip, mac, token, hash, duration, env), env), env);
  }

  lemma ConfirmWired(st: State, e: Event, env: Env)
    requires Wired(st) && e.ConfirmPressed?
    ensures Wired(Step(st, Occurrence(e, env)))
  {
    var mac := ConfirmMac(e);
    var (st1, remaining) := if mac.Some? then QuotaRemaining(st, mac.value, env) else (st, DAILY_QUOTA_SEC);
    var (st2, ok) := EnsureNapt(st1, env);
    if remaining > 0 && e.uplink && ok {
      var granted := if mac.Some? then Grant(remaining, env.wall) else remaining;
      StartWired(st2, e.ip, mac, e.token, e.hash, granted, env);
      QueryWired(StartOrResume(st2, e.ip, mac, e.token, e.hash, granted, env).0, e.ip, e.lookup, env);
    }
  }

  lemma ConnectWired(st: State, e: Event, env: Env)
    requires Wired(st) && e.Connected?
    ensures Wired(Step(st, Occurrence(e, env)))
  {
    var (st1, remaining) := QuotaRemaining(st, e.mac, env);
    var (st2, ok) := EnsureNapt(st1, env);
    if ok {
      StartWired(st2, 0, Some(e.mac), e.token, e.hash, remaining, env);
    }
  }

  lemma StepWired(st: State, o: Occurrence)
    requires Wired(st)
    ensures Wired(Step(st, o))
  {
    match o.event
    case ConfirmPressed(_, _, _, _, _, _) => ConfirmWired(st, o.event, o.env);
    case Queried(ip, lookup) => QueryWired(st, ip, lookup, o.env);
    case Connected(_, _, _, _) => ConnectWired(st, o.event, o.env);
    case Leased(mac, ip) => LeaseWired(st, mac, ip, o.env);
    case Disconnected(mac, connectCount) => DisconnectWired(st, mac, connectCount, o.env);
    case Heartbeat => HeartbeatWired(st, 0, o.env);
  }

  lemma {:induction false} RunWired(os: seq<Occurrence>)
    ensures Wired(Run(Booted(), os))
  {
    if os != [] {
      RunWired(os[..|os| - 1]);
      StepWired(Run(Booted(), os[..|os| - 1]), os[|os| - 1]);
    }
  }

  // Over every run, whatever the clients do and the driver answers: whoever is served at any
  // moment is served with NAPT on, and the portal counts as authenticated only with NAPT on.
  lemma {:induction false} NobodyIsCutOff(os: seq<Occurrence>, now: Micros)
    ensures var st := Run(Booted(), os);
      (Served(st, now) ==> st.naptEnabled) && (st.portalAuthenticated ==> st.naptEnabled)
  {
    RunWired(os);
  }

  // So, as long as the driver's switch-off succeeds, NAPT is on at an event boundary if and only
  // if the portal counts as authenticated.
  lemma {:induction false} NaptIffAuthenticated(os: seq<Occurrence>)
    requires forall i :: 0 <= i < |os| ==> os[i].env.naptDisableOk
    ensures Run(Booted(), os).naptEnabled <==> Run(Booted(), os).portalAuthenticated
  {
    RunWired(os);
    NaptImpliesAuthenticated(os);
  }
}
