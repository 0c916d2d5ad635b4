// Nobody is charged for more time than it had.

module PortalCharges {
  import opened Basics
  import opened QuotaBooks
  import opened PortalModel
  import opened PortalRuns

  // Time is charged in whole seconds, the last started one not: what a sound session has been
  // charged for by a checkpoint is the time it has run, up to its end.
  lemma ElapsedIsTime(s: Session, now: Micros)
    requires s.endTime == s.startTime + s.granted * SECOND
    ensures var ran := if now <= s.startTime then 0 else Min(now, s.endTime) - s.startTime;
      Elapsed(s, now) * SECOND <= ran < (Elapsed(s, now) + 1) * SECOND
  {
    if now > s.startTime {
      var q := (now - s.startTime) / SECOND;
      assert q * SECOND <= now - s.startTime < (q + 1) * SECOND;
    }
  }

  // A running session has been charged for no more than the time it has run by `now`.
  predicate HonestSession(s: Session, now: int) {
    && s.endTime == s.startTime + s.granted * SECOND && s.accounted <= s.granted
    && s.startTime + s.accounted * SECOND <= now
  }

  predicate HonestUsage(u: Usage) { u.charged * SECOND <= u.micros }

  ghost predicate Honest(st: State, now: int) {
    && st.Sized()
    && (forall k :: 0 <= k < MAX_CLIENTS && st.sessions[k].active ==> HonestSession(st.sessions[k], now))
    && (forall i :: 0 <= i < |st.ended| ==> HonestUsage(st.ended[i]))
  }

  lemma HonestLater(st: State, now: int, later: int)
    requires Honest(st, now) && now <= later
    ensures Honest(st, later)
  {
  }

  // r has the same history, and no session of st's has been charged for more.
  ghost predicate Alike(st: State, r: State) {
    && st.Sized() && r.Sized() && r.ended == st.ended
    && forall k :: 0 <= k < MAX_CLIENTS && r.sessions[k].active ==>
         var s, was := r.sessions[k], st.sessions[k];
         was.active && s.startTime == was.startTime && s.endTime == was.endTime && s.granted == was.granted && s.accounted == was.accounted
  }

  lemma AlikeHonest(st: State, r: State, now: int)
    requires Honest(st, now) && Alike(st, r)
    ensures Honest(r, now)
  {
    forall k | 0 <= k < MAX_CLIENTS && r.sessions[k].active ensures HonestSession(r.sessions[k], now) {
      assert HonestSession(st.sessions[k], now);
    }
  }

  lemma CheckpointHonest(st: State, i: nat, env: Env)
    requires Honest(st, env.now) && i < MAX_CLIENTS && st.sessions[i].active
    ensures Honest(Checkpoint(st, i, env), env.now)
  {
    ElapsedIsTime(st.sessions[i], env.now);
    var r := Checkpoint(st, i, env);
    assert HonestSession(r.sessions[i], env.now);
    assert forall k :: 0 <= k < MAX_CLIENTS && k != i ==> r.sessions[k] == st.sessions[k];
  }

  lemma {:induction false} LogHonest(us: seq<Usage>, u: Usage)
    requires HonestUsage(u) && forall i :: 0 <= i < |us| ==> HonestUsage(us[i])
    ensures forall i :: 0 <= i < |us + [u]| ==> HonestUsage((us + [u])[i])
  {
  }

  lemma EndHonest(s: Session, now: Micros)
    requires HonestSession(s, now)
    ensures HonestUsage(Usage(s.mac, Min(now, s.endTime) - s.startTime, s.accounted))
  {
  }

  lemma LogEndHonest(st: State, i: nat, now: Micros)
    requires Honest(st, now) && i < MAX_CLIENTS && st.sessions[i].active
    ensures Honest(LogEnd(st, i, now), now)
  {
    var s := st.sessions[i];
    EndHonest(s, now);
    LogHonest(st.ended, Usage(s.mac, Min(now, s.endTime) - s.startTime, s.accounted));
  }

  lemma CloseHonest(st: State, i: nat, admitted: bool, env: Env)
    requires Honest(st, env.now) && i < MAX_CLIENTS && st.sessions[i].active
    ensures Honest(Close(st, i, admitted, env), env.now)
  {
    var st1 := Checkpoint(st, i, env);
    CheckpointHonest(st, i, env);
    LogEndHonest(st1, i, env.now);
    AlikeHonest(LogEnd(st1, i, env.now), Close(st, i, admitted, env), env.now);
  }

  lemma {:induction false} SweepHonest(st: State, i: nat, env: Env)
    requires Honest(st, env.now) && i <= MAX_CLIENTS
    ensures Honest(SweepFrom(st, i, env), env.now)
    decreases MAX_CLIENTS - i
  {
    if i < MAX_CLIENTS {
      if Expired(st.sessions[i], env.now) {
        CloseHonest(st, i, st.sessions[i].admitted, env);
      }
      SweepHonest(SweepSlot(st, i, env), i + 1, env);
    }
  }

  lemma RefreshHonest(st: State, env: Env)
    requires Honest(st, env.now)
    ensures Honest(Refresh(st, env), env.now)
  {
    SweepHonest(st, 0, env);
    AlikeHonest(SweepFrom(st, 0, env), Refresh(st, env), env.now);
  }

  lemma RevokeHonest(st: State, i: nat, env: Env)
    requires Honest(st, env.now) && i < MAX_CLIENTS
    ensures Honest(Revoke(st, i, env), env.now)
  {
    if st.sessions[i].active {
      CloseHonest(st, i, false, env);
      RefreshHonest(Close(st, i, false, env), env);
    }
  }

  lemma QueryHonest(st: State, ip: Ip, lookup: Option<Mac>, env: Env)
    requires Honest(st, env.now)
    ensures Honest(GetRemaining(st, ip, lookup, env).0, env.now)
  {
    var i := First(st.sessions, (s: Session) => s.active && s.admitted && s.ip == ip);
    var j := if lookup.Some? then FindMac(st.sessions, lookup.value) else -1;
    if i >= 0 {
      RevokeHonest(st, i, env);
    } else if j >= 0 {
      RevokeHonest(st, j, env);
      AlikeHonest(st, Bind(st, j, ip, lookup.value), env.now);
    }
  }

  lemma LeaseHonest(st: State, mac: Mac, ip: Ip, env: Env)
    requires Honest(st, env.now)
    ensures Honest(IpAssigned(st, mac, ip, env), env.now)
  {
    var i := First(st.sessions, (s: Session) => s.active && s.mac == mac && s.endTime > env.now);
    if mac != 0 && ip != 0 && i >= 0 {
      AlikeHonest(st, Rebind(st, i, ip, mac), env.now);
      RefreshHonest(Rebind(st, i, ip, mac), env);
    }
  }

  lemma {:induction false} ScanHonest(scan: Scan, mac: Mac, i: nat, env: Env)
    requires Honest(scan.st, env.now) && i <= MAX_CLIENTS && -1 <= scan.firstActive < MAX_CLIENTS
    ensures Honest(DisconnectFrom(scan, mac, i, env).st, env.now)
    decreases MAX_CLIENTS - i
  {
    if i < MAX_CLIENTS {
      if !scan.st.sessions[i].active {
        ScanHonest(scan, mac, i + 1, env);
      } else {
        RevokeHonest(scan.st, i, env);
        var hit := scan.st.sessions[i].mac == mac;
        ScanHonest(Scan(if hit then Revoke(scan.st, i, env) else scan.st, scan.matched || hit, scan.count + 1,
                        if scan.firstActive < 0 then i else scan.firstActive), mac, i + 1, env);
      }
    }
  }

  lemma DisconnectHonest(st: State, mac: Mac, connectCount: int, env: Env)
    requires Honest(st, env.now)
    ensures Honest(Disconnect(st, mac, connectCount, env), env.now)
  {
    ScanHonest(Scan(st, false, 0, -1), mac, 0, env);
    var scan := DisconnectFrom(Scan(st, false, 0, -1), mac, 0, env);
    if scan.firstActive >= 0 {
      RevokeHonest(scan.st, scan.firstActive, env);
    }
  }

  lemma {:induction false} HeartbeatHonest(st: State, i: nat, env: Env)
    requires Honest(st, env.now) && i <= MAX_CLIENTS
    ensures Honest(HeartbeatFrom(st, i, env), env.now)
    decreases MAX_CLIENTS - i
  {
    if i < MAX_CLIENTS {
      if st.sessions[i].active {
        CheckpointHonest(st, i, env);
        RevokeHonest(Checkpoint(st, i, env), i, env);
      }
      HeartbeatHonest(HeartbeatSlot(st, i, env), i + 1, env);
    }
  }

  // --- Starting ---

  lemma InstallHonest(st: State, slot: nat, s: Session, env: Env)
    requires Honest(st, env.now) && slot < MAX_CLIENTS && HonestSession(s, env.now)
    ensures Honest(Install(st, slot, s, env), env.now)
  {
    if st.sessions[slot].active {
      LogEndHonest(st, slot, env.now);
    }
  }

  lemma OpenHonest(st: State, retired: int, ip: Ip, mac: Option<Mac>, token: Token, hash: DeviceHash, duration: nat, env: Env)
    requires Honest(st, env.now) && -1 <= retired < MAX_CLIENTS
    ensures Honest(Open(st, retired, ip, mac, token, hash, duration, env), env.now)
  {
    var slot := SlotFor(st.sessions, mac, token, retired);
    var s := OpenedSession(st, ip, mac, token, hash, duration, env);
    InstallHonest(st, slot, s, env);
    RefreshHonest(Install(st, slot, s, env), env);
  }

  lemma ReuseHonest(st: State, i: nat, ip: Ip, mac: Option<Mac>, token: Token, hash: DeviceHash, env: Env)
    requires Honest(st, env.now) && i < MAX_CLIENTS && st.sessions[i].active
    ensures Honest(Reuse(st, i, ip, mac, token, hash, env), env.now)
  {
    var st1 := HandedOver(st, i, mac, env.now);
    LogEndHonest(st, i, env.now);
    var st2 := st1.(sessions := st.sessions[i := Reused(st.sessions[i], ip, mac, token, hash)]);
    AlikeHonest(st1, st2, env.now);
    RefreshHonest(st2, env);
  }

  lemma StartAtHonest(st: State, found: int, ip: Ip, mac: Option<Mac>, token: Token, hash: DeviceHash, granted: int, env: Env)
    requires Honest(st, env.now) && -1 <= found < MAX_CLIENTS && (found >= 0 ==> st.sessions[found].active)
    ensures Honest(StartAt(st, found, ip, mac, token, hash, granted, env).0, env.now)
  {
    if found >= 0 && st.sessions[found].endTime > env.now {
      ReuseHonest(st, found, ip, mac, token, hash, env);
    } else if found >= 0 {
      LogEndHonest(st, found, env.now);
      AlikeHonest(LogEnd(st, found, env.now), Retire(st, found, env.now), env.now);
      OpenHonest(Retire(st, found, env.now), found, ip, mac, token, hash, Duration(granted), env);
    } else {
      OpenHonest(st, found, ip, mac, token, hash, Duration(granted), env);
    }
  }

  lemma StartHonest(st: State, ip: Ip, mac: Option<Mac>, token: Token, hash: DeviceHash, granted: int, env: Env)
    requires Honest(st, env.now)
    ensures Honest(StartOrResume(st, ip, mac, token, hash, granted, env).0, env.now)
  {
    if ip == 0 {
      var opening := st.(globalEnd := env.now + Duration(granted) * SECOND);
      var st0 := Refresh(opening, env);
      RefreshHonest(opening, env);
      if token != "" {
        StartAtHonest(st0, FindExisting(st0.sessions, ip, mac, token), ip, mac, token, hash, granted, env);
      }
    } else {
      StartAtHonest(st, FindExisting(st.sessions, ip, mac, token), ip, mac, token, hash, granted, env);
    }
  }

  lemma ConfirmHonest(st: State, e: Event, env: Env)
    requires Honest(st, env.now) && e.ConfirmPressed?
    ensures Honest(Step(st, Occurrence(e, env)), env.now)
  {
    var mac := ConfirmMac(e);
    var (st1, remaining) := if mac.Some? then QuotaRemaining(st, mac.value, env) else (st, DAILY_QUOTA_SEC);
    var (st2, ok) := EnsureNapt(st1, env);
    AlikeHonest(st, st1, env.now);
    AlikeHonest(st, st2, env.now);
    if remaining > 0 && e.uplink && ok {
      var granted := if mac.Some? then Grant(remaining, env.wall) else remaining;
      StartHonest(st2, e.ip, mac, e.token, e.hash, granted, env);
      QueryHonest(StartOrResume(st2, e.ip, mac, e.token, e.hash, granted, env).0, e.ip, e.lookup, env);
    }
  }

  lemma ConnectHonest(st: State, e: Event, env: Env)
    requires Honest(st, env.now) && e.Connected?
    ensures Honest(Step(st, Occurrence(e, env)), env.now)
  {
    var (st1, remaining) := QuotaRemaining(st, e.mac, env);
    var (st2, ok) := EnsureNapt(st1, env);
    AlikeHonest(st, st1, env.now);
    AlikeHonest(st, st2, env.now);
    StartHonest(st2, 0, Some(e.mac), e.token, e.hash, remaining, env);
  }

  lemma StepHonest(st: State, o: Occurrence)
    requires Honest(st, o.env.now)
    ensures Honest(Step(st, o), o.env.now)
  {
    match o.event
    case ConfirmPressed(_, _, _, _, _, _) => ConfirmHonest(st, o.event, o.env);
    case Queried(ip, lookup) => QueryHonest(st, ip, lookup, o.env);
    case Connected(_, _, _, _) => ConnectHonest(st, o.event, o.env);
    case Leased(mac, ip) => LeaseHonest(st, mac, ip, o.env);
    case Disconnected(mac, connectCount) => DisconnectHonest(st, mac, connectCount, o.env);
    case Heartbeat => HeartbeatHonest(st, 0, o.env);
  }

  // The clock of one event is not behind that of the event before.
  function Latest(os: seq<Occurrence>): int { if os == [] then 0 else os[|os| - 1].env.now }

  ghost predicate Clocked(os: seq<Occurrence>) {
    forall i :: 0 <= i < |os| ==> Latest(os[..i]) <= os[i].env.now
  }

  lemma {:induction false} ClockedPrefix(os: seq<Occurrence>)
    requires Clocked(os) && os != []
    ensures Clocked(os[..|os| - 1]) && Latest(os[..|os| - 1]) <= Latest(os)
  {
    var before := os[..|os| - 1];
    forall i | 0 <= i < |before| ensures Latest(before[..i]) <= before[i].env.now {
      assert before[..i] == os[..i];
    }
  }

  // Over every run on a clock that does not go back, whoever the clients are: every session that
  // ended was charged for no more than the time it had, and every running one so far.
  lemma {:induction false} NeverOvercharged(os: seq<Occurrence>)
    requires Clocked(os)
    ensures Honest(Run(Booted(), os), Latest(os))
    decreases |os|
  {
    if os != [] {
      var before := os[..|os| - 1];
      ClockedPrefix(os);
      NeverOvercharged(before);
      HonestLater(Run(Booted(), before), Latest(before), Latest(os));
      StepHonest(Run(Booted(), before), os[|os| - 1]);
    }
  }
}
