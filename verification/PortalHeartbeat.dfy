// What the heartbeat achieves: how long a session can outlive its end.

module PortalHeartbeat {
  import opened Basics
  import opened PortalModel
  import opened PortalIndex
  import opened PortalRuns
  import opened QuotaBooks

  // An active session has credentials, which is what the heartbeat looks for, and ends after h.
  predicate Tended(s: Session, h: int) {
    s.active ==> s.token != "" && s.deviceHash != "" && s.endTime > h
  }

  ghost predicate AllTended(st: State, h: int) {
    st.Sized() && forall k :: 0 <= k < MAX_CLIENTS ==> Tended(st.sessions[k], h)
  }

  // Sessions may have ended; those that have not are the same to the heartbeat.
  ghost predicate OnlyEnds(st: State, r: State) {
    st.Sized() && r.Sized() &&
    forall k :: 0 <= k < MAX_CLIENTS && r.sessions[k].active ==>
      var s, was := r.sessions[k], st.sessions[k];
      was.active && s.endTime == was.endTime && s.token == was.token && s.deviceHash == was.deviceHash
  }

  lemma RefreshOnlyEnds(st: State, env: Env)
    requires st.Sized()
    ensures OnlyEnds(st, Refresh(st, env))
  {
    SweepEffect(st, 0, env);
    var r := SweepFrom(st, 0, env);
    forall k | 0 <= k < MAX_CLIENTS ensures SweptSlot(st.sessions[k], r.sessions[k], env) {
    }
  }

  lemma RevokeOnlyEnds(st: State, i: nat, env: Env)
    requires st.Sized() && i < MAX_CLIENTS
    ensures OnlyEnds(st, Revoke(st, i, env)) && !Revoke(st, i, env).sessions[i].active
  {
    if st.sessions[i].active {
      RefreshOnlyEnds(Close(st, i, false, env), env);
    }
  }

  lemma QueryOnlyEnds(st: State, ip: Ip, lookup: Option<Mac>, env: Env)
    requires st.Sized()
    ensures OnlyEnds(st, GetRemaining(st, ip, lookup, env).0)
  {
    forall i: nat | i < MAX_CLIENTS ensures OnlyEnds(st, Revoke(st, i, env)) {
      RevokeOnlyEnds(st, i, env);
    }
  }

  lemma LeaseOnlyEnds(st: State, mac: Mac, ip: Ip, env: Env)
    requires st.Sized()
    ensures OnlyEnds(st, IpAssigned(st, mac, ip, env))
  {
    var i := First(st.sessions, (s: Session) => s.active && s.mac == mac && s.endTime > env.now);
    if mac != 0 && ip != 0 && i >= 0 {
      RefreshOnlyEnds(Rebind(st, i, ip, mac), env);
    }
  }

  lemma {:induction false} ScanOnlyEnds(scan: Scan, mac: Mac, i: nat, env: Env)
    requires scan.st.Sized() && i <= MAX_CLIENTS && -1 <= scan.firstActive < MAX_CLIENTS
    ensures OnlyEnds(scan.st, DisconnectFrom(scan, mac, i, env).st)
    decreases MAX_CLIENTS - i
  {
    if i < MAX_CLIENTS {
      if !scan.st.sessions[i].active {
        ScanOnlyEnds(scan, mac, i + 1, env);
      } else {
        RevokeOnlyEnds(scan.st, i, env);
        var hit := scan.st.sessions[i].mac == mac;
        ScanOnlyEnds(Scan(if hit then Revoke(scan.st, i, env) else scan.st, scan.matched || hit, scan.count + 1,
                          if scan.firstActive < 0 then i else scan.firstActive), mac, i + 1, env);
      }
    }
  }

  lemma DisconnectOnlyEnds(st: State, mac: Mac, connectCount: int, env: Env)
    requires st.Sized()
    ensures OnlyEnds(st, Disconnect(st, mac, connectCount, env))
  {
    ScanOnlyEnds(Scan(st, false, 0, -1), mac, 0, env);
    var scan := DisconnectFrom(Scan(st, false, 0, -1), mac, 0, env);
    if scan.firstActive >= 0 {
      RevokeOnlyEnds(scan.st, scan.firstActive, env);
    }
  }

  // --- One pass ---

  // A session that the heartbeat looks after and that has a whole second left.
  predicate Lively(s: Session, now: Micros) {
    s.active && s.token != "" && s.deviceHash != "" ==> s.endTime >= now + SECOND
  }

  lemma SlotBeat(st: State, i: nat, env: Env)
    requires st.Sized() && i < MAX_CLIENTS
    ensures OnlyEnds(st, HeartbeatSlot(st, i, env)) && Lively(HeartbeatSlot(st, i, env).sessions[i], env.now)
  {
    RevokeOnlyEnds(Checkpoint(st, i, env), i, env);
  }

  // After a heartbeat, whatever the table was, no session with credentials is active with less
  // than a second left.
  lemma {:induction false} HeartbeatLeavesLively(st: State, i: nat, env: Env)
    requires st.Sized() && i <= MAX_CLIENTS
    ensures OnlyEnds(st, HeartbeatFrom(st, i, env))
    ensures forall k :: i <= k < MAX_CLIENTS ==> Lively(HeartbeatFrom(st, i, env).sessions[k], env.now)
    decreases MAX_CLIENTS - i
  {
    if i < MAX_CLIENTS {
      SlotBeat(st, i, env);
      HeartbeatLeavesLively(HeartbeatSlot(st, i, env), i + 1, env);
    }
  }

  // --- Between passes ---

  lemma EndsTended(st: State, r: State, h: int)
    requires AllTended(st, h) && OnlyEnds(st, r)
    ensures AllTended(r, h)
  {
  }

  lemma StartTended(st: State, ip: Ip, mac: Option<Mac>, token: Token, hash: DeviceHash, granted: int, env: Env, h: int)
    requires AllTended(st, h) && h <= env.now && token != "" && hash != ""
    ensures AllTended(StartOrResume(st, ip, mac, token, hash, granted, env).0, h)
  {
    if ip == 0 {
      var opening := st.(globalEnd := env.now + Duration(granted) * SECOND);
      RefreshOnlyEnds(opening, env);
      EndsTended(opening, Refresh(opening, env), h);
      StartAtTended(Refresh(opening, env), ip, mac, token, hash, granted, env, h);
    } else {
      StartAtTended(st, ip, mac, token, hash, granted, env, h);
    }
  }

  lemma StartAtTended(st: State, ip: Ip, mac: Option<Mac>, token: Token, hash: DeviceHash, granted: int, env: Env, h: int)
    requires AllTended(st, h) && h <= env.now && token != "" && hash != ""
    ensures AllTended(StartAt(st, FindExisting(st.sessions, ip, mac, token), ip, mac, token, hash, granted, env).0, h)
  {
    var found := FindExisting(st.sessions, ip, mac, token);
    if found >= 0 && st.sessions[found].endTime > env.now {
      var reused := HandedOver(st, found, mac, env.now).(
        sessions := st.sessions[found := Reused(st.sessions[found], ip, mac, token, hash)]);
      RefreshOnlyEnds(reused, env);
      EndsTended(reused, Refresh(reused, env), h);
    } else {
      var st1 := if found >= 0 then Retire(st, found, env.now) else st;
      OpenTended(st1, found, ip, mac, token, hash, Duration(granted), env, h);
    }
  }

  lemma OpenTended(st: State, retired: int, ip: Ip, mac: Option<Mac>, token: Token, hash: DeviceHash, duration: nat, env: Env, h: int)
    requires AllTended(st, h) && h <= env.now && token != "" && hash != "" && duration > 0 && -1 <= retired < MAX_CLIENTS
    ensures AllTended(Open(st, retired, ip, mac, token, hash, duration, env), h)
  {
    var slot := SlotFor(st.sessions, mac, token, retired);
    var installed := Install(st, slot, OpenedSession(st, ip, mac, token, hash, duration, env), env);
    RefreshOnlyEnds(installed, env);
    EndsTended(installed, Refresh(installed, env), h);
  }

  // New sessions come with credentials.
  predicate Credited(e: Event) {
    match e
    case ConfirmPressed(_, _, _, _, token, hash) => token != "" && hash != ""
    case Connected(_, _, token, hash) => token != "" && hash != ""
    case _ => true
  }

  lemma ConfirmTended(st: State, e: Event, env: Env, h: int)
    requires AllTended(st, h) && h <= env.now && e.ConfirmPressed? && Credited(e)
    ensures AllTended(Step(st, Occurrence(e, env)), h)
  {
    var mac := ConfirmMac(e);
    var (st1, remaining) := if mac.Some? then QuotaRemaining(st, mac.value, env) else (st, DAILY_QUOTA_SEC);
    var (st2, ok) := EnsureNapt(st1, env);
    if remaining > 0 && e.uplink && ok {
      var granted := if mac.Some? then Grant(remaining, env.wall) else remaining;
      var st3 := StartOrResume(st2, e.ip, mac, e.token, e.hash, granted, env).0;
      StartTended(st2, e.ip, mac, e.token, e.hash, granted, env, h);
      QueryOnlyEnds(st3, e.ip, e.lookup, env);
      EndsTended(st3, GetRemaining(st3, e.ip, e.lookup, env).0, h);
    }
  }

  lemma StepTended(st: State, o: Occurrence, h: int)
    requires AllTended(st, h) && h <= o.env.now && Credited(o.event)
    ensures AllTended(Step(st, o), h)
  {
    match o.event
    case ConfirmPressed(_, _, _, _, _, _) => ConfirmTended(st, o.event, o.env, h);
    case Connected(mac, uplink, token, hash) =>
      if mac != 0 && uplink {
        var (st1, remaining) := QuotaRemaining(st, mac, o.env);
        StartTended(EnsureNapt(st1, o.env).0, 0, Some(mac), token, hash, remaining, o.env, h);
      }
    case Queried(ip, lookup) => QueryOnlyEnds(st, ip, lookup, o.env);
    case Leased(mac, ip) => LeaseOnlyEnds(st, mac, ip, o.env);
    case Disconnected(mac, connectCount) => DisconnectOnlyEnds(st, mac, connectCount, o.env);
    case Heartbeat => HeartbeatLeavesLively(st, 0, o.env);
  }

  lemma {:induction false} RunTended(st: State, os: seq<Occurrence>, h: int)
    requires AllTended(st, h) && forall i :: 0 <= i < |os| ==> h <= os[i].env.now && Credited(os[i].event)
    ensures AllTended(Run(st, os), h)
  {
    if os != [] {
      RunTended(st, os[..|os| - 1], h);
      StepTended(Run(st, os[..|os| - 1]), os[|os| - 1], h);
    }
  }

  lemma {:induction false} RunSplits(st: State, os: seq<Occurrence>, n: nat)
    requires st.Sized() && n <= |os|
    ensures Run(st, os) == Run(Run(st, os[..n]), os[n..])
    decreases |os|
  {
    if n == |os| {
      assert os[..n] == os;
    } else {
      var m := |os| - 1;
      RunSplits(st, os[..m], n);
      TailOf(os, n);
    }
  }

  lemma {:induction false} TailOf(os: seq<Occurrence>, n: nat)
    requires n < |os|
    ensures var m, tail := |os| - 1, os[n..];
      os[..m][..n] == os[..n] && os[..m][n..] == tail[..|tail| - 1] && tail[|tail| - 1] == os[m]
  {
  }

  // After any run from boot, every active session ends later than any heartbeat behind it, as
  // long as the clock has not gone back since and sessions come with credentials: a session
  // outlives its end by less than the time since the last heartbeat.
  lemma {:induction false} OverstayBounded(os: seq<Occurrence>, n: nat, k: nat)
    requires n < |os| && os[n].event.Heartbeat? && k < MAX_CLIENTS
    requires forall i :: 0 <= i < |os| ==> Credited(os[i].event)
    requires forall i :: n < i < |os| ==> os[n].env.now <= os[i].env.now
    ensures var s := Run(Booted(), os).sessions[k];
      s.active ==> s.endTime > os[n].env.now
  {
    var st := Booted();
    var before, h := os[..n], os[n].env.now;
    assert AllTended(st, 0);
    RunTended(st, before, 0);
    var beat := Run(st, os[..n + 1]);
    assert os[..n + 1][..n] == before;
    HeartbeatLeavesLively(Run(st, before), 0, os[n].env);
    assert AllTended(beat, h);
    RunTended(beat, os[n + 1..], h);
    RunSplits(st, os, n + 1);
  }
}
