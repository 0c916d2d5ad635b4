// Which ends of sessions are charged. Revocation and expiry checkpoint the session first;
// starting one session may drop another without doing so.

module PortalLosses {
  import opened Basics
  import opened QuotaBooks
  import opened PortalModel
  import opened PortalIndex
  import opened PortalAdmission
  import opened PortalRuns
  import opened PortalQuota

  ghost predicate Sound(st: State) {
    st.Sized() && forall i :: 0 <= i < MAX_CLIENTS && st.sessions[i].active ==> SessionOk(st.sessions[i])
  }

  // The history grew, and as far as client m is concerned by fully charged sessions only.
  ghost predicate Charged(before: seq<Usage>, after: seq<Usage>, m: Mac) {
    && |before| <= |after| && after[..|before|] == before
    && forall i :: |before| <= i < |after| && after[i].mac == m ==> FullyCharged(after[i])
  }

  ghost predicate Grew(before: seq<Usage>, after: seq<Usage>) {
    |before| <= |after| && after[..|before|] == before
  }

  lemma {:induction false} ChargedThrough(a: seq<Usage>, b: seq<Usage>, c: seq<Usage>, m: Mac)
    requires Charged(a, b, m) && Grew(b, c)
    ensures Grew(a, c) && (Charged(a, c, m) <==> Charged(b, c, m))
  {
    assert forall i :: 0 <= i < |b| ==> c[i] == c[..|b|][i];
    assert c[..|a|] == b[..|a|];
    if Charged(b, c, m) {
      forall i | |a| <= i < |c| ensures c[i].mac == m ==> FullyCharged(c[i]) {
        assert i < |b| ==> c[i] == b[i];
      }
    }
  }

  // --- Ends that are charged ---

  lemma CloseCharges(st: State, i: nat, admitted: bool, env: Env, m: Mac)
    requires Sound(st) && i < MAX_CLIENTS && st.sessions[i].active
    ensures Sound(Close(st, i, admitted, env)) && Charged(st.ended, Close(st, i, admitted, env).ended, m)
  {
    NothingLeft(st, i, env);
    var s := Checkpoint(st, i, env).sessions[i];
    EndChargedIff(s, env.now);
  }

  lemma {:induction false} SweepCharges(st: State, i: nat, env: Env, m: Mac)
    requires Sound(st) && i <= MAX_CLIENTS
    ensures Sound(SweepFrom(st, i, env)) && Charged(st.ended, SweepFrom(st, i, env).ended, m)
    decreases MAX_CLIENTS - i
  {
    if i < MAX_CLIENTS {
      var next := SweepSlot(st, i, env);
      if Expired(st.sessions[i], env.now) {
        CloseCharges(st, i, st.sessions[i].admitted, env, m);
      }
      SweepCharges(next, i + 1, env, m);
      ChargedThrough(st.ended, next.ended, SweepFrom(next, i + 1, env).ended, m);
    }
  }

  lemma RefreshCharges(st: State, env: Env, m: Mac)
    requires Sound(st)
    ensures Sound(Refresh(st, env)) && Charged(st.ended, Refresh(st, env).ended, m)
  {
    SweepCharges(st, 0, env, m);
  }

  lemma RevokeCharges(st: State, i: nat, env: Env, m: Mac)
    requires Sound(st) && i < MAX_CLIENTS
    ensures Sound(Revoke(st, i, env)) && Charged(st.ended, Revoke(st, i, env).ended, m)
  {
    if st.sessions[i].active {
      var closed := Close(st, i, false, env);
      CloseCharges(st, i, false, env, m);
      RefreshCharges(closed, env, m);
      ChargedThrough(st.ended, closed.ended, Refresh(closed, env).ended, m);
    }
  }

  lemma QueryCharges(st: State, ip: Ip, lookup: Option<Mac>, env: Env, m: Mac)
    requires Sound(st)
    ensures Charged(st.ended, GetRemaining(st, ip, lookup, env).0.ended, m)
  {
    forall i: nat | i < MAX_CLIENTS ensures Charged(st.ended, Revoke(st, i, env).ended, m) {
      RevokeCharges(st, i, env, m);
    }
  }

  lemma LeaseCharges(st: State, mac: Mac, ip: Ip, env: Env, m: Mac)
    requires Sound(st)
    ensures Charged(st.ended, IpAssigned(st, mac, ip, env).ended, m)
  {
    var i := First(st.sessions, (s: Session) => s.active && s.mac == mac && s.endTime > env.now);
    if mac != 0 && ip != 0 && i >= 0 {
      RefreshCharges(Rebind(st, i, ip, mac), env, m);
    }
  }

  lemma {:induction false} ScanCharges(scan: Scan, mac: Mac, i: nat, env: Env, m: Mac)
    requires Sound(scan.st) && i <= MAX_CLIENTS && -1 <= scan.firstActive < MAX_CLIENTS
    ensures var r := DisconnectFrom(scan, mac, i, env); Sound(r.st) && Charged(scan.st.ended, r.st.ended, m)
    decreases MAX_CLIENTS - i
  {
    if i < MAX_CLIENTS {
      if !scan.st.sessions[i].active {
        ScanCharges(scan, mac, i + 1, env, m);
      } else {
        var hit := scan.st.sessions[i].mac == mac;
        var next := Scan(if hit then Revoke(scan.st, i, env) else scan.st, scan.matched || hit, scan.count + 1,
                         if scan.firstActive < 0 then i else scan.firstActive);
        RevokeCharges(scan.st, i, env, m);
        ScanCharges(next, mac, i + 1, env, m);
        ChargedThrough(scan.st.ended, next.st.ended, DisconnectFrom(next, mac, i + 1, env).st.ended, m);
      }
    }
  }

  lemma DisconnectCharges(st: State, mac: Mac, connectCount: int, env: Env, m: Mac)
    requires Sound(st)
    ensures Charged(st.ended, Disconnect(st, mac, connectCount, env).ended, m)
  {
    var scan := DisconnectFrom(Scan(st, false, 0, -1), mac, 0, env);
    ScanCharges(Scan(st, false, 0, -1), mac, 0, env, m);
    if scan.firstActive >= 0 {
      RevokeCharges(scan.st, scan.firstActive, env, m);
      ChargedThrough(st.ended, scan.st.ended, Revoke(scan.st, scan.firstActive, env).ended, m);
    }
  }

  lemma HeartbeatSlotCharges(st: State, i: nat, env: Env, m: Mac)
    requires Sound(st) && i < MAX_CLIENTS
    ensures Sound(HeartbeatSlot(st, i, env)) && Charged(st.ended, HeartbeatSlot(st, i, env).ended, m)
  {
    if st.sessions[i].active {
      NothingLeft(st, i, env);
      RevokeCharges(Checkpoint(st, i, env), i, env, m);
    }
  }

  lemma {:induction false} HeartbeatCharges(st: State, i: nat, env: Env, m: Mac)
    requires Sound(st) && i <= MAX_CLIENTS
    ensures Charged(st.ended, HeartbeatFrom(st, i, env).ended, m)
    decreases MAX_CLIENTS - i
  {
    if i < MAX_CLIENTS {
      var next := HeartbeatSlot(st, i, env);
      HeartbeatSlotCharges(st, i, env, m);
      HeartbeatCharges(next, i + 1, env, m);
      ChargedThrough(st.ended, next.ended, HeartbeatFrom(next, i + 1, env).ended, m);
    }
  }

  // --- Ends that may not be ---

  // A session of client m with whole seconds to charge.
  predicate Owes(s: Session, now: Micros, m: Mac) { s.active && s.mac == m && Chargeable(s, now) }

  // The session that starting one for `mac` takes from its client unseen, -1 for none. With a
  // known address it is the client's own if that has expired; for a client without one,
  // whatever session has the address, taken over when live and dropped when expired, and
  // without any the one in slot 0 when no slot is free. Without an address expired ones are
  // swept first; it is the client's own live one, and without any the one in slot 0 when all
  // are live.
  function Dropped(ss: seq<Session>, ip: Ip, mac: Mac, now: Micros): (i: int)
    requires |ss| == MAX_CLIENTS
    ensures -1 <= i < MAX_CLIENTS
  {
    if ip != 0 then
      var own := FindMac(ss, mac);
      if own >= 0 then (if ss[own].endTime <= now then own else -1)
      else if FindIp(ss, ip) >= 0 then FindIp(ss, ip)
      else if FindFree(ss) >= 0 then -1 else 0
    else
      var mine := First(ss, (s: Session) => Surviving(s, now) && s.mac == mac);
      if mine >= 0 then mine
      else if First(ss, (s: Session) => !Surviving(s, now)) >= 0 then -1 else 0
  }

  // Client m loses time exactly when that session is its own and has run for a second or more
  // that is not yet charged.
  predicate Loses(ss: seq<Session>, ip: Ip, mac: Mac, now: Micros, m: Mac)
    requires |ss| == MAX_CLIENTS
  {
    Dropped(ss, ip, mac, now) >= 0 && Owes(ss[Dropped(ss, ip, mac, now)], now, m)
  }

  lemma LoggedIff(st: State, i: nat, now: Micros, m: Mac)
    requires Sound(st) && i < MAX_CLIENTS && st.sessions[i].active
    ensures Grew(st.ended, LogEnd(st, i, now).ended)
    ensures Charged(st.ended, LogEnd(st, i, now).ended, m) <==> !Owes(st.sessions[i], now, m)
  {
    var s := st.sessions[i];
    var after := LogEnd(st, i, now).ended;
    EndChargedIff(s, now);
    assert after[|st.ended|] == Usage(s.mac, Min(now, s.endTime) - s.startTime, s.accounted);
  }

  lemma InstallIff(st: State, slot: nat, s: Session, env: Env, m: Mac)
    requires Sound(st) && slot < MAX_CLIENTS && SessionOk(s)
    ensures Sound(Install(st, slot, s, env)) && Grew(st.ended, Install(st, slot, s, env).ended)
    ensures Charged(st.ended, Install(st, slot, s, env).ended, m)
      <==> !Owes(st.sessions[slot], env.now, m)
  {
    if st.sessions[slot].active {
      LoggedIff(st, slot, env.now, m);
    }
  }

  lemma AdmittingCharges(st: State, ip: Ip, mac: Option<Mac>, env: Env, m: Mac)
    requires Sound(st)
    ensures Charged(st.ended, Admitting(st, ip, mac, env).ended, m)
  {
    RefreshCharges(st, env, m);
  }

  // What follows with charged ends only does not change the verdict.
  lemma {:induction false} ThenCharged(a: seq<Usage>, b: seq<Usage>, c: seq<Usage>, m: Mac)
    requires Grew(a, b) && Charged(b, c, m)
    ensures Grew(a, c) && (Charged(a, c, m) <==> Charged(a, b, m))
  {
    assert forall i :: 0 <= i < |b| ==> c[i] == c[..|b|][i];
    assert c[..|a|] == b[..|a|];
    if Charged(a, c, m) {
      forall i | |a| <= i < |b| ensures b[i].mac == m ==> FullyCharged(b[i]) {
        assert b[i] == c[i];
      }
    }
    if Charged(a, b, m) {
      forall i | |a| <= i < |c| ensures c[i].mac == m ==> FullyCharged(c[i]) {
        assert i < |b| ==> c[i] == b[i];
      }
    }
  }

  lemma OpenIff(st: State, retired: int, ip: Ip, mac: Mac, token: Token, hash: DeviceHash, duration: nat, env: Env, m: Mac)
    requires Sound(st) && -1 <= retired < MAX_CLIENTS && mac != 0 && 0 < duration <= DAILY_QUOTA_SEC
    ensures var slot := SlotFor(st.sessions, Some(mac), token, retired);
      var r := Open(st, retired, ip, Some(mac), token, hash, duration, env);
      Grew(st.ended, r.ended) &&
      (Charged(st.ended, r.ended, m) <==> !Owes(st.sessions[slot], env.now, m))
  {
    var slot := SlotFor(st.sessions, Some(mac), token, retired);
    var s := OpenedSession(st, ip, Some(mac), token, hash, duration, env);
    var installed := Install(st, slot, s, env);
    InstallIff(st, slot, s, env, m);
    AdmittingCharges(installed, ip, Some(mac), env, m);
    ThenCharged(st.ended, installed.ended, Admitting(installed, ip, Some(mac), env).ended, m);
  }

  lemma RetireIff(st: State, i: nat, now: Micros, m: Mac)
    requires Sound(st) && i < MAX_CLIENTS && st.sessions[i].active
    ensures Sound(Retire(st, i, now)) && Grew(st.ended, Retire(st, i, now).ended)
    ensures Charged(st.ended, Retire(st, i, now).ended, m) <==> !Owes(st.sessions[i], now, m)
  {
    LoggedIff(st, i, now, m);
  }

  lemma ReuseIff(st: State, i: nat, ip: Ip, mac: Mac, token: Token, hash: DeviceHash, env: Env, m: Mac)
    requires Sound(st) && i < MAX_CLIENTS && st.sessions[i].active && mac != 0
    ensures var r := Reuse(st, i, ip, Some(mac), token, hash, env);
      Grew(st.ended, r.ended) &&
      (Charged(st.ended, r.ended, m) <==> st.sessions[i].mac == mac || !Owes(st.sessions[i], env.now, m))
  {
    var st1 := HandedOver(st, i, Some(mac), env.now);
    var st2 := st1.(sessions := st.sessions[i := Reused(st.sessions[i], ip, Some(mac), token, hash)]);
    if st.sessions[i].mac != mac {
      LoggedIff(st, i, env.now, m);
    }
    AdmittingCharges(st2, ip, Some(mac), env, m);
    ThenCharged(st.ended, st1.ended, Admitting(st2, ip, Some(mac), env).ended, m);
  }

  // A retired slot is where the new session goes.
  lemma RetiredIsFree(st: State, i: nat, mac: Mac, token: Token, now: Micros)
    requires st.Sized() && Owned(st.sessions) && i < MAX_CLIENTS && st.sessions[i].active && FreshToken(st.sessions, token)
    requires FindMac(st.sessions, mac) < 0 || FindMac(st.sessions, mac) == i
    ensures var ss := Retire(st, i, now).sessions; !ss[SlotFor(ss, Some(mac), token, i)].active
  {
    var ss := Retire(st, i, now).sessions;
    assert FindMac(ss, mac) < 0;
    assert FindToken(ss, token) < 0;
    assert !ss[i].active;
  }

  lemma StartLosesIff(st: State, ip: Ip, mac: Mac, token: Token, hash: DeviceHash, granted: int, env: Env, m: Mac)
    requires st.Sized() && Owned(st.sessions) && ip != 0 && mac != 0 && FreshToken(st.sessions, token) && granted <= DAILY_QUOTA_SEC
    ensures Grew(st.ended, StartOrResume(st, ip, Some(mac), token, hash, granted, env).0.ended)
    ensures Charged(st.ended, StartOrResume(st, ip, Some(mac), token, hash, granted, env).0.ended, m)
      <==> !Loses(st.sessions, ip, mac, env.now, m)
  {
    var found := FindExisting(st.sessions, ip, Some(mac), token);
    var d := Duration(granted);
    if found >= 0 && st.sessions[found].endTime > env.now {
      ReuseIff(st, found, ip, mac, token, hash, env, m);
    } else if found >= 0 {
      var retired := Retire(st, found, env.now);
      RetireIff(st, found, env.now, m);
      RetiredIsFree(st, found, mac, token, env.now);
      OpenIff(retired, found, ip, mac, token, hash, d, env, m);
      ThenCharged(st.ended, retired.ended, Open(retired, found, ip, Some(mac), token, hash, d, env).ended, m);
    } else {
      OpenIff(st, found, ip, mac, token, hash, d, env, m);
    }
  }

  // Where a resumed session goes, in terms of the table before the sweep.
  lemma {:induction false} ResumeDrops(was: seq<Session>, ss: seq<Session>, mac: Mac, token: Token, now: Micros, m: Mac)
    requires Owned(was) && Owned(ss) && mac != 0 && FreshToken(was, token)
    requires forall k :: 0 <= k < MAX_CLIENTS ==>
      ss[k].active == Surviving(was[k], now) && (Surviving(was[k], now) ==> ss[k] == was[k])
    ensures var slot := SlotFor(ss, Some(mac), token, -1);
      Loses(was, 0, mac, now, m) <==> Owes(ss[slot], now, m)
  {
    var slot := ResumeSlot(was, ss, mac, token, now);
    var mine := First(was, (s: Session) => Surviving(s, now) && s.mac == mac);
    var gone := First(was, (s: Session) => !Surviving(s, now));
    if mine >= 0 {
      assert ss[mine].active && FindMac(ss, mac) == mine;
    } else {
      assert FindMac(ss, mac) < 0;
      if gone >= 0 {
        assert !ss[gone].active;
      } else {
        assert Surviving(was[0], now) && ss[0] == was[0];
        assert FindFree(ss) < 0;
      }
    }
  }

  lemma ResumeLosesIff(st: State, mac: Mac, token: Token, hash: DeviceHash, granted: int, env: Env, m: Mac)
    requires st.Sized() && Owned(st.sessions) && mac != 0 && FreshToken(st.sessions, token) && granted <= DAILY_QUOTA_SEC
    ensures Grew(st.ended, StartOrResume(st, 0, Some(mac), token, hash, granted, env).0.ended)
    ensures Charged(st.ended, StartOrResume(st, 0, Some(mac), token, hash, granted, env).0.ended, m)
      <==> !Loses(st.sessions, 0, mac, env.now, m)
  {
    var d := Duration(granted);
    var opening := st.(globalEnd := env.now + d * SECOND);
    var swept := Refresh(opening, env);
    RefreshOwns(opening, env);
    RefreshSurvivors(opening, env);
    RefreshCharges(opening, env, m);
    ResumeDrops(st.sessions, swept.sessions, mac, token, env.now, m);
    var slot := ResumeSlot(st.sessions, swept.sessions, mac, token, env.now);
    ResumeUnfolds(st, mac, token, hash, granted, env);
    OpenIff(swept, -1, 0, mac, token, hash, d, env, m);
    ChargedThrough(st.ended, swept.ended, Open(swept, -1, 0, Some(mac), token, hash, d, env).ended, m);
  }

  // The guard of a whole event.
  predicate LosesTime(st: State, o: Occurrence, m: Mac)
    requires st.Sized()
  {
    match o.event
    case ConfirmPressed(ip, _, _, uplink, _, _) =>
      ConfirmMac(o.event).Some? && ConfirmStarts(st, ConfirmMac(o.event).value, uplink, o.env)
      && Loses(st.sessions, ip, ConfirmMac(o.event).value, o.env.now, m)
    case Connected(mac, uplink, _, _) => ConnectStarts(st, mac, uplink, o.env) && Loses(st.sessions, 0, mac, o.env.now, m)
    case _ => false
  }

  lemma ConfirmLosesIff(st: State, e: Event, env: Env, m: Mac)
    requires st.Sized() && Owned(st.sessions) && e.ConfirmPressed? && Identified(st, e)
    ensures Grew(st.ended, Step(st, Occurrence(e, env)).ended)
    ensures Charged(st.ended, Step(st, Occurrence(e, env)).ended, m) <==> !LosesTime(st, Occurrence(e, env), m)
  {
    var mac := ConfirmMac(e).value;
    var (st1, remaining) := QuotaRemaining(st, mac, env);
    var (st2, ok) := EnsureNapt(st1, env);
    ConfirmUnfolds(st, e, env);
    if ConfirmStarts(st, mac, e.uplink, env) {
      var granted := Grant(remaining, env.wall);
      QueryAfterStartOrResume(st2, e.ip, mac, e.token, e.hash, granted, e.lookup, env);
      if e.ip != 0 {
        StartLosesIff(st2, e.ip, mac, e.token, e.hash, granted, env, m);
      } else {
        ResumeLosesIff(st2, mac, e.token, e.hash, granted, env, m);
      }
    }
  }

  lemma ConnectLosesIff(st: State, e: Event, env: Env, m: Mac)
    requires st.Sized() && Owned(st.sessions) && e.Connected? && Identified(st, e)
    ensures Grew(st.ended, Step(st, Occurrence(e, env)).ended)
    ensures Charged(st.ended, Step(st, Occurrence(e, env)).ended, m) <==> !LosesTime(st, Occurrence(e, env), m)
  {
    var (st1, remaining) := QuotaRemaining(st, e.mac, env);
    var (st2, ok) := EnsureNapt(st1, env);
    if ConnectStarts(st, e.mac, e.uplink, env) {
      ResumeLosesIff(st2, e.mac, e.token, e.hash, remaining, env, m);
    }
  }

  // Whatever the event, every session of a client that it ends or hands over is charged for
  // all but its last started second, if and only if the event does not take from the client a
  // session with time to charge.
  lemma StepLosesIff(st: State, o: Occurrence, m: Mac)
    requires st.Sized() && Owned(st.sessions) && Identified(st, o.event)
    ensures Grew(st.ended, Step(st, o).ended)
    ensures Charged(st.ended, Step(st, o).ended, m) <==> !LosesTime(st, o, m)
  {
    match o.event
    case ConfirmPressed(_, _, _, _, _, _) => ConfirmLosesIff(st, o.event, o.env, m);
    case Queried(ip, lookup) => QueryCharges(st, ip, lookup, o.env, m);
    case Connected(_, _, _, _) => ConnectLosesIff(st, o.event, o.env, m);
    case Leased(mac, ip) => LeaseCharges(st, mac, ip, o.env, m);
    case Disconnected(mac, connectCount) => DisconnectCharges(st, mac, connectCount, o.env, m);
    case Heartbeat => HeartbeatCharges(st, 0, o.env, m);
  }
}
