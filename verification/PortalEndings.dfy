// Whose session an event ends, and whose goes on.

module PortalEndings {
  import opened Basics
  import opened ClientAcl
  import opened PortalModel
  import opened PortalIndex
  import opened PortalAdmission

  // What is active in r was so in st, and is unchanged.
  ghost predicate Thinner(st: State, r: State) {
    st.Sized() && r.Sized() && forall k :: 0 <= k < MAX_CLIENTS && r.sessions[k].active ==> r.sessions[k] == st.sessions[k]
  }

  // Sessions that still run in st are unchanged in r, except those of one client.
  ghost predicate Spares(st: State, r: State, now: Micros, except: Option<Mac>) {
    st.Sized() && r.Sized() &&
    forall k :: 0 <= k < MAX_CLIENTS && st.sessions[k].active && st.sessions[k].endTime > now && except != Some(st.sessions[k].mac) ==>
      r.sessions[k] == st.sessions[k]
  }

  // A refresh ends what has expired and nothing else.
  lemma RefreshEnds(st: State, env: Env)
    requires st.Sized()
    ensures Thinner(st, Refresh(st, env)) && Spares(st, Refresh(st, env), env.now, None)
  {
    RefreshSurvivors(st, env);
  }

  // Revoking ends the session in the slot and none that still runs elsewhere.
  lemma RevokeEnds(st: State, i: nat, env: Env)
    requires st.Sized() && i < MAX_CLIENTS && st.sessions[i].active
    ensures var r := Revoke(st, i, env);
      && Thinner(st, r) && !r.sessions[i].active && !r.sessions[i].admitted
      && forall k :: 0 <= k < MAX_CLIENTS && k != i && st.sessions[k].active && st.sessions[k].endTime > env.now ==>
           r.sessions[k] == st.sessions[k]
  {
    var closed := Close(st, i, false, env);
    RefreshEnds(closed, env);
    SweepEffect(closed, 0, env);
    assert SweptSlot(closed.sessions[i], SweepFrom(closed, 0, env).sessions[i], env);
    assert forall k :: 0 <= k < MAX_CLIENTS && k != i ==> closed.sessions[k] == st.sessions[k];
  }

  // --- A station leaves ---

  predicate HasSession(ss: seq<Session>, mac: Mac) {
    exists k :: 0 <= k < |ss| && ss[k].active && ss[k].mac == mac
  }

  // Exactly one session is active.
  ghost predicate Alone(ss: seq<Session>) { exists k :: OnlyFrom(ss, 0, k) }

  ghost predicate OnlyFrom(ss: seq<Session>, i: nat, k: int) {
    i <= k < |ss| && ss[k].active && forall j :: i <= j < |ss| && j != k ==> !ss[j].active
  }

  // One step of the scan at an active session.
  function Scanned(scan: Scan, mac: Mac, i: nat, env: Env): (r: Scan)
    requires scan.st.Sized() && i < MAX_CLIENTS && -1 <= scan.firstActive < MAX_CLIENTS
    ensures r.st.Sized() && -1 <= r.firstActive < MAX_CLIENTS
  {
    var hit := scan.st.sessions[i].mac == mac;
    Scan(if hit then Revoke(scan.st, i, env) else scan.st, scan.matched || hit, scan.count + 1,
         if scan.firstActive < 0 then i else scan.firstActive)
  }

  // The scan ends the sessions of the station from i on, and spares those of others.
  lemma {:induction false} ScanEnds(scan: Scan, mac: Mac, i: nat, env: Env)
    requires scan.st.Sized() && i <= MAX_CLIENTS && -1 <= scan.firstActive < MAX_CLIENTS
    ensures var r := DisconnectFrom(scan, mac, i, env).st;
      && Thinner(scan.st, r) && Spares(scan.st, r, env.now, Some(mac))
      && forall k :: i <= k < MAX_CLIENTS && r.sessions[k].active ==> r.sessions[k].mac != mac
    decreases MAX_CLIENTS - i
  {
    if i < MAX_CLIENTS {
      if !scan.st.sessions[i].active {
        ScanEnds(scan, mac, i + 1, env);
      } else {
        RevokeEnds(scan.st, i, env);
        ScanEnds(Scanned(scan, mac, i, env), mac, i + 1, env);
      }
    }
  }

  lemma {:induction false} ScanMatches(scan: Scan, mac: Mac, i: nat, env: Env)
    requires scan.st.Sized() && i <= MAX_CLIENTS && -1 <= scan.firstActive < MAX_CLIENTS
    ensures DisconnectFrom(scan, mac, i, env).matched <==>
      scan.matched || exists k :: i <= k < MAX_CLIENTS && scan.st.sessions[k].active && scan.st.sessions[k].mac == mac
    decreases MAX_CLIENTS - i
  {
    if i < MAX_CLIENTS {
      if !scan.st.sessions[i].active {
        ScanMatches(scan, mac, i + 1, env);
      } else {
        ScanMatches(Scanned(scan, mac, i, env), mac, i + 1, env);
      }
    }
  }

  function ActiveFrom(ss: seq<Session>, i: nat): nat
    requires i <= |ss|
    decreases |ss| - i
  {
    if i == |ss| then 0 else (if ss[i].active then 1 else 0) + ActiveFrom(ss, i + 1)
  }

  // Without a session of the station the scan only counts.
  lemma {:induction false} ScanCounts(scan: Scan, mac: Mac, i: nat, env: Env)
    requires scan.st.Sized() && i <= MAX_CLIENTS && -1 <= scan.firstActive < MAX_CLIENTS
    requires forall k :: i <= k < MAX_CLIENTS && scan.st.sessions[k].active ==> scan.st.sessions[k].mac != mac
    ensures var r := DisconnectFrom(scan, mac, i, env);
      && r.st == scan.st && r.count == scan.count + ActiveFrom(scan.st.sessions, i)
      && (scan.firstActive < 0 && r.firstActive >= 0 ==> i <= r.firstActive && scan.st.sessions[r.firstActive].active)
      && (scan.firstActive < 0 && r.firstActive < 0 ==> ActiveFrom(scan.st.sessions, i) == 0)
      && (scan.firstActive >= 0 ==> r.firstActive == scan.firstActive)
    decreases MAX_CLIENTS - i
  {
    if i < MAX_CLIENTS {
      if !scan.st.sessions[i].active {
        ScanCounts(scan, mac, i + 1, env);
      } else {
        ScanCounts(Scanned(scan, mac, i, env), mac, i + 1, env);
      }
    }
  }

  lemma {:induction false} NoneActive(ss: seq<Session>, i: nat)
    requires i <= |ss|
    ensures ActiveFrom(ss, i) == 0 <==> forall k :: i <= k < |ss| ==> !ss[k].active
    decreases |ss| - i
  {
    if i < |ss| {
      NoneActive(ss, i + 1);
    }
  }

  lemma {:induction false} CountedOnce(ss: seq<Session>, i: nat) returns (k: int)
    requires i <= |ss| && ActiveFrom(ss, i) == 1
    ensures OnlyFrom(ss, i, k)
    decreases |ss| - i
  {
    if ss[i].active {
      NoneActive(ss, i + 1);
      k := i;
    } else {
      k := CountedOnce(ss, i + 1);
    }
  }

  lemma {:induction false} OnceCounted(ss: seq<Session>, i: nat, k: int)
    requires i <= |ss| && OnlyFrom(ss, i, k)
    ensures ActiveFrom(ss, i) == 1
    decreases |ss| - i
  {
    if k == i {
      NoneActive(ss, i + 1);
    } else {
      OnceCounted(ss, i + 1, k);
    }
  }

  lemma {:induction false} AloneIffOne(ss: seq<Session>)
    ensures Alone(ss) <==> ActiveFrom(ss, 0) == 1
  {
    if ActiveFrom(ss, 0) == 1 {
      var k := CountedOnce(ss, 0);
    }
    if k :| OnlyFrom(ss, 0, k) {
      OnceCounted(ss, 0, k);
    }
  }

  // The station had a session: afterwards it has none, and all others that still ran are as
  // they were.
  lemma DisconnectEndsOwn(st: State, mac: Mac, connectCount: int, env: Env)
    requires st.Sized() && HasSession(st.sessions, mac)
    ensures var r := Disconnect(st, mac, connectCount, env);
      Thinner(st, r) && !HasSession(r.sessions, mac) && Spares(st, r, env.now, Some(mac))
  {
    ScanEnds(Scan(st, false, 0, -1), mac, 0, env);
    ScanMatches(Scan(st, false, 0, -1), mac, 0, env);
  }

  // It had none: with no station left the only active session ends, and otherwise nothing changes.
  lemma DisconnectFallsBack(st: State, mac: Mac, connectCount: int, env: Env)
    requires st.Sized() && !HasSession(st.sessions, mac)
    ensures var r := Disconnect(st, mac, connectCount, env);
      if connectCount == 0 && Alone(st.sessions)
      then forall k :: 0 <= k < MAX_CLIENTS ==> !r.sessions[k].active
      else r == st
  {
    ScanCounts(Scan(st, false, 0, -1), mac, 0, env);
    ScanMatches(Scan(st, false, 0, -1), mac, 0, env);
    AloneIffOne(st.sessions);
    var scan := DisconnectFrom(Scan(st, false, 0, -1), mac, 0, env);
    if connectCount == 0 && Alone(st.sessions) {
      RevokeEnds(st, scan.firstActive, env);
    }
  }

  // --- The heartbeat ---

  // A session the heartbeat lets go on.
  predicate Goes(s: Session, now: Micros) {
    s.active && s.endTime > now && (s.token != "" && s.deviceHash != "" ==> s.endTime >= now + SECOND)
  }

  // Only what is accounted may differ.
  predicate SameBut(s: Session, was: Session) { s == was.(accounted := s.accounted) }

  lemma BeatSpares(st: State, i: nat, env: Env)
    requires st.Sized() && i < MAX_CLIENTS
    ensures forall k :: 0 <= k < MAX_CLIENTS && Goes(st.sessions[k], env.now) ==>
      SameBut(HeartbeatSlot(st, i, env).sessions[k], st.sessions[k])
  {
    if st.sessions[i].active {
      RevokeEnds(Checkpoint(st, i, env), i, env);
    }
  }

  // A pass ends no session that still runs and has a whole second left or no credentials.
  lemma {:induction false} HeartbeatSpares(st: State, i: nat, env: Env)
    requires st.Sized() && i <= MAX_CLIENTS
    ensures forall k :: 0 <= k < MAX_CLIENTS && Goes(st.sessions[k], env.now) ==>
      SameBut(HeartbeatFrom(st, i, env).sessions[k], st.sessions[k])
    decreases MAX_CLIENTS - i
  {
    if i < MAX_CLIENTS {
      BeatSpares(st, i, env);
      HeartbeatSpares(HeartbeatSlot(st, i, env), i + 1, env);
    }
  }

  // And it brings the account of each session it looks after up to date.
  predicate Tended(s: Session) {
    s.active && s.token != "" && s.deviceHash != "" && s.mac != 0 && s.startTime > 0 && s.granted > 0
  }

  predicate UpToDate(s: Session, was: Session, now: Micros) {
    s.accounted == if Elapsed(was, now) > was.accounted then Elapsed(was, now) else was.accounted
  }

  lemma BeatAccounts(st: State, i: nat, env: Env)
    requires st.Sized() && i < MAX_CLIENTS && Tended(st.sessions[i]) && Goes(st.sessions[i], env.now)
    ensures UpToDate(HeartbeatSlot(st, i, env).sessions[i], st.sessions[i], env.now)
  {
  }

  lemma {:induction false} BeatLeaves(st: State, i: nat, k: nat, env: Env)
    requires st.Sized() && i <= MAX_CLIENTS && k < i && Goes(st.sessions[k], env.now)
    ensures HeartbeatFrom(st, i, env).sessions[k] == st.sessions[k]
    decreases MAX_CLIENTS - i
  {
    if i < MAX_CLIENTS {
      if st.sessions[i].active {
        RevokeEnds(Checkpoint(st, i, env), i, env);
      }
      BeatLeaves(HeartbeatSlot(st, i, env), i + 1, k, env);
    }
  }

  lemma {:induction false} HeartbeatAccounts(st: State, i: nat, k: nat, env: Env)
    requires st.Sized() && i <= k < MAX_CLIENTS && Tended(st.sessions[k]) && Goes(st.sessions[k], env.now)
    ensures UpToDate(HeartbeatFrom(st, i, env).sessions[k], st.sessions[k], env.now)
    decreases MAX_CLIENTS - i
  {
    var st1 := HeartbeatSlot(st, i, env);
    if i == k {
      BeatAccounts(st, i, env);
      BeatSpares(st, i, env);
      BeatLeaves(st1, i + 1, k, env);
    } else {
      if st.sessions[i].active {
        RevokeEnds(Checkpoint(st, i, env), i, env);
      }
      assert st1.sessions[k] == st.sessions[k];
      HeartbeatAccounts(st1, i + 1, k, env);
    }
  }

  // --- A lease ---

  // The live session of the client, when there is one, ends up admitted at the leased address
  // and is otherwise as it was; other sessions that still run are unchanged.
  lemma LeaseMoves(st: State, mac: Mac, ip: Ip, env: Env, j: nat)
    requires st.Sized() && Lasting(st.sessions) && mac != 0 && ip != 0
    requires j < MAX_CLIENTS && st.sessions[j].active && st.sessions[j].mac == mac && st.sessions[j].endTime > env.now
    ensures var r := IpAssigned(st, mac, ip, env);
      && r.sessions[j] == st.sessions[j].(ip := ip, admitted := true)
      && Spares(st, r, env.now, Some(mac))
  {
    var i := First(st.sessions, (s: Session) => s.active && s.mac == mac && s.endTime > env.now);
    assert i == j;
    RefreshEnds(Rebind(st, j, ip, mac), env);
  }

  // Without a live session nothing happens.
  lemma LeaseIgnored(st: State, mac: Mac, ip: Ip, env: Env)
    requires st.Sized()
    requires mac == 0 || ip == 0 || forall j :: 0 <= j < MAX_CLIENTS && st.sessions[j].active && st.sessions[j].mac == mac ==>
      st.sessions[j].endTime <= env.now
    ensures IpAssigned(st, mac, ip, env) == st
  {
  }

  // --- What an end shuts ---

  // Sessions have only ended, each address that lost one is shut, and none was opened. This asks
  // nothing of the tables: the clients may be unknown, and share addresses.
  ghost predicate Shuts(st: State, r: State) {
    && st.Sized() && r.Sized()
    && (forall a: Ip :: Admits(r.acl, a) ==> Admits(st.acl, a))
    && (forall k :: 0 <= k < MAX_CLIENTS && r.sessions[k].active ==> st.sessions[k].active && r.sessions[k].ip == st.sessions[k].ip)
    && (forall k :: 0 <= k < MAX_CLIENTS && st.sessions[k].active && !r.sessions[k].active ==> !Admits(r.acl, st.sessions[k].ip))
  }

  lemma ShutsOn(st: State, r: State, q: State)
    requires Shuts(st, r) && Shuts(r, q)
    ensures Shuts(st, q)
  {
  }

  lemma {:induction false} UnlistAdmits(t: Table, s: Session, a: Ip)
    ensures Admits(Unlist(t, s), a) ==> Admits(t, a) && a != s.ip
  {
    if Admits(Unlist(t, s), a) {
      var n :| 0 <= n < |t| && HoldsIp(Unlist(t, s)[n], a);
      UnlistShuts(t, s, n);
      assert HoldsIp(t[n], a);
    }
  }

  lemma CloseShuts(st: State, i: nat, admitted: bool, env: Env)
    requires st.Sized() && i < MAX_CLIENTS && st.sessions[i].active
    ensures Shuts(st, Close(st, i, admitted, env))
  {
    var s := Checkpoint(st, i, env).sessions[i];
    forall a: Ip | Admits(Unlist(st.acl, s), a) ensures Admits(st.acl, a) && a != s.ip {
      UnlistAdmits(st.acl, s, a);
    }
  }

  lemma {:induction false} SweepShuts(st: State, i: nat, env: Env)
    requires st.Sized() && i <= MAX_CLIENTS
    ensures Shuts(st, SweepFrom(st, i, env))
    decreases MAX_CLIENTS - i
  {
    if i < MAX_CLIENTS {
      if Expired(st.sessions[i], env.now) {
        CloseShuts(st, i, st.sessions[i].admitted, env);
      }
      SweepShuts(SweepSlot(st, i, env), i + 1, env);
      ShutsOn(st, SweepSlot(st, i, env), SweepFrom(st, i, env));
    }
  }

  lemma RefreshShuts(st: State, env: Env)
    requires st.Sized()
    ensures Shuts(st, Refresh(st, env))
  {
    SweepShuts(st, 0, env);
  }

  lemma RevokeShuts(st: State, i: nat, env: Env)
    requires st.Sized() && i < MAX_CLIENTS
    ensures Shuts(st, Revoke(st, i, env))
  {
    if st.sessions[i].active {
      var closed := Close(st, i, false, env);
      CloseShuts(st, i, false, env);
      RefreshShuts(closed, env);
      ShutsOn(st, closed, Refresh(closed, env));
    }
  }

  lemma {:induction false} ScanShuts(scan: Scan, mac: Mac, i: nat, env: Env)
    requires scan.st.Sized() && i <= MAX_CLIENTS && -1 <= scan.firstActive < MAX_CLIENTS
    ensures Shuts(scan.st, DisconnectFrom(scan, mac, i, env).st)
    decreases MAX_CLIENTS - i
  {
    if i < MAX_CLIENTS {
      if !scan.st.sessions[i].active {
        ScanShuts(scan, mac, i + 1, env);
      } else {
        var next := Scanned(scan, mac, i, env);
        RevokeShuts(scan.st, i, env);
        ScanShuts(next, mac, i + 1, env);
        ShutsOn(scan.st, next.st, DisconnectFrom(next, mac, i + 1, env).st);
      }
    }
  }

  // Whenever a station leaves, the address of every session that ends is shut, and none opened.
  lemma DisconnectShuts(st: State, mac: Mac, connectCount: int, env: Env)
    requires st.Sized()
    ensures Shuts(st, Disconnect(st, mac, connectCount, env))
  {
    ScanShuts(Scan(st, false, 0, -1), mac, 0, env);
    var scan := DisconnectFrom(Scan(st, false, 0, -1), mac, 0, env);
    if scan.firstActive >= 0 {
      RevokeShuts(scan.st, scan.firstActive, env);
      ShutsOn(st, scan.st, Revoke(scan.st, scan.firstActive, env));
    }
  }

  lemma BeatShuts(st: State, i: nat, env: Env)
    requires st.Sized() && i < MAX_CLIENTS
    ensures Shuts(st, HeartbeatSlot(st, i, env))
  {
    var st1 := Checkpoint(st, i, env);
    assert Shuts(st, st1);
    RevokeShuts(st1, i, env);
    ShutsOn(st, st1, Revoke(st1, i, env));
  }

  // And so in every heartbeat.
  lemma {:induction false} HeartbeatShuts(st: State, i: nat, env: Env)
    requires st.Sized() && i <= MAX_CLIENTS
    ensures Shuts(st, HeartbeatFrom(st, i, env))
    decreases MAX_CLIENTS - i
  {
    if i < MAX_CLIENTS {
      BeatShuts(st, i, env);
      HeartbeatShuts(HeartbeatSlot(st, i, env), i + 1, env);
      ShutsOn(st, HeartbeatSlot(st, i, env), HeartbeatFrom(st, i, env));
    }
  }

  // A client that moves to another address leaves the old one shut.
  lemma LeaseShutsOld(st: State, mac: Mac, ip: Ip, env: Env, j: nat)
    requires st.Sized() && mac != 0 && ip != 0
    requires j == First(st.sessions, (s: Session) => s.active && s.mac == mac && s.endTime > env.now)
    requires st.sessions[j].ip != 0 && st.sessions[j].ip != ip
    ensures !Admits(IpAssigned(st, mac, ip, env).acl, st.sessions[j].ip)
  {
    var left := st.sessions[j].ip;
    RevokedIsShut(st.acl, left, ip);
    AdmitOpens(AfterRevokeIp(st.acl, left), ip, Some(mac), left);
    RefreshShuts(Rebind(st, j, ip, mac), env);
  }
}
