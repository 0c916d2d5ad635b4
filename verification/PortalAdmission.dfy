// Exactly when starting, resuming or rebinding a session keeps the client table in step with
// the session table.

module PortalAdmission {
  import opened Basics
  import opened ClientAcl
  import opened QuotaBooks
  import opened PortalModel
  import opened PortalIndex

  // Listing an active session completes the index, even when its address is still listed for
  // a client that is gone.
  lemma {:induction false} AdmitIndexes(acl: Table, ss: seq<Session>, j: nat)
    requires SessionsOk(ss) && WellFormed(acl) && j < |ss| && ss[j].active && ss[j].ip != 0
    requires forall m: Mac :: m != ss[j].mac ==>
      BindingOf(acl, m) == AddressOf(ss, m) ||
      (BindingOf(acl, m) == ss[j].ip && AddressOf(ss, m) == 0 && BindingOf(acl, ss[j].mac) == 0)
    ensures WellFormed(AfterAdmit(acl, ss[j].ip, Some(ss[j].mac)))
    ensures IndexedExcept(AfterAdmit(acl, ss[j].ip, Some(ss[j].mac)), ss, 0)
  {
    var ip, mac := ss[j].ip, ss[j].mac;
    AddressAt(ss, j);
    forall m: Mac | m != mac ensures AddressOf(ss, m) != ip {
      var k := FindMac(ss, m);
    }
    if BindingOf(acl, mac) == 0 && !Admits(acl, ip) {
      forall m: Mac ensures BindingOf(acl, m) != ip {
        AdmittedIffBound(acl, ip);
      }
      RoomToAdmit(acl, ss, j);
    }
    AdmitBinds(acl, ip, mac);
  }

  // A vacated slot leaves at most its former owner out of step.
  lemma Vacate(st: State, j: nat)
    requires Coherent(st, 0) && j < MAX_CLIENTS && st.sessions[j].active
    ensures var s := st.sessions[j];
      var r := st.(sessions := st.sessions[j := s.(active := false)]);
      && Coherent(r, s.mac)
      && (s.ip == 0 ==> Coherent(r, 0))
      && AddressOf(r.sessions, s.mac) == 0
      && BindingOf(st.acl, s.mac) == s.ip
  {
    var s := st.sessions[j];
    var ss := st.sessions[j := s.(active := false)];
    AddressAt(st.sessions, j);
    AddressAfter(st.sessions, j, s.(active := false));
    forall m: Mac | m != s.mac ensures BindingOf(st.acl, m) == AddressOf(ss, m) {
      assert AddressOf(ss, m) == Readdressed(st.sessions, j, s.(active := false), m);
    }
  }

  predicate Surviving(s: Session, now: Micros) { s.active && !Expired(s, now) }

  // No session of another client will survive the next sweep with this address.
  predicate AddressClear(ss: seq<Session>, ip: Ip, mac: Mac, now: Micros) {
    forall k :: 0 <= k < |ss| && ss[k].active && ss[k].ip == ip && ss[k].mac != mac ==> Expired(ss[k], now)
  }

  // Filling an inactive slot with a live session, sweeping and listing it.
  lemma AdmittingKeeps(st: State, j: nat, s: Session, env: Env, x: Mac)
    requires Coherent(st, x) && j < MAX_CLIENTS && !st.sessions[j].active
    requires s.active && SessionOk(s) && s.ip != 0 && s.endTime > env.now
    requires forall k :: 0 <= k < MAX_CLIENTS && st.sessions[k].active ==> st.sessions[k].mac != s.mac && st.sessions[k].mac != x
    requires AddressClear(st.sessions, s.ip, s.mac, env.now)
    requires x != s.mac ==> BindingOf(st.acl, x) in {0, s.ip}
    ensures Coherent(Admitting(st.(sessions := st.sessions[j := s]), s.ip, Some(s.mac), env), 0)
  {
    var sw := SweepFrom(st, 0, env);
    SweepKeeps(st, 0, env, x);
    SweepEffect(st, 0, env);
    SweepCommutes(st, j, s, 0, env);
    forall k | 0 <= k < MAX_CLIENTS && sw.sessions[k].active
      ensures sw.sessions[k].mac != s.mac && sw.sessions[k].mac != x && sw.sessions[k].ip != s.ip
    {
      assert SweptSlot(st.sessions[k], sw.sessions[k], env);
    }
    FillSlot(sw, j, s, x);
  }

  // Filling an inactive slot and listing the new owner, when nobody else has its address.
  lemma FillSlot(st: State, j: nat, s: Session, x: Mac)
    requires Coherent(st, x) && j < MAX_CLIENTS && !st.sessions[j].active
    requires s.active && SessionOk(s) && s.ip != 0
    requires forall k :: 0 <= k < MAX_CLIENTS && st.sessions[k].active ==>
      st.sessions[k].mac != s.mac && st.sessions[k].mac != x && st.sessions[k].ip != s.ip
    requires x != s.mac ==> BindingOf(st.acl, x) in {0, s.ip}
    ensures SessionsOk(st.sessions[j := s])
    ensures WellFormed(AfterAdmit(st.acl, s.ip, Some(s.mac)))
    ensures IndexedExcept(AfterAdmit(st.acl, s.ip, Some(s.mac)), st.sessions[j := s], 0)
  {
    var ss := st.sessions[j := s];
    AddressAfter(st.sessions, j, s);
    NoAddress(st.sessions, x);
    NoAddress(st.sessions, s.mac);
    forall m: Mac | m != s.mac
      ensures BindingOf(st.acl, m) == AddressOf(ss, m) ||
              (BindingOf(st.acl, m) == s.ip && AddressOf(ss, m) == 0 && BindingOf(st.acl, s.mac) == 0)
    {
      assert AddressOf(ss, m) == Readdressed(st.sessions, j, s, m);
    }
    AdmitIndexes(st.acl, ss, j);
  }

  lemma {:induction false} NoAddress(ss: seq<Session>, m: Mac)
    requires forall k :: 0 <= k < |ss| && ss[k].active ==> ss[k].mac != m
    ensures AddressOf(ss, m) == 0
  {
  }

  // The two situations in which /confirm leaves the index wrong: a known client moves to an
  // address that another live session holds, or a newcomer finds every slot taken and
  // displaces a session that has an address.
  predicate Collides(ss: seq<Session>, ip: Ip, mac: Mac, now: Micros)
    requires |ss| == MAX_CLIENTS
  {
    if FindMac(ss, mac) >= 0 then !AddressClear(ss, ip, mac, now)
    else FindIp(ss, ip) < 0 && FindFree(ss) < 0 && ss[0].ip != 0
  }

  ghost predicate FreshToken(ss: seq<Session>, token: Token) {
    token != "" && FindToken(ss, token) < 0
  }

  lemma StartKeepsIndex(st: State, ip: Ip, mac: Mac, token: Token, hash: DeviceHash, granted: int, env: Env)
    requires Coherent(st, 0) && ip != 0 && mac != 0 && FreshToken(st.sessions, token) && granted <= DAILY_QUOTA_SEC
    requires !Collides(st.sessions, ip, mac, env.now)
    ensures Coherent(StartOrResume(st, ip, Some(mac), token, hash, granted, env).0, 0)
  {
    var found := FindExisting(st.sessions, ip, Some(mac), token);
    if found >= 0 && st.sessions[found].endTime > env.now {
      ReuseKeeps(st, found, ip, mac, token, hash, env);
    } else if found >= 0 {
      ReplaceKeeps(st, found, ip, mac, token, hash, Duration(granted), env);
    } else if FindFree(st.sessions) >= 0 {
      OpenKeeps(st, -1, ip, mac, token, hash, Duration(granted), env, 0);
    } else {
      DisplaceKeeps(st, ip, mac, token, hash, Duration(granted), env);
    }
  }

  lemma ReuseKeeps(st: State, j: nat, ip: Ip, mac: Mac, token: Token, hash: DeviceHash, env: Env)
    requires Coherent(st, 0) && ip != 0 && mac != 0 && !Collides(st.sessions, ip, mac, env.now)
    requires j < MAX_CLIENTS && j == FindExisting(st.sessions, ip, Some(mac), token) && st.sessions[j].endTime > env.now
    ensures Coherent(Reuse(st, j, ip, Some(mac), token, hash, env), 0)
  {
    var st1 := HandedOver(st, j, Some(mac), env.now);
    var s := Reused(st.sessions[j], ip, Some(mac), token, hash);
    var gone := st.sessions[j].(active := false);
    var base := st1.(sessions := st.sessions[j := gone]);
    Vacate(st1, j);
    assert base.sessions[j := s] == st.sessions[j := s];
    AdmittingKeeps(base, j, s, env, st.sessions[j].mac);
  }

  lemma ReplaceKeeps(st: State, j: nat, ip: Ip, mac: Mac, token: Token, hash: DeviceHash, duration: nat, env: Env)
    requires Coherent(st, 0) && ip != 0 && mac != 0 && FindToken(st.sessions, token) < 0 && 0 < duration <= DAILY_QUOTA_SEC
    requires !Collides(st.sessions, ip, mac, env.now)
    requires j < MAX_CLIENTS && j == FindExisting(st.sessions, ip, Some(mac), token) && st.sessions[j].endTime <= env.now
    ensures Coherent(Open(Retire(st, j, env.now), j, ip, Some(mac), token, hash, duration, env), 0)
  {
    var st1 := Retire(st, j, env.now);
    Vacate(st, j);
    assert !st1.sessions[j].active;
    OpenKeeps(st1, j, ip, mac, token, hash, duration, env, st.sessions[j].mac);
  }

  lemma OpenKeeps(st: State, retired: int, ip: Ip, mac: Mac, token: Token, hash: DeviceHash, duration: nat, env: Env, x: Mac)
    requires Coherent(st, x) && ip != 0 && mac != 0 && 0 < duration <= DAILY_QUOTA_SEC
    requires FindMac(st.sessions, mac) < 0 && FindToken(st.sessions, token) < 0 && FindFree(st.sessions) >= 0
    requires -1 <= retired < MAX_CLIENTS
    requires forall k :: 0 <= k < MAX_CLIENTS && st.sessions[k].active ==> st.sessions[k].mac != x
    requires AddressClear(st.sessions, ip, mac, env.now)
    requires x != mac ==> BindingOf(st.acl, x) in {0, ip}
    ensures Coherent(Open(st, retired, ip, Some(mac), token, hash, duration, env), 0)
  {
    var slot := SlotFor(st.sessions, Some(mac), token, retired);
    var s := OpenedSession(st, ip, Some(mac), token, hash, duration, env);
    var base := Install(st, slot, s, env).(sessions := st.sessions);
    AdmittingKeeps(base, slot, s, env, x);
    assert base.(sessions := base.sessions[slot := s]) == Install(st, slot, s, env);
  }

  // With every slot taken, slot 0 is overwritten; that is harmless when it had no address.
  lemma DisplaceKeeps(st: State, ip: Ip, mac: Mac, token: Token, hash: DeviceHash, duration: nat, env: Env)
    requires Coherent(st, 0) && ip != 0 && mac != 0 && 0 < duration <= DAILY_QUOTA_SEC
    requires FindMac(st.sessions, mac) < 0 && FindIp(st.sessions, ip) < 0 && FindToken(st.sessions, token) < 0
    requires FindFree(st.sessions) < 0 && st.sessions[0].ip == 0
    ensures Coherent(Open(st, -1, ip, Some(mac), token, hash, duration, env), 0)
  {
    var s := OpenedSession(st, ip, Some(mac), token, hash, duration, env);
    var gone := st.sessions[0].(active := false);
    Vacate(st, 0);
    var base := Install(st, 0, s, env).(sessions := st.sessions[0 := gone]);
    AdmittingKeeps(base, 0, s, env, 0);
    assert base.sessions[0 := s] == st.sessions[0 := s];
  }

  // --- The converse: a collision always breaks the index ---

  lemma AdmittingLeaves(st: State, k: nat, ip: Ip, mac: Option<Mac>, env: Env)
    requires st.Sized() && k < MAX_CLIENTS && !Expired(st.sessions[k], env.now)
    ensures Admitting(st, ip, mac, env).sessions[k] == st.sessions[k]
  {
    SweepEffect(st, 0, env);
    assert SweptSlot(st.sessions[k], SweepFrom(st, 0, env).sessions[k], env);
  }

  lemma SharedAddress(st: State, j: nat, k: nat, mac: Option<Mac>, env: Env)
    requires st.Sized() && j < MAX_CLIENTS && k < MAX_CLIENTS && j != k
    requires Surviving(st.sessions[j], env.now) && Surviving(st.sessions[k], env.now)
    requires st.sessions[j].ip == st.sessions[k].ip != 0
    ensures !SessionsOk(Admitting(st, st.sessions[j].ip, mac, env).sessions)
  {
    AdmittingLeaves(st, k, st.sessions[j].ip, mac, env);
    AdmittingLeaves(st, j, st.sessions[j].ip, mac, env);
  }

  lemma SharedAddressBreaks(st: State, ip: Ip, mac: Mac, token: Token, hash: DeviceHash, granted: int, env: Env)
    requires Coherent(st, 0) && ip != 0 && mac != 0 && FreshToken(st.sessions, token)
    requires FindMac(st.sessions, mac) >= 0 && !AddressClear(st.sessions, ip, mac, env.now)
    ensures !SessionsOk(StartOrResume(st, ip, Some(mac), token, hash, granted, env).0.sessions)
  {
    var k :| 0 <= k < MAX_CLIENTS && st.sessions[k].active && st.sessions[k].ip == ip && st.sessions[k].mac != mac && !Expired(st.sessions[k], env.now);
    var j := FindMac(st.sessions, mac);
    if st.sessions[j].endTime > env.now {
      var st1 := st.(sessions := st.sessions[j := Reused(st.sessions[j], ip, Some(mac), token, hash)]);
      SharedAddress(st1, j, k, Some(mac), env);
    } else {
      ReplacedShares(st, j, k, ip, mac, token, hash, Duration(granted), env);
    }
  }

  lemma ReplacedShares(st: State, j: nat, k: nat, ip: Ip, mac: Mac, token: Token, hash: DeviceHash, duration: nat, env: Env)
    requires Coherent(st, 0) && ip != 0 && mac != 0 && FindToken(st.sessions, token) < 0 && duration > 0
    requires j == FindMac(st.sessions, mac) && j < MAX_CLIENTS && k < MAX_CLIENTS
    requires Surviving(st.sessions[k], env.now) && st.sessions[k].ip == ip && st.sessions[k].mac != mac
    ensures !SessionsOk(Open(Retire(st, j, env.now), j, ip, Some(mac), token, hash, duration, env).sessions)
  {
    var st1 := Retire(st, j, env.now);
    assert !st1.sessions[j].active && st1.sessions[k] == st.sessions[k];
    var slot := SlotFor(st1.sessions, Some(mac), token, j);
    assert !st1.sessions[slot].active;
    var st2 := Install(st1, slot, OpenedSession(st1, ip, Some(mac), token, hash, duration, env), env);
    SharedAddress(st2, slot, k, Some(mac), env);
  }

  // A listed client survives a sweep unless an expired session shares one of its addresses.
  lemma {:induction false} SweepLeavesListed(st: State, i: nat, n: nat, env: Env)
    requires st.Sized() && i <= MAX_CLIENTS && n < ACL_SLOTS && st.acl[n].used
    requires forall k :: 0 <= k < MAX_CLIENTS && Expired(st.sessions[k], env.now) ==>
      st.sessions[k].ip != st.acl[n].ip && st.sessions[k].mac != st.acl[n].mac
    ensures SweepFrom(st, i, env).acl[n] == st.acl[n]
    decreases MAX_CLIENTS - i
  {
    if i < MAX_CLIENTS {
      SweepLeavesListed(SweepSlot(st, i, env), i + 1, n, env);
    }
  }

  // An entry whose owner is gone and which nothing removed contradicts the index.
  lemma StaleEntryBreaks(st: State, n: nat)
    requires st.Sized() && n < ACL_SLOTS && st.acl[n].used
    requires forall k :: 0 <= k < MAX_CLIENTS && st.sessions[k].active && st.sessions[k].mac == st.acl[n].mac ==> st.sessions[k].ip == 0
    ensures !Coherent(st, 0)
  {
    if Coherent(st, 0) {
      BindingAt(st.acl, n);
    }
  }

  lemma ListedAt(st: State, j: nat) returns (n: nat)
    requires Coherent(st, 0) && j < MAX_CLIENTS && st.sessions[j].active && st.sessions[j].ip != 0
    ensures n < ACL_SLOTS && st.acl[n].used && st.acl[n].mac == st.sessions[j].mac && st.acl[n].ip == st.sessions[j].ip
  {
    AddressAt(st.sessions, j);
    n := First(st.acl, (e: Entry) => HoldsMac(e, st.sessions[j].mac));
  }

  // Overwriting a listed session strands its entry.
  lemma OverwriteBreaks(st: State, j: nat, s: Session, env: Env)
    requires Coherent(st, 0) && j < MAX_CLIENTS && st.sessions[j].active && st.sessions[j].ip != 0
    requires s.active && !Expired(s, env.now) && s.mac != 0 && s.ip != st.sessions[j].ip
    requires s.mac == st.sessions[j].mac ==> s.ip == 0
    ensures !Coherent(Admitting(st.(sessions := st.sessions[j := s]), s.ip, Some(s.mac), env), 0)
  {
    var t := st.(sessions := st.sessions[j := s]);
    var n := ListedAt(st, j);
    SweepLeavesListed(t, 0, n, env);
    var sw := SweepFrom(t, 0, env);
    AdmitLeaves(sw.acl, s.ip, s.mac, n);
    OwnerGone(st, j, s, env);
    StaleEntryBreaks(Admitting(t, s.ip, Some(s.mac), env), n);
  }

  // After the overwrite no active session has both the old owner and an address.
  lemma OwnerGone(st: State, j: nat, s: Session, env: Env)
    requires Coherent(st, 0) && j < MAX_CLIENTS && st.sessions[j].active
    requires s.mac == st.sessions[j].mac ==> s.ip == 0
    ensures var r := SweepFrom(st.(sessions := st.sessions[j := s]), 0, env).sessions;
      forall k :: 0 <= k < MAX_CLIENTS && r[k].active && r[k].mac == st.sessions[j].mac ==> r[k].ip == 0
  {
    var t := st.(sessions := st.sessions[j := s]);
    SweepEffect(t, 0, env);
    var r := SweepFrom(t, 0, env).sessions;
    forall k | 0 <= k < MAX_CLIENTS && r[k].active && r[k].mac == st.sessions[j].mac ensures r[k].ip == 0 {
      assert SweptSlot(t.sessions[k], r[k], env);
    }
  }

  lemma DisplacedEntryBreaks(st: State, ip: Ip, mac: Mac, token: Token, hash: DeviceHash, duration: nat, env: Env)
    requires Coherent(st, 0) && ip != 0 && mac != 0 && FreshToken(st.sessions, token) && duration > 0
    requires FindMac(st.sessions, mac) < 0 && FindIp(st.sessions, ip) < 0 && FindFree(st.sessions) < 0 && st.sessions[0].ip != 0
    ensures !Coherent(Open(st, -1, ip, Some(mac), token, hash, duration, env), 0)
  {
    var s := OpenedSession(st, ip, Some(mac), token, hash, duration, env);
    var base := Install(st, 0, s, env).(sessions := st.sessions);
    OverwriteBreaks(base, 0, s, env);
    assert base.(sessions := base.sessions[0 := s]) == Install(st, 0, s, env);
  }

  // /confirm from a client with a known address keeps the index if and only if it does not collide.
  lemma StartKeepsIndexIff(st: State, ip: Ip, mac: Mac, token: Token, hash: DeviceHash, granted: int, env: Env)
    requires Coherent(st, 0) && ip != 0 && mac != 0 && FreshToken(st.sessions, token) && granted <= DAILY_QUOTA_SEC
    ensures Coherent(StartOrResume(st, ip, Some(mac), token, hash, granted, env).0, 0) <==> !Collides(st.sessions, ip, mac, env.now)
  {
    if !Collides(st.sessions, ip, mac, env.now) {
      StartKeepsIndex(st, ip, mac, token, hash, granted, env);
    } else if FindMac(st.sessions, mac) >= 0 {
      SharedAddressBreaks(st, ip, mac, token, hash, granted, env);
    } else {
      DisplacedEntryBreaks(st, ip, mac, token, hash, Duration(granted), env);
    }
  }

  // --- Resuming before an address is known ---

  // Without an address the new session replaces the client's own live session if it has one,
  // and otherwise slot 0 when all twenty are live. Either way the index is left wrong exactly
  // when the session replaced had an address.
  predicate StrandsEntry(ss: seq<Session>, mac: Mac, now: Micros)
    requires |ss| == MAX_CLIENTS
  {
    var mine := First(ss, (s: Session) => Surviving(s, now) && s.mac == mac);
    if mine >= 0 then ss[mine].ip != 0
    else ss[0].ip != 0 && forall k :: 0 <= k < |ss| ==> Surviving(ss[k], now)
  }

  lemma InstallUnlisted(st: State, j: nat, s: Session, env: Env)
    requires Coherent(st, 0) && j < MAX_CLIENTS && (st.sessions[j].active ==> st.sessions[j].ip == 0)
    requires s.active && SessionOk(s) && s.ip == 0
    requires forall k :: 0 <= k < MAX_CLIENTS && k != j && st.sessions[k].active ==> st.sessions[k].mac != s.mac
    ensures Coherent(Admitting(st.(sessions := st.sessions[j := s]), 0, Some(s.mac), env), 0)
  {
    var t := st.(sessions := st.sessions[j := s]);
    AddressAfter(st.sessions, j, s);
    if st.sessions[j].active {
      AddressAt(st.sessions, j);
    }
    forall m: Mac ensures BindingOf(t.acl, m) == AddressOf(t.sessions, m) {
      assert AddressOf(t.sessions, m) == Readdressed(st.sessions, j, s, m);
      if m == s.mac && !(st.sessions[j].active && st.sessions[j].mac == m) {
        NoAddress(st.sessions, m);
      }
    }
    RefreshKeeps(t, env, 0);
  }

  // The refresh that precedes the search leaves only surviving sessions, each in its place.
  lemma RefreshSurvivors(st: State, env: Env)
    requires st.Sized()
    ensures forall k :: 0 <= k < MAX_CLIENTS ==>
      Refresh(st, env).sessions[k].active == Surviving(st.sessions[k], env.now) &&
      (Surviving(st.sessions[k], env.now) ==> Refresh(st, env).sessions[k] == st.sessions[k])
  {
    SweepEffect(st, 0, env);
    forall k | 0 <= k < MAX_CLIENTS
      ensures Refresh(st, env).sessions[k].active == Surviving(st.sessions[k], env.now)
      ensures Surviving(st.sessions[k], env.now) ==> Refresh(st, env).sessions[k] == st.sessions[k]
    {
      assert SweptSlot(st.sessions[k], SweepFrom(st, 0, env).sessions[k], env);
    }
  }

  // Where the resumed session goes, judged on a table with only survivors.
  lemma {:induction false} ResumeSlot(was: seq<Session>, ss: seq<Session>, mac: Mac, token: Token, now: Micros) returns (slot: nat)
    requires Lasting(was) && Lasting(ss) && mac != 0 && FreshToken(was, token)
    requires forall k :: 0 <= k < MAX_CLIENTS ==>
      ss[k].active == Surviving(was[k], now) && (Surviving(was[k], now) ==> ss[k] == was[k])
    ensures FindToken(ss, token) < 0
    ensures slot < MAX_CLIENTS && slot == SlotFor(ss, Some(mac), token, -1)
    ensures forall k :: 0 <= k < MAX_CLIENTS && k != slot && ss[k].active ==> ss[k].mac != mac
    ensures StrandsEntry(was, mac, now) <==> ss[slot].active && ss[slot].ip != 0
  {
    slot := SlotFor(ss, Some(mac), token, -1);
    var mine := First(was, (s: Session) => Surviving(s, now) && s.mac == mac);
    if mine >= 0 {
      assert ss[mine].active && ss[mine].mac == mac;
      assert FindMac(ss, mac) == mine;
    } else {
      assert FindMac(ss, mac) < 0;
      if FindFree(ss) < 0 {
        assert Surviving(was[0], now);
      }
    }
  }

  lemma ResumeUnfolds(st: State, mac: Mac, token: Token, hash: DeviceHash, granted: int, env: Env)
    requires st.Sized() && token != ""
    requires FindToken(Refresh(st.(globalEnd := env.now + Duration(granted) * SECOND), env).sessions, token) < 0
    ensures StartOrResume(st, 0, Some(mac), token, hash, granted, env).0 ==
      Open(Refresh(st.(globalEnd := env.now + Duration(granted) * SECOND), env), -1, 0, Some(mac), token, hash, Duration(granted), env)
  {
  }

  lemma ResumeKeepsIndexIff(st: State, mac: Mac, token: Token, hash: DeviceHash, granted: int, env: Env)
    requires Coherent(st, 0) && mac != 0 && FreshToken(st.sessions, token) && granted <= DAILY_QUOTA_SEC
    ensures Coherent(StartOrResume(st, 0, Some(mac), token, hash, granted, env).0, 0) <==> !StrandsEntry(st.sessions, mac, env.now)
  {
    var opening := st.(globalEnd := env.now + Duration(granted) * SECOND);
    RefreshKeeps(opening, env, 0);
    RefreshSurvivors(opening, env);
    var slot := ResumeSlot(st.sessions, Refresh(opening, env).sessions, mac, token, env.now);
    ResumeUnfolds(st, mac, token, hash, granted, env);
    ResumeOpensIff(Refresh(opening, env), slot, mac, token, hash, Duration(granted), env);
  }

  lemma ResumeOpensIff(st: State, slot: nat, mac: Mac, token: Token, hash: DeviceHash, duration: nat, env: Env)
    requires Coherent(st, 0) && mac != 0 && 0 < duration <= DAILY_QUOTA_SEC
    requires slot < MAX_CLIENTS && slot == SlotFor(st.sessions, Some(mac), token, -1)
    requires forall k :: 0 <= k < MAX_CLIENTS && k != slot && st.sessions[k].active ==> st.sessions[k].mac != mac
    ensures Coherent(Open(st, -1, 0, Some(mac), token, hash, duration, env), 0) <==>
      !(st.sessions[slot].active && st.sessions[slot].ip != 0)
  {
    var s := OpenedSession(st, 0, Some(mac), token, hash, duration, env);
    var base := Install(st, slot, s, env).(sessions := st.sessions);
    assert base.(sessions := base.sessions[slot := s]) == Install(st, slot, s, env);
    if st.sessions[slot].active && st.sessions[slot].ip != 0 {
      OverwriteBreaks(base, slot, s, env);
    } else {
      InstallUnlisted(base, slot, s, env);
    }
  }

  // --- Rebinding a known client ---

  // Rebinding by hardware address, when no other active session has the address.
  lemma BindKeeps(st: State, j: nat, ip: Ip, env: Env)
    requires Coherent(st, 0) && j < MAX_CLIENTS && st.sessions[j].active && ip != 0
    requires forall k :: 0 <= k < MAX_CLIENTS && k != j && st.sessions[k].active ==> st.sessions[k].ip != ip
    ensures Coherent(Bind(st, j, ip, st.sessions[j].mac), 0)
  {
    var s := st.sessions[j].(ip := ip);
    var base := st.(sessions := st.sessions[j := st.sessions[j].(active := false)]);
    Vacate(st, j);
    FillSlot(base, j, s, s.mac);
    assert base.sessions[j := s] == st.sessions[j := s];
  }

  lemma GetRemainingKeeps(st: State, ip: Ip, lookup: Option<Mac>, env: Env)
    requires Coherent(st, 0)
    ensures Coherent(GetRemaining(st, ip, lookup, env).0, 0)
  {
    var i := First(st.sessions, (s: Session) => s.active && s.admitted && s.ip == ip);
    if ip != 0 && i >= 0 {
      RevokeKeeps(st, i, env);
    } else if ip != 0 && lookup.Some? {
      var j := FindMac(st.sessions, lookup.value);
      if j >= 0 {
        RevokeKeeps(st, j, env);
        BindKeeps(st, j, ip, env);
      }
    }
  }

  // The address is in use by a session of another client, live or not.
  predicate AddressInUse(ss: seq<Session>, ip: Ip, mac: Mac) {
    exists k :: 0 <= k < |ss| && ss[k].active && ss[k].ip == ip && ss[k].mac != mac
  }

  function LiveSessionOf(ss: seq<Session>, mac: Mac, now: Micros): (i: int)
    ensures i == -1 || (0 <= i < |ss| && ss[i].active && ss[i].mac == mac && ss[i].endTime > now)
  {
    First(ss, (s: Session) => s.active && s.mac == mac && s.endTime > now)
  }

  lemma RebindKeeps(st: State, j: nat, ip: Ip)
    requires Coherent(st, 0) && j < MAX_CLIENTS && st.sessions[j].active && ip != 0
    requires !AddressInUse(st.sessions, ip, st.sessions[j].mac)
    ensures Coherent(Rebind(st, j, ip, st.sessions[j].mac), 0)
  {
    var s := st.sessions[j];
    var acl := if s.ip != ip then AfterRevokeIp(st.acl, s.ip) else st.acl;
    var t := s.(ip := ip, admitted := true);
    var base := st.(sessions := st.sessions[j := s.(active := false)]);
    Vacate(st, j);
    MoveUnbinds(st, j);
    FillSlot(base.(acl := acl), j, t, s.mac);
    assert base.sessions[j := t] == st.sessions[j := t];
  }

  // Dropping a session's old address unlists nobody else.
  lemma MoveUnbinds(st: State, j: nat)
    requires Coherent(st, 0) && j < MAX_CLIENTS && st.sessions[j].active
    ensures var s := st.sessions[j];
      var acl := AfterRevokeIp(st.acl, s.ip);
      && WellFormed(acl)
      && (forall m: Mac :: m != s.mac ==> BindingOf(acl, m) == BindingOf(st.acl, m))
  {
    var s := st.sessions[j];
    AddressAt(st.sessions, j);
    if s.ip != 0 {
      RevokeIpUnbinds(st.acl, s.ip);
      forall m: Mac | m != s.mac ensures BindingOf(st.acl, m) != s.ip {
        var k := FindMac(st.sessions, m);
      }
    }
  }

  // An expired holder of the address takes the newly listed entry down with it.
  lemma {:induction false} SweepClearsIp(st: State, i: nat, k: nat, ip: Ip, env: Env)
    requires st.Sized() && i <= MAX_CLIENTS && k < MAX_CLIENTS && ip != 0
    requires (i <= k && Expired(st.sessions[k], env.now) && st.sessions[k].ip == ip) || !Admits(st.acl, ip)
    ensures !Admits(SweepFrom(st, i, env).acl, ip)
    decreases |st.sessions| - i
  {
    if i < MAX_CLIENTS {
      var next := SweepSlot(st, i, env);
      forall n | 0 <= n < ACL_SLOTS && HoldsIp(next.acl[n], ip) ensures HoldsIp(st.acl[n], ip) {
      }
      SweepClearsIp(next, i + 1, k, ip, env);
    }
  }

  lemma ExpiredHolderBreaks(st: State, j: nat, k: nat, ip: Ip, env: Env)
    requires st.Sized() && j < MAX_CLIENTS && k < MAX_CLIENTS && ip != 0
    requires Surviving(st.sessions[j], env.now) && st.sessions[j].ip == ip
    requires Expired(st.sessions[k], env.now) && st.sessions[k].ip == ip
    ensures !Coherent(Refresh(st, env), 0)
  {
    SweepClearsIp(st, 0, k, ip, env);
    SweepEffect(st, 0, env);
    var r := Refresh(st, env);
    assert SweptSlot(st.sessions[j], r.sessions[j], env);
    if Coherent(r, 0) {
      AddressAt(r.sessions, j);
    }
  }

  // A DHCP assignment keeps the index if and only if the client has no live session to rebind
  // or no other client's session, even an expired one, has the address.
  lemma IpAssignedKeepsIndexIff(st: State, mac: Mac, ip: Ip, env: Env)
    requires Coherent(st, 0) && mac != 0 && ip != 0
    ensures Coherent(IpAssigned(st, mac, ip, env), 0) <==>
      (LiveSessionOf(st.sessions, mac, env.now) < 0 || !AddressInUse(st.sessions, ip, mac))
  {
    var j := LiveSessionOf(st.sessions, mac, env.now);
    if j >= 0 {
      IpAssignedUnfolds(st, j, ip, env);
      if !AddressInUse(st.sessions, ip, mac) {
        RebindKeeps(st, j, ip);
        RefreshKeeps(Rebind(st, j, ip, st.sessions[j].mac), env, 0);
      } else {
        var k :| 0 <= k < MAX_CLIENTS && st.sessions[k].active && st.sessions[k].ip == ip && st.sessions[k].mac != mac;
        InUseBreaks(Rebind(st, j, ip, st.sessions[j].mac), j, k, ip, env);
      }
    }
  }

  lemma IpAssignedUnfolds(st: State, j: nat, ip: Ip, env: Env)
    requires st.Sized() && j < MAX_CLIENTS && ip != 0 && st.sessions[j].mac != 0
    requires j == LiveSessionOf(st.sessions, st.sessions[j].mac, env.now)
    ensures IpAssigned(st, st.sessions[j].mac, ip, env) == Refresh(Rebind(st, j, ip, st.sessions[j].mac), env)
  {
  }

  lemma InUseBreaks(st: State, j: nat, k: nat, ip: Ip, env: Env)
    requires st.Sized() && j < MAX_CLIENTS && k < MAX_CLIENTS && j != k && ip != 0
    requires Surviving(st.sessions[j], env.now) && st.sessions[j].ip == ip
    requires st.sessions[k].active && st.sessions[k].ip == ip
    ensures !Coherent(Refresh(st, env), 0)
  {
    if Expired(st.sessions[k], env.now) {
      ExpiredHolderBreaks(st, j, k, ip, env);
    } else {
      RefreshSurvivors(st, env);
    }
  }

  // --- Disconnects and heartbeats ---

  lemma {:induction false} DisconnectFromKeeps(scan: Scan, mac: Mac, i: nat, env: Env)
    requires Coherent(scan.st, 0) && i <= MAX_CLIENTS && -1 <= scan.firstActive < MAX_CLIENTS
    ensures Coherent(DisconnectFrom(scan, mac, i, env).st, 0)
    decreases MAX_CLIENTS - i
  {
    if i < MAX_CLIENTS {
      if !scan.st.sessions[i].active {
        DisconnectFromKeeps(scan, mac, i + 1, env);
      } else {
        RevokeKeeps(scan.st, i, env);
        var hit := scan.st.sessions[i].mac == mac;
        DisconnectFromKeeps(Scan(if hit then Revoke(scan.st, i, env) else scan.st, scan.matched || hit, scan.count + 1,
                                 if scan.firstActive < 0 then i else scan.firstActive), mac, i + 1, env);
      }
    }
  }

  lemma DisconnectKeeps(st: State, mac: Mac, connectCount: int, env: Env)
    requires Coherent(st, 0)
    ensures Coherent(Disconnect(st, mac, connectCount, env), 0)
  {
    DisconnectFromKeeps(Scan(st, false, 0, -1), mac, 0, env);
    var scan := DisconnectFrom(Scan(st, false, 0, -1), mac, 0, env);
    if scan.firstActive >= 0 {
      RevokeKeeps(scan.st, scan.firstActive, env);
    }
  }

  lemma {:induction false} HeartbeatKeeps(st: State, i: nat, env: Env)
    requires Coherent(st, 0) && i <= MAX_CLIENTS
    ensures Coherent(HeartbeatFrom(st, i, env), 0)
    decreases MAX_CLIENTS - i
  {
    if i < MAX_CLIENTS {
      if st.sessions[i].active {
        CheckpointKeeps(st, i, env, 0);
        RevokeKeeps(Checkpoint(st, i, env), i, env);
      }
      HeartbeatKeeps(HeartbeatSlot(st, i, env), i + 1, env);
    }
  }
}
