// The in-place code of main/http_server.c: fixed arrays of twenty slots, scanned and updated
// by the request handlers, the Wi-Fi event handlers and the heartbeat task. Every method is
// proved to act on the arrays as the matching function of PortalModel acts on the state.

module PortalServer {
  import opened Basics
  import opened ClientAcl
  import opened QuotaBooks
  import opened PortalModel

  class Portal {
    const sessions: array<Session>
    const records: array<QuotaRecord>
    const acl: AclTable
    var naptEnabled: bool
    var globalEnd: int
    var portalAuthenticated: bool
    var dayHint: nat
    ghost var evicted: set<Mac>
    ghost var ended: seq<Usage>

    ghost predicate Valid()
      reads this, acl
    {
      sessions.Length == MAX_CLIENTS && records.Length == QUOTA_SLOTS && acl.Valid()
    }

    ghost function Abstract(): (st: State)
      reads this, sessions, records, acl, acl.slots
      requires Valid()
      ensures st.Sized()
    {
      State(sessions[..], Books(records[..], evicted), acl.View(), naptEnabled, globalEnd, portalAuthenticated, dayHint, ended)
    }

    constructor ()
      ensures Valid() && fresh(sessions) && fresh(records) && fresh(acl) && fresh(acl.slots)
      ensures Abstract() == Booted()
    {
      sessions := new Session[MAX_CLIENTS](_ => NO_SESSION);
      records := new QuotaRecord[QUOTA_SLOTS](_ => NO_RECORD);
      acl := new AclTable();
      naptEnabled, globalEnd, portalAuthenticated, dayHint := false, 0, false, 0;
      evicted, ended := {}, [];
      new;
      assert sessions[..] == Booted().sessions;
      assert records[..] == Booted().books.records;
    }

    // --- Searches ---

    method FindByIp(ip: Ip) returns (i: int)
      requires Valid()
      ensures i == FindIp(Abstract().sessions, ip)
    {
      i := 0;
      while i < MAX_CLIENTS
        invariant 0 <= i <= MAX_CLIENTS
        invariant forall j :: 0 <= j < i ==> !(sessions[j].active && sessions[j].ip == ip)
      {
        if sessions[i].active && sessions[i].ip == ip { return; }
        i := i + 1;
      }
      i := -1;
    }

    method FindByMac(mac: Mac) returns (i: int)
      requires Valid()
      ensures i == FindMac(Abstract().sessions, mac)
    {
      i := 0;
      while i < MAX_CLIENTS
        invariant 0 <= i <= MAX_CLIENTS
        invariant forall j :: 0 <= j < i ==> !(sessions[j].active && sessions[j].mac == mac)
      {
        if sessions[i].active && sessions[i].mac == mac { return; }
        i := i + 1;
      }
      i := -1;
    }

    method FindByToken(token: Token) returns (i: int)
      requires Valid()
      ensures i == FindToken(Abstract().sessions, token)
    {
      if token == "" { return -1; }
      i := 0;
      while i < MAX_CLIENTS
        invariant 0 <= i <= MAX_CLIENTS
        invariant forall j :: 0 <= j < i ==> !(sessions[j].active && sessions[j].token == token)
      {
        if sessions[i].active && sessions[i].token == token { return; }
        i := i + 1;
      }
      i := -1;
    }

    method FindFreeSlot() returns (i: int)
      requires Valid()
      ensures i == FindFree(Abstract().sessions)
    {
      i := 0;
      while i < MAX_CLIENTS
        invariant 0 <= i <= MAX_CLIENTS
        invariant forall j :: 0 <= j < i ==> sessions[j].active
      {
        if !sessions[i].active { return; }
        i := i + 1;
      }
      i := -1;
    }

    // --- Quota ---

    method CurrentDayId(wall: int) returns (day: nat)
      requires Valid()
      modifies this`dayHint
      ensures day == CurrentDay(old(dayHint), wall) && dayHint == NextHint(old(dayHint), wall)
    {
      if wall >= FIRST_VALID_TIME {
        day := (wall / DAY) % 0x1_0000_0000;
        dayHint := day;
      } else {
        day := if dayHint != 0 then dayHint else 1;
      }
    }

    method FindOrAllocRecord(mac: Mac, day: nat) returns (at: int)
      requires Valid()
      modifies this`evicted, records
      ensures (Books(records[..], evicted), at) == FindOrAlloc(old(Books(records[..], evicted)), mac, day)
    {
      if mac == 0 { return -1; }
      var free := -1;
      for i := 0 to QUOTA_SLOTS
        invariant -1 <= free < QUOTA_SLOTS
        invariant records[..] == old(records[..])
        invariant forall j :: 0 <= j < i ==> !(records[j].valid && records[j].mac == mac)
        invariant if free < 0 then forall j :: 0 <= j < i ==> records[j].valid
                  else !records[free].valid && forall j :: 0 <= j < free ==> records[j].valid
      {
        if !records[i].valid {
          if free < 0 {
            free := i;
          }
        } else if records[i].mac == mac {
          assert i == FindRecord(old(records[..]), mac);
          if records[i].dayId != day {
            records[i] := records[i].(dayId := day, used := 0);
          }
          return i;
        }
      }
      assert FindRecord(old(records[..]), mac) == -1;
      assert free == FindFreeRecord(old(records[..]));
      if free < 0 {
        free := 0;
        evicted := evicted + {records[0].mac};
      }
      records[free] := QuotaRecord(true, mac, day, 0);
      at := free;
    }

    method GetQuotaRemaining(mac: Mac, env: Env) returns (seconds: int)
      requires Valid()
      modifies this`dayHint, this`evicted, records
      ensures (Abstract(), seconds) == QuotaRemaining(old(Abstract()), mac, env)
    {
      var day := CurrentDayId(env.wall);
      if mac == 0 { return DAILY_QUOTA_SEC; }
      var at := FindOrAllocRecord(mac, day);
      if at < 0 || records[at].used >= DAILY_QUOTA_SEC { return 0; }
      seconds := DAILY_QUOTA_SEC - records[at].used;
    }

    method ChargeRecord(mac: Mac, day: nat, delta: nat)
      requires Valid()
      modifies this`evicted, records
      ensures Books(records[..], evicted) == Charge(old(Books(records[..], evicted)), mac, day, delta)
    {
      var at := FindOrAllocRecord(mac, day);
      if at >= 0 {
        var used := records[at].used + delta;
        records[at] := records[at].(used := if used > DAILY_QUOTA_SEC then DAILY_QUOTA_SEC else used);
      }
    }

    method CheckpointUsage(i: nat, env: Env)
      requires Valid() && i < MAX_CLIENTS
      modifies this`dayHint, this`evicted, sessions, records
      ensures Abstract() == Checkpoint(old(Abstract()), i, env)
    {
      var s := sessions[i];
      if s.mac == 0 || s.startTime <= 0 || s.granted == 0 || env.now <= s.startTime {
        assert old(sessions[..]) == old(sessions[..])[i := s];
        return;
      }
      var elapsed := (env.now - s.startTime) / SECOND;
      if elapsed > s.granted {
        elapsed := s.granted;
      }
      assert elapsed == Elapsed(s, env.now);
      if elapsed <= s.accounted {
        return;
      }
      var day := s.dayId;
      if day == 0 {
        day := CurrentDayId(env.wall);
      }
      AccountSession(i, day, elapsed);
    }

    method AccountSession(i: nat, day: nat, elapsed: nat)
      requires Valid() && i < MAX_CLIENTS && sessions[i].accounted <= elapsed
      modifies this`evicted, sessions, records
      ensures Abstract() == Account(old(Abstract()), i, day, elapsed)
    {
      var s := sessions[i];
      ChargeRecord(s.mac, day, elapsed - s.accounted);
      sessions[i] := s.(accounted := elapsed);
      assert sessions[..] == old(sessions[..])[i := s.(accounted := elapsed)];
    }

    // --- Ending sessions ---

    method HasAccess(now: Micros) returns (access: bool)
      requires Valid()
      ensures access == HasActiveAccess(Abstract(), now)
    {
      if globalEnd > now { return true; }
      for i := 0 to MAX_CLIENTS
        invariant forall j :: 0 <= j < i ==> !(sessions[j].active && sessions[j].admitted && sessions[j].endTime > now)
      {
        if sessions[i].active && sessions[i].admitted && sessions[i].endTime > now {
          assert Abstract().sessions[i] == sessions[i];
          return true;
        }
      }
      access := false;
    }

    method DisableNaptIfIdle(env: Env)
      requires Valid()
      modifies this`naptEnabled
      ensures Abstract() == MaybeDisableNapt(old(Abstract()), env)
    {
      var access := HasAccess(env.now);
      if naptEnabled && !access && env.naptDisableOk {
        naptEnabled := false;
      }
    }

    // The tail shared by expiry and revocation: unlist the client and close the slot.
    method DismissSlot(i: nat, admitted: bool, now: Micros)
      requires Valid() && i < MAX_CLIENTS
      modifies this`ended, sessions, acl.slots
      ensures Abstract() == Dismiss(old(Abstract()), i, admitted, now)
    {
      var s := sessions[i];
      ended := ended + [Usage(s.mac, Min(now, s.endTime) - s.startTime, s.accounted)];
      if s.ip != 0 {
        acl.RevokeByIp(s.ip);
      }
      if s.mac != 0 {
        acl.RevokeByMac(s.mac);
      }
      sessions[i] := s.(active := false, admitted := admitted);
      assert sessions[..] == old(sessions[..])[i := s.(active := false, admitted := admitted)];
    }

    method RefreshPortal(env: Env)
      requires Valid()
      modifies this, sessions, records, acl.slots
      ensures Valid()
      ensures Abstract() == Refresh(old(Abstract()), env)
    {
      var hasActive := false;
      ghost var was := Abstract();
      for i := 0 to MAX_CLIENTS
        invariant Valid()
        invariant SweepFrom(Abstract(), i, env) == SweepFrom(was, 0, env)
        invariant hasActive <==> exists k :: 0 <= k < i && sessions[k].active && sessions[k].admitted
      {
        var admitted := SweepOne(i, env);
        hasActive := hasActive || admitted;
      }
      SettlePortal(hasActive, env);
    }

    // One slot of the sweep, and whether it still holds an admitted session.
    method SweepOne(i: nat, env: Env) returns (admitted: bool)
      requires Valid() && i < MAX_CLIENTS
      modifies this, sessions, records, acl.slots
      ensures Valid() && Abstract() == SweepSlot(old(Abstract()), i, env)
      ensures admitted == (sessions[i].active && sessions[i].admitted)
      ensures forall k :: 0 <= k < MAX_CLIENTS && k != i ==> sessions[k] == old(sessions[k])
    {
      admitted := false;
      ghost var was := Abstract();
      if sessions[i].active {
        if 0 < sessions[i].endTime <= env.now {
          CheckpointUsage(i, env);
          DismissSlot(i, sessions[i].admitted, env.now);
        } else if sessions[i].admitted {
          admitted := true;
        }
      }
      assert Abstract() == SweepSlot(was, i, env);
      assert forall k :: 0 <= k < MAX_CLIENTS && k != i ==> Abstract().sessions[k] == was.sessions[k];
    }

    method SettlePortal(hasActive: bool, env: Env)
      requires Valid() && hasActive == HasAdmitted(Abstract().sessions)
      modifies this`globalEnd, this`portalAuthenticated, this`naptEnabled
      ensures Valid() && Abstract() == Settle(old(Abstract()), env)
    {
      if 0 < globalEnd <= env.now {
        globalEnd := 0;
      }
      portalAuthenticated := hasActive || globalEnd > env.now;
      if !portalAuthenticated {
        DisableNaptIfIdle(env);
      }
    }

    method EnableNapt(env: Env) returns (ok: bool)
      requires Valid()
      modifies this`naptEnabled
      ensures (Abstract(), ok) == EnsureNapt(old(Abstract()), env)
    {
      if naptEnabled { return true; }
      if env.naptEnableOk {
        naptEnabled := true;
        return true;
      }
      ok := false;
    }

    method RevokeSession(i: nat, env: Env)
      requires Valid() && i < MAX_CLIENTS
      modifies this, sessions, records, acl.slots
      ensures Valid()
      ensures Abstract() == Revoke(old(Abstract()), i, env)
    {
      if !sessions[i].active { return; }
      CheckpointUsage(i, env);
      DismissSlot(i, false, env.now);
      RefreshPortal(env);
    }

    // --- Starting sessions ---

    method AdmitAfterRefresh(ip: Ip, mac: Option<Mac>, env: Env)
      requires Valid()
      modifies this, sessions, records, acl.slots
      ensures Valid()
      ensures Abstract() == Admitting(old(Abstract()), ip, mac, env)
    {
      RefreshPortal(env);
      acl.Admit(ip, mac);
    }

    // Only the history notices that a session changes hands.
    ghost method HandOver(i: nat, mac: Option<Mac>, now: Micros)
      requires Valid() && i < MAX_CLIENTS
      modifies this`ended
      ensures Abstract() == HandedOver(old(Abstract()), i, mac, now)
    {
      var was := sessions[i];
      if mac.Some? && mac.value != was.mac {
        ended := ended + [Usage(was.mac, Min(now, was.endTime) - was.startTime, was.accounted)];
      }
    }

    method ReuseSession(i: nat, ip: Ip, mac: Option<Mac>, token: Token, hash: DeviceHash, env: Env)
      requires Valid() && i < MAX_CLIENTS
      modifies this, sessions, records, acl.slots
      ensures Valid()
      ensures Abstract() == Reuse(old(Abstract()), i, ip, mac, token, hash, env)
    {
      HandOver(i, mac, env.now);
      var s := sessions[i].(ip := ip, admitted := true);
      if mac.Some? {
        s := s.(mac := mac.value);
      }
      if token != "" && s.token == "" {
        s := s.(token := token);
      }
      if hash != "" {
        s := s.(deviceHash := hash);
      }
      sessions[i] := s;
      assert sessions[..] == old(sessions[..])[i := s];
      AdmitAfterRefresh(ip, mac, env);
    }

    method RetireSession(i: nat, now: Micros)
      requires Valid() && i < MAX_CLIENTS
      modifies this`ended, sessions
      ensures Abstract() == Retire(old(Abstract()), i, now)
    {
      var s := sessions[i];
      if s.active {
        ended := ended + [Usage(s.mac, Min(now, s.endTime) - s.startTime, s.accounted)];
      }
      sessions[i] := s.(active := false);
      assert sessions[..] == old(sessions[..])[i := s.(active := false)];
    }

    method OpenSession(retired: int, ip: Ip, mac: Option<Mac>, token: Token, hash: DeviceHash, duration: nat, env: Env) returns (slot: int)
      requires Valid() && -1 <= retired < MAX_CLIENTS
      modifies this, sessions, records, acl.slots
      ensures Valid()
      ensures slot == SlotFor(old(Abstract()).sessions, mac, token, retired)
      ensures Abstract() == Open(old(Abstract()), retired, ip, mac, token, hash, duration, env)
    {
      slot := retired;
      if mac.Some? {
        slot := FindByMac(mac.value);
      }
      if slot < 0 {
        slot := FindByToken(token);
      }
      if slot < 0 {
        slot := FindFreeSlot();
        if slot < 0 {
          slot := 0;
        }
      }
      WriteSession(slot, ip, mac, token, hash, duration, env);
      AdmitAfterRefresh(ip, mac, env);
    }

    method WriteSession(slot: nat, ip: Ip, mac: Option<Mac>, token: Token, hash: DeviceHash, duration: nat, env: Env)
      requires Valid() && slot < MAX_CLIENTS
      modifies this`ended, this`dayHint, this`globalEnd, sessions
      ensures Abstract() == Install(old(Abstract()), slot, OpenedSession(old(Abstract()), ip, mac, token, hash, duration, env), env)
    {
      var was := sessions[slot];
      if was.active {
        ended := ended + [Usage(was.mac, Min(env.now, was.endTime) - was.startTime, was.accounted)];
      }
      var s := NO_SESSION.(ip := ip, startTime := env.now, granted := duration, accounted := 0);
      var day := CurrentDayId(env.wall);
      s := s.(dayId := day, endTime := env.now + duration * SECOND, admitted := true, active := true);
      if mac.Some? {
        s := s.(mac := mac.value);
      }
      s := s.(token := token, deviceHash := hash);
      sessions[slot] := s;
      assert sessions[..] == old(sessions[..])[slot := s];
      if ip != 0 {
        globalEnd := 0;
      }
    }

    method StartAtSlot(found: int, ip: Ip, mac: Option<Mac>, token: Token, hash: DeviceHash, granted: int, env: Env) returns (slot: int)
      requires Valid() && -1 <= found < MAX_CLIENTS
      modifies this, sessions, records, acl.slots
      ensures Valid()
      ensures (Abstract(), slot) == StartAt(old(Abstract()), found, ip, mac, token, hash, granted, env)
    {
      var duration := if granted > 0 then granted else DAILY_QUOTA_SEC;
      if found >= 0 {
        if sessions[found].endTime > env.now {
          ReuseSession(found, ip, mac, token, hash, env);
          return found;
        }
        RetireSession(found, env.now);
      }
      slot := OpenSession(found, ip, mac, token, hash, duration, env);
    }

    method FindExistingSession(ip: Ip, mac: Option<Mac>, token: Token) returns (found: int)
      requires Valid()
      ensures found == FindExisting(Abstract().sessions, ip, mac, token)
    {
      found := -1;
      if ip == 0 {
        found := FindByToken(token);
      } else {
        if mac.Some? {
          found := FindByMac(mac.value);
        }
        if found < 0 {
          found := FindByIp(ip);
        }
      }
    }

    method OpenGlobalWindow(granted: int, env: Env)
      requires Valid()
      modifies this, sessions, records, acl.slots
      ensures Valid()
      ensures Abstract() == Refresh(old(Abstract()).(globalEnd := env.now + Duration(granted) * SECOND), env)
    {
      var duration := if granted > 0 then granted else DAILY_QUOTA_SEC;
      globalEnd := env.now + duration * SECOND;
      RefreshPortal(env);
    }

    method StartOrResumeSession(ip: Ip, mac: Option<Mac>, token: Token, hash: DeviceHash, granted: int, env: Env) returns (slot: int)
      requires Valid()
      modifies this, sessions, records, acl.slots
      ensures Valid()
      ensures (Abstract(), slot) == StartOrResume(old(Abstract()), ip, mac, token, hash, granted, env)
    {
      if ip == 0 {
        OpenGlobalWindow(granted, env);
        if token == "" { return -1; }
      }
      slot := StartExisting(ip, mac, token, hash, granted, env);
    }

    method StartExisting(ip: Ip, mac: Option<Mac>, token: Token, hash: DeviceHash, granted: int, env: Env) returns (slot: int)
      requires Valid()
      modifies this, sessions, records, acl.slots
      ensures Valid()
      ensures var st := old(Abstract());
        (Abstract(), slot) == StartAt(st, FindExisting(st.sessions, ip, mac, token), ip, mac, token, hash, granted, env)
    {
      var found := FindExistingSession(ip, mac, token);
      slot := StartAtSlot(found, ip, mac, token, hash, granted, env);
    }

    // --- Queries ---

    method FindAdmittedByIp(ip: Ip) returns (i: int)
      requires Valid()
      ensures i == First(Abstract().sessions, (s: Session) => s.active && s.admitted && s.ip == ip)
    {
      i := 0;
      while i < MAX_CLIENTS
        invariant 0 <= i <= MAX_CLIENTS
        invariant forall j :: 0 <= j < i ==> !(sessions[j].active && sessions[j].admitted && sessions[j].ip == ip)
      {
        if sessions[i].active && sessions[i].admitted && sessions[i].ip == ip { return; }
        i := i + 1;
      }
      i := -1;
    }

    method GetRemainingSeconds(ip: Ip, lookup: Option<Mac>, env: Env) returns (seconds: int)
      requires Valid()
      modifies this, sessions, records, acl.slots
      ensures Valid()
      ensures (Abstract(), seconds) == GetRemaining(old(Abstract()), ip, lookup, env)
    {
      if ip == 0 { return -1; }
      var i := FindAdmittedByIp(ip);
      if i >= 0 {
        var remaining := sessions[i].endTime - env.now;
        if remaining <= 0 {
          RevokeSession(i, env);
          return -1;
        }
        return remaining / SECOND;
      }
      if lookup.None? { return -1; }
      i := FindByMac(lookup.value);
      if i < 0 || !sessions[i].admitted { return -1; }
      var remaining := sessions[i].endTime - env.now;
      if remaining <= 0 {
        RevokeSession(i, env);
        return -1;
      }
      BindSession(i, ip, lookup.value);
      seconds := remaining / SECOND;
    }

    method BindSession(i: nat, ip: Ip, mac: Mac)
      requires Valid() && i < MAX_CLIENTS
      modifies sessions, acl.slots
      ensures Valid() && Abstract() == Bind(old(Abstract()), i, ip, mac)
    {
      sessions[i] := sessions[i].(ip := ip);
      assert sessions[..] == old(sessions[..])[i := old(sessions[i]).(ip := ip)];
      acl.Admit(ip, Some(mac));
    }

    // --- Events ---

    method HandleConnect(mac: Mac, uplink: bool, token: Token, hash: DeviceHash, env: Env)
      requires Valid()
      modifies this, sessions, records, acl.slots
      ensures Valid()
      ensures Abstract() == ClientConnect(old(Abstract()), mac, uplink, token, hash, env)
    {
      if mac == 0 || !uplink { return; }
      var remaining := GetQuotaRemaining(mac, env);
      if remaining <= 0 || remaining >= DAILY_QUOTA_SEC { return; }
      var ok := EnableNapt(env);
      if !ok { return; }
      var slot := StartOrResumeSession(0, Some(mac), token, hash, remaining, env);
    }

    method HandleIpAssigned(mac: Mac, ip: Ip, env: Env)
      requires Valid()
      modifies this, sessions, records, acl.slots
      ensures Valid()
      ensures Abstract() == IpAssigned(old(Abstract()), mac, ip, env)
    {
      if mac == 0 || ip == 0 { return; }
      var i := FindLiveByMac(mac, env.now);
      if i >= 0 {
        RebindSession(i, ip, mac);
        RefreshPortal(env);
      }
    }

    method FindLiveByMac(mac: Mac, now: Micros) returns (i: int)
      requires Valid()
      ensures i == First(Abstract().sessions, (s: Session) => s.active && s.mac == mac && s.endTime > now)
    {
      i := 0;
      while i < MAX_CLIENTS
        invariant 0 <= i <= MAX_CLIENTS
        invariant forall j :: 0 <= j < i ==> !(sessions[j].active && sessions[j].mac == mac && sessions[j].endTime > now)
      {
        if sessions[i].active && sessions[i].mac == mac && sessions[i].endTime > now { return; }
        i := i + 1;
      }
      i := -1;
    }

    method RebindSession(i: nat, ip: Ip, mac: Mac)
      requires Valid() && i < MAX_CLIENTS
      modifies sessions, acl.slots
      ensures Abstract() == Rebind(old(Abstract()), i, ip, mac)
    {
      var s := sessions[i];
      if s.ip != ip && s.ip != 0 {
        acl.RevokeByIp(s.ip);
      }
      sessions[i] := s.(ip := ip, admitted := true);
      assert sessions[..] == old(sessions[..])[i := s.(ip := ip, admitted := true)];
      acl.Admit(ip, Some(mac));
    }

    method HandleDisconnect(mac: Mac, connectCount: int, env: Env)
      requires Valid()
      modifies this, sessions, records, acl.slots
      ensures Valid()
      ensures Abstract() == Disconnect(old(Abstract()), mac, connectCount, env)
    {
      var matched, count, firstActive := false, 0, -1;
      ghost var scan0 := Scan(Abstract(), false, 0, -1);
      for i := 0 to MAX_CLIENTS
        invariant Valid() && -1 <= firstActive < MAX_CLIENTS && count >= 0
        invariant DisconnectFrom(Scan(Abstract(), matched, count, firstActive), mac, i, env) == DisconnectFrom(scan0, mac, 0, env)
      {
        if sessions[i].active {
          count := count + 1;
          if firstActive < 0 {
            firstActive := i;
          }
          if sessions[i].mac == mac {
            matched := true;
            RevokeSession(i, env);
          }
        }
      }
      if !matched && connectCount == 0 && count == 1 && firstActive >= 0 {
        RevokeSession(firstActive, env);
      }
    }

    method HeartbeatPass(env: Env)
      requires Valid()
      modifies this, sessions, records, acl.slots
      ensures Valid()
      ensures Abstract() == HeartbeatFrom(old(Abstract()), 0, env)
    {
      ghost var was := Abstract();
      for i := 0 to MAX_CLIENTS
        invariant Valid()
        invariant HeartbeatFrom(Abstract(), i, env) == HeartbeatFrom(was, 0, env)
      {
        if sessions[i].active && sessions[i].token != "" && sessions[i].deviceHash != "" {
          CheckpointUsage(i, env);
          var remaining := if sessions[i].endTime <= env.now then -1 else (sessions[i].endTime - env.now) / SECOND;
          if remaining <= 0 {
            RevokeSession(i, env);
          }
        }
      }
    }

    method HandleConfirm(ip: Ip, lookup: Option<Mac>, fallback: Option<Mac>, uplink: bool, token: Token, hash: DeviceHash, env: Env)
      requires Valid()
      modifies this, sessions, records, acl.slots
      ensures Valid()
      ensures Abstract() == Confirm(old(Abstract()), ip, lookup, fallback, uplink, token, hash, env)
    {
      var mac := if lookup.Some? then lookup else fallback;
      var granted := DAILY_QUOTA_SEC;
      if mac.Some? {
        granted := GetQuotaRemaining(mac.value, env);
        if granted <= 0 { return; }
        var untilMidnight := SecondsUntilNextDay(env.wall);
        if untilMidnight < granted {
          granted := untilMidnight;
        }
      }
      if !uplink { return; }
      var ok := EnableNapt(env);
      if !ok { return; }
      var slot := StartOrResumeSession(ip, mac, token, hash, granted, env);
      var seconds := GetRemainingSeconds(ip, lookup, env);
    }
  }
}
