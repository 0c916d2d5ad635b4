// The session, quota and access state of main/http_server.c as a value, and the effect of
// every operation on it. The in-place code is in PortalServer.dfy.

module PortalModel {
  import opened Basics
  import opened ClientAcl
  import opened QuotaBooks

  const MAX_CLIENTS := 20
  const SECOND := 1_000_000
  const DAY := 86400
  const FIRST_VALID_TIME := 1_700_000_000

  // Session credentials; "" stands for an absent one.
  type Token = t: string | |t| <= 32
  type DeviceHash = h: string | |h| <= 64

  datatype Session = Session(
    ip: Ip, mac: Mac, token: Token, deviceHash: DeviceHash,
    endTime: int, startTime: int, granted: nat, accounted: nat, dayId: nat,
    admitted: bool, active: bool)

  const NO_SESSION := Session(0, 0, "", "", 0, 0, 0, 0, 0, false, false)

  // A history variable that only observes: for every session that stopped being active or was
  // taken over by another client, the time it really had and the seconds charged for it.
  datatype Usage = Usage(mac: Mac, micros: int, charged: nat)

  datatype State = State(
    sessions: seq<Session>, books: Books, acl: Table,
    naptEnabled: bool, globalEnd: int, portalAuthenticated: bool, dayHint: nat,
    ended: seq<Usage>)
  {
    ghost predicate Sized() {
      |sessions| == MAX_CLIENTS && |books.records| == QUOTA_SLOTS && |acl| == ACL_SLOTS
    }
  }

  function Booted(): (r: State)
    ensures r.Sized()
  {
    State(seq(MAX_CLIENTS, _ => NO_SESSION), NoBooks(), seq(ACL_SLOTS, _ => EMPTY), false, 0, false, 0, [])
  }

  // What the outside world supplies to one event: both clocks and the NAPT driver's answers.
  datatype Env = Env(now: Micros, wall: int, naptEnableOk: bool, naptDisableOk: bool)

  // Searches.

  function FindIp(ss: seq<Session>, ip: Ip): int { First(ss, (s: Session) => s.active && s.ip == ip) }

  function FindMac(ss: seq<Session>, mac: Mac): int { First(ss, (s: Session) => s.active && s.mac == mac) }

  function FindToken(ss: seq<Session>, token: Token): int {
    if token == "" then -1 else First(ss, (s: Session) => s.active && s.token == token)
  }

  function FindFree(ss: seq<Session>): int { First(ss, (s: Session) => !s.active) }

  // Days.

  function CurrentDay(hint: nat, wall: int): nat {
    if wall >= FIRST_VALID_TIME then (wall / DAY) % 0x1_0000_0000
    else if hint != 0 then hint else 1
  }

  function NextHint(hint: nat, wall: int): nat {
    if wall >= FIRST_VALID_TIME then (wall / DAY) % 0x1_0000_0000 else hint
  }

  function SecondsUntilNextDay(wall: int): int {
    if wall < FIRST_VALID_TIME then DAILY_QUOTA_SEC
    else
      var seconds := (wall / DAY + 1) * DAY - wall;
      if seconds > 0 then seconds else 1
  }

  // Charging.

  function QuotaRemaining(st: State, mac: Mac, env: Env): (r: (State, int))
    requires st.Sized()
    ensures r.0.Sized() && 0 <= r.1 <= DAILY_QUOTA_SEC
    ensures r.0 == st.(books := r.0.books, dayHint := NextHint(st.dayHint, env.wall))
  {
    var (books, remaining) := Remaining(st.books, mac, CurrentDay(st.dayHint, env.wall));
    (st.(books := books, dayHint := NextHint(st.dayHint, env.wall)), remaining)
  }

  // Seconds of its grant that a session has used up at time `now`.
  function Elapsed(s: Session, now: Micros): int {
    if now <= s.startTime then 0 else Min((now - s.startTime) / SECOND, s.granted)
  }

  // Charge a session for everything up to `elapsed` seconds of its grant.
  function Account(st: State, i: nat, day: nat, elapsed: nat): (r: State)
    requires st.Sized() && i < MAX_CLIENTS && st.sessions[i].accounted <= elapsed
    ensures r.Sized()
  {
    var s := st.sessions[i];
    st.(books := Charge(st.books, s.mac, day, elapsed - s.accounted),
        sessions := st.sessions[i := s.(accounted := elapsed)])
  }

  predicate Chargeable(s: Session, now: Micros) {
    s.mac != 0 && s.startTime > 0 && s.granted != 0 && Elapsed(s, now) > s.accounted
  }

  function Checkpoint(st: State, i: nat, env: Env): (r: State)
    requires st.Sized() && i < MAX_CLIENTS
    ensures r.Sized()
    ensures r.sessions == st.sessions[i := st.sessions[i].(accounted := r.sessions[i].accounted)]
    ensures r == st.(sessions := r.sessions, books := r.books, dayHint := r.dayHint)
  {
    var s := st.sessions[i];
    if !Chargeable(s, env.now) then st
    else if s.dayId != 0 then Account(st, i, s.dayId, Elapsed(s, env.now))
    else Account(st.(dayHint := NextHint(st.dayHint, env.wall)), i, CurrentDay(st.dayHint, env.wall), Elapsed(s, env.now))
  }

  // Ending sessions.

  function LogEnd(st: State, i: nat, now: Micros): State
    requires i < |st.sessions|
  {
    var s := st.sessions[i];
    st.(ended := st.ended + [Usage(s.mac, Min(now, s.endTime) - s.startTime, s.accounted)])
  }

  function Unlist(acl: Table, s: Session): (r: Table)
    ensures |r| == |acl|
  {
    var acl1 := AfterRevokeIp(acl, s.ip);
    if s.mac != 0 then AfterRevokeMac(acl1, s.mac) else acl1
  }

  // Log and unlist the session in slot i and mark it inactive.
  function Dismiss(st: State, i: nat, admitted: bool, now: Micros): (r: State)
    requires st.Sized() && i < MAX_CLIENTS
    ensures r.Sized()
  {
    var s := st.sessions[i];
    LogEnd(st, i, now).(acl := Unlist(st.acl, s), sessions := st.sessions[i := s.(active := false, admitted := admitted)])
  }

  function Close(st: State, i: nat, admitted: bool, env: Env): (r: State)
    requires st.Sized() && i < MAX_CLIENTS
    ensures r.Sized()
  {
    Dismiss(Checkpoint(st, i, env), i, admitted, env.now)
  }

  predicate Expired(s: Session, now: Micros) { s.active && 0 < s.endTime <= now }

  function SweepSlot(st: State, i: nat, env: Env): (r: State)
    requires st.Sized() && i < MAX_CLIENTS
    ensures r.Sized()
  {
    if Expired(st.sessions[i], env.now) then Close(st, i, st.sessions[i].admitted, env) else st
  }

  function SweepFrom(st: State, i: nat, env: Env): (r: State)
    requires st.Sized() && i <= MAX_CLIENTS
    ensures r.Sized()
    decreases |st.sessions| - i
  {
    if i == MAX_CLIENTS then st else SweepFrom(SweepSlot(st, i, env), i + 1, env)
  }

  predicate HasAdmitted(ss: seq<Session>) {
    exists i :: 0 <= i < |ss| && ss[i].active && ss[i].admitted
  }

  predicate HasActiveAccess(st: State, now: Micros) {
    st.globalEnd > now || exists i :: 0 <= i < |st.sessions| && st.sessions[i].active && st.sessions[i].admitted && st.sessions[i].endTime > now
  }

  function MaybeDisableNapt(st: State, env: Env): State {
    if !st.naptEnabled || HasActiveAccess(st, env.now) || !env.naptDisableOk then st
    else st.(naptEnabled := false)
  }

  // The part of a refresh after the sweep: global window, portal flag, NAPT.
  function Settle(st: State, env: Env): (r: State)
    ensures r == st.(globalEnd := r.globalEnd, portalAuthenticated := r.portalAuthenticated, naptEnabled := r.naptEnabled)
  {
    var globalEnd := if 0 < st.globalEnd <= env.now then 0 else st.globalEnd;
    var authenticated := HasAdmitted(st.sessions) || globalEnd > env.now;
    var st1 := st.(globalEnd := globalEnd, portalAuthenticated := authenticated);
    if authenticated then st1 else MaybeDisableNapt(st1, env)
  }

  function Refresh(st: State, env: Env): (r: State)
    requires st.Sized()
    ensures r.Sized()
  {
    Settle(SweepFrom(st, 0, env), env)
  }

  function EnsureNapt(st: State, env: Env): (r: (State, bool))
    ensures r.0 == st.(naptEnabled := r.0.naptEnabled)
    ensures r.1 ==> r.0.naptEnabled
    ensures r.0.naptEnabled == (st.naptEnabled || r.1)
  {
    if st.naptEnabled then (st, true)
    else if env.naptEnableOk then (st.(naptEnabled := true), true)
    else (st, false)
  }

  function Revoke(st: State, i: nat, env: Env): (r: State)
    requires st.Sized() && i < MAX_CLIENTS
    ensures r.Sized()
  {
    if !st.sessions[i].active then st else Refresh(Close(st, i, false, env), env)
  }

  // Starting and resuming sessions.

  function OpenedSession(st: State, ip: Ip, mac: Option<Mac>, token: Token, hash: DeviceHash, duration: nat, env: Env): Session {
    Session(ip, if mac.Some? then mac.value else 0, token, hash,
            env.now + duration * SECOND, env.now, duration, 0, CurrentDay(st.dayHint, env.wall), true, true)
  }

  // Overwrite a slot with a new session; whatever was active there ends uncharged.
  function Install(st: State, slot: nat, s: Session, env: Env): (r: State)
    requires st.Sized() && slot < MAX_CLIENTS
    ensures r.Sized()
  {
    var st1 := if st.sessions[slot].active then LogEnd(st, slot, env.now) else st;
    st1.(sessions := st1.sessions[slot := s],
         dayHint := NextHint(st.dayHint, env.wall),
         globalEnd := if s.ip != 0 then 0 else st.globalEnd)
  }

  // Refresh, then list the client.
  function Admitting(st: State, ip: Ip, mac: Option<Mac>, env: Env): (r: State)
    requires st.Sized()
    ensures r.Sized()
  {
    var st1 := Refresh(st, env);
    st1.(acl := AfterAdmit(st1.acl, ip, mac))
  }

  function Reused(s: Session, ip: Ip, mac: Option<Mac>, token: Token, hash: DeviceHash): Session {
    s.(ip := ip, admitted := true,
       mac := if mac.Some? then mac.value else s.mac,
       token := if s.token == "" then token else s.token,
       deviceHash := if hash != "" then hash else s.deviceHash)
  }

  // Drop an expired session without charging or unlisting it.
  function Retire(st: State, i: nat, now: Micros): (r: State)
    requires st.Sized() && i < MAX_CLIENTS
    ensures r.Sized()
  {
    var st1 := if st.sessions[i].active then LogEnd(st, i, now) else st;
    st1.(sessions := st1.sessions[i := st1.sessions[i].(active := false)])
  }

  function FindExisting(ss: seq<Session>, ip: Ip, mac: Option<Mac>, token: Token): (i: int)
    ensures i == -1 || 0 <= i < |ss|
    ensures i >= 0 ==> ss[i].active
  {
    if ip == 0 then FindToken(ss, token)
    else
      var byMac := if mac.Some? then FindMac(ss, mac.value) else -1;
      if byMac >= 0 then byMac else FindIp(ss, ip)
  }

  // The slot a new session is written to, after `retired` (or -1) was dropped.
  function SlotFor(ss: seq<Session>, mac: Option<Mac>, token: Token, retired: int): (i: int)
    requires |ss| > 0 && -1 <= retired < |ss|
    ensures 0 <= i < |ss|
  {
    var byMac := if mac.Some? then FindMac(ss, mac.value) else retired;
    var again := if byMac < 0 then FindToken(ss, token) else byMac;
    if again >= 0 then again
    else if FindFree(ss) >= 0 then FindFree(ss) else 0
  }

  // A session that changes hands is over for the client that had it.
  function HandedOver(st: State, i: nat, mac: Option<Mac>, now: Micros): (r: State)
    requires st.Sized() && i < MAX_CLIENTS
    ensures r == st.(ended := r.ended)
  {
    if mac.Some? && mac.value != st.sessions[i].mac then LogEnd(st, i, now) else st
  }

  function Reuse(st: State, i: nat, ip: Ip, mac: Option<Mac>, token: Token, hash: DeviceHash, env: Env): (r: State)
    requires st.Sized() && i < MAX_CLIENTS
    ensures r.Sized()
  {
    var st1 := HandedOver(st, i, mac, env.now);
    Admitting(st1.(sessions := st.sessions[i := Reused(st.sessions[i], ip, mac, token, hash)]), ip, mac, env)
  }

  function Open(st: State, retired: int, ip: Ip, mac: Option<Mac>, token: Token, hash: DeviceHash, duration: nat, env: Env): (r: State)
    requires st.Sized() && -1 <= retired < MAX_CLIENTS
    ensures r.Sized()
  {
    var slot := SlotFor(st.sessions, mac, token, retired);
    Admitting(Install(st, slot, OpenedSession(st, ip, mac, token, hash, duration, env), env), ip, mac, env)
  }

  function Duration(granted: int): nat { if granted > 0 then granted else DAILY_QUOTA_SEC }

  // The part common to both entries, once existing sessions have been looked up.
  function StartAt(st: State, found: int, ip: Ip, mac: Option<Mac>, token: Token, hash: DeviceHash, granted: int, env: Env): (r: (State, int))
    requires st.Sized() && -1 <= found < MAX_CLIENTS
    ensures r.0.Sized() && 0 <= r.1 < MAX_CLIENTS
  {
    if found >= 0 && st.sessions[found].endTime > env.now then
      (Reuse(st, found, ip, mac, token, hash, env), found)
    else
      var st1 := if found >= 0 then Retire(st, found, env.now) else st;
      (Open(st1, found, ip, mac, token, hash, Duration(granted), env), SlotFor(st1.sessions, mac, token, found))
  }

  // The new state and the session's slot, or -1 where the source returns no session.
  function StartOrResume(st: State, ip: Ip, mac: Option<Mac>, token: Token, hash: DeviceHash, granted: int, env: Env): (r: (State, int))
    requires st.Sized()
    ensures r.0.Sized() && -1 <= r.1 < MAX_CLIENTS
  {
    var st0 := if ip == 0 then Refresh(st.(globalEnd := env.now + Duration(granted) * SECOND), env) else st;
    if ip == 0 && token == "" then (st0, -1)
    else StartAt(st0, FindExisting(st0.sessions, ip, mac, token), ip, mac, token, hash, granted, env)
  }

  // Queries that may end or rebind a session.

  function Bind(st: State, i: nat, ip: Ip, mac: Mac): (r: State)
    requires st.Sized() && i < MAX_CLIENTS
    ensures r.Sized()
  {
    st.(sessions := st.sessions[i := st.sessions[i].(ip := ip)], acl := AfterAdmit(st.acl, ip, Some(mac)))
  }

  function GetRemaining(st: State, ip: Ip, lookup: Option<Mac>, env: Env): (r: (State, int))
    requires st.Sized()
    ensures r.0.Sized()
  {
    if ip == 0 then (st, -1) else
    var i := First(st.sessions, (s: Session) => s.active && s.admitted && s.ip == ip);
    if i >= 0 then
      if st.sessions[i].endTime <= env.now then (Revoke(st, i, env), -1)
      else (st, (st.sessions[i].endTime - env.now) / SECOND)
    else if lookup.None? then (st, -1) else
    var j := FindMac(st.sessions, lookup.value);
    if j < 0 || !st.sessions[j].admitted then (st, -1)
    else if st.sessions[j].endTime <= env.now then (Revoke(st, j, env), -1)
    else (Bind(st, j, ip, lookup.value), (st.sessions[j].endTime - env.now) / SECOND)
  }

  // Events.

  function ClientConnect(st: State, mac: Mac, uplink: bool, token: Token, hash: DeviceHash, env: Env): (r: State)
    requires st.Sized()
    ensures r.Sized()
  {
    if mac == 0 || !uplink then st else
    var (st1, remaining) := QuotaRemaining(st, mac, env);
    if remaining <= 0 || remaining >= DAILY_QUOTA_SEC then st1 else
    var (st2, ok) := EnsureNapt(st1, env);
    if !ok then st2 else StartOrResume(st2, 0, Some(mac), token, hash, remaining, env).0
  }

  // Move a session to a newly leased address.
  function Rebind(st: State, i: nat, ip: Ip, mac: Mac): (r: State)
    requires st.Sized() && i < MAX_CLIENTS
    ensures r.Sized()
  {
    var s := st.sessions[i];
    var acl := if s.ip != ip then AfterRevokeIp(st.acl, s.ip) else st.acl;
    st.(sessions := st.sessions[i := s.(ip := ip, admitted := true)], acl := AfterAdmit(acl, ip, Some(mac)))
  }

  function IpAssigned(st: State, mac: Mac, ip: Ip, env: Env): (r: State)
    requires st.Sized()
    ensures r.Sized()
  {
    if mac == 0 || ip == 0 then st else
    var i := First(st.sessions, (s: Session) => s.active && s.mac == mac && s.endTime > env.now);
    if i < 0 then st else Refresh(Rebind(st, i, ip, mac), env)
  }

  // The disconnect scan: sessions of `mac` are revoked as they are met; the scan also counts
  // the active sessions it passes and remembers the first of them.
  datatype Scan = Scan(st: State, matched: bool, count: nat, firstActive: int)

  function DisconnectFrom(scan: Scan, mac: Mac, i: nat, env: Env): (r: Scan)
    requires scan.st.Sized() && i <= MAX_CLIENTS && -1 <= scan.firstActive < MAX_CLIENTS
    ensures r.st.Sized() && -1 <= r.firstActive < MAX_CLIENTS
    decreases |scan.st.sessions| - i
  {
    if i == MAX_CLIENTS then scan
    else if !scan.st.sessions[i].active then DisconnectFrom(scan, mac, i + 1, env)
    else
      var hit := scan.st.sessions[i].mac == mac;
      var next := Scan(if hit then Revoke(scan.st, i, env) else scan.st, scan.matched || hit, scan.count + 1,
                       if scan.firstActive < 0 then i else scan.firstActive);
      DisconnectFrom(next, mac, i + 1, env)
  }

  function Disconnect(st: State, mac: Mac, connectCount: int, env: Env): (r: State)
    requires st.Sized()
    ensures r.Sized()
  {
    var scan := DisconnectFrom(Scan(st, false, 0, -1), mac, 0, env);
    if !scan.matched && connectCount == 0 && scan.count == 1 && scan.firstActive >= 0
    then Revoke(scan.st, scan.firstActive, env) else scan.st
  }

  function HeartbeatSlot(st: State, i: nat, env: Env): (r: State)
    requires st.Sized() && i < MAX_CLIENTS
    ensures r.Sized()
  {
    var s := st.sessions[i];
    if !s.active || s.token == "" || s.deviceHash == "" then st
    else
      var st1 := Checkpoint(st, i, env);
      if s.endTime > env.now && (s.endTime - env.now) / SECOND > 0 then st1 else Revoke(st1, i, env)
  }

  function HeartbeatFrom(st: State, i: nat, env: Env): (r: State)
    requires st.Sized() && i <= MAX_CLIENTS
    ensures r.Sized()
    decreases |st.sessions| - i
  {
    if i == MAX_CLIENTS then st else HeartbeatFrom(HeartbeatSlot(st, i, env), i + 1, env)
  }

  // What /confirm grants: the rest of today's quota, cut at midnight.
  function Grant(remaining: int, wall: int): int { Min(SecondsUntilNextDay(wall), remaining) }

  function Confirm(st: State, ip: Ip, lookup: Option<Mac>, fallback: Option<Mac>, uplink: bool,
                   token: Token, hash: DeviceHash, env: Env): (r: State)
    requires st.Sized()
    ensures r.Sized()
  {
    var mac := if lookup.Some? then lookup else fallback;
    var (st1, remaining) := if mac.Some? then QuotaRemaining(st, mac.value, env) else (st, DAILY_QUOTA_SEC);
    if remaining <= 0 || !uplink then st1 else
    var (st2, ok) := EnsureNapt(st1, env);
    if !ok then st2 else
    var granted := if mac.Some? then Grant(remaining, env.wall) else remaining;
    var (st3, slot) := StartOrResume(st2, ip, mac, token, hash, granted, env);
    GetRemaining(st3, ip, lookup, env).0
  }
}
