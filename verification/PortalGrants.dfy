// What /confirm and a reconnecting station are granted, in plain arithmetic on the wall clock.

module PortalGrants {
  import opened Basics
  import opened ClientAcl
  import opened QuotaBooks
  import opened PortalModel
  import opened PortalIndex
  import opened PortalAdmission
  import opened PortalRuns
  import opened PortalAccess
  import opened PortalReach
  import opened PortalNapt

  // --- Days ---

  const DAYS := 0x1_0000_0000

  // The clock shows a day whose number fits 32 bits.
  predicate Dated(wall: int) { FIRST_VALID_TIME <= wall < DAYS * DAY }

  predicate InDay(d: nat, wall: int) { d * DAY <= wall < (d + 1) * DAY }

  // With the clock set, today's number is that of the UTC day, and it stays today's while the
  // clock is lost; before the clock was ever set it is 1.
  lemma TodayIsUtcDay(hint: nat, wall: int, d: nat)
    requires Dated(wall)
    ensures CurrentDay(hint, wall) == d <==> InDay(d, wall)
  {
    assert wall / DAY < DAYS;
  }

  lemma TodayGoesOn(hint: nat, wall: int, later: int)
    requires later < FIRST_VALID_TIME
    ensures Dated(wall) && wall >= DAY ==> CurrentDay(NextHint(hint, wall), later) == CurrentDay(hint, wall)
    ensures wall < FIRST_VALID_TIME ==> CurrentDay(NextHint(hint, wall), later) == CurrentDay(hint, later)
    ensures CurrentDay(0, later) == 1 && (hint != 0 ==> CurrentDay(hint, later) == hint)
  {
  }

  // The quota renews at midnight UTC: what is left is a whole hour, less what the client's
  // record shows if that is of this very day.
  lemma RenewsAtMidnight(st: State, mac: Mac, env: Env)
    requires st.Sized() && BooksOk(st.books) && mac != 0 && Dated(env.wall)
    ensures var k := FindRecord(st.books.records, mac);
      QuotaRemaining(st, mac, env).1 == DAILY_QUOTA_SEC -
        if k >= 0 && InDay(st.books.records[k].dayId, env.wall) then st.books.records[k].used else 0
  {
    var today := CurrentDay(st.dayHint, env.wall);
    RemainingIsRest(st.books, mac, today);
    TodayIsUtcDay(st.dayHint, env.wall, today);
    var k := FindRecord(st.books.records, mac);
    if k >= 0 {
      TodayIsUtcDay(st.dayHint, env.wall, st.books.records[k].dayId);
    }
  }

  // --- Grants ---

  // What a client may still have today; one whose address is not found has an hour each time,
  // and so has the zero address.
  function Rest(st: State, mac: Option<Mac>, env: Env): int {
    match mac
    case None => DAILY_QUOTA_SEC
    case Some(m) => if m == 0 then DAILY_QUOTA_SEC else DAILY_QUOTA_SEC - UsedOf(st.books, m, CurrentDay(st.dayHint, env.wall))
  }

  lemma RestIs(st: State, mac: Mac, env: Env)
    requires st.Sized() && BooksOk(st.books)
    ensures QuotaRemaining(st, mac, env).1 == Rest(st, Some(mac), env)
  {
    if mac != 0 {
      RemainingIsRest(st.books, mac, CurrentDay(st.dayHint, env.wall));
    }
  }

  // All of the rest, unless the clock is set and midnight UTC comes first: then up to midnight.
  predicate UpToMidnight(granted: int, rest: int, wall: int) {
    if wall < FIRST_VALID_TIME || rest <= DAY - wall % DAY then granted == rest
    else 0 < granted < rest && (wall + granted) % DAY == 0
  }

  lemma GrantIsUpToMidnight(rest: int, wall: int)
    requires 0 < rest <= DAILY_QUOTA_SEC
    ensures UpToMidnight(Grant(rest, wall), rest, wall)
  {
    if wall >= FIRST_VALID_TIME {
      assert wall == wall / DAY * DAY + wall % DAY;
      if DAY - wall % DAY < rest {
        assert wall + Grant(rest, wall) == (wall / DAY + 1) * DAY;
        WholeDays(wall / DAY + 1);
      }
    }
  }

  lemma WholeDays(n: int)
    ensures n * DAY % DAY == 0
  {
  }

  // Nothing else is: what is granted is determined.
  lemma OneGrant(a: int, b: int, rest: int, wall: int)
    requires rest <= DAILY_QUOTA_SEC && UpToMidnight(a, rest, wall) && UpToMidnight(b, rest, wall)
    ensures a == b
  {
    if wall >= FIRST_VALID_TIME && rest > DAY - wall % DAY {
      LessThanADay(wall + a, wall + b);
    }
  }

  lemma LessThanADay(x: int, y: int)
    requires x % DAY == 0 && y % DAY == 0 && -DAY < x - y < DAY
    ensures x == y
  {
  }

  // --- Starting ---

  // The session a press is answered with, when one runs: the client's own or else the one at
  // its address.
  predicate FallsIn(ss: seq<Session>, ip: Ip, mac: Option<Mac>, now: Micros, i: int) {
    && ip != 0 && 0 <= i < |ss| && ss[i].endTime > now
    && i == if mac.Some? && FindMac(ss, mac.value) >= 0 then FindMac(ss, mac.value) else FindIp(ss, ip)
  }

  ghost predicate Running(ss: seq<Session>, ip: Ip, mac: Option<Mac>, now: Micros) {
    exists i :: FallsIn(ss, ip, mac, now, i)
  }

  // A session begun now.
  predicate Begun(s: Session, ip: Ip, mac: Option<Mac>, token: Token, hash: DeviceHash, env: Env) {
    && s.active && s.admitted && s.ip == ip && s.mac == (if mac.Some? then mac.value else 0)
    && s.token == token && s.deviceHash == hash
    && s.startTime == env.now && s.endTime == env.now + s.granted * SECOND && s.accounted == 0
    && (Dated(env.wall) ==> InDay(s.dayId, env.wall))
  }

  // A session gone on with: nothing of its time changes, and it keeps the token it has.
  predicate GoneOn(s: Session, was: Session, ip: Ip, mac: Option<Mac>, token: Token, hash: DeviceHash) {
    && s.active && s.admitted && s.ip == ip && s.mac == (if mac.Some? then mac.value else was.mac)
    && s.token == (if was.token == "" then token else was.token)
    && s.deviceHash == (if hash == "" then was.deviceHash else hash)
    && s.startTime == was.startTime && s.endTime == was.endTime && s.granted == was.granted
    && s.accounted == was.accounted && s.dayId == was.dayId
  }

  lemma OpenBegins(st: State, retired: int, ip: Ip, mac: Option<Mac>, token: Token, hash: DeviceHash, duration: nat, env: Env)
    requires st.Sized() && -1 <= retired < MAX_CLIENTS && duration > 0
    ensures var r, slot := Open(st, retired, ip, mac, token, hash, duration, env), SlotFor(st.sessions, mac, token, retired);
      && Begun(r.sessions[slot], ip, mac, token, hash, env) && r.sessions[slot].granted == duration
      && (Dated(env.wall) ==> InDay(r.dayHint, env.wall))
      && r.globalEnd == if ip != 0 || 0 < st.globalEnd <= env.now then 0 else st.globalEnd
  {
    var slot := SlotFor(st.sessions, mac, token, retired);
    var s := OpenedSession(st, ip, mac, token, hash, duration, env);
    if Dated(env.wall) {
      TodayIsUtcDay(st.dayHint, env.wall, s.dayId);
      TodayIsUtcDay(st.dayHint, env.wall, NextHint(st.dayHint, env.wall));
    }
    AdmittingLeaves(Install(st, slot, s, env), slot, ip, mac, env);
    RefreshWindow(Install(st, slot, s, env), env);
    KeepsHint(Install(st, slot, s, env), env);
  }

  // A refresh may note the day as well, when it charges a session that knows none.
  lemma KeepsHint(st: State, env: Env)
    requires st.Sized() && (Dated(env.wall) ==> InDay(st.dayHint, env.wall))
    ensures Dated(env.wall) ==> InDay(Refresh(st, env).dayHint, env.wall)
  {
    SweepHint(st, 0, env);
  }

  lemma {:induction false} SweepHint(st: State, i: nat, env: Env)
    requires st.Sized() && i <= MAX_CLIENTS && (Dated(env.wall) ==> InDay(st.dayHint, env.wall))
    ensures Dated(env.wall) ==> InDay(SweepFrom(st, i, env).dayHint, env.wall)
    decreases MAX_CLIENTS - i
  {
    if i < MAX_CLIENTS {
      if Dated(env.wall) {
        TodayIsUtcDay(st.dayHint, env.wall, NextHint(st.dayHint, env.wall));
      }
      SweepHint(SweepSlot(st, i, env), i + 1, env);
    }
  }

  lemma RefreshWindow(st: State, env: Env)
    requires st.Sized()
    ensures Refresh(st, env).globalEnd == if 0 < st.globalEnd <= env.now then 0 else st.globalEnd
  {
    SweepEffect(st, 0, env);
  }

  // When no session runs that the press falls into, a new one begins; the window for everybody
  // is closed by a client with an address, and as long as the session for one without.
  lemma StartBegins(st: State, ip: Ip, mac: Option<Mac>, token: Token, hash: DeviceHash, granted: int, env: Env)
    requires st.Sized() && granted > 0 && FreshToken(st.sessions, token) && !Running(st.sessions, ip, mac, env.now)
    ensures var (r, slot) := StartOrResume(st, ip, mac, token, hash, granted, env);
      && slot >= 0 && Begun(r.sessions[slot], ip, mac, token, hash, env) && r.sessions[slot].granted == granted
      && r.globalEnd == if ip != 0 then 0 else env.now + granted * SECOND
  {
    if ip == 0 {
      ResumeBegins(st, mac, token, hash, granted, env);
    } else {
      var found := FindExisting(st.sessions, ip, mac, token);
      if found >= 0 {
        assert !FallsIn(st.sessions, ip, mac, env.now, found);
      }
      OpenBegins(if found >= 0 then Retire(st, found, env.now) else st, found, ip, mac, token, hash, granted, env);
    }
  }

  lemma ResumeBegins(st: State, mac: Option<Mac>, token: Token, hash: DeviceHash, granted: int, env: Env)
    requires st.Sized() && granted > 0 && FreshToken(st.sessions, token)
    ensures var (r, slot) := StartOrResume(st, 0, mac, token, hash, granted, env);
      && slot >= 0 && Begun(r.sessions[slot], 0, mac, token, hash, env) && r.sessions[slot].granted == granted
      && r.globalEnd == env.now + granted * SECOND
  {
    var opening := st.(globalEnd := env.now + granted * SECOND);
    RefreshSurvivors(opening, env);
    RefreshWindow(opening, env);
    assert FindToken(Refresh(opening, env).sessions, token) < 0;
    OpenBegins(Refresh(opening, env), -1, 0, mac, token, hash, granted, env);
  }

  lemma StartGoesOn(st: State, ip: Ip, mac: Option<Mac>, token: Token, hash: DeviceHash, granted: int, env: Env, i: nat)
    requires st.Sized() && FallsIn(st.sessions, ip, mac, env.now, i)
    ensures var (r, slot) := StartOrResume(st, ip, mac, token, hash, granted, env);
      slot == i && GoneOn(r.sessions[i], st.sessions[i], ip, mac, token, hash)
  {
    var s := Reused(st.sessions[i], ip, mac, token, hash);
    AdmittingLeaves(HandedOver(st, i, mac, env.now).(sessions := st.sessions[i := s]), i, ip, mac, env);
  }

  // The address of a start is admitted afterwards, unless every entry is in use by others.
  predicate Opened(acl: Table, ip: Ip) { ip != 0 ==> Admits(acl, ip) || forall i :: 0 <= i < |acl| ==> acl[i].used }

  lemma StartOpens(st: State, ip: Ip, mac: Option<Mac>, token: Token, hash: DeviceHash, granted: int, env: Env)
    requires st.Sized() && ip != 0
    ensures Opened(StartOrResume(st, ip, mac, token, hash, granted, env).0.acl, ip)
  {
    forall t: Table ensures Opened(AfterAdmit(t, ip, mac), ip) {
      AdmitOpens(t, ip, mac, if ip == 1 then 2 else 1);
    }
  }

  // Which slot a new session with an address takes: that of the expired one found by an address
  // alone, else the first that is free once the expired one found is dropped, else the first.
  lemma StartTakes(st: State, ip: Ip, mac: Option<Mac>, token: Token, hash: DeviceHash, granted: int, env: Env)
    requires st.Sized() && ip != 0 && FreshToken(st.sessions, token) && !Running(st.sessions, ip, mac, env.now)
    ensures var slot := StartOrResume(st, ip, mac, token, hash, granted, env).1;
      var found := if mac.Some? && FindMac(st.sessions, mac.value) >= 0 then FindMac(st.sessions, mac.value) else FindIp(st.sessions, ip);
      if mac.None? && found >= 0 then slot == found
      else (mac.Some? && OthersHave(st.sessions, found, mac.value)) || FirstFree(st.sessions, found, slot)
  {
    var found := FindExisting(st.sessions, ip, mac, token);
    var st1 := if found >= 0 then Retire(st, found, env.now) else st;
    if found >= 0 {
      assert !FallsIn(st.sessions, ip, mac, env.now, found);
    }
    SlotTaken(st.sessions, st1.sessions, found, mac, token);
  }

  lemma {:induction false} SlotTaken(ss: seq<Session>, ss1: seq<Session>, found: int, mac: Option<Mac>, token: Token)
    requires |ss| == MAX_CLIENTS && -1 <= found < |ss| && (found >= 0 ==> ss[found].active) && FindToken(ss, token) < 0
    requires ss1 == if found >= 0 then ss[found := ss[found].(active := false)] else ss
    ensures var slot := SlotFor(ss1, mac, token, found);
      if mac.None? && found >= 0 then slot == found
      else (mac.Some? && OthersHave(ss, found, mac.value)) || FirstFree(ss, found, slot)
  {
    assert FindToken(ss1, token) < 0;
    var byMac := if mac.Some? then FindMac(ss1, mac.value) else found;
    if mac.Some? && byMac >= 0 {
      assert ss1[byMac] == ss[byMac] && byMac != found;
    } else if byMac < 0 {
      var free := FindFree(ss1);
      assert SlotFor(ss1, mac, token, found) == if free >= 0 then free else 0;
      assert forall k :: 0 <= k < |ss| ==> (!ss1[k].active <==> !ss[k].active || k == found);
    }
  }

  // Another session of the client's besides the one dropped; there is none in a reachable state.
  predicate OthersHave(ss: seq<Session>, dropped: int, mac: Mac) {
    exists k :: 0 <= k < |ss| && k != dropped && ss[k].active && ss[k].mac == mac
  }

  predicate FirstFree(ss: seq<Session>, dropped: int, slot: int) {
    && 0 <= slot < |ss|
    && (forall k :: 0 <= k < slot ==> ss[k].active && k != dropped)
    && if ss[slot].active && slot != dropped then slot == 0 && forall k :: 0 <= k < |ss| ==> ss[k].active && k != dropped else true
  }

  // Without an address and a token there is no session, only the window for everybody.
  lemma WindowOnly(st: State, mac: Option<Mac>, hash: DeviceHash, granted: int, env: Env)
    requires st.Sized() && granted > 0
    ensures var (r, slot) := StartOrResume(st, 0, mac, "", hash, granted, env);
      && slot == -1 && r.globalEnd == env.now + granted * SECOND
      && forall k :: 0 <= k < MAX_CLIENTS && r.sessions[k].active ==> r.sessions[k] == st.sessions[k]
  {
    var opening := st.(globalEnd := env.now + granted * SECOND);
    RefreshSurvivors(opening, env);
    RefreshWindow(opening, env);
  }

  // Sessions in other slots that still run are unchanged.
  ghost predicate Elsewhere(st: State, r: State, slot: int, now: Micros) {
    st.Sized() && r.Sized() &&
    forall k :: 0 <= k < MAX_CLIENTS && k != slot && st.sessions[k].active && st.sessions[k].endTime > now ==>
      r.sessions[k] == st.sessions[k]
  }

  lemma PlacedElsewhere(st: State, st1: State, slot: nat, ip: Ip, mac: Option<Mac>, env: Env)
    requires st.Sized() && st1.Sized() && slot < MAX_CLIENTS && Elsewhere(st, st1, slot, env.now)
    ensures Elsewhere(st, Admitting(st1, ip, mac, env), slot, env.now)
  {
    RefreshSurvivors(st1, env);
  }

  lemma StartElsewhere(st: State, ip: Ip, mac: Option<Mac>, token: Token, hash: DeviceHash, granted: int, env: Env)
    requires st.Sized() && (ip == 0 ==> token != "")
    ensures var (r, slot) := StartOrResume(st, ip, mac, token, hash, granted, env);
      Elsewhere(st, r, slot, env.now)
  {
    if ip == 0 {
      var opening := st.(globalEnd := env.now + Duration(granted) * SECOND);
      var st0 := Refresh(opening, env);
      RefreshSurvivors(opening, env);
      StartAtElsewhere(st, st0, FindExisting(st0.sessions, ip, mac, token), ip, mac, token, hash, granted, env);
    } else {
      StartAtElsewhere(st, st, FindExisting(st.sessions, ip, mac, token), ip, mac, token, hash, granted, env);
    }
  }

  lemma StartAtElsewhere(st: State, st0: State, found: int, ip: Ip, mac: Option<Mac>, token: Token, hash: DeviceHash, granted: int, env: Env)
    requires Elsewhere(st, st0, -1, env.now) && -1 <= found < MAX_CLIENTS
    requires found >= 0 ==> st0.sessions[found].active
    ensures var (r, slot) := StartAt(st0, found, ip, mac, token, hash, granted, env);
      Elsewhere(st, r, slot, env.now)
  {
    if found >= 0 && st0.sessions[found].endTime > env.now {
      var st1 := HandedOver(st0, found, mac, env.now).(
        sessions := st0.sessions[found := Reused(st0.sessions[found], ip, mac, token, hash)]);
      PlacedElsewhere(st, st1, found, ip, mac, env);
    } else {
      var st1 := if found >= 0 then Retire(st0, found, env.now) else st0;
      assert Elsewhere(st, st1, -1, env.now);
      OpenElsewhere(st, st1, found, ip, mac, token, hash, Duration(granted), env);
    }
  }

  lemma OpenElsewhere(st: State, st1: State, retired: int, ip: Ip, mac: Option<Mac>, token: Token, hash: DeviceHash, duration: nat, env: Env)
    requires Elsewhere(st, st1, -1, env.now) && -1 <= retired < MAX_CLIENTS
    ensures Elsewhere(st, Open(st1, retired, ip, mac, token, hash, duration, env), SlotFor(st1.sessions, mac, token, retired), env.now)
  {
    var slot := SlotFor(st1.sessions, mac, token, retired);
    PlacedElsewhere(st, Install(st1, slot, OpenedSession(st1, ip, mac, token, hash, duration, env), env), slot, ip, mac, env);
  }

  // --- The closing query ---

  ghost predicate AllLive(st: State, now: Micros) {
    st.Sized() && forall k :: 0 <= k < MAX_CLIENTS && st.sessions[k].active ==> st.sessions[k].endTime > now
  }

  lemma RefreshAllLive(st: State, env: Env)
    requires st.Sized() && forall k :: 0 <= k < MAX_CLIENTS && st.sessions[k].active ==> st.sessions[k].endTime > 0
    ensures AllLive(Refresh(st, env), env.now)
  {
    RefreshDecides(st, env);
  }

  lemma StartAllLive(st: State, ip: Ip, mac: Option<Mac>, token: Token, hash: DeviceHash, granted: int, env: Env)
    requires st.Sized() && forall k :: 0 <= k < MAX_CLIENTS && st.sessions[k].active ==> st.sessions[k].endTime > 0
    requires ip != 0
    ensures AllLive(StartOrResume(st, ip, mac, token, hash, granted, env).0, env.now)
  {
    var found := FindExisting(st.sessions, ip, mac, token);
    if found >= 0 && st.sessions[found].endTime > env.now {
      RefreshAllLive(HandedOver(st, found, mac, env.now).(
        sessions := st.sessions[found := Reused(st.sessions[found], ip, mac, token, hash)]), env);
    } else {
      OpenAllLive(if found >= 0 then Retire(st, found, env.now) else st, found, ip, mac, token, hash, Duration(granted), env);
    }
  }

  lemma OpenAllLive(st: State, retired: int, ip: Ip, mac: Option<Mac>, token: Token, hash: DeviceHash, duration: nat, env: Env)
    requires st.Sized() && -1 <= retired < MAX_CLIENTS
    requires forall k :: 0 <= k < MAX_CLIENTS && st.sessions[k].active ==> st.sessions[k].endTime > 0
    ensures AllLive(Open(st, retired, ip, mac, token, hash, duration, env), env.now)
  {
    var slot := SlotFor(st.sessions, mac, token, retired);
    RefreshAllLive(Install(st, slot, OpenedSession(st, ip, mac, token, hash, duration, env), env), env);
  }

  lemma QueryLeaves(st: State, ip: Ip, lookup: Option<Mac>, env: Env, slot: nat)
    requires st.Sized() && (ip != 0 ==> AllLive(st, env.now))
    requires slot < MAX_CLIENTS && st.sessions[slot].active && st.sessions[slot].admitted && st.sessions[slot].ip == ip
    ensures GetRemaining(st, ip, lookup, env).0 == st
  {
    if ip != 0 {
      var i := First(st.sessions, (s: Session) => s.active && s.admitted && s.ip == ip);
      assert i >= 0;
    }
  }

  // --- Events ---

  // What holds of every reachable state.
  ghost predicate Sound(st: State) { Sturdy(st) && Wired(st) }

  lemma {:induction false} RunIsSound(os: seq<Occurrence>)
    requires Possible(os)
    ensures Sound(Run(Booted(), os))
  {
    RunLasts(os);
    RunWired(os);
  }

  // A press gets as far as a session if anything is left, the uplink is there and NAPT is on or
  // can be switched on; a reconnecting station's only if it has used some of its hour.
  predicate Passes(st: State, mac: Option<Mac>, uplink: bool, env: Env) {
    Rest(st, mac, env) > 0 && uplink && (st.naptEnabled || env.naptEnableOk)
  }

  // The state a start begins from.
  function Looked(st: State, mac: Option<Mac>, env: Env): (r: State)
    requires st.Sized()
    ensures r.Sized()
  {
    if mac.Some? then QuotaRemaining(st, mac.value, env).0 else st
  }

  lemma LookedWired(st: State, mac: Option<Mac>, env: Env)
    requires Wired(st)
    ensures var st2 := EnsureNapt(Looked(st, mac, env), env).0;
      Wired(st2) && st2.sessions == st.sessions && (st.naptEnabled || env.naptEnableOk <==> st2.naptEnabled)
  {
  }

  lemma ConfirmIs(st: State, e: Event, env: Env)
    requires st.Sized() && BooksOk(st.books) && e.ConfirmPressed?
    ensures var mac := ConfirmMac(e);
      var rest, st2 := Rest(st, mac, env), EnsureNapt(Looked(st, mac, env), env).0;
      var granted := if mac.Some? then Grant(rest, env.wall) else rest;
      Step(st, Occurrence(e, env)) ==
        if Passes(st, mac, e.uplink, env)
        then GetRemaining(StartOrResume(st2, e.ip, mac, e.token, e.hash, granted, env).0, e.ip, e.lookup, env).0
        else Looked(st, mac, env)
  {
    if ConfirmMac(e).Some? {
      RestIs(st, ConfirmMac(e).value, env);
    }
  }

  // A press that does not get that far changes nothing but the books.
  lemma ConfirmRefused(st: State, e: Event, env: Env)
    requires st.Sized() && BooksOk(st.books) && e.ConfirmPressed? && !Passes(st, ConfirmMac(e), e.uplink, env)
    ensures var r := Step(st, Occurrence(e, env));
      r == st.(books := r.books, dayHint := r.dayHint)
  {
    ConfirmIs(st, e, env);
  }

  // One that does and falls into no running session begins one: of all that is left today or
  // up to midnight, whichever is less, and of an hour for a client whose address is not found.
  lemma ConfirmBegins(st: State, e: Event, env: Env) returns (slot: nat)
    requires Sound(st) && e.ConfirmPressed? && FreshToken(st.sessions, e.token)
    requires Passes(st, ConfirmMac(e), e.uplink, env) && !Running(st.sessions, e.ip, ConfirmMac(e), env.now)
    ensures slot < MAX_CLIENTS
    ensures var r, mac := Step(st, Occurrence(e, env)), ConfirmMac(e);
      var granted, rest := r.sessions[slot].granted, Rest(st, mac, env);
      && Begun(r.sessions[slot], e.ip, mac, e.token, e.hash, env)
      && (if mac.Some? then UpToMidnight(granted, rest, env.wall) else granted == rest)
      && r.globalEnd == (if e.ip != 0 then 0 else env.now + granted * SECOND)
      && r.naptEnabled && r.portalAuthenticated && Elsewhere(st, r, slot, env.now) && Opened(r.acl, e.ip)
  {
    var mac := ConfirmMac(e);
    var rest, st2 := Rest(st, mac, env), EnsureNapt(Looked(st, mac, env), env).0;
    var granted := if mac.Some? then Grant(rest, env.wall) else rest;
    ConfirmIs(st, e, env);
    LookedWired(st, mac, env);
    GrantIsUpToMidnight(rest, env.wall);
    slot := PressBegins(st2, e.ip, mac, e.token, e.hash, granted, e.lookup, env);
  }

  lemma PressBegins(st: State, ip: Ip, mac: Option<Mac>, token: Token, hash: DeviceHash, granted: int, lookup: Option<Mac>, env: Env)
    returns (slot: nat)
    requires Lasting(st.sessions) && Wired(st) && st.naptEnabled && granted > 0
    requires FreshToken(st.sessions, token) && !Running(st.sessions, ip, mac, env.now)
    ensures slot < MAX_CLIENTS
    ensures var r := GetRemaining(StartOrResume(st, ip, mac, token, hash, granted, env).0, ip, lookup, env).0;
      && Begun(r.sessions[slot], ip, mac, token, hash, env) && r.sessions[slot].granted == granted
      && r.globalEnd == (if ip != 0 then 0 else env.now + granted * SECOND)
      && r.naptEnabled && r.portalAuthenticated && Elsewhere(st, r, slot, env.now) && Opened(r.acl, ip)
  {
    var (r, i) := StartOrResume(st, ip, mac, token, hash, granted, env);
    StartBegins(st, ip, mac, token, hash, granted, env);
    StartElsewhere(st, ip, mac, token, hash, granted, env);
    StartWired(st, ip, mac, token, hash, granted, env);
    slot := i;
    if ip != 0 {
      StartAllLive(st, ip, mac, token, hash, granted, env);
      StartOpens(st, ip, mac, token, hash, granted, env);
    }
    QueryLeaves(r, ip, lookup, env, slot);
  }

  // One that falls into a running session goes on with it.
  lemma ConfirmGoesOn(st: State, e: Event, env: Env, i: nat)
    requires Sound(st) && e.ConfirmPressed?
    requires Passes(st, ConfirmMac(e), e.uplink, env) && FallsIn(st.sessions, e.ip, ConfirmMac(e), env.now, i)
    ensures var r := Step(st, Occurrence(e, env));
      && GoneOn(r.sessions[i], st.sessions[i], e.ip, ConfirmMac(e), e.token, e.hash)
      && r.naptEnabled && r.portalAuthenticated && Elsewhere(st, r, i, env.now) && Opened(r.acl, e.ip)
  {
    var mac := ConfirmMac(e);
    var rest, st2 := Rest(st, mac, env), EnsureNapt(Looked(st, mac, env), env).0;
    var granted := if mac.Some? then Grant(rest, env.wall) else rest;
    ConfirmIs(st, e, env);
    LookedWired(st, mac, env);
    StartGoesOn(st2, e.ip, mac, e.token, e.hash, granted, env, i);
    StartElsewhere(st2, e.ip, mac, e.token, e.hash, granted, env);
    StartOpens(st2, e.ip, mac, e.token, e.hash, granted, env);
    StartWired(st2, e.ip, mac, e.token, e.hash, granted, env);
    StartAllLive(st2, e.ip, mac, e.token, e.hash, granted, env);
    QueryLeaves(StartOrResume(st2, e.ip, mac, e.token, e.hash, granted, env).0, e.ip, e.lookup, env, i);
  }

  predicate Resumes(st: State, mac: Mac, uplink: bool, env: Env) {
    mac != 0 && Passes(st, Some(mac), uplink, env) && Rest(st, Some(mac), env) < DAILY_QUOTA_SEC
  }

  // A reconnecting station that has used some of its hour gets all that is left of it.
  lemma ConnectBegins(st: State, e: Event, env: Env) returns (slot: nat)
    requires Sound(st) && e.Connected? && FreshToken(st.sessions, e.token) && Resumes(st, e.mac, e.uplink, env)
    ensures slot < MAX_CLIENTS
    ensures var r, rest := Step(st, Occurrence(e, env)), Rest(st, Some(e.mac), env);
      && Begun(r.sessions[slot], 0, Some(e.mac), e.token, e.hash, env) && r.sessions[slot].granted == rest
      && r.globalEnd == env.now + rest * SECOND && r.naptEnabled && r.portalAuthenticated && Elsewhere(st, r, slot, env.now)
  {
    var st2 := EnsureNapt(Looked(st, Some(e.mac), env), env).0;
    RestIs(st, e.mac, env);
    LookedWired(st, Some(e.mac), env);
    slot := PressBegins(st2, 0, Some(e.mac), e.token, e.hash, Rest(st, Some(e.mac), env), None, env);
  }

  // Any other changes nothing but the books and perhaps the day.
  lemma ConnectRefused(st: State, e: Event, env: Env)
    requires st.Sized() && BooksOk(st.books) && e.Connected? && !Resumes(st, e.mac, e.uplink, env)
    ensures var r := Step(st, Occurrence(e, env));
      r == st.(books := r.books, dayHint := r.dayHint)
  {
    RestIs(st, e.mac, env);
  }
}
