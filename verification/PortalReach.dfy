// What holds in every reachable state, whoever the clients are: no known client has two active
// sessions, every session will end, and the quota records are sound.

module PortalReach {
  import opened Basics
  import opened QuotaBooks
  import opened PortalModel
  import opened PortalIndex
  import opened PortalAdmission
  import opened PortalRuns
  import opened PortalQuota
  import opened PortalAccess

  ghost predicate Sturdy(st: State) {
    st.Sized() && Lasting(st.sessions) && BooksOk(st.books)
  }

  // From a sturdy state to a sturdy one; if all sessions were sound ones of known clients, they
  // still are; and the records in slots 1 to 19 still belong to whom they did.
  ghost predicate Lasts(st: State, r: State) {
    Sturdy(r) && (Owned(st.sessions) ==> Owned(r.sessions)) && RecordsStay(st.books, r.books)
  }

  // Each session still active has its owner and its end; sound ones are sound.
  ghost predicate Thinned(was: seq<Session>, now: seq<Session>) {
    |was| == |now| == MAX_CLIENTS &&
    forall k :: 0 <= k < MAX_CLIENTS && now[k].active ==>
      && was[k].active && now[k].mac == was[k].mac && now[k].endTime == was[k].endTime
      && (SessionOk(was[k]) ==> SessionOk(now[k]))
  }

  lemma {:induction false} ThinnedLasts(was: seq<Session>, now: seq<Session>)
    requires Lasting(was) && Thinned(was, now)
    ensures Lasting(now) && (Owned(was) ==> Owned(now))
  {
  }

  lemma CheckpointLasts(st: State, i: nat, env: Env)
    requires Sturdy(st) && i < MAX_CLIENTS
    ensures Lasts(st, Checkpoint(st, i, env))
  {
    CheckpointThins(st, i, env);
    CheckpointBooks(st, i, env);
    ThinnedLasts(st.sessions, Checkpoint(st, i, env).sessions);
  }

  lemma CheckpointBooks(st: State, i: nat, env: Env)
    requires st.Sized() && BooksOk(st.books) && i < MAX_CLIENTS
    ensures BooksOk(Checkpoint(st, i, env).books) && RecordsStay(st.books, Checkpoint(st, i, env).books)
  {
    var s := st.sessions[i];
    if Chargeable(s, env.now) {
      var day := if s.dayId != 0 then s.dayId else CurrentDay(st.dayHint, env.wall);
      ChargeKeeps(st.books, s.mac, day, Elapsed(s, env.now) - s.accounted);
      ChargeStays(st.books, s.mac, day, Elapsed(s, env.now) - s.accounted);
    }
  }

  lemma CheckpointThins(st: State, i: nat, env: Env)
    requires st.Sized() && i < MAX_CLIENTS
    ensures Thinned(st.sessions, Checkpoint(st, i, env).sessions)
  {
    if SessionOk(st.sessions[i]) {
      CheckpointAccounts(st, i, env);
    }
  }

  lemma CloseLasts(st: State, i: nat, admitted: bool, env: Env)
    requires Sturdy(st) && i < MAX_CLIENTS
    ensures Lasts(st, Close(st, i, admitted, env))
  {
    var st1 := Checkpoint(st, i, env);
    CheckpointLasts(st, i, env);
    ThinnedLasts(st1.sessions, Close(st, i, admitted, env).sessions);
  }

  lemma {:induction false} SweepLasts(st: State, i: nat, env: Env)
    requires Sturdy(st) && i <= MAX_CLIENTS
    ensures Lasts(st, SweepFrom(st, i, env))
    decreases MAX_CLIENTS - i
  {
    if i < MAX_CLIENTS {
      CloseLasts(st, i, st.sessions[i].admitted, env);
      SweepLasts(SweepSlot(st, i, env), i + 1, env);
    }
  }

  lemma RefreshLasts(st: State, env: Env)
    requires Sturdy(st)
    ensures Lasts(st, Refresh(st, env))
  {
    SweepLasts(st, 0, env);
  }

  lemma RevokeLasts(st: State, i: nat, env: Env)
    requires Sturdy(st) && i < MAX_CLIENTS
    ensures Lasts(st, Revoke(st, i, env))
  {
    if st.sessions[i].active {
      CloseLasts(st, i, false, env);
      RefreshLasts(Close(st, i, false, env), env);
    }
  }

  lemma QueryLasts(st: State, ip: Ip, lookup: Option<Mac>, env: Env)
    requires Sturdy(st)
    ensures Lasts(st, GetRemaining(st, ip, lookup, env).0)
  {
    var i := First(st.sessions, (s: Session) => s.active && s.admitted && s.ip == ip);
    var j := if lookup.Some? then FindMac(st.sessions, lookup.value) else -1;
    if i >= 0 {
      RevokeLasts(st, i, env);
    } else if j >= 0 {
      RevokeLasts(st, j, env);
      ThinnedLasts(st.sessions, Bind(st, j, ip, lookup.value).sessions);
    }
  }

  lemma LeaseLasts(st: State, mac: Mac, ip: Ip, env: Env)
    requires Sturdy(st)
    ensures Lasts(st, IpAssigned(st, mac, ip, env))
  {
    var i := First(st.sessions, (s: Session) => s.active && s.mac == mac && s.endTime > env.now);
    if mac != 0 && ip != 0 && i >= 0 {
      ThinnedLasts(st.sessions, Rebind(st, i, ip, mac).sessions);
      RefreshLasts(Rebind(st, i, ip, mac), env);
    }
  }

  lemma {:induction false} ScanLasts(scan: Scan, mac: Mac, i: nat, env: Env)
    requires Sturdy(scan.st) && i <= MAX_CLIENTS && -1 <= scan.firstActive < MAX_CLIENTS
    ensures Lasts(scan.st, DisconnectFrom(scan, mac, i, env).st)
    decreases MAX_CLIENTS - i
  {
    if i < MAX_CLIENTS {
      if !scan.st.sessions[i].active {
        ScanLasts(scan, mac, i + 1, env);
      } else {
        RevokeLasts(scan.st, i, env);
        var hit := scan.st.sessions[i].mac == mac;
        ScanLasts(Scan(if hit then Revoke(scan.st, i, env) else scan.st, scan.matched || hit, scan.count + 1,
                       if scan.firstActive < 0 then i else scan.firstActive), mac, i + 1, env);
      }
    }
  }

  lemma DisconnectLasts(st: State, mac: Mac, connectCount: int, env: Env)
    requires Sturdy(st)
    ensures Lasts(st, Disconnect(st, mac, connectCount, env))
  {
    ScanLasts(Scan(st, false, 0, -1), mac, 0, env);
    var scan := DisconnectFrom(Scan(st, false, 0, -1), mac, 0, env);
    if scan.firstActive >= 0 {
      RevokeLasts(scan.st, scan.firstActive, env);
    }
  }

  lemma {:induction false} HeartbeatLasts(st: State, i: nat, env: Env)
    requires Sturdy(st) && i <= MAX_CLIENTS
    ensures Lasts(st, HeartbeatFrom(st, i, env))
    decreases MAX_CLIENTS - i
  {
    if i < MAX_CLIENTS {
      CheckpointLasts(st, i, env);
      RevokeLasts(Checkpoint(st, i, env), i, env);
      HeartbeatLasts(HeartbeatSlot(st, i, env), i + 1, env);
    }
  }

  // --- Starting ---

  // A session that ends, in a slot of a client who has no other.
  lemma {:induction false} PlacedLasts(ss: seq<Session>, slot: nat, s: Session)
    requires Lasting(ss) && slot < MAX_CLIENTS && s.active && s.endTime > 0
    requires s.mac != 0 ==> forall k :: 0 <= k < MAX_CLIENTS && k != slot && ss[k].active ==> ss[k].mac != s.mac
    ensures Lasting(ss[slot := s]) && (Owned(ss) && SessionOk(s) ==> Owned(ss[slot := s]))
  {
  }

  lemma OpenLasts(st: State, retired: int, ip: Ip, mac: Option<Mac>, token: Token, hash: DeviceHash, duration: nat, env: Env)
    requires Sturdy(st) && -1 <= retired < MAX_CLIENTS && 0 < duration <= DAILY_QUOTA_SEC && FindToken(st.sessions, token) < 0
    ensures var r := Open(st, retired, ip, mac, token, hash, duration, env);
      Sturdy(r) && RecordsStay(st.books, r.books) && (Owned(st.sessions) && mac.Some? && mac.value != 0 ==> Owned(r.sessions))
  {
    var slot := SlotFor(st.sessions, mac, token, retired);
    var s := OpenedSession(st, ip, mac, token, hash, duration, env);
    PlacedLasts(st.sessions, slot, s);
    RefreshLasts(Install(st, slot, s, env), env);
  }

  lemma ReuseLasts(st: State, j: nat, ip: Ip, mac: Option<Mac>, token: Token, hash: DeviceHash, env: Env)
    requires Sturdy(st) && j < MAX_CLIENTS && st.sessions[j].active
    requires mac.Some? && mac.value != 0 ==> FindMac(st.sessions, mac.value) < 0 || FindMac(st.sessions, mac.value) == j
    ensures var r := Reuse(st, j, ip, mac, token, hash, env);
      Sturdy(r) && RecordsStay(st.books, r.books) && (Owned(st.sessions) && mac.Some? && mac.value != 0 ==> Owned(r.sessions))
  {
    var st1 := HandedOver(st, j, mac, env.now);
    var s := Reused(st.sessions[j], ip, mac, token, hash);
    PlacedLasts(st.sessions, j, s);
    RefreshLasts(st1.(sessions := st.sessions[j := s]), env);
  }

  lemma StartAtLasts(st: State, ip: Ip, mac: Option<Mac>, token: Token, hash: DeviceHash, granted: int, env: Env)
    requires Sturdy(st) && FreshToken(st.sessions, token) && granted <= DAILY_QUOTA_SEC
    ensures var r := StartAt(st, FindExisting(st.sessions, ip, mac, token), ip, mac, token, hash, granted, env).0;
      Sturdy(r) && RecordsStay(st.books, r.books) && (Owned(st.sessions) && mac.Some? && mac.value != 0 ==> Owned(r.sessions))
  {
    var found := FindExisting(st.sessions, ip, mac, token);
    if found >= 0 && st.sessions[found].endTime > env.now {
      ReuseLasts(st, found, ip, mac, token, hash, env);
    } else {
      var st1 := if found >= 0 then Retire(st, found, env.now) else st;
      ThinnedLasts(st.sessions, st1.sessions);
      assert FindToken(st1.sessions, token) < 0;
      OpenLasts(st1, found, ip, mac, token, hash, Duration(granted), env);
    }
  }

  lemma StartLasts(st: State, ip: Ip, mac: Option<Mac>, token: Token, hash: DeviceHash, granted: int, env: Env)
    requires Sturdy(st) && FreshToken(st.sessions, token) && granted <= DAILY_QUOTA_SEC
    ensures var r := StartOrResume(st, ip, mac, token, hash, granted, env).0;
      Sturdy(r) && RecordsStay(st.books, r.books) && (Owned(st.sessions) && mac.Some? && mac.value != 0 ==> Owned(r.sessions))
  {
    if ip == 0 {
      var opening := st.(globalEnd := env.now + Duration(granted) * SECOND);
      OpeningLasts(opening, token, env);
      StartAtLasts(Refresh(opening, env), ip, mac, token, hash, granted, env);
    } else {
      StartAtLasts(st, ip, mac, token, hash, granted, env);
    }
  }

  lemma OpeningLasts(st: State, token: Token, env: Env)
    requires Sturdy(st) && FreshToken(st.sessions, token)
    ensures Lasts(st, Refresh(st, env)) && FreshToken(Refresh(st, env).sessions, token)
  {
    RefreshLasts(st, env);
    RefreshSurvivors(st, env);
  }

  // --- Events and runs ---

  // A new token differs from all live ones.
  ghost predicate FreshTokens(st: State, e: Event) {
    match e
    case ConfirmPressed(_, _, _, _, token, _) => FreshToken(st.sessions, token)
    case Connected(_, _, token, _) => FreshToken(st.sessions, token)
    case _ => true
  }

  lemma LookupLasts(st: State, mac: Mac, env: Env)
    requires Sturdy(st)
    ensures Lasts(st, QuotaRemaining(st, mac, env).0)
  {
    LookupKeeps(st.books, mac, CurrentDay(st.dayHint, env.wall));
    LookupStays(st.books, mac, CurrentDay(st.dayHint, env.wall));
  }

  lemma ConfirmLasts(st: State, e: Event, env: Env)
    requires Sturdy(st) && e.ConfirmPressed? && FreshTokens(st, e)
    ensures Sturdy(Step(st, Occurrence(e, env))) && RecordsStay(st.books, Step(st, Occurrence(e, env)).books)
    ensures Owned(st.sessions) && Identified(st, e) ==> Owned(Step(st, Occurrence(e, env)).sessions)
  {
    var mac := ConfirmMac(e);
    var (st1, remaining) := if mac.Some? then QuotaRemaining(st, mac.value, env) else (st, DAILY_QUOTA_SEC);
    var (st2, ok) := EnsureNapt(st1, env);
    if mac.Some? {
      LookupLasts(st, mac.value, env);
    }
    if remaining > 0 && e.uplink && ok {
      var granted := if mac.Some? then Grant(remaining, env.wall) else remaining;
      PressLasts(st2, e.ip, mac, e.token, e.hash, granted, e.lookup, env);
    }
  }

  lemma PressLasts(st: State, ip: Ip, mac: Option<Mac>, token: Token, hash: DeviceHash, granted: int, lookup: Option<Mac>, env: Env)
    requires Sturdy(st) && FreshToken(st.sessions, token) && granted <= DAILY_QUOTA_SEC
    ensures var r := GetRemaining(StartOrResume(st, ip, mac, token, hash, granted, env).0, ip, lookup, env).0;
      Sturdy(r) && RecordsStay(st.books, r.books) && (Owned(st.sessions) && mac.Some? && mac.value != 0 ==> Owned(r.sessions))
  {
    StartLasts(st, ip, mac, token, hash, granted, env);
    QueryLasts(StartOrResume(st, ip, mac, token, hash, granted, env).0, ip, lookup, env);
  }

  lemma ConnectLasts(st: State, e: Event, env: Env)
    requires Sturdy(st) && e.Connected? && FreshTokens(st, e)
    ensures Lasts(st, Step(st, Occurrence(e, env)))
  {
    if e.mac != 0 && e.uplink {
      var (st1, remaining) := QuotaRemaining(st, e.mac, env);
      var (st2, ok) := EnsureNapt(st1, env);
      LookupLasts(st, e.mac, env);
      StartLasts(st2, 0, Some(e.mac), e.token, e.hash, remaining, env);
    }
  }

  lemma StepLasts(st: State, o: Occurrence)
    requires Sturdy(st) && FreshTokens(st, o.event)
    ensures Sturdy(Step(st, o)) && RecordsStay(st.books, Step(st, o).books)
    ensures Owned(st.sessions) && Identified(st, o.event) ==> Owned(Step(st, o).sessions)
  {
    match o.event
    case ConfirmPressed(_, _, _, _, _, _) => ConfirmLasts(st, o.event, o.env);
    case Queried(ip, lookup) => QueryLasts(st, ip, lookup, o.env);
    case Connected(_, _, _, _) => ConnectLasts(st, o.event, o.env);
    case Leased(mac, ip) => LeaseLasts(st, mac, ip, o.env);
    case Disconnected(mac, connectCount) => DisconnectLasts(st, mac, connectCount, o.env);
    case Heartbeat => HeartbeatLasts(st, 0, o.env);
  }

  // Runs from boot in which tokens do not repeat. Nothing is asked of the clients: they may be
  // unknown, share addresses, or find every slot taken.
  ghost predicate Possible(os: seq<Occurrence>) {
    forall i :: 0 <= i < |os| ==> FreshTokens(Run(Booted(), os[..i]), os[i].event)
  }

  lemma PossiblePrefix(os: seq<Occurrence>)
    requires Possible(os) && os != []
    ensures Possible(os[..|os| - 1]) && FreshTokens(Run(Booted(), os[..|os| - 1]), os[|os| - 1].event)
  {
    var front := os[..|os| - 1];
    forall i | 0 <= i < |front| ensures FreshTokens(Run(Booted(), front[..i]), front[i].event) {
      assert front[..i] == os[..i];
    }
  }

  lemma {:induction false} RunLasts(os: seq<Occurrence>)
    requires Possible(os)
    ensures Sturdy(Run(Booted(), os))
  {
    if os != [] {
      PossiblePrefix(os);
      RunLasts(os[..|os| - 1]);
      StepLasts(Run(Booted(), os[..|os| - 1]), os[|os| - 1]);
    }
  }

  // In every reachable state at most one active session belongs to a known client.
  lemma {:induction false} OneSessionEach(os: seq<Occurrence>, i: nat, j: nat)
    requires Possible(os) && i < MAX_CLIENTS && j < MAX_CLIENTS
    ensures var ss := Run(Booted(), os).sessions;
      ss[i].active && ss[j].active && ss[i].mac == ss[j].mac != 0 ==> i == j
  {
    RunLasts(os);
  }

  // In every reachable state the records belong to known and distinct clients, and nobody has
  // used more than an hour of a day.
  lemma {:induction false} RecordsAreSound(os: seq<Occurrence>, m: Mac, d: nat)
    requires Possible(os)
    ensures BooksOk(Run(Booted(), os).books) && UsedOf(Run(Booted(), os).books, m, d) <= DAILY_QUOTA_SEC
  {
    RunLasts(os);
    UsedWithin(Run(Booted(), os).books, m, d);
  }

  lemma {:induction false} StepRecordsStay(os: seq<Occurrence>)
    requires Possible(os) && os != []
    ensures RecordsStay(Run(Booted(), os[..|os| - 1]).books, Run(Booted(), os).books)
  {
    PossiblePrefix(os);
    RunLasts(os[..|os| - 1]);
    StepLasts(Run(Booted(), os[..|os| - 1]), os[|os| - 1]);
  }

  // Once a client has a record in one of the slots 1 to 19, it keeps it in every later state.
  lemma {:induction false} RecordsNeverEvicted(os: seq<Occurrence>, n: nat)
    requires Possible(os) && n <= |os|
    ensures RecordsStay(Run(Booted(), os[..n]).books, Run(Booted(), os).books)
    decreases |os|
  {
    if n == |os| {
      assert os[..n] == os;
    } else {
      var before := os[..|os| - 1];
      PossiblePrefix(os);
      assert before[..n] == os[..n];
      RecordsNeverEvicted(before, n);
      StepRecordsStay(os);
      RecordsStayOn(Run(Booted(), os[..n]).books, Run(Booted(), before).books, Run(Booted(), os).books);
    }
  }

  lemma RecordsStayOn(b: Books, r: Books, q: Books)
    requires RecordsStay(b, r) && RecordsStay(r, q)
    ensures RecordsStay(b, q)
  {
  }

  // In every reachable state a refresh leaves no expired session behind and its flag says
  // exactly whether someone has access.
  lemma {:induction false} RefreshDecidesAlways(os: seq<Occurrence>, env: Env)
    requires Possible(os)
    ensures var r := Refresh(Run(Booted(), os), env);
      && (forall k :: 0 <= k < MAX_CLIENTS && r.sessions[k].active ==> r.sessions[k].endTime > env.now)
      && (r.portalAuthenticated <==> HasActiveAccess(r, env.now))
  {
    RunLasts(os);
    RefreshDecides(Run(Booted(), os), env);
  }
}
