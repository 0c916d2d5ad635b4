// Runs of the portal: which events keep the client index, and what holds after every run.

module PortalRuns {
  import opened Basics
  import opened ClientAcl
  import opened QuotaBooks
  import opened PortalModel
  import opened PortalIndex
  import opened PortalAdmission

  datatype Event =
    | ConfirmPressed(ip: Ip, lookup: Option<Mac>, fallback: Option<Mac>, uplink: bool, token: Token, hash: DeviceHash)
    | Queried(ip: Ip, lookup: Option<Mac>)
    | Connected(mac: Mac, uplink: bool, token: Token, hash: DeviceHash)
    | Leased(mac: Mac, ip: Ip)
    | Disconnected(mac: Mac, connectCount: int)
    | Heartbeat

  datatype Occurrence = Occurrence(event: Event, env: Env)

  function Step(st: State, o: Occurrence): (r: State)
    requires st.Sized()
    ensures r.Sized()
  {
    match o.event
    case ConfirmPressed(ip, lookup, fallback, uplink, token, hash) => Confirm(st, ip, lookup, fallback, uplink, token, hash, o.env)
    case Queried(ip, lookup) => GetRemaining(st, ip, lookup, o.env).0
    case Connected(mac, uplink, token, hash) => ClientConnect(st, mac, uplink, token, hash, o.env)
    case Leased(mac, ip) => IpAssigned(st, mac, ip, o.env)
    case Disconnected(mac, connectCount) => Disconnect(st, mac, connectCount, o.env)
    case Heartbeat => HeartbeatFrom(st, 0, o.env)
  }

  function Run(st: State, os: seq<Occurrence>): (r: State)
    requires st.Sized()
    ensures r.Sized()
  {
    if os == [] then st else Step(Run(st, os[..|os| - 1]), os[|os| - 1])
  }

  // Whether a press of "confirm" gets as far as starting or resuming a session.
  predicate ConfirmStarts(st: State, mac: Mac, uplink: bool, env: Env)
    requires st.Sized()
  {
    QuotaRemaining(st, mac, env).1 > 0 && uplink && (st.naptEnabled || env.naptEnableOk)
  }

  predicate ConnectStarts(st: State, mac: Mac, uplink: bool, env: Env)
    requires st.Sized()
  {
    mac != 0 && uplink && 0 < QuotaRemaining(st, mac, env).1 < DAILY_QUOTA_SEC && (st.naptEnabled || env.naptEnableOk)
  }

  function ConfirmMac(e: Event): Option<Mac>
    requires e.ConfirmPressed?
  {
    if e.lookup.Some? then e.lookup else e.fallback
  }

  // Clients are identified by hardware address, and a new token differs from all live ones.
  ghost predicate Identified(st: State, e: Event) {
    match e
    case ConfirmPressed(_, _, _, _, token, _) =>
      ConfirmMac(e).Some? && ConfirmMac(e).value != 0 && FreshToken(st.sessions, token)
    case Connected(_, _, token, _) => FreshToken(st.sessions, token)
    case _ => true
  }

  // The situations in which an event does not put the client table out of step.
  predicate KeepsStep(st: State, o: Occurrence)
    requires st.Sized()
  {
    match o.event
    case ConfirmPressed(ip, _, _, uplink, _, _) =>
      var mac := if ConfirmMac(o.event).Some? then ConfirmMac(o.event).value else 0;
      ConfirmStarts(st, mac, uplink, o.env) ==>
        if ip != 0 then !Collides(st.sessions, ip, mac, o.env.now) else !StrandsEntry(st.sessions, mac, o.env.now)
    case Connected(mac, uplink, _, _) =>
      ConnectStarts(st, mac, uplink, o.env) ==> !StrandsEntry(st.sessions, mac, o.env.now)
    case Leased(mac, ip) =>
      mac == 0 || ip == 0 || LiveSessionOf(st.sessions, mac, o.env.now) < 0 || !AddressInUse(st.sessions, ip, mac)
    case _ => true
  }

  // After a start with a known address, /confirm's closing query changes nothing: that
  // address is owned by a live session.
  lemma QueryAfterStart(st: State, j: nat, ip: Ip, mac: Option<Mac>, lookup: Option<Mac>, env: Env)
    requires st.Sized() && j < MAX_CLIENTS && ip != 0
    requires Surviving(st.sessions[j], env.now) && st.sessions[j].admitted && st.sessions[j].ip == ip
    requires forall k :: 0 <= k < MAX_CLIENTS && st.sessions[k].active ==> st.sessions[k].endTime > 0
    ensures var r := Admitting(st, ip, mac, env);
      GetRemaining(r, ip, lookup, env).0 == r
  {
    RefreshSurvivors(st, env);
    var r := Admitting(st, ip, mac, env);
    var i := First(r.sessions, (s: Session) => s.active && s.admitted && s.ip == ip);
    assert r.sessions[j] == st.sessions[j];
    assert i >= 0 && Surviving(st.sessions[i], env.now);
  }

  lemma QueryAfterStartOrResume(st: State, ip: Ip, mac: Mac, token: Token, hash: DeviceHash, granted: int, lookup: Option<Mac>, env: Env)
    requires st.Sized() && forall k :: 0 <= k < MAX_CLIENTS && st.sessions[k].active ==> st.sessions[k].endTime > 0
    ensures var r := StartOrResume(st, ip, Some(mac), token, hash, granted, env).0;
      GetRemaining(r, ip, lookup, env).0 == r
  {
    if ip != 0 {
      var found := FindExisting(st.sessions, ip, Some(mac), token);
      if found >= 0 && st.sessions[found].endTime > env.now {
        var s := Reused(st.sessions[found], ip, Some(mac), token, hash);
        QueryAfterStart(HandedOver(st, found, Some(mac), env.now).(sessions := st.sessions[found := s]), found, ip, Some(mac), lookup, env);
      } else {
        var st1 := if found >= 0 then Retire(st, found, env.now) else st;
        QueryAfterOpen(st1, found, ip, mac, token, hash, Duration(granted), lookup, env);
      }
    }
  }

  lemma QueryAfterOpen(st: State, retired: int, ip: Ip, mac: Mac, token: Token, hash: DeviceHash, duration: nat, lookup: Option<Mac>, env: Env)
    requires st.Sized() && ip != 0 && duration > 0 && -1 <= retired < MAX_CLIENTS
    requires forall k :: 0 <= k < MAX_CLIENTS && st.sessions[k].active ==> st.sessions[k].endTime > 0
    ensures var r := Open(st, retired, ip, Some(mac), token, hash, duration, env);
      GetRemaining(r, ip, lookup, env).0 == r
  {
    var slot := SlotFor(st.sessions, Some(mac), token, retired);
    var s := OpenedSession(st, ip, Some(mac), token, hash, duration, env);
    QueryAfterStart(Install(st, slot, s, env), slot, ip, Some(mac), lookup, env);
  }

  lemma ConfirmUnfolds(st: State, e: Event, env: Env)
    requires st.Sized() && e.ConfirmPressed? && ConfirmMac(e).Some?
    ensures var mac := ConfirmMac(e).value;
      var (st1, remaining) := QuotaRemaining(st, mac, env);
      var (st2, ok) := EnsureNapt(st1, env);
      Step(st, Occurrence(e, env)) ==
        if ConfirmStarts(st, mac, e.uplink, env)
        then GetRemaining(StartOrResume(st2, e.ip, Some(mac), e.token, e.hash, Grant(remaining, env.wall), env).0, e.ip, e.lookup, env).0
        else st1
  {
  }

  lemma ConfirmKeepsIff(st: State, e: Event, env: Env)
    requires Coherent(st, 0) && e.ConfirmPressed? && Identified(st, e)
    ensures Coherent(Step(st, Occurrence(e, env)), 0) <==> KeepsStep(st, Occurrence(e, env))
  {
    var mac := ConfirmMac(e).value;
    var (st1, remaining) := QuotaRemaining(st, mac, env);
    var (st2, ok) := EnsureNapt(st1, env);
    ConfirmUnfolds(st, e, env);
    if ConfirmStarts(st, mac, e.uplink, env) {
      var granted := Grant(remaining, env.wall);
      QueryAfterStartOrResume(st2, e.ip, mac, e.token, e.hash, granted, e.lookup, env);
      if e.ip != 0 {
        StartKeepsIndexIff(st2, e.ip, mac, e.token, e.hash, granted, env);
      } else {
        ResumeKeepsIndexIff(st2, mac, e.token, e.hash, granted, env);
      }
    }
  }

  lemma ConnectKeepsIff(st: State, e: Event, env: Env)
    requires Coherent(st, 0) && e.Connected? && Identified(st, e)
    ensures Coherent(Step(st, Occurrence(e, env)), 0) <==> KeepsStep(st, Occurrence(e, env))
  {
    var (st1, remaining) := QuotaRemaining(st, e.mac, env);
    var (st2, ok) := EnsureNapt(st1, env);
    if ConnectStarts(st, e.mac, e.uplink, env) {
      ResumeKeepsIndexIff(st2, e.mac, e.token, e.hash, remaining, env);
    }
  }

  // From a state in step, an event ends in step exactly when its guard holds.
  lemma StepKeepsIndexIff(st: State, o: Occurrence)
    requires Coherent(st, 0) && Identified(st, o.event)
    ensures Coherent(Step(st, o), 0) <==> KeepsStep(st, o)
  {
    match o.event
    case ConfirmPressed(_, _, _, _, _, _) => ConfirmKeepsIff(st, o.event, o.env);
    case Queried(ip, lookup) => GetRemainingKeeps(st, ip, lookup, o.env);
    case Connected(_, _, _, _) => ConnectKeepsIff(st, o.event, o.env);
    case Leased(mac, ip) => if mac != 0 && ip != 0 { IpAssignedKeepsIndexIff(st, mac, ip, o.env); }
    case Disconnected(mac, connectCount) => DisconnectKeeps(st, mac, connectCount, o.env);
    case Heartbeat => HeartbeatKeeps(st, 0, o.env);
  }

  ghost predicate InStep(st: State, os: seq<Occurrence>)
    requires st.Sized()
  {
    forall i :: 0 <= i < |os| ==>
      Identified(Run(st, os[..i]), os[i].event) && KeepsStep(Run(st, os[..i]), os[i])
  }

  lemma InitiallyCoherent()
    ensures Coherent(Booted(), 0)
  {
    var st := Booted();
    assert forall i :: 0 <= i < MAX_CLIENTS ==> st.sessions[i] == NO_SESSION;
    assert forall i :: 0 <= i < ACL_SLOTS ==> st.acl[i] == EMPTY;
    forall m: Mac ensures BindingOf(st.acl, m) == AddressOf(st.sessions, m) {
      NoAddress(st.sessions, m);
    }
  }

  lemma {:induction false} RunKeepsIndex(st: State, os: seq<Occurrence>)
    requires Coherent(st, 0) && InStep(st, os)
    ensures Coherent(Run(st, os), 0)
  {
    if os != [] {
      var n := |os| - 1;
      forall i | 0 <= i < n
        ensures Identified(Run(st, os[..n][..i]), os[..n][i].event) && KeepsStep(Run(st, os[..n][..i]), os[..n][i])
      {
        assert os[..n][..i] == os[..i];
      }
      RunKeepsIndex(st, os[..n]);
      StepKeepsIndexIff(Run(st, os[..n]), os[n]);
    }
  }

  lemma AdmittedIffAddressed(st: State, ip: Ip)
    requires Coherent(st, 0) && ip != 0
    ensures Admits(st.acl, ip) <==> exists i :: 0 <= i < MAX_CLIENTS && st.sessions[i].active && st.sessions[i].ip == ip
  {
    AdmittedIffBound(st.acl, ip);
    if Admits(st.acl, ip) {
      var m: Mac :| BindingOf(st.acl, m) == ip;
      var i := FindMac(st.sessions, m);
      assert AddressOf(st.sessions, m) == ip;
      assert st.sessions[i].active && st.sessions[i].ip == ip;
    }
    forall i | 0 <= i < MAX_CLIENTS && st.sessions[i].active && st.sessions[i].ip == ip ensures Admits(st.acl, ip) {
      AddressAt(st.sessions, i);
      assert BindingOf(st.acl, st.sessions[i].mac) == ip;
    }
  }

  // After every run from boot, the packet path admits an address exactly when an active
  // session owns it, and no client has two active sessions.
  lemma {:induction false} AdmittedIffOwned(os: seq<Occurrence>, ip: Ip)
    requires InStep(Booted(), os) && ip != 0
    ensures var st := Run(Booted(), os);
      && (Admits(st.acl, ip) <==> exists i :: 0 <= i < MAX_CLIENTS && st.sessions[i].active && st.sessions[i].ip == ip)
      && (forall i, j :: 0 <= i < j < MAX_CLIENTS && st.sessions[i].active && st.sessions[j].active ==>
            st.sessions[i].mac != st.sessions[j].mac)
  {
    RunIsCoherent(os);
    AdmittedIffAddressed(Run(Booted(), os), ip);
  }

  lemma {:induction false} RunIsCoherent(os: seq<Occurrence>)
    requires InStep(Booted(), os)
    ensures Coherent(Run(Booted(), os), 0)
  {
    InitiallyCoherent();
    RunKeepsIndex(Booted(), os);
  }
}
