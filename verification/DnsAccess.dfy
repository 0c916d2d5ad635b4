// Whom the name server resolves for: its question to the portal, in main/dns_server.c and
// main/http_server.c, and how far its answer agrees with the packet path.

module DnsAccess {
  import opened Basics
  import opened Words
  import opened ClientAcl
  import opened PortalModel
  import opened PortalIndex
  import opened PortalAdmission
  import opened PortalEndings
  import opened PortalRuns
  import opened PacketHook
  import opened AccessPath
  import opened DnsServer
  import DnsKey
  import DnsCache

  // A session that answers for an address: the one that has it or, where none does, that of the
  // client last seen there.
  predicate AnswersFor(st: State, s: Session, ip: Ip, lookup: Option<Mac>) {
    s.active && (s.ip == ip || (!Owns(st, ip) && lookup == Some(s.mac)))
  }

  // Such a session has a whole second left.
  predicate HasTime(st: State, ip: Ip, lookup: Option<Mac>, now: Micros) {
    ip != 0 && exists k :: 0 <= k < |st.sessions| && AnswersFor(st, st.sessions[k], ip, lookup)
                 && st.sessions[k].endTime >= now + SECOND
  }

  function Authenticates(st: State, ip: Ip, lookup: Option<Mac>, env: Env): bool
    requires st.Sized()
  {
    GetRemaining(st, ip, lookup, env).1 > 0
  }

  // Only one session answers for an address.
  lemma OneAnswers(st: State, i: nat, j: nat, ip: Ip, lookup: Option<Mac>)
    requires SessionsOk(st.sessions) && ip != 0 && i < MAX_CLIENTS && j < MAX_CLIENTS
    requires AnswersFor(st, st.sessions[i], ip, lookup) && AnswersFor(st, st.sessions[j], ip, lookup)
    ensures i == j
  {
  }

  // What the query makes of that session.
  lemma SessionDecides(st: State, k: nat, ip: Ip, lookup: Option<Mac>, env: Env)
    requires SessionsOk(st.sessions) && st.Sized() && ip != 0 && k < MAX_CLIENTS
    requires AnswersFor(st, st.sessions[k], ip, lookup)
    ensures var left := st.sessions[k].endTime - env.now;
      GetRemaining(st, ip, lookup, env) ==
        if left <= 0 then (Revoke(st, k, env), -1)
        else (if st.sessions[k].ip == ip then st else Bind(st, k, ip, lookup.value), left / SECOND)
  {
    var i := First(st.sessions, (s: Session) => s.active && s.admitted && s.ip == ip);
    if i >= 0 {
      OneAnswers(st, i, k, ip, lookup);
    } else {
      var j := FindMac(st.sessions, lookup.value);
      OneAnswers(st, j, k, ip, lookup);
    }
  }

  lemma NobodyDecides(st: State, ip: Ip, lookup: Option<Mac>, env: Env)
    requires st.Sized() && forall k :: 0 <= k < MAX_CLIENTS ==> !AnswersFor(st, st.sessions[k], ip, lookup)
    ensures GetRemaining(st, ip, lookup, env) == (st, -1)
  {
    if ip != 0 && lookup.Some? {
      assert FindMac(st.sessions, lookup.value) >= 0 ==> Owns(st, ip);
    }
  }

  // Sessions that are not admitted answer for nobody, in any state.
  lemma UnadmittedAnswerNot(st: State, ip: Ip, lookup: Option<Mac>, env: Env)
    requires st.Sized() && forall k :: 0 <= k < MAX_CLIENTS && st.sessions[k].active ==> !st.sessions[k].admitted
    ensures GetRemaining(st, ip, lookup, env) == (st, -1)
  {
  }

  // Where the client table indexes the sessions, a query is answered with some seconds exactly
  // if a session that answers for the address has a whole second left.
  lemma AuthenticatesIff(st: State, ip: Ip, lookup: Option<Mac>, env: Env)
    requires SessionsOk(st.sessions) && st.Sized()
    ensures Authenticates(st, ip, lookup, env) <==> HasTime(st, ip, lookup, env.now)
  {
    if k :| 0 <= k < MAX_CLIENTS && AnswersFor(st, st.sessions[k], ip, lookup) {
      if ip != 0 {
        SessionDecides(st, k, ip, lookup, env);
        forall j | 0 <= j < MAX_CLIENTS && AnswersFor(st, st.sessions[j], ip, lookup) ensures j == k {
          OneAnswers(st, j, k, ip, lookup);
        }
      }
    } else {
      NobodyDecides(st, ip, lookup, env);
    }
  }

  // And the seconds are the whole ones left.
  lemma SecondsLeft(st: State, k: nat, ip: Ip, lookup: Option<Mac>, env: Env)
    requires SessionsOk(st.sessions) && st.Sized() && ip != 0 && k < MAX_CLIENTS
    requires AnswersFor(st, st.sessions[k], ip, lookup)
    ensures var (r, seconds) := GetRemaining(st, ip, lookup, env);
      var left := st.sessions[k].endTime - env.now;
      if left <= 0 then seconds == -1 && !r.sessions[k].active
      else seconds * SECOND <= left < (seconds + 1) * SECOND && r.sessions[k] == st.sessions[k].(ip := ip)
  {
    SessionDecides(st, k, ip, lookup, env);
    if st.sessions[k].endTime <= env.now {
      RevokeEnds(st, k, env);
    }
  }

  // The sessions at an address after it was asked about: the one that answered, and it is only
  // there still if it had not expired.
  lemma OwnerAfter(st: State, ip: Ip, lookup: Option<Mac>, env: Env, j: nat)
    requires SessionsOk(st.sessions) && st.Sized() && ip != 0 && j < MAX_CLIENTS
    requires var s := GetRemaining(st, ip, lookup, env).0.sessions[j]; s.active && s.ip == ip
    ensures AnswersFor(st, st.sessions[j], ip, lookup)
    ensures GetRemaining(st, ip, lookup, env).0.sessions[j].endTime == st.sessions[j].endTime > env.now
  {
    if k :| 0 <= k < MAX_CLIENTS && AnswersFor(st, st.sessions[k], ip, lookup) {
      SessionDecides(st, k, ip, lookup, env);
      if st.sessions[k].endTime <= env.now {
        RevokedIsGone(st, k, ip, lookup, env);
      }
    } else {
      NobodyDecides(st, ip, lookup, env);
    }
  }

  // Once it was revoked nobody has the address.
  lemma RevokedIsGone(st: State, k: nat, ip: Ip, lookup: Option<Mac>, env: Env)
    requires SessionsOk(st.sessions) && st.Sized() && ip != 0 && k < MAX_CLIENTS
    requires AnswersFor(st, st.sessions[k], ip, lookup)
    ensures forall j :: 0 <= j < MAX_CLIENTS && Revoke(st, k, env).sessions[j].active ==> Revoke(st, k, env).sessions[j].ip != ip
  {
    RefreshSurvivors(Close(st, k, false, env), env);
    forall j: nat | j < MAX_CLIENTS && Revoke(st, k, env).sessions[j].active
      ensures Revoke(st, k, env).sessions[j].ip != ip
    {
      assert Revoke(st, k, env).sessions[j] == st.sessions[j];
      OthersElsewhere(st, k, j, ip, lookup);
    }
  }

  lemma OthersElsewhere(st: State, k: nat, j: nat, ip: Ip, lookup: Option<Mac>)
    requires SessionsOk(st.sessions) && ip != 0 && k < MAX_CLIENTS && j < MAX_CLIENTS && j != k
    requires AnswersFor(st, st.sessions[k], ip, lookup) && st.sessions[j].active
    ensures st.sessions[j].ip != ip
  {
  }

  lemma OwnerWhenPositive(st: State, ip: Ip, lookup: Option<Mac>, env: Env)
    requires SessionsOk(st.sessions) && st.Sized() && Authenticates(st, ip, lookup, env)
    ensures Owns(GetRemaining(st, ip, lookup, env).0, ip)
  {
    if k :| 0 <= k < MAX_CLIENTS && AnswersFor(st, st.sessions[k], ip, lookup) {
      SessionDecides(st, k, ip, lookup, env);
      assert GetRemaining(st, ip, lookup, env).0.sessions[k].ip == ip;
    } else {
      NobodyDecides(st, ip, lookup, env);
    }
  }

  // A session at the address in its last second.
  predicate Ending(st: State, ip: Ip, now: Micros) {
    exists k :: 0 <= k < |st.sessions| && st.sessions[k].active && st.sessions[k].ip == ip
             && now < st.sessions[k].endTime < now + SECOND
  }

  lemma OwnerWhenNot(st: State, ip: Ip, lookup: Option<Mac>, env: Env)
    requires SessionsOk(st.sessions) && st.Sized() && ip != 0 && !Authenticates(st, ip, lookup, env)
    requires Owns(GetRemaining(st, ip, lookup, env).0, ip)
    ensures Ending(GetRemaining(st, ip, lookup, env).0, ip, env.now)
  {
    var r := GetRemaining(st, ip, lookup, env).0;
    var j :| 0 <= j < MAX_CLIENTS && r.sessions[j].active && r.sessions[j].ip == ip;
    OwnerAfter(st, ip, lookup, env, j);
    AuthenticatesIff(st, ip, lookup, env);
  }

  lemma QueryAgrees(st: State, ip: Ip, lookup: Option<Mac>, env: Env)
    requires Coherent(st, 0) && ip != 0
    ensures var (r, seconds) := GetRemaining(st, ip, lookup, env);
      && (seconds > 0 ==> Admits(r.acl, ip))
      && (Admits(r.acl, ip) ==> seconds > 0 || Ending(r, ip, env.now))
  {
    var r := GetRemaining(st, ip, lookup, env).0;
    GetRemainingKeeps(st, ip, lookup, env);
    AdmittedIffAddressed(r, ip);
    assert Admits(r.acl, ip) <==> Owns(r, ip);
    if Authenticates(st, ip, lookup, env) {
      OwnerWhenPositive(st, ip, lookup, env);
    } else if Owns(r, ip) {
      OwnerWhenNot(st, ip, lookup, env);
    }
  }

  // --- Over runs ---

  // After every run from boot, a query for a name is resolved, from the cache or upstream,
  // exactly if a session that answers for the sender's address has a whole second left; any
  // other gets the captive answer and leaves the cache as it is.
  lemma {:induction false} ResolvesIff(os: seq<Occurrence>, ip: Ip, lookup: Option<Mac>, env: Env,
                                       s: seq<DnsCache.Entry>, t: Turn, portal: Address)
    requires InStep(Booted(), os) && s != [] && !Ignored(t.packet)
    requires t.authenticated == Authenticates(Run(Booted(), os), ip, lookup, env)
    ensures Serve(s, t, portal) ==
      if HasTime(Run(Booted(), os), ip, lookup, env.now) then Resolve(s, DnsKey.KeyOf(t.packet), t)
      else Served(s, Captive(t.packet, portal))
  {
    RunIsCoherent(os);
    AuthenticatesIff(Run(Booted(), os), ip, lookup, env);
  }

  // The name server and the packet path agree, but for the last second of a session: once an
  // address was asked about, its packets pass if it was resolved for, and if they pass though
  // they do not stay local, it was, or its session is about to end.
  lemma {:induction false} PathAgrees(os: seq<Occurrence>, ip: Ip, lookup: Option<Mac>, env: Env,
                                      p: Packet, portal: Address, localCast: bool)
    requires InStep(Booted(), os) && ip != 0 && |p| >= IP_HEADER && IpOf(Source(p)) == ip
    ensures var st := Run(Booted(), os);
      var (r, seconds) := GetRemaining(st, ip, lookup, env);
      var passes := Filtered(p, true, portal, localCast, r.acl) == Some(p);
      && (seconds > 0 ==> passes)
      && (passes && Destination(p) != portal && !localCast ==> seconds > 0 || Ending(r, ip, env.now))
  {
    var st := Run(Booted(), os);
    RunIsCoherent(os);
    QueryAgrees(st, ip, lookup, env);
    HookConfines(p, portal, localCast, GetRemaining(st, ip, lookup, env).0.acl);
  }
}
