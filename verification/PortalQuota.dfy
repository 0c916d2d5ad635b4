// Charging sessions: checkpoints, ends, and the ledger that ties a client's quota record to
// the time its sessions have had.

module PortalQuota {
  import opened Basics
  import opened QuotaBooks
  import opened PortalModel
  import opened PortalIndex

  // --- The ledger of one client on one day ---

  function SessionOf(ss: seq<Session>, mac: Mac): Session {
    var i := FindMac(ss, mac);
    if i < 0 then NO_SESSION else ss[i]
  }

  // Seconds charged, microseconds had and sessions ended by a client.
  function ChargedTo(us: seq<Usage>, mac: Mac): nat {
    if us == [] then 0
    else ChargedTo(us[..|us| - 1], mac) + if us[|us| - 1].mac == mac then us[|us| - 1].charged else 0
  }

  function MicrosOf(us: seq<Usage>, mac: Mac): int {
    if us == [] then 0
    else MicrosOf(us[..|us| - 1], mac) + if us[|us| - 1].mac == mac then us[|us| - 1].micros else 0
  }

  function EndsOf(us: seq<Usage>, mac: Mac): nat {
    if us == [] then 0
    else EndsOf(us[..|us| - 1], mac) + if us[|us| - 1].mac == mac then 1 else 0
  }

  // An ended session lost less than its last started second.
  predicate FullyCharged(u: Usage) { u.micros < (u.charged + 1) * SECOND }

  ghost predicate AllCharged(us: seq<Usage>, mac: Mac) {
    forall i :: 0 <= i < |us| && us[i].mac == mac ==> FullyCharged(us[i])
  }

  ghost predicate Balanced(st: State, m: Mac, d: nat) {
    && BooksOk(st.books)
    && (SessionOf(st.sessions, m).active ==> SessionOf(st.sessions, m).dayId == d)
    && AllCharged(st.ended, m)
    && (m !in st.books.evicted ==>
          && UsedOf(st.books, m, d) == ChargedTo(st.ended, m) + SessionOf(st.sessions, m).accounted
          && ChargedTo(st.ended, m) + SessionOf(st.sessions, m).granted <= DAILY_QUOTA_SEC)
  }

  lemma {:induction false} SessionAfter(ss: seq<Session>, i: nat, s: Session, m: Mac)
    requires Owned(ss) && i < |ss|
    requires s.active ==> forall j :: 0 <= j < |ss| && j != i && ss[j].active ==> ss[j].mac != s.mac
    ensures SessionOf(ss[i := s], m) ==
      if s.active && m == s.mac then s
      else if ss[i].active && m == ss[i].mac then NO_SESSION
      else SessionOf(ss, m)
  {
    FindMacAfter(ss, i, s, m);
  }

  // Checkpoints move seconds from a session to its client's record, one for one; the cap at
  // the daily quota never bites.
  lemma CheckpointBalances(st: State, i: nat, env: Env, m: Mac, d: nat)
    requires st.Sized() && Owned(st.sessions) && i < MAX_CLIENTS && st.sessions[i].active
    requires Balanced(st, m, d) && d > 0
    ensures Balanced(Checkpoint(st, i, env), m, d)
  {
    var s := st.sessions[i];
    if Chargeable(s, env.now) {
      var st1 := if s.dayId != 0 then st else st.(dayHint := NextHint(st.dayHint, env.wall));
      var day := if s.dayId != 0 then s.dayId else CurrentDay(st.dayHint, env.wall);
      AddressAt(st.sessions, i);
      AccountBalances(st1, i, day, Elapsed(s, env.now), m, d);
    }
  }

  lemma AccountBalances(st: State, i: nat, day: nat, elapsed: nat, m: Mac, d: nat)
    requires st.Sized() && Owned(st.sessions) && i < MAX_CLIENTS && st.sessions[i].active
    requires st.sessions[i].accounted <= elapsed <= st.sessions[i].granted
    requires m == st.sessions[i].mac ==> day == d
    requires Balanced(st, m, d)
    ensures Balanced(Account(st, i, day, elapsed), m, d)
  {
    var s := st.sessions[i];
    var r := Account(st, i, day, elapsed);
    ChargeKeeps(st.books, s.mac, day, elapsed - s.accounted);
    AddressAt(st.sessions, i);
    SessionAfter(st.sessions, i, s.(accounted := elapsed), m);
    if m !in r.books.evicted {
      ChargeCharges(st.books, s.mac, day, elapsed - s.accounted, m, d);
    }
  }

  // --- The checkpoint schedule does not matter ---

  lemma ElapsedMonotone(s: Session, t: Micros, u: Micros)
    requires t <= u
    ensures Elapsed(s, t) <= Elapsed(s, u)
  {
  }

  lemma {:induction false} PlacedTwice(st: State, i: nat, s: Session, t: Session, b: Books, c: Books)
    requires i < |st.sessions|
    ensures var st1 := st.(books := b, sessions := st.sessions[i := s]);
      st1.(books := c, sessions := st1.sessions[i := t]) == st.(books := c, sessions := st.sessions[i := t])
  {
  }

  lemma AccountTwice(st: State, i: nat, day: nat, a: nat, b: nat)
    requires st.Sized() && BooksOk(st.books) && i < MAX_CLIENTS && st.sessions[i].mac != 0
    requires st.sessions[i].accounted <= a <= b
    ensures Account(Account(st, i, day, a), i, day, b) == Account(st, i, day, b)
  {
    var s, st1, st2 := st.sessions[i], Account(st, i, day, a), Account(st, i, day, b);
    ChargeTwice(st.books, s.mac, day, a - s.accounted, b - a);
    PlacedTwice(st, i, s.(accounted := a), s.(accounted := b), st1.books, st2.books);
  }

  function Later(e: Env, f: Env): Env { if e.now <= f.now then f else e }

  lemma CheckpointTwice(st: State, i: nat, e: Env, f: Env)
    requires st.Sized() && BooksOk(st.books) && i < MAX_CLIENTS && SessionOk(st.sessions[i]) && st.sessions[i].dayId != 0
    ensures Checkpoint(Checkpoint(st, i, e), i, f) == Checkpoint(st, i, Later(e, f))
  {
    var s := st.sessions[i];
    if e.now <= f.now { ElapsedMonotone(s, e.now, f.now); } else { ElapsedMonotone(s, f.now, e.now); }
    CheckpointIs(st, i, e);
    CheckpointIs(st, i, f);
    if Elapsed(s, e.now) > s.accounted {
      AccountedThen(st, i, Elapsed(s, e.now), f);
    }
  }

  // A checkpoint after seconds were accounted.
  lemma AccountedThen(st: State, i: nat, elapsed: nat, env: Env)
    requires st.Sized() && BooksOk(st.books) && i < MAX_CLIENTS && SessionOk(st.sessions[i]) && st.sessions[i].dayId != 0
    requires elapsed > st.sessions[i].accounted
    ensures var s := st.sessions[i];
      Checkpoint(Account(st, i, s.dayId, elapsed), i, env) ==
        Account(st, i, s.dayId, if Elapsed(s, env.now) > elapsed then Elapsed(s, env.now) else elapsed)
  {
    var s := st.sessions[i];
    CheckpointIs(Account(st, i, s.dayId, elapsed), i, env);
    if Elapsed(s, env.now) > elapsed {
      AccountTwice(st, i, s.dayId, elapsed, Elapsed(s, env.now));
    }
  }

  // A session that knows its day is charged on it for what has elapsed beyond what is accounted.
  lemma CheckpointIs(st: State, i: nat, env: Env)
    requires st.Sized() && i < MAX_CLIENTS && st.sessions[i].dayId != 0
    requires var s := st.sessions[i]; s.mac != 0 && s.startTime > 0 && s.granted > 0
    ensures var s := st.sessions[i];
      Checkpoint(st, i, env) ==
        if Elapsed(s, env.now) > s.accounted then Account(st, i, s.dayId, Elapsed(s, env.now)) else st
  {
  }

  function Checkpoints(st: State, i: nat, es: seq<Env>): (r: State)
    requires st.Sized() && i < MAX_CLIENTS
    ensures r.Sized()
  {
    if es == [] then st else Checkpoint(Checkpoints(st, i, es[..|es| - 1]), i, es[|es| - 1])
  }

  function Latest(es: seq<Env>): Env
    requires es != []
  {
    if |es| == 1 then es[0] else Later(Latest(es[..|es| - 1]), es[|es| - 1])
  }

  // However many checkpoints a session has had, in whatever order, the books are as after one
  // checkpoint at the latest of their times.
  lemma {:induction false} ScheduleIndependent(st: State, i: nat, es: seq<Env>)
    requires st.Sized() && BooksOk(st.books) && i < MAX_CLIENTS && SessionOk(st.sessions[i]) && st.sessions[i].dayId != 0
    requires es != []
    ensures Checkpoints(st, i, es) == Checkpoint(st, i, Latest(es))
  {
    if |es| == 1 {
      assert es[..0] == [];
    } else {
      var front := es[..|es| - 1];
      ScheduleIndependent(st, i, front);
      CheckpointTwice(st, i, Latest(front), es[|es| - 1]);
    }
  }

  // And what the client is charged on top is the time the session has run beyond what was
  // accounted, within the grant and the quota.
  lemma {:induction false} ScheduleCharges(st: State, i: nat, es: seq<Env>)
    requires st.Sized() && BooksOk(st.books) && i < MAX_CLIENTS && SessionOk(st.sessions[i]) && st.sessions[i].dayId != 0
    requires es != []
    requires st.sessions[i].mac !in Checkpoints(st, i, es).books.evicted
    ensures var s := st.sessions[i];
      UsedOf(Checkpoints(st, i, es).books, s.mac, s.dayId) ==
        Min(DAILY_QUOTA_SEC, UsedOf(st.books, s.mac, s.dayId) + Unaccounted(s, Latest(es).now))
  {
    var s := st.sessions[i];
    ScheduleIndependent(st, i, es);
    if Chargeable(s, Latest(es).now) {
      ChargeCharges(st.books, s.mac, s.dayId, Elapsed(s, Latest(es).now) - s.accounted, s.mac, s.dayId);
    }
    UsedWithin(st.books, s.mac, s.dayId);
  }

  lemma UsedWithin(b: Books, mac: Mac, day: nat)
    requires BooksOk(b)
    ensures UsedOf(b, mac, day) <= DAILY_QUOTA_SEC
  {
  }

  // Whole seconds a session has run and not been charged for.
  function Unaccounted(s: Session, now: Micros): nat {
    if Chargeable(s, now) then Elapsed(s, now) - s.accounted else 0
  }

  // --- Ends ---

  // A session ends fully charged exactly when nothing chargeable is left on it; this is what
  // the checkpoint before a revocation or an expiry provides, and what dropping it skips.
  lemma EndChargedIff(s: Session, now: Micros)
    requires SessionOk(s)
    ensures FullyCharged(Usage(s.mac, Min(now, s.endTime) - s.startTime, s.accounted)) <==> !Chargeable(s, now)
  {
  }

  lemma NothingLeft(st: State, i: nat, env: Env)
    requires st.Sized() && i < MAX_CLIENTS && SessionOk(st.sessions[i])
    ensures !Chargeable(Checkpoint(st, i, env).sessions[i], env.now)
    ensures SessionOk(Checkpoint(st, i, env).sessions[i])
  {
    CheckpointAccounts(st, i, env);
  }

  lemma {:induction false} LogSums(us: seq<Usage>, u: Usage, m: Mac)
    ensures ChargedTo(us + [u], m) == ChargedTo(us, m) + if u.mac == m then u.charged else 0
    ensures MicrosOf(us + [u], m) == MicrosOf(us, m) + if u.mac == m then u.micros else 0
    ensures EndsOf(us + [u], m) == EndsOf(us, m) + if u.mac == m then 1 else 0
  {
    assert (us + [u])[..|us|] == us;
  }

  lemma DismissBalances(st: State, i: nat, admitted: bool, now: Micros, m: Mac, d: nat)
    requires st.Sized() && Owned(st.sessions) && i < MAX_CLIENTS && st.sessions[i].active
    requires Balanced(st, m, d)
    requires st.sessions[i].mac == m ==> !Chargeable(st.sessions[i], now)
    ensures Balanced(Dismiss(st, i, admitted, now), m, d)
  {
    var s := st.sessions[i];
    var s' := s.(active := false, admitted := admitted);
    EndChargedIff(s, now);
    EndedSession(st.sessions, i, s', m);
    EndBalances(st, Dismiss(st, i, admitted, now), s, Usage(s.mac, Min(now, s.endTime) - s.startTime, s.accounted), m, d);
  }

  lemma {:induction false} EndedSession(ss: seq<Session>, i: nat, s: Session, m: Mac)
    requires Owned(ss) && i < |ss| && ss[i].active && !s.active
    ensures SessionOf(ss, ss[i].mac) == ss[i]
    ensures SessionOf(ss[i := s], m) == if ss[i].mac == m then NO_SESSION else SessionOf(ss, m)
  {
    AddressAt(ss, i);
    SessionAfter(ss, i, s, m);
  }

  // A session s goes and is logged as fully charged.
  lemma EndBalances(st: State, r: State, s: Session, u: Usage, m: Mac, d: nat)
    requires Balanced(st, m, d) && r.books == st.books && r.ended == st.ended + [u]
    requires SessionOk(s) && s.active && SessionOf(st.sessions, s.mac) == s
    requires u.mac == s.mac && u.charged == s.accounted && (s.mac == m ==> FullyCharged(u))
    requires SessionOf(r.sessions, m) == if s.mac == m then NO_SESSION else SessionOf(st.sessions, m)
    ensures Balanced(r, m, d)
  {
    LogSums(st.ended, u, m);
  }

  // --- Ownership survives ends ---

  lemma CheckpointOwns(st: State, i: nat, env: Env)
    requires st.Sized() && Owned(st.sessions) && i < MAX_CLIENTS && st.sessions[i].active
    ensures Owned(Checkpoint(st, i, env).sessions)
  {
    CheckpointAccounts(st, i, env);
  }

  lemma CloseOwns(st: State, i: nat, admitted: bool, env: Env)
    requires st.Sized() && Owned(st.sessions) && i < MAX_CLIENTS && st.sessions[i].active
    ensures Owned(Close(st, i, admitted, env).sessions)
  {
    CheckpointOwns(st, i, env);
  }

  lemma SweepOwns(st: State, i: nat, env: Env)
    requires st.Sized() && Owned(st.sessions) && i <= MAX_CLIENTS
    ensures Owned(SweepFrom(st, i, env).sessions)
  {
    SweepEffect(st, i, env);
    var r := SweepFrom(st, i, env);
    assert forall k :: i <= k < MAX_CLIENTS ==> SweptSlot(st.sessions[k], r.sessions[k], env);
  }

  lemma RefreshOwns(st: State, env: Env)
    requires st.Sized() && Owned(st.sessions)
    ensures Owned(Refresh(st, env).sessions)
  {
    SweepOwns(st, 0, env);
  }

  lemma RevokeOwns(st: State, i: nat, env: Env)
    requires st.Sized() && Owned(st.sessions) && i < MAX_CLIENTS
    ensures Owned(Revoke(st, i, env).sessions)
  {
    if st.sessions[i].active {
      CloseOwns(st, i, false, env);
      RefreshOwns(Close(st, i, false, env), env);
    }
  }

  // --- And so does the ledger ---

  lemma CloseBalances(st: State, i: nat, admitted: bool, env: Env, m: Mac, d: nat)
    requires st.Sized() && Owned(st.sessions) && i < MAX_CLIENTS && st.sessions[i].active
    requires Balanced(st, m, d) && d > 0
    ensures Balanced(Close(st, i, admitted, env), m, d)
  {
    CheckpointBalances(st, i, env, m, d);
    CheckpointOwns(st, i, env);
    NothingLeft(st, i, env);
    DismissBalances(Checkpoint(st, i, env), i, admitted, env.now, m, d);
  }

  lemma {:induction false} SweepBalances(st: State, i: nat, env: Env, m: Mac, d: nat)
    requires st.Sized() && Owned(st.sessions) && i <= MAX_CLIENTS && Balanced(st, m, d) && d > 0
    ensures Balanced(SweepFrom(st, i, env), m, d)
    decreases MAX_CLIENTS - i
  {
    if i < MAX_CLIENTS {
      if Expired(st.sessions[i], env.now) {
        CloseBalances(st, i, st.sessions[i].admitted, env, m, d);
        CloseOwns(st, i, st.sessions[i].admitted, env);
      }
      SweepBalances(SweepSlot(st, i, env), i + 1, env, m, d);
    }
  }

  lemma RefreshBalances(st: State, env: Env, m: Mac, d: nat)
    requires st.Sized() && Owned(st.sessions) && Balanced(st, m, d) && d > 0
    ensures Balanced(Refresh(st, env), m, d)
  {
    SweepBalances(st, 0, env, m, d);
  }

  lemma RevokeBalances(st: State, i: nat, env: Env, m: Mac, d: nat)
    requires st.Sized() && Owned(st.sessions) && i < MAX_CLIENTS && Balanced(st, m, d) && d > 0
    ensures Balanced(Revoke(st, i, env), m, d)
  {
    if st.sessions[i].active {
      CloseBalances(st, i, false, env, m, d);
      CloseOwns(st, i, false, env);
      RefreshBalances(Close(st, i, false, env), env, m, d);
    }
  }
}
