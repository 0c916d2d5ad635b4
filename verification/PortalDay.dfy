// Whole days: what a client can get out of its quota in one day, over every run.

module PortalDay {
  import opened Basics
  import opened QuotaBooks
  import opened PortalModel
  import opened PortalIndex
  import opened PortalAdmission
  import opened PortalRuns
  import opened PortalQuota
  import opened PortalReach
  import opened PortalLosses

  // --- Clients with nothing overdue are left alone ---

  predicate Overdue(ss: seq<Session>, m: Mac, now: Micros) {
    exists k :: 0 <= k < |ss| && ss[k].mac == m && Expired(ss[k], now)
  }

  // Nothing in the ledger of client m has changed.
  ghost predicate Spared(st: State, r: State, m: Mac, d: nat) {
    && BooksOk(r.books) && st.books.evicted <= r.books.evicted
    && ChargedTo(r.ended, m) == ChargedTo(st.ended, m)
    && (AllCharged(r.ended, m) <==> AllCharged(st.ended, m))
    && (m !in r.books.evicted ==> UsedOf(r.books, m, d) == UsedOf(st.books, m, d))
  }

  lemma CheckpointSpares(st: State, i: nat, env: Env, m: Mac, d: nat)
    requires st.Sized() && BooksOk(st.books) && i < MAX_CLIENTS && st.sessions[i].mac != m
    ensures Spared(st, Checkpoint(st, i, env), m, d)
  {
    var s := st.sessions[i];
    if Chargeable(s, env.now) {
      var day := if s.dayId != 0 then s.dayId else CurrentDay(st.dayHint, env.wall);
      ChargeSpares(st.books, s.mac, day, Elapsed(s, env.now) - s.accounted, m, d);
      assert Checkpoint(st, i, env).books == Charge(st.books, s.mac, day, Elapsed(s, env.now) - s.accounted);
    }
  }

  lemma ChargeSpares(b: Books, mac: Mac, day: nat, delta: nat, m: Mac, d: nat)
    requires BooksOk(b) && mac != 0 && mac != m
    ensures var r := Charge(b, mac, day, delta);
      BooksOk(r) && b.evicted <= r.evicted && (m !in r.evicted ==> UsedOf(r, m, d) == UsedOf(b, m, d))
  {
    ChargeKeeps(b, mac, day, delta);
    if m !in Charge(b, mac, day, delta).evicted {
      ChargeCharges(b, mac, day, delta, m, d);
    }
  }

  lemma {:induction false} LogSpares(us: seq<Usage>, u: Usage, m: Mac)
    requires u.mac != m
    ensures ChargedTo(us + [u], m) == ChargedTo(us, m) && (AllCharged(us + [u], m) <==> AllCharged(us, m))
  {
    LogSums(us, u, m);
    assert forall k :: 0 <= k < |us| ==> (us + [u])[k] == us[k];
  }

  lemma CloseSpares(st: State, i: nat, admitted: bool, env: Env, m: Mac, d: nat)
    requires st.Sized() && BooksOk(st.books) && i < MAX_CLIENTS && st.sessions[i].mac != m
    ensures Spared(st, Close(st, i, admitted, env), m, d)
  {
    var s := Checkpoint(st, i, env).sessions[i];
    CheckpointSpares(st, i, env, m, d);
    LogSpares(st.ended, Usage(s.mac, Min(env.now, s.endTime) - s.startTime, s.accounted), m);
  }

  lemma {:induction false} SweepSpares(st: State, i: nat, env: Env, m: Mac, d: nat)
    requires st.Sized() && BooksOk(st.books) && i <= MAX_CLIENTS && !Overdue(st.sessions, m, env.now)
    ensures Spared(st, SweepFrom(st, i, env), m, d)
    decreases MAX_CLIENTS - i
  {
    if i < MAX_CLIENTS {
      var next := SweepSlot(st, i, env);
      if Expired(st.sessions[i], env.now) {
        CloseSpares(st, i, st.sessions[i].admitted, env, m, d);
        assert forall k :: 0 <= k < MAX_CLIENTS && k != i ==> next.sessions[k] == st.sessions[k];
      }
      SweepSpares(next, i + 1, env, m, d);
    }
  }

  lemma SameSession(st: State, m: Mac, env: Env)
    requires st.Sized() && Owned(st.sessions) && !Overdue(st.sessions, m, env.now)
    ensures SessionOf(Refresh(st, env).sessions, m) == SessionOf(st.sessions, m)
  {
    RefreshSurvivors(st, env);
    RefreshOwns(st, env);
    var ss := Refresh(st, env).sessions;
    var j := FindMac(st.sessions, m);
    if j >= 0 {
      assert Surviving(st.sessions[j], env.now);
      AddressAt(ss, j);
    } else {
      forall k | 0 <= k < MAX_CLIENTS && ss[k].active ensures ss[k].mac != m {
        assert Surviving(st.sessions[k], env.now);
      }
    }
  }

  // A refresh neither mends nor spoils the ledger of a client with no overdue session.
  lemma RefreshSpares(st: State, env: Env, m: Mac, d: nat)
    requires st.Sized() && Owned(st.sessions) && BooksOk(st.books) && !Overdue(st.sessions, m, env.now)
    ensures st.books.evicted <= Refresh(st, env).books.evicted
    ensures m !in Refresh(st, env).books.evicted ==> (Balanced(Refresh(st, env), m, d) <==> Balanced(st, m, d))
  {
    SweepSpares(st, 0, env, m, d);
    SameSession(st, m, env);
  }

  // --- What an overdue session is charged ---

  // Whole seconds an expired session of client m still has to be charged.
  function Owed(ss: seq<Session>, m: Mac, now: Micros): nat {
    var i := First(ss, (s: Session) => s.mac == m && Expired(s, now));
    if i < 0 then 0 else Unaccounted(ss[i], now)
  }

  lemma {:induction false} OwedAt(ss: seq<Session>, i: nat, m: Mac, now: Micros)
    requires Owned(ss) && i < |ss|
    ensures ss[i].mac == m && Expired(ss[i], now) ==> Owed(ss, m, now) == Unaccounted(ss[i], now)
    ensures !Overdue(ss, m, now) ==> Owed(ss, m, now) == 0
  {
  }

  lemma {:induction false} OwedElsewhere(ss: seq<Session>, i: nat, s: Session, m: Mac, now: Micros)
    requires Owned(ss) && i < |ss| && !(ss[i].mac == m && Expired(ss[i], now)) && !(s.mac == m && Expired(s, now))
    ensures Owed(ss[i := s], m, now) == Owed(ss, m, now)
  {
    var a := First(ss, (s: Session) => s.mac == m && Expired(s, now));
    if a >= 0 {
      assert a != i && ss[i := s][a] == ss[a];
    }
  }

  lemma CloseOwes(st: State, i: nat, admitted: bool, env: Env, d: nat)
    requires st.Sized() && Owned(st.sessions) && i < MAX_CLIENTS && st.sessions[i].active
    requires Balanced(st, st.sessions[i].mac, d) && d > 0
    requires st.sessions[i].mac !in Close(st, i, admitted, env).books.evicted
    ensures UsedOf(Close(st, i, admitted, env).books, st.sessions[i].mac, d)
         == UsedOf(st.books, st.sessions[i].mac, d) + Unaccounted(st.sessions[i], env.now)
  {
    var s := st.sessions[i];
    AddressAt(st.sessions, i);
    if Chargeable(s, env.now) {
      ChargeKeeps(st.books, s.mac, s.dayId, Elapsed(s, env.now) - s.accounted);
      ChargeCharges(st.books, s.mac, s.dayId, Elapsed(s, env.now) - s.accounted, s.mac, d);
    }
  }

  lemma {:induction false} SweepEvicts(st: State, i: nat, env: Env)
    requires st.Sized() && BooksOk(st.books) && i <= MAX_CLIENTS
    ensures BooksOk(SweepFrom(st, i, env).books) && st.books.evicted <= SweepFrom(st, i, env).books.evicted
    decreases MAX_CLIENTS - i
  {
    if i < MAX_CLIENTS {
      CheckpointEvicts(st, i, env);
      SweepEvicts(SweepSlot(st, i, env), i + 1, env);
    }
  }

  lemma CheckpointEvicts(st: State, i: nat, env: Env)
    requires st.Sized() && BooksOk(st.books) && i < MAX_CLIENTS
    ensures BooksOk(Checkpoint(st, i, env).books) && st.books.evicted <= Checkpoint(st, i, env).books.evicted
  {
    var s := st.sessions[i];
    if Chargeable(s, env.now) {
      var day := if s.dayId != 0 then s.dayId else CurrentDay(st.dayHint, env.wall);
      ChargeKeeps(st.books, s.mac, day, Elapsed(s, env.now) - s.accounted);
    }
  }

  // What sweeping one expired slot does to the ledger of client m.
  lemma SlotOwes(st: State, i: nat, env: Env, m: Mac, d: nat)
    requires st.Sized() && Owned(st.sessions) && Balanced(st, m, d) && d > 0 && i < MAX_CLIENTS && Expired(st.sessions[i], env.now)
    requires m !in SweepSlot(st, i, env).books.evicted
    ensures var next := SweepSlot(st, i, env);
      && Owned(next.sessions) && Balanced(next, m, d)
      && next.sessions == st.sessions[i := next.sessions[i]] && !next.sessions[i].active
      && UsedOf(next.books, m, d) == UsedOf(st.books, m, d) + (if st.sessions[i].mac == m then Unaccounted(st.sessions[i], env.now) else 0)
  {
    var s := st.sessions[i];
    CloseBalances(st, i, s.admitted, env, m, d);
    CloseOwns(st, i, s.admitted, env);
    if s.mac == m {
      CloseOwes(st, i, s.admitted, env, d);
    } else {
      CloseSpares(st, i, s.admitted, env, m, d);
    }
  }

  // Another client's slot changes nothing for it.
  lemma {:induction false} StillOwed(ss: seq<Session>, next: seq<Session>, i: nat, m: Mac, now: Micros)
    requires Owned(ss) && |next| == |ss| && i < |ss| && ss[i].mac != m && next == ss[i := next[i]] && !next[i].active
    requires forall k :: 0 <= k < i ==> !(ss[k].mac == m && Expired(ss[k], now))
    ensures Owed(next, m, now) == Owed(ss, m, now)
    ensures forall k :: 0 <= k <= i ==> !(next[k].mac == m && Expired(next[k], now))
  {
    OwedElsewhere(ss, i, next[i], m, now);
    assert forall k :: 0 <= k < i ==> next[k] == ss[k];
  }

  lemma SlotEvicts(st: State, i: nat, env: Env)
    requires st.Sized() && BooksOk(st.books) && i < MAX_CLIENTS
    ensures SweepSlot(st, i, env).books.evicted <= SweepFrom(st, i, env).books.evicted
  {
    CheckpointEvicts(st, i, env);
    SweepEvicts(SweepSlot(st, i, env), i + 1, env);
  }

  // After the client's own slot the rest of the sweep leaves it alone.
  lemma ThenSpared(ss: seq<Session>, next: State, i: nat, env: Env, m: Mac, d: nat)
    requires next.Sized() && BooksOk(next.books) && Owned(ss) && i < MAX_CLIENTS && ss[i].mac == m && Expired(ss[i], env.now)
    requires next.sessions == ss[i := next.sessions[i]] && !next.sessions[i].active
    requires m !in SweepFrom(next, i + 1, env).books.evicted
    ensures UsedOf(SweepFrom(next, i + 1, env).books, m, d) == UsedOf(next.books, m, d)
    ensures Owed(ss, m, env.now) == Unaccounted(ss[i], env.now)
  {
    OwedAt(ss, i, m, env.now);
    OthersSwept(ss, next.sessions, i, m, env.now);
    SweepSpares(next, i + 1, env, m, d);
  }

  // A sweep charges a client exactly what its overdue session owes.
  lemma {:induction false} SweepOwes(st: State, i: nat, env: Env, m: Mac, d: nat)
    requires st.Sized() && Owned(st.sessions) && Balanced(st, m, d) && d > 0 && i <= MAX_CLIENTS
    requires forall k :: 0 <= k < i ==> !(st.sessions[k].mac == m && Expired(st.sessions[k], env.now))
    requires m !in SweepFrom(st, i, env).books.evicted
    ensures UsedOf(SweepFrom(st, i, env).books, m, d) == UsedOf(st.books, m, d) + Owed(st.sessions, m, env.now)
    decreases MAX_CLIENTS - i
  {
    if i == MAX_CLIENTS {
      OwedAt(st.sessions, 0, m, env.now);
    } else if !Expired(st.sessions[i], env.now) {
      SweepOwes(st, i + 1, env, m, d);
    } else if st.sessions[i].mac == m {
      OwnOwes(st, i, env, m, d);
    } else {
      var next := SweepSlot(st, i, env);
      SlotEvicts(st, i, env);
      SlotOwes(st, i, env, m, d);
      StillOwed(st.sessions, next.sessions, i, m, env.now);
      SweepOwes(next, i + 1, env, m, d);
    }
  }

  // Its own comes up: what the sweep charges after it is nothing of the client's.
  lemma OwnOwes(st: State, i: nat, env: Env, m: Mac, d: nat)
    requires st.Sized() && Owned(st.sessions) && Balanced(st, m, d) && d > 0 && i < MAX_CLIENTS
    requires Expired(st.sessions[i], env.now) && st.sessions[i].mac == m
    requires m !in SweepFrom(st, i, env).books.evicted
    ensures UsedOf(SweepFrom(st, i, env).books, m, d) == UsedOf(st.books, m, d) + Owed(st.sessions, m, env.now)
  {
    SlotEvicts(st, i, env);
    SlotOwes(st, i, env, m, d);
    ThenSpared(st.sessions, SweepSlot(st, i, env), i, env, m, d);
  }

  lemma {:induction false} OthersSwept(ss: seq<Session>, next: seq<Session>, i: nat, m: Mac, now: Micros)
    requires Owned(ss) && i < |ss| == |next| && ss[i].active && ss[i].mac == m && next == ss[i := next[i]] && !next[i].active
    ensures !Overdue(next, m, now)
  {
    forall k | 0 <= k < |next| && next[k].mac == m ensures !Expired(next[k], now) {
      assert k != i ==> next[k] == ss[k];
    }
  }

  // --- Starting sessions ---

  // Dropping a session that owes client m nothing.
  lemma RetireBalances(st: State, j: nat, now: Micros, m: Mac, d: nat)
    requires st.Sized() && Owned(st.sessions) && j < MAX_CLIENTS && st.sessions[j].active
    requires Balanced(st, m, d) && !Owes(st.sessions[j], now, m)
    ensures Balanced(Retire(st, j, now), m, d)
  {
    var s := st.sessions[j];
    EndChargedIff(s, now);
    EndedSession(st.sessions, j, s.(active := false), m);
    EndBalances(st, Retire(st, j, now), s, Usage(s.mac, Min(now, s.endTime) - s.startTime, s.accounted), m, d);
  }

  // Emptying the slot first makes no difference.
  function Emptied(st: State, slot: nat, now: Micros): (r: State)
    requires st.Sized() && slot < MAX_CLIENTS
    ensures r.Sized()
  {
    if st.sessions[slot].active then Retire(st, slot, now) else st
  }

  lemma EmptiedBalances(st: State, slot: nat, now: Micros, m: Mac, d: nat)
    requires st.Sized() && Owned(st.sessions) && slot < MAX_CLIENTS
    requires Balanced(st, m, d) && !Owes(st.sessions[slot], now, m)
    ensures var r := Emptied(st, slot, now);
      && Balanced(r, m, d) && Owned(r.sessions) && !r.sessions[slot].active && r.books == st.books
      && r.sessions == st.sessions[slot := st.sessions[slot].(active := false)]
  {
    if st.sessions[slot].active {
      RetireBalances(st, slot, now, m, d);
    } else {
      assert st.sessions[slot].(active := false) == st.sessions[slot];
    }
  }

  // A new session in a slot that costs m nothing unbalances its own client exactly when it is
  // longer than the rest of the quota, and nobody else.
  lemma InstallBalancesIff(st: State, slot: nat, s: Session, env: Env, m: Mac, d: nat)
    requires st.Sized() && Owned(st.sessions) && slot < MAX_CLIENTS && s.active && SessionOk(s) && s.accounted == 0
    requires forall k :: 0 <= k < MAX_CLIENTS && k != slot && st.sessions[k].active ==> st.sessions[k].mac != s.mac
    requires Balanced(st, m, d) && !Owes(st.sessions[slot], env.now, m)
    requires m == s.mac ==> s.dayId == d
    ensures Owned(Install(st, slot, s, env).sessions)
    ensures m != s.mac || m in st.books.evicted ==> Balanced(Install(st, slot, s, env), m, d)
    ensures m == s.mac && m !in st.books.evicted ==>
              (Balanced(Install(st, slot, s, env), m, d) <==> s.granted <= DAILY_QUOTA_SEC - UsedOf(st.books, m, d))
  {
    EmptiedBalances(st, slot, env.now, m, d);
    PlaceBalancesIff(Emptied(st, slot, env.now), Install(st, slot, s, env), slot, s, m, d);
  }

  lemma PlaceBalancesIff(st: State, r: State, slot: nat, s: Session, m: Mac, d: nat)
    requires st.Sized() && Owned(st.sessions) && slot < MAX_CLIENTS && s.active && SessionOk(s) && s.accounted == 0
    requires forall k :: 0 <= k < MAX_CLIENTS && st.sessions[k].active ==> st.sessions[k].mac != s.mac
    requires r.sessions == st.sessions[slot := s] && r.ended == st.ended && r.books == st.books && !st.sessions[slot].active
    requires Balanced(st, m, d) && (m == s.mac ==> s.dayId == d)
    ensures Owned(r.sessions)
    ensures m != s.mac || m in st.books.evicted ==> Balanced(r, m, d)
    ensures m == s.mac && m !in st.books.evicted ==> (Balanced(r, m, d) <==> s.granted <= DAILY_QUOTA_SEC - UsedOf(st.books, m, d))
  {
    assert FindMac(st.sessions, s.mac) < 0;
    SessionAfter(st.sessions, slot, s, m);
    UsedWithin(st.books, m, d);
  }

  // The owner of a live session has no overdue one.
  lemma {:induction false} NotOverdue(ss: seq<Session>, k: nat, s: Session, now: Micros)
    requires |ss| == MAX_CLIENTS && k < MAX_CLIENTS && s.endTime > now
    requires forall j :: 0 <= j < MAX_CLIENTS && j != k && ss[j].active ==> ss[j].mac != s.mac
    ensures !Overdue(ss[k := s], s.mac, now)
  {
    var r := ss[k := s];
    forall j | 0 <= j < MAX_CLIENTS && r[j].mac == s.mac ensures !Expired(r[j], now) {
      assert j != k ==> r[j] == ss[j];
    }
  }

  // A refresh right after a change: nobody's balance is mended or spoiled by it.
  lemma RefreshBalancesIff(st: State, env: Env, m: Mac, d: nat)
    requires st.Sized() && Owned(st.sessions) && BooksOk(st.books) && d > 0
    requires Balanced(st, m, d) || !Overdue(st.sessions, m, env.now)
    ensures var r := Refresh(st, env);
      && st.books.evicted <= r.books.evicted
      && (Balanced(st, m, d) ==> Balanced(r, m, d))
      && (m !in r.books.evicted ==> (Balanced(r, m, d) <==> Balanced(st, m, d)))
  {
    SweepEvicts(st, 0, env);
    if Balanced(st, m, d) {
      RefreshBalances(st, env, m, d);
    } else {
      RefreshSpares(st, env, m, d);
    }
  }

  lemma AdmitBalancesIff(st: State, slot: nat, s: Session, env: Env, m: Mac, d: nat)
    requires st.Sized() && Owned(st.sessions) && slot < MAX_CLIENTS && s.active && SessionOk(s) && s.accounted == 0 && s.endTime > env.now
    requires forall k :: 0 <= k < MAX_CLIENTS && k != slot && st.sessions[k].active ==> st.sessions[k].mac != s.mac
    requires Balanced(st, m, d) && !Owes(st.sessions[slot], env.now, m) && d > 0
    requires m == s.mac ==> s.dayId == d
    ensures var r := Refresh(Install(st, slot, s, env), env);
      var fits := m != s.mac || s.granted <= DAILY_QUOTA_SEC - UsedOf(st.books, m, d);
      && st.books.evicted <= r.books.evicted
      && (fits || m in st.books.evicted ==> Balanced(r, m, d))
      && (m !in r.books.evicted ==> (Balanced(r, m, d) <==> fits))
  {
    var installed := Install(st, slot, s, env);
    InstallBalancesIff(st, slot, s, env, m, d);
    if m == s.mac {
      NotOverdue(st.sessions, slot, s, env.now);
    }
    RefreshBalancesIff(installed, env, m, d);
  }

  lemma OpenBalancesIff(st: State, retired: int, ip: Ip, mac: Mac, token: Token, hash: DeviceHash, duration: nat, env: Env, m: Mac, d: nat)
    requires st.Sized() && Owned(st.sessions) && -1 <= retired < MAX_CLIENTS && mac != 0 && 0 < duration <= DAILY_QUOTA_SEC
    requires var slot := SlotFor(st.sessions, Some(mac), token, retired);
      && (forall k :: 0 <= k < MAX_CLIENTS && k != slot && st.sessions[k].active ==> st.sessions[k].mac != mac)
      && !Owes(st.sessions[slot], env.now, m)
    requires Balanced(st, m, d) && d > 0
    requires m == mac ==> CurrentDay(st.dayHint, env.wall) == d
    ensures var r := Open(st, retired, ip, Some(mac), token, hash, duration, env);
      var fits := m != mac || duration <= DAILY_QUOTA_SEC - UsedOf(st.books, m, d);
      && st.books.evicted <= r.books.evicted
      && (fits || m in st.books.evicted ==> Balanced(r, m, d))
      && (m !in r.books.evicted ==> (Balanced(r, m, d) <==> fits))
  {
    var slot := SlotFor(st.sessions, Some(mac), token, retired);
    AdmitBalancesIff(st, slot, OpenedSession(st, ip, Some(mac), token, hash, duration, env), env, m, d);
  }

  // The live session of another client that a newcomer confirming from its address takes over.
  function TakenOver(ss: seq<Session>, ip: Ip, mac: Mac, now: Micros): (k: int)
    requires |ss| == MAX_CLIENTS
    ensures k == -1 || (0 <= k < MAX_CLIENTS && ss[k].active && ss[k].ip == ip && ss[k].endTime > now)
  {
    if ip == 0 || FindMac(ss, mac) >= 0 || FindIp(ss, ip) < 0 || ss[FindIp(ss, ip)].endTime <= now then -1 else FindIp(ss, ip)
  }

  // At the moment it changes hands.
  lemma HandOverBalancesIff(st: State, r: State, k: nat, mac: Mac, now: Micros, m: Mac, d: nat)
    requires st.Sized() && Owned(st.sessions) && mac != 0 && k < MAX_CLIENTS && st.sessions[k].active
    requires FindMac(st.sessions, mac) < 0 && st.sessions[k].mac != mac && |r.sessions| == MAX_CLIENTS
    requires var s, s' := st.sessions[k], r.sessions[k];
      && r.sessions == st.sessions[k := s'] && r.books == st.books && r.ended == LogEnd(st, k, now).ended
      && s' == s.(mac := mac, ip := s'.ip, admitted := true, token := s'.token, deviceHash := s'.deviceHash)
    requires Balanced(st, m, d) && !Owes(st.sessions[k], now, m)
    ensures Owned(r.sessions)
    ensures var s := st.sessions[k];
      var fits := m != mac || (s.accounted == 0 && s.dayId == d && s.granted <= DAILY_QUOTA_SEC - UsedOf(st.books, m, d));
      && (fits || (m in st.books.evicted && s.dayId == d) ==> Balanced(r, m, d))
      && (m !in st.books.evicted ==> (Balanced(r, m, d) <==> fits))
  {
    var s := st.sessions[k];
    EndChargedIff(s, now);
    HandOverHistory(st.ended, Usage(s.mac, Min(now, s.endTime) - s.startTime, s.accounted), m);
    HandOverSessions(st.sessions, k, r.sessions[k], m);
    HandOverLedger(st, r, s, r.sessions[k], m, d);
  }

  // The owner's usage is logged,
  lemma {:induction false} HandOverHistory(us: seq<Usage>, u: Usage, m: Mac)
    requires AllCharged(us, m) && (u.mac == m ==> FullyCharged(u))
    ensures AllCharged(us + [u], m)
    ensures ChargedTo(us + [u], m) == ChargedTo(us, m) + if u.mac == m then u.charged else 0
  {
    LogSums(us, u, m);
  }

  // the newcomer has the session and the owner none,
  lemma {:induction false} HandOverSessions(ss: seq<Session>, k: nat, s: Session, m: Mac)
    requires Owned(ss) && k < MAX_CLIENTS && ss[k].active && s.active && SessionOk(s) && FindMac(ss, s.mac) < 0
    ensures Owned(ss[k := s])
    ensures SessionOf(ss, ss[k].mac) == ss[k] && SessionOf(ss, s.mac) == NO_SESSION
    ensures SessionOf(ss[k := s], m) == if m == s.mac then s else if m == ss[k].mac then NO_SESSION else SessionOf(ss, m)
  {
    AddressAt(ss, k);
    SessionAfter(ss, k, s, m);
  }

  // and the newcomer's ledger is as good as what the session brings with it.
  lemma HandOverLedger(st: State, r: State, s: Session, s': Session, m: Mac, d: nat)
    requires s.active && s'.active && s'.mac != s.mac && s'.accounted == s.accounted && s'.granted == s.granted && s'.dayId == s.dayId
    requires Balanced(st, m, d) && r.books == st.books && AllCharged(r.ended, m)
    requires SessionOf(st.sessions, s.mac) == s && SessionOf(st.sessions, s'.mac) == NO_SESSION
    requires SessionOf(r.sessions, m) == if m == s'.mac then s' else if m == s.mac then NO_SESSION else SessionOf(st.sessions, m)
    requires ChargedTo(r.ended, m) == ChargedTo(st.ended, m) + if s.mac == m then s.accounted else 0
    ensures var fits := m != s'.mac || (s.accounted == 0 && s.dayId == d && s.granted <= DAILY_QUOTA_SEC - UsedOf(st.books, m, d));
      && (fits || (m in st.books.evicted && s.dayId == d) ==> Balanced(r, m, d))
      && (m !in st.books.evicted ==> (Balanced(r, m, d) <==> fits))
  {
    UsedWithin(st.books, m, d);
    assert m == s.mac ==> ChargedTo(st.ended, m) + s.accounted <= DAILY_QUOTA_SEC || m in st.books.evicted;
  }

  lemma TakeOverBalancesIff(st: State, k: nat, ip: Ip, mac: Mac, token: Token, hash: DeviceHash, env: Env, m: Mac, d: nat)
    requires st.Sized() && Owned(st.sessions) && mac != 0 && k == TakenOver(st.sessions, ip, mac, env.now)
    requires Balanced(st, m, d) && d > 0 && !Owes(st.sessions[k], env.now, m)
    ensures var r := Reuse(st, k, ip, Some(mac), token, hash, env);
      var s := st.sessions[k];
      var fits := m != mac || (s.accounted == 0 && s.dayId == d && s.granted <= DAILY_QUOTA_SEC - UsedOf(st.books, m, d));
      && st.books.evicted <= r.books.evicted
      && (fits || (m in st.books.evicted && s.dayId == d) ==> Balanced(r, m, d))
      && (m !in r.books.evicted ==> (Balanced(r, m, d) <==> fits))
  {
    var st2 := HandedOver(st, k, Some(mac), env.now).(
      sessions := st.sessions[k := Reused(st.sessions[k], ip, Some(mac), token, hash)]);
    TakenBalancesIff(st, st2, k, ip, mac, token, hash, env, m, d);
    RefreshBalancesIff(st2, env, m, d);
  }

  // The state between the take-over and the refresh.
  lemma TakenBalancesIff(st: State, st2: State, k: nat, ip: Ip, mac: Mac, token: Token, hash: DeviceHash, env: Env, m: Mac, d: nat)
    requires st.Sized() && Owned(st.sessions) && mac != 0 && k == TakenOver(st.sessions, ip, mac, env.now)
    requires Balanced(st, m, d) && d > 0 && !Owes(st.sessions[k], env.now, m)
    requires st2 == HandedOver(st, k, Some(mac), env.now).(
      sessions := st.sessions[k := Reused(st.sessions[k], ip, Some(mac), token, hash)])
    ensures st2.Sized() && Owned(st2.sessions) && BooksOk(st2.books) && st2.books == st.books
    ensures Balanced(st2, m, d) || !Overdue(st2.sessions, m, env.now)
    ensures var s := st.sessions[k];
      var fits := m != mac || (s.accounted == 0 && s.dayId == d && s.granted <= DAILY_QUOTA_SEC - UsedOf(st.books, m, d));
      && (fits || (m in st.books.evicted && s.dayId == d) ==> Balanced(st2, m, d))
      && (m !in st.books.evicted ==> (Balanced(st2, m, d) <==> fits))
  {
    assert FindMac(st.sessions, mac) < 0 && st.sessions[k].mac != mac;
    HandOverBalancesIff(st, st2, k, mac, env.now, m, d);
    if m == mac {
      NotOverdue(st.sessions, k, st2.sessions[k], env.now);
    }
  }

  lemma OwnReuseBalances(st: State, j: nat, ip: Ip, mac: Mac, token: Token, hash: DeviceHash, env: Env, m: Mac, d: nat)
    requires st.Sized() && Owned(st.sessions) && j < MAX_CLIENTS && st.sessions[j].active && st.sessions[j].mac == mac
    requires Balanced(st, m, d) && d > 0
    ensures Balanced(Reuse(st, j, ip, Some(mac), token, hash, env), m, d)
  {
    var s := Reused(st.sessions[j], ip, Some(mac), token, hash);
    AddressAt(st.sessions, j);
    SessionAfter(st.sessions, j, s, m);
    RefreshBalances(st.(sessions := st.sessions[j := s]), env, m, d);
  }

  lemma StartBalancesIff(st: State, ip: Ip, mac: Mac, token: Token, hash: DeviceHash, granted: int, env: Env, m: Mac, d: nat)
    requires st.Sized() && Owned(st.sessions) && mac != 0 && ip != 0 && FreshToken(st.sessions, token) && 0 < granted <= DAILY_QUOTA_SEC
    requires Balanced(st, m, d) && d > 0 && (m == mac ==> CurrentDay(st.dayHint, env.wall) == d)
    requires !Loses(st.sessions, ip, mac, env.now, m)
    requires m == mac && m !in st.books.evicted ==> granted <= DAILY_QUOTA_SEC - UsedOf(st.books, m, d)
    ensures var r := StartOrResume(st, ip, Some(mac), token, hash, granted, env).0;
      var k := TakenOver(st.sessions, ip, mac, env.now);
      var fits := m == mac && k >= 0 ==>
        st.sessions[k].accounted == 0 && st.sessions[k].dayId == d && st.sessions[k].granted <= DAILY_QUOTA_SEC - UsedOf(st.books, m, d);
      && (fits || (m in st.books.evicted && (k >= 0 ==> st.sessions[k].dayId == d)) ==> Balanced(r, m, d))
      && (m !in r.books.evicted ==> (Balanced(r, m, d) <==> fits))
  {
    var found := FindExisting(st.sessions, ip, Some(mac), token);
    if found >= 0 && st.sessions[found].endTime > env.now {
      if st.sessions[found].mac == mac {
        OwnReuseBalances(st, found, ip, mac, token, hash, env, m, d);
      } else {
        TakeOverBalancesIff(st, found, ip, mac, token, hash, env, m, d);
      }
    } else if found >= 0 {
      ReplaceBalances(st, found, ip, mac, token, hash, granted, env, m, d);
    } else {
      OpenBalancesIff(st, found, ip, mac, token, hash, granted, env, m, d);
    }
  }

  // An expired session makes way for the new one.
  lemma ReplaceBalances(st: State, j: nat, ip: Ip, mac: Mac, token: Token, hash: DeviceHash, granted: nat, env: Env, m: Mac, d: nat)
    requires st.Sized() && Owned(st.sessions) && mac != 0 && FreshToken(st.sessions, token) && 0 < granted <= DAILY_QUOTA_SEC
    requires Balanced(st, m, d) && d > 0 && (m == mac ==> CurrentDay(st.dayHint, env.wall) == d)
    requires j < MAX_CLIENTS && st.sessions[j].active && !Owes(st.sessions[j], env.now, m)
    requires FindMac(st.sessions, mac) < 0 || FindMac(st.sessions, mac) == j
    requires m == mac && m !in st.books.evicted ==> granted <= DAILY_QUOTA_SEC - UsedOf(st.books, m, d)
    ensures Balanced(Open(Retire(st, j, env.now), j, ip, Some(mac), token, hash, granted, env), m, d)
  {
    var r := Retire(st, j, env.now);
    RetireBalances(st, j, env.now, m, d);
    RetiredIsFree(st, j, mac, token, env.now);
    assert FindMac(r.sessions, mac) < 0;
    OpenBalancesIff(r, j, ip, mac, token, hash, granted, env, m, d);
  }

  lemma ResumeBalancesIff(st: State, mac: Mac, token: Token, hash: DeviceHash, granted: int, env: Env, m: Mac, d: nat)
    requires st.Sized() && Owned(st.sessions) && mac != 0 && FreshToken(st.sessions, token) && 0 < granted <= DAILY_QUOTA_SEC
    requires Balanced(st, m, d) && d > 0 && (m == mac ==> CurrentDay(st.dayHint, env.wall) == d)
    requires !Loses(st.sessions, 0, mac, env.now, m)
    ensures var r := StartOrResume(st, 0, Some(mac), token, hash, granted, env).0;
      var fits := m != mac || granted + Owed(st.sessions, m, env.now) <= DAILY_QUOTA_SEC - UsedOf(st.books, m, d);
      && (fits || m in st.books.evicted ==> Balanced(r, m, d))
      && (m !in r.books.evicted ==> (Balanced(r, m, d) <==> fits))
  {
    var opening := st.(globalEnd := env.now + Duration(granted) * SECOND);
    var st0 := Refresh(opening, env);
    RefreshBalances(opening, env, m, d);
    RefreshOwns(opening, env);
    RefreshSurvivors(opening, env);
    SweepEvicts(opening, 0, env);
    SweepKeepsDay(opening, 0, env);
    if m !in st0.books.evicted {
      SweepOwes(opening, 0, env, m, d);
    }
    var slot := ResumeSlot(st.sessions, st0.sessions, mac, token, env.now);
    ResumeDrops(st.sessions, st0.sessions, mac, token, env.now, m);
    ResumeUnfolds(st, mac, token, hash, granted, env);
    OpenBalancesIff(st0, -1, 0, mac, token, hash, granted, env, m, d);
  }

  // --- Lookups ---

  lemma RemainingBalances(st: State, mac: Mac, env: Env, m: Mac, d: nat)
    requires st.Sized() && mac != 0 && Balanced(st, m, d)
    requires m == mac ==> CurrentDay(st.dayHint, env.wall) == d
    ensures var (r, remaining) := QuotaRemaining(st, mac, env);
      && Balanced(r, m, d)
      && CurrentDay(r.dayHint, env.wall) == CurrentDay(st.dayHint, env.wall)
      && (m == mac && m !in r.books.evicted ==> remaining == DAILY_QUOTA_SEC - UsedOf(r.books, m, d))
  {
    var day := CurrentDay(st.dayHint, env.wall);
    LookupKeeps(st.books, mac, day);
    if m !in FindOrAlloc(st.books, mac, day).0.evicted {
      LookupCharges(st.books, mac, day, m, d);
      if m == mac {
        RemainingIsRest(st.books, mac, day);
      }
    }
  }

  // The day does not change inside an event.
  lemma {:induction false} SweepKeepsDay(st: State, i: nat, env: Env)
    requires st.Sized() && i <= MAX_CLIENTS
    ensures CurrentDay(SweepFrom(st, i, env).dayHint, env.wall) == CurrentDay(st.dayHint, env.wall)
    decreases MAX_CLIENTS - i
  {
    if i < MAX_CLIENTS {
      SweepKeepsDay(SweepSlot(st, i, env), i + 1, env);
    }
  }

  // --- Events ---

  ghost predicate OnDay(st: State, o: Occurrence, d: nat) {
    CurrentDay(st.dayHint, o.env.wall) == d
  }

  // A start for client `mac` gives client m no time it has had already: what it is granted and
  // what its overdue session owes fit into the rest of its quota; and a session it takes over
  // from another client is of that day, fits as well, and has not been charged to that client.
  predicate Fits(ss: seq<Session>, ip: Ip, mac: Mac, granted: int, rest: int, now: Micros, m: Mac, d: nat)
    requires |ss| == MAX_CLIENTS
  {
    m == mac ==>
      if ip == 0 then granted + Owed(ss, m, now) <= rest
      else
        var k := TakenOver(ss, ip, m, now);
        k >= 0 ==> ss[k].accounted == 0 && ss[k].dayId == d && ss[k].granted <= rest
  }

  predicate Fair(st: State, o: Occurrence, m: Mac, d: nat)
    requires st.Sized()
  {
    match o.event
    case ConfirmPressed(ip, _, _, uplink, _, _) =>
      ConfirmMac(o.event) == Some(m) && ConfirmStarts(st, m, uplink, o.env) ==>
        var rest := QuotaRemaining(st, m, o.env).1;
        Fits(st.sessions, ip, m, Grant(rest, o.env.wall), rest, o.env.now, m, d)
    case Connected(mac, uplink, _, _) =>
      mac == m && ConnectStarts(st, m, uplink, o.env) ==>
        var rest := QuotaRemaining(st, m, o.env).1;
        Fits(st.sessions, 0, m, rest, rest, o.env.now, m, d)
    case _ => true
  }

  lemma StartOrResumeBalancesIff(st: State, ip: Ip, mac: Mac, token: Token, hash: DeviceHash, granted: int, rest: int, env: Env, m: Mac, d: nat)
    requires st.Sized() && Owned(st.sessions) && mac != 0 && FreshToken(st.sessions, token) && 0 < granted <= rest <= DAILY_QUOTA_SEC
    requires Balanced(st, m, d) && d > 0 && (m == mac ==> CurrentDay(st.dayHint, env.wall) == d)
    requires !Loses(st.sessions, ip, mac, env.now, m)
    requires m == mac && m !in st.books.evicted ==> rest == DAILY_QUOTA_SEC - UsedOf(st.books, m, d)
    ensures var r := StartOrResume(st, ip, Some(mac), token, hash, granted, env).0;
      var fits := Fits(st.sessions, ip, mac, granted, rest, env.now, m, d);
      && (fits ==> Balanced(r, m, d))
      && (m !in r.books.evicted ==> (Balanced(r, m, d) <==> fits))
  {
    StartEvicts(st, ip, mac, token, hash, granted, env);
    if ip != 0 {
      StartBalancesIff(st, ip, mac, token, hash, granted, env, m, d);
    } else {
      ResumeBalancesIff(st, mac, token, hash, granted, env, m, d);
    }
  }

  // The event neither takes uncharged time from client m nor grants it too much.
  predicate Undisturbed(st: State, o: Occurrence, m: Mac, d: nat)
    requires st.Sized()
  {
    !LosesTime(st, o, m) && Fair(st, o, m, d)
  }

  lemma ConfirmBalancesIff(st: State, e: Event, env: Env, m: Mac, d: nat)
    requires st.Sized() && Owned(st.sessions) && e.ConfirmPressed? && Identified(st, e)
    requires Balanced(st, m, d) && d > 0 && OnDay(st, Occurrence(e, env), d)
    requires !LosesTime(st, Occurrence(e, env), m)
    ensures var r := Step(st, Occurrence(e, env));
      && (Fair(st, Occurrence(e, env), m, d) ==> Balanced(r, m, d))
      && (m !in r.books.evicted ==> (Balanced(r, m, d) <==> Fair(st, Occurrence(e, env), m, d)))
  {
    var mac := ConfirmMac(e).value;
    var (st1, remaining) := QuotaRemaining(st, mac, env);
    var (st2, ok) := EnsureNapt(st1, env);
    ConfirmUnfolds(st, e, env);
    RemainingBalances(st, mac, env, m, d);
    if ConfirmStarts(st, mac, e.uplink, env) {
      var granted := Grant(remaining, env.wall);
      QueryAfterStartOrResume(st2, e.ip, mac, e.token, e.hash, granted, e.lookup, env);
      StartOrResumeBalancesIff(st2, e.ip, mac, e.token, e.hash, granted, remaining, env, m, d);
    }
  }

  lemma StartEvicts(st: State, ip: Ip, mac: Mac, token: Token, hash: DeviceHash, granted: int, env: Env)
    requires st.Sized() && BooksOk(st.books)
    ensures st.books.evicted <= StartOrResume(st, ip, Some(mac), token, hash, granted, env).0.books.evicted
  {
    if ip == 0 {
      var st0 := Refresh(st.(globalEnd := env.now + Duration(granted) * SECOND), env);
      OpeningEvicts(st, granted, env);
      StartAtEvicts(st0, FindExisting(st0.sessions, ip, Some(mac), token), ip, mac, token, hash, granted, env);
    } else {
      StartAtEvicts(st, FindExisting(st.sessions, ip, Some(mac), token), ip, mac, token, hash, granted, env);
    }
  }

  lemma OpeningEvicts(st: State, granted: int, env: Env)
    requires st.Sized() && BooksOk(st.books)
    ensures var r := Refresh(st.(globalEnd := env.now + Duration(granted) * SECOND), env);
      BooksOk(r.books) && st.books.evicted <= r.books.evicted
  {
    SweepEvicts(st.(globalEnd := env.now + Duration(granted) * SECOND), 0, env);
  }

  lemma StartAtEvicts(st: State, found: int, ip: Ip, mac: Mac, token: Token, hash: DeviceHash, granted: int, env: Env)
    requires st.Sized() && BooksOk(st.books) && -1 <= found < MAX_CLIENTS
    ensures st.books.evicted <= StartAt(st, found, ip, Some(mac), token, hash, granted, env).0.books.evicted
  {
    if found >= 0 && st.sessions[found].endTime > env.now {
      var st1 := HandedOver(st, found, Some(mac), env.now);
      SweepEvicts(st1.(sessions := st.sessions[found := Reused(st.sessions[found], ip, Some(mac), token, hash)]), 0, env);
    } else {
      var st1 := if found >= 0 then Retire(st, found, env.now) else st;
      var slot := SlotFor(st1.sessions, Some(mac), token, found);
      SweepEvicts(Install(st1, slot, OpenedSession(st1, ip, Some(mac), token, hash, Duration(granted), env), env), 0, env);
    }
  }

  lemma ConnectBalancesIff(st: State, e: Event, env: Env, m: Mac, d: nat)
    requires st.Sized() && Owned(st.sessions) && e.Connected? && Identified(st, e)
    requires Balanced(st, m, d) && d > 0 && OnDay(st, Occurrence(e, env), d)
    requires !LosesTime(st, Occurrence(e, env), m)
    ensures var r := Step(st, Occurrence(e, env));
      && (Fair(st, Occurrence(e, env), m, d) ==> Balanced(r, m, d))
      && (m !in r.books.evicted ==> (Balanced(r, m, d) <==> Fair(st, Occurrence(e, env), m, d)))
  {
    if e.mac != 0 && e.uplink {
      var (st1, remaining) := QuotaRemaining(st, e.mac, env);
      var (st2, ok) := EnsureNapt(st1, env);
      RemainingBalances(st, e.mac, env, m, d);
      if ConnectStarts(st, e.mac, e.uplink, env) {
        StartOrResumeBalancesIff(st2, 0, e.mac, e.token, e.hash, remaining, remaining, env, m, d);
      }
    }
  }

  // Moving a session to another address moves no seconds.
  lemma MoveBalances(st: State, j: nat, s: Session, m: Mac, d: nat)
    requires st.Sized() && Owned(st.sessions) && j < MAX_CLIENTS && st.sessions[j].active
    requires s == st.sessions[j].(ip := s.ip, admitted := s.admitted)
    requires Balanced(st, m, d)
    ensures Balanced(st.(sessions := st.sessions[j := s]), m, d)
  {
    AddressAt(st.sessions, j);
    SessionAfter(st.sessions, j, s, m);
  }

  lemma QueryBalances(st: State, ip: Ip, lookup: Option<Mac>, env: Env, m: Mac, d: nat)
    requires st.Sized() && Owned(st.sessions) && Balanced(st, m, d) && d > 0
    ensures Balanced(GetRemaining(st, ip, lookup, env).0, m, d)
  {
    var i := First(st.sessions, (s: Session) => s.active && s.admitted && s.ip == ip);
    var j := if lookup.Some? then FindMac(st.sessions, lookup.value) else -1;
    if i >= 0 {
      RevokeBalances(st, i, env, m, d);
    } else if j >= 0 {
      RevokeBalances(st, j, env, m, d);
      MoveBalances(st, j, st.sessions[j].(ip := ip), m, d);
    }
  }

  lemma LeaseBalances(st: State, mac: Mac, ip: Ip, env: Env, m: Mac, d: nat)
    requires st.Sized() && Owned(st.sessions) && Balanced(st, m, d) && d > 0
    ensures Balanced(IpAssigned(st, mac, ip, env), m, d)
  {
    var j := First(st.sessions, (s: Session) => s.active && s.mac == mac && s.endTime > env.now);
    if mac != 0 && ip != 0 && j >= 0 {
      MoveBalances(st, j, st.sessions[j].(ip := ip, admitted := true), m, d);
      RefreshBalances(Rebind(st, j, ip, mac), env, m, d);
    }
  }

  lemma {:induction false} ScanBalances(scan: Scan, mac: Mac, i: nat, env: Env, m: Mac, d: nat)
    requires scan.st.Sized() && Owned(scan.st.sessions) && i <= MAX_CLIENTS && -1 <= scan.firstActive < MAX_CLIENTS
    requires Balanced(scan.st, m, d) && d > 0
    ensures var r := DisconnectFrom(scan, mac, i, env).st; Owned(r.sessions) && Balanced(r, m, d)
    decreases MAX_CLIENTS - i
  {
    if i < MAX_CLIENTS {
      if !scan.st.sessions[i].active {
        ScanBalances(scan, mac, i + 1, env, m, d);
      } else {
        RevokeOwns(scan.st, i, env);
        RevokeBalances(scan.st, i, env, m, d);
        var hit := scan.st.sessions[i].mac == mac;
        ScanBalances(Scan(if hit then Revoke(scan.st, i, env) else scan.st, scan.matched || hit, scan.count + 1,
                          if scan.firstActive < 0 then i else scan.firstActive), mac, i + 1, env, m, d);
      }
    }
  }

  lemma DisconnectBalances(st: State, mac: Mac, connectCount: int, env: Env, m: Mac, d: nat)
    requires st.Sized() && Owned(st.sessions) && Balanced(st, m, d) && d > 0
    ensures Balanced(Disconnect(st, mac, connectCount, env), m, d)
  {
    ScanBalances(Scan(st, false, 0, -1), mac, 0, env, m, d);
    var scan := DisconnectFrom(Scan(st, false, 0, -1), mac, 0, env);
    if scan.firstActive >= 0 {
      RevokeBalances(scan.st, scan.firstActive, env, m, d);
    }
  }

  lemma {:induction false} HeartbeatBalances(st: State, i: nat, env: Env, m: Mac, d: nat)
    requires st.Sized() && Owned(st.sessions) && i <= MAX_CLIENTS && Balanced(st, m, d) && d > 0
    ensures Balanced(HeartbeatFrom(st, i, env), m, d)
    decreases MAX_CLIENTS - i
  {
    if i < MAX_CLIENTS {
      if st.sessions[i].active {
        var st1 := Checkpoint(st, i, env);
        CheckpointOwns(st, i, env);
        CheckpointBalances(st, i, env, m, d);
        RevokeOwns(st1, i, env);
        RevokeBalances(st1, i, env, m, d);
      }
      HeartbeatBalances(HeartbeatSlot(st, i, env), i + 1, env, m, d);
    }
  }

  lemma {:induction false} ChargedAll(us: seq<Usage>, vs: seq<Usage>, m: Mac)
    requires Grew(us, vs) && AllCharged(us, m)
    ensures AllCharged(vs, m) <==> Charged(us, vs, m)
  {
    assert forall i :: 0 <= i < |us| ==> vs[i] == vs[..|us|][i];
  }

  // One event of a day, whoever it is about: it keeps the ledger of client m balanced if and
  // only if it neither takes uncharged time from m nor grants m too much.
  lemma StepBalancesIff(st: State, o: Occurrence, m: Mac, d: nat)
    requires st.Sized() && Owned(st.sessions) && Identified(st, o.event)
    requires Balanced(st, m, d) && d > 0 && OnDay(st, o, d)
    ensures Undisturbed(st, o, m, d) ==> Balanced(Step(st, o), m, d)
    ensures m !in Step(st, o).books.evicted ==> (Balanced(Step(st, o), m, d) <==> Undisturbed(st, o, m, d))
  {
    StepLosesIff(st, o, m);
    ChargedAll(st.ended, Step(st, o).ended, m);
    if !LosesTime(st, o, m) {
      match o.event
      case ConfirmPressed(_, _, _, _, _, _) => ConfirmBalancesIff(st, o.event, o.env, m, d);
      case Queried(ip, lookup) => QueryBalances(st, ip, lookup, o.env, m, d);
      case Connected(_, _, _, _) => ConnectBalancesIff(st, o.event, o.env, m, d);
      case Leased(mac, ip) => LeaseBalances(st, mac, ip, o.env, m, d);
      case Disconnected(mac, connectCount) => DisconnectBalances(st, mac, connectCount, o.env, m, d);
      case Heartbeat => HeartbeatBalances(st, 0, o.env, m, d);
    }
  }

  // --- Runs ---

  // A run in which every client is identified, every event happens on day d, and none disturbs
  // the ledger of client m.
  ghost predicate DayOf(st: State, os: seq<Occurrence>, m: Mac, d: nat)
    requires st.Sized()
  {
    forall i :: 0 <= i < |os| ==>
      var before := Run(st, os[..i]);
      Identified(before, os[i].event) && Undisturbed(before, os[i], m, d) && OnDay(before, os[i], d)
  }

  lemma {:induction false} DayPrefix(st: State, os: seq<Occurrence>, m: Mac, d: nat)
    requires st.Sized() && DayOf(st, os, m, d) && os != []
    ensures DayOf(st, os[..|os| - 1], m, d)
  {
    var front := os[..|os| - 1];
    forall i | 0 <= i < |front|
      ensures var before := Run(st, front[..i]);
        Identified(before, front[i].event) && Undisturbed(before, front[i], m, d) && OnDay(before, front[i], d)
    {
      assert front[..i] == os[..i];
    }
  }

  lemma {:induction false} RunBalances(st: State, os: seq<Occurrence>, m: Mac, d: nat)
    requires st.Sized() && Owned(st.sessions) && Balanced(st, m, d) && DayOf(st, os, m, d) && d > 0
    ensures Balanced(Run(st, os), m, d) && Owned(Run(st, os).sessions)
  {
    if os != [] {
      var n := |os| - 1;
      DayPrefix(st, os, m, d);
      RunBalances(st, os[..n], m, d);
      StepBalancesIff(Run(st, os[..n]), os[n], m, d);
      StepLasts(Run(st, os[..n]), os[n]);
    }
  }

  lemma {:induction false} BootBalances(m: Mac, d: nat)
    ensures Owned(Booted().sessions) && Balanced(Booted(), m, d)
  {
    NobodyYet(m);
    NoRecord(m, d);
  }

  lemma NobodyYet(m: Mac)
    ensures Owned(Booted().sessions) && SessionOf(Booted().sessions, m) == NO_SESSION
  {
    InitiallyCoherent();
  }

  lemma NoRecord(m: Mac, d: nat)
    ensures BooksOk(NoBooks()) && UsedOf(NoBooks(), m, d) == 0
  {
    assert forall i :: 0 <= i < QUOTA_SLOTS ==> NoBooks().records[i] == NO_RECORD;
  }

  // Time a client has had by `now`: its ended sessions and the one that is running.
  function TimeHad(st: State, m: Mac, now: Micros): int {
    var s := SessionOf(st.sessions, m);
    MicrosOf(st.ended, m) + if s.active then Min(now, s.endTime) - s.startTime else 0
  }

  function SessionsHad(st: State, m: Mac): nat {
    EndsOf(st.ended, m) + if SessionOf(st.sessions, m).active then 1 else 0
  }

  lemma {:induction false} MicrosBound(us: seq<Usage>, m: Mac)
    requires AllCharged(us, m)
    ensures MicrosOf(us, m) <= ChargedTo(us, m) * SECOND + EndsOf(us, m) * (SECOND - 1)
  {
    if us != [] {
      MicrosBound(us[..|us| - 1], m);
      assert us[|us| - 1].mac == m ==> FullyCharged(us[|us| - 1]);
    }
  }

  // The daily bound. However a client reconnects and whatever others do, in k sessions of one
  // day it gets less than an hour plus one second for each session, as long as its quota
  // record is not displaced.
  lemma {:induction false} DailyBound(os: seq<Occurrence>, m: Mac, d: nat, now: Micros)
    requires DayOf(Booted(), os, m, d) && d > 0 && m != 0
    requires m !in Run(Booted(), os).books.evicted
    ensures var st := Run(Booted(), os);
      && TimeHad(st, m, now) <= DAILY_QUOTA_SEC * SECOND + SessionsHad(st, m) * (SECOND - 1)
      && UsedOf(st.books, m, d) <= DAILY_QUOTA_SEC
  {
    BootBalances(m, d);
    RunBalances(Booted(), os, m, d);
    BalancedBound(Run(Booted(), os), m, d, now);
  }

  lemma BalancedBound(st: State, m: Mac, d: nat, now: Micros)
    requires Owned(st.sessions) && Balanced(st, m, d) && m !in st.books.evicted
    ensures TimeHad(st, m, now) <= DAILY_QUOTA_SEC * SECOND + SessionsHad(st, m) * (SECOND - 1)
    ensures UsedOf(st.books, m, d) <= DAILY_QUOTA_SEC
  {
    MicrosBound(st.ended, m);
    UsedWithin(st.books, m, d);
    var s := SessionOf(st.sessions, m);
    assert s.active ==> SessionOk(s);
  }

  // Whatever heartbeats, lookups and other clients' events came in between: after a checkpoint
  // of its running session, a client's record shows what its ended sessions were charged and
  // the whole seconds the running one has had.
  lemma {:induction false} ClosingCheckpoint(os: seq<Occurrence>, m: Mac, d: nat, i: nat, env: Env)
    requires DayOf(Booted(), os, m, d) && d > 0
    requires i < MAX_CLIENTS && Run(Booted(), os).sessions[i].active && Run(Booted(), os).sessions[i].mac == m
    requires m !in Checkpoint(Run(Booted(), os), i, env).books.evicted
    ensures var st := Run(Booted(), os);
      var s := st.sessions[i];
      UsedOf(Checkpoint(st, i, env).books, m, d) ==
        ChargedTo(st.ended, m) + if Elapsed(s, env.now) > s.accounted then Elapsed(s, env.now) else s.accounted
  {
    var st := Run(Booted(), os);
    BootBalances(m, d);
    RunBalances(Booted(), os, m, d);
    CheckpointBalances(st, i, env, m, d);
    CheckpointOwns(st, i, env);
    CheckpointAccounts(st, i, env);
    AddressAt(Checkpoint(st, i, env).sessions, i);
  }
}
