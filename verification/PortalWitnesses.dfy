// Runs from boot after which one more event does what the guards rule out.

module PortalWitnesses {
  import opened Basics
  import opened QuotaBooks
  import opened PortalModel
  import opened PortalIndex
  import opened PortalAdmission
  import opened PortalRuns
  import opened PortalQuota
  import opened PortalLosses
  import opened PortalDay

  // --- Clients that come one after another ---

  // The clock of every event: no wall time yet, and a driver that does as it is told.
  function At(t: Micros): Env { Env(t, 0, true, true) }

  function TokenOf(c: nat): Token
    requires c <= 32
  {
    seq(c, _ => 'x')
  }

  // Client c confirms from address c; or presses again with its address unknown.
  function Press(ip: Ip, mac: Mac, token: nat, t: Micros): Occurrence
    requires token <= 32
  {
    Occurrence(ConfirmPressed(ip, Some(mac), None, true, TokenOf(token), "h"), At(t))
  }

  function PressBlind(mac: Mac, token: nat, t: Micros): Occurrence
    requires token <= 32
  {
    Occurrence(ConfirmPressed(0, None, Some(mac), true, TokenOf(token), "h"), At(t))
  }

  // The hour client c gets at t.
  function Guest(c: nat, t: Micros): Session
    requires 0 < c <= 32
  {
    Session(c, c, TokenOf(c), "h", t + DAILY_QUOTA_SEC * SECOND, t, DAILY_QUOTA_SEC, 0, 1, true, true)
  }

  // Clients 1 to n have come, each to its own slot and record, and nothing has been charged.
  ghost predicate Gathered(st: State, n: nat) {
    && n <= MAX_CLIENTS && st.Sized() && st.ended == [] && st.dayHint == 0 && st.books.evicted == {}
    && (forall k :: 0 <= k < n ==> 0 < st.sessions[k].startTime < 0x1000_0000_0000 && st.sessions[k] == Guest(k + 1, st.sessions[k].startTime))
    && (forall k :: n <= k < MAX_CLIENTS ==> !st.sessions[k].active)
    && (forall k :: 0 <= k < n ==> st.books.records[k] == QuotaRecord(true, k + 1, 1, 0))
    && (forall k :: n <= k < QUOTA_SLOTS ==> !st.books.records[k].valid)
  }

  ghost predicate AllRunning(st: State, n: nat, t: Micros) {
    Gathered(st, n) && forall k :: 0 <= k < n ==> st.sessions[k].endTime > t
  }

  lemma {:induction false} QuietSweep(st: State, i: nat, env: Env)
    requires st.Sized() && i <= MAX_CLIENTS && forall k :: i <= k < MAX_CLIENTS ==> !Expired(st.sessions[k], env.now)
    ensures SweepFrom(st, i, env) == st
    decreases MAX_CLIENTS - i
  {
    if i < MAX_CLIENTS {
      QuietSweep(st, i + 1, env);
    }
  }

  // What the tables say about the next client.
  lemma Newcomer(st: State, n: nat, c: nat)
    requires Gathered(st, n) && n < c <= 32
    ensures FindMac(st.sessions, c) < 0 && FindIp(st.sessions, c) < 0 && FreshToken(st.sessions, TokenOf(c))
    ensures FindFree(st.sessions) == if n < MAX_CLIENTS then n else -1
    ensures FindRecord(st.books.records, c) < 0
    ensures FindFreeRecord(st.books.records) == if n < QUOTA_SLOTS then n else -1
    ensures QuotaRemaining(st, c, At(SECOND)).1 == DAILY_QUOTA_SEC
  {
    forall k | 0 <= k < MAX_CLIENTS && st.sessions[k].active
      ensures k < n && st.sessions[k].mac == st.sessions[k].ip == k + 1 && |st.sessions[k].token| == k + 1
    {
    }
    assert |TokenOf(c)| == c;
    assert forall k :: 0 <= k < n ==> st.sessions[k].active && st.books.records[k].valid;
    assert n < MAX_CLIENTS ==> !st.sessions[n].active && !st.books.records[n].valid;
  }

  // A newcomer's first look at the quota gives it a record of its own.
  lemma NewRecord(st: State, n: nat, c: nat, t: Micros)
    requires Gathered(st, n) && n < c <= 32 && n < QUOTA_SLOTS
    ensures QuotaRemaining(st, c, At(t)) ==
      (st.(books := Books(st.books.records[n := QuotaRecord(true, c, 1, 0)], {})), DAILY_QUOTA_SEC)
  {
    Newcomer(st, n, c);
  }

  // Started in a free slot while nothing expires.
  lemma Opens(st: State, slot: nat, ip: Ip, mac: Mac, token: Token, granted: nat, env: Env)
    requires st.Sized() && ip != 0 && 0 < granted && slot < MAX_CLIENTS
    requires FindMac(st.sessions, mac) < 0 && FindIp(st.sessions, ip) < 0 && FindToken(st.sessions, token) < 0
    requires FindFree(st.sessions) == slot && forall k :: 0 <= k < MAX_CLIENTS ==> !Expired(st.sessions[k], env.now)
    ensures var r := StartOrResume(st, ip, Some(mac), token, "h", granted, env).0;
      var s := OpenedSession(st, ip, Some(mac), token, "h", granted, env);
      && r.sessions == st.sessions[slot := s] && r.ended == st.ended && r.books == st.books
      && r.dayHint == NextHint(st.dayHint, env.wall)
  {
    var s := OpenedSession(st, ip, Some(mac), token, "h", granted, env);
    var installed := Install(st, slot, s, env);
    assert !Expired(s, env.now);
    QuietSweep(installed, 0, env);
  }

  // Client n + 1 comes.
  lemma Arrives(st: State, n: nat, t: Micros)
    requires n < MAX_CLIENTS && AllRunning(st, n, t) && t < 0x1000_0000_0000
    ensures var r := Step(st, Press(n + 1, n + 1, n + 1, t));
      Gathered(r, n + 1) && r.sessions == st.sessions[n := Guest(n + 1, t)]
    ensures Identified(st, Press(n + 1, n + 1, n + 1, t).event) && KeepsStep(st, Press(n + 1, n + 1, n + 1, t))
  {
    Welcome(st, n, t);
    Arrived(st, n, t);
    Joined(st, Step(st, Press(n + 1, n + 1, n + 1, t)), n, t);
  }

  lemma Welcome(st: State, n: nat, t: Micros)
    requires n < MAX_CLIENTS && Gathered(st, n)
    ensures Identified(st, Press(n + 1, n + 1, n + 1, t).event) && KeepsStep(st, Press(n + 1, n + 1, n + 1, t))
  {
    Newcomer(st, n, n + 1);
  }

  lemma Arrived(st: State, n: nat, t: Micros)
    requires n < MAX_CLIENTS && AllRunning(st, n, t) && t < 0x1000_0000_0000
    ensures var r := Step(st, Press(n + 1, n + 1, n + 1, t));
      && r.Sized() && r.sessions == st.sessions[n := Guest(n + 1, t)] && r.ended == [] && r.dayHint == 0
      && r.books == Books(st.books.records[n := QuotaRecord(true, n + 1, 1, 0)], {})
  {
    var c, env, o := n + 1, At(t), Press(n + 1, n + 1, n + 1, t);
    Newcomer(st, n, c);
    NewRecord(st, n, c, t);
    var st2 := EnsureNapt(QuotaRemaining(st, c, env).0, env).0;
    ConfirmUnfolds(st, o.event, env);
    Seated(st2, n, c, t);
  }

  lemma Seated(st: State, n: nat, c: nat, t: Micros)
    requires st.Sized() && n < MAX_CLIENTS && 0 < c <= 32 && st.dayHint == 0
    requires FindMac(st.sessions, c) < 0 && FindIp(st.sessions, c) < 0 && FindToken(st.sessions, TokenOf(c)) < 0
    requires FindFree(st.sessions) == n && forall k :: 0 <= k < MAX_CLIENTS && st.sessions[k].active ==> st.sessions[k].endTime > t
    ensures var r := GetRemaining(StartOrResume(st, c, Some(c), TokenOf(c), "h", DAILY_QUOTA_SEC, At(t)).0, c, Some(c), At(t)).0;
      && r.Sized() && r.sessions == st.sessions[n := Guest(c, t)] && r.ended == st.ended && r.books == st.books && r.dayHint == 0
  {
    QueryAfterStartOrResume(st, c, c, TokenOf(c), "h", DAILY_QUOTA_SEC, Some(c), At(t));
    Opens(st, n, c, c, TokenOf(c), DAILY_QUOTA_SEC, At(t));
    assert OpenedSession(st, c, Some(c), TokenOf(c), "h", DAILY_QUOTA_SEC, At(t)) == Guest(c, t);
  }

  lemma Joined(st: State, r: State, n: nat, t: Micros)
    requires n < MAX_CLIENTS && Gathered(st, n) && t < 0x1000_0000_0000 && r.Sized()
    requires r.sessions == st.sessions[n := Guest(n + 1, t)] && r.ended == [] && r.dayHint == 0
    requires r.books == Books(st.books.records[n := QuotaRecord(true, n + 1, 1, 0)], {})
    ensures Gathered(r, n + 1)
  {
  }

  function Crowd(n: nat): (os: seq<Occurrence>)
    requires n <= MAX_CLIENTS
    ensures |os| == n
  {
    if n == 0 then [] else Crowd(n - 1) + [Press(n, n, n, SECOND)]
  }

  // Everybody of a crowd has the hour that began at 1 s.
  ghost predicate AllGuests(st: State, n: nat) {
    Gathered(st, n) && forall k :: 0 <= k < n ==> st.sessions[k] == Guest(k + 1, SECOND)
  }

  lemma BootIsEmpty()
    ensures AllGuests(Booted(), 0)
  {
    var st := Booted();
    assert forall k :: 0 <= k < MAX_CLIENTS ==> st.sessions[k] == NO_SESSION;
    assert forall k :: 0 <= k < QUOTA_SLOTS ==> st.books.records[k] == NO_RECORD;
  }

  lemma {:induction false} RunStep(st: State, os: seq<Occurrence>, o: Occurrence)
    requires st.Sized()
    ensures Run(st, os + [o]) == Step(Run(st, os), o)
  {
    assert (os + [o])[..|os|] == os;
  }

  lemma NextGuest(st: State, n: nat)
    requires n < MAX_CLIENTS && AllGuests(st, n)
    ensures var o := Press(n + 1, n + 1, n + 1, SECOND);
      AllGuests(Step(st, o), n + 1) && Identified(st, o.event) && KeepsStep(st, o)
  {
    Arrives(st, n, SECOND);
  }

  lemma {:induction false} AfterCrowd(n: nat)
    requires n <= MAX_CLIENTS
    ensures AllGuests(Run(Booted(), Crowd(n)), n) && InStep(Booted(), Crowd(n))
    decreases n
  {
    if n == 0 {
      BootIsEmpty();
    } else {
      var st, o := Run(Booted(), Crowd(n - 1)), Press(n, n, n, SECOND);
      AfterCrowd(n - 1);
      NextGuest(st, n - 1);
      RunStep(Booted(), Crowd(n - 1), o);
      StillInStep(Booted(), Crowd(n - 1), o);
    }
  }

  lemma {:induction false} StillInStep(st: State, os: seq<Occurrence>, o: Occurrence)
    requires st.Sized() && InStep(st, os) && Identified(Run(st, os), o.event) && KeepsStep(Run(st, os), o)
    ensures InStep(st, os + [o])
  {
    var n := |os|;
    forall i | 0 <= i < n + 1
      ensures Identified(Run(st, (os + [o])[..i]), (os + [o])[i].event) && KeepsStep(Run(st, (os + [o])[..i]), (os + [o])[i])
    {
      assert (os + [o])[..i] == os[..i] && os[..n] == os;
    }
  }

  // --- Lost time ---

  // The client's own session has expired, and it confirms again before the next sweep.
  lemma ExpiredIsLost()
    ensures var st, o := Run(Booted(), Crowd(1)), Press(1, 1, 2, 4000 * SECOND);
      && InStep(Booted(), Crowd(1)) && Identified(st, o.event) && LosesTime(st, o, 1)
      && !Charged(st.ended, Step(st, o).ended, 1)
  {
    var st, o := Run(Booted(), Crowd(1)), Press(1, 1, 2, 4000 * SECOND);
    AfterCrowd(1);
    OneGuest(st, 4000 * SECOND);
    StepLosesIff(st, o, 1);
  }

  // The client confirms once more while its session is running, and its address cannot be found.
  lemma ReplacedIsLost()
    ensures var st, o := Run(Booted(), Crowd(1)), PressBlind(1, 2, 5 * SECOND);
      && InStep(Booted(), Crowd(1)) && Identified(st, o.event) && LosesTime(st, o, 1)
      && !Charged(st.ended, Step(st, o).ended, 1)
  {
    var st, o := Run(Booted(), Crowd(1)), PressBlind(1, 2, 5 * SECOND);
    AfterCrowd(1);
    BlindLoses(st);
    StepLosesIff(st, o, 1);
  }

  lemma BlindLoses(st: State)
    requires AllGuests(st, 1)
    ensures var o := PressBlind(1, 2, 5 * SECOND);
      Owned(st.sessions) && Identified(st, o.event) && LosesTime(st, o, 1)
  {
    OneGuest(st, 5 * SECOND);
    assert Surviving(st.sessions[0], 5 * SECOND);
  }

  // Another client confirms from the address of a running session.
  lemma TakenOverIsLost()
    ensures var st, o := Run(Booted(), Crowd(1)), Press(1, 7, 2, 5 * SECOND);
      && InStep(Booted(), Crowd(1)) && Identified(st, o.event) && LosesTime(st, o, 1)
      && !Charged(st.ended, Step(st, o).ended, 1)
  {
    var st, o := Run(Booted(), Crowd(1)), Press(1, 7, 2, 5 * SECOND);
    AfterCrowd(1);
    TakeOverLoses(st);
    StepLosesIff(st, o, 1);
  }

  lemma TakeOverLoses(st: State)
    requires AllGuests(st, 1)
    ensures var o := Press(1, 7, 2, 5 * SECOND);
      Owned(st.sessions) && Identified(st, o.event) && LosesTime(st, o, 1)
  {
    OneGuest(st, 5 * SECOND);
    Newcomer(st, 1, 7);
    NewRecord(st, 1, 7, 5 * SECOND);
    assert FindIp(st.sessions, 1) == 0;
  }

  // A newcomer arrives while all twenty slots are taken.
  lemma DisplacedIsLost()
    ensures var st, o := Run(Booted(), Crowd(20)), Press(21, 21, 21, 5 * SECOND);
      && InStep(Booted(), Crowd(20)) && Identified(st, o.event) && LosesTime(st, o, 1)
      && !Charged(st.ended, Step(st, o).ended, 1)
  {
    var st, o := Run(Booted(), Crowd(20)), Press(21, 21, 21, 5 * SECOND);
    AfterCrowd(20);
    FullLoses(st);
    StepLosesIff(st, o, 1);
  }

  lemma FullLoses(st: State)
    requires AllGuests(st, 20)
    ensures var o := Press(21, 21, 21, 5 * SECOND);
      Owned(st.sessions) && Identified(st, o.event) && LosesTime(st, o, 1)
  {
    Newcomer(st, 20, 21);
    FullBooks(st, 21, 5 * SECOND);
    assert st.sessions[0] == Guest(1, SECOND);
  }

  // With one guest: where it is, what it may still have, and what it owes.
  lemma OneGuest(st: State, t: Micros)
    requires AllGuests(st, 1) && t >= 2 * SECOND
    ensures st.sessions[0] == Guest(1, SECOND) && Owned(st.sessions)
    ensures FindMac(st.sessions, 1) == 0 && FreshToken(st.sessions, TokenOf(2))
    ensures QuotaRemaining(st, 1, At(t)) == (st, DAILY_QUOTA_SEC)
    ensures Chargeable(st.sessions[0], t)
  {
    assert |TokenOf(1)| == 1 && |TokenOf(2)| == 2;
    assert st.books.records[0] == QuotaRecord(true, 1, 1, 0);
    assert FindRecord(st.books.records, 1) == 0;
    assert FindMac(st.sessions, 1) == 0;
  }

  // A record is found even in full books; an old one makes way.
  lemma FullBooks(st: State, c: nat, t: Micros)
    requires Gathered(st, 20) && 20 < c <= 32
    ensures QuotaRemaining(st, c, At(t)).1 == DAILY_QUOTA_SEC
  {
    Newcomer(st, 20, c);
  }

  // --- Too much granted ---

  // The client presses again with its address unknown, after its hour has run out and before it
  // has been swept: the hour it has had is charged only after the rest of its quota was read.
  // It then has had two hours of the day in two sessions.
  lemma OverdueIsGrantedTwice()
    ensures var st, o := Run(Booted(), Crowd(1)), PressBlind(1, 2, 4000 * SECOND);
      && InStep(Booted(), Crowd(1)) && Identified(st, o.event) && OnDay(st, o, 1)
      && !LosesTime(st, o, 1) && !Fair(st, o, 1, 1)
      && TimeHad(Step(st, o), 1, 8000 * SECOND) == 2 * DAILY_QUOTA_SEC * SECOND && SessionsHad(Step(st, o), 1) == 2
  {
    var st, o := Run(Booted(), Crowd(1)), PressBlind(1, 2, 4000 * SECOND);
    AfterCrowd(1);
    GuestOverdue(st);
    Regranted(st);
  }

  lemma GuestOverdue(st: State)
    requires AllGuests(st, 1)
    ensures var o := PressBlind(1, 2, 4000 * SECOND);
      && Identified(st, o.event) && !LosesTime(st, o, 1)
      && ConfirmStarts(st, 1, true, At(4000 * SECOND)) && !Fair(st, o, 1, 1)
  {
    OneGuest(st, 4000 * SECOND);
    assert Expired(st.sessions[0], 4000 * SECOND);
    OwedAt(st.sessions, 0, 1, 4000 * SECOND);
  }

  // The sweep ends the old session, charged; the new one is an hour again.
  lemma Regranted(st: State)
    requires AllGuests(st, 1)
    ensures var r := Step(st, PressBlind(1, 2, 4000 * SECOND));
      TimeHad(r, 1, 8000 * SECOND) == 2 * DAILY_QUOTA_SEC * SECOND && SessionsHad(r, 1) == 2
  {
    var env, o := At(4000 * SECOND), PressBlind(1, 2, 4000 * SECOND);
    OneGuest(st, 4000 * SECOND);
    var st2 := EnsureNapt(st, env).0;
    var opening := st2.(globalEnd := env.now + DAILY_QUOTA_SEC * SECOND);
    GuestSwept(opening, env);
    PressedBlind(st, st2, env);
    Reopened(Refresh(opening, env), env);
  }

  lemma PressedBlind(st: State, st2: State, env: Env)
    requires AllGuests(st, 1) && env == At(4000 * SECOND) && st2 == EnsureNapt(st, env).0
    requires QuotaRemaining(st, 1, env) == (st, DAILY_QUOTA_SEC) && FreshToken(st.sessions, TokenOf(2))
    ensures Step(st, PressBlind(1, 2, 4000 * SECOND)) ==
      Open(Refresh(st2.(globalEnd := env.now + DAILY_QUOTA_SEC * SECOND), env), -1, 0, Some(1), TokenOf(2), "h", DAILY_QUOTA_SEC, env)
  {
    ConfirmUnfolds(st, PressBlind(1, 2, 4000 * SECOND).event, env);
    RefreshSurvivors(st2.(globalEnd := env.now + DAILY_QUOTA_SEC * SECOND), env);
    ResumeUnfolds(st2, 1, TokenOf(2), "h", DAILY_QUOTA_SEC, env);
  }

  lemma GuestSwept(st: State, env: Env)
    requires st.Sized() && Gathered(st, 1) && st.sessions[0] == Guest(1, SECOND) && env.now == 4000 * SECOND
    ensures var r := Refresh(st, env);
      && r.ended == [Usage(1, DAILY_QUOTA_SEC * SECOND, DAILY_QUOTA_SEC)] && r.dayHint == 0
      && forall k :: 0 <= k < MAX_CLIENTS ==> !r.sessions[k].active
  {
    assert Elapsed(st.sessions[0], env.now) == DAILY_QUOTA_SEC;
    var swept := SweepSlot(st, 0, env);
    QuietSweep(swept, 1, env);
    assert SweepFrom(st, 0, env) == swept;
  }

  lemma Reopened(st: State, env: Env)
    requires st.Sized() && st.dayHint == 0 && env == At(4000 * SECOND)
    requires st.ended == [Usage(1, DAILY_QUOTA_SEC * SECOND, DAILY_QUOTA_SEC)]
    requires forall k :: 0 <= k < MAX_CLIENTS ==> !st.sessions[k].active
    ensures var r := Open(st, -1, 0, Some(1), TokenOf(2), "h", DAILY_QUOTA_SEC, env);
      TimeHad(r, 1, 8000 * SECOND) == 2 * DAILY_QUOTA_SEC * SECOND && SessionsHad(r, 1) == 2
  {
    var slot := SlotFor(st.sessions, Some(1), TokenOf(2), -1);
    var s := OpenedSession(st, 0, Some(1), TokenOf(2), "h", DAILY_QUOTA_SEC, env);
    var installed := Install(st, slot, s, env);
    QuietSweep(installed, 0, env);
    var r := Open(st, -1, 0, Some(1), TokenOf(2), "h", DAILY_QUOTA_SEC, env);
    assert r.sessions == st.sessions[slot := s] && r.ended == st.ended;
    assert FindMac(r.sessions, 1) == slot;
    var u := Usage(1, DAILY_QUOTA_SEC * SECOND, DAILY_QUOTA_SEC);
    LogSums([], u, 1);
    assert [] + [u] == r.ended;
  }

  // --- A session taken over after it was charged ---

  // A heartbeat that finds one session.
  lemma {:induction false} QuietHeartbeat(st: State, i: nat, env: Env)
    requires st.Sized() && i <= MAX_CLIENTS && forall k :: i <= k < MAX_CLIENTS ==> !st.sessions[k].active
    ensures HeartbeatFrom(st, i, env) == st
    decreases MAX_CLIENTS - i
  {
    if i < MAX_CLIENTS {
      QuietHeartbeat(st, i + 1, env);
    }
  }

  function Pulse(t: Micros): Occurrence { Occurrence(Heartbeat, At(t)) }

  // After five seconds the guest has been charged four.
  lemma GuestCharged(st: State)
    requires AllGuests(st, 1)
    ensures var r := Step(st, Pulse(5 * SECOND));
      && r == st.(sessions := st.sessions[0 := Guest(1, SECOND).(accounted := 4)],
                  books := Books(st.books.records[0 := QuotaRecord(true, 1, 1, 4)], {}))
  {
    OneGuest(st, 5 * SECOND);
    var s := st.sessions[0];
    assert Elapsed(s, 5 * SECOND) == 4;
    assert st.books.records[0] == QuotaRecord(true, 1, 1, 0) && FindRecord(st.books.records, 1) == 0;
    var r := HeartbeatSlot(st, 0, At(5 * SECOND));
    assert r == Checkpoint(st, 0, At(5 * SECOND));
    QuietHeartbeat(r, 1, At(5 * SECOND));
  }

  // The table after that heartbeat.
  ghost predicate Charged4(st: State) {
    && st.Sized() && st.ended == [] && st.dayHint == 0 && st.books.evicted == {}
    && st.sessions[0] == Guest(1, SECOND).(accounted := 4)
    && (forall k :: 1 <= k < MAX_CLIENTS ==> !st.sessions[k].active)
    && st.books.records[0] == QuotaRecord(true, 1, 1, 4)
    && (forall k :: 1 <= k < QUOTA_SLOTS ==> !st.books.records[k].valid)
  }

  lemma Pulsed(st: State)
    requires AllGuests(st, 1)
    ensures Charged4(Step(st, Pulse(5 * SECOND)))
  {
    GuestCharged(st);
  }

  lemma AfterPulse()
    ensures Charged4(Run(Booted(), Crowd(1) + [Pulse(5 * SECOND)]))
  {
    AfterCrowd(1);
    Pulsed(Run(Booted(), Crowd(1)));
    RunStep(Booted(), Crowd(1), Pulse(5 * SECOND));
  }

  // Client 7 then confirms from the guest's address: its session counts four seconds that were
  // never charged to it.
  lemma TakeOverUnbalances()
    ensures var st, o := Run(Booted(), Crowd(1) + [Pulse(5 * SECOND)]), Press(1, 7, 2, 5 * SECOND);
      && Balanced(st, 7, 1) && Identified(st, o.event) && OnDay(st, o, 1)
      && !LosesTime(st, o, 7) && !Fair(st, o, 7, 1) && !Balanced(Step(st, o), 7, 1)
  {
    var st, o := Run(Booted(), Crowd(1) + [Pulse(5 * SECOND)]), Press(1, 7, 2, 5 * SECOND);
    AfterPulse();
    TakeOverUnfair(st);
    TakeOverEvictsNobody(st);
    StepBalancesIff(st, o, 7, 1);
  }

  lemma StrangerAt(st: State)
    requires Charged4(st)
    ensures FindMac(st.sessions, 7) < 0 && FindIp(st.sessions, 1) == 0 && FreshToken(st.sessions, TokenOf(2))
    ensures QuotaRemaining(st, 7, At(5 * SECOND)) ==
      (st.(books := Books(st.books.records[1 := QuotaRecord(true, 7, 1, 0)], {})), DAILY_QUOTA_SEC)
    ensures FindRecord(st.books.records, 7) < 0
  {
    assert |TokenOf(1)| == 1 && |TokenOf(2)| == 2;
    assert st.books.records[0].valid && !st.books.records[1].valid;
    assert FindRecord(st.books.records, 7) < 0 && FindFreeRecord(st.books.records) == 1;
  }

  lemma TakeOverUnfair(st: State)
    requires Charged4(st)
    ensures var o := Press(1, 7, 2, 5 * SECOND);
      && Owned(st.sessions) && Balanced(st, 7, 1) && Identified(st, o.event) && OnDay(st, o, 1)
      && !LosesTime(st, o, 7) && !Fair(st, o, 7, 1)
  {
    StrangerAt(st);
  }

  lemma TakeOverEvictsNobody(st: State)
    requires Charged4(st)
    ensures Step(st, Press(1, 7, 2, 5 * SECOND)).books.evicted == {}
  {
    var env, o := At(5 * SECOND), Press(1, 7, 2, 5 * SECOND);
    StrangerAt(st);
    var st2 := EnsureNapt(QuotaRemaining(st, 7, env).0, env).0;
    ConfirmUnfolds(st, o.event, env);
    QueryAfterStartOrResume(st2, 1, 7, TokenOf(2), "h", DAILY_QUOTA_SEC, Some(7), env);
    var taken := HandedOver(st2, 0, Some(7), env.now).(sessions := st2.sessions[0 := Reused(st2.sessions[0], 1, Some(7), TokenOf(2), "h")]);
    QuietSweep(taken, 0, env);
  }

  // --- The index out of step ---

  // Client 1 moves to the address of client 2, whose session is running.
  lemma CollisionBreaksIndex()
    ensures var st, o := Run(Booted(), Crowd(2)), Press(2, 1, 3, 5 * SECOND);
      InStep(Booted(), Crowd(2)) && Identified(st, o.event) && Coherent(st, 0) && !Coherent(Step(st, o), 0)
  {
    var st, o := Run(Booted(), Crowd(2)), Press(2, 1, 3, 5 * SECOND);
    AfterCrowd(2);
    InitiallyCoherent();
    RunKeepsIndex(Booted(), Crowd(2));
    TwoCollide(st);
    StepKeepsIndexIff(st, o);
  }

  lemma TwoCollide(st: State)
    requires AllGuests(st, 2)
    ensures var o := Press(2, 1, 3, 5 * SECOND); Identified(st, o.event) && !KeepsStep(st, o)
  {
    assert st.sessions[0] == Guest(1, SECOND) && st.sessions[1] == Guest(2, SECOND);
    assert |TokenOf(1)| == 1 && |TokenOf(2)| == 2 && |TokenOf(3)| == 3;
    assert FindMac(st.sessions, 1) == 0;
    assert st.books.records[0] == QuotaRecord(true, 1, 1, 0) && FindRecord(st.books.records, 1) == 0;
    assert QuotaRemaining(st, 1, At(5 * SECOND)).1 == DAILY_QUOTA_SEC;
  }

  // A newcomer displaces client 1 from slot 0: the entry of client 1 stays behind.
  lemma DisplacementBreaksIndex()
    ensures var st, o := Run(Booted(), Crowd(20)), Press(21, 21, 21, 5 * SECOND);
      InStep(Booted(), Crowd(20)) && Identified(st, o.event) && Coherent(st, 0) && !Coherent(Step(st, o), 0)
  {
    var st, o := Run(Booted(), Crowd(20)), Press(21, 21, 21, 5 * SECOND);
    AfterCrowd(20);
    InitiallyCoherent();
    RunKeepsIndex(Booted(), Crowd(20));
    FullCollides(st);
    StepKeepsIndexIff(st, o);
  }

  lemma FullCollides(st: State)
    requires AllGuests(st, 20)
    ensures var o := Press(21, 21, 21, 5 * SECOND); Identified(st, o.event) && !KeepsStep(st, o)
  {
    Newcomer(st, 20, 21);
    FullBooks(st, 21, 5 * SECOND);
    assert st.sessions[0] == Guest(1, SECOND);
  }

  // Client 2 is leased the address that client 1's expired session still has.
  lemma LeaseBreaksIndex()
    ensures var os := Crowd(1) + [Press(2, 2, 2, 2000 * SECOND)];
      var st, o := Run(Booted(), os), Occurrence(Leased(2, 1), At(4000 * SECOND));
      InStep(Booted(), os) && Identified(st, o.event) && Coherent(st, 0) && !Coherent(Step(st, o), 0)
  {
    var second := Press(2, 2, 2, 2000 * SECOND);
    var os := Crowd(1) + [second];
    AfterTwo();
    InitiallyCoherent();
    RunKeepsIndex(Booted(), os);
    LeaseCollides(Run(Booted(), os));
    StepKeepsIndexIff(Run(Booted(), os), Occurrence(Leased(2, 1), At(4000 * SECOND)));
  }

  lemma AfterTwo()
    ensures var os := Crowd(1) + [Press(2, 2, 2, 2000 * SECOND)];
      var st := Run(Booted(), os);
      InStep(Booted(), os) && st.sessions[0] == Guest(1, SECOND) && st.sessions[1] == Guest(2, 2000 * SECOND)
  {
    var second := Press(2, 2, 2, 2000 * SECOND);
    AfterCrowd(1);
    SecondGuest(Run(Booted(), Crowd(1)));
    RunStep(Booted(), Crowd(1), second);
    StillInStep(Booted(), Crowd(1), second);
  }

  lemma SecondGuest(st: State)
    requires AllGuests(st, 1)
    ensures var o := Press(2, 2, 2, 2000 * SECOND);
      && Identified(st, o.event) && KeepsStep(st, o)
      && Step(st, o).sessions[0] == Guest(1, SECOND) && Step(st, o).sessions[1] == Guest(2, 2000 * SECOND)
  {
    Arrives(st, 1, 2000 * SECOND);
  }

  lemma LeaseCollides(st: State)
    requires st.Sized() && st.sessions[0] == Guest(1, SECOND) && st.sessions[1] == Guest(2, 2000 * SECOND)
    ensures !KeepsStep(st, Occurrence(Leased(2, 1), At(4000 * SECOND)))
  {
    assert LiveSessionOf(st.sessions, 2, 4000 * SECOND) >= 0;
  }
}
