// The admitted-client table is an exact index of the session table.

module PortalIndex {
  import opened Basics
  import opened ClientAcl
  import opened QuotaBooks
  import opened PortalModel

  // The address an active session of `mac` holds, 0 for none.
  function AddressOf(ss: seq<Session>, mac: Mac): Ip {
    var i := FindMac(ss, mac);
    if i < 0 then 0 else ss[i].ip
  }

  ghost predicate SessionOk(s: Session) {
    && s.mac != 0
    && s.admitted
    && 0 < s.startTime
    && 0 < s.granted <= DAILY_QUOTA_SEC
    && s.endTime == s.startTime + s.granted * SECOND
    && s.accounted <= s.granted
  }

  // No known client has two active sessions, and each will end.
  ghost predicate Lasting(ss: seq<Session>) {
    && |ss| == MAX_CLIENTS
    && (forall i :: 0 <= i < |ss| && ss[i].active ==> ss[i].endTime > 0)
    && (forall i, j :: 0 <= i < j < |ss| && ss[i].active && ss[j].active && ss[i].mac != 0 ==> ss[i].mac != ss[j].mac)
  }

  // Every active session is a sound one of a known client, and no client has two.
  ghost predicate Owned(ss: seq<Session>) {
    && |ss| == MAX_CLIENTS
    && (forall i :: 0 <= i < |ss| && ss[i].active ==> SessionOk(ss[i]))
    && (forall i, j :: 0 <= i < j < |ss| && ss[i].active && ss[j].active ==> ss[i].mac != ss[j].mac)
  }

  ghost predicate SessionsOk(ss: seq<Session>) {
    && Owned(ss)
    && (forall i, j :: 0 <= i < j < |ss| && ss[i].active && ss[j].active && ss[i].ip != 0 ==> ss[i].ip != ss[j].ip)
  }

  ghost predicate IndexedExcept(acl: Table, ss: seq<Session>, x: Mac) {
    forall m: Mac :: m != x ==> BindingOf(acl, m) == AddressOf(ss, m)
  }

  // The session table is sound and the client table agrees with it, except perhaps for `x`.
  // Address 0 names no client, so Coherent(st, 0) is full agreement.
  ghost predicate Coherent(st: State, x: Mac) {
    st.Sized() && SessionsOk(st.sessions) && WellFormed(st.acl) && IndexedExcept(st.acl, st.sessions, x)
  }

  // --- Session table updates ---

  lemma {:induction false} AddressAt(ss: seq<Session>, i: nat)
    requires Owned(ss) && i < |ss| && ss[i].active
    ensures FindMac(ss, ss[i].mac) == i
    ensures AddressOf(ss, ss[i].mac) == ss[i].ip
  {
  }

  // Replacing one slot changes the sessions found for at most the old and the new owner.
  lemma {:induction false} FindMacAfter(ss: seq<Session>, i: nat, s: Session, m: Mac)
    requires Owned(ss) && i < |ss|
    requires s.active ==> forall j :: 0 <= j < |ss| && j != i && ss[j].active ==> ss[j].mac != s.mac
    ensures FindMac(ss[i := s], m) ==
      if s.active && m == s.mac then i
      else if ss[i].active && m == ss[i].mac then -1
      else FindMac(ss, m)
  {
    var r := ss[i := s];
    var k := FindMac(r, m);
    var l := FindMac(ss, m);
    if s.active && m == s.mac {
      assert r[i].active && r[i].mac == m;
    } else if k >= 0 {
      assert k != i && r[k] == ss[k];
    } else if l >= 0 {
      assert r[l] != ss[l];
    }
  }

  lemma {:induction false} AddressAfter(ss: seq<Session>, i: nat, s: Session)
    requires Owned(ss) && i < |ss|
    requires s.active ==> forall j :: 0 <= j < |ss| && j != i && ss[j].active ==> ss[j].mac != s.mac
    ensures forall m: Mac :: AddressOf(ss[i := s], m) == Readdressed(ss, i, s, m)
  {
    forall m: Mac ensures AddressOf(ss[i := s], m) == Readdressed(ss, i, s, m) {
      FindMacAfter(ss, i, s, m);
    }
  }

  function Readdressed(ss: seq<Session>, i: nat, s: Session, m: Mac): Ip
    requires i < |ss|
  {
    if s.active && m == s.mac then s.ip
    else if ss[i].active && m == ss[i].mac then 0
    else AddressOf(ss, m)
  }

  // Unlisting a client removes its own binding and no one else's.
  lemma UnlistUnbinds(st: State, i: nat, x: Mac)
    requires Coherent(st, x) && i < MAX_CLIENTS && st.sessions[i].active
    ensures WellFormed(Unlist(st.acl, st.sessions[i]))
    ensures forall m: Mac :: m != x ==>
      BindingOf(Unlist(st.acl, st.sessions[i]), m) == if m == st.sessions[i].mac then 0 else BindingOf(st.acl, m)
    ensures BindingOf(Unlist(st.acl, st.sessions[i]), x) in {0, BindingOf(st.acl, x)}
  {
    var s := st.sessions[i];
    var acl1 := AfterRevokeIp(st.acl, s.ip);
    if s.ip != 0 {
      RevokeIpUnbinds(st.acl, s.ip);
    }
    RevokeMacUnbinds(acl1, s.mac);
    AddressAt(st.sessions, i);
    forall m: Mac | m != x
      ensures BindingOf(Unlist(st.acl, s), m) == if m == s.mac then 0 else BindingOf(st.acl, m)
    {
      if s.ip != 0 && BindingOf(st.acl, m) == s.ip {
        var k := FindMac(st.sessions, m);
        assert k == i;
      }
    }
  }

  // In any table, coherent or not, an ended session leaves no entry with its address or its
  // client, and takes no other entry away.
  lemma UnlistShuts(t: Table, s: Session, n: nat)
    requires n < |t|
    ensures var mine := (s.ip != 0 && HoldsIp(t[n], s.ip)) || (s.mac != 0 && HoldsMac(t[n], s.mac));
      Unlist(t, s)[n] == if mine then EMPTY else t[n]
  {
  }

  lemma CheckpointKeeps(st: State, i: nat, env: Env, x: Mac)
    requires Coherent(st, x) && i < MAX_CLIENTS && st.sessions[i].active
    ensures Coherent(Checkpoint(st, i, env), x)
  {
    var r := Checkpoint(st, i, env);
    CheckpointAccounts(st, i, env);
    AddressAfter(st.sessions, i, r.sessions[i]);
    AddressAt(st.sessions, i);
    forall m: Mac | m != x ensures BindingOf(r.acl, m) == AddressOf(r.sessions, m) {
      assert AddressOf(r.sessions, m) == Readdressed(st.sessions, i, r.sessions[i], m);
    }
  }

  lemma DismissKeeps(st: State, i: nat, admitted: bool, now: Micros, x: Mac)
    requires Coherent(st, x) && i < MAX_CLIENTS && st.sessions[i].active
    ensures Coherent(Dismiss(st, i, admitted, now), x)
    ensures BindingOf(Dismiss(st, i, admitted, now).acl, x) in {0, BindingOf(st.acl, x)}
  {
    var r := Dismiss(st, i, admitted, now);
    UnlistUnbinds(st, i, x);
    AddressAfter(st.sessions, i, r.sessions[i]);
    forall m: Mac | m != x ensures BindingOf(r.acl, m) == AddressOf(r.sessions, m) {
      assert AddressOf(r.sessions, m) == Readdressed(st.sessions, i, r.sessions[i], m);
    }
  }

  lemma CloseKeeps(st: State, i: nat, admitted: bool, env: Env, x: Mac)
    requires Coherent(st, x) && i < MAX_CLIENTS && st.sessions[i].active
    ensures Coherent(Close(st, i, admitted, env), x)
    ensures BindingOf(Close(st, i, admitted, env).acl, x) in {0, BindingOf(st.acl, x)}
  {
    CheckpointKeeps(st, i, env, x);
    DismissKeeps(Checkpoint(st, i, env), i, admitted, env.now, x);
  }

  // A checkpoint only ever raises the seconds accounted, up to the grant.
  lemma CheckpointAccounts(st: State, i: nat, env: Env)
    requires st.Sized() && i < MAX_CLIENTS && SessionOk(st.sessions[i])
    ensures Checkpoint(st, i, env).sessions[i].accounted ==
      if Elapsed(st.sessions[i], env.now) <= st.sessions[i].accounted then st.sessions[i].accounted
      else Elapsed(st.sessions[i], env.now)
    ensures st.sessions[i].accounted <= Checkpoint(st, i, env).sessions[i].accounted <= st.sessions[i].granted
  {
  }

  // --- Sweeping ---

  lemma {:induction false} SweepKeeps(st: State, i: nat, env: Env, x: Mac)
    requires Coherent(st, x) && i <= MAX_CLIENTS
    ensures Coherent(SweepFrom(st, i, env), x)
    ensures BindingOf(SweepFrom(st, i, env).acl, x) in {0, BindingOf(st.acl, x)}
    decreases MAX_CLIENTS - i
  {
    if i < MAX_CLIENTS {
      if Expired(st.sessions[i], env.now) {
        CloseKeeps(st, i, st.sessions[i].admitted, env, x);
      }
      SweepKeeps(SweepSlot(st, i, env), i + 1, env, x);
    }
  }

  // What a sweep does to each slot.
  ghost predicate SweptSlot(was: Session, s: Session, env: Env) {
    if Expired(was, env.now) then s == was.(active := false, accounted := s.accounted) else s == was
  }

  lemma {:induction false} SweepEffect(st: State, i: nat, env: Env)
    requires st.Sized() && i <= MAX_CLIENTS
    ensures var r := SweepFrom(st, i, env);
      && r == st.(sessions := r.sessions, books := r.books, acl := r.acl, dayHint := r.dayHint, ended := r.ended)
      && (forall k :: 0 <= k < i ==> r.sessions[k] == st.sessions[k])
      && (forall k :: i <= k < MAX_CLIENTS ==> SweptSlot(st.sessions[k], r.sessions[k], env))
    decreases MAX_CLIENTS - i
  {
    if i < MAX_CLIENTS {
      SweepEffect(SweepSlot(st, i, env), i + 1, env);
    }
  }

  // A sweep neither reads nor writes a slot that is not expired.
  lemma {:induction false} SweepCommutes(st: State, j: nat, s: Session, i: nat, env: Env)
    requires st.Sized() && i <= MAX_CLIENTS && j < MAX_CLIENTS
    requires !Expired(st.sessions[j], env.now) && !Expired(s, env.now)
    ensures var r := SweepFrom(st, i, env);
      SweepFrom(st.(sessions := st.sessions[j := s]), i, env) == r.(sessions := r.sessions[j := s])
    decreases MAX_CLIENTS - i
  {
    var t := st.(sessions := st.sessions[j := s]);
    if i < MAX_CLIENTS {
      var next := SweepSlot(st, i, env);
      SlotCommutes(st, j, s, i, env);
      SweepCommutes(next, j, s, i + 1, env);
    }
  }

  lemma AccountCommutes(st: State, j: nat, s: Session, i: nat, day: nat, elapsed: nat)
    requires st.Sized() && i < MAX_CLIENTS && j < MAX_CLIENTS && i != j && st.sessions[i].accounted <= elapsed
    ensures var r := Account(st, i, day, elapsed);
      Account(st.(sessions := st.sessions[j := s]), i, day, elapsed) == r.(sessions := r.sessions[j := s])
  {
    var y := st.sessions[i].(accounted := elapsed);
    assert st.sessions[j := s][i := y] == st.sessions[i := y][j := s];
  }

  lemma CheckpointCommutes(st: State, j: nat, s: Session, i: nat, env: Env)
    requires st.Sized() && i < MAX_CLIENTS && j < MAX_CLIENTS && i != j
    ensures var r := Checkpoint(st, i, env);
      Checkpoint(st.(sessions := st.sessions[j := s]), i, env) == r.(sessions := r.sessions[j := s])
  {
    var x := st.sessions[i];
    if Chargeable(x, env.now) {
      AccountCommutes(st, j, s, i, x.dayId, Elapsed(x, env.now));
      AccountCommutes(st.(dayHint := NextHint(st.dayHint, env.wall)), j, s, i, CurrentDay(st.dayHint, env.wall), Elapsed(x, env.now));
    }
  }

  lemma SlotCommutes(st: State, j: nat, s: Session, i: nat, env: Env)
    requires st.Sized() && i < MAX_CLIENTS && j < MAX_CLIENTS
    requires !Expired(st.sessions[j], env.now) && !Expired(s, env.now)
    ensures var r := SweepSlot(st, i, env);
      SweepSlot(st.(sessions := st.sessions[j := s]), i, env) == r.(sessions := r.sessions[j := s])
    ensures SweepSlot(st, i, env).sessions[j] == st.sessions[j]
  {
    var t := st.(sessions := st.sessions[j := s]);
    if i != j && Expired(st.sessions[i], env.now) {
      CheckpointCommutes(st, j, s, i, env);
      DismissCommutes(Checkpoint(st, i, env), j, s, i, st.sessions[i].admitted, env.now);
    }
  }

  lemma DismissCommutes(st: State, j: nat, s: Session, i: nat, admitted: bool, now: Micros)
    requires st.Sized() && i < MAX_CLIENTS && j < MAX_CLIENTS && i != j
    ensures var r := Dismiss(st, i, admitted, now);
      Dismiss(st.(sessions := st.sessions[j := s]), i, admitted, now) == r.(sessions := r.sessions[j := s])
  {
    var z := st.sessions[i].(active := false, admitted := admitted);
    assert st.sessions[j := s][i := z] == st.sessions[i := z][j := s];
  }

  lemma RefreshKeeps(st: State, env: Env, x: Mac)
    requires Coherent(st, x)
    ensures Coherent(Refresh(st, env), x)
  {
    SweepKeeps(st, 0, env, x);
  }

  lemma RevokeKeeps(st: State, i: nat, env: Env)
    requires Coherent(st, 0) && i < MAX_CLIENTS
    ensures Coherent(Revoke(st, i, env), 0)
  {
    if st.sessions[i].active {
      CloseKeeps(st, i, false, env, 0);
      RefreshKeeps(Close(st, i, false, env), env, 0);
    }
  }

  // --- Room ---

  // Both tables hold twenty: when an active session is not yet listed, a slot is free for it.
  lemma {:induction false} RoomToAdmit(acl: Table, ss: seq<Session>, j: nat)
    requires SessionsOk(ss) && WellFormed(acl) && j < |ss| && ss[j].active
    requires IndexedExcept(acl, ss, ss[j].mac) && BindingOf(acl, ss[j].mac) == 0
    ensures exists i :: 0 <= i < |acl| && !acl[i].used
  {
    if forall i :: 0 <= i < |acl| ==> acl[i].used {
      var owners := Owners(acl, ss);
      forall i | 0 <= i < ACL_SLOTS ensures 0 <= owners[i] < MAX_CLIENTS && owners[i] != j {
        Owner(acl, ss, j, i);
      }
      forall i, k | 0 <= i < k < ACL_SLOTS ensures owners[i] != owners[k] {
        Owner(acl, ss, j, i);
        Owner(acl, ss, j, k);
      }
      NoneLeftOut(owners, MAX_CLIENTS, j);
    }
  }

  // The session slot behind each client slot, -1 where there is none.
  function Owners(acl: Table, ss: seq<Session>): (r: seq<int>)
    ensures |r| == |acl|
    ensures forall i :: 0 <= i < |acl| ==> r[i] == FindMac(ss, acl[i].mac)
    decreases |acl|
  {
    if acl == [] then [] else Owners(acl[..|acl| - 1], ss) + [FindMac(ss, acl[|acl| - 1].mac)]
  }

  // Every listed client is an active session in a slot other than j.
  lemma {:induction false} Owner(acl: Table, ss: seq<Session>, j: nat, i: nat)
    requires SessionsOk(ss) && WellFormed(acl) && j < |ss| && ss[j].active
    requires IndexedExcept(acl, ss, ss[j].mac) && BindingOf(acl, ss[j].mac) == 0
    requires i < |acl| && acl[i].used
    ensures var k := FindMac(ss, acl[i].mac);
      0 <= k < MAX_CLIENTS && k != j && ss[k].mac == acl[i].mac
  {
    BindingAt(acl, i);
    assert AddressOf(ss, acl[i].mac) != 0;
  }
}
