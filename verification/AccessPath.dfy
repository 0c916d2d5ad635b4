// From sessions to packets: what the portal's runs mean for the packet path.

module AccessPath {
  import opened Basics
  import opened Words
  import opened ClientAcl
  import opened PortalModel
  import opened PortalRuns
  import opened PortalHeartbeat
  import opened PacketHook

  predicate Owns(st: State, ip: Ip) { exists i :: 0 <= i < |st.sessions| && st.sessions[i].active && st.sessions[i].ip == ip }

  // After every run from boot, a packet from a client's address leaves the client side as it
  // came exactly if an active session owns that address or the packet stays local; otherwise it
  // is dropped, or turned to the portal itself.
  lemma {:induction false} OnlySessionsPass(os: seq<Occurrence>, p: Packet, portal: Address, localCast: bool)
    requires InStep(Booted(), os) && |p| >= IP_HEADER && IpOf(Source(p)) != 0
    ensures var st := Run(Booted(), os);
      var r := Filtered(p, true, portal, localCast, st.acl);
      var local := Destination(p) == portal || localCast;
      && (Owns(st, IpOf(Source(p))) || local ==> r == Some(p))
      && (r.Some? ==> Owns(st, IpOf(Source(p))) || local || Destination(r.value) == portal)
  {
    var st := Run(Booted(), os);
    AdmittedIffOwned(os, IpOf(Source(p)));
    HookConfines(p, portal, localCast, st.acl);
    assert Owns(st, IpOf(Source(p))) <==> Admits(st.acl, IpOf(Source(p)));
  }

  // An address is admitted after the end of its session for less than the time since the last
  // heartbeat.
  lemma {:induction false} OverstayOnPath(os: seq<Occurrence>, n: nat, ip: Ip)
    requires InStep(Booted(), os) && ip != 0 && Admits(Run(Booted(), os).acl, ip)
    requires n < |os| && os[n].event.Heartbeat?
    requires forall i :: 0 <= i < |os| ==> Credited(os[i].event)
    requires forall i :: n < i < |os| ==> os[n].env.now <= os[i].env.now
    ensures exists k :: 0 <= k < MAX_CLIENTS &&
              var s := Run(Booted(), os).sessions[k]; s.active && s.ip == ip && s.endTime > os[n].env.now
  {
    AdmittedIffOwned(os, ip);
    var k :| 0 <= k < MAX_CLIENTS && Run(Booted(), os).sessions[k].active && Run(Booted(), os).sessions[k].ip == ip;
    OverstayBounded(os, n, k);
  }

  // Ending the session closes the path: the address of a client with no active session is not
  // admitted.
  lemma {:induction false} NoSessionNoPath(os: seq<Occurrence>, ip: Ip)
    requires InStep(Booted(), os) && ip != 0 && !Owns(Run(Booted(), os), ip)
    ensures !Admits(Run(Booted(), os).acl, ip)
  {
    AdmittedIffOwned(os, ip);
  }
}
