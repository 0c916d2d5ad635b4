// The admitted-client table of main/client_acl.c: twenty slots, scanned by the packet path.

module ClientAcl {
  import opened Basics

  const ACL_SLOTS := 20

  datatype Entry = Entry(used: bool, ip: Ip, mac: Mac, hasMac: bool)

  const EMPTY := Entry(false, 0, 0, false)

  type Table = seq<Entry>

  predicate HoldsMac(e: Entry, mac: Mac) { e.used && e.hasMac && e.mac == mac }

  predicate HoldsIp(e: Entry, ip: Ip) { e.used && e.ip == ip }

  // What each operation does to the table.

  function AdmitAt(t: Table, i: nat, ip: Ip, mac: Option<Mac>): Table
    requires i < |t|
  {
    t[i := Entry(true, ip, if mac.Some? then mac.value else t[i].mac, mac.Some? || t[i].hasMac)]
  }

  function AfterAdmit(t: Table, ip: Ip, mac: Option<Mac>): (r: Table)
    ensures |r| == |t|
  {
    if ip == 0 then t else
    var byMac := if mac.Some? then First(t, (e: Entry) => HoldsMac(e, mac.value)) else -1;
    if byMac >= 0 then t[byMac := t[byMac].(ip := ip)] else
    var byIp := First(t, (e: Entry) => HoldsIp(e, ip));
    if byIp >= 0 then AdmitAt(t, byIp, ip, mac) else
    var free := First(t, (e: Entry) => !e.used);
    if free >= 0 then AdmitAt(t, free, ip, mac) else t
  }

  function AfterRevokeIp(t: Table, ip: Ip): (r: Table)
    ensures |r| == |t|
  {
    if ip == 0 then t
    else seq(|t|, i requires 0 <= i < |t| => if HoldsIp(t[i], ip) then EMPTY else t[i])
  }

  function AfterRevokeMac(t: Table, mac: Mac): (r: Table)
    ensures |r| == |t|
  {
    seq(|t|, i requires 0 <= i < |t| => if HoldsMac(t[i], mac) then EMPTY else t[i])
  }

  predicate Admits(t: Table, ip: Ip) {
    ip != 0 && exists i :: 0 <= i < |t| && HoldsIp(t[i], ip)
  }

  // The table read as a function from hardware address to admitted address, 0 for "none".
  function BindingOf(t: Table, mac: Mac): (ip: Ip)
    ensures ip != 0 ==> exists i :: 0 <= i < |t| && HoldsMac(t[i], mac) && t[i].ip == ip
  {
    var i := First(t, (e: Entry) => HoldsMac(e, mac));
    if i < 0 then 0 else t[i].ip
  }

  // A well-formed table is an injective binding: every used slot has both addresses,
  // and no hardware address or network address is listed twice.
  ghost predicate WellFormed(t: Table) {
    && |t| == ACL_SLOTS
    && (forall i :: 0 <= i < |t| && t[i].used ==> t[i].hasMac && t[i].mac != 0 && t[i].ip != 0)
    && (forall i, j :: 0 <= i < j < |t| && t[i].used && t[j].used ==>
          t[i].mac != t[j].mac && t[i].ip != t[j].ip)
  }

  lemma BindingAt(t: Table, i: nat)
    requires WellFormed(t) && i < |t| && t[i].used
    ensures BindingOf(t, t[i].mac) == t[i].ip != 0
  {
    assert HoldsMac(t[i], t[i].mac);
  }

  lemma RevokeIpAt(t: Table, ip: Ip, m: Mac)
    requires WellFormed(t) && ip != 0
    ensures BindingOf(AfterRevokeIp(t, ip), m) == if BindingOf(t, m) == ip then 0 else BindingOf(t, m)
  {
    var i := First(t, (e: Entry) => HoldsMac(e, m));
    if i >= 0 && t[i].ip != ip {
      assert HoldsMac(AfterRevokeIp(t, ip)[i], m);
    }
  }

  lemma RevokeIpUnbinds(t: Table, ip: Ip)
    requires WellFormed(t) && ip != 0
    ensures WellFormed(AfterRevokeIp(t, ip))
    ensures forall m: Mac :: BindingOf(AfterRevokeIp(t, ip), m) == if BindingOf(t, m) == ip then 0 else BindingOf(t, m)
  {
    forall m: Mac
      ensures BindingOf(AfterRevokeIp(t, ip), m) == if BindingOf(t, m) == ip then 0 else BindingOf(t, m)
    {
      RevokeIpAt(t, ip, m);
    }
  }

  lemma RevokeMacAt(t: Table, mac: Mac, m: Mac)
    requires WellFormed(t)
    ensures BindingOf(AfterRevokeMac(t, mac), m) == if m == mac then 0 else BindingOf(t, m)
  {
    var i := First(t, (e: Entry) => HoldsMac(e, m));
    if i >= 0 && m != mac {
      assert HoldsMac(AfterRevokeMac(t, mac)[i], m);
    }
  }

  lemma RevokeMacUnbinds(t: Table, mac: Mac)
    requires WellFormed(t)
    ensures WellFormed(AfterRevokeMac(t, mac))
    ensures forall m: Mac :: BindingOf(AfterRevokeMac(t, mac), m) == if m == mac then 0 else BindingOf(t, m)
  {
    forall m: Mac ensures BindingOf(AfterRevokeMac(t, mac), m) == if m == mac then 0 else BindingOf(t, m) {
      RevokeMacAt(t, mac, m);
    }
  }

  // Admission binds the client and takes the address from whoever else held it. A client that
  // is already listed must not move to an address held by another, and a newcomer needs a
  // free slot unless it takes over an address.
  lemma AdmitBinds(t: Table, ip: Ip, mac: Mac)
    requires WellFormed(t) && ip != 0 && mac != 0
    requires BindingOf(t, mac) != 0 ==> forall m: Mac :: m != mac ==> BindingOf(t, m) != ip
    requires BindingOf(t, mac) == 0 ==> Admits(t, ip) || exists i :: 0 <= i < |t| && !t[i].used
    ensures WellFormed(AfterAdmit(t, ip, Some(mac)))
    ensures forall m: Mac :: BindingOf(AfterAdmit(t, ip, Some(mac)), m) == Rebound(t, ip, mac, m)
  {
    var r := AfterAdmit(t, ip, Some(mac));
    var k := AdmitSlot(t, ip, mac);
    forall i | 0 <= i < |t| && t[i].used && i != k ensures t[i].ip != ip && t[i].mac != mac {
      BindingAt(t, i);
    }
    assert r == t[k := Entry(true, ip, mac, true)];
    forall m: Mac ensures BindingOf(r, m) == Rebound(t, ip, mac, m) {
      ReboundAt(t, k, ip, mac, m);
    }
  }

  // One client's binding once slot k lists another.
  lemma ReboundAt(t: Table, k: nat, ip: Ip, mac: Mac, m: Mac)
    requires WellFormed(t) && ip != 0 && mac != 0 && k < |t|
    requires t[k].used ==> t[k].mac == mac || (t[k].ip == ip && BindingOf(t, mac) == 0)
    requires forall i :: 0 <= i < |t| && t[i].used && i != k ==> t[i].ip != ip && t[i].mac != mac
    ensures BindingOf(t[k := Entry(true, ip, mac, true)], m) == Rebound(t, ip, mac, m)
  {
    var r := t[k := Entry(true, ip, mac, true)];
    if m == mac {
      assert HoldsMac(r[k], m);
    } else {
      var i := First(t, (e: Entry) => HoldsMac(e, m));
      if i >= 0 && i != k {
        assert HoldsMac(r[i], m);
      }
    }
  }

  function AdmitSlot(t: Table, ip: Ip, mac: Mac): (k: int)
    requires WellFormed(t) && ip != 0 && mac != 0
    requires BindingOf(t, mac) == 0 ==> Admits(t, ip) || exists i :: 0 <= i < |t| && !t[i].used
    ensures 0 <= k < |t|
    ensures AfterAdmit(t, ip, Some(mac)) == t[k := Entry(true, ip, mac, true)]
    ensures t[k].used ==> t[k].mac == mac || (t[k].ip == ip && BindingOf(t, mac) == 0)
    ensures !t[k].used ==> BindingOf(t, mac) == 0 && !Admits(t, ip)
  {
    var byMac := First(t, (e: Entry) => HoldsMac(e, mac));
    var byIp := First(t, (e: Entry) => HoldsIp(e, ip));
    if byMac >= 0 then byMac else if byIp >= 0 then byIp else First(t, (e: Entry) => !e.used)
  }

  function Rebound(t: Table, ip: Ip, mac: Mac, m: Mac): Ip {
    if m == mac then ip else if BindingOf(t, m) == ip then 0 else BindingOf(t, m)
  }

  // Admission leaves every other client's entry alone.
  lemma AdmitLeaves(t: Table, ip: Ip, mac: Mac, n: nat)
    requires n < |t| && t[n].used
    requires ip == 0 || (t[n].mac != mac && t[n].ip != ip)
    ensures AfterAdmit(t, ip, Some(mac))[n] == t[n]
  {
  }

  // In any table, whoever is listed and with whatever: afterwards the address is admitted unless
  // every entry is in use; no other address comes in, and none goes but that of the same client.
  lemma AdmitOpens(t: Table, ip: Ip, mac: Option<Mac>, other: Ip)
    requires ip != 0 && other != ip
    ensures var r := AfterAdmit(t, ip, mac);
      && (Admits(r, ip) || forall i :: 0 <= i < |r| ==> r[i].used)
      && (Admits(r, other) ==> Admits(t, other))
      && (Admits(t, other) ==> Admits(r, other) || exists i :: 0 <= i < |t| && mac.Some? && HoldsMac(t[i], mac.value) && t[i].ip == other)
  {
    var r := AfterAdmit(t, ip, mac);
    var byMac := if mac.Some? then First(t, (e: Entry) => HoldsMac(e, mac.value)) else -1;
    var byIp := First(t, (e: Entry) => HoldsIp(e, ip));
    var k := if byMac >= 0 then byMac else if byIp >= 0 then byIp else First(t, (e: Entry) => !e.used);
    if k >= 0 {
      assert HoldsIp(r[k], ip);
    }
    if Admits(t, other) {
      var i :| 0 <= i < |t| && HoldsIp(t[i], other);
      assert i != k ==> r[i] == t[i];
    }
    if Admits(r, other) {
      var i :| 0 <= i < |r| && HoldsIp(r[i], other);
      assert i != k && r[i] == t[i];
    }
  }

  // Admitting an address again without a client's changes nothing: the entry keeps the client it has.
  lemma AdmitAgain(t: Table, ip: Ip)
    requires Admits(t, ip)
    ensures AfterAdmit(t, ip, None) == t
  {
    var i := First(t, (e: Entry) => HoldsIp(e, ip));
    assert t[i] == Entry(true, ip, t[i].mac, t[i].hasMac);
  }

  // Revoking shuts the address in any table, and no other.
  lemma RevokedIsShut(t: Table, ip: Ip, other: Ip)
    requires ip != 0 && other != ip
    ensures !Admits(AfterRevokeIp(t, ip), ip) && (Admits(AfterRevokeIp(t, ip), other) <==> Admits(t, other))
  {
    var r := AfterRevokeIp(t, ip);
    forall i | 0 <= i < |t| && HoldsIp(t[i], other) ensures HoldsIp(r[i], other) {
    }
  }

  // Membership by network address, in terms of the binding.
  lemma AdmittedIffBound(t: Table, ip: Ip)
    requires WellFormed(t) && ip != 0
    ensures Admits(t, ip) <==> exists m: Mac :: BindingOf(t, m) == ip
  {
    if Admits(t, ip) {
      var i :| 0 <= i < |t| && HoldsIp(t[i], ip);
      BindingAt(t, i);
    }
  }

  // The table itself, updated in place by the scans of the source.
  class AclTable {
    const slots: array<Entry>

    ghost predicate Valid()
      reads this
    {
      slots.Length == ACL_SLOTS
    }

    ghost function View(): Table
      reads this, slots
    {
      slots[..]
    }

    constructor ()
      ensures Valid() && fresh(slots)
      ensures View() == seq(ACL_SLOTS, _ => EMPTY)
    {
      slots := new Entry[ACL_SLOTS](_ => EMPTY);
    }

    method Clear()
      requires Valid()
      modifies slots
      ensures View() == seq(ACL_SLOTS, _ => EMPTY)
    {
      for i := 0 to ACL_SLOTS
        invariant forall j :: 0 <= j < i ==> slots[j] == EMPTY
      {
        slots[i] := EMPTY;
      }
    }

    method Admit(ip: Ip, mac: Option<Mac>)
      requires Valid()
      modifies slots
      ensures View() == AfterAdmit(old(View()), ip, mac)
    {
      if ip == 0 {
        return;
      }
      ghost var was := View();
      if mac.Some? {
        for i := 0 to ACL_SLOTS
          invariant View() == was
          invariant forall j :: 0 <= j < i ==> !HoldsMac(was[j], mac.value)
        {
          if HoldsMac(slots[i], mac.value) {
            slots[i] := slots[i].(ip := ip);
            assert View() == was[i := was[i].(ip := ip)];
            return;
          }
        }
      }
      for i := 0 to ACL_SLOTS
        invariant View() == was
        invariant forall j :: 0 <= j < i ==> !HoldsIp(was[j], ip)
      {
        if HoldsIp(slots[i], ip) {
          if mac.Some? {
            slots[i] := slots[i].(mac := mac.value, hasMac := true);
          }
          assert View() == AdmitAt(was, i, ip, mac);
          return;
        }
      }
      for i := 0 to ACL_SLOTS
        invariant View() == was
        invariant forall j :: 0 <= j < i ==> was[j].used
      {
        if !slots[i].used {
          slots[i] := slots[i].(used := true, ip := ip);
          if mac.Some? {
            slots[i] := slots[i].(mac := mac.value, hasMac := true);
          }
          assert View() == AdmitAt(was, i, ip, mac);
          return;
        }
      }
    }

    method RevokeByIp(ip: Ip)
      requires Valid()
      modifies slots
      ensures View() == AfterRevokeIp(old(View()), ip)
    {
      if ip == 0 {
        return;
      }
      for i := 0 to ACL_SLOTS
        invariant forall j :: 0 <= j < i ==> slots[j] == AfterRevokeIp(old(View()), ip)[j]
        invariant forall j :: i <= j < ACL_SLOTS ==> slots[j] == old(slots[j])
      {
        if HoldsIp(slots[i], ip) {
          slots[i] := EMPTY;
        }
      }
    }

    method RevokeByMac(mac: Mac)
      requires Valid()
      modifies slots
      ensures View() == AfterRevokeMac(old(View()), mac)
    {
      for i := 0 to ACL_SLOTS
        invariant forall j :: 0 <= j < i ==> slots[j] == AfterRevokeMac(old(View()), mac)[j]
        invariant forall j :: i <= j < ACL_SLOTS ==> slots[j] == old(slots[j])
      {
        if HoldsMac(slots[i], mac) {
          slots[i] := EMPTY;
        }
      }
    }

    method IsAdmitted(ip: Ip) returns (admitted: bool)
      requires Valid()
      ensures admitted == Admits(View(), ip)
    {
      admitted := false;
      if ip == 0 {
        return;
      }
      for i := 0 to ACL_SLOTS
        invariant forall j :: 0 <= j < i ==> !HoldsIp(slots[j], ip)
      {
        if HoldsIp(slots[i], ip) {
          assert HoldsIp(View()[i], ip);
          return true;
        }
      }
    }
  }
}
