// The daily quota records of main/http_server.c: one per client, twenty in all.

module QuotaBooks {
  import opened Basics

  const QUOTA_SLOTS := 20
  const DAILY_QUOTA_SEC := 3600

  datatype QuotaRecord = QuotaRecord(valid: bool, mac: Mac, dayId: nat, used: nat)

  const NO_RECORD := QuotaRecord(false, 0, 0, 0)

  // The record table and a history variable that only observes: the clients whose record was
  // displaced by another's.
  datatype Books = Books(records: seq<QuotaRecord>, evicted: set<Mac>)

  function NoBooks(): (b: Books)
    ensures |b.records| == QUOTA_SLOTS
  {
    Books(seq(QUOTA_SLOTS, _ => NO_RECORD), {})
  }

  function Min(a: int, b: int): int { if a <= b then a else b }

  function FindRecord(rs: seq<QuotaRecord>, mac: Mac): int { First(rs, (r: QuotaRecord) => r.valid && r.mac == mac) }

  function FindFreeRecord(rs: seq<QuotaRecord>): int { First(rs, (r: QuotaRecord) => !r.valid) }

  // The record of a client for a day, created if need be at the expense of slot 0; -1 for the
  // unknown client.
  function FindOrAlloc(b: Books, mac: Mac, day: nat): (r: (Books, int))
    requires |b.records| == QUOTA_SLOTS
    ensures |r.0.records| == QUOTA_SLOTS && -1 <= r.1 < QUOTA_SLOTS
    ensures r.1 == -1 <==> mac == 0
  {
    if mac == 0 then (b, -1) else
    var i := FindRecord(b.records, mac);
    if i >= 0 then
      if b.records[i].dayId == day then (b, i)
      else (b.(records := b.records[i := b.records[i].(dayId := day, used := 0)]), i)
    else
      var free := FindFreeRecord(b.records);
      if free >= 0 then (b.(records := b.records[free := QuotaRecord(true, mac, day, 0)]), free)
      else (Books(b.records[0 := QuotaRecord(true, mac, day, 0)], b.evicted + {b.records[0].mac}), 0)
  }

  function Remaining(b: Books, mac: Mac, day: nat): (r: (Books, int))
    requires |b.records| == QUOTA_SLOTS
    ensures |r.0.records| == QUOTA_SLOTS
    ensures 0 <= r.1 <= DAILY_QUOTA_SEC
  {
    var (b1, i) := FindOrAlloc(b, mac, day);
    (b1, if i < 0 then DAILY_QUOTA_SEC
         else if b1.records[i].used >= DAILY_QUOTA_SEC then 0
         else DAILY_QUOTA_SEC - b1.records[i].used)
  }

  function Charge(b: Books, mac: Mac, day: nat, delta: nat): (r: Books)
    requires |b.records| == QUOTA_SLOTS
    ensures |r.records| == QUOTA_SLOTS
  {
    var (b1, i) := FindOrAlloc(b, mac, day);
    if i < 0 then b1
    else b1.(records := b1.records[i := b1.records[i].(used := Min(DAILY_QUOTA_SEC, b1.records[i].used + delta))])
  }

  // Sound books: known and distinct clients, none charged more than the quota.
  ghost predicate BooksOk(b: Books) {
    && |b.records| == QUOTA_SLOTS
    && (forall i :: 0 <= i < QUOTA_SLOTS && b.records[i].valid ==> b.records[i].mac != 0 && b.records[i].used <= DAILY_QUOTA_SEC)
    && (forall i, j :: 0 <= i < j < QUOTA_SLOTS && b.records[i].valid && b.records[j].valid ==> b.records[i].mac != b.records[j].mac)
  }

  // Seconds a client has been charged on a day.
  function UsedOf(b: Books, mac: Mac, day: nat): nat {
    var i := FindRecord(b.records, mac);
    if i < 0 || b.records[i].dayId != day then 0 else b.records[i].used
  }

  lemma LookupKeeps(b: Books, mac: Mac, day: nat)
    requires BooksOk(b)
    ensures var (r, i) := FindOrAlloc(b, mac, day);
      && BooksOk(r)
      && b.evicted <= r.evicted
      && (i >= 0 ==> r.records[i].valid && r.records[i].mac == mac && r.records[i].dayId == day && FindRecord(r.records, mac) == i)
  {
  }

  // A lookup touches one slot. It displaces nobody from slots 1 to 19, displaces somebody only
  // when the table is full of other clients, and then the history says whom.
  lemma LookupDisplaces(b: Books, mac: Mac, day: nat, k: nat)
    requires BooksOk(b) && k < QUOTA_SLOTS && b.records[k].valid
    ensures var (r, i) := FindOrAlloc(b, mac, day);
      var kept := r.records[k].valid && r.records[k].mac == b.records[k].mac;
      && (k != i ==> r.records[k] == b.records[k])
      && (k >= 1 ==> kept)
      && (!kept ==> b.records[k].mac in r.evicted && FindRecord(b.records, mac) < 0 && FindFreeRecord(b.records) < 0)
  {
  }

  // The records in slots 1 to 19 that belonged to somebody still do.
  ghost predicate RecordsStay(b: Books, r: Books) {
    && |b.records| == |r.records| == QUOTA_SLOTS
    && forall k :: 1 <= k < QUOTA_SLOTS && b.records[k].valid ==> r.records[k].valid && r.records[k].mac == b.records[k].mac
  }

  lemma LookupStays(b: Books, mac: Mac, day: nat)
    requires BooksOk(b)
    ensures RecordsStay(b, FindOrAlloc(b, mac, day).0)
  {
    forall k | 1 <= k < QUOTA_SLOTS && b.records[k].valid
      ensures FindOrAlloc(b, mac, day).0.records[k].valid && FindOrAlloc(b, mac, day).0.records[k].mac == b.records[k].mac
    {
      LookupDisplaces(b, mac, day, k);
    }
  }

  lemma ChargeStays(b: Books, mac: Mac, day: nat, delta: nat)
    requires BooksOk(b)
    ensures RecordsStay(b, Charge(b, mac, day, delta))
  {
    LookupStays(b, mac, day);
    LookupKeeps(b, mac, day);
  }

  // A lookup on the right day leaves what a client has used unchanged, unless it is displaced.
  lemma LookupCharges(b: Books, mac: Mac, day: nat, m: Mac, d: nat)
    requires BooksOk(b) && (m == mac ==> day == d)
    requires m !in FindOrAlloc(b, mac, day).0.evicted
    ensures UsedOf(FindOrAlloc(b, mac, day).0, m, d) == UsedOf(b, m, d)
  {
    var (r, i) := FindOrAlloc(b, mac, day);
    var k := FindRecord(b.records, m);
    var l := FindRecord(r.records, m);
    LookupKeeps(b, mac, day);
    if k >= 0 {
      LookupDisplaces(b, mac, day, k);
      assert r.records[k].valid && r.records[k].mac == m;
      assert l == k;
    } else if l >= 0 {
      assert l == i;
    }
  }

  // What a client may still have is the quota less what it has used.
  lemma RemainingIsRest(b: Books, mac: Mac, day: nat)
    requires BooksOk(b) && mac != 0
    ensures Remaining(b, mac, day).1 == DAILY_QUOTA_SEC - UsedOf(b, mac, day)
  {
    var (r, i) := FindOrAlloc(b, mac, day);
    LookupKeeps(b, mac, day);
    if FindRecord(b.records, mac) >= 0 {
      assert i == FindRecord(b.records, mac);
    }
  }

  lemma ChargeKeeps(b: Books, mac: Mac, day: nat, delta: nat)
    requires BooksOk(b)
    ensures BooksOk(Charge(b, mac, day, delta))
    ensures b.evicted <= Charge(b, mac, day, delta).evicted
  {
    LookupKeeps(b, mac, day);
  }

  // A charge raises what one client has used, up to the quota, and nobody else's.
  lemma ChargeCharges(b: Books, mac: Mac, day: nat, delta: nat, m: Mac, d: nat)
    requires BooksOk(b) && mac != 0 && (m == mac ==> day == d)
    requires m !in Charge(b, mac, day, delta).evicted
    ensures UsedOf(Charge(b, mac, day, delta), m, d) ==
      if m == mac then Min(DAILY_QUOTA_SEC, UsedOf(b, m, d) + delta) else UsedOf(b, m, d)
  {
    LookupCharges(b, mac, day, m, d);
    LookupKeeps(b, mac, day);
    var (b1, i) := FindOrAlloc(b, mac, day);
    var r := Charge(b, mac, day, delta).records;
    var l := FindRecord(r, m);
    var k := FindRecord(b1.records, m);
    assert forall q :: 0 <= q < QUOTA_SLOTS && q != i ==> r[q] == b1.records[q];
    if m == mac {
      assert r[i].valid && r[i].mac == m;
    } else if k >= 0 {
      assert l == k;
    }
  }

  // Two charges on one day are one charge of their sum.
  lemma ChargeTwice(b: Books, mac: Mac, day: nat, x: nat, y: nat)
    requires BooksOk(b) && mac != 0
    ensures Charge(Charge(b, mac, day, x), mac, day, y) == Charge(b, mac, day, x + y)
  {
    var (b1, i) := FindOrAlloc(b, mac, day);
    var once := Charge(b, mac, day, x);
    LookupKeeps(b, mac, day);
    assert forall k :: 0 <= k < QUOTA_SLOTS && k != i ==> once.records[k] == b1.records[k];
    assert once.records[i].valid && once.records[i].mac == mac;
    assert FindRecord(once.records, mac) == i;
    assert FindOrAlloc(once, mac, day) == (once, i);
    var last := once.records[i].(used := Min(DAILY_QUOTA_SEC, once.records[i].used + y));
    assert once.records[i := last] == b1.records[i := last];
  }
}
