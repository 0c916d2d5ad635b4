// The 64-entry response cache of main/dns_server.c, and the map it stands for.

module DnsCache {
  import opened Basics
  import opened Words
  import opened DnsWire
  import opened DnsKey

  const ENTRIES := 64
  const MAX_RESPONSE := 512
  const NEVER := 0x7FFF_FFFF_FFFF_FFFF

  type Expiry = t: int | t < NEVER

  datatype Entry = Entry(valid: bool, key: Key, response: seq<Byte>, expires: Expiry)

  datatype Stored = Stored(response: seq<Byte>, expires: Expiry)

  // Until the next UTC midnight, or twelve hours while the wall clock is not set.
  function Ttl(wall: int): (t: int)
    ensures 0 < t <= 86_400_000_000
    ensures wall < 86400 ==> t == 43_200_000_000
    ensures wall >= 86400 ==> t % 1_000_000 == 0 && (wall + t / 1_000_000) % 86400 == 0
  {
    if wall < 86400 then 12 * 60 * 60 * 1_000_000 else ((wall / 86400 + 1) * 86400 - wall) * 1_000_000
  }

  predicate Serves(e: Entry, k: Key, now: int) { e.valid && now < e.expires && e.key == k }

  // The slot a lookup finds, -1 for none.
  function Hit(s: seq<Entry>, k: Key, now: int): (i: int)
    ensures i == -1 || 0 <= i < |s|
    ensures i >= 0 ==> Serves(s[i], k, now) && forall j :: 0 <= j < i ==> !Serves(s[j], k, now)
    ensures i < 0 ==> forall j :: 0 <= j < |s| ==> !Serves(s[j], k, now)
  {
    First(s, e => Serves(e, k, now))
  }

  function Purged(e: Entry, now: int): Entry {
    if e.valid && e.expires <= now then e.(valid := false) else e
  }

  // On its way the lookup drops the expired entries it passes.
  function AfterLookup(s: seq<Entry>, k: Key, now: int): (t: seq<Entry>)
    ensures |t| == |s|
    ensures var i := Hit(s, k, now);
            forall j :: 0 <= j < |s| ==> t[j] == if i < 0 || j < i then Purged(s[j], now) else s[j]
  {
    var i := Hit(s, k, now);
    seq(|s|, j requires 0 <= j < |s| => if i < 0 || j < i then Purged(s[j], now) else s[j])
  }

  predicate Ready(e: Entry, k: Key) { !e.valid || e.key == k }

  // The first slot that is free or holds the key, else the first of the earliest to expire.
  function Place(s: seq<Entry>, k: Key): (p: nat)
    requires s != []
    ensures p < |s|
    ensures (exists i :: 0 <= i < |s| && Ready(s[i], k)) ==> Ready(s[p], k) && forall i :: 0 <= i < p ==> !Ready(s[i], k)
    ensures (forall i :: 0 <= i < |s| ==> !Ready(s[i], k)) ==> IsEarliest(s, p, |s|)
  {
    var i := First(s, e => Ready(e, k));
    if i >= 0 then i else Earliest(s, |s|)
  }

  ghost predicate IsEarliest(s: seq<Entry>, p: int, n: nat) {
    0 <= p < n <= |s| && (forall i :: 0 <= i < n ==> s[p].expires <= s[i].expires)
    && forall i :: 0 <= i < p ==> s[p].expires < s[i].expires
  }

  function Earliest(s: seq<Entry>, n: nat): (p: nat)
    requires 0 < n <= |s|
    ensures IsEarliest(s, p, n)
  {
    if n == 1 then 0
    else
      var p := Earliest(s, n - 1);
      if s[n - 1].expires < s[p].expires then n - 1 else p
  }

  lemma {:induction false} EarliestIsUnique(s: seq<Entry>, p: int, q: int, n: nat)
    requires IsEarliest(s, p, n) && IsEarliest(s, q, n)
    ensures p == q
  {
    var a, b := s[p].expires, s[q].expires;
    assert a == b;
  }

  function AfterInsert(s: seq<Entry>, k: Key, v: Stored): (t: seq<Entry>)
    requires s != []
    ensures |t| == |s|
  {
    if v.response == [] || |v.response| > MAX_RESPONSE then s
    else s[Place(s, k) := Entry(true, Key(Cut(k.name), k.qtype), v.response, v.expires)]
  }

  // --- The code ---

  class Cache {
    const slots: array<Entry>

    ghost predicate Valid()
      reads this
    {
      slots.Length == ENTRIES
    }

    constructor ()
      ensures Valid() && fresh(slots)
      ensures forall i :: 0 <= i < ENTRIES ==> !slots[i].valid
    {
      slots := new Entry[ENTRIES](_ => Entry(false, Key([], 0), [], 0));
    }

    method Lookup(k: Key, now: int) returns (slot: int)
      requires Valid()
      modifies slots
      ensures slot == Hit(old(slots[..]), k, now)
      ensures slots[..] == AfterLookup(old(slots[..]), k, now)
    {
      ghost var s := slots[..];
      for i := 0 to ENTRIES
        invariant forall j :: 0 <= j < i ==> slots[j] == Purged(s[j], now) && !Serves(s[j], k, now)
        invariant forall j :: i <= j < ENTRIES ==> slots[j] == s[j]
      {
        var e := slots[i];
        if e.valid && e.expires <= now {
          slots[i] := e.(valid := false);
        } else if e.valid && e.key == k {
          return i;
        }
      }
      slot := -1;
    }

    method FindPlace(k: Key) returns (slot: int)
      requires Valid()
      ensures slot == Place(slots[..], k)
    {
      slot := -1;
      var oldest := NEVER;
      for i := 0 to ENTRIES
        invariant forall j :: 0 <= j < i ==> !Ready(slots[..][j], k)
        invariant if i == 0 then slot == -1 && oldest == NEVER
                  else IsEarliest(slots[..], slot, i) && oldest == slots[slot].expires
      {
        if !slots[i].valid || slots[i].key == k {
          return i;
        }
        if slots[i].expires < oldest {
          oldest := slots[i].expires;
          slot := i;
        }
      }
      EarliestIsUnique(slots[..], slot, Place(slots[..], k), ENTRIES);
      if slot < 0 {
        slot := 0;
      }
    }

    method Insert(k: Key, response: seq<Byte>, now: Micros, wall: int)
      requires Valid()
      modifies slots
      ensures slots[..] == AfterInsert(old(slots[..]), k, Stored(response, now + Ttl(wall)))
    {
      if response == [] || |response| > MAX_RESPONSE { return; }
      var slot := FindPlace(k);
      slots[slot] := Entry(true, Key(Cut(k.name), k.qtype), response, now + Ttl(wall));
    }
  }

  // --- The map ---

  ghost predicate OneEach(s: seq<Entry>) {
    forall i, j :: 0 <= i < j < |s| && s[i].valid && s[j].valid ==> s[i].key != s[j].key
  }

  ghost predicate Holds(s: seq<Entry>, k: Key, v: Stored) {
    exists i :: 0 <= i < |s| && s[i].valid && s[i].key == k && s[i].response == v.response && s[i].expires == v.expires
  }

  // The cache holds exactly what the map says.
  ghost predicate Represents(s: seq<Entry>, m: map<Key, Stored>) {
    && OneEach(s)
    && (forall i :: 0 <= i < |s| && s[i].valid ==> s[i].key in m && m[s[i].key] == Stored(s[i].response, s[i].expires))
    && (forall k :: k in m ==> Holds(s, k, m[k]))
  }

  function Unexpired(m: map<Key, Stored>, now: int): map<Key, Stored> {
    map k | k in m && now < m[k].expires :: m[k]
  }

  // Where the cache holds a key.
  lemma {:induction false} Where(s: seq<Entry>, m: map<Key, Stored>, k: Key) returns (j: int)
    requires Represents(s, m) && k in m
    ensures 0 <= j < |s| && s[j].valid && s[j].key == k && m[k] == Stored(s[j].response, s[j].expires)
  {
    assert Holds(s, k, m[k]);
    j :| 0 <= j < |s| && s[j].valid && s[j].key == k && s[j].response == m[k].response && s[j].expires == m[k].expires;
  }

  // A lookup finds what the map has for the key, if that has not expired.
  lemma {:induction false} LookupFinds(s: seq<Entry>, m: map<Key, Stored>, k: Key, now: int)
    requires Represents(s, m)
    ensures var i := Hit(s, k, now);
            && (i >= 0 <==> k in m && now < m[k].expires)
            && (i >= 0 ==> Stored(s[i].response, s[i].expires) == m[k] && AfterLookup(s, k, now)[i] == s[i])
  {
    if k in m && now < m[k].expires {
      var j := Where(s, m, k);
      assert Serves(s[j], k, now);
    }
  }

  // t is s with some of its slots dropped.
  ghost predicate DropOf(s: seq<Entry>, t: seq<Entry>) {
    |t| == |s| && forall i :: 0 <= i < |s| ==> t[i] == s[i] || (s[i].valid && t[i] == s[i].(valid := false))
  }

  lemma {:induction false} LookupDrops(s: seq<Entry>, k: Key, now: int)
    ensures DropOf(s, AfterLookup(s, k, now))
  {
  }

  // Dropping slots drops their keys.
  lemma {:induction false} Dropped(s: seq<Entry>, m: map<Key, Stored>, t: seq<Entry>, left: map<Key, Stored>)
    requires Represents(s, m) && DropOf(s, t)
    requires forall k :: k in left ==> k in m && left[k] == m[k]
    requires forall i :: 0 <= i < |s| && s[i].valid ==> (t[i].valid <==> s[i].key in left)
    ensures Represents(t, left)
  {
    DropDistinct(s, t);
    forall k | k in left ensures Holds(t, k, left[k]) {
      HeldOn(s, m, t, left, k);
    }
    forall i | 0 <= i < |t| && t[i].valid ensures t[i].key in left && left[t[i].key] == Stored(t[i].response, t[i].expires) {
      assert t[i] == s[i];
    }
  }

  lemma {:induction false} DropDistinct(s: seq<Entry>, t: seq<Entry>)
    requires OneEach(s) && DropOf(s, t)
    ensures OneEach(t)
  {
  }

  lemma {:induction false} HeldOn(s: seq<Entry>, m: map<Key, Stored>, t: seq<Entry>, left: map<Key, Stored>, k: Key)
    requires Represents(s, m) && DropOf(s, t) && k in left && k in m && left[k] == m[k]
    requires forall i :: 0 <= i < |s| && s[i].valid ==> (t[i].valid <==> s[i].key in left)
    ensures Holds(t, k, left[k])
  {
    var j := Where(s, m, k);
    assert t[j] == s[j];
  }

  // On a miss the whole cache has been purged: what is left is the unexpired part of the map,
  // and the key is not in it.
  lemma {:induction false} MissPurges(s: seq<Entry>, m: map<Key, Stored>, k: Key, now: int)
    requires Represents(s, m) && Hit(s, k, now) < 0
    ensures Represents(AfterLookup(s, k, now), Unexpired(m, now)) && k !in Unexpired(m, now)
  {
    LookupFinds(s, m, k, now);
    LookupDrops(s, k, now);
    Dropped(s, m, AfterLookup(s, k, now), Unexpired(m, now));
  }

  lemma {:induction false} Survivors(s: seq<Entry>, m: map<Key, Stored>, t: seq<Entry>) returns (left: map<Key, Stored>)
    requires Represents(s, m) && DropOf(s, t)
    ensures Represents(t, left)
    ensures forall k :: k in left <==> k in m && KeptIn(t, k)
    ensures forall k :: k in left ==> left[k] == m[k]
  {
    left := map k | k in m && KeptIn(t, k) :: m[k];
    forall i | 0 <= i < |s| && s[i].valid ensures t[i].valid <==> s[i].key in left {
      KeptIff(s, t, i);
    }
    Dropped(s, m, t, left);
  }

  // On a hit only expired entries may be gone.
  lemma {:induction false} HitKeeps(s: seq<Entry>, m: map<Key, Stored>, k: Key, now: int) returns (left: map<Key, Stored>)
    requires Represents(s, m) && Hit(s, k, now) >= 0
    ensures Represents(AfterLookup(s, k, now), left)
    ensures Unexpired(left, now) == Unexpired(m, now)
    ensures forall k' :: k' in left ==> k' in m && left[k'] == m[k']
  {
    var t := AfterLookup(s, k, now);
    LookupDrops(s, k, now);
    left := Survivors(s, m, t);
    forall k' | k' in m && now < m[k'].expires ensures KeptIn(t, k') {
      UnexpiredStays(s, m, k, k', now);
    }
    SameUnexpired(m, left, now);
  }

  lemma {:induction false} SameUnexpired(m: map<Key, Stored>, left: map<Key, Stored>, now: int)
    requires forall k :: k in left ==> k in m && left[k] == m[k]
    requires forall k :: k in m && now < m[k].expires ==> k in left
    ensures Unexpired(left, now) == Unexpired(m, now)
  {
  }

  lemma {:induction false} UnexpiredStays(s: seq<Entry>, m: map<Key, Stored>, k: Key, k': Key, now: int)
    requires Represents(s, m) && k' in m && now < m[k'].expires
    ensures KeptIn(AfterLookup(s, k, now), k')
  {
    LookupDrops(s, k, now);
    var j := Where(s, m, k');
    assert AfterLookup(s, k, now)[j] == s[j];
  }

  lemma {:induction false} KeptIff(s: seq<Entry>, t: seq<Entry>, i: nat)
    requires OneEach(s) && DropOf(s, t) && i < |s| && s[i].valid
    ensures t[i].valid <==> KeptIn(t, s[i].key)
  {
    if KeptIn(t, s[i].key) {
      var j :| 0 <= j < |t| && t[j].valid && t[j].key == s[i].key;
      assert t[j] == s[j];
    }
  }

  ghost predicate KeptIn(t: seq<Entry>, k: Key) { exists j :: 0 <= j < |t| && t[j].valid && t[j].key == k }

  // Inserting a key the map does not have changes one slot. While a slot is free nothing is
  // lost; in a full cache one entry goes, one that expires no later than any other.
  lemma {:induction false} InsertAdds(s: seq<Entry>, m: map<Key, Stored>, k: Key, v: Stored) returns (victim: Key)
    requires s != [] && Represents(s, m) && k !in m && |k.name| <= ROOM
    requires 0 < |v.response| <= MAX_RESPONSE
    ensures |m| < |s| ==> Represents(AfterInsert(s, k, v), m[k := v])
    ensures |m| >= |s| ==>
              victim in m && (forall k' :: k' in m ==> m[victim].expires <= m[k'].expires)
              && Represents(AfterInsert(s, k, v), (m - {victim})[k := v])
  {
    var p := Place(s, k);
    victim := s[p].key;
    SizeOf(s, m);
    FullIff(s);
    if |m| < |s| {
      var i :| 0 <= i < |s| && !s[i].valid;
      assert Ready(s[i], k);
      assert !s[p].valid;
      Replaced(s, m, k, v, p, m);
    } else {
      assert forall i :: 0 <= i < |s| ==> !Ready(s[i], k);
      forall k' | k' in m ensures m[victim].expires <= m[k'].expires {
        var j := Where(s, m, k');
      }
      Replaced(s, m, k, v, p, m - {victim});
    }
  }

  // Every key in the table fits its 96-byte field, whatever is inserted.
  lemma KeysFit(s: seq<Entry>, k: Key, v: Stored)
    requires s != [] && forall i :: 0 <= i < |s| ==> |s[i].key.name| <= ROOM
    ensures forall i :: 0 <= i < |s| ==> |AfterInsert(s, k, v)[i].key.name| <= ROOM
  {
  }

  // A key that is there already is replaced, if no slot before its own is free; else it is there
  // twice. The server inserts only what it has just failed to find.
  lemma {:induction false} InsertAgainIff(s: seq<Entry>, m: map<Key, Stored>, k: Key, v: Stored)
    requires s != [] && Represents(s, m) && k in m && |k.name| <= ROOM && 0 < |v.response| <= MAX_RESPONSE
    ensures OneEach(AfterInsert(s, k, v)) <==> exists j :: OwnFirst(s, k, j)
    ensures forall j :: OwnFirst(s, k, j) ==> AfterInsert(s, k, v) == s[j := Entry(true, k, v.response, v.expires)]
  {
    var own := Where(s, m, k);
    var p := Place(s, k);
    assert Ready(s[own], k);
    var t := AfterInsert(s, k, v);
    if p == own {
      assert OwnFirst(s, k, own);
    } else {
      assert !s[p].valid;
      assert t[own] == s[own] && t[p].valid && t[p].key == t[own].key;
    }
  }

  // The key's own slot, with none free before it.
  predicate OwnFirst(s: seq<Entry>, k: Key, j: int) {
    0 <= j < |s| && s[j].valid && s[j].key == k && forall i :: 0 <= i < j ==> s[i].valid && s[i].key != k
  }

  lemma {:induction false} Replaced(s: seq<Entry>, m: map<Key, Stored>, k: Key, v: Stored, p: nat, rest: map<Key, Stored>)
    requires Represents(s, m) && k !in m && p < |s|
    requires rest == if s[p].valid then m - {s[p].key} else m
    ensures Represents(s[p := Entry(true, k, v.response, v.expires)], rest[k := v])
  {
    var t := s[p := Entry(true, k, v.response, v.expires)];
    var after := rest[k := v];
    assert t[p].valid;
    forall k' | k' in after ensures Holds(t, k', after[k']) {
      if k' != k {
        var j := Where(s, m, k');
        assert t[j] == s[j];
      }
    }
    forall i | 0 <= i < |t| && t[i].valid
      ensures t[i].key in after && after[t[i].key] == Stored(t[i].response, t[i].expires)
    {
      if i != p {
        assert t[i] == s[i];
      }
    }
  }

  // A free slot is the same as room in the map.
  predicate Full(s: seq<Entry>) { s == [] || (s[|s| - 1].valid && Full(s[..|s| - 1])) }

  lemma {:induction false} FullIff(s: seq<Entry>)
    ensures Full(s) <==> forall i :: 0 <= i < |s| ==> s[i].valid
    decreases |s|
  {
    if s != [] {
      var before := s[..|s| - 1];
      FullIff(before);
      assert forall i :: 0 <= i < |before| ==> before[i] == s[i];
    }
  }

  lemma {:induction false} SizeOf(s: seq<Entry>, m: map<Key, Stored>)
    requires Represents(s, m)
    ensures |m| <= |s| && (|m| == |s| <==> Full(s))
    decreases |s|
  {
    if s == [] {
      forall k | k in m ensures false {
        var j := Where(s, m, k);
      }
      assert m == map[];
    } else {
      var n := |s| - 1;
      var rest := if s[n].valid then m - {s[n].key} else m;
      WithoutLast(s, m, rest);
      SizeOf(s[..n], rest);
      if s[n].valid {
        SizeLess(m, s[n].key);
      }
    }
  }

  lemma SizeLess(m: map<Key, Stored>, k: Key)
    requires k in m
    ensures |m| == |m - {k}| + 1
  {
    assert m == (m - {k})[k := m[k]];
  }

  lemma {:induction false} WithoutLast(s: seq<Entry>, m: map<Key, Stored>, rest: map<Key, Stored>)
    requires s != [] && Represents(s, m)
    requires rest == if s[|s| - 1].valid then m - {s[|s| - 1].key} else m
    ensures Represents(s[..|s| - 1], rest)
  {
    var before := s[..|s| - 1];
    forall k | k in rest ensures Holds(before, k, rest[k]) {
      var j := Where(s, m, k);
      assert before[j] == s[j];
    }
    forall i | 0 <= i < |before| && before[i].valid
      ensures before[i].key in rest && rest[before[i].key] == Stored(before[i].response, before[i].expires)
    {
      assert before[i] == s[i];
    }
  }
}
