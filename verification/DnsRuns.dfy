// What the name server's cache answers over a whole run of queries.

module DnsRuns {
  import opened Basics
  import opened Words
  import opened DnsWire
  import opened DnsKey
  import opened DnsCache
  import opened DnsServer

  // The cache after some turns.
  function After(s: seq<Entry>, ts: seq<Turn>, ip: Address): (r: seq<Entry>)
    requires s != []
    ensures r != [] && |r| == |s|
  {
    if ts == [] then s else Serve(After(s, ts[..|ts| - 1], ip), ts[|ts| - 1], ip).slots
  }

  // Whether a turn stores what the resolvers answered.
  predicate Stores(s: seq<Entry>, t: Turn) {
    && !Ignored(t.packet) && t.authenticated && Hit(s, KeyOf(t.packet), t.now) < 0
    && t.upstream.Some? && Cacheable(t.upstream.value)
  }

  // The turns that stored something, in order, and the last of them for a key.
  function Log(s: seq<Entry>, ts: seq<Turn>, ip: Address): seq<Turn>
    requires s != []
  {
    if ts == [] then []
    else
      var n := |ts| - 1;
      Log(s, ts[..n], ip) + if Stores(After(s, ts[..n], ip), ts[n]) then [ts[n]] else []
  }

  function Last(log: seq<Turn>, k: Key): (r: Option<Turn>)
    ensures r.Some? ==> r.value in log && KeyOf(r.value.packet) == k
  {
    if log == [] then None
    else if KeyOf(log[|log| - 1].packet) == k then Some(log[|log| - 1])
    else Last(log[..|log| - 1], k)
  }

  // What a turn stores, when it does.
  function Value(t: Turn): Stored {
    Stored(if t.upstream.Some? then t.upstream.value else [], t.later + Ttl(t.wall))
  }

  // Whether what was last stored for a key has yet to expire, and the keys of which that is so.
  ghost predicate Live(log: seq<Turn>, k: Key, now: int) {
    Last(log, k).Some? && now < Value(Last(log, k).value).expires
  }

  ghost function Held(log: seq<Turn>, now: int): set<Key> {
    set t | t in log && Live(log, KeyOf(t.packet), now) :: KeyOf(t.packet)
  }

  // The map holds for each key what was last stored under it; and, when the run was modest,
  // nothing that was stored and has not expired by `time` is missing.
  ghost predicate Follows(m: map<Key, Stored>, log: seq<Turn>, time: int, modest: bool) {
    && (forall k :: k in m ==> Last(log, k).Some? && m[k] == Value(Last(log, k).value))
    && (modest ==> forall k :: Live(log, k, time) ==> k in m)
  }

  ghost predicate Tells(s: seq<Entry>, m: map<Key, Stored>, log: seq<Turn>, time: int, modest: bool) {
    Represents(s, m) && Follows(m, log, time, modest)
  }

  // It still does when some of what has expired is left out.
  lemma {:induction false} LeavingFollows(m: map<Key, Stored>, left: map<Key, Stored>, log: seq<Turn>, time: int, modest: bool, now: int)
    requires Follows(m, log, time, modest) && time <= now
    requires forall k :: k in left ==> k in m && left[k] == m[k]
    requires forall k :: k in Unexpired(m, now) ==> k in left
    ensures Follows(left, log, now, modest)
  {
    forall k | modest && Live(log, k, now) ensures k in left {
      assert Live(log, k, time);
      assert k in Unexpired(m, now);
    }
  }

  lemma {:induction false} HitTells(s: seq<Entry>, m: map<Key, Stored>, log: seq<Turn>, time: int, modest: bool, k: Key, now: int)
    returns (left: map<Key, Stored>)
    requires Tells(s, m, log, time, modest) && time <= now && Hit(s, k, now) >= 0
    ensures Tells(AfterLookup(s, k, now), left, log, now, modest)
  {
    left := HitKeeps(s, m, k, now);
    LeavingFollows(m, left, log, time, modest, now);
  }

  lemma {:induction false} MissTells(s: seq<Entry>, m: map<Key, Stored>, log: seq<Turn>, time: int, modest: bool, k: Key, now: int)
    requires Tells(s, m, log, time, modest) && time <= now && Hit(s, k, now) < 0
    ensures Tells(AfterLookup(s, k, now), Unexpired(m, now), log, now, modest) && k !in Unexpired(m, now)
  {
    MissPurges(s, m, k, now);
    LeavingFollows(m, Unexpired(m, now), log, time, modest, now);
  }

  // A map in which nothing has expired is no larger than the set of unexpired keys.
  lemma {:induction false} HeldBounds(m: map<Key, Stored>, log: seq<Turn>, now: int, modest: bool)
    requires Follows(m, log, now, modest) && Unexpired(m, now) == m
    ensures |m| <= |Held(log, now)|
  {
    forall k | k in m.Keys ensures k in Held(log, now) {
      assert k in Unexpired(m, now);
      assert Live(log, KeyOf(Last(log, k).value.packet), now);
    }
    Fewer(m.Keys, Held(log, now));
    assert |m.Keys| == |m|;
  }

  lemma {:induction false} Fewer(p: set<Key>, q: set<Key>)
    requires p <= q
    ensures |p| <= |q|
    decreases |p|
  {
    if k :| k in p {
      Fewer(p - {k}, q - {k});
    }
  }

  lemma {:induction false} LastAppend(log: seq<Turn>, t: Turn, k: Key)
    ensures Last(log + [t], k) == if KeyOf(t.packet) == k then Some(t) else Last(log, k)
  {
    assert (log + [t])[..|log|] == log;
  }

  // The map after an insertion into the slots.
  lemma {:induction false} InsertMaps(s: seq<Entry>, m: map<Key, Stored>, k: Key, v: Stored) returns (m': map<Key, Stored>)
    requires s != [] && Represents(s, m) && k !in m && |k.name| <= ROOM && 0 < |v.response| <= MAX_RESPONSE
    ensures Represents(AfterInsert(s, k, v), m')
    ensures k in m' && m'[k] == v
    ensures forall k' :: k' in m' && k' != k ==> k' in m && m'[k'] == m[k']
    ensures |m| < |s| ==> forall k' :: k' in m ==> k' in m'
  {
    var victim := InsertAdds(s, m, k, v);
    if |m| < |s| {
      m' := m[k := v];
    } else {
      m' := (m - {victim})[k := v];
    }
  }

  lemma {:induction false} InsertTells(s: seq<Entry>, m: map<Key, Stored>, log: seq<Turn>, modest: bool, t: Turn)
    returns (m': map<Key, Stored>)
    requires s != [] && Tells(s, m, log, t.now, modest) && KeyOf(t.packet) !in m
    requires Unexpired(m, t.now) == m && (modest ==> |Held(log, t.now)| < |s|)
    requires t.upstream.Some? && 0 < |t.upstream.value| <= MAX_RESPONSE
    ensures Tells(AfterInsert(s, KeyOf(t.packet), Value(t)), m', log + [t], t.now, modest)
  {
    var k, v := KeyOf(t.packet), Value(t);
    TextFits(t.packet);
    HeldBounds(m, log, t.now, modest);
    m' := InsertMaps(s, m, k, v);
    LogGrows(m, m', log, modest, t, k, v);
  }

  lemma {:induction false} LogGrows(m: map<Key, Stored>, m': map<Key, Stored>, log: seq<Turn>, modest: bool, t: Turn, k: Key, v: Stored)
    requires Follows(m, log, t.now, modest) && k == KeyOf(t.packet) && v == Value(t)
    requires k in m' && m'[k] == v
    requires forall k' :: k' in m' && k' != k ==> k' in m && m'[k'] == m[k']
    requires modest ==> forall k' :: k' in m ==> k' in m'
    ensures Follows(m', log + [t], t.now, modest)
  {
    forall k' ensures Last(log + [t], k') == if k == k' then Some(t) else Last(log, k') {
      LastAppend(log, t, k');
    }
    forall k' | modest && Live(log + [t], k', t.now) ensures k' in m' {
      assert k' == k || Live(log, k', t.now);
    }
  }

  // One turn.
  lemma {:induction false} ServeTells(s: seq<Entry>, m: map<Key, Stored>, log: seq<Turn>, time: int, modest: bool, t: Turn, ip: Address)
    returns (m': map<Key, Stored>)
    requires s != [] && Tells(s, m, log, time, modest) && time <= t.now && Plausible(t)
    requires modest && Stores(s, t) ==> |Held(log, t.now)| < |s|
    ensures Tells(Serve(s, t, ip).slots, m', log + (if Stores(s, t) then [t] else []), t.now, modest)
  {
    if Ignored(t.packet) || !t.authenticated {
      m' := m;
      LeavingFollows(m, m, log, time, modest, t.now);
    } else {
      m' := AnswerTells(s, m, log, time, modest, t, ip);
    }
    assert log + [] == log;
  }

  lemma {:induction false} AnswerTells(s: seq<Entry>, m: map<Key, Stored>, log: seq<Turn>, time: int, modest: bool, t: Turn, ip: Address)
    returns (m': map<Key, Stored>)
    requires s != [] && Tells(s, m, log, time, modest) && time <= t.now && Plausible(t)
    requires !Ignored(t.packet) && t.authenticated && (modest && Stores(s, t) ==> |Held(log, t.now)| < |s|)
    ensures Tells(Serve(s, t, ip).slots, m', if Stores(s, t) then log + [t] else log, t.now, modest)
  {
    var k := KeyOf(t.packet);
    if Hit(s, k, t.now) >= 0 {
      m' := HitTells(s, m, log, time, modest, k, t.now);
    } else {
      MissTells(s, m, log, time, modest, k, t.now);
      m' := Unexpired(m, t.now);
      if Stores(s, t) {
        m' := InsertTells(AfterLookup(s, k, t.now), m', log, modest, t);
      }
    }
  }

  // The environment: the clock of one turn is not behind that of the turn before.
  function Clock(ts: seq<Turn>): int { if ts == [] then 0 else ts[|ts| - 1].now }

  ghost predicate Orderly(ts: seq<Turn>) {
    forall i :: 0 <= i < |ts| ==> Plausible(ts[i]) && Clock(ts[..i]) <= ts[i].now
  }

  ghost predicate Empty(s: seq<Entry>) { s != [] && forall i :: 0 <= i < |s| ==> !s[i].valid }

  lemma {:induction false} OrderlyPrefix(ts: seq<Turn>)
    requires Orderly(ts) && ts != []
    ensures Orderly(ts[..|ts| - 1]) && Plausible(ts[|ts| - 1]) && Clock(ts[..|ts| - 1]) <= ts[|ts| - 1].now
  {
    var before := ts[..|ts| - 1];
    forall i | 0 <= i < |before| ensures Plausible(before[i]) && Clock(before[..i]) <= before[i].now {
      assert before[..i] == ts[..i] && before[i] == ts[i];
    }
  }

  // A modest run: whenever an answer is stored, fewer keys hold unexpired answers than there
  // are slots. However much was stored before and has expired does not count.
  ghost predicate Modest(s: seq<Entry>, ts: seq<Turn>, ip: Address)
    requires s != []
  {
    forall i :: 0 <= i < |ts| && Stores(After(s, ts[..i], ip), ts[i]) ==> |Held(Log(s, ts[..i], ip), ts[i].now)| < |s|
  }

  lemma {:induction false} ModestPrefix(s: seq<Entry>, ts: seq<Turn>, ip: Address)
    requires s != [] && ts != [] && Modest(s, ts, ip)
    ensures var before, t := ts[..|ts| - 1], ts[|ts| - 1];
      && Modest(s, before, ip)
      && (Stores(After(s, before, ip), t) ==> |Held(Log(s, before, ip), t.now)| < |s|)
  {
    var before := ts[..|ts| - 1];
    forall i | 0 <= i < |before| && Stores(After(s, before[..i], ip), before[i])
      ensures |Held(Log(s, before[..i], ip), before[i].now)| < |s|
    {
      assert before[..i] == ts[..i] && before[i] == ts[i];
    }
  }

  lemma {:induction false} EmptyTells(s: seq<Entry>, modest: bool)
    requires Empty(s)
    ensures Tells(s, map[], [], 0, modest)
  {
  }

  lemma {:induction false} RunTells(s: seq<Entry>, ts: seq<Turn>, ip: Address, modest: bool) returns (m: map<Key, Stored>)
    requires Empty(s) && Orderly(ts) && (modest ==> Modest(s, ts, ip))
    ensures Tells(After(s, ts, ip), m, Log(s, ts, ip), Clock(ts), modest)
    decreases |ts|
  {
    if ts == [] {
      m := map[];
      EmptyTells(s, modest);
    } else {
      OrderlyPrefix(ts);
      if modest {
        ModestPrefix(s, ts, ip);
      }
      var before, t := ts[..|ts| - 1], ts[|ts| - 1];
      m := RunTells(s, before, ip, modest);
      var r, log, time := After(s, before, ip), Log(s, before, ip), Clock(before);
      m := ServeTells(r, m, log, time, modest, t, ip);
      LastTurn(s, ts, ip);
    }
  }

  lemma {:induction false} LastTurn(s: seq<Entry>, ts: seq<Turn>, ip: Address)
    requires s != [] && ts != []
    ensures var before, t := ts[..|ts| - 1], ts[|ts| - 1];
            var r := After(s, before, ip);
            && After(s, ts, ip) == Serve(r, t, ip).slots
            && Log(s, ts, ip) == Log(s, before, ip) + (if Stores(r, t) then [t] else [])
            && Clock(ts) == t.now
  {
  }

  // Over any run: a query is answered from the cache only with what the resolvers last answered
  // to a query with its key, unexpired, and unchanged but for the id; and after a modest run it
  // is so answered exactly when there is such an answer and it has not expired.
  lemma {:induction false} HitIsLastStored(s: seq<Entry>, ts: seq<Turn>, t: Turn, ip: Address)
    requires Empty(s) && Orderly(ts) && Clock(ts) <= t.now && !Ignored(t.packet) && t.authenticated
    ensures var k := KeyOf(t.packet);
            var last := Last(Log(s, ts, ip), k);
            && (Hit(After(s, ts, ip), k, t.now) >= 0 ==>
                 && last.Some? && t.now < Value(last.value).expires
                 && Serve(After(s, ts, ip), t, ip).reply == FromCache(Value(last.value).response, t.packet))
            && (Modest(s, ts, ip) && last.Some? && t.now < Value(last.value).expires ==>
                 Hit(After(s, ts, ip), k, t.now) >= 0)
  {
    var modest := Modest(s, ts, ip);
    var m := RunTells(s, ts, ip, modest);
    HitTold(After(s, ts, ip), m, Log(s, ts, ip), Clock(ts), modest, t);
  }

  lemma {:induction false} HitTold(s: seq<Entry>, m: map<Key, Stored>, log: seq<Turn>, time: int, modest: bool, t: Turn)
    requires Tells(s, m, log, time, modest) && time <= t.now
    ensures var k := KeyOf(t.packet);
            var i, last := Hit(s, k, t.now), Last(log, k);
            && (i >= 0 ==>
                 && last.Some? && t.now < Value(last.value).expires
                 && s[i].response == Value(last.value).response)
            && (modest && last.Some? && t.now < Value(last.value).expires ==> i >= 0)
  {
    var k := KeyOf(t.packet);
    LookupFinds(s, m, k, t.now);
    assert Live(log, k, t.now) ==> Live(log, k, time);
  }

  // What is in the log was a cacheable answer to an authenticated query.
  lemma {:induction false} LogIsGood(s: seq<Entry>, ts: seq<Turn>, ip: Address)
    requires s != []
    ensures forall t :: t in Log(s, ts, ip) ==>
              t in ts && t.authenticated && !Ignored(t.packet) && t.upstream.Some? && Cacheable(t.upstream.value)
    decreases |ts|
  {
    if ts != [] {
      LogIsGood(s, ts[..|ts| - 1], ip);
    }
  }

  // u's answer from upstream is what t is answered with.
  ghost predicate Source(u: Turn, t: Turn, reply: Option<seq<Byte>>) {
    && u.authenticated && u.upstream.Some? && Cacheable(u.upstream.value)
    && |t.packet| >= HEADER && reply == FromCache(u.upstream.value, t.packet)
    && t.now < u.later + Ttl(u.wall)
  }

  // So an answer from the cache is what answered an earlier query with the same key; and for a
  // short clean question that query asked the same, up to case, if and only if it was short and
  // clean too.
  lemma {:induction false} CachedAnswersTheQuestion(s: seq<Entry>, ts: seq<Turn>, t: Turn, ip: Address) returns (u: Turn)
    requires Empty(s) && Orderly(ts) && Clock(ts) <= t.now && !Ignored(t.packet) && t.authenticated
    requires Hit(After(s, ts, ip), KeyOf(t.packet), t.now) >= 0
    ensures u in ts && Source(u, t, Serve(After(s, ts, ip), t, ip).reply)
    ensures Short(t.packet) ==> (SameQuestion(u.packet, t.packet) <==> Short(u.packet))
  {
    HitIsLastStored(s, ts, t, ip);
    LogIsGood(s, ts, ip);
    u := Last(Log(s, ts, ip), KeyOf(t.packet)).value;
    if Short(t.packet) {
      SameQuestionIff(u.packet, t.packet);
    }
  }

  // --- Keys that are shared ---

  // Whatever is stored is served to the next query with its key.
  lemma {:induction false} SharedKeyIsServed(s: seq<Entry>, u: Turn, t: Turn, ip: Address)
    requires Empty(s) && Plausible(u) && Stores(s, u) && 0 <= u.now <= t.now
    requires !Ignored(t.packet) && t.authenticated && KeyOf(t.packet) == KeyOf(u.packet) && t.now < Value(u).expires
    ensures Serve(After(s, [u], ip), t, ip).reply == FromCache(u.upstream.value, t.packet)
  {
    var ts := [u];
    assert ts[..0] == [];
    assert Orderly(ts);
    assert Log(s, ts, ip) == [] + [u];
    assert Last(Log(s, ts, ip), KeyOf(t.packet)) == Some(u);
    assert Held([], u.now) == {};
    assert Modest(s, ts, ip);
    HitIsLastStored(s, ts, t, ip);
  }

  // A minimal query for a name, and a minimal answer worth caching.
  function QueryFor(ls: seq<Label>): seq<Byte> {
    [0, 0, 1, 0, 0, 1, 0, 0, 0, 0, 0, 0] + WireName(ls) + [0, 1, 0, 1]
  }

  const ANSWER: seq<Byte> := [0, 0, 129, 128, 0, 1, 0, 1, 0, 0, 0, 0]

  lemma {:induction false} QueryReads(ls: seq<Label>)
    ensures var p := QueryFor(ls);
      && !Ignored(p) && QuestionName(p) == Some(Name(ls, |p| - 4)) && Word(p[|p| - 4], p[|p| - 3]) == 1
      && KeyOf(p) == Key(Lower(CString(Cut(Dotted(ls)))), 1)
  {
    var header: seq<Byte> := [0, 0, 1, 0, 0, 1, 0, 0, 0, 0, 0, 0];
    WireRoundTrip(header, ls, [0, 1, 0, 1], HEADER);
    WalkersAgree(QueryFor(ls));
  }

  // The turn in which a query for a name is answered and stored, and one that asks a little later.
  function Storing(ls: seq<Label>): Turn { Turn(QueryFor(ls), true, 1, Some(ANSWER), 1, 0) }

  function Asking(ls: seq<Label>): Turn { Turn(QueryFor(ls), true, 2, None, 2, 0) }

  lemma {:induction false} StoringStores(s: seq<Entry>, ls: seq<Label>)
    requires Empty(s)
    ensures Stores(s, Storing(ls)) && Plausible(Storing(ls)) && Orderly([Storing(ls)])
    ensures Value(Storing(ls)).expires > 2
  {
    QueryReads(ls);
    assert [Storing(ls)][..0] == [];
  }

  // Whoever asks for a name whose text is that of a name asked for before gets its answer.
  lemma {:induction false} NamesakeIsServed(s: seq<Entry>, asked: seq<Label>, asking: seq<Label>, ip: Address)
    requires Empty(s) && Dotted(asked) == Dotted(asking)
    ensures Orderly([Storing(asked)])
    ensures Serve(After(s, [Storing(asked)], ip), Asking(asking), ip).reply == FromCache(ANSWER, QueryFor(asking))
  {
    QueryReads(asked);
    QueryReads(asking);
    StoringStores(s, asked);
    SharedKeyIsServed(s, Storing(asked), Asking(asking), ip);
  }

  // Somebody asks for a single label "a.b"; whoever then asks for the labels "a" and "b" gets
  // that answer, though the names differ.
  lemma {:induction false} AnotherAnswerIsServed(s: seq<Entry>, a: Label, b: Label, ip: Address)
    requires Empty(s) && Clean(a) && Clean(b) && |a| + 1 + |b| <= 63
    ensures var u, t := Storing([a + [DOT] + b]), Asking([a, b]);
      && Orderly([u]) && Short(t.packet) && !SameQuestion(u.packet, t.packet)
      && Serve(After(s, [u], ip), t, ip).reply == FromCache(ANSWER, t.packet)
  {
    UncleanNamesCollide(a, b, b);
    NamesakeIsServed(s, [a + [DOT] + b], [a, b], ip);
    DifferentNames([a + [DOT] + b], [a, b]);
    assert [a, b][1..] == [b];
  }

  lemma {:induction false} DifferentNames(p: seq<Label>, q: seq<Label>)
    requires AllClean(q) && |Dotted(q)| <= ROOM && |p| != |q|
    ensures Short(QueryFor(q)) && !SameQuestion(QueryFor(p), QueryFor(q))
  {
    QueryReads(p);
    QueryReads(q);
    assert |LowerAll(p)| != |LowerAll(q)|;
  }

  // Packets too short to hold a question all share a key: the second is answered with what
  // answered the first.
  lemma {:induction false} ShortPacketsCollide(s: seq<Entry>, u: Turn, t: Turn, ip: Address)
    requires Empty(s) && Plausible(u) && Stores(s, u) && 0 <= u.now <= t.now && t.now < Value(u).expires
    requires |u.packet| < 16 && |t.packet| < 16 && !Ignored(t.packet) && t.authenticated
    ensures Serve(After(s, [u], ip), t, ip).reply == FromCache(u.upstream.value, t.packet)
  {
    SharedKeyIsServed(s, u, t, ip);
  }

  // --- Clients without a session ---

  // The turns of clients that have one.
  function Members(ts: seq<Turn>): seq<Turn> {
    if ts == [] then []
    else Members(ts[..|ts| - 1]) + if ts[|ts| - 1].authenticated then [ts[|ts| - 1]] else []
  }

  // They leave no trace: after any run the cache, and so every later reply, is what it would be
  // had they never asked; and what they get does not depend on the run.
  lemma {:induction false} Isolated(s: seq<Entry>, ts: seq<Turn>, t: Turn, ip: Address)
    requires s != []
    ensures After(s, ts, ip) == After(s, Members(ts), ip)
    ensures Serve(After(s, ts, ip), t, ip) == Serve(After(s, Members(ts), ip), t, ip)
    ensures !t.authenticated ==> Serve(After(s, ts, ip), t, ip).reply == Serve(s, t, ip).reply
    decreases |ts|
  {
    if ts != [] {
      var n := |ts| - 1;
      Isolated(s, ts[..n], t, ip);
      var ms := Members(ts[..n]);
      if ts[n].authenticated {
        assert (ms + [ts[n]])[..|ms|] == ms;
      } else {
        assert ms + [] == ms;
      }
    }
  }
}
