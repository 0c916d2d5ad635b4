// What every sender of a query is answered, read by a parser of its own, and which answers are
// kept for the next one.

module DnsReplies {
  import opened Basics
  import opened Words
  import opened DnsWire
  import opened DnsKey
  import opened DnsResponse
  import opened DnsCache
  import opened DnsServer
  import opened DnsRuns

  // A whole header with the QR bit clear.
  predicate IsQuery(p: seq<Byte>) { |p| >= 12 && p[2] < 128 }

  // It counts one question, and that can be read.
  predicate AsksOne(p: seq<Byte>) {
    |p| >= 12 && Word(p[4], p[5]) == 1 && QuestionAt(p, 12).Some?
  }

  function QuestionOf(p: seq<Byte>): (q: Got<Asked>)
    requires AsksOne(p)
  {
    QuestionAt(p, 12).value
  }

  predicate ForAddress(a: Asked) { a.qtype == 1 && a.qclass == 1 }

  lemma {:induction false} WalksToItsEnd(p: seq<Byte>)
    requires AsksOne(p)
    ensures var q := QuestionOf(p);
      && 12 < SkipFrom(p, 12) == q.end - 4 && q.end <= |p|
      && Word(p[q.end - 4], p[q.end - 3]) == q.value.qtype && Word(p[q.end - 2], p[q.end - 1]) == q.value.qclass
  {
    WalkersFollow(p, 12, []);
  }

  // Section 4.1.1 of RFC 1035: QR and RD set, OPCODE zero, neither AA nor TC; RA set, Z zero.
  predicate Flagged(r: seq<Byte>, rcode: nat) { |r| >= 12 && r[2] == 0x81 && r[3] == 0x80 + rcode }

  // A reply to the question of p: with its id, marked as a response, repeating the question.
  ghost predicate AnswersWith(reply: Option<seq<Byte>>, p: seq<Byte>, rcode: nat, records: seq<Record>)
    requires AsksOne(p)
  {
    && reply.Some? && Flagged(reply.value, rcode)
    && Parsed(reply.value) == Some(Message(Word(p[0], p[1]), true, rcode, [QuestionOf(p).value], records))
  }

  lemma {:induction false} BuiltReads(p: seq<Byte>, flags: Byte, answer: bool, ip: Address)
    requires AsksOne(p) && |p| <= 512 && (answer ==> QuestionOf(p).end + 16 <= 512) && 128 <= flags < 144
    ensures AnswersWith(Built(p, flags, answer, ip), p, flags % 16,
                        if answer then [Record(QuestionOf(p).value.labels, 1, 1, 60, ip)] else [])
  {
    WalksToItsEnd(p);
    ResponseReadsBack(p, 512, flags, answer, ip);
    ResponseFlags(p, flags, answer, ip);
  }

  lemma {:induction false} ResponseFlags(p: seq<Byte>, flags: Byte, answer: bool, ip: Address)
    requires |p| >= 12 && 12 < SkipFrom(p, 12) && SkipFrom(p, 12) + 4 <= |p| && 128 <= flags < 144
    ensures Flagged(Response(p, flags, answer, ip), flags % 16)
  {
  }

  // In a buffer of some size: a response fits if the query does, the buffer has 32 bytes, and
  // the answer, if any, has room behind the question.
  lemma {:induction false} FitsIff(p: seq<Byte>, size: nat, answer: bool)
    requires AsksOne(p)
    ensures Buildable(p, size, answer) <==>
      |p| <= size && 32 <= size && (answer ==> QuestionOf(p).end + 16 <= size)
  {
    WalksToItsEnd(p);
  }

  // The portal's address for a question after an address, when that fits; nothing for any other.
  ghost predicate SentToPortal(reply: Option<seq<Byte>>, p: seq<Byte>, portal: Address)
    requires AsksOne(p)
  {
    var q := QuestionOf(p);
    if !ForAddress(q.value) then AnswersWith(reply, p, 0, [])
    else if q.end + 16 <= 512 then AnswersWith(reply, p, 0, [Record(q.value.labels, 1, 1, 60, portal)])
    else reply == None
  }

  lemma {:induction false} CaptiveReads(p: seq<Byte>, portal: Address)
    requires AsksOne(p) && |p| <= 512
    ensures SentToPortal(Captive(p, portal), p, portal)
  {
    WalksToItsEnd(p);
    var answer := ForAddress(QuestionOf(p).value);
    assert IsARecordQuery(p) == answer;
    if !answer || QuestionOf(p).end + 16 <= 512 {
      BuiltReads(p, NOERROR, answer, portal);
    }
  }

  // A cached answer to the key that has not expired.
  predicate Kept(s: seq<Entry>, k: Key, now: int) {
    exists i :: 0 <= i < |s| && s[i].valid && s[i].key == k && now < s[i].expires
  }

  // What is sent: nothing to what is no query; what the resolvers answered, byte for byte, when
  // the sender has a session and no answer is kept; and when they did not answer, a failure.
  lemma {:induction false} MissReplies(s: seq<Entry>, t: Turn, portal: Address)
    requires s != []
    ensures !IsQuery(t.packet) ==> Serve(s, t, portal) == Served(s, None)
    ensures IsQuery(t.packet) && t.authenticated && !Kept(s, KeyOf(t.packet), t.now) ==>
              && (t.upstream.Some? ==> Serve(s, t, portal).reply == t.upstream)
              && (t.upstream.None? && AsksOne(t.packet) && |t.packet| <= 512 ==>
                    AnswersWith(Serve(s, t, portal).reply, t.packet, 2, []))
  {
    if IsQuery(t.packet) && t.authenticated && !Kept(s, KeyOf(t.packet), t.now) {
      assert Hit(s, KeyOf(t.packet), t.now) < 0;
      if AsksOne(t.packet) && |t.packet| <= 512 {
        BuiltReads(t.packet, SERVFAIL, false, NOWHERE);
      }
    }
  }

  // A sender without a session is sent to the portal.
  lemma {:induction false} CaptiveReplies(s: seq<Entry>, t: Turn, portal: Address)
    requires s != [] && IsQuery(t.packet) && !t.authenticated && AsksOne(t.packet) && |t.packet| <= 512
    ensures var r := Serve(s, t, portal);
      r.slots == s && SentToPortal(r.reply, t.packet, portal)
  {
    CaptiveReads(t.packet, portal);
  }

  // The answer r under the id of the query p.
  predicate UnderIdOf(reply: Option<seq<Byte>>, r: seq<Byte>, p: seq<Byte>)
    requires |p| >= 12
  {
    && reply.Some? && |reply.value| == |r| >= 12
    && reply.value[0] == p[0] && reply.value[1] == p[1] && reply.value[2..] == r[2..]
  }

  lemma {:induction false} PatchedIsUnderId(r: seq<Byte>, p: seq<Byte>)
    requires |p| >= 12 && 12 <= |r| <= 512
    ensures UnderIdOf(FromCache(r, p), r, p)
  {
    var q := Patched(r, p);
    assert forall i :: 0 <= i < |r| - 2 ==> q[2..][i] == r[2..][i];
  }

  // --- What is kept ---

  // No error, and at least one record in the answer section.
  predicate GoodAnswer(r: seq<Byte>) { |r| >= 12 && r[3] % 16 == 0 && (r[6] != 0 || r[7] != 0) }

  lemma GoodIsCacheable(r: seq<Byte>)
    ensures Cacheable(r) <==> GoodAnswer(r)
  {
  }

  // An earlier query whose good answer is still to be given to t.
  ghost predicate AnsweredBefore(u: Turn, ts: seq<Turn>, t: Turn) {
    && u in ts && u.authenticated && KeyOf(u.packet) == KeyOf(t.packet)
    && u.upstream.Some? && GoodAnswer(u.upstream.value) && t.now < u.later + Ttl(u.wall)
  }

  // Over any run: what is kept is a good answer given before to a query with the same key, and
  // it is sent under the id of the query at hand.
  lemma {:induction false} HitReplies(s: seq<Entry>, ts: seq<Turn>, t: Turn, portal: Address) returns (u: Turn)
    requires Empty(s) && Orderly(ts) && Clock(ts) <= t.now && IsQuery(t.packet) && t.authenticated
    requires Kept(After(s, ts, portal), KeyOf(t.packet), t.now)
    ensures AnsweredBefore(u, ts, t)
    ensures UnderIdOf(Serve(After(s, ts, portal), t, portal).reply, u.upstream.value, t.packet)
  {
    var k := KeyOf(t.packet);
    HitIsLastStored(s, ts, t, portal);
    LogIsGood(s, ts, portal);
    u := Last(Log(s, ts, portal), k).value;
    GoodIsCacheable(u.upstream.value);
    var i :| 0 <= i < |ts| && ts[i] == u;
    assert Plausible(ts[i]);
    PatchedIsUnderId(u.upstream.value, t.packet);
  }

  // After any run: when a query with a session misses and a resolver answers, then the next one
  // with its key is answered from the cache if and only if that answer was good and has not
  // expired; and it gets that answer under its own id.
  lemma {:induction false} GoodAnswersAreKept(s: seq<Entry>, ts: seq<Turn>, u: Turn, t: Turn, portal: Address)
    requires Empty(s) && Orderly(ts) && Clock(ts) <= u.now && Plausible(u)
    requires IsQuery(u.packet) && u.authenticated && u.upstream.Some? && !Kept(After(s, ts, portal), KeyOf(u.packet), u.now)
    requires IsQuery(t.packet) && t.authenticated && KeyOf(t.packet) == KeyOf(u.packet)
    ensures var r := Serve(After(s, ts, portal), u, portal).slots;
      var kept := GoodAnswer(u.upstream.value) && t.now < u.later + Ttl(u.wall);
      && r != []
      && (Kept(r, KeyOf(t.packet), t.now) <==> kept)
      && (kept ==> UnderIdOf(Serve(r, t, portal).reply, u.upstream.value, t.packet))
  {
    var was := After(s, ts, portal);
    var m := RunTells(s, ts, portal, false);
    GoodIsCacheable(u.upstream.value);
    NextIsServed(was, m, u, t, portal);
  }

  lemma {:induction false} NextIsServed(s: seq<Entry>, m: map<Key, Stored>, u: Turn, t: Turn, portal: Address)
    requires s != [] && Represents(s, m) && Plausible(u)
    requires IsQuery(u.packet) && u.authenticated && u.upstream.Some? && !Kept(s, KeyOf(u.packet), u.now)
    requires IsQuery(t.packet) && t.authenticated && KeyOf(t.packet) == KeyOf(u.packet)
    ensures var r := Serve(s, u, portal).slots;
      var kept := Cacheable(u.upstream.value) && t.now < u.later + Ttl(u.wall);
      && r != []
      && (Kept(r, KeyOf(t.packet), t.now) <==> kept)
      && (kept ==> UnderIdOf(Serve(r, t, portal).reply, u.upstream.value, t.packet))
  {
    var k := KeyOf(u.packet);
    assert Hit(s, k, u.now) < 0;
    MissPurges(s, m, k, u.now);
    var left := Unexpired(m, u.now);
    var r := Serve(s, u, portal).slots;
    if Cacheable(u.upstream.value) {
      TextFits(u.packet);
      var m' := InsertMaps(AfterLookup(s, k, u.now), left, k, Value(u));
      NextLookup(r, m', t, portal);
      PatchedIsUnderId(u.upstream.value, t.packet);
    } else {
      NextLookup(r, left, t, portal);
    }
  }

  lemma {:induction false} NextLookup(r: seq<Entry>, m: map<Key, Stored>, t: Turn, portal: Address)
    requires r != [] && Represents(r, m) && IsQuery(t.packet) && t.authenticated
    ensures var k := KeyOf(t.packet);
      var kept := k in m && t.now < m[k].expires;
      && (Kept(r, k, t.now) <==> kept)
      && (kept ==> Serve(r, t, portal).reply == FromCache(m[k].response, t.packet))
  {
    var k := KeyOf(t.packet);
    LookupFinds(r, m, k, t.now);
    if Hit(r, k, t.now) >= 0 {
      assert Serves(r[Hit(r, k, t.now)], k, t.now);
    }
  }
}
