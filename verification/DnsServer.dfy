// One query after another: the decision of the server loop in main/dns_server.c, and what its cache
// has answered over a whole run.

module DnsServer {
  import opened Basics
  import opened Words
  import opened DnsWire
  import opened DnsKey
  import opened DnsCache
  import opened DnsResponse

  // One datagram and what the world does about it: whether the sender has a session, the time
  // of the lookup, what the resolvers answer, and the two clocks by then.
  datatype Turn = Turn(packet: seq<Byte>, authenticated: bool, now: Micros,
                       upstream: Option<seq<Byte>>, later: Micros, wall: int)

  // An upstream answer is a datagram that fits the buffer.
  predicate Plausible(t: Turn) {
    t.upstream.Some? ==> 0 < |t.upstream.value| <= MAX_RESPONSE
  }

  // Too short, or itself a response.
  predicate Ignored(p: seq<Byte>) { |p| < HEADER || p[2] >= 128 }

  predicate Cacheable(r: seq<Byte>) { |r| >= HEADER && r[3] % 16 == 0 && Word(r[6], r[7]) > 0 }

  // A cached response under the id of the query at hand.
  function Patched(r: seq<Byte>, p: seq<Byte>): (s: seq<Byte>)
    requires |p| >= 2
    ensures |s| == |r| && (forall i :: 0 <= i < |r| && i < 2 ==> s[i] == p[i]) && forall i :: 2 <= i < |r| ==> s[i] == r[i]
  {
    if |r| < 2 then p[..|r|] else p[..2] + r[2..]
  }

  function Captive(p: seq<Byte>, ip: Address): Option<seq<Byte>> {
    Built(p, NOERROR, IsARecordQuery(p), ip)
  }

  function Built(p: seq<Byte>, flags: Byte, answer: bool, ip: Address): Option<seq<Byte>> {
    if Buildable(p, MAX_RESPONSE, answer) then
      SkipAdvances(p, HEADER);
      Some(Response(p, flags, answer, ip))
    else None
  }

  const NOWHERE: Address := [0, 0, 0, 0]

  datatype Served = Served(slots: seq<Entry>, reply: Option<seq<Byte>>)

  function Serve(s: seq<Entry>, t: Turn, ip: Address): Served
    requires s != []
  {
    if Ignored(t.packet) then Served(s, None)
    else if !t.authenticated then Served(s, Captive(t.packet, ip))
    else Resolve(s, KeyOf(t.packet), t)
  }

  function Resolve(s: seq<Entry>, k: Key, t: Turn): Served
    requires s != [] && |t.packet| >= HEADER
  {
    var i := Hit(s, k, t.now);
    var after := AfterLookup(s, k, t.now);
    if i >= 0 then Served(after, FromCache(s[i].response, t.packet))
    else if t.upstream.Some? then Served(AfterForward(after, k, t), t.upstream)
    else Served(after, Built(t.packet, SERVFAIL, false, NOWHERE))
  }

  function FromCache(r: seq<Byte>, p: seq<Byte>): Option<seq<Byte>>
    requires |p| >= 2
  {
    if r == [] || |r| > MAX_RESPONSE then None else Some(Patched(r, p))
  }

  function AfterForward(s: seq<Entry>, k: Key, t: Turn): (r: seq<Entry>)
    requires s != [] && t.upstream.Some?
    ensures |r| == |s|
  {
    if Cacheable(t.upstream.value) then AfterInsert(s, k, Stored(t.upstream.value, t.later + Ttl(t.wall))) else s
  }

  // --- The code ---

  class Server {
    const cache: Cache
    const query: array<Byte>
    const response: array<Byte>

    ghost predicate Valid()
      reads this, cache
    {
      cache.Valid() && query.Length == MAX_RESPONSE && response.Length == MAX_RESPONSE && query != response
    }

    constructor ()
      ensures Valid() && fresh(cache) && fresh(cache.slots) && fresh(query) && fresh(response)
      ensures forall i :: 0 <= i < ENTRIES ==> !cache.slots[i].valid
    {
      cache := new Cache();
      query := new Byte[MAX_RESPONSE](_ => 0);
      response := new Byte[MAX_RESPONSE](_ => 0);
    }

    // The key of the query in the buffer, by way of a 96-byte name buffer.
    method ReadKey(len: nat) returns (k: Key)
      requires Valid() && len <= query.Length
      ensures k == KeyOf(query[..len])
    {
      var q := GetQuestionInfo(query, len);
      TextFits(query[..len]);
      var name := new Byte[ROOM + 1](_ => 0);
      for i := 0 to |q.text|
        invariant name[..i] == q.text[..i] && forall j :: i <= j < name.Length ==> name[j] == 0
      {
        name[i] := q.text[i];
      }
      Padded(q.text, name[..]);
      Normalize(name);
      k := Key(CString(name[..]), q.qtype);
    }

    // Serves the `len` bytes in the query buffer; what is sent is the front of the response buffer.
    method HandleQuery(len: nat, authenticated: bool, now: Micros, upstream: Option<seq<Byte>>, later: Micros, wall: int, ip: Address)
      returns (sent: int)
      requires Valid() && len <= query.Length
      requires Plausible(Turn(query[..len], authenticated, now, upstream, later, wall))
      modifies cache.slots, response
      ensures sent <= MAX_RESPONSE
      ensures var r := Serve(old(cache.slots[..]), Turn(query[..len], authenticated, now, upstream, later, wall), ip);
              cache.slots[..] == r.slots && r.reply == if sent > 0 then Some(response[..sent]) else None
    {
      if len < 12 || query[2] >= 128 { return -1; }
      if authenticated {
        sent := ResolveQuery(len, now, upstream, later, wall);
      } else {
        var isA := CheckARecord(len);
        sent := BuildResponse(query, len, response, isA, ip);
      }
    }

    method CheckARecord(len: nat) returns (isA: bool)
      requires Valid() && len <= query.Length
      ensures isA == IsARecordQuery(query[..len])
    {
      var end := SkipName(query, len, HEADER);
      if end == 0 || end + 4 > len { return false; }
      isA := Word(query[end], query[end + 1]) == 1 && Word(query[end + 2], query[end + 3]) == 1;
    }

    method ResolveQuery(len: nat, now: Micros, upstream: Option<seq<Byte>>, later: Micros, wall: int) returns (sent: int)
      requires Valid() && HEADER <= len <= query.Length
      requires upstream.Some? ==> 0 < |upstream.value| <= MAX_RESPONSE
      modifies cache.slots, response
      ensures sent <= MAX_RESPONSE
      ensures var r := Resolve(old(cache.slots[..]), KeyOf(query[..len]), Turn(query[..len], true, now, upstream, later, wall));
              cache.slots[..] == r.slots && r.reply == if sent > 0 then Some(response[..sent]) else None
    {
      var k := ReadKey(len);
      var hit := cache.Lookup(k, now);
      if hit >= 0 {
        sent := BuildCached(cache.slots[hit].response, len);
      } else if upstream.Some? {
        sent := |upstream.value|;
        Fill(upstream.value);
        if Cacheable(upstream.value) {
          cache.Insert(k, upstream.value, later, wall);
        }
      } else {
        sent := BuildServfail(query, len, response);
      }
    }

    method Fill(bytes: seq<Byte>)
      requires Valid() && |bytes| <= MAX_RESPONSE
      modifies response
      ensures response[..|bytes|] == bytes
    {
      for i := 0 to |bytes|
        invariant response[..i] == bytes[..i]
      {
        response[i] := bytes[i];
      }
    }

    method BuildCached(cached: seq<Byte>, ghost len: nat) returns (n: int)
      requires Valid() && HEADER <= len <= query.Length
      modifies response
      ensures n <= MAX_RESPONSE
      ensures FromCache(cached, query[..len]) == if n > 0 then Some(response[..n]) else None
    {
      if |cached| > MAX_RESPONSE { return -1; }
      Fill(cached);
      response[0] := query[0];
      response[1] := query[1];
      n := |cached|;
      ghost var p := query[..len];
      forall i | 0 <= i < n ensures response[i] == Patched(cached, p)[i] {
      }
      assert response[..n] == Patched(cached, p);
    }
  }

  lemma {:induction false} TextFits(p: seq<Byte>)
    ensures |QuestionInfo(p).text| <= ROOM
  {
    if |p| >= 16 {
      ReadFits(p, HEADER, []);
    }
  }

  lemma {:induction false} ReadFits(p: seq<Byte>, at: nat, text: seq<Byte>)
    requires |text| <= ROOM
    ensures |ReadFrom(p, at, text).text| <= ROOM
    decreases |p| - at
  {
    if at < |p| && 0 < p[at] < 64 && at + 1 + p[at] <= |p| {
      ReadFits(p, at + 1 + p[at], WithLabel(text, p[at + 1..at + 1 + p[at]]));
    }
  }

  lemma {:induction false} Padded(text: seq<Byte>, name: seq<Byte>)
    requires |text| < |name| && name[..|text|] == text && forall i :: |text| <= i < |name| ==> name[i] == 0
    ensures CString(name) == CString(text)
    decreases |text|
  {
    if text != [] {
      assert name[0] == text[0];
      assert name[1..][..|text| - 1] == text[1..];
      Padded(text[1..], name[1..]);
    }
  }
}
