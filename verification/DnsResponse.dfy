// The responses main/dns_server.c builds itself, read back by a parser for section 4.1 of
// RFC 1035.

module DnsResponse {
  import opened Basics
  import opened Words
  import opened DnsWire

  const ANSWER_BYTES := 16
  const NOERROR: Byte := 0x80
  const SERVFAIL: Byte := 0x82

  // --- The reference: reading a message ---

  datatype Asked = Asked(labels: seq<Label>, qtype: nat, qclass: nat)

  datatype Record = Record(labels: seq<Label>, rtype: nat, rclass: nat, ttl: nat, data: seq<Byte>)

  datatype Message = Message(id: nat, isResponse: bool, rcode: nat, questions: seq<Asked>, answers: seq<Record>)

  // Something read, and where it ended.
  datatype Got<T> = Got(value: T, end: nat)

  // What follows a name in a question, and in a record.
  function QuestionBody(p: seq<Byte>, n: Name): Option<Got<Asked>> {
    if n.end + 4 > |p| then None
    else Some(Got(Asked(n.labels, Word(p[n.end], p[n.end + 1]), Word(p[n.end + 2], p[n.end + 3])), n.end + 4))
  }

  function RecordBody(p: seq<Byte>, n: Name): Option<Got<Record>> {
    var e := n.end;
    if e + 10 > |p| then None
    else
      var size := Word(p[e + 8], p[e + 9]);
      if e + 10 + size > |p| then None
      else Some(Got(Record(n.labels, Word(p[e], p[e + 1]), Word(p[e + 2], p[e + 3]),
                           Word(p[e + 4], p[e + 5]) * 0x1_0000 + Word(p[e + 6], p[e + 7]),
                           p[e + 10..e + 10 + size]),
                    e + 10 + size))
  }

  function QuestionAt(p: seq<Byte>, at: nat): Option<Got<Asked>> {
    match NameAt(p, at, at)
    case None => None
    case Some(n) => QuestionBody(p, n)
  }

  function RecordAt(p: seq<Byte>, at: nat): Option<Got<Record>> {
    match NameAt(p, at, at)
    case None => None
    case Some(n) => RecordBody(p, n)
  }

  // n questions, then n records, one after another.
  function QuestionsAt(p: seq<Byte>, at: nat, n: nat): Option<Got<seq<Asked>>>
    decreases n, |p|
  {
    if n == 0 then Some(Got([], at))
    else
      match QuestionAt(p, at)
      case None => None
      case Some(q) =>
        match QuestionsAt(p, q.end, n - 1)
        case None => None
        case Some(qs) => Some(Got([q.value] + qs.value, qs.end))
  }

  function RecordsAt(p: seq<Byte>, at: nat, n: nat): Option<Got<seq<Record>>>
    decreases n, |p|
  {
    if n == 0 then Some(Got([], at))
    else
      match RecordAt(p, at)
      case None => None
      case Some(r) =>
        match RecordsAt(p, r.end, n - 1)
        case None => None
        case Some(rs) => Some(Got([r.value] + rs.value, rs.end))
  }

  // qd questions and an records from the end of the header on, with nothing left over.
  datatype Sections = Sections(questions: seq<Asked>, answers: seq<Record>)

  function SectionsOf(p: seq<Byte>, qd: nat, an: nat): Option<Sections> {
    match QuestionsAt(p, HEADER, qd)
    case None => None
    case Some(qs) =>
      match RecordsAt(p, qs.end, an)
      case None => None
      case Some(rs) => if rs.end == |p| then Some(Sections(qs.value, rs.value)) else None
  }

  // Sections with the header's id, QR and RCODE.
  function Titled(p: seq<Byte>, s: Option<Sections>): Option<Message>
    requires |p| >= HEADER
  {
    match s
    case None => None
    case Some(s) => Some(Message(Word(p[0], p[1]), p[2] >= 128, p[3] % 16, s.questions, s.answers))
  }

  // A message of questions and answers alone.
  function Parsed(p: seq<Byte>): Option<Message> {
    if |p| < HEADER || Word(p[8], p[9]) != 0 || Word(p[10], p[11]) != 0 then None
    else Titled(p, SectionsOf(p, Word(p[4], p[5]), Word(p[6], p[7])))
  }

  // --- The code ---

  predicate IsARecordQuery(p: seq<Byte>) {
    var end := SkipFrom(p, HEADER);
    end != 0 && end + 4 <= |p| && Word(p[end], p[end + 1]) == 1 && Word(p[end + 2], p[end + 3]) == 1
  }

  // Whether a response can be built in a buffer of some size.
  predicate Buildable(q: seq<Byte>, size: nat, answer: bool) {
    var end := SkipFrom(q, HEADER);
    && HEADER <= |q| <= size && 32 <= size
    && end != 0 && end + 4 <= |q|
    && (answer ==> end + 4 + ANSWER_BYTES <= size)
  }

  function AnswerBytes(ip: Address): (r: seq<Byte>)
    ensures |r| == ANSWER_BYTES
  {
    [0xC0, 0x0C, 0, 1, 0, 1, 0, 0, 0, 60, 0, 4] + ip
  }

  // The header of the response and the first n bytes of the query from there on.
  function Head(q: seq<Byte>, flags: Byte, answer: bool, n: nat): (r: seq<Byte>)
    requires HEADER <= n <= |q|
    ensures |r| == n
  {
    [q[0], q[1], 0x81, flags, q[4], q[5], 0, if answer then 1 else 0, 0, 0, 0, 0] + q[HEADER..n]
  }

  function Response(q: seq<Byte>, flags: Byte, answer: bool, ip: Address): (r: seq<Byte>)
    requires |q| >= HEADER && HEADER <= SkipFrom(q, HEADER) && SkipFrom(q, HEADER) + 4 <= |q|
    ensures |r| == SkipFrom(q, HEADER) + 4 + (if answer then ANSWER_BYTES else 0)
  {
    Head(q, flags, answer, SkipFrom(q, HEADER) + 4) + (if answer then AnswerBytes(ip) else [])
  }

  lemma {:induction false} SkipAdvances(p: seq<Byte>, at: nat)
    ensures SkipFrom(p, at) == 0 || at < SkipFrom(p, at) <= |p|
    decreases |p| - at
  {
    if at < |p| && 0 < p[at] < 192 && at + 1 + p[at] <= |p| {
      SkipAdvances(p, at + 1 + p[at]);
    }
  }

  method Copy(from: array<Byte>, to: array<Byte>, n: nat)
    requires n <= from.Length && n <= to.Length && from != to
    modifies to
    ensures to[..] == from[..n] + old(to[n..])
  {
    for i := 0 to n
      invariant to[..i] == from[..i] && to[i..] == old(to[i..])
    {
      to[i] := from[i];
    }
    assert to[..] == to[..n] + to[n..];
  }

  method BuildResponse(query: array<Byte>, len: nat, response: array<Byte>, answer: bool, ip: Address) returns (n: int)
    requires len <= query.Length && query != response
    modifies response
    ensures n == -1 <==> !Buildable(query[..len], response.Length, answer)
    ensures n != -1 ==> HEADER <= SkipFrom(query[..len], HEADER) && 0 <= n <= response.Length &&
                        response[..n] == Response(query[..len], NOERROR, answer, ip)
  {
    ghost var q := query[..len];
    if len < 12 || response.Length < len || response.Length < 32 { return -1; }
    var end := SkipName(query, len, HEADER);
    SkipAdvances(q, HEADER);
    if end == 0 || end + 4 > len { return -1; }
    CopyPatched(query, len, response, end + 4, answer);
    if !answer { return end + 4; }
    if end + 20 > response.Length { return -1; }
    PutAnswer(response, end + 4, ip);
    n := end + 20;
  }

  method CopyPatched(query: array<Byte>, ghost len: nat, response: array<Byte>, n: nat, answer: bool)
    requires query != response && HEADER <= n <= len <= query.Length && n <= response.Length
    modifies response
    ensures response[..n] == Head(query[..len], NOERROR, answer, n)
  {
    Copy(query, response, n);
    ghost var copied := response[..];
    PatchHeader(response, answer);
    HeadIs(query[..len], copied, response[..], answer, n);
  }

  method PatchHeader(response: array<Byte>, answer: bool)
    requires response.Length >= HEADER
    modifies response
    ensures response[..HEADER] == old(response[..2]) + [0x81, NOERROR] + old(response[4..6])
                                  + [0, if answer then 1 else 0, 0, 0, 0, 0]
    ensures response[HEADER..] == old(response[HEADER..])
  {
    response[2], response[3] := 0x81, 0x80;
    response[6], response[7] := 0, if answer then 1 else 0;
    response[8], response[9], response[10], response[11] := 0, 0, 0, 0;
  }

  lemma {:induction false} HeadIs(q: seq<Byte>, copied: seq<Byte>, r: seq<Byte>, answer: bool, n: nat)
    requires HEADER <= n <= |q| && n <= |r| == |copied| && copied[..n] == q[..n]
    requires r[..HEADER] == copied[..2] + [0x81, NOERROR] + copied[4..6] + [0, if answer then 1 else 0, 0, 0, 0, 0]
    requires r[HEADER..] == copied[HEADER..]
    ensures r[..n] == Head(q, NOERROR, answer, n)
  {
    SameFront(copied, q, n);
    assert copied[..2] == [q[0], q[1]] && copied[4..6] == [q[4], q[5]];
    var h := Head(q, NOERROR, answer, n);
    assert r[..HEADER] == h[..HEADER];
    forall i | HEADER <= i < n ensures r[i] == h[i] {
      assert r[i] == r[HEADER..][i - HEADER] == copied[i];
    }
    SameInParts(r, h, HEADER, n);
  }

  lemma {:induction false} SameFront(p: seq<Byte>, q: seq<Byte>, n: nat)
    requires n <= |p| && n <= |q| && p[..n] == q[..n]
    ensures forall i :: 0 <= i < n ==> p[i] == q[i]
  {
    forall i | 0 <= i < n ensures p[i] == q[i] {
      assert p[i] == p[..n][i] == q[..n][i];
    }
  }

  lemma {:induction false} SameInParts(r: seq<Byte>, h: seq<Byte>, k: nat, n: nat)
    requires k <= n == |h| && n <= |r| && r[..k] == h[..k] && forall i :: k <= i < n ==> r[i] == h[i]
    ensures r[..n] == h
  {
    SameFront(r, h, k);
  }

  method PutAnswer(response: array<Byte>, at: nat, ip: Address)
    requires at + ANSWER_BYTES <= response.Length
    modifies response
    ensures response[..at + ANSWER_BYTES] == old(response[..at]) + AnswerBytes(ip)
  {
    PutFixed(response, at);
    ghost var was := response[..at + 12];
    for i := 0 to 4
      invariant response[..at + 12] == was
      invariant response[at + 12..at + 12 + i] == ip[..i]
    {
      response[at + 12 + i] := ip[i];
    }
    assert response[..at + 16] == response[..at + 12] + response[at + 12..at + 16];
  }

  // Name pointer, type and class; then TTL and length.
  method PutFixed(response: array<Byte>, at: nat)
    requires at + ANSWER_BYTES <= response.Length
    modifies response
    ensures response[..at + 12] == old(response[..at]) + [0xC0, 0x0C, 0, 1, 0, 1, 0, 0, 0, 60, 0, 4]
  {
    PutSix(response, at, 0xC0, 0x0C, 0, 1, 0, 1);
    ghost var was := response[..at + 6];
    PutSix(response, at + 6, 0, 0, 0, 60, 0, 4);
    assert was + [0, 0, 0, 60, 0, 4] == old(response[..at]) + [0xC0, 0x0C, 0, 1, 0, 1, 0, 0, 0, 60, 0, 4];
  }

  method PutSix(response: array<Byte>, at: nat, a: Byte, b: Byte, c: Byte, d: Byte, e: Byte, f: Byte)
    requires at + 6 <= response.Length
    modifies response
    ensures response[..at + 6] == old(response[..at]) + [a, b, c, d, e, f]
  {
    response[at], response[at + 1], response[at + 2] := a, b, c;
    response[at + 3], response[at + 4], response[at + 5] := d, e, f;
  }

  method BuildServfail(query: array<Byte>, len: nat, response: array<Byte>) returns (n: int)
    requires len <= query.Length && query != response
    modifies response
    ensures n == -1 <==> !Buildable(query[..len], response.Length, false)
    ensures n != -1 ==> HEADER <= SkipFrom(query[..len], HEADER) && 0 <= n <= response.Length &&
                        response[..n] == Response(query[..len], SERVFAIL, false, [0, 0, 0, 0])
  {
    n := BuildResponse(query, len, response, false, [0, 0, 0, 0]);
    if n > 0 {
      ghost var was := response[..n];
      response[3] := 0x82;
      assert response[..n] == was[3 := 0x82];
    }
  }

  // --- What a parser makes of a built response ---

  // A question's name holds no pointer it could follow, so it reads the same wherever its
  // bytes are the same.
  lemma {:induction false} NameCopied(p: seq<Byte>, r: seq<Byte>, at: nat)
    requires HEADER <= at && SkipFrom(p, at) != 0
    requires at < SkipFrom(p, at) <= |p| && SkipFrom(p, at) <= |r|
    requires forall i :: at <= i < SkipFrom(p, at) ==> r[i] == p[i]
    ensures NameAt(r, at, HEADER) == NameAt(p, at, HEADER)
    decreases |p| - at
  {
    assert r[at] == p[at];
    if 0 < p[at] < 64 {
      SkipAdvances(p, at + 1 + p[at]);
      NameCopied(p, r, at + 1 + p[at]);
      assert r[at + 1..at + 1 + p[at]] == p[at + 1..at + 1 + p[at]];
    }
  }

  // The question of a query, in the form the parser gives it.
  function AskedBy(q: seq<Byte>): Option<Got<Asked>> { QuestionAt(q, HEADER) }

  // r starts like the query q up to the end of its question.
  ghost predicate Echoes(q: seq<Byte>, r: seq<Byte>) {
    var e := SkipFrom(q, HEADER) + 4;
    HEADER + 4 < e && e <= |q| && e <= |r| && forall i :: HEADER <= i < e ==> r[i] == q[i]
  }

  lemma {:induction false} NameEchoed(q: seq<Byte>, r: seq<Byte>)
    requires Echoes(q, r)
    ensures NameAt(r, HEADER, HEADER) == NameAt(q, HEADER, HEADER)
    ensures NameAt(q, HEADER, HEADER).Some? ==> NameAt(q, HEADER, HEADER).value.end == SkipFrom(q, HEADER)
  {
    NameCopied(q, r, HEADER);
    WalkersFollow(q, HEADER, []);
  }

  lemma {:induction false} BodyEchoed(q: seq<Byte>, r: seq<Byte>, n: Name)
    requires Echoes(q, r) && n.end == SkipFrom(q, HEADER)
    ensures QuestionBody(r, n) == QuestionBody(q, n) && QuestionBody(q, n).Some?
    ensures QuestionBody(q, n).value.end == n.end + 4
  {
  }

  lemma {:induction false} QuestionEchoed(q: seq<Byte>, r: seq<Byte>)
    requires Echoes(q, r)
    ensures QuestionAt(r, HEADER) == AskedBy(q)
    ensures AskedBy(q).Some? <==> NameAt(r, HEADER, HEADER).Some?
    ensures AskedBy(q).Some? ==> AskedBy(q).value.end == SkipFrom(q, HEADER) + 4
                                 && AskedBy(q).value.value.labels == NameAt(r, HEADER, HEADER).value.labels
  {
    NameEchoed(q, r);
    if NameAt(q, HEADER, HEADER).Some? {
      BodyEchoed(q, r, NameAt(q, HEADER, HEADER).value);
    }
  }

  // --- The answer's sixteen bytes ---

  ghost predicate Answered(r: seq<Byte>, e: nat, ip: Address) {
    HEADER < e && |r| == e + ANSWER_BYTES && r[e..] == AnswerBytes(ip)
  }

  lemma {:induction false} AnswerFields(r: seq<Byte>, e: nat, ip: Address)
    requires Answered(r, e, ip)
    ensures r[e] == 0xC0 && r[e + 1] == 0x0C
    ensures Word(r[e + 2], r[e + 3]) == 1 && Word(r[e + 4], r[e + 5]) == 1
    ensures r[e + 6] == 0 && Word(r[e + 6], r[e + 7]) == 0 && Word(r[e + 8], r[e + 9]) == 60
    ensures Word(r[e + 10], r[e + 11]) == 4 && r[e + 11] == 4
    ensures r[e + 12..e + 16] == ip
  {
    var a := AnswerBytes(ip);
    assert r[e] == a[0] && r[e + 1] == a[1] && r[e + 2] == a[2] && r[e + 3] == a[3];
    assert r[e + 4] == a[4] && r[e + 5] == a[5] && r[e + 6] == a[6] && r[e + 7] == a[7];
    assert r[e + 8] == a[8] && r[e + 9] == a[9] && r[e + 10] == a[10] && r[e + 11] == a[11];
    assert r[e + 12..e + 16] == r[e..][12..16] == ip;
  }

  // Its name is a pointer to the question's.
  lemma {:induction false} AnswerName(r: seq<Byte>, e: nat)
    requires HEADER < e && e + 1 < |r| && r[e] == 0xC0 && r[e + 1] == 0x0C
    ensures NameAt(r, e, e) ==
            match NameAt(r, HEADER, HEADER)
            case Some(n) => Some(Name(n.labels, e + 2))
            case None => None
  {
    assert Word(r[e] - 192, r[e + 1]) == HEADER;
  }

  lemma {:induction false} AnswerBody(r: seq<Byte>, e: nat, ip: Address, n: Name)
    requires Answered(r, e, ip) && n.end == e + 2
    ensures RecordBody(r, n) == Some(Got(Record(n.labels, 1, 1, 60, ip), |r|))
    ensures QuestionBody(r, n) == Some(Got(Asked(n.labels, 1, 1), e + 6))
  {
    AnswerFields(r, e, ip);
  }

  lemma {:induction false} RootName(r: seq<Byte>, at: nat)
    requires at < |r| && r[at] == 0
    ensures NameAt(r, at, at) == Some(Name([], at + 1))
  {
  }

  lemma {:induction false} OpenName(r: seq<Byte>, at: nat)
    requires at + 5 == |r| && r[at] == 4
    ensures NameAt(r, at, at) == None
  {
    assert NameAt(r, at + 5, at) == None;
  }

  // Read as further questions, the answer's bytes leave none to read an answer from.
  lemma {:induction false} NoSecondQuestion(r: seq<Byte>, e: nat, ip: Address, k: nat)
    requires Answered(r, e, ip) && k > 0 && NameAt(r, HEADER, HEADER).Some?
    ensures var qs := QuestionsAt(r, e, k); qs.Some? ==> RecordAt(r, qs.value.end) == None
  {
    AnswerFields(r, e, ip);
    AnswerName(r, e);
    AnswerBody(r, e, ip, NameAt(r, e, e).value);
    assert QuestionAt(r, e).Some? && QuestionAt(r, e).value.end == e + 6;
    RootName(r, e + 6);
    assert QuestionAt(r, e + 6).Some? && QuestionAt(r, e + 6).value.end == e + 11;
    assert RecordAt(r, e + 6) == None;
    OpenName(r, e + 11);
    assert QuestionAt(r, e + 11) == None && RecordAt(r, e + 11) == None;
    ThreeQuestions(r, e, e + 6, e + 11, k);
  }

  lemma {:induction false} ThreeQuestions(r: seq<Byte>, a: nat, b: nat, c: nat, k: nat)
    requires QuestionAt(r, a).Some? && QuestionAt(r, a).value.end == b
    requires QuestionAt(r, b).Some? && QuestionAt(r, b).value.end == c && QuestionAt(r, c) == None && k > 0
    ensures var qs := QuestionsAt(r, a, k);
            if k == 1 then qs.Some? && qs.value.end == b
            else if k == 2 then qs.Some? && qs.value.end == c
            else qs == None
  {
    QuestionStep(r, a, k);
    if k > 1 {
      QuestionStep(r, b, k - 1);
      if k > 2 {
        QuestionStep(r, c, k - 2);
      }
    }
  }

  lemma {:induction false} QuestionStep(r: seq<Byte>, at: nat, k: nat)
    requires k > 0
    ensures QuestionAt(r, at) == None ==> QuestionsAt(r, at, k) == None
    ensures QuestionAt(r, at).Some? ==>
              match QuestionsAt(r, QuestionAt(r, at).value.end, k - 1)
              case None => QuestionsAt(r, at, k) == None
              case Some(qs) => QuestionsAt(r, at, k) == Some(Got([QuestionAt(r, at).value.value] + qs.value, qs.end))
    ensures QuestionsAt(r, at, 0) == Some(Got([], at))
  {
  }

  // Without a question the answer would start in the question's place, and end too soon.
  lemma {:induction false} NoFirstQuestion(q: seq<Byte>, r: seq<Byte>, ip: Address)
    requires Echoes(q, r) && Answered(r, SkipFrom(q, HEADER) + 4, ip)
    ensures RecordAt(r, HEADER).Some? ==> RecordAt(r, HEADER).value.end < |r|
  {
    NameEchoed(q, r);
    AnswerFields(r, SkipFrom(q, HEADER) + 4, ip);
  }

  // --- What a parser makes of a built response ---

  // What it should find, for a query with this question.
  function Expected(q: seq<Byte>, asked: Option<Got<Asked>>, flags: Byte, answer: bool, ip: Address): Option<Message>
    requires |q| >= HEADER
  {
    match asked
    case None => None
    case Some(asked) =>
      if Word(q[4], q[5]) != 1 then None
      else Some(Message(Word(q[0], q[1]), true, flags % 16, [asked.value],
                        if answer then [Record(asked.value.labels, 1, 1, 60, ip)] else []))
  }

  ghost predicate HeaderFor(q: seq<Byte>, r: seq<Byte>, flags: Byte, an: nat)
    requires |q| >= HEADER
  {
    && |r| >= HEADER
    && r[0] == q[0] && r[1] == q[1] && r[2] >= 128 && r[3] == flags && r[4] == q[4] && r[5] == q[5]
    && r[6] == 0 && r[7] == an && r[8] == 0 && r[9] == 0 && r[10] == 0 && r[11] == 0
  }

  lemma {:induction false} HeaderFields(q: seq<Byte>, flags: Byte, answer: bool, ip: Address)
    requires |q| >= HEADER && HEADER < SkipFrom(q, HEADER) && SkipFrom(q, HEADER) + 4 <= |q|
    ensures HeaderFor(q, Response(q, flags, answer, ip), flags, if answer then 1 else 0)
  {
  }

  lemma {:induction false} ParsedIs(r: seq<Byte>, qd: nat, an: nat)
    requires |r| >= HEADER
    requires Word(r[4], r[5]) == qd && Word(r[6], r[7]) == an && Word(r[8], r[9]) == 0 && Word(r[10], r[11]) == 0
    ensures Parsed(r) == Titled(r, SectionsOf(r, qd, an))
  {
  }

  function ExpectedSections(qd: nat, asked: Option<Got<Asked>>, answer: bool, ip: Address): Option<Sections> {
    match asked
    case None => None
    case Some(asked) =>
      if qd == 1 then Some(Sections([asked.value], if answer then [Record(asked.value.labels, 1, 1, 60, ip)] else []))
      else None
  }

  lemma {:induction false} TitledIs(q: seq<Byte>, r: seq<Byte>, flags: Byte, answer: bool, ip: Address, asked: Option<Got<Asked>>)
    requires |q| >= HEADER && HeaderFor(q, r, flags, if answer then 1 else 0)
    ensures Titled(r, ExpectedSections(Word(q[4], q[5]), asked, answer, ip)) == Expected(q, asked, flags, answer, ip)
  {
  }

  lemma {:induction false} SectionsAre(q: seq<Byte>, r: seq<Byte>, qd: nat, answer: bool, ip: Address)
    requires Echoes(q, r)
    requires if answer then Answered(r, SkipFrom(q, HEADER) + 4, ip) else |r| == SkipFrom(q, HEADER) + 4
    ensures SectionsOf(r, qd, if answer then 1 else 0) == ExpectedSections(qd, AskedBy(q), answer, ip)
  {
    if answer {
      AnswerCase(q, r, qd, ip);
    } else {
      SilentCase(q, r, qd);
    }
  }

  // A response reads as it should if its sections do.
  lemma {:induction false} ReadsBack(q: seq<Byte>, r: seq<Byte>, flags: Byte, answer: bool, ip: Address, s: Option<Sections>)
    requires |q| >= HEADER && HeaderFor(q, r, flags, if answer then 1 else 0)
    requires s == ExpectedSections(Word(q[4], q[5]), AskedBy(q), answer, ip)
    requires s == SectionsOf(r, Word(q[4], q[5]), if answer then 1 else 0)
    ensures Parsed(r) == Expected(q, AskedBy(q), flags, answer, ip)
  {
    ParsedIs(r, Word(q[4], q[5]), if answer then 1 else 0);
    TitledIs(q, r, flags, answer, ip, AskedBy(q));
  }

  lemma {:induction false} ResponseEchoes(q: seq<Byte>, flags: Byte, answer: bool, ip: Address)
    requires |q| >= HEADER && HEADER < SkipFrom(q, HEADER) && SkipFrom(q, HEADER) + 4 <= |q|
    ensures var r := Response(q, flags, answer, ip);
            Echoes(q, r) && (answer ==> Answered(r, SkipFrom(q, HEADER) + 4, ip))
  {
    var e := SkipFrom(q, HEADER) + 4;
    var r := Response(q, flags, answer, ip);
    assert r[..e] == Head(q, flags, answer, e);
    forall i | HEADER <= i < e ensures r[i] == q[i] {
      assert r[i] == r[..e][i] == q[HEADER..e][i - HEADER];
    }
  }

  lemma {:induction false} OneRecord(r: seq<Byte>, at: nat)
    ensures RecordsAt(r, at, 0) == Some(Got([], at))
    ensures RecordsAt(r, at, 1) ==
            match RecordAt(r, at)
            case None => None
            case Some(x) => Some(Got([x.value], x.end))
  {
    if RecordAt(r, at).Some? {
      var x := RecordAt(r, at).value;
      assert RecordsAt(r, x.end, 0) == Some(Got([], x.end));
      assert [x.value] + [] == [x.value];
    }
  }

  // The sections of a response to a query that counts qd questions.
  lemma {:induction false} SilentCase(q: seq<Byte>, r: seq<Byte>, qd: nat)
    requires Echoes(q, r) && |r| == SkipFrom(q, HEADER) + 4
    ensures SectionsOf(r, qd, 0) ==
            match AskedBy(q)
            case None => None
            case Some(asked) => if qd == 1 then Some(Sections([asked.value], [])) else None
  {
    QuestionEchoed(q, r);
    QuestionStep(r, HEADER, 1);
    if qd > 0 {
      QuestionStep(r, HEADER, qd);
      assert QuestionAt(r, |r|) == None;
      QuestionStep(r, |r|, 1);
      if qd > 1 {
        QuestionStep(r, |r|, qd - 1);
      } else if AskedBy(q).Some? {
        assert [AskedBy(q).value.value] + [] == [AskedBy(q).value.value];
        OneRecord(r, |r|);
      }
    } else {
      OneRecord(r, HEADER);
    }
  }

  lemma {:induction false} AnswerOne(q: seq<Byte>, r: seq<Byte>, ip: Address)
    requires Echoes(q, r) && Answered(r, SkipFrom(q, HEADER) + 4, ip) && AskedBy(q).Some?
    ensures var asked := AskedBy(q).value.value;
            SectionsOf(r, 1, 1) == Some(Sections([asked], [Record(asked.labels, 1, 1, 60, ip)]))
  {
    var e := SkipFrom(q, HEADER) + 4;
    QuestionEchoed(q, r);
    QuestionStep(r, HEADER, 1);
    AnswerRead(r, e, ip);
    QuestionStep(r, e, 1);
    OneRecord(r, e);
    assert [AskedBy(q).value.value] + [] == [AskedBy(q).value.value];
  }

  lemma {:induction false} AnswerMany(q: seq<Byte>, r: seq<Byte>, qd: nat, ip: Address)
    requires Echoes(q, r) && Answered(r, SkipFrom(q, HEADER) + 4, ip) && AskedBy(q).Some? && qd > 1
    ensures SectionsOf(r, qd, 1) == None
  {
    var e := SkipFrom(q, HEADER) + 4;
    QuestionEchoed(q, r);
    NoSecondQuestion(r, e, ip, qd - 1);
    AfterFirst(r, e, qd);
  }

  lemma {:induction false} AfterFirst(r: seq<Byte>, e: nat, qd: nat)
    requires qd > 1 && QuestionAt(r, HEADER).Some? && QuestionAt(r, HEADER).value.end == e
    requires var qs := QuestionsAt(r, e, qd - 1); qs.Some? ==> RecordAt(r, qs.value.end) == None
    ensures SectionsOf(r, qd, 1) == None
  {
    QuestionStep(r, HEADER, qd);
    NothingToRead(r, qd, QuestionsAt(r, HEADER, qd));
  }

  lemma {:induction false} NothingToRead(r: seq<Byte>, qd: nat, qs: Option<Got<seq<Asked>>>)
    requires qs == QuestionsAt(r, HEADER, qd) && (qs.Some? ==> RecordAt(r, qs.value.end) == None)
    ensures SectionsOf(r, qd, 1) == None
  {
    if qs.Some? {
      OneRecord(r, qs.value.end);
    }
  }

  lemma {:induction false} AnswerCase(q: seq<Byte>, r: seq<Byte>, qd: nat, ip: Address)
    requires Echoes(q, r) && Answered(r, SkipFrom(q, HEADER) + 4, ip)
    ensures SectionsOf(r, qd, 1) ==
            match AskedBy(q)
            case None => None
            case Some(asked) =>
              if qd == 1 then Some(Sections([asked.value], [Record(asked.value.labels, 1, 1, 60, ip)])) else None
  {
    if qd == 0 {
      QuestionStep(r, HEADER, 1);
      NoFirstQuestion(q, r, ip);
      OneRecord(r, HEADER);
    } else if AskedBy(q).None? {
      QuestionEchoed(q, r);
      QuestionStep(r, HEADER, qd);
    } else if qd == 1 {
      AnswerOne(q, r, ip);
    } else {
      AnswerMany(q, r, qd, ip);
    }
  }

  lemma {:induction false} AnswerRead(r: seq<Byte>, e: nat, ip: Address)
    requires Answered(r, e, ip) && NameAt(r, HEADER, HEADER).Some?
    ensures RecordAt(r, e) == Some(Got(Record(NameAt(r, HEADER, HEADER).value.labels, 1, 1, 60, ip), |r|))
  {
    AnswerFields(r, e, ip);
    AnswerName(r, e);
    AnswerBody(r, e, ip, NameAt(r, e, e).value);
  }

  // For every query a response can be built for: a parser reads from the response the query's
  // id and question, QR set, and one A record for the name with TTL 60 and the station's
  // address, or none; and it can read it at all exactly when the query counts one question and
  // that question is well formed.
  lemma {:induction false} ResponseReadsBack(q: seq<Byte>, size: nat, flags: Byte, answer: bool, ip: Address)
    requires Buildable(q, size, answer)
    ensures HEADER <= SkipFrom(q, HEADER)
    ensures Parsed(Response(q, flags, answer, ip)) == Expected(q, AskedBy(q), flags, answer, ip)
  {
    SkipAdvances(q, HEADER);
    HeaderFields(q, flags, answer, ip);
    ResponseEchoes(q, flags, answer, ip);
    var r, qd := Response(q, flags, answer, ip), Word(q[4], q[5]);
    SectionsAre(q, r, qd, answer, ip);
    ReadsBack(q, r, flags, answer, ip, SectionsOf(r, qd, if answer then 1 else 0));
  }
}
