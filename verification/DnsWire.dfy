// Names on the wire (sections 3.1 and 4.1.2 of RFC 1035) and the two independent walkers of
// main/dns_server.c: one skips a name, the other reads the question and writes its text.

module DnsWire {
  import opened Basics
  import opened Words

  const HEADER := 12
  const DOT: Byte := 46

  type Label = l: seq<Byte> | 1 <= |l| <= 63 witness [97]

  // --- The reference ---

  // A name: its labels and where it ends.
  datatype Name = Name(labels: seq<Label>, end: nat)

  // The name at `at`. A pointer (section 4.1.4) may only lead back, to before the stretch of
  // labels it ends.
  function NameAt(p: seq<Byte>, at: nat, start: nat): (r: Option<Name>)
    ensures r.Some? ==> at < r.value.end <= |p|
    decreases start, |p| - at
  {
    if at >= |p| then None
    else if p[at] == 0 then Some(Name([], at + 1))
    else if p[at] >= 192 then
      if at + 1 < |p| && HEADER <= Word(p[at] - 192, p[at + 1]) < start then
        match NameAt(p, Word(p[at] - 192, p[at + 1]), Word(p[at] - 192, p[at + 1]))
        case Some(n) => Some(Name(n.labels, at + 2))
        case None => None
      else None
    else if p[at] >= 64 || at + 1 + p[at] > |p| then None
    else
      match NameAt(p, at + 1 + p[at], start)
      case Some(n) => Some(Name([p[at + 1..at + 1 + p[at]]] + n.labels, n.end))
      case None => None
  }

  // The name a packet asks about, provided its type and class fit as well.
  function QuestionName(p: seq<Byte>): (r: Option<Name>)
    ensures r.Some? ==> HEADER < r.value.end && r.value.end + 4 <= |p|
  {
    match NameAt(p, HEADER, HEADER)
    case Some(n) => if n.end + 4 <= |p| then Some(n) else None
    case None => None
  }

  // How a name is written without pointers.
  function WireName(ls: seq<Label>): seq<Byte> {
    if ls == [] then [0] else [|ls[0]| as Byte] + ls[0] + WireName(ls[1..])
  }

  lemma {:induction false} WireRoundTrip(before: seq<Byte>, ls: seq<Label>, after: seq<Byte>, start: nat)
    ensures NameAt(before + WireName(ls) + after, |before|, start)
         == Some(Name(ls, |before| + |WireName(ls)|))
  {
    NameRead(before + WireName(ls) + after, |before|, ls, start);
  }

  lemma {:induction false} NameRead(p: seq<Byte>, at: nat, ls: seq<Label>, start: nat)
    requires at + |WireName(ls)| <= |p| && p[at..at + |WireName(ls)|] == WireName(ls)
    ensures NameAt(p, at, start) == Some(Name(ls, at + |WireName(ls)|))
    decreases |ls|
  {
    if ls == [] {
      assert p[at] == p[at..at + 1][0] == 0;
    } else {
      FirstLabel(p, at, ls[0], WireName(ls[1..]));
      NameRead(p, at + 1 + |ls[0]|, ls[1..], start);
      LabelThenName(p, at, start, ls, at + |WireName(ls)|);
    }
  }

  lemma {:induction false} FirstLabel(p: seq<Byte>, at: nat, l: Label, rest: seq<Byte>)
    requires var n := 1 + |l| + |rest|; at + n <= |p| && p[at..at + n] == [|l| as Byte] + l + rest
    ensures p[at] == |l| && p[at + 1..at + 1 + |l|] == l && p[at + 1 + |l|..at + 1 + |l| + |rest|] == rest
  {
    var n := 1 + |l| + |rest|;
    var w := [|l| as Byte] + l + rest;
    assert w[1..1 + |l|] == l && w[1 + |l|..] == rest;
    SubSlice(p, at, n, 0, 1);
    SubSlice(p, at, n, 1, 1 + |l|);
    SubSlice(p, at, n, 1 + |l|, n);
    assert w[0..1] == [|l| as Byte] && p[at] == p[at + 0..at + 1][0];
  }

  lemma {:induction false} SubSlice(p: seq<Byte>, at: nat, n: nat, i: nat, j: nat)
    requires at + n <= |p| && i <= j <= n
    ensures p[at + i..at + j] == p[at..at + n][i..j]
  {
    var w, v := p[at + i..at + j], p[at..at + n][i..j];
    forall k | 0 <= k < j - i ensures w[k] == v[k] {
      assert v[k] == p[at..at + n][i + k];
    }
  }

  lemma {:induction false} LabelThenName(p: seq<Byte>, at: nat, start: nat, ls: seq<Label>, end: nat)
    requires ls != [] && at + 1 + |ls[0]| <= |p| && p[at] == |ls[0]| && p[at + 1..at + 1 + |ls[0]|] == ls[0]
    requires NameAt(p, at + 1 + |ls[0]|, start) == Some(Name(ls[1..], end))
    ensures NameAt(p, at, start) == Some(Name(ls, end))
  {
    assert ls == [ls[0]] + ls[1..];
  }

  // The dotted text of a name.
  function Dotted(ls: seq<Label>): (t: seq<Byte>)
    ensures t == [] <==> ls == []
  {
    if ls == [] then []
    else if |ls| == 1 then ls[0]
    else ls[0] + [DOT] + Dotted(ls[1..])
  }

  // --- The first walker ---

  // Where the name at `at` ends, 0 when it does not.
  function SkipFrom(p: seq<Byte>, at: nat): nat
    decreases |p| - at
  {
    if at >= |p| then 0
    else if p[at] == 0 then at + 1
    else if p[at] >= 192 then (if at + 1 < |p| then at + 2 else 0)
    else if at + 1 + p[at] > |p| then 0
    else SkipFrom(p, at + 1 + p[at])
  }

  method SkipName(packet: array<Byte>, len: nat, start: nat) returns (end: nat)
    requires len <= packet.Length
    ensures end == SkipFrom(packet[..len], start)
  {
    var offset := start;
    while offset < len
      invariant SkipFrom(packet[..len], offset) == SkipFrom(packet[..len], start)
      decreases len - offset
    {
      var n := packet[offset];
      offset := offset + 1;
      if n == 0 {
        return offset;
      }
      if n >= 192 {
        return if offset < len then offset + 1 else 0;
      }
      if offset + n > len {
        return 0;
      }
      offset := offset + n;
    }
    return 0;
  }

  // --- The second walker ---

  // What one question gives: whether it could be read, the text written so far, and the type.
  datatype Question = Question(ok: bool, text: seq<Byte>, qtype: nat)

  const UNKNOWN: seq<Byte> := [60, 117, 110, 107, 110, 111, 119, 110, 62]
  const ROOM := 95

  function Cut(s: seq<Byte>): (r: seq<Byte>)
    ensures |r| <= ROOM
  {
    if |s| <= ROOM then s else s[..ROOM]
  }

  // The text with one more label, as far as it fits.
  function WithLabel(text: seq<Byte>, l: seq<Byte>): seq<Byte> {
    Cut((if |text| > 0 then Cut(text + [DOT]) else text) + l)
  }

  function ReadFrom(p: seq<Byte>, at: nat, text: seq<Byte>): Question
    decreases |p| - at
  {
    if at >= |p| then QuestionEnd(p, at, text)
    else if p[at] == 0 then QuestionEnd(p, at + 1, text)
    else if p[at] >= 64 || at + 1 + p[at] > |p| then Question(false, text, 0)
    else ReadFrom(p, at + 1 + p[at], WithLabel(text, p[at + 1..at + 1 + p[at]]))
  }

  function QuestionEnd(p: seq<Byte>, end: nat, text: seq<Byte>): Question {
    if end + 4 > |p| then Question(false, text, 0)
    else Question(true, text, Word(p[end], p[end + 1]))
  }

  // The name buffer starts out as "<unknown>" and the type as 0; a packet too short to hold a
  // question leaves both alone.
  function QuestionInfo(p: seq<Byte>): Question {
    if |p| < 16 then Question(false, UNKNOWN, 0) else ReadFrom(p, HEADER, [])
  }

  // Copies one label into the text while there is room.
  method CopyLabel(packet: array<Byte>, ghost len: nat, at: nat, n: nat, text: seq<Byte>) returns (r: seq<Byte>)
    requires at + n <= len <= packet.Length && |text| <= ROOM
    ensures r == WithLabel(text, packet[..len][at..at + n])
  {
    r := text;
    if |r| > 0 && |r| < ROOM {
      r := r + [DOT];
    }
    ghost var base := r;
    var i := 0;
    while i < n && |r| < ROOM
      invariant 0 <= i <= n && |r| <= ROOM
      invariant r == base + packet[at..at + i]
    {
      assert packet[at..at + i + 1] == packet[at..at + i] + [packet[at + i]];
      r := r + [packet[at + i]];
      i := i + 1;
    }
    assert packet[..len][at..at + n] == packet[at..at + n];
    if i < n {
      assert (base + packet[at..at + n])[..ROOM] == base + packet[at..at + i];
    }
  }

  method GetQuestionInfo(packet: array<Byte>, len: nat) returns (q: Question)
    requires len <= packet.Length
    ensures q == QuestionInfo(packet[..len])
  {
    if len < 16 { return Question(false, UNKNOWN, 0); }
    q := ReadQuestion(packet, len);
  }

  method ReadQuestion(packet: array<Byte>, len: nat) returns (q: Question)
    requires len <= packet.Length
    ensures q == ReadFrom(packet[..len], HEADER, [])
  {
    ghost var p := packet[..len];
    var offset: nat, text := HEADER, [];
    while offset < len
      invariant |text| <= ROOM && ReadFrom(p, offset, text) == ReadFrom(p, HEADER, [])
      decreases len - offset
    {
      var n := packet[offset];
      assert n == p[offset];
      if n == 0 {
        q := EndOfQuestion(packet, len, offset + 1, text);
        return;
      }
      if n >= 64 || offset + 1 + n > len {
        return Question(false, text, 0);
      }
      text := CopyLabel(packet, len, offset + 1, n, text);
      offset := offset + 1 + n;
    }
    q := EndOfQuestion(packet, len, offset, text);
  }

  method EndOfQuestion(packet: array<Byte>, len: nat, end: nat, text: seq<Byte>) returns (q: Question)
    requires len <= packet.Length
    ensures q == QuestionEnd(packet[..len], end, text)
  {
    if end + 4 > len { return Question(false, text, 0); }
    q := Question(true, text, Word(packet[end], packet[end + 1]));
  }

  // --- The walkers agree ---

  // The text the second walker builds from a list of labels.
  function TextFrom(text: seq<Byte>, ls: seq<Label>): seq<Byte>
    decreases |ls|
  {
    if ls == [] then text else TextFrom(WithLabel(text, ls[0]), ls[1..])
  }

  // Without pointers to follow, one walk of the reference decides both walkers.
  lemma {:induction false} WalkersFollow(p: seq<Byte>, at: nat, text: seq<Byte>)
    requires HEADER <= at
    ensures match NameAt(p, at, HEADER)
            case Some(n) =>
              && SkipFrom(p, at) == n.end
              && ReadFrom(p, at, text) == QuestionEnd(p, n.end, TextFrom(text, n.labels))
            case None => !ReadFrom(p, at, text).ok
    decreases |p| - at
  {
    if at < |p| && 0 < p[at] < 64 && at + 1 + p[at] <= |p| {
      var l: Label := p[at + 1..at + 1 + p[at]];
      var next := at + 1 + p[at];
      WalkersFollow(p, next, WithLabel(text, l));
      if NameAt(p, next, HEADER).Some? {
        assert ([l] + NameAt(p, next, HEADER).value.labels)[1..] == NameAt(p, next, HEADER).value.labels;
      }
    }
  }

  // A text and some labels after it.
  function Joined(t: seq<Byte>, ls: seq<Label>): seq<Byte> {
    t + (if t == [] || ls == [] then [] else [DOT]) + Dotted(ls)
  }

  lemma {:induction false} JoinedStep(t: seq<Byte>, ls: seq<Label>)
    requires ls != []
    ensures Joined(t + (if t == [] then [] else [DOT]) + ls[0], ls[1..]) == Joined(t, ls)
  {
  }

  lemma {:induction false} WithLabelCut(t: seq<Byte>, l: Label)
    ensures WithLabel(Cut(t), l) == Cut(t + (if t == [] then [] else [DOT]) + l)
  {
    CutCut(t, [DOT]);
    CutCut(t + [DOT], l);
    CutCut(t, l);
    if t == [] {
      assert t + [] + l == l;
    }
  }

  // Truncating at every step is truncating once, at the end.
  lemma {:induction false} TextIsCutDotted(t: seq<Byte>, ls: seq<Label>)
    ensures TextFrom(Cut(t), ls) == Cut(Joined(t, ls))
    decreases |ls|
  {
    if ls == [] {
      assert Joined(t, ls) == t;
    } else {
      WithLabelCut(t, ls[0]);
      JoinedStep(t, ls);
      TextIsCutDotted(t + (if t == [] then [] else [DOT]) + ls[0], ls[1..]);
    }
  }

  lemma {:induction false} CutCut(a: seq<Byte>, b: seq<Byte>)
    ensures Cut(Cut(a) + b) == Cut(a + b)
  {
    if |a| > ROOM {
      assert (a[..ROOM] + b)[..ROOM] == a[..ROOM] == (a + b)[..ROOM];
    }
  }

  // The second walker succeeds exactly on packets that hold a question by the reference, reads
  // its type, writes its dotted text cut to the buffer, and then the first walker finds the
  // same end.
  lemma {:induction false} WalkersAgree(p: seq<Byte>)
    ensures QuestionInfo(p).ok <==> QuestionName(p).Some?
    ensures QuestionName(p).Some? ==>
              var n := QuestionName(p).value;
              && SkipFrom(p, HEADER) == n.end
              && QuestionInfo(p) == Question(true, Cut(Dotted(n.labels)), Word(p[n.end], p[n.end + 1]))
  {
    if |p| >= 16 {
      WalkersFollow(p, HEADER, []);
      var r := NameAt(p, HEADER, HEADER);
      if r.Some? {
        TextIsCutDotted([], r.value.labels);
        assert Joined([], r.value.labels) == Dotted(r.value.labels);
      }
    }
  }

  // --- Questions that cannot be read ---

  // Labels with no end to their list.
  function LabelBytes(ls: seq<Label>): seq<Byte> {
    if ls == [] then [] else [|ls[0]| as Byte] + ls[0] + LabelBytes(ls[1..])
  }

  // Nothing follows, or a length that is no label's, or a label that is cut off, or an end with
  // no room for type and class behind it.
  predicate Broken(tail: seq<Byte>) {
    tail == [] || tail[0] >= 64 || (tail[0] > 0 && 1 + tail[0] > |tail|) || (tail[0] == 0 && |tail| < 5)
  }

  lemma {:induction false} BrokenHere(p: seq<Byte>, at: nat, text: seq<Byte>)
    requires at <= |p| && Broken(p[at..])
    ensures ReadFrom(p, at, text) == Question(false, text, 0)
  {
    if at < |p| {
      assert p[at..][0] == p[at];
    }
  }

  lemma {:induction false} ReadStep(p: seq<Byte>, at: nat, l: Label, text: seq<Byte>)
    requires at + 1 + |l| <= |p| && p[at] == |l| && p[at + 1..at + 1 + |l|] == l
    ensures ReadFrom(p, at, text) == ReadFrom(p, at + 1 + |l|, WithLabel(text, l))
  {
  }

  ghost predicate StopsAt(p: seq<Byte>, end: nat) {
    forall t: seq<Byte> :: ReadFrom(p, end, t) == Question(false, t, 0)
  }

  lemma {:induction false} StopsAfter(p: seq<Byte>, at: nat, end: nat, ls: seq<Label>, text: seq<Byte>)
    requires at <= end <= |p| && p[at..end] == LabelBytes(ls) && StopsAt(p, end)
    ensures ReadFrom(p, at, text) == Question(false, TextFrom(text, ls), 0)
    decreases |ls|
  {
    if ls == [] {
      assert |p[at..end]| == 0;
    } else {
      LabelsStep(p, at, end, ls);
      ReadStep(p, at, ls[0], text);
      StopsAfter(p, at + 1 + |ls[0]|, end, ls[1..], WithLabel(text, ls[0]));
    }
  }

  lemma {:induction false} LabelsStep(p: seq<Byte>, at: nat, end: nat, ls: seq<Label>)
    requires at <= end <= |p| && p[at..end] == LabelBytes(ls) && ls != []
    ensures var next := at + 1 + |ls[0]|;
      next <= end && p[at] == |ls[0]| && p[at + 1..next] == ls[0] && p[next..end] == LabelBytes(ls[1..])
  {
    FirstLabel(p, at, ls[0], LabelBytes(ls[1..]));
  }

  // What cannot be read to its end leaves the text of the labels before, cut to the buffer, and
  // type 0; what is too short to be read at all leaves "<unknown>".
  lemma {:induction false} BrokenQuestion(header: seq<Byte>, ls: seq<Label>, tail: seq<Byte>)
    requires |header| == 12 && Broken(tail)
    ensures var p := header + LabelBytes(ls) + tail;
      QuestionInfo(p) == if |p| < 16 then Question(false, UNKNOWN, 0) else Question(false, Cut(Dotted(ls)), 0)
  {
    var p := header + LabelBytes(ls) + tail;
    var n := 12 + |LabelBytes(ls)|;
    assert p[12..n] == LabelBytes(ls) && p[n..] == tail;
    forall t: seq<Byte> ensures ReadFrom(p, n, t) == Question(false, t, 0) {
      BrokenHere(p, n, t);
    }
    StopsAfter(p, 12, n, ls, []);
    TextIsCutDotted([], ls);
    assert Joined([], ls) == Dotted(ls);
  }
}
