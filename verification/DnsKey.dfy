// The cache key of main/dns_server.c: the question's text, cut to its buffer, read up to its
// first NUL and put into lower case, with the question's type.

module DnsKey {
  import opened Words
  import opened DnsWire

  datatype Key = Key(name: seq<Byte>, qtype: nat)

  function LowerByte(c: Byte): Byte { if 65 <= c <= 90 then c + 32 else c }

  function Lower(s: seq<Byte>): (r: seq<Byte>)
    ensures |r| == |s| && forall i :: 0 <= i < |s| ==> r[i] == LowerByte(s[i])
  {
    seq(|s|, i requires 0 <= i < |s| => LowerByte(s[i]))
  }

  // Two bytes are one to it exactly if they are the same or the two cases of one ASCII letter;
  // and what it gives is never a capital.
  lemma LowerIff(a: Byte, b: Byte)
    ensures LowerByte(a) == LowerByte(b) <==>
      a == b || ('A' as int <= a <= 'Z' as int && b == a + 32) || ('A' as int <= b <= 'Z' as int && a == b + 32)
    ensures !('A' as int <= LowerByte(a) <= 'Z' as int)
  {
  }

  // What the C string functions see of a text.
  function CString(s: seq<Byte>): (r: seq<Byte>)
    ensures |r| <= |s| && r == s[..|r|] && (forall i :: 0 <= i < |r| ==> r[i] != 0)
    ensures |r| < |s| ==> s[|r|] == 0
  {
    if s == [] || s[0] == 0 then [] else [s[0]] + CString(s[1..])
  }

  function KeyOf(packet: seq<Byte>): Key {
    var q := QuestionInfo(packet);
    Key(Lower(CString(q.text)), q.qtype)
  }

  // The code puts the buffer into lower case in place, up to its NUL.
  method Normalize(name: array<Byte>)
    requires |CString(name[..])| < name.Length
    modifies name
    ensures var n := |CString(old(name[..]))|;
            name[..] == Lower(old(name[..n])) + old(name[n..])
    ensures CString(name[..]) == Lower(CString(old(name[..])))
  {
    ghost var was := name[..];
    ghost var n := |CString(was)|;
    var p := 0;
    while name[p] != 0
      invariant 0 <= p <= n
      invariant forall i :: 0 <= i < p ==> name[i] == LowerByte(was[i])
      invariant forall i :: p <= i < name.Length ==> name[i] == was[i]
      decreases n - p
    {
      assert was[p] == CString(was)[p];
      name[p] := LowerByte(name[p]);
      p := p + 1;
    }
    assert name[..] == Lower(was[..n]) + was[n..];
    CStringIs(name[..], n);
  }

  lemma {:induction false} CStringIs(s: seq<Byte>, n: nat)
    requires n < |s| && s[n] == 0 && forall i :: 0 <= i < n ==> s[i] != 0
    ensures CString(s) == s[..n]
    decreases n
  {
    if n > 0 {
      CStringIs(s[1..], n - 1);
    }
  }

  lemma {:induction false} CStringAll(s: seq<Byte>)
    requires forall i :: 0 <= i < |s| ==> s[i] != 0
    ensures CString(s) == s
  {
  }

  // --- Which questions share a key ---

  // No '.' and no NUL inside a label.
  predicate Clean(l: Label) { forall i :: 0 <= i < |l| ==> l[i] != DOT && l[i] != 0 }

  ghost predicate AllClean(ls: seq<Label>) { forall i :: 0 <= i < |ls| ==> Clean(ls[i]) }

  function LowerAll(ls: seq<Label>): (r: seq<Label>)
    ensures |r| == |ls| && forall i :: 0 <= i < |ls| ==> r[i] == Lower(ls[i])
  {
    if ls == [] then [] else [Lower(ls[0])] + LowerAll(ls[1..])
  }

  lemma {:induction false} LowerDotted(ls: seq<Label>)
    ensures Lower(Dotted(ls)) == Dotted(LowerAll(ls))
    decreases |ls|
  {
    if |ls| > 1 {
      LowerDotted(ls[1..]);
      assert LowerAll(ls)[1..] == LowerAll(ls[1..]);
    }
  }

  lemma {:induction false} DottedHasNoNul(ls: seq<Label>)
    requires AllClean(ls)
    ensures forall i :: 0 <= i < |Dotted(ls)| ==> Dotted(ls)[i] != 0
    decreases |ls|
  {
    if |ls| > 0 {
      assert Clean(ls[0]);
      DottedHasNoNul(ls[1..]);
    }
  }

  lemma {:induction false} LowerClean(ls: seq<Label>)
    requires AllClean(ls)
    ensures AllClean(LowerAll(ls))
  {
    forall i | 0 <= i < |ls| ensures Clean(LowerAll(ls)[i]) {
      assert Clean(ls[i]);
    }
  }

  // Splitting at the dots gives the labels back: no two clean names share a text.
  lemma {:induction false} DottedInjective(a: seq<Label>, b: seq<Label>)
    requires AllClean(a) && AllClean(b) && Dotted(a) == Dotted(b)
    ensures a == b
    decreases |a|
  {
    if a != [] && b != [] {
      SameHead(a, b);
      if |a| > 1 {
        assert Dotted(a)[|a[0]| + 1..] == Dotted(a[1..]) && Dotted(b)[|b[0]| + 1..] == Dotted(b[1..]);
        DottedInjective(a[1..], b[1..]);
      }
      assert a == [a[0]] + a[1..] && b == [b[0]] + b[1..];
    }
  }

  // The first label ends at the first dot, or with the text.
  lemma {:induction false} FirstDot(ls: seq<Label>)
    requires AllClean(ls) && ls != []
    ensures var t, m := Dotted(ls), |ls[0]|;
            && m <= |t| && t[..m] == ls[0]
            && (forall i :: 0 <= i < m ==> t[i] != DOT)
            && (m < |t| ==> t[m] == DOT)
            && (|ls| == 1 <==> |t| == m)
  {
    assert Clean(ls[0]);
  }

  lemma {:induction false} SameHead(a: seq<Label>, b: seq<Label>)
    requires AllClean(a) && AllClean(b) && a != [] && b != [] && Dotted(a) == Dotted(b)
    ensures a[0] == b[0] && (|a| == 1 <==> |b| == 1)
  {
    FirstDot(a);
    FirstDot(b);
    assert |a[0]| == |b[0]|;
  }

  // A short clean question: its labels hold no '.' or NUL and its text fits the buffer.
  ghost predicate Short(p: seq<Byte>) {
    QuestionName(p).Some? && AllClean(QuestionName(p).value.labels) && |Dotted(QuestionName(p).value.labels)| <= ROOM
  }

  lemma {:induction false} KeyOfShort(p: seq<Byte>)
    requires Short(p)
    ensures var n := QuestionName(p).value;
            KeyOf(p) == Key(Dotted(LowerAll(n.labels)), Word(p[n.end], p[n.end + 1]))
  {
    var n := QuestionName(p).value;
    WalkersAgree(p);
    DottedHasNoNul(n.labels);
    CStringAll(Dotted(n.labels));
    LowerDotted(n.labels);
  }

  // Two short clean questions share a key exactly when they ask for the same type and their
  // labels are the same up to case.
  lemma {:induction false} SameKeyIff(p: seq<Byte>, q: seq<Byte>)
    requires Short(p) && Short(q)
    ensures var m, n := QuestionName(p).value, QuestionName(q).value;
            KeyOf(p) == KeyOf(q) <==>
            LowerAll(m.labels) == LowerAll(n.labels) && Word(p[m.end], p[m.end + 1]) == Word(q[n.end], q[n.end + 1])
  {
    var m, n := QuestionName(p).value, QuestionName(q).value;
    KeyOfShort(p);
    KeyOfShort(q);
    LowerClean(m.labels);
    LowerClean(n.labels);
    if Dotted(LowerAll(m.labels)) == Dotted(LowerAll(n.labels)) {
      DottedInjective(LowerAll(m.labels), LowerAll(n.labels));
    }
  }

  // The same labels up to case, and the same type.
  ghost predicate SameQuestion(p: seq<Byte>, q: seq<Byte>) {
    QuestionName(p).Some? && QuestionName(q).Some? &&
    var m, n := QuestionName(p).value, QuestionName(q).value;
    LowerAll(m.labels) == LowerAll(n.labels) && Word(p[m.end], p[m.end + 1]) == Word(q[n.end], q[n.end + 1])
  }

  lemma {:induction false} LowerKeepsClean(l: Label)
    ensures Clean(l) <==> Clean(Lower(l))
  {
    assert forall i :: 0 <= i < |l| ==> (l[i] == DOT <==> Lower(l)[i] == DOT) && (l[i] == 0 <==> Lower(l)[i] == 0);
  }

  // What asks the same as a short clean question is short and clean itself.
  lemma {:induction false} SameQuestionIsShort(p: seq<Byte>, q: seq<Byte>)
    requires Short(q) && SameQuestion(p, q)
    ensures Short(p)
  {
    var a, b := QuestionName(p).value.labels, QuestionName(q).value.labels;
    LowerDotted(a);
    LowerDotted(b);
    forall i | 0 <= i < |a| ensures Clean(a[i]) {
      assert Lower(a[i]) == LowerAll(a)[i] == LowerAll(b)[i] == Lower(b[i]);
      LowerKeepsClean(a[i]);
      LowerKeepsClean(b[i]);
    }
  }

  // A query that shares the key of a short clean question asks the same if and only if it is
  // short and clean too.
  lemma {:induction false} SameQuestionIff(p: seq<Byte>, q: seq<Byte>)
    requires Short(q) && KeyOf(p) == KeyOf(q)
    ensures SameQuestion(p, q) <==> Short(p)
  {
    if SameQuestion(p, q) {
      SameQuestionIsShort(p, q);
    }
    if Short(p) {
      SameKeyIff(p, q);
    }
  }

  // Both conditions are needed. Once a text fills the buffer, further labels do not show …
  lemma {:induction false} LongNamesCollide(ls: seq<Label>, l: Label)
    requires |Dotted(ls)| >= ROOM
    ensures Cut(Dotted(ls + [l])) == Cut(Dotted(ls))
  {
    DottedGrows(ls, l);
  }

  lemma {:induction false} DottedGrows(ls: seq<Label>, l: Label)
    requires ls != []
    ensures Dotted(ls + [l]) == Dotted(ls) + [DOT] + l
    decreases |ls|
  {
    if |ls| == 1 {
      assert (ls + [l])[1..] == [l];
    } else {
      DottedGrows(ls[1..], l);
      assert (ls + [l])[1..] == ls[1..] + [l];
    }
  }

  // … and a '.' inside a label looks like the border between two, as a NUL hides what follows it.
  lemma UncleanNamesCollide(a: Label, b: Label, c: Label)
    requires |a| + 1 + |b| <= 63
    ensures Dotted([a + [DOT] + b]) == Dotted([a, b])
    ensures |a| + 1 + |c| <= 63 ==> CString(a + [0] + b) == CString(a + [0] + c)
  {
    assert [a, b][1..] == [b];
    CStringStops(a, b);
    CStringStops(a, c);
  }

  lemma {:induction false} CStringStops(a: seq<Byte>, b: seq<Byte>)
    ensures CString(a + [0] + b) == CString(a)
    decreases |a|
  {
    var s := a + [0] + b;
    if a != [] && a[0] != 0 {
      CStringStops(a[1..], b);
      assert s[1..] == a[1..] + [0] + b;
    }
  }
}
