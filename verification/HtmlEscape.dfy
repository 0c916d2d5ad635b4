// The HTML escaper of main/http_server.c: one pass to size the buffer, one to fill it.

module HtmlEscape {
  import opened Words

  const AMPERSAND: Byte := 38
  const HASH: Byte := 35
  const SEMICOLON: Byte := 59

  // Backslash, quote, double quote, '&', '#' and ';'.
  predicate Special(c: Byte) { c == 92 || c == 39 || c == 34 || c == AMPERSAND || c == HASH || c == SEMICOLON }

  function Group(c: Byte): (g: seq<Byte>)
    requires Special(c)
    ensures |g| == 5
  {
    [AMPERSAND, HASH, 48 + c / 10, 48 + c % 10, SEMICOLON]
  }

  function Piece(c: Byte): (r: seq<Byte>) { if Special(c) then Group(c) else [c] }

  function Escaped(s: seq<Byte>): seq<Byte> {
    if s == [] then [] else Escaped(s[..|s| - 1]) + Piece(s[|s| - 1])
  }

  function Specials(s: seq<Byte>): nat {
    if s == [] then 0 else Specials(s[..|s| - 1]) + if Special(s[|s| - 1]) then 1 else 0
  }

  lemma {:induction false} EscapedLength(s: seq<Byte>)
    ensures |Escaped(s)| == |s| + 4 * Specials(s)
    decreases |s|
  {
    if s != [] {
      EscapedLength(s[..|s| - 1]);
    }
  }

  lemma {:induction false} SpecialsGrow(s: seq<Byte>, i: nat)
    requires i <= |s|
    ensures Specials(s[..i]) <= Specials(s)
    decreases |s|
  {
    if i < |s| {
      SpecialsGrow(s[..|s| - 1], i);
      assert s[..|s| - 1][..i] == s[..i];
    } else {
      assert s[..i] == s;
    }
  }

  // --- The code ---

  // The buffer is filled to its last byte and nothing is written past it.
  method Escape(src: seq<Byte>) returns (res: array<Byte>)
    ensures fresh(res) && res[..] == Escaped(src) + [0]
  {
    var len := |src|;
    var size := len + 1;
    for i := 0 to len
      invariant size == len + 1 + 4 * Specials(src[..i])
    {
      assert src[..i + 1][..i] == src[..i];
      if Special(src[i]) {
        size := size + 4;
      }
    }
    assert src[..len] == src;
    EscapedLength(src);
    res := new Byte[size](_ => 0);
    var j := 0;
    for i := 0 to len
      invariant j == |Escaped(src[..i])| < res.Length == |Escaped(src)| + 1
      invariant res[..j] == Escaped(src[..i])
    {
      assert src[..i + 1][..i] == src[..i];
      RoomForOne(src, i);
      j := Put(res, j, src[i]);
    }
    res[j] := 0;
  }

  method Put(res: array<Byte>, at: nat, c: Byte) returns (next: nat)
    requires at + |Piece(c)| <= res.Length
    modifies res
    ensures next == at + |Piece(c)| && res[..next] == old(res[..at]) + Piece(c)
  {
    if Special(c) {
      res[at], res[at + 1], res[at + 2], res[at + 3], res[at + 4] := AMPERSAND, HASH, 48 + c / 10, 48 + c % 10, SEMICOLON;
      next := at + 5;
      assert res[at..next] == Group(c);
    } else {
      res[at] := c;
      next := at + 1;
    }
  }

  lemma {:induction false} RoomForOne(src: seq<Byte>, i: nat)
    requires i < |src|
    ensures |Escaped(src[..i])| + |Piece(src[i])| <= |Escaped(src)|
  {
    EscapedLength(src);
    EscapedLength(src[..i]);
    SpecialsGrow(src, i + 1);
    assert src[..i + 1][..i] == src[..i];
  }

  // --- What the output looks like ---

  predicate IsDigit(c: Byte) { 48 <= c <= 57 }

  // A numeric character reference of five characters starts at i.
  predicate GroupAt(e: seq<Byte>, i: int) {
    0 <= i && i + 5 <= |e| && e[i] == AMPERSAND && e[i + 1] == HASH && IsDigit(e[i + 2]) && IsDigit(e[i + 3])
    && e[i + 4] == SEMICOLON
  }

  ghost predicate Harmless(e: seq<Byte>) {
    forall i :: 0 <= i < |e| ==>
      && e[i] != 92 && e[i] != 39 && e[i] != 34
      && (e[i] == AMPERSAND ==> GroupAt(e, i))
      && (e[i] == HASH ==> GroupAt(e, i - 1))
      && (e[i] == SEMICOLON ==> GroupAt(e, i - 4))
  }

  // No backslash or quote comes out, and '&', '#' and ';' only as parts of a reference.
  lemma {:induction false} EscapedIsHarmless(s: seq<Byte>)
    ensures Harmless(Escaped(s))
    decreases |s|
  {
    if s != [] {
      EscapedIsHarmless(s[..|s| - 1]);
      PieceIsHarmless(s[|s| - 1]);
      HarmlessAppend(Escaped(s[..|s| - 1]), Piece(s[|s| - 1]));
    }
  }

  lemma PieceIsHarmless(c: Byte)
    ensures Harmless(Piece(c))
  {
    if Special(c) {
      assert GroupAt(Piece(c), 0);
    }
  }

  lemma {:induction false} GroupMoves(a: seq<Byte>, b: seq<Byte>, k: int)
    ensures GroupAt(b, k) ==> GroupAt(a + b, k + |a|)
  {
  }

  lemma {:induction false} HarmlessAppend(a: seq<Byte>, b: seq<Byte>)
    requires Harmless(a) && Harmless(b)
    ensures Harmless(a + b)
  {
    var e := a + b;
    forall i | GroupAt(a, i) ensures GroupAt(e, i) {
    }
    forall i | 0 <= i < |e|
      ensures e[i] != 92 && e[i] != 39 && e[i] != 34
      ensures e[i] == AMPERSAND ==> GroupAt(e, i)
      ensures e[i] == HASH ==> GroupAt(e, i - 1)
      ensures e[i] == SEMICOLON ==> GroupAt(e, i - 4)
    {
      if i < |a| {
        assert e[i] == a[i];
      } else {
        var k := i - |a|;
        assert e[i] == b[k];
        GroupMoves(a, b, k);
        GroupMoves(a, b, k - 1);
        GroupMoves(a, b, k - 4);
      }
    }
  }

  // --- Reading it back ---

  // A decoder of two-digit numeric character references.
  function Unescaped(e: seq<Byte>): seq<Byte>
    decreases |e|
  {
    if e == [] then []
    else if GroupAt(e, 0) then [(e[2] - 48) * 10 + (e[3] - 48)] + Unescaped(e[5..])
    else [e[0]] + Unescaped(e[1..])
  }

  lemma {:induction false} UnescapeOne(c: Byte, rest: seq<Byte>)
    ensures Unescaped(Piece(c) + rest) == [c] + Unescaped(rest)
  {
    var e := Piece(c) + rest;
    if Special(c) {
      assert e[..5] == Group(c) && e[5..] == rest;
    } else {
      assert e[0] == c && e[1..] == rest;
    }
  }

  lemma {:induction false} Regrouped(a: seq<Byte>, b: seq<Byte>, c: seq<Byte>)
    ensures (a + b) + c == a + (b + c)
  {
  }

  lemma {:induction false} UnescapeFrom(s: seq<Byte>, rest: seq<Byte>)
    ensures Unescaped(Escaped(s) + rest) == s + Unescaped(rest)
    decreases |s|
  {
    if s == [] {
      assert Escaped(s) + rest == rest;
    } else {
      var n := |s| - 1;
      Regrouped(Escaped(s[..n]), Piece(s[n]), rest);
      UnescapeFrom(s[..n], Piece(s[n]) + rest);
      UnescapeOne(s[n], rest);
      Regrouped(s[..n], [s[n]], Unescaped(rest));
      assert s[..n] + [s[n]] == s;
    }
  }

  // Round trip: reading the references back gives the source, for every string; so two
  // different strings never look alike on the page.
  lemma {:induction false} EscapeRoundTrip(s: seq<Byte>)
    ensures Unescaped(Escaped(s)) == s
  {
    UnescapeFrom(s, []);
    assert Escaped(s) + [] == Escaped(s);
  }
}
