// The form decoder of components/cmd_router/cmd_router.c, which rewrites a NUL-terminated
// string in place, against percent-encoding (section 2.1 of RFC 3986) with '+' for a space.
// Characters are unsigned bytes, as they are on the station's processor.

module FormDecoder {
  import opened Words

  const PERCENT: Byte := 37
  const PLUS: Byte := 43
  const SPACE: Byte := 32

  function Upper(c: Byte): Byte { if 97 <= c <= 122 then c - 32 else c }

  // What the code makes of a hexadecimal digit, or of any other character, in 8 bits.
  function Digit(c: Byte): Byte { if c <= 57 then (c - 48) % 256 else (Upper(c) - 65 + 10) % 256 }

  function Pair(hi: Byte, lo: Byte): Byte { (Digit(hi) * 16 + Digit(lo)) % 256 }

  // Characters that are no digits count all the same: by their distance from '0' up to '9', and
  // beyond by that of their upper case from 'A', and ten.
  lemma AnyDigit(c: Byte)
    ensures (Digit(c) as int - if c <= '9' as int then c - '0' as int else Upper(c) - 'A' as int + 10) % 256 == 0
  {
  }

  // Left to right: a '%' with two characters after it takes both, whatever they are.
  function Decode(s: seq<Byte>): (r: seq<Byte>)
    ensures |r| <= |s|
  {
    if s == [] then []
    else if s[0] == PERCENT && |s| >= 3 then [Pair(s[1], s[2])] + Decode(s[3..])
    else if s[0] == PLUS then [SPACE] + Decode(s[1..])
    else [s[0]] + Decode(s[1..])
  }

  // --- The code ---

  method HexDigit(c: Byte) returns (a: Byte)
    ensures a == Digit(c)
  {
    if c <= 57 {
      a := (c - 48) % 256;
    } else {
      a := (Upper(c) - 65 + 10) % 256;
    }
  }

  // The first digit is shifted up in 8 bits before the second is added.
  method HexPair(hi: Byte, lo: Byte) returns (a: Byte)
    ensures a == Pair(hi, lo)
  {
    var x: int := HexDigit(hi);
    var y: int := HexDigit(lo);
    a := (x * 16 % 256 + y) % 256;
    LostAbove(x, y);
  }

  lemma LostAbove(x: int, y: int)
    ensures (x * 16 % 256 + y) % 256 == (x * 16 + y) % 256
  {
  }

  // Reads one character at p, or three, and says where the next one starts.
  method TakeOne(str: array<Byte>, p: nat, ghost n: nat) returns (a: Byte, next: nat)
    requires p < n < str.Length && str[n] == 0 && forall i :: p <= i < n ==> str[i] != 0
    ensures p < next <= n && Decode(str[p..n]) == [a] + Decode(str[next..n])
  {
    ghost var rest := str[p..n];
    if str[p] == PERCENT && str[p + 1] != 0 && str[p + 2] != 0 {
      a := HexPair(str[p + 1], str[p + 2]);
      next := p + 3;
      assert rest[3..] == str[next..n];
    } else {
      a := if str[p] == PLUS then SPACE else str[p];
      next := p + 1;
      assert rest[1..] == str[next..n];
    }
  }

  // The first q bytes hold what the first p bytes of the string stood for; the rest is untouched.
  ghost predicate Progress(was: seq<Byte>, now: seq<Byte>, n: nat, p: nat, q: nat) {
    && |now| == |was| && q <= p <= n < |was|
    && (forall i :: q <= i < |was| ==> now[i] == was[i])
    && Decode(was[..n]) == now[..q] + Decode(was[p..n])
  }

  lemma {:induction false} ProgressMade(was: seq<Byte>, before: seq<Byte>, n: nat, p: nat, q: nat, a: Byte, next: nat)
    requires Progress(was, before, n, p, q) && p < next <= n
    requires Decode(was[p..n]) == [a] + Decode(was[next..n])
    ensures Progress(was, before[q := a], n, next, q + 1)
  {
    assert before[q := a][..q + 1] == before[..q] + [a];
    Regroup(before[..q], a, Decode(was[next..n]));
  }

  lemma {:induction false} Regroup(done: seq<Byte>, a: Byte, rest: seq<Byte>)
    ensures done + ([a] + rest) == done + [a] + rest
  {
  }

  lemma {:induction false} Finished(was: seq<Byte>, before: seq<Byte>, n: nat, q: nat)
    requires Progress(was, before, n, n, q)
    ensures q == |Decode(was[..n])| && before[q := 0] == Decode(was[..n]) + [0] + was[q + 1..]
  {
    assert was[n..n] == [];
    assert before[q := 0] == before[..q] + [0] + was[q + 1..];
  }

  // `n` is the length of the string: the first NUL. The write index never passes the read
  // index, and what lies beyond the new terminator is left alone.
  method Preprocess(str: array<Byte>, ghost n: nat)
    requires n < str.Length && str[n] == 0 && forall i :: 0 <= i < n ==> str[i] != 0
    modifies str
    ensures var text := Decode(old(str[..n]));
            str[..] == text + [0] + old(str[..])[|text| + 1..]
  {
    ghost var was := str[..];
    var p: nat, q: nat := 0, 0;
    assert was[..n] == was[0..n];
    while str[p] != 0
      invariant Progress(was, str[..], n, p, q)
      decreases n - p
    {
      p, q := Advance(str, was, n, p, q);
    }
    Finished(was, str[..], n, q);
    ghost var before := str[..];
    str[q] := 0;
    assert str[..] == before[q := 0];
  }

  method Advance(str: array<Byte>, ghost was: seq<Byte>, ghost n: nat, p: nat, q: nat) returns (p': nat, q': nat)
    requires Progress(was, str[..], n, p, q) && p < n && was[n] == 0 && forall i :: 0 <= i < n ==> was[i] != 0
    modifies str
    ensures Progress(was, str[..], n, p', q') && p < p'
  {
    ghost var before := str[..];
    assert str[p..n] == was[p..n];
    assert forall i :: p <= i <= n ==> str[i] == before[i] == was[i];
    var a, next := TakeOne(str, p, n);
    assert str[next..n] == was[next..n];
    str[q] := a;
    assert str[..] == before[q := a];
    ProgressMade(was, before, n, p, q, a, next);
    p', q' := next, q + 1;
  }

  // --- Encoders ---

  // An encoder chooses a style for each character: as it is, '+' for a space, or '%' and two
  // hexadecimal digits, each in either case.
  datatype Style = Raw | Plus | Percent(upperHi: bool, upperLo: bool)

  predicate Fits(style: Style, c: Byte) {
    match style
    case Raw => c != 0 && c != PERCENT && c != PLUS
    case Plus => c == SPACE
    case Percent(_, _) => true
  }

  function HexChar(d: nat, upper: bool): (c: Byte)
    requires d < 16
    ensures c != 0 && Digit(c) == d
  {
    if d < 10 then 48 + d else if upper then 55 + d else 87 + d
  }

  function EncodeOne(c: Byte, style: Style): seq<Byte> {
    match style
    case Raw => [c]
    case Plus => [PLUS]
    case Percent(hi, lo) => [PERCENT, HexChar(c / 16, hi), HexChar(c % 16, lo)]
  }

  function Encode(t: seq<Byte>, styles: seq<Style>): seq<Byte>
    requires |styles| == |t|
  {
    if t == [] then [] else EncodeOne(t[0], styles[0]) + Encode(t[1..], styles[1..])
  }

  ghost predicate AllFit(t: seq<Byte>, styles: seq<Style>) {
    |styles| == |t| && forall i :: 0 <= i < |t| ==> Fits(styles[i], t[i])
  }

  // Round trip: whatever the encoder chose, decoding gives the text back.
  lemma {:induction false} DecodeInverts(t: seq<Byte>, styles: seq<Style>)
    requires AllFit(t, styles)
    ensures Decode(Encode(t, styles)) == t
    ensures forall i :: 0 <= i < |Encode(t, styles)| ==> Encode(t, styles)[i] != 0
    decreases |t|
  {
    if t != [] {
      DecodeInverts(t[1..], styles[1..]);
      DecodeOne(t[0], styles[0], Encode(t[1..], styles[1..]));
    }
  }

  lemma {:induction false} DecodeOne(c: Byte, style: Style, rest: seq<Byte>)
    requires Fits(style, c)
    ensures Decode(EncodeOne(c, style) + rest) == [c] + Decode(rest)
    ensures forall i :: 0 <= i < |EncodeOne(c, style)| ==> EncodeOne(c, style)[i] != 0
  {
    var s := EncodeOne(c, style) + rest;
    match style
    case Percent(hi, lo) => assert s[3..] == rest;
    case _ => assert s[1..] == rest;
  }

  // --- When nothing changes ---

  predicate Plain(s: seq<Byte>, i: nat)
    requires i < |s|
  {
    s[i] != PLUS && (s[i] == PERCENT ==> i + 2 >= |s|)
  }

  // The decoder leaves exactly those strings alone that hold no '+' and no '%' with two
  // characters after it.
  lemma {:induction false} IdentityIffPlain(s: seq<Byte>)
    ensures Decode(s) == s <==> forall i :: 0 <= i < |s| ==> Plain(s, i)
    decreases |s|
  {
    if s != [] {
      var rest := s[1..];
      IdentityIffPlain(rest);
      if Plain(s, 0) {
        assert s == [s[0]] + rest;
        assert Decode(s) == [s[0]] + Decode(rest);
        assert forall i :: 0 <= i < |rest| ==> Plain(rest, i) == Plain(s, i + 1);
        assert forall i :: 1 <= i < |s| ==> Plain(s, i) == Plain(rest, i - 1);
        assert Decode(s) == s <==> Decode(rest) == rest by {
          assert Decode(s)[1..] == Decode(rest);
        }
      } else if s[0] == PLUS {
        assert Decode(s)[0] == SPACE;
      } else {
        assert |Decode(s)| < |s|;
      }
    }
  }

  // On the buffer itself: an encoded text is replaced by the text, terminated where it ends.
  method DecodeForm(str: array<Byte>, ghost n: nat, ghost t: seq<Byte>, ghost styles: seq<Style>)
    requires n < str.Length && str[n] == 0 && AllFit(t, styles) && str[..n] == Encode(t, styles)
    modifies str
    ensures |t| < str.Length && str[..|t|] == t && str[|t|] == 0
  {
    DecodeInverts(t, styles);
    assert forall i :: 0 <= i < n ==> str[i] == str[..n][i];
    Preprocess(str, n);
  }
}
