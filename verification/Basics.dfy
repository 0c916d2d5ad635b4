// Shared vocabulary: addresses, time, optional values, linear search and the pigeonhole principle.

module Basics {

  datatype Option<+T> = None | Some(value: T)

  // An IPv4 address as the 32-bit word the firmware stores; 0 means "no address".
  type Ip = a: nat | a < 0x1_0000_0000

  // A 48-bit hardware address; 0 means "unknown".
  type Mac = m: nat | m < 0x1_0000_0000_0000

  // Microseconds since boot, below the 136 years after which a cast of elapsed seconds to 32
  // bits would lose digits.
  type Micros = t: int | 0 < t < 0x1_0000_0000 * 1_000_000 witness 1

  // The first index at or after `from` whose element satisfies `p`, or -1.
  function FirstFrom<T>(s: seq<T>, p: T -> bool, from: nat): (i: int)
    requires from <= |s|
    ensures i == -1 || from <= i < |s|
    ensures i >= 0 ==> p(s[i]) && forall j :: from <= j < i ==> !p(s[j])
    ensures i < 0 ==> forall j :: from <= j < |s| ==> !p(s[j])
    decreases |s| - from
  {
    if from == |s| then -1
    else if p(s[from]) then from
    else FirstFrom(s, p, from + 1)
  }

  function First<T>(s: seq<T>, p: T -> bool): (i: int)
    ensures i == -1 || 0 <= i < |s|
    ensures i >= 0 ==> p(s[i]) && forall j :: 0 <= j < i ==> !p(s[j])
    ensures i < 0 ==> forall j :: 0 <= j < |s| ==> !p(s[j])
  {
    FirstFrom(s, p, 0)
  }

  ghost predicate Distinct<T(!new)>(s: seq<T>) {
    forall i, j :: 0 <= i < j < |s| ==> s[i] != s[j]
  }

  // Distinct values drawn from a finite set are no more than the set holds.
  lemma {:induction false} Pigeonhole<T(!new)>(s: seq<T>, room: set<T>)
    requires Distinct(s)
    requires forall i :: 0 <= i < |s| ==> s[i] in room
    ensures |s| <= |room|
  {
    if s != [] {
      var n := |s| - 1;
      forall i | 0 <= i < n ensures s[..n][i] in room - {s[n]} {
        assert s[..n][i] == s[i];
      }
      Pigeonhole(s[..n], room - {s[n]});
    }
  }

  // The set of slot numbers below n.
  function Below(n: nat): (r: set<int>)
    ensures forall i :: i in r <==> 0 <= i < n
    ensures |r| == n
  {
    if n == 0 then {} else Below(n - 1) + {n - 1}
  }

  // n slot numbers below n that leave one out repeat another.
  lemma {:induction false} NoneLeftOut(slots: seq<int>, n: nat, missing: int)
    requires |slots| == n && 0 <= missing < n
    requires forall i :: 0 <= i < n ==> 0 <= slots[i] < n && slots[i] != missing
    ensures !Distinct(slots)
  {
    if Distinct(slots) {
      Pigeonhole(slots, Below(n) - {missing});
    }
  }
}
